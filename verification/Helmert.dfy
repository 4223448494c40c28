/** Composing Helmert transformations (geodetic_engine/_referencing/helmert.py, lines 176 to 276).

    Each is an affine map on geocentric coordinates whose rotation is linearised. Two compose to one
    of the same form but for the symmetric part of the product of their rotations. */
module Helmert {
  import opened Plane

  datatype Vec3 = Vec3(x: real, y: real, z: real)

  function Sum3(u: Vec3, v: Vec3): Vec3 { Vec3(u.x + v.x, u.y + v.y, u.z + v.z) }

  function Scaled(t: real, v: Vec3): Vec3 { Vec3(Times(t, v.x), Times(t, v.y), Times(t, v.z)) }

  function Dot3(u: Vec3, v: Vec3): real { Times(u.x, v.x) + Times(u.y, v.y) + Times(u.z, v.z) }

  const NOWHERE := Vec3(0.0, 0.0, 0.0)

  /** A matrix by its rows. */
  datatype Matrix = Matrix(a: Vec3, b: Vec3, c: Vec3)

  function Applied(m: Matrix, v: Vec3): Vec3 {
    Vec3(Dot3(m.a, v), Dot3(m.b, v), Dot3(m.c, v))
  }

  function Column(m: Matrix, k: nat): Vec3 {
    if k == 0 then Vec3(m.a.x, m.b.x, m.c.x) else if k == 1 then Vec3(m.a.y, m.b.y, m.c.y) else
        Vec3(m.a.z, m.b.z, m.c.z)
  }

  function RowTimes(row: Vec3, n: Matrix): Vec3 {
    Vec3(Dot3(row, Column(n, 0)), Dot3(row, Column(n, 1)), Dot3(row, Column(n, 2)))
  }

  function Product(m: Matrix, n: Matrix): Matrix {
    Matrix(RowTimes(m.a, n), RowTimes(m.b, n), RowTimes(m.c, n))
  }

  function Plus(m: Matrix, n: Matrix): Matrix {
    Matrix(Sum3(m.a, n.a), Sum3(m.b, n.b), Sum3(m.c, n.c))
  }

  /** The seven parameters, rotations in the position vector convention. */
  datatype Parameters = Parameters(t: Vec3, r: Vec3, scale: real)

  /** EPSG's linearised rotation. */
  function Rotation(r: Vec3): Matrix {
    Matrix(Vec3(1.0, -r.z, r.y), Vec3(r.z, 1.0, -r.x), Vec3(-r.y, r.x, 1.0))
  }

  /** What the transformation does to a geocentric position. */
  function Transformed(p: Parameters, v: Vec3): Vec3 {
    Sum3(p.t, Scaled(1.0 + p.scale, Applied(Rotation(p.r), v)))
  }

  /** compose. */
  function Composed(first: Parameters, second: Parameters): Parameters {
    var product := Product(Rotation(second.r), Rotation(first.r));
    var rotated := Applied(Rotation(second.r), first.t);
    Parameters(
      Vec3(second.t.x + Times(1.0 + second.scale, rotated.x), second.t.y + Times(1.0 + second.scale, rotated.y),
           second.t.z + Times(1.0 + second.scale, rotated.z)),
      Vec3((product.c.y - product.b.z) / 2.0, (product.a.z - product.c.x) / 2.0, (product.b.x - product.a.y) / 2.0),
      Times(1.0 + first.scale, 1.0 + second.scale) - 1.0)
  }

  // ----- linear algebra

  lemma DotSum(u: Vec3, v: Vec3, w: Vec3)
    ensures Dot3(u, Sum3(v, w)) == Dot3(u, v) + Dot3(u, w) && Dot3(Sum3(v, w), u) == Dot3(v, u) + Dot3(w, u)
  {
    hide Times;
    TimesAdd(u.x, v.x, w.x);
    TimesAdd(u.y, v.y, w.y);
    TimesAdd(u.z, v.z, w.z);
  }

  lemma DotScaled(t: real, u: Vec3, v: Vec3)
    ensures Dot3(u, Scaled(t, v)) == Times(t, Dot3(u, v)) && Dot3(Scaled(t, u), v) == Times(t, Dot3(u, v))
  {
    hide Times;
    TimesAdd(t, Times(u.x, v.x) + Times(u.y, v.y), Times(u.z, v.z));
    TimesAdd(t, Times(u.x, v.x), Times(u.y, v.y));
    Reordered(t, u.x, v.x);
    Reordered(t, u.y, v.y);
    Reordered(t, u.z, v.z);
  }

  lemma Reordered(t: real, a: real, b: real)
    ensures Times(a, Times(t, b)) == Times(Times(t, a), b) == Times(t, Times(a, b))
  {
    hide Times;
    TimesTimes(a, t, b);
    TimesTimes(t, a, b);
    TimesSwap(a, t);
  }

  lemma AppliedSum(m: Matrix, u: Vec3, v: Vec3)
    ensures Applied(m, Sum3(u, v)) == Sum3(Applied(m, u), Applied(m, v))
  {
    DotSum(m.a, u, v);
    DotSum(m.b, u, v);
    DotSum(m.c, u, v);
    hide Dot3;
  }

  lemma AppliedScaled(m: Matrix, t: real, v: Vec3)
    ensures Applied(m, Scaled(t, v)) == Scaled(t, Applied(m, v))
  {
    DotScaled(t, m.a, v);
    DotScaled(t, m.b, v);
    DotScaled(t, m.c, v);
    hide Dot3, Times;
  }

  lemma AppliedPlus(m: Matrix, n: Matrix, v: Vec3)
    ensures Applied(Plus(m, n), v) == Sum3(Applied(m, v), Applied(n, v))
  {
    DotSum(v, m.a, n.a);
    DotSum(v, m.b, n.b);
    DotSum(v, m.c, n.c);
    hide Dot3;
  }

  /** A row of a product is that much of each row of the second. */
  lemma RowApplied(row: Vec3, n: Matrix, v: Vec3)
    ensures Dot3(RowTimes(row, n), v) == Dot3(row, Applied(n, v))
  {
    var mix := Sum3(Sum3(Scaled(row.x, n.a), Scaled(row.y, n.b)), Scaled(row.z, n.c));
    assert RowTimes(row, n) == mix;
    DotSum(v, Sum3(Scaled(row.x, n.a), Scaled(row.y, n.b)), Scaled(row.z, n.c));
    DotSum(v, Scaled(row.x, n.a), Scaled(row.y, n.b));
    DotScaled(row.x, n.a, v);
    DotScaled(row.y, n.b, v);
    DotScaled(row.z, n.c, v);
    assert Dot3(row, Applied(n, v)) == Times(row.x, Dot3(n.a, v)) + Times(row.y, Dot3(n.b, v)) +
        Times(row.z, Dot3(n.c, v));
    hide Times, Dot3, Scaled, RowTimes;
  }

  lemma ProductApplied(m: Matrix, n: Matrix, v: Vec3)
    ensures Applied(Product(m, n), v) == Applied(m, Applied(n, v))
  {
    RowApplied(m.a, n, v);
    RowApplied(m.b, n, v);
    RowApplied(m.c, n, v);
    hide Dot3, RowTimes;
  }

  lemma ScaledSum(t: real, u: Vec3, v: Vec3)
    ensures Scaled(t, Sum3(u, v)) == Sum3(Scaled(t, u), Scaled(t, v))
  {
    TimesAdd(t, u.x, v.x);
    TimesAdd(t, u.y, v.y);
    TimesAdd(t, u.z, v.z);
    hide Times;
  }

  lemma ScaledTwice(s: real, t: real, v: Vec3)
    ensures Scaled(s, Scaled(t, v)) == Scaled(Times(t, s), v)
  {
    TimesTimes(s, t, v.x);
    TimesTimes(s, t, v.y);
    TimesTimes(s, t, v.z);
    TimesSwap(s, t);
    hide Times;
  }

  // ----- what is dropped

  /** The symmetric part of the product of two linearised rotations, less the identity. */
  function Dropped(first: Vec3, second: Vec3): Matrix {
    var d := Dot3(first, second);
    var xy := (Times(first.x, second.y) + Times(first.y, second.x)) / 2.0;
    var xz := (Times(first.x, second.z) + Times(first.z, second.x)) / 2.0;
    var yz := (Times(first.y, second.z) + Times(first.z, second.y)) / 2.0;
    Matrix(Vec3(Times(first.x, second.x) - d, xy, xz), Vec3(xy, Times(first.y, second.y) - d, yz),
           Vec3(xz, yz, Times(first.z, second.z) - d))
  }

  function Transposed(m: Matrix): Matrix {
    Matrix(Column(m, 0), Column(m, 1), Column(m, 2))
  }

  /** The product of two rotations is the composed one's rotation, and what is dropped: a symmetric matrix. */
  lemma ProductIsRotationAndDropped(first: Parameters, second: Parameters)
    ensures Product(Rotation(second.r), Rotation(first.r)) ==
      Plus(Rotation(Composed(first, second).r), Dropped(first.r, second.r))
    ensures Transposed(Dropped(first.r, second.r)) == Dropped(first.r, second.r)
  {
    var p, q := first.r, second.r;
    ProductOfRotations(p, q);
  }

  /** Entry by entry. */
  lemma ProductOfRotations(p: Vec3, q: Vec3)
    ensures Product(Rotation(q), Rotation(p)) == Matrix(
              Vec3(1.0 - Times(q.z, p.z) - Times(q.y, p.y), -p.z - q.z + Times(q.y, p.x), p.y + Times(q.z, p.x) + q.y),
              Vec3(q.z + p.z + Times(q.x, p.y), -Times(q.z, p.z) + 1.0 - Times(q.x, p.x), Times(q.z, p.y) - p.x - q.x),
              Vec3(-q.y + Times(q.x, p.z) - p.y, Times(q.y, p.z) + q.x + p.x, -Times(q.y, p.y) - Times(q.x, p.x) + 1.0))
  {
    EntrySigns(q.x, p.x, p.y, p.z);
    EntrySigns(q.y, p.x, p.y, p.z);
    EntrySigns(q.z, p.x, p.y, p.z);
    TimesOne(p.x);
    TimesOne(p.y);
    TimesOne(p.z);
    TimesOne(q.x);
    TimesOne(q.y);
    TimesOne(q.z);
    TimesOne(-p.x);
    TimesOne(-p.y);
    TimesOne(-p.z);
    TimesOne(-q.x);
    TimesOne(-q.y);
    TimesOne(-q.z);
    TimesOne(1.0);
    hide Times;
  }

  lemma EntrySigns(a: real, x: real, y: real, z: real)
    ensures Times(-a, x) == -Times(a, x) && Times(a, -x) == -Times(a, x) && Times(-a, -x) == Times(a, x)
    ensures Times(-a, y) == -Times(a, y) && Times(a, -y) == -Times(a, y) && Times(-a, -y) == Times(a, y)
    ensures Times(-a, z) == -Times(a, z) && Times(a, -z) == -Times(a, z) && Times(-a, -z) == Times(a, z)
  {
    TimesNeg(a, x);
    TimesNeg(a, -x);
    TimesNeg(a, y);
    TimesNeg(a, -y);
    TimesNeg(a, z);
    TimesNeg(a, -z);
    hide Times;
  }

  // ----- by coordinates

  /** The position vector convention, coordinate by coordinate. */
  lemma TransformedByCoordinates(p: Parameters, v: Vec3)
    ensures var w := Transformed(p, v);
            && w.x == p.t.x + (1.0 + p.scale) * (v.x - p.r.z * v.y + p.r.y * v.z)
            && w.y == p.t.y + (1.0 + p.scale) * (p.r.z * v.x + v.y - p.r.x * v.z)
            && w.z == p.t.z + (1.0 + p.scale) * (v.z - p.r.y * v.x + p.r.x * v.y)
  {
    RotatedByCoordinates(p.r, v);
    var u := Applied(Rotation(p.r), v);
    TimesIs(1.0 + p.scale, u.x);
    TimesIs(1.0 + p.scale, u.y);
    TimesIs(1.0 + p.scale, u.z);
    hide Times, Applied, Rotation;
  }

  lemma RotatedByCoordinates(r: Vec3, v: Vec3)
    ensures Applied(Rotation(r), v) ==
      Vec3(v.x - r.z * v.y + r.y * v.z, r.z * v.x + v.y - r.x * v.z, v.z - r.y * v.x + r.x * v.y)
  {
    EntrySigns(r.x, v.x, v.y, v.z);
    EntrySigns(r.y, v.x, v.y, v.z);
    EntrySigns(r.z, v.x, v.y, v.z);
    TimesOne(v.x);
    TimesOne(v.y);
    TimesOne(v.z);
    ThreeTimes(r.x, v);
    ThreeTimes(r.y, v);
    ThreeTimes(r.z, v);
    hide Times;
  }

  lemma ThreeTimes(a: real, v: Vec3)
    ensures Times(a, v.x) == a * v.x && Times(a, v.y) == a * v.y && Times(a, v.z) == a * v.z
  {}

  lemma TimesIs(a: real, b: real)
    ensures Times(a, b) == a * b
  {}

  /** Composed, rotations add up, and half the product of the second across the first; the first's translation is
      rotated and scaled by the second; and scales multiply. */
  lemma ComposedByCoordinates(first: Parameters, second: Parameters)
    ensures var p, q, r := first.r, second.r, Composed(first, second).r;
            && r.x == p.x + q.x + (q.y * p.z - q.z * p.y) / 2.0 && r.y == p.y + q.y + (q.z * p.x - q.x * p.z) / 2.0
            && r.z == p.z + q.z + (q.x * p.y - q.y * p.x) / 2.0
    ensures Composed(first, second).t == Transformed(second, first.t)
    ensures Composed(first, second).scale == (1.0 + first.scale) * (1.0 + second.scale) - 1.0
  {
    ProductOfRotations(first.r, second.r);
    ThreeTimes(second.r.x, first.r);
    ThreeTimes(second.r.y, first.r);
    ThreeTimes(second.r.z, first.r);
    TimesIs(1.0 + first.scale, 1.0 + second.scale);
    ComposedParts(first, second);
    hide Times, Product, Rotation, Applied;
  }

  /** Scale of both together. */
  function Both(first: Parameters, second: Parameters): real {
    Times(1.0 + first.scale, 1.0 + second.scale)
  }

  /** One after the other is the composed transformation, and what the dropped part does, scaled by both. */
  lemma ComposedButForDropped(first: Parameters, second: Parameters, v: Vec3)
    ensures Transformed(second, Transformed(first, v))
            == Sum3(Transformed(Composed(first, second), v),
                    Scaled(Both(first, second), Applied(Dropped(first.r, second.r), v)))
  {
    var k, s, t := Both(first, second), 1.0 + first.scale, 1.0 + second.scale;
    var q, p := Rotation(second.r), Rotation(first.r);
    var c, d := Rotation(Composed(first, second).r), Dropped(first.r, second.r);
    AppliedSum(q, first.t, Scaled(s, Applied(p, v)));
    AppliedScaled(q, s, Applied(p, v));
    ProductApplied(q, p, v);
    ProductIsRotationAndDropped(first, second);
    AppliedPlus(c, d, v);
    ScaledSum(t, Applied(q, first.t), Scaled(s, Applied(Product(q, p), v)));
    ScaledTwice(t, s, Applied(Product(q, p), v));
    ScaledSum(k, Applied(c, v), Applied(d, v));
    ComposedParts(first, second);
    hide Times, Applied, Scaled, Rotation, Dropped, Product, Composed;
  }

  lemma ComposedParts(first: Parameters, second: Parameters)
    ensures Composed(first, second).t ==
      Sum3(second.t, Scaled(1.0 + second.scale, Applied(Rotation(second.r), first.t)))
    ensures 1.0 + Composed(first, second).scale == Both(first, second)
  {
    hide Times, Product, Rotation, Dot3;
  }

  /** So composing is exact just when one of the two does not rotate, or nothing is left of a position. */
  lemma ExactlyExact(first: Parameters, second: Parameters)
    ensures (forall v: Vec3 :: Transformed(second, Transformed(first, v)) == Transformed(Composed(first, second), v))
            <==> first.r == NOWHERE || second.r == NOWHERE || Both(first, second) == 0.0
  {
    if first.r == NOWHERE || second.r == NOWHERE || Both(first, second) == 0.0 {
      forall v: Vec3 ensures Transformed(second, Transformed(first, v)) == Transformed(Composed(first, second), v) {
        NothingIsDropped(first, second, v);
      }
    } else {
      var v := Missed(first, second);
    }
  }

  lemma NothingIsDropped(first: Parameters, second: Parameters, v: Vec3)
    requires first.r == NOWHERE || second.r == NOWHERE || Both(first, second) == 0.0
    ensures Transformed(second, Transformed(first, v)) == Transformed(Composed(first, second), v)
  {
    ComposedButForDropped(first, second, v);
    var dropped := Applied(Dropped(first.r, second.r), v);
    if Both(first, second) == 0.0 {
      TimesOne(dropped.x);
      TimesOne(dropped.y);
      TimesOne(dropped.z);
    } else {
      ZeroDropped(first.r, second.r, v);
      TimesOne(Both(first, second));
    }
    hide Times, Transformed, Composed, Dropped, Applied;
  }

  lemma ZeroDropped(p: Vec3, q: Vec3, v: Vec3)
    requires p == NOWHERE || q == NOWHERE
    ensures Applied(Dropped(p, q), v) == NOWHERE
  {
    AllZero(p);
    AllZero(q);
    AllZero(v);
    hide Times;
  }

  lemma AllZero(v: Vec3)
    ensures Times(0.0, v.x) == 0.0 && Times(0.0, v.y) == 0.0 && Times(0.0, v.z) == 0.0
    ensures Times(v.x, 0.0) == 0.0 && Times(v.y, 0.0) == 0.0 && Times(v.z, 0.0) == 0.0
  {
    TimesOne(v.x);
    TimesOne(v.y);
    TimesOne(v.z);
  }

  /** Along some axis two rotations are not composed exactly. */
  lemma Missed(first: Parameters, second: Parameters) returns (v: Vec3)
    requires first.r != NOWHERE && second.r != NOWHERE && Both(first, second) != 0.0
    ensures Transformed(second, Transformed(first, v)) != Transformed(Composed(first, second), v)
  {
    var m, k := Dropped(first.r, second.r), Both(first, second);
    SomethingIsDropped(first.r, second.r);
    v := if Column(m, 0) != NOWHERE then Vec3(1.0, 0.0, 0.0) else if Column(m, 1) != NOWHERE then
        Vec3(0.0, 1.0, 0.0) else Vec3(0.0, 0.0, 1.0);
    hide *;
    AlongAnAxis(m);
    ComposedButForDropped(first, second, v);
    assert Applied(m, v) != NOWHERE;
    ScaledIsSome(k, Applied(m, v));
    AddedIsOther(Transformed(Composed(first, second), v), Scaled(k, Applied(m, v)));
  }

  lemma ScaledIsSome(k: real, v: Vec3)
    requires k != 0.0 && v != NOWHERE
    ensures Scaled(k, v) != NOWHERE
  {
    NotZeroTimes(k, v.x);
    NotZeroTimes(k, v.y);
    NotZeroTimes(k, v.z);
    hide Times;
  }

  lemma AddedIsOther(u: Vec3, v: Vec3)
    requires v != NOWHERE
    ensures Sum3(u, v) != u
  {}

  lemma NotZeroTimes(k: real, x: real)
    requires k != 0.0
    ensures x != 0.0 ==> Times(k, x) != 0.0
  {
    if x != 0.0 {
      if k > 0.0 {
        TimesPositive(k, x);
      } else {
        TimesPositive(-k, x);
        TimesNeg(k, x);
      }
    }
  }

  lemma AlongAnAxis(m: Matrix)
    ensures Applied(m, Vec3(1.0, 0.0, 0.0)) == Column(m, 0)
    ensures Applied(m, Vec3(0.0, 1.0, 0.0)) == Column(m, 1)
    ensures Applied(m, Vec3(0.0, 0.0, 1.0)) == Column(m, 2)
  {
    OnesAndZeros(m.a);
    OnesAndZeros(m.b);
    OnesAndZeros(m.c);
    hide Times;
  }

  lemma OnesAndZeros(v: Vec3)
    ensures Times(v.x, 1.0) == v.x && Times(v.y, 1.0) == v.y && Times(v.z, 1.0) == v.z
    ensures Times(v.x, 0.0) == 0.0 && Times(v.y, 0.0) == 0.0 && Times(v.z, 0.0) == 0.0
  {
    TimesOne(v.x);
    TimesOne(v.y);
    TimesOne(v.z);
  }

  /** The dropped part of two rotations that are both some is not nothing. */
  lemma SomethingIsDropped(p: Vec3, q: Vec3)
    requires p != NOWHERE && q != NOWHERE
    ensures var m := Dropped(p, q); Column(m, 0) != NOWHERE || Column(m, 1) != NOWHERE || Column(m, 2) != NOWHERE
  {
    var m := Dropped(p, q);
    if Column(m, 0) == NOWHERE && Column(m, 1) == NOWHERE && Column(m, 2) == NOWHERE {
      var x, y, z := Times(p.x, q.x), Times(p.y, q.y), Times(p.z, q.z);
      assert Dot3(p, q) == x + y + z;
      assert x == 0.0 && y == 0.0 && z == 0.0;
      if p.x != 0.0 {
        Crossed(p.x, q.x, p.y, q.y);
        Crossed(p.x, q.x, p.z, q.z);
      } else if p.y != 0.0 {
        Crossed(p.y, q.y, p.x, q.x);
        Crossed(p.y, q.y, p.z, q.z);
      } else {
        Crossed(p.z, q.z, p.x, q.x);
        Crossed(p.z, q.z, p.y, q.y);
      }
      hide Times;
    }
  }

  /** With no product along an axis, and none across two, the other rotation has neither. */
  lemma Crossed(a: real, b: real, c: real, d: real)
    requires a != 0.0 && Times(a, b) == 0.0 && Times(a, d) + Times(c, b) == 0.0
    ensures b == 0.0 && d == 0.0
  {
    NotZeroTimes(a, b);
    TimesOne(c);
    NotZeroTimes(a, d);
    hide Times;
  }

  // ----- a chain

  function Chained(steps: seq<Parameters>, v: Vec3): Vec3 {
    if steps == [] then v else Transformed(steps[|steps| - 1], Chained(steps[..|steps| - 1], v))
  }

  function Folded(steps: seq<Parameters>): Parameters
    requires steps != []
  {
    if |steps| == 1 then steps[0] else Composed(Folded(steps[..|steps| - 1]), steps[|steps| - 1])
  }

  /** What a step does to a difference of positions. */
  function Turned(p: Parameters, v: Vec3): Vec3 {
    Scaled(1.0 + p.scale, Applied(Rotation(p.r), v))
  }

  /** What collapsing a chain drops at a position: what each composition drops, taken on by the steps after it. */
  function DroppedOf(steps: seq<Parameters>, v: Vec3): Vec3
    requires steps != []
  {
    if |steps| == 1 then NOWHERE else
      var before, last := steps[..|steps| - 1], steps[|steps| - 1];
      var first := Folded(before);
      Sum3(Turned(last, DroppedOf(before, v)), Scaled(Both(first, last), Applied(Dropped(first.r, last.r), v)))
  }

  /** Any chain is the transformation it collapses to, and what was dropped. */
  lemma {:induction false} FoldedButForDropped(steps: seq<Parameters>, v: Vec3)
    requires steps != []
    ensures Chained(steps, v) == Sum3(Transformed(Folded(steps), v), DroppedOf(steps, v))
  {
    hide Transformed, Composed, Both, Dropped, Applied, Scaled, Turned;
    if |steps| == 1 {
      assert Chained(steps[..0], v) == v;
      return;
    }
    var before, last := steps[..|steps| - 1], steps[|steps| - 1];
    FoldedButForDropped(before, v);
    TransformedSum(last, Transformed(Folded(before), v), DroppedOf(before, v));
    ComposedButForDropped(Folded(before), last, v);
  }

  lemma TransformedSum(p: Parameters, u: Vec3, v: Vec3)
    ensures Transformed(p, Sum3(u, v)) == Sum3(Transformed(p, u), Turned(p, v))
  {
    AppliedSum(Rotation(p.r), u, v);
    ScaledSum(1.0 + p.scale, Applied(Rotation(p.r), u), Applied(Rotation(p.r), v));
    hide Applied, Scaled, Rotation;
  }

  /** collapse_concatenated's loop. */
  method Collapse(steps: seq<Parameters>) returns (combined: Parameters)
    requires steps != []
    ensures combined == Folded(steps)
    ensures forall v: Vec3 :: Chained(steps, v) == Sum3(Transformed(combined, v), DroppedOf(steps, v))
    ensures AtMostOneRotates(steps) ==> forall v: Vec3 :: Chained(steps, v) == Transformed(combined, v)
  {
    combined := steps[0];
    for i := 1 to |steps|
      invariant combined == Folded(steps[..i])
    {
      assert steps[..i + 1][..i] == steps[..i];
      combined := Composed(combined, steps[i]);
    }
    assert steps[..|steps|] == steps;
    forall v: Vec3 ensures Chained(steps, v) == Sum3(Transformed(combined, v), DroppedOf(steps, v)) {
      FoldedButForDropped(steps, v);
    }
    if AtMostOneRotates(steps) {
      forall v: Vec3 ensures Chained(steps, v) == Transformed(combined, v) {
        FoldedIsExact(steps, v);
      }
    }
  }

  ghost predicate AtMostOneRotates(steps: seq<Parameters>) {
    forall i, j :: 0 <= i < j < |steps| ==> steps[i].r == NOWHERE || steps[j].r == NOWHERE
  }

  /** A chain with at most one step that rotates collapses to the very same transformation. */
  lemma {:induction false} FoldedIsExact(steps: seq<Parameters>, v: Vec3)
    requires steps != [] && AtMostOneRotates(steps)
    ensures Chained(steps, v) == Transformed(Folded(steps), v)
    ensures (forall i :: 0 <= i < |steps| ==> steps[i].r == NOWHERE) ==> Folded(steps).r == NOWHERE
  {
    hide Transformed, Composed, Both;
    if |steps| == 1 {
      assert Chained(steps[..0], v) == v;
    } else {
      var before, last := steps[..|steps| - 1], steps[|steps| - 1];
      FoldedIsExact(before, v);
      if last.r != NOWHERE {
        assert forall i :: 0 <= i < |before| ==> steps[i].r == NOWHERE;
      }
      NothingIsDropped(Folded(before), last, v);
      if Folded(before).r == NOWHERE && last.r == NOWHERE {
        NoRotationComposed(Folded(before), last);
      }
    }
  }

  lemma NoRotationComposed(first: Parameters, second: Parameters)
    requires first.r == NOWHERE && second.r == NOWHERE
    ensures Composed(first, second).r == NOWHERE
  {
    ProductOfRotations(first.r, second.r);
    TimesOne(0.0);
    hide Times, Product;
  }
}
