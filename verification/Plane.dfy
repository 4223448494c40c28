/** Vectors of a map grid, easting and northing, over the reals. */
module Plane {

  // ----- products and quotients, by their laws

  function Times(a: real, b: real): real { a * b }

  lemma TimesAdd(a: real, b: real, c: real)
    ensures Times(a, b + c) == Times(a, b) + Times(a, c) && Times(b + c, a) == Times(b, a) + Times(c, a)
    ensures Times(a, b - c) == Times(a, b) - Times(a, c) && Times(b - c, a) == Times(b, a) - Times(c, a)
  {}

  lemma TimesNeg(a: real, b: real)
    ensures Times(-a, b) == -Times(a, b) && Times(a, -b) == -Times(a, b)
  {}

  lemma TimesSwap(a: real, b: real)
    ensures Times(a, b) == Times(b, a)
  {}

  lemma TimesTimes(a: real, b: real, c: real)
    ensures Times(a, Times(b, c)) == Times(Times(a, b), c)
  {
    assert a * (b * c) == (a * b) * c;
  }

  lemma TimesOne(a: real)
    ensures Times(1.0, a) == a && Times(a, 1.0) == a && Times(0.0, a) == 0.0 && Times(a, 0.0) == 0.0
  {}

  lemma TimesPositive(a: real, b: real)
    requires a > 0.0
    ensures b > 0.0 ==> Times(a, b) > 0.0
    ensures b < 0.0 ==> Times(a, b) < 0.0
  {
    if b < 0.0 {
      Positive(a, -b);
      TimesNeg(a, b);
    } else if b > 0.0 {
      Positive(a, b);
    }
  }

  lemma Positive(a: real, b: real)
    requires a > 0.0 && b > 0.0
    ensures Times(a, b) > 0.0
  {}

  lemma SquareSign(x: real)
    ensures Times(x, x) >= 0.0 && (x != 0.0 ==> Times(x, x) > 0.0)
  {
    if x > 0.0 {
      Positive(x, x);
    } else if x < 0.0 {
      Positive(-x, -x);
      TimesNeg(x, -x);
      TimesNeg(x, x);
    } else {
      TimesOne(x);
    }
  }

  lemma SquareIsInjective(a: real, b: real)
    requires a >= 0.0 && b >= 0.0 && Times(a, a) == Times(b, b)
    ensures a == b
  {
    hide Times;
    if a != b {
      TimesAdd(a - b, a, b);
      TimesAdd(a, a, b);
      TimesAdd(b, a, b);
      TimesSwap(a, b);
      TimesSwap(a - b, a + b);
      TimesPositive(a + b, a - b);
    }
  }

  function Over(a: real, b: real): real
    requires b != 0.0
  {
    a / b
  }

  lemma OverTimes(a: real, b: real)
    requires b != 0.0
    ensures Times(Over(a, b), b) == a && Times(b, Over(a, b)) == a
  {}

  lemma OverIs(q: real, a: real, b: real)
    requires b != 0.0 && Times(q, b) == a
    ensures Over(a, b) == q
  {}

  lemma OverPositive(a: real, b: real)
    requires a > 0.0 && b > 0.0
    ensures Over(a, b) > 0.0
  {}

  // ----- vectors

  datatype Vec = Vec(x: real, y: real)

  function Add(u: Vec, v: Vec): Vec { Vec(u.x + v.x, u.y + v.y) }

  function Sub(u: Vec, v: Vec): Vec { Vec(u.x - v.x, u.y - v.y) }

  function Scale(t: real, v: Vec): Vec { Vec(Times(t, v.x), Times(t, v.y)) }

  function Dot(u: Vec, v: Vec): real { Times(u.x, v.x) + Times(u.y, v.y) }

  function Cross(u: Vec, v: Vec): real { Times(u.x, v.y) - Times(u.y, v.x) }

  function Minus(v: Vec): Vec { Vec(-v.x, -v.y) }

  /** A quarter turn clockwise. */
  function Right(v: Vec): Vec { Vec(v.y, -v.x) }

  const ZERO := Vec(0.0, 0.0)

  lemma CrossAdd(u: Vec, v: Vec, w: Vec)
    ensures Cross(u, Add(v, w)) == Cross(u, v) + Cross(u, w) && Cross(Add(v, w), u) == Cross(v, u) + Cross(w, u)
  {
    hide Times;
    TimesAdd(u.x, v.y, w.y);
    TimesAdd(u.y, v.x, w.x);
  }

  lemma CrossMinus(u: Vec, v: Vec)
    ensures Cross(Minus(u), v) == -Cross(u, v) && Cross(u, Minus(v)) == -Cross(u, v) && Cross(v, u) == -Cross(u, v)
  {
    hide Times;
    TimesNeg(u.x, v.y);
    TimesNeg(u.y, v.x);
    TimesSwap(u.x, v.y);
    TimesSwap(u.y, v.x);
  }

  lemma CrossScale(t: real, u: Vec, v: Vec)
    ensures Cross(u, Scale(t, v)) == Times(t, Cross(u, v)) && Cross(Scale(t, u), v) == Times(t, Cross(u, v))
  {
    hide Times;
    TimesAdd(t, Times(u.x, v.y), Times(u.y, v.x));
    TimesTimes(t, u.x, v.y);
    TimesTimes(t, u.y, v.x);
    TimesTimes(u.x, t, v.y);
    TimesTimes(u.y, t, v.x);
    TimesSwap(t, u.x);
    TimesSwap(t, u.y);
  }

  lemma DotAdd(u: Vec, v: Vec, w: Vec)
    ensures Dot(u, Add(v, w)) == Dot(u, v) + Dot(u, w) && Dot(Add(v, w), u) == Dot(v, u) + Dot(w, u)
  {
    hide Times;
    TimesAdd(u.x, v.x, w.x);
    TimesAdd(u.y, v.y, w.y);
  }

  lemma DotScale(t: real, u: Vec, v: Vec)
    ensures Dot(u, Scale(t, v)) == Times(t, Dot(u, v)) && Dot(Scale(t, u), v) == Times(t, Dot(u, v))
  {
    hide Times;
    TimesAdd(t, Times(u.x, v.x), Times(u.y, v.y));
    TimesTimes(t, u.x, v.x);
    TimesTimes(t, u.y, v.y);
    TimesTimes(u.x, t, v.x);
    TimesTimes(u.y, t, v.y);
    TimesSwap(t, u.x);
    TimesSwap(t, u.y);
  }

  lemma DotMinus(u: Vec, v: Vec)
    ensures Dot(u, Minus(v)) == -Dot(u, v) && Dot(Minus(v), u) == -Dot(v, u) && Dot(u, v) == Dot(v, u)
  {
    hide Times;
    TimesNeg(u.x, v.x);
    TimesNeg(u.y, v.y);
    TimesSwap(u.x, v.x);
    TimesSwap(u.y, v.y);
    TimesNeg(v.x, u.x);
    TimesNeg(v.y, u.y);
  }

  /** Turned a quarter clockwise a vector is as long, and square to what it was. */
  lemma RightIsSquare(v: Vec)
    ensures Dot(v, Right(v)) == 0.0 && Dot(Right(v), v) == 0.0 && Dot(Right(v), Right(v)) == Dot(v, v)
    ensures Cross(v, Right(v)) == -Dot(v, v)
  {
    hide Times;
    TimesNeg(v.y, v.x);
    TimesNeg(v.x, v.y);
    TimesNeg(v.x, v.x);
    TimesNeg(v.x, -v.x);
    TimesSwap(v.x, v.y);
  }

  lemma DotIsSquare(v: Vec)
    ensures Dot(v, v) >= 0.0 && (v != ZERO ==> Dot(v, v) > 0.0)
  {
    hide Times;
    SquareSign(v.x);
    SquareSign(v.y);
  }

  lemma ScaleScale(a: real, b: real, v: Vec)
    ensures Scale(a, Scale(b, v)) == Scale(Times(a, b), v)
  {
    hide Times;
    TimesTimes(a, b, v.x);
    TimesTimes(a, b, v.y);
  }

  // ----- lengths and directions

  /** The square roots the platform's hypot takes. */
  ghost predicate IsRoot(root: real -> real) {
    forall x: real :: x >= 0.0 ==> root(x) >= 0.0 && Times(root(x), root(x)) == x
  }

  /** hypot. */
  function Length(root: real -> real, v: Vec): real {
    root(Dot(v, v))
  }

  lemma LengthSquared(root: real -> real, v: Vec)
    requires IsRoot(root)
    ensures Length(root, v) >= 0.0 && Times(Length(root, v), Length(root, v)) == Dot(v, v)
    ensures v != ZERO ==> Length(root, v) > 0.0
  {
    DotIsSquare(v);
    var d := Dot(v, v);
    hide Dot, Times;
    assert root(d) >= 0.0 && Times(root(d), root(d)) == d;
    TimesOne(root(d));
  }

  /** A vector so many times a direction is that long. */
  lemma LengthOfScale(root: real -> real, t: real, u: Vec)
    requires IsRoot(root) && t >= 0.0 && Dot(u, u) == 1.0
    ensures Length(root, Scale(t, u)) == t
  {
    var v := Scale(t, u);
    DotScale(t, v, u);
    DotScale(t, u, u);
    hide Dot, Scale, Times;
    assert Dot(v, v) == Times(t, Times(t, 1.0));
    TimesOne(t);
    LengthSquared(root, v);
    SquareIsInjective(Length(root, v), t);
  }

  /** The direction of a vector: the sine and cosine of its bearing. */
  function Unit(root: real -> real, v: Vec): Vec
    requires Length(root, v) != 0.0
  {
    Scale(Over(1.0, Length(root, v)), v)
  }

  lemma UnitIsUnit(root: real -> real, v: Vec)
    requires IsRoot(root) && v != ZERO
    ensures Length(root, v) > 0.0
    ensures Dot(Unit(root, v), Unit(root, v)) == 1.0 && v == Scale(Length(root, v), Unit(root, v))
  {
    LengthSquared(root, v);
    var l := Length(root, v);
    var t := Over(1.0, l);
    OverTimes(1.0, l);
    DotScale(t, Scale(t, v), v);
    DotScale(t, v, v);
    ScaleScale(l, t, v);
    hide Dot, Times, Over;
    TimesTimes(t, l, l);
    TimesTimes(t, t, Times(l, l));
    TimesOne(l);
    assert Times(t, Times(t, Times(l, l))) == 1.0;
    TimesOne(v.x);
    TimesOne(v.y);
  }

  /** A direction that is positively along a vector is that vector's. */
  lemma UnitOfScale(root: real -> real, t: real, u: Vec)
    requires IsRoot(root) && t > 0.0 && Dot(u, u) == 1.0
    ensures Length(root, Scale(t, u)) == t && Unit(root, Scale(t, u)) == u
  {
    LengthOfScale(root, t, u);
    OverTimes(1.0, t);
    ScaleScale(Over(1.0, t), t, u);
    hide Dot, Times, Over;
    TimesOne(u.x);
    TimesOne(u.y);
  }
}
