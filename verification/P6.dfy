/** Seismic bin grids by their parameters (geodetic_engine/bingrid/p6.py).

    A grid takes inline and crossline numbers to the map grid and back, as EPSG methods 9666 and
    1049 do. The bearing of its J-axis is kept as that axis's direction: the sine and cosine of the
    bearing. */
module P6 {
  import opened Plane

  /** The parameters: origin, bin widths on the ground, direction of the J-axis, handedness, scale
      factor and node increments. */
  datatype Grid = Grid(originI: real, originJ: real, origin: Vec, widthI: real, widthJ: real, axisJ: Vec, right: bool,
                       scale: real, incrementI: int, incrementJ: int)

  ghost predicate IsGrid(g: Grid) {
    && g.widthI > 0.0 && g.widthJ > 0.0 && g.scale > 0.0 && g.incrementI >= 1 && g.incrementJ >= 1
    && Dot(g.axisJ, g.axisJ) == 1.0
  }

  /** Map grid distance per unit of a number: k d / inc. */
  function Step(scale: real, width: real, increment: int): real
    requires increment >= 1
  {
    Over(Times(scale, width), increment as real)
  }

  function StepI(g: Grid): real
    requires g.incrementI >= 1
  {
    Step(g.scale, g.widthI, g.incrementI)
  }

  function StepJ(g: Grid): real
    requires g.incrementJ >= 1
  {
    Step(g.scale, g.widthJ, g.incrementJ)
  }

  /** The handedness's sign, times a number. */
  function Signed(right: bool, x: real): real {
    if right then x else -x
  }

  lemma StepsArePositive(g: Grid)
    requires IsGrid(g)
    ensures StepI(g) > 0.0 && StepJ(g) > 0.0
  {
    Positive(g.scale, g.widthI);
    Positive(g.scale, g.widthJ);
    OverPositive(Times(g.scale, g.widthI), g.incrementI as real);
    OverPositive(Times(g.scale, g.widthJ), g.incrementJ as real);
  }

  // ----- the affine PROJ runs

  /** An affine: offsets off the origin to numbers. */
  datatype Affine = Affine(xoff: real, yoff: real, s11: real, s12: real, s21: real, s22: real)

  /** _offsets_to_bin. */
  function OffsetsToBin(g: Grid): Affine
    requires g.incrementI >= 1 && g.incrementJ >= 1 && StepI(g) != 0.0 && StepJ(g) != 0.0
  {
    var perI, perJ := Over(1.0, StepI(g)), Over(1.0, StepJ(g));
    Affine(g.originI, g.originJ,
           Signed(g.right, Times(perI, g.axisJ.y)), -Signed(g.right, Times(perI, g.axisJ.x)),
           Times(perJ, g.axisJ.x), Times(perJ, g.axisJ.y))
  }

  function Apply(a: Affine, v: Vec): Vec {
    Vec(a.xoff + Times(a.s11, v.x) + Times(a.s12, v.y), a.yoff + Times(a.s21, v.x) + Times(a.s22, v.y))
  }

  function Determinant(a: Affine): real {
    Times(a.s11, a.s22) - Times(a.s12, a.s21)
  }

  /** PROJ's inverse of an affine. */
  function Invert(a: Affine, n: Vec): Vec
    requires Determinant(a) != 0.0
  {
    var i, j := n.x - a.xoff, n.y - a.yoff;
    Vec(Over(Times(a.s22, i) - Times(a.s12, j), Determinant(a)),
        Over(Times(a.s11, j) - Times(a.s21, i), Determinant(a)))
  }

  /** Inverting an affine undoes it. */
  lemma InvertUndoes(a: Affine, v: Vec)
    requires Determinant(a) != 0.0
    ensures Invert(a, Apply(a, v)) == v
  {
    var i, j := Apply(a, v).x - a.xoff, Apply(a, v).y - a.yoff;
    hide Times, Over;
    Solved(a.s11, a.s12, a.s21, a.s22, v.x, v.y);
    OverIs(v.x, Times(a.s22, i) - Times(a.s12, j), Determinant(a));
    OverIs(v.y, Times(a.s11, j) - Times(a.s21, i), Determinant(a));
  }

  lemma Solved(a: real, b: real, c: real, d: real, x: real, y: real)
    ensures var det := Times(a, d) - Times(b, c); var i, j := Times(a, x) + Times(b, y), Times(c, x) + Times(d, y);
            Times(d, i) - Times(b, j) == Times(x, det) && Times(a, j) - Times(c, i) == Times(y, det)
  {
    hide Times;
    TimesAdd(d, Times(a, x), Times(b, y));
    TimesAdd(b, Times(c, x), Times(d, y));
    TimesAdd(a, Times(c, x), Times(d, y));
    TimesAdd(c, Times(a, x), Times(b, y));
    TimesAdd(x, Times(a, d), Times(b, c));
    TimesAdd(y, Times(a, d), Times(b, c));
    Thrice(d, a, x);
    Thrice(d, b, y);
    Thrice(b, c, x);
    Thrice(a, d, y);
    Thrice(a, c, x);
    Thrice(c, b, y);
  }

  /** A product of three, in the orders that occur. */
  lemma Thrice(a: real, b: real, c: real)
    ensures Times(a, Times(b, c)) == Times(b, Times(a, c)) == Times(c, Times(a, b)) == Times(c, Times(b, a))
  {
    hide Times;
    TimesTimes(a, b, c);
    TimesTimes(b, a, c);
    TimesSwap(a, b);
    TimesSwap(Times(a, b), c);
  }

  /** Inline and crossline numbers of a map grid position, as a pair. */
  function ToBin(g: Grid, p: Vec): Vec
    requires IsGrid(g)
  {
    StepsArePositive(g);
    Apply(OffsetsToBin(g), Sub(p, g.origin))
  }

  /** The map grid position of inline and crossline numbers. */
  function ToMap(g: Grid, n: Vec): Vec
    requires IsGrid(g)
  {
    StepsArePositive(g);
    HasInverse(g);
    Add(g.origin, Invert(OffsetsToBin(g), n))
  }

  lemma HasInverse(g: Grid)
    requires IsGrid(g) && StepI(g) > 0.0 && StepJ(g) > 0.0
    ensures Determinant(OffsetsToBin(g)) != 0.0
  {
    var a, b, s, c := Over(1.0, StepI(g)), Over(1.0, StepJ(g)), g.axisJ.x, g.axisJ.y;
    OverPositive(1.0, StepI(g));
    OverPositive(1.0, StepJ(g));
    hide Times, Over, Step;
    Positive(a, b);
    TimesNeg(Times(a, c), Times(b, c));
    TimesNeg(Times(a, s), Times(b, s));
    TimesNeg(-Times(a, s), Times(b, s));
    FourTimes(a, c, b, c);
    FourTimes(a, s, b, s);
    TimesAdd(Times(a, b), Times(c, c), Times(s, s));
    TimesOne(Times(a, b));
  }

  lemma FourTimes(a: real, x: real, b: real, y: real)
    ensures Times(Times(a, x), Times(b, y)) == Times(Times(a, b), Times(x, y))
  {
    hide Times;
    TimesTimes(a, x, Times(b, y));
    Thrice(x, b, y);
    TimesTimes(a, b, Times(x, y));
  }

  // ----- the EPSG formula

  /** The direction inlines increase in: a quarter turn from the J-axis, right or left. */
  function AxisI(g: Grid): Vec {
    if g.right then Right(g.axisJ) else Minus(Right(g.axisJ))
  }

  /** The two axes are square to each other, and of length 1. */
  lemma AxesAreSquare(g: Grid)
    requires IsGrid(g)
    ensures Dot(AxisI(g), AxisI(g)) == 1.0 && Dot(AxisI(g), g.axisJ) == 0.0 && Dot(g.axisJ, AxisI(g)) == 0.0
    ensures Cross(g.axisJ, AxisI(g)) == if g.right then -1.0 else 1.0
  {
    RightIsSquare(g.axisJ);
    DotMinus(g.axisJ, Right(g.axisJ));
    DotMinus(Right(g.axisJ), Right(g.axisJ));
    DotMinus(Minus(Right(g.axisJ)), Right(g.axisJ));
    CrossMinus(g.axisJ, Right(g.axisJ));
  }

  /** So many steps along each axis. */
  function Offset(g: Grid, i: real, j: real): Vec
    requires g.incrementI >= 1 && g.incrementJ >= 1
  {
    Add(Scale(Times(i, StepI(g)), AxisI(g)), Scale(Times(j, StepJ(g)), g.axisJ))
  }

  /** The position as EPSG methods 9666 and 1049 state it. */
  function Stepped(g: Grid, n: Vec): Vec
    requires g.incrementI >= 1 && g.incrementJ >= 1
  {
    Add(g.origin, Offset(g, n.x - g.originI, n.y - g.originJ))
  }

  /** The affine measures an offset along each axis, in steps. */
  lemma AppliedByAxes(g: Grid, v: Vec)
    requires IsGrid(g) && StepI(g) > 0.0 && StepJ(g) > 0.0
    ensures Apply(OffsetsToBin(g), v)
            == Vec(g.originI + Times(Over(1.0, StepI(g)), Dot(AxisI(g), v)),
                   g.originJ + Times(Over(1.0, StepJ(g)), Dot(g.axisJ, v)))
  {
    var a, b, s, c := Over(1.0, StepI(g)), Over(1.0, StepJ(g)), g.axisJ.x, g.axisJ.y;
    hide Times, Over, Step;
    TimesTimes(a, c, v.x);
    TimesTimes(a, s, v.y);
    TimesTimes(b, s, v.x);
    TimesTimes(b, c, v.y);
    TimesAdd(b, Times(s, v.x), Times(c, v.y));
    TimesAdd(a, Times(c, v.x), Times(s, v.y));
    TimesNeg(s, v.y);
    TimesNeg(c, v.x);
    TimesNeg(Times(a, c), v.x);
    TimesNeg(Times(a, s), v.y);
    TimesNeg(a, Times(c, v.x) - Times(s, v.y));
  }

  /** An offset measured along the axes is the steps it is made of. */
  lemma OffsetAlongAxes(g: Grid, i: real, j: real)
    requires IsGrid(g)
    ensures Dot(AxisI(g), Offset(g, i, j)) == Times(i, StepI(g)) && Dot(g.axisJ, Offset(g, i, j)) == Times(j, StepJ(g))
  {
    AxesAreSquare(g);
    var p, q := Times(i, StepI(g)), Times(j, StepJ(g));
    DotAdd(AxisI(g), Scale(p, AxisI(g)), Scale(q, g.axisJ));
    DotAdd(g.axisJ, Scale(p, AxisI(g)), Scale(q, g.axisJ));
    DotScale(p, AxisI(g), AxisI(g));
    DotScale(q, AxisI(g), g.axisJ);
    DotScale(p, g.axisJ, AxisI(g));
    DotScale(q, g.axisJ, g.axisJ);
    hide Times, Dot, Scale, AxisI, StepI, StepJ;
    TimesOne(p);
    TimesOne(q);
  }

  lemma AppliedOffset(g: Grid, i: real, j: real)
    requires IsGrid(g) && StepI(g) > 0.0 && StepJ(g) > 0.0
    ensures Apply(OffsetsToBin(g), Offset(g, i, j)) == Vec(g.originI + i, g.originJ + j)
  {
    AppliedByAxes(g, Offset(g, i, j));
    OffsetAlongAxes(g, i, j);
    Unstepped(i, StepI(g));
    Unstepped(j, StepJ(g));
  }

  lemma Unstepped(i: real, step: real)
    requires step != 0.0
    ensures Times(Over(1.0, step), Times(i, step)) == i
  {
    OverTimes(1.0, step);
    hide Over, Times;
    Thrice(Over(1.0, step), i, step);
    TimesOne(i);
  }

  /** What PROJ's inverse affine gives is what the method states. */
  lemma ToMapIsStepped(g: Grid, n: Vec)
    requires IsGrid(g)
    ensures ToMap(g, n) == Stepped(g, n)
  {
    StepsArePositive(g);
    HasInverse(g);
    AppliedOffset(g, n.x - g.originI, n.y - g.originJ);
    InvertUndoes(OffsetsToBin(g), Offset(g, n.x - g.originI, n.y - g.originJ));
    hide OffsetsToBin, Invert, Offset, Apply, Determinant;
  }

  /** So many numbers on, in map grid units. */
  ghost predicate IsOffset(offset: real, numbers: real, scale: real, width: real, increment: int) {
    increment >= 1 && offset == numbers * (scale * width / increment as real)
  }

  /** The formula itself: h is the handedness, i and j the two offsets in map grid units, and the J-axis's direction
      the sine and cosine of its bearing. */
  lemma ToMapIsTheFormula(g: Grid, n: Vec, h: real, i: real, j: real)
    requires IsGrid(g) && h == if g.right then 1.0 else -1.0
    requires IsOffset(i, n.x - g.originI, g.scale, g.widthI, g.incrementI)
    requires IsOffset(j, n.y - g.originJ, g.scale, g.widthJ, g.incrementJ)
    ensures ToMap(g, n).x == g.origin.x + h * i * g.axisJ.y + j * g.axisJ.x
    ensures ToMap(g, n).y == g.origin.y - h * i * g.axisJ.x + j * g.axisJ.y
  {
    hide *;
    ToMapIsStepped(g, n);
    InSteps(g, n, i, j);
    ByAxes(g, n, i, j);
    InProducts(ToMap(g, n), g.origin, g.right, h, i, j, g.axisJ.x, g.axisJ.y);
  }

  lemma InProducts(p: Vec, o: Vec, right: bool, h: real, i: real, j: real, sin: real, cos: real)
    requires h == if right then 1.0 else -1.0
    requires p == Vec(o.x + (Times(i, if right then cos else -cos) + Times(j, sin)),
                      o.y + (Times(i, if right then -sin else sin) + Times(j, cos)))
    ensures p.x == o.x + h * i * cos + j * sin && p.y == o.y - h * i * sin + j * cos
  {
    OnSide(right, h, i, sin);
    OnSide(right, h, i, cos);
    TimesIs(j, sin);
    TimesIs(j, cos);
    hide Times;
  }

  lemma InSteps(g: Grid, n: Vec, i: real, j: real)
    requires IsGrid(g)
    requires IsOffset(i, n.x - g.originI, g.scale, g.widthI, g.incrementI)
    requires IsOffset(j, n.y - g.originJ, g.scale, g.widthJ, g.incrementJ)
    ensures g.incrementI >= 1 && g.incrementJ >= 1
    ensures i == Times(n.x - g.originI, StepI(g)) && j == Times(n.y - g.originJ, StepJ(g))
  {}

  lemma ByAxes(g: Grid, n: Vec, i: real, j: real)
    requires g.incrementI >= 1 && g.incrementJ >= 1
    requires i == Times(n.x - g.originI, StepI(g)) && j == Times(n.y - g.originJ, StepJ(g))
    ensures var c, s := g.axisJ.y, g.axisJ.x;
            Stepped(g, n) ==
            Vec(g.origin.x + (Times(i, if g.right then c else -c) + Times(j, s)),
                g.origin.y + (Times(i, if g.right then -s else s) + Times(j, c)))
  {
    hide Times, StepI, StepJ;
  }

  lemma TimesIs(a: real, b: real)
    ensures Times(a, b) == a * b
  {}

  lemma OnSide(right: bool, h: real, i: real, c: real)
    requires h == if right then 1.0 else -1.0
    ensures Times(i, if right then c else -c) == h * i * c && Times(i, if right then -c else c) == -(h * i * c)
  {}

  /** The two directions undo each other. */
  lemma ThereAndBack(g: Grid, n: Vec, p: Vec)
    requires IsGrid(g)
    ensures ToBin(g, ToMap(g, n)) == n && ToMap(g, ToBin(g, p)) == p
  {
    StepsArePositive(g);
    HasInverse(g);
    ToMapIsStepped(g, n);
    AppliedOffset(g, n.x - g.originI, n.y - g.originJ);
    InvertUndoes(OffsetsToBin(g), Sub(p, g.origin));
    hide OffsetsToBin, Invert, Offset, Apply, Determinant;
    assert Sub(Stepped(g, n), g.origin) == Offset(g, n.x - g.originI, n.y - g.originJ);
  }

  // ----- moving the origin

  /** The grid with another node for its origin. */
  function Reanchored(g: Grid, n: Vec): Grid
    requires IsGrid(g)
  {
    g.(originI := n.x, originJ := n.y, origin := ToMap(g, n))
  }

  lemma OffsetAdds(g: Grid, i: real, j: real, k: real, l: real)
    requires g.incrementI >= 1 && g.incrementJ >= 1
    ensures Offset(g, i + k, j + l) == Add(Offset(g, i, j), Offset(g, k, l))
  {
    var p, q, u, v := StepI(g), StepJ(g), AxisI(g), g.axisJ;
    hide Times, StepI, StepJ, AxisI;
    TimesAdd(p, i, k);
    TimesAdd(q, j, l);
    TimesAdd(u.x, Times(i, p), Times(k, p));
    TimesAdd(u.y, Times(i, p), Times(k, p));
    TimesAdd(v.x, Times(j, q), Times(l, q));
    TimesAdd(v.y, Times(j, q), Times(l, q));
  }

  /** A grid with its origin moved along itself maps every position, both ways, as before. */
  lemma ReanchoredMapsAlike(g: Grid, at: Vec, n: Vec, p: Vec)
    requires IsGrid(g)
    ensures IsGrid(Reanchored(g, at)) && ToMap(Reanchored(g, at), n) == ToMap(g, n) &&
      ToBin(Reanchored(g, at), p) == ToBin(g, p)
  {
    SameSteps(g, Reanchored(g, at), at, n);
    var m := ToBin(g, p);
    SameSteps(g, Reanchored(g, at), at, m);
    ThereAndBack(g, n, p);
    ThereAndBack(Reanchored(g, at), m, p);
  }

  lemma SameSteps(g: Grid, h: Grid, at: Vec, n: Vec)
    requires IsGrid(g) && h == Reanchored(g, at)
    ensures IsGrid(h) && ToMap(h, n) == ToMap(g, n)
  {
    ToMapIsStepped(g, n);
    ToMapIsStepped(h, n);
    ToMapIsStepped(g, at);
    OffsetAdds(g, at.x - g.originI, at.y - g.originJ, n.x - at.x, n.y - at.y);
    hide ToMap, Dot;
    assert Offset(h, n.x - at.x, n.y - at.y) == Offset(g, n.x - at.x, n.y - at.y);
  }
}
