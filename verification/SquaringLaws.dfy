module SquaringLaws {
  // What fitting a bin grid to four corners promises (geodetic_engine/bingrid/squaring.py).

  import opened Numbers
  import opened Plane
  import opened P6
  import opened Squaring

  // ----- the fitted grid

  /** The grid's axes are of the same length, and its widths positive, for any corners with a convex
      outline; C is to the right of its J-axis just when the outline turns right. */
  lemma FittedIsGrid(root: real -> real, q: Corners, scale: real, incrementI: int, incrementJ: int)
    requires IsRoot(root) && CanFit(q, scale, incrementI, incrementJ)
    ensures IsGrid(Fitted(root, q, scale, incrementI, incrementJ))
    ensures Fitted(root, q, scale, incrementI, incrementJ).right <==> TurnsRight(q.a, q.b, q.c, q.d)
  {
    EdgesAreLong(root, q);
    SideOfTheBearing(root, q);
    SpansAreScaled(q, scale);
    var v := MeanBearing(root, q);
    UnitIsUnit(root, v);
    SideOfUnit(root, Sub(q.c, q.a), v);
    WidthIsPositive(incrementI, MeanLength(root, Sub(q.c, q.a), Sub(q.d, q.b)), SpanI(q), scale);
    WidthIsPositive(incrementJ, MeanLength(root, Sub(q.b, q.a), Sub(q.d, q.c)), SpanJ(q), scale);
    OneSide(q);
    hide Times, Over, Cross, Dot, Unit, Length, MeanBearing, TurnsLeft, TurnsRight;
  }

  lemma OneSide(q: Corners)
    ensures !(TurnsLeft(q.a, q.b, q.c, q.d) && TurnsRight(q.a, q.b, q.c, q.d))
  {}

  lemma WidthIsPositive(increment: int, mean: real, span: real, scale: real)
    requires increment >= 1 && mean > 0.0 && Times(span, scale) > 0.0
    ensures Width(increment, mean, span, scale) > 0.0
  {
    Positive(increment as real, mean);
    OverPositive(Times(increment as real, mean), Times(span, scale));
  }

  /** Whatever the scale factor, a span of numbers is the mean edge long. */
  lemma SpanIsMean(increment: int, mean: real, span: real, scale: real)
    requires increment >= 1 && span > 0.0 && scale > 0.0 && Times(span, scale) > 0.0
    ensures Times(span, Step(scale, Width(increment, mean, span, scale), increment)) == mean
  {
    var inc := increment as real;
    var width := Width(increment, mean, span, scale);
    OverTimes(Times(inc, mean), Times(span, scale));
    hide Times, Over;
    TimesTimes(span, scale, width);
    TimesSwap(Times(span, scale), width);
    assert Times(span, Times(scale, width)) == Times(inc, mean);
    OverOfProduct(span, Times(scale, width), inc, mean);
  }

  lemma OverOfProduct(a: real, b: real, c: real, d: real)
    requires c != 0.0 && Times(a, b) == Times(c, d)
    ensures Times(a, Over(b, c)) == d
  {
    OverTimes(b, c);
    OverIs(d, Times(c, d), c) by {
      TimesSwap(c, d);
    }
    OverIs(Times(a, Over(b, c)), Times(a, b), c) by {
      TimesTimes(a, Over(b, c), c);
    }
  }

  // ----- the squared corners

  function NodeAt(i: int, j: int): Vec { Vec(i as real, j as real) }

  /** The corners at the positions the grid gives their numbers. */
  ghost function Squared(q: Corners, g: Grid): Corners
    requires IsGrid(g)
  {
    q.(a := ToMap(g, NodeAt(q.minI, q.minJ)), b := ToMap(g, NodeAt(q.minI, q.maxJ)),
       c := ToMap(g, NodeAt(q.maxI, q.minJ)), d := ToMap(g, NodeAt(q.maxI, q.maxJ)))
  }

  /** A rectangle about a centre: half its edges along two axes. */
  ghost predicate IsRectangle(q: Corners, o: Vec, u: Vec, v: Vec) {
    && q.a == Sub(Sub(o, u), v) && q.b == Add(Sub(o, u), v) && q.c == Sub(Add(o, u), v) && q.d == Add(Add(o, u), v)
  }

  /** Half the edge along an axis. */
  function HalfEdge(span: real, step: real, axis: Vec): Vec {
    Scale(Half(Times(span, step)), axis)
  }

  /** The grid's origin is the middle of the corners' numbers. */
  ghost predicate IsCentred(q: Corners, g: Grid) {
    g.originI == (2 * q.minI + 2 * q.maxI) as real / 4.0 && g.originJ == (2 * q.minJ + 2 * q.maxJ) as real / 4.0
  }

  /** A centred grid puts the corners on a rectangle about its origin. */
  lemma CentredIsRectangle(q: Corners, g: Grid)
    requires IsGrid(g) && IsCentred(q, g)
    ensures IsRectangle(Squared(q, g), g.origin, HalfEdge(SpanI(q), StepI(g), AxisI(g)),
                        HalfEdge(SpanJ(q), StepJ(g), g.axisJ))
  {
    var i, j := Half(SpanI(q)), Half(SpanJ(q));
    var u, v := HalfEdge(SpanI(q), StepI(g), AxisI(g)), HalfEdge(SpanJ(q), StepJ(g), g.axisJ);
    CornerAt(g, q, q.minI, q.minJ, -i, -j);
    CornerAt(g, q, q.minI, q.maxJ, -i, j);
    CornerAt(g, q, q.maxI, q.minJ, i, -j);
    CornerAt(g, q, q.maxI, q.maxJ, i, j);
    HalfAlong(SpanI(q), StepI(g), AxisI(g));
    HalfAlong(SpanJ(q), StepJ(g), g.axisJ);
    hide Times, StepI, StepJ, AxisI, ToMap, Scale, HalfEdge, IsGrid;
  }

  lemma CornerAt(g: Grid, q: Corners, i: int, j: int, di: real, dj: real)
    requires IsGrid(g) && i as real - g.originI == di && j as real - g.originJ == dj
    ensures ToMap(g, NodeAt(i, j)) ==
      Add(g.origin, Add(Scale(Times(di, StepI(g)), AxisI(g)), Scale(Times(dj, StepJ(g)), g.axisJ)))
  {
    ToMapIsStepped(g, NodeAt(i, j));
    hide ToMap, Times, StepI, StepJ, AxisI, Scale;
  }

  lemma HalfAlong(span: real, step: real, axis: Vec)
    ensures Scale(Times(Half(span), step), axis) == HalfEdge(span, step, axis)
    ensures Scale(Times(-Half(span), step), axis) == Minus(HalfEdge(span, step, axis))
  {
    var t := Half(Times(span, step));
    TimesAdd(step, Half(span), Half(span));
    assert Times(Half(span), step) == t;
    TimesNeg(Half(span), step);
    TimesNeg(t, axis.x);
    TimesNeg(t, axis.y);
    hide Times;
  }

  /** Edges of the squared corners: opposite ones alike, and as long as the mean of the corners'. */
  lemma SquaredIsRectangle(root: real -> real, q: Corners, scale: real, incrementI: int, incrementJ: int)
    requires IsRoot(root) && CanFit(q, scale, incrementI, incrementJ)
    requires IsGrid(Fitted(root, q, scale, incrementI, incrementJ))
    ensures var g := Fitted(root, q, scale, incrementI, incrementJ); var s := Squared(q, g);
            var alongI := MeanLength(root, Sub(q.c, q.a), Sub(q.d, q.b));
                var alongJ := MeanLength(root, Sub(q.b, q.a), Sub(q.d, q.c));
            alongI > 0.0 && alongJ > 0.0
            && IsRectangle(s, Mean(q.a, q.b, q.c, q.d), Scale(Half(alongI), AxisI(g)), Scale(Half(alongJ), g.axisJ))
            && Dot(AxisI(g), g.axisJ) == 0.0
  {
    var g := Fitted(root, q, scale, incrementI, incrementJ);
    CentredIsRectangle(q, g);
    AxesAreSquare(g);
    EdgesAreLong(root, q);
    SpansAreScaled(q, scale);
    SpanIsMean(incrementI, MeanLength(root, Sub(q.c, q.a), Sub(q.d, q.b)), SpanI(q), scale);
    SpanIsMean(incrementJ, MeanLength(root, Sub(q.b, q.a), Sub(q.d, q.c)), SpanJ(q), scale);
    assert StepI(g) == Step(scale, Width(incrementI, MeanLength(root, Sub(q.c, q.a), Sub(q.d, q.b)), SpanI(q), scale),
                            incrementI);
    assert StepJ(g) == Step(scale, Width(incrementJ, MeanLength(root, Sub(q.b, q.a), Sub(q.d, q.c)), SpanJ(q), scale),
                            incrementJ);
    hide Times, Over, Step, StepI, StepJ, Width, AxisI, Length, Dot, Cross, Squared, IsRectangle, Scale, Convex;
  }

  // ----- the squared corners by their coordinates

  /** A distance, and what two ways have in common and across each other. */
  ghost predicate IsDistance(l: real, p: Vec, q: Vec) {
    l >= 0.0 && l * l == (q.x - p.x) * (q.x - p.x) + (q.y - p.y) * (q.y - p.y)
  }

  function Common(p: Vec, q: Vec, r: Vec, s: Vec): real {
    (q.x - p.x) * (s.x - r.x) + (q.y - p.y) * (s.y - r.y)
  }

  function Across(p: Vec, q: Vec, r: Vec, s: Vec): real {
    (q.x - p.x) * (s.y - r.y) - (q.y - p.y) * (s.x - r.x)
  }

  /** Opposite edges are alike, neighbouring ones square, and the corners lie about the same middle. */
  ghost predicate IsRectangleAbout(s: Corners, q: Corners) {
    && s.b.x - s.a.x == s.d.x - s.c.x && s.b.y - s.a.y == s.d.y - s.c.y && Common(s.a, s.b, s.a, s.c) == 0.0
    && s.a.x + s.b.x + s.c.x + s.d.x == q.a.x + q.b.x + q.c.x + q.d.x
    && s.a.y + s.b.y + s.c.y + s.d.y == q.a.y + q.b.y + q.c.y + q.d.y
  }

  /** The edge from A to B halves the angle between the edges it is for, whose lengths are given: the same share of
      each is along it, and of each across it, on opposite sides. */
  ghost predicate Halves(s: Corners, q: Corners, ab: real, cd: real) {
    && Common(s.a, s.b, q.a, q.b) * cd == Common(s.a, s.b, q.c, q.d) * ab && Common(s.a, s.b, q.a, q.b) > 0.0
    && Across(s.a, s.b, q.a, q.b) * cd == -(Across(s.a, s.b, q.c, q.d) * ab)
  }

  lemma LengthIsDistance(root: real -> real, l: real, p: Vec, q: Vec)
    requires IsRoot(root) && IsDistance(l, p, q)
    ensures Length(root, Sub(q, p)) == l
  {
    hide *;
    DistanceSquared(l, p, q);
    LengthSquared(root, Sub(q, p));
    DistanceIsLong(l, p, q);
    SquareIsInjective(Length(root, Sub(q, p)), l);
  }

  lemma DistanceSquared(l: real, p: Vec, q: Vec)
    requires IsDistance(l, p, q)
    ensures Times(l, l) == Dot(Sub(q, p), Sub(q, p))
  {}

  lemma DistanceIsLong(l: real, p: Vec, q: Vec)
    requires IsDistance(l, p, q)
    ensures l >= 0.0
  {}

  lemma ScaleIsDistance(l: real, u: Vec, p: Vec, q: Vec)
    requires l >= 0.0 && Dot(u, u) == 1.0 && Sub(q, p) == Scale(l, u)
    ensures IsDistance(l, p, q)
  {
    DotScale(l, Scale(l, u), u);
    DotScale(l, u, u);
    TimesOne(l);
    assert Dot(Sub(q, p), Sub(q, p)) == Times(l, Times(l, 1.0));
  }

  /** The sum of two directions halves the angle between them. */
  lemma SumHalves(u: Vec, v: Vec, t: real)
    requires Dot(u, u) == 1.0 && Dot(v, v) == 1.0 && t > 0.0 && Add(u, v) != ZERO
    ensures var axis := Scale(t, Add(u, v));
            Dot(axis, u) == Dot(axis, v) > 0.0 && Cross(axis, u) == -Cross(axis, v)
  {
    var w := Add(u, v);
    DotIsSquare(w);
    DotAdd(w, u, v);
    DotAdd(u, u, v);
    DotAdd(v, u, v);
    DotMinus(u, v);
    DotScale(t, w, u);
    DotScale(t, w, v);
    CrossScale(t, w, u);
    CrossScale(t, w, v);
    CrossAdd(u, u, v);
    CrossAdd(v, u, v);
    CrossMinus(u, v);
    CrossMinus(u, u);
    CrossMinus(v, v);
    hide Dot, Cross, Times, Scale, Add;
    assert Dot(w, u) == Dot(w, v) == 1.0 + Dot(u, v);
    Positive(t, Dot(w, u));
    TimesNeg(t, Cross(w, v));
  }

  /** Along an edge of a length, and for as long an axis. */
  lemma ShareAlong(axis: Vec, u: Vec, v: Vec, e: real, l: real, m: real)
    requires Dot(axis, u) == Dot(axis, v) > 0.0 && Cross(axis, u) == -Cross(axis, v) && e > 0.0 && l > 0.0 && m > 0.0
    ensures var way := Scale(e, axis);
            Dot(way, Scale(l, u)) * m == Dot(way, Scale(m, v)) * l && Dot(way, Scale(l, u)) > 0.0
            && Cross(way, Scale(l, u)) * m == -(Cross(way, Scale(m, v)) * l)
  {
    var way := Scale(e, axis);
    DotScale(l, way, u);
    DotScale(m, way, v);
    DotScale(e, axis, u);
    DotScale(e, axis, v);
    CrossScale(l, way, u);
    CrossScale(m, way, v);
    CrossScale(e, axis, u);
    CrossScale(e, axis, v);
    hide Dot, Cross, Scale;
    var d, c := Times(e, Dot(axis, u)), Times(e, Cross(axis, u));
    Positive(e, Dot(axis, u));
    Positive(l, d);
    TimesNeg(e, Cross(axis, v));
    ProductsTurn(l, m, d, c);
  }

  lemma ProductsTurn(l: real, m: real, d: real, c: real)
    ensures Times(l, d) * m == Times(m, d) * l && Times(l, c) * m == -(Times(m, -c) * l)
  {}

  /** The squared corners are the rectangle that has the corners' middle, the mean of the lengths of the two edges
      each of its edges is for, and its J-edges halfway between theirs in direction. */
  lemma SquaredByCoordinates(root: real -> real, q: Corners, scale: real, incrementI: int, incrementJ: int, ab: real,
                             cd: real, ac: real, bd: real)
    requires IsRoot(root) && CanFit(q, scale, incrementI, incrementJ)
    requires IsDistance(ab, q.a, q.b) && IsDistance(cd, q.c, q.d)
    requires IsDistance(ac, q.a, q.c) && IsDistance(bd, q.b, q.d)
    requires IsGrid(Fitted(root, q, scale, incrementI, incrementJ))
    ensures var s := Squared(q, Fitted(root, q, scale, incrementI, incrementJ));
            && IsRectangleAbout(s, q) && Halves(s, q, ab, cd)
            && IsDistance((ab + cd) / 2.0, s.a, s.b) && IsDistance((ac + bd) / 2.0, s.a, s.c)
  {
    var g := Fitted(root, q, scale, incrementI, incrementJ);
    var s := Squared(q, g);
    LengthIsDistance(root, ab, q.a, q.b);
    LengthIsDistance(root, cd, q.c, q.d);
    LengthIsDistance(root, ac, q.a, q.c);
    LengthIsDistance(root, bd, q.b, q.d);
    SquaredIsRectangle(root, q, scale, incrementI, incrementJ);
    AxesAreSquare(g);
    assert Dot(g.axisJ, g.axisJ) == 1.0;
    AxisHalves(root, q, scale, incrementI, incrementJ);
    MeanOfTwo(root, q);
    hide *;
    EdgesOfRectangle(s, q, (ac + bd) / 2.0, (ab + cd) / 2.0, AxisI(g), g.axisJ);
    EdgesHalve(s, q, ab, cd, (ab + cd) / 2.0, g.axisJ, Unit(root, Sub(q.b, q.a)), Unit(root, Sub(q.d, q.c)));
  }

  lemma AxisHalves(root: real -> real, q: Corners, scale: real, incrementI: int, incrementJ: int)
    requires IsRoot(root) && CanFit(q, scale, incrementI, incrementJ)
    ensures Length(root, Sub(q.b, q.a)) > 0.0 && Length(root, Sub(q.d, q.c)) > 0.0
    ensures var axis := Fitted(root, q, scale, incrementI, incrementJ).axisJ;
            var u, v := Unit(root, Sub(q.b, q.a)), Unit(root, Sub(q.d, q.c));
            Dot(axis, u) == Dot(axis, v) > 0.0 && Cross(axis, u) == -Cross(axis, v)
    ensures Sub(q.b, q.a) == Scale(Length(root, Sub(q.b, q.a)), Unit(root, Sub(q.b, q.a)))
    ensures Sub(q.d, q.c) == Scale(Length(root, Sub(q.d, q.c)), Unit(root, Sub(q.d, q.c)))
  {
    EdgesAreLong(root, q);
    SideOfTheBearing(root, q);
    var ab, cd, v := Sub(q.b, q.a), Sub(q.d, q.c), MeanBearing(root, q);
    LengthSquared(root, v);
    LengthOfZero(root, ab);
    LengthOfZero(root, cd);
    UnitIsUnit(root, ab);
    UnitIsUnit(root, cd);
    OverPositive(1.0, Length(root, v));
    hide Length, Dot, Cross, Times, Over;
    SumHalves(Unit(root, ab), Unit(root, cd), Over(1.0, Length(root, v)));
  }

  lemma LengthOfZero(root: real -> real, v: Vec)
    requires IsRoot(root) && Length(root, v) > 0.0
    ensures v != ZERO
  {
    LengthSquared(root, v);
    Positive(Length(root, v), Length(root, v));
    TimesOne(0.0);
  }

  /** The edges of a rectangle so long along two axes that are square. */
  lemma EdgesOfRectangle(s: Corners, q: Corners, alongI: real, alongJ: real, u: Vec, v: Vec)
    requires IsRectangle(s, Mean(q.a, q.b, q.c, q.d), Scale(Half(alongI), u), Scale(Half(alongJ), v))
    requires alongI > 0.0 && alongJ > 0.0 && Dot(u, u) == 1.0 && Dot(v, v) == 1.0 && Dot(u, v) == 0.0
    ensures IsRectangleAbout(s, q) && Sub(s.b, s.a) == Scale(alongJ, v)
    ensures IsDistance(alongJ, s.a, s.b) && IsDistance(alongI, s.a, s.c)
  {
    Doubled(alongI, u);
    Doubled(alongJ, v);
    hide Dot, Scale, IsDistance;
    assert Sub(s.b, s.a) == Scale(alongJ, v) && Sub(s.c, s.a) == Scale(alongI, u);
    ScaleIsDistance(alongJ, v, s.a, s.b);
    ScaleIsDistance(alongI, u, s.a, s.c);
    SquareOfScales(alongJ, v, alongI, u);
    CommonIsDot(s.a, s.b, s.a, s.c);
  }

  lemma Doubled(l: real, v: Vec)
    ensures Add(Scale(Half(l), v), Scale(Half(l), v)) == Scale(l, v)
  {
    TimesAdd(v.x, Half(l), Half(l));
    TimesAdd(v.y, Half(l), Half(l));
    TimesSwap(v.x, l);
    hide Times;
  }

  lemma SquareOfScales(l: real, u: Vec, m: real, v: Vec)
    requires Dot(v, u) == 0.0
    ensures Dot(Scale(l, u), Scale(m, v)) == 0.0
  {
    DotMinus(u, v);
    DotScale(m, Scale(l, u), v);
    DotScale(l, u, v);
    TimesOne(l);
    TimesOne(m);
    hide Dot, Times, Scale;
  }

  lemma CommonIsDot(p: Vec, q: Vec, r: Vec, s: Vec)
    ensures Common(p, q, r, s) == Dot(Sub(q, p), Sub(s, r)) && Across(p, q, r, s) == Cross(Sub(q, p), Sub(s, r))
  {}

  /** So its J-edges halve the angle. */
  lemma EdgesHalve(s: Corners, q: Corners, ab: real, cd: real, alongJ: real, axis: Vec, u: Vec, v: Vec)
    requires Sub(s.b, s.a) == Scale(alongJ, axis) && Sub(q.b, q.a) == Scale(ab, u) && Sub(q.d, q.c) == Scale(cd, v)
    requires Dot(axis, u) == Dot(axis, v) > 0.0 && Cross(axis, u) == -Cross(axis, v)
    requires alongJ > 0.0 && ab > 0.0 && cd > 0.0
    ensures Halves(s, q, ab, cd)
  {
    ShareAlong(axis, u, v, alongJ, ab, cd);
    CommonIsDot(s.a, s.b, q.a, q.b);
    CommonIsDot(s.a, s.b, q.c, q.d);
    hide Dot, Cross, Scale, Sub, Common, Across;
  }

  lemma MeanOfTwo(root: real -> real, q: Corners)
    ensures MeanLength(root, Sub(q.c, q.a), Sub(q.d, q.b)) ==
      (Length(root, Sub(q.c, q.a)) + Length(root, Sub(q.d, q.b))) / 2.0
    ensures MeanLength(root, Sub(q.b, q.a), Sub(q.d, q.c)) ==
      (Length(root, Sub(q.b, q.a)) + Length(root, Sub(q.d, q.c))) / 2.0
  {}

  /** The squared corners have the centroid of the corners. */
  lemma SameCentroid(q: Corners, o: Vec, u: Vec, v: Vec)
    requires IsRectangle(q, o, u, v)
    ensures Mean(q.a, q.b, q.c, q.d) == o
  {}

  // ----- the outline of a rectangle

  /** Every corner of a rectangle turns by the same amount, to the side opposite the one its second axis
      lies of its first. */
  lemma RectangleTurns(q: Corners, o: Vec, u: Vec, v: Vec)
    requires IsRectangle(q, o, u, v)
    ensures Turn(q.c, q.a, q.b) == Turn(q.a, q.b, q.d) == Turn(q.b, q.d, q.c) == Turn(q.d, q.c, q.a) ==
      -4.0 * Cross(u, v)
  {
    var p, r := Add(u, u), Add(v, v);
    assert Sub(q.b, q.a) == r && Sub(q.d, q.b) == p && Sub(q.c, q.d) == Minus(r) && Sub(q.a, q.c) == Minus(p);
    CrossAdd(p, v, v);
    CrossAdd(v, u, u);
    CrossMinus(p, r);
    CrossMinus(r, p);
    CrossMinus(Minus(r), p);
    CrossMinus(p, Minus(r));
    hide Cross;
  }

  /** Half edges of positive length along a grid's axes: to the right for a right-handed grid. */
  lemma EdgesCross(g: Grid, s: real, t: real)
    requires IsGrid(g) && s > 0.0 && t > 0.0
    ensures if g.right then Cross(Scale(s, AxisI(g)), Scale(t, g.axisJ)) > 0.0 else
      Cross(Scale(s, AxisI(g)), Scale(t, g.axisJ)) < 0.0
  {
    AxesAreSquare(g);
    CrossScale(s, AxisI(g), Scale(t, g.axisJ));
    CrossScale(t, AxisI(g), g.axisJ);
    CrossMinus(g.axisJ, AxisI(g));
    hide Times, Cross, AxisI;
    var c := Cross(AxisI(g), g.axisJ);
    TimesPositive(t, c);
    TimesPositive(s, Times(t, c));
  }

  /** The squared corners have a convex outline: right-handed grids turn right, and so are written the other
      way round; left-handed ones turn left. */
  lemma SquaredIsOutlined(root: real -> real, q: Corners, scale: real, incrementI: int, incrementJ: int)
    requires IsRoot(root) && CanFit(q, scale, incrementI, incrementJ)
    requires IsGrid(Fitted(root, q, scale, incrementI, incrementJ))
    ensures var g := Fitted(root, q, scale, incrementI, incrementJ); var s := Squared(q, g);
            if g.right then TurnsRight(s.a, s.b, s.c, s.d) else TurnsLeft(s.a, s.b, s.c, s.d)
  {
    var g := Fitted(root, q, scale, incrementI, incrementJ);
    var alongI, alongJ := MeanLength(root, Sub(q.c, q.a), Sub(q.d, q.b)),
        MeanLength(root, Sub(q.b, q.a), Sub(q.d, q.c));
    SquaredIsRectangle(root, q, scale, incrementI, incrementJ);
    EdgesCross(g, Half(alongI), Half(alongJ));
    RectangleTurns(Squared(q, g), Mean(q.a, q.b, q.c, q.d), Scale(Half(alongI), AxisI(g)),
                   Scale(Half(alongJ), g.axisJ));
    hide Turn, Cross, Squared, Fitted, IsRectangle, MeanLength, AxisI, Scale;
  }

  // ----- residuals

  /** A corner's numbers less those its coordinates convert to. */
  function NumberResidual(g: Grid, i: int, j: int, p: Vec): Vec
    requires IsGrid(g)
  {
    Sub(NodeAt(i, j), ToBin(g, p))
  }

  /** The residuals of all four corners, in numbers and in coordinates, add up to nothing. */
  lemma ResidualsSumToNothing(q: Corners, g: Grid)
    requires IsGrid(g) && IsCentred(q, g) && g.origin == Mean(q.a, q.b, q.c, q.d)
    ensures Add(Add(NumberResidual(g, q.minI, q.minJ, q.a), NumberResidual(g, q.minI, q.maxJ, q.b)),
                Add(NumberResidual(g, q.maxI, q.minJ, q.c), NumberResidual(g, q.maxI, q.maxJ, q.d))) == ZERO
    ensures var s := Squared(q, g); Add(Add(Sub(q.a, s.a), Sub(q.b, s.b)), Add(Sub(q.c, s.c), Sub(q.d, s.d))) == ZERO
  {
    StepsArePositive(g);
    var f := OffsetsToBin(g);
    var o := g.origin;
    AppliedSum(f, Sub(q.a, o), Sub(q.b, o), Sub(q.c, o), Sub(q.d, o));
    CentredIsRectangle(q, g);
    assert ToBin(g, q.a) == Apply(f, Sub(q.a, o)) && ToBin(g, q.b) == Apply(f, Sub(q.b, o));
    assert ToBin(g, q.c) == Apply(f, Sub(q.c, o)) && ToBin(g, q.d) == Apply(f, Sub(q.d, o));
    assert f.xoff == g.originI && f.yoff == g.originJ;
    hide Times, OffsetsToBin, Apply, Squared, ToBin, HalfEdge, StepI, StepJ, AxisI, IsGrid;
  }

  lemma AppliedSum(f: Affine, a: Vec, b: Vec, c: Vec, d: Vec)
    requires Add(Add(a, b), Add(c, d)) == ZERO
    ensures Add(Add(Apply(f, a), Apply(f, b)), Add(Apply(f, c), Apply(f, d))) == Vec(4.0 * f.xoff, 4.0 * f.yoff)
  {
    hide Times;
    TimesSum(f.s11, a.x, b.x, c.x, d.x);
    TimesSum(f.s12, a.y, b.y, c.y, d.y);
    TimesSum(f.s21, a.x, b.x, c.x, d.x);
    TimesSum(f.s22, a.y, b.y, c.y, d.y);
  }

  lemma TimesSum(t: real, a: real, b: real, c: real, d: real)
    requires a + b + (c + d) == 0.0
    ensures Times(t, a) + Times(t, b) + (Times(t, c) + Times(t, d)) == 0.0
  {
    hide Times;
    TimesAdd(t, a, b);
    TimesAdd(t, c, d);
    TimesAdd(t, a + b, c + d);
    TimesOne(t);
  }

  // ----- the scale factor

  /** Whatever the scale factor and the increments, the fitted grid puts every position where it was. */
  lemma ScaleMovesNothing(root: real -> real, q: Corners, scale: real, incrementI: int, incrementJ: int, other: real,
                          otherI: int, otherJ: int, n: Vec, p: Vec)
    requires IsRoot(root) && CanFit(q, scale, incrementI, incrementJ) && CanFit(q, other, otherI, otherJ)
    requires IsGrid(Fitted(root, q, scale, incrementI, incrementJ)) && IsGrid(Fitted(root, q, other, otherI, otherJ))
    ensures ToMap(Fitted(root, q, scale, incrementI, incrementJ), n) == ToMap(Fitted(root, q, other, otherI, otherJ), n)
    ensures ToBin(Fitted(root, q, scale, incrementI, incrementJ), p) == ToBin(Fitted(root, q, other, otherI, otherJ), p)
  {
    var g, h := Fitted(root, q, scale, incrementI, incrementJ), Fitted(root, q, other, otherI, otherJ);
    FittedSteps(root, q, scale, incrementI, incrementJ);
    FittedSteps(root, q, other, otherI, otherJ);
    SpansAreScaled(q, scale);
    TimesInjective(SpanI(q), StepI(g), StepI(h));
    TimesInjective(SpanJ(q), StepJ(g), StepJ(h));
    assert g.axisJ == h.axisJ && g.right == h.right && g.origin == h.origin && g.originI == h.originI &&
        g.originJ == h.originJ;
    SameStepsMapAlike(g, h, n);
    SameStepsMapAlike(g, h, ToBin(g, p));
    ThereAndBack(g, n, p);
    ThereAndBack(h, ToBin(g, p), p);
    hide Fitted, Step, ToMap, ToBin, IsGrid;
  }

  lemma FittedSteps(root: real -> real, q: Corners, scale: real, incrementI: int, incrementJ: int)
    requires IsRoot(root) && CanFit(q, scale, incrementI, incrementJ)
    ensures var g := Fitted(root, q, scale, incrementI, incrementJ);
            Times(SpanI(q), StepI(g)) == MeanLength(root, Sub(q.c, q.a), Sub(q.d, q.b))
            && Times(SpanJ(q), StepJ(g)) == MeanLength(root, Sub(q.b, q.a), Sub(q.d, q.c))
  {
    SpansAreScaled(q, scale);
    SpanIsMean(incrementI, MeanLength(root, Sub(q.c, q.a), Sub(q.d, q.b)), SpanI(q), scale);
    SpanIsMean(incrementJ, MeanLength(root, Sub(q.b, q.a), Sub(q.d, q.c)), SpanJ(q), scale);
    hide Times, Over, Width, MeanLength, Convex, Unit;
  }

  lemma TimesInjective(t: real, a: real, b: real)
    requires t > 0.0 && Times(t, a) == Times(t, b)
    ensures a == b
  {
    TimesAdd(t, a, b);
    TimesPositive(t, a - b);
    hide Times;
  }

  lemma SameStepsMapAlike(g: Grid, h: Grid, n: Vec)
    requires IsGrid(g) && IsGrid(h) && StepI(g) == StepI(h) && StepJ(g) == StepJ(h)
    requires g.axisJ == h.axisJ && g.right == h.right && g.origin == h.origin && g.originI == h.originI &&
      g.originJ == h.originJ
    ensures ToMap(g, n) == ToMap(h, n)
  {
    ToMapIsStepped(g, n);
    ToMapIsStepped(h, n);
    hide ToMap, StepI, StepJ;
  }

  // ----- an exact grid

  /** corners_from_p6: the corners of a grid, for ranges of its nodes. */
  ghost predicate AreNodes(g: Grid, minI: int, maxI: int, minJ: int, maxJ: int) {
    IsGrid(g) && minI < maxI && minJ < maxJ && (maxI - minI) % g.incrementI == 0 && (maxJ - minJ) % g.incrementJ == 0
  }

  ghost function CornersFromP6(g: Grid, minI: int, maxI: int, minJ: int, maxJ: int): Corners
    requires IsGrid(g)
  {
    Squared(Corners(minI, maxI, minJ, maxJ, ZERO, ZERO, ZERO, ZERO), g)
  }

  /** A grid's own corners, with its origin in their middle. */
  lemma OwnCorners(g: Grid, minI: int, maxI: int, minJ: int, maxJ: int)
    requires AreNodes(g, minI, maxI, minJ, maxJ)
    ensures var q := CornersFromP6(g, minI, maxI, minJ, maxJ);
            var middle := Vec((2 * minI + 2 * maxI) as real / 4.0, (2 * minJ + 2 * maxJ) as real / 4.0);
            var h := Reanchored(g, middle);
            IsGrid(h) && IsCentred(q, h) && q == Squared(q, h) && StepI(h) == StepI(g) && StepJ(h) == StepJ(g)
            && IsRectangle(q, h.origin, HalfEdge(SpanI(q), StepI(g), AxisI(g)), HalfEdge(SpanJ(q), StepJ(g), g.axisJ))
  {
    var q := CornersFromP6(g, minI, maxI, minJ, maxJ);
    var middle := Vec((2 * minI + 2 * maxI) as real / 4.0, (2 * minJ + 2 * maxJ) as real / 4.0);
    var h := Reanchored(g, middle);
    ReanchoredMapsAlike(g, middle, NodeAt(minI, minJ), ZERO);
    ReanchoredMapsAlike(g, middle, NodeAt(minI, maxJ), ZERO);
    ReanchoredMapsAlike(g, middle, NodeAt(maxI, minJ), ZERO);
    ReanchoredMapsAlike(g, middle, NodeAt(maxI, maxJ), ZERO);
    CentredIsRectangle(q, h);
    hide ToMap, ToBin, Times, Over, HalfEdge, IsRectangle, Dot;
  }

  /** The edges of a rectangle drawn along a grid's axes. */
  lemma EdgesAlongAxes(q: Corners, o: Vec, p: real, r: real, u: Vec, v: Vec)
    requires IsRectangle(q, o, Scale(Half(p), u), Scale(Half(r), v))
    ensures Sub(q.b, q.a) == Sub(q.d, q.c) == Scale(r, v) && Sub(q.c, q.a) == Sub(q.d, q.b) == Scale(p, u)
  {
    TimesAdd(u.x, Half(p), Half(p));
    TimesAdd(u.y, Half(p), Half(p));
    TimesAdd(v.x, Half(r), Half(r));
    TimesAdd(v.y, Half(r), Half(r));
    hide Times;
  }

  /** A grid's own corners can be fitted. */
  lemma OwnCornersFit(g: Grid, minI: int, maxI: int, minJ: int, maxJ: int)
    requires AreNodes(g, minI, maxI, minJ, maxJ)
    ensures var q := CornersFromP6(g, minI, maxI, minJ, maxJ); CanFit(q, g.scale, g.incrementI, g.incrementJ)
    ensures var q := CornersFromP6(g, minI, maxI, minJ, maxJ); g.right <==> TurnsRight(q.a, q.b, q.c, q.d)
  {
    var q := CornersFromP6(g, minI, maxI, minJ, maxJ);
    OwnCorners(g, minI, maxI, minJ, maxJ);
    StepsArePositive(g);
    var p, r := Half(Times(SpanI(q), StepI(g))), Half(Times(SpanJ(q), StepJ(g)));
    Positive(SpanI(q), StepI(g));
    Positive(SpanJ(q), StepJ(g));
    var h := Reanchored(g, Vec((2 * minI + 2 * maxI) as real / 4.0, (2 * minJ + 2 * maxJ) as real / 4.0));
    EdgesCross(g, p, r);
    RectangleTurns(q, h.origin, Scale(p, AxisI(g)), Scale(r, g.axisJ));
    hide Turn, Cross, Times, CornersFromP6, Reanchored, IsRectangle, AxisI, Scale;
  }

  /** Deriving a grid from its own corners, at its scale factor and increments, recovers it, its origin moved
      to the middle. */
  lemma OwnGridIsRecovered(root: real -> real, g: Grid, minI: int, maxI: int, minJ: int, maxJ: int)
    requires IsRoot(root) && AreNodes(g, minI, maxI, minJ, maxJ)
    requires CanFit(CornersFromP6(g, minI, maxI, minJ, maxJ), g.scale, g.incrementI, g.incrementJ)
    ensures Fitted(root, CornersFromP6(g, minI, maxI, minJ, maxJ), g.scale, g.incrementI, g.incrementJ)
            == Reanchored(g, Vec((2 * minI + 2 * maxI) as real / 4.0, (2 * minJ + 2 * maxJ) as real / 4.0))
  {
    var q := CornersFromP6(g, minI, maxI, minJ, maxJ);
    var h := Reanchored(g, Vec((2 * minI + 2 * maxI) as real / 4.0, (2 * minJ + 2 * maxJ) as real / 4.0));
    OwnCorners(g, minI, maxI, minJ, maxJ);
    OwnCornersFit(g, minI, maxI, minJ, maxJ);
    SameCentroid(q, h.origin, HalfEdge(SpanI(q), StepI(g), AxisI(g)), HalfEdge(SpanJ(q), StepJ(g), g.axisJ));
    StepsArePositive(g);
    var p, r := Times(SpanI(q), StepI(g)), Times(SpanJ(q), StepJ(g));
    EdgesAlongAxes(q, h.origin, p, r, AxisI(g), g.axisJ);
    Positive(SpanI(q), StepI(g));
    Positive(SpanJ(q), StepJ(g));
    AxesAreSquare(g);
    SpansAreScaled(q, g.scale);
    UnitOfScale(root, p, AxisI(g));
    UnitOfScale(root, r, g.axisJ);
    WidthRecovered(g.incrementI, g.widthI, SpanI(q), g.scale);
    WidthRecovered(g.incrementJ, g.widthJ, SpanJ(q), g.scale);
    TwiceTheAxis(root, g.axisJ);
    FittedIsGrid(root, q, g.scale, g.incrementI, g.incrementJ);
    Recovered(root, g, q, h, p, r);
  }

  /** The pieces put together. */
  lemma Recovered(root: real -> real, g: Grid, q: Corners, h: Grid, p: real, r: real)
    requires IsRoot(root) && IsGrid(g) && CanFit(q, g.scale, g.incrementI, g.incrementJ)
    requires p == Times(SpanI(q), StepI(g)) && r == Times(SpanJ(q), StepJ(g))
    requires Times(SpanI(q), g.scale) != 0.0 && Times(SpanJ(q), g.scale) != 0.0
    requires h == g.(originI := (2 * q.minI + 2 * q.maxI) as real / 4.0, originJ :=
      (2 * q.minJ + 2 * q.maxJ) as real / 4.0, origin := Mean(q.a, q.b, q.c, q.d))
    requires Sub(q.b, q.a) == Sub(q.d, q.c) == Scale(r, g.axisJ) && Sub(q.c, q.a) == Sub(q.d, q.b) == Scale(p, AxisI(g))
    requires Length(root, Scale(p, AxisI(g))) == p && Length(root, Scale(r, g.axisJ)) == r != 0.0 &&
      Unit(root, Scale(r, g.axisJ)) == g.axisJ
    requires Width(g.incrementI, p, SpanI(q), g.scale) == g.widthI &&
      Width(g.incrementJ, r, SpanJ(q), g.scale) == g.widthJ
    requires Length(root, Add(g.axisJ, g.axisJ)) != 0.0 && Unit(root, Add(g.axisJ, g.axisJ)) == g.axisJ
    requires Fitted(root, q, g.scale, g.incrementI, g.incrementJ).right == g.right
    ensures Fitted(root, q, g.scale, g.incrementI, g.incrementJ) == h
  {
    hide Times, Cross, Dot, Length, Unit, Width, Scale, AxisI, Convex;
    assert MeanBearing(root, q) == Add(g.axisJ, g.axisJ);
  }

  lemma TwiceTheAxis(root: real -> real, u: Vec)
    requires IsRoot(root) && Dot(u, u) == 1.0
    ensures Length(root, Add(u, u)) == 2.0 && Unit(root, Add(u, u)) == u
  {
    UnitOfScale(root, 2.0, u);
    assert Times(2.0, u.x) == u.x + u.x && Times(2.0, u.y) == u.y + u.y;
    assert Add(u, u) == Scale(2.0, u);
  }

  lemma WidthRecovered(increment: int, width: real, span: real, scale: real)
    requires increment >= 1 && Times(span, scale) != 0.0
    ensures Width(increment, Times(span, Step(scale, width, increment)), span, scale) == width
  {
    var inc := increment as real;
    OverTimes(Times(scale, width), inc);
    hide Times, Over;
    Thrice(inc, span, Over(Times(scale, width), inc));
    TimesTimes(span, scale, width);
    TimesSwap(Times(span, scale), width);
    OverIs(width, Times(inc, Times(span, Over(Times(scale, width), inc))), Times(span, scale));
  }

  /** So it maps every position as the grid it came from, with its widths, bearing and handedness, and leaves
      no residual at its own corners. */
  lemma OwnGridMapsAlike(root: real -> real, g: Grid, minI: int, maxI: int, minJ: int, maxJ: int, n: Vec, p: Vec)
    requires IsRoot(root) && AreNodes(g, minI, maxI, minJ, maxJ)
    ensures var q := CornersFromP6(g, minI, maxI, minJ, maxJ);
            CanFit(q, g.scale, g.incrementI, g.incrementJ)
            && var h := Fitted(root, q, g.scale, g.incrementI, g.incrementJ);
            IsGrid(h) && ToMap(h, n) == ToMap(g, n) && ToBin(h, p) == ToBin(g, p)
            && h.widthI == g.widthI && h.widthJ == g.widthJ && h.axisJ == g.axisJ && h.right == g.right &&
                Squared(q, h) == q
            && NumberResidual(h, minI, minJ, q.a) == NumberResidual(h, minI, maxJ, q.b) == ZERO
            && NumberResidual(h, maxI, minJ, q.c) == NumberResidual(h, maxI, maxJ, q.d) == ZERO
  {
    var q := CornersFromP6(g, minI, maxI, minJ, maxJ);
    OwnCornersFit(g, minI, maxI, minJ, maxJ);
    OwnGridIsRecovered(root, g, minI, maxI, minJ, maxJ);
    OwnCorners(g, minI, maxI, minJ, maxJ);
    var middle := Vec((2 * minI + 2 * maxI) as real / 4.0, (2 * minJ + 2 * maxJ) as real / 4.0);
    var h := Reanchored(g, middle);
    ReanchoredMapsAlike(g, middle, n, p);
    ThereAndBack(h, NodeAt(minI, minJ), p);
    ThereAndBack(h, NodeAt(minI, maxJ), p);
    ThereAndBack(h, NodeAt(maxI, minJ), p);
    ThereAndBack(h, NodeAt(maxI, maxJ), p);
    hide Fitted, ToMap, ToBin, CanFit, IsRectangle, StepI, StepJ, IsGrid;
  }

  // ----- square_up

  /** How far a corner is from the fitted rectangle, in numbers and on the map grid. */
  datatype Residual = Residual(numbers: Vec, position: Vec)

  datatype SquaringResult = Refused(derived: Derived)
    | SquaringResult(parameters: Grid, squared: Corners, residuals: seq<Residual>, di: real, dj: real, distance: real)

  ghost function ResidualOf(g: Grid, i: int, j: int, given: Vec, fitted: Vec): Residual
    requires IsGrid(g)
  {
    Residual(NumberResidual(g, i, j, given), Sub(given, fitted))
  }

  ghost function Residuals(q: Corners, g: Grid): seq<Residual>
    requires IsGrid(g)
  {
    var s := Squared(q, g);
    [ResidualOf(g, q.minI, q.minJ, q.a, s.a), ResidualOf(g, q.minI, q.maxJ, q.b, s.b),
     ResidualOf(g, q.maxI, q.minJ, q.c, s.c), ResidualOf(g, q.maxI, q.maxJ, q.d, s.d)]
  }

  /** The largest of some numbers, and one of them. */
  ghost predicate IsLargest(x: real, xs: seq<real>) {
    x in xs && forall i :: 0 <= i < |xs| ==> xs[i] <= x
  }

  method Largest(xs: seq<real>) returns (x: real)
    requires xs != []
    ensures IsLargest(x, xs)
  {
    x := xs[0];
    for i := 1 to |xs|
      invariant x in xs && forall j :: 0 <= j < i ==> xs[j] <= x
    {
      if xs[i] > x {
        x := xs[i];
      }
    }
  }

  function InlineSizes(rs: seq<Residual>): (xs: seq<real>)
    ensures |xs| == |rs|
  {
    seq(|rs|, i requires 0 <= i < |rs| => Abs(rs[i].numbers.x))
  }

  function CrosslineSizes(rs: seq<Residual>): (xs: seq<real>)
    ensures |xs| == |rs|
  {
    seq(|rs|, i requires 0 <= i < |rs| => Abs(rs[i].numbers.y))
  }

  function Distances(root: real -> real, rs: seq<Residual>): (xs: seq<real>)
    ensures |xs| == |rs|
  {
    seq(|rs|, i requires 0 <= i < |rs| => Length(root, rs[i].position))
  }

  /** The grid fitted to the corners, anchored at squared corner A: it maps every position as the centred one. */
  method SquareUp(root: real -> real, q: Corners, scale: real, incrementI: int,
                  incrementJ: int) returns (r: SquaringResult)
    requires IsRoot(root) && IsLabelled(q)
    ensures r.SquaringResult? <==> CanFit(q, scale, incrementI, incrementJ)
    ensures r.SquaringResult? ==>
              var g := Fitted(root, q, scale, incrementI, incrementJ);
              && IsGrid(g) && r.parameters == Reanchored(g, NodeAt(q.minI, q.minJ)) && r.squared == Squared(q, g) &&
                  r.residuals == Residuals(q, g)
              && IsLargest(r.di, InlineSizes(r.residuals)) && IsLargest(r.dj, CrosslineSizes(r.residuals))
              && IsLargest(r.distance, Distances(root, r.residuals))
  {
    var derived := DeriveP6(root, q, scale, incrementI, incrementJ);
    if !derived.Derived? {
      return Refused(derived);
    }
    var g := derived.grid;
    FittedIsGrid(root, q, scale, incrementI, incrementJ);
    hide IsGrid, CanFit, Fitted;
    var a, b := ToMap(g, NodeAt(q.minI, q.minJ)), ToMap(g, NodeAt(q.minI, q.maxJ));
    var c, d := ToMap(g, NodeAt(q.maxI, q.minJ)), ToMap(g, NodeAt(q.maxI, q.maxJ));
    var squared := q.(a := a, b := b, c := c, d := d);
    var residuals := [Residual(NumberResidual(g, q.minI, q.minJ, q.a), Sub(q.a, a)),
                      Residual(NumberResidual(g, q.minI, q.maxJ, q.b), Sub(q.b, b)),
                      Residual(NumberResidual(g, q.maxI, q.minJ, q.c), Sub(q.c, c)),
                          Residual(NumberResidual(g, q.maxI, q.maxJ, q.d), Sub(q.d, d))];
    var anchored := g.(originI := q.minI as real, originJ := q.minJ as real, origin := a);
    hide ToMap, ToBin, NumberResidual;
    var di := Largest(InlineSizes(residuals));
    var dj := Largest(CrosslineSizes(residuals));
    var distance := Largest(Distances(root, residuals));
    r := SquaringResult(anchored, squared, residuals, di, dj, distance);
  }
}
