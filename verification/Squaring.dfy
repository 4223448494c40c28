module Squaring {
  // Fitting a bin grid to four corners (geodetic_engine/bingrid/squaring.py, corners.py and outline.py).

  import opened Plane
  import opened P6

  /** Four corners by their numbers: A (least, least), B (least, greatest), C (greatest, least), D (greatest,
      greatest). */
  datatype Corners = Corners(minI: int, maxI: int, minJ: int, maxJ: int, a: Vec, b: Vec, c: Vec, d: Vec)

  ghost predicate IsLabelled(q: Corners) { q.minI < q.maxI && q.minJ < q.maxJ }

  function SpanI(q: Corners): real { (q.maxI - q.minI) as real }

  function SpanJ(q: Corners): real { (q.maxJ - q.minJ) as real }

  // ----- the outline A-B-D-C

  /** How far an outline turns at a point, positive to the left. */
  function Turn(before: Vec, at: Vec, after: Vec): real {
    Cross(Sub(at, before), Sub(after, at))
  }

  /** It is positive exactly where the point after is on the left of the way there, and negative on the right. */
  lemma TurnIsSided(p: Vec, q: Vec, r: Vec)
    ensures Turn(p, q, r) > 0.0 <==> (q.x - p.x) * (r.y - p.y) > (q.y - p.y) * (r.x - p.x)
    ensures Turn(p, q, r) < 0.0 <==> (q.x - p.x) * (r.y - p.y) < (q.y - p.y) * (r.x - p.x)
  {
    assert (q.x - p.x) * (r.y - q.y) - (q.y - p.y) * (r.x - q.x) ==
        (q.x - p.x) * (r.y - p.y) - (q.y - p.y) * (r.x - p.x);
  }

  function Previous(k: nat, n: nat): nat
    requires k < n
    ensures Previous(k, n) < n
  {
    if k == 0 then n - 1 else k - 1
  }

  /** _turns, and the loop of _checked_coordinates. */
  method Turns(ring: seq<Vec>) returns (turns: seq<real>)
    ensures |turns| == |ring|
    ensures forall k :: 0 <= k < |ring| ==> turns[k] == Turn(ring[Previous(k, |ring|)], ring[k], ring[(k + 1) % |ring|])
  {
    turns := [];
    for k := 0 to |ring|
      invariant |turns| == k
      invariant forall j :: 0 <= j < k ==> turns[j] == Turn(ring[Previous(j, |ring|)], ring[j], ring[(j + 1) % |ring|])
    {
      turns := turns + [Turn(ring[Previous(k, |ring|)], ring[k], ring[(k + 1) % |ring|])];
    }
  }

  /** Every corner of the outline turns left, or every one right. */
  predicate TurnsLeft(a: Vec, b: Vec, c: Vec, d: Vec) {
    Turn(c, a, b) > 0.0 && Turn(a, b, d) > 0.0 && Turn(b, d, c) > 0.0 && Turn(d, c, a) > 0.0
  }

  predicate TurnsRight(a: Vec, b: Vec, c: Vec, d: Vec) {
    Turn(c, a, b) < 0.0 && Turn(a, b, d) < 0.0 && Turn(b, d, c) < 0.0 && Turn(d, c, a) < 0.0
  }

  predicate Convex(q: Corners) {
    TurnsLeft(q.a, q.b, q.c, q.d) || TurnsRight(q.a, q.b, q.c, q.d)
  }

  datatype Label = A | B | C | D

  datatype Outline = Degenerate | Outline(labels: seq<Label>, points: seq<Vec>)

  /** outline_of: a closed ring through four points, turning left throughout. */
  method OutlineOf(a: Vec, b: Vec, c: Vec, d: Vec) returns (r: Outline)
    ensures r.Degenerate? <==> !TurnsLeft(a, b, c, d) && !TurnsRight(a, b, c, d)
    ensures r.Outline? ==> |r.points| == |r.labels| == 5 && r.points[4] == r.points[0] &&
                           TurnsLeft(r.points[0], r.points[1], r.points[3], r.points[2])
    ensures r.Outline? ==> r.labels == if TurnsLeft(a, b, c, d) then [A, B, D, C, A] else [A, C, D, B, A]
    ensures r.Outline? ==> r.points == if TurnsLeft(a, b, c, d) then [a, b, d, c, a] else [a, c, d, b, a]
  {
    var turns := Turns([a, b, d, c]);
    FourTurns(a, b, c, d, turns);
    Backwards(a, b, c, d);
    hide Turn;
    if turns[0] > 0.0 && turns[1] > 0.0 && turns[2] > 0.0 && turns[3] > 0.0 {
      return Outline([A, B, D, C, A], [a, b, d, c, a]);
    }
    if turns[0] < 0.0 && turns[1] < 0.0 && turns[2] < 0.0 && turns[3] < 0.0 {
      return Outline([A, C, D, B, A], [a, c, d, b, a]);
    }
    r := Degenerate;
  }

  lemma FourTurns(a: Vec, b: Vec, c: Vec, d: Vec, turns: seq<real>)
    requires |turns| == 4
    requires forall k :: 0 <= k < 4 ==>
      turns[k] == Turn([a, b, d, c][Previous(k, 4)], [a, b, d, c][k], [a, b, d, c][(k + 1) % 4])
    ensures turns[0] == Turn(c, a, b) && turns[1] == Turn(a, b, d) && turns[2] == Turn(b, d, c) &&
      turns[3] == Turn(d, c, a)
  {
    hide Turn;
    assert turns[0] == Turn([a, b, d, c][3], a, b);
  }

  /** Going round the other way turns the other way. */
  lemma TurnBack(p: Vec, q: Vec, r: Vec)
    ensures Turn(r, q, p) == -Turn(p, q, r)
  {
    CrossMinus(Sub(q, p), Sub(r, q));
    CrossMinus(Minus(Sub(r, q)), Sub(q, p));
    CrossMinus(Sub(r, q), Sub(q, p));
    assert Sub(q, r) == Minus(Sub(r, q)) && Sub(p, q) == Minus(Sub(q, p));
  }

  lemma Backwards(a: Vec, b: Vec, c: Vec, d: Vec)
    ensures TurnsRight(a, b, c, d) <==> TurnsLeft(a, c, b, d)
  {
    TurnBack(c, a, b);
    TurnBack(a, b, d);
    TurnBack(b, d, c);
    TurnBack(d, c, a);
  }

  // ----- the grid

  function Half(x: real): real { x / 2.0 }

  function Mean(a: Vec, b: Vec, c: Vec, d: Vec): Vec {
    Vec((a.x + b.x + c.x + d.x) / 4.0, (a.y + b.y + c.y + d.y) / 4.0)
  }

  /** The mean length of two opposite edges. */
  function MeanLength(root: real -> real, u: Vec, v: Vec): real {
    Half(Length(root, u) + Length(root, v))
  }

  /** The bin width of edges so long, over so many numbers. */
  function Width(increment: int, mean: real, span: real, scale: real): real
    requires Times(span, scale) != 0.0
  {
    Over(Times(increment as real, mean), Times(span, scale))
  }

  /** The bearings of A to B and of C to D, averaged as directions. */
  function MeanBearing(root: real -> real, q: Corners): Vec
    requires Length(root, Sub(q.b, q.a)) != 0.0 && Length(root, Sub(q.d, q.c)) != 0.0
  {
    Add(Unit(root, Sub(q.b, q.a)), Unit(root, Sub(q.d, q.c)))
  }

  lemma EdgesAreLong(root: real -> real, q: Corners)
    requires IsRoot(root) && Convex(q)
    ensures Length(root, Sub(q.b, q.a)) > 0.0 && Length(root, Sub(q.d, q.c)) > 0.0
    ensures Length(root, Sub(q.c, q.a)) > 0.0 && Length(root, Sub(q.d, q.b)) > 0.0
  {
    var ab, bd, dc, ca := Sub(q.b, q.a), Sub(q.d, q.b), Sub(q.c, q.d), Sub(q.a, q.c);
    NotZero(ca, ab);
    NotZero(bd, dc);
    assert Sub(q.d, q.c) == Minus(dc) && Sub(q.c, q.a) == Minus(ca);
    hide Cross, Times;
    assert ab != ZERO && bd != ZERO && Minus(dc) != ZERO && Minus(ca) != ZERO;
    LengthSquared(root, ab);
    LengthSquared(root, Minus(dc));
    LengthSquared(root, Minus(ca));
    LengthSquared(root, bd);
  }

  lemma NotZero(u: Vec, v: Vec)
    ensures Cross(u, v) != 0.0 ==> u != ZERO && v != ZERO
  {
    TimesOne(u.x);
    TimesOne(u.y);
    TimesOne(v.x);
    TimesOne(v.y);
  }

  /** Which side of both edges C is on: the outline's turns at A and at C. */
  lemma SidesOfTheEdges(q: Corners)
    ensures Cross(Sub(q.c, q.a), Sub(q.b, q.a)) == -Turn(q.c, q.a, q.b)
    ensures Cross(Sub(q.c, q.a), Sub(q.d, q.c)) == -Turn(q.d, q.c, q.a)
  {
    var ac, ab, cd := Sub(q.c, q.a), Sub(q.b, q.a), Sub(q.d, q.c);
    assert Sub(q.a, q.c) == Minus(ac) && Sub(q.c, q.d) == Minus(cd);
    CrossMinus(ac, ab);
    CrossMinus(cd, Minus(ac));
    CrossMinus(cd, ac);
  }

  /** C lies on the same side of the mean bearing as of either edge, so that is never nothing. */
  lemma SideOfTheBearing(root: real -> real, q: Corners)
    requires IsRoot(root) && Convex(q) && Length(root, Sub(q.b, q.a)) > 0.0 && Length(root, Sub(q.d, q.c)) > 0.0
    ensures MeanBearing(root, q) != ZERO
    ensures Cross(Sub(q.c, q.a), MeanBearing(root, q)) > 0.0 <==> TurnsRight(q.a, q.b, q.c, q.d)
    ensures Cross(Sub(q.c, q.a), MeanBearing(root, q)) < 0.0 <==> TurnsLeft(q.a, q.b, q.c, q.d)
  {
    var ac, ab, cd := Sub(q.c, q.a), Sub(q.b, q.a), Sub(q.d, q.c);
    SidesOfTheEdges(q);
    SideOfUnit(root, ac, ab);
    SideOfUnit(root, ac, cd);
    CrossAdd(ac, Unit(root, ab), Unit(root, cd));
    NotZero(ac, MeanBearing(root, q));
    hide Cross, Unit, Length, Turn;
  }

  lemma SideOfUnit(root: real -> real, u: Vec, v: Vec)
    requires Length(root, v) > 0.0
    ensures Cross(u, v) > 0.0 ==> Cross(u, Unit(root, v)) > 0.0
    ensures Cross(u, v) < 0.0 ==> Cross(u, Unit(root, v)) < 0.0
  {
    var t := Over(1.0, Length(root, v));
    OverPositive(1.0, Length(root, v));
    CrossScale(t, u, v);
    TimesPositive(t, Cross(u, v));
  }

  ghost predicate CanFit(q: Corners, scale: real, incrementI: int, incrementJ: int) {
    && IsLabelled(q) && Convex(q) && scale > 0.0 && incrementI >= 1 && incrementJ >= 1
    && (q.maxI - q.minI) % incrementI == 0 && (q.maxJ - q.minJ) % incrementJ == 0
  }

  lemma SpansAreScaled(q: Corners, scale: real)
    requires IsLabelled(q) && scale > 0.0
    ensures SpanI(q) > 0.0 && SpanJ(q) > 0.0 && Times(SpanI(q), scale) > 0.0 && Times(SpanJ(q), scale) > 0.0
  {
    Positive(SpanI(q), scale);
    Positive(SpanJ(q), scale);
  }

  /** The rectangle of the SDU note through the corners. */
  ghost function Fitted(root: real -> real, q: Corners, scale: real, incrementI: int, incrementJ: int): Grid
    requires IsRoot(root) && CanFit(q, scale, incrementI, incrementJ)
  {
    EdgesAreLong(root, q);
    SideOfTheBearing(root, q);
    SpansAreScaled(q, scale);
    LengthSquared(root, MeanBearing(root, q));
    var axis := Unit(root, MeanBearing(root, q));
    Grid((2 * q.minI + 2 * q.maxI) as real / 4.0, (2 * q.minJ + 2 * q.maxJ) as real / 4.0, Mean(q.a, q.b, q.c, q.d),
         Width(incrementI, MeanLength(root, Sub(q.c, q.a), Sub(q.d, q.b)), SpanI(q), scale),
         Width(incrementJ, MeanLength(root, Sub(q.b, q.a), Sub(q.d, q.c)), SpanJ(q), scale),
         axis, Cross(Sub(q.c, q.a), axis) > 0.0, scale, incrementI, incrementJ)
  }

  datatype Derived = InvalidParameter | DegenerateCorners | OffTheLattice | Derived(grid: Grid)

  /** derive_p6. */
  method DeriveP6(root: real -> real, q: Corners, scale: real, incrementI: int, incrementJ: int) returns (r: Derived)
    requires IsRoot(root) && IsLabelled(q)
    ensures r.InvalidParameter? <==> scale <= 0.0 || incrementI < 1 || incrementJ < 1
    ensures r.DegenerateCorners? <==> !r.InvalidParameter? && !Convex(q)
    ensures r.Derived? <==> CanFit(q, scale, incrementI, incrementJ)
    ensures r.Derived? ==> r.grid == Fitted(root, q, scale, incrementI, incrementJ)
  {
    if scale <= 0.0 || incrementI < 1 || incrementJ < 1 {
      return InvalidParameter;
    }
    var convex := CheckedCoordinates(q);
    if !convex {
      return DegenerateCorners;
    }
    if (q.maxI - q.minI) % incrementI != 0 || (q.maxJ - q.minJ) % incrementJ != 0 {
      return OffTheLattice;
    }
    EdgesAreLong(root, q);
    SideOfTheBearing(root, q);
    SpansAreScaled(q, scale);
    LengthSquared(root, MeanBearing(root, q));
    var ab, cd, ac, bd := Sub(q.b, q.a), Sub(q.d, q.c), Sub(q.c, q.a), Sub(q.d, q.b);
    var axis := Unit(root, Add(Unit(root, ab), Unit(root, cd)));
    hide Times, Over, Cross, Convex, Length;
    var widthI := Width(incrementI, MeanLength(root, ac, bd), SpanI(q), scale);
    var widthJ := Width(incrementJ, MeanLength(root, ab, cd), SpanJ(q), scale);
    r := Derived(Grid((2 * q.minI + 2 * q.maxI) as real / 4.0, (2 * q.minJ + 2 * q.maxJ) as real / 4.0,
                      Mean(q.a, q.b, q.c, q.d),
                      widthI, widthJ, axis, Cross(ac, axis) > 0.0, scale, incrementI, incrementJ));
  }

  /** _checked_coordinates: no two neighbours at one place, and all turns one way. */
  method CheckedCoordinates(q: Corners) returns (convex: bool)
    ensures convex == Convex(q)
  {
    var ring := [q.a, q.b, q.d, q.c];
    if q.a == q.b || q.b == q.d || q.d == q.c || q.c == q.a {
      NeighboursDiffer(q);
      return false;
    }
    var turns := Turns(ring);
    FourTurns(q.a, q.b, q.c, q.d, turns);
    hide Turn;
    convex := (turns[0] > 0.0 && turns[1] > 0.0 && turns[2] > 0.0 && turns[3] > 0.0) ||
        (turns[0] < 0.0 && turns[1] < 0.0 && turns[2] < 0.0 && turns[3] < 0.0);
  }

  lemma NeighboursDiffer(q: Corners)
    ensures Convex(q) ==> q.a != q.b && q.b != q.d && q.d != q.c && q.c != q.a
  {
    var ab, bd, dc, ca := Sub(q.b, q.a), Sub(q.d, q.b), Sub(q.c, q.d), Sub(q.a, q.c);
    NotZero(ca, ab);
    NotZero(bd, dc);
    hide Times, Cross;
    assert q.a == q.b ==> ab == ZERO;
    assert q.b == q.d ==> bd == ZERO;
    assert q.d == q.c ==> dc == ZERO;
    assert q.c == q.a ==> ca == ZERO;
  }
}
