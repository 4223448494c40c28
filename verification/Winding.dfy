module Winding {
  // Winding polygon rings (geodetic_engine/geojson/_convert.py, _wound).
  //
  // The original takes every ring's signed area at once, from flattened arrays. Here that is shown
  // to be each ring's own shoelace sum, and turning the rings that are wound the other way to
  // reverse those rings and move nothing else (section 3.1.6 of RFC 7946).

  import opened Arrays

  /** A position; one that failed is NaN in x or y. */
  datatype Row = Failed(rest: seq<real>) | At(x: real, y: real, rest: seq<real>)

  datatype Point = Point(x: real, y: real)

  function Cross(p: Point, q: Point): real {
    p.x * q.y - q.x * p.y
  }

  function Less(p: Point, base: Point): Point {
    Point(p.x - base.x, p.y - base.y)
  }

  const ORIGIN := Point(0.0, 0.0)

  // ----- what a ring is wound by

  /** The positions that did not fail. */
  function Finite(ring: seq<Row>): (r: seq<Point>)
    ensures |r| <= |ring|
  {
    if ring == [] then [] else
      var last := ring[|ring| - 1];
      Finite(ring[..|ring| - 1]) + if last.At? then [Point(last.x, last.y)] else []
  }

  /** The sum over the edges of an open line, relative to a point. */
  function Open(base: Point, line: seq<Point>): real {
    if |line| < 2 then 0.0 else
      Open(base, line[..|line| - 1]) + Cross(Less(line[|line| - 2], base), Less(line[|line| - 1], base))
  }

  /** Twice the signed area a closed ring encloses, positive anticlockwise: the shoelace sum. */
  function Area(ring: seq<Point>): real {
    if ring == [] then 0.0 else Open(ORIGIN, ring) + Cross(ring[|ring| - 1], ring[0])
  }

  function Reversed<T>(s: seq<T>): (r: seq<T>)
    ensures |r| == |s| && forall i :: 0 <= i < |s| ==> r[i] == s[|s| - 1 - i]
  {
    seq(|s|, i requires 0 <= i < |s| => s[|s| - 1 - i])
  }

  /** The ring is wound the other way: at least three positions did not fail, and the sign of its
      area is not the one asked for. */
  predicate Flips(ring: seq<Row>, positive: bool) {
    |Finite(ring)| >= 3 && (Area(Finite(ring)) > 0.0) != positive
  }

  function Turned(ring: seq<Row>, positive: bool): seq<Row> {
    if Flips(ring, positive) then Reversed(ring) else ring
  }

  // ----- the shoelace sum

  lemma CrossRelative(p: Point, q: Point, base: Point)
    ensures Cross(Less(p, base), Less(q, base)) == Cross(p, q) + Cross(base, p) - Cross(base, q)
  {}

  /** Edges relative to a point telescope. */
  lemma {:induction false} OpenRelative(base: Point, line: seq<Point>)
    requires line != []
    ensures Open(base, line) == Open(ORIGIN, line) + Cross(base, line[0]) - Cross(base, line[|line| - 1])
  {
    hide Cross;
    if |line| >= 2 {
      var p, q := line[|line| - 2], line[|line| - 1];
      OpenRelative(base, line[..|line| - 1]);
      CrossRelative(p, q, base);
      assert Less(p, ORIGIN) == p && Less(q, ORIGIN) == q;
    }
  }

  /** Relative to its first position, the open line's sum is the closed ring's: the closing edge
      adds nothing, and where the ring lies does not matter. */
  lemma LocalIsClosed(ring: seq<Point>)
    requires ring != []
    ensures Open(ring[0], ring) == Area(ring)
  {
    OpenRelative(ring[0], ring);
  }

  /** The shoelace sum does not depend on where the ring lies. */
  lemma AreaIsTranslationInvariant(ring: seq<Point>, moved: seq<Point>, shift: Point)
    requires |moved| == |ring| && forall i :: 0 <= i < |ring| ==> moved[i] == Less(ring[i], shift)
    ensures Area(moved) == Area(ring)
  {
    if ring != [] {
      OpenMoved(ring, moved, shift);
      OpenRelative(shift, ring);
      CrossRelative(ring[|ring| - 1], ring[0], shift);
    }
  }

  lemma {:induction false} OpenMoved(line: seq<Point>, moved: seq<Point>, shift: Point)
    requires |moved| == |line| && forall i :: 0 <= i < |line| ==> moved[i] == Less(line[i], shift)
    ensures Open(ORIGIN, moved) == Open(shift, line)
  {
    hide Cross;
    if |line| >= 2 {
      OpenMoved(line[..|line| - 1], moved[..|line| - 1], shift);
      assert Less(moved[|line| - 2], ORIGIN) == moved[|line| - 2];
      assert Less(moved[|line| - 1], ORIGIN) == moved[|line| - 1];
    }
  }

  lemma {:induction false} OpenFromFront(base: Point, p: Point, line: seq<Point>)
    requires line != []
    ensures Open(base, [p] + line) == Cross(Less(p, base), Less(line[0], base)) + Open(base, line)
  {
    hide Cross, Less;
    var n := |line|;
    assert ([p] + line)[..n] == [p] + line[..n - 1];
    if n > 1 {
      OpenFromFront(base, p, line[..n - 1]);
    } else {
      assert [p] + line == [p, line[0]];
    }
  }

  lemma {:induction false} OpenReversed(line: seq<Point>)
    ensures Open(ORIGIN, Reversed(line)) == -Open(ORIGIN, line)
  {
    hide Cross, Less;
    if |line| >= 2 {
      var n := |line|;
      OpenReversed(line[..n - 1]);
      assert Reversed(line) == [line[n - 1]] + Reversed(line[..n - 1]);
      OpenFromFront(ORIGIN, line[n - 1], Reversed(line[..n - 1]));
      CrossSwapped(Less(line[n - 1], ORIGIN), Less(line[n - 2], ORIGIN));
    }
  }

  lemma CrossSwapped(p: Point, q: Point)
    ensures Cross(p, q) == -Cross(q, p)
  {}

  /** Reversing a ring negates its area. */
  lemma AreaReversed(ring: seq<Point>)
    ensures Area(Reversed(ring)) == -Area(ring)
  {
    OpenReversed(ring);
    if ring != [] {
      CrossSwapped(ring[|ring| - 1], ring[0]);
    }
  }

  lemma FiniteJoined(a: seq<Row>, x: Row)
    ensures Finite(a + [x]) == Finite(a) + if x.At? then [Point(x.x, x.y)] else []
  {
    assert (a + [x])[..|a|] == a;
  }

  lemma {:induction false} FiniteFromFront(x: Row, b: seq<Row>)
    ensures Finite([x] + b) == (if x.At? then [Point(x.x, x.y)] else []) + Finite(b)
  {
    hide Finite;
    FiniteJoined([], x);
    NoneFinite();
    if b == [] {
      assert [x] + b == [] + [x];
    } else {
      var short, last := b[..|b| - 1], b[|b| - 1];
      FiniteFromFront(x, short);
      assert [x] + b == ([x] + short) + [last] && b == short + [last];
      FiniteJoined([x] + short, last);
      FiniteJoined(short, last);
    }
  }

  lemma NoneFinite()
    ensures Finite([]) == []
  {}

  lemma {:induction false} FiniteReversed(ring: seq<Row>)
    ensures Finite(Reversed(ring)) == Reversed(Finite(ring))
  {
    hide Finite, Reversed;
    NoneFinite();
    if ring != [] {
      var short, last := ring[..|ring| - 1], ring[|ring| - 1];
      FiniteReversed(short);
      assert ring == short + [last];
      FiniteJoined(short, last);
      ReversedJoined(short, last);
      FiniteFromFront(last, Reversed(short));
      if last.At? {
        ReversedJoined(Finite(short), Point(last.x, last.y));
      } else {
        assert Finite(short) + [] == Finite(short) && [] + Finite(Reversed(short)) == Finite(Reversed(short));
      }
    }
  }

  lemma ReversedJoined<T>(s: seq<T>, x: T)
    ensures Reversed(s + [x]) == [x] + Reversed(s)
  {}

  // ----- which way is positive

  /** How far r is to the left of the way from p to q: twice the area of the triangle, by its sides. */
  function Left(p: Point, q: Point, r: Point): real {
    (q.x - p.x) * (r.y - p.y) - (q.y - p.y) * (r.x - p.x)
  }

  /** A closed triangle's area is positive exactly where it turns left. */
  lemma TriangleArea(p: Point, q: Point, r: Point)
    ensures Area([p, q, r, p]) > 0.0 <==> (q.x - p.x) * (r.y - p.y) > (q.y - p.y) * (r.x - p.x)
    ensures Area([p, q, r, p]) == Left(p, q, r)
  {
    OpenPair(p, q);
    OpenNext(ORIGIN, [p, q], r);
    OpenNext(ORIGIN, [p, q, r], p);
    assert [p, q] + [r] == [p, q, r] && [p, q, r] + [p] == [p, q, r, p];
  }

  lemma OpenPair(p: Point, q: Point)
    ensures Open(ORIGIN, [p, q]) == Cross(p, q)
  {
    assert [p, q][..1] == [p];
  }

  /** A ring's area is that of the ring without its last position, and of the triangle this leaves out. */
  lemma AreaWithoutLast(ring: seq<Point>, last: Point)
    requires ring != []
    ensures Area(ring + [last]) == Area(ring) + Area([ring[0], ring[|ring| - 1], last, ring[0]])
    ensures Area(ring + [ring[0]]) == Area(ring)
  {
    TriangleArea(ring[0], ring[|ring| - 1], last);
    OpenNext(ORIGIN, ring, last);
    OpenNext(ORIGIN, ring, ring[0]);
    Wedge(ring[0], ring[|ring| - 1], last);
  }

  lemma Wedge(p: Point, q: Point, r: Point)
    ensures Cross(q, r) + Cross(r, p) == Cross(q, p) + Left(p, q, r)
    ensures Cross(p, p) == 0.0 && Less(p, ORIGIN) == p && Less(q, ORIGIN) == q && Less(r, ORIGIN) == r
  {}

  /** Every position is on the left of the way between any two before it, or on it. */
  ghost predicate Convex(ring: seq<Point>) {
    forall i, j, k :: 0 <= i < j < k < |ring| ==> Left(ring[i], ring[j], ring[k]) >= 0.0
  }

  lemma ConvexAt(ring: seq<Point>, i: nat, j: nat, k: nat)
    requires Convex(ring) && i < j < k < |ring|
    ensures Left(ring[i], ring[j], ring[k]) >= 0.0
  {}

  /** A convex ring without its last position is convex, and a triangle smaller. */
  lemma ConvexStep(ring: seq<Point>, n: nat)
    requires Convex(ring) && |ring| == n + 1 >= 2
    ensures Convex(ring[..n])
    ensures Area(ring) == Area(ring[..n]) + Left(ring[0], ring[n - 1], ring[n])
  {
    assert ring == ring[..n] + [ring[n]];
    AreaWithoutLast(ring[..n], ring[n]);
    TriangleArea(ring[0], ring[n - 1], ring[n]);
  }

  /** Such a ring holds each triangle its first position makes with two others. */
  lemma {:induction false} ConvexHolds(ring: seq<Point>, j: nat, k: nat)
    requires Convex(ring) && 0 < j < k < |ring|
    ensures Area(ring) >= Left(ring[0], ring[j], ring[k])
  {
    hide *;
    var n := |ring| - 1;
    ConvexStep(ring, n);
    if k < n {
      ConvexHolds(ring[..n], j, k);
      ConvexAt(ring, 0, n - 1, n);
    } else if j < n - 1 {
      ConvexHolds(ring[..n], j, n - 1);
      LeftSplits(ring[0], ring[j], ring[n - 1], ring[n]);
      ConvexAt(ring, j, n - 1, n);
    } else {
      ConvexIsPositive(ring[..n]);
    }
  }

  lemma {:induction false} ConvexIsPositive(ring: seq<Point>)
    requires Convex(ring) && |ring| >= 1
    ensures Area(ring) >= 0.0
  {
    hide *;
    var n := |ring| - 1;
    if n > 1 {
      ConvexStep(ring, n);
      ConvexIsPositive(ring[..n]);
      ConvexAt(ring, 0, n - 1, n);
    } else {
      TwoEncloseNothing(ring);
    }
  }

  lemma TwoEncloseNothing(ring: seq<Point>)
    requires 1 <= |ring| <= 2
    ensures Area(ring) == 0.0
  {
    if |ring| == 2 {
      assert ring == [ring[0], ring[1]];
      OpenPair(ring[0], ring[1]);
      CrossSwapped(ring[0], ring[1]);
    }
  }

  lemma LeftSplits(p: Point, q: Point, r: Point, s: Point)
    ensures Left(p, q, r) + Left(p, r, s) == Left(p, q, s) + Left(q, r, s)
  {}

  /** The area of a convex ring that turns left somewhere is positive. */
  lemma ConvexTurnsLeft(ring: seq<Point>, i: nat, j: nat, k: nat)
    requires Convex(ring) && i < j < k < |ring| && Left(ring[i], ring[j], ring[k]) > 0.0
    ensures Area(ring) > 0.0
  {
    hide Left, Area;
    if i == 0 {
      ConvexHolds(ring, j, k);
    } else {
      LeftSplits(ring[0], ring[i], ring[j], ring[k]);
      assert Left(ring[0], ring[i], ring[k]) >= 0.0;
      ConvexHolds(ring, i, j);
      ConvexHolds(ring, j, k);
    }
  }

  /** Where the positions that did not fail are. */
  ghost predicate Survive(ring: seq<Row>, at: seq<nat>) {
    && |at| == |Finite(ring)| && (forall a, b :: 0 <= a < b < |at| ==> at[a] < at[b])
    && (forall a :: 0 <= a < |at| ==>
        at[a] < |ring| && ring[at[a]].At? && Finite(ring)[a] == Point(ring[at[a]].x, ring[at[a]].y))
    && (forall i: nat :: i < |ring| && ring[i].At? ==> i in at)
  }

  /** They are all there, in order. */
  lemma {:induction false} FiniteSurvive(ring: seq<Row>) returns (at: seq<nat>)
    ensures Survive(ring, at)
  {
    at := [];
    if ring != [] {
      var n := |ring| - 1;
      var short := FiniteSurvive(ring[..n]);
      at := short + if ring[n].At? then [n] else [];
      forall i: nat | i < |ring| && ring[i].At? ensures i in at {
        if i < n {
          assert ring[..n][i].At?;
        } else {
          assert at[|short|] == n;
        }
      }
    }
  }

  /** Three positions that did not fail, the last on the left of the way from the first to the second. */
  predicate TurnsLeft(p: Row, q: Row, r: Row) {
    p.At? && q.At? && r.At? && (q.x - p.x) * (r.y - p.y) > (q.y - p.y) * (r.x - p.x)
  }

  predicate TurnsRight(p: Row, q: Row, r: Row) {
    p.At? && q.At? && r.At? && (q.x - p.x) * (r.y - p.y) < (q.y - p.y) * (r.x - p.x)
  }

  ghost predicate SomewhereLeft(ring: seq<Row>) {
    exists i, j, k :: 0 <= i < j < k < |ring| && TurnsLeft(ring[i], ring[j], ring[k])
  }

  ghost predicate SomewhereRight(ring: seq<Row>) {
    exists i, j, k :: 0 <= i < j < k < |ring| && TurnsRight(ring[i], ring[j], ring[k])
  }

  /** Of the positions that did not fail, some three in turn go left, and none go right: convex, anticlockwise. */
  ghost predicate LeftThroughout(ring: seq<Row>) {
    SomewhereLeft(ring) && !SomewhereRight(ring)
  }

  /** Convex, clockwise. */
  ghost predicate RightThroughout(ring: seq<Row>) {
    SomewhereRight(ring) && !SomewhereLeft(ring)
  }

  /** Three positions did not fail. */
  ghost predicate ThreeRemain(ring: seq<Row>) {
    exists i, j, k :: 0 <= i < j < k < |ring| && ring[i].At? && ring[j].At? && ring[k].At?
  }

  lemma LeftOfRows(p: Row, q: Row, r: Row)
    requires p.At? && q.At? && r.At?
    ensures TurnsLeft(p, q, r) <==> Left(Point(p.x, p.y), Point(q.x, q.y), Point(r.x, r.y)) > 0.0
    ensures TurnsRight(p, q, r) <==> Left(Point(p.x, p.y), Point(q.x, q.y), Point(r.x, r.y)) < 0.0
  {}

  lemma LeftIsPositive(ring: seq<Row>)
    requires LeftThroughout(ring)
    ensures |Finite(ring)| >= 3 && Area(Finite(ring)) > 0.0
  {
    var i: nat, j: nat, k: nat :| i < j < k < |ring| && TurnsLeft(ring[i], ring[j], ring[k]);
    LeftOfRows(ring[i], ring[j], ring[k]);
    var at := FiniteSurvive(ring);
    var a := Survivor(ring, at, i);
    var b := Survivor(ring, at, j);
    var c := Survivor(ring, at, k);
    SurvivorsInOrder(ring, at, a, b);
    SurvivorsInOrder(ring, at, b, c);
    SurvivorsAreConvex(ring, at);
    hide *;
    ConvexTurnsLeft(Finite(ring), a, b, c);
  }

  lemma ThreeFiniteRemain(ring: seq<Row>)
    requires |Finite(ring)| >= 3
    ensures ThreeRemain(ring)
  {
    var at := FiniteSurvive(ring);
    hide Finite;
    assert at[0] < at[1] < at[2] && ring[at[0]].At? && ring[at[1]].At? && ring[at[2]].At?;
  }

  lemma Survivor(ring: seq<Row>, at: seq<nat>, i: nat) returns (a: nat)
    requires Survive(ring, at) && i < |ring| && ring[i].At?
    ensures a < |at| == |Finite(ring)| && at[a] == i && Finite(ring)[a] == Point(ring[i].x, ring[i].y)
  {
    hide Finite;
    a :| a < |at| && at[a] == i;
  }

  lemma SurvivorsInOrder(ring: seq<Row>, at: seq<nat>, a: nat, b: nat)
    requires Survive(ring, at) && a < |at| && b < |at| && at[a] < at[b]
    ensures a < b
  {}

  lemma SurvivorsAreConvex(ring: seq<Row>, at: seq<nat>)
    requires Survive(ring, at) && !SomewhereRight(ring)
    ensures Convex(Finite(ring))
  {
    hide Finite, Left, TurnsRight;
    forall a, b, c | 0 <= a < b < c < |at| ensures Left(Finite(ring)[a], Finite(ring)[b], Finite(ring)[c]) >= 0.0 {
      assert !TurnsRight(ring[at[a]], ring[at[b]], ring[at[c]]);
      LeftOfRows(ring[at[a]], ring[at[b]], ring[at[c]]);
    }
  }

  lemma TurnedRound(p: Row, q: Row, r: Row)
    ensures TurnsLeft(p, q, r) <==> TurnsRight(r, q, p)
  {}

  lemma RightReversed(ring: seq<Row>)
    requires SomewhereRight(ring)
    ensures SomewhereLeft(Reversed(ring))
  {
    hide TurnsLeft, TurnsRight, Reversed;
    var i: nat, j: nat, k: nat :| i < j < k < |ring| && TurnsRight(ring[i], ring[j], ring[k]);
    BackwardTurn(ring, i, j, k);
  }

  lemma BackwardTurn(ring: seq<Row>, i: nat, j: nat, k: nat)
    requires i < j < k < |ring|
    ensures TurnsRight(ring[i], ring[j], ring[k]) ==> SomewhereLeft(Reversed(ring))
  {
    TurnedRound(ring[k], ring[j], ring[i]);
    hide TurnsLeft, TurnsRight;
    var back, n := Reversed(ring), |ring| - 1;
    assert back[n - k] == ring[k] && back[n - j] == ring[j] && back[n - i] == ring[i];
  }

  lemma RightIsNegative(ring: seq<Row>)
    requires RightThroughout(ring)
    ensures |Finite(ring)| >= 3 && Area(Finite(ring)) < 0.0
  {
    RightReversed(ring);
    ReversedTwice(ring);
    if SomewhereRight(Reversed(ring)) {
      RightReversed(Reversed(ring));
    }
    FiniteReversed(ring);
    AreaReversed(Finite(ring));
    hide Finite, Area, SomewhereLeft, SomewhereRight, Reversed;
    LeftIsPositive(Reversed(ring));
    assert |Finite(Reversed(ring))| == |Finite(ring)|;
  }

  // ----- one ring

  /** A ring with at least three positions and an area ends up wound as asked. */
  lemma TurnedAsAsked(ring: seq<Row>, positive: bool)
    requires |Finite(ring)| >= 3 && Area(Finite(ring)) != 0.0
    ensures Area(Finite(Turned(ring, positive))) != 0.0
    ensures (Area(Finite(Turned(ring, positive))) > 0.0) == positive
  {
    FiniteReversed(ring);
    AreaReversed(Finite(ring));
  }

  /** Winding a second time changes nothing, but for a ring that encloses nothing: asked to be
      positive it is turned every time, which shows unless it reads the same both ways. */
  lemma TurnedAgain(ring: seq<Row>, positive: bool)
    ensures Turned(Turned(ring, positive), positive) == Turned(ring, positive)
            <==> !(positive && |Finite(ring)| >= 3 && Area(Finite(ring)) == 0.0 && Reversed(ring) != ring)
  {
    FiniteReversed(ring);
    AreaReversed(Finite(ring));
    ReversedTwice(ring);
    hide Finite, Area, Reversed;
    var area, back := Area(Finite(ring)), Area(Finite(Reversed(ring)));
    assert back == -area && |Finite(Reversed(ring))| == |Finite(ring)|;
  }

  lemma ReversedTwice<T>(s: seq<T>)
    ensures Reversed(Reversed(s)) == s
  {}

  // ----- the flattened arrays

  ghost predicate Disjoint(rows: seq<Row>, starts: seq<nat>, sizes: seq<nat>) {
    && |starts| == |sizes|
    && (forall i :: 0 <= i < |starts| ==> starts[i] + sizes[i] <= |rows|)
    && (forall i, j :: 0 <= i < j < |starts| ==> starts[i] + sizes[i] <= starts[j])
  }

  /** Flattened position q is the offset[q]-th of ring[q], and row at[q]. */
  ghost predicate Laid(starts: seq<nat>, sizes: seq<nat>, ring: seq<nat>, offset: seq<nat>, at: seq<nat>) {
    && |starts| == |sizes| && |ring| == |offset| == |at| == Sum(sizes, |sizes|)
    && forall q: nat :: q < |ring| ==>
         Owns(sizes, ring[q], q) && offset[q] == q - Sum(sizes, ring[q]) && at[q] == starts[ring[q]] + offset[q]
  }

  method Flattened(starts: seq<nat>, sizes: seq<nat>) returns (ring: seq<nat>, offset: seq<nat>, at: seq<nat>)
    requires |starts| == |sizes|
    ensures Laid(starts, sizes, ring, offset, at)
  {
    var items: seq<nat> := seq(|starts|, i requires 0 <= i => i);
    ring := Repeated(items, sizes);
    var sums := Cumulated(sizes);
    var before: seq<nat> := seq(|sizes|, i requires 0 <= i < |sizes| => sums[i] - sizes[i]);
    var shift := Repeated(before, sizes);
    forall q: nat | q < |ring| ensures Owns(sizes, ring[q], q) && shift[q] == Sum(sizes, ring[q]) {
      var i := RunOwner(sizes, |sizes|, q);
    }
    offset := seq(|ring|, q requires 0 <= q < |ring| => q - shift[q]);
    at := seq(|ring|, q requires 0 <= q < |ring| => starts[ring[q]] + offset[q]);
  }

  /** How many of ring i's positions are among the first q. */
  function Done(sizes: seq<nat>, i: nat, q: nat): (d: nat)
    requires i < |sizes|
    ensures d <= sizes[i]
  {
    if q <= Sum(sizes, i) then 0 else if q >= Sum(sizes, i) + sizes[i] then sizes[i] else q - Sum(sizes, i)
  }

  /** Those of the first n kept positions that are on ring i. */
  function On(kept: seq<Point>, owner: seq<nat>, i: nat, n: nat): seq<Point>
    requires n <= |kept| == |owner|
  {
    if n == 0 then [] else On(kept, owner, i, n - 1) + if owner[n - 1] == i then [kept[n - 1]] else []
  }

  lemma {:induction false} OnExtended(kept: seq<Point>, owner: seq<nat>, i: nat, n: nat, p: Point, o: nat)
    requires n <= |kept| == |owner|
    ensures On(kept + [p], owner + [o], i, n) == On(kept, owner, i, n)
  {
    if n > 0 {
      OnExtended(kept, owner, i, n - 1, p, o);
    }
  }

  ghost predicate Ascending(owner: seq<nat>) {
    forall a, b :: 0 <= a <= b < |owner| ==> owner[a] <= owner[b]
  }

  /** The kept positions are each ring's finite ones, ring by ring. */
  ghost predicate Sifted(rows: seq<Row>, starts: seq<nat>, sizes: seq<nat>, kept: seq<Point>, owner: seq<nat>, q: nat) {
    && Disjoint(rows, starts, sizes) && |kept| == |owner| && Ascending(owner)
    && (forall a :: 0 <= a < |owner| ==> owner[a] < |sizes|)
    && (forall i: nat :: i < |sizes| ==> SiftedRing(rows, starts, sizes, kept, owner, i, q))
  }

  ghost predicate SiftedRing(rows: seq<Row>, starts: seq<nat>, sizes: seq<nat>, kept: seq<Point>, owner: seq<nat>,
                             i: nat, q: nat)
    requires Disjoint(rows, starts, sizes) && |kept| == |owner| && i < |sizes|
  {
    On(kept, owner, i, |kept|) == Finite(rows[starts[i]..starts[i] + Done(sizes, i, q)])
  }

  method Sift(rows: seq<Row>, starts: seq<nat>, sizes: seq<nat>, ring: seq<nat>, offset: seq<nat>, at: seq<nat>)
    returns (kept: seq<Point>, owner: seq<nat>)
    requires Disjoint(rows, starts, sizes) && Laid(starts, sizes, ring, offset, at)
    ensures Sifted(rows, starts, sizes, kept, owner, |ring|)
  {
    kept, owner := [], [];
    NothingSifted(rows, starts, sizes);
    hide Sifted, Laid;
    for q := 0 to |ring|
      invariant |ring| == |at| && Sifted(rows, starts, sizes, kept, owner, q)
      invariant forall a :: 0 <= a < |owner| && q < |ring| ==> owner[a] <= ring[q]
    {
      SiftStep(rows, starts, sizes, kept, owner, ring, offset, at, q);
      if rows[at[q]].At? {
        kept, owner := kept + [Point(rows[at[q]].x, rows[at[q]].y)], owner + [ring[q]];
      }
    }
  }

  lemma NothingSifted(rows: seq<Row>, starts: seq<nat>, sizes: seq<nat>)
    requires Disjoint(rows, starts, sizes)
    ensures Sifted(rows, starts, sizes, [], [], 0)
  {}

  /** Where a flattened position is, and that the rings come in turn. */
  lemma LaidAt(starts: seq<nat>, sizes: seq<nat>, ring: seq<nat>, offset: seq<nat>, at: seq<nat>, q: nat)
    requires Laid(starts, sizes, ring, offset, at) && q < |ring|
    ensures |ring| == |at| && ring[q] < |starts| == |sizes| && Owns(sizes, ring[q], q)
    ensures at[q] == starts[ring[q]] + q - Sum(sizes, ring[q]) && at[q] < starts[ring[q]] + sizes[ring[q]]
    ensures q + 1 < |ring| ==> ring[q] <= ring[q + 1]
  {
    assert Owns(sizes, ring[q], q);
    if q + 1 < |ring| {
      assert Owns(sizes, ring[q + 1], q + 1);
      if ring[q + 1] < ring[q] {
        SumGrows(sizes, ring[q + 1], ring[q]);
      }
    }
  }

  lemma SiftStep(rows: seq<Row>, starts: seq<nat>, sizes: seq<nat>, kept: seq<Point>, owner: seq<nat>, ring: seq<nat>,
                 offset: seq<nat>, at: seq<nat>, q: nat)
    requires Laid(starts, sizes, ring, offset, at) && q < |ring| && Sifted(rows, starts, sizes, kept, owner, q)
    requires forall a :: 0 <= a < |owner| ==> owner[a] <= ring[q]
    ensures at[q] < |rows| && (q + 1 < |ring| ==> ring[q] <= ring[q + 1])
    ensures Sifted(rows, starts, sizes, Longer(kept, rows[at[q]]), Owners(owner, rows[at[q]], ring[q]), q + 1)
  {
    LaidAt(starts, sizes, ring, offset, at, q);
    hide Laid, SiftedRing, On, Finite, Sum, Owns;
    var more, owners, next := Longer(kept, rows[at[q]]), Owners(owner, rows[at[q]], ring[q]), q + 1;
    forall i: nat | i < |sizes|
      ensures SiftedRing(rows, starts, sizes, more, owners, i, next)
    {
      SiftOne(rows, starts, sizes, kept, owner, ring[q], at[q], q, i);
    }
  }

  function Longer(kept: seq<Point>, row: Row): seq<Point> {
    if row.At? then kept + [Point(row.x, row.y)] else kept
  }

  function Owners(owner: seq<nat>, row: Row, o: nat): seq<nat> {
    if row.At? then owner + [o] else owner
  }

  lemma OnJoined(kept: seq<Point>, owner: seq<nat>, i: nat, row: Row, o: nat)
    requires |kept| == |owner|
    ensures var longer := Longer(kept, row);
      On(longer, Owners(owner, row, o), i, |longer|) == if i == o then Longer(On(kept, owner, i, |kept|), row) else
          On(kept, owner, i, |kept|)
  {
    if row.At? {
      OnExtended(kept, owner, i, |kept|, Point(row.x, row.y), o);
    }
  }

  lemma FiniteNext(rows: seq<Row>, start: nat, size: nat)
    requires start + size < |rows|
    ensures Finite(rows[start..start + size + 1]) == Longer(Finite(rows[start..start + size]), rows[start + size])
  {
    assert rows[start..start + size + 1] == rows[start..start + size] + [rows[start + size]];
    FiniteJoined(rows[start..start + size], rows[start + size]);
  }

  lemma DoneNext(sizes: seq<nat>, o: nat, i: nat, q: nat)
    requires Owns(sizes, o, q) && i < |sizes|
    ensures i == o ==> Done(sizes, i, q + 1) == Done(sizes, i, q) + 1 && Done(sizes, i, q) == q - Sum(sizes, i)
    ensures i != o ==> Done(sizes, i, q + 1) == Done(sizes, i, q)
  {
    if i != o && Owns(sizes, i, q) {
      OwnerIsUnique(sizes, i, o, q);
    }
  }

  lemma SiftOne(rows: seq<Row>, starts: seq<nat>, sizes: seq<nat>, kept: seq<Point>, owner: seq<nat>, o: nat, r: nat,
                q: nat, i: nat)
    requires Disjoint(rows, starts, sizes) && |kept| == |owner| && i < |sizes| && r < |rows|
    requires Owns(sizes, o, q) && r == starts[o] + q - Sum(sizes, o)
    requires SiftedRing(rows, starts, sizes, kept, owner, i, q)
    ensures SiftedRing(rows, starts, sizes, Longer(kept, rows[r]), Owners(owner, rows[r], o), i, q + 1)
  {
    hide On, Finite, Sum;
    OnJoined(kept, owner, i, rows[r], o);
    DoneNext(sizes, o, i, q);
    if i == o {
      FiniteNext(rows, starts[i], Done(sizes, i, q));
    }
  }

  // ----- the rings' areas, all at once

  lemma {:induction false} OnPrefix(kept: seq<Point>, owner: seq<nat>, i: nat, m: nat, n: nat)
    requires m <= n <= |kept| == |owner|
    ensures On(kept, owner, i, m) <= On(kept, owner, i, n)
    decreases n
  {
    if m < n {
      OnPrefix(kept, owner, i, m, n - 1);
    }
  }

  lemma {:induction false} OnNone(kept: seq<Point>, owner: seq<nat>, i: nat, n: nat)
    requires n <= |kept| == |owner| && forall a :: 0 <= a < n ==> owner[a] != i
    ensures On(kept, owner, i, n) == []
  {
    if n > 0 {
      OnNone(kept, owner, i, n - 1);
    }
  }

  lemma {:induction false} OnSome(kept: seq<Point>, owner: seq<nat>, i: nat, n: nat) returns (a: nat)
    requires n <= |kept| == |owner| && On(kept, owner, i, n) != []
    ensures a < n && owner[a] == i
  {
    if owner[n - 1] == i {
      a := n - 1;
    } else {
      a := OnSome(kept, owner, i, n - 1);
    }
  }

  /** Ring i's first kept position, if it has one. */
  ghost predicate FirstOn(kept: seq<Point>, owner: seq<nat>, i: nat, f: nat)
    requires |kept| == |owner|
  {
    On(kept, owner, i, |kept|) != [] ==> f < |kept| && kept[f] == On(kept, owner, i, |kept|)[0]
  }

  /** np.searchsorted: the first position on ring i or a later one. */
  method Firsts(kept: seq<Point>, owner: seq<nat>, n: nat) returns (first: seq<nat>)
    requires |kept| == |owner| && Ascending(owner)
    ensures |first| == n && AllFirst(kept, owner, first)
  {
    first := [];
    var f := 0;
    for i := 0 to n
      invariant |first| == i && f <= |owner| && forall a :: 0 <= a < f ==> owner[a] < i
      invariant AllFirst(kept, owner, first)
    {
      while f < |owner| && owner[f] < i
        invariant f <= |owner| && forall a :: 0 <= a < f ==> owner[a] < i
      {
        f := f + 1;
      }
      SearchedIsFirst(kept, owner, i, f);
      first := first + [f];
    }
  }

  lemma SearchedIsFirst(kept: seq<Point>, owner: seq<nat>, i: nat, f: nat)
    requires |kept| == |owner| && Ascending(owner) && f <= |owner|
    requires forall a :: 0 <= a < f ==> owner[a] < i
    requires f < |owner| ==> owner[f] >= i
    ensures FirstOn(kept, owner, i, f)
  {
    if On(kept, owner, i, |kept|) != [] {
      var a := OnSome(kept, owner, i, |kept|);
      OnNone(kept, owner, i, f);
      OnPrefix(kept, owner, i, f + 1, |kept|);
    }
  }

  /** The edges of ring i among the first n kept positions add up to the value. */
  ghost predicate Summed(kept: seq<Point>, owner: seq<nat>, i: nat, n: nat, value: real)
    requires n <= |kept| == |owner|
  {
    var ring := On(kept, owner, i, |kept|);
    value == if ring == [] then 0.0 else Open(ring[0], On(kept, owner, i, n))
  }

  /** What position q adds to its ring: the edge from the one before, if that is on it too. */
  function Edge(kept: seq<Point>, owner: seq<nat>, q: nat, base: Point): real
    requires q < |kept| == |owner|
  {
    if q > 0 && owner[q - 1] == owner[q] then Cross(Less(kept[q - 1], base), Less(kept[q], base)) else 0.0
  }

  lemma OpenNext(base: Point, line: seq<Point>, p: Point)
    ensures Open(base, line + [p]) == Open(base, line) + if line == [] then 0.0 else
      Cross(Less(line[|line| - 1], base), Less(p, base))
  {
    assert (line + [p])[..|line|] == line;
  }

  lemma SumStep(kept: seq<Point>, owner: seq<nat>, f: nat, i: nat, q: nat, value: real)
    requires q < |kept| == |owner| && Ascending(owner) && FirstOn(kept, owner, i, f)
    requires Summed(kept, owner, i, q, value)
    ensures i == owner[q] ==> f < |kept|
    ensures Summed(kept, owner, i, q + 1, if i == owner[q] then value + Edge(kept, owner, q, kept[f]) else value)
  {
    if i == owner[q] {
      var before := On(kept, owner, i, q);
      assert On(kept, owner, i, q + 1) == before + [kept[q]];
      OnPrefix(kept, owner, i, q + 1, |kept|);
      assert kept[f] == On(kept, owner, i, |kept|)[0];
      OpenNext(kept[f], before, kept[q]);
      if q > 0 && owner[q - 1] == i {
        assert before == On(kept, owner, i, q - 1) + [kept[q - 1]];
        assert before[|before| - 1] == kept[q - 1];
      } else {
        assert forall a :: 0 <= a < q ==> owner[a] <= owner[q - 1] <= owner[q];
        OnNone(kept, owner, i, q);
      }
    } else {
      assert On(kept, owner, i, q + 1) == On(kept, owner, i, q);
    }
  }

  ghost predicate AllFirst(kept: seq<Point>, owner: seq<nat>, first: seq<nat>)
    requires |kept| == |owner|
  {
    forall i: nat :: i < |first| ==> FirstOn(kept, owner, i, first[i])
  }

  ghost predicate AllSummed(kept: seq<Point>, owner: seq<nat>, n: nat, forward: seq<real>, backward: seq<real>)
    requires n <= |kept| == |owner| && |forward| == |backward|
  {
    forall i: nat :: i < |forward| ==> Summed(kept, owner, i, n, forward[i] - backward[i])
  }

  /** Both products of the edge that ends at position q, if one does, added to its ring's. */
  method EdgeAdded(kept: seq<Point>, owner: seq<nat>, first: seq<nat>, q: nat, forward: seq<real>, backward: seq<real>)
    returns (f: seq<real>, b: seq<real>)
    requires q < |kept| == |owner| && Ascending(owner) && owner[q] < |first| && AllFirst(kept, owner, first)
    requires |forward| == |backward| == |first| && AllSummed(kept, owner, q, forward, backward)
    ensures |f| == |b| == |first| && AllSummed(kept, owner, q + 1, f, b)
  {
    hide Summed, On, Open, FirstOn, Ascending;
    var o := owner[q];
    SumStep(kept, owner, first[o], o, q, forward[o] - backward[o]);
    f, b := forward, backward;
    if q > 0 && owner[q - 1] == o {
      var p, r := Less(kept[q - 1], kept[first[o]]), Less(kept[q], kept[first[o]]);
      f, b := forward[o := forward[o] + p.x * r.y], backward[o := backward[o] + r.x * p.y];
      assert f[o] - b[o] == forward[o] - backward[o] + Cross(p, r);
    }
    forall i: nat | i < |first| ensures Summed(kept, owner, i, q + 1, f[i] - b[i]) {
      if i != o {
        SumStep(kept, owner, first[i], i, q, forward[i] - backward[i]);
      }
    }
  }

  /** np.bincount of the edges' two products, each edge counted for the ring it is on. */
  method Areas(kept: seq<Point>, owner: seq<nat>, first: seq<nat>) returns (area: seq<real>)
    requires |kept| == |owner| && Ascending(owner) && AllFirst(kept, owner, first)
    requires forall a :: 0 <= a < |owner| ==> owner[a] < |first|
    ensures |area| == |first| && forall i: nat :: i < |first| ==> area[i] == Area(On(kept, owner, i, |kept|))
  {
    var forward, backward := seq(|first|, _ => 0.0), seq(|first|, _ => 0.0);
    for q := 0 to |kept|
      invariant |forward| == |backward| == |first| && AllSummed(kept, owner, q, forward, backward)
    {
      forward, backward := EdgeAdded(kept, owner, first, q, forward, backward);
    }
    area := seq(|first|, i requires 0 <= i < |first| => forward[i] - backward[i]);
    forall i: nat | i < |first| ensures area[i] == Area(On(kept, owner, i, |kept|)) {
      assert Summed(kept, owner, i, |kept|, forward[i] - backward[i]);
      if On(kept, owner, i, |kept|) != [] {
        LocalIsClosed(On(kept, owner, i, |kept|));
      }
    }
  }

  method Counts(kept: seq<Point>, owner: seq<nat>, n: nat) returns (counts: seq<nat>)
    requires |kept| == |owner| && (forall a :: 0 <= a < |owner| ==> owner[a] < n)
    ensures |counts| == n && forall i: nat :: i < n ==> counts[i] == |On(kept, owner, i, |kept|)|
  {
    counts := seq(n, _ => 0);
    for q := 0 to |kept|
      invariant |counts| == n && forall i: nat :: i < n ==> counts[i] == |On(kept, owner, i, q)|
    {
      counts := counts[owner[q] := counts[owner[q]] + 1];
    }
  }

  // ----- _wound

  /** Row r is on none of the rings. */
  ghost predicate Outside(starts: seq<nat>, sizes: seq<nat>, r: nat)
    requires |starts| == |sizes|
  {
    forall i :: 0 <= i < |starts| ==> !(starts[i] <= r < starts[i] + sizes[i])
  }

  /** Each ring is as it was or exactly reversed, as its own winding asks, and nothing else moves. */
  ghost predicate IsWound(rows: seq<Row>, starts: seq<nat>, sizes: seq<nat>, shells: seq<bool>, ccw: bool,
                          out: seq<Row>) {
    && Disjoint(rows, starts, sizes) && |shells| == |starts| && |out| == |rows|
    && (forall i: nat :: i < |starts| ==> WoundRing(rows, starts[i], sizes[i], shells[i] == ccw, out))
    && (forall r: nat :: r < |rows| && Outside(starts, sizes, r) ==> out[r] == rows[r])
  }

  ghost predicate WoundRing(rows: seq<Row>, start: nat, size: nat, positive: bool, out: seq<Row>)
    requires start + size <= |rows| == |out|
  {
    out[start..start + size] == Turned(rows[start..start + size], positive)
  }

  /** Where the row of flattened position q comes from. */
  function From(start: nat, size: nat, flip: bool, k: nat): nat
    requires k < size
  {
    start + if flip then size - 1 - k else k
  }

  ghost predicate Moved(rows: seq<Row>, starts: seq<nat>, sizes: seq<nat>, flip: seq<bool>, ring: seq<nat>,
                        offset: seq<nat>, at: seq<nat>, out: seq<Row>, n: nat)
    requires Disjoint(rows, starts, sizes) && Laid(starts, sizes, ring, offset, at) && |flip| == |starts| && n <= |ring|
  {
    && |out| == |rows|
    && (forall p: nat :: p < |ring| ==>
        at[p] < |rows| && out[at[p]] ==
            rows[if p < n then From(starts[ring[p]], sizes[ring[p]], flip[ring[p]], offset[p]) else at[p]])
    && (forall r: nat :: r < |rows| && Outside(starts, sizes, r) ==> out[r] == rows[r])
  }

  lemma Apart(rows: seq<Row>, starts: seq<nat>, sizes: seq<nat>, ring: seq<nat>, offset: seq<nat>, at: seq<nat>)
    requires Disjoint(rows, starts, sizes) && Laid(starts, sizes, ring, offset, at)
    ensures forall p: nat :: p < |ring| ==>
      starts[ring[p]] <= at[p] < starts[ring[p]] + sizes[ring[p]] && at[p] < |rows|
    ensures forall p, q :: 0 <= p < |ring| && 0 <= q < |ring| && p != q ==> at[p] != at[q]
  {
    forall p: nat | p < |ring| ensures starts[ring[p]] <= at[p] < starts[ring[p]] + sizes[ring[p]] {
      assert Owns(sizes, ring[p], p);
    }
  }

  /** out[at[turned]] = rows[start + size - 1 - offset]. */
  method Scatter(rows: seq<Row>, starts: seq<nat>, sizes: seq<nat>, flip: seq<bool>, ring: seq<nat>, offset: seq<nat>,
                 at: seq<nat>) returns (out: seq<Row>)
    requires Disjoint(rows, starts, sizes) && Laid(starts, sizes, ring, offset, at) && |flip| == |starts|
    ensures Moved(rows, starts, sizes, flip, ring, offset, at, out, |ring|)
  {
    out := rows;
    Apart(rows, starts, sizes, ring, offset, at);
    for q := 0 to |ring|
      invariant Moved(rows, starts, sizes, flip, ring, offset, at, out, q)
    {
      assert Owns(sizes, ring[q], q);
      if flip[ring[q]] {
        out := out[at[q] := rows[starts[ring[q]] + sizes[ring[q]] - 1 - offset[q]]];
      }
    }
  }

  lemma MovedRow(rows: seq<Row>, starts: seq<nat>, sizes: seq<nat>, flip: seq<bool>, ring: seq<nat>, offset: seq<nat>,
                 at: seq<nat>, out: seq<Row>, i: nat, k: nat)
    requires Disjoint(rows, starts, sizes) && Laid(starts, sizes, ring, offset, at) && |flip| == |starts|
    requires Moved(rows, starts, sizes, flip, ring, offset, at, out, |ring|) && i < |starts| && k < sizes[i]
    ensures out[starts[i] + k] == rows[From(starts[i], sizes[i], flip[i], k)]
  {
    var q := Sum(sizes, i) + k;
    SumGrows(sizes, i, |sizes|);
    assert Owns(sizes, i, q) && Owns(sizes, ring[q], q);
    OwnerIsUnique(sizes, i, ring[q], q);
  }

  lemma TurnedSlice(rows: seq<Row>, out: seq<Row>, start: nat, size: nat, flip: bool, positive: bool)
    requires start + size <= |rows| == |out| && flip == Flips(rows[start..start + size], positive)
    requires forall k: nat :: k < size ==> out[start + k] == rows[From(start, size, flip, k)]
    ensures WoundRing(rows, start, size, positive, out)
  {
    hide Flips, Reversed;
    var was, now := rows[start..start + size], out[start..start + size];
    if flip {
      forall k: nat | k < size ensures now[k] == Reversed(was)[k] {
        assert out[start + k] == rows[From(start, size, flip, k)];
        assert was[size - 1 - k] == rows[start + (size - 1 - k)];
      }
      assert now == Reversed(was);
    } else {
      forall k: nat | k < size ensures now[k] == was[k] {
        assert out[start + k] == rows[From(start, size, flip, k)];
      }
      assert now == was;
    }
  }

  lemma MovedRing(rows: seq<Row>, starts: seq<nat>, sizes: seq<nat>, flip: seq<bool>, ring: seq<nat>, offset: seq<nat>,
                  at: seq<nat>, out: seq<Row>, i: nat, positive: bool)
    requires Disjoint(rows, starts, sizes) && Laid(starts, sizes, ring, offset, at) && |flip| == |starts|
    requires Moved(rows, starts, sizes, flip, ring, offset, at, out, |ring|) && i < |starts|
    requires flip[i] == Flips(rows[starts[i]..starts[i] + sizes[i]], positive)
    ensures WoundRing(rows, starts[i], sizes[i], positive, out)
  {
    hide Flips, Moved, Laid, WoundRing;
    MovedOutside(rows, starts, sizes, flip, ring, offset, at, out);
    forall k: nat | k < sizes[i] ensures out[starts[i] + k] == rows[From(starts[i], sizes[i], flip[i], k)] {
      MovedRow(rows, starts, sizes, flip, ring, offset, at, out, i, k);
    }
    TurnedSlice(rows, out, starts[i], sizes[i], flip[i], positive);
  }

  ghost predicate AsItsOwn(rows: seq<Row>, starts: seq<nat>, sizes: seq<nat>, shells: seq<bool>, ccw: bool,
                           flip: seq<bool>)
    requires Disjoint(rows, starts, sizes) && |shells| == |starts| == |flip|
  {
    forall i :: 0 <= i < |starts| ==> flip[i] == Flips(rows[starts[i]..starts[i] + sizes[i]], shells[i] == ccw)
  }

  /** Which rings to turn, from the flattened sums. */
  method Decide(rows: seq<Row>, starts: seq<nat>, sizes: seq<nat>, shells: seq<bool>, ccw: bool, ring: seq<nat>,
                offset: seq<nat>, at: seq<nat>) returns (flip: seq<bool>)
    requires Disjoint(rows, starts, sizes) && |shells| == |starts| && Laid(starts, sizes, ring, offset, at)
    ensures |flip| == |starts| && AsItsOwn(rows, starts, sizes, shells, ccw, flip)
  {
    var kept, owner := Sift(rows, starts, sizes, ring, offset, at);
    hide SiftedRing, AllFirst, On, Area, Finite, Sum, Owns, Flips;
    var first := Firsts(kept, owner, |starts|);
    var area := Areas(kept, owner, first);
    var counts := Counts(kept, owner, |starts|);
    flip := seq(|starts|, i requires 0 <= i < |starts| => counts[i] >= 3 && (area[i] > 0.0) != (shells[i] == ccw));
    FlipsAreOwn(rows, starts, sizes, shells, ccw, kept, owner, area, counts, flip);
  }

  /** The rows with each polygon ring wound as asked, holes the other way. */
  method Wound(rows: seq<Row>, starts: seq<nat>, sizes: seq<nat>, shells: seq<bool>, ccw: bool) returns (out: seq<Row>)
    requires Disjoint(rows, starts, sizes) && |shells| == |starts|
    ensures IsWound(rows, starts, sizes, shells, ccw, out)
    ensures forall i: nat :: i < |starts| ==> ConvexAsAsked(rows, starts[i], sizes[i], shells[i] == ccw, out)
  {
    if |starts| == 0 {
      return rows;
    }
    var ring, offset, at := Flattened(starts, sizes);
    var flip := Decide(rows, starts, sizes, shells, ccw, ring, offset, at);
    hide *;
    LaidLength(starts, sizes, ring, offset, at);
    out := Scatter(rows, starts, sizes, flip, ring, offset, at);
    AllWound(rows, starts, sizes, shells, ccw, flip, ring, offset, at, out);
    AllConvexAsAsked(rows, starts, sizes, shells, ccw, out);
  }

  /** A convex ring comes back as it was, or read backwards where it is not wound as asked; one with fewer
      than three positions that did not fail comes back as it was. */
  ghost predicate ConvexAsAsked(rows: seq<Row>, start: nat, size: nat, anticlockwise: bool, out: seq<Row>)
    requires start + size <= |rows| == |out|
  {
    var ring := rows[start..start + size];
    && (LeftThroughout(ring) ==> AsWas(rows, start, size, !anticlockwise, out))
    && (RightThroughout(ring) ==> AsWas(rows, start, size, anticlockwise, out))
    && (!ThreeRemain(ring) ==> AsWas(rows, start, size, false, out))
  }

  ghost predicate AsWas(rows: seq<Row>, start: nat, size: nat, backwards: bool, out: seq<Row>)
    requires start + size <= |rows| == |out|
  {
    var was, now := rows[start..start + size], out[start..start + size];
    forall k :: 0 <= k < size ==> now[k] == was[if backwards then size - 1 - k else k]
  }

  lemma AllConvexAsAsked(rows: seq<Row>, starts: seq<nat>, sizes: seq<nat>, shells: seq<bool>, ccw: bool, out: seq<Row>)
    requires IsWound(rows, starts, sizes, shells, ccw, out)
    ensures forall i: nat :: i < |starts| ==> ConvexAsAsked(rows, starts[i], sizes[i], shells[i] == ccw, out)
  {
    hide ConvexAsAsked, WoundRing;
    forall i: nat | i < |starts| ensures ConvexAsAsked(rows, starts[i], sizes[i], shells[i] == ccw, out) {
      WoundIsConvexAsAsked(rows, starts[i], sizes[i], shells[i] == ccw, out);
    }
  }

  lemma WoundIsConvexAsAsked(rows: seq<Row>, start: nat, size: nat, positive: bool, out: seq<Row>)
    requires start + size <= |rows| == |out| && WoundRing(rows, start, size, positive, out)
    ensures ConvexAsAsked(rows, start, size, positive, out)
  {
    TurnedIsAsWas(rows, start, size, positive, out);
    hide LeftThroughout, RightThroughout, ThreeRemain, AsWas, WoundRing, Finite, Area;
    var ring := rows[start..start + size];
    if LeftThroughout(ring) {
      LeftIsPositive(ring);
    }
    if RightThroughout(ring) {
      RightIsNegative(ring);
    }
    if |Finite(ring)| >= 3 {
      ThreeFiniteRemain(ring);
    }
  }

  lemma TurnedIsAsWas(rows: seq<Row>, start: nat, size: nat, positive: bool, out: seq<Row>)
    requires start + size <= |rows| == |out| && WoundRing(rows, start, size, positive, out)
    ensures AsWas(rows, start, size, Flips(rows[start..start + size], positive), out)
  {
    hide Flips;
  }

  lemma LaidLength(starts: seq<nat>, sizes: seq<nat>, ring: seq<nat>, offset: seq<nat>, at: seq<nat>)
    requires Laid(starts, sizes, ring, offset, at)
    ensures |ring| == Sum(sizes, |sizes|)
  {}

  lemma AllWound(rows: seq<Row>, starts: seq<nat>, sizes: seq<nat>, shells: seq<bool>, ccw: bool, flip: seq<bool>,
                 ring: seq<nat>, offset: seq<nat>, at: seq<nat>, out: seq<Row>)
    requires Disjoint(rows, starts, sizes) && |shells| == |starts| == |flip| &&
      AsItsOwn(rows, starts, sizes, shells, ccw, flip)
    requires Laid(starts, sizes, ring, offset, at) && Moved(rows, starts, sizes, flip, ring, offset, at, out, |ring|)
    ensures IsWound(rows, starts, sizes, shells, ccw, out)
  {
    hide Flips, Moved, Laid, WoundRing;
    MovedOutside(rows, starts, sizes, flip, ring, offset, at, out);
    forall i: nat | i < |starts| ensures WoundRing(rows, starts[i], sizes[i], shells[i] == ccw, out) {
      MovedRing(rows, starts, sizes, flip, ring, offset, at, out, i, shells[i] == ccw);
    }
  }

  lemma MovedOutside(rows: seq<Row>, starts: seq<nat>, sizes: seq<nat>, flip: seq<bool>, ring: seq<nat>,
                     offset: seq<nat>, at: seq<nat>, out: seq<Row>)
    requires Disjoint(rows, starts, sizes) && Laid(starts, sizes, ring, offset, at) && |flip| == |starts|
    requires Moved(rows, starts, sizes, flip, ring, offset, at, out, |ring|)
    ensures |out| == |rows| && forall r: nat :: r < |rows| && Outside(starts, sizes, r) ==> out[r] == rows[r]
  {}

  /** The flattened sums decide for each ring as its own area does. */
  lemma FlipsAreOwn(rows: seq<Row>, starts: seq<nat>, sizes: seq<nat>, shells: seq<bool>, ccw: bool, kept: seq<Point>,
                    owner: seq<nat>, area: seq<real>, counts: seq<nat>, flip: seq<bool>)
    requires Sifted(rows, starts, sizes, kept, owner, Sum(sizes, |sizes|)) && |shells| == |starts| == |flip|
    requires |area| == |counts| == |starts|
    requires forall i: nat :: i < |starts| ==>
      area[i] == Area(On(kept, owner, i, |kept|)) && counts[i] == |On(kept, owner, i, |kept|)|
    requires forall i :: 0 <= i < |starts| ==> flip[i] == (counts[i] >= 3 && (area[i] > 0.0) != (shells[i] == ccw))
    ensures forall i :: 0 <= i < |starts| ==> flip[i] == Flips(rows[starts[i]..starts[i] + sizes[i]], shells[i] == ccw)
  {
    hide Area, Finite, On;
    forall i: nat | i < |starts| ensures flip[i] == Flips(rows[starts[i]..starts[i] + sizes[i]], shells[i] == ccw) {
      SumGrows(sizes, i, |sizes|);
      assert SiftedRing(rows, starts, sizes, kept, owner, i, Sum(sizes, |sizes|));
      assert Done(sizes, i, Sum(sizes, |sizes|)) == sizes[i];
    }
  }

  // ----- the whole document

  /** Every ring with at least three positions and an area ends up wound as asked: shells one way,
      holes the other. */
  lemma EveryRingAsAsked(rows: seq<Row>, starts: seq<nat>, sizes: seq<nat>, shells: seq<bool>, ccw: bool, out: seq<Row>,
                         i: nat)
    requires IsWound(rows, starts, sizes, shells, ccw, out) && i < |starts|
    requires var ring := rows[starts[i]..starts[i] + sizes[i]]; |Finite(ring)| >= 3 && Area(Finite(ring)) != 0.0
    ensures var area := Area(Finite(out[starts[i]..starts[i] + sizes[i]]));
      area != 0.0 && ((area > 0.0) <==> (shells[i] == ccw))
  {
    assert WoundRing(rows, starts[i], sizes[i], shells[i] == ccw, out);
    TurnedAsAsked(rows[starts[i]..starts[i] + sizes[i]], shells[i] == ccw);
  }

  /** Ring i would be turned every time: it encloses nothing, is asked to be positive, and shows it. */
  ghost predicate Restless(rows: seq<Row>, starts: seq<nat>, sizes: seq<nat>, shells: seq<bool>, ccw: bool, i: nat)
    requires Disjoint(rows, starts, sizes) && |shells| == |starts| && i < |starts|
  {
    var ring := rows[starts[i]..starts[i] + sizes[i]];
    shells[i] == ccw && |Finite(ring)| >= 3 && Area(Finite(ring)) == 0.0 && Reversed(ring) != ring
  }

  /** Winding again changes nothing, unless some ring encloses nothing. */
  lemma WoundAgain(rows: seq<Row>, starts: seq<nat>, sizes: seq<nat>, shells: seq<bool>, ccw: bool, once: seq<Row>,
                   twice: seq<Row>)
    requires IsWound(rows, starts, sizes, shells, ccw, once) && IsWound(once, starts, sizes, shells, ccw, twice)
    ensures twice == once <==> forall i: nat :: i < |starts| ==> !Restless(rows, starts, sizes, shells, ccw, i)
  {
    forall i: nat | i < |starts|
      ensures Restless(rows, starts, sizes, shells, ccw, i) <==>
        twice[starts[i]..starts[i] + sizes[i]] != once[starts[i]..starts[i] + sizes[i]]
    {
      assert WoundRing(rows, starts[i], sizes[i], shells[i] == ccw, once);
      assert WoundRing(once, starts[i], sizes[i], shells[i] == ccw, twice);
      TurnedAgain(rows[starts[i]..starts[i] + sizes[i]], shells[i] == ccw);
    }
    if forall i: nat :: i < |starts| ==> !Restless(rows, starts, sizes, shells, ccw, i) {
      forall r: nat | r < |rows| ensures twice[r] == once[r] {
        if i: nat :| i < |starts| && starts[i] <= r < starts[i] + sizes[i] {
          assert !Restless(rows, starts, sizes, shells, ccw, i);
          assert twice[r] == twice[starts[i]..starts[i] + sizes[i]][r - starts[i]];
          assert once[r] == once[starts[i]..starts[i] + sizes[i]][r - starts[i]];
        } else {
          assert Outside(starts, sizes, r);
        }
      }
    }
  }

  /** Three positions on a line, closed. */
  const FLAT := [At(0.0, 0.0, []), At(1.0, 0.0, []), At(2.0, 0.0, []), At(0.0, 0.0, [])]

  lemma FlatRing()
    ensures |FLAT| == 4 && |Finite(FLAT)| == 4 && Area(Finite(FLAT)) == 0.0 && Reversed(FLAT) != FLAT
  {
    FlatFinite(FLAT);
    FlatArea(Finite(FLAT));
    hide Finite, Area;
    assert Reversed(FLAT)[1] == FLAT[2] != FLAT[1];
  }

  /** Asked to be positive it is turned, and turned back. */
  lemma SomeRingIsRestless()
    ensures |FLAT| == 4 && Restless(FLAT, [0], [4], [true], true, 0)
    ensures Turned(Turned(FLAT, true), true) != Turned(FLAT, true)
  {
    FlatRing();
    TurnedAgain(FLAT, true);
    hide FLAT, Finite, Area, Reversed, Turned;
    assert FLAT[0..4] == FLAT;
  }

  lemma {:induction false} FlatFinite(ring: seq<Row>)
    requires forall i :: 0 <= i < |ring| ==> ring[i].At? && ring[i].y == 0.0
    ensures |Finite(ring)| == |ring| && forall i :: 0 <= i < |ring| ==> Finite(ring)[i].y == 0.0
  {
    if ring != [] {
      FlatFinite(ring[..|ring| - 1]);
    }
  }

  /** Positions on one parallel enclose nothing. */
  lemma {:induction false} FlatArea(line: seq<Point>)
    requires forall i :: 0 <= i < |line| ==> line[i].y == 0.0
    ensures Open(ORIGIN, line) == 0.0 && Area(line) == 0.0
  {
    if |line| > 1 {
      FlatArea(line[..|line| - 1]);
    }
  }
}
