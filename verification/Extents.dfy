module Extents {
  // Bounding boxes across the antimeridian (geodetic_engine/geojson/_convert.py).
  //
  // Longitudes lie on a circle cut at half a turn east and west of the prime meridian. A box
  // either stays between two longitudes or, its west bound east of its east one, runs across
  // that cut (section 5.2 of RFC 7946).

  import opened Arrays
  import opened Options

  /** A part's least and greatest longitude. */
  datatype Span = Span(low: real, high: real)

  datatype Box = Plain(west: real, east: real) | Crossing(west: real, east: real)

  ghost predicate IsBox(b: Box, half: real) {
    if b.Plain? then -half <= b.west <= b.east <= half else -half <= b.east < b.west <= half
  }

  predicate Covers(b: Box, x: real) {
    if b.Plain? then b.west <= x <= b.east else x >= b.west || x <= b.east
  }

  function Width(b: Box, half: real): real {
    if b.Plain? then b.east - b.west else 2.0 * half - (b.west - b.east)
  }

  ghost predicate Contains(b: Box, s: Span) {
    forall x: real :: s.low <= x <= s.high ==> Covers(b, x)
  }

  ghost predicate ContainsAll(b: Box, spans: seq<Span>) {
    forall s :: s in spans ==> Contains(b, s)
  }

  ghost predicate Spans(spans: seq<Span>) {
    forall s :: s in spans ==> s.low <= s.high
  }

  ghost predicate Bounded(spans: seq<Span>, half: real) {
    forall s :: s in spans ==> -half <= s.low && s.high <= half
  }

  /** A box across the cut contains a span just when the span lies on one side of its gap. */
  lemma CrossingContains(west: real, east: real, s: Span)
    requires s.low <= s.high && east < west
    ensures Contains(Crossing(west, east), s) <==> s.high <= east || s.low >= west
  {
    var box := Crossing(west, east);
    if s.high > east && s.low < west {
      var middle := (east + west) / 2.0;
      var x := if s.low > east then s.low else if s.high < middle then s.high else middle;
      assert !Covers(box, x);
    }
  }

  lemma PlainContains(west: real, east: real, s: Span)
    requires s.low <= s.high
    ensures Contains(Plain(west, east), s) <==> west <= s.low && s.high <= east
  {
    assert Contains(Plain(west, east), s) ==> Covers(Plain(west, east), s.low) && Covers(Plain(west, east), s.high);
  }

  // ----- sorting, running maxima and the widest gap

  ghost predicate Sorted(spans: seq<Span>) {
    forall i, j :: 0 <= i <= j < |spans| ==> spans[i].low <= spans[j].low
  }

  method Insert(sorted: seq<Span>, span: Span) returns (r: seq<Span>)
    requires Sorted(sorted)
    ensures Sorted(r) && multiset(r) == multiset(sorted) + multiset{span}
  {
    var at := |sorted|;
    while at > 0 && sorted[at - 1].low > span.low
      invariant 0 <= at <= |sorted|
      invariant at < |sorted| ==> sorted[at].low > span.low
    {
      at := at - 1;
    }
    Spliced(sorted, at, span);
    r := sorted[..at] + ([span] + sorted[at..]);
  }

  lemma Spliced(sorted: seq<Span>, at: nat, span: Span)
    requires Sorted(sorted) && at <= |sorted|
    requires at > 0 ==> sorted[at - 1].low <= span.low
    requires at < |sorted| ==> span.low <= sorted[at].low
    ensures var r := sorted[..at] + ([span] + sorted[at..]);
      Sorted(r) && multiset(r) == multiset(sorted) + multiset{span}
  {
    hide Sorted;
    var r := sorted[..at] + ([span] + sorted[at..]);
    SplicedSorted(sorted, at, span, r);
    SplicedElements(sorted[..at], span, sorted[at..]);
    assert sorted == sorted[..at] + sorted[at..];
  }

  lemma SplicedElements(front: seq<Span>, span: Span, back: seq<Span>)
    ensures multiset(front + ([span] + back)) == multiset(front + back) + multiset{span}
  {}

  lemma SplicedSorted(sorted: seq<Span>, at: nat, span: Span, r: seq<Span>)
    requires Sorted(sorted) && at <= |sorted| && |r| == |sorted| + 1
    requires at > 0 ==> sorted[at - 1].low <= span.low
    requires at < |sorted| ==> span.low <= sorted[at].low
    requires (forall i :: 0 <= i < at ==> r[i] == sorted[i]) && r[at] == span
    requires forall i :: at < i < |r| ==> r[i] == sorted[i - 1]
    ensures Sorted(r)
  {
    forall i, j | 0 <= i <= j < |r| ensures r[i].low <= r[j].low {
      if i < at <= j {
        assert sorted[i].low <= sorted[at - 1].low;
      }
      if i <= at < j {
        assert sorted[at].low <= sorted[j - 1].low;
      }
    }
  }

  /** The spans in order of their lows: np.argsort, stable. */
  method InOrder(spans: seq<Span>) returns (sorted: seq<Span>)
    ensures Sorted(sorted) && multiset(sorted) == multiset(spans)
  {
    sorted := [];
    for n := 0 to |spans|
      invariant Sorted(sorted) && multiset(sorted) == multiset(spans[..n])
    {
      assert spans[..n + 1] == spans[..n] + [spans[n]];
      sorted := Insert(sorted, spans[n]);
    }
    assert spans[..|spans|] == spans;
  }

  /** The greatest high of the first n spans. */
  function Reach(spans: seq<Span>, n: nat): (r: real)
    requires 0 < n <= |spans|
    ensures forall i :: 0 <= i < n ==> spans[i].high <= r
    ensures exists i :: 0 <= i < n && spans[i].high == r
  {
    if n == 1 then spans[0].high else
      var before := Reach(spans, n - 1);
      if spans[n - 1].high > before then spans[n - 1].high else before
  }

  ghost predicate IsReach(spans: seq<Span>, reach: seq<real>) {
    |reach| == |spans| && forall i :: 0 <= i < |spans| ==> reach[i] == Reach(spans, i + 1)
  }

  /** np.maximum.accumulate. */
  method Reaches(spans: seq<Span>) returns (reach: seq<real>)
    ensures IsReach(spans, reach)
  {
    reach := [];
    for i := 0 to |spans|
      invariant |reach| == i && forall j :: 0 <= j < i ==> reach[j] == Reach(spans, j + 1)
    {
      reach := reach + [if i > 0 && reach[i - 1] >= spans[i].high then reach[i - 1] else spans[i].high];
    }
  }

  function Gap(spans: seq<Span>, k: nat): real
    requires k + 1 < |spans|
  {
    spans[k + 1].low - Reach(spans, k + 1)
  }

  ghost predicate IsWidest(spans: seq<Span>, at: nat) {
    at + 1 < |spans| && forall k: nat :: k + 1 < |spans| ==> Gap(spans, k) <= Gap(spans, at)
  }

  /** np.argmax of the gaps: the first of the widest. */
  method Widest(spans: seq<Span>, reach: seq<real>) returns (at: nat)
    requires |spans| >= 2 && IsReach(spans, reach)
    ensures IsWidest(spans, at) && forall k: nat :: k < at ==> Gap(spans, k) < Gap(spans, at)
  {
    at := 0;
    for k := 1 to |spans| - 1
      invariant at < k && at + 1 < |spans|
      invariant forall j: nat :: j < k ==> Gap(spans, j) <= Gap(spans, at)
      invariant forall j: nat :: j < at ==> Gap(spans, j) < Gap(spans, at)
    {
      if spans[k + 1].low - reach[k] > spans[at + 1].low - reach[at] {
        at := k;
      }
    }
  }

  // ----- every box across the cut is as wide as a gap between parts leaves it

  /** Where a box across the cut that contains every span has its gap: before all of them, after
      all of them, or within one of the gaps between them. */
  lemma {:induction false} GapFits(spans: seq<Span>, half: real, west: real, east: real, n: nat)
    requires Spans(spans) && Sorted(spans) && 0 < n <= |spans|
    requires IsBox(Crossing(west, east), half) && ContainsAll(Crossing(west, east), spans)
    ensures west <= spans[0].low || Reach(spans, n) <= east
            || exists k: nat :: k + 1 < n && west - east <= Gap(spans, k)
    decreases n
  {
    CrossingContains(west, east, spans[n - 1]);
    if n > 1 {
      GapFits(spans, half, west, east, n - 1);
      if Reach(spans, n - 1) <= east && spans[n - 1].high > east {
        assert west - east <= Gap(spans, n - 2);
      }
    }
  }

  /** A box across the cut is no narrower than the widest gap between the parts, or than the box
      between the least and greatest longitude. */
  lemma NoNarrower(spans: seq<Span>, half: real, at: nat, box: Box)
    requires Spans(spans) && Sorted(spans) && |spans| >= 2 && Bounded(spans, half)
    requires IsWidest(spans, at)
    requires box.Crossing? && IsBox(box, half) && ContainsAll(box, spans)
    ensures Width(box, half) >= 2.0 * half - Gap(spans, at)
            || Width(box, half) >= Reach(spans, |spans|) - spans[0].low
  {
    hide Sorted, ContainsAll;
    GapFits(spans, half, box.west, box.east, |spans|);
  }

  /** A box that does not cross is as wide as from any part's least longitude to any other's greatest. */
  lemma PlainIsWider(spans: seq<Span>, half: real, box: Box)
    requires Spans(spans) && box.Plain? && IsBox(box, half) && ContainsAll(box, spans)
    ensures forall s, t :: s in spans && t in spans ==> Width(box, half) >= t.high - s.low
  {
    forall s | s in spans ensures box.west <= s.low && s.high <= box.east {
      PlainContains(box.west, box.east, s);
    }
  }

  // ----- _across

  /** The box across the antimeridian is the one to write: it holds every part, nothing of the gap
      it leaves out, and no box on the circle that holds every part is narrower. */
  ghost predicate Narrowest(spans: seq<Span>, half: real, west: real, east: real) {
    && IsBox(Crossing(west, east), half)
    && ContainsAll(Crossing(west, east), spans)
    && west - east >= half
    && (exists s :: s in spans && s.low == west)
    && (exists s :: s in spans && s.high == east)
    && (forall b: Box :: IsBox(b, half) && ContainsAll(b, spans) ==>
        Width(Crossing(west, east), half) <= Width(b, half))
    && (forall b: Box :: b.Plain? && IsBox(b, half) && ContainsAll(b, spans) ==>
        Width(Crossing(west, east), half) < Width(b, half))
  }

  /** Some box that does not cross holds every part and is no wider. */
  ghost predicate PlainServes(spans: seq<Span>, half: real, box: Box) {
    exists p: Box :: p.Plain? && IsBox(p, half) && ContainsAll(p, spans) && Width(p, half) <= Width(box, half)
  }

  lemma Same(spans: seq<Span>, sorted: seq<Span>)
    requires multiset(spans) == multiset(sorted)
    ensures |spans| == |sorted| && forall s :: s in spans <==> s in sorted
  {
    assert |multiset(spans)| == |multiset(sorted)|;
    forall s ensures s in spans <==> s in sorted {
      assert s in spans <==> s in multiset(spans);
      assert s in sorted <==> s in multiset(sorted);
    }
  }

  /** The gap is left out: every part lies on one side of it. */
  lemma Chosen(spans: seq<Span>, half: real, at: nat)
    requires Spans(spans) && Sorted(spans) && |spans| >= 2 && Bounded(spans, half) && half > 0.0
    requires IsWidest(spans, at)
    requires Gap(spans, at) >= half && Gap(spans, at) > 2.0 * half - (Reach(spans, |spans|) - spans[0].low)
    ensures Narrowest(spans, half, spans[at + 1].low, Reach(spans, at + 1))
  {
    var west, east := spans[at + 1].low, Reach(spans, at + 1);
    forall s | s in spans ensures Contains(Crossing(west, east), s) {
      var i :| 0 <= i < |spans| && spans[i] == s;
      CrossingContains(west, east, s);
    }
    assert spans[at + 1] in spans && spans[0] in spans;
    forall b: Box | IsBox(b, half) && ContainsAll(b, spans)
      ensures Width(Crossing(west, east), half) <= Width(b, half)
      ensures b.Plain? ==> Width(Crossing(west, east), half) < Width(b, half)
    {
      if b.Plain? {
        PlainIsWider(spans, half, b);
      } else {
        NoNarrower(spans, half, at, b);
      }
    }
  }

  /** Otherwise the box between the least and greatest longitude serves. */
  lemma NotChosen(spans: seq<Span>, half: real, at: nat)
    requires Spans(spans) && Sorted(spans) && |spans| >= 2 && Bounded(spans, half)
    requires IsWidest(spans, at)
    requires Gap(spans, at) < half || Gap(spans, at) <= 2.0 * half - (Reach(spans, |spans|) - spans[0].low)
    ensures NoUse(spans, half)
  {
    hide PlainServes, Gap;
    forall b: Box | b.Crossing? && IsBox(b, half) && b.west - b.east >= half && ContainsAll(b, spans)
      ensures PlainServes(spans, half, b)
    {
      NoUseOf(spans, half, at, b);
    }
  }

  lemma NoUseOf(spans: seq<Span>, half: real, at: nat, b: Box)
    requires Spans(spans) && Sorted(spans) && |spans| >= 2 && Bounded(spans, half)
    requires IsWidest(spans, at)
    requires Gap(spans, at) < half || Gap(spans, at) <= 2.0 * half - (Reach(spans, |spans|) - spans[0].low)
    requires b.Crossing? && IsBox(b, half) && b.west - b.east >= half && ContainsAll(b, spans)
    ensures PlainServes(spans, half, b)
  {
    Tightest(spans, half);
    GapFits(spans, half, b.west, b.east, |spans|);
    hide ContainsAll, Contains, Spans, Sorted, Reach;
    assert spans[0] in spans && -half <= spans[0].low && Reach(spans, |spans|) <= half;
    var p := Plain(spans[0].low, Reach(spans, |spans|));
    assert Width(p, half) <= Width(b, half);
  }

  /** The box between the least and greatest longitude. */
  lemma Tightest(spans: seq<Span>, half: real)
    requires Spans(spans) && Sorted(spans) && |spans| >= 1 && Bounded(spans, half)
    ensures var p := Plain(spans[0].low, Reach(spans, |spans|)); IsBox(p, half) && ContainsAll(p, spans)
  {
    var p := Plain(spans[0].low, Reach(spans, |spans|));
    assert spans[0] in spans;
    forall s | s in spans ensures Contains(p, s) {
      PlainContains(p.west, p.east, s);
    }
  }

  lemma OneIsPlain(spans: seq<Span>, half: real)
    requires Spans(spans) && |spans| == 1 && Bounded(spans, half)
    ensures NoUse(spans, half)
  {
    Tightest(spans, half);
    forall b: Box | b.Crossing? && IsBox(b, half) && ContainsAll(b, spans) ensures PlainServes(spans, half, b) {
      GapFits(spans, half, b.west, b.east, 1);
    }
  }

  /** No box across the antimeridian is of use. */
  ghost predicate NoUse(spans: seq<Span>, half: real) {
    forall b: Box :: b.Crossing? && IsBox(b, half) && b.west - b.east >= half && ContainsAll(b, spans) ==>
        PlainServes(spans, half, b)
  }

  lemma SameUse(spans: seq<Span>, sorted: seq<Span>, half: real)
    requires NoUse(sorted, half) && forall s :: s in spans <==> s in sorted
    ensures NoUse(spans, half)
  {
    forall b: Box ensures ContainsAll(b, spans) <==> ContainsAll(b, sorted) {}
    forall b: Box | b.Crossing? && IsBox(b, half) && b.west - b.east >= half && ContainsAll(b, spans)
      ensures PlainServes(spans, half, b)
    {
      var p: Box :| p.Plain? && IsBox(p, half) && ContainsAll(p, sorted) && Width(p, half) <= Width(b, half);
      assert ContainsAll(p, spans);
    }
  }

  lemma SameNarrowest(spans: seq<Span>, sorted: seq<Span>, half: real, west: real, east: real)
    requires Narrowest(sorted, half, west, east) && forall s :: s in spans <==> s in sorted
    ensures Narrowest(spans, half, west, east)
  {
    forall b: Box ensures ContainsAll(b, spans) <==> ContainsAll(b, sorted) {}
  }

  method AcrossSorted(sorted: seq<Span>, half: real) returns (r: Option<(real, real)>)
    requires Spans(sorted) && half > 0.0 && Sorted(sorted) && |sorted| >= 2
    ensures r.Some? ==> Bounded(sorted, half) && Narrowest(sorted, half, r.value.0, r.value.1)
    ensures r.None? && Bounded(sorted, half) ==> NoUse(sorted, half)
  {
    var reach := Reaches(sorted);
    assert sorted[0] in sorted;
    if sorted[0].low < -half || reach[|reach| - 1] > half {
      return None;
    }
    assert Bounded(sorted, half);
    hide Narrowest, NoUse, Sorted, Spans, Bounded;
    var at := Widest(sorted, reach);
    var widest := sorted[at + 1].low - reach[at];
    if widest >= half && widest > 2.0 * half - (reach[|reach| - 1] - sorted[0].low) {
      Chosen(sorted, half, at);
      return Some((sorted[at + 1].low, reach[at]));
    }
    NotChosen(sorted, half, at);
    return None;
  }

  method Across(spans: seq<Span>, half: real) returns (r: Option<(real, real)>)
    requires Spans(spans) && half > 0.0
    ensures !Bounded(spans, half) ==> r.None?
    ensures r.Some? ==> Bounded(spans, half) && Narrowest(spans, half, r.value.0, r.value.1)
    ensures r.None? && Bounded(spans, half) && |spans| > 0 ==> NoUse(spans, half)
  {
    if |spans| < 2 {
      if |spans| == 1 && Bounded(spans, half) {
        OneIsPlain(spans, half);
      }
      return None;
    }
    var sorted := InOrder(spans);
    Same(spans, sorted);
    r := AcrossSorted(sorted, half);
    hide Narrowest, NoUse;
    if r.Some? {
      SameNarrowest(spans, sorted, half, r.value.0, r.value.1);
    } else if Bounded(spans, half) {
      SameUse(spans, sorted, half);
    }
  }

  // ----- _part_spans

  /** One of the parts holds the longitude: the position at q is on part i. */
  ghost predicate Holds(lon: seq<Option<real>>, sizes: seq<nat>, i: nat, x: real) {
    exists q: nat :: q < |lon| && Owns(sizes, i, q) && lon[q] == Some(x)
  }

  /** Span s is part i's: from its least finite longitude to its greatest. */
  ghost predicate IsSpanOf(lon: seq<Option<real>>, sizes: seq<nat>, i: nat, s: Span) {
    && Holds(lon, sizes, i, s.low) && Holds(lon, sizes, i, s.high)
    && forall q: nat :: q < |lon| && Owns(sizes, i, q) && lon[q].Some? ==> s.low <= lon[q].value <= s.high
  }

  /** The least and greatest finite longitude of each part that has one: None is a failed position. */
  method PartSpans(lon: seq<Option<real>>, sizes: seq<nat>) returns (spans: seq<Span>)
    requires Sum(sizes, |sizes|) == |lon|
    ensures forall s :: s in spans ==> exists i: nat :: IsSpanOf(lon, sizes, i, s)
    ensures forall i: nat, x: real :: Holds(lon, sizes, i, x) ==> exists s :: s in spans && IsSpanOf(lon, sizes, i, s)
  {
    spans := [];
    var start := 0;
    for i := 0 to |sizes|
      invariant start == Sum(sizes, i)
      invariant forall s :: s in spans ==> exists j: nat :: IsSpanOf(lon, sizes, j, s)
      invariant forall j: nat, x: real :: j < i && Holds(lon, sizes, j, x) ==>
        exists s :: s in spans && IsSpanOf(lon, sizes, j, s)
    {
      SumGrows(sizes, i, |sizes|);
      var span := Reduced(lon, start, start + sizes[i]);
      if span.Some? {
        OneSpan(lon, sizes, i, span.value);
        spans := spans + [span.value];
      }
      start := start + sizes[i];
    }
  }

  ghost predicate IsReduced(lon: seq<Option<real>>, from: nat, to: nat, s: Span) {
    && from <= to <= |lon|
    && (exists q :: from <= q < to && lon[q] == Some(s.low)) && (exists q :: from <= q < to && lon[q] == Some(s.high))
    && forall q :: from <= q < to && lon[q].Some? ==> s.low <= lon[q].value <= s.high
  }

  /** np.fmin and np.fmax over a stretch, which pass over NaN. */
  method Reduced(lon: seq<Option<real>>, from: nat, to: nat) returns (s: Option<Span>)
    requires from <= to <= |lon|
    ensures s.Some? ==> IsReduced(lon, from, to, s.value)
    ensures s.None? ==> forall q :: from <= q < to ==> lon[q].None?
  {
    s := None;
    for q := from to to
      invariant s.Some? ==> IsReduced(lon, from, q, s.value)
      invariant s.None? ==> forall p :: from <= p < q ==> lon[p].None?
    {
      if lon[q].Some? {
        var x := lon[q].value;
        s := Some(if s.None? then Span(x, x)
                  else Span(if x < s.value.low then x else s.value.low, if x > s.value.high then x else s.value.high));
      }
    }
  }

  lemma OneSpan(lon: seq<Option<real>>, sizes: seq<nat>, i: nat, s: Span)
    requires i < |sizes| && IsReduced(lon, Sum(sizes, i), Sum(sizes, i) + sizes[i], s)
    ensures IsSpanOf(lon, sizes, i, s)
  {
    var p :| Sum(sizes, i) <= p < Sum(sizes, i) + sizes[i] && lon[p] == Some(s.low);
    var q :| Sum(sizes, i) <= q < Sum(sizes, i) + sizes[i] && lon[q] == Some(s.high);
    assert Owns(sizes, i, p) && Owns(sizes, i, q);
  }

  /** A box that holds every part covers every position that did not fail. */
  lemma EveryPositionIsCovered(lon: seq<Option<real>>, sizes: seq<nat>, spans: seq<Span>, box: Box, q: nat)
    requires Sum(sizes, |sizes|) == |lon| && ContainsAll(box, spans) && q < |lon| && lon[q].Some?
    requires forall i: nat, x: real :: Holds(lon, sizes, i, x) ==> exists s :: s in spans && IsSpanOf(lon, sizes, i, s)
    ensures Covers(box, lon[q].value)
  {
    var i := RunOwner(sizes, |sizes|, q);
    assert Holds(lon, sizes, i, lon[q].value);
    var s :| s in spans && IsSpanOf(lon, sizes, i, s);
    assert Contains(box, s);
  }
}
