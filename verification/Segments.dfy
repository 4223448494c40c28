module Segments {
  // Vertices along straight segments (geodetic_engine/geodesy/_segments.py).
  //
  // The original builds the result by repeats, cumulative sums and scattered writes. It
  // equals the nested loop that emits each row and then the vertices after it.

  import opened Arrays

  /** A position: x, y and any further values. */
  datatype Row = Row(x: real, y: real, rest: seq<real>)

  function Along(p: Row, q: Row, fraction: real): Row
    requires |p.rest| == |q.rest|
  {
    Row(p.x + fraction * (q.x - p.x), p.y + fraction * (q.y - p.y),
        seq(|p.rest|, i requires 0 <= i < |p.rest| => p.rest[i] + fraction * (q.rest[i] - p.rest[i])))
  }

  /** Position v is on the straight line through p and q, in every value. */
  ghost predicate OnLine(p: Row, q: Row, v: Row) {
    && |v.rest| == |p.rest| == |q.rest|
    && (v.y - p.y) * (q.x - p.x) == (v.x - p.x) * (q.y - p.y)
    && forall i :: 0 <= i < |v.rest| ==>
         (v.rest[i] - p.rest[i]) * (q.x - p.x) == (v.x - p.x) * (q.rest[i] - p.rest[i])
  }

  lemma AlongIsOnLine(p: Row, q: Row, fraction: real)
    requires |p.rest| == |q.rest|
    ensures OnLine(p, q, Along(p, q, fraction))
  {
    var v := Along(p, q, fraction);
    OnLineValue(p.x, q.x, p.y, q.y, fraction);
    forall i | 0 <= i < |v.rest|
      ensures (v.rest[i] - p.rest[i]) * (q.x - p.x) == (v.x - p.x) * (q.rest[i] - p.rest[i])
    {
      OnLineValue(p.x, q.x, p.rest[i], q.rest[i], fraction);
    }
  }

  lemma OnLineValue(x: real, to: real, a: real, b: real, f: real)
    ensures ((a + f * (b - a)) - a) * (to - x) == ((x + f * (to - x)) - x) * (b - a)
  {}

  ghost predicate Rectangular(rows: seq<Row>) {
    forall i, j :: 0 <= i < |rows| && 0 <= j < |rows| ==> |rows[i].rest| == |rows[j].rest|
  }

  // ----- pieces

  function Ceiling(x: real): int {
    -((-x).Floor)
  }

  /** The pieces of a segment: one between parts, else the fewest no longer than the length. */
  function Pieces(segment: real, length: real, same: bool): (p: nat)
    requires length > 0.0
    ensures p >= 1 && (!same ==> p == 1)
    ensures same ==> segment <= p as real * length && (p > 1 ==> (p - 1) as real * length < segment)
  {
    if same && segment > length then
      CeilingFits(segment, length);
      Ceiling(segment / length)
    else 1
  }

  lemma CeilingFits(segment: real, length: real)
    requires segment > length > 0.0
    ensures segment / length > 1.0
    ensures var p := Ceiling(segment / length); p > 1 && (p - 1) as real * length < segment <= p as real * length
  {
    var q := segment / length;
    assert q * length == segment;
    var p := Ceiling(q);
    assert (p - 1) as real < q <= p as real;
    Grows((p - 1) as real, q, length);
    Grows(1.0, q, length);
    assert q <= p as real ==> q * length <= p as real * length;
  }

  lemma Grows(a: real, b: real, length: real)
    requires length > 0.0
    ensures a < b <==> a * length < b * length
  {}

  // ----- the nested loop

  /** Row i, or the k-th vertex after it. */
  function Vertex(rows: seq<Row>, extra: seq<nat>, i: nat, k: nat): Row
    requires Rectangular(rows) && i < |rows| && |extra| == |rows| && (k > 0 ==> i + 1 < |rows|)
  {
    if k == 0 then rows[i] else Along(rows[i], rows[i + 1], k as real / (extra[i] + 1) as real)
  }

  ghost predicate Cut(rows: seq<Row>, extra: seq<nat>) {
    && Rectangular(rows) && |extra| == |rows|
    && (rows != [] ==> extra[|rows| - 1] == 0)
  }

  /** Each of the first n rows, and after each its vertices. */
  function Emitted(rows: seq<Row>, extra: seq<nat>, n: nat): (r: seq<Row>)
    requires Cut(rows, extra) && n <= |rows|
    ensures |r| == n + Sum(extra, n)
  {
    if n == 0 then [] else
      Emitted(rows, extra, n - 1)
      + seq(extra[n - 1] + 1, k requires 0 <= k <= extra[n - 1] => Vertex(rows, extra, n - 1, k))
  }

  function At(extra: seq<nat>, i: nat): nat
    requires i <= |extra|
  {
    i + Sum(extra, i)
  }

  lemma {:induction false} EmittedAt(rows: seq<Row>, extra: seq<nat>, n: nat, i: nat, k: nat)
    requires Cut(rows, extra) && i < n <= |rows| && k <= extra[i]
    ensures At(extra, i) + k < |Emitted(rows, extra, n)|
    ensures Emitted(rows, extra, n)[At(extra, i) + k] == Vertex(rows, extra, i, k)
    decreases n
  {
    SumGrows(extra, i, n);
    if i < n - 1 {
      EmittedAt(rows, extra, n - 1, i, k);
    }
  }

  /** Every slot of the result is row i's, or the k-th after it, for one i and k. */
  lemma {:induction false} SlotOwner(extra: seq<nat>, n: nat, q: nat) returns (i: nat, k: nat)
    requires n <= |extra| && q < At(extra, n)
    ensures i < n && k <= extra[i] && q == At(extra, i) + k
  {
    if q >= At(extra, n - 1) {
      i, k := n - 1, q - At(extra, n - 1);
    } else {
      i, k := SlotOwner(extra, n - 1, q);
    }
  }

  lemma SlotIsUnique(extra: seq<nat>, i: nat, k: nat, j: nat, l: nat)
    requires i < |extra| && j < |extra| && k <= extra[i] && l <= extra[j]
    requires At(extra, i) + k == At(extra, j) + l
    ensures i == j && k == l
  {
    if i < j {
      SumGrows(extra, i, j);
    } else if j < i {
      SumGrows(extra, j, i);
    }
  }

  // ----- _inserted and _merged

  /** Vertex q is the step[q]-th after row start[q]. */
  ghost predicate Runs(extra: seq<nat>, start: seq<nat>, step: seq<nat>) {
    && |start| == |step| == Sum(extra, |extra|)
    && forall q: nat :: q < |start| ==> IsRun(extra, start[q], step[q], q)
  }

  ghost predicate IsRun(extra: seq<nat>, i: nat, k: nat, q: nat) {
    i < |extra| && 1 <= k <= extra[i] && q == Sum(extra, i) + k - 1
  }

  ghost predicate Starts(extra: seq<nat>, start: seq<nat>) {
    && |start| == Sum(extra, |extra|)
    && forall i: nat, q: nat :: Owns(extra, i, q) && q < |start| ==> start[q] == i
  }

  /** Where each inserted vertex comes in the run after its row: arange less the shifts, from 1. */
  method Ordinals(extra: seq<nat>, start: seq<nat>) returns (step: seq<nat>)
    requires Starts(extra, start)
    ensures Runs(extra, start, step)
  {
    var sums := Cumulated(extra);
    var before: seq<nat> := seq(|extra|, i requires 0 <= i < |extra| => sums[i] - extra[i]);
    var shift := Repeated(before, extra);
    forall q: nat | q < |start|
      ensures start[q] < |extra| && shift[q] == Sum(extra, start[q]) && Owns(extra, start[q], q)
    {
      var i := RunOwner(extra, |extra|, q);
    }
    step := seq(|start|, q requires 0 <= q < |start| => q - shift[q] + 1);
  }

  /** Vertex q belongs to row start[q], and is that fraction of the way to the next row. */
  method Inserted(pieces: seq<nat>) returns (start: seq<nat>, fraction: seq<real>)
    requires forall i :: 0 <= i < |pieces| ==> pieces[i] >= 1
    ensures Starts(Less(pieces), start) && |fraction| == |start|
    ensures forall i: nat, k: nat, q: nat :: IsRun(Less(pieces), i, k, q) && q < |start| ==>
      fraction[q] == k as real / pieces[i] as real
  {
    var extra := Less(pieces);
    var items: seq<nat> := seq(|pieces|, i requires 0 <= i < |pieces| => i);
    start := Repeated(items, extra);
    var step := Ordinals(extra, start);
    assert forall q: nat :: q < |start| ==> IsRun(extra, start[q], step[q], q);
    fraction := seq(|start|, q requires 0 <= q < |start| => step[q] as real / pieces[start[q]] as real);
    forall i: nat, k: nat, q: nat | IsRun(extra, i, k, q) && q < |start|
      ensures fraction[q] == k as real / pieces[i] as real
    {
      RunIsUnique(extra, start, step, i, k);
    }
  }

  function Less(pieces: seq<nat>): (extra: seq<nat>)
    requires forall i :: 0 <= i < |pieces| ==> pieces[i] >= 1
    ensures |extra| == |pieces| && forall i :: 0 <= i < |extra| ==> extra[i] + 1 == pieces[i]
  {
    seq(|pieces|, i requires 0 <= i < |pieces| => pieces[i] - 1)
  }

  /** Slot s is the k-th after row i's, or row i's own. */
  ghost predicate Slot(extra: seq<nat>, i: nat, k: nat, s: nat) {
    i < |extra| && k <= extra[i] && s == At(extra, i) + k
  }

  ghost predicate Holds(out: array<Row>, origins: array<nat>, slot: nat, row: Row, origin: nat)
    reads out, origins
  {
    slot < out.Length && slot < origins.Length && out[slot] == row && origins[slot] == origin
  }

  lemma SlotFits(extra: seq<nat>, i: nat, k: nat)
    requires i < |extra| && k <= extra[i]
    ensures At(extra, i) + k < At(extra, |extra|)
  {
    SumGrows(extra, i, |extra|);
  }

  lemma RunIsUnique(extra: seq<nat>, start: seq<nat>, step: seq<nat>, i: nat, k: nat)
    requires Runs(extra, start, step) && i < |extra| && 1 <= k <= extra[i]
    requires Sum(extra, i) + k - 1 < |start|
    ensures start[Sum(extra, i) + k - 1] == i && step[Sum(extra, i) + k - 1] == k
  {
    var q := Sum(extra, i) + k - 1;
    assert IsRun(extra, start[q], step[q], q);
    if start[q] < i {
      SumGrows(extra, start[q], i);
    } else if i < start[q] {
      SumGrows(extra, i, start[q]);
    }
  }

  /** A last row with nothing after it changes no start. */
  lemma StartsOfLonger(extra: seq<nat>, longer: seq<nat>, start: seq<nat>)
    requires Starts(extra, start) && longer == extra + [0]
    ensures Starts(longer, start)
  {
    forall n: nat | n <= |extra| ensures Sum(extra, n) == Sum(longer, n) {
      SumOfPrefix(extra, longer, n);
    }
    forall i: nat, q: nat | Owns(longer, i, q) && q < |start| ensures start[q] == i {
      assert Owns(extra, i, q);
    }
  }

  lemma SlotsFit(extra: seq<nat>)
    ensures forall i: nat, s: nat :: Slot(extra, i, 0, s) ==> s < At(extra, |extra|)
  {
    forall i: nat, s: nat | Slot(extra, i, 0, s) ensures s < At(extra, |extra|) {
      SlotFits(extra, i, 0);
    }
  }

  /** Where each row goes. */
  ghost predicate Places(extra: seq<nat>, at: seq<nat>) {
    |at| == |extra| && forall i :: 0 <= i < |at| ==> at[i] == At(extra, i)
  }

  /** out[at] = rows. */
  method PlaceRows(rows: seq<Row>, extra: seq<nat>, at: seq<nat>, out: array<Row>, origins: array<nat>)
    requires |extra| == |rows| && Places(extra, at) && out.Length == origins.Length == At(extra, |extra|)
    modifies out, origins
    ensures forall j :: 0 <= j < |rows| ==> Holds(out, origins, At(extra, j), rows[j], j)
  {
    for i := 0 to |rows|
      invariant forall j :: 0 <= j < i ==> Holds(out, origins, At(extra, j), rows[j], j)
    {
      SlotFits(extra, i, 0);
      forall j | 0 <= j < i ensures At(extra, j) != At(extra, i) {
        SumGrows(extra, j, i);
      }
      out[at[i]] := rows[i];
      origins[at[i]] := i;
    }
  }

  /** out[at[start] + step] = inserted. */
  method PlaceInserted(extra: seq<nat>, at: seq<nat>, start: seq<nat>, step: seq<nat>, inserted: seq<Row>,
                       out: array<Row>, origins: array<nat>)
    requires Runs(extra, start, step) && Places(extra, at) && |inserted| == |start|
    requires out.Length == origins.Length == At(extra, |extra|)
    modifies out, origins
    ensures forall p :: 0 <= p < |start| ==> Holds(out, origins, At(extra, start[p]) + step[p], inserted[p], start[p])
    ensures forall i: nat, s: nat :: Slot(extra, i, 0, s) ==>
      s < out.Length && out[s] == old(out[s]) && origins[s] == old(origins[s])
  {
    SlotsFit(extra);
    for q := 0 to |start|
      invariant forall p :: 0 <= p < q ==> Holds(out, origins, At(extra, start[p]) + step[p], inserted[p], start[p])
      invariant forall i: nat, s: nat :: Slot(extra, i, 0, s) ==>
        s < out.Length && out[s] == old(out[s]) && origins[s] == old(origins[s])
    {
      assert IsRun(extra, start[q], step[q], q);
      var slot := at[start[q]] + step[q];
      SlotFits(extra, start[q], step[q]);
      forall i: nat | Slot(extra, i, 0, slot) ensures false {
        SlotIsUnique(extra, start[q], step[q], i, 0);
      }
      forall p | 0 <= p < q ensures At(extra, start[p]) + step[p] != slot {
        if At(extra, start[p]) + step[p] == slot {
          SlotIsUnique(extra, start[p], step[p], start[q], step[q]);
        }
      }
      out[slot] := inserted[q];
      origins[slot] := start[q];
    }
  }

  /** Every slot holds its row or vertex, and the row it is or follows. */
  lemma EverySlot(rows: seq<Row>, extra: seq<nat>, start: seq<nat>, step: seq<nat>, inserted: seq<Row>, out: array<Row>,
                  origins: array<nat>, i: nat, k: nat)
    requires Cut(rows, extra) && Runs(extra, start, step) && |inserted| == |start|
    requires forall q :: 0 <= q < |start| ==>
      start[q] + 1 < |rows| && inserted[q] == Vertex(rows, extra, start[q], step[q])
    requires forall j :: 0 <= j < |rows| ==> Holds(out, origins, At(extra, j), rows[j], j)
    requires forall p :: 0 <= p < |start| ==> Holds(out, origins, At(extra, start[p]) + step[p], inserted[p], start[p])
    requires i < |rows| && k <= extra[i]
    ensures Holds(out, origins, At(extra, i) + k, Vertex(rows, extra, i, k), i)
  {
    if k > 0 {
      SumGrows(extra, i, |extra|);
      RunIsUnique(extra, start, step, i, k);
      var q := Sum(extra, i) + k - 1;
      assert Holds(out, origins, At(extra, start[q]) + step[q], inserted[q], start[q]);
    }
  }

  /** The rows and the inserted vertices scattered to their slots. */
  method Merged(rows: seq<Row>, pieces: seq<nat>, start: seq<nat>, inserted: seq<Row>)
    returns (out: array<Row>, origins: array<nat>)
    requires Rectangular(rows) && |pieces| + 1 == |rows| && (forall i :: 0 <= i < |pieces| ==> pieces[i] >= 1)
    requires Starts(Less(pieces), start) && |inserted| == |start|
    requires forall i: nat, k: nat, q: nat :: IsRun(Less(pieces), i, k, q) && q < |start| ==>
      inserted[q] == Vertex(rows, Less(pieces) + [0], i, k)
    ensures fresh(out) && fresh(origins) && origins.Length == out.Length
    ensures out[..] == Emitted(rows, Less(pieces) + [0], |rows|)
    ensures Origins(Less(pieces) + [0], origins[..])
  {
    var extra := Less(pieces) + [0];
    var sums := Cumulated(Less(pieces));
    var at: seq<nat> := seq(|rows|, i requires 0 <= i < |rows| => i + if i == 0 then 0 else sums[i - 1]);
    forall n: nat | n <= |pieces| ensures Sum(Less(pieces), n) == Sum(extra, n) {
      SumOfPrefix(Less(pieces), extra, n);
    }
    StartsOfLonger(Less(pieces), extra, start);
    var step := Ordinals(extra, start);
    forall q: nat | q < |start| ensures start[q] + 1 < |rows| && inserted[q] == Vertex(rows, extra, start[q], step[q]) {
      assert IsRun(extra, start[q], step[q], q);
      assert IsRun(Less(pieces), start[q], step[q], q);
    }
    out := new Row[|rows| + |start|](_ => rows[0]);
    origins := new nat[|rows| + |start|](_ => 0);
    PlaceRows(rows, extra, at, out, origins);
    assert forall j :: 0 <= j < |rows| ==> Slot(extra, j, 0, At(extra, j));
    PlaceInserted(extra, at, start, step, inserted, out, origins);
    assert forall j :: 0 <= j < |rows| ==> Holds(out, origins, At(extra, j), rows[j], j);
    Filled(rows, extra, start, step, inserted, out, origins);
  }

  ghost predicate Origins(extra: seq<nat>, origins: seq<nat>) {
    && |origins| == At(extra, |extra|)
    && forall i: nat, k: nat, s: nat :: Slot(extra, i, k, s) && s < |origins| ==> origins[s] == i
  }

  lemma Filled(rows: seq<Row>, extra: seq<nat>, start: seq<nat>, step: seq<nat>, inserted: seq<Row>, out: array<Row>,
               origins: array<nat>)
    requires Cut(rows, extra) && Runs(extra, start, step) && |inserted| == |start|
    requires forall q :: 0 <= q < |start| ==>
      start[q] + 1 < |rows| && inserted[q] == Vertex(rows, extra, start[q], step[q])
    requires forall j :: 0 <= j < |rows| ==> Holds(out, origins, At(extra, j), rows[j], j)
    requires forall p :: 0 <= p < |start| ==> Holds(out, origins, At(extra, start[p]) + step[p], inserted[p], start[p])
    requires out.Length == origins.Length == At(extra, |extra|)
    ensures out[..] == Emitted(rows, extra, |rows|)
    ensures Origins(extra, origins[..])
  {
    hide Emitted, Sum, Runs, Vertex, Along;
    forall i: nat, k: nat, s: nat | Slot(extra, i, k, s) && s < origins.Length ensures origins[s] == i {
      EverySlot(rows, extra, start, step, inserted, out, origins, i, k);
    }
    forall s: nat | s < out.Length ensures out[s] == Emitted(rows, extra, |rows|)[s] {
      var i, k := SlotOwner(extra, |rows|, s);
      EverySlot(rows, extra, start, step, inserted, out, origins, i, k);
      EmittedAt(rows, extra, |rows|, i, k);
    }
  }

  // ----- the straight part of densify_rows

  datatype Densified = Refused | Densified(rows: seq<Row>, parts: seq<int>, origins: seq<nat>)

  function Squared(x: real): real { x * x }

  /** The lengths hypot gives. */
  ghost predicate Measured(rows: seq<Row>, lengths: seq<real>) {
    && |lengths| + 1 == |rows|
    && forall i :: 0 <= i < |lengths| ==> lengths[i] >= 0.0 && Squared(lengths[i]) == Apart(rows[i], rows[i + 1])
  }

  /** The square of the length of the segment from p to q. */
  function Apart(p: Row, q: Row): real {
    Squared(q.x - p.x) + Squared(q.y - p.y)
  }

  /** The vertices put after each row. */
  function Extra(parts: seq<int>, lengths: seq<real>, length: real): (extra: seq<nat>)
    requires |parts| == |lengths| + 1 && length > 0.0
    ensures |extra| == |parts| && extra[|lengths|] == 0
  {
    seq(|parts|, i requires 0 <= i < |parts| =>
      if i < |lengths| then Pieces(lengths[i], length, parts[i + 1] == parts[i]) - 1 else 0)
  }

  /** What the nested loop emits, and what each slot is of. */
  ghost predicate IsDense(rows: seq<Row>, parts: seq<int>, extra: seq<nat>, r: Densified) {
    && Cut(rows, extra) && |parts| == |rows|
    && r.Densified? && r.rows == Emitted(rows, extra, |rows|)
    && Origins(extra, r.origins) && |r.parts| == |r.origins|
    && forall s :: 0 <= s < |r.origins| ==> r.origins[s] < |parts| && r.parts[s] == parts[r.origins[s]]
  }

  /** The rows, and between any two of one part further apart than the length, vertices on the
      straight line at equal steps: what the nested loop emits. */
  method Densify(rows: seq<Row>, parts: seq<int>, lengths: seq<real>, length: real) returns (r: Densified)
    requires Rectangular(rows) && |parts| == |rows| && (|rows| >= 2 ==> Measured(rows, lengths))
    ensures r.Refused? <==> length <= 0.0
    ensures r.Densified? && |rows| < 2 ==> r == Densified(rows, parts, seq(|rows|, i => i))
    ensures r.Densified? && |rows| >= 2 ==> IsDense(rows, parts, Extra(parts, lengths, length), r)
    ensures r.Densified? && |rows| >= 2 ==> exists at :: Spread(rows, parts, length, r, at)
  {
    if length <= 0.0 {
      return Refused;
    }
    if |rows| < 2 {
      var all: seq<nat> := seq(|rows|, i requires 0 <= i => i);
      return Densified(rows, parts, all);
    }
    r := Straight(rows, parts, lengths, length);
    ghost var at := DenseIsSpread(rows, parts, lengths, length, r);
  }

  method Straight(rows: seq<Row>, parts: seq<int>, lengths: seq<real>, length: real) returns (r: Densified)
    requires Rectangular(rows) && |parts| == |rows| >= 2 && Measured(rows, lengths) && length > 0.0
    ensures IsDense(rows, parts, Extra(parts, lengths, length), r)
  {
    var pieces: seq<nat> := seq(|lengths|,
                                i requires 0 <= i < |lengths| => Pieces(lengths[i], length, parts[i + 1] == parts[i]));
    ghost var extra := Less(pieces) + [0];
    assert extra == Extra(parts, lengths, length);
    var start, fraction := Inserted(pieces);
    StartsInside(Less(pieces), start);
    var inserted := seq(|start|, q requires 0 <= q < |start| => Along(rows[start[q]], rows[start[q] + 1], fraction[q]));
    InsertedAreVertices(rows, pieces, start, fraction, inserted);
    var out, origins := Merged(rows, pieces, start, inserted);
    SlotsOwned(extra, origins[..]);
    r := Densified(out[..], PartsOf(parts, origins[..]), origins[..]);
  }

  lemma StartsInside(extra: seq<nat>, start: seq<nat>)
    requires Starts(extra, start)
    ensures forall q :: 0 <= q < |start| ==> start[q] < |extra|
  {
    forall q: nat | q < |start| ensures start[q] < |extra| {
      var i := RunOwner(extra, |extra|, q);
    }
  }

  lemma InsertedAreVertices(rows: seq<Row>, pieces: seq<nat>, start: seq<nat>, fraction: seq<real>, inserted: seq<Row>)
    requires Rectangular(rows) && |pieces| + 1 == |rows| && (forall i :: 0 <= i < |pieces| ==> pieces[i] >= 1)
    requires Starts(Less(pieces), start) && |fraction| == |start| == |inserted|
    requires forall i: nat, k: nat, q: nat :: IsRun(Less(pieces), i, k, q) && q < |start| ==>
      fraction[q] == k as real / pieces[i] as real
    requires forall q :: 0 <= q < |start| ==>
      start[q] + 1 < |rows| && inserted[q] == Along(rows[start[q]], rows[start[q] + 1], fraction[q])
    ensures forall i: nat, k: nat, q: nat :: IsRun(Less(pieces), i, k, q) && q < |start| ==>
      inserted[q] == Vertex(rows, Less(pieces) + [0], i, k)
  {
    hide Along;
    forall i: nat, k: nat, q: nat | IsRun(Less(pieces), i, k, q) && q < |start|
      ensures inserted[q] == Vertex(rows, Less(pieces) + [0], i, k)
    {
      assert Owns(Less(pieces), i, q);
      assert (Less(pieces) + [0])[i] + 1 == pieces[i];
    }
  }

  lemma SlotsOwned(extra: seq<nat>, origins: seq<nat>)
    requires Origins(extra, origins)
    ensures forall s :: 0 <= s < |origins| ==> origins[s] < |extra|
  {
    forall s: nat | s < |origins| ensures origins[s] < |extra| {
      var i, k := SlotOwner(extra, |extra|, s);
      assert Slot(extra, i, k, s);
    }
  }

  function PartsOf(parts: seq<int>, origins: seq<nat>): seq<int>
    requires forall s :: 0 <= s < |origins| ==> origins[s] < |parts|
  {
    seq(|origins|, s requires 0 <= s < |origins| => parts[origins[s]])
  }

  // ----- what the result is

  /** Position v is k n-ths of the way from p to q, in every value. */
  ghost predicate AtShare(p: Row, q: Row, k: nat, n: nat, v: Row) {
    && |v.rest| == |p.rest| == |q.rest|
    && n as real * (v.x - p.x) == k as real * (q.x - p.x) && n as real * (v.y - p.y) == k as real * (q.y - p.y)
    && forall i :: 0 <= i < |v.rest| ==> n as real * (v.rest[i] - p.rest[i]) == k as real * (q.rest[i] - p.rest[i])
  }

  /** The fewest steps of at most the length that go as far as the segment from p to q. */
  ghost predicate FewestSteps(p: Row, q: Row, length: real, n: nat) {
    var square := (q.x - p.x) * (q.x - p.x) + (q.y - p.y) * (q.y - p.y);
    var reach, short := n as real * length, (n - 1) as real * length;
    square <= reach * reach && (n > 1 ==> short * short < square)
  }

  /** Row i comes at the one slot, the next row at the other: at once where another part starts there, else after
      the fewest steps, one vertex at the end of each. */
  ghost predicate SpreadFrom(rows: seq<Row>, parts: seq<int>, length: real, r: Densified, i: nat, slot: nat, next: nat)
    requires i + 1 < |rows| == |parts| && r.Densified?
  {
    && slot < next < |r.rows| == |r.origins| == |r.parts| && r.rows[slot] == rows[i] && r.rows[next] == rows[i + 1]
    && (if parts[i] != parts[i + 1] then next == slot + 1
        else FewestSteps(rows[i], rows[i + 1], length, next - slot))
    && forall s :: slot <= s < next ==> SlotHolds(rows, parts, r, i, slot, next, s)
  }

  /** The rows are at those slots, the first and the last at the ends. */
  ghost predicate Spread(rows: seq<Row>, parts: seq<int>, length: real, r: Densified, at: seq<nat>)
    requires |parts| == |rows| >= 2 && r.Densified?
  {
    && |at| == |rows| && at[0] == 0 && at[|rows| - 1] + 1 == |r.rows| == |r.origins| == |r.parts|
    && r.origins[|r.rows| - 1] == |rows| - 1 && r.parts[|r.rows| - 1] == parts[|rows| - 1]
    && forall i: nat :: i + 1 < |rows| ==> SpreadFrom(rows, parts, length, r, i, at[i], at[i + 1])
  }

  lemma VertexIsAtShare(rows: seq<Row>, extra: seq<nat>, i: nat, k: nat)
    requires Cut(rows, extra) && i + 1 < |rows| && k <= extra[i]
    ensures AtShare(rows[i], rows[i + 1], k, extra[i] + 1, Vertex(rows, extra, i, k))
  {
    var p, q, v, n := rows[i], rows[i + 1], Vertex(rows, extra, i, k), extra[i] + 1;
    if k > 0 {
      ShareOf(p.x, q.x, k, n);
      ShareOf(p.y, q.y, k, n);
      forall j | 0 <= j < |v.rest|
        ensures n as real * (v.rest[j] - p.rest[j]) == k as real * (q.rest[j] - p.rest[j])
      {
        ShareOf(p.rest[j], q.rest[j], k, n);
      }
    }
  }

  lemma ShareOf(a: real, b: real, k: nat, n: nat)
    requires n > 0
    ensures n as real * ((a + (k as real / n as real) * (b - a)) - a) == k as real * (b - a)
  {
    var f := k as real / n as real;
    assert n as real * f == k as real;
    assert n as real * (f * (b - a)) == (n as real * f) * (b - a);
  }

  lemma PiecesAreFewest(p: Row, q: Row, segment: real, length: real)
    requires segment >= 0.0 && Squared(segment) == Apart(p, q) && length > 0.0
    ensures FewestSteps(p, q, length, Pieces(segment, length, true))
  {
    var n := Pieces(segment, length, true);
    SquaredGrows(segment, n as real * length);
    if n > 1 {
      SquaredGrows((n - 1) as real * length, segment);
    }
  }

  lemma SquaredGrows(a: real, b: real)
    requires 0.0 <= a <= b
    ensures Squared(a) <= Squared(b) && (a < b ==> Squared(a) < Squared(b))
  {
    if a < b {
      Positive(b - a, a + b);
    }
    assert b * b - a * a == (b - a) * (a + b);
  }

  lemma Positive(x: real, y: real)
    requires x > 0.0 && y > 0.0
    ensures x * y > 0.0
  {}

  /** What slot s between those of row i and the next holds. */
  ghost predicate SlotHolds(rows: seq<Row>, parts: seq<int>, r: Densified, i: nat, slot: nat, next: nat, s: nat)
    requires i + 1 < |rows| == |parts| && r.Densified? && slot <= s < next && s < |r.rows| == |r.origins| == |r.parts|
  {
    r.origins[s] == i && r.parts[s] == parts[i] && AtShare(rows[i], rows[i + 1], s - slot, next - slot, r.rows[s])
  }

  lemma SlotIsHeld(rows: seq<Row>, parts: seq<int>, extra: seq<nat>, r: Densified, i: nat, s: nat)
    requires IsDense(rows, parts, extra, r) && i + 1 < |rows| && At(extra, i) <= s < At(extra, i + 1)
    ensures s < |r.rows| == |r.origins| == |r.parts|
    ensures SlotHolds(rows, parts, r, i, At(extra, i), At(extra, i + 1), s)
  {
    hide AtShare, Vertex, Emitted;
    var k: nat := s - At(extra, i);
    SlotFits(extra, i, k);
    EmittedAt(rows, extra, |rows|, i, k);
    VertexIsAtShare(rows, extra, i, k);
    assert Slot(extra, i, k, s);
  }

  lemma RowIsHeld(rows: seq<Row>, parts: seq<int>, extra: seq<nat>, r: Densified, i: nat)
    requires IsDense(rows, parts, extra, r) && i < |rows|
    ensures At(extra, i) < |r.rows| == |r.origins| == |r.parts| == At(extra, |rows|)
    ensures r.rows[At(extra, i)] == rows[i]
    ensures r.origins[At(extra, i)] == i && r.parts[At(extra, i)] == parts[i]
  {
    hide Along;
    SlotFits(extra, i, 0);
    EmittedAt(rows, extra, |rows|, i, 0);
    assert Slot(extra, i, 0, At(extra, i));
  }

  lemma NextAt(parts: seq<int>, lengths: seq<real>, length: real, i: nat)
    requires |parts| == |lengths| + 1 && length > 0.0 && i < |lengths|
    ensures var extra := Extra(parts, lengths, length);
            At(extra, i + 1) == At(extra, i) + Pieces(lengths[i], length, parts[i + 1] == parts[i])
  {
    hide Pieces;
  }

  lemma SlotSpreads(rows: seq<Row>, parts: seq<int>, lengths: seq<real>, length: real, r: Densified, i: nat)
    requires length > 0.0 && |rows| >= 2 && Measured(rows, lengths) && |parts| == |rows|
    requires IsDense(rows, parts, Extra(parts, lengths, length), r) && i + 1 < |rows|
    ensures var extra := Extra(parts, lengths, length);
            SpreadFrom(rows, parts, length, r, i, At(extra, i), At(extra, i + 1))
  {
    var extra := Extra(parts, lengths, length);
    NextAt(parts, lengths, length, i);
    PiecesAreFewest(rows[i], rows[i + 1], lengths[i], length);
    OnePieceBetweenParts(lengths[i], length);
    hide Pieces, FewestSteps, AtShare, Squared, Apart, Extra, IsDense, At;
    RowIsHeld(rows, parts, extra, r, i);
    RowIsHeld(rows, parts, extra, r, i + 1);
    var slot, next := At(extra, i), At(extra, i + 1);
    forall s: nat | slot <= s < next ensures SlotHolds(rows, parts, r, i, slot, next, s)
    {
      SlotIsHeld(rows, parts, extra, r, i, s);
    }
  }

  lemma OnePieceBetweenParts(segment: real, length: real)
    requires length > 0.0
    ensures Pieces(segment, length, false) == 1
  {}

  lemma DenseIsSpread(rows: seq<Row>, parts: seq<int>, lengths: seq<real>, length: real, r: Densified)
    returns (at: seq<nat>)
    requires length > 0.0 && |rows| >= 2 && Measured(rows, lengths) && |parts| == |rows|
    requires IsDense(rows, parts, Extra(parts, lengths, length), r)
    ensures Spread(rows, parts, length, r, at)
  {
    hide SpreadFrom, Emitted, Extra;
    var extra := Extra(parts, lengths, length);
    var n := |rows|;
    at := seq(n, i requires 0 <= i < n => At(extra, i));
    forall i: nat | i + 1 < n ensures SpreadFrom(rows, parts, length, r, i, at[i], at[i + 1]) {
      SlotSpreads(rows, parts, lengths, length, r, i);
    }
    RowIsHeld(rows, parts, extra, r, n - 1);
    LastAt(parts, lengths, length);
  }

  lemma LastAt(parts: seq<int>, lengths: seq<real>, length: real)
    requires |parts| == |lengths| + 1 && length > 0.0
    ensures At(Extra(parts, lengths, length), |parts|) == At(Extra(parts, lengths, length), |parts| - 1) + 1
  {}

  // ----- what the result promises

  /** The rows come back in order, each at its own slot, with its own part. */
  lemma RowsComeBack(rows: seq<Row>, parts: seq<int>, extra: seq<nat>, r: Densified, i: nat, j: nat)
    requires IsDense(rows, parts, extra, r) && i < j < |rows|
    ensures At(extra, i) < At(extra, j) < |r.rows|
    ensures r.rows[At(extra, i)] == rows[i] && r.origins[At(extra, i)] == i && r.parts[At(extra, i)] == parts[i]
    ensures r.rows[At(extra, j)] == rows[j] && r.origins[At(extra, j)] == j && r.parts[At(extra, j)] == parts[j]
  {
    SumGrows(extra, i, j);
    SlotFits(extra, i, 0);
    SlotFits(extra, j, 0);
    EmittedAt(rows, extra, |rows|, i, 0);
    EmittedAt(rows, extra, |rows|, j, 0);
    assert Slot(extra, i, 0, At(extra, i)) && Slot(extra, j, 0, At(extra, j));
  }

  /** The origins go up by one at a row and stay at an inserted vertex. */
  lemma OriginsAscend(rows: seq<Row>, parts: seq<int>, extra: seq<nat>, r: Densified, s: nat)
    requires IsDense(rows, parts, extra, r) && s + 1 < |r.origins|
    ensures r.origins[s] <= r.origins[s + 1] <= r.origins[s] + 1
    ensures r.origins[s + 1] == r.origins[s] + 1 <==> s + 1 == At(extra, r.origins[s + 1])
  {
    var i, k := SlotOwner(extra, |rows|, s);
    var j, l := SlotOwner(extra, |rows|, s + 1);
    assert Slot(extra, i, k, s) && Slot(extra, j, l, s + 1);
    Next(extra, i, k, j, l);
  }

  lemma Next(extra: seq<nat>, i: nat, k: nat, j: nat, l: nat)
    requires i < |extra| && j < |extra| && k <= extra[i] && l <= extra[j] && At(extra, j) + l == At(extra, i) + k + 1
    ensures if k < extra[i] then j == i && l == k + 1 else j == i + 1 && l == 0
  {
    if k < extra[i] {
      SlotIsUnique(extra, i, k + 1, j, l);
    } else {
      SumGrows(extra, j, if j <= i then i else j);
      if j > i {
        SlotIsUnique(extra, i + 1, 0, j, l);
      }
    }
  }

  /** No segment within a part is longer than the length. */
  lemma NoSegmentTooLong(rows: seq<Row>, parts: seq<int>, lengths: seq<real>, length: real, r: Densified, s: nat)
    requires length > 0.0 && |rows| >= 2 && Measured(rows, lengths) && |parts| == |rows|
    requires IsDense(rows, parts, Extra(parts, lengths, length), r)
    requires s + 1 < |r.rows| && r.parts[s] == r.parts[s + 1]
    ensures Apart(r.rows[s], r.rows[s + 1]) <= Squared(length)
  {
    hide Emitted, Sum, Vertex, Apart, Squared, Extra;
    var extra := Extra(parts, lengths, length);
    var i, k := SlotOwner(extra, |rows|, s);
    var j, l := SlotOwner(extra, |rows|, s + 1);
    assert Slot(extra, i, k, s) && Slot(extra, j, l, s + 1);
    Next(extra, i, k, j, l);
    EmittedAt(rows, extra, |rows|, i, k);
    EmittedAt(rows, extra, |rows|, j, l);
    StepFits(rows, parts, lengths, length, i, k, j, l);
  }

  lemma StepFits(rows: seq<Row>, parts: seq<int>, lengths: seq<real>, length: real, i: nat, k: nat, j: nat, l: nat)
    requires length > 0.0 && |rows| >= 2 && Measured(rows, lengths) && |parts| == |rows|
    requires Cut(rows, Extra(parts, lengths, length)) && i < |rows| && j < |rows| && parts[i] == parts[j]
    requires k <= Extra(parts, lengths, length)[i] && l <= Extra(parts, lengths, length)[j]
    requires if k < Extra(parts, lengths, length)[i] then j == i && l == k + 1 else j == i + 1 && l == 0
    ensures Apart(Vertex(rows, Extra(parts, lengths, length), i, k),
                  Vertex(rows, Extra(parts, lengths, length), j, l)) <= Squared(length)
  {
    hide Along, Apart, Squared, Ceiling;
    var extra := Extra(parts, lengths, length);
    assert extra[i] + 1 == Pieces(lengths[i], length, true);
    StepIsShort(rows[i], rows[i + 1], Vertex(rows, extra, i, k), Vertex(rows, extra, j, l), lengths[i], length,
                extra[i] + 1, k);
  }

  /** No fewer pieces would do. */
  lemma FewestPieces(segment: real, length: real, p: nat)
    requires length > 0.0 && p >= 1 && segment <= p as real * length
    ensures Pieces(segment, length, true) <= p
  {
    var fewest := Pieces(segment, length, true);
    hide Pieces;
    if fewest > 1 {
      var less, some := (fewest - 1) as real, p as real;
      assert less * length < segment <= some * length;
      Grows(less, some, length);
      assert less < some;
    }
  }

  lemma StepIsShort(p: Row, q: Row, a: Row, b: Row, segment: real, length: real, pieces: nat, k: nat)
    requires pieces >= 1 && k < pieces && length > 0.0
    requires segment >= 0.0 && Squared(segment) == Apart(p, q) && segment <= pieces as real * length
    requires |p.rest| == |q.rest|
    requires a == if k == 0 then p else Along(p, q, k as real / pieces as real)
    requires b == if k + 1 == pieces then q else Along(p, q, (k + 1) as real / pieces as real)
    ensures Apart(a, b) <= Squared(length)
  {
    hide *;
    var n := pieces as real;
    StepsEvenly(p, q, a, b, pieces, k);
    StretchedApart(a, b, p, q, n);
    var reach := n * length;
    SquaredGrows(segment, reach);
    Shrunk(Apart(a, b), length, n, reach);
  }

  lemma StepsEvenly(p: Row, q: Row, a: Row, b: Row, pieces: nat, k: nat)
    requires pieces >= 1 && k < pieces && |p.rest| == |q.rest|
    requires a == if k == 0 then p else Along(p, q, k as real / pieces as real)
    requires b == if k + 1 == pieces then q else Along(p, q, (k + 1) as real / pieces as real)
    ensures (b.x - a.x) * pieces as real == q.x - p.x && (b.y - a.y) * pieces as real == q.y - p.y
  {
    hide *;
    StepOf(p.x, q.x - p.x, k, pieces);
    StepOf(p.y, q.y - p.y, k, pieces);
    EndsOfStep(p, q, a, b, pieces, k);
  }

  /** The two ends of a step, by its fractions. */
  lemma EndsOfStep(p: Row, q: Row, a: Row, b: Row, pieces: nat, k: nat)
    requires pieces >= 1 && k < pieces && |p.rest| == |q.rest|
    requires a == if k == 0 then p else Along(p, q, k as real / pieces as real)
    requires b == if k + 1 == pieces then q else Along(p, q, (k + 1) as real / pieces as real)
    ensures a.x == p.x + Part(k, pieces, q.x - p.x) && a.y == p.y + Part(k, pieces, q.y - p.y)
    ensures b.x == p.x + Part(k + 1, pieces, q.x - p.x) && b.y == p.y + Part(k + 1, pieces, q.y - p.y)
  {
    WholePart(pieces, q.x - p.x);
    WholePart(pieces, q.y - p.y);
  }

  function Part(k: nat, pieces: nat, width: real): real
    requires pieces >= 1
  {
    k as real / pieces as real * width
  }

  lemma WholePart(pieces: nat, width: real)
    requires pieces >= 1
    ensures Part(0, pieces, width) == 0.0 && Part(pieces, pieces, width) == width
  {
    assert pieces as real / pieces as real == 1.0;
    assert 0 as real / pieces as real == 0.0;
  }

  lemma StepOf(low: real, width: real, k: nat, pieces: nat)
    requires k < pieces
    ensures (low + Part(k + 1, pieces, width) - (low + Part(k, pieces, width))) * pieces as real == width
  {
    var f := k as real / pieces as real;
    var g := (k + 1) as real / pieces as real;
    assert f * pieces as real == k as real;
    assert g * pieces as real == (k + 1) as real;
    assert (g - f) * pieces as real == 1.0;
    assert ((g - f) * width) * pieces as real == ((g - f) * pieces as real) * width;
  }

  lemma StretchedApart(a: Row, b: Row, p: Row, q: Row, n: real)
    requires (b.x - a.x) * n == q.x - p.x && (b.y - a.y) * n == q.y - p.y
    ensures Apart(a, b) * Squared(n) == Apart(p, q)
  {
    Stretched(b.x - a.x, q.x - p.x, n);
    Stretched(b.y - a.y, q.y - p.y, n);
    hide Squared;
    Distributed(Squared(b.x - a.x), Squared(b.y - a.y), Squared(n));
  }

  lemma Stretched(x: real, width: real, n: real)
    requires x * n == width
    ensures Squared(x) * Squared(n) == Squared(width)
  {
    SquaredProduct(x, n);
  }

  lemma Distributed(s: real, t: real, n: real)
    ensures (s + t) * n == s * n + t * n
  {}

  lemma SquaredProduct(x: real, n: real)
    ensures Squared(x) * Squared(n) == Squared(x * n)
  {
    assert (x * x) * (n * n) == (x * n) * (x * n);
  }

  lemma Shrunk(apart: real, length: real, n: real, reach: real)
    requires n >= 1.0 && reach == n * length && apart * Squared(n) <= Squared(reach)
    ensures apart <= Squared(length)
  {
    SquaredProduct(length, n);
    assert Squared(n) > 0.0;
    hide Squared;
    Cancelled(apart, Squared(length), Squared(n));
  }

  lemma Cancelled(a: real, b: real, m: real)
    requires m > 0.0 && a * m <= b * m
    ensures a <= b
  {
    assert (b - a) * m >= 0.0;
  }
}
