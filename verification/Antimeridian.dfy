module Antimeridian {
  // Lines across the antimeridian (geodetic_engine/geodesy/_antimeridian.py).
  //
  // Longitudes come within half a turn of the prime meridian. A line that crosses the antimeridian
  // is carried on past it, turn by turn, or cut where it crosses (section 3.1.9 of RFC 7946).

  import opened Numbers
  import opened Options
  import opened Segments

  ghost predicate Within(x: real, half: real) {
    -half <= x <= half
  }

  // ----- crossings

  /** The segment from position i crosses: it is within a part, its ends are over half a turn apart,
      and the middle of its source segment is not between them, or is unknown. */
  predicate Crosses(lon: seq<real>, parts: seq<int>, half: real, middle: nat -> Option<real>, i: nat)
    requires |lon| == |parts| && i + 1 < |lon|
  {
    && Suspect(lon, parts, half, i)
    && !(middle(i).Some? && (lon[i] <= middle(i).value <= lon[i + 1] || lon[i + 1] <= middle(i).value <= lon[i]))
  }

  /** The segment from position i is within a part and over half a turn long. */
  predicate Suspect(lon: seq<real>, parts: seq<int>, half: real, i: nat)
    requires |lon| == |parts| && i + 1 < |lon|
  {
    parts[i + 1] == parts[i] && Abs(lon[i + 1] - lon[i]) > half
  }

  method Candidates(lon: seq<real>, parts: seq<int>, half: real) returns (candidates: seq<nat>)
    requires |lon| == |parts| >= 2
    ensures forall i: nat :: i + 1 < |lon| && Suspect(lon, parts, half, i) ==> i in candidates
    ensures forall k: nat :: k < |candidates| ==> candidates[k] + 1 < |lon| && Suspect(lon, parts, half, candidates[k])
  {
    candidates := [];
    for i := 0 to |lon| - 1
      invariant forall j: nat :: j < i && Suspect(lon, parts, half, j) ==> j in candidates
      invariant forall k: nat :: k < |candidates| ==> candidates[k] < i && Suspect(lon, parts, half, candidates[k])
    {
      if parts[i + 1] == parts[i] && Abs(lon[i + 1] - lon[i]) > half {
        candidates := candidates + [i];
      }
    }
  }

  method Crossings(lon: seq<real>, parts: seq<int>, half: real,
                   middle: nat -> Option<real>) returns (crossing: seq<bool>)
    requires |lon| == |parts| && half > 0.0
    ensures |crossing| == |lon|
    ensures forall i: nat :: i < |lon| ==> (crossing[i] <==> i + 1 < |lon| && Crosses(lon, parts, half, middle, i))
  {
    crossing := seq(|lon|, _ => false);
    if |lon| < 2 {
      return;
    }
    var candidates := Candidates(lon, parts, half);
    hide Suspect;
    for k := 0 to |candidates|
      invariant |crossing| == |lon|
      invariant forall i: nat :: i < |lon| && crossing[i] ==> i + 1 < |lon| && Crosses(lon, parts, half, middle, i)
      invariant forall j: nat :: j < k && Crosses(lon, parts, half, middle, candidates[j]) ==> crossing[candidates[j]]
    {
      var at := candidates[k];
      var low := if lon[at] <= lon[at + 1] then lon[at] else lon[at + 1];
      var high := if lon[at] >= lon[at + 1] then lon[at] else lon[at + 1];
      ShortWayRound(lon, parts, half, middle, at, low, high);
      if middle(at).None? || !(low <= middle(at).value <= high) {
        crossing := crossing[at := true];
      }
    }
  }

  /** Compared with the lesser and greater end, a suspect segment crosses just where no middle is known to lie
      from one to the other. */
  lemma ShortWayRound(lon: seq<real>, parts: seq<int>, half: real, middle: nat -> Option<real>, i: nat, low: real,
                      high: real)
    requires |lon| == |parts| && i + 1 < |lon| && Suspect(lon, parts, half, i)
    requires low == (if lon[i] <= lon[i + 1] then lon[i] else lon[i + 1])
    requires high == (if lon[i] >= lon[i + 1] then lon[i] else lon[i + 1])
    ensures Crosses(lon, parts, half, middle, i) <==> middle(i).None? || !(low <= middle(i).value <= high)
  {}

  /** A segment crosses exactly where it stays within a part, is over half a turn long, and its middle is not known
      to lie from one end to the other: it is west of both, or east of both. */
  lemma CrossesExactly(lon: seq<real>, parts: seq<int>, half: real, middle: nat -> Option<real>, i: nat, j: nat)
    requires |lon| == |parts| && j == i + 1 < |lon| && half > 0.0
    ensures Crosses(lon, parts, half, middle, i) <==>
      && parts[i] == parts[j] && (lon[j] - lon[i] > half || lon[i] - lon[j] > half)
      && (middle(i).None? || (middle(i).value < lon[i] && middle(i).value < lon[j]) ||
          (middle(i).value > lon[i] && middle(i).value > lon[j]))
  {}

  /** A crossing step of exactly a full turn has no known middle within half a turn: every such middle is
      between its ends. */
  lemma FullTurnNeedsAnUnknownMiddle(lon: seq<real>, parts: seq<int>, half: real, middle: nat -> Option<real>, i: nat)
    requires |lon| == |parts| && i + 1 < |lon| && half > 0.0 && Within(lon[i], half) && Within(lon[i + 1], half)
    requires Crosses(lon, parts, half, middle, i) && Abs(lon[i + 1] - lon[i]) == 2.0 * half
    ensures middle(i).Some? ==> !Within(middle(i).value, half)
  {}

  // ----- turns

  /** A step that crosses adds a turn where the longitude drops, and takes one off where it rises. */
  function Step(lon: seq<real>, crossing: seq<bool>, i: nat): int
    requires 0 < i < |lon| == |crossing|
  {
    if !crossing[i - 1] then 0 else if lon[i] < lon[i - 1] then 1 else -1
  }

  /** The turns position i is carried, counted along its part from none at the part's first. */
  function Carried(lon: seq<real>, parts: seq<int>, crossing: seq<bool>, i: nat): int
    requires i < |lon| == |parts| == |crossing|
  {
    if i == 0 || parts[i] != parts[i - 1] then 0 else Carried(lon, parts, crossing, i - 1) + Step(lon, crossing, i)
  }

  /** The position the part of position i starts at. */
  function FirstOf(parts: seq<int>, i: nat): (f: nat)
    requires i < |parts|
    ensures f <= i
  {
    if i == 0 || parts[i] != parts[i - 1] then i else FirstOf(parts, i - 1)
  }

  /** The steps up to position i, whatever parts they are between. */
  function Total(lon: seq<real>, crossing: seq<bool>, i: nat): int
    requires i < |lon| == |crossing|
  {
    if i == 0 then 0 else Total(lon, crossing, i - 1) + Step(lon, crossing, i)
  }

  /** What a part's count is: the running sum, less its value where the part starts. */
  lemma {:induction false} CarriedFromFirst(lon: seq<real>, parts: seq<int>, crossing: seq<bool>, i: nat)
    requires i < |lon| == |parts| == |crossing|
    ensures Carried(lon, parts, crossing, i) == Total(lon, crossing, i) - Total(lon, crossing, FirstOf(parts, i))
  {
    if i > 0 && parts[i] == parts[i - 1] {
      CarriedFromFirst(lon, parts, crossing, i - 1);
    }
  }

  method Totals(lon: seq<real>, crossing: seq<bool>) returns (total: seq<int>)
    requires |lon| == |crossing|
    ensures |total| == |lon| && forall i: nat :: i < |lon| ==> total[i] == Total(lon, crossing, i)
  {
    var step: seq<int> := seq(|lon|, i requires 0 <= i < |lon| => if i == 0 then 0 else Step(lon, crossing, i));
    total := [];
    for i := 0 to |lon|
      invariant |total| == i && forall j: nat :: j < i ==> total[j] == Total(lon, crossing, j)
    {
      total := total + [step[i] + if i > 0 then total[i - 1] else 0];
    }
  }

  /** np.flatnonzero of where parts start, and for each position which of those is its part's. */
  method Starts(parts: seq<int>) returns (starts: seq<nat>, group: seq<nat>)
    ensures |group| == |parts|
    ensures forall i: nat :: i < |parts| ==> group[i] < |starts| && starts[group[i]] == FirstOf(parts, i)
  {
    starts, group := [], [];
    for i := 0 to |parts|
      invariant |group| == i && (i > 0 ==> starts != [] && group[i - 1] == |starts| - 1)
      invariant forall j: nat :: j < i ==> group[j] < |starts| && starts[group[j]] == FirstOf(parts, j)
    {
      if i == 0 || parts[i] != parts[i - 1] {
        starts := starts + [i];
      }
      group := group + [|starts| - 1];
    }
  }

  /** By one cumulative sum over every part, less its value where each part starts. Without a
      position there is no part to start: the original fails to index, here None. */
  method Turns(lon: seq<real>, parts: seq<int>, crossing: seq<bool>) returns (r: Option<seq<int>>)
    requires |lon| == |parts| == |crossing|
    ensures r.None? <==> lon == []
    ensures r.Some? ==> |r.value| == |lon| && forall i: nat :: i < |lon| ==>
      r.value[i] == Carried(lon, parts, crossing, i)
  {
    if lon == [] {
      return None;
    }
    var total := Totals(lon, crossing);
    var starts, group := Starts(parts);
    forall i: nat | i < |lon|
      ensures Carried(lon, parts, crossing, i) == total[i] - total[starts[group[i]]]
    {
      CarriedFromFirst(lon, parts, crossing, i);
    }
    r := Some(seq(|lon|, i requires 0 <= i < |lon| => total[i] - total[starts[group[i]]]));
  }

  // ----- carrying longitudes on

  /** So many whole turns. */
  function Whole(half: real, turns: int): real {
    2.0 * half * turns as real
  }

  lemma WholeAdds(half: real, m: int, n: int)
    ensures Whole(half, m + n) == Whole(half, m) + Whole(half, n)
  {
    assert (m + n) as real == m as real + n as real;
  }

  /** A position carried some turns on. */
  function Carry(row: Row, half: real, turns: int): Row {
    Row(row.x + Whole(half, turns), row.y, row.rest)
  }

  function Unwrapped(rows: seq<Row>, turned: seq<int>, half: real): seq<Row>
    requires |turned| == |rows|
  {
    seq(|rows|, i requires 0 <= i < |rows| => Carry(rows[i], half, turned[i]))
  }

  /** Carried on by the counted turns, every crossing step goes the short way: under half a turn,
      and the other way from the longitudes as given. A step that does not cross is left as it is. */
  lemma UnwrappedGoesTheShortWay(lon: seq<real>, parts: seq<int>, crossing: seq<bool>, half: real,
                                 middle: nat -> Option<real>, i: nat)
    requires |lon| == |parts| == |crossing| && i + 1 < |lon| && parts[i + 1] == parts[i] && half > 0.0
    requires Within(lon[i], half) && Within(lon[i + 1], half)
    requires crossing[i] <==> Crosses(lon, parts, half, middle, i)
    ensures var from := lon[i] + Whole(half, Carried(lon, parts, crossing, i));
            var step := lon[i + 1] + Whole(half, Carried(lon, parts, crossing, i + 1)) - from;
            if crossing[i] then Abs(step) < half &&
                                step == lon[i + 1] - lon[i] + (if lon[i + 1] < lon[i] then 2.0 * half else -2.0 * half)
            else step == lon[i + 1] - lon[i]
  {
    WholeAdds(half, Carried(lon, parts, crossing, i), Step(lon, crossing, i + 1));
  }

  // ----- _cut_line

  datatype Cut = Undefined | Pieces(pieces: seq<seq<Row>>)

  function Direction(turned: seq<int>, i: nat): int
    requires 0 < i < |turned|
  {
    turned[i] - turned[i - 1]
  }

  /** A step over the antimeridian that goes nowhere once carried on: the share of it is 0 over 0. */
  predicate FullTurn(rows: seq<Row>, turned: seq<int>, half: real, i: nat)
    requires 0 < i < |turned| == |rows|
  {
    var d := Direction(turned, i);
    d != 0 && rows[i].x + Whole(half, d) == rows[i - 1].x
  }

  function Share(from: real, to: real, edge: real): real
    requires to != from
  {
    (edge - from) / (to - from)
  }

  /** Where the step from one position to the next, both carried on, meets an edge. */
  function Meets(p: Row, q: Row, edge: real): Row
    requires |p.rest| == |q.rest| && q.x != p.x
  {
    Along(p, q, Share(p.x, q.x, edge))
  }

  /** The antimeridian vertex of step i on the unwrapped line: where that line passes the edge of the
      sheet it leaves. */
  function VertexOf(rows: seq<Row>, turned: seq<int>, half: real, i: nat): Row
    requires Rectangular(rows) && 0 < i < |turned| == |rows|
    requires Direction(turned, i) != 0 && !FullTurn(rows, turned, half, i)
  {
    FullTurnIsStill(rows, turned, half, i);
    Meets(Carry(rows[i - 1], half, turned[i - 1]), Carry(rows[i], half, turned[i]),
          Whole(half, turned[i - 1]) + half * Direction(turned, i) as real)
  }

  /** No step among the first n positions is a full turn. */
  ghost predicate Cuttable(rows: seq<Row>, turned: seq<int>, half: real, n: nat)
    requires n <= |turned| == |rows|
  {
    forall i: nat :: 0 < i < n ==> !FullTurn(rows, turned, half, i)
  }

  lemma FullTurnIsStill(rows: seq<Row>, turned: seq<int>, half: real, i: nat)
    requires 0 < i < |turned| == |rows| && Direction(turned, i) != 0
    ensures FullTurn(rows, turned, half, i) <==>
      Carry(rows[i - 1], half, turned[i - 1]).x == Carry(rows[i], half, turned[i]).x
  {
    WholeAdds(half, turned[i - 1], Direction(turned, i));
  }

  /** The first n positions of the unwrapped line, and on it twice, as the end of one piece and the
      start of the next, each place it crosses. */
  ghost function Trace(rows: seq<Row>, turned: seq<int>, half: real, n: nat): seq<Row>
    requires Rectangular(rows) && n <= |turned| == |rows| && Cuttable(rows, turned, half, n)
  {
    if n == 0 then [] else
      Trace(rows, turned, half, n - 1) + Leg(rows, turned, half, n - 1)
  }

  /** Position i of the unwrapped line, after the vertices of the step to it. */
  function Leg(rows: seq<Row>, turned: seq<int>, half: real, i: nat): seq<Row>
    requires Rectangular(rows) && i < |turned| == |rows| && (i > 0 ==> !FullTurn(rows, turned, half, i))
  {
    var row := Carry(rows[i], half, turned[i]);
    if i > 0 && Direction(turned, i) != 0 then
      var vertex := VertexOf(rows, turned, half, i);
      [vertex, vertex, row]
    else [row]
  }

  /** The steps to the first positions, up to position i, that go over the antimeridian. */
  function Crossed(turned: seq<int>, i: nat): nat
    requires i < |turned|
  {
    if i == 0 then 0 else Crossed(turned, i - 1) + if Direction(turned, i) != 0 then 1 else 0
  }

  /** Where position i is on the trace: after two vertices for each such step. */
  function Place(turned: seq<int>, i: nat): (p: nat)
    requires i < |turned|
    ensures p >= i
  {
    i + 2 * Crossed(turned, i)
  }

  lemma {:induction false} TraceLength(rows: seq<Row>, turned: seq<int>, half: real, n: nat)
    requires Rectangular(rows) && 0 < n <= |turned| == |rows| && Cuttable(rows, turned, half, n)
    ensures |Trace(rows, turned, half, n)| == Place(turned, n - 1) + 1
  {
    hide VertexOf, FullTurn, Carry, Rectangular, Direction;
    if n > 1 {
      TraceLength(rows, turned, half, n - 1);
    } else {
      assert Trace(rows, turned, half, 0) == [];
    }
  }

  /** The trace holds what position i of the unwrapped line adds to it, from the end of what those before do. */
  ghost predicate HoldsLeg(trace: seq<Row>, rows: seq<Row>, turned: seq<int>, half: real, i: nat)
    requires Rectangular(rows) && i < |turned| == |rows| && (i > 0 ==> !FullTurn(rows, turned, half, i))
  {
    && Place(turned, i) < |trace| && trace[Place(turned, i)] == Unwrapped(rows, turned, half)[i]
    && if i == 0 then Place(turned, i) == 0
       else if Direction(turned, i) == 0 then Place(turned, i) == Place(turned, i - 1) + 1
       else Place(turned, i) == Place(turned, i - 1) + 3
            && trace[Place(turned, i) - 2] == trace[Place(turned, i) - 1] == VertexOf(rows, turned, half, i)
  }

  lemma {:induction false} TraceHolds(rows: seq<Row>, turned: seq<int>, half: real, n: nat, i: nat)
    requires Rectangular(rows) && i < n <= |turned| == |rows| && Cuttable(rows, turned, half, n)
    ensures HoldsLeg(Trace(rows, turned, half, n), rows, turned, half, i)
    decreases n
  {
    if i < n - 1 {
      TraceHolds(rows, turned, half, n - 1, i);
    } else if i > 0 {
      TraceLength(rows, turned, half, i);
    }
    hide VertexOf, FullTurn, Carry, Rectangular, Direction;
  }

  /** The trace is the unwrapped line, and nothing besides but each vertex twice before the position it
      leads to. */
  lemma TraceIsUnwrapped(rows: seq<Row>, turned: seq<int>, half: real)
    requires rows != [] && Rectangular(rows) && |turned| == |rows| && Cuttable(rows, turned, half, |rows|)
    ensures var trace := Trace(rows, turned, half, |rows|);
            |trace| == Place(turned, |rows| - 1) + 1
            && forall i: nat :: i < |rows| ==> HoldsLeg(trace, rows, turned, half, i)
  {
    TraceLength(rows, turned, half, |rows|);
    forall i: nat | i < |rows| ensures HoldsLeg(Trace(rows, turned, half, |rows|), rows, turned, half, i) {
      TraceHolds(rows, turned, half, |rows|, i);
    }
  }

  function Laid(piece: seq<Row>, half: real, sheet: int): (r: seq<Row>)
    ensures |r| == |piece|
  {
    seq(|piece|, i requires 0 <= i < |piece| => Carry(piece[i], half, sheet))
  }

  function AllLaid(pieces: seq<seq<Row>>, sheets: seq<int>, half: real): seq<Row>
    requires |sheets| == |pieces|
  {
    if pieces == [] then [] else
      AllLaid(pieces[..|pieces| - 1], sheets[..|pieces| - 1], half) +
          Laid(pieces[|pieces| - 1], half, sheets[|pieces| - 1])
  }

  /** One piece ends on the antimeridian where the next starts, a turn on: on the straight line between the
      positions before and after. */
  ghost predicate Joined(before: seq<Row>, after: seq<Row>, half: real, d: int) {
    && d != 0 && |before| >= 2 && |after| >= 2
    && OnLine(before[|before| - 2], after[1].(x := after[1].x + 2.0 * half * d as real), before[|before| - 1])
    && before[|before| - 1].x == half * d as real && after[0].x == -(half * d as real)
    && before[|before| - 1].y == after[0].y && before[|before| - 1].rest == after[0].rest
  }

  ghost predicate AllJoined(pieces: seq<seq<Row>>, sheets: seq<int>, half: real) {
    && |sheets| == |pieces|
    && (forall k :: 0 <= k < |pieces| ==> |pieces[k]| >= 2)
    && (forall k :: 0 < k < |pieces| ==> Joined(pieces[k - 1], pieces[k], half, sheets[k] - sheets[k - 1]))
  }

  function Exit(before: Row, row: Row, half: real, d: int): Row
    requires |before.rest| == |row.rest| && row.x + Whole(half, d) != before.x
  {
    Meets(before, Carry(row, half, d), half * d as real).(x := half * d as real)
  }

  /** Both ends of a crossing are the unwrapped line's vertex, each on its own sheet. */
  lemma EndsAreTheVertex(rows: seq<Row>, turned: seq<int>, half: real, i: nat)
    requires Rectangular(rows) && 0 < i < |turned| == |rows| && Direction(turned, i) != 0 &&
      !FullTurn(rows, turned, half, i)
    ensures var d := Direction(turned, i); var exit := Exit(rows[i - 1], rows[i], half, d);
            Carry(exit, half, turned[i - 1]) == VertexOf(rows, turned, half, i)
            == Carry(exit.(x := -(half * d as real)), half, turned[i]) && exit.x == half * d as real
  {
    var d := Direction(turned, i);
    var p, q := rows[i - 1], Carry(rows[i], half, d);
    var m := half * d as real;
    WholeAdds(half, turned[i - 1], d);
    FullTurnIsStill(rows, turned, half, i);
    ShareMoved(p.x, q.x, m, Whole(half, turned[i - 1]));
    ShareReaches(p.x, q.x, m);
  }

  /** The end of a piece is on the straight line the step goes. */
  lemma ExitIsOnLine(before: Row, row: Row, half: real, d: int)
    requires |before.rest| == |row.rest| && row.x + Whole(half, d) != before.x
    ensures OnLine(before, row.(x := row.x + 2.0 * half * d as real), Exit(before, row, half, d))
  {
    var q := Carry(row, half, d);
    var m := half * d as real;
    ShareReaches(before.x, q.x, m);
    assert Whole(half, d) == 2.0 * half * d as real;
    AlongIsOnLine(before, q, Share(before.x, q.x, m));
  }

  lemma ShareMoved(from: real, to: real, edge: real, shift: real)
    requires to != from
    ensures Share(from + shift, to + shift, edge + shift) == Share(from, to, edge)
  {}

  lemma ShareReaches(from: real, to: real, edge: real)
    requires to != from
    ensures from + Share(from, to, edge) * (to - from) == edge
  {}

  lemma LaidJoined(piece: seq<Row>, row: Row, half: real, sheet: int)
    ensures Laid(piece + [row], half, sheet) == Laid(piece, half, sheet) + [Carry(row, half, sheet)]
  {}

  lemma LaidPair(p: Row, q: Row, half: real, sheet: int)
    ensures Laid([p, q], half, sheet) == [Carry(p, half, sheet), Carry(q, half, sheet)]
  {}

  lemma AllLaidJoined(pieces: seq<seq<Row>>, sheets: seq<int>, half: real, piece: seq<Row>, sheet: int)
    requires |sheets| == |pieces|
    ensures AllLaid(pieces + [piece], sheets + [sheet], half) == AllLaid(pieces, sheets, half) +
      Laid(piece, half, sheet)
  {
    assert (pieces + [piece])[..|pieces|] == pieces;
    assert (sheets + [sheet])[..|sheets|] == sheets;
  }

  ghost predicate PieceWithin(piece: seq<Row>, half: real) {
    forall i :: 0 <= i < |piece| ==> Within(piece[i].x, half)
  }

  /** Longitudes within half a turn, and never more than one turn at a step. */
  ghost predicate Ordinary(rows: seq<Row>, turned: seq<int>, half: real)
    requires |turned| == |rows|
  {
    && half > 0.0 && PieceWithin(rows, half)
    && forall i: nat :: 0 < i < |rows| ==> -1 <= Direction(turned, i) <= 1
  }

  /** A line of one part, its turns counted from the steps that cross: each is over half a turn long. */
  ghost predicate Counted(rows: seq<Row>, turned: seq<int>, crossing: seq<bool>, half: real)
    requires |turned| == |rows|
  {
    && |crossing| == |rows| && half > 0.0 && PieceWithin(rows, half)
    && forall i: nat :: 0 < i < |rows| ==> StepCounted(rows, turned, crossing, half, i)
  }

  ghost predicate StepCounted(rows: seq<Row>, turned: seq<int>, crossing: seq<bool>, half: real, i: nat)
    requires 0 < i < |rows| == |turned| == |crossing|
  {
    && Direction(turned, i) == (if !crossing[i - 1] then 0 else if rows[i].x < rows[i - 1].x then 1 else -1)
    && (crossing[i - 1] ==> Abs(rows[i].x - rows[i - 1].x) > half)
  }

  /** Step i crosses and is exactly a full turn. */
  predicate FullCrossing(rows: seq<Row>, crossing: seq<bool>, half: real, i: nat)
    requires 0 < i < |rows| == |crossing|
  {
    crossing[i - 1] && Abs(rows[i].x - rows[i - 1].x) == 2.0 * half
  }

  /** The turns counted over all positions are, on every line of one part among them, counted from its own
      steps that cross. */
  lemma TurnsAreCounted(lon: seq<real>, parts: seq<int>, crossing: seq<bool>, half: real, middle: nat -> Option<real>,
                        from: nat, rows: seq<Row>, turned: seq<int>)
    requires |lon| == |parts| == |crossing| && half > 0.0 && forall i :: 0 <= i < |lon| ==> Within(lon[i], half)
    requires forall i: nat :: i < |lon| ==> (crossing[i] <==> i + 1 < |lon| && Crosses(lon, parts, half, middle, i))
    requires |turned| == |rows| && from + |rows| <= |lon|
    requires forall i: nat :: i < |rows| ==> parts[from + i] == parts[from] && rows[i].x == lon[from + i]
    requires forall i: nat :: i < |rows| ==> turned[i] == Carried(lon, parts, crossing, from + i)
    ensures Counted(rows, turned, crossing[from..from + |rows|], half)
  {
    var own := crossing[from..from + |rows|];
    forall i: nat | 0 < i < |rows| ensures StepCounted(rows, turned, own, half, i) {
      var j: nat := i - 1;
      assert rows[j].x == lon[from + j];
      assert parts[from + i] == parts[from] == parts[from + j];
      assert own[i - 1] == crossing[from + i - 1];
    }
  }

  /** So no step is more than one turn, and one is a full turn just where it crosses and is that long. */
  lemma CountedIsOrdinary(rows: seq<Row>, turned: seq<int>, crossing: seq<bool>, half: real)
    requires |turned| == |rows| && Counted(rows, turned, crossing, half)
    ensures Ordinary(rows, turned, half)
    ensures forall i: nat :: 0 < i < |rows| ==>
      (FullTurn(rows, turned, half, i) <==> FullCrossing(rows, crossing, half, i))
    ensures forall i: nat :: 0 < i < |rows| ==> (Direction(turned, i) != 0 <==> crossing[i - 1])
  {
    forall i: nat | 0 < i < |rows|
      ensures -1 <= Direction(turned, i) <= 1 && (Direction(turned, i) != 0 <==> crossing[i - 1])
      ensures FullTurn(rows, turned, half, i) <==> FullCrossing(rows, crossing, half, i)
    {
      assert StepCounted(rows, turned, crossing, half, i);
      OneTurn(rows, turned, crossing, half, i);
    }
  }

  lemma OneTurn(rows: seq<Row>, turned: seq<int>, crossing: seq<bool>, half: real, i: nat)
    requires 0 < i < |rows| == |turned| == |crossing| && half > 0.0 && StepCounted(rows, turned, crossing, half, i)
    ensures FullTurn(rows, turned, half, i) <==> FullCrossing(rows, crossing, half, i)
  {
    assert Whole(half, 1) == 2.0 * half && Whole(half, -1) == -2.0 * half;
  }

  /** Positions half a turn east and half a turn west, the middle between them unknown: the step cannot be cut. */
  lemma SomeStepIsAFullTurn(half: real, middle: nat -> Option<real>)
    requires half > 0.0 && middle(0).None?
    ensures var lon, parts, crossing := [half, -half], [0, 0], [true, false];
            && (forall i: nat :: i < 2 ==> (crossing[i] <==> i + 1 < 2 && Crosses(lon, parts, half, middle, i)))
            && FullTurn([Row(half, 0.0, []), Row(-half, 0.0, [])],
                        [Carried(lon, parts, crossing, 0), Carried(lon, parts, crossing, 1)], half, 1)
  {
    var lon, parts, crossing := [half, -half], [0, 0], [true, false];
    assert Carried(lon, parts, crossing, 1) == Carried(lon, parts, crossing, 0) + Step(lon, crossing, 1) == 1;
    assert Whole(half, 1) == 2.0 * half;
  }

  ghost predicate AllWithin(pieces: seq<seq<Row>>, half: real) {
    forall k :: 0 <= k < |pieces| ==> PieceWithin(pieces[k], half)
  }

  ghost predicate InRange(rows: seq<Row>, turned: seq<int>, half: real, pieces: seq<seq<Row>>, current: seq<Row>)
    requires |turned| == |rows|
  {
    Ordinary(rows, turned, half) ==> AllWithin(pieces, half) && PieceWithin(current, half)
  }

  /** What has been cut after n positions: whole pieces, and the one being drawn on the last sheet. */
  ghost predicate Drawn(rows: seq<Row>, turned: seq<int>, half: real, n: nat, pieces: seq<seq<Row>>, sheets: seq<int>,
                        current: seq<Row>)
    requires Rectangular(rows) && 0 < n <= |turned| == |rows|
  {
    && Cuttable(rows, turned, half, n) && |sheets| == |pieces| && AllJoined(pieces, sheets, half)
    && AllLaid(pieces, sheets, half) + Laid(current, half, turned[n - 1]) == Trace(rows, turned, half, n)
    && current != [] && current[|current| - 1] == rows[n - 1] && InRange(rows, turned, half, pieces, current)
    && (pieces == [] ==> |current| == n)
    && (pieces != [] ==> |current| >= 2 && n > 1)
    && (pieces != [] ==> Joined(pieces[|pieces| - 1], current, half, turned[n - 1] - sheets[|sheets| - 1]))
  }

  /** A crossing ends the piece being drawn and starts the next, unless it is a full turn. */
  method Crossing(rows: seq<Row>, turned: seq<int>, half: real, index: nat, ghost pieces: seq<seq<Row>>,
                  ghost sheets: seq<int>, current: seq<Row>)
    returns (undefined: bool, piece: seq<Row>, next: seq<Row>)
    requires Rectangular(rows) && 0 < index < |turned| == |rows| && Direction(turned, index) != 0
    requires Drawn(rows, turned, half, index, pieces, sheets, current)
    ensures undefined <==> FullTurn(rows, turned, half, index)
    ensures !undefined ==>
      Drawn(rows, turned, half, index + 1, pieces + [piece], sheets + [turned[index - 1]], next)
  {
    hide Drawn, Trace, AllLaid, AllJoined, Laid, Joined, Along, VertexOf, Meets, Share, Carry, Whole;
    var direction := turned[index] - turned[index - 1];
    undefined := rows[index].x + Whole(half, direction) == rows[index - 1].x;
    if undefined {
      return undefined, [], [];
    }
    var exit := Exit(rows[index - 1], rows[index], half, direction);
    var entry := exit.(x := -(half * direction as real));
    CrossingDrawn(rows, turned, half, index, pieces, sheets, current);
    piece, next := current + [exit], [entry, rows[index]];
  }

  /** The loop: the whole pieces and the one left over, unless a step is a full turn. */
  method Drawing(rows: seq<Row>, turned: seq<int>, half: real)
    returns (undefined: bool, pieces: seq<seq<Row>>, current: seq<Row>, ghost sheets: seq<int>)
    requires rows != [] && Rectangular(rows) && |turned| == |rows|
    ensures undefined <==> !Cuttable(rows, turned, half, |rows|)
    ensures !undefined ==> Drawn(rows, turned, half, |rows|, pieces, sheets, current)
  {
    undefined, pieces, current, sheets := false, [], [rows[0]], [];
    FirstDrawn(rows, turned, half);
    hide Drawn, FullTurn, Rectangular;
    for index := 1 to |rows|
      invariant Drawn(rows, turned, half, index, pieces, sheets, current)
    {
      if turned[index] == turned[index - 1] {
        StepDrawn(rows, turned, half, index, pieces, sheets, current);
        current := current + [rows[index]];
      } else {
        var piece;
        undefined, piece, current := Crossing(rows, turned, half, index, pieces, sheets, current);
        if undefined {
          return;
        }
        pieces := pieces + [piece];
        sheets := sheets + [turned[index - 1]];
      }
    }
    DrawnIsCuttable(rows, turned, half, pieces, sheets, current);
  }

  lemma CrossingInRange(rows: seq<Row>, turned: seq<int>, half: real, i: nat, pieces: seq<seq<Row>>, current: seq<Row>,
                        exit: Row, entry: Row)
    requires 0 < i < |turned| == |rows| && Direction(turned, i) != 0 && InRange(rows, turned, half, pieces, current)
    requires exit.x == half * Direction(turned, i) as real && entry.x == -exit.x
    ensures InRange(rows, turned, half, pieces + [current + [exit]], [entry, rows[i]])
  {
    var d := Direction(turned, i);
    assert d == 1 || d == -1 ==> half * d as real == half || half * d as real == -half;
  }

  lemma DrawnIsCuttable(rows: seq<Row>, turned: seq<int>, half: real, pieces: seq<seq<Row>>, sheets: seq<int>,
                        current: seq<Row>)
    requires rows != [] && Rectangular(rows) && |turned| == |rows|
    requires Drawn(rows, turned, half, |rows|, pieces, sheets, current)
    ensures Cuttable(rows, turned, half, |rows|)
  {}

  /** Of a line whose turns were counted, what is cut: unless a step that crosses is a full turn, pieces
      within half a turn. */
  ghost predicate CutAsCounted(rows: seq<Row>, crossing: seq<bool>, half: real, r: Cut)
    requires |crossing| == |rows|
  {
    && (r.Undefined? <==> exists i: nat :: 0 < i < |rows| && FullCrossing(rows, crossing, half, i))
    && (r.Pieces? ==> AllWithin(r.pieces, half))
  }

  /** The line's pieces, from each place it goes over the antimeridian to the next, and the sheet each is on. */
  method CutLine(rows: seq<Row>, turned: seq<int>, half: real, ghost crossing: seq<bool>)
    returns (r: Cut, ghost sheets: seq<int>)
    requires rows != [] && Rectangular(rows) && |turned| == |rows|
    ensures r.Undefined? <==> !Cuttable(rows, turned, half, |rows|)
    ensures r.Pieces? && |rows| == 1 ==> r.pieces == []
    ensures r.Pieces? && |rows| > 1 ==> AllJoined(r.pieces, sheets, half)
    ensures r.Pieces? && |rows| > 1 ==> AllLaid(r.pieces, sheets, half) == Trace(rows, turned, half, |rows|)
    ensures Counted(rows, turned, crossing, half) ==> CutAsCounted(rows, crossing, half, r)
  {
    var undefined, pieces, current;
    undefined, pieces, current, sheets := Drawing(rows, turned, half);
    if Counted(rows, turned, crossing, half) {
      CountedIsOrdinary(rows, turned, crossing, half);
    }
    hide Trace, AllLaid, Counted, FullCrossing, FullTurn;
    if undefined {
      return Undefined, [];
    }
    AllDrawn(rows, turned, half, pieces, sheets, current);
    sheets := sheets + [turned[|rows| - 1]];
    var kept := LongEnough(pieces + [current]);
    r := Pieces(kept);
  }

  /** The pieces of more than one position. */
  method LongEnough(pieces: seq<seq<Row>>) returns (kept: seq<seq<Row>>)
    ensures (forall k :: 0 <= k < |pieces| ==> |pieces[k]| > 1) ==> kept == pieces
    ensures (forall k :: 0 <= k < |pieces| ==> |pieces[k]| <= 1) ==> kept == []
    ensures forall k :: 0 <= k < |kept| ==> |kept[k]| > 1 && kept[k] in pieces
  {
    kept := [];
    for k := 0 to |pieces|
      invariant (forall j :: 0 <= j < k ==> |pieces[j]| > 1) ==> kept == pieces[..k]
      invariant (forall j :: 0 <= j < k ==> |pieces[j]| <= 1) ==> kept == []
      invariant forall j :: 0 <= j < |kept| ==> |kept[j]| > 1 && kept[j] in pieces
    {
      if |pieces[k]| > 1 {
        kept := kept + [pieces[k]];
      }
    }
  }

  lemma AllDrawn(rows: seq<Row>, turned: seq<int>, half: real, pieces: seq<seq<Row>>, sheets: seq<int>,
                 current: seq<Row>)
    requires rows != [] && Rectangular(rows) && |turned| == |rows|
    requires Drawn(rows, turned, half, |rows|, pieces, sheets, current)
    ensures var all := pieces + [current]; var on := sheets + [turned[|rows| - 1]];
            Cuttable(rows, turned, half, |rows|) && (Ordinary(rows, turned, half) ==> AllWithin(all, half))
            && if |rows| == 1 then pieces == [] && |current| == 1
            else AllJoined(all, on, half) && AllLaid(all, on, half) == Trace(rows, turned, half, |rows|)
  {
    hide Trace, AllLaid, Laid, Joined, Carry;
    AllLaidJoined(pieces, sheets, half, current, turned[|rows| - 1]);
  }

  lemma FirstDrawn(rows: seq<Row>, turned: seq<int>, half: real)
    requires rows != [] && Rectangular(rows) && |turned| == |rows|
    ensures Drawn(rows, turned, half, 1, [], [], [rows[0]])
  {
    assert Laid([rows[0]], half, turned[0]) == [Carry(rows[0], half, turned[0])];
    assert Trace(rows, turned, half, 0) == [];
  }

  lemma StepDrawn(rows: seq<Row>, turned: seq<int>, half: real, n: nat, pieces: seq<seq<Row>>, sheets: seq<int>,
                  current: seq<Row>)
    requires Rectangular(rows) && 0 < n < |turned| == |rows| && turned[n] == turned[n - 1]
    requires Drawn(rows, turned, half, n, pieces, sheets, current)
    ensures Drawn(rows, turned, half, n + 1, pieces, sheets, current + [rows[n]])
  {
    hide Carry, AllLaid, Laid, AllJoined, Trace, FullTurn, InRange, Direction;
    StepInRange(rows, turned, half, n, pieces, current);
    StepTraced(rows, turned, half, n);
    LaidJoined(current, rows[n], half, turned[n]);
    Associative(AllLaid(pieces, sheets, half), Laid(current, half, turned[n]), [Carry(rows[n], half, turned[n])]);
  }

  lemma StepInRange(rows: seq<Row>, turned: seq<int>, half: real, n: nat, pieces: seq<seq<Row>>, current: seq<Row>)
    requires n < |turned| == |rows| && InRange(rows, turned, half, pieces, current)
    ensures InRange(rows, turned, half, pieces, current + [rows[n]])
  {}

  lemma Associative(a: seq<Row>, b: seq<Row>, c: seq<Row>)
    ensures a + (b + c) == (a + b) + c
  {}

  lemma StepTraced(rows: seq<Row>, turned: seq<int>, half: real, n: nat)
    requires Rectangular(rows) && 0 < n < |turned| == |rows| && turned[n] == turned[n - 1] &&
      Cuttable(rows, turned, half, n)
    ensures Cuttable(rows, turned, half, n + 1)
    ensures Trace(rows, turned, half, n + 1) == Trace(rows, turned, half, n) + [Carry(rows[n], half, turned[n])]
  {
    hide VertexOf, Carry;
  }

  lemma CrossingDrawn(rows: seq<Row>, turned: seq<int>, half: real, n: nat, pieces: seq<seq<Row>>, sheets: seq<int>,
                      current: seq<Row>)
    requires Rectangular(rows) && 0 < n < |turned| == |rows| && Direction(turned, n) != 0 &&
      !FullTurn(rows, turned, half, n)
    requires Drawn(rows, turned, half, n, pieces, sheets, current)
    ensures var d := Direction(turned, n); var exit := Exit(rows[n - 1], rows[n], half, d);
            Drawn(rows, turned, half, n + 1, pieces + [current + [exit]], sheets + [turned[n - 1]],
                  [exit.(x := -(half * d as real)), rows[n]])
  {
    hide Carry, Exit, VertexOf, AllLaid, Laid, AllJoined, Joined, Trace, InRange;
    var d := Direction(turned, n);
    var exit := Exit(rows[n - 1], rows[n], half, d);
    EndsAreTheVertex(rows, turned, half, n);
    CrossingInRange(rows, turned, half, n, pieces, current, exit, exit.(x := -(half * d as real)));
    CrossingTraced(rows, turned, half, n, pieces, sheets, current);
    ExitIsOnLine(rows[n - 1], rows[n], half, d);
    CrossingJoined(pieces, sheets, half, current, exit, exit.(x := -(half * d as real)), rows[n], turned[n - 1], d);
  }

  lemma CrossingTraced(rows: seq<Row>, turned: seq<int>, half: real, n: nat, pieces: seq<seq<Row>>, sheets: seq<int>,
                       current: seq<Row>)
    requires Rectangular(rows) && 0 < n < |turned| == |rows| && Direction(turned, n) != 0 &&
      !FullTurn(rows, turned, half, n)
    requires Cuttable(rows, turned, half, n) && |sheets| == |pieces|
    requires AllLaid(pieces, sheets, half) + Laid(current, half, turned[n - 1]) == Trace(rows, turned, half, n)
    ensures Cuttable(rows, turned, half, n + 1)
    ensures var d := Direction(turned, n); var exit := Exit(rows[n - 1], rows[n], half, d);
            AllLaid(pieces + [current + [exit]], sheets + [turned[n - 1]], half) +
                Laid([exit.(x := -(half * d as real)), rows[n]], half, turned[n])
            == Trace(rows, turned, half, n + 1)
  {
    TraceNext(rows, turned, half, n);
    hide Carry, Exit, VertexOf, AllLaid, Trace, Leg, Along;
    var d := Direction(turned, n);
    var exit := Exit(rows[n - 1], rows[n], half, d);
    var entry := exit.(x := -(half * d as real));
    EndsAreTheVertex(rows, turned, half, n);
    LaidJoined(current, exit, half, turned[n - 1]);
    AllLaidJoined(pieces, sheets, half, current + [exit], turned[n - 1]);
    var vertex, row := VertexOf(rows, turned, half, n), Carry(rows[n], half, turned[n]);
    LaidPair(entry, rows[n], half, turned[n]);
    Rejoined(AllLaid(pieces, sheets, half), Laid(current, half, turned[n - 1]), vertex, row);
  }

  lemma TraceNext(rows: seq<Row>, turned: seq<int>, half: real, n: nat)
    requires Rectangular(rows) && 0 < n < |turned| == |rows| && Direction(turned, n) != 0 &&
      !FullTurn(rows, turned, half, n)
    requires Cuttable(rows, turned, half, n)
    ensures Cuttable(rows, turned, half, n + 1)
    ensures var vertex := VertexOf(rows, turned, half, n);
            Trace(rows, turned, half, n + 1) == Trace(rows, turned, half, n) +
                [vertex, vertex, Carry(rows[n], half, turned[n])]
  {
    hide VertexOf, FullTurn, Carry;
  }

  lemma Rejoined(a: seq<Row>, b: seq<Row>, vertex: Row, row: Row)
    ensures (a + (b + [vertex])) + [vertex, row] == (a + b) + [vertex, vertex, row]
  {}

  lemma CrossingJoined(pieces: seq<seq<Row>>, sheets: seq<int>, half: real, current: seq<Row>, exit: Row, entry: Row,
                       row: Row, sheet: int, d: int)
    requires AllJoined(pieces, sheets, half) && current != [] && d != 0 && (pieces != [] ==> |current| >= 2)
    requires pieces != [] ==> Joined(pieces[|pieces| - 1], current, half, sheet - sheets[|sheets| - 1])
    requires exit.x == half * d as real && entry == exit.(x := -(half * d as real))
    requires OnLine(current[|current| - 1], row.(x := row.x + 2.0 * half * d as real), exit)
    ensures AllJoined(pieces + [current + [exit]], sheets + [sheet], half)
    ensures Joined(current + [exit], [entry, row], half, d)
  {
    hide OnLine;
    var all, on := pieces + [current + [exit]], sheets + [sheet];
    forall k | 0 < k < |all| ensures Joined(all[k - 1], all[k], half, on[k] - on[k - 1]) {
      if k == |pieces| {
        assert all[k][1] == current[1];
      }
    }
  }

  // ----- the vertices

  /** The share of a step that crosses is between none and all of it. */
  lemma ShareIsAPart(rows: seq<Row>, turned: seq<int>, crossing: seq<bool>, half: real, i: nat)
    requires 0 < i < |turned| == |rows| && Counted(rows, turned, crossing, half)
    requires crossing[i - 1] && !FullCrossing(rows, crossing, half, i)
    ensures var d := Direction(turned, i);
            && d != 0 && !FullTurn(rows, turned, half, i)
            && 0.0 <= Share(rows[i - 1].x, rows[i].x + Whole(half, d), half * d as real) <= 1.0
  {
    CountedIsOrdinary(rows, turned, crossing, half);
    OrdinaryShare(rows, turned, half, i);
  }

  lemma OrdinaryShare(rows: seq<Row>, turned: seq<int>, half: real, i: nat)
    requires 0 < i < |turned| == |rows| && Direction(turned, i) != 0
    requires Ordinary(rows, turned, half) && !FullTurn(rows, turned, half, i)
    ensures 0.0 <= Share(rows[i - 1].x, rows[i].x + Whole(half, Direction(turned, i)),
                         half * Direction(turned, i) as real) <= 1.0
  {
    var d := Direction(turned, i);
    var from, to := rows[i - 1].x, rows[i].x + Whole(half, d);
    if d == 1 {
      assert Whole(half, d) == 2.0 * half;
      Quotient(half - from, to - from);
    } else {
      assert Whole(half, d) == -2.0 * half && half * d as real == -half;
      Quotient(from + half, from - to);
      Negated(from + half, from - to);
    }
  }

  lemma Quotient(part: real, whole: real)
    requires 0.0 <= part <= whole && whole > 0.0
    ensures 0.0 <= part / whole <= 1.0
  {}

  lemma Negated(part: real, whole: real)
    requires whole != 0.0
    ensures part / whole == (-part) / (-whole)
  {}

  /** The vertices are where the unwrapped line passes a meridian an odd number of half turns round. */
  lemma VertexOnTheMeridian(rows: seq<Row>, turned: seq<int>, half: real, i: nat)
    requires Rectangular(rows) && 0 < i < |turned| == |rows| && Direction(turned, i) != 0 &&
      !FullTurn(rows, turned, half, i)
    ensures VertexOf(rows, turned, half, i).x == half * (turned[i - 1] + turned[i]) as real
  {
    var d := Direction(turned, i);
    var p, q := Carry(rows[i - 1], half, turned[i - 1]), Carry(rows[i], half, turned[i]);
    FullTurnIsStill(rows, turned, half, i);
    ShareReaches(p.x, q.x, Whole(half, turned[i - 1]) + half * d as real);
    MiddleMeridian(half, turned[i - 1], d);
  }

  lemma MiddleMeridian(half: real, m: int, d: int)
    ensures Whole(half, m) + half * d as real == half * (m + (m + d)) as real
  {
    assert (m + (m + d)) as real == m as real + m as real + d as real;
  }

  // ----- _ring

  function Greatest(rows: seq<Row>): (y: real)
    requires rows != []
    ensures (forall r :: r in rows ==> r.y <= y) && exists r :: r in rows && r.y == y
  {
    if |rows| == 1 then rows[0].y else
      var most := Greatest(rows[..|rows| - 1]);
      assert rows == rows[..|rows| - 1] + [rows[|rows| - 1]];
      if rows[|rows| - 1].y > most then rows[|rows| - 1].y else most
  }

  function Least(rows: seq<Row>): (y: real)
    requires rows != []
    ensures (forall r :: r in rows ==> y <= r.y) && exists r :: r in rows && r.y == y
  {
    if |rows| == 1 then rows[0].y else
      var least := Least(rows[..|rows| - 1]);
      assert rows == rows[..|rows| - 1] + [rows[|rows| - 1]];
      if rows[|rows| - 1].y < least then rows[|rows| - 1].y else least
  }

  /** The latitude of the pole on the ring's side of the equator. */
  function NearPole(rows: seq<Row>, pole: real): real
    requires rows != []
  {
    if Greatest(rows) + Least(rows) > 0.0 then pole else -pole
  }

  /** Some position is farther north than any is south. */
  ghost predicate ReachesNorth(rows: seq<Row>) {
    exists i :: 0 <= i < |rows| && forall j :: 0 <= j < |rows| ==> rows[i].y + rows[j].y > 0.0
  }

  lemma GreatestAt(rows: seq<Row>) returns (i: nat)
    requires rows != []
    ensures i < |rows| && rows[i].y == Greatest(rows)
  {
    if |rows| == 1 || rows[|rows| - 1].y > Greatest(rows[..|rows| - 1]) {
      i := |rows| - 1;
    } else {
      i := GreatestAt(rows[..|rows| - 1]);
    }
  }

  lemma LeastAt(rows: seq<Row>) returns (i: nat)
    requires rows != []
    ensures i < |rows| && rows[i].y == Least(rows)
  {
    if |rows| == 1 || rows[|rows| - 1].y < Least(rows[..|rows| - 1]) {
      i := |rows| - 1;
    } else {
      i := LeastAt(rows[..|rows| - 1]);
    }
  }

  lemma NearPoleIsReached(rows: seq<Row>, pole: real)
    requires rows != []
    ensures NearPole(rows, pole) == if ReachesNorth(rows) then pole else -pole
  {
    var most := GreatestAt(rows);
    var least := LeastAt(rows);
    var greatest, smallest := Greatest(rows), Least(rows);
    assert forall i :: 0 <= i < |rows| ==> rows[i] in rows && smallest <= rows[i].y <= greatest;
    hide Greatest, Least;
    assert rows[most].y + rows[least].y == greatest + smallest;
  }

  ghost predicate IsRingOn(rows: seq<Row>, turned: seq<int>, sheet: int, half: real, pole: real, out: seq<Row>)
    requires rows != [] && |turned| == |rows|
  {
    && |out| == |rows| + (if turned[|rows| - 1] == turned[0] then 0 else 3)
    && (forall i :: 0 <= i < |rows| ==> out[i] == Carry(rows[i], half, turned[i] - sheet))
    && (|out| > |rows| ==>
        var latitude := NearPole(rows, pole);
        out[|rows|..] == [out[|rows| - 1].(y := latitude), out[0].(y := latitude), out[0]])
  }

  /** A closed ring is closed on every sheet, whether or not it winds round a pole; through a pole it
      goes along its own two meridians, a whole number of turns apart. */
  lemma RingCloses(rows: seq<Row>, turned: seq<int>, sheet: int, half: real, pole: real, out: seq<Row>)
    requires rows != [] && |turned| == |rows| && IsRingOn(rows, turned, sheet, half, pole, out)
    requires rows[|rows| - 1] == rows[0]
    ensures out[|out| - 1] == out[0]
    ensures out[|rows| - 1].x - out[0].x == Whole(half, turned[|rows| - 1] - turned[0])
  {
    var last := |rows| - 1;
    WholeAdds(half, turned[0] - sheet, turned[last] - turned[0]);
    if |out| > |rows| {
      assert out[|out| - 1] == out[|rows|..][2];
    }
  }

  /** The ring on another sheet is the same ring, whole turns away: what cutting along the sheets relies on. */
  lemma SheetsAreTranslates(rows: seq<Row>, turned: seq<int>, sheet: int, other: int, half: real, pole: real,
                            a: seq<Row>, b: seq<Row>)
    requires rows != [] && |turned| == |rows|
    requires IsRingOn(rows, turned, sheet, half, pole, a) && IsRingOn(rows, turned, other, half, pole, b)
    ensures |a| == |b| && forall i :: 0 <= i < |a| ==> b[i] == Carry(a[i], half, sheet - other)
  {
    hide Carry, NearPole, Greatest, Least, Whole;
    var last := |rows| - 1;
    forall i | 0 <= i < |rows| ensures b[i] == Carry(a[i], half, sheet - other) {
      CarriedOn(rows[i], half, turned[i] - sheet, sheet - other);
    }
    if |a| > |rows| {
      ThroughThePole(rows, turned, sheet, half, pole, a);
      ThroughThePole(rows, turned, other, half, pole, b);
      CarriedAlong(a[last], half, sheet - other, NearPole(rows, pole));
      CarriedAlong(a[0], half, sheet - other, NearPole(rows, pole));
    }
  }

  lemma CarriedOn(row: Row, half: real, m: int, n: int)
    ensures Carry(Carry(row, half, m), half, n) == Carry(row, half, m + n)
  {
    WholeAdds(half, m, n);
  }

  lemma CarriedAlong(row: Row, half: real, n: int, y: real)
    ensures Carry(row.(y := y), half, n) == Carry(row, half, n).(y := y)
  {}

  /** A ring that winds round a pole goes through the one on the side of the equator it reaches farther. */
  lemma GoesThroughTheNearerPole(rows: seq<Row>, turned: seq<int>, sheet: int, half: real, pole: real, out: seq<Row>)
    requires rows != [] && |turned| == |rows| && IsRingOn(rows, turned, sheet, half, pole, out)
    ensures |out| > |rows| <==> turned[|rows| - 1] != turned[0]
    ensures |out| > |rows| ==>
      |out| == |rows| + 3 && out[|rows|].y == out[|rows| + 1].y == if ReachesNorth(rows) then pole else -pole
  {
    hide NearPole, ReachesNorth, Carry;
    if |out| > |rows| {
      NearPoleIsReached(rows, pole);
      ThroughThePole(rows, turned, sheet, half, pole, out);
    }
  }

  /** The three positions a ring is closed through a pole by. */
  lemma ThroughThePole(rows: seq<Row>, turned: seq<int>, sheet: int, half: real, pole: real, out: seq<Row>)
    requires rows != [] && |turned| == |rows| && IsRingOn(rows, turned, sheet, half, pole, out) && |out| > |rows|
    ensures var n := |rows|; var latitude := NearPole(rows, pole);
            |out| == n + 3 && out[n] == out[n - 1].(y := latitude) && out[n + 1] == out[0].(y := latitude) &&
                out[n + 2] == out[0]
  {
    var tail := out[|rows|..];
    assert out[|rows|] == tail[0] && out[|rows| + 1] == tail[1] && out[|rows| + 2] == tail[2];
  }

  /** A ring's positions on a sheet, through a pole it winds round. */
  method RingOn(rows: seq<Row>, turned: seq<int>, sheet: int, half: real, pole: real) returns (out: seq<Row>)
    requires rows != [] && |turned| == |rows|
    ensures IsRingOn(rows, turned, sheet, half, pole, out)
    ensures forall i :: 0 <= i < |rows| && turned[i] == sheet ==> out[i] == rows[i]
  {
    out := rows;
    for i := 0 to |rows|
      invariant |out| == |rows|
      invariant forall j :: 0 <= j < i ==> out[j] == Carry(rows[j], half, turned[j] - sheet)
      invariant forall j :: i <= j < |rows| ==> out[j] == rows[j]
    {
      if turned[i] != sheet {
        out := out[i := rows[i].(x := rows[i].x + 2.0 * half * (turned[i] - sheet) as real)];
      } else {
        assert Whole(half, 0) == 0.0;
      }
    }
    assert Whole(half, 0) == 0.0;
    if turned[|rows| - 1] != turned[0] {
      var latitude := NearPole(rows, pole);
      out := out + [out[|rows| - 1].(y := latitude), out[0].(y := latitude), out[0]];
    }
  }
}
