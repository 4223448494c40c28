module Failures {
  // Finding the rows a transformation fails for (geodetic_engine/geodesy/_failures.py).
  //
  // Three strategies share one promise: the outcome is that of transforming every row
  // alone. The promise rests on the two properties the source states of
  // `transform_arrays`: a batch fails exactly when it holds a failing row, or when it
  // fails for a reason that has nothing to do with its rows; and a row's values do not
  // depend on its batch. `TransformArrays` has those two properties by construction.

  import opened Numbers
  import opened Options

  const SMALL_PART := 8

  datatype Value = NaN | Number(value: real)

  type Row = seq<Value>

  /** What transforming a row on its own gives. */
  datatype Alone = Moved(values: seq<Value>) | Refused(error: string)

  /** What the marking pass says of a row: it may be wrong either way. */
  datatype Mark = Failed | Passed(values: seq<Value>)

  datatype Failure = Failure(index: nat, error: string)

  datatype Transformation = Transformation(
    width: nat,                    // values per transformed row
    alone: Row -> Alone,           // each row transformed on its own
    always: Option<string>,        // a failure no row is to blame for
    mark: seq<Row> -> seq<Mark>)   // the pass that marks failing rows

  ghost predicate Consistent(t: Transformation) {
    && (forall row: Row :: t.alone(row).Moved? ==> |t.alone(row).values| == t.width)
    && (forall rows: seq<Row> :: |t.mark(rows)| == |rows|)
    && (forall rows: seq<Row>, r: nat ::
          r < |t.mark(rows)| && t.mark(rows)[r].Passed? ==> |t.mark(rows)[r].values| == t.width)
  }

  /** One column per output axis, or the failure of the batch. */
  datatype Batch = Columns(columns: seq<seq<Value>>) | Raised(error: string)

  function FirstRefused(t: Transformation, rows: seq<Row>): (r: nat)
    ensures r <= |rows|
    ensures forall i :: 0 <= i < r ==> t.alone(rows[i]).Moved?
    ensures r < |rows| ==> t.alone(rows[r]).Refused?
  {
    if rows == [] then 0
    else if t.alone(rows[0]).Refused? then 0
    else 1 + FirstRefused(t, rows[1..])
  }

  function Column(t: Transformation, rows: seq<Row>, k: nat): (c: seq<Value>)
    requires Consistent(t) && k < t.width
    requires FirstRefused(t, rows) == |rows|
    ensures |c| == |rows|
    ensures forall r :: 0 <= r < |rows| ==> c[r] == t.alone(rows[r]).values[k]
  {
    seq(|rows|, r requires 0 <= r < |rows| => t.alone(rows[r]).values[k])
  }

  function TransformArrays(t: Transformation, rows: seq<Row>): (b: Batch)
    requires Consistent(t)
    ensures b.Raised? <==> t.always.Some? || exists r :: 0 <= r < |rows| && t.alone(rows[r]).Refused?
    ensures b.Columns? ==> |b.columns| == t.width && forall k :: 0 <= k < t.width ==>
      |b.columns[k]| == |rows| && forall r :: 0 <= r < |rows| ==> b.columns[k][r] == t.alone(rows[r]).values[k]
  {
    if t.always.Some? then Raised(t.always.value)
    else
      var first := FirstRefused(t, rows);
      if first < |rows| then Raised(t.alone(rows[first]).error)
      else Columns(seq(t.width, k requires 0 <= k < t.width => Column(t, rows, k)))
  }

  // ----- the reference: every row alone

  function Cell(t: Transformation, row: Row, k: nat): Value
    requires Consistent(t) && k < t.width
  {
    match t.alone(row)
    case Moved(values) => values[k]
    case Refused(_) => NaN
  }

  /** The failing rows among the first `count`, in order. */
  function Failing(t: Transformation, rows: seq<Row>, count: nat): (f: seq<Failure>)
    requires count <= |rows|
    ensures |f| <= count
  {
    if count == 0 then [] else
      var before := Failing(t, rows, count - 1);
      match t.alone(rows[count - 1])
      case Moved(_) => before
      case Refused(error) => before + [Failure(count - 1, error)]
  }

  /** The reference list holds exactly the refused rows, each once, in ascending order. */
  lemma {:induction false} FailingIsExact(t: Transformation, rows: seq<Row>, count: nat)
    requires count <= |rows|
    ensures forall i :: 0 <= i < |Failing(t, rows, count)| ==>
      var f := Failing(t, rows, count)[i];
      f.index < count && t.alone(rows[f.index]) == Refused(f.error)
    ensures forall i, j :: 0 <= i < j < |Failing(t, rows, count)| ==>
      Failing(t, rows, count)[i].index < Failing(t, rows, count)[j].index
    ensures forall r :: 0 <= r < count && t.alone(rows[r]).Refused? ==>
      Failure(r, t.alone(rows[r]).error) in Failing(t, rows, count)
  {
    if count > 0 {
      FailingIsExact(t, rows, count - 1);
    }
  }

  lemma {:induction false} FailingPrefix(t: Transformation, rows: seq<Row>, some: nat, count: nat)
    requires some <= count <= |rows|
    ensures Failing(t, rows, some) <= Failing(t, rows, count)
    ensures (forall r :: some <= r < count ==> t.alone(rows[r]).Moved?) ==>
      Failing(t, rows, some) == Failing(t, rows, count)
    decreases count
  {
    if some < count {
      FailingPrefix(t, rows, some, count - 1);
    }
  }

  // ----- the columns, filled in place

  /** Every cell of the rows below `done` is that of the row alone. */
  ghost predicate Right(t: Transformation, rows: seq<Row>, columns: array2<Value>, from: nat, to: nat)
    requires Consistent(t)
    reads columns
  {
    && columns.Length0 == t.width && columns.Length1 == |rows|
    && to <= |rows|
    && forall k, r :: 0 <= k < t.width && from <= r < to ==> columns[k, r] == Cell(t, rows[r], k)
  }

  ghost predicate Blank(columns: array2<Value>, from: nat)
    reads columns
  {
    forall k, r :: 0 <= k < columns.Length0 && from <= r < columns.Length1 ==> columns[k, r] == NaN
  }

  /** Write the values of the rows from `start` on. */
  method Fill(columns: array2<Value>, start: nat, values: seq<seq<Value>>, size: nat)
    requires |values| == columns.Length0 && start + size <= columns.Length1
    requires forall k :: 0 <= k < |values| ==> |values[k]| == size
    modifies columns
    ensures forall k, r :: 0 <= k < columns.Length0 && 0 <= r < columns.Length1 ==>
      columns[k, r] == if start <= r < start + size then values[k][r - start] else old(columns[k, r])
  {
    for k := 0 to |values|
      invariant forall i, r :: 0 <= i < columns.Length0 && 0 <= r < columns.Length1 ==>
        columns[i, r] == if i < k && start <= r < start + size then values[i][r - start] else old(columns[i, r])
    {
      for j := 0 to size
        invariant forall i, r :: 0 <= i < columns.Length0 && 0 <= r < columns.Length1 ==>
          columns[i, r] == if (i < k && start <= r < start + size) || (i == k && start <= r < start + j)
                           then values[i][r - start] else old(columns[i, r])
      {
        columns[k, start + j] := values[k][j];
      }
    }
  }

  // ----- halving

  type Span = (nat, nat)

  /** The stack, read from its top, is an ordered partition of the rows from `done` on. */
  ghost predicate Partition(pending: seq<Span>, done: nat, count: nat) {
    if pending == [] then done == count
    else
      var top := pending[|pending| - 1];
      top.0 == done < top.1 && Partition(pending[..|pending| - 1], top.1, count)
  }

  /** Calls left at most: a span of n rows costs 2n - 1. */
  ghost function Work(pending: seq<Span>): int {
    if pending == [] then 0
    else
      var top := pending[|pending| - 1];
      2 * (top.1 - top.0) - 1 + Work(pending[..|pending| - 1])
  }

  lemma {:induction false} PartitionBound(pending: seq<Span>, done: nat, count: nat)
    requires Partition(pending, done, count)
    ensures done <= count && Work(pending) >= 0
    ensures pending != [] ==> done < count
  {
    if pending != [] {
      var top := pending[|pending| - 1];
      PartitionBound(pending[..|pending| - 1], top.1, count);
    }
  }

  lemma PartitionPush(pending: seq<Span>, top: Span, count: nat)
    requires top.0 < top.1 && Partition(pending, top.1, count)
    ensures Partition(pending + [top], top.0, count)
    ensures Work(pending + [top]) == Work(pending) + 2 * (top.1 - top.0) - 1
  {
    assert (pending + [top])[..|pending|] == pending;
  }

  /** The rows of a small failing part, last first, as the stack takes them. */
  method PushSingles(pending: seq<Span>, start: nat, stop: nat, ghost count: nat) returns (grown: seq<Span>)
    requires start < stop && Partition(pending, stop, count)
    ensures Partition(grown, start, count)
    ensures Work(grown) == Work(pending) + (stop - start)
  {
    grown := pending;
    var row := stop;
    while row > start
      invariant start <= row <= stop
      invariant Partition(grown, row, count)
      invariant Work(grown) == Work(pending) + (stop - row)
    {
      PartitionPush(grown, (row - 1, row), count);
      row := row - 1;
      grown := grown + [(row, row + 1)];
    }
  }

  /** Keep the values of a part that succeeds. */
  method Keep(t: Transformation, rows: seq<Row>, columns: array2<Value>, start: nat, stop: nat, values: seq<seq<Value>>)
    requires Consistent(t) && start <= stop <= |rows|
    requires TransformArrays(t, rows[start..stop]) == Columns(values)
    requires Right(t, rows, columns, 0, start) && Blank(columns, start)
    modifies columns
    ensures Right(t, rows, columns, 0, stop) && Blank(columns, stop)
    ensures Failing(t, rows, stop) == Failing(t, rows, start)
  {
    ghost var part := rows[start..stop];
    Fill(columns, start, values, stop - start);
    forall r | start <= r < stop
      ensures t.alone(rows[r]).Moved? && forall k :: 0 <= k < t.width ==> values[k][r - start] == Cell(t, rows[r], k)
    {
      assert rows[r] == part[r - start];
    }
    FailingPrefix(t, rows, start, stop);
  }

  datatype Outcome =
    | Isolated(columns: array2<Value>, failures: seq<Failure>)
    | TooManyFailures(failures: seq<Failure>)
    | Unrelated(error: string)      // what the probe raises
    | NegativeCap

  ghost predicate Within(cap: Option<int>, failures: seq<Failure>) {
    cap.None? || |failures| <= cap.value
  }

  /** No rows at all fail only where everything does. */
  lemma NoRows(t: Transformation)
    requires Consistent(t)
    ensures TransformArrays(t, []) == if t.always.Some? then Raised(t.always.value) else
      Columns(TransformArrays(t, []).columns)
  {}

  /** The first rows to try are all of them. */
  lemma Unstarted(t: Transformation, rows: seq<Row>, columns: array2<Value>)
    requires Consistent(t) && columns.Length0 == t.width && columns.Length1 == |rows|
    requires forall k, r :: 0 <= k < t.width && 0 <= r < |rows| ==> columns[k, r] == NaN
    ensures Partition(if |rows| > 0 then [(0, |rows|)] else [], 0, |rows|)
    ensures Right(t, rows, columns, 0, 0) && Blank(columns, 0) && Failing(t, rows, 0) == []
  {
    assert [(0, |rows|)][..0] == [];
  }

  lemma Unfinished(done: nat, count: nat)
    requires Partition([], done, count)
    ensures done == count
  {}

  /** The part at the top of the stack comes next, and costs work. */
  lemma Popped(pending: seq<Span>, done: nat, count: nat)
    requires pending != [] && Partition(pending, done, count)
    ensures var top, rest := pending[|pending| - 1], pending[..|pending| - 1];
      && top.0 == done < top.1 <= count && Partition(rest, top.1, count)
      && Work(pending) == 2 * (top.1 - top.0) - 1 + Work(rest) && Work(rest) >= 0
  {
    PartitionBound(pending[..|pending| - 1], pending[|pending| - 1].1, count);
  }

  /** A row that fails alone is one more failure, and its cells stay NaN. */
  lemma OneFails(t: Transformation, rows: seq<Row>, columns: array2<Value>, row: nat)
    requires Consistent(t) && row < |rows| && t.alone(rows[row]).Refused?
    requires Right(t, rows, columns, 0, row) && Blank(columns, row)
    ensures Right(t, rows, columns, 0, row + 1) && Blank(columns, row + 1)
    ensures Failing(t, rows, row + 1) == Failing(t, rows, row) + [Failure(row, t.alone(rows[row]).error)]
  {
    hide Consistent;
  }

  /** A batch of one row fails with that row's own error. */
  lemma OneRow(t: Transformation, row: Row)
    requires Consistent(t) && t.always.None?
    ensures TransformArrays(t, [row]).Raised? <==> t.alone(row).Refused?
    ensures t.alone(row).Refused? ==> TransformArrays(t, [row]) == Raised(t.alone(row).error)
  {
    assert FirstRefused(t, [row]) < 1 ==> t.alone([row][0]).Refused?;
  }

  /** The outcome is that of every row alone, up to the cap. */
  ghost predicate IsReference(t: Transformation, rows: seq<Row>, cap: Option<int>, o: Outcome)
    requires Consistent(t)
    reads if o.Isolated? then {o.columns} else {}
  {
    var all := Failing(t, rows, |rows|);
    match o
    case Isolated(columns, failures) => Within(cap, all) && failures == all && Right(t, rows, columns, 0, |rows|)
    case TooManyFailures(failures) =>
      !Within(cap, all) && 0 <= cap.value && failures == all[..cap.value + 1]
    case _ => false
  }

  method Halved(t: Transformation, rows: seq<Row>, smallPart: int, cap: Option<int>) returns (o: Outcome)
    requires Consistent(t) && t.always.None?
    requires cap.Some? ==> cap.value >= 0
    ensures IsReference(t, rows, cap, o)
    ensures o.Isolated? ==> fresh(o.columns)
  {
    hide TransformArrays, FirstRefused, Column, Consistent, Right, Blank, Failing, Partition, Work;
    var count := |rows|;
    var columns := new Value[t.width, count]((_, _) => NaN);
    var failures: seq<Failure> := [];
    var pending: seq<Span> := if count > 0 then [(0, count)] else [];
    ghost var done := 0;
    Unstarted(t, rows, columns);
    while pending != []
      invariant fresh(columns)
      invariant Partition(pending, done, count) && done <= count
      invariant Right(t, rows, columns, 0, done) && Blank(columns, done)
      invariant failures == Failing(t, rows, done) && Within(cap, failures)
      decreases Work(pending)
    {
      Popped(pending, done, count);
      var (start, stop) := pending[|pending| - 1];
      pending := pending[..|pending| - 1];
      var part := rows[start..stop];
      match TransformArrays(t, part)
      case Raised(error) =>
        var size := stop - start;
        if size == 1 {
          assert part == [rows[start]];
          OneRow(t, rows[start]);
          OneFails(t, rows, columns, start);
          failures := failures + [Failure(start, error)];
          done := stop;
          if cap.Some? && |failures| > cap.value {
            FailingPrefix(t, rows, done, count);
            return TooManyFailures(failures);
          }
        } else if size <= smallPart {
          pending := PushSingles(pending, start, stop, count);
        } else {
          var middle := (start + stop) / 2;
          PartitionPush(pending, (middle, stop), count);
          PartitionPush(pending + [(middle, stop)], (start, middle), count);
          pending := pending + [(middle, stop)] + [(start, middle)];
        }
      case Columns(values) =>
        Keep(t, rows, columns, start, stop, values);
        done := stop;
    }
    Unfinished(done, count);
    return Isolated(columns, failures);
  }

  // ----- the marking pass

  /** The rows the marking lets through among the first `count`, in order. */
  function Unmarked(marks: seq<Mark>, count: nat): (at: seq<nat>)
    requires count <= |marks|
    ensures forall j :: 0 <= j < |at| ==> at[j] < count && marks[at[j]].Passed?
    ensures forall i, j :: 0 <= i < j < |at| ==> at[i] < at[j]
    ensures forall r :: 0 <= r < count && marks[r].Passed? ==> r in at
  {
    if count == 0 then []
    else if marks[count - 1].Passed? then Unmarked(marks, count - 1) + [count - 1]
    else Unmarked(marks, count - 1)
  }

  function Picked(rows: seq<Row>, at: seq<nat>): (p: seq<Row>)
    requires forall j :: 0 <= j < |at| ==> at[j] < |rows|
    ensures |p| == |at| && forall j :: 0 <= j < |at| ==> p[j] == rows[at[j]]
  {
    seq(|at|, j requires 0 <= j < |at| => rows[at[j]])
  }

  ghost predicate SomeRefused(t: Transformation, rows: seq<Row>) {
    exists r :: 0 <= r < |rows| && t.alone(rows[r]).Refused?
  }

  /** The marking lets a failing row through. */
  ghost predicate Misses(t: Transformation, rows: seq<Row>)
    requires Consistent(t)
  {
    exists r :: 0 <= r < |rows| && t.mark(rows)[r].Passed? && t.alone(rows[r]).Refused?
  }

  /** The marking blames a row that succeeds on its own. */
  ghost predicate Overmarks(t: Transformation, rows: seq<Row>)
    requires Consistent(t)
  {
    exists r :: 0 <= r < |rows| && t.mark(rows)[r].Failed? && t.alone(rows[r]).Moved?
  }

  /** Rows let through hold their own values, and the marked ones NaN. */
  ghost predicate Sound(t: Transformation, rows: seq<Row>, columns: array2<Value>, failed: seq<bool>)
    requires Consistent(t)
    reads columns
  {
    && columns.Length0 == t.width && columns.Length1 == |rows| == |failed|
    && (forall r :: 0 <= r < |rows| && !failed[r] ==> t.alone(rows[r]).Moved?)
    && (forall k, r :: 0 <= k < t.width && 0 <= r < |rows| ==>
          columns[k, r] == if failed[r] then NaN else Cell(t, rows[r], k))
  }

  datatype Marking = Marking(columns: array2<Value>, failed: seq<bool>) | MarkingMissed

  /** Write the j-th value of each column at row at[j]. */
  method Scatter(columns: array2<Value>, at: seq<nat>, values: seq<seq<Value>>)
    requires |values| == columns.Length0 && forall k :: 0 <= k < |values| ==> |values[k]| == |at|
    requires forall j :: 0 <= j < |at| ==> at[j] < columns.Length1
    requires forall i, j :: 0 <= i < j < |at| ==> at[i] < at[j]
    modifies columns
    ensures forall k, j :: 0 <= k < columns.Length0 && 0 <= j < |at| ==> columns[k, at[j]] == values[k][j]
    ensures forall k, r :: 0 <= k < columns.Length0 && 0 <= r < columns.Length1 && r !in at ==>
      columns[k, r] == old(columns[k, r])
  {
    for k := 0 to |values|
      invariant forall i, j :: 0 <= i < k && 0 <= j < |at| ==> columns[i, at[j]] == values[i][j]
      invariant forall i, r :: 0 <= i < columns.Length0 && 0 <= r < columns.Length1 && (i >= k || r !in at) ==>
        columns[i, r] == old(columns[i, r])
    {
      for j := 0 to |at|
        invariant forall i, l :: 0 <= i < k && 0 <= l < |at| ==> columns[i, at[l]] == values[i][l]
        invariant forall l :: 0 <= l < j ==> columns[k, at[l]] == values[k][l]
        invariant forall i, r :: 0 <= i < columns.Length0 && 0 <= r < columns.Length1 && (i > k || r !in at) ==>
          columns[i, r] == old(columns[i, r])
      {
        columns[k, at[j]] := values[k][j];
      }
    }
  }

  /** With the values of the rows let through written over the marked pass's, and NaN elsewhere. */
  lemma Scattered(t: Transformation, rows: seq<Row>, columns: array2<Value>, passed: seq<nat>, failed: seq<bool>)
    requires Consistent(t) && t.always.None? && passed == Unmarked(t.mark(rows), |rows|)
    requires columns.Length0 == t.width && columns.Length1 == |rows| == |failed|
    requires forall r :: 0 <= r < |rows| ==> failed[r] == t.mark(rows)[r].Failed?
    requires Holds(t, rows, columns, passed)
    ensures Sound(t, rows, columns, failed)
  {
    hide *;
    forall r: nat | r < |rows| ensures RowSound(t, rows, columns, failed[r], r) {
      OneRowSound(t, rows, columns, passed, r);
    }
    SoundByRows(t, rows, columns, failed);
  }

  /** The columns hold the values of the rows picked, and NaN for the others. */
  ghost predicate Holds(t: Transformation, rows: seq<Row>, columns: array2<Value>, passed: seq<nat>)
    requires Consistent(t) && columns.Length0 == t.width && columns.Length1 == |rows|
    requires forall i :: 0 <= i < |passed| ==> passed[i] < |rows|
    reads columns
  {
    var part := TransformArrays(t, Picked(rows, passed));
    && part.Columns?
    && (forall k, j :: 0 <= k < t.width && 0 <= j < |passed| ==> columns[k, passed[j]] == part.columns[k][j])
    && (forall k, r :: 0 <= k < t.width && 0 <= r < |rows| && r !in passed ==> columns[k, r] == NaN)
  }

  ghost predicate RowSound(t: Transformation, rows: seq<Row>, columns: array2<Value>, failed: bool, r: nat)
    requires Consistent(t) && columns.Length0 == t.width && columns.Length1 == |rows| && r < |rows|
    reads columns
  {
    && (!failed ==> t.alone(rows[r]).Moved?)
    && forall k :: 0 <= k < t.width ==> columns[k, r] == if failed then NaN else Cell(t, rows[r], k)
  }

  lemma OneRowSound(t: Transformation, rows: seq<Row>, columns: array2<Value>, passed: seq<nat>, r: nat)
    requires Consistent(t) && t.always.None? && passed == Unmarked(t.mark(rows), |rows|)
    requires columns.Length0 == t.width && columns.Length1 == |rows| && r < |rows| && Holds(t, rows, columns, passed)
    ensures RowSound(t, rows, columns, t.mark(rows)[r].Failed?, r)
  {
    hide TransformArrays, FirstRefused, Column, Cell, Unmarked, Picked;
    if !t.mark(rows)[r].Failed? {
      var j := RowLetThrough(t, rows, passed, r);
      ValuesLetThrough(t, rows, passed, r, j);
      forall k | 0 <= k < t.width ensures columns[k, r] == Cell(t, rows[r], k) {
        assert columns[k, passed[j]] == TransformArrays(t, Picked(rows, passed)).columns[k][j];
      }
    }
  }

  lemma SoundByRows(t: Transformation, rows: seq<Row>, columns: array2<Value>, failed: seq<bool>)
    requires Consistent(t) && columns.Length0 == t.width && columns.Length1 == |rows| == |failed|
    requires forall r: nat :: r < |rows| ==> RowSound(t, rows, columns, failed[r], r)
    ensures Sound(t, rows, columns, failed)
  {
    hide Consistent, Cell;
    assert forall r: nat :: r < |rows| ==> RowSound(t, rows, columns, failed[r], r);
  }

  /** A row let through is picked, and succeeds. */
  lemma RowLetThrough(t: Transformation, rows: seq<Row>, passed: seq<nat>, r: nat) returns (j: nat)
    requires Consistent(t) && t.always.None? && passed == Unmarked(t.mark(rows), |rows|)
    requires TransformArrays(t, Picked(rows, passed)).Columns? && r < |rows| && !t.mark(rows)[r].Failed?
    ensures j < |passed| && passed[j] == r && t.alone(rows[r]).Moved?
  {
    hide FirstRefused, Column, Picked;
    j :| j < |passed| && passed[j] == r;
    assert Picked(rows, passed)[j] == rows[r];
  }

  lemma ValuesLetThrough(t: Transformation, rows: seq<Row>, passed: seq<nat>, r: nat, j: nat)
    requires Consistent(t) && t.always.None? && (forall i :: 0 <= i < |passed| ==> passed[i] < |rows|)
    requires TransformArrays(t, Picked(rows, passed)).Columns? && j < |passed| && passed[j] == r &&
      t.alone(rows[r]).Moved?
    ensures forall k :: 0 <= k < t.width ==>
      TransformArrays(t, Picked(rows, passed)).columns[k][j] == Cell(t, rows[r], k)
  {
    hide FirstRefused, Column, Picked;
    assert Picked(rows, passed)[j] == rows[r];
  }

  /** The marked pass of a batch that fails. */
  method MarkedPass(t: Transformation, rows: seq<Row>) returns (m: Marking)
    requires Consistent(t) && t.always.None? && SomeRefused(t, rows)
    ensures m.MarkingMissed? <==> Misses(t, rows)
    ensures m.Marking? ==> fresh(m.columns) && Sound(t, rows, m.columns, m.failed)
    ensures m.Marking? ==> forall r :: 0 <= r < |rows| ==> m.failed[r] == t.mark(rows)[r].Failed?
  {
    var count := |rows|;
    var marks := t.mark(rows);
    var columns := new Value[t.width, count]((k, r) requires 0 <= k < t.width && 0 <= r < count =>
      if marks[r].Passed? then marks[r].values[k] else NaN);
    var failed := seq(count, r requires 0 <= r < count => marks[r].Failed?);
    var passed := Unmarked(marks, count);
    MissedIsPicked(t, rows);
    hide TransformArrays, FirstRefused, Column, Consistent, Unmarked, Picked, Misses, SomeRefused, Sound;
    if |passed| > 0 {
      var part := TransformArrays(t, Picked(rows, passed));
      if part.Raised? {
        return MarkingMissed;
      }
      Scatter(columns, passed, part.columns);
    }
    Scattered(t, rows, columns, passed, failed);
    m := Marking(columns, failed);
  }

  method Marked(t: Transformation, rows: seq<Row>) returns (m: Marking)
    requires Consistent(t) && t.always.None?
    ensures m.MarkingMissed? <==> SomeRefused(t, rows) && Misses(t, rows)
    ensures m.Marking? ==> fresh(m.columns) && Sound(t, rows, m.columns, m.failed)
    ensures m.Marking? ==> forall r :: 0 <= r < |rows| ==>
      m.failed[r] == (SomeRefused(t, rows) && t.mark(rows)[r].Failed?)
  {
    var count := |rows|;
    if count == 0 {
      var empty := new Value[t.width, 0];
      return Marking(empty, []);
    }
    match TransformArrays(t, rows)
    case Columns(values) =>
      var all := new Value[t.width, count]((k, r) requires 0 <= k < t.width && 0 <= r < count => values[k][r]);
      return Marking(all, seq(count, _ => false));
    case Raised(_) =>
      m := MarkedPass(t, rows);
  }

  lemma MissedIsPicked(t: Transformation, rows: seq<Row>)
    requires Consistent(t)
    ensures Misses(t, rows) <==> SomeRefused(t, Picked(rows, Unmarked(t.mark(rows), |rows|)))
  {
    var at := Unmarked(t.mark(rows), |rows|);
    var part := Picked(rows, at);
    if Misses(t, rows) {
      var r :| 0 <= r < |rows| && t.mark(rows)[r].Passed? && t.alone(rows[r]).Refused?;
      var j :| 0 <= j < |at| && at[j] == r;
      assert t.alone(part[j]).Refused?;
    }
    if SomeRefused(t, part) {
      var j :| 0 <= j < |part| && t.alone(part[j]).Refused?;
      assert t.mark(rows)[at[j]].Passed?;
    }
  }

  /** Run each row marked as failed once more, alone. */
  method Confirm(t: Transformation, rows: seq<Row>, columns: array2<Value>, failed: seq<bool>,
                 cap: Option<int>) returns (o: Outcome)
    requires Consistent(t) && t.always.None? && (cap.Some? ==> cap.value >= 0)
    requires Sound(t, rows, columns, failed)
    modifies columns
    ensures IsReference(t, rows, cap, o)
  {
    hide TransformArrays, FirstRefused, Column, Consistent;
    var failures: seq<Failure> := [];
    for row := 0 to |rows|
      invariant failures == Failing(t, rows, row) && Within(cap, failures)
      invariant Right(t, rows, columns, 0, row)
      invariant forall k, r :: 0 <= k < t.width && row <= r < |rows| ==>
        columns[k, r] == if failed[r] then NaN else Cell(t, rows[r], k)
    {
      if failed[row] {
        var part := rows[row..row + 1];
        assert part == [rows[row]];
        OneRow(t, rows[row]);
        match TransformArrays(t, part)
        case Raised(error) =>
          failures := failures + [Failure(row, error)];
          if cap.Some? && |failures| > cap.value {
            assert failures == Failing(t, rows, row + 1);
            FailingPrefix(t, rows, row + 1, |rows|);
            return TooManyFailures(failures);
          }
        case Columns(values) =>
          Fill(columns, row, values, 1);
      }
    }
    return Isolated(columns, failures);
  }

  /** One pass, then the marked pass, then halving: whatever the marking says, the outcome is that
      of every row alone. */
  method Isolate(t: Transformation, rows: seq<Row>, smallPart: int, cap: Option<int>) returns (o: Outcome)
    requires Consistent(t)
    ensures o.NegativeCap? <==> cap.Some? && cap.value < 0
    ensures !o.NegativeCap? ==> (o.Unrelated? <==> t.always.Some?)
    ensures o.Unrelated? ==> t.always == Some(o.error)
    ensures !o.NegativeCap? && !o.Unrelated? ==> IsReference(t, rows, cap, o)
  {
    if cap.Some? && cap.value < 0 {
      return NegativeCap;
    }
    NoRows(t);
    hide TransformArrays, FirstRefused, Column, Consistent;
    match TransformArrays(t, [])
    case Raised(error) =>
      return Unrelated(error);
    case Columns(_) =>
    var marking := Marked(t, rows);
    if marking.MarkingMissed? {
      o := Halved(t, rows, smallPart, cap);
      return;
    }
    o := Confirm(t, rows, marking.columns, marking.failed, cap);
  }

  /** The mask of the rows that fail on their own. */
  function Truth(t: Transformation, rows: seq<Row>): (mask: seq<bool>)
    ensures |mask| == |rows| && forall r :: 0 <= r < |rows| ==> mask[r] == t.alone(rows[r]).Refused?
  {
    seq(|rows|, r requires 0 <= r < |rows| => t.alone(rows[r]).Refused?)
  }

  function MaskOf(failures: seq<Failure>, count: nat): (mask: seq<bool>)
    ensures |mask| == count
    ensures forall r :: 0 <= r < count ==> (mask[r] <==> exists i :: 0 <= i < |failures| && failures[i].index == r)
  {
    seq(count, r => exists i :: 0 <= i < |failures| && failures[i].index == r)
  }

  datatype Masked = Masked(columns: array2<Value>, failed: seq<bool>) | Probed(error: string)

  /** As Isolate, without a call per failing row. It says which rows fail exactly when
      the marking it trusts does not blame a row that succeeds, or is not trusted. */
  method FailingRows(t: Transformation, rows: seq<Row>) returns (o: Masked)
    requires Consistent(t)
    ensures o.Probed? <==> t.always.Some?
    ensures o.Masked? ==>
      (o.failed == Truth(t, rows) && Right(t, rows, o.columns, 0, |rows|)
       <==> !(SomeRefused(t, rows) && !Misses(t, rows) && Overmarks(t, rows)))
  {
    match TransformArrays(t, [])
    case Raised(error) =>
      return Probed(error);
    case Columns(_) =>
    var marking := Marked(t, rows);
    if marking.MarkingMissed? {
      var isolated := Halved(t, rows, SMALL_PART, None);
      FailingIsExact(t, rows, |rows|);
      var mask := MaskOf(isolated.failures, |rows|);
      assert mask == Truth(t, rows);
      return Masked(isolated.columns, mask);
    }
    var Marking(columns, failed) := marking;
    if SomeRefused(t, rows) && Overmarks(t, rows) {
      ghost var r :| 0 <= r < |rows| && t.mark(rows)[r].Failed? && t.alone(rows[r]).Moved?;
      assert failed[r] != Truth(t, rows)[r];
    } else {
      assert failed == Truth(t, rows);
    }
    return Masked(columns, failed);
  }

  // ----- the first failure

  /** Halvings of a span of n rows until one is left. */
  function Halvings(n: nat): nat {
    if n <= 1 then 0 else 1 + Halvings((n + 1) / 2)
  }

  /** Halvings is the logarithm to base 2, rounded up. */
  lemma {:induction false} HalvingsAreLogarithmic(n: nat)
    requires n > 1
    ensures Halvings(n) >= 1 && Pow2(Halvings(n) - 1) < n <= Pow2(Halvings(n))
  {
    if n > 2 {
      HalvingsAreLogarithmic((n + 1) / 2);
    } else {
      assert Halvings(2) == 1 + Halvings(1);
    }
  }

  lemma {:induction false} HalvingsMonotone(m: nat, n: nat)
    requires m <= n
    ensures Halvings(m) <= Halvings(n)
    decreases n
  {
    if m > 1 {
      HalvingsMonotone((m + 1) / 2, (n + 1) / 2);
    }
  }

  lemma HalvingsNext(n: nat)
    requires n > 1
    ensures Halvings(n) == 1 + Halvings((n + 1) / 2)
  {}

  predicate Fails(t: Transformation, rows: seq<Row>)
    requires Consistent(t)
  {
    TransformArrays(t, rows).Raised?
  }

  /** The least failing row, by halving. `handed` counts the rows given to the
      transformation, `calls` the times it is called. */
  method FirstFailure(t: Transformation, rows: seq<Row>)
    returns (first: Option<Failure>, ghost handed: nat, ghost calls: nat)
    requires Consistent(t)
    ensures first.None? <==> t.always.Some? || !SomeRefused(t, rows)
    ensures first.Some? ==>
      && first.value.index < |rows|
      && t.alone(rows[first.value.index]) == Refused(first.value.error)
      && forall r :: 0 <= r < first.value.index ==> t.alone(rows[r]).Moved?
    ensures handed <= 2 * |rows|
    ensures calls <= 3 + Halvings(|rows|)
  {
    hide TransformArrays, FirstRefused, Column, Consistent, Halvings;
    var start, stop := 0, |rows|;
    handed, calls := |rows|, 1;
    if !Fails(t, rows) {
      return None, handed, calls;
    }
    calls := 2;
    if Fails(t, rows[..0]) {
      return None, handed, calls;
    }
    while stop - start > 1
      invariant 0 <= start < stop <= |rows|
      invariant forall r :: 0 <= r < start ==> t.alone(rows[r]).Moved?
      invariant exists r :: start <= r < stop && t.alone(rows[r]).Refused?
      invariant handed + (stop - start) <= 2 * |rows|
      invariant calls + Halvings(stop - start) <= 2 + Halvings(|rows|)
    {
      var middle := (start + stop) / 2;
      var part := rows[start..middle];
      handed, calls := handed + |part|, calls + 1;
      HalvingsMonotone(middle - start, (stop - start + 1) / 2);
      HalvingsNext(stop - start);
      assert stop - middle == (stop - start + 1) / 2;
      assert forall i :: 0 <= i < |part| ==> part[i] == rows[start + i];
      if Fails(t, part) {
        stop := middle;
      } else {
        forall r | start <= r < middle ensures t.alone(rows[r]).Moved? {
          assert part[r - start] == rows[r];
        }
        start := middle;
      }
    }
    var single := rows[start..start + 1];
    assert single == [rows[start]];
    OneRow(t, rows[start]);
    handed, calls := handed + 1, calls + 1;
    match TransformArrays(t, single)
    case Raised(error) => first := Some(Failure(start, error));
  }
}
