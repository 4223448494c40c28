/** Which coordinates are read (geodetic_engine/geojson/_model.py, lines 660 to 822). */
module AcceptedCoordinates {
  import opened Coordinates
  import opened CoordinatesLaws
  import opened Options

  // ----- as section 3.1 of RFC 7946 has them

  /** A number of any type that is finite as a float. */
  predicate IsFinite(v: Value) {
    v.Num? && Made(v.number).Some? && Made(v.number).value.Finite?
  }

  /** So many of them. */
  predicate IsPosition(v: Value, width: nat) {
    v.Array? && |v.items| == width && forall i :: 0 <= i < width ==> IsFinite(v.items[i])
  }

  /** At least so many positions. */
  predicate ArePositions(v: Value, least: nat, width: nat) {
    v.Array? && |v.items| >= least && forall i :: 0 <= i < |v.items| ==> IsPosition(v.items[i], width)
  }

  /** The same numbers, as floats. */
  predicate Meet(v: Value, w: Value, width: nat)
    requires IsPosition(v, width) && IsPosition(w, width)
  {
    forall i :: 0 <= i < width ==> Made(v.items[i].number) == Made(w.items[i].number)
  }

  /** Four positions or more, the last where the first is. */
  predicate IsRing(v: Value, width: nat) {
    ArePositions(v, 4, width) && Meet(v.items[0], v.items[|v.items| - 1], width)
  }

  predicate AreRings(v: Value, width: nat) {
    v.Array? && |v.items| >= 1 && forall i :: 0 <= i < |v.items| ==> IsRing(v.items[i], width)
  }

  /** The coordinates a kind of geometry has, where it has any, all positions of one width. */
  predicate Accepted(v: Value, kind: Kind, width: nat) {
    match kind
    case Point => IsPosition(v, width)
    case MultiPoint => ArePositions(v, 1, width)
    case LineString => ArePositions(v, 2, width)
    case MultiLineString =>
      v.Array? && |v.items| >= 1 && forall i :: 0 <= i < |v.items| ==> ArePositions(v.items[i], 2, width)
    case Polygon => AreRings(v, width)
    case MultiPolygon =>
      v.Array? && |v.items| >= 1 && forall i :: 0 <= i < |v.items| ==> AreRings(v.items[i], width)
  }

  // ----- are the ones that are read

  predicate AllWide(rows: seq<Position>, width: nat) {
    forall i :: 0 <= i < |rows| ==> |rows[i]| == width
  }

  lemma {:induction false} NumbersExactly(items: seq<Value>, path: seq<nat>, n: nat)
    requires n <= |items|
    ensures ReadNumbers(items, path, n).Ok? <==> forall i :: 0 <= i < n ==> IsFinite(items[i])
  {
    if n > 0 {
      NumbersExactly(items, path, n - 1);
    }
  }

  lemma PositionExactly(v: Value, path: seq<nat>, width: nat)
    requires 2 <= width <= 3
    ensures ReadPosition(v, path).Ok? && |ReadPosition(v, path).value| == width <==> IsPosition(v, width)
  {
    if v.Array? {
      NumbersExactly(v.items, path, |v.items|);
    }
  }

  lemma {:induction false} PositionsExactly(items: seq<Value>, path: seq<nat>, width: nat, n: nat)
    requires 2 <= width <= 3 && n <= |items|
    ensures ReadPositions(items, path, n).Ok? && AllWide(ReadPositions(items, path, n).value, width)
            <==> forall i :: 0 <= i < n ==> IsPosition(items[i], width)
  {
    hide IsPosition, ReadPosition;
    if n > 0 {
      PositionsExactly(items, path, width, n - 1);
      PositionExactly(items[n - 1], path + [n - 1], width);
      LastIsWide(ReadPositions(items, path, n - 1), ReadPosition(items[n - 1], path + [n - 1]), width);
    }
  }

  lemma LastIsWide(before: Result<seq<Position>>, last: Result<Position>, width: nat)
    ensures before.Ok? && last.Ok? ==>
      (AllWide(before.value + [last.value], width) <==> AllWide(before.value, width) && |last.value| == width)
  {
    if before.Ok? && last.Ok? {
      JoinedAreWide(before.value, [last.value], width);
      assert [last.value][0] == last.value;
    }
  }

  /** What an innermost array must be. */
  predicate IsLine(v: Value, kind: Kind, width: nat) {
    if Rings(kind) then IsRing(v, width) else ArePositions(v, if Lines(kind) then 2 else 0, width)
  }

  lemma LineExactly(v: Value, path: seq<nat>, kind: Kind, width: nat)
    requires 2 <= width <= 3 && v.Array?
    ensures var walked := Walked(v.items, path, 1, kind);
            walked.Ok? && AllWide(walked.value.rows, width) <==> IsLine(v, kind, width)
  {
    var items := v.items;
    PositionsExactly(items, path, width, |items|);
    hide ReadPositions;
    if ReadPositions(items, path, |items|).Ok? && ArePositions(v, 4, width) {
      PositionsAreReals(items, path, |items|);
      assert items[..|items|] == items;
      MeetIsSameReals(items[0], items[|items| - 1], width);
    }
  }

  lemma MeetIsSameReals(v: Value, w: Value, width: nat)
    requires IsPosition(v, width) && IsPosition(w, width)
    ensures Meet(v, w, width) <==> Reals(v) == Reals(w)
  {
    hide Made;
    assert forall i :: 0 <= i < width ==> IsFinite(v.items[i]) && IsFinite(w.items[i]);
    assert forall i :: 0 <= i < width ==> Reals(v)[i] == Real(v.items[i]) && Reals(w)[i] == Real(w.items[i]);
  }

  /** What one of the arrays in an array must be. */
  predicate IsPart(item: Value, path: seq<nat>, depth: nat, kind: Kind, width: nat)
    requires depth >= 2
  {
    && item.Array? && (depth == 3 ==> item.items != [])
    && var walked := Walked(item.items, path, depth - 1, kind);
       walked.Ok? && AllWide(walked.value.rows, width)
  }

  lemma {:induction false} PartsExactly(items: seq<Value>, path: seq<nat>, depth: nat, kind: Kind, width: nat, n: nat)
    requires depth >= 2 && n <= |items|
    ensures var walked := WalkedParts(items, path, depth, kind, n);
            walked.Ok? && AllWide(walked.value.0, width)
            <==> forall i: nat :: i < n ==> IsPart(items[i], path + [i], depth, kind, width)
  {
    hide Walked;
    if n > 0 {
      PartsExactly(items, path, depth, kind, width, n - 1);
      var before, last := WalkedParts(items, path, depth, kind, n - 1), items[n - 1];
      if before.Ok? && last.Array? && Walked(last.items, path + [n - 1], depth - 1, kind).Ok? {
        JoinedAreWide(before.value.0, Walked(last.items, path + [n - 1], depth - 1, kind).value.rows, width);
      }
    }
  }

  lemma JoinedAreWide(first: seq<Position>, second: seq<Position>, width: nat)
    ensures AllWide(first + second, width) <==> AllWide(first, width) && AllWide(second, width)
  {
    var all := first + second;
    assert forall i :: 0 <= i < |first| ==> all[i] == first[i];
    assert forall i :: 0 <= i < |second| ==> all[|first| + i] == second[i];
  }

  /** Of arrays of lines or rings. */
  lemma LinesExactly(v: Value, path: seq<nat>, kind: Kind, width: nat)
    requires 2 <= width <= 3 && v.Array?
    ensures var walked := Walked(v.items, path, 2, kind);
            walked.Ok? && AllWide(walked.value.rows, width)
            <==> forall i :: 0 <= i < |v.items| ==> IsLine(v.items[i], kind, width)
  {
    PartsExactly(v.items, path, 2, kind, width, |v.items|);
    forall i: nat | i < |v.items|
      ensures IsPart(v.items[i], path + [i], 2, kind, width) <==> IsLine(v.items[i], kind, width)
    {
      if v.items[i].Array? {
        LineExactly(v.items[i], path + [i], kind, width);
      }
    }
    hide IsLine, IsPart, WalkedParts;
  }

  /** Of arrays of those, none empty. */
  lemma PolygonsExactly(v: Value, path: seq<nat>, width: nat)
    requires 2 <= width <= 3 && v.Array?
    ensures var walked := Walked(v.items, path, 3, MultiPolygon);
            walked.Ok? && AllWide(walked.value.rows, width)
            <==> forall i :: 0 <= i < |v.items| ==> AreRings(v.items[i], width)
  {
    PartsExactly(v.items, path, 3, MultiPolygon, width, |v.items|);
    forall i: nat | i < |v.items|
      ensures IsPart(v.items[i], path + [i], 3, MultiPolygon, width) <==> AreRings(v.items[i], width)
    {
      if v.items[i].Array? {
        LinesExactly(v.items[i], path + [i], MultiPolygon, width);
      }
    }
    hide AreRings, IsPart, WalkedParts;
  }

  /** What the walk of a whole geometry makes of each kind. */
  lemma WalkExactly(v: Value, path: seq<nat>, kind: Kind, width: nat)
    requires 2 <= width <= 3 && v.Array? && v.items != [] && kind != Point
    ensures var walked := Walked(v.items, path, Depth(kind), kind);
            walked.Ok? && AllWide(walked.value.rows, width) <==> Accepted(v, kind, width)
  {
    hide Walked, AllWide;
    match Depth(kind)
    case 1 => LineExactly(v, path, kind, width);
    case 2 => LinesExactly(v, path, kind, width);
    case _ => PolygonsExactly(v, path, width);
  }

  lemma EvenIsWide(flat: Flat<Position>, path: seq<nat>)
    requires flat.rows != [] && Size(flat.shape) == |flat.rows| && forall i :: 0 <= i < |flat.rows| ==>
      2 <= |flat.rows[i]| <= 3
    ensures Even(flat, path).Ok? <==> AllWide(flat.rows, 2) || AllWide(flat.rows, 3)
  {
    var i := Uneven(flat.rows, 1);
    assert i < |flat.rows| ==> |flat.rows[i]| != |flat.rows[0]|;
  }

  /** Coordinates are read exactly where they are an empty array or what their kind has, of two values to a
      position or of three. */
  lemma AcceptedExactly(value: Value, path: seq<nat>, kind: Kind)
    requires WellFormed(value)
    ensures ReadCoordinates(value, path, kind).Ok?
            <==> value.Array? && (value.items == [] || Accepted(value, kind, 2) || Accepted(value, kind, 3))
  {
    ReadingIsByValue(value, path, kind);
    hide ReadCoordinates, WellFormed;
    if value.Array? && value.items != [] {
      if kind == Point {
        NumbersExactly(value.items, path, |value.items|);
      } else {
        WalkExactly(value, path, kind, 2);
        WalkExactly(value, path, kind, 3);
        if Walked(value.items, path, Depth(kind), kind).Ok? {
          WalkedIsWhole(value.items, path, Depth(kind), kind);
          WalkedIsSound(value.items, path, Depth(kind), kind);
          EvenIsWide(Walked(value.items, path, Depth(kind), kind).value, path);
        }
        hide Walked, AllWide, Even, Accepted;
      }
    }
  }
}
