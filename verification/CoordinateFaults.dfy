/** What a fault in coordinates says is so, where it says (geodetic_engine/geojson/_model.py, lines 668 to 853). */
module CoordinateFaults {
  import opened Coordinates
  import opened CoordinatesLaws
  import opened Options

  /** What following indices down a value leads to. */
  function Get(v: Value, rel: seq<nat>): Option<Value>
    decreases |rel|
  {
    if rel == [] then Some(v)
    else if !v.Array? || rel[0] >= |v.items| then None
    else Get(v.items[rel[0]], rel[1..])
  }

  /** What each fault says of a value; one of another width is so beside another position. */
  predicate Wrong(v: Value, kind: Kind, what: What) {
    match what
    case NotAnArray => !v.Array?
    case TooFewNumbers => v.Array? && |v.items| < 2
    case TooManyNumbers => v.Array? && |v.items| > 3
    case NotANumber => !v.Num?
    case Unholdable => v.Num? && Made(v.number).None?
    case NotAFinite => v.Num? && Made(v.number) == Some(NotFinite)
    case ShortLine => (kind == LineString || kind == MultiLineString) && v.Array? && |v.items| < 2
    case ShortRing => (kind == Polygon || kind == MultiPolygon) && v.Array? && |v.items| < 4
    case OpenRing =>
      (kind == Polygon || kind == MultiPolygon) && v.Array? && |v.items| >= 4 &&
      Reals(v.items[0]) != Reals(v.items[|v.items| - 1])
    case NoRing => kind == MultiPolygon && v.Array? && v.items == []
    case OtherWidth => v.Array? && 2 <= |v.items| <= 3
  }

  /** How far below an array of a depth such a value is: numbers in positions, positions in lines and rings, rings in
      polygons. */
  predicate FitsDepth(what: What, depth: nat, below: nat) {
    match what
    case NotAnArray => below <= depth
    case TooFewNumbers => below == depth
    case TooManyNumbers => below == depth
    case OtherWidth => below == depth
    case NotANumber => below == depth + 1
    case Unholdable => below == depth + 1
    case NotAFinite => below == depth + 1
    case NoRing => depth == 3 && below == 1
    case _ => below + 1 == depth
  }

  /** The fault is so of the value those indices lead to. */
  ghost predicate IsThere(v: Value, kind: Kind, depth: nat, fault: Fault, path: seq<nat>, rel: seq<nat>) {
    && fault.path == path + rel && Get(v, rel).Some? && Wrong(Get(v, rel).value, kind, fault.what)
    && FitsDepth(fault.what, depth, |rel|)
  }

  /** So it is of what the value is in. */
  lemma ThereBelow(v: Value, kind: Kind, depth: nat, fault: Fault, path: seq<nat>, i: nat, rel: seq<nat>)
    requires v.Array? && i < |v.items| && fault.what != NoRing
    requires IsThere(v.items[i], kind, depth, fault, path + [i], rel)
    ensures IsThere(v, kind, depth + 1, fault, path, [i] + rel)
  {
    FitsBelow(fault.what, depth, |rel|);
    hide Wrong, FitsDepth;
    assert ([i] + rel)[1..] == rel;
    assert (path + [i]) + rel == path + ([i] + rel);
  }

  lemma FitsBelow(what: What, depth: nat, below: nat)
    requires what != NoRing && FitsDepth(what, depth, below)
    ensures FitsDepth(what, depth + 1, below + 1)
  {}

  lemma {:induction false} NumbersFault(items: seq<Value>, path: seq<nat>, n: nat) returns (i: nat)
    requires n <= |items| && ReadNumbers(items, path, n).Err?
    ensures i < n && ReadNumber(items[i], path + [i]) == Err(ReadNumbers(items, path, n).fault)
  {
    if ReadNumbers(items, path, n - 1).Err? {
      i := NumbersFault(items, path, n - 1);
    } else {
      i := n - 1;
    }
  }

  lemma PositionFault(v: Value, path: seq<nat>, kind: Kind) returns (rel: seq<nat>)
    requires ReadPosition(v, path).Err?
    ensures IsThere(v, kind, 0, ReadPosition(v, path).fault, path, rel)
    ensures ReadPosition(v, path).fault.what != NoRing && ReadPosition(v, path).fault.what != OtherWidth
  {
    var fault := ReadPosition(v, path).fault;
    rel := [];
    assert path + [] == path;
    if v.Array? && 2 <= |v.items| <= 3 {
      var i := NumbersFault(v.items, path, |v.items|);
      rel := [i];
      assert [i][1..] == [];
    }
  }

  lemma {:induction false} PositionsFault(v: Value, path: seq<nat>, kind: Kind, n: nat) returns (rel: seq<nat>)
    requires v.Array? && n <= |v.items| && ReadPositions(v.items, path, n).Err?
    ensures IsThere(v, kind, 1, ReadPositions(v.items, path, n).fault, path, rel)
    ensures ReadPositions(v.items, path, n).fault.what != NoRing
    ensures ReadPositions(v.items, path, n).fault.what != OtherWidth
  {
    hide IsThere, ReadPosition;
    if ReadPositions(v.items, path, n - 1).Err? {
      rel := PositionsFault(v, path, kind, n - 1);
    } else {
      var below := PositionFault(v.items[n - 1], path + [n - 1], kind);
      rel := [n - 1] + below;
      ThereBelow(v, kind, 0, ReadPositions(v.items, path, n).fault, path, n - 1, below);
    }
  }

  lemma LineFault(v: Value, path: seq<nat>, kind: Kind) returns (rel: seq<nat>)
    requires v.Array? && Walked(v.items, path, 1, kind).Err?
    ensures IsThere(v, kind, 1, Walked(v.items, path, 1, kind).fault, path, rel)
    ensures Walked(v.items, path, 1, kind).fault.what != NoRing
    ensures Walked(v.items, path, 1, kind).fault.what != OtherWidth
  {
    hide IsThere, ReadPositions;
    if ReadPositions(v.items, path, |v.items|).Err? {
      rel := PositionsFault(v, path, kind, |v.items|);
    } else {
      rel := [];
      OfLine(v, path, kind);
    }
  }

  lemma OfLine(v: Value, path: seq<nat>, kind: Kind)
    requires v.Array? && ReadPositions(v.items, path, |v.items|).Ok? && Walked(v.items, path, 1, kind).Err?
    ensures IsThere(v, kind, 1, Walked(v.items, path, 1, kind).fault, path, [])
    ensures Walked(v.items, path, 1, kind).fault.what != NoRing
    ensures Walked(v.items, path, 1, kind).fault.what != OtherWidth
  {
    LineGoesWrong(v, path, kind);
    hide Walked, Wrong;
    assert path + [] == path;
  }

  lemma LineGoesWrong(v: Value, path: seq<nat>, kind: Kind)
    requires v.Array? && ReadPositions(v.items, path, |v.items|).Ok? && Walked(v.items, path, 1, kind).Err?
    ensures var fault := Walked(v.items, path, 1, kind).fault;
            && fault.path == path && Wrong(v, kind, fault.what)
            && (fault.what == ShortLine || fault.what == ShortRing || fault.what == OpenRing)
  {
    hide *;
    PositionsAreReals(v.items, path, |v.items|);
    assert v.items[..|v.items|] == v.items;
    WalkedAsLine(v.items, path, kind);
    LineIsRefused(v, AllReals(v.items), path, kind);
  }

  lemma WalkedAsLine(items: seq<Value>, path: seq<nat>, kind: Kind)
    requires ReadPositions(items, path, |items|).Ok?
    ensures Walked(items, path, 1, kind) == WalkedLine(ReadPositions(items, path, |items|).value, path, kind)
  {
    hide ReadPositions, WalkedLine;
  }

  lemma LineIsRefused(v: Value, rows: seq<Position>, path: seq<nat>, kind: Kind)
    requires v.Array? && rows == AllReals(v.items) && WalkedLine(rows, path, kind).Err?
    ensures var fault := WalkedLine(rows, path, kind).fault;
            && fault.path == path && Wrong(v, kind, fault.what)
            && (fault.what == ShortLine || fault.what == ShortRing || fault.what == OpenRing)
  {
    hide Reals;
  }

  lemma {:induction false} WalkFault(v: Value, path: seq<nat>, depth: nat, kind: Kind) returns (rel: seq<nat>)
    requires v.Array? && 1 <= depth <= 3 && (depth == 3 ==> kind == MultiPolygon)
    requires Walked(v.items, path, depth, kind).Err?
    ensures IsThere(v, kind, depth, Walked(v.items, path, depth, kind).fault, path, rel)
    ensures depth < 3 ==> Walked(v.items, path, depth, kind).fault.what != NoRing
    ensures Walked(v.items, path, depth, kind).fault.what != OtherWidth
    decreases depth, |v.items| + 1
  {
    if depth == 1 {
      rel := LineFault(v, path, kind);
    } else {
      rel := PartsFault(v, path, depth, kind, |v.items|);
    }
  }

  lemma {:induction false} PartsFault(v: Value, path: seq<nat>, depth: nat, kind: Kind, n: nat) returns (rel: seq<nat>)
    requires v.Array? && 2 <= depth <= 3 && (depth == 3 ==> kind == MultiPolygon)
    requires n <= |v.items| && WalkedParts(v.items, path, depth, kind, n).Err?
    ensures IsThere(v, kind, depth, WalkedParts(v.items, path, depth, kind, n).fault, path, rel)
    ensures depth < 3 ==> WalkedParts(v.items, path, depth, kind, n).fault.what != NoRing
    ensures WalkedParts(v.items, path, depth, kind, n).fault.what != OtherWidth
    decreases depth, n
  {
    hide *;
    PartsStop(v.items, path, depth, kind, n);
    if WalkedParts(v.items, path, depth, kind, n - 1).Err? {
      rel := PartsFault(v, path, depth, kind, n - 1);
    } else {
      rel := PartFault(v, path, depth, kind, n - 1);
    }
  }

  lemma PartsStop(items: seq<Value>, path: seq<nat>, depth: nat, kind: Kind, n: nat)
    requires depth >= 2 && n <= |items| && WalkedParts(items, path, depth, kind, n).Err?
    ensures n > 0
    ensures WalkedParts(items, path, depth, kind, n - 1).Err? ==>
      WalkedParts(items, path, depth, kind, n) == WalkedParts(items, path, depth, kind, n - 1)
  {
    hide Walked;
  }

  /** In one of the arrays, or of it. */
  lemma PartFault(v: Value, path: seq<nat>, depth: nat, kind: Kind, i: nat) returns (rel: seq<nat>)
    requires v.Array? && 2 <= depth <= 3 && (depth == 3 ==> kind == MultiPolygon) && i < |v.items|
    requires WalkedParts(v.items, path, depth, kind, i).Ok? && WalkedParts(v.items, path, depth, kind, i + 1).Err?
    ensures IsThere(v, kind, depth, WalkedParts(v.items, path, depth, kind, i + 1).fault, path, rel)
    ensures depth < 3 ==> WalkedParts(v.items, path, depth, kind, i + 1).fault.what != NoRing
    ensures WalkedParts(v.items, path, depth, kind, i + 1).fault.what != OtherWidth
    decreases depth, 0
  {
    hide *;
    var item, part := v.items[i], path + [i];
    PartGoesWrong(v.items, path, depth, kind, i);
    if !item.Array? || (depth == 3 && item.items == []) {
      rel := [i];
      IsWrongPart(item, kind, depth);
      OfPart(v, path, depth, kind, i, if item.Array? then NoRing else NotAnArray);
    } else {
      var below := WalkFault(item, part, depth - 1, kind);
      rel := [i] + below;
      ThereBelow(v, kind, depth - 1, Walked(item.items, part, depth - 1, kind).fault, path, i, below);
    }
  }

  /** Walking fails at the first part that does. */
  lemma PartGoesWrong(items: seq<Value>, path: seq<nat>, depth: nat, kind: Kind, i: nat)
    requires depth >= 2 && i < |items|
    requires WalkedParts(items, path, depth, kind, i).Ok? && WalkedParts(items, path, depth, kind, i + 1).Err?
    ensures var item, part := items[i], path + [i];
            var fault := WalkedParts(items, path, depth, kind, i + 1).fault;
            if !item.Array? then fault == Fault(NotAnArray, part)
            else if depth == 3 && item.items == [] then fault == Fault(NoRing, part)
            else Walked(item.items, part, depth - 1, kind) == Err(fault)
  {
    hide Walked;
  }

  lemma IsWrongPart(item: Value, kind: Kind, depth: nat)
    requires depth == 3 ==> kind == MultiPolygon
    ensures !item.Array? ==> Wrong(item, kind, NotAnArray)
    ensures depth == 3 && item.Array? && item.items == [] ==> Wrong(item, kind, NoRing)
  {}

  lemma OfPart(v: Value, path: seq<nat>, depth: nat, kind: Kind, i: nat, what: What)
    requires v.Array? && i < |v.items| && depth >= 2
    requires what == NotAnArray || (what == NoRing && depth == 3)
    requires Wrong(v.items[i], kind, what)
    ensures IsThere(v, kind, depth, Fault(what, path + [i]), path, [i])
  {
    assert [i][1..] == [];
    assert Get(v, [i]) == Get(v.items[i], []);
  }

  /** What leads to a position in the coordinates as read leads to it in the coordinates. */
  lemma {:induction false} ImageGets(v: Value, depth: nat, rel: seq<nat>)
    requires var end := Follow(Image(v, depth), rel); end.Some? && end.value.Leaf?
    ensures Get(v, rel).Some? && Reals(Get(v, rel).value) == Follow(Image(v, depth), rel).value.row
    decreases |rel|
  {
    if rel != [] {
      ImageGets(v.items[rel[0]], depth - 1, rel[1..]);
    }
  }

  /** The path of a position is as long as the arrays are deep. */
  lemma {:induction false} PathLength(items: seq<Value>, path: seq<nat>, depth: nat, kind: Kind, i: nat)
    requires Nests(kind, depth) && Walked(items, path, depth, kind).Ok?
    requires Locate(Walked(items, path, depth, kind).value.shape, i).Some?
    ensures |Locate(Walked(items, path, depth, kind).value.shape, i).value| == depth
    decreases depth, |items| + 1
  {
    if depth > 1 {
      PathsLength(items, path, depth, kind, |items|, 0, i);
    }
  }

  lemma {:induction false} PathsLength(items: seq<Value>, path: seq<nat>, depth: nat, kind: Kind, n: nat, k: nat,
                                       i: nat)
    requires Nests(kind, depth) && depth >= 2 && n <= |items| && WalkedParts(items, path, depth, kind, n).Ok?
    requires k <= n && LocateIn(WalkedParts(items, path, depth, kind, n).value.1, k, i).Some?
    ensures |LocateIn(WalkedParts(items, path, depth, kind, n).value.1, k, i).value| == depth
    decreases depth, n, n - k
  {
    hide Walked, Size;
    var parts := WalkedParts(items, path, depth, kind, n).value.1;
    if i < Size(parts[k]) {
      PartIsWalked(items, path, depth, kind, n, k);
      PathLength(items[k].items, path + [k], depth - 1, kind, i);
    } else {
      PathsLength(items, path, depth, kind, n, k + 1, i - Size(parts[k]));
    }
  }

  lemma {:induction false} PartIsWalked(items: seq<Value>, path: seq<nat>, depth: nat, kind: Kind, n: nat, k: nat)
    requires Nests(kind, depth) && depth >= 2 && k < n <= |items| && WalkedParts(items, path, depth, kind, n).Ok?
    ensures items[k].Array? && Walked(items[k].items, path + [k], depth - 1, kind).Ok? && Nests(kind, depth - 1)
    ensures WalkedParts(items, path, depth, kind, n).value.1[k] ==
      Walked(items[k].items, path + [k], depth - 1, kind).value.shape
    decreases n
  {
    hide Walked;
    if k < n - 1 {
      PartIsWalked(items, path, depth, kind, n - 1, k);
    }
  }

  /** A position in what was walked is where its path leads, in the coordinates as they are. */
  lemma PositionIsAt(v: Value, path: seq<nat>, kind: Kind, i: nat) returns (rel: seq<nat>)
    requires v.Array? && v.items != [] && kind != Point && Walked(v.items, path, Depth(kind), kind).Ok?
    requires i < |Walked(v.items, path, Depth(kind), kind).value.rows|
    ensures var flat := Walked(v.items, path, Depth(kind), kind).value;
            rel == Down(flat.shape, i) && |rel| == Depth(kind) && Get(v, rel).Some?
            && Reals(Get(v, rel).value) == flat.rows[i]
  {
    var depth := Depth(kind);
    var flat := Walked(v.items, path, depth, kind).value;
    WalkedIsWhole(v.items, path, depth, kind);
    WalkedNests(v.items, path, depth, kind, flat.rows, 0);
    ImageIsNode(v, depth);
    LocateReaches(flat.rows, flat.shape, 0, i);
    PathLength(v.items, path, depth, kind, i);
    rel := Down(flat.shape, i);
    hide Walked, Image, Nested, Locate, Size;
    ImageGets(v, depth, rel);
  }

  /** Two positions of one geometry that are not of one width. */
  ghost predicate Differ(v: Value, depth: nat, rel: seq<nat>, other: seq<nat>) {
    && |rel| == |other| == depth && Get(v, rel).Some? && Get(v, other).Some?
    && |Reals(Get(v, rel).value)| != |Reals(Get(v, other).value)|
  }

  lemma WidthFault(v: Value, path: seq<nat>, kind: Kind) returns (rel: seq<nat>, other: seq<nat>)
    requires v.Array? && v.items != [] && kind != Point && Walked(v.items, path, Depth(kind), kind).Ok?
    requires ReadValues(v, path, kind).Err?
    ensures IsThere(v, kind, Depth(kind), ReadValues(v, path, kind).fault, path, rel)
    ensures ReadValues(v, path, kind).fault.what == OtherWidth && Differ(v, Depth(kind), rel, other)
  {
    var flat := Walked(v.items, path, Depth(kind), kind).value;
    WalkedIsWhole(v.items, path, Depth(kind), kind);
    WalkedIsSound(v.items, path, Depth(kind), kind);
    hide Walked, Get, Even, Size, Nests, Wrong, Reals, Down, Sound, NoneOne, Sizes;
    var i := UnevenAt(flat, path);
    rel := PositionIsAt(v, path, kind, i);
    other := PositionIsAt(v, path, kind, 0);
    IsSomePosition(flat, i, Get(v, rel).value, kind);
  }

  lemma UnevenAt(flat: Flat<Position>, path: seq<nat>) returns (i: nat)
    requires flat.rows != [] && Size(flat.shape) == |flat.rows| && Even(flat, path).Err?
    ensures i < |flat.rows| && |flat.rows[i]| != |flat.rows[0]|
    ensures Even(flat, path) == Err(Fault(OtherWidth, path + Down(flat.shape, i)))
  {
    i := Uneven(flat.rows, 1);
  }

  lemma IsSomePosition(flat: Flat<Position>, i: nat, w: Value, kind: Kind)
    requires i < |flat.rows| && Reals(w) == flat.rows[i] && Sound(flat.rows, Sizes(flat.shape), kind)
    ensures Wrong(w, kind, OtherWidth)
  {}

  /** Where reading fails, the fault is so where it says: of what the indices after the path lead to. */
  lemma FaultIsThere(value: Value, path: seq<nat>, kind: Kind) returns (rel: seq<nat>, other: seq<nat>)
    requires ReadCoordinates(value, path, kind).Err?
    ensures var fault := ReadCoordinates(value, path, kind).fault;
            IsThere(value, kind, Depth(kind), fault, path, rel) &&
            (fault.what == OtherWidth ==> Differ(value, Depth(kind), rel, other))
  {
    rel, other := [], [];
    assert path + [] == path;
    hide ReadPlain, Walked;
    if value.Array? && value.items != [] {
      if kind == Point {
        rel := PositionFault(value, path, kind);
      } else if Walked(value.items, path, Depth(kind), kind).Err? {
        rel := WalkFault(value, path, Depth(kind), kind);
      } else {
        rel, other := WidthFault(value, path, kind);
      }
    }
  }
}
