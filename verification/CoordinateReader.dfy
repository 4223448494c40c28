module CoordinateReader {
  // Reading coordinates step by step (geodetic_engine/geojson/_model.py, lines 660 to 822).

  import opened Arrays
  import opened Coordinates
  import opened Options

  /** What walking some more comes to: its positions collected after those before, or its fault. */
  ghost predicate Collects(walked: Result<Flat<Position>>, flat: seq<Position>, shape: Result<Shape>,
                           collected: seq<Position>) {
    if walked.Ok? then shape == Ok(walked.value.shape) && collected == flat + walked.value.rows
    else shape == Err(walked.fault)
  }

  /** _walk: positions are added to those collected before. */
  method Walk(items: seq<Value>, path: seq<nat>, depth: nat, kind: Kind, flat: seq<Position>)
    returns (shape: Result<Shape>, collected: seq<Position>)
    requires Nests(kind, depth)
    ensures Collects(Walked(items, path, depth, kind), flat, shape, collected)
    decreases depth
  {
    if depth == 1 {
      shape, collected := WalkPositions(items, path, kind, flat);
      return;
    }
    collected := flat;
    var parts: seq<Shape> := [];
    for index := 0 to |items|
      invariant WalkedParts(items, path, depth, kind, index).Ok?
      invariant parts == WalkedParts(items, path, depth, kind, index).value.1
      invariant collected == flat + WalkedParts(items, path, depth, kind, index).value.0
    {
      var nested, more := WalkPart(items[index], path + [index], depth, kind, collected);
      PartWalked(items, path, depth, kind, index, flat, collected, parts, nested, more);
      if nested.Err? {
        return Err(nested.fault), more;
      }
      parts, collected := parts + [nested.value], more;
    }
    shape := Ok(Parts(parts));
  }

  /** One of the arrays in an array. */
  function WalkedPart(item: Value, part: seq<nat>, depth: nat, kind: Kind): Result<Flat<Position>>
    requires depth >= 2
  {
    if !item.Array? then Err(Fault(NotAnArray, part))
    else if depth == 3 && item.items == [] then Err(Fault(NoRing, part))
    else Walked(item.items, part, depth - 1, kind)
  }

  method WalkPart(item: Value, part: seq<nat>, depth: nat, kind: Kind, flat: seq<Position>)
    returns (shape: Result<Shape>, collected: seq<Position>)
    requires Nests(kind, depth) && depth >= 2
    ensures Collects(WalkedPart(item, part, depth, kind), flat, shape, collected)
    decreases depth, 0
  {
    if !item.Array? {
      return Err(Fault(NotAnArray, part)), flat;
    }
    if depth == 3 && |item.items| == 0 {
      return Err(Fault(NoRing, part)), flat;
    }
    shape, collected := Walk(item.items, part, depth - 1, kind, flat);
  }

  lemma PartWalked(items: seq<Value>, path: seq<nat>, depth: nat, kind: Kind, n: nat, flat: seq<Position>,
                   before: seq<Position>, parts: seq<Shape>, nested: Result<Shape>, more: seq<Position>)
    requires depth >= 2 && n < |items| && WalkedParts(items, path, depth, kind, n).Ok?
    requires WalkedParts(items, path, depth, kind, n).value.1 == parts &&
      before == flat + WalkedParts(items, path, depth, kind, n).value.0
    requires Collects(WalkedPart(items[n], path + [n], depth, kind), before, nested, more)
    ensures var all := WalkedParts(items, path, depth, kind, n + 1);
            if nested.Ok? then all.Ok? && all.value.1 == parts + [nested.value] && more == flat + all.value.0
            else WalkedParts(items, path, depth, kind, |items|) == Err(nested.fault)
  {
    if nested.Ok? {
      var rows := WalkedPart(items[n], path + [n], depth, kind).value.rows;
      var was := WalkedParts(items, path, depth, kind, n).value.0;
      assert (flat + was) + rows == flat + (was + rows);
    } else {
      Stops(items, path, depth, kind, n + 1);
    }
  }

  /** The first fault is the one named. */
  lemma {:induction false} Stops(items: seq<Value>, path: seq<nat>, depth: nat, kind: Kind, n: nat)
    requires depth >= 2 && n <= |items| && WalkedParts(items, path, depth, kind, n).Err?
    ensures WalkedParts(items, path, depth, kind, |items|) == WalkedParts(items, path, depth, kind, n)
    decreases |items| - n
  {
    if n < |items| {
      Stops(items, path, depth, kind, n + 1);
    }
  }

  method WalkPositions(items: seq<Value>, path: seq<nat>, kind: Kind, flat: seq<Position>)
    returns (shape: Result<Shape>, collected: seq<Position>)
    ensures Collects(Walked(items, path, 1, kind), flat, shape, collected)
  {
    var start := |flat|;
    collected := flat;
    for index := 0 to |items|
      invariant ReadPositions(items, path, index).Ok?
      invariant collected == flat + ReadPositions(items, path, index).value
    {
      var position := ReadPosition(items[index], path + [index]);
      if position.Err? {
        PositionsStop(items, path, index + 1);
        return Err(position.fault), collected;
      }
      collected := collected + [position.value];
    }
    var count := |items|;
    if Lines(kind) && count < 2 {
      return Err(Fault(ShortLine, path)), collected;
    }
    if Rings(kind) {
      if count < 4 {
        return Err(Fault(ShortRing, path)), collected;
      }
      if collected[start] != collected[|collected| - 1] {
        return Err(Fault(OpenRing, path)), collected;
      }
    }
    shape := Ok(Count(count));
  }

  lemma {:induction false} PositionsStop(items: seq<Value>, path: seq<nat>, n: nat)
    requires n <= |items| && ReadPositions(items, path, n).Err?
    ensures ReadPositions(items, path, |items|) == ReadPositions(items, path, n)
    decreases |items| - n
  {
    if n < |items| {
      PositionsStop(items, path, n + 1);
    }
  }

  /** _plain_nesting. */
  method PlainNesting(items: seq<Value>, depth: nat, kind: Kind) returns (r: Option<Flat<Value>>)
    requires depth >= 1
    ensures r == Plainly(items, depth, kind)
    decreases depth
  {
    if depth == 1 {
      var count := |items|;
      if (Lines(kind) && count < 2) || (Rings(kind) && count < 4) {
        return None;
      }
      return Some(Flat(items, Count(count)));
    }
    var flat: seq<Value>, shape: seq<Shape> := [], [];
    for index := 0 to |items|
      invariant PlainParts(items, depth, kind, index) == Some((flat, shape))
    {
      var item := items[index];
      if !IsPlain(item) || (depth == 3 && |item.items| == 0) {
        NotPlain(items, depth, kind, index + 1);
        return None;
      }
      var nested := PlainNesting(item.items, depth - 1, kind);
      if nested.None? {
        NotPlain(items, depth, kind, index + 1);
        return None;
      }
      flat, shape := flat + nested.value.rows, shape + [nested.value.shape];
    }
    r := Some(Flat(flat, Parts(shape)));
  }

  lemma {:induction false} NotPlain(items: seq<Value>, depth: nat, kind: Kind, n: nat)
    requires depth >= 2 && n <= |items| && PlainParts(items, depth, kind, n).None?
    ensures PlainParts(items, depth, kind, |items|).None?
    decreases |items| - n
  {
    if n < |items| {
      NotPlain(items, depth, kind, n + 1);
    }
  }

  /** _closed. */
  method AreClosed(flat: seq<Value>, shape: Shape) returns (closed: bool)
    requires Sum(Sizes(shape), |Sizes(shape)|) == |flat| && forall k :: 0 <= k < |Sizes(shape)| ==> Sizes(shape)[k] > 0
    ensures closed == Closed(flat, Sizes(shape))
  {
    var sizes := Sizes(shape);
    var end := 0;
    for k := 0 to |sizes|
      invariant end == Sum(sizes, k)
      invariant forall j: nat :: j < k ==> ClosedAt(flat, sizes, j)
    {
      var start := end;
      end := end + sizes[k];
      SumGrows(sizes, k, |sizes|);
      SumGrows(sizes, k + 1, |sizes|);
      if !Same(flat[start], flat[end - 1]) {
        assert !ClosedAt(flat, sizes, k);
        return false;
      }
    }
    closed := true;
  }

  /** _read_values: value by value, and then all of one width. */
  method ReadByValue(value: Value, path: seq<nat>, kind: Kind) returns (r: Result<Flat<Position>>)
    ensures r == ReadValues(value, path, kind)
  {
    if !value.Array? {
      return Err(Fault(NotAnArray, path));
    }
    if |value.items| == 0 {
      return Ok(Flat([], Parts([])));
    }
    var depth := Depth(kind);
    if depth == 0 {
      var row := ReadItems(value.items, path);
      return if row.Err? then Err(row.fault) else Ok(Flat([row.value], One));
    }
    var shape, flat := Walk(value.items, path, depth, kind, []);
    if shape.Err? {
      return Err(shape.fault);
    }
    WalkedIsWhole(value.items, path, depth, kind);
    assert flat == Walked(value.items, path, depth, kind).value.rows;
    var width := |flat[0]|;
    for index := 0 to |flat|
      invariant forall j :: 0 <= j < index ==> |flat[j]| == |flat[0]|
    {
      if |flat[index]| != width {
        UnevenAt(flat, 1, index);
        return Err(Fault(OtherWidth, path + Down(shape.value, index)));
      }
    }
    r := Ok(Flat(flat, shape.value));
  }

  lemma {:induction false} UnevenAt(rows: seq<Position>, n: nat, i: nat)
    requires 0 < n <= i < |rows| && |rows[i]| != |rows[0]| && forall j :: 0 <= j < i ==> |rows[j]| == |rows[0]|
    ensures Uneven(rows, n) == i
    decreases i - n
  {
    if n < i {
      UnevenAt(rows, n + 1, i);
    }
  }
}
