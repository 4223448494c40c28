/** What reading coordinates promises (geodetic_engine/geojson/_model.py). */
module CoordinatesLaws {
  import opened Arrays
  import opened Coordinates
  import opened Options

  // ----- just what the fast reader takes

  /** Plain arrays down to its positions, and no number of another type in them. */
  predicate AllPlain(v: Value, depth: nat) {
    && v.Array? && (v.make == List || v.make == Tuple)
    && if depth == 0 then forall i :: 0 <= i < |v.items| && v.items[i].Num? ==> !v.items[i].number.Alike?
       else forall i :: 0 <= i < |v.items| ==> AllPlain(v.items[i], depth - 1)
  }

  lemma {:induction false} NumbersAreRead(items: seq<Value>, path: seq<nat>, n: nat)
    requires n <= |items| && ReadNumbers(items, path, n).Ok?
    ensures forall i :: 0 <= i < n ==>
      ReadNumber(items[i], path + [i]).Ok? && ReadNumbers(items, path, n).value[i] == Real(items[i])
  {
    if n > 0 {
      NumbersAreRead(items, path, n - 1);
    }
  }

  /** A position that is read is what its numbers are as floats. */
  lemma PositionIsReals(v: Value, path: seq<nat>)
    requires ReadPosition(v, path).Ok?
    ensures ReadPosition(v, path).value == Reals(v) && 2 <= |Reals(v)| <= 3
    ensures AllPlain(v, 0) ==> IsReadPosition(v)
  {
    NumbersAreRead(v.items, path, |v.items|);
  }

  lemma {:induction false} PositionsAreReals(items: seq<Value>, path: seq<nat>, n: nat)
    requires n <= |items| && ReadPositions(items, path, n).Ok?
    ensures ReadPositions(items, path, n).value == AllReals(items[..n])
    ensures forall i :: 0 <= i < n ==>
      items[i].Array? && 2 <= |Reals(items[i])| <= 3 && (AllPlain(items[i], 0) ==> IsReadPosition(items[i]))
  {
    hide *;
    if n == 0 {
      NoPositions(items, path);
      return;
    }
    LastPosition(items, path, n);
    PositionsAreReals(items, path, n - 1);
    PositionIsReals(items[n - 1], path + [n - 1]);
    AllRealsNext(items[..n - 1], items[n - 1]);
    assert items[..n] == items[..n - 1] + [items[n - 1]];
  }

  lemma NoPositions(items: seq<Value>, path: seq<nat>)
    ensures ReadPositions(items, path, 0) == Ok(AllReals(items[..0]))
  {}

  /** The positions before the last are read, and so is it. */
  lemma LastPosition(items: seq<Value>, path: seq<nat>, n: nat)
    requires 0 < n <= |items| && ReadPositions(items, path, n).Ok?
    ensures ReadPositions(items, path, n - 1).Ok? && ReadPosition(items[n - 1], path + [n - 1]).Ok? &&
      items[n - 1].Array?
    ensures ReadPositions(items, path, n).value == ReadPositions(items, path, n - 1).value +
      [ReadPosition(items[n - 1], path + [n - 1]).value]
  {}

  lemma AllRealsNext(rows: seq<Value>, last: Value)
    ensures AllReals(rows + [last]) == AllReals(rows) + [Reals(last)]
  {}

  ghost predicate AsWalked(items: seq<Value>, path: seq<nat>, depth: nat, kind: Kind)
    requires depth >= 1
  {
    var plain, walked := Plainly(items, depth, kind), Walked(items, path, depth, kind);
    && plain.Some? && walked.Ok? && AllPositions(plain.value.rows)
    && walked.value == Flat(AllReals(plain.value.rows), plain.value.shape)
  }

  lemma {:induction false} WalkedIsPlain(items: seq<Value>, path: seq<nat>, depth: nat, kind: Kind)
    requires Nests(kind, depth) && Walked(items, path, depth, kind).Ok?
    requires forall i :: 0 <= i < |items| ==> AllPlain(items[i], depth - 1)
    ensures AsWalked(items, path, depth, kind)
    decreases depth, |items| + 1
  {
    if depth == 1 {
      LineIsPlain(items, path, kind);
    } else {
      PartsAreWhole(items, path, depth, kind);
    }
  }

  lemma LineIsPlain(items: seq<Value>, path: seq<nat>, kind: Kind)
    requires Walked(items, path, 1, kind).Ok? && forall i :: 0 <= i < |items| ==> AllPlain(items[i], 0)
    ensures AsWalked(items, path, 1, kind)
  {
    PositionsAreReals(items, path, |items|);
    assert items[..|items|] == items;
    hide IsReadPosition, Reals;
  }

  lemma {:induction false} PartsAreWhole(items: seq<Value>, path: seq<nat>, depth: nat, kind: Kind)
    requires Nests(kind, depth) && depth >= 2 && Walked(items, path, depth, kind).Ok?
    requires forall i :: 0 <= i < |items| ==> AllPlain(items[i], depth - 1)
    ensures AsWalked(items, path, depth, kind)
    decreases depth, |items| + 1, 0
  {
    WalkedPartsArePlain(items, path, depth, kind, |items|);
    hide IsReadPosition, Reals, AllPlain;
  }

  ghost predicate PartsAsWalked(items: seq<Value>, path: seq<nat>, depth: nat, kind: Kind, n: nat)
    requires depth >= 2 && n <= |items|
  {
    var plain, walked := PlainParts(items, depth, kind, n), WalkedParts(items, path, depth, kind, n);
    && plain.Some? && walked.Ok? && AllPositions(plain.value.0)
    && walked.value == (AllReals(plain.value.0), plain.value.1)
  }

  lemma {:induction false} WalkedPartsArePlain(items: seq<Value>, path: seq<nat>, depth: nat, kind: Kind, n: nat)
    requires Nests(kind, depth) && depth >= 2 && n <= |items| && WalkedParts(items, path, depth, kind, n).Ok?
    requires forall i :: 0 <= i < |items| ==> AllPlain(items[i], depth - 1)
    ensures PartsAsWalked(items, path, depth, kind, n)
    decreases depth, n
  {
    hide *;
    if n == 0 {
      NoPartsArePlain(items, path, depth, kind);
    } else {
      var item := items[n - 1];
      PlainBelow(item, depth - 1);
      var rows, shapes, last := LastPart(items, path, depth, kind, n);
      WalkedPartsArePlain(items, path, depth, kind, n - 1);
      WalkedIsPlain(item.items, path + [n - 1], depth - 1, kind);
      PlainNext(items, path, depth, kind, n, rows, shapes, last);
    }
  }

  lemma NoPartsArePlain(items: seq<Value>, path: seq<nat>, depth: nat, kind: Kind)
    requires depth >= 2
    ensures PartsAsWalked(items, path, depth, kind, 0)
  {}

  lemma PlainBelow(item: Value, depth: nat)
    requires AllPlain(item, depth) && depth > 0
    ensures IsPlain(item) && forall i :: 0 <= i < |item.items| ==> AllPlain(item.items[i], depth - 1)
  {}

  lemma PlainNext(items: seq<Value>, path: seq<nat>, depth: nat, kind: Kind, n: nat, rows: seq<Position>,
                  shapes: seq<Shape>, last: Flat<Position>)
    requires depth >= 2 && 0 < n <= |items| && IsPlain(items[n - 1]) && (depth == 3 ==> items[n - 1].items != [])
    requires PartsAsWalked(items, path, depth, kind, n - 1) &&
      AsWalked(items[n - 1].items, path + [n - 1], depth - 1, kind)
    requires WalkedParts(items, path, depth, kind, n - 1) == Ok((rows, shapes))
    requires Walked(items[n - 1].items, path + [n - 1], depth - 1, kind) == Ok(last)
    requires WalkedParts(items, path, depth, kind, n) == Ok((rows + last.rows, shapes + [last.shape]))
    ensures PartsAsWalked(items, path, depth, kind, n)
  {
    hide Walked, WalkedParts, IsReadPosition, Reals;
    AllRealsJoined(PlainParts(items, depth, kind, n - 1).value.0,
                   Plainly(items[n - 1].items, depth - 1, kind).value.rows);
  }

  /** The fast reader nests plain arrays only. */
  lemma {:induction false} NestedIsPlain(items: seq<Value>, depth: nat, kind: Kind)
    requires depth >= 1 && Plainly(items, depth, kind).Some? && AllPositions(Plainly(items, depth, kind).value.rows)
    ensures forall i :: 0 <= i < |items| ==> AllPlain(items[i], depth - 1)
    decreases depth, |items| + 1
  {
    if depth > 1 {
      NestedPartsArePlain(items, depth, kind, |items|);
    }
  }

  lemma {:induction false} NestedPartsArePlain(items: seq<Value>, depth: nat, kind: Kind, n: nat)
    requires depth >= 2 && n <= |items| && PlainParts(items, depth, kind, n).Some?
    requires AllPositions(PlainParts(items, depth, kind, n).value.0)
    ensures forall i :: 0 <= i < n ==> AllPlain(items[i], depth - 1)
    decreases depth, n
  {
    if n > 0 {
      var before, last := PlainParts(items, depth, kind, n - 1).value.0,
          Plainly(items[n - 1].items, depth - 1, kind).value.rows;
      PositionsSplit(before, last);
      NestedPartsArePlain(items, depth, kind, n - 1);
      NestedIsPlain(items[n - 1].items, depth - 1, kind);
    }
  }

  lemma PositionsSplit(first: seq<Value>, second: seq<Value>)
    requires AllPositions(first + second)
    ensures AllPositions(first) && AllPositions(second)
  {
    assert forall i :: 0 <= i < |first| ==> (first + second)[i] == first[i];
    assert forall i :: 0 <= i < |second| ==> (first + second)[|first| + i] == second[i];
  }

  /** Each ring ends, as read, as it starts. */
  predicate EndsAsRead(value: Value, kind: Kind)
    requires value.Array?
  {
    Rings(kind) ==>
      var nested := Plainly(value.items, Depth(kind), kind);
      nested.Some? && Closed(nested.value.rows, Sizes(nested.value.shape))
  }

  /** The fast reader takes coordinates just when the slow one reads some positions in them, from plain
      arrays of floats and integers, in rings that end as they start before they are floats. */
  lemma FastTakes(value: Value, path: seq<nat>, kind: Kind)
    requires WellFormed(value)
    ensures ReadPlain(value, kind).Some? <==>
            && ReadValues(value, path, kind).Ok? && value.items != []
            && AllPlain(value, Depth(kind)) && EndsAsRead(value, kind)
  {
    if ReadPlain(value, kind).Some? {
      FastIsSlow(value, path, kind);
      if Depth(kind) > 0 {
        NestedIsPlain(value.items, Depth(kind), kind);
      }
    } else if ReadValues(value, path, kind).Ok? && value.items != [] && AllPlain(value, Depth(kind)) &&
        EndsAsRead(value, kind) {
      Taken(value, path, kind);
    }
  }

  lemma Taken(value: Value, path: seq<nat>, kind: Kind)
    requires ReadValues(value, path, kind).Ok? && value.items != [] && AllPlain(value, Depth(kind)) &&
      EndsAsRead(value, kind)
    ensures ReadPlain(value, kind).Some?
  {
    hide Walked, Plainly, Sizes, Size, IsReadPosition, OneWidth, Closed, Locate, ReadItems;
    if Depth(kind) == 0 {
      PointIsTaken(value, path);
    } else {
      WalkedIsPlain(value.items, path, Depth(kind), kind);
      WalkedIsWhole(value.items, path, Depth(kind), kind);
      var rows := Plainly(value.items, Depth(kind), kind).value.rows;
      EvenIsOneWidth(rows);
    }
  }

  lemma PointIsTaken(value: Value, path: seq<nat>)
    requires AllPlain(value, 0) && ReadItems(value.items, path).Ok?
    ensures AllPlainArrays([value]) && OneWidth([value]) && AllPositions([value])
  {
    PositionIsReals(value, path);
  }

  lemma EvenIsOneWidth(rows: seq<Value>)
    requires AllPositions(rows) && rows != [] && Uneven(AllReals(rows), 1) == |rows|
    ensures AllPlainArrays(rows) && OneWidth(rows)
  {
    assert forall i :: 0 <= i < |rows| ==> |AllReals(rows)[i]| == |rows[i].items|;
    assert forall i :: 0 <= i < |rows| ==> |AllReals(rows)[i]| == |AllReals(rows)[0]|;
  }

  // ----- nesting against flattening

  /** The coordinates as read, with the numbers of each position as floats. */
  function Image(v: Value, depth: nat): Tree<Position> {
    if v.Array? && v.items == [] then Node([])
    else if v.Array? && depth > 0 then
        Node(seq(|v.items|, i requires 0 <= i < |v.items| => Image(v.items[i], depth - 1)))
    else Leaf(Reals(v))
  }

  predicate Holds(rows: seq<Position>, start: nat, some: seq<Position>) {
    start + |some| <= |rows| && forall i :: 0 <= i < |some| ==> rows[start + i] == some[i]
  }

  /** Nesting the flat positions as they were nested gives the coordinates back. */
  lemma {:induction false} WalkedNests(items: seq<Value>, path: seq<nat>, depth: nat, kind: Kind, rows: seq<Position>,
                                       start: nat)
    requires Nests(kind, depth) && Walked(items, path, depth, kind).Ok?
    requires items != [] || (depth == 1 && (Lines(kind) || Rings(kind)))
    requires Holds(rows, start, Walked(items, path, depth, kind).value.rows)
    ensures var shape := Walked(items, path, depth, kind).value.shape;
            start + Size(shape) <= |rows| && Nested(rows, shape, start).0 == Node(Images(items, depth - 1, |items|))
    decreases depth, |items| + 1
  {
    WalkedIsWhole(items, path, depth, kind);
    if depth == 1 {
      PositionsAreReals(items, path, |items|);
      assert items[..|items|] == items;
      LineNests(items, rows, start);
    } else {
      WalkedPartsNest(items, path, depth, kind, |items|, rows, start);
    }
  }

  lemma LineNests(items: seq<Value>, rows: seq<Position>, start: nat)
    requires Holds(rows, start, AllReals(items))
    requires forall i :: 0 <= i < |items| ==> items[i].Array? && 2 <= |Reals(items[i])|
    ensures Nested(rows, Count(|items|), start).0 == Node(Images(items, 0, |items|))
  {
    forall i | 0 <= i < |items| ensures Leaf(rows[start + i]) == Image(items[i], 0) {
      assert rows[start + i] == AllReals(items)[i];
    }
  }

  function Images(items: seq<Value>, depth: nat, n: nat): (r: seq<Tree<Position>>)
    requires n <= |items|
    ensures |r| == n
  {
    seq(n, i requires 0 <= i < n => Image(items[i], depth))
  }

  lemma {:induction false} WalkedPartsNest(items: seq<Value>, path: seq<nat>, depth: nat, kind: Kind, n: nat,
                                           rows: seq<Position>, start: nat)
    requires Nests(kind, depth) && depth >= 2 && n <= |items| && WalkedParts(items, path, depth, kind, n).Ok?
    requires Holds(rows, start, WalkedParts(items, path, depth, kind, n).value.0) && start <= |rows|
    ensures var parts := WalkedParts(items, path, depth, kind, n).value.1;
            start + SizeOf(parts, n) <= |rows| && NestedIn(rows, parts, n, start).0 == Images(items, depth - 1, n)
    decreases depth, n
  {
    hide *;
    if n == 0 {
      NoPartsNest(items, path, depth, kind, rows, start);
      return;
    }
    var item, part := items[n - 1], path + [n - 1];
    var rs, shapes, last := LastPart(items, path, depth, kind, n);
    HoldsSplit(rows, start, rs, last.rows);
    WalkedPartsAreWhole(items, path, depth, kind, n - 1);
    WalkedPartsNest(items, path, depth, kind, n - 1, rows, start);
    WalkedIsWhole(item.items, part, depth - 1, kind);
    WalkedNests(item.items, part, depth - 1, kind, rows, start + |rs|);
    NestedNext(rows, shapes, last.shape, start);
    ImageIsNode(item, depth - 1);
    ImagesNext(items, depth - 1, n);
  }

  lemma NoPartsNest(items: seq<Value>, path: seq<nat>, depth: nat, kind: Kind, rows: seq<Position>, start: nat)
    requires depth >= 2 && WalkedParts(items, path, depth, kind, 0).Ok? && start <= |rows|
    ensures var parts := WalkedParts(items, path, depth, kind, 0).value.1;
      SizeOf(parts, 0) == 0 && NestedIn(rows, parts, 0, start).0 == Images(items, depth - 1, 0)
  {}

  lemma ImageIsNode(item: Value, depth: nat)
    requires item.Array? && depth > 0
    ensures Image(item, depth) == Node(Images(item.items, depth - 1, |item.items|))
  {
    assert item.items == [] ==> Images(item.items, depth - 1, 0) == [];
  }

  lemma ImagesNext(items: seq<Value>, depth: nat, n: nat)
    requires 0 < n <= |items|
    ensures Images(items, depth, n) == Images(items, depth, n - 1) + [Image(items[n - 1], depth)]
  {}

  lemma HoldsSplit(rows: seq<Position>, start: nat, first: seq<Position>, second: seq<Position>)
    requires Holds(rows, start, first + second)
    ensures Holds(rows, start, first) && Holds(rows, start + |first|, second)
  {
    forall i | 0 <= i < |first| ensures rows[start + i] == first[i] {
      assert (first + second)[i] == first[i];
    }
    forall i | 0 <= i < |second| ensures rows[start + |first| + i] == second[i] {
      assert (first + second)[|first| + i] == second[i];
    }
  }

  lemma NestedNext<T>(rows: seq<T>, parts: seq<Shape>, last: Shape, start: nat)
    requires start + SizeOf(parts, |parts|) + Size(last) <= |rows|
    ensures SizeOf(parts + [last], |parts| + 1) == SizeOf(parts, |parts|) + Size(last)
    ensures NestedIn(rows, parts + [last], |parts| + 1, start).0
            == NestedIn(rows, parts, |parts|, start).0 + [Nested(rows, last, start + SizeOf(parts, |parts|)).0]
  {
    SizeOfJoined(parts, last);
    SizeOfPrefix(parts, parts + [last], |parts|);
    NestedOfPrefix(rows, parts, parts + [last], |parts|, start);
  }

  lemma {:induction false} NestedOfPrefix<T>(rows: seq<T>, parts: seq<Shape>, longer: seq<Shape>, n: nat, start: nat)
    requires n <= |parts| && parts <= longer && start + SizeOf(parts, n) <= |rows|
    ensures SizeOf(longer, n) == SizeOf(parts, n)
    ensures NestedIn(rows, longer, n, start) == NestedIn(rows, parts, n, start)
  {
    SizeOfPrefix(parts, longer, n);
    if n > 0 {
      NestedOfPrefix(rows, parts, longer, n - 1, start);
    }
  }

  /** Writing the positions back as they were read writes the coordinates that were read. */
  lemma NestingGivesBack(value: Value, path: seq<nat>, kind: Kind)
    requires ReadValues(value, path, kind).Ok?
    ensures var flat := ReadValues(value, path, kind).value;
            Size(flat.shape) == |flat.rows| &&
                Nested(flat.rows, flat.shape, 0) == (Image(value, Depth(kind)), |flat.rows|)
  {
    if value.items != [] {
      if Depth(kind) == 0 {
        PositionIsReals(value, path);
      } else {
        WalkedIsWhole(value.items, path, Depth(kind), kind);
        WalkedNests(value.items, path, Depth(kind), kind, Walked(value.items, path, Depth(kind), kind).value.rows, 0);
      }
    }
  }

  /** The path named for a position is the one its coordinates are at. */
  lemma PathsNamePositions(value: Value, path: seq<nat>, kind: Kind, i: nat)
    requires ReadValues(value, path, kind).Ok? && i < |ReadValues(value, path, kind).value.rows|
    ensures var flat := ReadValues(value, path, kind).value;
            Locate(flat.shape, i).Some? &&
                Follow(Image(value, Depth(kind)), Locate(flat.shape, i).value) == Some(Leaf(flat.rows[i]))
  {
    NestingGivesBack(value, path, kind);
    LocateReaches(ReadValues(value, path, kind).value.rows, ReadValues(value, path, kind).value.shape, 0, i);
  }

  // ----- what is accepted

  predicate RingCloses(rows: seq<Position>, start: nat, size: nat) {
    size >= 4 && start + size <= |rows| && rows[start] == rows[start + size - 1]
  }

  /** Lines of two positions or more; rings of four or more, the last the first (section 3.1 of RFC 7946). */
  predicate LongEnough(rows: seq<Position>, sizes: seq<nat>, kind: Kind, k: nat)
    requires k < |sizes|
  {
    && (Lines(kind) ==> sizes[k] >= 2)
    && (Rings(kind) ==> RingCloses(rows, Sum(sizes, k), sizes[k]))
  }

  ghost predicate Sound(rows: seq<Position>, sizes: seq<nat>, kind: Kind) {
    && Sum(sizes, |sizes|) == |rows|
    && (forall i :: 0 <= i < |rows| ==> 2 <= |rows[i]| <= 3)
    && (forall k: nat :: k < |sizes| ==> LongEnough(rows, sizes, kind, k))
  }

  lemma {:induction false} WalkedIsSound(items: seq<Value>, path: seq<nat>, depth: nat, kind: Kind)
    requires Nests(kind, depth) && (items != [] || (depth == 1 && (Lines(kind) || Rings(kind)))) &&
      Walked(items, path, depth, kind).Ok?
    ensures var flat := Walked(items, path, depth, kind).value; Sound(flat.rows, Sizes(flat.shape), kind)
    decreases depth, |items| + 1
  {
    if depth == 1 {
      PositionsAreReals(items, path, |items|);
      LineIsSound(Walked(items, path, depth, kind).value.rows, path, kind);
    } else {
      WalkedPartsAreSound(items, path, depth, kind, |items|);
    }
  }

  lemma LineIsSound(rows: seq<Position>, path: seq<nat>, kind: Kind)
    requires WalkedLine(rows, path, kind).Ok? && forall i :: 0 <= i < |rows| ==> 2 <= |rows[i]| <= 3
    ensures Sound(rows, Sizes(Count(|rows|)), kind)
  {
    assert Sizes(Count(|rows|)) == [|rows|];
    assert Sum([|rows|], 1) == Sum([|rows|], 0) + |rows|;
  }

  lemma {:induction false} WalkedPartsAreSound(items: seq<Value>, path: seq<nat>, depth: nat, kind: Kind, n: nat)
    requires Nests(kind, depth) && depth >= 2 && n <= |items| && WalkedParts(items, path, depth, kind, n).Ok?
    ensures var parts := WalkedParts(items, path, depth, kind, n).value; Sound(parts.0, SizesOf(parts.1, n), kind)
    decreases depth, n
  {
    hide *;
    if n == 0 {
      NoPartsAreSound(items, path, depth, kind);
    } else {
      var rows, shapes, last := LastPart(items, path, depth, kind, n);
      WalkedPartsAreSound(items, path, depth, kind, n - 1);
      WalkedIsSound(items[n - 1].items, path + [n - 1], depth - 1, kind);
      SizesOfJoined(shapes, last.shape);
      SoundJoined(rows, last.rows, SizesOf(shapes, n - 1), Sizes(last.shape), kind);
    }
  }

  lemma NoPartsAreSound(items: seq<Value>, path: seq<nat>, depth: nat, kind: Kind)
    requires depth >= 2
    ensures WalkedParts(items, path, depth, kind, 0) == Ok(([], [])) && Sound([], SizesOf([], 0), kind)
  {}

  lemma SoundJoined(first: seq<Position>, second: seq<Position>, some: seq<nat>, more: seq<nat>, kind: Kind)
    requires Sound(first, some, kind) && Sound(second, more, kind)
    ensures Sound(first + second, some + more, kind)
  {
    var rows, sizes := first + second, some + more;
    SumOfJoined(some, more, |more|);
    forall k: nat | k < |sizes| ensures LongEnough(rows, sizes, kind, k) {
      if k < |some| {
        SoundInFirst(first, second, some, more, kind, k);
      } else {
        SoundInSecond(first, second, some, more, kind, k - |some|);
      }
    }
  }

  lemma SoundInFirst(first: seq<Position>, second: seq<Position>, some: seq<nat>, more: seq<nat>, kind: Kind, k: nat)
    requires k < |some| && LongEnough(first, some, kind, k)
    ensures LongEnough(first + second, some + more, kind, k)
  {
    SumOfPrefix(some, some + more, k);
  }

  lemma SoundInSecond(first: seq<Position>, second: seq<Position>, some: seq<nat>, more: seq<nat>, kind: Kind, k: nat)
    requires Sum(some, |some|) == |first| && k < |more| && LongEnough(second, more, kind, k)
    ensures LongEnough(first + second, some + more, kind, |some| + k)
  {
    SumOfJoined(some, more, k);
    var rows, start := first + second, Sum(more, k);
    if Rings(kind) {
      assert rows[|first| + start] == second[start] &&
          rows[|first| + start + more[k] - 1] == second[start + more[k] - 1];
    }
  }

  /** What is read has positions all of one width, in lines and rings that are long enough and closed. */
  lemma ReadIsSound(value: Value, path: seq<nat>, kind: Kind)
    requires ReadValues(value, path, kind).Ok? && value.items != [] && kind != Point
    ensures var flat := ReadValues(value, path, kind).value;
            Sound(flat.rows, Sizes(flat.shape), kind) && forall i :: 0 <= i < |flat.rows| ==>
                |flat.rows[i]| == |flat.rows[0]|
  {
    WalkedIsSound(value.items, path, Depth(kind), kind);
    WalkedIsWhole(value.items, path, Depth(kind), kind);
  }
}
