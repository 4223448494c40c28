/** The coordinates of a GeoJSON geometry (geodetic_engine/geojson/_model.py, lines 660 to 1003).

    A fast reader takes coordinates that are as JSON text reads them; a slow one reads value by
    value and names what is wrong. Positions are kept flat, with the shape they nest in. */
module Coordinates {
  import opened Arrays
  import opened Doubles
  import opened Numbers
  import opened Options

  /** A 64-bit float. */
  datatype Double = NotFinite | Finite(x: real)

  /** A number as read: a float, an integer of any size, or one of another type, with what float()
      makes of it, None where it raises. */
  datatype Number = Float(double: Double) | Int(n: int) | Alike(made: Option<Double>)

  /** Lists and tuples are the arrays JSON text reads to; a subclass or a numpy array is odd. */
  datatype Make = List | Tuple | Odd

  /** A boolean is no number: it is among the others. */
  datatype Value = Num(number: Number) | Array(make: Make, items: seq<Value>) | Other

  datatype Kind = Point | MultiPoint | LineString | MultiLineString | Polygon | MultiPolygon

  function Depth(kind: Kind): nat {
    match kind
    case Point => 0
    case MultiPoint => 1
    case LineString => 1
    case MultiLineString => 2
    case Polygon => 2
    case MultiPolygon => 3
  }

  predicate Lines(kind: Kind) { kind == LineString || kind == MultiLineString }

  predicate Rings(kind: Kind) { kind == Polygon || kind == MultiPolygon }

  /** How positions nest: a point's single one, so many in an array, or arrays of those. */
  datatype Shape = One | Count(n: nat) | Parts(parts: seq<Shape>)

  type Position = seq<real>

  datatype Flat<T> = Flat(rows: seq<T>, shape: Shape)

  datatype What =
    | NotAnArray | TooFewNumbers | TooManyNumbers | NotANumber | Unholdable | NotAFinite
    | ShortLine | ShortRing | OpenRing | NoRing | OtherWidth

  /** What is wrong, and where: the indices down to it. */
  datatype Fault = Fault(what: What, path: seq<nat>)

  datatype Result<T> = Ok(value: T) | Err(fault: Fault)

  // ----- numbers

  /** float(n): the nearest double, or None past the greatest. */
  function FloatOf(n: int): Option<Double> {
    var size := Rn(LeastDouble(), Abs(n as real));
    if size >= Greatest() then None else Some(Finite(if n < 0 then -size else size))
  }

  /** Every double is less than this: 2 to the 1024. */
  function Greatest(): real {
    Pow2(1024) as real
  }

  /** It raises exactly from half a unit in the last place below 2 to the 1024, and else is the nearest double, of the
      integer's sign. */
  lemma FloatExactly(n: int, size: nat)
    requires size == if n < 0 then -n else n
    ensures FloatOf(n).None? <==> size >= 18014398509481983 * Pow2(970)
    ensures FloatOf(n).Some? ==>
      var d := FloatOf(n).value;
      && d.Finite? && (n >= 0 ==> d.x >= 0.0) && (n < 0 ==> d.x <= 0.0)
      && IsNearest(LeastDouble(), size as real, Abs(d.x))
  {
    assert Abs(n as real) == size as real;
    RnIsTheNearest(LeastDouble(), size as real);
    RoundedPast(size);
    hide Rn, LeastDouble, Pow2, Greatest, IsNearest;
  }

  lemma RoundedPast(size: nat)
    ensures Rn(LeastDouble(), size as real) >= Greatest() <==> size >= 18014398509481983 * Pow2(970)
  {
    hide *;
    var u := LeastDouble();
    var z := Product(size as real, u as real);
    PowersOfTwo(u);
    ShortInUnits(u, Pow2(970));
    PastInUnits(size, u, Pow2(970), z);
    RealProduct(Pow2(1024), u);
    OverUnits(u, size as real, Pow2(1024) as real, z, SIGNIFICANDS * Pow2(2045));
    RoundCountReaches(z, 2045);
    GreatestIs();
  }

  lemma GreatestIs()
    ensures Greatest() == Pow2(1024) as real
  {}

  lemma PowersOfTwo(u: Units)
    requires u == LeastDouble()
    ensures Pow2(2045) == 2 * Pow2(970) * u && SIGNIFICANDS * Pow2(2045) == Pow2(1024) * u
  {
    hide Pow2;
    assert u == Pow2(1074);
    hide *;
    Pow2Adds(971, 1074);
    Pow2Adds(1, 970);
    Pow2Adds(53, 971);
    SmallPowers();
    Regrouped(SIGNIFICANDS, Pow2(971), u);
  }

  lemma Regrouped(a: nat, b: nat, c: nat)
    ensures (a * b) * c == a * (b * c)
  {}

  lemma SmallPowers()
    ensures Pow2(1) == 2 && Pow2(53) == SIGNIFICANDS
  {
    Pow2Ten();
    TinyPowers();
    hide Pow2;
    Pow2Adds(10, 10);
    Pow2Adds(20, 20);
    Pow2Adds(40, 10);
    Pow2Adds(50, 3);
  }

  lemma TinyPowers()
    ensures Pow2(1) == 2 && Pow2(3) == 8
  {}

  lemma ShortInUnits(u: nat, p: nat)
    requires Pow2(2045) == 2 * p * u
    ensures Short(2045) == 18014398509481983.0 * (p * u) as real
  {
    hide Pow2;
    assert Pow2(2045) as real == 2.0 * (p * u) as real;
  }

  lemma PastInUnits(size: nat, u: nat, p: nat, z: real)
    requires u > 0 && z == Product(size as real, u as real)
    ensures z >= 18014398509481983.0 * (p * u) as real <==> size >= 18014398509481983 * p
  {
    var t := 18014398509481983 * p;
    assert 18014398509481983.0 * (p * u) as real == (t * u) as real;
    assert size as real * u as real == (size * u) as real;
    if size >= t {
      assert size * u >= t * u;
    } else {
      assert size * u < t * u;
    }
  }

  function Product(a: real, b: real): real { a * b }

  lemma OverUnits(u: Units, x: real, g: real, z: real, m: nat)
    requires x >= 0.0 && z == Product(x, u as real) && Product(g, u as real) == m as real
    ensures z >= 0.0 && (Rn(u, x) >= g <==> RoundCount(z) >= m)
  {
    assert u > 0;
    hide *;
    RnIsCount(u, x, z);
    Scaled(Rn(u, x), g, u as real);
  }

  lemma RealProduct(g: nat, u: nat)
    ensures Product(g as real, u as real) == (g * u) as real
  {}

  lemma RnIsCount(u: Units, x: real, z: real)
    requires x >= 0.0 && z == Product(x, u as real)
    ensures z >= 0.0 && Product(Rn(u, x), u as real) == RoundCount(z) as real
  {
    hide RoundCount;
  }

  lemma Scaled(a: real, b: real, t: real)
    requires t > 0.0
    ensures a >= b <==> Product(a, t) >= Product(b, t)
  {
    if a < b {
      assert (b - a) * t > 0.0;
    } else {
      assert (a - b) * t >= 0.0;
    }
  }

  ghost predicate IsFloat(d: Double) {
    d.Finite? ==> Abs(d.x) < Greatest() && IsDouble(LeastDouble(), Abs(d.x))
  }

  /** Its floats are doubles. */
  ghost predicate WellFormed(v: Value) {
    match v
    case Num(Float(d)) => IsFloat(d)
    case Array(_, items) => forall i :: 0 <= i < |items| ==> WellFormed(items[i])
    case _ => true
  }

  /** An integer that is some float is converted to it. */
  lemma FloatKept(n: int, d: Double)
    requires IsFloat(d) && d.Finite? && n as real == d.x
    ensures FloatOf(n) == Some(d)
  {
    hide Greatest, LeastDouble, Rn;
    RnKeepsDoubles(LeastDouble(), Abs(d.x));
  }

  /** What a number of a type JSON text reads to is as a float. */
  function Made(number: Number): Option<Double> {
    match number
    case Float(d) => Some(d)
    case Int(n) => FloatOf(n)
    case Alike(made) => made
  }

  /** _number: a finite number as a float. */
  function ReadNumber(v: Value, path: seq<nat>): Result<real> {
    if !v.Num? then Err(Fault(NotANumber, path))
    else if Made(v.number).None? then Err(Fault(Unholdable, path))
    else if Made(v.number).value.NotFinite? then Err(Fault(NotAFinite, path))
    else Ok(Made(v.number).value.x)
  }

  // ----- value by value

  /** The first n of the numbers of a position. */
  function ReadNumbers(items: seq<Value>, path: seq<nat>, n: nat): (r: Result<Position>)
    requires n <= |items|
    ensures r.Ok? ==> |r.value| == n
  {
    if n == 0 then Ok([]) else
      var before := ReadNumbers(items, path, n - 1);
      if before.Err? then before else
        var last := ReadNumber(items[n - 1], path + [n - 1]);
        if last.Err? then Err(last.fault) else Ok(before.value + [last.value])
  }

  /** _position. */
  function ReadPosition(v: Value, path: seq<nat>): (r: Result<Position>) {
    if !v.Array? then Err(Fault(NotAnArray, path))
    else ReadItems(v.items, path)
  }

  function ReadItems(items: seq<Value>, path: seq<nat>): (r: Result<Position>)
    ensures r.Ok? ==> 2 <= |r.value| <= 3
  {
    if |items| < 2 then Err(Fault(TooFewNumbers, path))
    else if |items| > 3 then Err(Fault(TooManyNumbers, path))
    else ReadNumbers(items, path, |items|)
  }

  function ReadPositions(items: seq<Value>, path: seq<nat>, n: nat): (r: Result<seq<Position>>)
    requires n <= |items|
    ensures r.Ok? ==> |r.value| == n
  {
    if n == 0 then Ok([]) else
      var before := ReadPositions(items, path, n - 1);
      if before.Err? then before else
        var last := ReadPosition(items[n - 1], path + [n - 1]);
        if last.Err? then Err(last.fault) else Ok(before.value + [last.value])
  }

  /** _walk: the positions an array nests so deep, and how. */
  function Walked(items: seq<Value>, path: seq<nat>, depth: nat, kind: Kind): (r: Result<Flat<Position>>)
    requires depth >= 1
    decreases depth, |items| + 1
  {
    if depth == 1 then
      var rows := ReadPositions(items, path, |items|);
      if rows.Err? then Err(rows.fault) else WalkedLine(rows.value, path, kind)
    else
      var parts := WalkedParts(items, path, depth, kind, |items|);
      if parts.Err? then Err(parts.fault) else Ok(Flat(parts.value.0, Parts(parts.value.1)))
  }

  function WalkedLine(rows: seq<Position>, path: seq<nat>, kind: Kind): (r: Result<Flat<Position>>) {
    if Lines(kind) && |rows| < 2 then Err(Fault(ShortLine, path))
    else if Rings(kind) && |rows| < 4 then Err(Fault(ShortRing, path))
    else if Rings(kind) && rows[0] != rows[|rows| - 1] then Err(Fault(OpenRing, path))
    else Ok(Flat(rows, Count(|rows|)))
  }

  function WalkedParts(items: seq<Value>, path: seq<nat>, depth: nat, kind: Kind,
                       n: nat): (r: Result<(seq<Position>, seq<Shape>)>)
    requires depth >= 2 && n <= |items|
    ensures r.Ok? ==> |r.value.1| == n
    decreases depth, n
  {
    if n == 0 then Ok(([], [])) else
      var before := WalkedParts(items, path, depth, kind, n - 1);
      if before.Err? then before else
        var item, part := items[n - 1], path + [n - 1];
        if !item.Array? then Err(Fault(NotAnArray, part))
        else if depth == 3 && item.items == [] then Err(Fault(NoRing, part))
        else
          var walked := Walked(item.items, part, depth - 1, kind);
          if walked.Err? then Err(walked.fault)
          else Ok((before.value.0 + walked.value.rows, before.value.1 + [walked.value.shape]))
  }

  /** The first of the positions as wide as the first is not, after the first n. */
  function Uneven(rows: seq<Position>, n: nat): (i: nat)
    requires 0 < n <= |rows|
    ensures n <= i <= |rows|
    ensures i < |rows| ==> |rows[i]| != |rows[0]|
    ensures forall j :: n <= j < i ==> |rows[j]| == |rows[0]|
    decreases |rows| - n
  {
    if n == |rows| || |rows[n]| != |rows[0]| then n else Uneven(rows, n + 1)
  }

  /** All of one width, or the first that is not named. */
  function Even(flat: Flat<Position>, path: seq<nat>): Result<Flat<Position>>
    requires flat.rows != [] && Size(flat.shape) == |flat.rows|
  {
    var i := Uneven(flat.rows, 1);
    if i < |flat.rows| then
      Err(Fault(OtherWidth, path + Down(flat.shape, i)))
    else Ok(flat)
  }

  function Down(shape: Shape, i: nat): seq<nat> {
    var located := Locate(shape, i);
    if located.Some? then located.value else []
  }

  // ----- shapes

  /** _size. */
  function Size(shape: Shape): nat {
    match shape
    case One => 1
    case Count(n) => n
    case Parts(parts) => SizeOf(parts, |parts|)
  }

  function SizeOf(parts: seq<Shape>, n: nat): nat
    requires n <= |parts|
  {
    if n == 0 then 0 else SizeOf(parts, n - 1) + Size(parts[n - 1])
  }

  /** _locate: the indices down to position i, or None where the original raises IndexError. */
  function Locate(shape: Shape, i: nat): Option<seq<nat>> {
    match shape
    case One => Some([])
    case Count(_) => Some([i])
    case Parts(parts) => LocateIn(parts, 0, i)
  }

  function LocateIn(parts: seq<Shape>, k: nat, i: nat): Option<seq<nat>>
    requires k <= |parts|
    decreases parts, |parts| - k
  {
    if k == |parts| then None
    else if i < Size(parts[k]) then
      match Locate(parts[k], i)
      case Some(path) => Some([k] + path)
      case None => None
    else LocateIn(parts, k + 1, i - Size(parts[k]))
  }

  /** _sizes: the positions in each innermost array. */
  function Sizes(shape: Shape): seq<nat> {
    match shape
    case One => []
    case Count(n) => [n]
    case Parts(parts) => SizesOf(parts, |parts|)
  }

  function SizesOf(parts: seq<Shape>, n: nat): seq<nat>
    requires n <= |parts|
  {
    if n == 0 then [] else SizesOf(parts, n - 1) + Sizes(parts[n - 1])
  }

  /** Coordinates: a position, or an array of coordinates. */
  datatype Tree<T> = Leaf(row: T) | Node(nodes: seq<Tree<T>>)

  /** _nested: the rows from a start nested as a shape, and where they end. */
  function Nested<T>(rows: seq<T>, shape: Shape, start: nat): (r: (Tree<T>, nat))
    requires start + Size(shape) <= |rows|
    ensures r.1 == start + Size(shape)
  {
    match shape
    case One => (Leaf(rows[start]), start + 1)
    case Count(n) => (Node(seq(n, i requires 0 <= i < n => Leaf(rows[start + i]))), start + n)
    case Parts(parts) =>
      var nodes := NestedIn(rows, parts, |parts|, start);
      (Node(nodes.0), nodes.1)
  }

  function NestedIn<T>(rows: seq<T>, parts: seq<Shape>, n: nat, start: nat): (r: (seq<Tree<T>>, nat))
    requires n <= |parts| && start + SizeOf(parts, n) <= |rows|
    ensures |r.0| == n && r.1 == start + SizeOf(parts, n)
  {
    if n == 0 then ([], start) else
      var before := NestedIn(rows, parts, n - 1, start);
      var last := Nested(rows, parts[n - 1], before.1);
      (before.0 + [last.0], last.1)
  }

  /** What following indices down a tree leads to. */
  function Follow<T>(tree: Tree<T>, path: seq<nat>): Option<Tree<T>> {
    if path == [] then Some(tree)
    else if tree.Leaf? || path[0] >= |tree.nodes| then None
    else Follow(tree.nodes[path[0]], path[1..])
  }

  // ----- read whole

  predicate IsPlain(v: Value) {
    v.Array? && v.make != Odd
  }

  /** _plain_nesting: the positions of a plain array, and its shape; none where some array is not plain. */
  function Plainly(items: seq<Value>, depth: nat, kind: Kind): Option<Flat<Value>>
    requires depth >= 1
    decreases depth, |items| + 1
  {
    if depth == 1 then
      if (Lines(kind) && |items| < 2) || (Rings(kind) && |items| < 4) then None else Some(Flat(items, Count(|items|)))
    else
      var parts := PlainParts(items, depth, kind, |items|);
      if parts.None? then None else Some(Flat(parts.value.0, Parts(parts.value.1)))
  }

  function PlainParts(items: seq<Value>, depth: nat, kind: Kind, n: nat): (r: Option<(seq<Value>, seq<Shape>)>)
    requires depth >= 2 && n <= |items|
    ensures r.Some? ==> |r.value.1| == n
    decreases depth, n
  {
    if n == 0 then Some(([], [])) else
      var before := PlainParts(items, depth, kind, n - 1);
      var item := items[n - 1];
      if before.None? || !IsPlain(item) || (depth == 3 && item.items == []) then None else
        var nested := Plainly(item.items, depth - 1, kind);
        if nested.None? then None
        else Some((before.value.0 + nested.value.rows, before.value.1 + [nested.value.shape]))
  }

  /** Equal as read: a float and an integer by their values, a list and a tuple never. */
  predicate Same(a: Value, b: Value) {
    match (a, b)
    case (Num(m), Num(n)) => SameNumber(m, n)
    case (Array(make, items), Array(other, others)) =>
      make == other && |items| == |others| && forall i :: 0 <= i < |items| ==> Same(items[i], others[i])
    case _ => false
  }

  predicate SameNumber(m: Number, n: Number) {
    match (m, n)
    case (Int(a), Int(b)) => a == b
    case (Int(a), Float(Finite(x))) => a as real == x
    case (Float(Finite(x)), Int(b)) => x == b as real
    case (Float(d), Float(e)) => d == e
    case _ => false
  }

  /** Each stretch of the sizes' lengths ends as it starts. */
  predicate Closed(flat: seq<Value>, sizes: seq<nat>) {
    && Sum(sizes, |sizes|) == |flat|
    && forall k: nat :: k < |sizes| ==> ClosedAt(flat, sizes, k)
  }

  predicate ClosedAt(flat: seq<Value>, sizes: seq<nat>, k: nat)
    requires k < |sizes|
  {
    ClosedRing(flat, Sum(sizes, k), sizes[k])
  }

  predicate ClosedRing(flat: seq<Value>, start: nat, size: nat) {
    size > 0 && start + size <= |flat| && Same(flat[start], flat[start + size - 1])
  }

  /** A float or an integer, not of another type, that is finite as a float. */
  predicate IsRead(v: Value) {
    v.Num? && !v.number.Alike? && Made(v.number).Some? && Made(v.number).value.Finite?
  }

  /** Two or three such numbers in a plain array. */
  predicate IsReadPosition(v: Value) {
    IsPlain(v) && 2 <= |v.items| <= 3 && forall i :: 0 <= i < |v.items| ==> IsRead(v.items[i])
  }

  /** What a number is as a float, and what a position's are. */
  function Real(v: Value): real {
    if v.Num? && Made(v.number).Some? && Made(v.number).value.Finite? then Made(v.number).value.x else 0.0
  }

  function Reals(v: Value): Position {
    if v.Array? then seq(|v.items|, i requires 0 <= i < |v.items| => Real(v.items[i])) else []
  }

  function AllReals(rows: seq<Value>): (r: seq<Position>)
    ensures |r| == |rows|
  {
    seq(|rows|, i requires 0 <= i < |rows| => Reals(rows[i]))
  }

  predicate AllPlainArrays(rows: seq<Value>) {
    forall i :: 0 <= i < |rows| ==> IsPlain(rows[i])
  }

  /** Positions of one width, of two values or three. */
  predicate OneWidth(rows: seq<Value>)
    requires AllPlainArrays(rows)
  {
    rows != [] && 2 <= |rows[0].items| <= 3 && forall i :: 0 <= i < |rows| ==> |rows[i].items| == |rows[0].items|
  }

  predicate AllPositions(rows: seq<Value>) {
    forall i :: 0 <= i < |rows| ==> IsReadPosition(rows[i])
  }

  /** _read_plain: the positions and shape of plain arrays of plain numbers, none of anything else. */
  function ReadPlain(value: Value, kind: Kind): Option<Flat<Position>> {
    if !IsPlain(value) || value.items == [] then None else
      var nested := if Depth(kind) == 0 then Some(Flat([value], One)) else Plainly(value.items, Depth(kind), kind);
      if nested.None? then None else
        var flat := nested.value;
        if !AllPlainArrays(flat.rows) then None
        else if !OneWidth(flat.rows) then None
        else if !AllPositions(flat.rows) then None
        else if Rings(kind) && !Closed(flat.rows, Sizes(flat.shape)) then None
        else Some(Flat(AllReals(flat.rows), flat.shape))
  }

  /** _read_values: value by value. */
  function ReadValues(value: Value, path: seq<nat>, kind: Kind): Result<Flat<Position>> {
    if !value.Array? then Err(Fault(NotAnArray, path))
    else if value.items == [] then Ok(Flat([], Parts([])))
    else if Depth(kind) == 0 then
      var row := ReadItems(value.items, path);
      if row.Err? then Err(row.fault) else Ok(Flat([row.value], One))
    else
      var walked := Walked(value.items, path, Depth(kind), kind);
      if walked.Err? then walked else
        WalkedIsWhole(value.items, path, Depth(kind), kind);
        Even(walked.value, path)
  }

  /** _read_coordinates. */
  function ReadCoordinates(value: Value, path: seq<nat>, kind: Kind): Result<Flat<Position>> {
    var plain := ReadPlain(value, kind);
    if plain.Some? then Ok(plain.value) else ReadValues(value, path, kind)
  }

  // ----- index against path

  lemma {:induction false} SizeOfGrows(parts: seq<Shape>, m: nat, n: nat)
    requires m <= n <= |parts|
    ensures SizeOf(parts, m) <= SizeOf(parts, n)
    ensures m < n ==> SizeOf(parts, m) + Size(parts[m]) <= SizeOf(parts, n)
    decreases n
  {
    if m < n {
      SizeOfGrows(parts, m, n - 1);
    }
  }

  lemma {:induction false} NestedPart<T>(rows: seq<T>, parts: seq<Shape>, n: nat, start: nat, j: nat)
    requires j < n <= |parts| && start + SizeOf(parts, n) <= |rows|
    ensures SizeOf(parts, j) + Size(parts[j]) <= SizeOf(parts, n)
    ensures NestedIn(rows, parts, n, start).0[j] == Nested(rows, parts[j], start + SizeOf(parts, j)).0
    decreases n
  {
    SizeOfGrows(parts, j, n);
    if j < n - 1 {
      SizeOfGrows(parts, n - 1, n);
      NestedPart(rows, parts, n - 1, start, j);
    }
  }

  /** Following the indices of position i in the nested rows leads to it. */
  lemma {:induction false} LocateReaches<T>(rows: seq<T>, shape: Shape, start: nat, i: nat)
    requires start + Size(shape) <= |rows| && i < Size(shape)
    ensures Locate(shape, i).Some?
    ensures Follow(Nested(rows, shape, start).0, Locate(shape, i).value) == Some(Leaf(rows[start + i]))
    decreases shape
  {
    if shape.Count? {
      var nodes := Nested(rows, shape, start).0.nodes;
      assert nodes[i] == Leaf(rows[start + i]);
      assert Follow(nodes[i], [i][1..]) == Some(nodes[i]);
    } else if shape.Parts? {
      LocateInReaches(rows, shape.parts, 0, start, i);
    }
  }

  lemma {:induction false} LocateInReaches<T>(rows: seq<T>, parts: seq<Shape>, k: nat, start: nat, i: nat)
    requires k <= |parts| && start + SizeOf(parts, |parts|) <= |rows| && SizeOf(parts, k) + i < SizeOf(parts, |parts|)
    ensures LocateIn(parts, k, i).Some?
    ensures Follow(Node(NestedIn(rows, parts, |parts|, start).0), LocateIn(parts, k, i).value) ==
      Some(Leaf(rows[start + SizeOf(parts, k) + i]))
    decreases parts, |parts| - k
  {
    SizeOfGrows(parts, k, |parts|);
    if i < Size(parts[k]) {
      NestedPart(rows, parts, |parts|, start, k);
      LocateReaches(rows, parts[k], start + SizeOf(parts, k), i);
      var path := Locate(parts[k], i).value;
      assert ([k] + path)[1..] == path;
    } else {
      LocateInReaches(rows, parts, k + 1, start, i - Size(parts[k]));
    }
  }

  /** Past the last position of arrays of arrays there is none to locate. */
  lemma {:induction false} NoneToLocate(parts: seq<Shape>, k: nat, i: nat)
    requires k <= |parts| && SizeOf(parts, k) + i >= SizeOf(parts, |parts|)
    ensures LocateIn(parts, k, i).None?
    decreases |parts| - k
  {
    if k < |parts| {
      SizeOfGrows(parts, k, |parts|);
      NoneToLocate(parts, k + 1, i - Size(parts[k]));
    }
  }

  /** Indices that lead to a position are those of one. */
  lemma {:induction false} OnlyPositionsAreReached<T>(rows: seq<T>, shape: Shape, start: nat,
                                                      path: seq<nat>) returns (i: nat)
    requires start + Size(shape) <= |rows|
    requires var end := Follow(Nested(rows, shape, start).0, path); end.Some? && end.value.Leaf?
    ensures i < Size(shape) && Locate(shape, i) == Some(path)
    decreases shape
  {
    match shape
    case One =>
      i := 0;
      assert path == [];
    case Count(n) =>
      i := path[0];
      assert Nested(rows, shape, start).0.nodes[i] == Leaf(rows[start + i]);
      assert path[1..] == [];
      assert path == [i];
    case Parts(parts) =>
      var k := path[0];
      NestedPart(rows, parts, |parts|, start, k);
      var j := OnlyPositionsAreReached(rows, parts[k], start + SizeOf(parts, k), path[1..]);
      i := SizeOf(parts, k) + j;
      assert path == [k] + path[1..];
      LocatedFrom(parts, 0, k, j);
      assert SizeOf(parts, k) - SizeOf(parts, 0) + j == i;
      assert Locate(shape, i) == Some(path);
  }

  lemma {:induction false} LocatedFrom(parts: seq<Shape>, m: nat, k: nat, j: nat)
    requires m <= k < |parts| && j < Size(parts[k])
    ensures SizeOf(parts, m) <= SizeOf(parts, k)
    ensures LocateIn(parts, m, SizeOf(parts, k) - SizeOf(parts, m) + j) ==
      match Locate(parts[k], j) case Some(path) => Some([k] + path) case None => None
    decreases k - m
  {
    SizeOfGrows(parts, m, k);
    if m < k {
      LocatedFrom(parts, m + 1, k, j);
    }
  }

  // ----- what was walked

  lemma {:induction false} SizesSum(shape: Shape)
    requires !shape.One? && NoneOne(shape)
    ensures Sum(Sizes(shape), |Sizes(shape)|) == Size(shape)
  {
    if shape.Parts? {
      SizesOfSum(shape.parts, |shape.parts|);
    }
  }

  /** No single position is nested: only a point's shape is one. */
  ghost predicate NoneOne(shape: Shape) {
    match shape
    case One => true
    case Count(_) => true
    case Parts(parts) => forall i :: 0 <= i < |parts| ==> !parts[i].One? && NoneOne(parts[i])
  }

  lemma {:induction false} SizesOfSum(parts: seq<Shape>, n: nat)
    requires n <= |parts| && forall i :: 0 <= i < |parts| ==> !parts[i].One? && NoneOne(parts[i])
    ensures Sum(SizesOf(parts, n), |SizesOf(parts, n)|) == SizeOf(parts, n)
  {
    if n > 0 {
      SizesOfSum(parts, n - 1);
      SizesSum(parts[n - 1]);
      SumOfJoined(SizesOf(parts, n - 1), Sizes(parts[n - 1]), |Sizes(parts[n - 1])|);
    }
  }

  lemma {:induction false} SizeOfPrefix(parts: seq<Shape>, longer: seq<Shape>, n: nat)
    requires n <= |parts| && parts <= longer
    ensures SizeOf(longer, n) == SizeOf(parts, n)
  {
    if n > 0 {
      SizeOfPrefix(parts, longer, n - 1);
    }
  }

  lemma SizeOfJoined(parts: seq<Shape>, last: Shape)
    ensures SizeOf(parts + [last], |parts| + 1) == SizeOf(parts, |parts|) + Size(last)
  {
    SizeOfPrefix(parts, parts + [last], |parts|);
  }

  /** How deep a kind's positions nest, under its own depth. */
  ghost predicate Nests(kind: Kind, depth: nat) {
    depth == 1 || (depth == 2 && (Lines(kind) || Rings(kind))) || (depth == 3 && Rings(kind))
  }

  /** What was read before the last part, and in it. */
  lemma LastPart(items: seq<Value>, path: seq<nat>, depth: nat, kind: Kind, n: nat)
    returns (rows: seq<Position>, shapes: seq<Shape>, last: Flat<Position>)
    requires Nests(kind, depth) && depth >= 2 && 0 < n <= |items| && WalkedParts(items, path, depth, kind, n).Ok?
    ensures WalkedParts(items, path, depth, kind, n) == Ok((rows + last.rows, shapes + [last.shape])) &&
      |shapes| == n - 1
    ensures WalkedParts(items, path, depth, kind, n - 1) == Ok((rows, shapes))
    ensures items[n - 1].Array? && Walked(items[n - 1].items, path + [n - 1], depth - 1, kind) == Ok(last)
    ensures Nests(kind, depth - 1) && (items[n - 1].items != [] || (depth == 2 && (Lines(kind) || Rings(kind))))
  {
    var before := WalkedParts(items, path, depth, kind, n - 1).value;
    rows, shapes, last := before.0, before.1, Walked(items[n - 1].items, path + [n - 1], depth - 1, kind).value;
  }

  /** An array that is read has positions, as many as its shape says. */
  lemma {:induction false} WalkedIsWhole(items: seq<Value>, path: seq<nat>, depth: nat, kind: Kind)
    requires Nests(kind, depth) && (items != [] || (depth == 1 && (Lines(kind) || Rings(kind))))
    requires Walked(items, path, depth, kind).Ok?
    ensures var flat := Walked(items, path, depth, kind).value;
            flat.rows != [] && Size(flat.shape) == |flat.rows| && !flat.shape.One? && NoneOne(flat.shape)
    decreases depth, |items| + 1
  {
    if depth > 1 {
      WalkedPartsAreWhole(items, path, depth, kind, |items|);
    }
  }

  lemma {:induction false} WalkedPartsAreWhole(items: seq<Value>, path: seq<nat>, depth: nat, kind: Kind, n: nat)
    requires Nests(kind, depth) && depth >= 2 && n <= |items| && WalkedParts(items, path, depth, kind, n).Ok?
    ensures var parts := WalkedParts(items, path, depth, kind, n).value;
            SizeOf(parts.1, n) == |parts.0| && (n > 0 ==> parts.0 != []) && forall i :: 0 <= i < n ==>
                !parts.1[i].One? && NoneOne(parts.1[i])
    decreases depth, n
  {
    hide *;
    if n == 0 {
      NoPartsAreWhole(items, path, depth, kind);
    } else {
      var rows, shapes, last := LastPart(items, path, depth, kind, n);
      WalkedPartsAreWhole(items, path, depth, kind, n - 1);
      WalkedIsWhole(items[n - 1].items, path + [n - 1], depth - 1, kind);
      SizeOfJoined(shapes, last.shape);
    }
  }

  lemma NoPartsAreWhole(items: seq<Value>, path: seq<nat>, depth: nat, kind: Kind)
    requires depth >= 2
    ensures WalkedParts(items, path, depth, kind, 0) == Ok(([], [])) && SizeOf([], 0) == 0
  {}

  // ----- the two readers agree

  lemma {:induction false} NumbersOf(items: seq<Value>, path: seq<nat>, n: nat)
    requires n <= |items| && forall i :: 0 <= i < n ==> IsRead(items[i])
    ensures ReadNumbers(items, path, n).Ok?
    ensures forall i :: 0 <= i < n ==> ReadNumbers(items, path, n).value[i] == Real(items[i])
  {
    if n > 0 {
      NumbersOf(items, path, n - 1);
    }
  }

  lemma PositionOf(v: Value, path: seq<nat>)
    requires IsReadPosition(v)
    ensures ReadPosition(v, path) == Ok(Reals(v))
  {
    NumbersOf(v.items, path, |v.items|);
    assert ReadNumbers(v.items, path, |v.items|).value == Reals(v);
  }

  lemma {:induction false} PositionsOf(items: seq<Value>, path: seq<nat>, n: nat)
    requires n <= |items| && forall i :: 0 <= i < n ==> IsReadPosition(items[i])
    ensures ReadPositions(items, path, n) == Ok(AllReals(items[..n]))
  {
    if n > 0 {
      PositionsOf(items, path, n - 1);
      PositionOf(items[n - 1], path + [n - 1]);
      assert AllReals(items[..n]) == AllReals(items[..n - 1]) + [Reals(items[n - 1])];
    }
  }

  lemma SameNumberIsSameReal(a: Value, b: Value)
    requires WellFormed(a) && WellFormed(b) && IsRead(a) && IsRead(b) && Same(a, b)
    ensures Real(a) == Real(b)
  {
    hide FloatOf;
    match (a.number, b.number)
    case (Int(n), Float(d)) => FloatKept(n, d);
    case (Float(d), Int(n)) => FloatKept(n, d);
    case (Int(_), Int(_)) =>
    case (Float(_), Float(_)) =>
  }

  /** Positions equal as read are equal as floats. */
  lemma SameIsSameReals(a: Value, b: Value)
    requires WellFormed(a) && WellFormed(b) && IsReadPosition(a) && IsReadPosition(b) && Same(a, b)
    ensures Reals(a) == Reals(b)
  {
    forall i | 0 <= i < |a.items| ensures Real(a.items[i]) == Real(b.items[i]) {
      SameNumberIsSameReal(a.items[i], b.items[i]);
    }
  }

  lemma {:induction false} SizesOfPrefix(parts: seq<Shape>, longer: seq<Shape>, n: nat)
    requires n <= |parts| && parts <= longer
    ensures SizesOf(longer, n) == SizesOf(parts, n)
  {
    if n > 0 {
      SizesOfPrefix(parts, longer, n - 1);
    }
  }

  lemma SizesOfJoined(parts: seq<Shape>, last: Shape)
    ensures SizesOf(parts + [last], |parts| + 1) == SizesOf(parts, |parts|) + Sizes(last)
  {
    var longer, n := parts + [last], |parts|;
    SizesOfPrefix(parts, longer, n);
    assert longer[n] == last;
    assert SizesOf(longer, n + 1) == SizesOf(longer, n) + Sizes(longer[n]);
  }

  /** Rings side by side are closed just when each lot is. */
  lemma ClosedSplit(first: seq<Value>, second: seq<Value>, some: seq<nat>, more: seq<nat>)
    requires Sum(some, |some|) == |first| && Sum(more, |more|) == |second|
    ensures Closed(first + second, some + more) <==> Closed(first, some) && Closed(second, more)
  {
    var flat, sizes := first + second, some + more;
    SumOfJoined(some, more, |more|);
    forall k: nat | k < |some| ensures ClosedAt(flat, sizes, k) <==> ClosedAt(first, some, k) {
      ClosedInFirst(first, second, some, more, k);
    }
    forall k: nat | k < |more| ensures ClosedAt(flat, sizes, |some| + k) <==> ClosedAt(second, more, k) {
      ClosedInSecond(first, second, some, more, k);
    }
    hide ClosedAt, Sum;
    if Closed(first, some) && Closed(second, more) {
      forall k: nat | k < |sizes| ensures ClosedAt(flat, sizes, k) {
        if k >= |some| {
          assert ClosedAt(second, more, k - |some|);
        }
      }
    }
  }

  lemma ClosedInFirst(first: seq<Value>, second: seq<Value>, some: seq<nat>, more: seq<nat>, k: nat)
    requires Sum(some, |some|) == |first| && k < |some|
    ensures ClosedAt(first + second, some + more, k) <==> ClosedAt(first, some, k)
  {
    hide Same;
    SumOfPrefix(some, some + more, k);
    SumGrows(some, k, |some|);
  }

  lemma ClosedInSecond(first: seq<Value>, second: seq<Value>, some: seq<nat>, more: seq<nat>, k: nat)
    requires Sum(some, |some|) == |first| && Sum(more, |more|) == |second| && k < |more|
    ensures ClosedAt(first + second, some + more, |some| + k) <==> ClosedAt(second, more, k)
  {
    hide Same;
    SumOfJoined(some, more, k);
    SumGrows(more, k, |more|);
    assert (some + more)[|some| + k] == more[k];
    var flat, start := first + second, Sum(more, k);
    if more[k] > 0 {
      assert flat[|first| + start] == second[start] &&
          flat[|first| + start + more[k] - 1] == second[start + more[k] - 1];
    }
  }

  /** What the fast reader nests: as many positions as its shape says. */
  lemma {:induction false} PlainIsWhole(items: seq<Value>, depth: nat, kind: Kind)
    requires Nests(kind, depth) && Plainly(items, depth, kind).Some?
    ensures var flat := Plainly(items, depth, kind).value; Sum(Sizes(flat.shape), |Sizes(flat.shape)|) == |flat.rows|
    decreases depth, |items| + 1
  {
    if depth == 1 {
      assert Sizes(Count(|items|)) == [|items|];
      assert Sum([|items|], 1) == Sum([|items|], 0) + |items|;
    } else {
      PlainPartsAreWhole(items, depth, kind, |items|);
    }
  }

  lemma {:induction false} PlainPartsAreWhole(items: seq<Value>, depth: nat, kind: Kind, n: nat)
    requires Nests(kind, depth) && depth >= 2 && n <= |items| && PlainParts(items, depth, kind, n).Some?
    ensures var parts := PlainParts(items, depth, kind, n).value;
      Sum(SizesOf(parts.1, n), |SizesOf(parts.1, n)|) == |parts.0|
    decreases depth, n
  {
    if n > 0 {
      PlainPartsAreWhole(items, depth, kind, n - 1);
      PlainIsWhole(items[n - 1].items, depth - 1, kind);
      var before, last := PlainParts(items, depth, kind, n - 1).value,
          Plainly(items[n - 1].items, depth - 1, kind).value;
      SizesOfJoined(before.1, last.shape);
      SumOfJoined(SizesOf(before.1, n - 1), Sizes(last.shape), |Sizes(last.shape)|);
    }
  }

  /** What the fast reader is left with reads as it stands: positions, closed where rings are. */
  ghost predicate Readable(rows: seq<Value>, sizes: seq<nat>, kind: Kind) {
    && AllPositions(rows) && (forall i :: 0 <= i < |rows| ==> WellFormed(rows[i]))
    && (Rings(kind) ==> Closed(rows, sizes))
  }

  lemma ReadableSplit(first: seq<Value>, second: seq<Value>, some: seq<nat>, more: seq<nat>, kind: Kind)
    requires Sum(some, |some|) == |first| && Sum(more, |more|) == |second|
    ensures Readable(first + second, some + more, kind) <==> Readable(first, some, kind) && Readable(second, more, kind)
  {
    hide IsReadPosition, WellFormed, Closed;
    ClosedSplit(first, second, some, more);
    var rows := first + second;
    assert forall i :: 0 <= i < |first| ==> rows[i] == first[i];
    assert forall i :: 0 <= i < |second| ==> rows[|first| + i] == second[i];
  }

  lemma {:induction false} PlainIsWalked(items: seq<Value>, path: seq<nat>, depth: nat, kind: Kind)
    requires Nests(kind, depth) && Plainly(items, depth, kind).Some?
    requires var flat := Plainly(items, depth, kind).value; Readable(flat.rows, Sizes(flat.shape), kind)
    ensures var flat := Plainly(items, depth, kind).value;
      Walked(items, path, depth, kind) == Ok(Flat(AllReals(flat.rows), flat.shape))
    decreases depth, |items| + 1
  {
    if depth == 1 {
      PositionsOf(items, path, |items|);
      assert items[..|items|] == items;
      if Rings(kind) {
        RingEnds(items);
      }
    } else {
      PlainPartsAreWalked(items, path, depth, kind, |items|);
    }
  }

  lemma RingEnds(items: seq<Value>)
    requires items != [] && Closed(items, [|items|])
    requires forall i :: 0 <= i < |items| ==> IsReadPosition(items[i]) && WellFormed(items[i])
    ensures Reals(items[0]) == Reals(items[|items| - 1])
  {
    assert ClosedAt(items, [|items|], 0);
    SameIsSameReals(items[0], items[|items| - 1]);
  }

  lemma {:induction false} PlainPartsAreWalked(items: seq<Value>, path: seq<nat>, depth: nat, kind: Kind, n: nat)
    requires Nests(kind, depth) && depth >= 2 && n <= |items| && PlainParts(items, depth, kind, n).Some?
    requires var parts := PlainParts(items, depth, kind, n).value; Readable(parts.0, SizesOf(parts.1, n), kind)
    ensures var parts := PlainParts(items, depth, kind, n).value;
      WalkedParts(items, path, depth, kind, n) == Ok((AllReals(parts.0), parts.1))
    decreases depth, n
  {
    hide *;
    if n == 0 {
      NoPlainParts(items, path, depth, kind);
    } else {
      ReadableParts(items, depth, kind, n);
      PlainPartsAreWalked(items, path, depth, kind, n - 1);
      PlainIsWalked(items[n - 1].items, path + [n - 1], depth - 1, kind);
      var before, last := PlainParts(items, depth, kind, n - 1).value,
          Plainly(items[n - 1].items, depth - 1, kind).value;
      AllRealsJoined(before.0, last.rows);
      WalkedNext(items, path, depth, kind, n, AllReals(before.0), before.1, AllReals(last.rows), last.shape);
    }
  }

  lemma NoPlainParts(items: seq<Value>, path: seq<nat>, depth: nat, kind: Kind)
    requires depth >= 2
    ensures PlainParts(items, depth, kind, 0) == Some(([], []))
    ensures WalkedParts(items, path, depth, kind, 0) == Ok((AllReals([]), []))
  {}

  lemma WalkedNext(items: seq<Value>, path: seq<nat>, depth: nat, kind: Kind, n: nat, rows: seq<Position>,
                   shapes: seq<Shape>, more: seq<Position>, shape: Shape)
    requires depth >= 2 && 0 < n <= |items| && items[n - 1].Array? && !(depth == 3 && items[n - 1].items == [])
    requires WalkedParts(items, path, depth, kind, n - 1) == Ok((rows, shapes))
    requires Walked(items[n - 1].items, path + [n - 1], depth - 1, kind) == Ok(Flat(more, shape))
    ensures WalkedParts(items, path, depth, kind, n) == Ok((rows + more, shapes + [shape]))
  {}

  lemma AllRealsJoined(first: seq<Value>, second: seq<Value>)
    ensures AllReals(first + second) == AllReals(first) + AllReals(second)
  {}

  /** The parts before the last are readable, and so is the last. */
  lemma ReadableParts(items: seq<Value>, depth: nat, kind: Kind, n: nat)
    requires Nests(kind, depth) && depth >= 2 && 0 < n <= |items| && PlainParts(items, depth, kind, n).Some?
    requires var parts := PlainParts(items, depth, kind, n).value; Readable(parts.0, SizesOf(parts.1, n), kind)
    ensures PlainParts(items, depth, kind, n - 1).Some? && items[n - 1].Array? && Nests(kind, depth - 1) &&
      Plainly(items[n - 1].items, depth - 1, kind).Some? && !(depth == 3 && items[n - 1].items == [])
    ensures var before, last := PlainParts(items, depth, kind, n - 1).value,
                Plainly(items[n - 1].items, depth - 1, kind).value;
            PlainParts(items, depth, kind, n) == Some((before.0 + last.rows, before.1 + [last.shape]))
    ensures var before := PlainParts(items, depth, kind, n - 1).value;
      Readable(before.0, SizesOf(before.1, n - 1), kind)
    ensures var last := Plainly(items[n - 1].items, depth - 1, kind).value; Readable(last.rows, Sizes(last.shape), kind)
  {
    hide Readable, Reals;
    var before, last := PlainParts(items, depth, kind, n - 1).value, Plainly(items[n - 1].items, depth - 1, kind).value;
    PlainPartsAreWhole(items, depth, kind, n - 1);
    PlainIsWhole(items[n - 1].items, depth - 1, kind);
    SizesOfJoined(before.1, last.shape);
    ReadableSplit(before.0, last.rows, SizesOf(before.1, n - 1), Sizes(last.shape), kind);
  }

  lemma {:induction false} PlainAreWellFormed(items: seq<Value>, depth: nat, kind: Kind)
    requires depth >= 1 && Plainly(items, depth, kind).Some? && forall i :: 0 <= i < |items| ==> WellFormed(items[i])
    ensures var flat := Plainly(items, depth, kind).value; forall i :: 0 <= i < |flat.rows| ==> WellFormed(flat.rows[i])
    decreases depth, |items| + 1
  {
    if depth > 1 {
      PlainPartsAreWellFormed(items, depth, kind, |items|);
    }
  }

  lemma {:induction false} PlainPartsAreWellFormed(items: seq<Value>, depth: nat, kind: Kind, n: nat)
    requires depth >= 2 && n <= |items| && PlainParts(items, depth, kind, n).Some? && forall i :: 0 <= i < |items| ==>
      WellFormed(items[i])
    ensures var parts := PlainParts(items, depth, kind, n).value; forall i :: 0 <= i < |parts.0| ==>
      WellFormed(parts.0[i])
    decreases depth, n
  {
    hide *;
    if n == 0 {
      NoPlainParts(items, [], depth, kind);
    } else {
      assert WellFormed(items[n - 1]);
      LastPlain(items, depth, kind, n);
      PlainPartsAreWellFormed(items, depth, kind, n - 1);
      WellFormedBelow(items[n - 1]);
      PlainAreWellFormed(items[n - 1].items, depth - 1, kind);
    }
  }

  lemma LastPlain(items: seq<Value>, depth: nat, kind: Kind, n: nat)
    requires depth >= 2 && 0 < n <= |items| && PlainParts(items, depth, kind, n).Some?
    ensures PlainParts(items, depth, kind, n - 1).Some? && items[n - 1].Array? &&
      Plainly(items[n - 1].items, depth - 1, kind).Some?
    ensures var before, last := PlainParts(items, depth, kind, n - 1).value,
                Plainly(items[n - 1].items, depth - 1, kind).value;
            PlainParts(items, depth, kind, n) == Some((before.0 + last.rows, before.1 + [last.shape]))
  {
    hide Plainly;
  }

  lemma WellFormedBelow(item: Value)
    requires item.Array? && WellFormed(item)
    ensures forall i :: 0 <= i < |item.items| ==> WellFormed(item.items[i])
  {}

  lemma Evenly(flat: Flat<Position>, path: seq<nat>)
    requires flat.rows != [] && Size(flat.shape) == |flat.rows|
    requires forall i :: 0 <= i < |flat.rows| ==> |flat.rows[i]| == |flat.rows[0]|
    ensures Even(flat, path) == Ok(flat)
  {}

  lemma OneWidthIsEven(rows: seq<Value>)
    requires AllPlainArrays(rows) && OneWidth(rows)
    ensures AllReals(rows) != [] && forall i :: 0 <= i < |rows| ==> |AllReals(rows)[i]| == |AllReals(rows)[0]|
  {
    forall i | 0 <= i < |rows| ensures |AllReals(rows)[i]| == |rows[i].items| {}
  }

  /** Whatever the fast reader accepts, the slow one reads to the same positions and shape. */
  lemma FastIsSlow(value: Value, path: seq<nat>, kind: Kind)
    requires WellFormed(value) && ReadPlain(value, kind).Some?
    ensures ReadValues(value, path, kind) == Ok(ReadPlain(value, kind).value)
  {
    if Depth(kind) == 0 {
      PositionOf(value, path);
      assert AllReals([value]) == [Reals(value)];
    } else {
      var flat := Plainly(value.items, Depth(kind), kind).value;
      PlainAreWellFormed(value.items, Depth(kind), kind);
      PlainIsWalked(value.items, path, Depth(kind), kind);
      WalkedIsWhole(value.items, path, Depth(kind), kind);
      OneWidthIsEven(flat.rows);
      Evenly(Flat(AllReals(flat.rows), flat.shape), path);
    }
  }

  /** So reading is as the slow reader reads, whichever reads. */
  lemma ReadingIsByValue(value: Value, path: seq<nat>, kind: Kind)
    requires WellFormed(value)
    ensures ReadCoordinates(value, path, kind) == ReadValues(value, path, kind)
  {
    if ReadPlain(value, kind).Some? {
      FastIsSlow(value, path, kind);
    }
  }
}
