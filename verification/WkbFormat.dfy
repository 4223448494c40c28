/** ISO well-known binary, clause 8.2 of OGC 06-103r4, as the coordinate writer of
    geodetic_engine/geodesy/_wkb.py reads it: trees, their bytes, and a parser. */
module WkbFormat {

  type byte = x: int | 0 <= x < 256

  /** A double by its bit pattern, most significant byte first. */
  type Double = d: seq<byte> | |d| == 8 witness [0, 0, 0, 0, 0, 0, 0, 0]

  type Position = seq<Double>

  const POINT := 1
  const LINE_STRING := 2
  const POLYGON := 3
  const COLLECTIONS: set<nat> := {4, 5, 6, 7}

  /** Members carry a byte order and a dimension flag of their own. */
  datatype Geometry =
    | Point(order: byte, flag: nat, at: Position)
    | LineString(order: byte, flag: nat, line: seq<Position>)
    | Polygon(order: byte, flag: nat, rings: seq<seq<Position>>)
    | Collection(order: byte, flag: nat, kind: nat, members: seq<Geometry>)

  function Width(flag: nat): (w: nat)
    ensures 2 <= w <= 4
  {
    match flag
    case 0 => 2
    case 3 => 4
    case _ => 3
  }

  predicate IsNaN(d: Double) {
    d[0] % 128 == 127 && d[1] >= 240 && (d[1] > 240 || d[2..] != [0, 0, 0, 0, 0, 0])
  }

  /** An empty point is written as a position of NaNs. */
  predicate Empty(p: Position) {
    forall i :: 0 <= i < |p| ==> IsNaN(p[i])
  }

  function Kind(g: Geometry): nat {
    match g
    case Point(_, _, _) => POINT
    case LineString(_, _, _) => LINE_STRING
    case Polygon(_, _, _) => POLYGON
    case Collection(_, _, kind, _) => kind
  }

  predicate IsLine(flag: nat, line: seq<Position>) {
    |line| < 0x1_0000_0000 && forall i :: 0 <= i < |line| ==> |line[i]| == Width(flag)
  }

  predicate Lines(flag: nat, rings: seq<seq<Position>>) {
    forall i :: 0 <= i < |rings| ==> IsLine(flag, rings[i])
  }

  predicate WellFormed(g: Geometry)
    decreases g, 0
  {
    && g.flag < 4
    && match g
       case Point(_, flag, at) => |at| == Width(flag)
       case LineString(_, flag, line) => IsLine(flag, line)
       case Polygon(_, flag, rings) => |rings| < 0x1_0000_0000 && Lines(flag, rings)
       case Collection(_, _, kind, members) =>
         kind in COLLECTIONS && |members| < 0x1_0000_0000 && AllWellFormed(members)
  }

  predicate AllWellFormed(members: seq<Geometry>)
    decreases members, 1
  {
    forall i :: 0 <= i < |members| ==> WellFormed(members[i])
  }

  // ----- bytes

  function Reversed(d: Double): (r: Double)
    ensures forall i :: 0 <= i < 8 ==> r[i] == d[7 - i]
  {
    seq(8, i requires 0 <= i < 8 => d[7 - i])
  }

  function Ordered(little: bool, d: Double): Double {
    if little then Reversed(d) else d
  }

  lemma OrderedTwice(little: bool, d: Double)
    ensures Ordered(little, Ordered(little, d)) == d
  {}

  function PackCount(little: bool, n: nat): (b: seq<byte>)
    requires n < 0x1_0000_0000
    ensures |b| == 4
  {
    var b0, b1, b2, b3 := n / 256 / 256 / 256, n / 256 / 256 % 256, n / 256 % 256, n % 256;
    if little then [b3, b2, b1, b0] else [b0, b1, b2, b3]
  }

  function UnpackCount(little: bool, b: seq<byte>): (n: nat)
    requires |b| >= 4
    ensures n < 0x1_0000_0000
  {
    var b0: int, b1: int, b2: int, b3: int :=
      if little then b[3] else b[0], if little then b[2] else b[1],
      if little then b[1] else b[2], if little then b[0] else b[3];
    ((b0 * 256 + b1) * 256 + b2) * 256 + b3
  }

  lemma UnpackPacked(little: bool, n: nat, rest: seq<byte>)
    requires n < 0x1_0000_0000
    ensures UnpackCount(little, PackCount(little, n) + rest) == n
  {
    assert n == n / 256 * 256 + n % 256;
    assert n / 256 == n / 256 / 256 * 256 + n / 256 % 256;
    assert n / 256 / 256 == n / 256 / 256 / 256 * 256 + n / 256 / 256 % 256;
  }

  lemma PackUnpacked(little: bool, b: seq<byte>)
    requires |b| >= 4
    ensures PackCount(little, UnpackCount(little, b)) == b[..4]
  {
    var n := UnpackCount(little, b);
    var b0: int, b1: int, b2: int, b3 :=
      if little then b[3] else b[0], if little then b[2] else b[1],
      if little then b[1] else b[2], if little then b[0] else b[3];
    Digit((b0 * 256 + b1) * 256 + b2, b3);
    Digit(b0 * 256 + b1, b2);
    Digit(b0, b1);
  }

  lemma Digit(high: nat, low: byte)
    ensures (high * 256 + low) / 256 == high && (high * 256 + low) % 256 == low
  {}

  // ----- encoding

  function EncodePosition(little: bool, p: Position): (b: seq<byte>)
    ensures |b| == 8 * |p|
  {
    if p == [] then [] else EncodePosition(little, p[..|p| - 1]) + Ordered(little, p[|p| - 1])
  }

  function EncodeLine(little: bool, line: seq<Position>): seq<byte> {
    if line == [] then [] else EncodeLine(little, line[..|line| - 1]) + EncodePosition(little, line[|line| - 1])
  }

  function EncodeRings(little: bool, flag: nat, rings: seq<seq<Position>>): seq<byte>
    requires Lines(flag, rings)
  {
    if rings == [] then [] else
      var ring := rings[|rings| - 1];
      assert IsLine(flag, ring);
      EncodeRings(little, flag, rings[..|rings| - 1]) + (PackCount(little, |ring|) + EncodeLine(little, ring))
  }

  function Header(g: Geometry): (b: seq<byte>)
    requires WellFormed(g)
    ensures |b| == 5
  {
    [g.order] + PackCount(g.order == 1, Kind(g) + 1000 * g.flag)
  }

  function Body(g: Geometry): (b: seq<byte>)
    requires WellFormed(g)
    ensures |b| > 0
    decreases g, 0
  {
    var little := g.order == 1;
    match g
    case Point(_, flag, at) => EncodePosition(little, at)
    case LineString(_, flag, line) => PackCount(little, |line|) + EncodeLine(little, line)
    case Polygon(_, flag, rings) => PackCount(little, |rings|) + EncodeRings(little, flag, rings)
    case Collection(_, _, _, members) => PackCount(little, |members|) + EncodeMembers(members)
  }

  function Encode(g: Geometry): (b: seq<byte>)
    requires WellFormed(g)
    ensures |b| > 5
    decreases g, 1
  {
    Header(g) + Body(g)
  }

  function EncodeMembers(members: seq<Geometry>): seq<byte>
    requires AllWellFormed(members)
    decreases members, 2
  {
    if members == [] then [] else
      EncodeMembers(members[..|members| - 1]) + Encode(members[|members| - 1])
  }

  // ----- parsing

  datatype Parsed<+T> = Parsed(value: T, used: nat) | Malformed

  function PositionAt(b: seq<byte>, little: bool, width: nat): (p: Position)
    requires |b| >= 8 * width
    ensures |p| == width
  {
    if width == 0 then []
    else PositionAt(b, little, width - 1) + [Ordered(little, b[8 * (width - 1)..][..8])]
  }

  function ParseLine(b: seq<byte>, little: bool, flag: nat, count: nat): (r: Parsed<seq<Position>>)
    ensures r.Parsed? ==> r.used <= |b| && |r.value| == count
    ensures r.Parsed? ==> forall i :: 0 <= i < count ==> |r.value[i]| == Width(flag)
  {
    if count == 0 then Parsed([], 0) else
      var before := ParseLine(b, little, flag, count - 1);
      if before.Malformed? || before.used + 8 * Width(flag) > |b| then Malformed
      else Parsed(before.value + [PositionAt(b[before.used..], little, Width(flag))], before.used + 8 * Width(flag))
  }

  /** A count, then as many positions. */
  function ParseRing(b: seq<byte>, little: bool, flag: nat): (r: Parsed<seq<Position>>)
    ensures r.Parsed? ==> 0 < r.used <= |b| && IsLine(flag, r.value)
  {
    if |b| < 4 then Malformed else
      var line := ParseLine(b[4..], little, flag, UnpackCount(little, b));
      if line.Malformed? then Malformed else Parsed(line.value, 4 + line.used)
  }

  function ParseRings(b: seq<byte>, little: bool, flag: nat, count: nat): (r: Parsed<seq<seq<Position>>>)
    ensures r.Parsed? ==> r.used <= |b| && |r.value| == count
    ensures r.Parsed? ==> Lines(flag, r.value)
  {
    if count == 0 then Parsed([], 0) else
      var before := ParseRings(b, little, flag, count - 1);
      if before.Malformed? then Malformed else
        var ring := ParseRing(b[before.used..], little, flag);
        if ring.Malformed? then Malformed else Parsed(before.value + [ring.value], before.used + ring.used)
  }

  function ParseMembers(b: seq<byte>, count: nat): (r: Parsed<seq<Geometry>>)
    ensures r.Parsed? ==> r.used <= |b| && |r.value| == count
    ensures r.Parsed? ==> AllWellFormed(r.value)
    decreases |b|, count + 1
  {
    if count == 0 then Parsed([], 0) else
      var before := ParseMembers(b, count - 1);
      if before.Malformed? then Malformed else
        var member := Parse(b[before.used..]);
        if member.Malformed? then Malformed else Parsed(before.value + [member.value], before.used + member.used)
  }

  function ParsePoint(b: seq<byte>, order: byte, flag: nat): (r: Parsed<Geometry>)
    ensures r.Parsed? ==> 0 < r.used <= |b| && r.value.Point? && |r.value.at| == Width(flag)
    ensures r.Parsed? ==> r.value.order == order && r.value.flag == flag
  {
    if |b| < 8 * Width(flag) then Malformed
    else Parsed(Point(order, flag, PositionAt(b, order == 1, Width(flag))), 8 * Width(flag))
  }

  function ParsePolygon(b: seq<byte>, order: byte, flag: nat): (r: Parsed<Geometry>)
    requires flag < 4
    ensures r.Parsed? ==> 0 < r.used <= |b| && r.value.Polygon? && WellFormed(r.value)
    ensures r.Parsed? ==> r.value.order == order && r.value.flag == flag
  {
    if |b| < 4 then Malformed else
      var rings := ParseRings(b[4..], order == 1, flag, UnpackCount(order == 1, b));
      if rings.Malformed? then Malformed else Parsed(Polygon(order, flag, rings.value), 4 + rings.used)
  }

  function ParseCollection(b: seq<byte>, order: byte, flag: nat, kind: nat): (r: Parsed<Geometry>)
    requires flag < 4 && kind in COLLECTIONS
    ensures r.Parsed? ==> 0 < r.used <= |b| && r.value.Collection? && WellFormed(r.value)
    ensures r.Parsed? ==> r.value.order == order && r.value.flag == flag && r.value.kind == kind
    decreases |b|, 0x1_0000_0002
  {
    if |b| < 4 then Malformed else
      var members := ParseMembers(b[4..], UnpackCount(order == 1, b));
      if members.Malformed? then Malformed else Parsed(Collection(order, flag, kind, members.value), 4 + members.used)
  }

  function ParseBody(b: seq<byte>, order: byte, flag: nat, kind: nat): (r: Parsed<Geometry>)
    requires flag < 4
    ensures r.Parsed? ==> 0 < r.used <= |b| && WellFormed(r.value)
    ensures r.Parsed? ==> r.value.order == order && r.value.flag == flag && Kind(r.value) == kind
    decreases |b|, 0x1_0000_0003
  {
    if kind == POINT then ParsePoint(b, order, flag)
    else if kind == LINE_STRING then
      var line := ParseRing(b, order == 1, flag);
      if line.Malformed? then Malformed else Parsed(LineString(order, flag, line.value), line.used)
    else if kind == POLYGON then ParsePolygon(b, order, flag)
    else if kind in COLLECTIONS then ParseCollection(b, order, flag, kind)
    else Malformed
  }

  function Parse(b: seq<byte>): (r: Parsed<Geometry>)
    ensures r.Parsed? ==> 5 < r.used <= |b| && WellFormed(r.value)
    decreases |b|, 0
  {
    if |b| < 5 then Malformed else
      var code := UnpackCount(b[0] == 1, b[1..]);
      var kind, flag := code % 1000, code / 1000;
      if flag >= 4 then Malformed else
        var body := ParseBody(b[5..], b[0], flag, kind);
        if body.Malformed? then Malformed else Parsed(body.value, 5 + body.used)
  }

  lemma PrefixSplit<T>(x: seq<T>, y: seq<T>, b: seq<T>)
    requires x + y <= b
    ensures x <= b && y <= b[|x|..]
  {
    assert x == (x + y)[..|x|] && y == (x + y)[|x|..];
    assert b[..|x + y|] == x + y;
  }

  lemma Unsplit<T>(b: seq<T>, used: nat, more: nat)
    requires used + more <= |b|
    ensures b[..used] + b[used..][..more] == b[..used + more]
  {}

  lemma Snoc<T>(s: seq<T>)
    requires s != []
    ensures s[..|s| - 1] + [s[|s| - 1]] == s
  {}

  // ----- a parsed tree encodes to the bytes it was read from

  lemma {:induction false} PositionIsRead(b: seq<byte>, little: bool, width: nat)
    requires |b| >= 8 * width
    ensures EncodePosition(little, PositionAt(b, little, width)) == b[..8 * width]
  {
    if width > 0 {
      PositionIsRead(b, little, width - 1);
      var p := PositionAt(b, little, width);
      assert p[..width - 1] == PositionAt(b, little, width - 1);
      OrderedTwice(little, b[8 * (width - 1)..][..8]);
      Unsplit(b, 8 * (width - 1), 8);
    }
  }

  lemma LineSnoc(little: bool, before: seq<Position>, p: Position)
    ensures EncodeLine(little, before + [p]) == EncodeLine(little, before) + EncodePosition(little, p)
  {
    assert (before + [p])[..|before|] == before;
  }

  lemma {:induction false} LineIsRead(b: seq<byte>, little: bool, flag: nat, count: nat)
    ensures var r := ParseLine(b, little, flag, count); r.Parsed? ==> EncodeLine(little, r.value) == b[..r.used]
  {
    if count > 0 && ParseLine(b, little, flag, count).Parsed? {
      LineIsRead(b, little, flag, count - 1);
      var before := ParseLine(b, little, flag, count - 1);
      LineSnoc(little, before.value, PositionAt(b[before.used..], little, Width(flag)));
      PositionIsRead(b[before.used..], little, Width(flag));
      Unsplit(b, before.used, 8 * Width(flag));
    }
  }

  lemma RingIsRead(b: seq<byte>, little: bool, flag: nat)
    ensures var r := ParseRing(b, little, flag);
      r.Parsed? ==> PackCount(little, |r.value|) + EncodeLine(little, r.value) == b[..r.used]
  {
    var r := ParseRing(b, little, flag);
    if r.Parsed? {
      PackUnpacked(little, b);
      LineIsRead(b[4..], little, flag, UnpackCount(little, b));
      Unsplit(b, 4, r.used - 4);
    }
  }

  lemma RingsSnoc(little: bool, flag: nat, before: seq<seq<Position>>, ring: seq<Position>)
    requires Lines(flag, before) && IsLine(flag, ring)
    ensures EncodeRings(little, flag, before + [ring])
      == EncodeRings(little, flag, before) + (PackCount(little, |ring|) + EncodeLine(little, ring))
  {
    assert (before + [ring])[..|before|] == before;
  }

  lemma {:induction false} RingsAreRead(b: seq<byte>, little: bool, flag: nat, count: nat)
    ensures var r := ParseRings(b, little, flag, count);
      r.Parsed? ==> EncodeRings(little, flag, r.value) == b[..r.used]
  {
    hide *;
    if count == 0 {
      NoRings(b, little, flag);
      return;
    }
    if ParseRings(b, little, flag, count).Malformed? {
      return;
    }
    LastRing(b, little, flag, count);
    RingsAreRead(b, little, flag, count - 1);
    var before := ParseRings(b, little, flag, count - 1);
    var ring := ParseRing(b[before.used..], little, flag);
    RingsSnoc(little, flag, before.value, ring.value);
    RingIsRead(b[before.used..], little, flag);
    Unsplit(b, before.used, ring.used);
  }

  lemma NoRings(b: seq<byte>, little: bool, flag: nat)
    ensures ParseRings(b, little, flag, 0) == Parsed([], 0) && EncodeRings(little, flag, []) == []
  {}

  /** The rings before the last, and it. */
  lemma LastRing(b: seq<byte>, little: bool, flag: nat, count: nat)
    requires count > 0 && ParseRings(b, little, flag, count).Parsed?
    ensures var before := ParseRings(b, little, flag, count - 1);
      && before.Parsed?
      && var ring := ParseRing(b[before.used..], little, flag);
      && ring.Parsed? && IsLine(flag, ring.value)
      && ParseRings(b, little, flag, count) == Parsed(before.value + [ring.value], before.used + ring.used)
  {}

  lemma MembersSnoc(before: seq<Geometry>, member: Geometry)
    requires AllWellFormed(before) && WellFormed(member)
    ensures EncodeMembers(before + [member]) == EncodeMembers(before) + Encode(member)
  {
    assert (before + [member])[..|before|] == before;
  }

  lemma {:induction false} MembersAreRead(b: seq<byte>, count: nat)
    ensures var r := ParseMembers(b, count); r.Parsed? ==> EncodeMembers(r.value) == b[..r.used]
    decreases |b|, count + 1
  {
    if count > 0 && ParseMembers(b, count).Parsed? {
      MembersAreRead(b, count - 1);
      var before := ParseMembers(b, count - 1);
      var member := Parse(b[before.used..]);
      MembersSnoc(before.value, member.value);
      IsRead(b[before.used..]);
      Unsplit(b, before.used, member.used);
    }
  }

  lemma CountIsRead(b: seq<byte>, little: bool, inner: seq<byte>)
    requires |b| >= 4 && |inner| <= |b| - 4 && inner == b[4..][..|inner|]
    ensures PackCount(little, UnpackCount(little, b)) + inner == b[..4 + |inner|]
  {
    PackUnpacked(little, b);
    Unsplit(b, 4, |inner|);
  }

  lemma PolygonIsRead(b: seq<byte>, order: byte, flag: nat)
    requires flag < 4
    ensures var r := ParsePolygon(b, order, flag); r.Parsed? ==> Body(r.value) == b[..r.used]
  {
    if |b| >= 4 {
      var count := UnpackCount(order == 1, b);
      RingsAreRead(b[4..], order == 1, flag, count);
      var rings := ParseRings(b[4..], order == 1, flag, count);
      if rings.Parsed? {
        CountIsRead(b, order == 1, EncodeRings(order == 1, flag, rings.value));
      }
    }
  }

  lemma {:induction false} CollectionIsRead(b: seq<byte>, order: byte, flag: nat, kind: nat)
    requires flag < 4 && kind in COLLECTIONS
    ensures var r := ParseCollection(b, order, flag, kind); r.Parsed? ==> Body(r.value) == b[..r.used]
    decreases |b|, 0x1_0000_0002
  {
    if |b| >= 4 {
      var count := UnpackCount(order == 1, b);
      MembersAreRead(b[4..], count);
      var members := ParseMembers(b[4..], count);
      if members.Parsed? {
        CountIsRead(b, order == 1, EncodeMembers(members.value));
      }
    }
  }

  lemma {:induction false} BodyIsRead(b: seq<byte>, order: byte, flag: nat, kind: nat)
    requires flag < 4
    ensures var r := ParseBody(b, order, flag, kind); r.Parsed? ==> Body(r.value) == b[..r.used]
    decreases |b|, 0x1_0000_0003
  {
    if kind == POINT {
      if |b| >= 8 * Width(flag) {
        PositionIsRead(b, order == 1, Width(flag));
      }
    } else if kind == LINE_STRING {
      RingIsRead(b, order == 1, flag);
    } else if kind == POLYGON {
      PolygonIsRead(b, order, flag);
    } else if kind in COLLECTIONS {
      CollectionIsRead(b, order, flag, kind);
    }
  }

  /** Whatever bytes are parsed are the encoding of the tree they parse to. */
  lemma {:induction false} IsRead(b: seq<byte>)
    ensures var r := Parse(b); r.Parsed? ==> Encode(r.value) == b[..r.used]
    decreases |b|, 0
  {
    var r := Parse(b);
    if r.Parsed? {
      var code := UnpackCount(b[0] == 1, b[1..]);
      var kind, flag := code % 1000, code / 1000;
      BodyIsRead(b[5..], b[0], flag, kind);
      HeaderIsRead(b, r.value, r.used);
    }
  }

  lemma HeaderIsRead(b: seq<byte>, g: Geometry, used: nat)
    requires 5 <= used <= |b| && WellFormed(g) && b[0] == g.order
    requires UnpackCount(g.order == 1, b[1..]) == Kind(g) + 1000 * g.flag
    requires Body(g) == b[5..][..used - 5]
    ensures Encode(g) == b[..used]
  {
    PackUnpacked(g.order == 1, b[1..]);
    Cut3(b, used);
    hide Body, WellFormed, UnpackCount;
  }

  lemma Cut3(b: seq<byte>, used: nat)
    requires 5 <= used <= |b|
    ensures b[..used] == [b[0]] + b[1..][..4] + b[5..][..used - 5]
  {}

  // ----- an encoded tree parses to itself, whatever follows it

  lemma PositionStep(little: bool, n: nat, d: Double, b: seq<byte>)
    requires 8 * n + 8 <= |b| && Ordered(little, d) <= b[8 * n..]
    ensures PositionAt(b, little, n + 1) == PositionAt(b, little, n) + [d]
  {
    var word: Double := b[8 * n..][..8];
    assert word == Ordered(little, d);
    OrderedTwice(little, d);
  }

  lemma {:induction false} PositionReads(little: bool, p: Position, b: seq<byte>)
    requires EncodePosition(little, p) <= b
    ensures PositionAt(b, little, |p|) == p
  {
    if p != [] {
      var n := |p| - 1;
      PrefixSplit(EncodePosition(little, p[..n]), Ordered(little, p[n]), b);
      PositionReads(little, p[..n], b);
      PositionStep(little, n, p[n], b);
      Snoc(p);
    }
  }

  lemma LineStep(little: bool, flag: nat, done: seq<Position>, used: nat, p: Position, b: seq<byte>)
    requires ParseLine(b, little, flag, |done|) == Parsed(done, used)
    requires used <= |b| && EncodePosition(little, p) <= b[used..] && |p| == Width(flag)
    ensures ParseLine(b, little, flag, |done| + 1) == Parsed(done + [p], used + 8 * Width(flag))
  {
    PositionReads(little, p, b[used..]);
  }

  lemma LineSplit(little: bool, line: seq<Position>, b: seq<byte>)
    requires line != [] && EncodeLine(little, line) <= b
    ensures var before, p := line[..|line| - 1], line[|line| - 1];
      var head := EncodeLine(little, before);
      && head <= b && EncodePosition(little, p) <= b[|head|..]
      && |EncodeLine(little, line)| == |head| + 8 * |p|
  {
    PrefixSplit(EncodeLine(little, line[..|line| - 1]), EncodePosition(little, line[|line| - 1]), b);
  }

  lemma {:induction false} LineReads(little: bool, flag: nat, line: seq<Position>, b: seq<byte>)
    requires forall i :: 0 <= i < |line| ==> |line[i]| == Width(flag)
    requires EncodeLine(little, line) <= b
    ensures ParseLine(b, little, flag, |line|) == Parsed(line, |EncodeLine(little, line)|)
  {
    if line != [] {
      var before := line[..|line| - 1];
      LineSplit(little, line, b);
      LineReads(little, flag, before, b);
      LineStep(little, flag, before, |EncodeLine(little, before)|, line[|line| - 1], b);
      Snoc(line);
    }
  }

  lemma CountReads(little: bool, n: nat, inner: seq<byte>, b: seq<byte>)
    requires n < 0x1_0000_0000 && PackCount(little, n) + inner <= b
    ensures |b| >= 4 && UnpackCount(little, b) == n && inner <= b[4..]
  {
    PrefixSplit(PackCount(little, n), inner, b);
    UnpackPacked(little, n, b[4..]);
    assert b == PackCount(little, n) + b[4..];
  }

  lemma RingReads(little: bool, flag: nat, ring: seq<Position>, b: seq<byte>)
    requires IsLine(flag, ring) && PackCount(little, |ring|) + EncodeLine(little, ring) <= b
    ensures ParseRing(b, little, flag) == Parsed(ring, 4 + |EncodeLine(little, ring)|)
  {
    CountReads(little, |ring|, EncodeLine(little, ring), b);
    LineReads(little, flag, ring, b[4..]);
  }

  lemma RingsStep(little: bool, flag: nat, done: seq<seq<Position>>, used: nat, ring: seq<Position>, b: seq<byte>)
    requires ParseRings(b, little, flag, |done|) == Parsed(done, used) && IsLine(flag, ring)
    requires used <= |b| && PackCount(little, |ring|) + EncodeLine(little, ring) <= b[used..]
    ensures ParseRings(b, little, flag, |done| + 1) == Parsed(done + [ring], used + 4 + |EncodeLine(little, ring)|)
  {
    RingReads(little, flag, ring, b[used..]);
  }

  lemma RingsSplit(little: bool, flag: nat, rings: seq<seq<Position>>, b: seq<byte>)
    requires rings != [] && Lines(flag, rings)
    requires EncodeRings(little, flag, rings) <= b
    ensures var before, ring := rings[..|rings| - 1], rings[|rings| - 1];
      var head := EncodeRings(little, flag, before);
      && IsLine(flag, ring)
      && head <= b && PackCount(little, |ring|) + EncodeLine(little, ring) <= b[|head|..]
      && |EncodeRings(little, flag, rings)| == |head| + 4 + |EncodeLine(little, ring)|
  {
    var before, ring := rings[..|rings| - 1], rings[|rings| - 1];
    assert IsLine(flag, ring);
    PrefixSplit(EncodeRings(little, flag, before), PackCount(little, |ring|) + EncodeLine(little, ring), b);
  }

  lemma LinesBefore(flag: nat, rings: seq<seq<Position>>)
    requires rings != [] && Lines(flag, rings)
    ensures Lines(flag, rings[..|rings| - 1])
  {}

  lemma {:induction false} RingsRead(little: bool, flag: nat, rings: seq<seq<Position>>, b: seq<byte>)
    requires Lines(flag, rings)
    requires EncodeRings(little, flag, rings) <= b
    ensures ParseRings(b, little, flag, |rings|) == Parsed(rings, |EncodeRings(little, flag, rings)|)
  {
    hide *;
    if rings == [] {
      NoRings(b, little, flag);
      return;
    }
    var before := rings[..|rings| - 1];
    LinesBefore(flag, rings);
    RingsSplit(little, flag, rings, b);
    RingsRead(little, flag, before, b);
    RingsStep(little, flag, before, |EncodeRings(little, flag, before)|, rings[|rings| - 1], b);
    Snoc(rings);
  }

  lemma MembersStep(done: seq<Geometry>, used: nat, member: Geometry, size: nat, b: seq<byte>)
    requires ParseMembers(b, |done|) == Parsed(done, used) && used <= |b|
    requires Parse(b[used..]) == Parsed(member, size)
    ensures ParseMembers(b, |done| + 1) == Parsed(done + [member], used + size)
  {}

  lemma MembersSplit(members: seq<Geometry>, b: seq<byte>)
    requires members != [] && AllWellFormed(members)
    requires EncodeMembers(members) <= b
    ensures var before, member := members[..|members| - 1], members[|members| - 1];
      && EncodeMembers(before) <= b && Encode(member) <= b[|EncodeMembers(before)|..]
      && |EncodeMembers(members)| == |EncodeMembers(before)| + |Encode(member)|
  {
    PrefixSplit(EncodeMembers(members[..|members| - 1]), Encode(members[|members| - 1]), b);
  }

  lemma {:induction false} MembersRead(members: seq<Geometry>, b: seq<byte>)
    requires AllWellFormed(members)
    requires EncodeMembers(members) <= b
    ensures ParseMembers(b, |members|) == Parsed(members, |EncodeMembers(members)|)
    decreases members, 3
  {
    if members != [] {
      var before, member := members[..|members| - 1], members[|members| - 1];
      MembersSplit(members, b);
      MembersRead(before, b);
      Reads(member, b[|EncodeMembers(before)|..]);
      MembersStep(before, |EncodeMembers(before)|, member, |Encode(member)|, b);
      Snoc(members);
    }
  }

  lemma PolygonReads(g: Geometry, b: seq<byte>)
    requires WellFormed(g) && g.Polygon? && Body(g) <= b
    ensures ParsePolygon(b, g.order, g.flag) == Parsed(g, |Body(g)|)
  {
    CountReads(g.order == 1, |g.rings|, EncodeRings(g.order == 1, g.flag, g.rings), b);
    RingsRead(g.order == 1, g.flag, g.rings, b[4..]);
  }

  lemma {:induction false} CollectionReads(g: Geometry, b: seq<byte>)
    requires WellFormed(g) && g.Collection? && Body(g) <= b
    ensures ParseCollection(b, g.order, g.flag, g.kind) == Parsed(g, |Body(g)|)
    decreases g, 0
  {
    CountReads(g.order == 1, |g.members|, EncodeMembers(g.members), b);
    MembersRead(g.members, b[4..]);
  }

  lemma {:induction false} BodyReads(g: Geometry, b: seq<byte>)
    requires WellFormed(g) && Body(g) <= b
    ensures ParseBody(b, g.order, g.flag, Kind(g)) == Parsed(g, |Body(g)|)
    decreases g, 1
  {
    match g
    case Point(_, _, at) => PositionReads(g.order == 1, at, b);
    case LineString(_, flag, line) => RingReads(g.order == 1, flag, line, b);
    case Polygon(_, _, _) => PolygonReads(g, b);
    case Collection(_, _, _, _) => CollectionReads(g, b);
  }

  lemma HeaderReads(g: Geometry, b: seq<byte>)
    requires WellFormed(g) && Header(g) <= b
    ensures var code := UnpackCount(b[0] == 1, b[1..]);
      b[0] == g.order && code % 1000 == Kind(g) && code / 1000 == g.flag
  {
    var code := PackCount(g.order == 1, Kind(g) + 1000 * g.flag);
    PrefixSplit([g.order], code, b);
    assert code + [] == code;
    CountReads(g.order == 1, Kind(g) + 1000 * g.flag, [], b[1..]);
    CodeParts(Kind(g), g.flag);
  }

  lemma CodeParts(kind: nat, flag: nat)
    requires kind < 1000
    ensures (kind + 1000 * flag) % 1000 == kind && (kind + 1000 * flag) / 1000 == flag
  {}

  /** The encoding of a well-formed tree parses back to it, whatever follows. */
  lemma {:induction false} Reads(g: Geometry, b: seq<byte>)
    requires WellFormed(g) && Encode(g) <= b
    ensures Parse(b) == Parsed(g, |Encode(g)|)
    decreases g, 2
  {
    PrefixSplit(Header(g), Body(g), b);
    HeaderReads(g, b);
    BodyReads(g, b[5..]);
  }
}
