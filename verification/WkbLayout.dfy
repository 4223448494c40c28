module WkbLayout {
  // The bytes of ISO well-known binary one by one (clause 8.2 of OGC 06-103r4): where each number of a tree
  // is in them, and which of its bytes comes first.

  import opened WkbFormat

  /** Four bytes as a number: the least byte first in order 1, and the greatest otherwise. */
  function Number(b: seq<byte>, at: nat, order: byte): nat
    requires at + 4 <= |b|
  {
    var b0: int, b1: int, b2: int, b3: int := b[at], b[at + 1], b[at + 2], b[at + 3];
    if order == 1 then b0 + 256 * b1 + 65536 * b2 + 16777216 * b3
    else b3 + 256 * b2 + 65536 * b1 + 16777216 * b0
  }

  /** Eight bytes are a double's: the least byte first in order 1, and the greatest otherwise. */
  predicate HoldsDouble(b: seq<byte>, at: nat, order: byte, d: Double) {
    && at + 8 <= |b|
    && if order == 1 then
         && b[at] == d[7] && b[at + 1] == d[6] && b[at + 2] == d[5] && b[at + 3] == d[4]
         && b[at + 4] == d[3] && b[at + 5] == d[2] && b[at + 6] == d[1] && b[at + 7] == d[0]
       else
         && b[at] == d[0] && b[at + 1] == d[1] && b[at + 2] == d[2] && b[at + 3] == d[3]
         && b[at + 4] == d[4] && b[at + 5] == d[5] && b[at + 6] == d[6] && b[at + 7] == d[7]
  }

  /** x and y, a z for an odd flag, an m for a flag from 2 on. */
  predicate HoldsPosition(b: seq<byte>, at: nat, order: byte, flag: nat, p: Position) {
    && |p| == 2 + flag % 2 + flag / 2
    && forall c :: 0 <= c < |p| ==> HoldsDouble(b, at + 8 * c, order, p[c])
  }

  function LineSize(line: seq<Position>): nat {
    if line == [] then 0 else LineSize(line[..|line| - 1]) + 8 * |line[|line| - 1]|
  }

  predicate HoldsLine(b: seq<byte>, at: nat, order: byte, flag: nat, line: seq<Position>) {
    line == [] ||
    var front, last := line[..|line| - 1], line[|line| - 1];
    HoldsLine(b, at, order, flag, front) && HoldsPosition(b, at + LineSize(front), order, flag, last)
  }

  /** A count, then as many positions. */
  predicate HoldsRing(b: seq<byte>, at: nat, order: byte, flag: nat, ring: seq<Position>) {
    at + 4 <= |b| && Number(b, at, order) == |ring| && HoldsLine(b, at + 4, order, flag, ring)
  }

  function RingsSize(rings: seq<seq<Position>>): nat {
    if rings == [] then 0 else RingsSize(rings[..|rings| - 1]) + 4 + LineSize(rings[|rings| - 1])
  }

  predicate HoldsRings(b: seq<byte>, at: nat, order: byte, flag: nat, rings: seq<seq<Position>>) {
    rings == [] ||
    var front, last := rings[..|rings| - 1], rings[|rings| - 1];
    HoldsRings(b, at, order, flag, front) && HoldsRing(b, at + RingsSize(front), order, flag, last)
  }

  function Size(g: Geometry): nat
    decreases g, 0
  {
    match g
    case Point(_, _, at) => 5 + 8 * |at|
    case LineString(_, _, line) => 9 + LineSize(line)
    case Polygon(_, _, rings) => 9 + RingsSize(rings)
    case Collection(_, _, _, members) => 9 + MembersSize(members)
  }

  function MembersSize(members: seq<Geometry>): nat
    decreases members, 1
  {
    if members == [] then 0 else MembersSize(members[..|members| - 1]) + Size(members[|members| - 1])
  }

  predicate HoldsCode(b: seq<byte>, at: nat, order: byte, kind: nat, flag: nat) {
    at + 5 <= |b| && b[at] == order && flag < 4 && Number(b, at + 1, order) == kind + 1000 * flag
  }

  predicate HoldsCount(b: seq<byte>, at: nat, order: byte, n: nat) {
    at + 4 <= |b| && Number(b, at, order) == n
  }

  /** The bytes from `at` on are the tree's. */
  predicate Holds(b: seq<byte>, at: nat, g: Geometry)
    decreases g, 0
  {
    match g
    case Point(order, flag, p) => HoldsCode(b, at, order, 1, flag) && HoldsPosition(b, at + 5, order, flag, p)
    case LineString(order, flag, line) => HoldsCode(b, at, order, 2, flag) && HoldsRing(b, at + 5, order, flag, line)
    case Polygon(order, flag, rings) =>
      && HoldsCode(b, at, order, 3, flag) && HoldsCount(b, at + 5, order, |rings|)
      && HoldsRings(b, at + 9, order, flag, rings)
    case Collection(order, flag, kind, members) =>
      && 4 <= kind <= 7 && HoldsCode(b, at, order, kind, flag) && HoldsCount(b, at + 5, order, |members|)
      && HoldsMembers(b, at + 9, members)
  }

  predicate HoldsMembers(b: seq<byte>, at: nat, members: seq<Geometry>)
    decreases members, 1
  {
    members == [] ||
    var front, last := members[..|members| - 1], members[|members| - 1];
    HoldsMembers(b, at, front) && Holds(b, at + MembersSize(front), last)
  }

  /** The bytes from `at` on start with these. */
  ghost predicate Has(b: seq<byte>, at: nat, piece: seq<byte>) {
    at + |piece| <= |b| && b[at..at + |piece|] == piece
  }

  lemma HasJoined(b: seq<byte>, at: nat, x: seq<byte>, y: seq<byte>)
    ensures Has(b, at, x + y) <==> Has(b, at, x) && Has(b, at + |x|, y)
  {
    if Has(b, at, x + y) {
      assert b[at..at + |x|] == b[at..at + |x + y|][..|x|];
      assert b[at + |x|..at + |x| + |y|] == b[at..at + |x + y|][|x|..];
    }
    if Has(b, at, x) && Has(b, at + |x|, y) {
      assert b[at..at + |x + y|] == b[at..at + |x|] + b[at + |x|..at + |x| + |y|];
    }
  }

  // ----- numbers

  lemma CountHolds(b: seq<byte>, at: nat, order: byte, n: nat)
    requires n < 0x1_0000_0000
    ensures Has(b, at, PackCount(order == 1, n)) <==> HoldsCount(b, at, order, n)
  {
    if at + 4 <= |b| {
      NumberUnpacked(b, at, order);
      PackUnpacked(order == 1, b[at..at + 4]);
      UnpackPacked(order == 1, n, []);
      assert PackCount(order == 1, n) + [] == PackCount(order == 1, n);
      assert b[at..at + 4][..4] == b[at..at + 4];
    }
  }

  lemma NumberUnpacked(b: seq<byte>, at: nat, order: byte)
    requires at + 4 <= |b|
    ensures Number(b, at, order) == UnpackCount(order == 1, b[at..at + 4]) < 0x1_0000_0000
  {}

  lemma DoubleHolds(b: seq<byte>, at: nat, order: byte, d: Double)
    ensures Has(b, at, Ordered(order == 1, d)) <==> HoldsDouble(b, at, order, d)
  {
    if at + 8 <= |b| {
      var piece, o := b[at..at + 8], Ordered(order == 1, d);
      assert forall i :: 0 <= i < 8 ==> piece[i] == b[at + i];
      if HoldsDouble(b, at, order, d) {
        assert piece == o;
      }
    }
  }

  // ----- positions

  lemma {:induction false} DoublesHold(b: seq<byte>, at: nat, order: byte, p: Position)
    ensures Has(b, at, EncodePosition(order == 1, p))
            <==> at <= |b| && forall c :: 0 <= c < |p| ==> HoldsDouble(b, at + 8 * c, order, p[c])
  {
    hide HoldsDouble, Ordered;
    if p != [] {
      var n, front, last := |p| - 1, p[..|p| - 1], p[|p| - 1];
      DoublesHold(b, at, order, front);
      HasJoined(b, at, EncodePosition(order == 1, front), Ordered(order == 1, last));
      DoubleHolds(b, at + 8 * n, order, last);
      HasMeans(b, at + 8 * n, Ordered(order == 1, last));
      hide Has;
      assert forall c :: 0 <= c < n ==> front[c] == p[c];
      if forall c :: 0 <= c < |p| ==> HoldsDouble(b, at + 8 * c, order, p[c]) {
        assert HoldsDouble(b, at + 8 * n, order, p[n]);
      }
    }
  }

  lemma HasMeans(b: seq<byte>, at: nat, piece: seq<byte>)
    ensures Has(b, at, piece) ==> at + |piece| <= |b|
  {}

  lemma PositionHolds(b: seq<byte>, at: nat, order: byte, flag: nat, p: Position)
    requires flag < 4
    ensures |p| == Width(flag) && Has(b, at, EncodePosition(order == 1, p)) <==> HoldsPosition(b, at, order, flag, p)
  {
    DoublesHold(b, at, order, p);
    assert Width(flag) == 2 + flag % 2 + flag / 2;
    hide HoldsDouble, EncodePosition, Has;
    if HoldsPosition(b, at, order, flag, p) {
      DoubleFits(b, at, order, p[0]);
    }
  }

  lemma DoubleFits(b: seq<byte>, at: nat, order: byte, d: Double)
    requires HoldsDouble(b, at + 8 * 0, order, d)
    ensures at + 8 <= |b|
  {}

  predicate AllWide(flag: nat, line: seq<Position>) {
    forall i :: 0 <= i < |line| ==> |line[i]| == Width(flag)
  }

  lemma LineParts(flag: nat, front: seq<Position>, last: Position)
    ensures AllWide(flag, front + [last]) <==> AllWide(flag, front) && |last| == Width(flag)
    ensures LineSize(front + [last]) == LineSize(front) + 8 * |last|
  {
    var line := front + [last];
    assert line[..|front|] == front && line[|front|] == last;
    assert forall i :: 0 <= i < |front| ==> line[i] == front[i];
  }

  lemma {:induction false} LineHolds(b: seq<byte>, at: nat, order: byte, flag: nat, line: seq<Position>)
    requires flag < 4
    ensures |EncodeLine(order == 1, line)| == LineSize(line)
    ensures AllWide(flag, line) && Has(b, at, EncodeLine(order == 1, line))
            <==> at <= |b| && HoldsLine(b, at, order, flag, line)
  {
    hide *;
    if line == [] {
      NoLineHolds(b, at, order, flag);
      return;
    }
    var front, last := line[..|line| - 1], line[|line| - 1];
    Snoc(line);
    LineHolds(b, at, order, flag, front);
    LineParts(flag, front, last);
    LineSnoc(order == 1, front, last);
    HasJoined(b, at, EncodeLine(order == 1, front), EncodePosition(order == 1, last));
    PositionHolds(b, at + LineSize(front), order, flag, last);
    HoldsLineNext(b, at, order, flag, front, last);
    HasMeans(b, at + LineSize(front), EncodePosition(order == 1, last));
    PositionFits(b, at + LineSize(front), order, flag, last);
  }

  lemma PositionFits(b: seq<byte>, at: nat, order: byte, flag: nat, p: Position)
    requires flag < 4
    ensures HoldsPosition(b, at, order, flag, p) ==> at <= |b|
  {
    PositionHolds(b, at, order, flag, p);
  }

  lemma NoLineHolds(b: seq<byte>, at: nat, order: byte, flag: nat)
    ensures EncodeLine(order == 1, []) == [] && LineSize([]) == 0 && AllWide(flag, [])
    ensures Has(b, at, []) <==> at <= |b|
    ensures HoldsLine(b, at, order, flag, [])
  {}

  lemma HoldsLineNext(b: seq<byte>, at: nat, order: byte, flag: nat, front: seq<Position>, last: Position)
    ensures HoldsLine(b, at, order, flag, front + [last])
            <==> HoldsLine(b, at, order, flag, front) && HoldsPosition(b, at + LineSize(front), order, flag, last)
  {
    assert (front + [last])[..|front|] == front;
  }

  lemma RingHolds(b: seq<byte>, at: nat, order: byte, flag: nat, ring: seq<Position>)
    requires flag < 4
    ensures HoldsRing(b, at, order, flag, ring) ==> IsLine(flag, ring)
    ensures IsLine(flag, ring) ==>
            (Has(b, at, PackCount(order == 1, |ring|) + EncodeLine(order == 1, ring))
             <==> HoldsRing(b, at, order, flag, ring))
  {
    LineHolds(b, at + 4, order, flag, ring);
    assert IsLine(flag, ring) <==> |ring| < 0x1_0000_0000 && AllWide(flag, ring);
    if at + 4 <= |b| {
      NumberUnpacked(b, at, order);
    }
    if |ring| < 0x1_0000_0000 {
      CountHolds(b, at, order, |ring|);
      HasJoined(b, at, PackCount(order == 1, |ring|), EncodeLine(order == 1, ring));
    }
    hide Has, Number, EncodeLine, HoldsLine, IsLine, AllWide;
  }

  lemma {:induction false} RingsHold(b: seq<byte>, at: nat, order: byte, flag: nat, rings: seq<seq<Position>>)
    requires flag < 4
    ensures at <= |b| && HoldsRings(b, at, order, flag, rings) ==> Lines(flag, rings)
    ensures Lines(flag, rings) ==>
            && |EncodeRings(order == 1, flag, rings)| == RingsSize(rings)
            && (Has(b, at, EncodeRings(order == 1, flag, rings)) <==>
                at <= |b| && HoldsRings(b, at, order, flag, rings))
  {
    hide *;
    if rings == [] {
      NoRingsHold(b, at, order, flag);
      return;
    }
    var front, last := rings[..|rings| - 1], rings[|rings| - 1];
    Snoc(rings);
    RingsHold(b, at, order, flag, front);
    LinesParts(flag, front, last);
    HoldsRingsNext(b, at, order, flag, front, last);
    RingHolds(b, at + RingsSize(front), order, flag, last);
    RingFits(b, at + RingsSize(front), order, flag, last);
    if Lines(flag, rings) {
      RingsSnoc(order == 1, flag, front, last);
      LineHolds(b, at, order, flag, last);
      HasJoined(b, at, EncodeRings(order == 1, flag, front),
                PackCount(order == 1, |last|) + EncodeLine(order == 1, last));
    }
  }

  lemma NoRingsHold(b: seq<byte>, at: nat, order: byte, flag: nat)
    ensures Lines(flag, []) && EncodeRings(order == 1, flag, []) == [] && RingsSize([]) == 0
    ensures HoldsRings(b, at, order, flag, []) && (Has(b, at, []) <==> at <= |b|)
  {}

  lemma LinesParts(flag: nat, front: seq<seq<Position>>, last: seq<Position>)
    ensures Lines(flag, front + [last]) <==> Lines(flag, front) && IsLine(flag, last)
    ensures Lines(flag, front + [last]) ==> |last| < 0x1_0000_0000
  {
    var rings := front + [last];
    assert rings[|front|] == last && forall i :: 0 <= i < |front| ==> rings[i] == front[i];
    assert IsLine(flag, last) ==> |last| < 0x1_0000_0000;
    hide IsLine;
  }

  lemma HoldsRingsNext(b: seq<byte>, at: nat, order: byte, flag: nat, front: seq<seq<Position>>, last: seq<Position>)
    ensures HoldsRings(b, at, order, flag, front + [last])
            <==> HoldsRings(b, at, order, flag, front) && HoldsRing(b, at + RingsSize(front), order, flag, last)
    ensures RingsSize(front + [last]) == RingsSize(front) + 4 + LineSize(last)
  {
    assert (front + [last])[..|front|] == front;
  }

  lemma RingFits(b: seq<byte>, at: nat, order: byte, flag: nat, ring: seq<Position>)
    ensures HoldsRing(b, at, order, flag, ring) ==> at <= |b|
  {}

  // ----- trees

  lemma CodeHolds(b: seq<byte>, at: nat, order: byte, kind: nat, flag: nat)
    requires kind < 8 && flag < 4
    ensures Has(b, at, [order] + PackCount(order == 1, kind + 1000 * flag)) <==> HoldsCode(b, at, order, kind, flag)
  {
    HasJoined(b, at, [order], PackCount(order == 1, kind + 1000 * flag));
    CountHolds(b, at + 1, order, kind + 1000 * flag);
    if at + 5 <= |b| {
      assert b[at..at + 1] == [b[at]];
    }
  }

  /** The bytes a tree is in are its encoding, and the other way round. */
  lemma {:induction false} TreeHolds(b: seq<byte>, at: nat, g: Geometry)
    ensures Holds(b, at, g) ==> WellFormed(g)
    ensures WellFormed(g) ==> |Encode(g)| == Size(g) && (Has(b, at, Encode(g)) <==> Holds(b, at, g))
    decreases g, 0
  {
    hide Has, Number, EncodeLine, EncodeRings, EncodeMembers, HoldsRings, HoldsMembers, HoldsRing, HoldsPosition,
      LineSize, RingsSize, MembersSize, Lines, AllWellFormed, IsLine, PackCount;
    match g
    case Point(order, flag, p) => PointHolds(b, at, g);
    case LineString(order, flag, line) => LineStringHolds(b, at, g);
    case Polygon(order, flag, rings) => PolygonHolds(b, at, g);
    case Collection(order, flag, kind, members) =>
      MembersHold(b, at + 9, members);
      CollectionHolds(b, at, g);
  }

  lemma HeaderThenBody(b: seq<byte>, at: nat, g: Geometry)
    requires WellFormed(g)
    ensures |Encode(g)| == 5 + |Body(g)|
    ensures Has(b, at, Encode(g)) <==> HoldsCode(b, at, g.order, Kind(g), g.flag) && Has(b, at + 5, Body(g))
  {
    hide *;
    EncodeParts(g);
    HasJoined(b, at, Header(g), Body(g));
    CodeHolds(b, at, g.order, Kind(g), g.flag);
  }

  lemma EncodeParts(g: Geometry)
    requires WellFormed(g)
    ensures Encode(g) == Header(g) + Body(g) && |Header(g)| == 5 && g.flag < 4 && Kind(g) < 8
    ensures Header(g) == [g.order] + PackCount(g.order == 1, Kind(g) + 1000 * g.flag)
  {
    hide Body, PackCount;
  }

  lemma PointHolds(b: seq<byte>, at: nat, g: Geometry)
    requires g.Point?
    ensures Holds(b, at, g) ==> WellFormed(g)
    ensures WellFormed(g) ==> |Encode(g)| == Size(g) && (Has(b, at, Encode(g)) <==> Holds(b, at, g))
  {
    if g.flag < 4 {
      PositionHolds(b, at + 5, g.order, g.flag, g.at);
      if WellFormed(g) {
        HeaderThenBody(b, at, g);
      }
    }
    hide Has, HoldsPosition, EncodePosition, Encode;
  }

  lemma LineStringHolds(b: seq<byte>, at: nat, g: Geometry)
    requires g.LineString?
    ensures Holds(b, at, g) ==> WellFormed(g)
    ensures WellFormed(g) ==> |Encode(g)| == Size(g) && (Has(b, at, Encode(g)) <==> Holds(b, at, g))
  {
    if g.flag < 4 {
      RingHolds(b, at + 5, g.order, g.flag, g.line);
      LineHolds(b, at + 9, g.order, g.flag, g.line);
      if WellFormed(g) {
        HeaderThenBody(b, at, g);
      }
    }
    hide Has, HoldsRing, HoldsLine, LineSize, EncodeLine, Encode, IsLine;
  }

  lemma PolygonHolds(b: seq<byte>, at: nat, g: Geometry)
    requires g.Polygon?
    ensures Holds(b, at, g) ==> WellFormed(g)
    ensures WellFormed(g) ==> |Encode(g)| == Size(g) && (Has(b, at, Encode(g)) <==> Holds(b, at, g))
  {
    if g.flag < 4 {
      RingsHold(b, at + 9, g.order, g.flag, g.rings);
      CountFits(b, at + 5, g.order, |g.rings|);
      if WellFormed(g) {
        HeaderThenBody(b, at, g);
        CountHolds(b, at + 5, g.order, |g.rings|);
        HasJoined(b, at + 5, PackCount(g.order == 1, |g.rings|), EncodeRings(g.order == 1, g.flag, g.rings));
      }
    }
    hide Has, HoldsRings, RingsSize, EncodeRings, Encode, Lines, HoldsCount, PackCount;
  }

  lemma CountFits(b: seq<byte>, at: nat, order: byte, n: nat)
    ensures HoldsCount(b, at, order, n) ==> n < 0x1_0000_0000 && at + 4 <= |b|
  {
    if at + 4 <= |b| {
      NumberUnpacked(b, at, order);
    }
  }

  lemma CollectionHolds(b: seq<byte>, at: nat, g: Geometry)
    requires g.Collection?
    requires at + 9 <= |b| && HoldsMembers(b, at + 9, g.members) ==> AllWellFormed(g.members)
    requires AllWellFormed(g.members) ==>
             && |EncodeMembers(g.members)| == MembersSize(g.members)
             && (Has(b, at + 9, EncodeMembers(g.members)) <==> at + 9 <= |b| && HoldsMembers(b, at + 9, g.members))
    ensures Holds(b, at, g) ==> WellFormed(g)
    ensures WellFormed(g) ==> |Encode(g)| == Size(g) && (Has(b, at, Encode(g)) <==> Holds(b, at, g))
  {
    CollectionMeans(b, at, g);
    hide *;
    CountFits(b, at + 5, g.order, |g.members|);
    if WellFormed(g) {
      HeaderThenBody(b, at, g);
      CountHolds(b, at + 5, g.order, |g.members|);
      HasJoined(b, at + 5, PackCount(g.order == 1, |g.members|), EncodeMembers(g.members));
    }
  }

  lemma CollectionMeans(b: seq<byte>, at: nat, g: Geometry)
    requires g.Collection?
    ensures Size(g) == 9 + MembersSize(g.members) && Kind(g) == g.kind
    ensures WellFormed(g) <==>
            g.flag < 4 && 4 <= g.kind <= 7 && |g.members| < 0x1_0000_0000 && AllWellFormed(g.members)
    ensures WellFormed(g) ==> Body(g) == PackCount(g.order == 1, |g.members|) + EncodeMembers(g.members)
    ensures Holds(b, at, g) <==>
            && 4 <= g.kind <= 7 && HoldsCode(b, at, g.order, g.kind, g.flag)
            && HoldsCount(b, at + 5, g.order, |g.members|) && HoldsMembers(b, at + 9, g.members)
    ensures HoldsCode(b, at, g.order, g.kind, g.flag) ==> g.flag < 4
  {
    hide HoldsCount, HoldsMembers, MembersSize, EncodeMembers, PackCount, AllWellFormed;
  }

  lemma {:induction false} MembersHold(b: seq<byte>, at: nat, members: seq<Geometry>)
    ensures at <= |b| && HoldsMembers(b, at, members) ==> AllWellFormed(members)
    ensures AllWellFormed(members) ==>
            && |EncodeMembers(members)| == MembersSize(members)
            && (Has(b, at, EncodeMembers(members)) <==> at <= |b| && HoldsMembers(b, at, members))
    decreases members, 1
  {
    hide *;
    if members == [] {
      NoMembersHold(b, at);
      return;
    }
    var front, last := members[..|members| - 1], members[|members| - 1];
    Snoc(members);
    MembersHold(b, at, front);
    MembersParts(front, last);
    HoldsMembersNext(b, at, front, last);
    TreeHolds(b, at + MembersSize(front), last);
    TreeFits(b, at + MembersSize(front), last);
    if AllWellFormed(members) {
      MembersSnoc(front, last);
      HasJoined(b, at, EncodeMembers(front), Encode(last));
    }
  }

  lemma NoMembersHold(b: seq<byte>, at: nat)
    ensures AllWellFormed([]) && EncodeMembers([]) == [] && MembersSize([]) == 0
    ensures HoldsMembers(b, at, []) && (Has(b, at, []) <==> at <= |b|)
  {}

  lemma MembersParts(front: seq<Geometry>, last: Geometry)
    ensures AllWellFormed(front + [last]) <==> AllWellFormed(front) && WellFormed(last)
  {
    var members := front + [last];
    assert members[|front|] == last && forall i :: 0 <= i < |front| ==> members[i] == front[i];
  }

  lemma HoldsMembersNext(b: seq<byte>, at: nat, front: seq<Geometry>, last: Geometry)
    ensures HoldsMembers(b, at, front + [last])
            <==> HoldsMembers(b, at, front) && Holds(b, at + MembersSize(front), last)
    ensures MembersSize(front + [last]) == MembersSize(front) + Size(last)
  {
    assert (front + [last])[..|front|] == front;
  }

  lemma TreeFits(b: seq<byte>, at: nat, g: Geometry)
    ensures Holds(b, at, g) ==> at <= |b|
  {}

  /** All of the bytes are a tree's just where they are its encoding. */
  lemma HoldsExactly(b: seq<byte>, g: Geometry)
    ensures Holds(b, 0, g) && Size(g) == |b| <==> WellFormed(g) && Encode(g) == b
  {
    TreeHolds(b, 0, g);
    assert b[0..|b|] == b;
    hide Holds, WellFormed, Encode, Size;
  }
}
