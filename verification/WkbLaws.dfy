/** What rewriting coordinates keeps: every other byte, and a tree given its own rows. */
module WkbLaws {
  import opened WkbFormat
  import opened Wkb

  // ----- every byte outside the coordinates written

  /** The bytes that may differ. */
  type Mask = seq<bool>

  ghost predicate AgreeOff(mask: Mask, x: seq<byte>, y: seq<byte>) {
    |mask| == |x| == |y| && forall i :: 0 <= i < |mask| && !mask[i] ==> x[i] == y[i]
  }

  function All(n: nat, value: bool): (m: Mask)
    ensures |m| == n && forall i :: 0 <= i < n ==> m[i] == value
  {
    seq(n, _ => value)
  }

  function MaskRings(flag: nat, rings: seq<seq<Position>>): Mask {
    if rings == [] then []
    else MaskRings(flag, rings[..|rings| - 1]) + (All(4, false) + All(8 * Width(flag) * |rings[|rings| - 1]|, true))
  }

  function BodyMask(g: Geometry): Mask
    decreases g, 0
  {
    match g
    case Point(_, flag, at) => All(8 * |at|, !Empty(at))
    case LineString(_, flag, line) => All(4, false) + All(8 * Width(flag) * |line|, true)
    case Polygon(_, flag, rings) => All(4, false) + MaskRings(flag, rings)
    case Collection(_, _, _, members) => All(4, false) + MaskMembers(members)
  }

  /** True on the bytes of each position that takes a row; false on byte orders, codes,
      counts and empty points. */
  function CoordinateMask(g: Geometry): Mask
    decreases g, 1
  {
    All(5, false) + BodyMask(g)
  }

  function MaskMembers(members: seq<Geometry>): Mask
    decreases members, 2
  {
    if members == [] then []
    else MaskMembers(members[..|members| - 1]) + CoordinateMask(members[|members| - 1])
  }

  lemma AgreeConcat(m: Mask, x: seq<byte>, y: seq<byte>, n: Mask, u: seq<byte>, v: seq<byte>)
    requires AgreeOff(m, x, y) && AgreeOff(n, u, v)
    ensures AgreeOff(m + n, x + u, y + v)
  {}

  lemma LinesAgree(little: bool, flag: nat, line: seq<Position>, t: Table, k: nat)
    requires t.Valid() && flag < 4 && IsLine(flag, line) && (|line| > 0 ==> t.Has(flag)) && k + |line| <= |t.rows|
    ensures AgreeOff(All(4, false) + All(8 * Width(flag) * |line|, true), EncodeRing(little, line),
                     EncodeRing(little, ReplaceLine(flag, line, t, k)))
  {
    var piece := ReplaceLine(flag, line, t, k);
    LineLength(little, flag, line);
    LineLength(little, flag, piece);
    var count := PackCount(little, |line|);
    assert AgreeOff(All(4, false), count, count);
    AgreeConcat(All(4, false), count, count, All(8 * Width(flag) * |line|, true), EncodeLine(little, line),
                EncodeLine(little, piece));
  }

  ghost predicate RingsOk(flag: nat, rings: seq<seq<Position>>, t: Table, k: nat) {
    t.Valid() && flag < 4 && Lines(flag, rings) && RingsFit(flag, rings, t, k)
  }

  lemma RingsOkParts(flag: nat, before: seq<seq<Position>>, ring: seq<Position>, t: Table, k: nat)
    requires RingsOk(flag, before + [ring], t, k)
    ensures RingsOk(flag, before, t, k) && IsLine(flag, ring) && (|ring| > 0 ==> t.Has(flag))
    ensures CountRings(before + [ring]) == CountRings(before) + |ring|
    ensures k + CountRings(before) + |ring| <= |t.rows|
  {
    CountRingsSnoc(before, ring);
    assert (before + [ring])[|before|] == ring;
    assert forall i :: 0 <= i < |before| ==> (before + [ring])[i] == before[i];
  }

  ghost predicate RingsAgreeAt(little: bool, flag: nat, rings: seq<seq<Position>>, t: Table, k: nat)
    requires RingsOk(flag, rings, t, k)
  {
    AgreeOff(MaskRings(flag, rings), EncodeRings(little, flag, rings),
             EncodeRings(little, flag, ReplaceRings(flag, rings, t, k)))
  }

  lemma RingsAgreeNext(little: bool, flag: nat, before: seq<seq<Position>>, ring: seq<Position>, t: Table, k: nat)
    requires RingsOk(flag, before + [ring], t, k) && RingsOk(flag, before, t, k)
    requires IsLine(flag, ring) && (|ring| > 0 ==> t.Has(flag)) && k + CountRings(before) + |ring| <= |t.rows|
    requires RingsAgreeAt(little, flag, before, t, k)
    ensures RingsAgreeAt(little, flag, before + [ring], t, k)
  {
    MaskRingsSnoc(flag, before, ring);
    hide ReplaceRings, EncodeRings, EncodeRing, MaskRings, CountRings, AgreeOff, Lines;
    var piece := ReplaceLine(flag, ring, t, k + CountRings(before));
    var x, y := EncodeRings(little, flag, before), EncodeRings(little, flag, ReplaceRings(flag, before, t, k));
    RingsEncodeLast(little, flag, before, ring);
    RingsEncodeNext(little, flag, before, ring, t, k, piece);
    LinesAgree(little, flag, ring, t, k + CountRings(before));
    AgreeConcat(MaskRings(flag, before), x, y, All(4, false) + All(8 * Width(flag) * |ring|, true),
                EncodeRing(little, ring), EncodeRing(little, piece));
  }

  lemma MaskRingsSnoc(flag: nat, before: seq<seq<Position>>, ring: seq<Position>)
    ensures MaskRings(flag, before + [ring])
      == MaskRings(flag, before) + (All(4, false) + All(8 * Width(flag) * |ring|, true))
  {
    assert (before + [ring])[..|before|] == before;
  }

  lemma {:induction false} RingsAgree(little: bool, flag: nat, rings: seq<seq<Position>>, t: Table, k: nat)
    requires RingsOk(flag, rings, t, k)
    ensures RingsAgreeAt(little, flag, rings, t, k)
  {
    if rings == [] {
      return;
    }
    var before, ring := rings[..|rings| - 1], rings[|rings| - 1];
    Snoc(rings);
    hide RingsOk, RingsAgreeAt;
    RingsOkParts(flag, before, ring, t, k);
    RingsAgree(little, flag, before, t, k);
    RingsAgreeNext(little, flag, before, ring, t, k);
  }

  lemma RingsEncodeLast(little: bool, flag: nat, before: seq<seq<Position>>, ring: seq<Position>)
    requires Lines(flag, before) && IsLine(flag, ring)
    ensures EncodeRings(little, flag, before + [ring]) == EncodeRings(little, flag, before) + EncodeRing(little, ring)
  {
    RingsSnoc(little, flag, before, ring);
  }

  ghost predicate TreeOk(g: Geometry, t: Table, k: nat) {
    WellFormed(g) && t.Valid() && Fits(g, t) && k + Count(g) <= |t.rows|
  }

  ghost predicate MembersOk(members: seq<Geometry>, t: Table, k: nat) {
    t.Valid() && AllWellFormed(members) && MembersFit(members, t, k)
  }

  lemma MembersOkParts(before: seq<Geometry>, member: Geometry, t: Table, k: nat)
    requires MembersOk(before + [member], t, k)
    ensures MembersOk(before, t, k) && TreeOk(member, t, k + CountMembers(before))
    ensures CountMembers(before + [member]) == CountMembers(before) + Count(member)
  {
    CountMembersSnoc(before, member);
    hide WellFormed, Fits, CountMembers, Count;
    assert (before + [member])[|before|] == member;
    assert forall i :: 0 <= i < |before| ==> (before + [member])[i] == before[i];
  }

  ghost predicate MembersAgreeAt(members: seq<Geometry>, t: Table, k: nat)
    requires MembersOk(members, t, k)
  {
    AgreeOff(MaskMembers(members), EncodeMembers(members), EncodeMembers(ReplaceMembers(members, t, k)))
  }

  ghost predicate TreesAgree(g: Geometry, t: Table, k: nat)
    requires TreeOk(g, t, k)
  {
    AgreeOff(CoordinateMask(g), Encode(g), Encode(Replace(g, t, k)))
  }

  lemma MaskMembersSnoc(before: seq<Geometry>, member: Geometry)
    ensures MaskMembers(before + [member]) == MaskMembers(before) + CoordinateMask(member)
  {
    assert (before + [member])[..|before|] == before;
  }

  lemma MembersAgreeNext(before: seq<Geometry>, member: Geometry, t: Table, k: nat)
    requires MembersOk(before + [member], t, k) && MembersOk(before, t, k) &&
      TreeOk(member, t, k + CountMembers(before))
    requires MembersAgreeAt(before, t, k) && TreesAgree(member, t, k + CountMembers(before))
    ensures MembersAgreeAt(before + [member], t, k)
  {
    MaskMembersSnoc(before, member);
    hide ReplaceMembers, EncodeMembers, Encode, MaskMembers, CoordinateMask, CountMembers, Count, AgreeOff,
      Replace, WellFormed, Fits, AllWellFormed, AllFit;
    var piece := Replace(member, t, k + CountMembers(before));
    var x, y := EncodeMembers(before), EncodeMembers(ReplaceMembers(before, t, k));
    MembersSnoc(before, member);
    MembersEncodeNext(before, member, t, k, piece);
    AgreeConcat(MaskMembers(before), x, y, CoordinateMask(member), Encode(member), Encode(piece));
  }

  lemma {:induction false} MembersAgree(members: seq<Geometry>, t: Table, k: nat)
    requires MembersOk(members, t, k)
    ensures MembersAgreeAt(members, t, k)
    decreases members, 1
  {
    if members == [] {
      return;
    }
    var before, member := members[..|members| - 1], members[|members| - 1];
    Snoc(members);
    hide MembersOk, MembersAgreeAt, TreeOk, TreesAgree, CountMembers;
    MembersOkParts(before, member, t, k);
    MembersAgree(before, t, k);
    OtherBytesUnchanged(member, t, k + CountMembers(before));
    MembersAgreeNext(before, member, t, k);
  }

  lemma CountedAgree(count: seq<byte>, m: Mask, x: seq<byte>, y: seq<byte>)
    requires |count| == 4 && AgreeOff(m, x, y)
    ensures AgreeOff(All(4, false) + m, count + x, count + y)
  {
    AgreeConcat(All(4, false), count, count, m, x, y);
  }

  lemma {:induction false} BodiesAgree(g: Geometry, t: Table, k: nat)
    requires TreeOk(g, t, k)
    ensures AgreeOff(BodyMask(g), Body(g), Body(Replace(g, t, k)))
    decreases g, 0
  {
    hide EncodeRings, EncodeMembers, ReplaceRings, ReplaceMembers, MaskRings, MaskMembers, EncodeLine, AgreeOff;
    var little := g.order == 1;
    match g
    case Point(_, flag, at) => PointsAgree(g, t, k);
    case LineString(_, flag, line) => LinesAgree(little, flag, line, t, k);
    case Polygon(_, flag, rings) =>
      RingsAgree(little, flag, rings, t, k);
      CountedAgree(PackCount(little, |rings|), MaskRings(flag, rings), EncodeRings(little, flag, rings),
                   EncodeRings(little, flag, ReplaceRings(flag, rings, t, k)));
    case Collection(_, _, _, members) =>
      MembersAgree(members, t, k);
      CountedAgree(PackCount(little, |members|), MaskMembers(members), EncodeMembers(members),
                   EncodeMembers(ReplaceMembers(members, t, k)));
  }

  lemma PointsAgree(g: Geometry, t: Table, k: nat)
    requires TreeOk(g, t, k) && g.Point?
    ensures AgreeOff(BodyMask(g), Body(g), Body(Replace(g, t, k)))
  {}

  /** Rewriting leaves every byte that is not a coordinate of a position taking a row. */
  lemma {:induction false} OtherBytesUnchanged(g: Geometry, t: Table, k: nat)
    requires TreeOk(g, t, k)
    ensures TreesAgree(g, t, k)
    decreases g, 1
  {
    hide Body, BodyMask, AgreeOff, Replace;
    BodiesAgree(g, t, k);
    HeadersAgree(g);
    AgreeConcat(All(5, false), Header(g), Header(g), BodyMask(g), Body(g), Body(Replace(g, t, k)));
  }

  lemma HeadersAgree(g: Geometry)
    requires WellFormed(g)
    ensures AgreeOff(All(5, false), Header(g), Header(g))
  {}

  // ----- a tree given its own rows

  /** The row a position is read into: NaN in a column its dimension lacks. */
  function OwnRow(flag: nat, p: Position, hasZ: bool, hasM: bool): seq<Double>
    requires |p| == Width(flag)
  {
    var nan: Double := [127, 248, 0, 0, 0, 0, 0, 0];
    [p[0], p[1]]
    + (if hasZ then [if flag in {1, 3} then p[2] else nan] else [])
    + (if hasM then [if flag in {2, 3} then p[Width(flag) - 1] else nan] else [])
  }

  function OwnLine(flag: nat, line: seq<Position>, hasZ: bool, hasM: bool): (r: seq<seq<Double>>)
    requires forall i :: 0 <= i < |line| ==> |line[i]| == Width(flag)
    ensures |r| == |line|
  {
    seq(|line|, i requires 0 <= i < |line| => OwnRow(flag, line[i], hasZ, hasM))
  }

  function OwnRings(flag: nat, rings: seq<seq<Position>>, hasZ: bool, hasM: bool): (r: seq<seq<Double>>)
    requires Lines(flag, rings)
    ensures |r| == CountRings(rings)
  {
    if rings == [] then [] else
      var ring := rings[|rings| - 1];
      assert IsLine(flag, ring);
      OwnRings(flag, rings[..|rings| - 1], hasZ, hasM) + OwnLine(flag, ring, hasZ, hasM)
  }

  /** The rows a tree's own positions fill, in the order the writer takes rows. */
  function OwnRows(g: Geometry, hasZ: bool, hasM: bool): (r: seq<seq<Double>>)
    requires WellFormed(g)
    ensures |r| == Count(g)
    decreases g, 0
  {
    match g
    case Point(_, flag, at) => if Empty(at) then [] else [OwnRow(flag, at, hasZ, hasM)]
    case LineString(_, flag, line) => OwnLine(flag, line, hasZ, hasM)
    case Polygon(_, flag, rings) => OwnRings(flag, rings, hasZ, hasM)
    case Collection(_, _, _, members) => OwnMembers(members, hasZ, hasM)
  }

  function OwnMembers(members: seq<Geometry>, hasZ: bool, hasM: bool): (r: seq<seq<Double>>)
    requires AllWellFormed(members)
    ensures |r| == CountMembers(members)
    decreases members, 1
  {
    if members == [] then []
    else OwnMembers(members[..|members| - 1], hasZ, hasM) + OwnRows(members[|members| - 1], hasZ, hasM)
  }

  lemma OwnTaken(flag: nat, p: Position, t: Table, k: nat)
    requires t.Valid() && flag < 4 && t.Has(flag) && |p| == Width(flag) && k < |t.rows|
    requires t.rows[k] == OwnRow(flag, p, t.hasZ, t.hasM)
    ensures t.Taken(flag, k) == p
  {}

  lemma OwnLineIsKept(flag: nat, line: seq<Position>, t: Table, k: nat)
    requires t.Valid() && flag < 4 && IsLine(flag, line) && (|line| > 0 ==> t.Has(flag))
    requires k + |line| <= |t.rows| && t.rows[k..k + |line|] == OwnLine(flag, line, t.hasZ, t.hasM)
    ensures ReplaceLine(flag, line, t, k) == line
  {
    forall i | 0 <= i < |line| ensures t.Taken(flag, k + i) == line[i] {
      assert t.rows[k + i] == t.rows[k..k + |line|][i];
      OwnTaken(flag, line[i], t, k + i);
    }
  }

  lemma RowsSplit(rows: seq<seq<Double>>, k: nat, x: seq<seq<Double>>, y: seq<seq<Double>>)
    requires k + |x| + |y| <= |rows| && rows[k..k + |x + y|] == x + y
    ensures rows[k..k + |x|] == x && rows[k + |x|..k + |x| + |y|] == y
  {
    assert rows[k..k + |x|] == rows[k..k + |x + y|][..|x|];
    assert rows[k + |x|..k + |x| + |y|] == rows[k..k + |x + y|][|x|..];
  }

  lemma OwnRingsSnoc(flag: nat, before: seq<seq<Position>>, ring: seq<Position>, hasZ: bool, hasM: bool)
    requires Lines(flag, before) && IsLine(flag, ring) && Lines(flag, before + [ring])
    ensures OwnRings(flag, before + [ring], hasZ, hasM)
      == OwnRings(flag, before, hasZ, hasM) + OwnLine(flag, ring, hasZ, hasM)
  {
    assert (before + [ring])[..|before|] == before;
  }

  ghost predicate RingsOwn(flag: nat, rings: seq<seq<Position>>, t: Table, k: nat) {
    && RingsOk(flag, rings, t, k)
    && t.rows[k..k + CountRings(rings)] == OwnRings(flag, rings, t.hasZ, t.hasM)
  }

  lemma RingsOwnParts(flag: nat, before: seq<seq<Position>>, ring: seq<Position>, t: Table, k: nat)
    requires RingsOwn(flag, before + [ring], t, k)
    ensures RingsOwn(flag, before, t, k)
    ensures IsLine(flag, ring) && (|ring| > 0 ==> t.Has(flag)) && k + CountRings(before) + |ring| <= |t.rows|
    ensures t.rows[k + CountRings(before)..k + CountRings(before) + |ring|] == OwnLine(flag, ring, t.hasZ, t.hasM)
  {
    hide RingsOk, OwnRings, OwnLine, CountRings;
    RingsOkParts(flag, before, ring, t, k);
    RingRowsParts(flag, before, ring, t, k);
  }

  lemma RingRowsParts(flag: nat, before: seq<seq<Position>>, ring: seq<Position>, t: Table, k: nat)
    requires RingsOk(flag, before + [ring], t, k) && RingsOk(flag, before, t, k) && IsLine(flag, ring)
    requires CountRings(before + [ring]) == CountRings(before) + |ring|
    requires t.rows[k..k + CountRings(before + [ring])] == OwnRings(flag, before + [ring], t.hasZ, t.hasM)
    ensures k + CountRings(before) + |ring| <= |t.rows|
    ensures t.rows[k..k + CountRings(before)] == OwnRings(flag, before, t.hasZ, t.hasM)
    ensures t.rows[k + CountRings(before)..k + CountRings(before) + |ring|] == OwnLine(flag, ring, t.hasZ, t.hasM)
  {
    hide OwnRings, OwnLine, CountRings, Lines;
    var x, y := OwnRings(flag, before, t.hasZ, t.hasM), OwnLine(flag, ring, t.hasZ, t.hasM);
    OwnRingsSnoc(flag, before, ring, t.hasZ, t.hasM);
    RowsSplit(t.rows, k, x, y);
  }

  lemma {:induction false} OwnRingsAreKept(flag: nat, rings: seq<seq<Position>>, t: Table, k: nat)
    requires RingsOwn(flag, rings, t, k)
    ensures ReplaceRings(flag, rings, t, k) == rings
  {
    if rings == [] {
      return;
    }
    var before, ring := rings[..|rings| - 1], rings[|rings| - 1];
    Snoc(rings);
    hide ReplaceRings, CountRings, OwnRings, OwnLine;
    RingsOwnParts(flag, before, ring, t, k);
    OwnRingsAreKept(flag, before, t, k);
    OwnLineIsKept(flag, ring, t, k + CountRings(before));
    ReplaceRingsSnoc(flag, before, ring, t, k);
  }

  lemma OwnMembersSnoc(before: seq<Geometry>, member: Geometry, hasZ: bool, hasM: bool)
    requires AllWellFormed(before) && WellFormed(member) && AllWellFormed(before + [member])
    ensures OwnMembers(before + [member], hasZ, hasM) == OwnMembers(before, hasZ, hasM) + OwnRows(member, hasZ, hasM)
  {
    assert (before + [member])[..|before|] == before;
  }

  ghost predicate MembersOwn(members: seq<Geometry>, t: Table, k: nat) {
    && MembersOk(members, t, k)
    && t.rows[k..k + CountMembers(members)] == OwnMembers(members, t.hasZ, t.hasM)
  }

  ghost predicate TreeOwn(g: Geometry, t: Table, k: nat) {
    && TreeOk(g, t, k)
    && t.rows[k..k + Count(g)] == OwnRows(g, t.hasZ, t.hasM)
  }

  lemma MembersOwnParts(before: seq<Geometry>, member: Geometry, t: Table, k: nat)
    requires MembersOwn(before + [member], t, k)
    ensures MembersOwn(before, t, k) && TreeOwn(member, t, k + CountMembers(before))
  {
    hide MembersOk, OwnMembers, OwnRows, CountMembers, Count, WellFormed, Fits;
    MembersOkParts(before, member, t, k);
    OwnRowsParts(before, member, t, k);
  }

  lemma OwnRowsParts(before: seq<Geometry>, member: Geometry, t: Table, k: nat)
    requires MembersOk(before + [member], t, k) && MembersOk(before, t, k) &&
      TreeOk(member, t, k + CountMembers(before))
    requires CountMembers(before + [member]) == CountMembers(before) + Count(member)
    requires t.rows[k..k + CountMembers(before + [member])] == OwnMembers(before + [member], t.hasZ, t.hasM)
    ensures t.rows[k..k + CountMembers(before)] == OwnMembers(before, t.hasZ, t.hasM)
    ensures t.rows[k + CountMembers(before)..k + CountMembers(before) + Count(member)] ==
      OwnRows(member, t.hasZ, t.hasM)
  {
    hide OwnMembers, OwnRows, CountMembers, Count, WellFormed, AllFit, AllWellFormed;
    var x, y := OwnMembers(before, t.hasZ, t.hasM), OwnRows(member, t.hasZ, t.hasM);
    OwnMembersSnoc(before, member, t.hasZ, t.hasM);
    RowsSplit(t.rows, k, x, y);
  }

  ghost predicate MembersKept(members: seq<Geometry>, t: Table, k: nat)
    requires MembersOk(members, t, k)
  {
    ReplaceMembers(members, t, k) == members
  }

  lemma MembersKeptNext(before: seq<Geometry>, member: Geometry, t: Table, k: nat)
    requires MembersOk(before + [member], t, k) && MembersOk(before, t, k)
    requires MembersKept(before, t, k)
    requires TreeOwn(member, t, k + CountMembers(before)) && Replace(member, t, k + CountMembers(before)) == member
    ensures MembersKept(before + [member], t, k)
  {
    hide ReplaceMembers, Replace, OwnMembers, OwnRows, CountMembers, Count, WellFormed, Fits, AllWellFormed, AllFit;
    ReplaceMembersSnoc(before, member, t, k);
  }

  lemma {:induction false} OwnMembersAreKept(members: seq<Geometry>, t: Table, k: nat)
    requires MembersOwn(members, t, k)
    ensures MembersKept(members, t, k)
    decreases members, 1
  {
    if members == [] {
      return;
    }
    var before, member := members[..|members| - 1], members[|members| - 1];
    Snoc(members);
    hide CountMembers, MembersOk, MembersOwn, TreeOwn, MembersKept, Replace;
    MembersOwnParts(before, member, t, k);
    OwnMembersAreKept(before, t, k);
    OwnRowsAreKept(member, t, k + CountMembers(before));
    MembersKeptNext(before, member, t, k);
  }

  /** A tree rewritten with the rows it was read into is itself: each position that is not
      an empty point takes the next row, in document order, and the columns of its own
      dimension. */
  lemma {:induction false} OwnRowsAreKept(g: Geometry, t: Table, k: nat)
    requires TreeOwn(g, t, k)
    ensures Replace(g, t, k) == g
    decreases g, 0
  {
    hide OwnMembers, OwnRings, OwnLine, ReplaceMembers, ReplaceRings, CountMembers, CountRings;
    match g
    case Point(_, flag, at) =>
      if !Empty(at) {
        assert t.rows[k] == t.rows[k..k + 1][0];
        OwnTaken(flag, at, t, k);
      }
    case LineString(_, flag, line) => OwnLineIsKept(flag, line, t, k);
    case Polygon(_, flag, rings) => OwnRingsAreKept(flag, rings, t, k);
    case Collection(_, _, _, members) => OwnMembersAreKept(members, t, k);
  }
}
