module Wkb {
  // Replacing coordinates in ISO WKB in place (geodetic_engine/geodesy/_wkb.py).
  //
  // `Replace` is substitution on the tree; `Writer` overwrites a buffer as it walks it.
  // The writer succeeds exactly when the bytes encode a tree whose positions the rows
  // can fill, and then leaves the encoding of the substituted tree.

  import opened Options
  import opened WkbFormat

  /** The rows to write: x, y, then z and m where the table has them. */
  datatype Table = Table(rows: seq<seq<Double>>, hasZ: bool, hasM: bool) {
    function RowWidth(): nat {
      2 + (if hasZ then 1 else 0) + (if hasM then 1 else 0)
    }

    predicate Valid() {
      forall i :: 0 <= i < |rows| ==> |rows[i]| == RowWidth()
    }

    /** The columns a position of dimension `flag` takes: x, y, then its own z and m. */
    function Wanted(flag: nat): (c: seq<nat>)
      requires flag < 4
      ensures |c| <= Width(flag) && forall i :: 0 <= i < |c| ==> c[i] < RowWidth()
    {
      [0, 1]
      + (if flag in {1, 3} && hasZ then [2] else [])
      + (if flag in {2, 3} && hasM then [if hasZ then 3 else 2] else [])
    }

    /** Whether the rows have the z and m a position of dimension `flag` has. */
    predicate Has(flag: nat)
      requires flag < 4
    {
      |Wanted(flag)| == Width(flag)
    }

    function Taken(flag: nat, k: nat): (p: Position)
      requires Valid() && flag < 4 && k < |rows|
      ensures Has(flag) ==> |p| == Width(flag)
    {
      var c := Wanted(flag);
      seq(|c|, i requires 0 <= i < |c| => rows[k][c[i]])
    }
  }

  // ----- substitution on the tree

  function CountRings(rings: seq<seq<Position>>): nat {
    if rings == [] then 0 else CountRings(rings[..|rings| - 1]) + |rings[|rings| - 1]|
  }

  /** The positions that take a row: all but empty points. */
  function Count(g: Geometry): nat
    decreases g, 0
  {
    match g
    case Point(_, _, at) => if Empty(at) then 0 else 1
    case LineString(_, _, line) => |line|
    case Polygon(_, _, rings) => CountRings(rings)
    case Collection(_, _, _, members) => CountMembers(members)
  }

  function CountMembers(members: seq<Geometry>): nat
    decreases members, 1
  {
    if members == [] then 0 else CountMembers(members[..|members| - 1]) + Count(members[|members| - 1])
  }

  /** Every position that takes a row finds the columns of its own dimension in it. */
  predicate Fits(g: Geometry, t: Table)
    requires WellFormed(g)
    decreases g, 0
  {
    match g
    case Collection(_, _, _, members) => AllFit(members, t)
    case _ => Count(g) > 0 ==> t.Has(g.flag)
  }

  predicate AllFit(members: seq<Geometry>, t: Table)
    requires AllWellFormed(members)
    decreases members, 1
  {
    forall i :: 0 <= i < |members| ==> Fits(members[i], t)
  }

  function ReplaceLine(flag: nat, line: seq<Position>, t: Table, k: nat): (r: seq<Position>)
    requires t.Valid() && flag < 4 && k + |line| <= |t.rows|
    ensures |r| == |line| && forall i :: 0 <= i < |r| ==> r[i] == t.Taken(flag, k + i)
  {
    seq(|line|, i requires 0 <= i < |line| => t.Taken(flag, k + i))
  }

  /** The rows a run of positions takes; a lone empty point takes none. */
  function Rows(line: seq<Position>, point: bool): (n: nat)
    ensures n <= |line|
  {
    if point && |line| == 1 && Empty(line[0]) then 0 else |line|
  }

  function Rewritten(flag: nat, line: seq<Position>, t: Table, k: nat, point: bool): (r: seq<Position>)
    requires t.Valid() && flag < 4 && k + Rows(line, point) <= |t.rows|
    ensures |r| == |line|
  {
    if Rows(line, point) == 0 then line else ReplaceLine(flag, line, t, k)
  }

  function ReplaceRings(flag: nat, rings: seq<seq<Position>>, t: Table, k: nat): (r: seq<seq<Position>>)
    requires t.Valid() && flag < 4 && k + CountRings(rings) <= |t.rows|
    requires CountRings(rings) > 0 ==> t.Has(flag)
    requires Lines(flag, rings)
    ensures |r| == |rings| && Lines(flag, r)
  {
    if rings == [] then [] else
      var before, ring := rings[..|rings| - 1], rings[|rings| - 1];
      assert IsLine(flag, ring);
      ReplaceRings(flag, before, t, k) + [ReplaceLine(flag, ring, t, k + CountRings(before))]
  }

  function Replace(g: Geometry, t: Table, k: nat): (r: Geometry)
    requires WellFormed(g) && t.Valid() && Fits(g, t) && k + Count(g) <= |t.rows|
    ensures WellFormed(r) && Header(r) == Header(g)
    decreases g, 0
  {
    match g
    case Point(order, flag, at) => Point(order, flag, if Empty(at) then at else t.Taken(flag, k))
    case LineString(order, flag, line) => LineString(order, flag, ReplaceLine(flag, line, t, k))
    case Polygon(order, flag, rings) => Polygon(order, flag, ReplaceRings(flag, rings, t, k))
    case Collection(order, flag, kind, members) => Collection(order, flag, kind, ReplaceMembers(members, t, k))
  }

  function ReplaceMembers(members: seq<Geometry>, t: Table, k: nat): (r: seq<Geometry>)
    requires t.Valid() && AllWellFormed(members) && AllFit(members, t)
    requires k + CountMembers(members) <= |t.rows|
    ensures |r| == |members| && AllWellFormed(r)
    decreases members, 1
  {
    if members == [] then [] else
      var before, member := members[..|members| - 1], members[|members| - 1];
      ReplaceMembers(before, t, k) + [Replace(member, t, k + CountMembers(before))]
  }

  // ----- writing in place

  /** `now` is `was` with `piece` at `from`, and every other byte as it was. */
  ghost predicate Spliced(now: seq<byte>, was: seq<byte>, from: nat, piece: seq<byte>) {
    && |now| == |was| && from + |piece| <= |was|
    && now[..from] == was[..from]
    && now[from..from + |piece|] == piece
    && now[from + |piece|..] == was[from + |piece|..]
  }

  lemma SplicedThen(mid: seq<byte>, now: seq<byte>, was: seq<byte>, from: nat, x: seq<byte>, y: seq<byte>)
    requires Spliced(mid, was, from, x) && Spliced(now, mid, from + |x|, y)
    ensures Spliced(now, was, from, x + y)
  {
    var end, size := from + |x|, |y|;
    SliceOfPrefix(now, mid, from, end);
    SliceOfSuffix(mid, was, end, size);
    assert now[from..end + size] == now[from..end] + now[end..end + size];
  }

  lemma SliceOfPrefix<T>(u: seq<T>, v: seq<T>, from: nat, end: nat)
    requires from <= end <= |u| == |v| && u[..end] == v[..end]
    ensures u[..from] == v[..from] && u[from..end] == v[from..end]
  {
    assert u[..from] == u[..end][..from] && v[..from] == v[..end][..from];
    assert u[from..end] == u[..end][from..] && v[from..end] == v[..end][from..];
  }

  lemma SliceOfSuffix<T>(u: seq<T>, v: seq<T>, end: nat, size: nat)
    requires end + size <= |u| == |v| && u[end..] == v[end..]
    ensures u[end + size..] == v[end + size..]
  {
    assert u[end + size..] == u[end..][size..] && v[end + size..] == v[end..][size..];
  }

  /** A piece written after bytes that stay as they were. */
  lemma SplicedAfter(now: seq<byte>, was: seq<byte>, from: nat, x: seq<byte>, y: seq<byte>)
    requires from <= |was| && x <= was[from..] && Spliced(now, was, from + |x|, y)
    ensures Spliced(now, was, from, x + y)
  {
    Unsplit(was, from, |x|);
    assert was[from..][|x|..] == was[from + |x|..];
    assert was[from..from + |x|] == x;
    SplicedThen(was, now, was, from, x, y);
  }

  lemma LineCutShort(b: seq<byte>, little: bool, flag: nat, some: nat, count: nat)
    requires some <= count && ParseLine(b, little, flag, some).Malformed?
    ensures ParseLine(b, little, flag, count).Malformed?
  {}

  lemma RingsCutShort(b: seq<byte>, little: bool, flag: nat, some: nat, count: nat)
    requires some <= count && ParseRings(b, little, flag, some).Malformed?
    ensures ParseRings(b, little, flag, count).Malformed?
  {}

  // ----- what the loops of the writer keep

  /** What follows the piece written so far is still to be read. */
  lemma SplicedRest(now: seq<byte>, was: seq<byte>, from: nat, piece: seq<byte>)
    requires Spliced(now, was, from, piece)
    ensures now[from + |piece|..] == was[from..][|piece|..]
  {}

  lemma SplicedNothing(was: seq<byte>, from: nat)
    requires from <= |was|
    ensures Spliced(was, was, from, [])
  {}

  lemma EmptyEncodings(b: seq<byte>, little: bool, flag: nat, t: Table, k: nat, point: bool)
    requires t.Valid() && flag < 4 && k <= |t.rows|
    ensures LineAt(b, little, flag, [], t, k, point, [])
    ensures RingsAt(b, little, flag, [], t, k, []) && CountRings([]) == 0
  {}

  /** The positions read from `b` so far, and the bytes they are rewritten to. */
  ghost predicate LineAt(b: seq<byte>, little: bool, flag: nat, read: seq<Position>, t: Table, k: nat, point: bool,
                         done: seq<byte>)
  {
    && t.Valid() && flag < 4
    && ParseLine(b, little, flag, |read|) == Parsed(read, |done|)
    && (Rows(read, point) > 0 ==> t.Has(flag))
    && k + Rows(read, point) <= |t.rows|
    && done == EncodeLine(little, Rewritten(flag, read, t, k, point))
  }

  lemma RewrittenSnoc(flag: nat, read: seq<Position>, p: Position, t: Table, k: nat, point: bool)
    requires t.Valid() && flag < 4 && k + |read| <= |t.rows| && (point ==> read == [])
    requires (point && Empty(p)) || k + |read| < |t.rows|
    ensures k + Rows(read + [p], point) <= |t.rows|
    ensures Rewritten(flag, read + [p], t, k, point)
      == Rewritten(flag, read, t, k, point) + [if point && Empty(p) then p else t.Taken(flag, k + |read|)]
  {
    hide Empty;
    if !(point && Empty(p)) {
      assert ReplaceLine(flag, read + [p], t, k) == ReplaceLine(flag, read, t, k) + [t.Taken(flag, k + |read|)];
    }
  }

  lemma LineAtNext(b: seq<byte>, little: bool, flag: nat, read: seq<Position>, p: Position, t: Table, k: nat,
                   point: bool, done: seq<byte>, last: Position)
    requires LineAt(b, little, flag, read, t, k, point, done) && (point ==> read == [])
    requires |done| + 8 * Width(flag) <= |b| && p == PositionAt(b[|done|..], little, Width(flag))
    requires if point && Empty(p) then last == p
             else t.Has(flag) && k + |read| < |t.rows| && last == t.Taken(flag, k + |read|)
    ensures Rows(read + [p], point) == if point && Empty(p) then 0 else |read| + 1
    ensures LineAt(b, little, flag, read + [p], t, k, point, done + EncodePosition(little, last))
  {
    hide EncodeLine, EncodePosition;
    RewrittenSnoc(flag, read, p, t, k, point);
    LineSnoc(little, Rewritten(flag, read, t, k, point), last);
  }

  /** What a walk over `count` positions may end in, given how the rows stand. */
  ghost predicate LineOutcome(b: seq<byte>, little: bool, flag: nat, count: nat, point: bool, t: Table, k: nat,
                              w: Walked, offset: nat, row: nat, done: seq<byte>)
    requires t.Valid() && flag < 4
  {
    match ParseLine(b, little, flag, count)
    case Malformed => w.Stopped?
    case Parsed(read, used) =>
      if (Rows(read, point) > 0 ==> t.Has(flag)) && k + Rows(read, point) <= |t.rows|
      then w == End(offset + used) && row == k + Rows(read, point)
           && done == EncodeLine(little, Rewritten(flag, read, t, k, point))
      else w.Stopped?
  }

  lemma LineStops(b: seq<byte>, little: bool, flag: nat, read: seq<Position>, count: nat, t: Table, k: nat, point: bool,
                  done: seq<byte>, w: Walked, offset: nat, row: nat, p: Position)
    requires LineAt(b, little, flag, read, t, k, point, done) && |read| < count && (point ==> count == 1) && w.Stopped?
    requires |done| + 8 * Width(flag) <= |b| ==>
      p == PositionAt(b[|done|..], little, Width(flag)) && !(point && Empty(p))
      && (!t.Has(flag) || k + |read| >= |t.rows|)
    ensures LineOutcome(b, little, flag, count, point, t, k, w, offset, row, done)
  {
    if |done| + 8 * Width(flag) > |b| {
      LineCutShort(b, little, flag, |read| + 1, count);
    }
  }

  predicate RingsFit(flag: nat, rings: seq<seq<Position>>, t: Table, k: nat)
    requires flag < 4
  {
    (CountRings(rings) > 0 ==> t.Has(flag)) && k + CountRings(rings) <= |t.rows|
  }

  lemma CountRingsSnoc(before: seq<seq<Position>>, ring: seq<Position>)
    ensures CountRings(before + [ring]) == CountRings(before) + |ring|
  {
    assert (before + [ring])[..|before|] == before;
  }

  lemma ReplaceRingsSnoc(flag: nat, before: seq<seq<Position>>, ring: seq<Position>, t: Table, k: nat)
    requires t.Valid() && flag < 4 && RingsFit(flag, before, t, k)
    requires (|ring| > 0 ==> t.Has(flag)) && k + CountRings(before) + |ring| <= |t.rows|
    requires Lines(flag, before) && IsLine(flag, ring)
    ensures CountRings(before + [ring]) == CountRings(before) + |ring|
    ensures RingsFit(flag, before + [ring], t, k)
    ensures ReplaceRings(flag, before + [ring], t, k)
      == ReplaceRings(flag, before, t, k) + [ReplaceLine(flag, ring, t, k + CountRings(before))]
  {
    CountRingsSnoc(before, ring);
    assert (before + [ring])[..|before|] == before;
  }

  lemma {:induction false} RingsFitAll(b: seq<byte>, little: bool, flag: nat, some: nat, count: nat)
    requires some <= count && ParseRings(b, little, flag, count).Parsed?
    ensures ParseRings(b, little, flag, some).Parsed?
    ensures CountRings(ParseRings(b, little, flag, some).value) <= CountRings(ParseRings(b, little, flag, count).value)
    decreases count
  {
    if some < count {
      var before := ParseRings(b, little, flag, count - 1);
      RingsFitAll(b, little, flag, some, count - 1);
      CountRingsSnoc(before.value, ParseRing(b[before.used..], little, flag).value);
    }
  }

  /** The rings read from `b` so far, and the bytes they are rewritten to. */
  ghost predicate RingsAt(b: seq<byte>, little: bool, flag: nat, read: seq<seq<Position>>, t: Table, k: nat,
                          done: seq<byte>)
  {
    && t.Valid() && flag < 4
    && ParseRings(b, little, flag, |read|) == Parsed(read, |done|)
    && RingsFit(flag, read, t, k)
    && done == EncodeRings(little, flag, ReplaceRings(flag, read, t, k))
  }

  lemma RingsNext(b: seq<byte>, little: bool, flag: nat, read: seq<seq<Position>>, used: nat)
    requires ParseRings(b, little, flag, |read|) == Parsed(read, used) && used <= |b|
    ensures ParseRings(b, little, flag, |read| + 1)
      == var ring := ParseRing(b[used..], little, flag);
         if ring.Malformed? then Malformed else Parsed(read + [ring.value], used + ring.used)
  {}

  function EncodeRing(little: bool, ring: seq<Position>): seq<byte>
    requires |ring| < 0x1_0000_0000
  {
    PackCount(little, |ring|) + EncodeLine(little, ring)
  }

  /** A ring taken from the rows: `ring` as read, `piece` as written. */
  ghost predicate RingFrom(b: seq<byte>, little: bool, flag: nat, t: Table, k: nat, ring: seq<Position>, more: nat,
                           piece: seq<Position>)
  {
    && t.Valid() && flag < 4 && ParseRing(b, little, flag) == Parsed(ring, more)
    && (|ring| > 0 ==> t.Has(flag)) && k + |ring| <= |t.rows|
    && piece == ReplaceLine(flag, ring, t, k)
  }

  lemma RingFromLength(b: seq<byte>, little: bool, flag: nat, t: Table, k: nat, ring: seq<Position>, more: nat,
                       piece: seq<Position>)
    requires RingFrom(b, little, flag, t, k, ring, more, piece)
    ensures IsLine(flag, ring) && IsLine(flag, piece) && |EncodeRing(little, piece)| == more
  {
    hide EncodeLine, ParseRing;
    RingLength(b, little, flag, ring, more, piece);
  }

  lemma RingsEncodeNext(little: bool, flag: nat, read: seq<seq<Position>>, ring: seq<Position>, t: Table, k: nat,
                        piece: seq<Position>)
    requires t.Valid() && flag < 4 && Lines(flag, read) && IsLine(flag, ring)
    requires RingsFit(flag, read, t, k) && (|ring| > 0 ==> t.Has(flag)) && k + CountRings(read) + |ring| <= |t.rows|
    requires piece == ReplaceLine(flag, ring, t, k + CountRings(read))
    ensures RingsFit(flag, read + [ring], t, k)
    ensures EncodeRings(little, flag, ReplaceRings(flag, read + [ring], t, k))
      == EncodeRings(little, flag, ReplaceRings(flag, read, t, k)) + EncodeRing(little, piece)
  {
    hide ReplaceRings, EncodeRings, EncodeLine, PackCount;
    ReplaceRingsSnoc(flag, read, ring, t, k);
    RingsSnoc(little, flag, ReplaceRings(flag, read, t, k), piece);
  }

  lemma RingsAtNext(b: seq<byte>, little: bool, flag: nat, read: seq<seq<Position>>, ring: seq<Position>, more: nat,
                    t: Table, k: nat, done: seq<byte>, piece: seq<Position>)
    requires RingsAt(b, little, flag, read, t, k, done) && |done| <= |b|
    requires RingFrom(b[|done|..], little, flag, t, k + CountRings(read), ring, more, piece)
    ensures |piece| < 0x1_0000_0000 && |EncodeRing(little, piece)| == more
    ensures CountRings(read + [ring]) == CountRings(read) + |ring|
    ensures RingsAt(b, little, flag, read + [ring], t, k, done + EncodeRing(little, piece))
  {
    hide ReplaceRings, EncodeRings, EncodeRing, ParseRings, ParseRing, CountRings;
    CountRingsSnoc(read, ring);
    RingFromLength(b[|done|..], little, flag, t, k + CountRings(read), ring, more, piece);
    RingsEncodeNext(little, flag, read, ring, t, k, piece);
    RingsNext(b, little, flag, read, |done|);
  }

  ghost predicate RingOutcome(b: seq<byte>, little: bool, flag: nat, t: Table, k: nat, w: Walked, offset: nat, row: nat,
                              done: seq<byte>)
    requires t.Valid() && flag < 4
  {
    match ParseRing(b, little, flag)
    case Malformed => w.Stopped?
    case Parsed(ring, used) =>
      if (|ring| > 0 ==> t.Has(flag)) && k + |ring| <= |t.rows|
      then w == End(offset + used) && row == k + |ring|
           && done == EncodeRing(little, ReplaceLine(flag, ring, t, k))
      else w.Stopped?
  }

  ghost predicate RingsOutcome(b: seq<byte>, little: bool, flag: nat, count: nat, t: Table, k: nat, w: Walked,
                               offset: nat, row: nat, done: seq<byte>)
    requires t.Valid() && flag < 4
  {
    match ParseRings(b, little, flag, count)
    case Malformed => w.Stopped?
    case Parsed(rings, used) =>
      if RingsFit(flag, rings, t, k)
      then w == End(offset + used) && row == k + CountRings(rings)
           && done == EncodeRings(little, flag, ReplaceRings(flag, rings, t, k))
      else w.Stopped?
  }

  lemma RingsStop(b: seq<byte>, little: bool, flag: nat, read: seq<seq<Position>>, count: nat, t: Table, k: nat,
                  done: seq<byte>, w: Walked, offset: nat, row: nat)
    requires RingsAt(b, little, flag, read, t, k, done) && |done| <= |b| && |read| < count && w.Stopped?
    requires RingOutcome(b[|done|..], little, flag, t, k + CountRings(read), w, offset, row, done)
    ensures RingsOutcome(b, little, flag, count, t, k, w, offset, row, done)
  {
    RingsNext(b, little, flag, read, |done|);
    match ParseRing(b[|done|..], little, flag)
    case Malformed => RingsCutShort(b, little, flag, |read| + 1, count);
    case Parsed(ring, _) =>
      if ParseRings(b, little, flag, count).Parsed? {
        CountRingsSnoc(read, ring);
        RingsFitAll(b, little, flag, |read| + 1, count);
      }
  }

  lemma {:induction false} LineLength(little: bool, flag: nat, line: seq<Position>)
    requires forall i :: 0 <= i < |line| ==> |line[i]| == Width(flag)
    ensures |EncodeLine(little, line)| == 8 * Width(flag) * |line|
  {
    if line != [] {
      LineLength(little, flag, line[..|line| - 1]);
    }
  }

  lemma RingLength(b: seq<byte>, little: bool, flag: nat, ring: seq<Position>, used: nat, piece: seq<Position>)
    requires ParseRing(b, little, flag) == Parsed(ring, used) && |piece| == |ring|
    requires forall i :: 0 <= i < |piece| ==> |piece[i]| == Width(flag)
    ensures 4 + |EncodeLine(little, piece)| == used
  {
    RingIsRead(b, little, flag);
    LineLength(little, flag, ring);
    LineLength(little, flag, piece);
  }

  // ----- members and whole trees

  predicate MembersFit(members: seq<Geometry>, t: Table, k: nat)
    requires AllWellFormed(members)
  {
    AllFit(members, t) && k + CountMembers(members) <= |t.rows|
  }

  lemma CountMembersSnoc(before: seq<Geometry>, member: Geometry)
    ensures CountMembers(before + [member]) == CountMembers(before) + Count(member)
  {
    assert (before + [member])[..|before|] == before;
  }

  lemma ReplaceMembersSnoc(before: seq<Geometry>, member: Geometry, t: Table, k: nat)
    requires AllWellFormed(before) && WellFormed(member) && t.Valid()
    requires MembersFit(before, t, k) && Fits(member, t) && k + CountMembers(before) + Count(member) <= |t.rows|
    ensures MembersFit(before + [member], t, k)
    ensures ReplaceMembers(before + [member], t, k)
      == ReplaceMembers(before, t, k) + [Replace(member, t, k + CountMembers(before))]
  {
    hide WellFormed, Fits, Count, Replace;
    CountMembersSnoc(before, member);
    assert (before + [member])[..|before|] == before;
  }

  /** The members read from `b` so far, and the bytes they are rewritten to. */
  ghost predicate MembersAt(b: seq<byte>, read: seq<Geometry>, t: Table, k: nat, done: seq<byte>) {
    && t.Valid()
    && AllWellFormed(read)
    && ParseMembers(b, |read|) == Parsed(read, |done|)
    && MembersFit(read, t, k)
    && done == EncodeMembers(ReplaceMembers(read, t, k))
  }

  ghost predicate TreeOutcome(b: seq<byte>, t: Table, k: nat, w: Walked, offset: nat, row: nat, done: seq<byte>)
    requires t.Valid()
  {
    var p := Parse(b);
    if p.Parsed? && Fits(p.value, t) && k + Count(p.value) <= |t.rows|
    then w == End(offset + p.used) && row == k + Count(p.value) && done == Encode(Replace(p.value, t, k))
    else w.Stopped?
  }

  ghost predicate MembersOutcome(b: seq<byte>, count: nat, t: Table, k: nat, w: Walked, offset: nat, row: nat,
                                 done: seq<byte>)
    requires t.Valid()
  {
    var p := ParseMembers(b, count);
    if p.Parsed? && MembersFit(p.value, t, k)
    then w == End(offset + p.used) && row == k + CountMembers(p.value)
         && done == EncodeMembers(ReplaceMembers(p.value, t, k))
    else w.Stopped?
  }

  ghost predicate BodyOutcome(b: seq<byte>, order: byte, flag: nat, kind: nat, t: Table, k: nat, w: Walked, offset: nat,
                              row: nat, done: seq<byte>)
    requires t.Valid() && flag < 4
  {
    var p := ParseBody(b, order, flag, kind);
    if p.Parsed? && Fits(p.value, t) && k + Count(p.value) <= |t.rows|
    then w == End(offset + p.used) && row == k + Count(p.value) && done == Body(Replace(p.value, t, k))
    else w.Stopped?
  }

  lemma MembersNext(b: seq<byte>, read: seq<Geometry>, used: nat)
    requires ParseMembers(b, |read|) == Parsed(read, used) && used <= |b|
    ensures ParseMembers(b, |read| + 1)
      == var member := Parse(b[used..]);
         if member.Malformed? then Malformed else Parsed(read + [member.value], used + member.used)
  {}

  /** Replacing keeps the length of an encoding. */
  lemma {:induction false} SameLength(g: Geometry, t: Table, k: nat)
    requires WellFormed(g) && t.Valid() && Fits(g, t) && k + Count(g) <= |t.rows|
    ensures |Body(Replace(g, t, k))| == |Body(g)| && |Encode(Replace(g, t, k))| == |Encode(g)|
    decreases g, 0
  {
    match g
    case Point(_, flag, at) =>
    case LineString(_, flag, line) =>
      LineLength(g.order == 1, flag, line);
      LineLength(g.order == 1, flag, ReplaceLine(flag, line, t, k));
    case Polygon(_, flag, rings) => SameLengthRings(g.order == 1, flag, rings, t, k);
    case Collection(_, _, _, members) => SameLengthMembers(members, t, k);
  }

  lemma NoRingsSameLength(little: bool, flag: nat, t: Table, k: nat)
    requires t.Valid() && flag < 4 && RingsFit(flag, [], t, k)
    ensures ReplaceRings(flag, [], t, k) == []
  {}

  /** The rings before the last fit, and so does it. */
  lemma LastRingFits(flag: nat, rings: seq<seq<Position>>, t: Table, k: nat)
    requires rings != [] && t.Valid() && flag < 4 && RingsFit(flag, rings, t, k) && Lines(flag, rings)
    ensures var before, ring := rings[..|rings| - 1], rings[|rings| - 1];
      && Lines(flag, before) && IsLine(flag, ring) && RingsFit(flag, before, t, k)
      && (|ring| > 0 ==> t.Has(flag)) && k + CountRings(before) + |ring| <= |t.rows|
  {
    CountRingsSnoc(rings[..|rings| - 1], rings[|rings| - 1]);
    Snoc(rings);
  }

  lemma {:induction false} SameLengthRings(little: bool, flag: nat, rings: seq<seq<Position>>, t: Table, k: nat)
    requires t.Valid() && flag < 4 && RingsFit(flag, rings, t, k)
    requires Lines(flag, rings)
    ensures |EncodeRings(little, flag, ReplaceRings(flag, rings, t, k))| == |EncodeRings(little, flag, rings)|
  {
    hide ReplaceRings, EncodeRings, EncodeLine, CountRings, RingsFit, Lines, IsLine, ReplaceLine, PackCount;
    if rings == [] {
      NoRingsSameLength(little, flag, t, k);
      return;
    }
    var before, ring := rings[..|rings| - 1], rings[|rings| - 1];
    LastRingFits(flag, rings, t, k);
    Snoc(rings);
    SameLengthRings(little, flag, before, t, k);
    var piece := ReplaceLine(flag, ring, t, k + CountRings(before));
    LineLength(little, flag, ring);
    LineLength(little, flag, piece);
    RingsEncodeNext(little, flag, before, ring, t, k, piece);
    RingsSnoc(little, flag, before, ring);
  }

  lemma MembersEncodeNext(before: seq<Geometry>, member: Geometry, t: Table, k: nat, piece: Geometry)
    requires AllWellFormed(before) && WellFormed(member) && t.Valid()
    requires MembersFit(before, t, k) && Fits(member, t) && k + CountMembers(before) + Count(member) <= |t.rows|
    requires piece == Replace(member, t, k + CountMembers(before))
    ensures MembersFit(before + [member], t, k)
    ensures EncodeMembers(ReplaceMembers(before + [member], t, k))
      == EncodeMembers(ReplaceMembers(before, t, k)) + Encode(piece)
  {
    hide EncodeMembers, ReplaceMembers, Encode, Replace, Fits;
    ReplaceMembersSnoc(before, member, t, k);
    MembersSnoc(ReplaceMembers(before, t, k), piece);
  }

  lemma NoMembersSameLength(t: Table, k: nat)
    requires AllWellFormed([]) && t.Valid() && MembersFit([], t, k)
    ensures ReplaceMembers([], t, k) == []
  {}

  /** The members before the last fit, and so does it. */
  lemma LastMemberFits(members: seq<Geometry>, t: Table, k: nat)
    requires members != [] && AllWellFormed(members) && t.Valid() && MembersFit(members, t, k)
    ensures var before, member := members[..|members| - 1], members[|members| - 1];
      && AllWellFormed(before) && WellFormed(member) && MembersFit(before, t, k) && Fits(member, t)
      && k + CountMembers(before) + Count(member) <= |t.rows|
  {
    hide WellFormed, Fits, Count;
    CountMembersSnoc(members[..|members| - 1], members[|members| - 1]);
    Snoc(members);
  }

  lemma {:induction false} SameLengthMembers(members: seq<Geometry>, t: Table, k: nat)
    requires AllWellFormed(members) && t.Valid() && MembersFit(members, t, k)
    ensures |EncodeMembers(ReplaceMembers(members, t, k))| == |EncodeMembers(members)|
    decreases members, 1
  {
    hide *;
    if members == [] {
      NoMembersSameLength(t, k);
      return;
    }
    var before, member := members[..|members| - 1], members[|members| - 1];
    LastMemberFits(members, t, k);
    Snoc(members);
    SameLengthMembers(before, t, k);
    SameLength(member, t, k + CountMembers(before));
    MembersEncodeNext(before, member, t, k, Replace(member, t, k + CountMembers(before)));
    MembersSnoc(before, member);
  }

  /** A member taken from the rows: `member` as read, `piece` as written. */
  ghost predicate MemberFrom(b: seq<byte>, t: Table, k: nat, member: Geometry, more: nat, piece: Geometry) {
    && t.Valid() && Parse(b) == Parsed(member, more) && WellFormed(member)
    && Fits(member, t) && k + Count(member) <= |t.rows|
    && piece == Replace(member, t, k)
  }

  lemma MemberFromLength(b: seq<byte>, t: Table, k: nat, member: Geometry, more: nat, piece: Geometry)
    requires MemberFrom(b, t, k, member, more, piece)
    ensures |Encode(piece)| == more
  {
    hide Replace, Body, Parse;
    IsRead(b);
    SameLength(member, t, k);
  }

  lemma MembersAtNext(b: seq<byte>, read: seq<Geometry>, member: Geometry, more: nat, t: Table, k: nat, done: seq<byte>,
                      piece: Geometry)
    requires MembersAt(b, read, t, k, done) && |done| <= |b|
    requires MemberFrom(b[|done|..], t, k + CountMembers(read), member, more, piece)
    ensures |Encode(piece)| == more && MembersAt(b, read + [member], t, k, done + Encode(piece))
    ensures CountMembers(read + [member]) == CountMembers(read) + Count(member)
  {
    hide ReplaceMembers, Replace, EncodeMembers, Encode, ParseMembers, Parse, CountMembers, Count, Fits, MembersFit;
    MemberFromLength(b[|done|..], t, k + CountMembers(read), member, more, piece);
    MembersNext(b, read, |done|);
    CountMembersSnoc(read, member);
    MembersEncodeNext(read, member, t, k, piece);
  }

  lemma {:induction false} MembersFitAll(b: seq<byte>, some: nat, count: nat, t: Table)
    requires some <= count && ParseMembers(b, count).Parsed?
    ensures var p, all := ParseMembers(b, some), ParseMembers(b, count);
      p.Parsed? && p.value <= all.value && CountMembers(p.value) <= CountMembers(all.value)
    decreases count
  {
    if some < count {
      var before := ParseMembers(b, count - 1);
      MembersFitAll(b, some, count - 1, t);
      CountMembersSnoc(before.value, Parse(b[before.used..]).value);
    }
  }

  lemma MembersBound(b: seq<byte>, read: seq<Geometry>, used: nat, count: nat, t: Table, k: nat)
    requires ParseMembers(b, |read|) == Parsed(read, used) && used <= |b| && |read| < count
    requires var all := ParseMembers(b, count); all.Parsed? && MembersFit(all.value, t, k)
    ensures var member := Parse(b[used..]);
      member.Parsed? && Fits(member.value, t) && k + CountMembers(read) + Count(member.value) <= |t.rows|
  {
    hide Fits, CountMembers, Count;
    MembersFitAll(b, |read| + 1, count, t);
    MembersNext(b, read, used);
    hide Parse, ParseMembers;
    var member, all := Parse(b[used..]).value, ParseMembers(b, count).value;
    CountMembersSnoc(read, member);
    assert all[|read|] == (read + [member])[|read|];
  }

  lemma MembersStop(b: seq<byte>, read: seq<Geometry>, count: nat, t: Table, k: nat, done: seq<byte>, w: Walked,
                    offset: nat, row: nat, piece: seq<byte>)
    requires MembersAt(b, read, t, k, done) && |done| <= |b| && |read| < count && w.Stopped?
    requires TreeOutcome(b[|done|..], t, k + CountMembers(read), w, offset, row, piece)
    ensures MembersOutcome(b, count, t, k, w, offset, row, done)
  {
    hide Replace, ReplaceMembers, EncodeMembers, Encode, ParseMembers, Parse, MembersFit, Fits, WellFormed, Count,
        CountMembers;
    var all := ParseMembers(b, count);
    if all.Parsed? && MembersFit(all.value, t, k) {
      MembersBound(b, read, |done|, count, t, k);
    }
  }

  lemma PointOutcome(b: seq<byte>, order: byte, flag: nat, t: Table, k: nat, w: Walked, offset: nat, row: nat,
                     done: seq<byte>)
    requires t.Valid() && flag < 4
    requires LineOutcome(b, order == 1, flag, 1, true, t, k, w, offset, row, done)
    ensures BodyOutcome(b, order, flag, POINT, t, k, w, offset, row, done)
  {
    LineOfOne(b, order == 1, flag);
    hide ParseLine, PositionAt, EncodePosition, EncodeLine, Rewritten, Empty;
    var p := ParseLine(b, order == 1, flag, 1);
    if p.Parsed? && k + Rows(p.value, true) <= |t.rows| {
      LineIsOne(order == 1, p.value, flag, t, k);
    }
  }

  lemma LineOfOne(b: seq<byte>, little: bool, flag: nat)
    ensures ParseLine(b, little, flag, 1)
      == if |b| < 8 * Width(flag) then Malformed
         else Parsed([PositionAt(b, little, Width(flag))], 8 * Width(flag))
  {
    assert ParseLine(b, little, flag, 0) == Parsed([], 0) && b[0..] == b;
    if |b| >= 8 * Width(flag) {
      var p := PositionAt(b, little, Width(flag));
      assert ParseLine(b, little, flag, 1) == Parsed([] + [p], 0 + 8 * Width(flag));
      assert [] + [p] == [p];
    }
  }

  lemma LineStringOutcome(b: seq<byte>, order: byte, flag: nat, t: Table, k: nat, w: Walked, offset: nat, row: nat,
                          done: seq<byte>)
    requires t.Valid() && flag < 4
    requires RingOutcome(b, order == 1, flag, t, k, w, offset, row, done)
    ensures BodyOutcome(b, order, flag, LINE_STRING, t, k, w, offset, row, done)
  {
    hide ParseRing, EncodeLine, PackCount;
  }

  lemma ShortBody(b: seq<byte>, order: byte, flag: nat, kind: nat, t: Table, row: nat, w: Walked, offset: nat,
                  done: seq<byte>)
    requires t.Valid() && flag < 4 && |b| < 4 && w.Stopped? && (kind == POLYGON || kind in COLLECTIONS)
    ensures BodyOutcome(b, order, flag, kind, t, row, w, offset, row, done)
  {}

  lemma PolygonOutcome(b: seq<byte>, order: byte, flag: nat, t: Table, k: nat, w: Walked, offset: nat, row: nat,
                       inner: seq<byte>)
    requires t.Valid() && flag < 4 && |b| >= 4
    requires RingsOutcome(b[4..], order == 1, flag, UnpackCount(order == 1, b), t, k, w, offset + 4, row, inner)
    ensures BodyOutcome(b, order, flag, POLYGON, t, k, w, offset, row,
                        PackCount(order == 1, UnpackCount(order == 1, b)) + inner)
  {
    hide ParseRings, EncodeRings, ReplaceRings, CountRings, PackCount, UnpackCount;
  }

  lemma CollectionOutcome(b: seq<byte>, order: byte, flag: nat, kind: nat, t: Table, k: nat, w: Walked, offset: nat,
                          row: nat, inner: seq<byte>)
    requires t.Valid() && flag < 4 && |b| >= 4 && kind in COLLECTIONS
    requires MembersOutcome(b[4..], UnpackCount(order == 1, b), t, k, w, offset + 4, row, inner)
    ensures BodyOutcome(b, order, flag, kind, t, k, w, offset, row,
                        PackCount(order == 1, UnpackCount(order == 1, b)) + inner)
  {
    hide ParseMembers, EncodeMembers, ReplaceMembers, CountMembers, PackCount, UnpackCount;
    var p := ParseMembers(b[4..], UnpackCount(order == 1, b));
    assert kind != POINT && kind != LINE_STRING && kind != POLYGON;
    assert ParseBody(b, order, flag, kind) == ParseCollection(b, order, flag, kind);
    if p.Parsed? {
      var g := Collection(order, flag, kind, p.value);
      assert ParseBody(b, order, flag, kind) == Parsed(g, 4 + p.used);
      assert Fits(g, t) && k + Count(g) <= |t.rows| <==> MembersFit(p.value, t, k);
      if MembersFit(p.value, t, k) {
        assert Replace(g, t, k) == Collection(order, flag, kind, ReplaceMembers(p.value, t, k));
      }
    }
  }

  lemma LineIsOne(little: bool, line: seq<Position>, flag: nat, t: Table, k: nat)
    requires |line| == 1 && t.Valid() && flag < 4 && k + Rows(line, true) <= |t.rows|
    ensures EncodeLine(little, Rewritten(flag, line, t, k, true))
      == EncodePosition(little, if Empty(line[0]) then line[0] else t.Taken(flag, k))
  {
    var r := Rewritten(flag, line, t, k, true);
    assert r[..0] == [];
    assert EncodeLine(little, r) == EncodePosition(little, r[0]);
  }

  datatype Fault = Truncated | NoSuchRow | NotIso | NotLinear | NoColumn
  datatype Walked = End(end: nat) | Stopped(fault: Fault)

  class Writer {
    const buffer: array<byte>
    const table: Table
    var row: nat

    constructor (buffer: array<byte>, table: Table)
      ensures this.buffer == buffer && this.table == table && row == 0
    {
      this.buffer, this.table, row := buffer, table, 0;
    }

    /** Overwrite one position. */
    method Pack(offset: nat, little: bool, p: Position)
      requires offset + 8 * |p| <= buffer.Length
      modifies buffer
      ensures Spliced(buffer[..], old(buffer[..]), offset, EncodePosition(little, p))
    {
      ghost var was := buffer[..];
      var bytes := EncodePosition(little, p);
      for i := 0 to |bytes|
        invariant buffer[..offset] == was[..offset]
        invariant buffer[offset..offset + i] == bytes[..i]
        invariant buffer[offset + i..] == was[offset + i..]
      {
        assert was[offset + i..][1..] == was[offset + i + 1..];
        buffer[offset + i] := bytes[i];
        assert buffer[offset..offset + i + 1] == buffer[offset..offset + i] + [bytes[i]];
      }
    }

    /** One position, given the bytes it is read from; false if the rows cannot fill it. */
    method One(at: nat, little: bool, flag: nat, values: Position, point: bool)
      returns (fault: Option<Fault>, ghost last: Position)
      requires table.Valid() && flag < 4 && row <= |table.rows|
      requires |values| == Width(flag) && at + 8 * |values| <= buffer.Length
      requires EncodePosition(little, values) <= buffer[at..]
      modifies buffer, `row
      ensures fault.None? <==> (point && Empty(values)) || (table.Has(flag) && old(row) < |table.rows|)
      ensures fault.None? ==> row == old(row) + (if point && Empty(values) then 0 else 1)
      ensures fault.None? ==> last == if point && Empty(values) then values else table.Taken(flag, old(row))
      ensures fault.None? ==> Spliced(buffer[..], old(buffer[..]), at, EncodePosition(little, last))
    {
      last := values;
      if point && Empty(values) {
        assert EncodePosition(little, values) + [] == EncodePosition(little, values);
        assert buffer[..][at..] == buffer[at..];
        SplicedAfter(buffer[..], buffer[..], at, EncodePosition(little, values), []);
        return None, last;
      }
      if !table.Has(flag) {
        return Some(NoColumn), last;
      }
      if row >= |table.rows| {
        return Some(NoSuchRow), last;
      }
      last := table.Taken(flag, row);
      Pack(at, little, table.Taken(flag, row));
      row := row + 1;
      return None, last;
    }

    /** The positions of a line, a ring, or a point: `count` of them from `offset`. */
    method Positions(offset: nat, little: bool, flag: nat, count: nat, point: bool)
      returns (w: Walked, ghost done: seq<byte>)
      requires offset <= buffer.Length && table.Valid() && flag < 4 && row <= |table.rows| && (point ==> count == 1)
      modifies buffer, `row
      ensures LineOutcome(old(buffer[offset..]), little, flag, count, point, table, old(row), w, offset, row, done)
      ensures w.End? ==> Spliced(buffer[..], old(buffer[..]), offset, done)
    {
      hide ParseLine, EncodeLine, EncodePosition, PositionAt, Rewritten, Spliced, ParseRings, EncodeRings, ReplaceRings;
      EmptyEncodings(buffer[offset..], little, flag, table, row, point);
      ghost var was := buffer[..];
      ghost var b, read := buffer[offset..], [];
      done := [];
      assert b == was[offset..];
      SplicedNothing(was, offset);
      var at: nat := offset;
      for i := 0 to count
        invariant at == offset + |done| <= buffer.Length && |read| == i
        invariant LineAt(b, little, flag, read, table, old(row), point, done)
        invariant row == old(row) + Rows(read, point)
        invariant Spliced(buffer[..], was, offset, done)
      {
        if at + 8 * Width(flag) > buffer.Length {
          w := Stopped(Truncated);
          LineStops(b, little, flag, read, count, table, old(row), point, done, w, offset, row, []);
          return;
        }
        ghost var mid := buffer[..];
        SplicedRest(mid, was, offset, done);
        assert buffer[at..] == mid[at..];
        var values := PositionAt(buffer[at..], little, Width(flag));
        PositionIsRead(buffer[at..], little, Width(flag));
        var fault; ghost var last;
        fault, last := One(at, little, flag, values, point);
        if fault.Some? {
          w := Stopped(fault.value);
          LineStops(b, little, flag, read, count, table, old(row), point, done, w, offset, row, values);
          return;
        }
        LineAtNext(b, little, flag, read, values, table, old(row), point, done, last);
        SplicedThen(mid, buffer[..], was, offset, done, EncodePosition(little, last));
        read, done := read + [values], done + EncodePosition(little, last);
        at := at + 8 * Width(flag);
      }
      return End(at), done;
    }

    /** A count, then as many positions. */
    method Ring(offset: nat, little: bool, flag: nat) returns (w: Walked, ghost done: seq<byte>)
      requires offset <= buffer.Length && table.Valid() && flag < 4 && row <= |table.rows|
      modifies buffer, `row
      ensures RingOutcome(old(buffer[offset..]), little, flag, table, old(row), w, offset, row, done)
      ensures w.End? ==> Spliced(buffer[..], old(buffer[..]), offset, done)
    {
      ghost var was, b := buffer[..], buffer[offset..];
      assert b == was[offset..];
      if offset + 4 > buffer.Length {
        return Stopped(Truncated), [];
      }
      var count := UnpackCount(little, buffer[offset..]);
      PackUnpacked(little, b);
      assert b[4..] == buffer[offset + 4..];
      w, done := Positions(offset + 4, little, flag, count, false);
      if w.End? {
        SplicedAfter(buffer[..], was, offset, PackCount(little, count), done);
        done := PackCount(little, count) + done;
        ghost var line := ParseLine(b[4..], little, flag, count).value;
        assert Rewritten(flag, line, table, old(row), false) == ReplaceLine(flag, line, table, old(row));
      }
    }

    /** `count` rings from `offset`. */
    method Rings(offset: nat, little: bool, flag: nat, count: nat) returns (w: Walked, ghost done: seq<byte>)
      requires offset <= buffer.Length && table.Valid() && flag < 4 && row <= |table.rows|
      modifies buffer, `row
      ensures RingsOutcome(old(buffer[offset..]), little, flag, count, table, old(row), w, offset, row, done)
      ensures w.End? ==> Spliced(buffer[..], old(buffer[..]), offset, done)
    {
      hide ParseRings, EncodeRings, ReplaceRings, ParseRing, EncodeRing, Spliced, ReplaceLine, CountRings;
      EmptyEncodings(buffer[offset..], little, flag, table, row, false);
      ghost var was := buffer[..];
      ghost var b, read := buffer[offset..], [];
      done := [];
      assert b == was[offset..];
      SplicedNothing(was, offset);
      var at: nat := offset;
      for i := 0 to count
        invariant at == offset + |done| <= buffer.Length && |read| == i
        invariant RingsAt(b, little, flag, read, table, old(row), done)
        invariant row == old(row) + CountRings(read)
        invariant Spliced(buffer[..], was, offset, done)
      {
        ghost var mid := buffer[..];
        SplicedRest(mid, was, offset, done);
        assert buffer[at..] == mid[at..];
        ghost var piece;
        w, piece := Ring(at, little, flag);
        if w.Stopped? {
          RingsStop(b, little, flag, read, count, table, old(row), done, w, offset, row);
          return;
        }
        ghost var ring := ParseRing(b[|done|..], little, flag);
        RingsAtNext(b, little, flag, read, ring.value, ring.used, table, old(row), done,
                    ReplaceLine(flag, ring.value, table, row - |ring.value|));
        SplicedThen(mid, buffer[..], was, offset, done, piece);
        read, done := read + [ring.value], done + piece;
        at := w.end;
      }
      return End(at), done;
    }

    /** `count` members from `offset`. */
    method Members(offset: nat, count: nat) returns (w: Walked, ghost done: seq<byte>)
      requires offset <= buffer.Length && table.Valid() && row <= |table.rows|
      modifies buffer, `row
      ensures MembersOutcome(old(buffer[offset..]), count, table, old(row), w, offset, row, done)
      ensures w.End? ==> Spliced(buffer[..], old(buffer[..]), offset, done)
      decreases buffer.Length - offset, 1
    {
      hide ParseMembers, EncodeMembers, ReplaceMembers, Parse, Encode, Replace, Spliced, CountMembers, Count, Fits;
      ghost var was := buffer[..];
      ghost var b, read := buffer[offset..], [];
      done := [];
      assert b == was[offset..];
      SplicedNothing(was, offset);
      NoMembers(b, table, row);
      var at: nat := offset;
      for i := 0 to count
        invariant at == offset + |done| <= buffer.Length && |read| == i
        invariant MembersAt(b, read, table, old(row), done)
        invariant row == old(row) + CountMembers(read)
        invariant Spliced(buffer[..], was, offset, done)
      {
        ghost var mid := buffer[..];
        SplicedRest(mid, was, offset, done);
        assert buffer[at..] == mid[at..];
        ghost var piece;
        w, piece := Geometry(at);
        if w.Stopped? {
          MembersStop(b, read, count, table, old(row), done, w, at, row, piece);
          return;
        }
        ghost var member := Parse(b[|done|..]);
        MembersAtNext(b, read, member.value, member.used, table, old(row), done,
                      Replace(member.value, table, row - Count(member.value)));
        SplicedThen(mid, buffer[..], was, offset, done, piece);
        read, done := read + [member.value], done + piece;
        at := w.end;
      }
      return End(at), done;
    }

    /** What follows a header, when it starts with a count of rings or of members. */
    method Counted(offset: nat, order: byte, flag: nat, kind: nat) returns (w: Walked, ghost done: seq<byte>)
      requires offset <= buffer.Length && table.Valid() && row <= |table.rows| && flag < 4
      requires kind == POLYGON || kind in COLLECTIONS
      modifies buffer, `row
      ensures BodyOutcome(old(buffer[offset..]), order, flag, kind, table, old(row), w, offset, row, done)
      ensures w.End? ==> Spliced(buffer[..], old(buffer[..]), offset, done)
      decreases buffer.Length - offset, 2
    {
      hide ParseRings, ParseMembers, Replace, Body, Fits, Count, Spliced, PackCount, UnpackCount, RingsOutcome,
          MembersOutcome;
      ghost var was, b := buffer[..], buffer[offset..];
      if offset + 4 > buffer.Length {
        w, done := Stopped(Truncated), [];
        ShortBody(b, order, flag, kind, table, row, w, offset, done);
        return;
      }
      assert b == was[offset..];
      assert b[4..] == buffer[offset + 4..];
      var count := UnpackCount(order == 1, buffer[offset..]);
      PackUnpacked(order == 1, b);
      ghost var inner;
      if kind == POLYGON {
        w, inner := Rings(offset + 4, order == 1, flag, count);
        PolygonOutcome(b, order, flag, table, old(row), w, offset, row, inner);
      } else {
        w, inner := Members(offset + 4, count);
        CollectionOutcome(b, order, flag, kind, table, old(row), w, offset, row, inner);
      }
      done := PackCount(order == 1, count) + inner;
      if w.End? {
        SplicedAfter(buffer[..], was, offset, PackCount(order == 1, count), inner);
      }
    }

    /** What follows a header. */
    method Content(offset: nat, order: byte, flag: nat, kind: nat) returns (w: Walked, ghost done: seq<byte>)
      requires offset <= buffer.Length && table.Valid() && row <= |table.rows| && flag < 4
      modifies buffer, `row
      ensures BodyOutcome(old(buffer[offset..]), order, flag, kind, table, old(row), w, offset, row, done)
      ensures w.End? ==> Spliced(buffer[..], old(buffer[..]), offset, done)
      decreases buffer.Length - offset, 3
    {
      hide ParseRing, ParseLine, Replace, Body, Fits, Count, Spliced, LineOutcome, RingOutcome;
      ghost var b := buffer[offset..];
      if kind == POINT {
        w, done := Positions(offset, order == 1, flag, 1, true);
        PointOutcome(b, order, flag, table, old(row), w, offset, row, done);
      } else if kind == LINE_STRING {
        w, done := Ring(offset, order == 1, flag);
        LineStringOutcome(b, order, flag, table, old(row), w, offset, row, done);
      } else if kind == POLYGON || kind in COLLECTIONS {
        w, done := Counted(offset, order, flag, kind);
      } else {
        w, done := Stopped(NotLinear), [];
      }
    }

    /** A whole tree from `offset`. */
    method Geometry(offset: nat) returns (w: Walked, ghost done: seq<byte>)
      requires offset <= buffer.Length && table.Valid() && row <= |table.rows|
      modifies buffer, `row
      ensures TreeOutcome(old(buffer[offset..]), table, old(row), w, offset, row, done)
      ensures w.End? ==> Spliced(buffer[..], old(buffer[..]), offset, done)
      decreases buffer.Length - offset, 0
    {
      if offset + 5 > buffer.Length {
        return Stopped(Truncated), [];
      }
      ghost var was, b := buffer[..], buffer[offset..];
      assert b == was[offset..];
      var order := buffer[offset];
      var code := UnpackCount(order == 1, buffer[offset + 1..]);
      assert b[1..] == buffer[offset + 1..] && b[5..] == buffer[offset + 5..];
      var kind, flag := code % 1000, code / 1000;
      if flag >= 4 {
        return Stopped(NotIso), [];
      }
      w, done := Content(offset + 5, order, flag, kind);
      if w.End? {
        ghost var g := ParseBody(b[5..], order, flag, kind).value;
        HeaderIsPrefix(b, g);
        SplicedAfter(buffer[..], was, offset, Header(g), done);
        done := Header(g) + done;
      }
    }
  }

  lemma HeaderIsPrefix(b: seq<byte>, g: Geometry)
    requires WellFormed(g) && |b| >= 5 && b[0] == g.order
    requires var code := UnpackCount(g.order == 1, b[1..]); code % 1000 == Kind(g) && code / 1000 == g.flag
    ensures Header(g) <= b
  {
    PackUnpacked(g.order == 1, b[1..]);
    hide PackCount, UnpackCount;
    Unsplit(b, 1, 4);
    assert Header(g) == b[..1] + b[1..][..4];
  }

  lemma NoMembers(b: seq<byte>, t: Table, k: nat)
    requires t.Valid() && k <= |t.rows|
    ensures MembersAt(b, [], t, k, []) && CountMembers([]) == 0
  {}

  // ----- the whole rewriting
}
