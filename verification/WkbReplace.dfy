module WkbReplace {
  // Which row each position of a tree takes, and which of its columns
  // (geodetic_engine/geodesy/_wkb.py, `replace_coordinates`).
  //
  // Said of the positions in document order, and of the bytes they are in.

  import opened Options
  import opened WkbFormat
  import opened Wkb
  import opened WkbLayout

  /** A position as the writer comes to it: its dimension, and whether it is a point's. */
  datatype Entry = Entry(flag: nat, point: bool, p: Position)

  function LineEntries(flag: nat, line: seq<Position>): (r: seq<Entry>)
    ensures |r| == |line|
  {
    seq(|line|, i requires 0 <= i < |line| => Entry(flag, false, line[i]))
  }

  function RingsEntries(flag: nat, rings: seq<seq<Position>>): seq<Entry> {
    if rings == [] then [] else RingsEntries(flag, rings[..|rings| - 1]) + LineEntries(flag, rings[|rings| - 1])
  }

  /** A tree's positions, in document order. */
  function Entries(g: Geometry): seq<Entry>
    decreases g, 0
  {
    match g
    case Point(_, flag, p) => [Entry(flag, true, p)]
    case LineString(_, flag, line) => LineEntries(flag, line)
    case Polygon(_, flag, rings) => RingsEntries(flag, rings)
    case Collection(_, _, _, members) => MembersEntries(members)
  }

  function MembersEntries(members: seq<Geometry>): seq<Entry>
    decreases members, 1
  {
    if members == [] then [] else MembersEntries(members[..|members| - 1]) + Entries(members[|members| - 1])
  }

  /** A double's bits but the sign's, as a number. */
  function Magnitude(d: Double): nat {
    var b0: int, b1: int, b2: int, b3: int := d[0] % 128, d[1], d[2], d[3];
    var b4: int, b5: int, b6: int, b7: int := d[4], d[5], d[6], d[7];
    0x100_0000_0000_0000 * b0 + 0x1_0000_0000_0000 * b1 + 0x100_0000_0000 * b2 + 0x1_0000_0000 * b3
    + 0x100_0000 * b4 + 0x1_0000 * b5 + 0x100 * b6 + b7
  }

  /** The bits are past those of infinity: section 3.4 of IEEE 754-2019. */
  predicate PastInfinity(d: Double) {
    Magnitude(d) > 0x7FF0_0000_0000_0000
  }

  lemma NaNByBits(d: Double)
    ensures IsNaN(d) <==> PastInfinity(d)
  {
    var zeros: seq<byte> := [0, 0, 0, 0, 0, 0];
    if d[2..] != zeros {
      assert d[2] != 0 || d[3] != 0 || d[4] != 0 || d[5] != 0 || d[6] != 0 || d[7] != 0;
    } else {
      assert d[2] == d[2..][0] && d[3] == d[2..][1] && d[4] == d[2..][2];
      assert d[5] == d[2..][3] && d[6] == d[2..][4] && d[7] == d[2..][5];
    }
  }

  /** Every position takes a row but a point's that is all NaN. */
  predicate TakesRow(e: Entry) {
    e.point ==> exists c :: 0 <= c < |e.p| && !PastInfinity(e.p[c])
  }

  /** How many of the first n take a row. */
  function Taking(entries: seq<Entry>, n: nat): nat
    requires n <= |entries|
  {
    if n == 0 then 0 else Taking(entries, n - 1) + if TakesRow(entries[n - 1]) then 1 else 0
  }

  /** The rows have the z and m the position has. */
  predicate FitsEntry(e: Entry, t: Table) {
    (e.flag % 2 == 1 ==> t.hasZ) && (e.flag >= 2 ==> t.hasM)
  }

  /** The column of a row value c of a position takes: x, y, then a z, for an odd flag, and an m. */
  function Column(t: Table, flag: nat, c: nat): nat {
    if c < 2 then c else if c == 2 && flag % 2 == 1 then 2 else if t.hasZ then 3 else 2
  }

  /** What is left of an entry: the values of row k, where it takes one, and else its own. */
  ghost predicate Becomes(e: Entry, now: Entry, t: Table, k: nat) {
    && now.flag == e.flag && now.point == e.point && |now.p| == |e.p|
    && if TakesRow(e) then
         k < |t.rows| && forall c: nat :: c < |e.p| ==> IsColumn(t.rows[k], Column(t, e.flag, c), now.p[c])
       else now.p == e.p
  }

  predicate IsColumn(row: seq<Double>, column: nat, d: Double) {
    column < |row| && row[column] == d
  }

  ghost predicate AllBecome(entries: seq<Entry>, now: seq<Entry>, t: Table, k: nat) {
    |now| == |entries| && forall i: nat :: i < |entries| ==> Becomes(entries[i], now[i], t, k + Taking(entries, i))
  }

  ghost predicate AllFitEntries(entries: seq<Entry>, t: Table) {
    forall i :: 0 <= i < |entries| && TakesRow(entries[i]) ==> FitsEntry(entries[i], t)
  }

  // ----- of runs of entries

  lemma {:induction false} TakingJoined(a: seq<Entry>, b: seq<Entry>, n: nat)
    requires n <= |b|
    ensures Taking(a + b, |a| + n) == Taking(a, |a|) + Taking(b, n)
  {
    if n == 0 {
      TakingPrefix(a, b, |a|);
    } else {
      TakingJoined(a, b, n - 1);
      assert (a + b)[|a| + n - 1] == b[n - 1];
    }
  }

  lemma {:induction false} TakingPrefix(a: seq<Entry>, b: seq<Entry>, n: nat)
    requires n <= |a|
    ensures Taking(a + b, n) == Taking(a, n)
  {
    if n > 0 {
      TakingPrefix(a, b, n - 1);
    }
  }

  lemma AllBecomeJoined(a: seq<Entry>, x: seq<Entry>, b: seq<Entry>, y: seq<Entry>, t: Table, k: nat)
    requires AllBecome(a, x, t, k) && AllBecome(b, y, t, k + Taking(a, |a|))
    ensures AllBecome(a + b, x + y, t, k)
  {
    hide Becomes, Taking;
    forall i: nat | i < |a + b| ensures Becomes((a + b)[i], (x + y)[i], t, k + Taking(a + b, i)) {
      if i < |a| {
        TakingPrefix(a, b, i);
        assert Becomes(a[i], x[i], t, k + Taking(a, i));
      } else {
        var j: nat := i - |a|;
        TakingJoined(a, b, j);
        assert Becomes(b[j], y[j], t, k + Taking(a, |a|) + Taking(b, j));
      }
    }
  }

  lemma AllFitJoined(a: seq<Entry>, b: seq<Entry>, t: Table)
    ensures AllFitEntries(a + b, t) <==> AllFitEntries(a, t) && AllFitEntries(b, t)
  {
    hide TakesRow, FitsEntry;
    var all := a + b;
    assert forall i :: 0 <= i < |a| ==> all[i] == a[i];
    assert forall i :: 0 <= i < |b| ==> all[|a| + i] == b[i];
    if AllFitEntries(all, t) {
      forall i | 0 <= i < |b| && TakesRow(b[i]) ensures FitsEntry(b[i], t) {
        assert TakesRow(all[|a| + i]);
      }
    }
  }

  // ----- of lines

  lemma {:induction false} LineTakes(flag: nat, line: seq<Position>, n: nat)
    requires n <= |line|
    ensures Taking(LineEntries(flag, line), n) == n
  {
    if n > 0 {
      LineTakes(flag, line, n - 1);
    }
  }

  lemma HasByFlag(t: Table, flag: nat)
    requires flag < 4
    ensures t.Has(flag) <==> (flag % 2 == 1 ==> t.hasZ) && (flag >= 2 ==> t.hasM)
  {}

  lemma LineFits(flag: nat, line: seq<Position>, t: Table)
    requires flag < 4
    ensures AllFitEntries(LineEntries(flag, line), t) <==> (|line| > 0 ==> t.Has(flag))
  {
    HasByFlag(t, flag);
    hide Table.Has;
    var entries := LineEntries(flag, line);
    assert forall i :: 0 <= i < |line| ==> TakesRow(entries[i]) && entries[i].flag == flag;
    if |line| > 0 {
      assert TakesRow(entries[0]);
    }
  }

  lemma TakenByColumn(t: Table, flag: nat, k: nat, c: nat)
    requires t.Valid() && flag < 4 && t.Has(flag) && k < |t.rows| && c < Width(flag)
    ensures IsColumn(t.rows[k], Column(t, flag, c), t.Taken(flag, k)[c])
  {}

  lemma EntryBecomes(flag: nat, p: Position, t: Table, k: nat)
    requires t.Valid() && flag < 4 && |p| == Width(flag) && t.Has(flag) && k < |t.rows|
    ensures Becomes(Entry(flag, false, p), Entry(flag, false, t.Taken(flag, k)), t, k)
  {
    forall c: nat | c < |p| ensures IsColumn(t.rows[k], Column(t, flag, c), t.Taken(flag, k)[c]) {
      TakenByColumn(t, flag, k, c);
    }
    hide Column, Table.Taken, Table.Has;
  }

  lemma LineBecomes(flag: nat, line: seq<Position>, t: Table, k: nat)
    requires t.Valid() && flag < 4 && IsLine(flag, line) && (|line| > 0 ==> t.Has(flag)) && k + |line| <= |t.rows|
    ensures AllBecome(LineEntries(flag, line), LineEntries(flag, ReplaceLine(flag, line, t, k)), t, k)
  {
    hide Becomes, Taking, Table.Taken, Table.Has, Table.Valid;
    forall i: nat | i < |line|
      ensures Becomes(LineEntries(flag, line)[i], LineEntries(flag, ReplaceLine(flag, line, t, k))[i], t,
                      k + Taking(LineEntries(flag, line), i))
    {
      LineTakes(flag, line, i);
      EntryBecomes(flag, line[i], t, k + i);
    }
  }

  // ----- of rings

  ghost predicate RingsCounted(flag: nat, rings: seq<seq<Position>>, t: Table)
    requires flag < 4
  {
    var entries := RingsEntries(flag, rings);
    && Taking(entries, |entries|) == CountRings(rings)
    && (AllFitEntries(entries, t) <==> (CountRings(rings) > 0 ==> t.Has(flag)))
  }

  lemma RingsEntriesNext(flag: nat, front: seq<seq<Position>>, last: seq<Position>)
    ensures RingsEntries(flag, front + [last]) == RingsEntries(flag, front) + LineEntries(flag, last)
  {
    assert (front + [last])[..|front|] == front;
  }

  lemma {:induction false} RingsCount(flag: nat, rings: seq<seq<Position>>, t: Table)
    requires flag < 4
    ensures RingsCounted(flag, rings, t)
  {
    if rings == [] {
      return;
    }
    var front, last := rings[..|rings| - 1], rings[|rings| - 1];
    Snoc(rings);
    hide RingsEntries, LineEntries, CountRings, AllFitEntries, Taking, Table.Has;
    RingsCount(flag, front, t);
    RingsEntriesNext(flag, front, last);
    CountRingsSnoc(front, last);
    LineTakes(flag, last, |last|);
    TakingJoined(RingsEntries(flag, front), LineEntries(flag, last), |last|);
    AllFitJoined(RingsEntries(flag, front), LineEntries(flag, last), t);
    LineFits(flag, last, t);
  }

  ghost predicate RingsReplaceable(flag: nat, rings: seq<seq<Position>>, t: Table, k: nat) {
    && t.Valid() && flag < 4 && Lines(flag, rings) && k + CountRings(rings) <= |t.rows|
    && (CountRings(rings) > 0 ==> t.Has(flag))
  }

  lemma RingsParts(flag: nat, front: seq<seq<Position>>, last: seq<Position>, t: Table, k: nat)
    requires RingsReplaceable(flag, front + [last], t, k)
    ensures RingsReplaceable(flag, front, t, k) && IsLine(flag, last) && (|last| > 0 ==> t.Has(flag))
    ensures k + CountRings(front) + |last| <= |t.rows|
    ensures ReplaceRings(flag, front + [last], t, k)
            == ReplaceRings(flag, front, t, k) + [ReplaceLine(flag, last, t, k + CountRings(front))]
  {
    CountRingsSnoc(front, last);
    LinesParts(flag, front, last);
    assert (front + [last])[..|front|] == front;
    hide CountRings, Lines, Table.Has, ReplaceLine;
  }

  lemma NoRingsBecome(flag: nat, t: Table, k: nat)
    requires RingsReplaceable(flag, [], t, k)
    ensures AllBecome(RingsEntries(flag, []), RingsEntries(flag, ReplaceRings(flag, [], t, k)), t, k)
  {}

  lemma RingsMean(flag: nat, rings: seq<seq<Position>>, t: Table, k: nat)
    requires RingsReplaceable(flag, rings, t, k)
    ensures t.Valid() && flag < 4 && Lines(flag, rings) && k + CountRings(rings) <= |t.rows|
    ensures CountRings(rings) > 0 ==> t.Has(flag)
  {}

  lemma RingsTaking(flag: nat, rings: seq<seq<Position>>, t: Table, k: nat)
    requires RingsReplaceable(flag, rings, t, k)
    ensures Taking(RingsEntries(flag, rings), |RingsEntries(flag, rings)|) == CountRings(rings)
  {
    RingsCount(flag, rings, t);
  }

  lemma {:induction false} RingsBecome(flag: nat, rings: seq<seq<Position>>, t: Table, k: nat)
    requires RingsReplaceable(flag, rings, t, k)
    ensures AllBecome(RingsEntries(flag, rings), RingsEntries(flag, ReplaceRings(flag, rings, t, k)), t, k)
  {
    hide *;
    if rings == [] {
      NoRingsBecome(flag, t, k);
      return;
    }
    var front, last := rings[..|rings| - 1], rings[|rings| - 1];
    Snoc(rings);
    RingsParts(flag, front, last, t, k);
    RingsMean(flag, front, t, k);
    RingsBecome(flag, front, t, k);
    RingsTaking(flag, front, t, k);
    LineBecomes(flag, last, t, k + CountRings(front));
    RingsEntriesNext(flag, front, last);
    RingsEntriesNext(flag, ReplaceRings(flag, front, t, k), ReplaceLine(flag, last, t, k + CountRings(front)));
    AllBecomeJoined(RingsEntries(flag, front), RingsEntries(flag, ReplaceRings(flag, front, t, k)),
                    LineEntries(flag, last),
                    LineEntries(flag, ReplaceLine(flag, last, t, k + CountRings(front))), t, k);
  }

  // ----- of trees

  ghost predicate Counted(entries: seq<Entry>, count: nat, fits: bool, t: Table) {
    Taking(entries, |entries|) == count && (AllFitEntries(entries, t) <==> fits)
  }

  lemma PointCount(g: Geometry, t: Table)
    requires WellFormed(g) && g.Point?
    ensures Counted(Entries(g), Count(g), Fits(g, t), t)
  {
    HasByFlag(t, g.flag);
    hide Table.Has;
    var e := Entry(g.flag, true, g.at);
    forall c | 0 <= c < |g.at| ensures IsNaN(g.at[c]) <==> PastInfinity(g.at[c]) {
      NaNByBits(g.at[c]);
    }
    hide PastInfinity, IsNaN;
    assert TakesRow(e) <==> !Empty(g.at);
    assert Entries(g) == [e] && Taking([e], 0) == 0 && [e][0] == e;
  }

  lemma {:induction false} TreeCount(g: Geometry, t: Table)
    requires WellFormed(g)
    ensures Counted(Entries(g), Count(g), Fits(g, t), t)
    decreases g, 0
  {
    hide Taking, AllFitEntries, LineEntries, RingsEntries, MembersEntries, CountRings, CountMembers, Table.Has, AllFit;
    match g
    case Point(_, flag, p) => PointCount(g, t);
    case LineString(_, flag, line) =>
      LineTakes(flag, line, |line|);
      LineFits(flag, line, t);
    case Polygon(_, flag, rings) => RingsCount(flag, rings, t);
    case Collection(_, _, _, members) => MembersCount(members, t);
  }

  lemma MembersEntriesNext(front: seq<Geometry>, last: Geometry)
    ensures MembersEntries(front + [last]) == MembersEntries(front) + Entries(last)
  {
    assert (front + [last])[..|front|] == front;
  }

  lemma AllFitNext(front: seq<Geometry>, last: Geometry, t: Table)
    requires AllWellFormed(front + [last]) && AllWellFormed(front) && WellFormed(last)
    ensures AllFit(front + [last], t) <==> AllFit(front, t) && Fits(last, t)
  {
    hide WellFormed, Fits;
    var members := front + [last];
    assert members[|front|] == last && forall i :: 0 <= i < |front| ==> members[i] == front[i];
  }

  lemma {:induction false} MembersCount(members: seq<Geometry>, t: Table)
    requires AllWellFormed(members)
    ensures Counted(MembersEntries(members), CountMembers(members), AllFit(members, t), t)
    decreases members, 1
  {
    if members == [] {
      return;
    }
    var front, last := members[..|members| - 1], members[|members| - 1];
    Snoc(members);
    hide *;
    MembersParts(front, last);
    MembersCount(front, t);
    TreeCount(last, t);
    MembersEntriesNext(front, last);
    CountMembersSnoc(front, last);
    AllFitNext(front, last, t);
    CountedJoined(MembersEntries(front), CountMembers(front), AllFit(front, t), Entries(last), Count(last),
                  Fits(last, t), t);
  }

  lemma CountedJoined(a: seq<Entry>, m: nat, fitsA: bool, b: seq<Entry>, n: nat, fitsB: bool, t: Table)
    requires Counted(a, m, fitsA, t) && Counted(b, n, fitsB, t)
    ensures Counted(a + b, m + n, fitsA && fitsB, t)
  {
    TakingJoined(a, b, |b|);
    AllFitJoined(a, b, t);
    hide Taking, AllFitEntries;
  }

  ghost predicate Replaceable(g: Geometry, t: Table, k: nat) {
    WellFormed(g) && t.Valid() && Fits(g, t) && k + Count(g) <= |t.rows|
  }

  ghost predicate AllReplaceable(members: seq<Geometry>, t: Table, k: nat) {
    t.Valid() && AllWellFormed(members) && AllFit(members, t) && k + CountMembers(members) <= |t.rows|
  }

  lemma PointBecomes(g: Geometry, t: Table, k: nat)
    requires Replaceable(g, t, k) && g.Point?
    ensures AllBecome(Entries(g), Entries(Replace(g, t, k)), t, k)
  {
    var e := Entry(g.flag, true, g.at);
    forall c | 0 <= c < |g.at| ensures IsNaN(g.at[c]) <==> PastInfinity(g.at[c]) {
      NaNByBits(g.at[c]);
    }
    hide PastInfinity, IsNaN;
    assert TakesRow(e) <==> !Empty(g.at);
    if !Empty(g.at) {
      forall c: nat | c < |g.at| ensures IsColumn(t.rows[k], Column(t, g.flag, c), t.Taken(g.flag, k)[c]) {
        TakenByColumn(t, g.flag, k, c);
      }
    }
    hide Table.Taken, Column;
    assert Entries(g) == [e] && Taking([e], 0) == 0;
  }

  /** Rewriting fills each position that takes a row with the columns of the next row, in document order, and
      leaves the others. */
  lemma {:induction false} TreeBecomes(g: Geometry, t: Table, k: nat)
    requires Replaceable(g, t, k)
    ensures AllBecome(Entries(g), Entries(Replace(g, t, k)), t, k)
    decreases g, 0
  {
    hide AllBecome, LineEntries, RingsEntries, MembersEntries, ReplaceLine, ReplaceRings, ReplaceMembers, CountRings,
      CountMembers, Table.Has, Table.Taken, IsLine, Lines;
    match g
    case Point(_, flag, p) => PointBecomes(g, t, k);
    case LineString(_, flag, line) => LineBecomes(flag, line, t, k);
    case Polygon(_, flag, rings) => RingsBecome(flag, rings, t, k);
    case Collection(_, _, _, members) => MembersBecome(members, t, k);
  }

  lemma MembersReplaceable(front: seq<Geometry>, last: Geometry, t: Table, k: nat)
    requires AllReplaceable(front + [last], t, k)
    ensures AllReplaceable(front, t, k) && Replaceable(last, t, k + CountMembers(front))
    ensures ReplaceMembers(front + [last], t, k)
            == ReplaceMembers(front, t, k) + [Replace(last, t, k + CountMembers(front))]
  {
    AllMean(front + [last], t, k);
    hide *;
    MembersParts(front, last);
    AllFitNext(front, last, t);
    CountMembersSnoc(front, last);
    AreReplaceable(front, last, t, k);
    ReplaceNext(front, last, t, k);
  }

  lemma AreReplaceable(front: seq<Geometry>, last: Geometry, t: Table, k: nat)
    requires t.Valid() && AllWellFormed(front) && WellFormed(last) && AllFit(front, t) && Fits(last, t)
    requires k + CountMembers(front) + Count(last) <= |t.rows|
    ensures AllReplaceable(front, t, k) && Replaceable(last, t, k + CountMembers(front))
  {}

  lemma ReplaceNext(front: seq<Geometry>, last: Geometry, t: Table, k: nat)
    requires AllReplaceable(front + [last], t, k) && AllReplaceable(front, t, k)
    requires Replaceable(last, t, k + CountMembers(front))
    ensures ReplaceMembers(front + [last], t, k)
            == ReplaceMembers(front, t, k) + [Replace(last, t, k + CountMembers(front))]
  {
    hide WellFormed, Fits, Count, Replace, CountMembers;
    assert (front + [last])[..|front|] == front;
  }

  lemma NoMembersBecome(t: Table, k: nat)
    requires AllReplaceable([], t, k)
    ensures AllBecome(MembersEntries([]), MembersEntries(ReplaceMembers([], t, k)), t, k)
    ensures SameShapes([], ReplaceMembers([], t, k))
  {}

  lemma AllMean(members: seq<Geometry>, t: Table, k: nat)
    requires AllReplaceable(members, t, k)
    ensures t.Valid() && AllWellFormed(members) && AllFit(members, t) && k + CountMembers(members) <= |t.rows|
  {}

  lemma TreeMeans(g: Geometry, t: Table, k: nat)
    requires Replaceable(g, t, k)
    ensures WellFormed(g) && t.Valid() && Fits(g, t) && k + Count(g) <= |t.rows|
  {}

  lemma {:induction false} MembersBecome(members: seq<Geometry>, t: Table, k: nat)
    requires AllReplaceable(members, t, k)
    ensures AllBecome(MembersEntries(members), MembersEntries(ReplaceMembers(members, t, k)), t, k)
    decreases members, 1
  {
    hide *;
    if members == [] {
      NoMembersBecome(t, k);
      return;
    }
    var front, last := members[..|members| - 1], members[|members| - 1];
    Snoc(members);
    MembersReplaceable(front, last, t, k);
    AllMean(front, t, k);
    TreeMeans(last, t, k + CountMembers(front));
    MembersBecome(front, t, k);
    MembersTaking(front, t, k);
    TreeBecomes(last, t, k + CountMembers(front));
    MembersEntriesNext(front, last);
    MembersEntriesNext(ReplaceMembers(front, t, k), Replace(last, t, k + CountMembers(front)));
    AllBecomeJoined(MembersEntries(front), MembersEntries(ReplaceMembers(front, t, k)), Entries(last),
                    Entries(Replace(last, t, k + CountMembers(front))), t, k);
  }

  lemma MembersTaking(members: seq<Geometry>, t: Table, k: nat)
    requires AllReplaceable(members, t, k)
    ensures Taking(MembersEntries(members), |MembersEntries(members)|) == CountMembers(members)
  {
    MembersCount(members, t);
    hide Taking, CountMembers, MembersEntries, AllFit, AllWellFormed;
  }

  // ----- nothing else changes

  /** The same tree but for what its positions are. */
  ghost predicate SameShape(g: Geometry, h: Geometry)
    decreases g, 0
  {
    match (g, h)
    case (Point(o, f, _), Point(p, e, _)) => o == p && f == e
    case (LineString(o, f, line), LineString(p, e, other)) => o == p && f == e && |line| == |other|
    case (Polygon(o, f, rings), Polygon(p, e, others)) =>
      && o == p && f == e && |rings| == |others| && forall i :: 0 <= i < |rings| ==> |rings[i]| == |others[i]|
    case (Collection(o, f, k, members), Collection(p, e, l, others)) =>
      o == p && f == e && k == l && SameShapes(members, others)
    case _ => false
  }

  ghost predicate SameShapes(members: seq<Geometry>, others: seq<Geometry>)
    decreases members, 1
  {
    |members| == |others| && forall i :: 0 <= i < |members| ==> SameShape(members[i], others[i])
  }

  lemma {:induction false} RingsKeepShape(flag: nat, rings: seq<seq<Position>>, t: Table, k: nat)
    requires RingsReplaceable(flag, rings, t, k)
    ensures var now := ReplaceRings(flag, rings, t, k);
            |now| == |rings| && forall i :: 0 <= i < |rings| ==> |rings[i]| == |now[i]|
  {
    if rings != [] {
      var front, last := rings[..|rings| - 1], rings[|rings| - 1];
      Snoc(rings);
      RingsParts(flag, front, last, t, k);
      hide RingsReplaceable, ReplaceRings;
      RingsKeepShape(flag, front, t, k);
    }
  }

  lemma {:induction false} TreeKeepsShape(g: Geometry, t: Table, k: nat)
    requires Replaceable(g, t, k)
    ensures SameShape(g, Replace(g, t, k))
    decreases g, 0
  {
    hide ReplaceRings, ReplaceMembers, CountRings, CountMembers, Table.Has, Table.Taken, IsLine, Lines, SameShapes;
    match g
    case Point(_, _, _) =>
    case LineString(_, flag, line) =>
    case Polygon(_, flag, rings) => RingsKeepShape(flag, rings, t, k);
    case Collection(_, _, _, members) => MembersKeepShape(members, t, k);
  }

  lemma {:induction false} MembersKeepShape(members: seq<Geometry>, t: Table, k: nat)
    requires AllReplaceable(members, t, k)
    ensures SameShapes(members, ReplaceMembers(members, t, k))
    decreases members, 1
  {
    hide *;
    if members == [] {
      NoMembersBecome(t, k);
      return;
    }
    var front, last := members[..|members| - 1], members[|members| - 1];
    Snoc(members);
    MembersReplaceable(front, last, t, k);
    AllMean(front, t, k);
    TreeMeans(last, t, k + CountMembers(front));
    MembersKeepShape(front, t, k);
    TreeKeepsShape(last, t, k + CountMembers(front));
    SameShapesNext(front, last, ReplaceMembers(front, t, k), Replace(last, t, k + CountMembers(front)));
  }

  lemma SameShapesNext(front: seq<Geometry>, last: Geometry, others: seq<Geometry>, other: Geometry)
    requires SameShapes(front, others) && SameShape(last, other)
    ensures SameShapes(front + [last], others + [other])
  {
    hide SameShape;
  }

  // ----- replace_coordinates

  /** The bytes are a tree's, and the rows are one for each of its positions that takes one, with the z and m
      it has. */
  ghost predicate TakesRows(g: Geometry, wkb: seq<byte>, t: Table) {
    var entries := Entries(g);
    Holds(wkb, 0, g) && Size(g) == |wkb| && Taking(entries, |entries|) == |t.rows| && AllFitEntries(entries, t)
  }

  /** The bytes are the same tree's, each position that takes a row with the columns of its row. */
  ghost predicate IsRewriting(g: Geometry, b: seq<byte>, t: Table, now: Geometry) {
    Holds(b, 0, now) && Size(now) == |b| && SameShape(g, now) && AllBecome(Entries(g), Entries(now), t, 0)
  }

  lemma RewritableExactly(g: Geometry, wkb: seq<byte>, t: Table)
    ensures Rewritable(g, wkb, t) <==> TakesRows(g, wkb, t)
  {
    HoldsExactly(wkb, g);
    if WellFormed(g) {
      TreeCount(g, t);
    }
    hide Holds, Size, WellFormed, Encode, Fits, Count, Taking, AllFitEntries, Entries;
  }

  lemma RewrittenBytes(g: Geometry, wkb: seq<byte>, t: Table)
    requires t.Valid() && Rewritable(g, wkb, t)
    ensures IsRewriting(g, Encode(Replace(g, t, 0)), t, Replace(g, t, 0))
  {
    var now := Replace(g, t, 0);
    TreeBecomes(g, t, 0);
    TreeKeepsShape(g, t, 0);
    HoldsExactly(Encode(now), now);
    hide Holds, Size, WellFormed, Encode, Fits, Count, Replace, AllBecome, Entries, SameShape;
  }

  /** `wkb` encodes `g`, and the rows are one for each of its positions but empty points. */
  ghost predicate Rewritable(g: Geometry, wkb: seq<byte>, t: Table) {
    WellFormed(g) && Encode(g) == wkb && Fits(g, t) && Count(g) == |t.rows|
  }

  lemma RewritableIsParsed(g: Geometry, wkb: seq<byte>, t: Table)
    requires Rewritable(g, wkb, t)
    ensures Parse(wkb) == Parsed(g, |wkb|)
  {
    Reads(g, wkb);
  }

  /** The bytes with each position's values replaced by a row, or None for the errors. */
  method ReplaceCoordinates(wkb: seq<byte>, t: Table) returns (r: Option<seq<byte>>)
    requires forall i :: 0 <= i < |t.rows| ==>
      |t.rows[i]| == if t.hasZ && t.hasM then 4 else if t.hasZ || t.hasM then 3 else 2
    ensures r.Some? <==> exists g :: Rewritable(g, wkb, t)
    ensures forall g :: Rewritable(g, wkb, t) ==> r == Some(Encode(Replace(g, t, 0)))
    ensures ByTheBytes(wkb, t, r)
  {
    hide Encode, Parse, WellFormed, Fits, Count, Replace, Spliced, ByTheBytes;
    var buffer := new byte[|wkb|](i requires 0 <= i < |wkb| => wkb[i]);
    assert buffer[..] == wkb;
    var writer := new Writer(buffer, t);
    assert buffer[0..] == wkb;
    var w; ghost var done;
    w, done := writer.Geometry(0);
    forall g | Rewritable(g, wkb, t) ensures Parse(wkb) == Parsed(g, |wkb|) {
      RewritableIsParsed(g, wkb, t);
    }
    if w.Stopped? || w.end != buffer.Length || writer.row != |t.rows| {
      r := None;
    } else {
      WholeIsParsed(wkb, t, w, writer.row, done);
      SplicedWhole(buffer[..], wkb, done);
      r := Some(buffer[..]);
    }
    IsByTheBytes(wkb, t, r);
  }

  /** Bytes are given just where those given are a tree's and take the rows, and are its rewriting. */
  ghost predicate ByTheBytes(wkb: seq<byte>, t: Table, r: Option<seq<byte>>) {
    && (r.Some? <==> exists g :: TakesRows(g, wkb, t))
    && (r.Some? ==> forall g :: TakesRows(g, wkb, t) ==> exists now :: IsRewriting(g, r.value, t, now))
  }

  lemma IsByTheBytes(wkb: seq<byte>, t: Table, r: Option<seq<byte>>)
    requires t.Valid() && (r.Some? <==> exists g :: Rewritable(g, wkb, t))
    requires forall g :: Rewritable(g, wkb, t) ==> r == Some(Encode(Replace(g, t, 0)))
    ensures ByTheBytes(wkb, t, r)
  {
    hide Rewritable, TakesRows, IsRewriting, Encode, Replace, Fits, Count, WellFormed;
    forall g ensures Rewritable(g, wkb, t) <==> TakesRows(g, wkb, t) {
      RewritableExactly(g, wkb, t);
    }
    forall g | TakesRows(g, wkb, t) ensures r.Some? && exists now :: IsRewriting(g, r.value, t, now) {
      assert Rewritable(g, wkb, t);
      RewrittenBytes(g, wkb, t);
    }
  }

  lemma WholeIsParsed(wkb: seq<byte>, t: Table, w: Walked, row: nat, done: seq<byte>)
    requires t.Valid() && TreeOutcome(wkb, t, 0, w, 0, row, done) && w == End(|wkb|) && row == |t.rows|
    ensures Parse(wkb).Parsed? && Rewritable(Parse(wkb).value, wkb, t)
    ensures done == Encode(Replace(Parse(wkb).value, t, 0)) && |done| == |wkb|
  {
    IsRead(wkb);
    SameLength(Parse(wkb).value, t, 0);
  }

  lemma SplicedWhole(now: seq<byte>, was: seq<byte>, piece: seq<byte>)
    requires Spliced(now, was, 0, piece) && |piece| == |was|
    ensures now == piece
  {}
}
