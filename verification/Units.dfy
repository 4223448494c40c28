/** Splitting geometries whose members differ in z or m, and joining them again
    (geodetic_engine/geodesy/geometry.py, lines 927 to 1001). */
module Units {
  import opened Options

  /** A geometry: none, one of some coordinates, or one with members. */
  datatype Geometry<T> = Missing | Simple(coordinates: T) | Multi(kind: int, parts: seq<Geometry<T>>)

  /** What shapely says of a geometry: whether it is empty, and has z or m. */
  datatype Shapely<!T> = Shapely(isEmpty: Geometry<T> -> bool, hasZ: Geometry<T> -> bool, hasM: Geometry<T> -> bool)

  predicate Alike<T>(e: Shapely<T>, g: Geometry<T>, h: Geometry<T>) {
    e.isEmpty(g) || e.isEmpty(h) || (e.hasZ(g) == e.hasZ(h) && e.hasM(g) == e.hasM(h))
  }

  /** _uniform: every member has z and m alike, at any depth, but for empty ones. */
  predicate Uniform<T>(e: Shapely<T>, g: Geometry<T>) {
    !g.Multi? || (
      && (forall i, j :: 0 <= i < |g.parts| && 0 <= j < |g.parts| ==> Alike(e, g.parts[i], g.parts[j]))
      && (forall i :: 0 <= i < |g.parts| ==> e.isEmpty(g.parts[i]) || Uniform(e, g.parts[i])))
  }

  predicate Whole<T>(e: Shapely<T>, g: Geometry<T>) {
    !g.Multi? || Uniform(e, g)
  }

  /** A unit and the path to it. */
  datatype Unit<T> = Unit(path: seq<nat>, geometry: Geometry<T>)

  /** _units. */
  function UnitsOf<T>(e: Shapely<T>, g: Geometry<T>, path: seq<nat>): seq<Unit<T>>
    decreases g, 0
  {
    if Whole(e, g) then [Unit(path, g)] else UnitsIn(e, g, path, |g.parts|)
  }

  function UnitsIn<T>(e: Shapely<T>, g: Geometry<T>, path: seq<nat>, n: nat): seq<Unit<T>>
    requires g.Multi? && n <= |g.parts|
    decreases g, 0, n
  {
    if n == 0 then [] else UnitsIn(e, g, path, n - 1) + UnitsOf(e, g.parts[n - 1], path + [n - 1])
  }

  /** How many units a geometry is split into. */
  function Count<T>(e: Shapely<T>, g: Geometry<T>): nat
    decreases g, 0
  {
    if Whole(e, g) then 1 else CountIn(e, g, |g.parts|)
  }

  function CountIn<T>(e: Shapely<T>, g: Geometry<T>, n: nat): nat
    requires g.Multi? && n <= |g.parts|
    decreases g, 0, n
  {
    if n == 0 then 0 else CountIn(e, g, n - 1) + Count(e, g.parts[n - 1])
  }

  /** rebuilt: the geometry with its units taken from those given, from the k-th on. */
  function Rebuilt<T>(e: Shapely<T>, g: Geometry<T>, units: seq<Geometry<T>>, k: nat): Geometry<T>
    requires k + Count(e, g) <= |units|
    decreases g, 0
  {
    if Whole(e, g) then units[k] else Multi(g.kind, RebuiltIn(e, g, units, k, |g.parts|))
  }

  function RebuiltIn<T>(e: Shapely<T>, g: Geometry<T>, units: seq<Geometry<T>>, k: nat, n: nat): (r: seq<Geometry<T>>)
    requires g.Multi? && n <= |g.parts| && k + CountIn(e, g, n) <= |units|
    ensures |r| == n
    decreases g, 0, n
  {
    if n == 0 then [] else RebuiltIn(e, g, units, k, n - 1) +
                           [Rebuilt(e, g.parts[n - 1], units, k + CountIn(e, g, n - 1))]
  }

  function Follow<T>(g: Geometry<T>, path: seq<nat>): Option<Geometry<T>>
    decreases |path|
  {
    if path == [] then Some(g)
    else if !g.Multi? || path[0] >= |g.parts| then None
    else Follow(g.parts[path[0]], path[1..])
  }

  // ----- what is split

  /** Where members lie, through no empty one. */
  predicate Reached<T>(e: Shapely<T>, g: Geometry<T>, path: seq<nat>)
    decreases |path|
  {
    path == [] || (g.Multi? && path[0] < |g.parts| && !e.isEmpty(g.parts[path[0]]) &&
                   Reached(e, g.parts[path[0]], path[1..]))
  }

  /** Any two members that are not empty both have z or neither, and both m or neither. */
  predicate MembersAlike<T>(e: Shapely<T>, g: Geometry<T>) {
    g.Multi? ==>
      forall i, j :: 0 <= i < |g.parts| && 0 <= j < |g.parts| && !e.isEmpty(g.parts[i]) && !e.isEmpty(g.parts[j]) ==>
        e.hasZ(g.parts[i]) == e.hasZ(g.parts[j]) && e.hasM(g.parts[i]) == e.hasM(g.parts[j])
  }

  ghost predicate AlikeAt<T>(e: Shapely<T>, g: Geometry<T>, path: seq<nat>) {
    Reached(e, g, path) ==> Follow(g, path).Some? && MembersAlike(e, Follow(g, path).value)
  }

  /** A geometry is left whole exactly where its members are alike wherever they lie. */
  lemma WholeExactly<T>(e: Shapely<T>, g: Geometry<T>)
    ensures Whole(e, g) <==> forall path :: AlikeAt(e, g, path)
  {
    if Whole(e, g) {
      forall path ensures AlikeAt(e, g, path) {
        WholeIsAlike(e, g, path);
      }
    } else {
      var path := UnlikeAt(e, g);
      assert !AlikeAt(e, g, path);
    }
  }

  lemma {:induction false} WholeIsAlike<T>(e: Shapely<T>, g: Geometry<T>, path: seq<nat>)
    requires Whole(e, g)
    ensures AlikeAt(e, g, path)
    decreases |path|
  {
    if path == [] {
      assert g.Multi? ==> forall i, j :: 0 <= i < |g.parts| && 0 <= j < |g.parts| ==> Alike(e, g.parts[i], g.parts[j]);
    } else if Reached(e, g, path) {
      WholeIsAlike(e, g.parts[path[0]], path[1..]);
    }
  }

  lemma {:induction false} UnlikeAt<T>(e: Shapely<T>, g: Geometry<T>) returns (path: seq<nat>)
    requires !Whole(e, g)
    ensures Reached(e, g, path) && Follow(g, path).Some? && !MembersAlike(e, Follow(g, path).value)
    decreases g
  {
    if !MembersAlike(e, g) {
      path := [];
    } else {
      var i :| 0 <= i < |g.parts| && !e.isEmpty(g.parts[i]) && !Uniform(e, g.parts[i]);
      var rest := UnlikeAt(e, g.parts[i]);
      path := [i] + rest;
      assert path[1..] == rest;
    }
  }

  // ----- one geometry

  lemma {:induction false} CountIsUnits<T>(e: Shapely<T>, g: Geometry<T>, path: seq<nat>)
    ensures |UnitsOf(e, g, path)| == Count(e, g)
    decreases g, 0
  {
    if !Whole(e, g) {
      CountInIsUnits(e, g, path, |g.parts|);
    }
  }

  lemma {:induction false} CountInIsUnits<T>(e: Shapely<T>, g: Geometry<T>, path: seq<nat>, n: nat)
    requires g.Multi? && n <= |g.parts|
    ensures |UnitsIn(e, g, path, n)| == CountIn(e, g, n)
    decreases g, 0, n
  {
    if n > 0 {
      CountInIsUnits(e, g, path, n - 1);
      CountIsUnits(e, g.parts[n - 1], path + [n - 1]);
    }
  }

  /** Every unit is simple, or has members alike. */
  lemma {:induction false} UnitsAreWhole<T>(e: Shapely<T>, g: Geometry<T>, path: seq<nat>)
    ensures forall j :: 0 <= j < |UnitsOf(e, g, path)| ==> Whole(e, UnitsOf(e, g, path)[j].geometry)
    decreases g, 0
  {
    if !Whole(e, g) {
      UnitsInAreWhole(e, g, path, |g.parts|);
    }
  }

  lemma {:induction false} UnitsInAreWhole<T>(e: Shapely<T>, g: Geometry<T>, path: seq<nat>, n: nat)
    requires g.Multi? && n <= |g.parts|
    ensures forall j :: 0 <= j < |UnitsIn(e, g, path, n)| ==> Whole(e, UnitsIn(e, g, path, n)[j].geometry)
    decreases g, 0, n
  {
    if n > 0 {
      UnitsInAreWhole(e, g, path, n - 1);
      UnitsAreWhole(e, g.parts[n - 1], path + [n - 1]);
    }
  }

  /** Each unit given lands where the one split off was: the j-th unit's path leads to the j-th given. */
  lemma {:induction false} UnitsLandWhereTheyWere<T>(e: Shapely<T>, g: Geometry<T>, path: seq<nat>,
                                                     units: seq<Geometry<T>>, k: nat, j: nat)
    requires k + Count(e, g) <= |units| && j < |UnitsOf(e, g, path)|
    ensures path <= UnitsOf(e, g, path)[j].path && k + j < |units|
    ensures Follow(g, UnitsOf(e, g, path)[j].path[|path|..]) == Some(UnitsOf(e, g, path)[j].geometry)
    ensures Follow(Rebuilt(e, g, units, k), UnitsOf(e, g, path)[j].path[|path|..]) == Some(units[k + j])
    decreases g, 0
  {
    CountIsUnits(e, g, path);
    if !Whole(e, g) {
      LandIn(e, g, path, units, k, |g.parts|, j);
    }
  }

  lemma {:induction false} LandIn<T>(e: Shapely<T>, g: Geometry<T>, path: seq<nat>, units: seq<Geometry<T>>, k: nat,
                                     n: nat, j: nat)
    requires g.Multi? && !Whole(e, g) && n <= |g.parts| && k + CountIn(e, g, n) <= |units| &&
      j < |UnitsIn(e, g, path, n)|
    ensures var at := UnitsIn(e, g, path, n)[j].path;
            path < at && k + j < |units| && at[|path|] < n
            && Follow(g.parts[at[|path|]], at[|path| + 1..]) == Some(UnitsIn(e, g, path, n)[j].geometry)
            && Follow(RebuiltIn(e, g, units, k, n)[at[|path|]], at[|path| + 1..]) == Some(units[k + j])
    decreases g, 0, n
  {
    CountInIsUnits(e, g, path, n - 1);
    if j < CountIn(e, g, n - 1) {
      LandIn(e, g, path, units, k, n - 1, j);
    } else {
      UnitsLandWhereTheyWere(e, g.parts[n - 1], path + [n - 1], units, k + CountIn(e, g, n - 1),
                             j - CountIn(e, g, n - 1));
    }
  }

  /** Joined with the units as they were split off, a geometry is as it was. */
  lemma {:induction false} RejoinedAsItWas<T>(e: Shapely<T>, g: Geometry<T>, path: seq<nat>, units: seq<Geometry<T>>,
                                              k: nat)
    requires k + Count(e, g) <= |units|
    requires forall j :: 0 <= j < |UnitsOf(e, g, path)| && k + j < |units| ==>
      units[k + j] == UnitsOf(e, g, path)[j].geometry
    ensures Rebuilt(e, g, units, k) == g
    decreases g, 0
  {
    CountIsUnits(e, g, path);
    if Whole(e, g) {
      assert units[k + 0] == UnitsOf(e, g, path)[0].geometry;
    } else {
      RejoinedIn(e, g, path, units, k, |g.parts|);
      assert g.parts[..|g.parts|] == g.parts;
    }
  }

  lemma {:induction false} RejoinedIn<T>(e: Shapely<T>, g: Geometry<T>, path: seq<nat>, units: seq<Geometry<T>>, k: nat,
                                         n: nat)
    requires g.Multi? && n <= |g.parts| && k + CountIn(e, g, n) <= |units|
    requires forall j :: 0 <= j < |UnitsIn(e, g, path, n)| && k + j < |units| ==>
      units[k + j] == UnitsIn(e, g, path, n)[j].geometry
    ensures RebuiltIn(e, g, units, k, n) == g.parts[..n]
    decreases g, 0, n
  {
    if n == 0 {
      return;
    }
    var before, last := UnitsIn(e, g, path, n - 1), UnitsOf(e, g.parts[n - 1], path + [n - 1]);
    CountInIsUnits(e, g, path, n - 1);
    assert UnitsIn(e, g, path, n) == before + last;
    forall j | 0 <= j < |before| && k + j < |units| ensures units[k + j] == before[j].geometry {
      assert UnitsIn(e, g, path, n)[j] == before[j];
    }
    forall j | 0 <= j < |last| && k + |before| + j < |units| ensures units[k + |before| + j] == last[j].geometry {
      assert UnitsIn(e, g, path, n)[|before| + j] == last[j];
    }
    RejoinedIn(e, g, path, units, k, n - 1);
    RejoinedAsItWas(e, g.parts[n - 1], path + [n - 1], units, k + |before|);
  }

  // ----- arrays of geometries

  /** The units of the first n geometries, each path led by its geometry's index. */
  function AllUnits<T>(e: Shapely<T>, gs: seq<Geometry<T>>, n: nat): seq<Unit<T>>
    requires n <= |gs|
  {
    if n == 0 then [] else AllUnits(e, gs, n - 1) + UnitsOf(e, gs[n - 1], [n - 1])
  }

  function CountAll<T>(e: Shapely<T>, gs: seq<Geometry<T>>, n: nat): nat
    requires n <= |gs|
  {
    if n == 0 then 0 else CountAll(e, gs, n - 1) + Count(e, gs[n - 1])
  }

  lemma {:induction false} CountAllIsUnits<T>(e: Shapely<T>, gs: seq<Geometry<T>>, n: nat)
    requires n <= |gs|
    ensures |AllUnits(e, gs, n)| == CountAll(e, gs, n)
  {
    if n > 0 {
      CountAllIsUnits(e, gs, n - 1);
      CountIsUnits(e, gs[n - 1], [n - 1]);
    }
  }

  predicate AllWhole<T>(e: Shapely<T>, gs: seq<Geometry<T>>) {
    forall i :: 0 <= i < |gs| ==> Whole(e, gs[i])
  }

  function Geometries<T>(units: seq<Unit<T>>): (gs: seq<Geometry<T>>)
    ensures |gs| == |units|
  {
    seq(|units|, i requires 0 <= i < |units| => units[i].geometry)
  }

  function Paths<T>(units: seq<Unit<T>>): (ps: seq<seq<nat>>)
    ensures |ps| == |units|
  {
    seq(|units|, i requires 0 <= i < |units| => units[i].path)
  }

  /** _split: the geometries as they are where all have members alike, else their units and where each is from. */
  method Split<T>(e: Shapely<T>, gs: seq<Geometry<T>>) returns (units: seq<Geometry<T>>, origins: Option<seq<seq<nat>>>)
    ensures origins.None? <==> forall i :: 0 <= i < |gs| ==> Whole(e, gs[i])
    ensures forall j :: 0 <= j < |units| ==> Whole(e, units[j])
    ensures origins.None? ==> units == gs
    ensures origins.Some? ==> units == Geometries(AllUnits(e, gs, |gs|)) &&
                              origins.value == Paths(AllUnits(e, gs, |gs|))
  {
    if AllWhole(e, gs) {
      return gs, None;
    }
    units := [];
    var paths: seq<seq<nat>> := [];
    hide UnitsOf;
    for index := 0 to |gs|
      invariant units == Geometries(AllUnits(e, gs, index)) && paths == Paths(AllUnits(e, gs, index))
    {
      var some := UnitsOf(e, gs[index], [index]);
      units, paths := Extended(AllUnits(e, gs, index), some, units, paths);
    }
    AllUnitsAreWhole(e, gs, |gs|);
    origins := Some(paths);
  }

  lemma {:induction false} AllUnitsAreWhole<T>(e: Shapely<T>, gs: seq<Geometry<T>>, n: nat)
    requires n <= |gs|
    ensures forall j :: 0 <= j < |AllUnits(e, gs, n)| ==> Whole(e, AllUnits(e, gs, n)[j].geometry)
  {
    hide Whole, UnitsOf;
    if n > 0 {
      AllUnitsAreWhole(e, gs, n - 1);
      UnitsAreWhole(e, gs[n - 1], [n - 1]);
    }
  }

  /** Units and their paths put after those before. */
  method Extended<T>(ghost before: seq<Unit<T>>, some: seq<Unit<T>>, units: seq<Geometry<T>>, paths: seq<seq<nat>>)
    returns (us: seq<Geometry<T>>, ps: seq<seq<nat>>)
    requires units == Geometries(before) && paths == Paths(before)
    ensures us == Geometries(before + some) && ps == Paths(before + some)
  {
    us, ps := units, paths;
    for k := 0 to |some|
      invariant us == Geometries(before + some[..k]) && ps == Paths(before + some[..k])
    {
      assert before + some[..k + 1] == (before + some[..k]) + [some[k]];
      us, ps := us + [some[k].geometry], ps + [some[k].path];
    }
    assert some[..|some|] == some;
  }

  /** The geometries rebuilt from units, which each takes in turn. */
  function Joined<T>(e: Shapely<T>, gs: seq<Geometry<T>>, units: seq<Geometry<T>>, n: nat): (r: seq<Geometry<T>>)
    requires n <= |gs| && CountAll(e, gs, n) <= |units|
    ensures |r| == n
  {
    if n == 0 then [] else Joined(e, gs, units, n - 1) + [Rebuilt(e, gs[n - 1], units, CountAll(e, gs, n - 1))]
  }

  /** _join: an iterator over the units, none left and none wanting. */
  method Join<T>(e: Shapely<T>, gs: seq<Geometry<T>>, units: seq<Geometry<T>>,
                 split: bool) returns (out: seq<Geometry<T>>)
    requires split ==> |units| == CountAll(e, gs, |gs|)
    ensures if split then out == Joined(e, gs, units, |gs|) else out == units
  {
    if !split {
      return units;
    }
    out := [];
    var next := 0;
    for i := 0 to |gs|
      invariant next == CountAll(e, gs, i) && next <= |units| && out == Joined(e, gs, units, i)
    {
      CountsGrow(e, gs, i + 1, |gs|);
      var g;
      g, next := Rebuild(e, gs[i], units, next);
      out := out + [g];
    }
  }

  method Rebuild<T>(e: Shapely<T>, g: Geometry<T>, units: seq<Geometry<T>>, from: nat)
    returns (out: Geometry<T>, next: nat)
    requires from + Count(e, g) <= |units|
    ensures out == Rebuilt(e, g, units, from) && next == from + Count(e, g)
    decreases g
  {
    if !g.Multi? || Uniform(e, g) {
      return units[from], from + 1;
    }
    hide Uniform;
    next := from;
    var members: seq<Geometry<T>> := [];
    for i := 0 to |g.parts|
      invariant from + CountIn(e, g, i) == next <= |units| && members == RebuiltIn(e, g, units, from, i)
    {
      CountsInGrow(e, g, i + 1, |g.parts|);
      var member;
      member, next := Rebuild(e, g.parts[i], units, next);
      members := members + [member];
    }
    out := Multi(g.kind, members);
  }

  lemma {:induction false} CountsInGrow<T>(e: Shapely<T>, g: Geometry<T>, m: nat, n: nat)
    requires g.Multi? && m <= n <= |g.parts|
    ensures CountIn(e, g, m) <= CountIn(e, g, n)
    decreases n
  {
    if m < n {
      CountsInGrow(e, g, m, n - 1);
    }
  }

  lemma {:induction false} CountsGrow<T>(e: Shapely<T>, gs: seq<Geometry<T>>, m: nat, n: nat)
    requires m <= n <= |gs|
    ensures CountAll(e, gs, m) <= CountAll(e, gs, n)
    decreases n
  {
    if m < n {
      CountsGrow(e, gs, m, n - 1);
    }
  }

  /** Split and joined, geometries are as they were. */
  lemma {:induction false} SplitThenJoined<T>(e: Shapely<T>, gs: seq<Geometry<T>>, n: nat)
    requires n <= |gs|
    ensures CountAll(e, gs, n) <= |AllUnits(e, gs, |gs|)|
    ensures Joined(e, gs, Geometries(AllUnits(e, gs, |gs|)), n) == gs[..n]
  {
    hide *;
    AllFit(e, gs, n);
    if n == 0 {
      NoneJoined(e, gs, Geometries(AllUnits(e, gs, |gs|)));
      return;
    }
    SplitThenJoined(e, gs, n - 1);
    UnitsFit(e, gs, n - 1);
    OneRejoined(e, gs, n - 1);
    JoinedNext(e, gs, Geometries(AllUnits(e, gs, |gs|)), n);
    assert gs[..n] == gs[..n - 1] + [gs[n - 1]];
  }

  lemma AllFit<T>(e: Shapely<T>, gs: seq<Geometry<T>>, n: nat)
    requires n <= |gs|
    ensures CountAll(e, gs, n) <= |AllUnits(e, gs, |gs|)|
  {
    CountsGrow(e, gs, n, |gs|);
    CountAllIsUnits(e, gs, |gs|);
  }

  lemma NoneJoined<T>(e: Shapely<T>, gs: seq<Geometry<T>>, units: seq<Geometry<T>>)
    ensures CountAll(e, gs, 0) == 0 && Joined(e, gs, units, 0) == []
  {}

  lemma JoinedNext<T>(e: Shapely<T>, gs: seq<Geometry<T>>, units: seq<Geometry<T>>, n: nat)
    requires 0 < n <= |gs| && CountAll(e, gs, n) <= |units|
    ensures CountAll(e, gs, n) == CountAll(e, gs, n - 1) + Count(e, gs[n - 1])
    ensures Joined(e, gs, units, n) == Joined(e, gs, units, n - 1) +
      [Rebuilt(e, gs[n - 1], units, CountAll(e, gs, n - 1))]
  {}

  lemma GeometryAt<T>(units: seq<Unit<T>>, i: nat)
    requires i < |units|
    ensures Geometries(units)[i] == units[i].geometry
  {}

  /** A geometry's units are among all of them. */
  lemma UnitsFit<T>(e: Shapely<T>, gs: seq<Geometry<T>>, i: nat)
    requires i < |gs|
    ensures CountAll(e, gs, i) + Count(e, gs[i]) <= |AllUnits(e, gs, |gs|)|
  {
    CountsGrow(e, gs, i + 1, |gs|);
    CountAllIsUnits(e, gs, |gs|);
  }

  lemma OneRejoined<T>(e: Shapely<T>, gs: seq<Geometry<T>>, i: nat)
    requires i < |gs|
    requires CountAll(e, gs, i) + Count(e, gs[i]) <= |AllUnits(e, gs, |gs|)|
    ensures Rebuilt(e, gs[i], Geometries(AllUnits(e, gs, |gs|)), CountAll(e, gs, i)) == gs[i]
  {
    hide *;
    var all := AllUnits(e, gs, |gs|);
    var some, start := UnitsOf(e, gs[i], [i]), CountAll(e, gs, i);
    forall j: nat | j < |some| && start + j < |all| ensures Geometries(all)[start + j] == some[j].geometry {
      UnitAmongAll(e, gs, |gs|, i, j);
      GeometryAt(all, start + j);
    }
    RejoinedAsItWas(e, gs[i], [i], Geometries(all), start);
  }

  lemma {:induction false} UnitAmongAll<T>(e: Shapely<T>, gs: seq<Geometry<T>>, n: nat, i: nat, j: nat)
    requires i < n <= |gs| && j < |UnitsOf(e, gs[i], [i])|
    ensures CountAll(e, gs, i) + j < |AllUnits(e, gs, n)|
    ensures AllUnits(e, gs, n)[CountAll(e, gs, i) + j] == UnitsOf(e, gs[i], [i])[j]
    decreases n
  {
    CountAllIsUnits(e, gs, n - 1);
    if i < n - 1 {
      UnitAmongAll(e, gs, n - 1, i, j);
    }
  }

  lemma {:induction false} JoinedAt<T>(e: Shapely<T>, gs: seq<Geometry<T>>, units: seq<Geometry<T>>, n: nat, i: nat)
    requires i < n <= |gs| && CountAll(e, gs, n) <= |units|
    ensures CountAll(e, gs, i) + Count(e, gs[i]) <= |units| &&
      Joined(e, gs, units, n)[i] == Rebuilt(e, gs[i], units, CountAll(e, gs, i))
    decreases n
  {
    if i < n - 1 {
      JoinedAt(e, gs, units, n - 1, i);
    }
  }

  /** Every changed unit lands where the unit it was changed from was: down its origin's path. */
  lemma ChangedUnitsLand<T>(e: Shapely<T>, gs: seq<Geometry<T>>, units: seq<Geometry<T>>, i: nat, j: nat)
    requires i < |gs| && |units| == CountAll(e, gs, |gs|) && j < |UnitsOf(e, gs[i], [i])|
    ensures var at := CountAll(e, gs, i) + j;
            at < |units| && at < |AllUnits(e, gs, |gs|)|
            && var path := AllUnits(e, gs, |gs|)[at].path;
            [i] <= path && Follow(gs[i], path[1..]) == Some(AllUnits(e, gs, |gs|)[at].geometry)
            && Follow(Joined(e, gs, units, |gs|)[i], path[1..]) == Some(units[at])
  {
    CountAllIsUnits(e, gs, |gs|);
    UnitAmongAll(e, gs, |gs|, i, j);
    JoinedAt(e, gs, units, |gs|, i);
    UnitsLandWhereTheyWere(e, gs[i], [i], units, CountAll(e, gs, i), j);
  }
}
