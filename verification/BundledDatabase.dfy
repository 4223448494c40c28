module BundledDatabase {
  // Switching the bundled database on and off
  // (geodetic_engine/_bundled_database.py, `use_bundled_database`).

  import opened Options

  const SEPARATOR := ':'

  type Entry = string

  /** What the file system says: a directory's key (its real path, case folded), whether it
      holds a proj.db, and the bundled database's directory where one is installed. */
  datatype Disk = Disk(key: Entry -> string, holds: Entry -> bool, bundled: Option<Entry>) {
    predicate Same(a: Entry, b: Entry) {
      key(a) == key(b)
    }

    ghost predicate Valid() {
      bundled.Some? ==> Clean(bundled.value) && holds(bundled.value)
    }
  }

  // ----- search path text

  predicate Clean(e: Entry) {
    e != "" && SEPARATOR !in e
  }

  ghost predicate AllClean(entries: seq<Entry>) {
    forall i :: 0 <= i < |entries| ==> Clean(entries[i])
  }

  function FirstSeparator(s: string): (i: nat)
    ensures i <= |s| && (forall k :: 0 <= k < i ==> s[k] != SEPARATOR) && (i < |s| ==> s[i] == SEPARATOR)
  {
    if s == "" || s[0] == SEPARATOR then 0
    else 1 + FirstSeparator(s[1..])
  }

  /** The non-empty pieces between separators. */
  function Split(s: string): (r: seq<Entry>)
    ensures AllClean(r)
    decreases |s|
  {
    if s == "" then [] else
      var i := FirstSeparator(s);
      (if i == 0 then [] else [s[..i]]) + (if i == |s| then [] else Split(s[i + 1..]))
  }

  function SplitPath(path: Option<string>): seq<Entry> {
    if path.None? then [] else Split(path.value)
  }

  function Join(entries: seq<Entry>): string {
    if entries == [] then ""
    else if |entries| == 1 then entries[0]
    else entries[0] + [SEPARATOR] + Join(entries[1..])
  }

  lemma FirstOfEntry(e: Entry, rest: string)
    requires SEPARATOR !in e
    ensures FirstSeparator(e + [SEPARATOR] + rest) == |e|
    ensures FirstSeparator(e) == |e|
  {
    var s := e + [SEPARATOR] + rest;
    assert s[|e|] == SEPARATOR && forall k :: 0 <= k < |e| ==> s[k] == e[k] != SEPARATOR;
  }

  /** Splitting what was joined gives the entries back. */
  lemma {:induction false} SplitJoined(entries: seq<Entry>)
    requires AllClean(entries)
    ensures Split(Join(entries)) == entries
  {
    if |entries| == 1 {
      FirstOfEntry(entries[0], "");
      assert entries[0][..|entries[0]|] == entries[0];
    } else if |entries| > 1 {
      var e, rest := entries[0], Join(entries[1..]);
      var s := e + [SEPARATOR] + rest;
      FirstOfEntry(e, rest);
      assert s[..|e|] == e && s[|e| + 1..] == rest;
      SplitJoined(entries[1..]);
    }
  }

  // ----- _unique and _database_first

  /** The entries, each key once, where it comes first; `seen` are keys met before. */
  function UniqueFrom(disk: Disk, entries: seq<Entry>, seen: set<string>): (r: seq<Entry>)
    ensures AllClean(entries) ==> AllClean(r)
  {
    if entries == [] then []
    else if disk.key(entries[0]) in seen then UniqueFrom(disk, entries[1..], seen)
    else
      var rest := UniqueFrom(disk, entries[1..], seen + {disk.key(entries[0])});
      assert AllClean(entries) ==> AllClean(rest) && Clean(entries[0]);
      [entries[0]] + rest
  }

  ghost predicate Distinct(disk: Disk, entries: seq<Entry>) {
    forall i, j :: 0 <= i < j < |entries| ==> !disk.Same(entries[i], entries[j])
  }

  ghost predicate HasKey(disk: Disk, entries: seq<Entry>, key: string) {
    exists i :: 0 <= i < |entries| && disk.key(entries[i]) == key
  }

  /** The result has each key once, none of those seen before, and every other key given. */
  lemma {:induction false} UniqueIsDistinct(disk: Disk, entries: seq<Entry>, seen: set<string>)
    ensures Distinct(disk, UniqueFrom(disk, entries, seen))
    ensures forall key :: HasKey(disk, UniqueFrom(disk, entries, seen), key) <==>
      key !in seen && HasKey(disk, entries, key)
  {
    if entries == [] {
      return;
    }
    var rest := entries[1..];
    forall key ensures HasKey(disk, entries, key) <==> disk.key(entries[0]) == key || HasKey(disk, rest, key) {
      HasKeyFirst(disk, entries, key);
    }
    var now := if disk.key(entries[0]) in seen then seen else seen + {disk.key(entries[0])};
    UniqueIsDistinct(disk, rest, now);
    if disk.key(entries[0]) !in seen {
      var r := UniqueFrom(disk, rest, now);
      var all := [entries[0]] + r;
      assert all[1..] == r;
      forall key ensures HasKey(disk, all, key) <==> disk.key(entries[0]) == key || HasKey(disk, r, key) {
        HasKeyFirst(disk, all, key);
      }
      DistinctFirst(disk, entries[0], r);
    }
  }

  lemma DistinctFirst(disk: Disk, e: Entry, rest: seq<Entry>)
    requires Distinct(disk, rest) && !HasKey(disk, rest, disk.key(e))
    ensures Distinct(disk, [e] + rest)
  {}

  lemma HasKeyFirst(disk: Disk, entries: seq<Entry>, key: string)
    requires entries != []
    ensures HasKey(disk, entries, key) <==> disk.key(entries[0]) == key || HasKey(disk, entries[1..], key)
  {
    if HasKey(disk, entries[1..], key) {
      var i :| 0 <= i < |entries[1..]| && disk.key(entries[1..][i]) == key;
      assert disk.key(entries[i + 1]) == key;
    }
    if HasKey(disk, entries, key) && disk.key(entries[0]) != key {
      var i :| 0 <= i < |entries| && disk.key(entries[i]) == key;
      assert disk.key(entries[1..][i - 1]) == key;
    }
  }

  /** Entries already distinct, and none of them seen, stay as they are. */
  lemma {:induction false} UniqueKeepsDistinct(disk: Disk, entries: seq<Entry>, seen: set<string>)
    requires Distinct(disk, entries)
    requires forall i :: 0 <= i < |entries| ==> disk.key(entries[i]) !in seen
    ensures UniqueFrom(disk, entries, seen) == entries
  {
    if entries != [] {
      UniqueKeepsDistinct(disk, entries[1..], seen + {disk.key(entries[0])});
    }
  }

  method Unique(disk: Disk, entries: seq<Entry>) returns (found: seq<Entry>)
    ensures found == UniqueFrom(disk, entries, {})
  {
    var seen: set<string> := {};
    found := [];
    for i := 0 to |entries|
      invariant found + UniqueFrom(disk, entries[i..], seen) == UniqueFrom(disk, entries, {})
    {
      var key := disk.key(entries[i]);
      assert entries[i..][0] == entries[i] && entries[i..][1..] == entries[i + 1..];
      if key !in seen {
        seen := seen + {key};
        found := found + [entries[i]];
      }
    }
  }

  function FirstHolder(disk: Disk, entries: seq<Entry>): (i: nat)
    ensures i <= |entries| && (i < |entries| ==> disk.holds(entries[i]))
    ensures forall j :: 0 <= j < i ==> !disk.holds(entries[j])
  {
    if entries == [] || disk.holds(entries[0]) then 0 else 1 + FirstHolder(disk, entries[1..])
  }

  /** The first directory holding a proj.db moved to the front; None where none does. */
  function Fronted(disk: Disk, entries: seq<Entry>): (r: Option<seq<Entry>>)
    ensures r.None? <==> forall i :: 0 <= i < |entries| ==> !disk.holds(entries[i])
    ensures r.Some? ==> |r.value| == |entries| > 0 && disk.holds(r.value[0])
    ensures r.Some? && AllClean(entries) ==> AllClean(r.value)
  {
    var i := FirstHolder(disk, entries);
    if i == |entries| then None else Some([entries[i]] + entries[..i] + entries[i + 1..])
  }

  lemma ToFront<T>(s: seq<T>, i: nat)
    requires i < |s|
    ensures multiset([s[i]] + s[..i] + s[i + 1..]) == multiset(s)
  {
    assert s == s[..i] + [s[i]] + s[i + 1..];
  }

  lemma FrontedKeeps(disk: Disk, entries: seq<Entry>)
    requires Fronted(disk, entries).Some?
    ensures multiset(Fronted(disk, entries).value) == multiset(entries)
    ensures Fronted(disk, entries).value == entries <==> disk.holds(entries[0])
  {
    var i := FirstHolder(disk, entries);
    ToFront(entries, i);
    if i == 0 {
      assert [entries[0]] + entries[..0] + entries[1..] == entries;
    }
  }

  method DatabaseFirst(disk: Disk, entries: seq<Entry>) returns (r: Option<seq<Entry>>)
    ensures r == Fronted(disk, entries)
  {
    for i := 0 to |entries|
      invariant forall j :: 0 <= j < i ==> !disk.holds(entries[j])
    {
      if disk.holds(entries[i]) {
        return Some([entries[i]] + entries[..i] + entries[i + 1..]);
      }
    }
    return None;
  }

  // ----- use_bundled_database

  datatype Choice = Choice(seen: Option<string>, restore: Option<string>)

  datatype State = State(path: Option<string>, choice: Option<Choice>)

  datatype Outcome = Done | NotFound

  function Dropped(disk: Disk, entries: seq<Entry>, bundled: Entry): (r: seq<Entry>)
    ensures AllClean(entries) ==> AllClean(r)
    ensures forall e :: e in r <==> e in entries && !disk.Same(e, bundled)
  {
    if entries == [] then []
    else
      var rest := Dropped(disk, entries[1..], bundled);
      assert AllClean(entries) ==> AllClean(entries[1..]) && Clean(entries[0]);
      if disk.Same(entries[0], bundled) then rest else [entries[0]] + rest
  }

  predicate OnPath(disk: Disk, entries: seq<Entry>, bundled: Entry) {
    exists i :: 0 <= i < |entries| && disk.Same(entries[i], bundled)
  }

  predicate AsLeft(s: State) {
    s.choice.Some? && s.path == s.choice.value.seen
  }

  function SwitchedOn(disk: Disk, s: State): (State, Outcome) {
    var entries := SplitPath(s.path);
    if disk.bundled.None? then (s, NotFound)
    else
      var restore := if entries == [] || !disk.Same(entries[0], disk.bundled.value) then s.path
                     else if AsLeft(s) then s.choice.value.restore
                     else None;
      var path := Some(Join(UniqueFrom(disk, [disk.bundled.value] + entries, {})));
      (State(path, Some(Choice(path, restore))), Done)
  }

  function SwitchedOff(disk: Disk, s: State): (State, Outcome) {
    var entries := SplitPath(s.path);
    if disk.bundled.None? || !OnPath(disk, entries, disk.bundled.value) then
      (State(s.path, Some(Choice(s.path, None))), Done)
    else
      var search := Fronted(disk, if AsLeft(s) && s.choice.value.restore.Some? then SplitPath(s.choice.value.restore)
                                  else Dropped(disk, entries, disk.bundled.value));
      if search.None? then (s, NotFound)
      else
        var path := Some(Join(search.value));
        (State(path, Some(Choice(path, None))), Done)
  }

  function Switched(disk: Disk, s: State, enabled: bool): (State, Outcome) {
    if enabled then SwitchedOn(disk, s) else SwitchedOff(disk, s)
  }

  /** PROJ's search path, and the choice made of it last. */
  class SearchPath {
    var path: Option<string>
    var choice: Option<Choice>

    constructor (path: Option<string>, choice: Option<Choice>)
      ensures this.path == path && this.choice == choice
    {
      this.path, this.choice := path, choice;
    }

    function Now(): State
      reads this
    {
      State(path, choice)
    }

    method UseBundledDatabase(disk: Disk, enabled: bool) returns (o: Outcome)
      modifies this
      ensures (Now(), o) == Switched(disk, old(Now()), enabled)
    {
      var current := path;
      var entries := SplitPath(current);
      var restore: Option<string> := None;
      if enabled {
        if disk.bundled.None? {
          return NotFound;
        }
        if entries == [] || !disk.Same(entries[0], disk.bundled.value) {
          restore := current;
        } else if choice.Some? && current == choice.value.seen {
          restore := choice.value.restore;
        }
        var search := Unique(disk, [disk.bundled.value] + entries);
        path := Some(Join(search));
      } else if disk.bundled.Some? && OnPath(disk, entries, disk.bundled.value) {
        var search;
        if choice.Some? && choice.value.restore.Some? && current == choice.value.seen {
          search := DatabaseFirst(disk, SplitPath(choice.value.restore));
        } else {
          search := DatabaseFirst(disk, Dropped(disk, entries, disk.bundled.value));
        }
        if search.None? {
          return NotFound;
        }
        path := Some(Join(search.value));
      }
      choice := Some(Choice(path, restore));
      return Done;
    }
  }

  // ----- on and off again

  /** What the path is before anything is switched: text without empty entries, its
      directories distinct and headed by a database, the bundled one not among them. */
  ghost predicate Ordinary(disk: Disk, original: string) {
    var entries := Split(original);
    && Join(entries) == original && entries != [] && disk.holds(entries[0]) && Distinct(disk, entries)
    && disk.bundled.Some? && !OnPath(disk, entries, disk.bundled.value)
  }

  ghost predicate IsOn(disk: Disk, original: string, s: State)
    requires disk.bundled.Some?
  {
    && s.path == Some(Join([disk.bundled.value] + Split(original)))
    && s.choice == Some(Choice(s.path, Some(original)))
  }

  lemma BundledFirst(disk: Disk, original: string)
    requires disk.Valid() && Ordinary(disk, original)
    ensures var entries := [disk.bundled.value] + Split(original);
      && Split(Join(entries)) == entries && Distinct(disk, entries)
      && UniqueFrom(disk, entries, {}) == entries
      && UniqueFrom(disk, [disk.bundled.value] + entries, {}) == entries
  {
    var b, rest := disk.bundled.value, Split(original);
    var entries := [b] + rest;
    assert AllClean(entries);
    SplitJoined(entries);
    assert Distinct(disk, entries);
    UniqueKeepsDistinct(disk, entries, {});
    assert ([b] + entries)[1..] == entries && entries[1..] == rest;
    UniqueKeepsDistinct(disk, rest, {disk.key(b)});
  }

  ghost predicate IsOff(original: string, s: State) {
    s.path == Some(original)
  }

  lemma OnKeepsOn(disk: Disk, original: string, s: State)
    requires disk.Valid() && Ordinary(disk, original) && (IsOff(original, s) || IsOn(disk, original, s))
    ensures Switched(disk, s, true).1 == Done && IsOn(disk, original, Switched(disk, s, true).0)
  {
    var entries := [disk.bundled.value] + Split(original);
    BundledFirst(disk, original);
    if IsOff(original, s) {
      assert !disk.Same(Split(original)[0], disk.bundled.value);
    } else {
      assert disk.Same(entries[0], disk.bundled.value);
    }
    hide Split, Join, UniqueFrom, Distinct;
  }

  lemma OffKeepsOff(disk: Disk, original: string, s: State)
    requires disk.Valid() && Ordinary(disk, original) && (IsOff(original, s) || IsOn(disk, original, s))
    ensures Switched(disk, s, false).1 == Done && IsOff(original, Switched(disk, s, false).0)
  {
    if IsOn(disk, original, s) {
      var entries := [disk.bundled.value] + Split(original);
      BundledFirst(disk, original);
      FrontedKeeps(disk, Split(original));
      assert disk.Same(entries[0], disk.bundled.value);
      hide Split, Join, Fronted, Distinct, UniqueFrom, Dropped;
      assert OnPath(disk, entries, disk.bundled.value);
    }
    hide Split, Join, Fronted, Distinct, UniqueFrom, Dropped;
  }

  lemma StepBetween(disk: Disk, original: string, s: State, enabled: bool)
    requires disk.Valid() && Ordinary(disk, original) && (IsOff(original, s) || IsOn(disk, original, s))
    ensures Switched(disk, s, enabled).1 == Done
    ensures var after := Switched(disk, s, enabled).0;
      if enabled then IsOn(disk, original, after) else IsOff(original, after)
  {
    hide *;
    if enabled {
      OnKeepsOn(disk, original, s);
    } else {
      OffKeepsOff(disk, original, s);
    }
  }

  function Run(disk: Disk, s: State, calls: seq<bool>): State {
    if calls == [] then s else Switched(disk, Run(disk, s, calls[..|calls| - 1]), calls[|calls| - 1]).0
  }

  /** Over every sequence of calls, the path is the bundled directory followed by the
      original after each call that switches on, and the original after each that switches
      off; no call fails. */
  lemma {:induction false} OnAndOffAgain(disk: Disk, original: string, s: State, calls: seq<bool>)
    requires disk.Valid() && Ordinary(disk, original) && s.path == Some(original)
    ensures calls == [] || !calls[|calls| - 1] ==> Run(disk, s, calls).path == Some(original)
    ensures calls != [] && calls[|calls| - 1] ==> IsOn(disk, original, Run(disk, s, calls))
    ensures calls != [] ==> Switched(disk, Run(disk, s, calls[..|calls| - 1]), calls[|calls| - 1]).1 == Done
  {
    if calls == [] {
      return;
    }
    OnAndOffAgain(disk, original, s, calls[..|calls| - 1]);
    StepBetween(disk, original, Run(disk, s, calls[..|calls| - 1]), calls[|calls| - 1]);
  }

  predicate Headed(disk: Disk, path: Option<string>)
    requires disk.bundled.Some?
  {
    var entries := SplitPath(path);
    entries != [] && disk.Same(entries[0], disk.bundled.value)
  }

  /** The path to go back to that switching on remembers: the one there is, or where the bundled directory
      heads it already, what an earlier switch remembered, unless someone else set the path since. */
  function Remembered(disk: Disk, s: State): Option<string>
    requires disk.bundled.Some?
  {
    if !Headed(disk, s.path) then s.path
    else if s.choice.Some? && s.path == s.choice.value.seen then s.choice.value.restore
    else None
  }

  /** What a path must be for switching on and off to give its very text back. Where the bundled directory
      does not head it: no empty entry, and a database in its first directory. Where it does: a path to go
      back to that is remembered, and is this one once its first holder is at the front. */
  ghost predicate GivenBack(disk: Disk, s: State)
    requires disk.bundled.Some?
  {
    && s.path.Some?
    && if !Headed(disk, s.path) then
         var entries := Split(s.path.value);
         Join(entries) == s.path.value && entries != [] && disk.holds(entries[0])
       else
         && s.choice.Some? && s.path == s.choice.value.seen && s.choice.value.restore.Some?
         && var front := Fronted(disk, Split(s.choice.value.restore.value));
            front.Some? && s.path.value == Join(front.value)
  }

  /** From any path, switching on and then off gives the very text back exactly where it is such a path.
      Otherwise it gives the remembered entries with the first holder moved to the front, or where none are
      remembered drops the bundled directory; and fails where no directory is left that holds a database. */
  lemma OnThenOff(disk: Disk, s: State)
    requires disk.Valid() && disk.bundled.Some?
    ensures var off := Switched(disk, Switched(disk, s, true).0, false);
      && (off.1 == Done && off.0.path == s.path <==> GivenBack(disk, s))
      && match Remembered(disk, s)
         case Some(text) =>
           var front := Fronted(disk, Split(text));
           && (off.1 == NotFound <==> front.None?)
           && (off.1 == Done ==> off.0.path == Some(Join(front.value)))
         case None => off.1 == Done ==> !OnPath(disk, SplitPath(off.0.path), disk.bundled.value)
  {
    if Remembered(disk, s).Some? {
      RememberedComesBack(disk, s);
    } else {
      NothingRemembered(disk, s);
    }
    hide Switched, Fronted, Split, Join, Remembered;
  }

  /** Switching on leaves the bundled directory first, and on the path. */
  lemma NowOn(disk: Disk, s: State)
    requires disk.Valid() && disk.bundled.Some?
    ensures var (on, outcome) := Switched(disk, s, true);
      var joined := UniqueFrom(disk, [disk.bundled.value] + SplitPath(s.path), {});
      && outcome == Done && on.path == Some(Join(joined)) && on.choice == Some(Choice(on.path, Remembered(disk, s)))
      && AllClean(joined) && Split(Join(joined)) == joined && joined != [] && joined[0] == disk.bundled.value
      && OnPath(disk, joined, disk.bundled.value) && Headed(disk, on.path)
  {
    var b, entries := disk.bundled.value, SplitPath(s.path);
    var joined := UniqueFrom(disk, [b] + entries, {});
    assert AllClean([b] + entries);
    SplitJoined(joined);
    assert joined[0] == b && disk.Same(joined[0], b);
    hide Split, Join;
  }

  lemma RememberedComesBack(disk: Disk, s: State)
    requires disk.Valid() && disk.bundled.Some? && Remembered(disk, s).Some?
    ensures var off := Switched(disk, Switched(disk, s, true).0, false);
      var front := Fronted(disk, Split(Remembered(disk, s).value));
      && (off.1 == NotFound <==> front.None?)
      && (off.1 == Done ==> off.0.path == Some(Join(front.value)))
      && (off.1 == Done && off.0.path == s.path <==> GivenBack(disk, s))
  {
    NowOn(disk, s);
    var entries := Split(Remembered(disk, s).value);
    var front := Fronted(disk, entries);
    if front.Some? {
      FrontedKeeps(disk, entries);
      SplitJoined(front.value);
    }
    hide Split, Join, Fronted, UniqueFrom;
  }

  lemma NothingRemembered(disk: Disk, s: State)
    requires disk.Valid() && disk.bundled.Some? && Remembered(disk, s).None?
    ensures var off := Switched(disk, Switched(disk, s, true).0, false);
      var left := Fronted(disk, Dropped(disk, UniqueFrom(disk, [disk.bundled.value] + SplitPath(s.path), {}),
                                        disk.bundled.value));
      && (if left.None? then off.1 == NotFound else off.1 == Done && off.0.path == Some(Join(left.value)))
      && (off.1 == Done ==> !OnPath(disk, SplitPath(off.0.path), disk.bundled.value))
      && !(off.1 == Done && off.0.path == s.path) && !GivenBack(disk, s)
  {
    NowOn(disk, s);
    var b, joined := disk.bundled.value, UniqueFrom(disk, [disk.bundled.value] + SplitPath(s.path), {});
    var kept := Dropped(disk, joined, b);
    assert AllClean(kept);
    if Fronted(disk, kept).Some? {
      FrontedAndJoined(disk, kept, b);
    }
    if s.path.None? {
      assert joined == [b] + UniqueFrom(disk, [], {disk.key(b)});
      assert joined == [b] && joined[1..] == [] && Dropped(disk, joined, b) == [];
    }
    hide Split, Join, Fronted, UniqueFrom, Dropped, AllClean, KeptOthers;
  }

  /** On a path that switching on left, switching on again and off gives the text back exactly where the path
      before had no directory twice and its first holder was the bundled directory. */
  lemma OnAgainThenOff(disk: Disk, s: State)
    requires disk.Valid() && disk.bundled.Some? && s.path.Some? && !Headed(disk, s.path)
    ensures var entries := Split(s.path.value);
      var i := FirstHolder(disk, entries);
      GivenBack(disk, Switched(disk, s, true).0)
      <==> Distinct(disk, entries) && i < |entries| && entries[i] == disk.bundled.value
  {
    NowOn(disk, s);
    var entries := Split(s.path.value);
    var joined, front := UniqueFrom(disk, [disk.bundled.value] + entries, {}), Fronted(disk, entries);
    var on := Switched(disk, s, true).0;
    assert AsLeft(on) && on.choice.value.restore == Some(s.path.value);
    assert GivenBack(disk, on) <==> front.Some? && Join(joined) == Join(front.value);
    if front.Some? {
      SplitJoined(front.value);
      FrontIsJoined(disk, entries);
    }
    hide Split, Join, UniqueFrom, Distinct, Switched, GivenBack, Remembered, Headed;
  }

  lemma FrontIsJoined(disk: Disk, entries: seq<Entry>)
    requires disk.bundled.Some? && Fronted(disk, entries).Some?
    ensures Fronted(disk, entries).value == UniqueFrom(disk, [disk.bundled.value] + entries, {})
            <==> Distinct(disk, entries) && entries[FirstHolder(disk, entries)] == disk.bundled.value
  {
    var b, front, i := disk.bundled.value, Fronted(disk, entries).value, FirstHolder(disk, entries);
    BundledThenRest(disk, b, entries);
    UniqueIsDistinct(disk, [b] + entries, {});
    assert front == [entries[i]] + (entries[..i] + entries[i + 1..]);
    if front == UniqueFrom(disk, [b] + entries, {}) {
      FrontedIsDistinct(disk, entries);
    } else if Distinct(disk, entries) && entries[i] == b {
      KeyOfOne(disk, entries, i);
      UniqueSkips(disk, entries, {disk.key(b)}, i);
    }
    hide *;
  }

  lemma BundledThenRest(disk: Disk, b: Entry, entries: seq<Entry>)
    ensures UniqueFrom(disk, [b] + entries, {}) == [b] + UniqueFrom(disk, entries, {disk.key(b)})
  {
    var none: set<string> := {};
    assert ([b] + entries)[1..] == entries && none + {disk.key(b)} == {disk.key(b)};
  }

  lemma KeyOfOne(disk: Disk, entries: seq<Entry>, i: nat)
    requires Distinct(disk, entries) && i < |entries|
    ensures forall j :: 0 <= j < |entries| ==> (disk.key(entries[j]) in {disk.key(entries[i])} <==> j == i)
  {
    forall j | 0 <= j < |entries| && j != i ensures !disk.Same(entries[j], entries[i]) {
      assert j < i || i < j;
    }
  }

  lemma FrontedIsDistinct(disk: Disk, entries: seq<Entry>)
    requires Fronted(disk, entries).Some? && Distinct(disk, Fronted(disk, entries).value)
    ensures Distinct(disk, entries)
  {
    var i, front := FirstHolder(disk, entries), Fronted(disk, entries).value;
    assert front[0] == entries[i];
    assert forall j :: 0 <= j < i ==> front[j + 1] == entries[j];
    assert forall j :: i < j < |entries| ==> front[j] == entries[j];
    forall j, k | 0 <= j < k < |entries| ensures !disk.Same(entries[j], entries[k]) {
      var m, n := if j == i then 0 else if j < i then j + 1 else j, if k == i then 0 else if k < i then k + 1 else k;
      assert front[m] == entries[j] && front[n] == entries[k];
      assert m < n || n < m;
    }
  }

  /** Of distinct entries, only the one seen before is left out. */
  lemma {:induction false} UniqueSkips(disk: Disk, entries: seq<Entry>, seen: set<string>, i: nat)
    requires Distinct(disk, entries) && i < |entries|
    requires forall j :: 0 <= j < |entries| ==> (disk.key(entries[j]) in seen <==> j == i)
    ensures UniqueFrom(disk, entries, seen) == entries[..i] + entries[i + 1..]
  {
    var rest := entries[1..];
    if i == 0 {
      UniqueKeepsDistinct(disk, rest, seen);
    } else {
      UniqueSkips(disk, rest, seen + {disk.key(entries[0])}, i - 1);
      assert [entries[0]] + (rest[..i - 1] + rest[i..]) == entries[..i] + entries[i + 1..];
    }
  }

  /** A path with an empty entry is not given back: whatever directory is before it, the text is lost. */
  lemma EmptyEntryIsLost(disk: Disk, e: Entry)
    requires disk.Valid() && disk.bundled.Some? && Clean(e) && disk.holds(e) && !disk.Same(e, disk.bundled.value)
    ensures var s := State(Some(e + [SEPARATOR]), None);
      var off := Switched(disk, Switched(disk, s, true).0, false);
      off.1 == Done && off.0.path == Some(e) != s.path
  {
    var text := e + [SEPARATOR];
    FirstOfEntry(e, "");
    assert text == e + [SEPARATOR] + "" && text[..|e|] == e && text[|e| + 1..] == "";
    assert Split(text) == [e] + Split("");
    assert [e] + Split("") == [e];
    FrontedKeeps(disk, [e]);
    OnThenOff(disk, State(Some(text), None));
  }

  lemma SomePathIsNotRestored()
    ensures var disk, s := Disk(e => e, e => true, Some("bundled")), State(Some("proj:"), None);
      var off := Switched(disk, Switched(disk, s, true).0, false);
      disk.Valid() && off.1 == Done && off.0.path == Some("proj")
  {
    var disk := Disk(e => e, e => true, Some("bundled"));
    assert disk.Valid() && Clean("proj");
    assert "proj" != "bundled" && "proj" + [SEPARATOR] == "proj:";
    hide Switched;
    EmptyEntryIsLost(disk, "proj");
  }

  /** Nor is one the bundled directory heads, with nothing remembered: that directory is lost. */
  lemma HeadIsLost(disk: Disk, e: Entry)
    requires disk.Valid() && disk.bundled.Some? && Clean(e) && disk.holds(e) && !disk.Same(e, disk.bundled.value)
    ensures var s := State(Some(Join([disk.bundled.value, e])), None);
      var off := Switched(disk, Switched(disk, s, true).0, false);
      off.1 == Done && off.0.path == Some(e) && !GivenBack(disk, s)
  {
    var b := disk.bundled.value;
    var s := State(Some(Join([b, e])), None);
    SplitJoined([b, e]);
    OneLeft(disk, b, e);
    assert [b] + [b, e] == [b, b, e] && Remembered(disk, s).None?;
    hide *;
    NothingRemembered(disk, s);
    Unset(s);
  }

  lemma Unset(s: State)
    requires s.path.Some?
    ensures SplitPath(s.path) == Split(s.path.value)
  {}

  lemma OneLeft(disk: Disk, b: Entry, e: Entry)
    requires disk.holds(e) && !disk.Same(e, b)
    ensures UniqueFrom(disk, [b, b, e], {}) == [b, e] && Dropped(disk, [b, e], b) == [e]
    ensures Fronted(disk, [e]) == Some([e]) && Join([e]) == e
  {
    var none: set<string> := {};
    assert none + {disk.key(b)} == {disk.key(b)};
    assert [b, b, e][1..] == [b, e] && [b, e][1..] == [e];
    UniqueKeepsDistinct(disk, [e], {disk.key(b)});
    assert UniqueFrom(disk, [b, e], {disk.key(b)}) == [e];
    assert Dropped(disk, [e], b) == [e];
    FrontedKeeps(disk, [e]);
  }

  lemma HeadedPathIsNotRestored()
    ensures var disk, s := Disk(e => e, e => true, Some("b")), State(Some("b:p"), None);
      var off := Switched(disk, Switched(disk, s, true).0, false);
      disk.Valid() && off.1 == Done && off.0.path == Some("p")
  {
    var disk := Disk(e => e, e => true, Some("b"));
    assert disk.Valid() && Clean("p");
    TwoJoined("b", "p");
    assert "b" + [SEPARATOR] + "p" == "b:p";
    hide Switched, Join;
    HeadIsLost(disk, "p");
  }

  lemma TwoJoined(a: Entry, b: Entry)
    ensures Join([a, b]) == a + [SEPARATOR] + b
  {
    assert [a, b][1..] == [b];
  }

  // ----- what switching off comes to

  /** Switching off takes the bundled directory out of use, unless what is gone back to has it as its first
      holder, which is then put first. */
  lemma OffTakesOutExactly(disk: Disk, s: State)
    requires disk.bundled.Some?
    ensures var b, (after, outcome) := disk.bundled.value, Switched(disk, s, false);
      outcome == Done ==>
        (Headed(disk, after.path) <==>
           && OnPath(disk, SplitPath(s.path), b)
           && s.choice.Some? && s.path == s.choice.value.seen && s.choice.value.restore.Some?
           && var entries := Split(s.choice.value.restore.value);
              disk.Same(entries[FirstHolder(disk, entries)], b))
  {
    var b, entries := disk.bundled.value, SplitPath(s.path);
    if !OnPath(disk, entries, b) {
      assert entries != [] ==> !disk.Same(entries[0], b);
    } else if AsLeft(s) && s.choice.value.restore.Some? {
      var front := Fronted(disk, Split(s.choice.value.restore.value));
      if front.Some? {
        SplitJoined(front.value);
      }
    } else {
      var kept := Dropped(disk, entries, b);
      assert AllClean(kept);
      if Fronted(disk, kept).Some? {
        FrontedAndJoined(disk, kept, b);
      }
      hide Fronted, Dropped, Join;
    }
    hide Split, Dropped;
  }

  /** A directory besides the bundled one holds a database. */
  ghost predicate OtherHolds(disk: Disk, entries: seq<Entry>)
    requires disk.bundled.Some?
  {
    exists i :: 0 <= i < |entries| && disk.holds(entries[i]) && !disk.Same(entries[i], disk.bundled.value)
  }

  /** Switched on and off again: the error promised where no other directory holds a database is raised just
      there, unless the path before had the bundled directory somewhere, and only that one holds a database.
      Then that directory is put first instead, and used. */
  lemma OffRefusesExactly(disk: Disk, s: State)
    requires disk.Valid() && disk.bundled.Some? && s.path.Some? && !Headed(disk, s.path)
    requires forall a, b :: disk.Same(a, b) ==> disk.holds(a) == disk.holds(b)
    ensures var entries, on := Split(s.path.value), Switched(disk, s, true).0;
      var off := Switched(disk, on, false);
      && ((off.1 == NotFound <==> !OtherHolds(disk, SplitPath(on.path))) <==>
            !(OnPath(disk, entries, disk.bundled.value) && !OtherHolds(disk, entries)))
      && (off.1 == Done && !OtherHolds(disk, entries) ==> Headed(disk, off.0.path))
  {
    var b, entries, on := disk.bundled.value, Split(s.path.value), Switched(disk, s, true).0;
    NowOn(disk, s);
    OnThenOff(disk, s);
    OffTakesOutExactly(disk, on);
    UniqueIsDistinct(disk, [b] + entries, {});
    OthersAlike(disk, entries, UniqueFrom(disk, [b] + entries, {}));
    if OnPath(disk, entries, b) {
      var i :| 0 <= i < |entries| && disk.Same(entries[i], b);
      assert disk.holds(entries[i]);
    }
    hide Split, Join, UniqueFrom, Switched, Distinct;
  }

  lemma OthersAlike(disk: Disk, entries: seq<Entry>, joined: seq<Entry>)
    requires disk.bundled.Some? && forall a, b :: disk.Same(a, b) ==> disk.holds(a) == disk.holds(b)
    requires forall key :: HasKey(disk, joined, key) <==> HasKey(disk, [disk.bundled.value] + entries, key)
    ensures OtherHolds(disk, joined) <==> OtherHolds(disk, entries)
  {
    var all := [disk.bundled.value] + entries;
    if OtherHolds(disk, joined) {
      var i :| 0 <= i < |joined| && disk.holds(joined[i]) && !disk.Same(joined[i], disk.bundled.value);
      assert HasKey(disk, joined, disk.key(joined[i]));
      var j :| 0 <= j < |all| && disk.key(all[j]) == disk.key(joined[i]);
      assert disk.Same(all[j], joined[i]) && all[j] == entries[j - 1];
    }
    if OtherHolds(disk, entries) {
      var i :| 0 <= i < |entries| && disk.holds(entries[i]) && !disk.Same(entries[i], disk.bundled.value);
      assert all[i + 1] == entries[i];
      assert HasKey(disk, all, disk.key(entries[i]));
      var j :| 0 <= j < |joined| && disk.key(joined[j]) == disk.key(entries[i]);
      assert disk.Same(joined[j], entries[i]);
    }
  }

  /** As with a directory without a database before the bundled one. */
  lemma BundledIsPutFirst(disk: Disk, e: Entry)
    requires disk.Valid() && disk.bundled.Some? && Clean(e) && !disk.holds(e) && !disk.Same(e, disk.bundled.value)
    ensures var s := State(Some(Join([e, disk.bundled.value])), None);
      var off := Switched(disk, Switched(disk, s, true).0, false);
      off.1 == Done && off.0.path == Some(Join([disk.bundled.value, e]))
  {
    var b := disk.bundled.value;
    var s := State(Some(Join([e, b])), None);
    SplitJoined([e, b]);
    SecondHolds(disk, e, b);
    OnThenOff(disk, s);
    hide Split, Join, Switched, Fronted;
    assert !Headed(disk, s.path);
  }

  lemma SecondHolds(disk: Disk, e: Entry, b: Entry)
    requires !disk.holds(e) && disk.holds(b)
    ensures Fronted(disk, [e, b]) == Some([b, e])
  {
    assert [e, b][1..] == [b] && FirstHolder(disk, [b]) == 0;
    assert [[e, b][1]] + [e, b][..1] + [e, b][2..] == [b, e];
  }

  lemma SomeOffIsNotRefused()
    ensures var disk, s := Disk(e => e, e => e == "b", Some("b")), State(Some("n:b"), None);
      var off := Switched(disk, Switched(disk, s, true).0, false);
      disk.Valid() && off.1 == Done && off.0.path == Some("b:n")
  {
    var disk := Disk(e => e, e => e == "b", Some("b"));
    assert disk.Valid() && Clean("n") && "n" != "b";
    TwoJoined("n", "b");
    TwoJoined("b", "n");
    assert "n" + [SEPARATOR] + "b" == "n:b" && "b" + [SEPARATOR] + "n" == "b:n";
    hide Switched, Join;
    BundledIsPutFirst(disk, "n");
  }

  lemma FrontedAvoids(disk: Disk, kept: seq<Entry>, bundled: Entry)
    requires Fronted(disk, kept).Some? && forall e :: e in kept ==> !disk.Same(e, bundled)
    ensures var now := Fronted(disk, kept).value;
      && multiset(now) == multiset(kept) && !OnPath(disk, now, bundled)
      && (disk.holds(kept[0]) ==> now == kept)
  {
    FrontedKeeps(disk, kept);
    var now := Fronted(disk, kept).value;
    forall i | 0 <= i < |now| ensures !disk.Same(now[i], bundled) {
      assert now[i] in multiset(now);
      assert now[i] in kept;
    }
  }

  /** `now` is `kept` with its first holder at the front, and the bundled directory gone. */
  ghost predicate KeptOthers(disk: Disk, now: seq<Entry>, kept: seq<Entry>, bundled: Entry) {
    && |now| == |kept| > 0 && multiset(now) == multiset(kept)
    && disk.holds(now[0]) && !OnPath(disk, now, bundled)
    && (disk.holds(kept[0]) ==> now == kept)
  }

  lemma FrontedAndJoined(disk: Disk, kept: seq<Entry>, bundled: Entry)
    requires Fronted(disk, kept).Some? && AllClean(kept) && forall e :: e in kept ==> !disk.Same(e, bundled)
    ensures KeptOthers(disk, Split(Join(Fronted(disk, kept).value)), kept, bundled)
  {
    FrontedAvoids(disk, kept, bundled);
    SplitJoined(Fronted(disk, kept).value);
    hide Split, Join, OnPath;
  }

  /** Where someone else set the path while the bundled directory is on it, switching off
      drops that directory and keeps the others, the first holder moved to the front. */
  lemma OffDropsBundled(disk: Disk, s: State)
    requires disk.bundled.Some? && s.path.Some? && (s.choice.None? || s.path != s.choice.value.seen)
    requires OnPath(disk, Split(s.path.value), disk.bundled.value)
    ensures var (after, outcome) := Switched(disk, s, false);
      var kept := Dropped(disk, Split(s.path.value), disk.bundled.value);
      if exists i :: 0 <= i < |kept| && disk.holds(kept[i])
      then outcome == Done && KeptOthers(disk, SplitPath(after.path), kept, disk.bundled.value)
      else outcome == NotFound && after == s
  {
    var kept := Dropped(disk, Split(s.path.value), disk.bundled.value);
    assert AllClean(kept);
    if Fronted(disk, kept).Some? {
      FrontedAndJoined(disk, kept, disk.bundled.value);
    }
    hide Fronted, Dropped, Split, Join, AllClean, Clean, KeptOthers;
  }
}
