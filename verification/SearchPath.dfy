module SearchPath {
  // Threads following one search path (geodetic_engine/_search_path.py).
  //
  // One global path and a count of switches; each thread has a PROJ context of its own,
  // which it points at the path without holding the lock. The protocol is a machine whose
  // steps are the single reads and writes; a run is any interleaving of them.

  import opened Options

  type Path = string
  type Identity = nat
  type Tid = nat

  /** Where a thread is. The pass of database_identity() goes ReadPath .. ReadAgain; a switch
      goes Held .. Switched under the lock; a caller's own set_data_dir() is OwnSet. */
  datatype Pc =
    | Idle
    | ReadPath(first: Identity)
    | ReadCount(first: Identity, count: nat)
    | Fetched(first: Identity, count: nat, path: Path)      // inside _set_context_data_dir()
    | Repointed(first: Identity, count: nat)
    | ReadAgain(first: Identity, count: nat, again: Identity)
    | Held
    | Counted                                               // bumped, path not yet set
    | Switched                                              // path set, own context not yet
    | OwnSet

  datatype Seen = Seen(identity: Identity, count: nat)

  /** `moved` and `tainted` are history, read by no step: whether the path was set since the
      running pass read it first, and whether a bump followed that before the pass read
      the count. `clean` is what `tainted` was when `seen` was recorded. */
  datatype Thread = Thread(context: Path, seen: Option<Seen>, pc: Pc, moved: bool, tainted: bool, clean: bool)

  /** `set_` and `own` are history: whether the path was set, and whether by a caller's own
      set_data_dir(), since the last bump. */
  datatype State = State(path: Path, count: nat, lock: Option<Tid>, threads: seq<Thread>, set_: bool, own: bool)

  datatype Step =
    | Read(t: Tid) | Count(t: Tid) | Fetch(t: Tid) | Repoint(t: Tid) | Reread(t: Tid) | Recount(t: Tid)
    | Acquire(t: Tid) | Bump(t: Tid) | Set(t: Tid, to: Path) | Follow(t: Tid) | Release(t: Tid)
    | OwnPath(t: Tid, to: Path) | OwnFollow(t: Tid)

  function Put(s: State, t: Tid, thread: Thread): State
    requires t < |s.threads|
  {
    s.(threads := s.threads[t := thread])
  }

  function Moved(threads: seq<Thread>): (r: seq<Thread>)
    ensures |r| == |threads|
    ensures forall i :: 0 <= i < |r| ==> r[i] == threads[i].(moved := true)
  {
    seq(|threads|, i requires 0 <= i < |threads| => threads[i].(moved := true))
  }

  function Bumped(threads: seq<Thread>): (r: seq<Thread>)
    ensures |r| == |threads|
    ensures forall i :: 0 <= i < |r| ==>
      r[i] == if threads[i].pc.ReadPath? && threads[i].moved then threads[i].(tainted := true) else threads[i]
  {
    seq(|threads|, i requires 0 <= i < |threads| =>
      if threads[i].pc.ReadPath? && threads[i].moved then threads[i].(tainted := true) else threads[i])
  }

  /** The thread reads the path as it is now, by what it recorded: followed(). */
  predicate Followed(s: State, identify: Path -> Identity, t: Tid)
    requires t < |s.threads|
  {
    s.threads[t].seen == Some(Seen(identify(s.path), s.count))
  }

  /** One read or write, or None where the step is not the thread's next. */
  function Do(s: State, identify: Path -> Identity, step: Step): Option<State> {
    if step.t >= |s.threads| then None else
      var t := step.t;
      var me := s.threads[t];
      match step
      case Read(_) =>
        if me.pc != Idle then None
        else Some(Put(s, t, me.(pc := ReadPath(identify(s.path)), moved := false, tainted := false)))
      case Count(_) =>
        if !me.pc.ReadPath? then None
        else if me.seen == Some(Seen(me.pc.first, s.count)) then Some(Put(s, t, me.(pc := Idle)))
        else Some(Put(s, t, me.(pc := ReadCount(me.pc.first, s.count))))
      case Fetch(_) =>
        if !me.pc.ReadCount? then None
        else Some(Put(s, t, me.(pc := Fetched(me.pc.first, me.pc.count, s.path))))
      case Repoint(_) =>
        if !me.pc.Fetched? then None
        else Some(Put(s, t, me.(pc := Repointed(me.pc.first, me.pc.count), context := me.pc.path)))
      case Reread(_) =>
        if !me.pc.Repointed? then None
        else Some(Put(s, t, me.(pc := ReadAgain(me.pc.first, me.pc.count, identify(s.path)))))
      case Recount(_) =>
        if !me.pc.ReadAgain? then None
        else if me.pc.again == me.pc.first && s.count == me.pc.count then
          Some(Put(s, t, me.(pc := Idle, seen := Some(Seen(me.pc.first, me.pc.count)), clean := !me.tainted)))
        else Some(Put(s, t, me.(pc := Idle)))               // round the loop again
      case Acquire(_) =>
        if me.pc != Idle || s.lock.Some? then None
        else Some(Put(s, t, me.(pc := Held)).(lock := Some(t)))
      case Bump(_) =>
        if me.pc != Held then None
        else
          var threads := Bumped(s.threads);
          Some(s.(count := s.count + 1, threads := threads[t := threads[t].(pc := Counted)], set_ := false, own :=
              false))
      case Set(_, to) =>
        if me.pc != Counted then None
        else
          var threads := Moved(s.threads);
          Some(s.(path := to, threads := threads[t := threads[t].(pc := Switched)], set_ := true))
      case Follow(_) =>
        if me.pc != Switched then None
        else Some(Put(s, t, me.(pc := Held, context := s.path)))
      case Release(_) =>
        if me.pc != Held then None
        else Some(Put(s, t, me.(pc := Idle)).(lock := None))
      case OwnPath(_, to) =>
        if me.pc != Idle then None
        else
          var threads := Moved(s.threads);
          Some(s.(path := to, threads := threads[t := threads[t].(pc := OwnSet)], set_ := true, own := true))
      case OwnFollow(_) =>
        if me.pc != OwnSet then None
        else Some(Put(s, t, me.(pc := Idle, context := s.path)))
  }

  function Run(s: State, identify: Path -> Identity, steps: seq<Step>): Option<State> {
    if steps == [] then Some(s) else
      var before := Run(s, identify, steps[..|steps| - 1]);
      if before.None? then None else Do(before.value, identify, steps[|steps| - 1])
  }

  /** Before anything ran: any path and contexts, nothing recorded, the lock free. */
  predicate Initial(s: State) {
    s.lock.None? && s.count == 0 && forall t :: 0 <= t < |s.threads| ==>
        s.threads[t].pc == Idle && s.threads[t].seen.None?
  }

  // ----- what every step keeps

  predicate InSwitch(pc: Pc) {
    pc in {Held, Counted, Switched}
  }

  /** A switch has bumped the count and not yet set the path. */
  predicate Pending(s: State) {
    s.lock.Some? && s.lock.value < |s.threads| && s.threads[s.lock.value].pc == Counted
  }

  /** Only the lock's holder is in a switch, and what the history says of the last bump. */
  ghost predicate Disciplined(s: State) {
    && (s.lock.Some? ==> s.lock.value < |s.threads|)
    && (forall t :: 0 <= t < |s.threads| ==> (InSwitch(s.threads[t].pc) <==> s.lock == Some(t)))
    && (Pending(s) && !s.own ==> !s.set_)
  }

  /** What a thread's pass has established, if no bump, no taint and no own path set since. */
  ghost predicate Passing(s: State, identify: Path -> Identity, me: Thread) {
    match me.pc
    case ReadPath(first) =>
      && (!me.moved ==> identify(s.path) == first)
      && (me.moved && !me.tainted ==> s.set_)
    case ReadCount(first, count) =>
      count <= s.count && (count == s.count && !s.own && !me.tainted && Pending(s) ==> identify(s.path) == first)
    case Fetched(first, count, path) =>
      count <= s.count && (count == s.count && !s.own && !me.tainted ==>
        if Pending(s) then identify(s.path) == first && path == s.path
        else path == s.path || identify(path) == first)
    case Repointed(first, count) =>
      count <= s.count && (count == s.count && !s.own && !me.tainted ==>
        if Pending(s) then identify(s.path) == first && me.context == s.path
        else me.context == s.path || identify(me.context) == first)
    case ReadAgain(first, count, again) =>
      count <= s.count && (count == s.count && !s.own && !me.tainted ==>
        && (Pending(s) ==> identify(s.path) == first)
        && (again == first ==> identify(me.context) == first))
    case _ => true
  }

  /** A path a thread reads or is about to: the one it recorded, or one it left for good. */
  ghost predicate Settled(s: State, identify: Path -> Identity, recorded: Identity, read: Path) {
    identify(read) == recorded || (identify(s.path) != recorded && !Pending(s))
  }

  ghost predicate Recorded(s: State, identify: Path -> Identity, me: Thread) {
    me.seen.Some? ==>
      var (recorded, count) := (me.seen.value.identity, me.seen.value.count);
      && count <= s.count
      && (count == s.count && !s.own && me.clean ==>
            && (Pending(s) ==> identify(s.path) == recorded)
            && Settled(s, identify, recorded, me.context)
            && (me.pc.Fetched? ==> Settled(s, identify, recorded, me.pc.path)))
  }

  ghost predicate Good(s: State, identify: Path -> Identity, t: Tid)
    requires t < |s.threads|
  {
    Passing(s, identify, s.threads[t]) && Recorded(s, identify, s.threads[t])
  }

  ghost predicate Invariant(s: State, identify: Path -> Identity) {
    Disciplined(s) && forall t :: 0 <= t < |s.threads| ==> Good(s, identify, t) && Outdated(s, t)
  }

  predicate IsPass(step: Step) {
    step.Read? || step.Count? || step.Fetch? || step.Repoint? || step.Reread? || step.Recount?
  }

  /** Nothing another thread's invariant speaks of has changed. */
  ghost predicate SameWorld(s: State, now: State) {
    && now.path == s.path && now.count == s.count && now.own == s.own && now.set_ == s.set_
    && (Pending(now) <==> Pending(s)) && |now.threads| == |s.threads|
  }

  /** A step of a pass changes nothing but its own thread. */
  lemma PassIsPrivate(s: State, identify: Path -> Identity, step: Step)
    requires Disciplined(s) && IsPass(step) && Do(s, identify, step).Some?
    ensures var now := Do(s, identify, step).value;
      && SameWorld(s, now) && now.lock == s.lock && Disciplined(now)
      && forall t :: 0 <= t < |s.threads| && t != step.t ==> now.threads[t] == s.threads[t]
  {
    var now := Do(s, identify, step).value;
    assert now.lock == s.lock && now.threads == s.threads[step.t := now.threads[step.t]];
    assert !InSwitch(s.threads[step.t].pc) && !InSwitch(now.threads[step.t].pc);
  }

  lemma SameWorldKeeps(s: State, now: State, identify: Path -> Identity, t: Tid)
    requires SameWorld(s, now) && t < |s.threads| && now.threads[t] == s.threads[t] && Good(s, identify, t)
    ensures Good(now, identify, t)
  {
    hide Pending;
  }

  lemma PassStarts(s: State, identify: Path -> Identity, step: Step)
    requires Disciplined(s) && (step.Read? || step.Count? || step.Fetch?) && Do(s, identify, step).Some?
    requires Good(s, identify, step.t)
    ensures Good(Do(s, identify, step).value, identify, step.t)
  {
    PassIsPrivate(s, identify, step);
    hide Pending, InSwitch;
  }

  lemma PassEnds(s: State, identify: Path -> Identity, step: Step)
    requires Disciplined(s) && (step.Repoint? || step.Reread? || step.Recount?) && Do(s, identify, step).Some?
    requires Good(s, identify, step.t)
    ensures Good(Do(s, identify, step).value, identify, step.t)
  {
    PassIsPrivate(s, identify, step);
    hide Pending, InSwitch;
  }

  /** Taking or leaving the lock, or pointing one's own context after setting the path. */
  predicate IsQuiet(step: Step) {
    step.Acquire? || step.Release? || step.Follow? || step.OwnFollow?
  }

  lemma QuietIsPrivate(s: State, identify: Path -> Identity, step: Step)
    requires Disciplined(s) && IsQuiet(step) && Do(s, identify, step).Some?
    ensures var now := Do(s, identify, step).value;
      && SameWorld(s, now) && Disciplined(now)
      && forall t :: 0 <= t < |s.threads| && t != step.t ==> now.threads[t] == s.threads[t]
  {
    var now := Do(s, identify, step).value;
    assert now.threads == s.threads[step.t := now.threads[step.t]];
    assert !Pending(s) || s.lock.value != step.t;
  }

  /** A thread that has counted or set a path recorded its context at an older count, or
      the path is its caller's own. */
  ghost predicate Outdated(s: State, t: Tid)
    requires t < |s.threads|
  {
    var me := s.threads[t];
    me.pc == Counted || me.pc == Switched || me.pc == OwnSet ==> s.own || me.seen.None? || me.seen.value.count < s.count
  }

  lemma QuietKeeps(s: State, identify: Path -> Identity, step: Step)
    requires Disciplined(s) && IsQuiet(step) && Do(s, identify, step).Some?
    requires Good(s, identify, step.t) && Outdated(s, step.t)
    ensures Good(Do(s, identify, step).value, identify, step.t)
  {
    QuietIsPrivate(s, identify, step);
    hide Pending, InSwitch;
  }

  lemma BumpDisciplined(s: State, identify: Path -> Identity, t: Tid)
    requires Disciplined(s) && Do(s, identify, Bump(t)).Some?
    ensures Disciplined(Do(s, identify, Bump(t)).value)
  {
    var now := Do(s, identify, Bump(t)).value;
    assert forall i :: 0 <= i < |s.threads| && i != t ==> now.threads[i].pc == s.threads[i].pc;
  }

  lemma BumpKeeps(s: State, identify: Path -> Identity, u: Tid, t: Tid)
    requires Disciplined(s) && Do(s, identify, Bump(u)).Some? && t < |s.threads| && Good(s, identify, t)
    ensures Good(Do(s, identify, Bump(u)).value, identify, t)
  {
    hide Pending, InSwitch, Settled;
  }

  lemma SetDisciplined(s: State, identify: Path -> Identity, step: Step)
    requires Disciplined(s) && (step.Set? || step.OwnPath?) && Do(s, identify, step).Some?
    ensures var now := Do(s, identify, step).value;
      && Disciplined(now) && (step.Set? ==> Pending(s) && !Pending(now)) && (step.OwnPath? ==> now.own)
  {
    var now := Do(s, identify, step).value;
    assert forall i :: 0 <= i < |s.threads| && i != step.t ==> now.threads[i].pc == s.threads[i].pc;
  }

  lemma SetKeeps(s: State, identify: Path -> Identity, step: Step, t: Tid)
    requires Disciplined(s) && (step.Set? || step.OwnPath?) && Do(s, identify, step).Some?
    requires t < |s.threads| && Good(s, identify, t)
    ensures Good(Do(s, identify, step).value, identify, t)
  {
    SetDisciplined(s, identify, step);
    hide Pending, InSwitch;
  }

  lemma OutdatedKept(s: State, identify: Path -> Identity, step: Step, t: Tid)
    requires Do(s, identify, step).Some? && t < |s.threads| && Good(s, identify, t) && Outdated(s, t)
    ensures |Do(s, identify, step).value.threads| == |s.threads| && Outdated(Do(s, identify, step).value, t)
  {
    hide Do, Good, Outdated;
    if IsPass(step) {
      PassKeepsOutdated(s, identify, step, t);
    } else if step.Bump? || step.Set? || step.OwnPath? {
      SwitchKeepsOutdated(s, identify, step, t);
    } else {
      OtherKeepsOutdated(s, identify, step, t);
    }
  }

  lemma PassKeepsOutdated(s: State, identify: Path -> Identity, step: Step, t: Tid)
    requires Do(s, identify, step).Some? && t < |s.threads| && Outdated(s, t) && IsPass(step)
    ensures |Do(s, identify, step).value.threads| == |s.threads| && Outdated(Do(s, identify, step).value, t)
  {
    var now := Do(s, identify, step).value;
    assert now.count == s.count && now.own == s.own && now.threads == s.threads[step.t := now.threads[step.t]];
    assert now.threads[step.t].pc != Counted && now.threads[step.t].pc != Switched && now.threads[step.t].pc != OwnSet;
    hide Do;
  }

  lemma SwitchKeepsOutdated(s: State, identify: Path -> Identity, step: Step, t: Tid)
    requires Do(s, identify, step).Some? && t < |s.threads| && Good(s, identify, t) && Outdated(s, t)
    requires step.Bump? || step.Set? || step.OwnPath?
    ensures |Do(s, identify, step).value.threads| == |s.threads| && Outdated(Do(s, identify, step).value, t)
  {
    hide Pending, Passing, Settled;
  }

  lemma OtherKeepsOutdated(s: State, identify: Path -> Identity, step: Step, t: Tid)
    requires Do(s, identify, step).Some? && t < |s.threads| && Outdated(s, t)
    requires step.Acquire? || step.Follow? || step.Release? || step.OwnFollow?
    ensures |Do(s, identify, step).value.threads| == |s.threads| && Outdated(Do(s, identify, step).value, t)
  {
    hide Followed;
  }

  lemma StepKeeps(s: State, identify: Path -> Identity, step: Step)
    requires Invariant(s, identify) && Do(s, identify, step).Some?
    ensures Invariant(Do(s, identify, step).value, identify)
  {
    var now := Do(s, identify, step).value;
    hide Good, Do, Disciplined, SameWorld, Outdated;
    forall t | 0 <= t < |s.threads| ensures |now.threads| == |s.threads| && Outdated(now, t) {
      OutdatedKept(s, identify, step, t);
    }
    SameThreads(s, identify, step);
    if IsPass(step) {
      PassIsPrivate(s, identify, step);
    } else if IsQuiet(step) {
      QuietIsPrivate(s, identify, step);
    } else if step.Bump? {
      BumpDisciplined(s, identify, step.t);
    } else {
      SetDisciplined(s, identify, step);
    }
    forall t | 0 <= t < |s.threads| ensures Good(now, identify, t) {
      GoodKept(s, identify, step, t);
    }
  }

  lemma GoodKept(s: State, identify: Path -> Identity, step: Step, t: Tid)
    requires Invariant(s, identify) && Do(s, identify, step).Some? && t < |s.threads|
    ensures |Do(s, identify, step).value.threads| == |s.threads| && Good(Do(s, identify, step).value, identify, t)
  {
    assert Good(s, identify, t) && Outdated(s, t);
    SameThreads(s, identify, step);
    hide Good, Do, Disciplined, SameWorld, Outdated;
    var now := Do(s, identify, step).value;
    if IsPass(step) {
      PassIsPrivate(s, identify, step);
      if t != step.t {
        SameWorldKeeps(s, now, identify, t);
      } else if step.Read? || step.Count? || step.Fetch? {
        PassStarts(s, identify, step);
      } else {
        PassEnds(s, identify, step);
      }
    } else if IsQuiet(step) {
      QuietIsPrivate(s, identify, step);
      if t != step.t {
        SameWorldKeeps(s, now, identify, t);
      } else {
        QuietKeeps(s, identify, step);
      }
    } else if step.Bump? {
      BumpKeeps(s, identify, step.t, t);
    } else {
      SetKeeps(s, identify, step, t);
    }
  }

  lemma SameThreads(s: State, identify: Path -> Identity, step: Step)
    requires Do(s, identify, step).Some?
    ensures |Do(s, identify, step).value.threads| == |s.threads| && step.t < |s.threads|
  {}

  lemma {:induction false} RunKeeps(s: State, identify: Path -> Identity, steps: seq<Step>)
    requires Initial(s) && Run(s, identify, steps).Some?
    ensures Invariant(Run(s, identify, steps).value, identify)
  {
    if steps == [] {
      return;
    }
    RunKeeps(s, identify, steps[..|steps| - 1]);
    StepKeeps(Run(s, identify, steps[..|steps| - 1]).value, identify, steps[|steps| - 1]);
  }

  /** In every reachable state a thread that has recorded the current path and count reads
      the current path's databases, unless a caller set a path of its own since the last
      bump, or a path change and then a bump fell between the first two reads of the pass
      that recorded it. */
  lemma FollowersReadThePath(s: State, identify: Path -> Identity, steps: seq<Step>, t: Tid)
    requires Initial(s) && Run(s, identify, steps).Some?
    ensures var now := Run(s, identify, steps).value;
      t < |now.threads| && Followed(now, identify, t) && now.threads[t].clean && !now.own ==>
        identify(now.threads[t].context) == identify(now.path)
  {
    RunKeeps(s, identify, steps);
    var now := Run(s, identify, steps).value;
    if t < |now.threads| {
      assert Good(now, identify, t);
    }
  }

  // ----- why the side condition is there

  /** The thread has recorded the current path and count, the lock is free and no caller set
      a path of its own; yet its context reads other databases. */
  ghost predicate Stale(s: State, identify: Path -> Identity, t: Tid) {
    && t < |s.threads| && s.lock.None? && !s.own
    && Followed(s, identify, t) && identify(s.threads[t].context) != identify(s.path)
  }

  function Then(s: Option<State>, identify: Path -> Identity, step: Step): Option<State> {
    if s.None? then None else Do(s.value, identify, step)
  }

  function Four(s: State, identify: Path -> Identity, a: Step, b: Step, c: Step, d: Step): Option<State> {
    Then(Then(Then(Then(Some(s), identify, a), identify, b), identify, c), identify, d)
  }

  lemma RunFour(s: State, identify: Path -> Identity, a: Step, b: Step, c: Step, d: Step)
    ensures Run(s, identify, [a, b, c, d]) == Four(s, identify, a, b, c, d)
  {
    assert [] + [a] == [a] && [a] + [b] == [a, b] && [a, b] + [c] == [a, b, c] && [a, b, c] + [d] == [a, b, c, d];
    assert Run(s, identify, []) == Some(s);
    hide Do, Run;
    RunThen(s, identify, [], a);
    RunThen(s, identify, [a], b);
    RunThen(s, identify, [a, b], c);
    RunThen(s, identify, [a, b, c], d);
  }

  lemma RunThen(s: State, identify: Path -> Identity, steps: seq<Step>, step: Step)
    ensures Run(s, identify, steps + [step]) == Then(Run(s, identify, steps), identify, step)
  {
    assert (steps + [step])[..|steps|] == steps;
  }

  lemma {:induction false} RunJoin(s: State, identify: Path -> Identity, first: seq<Step>, then_: seq<Step>)
    requires Run(s, identify, first).Some?
    ensures Run(s, identify, first + then_) == Run(Run(s, identify, first).value, identify, then_)
  {
    hide *;
    if then_ == [] {
      assert first + then_ == first;
      RunNothing(Run(s, identify, first).value, identify);
      return;
    }
    var before, step := then_[..|then_| - 1], then_[|then_| - 1];
    RunJoin(s, identify, first, before);
    assert first + then_ == (first + before) + [step] && before + [step] == then_;
    RunThen(s, identify, first + before, step);
    RunThen(Run(s, identify, first).value, identify, before, step);
  }

  lemma RunNothing(s: State, identify: Path -> Identity)
    ensures Run(s, identify, []) == Some(s)
  {}

  /** A thread has read first the path that another, between its bump and its set, will put
      back, though the path is another one now. */
  ghost predicate Caught(s: State, identify: Path -> Identity, t: Tid, u: Tid, back: Path) {
    && t < |s.threads| && u < |s.threads| && t != u && s.lock == Some(u) && !s.own
    && s.threads[t].pc == ReadPath(identify(back)) && s.threads[u].pc == Counted
    && identify(s.path) != identify(back)
    && s.threads[t].seen != Some(Seen(identify(back), s.count))
  }

  lemma CaughtFirst(s: State, identify: Path -> Identity, t: Tid, u: Tid, back: Path)
    requires Caught(s, identify, t, u, back)
    ensures var s4 := Four(s, identify, Count(t), Fetch(t), Repoint(t), Set(u, back));
      && s4.Some?
      && s4.value.path == back && s4.value.lock == Some(u) && !s4.value.own && |s4.value.threads| == |s.threads|
      && s4.value.threads[t].pc == Repointed(identify(back), s4.value.count)
      && s4.value.threads[t].context == s.path && s4.value.threads[u].pc == Switched
  {}

  lemma CaughtLast(s: State, identify: Path -> Identity, t: Tid, u: Tid)
    requires t < |s.threads| && u < |s.threads| && t != u && s.lock == Some(u) && !s.own
    requires s.threads[t].pc == Repointed(identify(s.path), s.count) && s.threads[u].pc == Switched
    requires identify(s.threads[t].context) != identify(s.path)
    ensures var s4 := Four(s, identify, Follow(u), Release(u), Reread(t), Recount(t));
      s4.Some? && Stale(s4.value, identify, t)
  {}

  /** A pass caught between its two first reads, with a switch that has bumped and will set
      the path back to what the pass read first, records a stale context. */
  lemma CaughtPassGoesStale(s: State, identify: Path -> Identity, t: Tid, u: Tid, back: Path)
    requires Caught(s, identify, t, u, back)
    ensures var steps := [Count(t), Fetch(t), Repoint(t), Set(u, back)] +
      [Follow(u), Release(u), Reread(t), Recount(t)];
      Run(s, identify, steps).Some? && Stale(Run(s, identify, steps).value, identify, t)
  {
    CaughtFirst(s, identify, t, u, back);
    var mid := Four(s, identify, Count(t), Fetch(t), Repoint(t), Set(u, back)).value;
    CaughtLast(mid, identify, t, u);
    hide Do, Four, Run, Stale;
    RunFour(s, identify, Count(t), Fetch(t), Repoint(t), Set(u, back));
    RunFour(mid, identify, Follow(u), Release(u), Reread(t), Recount(t));
    RunJoin(s, identify, [Count(t), Fetch(t), Repoint(t), Set(u, back)],
            [Follow(u), Release(u), Reread(t), Recount(t)]);
  }

  function Fresh(): State {
    var thread := Thread("A", None, Idle, false, false, false);
    State("A", 0, None, [thread, thread], false, false)
  }

  lemma SwitchedOnce(identify: Path -> Identity)
    ensures Run(Fresh(), identify, [Read(0), Acquire(1), Bump(1), Set(1, "B")]).Some?
    ensures var mid := Run(Fresh(), identify, [Read(0), Acquire(1), Bump(1), Set(1, "B")]).value;
      && |mid.threads| == 2 && mid.lock == Some(1) && mid.path == "B" && !mid.own
      && mid.threads[0].pc == ReadPath(identify("A")) && mid.threads[0].seen.None? && mid.threads[1].pc == Switched
  {
    hide Run, Do;
    RunFour(Fresh(), identify, Read(0), Acquire(1), Bump(1), Set(1, "B"));
    ReadAndHeld(identify);
    CountedAndSet(Then(Do(Fresh(), identify, Read(0)), identify, Acquire(1)).value, identify);
  }

  lemma ReadAndHeld(identify: Path -> Identity)
    ensures var now := Then(Do(Fresh(), identify, Read(0)), identify, Acquire(1));
      && now.Some? && |now.value.threads| == 2 && now.value.lock == Some(1) && !now.value.own
      && now.value.threads[0].pc == ReadPath(identify("A")) && now.value.threads[0].seen.None?
      && now.value.threads[1].pc == Held
  {}

  lemma CountedAndSet(s: State, identify: Path -> Identity)
    requires |s.threads| == 2 && s.lock == Some(1) && !s.own && s.threads[1].pc == Held
    ensures var now := Then(Do(s, identify, Bump(1)), identify, Set(1, "B"));
      && now.Some? && |now.value.threads| == 2 && now.value.lock == Some(1) && now.value.path == "B" && !now.value.own
      && now.value.threads[0].pc == s.threads[0].pc && now.value.threads[0].seen == s.threads[0].seen
      && now.value.threads[1].pc == Switched
  {}

  lemma BumpedAgain(s: State, identify: Path -> Identity)
    requires |s.threads| == 2 && s.lock == Some(1) && s.path == "B" && !s.own && identify("A") != identify("B")
    requires s.threads[0].pc == ReadPath(identify("A")) && s.threads[0].seen.None? && s.threads[1].pc == Switched
    ensures var late := Run(s, identify, [Follow(1), Release(1), Acquire(1), Bump(1)]);
      late.Some? && Caught(late.value, identify, 0, 1, "A")
  {
    hide Run, Do;
    RunFour(s, identify, Follow(1), Release(1), Acquire(1), Bump(1));
    LeavesSwitch(s, identify);
    StartsSwitch(Then(Do(s, identify, Follow(1)), identify, Release(1)).value, identify);
  }

  lemma LeavesSwitch(s: State, identify: Path -> Identity)
    requires |s.threads| == 2 && s.path == "B" && s.threads[1].pc == Switched && !s.own
    ensures var now := Then(Do(s, identify, Follow(1)), identify, Release(1));
      && now.Some? && now.value.path == s.path && now.value.lock.None? && |now.value.threads| == 2
      && now.value.threads[0] == s.threads[0] && now.value.threads[1].pc == Idle
  {}

  lemma StartsSwitch(s: State, identify: Path -> Identity)
    requires |s.threads| == 2 && s.lock.None? && s.path == "B" && s.threads[1].pc == Idle
    requires s.threads[0].pc == ReadPath(identify("A")) && s.threads[0].seen.None? && identify("A") != identify("B")
    ensures var now := Then(Do(s, identify, Acquire(1)), identify, Bump(1));
      now.Some? && Caught(now.value, identify, 0, 1, "A")
  {}

  /** A pass between its two first reads, one switch to B and the bump of the next having come between. */
  lemma SomePassIsCaught(identify: Path -> Identity) returns (steps: seq<Step>)
    requires identify("A") != identify("B")
    ensures Run(Fresh(), identify, steps).Some? && Caught(Run(Fresh(), identify, steps).value, identify, 0, 1, "A")
  {
    hide *;
    var first, second := [Read(0), Acquire(1), Bump(1), Set(1, "B")], [Follow(1), Release(1), Acquire(1), Bump(1)];
    SwitchedOnce(identify);
    BumpedAgain(Run(Fresh(), identify, first).value, identify);
    RunJoin(Fresh(), identify, first, second);
    steps := first + second;
  }

  /** Such a state is reachable: with paths A and B told apart, one switch to B and the bump
      of the next between the two first reads of a pass, and then a switch back to A. */
  lemma SomeRunGoesStale(identify: Path -> Identity)
    requires identify("A") != identify("B")
    ensures exists s, steps ::
      Initial(s) && Run(s, identify, steps).Some? && Stale(Run(s, identify, steps).value, identify, 0)
  {
    FreshIsInitial();
    hide *;
    var steps := SomePassIsCaught(identify);
    var more := SomePassEnds(Run(Fresh(), identify, steps).value, identify);
    RunJoin(Fresh(), identify, steps, more);
    assert Stale(Run(Fresh(), identify, steps + more).value, identify, 0);
  }

  lemma SomePassEnds(s: State, identify: Path -> Identity) returns (steps: seq<Step>)
    requires Caught(s, identify, 0, 1, "A")
    ensures Run(s, identify, steps).Some? && Stale(Run(s, identify, steps).value, identify, 0)
  {
    hide *;
    steps := [Count(0), Fetch(0), Repoint(0), Set(1, "A")] + [Follow(1), Release(1), Reread(0), Recount(0)];
    CaughtPassGoesStale(s, identify, 0, 1, "A");
  }

  lemma FreshIsInitial()
    ensures Initial(Fresh())
  {}

  /** A pass no other thread's step falls into ends recording what its context reads. */
  lemma UndisturbedPassFollows(s: State, identify: Path -> Identity, t: Tid)
    requires t < |s.threads| && s.threads[t].pc == ReadCount(identify(s.path), s.count)
    ensures var now := Run(s, identify, [Fetch(t), Repoint(t), Reread(t), Recount(t)]);
      && now.Some? && now.value.path == s.path
      && Followed(now.value, identify, t) && identify(now.value.threads[t].context) == identify(s.path)
  {
    hide Run, Do;
    RunFour(s, identify, Fetch(t), Repoint(t), Reread(t), Recount(t));
    FetchAndRepoint(s, identify, t);
    RereadAndRecount(Then(Do(s, identify, Fetch(t)), identify, Repoint(t)).value, identify, t);
  }

  lemma FetchAndRepoint(s: State, identify: Path -> Identity, t: Tid)
    requires t < |s.threads| && s.threads[t].pc == ReadCount(identify(s.path), s.count)
    ensures var now := Then(Do(s, identify, Fetch(t)), identify, Repoint(t));
      && now.Some? && now.value.path == s.path && now.value.count == s.count && |now.value.threads| == |s.threads|
      && now.value.threads[t].pc == Repointed(identify(s.path), s.count) && now.value.threads[t].context == s.path
  {}

  lemma RereadAndRecount(s: State, identify: Path -> Identity, t: Tid)
    requires t < |s.threads| && s.threads[t].pc == Repointed(identify(s.path), s.count)
    ensures var now := Then(Do(s, identify, Reread(t)), identify, Recount(t));
      && now.Some? && now.value.path == s.path && |now.value.threads| == |s.threads|
      && Followed(now.value, identify, t) && now.value.threads[t].context == s.threads[t].context
  {}

  // ----- switches and passes, whole

  /** The steps of one switch. */
  function Switch(t: Tid, to: Path): seq<Step> {
    [Acquire(t), Bump(t), Set(t, to), Follow(t)] + [Release(t)]
  }

  /** Setting the path and following it points the thread's own context at it at once, and no other thread's. */
  lemma SetAndFollow(s: State, identify: Path -> Identity, t: Tid, to: Path)
    requires t < |s.threads| && s.threads[t].pc == Counted
    ensures var now := Then(Do(s, identify, Set(t, to)), identify, Follow(t));
      && now.Some? && now.value.path == to && now.value.count == s.count && |now.value.threads| == |s.threads|
      && now.value.threads[t].context == to && now.value.threads[t].seen == s.threads[t].seen
      && forall u :: 0 <= u < |s.threads| && u != t ==>
        now.value.threads[u].context == s.threads[u].context && now.value.threads[u].seen == s.threads[u].seen
  {}

  /** So does a caller's own set_data_dir(), which is no switch: it is not counted. */
  lemma OwnPathAndFollow(s: State, identify: Path -> Identity, t: Tid, to: Path)
    requires t < |s.threads| && s.threads[t].pc == Idle
    ensures var now := Then(Do(s, identify, OwnPath(t, to)), identify, OwnFollow(t));
      && now.Some? && now.value.path == to && now.value.count == s.count && now.value.lock == s.lock
      && |now.value.threads| == |s.threads|
      && now.value.threads[t].context == to && now.value.threads[t].seen == s.threads[t].seen
      && forall u :: 0 <= u < |s.threads| && u != t ==>
        now.value.threads[u].context == s.threads[u].context && now.value.threads[u].seen == s.threads[u].seen
  {}

  /** The path is that one, counted once more, read by the one thread already and by no other thread yet. */
  ghost predicate IsSwitched(s: State, t: Tid, to: Path, now: State)
    requires t < |s.threads|
  {
    && now.path == to && now.count == s.count + 1 && now.lock.None? && |now.threads| == |s.threads|
    && now.threads[t].context == to && now.threads[t].seen == s.threads[t].seen && now.threads[t].pc == Idle
    && forall u :: 0 <= u < |s.threads| && u != t ==>
      && now.threads[u].context == s.threads[u].context && now.threads[u].seen == s.threads[u].seen
      && now.threads[u].pc == s.threads[u].pc
  }

  lemma SwitchSwitches(s: State, identify: Path -> Identity, t: Tid, to: Path)
    requires t < |s.threads| && s.lock.None? && s.threads[t].pc == Idle
    ensures var now := Four(s, identify, Acquire(t), Bump(t), Set(t, to), Follow(t));
      now.Some? && Then(now, identify, Release(t)).Some? && IsSwitched(s, t, to, Then(now, identify, Release(t)).value)
  {
    hide Do;
    HeldThenCounted(s, identify, t);
    var counted := Then(Do(s, identify, Acquire(t)), identify, Bump(t)).value;
    SetAndFollow(counted, identify, t, to);
    StillHeld(counted, identify, t, to);
    Released(Then(Do(counted, identify, Set(t, to)), identify, Follow(t)).value, identify, t);
  }

  lemma HeldThenCounted(s: State, identify: Path -> Identity, t: Tid)
    requires t < |s.threads| && s.lock.None? && s.threads[t].pc == Idle
    ensures var now := Then(Do(s, identify, Acquire(t)), identify, Bump(t));
      && now.Some? && now.value.count == s.count + 1 && |now.value.threads| == |s.threads|
      && now.value.threads[t].pc == Counted && now.value.threads[t].seen == s.threads[t].seen
      && forall u :: 0 <= u < |s.threads| && u != t ==>
        && now.value.threads[u].context == s.threads[u].context && now.value.threads[u].seen == s.threads[u].seen
        && now.value.threads[u].pc == s.threads[u].pc
  {}

  lemma StillHeld(s: State, identify: Path -> Identity, t: Tid, to: Path)
    requires t < |s.threads| && s.threads[t].pc == Counted
    ensures var now := Then(Do(s, identify, Set(t, to)), identify, Follow(t));
      && now.Some? && |now.value.threads| == |s.threads| && now.value.threads[t].pc == Held
      && forall u :: 0 <= u < |s.threads| && u != t ==> now.value.threads[u].pc == s.threads[u].pc
  {}

  lemma Released(s: State, identify: Path -> Identity, t: Tid)
    requires t < |s.threads| && s.threads[t].pc == Held
    ensures var now := Do(s, identify, Release(t));
      && now.Some? && now.value.path == s.path && now.value.count == s.count && now.value.lock.None?
      && now.value.threads == s.threads[t := s.threads[t].(pc := Idle)]
  {}

  /** A switch is seen by every thread: none still reads the path by what it recorded, though it may be the very
      path it read before. */
  lemma SwitchIsSeen(s: State, identify: Path -> Identity, t: Tid, to: Path)
    requires Invariant(s, identify) && t < |s.threads| && s.lock.None? && s.threads[t].pc == Idle
    ensures var now := Run(s, identify, Switch(t, to));
      && now.Some? && IsSwitched(s, t, to, now.value)
      && forall u :: 0 <= u < |s.threads| ==> !Followed(now.value, identify, u)
  {
    RunFour(s, identify, Acquire(t), Bump(t), Set(t, to), Follow(t));
    RunThen(s, identify, [Acquire(t), Bump(t), Set(t, to), Follow(t)], Release(t));
    SwitchSwitches(s, identify, t, to);
    hide Run, Four, Do, Then, Disciplined, Outdated, Passing, Settled;
    forall u | 0 <= u < |s.threads| ensures s.threads[u].seen.Some? ==> s.threads[u].seen.value.count <= s.count {
      assert Good(s, identify, u);
    }
  }

  /** A pass starts by comparing what the thread recorded with the path and the count as they are: it ends there
      exactly where they are the same. */
  lemma PassEndsWhereFollowed(s: State, identify: Path -> Identity, t: Tid)
    requires t < |s.threads| && s.threads[t].pc == Idle
    ensures var now := Then(Do(s, identify, Read(t)), identify, Count(t));
      && now.Some? && now.value.path == s.path && now.value.count == s.count && |now.value.threads| == |s.threads|
      && now.value.threads[t].context == s.threads[t].context && now.value.threads[t].seen == s.threads[t].seen
      && now.value.threads[t].pc ==
        if Followed(s, identify, t) then Idle else ReadCount(identify(s.path), s.count)
  {}

  /** Whatever the other threads do, a thread's context and what it recorded are its own. */
  lemma {:induction false} RunLeaves(s: State, identify: Path -> Identity, steps: seq<Step>, t: Tid)
    requires Run(s, identify, steps).Some? && t < |s.threads| && forall i :: 0 <= i < |steps| ==> steps[i].t != t
    ensures var now := Run(s, identify, steps).value;
      && |now.threads| == |s.threads| && now.threads[t].context == s.threads[t].context
      && now.threads[t].seen == s.threads[t].seen && now.threads[t].pc == s.threads[t].pc
  {
    if steps != [] {
      RunLeaves(s, identify, steps[..|steps| - 1], t);
      StepLeaves(Run(s, identify, steps[..|steps| - 1]).value, identify, steps[|steps| - 1], t);
    }
    hide Do;
  }

  lemma StepLeaves(s: State, identify: Path -> Identity, step: Step, t: Tid)
    requires Do(s, identify, step).Some? && t < |s.threads| && step.t != t
    ensures var now := Do(s, identify, step).value;
      && |now.threads| == |s.threads| && now.threads[t].context == s.threads[t].context
      && now.threads[t].seen == s.threads[t].seen && now.threads[t].pc == s.threads[t].pc
  {}

  // ----- what the history says

  predicate Sets(step: Step) {
    step.Set? || step.OwnPath?
  }

  /** The path was set in these steps. */
  ghost predicate SomeSet(steps: seq<Step>) {
    exists i :: 0 <= i < |steps| && Sets(steps[i])
  }

  /** The path was set, and a switch counted after that. */
  ghost predicate SetThenBumped(steps: seq<Step>) {
    exists i, j :: 0 <= i < j < |steps| && Sets(steps[i]) && steps[j].Bump?
  }

  ghost predicate SomeOwnPath(steps: seq<Step>) {
    exists i :: 0 <= i < |steps| && steps[i].OwnPath?
  }

  lemma SetNext(before: seq<Step>, last: Step)
    ensures SomeSet(before + [last]) <==> SomeSet(before) || Sets(last)
    ensures SomeOwnPath(before + [last]) <==> SomeOwnPath(before) || last.OwnPath?
    ensures SetThenBumped(before + [last]) <==> SetThenBumped(before) || (SomeSet(before) && last.Bump?)
  {
    var all := before + [last];
    assert all[|before|] == last && forall i :: 0 <= i < |before| ==> all[i] == before[i];
  }

  ghost predicate OthersOnly(steps: seq<Step>, t: Tid) {
    forall i :: 0 <= i < |steps| ==> steps[i].t != t
  }

  /** Between the first two reads of a pass: moved where the path was set in between, and tainted where a switch was
      counted after that. */
  lemma {:induction false} PassHistory(s: State, identify: Path -> Identity, between: seq<Step>, t: Tid)
    requires Do(s, identify, Read(t)).Some? && OthersOnly(between, t)
    requires Run(Do(s, identify, Read(t)).value, identify, between).Some?
    ensures var now := Run(Do(s, identify, Read(t)).value, identify, between).value;
      && t < |now.threads| && now.threads[t].pc == ReadPath(identify(s.path))
      && (now.threads[t].moved <==> SomeSet(between)) && (now.threads[t].tainted <==> SetThenBumped(between))
  {
    hide SomeSet, SetThenBumped, Do;
    var began := Do(s, identify, Read(t)).value;
    if between == [] {
      NoHistory();
      PassBegins(s, identify, t);
    } else {
      var before, last := between[..|between| - 1], between[|between| - 1];
      PassHistory(s, identify, before, t);
      assert between == before + [last];
      SetNext(before, last);
      var mid := Run(began, identify, before).value;
      HistoryStep(mid, identify, last, t);
    }
  }

  lemma PassBegins(s: State, identify: Path -> Identity, t: Tid)
    requires Do(s, identify, Read(t)).Some?
    ensures var now := Do(s, identify, Read(t)).value;
      t < |now.threads| && now.threads[t].pc == ReadPath(identify(s.path)) && !now.threads[t].moved &&
      !now.threads[t].tainted
  {}

  lemma NoHistory()
    ensures !SomeSet([]) && !SetThenBumped([]) && !SomeOwnPath([])
  {}

  lemma HistoryStep(s: State, identify: Path -> Identity, step: Step, t: Tid)
    requires Do(s, identify, step).Some? && t < |s.threads| && step.t != t
    ensures var now := Do(s, identify, step).value;
      && t < |now.threads| && now.threads[t].pc == s.threads[t].pc && now.threads[t].clean == s.threads[t].clean
      && (now.threads[t].moved <==> s.threads[t].moved || Sets(step))
      && (now.threads[t].tainted <==>
        s.threads[t].tainted || (step.Bump? && s.threads[t].moved && s.threads[t].pc.ReadPath?))
  {}

  /** A pass past its first two reads keeps that, whoever does what. */
  lemma {:induction false} TaintStays(s: State, identify: Path -> Identity, steps: seq<Step>, t: Tid)
    requires t < |s.threads| && !s.threads[t].pc.ReadPath? && Run(s, identify, steps).Some? && Read(t) !in steps
    ensures var now := Run(s, identify, steps).value;
      t < |now.threads| && !now.threads[t].pc.ReadPath? && now.threads[t].tainted == s.threads[t].tainted
  {
    if steps != [] {
      TaintStays(s, identify, steps[..|steps| - 1], t);
      TaintStep(Run(s, identify, steps[..|steps| - 1]).value, identify, steps[|steps| - 1], t);
    }
    hide Do;
  }

  lemma TaintStep(s: State, identify: Path -> Identity, step: Step, t: Tid)
    requires Do(s, identify, step).Some? && t < |s.threads| && !s.threads[t].pc.ReadPath? && step != Read(t)
    ensures var now := Do(s, identify, step).value;
      t < |now.threads| && !now.threads[t].pc.ReadPath? && now.threads[t].tainted == s.threads[t].tainted
  {
    if step.t != t {
      HistoryStep(s, identify, step, t);
      hide Do;
    } else {
      OwnStepKeepsTaint(s, identify, step);
      hide Do;
    }
  }

  lemma OwnStepKeepsTaint(s: State, identify: Path -> Identity, step: Step)
    requires Do(s, identify, step).Some? && !s.threads[step.t].pc.ReadPath? && !step.Read?
    ensures var now := Do(s, identify, step).value;
      && step.t < |now.threads| && !now.threads[step.t].pc.ReadPath?
      && now.threads[step.t].tainted == s.threads[step.t].tainted
  {}

  /** What a pass records is clean exactly unless the path was set between its first two reads and a switch counted
      after that. */
  lemma RecordIsClean(s: State, identify: Path -> Identity, between: seq<Step>, after: seq<Step>, t: Tid)
    requires OthersOnly(between, t) && Read(t) !in after && Do(s, identify, Read(t)).Some?
    requires Run(Do(s, identify, Read(t)).value, identify, between).Some?
    requires var mid := Run(Do(s, identify, Read(t)).value, identify, between).value;
      Do(mid, identify, Count(t)).Some? && Run(Do(mid, identify, Count(t)).value, identify, after).Some?
    requires var mid := Run(Do(s, identify, Read(t)).value, identify, between).value;
      var late := Run(Do(mid, identify, Count(t)).value, identify, after).value;
      && t < |late.threads| && late.threads[t].pc == ReadAgain(identify(s.path), late.count, identify(s.path))
    ensures var mid := Run(Do(s, identify, Read(t)).value, identify, between).value;
      var late := Run(Do(mid, identify, Count(t)).value, identify, after).value;
      var now := Do(late, identify, Recount(t));
      && now.Some? && t < |now.value.threads|
      && now.value.threads[t].seen == Some(Seen(identify(s.path), late.count))
      && (now.value.threads[t].clean <==> !SetThenBumped(between))
  {
    PassHistory(s, identify, between, t);
    hide SetThenBumped, Run;
    var mid := Run(Do(s, identify, Read(t)).value, identify, between).value;
    TaintStays(Do(mid, identify, Count(t)).value, identify, after, t);
  }

  /** Since a switch was last counted: set where the path was set, and own where a caller set it. */
  lemma {:induction false} SwitchHistory(s: State, identify: Path -> Identity, u: Tid, steps: seq<Step>)
    requires Do(s, identify, Bump(u)).Some? && Run(Do(s, identify, Bump(u)).value, identify, steps).Some?
    requires forall i :: 0 <= i < |steps| ==> !steps[i].Bump?
    ensures var now := Run(Do(s, identify, Bump(u)).value, identify, steps).value;
      (now.set_ <==> SomeSet(steps)) && (now.own <==> SomeOwnPath(steps)) && now.count == s.count + 1
  {
    hide SomeSet, SomeOwnPath;
    if steps == [] {
      NoHistory();
    } else {
      var before, last := steps[..|steps| - 1], steps[|steps| - 1];
      SwitchHistory(s, identify, u, before);
      assert steps == before + [last];
      SetNext(before, last);
      SwitchHistoryStep(Run(Do(s, identify, Bump(u)).value, identify, before).value, identify, last);
      hide Do;
    }
  }

  lemma SwitchHistoryStep(s: State, identify: Path -> Identity, step: Step)
    requires Do(s, identify, step).Some? && !step.Bump?
    ensures var now := Do(s, identify, step).value;
      (now.set_ <==> s.set_ || Sets(step)) && (now.own <==> s.own || step.OwnPath?) && now.count == s.count
  {}
}
