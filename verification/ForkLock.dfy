module ForkLock {
  // Taking a lock again within itself, and forking while it is taken
  // (`_Lock` and the fork hooks of geodetic_engine/_search_path.py).
  //
  // `Lock` is the object one process holds. A child is a copy with the raw lock reset,
  // and only the forking thread; the `with` blocks it inherits are still open in it.

  import opened Options

  type Tid = nat
  type Pid = nat

  /** The raw lock's owner and depth, and for each thread the process ids it entered under. */
  datatype Process = Process(pid: Pid, owner: Option<Tid>, depth: nat, entered: map<Tid, seq<Pid>>) {
    function Stack(t: Tid): seq<Pid> {
      if t in entered then entered[t] else []
    }

    /** Open blocks of a thread stamped with this process's own id. */
    function Own(t: Tid): nat {
      multiset(Stack(t))[pid]
    }

    predicate MayAcquire(t: Tid) {
      owner.None? || owner == Some(t)
    }

    /** The depth is the number of open blocks stamped with the process's own id, all of
        them the owner's. */
    ghost predicate Balanced() {
      && (owner.None? <==> depth == 0)
      && (forall t: Tid :: Own(t) == if owner == Some(t) then depth else 0)
    }
  }

  function Entered(p: Process, t: Tid): Process {
    p.(owner := Some(t), depth := p.depth + 1, entered := p.entered[t := p.Stack(t) + [p.pid]])
  }

  /** What leaving a block gives, and whether a lock the thread does not hold was released. */
  function Exited(p: Process, t: Tid): (Process, bool)
    requires p.Stack(t) != []
  {
    var stack := p.Stack(t);
    var left := p.(entered := p.entered[t := stack[..|stack| - 1]]);
    if stack[|stack| - 1] != p.pid then (left, false)
    else if p.owner != Some(t) || p.depth == 0 then (left, true)
    else if p.depth == 1 then (left.(owner := None, depth := 0), false)
    else (left.(depth := p.depth - 1), false)
  }

  /** Forked by thread t: the raw lock free, and no thread but t. */
  function Child(p: Process, t: Tid, pid: Pid): Process {
    Process(pid, None, 0, map[t := p.Stack(t)])
  }

  class Lock {
    const pid: Pid
    var owner: Option<Tid>
    var depth: nat
    var entered: map<Tid, seq<Pid>>

    function State(): Process
      reads this
    {
      Process(pid, owner, depth, entered)
    }

    constructor (pid: Pid, owner: Option<Tid>, depth: nat, entered: map<Tid, seq<Pid>>)
      ensures State() == Process(pid, owner, depth, entered)
    {
      this.pid, this.owner, this.depth, this.entered := pid, owner, depth, entered;
    }

    /** Returns once the raw lock is the thread's. */
    method Enter(t: Tid)
      requires State().MayAcquire(t)
      modifies this
      ensures State() == Entered(old(State()), t)
    {
      owner, depth := Some(t), depth + 1;
      if t !in entered {
        entered := entered[t := []];
      }
      entered := entered[t := entered[t] + [pid]];
    }

    method Exit(t: Tid) returns (unheld: bool)
      requires State().Stack(t) != []
      modifies this
      ensures (State(), unheld) == Exited(old(State()), t)
    {
      var stack := entered[t];
      var top := stack[|stack| - 1];
      entered := entered[t := stack[..|stack| - 1]];
      unheld := false;
      if top == pid {
        if owner != Some(t) || depth == 0 {
          unheld := true;
        } else {
          depth := depth - 1;
          if depth == 0 {
            owner := None;
          }
        }
      }
    }

    /** The hooks round a fork: acquire, then release in the parent and reset in the child. */
    method Fork(t: Tid, childPid: Pid) returns (child: Lock)
      requires State().MayAcquire(t) && (owner.None? <==> depth == 0)
      modifies this
      ensures State() == old(State()) && child.State() == Child(State(), t, childPid)
    {
      owner, depth := Some(t), depth + 1;
      child := new Lock(childPid, None, 0, map[t := State().Stack(t)]);
      depth := depth - 1;
      if depth == 0 {
        owner := None;
      }
    }
  }

  // ----- one step

  lemma EnterBalanced(p: Process, t: Tid)
    requires p.Balanced() && p.MayAcquire(t)
    ensures Entered(p, t).Balanced()
  {
    var after := Entered(p, t);
    forall u: Tid ensures after.Own(u) == if u == t then p.Own(u) + 1 else p.Own(u) {}
  }

  lemma PopCount(stack: seq<Pid>, pid: Pid)
    requires stack != []
    ensures multiset(stack)[pid]
      == multiset(stack[..|stack| - 1])[pid] + (if stack[|stack| - 1] == pid then 1 else 0)
  {
    assert stack == stack[..|stack| - 1] + [stack[|stack| - 1]];
  }

  /** Leaving a block keeps the balance, and never releases a lock that is not held. */
  lemma ExitBalanced(p: Process, t: Tid)
    requires p.Balanced() && p.Stack(t) != []
    ensures Exited(p, t).0.Balanced() && !Exited(p, t).1
  {
    var (after, unheld) := Exited(p, t);
    PopCount(p.Stack(t), p.pid);
    assert p.Own(t) == if p.owner == Some(t) then p.depth else 0;
    forall u: Tid | u != t ensures after.Own(u) == p.Own(u) {}
  }

  /** A child is balanced exactly when its id is none the inherited blocks are stamped with. */
  lemma ChildBalancedIff(p: Process, t: Tid, pid: Pid)
    ensures Child(p, t, pid).Balanced() <==> pid !in p.Stack(t)
  {
    var child := Child(p, t, pid);
    assert child.Own(t) == multiset(p.Stack(t))[pid];
  }

  /** With an id that a block still open was stamped with, the child would release a lock it
      does not hold on leaving that block, and every block inherited after it first. */
  lemma {:induction false} ReusedIdReleasesUnheld(p: Process, t: Tid, pid: Pid)
    requires pid in p.Stack(t)
    ensures exists n :: 0 <= n < |p.Stack(t)| && Exited(Leaving(Child(p, t, pid), t, n), t).1
  {
    var stack := p.Stack(t);
    var k := |stack| - 1;
    while stack[k] != pid
      invariant 0 <= k < |stack|
      invariant pid in stack[..k + 1]
      invariant forall i :: k < i < |stack| ==> stack[i] != pid
      decreases k
    {
      assert stack[..k + 1] == stack[..k] + [stack[k]];
      assert pid in stack[..k];
      k := k - 1;
    }
    LeavingInherited(Child(p, t, pid), t, |stack| - 1 - k);
  }

  /** The process after leaving n blocks of a thread. */
  function Leaving(p: Process, t: Tid, n: nat): Process
    requires n <= |p.Stack(t)|
    ensures |Leaving(p, t, n).Stack(t)| == |p.Stack(t)| - n
  {
    if n == 0 then p else Exited(Leaving(p, t, n - 1), t).0
  }

  /** Blocks stamped with another id leave the raw lock as it is. */
  lemma {:induction false} LeavingInherited(p: Process, t: Tid, n: nat)
    requires n <= |p.Stack(t)|
    requires forall i :: |p.Stack(t)| - n <= i < |p.Stack(t)| ==> p.Stack(t)[i] != p.pid
    ensures var left := Leaving(p, t, n);
      && left.owner == p.owner && left.depth == p.depth && left.pid == p.pid
      && left.Stack(t) == p.Stack(t)[..|p.Stack(t)| - n]
  {
    if n > 0 {
      LeavingInherited(p, t, n - 1);
    }
  }

  // ----- every run of nested blocks and forks

  datatype World = World(processes: seq<Process>, used: set<Pid>)

  datatype Event = Enter(i: nat, t: Tid) | Exit(i: nat, t: Tid) | Fork(i: nat, t: Tid, pid: Pid)

  /** A fork's process id is one no process of the run had before. */
  function Do(w: World, e: Event): Option<World> {
    if e.i >= |w.processes| then None else
      var p := w.processes[e.i];
      match e
      case Enter(i, t) =>
        if !p.MayAcquire(t) then None else Some(w.(processes := w.processes[i := Entered(p, t)]))
      case Exit(i, t) =>
        if p.Stack(t) == [] then None else Some(w.(processes := w.processes[i := Exited(p, t).0]))
      case Fork(_, t, pid) =>
        if !p.MayAcquire(t) || pid in w.used then None
        else Some(World(w.processes + [Child(p, t, pid)], w.used + {pid}))
  }

  function Run(w: World, events: seq<Event>): Option<World> {
    if events == [] then Some(w) else
      var before := Run(w, events[..|events| - 1]);
      if before.None? then None else Do(before.value, events[|events| - 1])
  }

  /** A process is balanced, and every id in sight is a used one. */
  ghost predicate Sound(p: Process, used: set<Pid>) {
    p.Balanced() && p.pid in used && forall t: Tid, id :: id in p.Stack(t) ==> id in used
  }

  ghost predicate AllSound(w: World) {
    forall i :: 0 <= i < |w.processes| ==> Sound(w.processes[i], w.used)
  }

  lemma EnterSound(p: Process, t: Tid, used: set<Pid>)
    requires Sound(p, used) && p.MayAcquire(t)
    ensures Sound(Entered(p, t), used)
  {
    EnterBalanced(p, t);
    forall u: Tid, id | id in Entered(p, t).Stack(u) ensures id in used {
      assert id in p.Stack(u) || id == p.pid;
    }
  }

  lemma ExitSound(p: Process, t: Tid, used: set<Pid>)
    requires Sound(p, used) && p.Stack(t) != []
    ensures Sound(Exited(p, t).0, used) && !Exited(p, t).1
  {
    ExitBalanced(p, t);
    forall u: Tid, id | id in Exited(p, t).0.Stack(u) ensures id in used {
      assert id in p.Stack(u);
    }
  }

  lemma ForkSound(p: Process, t: Tid, pid: Pid, used: set<Pid>)
    requires Sound(p, used) && pid !in used
    ensures Sound(Child(p, t, pid), used + {pid}) && Sound(p, used + {pid})
  {
    ChildBalancedIff(p, t, pid);
    forall u: Tid, id | id in Child(p, t, pid).Stack(u) ensures id in used {
      assert id in p.Stack(t);
    }
  }

  lemma StepKeeps(w: World, e: Event)
    requires AllSound(w) && Do(w, e).Some?
    ensures AllSound(Do(w, e).value)
    ensures e.Exit? ==> !Exited(w.processes[e.i], e.t).1
  {
    var p := w.processes[e.i];
    match e
    case Enter(_, t) => EnterSound(p, t, w.used);
    case Exit(_, t) => ExitSound(p, t, w.used);
    case Fork(_, t, pid) =>
      forall i | 0 <= i < |w.processes| ensures Sound(w.processes[i], w.used + {pid}) {
        ForkSound(w.processes[i], t, pid, w.used);
      }
      ForkSound(p, t, pid, w.used);
  }

  /** No other thread of the process is in a block stamped with its own id. */
  ghost predicate Alone(p: Process, t: Tid) {
    forall u: Tid :: u != t ==> p.Own(u) == 0
  }

  lemma AloneMayAcquire(p: Process, t: Tid)
    requires p.Balanced()
    ensures p.MayAcquire(t) <==> Alone(p, t)
  {
    if p.owner.Some? && p.owner != Some(t) {
      assert p.Own(p.owner.value) == p.depth > 0;
    }
  }

  /** A thread may enter, or fork, exactly where no other thread is in a block of the process: within its own blocks it
      may enter again. A fork adds one process, under an id that was never used, and changes no other. */
  lemma EntersExactly(w: World, i: nat, t: Tid, pid: Pid)
    requires AllSound(w) && i < |w.processes|
    ensures Do(w, Enter(i, t)).Some? <==> Alone(w.processes[i], t)
    ensures Do(w, Fork(i, t, pid)).Some? <==> Alone(w.processes[i], t) && pid !in w.used
    ensures Do(w, Exit(i, t)).Some? <==> w.processes[i].Stack(t) != []
    ensures Do(w, Fork(i, t, pid)).Some? ==>
      var now := Do(w, Fork(i, t, pid)).value;
      && now.processes[..|w.processes|] == w.processes && |now.processes| == |w.processes| + 1
      && now.processes[|w.processes|].pid == pid && now.used == w.used + {pid}
  {
    assert Sound(w.processes[i], w.used);
    AloneMayAcquire(w.processes[i], t);
    hide Alone;
  }

  /** Over every run from one process with no block open, each process's lock depth is the
      number of its open blocks stamped with its own id, and no step releases a lock that
      is not held. */
  lemma {:induction false} RunIsSound(pid: Pid, events: seq<Event>)
    requires Run(World([Process(pid, None, 0, map[])], {pid}), events).Some?
    ensures AllSound(Run(World([Process(pid, None, 0, map[])], {pid}), events).value)
    ensures events != [] && events[|events| - 1].Exit? ==>
      var last := events[|events| - 1];
      var before := Run(World([Process(pid, None, 0, map[])], {pid}), events[..|events| - 1]).value;
      !Exited(before.processes[last.i], last.t).1
  {
    if events == [] {
      return;
    }
    var start := World([Process(pid, None, 0, map[])], {pid});
    RunIsSound(pid, events[..|events| - 1]);
    StepKeeps(Run(start, events[..|events| - 1]).value, events[|events| - 1]);
  }
}
