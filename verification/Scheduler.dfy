/** The run queue and the round-robin scheduler (kernel.py: `_wake`, `_pick`, `run`, and the queue
    handling of `sys_fork`, `_exit_process`, `_reap`, `_take_signal` and `_build_signal_frame`). */
module Scheduler {
  import opened Words

  const IDLE_LIMIT: nat := 20000

  type Pid = nat

  datatype RunState = Running | Sleeping | Zombie | Stopped

  datatype Info = Info(state: RunState, kernelTask: bool, ppid: Pid, pgrp: int, exitCode: int)

  /** The process table as far as scheduling looks at it, and the queue of runnable processes. */
  datatype Sched = Sched(procs: map<Pid, Info>, runq: seq<Pid>)

  /** A process the scheduler may hand the processor to. */
  predicate Runnable(s: Sched, p: Pid) {
    p in s.procs && s.procs[p].state == Running && !s.procs[p].kernelTask
  }

  predicate NoDuplicates(q: seq<Pid>) {
    forall i, j :: 0 <= i < j < |q| ==> q[i] != q[j]
  }

  /** The queue has no duplicates, holds only RUNNING processes, and misses no RUNNING user process. */
  ghost predicate Sound(s: Sched) {
    && NoDuplicates(s.runq)
    && (forall p :: p in s.runq ==> p in s.procs && s.procs[p].state == Running)
    && (forall p :: Runnable(s, p) ==> p in s.runq)
  }

  // ---- Queue operations ----------------------------------------------------------------

  function Without(q: seq<Pid>, p: Pid): (r: seq<Pid>)
    ensures |r| <= |q|
    ensures forall x :: x in r ==> x in q
    ensures forall x :: x in q && x != p ==> x in r
    ensures NoDuplicates(q) ==> NoDuplicates(r) && p !in r
  {
    if |q| == 0 then []
    else if q[0] == p then q[1..]
    else
      var rest := Without(q[1..], p);
      assert forall x :: x in q ==> x == q[0] || x in q[1..];
      assert NoDuplicates(q) ==> NoDuplicates(q[1..]) && q[0] !in q[1..];
      [q[0]] + rest
  }

  function Enqueue(q: seq<Pid>, p: Pid): (r: seq<Pid>)
    ensures forall x :: x in r <==> x in q || x == p
    ensures NoDuplicates(q) ==> NoDuplicates(r)
  {
    if p in q then q else q + [p]
  }

  /** What the rest of the kernel does to the scheduler's state between two picks. */
  datatype Op =
    | Admit(pid: Pid, info: Info)   // fork, or init starting a shell
    | WakeUp(pid: Pid)              // a poll, a signal or a signal frame ends a sleep
    | Block(pid: Pid)               // a call raised Blocked
    | Stop(pid: Pid)                // a stop signal
    | Exit(pid: Pid, code: int)
    | Reap(pid: Pid)
    | SetGroup(pid: Pid, pgrp: int)

  function SetState(s: Sched, p: Pid, st: RunState): Sched
    requires p in s.procs
  {
    s.(procs := s.procs[p := s.procs[p].(state := st)])
  }

  /** Children of a dying process are handed to init. */
  function Orphaned(procs: map<Pid, Info>, p: Pid): map<Pid, Info> {
    map q | q in procs :: if procs[q].ppid == p then procs[q].(ppid := 1) else procs[q]
  }

  function Apply(s: Sched, op: Op): Sched {
    match op
    case Admit(p, info) =>
      if p in s.procs then s else Sched(s.procs[p := info.(state := Running)], Enqueue(s.runq, p))
    case WakeUp(p) =>
      if p !in s.procs || s.procs[p].state != Sleeping then s
      else SetState(s, p, Running).(runq := Enqueue(s.runq, p))
    case Block(p) =>
      if p !in s.procs || s.procs[p].state == Zombie then s
      else SetState(s, p, Sleeping).(runq := Without(s.runq, p))
    case Stop(p) =>
      if p !in s.procs || s.procs[p].state == Zombie then s
      else SetState(s, p, Stopped).(runq := Without(s.runq, p))
    case Exit(p, code) =>
      if p !in s.procs then s
      else
        var s1 := s.(procs := s.procs[p := s.procs[p].(state := Zombie, exitCode := code)]);
        Sched(Orphaned(s1.procs, p), Without(s.runq, p))
    case Reap(p) =>
      if p !in s.procs || s.procs[p].state != Zombie then s else s.(procs := s.procs - {p})
    case SetGroup(p, g) =>
      if p !in s.procs then s else s.(procs := s.procs[p := s.procs[p].(pgrp := g)])
  }

  lemma OpKeepsSound(s: Sched, op: Op)
    requires Sound(s)
    ensures Sound(Apply(s, op))
  {
  }

  // ---- Picking ------------------------------------------------------------------------------

  /** The loop of _pick, n rounds of it: dead processes leave the queue, the others rotate. */
  function PickFrom(procs: map<Pid, Info>, q: seq<Pid>, n: nat): (Option<Pid>, seq<Pid>)
    requires n <= |q|
    decreases n
  {
    if n == 0 then (None, q)
    else
      var p, rest := q[0], q[1..];
      if p !in procs || procs[p].state == Zombie then PickFrom(procs, rest, n - 1)
      else if procs[p].state == Running && !procs[p].kernelTask then (Some(p), rest + [p])
      else PickFrom(procs, rest + [p], n - 1)
  }

  function Pick(s: Sched): (Option<Pid>, Sched) {
    var (p, q) := PickFrom(s.procs, s.runq, |s.runq|);
    (p, s.(runq := q))
  }

  /** The queue turned so that its first k elements come last. */
  function Rotated(q: seq<Pid>, k: nat): seq<Pid>
    requires k <= |q|
  {
    q[k..] + q[..k]
  }

  /** The place of the first runnable process; the length if there is none. */
  function First(s: Sched, q: seq<Pid>): (k: nat)
    ensures k <= |q|
    ensures k < |q| ==> Runnable(s, q[k])
    ensures forall i :: 0 <= i < k ==> !Runnable(s, q[i])
  {
    if |q| == 0 || Runnable(s, q[0]) then 0 else 1 + First(s, q[1..])
  }

  lemma TurnOnce(q: seq<Pid>, j: nat)
    requires j < |q|
    ensures Rotated(q[1..] + [q[0]], j) == Rotated(q, j + 1)
  {
    var next := q[1..] + [q[0]];
    assert next[j..] == q[j + 1..] + [q[0]];
    assert next[..j] == q[1..j + 1];
    assert q[..j + 1] == [q[0]] + q[1..j + 1];
  }

  /** In a sound state the loop turns the queue just past the first runnable process. */
  lemma {:induction false} PickLoop(s: Sched, q: seq<Pid>, n: nat)
    requires n <= |q| && forall p :: p in q ==> p in s.procs && s.procs[p].state == Running
    ensures var k := First(s, q[..n]);
      PickFrom(s.procs, q, n) == if k < n then (Some(q[k]), Rotated(q, k + 1)) else (None, Rotated(q, n))
    decreases n
  {
    if n == 0 {
      assert Rotated(q, 0) == q;
    } else if Runnable(s, q[0]) {
      assert q[..n][0] == q[0];
      assert Rotated(q, 1) == q[1..] + [q[0]];
    } else {
      var p, next := q[0], q[1..] + [q[0]];
      PickLoop(s, next, n - 1);
      assert q[..n][0] == q[0] && next[..n - 1] == q[..n][1..];
      var k := First(s, next[..n - 1]);
      TurnOnce(q, if k < n - 1 then k + 1 else n - 1);
    }
  }

  /** A pick returns the first runnable process of the queue, which is nobody only when no process is
      runnable, and leaves a sound state: the queue turned past that process. */
  lemma PickExact(s: Sched)
    requires Sound(s)
    ensures var (r, s') := Pick(s);
      var k := First(s, s.runq);
      && Sound(s') && s'.procs == s.procs
      && (r.None? <==> forall p :: !Runnable(s, p))
      && (r.Some? ==> k < |s.runq| && r.value == s.runq[k] && s'.runq == Rotated(s.runq, k + 1))
      && (r.None? ==> s'.runq == s.runq)
  {
    var q := s.runq;
    PickLoop(s, q, |q|);
    assert q[..|q|] == q;
    assert Rotated(q, |q|) == q;
    RotationSound(s, Min(First(s, q) + 1, |q|));
  }

  lemma RotationSound(s: Sched, k: nat)
    requires Sound(s) && k <= |s.runq|
    ensures Sound(s.(runq := Rotated(s.runq, k)))
  {
    var q, r := s.runq, Rotated(s.runq, k);
    forall p ensures p in r <==> p in q {
      assert p in q ==> p in q[k..] || p in q[..k];
    }
  }

  // ---- Bounded waiting ------------------------------------------------------------------------

  function Place(q: seq<Pid>, p: Pid): (i: nat)
    requires p in q
    ensures i < |q| && q[i] == p
  {
    if q[0] == p then 0 else 1 + Place(q[1..], p)
  }

  lemma PlaceUnique(q: seq<Pid>, p: Pid, i: nat)
    requires NoDuplicates(q) && i < |q| && q[i] == p
    ensures Place(q, p) == i
  {
  }

  /** A pick of someone else brings p forward. */
  lemma PickAdvances(s: Sched, p: Pid)
    requires Sound(s) && Runnable(s, p) && Pick(s).0 != Some(p)
    ensures p in s.runq && p in Pick(s).1.runq && Place(Pick(s).1.runq, p) < Place(s.runq, p)
  {
    PickExact(s);
    var q, k, i := s.runq, First(s, s.runq), Place(s.runq, p);
    assert Pick(s).1.runq[i - (k + 1)] == p;
    PlaceUnique(Pick(s).1.runq, p, i - (k + 1));
  }

  lemma {:induction false} WithoutPlace(q: seq<Pid>, x: Pid, p: Pid)
    requires p in q && p != x
    ensures p in Without(q, x) && Place(Without(q, x), p) <= Place(q, p)
  {
    if q[0] != x && q[0] != p {
      WithoutPlace(q[1..], x, p);
      assert Without(q, x)[1..] == Without(q[1..], x);
    } else if q[0] == x {
      assert p in q[1..];
    }
  }

  lemma {:induction false} AppendPlace(q: seq<Pid>, x: Pid, p: Pid)
    requires p in q
    ensures p in q + [x] && Place(q + [x], p) == Place(q, p)
  {
    if q[0] != p {
      AppendPlace(q[1..], x, p);
      assert (q + [x])[1..] == q[1..] + [x];
    }
  }

  /** Whatever else happens between picks, a process that stays runnable does not move back. */
  lemma OpKeepsPlace(s: Sched, op: Op, p: Pid)
    requires Sound(s) && Runnable(s, p) && Runnable(Apply(s, op), p)
    ensures p in s.runq && p in Apply(s, op).runq && Place(Apply(s, op).runq, p) <= Place(s.runq, p)
  {
    hide Apply, Sound, Place;
    SoundQueued(s, p);
    match op
    case Admit(x, _) => EnqueuePlace(s.runq, x, p); QueueAfter(s, op, x);
    case WakeUp(x) => EnqueuePlace(s.runq, x, p); QueueAfter(s, op, x);
    case Block(x) => QueueAfter(s, op, x); LeftPlace(s, op, x, p);
    case Stop(x) => QueueAfter(s, op, x); LeftPlace(s, op, x, p);
    case Exit(x, _) => QueueAfter(s, op, x); LeftPlace(s, op, x, p);
    case Reap(x) => QueueAfter(s, op, x);
    case SetGroup(x, _) => QueueAfter(s, op, x);
  }

  lemma SoundQueued(s: Sched, p: Pid)
    requires Sound(s) && Runnable(s, p)
    ensures p in s.runq
  {
  }

  /** An operation on x leaves the queue, appends x or takes it out. */
  lemma QueueAfter(s: Sched, op: Op, x: Pid)
    requires op.pid == x
    ensures var q := Apply(s, op).runq;
      || q == s.runq || ((op.Admit? || op.WakeUp?) && q == Enqueue(s.runq, x))
      || ((op.Block? || op.Stop? || op.Exit?) && q == Without(s.runq, x))
  {
    hide Orphaned, Enqueue, Without;
  }

  lemma EnqueuePlace(q: seq<Pid>, x: Pid, p: Pid)
    requires p in q
    ensures p in Enqueue(q, x) && Place(Enqueue(q, x), p) == Place(q, p)
  {
    AppendPlace(q, x, p);
  }

  /** Who is taken out by a block, a stop or an exit is not runnable afterwards. */
  lemma LeftPlace(s: Sched, op: Op, x: Pid, p: Pid)
    requires (op.Block? || op.Stop? || op.Exit?) && op.pid == x && p in s.runq && Runnable(Apply(s, op), p)
    ensures p in Without(s.runq, x) ==> Place(Without(s.runq, x), p) <= Place(s.runq, p)
    ensures Apply(s, op).runq == s.runq || p in Without(s.runq, x)
  {
    hide Without, Place;
    if x != p { WithoutPlace(s.runq, x, p); } else { NotRunnable(s, op, x); }
  }

  lemma NotRunnable(s: Sched, op: Op, x: Pid)
    requires (op.Block? || op.Stop? || op.Exit?) && op.pid == x
    ensures Runnable(Apply(s, op), x) ==> Apply(s, op).runq == s.runq
  {
    hide Without;
  }

  /** One event of a scheduler's history. */
  datatype Event = Picked(result: Option<Pid>) | Did(op: Op)

  predicate Happens(s: Sched, e: Event, s': Sched) {
    match e
    case Picked(r) => Pick(s) == (r, s')
    case Did(op) => Apply(s, op) == s'
  }

  /** A history: one more state than events. */
  ghost predicate IsHistory(states: seq<Sched>, events: seq<Event>) {
    && |states| == |events| + 1 && Sound(states[0])
    && forall i :: 0 <= i < |events| ==> Happens(states[i], events[i], states[i + 1])
  }

  function Picks(events: seq<Event>): nat {
    if |events| == 0 then 0 else (if events[0].Picked? then 1 else 0) + Picks(events[1..])
  }

  lemma EventKeepsSound(s: Sched, e: Event, s': Sched)
    requires Sound(s) && Happens(s, e, s')
    ensures Sound(s')
  {
    match e
    case Picked(r) => PickExact(s);
    case Did(op) => OpKeepsSound(s, op);
  }

  /** Soundness holds in every state of every history. */
  lemma {:induction false} HistorySound(states: seq<Sched>, events: seq<Event>, i: nat)
    requires IsHistory(states, events) && i < |states|
    ensures Sound(states[i])
  {
    if i > 0 {
      HistorySound(states, events, i - 1);
      EventKeepsSound(states[i - 1], events[i - 1], states[i]);
    }
  }

  /** As long as a process is runnable and not picked, the picks of others are bounded by its place. */
  lemma {:induction false} OthersBounded(states: seq<Sched>, events: seq<Event>, p: Pid)
    requires IsHistory(states, events)
    requires forall i :: 0 <= i < |states| ==> Runnable(states[i], p)
    requires forall i :: 0 <= i < |events| ==> events[i] != Picked(Some(p))
    ensures p in states[0].runq && Picks(events) <= Place(states[0].runq, p)
    decreases |events|
  {
    if |events| > 0 {
      EventKeepsSound(states[0], events[0], states[1]);
      OthersBounded(states[1..], events[1..], p);
      match events[0]
      case Picked(_) => PickAdvances(states[0], p);
      case Did(op) => OpKeepsPlace(states[0], op, p);
    }
  }

  /** Bounded waiting: a user process that stays RUNNING and stands at index k of the queue is
      returned by one of the next k + 1 picks, whatever forks, wake-ups, blocks and exits happen in
      between. */
  lemma BoundedWaiting(states: seq<Sched>, events: seq<Event>, p: Pid)
    requires IsHistory(states, events)
    requires forall i :: 0 <= i < |states| ==> Runnable(states[i], p)
    requires p in states[0].runq && Picks(events) >= Place(states[0].runq, p) + 1
    ensures exists i :: 0 <= i < |events| && events[i] == Picked(Some(p))
  {
    if forall i :: 0 <= i < |events| ==> events[i] != Picked(Some(p)) {
      OthersBounded(states, events, p);
    }
  }

  // ---- The scheduler's main loop -----------------------------------------------------------------

  /** What the world contributes to one round: the operations caused by the terminal, alarms, polls,
      signals and init before the pick; after it, the operations caused by the time slice and the
      instructions it took; and the conditions the loop looks at (`over`: the slice ended init). */
  datatype Round = Round(before: seq<Op>, slice: seq<Op>, icount: nat,
                         quit: bool, alive: bool, initDone: bool, over: bool)

  function ApplyAll(s: Sched, ops: seq<Op>): Sched
    decreases |ops|
  {
    if |ops| == 0 then s else ApplyAll(Apply(s, ops[0]), ops[1..])
  }

  lemma {:induction false} ApplyAllSound(s: Sched, ops: seq<Op>)
    requires Sound(s)
    ensures Sound(ApplyAll(s, ops))
    decreases |ops|
  {
    if |ops| > 0 {
      OpKeepsSound(s, ops[0]);
      ApplyAllSound(Apply(s, ops[0]), ops[1..]);
    }
  }

  class RunQueue {
    var procs: map<Pid, Info>
    var runq: seq<Pid>

    function Value(): Sched
      reads this
    {
      Sched(procs, runq)
    }

    constructor ()
      ensures procs == map[] && runq == []
    {
      procs, runq := map[], [];
    }

    /** Starting the loop puts the booted process into the queue. */
    method Start(current: Pid)
      requires current in procs && procs[current].state == Running && runq == []
      requires forall p :: Runnable(Value(), p) ==> p == current
      modifies this`runq
      ensures Sound(Value()) && runq == [current]
    {
      if current !in runq { runq := runq + [current]; }
      assert forall p :: Runnable(Value(), p) <==> Runnable(old(Value()), p);
    }

    method PickNext() returns (r: Option<Pid>)
      modifies this`runq
      ensures Pick(old(Value())) == (r, Value())
    {
      var n := |runq|;
      ghost var whole := PickFrom(procs, runq, n);
      for i := 0 to n
        invariant |runq| >= n - i && PickFrom(procs, runq, n - i) == whole
      {
        var p := runq[0];
        runq := runq[1..];
        if p !in procs || procs[p].state == Zombie { continue; }
        runq := runq + [p];
        if procs[p].state == Running && !procs[p].kernelTask { return Some(p); }
      }
      r := None;
    }

    method Wake(p: Pid)
      modifies this
      ensures Value() == Apply(old(Value()), WakeUp(p))
    {
      if p !in procs || procs[p].state != Sleeping { return; }
      procs := procs[p := procs[p].(state := Running)];
      if p !in runq { runq := runq + [p]; }
    }

    method ExitProcess(p: Pid, code: int)
      modifies this
      ensures Value() == Apply(old(Value()), Exit(p, code))
    {
      if p !in procs { return; }
      procs := procs[p := procs[p].(state := Zombie, exitCode := code)];
      ghost var before := procs;
      var todo := procs.Keys;
      while todo != {}
        invariant todo <= procs.Keys == before.Keys && runq == old(runq)
        invariant forall q :: q in before ==> procs[q] == if q in todo then before[q] else Orphaned(before, p)[q]
        decreases todo
      {
        var q :| q in todo;
        if procs[q].ppid == p { procs := procs[q := procs[q].(ppid := 1)]; }
        todo := todo - {q};
      }
      assert procs == Orphaned(before, p);
      runq := Without(runq, p);
      assert Value() == Sched(Orphaned(before, p), Without(old(runq), p));
    }

    method Perform(ops: seq<Op>)
      requires Sound(Value())
      modifies this
      ensures Sound(Value()) && Value() == ApplyAll(old(Value()), ops)
    {
      ghost var s := Value();
      ApplyAllSound(s, ops);
      for i := 0 to |ops|
        invariant ApplyAll(Value(), ops[i..]) == ApplyAll(s, ops)
      {
        var next := Apply(Value(), ops[i]);
        procs, runq := next.procs, next.runq;
        assert ops[i..][1..] == ops[i + 1..];
      }
    }

    /** The scheduling loop: it ends within the instruction budget or after the idle limit, whatever
        the rounds bring, and every state it passes through is sound. `rounds` counts the rounds. */
    method Run(budget: nat, world: nat -> Round) returns (total: nat, rounds: nat)
      requires Sound(Value())
      modifies this
      ensures Sound(Value())
      ensures rounds <= total * (IDLE_LIMIT + 1) + IDLE_LIMIT + 1
    {
      total, rounds := 0, 0;
      var idle := 0;
      while total < budget
        invariant Sound(Value()) && 0 <= idle <= IDLE_LIMIT
        invariant rounds <= total * (IDLE_LIMIT + 1) + idle
        decreases budget - total, IDLE_LIMIT - idle
      {
        var w := world(rounds);
        if w.quit { return; }
        Perform(w.before);
        PickExact(Value());
        var p := PickNext();
        rounds := rounds + 1;
        if p.None? {
          if !w.alive && w.initDone { break; }
          idle := idle + 1;
          if idle > IDLE_LIMIT { break; }
          continue;
        }
        idle := 0;
        Perform(w.slice);
        total := total + Max(w.icount, 1);
        if w.over { return; }
      }
    }
  }
}
