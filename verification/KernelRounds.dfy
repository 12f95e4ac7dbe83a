/** Rounds of the scheduler on the whole kernel: no step moves a waiting process back in the queue, so
    waiting is bounded; and the loops over all processes as they run. */
module KernelRounds {
  import opened Words
  import opened Memory
  import opened Handlers
  import opened Kernel
  import opened KernelProofs
  import opened KernelSleep
  import D = Descriptors
  import S = Scheduler
  import G = Signals

  /** If p can still run, it stands no further back. */
  ghost predicate NotBack(s: S.Sched, s': S.Sched, p: Pid) {
    S.Runnable(s, p) && S.Runnable(s', p) ==>
      p in s.runq && p in s'.runq && S.Place(s'.runq, p) <= S.Place(s.runq, p)
  }

  /** As NotBack, and p can still run if it could. */
  ghost predicate Onward(s: S.Sched, s': S.Sched, p: Pid) {
    S.Sound(s) && S.Sound(s') && (S.Runnable(s, p) ==> S.Runnable(s', p)) && NotBack(s, s', p)
  }

  lemma OnwardTrans(a: S.Sched, b: S.Sched, c: S.Sched, p: Pid)
    requires Onward(a, b, p) && NotBack(b, c, p)
    ensures NotBack(a, c, p)
    ensures Onward(b, c, p) ==> Onward(a, c, p)
  {
    hide S.Sound;
  }

  lemma OnwardSame(s: S.Sched, p: Pid)
    requires S.Sound(s)
    ensures Onward(s, s, p)
  {
  }

  lemma OpNotBack(s: S.Sched, op: S.Op, p: Pid)
    requires S.Sound(s)
    ensures NotBack(s, S.Apply(s, op), p) && S.Sound(S.Apply(s, op))
  {
    hide S.Sound, S.Apply;
    S.OpKeepsSound(s, op);
    if S.Runnable(s, p) && S.Runnable(S.Apply(s, op), p) { S.OpKeepsPlace(s, op, p); }
  }

  lemma OpOnward(s: S.Sched, op: S.Op, p: Pid)
    requires S.Sound(s)
    requires op.WakeUp? || op.Admit? || op.SetGroup? || op.Reap? || (op.pid != p && (op.Block? || op.Stop? || op.Exit?))
    ensures Onward(s, S.Apply(s, op), p)
  {
    hide S.Sound;
    OpNotBack(s, op, p);
  }

  lemma WakeOnward(k: K, x: Pid, interrupted: bool, p: Pid)
    requires Known(k, x) && S.Sound(k.s)
    ensures Onward(k.s, Wake(k, x, interrupted).s, p)
  {
    hide S.Sound, S.Apply, Onward;
    OnwardSame(k.s, p);
    OpOnward(k.s, S.WakeUp(x), p);
  }

  lemma PostOnward(k: K, x: Pid, sig: int, p: Pid)
    requires Known(k, x) && S.Sound(k.s)
    ensures Onward(k.s, PostSignal(k, x, sig).s, p)
  {
    hide S.Sound, Onward, Wake, Noticed, BlockedBit;
    OnwardSame(k.s, p);
    if 1 <= sig <= 32 {
      WakeOnward(k.(u := k.u[x := k.u[x].(pending := k.u[x].pending + {sig})]), x, true, p);
    }
  }

  lemma {:induction false} PostAllOnward(k: K, ps: seq<Pid>, sig: int, p: Pid)
    requires (forall q :: q in ps ==> Known(k, q)) && S.Sound(k.s)
    ensures Onward(k.s, PostAll(k, ps, sig).s, p)
    decreases |ps|
  {
    hide S.Sound, NotBack, PostSignal;
    OnwardSame(k.s, p);
    if |ps| > 0 {
      var k1 := PostSignal(k, ps[0], sig);
      assert forall q :: q in ps[1..] ==> q in ps && (Known(k1, q) <==> Known(k, q));
      PostOnward(k, ps[0], sig, p);
      PostAllOnward(k1, ps[1..], sig, p);
      OnwardTrans(k.s, k1.s, PostAll(k1, ps[1..], sig).s, p);
    }
  }

  /** Another process's death, and what its parent is told. */
  lemma ExitOnward(k: K, x: Pid, code: int, p: Pid)
    requires Inv(k) && D.Exact(k.d) && Domains(k) && Known(k, x) && x != p
    ensures Onward(k.s, ExitProcess(k, x, code).s, p)
  {
    hide Inv, D.Exact, D.ExitTable, Domains, PostSignal, Wake, S.Apply, S.Sound, NotBack, Onward;
    InvParts(k);
    BuriedKeeps(k, x, code);
    var k1 := Buried(k, x, code);
    InvParts(k1);
    DomainsOf(k1);
    OpOnward(k.s, S.Exit(x, code), p);
    var parent := k1.s.procs[x].ppid;
    if parent in k1.s.procs {
      var k2 := PostSignal(k1, parent, SIGCHLD);
      PostOnward(k1, parent, SIGCHLD, p);
      OnwardTransitive(k.s, k1.s, k2.s, p);
      OnwardSound(k1.s, k2.s, p);
      WakeOnward(k2, parent, false, p);
      OnwardTransitive(k.s, k2.s, Wake(k2, parent, false).s, p);
    }
  }

  lemma ExitedIsDead(k: K, x: Pid, code: int)
    requires Inv(k) && D.Exact(k.d) && Domains(k) && Known(k, x)
    ensures In(ExitProcess(k, x, code), x, S.Zombie)
  {
    hide Inv, D.Exact, Domains, D.ExitTable, PostSignal, Wake;
    D.ExitResult(k.d, x);
    var k1 := Buried(k, x, code);
    var parent := k1.s.procs[x].ppid;
    if parent in k1.s.procs {
      BuriedKeeps(k, x, code);
      DomainsOf(k1);
      DeadStaysDead(k1, parent, x);
    }
  }

  lemma ExitNotBack(k: K, x: Pid, code: int, p: Pid)
    requires Inv(k) && D.Exact(k.d) && Domains(k) && Known(k, x)
    ensures NotBack(k.s, ExitProcess(k, x, code).s, p)
  {
    hide Inv, D.Exact, Domains, ExitProcess, Onward;
    if x == p {
      ExitedIsDead(k, x, code);
    } else {
      ExitOnward(k, x, code, p);
      OnwardIsNotBack(k.s, ExitProcess(k, x, code).s, p);
    }
  }

  lemma OnwardSound(s: S.Sched, s': S.Sched, p: Pid)
    requires Onward(s, s', p)
    ensures S.Sound(s')
  {
  }

  lemma OnwardTransitive(a: S.Sched, b: S.Sched, c: S.Sched, p: Pid)
    requires Onward(a, b, p) && Onward(b, c, p)
    ensures Onward(a, c, p)
  {
    OnwardTrans(a, b, c, p);
  }

  lemma OnwardIsNotBack(s: S.Sched, s': S.Sched, p: Pid)
    ensures Onward(s, s', p) ==> NotBack(s, s', p)
  {
    hide S.Sound;
  }

  lemma DeadStaysDead(k: K, parent: Pid, p: Pid)
    requires Known(k, parent) && In(k, p, S.Zombie)
    ensures var k2 := PostSignal(k, parent, SIGCHLD);
      In(k2, p, S.Zombie) && (Known(k2, parent) ==> In(Wake(k2, parent, false), p, S.Zombie))
  {
    hide Noticed, BlockedBit;
  }

  lemma TakeNotBack(k: K, x: Pid, sig: nat, p: Pid)
    requires Inv(k) && D.Exact(k.d) && Known(k, x) && Domains(k) && 1 <= sig <= 32 && M(k, x).mem.Valid()
    ensures NotBack(k.s, TakeSignal(k, x, sig).s, p)
  {
    hide Inv, D.Exact, Domains, ExitProcess, G.Deliver, S.Apply, S.Sound, NotBack, Onward;
    InvParts(k);
    OnwardSame(k.s, p);
    OnwardIsNotBack(k.s, k.s, p);
    OpNotBack(k.s, S.Stop(x), p);
    OpNotBack(k.s, S.WakeUp(x), p);
    ExitNotBack(k, x, sig, p);
  }

  lemma DeliverNotBack(k: K, x: Pid, p: Pid)
    requires Inv(k) && D.Exact(k.d) && Known(k, x) && Domains(k) && M(k, x).mem.Valid()
    ensures NotBack(k.s, DeliverOne(k, x).s, p)
  {
    hide Inv, D.Exact, Domains, TakeSignal, S.Sound, NotBack, Onward;
    InvParts(k);
    OnwardSame(k.s, p);
    OnwardIsNotBack(k.s, k.s, p);
    if !In(k, x, S.Zombie) && Deliverable(k.u[x]) != {} {
      SomeSignal(Deliverable(k.u[x]));
      var sig := Lowest(Deliverable(k.u[x]), 1);
      PendingKeeps(k, x, k.u[x].pending - {sig});
      var k1 := k.(u := k.u[x := k.u[x].(pending := k.u[x].pending - {sig})]);
      DomainsOf(k1);
      TakeNotBack(k1, x, sig, p);
    }
  }

  /** What a call does to the queue: nothing, one operation, or the wake-ups of a kill. */
  lemma DispatchOnward(k: K, x: Pid, env: Env, p: Pid)
    requires Inv(k) && CanCall(k, x)
    ensures Dispatch(k, x, env).Return? ==> Onward(k.s, Dispatch(k, x, env).k.s, p)
    ensures Dispatch(k, x, env).Replaced? ==> Onward(k.s, Dispatch(k, x, env).k.s, p)
  {
    hide Inv, D.Exact, Domains, S.Sound, Onward, ReadCall, WriteCall, DescCall, ProcCall;
    InvParts(k);
    OnwardSame(k.s, p);
    FileCallsKeepQueue(k, x, env);
    ProcOnward(k, x, env, p);
  }

  lemma FileCallsKeepQueue(k: K, x: Pid, env: Env)
    requires CanCall(k, x)
    ensures ReadCall(k, x, env).Return? ==> ReadCall(k, x, env).k.s == k.s
    ensures WriteCall(k, x, env).Return? ==> WriteCall(k, x, env).k.s == k.s
    ensures DescCall(k, x, env).Return? && DescCall(k, x, env).k.s == k.s
    ensures !ReadCall(k, x, env).Replaced? && !WriteCall(k, x, env).Replaced?
  {
    hide D.Exact, Domains, ReadCall, WriteCall, DescCall;
    DescKeepsQueue(k, x, env);
    TransfersKeepQueue(k, x, env);
  }

  lemma DescKeepsQueue(k: K, x: Pid, env: Env)
    requires CanCall(k, x)
    ensures DescCall(k, x, env).Return? && DescCall(k, x, env).k.s == k.s
  {
    hide D.Exact, Domains, D.Close, D.DupFrom, D.Dup2, D.MakePipe, D.OpenObject, D.SetStatus, StatusFlags;
  }

  lemma TransfersKeepQueue(k: K, x: Pid, env: Env)
    requires CanCall(k, x)
    ensures ReadCall(k, x, env).Return? ==> ReadCall(k, x, env).k.s == k.s
    ensures WriteCall(k, x, env).Return? ==> WriteCall(k, x, env).k.s == k.s
    ensures !ReadCall(k, x, env).Replaced? && !WriteCall(k, x, env).Replaced?
  {
    hide D.Exact, Domains, WriteBytes, DescCall;
  }

  lemma ProcOnward(k: K, x: Pid, env: Env, p: Pid)
    requires Inv(k) && CanCall(k, x)
    ensures ProcCall(k, x, env).Return? ==> Onward(k.s, ProcCall(k, x, env).k.s, p)
    ensures ProcCall(k, x, env).Replaced? ==> Onward(k.s, ProcCall(k, x, env).k.s, p)
  {
    hide Inv, D.Exact, Domains, S.Sound, S.Apply, Onward, KillCall, WaitCall, SignalCall, SigactionCall, NewMask, D.ExecTable,
         D.ForkTable;
    InvParts(k);
    OnwardSame(k.s, p);
    ActionsKeepQueue(k, x);
    OpOnward(k.s, S.SetGroup(x, x), p);
    OpOnward(k.s, S.Admit(k.nextPid, S.Info(S.Running, false, x, k.s.procs[x].pgrp, 0)), p);
    var m := M(k, x);
    var target := if m.regs[EBX] == 0 then x else m.regs[EBX];
    OpOnward(k.s, S.SetGroup(target, if m.regs[ECX] == 0 then target else m.regs[ECX]), p);
    KillOnward(k, x, p);
    WaitOnward(k, x, p);
  }

  lemma ActionsKeepQueue(k: K, x: Pid)
    requires CanCall(k, x)
    ensures SignalCall(k, x).Return? && SignalCall(k, x).k.s == k.s
    ensures SigactionCall(k, x).Return? && SigactionCall(k, x).k.s == k.s
  {
    hide D.Exact, Domains, StoreAction, LoadAction;
  }

  lemma KillOnward(k: K, x: Pid, p: Pid)
    requires Inv(k) && CanCall(k, x)
    ensures KillCall(k, x).Return? && Onward(k.s, KillCall(k, x).k.s, p)
  {
    hide Inv, D.Exact, Domains, PostAll, Targets, S.Sound, Onward;
    InvParts(k);
    OnwardSame(k.s, p);
    var targets := Targets(k, x, Signed32(M(k, x).regs[EBX]), 0);
    DomainsOf(k);
    assert forall q :: q in targets ==> Known(k, q);
    PostAllOnward(k, targets, M(k, x).regs[ECX], p);
  }

  lemma WaitOnward(k: K, x: Pid, p: Pid)
    requires Inv(k) && CanCall(k, x)
    ensures WaitCall(k, x).Return? ==> Onward(k.s, WaitCall(k, x).k.s, p)
    ensures !WaitCall(k, x).Replaced?
  {
    hide Inv, D.Exact, Domains, WriteBytes, Wanted, S.Sound, S.Apply, Onward;
    InvParts(k);
    OnwardSame(k.s, p);
    var z := FirstZombie(k, x, Signed32(M(k, x).regs[EBX]), 0);
    if z.Some? { OpOnward(k.s, S.Reap(z.value), p); }
  }

  lemma CallNotBack(k: K, x: Pid, env: Env, p: Pid)
    requires Inv(k) && CanCall(k, x) && In(k, x, S.Running) && GoodMemory(M(k, x)) && Traps(M(k, x))
    ensures NotBack(k.s, SystemCall(k, x, env).s, p)
  {
    hide Inv, D.Exact, Domains, Dispatch, ExitProcess, Traps, PastTrap, S.Sound, S.Apply, Onward, NotBack;
    PastKeeps(k, x);
    var k1 := PastState(k, x);
    InvParts(k1);
    DispatchOnward(k1, x, env, p);
    match Dispatch(k1, x, env)
    case Return(k2, ret) => OnwardIsNotBack(k1.s, k2.s, p);
    case Blocked(ch) => OpNotBack(k1.s, S.Block(x), p);
    case Exits(code) => ExitNotBack(k1, x, code, p);
    case Replaced(k2) => OnwardIsNotBack(k1.s, k2.s, p);
  }

  /** No step but a pick moves a process that can still run. */
  lemma StepNotBack(k: K, ev: Step, p: Pid)
    requires Inv(k) && Enabled(k, ev) && !ev.PickedNext?
    ensures NotBack(k.s, Next(k, ev).s, p)
  {
    hide Inv, D.Exact, Domains, GoodEnv, SystemCall, ExitProcess, PostSignal, DeliverOne, Traps, PollReady, Wake, ShellTable,
         S.Apply, S.Sound, S.Pick, G.SigReturn, NotBack, Onward;
    InvParts(k);
    DomainsOf(k);
    EnabledFacts(k, ev);
    OnwardSame(k.s, p);
    OnwardIsNotBack(k.s, k.s, p);
    match ev
    case UserRan(x, m) =>
    case Trapped(x, env) => CallNotBack(k, x, env, p);
    case Returned(x) =>
    case Ended(x, code) => ExitNotBack(k, x, code, p);
    case Polled(x, ttyReady) => WakeOnward(k, x, false, p); OnwardIsNotBack(k.s, Wake(k, x, false).s, p);
    case Posted(x, sig) => PostOnward(k, x, sig, p); OnwardIsNotBack(k.s, PostSignal(k, x, sig).s, p);
    case Delivered(x) => DeliverNotBack(k, x, p);
    case Spawned(m, tty, script) => OpNotBack(k.s, S.Admit(k.nextPid, S.Info(S.Running, false, 1, k.nextPid, 0)), p);
    case InitReaped(x) => OpNotBack(k.s, S.Reap(x), p);
  }

  // ---- Bounded waiting over kernel runs -----------------------------------------------------------

  function Picks(steps: seq<Step>): nat {
    if |steps| == 0 then 0 else (if steps[0].PickedNext? then 1 else 0) + Picks(steps[1..])
  }

  /** A stretch of a run, from a state that satisfies the invariants. */
  ghost predicate IsStretch(states: seq<K>, steps: seq<Step>) {
    && |states| == |steps| + 1 && Inv(states[0])
    && forall i :: 0 <= i < |steps| ==> Taken(states[i], steps[i], states[i + 1])
  }

  lemma MovesKeepInv(k: K, ev: Step, k': K)
    requires Inv(k) && Taken(k, ev, k')
    ensures Inv(k')
  {
    hide Inv, Enabled, Next;
    StepKeepsInv(k, ev);
  }

  lemma MovesNotBack(k: K, ev: Step, k': K, p: Pid)
    requires Inv(k) && Taken(k, ev, k') && S.Runnable(k.s, p) && S.Runnable(k'.s, p)
    requires ev.PickedNext? ==> S.Pick(k.s).0 != Some(p)
    ensures p in k.s.runq && p in k'.s.runq
    ensures S.Place(k'.s.runq, p) + (if ev.PickedNext? then 1 else 0) <= S.Place(k.s.runq, p)
  {
    hide Inv, S.Sound, S.Pick, S.Runnable, D.Exact;
    InvParts(k);
    if ev.PickedNext? {
      S.PickAdvances(k.s, p);
    } else {
      StepNotBack(k, ev, p);
    }
  }

  lemma {:induction false} OthersPicked(states: seq<K>, steps: seq<Step>, p: Pid)
    requires IsStretch(states, steps)
    requires forall i :: 0 <= i < |states| ==> S.Runnable(states[i].s, p)
    requires forall i :: 0 <= i < |steps| && steps[i].PickedNext? ==> S.Pick(states[i].s).0 != Some(p)
    ensures p in states[0].s.runq && Picks(steps) <= S.Place(states[0].s.runq, p)
    decreases |steps|
  {
    hide Inv, Taken, S.Pick, S.Runnable;
    if |steps| == 0 {
      Queued(states[0], p);
    } else {
      assert Taken(states[0], steps[0], states[1]);
      MovesKeepInv(states[0], steps[0], states[1]);
      OthersPicked(states[1..], steps[1..], p);
      MovesNotBack(states[0], steps[0], states[1], p);
    }
  }

  lemma Queued(k: K, p: Pid)
    requires Inv(k) && S.Runnable(k.s, p)
    ensures p in k.s.runq
  {
    hide D.Exact;
  }

  /** Bounded waiting: a user process that stays RUNNING and stands at index k of the queue is the
      result of one of the next k + 1 picks, whatever forks, calls, signals, sleeps, wake-ups and exits
      happen between. */
  lemma KernelBoundedWaiting(states: seq<K>, steps: seq<Step>, p: Pid)
    requires IsStretch(states, steps)
    requires forall i :: 0 <= i < |states| ==> S.Runnable(states[i].s, p)
    requires p in states[0].s.runq && Picks(steps) >= S.Place(states[0].s.runq, p) + 1
    ensures exists i :: 0 <= i < |steps| && steps[i].PickedNext? && S.Pick(states[i].s).0 == Some(p)
  {
    hide Inv, Taken, S.Pick, S.Runnable;
    if forall i :: 0 <= i < |steps| && steps[i].PickedNext? ==> S.Pick(states[i].s).0 != Some(p) {
      OthersPicked(states, steps, p);
    }
  }

  // ---- The polling loop ------------------------------------------------------------------------------

  function PollAll(k: K, ps: seq<Pid>, ttyReady: bool): (r: K)
    requires forall p :: p in ps ==> Known(k, p)
    decreases |ps|
  {
    if |ps| == 0 then k
    else
      var k1 := Poll(k, ps[0], ttyReady);
      assert forall p :: p in ps[1..] ==> p in ps && (Known(k1, p) <==> Known(k, p));
      PollAll(k1, ps[1..], ttyReady)
  }

  /** p sleeps on a channel the poll would find ready. */
  predicate Due(k: K, p: Pid, ttyReady: bool) {
    Known(k, p) && In(k, p, S.Sleeping) && k.u[p].channel.Some? && PollReady(k, p, k.u[p].channel.value, ttyReady)
  }

  lemma PollOne(k: K, x: Pid, ttyReady: bool, p: Pid)
    requires Known(k, x) && Known(k, p)
    ensures var k' := Poll(k, x, ttyReady);
      && k'.d == k.d && k'.logs == k.logs && Known(k', p) && k'.u[p].task == k.u[p].task
      && (p == x && Due(k, p, ttyReady) ==> In(k', p, S.Running))
      && (p != x || !Due(k, p, ttyReady) ==> k'.u[p] == k.u[p] && k'.s.procs[p] == k.s.procs[p])
      && Due(k', p, ttyReady) == (Due(k, p, ttyReady) && p != x)
  {
    hide PollReady;
    ReadySame(k, Poll(k, x, ttyReady), p, ttyReady);
  }

  /** Waking a process changes no polled condition. */
  lemma ReadySame(k: K, k': K, p: Pid, ttyReady: bool)
    requires k'.d == k.d && k'.s.procs.Keys == k.s.procs.Keys
    requires forall q :: q in k.s.procs ==>
      k'.s.procs[q].ppid == k.s.procs[q].ppid && (In(k', q, S.Zombie) <==> In(k, q, S.Zombie))
    ensures forall ch :: PollReady(k', p, ch, ttyReady) == PollReady(k, p, ch, ttyReady)
  {
  }

  lemma {:induction false} PollAllResult(k: K, ps: seq<Pid>, ttyReady: bool, p: Pid)
    requires Inv(k) && (forall q :: q in ps ==> Known(k, q)) && Known(k, p)
    ensures var k' := PollAll(k, ps, ttyReady);
      && Inv(k') && k'.d == k.d && Known(k', p) && k'.u[p].task == k.u[p].task
      && (p in ps && Due(k, p, ttyReady) ==> In(k', p, S.Running))
      && (p !in ps || !Due(k, p, ttyReady) ==> k'.u[p] == k.u[p] && k'.s.procs[p] == k.s.procs[p])
      && (Due(k', p, ttyReady) <==> Due(k, p, ttyReady) && p !in ps)
      && Atomic(k') == Atomic(k)
    decreases |ps|
  {
    hide Inv, Poll, Due, Atomic;
    if |ps| > 0 {
      var k1 := Poll(k, ps[0], ttyReady);
      PollKeeps(k, ps[0], ttyReady);
      PollingStutters(k, ps[0], ttyReady);
      PollOne(k, ps[0], ttyReady, p);
      assert forall q :: q in ps[1..] ==> q in ps && (Known(k1, q) <==> Known(k, q)) by { PollKnown(k, ps[0], ttyReady); }
      PollAllResult(k1, ps[1..], ttyReady, p);
      assert p in ps <==> p == ps[0] || p in ps[1..];
    }
  }

  lemma PollKnown(k: K, x: Pid, ttyReady: bool)
    requires Known(k, x)
    ensures forall q :: Known(Poll(k, x, ttyReady), q) <==> Known(k, q)
  {
    hide PollReady;
  }

  // ---- The object -----------------------------------------------------------------------------------

  /** The kernel object between two time slices. */
  class KernelObject {
    var k: K

    constructor (m: Machine, kernelTask: bool, tty: bool)
      requires GoodMemory(m)
      ensures k == Boot(m, kernelTask, tty) && Inv(k)
    {
      k := Boot(m, kernelTask, tty);
      BootInv(m, kernelTask, tty);
    }

    /** The loop over all processes that ends sleeps. Afterwards no process of the list sleeps on a
        channel that is ready, and nothing a program could see has changed. */
    method WakeWaiters(ps: seq<Pid>, ttyReady: bool)
      requires Inv(k) && forall p :: p in ps ==> Known(k, p)
      modifies this
      ensures Inv(k) && k == PollAll(old(k), ps, ttyReady)
      ensures forall p :: p in ps ==> !Due(k, p, ttyReady)
      ensures forall p :: p in ps && Due(old(k), p, ttyReady) ==> In(k, p, S.Running)
      ensures ps != [] ==> Atomic(k) == Atomic(old(k))
    {
      hide Inv, Poll, PollAll, Due, Atomic, Known;
      ghost var k0 := k;
      for i := 0 to |ps|
        invariant Inv(k) && (forall p :: p in ps ==> Known(k, p))
        invariant forall p :: p in ps[i..] ==> Known(k, p)
        invariant PollAll(k, ps[i..], ttyReady) == PollAll(k0, ps, ttyReady)
      {
        PollUnfolds(k, ps[i..], ttyReady);
        PollKnown(k, ps[i], ttyReady);
        PollKeeps(k, ps[i], ttyReady);
        assert ps[i..][1..] == ps[i + 1..];
        k := Poll(k, ps[i], ttyReady);
      }
      PollNone(k, ps[|ps|..], ttyReady);
      forall p | p in ps
        ensures !Due(k, p, ttyReady) && (Due(k0, p, ttyReady) ==> In(k, p, S.Running)) && Atomic(k) == Atomic(k0)
      {
        PollAllResult(k0, ps, ttyReady, p);
      }
      assert ps != [] ==> ps[0] in ps;
    }

    /** The loop that delivers one signal to each process that has one. */
    method DeliverPending(ps: seq<Pid>)
      requires Inv(k)
      modifies this
      ensures k == DeliverAll(old(k), ps) && Inv(k)
    {
      hide Inv, DeliverOne, DeliverAll, Known, D.Exact, Domains;
      ghost var k0 := k;
      for i := 0 to |ps|
        invariant Inv(k) && DeliverAll(k, ps[i..]) == DeliverAll(k0, ps)
      {
        DeliverUnfolds(k, ps[i..]);
        assert ps[i..][1..] == ps[i + 1..];
        if ps[i] in k.u { k := DeliverOne(k, ps[i]); }
      }
      DeliverNone(k, ps[|ps|..]);
    }
  }

  /** One signal each, in order; a process that is gone is passed over. */
  ghost function DeliverAll(k: K, ps: seq<Pid>): (r: K)
    requires Inv(k)
    ensures Inv(r)
    decreases |ps|
  {
    if |ps| == 0 then k
    else if ps[0] !in k.u then DeliverAll(k, ps[1..])
    else
      DomainsOf(k);
      DeliverKeeps(k, ps[0]);
      DeliverAll(DeliverOne(k, ps[0]), ps[1..])
  }

  lemma DeliverUnfolds(k: K, ps: seq<Pid>)
    requires Inv(k) && |ps| > 0
    ensures ps[0] in k.u ==> Known(k, ps[0]) && D.Exact(k.d) && Domains(k) && M(k, ps[0]).mem.Valid() && Inv(DeliverOne(k, ps[0]))
    ensures DeliverAll(k, ps) == DeliverAll(if ps[0] in k.u then DeliverOne(k, ps[0]) else k, ps[1..])
  {
    hide Inv, DeliverOne, D.Exact, Domains;
    DomainsOf(k);
    if ps[0] in k.u { DeliverKeeps(k, ps[0]); }
  }

  lemma DeliverNone(k: K, ps: seq<Pid>)
    requires Inv(k) && |ps| == 0
    ensures DeliverAll(k, ps) == k
  {
    hide Inv;
  }

  lemma PollUnfolds(k: K, ps: seq<Pid>, ttyReady: bool)
    requires |ps| > 0 && forall p :: p in ps ==> Known(k, p)
    ensures Known(k, ps[0]) && forall p :: p in ps[1..] ==> Known(Poll(k, ps[0], ttyReady), p)
    ensures PollAll(k, ps, ttyReady) == PollAll(Poll(k, ps[0], ttyReady), ps[1..], ttyReady)
  {
    hide Poll;
    PollKnown(k, ps[0], ttyReady);
    assert forall p :: p in ps[1..] ==> p in ps;
  }

  lemma PollNone(k: K, ps: seq<Pid>, ttyReady: bool)
    requires |ps| == 0
    ensures PollAll(k, ps, ttyReady) == k
  {
  }
}
