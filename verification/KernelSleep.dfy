/** Sleeping by exception, rewinding and polling refines atomic blocking; runs of the kernel. */
module KernelSleep {
  import opened Words
  import opened Memory
  import opened Decoder
  import opened Handlers
  import opened Kernel
  import opened KernelProofs
  import L = DecoderLocality
  import I = Interpreter
  import P = Pipes
  import D = Descriptors
  import S = Scheduler
  import G = Signals

  // ---- Blocking is a stutter ----------------------------------------------------------

  /** The state as an atomically blocking kernel would show it: a process that waits for its call is
      simply still at the call. Queue order and sleep bookkeeping are forgotten. */
  function Atomic(k: K): K {
    k.(s := S.Sched(map p | p in k.s.procs :: AwakeInfo(k.s.procs[p]), []),
       u := map p | p in k.u :: k.u[p].(channel := None, restart := false))
  }

  function AwakeInfo(i: S.Info): S.Info {
    if i.state == S.Sleeping then i.(state := S.Running) else i
  }

  function Forget(u: User): User {
    u.(channel := None, restart := false)
  }

  lemma AtomicIntro(k: K, k': K)
    requires k'.d == k.d && k'.logs == k.logs && k'.nextPid == k.nextPid
    requires k'.s.procs.Keys == k.s.procs.Keys && k'.u.Keys == k.u.Keys
    requires forall x :: x in k.s.procs ==> AwakeInfo(k'.s.procs[x]) == AwakeInfo(k.s.procs[x])
    requires forall x :: x in k.u ==> Forget(k'.u[x]) == Forget(k.u[x])
    ensures Atomic(k') == Atomic(k)
  {
    assert Atomic(k').s.procs == Atomic(k).s.procs;
    assert Atomic(k').u == Atomic(k).u;
  }

  lemma AtomicElim(k: K, k': K, x: Pid)
    requires Atomic(k') == Atomic(k) && x in k.u && x in k'.u
    ensures Forget(k'.u[x]) == Forget(k.u[x])
  {
    assert Atomic(k').u[x] == Atomic(k).u[x];
  }

  /** The call process p is about to trap with would block. */
  ghost predicate CallBlocks(k: K, p: Pid, env: Env) {
    && CanCall(k, p) && In(k, p, S.Running) && Traps(M(k, p))
    && CanCall(PastState(k, p), p) && Dispatch(PastState(k, p), p, env).Blocked?
  }

  function TrapLength(m: Machine): nat
    requires m.mem.Valid() && Traps(m)
  {
    Decode(m.mem, m.eip).e.length
  }

  /** Nothing but p's own sleep bookkeeping and instruction pointer differs: no pipe, descriptor,
      memory, register, signal or other process. */
  ghost predicate OnlyAsleep(k: K, k': K, p: Pid) {
    && Known(k, p) && Known(k', p)
    && k'.d == k.d && k'.logs == k.logs && k'.nextPid == k.nextPid
    && k'.s == S.Apply(k.s, S.Block(p)) && In(k', p, S.Sleeping) && p !in k'.s.runq
    && k'.u == k.u[p := k'.u[p]]
    && k'.u[p] == k.u[p].(task := k'.u[p].task, channel := k'.u[p].channel, restart := true)
    && k'.u[p].task == k.u[p].task.(m := M(k', p))
    && M(k', p) == M(k, p).(eip := M(k', p).eip)
  }

  lemma BlockingStep(k: K, p: Pid, env: Env)
    requires CallBlocks(k, p, env) && S.Sound(k.s)
    ensures var k' := SystemCall(k, p, env);
      OnlyAsleep(k, k', p) && M(k', p).eip == M(k, p).eip + TrapLength(M(k, p)) - 2
  {
    hide Decode, Dispatch, D.Exact, Domains;
  }

  /** A call that blocks changes nothing but the caller's sleep; and the process is exactly where it
      was before the trap if and only if the instruction has no prefixes (otherwise it is behind them,
      at the two trap bytes). */
  lemma BlockingStutters(k: K, p: Pid, env: Env)
    requires Inv(k) && CallBlocks(k, p, env)
    ensures OnlyAsleep(k, SystemCall(k, p, env), p)
    ensures Atomic(SystemCall(k, p, env)) == Atomic(k) <==> TrapLength(M(k, p)) == 2
  {
    hide Inv, CallBlocks, TrapLength, S.Sound, S.Apply, SystemCall, Atomic;
    InvParts(k);
    CallerKnown(k, p, env);
    BlockingStep(k, p, env);
    StutterIff(k, SystemCall(k, p, env), p, TrapLength(M(k, p)));
  }

  lemma CallerKnown(k: K, p: Pid, env: Env)
    requires CallBlocks(k, p, env)
    ensures CanCall(k, p) && In(k, p, S.Running) && Traps(M(k, p))
  {
  }

  lemma StutterIff(k: K, k': K, p: Pid, len: nat)
    requires OnlyAsleep(k, k', p) && In(k, p, S.Running) && M(k', p).eip == M(k, p).eip + len - 2
    ensures Atomic(k') == Atomic(k) <==> len == 2
  {
    hide Atomic;
    if len == 2 {
      assert M(k', p) == M(k, p);
      AtomicIntro(k, k');
    } else if Atomic(k') == Atomic(k) {
      AtomicElim(k, k', p);
    }
  }

  /** Polling and picking are stutters too. */
  lemma PollingStutters(k: K, p: Pid, ttyReady: bool)
    requires Known(k, p)
    ensures Atomic(Poll(k, p, ttyReady)) == Atomic(k)
  {
    hide PollReady, Atomic;
    AtomicIntro(k, Poll(k, p, ttyReady));
  }

  lemma PickingStutters(k: K)
    requires Inv(k)
    ensures Atomic(k.(s := S.Pick(k.s).1)) == Atomic(k)
  {
    hide Inv, S.Sound, S.Pick, Atomic;
    InvParts(k);
    S.PickExact(k.s);
    AtomicIntro(k, k.(s := S.Pick(k.s).1));
  }

  // ---- How a sleep ends --------------------------------------------------------------------

  /** What one step may do to a sleeping process: nothing; wake it at its call; push a handler's frame
      that will return to its call; fail the call with EINTR just behind the trap; stop it; end it. */
  ghost predicate Fate(k: K, k': K, p: Pid)
    requires Known(k, p)
  {
    && Known(k', p)
    && var t, t' := k.u[p].task, k'.u[p].task;
       || (In(k', p, S.Sleeping) && SameUser(k, k', p))
       || (In(k', p, S.Running) && t' == t)
       || (In(k', p, S.Running) && t' == Interrupted(t))
       || (In(k', p, S.Running) && exists sig :: 1 <= sig <= 32 && t.m.mem.Valid() && G.Deliver(t, sig) == Some(t'))
       || (In(k', p, S.Stopped) && t' == t)
       || (In(k', p, S.Zombie) && t' == t)
  }

  ghost predicate SameUser(k: K, k': K, p: Pid) {
    && Known(k, p) && Known(k', p)
    && k'.u[p].task == k.u[p].task && k'.u[p].channel == k.u[p].channel && k'.u[p].restart == k.u[p].restart
    && k'.s.procs[p].state == k.s.procs[p].state
  }

  /** p's user state is as it was, unless p was dead and is gone. */
  ghost predicate Kept(k: K, k': K, p: Pid) {
    if p in k'.u || !In(k, p, S.Zombie) then SameUser(k, k', p) else true
  }

  lemma FateAfterNothing(k: K, k1: K, k2: K, p: Pid)
    requires SameUser(k, k1, p) && Fate(k1, k2, p)
    ensures Fate(k, k2, p)
  {
    hide G.Deliver;
  }

  lemma FateThenNothing(k: K, k1: K, k2: K, p: Pid)
    requires Known(k, p) && Fate(k, k1, p) && SameUser(k1, k2, p)
    ensures Fate(k, k2, p)
  {
    hide G.Deliver;
  }

  lemma PostFate(k: K, q: Pid, sig: int, p: Pid)
    requires Known(k, q) && Known(k, p) && In(k, p, S.Sleeping)
    ensures Fate(k, PostSignal(k, q, sig), p)
    ensures q != p ==> SameUser(k, PostSignal(k, q, sig), p)
  {
    hide G.Deliver, Noticed, BlockedBit;
  }

  lemma {:induction false} PostAllFate(k: K, ps: seq<Pid>, sig: int, p: Pid)
    requires (forall q :: q in ps ==> Known(k, q)) && Known(k, p) && In(k, p, S.Sleeping)
    requires forall x, y :: 0 <= x < y < |ps| ==> ps[x] < ps[y]
    ensures Fate(k, PostAll(k, ps, sig), p)
    ensures p !in ps ==> SameUser(k, PostAll(k, ps, sig), p)
    decreases |ps|
  {
    hide PostSignal, Fate;
    if |ps| == 0 {
      StillAsleep(k, k, p);
    } else {
      var k1 := PostSignal(k, ps[0], sig);
      assert forall q :: q in ps[1..] ==> q in ps && (Known(k1, q) <==> Known(k, q));
      PostFate(k, ps[0], sig, p);
      if ps[0] == p {
        assert p !in ps[1..];
        PostAllElsewhere(k1, ps[1..], sig, p);
        FateThenNothing(k, k1, PostAll(k1, ps[1..], sig), p);
      } else {
        PostAllFate(k1, ps[1..], sig, p);
        FateAfterNothing(k, k1, PostAll(k1, ps[1..], sig), p);
      }
    }
  }

  lemma StillAsleep(k: K, k': K, p: Pid)
    requires SameUser(k, k', p) && In(k, p, S.Sleeping)
    ensures Fate(k, k', p)
  {
    hide G.Deliver;
  }

  lemma {:induction false} PostAllElsewhere(k: K, ps: seq<Pid>, sig: int, p: Pid)
    requires (forall q :: q in ps ==> Known(k, q)) && Known(k, p) && p !in ps
    ensures SameUser(k, PostAll(k, ps, sig), p)
    decreases |ps|
  {
    hide PostSignal;
    if |ps| > 0 {
      var k1 := PostSignal(k, ps[0], sig);
      assert forall q :: q in ps[1..] ==> q in ps && (Known(k1, q) <==> Known(k, q));
      PostElsewhere(k, ps[0], sig, p);
      PostAllElsewhere(k1, ps[1..], sig, p);
    }
  }

  lemma PostElsewhere(k: K, q: Pid, sig: int, p: Pid)
    requires Known(k, q) && Known(k, p) && p != q
    ensures SameUser(k, PostSignal(k, q, sig), p)
  {
    hide Noticed, BlockedBit;
  }

  /** The death of another process: a waiting parent is told. */
  lemma ExitFate(k: K, x: Pid, code: int, p: Pid)
    requires Inv(k) && D.Exact(k.d) && Domains(k) && Known(k, x) && Known(k, p) && x != p && In(k, p, S.Sleeping)
    ensures Fate(k, ExitProcess(k, x, code), p)
  {
    hide Inv, D.Exact, Domains, D.ExitTable, PostSignal, Wake, Fate, S.Apply;
    BuriedElsewhere(k, x, code, p);
    var k1 := Buried(k, x, code);
    StillAsleep(k, k1, p);
    var parent := k1.s.procs[x].ppid;
    if parent in k1.s.procs {
      BuriedKeeps(k, x, code);
      DomainsOf(k1);
      TellFate(k1, parent, p);
      FateAfterNothing(k, k1, ExitProcess(k, x, code), p);
    }
  }

  lemma BuriedElsewhere(k: K, x: Pid, code: int, p: Pid)
    requires D.Exact(k.d) && Known(k, x) && Known(k, p) && x != p
    ensures SameUser(k, Buried(k, x, code), p) && Known(Buried(k, x, code), x)
  {
    hide D.Exact, D.ExitTable;
    D.ExitResult(k.d, x);
  }

  /** SIGCHLD, and the wake-up if the parent still sleeps in wait. */
  function Tell(k: K, parent: Pid): K
    requires Known(k, parent)
  {
    var k2 := PostSignal(k, parent, SIGCHLD);
    if In(k2, parent, S.Sleeping) && k2.u[parent].channel.Some? && k2.u[parent].channel.value.WaitFor?
    then Wake(k2, parent, false) else k2
  }

  lemma TellFate(k: K, parent: Pid, p: Pid)
    requires Known(k, parent) && Known(k, p) && In(k, p, S.Sleeping)
    ensures Fate(k, Tell(k, parent), p)
  {
    hide PostSignal, Fate;
    PostFate(k, parent, SIGCHLD, p);
    var k2 := PostSignal(k, parent, SIGCHLD);
    if In(k2, parent, S.Sleeping) {
      if parent == p {
        PostSleepSame(k, parent, SIGCHLD);
        WokenFate(k, k, k2, p);
      } else {
        assert SameUser(k2, Wake(k2, parent, false), p);
        FateThenNothing(k, k2, Wake(k2, parent, false), p);
      }
    }
  }

  lemma PostSleepSame(k: K, p: Pid, sig: int)
    requires Known(k, p) && In(k, p, S.Sleeping) && In(PostSignal(k, p, sig), p, S.Sleeping)
    ensures SameUser(k, PostSignal(k, p, sig), p)
  {
    hide Noticed, BlockedBit;
  }

  lemma WokenFate(k: K, k1: K, k2: K, p: Pid)
    requires SameUser(k, k1, p) && SameUser(k1, k2, p) && In(k2, p, S.Sleeping)
    ensures Fate(k, Wake(k2, p, false), p)
  {
    hide G.Deliver;
  }

  lemma OwnExitFate(k: K, p: Pid, code: int)
    requires Inv(k) && D.Exact(k.d) && Domains(k) && Known(k, p)
    ensures Fate(k, ExitProcess(k, p, code), p)
  {
    hide Inv, D.Exact, Domains, ExitProcess;
    OwnExit(k, p, code);
  }

  /** The dead keep their last user state. */
  lemma OwnExit(k: K, p: Pid, code: int)
    requires Inv(k) && D.Exact(k.d) && Domains(k) && Known(k, p)
    ensures var k' := ExitProcess(k, p, code);
      Known(k', p) && In(k', p, S.Zombie) && k'.u[p].task == k.u[p].task
  {
    hide Inv, D.Exact, Domains, PostSignal, Wake;
    BuriedKeeps(k, p, code);
    var k1 := Buried(k, p, code);
    Dies(k, p, code);
    var parent := k1.s.procs[p].ppid;
    if parent in k1.s.procs {
      DomainsOf(k1);
      DeadStays(k1, parent, SIGCHLD, p);
    }
  }

  lemma Dies(k: K, p: Pid, code: int)
    requires D.Exact(k.d) && Known(k, p)
    ensures var k' := Buried(k, p, code); Known(k', p) && In(k', p, S.Zombie) && k'.u[p].task == k.u[p].task
  {
    hide D.Exact, D.ExitTable;
    D.ExitResult(k.d, p);
  }

  lemma DeadStays(k: K, q: Pid, sig: int, p: Pid)
    requires Known(k, q) && Known(k, p) && In(k, p, S.Zombie)
    ensures var k2 := PostSignal(k, q, sig);
      && Known(k2, q) && Known(k2, p) && In(k2, p, S.Zombie) && k2.u[p].task == k.u[p].task
      && Known(Wake(k2, q, false), p) && In(Wake(k2, q, false), p, S.Zombie) && Wake(k2, q, false).u[p].task == k.u[p].task
  {
    hide Noticed, BlockedBit;
  }

  lemma DeliverFate(k: K, x: Pid, p: Pid)
    requires Inv(k) && D.Exact(k.d) && Domains(k) && Known(k, x) && M(k, x).mem.Valid()
    requires Known(k, p) && In(k, p, S.Sleeping)
    ensures Fate(k, DeliverOne(k, x), p)
  {
    hide Inv, D.Exact, Domains, TakeSignal, Fate;
    StillAsleep(k, k, p);
    if !In(k, x, S.Zombie) && Deliverable(k.u[x]) != {} {
      SomeSignal(Deliverable(k.u[x]));
      var sig := Lowest(Deliverable(k.u[x]), 1);
      PendingKeeps(k, x, k.u[x].pending - {sig});
      var k1 := k.(u := k.u[x := k.u[x].(pending := k.u[x].pending - {sig})]);
      DomainsOf(k1);
      TakeFate(k1, x, sig, p);
      FateAfterNothing(k, k1, TakeSignal(k1, x, sig), p);
    }
  }

  lemma TakeFate(k: K, x: Pid, sig: nat, p: Pid)
    requires Inv(k) && D.Exact(k.d) && Domains(k) && Known(k, x) && M(k, x).mem.Valid() && 1 <= sig <= 32
    requires Known(k, p) && In(k, p, S.Sleeping)
    ensures Fate(k, TakeSignal(k, x, sig), p)
  {
    hide Inv, D.Exact, Domains, ExitProcess, G.Deliver, Fate;
    StillAsleep(k, k, p);
    var t := k.u[x].task;
    var h := t.actions[sig].handler;
    if h == 0 && !(sig == SIGCHLD || sig == SIGCONT) && !StopsByDefault(sig) {
      if x == p { OwnExitFate(k, p, sig); } else { ExitFate(k, x, sig, p); }
    } else if h == 0 && !(sig == SIGCHLD || sig == SIGCONT) {
      StopFate(k, x, p);
    } else if h > 1 && G.Deliver(t, sig).Some? {
      if x == p { FrameFate(k, p, sig); } else { StillAsleep(k, TakeSignal(k, x, sig), p); }
    }
  }

  lemma StopFate(k: K, x: Pid, p: Pid)
    requires Known(k, x) && Known(k, p) && In(k, p, S.Sleeping)
    ensures Fate(k, k.(s := S.Apply(k.s, S.Stop(x))), p)
  {
    hide G.Deliver;
  }

  lemma FrameFate(k: K, p: Pid, sig: nat)
    requires Known(k, p) && In(k, p, S.Sleeping) && 1 <= sig <= 32 && M(k, p).mem.Valid()
    requires G.Deliver(k.u[p].task, sig).Some?
    ensures Fate(k, Framed(k, p, G.Deliver(k.u[p].task, sig).value), p)
  {
    hide G.Deliver;
  }

  // ---- The fate of a sleeper under any step ---------------------------------------------------

  /** A call by x leaves a sleeper alone, except that kill may reach it. */
  lemma DispatchFate(k: K, x: Pid, env: Env, p: Pid)
    requires Inv(k) && CanCall(k, x) && In(k, x, S.Running) && Known(k, p) && In(k, p, S.Sleeping)
    ensures Dispatch(k, x, env).Return? ==> Fate(k, Dispatch(k, x, env).k, p)
    ensures Dispatch(k, x, env).Replaced? ==> Fate(k, Dispatch(k, x, env).k, p)
  {
    hide Inv, D.Exact, Fate, ReadCall, WriteCall, DescCall, ProcCall, Domains, SameUser;
    var nr, o := M(k, x).regs[EAX], Dispatch(k, x, env);
    if nr == 3 {
      ReadElsewhere(k, x, env, p);
      if o.Return? { StillAsleep(k, o.k, p); }
    } else if nr == 4 {
      WriteElsewhere(k, x, env, p);
      if o.Return? { StillAsleep(k, o.k, p); }
    } else if nr == 5 || nr == 6 || nr == 8 || nr == 19 || nr == 41 || nr == 42 || nr == 55 || nr == 63 {
      DescElsewhere(k, x, env, p);
      StillAsleep(k, o.k, p);
    } else {
      ProcFate(k, x, env, p);
    }
  }

  lemma ReadElsewhere(k: K, x: Pid, env: Env, p: Pid)
    requires CanCall(k, x) && Known(k, p) && x != p
    ensures ReadCall(k, x, env).Return? ==> SameUser(k, ReadCall(k, x, env).k, p)
    ensures !ReadCall(k, x, env).Replaced?
  {
    hide D.Exact, WriteBytes, Domains;
  }

  lemma WriteElsewhere(k: K, x: Pid, env: Env, p: Pid)
    requires CanCall(k, x) && Known(k, p) && x != p
    ensures WriteCall(k, x, env).Return? ==> SameUser(k, WriteCall(k, x, env).k, p)
    ensures !WriteCall(k, x, env).Replaced?
  {
    hide D.Exact, Domains;
  }

  lemma DescLeavesUsers(k: K, x: Pid, env: Env, p: Pid)
    requires CanCall(k, x) && p in k.u && x != p
    ensures var o := DescCall(k, x, env); o.Return? && p in o.k.u && o.k.s == k.s && o.k.u[p] == k.u[p]
  {
    hide D.Exact, D.Close, D.DupFrom, D.Dup2, D.MakePipe, D.OpenObject, D.SetStatus, StatusFlags, Domains, FcntlCall, SeekCall, CopyPair;
    PositionLeavesUsers(k, x, env, p);
    if M(k, x).regs[EAX] == 42 {
      var r := D.MakePipe(k.d, x);
      if r.r == 0 {
        var fds := D.FreePair(k.d.tables[x]).value;
        PairLeavesUsers(k.(d := r.d), x, M(k, x).regs[EBX], fds.0, fds.1, p);
      }
    }
  }

  lemma PositionLeavesUsers(k: K, x: Pid, env: Env, p: Pid)
    requires CanCall(k, x) && p in k.u && x != p
    ensures var o := SeekCall(k, x, env); o.Return? && o.k.s == k.s && o.k.u == k.u
    ensures var o := FcntlCall(k, x); o.Return? && o.k.s == k.s && o.k.u == k.u
  {
    hide D.Exact, D.DupFrom, D.SetStatus, StatusFlags, Domains;
  }

  lemma PairLeavesUsers(k: K, x: Pid, addr: int, v: int, w: int, p: Pid)
    requires x in k.u && M(k, x).mem.Valid() && p in k.u && x != p
    ensures var o := CopyPair(k, x, addr, v, w); o.Return? && p in o.k.u && o.k.s == k.s && o.k.u[p] == k.u[p]
  {
    hide WriteMem;
  }

  /** Descriptor calls change tables, never which processes exist. */
  lemma DescElsewhere(k: K, x: Pid, env: Env, p: Pid)
    requires Inv(k) && CanCall(k, x) && In(k, x, S.Running) && Known(k, p) && x != p
    ensures DescCall(k, x, env).Return? && SameUser(k, DescCall(k, x, env).k, p)
  {
    hide Inv, D.Exact, DescCall, Domains;
    var o := DescCall(k, x, env);
    DescLeavesUsers(k, x, env, p);
    DomainsOf(k);
    DescCallFine(k, x, env);
    DomainsOf(o.k);
  }

  lemma ForkElsewhere(k: K, x: Pid, p: Pid)
    requires Inv(k) && CanCall(k, x) && Known(k, p) && x != p
    ensures SameUser(k, ForkCall(k, x).k, p)
  {
    hide Inv, D.Exact, D.ForkTable;
    DomainsOf(k);
    D.MarksKnown(k.d, x);
    D.ForkResult(k.d, x, k.nextPid);
  }

  lemma WaitElsewhere(k: K, x: Pid, p: Pid)
    requires CanCall(k, x) && Known(k, p) && x != p
    ensures WaitCall(k, x).Return? ==> Kept(k, WaitCall(k, x).k, p)
    ensures !WaitCall(k, x).Replaced?
  {
    hide D.Exact, WriteBytes, Wanted, Domains;
  }

  lemma ActionsElsewhere(k: K, x: Pid, p: Pid)
    requires CanCall(k, x) && Known(k, p) && x != p
    ensures SignalCall(k, x).Return? && SameUser(k, SignalCall(k, x).k, p)
    ensures SigactionCall(k, x).Return? && SameUser(k, SigactionCall(k, x).k, p)
  {
    hide D.Exact, Domains, StoreAction, LoadAction;
  }

  lemma ExecElsewhere(k: K, x: Pid, env: Env, p: Pid)
    requires CanCall(k, x) && Known(k, p) && x != p
    ensures ExecCall(k, x, env).Return? ==> SameUser(k, ExecCall(k, x, env).k, p)
    ensures ExecCall(k, x, env).Replaced? ==> SameUser(k, ExecCall(k, x, env).k, p)
  {
    hide D.Exact, D.ExecTable;
    D.MarksKnown(k.d, x);
    D.ExecResult(k.d, x);
  }

  lemma KillFate(k: K, x: Pid, p: Pid)
    requires Inv(k) && CanCall(k, x) && Known(k, p) && In(k, p, S.Sleeping)
    ensures KillCall(k, x).Return? && Fate(k, KillCall(k, x).k, p)
  {
    hide Inv, D.Exact, Domains, PostAll, Targets, Fate;
    StillAsleep(k, k, p);
    var targets := Targets(k, x, Signed32(M(k, x).regs[EBX]), 0);
    DomainsOf(k);
    assert forall q :: q in targets ==> Known(k, q);
    PostAllFate(k, targets, M(k, x).regs[ECX], p);
  }

  lemma ProcFate(k: K, x: Pid, env: Env, p: Pid)
    requires Inv(k) && CanCall(k, x) && Known(k, p) && In(k, p, S.Sleeping) && x != p
    ensures ProcCall(k, x, env).Return? ==> Fate(k, ProcCall(k, x, env).k, p)
    ensures ProcCall(k, x, env).Replaced? ==> Fate(k, ProcCall(k, x, env).k, p)
  {
    hide Inv, D.Exact, Domains, Fate, ProcCall, KillCall, SameUser;
    var nr, o := M(k, x).regs[EAX], ProcCall(k, x, env);
    if nr == 37 { KillIsCall(k, x, env); KillFate(k, x, p); }
    else {
      ProcElsewhere(k, x, env, p);
      if o.Return? || o.Replaced? { StillAsleep(k, o.k, p); }
    }
  }

  lemma KillIsCall(k: K, x: Pid, env: Env)
    requires CanCall(k, x) && M(k, x).regs[EAX] == 37
    ensures ProcCall(k, x, env) == KillCall(k, x)
  {
    hide D.Exact, Domains, KillCall;
  }

  /** All calls but kill leave the user state of others alone. */
  lemma ProcElsewhere(k: K, x: Pid, env: Env, p: Pid)
    requires Inv(k) && CanCall(k, x) && Known(k, p) && x != p && M(k, x).regs[EAX] != 37
    ensures ProcCall(k, x, env).Return? || ProcCall(k, x, env).Replaced? ==> Kept(k, ProcCall(k, x, env).k, p)
  {
    hide Inv, D.Exact, Domains, ForkCall, WaitCall, ExecCall, KillCall, SignalCall, SigactionCall, NewMask;
    ForkElsewhere(k, x, p);
    WaitElsewhere(k, x, p);
    ExecElsewhere(k, x, env, p);
    ActionsElsewhere(k, x, p);
  }

  lemma CallFate(k: K, x: Pid, env: Env, p: Pid)
    requires Inv(k) && CanCall(k, x) && In(k, x, S.Running) && GoodEnv(env) && Traps(M(k, x))
    requires Known(k, p) && In(k, p, S.Sleeping)
    ensures Fate(k, SystemCall(k, x, env), p)
  {
    hide Inv, D.Exact, Domains, Fate, Dispatch, ExitProcess, SetResult, Sleep, Traps, PastTrap, S.Sound;
    DomainsOf(k);
    PastKeeps(k, x);
    var k1 := PastState(k, x);
    assert SameUser(k, k1, p);
    DispatchFate(k1, x, env, p);
    match Dispatch(k1, x, env)
    case Return(k2, ret) =>
      FateAfterNothing(k, k1, k2, p);
      FateKnown(k, k2, p);
      ResultElsewhere(k2, x, ret, p);
      FateThenNothing(k, k2, SetResult(k2, x, ret), p);
    case Blocked(ch) =>
      SleepElsewhere(k1, x, ch, p);
      FateAfterNothing(k, k1, Sleep(k1, x, ch), p);
    case Exits(code) =>
      DomainsOf(k1);
      ExitFate(k1, x, code, p);
      FateAfterNothing(k, k1, ExitProcess(k1, x, code), p);
    case Replaced(k2) =>
      FateAfterNothing(k, k1, k2, p);
  }

  lemma SleepElsewhere(k: K, x: Pid, ch: Channel, p: Pid)
    requires Known(k, x) && Known(k, p) && In(k, p, S.Sleeping) && x != p
    ensures Fate(k, Sleep(k, x, ch), p)
  {
    hide Fate;
    StillAsleep(k, Sleep(k, x, ch), p);
  }

  lemma ResultElsewhere(k: K, x: Pid, ret: int, p: Pid)
    requires x != p
    ensures Known(k, p) ==> SameUser(k, SetResult(k, x, ret), p)
  {
  }

  lemma FateKnown(k: K, k': K, p: Pid)
    requires Known(k, p) && Fate(k, k', p)
    ensures Known(k', p)
  {
    hide G.Deliver;
  }

  lemma PollFate(k: K, x: Pid, ttyReady: bool, p: Pid)
    requires Known(k, x) && Known(k, p) && In(k, p, S.Sleeping)
    ensures Fate(k, Poll(k, x, ttyReady), p)
  {
    hide PollReady, Fate;
    StillAsleep(k, k, p);
    if x == p { WokenFate(k, k, k, p); }
    else {
      assert SameUser(k, Wake(k, x, false), p);
      StillAsleep(k, Wake(k, x, false), p);
    }
  }

  lemma PickFate(k: K, p: Pid)
    requires Inv(k) && Known(k, p) && In(k, p, S.Sleeping)
    ensures Fate(k, k.(s := S.Pick(k.s).1), p)
  {
    hide Inv, S.Sound, S.Pick, Fate;
    InvParts(k);
    S.PickExact(k.s);
    StillAsleep(k, k.(s := S.Pick(k.s).1), p);
  }

  lemma SpawnFate(k: K, m: Machine, tty: bool, script: Option<nat>, p: Pid)
    requires Inv(k) && D.Exact(k.d) && Domains(k) && Known(k, p) && In(k, p, S.Sleeping)
    ensures Fate(k, Spawn(k, m, tty, script), p)
  {
    hide Inv, D.Exact, D.KeepsObjects, ShellTable, Fate;
    ShellTableResult(k.d, k.nextPid, tty, script);
    StillAsleep(k, Spawn(k, m, tty, script), p);
  }

  lemma ReapFate(k: K, x: Pid, p: Pid)
    requires Known(k, x) && In(k, x, S.Zombie) && Known(k, p) && In(k, p, S.Sleeping)
    ensures Fate(k, Reap(k, x), p)
  {
    hide Fate;
    StillAsleep(k, Reap(k, x), p);
  }

  lemma OwnTaskFate(k: K, x: Pid, t: G.Task, p: Pid)
    requires Known(k, x) && Known(k, p) && In(k, p, S.Sleeping) && x != p
    ensures Fate(k, WithTask(k, x, t), p)
  {
    hide Fate;
    StillAsleep(k, WithTask(k, x, t), p);
  }

  /** Steps of a running process. */
  lemma RunnerFate(k: K, ev: Step, p: Pid)
    requires Inv(k) && Enabled(k, ev) && Known(k, p) && In(k, p, S.Sleeping)
    requires ev.UserRan? || ev.Trapped? || ev.Returned? || ev.Ended?
    ensures Fate(k, Next(k, ev), p)
  {
    hide Inv, D.Exact, Domains, Fate, SystemCall, ExitProcess, WithTask, GoodEnv, Traps, G.SigReturn;
    DomainsOf(k);
    EnabledFacts(k, ev);
    if ev.UserRan? { OwnTaskFate(k, ev.p, k.u[ev.p].task.(m := ev.m), p); }
    else if ev.Trapped? { CallFate(k, ev.p, ev.env, p); }
    else if ev.Returned? { OwnTaskFate(k, ev.p, G.SigReturn(k.u[ev.p].task).value, p); }
    else { ExitFate(k, ev.p, ev.code, p); }
  }

  /** Every sleep ends in one of these ways, or goes on unchanged, at every step of the kernel: the
      identical call runs again (at once, or after a handler returns), the call fails with EINTR two
      bytes further on, or the process is stopped or dead. */
  lemma SleeperFate(k: K, ev: Step, p: Pid)
    requires Inv(k) && Enabled(k, ev) && Known(k, p) && In(k, p, S.Sleeping)
    ensures Fate(k, Next(k, ev), p)
  {
    hide Inv, D.Exact, Domains, Fate, SystemCall, ExitProcess, PostSignal, DeliverOne, Poll, Reap, Spawn, WithTask,
         GoodMemory, GoodEnv, Traps, S.Pick, S.Runnable, G.SigReturn;
    if ev.UserRan? || ev.Trapped? || ev.Returned? || ev.Ended? { RunnerFate(k, ev, p); }
    else {
      KnownMemory(k);
      match ev
      case Polled(x, ttyReady) => PollFate(k, x, ttyReady, p);
      case Posted(x, sig) => PostFate(k, x, sig, p);
      case Delivered(x) => DeliverFate(k, x, p);
      case PickedNext => PickFate(k, p);
      case Spawned(m, tty, script) => SpawnFate(k, m, tty, script, p);
      case InitReaped(x) => ReapFate(k, x, p);
    }
  }

  lemma KnownMemory(k: K)
    requires Inv(k)
    ensures D.Exact(k.d) && Domains(k)
    ensures forall p :: Known(k, p) ==> M(k, p).mem.Valid()
  {
    hide D.Exact;
  }

  // ---- The call runs again ------------------------------------------------------------------------

  /** A sleeper that is woken executes the identical call next: its instruction is the two-byte trap,
      and its registers and descriptor are those it fell asleep with. */
  lemma SameCallAgain(k: K, p: Pid)
    requires Inv(k) && Known(k, p) && In(k, p, S.Sleeping)
    ensures SleepsAtCall(k, p) && Traps(M(k, p)) && TrapLength(M(k, p)) == 2
    ensures PastTrap(M(k, p)) == M(k, p).(eip := M(k, p).eip + 2)
  {
    hide Decode, D.Exact;
    assert SleepsAtCall(k, p);
    L.BytesAreTrap(M(k, p).mem, M(k, p).eip);
  }

  /** What the sleeper would get by trapping again now. */
  function Retry(k: K, p: Pid, env: Env): Outcome
    requires CanCall(k, p)
  {
    Dispatch(k, p, env)
  }

  /** For pipes the polled condition is exact: the poll wakes a sleeper if and only if the repeated
      call no longer blocks. */
  lemma PipePollExact(k: K, p: Pid, env: Env, ttyReady: bool)
    requires Inv(k) && CanCall(k, p) && Known(k, p) && SleepsAtCall(k, p)
    requires k.u[p].channel.value.PipeRead? || k.u[p].channel.value.PipeWrite?
    ensures PollReady(k, p, k.u[p].channel.value, ttyReady) <==> !Retry(k, p, env).Blocked?
  {
    hide Inv, D.Exact, WriteBytes, Domains;
    var q := k.u[p].channel.value.pipe;
    PipeKnown(k, p, M(k, p).regs[EBX], q);
    FlowOf(k, q);
  }

  /** For the terminal it is exact if and only if the poll and the read agree on whether input is there. */
  lemma TtyPollExact(k: K, p: Pid, env: Env, ttyReady: bool)
    requires CanCall(k, p) && SleepsAtCall(k, p) && k.u[p].channel == Some(TtyRead)
    ensures (PollReady(k, p, TtyRead, ttyReady) <==> !Retry(k, p, env).Blocked?) <==> (ttyReady <==> env.tty.Some?)
  {
    hide D.Exact, WriteBytes, Domains;
  }

  predicate HasDeadChild(k: K, p: Pid) {
    exists q :: q in k.s.procs && k.s.procs[q].ppid == p && In(k, q, S.Zombie)
  }

  predicate HasWantedDead(k: K, p: Pid, pid: int)
    requires p in k.s.procs
  {
    exists q :: q in k.s.procs && Wanted(k, p, pid, q) && In(k, q, S.Zombie)
  }

  /** For wait the poll looks at all children, the call at those it asked for. So the poll wakes in vain
      exactly when children are dead, none of them wanted, and a wanted one lives; and it leaves a sleeper
      that could go on exactly when no child is dead and none is wanted any more (they have changed their
      group), or the call would not wait. */
  lemma WaitPollExact(k: K, p: Pid, env: Env, ttyReady: bool)
    requires Inv(k) && CanCall(k, p) && SleepsAtCall(k, p) && k.u[p].channel == Some(WaitFor(p))
    ensures var pid, waits := Signed32(M(k, p).regs[EBX]), M(k, p).regs[EDX] % 2 == 0;
      var ready, goes := PollReady(k, p, WaitFor(p), ttyReady), !Retry(k, p, env).Blocked?;
      && (ready && !goes <==> HasDeadChild(k, p) && !HasWantedDead(k, p, pid) && HasWanted(k, p, pid) && waits)
      && (!ready && goes <==> !HasDeadChild(k, p) && (!HasWanted(k, p, pid) || !waits))
  {
    hide Inv, D.Exact, WriteBytes, Reap, Domains;
    var pid := Signed32(M(k, p).regs[EBX]);
    BelowNext(k);
    if FirstZombie(k, p, pid, 0).Some? {
      var z := FirstZombie(k, p, pid, 0).value;
      assert Wanted(k, p, pid, z) && In(k, z, S.Zombie);
    }
  }

  lemma BelowNext(k: K)
    requires Inv(k)
    ensures forall q :: q in k.s.procs ==> q < k.nextPid
  {
  }

  // ---- Ends of pipes ---------------------------------------------------------------------------------

  /** A read of some bytes reports the end of file exactly when everything accepted has been delivered
      and no descriptor of any process is open for writing. */
  lemma EndOfFile(k: K, q: PipeId, n: nat)
    requires Inv(k) && q in k.d.pipes && n > 0
    ensures P.ReadPipe(k.d.pipes[q], n) == P.Moved(k.d.pipes[q], [])
       <==> LogOf(k, q).delivered == LogOf(k, q).accepted && forall s: (Pid, nat) :: !D.HoldsEnd(k.d, s, q, true)
  {
    hide Inv, D.Exact, D.HoldsEnd;
    InvParts(k);
    FlowOf(k, q);
    D.NoEndNoSlot(k.d, q);
    var log, buf := LogOf(k, q), k.d.pipes[q].buf;
    assert log.accepted == log.delivered + buf;
    if log.delivered == log.accepted { assert |buf| == 0; }
    if buf == [] { assert log.delivered + [] == log.delivered; }
  }

  /** A write of some bytes fails with EPIPE exactly when no descriptor of any process is open for
      reading. */
  lemma BrokenPipe(k: K, q: PipeId, data: seq<Byte>)
    requires Inv(k) && q in k.d.pipes && data != []
    ensures P.WritePipe(k.d.pipes[q], data).Broken? <==> forall s: (Pid, nat) :: !D.HoldsEnd(k.d, s, q, false)
  {
    hide Inv, D.Exact, D.HoldsEnd;
    InvParts(k);
    D.NoEndNoSlot(k.d, q);
  }

  // ---- Runs ---------------------------------------------------------------------------------------------

  /** The kernel with one process: the built-in init task, or a program started directly. */
  function Boot(m: Machine, kernelTask: bool, tty: bool): K
  {
    var d := D.Desc(map[], map[], map[], map[], map[], 0, 0);
    NothingOpen();
    K(ShellTable(d, 1, tty, None), S.Sched(map[1 := S.Info(S.Running, kernelTask, 0, 1, 0)], [1]),
      map[1 := User(G.Task(m, 0, [], seq(33, _ => G.Action(0, 0, 0, 0))), {}, None, false)], map[], 2)
  }

  lemma NothingOpen()
    ensures D.Exact(D.Desc(map[], map[], map[], map[], map[], 0, 0))
  {
    var d := D.Desc(map[], map[], map[], map[], map[], 0, 0);
    assert forall f :: D.SlotsOf(d, f) == {};
    assert forall n :: D.LiveFiles(d, n) == {};
  }

  lemma BootInv(m: Machine, kernelTask: bool, tty: bool)
    requires GoodMemory(m)
    ensures Inv(Boot(m, kernelTask, tty))
  {
    hide D.Exact, D.KeepsObjects, ShellTable, GoodMemory;
    var d := D.Desc(map[], map[], map[], map[], map[], 0, 0);
    NothingOpen();
    ShellTableResult(d, 1, tty, None);
    FilesKept(d, Boot(m, kernelTask, tty).d);
  }

  /** One step of a run. The step function asks for the invariants, which are not assumed to hold but
      shown to. */
  ghost predicate Taken(k: K, ev: Step, k': K) {
    Inv(k) ==> Enabled(k, ev) && k' == Next(k, ev)
  }

  /** A run of the kernel from boot. */
  ghost predicate IsRun(states: seq<K>, steps: seq<Step>) {
    && |states| == |steps| + 1
    && (exists m, kernelTask, tty :: GoodMachine(m) && states[0] == Boot(m, kernelTask, tty))
    && forall i :: 0 <= i < |steps| ==> Taken(states[i], steps[i], states[i + 1])
  }

  /** The invariants hold in every state of every run. */
  lemma {:induction false} RunsKeepInv(states: seq<K>, steps: seq<Step>, i: nat)
    requires IsRun(states, steps) && i < |states|
    ensures Inv(states[i])
  {
    hide Inv, Enabled, Next, Boot;
    if i == 0 {
      var m, kernelTask, tty :| GoodMachine(m) && states[0] == Boot(m, kernelTask, tty);
      BootInv(m, kernelTask, tty);
    } else {
      RunsKeepInv(states, steps, i - 1);
      assert Taken(states[i - 1], steps[i - 1], states[i]);
      StepKeepsInv(states[i - 1], steps[i - 1]);
    }
  }

  /** In every reachable state: counts exact, queue sound, pipes conserving, sleepers at their calls. */
  lemma ReachableStates(states: seq<K>, steps: seq<Step>, i: nat)
    requires IsRun(states, steps) && i < |states|
    ensures D.Exact(states[i].d) && S.Sound(states[i].s)
    ensures forall q :: q in states[i].d.pipes ==> Flows(states[i], q)
    ensures forall p :: Known(states[i], p) && In(states[i], p, S.Sleeping) ==> SleepsAtCall(states[i], p)
  {
    hide D.Exact, S.Sound, IsRun, Flows, SleepsAtCall;
    RunsKeepInv(states, steps, i);
  }

  /** A step that an atomically blocking kernel does not take: a call that blocks at a two-byte trap, a poll, a
      pick. */
  ghost predicate Silent(k: K, ev: Step) {
    || (ev.Trapped? && CallBlocks(k, ev.p, ev.env) && TrapLength(M(k, ev.p)) == 2)
    || ev.Polled? || ev.PickedNext?
  }

  lemma SilentStutters(k: K, ev: Step)
    requires Inv(k) && Enabled(k, ev) && Silent(k, ev)
    ensures Atomic(Next(k, ev)) == Atomic(k)
  {
    hide Inv, CallBlocks, TrapLength, SystemCall, Atomic, Poll, S.Pick, S.Runnable, GoodEnv, Traps;
    match ev
    case Trapped(p, env) =>
      CallerKnown(k, p, env);
      BlockingStutters(k, p, env);
    case Polled(p, ttyReady) => PollingStutters(k, p, ttyReady);
    case PickedNext => PickingStutters(k);
    case _ =>
  }

  /** However often sleepers are polled, woken in vain and put to sleep again, an atomically blocking kernel has
      not moved. */
  lemma {:induction false} SilentStretch(states: seq<K>, steps: seq<Step>, i: nat, j: nat)
    requires IsRun(states, steps) && i <= j < |states|
    requires forall x :: i <= x < j ==> Silent(states[x], steps[x])
    ensures Atomic(states[j]) == Atomic(states[i])
    decreases j
  {
    hide Inv, Enabled, Next, Boot, Atomic, Silent;
    if i < j {
      SilentStretch(states, steps, i, j - 1);
      RunsKeepInv(states, steps, j - 1);
      assert Taken(states[j - 1], steps[j - 1], states[j]);
      SilentStutters(states[j - 1], steps[j - 1]);
    }
  }

  /** A program whose pause has a segment prefix. */
  function PrefixedPause(): Machine {
    var regs: Registers := [29, 0, 0, 0, 0, 0, 0, 0];
    Machine(regs, 0, 0x0202, Image([0x2E, 0xCD, 0x80], [], TASK_SIZE, 3, 3, TASK_SIZE), [])
  }

  /** Put to sleep, it does not stand where it stood. */
  lemma PrefixedTrapMoves(k: K, p: Pid, env: Env)
    requires Inv(k) && CanCall(k, p) && In(k, p, S.Running) && M(k, p) == PrefixedPause()
    ensures CallBlocks(k, p, env) && TrapLength(M(k, p)) == 3
    ensures Atomic(SystemCall(k, p, env)) != Atomic(k)
  {
    hide Inv, Atomic, SystemCall, D.Exact, Domains, Decode, S.Sound;
    PrefixedDecodes(PrefixedPause().mem);
    InvParts(k);
    BlockingStutters(k, p, env);
  }

  /** The kernel can be in such a state. */
  lemma PrefixedBoots()
    ensures var k := Boot(PrefixedPause(), false, false);
      GoodMachine(PrefixedPause()) && Inv(k) && CanCall(k, 1) && In(k, 1, S.Running) && M(k, 1) == PrefixedPause()
  {
    hide Inv, D.Exact, Domains, ShellTable;
    BootInv(PrefixedPause(), false, false);
    DomainsOf(Boot(PrefixedPause(), false, false));
  }

  lemma PrefixedDecodes(m: Image)
    requires m.Valid() && m.Disjoint() && m.low == [0x2E, 0xCD, 0x80]
    ensures Decode(m, 0).Insn? && Decode(m, 0).e.fn == Interrupt && Decode(m, 0).e.imm == 0x80 && Decode(m, 0).e.length == 3
  {
    hide ShapeOf, Shape0F, ScanPrefixes;
    I.AllPrefixesThen(m, 0, 1, 4, 0);
    L.IntShape();
    assert m.ByteAt(2) == Some(0x80);
    L.ByteLoads(m, 2);
  }
}
