/** What the system calls do, seen from outside (kernel.py): each law speaks of the state after a process has made
    the call, found at its trap with the call's number in eax. */
module KernelCalls {
  import opened Words
  import opened Memory
  import opened Decoder
  import opened Handlers
  import opened Kernel
  import opened KernelProofs
  import opened KernelSleep
  import D = Descriptors
  import S = Scheduler
  import G = Signals
  import Shifting

  /** A running process p stands at its trap with call number nr in eax. */
  ghost predicate Makes(k: K, p: Pid, env: Env, nr: Word) {
    Inv(k) && Enabled(k, Trapped(p, env)) && M(k, p).regs[EAX] == nr
  }

  /** The state after the call. */
  ghost function After(k: K, p: Pid, env: Env, nr: Word): K
    requires Makes(k, p, env, nr)
  {
    Next(k, Trapped(p, env))
  }

  /** The machine of a process that has executed its trap, with a result in eax. */
  function Answered(m: Machine, ret: int): Machine
    requires m.mem.Valid() && Traps(m)
  {
    m.(eip := m.eip + TrapLength(m), regs := m.regs[EAX := Mask32(ret)])
  }

  /** The state in which the call is served: the trap is behind p. */
  ghost predicate Serves(k: K, k1: K, p: Pid) {
    CanCall(k, p) && CanCall(k1, p) && Behind(k, k1, p)
  }

  predicate Behind(k: K, k1: K, p: Pid) {
    && p in k.u && M(k, p).mem.Valid() && Traps(M(k, p))
    && k1 == k.(u := k.u[p := k.u[p].(task := k.u[p].task.(m := Past(M(k, p))))])
  }

  function Past(m: Machine): Machine
    requires m.mem.Valid() && Traps(m)
  {
    m.(eip := m.eip + TrapLength(m))
  }

  lemma Setting(k: K, p: Pid, env: Env, nr: Word) returns (k1: K, o: Outcome)
    requires Makes(k, p, env, nr)
    ensures CanCall(k, p) && Traps(M(k, p)) && CanCall(k1, p)
    ensures Serves(k, k1, p) && k1 == PastState(k, p) && o == Dispatch(k1, p, env) && M(k1, p).regs[EAX] == nr
    ensures p in k1.s.procs && k1.s.procs[p].state == S.Running && GoodMemory(M(k, p)) && GoodEnv(env)
    ensures o.Return? ==> After(k, p, env, nr) == SetResult(o.k, p, o.ret)
    ensures o.Blocked? ==> After(k, p, env, nr) == Sleep(k1, p, o.ch)
    ensures o.Exits? ==> After(k, p, env, nr) == ExitProcess(k1, p, o.code)
    ensures o.Replaced? ==> After(k, p, env, nr) == o.k
  {
    hide Inv, D.Exact, Domains, Dispatch, Traps, SetResult, Sleep, ExitProcess, TrapLength;
    DomainsOf(k);
    EnabledFacts(k, Trapped(p, env));
    k1 := PastState(k, p);
    o := Dispatch(k1, p, env);
    LengthOf(M(k, p));
  }

  lemma LengthOf(m: Machine)
    requires m.mem.Valid() && Traps(m)
    ensures PastTrap(m) == Past(m)
  {
    hide Decode;
  }

  /** The dispatcher's choice, by number. */
  lemma Dispatched(k: K, p: Pid, env: Env)
    requires CanCall(k, p)
    ensures var m, o := M(k, p), Dispatch(k, p, env);
      && (m.regs[EAX] == 1 ==> o == Exits(m.regs[EBX] % 0x100 * 0x100))
      && (m.regs[EAX] == 2 ==> o == ForkCall(k, p))
      && (m.regs[EAX] == 3 ==> o == ReadCall(k, p, env))
      && (m.regs[EAX] == 4 ==> o == WriteCall(k, p, env))
      && (m.regs[EAX] == 7 ==> o == WaitCall(k, p))
      && (m.regs[EAX] == 11 ==> o == ExecCall(k, p, env))
      && (m.regs[EAX] == 19 ==> o == SeekCall(k, p, env))
      && (m.regs[EAX] == 37 ==> o == KillCall(k, p))
      && (m.regs[EAX] == 48 ==> o == SignalCall(k, p))
      && (m.regs[EAX] == 67 ==> o == SigactionCall(k, p))
      && (m.regs[EAX] == 29 ==> o == Blocked(Pausing(p)))
  {
    hide D.Exact, Domains, ForkCall, ReadCall, WriteCall, WaitCall, ExecCall, SeekCall, KillCall, SignalCall, SigactionCall, NewMask;
  }

  /** Descriptors may have come or gone, but no open file moves and no pipe's contents change. */
  ghost predicate SameObjects(k: K, k': K) {
    D.KeepsObjects(k.d, k'.d) && D.SameFiles(k.d, k'.d)
  }

  /** fork: a new process, runnable, with no pending signals and no frames, whose memory, flags, place, mask,
      dispositions and registers are its parent's behind the trap, but for eax: 0 in the child, the child's number in
      the parent. It shares the parent's descriptors. Nothing else about the parent changes, nor any other process. */
  lemma ForkExact(k: K, p: Pid, env: Env)
    requires Makes(k, p, env, 2)
    ensures var k', c, t := After(k, p, env, 2), k.nextPid, k.u[p].task;
      && c !in k.u && k'.u.Keys == k.u.Keys + {c} && k'.nextPid == c + 1
      && k'.u[c] == User(t.(m := Answered(t.m, 0), frames := []), {}, None, false)
      && k'.u[p] == k.u[p].(task := t.(m := Answered(t.m, c)))
      && (forall q :: q in k.u && q != p ==> k'.u[q] == k.u[q])
      && k'.s.procs == k.s.procs[c := S.Info(S.Running, false, p, k.s.procs[p].pgrp, 0)] && c in k'.s.runq
      && k'.logs == k.logs && SameObjects(k, k')
      && k'.d.tables == k.d.tables[c := k.d.tables[p]] && p in k.d.marks && k'.d.marks == k.d.marks[c := k.d.marks[p]]
  {
    hide Inv, D.Exact, Domains, TrapLength, Traps, Dispatch, After, Makes, ForkCall, Serves, SetResult, Answered, PastState, CanCall, SameObjects;
    var k1, o := Setting(k, p, env, 2);
    FreshPid(k, p, env);
    Dispatched(k1, p, env);
    ForkServed(k, k1, p);
  }

  lemma ForkServed(k: K, k1: K, p: Pid)
    requires Serves(k, k1, p) && k.nextPid !in k.u && k.nextPid !in k.s.procs
    ensures var o, c, t := ForkCall(k1, p), k.nextPid, k.u[p].task;
      o.Return? && o.ret == c && p in o.k.u
      && var k' := SetResult(o.k, p, o.ret);
        && k'.u.Keys == k.u.Keys + {c} && k'.nextPid == c + 1
        && k'.u[c] == User(t.(m := Answered(t.m, 0), frames := []), {}, None, false)
        && k'.u[p] == k.u[p].(task := t.(m := Answered(t.m, c)))
        && (forall q :: q in k.u && q != p ==> k'.u[q] == k.u[q])
        && k'.s.procs == k.s.procs[c := S.Info(S.Running, false, p, k.s.procs[p].pgrp, 0)] && c in k'.s.runq
        && k'.logs == k.logs && SameObjects(k, k')
        && k'.d.tables == k.d.tables[c := k.d.tables[p]] && p in k.d.marks && k'.d.marks == k.d.marks[c := k.d.marks[p]]
  {
    hide D.Exact, D.ForkTable, TrapLength, Traps, D.KeepsObjects, D.SameFiles;
    D.MarksKnown(k.d, p);
    D.ForkResult(k.d, p, k.nextPid);
  }

  lemma FreshPid(k: K, p: Pid, env: Env)
    requires Makes(k, p, env, 2)
    ensures k.nextPid !in k.u && k.nextPid !in k.s.procs && p != k.nextPid
  {
    hide D.Exact, Traps, GoodEnv;
  }

  // ---- exit ------------------------------------------------------------------------------------

  /** The number of the process that is told of p's end: its parent; p itself cannot be. */
  function Heir(k: K, p: Pid): Pid
    requires p in k.s.procs
  {
    if k.s.procs[p].ppid == p then 1 else k.s.procs[p].ppid
  }

  /** The process sleeps in waitpid. */
  predicate Waits(k: K, p: Pid) {
    Known(k, p) && In(k, p, S.Sleeping) && k.u[p].channel.Some? && k.u[p].channel.value.WaitFor?
  }

  /** p is dead with this code: off the queue, without descriptors, its children init's; its parent has SIGCHLD pending
      and, if it sleeps in waitpid, is awake. Nothing else becomes pending. */
  ghost predicate Exited(k: K, k': K, p: Pid, code: int)
    requires Known(k, p)
  {
    && Known(k', p) && k'.u.Keys == k.u.Keys && k'.s.procs.Keys == k.s.procs.Keys
    && k'.s.procs[p].state == S.Zombie && k'.s.procs[p].exitCode == code && p !in k'.s.runq
    && k'.d.tables == k.d.tables[p := D.NoFiles()] && k'.d.marks == k.d.marks && SameObjects(k, k')
    && (forall q :: q in k.s.procs ==>
          k'.s.procs[q].ppid == (if k.s.procs[q].ppid == p then 1 else k.s.procs[q].ppid) && k'.s.procs[q].pgrp == k.s.procs[q].pgrp)
    && (forall q :: q in k.u ==>
          k'.u[q].pending == if q == Heir(k, p) then k.u[q].pending + {17} else k.u[q].pending)
    && (Heir(k, p) != p && Waits(k, Heir(k, p)) ==> In(k', Heir(k, p), S.Running))
  }

  lemma TableEmptied(k: K, p: Pid, code: int)
    requires D.Exact(k.d) && Domains(k) && Known(k, p) && S.Sound(k.s)
    ensures Domains(Buried(k, p, code)) && IsBuried(k, Buried(k, p, code), p, code)
    ensures Buried(k, p, code).d.tables.Keys == k.d.tables.Keys
  {
    hide D.Exact, D.ExitTable, D.SameFiles;
    D.ExitResult(k.d, p);
  }

  /** Somebody may have been woken, but not the dead p; nothing new is pending. */
  ghost predicate Undisturbed(k: K, k': K, p: Pid) {
    && k'.d == k.d && k'.u.Keys == k.u.Keys && k'.s.procs.Keys == k.s.procs.Keys
    && p in k.s.procs && k'.s.procs[p] == k.s.procs[p] && p !in k'.s.runq
    && (forall q :: q in k.s.procs ==> k'.s.procs[q] == k.s.procs[q].(state := k'.s.procs[q].state))
    && (forall q :: q in k.u ==> k'.u[q].pending == k.u[q].pending)
  }

  lemma WakeUndisturbed(k: K, q: Pid, interrupted: bool, p: Pid)
    requires Known(k, q) && Known(k, p) && In(k, p, S.Zombie) && p !in k.s.runq
    ensures Undisturbed(k, Wake(k, q, interrupted), p)
    ensures In(k, q, S.Sleeping) || In(k, q, S.Running) ==> In(Wake(k, q, interrupted), q, S.Running)
  {
    hide Interrupted;
  }

  lemma PostUndisturbed(k: K, q: Pid, p: Pid)
    requires Known(k, q) && Known(k, p) && In(k, p, S.Zombie) && p !in k.s.runq
    ensures var k1 := k.(u := k.u[q := k.u[q].(pending := k.u[q].pending + {17})]);
      Undisturbed(k1, PostSignal(k, q, 17), p)
    ensures Waits(k, q) ==> In(PostSignal(k, q, 17), q, S.Running) || Waits(PostSignal(k, q, 17), q)
  {
    hide Noticed, BlockedBit, Wake;
    var k1 := k.(u := k.u[q := k.u[q].(pending := k.u[q].pending + {17})]);
    WakeUndisturbed(k1, q, true, p);
  }

  lemma Tells(k1: K, parent: Pid, p: Pid)
    requires Domains(k1) && Known(k1, parent) && Known(k1, p) && In(k1, p, S.Zombie) && p !in k1.s.runq
    ensures var k2 := Tell(k1, parent);
      && Undisturbed(k1.(u := k1.u[parent := k1.u[parent].(pending := k1.u[parent].pending + {17})]), k2, p)
      && (Waits(k1, parent) ==> In(k2, parent, S.Running))
  {
    hide PostSignal, Wake;
    PostUndisturbed(k1, parent, p);
    var k2 := PostSignal(k1, parent, 17);
    WakeUndisturbed(k2, parent, false, p);
  }

  lemma ExitExact(k: K, p: Pid, code: int)
    requires Inv(k) && D.Exact(k.d) && Domains(k) && Known(k, p)
    ensures Exited(k, ExitProcess(k, p, code), p, code)
  {
    hide Inv, D.Exact, D.ExitTable, S.Sound, S.Apply, Waits, Exited, Undisturbed, Tell, ExitProcess, Buried, Domains;
    InvParts(k);
    TableEmptied(k, p, code);
    var k1 := Buried(k, p, code);
    var parent := k1.s.procs[p].ppid;
    WaitsOn(k, k1, parent, p);
    if parent in k1.s.procs { DomainsKnow(k1, parent); }
    ExitSteps(k, k1, p, code);
    if parent in k1.s.procs {
      Tells(k1, parent, p);
      ExitTold(k, k1, Tell(k1, parent), p, code);
    } else {
      ExitUntold(k, k1, p, code);
    }
  }

  lemma DomainsKnow(k: K, p: Pid)
    requires Domains(k) && p in k.s.procs
    ensures Known(k, p)
  {
  }

  lemma ExitSteps(k: K, k1: K, p: Pid, code: int)
    requires D.Exact(k.d) && Domains(k) && Known(k, p) && k1 == Buried(k, p, code) && Known(k1, p)
    requires k1.s.procs[p].ppid in k1.s.procs ==> Known(k1, k1.s.procs[p].ppid)
    ensures ExitProcess(k, p, code) == if k1.s.procs[p].ppid in k1.s.procs then Tell(k1, k1.s.procs[p].ppid) else k1
  {
    hide D.Exact, D.ExitTable, PostSignal, Wake;
  }

  /** What the table looks like when p has been buried. */
  ghost predicate IsBuried(k: K, k1: K, p: Pid, code: int) {
    && Known(k, p) && Known(k1, p) && k1.u == k.u && k1.d.tables == k.d.tables[p := D.NoFiles()] && k1.d.marks == k.d.marks && SameObjects(k, k1)
    && k1.s.procs.Keys == k.s.procs.Keys && p !in k1.s.runq
    && (forall q :: q in k.s.procs ==>
          k1.s.procs[q] == S.Info(if q == p then S.Zombie else k.s.procs[q].state, k.s.procs[q].kernelTask,
                                  if k.s.procs[q].ppid == p then 1 else k.s.procs[q].ppid, k.s.procs[q].pgrp,
                                  if q == p then code else k.s.procs[q].exitCode))
  }

  lemma ExitTold(k: K, k1: K, k2: K, p: Pid, code: int)
    requires IsBuried(k, k1, p, code) && Known(k1, Heir(k, p))
    requires var h := Heir(k, p); Undisturbed(k1.(u := k1.u[h := k1.u[h].(pending := k1.u[h].pending + {17})]), k2, p)
    requires Heir(k, p) != p && Waits(k, Heir(k, p)) ==> In(k2, Heir(k, p), S.Running)
    ensures Exited(k, k2, p, code)
  {
    hide Waits, D.KeepsObjects, D.SameFiles;
  }

  lemma ExitUntold(k: K, k1: K, p: Pid, code: int)
    requires IsBuried(k, k1, p, code) && Domains(k) && Heir(k, p) !in k1.s.procs
    ensures Exited(k, k1, p, code)
  {
    hide D.KeepsObjects, D.SameFiles;
    assert Heir(k, p) !in k.u;
  }

  lemma WaitsOn(k: K, k1: K, q: Pid, p: Pid)
    requires Known(k, p) && k1.u == k.u && k1.d.tables.Keys == k.d.tables.Keys && k1.s.procs.Keys == k.s.procs.Keys
    requires q in k.s.procs && q != p ==> k1.s.procs[q].state == k.s.procs[q].state
    ensures q != p ==> (Waits(k1, q) <==> Waits(k, q))
  {
  }

  /** exit: the low byte of the argument, in the second byte of the status. */
  lemma ExitCallExact(k: K, p: Pid, env: Env)
    requires Makes(k, p, env, 1)
    ensures Known(k, p) && Exited(k, After(k, p, env, 1), p, M(k, p).regs[EBX] % 256 * 256)
  {
    hide Inv, D.Exact, Domains, TrapLength, Traps, Dispatch, After, Makes, ExitProcess, SetResult, PastState, Exited;
    var k1, o := Setting(k, p, env, 1);
    Dispatched(k1, p, env);
    ServedInv(k, p, env, 1);
    ExitExact(k1, p, o.code);
    ExitedSame(k, k1, After(k, p, env, 1), p, o.code);
  }

  lemma ServedInv(k: K, p: Pid, env: Env, nr: Word)
    requires Makes(k, p, env, nr)
    ensures CanCall(k, p) && In(k, p, S.Running) && Traps(M(k, p)) && GoodMemory(M(k, p)) && Inv(k)
    ensures Inv(PastState(k, p)) && In(PastState(k, p), p, S.Running)
  {
    hide Inv, D.Exact, Domains, Traps;
    DomainsOf(k);
    EnabledFacts(k, Trapped(p, env));
    PastKeeps(k, p);
  }

  lemma ExitedSame(k: K, k1: K, k': K, p: Pid, code: int)
    requires Known(k, p) && Serves(k, k1, p) && Exited(k1, k', p, code)
    ensures Exited(k, k', p, code)
  {
    hide D.Exact, Traps, TrapLength, CanCall, Past, SameObjects, Waits, Exited;
    assert k1.s == k.s && k1.u.Keys == k.u.Keys && k1.d == k.d;
    assert forall q :: q in k.u ==> k1.u[q].pending == k.u[q].pending && k1.u[q].channel == k.u[q].channel;
    ExitedAlike(k, k1, k', p, code);
  }

  lemma ExitedAlike(k: K, k1: K, k': K, p: Pid, code: int)
    requires Known(k, p) && Known(k1, p) && Exited(k1, k', p, code) && k1.s == k.s && k1.u.Keys == k.u.Keys && k1.d == k.d
    requires forall q :: q in k.u ==> k1.u[q].pending == k.u[q].pending && k1.u[q].channel == k.u[q].channel
    ensures Exited(k, k', p, code)
  {
    hide D.KeepsObjects, D.SameFiles;
    assert Waits(k1, Heir(k, p)) <==> Waits(k, Heir(k, p));
  }

  // ---- Signals taken -----------------------------------------------------------------------------

  /** A signal taken: ignored if its handler is 1, or by default for SIGCHLD (17) and SIGCONT (18); by default the
      signals 19 to 22 stop the process and all others end it, the number being the status. With any other handler the
      handler is entered, unless its frame does not fit, and a sleep ends. */
  lemma TakenExact(k: K, p: Pid, sig: nat)
    requires Inv(k) && D.Exact(k.d) && Known(k, p) && Domains(k) && 1 <= sig <= 32 && M(k, p).mem.Valid()
    ensures var k', t := TakeSignal(k, p, sig), k.u[p].task;
      var h := t.actions[sig].handler;
      && (h == 1 || (h == 0 && (sig == 17 || sig == 18)) ==> k' == k)
      && (h == 0 && (sig == 19 || sig == 20 || sig == 21 || sig == 22) ==>
            k'.u == k.u && k'.d == k.d && k'.s.procs.Keys == k.s.procs.Keys && p !in k'.s.runq
            && (forall q :: q in k.s.procs && q != p ==> k'.s.procs[q] == k.s.procs[q])
            && k'.s.procs[p] == k.s.procs[p].(state := if In(k, p, S.Zombie) then S.Zombie else S.Stopped))
      && (h == 0 && (sig < 17 || sig > 22) ==> Exited(k, k', p, sig))
      && (h > 1 && G.Deliver(t, sig).None? ==> k' == k)
      && (h > 1 && G.Deliver(t, sig).Some? ==>
            && k'.d == k.d && k'.u == k.u[p := k.u[p].(task := G.Deliver(t, sig).value, channel := k'.u[p].channel)]
            && (In(k, p, S.Sleeping) ==> In(k', p, S.Running) && k'.u[p].channel.None? && p in k'.s.runq)
            && (!In(k, p, S.Sleeping) ==> k'.s == k.s && k'.u[p].channel == k.u[p].channel))
  {
    hide Inv, D.Exact, Domains, ExitProcess, G.Deliver, Exited;
    InvParts(k);
    DeadNotQueued(k, p);
    var h := k.u[p].task.actions[sig].handler;
    if h == 0 && (sig < 17 || sig > 22) { ExitExact(k, p, sig); }
  }

  lemma DeadNotQueued(k: K, p: Pid)
    requires S.Sound(k.s)
    ensures In(k, p, S.Zombie) ==> p !in k.s.runq
    ensures p in k.s.procs ==> p !in S.Without(k.s.runq, p)
  {
  }

  /** In its turn a process that is not dead takes its lowest pending signal that is not blocked. */
  lemma TurnExact(k: K, p: Pid, sig: nat)
    requires D.Exact(k.d) && Known(k, p) && Domains(k) && M(k, p).mem.Valid()
    ensures var u := k.u[p];
      && (In(k, p, S.Zombie) || (forall s: nat :: s in u.pending && 1 <= s <= 32 ==> BitOn(u.task.blocked, s - 1)) ==>
            DeliverOne(k, p) == k)
      && (!In(k, p, S.Zombie) && sig in u.pending && 1 <= sig <= 32 && !BitOn(u.task.blocked, sig - 1)
          && (forall s: nat :: s in u.pending && 1 <= s < sig ==> BitOn(u.task.blocked, s - 1)) ==>
            DeliverOne(k, p) == TakeSignal(k.(u := k.u[p := u.(pending := u.pending - {sig})]), p, sig))
  {
    hide D.Exact, TakeSignal;
    if Deliverable(k.u[p]) != {} { SomeSignal(Deliverable(k.u[p])); }
    if sig in k.u[p].pending && 1 <= sig <= 32 && !BitOn(k.u[p].task.blocked, sig - 1) { assert sig in Deliverable(k.u[p]); }
  }

  // ---- Signals posted -----------------------------------------------------------------------------

  /** The signal ends q's sleep: it is not blocked, and it has a handler or a default action other than nothing. */
  predicate Disturbs(k: K, q: Pid, sig: nat)
    requires Known(k, q) && 1 <= sig <= 32
  {
    var t := k.u[q].task;
    var h := t.actions[sig].handler;
    In(k, q, S.Sleeping) && !BitOn(t.blocked, sig - 1) && (h > 1 || (h == 0 && sig != 17 && sig != 18))
  }

  /** Where a disturbed call comes back: behind its trap, with EINTR (4) in eax. */
  function Cut(t: G.Task): G.Task {
    t.(m := t.m.(eip := (t.m.eip + 2) % 0x1_0000_0000, regs := t.m.regs[EAX := 0x1_0000_0000 - 4]))
  }

  /** Posting a signal makes it pending, and wakes a sleeper it disturbs; other numbers are ignored. */
  lemma PostExact(k: K, q: Pid, sig: int)
    requires Known(k, q)
    ensures var k', u := PostSignal(k, q, sig), k.u[q];
      && (!(1 <= sig <= 32) ==> k' == k)
      && (1 <= sig <= 32 && !Disturbs(k, q, sig) ==> k' == k.(u := k.u[q := u.(pending := u.pending + {sig})]))
      && (1 <= sig <= 32 && Disturbs(k, q, sig) ==>
            && k'.d == k.d && k'.logs == k.logs && k'.nextPid == k.nextPid
            && k'.s.procs == k.s.procs[q := k.s.procs[q].(state := S.Running)] && q in k'.s.runq
            && k'.u == k.u[q := User(if u.restart then Cut(u.task) else u.task, u.pending + {sig}, None, false)])
  {
  }

  // ---- kill --------------------------------------------------------------------------------------------

  /** The signed number in a register. */
  predicate Reads(v: Word, n: int) {
    -0x8000_0000 <= n < 0x8000_0000 && (n - v) % 0x1_0000_0000 == 0
  }

  lemma ReadsSigned(v: Word, n: int)
    requires Reads(v, n)
    ensures Signed32(v) == n
  {
  }

  /** Who is meant by kill(n): one process, the caller's group (0), everybody but init (-1), or the group -n. */
  predicate Meant(k: K, p: Pid, n: int, q: Pid) {
    && p in k.s.procs && q in k.s.procs
    && (n > 0 ==> q == n) && (n == 0 ==> k.s.procs[q].pgrp == k.s.procs[p].pgrp) && (n == -1 ==> q > 1)
    && (n < -1 ==> k.s.procs[q].pgrp == -n)
  }

  lemma {:induction false} TargetsExact(k: K, p: Pid, n: int, i: nat, q: Pid)
    requires p in k.s.procs && forall x :: x in k.s.procs ==> x < k.nextPid
    ensures q in Targets(k, p, n, i) <==> q >= i && Meant(k, p, n, q)
    decreases if i < k.nextPid then k.nextPid - i else 0
  {
    if i < k.nextPid { TargetsExact(k, p, n, i + 1, q); }
  }

  /** Posting to several is posting to each. */
  lemma {:induction false} PostAllExact(k: K, ps: seq<Pid>, sig: int, q: Pid)
    requires (forall x :: x in ps ==> Known(k, x)) && (forall x, y :: 0 <= x < y < |ps| ==> ps[x] < ps[y]) && Known(k, q)
    ensures var k' := PostAll(k, ps, sig);
      && k'.d == k.d && k'.u.Keys == k.u.Keys && k'.s.procs.Keys == k.s.procs.Keys && k'.nextPid == k.nextPid
      && k'.u[q] == (if q in ps then PostSignal(k, q, sig).u[q] else k.u[q])
      && k'.s.procs[q] == (if q in ps then PostSignal(k, q, sig).s.procs[q] else k.s.procs[q])
    decreases |ps|
  {
    hide PostSignal;
    if |ps| > 0 {
      var k1 := PostSignal(k, ps[0], sig);
      PostLocal(k, ps[0], sig, q);
      assert forall x :: x in ps[1..] ==> x in ps && (Known(k1, x) <==> Known(k, x));
      PostAllExact(k1, ps[1..], sig, q);
      if q == ps[0] { assert q !in ps[1..]; }
      else { PostSame(k, k1, q, sig); }
    }
  }

  lemma PostLocal(k: K, x: Pid, sig: int, q: Pid)
    requires Known(k, x) && Known(k, q)
    ensures var k' := PostSignal(k, x, sig);
      && k'.nextPid == k.nextPid
      && (q != x ==> k'.u[q] == k.u[q] && k'.s.procs[q] == k.s.procs[q])
  {
  }

  lemma PostSame(k: K, k1: K, q: Pid, sig: int)
    requires Known(k, q) && Known(k1, q) && k1.u[q] == k.u[q] && k1.s.procs[q] == k.s.procs[q]
    ensures PostSignal(k1, q, sig).u[q] == PostSignal(k, q, sig).u[q]
    ensures PostSignal(k1, q, sig).s.procs[q] == PostSignal(k, q, sig).s.procs[q]
  {
  }

  /** kill: ESRCH (3) if nobody is meant; otherwise the signal is posted to everybody meant, and to nobody else. Signal
      0 only asks. The caller has its answer in eax. */
  lemma KillExact(k: K, p: Pid, env: Env, n: int)
    requires Makes(k, p, env, 37) && Reads(M(k, p).regs[EBX], n)
    ensures var k', sig := After(k, p, env, 37), M(k, p).regs[ECX];
      && M(k, p).mem.Valid() && Traps(M(k, p)) && k'.u.Keys == k.u.Keys && k'.s.procs.Keys == k.s.procs.Keys && k'.d == k.d && p in k.u
      && M(k', p) == Answered(M(k, p), if exists q :: Meant(k, p, n, q) then 0 else -3)
      && forall q :: Known(k, q) ==>
           && k'.u[q].pending == k.u[q].pending + (if Meant(k, p, n, q) && 1 <= sig <= 32 then {sig} else {})
           && (q != p && !(Meant(k, p, n, q) && 1 <= sig <= 32) ==> k'.u[q] == k.u[q] && k'.s.procs[q] == k.s.procs[q])
           && (q != p && Meant(k, p, n, q) ==> k'.u[q] == PostSignal(k, q, sig).u[q] && k'.s.procs[q] == PostSignal(k, q, sig).s.procs[q])
  {
    hide Inv, D.Exact, Domains, TrapLength, Traps, Dispatch, After, Makes, KillCall, SetResult, Answered, Serves, PastState, PostSignal, Meant;
    var k1, o := Setting(k, p, env, 37);
    Dispatched(k1, p, env);
    ServedInv(k, p, env, 37);
    ReadsSigned(M(k, p).regs[EBX], n);
    KillServed(k, k1, p, n);
  }

  lemma KillServed(k: K, k1: K, p: Pid, n: int)
    requires Serves(k, k1, p) && Inv(k1) && In(k1, p, S.Running) && Signed32(M(k, p).regs[EBX]) == n
    ensures KillCall(k1, p).Return?
    ensures var o, sig := KillCall(k1, p), M(k, p).regs[ECX];
      var k' := SetResult(o.k, p, o.ret);
      && k'.u.Keys == k.u.Keys && k'.s.procs.Keys == k.s.procs.Keys && k'.d == k.d && p in k.u
      && M(k', p) == Answered(M(k, p), if exists q :: Meant(k, p, n, q) then 0 else -3)
      && forall q :: Known(k, q) ==>
           && k'.u[q].pending == k.u[q].pending + (if Meant(k, p, n, q) && 1 <= sig <= 32 then {sig} else {})
           && (q != p && !(Meant(k, p, n, q) && 1 <= sig <= 32) ==> k'.u[q] == k.u[q] && k'.s.procs[q] == k.s.procs[q])
           && (q != p && Meant(k, p, n, q) ==> k'.u[q] == PostSignal(k, q, sig).u[q] && k'.s.procs[q] == PostSignal(k, q, sig).s.procs[q])
  {
    hide Inv, D.Exact, Domains, TrapLength, Traps, KillCall, PostSignal, Meant, Answered, Past;
    KillEach(k, k1, p, n);
    KillPosted(k, k1, p, n, KillCall(k1, p));
  }

  lemma KillEach(k: K, k1: K, p: Pid, n: int)
    requires Serves(k, k1, p) && Inv(k1) && In(k1, p, S.Running) && Signed32(M(k, p).regs[EBX]) == n
    ensures var o, sig := KillCall(k1, p), M(k, p).regs[ECX];
      && o.Return? && o.ret == (if exists q :: Meant(k, p, n, q) then 0 else -3)
      && o.k.d == k.d && o.k.u.Keys == k.u.Keys && o.k.s.procs.Keys == k.s.procs.Keys
      && forall q :: Known(k, q) ==>
           && o.k.u[q] == (if Meant(k, p, n, q) && sig != 0 then PostSignal(k1, q, sig).u[q] else k1.u[q])
           && o.k.s.procs[q] == (if Meant(k, p, n, q) && sig != 0 then PostSignal(k1, q, sig).s.procs[q] else k1.s.procs[q])
  {
    hide Inv, D.Exact, Domains, TrapLength, Traps, PostAll, PostSignal, Targets, Meant;
    var targets, sig := Targets(k1, p, n, 0), M(k, p).regs[ECX];
    KillTargets(k, k1, p, n);
    PostAllExact(k1, targets, sig, p);
    forall q | Known(k, q)
      ensures PostAll(k1, targets, sig).u[q] == (if q in targets then PostSignal(k1, q, sig).u[q] else k1.u[q])
      ensures PostAll(k1, targets, sig).s.procs[q] == (if q in targets then PostSignal(k1, q, sig).s.procs[q] else k1.s.procs[q])
    {
      PostAllExact(k1, targets, sig, q);
    }
  }

  lemma KillTargets(k: K, k1: K, p: Pid, n: int)
    requires Serves(k, k1, p) && Inv(k1)
    ensures var targets := Targets(k1, p, n, 0);
      && (forall q :: q in targets <==> Meant(k, p, n, q)) && (forall q :: q in targets ==> Known(k1, q))
      && (targets == [] <==> !exists q :: Meant(k, p, n, q))
  {
    hide Inv, D.Exact, Domains, TrapLength, Traps, Targets, Meant;
    var targets := Targets(k1, p, n, 0);
    DomainsOf(k1);
    BelowNext(k1);
    forall q ensures q in targets <==> Meant(k, p, n, q) {
      TargetsExact(k1, p, n, 0, q);
      MeantSame(k, k1, p, n, q);
    }
    if targets != [] { assert targets[0] in targets; }
  }

  lemma MeantSame(k: K, k1: K, p: Pid, n: int, q: Pid)
    requires k1.s == k.s
    ensures Meant(k1, p, n, q) <==> Meant(k, p, n, q)
  {
  }

  lemma KillPosted(k: K, k1: K, p: Pid, n: int, o: Outcome)
    requires Serves(k, k1, p) && In(k1, p, S.Running) && o.Return?
    requires o.ret == (if exists q :: Meant(k, p, n, q) then 0 else -3)
    requires o.k.d == k.d && o.k.u.Keys == k.u.Keys && o.k.s.procs.Keys == k.s.procs.Keys
    requires forall q :: Known(k, q) ==>
      && o.k.u[q] == (if Meant(k, p, n, q) && M(k, p).regs[ECX] != 0 then PostSignal(k1, q, M(k, p).regs[ECX]).u[q] else k1.u[q])
      && o.k.s.procs[q] == (if Meant(k, p, n, q) && M(k, p).regs[ECX] != 0 then PostSignal(k1, q, M(k, p).regs[ECX]).s.procs[q] else k1.s.procs[q])
    ensures var sig, k' := M(k, p).regs[ECX], SetResult(o.k, p, o.ret);
      && M(k', p) == Answered(M(k, p), o.ret)
      && forall q :: Known(k, q) ==>
           && k'.u[q].pending == k.u[q].pending + (if Meant(k, p, n, q) && 1 <= sig <= 32 then {sig} else {})
           && (q != p && !(Meant(k, p, n, q) && 1 <= sig <= 32) ==> k'.u[q] == k.u[q] && k'.s.procs[q] == k.s.procs[q])
           && (q != p && Meant(k, p, n, q) ==> k'.u[q] == PostSignal(k, q, sig).u[q] && k'.s.procs[q] == PostSignal(k, q, sig).s.procs[q])
  {
    hide D.Exact, Domains, TrapLength, Traps, PostSignal, Meant;
    var sig, k' := M(k, p).regs[ECX], SetResult(o.k, p, o.ret);
    PostPending(k1, p, sig);
    forall q | Known(k, q)
      ensures k'.u[q].pending == k.u[q].pending + (if Meant(k, p, n, q) && 1 <= sig <= 32 then {sig} else {})
      ensures q != p && !(Meant(k, p, n, q) && 1 <= sig <= 32) ==> k'.u[q] == k.u[q] && k'.s.procs[q] == k.s.procs[q]
      ensures q != p && Meant(k, p, n, q) ==> k'.u[q] == PostSignal(k, q, sig).u[q] && k'.s.procs[q] == PostSignal(k, q, sig).s.procs[q]
    {
      PostPending(k1, q, sig);
      if q != p { PostSame(k, k1, q, sig); PostPending(k, q, sig); }
    }
  }

  lemma PostPending(k: K, q: Pid, sig: int)
    requires Known(k, q)
    ensures var k' := PostSignal(k, q, sig);
      && k'.u[q].pending == k.u[q].pending + (if 1 <= sig <= 32 then {sig} else {})
      && (In(k, q, S.Running) ==> k'.u[q].task == k.u[q].task)
      && (!(1 <= sig <= 32) ==> k' == k)
  {
  }
}
