/** What the steps of the kernel leave alone: the user state of processes that are awake changes only by their own
    steps and by signals delivered to them, and processor states stay proper in every run. */
module KernelFates {
  import opened Words
  import opened Memory
  import opened Decoder
  import opened Handlers
  import I = Interpreter
  import opened Kernel
  import opened KernelProofs
  import opened KernelSleep
  import L = DecoderLocality
  import Flags
  import Pipes
  import D = Descriptors
  import S = Scheduler
  import G = Signals

  // ---- Steps of others leave a process alone ---------------------------------------------

  /** A step p takes itself. */
  predicate OwnStep(ev: Step, p: Pid) {
    (ev.UserRan? || ev.Trapped? || ev.Returned? || ev.Ended?) && ev.p == p
  }

  /** p does not sleep; it runs, is stopped or is dead. */
  predicate Awake(k: K, p: Pid) {
    Known(k, p) && !In(k, p, S.Sleeping)
  }

  lemma SameAwake(k: K, k1: K, k2: K, p: Pid)
    requires SameUser(k, k1, p) && SameUser(k1, k2, p)
    ensures SameUser(k, k2, p)
    ensures Awake(k, p) ==> Awake(k2, p)
  {
  }

  lemma PostAwake(k: K, q: Pid, sig: int, p: Pid)
    requires Known(k, q) && Awake(k, p)
    ensures SameUser(k, PostSignal(k, q, sig), p)
  {
    if p != q { PostElsewhere(k, q, sig, p); }
  }

  lemma {:induction false} PostAllAwake(k: K, ps: seq<Pid>, sig: int, p: Pid)
    requires (forall q :: q in ps ==> Known(k, q)) && Awake(k, p)
    ensures SameUser(k, PostAll(k, ps, sig), p)
    decreases |ps|
  {
    hide PostSignal;
    if |ps| > 0 {
      var k1 := PostSignal(k, ps[0], sig);
      PostAwake(k, ps[0], sig, p);
      assert forall q :: q in ps[1..] ==> q in ps && (Known(k1, q) <==> Known(k, q));
      PostAllAwake(k1, ps[1..], sig, p);
    }
  }

  lemma WakeAwake(k: K, q: Pid, interrupted: bool, p: Pid)
    requires Known(k, q) && Awake(k, p)
    ensures SameUser(k, Wake(k, q, interrupted), p)
  {
  }

  lemma ExitAwake(k: K, x: Pid, code: int, p: Pid)
    requires Inv(k) && D.Exact(k.d) && Domains(k) && Known(k, x) && Awake(k, p) && x != p
    ensures SameUser(k, ExitProcess(k, x, code), p)
  {
    hide Inv, D.Exact, Domains, PostSignal, Wake;
    BuriedElsewhere(k, x, code, p);
    BuriedKeeps(k, x, code);
    var k1 := Buried(k, x, code);
    var parent := k1.s.procs[x].ppid;
    if parent in k1.s.procs {
      DomainsOf(k1);
      PostAwake(k1, parent, SIGCHLD, p);
      var k2 := PostSignal(k1, parent, SIGCHLD);
      WakeAwake(k2, parent, false, p);
    }
  }

  lemma DispatchAwake(k: K, x: Pid, env: Env, p: Pid)
    requires Inv(k) && CanCall(k, x) && In(k, x, S.Running) && Awake(k, p) && x != p
    ensures Dispatch(k, x, env).Return? || Dispatch(k, x, env).Replaced? ==> Kept(k, Dispatch(k, x, env).k, p)
  {
    hide Inv, D.Exact, Domains, ReadCall, WriteCall, DescCall, ProcCall, SameUser;
    var nr := M(k, x).regs[EAX];
    if nr == 3 { ReadElsewhere(k, x, env, p); }
    else if nr == 4 { WriteElsewhere(k, x, env, p); }
    else if nr == 5 || nr == 6 || nr == 8 || nr == 19 || nr == 41 || nr == 42 || nr == 55 || nr == 63 {
      DescElsewhere(k, x, env, p);
    } else if nr == 37 {
      KillIsCall(k, x, env);
      KillAwake(k, x, p);
    } else {
      ProcElsewhere(k, x, env, p);
    }
  }

  lemma KillAwake(k: K, x: Pid, p: Pid)
    requires Inv(k) && CanCall(k, x) && Awake(k, p)
    ensures KillCall(k, x).Return? && SameUser(k, KillCall(k, x).k, p)
  {
    hide Inv, D.Exact, Domains, PostAll, Targets;
    var targets := Targets(k, x, Signed32(M(k, x).regs[EBX]), 0);
    DomainsOf(k);
    assert forall q :: q in targets ==> Known(k, q);
    PostAllAwake(k, targets, M(k, x).regs[ECX], p);
  }

  lemma CallAwake(k: K, x: Pid, env: Env, p: Pid)
    requires Inv(k) && CanCall(k, x) && In(k, x, S.Running) && GoodEnv(env) && Traps(M(k, x)) && Awake(k, p) && x != p
    ensures Kept(k, SystemCall(k, x, env), p)
  {
    hide Inv, D.Exact, Domains, Dispatch, ExitProcess, SetResult, Sleep, Traps, PastTrap, SameUser;
    DomainsOf(k);
    PastKeeps(k, x);
    var k1 := PastState(k, x);
    PastElsewhere(k, x, p);
    DispatchAwake(k1, x, env, p);
    match Dispatch(k1, x, env)
    case Return(k2, ret) =>
      ResultElsewhere(k2, x, ret, p);
      ResultNames(k2, x, ret);
      KeptOn(k, k1, k2, SetResult(k2, x, ret), p);
    case Blocked(ch) =>
      BlockElsewhere(k1, x, ch, p);
      SameAwake(k, k1, Sleep(k1, x, ch), p);
    case Exits(code) =>
      DomainsOf(k1);
      ExitAwake(k1, x, code, p);
      SameAwake(k, k1, ExitProcess(k1, x, code), p);
    case Replaced(k2) =>
      KeptOn(k, k1, k2, k2, p);
  }

  lemma ResultNames(k: K, x: Pid, ret: int)
    ensures SetResult(k, x, ret).u.Keys == k.u.Keys && (forall p :: Known(k, p) ==> Known(SetResult(k, x, ret), p))
  {
  }

  lemma KeptOn(k: K, k1: K, k2: K, k3: K, p: Pid)
    requires Known(k, p) && SameUser(k, k1, p) && Kept(k1, k2, p) && k3.u.Keys == k2.u.Keys
    requires Known(k2, p) ==> SameUser(k2, k3, p)
    ensures Kept(k, k3, p)
  {
  }

  lemma PastElsewhere(k: K, x: Pid, p: Pid)
    requires Known(k, x) && M(k, x).mem.Valid() && Traps(M(k, x)) && Awake(k, p) && x != p
    ensures SameUser(k, PastState(k, x), p) && Awake(PastState(k, x), p)
  {
    hide Traps, PastTrap;
  }

  lemma BlockElsewhere(k: K, x: Pid, ch: Channel, p: Pid)
    requires Known(k, x) && Known(k, p) && x != p
    ensures SameUser(k, Sleep(k, x, ch), p)
  {
  }

  lemma TakeAwake(k: K, x: Pid, sig: nat, p: Pid)
    requires Inv(k) && D.Exact(k.d) && Domains(k) && Known(k, x) && M(k, x).mem.Valid() && 1 <= sig <= 32
    requires Awake(k, p) && x != p
    ensures SameUser(k, TakeSignal(k, x, sig), p)
  {
    hide Inv, D.Exact, Domains, ExitProcess, G.Deliver;
    var h := k.u[x].task.actions[sig].handler;
    if h == 0 && !(sig == SIGCHLD || sig == SIGCONT) && !StopsByDefault(sig) { ExitAwake(k, x, sig, p); }
  }

  lemma DeliverAwake(k: K, x: Pid, p: Pid)
    requires Inv(k) && D.Exact(k.d) && Domains(k) && Known(k, x) && M(k, x).mem.Valid() && Awake(k, p) && x != p
    ensures SameUser(k, DeliverOne(k, x), p)
  {
    hide Inv, D.Exact, Domains, TakeSignal;
    if !In(k, x, S.Zombie) && Deliverable(k.u[x]) != {} {
      SomeSignal(Deliverable(k.u[x]));
      var sig := Lowest(Deliverable(k.u[x]), 1);
      PendingKeeps(k, x, k.u[x].pending - {sig});
      var k1 := k.(u := k.u[x := k.u[x].(pending := k.u[x].pending - {sig})]);
      DomainsOf(k1);
      assert SameUser(k, k1, p);
      TakeAwake(k1, x, sig, p);
    }
  }

  lemma PickAwake(k: K, p: Pid)
    requires Inv(k) && Awake(k, p)
    ensures SameUser(k, k.(s := S.Pick(k.s).1), p)
  {
    hide Inv, S.Sound, S.Pick;
    InvParts(k);
    S.PickExact(k.s);
  }

  lemma SpawnAwake(k: K, m: Machine, tty: bool, script: Option<nat>, p: Pid)
    requires Inv(k) && D.Exact(k.d) && Domains(k) && Awake(k, p)
    ensures SameUser(k, Spawn(k, m, tty, script), p)
  {
    hide Inv, D.Exact, D.KeepsObjects, ShellTable;
    ShellTableResult(k.d, k.nextPid, tty, script);
  }

  lemma PollAwake(k: K, x: Pid, ttyReady: bool, p: Pid)
    requires Known(k, x) && Awake(k, p)
    ensures SameUser(k, Poll(k, x, ttyReady), p)
  {
    hide PollReady, Wake;
    WakeAwake(k, x, false, p);
  }

  lemma ReapAwake(k: K, x: Pid, p: Pid)
    requires Known(k, x) && In(k, x, S.Zombie) && Awake(k, p)
    ensures Kept(k, Reap(k, x), p)
  {
  }

  lemma RunnerKeeps(k: K, ev: Step, p: Pid)
    requires Inv(k) && Enabled(k, ev) && Awake(k, p) && !OwnStep(ev, p)
    requires ev.UserRan? || ev.Trapped? || ev.Returned? || ev.Ended?
    ensures Kept(k, Next(k, ev), p)
  {
    hide Inv, D.Exact, Domains, SystemCall, ExitProcess, GoodMachine, GoodEnv, Traps, RunsOn, S.Runnable, G.SigReturn;
    DomainsOf(k);
    EnabledFacts(k, ev);
    if ev.Trapped? { CallAwake(k, ev.p, ev.env, p); }
    if ev.Ended? { ExitAwake(k, ev.p, ev.code, p); }
  }

  /** No step but its own, and no signal delivered to it, changes the user state of a process that is
      awake; only the dead can be taken away. */
  lemma AwakeKept(k: K, ev: Step, p: Pid)
    requires Inv(k) && Enabled(k, ev) && Awake(k, p) && !OwnStep(ev, p) && ev != Delivered(p)
    ensures Kept(k, Next(k, ev), p)
  {
    hide Inv, D.Exact, Domains, SystemCall, ExitProcess, PostSignal, DeliverOne, Poll, Reap, Spawn, WithTask,
         GoodMemory, GoodMachine, GoodEnv, Traps, RunsOn, S.Pick, S.Runnable, G.SigReturn;
    if ev.UserRan? || ev.Trapped? || ev.Returned? || ev.Ended? { RunnerKeeps(k, ev, p); }
    else {
      KnownMemory(k);
      match ev
      case Polled(x, ttyReady) => PollAwake(k, x, ttyReady, p);
      case Posted(x, sig) => PostAwake(k, x, sig, p);
      case Delivered(x) => DeliverAwake(k, x, p);
      case PickedNext => PickAwake(k, p);
      case Spawned(m, tty, script) => SpawnAwake(k, m, tty, script, p);
      case InitReaped(x) => ReapAwake(k, x, p);
    }
  }

  // ---- A signal delivered to a process that is awake ----------------------------------------

  /** Some signal's handler has been entered. */
  ghost predicate Delivers(t: G.Task, t': G.Task) {
    exists sig :: 1 <= sig <= 32 && t.m.mem.Valid() && G.Deliver(t, sig) == Some(t')
  }

  lemma OwnDelivery(k: K, p: Pid)
    requires Inv(k) && D.Exact(k.d) && Domains(k) && Awake(k, p) && M(k, p).mem.Valid()
    ensures var k' := DeliverOne(k, p);
      Known(k', p) && !In(k', p, S.Sleeping) && (k'.u[p].task == k.u[p].task || Delivers(k.u[p].task, k'.u[p].task))
  {
    hide Inv, D.Exact, Domains, TakeSignal, Delivers;
    if !In(k, p, S.Zombie) && Deliverable(k.u[p]) != {} {
      SomeSignal(Deliverable(k.u[p]));
      var sig := Lowest(Deliverable(k.u[p]), 1);
      PendingKeeps(k, p, k.u[p].pending - {sig});
      var k1 := k.(u := k.u[p := k.u[p].(pending := k.u[p].pending - {sig})]);
      DomainsOf(k1);
      OwnTake(k1, p, sig);
    }
  }

  lemma OwnTake(k: K, p: Pid, sig: nat)
    requires Inv(k) && D.Exact(k.d) && Domains(k) && Awake(k, p) && M(k, p).mem.Valid() && 1 <= sig <= 32
    ensures var k' := TakeSignal(k, p, sig);
      Known(k', p) && !In(k', p, S.Sleeping) && (k'.u[p].task == k.u[p].task || Delivers(k.u[p].task, k'.u[p].task))
  {
    hide Inv, D.Exact, Domains, ExitProcess, G.Deliver;
    var h := k.u[p].task.actions[sig].handler;
    if h == 0 && !(sig == SIGCHLD || sig == SIGCONT) && !StopsByDefault(sig) { OwnExit(k, p, sig); }
  }

  // ---- Processor states stay proper -------------------------------------------------------------

  /** Every process has a proper processor state. */
  ghost predicate AllProper(k: K) {
    forall p :: p in k.u ==> G.Proper(k.u[p].task)
  }

  /** The caller keeps a proper state, and no process but a new one appears. */
  ghost predicate Tidy(k: K, k': K, p: Pid) {
    && (p in k'.u ==> G.Proper(k'.u[p].task))
    && (forall x :: x in k'.u ==> x in k.u || (x == k.nextPid && G.Proper(k'.u[x].task)))
  }

  lemma StoredProper(t: G.Task, m': Machine)
    requires G.Proper(t) && m'.mem.Valid() && m'.mem.Disjoint() && m' == t.m.(mem := m'.mem, log := [])
    ensures G.Proper(t.(m := m'))
  {
  }

  lemma CopyProper(k: K, p: Pid, addr: int, data: seq<Byte>, ret: int)
    requires p in k.u && G.Proper(k.u[p].task)
    ensures var o := CopyOut(k, p, addr, data, ret); o.Return? && Tidy(k, o.k, p)
  {
    hide G.Proper;
    ProperMemory(k.u[p].task);
    StoredMemory(M(k, p), addr, data);
    StoredProper(k.u[p].task, WriteBytes(M(k, p), addr, data).m.(log := []));
  }

  lemma ProperMemory(t: G.Task)
    requires G.Proper(t)
    ensures GoodMemory(t.m)
  {
  }

  lemma ReadProper(k: K, p: Pid, env: Env)
    requires Inv(k) && CanCall(k, p) && G.Proper(k.u[p].task)
    ensures var o := ReadCall(k, p, env); o.Return? ==> Tidy(k, o.k, p)
  {
    hide Inv, D.Exact, Domains, G.Proper, CopyOut;
    var m := M(k, p);
    var fd, buf := m.regs[EBX], m.regs[ECX];
    var o := ReadCall(k, p, env);
    if ObjectAt(k.d, p, fd).Some? && m.regs[EDX] != 0 {
      match ObjectAt(k.d, p, fd).value
      case Node(_) => CopyProper(Advance(k, p, fd, |env.data|), p, buf, env.data, |env.data|);
      case PipeEnd(q) =>
        PipeKnown(k, p, fd, q);
        if o.Return? {
          var t, log := Pipes.ReadPipe(k.d.pipes[q], m.regs[EDX]), LogOf(k, q);
          CopyProper(WithPipe(k, q, t.pipe, log.(delivered := log.delivered + t.data)), p, buf, t.data, |t.data|);
        }
      case Null =>
      case Terminal => if env.tty.Some? { CopyProper(k, p, buf, env.tty.value, |env.tty.value|); }
    }
  }

  lemma WriteProper(k: K, p: Pid, env: Env)
    requires CanCall(k, p) && G.Proper(k.u[p].task)
    ensures var o := WriteCall(k, p, env); o.Return? ==> Tidy(k, o.k, p)
  {
    hide D.Exact, Domains, G.Proper;
  }

  lemma PairProper(k: K, p: Pid, addr: int, v: int, w: int)
    requires p in k.u && G.Proper(k.u[p].task)
    ensures var o := CopyPair(k, p, addr, v, w); o.Return? && Tidy(k, o.k, p)
  {
    hide G.Proper, Bytes;
    var m := M(k, p);
    ProperMemory(k.u[p].task);
    StoredMemory(m, addr, Bytes(v, 4));
    var r := WriteMem(m, addr, 4, v).m;
    StoredMemory(r, addr + 4, Bytes(w, 4));
    StoredProper(k.u[p].task, r.(log := []));
    StoredProper(k.u[p].task, WriteMem(r, addr + 4, 4, w).m.(log := []));
  }

  lemma DescProper(k: K, p: Pid, env: Env)
    requires CanCall(k, p) && G.Proper(k.u[p].task)
    ensures var o := DescCall(k, p, env); o.Return? && Tidy(k, o.k, p)
  {
    hide D.Exact, Domains, G.Proper, CopyPair, D.Close, D.DupFrom, D.Dup2, D.MakePipe, D.OpenObject, D.SetStatus, StatusFlags;
    if M(k, p).regs[EAX] == 42 {
      var r := D.MakePipe(k.d, p);
      if r.r == 0 {
        var fds := D.FreePair(k.d.tables[p]).value;
        PairProper(k.(d := r.d), p, M(k, p).regs[EBX], fds.0, fds.1);
      }
    }
  }

  lemma ForkProper(k: K, p: Pid)
    requires CanCall(k, p) && G.Proper(k.u[p].task)
    ensures ForkCall(k, p).Return? && Tidy(k, ForkCall(k, p).k, p)
  {
    hide D.Exact, D.ForkTable;
  }

  lemma WaitProper(k: K, p: Pid)
    requires CanCall(k, p) && G.Proper(k.u[p].task)
    ensures var o := WaitCall(k, p); !o.Replaced? && (o.Return? ==> Tidy(k, o.k, p))
  {
    hide D.Exact, Domains, G.Proper, Bytes, Wanted;
    var m, z := M(k, p), FirstZombie(k, p, Signed32(M(k, p).regs[EBX]), 0);
    ProperMemory(k.u[p].task);
    if z.Some? {
      StoredMemory(m, m.regs[ECX], Bytes(k.s.procs[z.value].exitCode, 4));
      StoredProper(k.u[p].task, WriteMem(m, m.regs[ECX], 4, k.s.procs[z.value].exitCode).m.(log := []));
    }
  }

  lemma SignalProper(k: K, p: Pid)
    requires CanCall(k, p) && G.Proper(k.u[p].task)
    ensures SignalCall(k, p).Return? && Tidy(k, SignalCall(k, p).k, p)
  {
    hide D.Exact, Domains;
  }

  lemma SigactionProper(k: K, p: Pid)
    requires CanCall(k, p) && G.Proper(k.u[p].task)
    ensures SigactionCall(k, p).Return? && Tidy(k, SigactionCall(k, p).k, p)
  {
    hide D.Exact, Domains, StoreAction, LoadAction, G.Proper;
    var t := k.u[p].task;
    var m := t.m;
    if Changeable(m.regs[EBX]) {
      ProperMemory(t);
      var a := t.actions[m.regs[EBX]];
      StoredAction(m, m.regs[EDX], a);
      var r := if m.regs[EDX] == 0 then Done(m) else StoreAction(m, m.regs[EDX], a);
      StoredProper(t, r.m.(log := []));
      if LoadAction(r.m.mem, m.regs[ECX]).Some? {
        OtherActions(t.(m := r.m.(log := [])), m.regs[EBX], LoadAction(r.m.mem, m.regs[ECX]).value);
      }
    }
  }

  lemma OtherActions(t: G.Task, sig: nat, a: G.Action)
    requires G.Proper(t) && sig < 33
    ensures G.Proper(t.(actions := t.actions[sig := a]))
  {
  }

  lemma KillProper(k: K, p: Pid)
    requires Inv(k) && CanCall(k, p) && In(k, p, S.Running) && G.Proper(k.u[p].task)
    ensures KillCall(k, p).Return? && Tidy(k, KillCall(k, p).k, p)
  {
    hide Inv, D.Exact, Domains, PostAll, Targets, G.Proper;
    var targets := Targets(k, p, Signed32(M(k, p).regs[EBX]), 0);
    DomainsOf(k);
    assert forall q :: q in targets ==> Known(k, q);
    PostAllAwake(k, targets, M(k, p).regs[ECX], p);
    PostAllKeeps(k, targets, M(k, p).regs[ECX]);
  }

  lemma ProcProper(k: K, p: Pid, env: Env)
    requires Inv(k) && CanCall(k, p) && In(k, p, S.Running) && GoodEnv(env) && G.Proper(k.u[p].task)
    ensures var o := ProcCall(k, p, env); o.Return? || o.Replaced? ==> Tidy(k, o.k, p)
  {
    hide Inv, D.Exact, Domains, ForkCall, WaitCall, ExecCall, KillCall, SignalCall, SigactionCall, S.Apply, NewMask, G.Proper;
    ForkProper(k, p);
    WaitProper(k, p);
    KillProper(k, p);
    SignalProper(k, p);
    SigactionProper(k, p);
    ExecProper(k, p, env);
    MemoryProper(k, p, env.mem, NewMask(M(k, p).regs[EBX]));
    var o := ProcCall(k, p, env);
    if M(k, p).regs[EAX] == 57 || M(k, p).regs[EAX] == 66 || M(k, p).regs[EAX] == 68 {
      assert o.Return? && o.k.u == k.u;
    }
  }

  lemma ExecProper(k: K, p: Pid, env: Env)
    requires CanCall(k, p) && GoodEnv(env) && G.Proper(k.u[p].task)
    ensures var o := ExecCall(k, p, env); (o.Return? || o.Replaced?) && Tidy(k, o.k, p)
  {
    hide D.Exact, Domains, D.ExecTable;
  }

  lemma MemoryProper(k: K, p: Pid, mem: Image, blocked: Word)
    requires p in k.u && G.Proper(k.u[p].task) && mem.Valid() && mem.Disjoint()
    ensures Tidy(k, WithMachine(k, p, M(k, p).(mem := mem)), p)
    ensures Tidy(k, WithTask(k, p, k.u[p].task.(blocked := blocked)), p)
  {
  }

  lemma DispatchProper(k: K, p: Pid, env: Env)
    requires Inv(k) && CanCall(k, p) && In(k, p, S.Running) && GoodEnv(env) && G.Proper(k.u[p].task)
    ensures var o := Dispatch(k, p, env); o.Return? || o.Replaced? ==> Tidy(k, o.k, p)
  {
    hide Inv, D.Exact, Domains, ReadCall, WriteCall, DescCall, ProcCall, G.Proper, Tidy, GoodEnv;
    ReadProper(k, p, env);
    WriteProper(k, p, env);
    DescProper(k, p, env);
    ProcProper(k, p, env);
    NotReplaced(k, p, env);
  }

  lemma NotReplaced(k: K, p: Pid, env: Env)
    requires CanCall(k, p)
    ensures !ReadCall(k, p, env).Replaced? && !WriteCall(k, p, env).Replaced?
  {
    hide D.Exact, Domains;
  }

  /** A system call leaves the caller proper, and so is the child it may create. */
  lemma CallProper(k: K, p: Pid, env: Env)
    requires Inv(k) && CanCall(k, p) && In(k, p, S.Running) && GoodEnv(env) && Traps(M(k, p)) && G.Proper(k.u[p].task)
    ensures var k' := SystemCall(k, p, env);
      && (forall x :: x in k'.u ==> x in k.u || (x == k.nextPid && G.Proper(k'.u[x].task)))
      && (p in k'.u ==> G.Proper(k'.u[p].task))
  {
    hide Inv, D.Exact, Domains, Dispatch, ExitProcess, SetResult, Sleep, Traps, PastTrap, GoodEnv, G.Proper, Tidy;
    DomainsOf(k);
    PastKeeps(k, p);
    PastProper(k, p);
    var k1 := PastState(k, p);
    DispatchProper(k1, p, env);
    match Dispatch(k1, p, env)
    case Return(k2, ret) => ResultProper(k1, k2, p, ret);
    case Blocked(ch) => SleepProper(k1, p, ch);
    case Exits(code) =>
      DomainsOf(k1);
      OwnExit(k1, p, code);
      ExitKeys(k1, p, code);
    case Replaced(k2) => TidyFacts(k1, k2, p);
  }

  lemma TidyFacts(k: K, k': K, p: Pid)
    requires Tidy(k, k', p)
    ensures p in k'.u ==> G.Proper(k'.u[p].task)
    ensures forall x :: x in k'.u ==> x in k.u || (x == k.nextPid && G.Proper(k'.u[x].task))
  {
    hide G.Proper;
  }

  lemma PastProper(k: K, p: Pid)
    requires Known(k, p) && G.Proper(k.u[p].task) && Traps(M(k, p))
    ensures G.Proper(PastState(k, p).u[p].task) && PastState(k, p).u.Keys == k.u.Keys && PastState(k, p).nextPid == k.nextPid
    ensures 2 <= M(PastState(k, p), p).eip
  {
    hide Decode, Traps;
    TrapsDecode(M(k, p));
    L.Trap80Bytes(M(k, p).mem, M(k, p).eip);
  }

  lemma TrapsDecode(m: Machine)
    requires m.mem.Valid() && Traps(m)
    ensures Decode(m.mem, m.eip).Insn? && Decode(m.mem, m.eip).e.fn == Interrupt && Decode(m.mem, m.eip).e.imm == 0x80
  {
    hide Decode;
  }

  lemma ResultProper(k: K, k2: K, p: Pid, ret: int)
    requires Tidy(k, k2, p)
    ensures Tidy(k, SetResult(k2, p, ret), p)
    ensures var k' := SetResult(k2, p, ret);
      && (p in k'.u ==> G.Proper(k'.u[p].task))
      && (forall x :: x in k'.u ==> x in k.u || (x == k.nextPid && G.Proper(k'.u[x].task)))
  {
  }

  lemma SleepProper(k: K, p: Pid, ch: Channel)
    requires p in k.u && G.Proper(k.u[p].task) && M(k, p).eip >= 2
    ensures Sleep(k, p, ch).u.Keys == k.u.Keys && p in Sleep(k, p, ch).u && G.Proper(Sleep(k, p, ch).u[p].task)
  {
  }

  lemma ExitKeys(k: K, p: Pid, code: int)
    requires D.Exact(k.d) && Known(k, p) && Domains(k)
    ensures ExitProcess(k, p, code).u.Keys == k.u.Keys
  {
    hide D.Exact, Domains, PostSignal, Wake;
  }

  lemma ReturnedProper(t: G.Task)
    requires G.Proper(t) && G.SigReturn(t).Some?
    ensures G.Proper(G.SigReturn(t).value)
  {
    hide Pop, Flags.FromWord;
    var s := Pop(t.m, 4);
    var b := G.PopMask(t.(m := s.m));
    PopKeeps(t.m);
    PopKeeps(s.m);
    ContextProper(b.m);
  }

  lemma PopKeeps(m: Machine)
    requires m.mem.Valid()
    ensures Pop(m, 4).m == m.(regs := Pop(m, 4).m.regs)
  {
  }

  lemma ContextProper(m: Machine)
    requires m.mem.Valid() && m.log == [] && G.PopContext(m).Ok?
    ensures var r := G.PopContext(m).m; r.mem == m.mem && r.log == [] && Flags.WellFormed(r.flags) && 0 <= r.eip < TWO32
  {
    hide Pop, Flags.WellFormed, Flags.FromWord;
    forall v: Word ensures Flags.WellFormed(Flags.FromWord(v)) { G.PoppedFlags(v); }
  }

  /** What a step that is not its own may do to the user state of a process. */
  lemma OtherStep(k: K, ev: Step, p: Pid)
    requires Inv(k) && Enabled(k, ev) && Known(k, p) && !OwnStep(ev, p) && p in Next(k, ev).u
    ensures Known(Next(k, ev), p)
    ensures var t, t' := k.u[p].task, Next(k, ev).u[p].task;
      t' == t || (In(k, p, S.Sleeping) && t' == Interrupted(t)) || Delivers(t, t')
  {
    hide Inv, Enabled, Next, Domains, D.Exact, G.Deliver, DeliverOne, Interrupted;
    if In(k, p, S.Sleeping) {
      SleeperFate(k, ev, p);
    } else if ev == Delivered(p) {
      KnownMemory(k);
      OwnDelivery(k, p);
      DeliveredIs(k, p);
    } else {
      AwakeKept(k, ev, p);
    }
  }

  lemma DeliveredIs(k: K, p: Pid)
    requires Inv(k) && Enabled(k, Delivered(p))
    ensures D.Exact(k.d) && Known(k, p) && Domains(k) && M(k, p).mem.Valid()
    ensures Next(k, Delivered(p)) == DeliverOne(k, p)
  {
    hide Inv, D.Exact, Domains, DeliverOne;
    DomainsOf(k);
    KnownMemory(k);
  }

  lemma ChangedProper(t: G.Task, t': G.Task)
    requires G.Proper(t) && (t' == t || t' == Interrupted(t) || Delivers(t, t'))
    ensures G.Proper(t')
  {
    hide G.Deliver;
    if sig :| 1 <= sig <= 32 && t.m.mem.Valid() && G.Deliver(t, sig) == Some(t') { G.DeliverExact(t, sig); }
  }

  /** Only fork and the start of a shell make processes. */
  lemma NewProcess(k: K, ev: Step, x: Pid)
    requires Inv(k) && Enabled(k, ev) && x in Next(k, ev).u && x !in k.u
    ensures ev.Trapped? || (ev.Spawned? && x == k.nextPid)
  {
    hide Inv, D.Exact, Domains, SystemCall, ExitProcess, PostSignal, Poll, DeliverOne, GoodMachine, GoodEnv, Traps, RunsOn,
         S.Pick, S.Runnable, G.SigReturn, ShellTable;
    DomainsOf(k);
    KnownMemory(k);
    if ev.Ended? { ExitKeys(k, ev.p, ev.code); }
    if ev.Delivered? { DeliverKeys(k, ev.p); }
    if ev.Polled? { PollKeys(k, ev.p, ev.ttyReady); }
  }

  lemma PollKeys(k: K, p: Pid, ttyReady: bool)
    requires Known(k, p)
    ensures Poll(k, p, ttyReady).u.Keys == k.u.Keys
  {
    hide PollReady, Wake;
  }

  lemma DeliverKeys(k: K, p: Pid)
    requires Inv(k) && D.Exact(k.d) && Domains(k) && Known(k, p) && M(k, p).mem.Valid()
    ensures DeliverOne(k, p).u.Keys == k.u.Keys
  {
    hide Inv, D.Exact, Domains, TakeSignal;
    if !In(k, p, S.Zombie) && Deliverable(k.u[p]) != {} {
      SomeSignal(Deliverable(k.u[p]));
      var sig := Lowest(Deliverable(k.u[p]), 1);
      PendingKeeps(k, p, k.u[p].pending - {sig});
      var k1 := k.(u := k.u[p := k.u[p].(pending := k.u[p].pending - {sig})]);
      DomainsOf(k1);
      TakeKeys(k1, p, sig);
    }
  }

  lemma TakeKeys(k: K, p: Pid, sig: nat)
    requires D.Exact(k.d) && Known(k, p) && Domains(k) && 1 <= sig <= 32 && M(k, p).mem.Valid()
    ensures TakeSignal(k, p, sig).u.Keys == k.u.Keys
  {
    hide D.Exact, Domains, ExitProcess, G.Deliver;
    ExitKeys(k, p, sig);
  }

  lemma OwnStepProper(k: K, ev: Step, p: Pid)
    requires Inv(k) && Enabled(k, ev) && Known(k, p) && OwnStep(ev, p) && G.Proper(k.u[p].task)
    ensures p in Next(k, ev).u ==> G.Proper(Next(k, ev).u[p].task)
  {
    hide Inv, D.Exact, SystemCall, ExitProcess, GoodEnv, GoodMachine, Traps, RunsOn, S.Runnable, G.SigReturn, G.Proper, Domains;
    DomainsOf(k);
    EnabledFacts(k, ev);
    match ev
    case UserRan(x, m) => MachineProper(k.u[x].task.(m := m));
    case Trapped(x, env) => CallProper(k, x, env);
    case Returned(x) => ReturnedProper(k.u[x].task);
    case Ended(x, code) => OwnExit(k, x, code);
    case _ =>
  }

  lemma MachineProper(t: G.Task)
    ensures GoodMachine(t.m) ==> G.Proper(t)
  {
  }

  lemma NewProper(k: K, ev: Step, x: Pid)
    requires Inv(k) && Enabled(k, ev) && x in Next(k, ev).u && x !in k.u && AllProper(k)
    ensures G.Proper(Next(k, ev).u[x].task)
  {
    hide Inv, D.Exact, SystemCall, GoodEnv, Traps, RunsOn, S.Runnable, Domains, ShellTable;
    NewProcess(k, ev, x);
    DomainsOf(k);
    EnabledFacts(k, ev);
    if ev.Trapped? { CallProper(k, ev.p, ev.env); }
  }

  lemma StepKeepsProper(k: K, ev: Step)
    requires Inv(k) && Enabled(k, ev) && AllProper(k)
    ensures AllProper(Next(k, ev))
  {
    hide Inv, Enabled, Next, G.Proper, Domains, D.Exact;
    DomainsOf(k);
    var k' := Next(k, ev);
    forall x | x in k'.u ensures G.Proper(k'.u[x].task) {
      if x !in k.u { NewProper(k, ev, x); }
      else if OwnStep(ev, x) { OwnStepProper(k, ev, x); }
      else {
        OtherStep(k, ev, x);
        ChangedProper(k.u[x].task, k'.u[x].task);
      }
    }
  }

  /** In every state of every run all processor states are proper. */
  lemma {:induction false} RunsKeepProper(states: seq<K>, steps: seq<Step>, i: nat)
    requires IsRun(states, steps) && i < |states|
    ensures AllProper(states[i])
  {
    hide Inv, Enabled, Next, AllProper;
    if i == 0 {
      var m, kernelTask, tty :| GoodMachine(m) && states[0] == Boot(m, kernelTask, tty);
      BootProper(m, kernelTask, tty);
    } else {
      RunsKeepProper(states, steps, i - 1);
      RunsKeepInv(states, steps, i - 1);
      assert Taken(states[i - 1], steps[i - 1], states[i]);
      StepKeepsProper(states[i - 1], steps[i - 1]);
    }
  }

  lemma BootProper(m: Machine, kernelTask: bool, tty: bool)
    requires GoodMachine(m)
    ensures AllProper(Boot(m, kernelTask, tty))
  {
    hide ShellTable;
  }
}
