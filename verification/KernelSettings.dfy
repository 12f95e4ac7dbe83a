/** What the system calls answer and leave, continued: dispositions, masks, groups, positions and descriptors
    (kernel.py). */
module KernelSettings {
  import opened Words
  import opened Memory
  import opened Decoder
  import opened Handlers
  import opened Kernel
  import opened KernelProofs
  import opened KernelSleep
  import opened KernelCalls
  import opened KernelResults
  import D = Descriptors
  import S = Scheduler
  import G = Signals
  import KernelEnds
  import Shifting

  /** The dispatcher's choice for the numbers below. */
  lemma Chosen(k: K, p: Pid, env: Env)
    requires CanCall(k, p)
    ensures var m, o := M(k, p), Dispatch(k, p, env);
      var nr, a, b := m.regs[EAX], m.regs[EBX], m.regs[ECX];
      && (nr == 6 ==> o == WithDesc(k, D.Close(k.d, p, a)))
      && (nr == 41 ==> o == WithDesc(k, D.DupFrom(k.d, p, a, 0)))
      && (nr == 63 ==> o == WithDesc(k, D.Dup2(k.d, p, a, b)))
      && (nr == 55 ==> o == FcntlCall(k, p))
      && (nr == 57 ==>
           o == if (if a == 0 then p else a) in k.s.procs
                then Return(k.(s := S.Apply(k.s, S.SetGroup(if a == 0 then p else a, if b != 0 then b else if a == 0 then p else a))), 0)
                else Return(k, -3))
      && (nr == 66 ==> o == if env.ret < 0 then Return(k, -1) else Return(k.(s := S.Apply(k.s, S.SetGroup(p, p))), p))
      && (nr == 68 ==> o == Return(k, k.u[p].task.blocked))
      && (nr == 69 ==> o == Return(WithTask(k, p, k.u[p].task.(blocked := NewMask(a))), k.u[p].task.blocked))
  {
    hide D.Exact, Domains, FcntlCall, NewMask, D.Close, D.DupFrom, D.Dup2, WithDesc, S.Apply;
  }

  // ---- Dispositions and masks ---------------------------------------------------------------------------

  /** p has its answer, and its task is otherwise t. */
  function TaskSet(k: K, p: Pid, ret: int, t: G.Task): K
    requires p in k.u && M(k, p).mem.Valid() && Traps(M(k, p))
  {
    k.(u := k.u[p := k.u[p].(task := t.(m := Answered(M(k, p), ret)))])
  }

  lemma TaskServed(k: K, k1: K, p: Pid, ret: int, t: G.Task)
    requires Behind(k, k1, p)
    ensures SetResult(WithTask(k1, p, t.(m := M(k1, p))), p, ret) == TaskSet(k, p, ret, t)
  {
    hide TrapLength, Traps;
  }

  /** signal: a one-shot disposition without a mask of its own and with the restorer given; the old handler is the
      answer. EINVAL (22) for SIGKILL and for numbers that are no signals. */
  function SignalAfter(k: K, p: Pid): K
    requires p in k.u && M(k, p).mem.Valid() && Traps(M(k, p))
  {
    var m, t := M(k, p), k.u[p].task;
    var sig := m.regs[EBX];
    if 1 <= sig <= 32 && sig != 9
    then TaskSet(k, p, t.actions[sig].handler, t.(actions := t.actions[sig := G.Action(m.regs[ECX], 0, 0xC000_0000, m.regs[EDX])]))
    else JustAnswered(k, p, -22)
  }

  lemma SignalExact(k: K, p: Pid, env: Env)
    requires Makes(k, p, env, 48)
    ensures p in k.u && M(k, p).mem.Valid() && Traps(M(k, p)) && After(k, p, env, 48) == SignalAfter(k, p)
  {
    hide Inv, D.Exact, Domains, TrapLength, Traps, Dispatch, After, Makes, SetResult, PastState, SignalAfter, SignalCall, Serves;
    var k1, o := Setting(k, p, env, 48);
    Dispatched(k1, p, env);
    SignalServed(k, k1, p);
  }

  lemma SignalServed(k: K, k1: K, p: Pid)
    requires Serves(k, k1, p)
    ensures var o := SignalCall(k1, p); p in k.u && o.Return? && SetResult(o.k, p, o.ret) == SignalAfter(k, p)
  {
    hide D.Exact, Domains, Traps, TrapLength, SetResult, JustAnswered, TaskSet;
    var m, t := M(k, p), k.u[p].task;
    var sig := m.regs[EBX];
    PlainServed(k, k1, p, -22, TtyRead);
    if 1 <= sig <= 32 && sig != 9 {
      TaskServed(k, k1, p, t.actions[sig].handler, t.(actions := t.actions[sig := G.Action(m.regs[ECX], 0, 0xC000_0000, m.regs[EDX])]));
    }
  }

  /** Four words in a row: handler, mask, flags and restorer. */
  predicate Stands(m: Image, addr: int, a: G.Action)
    requires m.Valid()
  {
    && m.Load(addr, 4) == Some(a.handler) && m.Load(addr + 4, 4) == Some(a.mask)
    && m.Load(addr + 8, 4) == Some(a.flags) && m.Load(addr + 12, 4) == Some(a.restorer)
  }

  /** What sigaction makes of memory and of the dispositions: it succeeds exactly if the old disposition could be
      stored and the new one be read, each if its address is not zero; then the old one stands in memory and the new
      one, as it stands in memory, is in force. Otherwise the dispositions are as they were. */
  ghost predicate Exchanged(m: Image, mem: Image, ok: bool, oldp: Word, newp: Word, sig: nat, was: G.Actions, now: G.Actions)
    requires m.Valid() && mem.Valid() && sig < 33
  {
    && (oldp == 0 ==> mem == m && (ok <==> newp == 0 || exists a :: Stands(m, newp, a)))
    && (ok && oldp != 0 ==> Stands(mem, oldp, was[sig]))
    && (ok && newp != 0 ==> Stands(mem, newp, now[sig]) && now == was[sig := now[sig]])
    && (!ok || newp == 0 ==> now == was)
  }

  /** p has its answer; otherwise only its memory and its dispositions may have changed. */
  function ActionsSet(k: K, p: Pid, ret: int, mem: Image, actions: G.Actions): K
    requires p in k.u && M(k, p).mem.Valid() && Traps(M(k, p))
  {
    var t := k.u[p].task;
    k.(u := k.u[p := k.u[p].(task := t.(m := Answered(t.m, ret).(mem := mem, log := []), actions := actions))])
  }

  /** sigaction answers 0, or EFAULT (14), or EINVAL (22) as signal does. */
  ghost predicate SigactionLeaves(k: K, k': K, p: Pid)
    requires p in k.u && M(k, p).mem.Valid() && Traps(M(k, p))
  {
    var m, sig := M(k, p), M(k, p).regs[EBX];
    if 1 <= sig <= 32 && sig != 9 then
      exists mem: Image, ok, now ::
        && mem.Valid() && Exchanged(m.mem, mem, ok, m.regs[EDX], m.regs[ECX], sig, k.u[p].task.actions, now)
        && k' == ActionsSet(k, p, if ok then 0 else -14, mem, now)
    else k' == JustAnswered(k, p, -22)
  }

  lemma StandsLoaded(m: Image, addr: int, a: G.Action)
    requires m.Valid()
    ensures Stands(m, addr, a) <==> LoadAction(m, addr) == Some(a)
  {
    hide Image.Load;
  }

  lemma SigactionServed(k: K, k1: K, p: Pid)
    requires Serves(k, k1, p) && GoodMemory(M(k, p))
    ensures var o := SigactionCall(k1, p);
      o.Return? && p in k.u && SigactionLeaves(k, SetResult(o.k, p, o.ret), p)
  {
    hide D.Exact, Domains, Traps, TrapLength, LoadAction, StoreAction, SetResult, Exchanged, ActionsSet, JustAnswered;
    var m, was := M(k1, p), k.u[p].task.actions;
    var sig, newp, oldp := m.regs[EBX], m.regs[ECX], m.regs[EDX];
    PlainServed(k, k1, p, -22, TtyRead);
    if 1 <= sig <= 32 && sig != 9 {
      var r := if oldp == 0 then Done(m) else StoreAction(m, oldp, was[sig]);
      var a := if newp == 0 then None else LoadAction(r.m.mem, newp);
      var ok := r.Ok? && (newp == 0 || a.Some?);
      var now := if ok && a.Some? then was[sig := a.value] else was;
      StoreKeepsRest(m, oldp, was[sig]);
      ExchangeMade(m, oldp, newp, sig, was, r, a);
      SetServed(k, k1, p, r.m, if ok then 0 else -14, now);
      assert SetResult(SigactionCall(k1, p).k, p, SigactionCall(k1, p).ret) == ActionsSet(k, p, if ok then 0 else -14, r.m.mem, now);
    }
  }

  lemma ExchangeMade(m: Machine, oldp: Word, newp: Word, sig: nat, was: G.Actions, r: Effect, a: Option<G.Action>)
    requires GoodMemory(m) && sig < 33 && r == (if oldp == 0 then Done(m) else StoreAction(m, oldp, was[sig]))
    requires r.m.mem.Valid() && a == if newp == 0 then None else LoadAction(r.m.mem, newp)
    ensures var ok := r.Ok? && (newp == 0 || a.Some?);
      Exchanged(m.mem, r.m.mem, ok, oldp, newp, sig, was, if ok && a.Some? then was[sig := a.value] else was)
  {
    hide LoadAction, StoreAction, Stands, GoodMemory;
    if oldp != 0 && r.Ok? {
      KernelEnds.ActionRoundTrip(m, oldp, was[sig]);
      StandsLoaded(r.m.mem, oldp, was[sig]);
    }
    forall x { StandsLoaded(r.m.mem, newp, x); }
  }

  lemma SetServed(k: K, k1: K, p: Pid, m: Machine, ret: int, now: G.Actions)
    requires Behind(k, k1, p) && m == M(k1, p).(mem := m.mem, log := m.log)
    ensures var k2 := WithMachine(k1, p, m.(log := []));
      && SetResult(WithTask(k2, p, k2.u[p].task.(actions := now)), p, ret) == ActionsSet(k, p, ret, m.mem, now)
      && (now == k.u[p].task.actions ==> SetResult(k2, p, ret) == ActionsSet(k, p, ret, m.mem, now))
  {
    hide TrapLength, Traps;
  }

  lemma StoreKeepsRest(m: Machine, addr: int, a: G.Action)
    requires m.mem.Valid()
    ensures var r := StoreAction(m, addr, a).m; r == m.(mem := r.mem, log := r.log)
  {
    hide WriteMem;
    WordKeepsRest(m, addr, a.handler);
    var m1 := WriteMem(m, addr, 4, a.handler).m;
    WordKeepsRest(m1, addr + 4, a.mask);
    var m2 := WriteMem(m1, addr + 4, 4, a.mask).m;
    WordKeepsRest(m2, addr + 8, a.flags);
    WordKeepsRest(WriteMem(m2, addr + 8, 4, a.flags).m, addr + 12, a.restorer);
  }

  lemma WordKeepsRest(m: Machine, addr: int, v: int)
    requires m.mem.Valid()
    ensures var r := WriteMem(m, addr, 4, v).m; r == m.(mem := r.mem, log := r.log)
  {
    hide Image.Write, Bytes;
  }

  lemma SigactionExact(k: K, p: Pid, env: Env)
    requires Makes(k, p, env, 67)
    ensures p in k.u && M(k, p).mem.Valid() && Traps(M(k, p)) && SigactionLeaves(k, After(k, p, env, 67), p)
  {
    hide Inv, D.Exact, Domains, TrapLength, Traps, Dispatch, After, Makes, PastState, SigactionCall, SigactionLeaves, SetResult;
    var k1, o := Setting(k, p, env, 67);
    Dispatched(k1, p, env);
    SigactionServed(k, k1, p);
  }

  /** sgetmask gives the mask; ssetmask gives the old one and takes over every bit but that of SIGKILL (bit 8). */
  ghost predicate MasksLeave(k: K, k': K, p: Pid, nr: Word)
    requires p in k.u && M(k, p).mem.Valid() && Traps(M(k, p))
  {
    var t := k.u[p].task;
    exists mask: Word ::
      && k' == TaskSet(k, p, t.blocked, t.(blocked := mask))
      && (if nr == 68 then mask == t.blocked
          else forall i: nat :: i < 32 ==> (BitOn(mask, i) <==> i != 8 && BitOn(t.m.regs[EBX], i)))
  }

  lemma MasksExact(k: K, p: Pid, env: Env, nr: Word)
    requires Makes(k, p, env, nr) && (nr == 68 || nr == 69)
    ensures p in k.u && M(k, p).mem.Valid() && Traps(M(k, p)) && MasksLeave(k, After(k, p, env, nr), p, nr)
  {
    hide Inv, D.Exact, Domains, TrapLength, Traps, Dispatch, After, Makes, SetResult, PastState, TaskSet, NewMask, BitOn, CanCall;
    var k1, o := Setting(k, p, env, nr);
    Chosen(k1, p, env);
    var t := k.u[p].task;
    var mask := if nr == 68 then t.blocked else NewMask(t.m.regs[EBX]);
    MasksServed(k, k1, p, mask);
    forall i: nat | i < 32 ensures BitOn(NewMask(t.m.regs[EBX]), i) <==> i != 8 && BitOn(t.m.regs[EBX], i) {
      MaskBits(t.m.regs[EBX], i);
    }
    assert After(k, p, env, nr) == TaskSet(k, p, t.blocked, t.(blocked := mask));
  }

  lemma MasksServed(k: K, k1: K, p: Pid, mask: Word)
    requires Serves(k, k1, p)
    ensures var t := k.u[p].task;
      && SetResult(WithTask(k1, p, k1.u[p].task.(blocked := mask)), p, k1.u[p].task.blocked) == TaskSet(k, p, t.blocked, t.(blocked := mask))
      && (mask == t.blocked ==> SetResult(k1, p, k1.u[p].task.blocked) == TaskSet(k, p, t.blocked, t.(blocked := mask)))
  {
    hide D.Exact, Domains, Traps, TrapLength;
    assert mask == k.u[p].task.blocked ==> k1.u[p].task.(blocked := mask) == k1.u[p].task;
  }

  lemma MaskBits(v: Word, i: nat)
    requires i < 32
    ensures BitOn(NewMask(v), i) <==> i != 8 && BitOn(v, i)
  {
    assert Pow2(8) == 0x100;
    assert NewMask(v) == SetBit(v, 8, false);
    Shifting.SetBitExact(v, 8, false, i);
  }

  // ---- Groups and positions -------------------------------------------------------------------------------

  function InGroup(k: K, q: Pid, g: int): K
    requires q in k.s.procs
  {
    k.(s := k.s.(procs := k.s.procs[q := k.s.procs[q].(pgrp := g)]))
  }

  /** setpgid: the process named, or the caller for 0, is in the group named, or in its own for 0; ESRCH (3) without such
      a process. */
  function SetpgidAfter(k: K, p: Pid): K
    requires p in k.u && M(k, p).mem.Valid() && Traps(M(k, p))
  {
    var q := if M(k, p).regs[EBX] == 0 then p else M(k, p).regs[EBX];
    var g := if M(k, p).regs[ECX] == 0 then q else M(k, p).regs[ECX];
    if q in k.s.procs then JustAnswered(InGroup(k, q, g), p, 0) else JustAnswered(k, p, -3)
  }

  /** setsid: the caller leads its own group; EPERM (1) if it leads a session already. */
  function SetsidAfter(k: K, p: Pid, env: Env): K
    requires p in k.u && M(k, p).mem.Valid() && Traps(M(k, p)) && p in k.s.procs
  {
    if env.ret < 0 then JustAnswered(k, p, -1) else JustAnswered(InGroup(k, p, p), p, p)
  }

  lemma GroupsExact(k: K, p: Pid, env: Env)
    ensures Makes(k, p, env, 57) ==>
      p in k.u && M(k, p).mem.Valid() && Traps(M(k, p)) && After(k, p, env, 57) == SetpgidAfter(k, p)
    ensures Makes(k, p, env, 66) ==>
      p in k.u && M(k, p).mem.Valid() && Traps(M(k, p)) && p in k.s.procs && After(k, p, env, 66) == SetsidAfter(k, p, env)
  {
    hide Inv, D.Exact, Domains, TrapLength, Traps, Dispatch, After, Makes, SetResult, PastState, JustAnswered, CanCall;
    if Makes(k, p, env, 57) {
      var k1, o := Setting(k, p, env, 57);
      Chosen(k1, p, env);
      if o.ret == 0 { JustServed(k, k1, o.k, p, 0); } else { PlainServed(k, k1, p, -3, TtyRead); }
    }
    if Makes(k, p, env, 66) {
      var k1, o := Setting(k, p, env, 66);
      Chosen(k1, p, env);
      if env.ret < 0 { PlainServed(k, k1, p, -1, TtyRead); } else { JustServed(k, k1, o.k, p, p); }
    }
  }

  /** lseek: from the start (0), from where the file stands (1) or from its end (2), by n; the new position is the answer.
      EBADF (9), ESPIPE (29) for what is no file, EINVAL (22) for another origin or a position below zero. */
  function SeekAfter(k: K, p: Pid, env: Env, n: int): K
    requires p in k.u && M(k, p).mem.Valid() && Traps(M(k, p))
  {
    match FileAt(k, p, M(k, p).regs[EBX])
    case None => JustAnswered(k, p, -9)
    case Some(f) =>
      var origin := M(k, p).regs[EDX];
      if !k.d.files[f].obj.Node? then JustAnswered(k, p, -29)
      else if origin != 0 && origin != 1 && origin != 2 then JustAnswered(k, p, -22)
      else
        var pos := n + if origin == 0 then 0 else if origin == 1 then k.d.files[f].pos else env.ret;
        if pos < 0 then JustAnswered(k, p, -22)
        else JustAnswered(k.(d := k.d.(files := k.d.files[f := k.d.files[f].(pos := pos)])), p, pos)
  }

  lemma SeekExact(k: K, p: Pid, env: Env, n: int)
    requires Makes(k, p, env, 19) && Reads(M(k, p).regs[ECX], n)
    ensures p in k.u && M(k, p).mem.Valid() && Traps(M(k, p)) && After(k, p, env, 19) == SeekAfter(k, p, env, n)
  {
    hide Inv, D.Exact, Domains, TrapLength, Traps, Dispatch, After, Makes, SetResult, PastState, SeekCall, SeekAfter, Serves;
    var k1, o := Setting(k, p, env, 19);
    Dispatched(k1, p, env);
    ReadsSigned(M(k, p).regs[ECX], n);
    SeekServed(k, k1, p, env, n);
  }

  lemma SeekServed(k: K, k1: K, p: Pid, env: Env, n: int)
    requires Serves(k, k1, p) && Signed32(M(k, p).regs[ECX]) == n
    ensures var o := SeekCall(k1, p, env); o.Return? && p in k.u && SetResult(o.k, p, o.ret) == SeekAfter(k, p, env, n)
  {
    hide D.Exact, Domains, Traps, TrapLength, JustAnswered, SetResult, FileAt, ObjectAt;
    var o := SeekCall(k1, p, env);
    FileIsObject(k1, p, M(k1, p).regs[EBX]);
    SameFile(k, k1, p, M(k1, p).regs[EBX]);
    JustServed(k, k1, o.k, p, o.ret);
    SameState(k);
  }

  /** pause sleeps. */
  lemma PauseExact(k: K, p: Pid, env: Env)
    requires Makes(k, p, env, 29)
    ensures p in k.u && M(k, p).mem.Valid() && Traps(M(k, p)) && After(k, p, env, 29) == PutToSleep(k, p, Pausing(p))
  {
    hide Inv, D.Exact, Domains, TrapLength, Traps, Dispatch, After, Makes, Sleep, PastState, PutToSleep, CanCall;
    var k1, o := Setting(k, p, env, 29);
    Dispatched(k1, p, env);
    PlainServed(k, k1, p, 0, Pausing(p));
  }

  /** No poll ends a pause. */
  lemma PauseUnpolled(k: K, p: Pid, x: Pid, ttyReady: bool)
    requires Known(k, p) && k.u[p].channel == Some(Pausing(x))
    ensures Poll(k, p, ttyReady) == k
  {
  }

  // ---- Descriptors ------------------------------------------------------------------------------------------

  function DescSet(k: K, p: Pid, r: D.Ret): K
    requires p in k.u && M(k, p).mem.Valid() && Traps(M(k, p))
  {
    JustAnswered(k.(d := r.d), p, r.r)
  }

  /** close, dup, dup2: what the tables say, and nothing else. */
  lemma DescriptorsExact(k: K, p: Pid, env: Env, nr: Word)
    requires Makes(k, p, env, nr) && (nr == 6 || nr == 41 || nr == 63)
    ensures CanCall(k, p) && Traps(M(k, p))
    ensures var m := M(k, p);
      After(k, p, env, nr) == DescSet(k, p, if nr == 6 then D.Close(k.d, p, m.regs[EBX])
                                            else if nr == 41 then D.DupFrom(k.d, p, m.regs[EBX], 0)
                                            else D.Dup2(k.d, p, m.regs[EBX], m.regs[ECX]))
  {
    hide Inv, D.Exact, Domains, TrapLength, Traps, Dispatch, After, Makes, SetResult, PastState, JustAnswered, D.Close, D.DupFrom, D.Dup2;
    var k1, o := Setting(k, p, env, nr);
    Chosen(k1, p, env);
    JustServed(k, k1, o.k, p, o.ret);
  }

  /** fcntl: duplicate from a lowest number (0), read (1) or set (2) the mark that closes at execve, read (3) or set (4)
      the status. */
  ghost function FcntlAfter(k: K, p: Pid): K
    requires CanCall(k, p) && Traps(M(k, p)) && p in k.d.marks
  {
    var m := M(k, p);
    var fd, arg := m.regs[EBX], m.regs[EDX];
    match FileAt(k, p, fd)
    case None => JustAnswered(k, p, -9)
    case Some(f) =>
      var file, marks := k.d.files[f], k.d.marks[p];
      match m.regs[ECX]
      case 0 => DescSet(k, p, D.DupFrom(k.d, p, fd, arg))
      case 1 => JustAnswered(k, p, if fd in marks then 1 else 0)
      case 2 => JustAnswered(k.(d := k.d.(marks := k.d.marks[p := if BitOn(arg, 0) then marks + {fd} else marks - {fd}])), p, 0)
      case 3 => JustAnswered(k, p, file.access + (if file.append then 1024 else 0) + if file.nonblock then 2048 else 0)
      case 4 => JustAnswered(k.(d := k.d.(files := k.d.files[f := file.(append := BitOn(arg, 10), nonblock := BitOn(arg, 11))])), p, 0)
      case _ => JustAnswered(k, p, -22)
  }

  lemma FcntlExact(k: K, p: Pid, env: Env)
    requires Makes(k, p, env, 55)
    ensures CanCall(k, p) && Traps(M(k, p)) && p in k.d.marks && After(k, p, env, 55) == FcntlAfter(k, p)
  {
    hide Inv, D.Exact, Domains, TrapLength, Traps, Dispatch, After, Makes, SetResult, PastState, FcntlCall, FcntlAfter, Serves;
    var k1, o := Setting(k, p, env, 55);
    Chosen(k1, p, env);
    CallerTable(k, p);
    FcntlServed(k, k1, p);
  }

  lemma FcntlServed(k: K, k1: K, p: Pid)
    requires Serves(k, k1, p) && p in k.d.marks
    ensures var o := FcntlCall(k1, p); o.Return? && SetResult(o.k, p, o.ret) == FcntlAfter(k, p)
  {
    hide D.Exact, Domains, Traps, TrapLength, JustAnswered, SetResult, FileAt, ObjectAt, D.DupFrom;
    var o, m := FcntlCall(k1, p), M(k1, p);
    FileOpen(k1, p, m.regs[EBX]);
    SameFile(k, k1, p, m.regs[EBX]);
    JustServed(k, k1, o.k, p, o.ret);
    SameState(k);
    StatusBits(m.regs[EDX]);
  }

  lemma FileOpen(k: K, p: Pid, fd: int)
    requires D.Exact(k.d)
    ensures FileAt(k, p, fd).Some? <==> D.IsOpen(k.d, p, fd)
    ensures var f := FileAt(k, p, fd); f.Some? ==> f.value in k.d.files && k.d.tables[p][fd] == f
  {
  }

  lemma StatusBits(v: int)
    ensures (BitOn(v, 10) <==> v / 0x400 % 2 == 1) && (BitOn(v, 11) <==> v / 0x800 % 2 == 1) && (BitOn(v, 0) <==> v % 2 == 1)
  {
    assert Pow2(10) == 0x400 && Pow2(11) == 0x800;
  }

  /** open and creat, once the object is found: the lowest free descriptor leads to a new open file with the access asked
      for, creat's being for writing only; one opened for appending stands at the end. */
  ghost function OpenAfter(k: K, p: Pid, env: Env, nr: Word): K
    requires CanCall(k, p) && Traps(M(k, p))
  {
    var flags := M(k, p).regs[ECX];
    if env.found.None? || env.found.value.PipeEnd? then JustAnswered(k, p, env.ret)
    else
      var append := nr == 5 && BitOn(flags, 10);
      var r := D.OpenObject(k.d, p, env.found.value, if nr == 8 then 1 else flags % 4, append);
      var f := k.d.nextFile;
      if append && env.found.value.Node? && f !in k.d.files && f in r.d.files
      then DescSet(k, p, r.(d := r.d.(files := r.d.files[f := r.d.files[f].(pos := env.ret)])))
      else DescSet(k, p, r)
  }

  lemma OpenCallExact(k: K, p: Pid, env: Env, nr: Word)
    requires Makes(k, p, env, nr) && (nr == 5 || nr == 8)
    ensures CanCall(k, p) && Traps(M(k, p)) && After(k, p, env, nr) == OpenAfter(k, p, env, nr)
  {
    hide Inv, D.Exact, Domains, TrapLength, Traps, Dispatch, After, Makes, SetResult, PastState, DescCall, OpenAfter, Serves;
    var k1, o := Setting(k, p, env, nr);
    ChosenDesc(k1, p, env);
    OpenServed(k, k1, p, env, nr);
  }

  lemma ChosenDesc(k: K, p: Pid, env: Env)
    requires CanCall(k, p)
    ensures var nr := M(k, p).regs[EAX]; nr == 5 || nr == 8 || nr == 42 ==> Dispatch(k, p, env) == DescCall(k, p, env)
  {
    hide D.Exact, Domains, DescCall;
  }

  lemma OpenServed(k: K, k1: K, p: Pid, env: Env, nr: Word)
    requires Serves(k, k1, p) && (nr == 5 || nr == 8) && M(k1, p).regs[EAX] == nr
    ensures var o := DescCall(k1, p, env); o.Return? && SetResult(o.k, p, o.ret) == OpenAfter(k, p, env, nr)
  {
    hide D.Exact, Domains, Traps, TrapLength, JustAnswered, SetResult, D.OpenObject, Opened;
    var o, flags := DescCall(k1, p, env), M(k1, p).regs[ECX];
    StatusBits(flags);
    if env.found.Some? && !env.found.value.PipeEnd? {
      OpenedServed(k, k1, p, env, if nr == 8 then 1 else flags % 4, nr == 5 && BitOn(flags, 10));
    } else {
      PlainServed(k, k1, p, env.ret, TtyRead);
    }
  }

  lemma OpenedServed(k: K, k1: K, p: Pid, env: Env, access: nat, append: bool)
    requires Serves(k, k1, p) && env.found.Some? && !env.found.value.PipeEnd?
    ensures var r, f := D.OpenObject(k.d, p, env.found.value, access, append), k.d.nextFile;
      var o := Opened(k1, p, env, r);
      o.Return? && SetResult(o.k, p, o.ret) ==
        if append && env.found.value.Node? && f !in k.d.files && f in r.d.files
        then DescSet(k, p, r.(d := r.d.(files := r.d.files[f := r.d.files[f].(pos := env.ret)])))
        else DescSet(k, p, r)
  {
    hide D.Exact, Domains, Traps, TrapLength, JustAnswered, SetResult, D.OpenObject;
    var r := D.OpenObject(k.d, p, env.found.value, access, append);
    var o := Opened(k1, p, env, r);
    JustServed(k, k1, o.k, p, o.ret);
    SameState(k);
    OpenedFile(k.d, p, env.found.value, access, append);
  }

  lemma OpenedFile(d: D.Desc, p: Pid, obj: D.Object, access: nat, append: bool)
    requires D.Exact(d) && p in d.tables && !obj.PipeEnd?
    ensures var r, f := D.OpenObject(d, p, obj, access, append), d.nextFile;
      && f !in d.files && (r.r < 0 ==> r == D.Ret(d, r.r))
      && (r.r >= 0 ==> r.r < D.NR_OPEN && p in r.d.tables && r.d.tables[p][r.r] == Some(f)
                       && f in r.d.files && r.d.files[f] == D.OpenFile(obj, access, append, false, 0, 1))
  {
    hide D.Exact, D.OpenObject;
    D.NumbersUnused(d);
    if D.FreeFrom(d.tables[p], 0).Some? { D.OpenExact(d, p, obj, access, append); }
  }

  /** The two numbers stand at the address given, or EFAULT is the answer; either way the pipe is made. */
  ghost predicate PipeAnswered(k: K, k': K, p: Pid, mem: Image, ok: bool)
    requires CanCall(k, p) && Traps(M(k, p))
  {
    var addr, free := M(k, p).regs[EBX], D.FreePair(k.d.tables[p]);
    && mem.Valid() && free.Some?
    && (ok ==> mem.Load(addr, 4) == Some(free.value.0) && mem.Load(addr + 4, 4) == Some(free.value.1))
    && k' == AnsweredWith(k, p, if ok then 0 else -14, mem, D.MakePipe(k.d, p).d, k.logs)
  }

  /** pipe: EMFILE (24) with nothing changed, or the two lowest free descriptors lead to the new pipe, as PipeMade says. */
  ghost predicate PipeLeaves(k: K, k': K, p: Pid)
    requires CanCall(k, p) && Traps(M(k, p))
  {
    if D.FreePair(k.d.tables[p]).None? then k' == JustAnswered(k, p, -24)
    else exists mem, ok :: PipeAnswered(k, k', p, mem, ok)
  }

  lemma PipeExact(k: K, p: Pid, env: Env)
    requires Makes(k, p, env, 42)
    ensures CanCall(k, p) && Traps(M(k, p)) && PipeLeaves(k, After(k, p, env, 42), p)
  {
    hide Inv, D.Exact, Domains, TrapLength, Traps, Dispatch, After, Makes, SetResult, PastState, DescCall, PipeLeaves, Serves;
    var k1, o := Setting(k, p, env, 42);
    ChosenDesc(k1, p, env);
    PipeServed(k, k1, p, env);
  }

  lemma PipeServed(k: K, k1: K, p: Pid, env: Env)
    requires Serves(k, k1, p) && M(k1, p).regs[EAX] == 42 && GoodMemory(M(k, p))
    ensures var o := DescCall(k1, p, env); o.Return? && PipeLeaves(k, SetResult(o.k, p, o.ret), p)
  {
    hide D.Exact, Domains, Traps, TrapLength, JustAnswered, AnsweredWith, SetResult, D.MakePipe, D.FreePair, CopyPair;
    var m, o := M(k1, p), DescCall(k1, p, env);
    var free := D.FreePair(k.d.tables[p]);
    if free.None? {
      JustServed(k, k1, o.k, p, o.ret);
      SameState(k);
    } else {
      assert o == CopyPair(k1.(d := D.MakePipe(k.d, p).d), p, m.regs[EBX], free.value.0, free.value.1);
      var mem, ok := PairServed(k, k1, p, D.MakePipe(k.d, p).d, m.regs[EBX], free.value.0, free.value.1);
      assert PipeAnswered(k, SetResult(o.k, p, o.ret), p, mem, ok);
    }
  }

  lemma PairServed(k: K, k1: K, p: Pid, d: D.Desc, addr: int, v: Word, w: Word) returns (mem: Image, ok: bool)
    requires Behind(k, k1, p) && GoodMemory(M(k1, p))
    ensures var o := CopyPair(k1.(d := d), p, addr, v, w);
      o.Return? && SetResult(o.k, p, o.ret) == AnsweredWith(k, p, if ok then 0 else -14, mem, d, k.logs)
    ensures mem.Valid() && (ok ==> mem.Load(addr, 4) == Some(v) && mem.Load(addr + 4, 4) == Some(w))
  {
    hide Traps, TrapLength, WriteMem, GoodMemory, Image.Load;
    var m := M(k1, p);
    var r := WriteMem(m, addr, 4, v);
    WordKeepsRest(m, addr, v);
    mem, ok := r.m.mem, false;
    if r.Ok? {
      KernelEnds.WordStored(m, addr, v);
      WordKeepsRest(r.m, addr + 4, w);
      var r2 := WriteMem(r.m, addr + 4, 4, w);
      mem, ok := r2.m.mem, r2.Ok?;
      if r2.Ok? { KernelEnds.WordStored(r.m, addr + 4, w); }
    }
  }

  // ---- The shell ------------------------------------------------------------------------------------------

  /** The descriptor leads to an open file of this object, opened with this access. */
  predicate Leads(d: D.Desc, c: Pid, fd: nat, obj: D.Object, access: nat) {
    && c in d.tables && fd < D.NR_OPEN && d.tables[c][fd].Some? && d.tables[c][fd].value in d.files
    && var f := d.files[d.tables[c][fd].value]; f.obj == obj && f.access == access && !f.append && f.pos == 0
  }

  /** The terminal for reading on 0, and for writing, by one open file, on 1 and 2; a script for reading takes the place
      of 0. */
  ghost predicate ShellHas(r: D.Desc, c: Pid, tty: bool, script: Option<nat>) {
    && c in r.tables && c in r.marks && r.marks[c] == {}
    && (forall fd :: 3 <= fd < D.NR_OPEN ==> r.tables[c][fd].None?)
    && (if tty then Leads(r, c, 1, D.Terminal, 1) && r.tables[c][2] == r.tables[c][1] else r.tables[c][1].None? && r.tables[c][2].None?)
    && (match script
        case Some(ino) => Leads(r, c, 0, D.Node(ino), 0)
        case None => if tty then Leads(r, c, 0, D.Terminal, 0) else r.tables[c][0].None?)
  }

  lemma ShellExact(d: D.Desc, c: Pid, tty: bool, script: Option<nat>)
    requires D.Exact(d) && c !in d.tables
    ensures ShellHas(ShellTable(d, c, tty, script), c, tty, script)
  {
    hide D.Exact, StdFiles, ScriptOnZero, D.AddTable, ShellHas;
    D.NewTable(d, c, {});
    EmptyShell(d, c);
    var d0 := D.AddTable(d, c, {});
    if tty { StdExact(d0, c); }
    var d1 := if tty then StdFiles(d0, c) else d0;
    if script.Some? { ZeroExact(d1, c, script.value, tty); }
  }

  lemma EmptyShell(d: D.Desc, c: Pid)
    ensures var r := D.AddTable(d, c, {}); ShellHas(r, c, false, None) && r.tables[c] == D.NoFiles()
  {
  }

  lemma StdExact(d: D.Desc, c: Pid)
    requires D.Exact(d) && ShellHas(d, c, false, None) && d.tables[c] == D.NoFiles()
    ensures ShellHas(StdFiles(d, c), c, true, None)
  {
    hide D.Exact, D.KeepsObjects, D.SameFiles;
    D.Opening(d, c, 0, D.Terminal, 0, false);
    var d1 := D.InstallNew(d, c, 0, D.Terminal, 0, false);
    D.NumbersUnused(d1);
    D.Opening(d1, c, 1, D.Terminal, 1, false);
    var d2 := D.InstallNew(d1, c, 1, D.Terminal, 1, false);
    D.Sharing(d2, c, 1, c, 2);
  }

  lemma ZeroExact(d: D.Desc, c: Pid, ino: nat, tty: bool)
    requires D.Exact(d) && ShellHas(d, c, tty, None)
    ensures ShellHas(ScriptOnZero(d, c, ino), c, tty, Some(ino))
  {
    hide D.Exact, D.KeepsObjects, D.Close;
    D.ClosedSlotFree(d, c, 0);
    D.CloseExact(d, c, 0);
    var d1 := D.Close(d, c, 0).d;
    D.NumbersUnused(d1);
    D.Opening(d1, c, 0, D.Node(ino), 0, false);
  }

  /** A shell is started as a child of init that leads its own group, with nothing blocked or pending, all dispositions the
      default, and no frames. */
  ghost predicate SpawnLeaves(k: K, k': K, m: Machine, tty: bool, script: Option<nat>) {
    var c := k.nextPid;
    && k'.nextPid == c + 1 && k'.logs == k.logs
    && k'.s.procs == k.s.procs[c := S.Info(S.Running, false, 1, c, 0)] && c in k'.s.runq
    && k'.u == k.u[c := User(G.Task(m, 0, [], seq(33, _ => G.Action(0, 0, 0, 0))), {}, None, false)]
    && ShellHas(k'.d, c, tty, script)
  }

  lemma SpawnExact(k: K, m: Machine, tty: bool, script: Option<nat>)
    requires Inv(k) && Enabled(k, Spawned(m, tty, script))
    ensures SpawnLeaves(k, Next(k, Spawned(m, tty, script)), m, tty, script)
  {
    hide Inv, D.Exact, Domains, ShellTable, ShellHas;
    SpawnServed(k, m, tty, script);
  }

  lemma SpawnServed(k: K, m: Machine, tty: bool, script: Option<nat>)
    requires Inv(k)
    ensures D.Exact(k.d) && Domains(k) && SpawnLeaves(k, Spawn(k, m, tty, script), m, tty, script)
  {
    hide D.Exact, ShellTable, ShellHas, GoodMemory, SleepsAtCall;
    ShellExact(k.d, k.nextPid, tty, script);
  }
}
