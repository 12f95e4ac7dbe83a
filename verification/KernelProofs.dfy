/** Every step of the kernel keeps its invariants. */
module KernelProofs {
  import opened Words
  import opened Memory
  import opened Decoder
  import opened Handlers
  import opened Kernel
  import L = DecoderLocality
  import P = Pipes
  import D = Descriptors
  import S = Scheduler
  import G = Signals

  /** What a sleep depends on is the same in both states. */
  ghost predicate SameSleep(k: K, k': K, x: Pid) {
    && Known(k, x) && Known(k', x)
    && k'.u[x].task == k.u[x].task && k'.u[x].channel == k.u[x].channel && k'.u[x].restart == k.u[x].restart
    && k'.d.tables[x] == k.d.tables[x] && k'.s.procs[x].state == k.s.procs[x].state
  }

  /** Known files keep their objects. */
  ghost predicate KeepsFiles(d: D.Desc, d': D.Desc) {
    forall f :: f in d.files ==> f in d'.files && d'.files[f].obj == d.files[f].obj
  }

  lemma FilesKept(d: D.Desc, d': D.Desc)
    requires D.KeepsObjects(d, d')
    ensures KeepsFiles(d, d')
    ensures forall q :: q in d'.pipes && q !in d.pipes ==> d'.pipes[q].buf == []
    ensures d.pipes.Keys <= d'.pipes.Keys
  {
  }

  lemma SleepKept(k: K, k': K, x: Pid)
    requires SameSleep(k, k', x) && SleepsAtCall(k, x) && KeepsFiles(k.d, k'.d)
    ensures SleepsAtCall(k', x)
  {
    hide GoodMemory, AtTrap;
  }

  /** k' differs from k at most in process p and in counts, positions and queue order. */
  ghost predicate OnlyAt(k: K, k': K, p: Pid) {
    && KeepsFiles(k.d, k'.d)
    && forall x :: x != p && Known(k', x) ==> SameSleep(k, k', x)
  }

  /** Process p itself is in order. */
  ghost predicate SelfOk(k: K, p: Pid) {
    Known(k, p) ==>
      && GoodMemory(k.u[p].task.m)
      && (In(k, p, S.Zombie) ==> k.d.tables[p] == D.NoFiles())
      && (In(k, p, S.Sleeping) ==> SleepsAtCall(k, p))
  }

  lemma SelfFromInv(k: K, p: Pid)
    requires Inv(k)
    ensures SelfOk(k, p)
  {
    hide D.Exact, S.Sound, GoodMemory, SleepsAtCall, Flowing;
  }

  /** The invariant process by process. */
  lemma InvIntro(k: K)
    requires Domains(k) && D.Exact(k.d) && S.Sound(k.s) && Flowing(k) && forall p :: SelfOk(k, p)
    ensures Inv(k)
  {
    hide D.Exact, S.Sound, GoodMemory, SleepsAtCall, Flowing;
    forall p | p in k.u ensures GoodMemory(k.u[p].task.m) { assert SelfOk(k, p); }
    forall p | Known(k, p) && In(k, p, S.Zombie) ensures k.d.tables[p] == D.NoFiles() { assert SelfOk(k, p); }
    forall p | Known(k, p) && In(k, p, S.Sleeping) ensures SleepsAtCall(k, p) { assert SelfOk(k, p); }
  }

  lemma OtherOk(k: K, k': K, p: Pid, x: Pid)
    requires Inv(k) && OnlyAt(k, k', p) && x != p
    ensures SelfOk(k', x)
  {
    hide D.Exact, KeepsFiles, S.Sound, GoodMemory, SleepsAtCall, Flowing, Inv;
    SelfFromInv(k, x);
    if Known(k', x) && In(k', x, S.Sleeping) { SleepKept(k, k', x); }
  }

  lemma StepAt(k: K, k': K, p: Pid)
    requires Inv(k) && OnlyAt(k, k', p) && SelfOk(k', p)
    requires Domains(k') && D.Exact(k'.d) && S.Sound(k'.s) && Flowing(k')
    ensures Inv(k')
  {
    hide *;
    forall x ensures SelfOk(k', x) { if x != p { OtherOk(k, k', p, x); } }
    InvIntro(k');
  }

  lemma InvParts(k: K)
    requires Inv(k)
    ensures Domains(k) && D.Exact(k.d) && S.Sound(k.s) && Flowing(k)
    ensures forall q :: q in k.d.pipes ==> q < k.d.nextPipe
  {
    NumbersOk(k);
  }

  lemma NumbersOk(k: K)
    requires D.Exact(k.d)
    ensures forall q :: q in k.d.pipes ==> q < k.d.nextPipe
  {
  }

  /** New counts on a pipe, or a new pipe, do not disturb its flow. */
  lemma FlowKept(k: K, k': K)
    requires Domains(k) && D.Exact(k.d) && Flowing(k) && k'.logs == k.logs && D.KeepsObjects(k.d, k'.d)
    requires k'.d.pipes.Keys <= k.d.pipes.Keys || forall q :: q in k'.d.pipes && q !in k.d.pipes ==> k'.d.pipes[q].buf == []
    ensures Flowing(k')
  {
    hide D.Exact;
    forall q | q in k'.d.pipes ensures Flows(k', q) {
      if q in k.d.pipes { assert Flows(k, q); }
    }
  }

  // ---- Changes to one component ---------------------------------------------------------------

  /** p's own descriptor operations. */
  lemma DescKeeps(k: K, d': D.Desc, p: Pid)
    requires Inv(k) && Known(k, p) && In(k, p, S.Running)
    requires D.Exact(d') && D.KeepsObjects(k.d, d') && p in d'.tables && d'.tables == k.d.tables[p := d'.tables[p]]
    ensures Inv(k.(d := d'))
  {
    hide Inv, D.Exact, D.KeepsObjects, KeepsFiles, KeepsFiles, S.Sound, Flowing, GoodMemory, SleepsAtCall;
    InvParts(k);
    SelfFromInv(k, p);
    FilesKept(k.d, d');
    FlowKept(k, k.(d := d'));
    StepAt(k, k.(d := d'), p);
  }

  /** p's own registers, memory, mask or dispositions. */
  lemma TaskKeeps(k: K, p: Pid, t: G.Task)
    requires Inv(k) && Known(k, p) && !In(k, p, S.Sleeping) && GoodMemory(t.m)
    ensures Inv(WithTask(k, p, t))
  {
    hide Inv, D.Exact, D.KeepsObjects, KeepsFiles, S.Sound, Flowing, GoodMemory, SleepsAtCall;
    InvParts(k);
    SelfFromInv(k, p);
    D.KeepsSelf(k.d);
    FilesKept(k.d, k.d);
    FlowKept(k, WithTask(k, p, t));
    StepAt(k, WithTask(k, p, t), p);
  }

  lemma PendingKeeps(k: K, p: Pid, pending: set<nat>)
    requires Inv(k) && Known(k, p)
    ensures Inv(k.(u := k.u[p := k.u[p].(pending := pending)]))
  {
    hide Inv, D.Exact, D.KeepsObjects, KeepsFiles, S.Sound, Flowing, GoodMemory, AtTrap, Fits;
    var k' := k.(u := k.u[p := k.u[p].(pending := pending)]);
    InvParts(k);
    SelfFromInv(k, p);
    D.KeepsSelf(k.d);
    FilesKept(k.d, k.d);
    FlowKept(k, k');
    StepAt(k, k', p);
  }

  /** A scheduler operation on p that leaves it awake. */
  lemma SchedKeeps(k: K, op: S.Op, p: Pid)
    requires Inv(k) && Known(k, p)
    requires op == S.Stop(p) || (op.SetGroup? && op.pid == p)
    ensures Inv(k.(s := S.Apply(k.s, op)))
  {
    hide Inv, D.Exact, D.KeepsObjects, KeepsFiles, S.Sound, Flowing, GoodMemory, AtTrap, Fits;
    var k' := k.(s := S.Apply(k.s, op));
    InvParts(k);
    SelfFromInv(k, p);
    S.OpKeepsSound(k.s, op);
    D.KeepsSelf(k.d);
    FilesKept(k.d, k.d);
    FlowKept(k, k');
    StepAt(k, k', p);
  }

  // ---- Wake-ups and signals --------------------------------------------------------------------

  lemma WakeKeeps(k: K, p: Pid, interrupted: bool)
    requires Inv(k) && Known(k, p)
    ensures Inv(Wake(k, p, interrupted))
  {
    hide Inv, D.Exact, D.KeepsObjects, KeepsFiles, S.Sound, Flowing, SleepsAtCall;
    if In(k, p, S.Sleeping) {
      InvParts(k);
      SelfFromInv(k, p);
      S.OpKeepsSound(k.s, S.WakeUp(p));
      D.KeepsSelf(k.d);
    FilesKept(k.d, k.d);
      FlowKept(k, Wake(k, p, interrupted));
      StepAt(k, Wake(k, p, interrupted), p);
    }
  }

  lemma PostKeeps(k: K, p: Pid, sig: int)
    requires Inv(k) && Known(k, p)
    ensures Inv(PostSignal(k, p, sig))
  {
    hide Inv, Wake, Noticed, BlockedBit;
    if 1 <= sig <= 32 {
      PendingKeeps(k, p, k.u[p].pending + {sig});
      WakeKeeps(k.(u := k.u[p := k.u[p].(pending := k.u[p].pending + {sig})]), p, true);
    }
  }

  lemma {:induction false} PostAllKeeps(k: K, ps: seq<Pid>, sig: int)
    requires Inv(k) && forall p :: p in ps ==> Known(k, p)
    ensures Inv(PostAll(k, ps, sig))
    ensures PostAll(k, ps, sig).d == k.d && PostAll(k, ps, sig).u.Keys == k.u.Keys
    decreases |ps|
  {
    hide Inv, PostSignal;
    if |ps| > 0 {
      PostKeeps(k, ps[0], sig);
      var k1 := PostSignal(k, ps[0], sig);
      assert forall p :: p in ps[1..] ==> p in ps && (Known(k1, p) <==> Known(k, p));
      PostAllKeeps(k1, ps[1..], sig);
    }
  }

  // ---- Ends of processes ------------------------------------------------------------------------

  /** The part of exit before the parent is told. */
  function Buried(k: K, p: Pid, code: int): K
    requires D.Exact(k.d) && Known(k, p)
  {
    k.(d := D.ExitTable(k.d, p), s := S.Apply(k.s, S.Exit(p, code)))
  }

  lemma BuriedKeeps(k: K, p: Pid, code: int)
    requires Inv(k) && Known(k, p) && D.Exact(k.d)
    ensures Inv(Buried(k, p, code))
    ensures Buried(k, p, code).u == k.u && forall x :: Known(Buried(k, p, code), x) <==> Known(k, x)
  {
    hide Inv, D.Exact, D.KeepsObjects, KeepsFiles, D.ExitTable, S.Sound, Flowing, GoodMemory, SleepsAtCall;
    var k' := Buried(k, p, code);
    InvParts(k);
    SelfFromInv(k, p);
    D.ExitResult(k.d, p);
    S.OpKeepsSound(k.s, S.Exit(p, code));
    FilesKept(k.d, k'.d);
    FlowKept(k, k');
    StepAt(k, k', p);
  }

  lemma ExitKeeps(k: K, p: Pid, code: int)
    requires Inv(k) && Known(k, p) && D.Exact(k.d) && Domains(k)
    ensures Inv(ExitProcess(k, p, code))
  {
    hide Inv, D.Exact, PostSignal, Wake, D.ExitTable, S.Apply;
    BuriedKeeps(k, p, code);
    var k1 := Buried(k, p, code);
    DomainsOf(k1);
    var parent := k1.s.procs[p].ppid;
    if parent in k1.s.procs {
      PostKeeps(k1, parent, SIGCHLD);
      WakeKeeps(PostSignal(k1, parent, SIGCHLD), parent, false);
    }
  }

  lemma DomainsOf(k: K)
    requires Inv(k)
    ensures Domains(k) && D.Exact(k.d)
    ensures forall p :: p in k.u || p in k.s.procs || p in k.d.tables ==> Known(k, p) && GoodMemory(k.u[p].task.m)
  {
    hide D.Exact;
  }

  lemma ReapKeeps(k: K, p: Pid)
    requires Inv(k) && Known(k, p) && In(k, p, S.Zombie)
    ensures Inv(Reap(k, p))
  {
    hide Inv, D.Exact, S.Sound, Flowing, GoodMemory, SleepsAtCall;
    var k' := Reap(k, p);
    InvParts(k);
    SelfFromInv(k, p);
    D.DropTableExact(k.d, p);
    S.OpKeepsSound(k.s, S.Reap(p));
    FlowKept(k, k');
    StepAt(k, k', p);
  }

  // ---- Signal delivery ----------------------------------------------------------------------------

  lemma DeliveredMemory(t: G.Task, sig: nat)
    requires GoodMemory(t.m) && sig < 33 && G.Deliver(t, sig).Some?
    ensures GoodMemory(G.Deliver(t, sig).value.m)
  {
    hide G.PushAll;
    G.PushAllExact(t.m, [G.ReturnAddress(t.actions[sig])] + G.FrameBody(t, sig));
  }

  /** A handler's frame ends the sleep; the saved eip is the trap's. */
  function Framed(k: K, p: Pid, t: G.Task): K
    requires p in k.u
  {
    k.(s := S.Apply(k.s, S.WakeUp(p)), u := k.u[p := k.u[p].(task := t, channel := None)])
  }

  lemma FramedKeeps(k: K, p: Pid, t: G.Task)
    requires Inv(k) && Known(k, p) && In(k, p, S.Sleeping) && GoodMemory(t.m)
    ensures Inv(Framed(k, p, t))
  {
    hide Inv, D.Exact, D.KeepsObjects, KeepsFiles, S.Sound, Flowing, GoodMemory, SleepsAtCall;
    InvParts(k);
    SelfFromInv(k, p);
    S.OpKeepsSound(k.s, S.WakeUp(p));
    D.KeepsSelf(k.d);
    FilesKept(k.d, k.d);
    FlowKept(k, Framed(k, p, t));
    StepAt(k, Framed(k, p, t), p);
  }

  lemma TakeKeeps(k: K, p: Pid, sig: nat)
    requires Inv(k) && D.Exact(k.d) && Known(k, p) && Domains(k) && 1 <= sig <= 32 && GoodMemory(M(k, p))
    ensures Inv(TakeSignal(k, p, sig))
  {
    hide Inv, D.Exact, ExitProcess, G.Deliver, S.Apply, Domains;
    var t := k.u[p].task;
    var h := t.actions[sig].handler;
    if h == 0 && !(sig == SIGCHLD || sig == SIGCONT) {
      if StopsByDefault(sig) { SchedKeeps(k, S.Stop(p), p); } else { ExitKeeps(k, p, sig); }
    } else if h > 1 && G.Deliver(t, sig).Some? {
      DeliveredMemory(t, sig);
      if In(k, p, S.Sleeping) { FramedKeeps(k, p, G.Deliver(t, sig).value); }
      else { TaskKeeps(k, p, G.Deliver(t, sig).value); }
    }
  }

  lemma DeliverKeeps(k: K, p: Pid)
    requires Inv(k) && D.Exact(k.d) && Known(k, p) && Domains(k) && GoodMemory(M(k, p))
    ensures Inv(DeliverOne(k, p))
  {
    hide Inv, D.Exact, TakeSignal, Domains;
    if !In(k, p, S.Zombie) && Deliverable(k.u[p]) != {} {
      SomeSignal(Deliverable(k.u[p]));
      var sig := Lowest(Deliverable(k.u[p]), 1);
      PendingKeeps(k, p, k.u[p].pending - {sig});
      var k1 := k.(u := k.u[p := k.u[p].(pending := k.u[p].pending - {sig})]);
      DomainsOf(k1);
      TakeKeeps(k1, p, sig);
    }
  }

  // ---- Calls: reading and writing ---------------------------------------------------------------------

  /** A call by p went well: the invariant holds and p still runs. */
  ghost predicate Fine(k: K, o: Outcome, p: Pid) {
    match o
    case Return(k2, _) => Inv(k2) && Known(k2, p) && In(k2, p, S.Running)
    case Blocked(ch) => Known(k, p) && M(k, p).mem.Valid() && Fits(k.d, p, M(k, p), ch)
    case Exits(_) => true
    case Replaced(k2) => Inv(k2)
  }

  lemma StoredMemory(m: Machine, addr: int, data: seq<Byte>)
    requires GoodMemory(m)
    ensures GoodMemory(WriteBytes(m, addr, data).m.(log := [])) && GoodMemory(WriteBytes(m, addr, data).m)
  {
    WriteExact(m.mem, addr, data);
  }

  lemma CopyOutFine(k: K, p: Pid, addr: int, data: seq<Byte>, ret: int)
    requires Inv(k) && Known(k, p) && In(k, p, S.Running) && GoodMemory(M(k, p))
    ensures Fine(k, CopyOut(k, p, addr, data, ret), p) && CopyOut(k, p, addr, data, ret).Return?
  {
    hide Inv, WriteBytes;
    StoredMemory(M(k, p), addr, data);
    var m := WriteBytes(M(k, p), addr, data).m.(log := []);
    TaskKeeps(k, p, k.u[p].task.(m := m));
  }

  lemma AdvanceKeeps(k: K, p: Pid, fd: int, n: int)
    requires Inv(k) && Known(k, p) && In(k, p, S.Running) && D.Exact(k.d) && D.IsOpen(k.d, p, fd)
    ensures Inv(Advance(k, p, fd, n))
    ensures Advance(k, p, fd, n).u == k.u && Advance(k, p, fd, n).s == k.s && Known(Advance(k, p, fd, n), p)
  {
    hide Inv, D.Exact, D.SameCounts;
    D.SlotIsLive(k.d, p, fd);
    var d' := Advance(k, p, fd, n).d;
    PositionOnly(k.d, k.d.tables[p][fd].value, n);
    D.SameCountsExact(k.d, d');
    D.SameTable(k.d.tables, p, k.d.tables[p]);
    DescKeeps(k, d', p);
  }

  lemma PositionOnly(d: D.Desc, f: D.FileId, n: int)
    requires f in d.files
    ensures var d' := d.(files := d.files[f := d.files[f].(pos := d.files[f].pos + n)]);
      D.SameCounts(d, d') && D.KeepsObjects(d, d')
  {
  }

  /** Bytes through a pipe, counted in its log. */
  lemma PipeStepKeeps(k: K, p: Pid, q: PipeId, v: P.PipeValue, log: Log)
    requires Inv(k) && Known(k, p) && In(k, p, S.Running) && q in k.d.pipes
    requires v.readers == k.d.pipes[q].readers && v.writers == k.d.pipes[q].writers
    requires P.Conserved(P.Traffic(v, log.accepted, log.delivered))
    ensures Inv(WithPipe(k, q, v, log))
  {
    hide Inv, D.Exact, D.SameCounts, S.Sound, GoodMemory, SleepsAtCall, P.Conserved;
    InvParts(k);
    SelfFromInv(k, p);
    var k' := WithPipe(k, q, v, log);
    PipeOnly(k.d, q, v);
    D.SameCountsExact(k.d, k'.d);
    forall r | r in k'.d.pipes ensures Flows(k', r) {
      if r != q { assert Flows(k, r); }
    }
    StepAt(k, k', p);
  }

  lemma PipeOnly(d: D.Desc, q: PipeId, v: P.PipeValue)
    requires q in d.pipes && v.readers == d.pipes[q].readers && v.writers == d.pipes[q].writers
    ensures D.SameCounts(d, d.(pipes := d.pipes[q := v]))
  {
  }

  lemma PipeKnown(k: K, p: Pid, fd: int, q: PipeId)
    requires D.Exact(k.d) && ObjectAt(k.d, p, fd) == Some(D.PipeEnd(q))
    ensures q in k.d.pipes
  {
    var f := k.d.tables[p][fd].value;
    assert f in k.d.files && k.d.files[f].obj.PipeEnd?;
  }

  lemma FlowOf(k: K, q: PipeId)
    requires Inv(k) && q in k.d.pipes
    ensures P.Conserved(P.Traffic(k.d.pipes[q], LogOf(k, q).accepted, LogOf(k, q).delivered))
  {
    assert Flows(k, q);
  }

  lemma ReadFine(k: K, p: Pid, env: Env)
    requires Inv(k) && CanCall(k, p) && In(k, p, S.Running) && GoodMemory(M(k, p)) && M(k, p).regs[EAX] == 3
    ensures Fine(k, ReadCall(k, p, env), p)
  {
    hide Inv, D.Exact, CopyOut, Advance, GoodMemory, P.Conserved, Domains;
    var m := M(k, p);
    var fd, buf, count := m.regs[EBX], m.regs[ECX], m.regs[EDX];
    var o := ObjectAt(k.d, p, fd);
    if o.Some? && count != 0 {
      match o.value
      case Node(_) =>
        AdvanceKeeps(k, p, fd, |env.data|);
        CopyOutFine(Advance(k, p, fd, |env.data|), p, buf, env.data, |env.data|);
      case PipeEnd(q) =>
        PipeKnown(k, p, fd, q);
        FlowOf(k, q);
        var t, log := P.ReadPipe(k.d.pipes[q], count), LogOf(k, q);
        if t.Moved? {
          P.OpConserves(P.Traffic(k.d.pipes[q], log.accepted, log.delivered), P.Read(count));
          var k1 := WithPipe(k, q, t.pipe, log.(delivered := log.delivered + t.data));
          PipeStepKeeps(k, p, q, t.pipe, log.(delivered := log.delivered + t.data));
          CopyOutFine(k1, p, buf, t.data, |t.data|);
        }
      case Null =>
      case Terminal =>
        if env.tty.Some? { CopyOutFine(k, p, buf, env.tty.value, |env.tty.value|); }
    }
  }

  lemma WriteFine(k: K, p: Pid, env: Env)
    requires Inv(k) && CanCall(k, p) && In(k, p, S.Running) && M(k, p).regs[EAX] == 4
    ensures Fine(k, WriteCall(k, p, env), p)
  {
    hide Inv, D.Exact, Advance, P.Conserved, Domains;
    var m := M(k, p);
    var fd, buf, count := m.regs[EBX], m.regs[ECX], m.regs[EDX];
    var o := ObjectAt(k.d, p, fd);
    if o.Some? && count != 0 && m.mem.Read(buf, count).Some? {
      var data := m.mem.Read(buf, count).value;
      match o.value
      case Node(_) => AdvanceKeeps(k, p, fd, WrittenTo(k, p, fd, env, |data|));
      case PipeEnd(q) =>
        PipeKnown(k, p, fd, q);
        FlowOf(k, q);
        var t, log := P.WritePipe(k.d.pipes[q], data), LogOf(k, q);
        if t.Moved? {
          P.OpConserves(P.Traffic(k.d.pipes[q], log.accepted, log.delivered), P.Write(data));
          PipeStepKeeps(k, p, q, t.pipe, log.(accepted := log.accepted + t.data));
        }
      case Null =>
      case Terminal =>
    }
  }

  // ---- Calls: descriptors ------------------------------------------------------------------------------

  lemma DescFine(k: K, p: Pid, r: D.Ret)
    requires Inv(k) && Known(k, p) && In(k, p, S.Running)
    requires D.Exact(r.d) && D.KeepsObjects(k.d, r.d) && p in r.d.tables && r.d.tables == k.d.tables[p := r.d.tables[p]]
    ensures Fine(k, WithDesc(k, r), p)
  {
    hide Inv, D.Exact, D.KeepsObjects;
    DescKeeps(k, r.d, p);
  }

  lemma OwnTable(tables: map<Pid, D.Table>, p: Pid, i: nat, v: Option<D.FileId>)
    requires p in tables && i < D.NR_OPEN
    ensures var t := tables[p := tables[p][i := v]]; p in t && t == tables[p := t[p]]
    ensures tables == tables[p := tables[p]]
  {
  }

  lemma CloseFine(k: K, p: Pid, fd: int)
    requires Inv(k) && CanCall(k, p) && In(k, p, S.Running)
    ensures Fine(k, WithDesc(k, D.Close(k.d, p, fd)), p)
  {
    hide Inv, D.Exact, D.KeepsObjects, D.Close;
    OwnTable(k.d.tables, p, if 0 <= fd < D.NR_OPEN then fd else 0, None);
    DescFine(k, p, D.Close(k.d, p, fd));
  }

  lemma DupFine(k: K, p: Pid, fd: int, start: nat)
    requires Inv(k) && CanCall(k, p) && In(k, p, S.Running)
    ensures Fine(k, WithDesc(k, D.DupFrom(k.d, p, fd, start)), p)
  {
    hide Inv, D.Exact, D.KeepsObjects, D.DupFrom;
    var r := D.DupFrom(k.d, p, fd, start);
    if D.IsOpen(k.d, p, fd) { OwnTable(k.d.tables, p, if 0 <= r.r < D.NR_OPEN then r.r else 0, k.d.tables[p][fd]); }
    else { OwnTable(k.d.tables, p, 0, None); }
    DescFine(k, p, r);
  }

  lemma Dup2Fine(k: K, p: Pid, fd: int, newFd: int)
    requires Inv(k) && CanCall(k, p) && In(k, p, S.Running)
    ensures Fine(k, WithDesc(k, D.Dup2(k.d, p, fd, newFd)), p)
  {
    hide Inv, D.Exact, D.KeepsObjects, D.Dup2;
    D.Dup2Result(k.d, p, fd, newFd);
    if D.IsOpen(k.d, p, fd) && 0 <= newFd < D.NR_OPEN { OwnTable(k.d.tables, p, newFd, k.d.tables[p][fd]); }
    else { OwnTable(k.d.tables, p, 0, None); }
    DescFine(k, p, D.Dup2(k.d, p, fd, newFd));
  }

  lemma OpenFine(k: K, p: Pid, env: Env, obj: D.Object, access: nat, append: bool)
    requires Inv(k) && CanCall(k, p) && In(k, p, S.Running) && !obj.PipeEnd?
    ensures Fine(k, Opened(k, p, env, D.OpenObject(k.d, p, obj, access, append)), p)
  {
    hide Inv, D.Exact, D.KeepsObjects, D.OpenObject, Advance, D.IsOpen;
    var r := D.OpenObject(k.d, p, obj, access, append);
    OwnTable(k.d.tables, p, if 0 <= r.r < D.NR_OPEN then r.r else 0, Some(k.d.nextFile));
    DescFine(k, p, r);
    if D.IsOpen(r.d, p, r.r) { AdvanceKeeps(k.(d := r.d), p, r.r, env.ret); }
  }

  lemma PipeFine(k: K, p: Pid)
    requires Inv(k) && CanCall(k, p) && In(k, p, S.Running)
    ensures var r := D.MakePipe(k.d, p);
      Inv(k.(d := r.d)) && Known(k.(d := r.d), p) && (r.r == 0 <==> D.FreePair(k.d.tables[p]).Some?)
  {
    hide Inv, D.Exact, D.KeepsObjects, D.MakePipe;
    var r := D.MakePipe(k.d, p);
    if D.FreePair(k.d.tables[p]).Some? {
      D.PipeMade(k.d, p);
      var fds := D.FreePair(k.d.tables[p]).value;
      assert r.d.tables == k.d.tables[p := r.d.tables[p]];
    } else {
      OwnTable(k.d.tables, p, 0, None);
    }
    DescKeeps(k, r.d, p);
  }

  lemma CopyPairFine(k: K, p: Pid, addr: int, v: int, w: int)
    requires Inv(k) && Known(k, p) && In(k, p, S.Running) && GoodMemory(M(k, p))
    ensures Fine(k, CopyPair(k, p, addr, v, w), p) && CopyPair(k, p, addr, v, w).Return?
  {
    hide Inv, WriteBytes, Bytes;
    StoredMemory(M(k, p), addr, Bytes(v, 4));
    var r := WriteMem(M(k, p), addr, 4, v);
    if r.Ok? {
      StoredMemory(r.m, addr + 4, Bytes(w, 4));
      TaskKeeps(k, p, k.u[p].task.(m := WriteMem(r.m, addr + 4, 4, w).m.(log := [])));
    } else {
      TaskKeeps(k, p, k.u[p].task.(m := r.m.(log := [])));
    }
  }

  lemma FcntlFine(k: K, p: Pid)
    requires Inv(k) && CanCall(k, p) && In(k, p, S.Running)
    ensures Fine(k, FcntlCall(k, p), p)
  {
    hide Inv, D.Exact, D.KeepsObjects, D.SetStatus, StatusFlags;
    var m := M(k, p);
    var fd, cmd, arg := m.regs[EBX], m.regs[ECX], m.regs[EDX];
    if D.IsOpen(k.d, p, fd) {
      DupFine(k, p, fd, arg);
      D.MarksKnown(k.d, p);
      D.MarksIrrelevant(k.d, p, if arg % 2 == 1 then k.d.marks[p] + {fd} else k.d.marks[p] - {fd});
      OwnTable(k.d.tables, p, 0, None);
      if cmd == 2 {
        DescKeeps(k, k.d.(marks := k.d.marks[p := if arg % 2 == 1 then k.d.marks[p] + {fd} else k.d.marks[p] - {fd}]), p);
      } else if cmd == 4 {
        DescKeeps(k, D.SetStatus(k.d, p, fd, arg / 0x400 % 2 == 1, arg / 0x800 % 2 == 1), p);
      }
    }
  }

  lemma SeekFine(k: K, p: Pid, env: Env)
    requires Inv(k) && CanCall(k, p) && In(k, p, S.Running)
    ensures Fine(k, SeekCall(k, p, env), p)
  {
    hide Inv, D.Exact, Advance;
    var m := M(k, p);
    var fd := m.regs[EBX];
    if ObjectAt(k.d, p, fd).Some? && ObjectAt(k.d, p, fd).value.Node? {
      var at := k.d.files[k.d.tables[p][fd].value].pos;
      var base := if m.regs[EDX] == 0 then 0 else if m.regs[EDX] == 1 then at else env.ret;
      AdvanceKeeps(k, p, fd, base + Signed32(m.regs[ECX]) - at);
    }
  }

  lemma DescCallFine(k: K, p: Pid, env: Env)
    requires Inv(k) && CanCall(k, p) && In(k, p, S.Running) && GoodMemory(M(k, p))
    ensures Fine(k, DescCall(k, p, env), p)
  {
    hide Inv, D.Exact, Fine, GoodMemory, WithDesc, FcntlCall, SeekCall, CopyPair, Opened;
    var m := M(k, p);
    var nr, a, b := m.regs[EAX], m.regs[EBX], m.regs[ECX];
    if nr == 6 { CloseFine(k, p, a); }
    else if nr == 41 { DupFine(k, p, a, 0); }
    else if nr == 63 { Dup2Fine(k, p, a, b); }
    else if nr == 55 { FcntlFine(k, p); }
    else if nr == 19 { SeekFine(k, p, env); }
    else if nr == 42 {
      PipeFine(k, p);
      var r := D.MakePipe(k.d, p);
      if r.r == 0 {
        var fds := D.FreePair(k.d.tables[p]).value;
        CopyPairFine(k.(d := r.d), p, a, fds.0, fds.1);
        ReturnsFine(k, k.(d := r.d), CopyPair(k.(d := r.d), p, a, fds.0, fds.1), p);
      } else {
        ReturnFine(k, k.(d := r.d), r.r, p);
      }
    } else {
      ReturnFine(k, k, env.ret, p);
      if env.found.Some? && !env.found.value.PipeEnd? {
        OpenFine(k, p, env, env.found.value, if nr == 8 then 1 else b % 4, nr == 5 && b / 0x400 % 2 == 1);
      }
    }
  }

  lemma ReturnFine(k: K, k2: K, ret: int, p: Pid)
    requires Inv(k2) && Known(k2, p) && In(k2, p, S.Running)
    ensures Fine(k, Return(k2, ret), p)
  {
  }

  lemma ReturnsFine(k: K, k1: K, o: Outcome, p: Pid)
    requires o.Return? && Fine(k1, o, p)
    ensures Fine(k, o, p)
  {
  }

  // ---- Calls: processes ---------------------------------------------------------------------------------

  lemma ForkFine(k: K, p: Pid)
    requires Inv(k) && CanCall(k, p) && In(k, p, S.Running)
    ensures Fine(k, ForkCall(k, p), p)
  {
    hide Inv, D.Exact, D.KeepsObjects, KeepsFiles, D.ForkTable, S.Sound, Flowing, SleepsAtCall;
    var c, k2 := k.nextPid, ForkCall(k, p).k;
    InvParts(k);
    SelfFromInv(k, p);
    D.MarksKnown(k.d, p);
    D.ForkResult(k.d, p, c);
    S.OpKeepsSound(k.s, S.Admit(c, S.Info(S.Running, false, p, k.s.procs[p].pgrp, 0)));
    FilesKept(k.d, k2.d);
    FlowKept(k, k2);
    StepAt(k, k2, c);
  }

  lemma WaitFine(k: K, p: Pid)
    requires Inv(k) && CanCall(k, p) && In(k, p, S.Running) && GoodMemory(M(k, p)) && M(k, p).regs[EAX] == 7
    ensures Fine(k, WaitCall(k, p), p)
  {
    hide Inv, D.Exact, Reap, Wanted, WriteBytes, Bytes, Domains;
    var m := M(k, p);
    var pid, statp := Signed32(m.regs[EBX]), m.regs[ECX];
    if HasWanted(k, p, pid) {
      var z := FirstZombie(k, p, pid, 0);
      if z.Some? {
        DomainsOf(k);
        var data := Bytes(k.s.procs[z.value].exitCode, 4);
        StoredMemory(m, statp, data);
        var k1 := WithMachine(k, p, WriteBytes(m, statp, data).m.(log := []));
        TaskKeeps(k, p, k1.u[p].task);
        ReapFine(k, p, z.value);
        ReapFine(k1, p, z.value);
      }
    }
  }

  lemma ReapFine(k: K, p: Pid, q: Pid)
    requires Inv(k) && Known(k, p) && In(k, p, S.Running) && Known(k, q) && In(k, q, S.Zombie)
    ensures Inv(Reap(k, q)) && Known(Reap(k, q), p) && In(Reap(k, q), p, S.Running)
  {
    hide Inv;
    ReapKeeps(k, q);
  }

  lemma ExecFine(k: K, p: Pid, env: Env)
    requires Inv(k) && CanCall(k, p) && In(k, p, S.Running) && GoodEnv(env)
    ensures Fine(k, ExecCall(k, p, env), p)
  {
    hide Inv, D.Exact, D.KeepsObjects, D.ExecTable;
    if env.image.Some? {
      D.MarksKnown(k.d, p);
      D.ExecResult(k.d, p);
      var t := k.u[p].task;
      DescKeeps(k, D.ExecTable(k.d, p), p);
      TaskKeeps(k.(d := D.ExecTable(k.d, p)), p, G.Task(env.image.value, t.blocked, [], ResetActions(t.actions)));
    }
  }

  lemma PostLeavesRunning(k: K, q: Pid, sig: int, p: Pid)
    requires Known(k, q) && In(k, p, S.Running)
    ensures In(PostSignal(k, q, sig), p, S.Running)
  {
  }

  lemma {:induction false} PostAllLeavesRunning(k: K, ps: seq<Pid>, sig: int, p: Pid)
    requires (forall q :: q in ps ==> Known(k, q)) && Known(k, p) && In(k, p, S.Running)
    ensures In(PostAll(k, ps, sig), p, S.Running) && Known(PostAll(k, ps, sig), p)
    decreases |ps|
  {
    hide PostSignal;
    if |ps| > 0 {
      PostLeavesRunning(k, ps[0], sig, p);
      var k1 := PostSignal(k, ps[0], sig);
      assert forall q :: q in ps[1..] ==> q in ps && (Known(k1, q) <==> Known(k, q));
      PostAllLeavesRunning(k1, ps[1..], sig, p);
    }
  }

  lemma KillFine(k: K, p: Pid)
    requires Inv(k) && CanCall(k, p) && In(k, p, S.Running)
    ensures Fine(k, KillCall(k, p), p)
  {
    hide Inv, D.Exact, Targets, PostAll;
    var m := M(k, p);
    var targets := Targets(k, p, Signed32(m.regs[EBX]), 0);
    DomainsOf(k);
    assert forall q :: q in targets ==> Known(k, q);
    PostAllKeeps(k, targets, m.regs[ECX]);
    PostAllLeavesRunning(k, targets, m.regs[ECX], p);
  }

  lemma GroupFine(k: K, p: Pid, target: Pid, g: int)
    requires Inv(k) && Known(k, p) && In(k, p, S.Running) && Known(k, target)
    ensures Fine(k, Return(k.(s := S.Apply(k.s, S.SetGroup(target, g))), 0), p)
  {
    hide Inv;
    SchedKeeps(k, S.SetGroup(target, g), target);
  }

  lemma GroupResult(k: K, p: Pid)
    ensures Fine(k, Return(k.(s := S.Apply(k.s, S.SetGroup(p, p))), 0), p)
        ==> Fine(k, Return(k.(s := S.Apply(k.s, S.SetGroup(p, p))), p), p)
  {
    hide Inv;
  }

  lemma ActionKeeps(k: K, p: Pid, sig: nat, a: G.Action)
    requires Inv(k) && Known(k, p) && In(k, p, S.Running) && sig < 33
    ensures Inv(WithAction(k, p, sig, a))
  {
    hide Inv;
    DomainsOf(k);
    TaskKeeps(k, p, k.u[p].task.(actions := k.u[p].task.actions[sig := a]));
  }

  lemma SignalFine(k: K, p: Pid)
    requires Inv(k) && CanCall(k, p) && In(k, p, S.Running)
    ensures Fine(k, SignalCall(k, p), p)
  {
    hide Inv, D.Exact, Domains;
    var m := M(k, p);
    if Changeable(m.regs[EBX]) { ActionKeeps(k, p, m.regs[EBX], G.Action(m.regs[ECX], 0, 0xC000_0000, m.regs[EDX])); }
  }

  lemma StoredAction(m: Machine, addr: int, a: G.Action)
    requires GoodMemory(m)
    ensures var r := StoreAction(m, addr, a).m; GoodMemory(r.(log := [])) && r == m.(mem := r.mem, log := r.log)
  {
    hide WriteMem;
    StoredWord(m, addr, a.handler);
    var m1 := WriteMem(m, addr, 4, a.handler).m;
    StoredWord(m1, addr + 4, a.mask);
    var m2 := WriteMem(m1, addr + 4, 4, a.mask).m;
    StoredWord(m2, addr + 8, a.flags);
    StoredWord(WriteMem(m2, addr + 8, 4, a.flags).m, addr + 12, a.restorer);
  }

  lemma StoredWord(m: Machine, addr: int, v: Word)
    requires GoodMemory(m)
    ensures var r := WriteMem(m, addr, 4, v).m; GoodMemory(r) && GoodMemory(r.(log := [])) && r == m.(mem := r.mem, log := r.log)
  {
    hide Bytes;
    StoredMemory(m, addr, Bytes(v, 4));
  }

  lemma SigactionFine(k: K, p: Pid)
    requires Inv(k) && CanCall(k, p) && In(k, p, S.Running) && GoodMemory(M(k, p))
    ensures Fine(k, SigactionCall(k, p), p)
  {
    hide Inv, D.Exact, Domains, StoreAction, LoadAction, GoodMemory;
    var m := M(k, p);
    var sig, newp, oldp := m.regs[EBX], m.regs[ECX], m.regs[EDX];
    if Changeable(sig) {
      var a := k.u[p].task.actions[sig];
      StoredAction(m, oldp, a);
      var r := if oldp == 0 then Done(m) else StoreAction(m, oldp, a);
      GoodWithoutLog(m);
      TaskKeeps(k, p, k.u[p].task.(m := r.m.(log := [])));
      var k1 := WithMachine(k, p, r.m.(log := []));
      if LoadAction(r.m.mem, newp).Some? { ActionKeeps(k1, p, sig, LoadAction(r.m.mem, newp).value); }
    }
  }

  lemma GoodWithoutLog(m: Machine)
    requires GoodMemory(m)
    ensures GoodMemory(m.(log := []))
  {
  }

  lemma ProcCallFine(k: K, p: Pid, env: Env)
    requires Inv(k) && CanCall(k, p) && In(k, p, S.Running) && GoodMemory(M(k, p)) && GoodEnv(env)
    ensures Fine(k, ProcCall(k, p, env), p)
  {
    hide Inv, D.Exact, Fine, ForkCall, WaitCall, ExecCall, KillCall, SignalCall, SigactionCall, S.Apply, NewMask;
    var m := M(k, p);
    var nr, a, b := m.regs[EAX], m.regs[EBX], m.regs[ECX];
    if nr == 1 { ExitsFine(k, p, a % 0x100 * 0x100); }
    else if nr == 2 { ForkFine(k, p); }
    else if nr == 7 { WaitFine(k, p); }
    else if nr == 11 { ExecFine(k, p, env); }
    else if nr == 29 { PauseFine(k, p); }
    else if nr == 37 { KillFine(k, p); }
    else if nr == 57 {
      var target := if a == 0 then p else a;
      DomainsOf(k);
      ReturnFine(k, k, -ESRCH, p);
      if target in k.s.procs { GroupFine(k, p, target, if b == 0 then target else b); }
    }
    else if nr == 48 { SignalFine(k, p); }
    else if nr == 67 { SigactionFine(k, p); }
    else if nr == 66 {
      ReturnFine(k, k, -EPERM, p);
      GroupFine(k, p, p, p);
      GroupResult(k, p);
    } else {
      ReturnFine(k, k, k.u[p].task.blocked, p);
      TaskKeeps(k, p, k.u[p].task.(blocked := NewMask(a)));
      TaskKeeps(k, p, k.u[p].task.(m := m.(mem := env.mem)));
      ReturnFine(k, WithTask(k, p, k.u[p].task.(blocked := NewMask(a))), k.u[p].task.blocked, p);
      ReturnFine(k, WithMachine(k, p, m.(mem := env.mem)), env.ret, p);
    }
  }

  lemma ExitsFine(k: K, p: Pid, code: int)
    ensures Fine(k, Exits(code), p)
  {
  }

  lemma PauseFine(k: K, p: Pid)
    requires Known(k, p) && M(k, p).mem.Valid() && M(k, p).regs[EAX] == 29
    ensures Fine(k, Blocked(Pausing(p)), p)
  {
  }

  lemma DispatchFine(k: K, p: Pid, env: Env)
    requires Inv(k) && CanCall(k, p) && In(k, p, S.Running) && GoodMemory(M(k, p)) && GoodEnv(env)
    ensures Fine(k, Dispatch(k, p, env), p)
  {
    hide Inv, D.Exact, Fine, ReadCall, WriteCall, DescCall, ProcCall, GoodMemory;
    ReadOrNot(k, p, env);
  }

  lemma ReadOrNot(k: K, p: Pid, env: Env)
    requires Inv(k) && CanCall(k, p) && In(k, p, S.Running) && GoodMemory(M(k, p)) && GoodEnv(env)
    ensures M(k, p).regs[EAX] == 3 ==> Fine(k, ReadCall(k, p, env), p)
    ensures M(k, p).regs[EAX] == 4 ==> Fine(k, WriteCall(k, p, env), p)
    ensures Fine(k, DescCall(k, p, env), p) && Fine(k, ProcCall(k, p, env), p)
  {
    hide Inv, D.Exact, Fine, ReadCall, WriteCall, DescCall, ProcCall, GoodMemory;
    if M(k, p).regs[EAX] == 3 { ReadFine(k, p, env); }
    if M(k, p).regs[EAX] == 4 { WriteFine(k, p, env); }
    DescCallFine(k, p, env);
    ProcCallFine(k, p, env);
  }

  // ---- The system call as a step ------------------------------------------------------------------------

  /** Going back to the trap leaves the process on the two-byte instruction, whatever prefixes the
      original one had. */
  lemma BackAtTrap(m: Machine)
    requires GoodMemory(m) && Traps(m)
    ensures GoodMemory(PastTrap(m)) && AtTrap(PastTrap(m).(eip := PastTrap(m).eip - 2))
  {
    hide Decode;
    L.Trap80Bytes(m.mem, m.eip);
  }

  lemma SleepKeeps(k: K, p: Pid, ch: Channel)
    requires Inv(k) && Known(k, p) && In(k, p, S.Running) && GoodMemory(M(k, p))
    requires AtTrap(M(k, p).(eip := M(k, p).eip - 2)) && Fits(k.d, p, M(k, p), ch)
    ensures Inv(Sleep(k, p, ch))
  {
    hide Inv, D.Exact, D.KeepsObjects, KeepsFiles, S.Sound, Flowing, AtTrap, Fits, Image.Valid, Image.Disjoint;
    var k' := Sleep(k, p, ch);
    InvParts(k);
    SelfFromInv(k, p);
    S.OpKeepsSound(k.s, S.Block(p));
    D.KeepsSelf(k.d);
    FilesKept(k.d, k.d);
    FlowKept(k, k');
    StillFits(k.d, p, M(k, p), M(k', p), ch);
    StepAt(k, k', p);
  }

  lemma StillFits(d: D.Desc, p: Pid, m: Machine, m': Machine, ch: Channel)
    requires m.mem.Valid() && Fits(d, p, m, ch) && m' == m.(eip := m'.eip)
    ensures Fits(d, p, m', ch)
  {
  }

  lemma ResultKeeps(k: K, p: Pid, ret: int)
    requires Inv(k) && Known(k, p) && In(k, p, S.Running)
    ensures Inv(SetResult(k, p, ret))
  {
    hide Inv;
    DomainsOf(k);
    TaskKeeps(k, p, k.u[p].task.(m := M(k, p).(regs := M(k, p).regs[EAX := Mask32(ret)])));
  }

  lemma PastKeeps(k: K, p: Pid)
    requires Inv(k) && CanCall(k, p) && In(k, p, S.Running) && GoodMemory(M(k, p)) && Traps(M(k, p))
    ensures Inv(PastState(k, p)) && CanCall(PastState(k, p), p) && In(PastState(k, p), p, S.Running)
    ensures GoodMemory(M(PastState(k, p), p))
  {
    hide Inv, D.Exact, Traps, PastTrap;
    BackAtTrap(M(k, p));
    TaskKeeps(k, p, k.u[p].task.(m := PastTrap(M(k, p))));
    DomainsOf(PastState(k, p));
  }

  lemma CallKeeps(k: K, p: Pid, env: Env)
    requires Inv(k) && CanCall(k, p) && In(k, p, S.Running) && GoodMemory(M(k, p)) && GoodEnv(env) && Traps(M(k, p))
    ensures Inv(SystemCall(k, p, env))
  {
    hide Inv, D.Exact, Domains, Traps, PastTrap, Dispatch, Sleep, ExitProcess, SetResult, GoodEnv, AtTrap;
    PastKeeps(k, p);
    BackAtTrap(M(k, p));
    var k1 := PastState(k, p);
    DispatchFine(k1, p, env);
    match Dispatch(k1, p, env)
    case Return(k2, ret) => ResultKeeps(k2, p, ret);
    case Blocked(ch) => SleepKeeps(k1, p, ch);
    case Exits(code) => DomainsOf(k1); ExitKeeps(k1, p, code);
    case Replaced(k2) =>
  }

  // ---- The other steps ------------------------------------------------------------------------------------

  lemma PollKeeps(k: K, p: Pid, ttyReady: bool)
    requires Inv(k) && Known(k, p)
    ensures Inv(Poll(k, p, ttyReady))
  {
    hide Inv, Wake, PollReady;
    WakeKeeps(k, p, false);
  }

  lemma PickKeeps(k: K)
    requires Inv(k)
    ensures Inv(k.(s := S.Pick(k.s).1))
  {
    hide Inv, D.Exact, D.KeepsObjects, KeepsFiles, S.Sound, S.Pick, Flowing, GoodMemory, SleepsAtCall;
    InvParts(k);
    S.PickExact(k.s);
    var k' := k.(s := S.Pick(k.s).1);
    D.KeepsSelf(k.d);
    FilesKept(k.d, k.d);
    FlowKept(k, k');
    SelfFromInv(k, 0);
    if Known(k, 0) && In(k, 0, S.Sleeping) { SleepKept(k, k', 0); }
    StepAt(k, k', 0);
  }

  lemma ShellTableResult(d: D.Desc, c: Pid, tty: bool, script: Option<nat>)
    requires D.Exact(d) && c !in d.tables
    ensures var r := ShellTable(d, c, tty, script);
      D.KeepsObjects(d, r) && c in r.tables && r.tables == d.tables[c := r.tables[c]]
  {
    hide D.Exact, D.KeepsObjects, D.AddTable, StdFiles, ScriptOnZero;
    D.NewTable(d, c, {});
    AddedTable(d, c);
    var d0 := D.AddTable(d, c, {});
    if tty { StdFilesResult(d0, c); D.KeepsTrans(d, d0, StdFiles(d0, c)); }
    var d1 := if tty then StdFiles(d0, c) else d0;
    if script.Some? {
      ScriptResult(d1, c, script.value);
      D.KeepsTrans(d, d1, ScriptOnZero(d1, c, script.value));
    }
  }

  lemma AddedTable(d: D.Desc, c: Pid)
    ensures D.AddTable(d, c, {}).tables == d.tables[c := D.NoFiles()]
  {
  }

  lemma StdFilesResult(d: D.Desc, c: Pid)
    requires D.Exact(d) && c in d.tables && d.tables[c] == D.NoFiles()
    ensures var r := StdFiles(d, c);
      D.KeepsObjects(d, r) && c in r.tables && r.tables == d.tables[c := r.tables[c]]
  {
    hide D.Exact, D.KeepsObjects, D.InstallNew, D.Install;
    D.Opening(d, c, 0, D.Terminal, 0, false);
    var d1 := D.InstallNew(d, c, 0, D.Terminal, 0, false);
    D.Opening(d1, c, 1, D.Terminal, 1, false);
    var d2 := D.InstallNew(d1, c, 1, D.Terminal, 1, false);
    D.Sharing(d2, c, 1, c, 2);
    D.KeepsTrans(d, d1, d2);
    D.KeepsTrans(d, d2, StdFiles(d, c));
  }

  lemma ScriptResult(d: D.Desc, c: Pid, ino: nat)
    requires D.Exact(d) && c in d.tables
    ensures var r := ScriptOnZero(d, c, ino);
      D.KeepsObjects(d, r) && c in r.tables && r.tables == d.tables[c := r.tables[c]]
  {
    hide D.Exact, D.KeepsObjects, D.InstallNew, D.Close;
    D.ClosedSlotFree(d, c, 0);
    var d1 := D.Close(d, c, 0).d;
    D.Opening(d1, c, 0, D.Node(ino), 0, false);
    D.KeepsTrans(d, d1, ScriptOnZero(d, c, ino));
  }

  lemma SpawnKeeps(k: K, m: Machine, tty: bool, script: Option<nat>)
    requires Inv(k) && D.Exact(k.d) && Domains(k) && GoodMemory(m)
    ensures Inv(Spawn(k, m, tty, script))
  {
    hide Inv, D.Exact, D.KeepsObjects, KeepsFiles, ShellTable, S.Sound, Flowing, SleepsAtCall;
    var c, k' := k.nextPid, Spawn(k, m, tty, script);
    InvParts(k);
    ShellTableResult(k.d, c, tty, script);
    S.OpKeepsSound(k.s, S.Admit(c, S.Info(S.Running, false, 1, c, 0)));
    FilesKept(k.d, k'.d);
    FlowKept(k, k');
    StepAt(k, k', c);
  }

  lemma ReturnMemory(t: G.Task)
    requires GoodMemory(t.m) && G.SigReturn(t).Some?
    ensures GoodMemory(G.SigReturn(t).value.m)
  {
    hide G.PopContext, Pop;
  }

  /** Every step keeps every invariant. */
  lemma StepKeepsInv(k: K, ev: Step)
    requires Inv(k) && Enabled(k, ev)
    ensures Inv(Next(k, ev))
  {
    hide Inv, D.Exact, Domains, GoodEnv, SystemCall, ExitProcess, Poll, PostSignal, DeliverOne, Spawn, Reap,
         S.Pick, S.Apply, G.SigReturn, Traps;
    DomainsOf(k);
    EnabledFacts(k, ev);
    match ev
    case UserRan(p, m) => TaskKeeps(k, p, k.u[p].task.(m := m));
    case Trapped(p, env) => CallKeeps(k, p, env);
    case Returned(p) => ReturnMemory(k.u[p].task); TaskKeeps(k, p, G.SigReturn(k.u[p].task).value);
    case Ended(p, code) => ExitKeeps(k, p, code);
    case Polled(p, ttyReady) => PollKeeps(k, p, ttyReady);
    case Posted(p, sig) => PostKeeps(k, p, sig);
    case Delivered(p) => DeliverKeeps(k, p);
    case PickedNext => PickKeeps(k);
    case Spawned(m, tty, script) => SpawnKeeps(k, m, tty, script);
    case InitReaped(p) => ReapKeeps(k, p);
  }

  lemma EnabledFacts(k: K, ev: Step)
    requires Inv(k) && Enabled(k, ev)
    ensures ev.Trapped? ==> CanCall(k, ev.p) && In(k, ev.p, S.Running)
    ensures ev.UserRan? || ev.Returned? || ev.Ended? ==> In(k, ev.p, S.Running)
  {
    hide D.Exact, Traps, GoodEnv, G.SigReturn;
    DomainsOf(k);
  }
}
