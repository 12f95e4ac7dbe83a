/** The kernel as a transition system (kernel.py): system calls, sleep by exception and re-execution,
    polled wake-ups, signals, exits and picks are the steps; the invariants hold in every reachable
    state. Descriptor counting and queue handling come from their own modules.

    A process's fields are grouped by concern: its descriptor table lives in `d`, its scheduling state
    in `s`, the rest in `u`. */
module Kernel {
  import opened Words
  import opened Memory
  import opened Decoder
  import opened Handlers
  import opened Interpreter
  import P = Pipes
  import D = Descriptors
  import S = Scheduler
  import G = Signals

  const EPERM: int := 1
  const EINTR: int := 4
  const EBADF: int := 9
  const ECHILD: int := 10
  const EFAULT: int := 14
  const EINVAL: int := 22
  const ESPIPE: int := 29
  const EPIPE: int := 32
  const ESRCH: int := 3

  const SA_ONESHOT: Word := 0x8000_0000
  const SA_NOMASK: Word := 0x4000_0000

  const SIGKILL: nat := 9
  const SIGCHLD: nat := 17
  const SIGCONT: nat := 18

  type Pid = nat
  type PipeId = nat

  /** What a sleeping process waits for. */
  datatype Channel = PipeRead(pipe: PipeId) | PipeWrite(pipe: PipeId) | WaitFor(pid: Pid) | Pausing(pid: Pid) | TtyRead

  datatype User = User(task: G.Task, pending: set<nat>, channel: Option<Channel>, restart: bool)

  /** Everything a pipe ever accepted and delivered (history variables). */
  datatype Log = Log(accepted: seq<Byte>, delivered: seq<Byte>)

  datatype K = K(d: D.Desc, s: S.Sched, u: map<Pid, User>, logs: map<PipeId, Log>, nextPid: Pid)

  /** What a call takes from the parts of the system that are not modelled: a return value, file
      contents, terminal input (None: nothing ready), the object a path leads to, a program image, and
      the memory after calls that only fill in user structures. */
  datatype Env = Env(ret: int, data: seq<Byte>, tty: Option<seq<Byte>>, found: Option<D.Object>,
                     image: Option<Machine>, mem: Image)

  // ---- Reading the state -----------------------------------------------------------

  predicate Known(k: K, p: Pid) {
    p in k.u && p in k.s.procs && p in k.d.tables
  }

  predicate In(k: K, p: Pid, st: S.RunState) {
    p in k.s.procs && k.s.procs[p].state == st
  }

  function M(k: K, p: Pid): Machine
    requires p in k.u
  {
    k.u[p].task.m
  }

  function LogOf(k: K, q: PipeId): Log {
    if q in k.logs then k.logs[q] else Log([], [])
  }

  /** The object a descriptor leads to. */
  function ObjectAt(d: D.Desc, p: Pid, fd: int): Option<D.Object> {
    if D.IsOpen(d, p, fd) && d.tables[p][fd].value in d.files then Some(d.files[d.tables[p][fd].value].obj) else None
  }

  // ---- Invariants ---------------------------------------------------------------------

  ghost predicate Domains(k: K) {
    && k.d.tables.Keys == k.s.procs.Keys == k.u.Keys
    && (forall p :: p in k.u ==> p < k.nextPid)
    && k.logs.Keys <= k.d.pipes.Keys
  }

  predicate GoodMemory(m: Machine) {
    m.mem.Valid() && m.mem.Disjoint()
  }

  /** A processor state as programs see it. */
  predicate GoodMachine(m: Machine) {
    Ready(m) && m.mem.Disjoint() && 0 <= m.eip < TWO32
  }

  ghost predicate Memories(k: K) {
    forall p :: p in k.u ==> GoodMemory(k.u[p].task.m)
  }

  /** Pipe q has delivered, or still holds, exactly what it accepted, in order. */
  ghost predicate Flows(k: K, q: PipeId)
    requires q in k.d.pipes
  {
    P.Conserved(P.Traffic(k.d.pipes[q], LogOf(k, q).accepted, LogOf(k, q).delivered))
  }

  /** The instruction at eip is the two-byte trap. */
  predicate AtTrap(m: Machine)
    requires m.mem.Valid()
  {
    m.mem.ByteAt(m.eip) == Some(0xCD) && m.mem.ByteAt(m.eip + 1) == Some(0x80)
  }

  /** The registers still hold the call that sleeps on this channel, and its descriptor still leads
      there. */
  predicate Fits(d: D.Desc, p: Pid, m: Machine, ch: Channel)
    requires m.mem.Valid()
  {
    match ch
    case PipeRead(q) => m.regs[EAX] == 3 && m.regs[EDX] != 0 && ObjectAt(d, p, m.regs[EBX]) == Some(D.PipeEnd(q))
    case PipeWrite(q) =>
      && m.regs[EAX] == 4 && m.regs[EDX] != 0 && ObjectAt(d, p, m.regs[EBX]) == Some(D.PipeEnd(q))
      && m.mem.Read(m.regs[ECX], m.regs[EDX]).Some?
    case WaitFor(x) => m.regs[EAX] == 7 && x == p
    case Pausing(x) => m.regs[EAX] == 29 && x == p
    case TtyRead => m.regs[EAX] == 3 && m.regs[EDX] != 0 && ObjectAt(d, p, m.regs[EBX]) == Some(D.Terminal)
  }

  /** A sleeping process sits at its trap, call and arguments intact. */
  ghost predicate SleepsAtCall(k: K, p: Pid)
    requires Known(k, p)
  {
    var u := k.u[p];
    u.restart && u.channel.Some? && GoodMemory(u.task.m) && AtTrap(u.task.m) && Fits(k.d, p, u.task.m, u.channel.value)
  }

  ghost predicate Asleep(k: K) {
    forall p :: Known(k, p) && In(k, p, S.Sleeping) ==> SleepsAtCall(k, p)
  }

  ghost predicate Flowing(k: K) {
    forall q :: q in k.d.pipes ==> Flows(k, q)
  }

  /** The dead hold no descriptors. */
  ghost predicate DeadClosed(k: K) {
    forall p :: Known(k, p) && In(k, p, S.Zombie) ==> k.d.tables[p] == D.NoFiles()
  }

  ghost predicate Inv(k: K) {
    && Domains(k) && D.Exact(k.d) && S.Sound(k.s) && Memories(k) && Flowing(k) && DeadClosed(k)
    && Asleep(k)
  }

  // ---- Waking and signals ----------------------------------------------------------------

  function WithTask(k: K, p: Pid, t: G.Task): K
    requires p in k.u
  {
    k.(u := k.u[p := k.u[p].(task := t)])
  }

  function WithMachine(k: K, p: Pid, m: Machine): K
    requires p in k.u
  {
    WithTask(k, p, k.u[p].task.(m := m))
  }

  /** The user state after EINTR: past the trap, with the error in eax. */
  function Interrupted(t: G.Task): G.Task {
    t.(m := t.m.(eip := Mask32(t.m.eip + 2), regs := t.m.regs[EAX := Mask32(-EINTR)]))
  }

  /** Ending a sleep; an interrupted call is not repeated. */
  function Wake(k: K, p: Pid, interrupted: bool): (r: K)
    requires Known(k, p)
    ensures r.d == k.d && r.u.Keys == k.u.Keys && r.s.procs.Keys == k.s.procs.Keys
  {
    if !In(k, p, S.Sleeping) then k
    else
      var u := k.u[p];
      var u' := if interrupted && u.restart then u.(channel := None, task := Interrupted(u.task), restart := false)
                else u.(channel := None);
      k.(s := S.Apply(k.s, S.WakeUp(p)), u := k.u[p := u'])
  }

  predicate BlockedBit(blocked: Word, sig: nat)
    requires 1 <= sig <= 32
  {
    blocked / Pow2(sig - 1) % 2 == 1
  }

  /** The signal would run a handler or the default action other than ignoring. */
  predicate Noticed(t: G.Task, sig: nat)
    requires 1 <= sig <= 32
  {
    var h := t.actions[sig].handler;
    h != 1 && (h == 0 ==> sig != SIGCHLD && sig != SIGCONT)
  }

  function PostSignal(k: K, p: Pid, sig: int): (r: K)
    requires Known(k, p)
    ensures r.d == k.d && r.u.Keys == k.u.Keys && r.s.procs.Keys == k.s.procs.Keys
  {
    if !(1 <= sig <= 32) then k
    else
      var k1 := k.(u := k.u[p := k.u[p].(pending := k.u[p].pending + {sig})]);
      if In(k, p, S.Sleeping) && !BlockedBit(k.u[p].task.blocked, sig) && Noticed(k.u[p].task, sig)
      then Wake(k1, p, true) else k1
  }

  function PostAll(k: K, ps: seq<Pid>, sig: int): K
    requires forall p :: p in ps ==> Known(k, p)
    decreases |ps|
  {
    if |ps| == 0 then k
    else
      var k1 := PostSignal(k, ps[0], sig);
      assert forall p :: p in ps[1..] ==> p in ps && (Known(k1, p) <==> Known(k, p));
      PostAll(k1, ps[1..], sig)
  }

  /** Exit: descriptors closed, children handed on, parent told and, if it waits, woken. */
  function ExitProcess(k: K, p: Pid, code: int): K
    requires D.Exact(k.d) && Known(k, p) && Domains(k)
  {
    D.ExitResult(k.d, p);
    var k1 := k.(d := D.ExitTable(k.d, p), s := S.Apply(k.s, S.Exit(p, code)));
    var parent := k1.s.procs[p].ppid;
    if parent !in k1.s.procs then k1
    else
      var k2 := PostSignal(k1, parent, SIGCHLD);
      if In(k2, parent, S.Sleeping) && k2.u[parent].channel.Some? && k2.u[parent].channel.value.WaitFor?
      then Wake(k2, parent, false) else k2
  }

  function Reap(k: K, p: Pid): K
    requires Known(k, p)
  {
    K(D.DropTable(k.d, p), S.Apply(k.s, S.Reap(p)), k.u - {p}, k.logs, k.nextPid)
  }

  // ---- Signal delivery -------------------------------------------------------------------------

  /** The pending signals that may be delivered. */
  function Deliverable(u: User): set<nat> {
    set sig | sig in u.pending && 1 <= sig <= 32 && !BlockedBit(u.task.blocked, sig)
  }

  function Lowest(s: set<nat>, i: nat): (m: nat)
    requires i <= 32 && exists x :: x in s && i <= x <= 32
    ensures m in s && i <= m <= 32 && forall x :: x in s && x >= i ==> m <= x
    decreases 32 - i
  {
    if i in s then i else Lowest(s, i + 1)
  }

  predicate StopsByDefault(sig: nat) {
    19 <= sig <= 22
  }

  /** Acting on one signal that has been taken off the pending set. */
  function TakeSignal(k: K, p: Pid, sig: nat): K
    requires D.Exact(k.d) && Known(k, p) && Domains(k) && 1 <= sig <= 32 && M(k, p).mem.Valid()
  {
    var t := k.u[p].task;
    var h := t.actions[sig].handler;
    if h == 1 || (h == 0 && (sig == SIGCHLD || sig == SIGCONT)) then k
    else if h == 0 && StopsByDefault(sig) then k.(s := S.Apply(k.s, S.Stop(p)))
    else if h == 0 then ExitProcess(k, p, sig)
    else
      match G.Deliver(t, sig)
      case None => k
      case Some(t') =>
        if In(k, p, S.Sleeping) then
          k.(s := S.Apply(k.s, S.WakeUp(p)), u := k.u[p := k.u[p].(task := t', channel := None)])
        else WithTask(k, p, t')
  }

  /** One process's turn in the delivery loop. */
  function DeliverOne(k: K, p: Pid): K
    requires D.Exact(k.d) && Known(k, p) && Domains(k) && M(k, p).mem.Valid()
  {
    if In(k, p, S.Zombie) || Deliverable(k.u[p]) == {} then k
    else
      SomeSignal(Deliverable(k.u[p]));
      var sig := Lowest(Deliverable(k.u[p]), 1);
      TakeSignal(k.(u := k.u[p := k.u[p].(pending := k.u[p].pending - {sig})]), p, sig)
  }

  lemma SomeSignal(s: set<nat>)
    requires s != {} && forall x :: x in s ==> 1 <= x <= 32
    ensures exists x :: x in s && 1 <= x <= 32
  {
    var x :| x in s;
  }

  // ---- System calls -------------------------------------------------------------------------------

  /** How a call leaves the dispatcher. */
  datatype Outcome = Return(k: K, ret: int) | Blocked(ch: Channel) | Exits(code: int) | Replaced(k: K)

  /** The caller's part of the state is usable. */
  ghost predicate CanCall(k: K, p: Pid) {
    D.Exact(k.d) && Domains(k) && Known(k, p) && M(k, p).mem.Valid()
  }

  /** Copying out to user memory; a fault there turns the result into EFAULT, but what the call has
      done stays done. */
  function CopyOut(k: K, p: Pid, addr: int, data: seq<Byte>, ret: int): Outcome
    requires p in k.u && M(k, p).mem.Valid()
  {
    var r := WriteBytes(M(k, p), addr, data);
    Return(WithMachine(k, p, r.m.(log := [])), if r.Ok? then ret else -EFAULT)
  }

  function Advance(k: K, p: Pid, fd: int, n: int): K
    requires D.Exact(k.d) && D.IsOpen(k.d, p, fd)
  {
    var f := k.d.tables[p][fd].value;
    k.(d := k.d.(files := k.d.files[f := k.d.files[f].(pos := k.d.files[f].pos + n)]))
  }

  function WithPipe(k: K, q: PipeId, v: P.PipeValue, log: Log): K {
    k.(d := k.d.(pipes := k.d.pipes[q := v]), logs := k.logs[q := log])
  }

  function ReadCall(k: K, p: Pid, env: Env): Outcome
    requires CanCall(k, p)
  {
    var m := M(k, p);
    var fd, buf, count := m.regs[EBX], m.regs[ECX], m.regs[EDX];
    match ObjectAt(k.d, p, fd)
    case None => Return(k, -EBADF)
    case Some(obj) =>
      if count == 0 then Return(k, 0)
      else
        match obj
        case Node(_) => CopyOut(Advance(k, p, fd, |env.data|), p, buf, env.data, |env.data|)
        case PipeEnd(q) =>
          var t := P.ReadPipe(k.d.pipes[q], count);
          if !t.Moved? then Blocked(PipeRead(q))
          else
            var log := LogOf(k, q);
            CopyOut(WithPipe(k, q, t.pipe, log.(delivered := log.delivered + t.data)), p, buf, t.data, |t.data|)
        case Null => Return(k, 0)
        case Terminal =>
          match env.tty
          case None => Blocked(TtyRead)
          case Some(data) => CopyOut(k, p, buf, data, |data|)
  }

  /** How far a write of n bytes moves the position: one to be appended starts at the end of the file. */
  function WrittenTo(k: K, p: Pid, fd: int, env: Env, n: nat): int
    requires D.Exact(k.d) && D.IsOpen(k.d, p, fd)
  {
    var f := k.d.files[k.d.tables[p][fd].value];
    if f.append then env.ret + n - f.pos else n
  }

  function WriteCall(k: K, p: Pid, env: Env): Outcome
    requires CanCall(k, p)
  {
    var m := M(k, p);
    var fd, buf, count := m.regs[EBX], m.regs[ECX], m.regs[EDX];
    match ObjectAt(k.d, p, fd)
    case None => Return(k, -EBADF)
    case Some(obj) =>
      if count == 0 then Return(k, 0)
      else
        match m.mem.Read(buf, count)
        case None => Return(k, -EFAULT)
        case Some(data) =>
          match obj
          case Node(_) => Return(Advance(k, p, fd, WrittenTo(k, p, fd, env, |data|)), |data|)
          case PipeEnd(q) =>
            var t := P.WritePipe(k.d.pipes[q], data);
            if t.Broken? then Return(k, -EPIPE)
            else if t.WouldBlock? then Blocked(PipeWrite(q))
            else
              var log := LogOf(k, q);
              Return(WithPipe(k, q, t.pipe, log.(accepted := log.accepted + t.data)), |t.data|)
          case Null => Return(k, count)
          case Terminal => Return(k, env.ret)
  }

  function WithDesc(k: K, r: D.Ret): Outcome {
    Return(k.(d := r.d), r.r)
  }

  /** The two descriptor numbers a pipe call hands out. */
  function CopyPair(k: K, p: Pid, addr: int, v: int, w: int): Outcome
    requires p in k.u && M(k, p).mem.Valid()
  {
    var r := WriteMem(M(k, p), addr, 4, v);
    if r.Stop? then Return(WithMachine(k, p, r.m.(log := [])), -EFAULT)
    else
      var r2 := WriteMem(r.m, addr + 4, 4, w);
      Return(WithMachine(k, p, r2.m.(log := [])), if r2.Ok? then 0 else -EFAULT)
  }

  function FcntlCall(k: K, p: Pid): Outcome
    requires CanCall(k, p)
  {
    var m := M(k, p);
    var fd, cmd, arg := m.regs[EBX], m.regs[ECX], m.regs[EDX];
    if !D.IsOpen(k.d, p, fd) then Return(k, -EBADF)
    else if cmd == 0 then WithDesc(k, D.DupFrom(k.d, p, fd, arg))
    else
      D.MarksKnown(k.d, p);
      var marks := k.d.marks[p];
      if cmd == 1 then Return(k, if fd in marks then 1 else 0)
      else if cmd == 2 then
        Return(k.(d := k.d.(marks := k.d.marks[p := if arg % 2 == 1 then marks + {fd} else marks - {fd}])), 0)
      else if cmd == 3 then Return(k, StatusFlags(k.d, p, fd))
      else if cmd == 4 then
        Return(k.(d := D.SetStatus(k.d, p, fd, arg / 0x400 % 2 == 1, arg / 0x800 % 2 == 1)), 0)
      else Return(k, -EINVAL)
  }

  /** F_GETFL; the flags other than access mode, O_APPEND and O_NONBLOCK are not modelled. */
  function StatusFlags(d: D.Desc, p: Pid, fd: nat): int
    requires D.Exact(d) && D.IsOpen(d, p, fd)
  {
    var f := d.files[d.tables[p][fd].value];
    f.access + (if f.append then 0x400 else 0) + if f.nonblock then 0x800 else 0
  }

  /** lseek: only inodes have positions; the size of the file comes from outside. */
  function SeekCall(k: K, p: Pid, env: Env): Outcome
    requires CanCall(k, p)
  {
    var m := M(k, p);
    var fd, offset, whence := m.regs[EBX], Signed32(m.regs[ECX]), m.regs[EDX];
    match ObjectAt(k.d, p, fd)
    case None => Return(k, -EBADF)
    case Some(obj) =>
      if !obj.Node? then Return(k, -ESPIPE)
      else if whence > 2 then Return(k, -EINVAL)
      else
        var at := k.d.files[k.d.tables[p][fd].value].pos;
        var base := if whence == 0 then 0 else if whence == 1 then at else env.ret;
        if base + offset < 0 then Return(k, -EINVAL) else Return(Advance(k, p, fd, base + offset - at), base + offset)
  }

  function DescCall(k: K, p: Pid, env: Env): Outcome
    requires CanCall(k, p)
  {
    var m := M(k, p);
    var nr, a, b := m.regs[EAX], m.regs[EBX], m.regs[ECX];
    if nr == 6 then WithDesc(k, D.Close(k.d, p, a))
    else if nr == 41 then WithDesc(k, D.DupFrom(k.d, p, a, 0))
    else if nr == 63 then WithDesc(k, D.Dup2(k.d, p, a, b))
    else if nr == 55 then FcntlCall(k, p)
    else if nr == 19 then SeekCall(k, p, env)
    else if nr == 42 then
      var r := D.MakePipe(k.d, p);
      if r.r != 0 then Return(k.(d := r.d), r.r)
      else
        var fds := D.FreePair(k.d.tables[p]).value;
        CopyPair(k.(d := r.d), p, a, fds.0, fds.1)
    else
      match env.found
      case None => Return(k, env.ret)
      case Some(obj) =>
        if obj.PipeEnd? then Return(k, env.ret)
        else Opened(k, p, env, D.OpenObject(k.d, p, obj, (if nr == 8 then 1 else b % 4), nr == 5 && b / 0x400 % 2 == 1))
  }

  /** A file opened for appending starts at its end. */
  function Opened(k: K, p: Pid, env: Env, r: D.Ret): Outcome
    requires D.Exact(r.d)
  {
    var k1 := k.(d := r.d);
    if D.IsOpen(r.d, p, r.r) && r.d.files[r.d.tables[p][r.r].value].append && r.d.files[r.d.tables[p][r.r].value].obj.Node?
    then Return(Advance(k1, p, r.r, env.ret), r.r)
    else Return(k1, r.r)
  }

  // ---- Processes -------------------------------------------------------------------------------------

  /** fork: same memory, registers and dispositions, eax 0, no pending signals and no frames. */
  function ForkCall(k: K, p: Pid): Outcome
    requires CanCall(k, p)
  {
    var c, u := k.nextPid, k.u[p];
    var t := u.task.(m := u.task.m.(regs := u.task.m.regs[EAX := 0]), frames := []);
    Return(K(D.ForkTable(k.d, p, c),
             S.Apply(k.s, S.Admit(c, S.Info(S.Running, false, p, k.s.procs[p].pgrp, 0))),
             k.u[c := User(t, {}, None, false)], k.logs, c + 1), c)
  }

  function Signed32(v: Word): int {
    if v < 0x8000_0000 then v else v - 0x1_0000_0000
  }

  /** The argument of waitpid selects this child. */
  predicate Wanted(k: K, p: Pid, pid: int, q: Pid)
    requires p in k.s.procs && q in k.s.procs
  {
    k.s.procs[q].ppid == p &&
    (if pid > 0 then q == pid
     else if pid == 0 then k.s.procs[q].pgrp == k.s.procs[p].pgrp
     else if pid == -1 then true
     else k.s.procs[q].pgrp == -pid)
  }

  /** The first selected zombie in creation order, from number i. */
  function FirstZombie(k: K, p: Pid, pid: int, i: nat): (r: Option<Pid>)
    requires p in k.s.procs
    ensures r.Some? ==> r.value in k.s.procs && In(k, r.value, S.Zombie) && Wanted(k, p, pid, r.value)
    ensures r.None? ==> forall q :: i <= q < k.nextPid && In(k, q, S.Zombie) ==> !Wanted(k, p, pid, q)
    decreases if i < k.nextPid then k.nextPid - i else 0
  {
    if i >= k.nextPid then None
    else if In(k, i, S.Zombie) && Wanted(k, p, pid, i) then Some(i)
    else FirstZombie(k, p, pid, i + 1)
  }

  predicate HasWanted(k: K, p: Pid, pid: int)
    requires p in k.s.procs
  {
    exists q :: q in k.s.procs && Wanted(k, p, pid, q)
  }

  function WaitCall(k: K, p: Pid): Outcome
    requires CanCall(k, p)
  {
    var m := M(k, p);
    var pid, statp, options := Signed32(m.regs[EBX]), m.regs[ECX], m.regs[EDX];
    if !HasWanted(k, p, pid) then Return(k, -ECHILD)
    else
      match FirstZombie(k, p, pid, 0)
      case Some(q) =>
        if statp == 0 then Return(Reap(k, q), q)
        else
          var r := WriteMem(m, statp, 4, k.s.procs[q].exitCode);
          var k1 := WithMachine(k, p, r.m.(log := []));
          if r.Stop? then Return(k1, -EFAULT) else Return(Reap(k1, q), q)
      case None => if options % 2 == 1 then Return(k, 0) else Blocked(WaitFor(p))
  }

  /** execve with an image: marked descriptors closed, handlers reset, frames dropped. */
  function ExecCall(k: K, p: Pid, env: Env): Outcome
    requires CanCall(k, p)
  {
    match env.image
    case None => Return(k, env.ret)
    case Some(image) =>
      var t := k.u[p].task;
      Replaced(k.(d := D.ExecTable(k.d, p),
                  u := k.u[p := k.u[p].(task := G.Task(image, t.blocked, [], ResetActions(t.actions)))]))
  }

  function ResetActions(a: G.Actions): G.Actions {
    seq(33, i requires 0 <= i < 33 => if a[i].handler == 1 then G.Action(1, 0, 0, 0) else G.Action(0, 0, 0, 0))
  }

  /** The processes a kill addresses, in creation order. */
  function Targets(k: K, p: Pid, pid: int, i: nat): (r: seq<Pid>)
    requires p in k.s.procs
    ensures forall x :: 0 <= x < |r| ==> r[x] in k.s.procs && r[x] >= i
    ensures forall x, y :: 0 <= x < y < |r| ==> r[x] < r[y]
    decreases if i < k.nextPid then k.nextPid - i else 0
  {
    if i >= k.nextPid then []
    else
      var rest := Targets(k, p, pid, i + 1);
      if i in k.s.procs && Addressed(k, p, pid, i) then [i] + rest else rest
  }

  predicate Addressed(k: K, p: Pid, pid: int, q: Pid)
    requires p in k.s.procs && q in k.s.procs
  {
    if pid > 0 then q == pid
    else if pid == 0 then k.s.procs[q].pgrp == k.s.procs[p].pgrp
    else if pid == -1 then q > 1
    else k.s.procs[q].pgrp == -pid
  }

  function KillCall(k: K, p: Pid): Outcome
    requires CanCall(k, p)
  {
    var m := M(k, p);
    var targets := Targets(k, p, Signed32(m.regs[EBX]), 0);
    if targets == [] then Return(k, -ESRCH)
    else if m.regs[ECX] == 0 then Return(k, 0)
    else Return(PostAll(k, targets, m.regs[ECX]), 0)
  }

  /** The mask without SIGKILL. */
  function NewMask(v: Word): Word {
    if v / 0x100 % 2 == 1 then v - 0x100 else v
  }

  // ---- Dispositions --------------------------------------------------------------------------------------

  /** A signal whose disposition may be changed. */
  predicate Changeable(sig: Word) {
    1 <= sig <= 32 && sig != SIGKILL
  }

  function WithAction(k: K, p: Pid, sig: nat, a: G.Action): K
    requires p in k.u && sig < 33
  {
    WithTask(k, p, k.u[p].task.(actions := k.u[p].task.actions[sig := a]))
  }

  /** signal: a handler that is reset when it runs and masks nothing; the old handler is returned. */
  function SignalCall(k: K, p: Pid): Outcome
    requires CanCall(k, p)
  {
    var m := M(k, p);
    var sig := m.regs[EBX];
    if !Changeable(sig) then Return(k, -EINVAL)
    else
      Return(WithAction(k, p, sig, G.Action(m.regs[ECX], 0, 0xC000_0000, m.regs[EDX])),
             k.u[p].task.actions[sig].handler)
  }

  /** Four words out, one after the other; a fault leaves the earlier ones written. */
  function StoreAction(m: Machine, addr: int, a: G.Action): (r: Effect)
    requires m.mem.Valid()
    ensures r.m.mem.Valid()
  {
    var (m1, _) :- WriteMem(m, addr, 4, a.handler);
    var (m2, _) :- WriteMem(m1, addr + 4, 4, a.mask);
    var (m3, _) :- WriteMem(m2, addr + 8, 4, a.flags);
    WriteMem(m3, addr + 12, 4, a.restorer)
  }

  function LoadAction(m: Image, addr: int): Option<G.Action>
    requires m.Valid()
  {
    var h, k, f, r := m.Load(addr, 4), m.Load(addr + 4, 4), m.Load(addr + 8, 4), m.Load(addr + 12, 4);
    if h.Some? && k.Some? && f.Some? && r.Some? then Some(G.Action(h.value, k.value, f.value, r.value)) else None
  }

  /** sigaction: the old disposition is stored first, then the new one is read, if asked for. */
  function SigactionCall(k: K, p: Pid): Outcome
    requires CanCall(k, p)
  {
    var m := M(k, p);
    var sig, newp, oldp := m.regs[EBX], m.regs[ECX], m.regs[EDX];
    if !Changeable(sig) then Return(k, -EINVAL)
    else
      var r := if oldp == 0 then Done(m) else StoreAction(m, oldp, k.u[p].task.actions[sig]);
      var k1 := WithMachine(k, p, r.m.(log := []));
      if r.Stop? then Return(k1, -EFAULT)
      else if newp == 0 then Return(k1, 0)
      else
        match LoadAction(r.m.mem, newp)
        case None => Return(k1, -EFAULT)
        case Some(a) => Return(WithAction(k1, p, sig, a), 0)
  }

  function ProcCall(k: K, p: Pid, env: Env): Outcome
    requires CanCall(k, p)
  {
    var m := M(k, p);
    var nr, a, b := m.regs[EAX], m.regs[EBX], m.regs[ECX];
    if nr == 1 then Exits(a % 0x100 * 0x100)
    else if nr == 2 then ForkCall(k, p)
    else if nr == 7 then WaitCall(k, p)
    else if nr == 11 then ExecCall(k, p, env)
    else if nr == 29 then Blocked(Pausing(p))
    else if nr == 37 then KillCall(k, p)
    else if nr == 57 then
      var target := if a == 0 then p else a;
      if target !in k.s.procs then Return(k, -ESRCH)
      else Return(k.(s := S.Apply(k.s, S.SetGroup(target, if b == 0 then target else b))), 0)
    else if nr == 48 then SignalCall(k, p)
    else if nr == 67 then SigactionCall(k, p)
    else if nr == 68 then Return(k, k.u[p].task.blocked)
    else if nr == 66 then
      if env.ret < 0 then Return(k, -EPERM) else Return(k.(s := S.Apply(k.s, S.SetGroup(p, p))), p)
    else if nr == 69 then Return(WithTask(k, p, k.u[p].task.(blocked := NewMask(a))), k.u[p].task.blocked)
    else Return(WithMachine(k, p, m.(mem := env.mem)), env.ret)
  }

  function Dispatch(k: K, p: Pid, env: Env): Outcome
    requires CanCall(k, p)
  {
    var nr := M(k, p).regs[EAX];
    if nr == 3 then ReadCall(k, p, env)
    else if nr == 4 then WriteCall(k, p, env)
    else if nr == 5 || nr == 6 || nr == 8 || nr == 19 || nr == 41 || nr == 42 || nr == 55 || nr == 63 then DescCall(k, p, env)
    else ProcCall(k, p, env)
  }

  // ---- Steps -------------------------------------------------------------------------------------------

  /** The trap instruction at the processor's eip, if there is one. */
  predicate Traps(m: Machine)
    requires m.mem.Valid()
  {
    Decode(m.mem, m.eip).Insn? && Decode(m.mem, m.eip).e.fn == Interrupt && Decode(m.mem, m.eip).e.imm == 0x80
  }

  function PastTrap(m: Machine): Machine
    requires m.mem.Valid() && Traps(m)
  {
    m.(eip := m.eip + Decode(m.mem, m.eip).e.length)
  }

  /** The state in which the dispatcher runs: past the trap. */
  function PastState(k: K, p: Pid): (r: K)
    requires p in k.u && M(k, p).mem.Valid() && Traps(M(k, p))
    ensures CanCall(k, p) ==> CanCall(r, p)
  {
    WithMachine(k, p, PastTrap(M(k, p)))
  }

  /** Going to sleep: back to the trap, off the queue. */
  function Sleep(k: K, p: Pid, ch: Channel): K
    requires p in k.u
  {
    var t := k.u[p].task;
    k.(s := S.Apply(k.s, S.Block(p)),
       u := k.u[p := k.u[p].(task := t.(m := t.m.(eip := t.m.eip - 2)), channel := Some(ch), restart := true)])
  }

  function SetResult(k: K, p: Pid, ret: int): K {
    if p in k.u then WithMachine(k, p, M(k, p).(regs := M(k, p).regs[EAX := Mask32(ret)])) else k
  }

  /** A running process executes its trap. */
  function SystemCall(k: K, p: Pid, env: Env): K
    requires CanCall(k, p) && Traps(M(k, p))
  {
    var k1 := PastState(k, p);
    match Dispatch(k1, p, env)
    case Return(k2, ret) => SetResult(k2, p, ret)
    case Blocked(ch) => Sleep(k1, p, ch)
    case Exits(code) => ExitProcess(k1, p, code)
    case Replaced(k2) => k2
  }

  /** The condition the polling loop checks for a channel. */
  predicate PollReady(k: K, p: Pid, ch: Channel, ttyReady: bool) {
    match ch
    case PipeRead(q) => q in k.d.pipes && (k.d.pipes[q].buf != [] || k.d.pipes[q].writers == 0)
    case PipeWrite(q) => q in k.d.pipes && (k.d.pipes[q].Space() > 0 || k.d.pipes[q].readers == 0)
    case WaitFor(_) => exists q :: q in k.s.procs && k.s.procs[q].ppid == p && In(k, q, S.Zombie)
    case Pausing(_) => false
    case TtyRead => ttyReady
  }

  function Poll(k: K, p: Pid, ttyReady: bool): K
    requires Known(k, p)
  {
    if In(k, p, S.Sleeping) && k.u[p].channel.Some? && PollReady(k, p, k.u[p].channel.value, ttyReady)
    then Wake(k, p, false) else k
  }

  /** Init starts a shell: a fresh process with the terminal on its first descriptors, and possibly a
      script on descriptor 0. */
  function Spawn(k: K, m: Machine, tty: bool, script: Option<nat>): K
    requires D.Exact(k.d) && Domains(k)
  {
    var c := k.nextPid;
    K(ShellTable(k.d, c, tty, script), S.Apply(k.s, S.Admit(c, S.Info(S.Running, false, 1, c, 0))),
      k.u[c := User(G.Task(m, 0, [], seq(33, _ => G.Action(0, 0, 0, 0))), {}, None, false)], k.logs, c + 1)
  }

  function ShellTable(d: D.Desc, c: Pid, tty: bool, script: Option<nat>): (r: D.Desc)
    requires D.Exact(d) && c !in d.tables
    ensures D.Exact(r)
  {
    hide D.Exact;
    D.NewTable(d, c, {});
    var d0 := D.AddTable(d, c, {});
    var d1 := if tty then StdFiles(d0, c) else d0;
    if script.Some? then ScriptOnZero(d1, c, script.value) else d1
  }

  /** One open file for reading on 0, another shared by 1 and 2. */
  function StdFiles(d: D.Desc, c: Pid): (r: D.Desc)
    requires D.Exact(d) && c in d.tables && d.tables[c] == D.NoFiles()
    ensures D.Exact(r) && c in r.tables
  {
    hide D.Exact;
    D.Opening(d, c, 0, D.Terminal, 0, false);
    var d1 := D.InstallNew(d, c, 0, D.Terminal, 0, false);
    D.Opening(d1, c, 1, D.Terminal, 1, false);
    var d2 := D.InstallNew(d1, c, 1, D.Terminal, 1, false);
    D.Sharing(d2, c, 1, c, 2);
    D.Install(d2, c, 2, d2.tables[c][1].value)
  }

  function ScriptOnZero(d: D.Desc, c: Pid, ino: nat): (r: D.Desc)
    requires D.Exact(d) && c in d.tables
    ensures D.Exact(r) && c in r.tables
  {
    hide D.Exact;
    D.ClosedSlotFree(d, c, 0);
    var d1 := D.Close(d, c, 0).d;
    D.Opening(d1, c, 0, D.Node(ino), 0, false);
    D.InstallNew(d1, c, 0, D.Node(ino), 0, false)
  }

  datatype Step =
    | UserRan(p: Pid, m: Machine)          // instructions that do not trap
    | Trapped(p: Pid, env: Env)            // int 0x80
    | Returned(p: Pid)                     // the magic return address
    | Ended(p: Pid, code: int)             // a fault or hlt
    | Polled(p: Pid, ttyReady: bool)
    | Posted(p: Pid, sig: int)             // alarm or terminal
    | Delivered(p: Pid)
    | PickedNext
    | Spawned(m: Machine, tty: bool, script: Option<nat>)
    | InitReaped(p: Pid)

  /** The processor would run on in user code: it stands neither at a trap nor at a magic address. */
  predicate RunsOn(m: Machine)
    requires m.mem.Valid()
  {
    !Traps(m) && m.eip < MAGIC_EIP_BASE
  }

  /** The world supplies usable memory. */
  predicate GoodEnv(env: Env) {
    env.mem.Valid() && env.mem.Disjoint() && (env.image.Some? ==> GoodMachine(env.image.value))
  }

  /** The event can happen now. */
  ghost predicate Enabled(k: K, ev: Step)
    requires Inv(k)
  {
    match ev
    case UserRan(p, m) => Known(k, p) && S.Runnable(k.s, p) && RunsOn(M(k, p)) && GoodMachine(m)
    case Trapped(p, env) => Known(k, p) && S.Runnable(k.s, p) && GoodEnv(env) && Traps(M(k, p))
    case Returned(p) =>
      Known(k, p) && S.Runnable(k.s, p) && M(k, p).eip >= MAGIC_EIP_BASE && G.SigReturn(k.u[p].task).Some?
    case Ended(p, _) => Known(k, p) && S.Runnable(k.s, p) && RunsOn(M(k, p))
    case Polled(p, _) => Known(k, p)
    case Posted(p, _) => Known(k, p)
    case Delivered(p) => Known(k, p)
    case PickedNext => true
    case Spawned(m, _, _) => GoodMachine(m)
    case InitReaped(p) => Known(k, p) && In(k, p, S.Zombie)
  }

  ghost function Next(k: K, ev: Step): K
    requires Inv(k) && Enabled(k, ev)
  {
    match ev
    case UserRan(p, m) => WithMachine(k, p, m)
    case Trapped(p, env) => SystemCall(k, p, env)
    case Returned(p) => WithTask(k, p, G.SigReturn(k.u[p].task).value)
    case Ended(p, code) => ExitProcess(k, p, code)
    case Polled(p, ttyReady) => Poll(k, p, ttyReady)
    case Posted(p, sig) => PostSignal(k, p, sig)
    case Delivered(p) => DeliverOne(k, p)
    case PickedNext => k.(s := S.Pick(k.s).1)
    case Spawned(m, tty, script) => Spawn(k, m, tty, script)
    case InitReaped(p) => Reap(k, p)
  }
}
