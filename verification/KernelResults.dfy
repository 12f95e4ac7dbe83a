/** What the system calls answer and leave, continued: transfers, waiting, dispositions, groups and descriptors
    (kernel.py). */
module KernelResults {
  import opened Words
  import opened Memory
  import opened Decoder
  import opened Handlers
  import opened Kernel
  import opened KernelProofs
  import opened KernelSleep
  import opened KernelCalls
  import P = Pipes
  import D = Descriptors
  import S = Scheduler
  import G = Signals

  /** p has its answer; otherwise only its memory, the descriptors and the pipe histories may have changed. */
  function AnsweredWith(k: K, p: Pid, ret: int, mem: Image, d: D.Desc, logs: map<PipeId, Log>): K
    requires p in k.u && M(k, p).mem.Valid() && Traps(M(k, p))
  {
    var t := k.u[p].task;
    k.(u := k.u[p := k.u[p].(task := t.(m := Answered(t.m, ret).(mem := mem, log := [])))], d := d, logs := logs)
  }

  /** p has its answer, and nothing else has changed. */
  function JustAnswered(k: K, p: Pid, ret: int): K
    requires p in k.u && M(k, p).mem.Valid() && Traps(M(k, p))
  {
    k.(u := k.u[p := k.u[p].(task := k.u[p].task.(m := Answered(M(k, p), ret)))])
  }

  /** p sleeps on a channel, two bytes before the end of its trap. */
  function PutToSleep(k: K, p: Pid, ch: Channel): K
    requires p in k.u && M(k, p).mem.Valid() && Traps(M(k, p))
  {
    var u := k.u[p];
    k.(s := S.Apply(k.s, S.Block(p)),
       u := k.u[p := u.(task := u.task.(m := u.task.m.(eip := u.task.m.eip + TrapLength(u.task.m) - 2)), channel := Some(ch), restart := true)])
  }

  /** What storing these bytes makes of memory, and the answer: EFAULT (14) if they cannot be stored. */
  function Copied(m: Image, addr: int, data: seq<Byte>, ret: int): (r: (Image, int))
    requires m.Valid()
  {
    var w := m.Write(addr, data);
    (w.mem, if w.ok then ret else -14)
  }

  lemma CopyServed(k: K, k1: K, k2: K, p: Pid, addr: int, data: seq<Byte>, ret: int, d: D.Desc, logs: map<PipeId, Log>)
    requires Behind(k, k1, p) && k2 == k1.(d := d, logs := logs)
    ensures var o := CopyOut(k2, p, addr, data, ret);
      var (mem, r) := Copied(M(k, p).mem, addr, data, ret);
      o.Return? && SetResult(o.k, p, o.ret) == AnsweredWith(k, p, r, mem, d, logs)
  {
    hide Traps, TrapLength;
  }

  lemma PlainServed(k: K, k1: K, p: Pid, ret: int, ch: Channel)
    requires Behind(k, k1, p)
    ensures SetResult(k1, p, ret) == JustAnswered(k, p, ret) && Sleep(k1, p, ch) == PutToSleep(k, p, ch)
  {
    hide Traps, TrapLength;
  }

  // ---- read and write --------------------------------------------------------------------------------

  /** The open file behind a descriptor. */
  function FileAt(k: K, p: Pid, fd: int): Option<D.FileId> {
    if p in k.d.tables && 0 <= fd < D.NR_OPEN && k.d.tables[p][fd].Some? && k.d.tables[p][fd].value in k.d.files
    then k.d.tables[p][fd] else None
  }

  function Moved(d: D.Desc, f: D.FileId, n: int): D.Desc
    requires f in d.files
  {
    d.(files := d.files[f := d.files[f].(pos := d.files[f].pos + n)])
  }

  /** Every pipe that has an open end exists. */
  ghost predicate PipesKnown(k: K) {
    forall f :: f in k.d.files && k.d.files[f].obj.PipeEnd? ==> k.d.files[f].obj.pipe in k.d.pipes
  }

  /** The oldest bytes of pipe q have gone to p, as many as asked for or as there are. */
  function Drained(k: K, p: Pid, q: PipeId): K
    requires p in k.u && M(k, p).mem.Valid() && Traps(M(k, p)) && q in k.d.pipes
  {
    var n, buf := M(k, p).regs[EDX], k.d.pipes[q].buf;
    var c := if n < |buf| then n else |buf|;
    var (mem, r) := Copied(M(k, p).mem, M(k, p).regs[ECX], buf[..c], c);
    AnsweredWith(k, p, r, mem, k.d.(pipes := k.d.pipes[q := k.d.pipes[q].(buf := buf[c..])]),
                 k.logs[q := LogOf(k, q).(delivered := LogOf(k, q).delivered + buf[..c])])
  }

  /** read: EBADF (9) for a closed descriptor, nothing for a count of zero; a file gives what is at its position, and
      the position moves on; a pipe gives its oldest bytes, as many as asked for or as there are, blocks while it is
      empty and somebody may write, and else is at its end; the null device is always at its end; the terminal gives
      what it has, or blocks. The bytes stand at the address asked for, or EFAULT is the answer. */
  ghost function ReadAfter(k: K, p: Pid, env: Env): K
    requires p in k.u && M(k, p).mem.Valid() && Traps(M(k, p)) && PipesKnown(k)
  {
    var m := M(k, p);
    var addr, n := m.regs[ECX], m.regs[EDX];
    match FileAt(k, p, m.regs[EBX])
    case None => JustAnswered(k, p, -9)
    case Some(f) =>
      if n == 0 then JustAnswered(k, p, 0)
      else
        match k.d.files[f].obj
        case Node(_) =>
          var (mem, r) := Copied(m.mem, addr, env.data, |env.data|);
          AnsweredWith(k, p, r, mem, Moved(k.d, f, |env.data|), k.logs)
        case PipeEnd(q) =>
          var pipe := k.d.pipes[q];
          if pipe.buf == [] && pipe.writers != 0 then PutToSleep(k, p, PipeRead(q)) else Drained(k, p, q)
        case Null => JustAnswered(k, p, 0)
        case Terminal =>
          match env.tty
          case None => PutToSleep(k, p, TtyRead)
          case Some(data) =>
            var (mem, r) := Copied(m.mem, addr, data, |data|);
            AnsweredWith(k, p, r, mem, k.d, k.logs)
  }

  lemma PipesAreKnown(k: K)
    requires D.Exact(k.d)
    ensures PipesKnown(k)
  {
  }

  lemma FileIsObject(k: K, p: Pid, fd: int)
    ensures FileAt(k, p, fd).None? <==> ObjectAt(k.d, p, fd).None?
    ensures var f := FileAt(k, p, fd);
      f.Some? ==> D.IsOpen(k.d, p, fd) && k.d.tables[p][fd] == f && f.value in k.d.files && ObjectAt(k.d, p, fd) == Some(k.d.files[f.value].obj)
  {
  }

  /** The state the outcome of a call that neither ends nor replaces the caller leads to. */
  function Concluded(k1: K, p: Pid, o: Outcome): K
    requires p in k1.u && (o.Return? || o.Blocked?)
  {
    match o
    case Return(k2, ret) => SetResult(k2, p, ret)
    case Blocked(ch) => Sleep(k1, p, ch)
  }

  lemma ReadServed(k: K, k1: K, p: Pid, env: Env)
    requires Serves(k, k1, p) && PipesKnown(k)
    ensures var o := ReadCall(k1, p, env);
      (o.Return? || o.Blocked?) && Concluded(k1, p, o) == ReadAfter(k, p, env)
  {
    hide D.Exact, Domains, Traps, TrapLength, CopyOut, AnsweredWith, JustAnswered, PutToSleep, Copied, SetResult, Sleep, FileAt, ObjectAt;
    var m := M(k1, p);
    var fd, addr, n := m.regs[EBX], m.regs[ECX], m.regs[EDX];
    FileIsObject(k1, p, fd);
    SameFile(k, k1, p, fd);
    PlainServed(k, k1, p, -9, TtyRead);
    PlainServed(k, k1, p, 0, TtyRead);
    if FileAt(k1, p, fd).Some? && n != 0 {
      var f := FileAt(k1, p, fd).value;
      match k.d.files[f].obj
      case Node(_) => CopyServed(k, k1, Advance(k1, p, fd, |env.data|), p, addr, env.data, |env.data|, Moved(k.d, f, |env.data|), k.logs);
      case PipeEnd(q) => ReadPipeServed(k, k1, p, q);
      case Null =>
      case Terminal => if env.tty.Some? { CopyServed(k, k1, k1, p, addr, env.tty.value, |env.tty.value|, k.d, k.logs); }
    }
  }

  lemma SameFile(k: K, k1: K, p: Pid, fd: int)
    requires k1.d == k.d
    ensures FileAt(k1, p, fd) == FileAt(k, p, fd)
  {
  }

  lemma ReadPipeServed(k: K, k1: K, p: Pid, q: PipeId)
    requires Behind(k, k1, p) && q in k.d.pipes && M(k, p).regs[EDX] != 0
    ensures var pipe := k.d.pipes[q];
      var t := P.ReadPipe(pipe, M(k, p).regs[EDX]);
      if pipe.buf == [] && pipe.writers != 0 then t.WouldBlock? && Sleep(k1, p, PipeRead(q)) == PutToSleep(k, p, PipeRead(q))
      else
        t.Moved? &&
        var o := CopyOut(WithPipe(k1, q, t.pipe, LogOf(k1, q).(delivered := LogOf(k1, q).delivered + t.data)), p,
                         M(k, p).regs[ECX], t.data, |t.data|);
        o.Return? && SetResult(o.k, p, o.ret) == Drained(k, p, q)
  {
    hide Traps, TrapLength, CopyOut, AnsweredWith, PutToSleep, Copied, SetResult, Sleep;
    var pipe, n, addr := k.d.pipes[q], M(k, p).regs[EDX], M(k, p).regs[ECX];
    PlainServed(k, k1, p, 0, PipeRead(q));
    var c := if n < |pipe.buf| then n else |pipe.buf|;
    if !(pipe.buf == [] && pipe.writers != 0) {
      var d, logs := k.d.(pipes := k.d.pipes[q := pipe.(buf := pipe.buf[c..])]), k.logs[q := LogOf(k, q).(delivered := LogOf(k, q).delivered + pipe.buf[..c])];
      assert pipe.buf[..c] == P.ReadPipe(pipe, n).data && pipe.buf[c..] == P.ReadPipe(pipe, n).pipe.buf;
      CopyServed(k, k1, k1.(d := d, logs := logs), p, addr, pipe.buf[..c], c, d, logs);
    }
  }

  lemma ReadExact(k: K, p: Pid, env: Env)
    requires Makes(k, p, env, 3)
    ensures p in k.u && M(k, p).mem.Valid() && Traps(M(k, p)) && PipesKnown(k)
    ensures After(k, p, env, 3) == ReadAfter(k, p, env)
  {
    hide Inv, D.Exact, Domains, TrapLength, Traps, Dispatch, After, Makes, SetResult, Sleep, PastState, ReadCall, Serves, PipesKnown, ReadAfter;
    var k1, o := Setting(k, p, env, 3);
    Dispatched(k1, p, env);
    KnownPipes(k, p);
    ReadServed(k, k1, p, env);
  }

  lemma KnownPipes(k: K, p: Pid)
    requires CanCall(k, p)
    ensures PipesKnown(k)
  {
    hide Domains;
    PipesAreKnown(k);
  }

  /** write: EBADF, nothing for a count of zero, EFAULT (14) for bytes that cannot be read; a file takes all, and the
      position is behind them, at the end of the file if it is open for appending; a pipe takes what fits into its
      4095 bytes, blocks while it is full, and fails with EPIPE (32) when nobody can read. */
  ghost function WriteAfter(k: K, p: Pid, env: Env): K
    requires p in k.u && M(k, p).mem.Valid() && Traps(M(k, p)) && PipesKnown(k)
  {
    var m := M(k, p);
    var n := m.regs[EDX];
    match FileAt(k, p, m.regs[EBX])
    case None => JustAnswered(k, p, -9)
    case Some(f) =>
      if n == 0 then JustAnswered(k, p, 0)
      else
        match m.mem.Read(m.regs[ECX], n)
        case None => JustAnswered(k, p, -14)
        case Some(data) =>
          match k.d.files[f].obj
          case Node(_) =>
            var end := (if k.d.files[f].append then env.ret else k.d.files[f].pos) + n;
            JustAnswered(k.(d := k.d.(files := k.d.files[f := k.d.files[f].(pos := end)])), p, n)
          case PipeEnd(q) =>
            var pipe := k.d.pipes[q];
            if pipe.readers == 0 then JustAnswered(k, p, -32)
            else if |pipe.buf| >= 4095 then PutToSleep(k, p, PipeWrite(q))
            else
              var c := if n < 4095 - |pipe.buf| then n else 4095 - |pipe.buf|;
              JustAnswered(k.(d := k.d.(pipes := k.d.pipes[q := pipe.(buf := pipe.buf + data[..c])]),
                              logs := k.logs[q := LogOf(k, q).(accepted := LogOf(k, q).accepted + data[..c])]), p, c)
          case Null => JustAnswered(k, p, n)
          case Terminal => JustAnswered(k, p, env.ret)
  }

  lemma JustServed(k: K, k1: K, k2: K, p: Pid, ret: int)
    requires Behind(k, k1, p) && k2.u == k1.u
    ensures SetResult(k2, p, ret) == JustAnswered(k.(d := k2.d, logs := k2.logs, s := k2.s, nextPid := k2.nextPid), p, ret)
  {
    hide Traps, TrapLength;
  }

  lemma WriteServed(k: K, k1: K, p: Pid, env: Env)
    requires Serves(k, k1, p) && PipesKnown(k)
    ensures var o := WriteCall(k1, p, env);
      (o.Return? || o.Blocked?) && Concluded(k1, p, o) == WriteAfter(k, p, env)
  {
    hide D.Exact, Domains, Traps, TrapLength, JustAnswered, PutToSleep, SetResult, Sleep, FileAt, ObjectAt, Image.Read;
    var fd := M(k1, p).regs[EBX];
    FileIsObject(k1, p, fd);
    SameFile(k, k1, p, fd);
    var o := WriteCall(k1, p, env);
    if o.Return? { JustServed(k, k1, o.k, p, o.ret); }
    if o.Blocked? { PlainServed(k, k1, p, 0, o.ch); }
    ReadLength(M(k1, p).mem, M(k1, p).regs[ECX], M(k1, p).regs[EDX]);
    SameState(k);
  }

  lemma SameState(k: K)
    ensures k.(d := k.d, logs := k.logs, s := k.s, nextPid := k.nextPid) == k
    ensures forall d: D.Desc :: k.(d := d, logs := k.logs, s := k.s, nextPid := k.nextPid) == k.(d := d)
  {
  }

  lemma ReadLength(m: Image, a: int, n: nat)
    requires m.Valid()
    ensures m.Read(a, n).Some? ==> |m.Read(a, n).value| == n
  {
  }

  lemma WriteExact(k: K, p: Pid, env: Env)
    requires Makes(k, p, env, 4)
    ensures p in k.u && M(k, p).mem.Valid() && Traps(M(k, p)) && PipesKnown(k)
    ensures After(k, p, env, 4) == WriteAfter(k, p, env)
  {
    hide Inv, D.Exact, Domains, TrapLength, Traps, Dispatch, After, Makes, SetResult, Sleep, PastState, WriteCall, Serves, PipesKnown, WriteAfter;
    var k1, o := Setting(k, p, env, 4);
    Dispatched(k1, p, env);
    KnownPipes(k, p);
    WriteServed(k, k1, p, env);
  }

  // ---- execve -----------------------------------------------------------------------------------------

  /** execve with a program: the machine is the program's, no frames are left, ignored signals stay ignored and all
      other dispositions are the default, and the descriptors marked to be closed are; the mask and the pending signals
      stay. */
  ghost predicate Loaded(k: K, k': K, p: Pid, image: Machine) {
    && p in k.u && p in k'.u && p in k.d.tables && p in k'.d.tables && p in k.d.marks
    && var t := k.u[p].task;
       && k' == k.(d := k'.d, u := k.u[p := k'.u[p]]) && k'.u[p] == k.u[p].(task := k'.u[p].task)
       && k'.u[p].task.m == image && k'.u[p].task.blocked == t.blocked && k'.u[p].task.frames == []
       && (forall i :: 0 <= i < 33 ==> k'.u[p].task.actions[i] == G.Action(if t.actions[i].handler == 1 then 1 else 0, 0, 0, 0))
       && SameObjects(k, k') && k'.d.marks == k.d.marks[p := {}] && k'.d.tables == k.d.tables[p := k'.d.tables[p]]
       && forall j :: 0 <= j < D.NR_OPEN ==> k'.d.tables[p][j] == if j in k.d.marks[p] then None else k.d.tables[p][j]
  }

  /** Without a program, the answer says why. */
  lemma ExecExact(k: K, p: Pid, env: Env)
    requires Makes(k, p, env, 11)
    ensures p in k.u && M(k, p).mem.Valid() && Traps(M(k, p))
    ensures var k' := After(k, p, env, 11);
      match env.image
      case None => k' == JustAnswered(k, p, env.ret)
      case Some(image) => Loaded(k, k', p, image)
  {
    hide Inv, D.Exact, Domains, TrapLength, Traps, Dispatch, After, Makes, SetResult, PastState, JustAnswered, D.ExecTable, D.KeepsObjects, D.SameFiles;
    var k1, o := Setting(k, p, env, 11);
    Dispatched(k1, p, env);
    CallerTable(k, p);
    D.ExecResult(k.d, p);
    ExecServed(k, k1, p, env);
  }

  lemma CallerTable(k: K, p: Pid)
    requires CanCall(k, p)
    ensures p in k.d.tables && D.Exact(k.d) && p in k.d.marks
  {
    hide D.Exact, Domains;
    D.MarksKnown(k.d, p);
  }

  lemma ExecServed(k: K, k1: K, p: Pid, env: Env)
    requires Serves(k, k1, p)
    ensures var o, t := ExecCall(k1, p, env), k.u[p].task;
      && (env.image.None? ==> o.Return? && SetResult(o.k, p, o.ret) == JustAnswered(k, p, env.ret))
      && (env.image.Some? ==>
           && o.Replaced? && o.k == k.(d := D.ExecTable(k.d, p), u := k.u[p := o.k.u[p]])
           && o.k.u[p] == k.u[p].(task := G.Task(env.image.value, t.blocked, [], ResetActions(t.actions))))
  {
    hide D.Exact, Domains, Traps, TrapLength, D.ExecTable, ResetActions;
  }

  // ---- waitpid -----------------------------------------------------------------------------------------

  /** A child waitpid(n) asks for: one, any of the caller's group (0), any at all (-1), or any of the group -n. */
  predicate Asked(k: K, p: Pid, n: int, q: Pid) {
    && p in k.s.procs && q in k.s.procs && k.s.procs[q].ppid == p
    && (n > 0 ==> q == n) && (n == 0 ==> k.s.procs[q].pgrp == k.s.procs[p].pgrp) && (n < -1 ==> k.s.procs[q].pgrp == -n)
  }

  /** z is the first dead child asked for. */
  predicate FirstDead(k: K, p: Pid, n: int, z: Pid) {
    && Asked(k, p, n, z) && In(k, z, S.Zombie)
    && forall q :: q in k.s.procs && q < z && Asked(k, p, n, q) ==> !In(k, q, S.Zombie)
  }

  lemma {:induction false} LeastZombie(k: K, p: Pid, n: int, i: nat)
    requires p in k.s.procs
    ensures var r := FirstZombie(k, p, n, i);
      r.Some? ==> r.value >= i && forall q :: i <= q < r.value && In(k, q, S.Zombie) ==> !Wanted(k, p, n, q)
    decreases if i < k.nextPid then k.nextPid - i else 0
  {
    if i < k.nextPid && !(In(k, i, S.Zombie) && Wanted(k, p, n, i)) { LeastZombie(k, p, n, i + 1); }
  }

  lemma AskedWanted(k: K, p: Pid, n: int, q: Pid)
    requires p in k.s.procs && q in k.s.procs
    ensures Wanted(k, p, n, q) <==> Asked(k, p, n, q)
  {
  }

  /** What waitpid finds. */
  lemma ZombieExact(k: K, p: Pid, n: int)
    requires p in k.s.procs && forall q :: q in k.s.procs ==> q < k.nextPid
    ensures HasWanted(k, p, n) <==> exists q :: Asked(k, p, n, q)
    ensures match FirstZombie(k, p, n, 0)
      case None => forall q :: !(Asked(k, p, n, q) && In(k, q, S.Zombie))
      case Some(z) => FirstDead(k, p, n, z)
  {
    hide FirstZombie;
    LeastZombie(k, p, n, 0);
    forall q | q in k.s.procs ensures Wanted(k, p, n, q) <==> Asked(k, p, n, q) { AskedWanted(k, p, n, q); }
  }

  /** The process is gone from every table. */
  function Gone(k: K, q: Pid): K {
    K(D.DropTable(k.d, q), k.s.(procs := k.s.procs - {q}), k.u - {q}, k.logs, k.nextPid)
  }

  /** The dead child z is taken: its status is stored, unless the address is zero, and it is gone; or EFAULT is the
      answer, and it stays. */
  function Collected(k: K, p: Pid, z: Pid): K
    requires p in k.u && M(k, p).mem.Valid() && Traps(M(k, p)) && z in k.s.procs
  {
    var addr := M(k, p).regs[ECX];
    if addr == 0 then Gone(JustAnswered(k, p, z), z)
    else
      var w := M(k, p).mem.Write(addr, Bytes(k.s.procs[z].exitCode, 4));
      if w.ok then Gone(AnsweredWith(k, p, z, w.mem, k.d, k.logs), z) else AnsweredWith(k, p, -14, w.mem, k.d, k.logs)
  }

  /** Nobody asked for is dead: 0 if the caller will not wait; else it sleeps. */
  function StillWaiting(k: K, p: Pid): K
    requires p in k.u && M(k, p).mem.Valid() && Traps(M(k, p))
  {
    if M(k, p).regs[EDX] % 2 == 1 then JustAnswered(k, p, 0) else PutToSleep(k, p, WaitFor(p))
  }

  /** waitpid: ECHILD (10) without a child asked for; else the first dead one is taken, if there is one. */
  ghost predicate Waited(k: K, k': K, p: Pid, n: int)
    requires p in k.u && M(k, p).mem.Valid() && Traps(M(k, p))
  {
    && ((forall q :: !Asked(k, p, n, q)) ==> k' == JustAnswered(k, p, -10))
    && ((exists q :: Asked(k, p, n, q)) && (forall q :: !FirstDead(k, p, n, q)) ==> k' == StillWaiting(k, p))
    && forall z :: FirstDead(k, p, n, z) && z in k.s.procs ==> k' == Collected(k, p, z)
  }

  lemma OneFirstDead(k: K, p: Pid, n: int, y: Pid, z: Pid)
    requires FirstDead(k, p, n, y) && FirstDead(k, p, n, z)
    ensures y == z
  {
  }

  lemma NobodyDead(k: K, p: Pid, n: int)
    requires forall q :: !(Asked(k, p, n, q) && In(k, q, S.Zombie))
    ensures forall q :: !FirstDead(k, p, n, q)
  {
  }

  lemma StatusStored(k: K, k1: K, p: Pid, z: Pid, status: int)
    requires Behind(k, k1, p)
    ensures var addr := M(k, p).regs[ECX];
      var w, r := M(k, p).mem.Write(addr, Bytes(status, 4)), WriteMem(M(k1, p), addr, 4, status);
      && (r.Ok? <==> w.ok) && r.m.(log := []) == M(k1, p).(mem := w.mem, log := [])
  {
    hide Traps, TrapLength, Bytes;
  }

  lemma StatusAnswered(k: K, k1: K, p: Pid, mem: Image, ret: int)
    requires Behind(k, k1, p)
    ensures var k2 := WithMachine(k1, p, M(k1, p).(mem := mem, log := []));
      SetResult(k2, p, ret) == AnsweredWith(k, p, ret, mem, k.d, k.logs)
  {
    hide Traps, TrapLength;
  }

  lemma ReapAfter(k: K, p: Pid, z: Pid, ret: int)
    requires Known(k, p) && Known(k, z) && z != p && In(k, z, S.Zombie)
    ensures SetResult(Reap(k, z), p, ret) == Gone(SetResult(k, p, ret), z)
  {
    hide D.DropTable;
    var u := k.u[p].(task := k.u[p].task.(m := M(k, p).(regs := M(k, p).regs[EAX := Mask32(ret)])));
    assert (k.u - {z})[p := u] == k.u[p := u] - {z};
  }

  lemma CollectServed(k: K, k1: K, p: Pid, z: Pid)
    requires Serves(k, k1, p) && In(k1, p, S.Running) && In(k1, z, S.Zombie) && Known(k1, z)
    ensures var m := M(k1, p);
      if m.regs[ECX] == 0 then SetResult(Reap(k1, z), p, z) == Collected(k, p, z)
      else
        var w := WriteMem(m, m.regs[ECX], 4, k1.s.procs[z].exitCode);
        var k2 := WithMachine(k1, p, w.m.(log := []));
        Known(k2, z) && SetResult(if w.Stop? then k2 else Reap(k2, z), p, if w.Stop? then -EFAULT else z) == Collected(k, p, z)
  {
    hide D.Exact, Domains, Traps, TrapLength, D.DropTable, Bytes, Image.Write, WriteMem, AnsweredWith, JustAnswered, Gone, Reap, SetResult;
    var m := M(k1, p);
    PlainServed(k, k1, p, z, TtyRead);
    ReapAfter(k1, p, z, z);
    if m.regs[ECX] != 0 {
      var status := k1.s.procs[z].exitCode;
      var w, r := M(k, p).mem.Write(m.regs[ECX], Bytes(status, 4)), WriteMem(m, m.regs[ECX], 4, status);
      StatusStored(k, k1, p, z, status);
      StatusAnswered(k, k1, p, w.mem, if w.ok then z else -14);
      ReapAfter(WithMachine(k1, p, r.m.(log := [])), p, z, z);
    }
  }

  lemma WaitServed(k: K, k1: K, p: Pid, n: int)
    requires Serves(k, k1, p) && In(k1, p, S.Running) && Signed32(M(k, p).regs[EBX]) == n
    requires forall q :: q in k.s.procs ==> q < k.nextPid && Known(k, q)
    ensures var o := WaitCall(k1, p);
      (o.Return? || o.Blocked?) && Waited(k, Concluded(k1, p, o), p, n)
  {
    hide D.Exact, Domains, Traps, TrapLength, JustAnswered, PutToSleep, Collected, SetResult, Sleep, Reap, FirstZombie,
         HasWanted, WriteMem, Asked, FirstDead, WithMachine;
    ZombieExact(k1, p, n);
    forall q ensures Asked(k1, p, n, q) <==> Asked(k, p, n, q) { AskedSame(k, k1, p, n, q); }
    forall q ensures FirstDead(k1, p, n, q) <==> FirstDead(k, p, n, q) { AskedSame(k, k1, p, n, q); }
    PlainServed(k, k1, p, -10, WaitFor(p));
    PlainServed(k, k1, p, 0, WaitFor(p));
    match FirstZombie(k1, p, n, 0)
    case None => NobodyDead(k1, p, n);
    case Some(z) =>
      FirstIsDead(k1, p, n, z);
      CollectServed(k, k1, p, z);
      forall y | FirstDead(k, p, n, y) ensures y == z { OneFirstDead(k, p, n, y, z); }
  }

  lemma FirstIsDead(k: K, p: Pid, n: int, z: Pid)
    requires FirstDead(k, p, n, z)
    ensures In(k, z, S.Zombie) && Asked(k, p, n, z) && z in k.s.procs
  {
  }

  lemma AskedSame(k: K, k1: K, p: Pid, n: int, q: Pid)
    requires k1.s == k.s
    ensures Asked(k1, p, n, q) <==> Asked(k, p, n, q)
    ensures FirstDead(k1, p, n, q) <==> FirstDead(k, p, n, q)
  {
  }

  lemma WaitExact(k: K, p: Pid, env: Env, n: int)
    requires Makes(k, p, env, 7) && Reads(M(k, p).regs[EBX], n)
    ensures p in k.u && M(k, p).mem.Valid() && Traps(M(k, p)) && Waited(k, After(k, p, env, 7), p, n)
  {
    hide Inv, D.Exact, Domains, TrapLength, Traps, Dispatch, After, Makes, SetResult, Sleep, PastState, WaitCall, Serves, Waited;
    var k1, o := Setting(k, p, env, 7);
    Dispatched(k1, p, env);
    ReadsSigned(M(k, p).regs[EBX], n);
    ServedInv(k, p, env, 7);
    BelowNext(k);
    ProcsKnown(k);
    WaitServed(k, k1, p, n);
  }

  lemma ProcsKnown(k: K)
    requires Inv(k)
    ensures forall q :: q in k.s.procs ==> Known(k, q)
  {
    hide D.Exact;
  }
}
