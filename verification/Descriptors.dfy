/** Descriptors, open file descriptions and the counts kept on them (kernel.py: `alloc_fd`,
    `sys_close`, `sys_dup`, `sys_dup2`, `sys_fcntl`, `sys_pipe`, `_acquire_fd`, `_release_file`, and
    the descriptor parts of `sys_fork`, `sys_execve`, `sys_open` and `_exit_process`).

    Objects that the kernel shares by reference are named by numbers: open files, pipes and inodes
    live in maps, and a descriptor slot holds the number of its open file. */
module Descriptors {
  import opened Words
  import opened Pipes

  const NR_OPEN: nat := 20

  const EBADF: int := 9
  const EINVAL: int := 22
  const EMFILE: int := 24

  type Pid = nat
  type FileId = nat
  type PipeId = nat
  type Ino = nat

  datatype Object = Node(ino: Ino) | PipeEnd(pipe: PipeId) | Terminal | Null

  /** An open file description; `access` is 0 (read), 1 (write) or 2 (both). */
  datatype OpenFile = OpenFile(obj: Object, access: nat, append: bool, nonblock: bool, pos: int, refs: int)
  {
    predicate Readable() { access == 0 || access == 2 }
    predicate Writable() { access == 1 || access == 2 }
  }

  type Table = t: seq<Option<FileId>> | |t| == NR_OPEN witness seq(NR_OPEN, _ => None)

  function NoFiles(): (t: Table)
    ensures forall i :: 0 <= i < NR_OPEN ==> t[i] == None
  {
    seq(NR_OPEN, _ => None)
  }

  /** The descriptor tables and close-on-exec marks of all processes, and everything the tables count. */
  datatype Desc = Desc(tables: map<Pid, Table>, marks: map<Pid, set<nat>>, files: map<FileId, OpenFile>,
                       pipes: map<PipeId, PipeValue>, opens: map<Ino, int>,
                       nextFile: FileId, nextPipe: PipeId)

  function OpenRefs(d: Desc, ino: Ino): int {
    if ino in d.opens then d.opens[ino] else 0
  }

  // ---- What the counts should be ----------------------------------------------------------

  type Slot = (Pid, nat)

  predicate Holds(d: Desc, s: Slot, f: FileId) {
    s.0 in d.tables && s.1 < NR_OPEN && d.tables[s.0][s.1] == Some(f)
  }

  /** The descriptor slots that hold file f. */
  ghost function SlotsOf(d: Desc, f: FileId): set<Slot> {
    set p: Pid, i: nat | p in d.tables && i < NR_OPEN && Holds(d, (p, i), f) :: (p, i)
  }

  ghost predicate HoldsEnd(d: Desc, s: Slot, pipe: PipeId, write: bool) {
    && s.0 in d.tables && s.1 < NR_OPEN && d.tables[s.0][s.1].Some?
    && d.tables[s.0][s.1].value in d.files
    && var f := d.files[d.tables[s.0][s.1].value];
       f.obj == PipeEnd(pipe) && if write then f.Writable() else f.Readable()
  }

  /** The slots open on one end of a pipe. */
  ghost function EndSlots(d: Desc, pipe: PipeId, write: bool): set<Slot> {
    set p: Pid, i: nat | p in d.tables && i < NR_OPEN && HoldsEnd(d, (p, i), pipe, write) :: (p, i)
  }

  /** The live open files of an inode. */
  ghost function LiveFiles(d: Desc, ino: Ino): set<FileId> {
    set f | f in d.files && d.files[f].obj == Node(ino) && d.files[f].refs > 0
  }

  /** Slots hold known files, files on pipes known pipes, and numbers are handed out once. */
  ghost predicate Closed(d: Desc) {
    && d.marks.Keys == d.tables.Keys
    && (forall p, i :: p in d.tables && 0 <= i < NR_OPEN && d.tables[p][i].Some? ==> d.tables[p][i].value in d.files)
    && (forall f :: f in d.files ==> f < d.nextFile && (d.files[f].obj.PipeEnd? ==> d.files[f].obj.pipe in d.pipes))
    && (forall q :: q in d.pipes ==> q < d.nextPipe)
  }

  ghost predicate RefsExact(d: Desc, f: FileId) {
    f in d.files ==> d.files[f].refs == |SlotsOf(d, f)|
  }

  ghost predicate EndsExact(d: Desc, q: PipeId, write: bool) {
    q in d.pipes ==> (if write then d.pipes[q].writers else d.pipes[q].readers) == |EndSlots(d, q, write)|
  }

  ghost predicate OpensExact(d: Desc, n: Ino) {
    OpenRefs(d, n) == |LiveFiles(d, n)|
  }

  /** Every count is exact: each open file counts the slots that hold it, each pipe its readable and
      writable slots, each inode its live open files. */
  ghost predicate Exact(d: Desc) {
    && Closed(d)
    && (forall f :: RefsExact(d, f))
    && (forall q, w :: EndsExact(d, q, w))
    && (forall n :: OpensExact(d, n))
  }

  // ---- The two counting steps -----------------------------------------------------------------

  function BumpEnds(q: PipeValue, f: OpenFile): PipeValue {
    q.(readers := if f.Readable() then q.readers + 1 else q.readers,
       writers := if f.Writable() then q.writers + 1 else q.writers)
  }

  function DropEnds(q: PipeValue, f: OpenFile): PipeValue {
    q.(readers := if f.Readable() then Max(q.readers - 1, 0) else q.readers,
       writers := if f.Writable() then Max(q.writers - 1, 0) else q.writers)
  }

  /** One more descriptor refers to the file. Pipes count descriptors, not open files. */
  function AcquireFd(d: Desc, f: FileId): Desc
    requires f in d.files && (d.files[f].obj.PipeEnd? ==> d.files[f].obj.pipe in d.pipes)
  {
    var file := d.files[f];
    d.(files := d.files[f := file.(refs := file.refs + 1)],
       pipes := if file.obj.PipeEnd? then d.pipes[file.obj.pipe := BumpEnds(d.pipes[file.obj.pipe], file)] else d.pipes)
  }

  /** One descriptor fewer; an inode's count falls only when the open file dies. */
  function ReleaseFile(d: Desc, f: FileId): Desc
    requires f in d.files && (d.files[f].obj.PipeEnd? ==> d.files[f].obj.pipe in d.pipes)
  {
    var file := d.files[f];
    d.(files := d.files[f := file.(refs := file.refs - 1)],
       pipes := if file.obj.PipeEnd? then d.pipes[file.obj.pipe := DropEnds(d.pipes[file.obj.pipe], file)] else d.pipes,
       opens := if file.obj.Node? && file.refs - 1 <= 0
                then d.opens[file.obj.ino := Max(OpenRefs(d, file.obj.ino) - 1, 0)] else d.opens)
  }

  function SetSlot(d: Desc, p: Pid, i: nat, v: Option<FileId>): Desc
    requires p in d.tables && i < NR_OPEN
  {
    d.(tables := d.tables[p := d.tables[p][i := v]])
  }

  /** An open file gets one more slot. */
  function Install(d: Desc, p: Pid, i: nat, f: FileId): Desc
    requires Closed(d) && p in d.tables && i < NR_OPEN && f in d.files
  {
    SetSlot(AcquireFd(d, f), p, i, Some(f))
  }

  /** A slot is emptied. */
  function Clear(d: Desc, p: Pid, i: nat): Desc
    requires Closed(d) && p in d.tables && i < NR_OPEN && d.tables[p][i].Some?
  {
    ReleaseFile(SetSlot(d, p, i, None), d.tables[p][i].value)
  }

  /** A new open file in a slot, counted on its pipe or inode. */
  function InstallNew(d: Desc, p: Pid, i: nat, obj: Object, access: nat, append: bool): Desc
    requires p in d.tables && i < NR_OPEN && (obj.PipeEnd? ==> obj.pipe in d.pipes)
  {
    var f := OpenFile(obj, access, append, false, 0, 1);
    SetSlot(d.(files := d.files[d.nextFile := f], nextFile := d.nextFile + 1,
               pipes := if obj.PipeEnd? then d.pipes[obj.pipe := BumpEnds(d.pipes[obj.pipe], f)] else d.pipes,
               opens := if obj.Node? then d.opens[obj.ino := OpenRefs(d, obj.ino) + 1] else d.opens),
            p, i, Some(d.nextFile))
  }

  // ---- One slot more ---------------------------------------------------------------------------

  lemma SlotsMember(d: Desc, f: FileId, s: Slot)
    ensures s in SlotsOf(d, f) <==> Holds(d, s, f)
  {
  }

  lemma EndsMember(d: Desc, q: PipeId, w: bool, s: Slot)
    ensures s in EndSlots(d, q, w) <==> HoldsEnd(d, s, q, w)
  {
  }

  /** d' differs from d in one slot, and its known files keep their object and access. */
  ghost predicate OneSlotApart(d: Desc, d': Desc, p: Pid, i: nat) {
    && p in d.tables && i < NR_OPEN && p in d'.tables
    && d'.tables == d.tables[p := d.tables[p][i := d'.tables[p][i]]]
    && (forall f :: f in d.files ==>
         f in d'.files && d'.files[f].obj == d.files[f].obj && d'.files[f].access == d.files[f].access)
  }

  lemma OtherSlotsSame(d: Desc, d': Desc, p: Pid, i: nat, s: Slot)
    requires Closed(d) && OneSlotApart(d, d', p, i) && s != (p, i)
    ensures forall f :: Holds(d', s, f) == Holds(d, s, f)
    ensures forall q, w :: HoldsEnd(d', s, q, w) == HoldsEnd(d, s, q, w)
  {
    if s.0 in d.tables && s.1 < NR_OPEN {
      assert d'.tables[s.0][s.1] == d.tables[s.0][s.1];
    }
  }

  /** Only the slot itself can join or leave the slots of a file or of a pipe end. */
  lemma SlotsChange(d: Desc, d': Desc, p: Pid, i: nat, f: FileId)
    requires Closed(d) && OneSlotApart(d, d', p, i)
    ensures |SlotsOf(d', f)| == |SlotsOf(d, f)| + (if Holds(d', (p, i), f) then 1 else 0) - (if Holds(d, (p, i), f) then 1 else 0)
  {
    hide Holds, HoldsEnd, SlotsOf, Closed, OneSlotApart;
    forall s: Slot
      ensures s in SlotsOf(d', f) - {(p, i)} <==> s in SlotsOf(d, f) - {(p, i)}
    {
      SlotsMember(d, f, s);
      SlotsMember(d', f, s);
      if s != (p, i) { OtherSlotsSame(d, d', p, i, s); }
    }
    SlotsMember(d, f, (p, i));
    SlotsMember(d', f, (p, i));
    OneElementApart(SlotsOf(d, f), SlotsOf(d', f), (p, i));
  }

  lemma EndsChange(d: Desc, d': Desc, p: Pid, i: nat, q: PipeId, w: bool)
    requires Closed(d) && OneSlotApart(d, d', p, i)
    ensures |EndSlots(d', q, w)| == |EndSlots(d, q, w)|
      + (if HoldsEnd(d', (p, i), q, w) then 1 else 0) - (if HoldsEnd(d, (p, i), q, w) then 1 else 0)
  {
    hide Holds, HoldsEnd, EndSlots, Closed, OneSlotApart;
    forall s: Slot
      ensures s in EndSlots(d', q, w) - {(p, i)} <==> s in EndSlots(d, q, w) - {(p, i)}
    {
      EndsMember(d, q, w, s);
      EndsMember(d', q, w, s);
      if s != (p, i) { OtherSlotsSame(d, d', p, i, s); }
    }
    EndsMember(d, q, w, (p, i));
    EndsMember(d', q, w, (p, i));
    OneElementApart(EndSlots(d, q, w), EndSlots(d', q, w), (p, i));
  }

  lemma OneElementApart(a: set<Slot>, b: set<Slot>, x: Slot)
    requires forall s :: s in b - {x} <==> s in a - {x}
    ensures |b| == |a| + (if x in b then 1 else 0) - (if x in a then 1 else 0)
  {
    assert b - {x} == a - {x};
    assert x in a ==> a == (a - {x}) + {x};
    assert x in b ==> b == (b - {x}) + {x};
    assert x !in a ==> a - {x} == a;
    assert x !in b ==> b - {x} == b;
  }

  lemma InstallApart(d: Desc, p: Pid, i: nat, f: FileId)
    requires Closed(d) && p in d.tables && i < NR_OPEN && f in d.files
    ensures OneSlotApart(d, Install(d, p, i, f), p, i)
  {
  }

  lemma InstallSlots(d: Desc, p: Pid, i: nat, f: FileId, g: FileId)
    requires Closed(d) && p in d.tables && i < NR_OPEN && d.tables[p][i].None? && f in d.files
    requires RefsExact(d, g)
    ensures RefsExact(Install(d, p, i, f), g)
  {
    hide SlotsOf, Closed, OneSlotApart;
    InstallApart(d, p, i, f);
    SlotsChange(d, Install(d, p, i, f), p, i, g);
  }

  lemma InstallEnds(d: Desc, p: Pid, i: nat, f: FileId, q: PipeId, w: bool)
    requires Closed(d) && p in d.tables && i < NR_OPEN && d.tables[p][i].None? && f in d.files
    requires EndsExact(d, q, w)
    ensures EndsExact(Install(d, p, i, f), q, w)
  {
    hide EndSlots, OneSlotApart;
    InstallApart(d, p, i, f);
    EndsChange(d, Install(d, p, i, f), p, i, q, w);
  }

  lemma InstallOpens(d: Desc, p: Pid, i: nat, f: FileId, n: Ino)
    requires Closed(d) && p in d.tables && i < NR_OPEN && f in d.files && d.files[f].refs > 0
    requires OpensExact(d, n)
    ensures OpensExact(Install(d, p, i, f), n)
  {
    assert LiveFiles(Install(d, p, i, f), n) == LiveFiles(d, n);
  }

  lemma InstallClosed(d: Desc, p: Pid, i: nat, f: FileId)
    requires Closed(d) && p in d.tables && i < NR_OPEN && f in d.files
    ensures Closed(Install(d, p, i, f))
  {
  }

  lemma InstallExact(d: Desc, p: Pid, i: nat, f: FileId)
    requires Exact(d) && p in d.tables && i < NR_OPEN && d.tables[p][i].None?
    requires f in d.files && d.files[f].refs > 0
    ensures Exact(Install(d, p, i, f))
  {
    hide Install, Closed, RefsExact, EndsExact, OpensExact;
    InstallClosed(d, p, i, f);
    forall g ensures RefsExact(Install(d, p, i, f), g) { InstallSlots(d, p, i, f, g); }
    forall q, w ensures EndsExact(Install(d, p, i, f), q, w) { InstallEnds(d, p, i, f, q, w); }
    forall n ensures OpensExact(Install(d, p, i, f), n) { InstallOpens(d, p, i, f, n); }
  }

  // ---- One slot fewer ----------------------------------------------------------------------------

  lemma ClearApart(d: Desc, p: Pid, i: nat)
    requires Closed(d) && p in d.tables && i < NR_OPEN && d.tables[p][i].Some?
    ensures OneSlotApart(d, Clear(d, p, i), p, i)
  {
  }

  lemma ClearSlots(d: Desc, p: Pid, i: nat, g: FileId)
    requires Closed(d) && p in d.tables && i < NR_OPEN && d.tables[p][i].Some?
    requires RefsExact(d, g)
    ensures RefsExact(Clear(d, p, i), g)
  {
    hide SlotsOf, OneSlotApart;
    ClearApart(d, p, i);
    SlotsChange(d, Clear(d, p, i), p, i, g);
  }

  lemma ClearEnds(d: Desc, p: Pid, i: nat, q: PipeId, w: bool)
    requires Closed(d) && p in d.tables && i < NR_OPEN && d.tables[p][i].Some?
    requires EndsExact(d, q, w)
    ensures EndsExact(Clear(d, p, i), q, w)
  {
    hide EndSlots, OneSlotApart;
    ClearApart(d, p, i);
    EndsChange(d, Clear(d, p, i), p, i, q, w);
  }

  lemma ClearOpens(d: Desc, p: Pid, i: nat, n: Ino)
    requires Closed(d) && p in d.tables && i < NR_OPEN && d.tables[p][i].Some?
    requires RefsExact(d, d.tables[p][i].value) && OpensExact(d, n)
    ensures OpensExact(Clear(d, p, i), n)
  {
    var d', f := Clear(d, p, i), d.tables[p][i].value;
    assert (p, i) in SlotsOf(d, f);
    if d.files[f].obj == Node(n) && d.files[f].refs == 1 {
      assert f in LiveFiles(d, n);
      assert LiveFiles(d', n) == LiveFiles(d, n) - {f};
    } else {
      assert LiveFiles(d', n) == LiveFiles(d, n);
    }
  }

  lemma ClearClosed(d: Desc, p: Pid, i: nat)
    requires Closed(d) && p in d.tables && i < NR_OPEN && d.tables[p][i].Some?
    ensures Closed(Clear(d, p, i))
  {
  }

  lemma ClearExact(d: Desc, p: Pid, i: nat)
    requires Exact(d) && p in d.tables && i < NR_OPEN && d.tables[p][i].Some?
    ensures Exact(Clear(d, p, i))
  {
    hide Clear, Closed, RefsExact, EndsExact, OpensExact;
    ClearClosed(d, p, i);
    forall g ensures RefsExact(Clear(d, p, i), g) { ClearSlots(d, p, i, g); }
    forall q, w ensures EndsExact(Clear(d, p, i), q, w) { ClearEnds(d, p, i, q, w); }
    forall n ensures OpensExact(Clear(d, p, i), n) { ClearOpens(d, p, i, n); }
  }

  /** The clamps at zero never act: each count that is lowered is positive. */
  lemma ClampsNeverAct(d: Desc, p: Pid, i: nat)
    requires Exact(d) && p in d.tables && i < NR_OPEN && d.tables[p][i].Some?
    ensures var file := d.files[d.tables[p][i].value];
      && file.refs >= 1
      && (file.obj.PipeEnd? && file.Readable() ==> d.pipes[file.obj.pipe].readers >= 1)
      && (file.obj.PipeEnd? && file.Writable() ==> d.pipes[file.obj.pipe].writers >= 1)
      && (file.obj.Node? ==> OpenRefs(d, file.obj.ino) >= 1)
  {
    var f := d.tables[p][i].value;
    var file := d.files[f];
    assert RefsExact(d, f) && (p, i) in SlotsOf(d, f);
    if file.obj.PipeEnd? && file.Readable() {
      assert EndsExact(d, file.obj.pipe, false) && (p, i) in EndSlots(d, file.obj.pipe, false);
    }
    if file.obj.PipeEnd? && file.Writable() {
      assert EndsExact(d, file.obj.pipe, true) && (p, i) in EndSlots(d, file.obj.pipe, true);
    }
    if file.obj.Node? {
      assert OpensExact(d, file.obj.ino) && f in LiveFiles(d, file.obj.ino);
    }
  }

  // ---- A new open file --------------------------------------------------------------------------

  lemma NewApart(d: Desc, p: Pid, i: nat, obj: Object, access: nat, append: bool)
    requires Closed(d) && p in d.tables && i < NR_OPEN && (obj.PipeEnd? ==> obj.pipe in d.pipes)
    ensures OneSlotApart(d, InstallNew(d, p, i, obj, access, append), p, i)
    ensures Closed(InstallNew(d, p, i, obj, access, append))
    ensures SlotsOf(d, d.nextFile) == {}
  {
  }

  lemma NewSlots(d: Desc, p: Pid, i: nat, obj: Object, access: nat, append: bool, g: FileId)
    requires Closed(d) && p in d.tables && i < NR_OPEN && d.tables[p][i].None? && (obj.PipeEnd? ==> obj.pipe in d.pipes)
    requires RefsExact(d, g)
    ensures RefsExact(InstallNew(d, p, i, obj, access, append), g)
  {
    hide SlotsOf, OneSlotApart;
    NewApart(d, p, i, obj, access, append);
    SlotsChange(d, InstallNew(d, p, i, obj, access, append), p, i, g);
  }

  lemma NewEnds(d: Desc, p: Pid, i: nat, obj: Object, access: nat, append: bool, q: PipeId, w: bool)
    requires Closed(d) && p in d.tables && i < NR_OPEN && d.tables[p][i].None? && (obj.PipeEnd? ==> obj.pipe in d.pipes)
    requires EndsExact(d, q, w)
    ensures EndsExact(InstallNew(d, p, i, obj, access, append), q, w)
  {
    hide EndSlots, OneSlotApart, SlotsOf;
    NewApart(d, p, i, obj, access, append);
    EndsChange(d, InstallNew(d, p, i, obj, access, append), p, i, q, w);
  }

  lemma NewOpens(d: Desc, p: Pid, i: nat, obj: Object, access: nat, append: bool, n: Ino)
    requires Closed(d) && p in d.tables && i < NR_OPEN && (obj.PipeEnd? ==> obj.pipe in d.pipes)
    requires OpensExact(d, n)
    ensures OpensExact(InstallNew(d, p, i, obj, access, append), n)
  {
    hide Closed;
    FileUnused(d);
    var d' := InstallNew(d, p, i, obj, access, append);
    var file := OpenFile(obj, access, append, false, 0, 1);
    assert d'.files == d.files[d.nextFile := file];
    if obj == Node(n) {
      assert LiveFiles(d', n) == LiveFiles(d, n) + {d.nextFile};
    } else {
      assert LiveFiles(d', n) == LiveFiles(d, n);
    }
  }

  lemma FileUnused(d: Desc)
    requires Closed(d)
    ensures d.nextFile !in d.files
  {
  }

  lemma NewExact(d: Desc, p: Pid, i: nat, obj: Object, access: nat, append: bool)
    requires Exact(d) && p in d.tables && i < NR_OPEN && d.tables[p][i].None? && (obj.PipeEnd? ==> obj.pipe in d.pipes)
    ensures Exact(InstallNew(d, p, i, obj, access, append))
  {
    hide InstallNew, Closed, RefsExact, EndsExact, OpensExact, OneSlotApart, SlotsOf;
    NewApart(d, p, i, obj, access, append);
    var d' := InstallNew(d, p, i, obj, access, append);
    forall g ensures RefsExact(d', g) { NewSlots(d, p, i, obj, access, append, g); }
    forall q, w ensures EndsExact(d', q, w) { NewEnds(d, p, i, obj, access, append, q, w); }
    forall n ensures OpensExact(d', n) { NewOpens(d, p, i, obj, access, append, n); }
  }

  // ---- Steps that move no descriptor ---------------------------------------------------------------

  /** Same slots, same objects and access modes, same reference counts. */
  ghost predicate SameCounts(d: Desc, d': Desc) {
    && d'.tables == d.tables && d'.opens == d.opens && d'.files.Keys == d.files.Keys
    && (forall f :: f in d.files ==> d'.files[f].obj == d.files[f].obj && d'.files[f].access == d.files[f].access
                                     && d'.files[f].refs == d.files[f].refs)
    && d'.pipes.Keys == d.pipes.Keys
    && (forall q :: q in d.pipes ==> d'.pipes[q].readers == d.pipes[q].readers && d'.pipes[q].writers == d.pipes[q].writers)
    && d'.marks.Keys == d.marks.Keys && d'.nextFile == d.nextFile && d'.nextPipe == d.nextPipe
  }

  lemma SameCountsExact(d: Desc, d': Desc)
    requires Exact(d) && SameCounts(d, d')
    ensures Exact(d')
  {
    hide Exact;
    SameClosed(d, d');
    forall f ensures RefsExact(d', f) { SameRefs(d, d', f); }
    forall q, w ensures EndsExact(d', q, w) { SameEnds(d, d', q, w); }
    forall n ensures OpensExact(d', n) { SameOpens(d, d', n); }
    ExactIntro(d');
  }

  lemma ExactIntro(d: Desc)
    requires Closed(d) && (forall f :: RefsExact(d, f)) && (forall q, w :: EndsExact(d, q, w)) && (forall n :: OpensExact(d, n))
    ensures Exact(d)
  {
  }

  lemma SameClosed(d: Desc, d': Desc)
    requires Exact(d) && SameCounts(d, d')
    ensures Closed(d')
  {
  }

  lemma SameRefs(d: Desc, d': Desc, f: FileId)
    requires Exact(d) && SameCounts(d, d')
    ensures RefsExact(d', f)
  {
    assert RefsExact(d, f);
    assert SlotsOf(d', f) == SlotsOf(d, f);
  }

  lemma SameEnds(d: Desc, d': Desc, q: PipeId, w: bool)
    requires Exact(d) && SameCounts(d, d')
    ensures EndsExact(d', q, w)
  {
    assert EndsExact(d, q, w);
    assert EndSlots(d', q, w) == EndSlots(d, q, w);
  }

  lemma SameOpens(d: Desc, d': Desc, n: Ino)
    requires Exact(d) && SameCounts(d, d')
    ensures OpensExact(d', n)
  {
    assert OpensExact(d, n);
    assert LiveFiles(d', n) == LiveFiles(d, n);
  }

  /** A process without descriptors comes or goes, or an unused pipe appears. */
  function AddTable(d: Desc, p: Pid, marks: set<nat>): Desc {
    d.(tables := d.tables[p := NoFiles()], marks := d.marks[p := marks])
  }

  function DropTable(d: Desc, p: Pid): Desc {
    Desc(d.tables - {p}, d.marks - {p}, d.files, d.pipes, d.opens, d.nextFile, d.nextPipe)
  }

  function AddPipe(d: Desc): Desc {
    d.(pipes := d.pipes[d.nextPipe := EMPTY_PIPE], nextPipe := d.nextPipe + 1)
  }

  ghost predicate SameSlots(d: Desc, d': Desc) {
    && d'.files == d.files && d'.opens == d.opens
    && (forall q :: q in d.pipes ==> q in d'.pipes && d'.pipes[q] == d.pipes[q])
    && (forall q :: q in d'.pipes && q !in d.pipes ==> d'.pipes[q] == EMPTY_PIPE)
    && (forall s: Slot, f :: Holds(d', s, f) == Holds(d, s, f))
    && (forall s: Slot, q, w :: HoldsEnd(d', s, q, w) == HoldsEnd(d, s, q, w))
  }

  lemma SameSlotsExact(d: Desc, d': Desc)
    requires Exact(d) && SameSlots(d, d') && Closed(d')
    ensures Exact(d')
  {
    forall f ensures RefsExact(d', f) {
      assert RefsExact(d, f);
      forall s ensures s in SlotsOf(d', f) <==> s in SlotsOf(d, f) { SlotsMember(d, f, s); SlotsMember(d', f, s); }
      assert SlotsOf(d', f) == SlotsOf(d, f);
    }
    forall q, w ensures EndsExact(d', q, w) {
      assert EndsExact(d, q, w);
      forall s ensures s in EndSlots(d', q, w) <==> s in EndSlots(d, q, w) { EndsMember(d, q, w, s); EndsMember(d', q, w, s); }
      assert EndSlots(d', q, w) == EndSlots(d, q, w);
      if q !in d.pipes { assert EndSlots(d, q, w) == {}; }
    }
    forall n ensures OpensExact(d', n) {
      assert OpensExact(d, n);
      assert LiveFiles(d', n) == LiveFiles(d, n);
    }
  }

  lemma AddTableExact(d: Desc, p: Pid, marks: set<nat>)
    requires Exact(d) && p !in d.tables
    ensures Exact(AddTable(d, p, marks))
  {
    SameSlotsExact(d, AddTable(d, p, marks));
  }

  lemma DropTableExact(d: Desc, p: Pid)
    requires Exact(d) && (p in d.tables ==> d.tables[p] == NoFiles())
    ensures Exact(DropTable(d, p))
  {
    SameSlotsExact(d, DropTable(d, p));
  }

  lemma AddPipeExact(d: Desc)
    requires Exact(d)
    ensures Exact(AddPipe(d))
  {
    SameSlotsExact(d, AddPipe(d));
  }

  /** Known files keep their objects, and pipes their contents. */
  ghost predicate KeepsObjects(d: Desc, d': Desc) {
    && (forall f :: f in d.files ==> f in d'.files && d'.files[f].obj == d.files[f].obj)
    && (forall q :: q in d.pipes ==> q in d'.pipes && d'.pipes[q].buf == d.pipes[q].buf)
    && (forall q :: q in d'.pipes && q !in d.pipes ==> q >= d.nextPipe && d'.pipes[q].buf == [])
    && d'.nextPipe >= d.nextPipe
  }

  /** Open files may have gained or lost descriptors, and nothing else about them has changed. */
  ghost predicate SameFiles(d: Desc, d': Desc) {
    forall f :: f in d.files ==> f in d'.files && d'.files[f] == d.files[f].(refs := d'.files[f].refs)
  }

  lemma SameTrans(d1: Desc, d2: Desc, d3: Desc)
    requires SameFiles(d1, d2) && SameFiles(d2, d3)
    ensures SameFiles(d1, d3)
  {
  }

  lemma KeepsTrans(d1: Desc, d2: Desc, d3: Desc)
    requires KeepsObjects(d1, d2) && KeepsObjects(d2, d3)
    ensures KeepsObjects(d1, d3)
  {
  }

  /** Putting the open file of slot (p, i) also into the free slot (r, j). */
  lemma Sharing(d: Desc, p: Pid, i: nat, r: Pid, j: nat)
    requires Exact(d) && p in d.tables && i < NR_OPEN && d.tables[p][i].Some?
    requires r in d.tables && j < NR_OPEN && d.tables[r][j].None?
    ensures Closed(d) && d.tables[p][i].value in d.files
    ensures var d' := Install(d, r, j, d.tables[p][i].value);
      && Exact(d') && KeepsObjects(d, d') && SameFiles(d, d') && d'.marks == d.marks
      && d'.tables == d.tables[r := d.tables[r][j := d.tables[p][i]]]
  {
    hide RefsExact, EndsExact, OpensExact;
    ClampsNeverAct(d, p, i);
    InstallExact(d, r, j, d.tables[p][i].value);
  }

  lemma Clearing(d: Desc, p: Pid, i: nat)
    requires Exact(d) && p in d.tables && i < NR_OPEN && d.tables[p][i].Some?
    ensures Closed(d)
    ensures Exact(Clear(d, p, i)) && KeepsObjects(d, Clear(d, p, i)) && Clear(d, p, i).marks == d.marks
    ensures SameFiles(d, Clear(d, p, i))
    ensures Clear(d, p, i).tables == d.tables[p := d.tables[p][i := None]]
  {
    hide RefsExact, EndsExact, OpensExact;
    ClearExact(d, p, i);
  }

  lemma MarksKnown(d: Desc, p: Pid)
    requires Exact(d) && p in d.tables
    ensures p in d.marks
  {
  }

  // ---- System calls -----------------------------------------------------------------------------

  /** A call's new state and what it leaves in eax (a negated errno on failure). */
  datatype Ret = Ret(d: Desc, r: int)

  /** The lowest free slot at or above start. */
  function FreeFrom(t: Table, start: nat): (i: Option<nat>)
    ensures i.Some? ==> start <= i.value < NR_OPEN && t[i.value].None?
    ensures i.Some? ==> forall j :: start <= j < i.value ==> t[j].Some?
    ensures i.None? ==> forall j :: start <= j < NR_OPEN ==> t[j].Some?
    decreases NR_OPEN - start
  {
    if start >= NR_OPEN then None
    else if t[start].None? then Some(start)
    else FreeFrom(t, start + 1)
  }

  /** The descriptor refers to an open file. */
  predicate IsOpen(d: Desc, p: Pid, fd: int) {
    p in d.tables && 0 <= fd < NR_OPEN && d.tables[p][fd].Some?
  }

  lemma SlotIsLive(d: Desc, p: Pid, i: nat)
    requires Exact(d) && IsOpen(d, p, i)
    ensures d.tables[p][i].value in d.files && d.files[d.tables[p][i].value].refs > 0
  {
    ClampsNeverAct(d, p, i);
  }

  function Close(d: Desc, p: Pid, fd: int): (r: Ret)
    requires Exact(d) && p in d.tables
    ensures Exact(r.d) && KeepsObjects(d, r.d)
    ensures r.r == if IsOpen(d, p, fd) then 0 else -EBADF
    ensures r.d.tables == if IsOpen(d, p, fd) then d.tables[p := d.tables[p][fd := None]] else d.tables
  {
    hide Exact, Clear;
    if !IsOpen(d, p, fd) then Ret(d, -EBADF)
    else
      Clearing(d, p, fd);
      Ret(Clear(d, p, fd), 0)
  }

  /** dup, and F_DUPFD from a lower bound: the lowest free descriptor shares the open file. */
  function DupFrom(d: Desc, p: Pid, fd: int, start: nat): (r: Ret)
    requires Exact(d) && p in d.tables
    ensures Exact(r.d) && KeepsObjects(d, r.d)
    ensures !IsOpen(d, p, fd) ==> r == Ret(d, -EBADF)
    ensures IsOpen(d, p, fd) && FreeFrom(d.tables[p], start).None? ==> r == Ret(d, -EMFILE)
    ensures IsOpen(d, p, fd) && FreeFrom(d.tables[p], start).Some? ==>
      && r.r == FreeFrom(d.tables[p], start).value
      && r.d.tables == d.tables[p := d.tables[p][r.r := d.tables[p][fd]]]
  {
    hide Exact, Install;
    if !IsOpen(d, p, fd) then Ret(d, -EBADF)
    else
      match FreeFrom(d.tables[p], start)
      case None => Ret(d, -EMFILE)
      case Some(i) =>
        Sharing(d, p, fd, p, i);
        Ret(Install(d, p, i, d.tables[p][fd].value), i)
  }

  function Unmark(d: Desc, p: Pid, fd: nat): Desc
    requires p in d.marks
  {
    d.(marks := d.marks[p := d.marks[p] - {fd}])
  }

  lemma MarksIrrelevant(d: Desc, p: Pid, marks: set<nat>)
    requires Exact(d) && p in d.marks
    ensures Exact(d.(marks := d.marks[p := marks])) && KeepsObjects(d, d.(marks := d.marks[p := marks]))
  {
    SameCountsExact(d, d.(marks := d.marks[p := marks]));
  }

  lemma SameTable(tables: map<Pid, Table>, p: Pid, t: Table)
    requires p in tables && (forall i :: 0 <= i < NR_OPEN ==> t[i] == tables[p][i])
    ensures tables[p := t] == tables
  {
    assert t == tables[p];
  }

  /** dup2: whatever was open at the target is closed first, and its close-on-exec mark goes. */
  function Dup2(d: Desc, p: Pid, fd: int, newFd: int): (r: Ret)
    requires Exact(d) && p in d.tables
    ensures Exact(r.d)
  {
    if !IsOpen(d, p, fd) then Ret(d, -EBADF)
    else if !(0 <= newFd < NR_OPEN) then Ret(d, -EBADF)
    else if fd == newFd then Ret(d, newFd)
    else
      ReplaceKeeps(d, p, fd, newFd);
      Ret(Replace(d, p, fd, newFd), newFd)
  }

  /** Closing newFd and letting it share the open file of fd. */
  function Replace(d: Desc, p: Pid, fd: nat, newFd: nat): Desc
    requires Exact(d) && IsOpen(d, p, fd) && newFd < NR_OPEN && fd != newFd
  {
    ClosedSlotFree(d, p, newFd);
    var d1 := Close(d, p, newFd).d;
    Sharing(d1, p, fd, p, newFd);
    Unmark(Install(d1, p, newFd, d1.tables[p][fd].value), p, newFd)
  }

  lemma ReplaceKeeps(d: Desc, p: Pid, fd: nat, newFd: nat)
    requires Exact(d) && IsOpen(d, p, fd) && newFd < NR_OPEN && fd != newFd
    ensures var r := Replace(d, p, fd, newFd);
      && Exact(r) && KeepsObjects(d, r)
      && r.tables == d.tables[p := d.tables[p][newFd := d.tables[p][fd]]]
  {
    hide Exact, Install, KeepsObjects, Close;
    var d1 := Close(d, p, newFd).d;
    ClosedSlotFree(d, p, newFd);
    Sharing(d1, p, fd, p, newFd);
    var d2 := Install(d1, p, newFd, d1.tables[p][fd].value);
    MarksKnown(d2, p);
    MarksIrrelevant(d2, p, d2.marks[p] - {newFd});
    KeepsTrans(d, d1, d2);
    KeepsTrans(d, d2, Unmark(d2, p, newFd));
    assert d2.tables[p] == d.tables[p][newFd := d.tables[p][fd]];
    assert d2.tables == d.tables[p := d2.tables[p]];
  }

  /** After a successful dup2 both descriptors refer to one open file and no other slot has changed. */
  lemma Dup2Result(d: Desc, p: Pid, fd: int, newFd: int)
    requires Exact(d) && p in d.tables
    ensures var r := Dup2(d, p, fd, newFd);
      && KeepsObjects(d, r.d)
      && (!IsOpen(d, p, fd) || !(0 <= newFd < NR_OPEN) ==> r == Ret(d, -EBADF))
      && (IsOpen(d, p, fd) && 0 <= newFd < NR_OPEN ==>
           r.r == newFd && r.d.tables == d.tables[p := d.tables[p][newFd := d.tables[p][fd]]])
  {
    hide Exact, Replace, KeepsObjects;
    KeepsSelf(d);
    if IsOpen(d, p, fd) && 0 <= newFd < NR_OPEN {
      if fd == newFd { SameTable(d.tables, p, d.tables[p][newFd := d.tables[p][fd]]); }
      else { ReplaceKeeps(d, p, fd, newFd); }
    }
  }

  lemma SameSelf(d: Desc)
    ensures SameFiles(d, d)
  {
  }

  lemma KeepsSelf(d: Desc)
    ensures KeepsObjects(d, d)
  {
  }

  lemma ClosedSlotFree(d: Desc, p: Pid, fd: nat)
    requires Exact(d) && p in d.tables && fd < NR_OPEN
    ensures var r := Close(d, p, fd).d;
      && Exact(r) && KeepsObjects(d, r)
      && p in r.tables && r.tables[p] == d.tables[p][fd := None] && r.tables == d.tables[p := r.tables[p]]
  {
    hide Exact, KeepsObjects;
    if !IsOpen(d, p, fd) {
      SameTable(d.tables, p, d.tables[p][fd := None]);
      KeepsSelf(d);
    }
  }

  /** F_SETFL: only O_APPEND and O_NONBLOCK can change. */
  function SetStatus(d: Desc, p: Pid, fd: nat, append: bool, nonblock: bool): (r: Desc)
    requires Exact(d) && IsOpen(d, p, fd)
    ensures Exact(r) && KeepsObjects(d, r) && r.tables == d.tables
  {
    var f := d.tables[p][fd].value;
    var r := d.(files := d.files[f := d.files[f].(append := append, nonblock := nonblock)]);
    SameCountsExact(d, r);
    r
  }

  /** The two lowest free slots. */
  function FreePair(t: Table): (r: Option<(nat, nat)>)
    ensures r.Some? ==> r.value.0 < r.value.1 < NR_OPEN
    ensures r.Some? ==> forall i :: 0 <= i <= r.value.1 ==> (t[i].None? <==> i == r.value.0 || i == r.value.1)
    ensures r.None? ==> forall i, j :: 0 <= i < j < NR_OPEN ==> t[i].Some? || t[j].Some?
  {
    match FreeFrom(t, 0)
    case None => None
    case Some(i) =>
      match FreeFrom(t, i + 1)
      case None => None
      case Some(j) => Some((i, j))
  }

  /** pipe: two new open files on a new pipe, in the two lowest free slots; nothing remains when
      only one slot is free. */
  function MakePipe(d: Desc, p: Pid): (r: Ret)
    requires Exact(d) && p in d.tables
    ensures Exact(r.d) && KeepsObjects(d, r.d)
    ensures r.r == if FreePair(d.tables[p]).Some? then 0 else -EMFILE
    ensures r.r != 0 ==> r.d == d
  {
    hide Exact, InstallNew, KeepsObjects, AddPipe;
    match FreePair(d.tables[p])
    case None =>
      KeepsSelf(d);
      Ret(d, -EMFILE)
    case Some(fds) =>
      NewPipe(d);
      var d1 := AddPipe(d);
      Opening(d1, p, fds.0, PipeEnd(d.nextPipe), 0, false);
      var d2 := InstallNew(d1, p, fds.0, PipeEnd(d.nextPipe), 0, false);
      Opening(d2, p, fds.1, PipeEnd(d.nextPipe), 1, false);
      var d3 := InstallNew(d2, p, fds.1, PipeEnd(d.nextPipe), 1, false);
      KeepsTrans(d, d1, d2);
      KeepsTrans(d, d2, d3);
      Ret(d3, 0)
  }

  lemma NewPipe(d: Desc)
    requires Exact(d)
    ensures Exact(AddPipe(d)) && KeepsObjects(d, AddPipe(d))
    ensures AddPipe(d).tables == d.tables && d.nextPipe in AddPipe(d).pipes
  {
    hide RefsExact, EndsExact, OpensExact;
    AddPipeExact(d);
  }

  lemma Opening(d: Desc, p: Pid, i: nat, obj: Object, access: nat, append: bool)
    requires Exact(d) && p in d.tables && i < NR_OPEN && d.tables[p][i].None? && (obj.PipeEnd? ==> obj.pipe in d.pipes)
    ensures var d' := InstallNew(d, p, i, obj, access, append);
      && Exact(d') && KeepsObjects(d, d') && d'.tables == d.tables[p := d.tables[p][i := Some(d.nextFile)]]
      && d'.pipes.Keys == d.pipes.Keys && d'.marks == d.marks
      && forall n :: OpenRefs(d', n) == OpenRefs(d, n) + if obj == Node(n) then 1 else 0
  {
    hide Exact, Closed;
    NewExact(d, p, i, obj, access, append);
    NumbersUnused(d);
  }

  lemma NumbersUnused(d: Desc)
    requires Exact(d)
    ensures d.nextFile !in d.files
  {
  }

  /** The new pipe counts one reader and one writer, and its two ends are open at the returned slots
      and nowhere else. */
  lemma PipeMade(d: Desc, p: Pid)
    requires Exact(d) && p in d.tables && FreePair(d.tables[p]).Some?
    ensures var r := MakePipe(d, p).d;
      var (rfd, wfd) := FreePair(d.tables[p]).value;
      && d.nextPipe !in d.pipes && r.pipes == d.pipes[d.nextPipe := PipeValue([], 1, 1)]
      && r.tables == d.tables[p := d.tables[p][rfd := Some(d.nextFile)][wfd := Some(d.nextFile + 1)]]
      && r.files == d.files[d.nextFile := OpenFile(PipeEnd(d.nextPipe), 0, false, false, 0, 1)]
                           [d.nextFile + 1 := OpenFile(PipeEnd(d.nextPipe), 1, false, false, 0, 1)]
      && r.opens == d.opens && r.marks == d.marks
      && r.nextFile == d.nextFile + 2 && r.nextPipe == d.nextPipe + 1
  {
    hide Exact, RefsExact, EndsExact, OpensExact, FreePair;
    PipeUnused(d);
    var r := MakePipe(d, p).d;
    assert r.pipes == d.pipes[d.nextPipe := PipeValue([], 1, 1)];
  }

  lemma PipeUnused(d: Desc)
    requires Exact(d)
    ensures d.nextPipe !in d.pipes
  {
  }

  /** open on an object: the lowest free slot, and one more live file of the inode. */
  function OpenObject(d: Desc, p: Pid, obj: Object, access: nat, append: bool): (r: Ret)
    requires Exact(d) && p in d.tables && !obj.PipeEnd?
    ensures Exact(r.d) && KeepsObjects(d, r.d)
    ensures FreeFrom(d.tables[p], 0).None? ==> r == Ret(d, -EMFILE)
    ensures FreeFrom(d.tables[p], 0).Some? ==>
      && r.r == FreeFrom(d.tables[p], 0).value
      && r.d.tables == d.tables[p := d.tables[p][r.r := Some(d.nextFile)]]
      && forall n :: OpenRefs(r.d, n) == OpenRefs(d, n) + if obj == Node(n) then 1 else 0
  {
    hide Exact, InstallNew, KeepsObjects;
    match FreeFrom(d.tables[p], 0)
    case None =>
      KeepsSelf(d);
      Ret(d, -EMFILE)
    case Some(i) =>
      Opening(d, p, i, obj, access, append);
      Ret(InstallNew(d, p, i, obj, access, append), i)
  }

  // ---- What else the calls leave -----------------------------------------------------------------------

  /** The errors are EBADF (9) and EMFILE (24), and change nothing; a table has 20 slots. */
  lemma ErrorsExact(d: Desc, p: Pid, fd: int, start: nat, obj: Object)
    requires Exact(d) && p in d.tables && !obj.PipeEnd?
    ensures |d.tables[p]| == 20 && (IsOpen(d, p, fd) ==> 0 <= fd < 20)
    ensures !IsOpen(d, p, fd) ==> Close(d, p, fd) == Ret(d, -9) && DupFrom(d, p, fd, start) == Ret(d, -9)
    ensures IsOpen(d, p, fd) && FreeFrom(d.tables[p], start).None? ==> DupFrom(d, p, fd, start) == Ret(d, -24)
    ensures !IsOpen(d, p, fd) || start >= 20 ==> Dup2(d, p, fd, start) == Ret(d, -9)
    ensures FreeFrom(d.tables[p], 0).None? ==> OpenObject(d, p, obj, 0, false) == Ret(d, -24)
    ensures FreePair(d.tables[p]).None? ==> MakePipe(d, p) == Ret(d, -24)
  {
    hide Exact, KeepsObjects, Replace;
  }

  /** close keeps all marks and every open file's position and status. */
  lemma CloseExact(d: Desc, p: Pid, fd: int)
    requires Exact(d) && p in d.tables
    ensures SameFiles(d, Close(d, p, fd).d) && Close(d, p, fd).d.marks == d.marks
  {
    hide Exact, Clear, SameFiles;
    SameSelf(d);
    if IsOpen(d, p, fd) { Clearing(d, p, fd); }
  }

  /** dup keeps them too. */
  lemma DupExact(d: Desc, p: Pid, fd: int, start: nat)
    requires Exact(d) && p in d.tables
    ensures var r := DupFrom(d, p, fd, start).d; SameFiles(d, r) && r.marks == d.marks
  {
    hide Exact, Install, SameFiles;
    SameSelf(d);
    if IsOpen(d, p, fd) && FreeFrom(d.tables[p], start).Some? { Sharing(d, p, fd, p, FreeFrom(d.tables[p], start).value); }
  }

  /** dup2 keeps them, but for the mark of the target. */
  lemma Dup2Exact(d: Desc, p: Pid, fd: int, newFd: int)
    requires Exact(d) && p in d.tables && p in d.marks
    ensures var r := Dup2(d, p, fd, newFd).d;
      && SameFiles(d, r) && (forall q :: q in d.marks && q != p ==> q in r.marks && r.marks[q] == d.marks[q])
      && p in r.marks && r.marks[p] ==
           if IsOpen(d, p, fd) && 0 <= newFd < NR_OPEN && fd != newFd then d.marks[p] - {newFd} else d.marks[p]
  {
    hide Exact, Install, Close;
    if IsOpen(d, p, fd) && 0 <= newFd < NR_OPEN && fd != newFd {
      ClosedSlotFree(d, p, newFd);
      CloseExact(d, p, newFd);
      var d1 := Close(d, p, newFd).d;
      Sharing(d1, p, fd, p, newFd);
    }
  }

  /** A new open file has the object, access and status asked for, starts at 0, and has one descriptor; the others are as
      they were. */
  lemma OpenExact(d: Desc, p: Pid, obj: Object, access: nat, append: bool)
    requires Exact(d) && p in d.tables && !obj.PipeEnd? && FreeFrom(d.tables[p], 0).Some?
    ensures var r := OpenObject(d, p, obj, access, append).d;
      && d.nextFile !in d.files && r.files == d.files[d.nextFile := OpenFile(obj, access, append, false, 0, 1)]
      && r.marks == d.marks && r.pipes == d.pipes
  {
    hide RefsExact, EndsExact, OpensExact, KeepsObjects;
  }

  /** F_SETFL changes the two status bits of that open file only. */
  lemma StatusExact(d: Desc, p: Pid, fd: nat, append: bool, nonblock: bool)
    requires Exact(d) && IsOpen(d, p, fd)
    ensures var r, f := SetStatus(d, p, fd, append, nonblock), d.tables[p][fd].value;
      && f in d.files && r == d.(files := r.files) && r.files.Keys == d.files.Keys
      && (forall g :: g in d.files && g != f ==> r.files[g] == d.files[g])
      && r.files[f].append == append && r.files[f].nonblock == nonblock
      && r.files[f].obj == d.files[f].obj && r.files[f].access == d.files[f].access && r.files[f].pos == d.files[f].pos
  {
    hide RefsExact, EndsExact, OpensExact, KeepsObjects;
  }

  // ---- Whole tables ------------------------------------------------------------------------------

  /** Copying slots i.. of one process to another that has them free. */
  function CopySlots(d: Desc, p: Pid, child: Pid, i: nat): (r: Desc)
    requires Exact(d) && p in d.tables && child in d.tables && p != child && i <= NR_OPEN
    requires forall j :: i <= j < NR_OPEN ==> d.tables[child][j].None?
    ensures Exact(r)
    decreases NR_OPEN - i
  {
    if i == NR_OPEN then d
    else if d.tables[p][i].None? then CopySlots(d, p, child, i + 1)
    else
      Sharing(d, p, i, child, i);
      CopySlots(Install(d, child, i, d.tables[p][i].value), p, child, i + 1)
  }

  lemma {:induction false} CopySlotsResult(d: Desc, p: Pid, child: Pid, i: nat)
    requires Exact(d) && p in d.tables && child in d.tables && p != child && i <= NR_OPEN
    requires forall j :: i <= j < NR_OPEN ==> d.tables[child][j].None?
    ensures var r := CopySlots(d, p, child, i);
      && KeepsObjects(d, r) && SameFiles(d, r) && r.marks == d.marks
      && r.tables == d.tables[child := d.tables[child][..i] + d.tables[p][i..]]
    decreases NR_OPEN - i
  {
    hide Exact, Install, KeepsObjects, SameFiles;
    if i == NR_OPEN {
      SameTable(d.tables, child, d.tables[child][..i] + d.tables[p][i..]);
      KeepsSelf(d);
      SameSelf(d);
    } else if d.tables[p][i].None? {
      assert d.tables[child][..i] + d.tables[p][i..] == d.tables[child][..i + 1] + d.tables[p][i + 1..];
      CopySlotsResult(d, p, child, i + 1);
    } else {
      Sharing(d, p, i, child, i);
      var d1 := Install(d, child, i, d.tables[p][i].value);
      CopySlotsResult(d1, p, child, i + 1);
      KeepsTrans(d, d1, CopySlots(d1, p, child, i + 1));
      SameTrans(d, d1, CopySlots(d1, p, child, i + 1));
      assert d1.tables[child][..i + 1] + d1.tables[p][i + 1..] == d.tables[child][..i] + d.tables[p][i..];
    }
  }

  /** fork: the child shares every open file of the parent. */
  function ForkTable(d: Desc, p: Pid, child: Pid): (r: Desc)
    requires Exact(d) && p in d.tables && child !in d.tables
    ensures Exact(r)
  {
    MarksKnown(d, p);
    NewTable(d, child, d.marks[p]);
    CopySlots(AddTable(d, child, d.marks[p]), p, child, 0)
  }

  /** The child of a fork has the parent's table and marks; nothing else has changed. */
  lemma ForkResult(d: Desc, p: Pid, child: Pid)
    requires Exact(d) && p in d.tables && child !in d.tables && p in d.marks
    ensures var r := ForkTable(d, p, child);
      && KeepsObjects(d, r) && SameFiles(d, r) && r.tables == d.tables[child := d.tables[p]] && r.marks == d.marks[child := d.marks[p]]
  {
    hide Exact, KeepsObjects, CopySlots;
    NewTable(d, child, d.marks[p]);
    var d1 := AddTable(d, child, d.marks[p]);
    CopySlotsResult(d1, p, child, 0);
    KeepsTrans(d, d1, CopySlots(d1, p, child, 0));
    assert d1.tables[child][..0] + d1.tables[p][0..] == d.tables[p];
  }

  lemma NewTable(d: Desc, p: Pid, marks: set<nat>)
    requires Exact(d) && p !in d.tables
    ensures Exact(AddTable(d, p, marks)) && KeepsObjects(d, AddTable(d, p, marks))
  {
    hide Exact;
    AddTableExact(d, p, marks);
  }

  /** Closing the slots i.., all of them or those marked close-on-exec. */
  function CloseSlots(d: Desc, p: Pid, all: bool, i: nat): (r: Desc)
    requires Exact(d) && p in d.tables && i <= NR_OPEN
    ensures Exact(r)
    decreases NR_OPEN - i
  {
    MarksKnown(d, p);
    if i == NR_OPEN then d
    else if !(all || i in d.marks[p]) || d.tables[p][i].None? then CloseSlots(d, p, all, i + 1)
    else
      Clearing(d, p, i);
      CloseSlots(Clear(d, p, i), p, all, i + 1)
  }

  lemma {:induction false} CloseSlotsResult(d: Desc, p: Pid, all: bool, i: nat)
    requires Exact(d) && p in d.tables && p in d.marks && i <= NR_OPEN
    ensures var r := CloseSlots(d, p, all, i);
      && KeepsObjects(d, r) && SameFiles(d, r) && r.marks == d.marks && p in r.tables && r.tables == d.tables[p := r.tables[p]]
      && forall j :: 0 <= j < NR_OPEN ==>
           r.tables[p][j] == if j >= i && (all || j in d.marks[p]) then None else d.tables[p][j]
    decreases NR_OPEN - i
  {
    hide Exact, Clear, KeepsObjects, SameFiles;
    if i == NR_OPEN {
      SameTable(d.tables, p, d.tables[p]);
      KeepsSelf(d);
      SameSelf(d);
    } else if !(all || i in d.marks[p]) || d.tables[p][i].None? {
      CloseSlotsResult(d, p, all, i + 1);
    } else {
      Clearing(d, p, i);
      CloseSlotsResult(Clear(d, p, i), p, all, i + 1);
      KeepsTrans(d, Clear(d, p, i), CloseSlots(Clear(d, p, i), p, all, i + 1));
      SameTrans(d, Clear(d, p, i), CloseSlots(Clear(d, p, i), p, all, i + 1));
    }
  }

  /** Exit empties the table. */
  function ExitTable(d: Desc, p: Pid): (r: Desc)
    requires Exact(d) && p in d.tables
    ensures Exact(r)
  {
    CloseSlots(d, p, true, 0)
  }

  /** execve closes the marked slots and clears the marks. */
  function ExecTable(d: Desc, p: Pid): (r: Desc)
    requires Exact(d) && p in d.tables
    ensures Exact(r)
  {
    MarksKnown(d, p);
    CloseSlotsResult(d, p, false, 0);
    var d1 := CloseSlots(d, p, false, 0);
    MarksIrrelevant(d1, p, {});
    d1.(marks := d1.marks[p := {}])
  }

  lemma ExitResult(d: Desc, p: Pid)
    requires Exact(d) && p in d.tables
    ensures ExitTable(d, p).tables == d.tables[p := NoFiles()] && KeepsObjects(d, ExitTable(d, p))
    ensures SameFiles(d, ExitTable(d, p)) && ExitTable(d, p).marks == d.marks
  {
    hide Exact, KeepsObjects, CloseSlots;
    MarksKnown(d, p);
    CloseSlotsResult(d, p, true, 0);
    assert ExitTable(d, p).tables[p] == NoFiles();
  }

  /** execve keeps exactly the unmarked descriptors. */
  lemma ExecResult(d: Desc, p: Pid)
    requires Exact(d) && p in d.tables && p in d.marks
    ensures var r := ExecTable(d, p);
      && KeepsObjects(d, r) && SameFiles(d, r) && r.marks == d.marks[p := {}] && p in r.tables && r.tables == d.tables[p := r.tables[p]]
      && forall j :: 0 <= j < NR_OPEN ==> r.tables[p][j] == if j in d.marks[p] then None else d.tables[p][j]
  {
    hide Exact, KeepsObjects, CloseSlots;
    CloseSlotsResult(d, p, false, 0);
    var d1 := CloseSlots(d, p, false, 0);
    MarksIrrelevant(d1, p, {});
    KeepsTrans(d, d1, ExecTable(d, p));
  }

  /** A pipe has no writers (readers) exactly when no descriptor anywhere is open for writing
      (reading) on it. */
  lemma NoEndNoSlot(d: Desc, q: PipeId)
    requires Exact(d) && q in d.pipes
    ensures d.pipes[q].writers == 0 <==> forall s: Slot :: !HoldsEnd(d, s, q, true)
    ensures d.pipes[q].readers == 0 <==> forall s: Slot :: !HoldsEnd(d, s, q, false)
    ensures d.pipes[q].writers >= 0 && d.pipes[q].readers >= 0
  {
    hide HoldsEnd, EndSlots;
    assert EndsExact(d, q, true) && EndsExact(d, q, false);
    forall s: Slot, w ensures s in EndSlots(d, q, w) <==> HoldsEnd(d, s, q, w) { EndsMember(d, q, w, s); }
    assert EndSlots(d, q, true) != {} ==> exists s :: s in EndSlots(d, q, true);
    assert EndSlots(d, q, false) != {} ==> exists s :: s in EndSlots(d, q, false);
  }

  // ---- The object ---------------------------------------------------------------------------------

  /** The kernel's descriptor state, updated in place. */
  class Files {
    var tables: map<Pid, Table>
    var marks: map<Pid, set<nat>>
    var files: map<FileId, OpenFile>
    var pipes: map<PipeId, PipeValue>
    var opens: map<Ino, int>
    var nextFile: FileId
    var nextPipe: PipeId

    function Value(): Desc
      reads this
    {
      Desc(tables, marks, files, pipes, opens, nextFile, nextPipe)
    }

    constructor ()
      ensures Exact(Value()) && tables == map[] && files == map[]
    {
      tables, marks, files, pipes, opens, nextFile, nextPipe := map[], map[], map[], map[], map[], 0, 0;
      new;
      assert forall f :: SlotsOf(Value(), f) == {};
      assert forall n :: LiveFiles(Value(), n) == {};
    }

    method AllocFd(p: Pid, start: nat) returns (i: Option<nat>)
      requires p in tables
      ensures i == FreeFrom(tables[p], start)
    {
      var j := start;
      while j < NR_OPEN
        invariant start <= j && FreeFrom(tables[p], j) == FreeFrom(tables[p], start)
      {
        if tables[p][j].None? { return Some(j); }
        j := j + 1;
      }
      return None;
    }

    method Acquire(f: FileId)
      requires f in files && (files[f].obj.PipeEnd? ==> files[f].obj.pipe in pipes)
      modifies this
      ensures Value() == AcquireFd(old(Value()), f)
    {
      var file := files[f];
      files := files[f := file.(refs := file.refs + 1)];
      if file.obj.PipeEnd? {
        var q := pipes[file.obj.pipe];
        if file.Readable() { q := q.(readers := q.readers + 1); }
        if file.Writable() { q := q.(writers := q.writers + 1); }
        pipes := pipes[file.obj.pipe := q];
      }
    }

    method Release(f: FileId)
      requires f in files && (files[f].obj.PipeEnd? ==> files[f].obj.pipe in pipes)
      modifies this
      ensures Value() == ReleaseFile(old(Value()), f)
    {
      var file := files[f];
      files := files[f := file.(refs := file.refs - 1)];
      if file.obj.PipeEnd? {
        var q := pipes[file.obj.pipe];
        if file.Readable() { q := q.(readers := Max(q.readers - 1, 0)); }
        if file.Writable() { q := q.(writers := Max(q.writers - 1, 0)); }
        pipes := pipes[file.obj.pipe := q];
      } else if file.obj.Node? && file.refs - 1 <= 0 {
        var ino := file.obj.ino;
        opens := opens[ino := Max((if ino in opens then opens[ino] else 0) - 1, 0)];
      }
    }

    method SysClose(p: Pid, fd: int) returns (r: int)
      requires Exact(Value()) && p in tables
      modifies this
      ensures Ret(Value(), r) == Close(old(Value()), p, fd)
    {
      hide RefsExact, EndsExact, OpensExact;
      if !(0 <= fd < NR_OPEN && tables[p][fd].Some?) { return -EBADF; }
      var f := tables[p][fd].value;
      tables := tables[p := tables[p][fd := None]];
      Release(f);
      r := 0;
    }

    /** dup (start 0) and F_DUPFD. */
    method SysDup(p: Pid, fd: int, start: nat) returns (r: int)
      requires Exact(Value()) && p in tables
      modifies this
      ensures Ret(Value(), r) == DupFrom(old(Value()), p, fd, start)
    {
      hide RefsExact, EndsExact, OpensExact;
      if !(0 <= fd < NR_OPEN && tables[p][fd].Some?) { return -EBADF; }
      var f := tables[p][fd].value;
      var i := AllocFd(p, start);
      if i.None? { return -EMFILE; }
      Acquire(f);
      tables := tables[p := tables[p][i.value := Some(f)]];
      r := i.value;
    }

    method SysDup2(p: Pid, fd: int, newFd: int) returns (r: int)
      requires Exact(Value()) && p in tables
      modifies this
      ensures Ret(Value(), r) == Dup2(old(Value()), p, fd, newFd)
    {
      hide Exact, Closed, Close, KeepsObjects;
      if !(0 <= fd < NR_OPEN && tables[p][fd].Some?) { return -EBADF; }
      var f := tables[p][fd].value;
      if !(0 <= newFd < NR_OPEN) { return -EBADF; }
      if fd == newFd { return newFd; }
      ghost var d := Value();
      ClosedSlotFree(d, p, newFd);
      if tables[p][newFd].Some? {
        var _ := SysClose(p, newFd);
      } else {
        NothingToClose(d, p, newFd);
      }
      Sharing(Value(), p, fd, p, newFd);
      MarksKnown(Value(), p);
      FileKnown(Value(), f);
      Acquire(f);
      tables := tables[p := tables[p][newFd := Some(f)]];
      marks := marks[p := marks[p] - {newFd}];
      r := newFd;
    }

    /** The slots for the two ends; the first is taken before the second is looked for, and given
        back when there is none. */
    method TakePair(p: Pid) returns (fds: Option<(nat, nat)>)
      requires p in tables
      modifies this`tables
      ensures fds == FreePair(old(tables)[p])
      ensures tables == if fds.Some? then old(tables)[p := old(tables)[p][fds.value.0 := Some(nextFile)]] else old(tables)
    {
      hide FreeFrom;
      ghost var before := tables;
      var rfd := AllocFd(p, 0);
      if rfd.None? { return None; }
      tables := tables[p := tables[p][rfd.value := Some(nextFile)]];
      AfterFirst(before[p], rfd.value, Some(nextFile));
      var wfd := AllocFd(p, 0);
      if wfd.None? {
        tables := tables[p := tables[p][rfd.value := None]];
        SameTable(before, p, tables[p]);
        return None;
      }
      fds := Some((rfd.value, wfd.value));
    }

    method SysPipe(p: Pid) returns (r: int)
      requires Exact(Value()) && p in tables
      modifies this
      ensures Ret(Value(), r) == MakePipe(old(Value()), p)
    {
      hide Exact, MakePipe, FreePair, KeepsObjects;
      ghost var d := Value();
      var fds := TakePair(p);
      if fds.None? { return -EMFILE; }
      PipeMade(d, p);
      files := files[nextFile := OpenFile(PipeEnd(nextPipe), 0, false, false, 0, 1)]
                    [nextFile + 1 := OpenFile(PipeEnd(nextPipe), 1, false, false, 0, 1)];
      tables := tables[p := tables[p][fds.value.1 := Some(nextFile + 1)]];
      pipes := pipes[nextPipe := PipeValue([], 1, 1)];
      nextFile, nextPipe := nextFile + 2, nextPipe + 1;
      r := 0;
    }

    /** The loop of fork over the parent's table. */
    method SysFork(p: Pid, child: Pid)
      requires Exact(Value()) && p in tables && child !in tables
      modifies this
      ensures Value() == ForkTable(old(Value()), p, child)
    {
      hide Exact, CopySlots, Closed, NoFiles;
      ghost var d := Value();
      MarksKnown(d, p);
      AddTableExact(d, child, d.marks[p]);
      tables, marks := tables[child := NoFiles()], marks[child := marks[p]];
      for i := 0 to NR_OPEN
        invariant Exact(Value()) && p in tables && child in tables && tables[p] == d.tables[p]
        invariant forall j :: i <= j < NR_OPEN ==> tables[child][j].None?
        invariant CopySlots(Value(), p, child, i) == ForkTable(d, p, child)
      {
        CopyStep(Value(), p, child, i);
        var f := tables[p][i];
        if f.Some? {
          Acquire(f.value);
          tables := tables[child := tables[child][i := f]];
        }
      }
      CopyDone(Value(), p, child);
    }

    /** The loop of exit (every slot) and of execve (marked slots). */
    method CloseAll(p: Pid, all: bool)
      requires Exact(Value()) && p in tables
      modifies this
      ensures Value() == CloseSlots(old(Value()), p, all, 0)
    {
      hide Exact, Closed, CloseSlots;
      ghost var d := Value();
      for i := 0 to NR_OPEN
        invariant Exact(Value()) && p in tables
        invariant CloseSlots(Value(), p, all, i) == CloseSlots(d, p, all, 0)
      {
        CloseStep(Value(), p, all, i);
        if (all || i in marks[p]) && tables[p][i].Some? {
          var f := tables[p][i].value;
          tables := tables[p := tables[p][i := None]];
          Release(f);
        }
      }
      CloseDone(Value(), p, all);
    }
  }

  /** One iteration of the fork loop. */
  lemma CopyStep(d: Desc, p: Pid, child: Pid, i: nat)
    requires Exact(d) && p in d.tables && child in d.tables && p != child && i < NR_OPEN
    requires forall j :: i <= j < NR_OPEN ==> d.tables[child][j].None?
    ensures d.tables[p][i].Some? ==>
      var f := d.tables[p][i].value;
      && f in d.files && (d.files[f].obj.PipeEnd? ==> d.files[f].obj.pipe in d.pipes)
      && Closed(d) && Exact(Install(d, child, i, f)) && d.marks.Keys == d.tables.Keys
    ensures var d1 := if d.tables[p][i].Some? then Install(d, child, i, d.tables[p][i].value) else d;
      CopySlots(d, p, child, i) == CopySlots(d1, p, child, i + 1)
  {
    hide RefsExact, EndsExact, OpensExact;
    if d.tables[p][i].Some? {
      SlotIsLive(d, p, i);
      InstallExact(d, child, i, d.tables[p][i].value);
    }
  }

  lemma CopyDone(d: Desc, p: Pid, child: Pid)
    requires Exact(d) && p in d.tables && child in d.tables && p != child
    ensures CopySlots(d, p, child, NR_OPEN) == d
  {
    hide Exact;
  }

  /** One iteration of the closing loops. */
  lemma CloseStep(d: Desc, p: Pid, all: bool, i: nat)
    requires Exact(d) && p in d.tables && i < NR_OPEN
    ensures p in d.marks && Closed(d)
    ensures var closing := (all || i in d.marks[p]) && d.tables[p][i].Some?;
      && (closing ==>
            var f := d.tables[p][i].value;
            && f in d.files && (d.files[f].obj.PipeEnd? ==> d.files[f].obj.pipe in d.pipes) && Exact(Clear(d, p, i)))
      && CloseSlots(d, p, all, i) == CloseSlots(if closing then Clear(d, p, i) else d, p, all, i + 1)
  {
    hide RefsExact, EndsExact, OpensExact;
    if (all || i in d.marks[p]) && d.tables[p][i].Some? { ClearExact(d, p, i); }
  }

  lemma CloseDone(d: Desc, p: Pid, all: bool)
    requires Exact(d) && p in d.tables
    ensures CloseSlots(d, p, all, NR_OPEN) == d
  {
    hide Exact;
  }

  lemma NothingToClose(d: Desc, p: Pid, fd: nat)
    requires Exact(d) && p in d.tables && fd < NR_OPEN && d.tables[p][fd].None?
    ensures Close(d, p, fd).d == d
  {
  }

  lemma FileKnown(d: Desc, f: FileId)
    requires Closed(d) && f in d.files
    ensures d.files[f].obj.PipeEnd? ==> d.files[f].obj.pipe in d.pipes
  {
  }

  /** Once the lowest slot is taken, the next lowest is the second of the pair. */
  lemma AfterFirst(t: Table, i: nat, v: Option<FileId>)
    requires FreeFrom(t, 0) == Some(i) && v.Some?
    ensures FreeFrom(t[i := v], 0) == FreeFrom(t, i + 1)
  {
    FreeSkips(t[i := v], 0, i + 1);
    FreeSame(t, t[i := v], i + 1);
  }

  lemma {:induction false} FreeSkips(t: Table, k: nat, n: nat)
    requires k <= n <= NR_OPEN && forall j :: k <= j < n ==> t[j].Some?
    ensures FreeFrom(t, k) == FreeFrom(t, n)
    decreases n - k
  {
    if k < n { FreeSkips(t, k + 1, n); }
  }

  lemma {:induction false} FreeSame(t: Table, t': Table, k: nat)
    requires k <= NR_OPEN && forall j :: k <= j < NR_OPEN ==> t'[j] == t[j]
    ensures FreeFrom(t', k) == FreeFrom(t, k)
    decreases NR_OPEN - k
  {
    if k < NR_OPEN { FreeSame(t, t', k + 1); }
  }
}
