/** The fetch-decode-execute loop (cpu86.py, `CPU.run`, `CPU.step`, `CPU._decode`), once without
    and once with the cache of decoded instructions, and the proof that they agree. */
module Interpreter {
  import opened Words
  import opened Memory
  import opened Decoder
  import opened DecoderLocality
  import opened Flags
  import opened Handlers
  import opened Coherence

  const MAGIC_EIP_BASE: int := 0xFFFF_0000

  type Cache = seq<Option<Entry>>

  /** What the kernel callback does with a trap: resume with a new machine state, or leave the
      loop by an exception. */
  datatype Service = Resume(m: Machine) | Raise(m: Machine)

  type Callback = (int, Machine) -> Service

  /** The callback reaches memory only through the logged stores and keeps EFLAGS well formed. */
  ghost predicate Polite(os: Callback) {
    forall vec: int, m: Machine, start: Image, n0: nat ::
      start.Valid() && Sane(start, n0, m) ==> Sane(start, n0, os(vec, m).m)
  }

  /** A state between two instructions. */
  predicate Ready(m: Machine) {
    m.mem.Valid() && WellFormed(m.flags) && m.log == []
  }

  datatype StopReason = Magic | Faulted | Divided | HaltStop | BadInsn | Raised

  /** One instruction: the new state, the text spans it stored into, and whether the loop stops. */
  datatype Outcome = Outcome(m: Machine, spans: seq<Span>, stop: Option<StopReason>)

  function Finish(m: Machine, stop: Option<StopReason>): Outcome {
    Outcome(m.(log := []), m.log, stop)
  }

  function StopOf(ev: Event): StopReason {
    match ev
    case SegFault => Faulted
    case DivideError => Divided
    case Trap(_) => Raised
    case Halted => HaltStop
    case Illegal => BadInsn
  }

  ghost predicate Tracked(m: Machine, o: Outcome)
    requires m.mem.Valid()
  {
    Ready(o.m) && Sane(m.mem, 0, o.m.(log := o.spans))
  }

  lemma ReadyIsSane(m: Machine)
    requires Ready(m)
    ensures Sane(m.mem, 0, m)
  {
  }

  lemma FinishTracked(m: Machine, m': Machine, stop: Option<StopReason>)
    requires m.mem.Valid() && Sane(m.mem, 0, m')
    ensures Tracked(m, Finish(m', stop))
  {
    assert m'.(log := []).(log := m'.log) == m';
  }

  /** Running a decoded instruction; eip is already past it. */
  function Dispatch(m: Machine, e: Entry, os: Callback): (o: Outcome)
    requires Ready(m) && Polite(os)
    ensures Tracked(m, o)
  {
    ReadyIsSane(m);
    ExecuteSane(m.mem, 0, m, e);
    Conclude(m, Execute(m, e), os)
  }

  function Conclude(m: Machine, r: Effect, os: Callback): (o: Outcome)
    requires m.mem.Valid() && Sane(m.mem, 0, r.m) && Polite(os)
    ensures Tracked(m, o)
  {
    match r
    case Ok(m1, _) =>
      FinishTracked(m, m1, None);
      Finish(m1, None)
    case Stop(m1, ev) =>
      if ev.Trap? then
        var s := os(ev.vec, m1);
        FinishTracked(m, s.m, if s.Resume? then None else Some(Raised));
        Finish(s.m, if s.Resume? then None else Some(Raised))
      else
        FinishTracked(m, m1, Some(StopOf(ev)));
        Finish(m1, Some(StopOf(ev)))
  }

  // ---- The simple form ------------------------------------------------------------

  /** Fetch, decode, execute. */
  function Step(m: Machine, os: Callback): (o: Outcome)
    requires Ready(m) && Polite(os)
    ensures Ready(o.m)
  {
    if m.eip >= MAGIC_EIP_BASE then Outcome(m, [], Some(Magic))
    else
      match Decode(m.mem, m.eip)
      case NoInsn(p) => Outcome(m.(eip := p), [], Some(Faulted))
      case Insn(e) => Dispatch(m.(eip := m.eip + e.length), e, os)
  }

  /** A whole run: the final state, why it stopped (None: the budget was used up) and how many
      instructions it completed. A halt counts as completed, an exception does not. */
  datatype Finished = Finished(m: Machine, stop: Option<StopReason>, done: nat)

  function Completed(stop: Option<StopReason>): nat {
    if stop == None || stop == Some(HaltStop) then 1 else 0
  }

  function Run(m: Machine, n: nat, os: Callback): (f: Finished)
    requires Ready(m) && Polite(os)
    ensures Ready(f.m)
    decreases n
  {
    if n == 0 then Finished(m, None, 0)
    else
      var o := Step(m, os);
      if o.stop.Some? then Finished(o.m, o.stop, Completed(o.stop))
      else
        var f := Run(o.m, n - 1, os);
        f.(done := f.done + 1)
  }

  /** One step: the magic addresses and unreadable instructions stop the processor; otherwise the instruction runs with
      eip behind it, a trap is served, and everything else that ends it has its reason. */
  lemma StepExact(m: Machine, os: Callback)
    requires Ready(m) && Polite(os)
    ensures m.eip >= 0xFFFF_0000 ==> Step(m, os) == Outcome(m, [], Some(Magic))
    ensures m.eip < 0xFFFF_0000 ==> match Decode(m.mem, m.eip)
      case NoInsn(p) => Step(m, os) == Outcome(m.(eip := p), [], Some(Faulted))
      case Insn(e) => Ends(Step(m, os), Execute(m.(eip := m.eip + e.length), e), os)
  {
    hide Execute, Decode, Polite;
  }

  predicate Ends(o: Outcome, r: Effect, os: Callback) {
    match r
    case Ok(m1, _) => o == Outcome(m1.(log := []), m1.log, None)
    case Stop(m1, SegFault) => o == Outcome(m1.(log := []), m1.log, Some(Faulted))
    case Stop(m1, DivideError) => o == Outcome(m1.(log := []), m1.log, Some(Divided))
    case Stop(m1, Halted) => o == Outcome(m1.(log := []), m1.log, Some(HaltStop))
    case Stop(m1, Illegal) => o == Outcome(m1.(log := []), m1.log, Some(BadInsn))
    case Stop(m1, Trap(vec)) =>
      match os(vec, m1)
      case Resume(m2) => o == Outcome(m2.(log := []), m2.log, None)
      case Raise(m2) => o == Outcome(m2.(log := []), m2.log, Some(Raised))
  }

  /** A run of one instruction is one step; it counts if it was completed or halted. */
  lemma RunExact(m: Machine, os: Callback)
    requires Ready(m) && Polite(os)
    ensures Run(m, 0, os) == Finished(m, None, 0)
    ensures var o := Step(m, os); Run(m, 1, os) == Finished(o.m, o.stop, if o.stop.None? || o.stop == Some(HaltStop) then 1 else 0)
  {
    hide Step, Polite;
    var o := Step(m, os);
    if o.stop.None? { assert Run(o.m, 0, os) == Finished(o.m, None, 0); }
  }

  // ---- The cached form -----------------------------------------------------------------

  /** The flushes of a sequence of stores, oldest first. */
  function FlushAll(cache: Cache, spans: seq<Span>): (r: Cache)
    ensures |r| == |cache|
  {
    if |spans| == 0 then cache
    else
      var last := spans[|spans| - 1];
      FlushSlots(FlushAll(cache, spans[..|spans| - 1]), last.addr, last.len)
  }

  /** The entry to run at eip and the cache after looking it up; only instructions that lie wholly
      in text are kept. */
  function Lookup(m: Machine, cache: Cache): (Decoded, Cache)
    requires m.mem.Valid()
  {
    var eip := m.eip;
    if 0 <= eip < |cache| then
      match cache[eip]
      case Some(e) => (Insn(e), cache)
      case None =>
        match Decode(m.mem, eip)
        case NoInsn(p) => (NoInsn(p), cache)
        case Insn(e) => (Insn(e), if eip + e.length <= |cache| then cache[eip := Some(e)] else cache)
    else (Decode(m.mem, eip), cache)
  }

  function CachedStep(m: Machine, cache: Cache, os: Callback): (r: (Outcome, Cache))
    requires Ready(m) && Polite(os)
    ensures Ready(r.0.m)
  {
    if m.eip >= MAGIC_EIP_BASE then (Outcome(m, [], Some(Magic)), cache)
    else
      var (d, filled) := Lookup(m, cache);
      match d
      case NoInsn(p) => (Outcome(m.(eip := p), [], Some(Faulted)), filled)
      case Insn(e) =>
        var o := Dispatch(m.(eip := m.eip + e.length), e, os);
        (o, FlushAll(filled, o.spans))
  }

  function CachedRun(m: Machine, cache: Cache, n: nat, os: Callback): (r: (Finished, Cache))
    requires Ready(m) && Polite(os)
    ensures Ready(r.0.m)
    decreases n
  {
    if n == 0 then (Finished(m, None, 0), cache)
    else
      var (o, cache') := CachedStep(m, cache, os);
      if o.stop.Some? then (Finished(o.m, o.stop, Completed(o.stop)), cache')
      else
        var (f, cache'') := CachedRun(o.m, cache', n - 1, os);
        (f.(done := f.done + 1), cache'')
  }

  // ---- Cache coherence ---------------------------------------------------------------------

  const MAX_CACHED: int := 16

  /** Every filled slot holds what decoding the current bytes would give, inside text and no longer
      than the flush window. */
  ghost predicate Coherent(m: Image, cache: Cache)
    requires m.Valid()
  {
    && |cache| <= m.textEnd
    && forall s :: 0 <= s < |cache| && cache[s].Some? ==> GoodSlot(m, |cache|, s, cache[s].value)
  }

  ghost predicate GoodSlot(m: Image, end: nat, s: nat, e: Entry)
    requires m.Valid()
  {
    Decode(m, s) == Insn(e) && s + e.length <= end && e.length <= MAX_CACHED
  }

  predicate InWindow(s: int, addr: nat, len: nat) {
    addr - 15 <= s < addr + len
  }

  predicate Meets(s: int, length: nat, addr: nat, len: nat) {
    addr < s + length && s < addr + len
  }

  /** The flush window of a store covers every instruction it can hit exactly when instructions are
      at most 16 bytes long; the prefix loop does not enforce that. */
  lemma WindowCoversExactly(s: nat, length: nat)
    ensures length <= MAX_CACHED <==>
      forall addr: nat, len: nat :: len > 0 && Meets(s, length, addr, len) ==> InWindow(s, addr, len)
  {
    if length > MAX_CACHED {
      assert Meets(s, length, s + length - 1, 1) && !InWindow(s, s + length - 1, 1);
    }
  }

  /** A slot that survives the flushes was hit by none of them. */
  lemma {:induction false} SurvivorsNotHit(cache: Cache, spans: seq<Span>, s: nat)
    requires s < |cache| && FlushAll(cache, spans)[s].Some?
    ensures FlushAll(cache, spans)[s] == cache[s]
    ensures forall i :: 0 <= i < |spans| ==> !InWindow(s, spans[i].addr, spans[i].len)
  {
    if |spans| > 0 {
      SurvivorsNotHit(cache, spans[..|spans| - 1], s);
    }
  }

  lemma UnhitByteNotCovered(spans: seq<Span>, s: nat, x: int)
    requires forall i :: 0 <= i < |spans| ==> !InWindow(s, spans[i].addr, spans[i].len)
    requires s <= x < s + MAX_CACHED
    ensures !Covered(spans, 0, x)
  {
  }

  lemma SlotKept(m: Image, m': Machine, cache: Cache, spans: seq<Span>, s: nat)
    requires m.Valid() && Sane(m, 0, m'.(log := spans)) && m'.mem.Valid()
    requires s < |cache| <= m.textEnd && FlushAll(cache, spans)[s].Some?
    requires cache[s].Some? ==> GoodSlot(m, |cache|, s, cache[s].value)
    ensures FlushAll(cache, spans)[s] == cache[s]
    ensures GoodSlot(m'.mem, |cache|, s, cache[s].value)
  {
    SurvivorsNotHit(cache, spans, s);
    var e := cache[s].value;
    forall x | s <= x < s + e.length ensures m'.mem.low[x] == m.low[x] {
      UnhitByteNotCovered(spans, s, x);
    }
    DecodeLocal(m, m'.mem, s);
  }

  lemma FlushKeepsCoherence(m: Image, m': Machine, cache: Cache, spans: seq<Span>)
    requires m.Valid() && Coherent(m, cache) && Sane(m, 0, m'.(log := spans)) && m'.mem.Valid()
    ensures Coherent(m'.mem, FlushAll(cache, spans))
  {
    hide Decode, GoodSlot;
    var cache' := FlushAll(cache, spans);
    forall s | 0 <= s < |cache'| && cache'[s].Some?
      ensures GoodSlot(m'.mem, |cache'|, s, cache'[s].value)
    {
      if cache[s].Some? { assert GoodSlot(m, |cache|, s, cache[s].value); }
      SlotKept(m, m', cache, spans, s);
    }
  }

  /** The instruction at eip is short enough for the flush window. */
  ghost predicate ShortHere(m: Machine)
    requires m.mem.Valid()
  {
    Decode(m.mem, m.eip).Insn? ==> Decode(m.mem, m.eip).e.length <= MAX_CACHED
  }

  lemma LookupCoherent(m: Machine, cache: Cache)
    requires m.mem.Valid() && Coherent(m.mem, cache) && ShortHere(m)
    ensures Lookup(m, cache).0 == Decode(m.mem, m.eip)
    ensures Coherent(m.mem, Lookup(m, cache).1) && |Lookup(m, cache).1| == |cache|
  {
    hide Decode;
  }

  /** One cached step is one simple step, and leaves a coherent cache. */
  lemma StepTransparent(m: Machine, cache: Cache, os: Callback)
    requires Ready(m) && Polite(os) && Coherent(m.mem, cache) && ShortHere(m)
    ensures CachedStep(m, cache, os).0 == Step(m, os)
    ensures Coherent(CachedStep(m, cache, os).0.m.mem, CachedStep(m, cache, os).1)
  {
    hide Decode, Lookup, Dispatch, Polite, Coherent, ShortHere;
    LookupCoherent(m, cache);
    var (d, filled) := Lookup(m, cache);
    if m.eip < MAGIC_EIP_BASE && d.Insn? {
      var m1 := m.(eip := m.eip + d.e.length);
      var o := Dispatch(m1, d.e, os);
      FlushKeepsCoherence(m1.mem, o.m, filled, o.spans);
    }
  }

  /** Every instruction met by the simple run is short. */
  ghost predicate ShortRun(m: Machine, n: nat, os: Callback)
    requires Ready(m) && Polite(os)
    decreases n
  {
    n > 0 ==>
      && ShortHere(m)
      && (Step(m, os).stop.None? ==> ShortRun(Step(m, os).m, n - 1, os))
  }

  /** Decode-cache transparency: as long as the run meets only instructions of at most 16 bytes, the
      cached run ends in the same registers, eip, flags and memory, for the same reason and after
      the same number of instructions, and its cache is coherent again. */
  lemma {:induction false} RunTransparent(m: Machine, cache: Cache, n: nat, os: Callback)
    requires Ready(m) && Polite(os) && Coherent(m.mem, cache) && ShortRun(m, n, os)
    ensures CachedRun(m, cache, n, os).0 == Run(m, n, os)
    ensures Coherent(CachedRun(m, cache, n, os).0.m.mem, CachedRun(m, cache, n, os).1)
    decreases n
  {
    hide ShortHere, Step, CachedStep, Coherent, Polite;
    if n > 0 {
      StepTransparent(m, cache, os);
      var o := Step(m, os);
      if o.stop.None? {
        RunTransparent(o.m, CachedStep(m, cache, os).1, n - 1, os);
      }
    }
  }

  /** Slicing a run changes nothing: the debugger's single-instruction slices reach the state and
      the instruction count of one long run. */
  lemma {:induction false} SlicesCompose(m: Machine, a: nat, b: nat, os: Callback)
    requires Ready(m) && Polite(os)
    ensures var f := Run(m, a, os);
      Run(m, a + b, os) == if f.stop.Some? then f
                           else var g := Run(f.m, b, os); g.(done := g.done + f.done)
    decreases a
  {
    hide Step, Polite;
    if a > 0 {
      var o := Step(m, os);
      if o.stop.None? { SlicesCompose(o.m, a - 1, b, os); }
    }
  }

  // ---- The condition is needed ------------------------------------------------------------------

  /** A 17-byte instruction (sixteen segment prefixes and a nop) at address 0 of a text of 17 bytes. */
  function LongNop(): (m: Image)
    ensures m.Valid()
  {
    Image(seq(16, _ => 0x2E) + [0x90], Zeros(TASK_SIZE - 0x1000), 0x1000, 17, 17, TASK_SIZE)
  }

  /** The same text after a store of hlt over its last byte. */
  function OverwrittenNop(): (m: Image)
    ensures m.Valid()
  {
    LongNop().(low := seq(16, _ => 0x2E) + [0xF4])
  }

  /** Once that instruction is cached, a store over its last byte leaves a slot that no longer agrees
      with memory: coherence fails without the length condition. */
  lemma LongInstructionGoesStale(e: Entry, cache: Cache)
    requires e == Entry(Nop, 17, 4, 0, Some(0), None, 0, 0, 0, 3)
    requires |cache| == 17 && cache[0] == Some(e)
    ensures Decode(LongNop(), 0) == Insn(e)
    ensures LongNop().Write(16, [0xF4]) == Written(OverwrittenNop(), true)
    ensures SlotsAfter(LongNop(), cache, 16, 1)[0] == Some(e)
    ensures Decode(OverwrittenNop(), 0).Insn? && Decode(OverwrittenNop(), 0).e.fn == Halt
  {
    hide Decode, ScanPrefixes;
    UnboundedLength(LongNop(), 0, 16);
    OverwrittenDecodes();
    var m := LongNop();
    assert m.low[..16] + [0xF4] + m.low[17..] == OverwrittenNop().low;
  }

  lemma OverwrittenDecodes()
    ensures Decode(OverwrittenNop(), 0).Insn? && Decode(OverwrittenNop(), 0).e.fn == Halt
  {
    hide ScanPrefixes, ShapeOf;
    AllPrefixesThen(OverwrittenNop(), 0, 16, 4, 0);
    HaltShape();
  }

  lemma HaltShape()
    ensures ShapeOf(0xF4, 4) == Simple(Halt, 4, 0, 0)
  {
  }

  lemma {:induction false} AllPrefixesThen(m: Image, s: int, k: nat, opsize: OperandSize, rep: nat)
    requires m.Valid() && s >= 0 && s + k < |m.low|
    requires forall x :: s <= x < s + k ==> m.low[x] == 0x2E
    requires !IsPrefix(m.low[s + k])
    ensures ScanPrefixes(m, s, opsize, rep) == Got(Opcode(m.low[s + k], opsize, rep), s + k + 1)
    decreases k
  {
    if k > 0 {
      AllPrefixesThen(m, s + 1, k - 1, opsize, rep);
    }
  }

  /** One store flushes what the address space flushes for it. */
  lemma FlushOfStore(m: Machine, cache: Cache, addr: int, data: seq<Byte>)
    requires m.mem.Valid() && m.log == []
    ensures FlushAll(cache, WriteBytes(m, addr, data).m.log) == SlotsAfter(m.mem, cache, addr, |data|)
  {
    if m.mem.TouchesText(addr, |data|) {
      var one := [Span(addr, |data|)];
      assert [] + one == one && one[..0] == [];
    }
  }

  // ---- The object ----------------------------------------------------------------------------------

  /** The processor object: its fields are the machine state, its address space holds the cache. */
  class CPU {
    var mem: AddressSpace<Entry>
    var regs: Registers
    var eip: int
    var flags: Eflags
    var halted: bool
    var icount: nat

    ghost predicate Valid()
      reads this, mem
    {
      mem.Valid() && WellFormed(flags)
    }

    function State(): Machine
      reads this, mem
    {
      Machine(regs, eip, flags, mem.Value(), [])
    }

    constructor (space: AddressSpace<Entry>)
      requires space.Valid()
      ensures Valid() && mem == space && icount == 0 && !halted
      ensures State() == Machine([0, 0, 0, 0, 0, 0, 0, 0], 0, EFLAGS_BASE, space.Value(), [])
    {
      mem, regs, eip, flags, halted, icount := space, [0, 0, 0, 0, 0, 0, 0, 0], 0, EFLAGS_BASE, false, 0;
    }

    /** Decoding with the instruction pointer as cursor: it ends past the instruction, or where the
        fetch faulted. */
    method DecodeAt(start: int) returns (d: Decoded)
      requires Valid()
      modifies this`eip
      ensures d == Decode(mem.Value(), start)
      ensures eip == match d case Insn(e) => start + e.length case NoInsn(p) => p
    {
      var pos, opsize, rep := start, 4, 0;
      ghost var m := mem.Value();
      var op := mem.Value().ByteAt(pos);
      while op.Some? && IsPrefix(op.value)
        invariant opsize == 2 || opsize == 4
        invariant op == m.ByteAt(pos)
        invariant ScanPrefixes(m, start, 4, 0) == ScanPrefixes(m, pos, opsize, rep)
        decreases Limit(m) - pos
      {
        if op.value == 0x66 {
          opsize := 2;
        } else if op.value == 0xF2 || op.value == 0xF3 {
          rep := op.value;
        }
        pos := pos + 1;
        op := mem.Value().ByteAt(pos);
      }
      if op.None? {
        d := NoInsn(start);
        eip := start;
      } else {
        d := DecodeFrom(mem.Value(), start, Opcode(op.value, opsize, rep), pos + 1);
        eip := match d case Insn(e) => start + e.length case NoInsn(p) => p;
      }
    }

    /** Storing the result of a handler back into the fields; text stores flush the cache. */
    method Commit(o: Outcome)
      requires Valid() && Tracked(State(), o)
      modifies this, mem
      ensures Valid() && mem == old(mem) && State() == o.m
      ensures mem.icache == FlushAll(old(mem.icache), o.spans)
      ensures icount == old(icount) && halted == (old(halted) || o.stop == Some(HaltStop))
    {
      regs, eip, flags := o.m.regs, o.m.eip, o.m.flags;
      var im := o.m.mem;
      mem.low, mem.lowEnd, mem.stack, mem.stackLow := im.low, |im.low|, im.stack, im.stackLow;
      mem.brk, mem.startStack := im.brk, im.startStack;
      mem.icache := FlushAll(mem.icache, o.spans);
      if o.stop == Some(HaltStop) { halted := true; }
    }

    /** push32: esp moves only when the store succeeded. */
    method Push32(val: int) returns (ok: bool)
      requires Valid()
      modifies this`regs, mem
      ensures Valid()
      ensures var r := Push(old(State()), 4, val); ok == r.Ok? && State() == r.m.(log := [])
      ensures mem.icache == FlushAll(old(mem.icache), Push(old(State()), 4, val).m.log)
    {
      hide WellFormed, Image.Write, Image.TouchesText, Bytes, FlushAll, SlotsAfter;
      var top: int := regs[ESP];
      var sp := Mask32(top - 4);
      FlushOfStore(State(), mem.icache, sp, Bytes(val, 4));
      ok := mem.WriteSized(sp, 4, val);
      if ok { regs := regs[ESP := sp]; }
    }

    method Pop32() returns (r: Option<Word>)
      requires Valid()
      modifies this`regs
      ensures Valid()
      ensures var p := Pop(old(State()), 4); State() == p.m && r == if p.Ok? then Some(p.v) else None
    {
      var sp := regs[ESP];
      r := mem.ReadSized(sp, 4);
      var up: int := sp;
      if r.Some? { regs := regs[ESP := Mask32(up + 4)]; }
    }

    /** One iteration of the loop: consult the cache, decode and fill it on a miss, dispatch. */
    method StepOnce(os: Callback) returns (stop: Option<StopReason>)
      requires Valid() && Polite(os)
      modifies this, mem
      ensures Valid() && mem == old(mem) && icount == old(icount)
      ensures var r := CachedStep(old(State()), old(mem.icache), os);
        State() == r.0.m && stop == r.0.stop && mem.icache == r.1
      ensures halted == (old(halted) || stop == Some(HaltStop))
    {
      hide Decode, DecodeFrom, Dispatch, FlushAll, Polite, Tracked, WellFormed;
      if eip >= MAGIC_EIP_BASE { return Some(Magic); }
      var start := eip;
      var e: Entry;
      if 0 <= start < |mem.icache| && mem.icache[start].Some? {
        e := mem.icache[start].value;
        eip := start + e.length;
      } else {
        var d := DecodeAt(start);
        if d.NoInsn? { return Some(Faulted); }
        e := d.e;
        if 0 <= start < |mem.icache| && eip <= |mem.icache| {
          mem.icache := mem.icache[start := Some(e)];
        }
      }
      var o := Dispatch(State(), e, os);
      Commit(o);
      stop := o.stop;
    }

    /** Up to maxSteps instructions; icount is charged also when the loop is left early. */
    method RunLoop(maxSteps: nat, os: Callback) returns (done: nat, stop: Option<StopReason>)
      requires Valid() && Polite(os) && !halted
      modifies this, mem
      ensures Valid() && mem == old(mem)
      ensures var r := CachedRun(old(State()), old(mem.icache), maxSteps, os);
        Finished(State(), stop, done) == r.0 && mem.icache == r.1
      ensures icount == old(icount) + done
      ensures halted == (stop == Some(HaltStop))
    {
      hide CachedStep, Polite, WellFormed;
      done := 0;
      stop := None;
      for i := 0 to maxSteps
        invariant Valid() && mem == old(mem) && done == i && stop == None && !halted
        invariant icount == old(icount)
        invariant CachedRun(old(State()), old(mem.icache), maxSteps, os)
          == Prepend(done, CachedRun(State(), mem.icache, maxSteps - i, os))
      {
        stop := StepOnce(os);
        if stop.Some? {
          done := done + Completed(stop);
          icount := icount + done;
          return;
        }
        done := done + 1;
      }
      icount := icount + done;
    }
  }

  function Prepend(k: nat, r: (Finished, Cache)): (Finished, Cache) {
    (r.0.(done := r.0.done + k), r.1)
  }
}
