/** What every handler keeps: the form of EFLAGS, and an exact record of the text it rewrote. */
module Coherence {
  import opened Words
  import opened Memory
  import opened Decoder
  import opened Flags
  import opened Handlers

  ghost predicate Covered(log: seq<Span>, from: nat, a: int) {
    exists i :: from <= i < |log| && log[i].addr <= a < log[i].addr + log[i].len
  }

  /** Relative to a reference image taken when the log had n0 entries: text keeps its extent, each
      text byte is unchanged or covered by a later entry of the log, and EFLAGS is well formed. */
  ghost predicate Sane(start: Image, n0: nat, m: Machine)
    requires start.Valid()
  {
    && m.mem.Valid()
    && WellFormed(m.flags)
    && n0 <= |m.log|
    && m.mem.textEnd == start.textEnd
    && |m.mem.low| >= |start.low|
    && forall a :: 0 <= a < start.textEnd ==> m.mem.low[a] == start.low[a] || Covered(m.log, n0, a)
  }

  /** Sane looks only at memory, the log and EFLAGS. */
  lemma SaneSame(start: Image, n0: nat, m: Machine, m': Machine)
    requires start.Valid() && Sane(start, n0, m)
    requires m'.mem == m.mem && m'.log == m.log && WellFormed(m'.flags)
    ensures Sane(start, n0, m')
  {
  }

  lemma SaneFacts(start: Image, n0: nat, m: Machine)
    requires start.Valid() && Sane(start, n0, m)
    ensures m.mem.Valid() && WellFormed(m.flags)
  {
  }

  lemma WriteBytesSane(start: Image, n0: nat, m: Machine, addr: int, data: seq<Byte>)
    requires start.Valid() && Sane(start, n0, m)
    ensures Sane(start, n0, WriteBytes(m, addr, data).m)
    ensures WriteBytes(m, addr, data).m.flags == m.flags
  {
    var m' := WriteBytes(m, addr, data).m;
    assert m.log <= m'.log;
    assert |m'.mem.low| == |m.mem.low|;
    forall a | 0 <= a < start.textEnd
      ensures m'.mem.low[a] == start.low[a] || Covered(m'.log, n0, a)
    {
      if Covered(m.log, n0, a) {
        var i :| n0 <= i < |m.log| && m.log[i].addr <= a < m.log[i].addr + m.log[i].len;
        assert m'.log[i] == m.log[i];
      } else if m'.mem.low[a] != m.mem.low[a] {
        assert m.mem.TouchesText(addr, |data|);
        assert m'.log[|m.log|] == Span(addr, |data|);
      }
    }
  }

  lemma WriteMemSane(start: Image, n0: nat, m: Machine, addr: int, size: int, v: int)
    requires start.Valid() && Sane(start, n0, m) && IsSize(size)
    ensures Sane(start, n0, WriteMem(m, addr, size, v).m)
    ensures WriteMem(m, addr, size, v).m.flags == m.flags
  {
    hide Sane, WriteBytes;
    SaneFacts(start, n0, m);
    WriteBytesSane(start, n0, m, addr, Bytes(v, size));
  }

  lemma WriteRmSane(start: Image, n0: nat, m: Machine, e: Entry, addr: Word, size: int, v: int)
    requires start.Valid() && Sane(start, n0, m) && IsSize(size)
    ensures Sane(start, n0, WriteRm(m, e, addr, size, v).m)
    ensures WriteRm(m, e, addr, size, v).m.flags == m.flags
  {
    hide Sane, SetReg, WriteMem;
    SaneFacts(start, n0, m);
    if e.mod != 3 { WriteMemSane(start, n0, m, addr, size, v); }
    else { SaneSame(start, n0, m, WriteRm(m, e, addr, size, v).m); }
  }

  lemma PushSane(start: Image, n0: nat, m: Machine, size: int, v: int)
    requires start.Valid() && Sane(start, n0, m) && IsSize(size)
    ensures Sane(start, n0, Push(m, size, v).m)
    ensures Push(m, size, v).m.flags == m.flags
  {
    hide Sane, WriteMem, Mask32;
    SaneFacts(start, n0, m);
    var sp := Mask32(R(m, ESP) - size);
    WriteMemSane(start, n0, m, sp, size, v);
    SaneFacts(start, n0, WriteMem(m, sp, size, v).m);
    SaneSame(start, n0, WriteMem(m, sp, size, v).m, Push(m, size, v).m);
  }

  lemma PopSane(start: Image, n0: nat, m: Machine, size: int)
    requires start.Valid() && Sane(start, n0, m) && IsSize(size)
    ensures Sane(start, n0, Pop(m, size).m)
  {
    hide Sane, Pop;
    SaneFacts(start, n0, m);
    SaneSame(start, n0, m, Pop(m, size).m);
  }

  // ---- Flag writers ---------------------------------------------------------------

  lemma ResultBitsMask(res: int, size: int)
    requires IsSize(size)
    ensures ResultBits(res, size) & 0x0CD5 == ResultBits(res, size)
  {
    hide EvenParity, SignBit;
  }

  lemma ComputedFlags(f: Eflags, a: int, b: int, c: int, size: int)
    requires IsSize(size)
    ensures WellFormed(AddFlags(f, a, b, c, size)) && WellFormed(SubFlags(f, a, b, c, size))
    ensures WellFormed(IncFlags(f, a, size)) && WellFormed(DecFlags(f, a, size))
    ensures WellFormed(LogicFlags(f, a, size))
  {
    hide ResultBits, Build, WellFormed, SignBit;
    var rs := [(a + b + c) % Range(size), (a - b - c) % Range(size), (a + 1) % Range(size), (a - 1) % Range(size), a];
    forall res: int, keep: Eflags, cf, of, af | keep == DF || keep == (DF | CF)
      ensures WellFormed(Build(f, keep, cf, of, af, ResultBits(res, size)))
    {
      ResultBitsMask(res, size);
      BuildWellFormed(f, keep, cf, of, af, ResultBits(res, size));
    }
  }

  lemma ShiftFlagsWellFormed(f: Eflags, kind: nat, s: Shifted, cnt: nat, size: int)
    requires IsSize(size)
    ensures WellFormed(ShiftFlags(f, kind, s, cnt, size))
  {
    hide ResultBits, Build, WellFormed;
    ResultBitsMask(s.res, size);
    BuildWellFormed(f, DF | ZF | SF | PF | AF, s.cf, s.of, false, 0);
    BuildWellFormed(f, DF, s.cf, s.of && cnt == 1, false, ResultBits(s.res, size));
  }

  lemma BuiltFlags(f: Eflags, cf: bool, of: bool, res: int, size: int)
    requires IsSize(size)
    ensures WellFormed(Build(f, DF, cf, of, false, ResultBits(res, size)))
  {
    ResultBitsMask(res, size);
    BuildWellFormed(f, DF, cf, of, false, ResultBits(res, size));
  }

  lemma AluFlags(op: nat, f: Eflags, a: Word, b: Word, size: int)
    requires IsSize(size)
    ensures WellFormed(Alu(op, f, a, b, size).1)
  {
    hide AddFlags, SubFlags, LogicFlags, WellFormed, Logic;
    var c := if Has(f, CF) then 1 else 0;
    ComputedFlags(f, a, b, 0, size);
    ComputedFlags(f, a, b, c, size);
    ComputedFlags(f, Logic(op, a, b), b, c, size);
  }

  lemma UnaryFlags(fn: Handler, f: Eflags, a: int, size: int)
    requires IsSize(size) && WellFormed(f)
    ensures WellFormed(Unary(fn, f, a, size).1)
  {
    hide IncFlags, DecFlags, SubFlags, WellFormed;
    ComputedFlags(f, a, 0, 0, size);
    ComputedFlags(f, 0, a, 0, size);
  }

  /** Bit-level writers: the carry and direction instructions, sahf, bt and bsf. */
  lemma BitFlags(f: Eflags, ah: bv16)
    requires WellFormed(f)
    ensures WellFormed(f & !CF) && WellFormed(f | CF) && WellFormed(f & !DF) && WellFormed(f | DF)
    ensures WellFormed(f & !ZF) && WellFormed(f | ZF)
    ensures WellFormed((f & 0xFF00) | (ah & 0xD5) | 0x02)
  {
  }

  lemma CarryFlags(f: Eflags, c: bool)
    requires WellFormed(f)
    ensures WellFormed(WithCarry(f, c))
  {
  }

  lemma RestoredFlags(v: Word)
    ensures WellFormed(FromWord(v))
  {
    MaskedWellFormed(LowBits(v));
  }

  lemma MaskedWellFormed(b: bv16)
    ensures WellFormed(Masked(b))
  {
  }

  // ---- Handler groups -------------------------------------------------------------------

  lemma AluSane(start: Image, n0: nat, m: Machine, e: Entry)
    requires start.Valid() && Sane(start, n0, m)
    ensures Sane(start, n0, ExecAlu(m, e).m)
  {
    hide Sane, Alu, AluToRm, AluToReg, ExecTest, ExecUnary, ExecShift, GetReg, Mask32;
    SaneFacts(start, n0, m);
    match e.fn
    case AluRmR(op) => AluToRmSane(start, n0, m, e, op, GetReg(m, e.reg, e.size));
    case AluRmImm(op) => AluToRmSane(start, n0, m, e, op, Mask32(e.imm));
    case AluRRm(op) => AluToRegSane(start, n0, m, e, op);
    case TestRmR => TestSane(start, n0, m, e, GetReg(m, e.reg, e.size));
    case TestRmImm => TestSane(start, n0, m, e, Mask32(e.imm));
    case Shift(kind, byCl) =>
      ShiftSane(start, n0, m, e, kind, if byCl then R(m, ECX) % 32 else e.imm % 32);
    case _ => UnarySane(start, n0, m, e);
  }

  lemma AluToRegSane(start: Image, n0: nat, m: Machine, e: Entry, op: nat)
    requires start.Valid() && Sane(start, n0, m)
    ensures Sane(start, n0, AluToReg(m, e, op).m)
  {
    hide Sane, Alu, ReadRm, SetReg, WellFormed;
    SaneFacts(start, n0, m);
    var r := ReadRm(m, e, e.size);
    if r.Ok? { AluFlags(op, m.flags, GetReg(m, e.reg, e.size), r.v, e.size); }
    SaneSame(start, n0, m, AluToReg(m, e, op).m);
  }

  lemma TestSane(start: Image, n0: nat, m: Machine, e: Entry, b: Word)
    requires start.Valid() && Sane(start, n0, m)
    ensures Sane(start, n0, ExecTest(m, e, b).m)
  {
    hide Sane, ReadRm, WellFormed, LogicFlags, And;
    SaneFacts(start, n0, m);
    var r := ReadRm(m, e, e.size);
    if r.Ok? { ComputedFlags(m.flags, And(r.v, b), 0, 0, e.size); }
    SaneSame(start, n0, m, ExecTest(m, e, b).m);
  }

  lemma AluToRmSane(start: Image, n0: nat, m: Machine, e: Entry, op: nat, b: Word)
    requires start.Valid() && Sane(start, n0, m)
    ensures Sane(start, n0, AluToRm(m, e, op, b).m)
  {
    hide Sane, Alu, ReadRm, WriteRm, WellFormed, Address;
    SaneFacts(start, n0, m);
    var r := ReadRm(m, e, e.size);
    if r.Ok? {
      AluFlags(op, m.flags, r.v, b, e.size);
      var (res, f) := Alu(op, m.flags, r.v, b, e.size);
      SaneSame(start, n0, m, m.(flags := f));
      WriteRmSane(start, n0, m.(flags := f), e, Address(m, e), e.size, res);
    }
  }

  lemma UnarySane(start: Image, n0: nat, m: Machine, e: Entry)
    requires start.Valid() && Sane(start, n0, m)
    ensures Sane(start, n0, ExecUnary(m, e).m)
  {
    hide Sane, Unary, ReadRm, WriteRm, WellFormed, Address;
    SaneFacts(start, n0, m);
    var r := ReadRm(m, e, e.size);
    if r.Ok? {
      var (res, f) := Unary(e.fn, m.flags, r.v, e.size);
      UnaryFlags(e.fn, m.flags, r.v, e.size);
      SaneSame(start, n0, m, m.(flags := f));
      WriteRmSane(start, n0, m.(flags := f), e, Address(m, e), e.size, res);
    }
  }

  lemma ShiftSane(start: Image, n0: nat, m: Machine, e: Entry, kind: nat, cnt: nat)
    requires start.Valid() && Sane(start, n0, m)
    ensures Sane(start, n0, ExecShift(m, e, kind, cnt).m)
  {
    hide Sane, ReadRm, WriteRm, WellFormed, Address, ShiftValue, ShiftFlags;
    SaneFacts(start, n0, m);
    var r := ReadRm(m, e, e.size);
    if r.Ok? && cnt != 0 {
      var s := ShiftValue(kind, r.v, cnt, e.size);
      WriteRmSane(start, n0, m, e, Address(m, e), e.size, s.res);
      ShiftFlagsWellFormed(m.flags, kind, s, cnt, e.size);
      var w := WriteRm(m, e, Address(m, e), e.size, s.res);
      SaneSame(start, n0, w.m, ExecShift(m, e, kind, cnt).m);
    }
  }

  lemma MoveSane(start: Image, n0: nat, m: Machine, e: Entry)
    requires start.Valid() && Sane(start, n0, m)
    ensures Sane(start, n0, ExecMove(m, e).m)
  {
    hide Sane, ReadRm, ReadMem, WriteRm, WriteMem, WellFormed, Address, SetReg, GetReg, Condition, Mask32, Signed, SignBit;
    SaneFacts(start, n0, m);
    var addr := Address(m, e);
    var w := GetReg(m, e.reg, e.size);
    var r := ExecMove(m, e);
    if e.fn == MovRmR { WriteRmSane(start, n0, m, e, addr, e.size, w); }
    else if e.fn == Xchg {
      WriteRmSane(start, n0, m, e, addr, e.size, w);
      if r.Ok? { SaneSame(start, n0, WriteRm(m, e, addr, e.size, w).m, r.m); }
    }
    else if e.fn == MovRmImm { WriteRmSane(start, n0, m, e, addr, e.size, e.imm); }
    else if e.fn.Setcc? { WriteRmSane(start, n0, m, e, addr, 1, if Condition(e.fn.cc, m.flags) then 1 else 0); }
    else if e.fn == MovMoffsAl { WriteMemSane(start, n0, m, e.imm, 1, GetReg(m, EAX, 1)); }
    else if e.fn == MovMoffsAx { WriteMemSane(start, n0, m, e.imm, e.size, GetReg(m, EAX, e.size)); }
    else { SaneSame(start, n0, m, r.m); }
  }

  lemma {:induction false} EnterLevelsSane(start: Image, n0: nat, m: Machine, level: nat)
    requires start.Valid() && Sane(start, n0, m)
    ensures Sane(start, n0, EnterLevels(m, level).m)
    decreases level
  {
    hide ReadMem, Push, WellFormed, Covered, Mask32;
    if level > 0 {
      var m1 := Set32(m, EBP, R(m, EBP) - 4);
      var r := ReadMem(m1, m1.regs[EBP], 4);
      if r.Ok? {
        PushSane(start, n0, m1, 4, r.v);
        var p := Push(m1, 4, r.v);
        if p.Ok? { EnterLevelsSane(start, n0, p.m, level - 1); }
      }
    }
  }

  lemma EnterSane(start: Image, n0: nat, m: Machine, level: nat, alloc: int)
    requires start.Valid() && Sane(start, n0, m)
    ensures Sane(start, n0, ExecEnter(m, level, alloc).m)
  {
    hide EnterLevels, Push, WellFormed, Covered, Mask32;
    var p := Push(m, 4, m.regs[EBP]);
    PushSane(start, n0, m, 4, m.regs[EBP]);
    if p.Ok? {
      EnterLevelsSane(start, n0, p.m, level);
      var l := EnterLevels(p.m, level);
      if l.Ok? { PushSane(start, n0, l.m, 4, p.m.regs[ESP]); }
    }
  }

  lemma StackSane(start: Image, n0: nat, m: Machine, e: Entry)
    requires start.Valid() && Sane(start, n0, m)
    ensures Sane(start, n0, ExecStack(m, e).m)
  {
    hide Push, Pop, ExecEnter, ReadRm, WriteRm, SetReg, GetReg, WellFormed, Covered, Address, Mask32, FromWord, ToWord;
    match e.fn
    case PushR => PushSane(start, n0, m, e.size, GetReg(m, e.reg, e.size));
    case PopR => PopSane(start, n0, m, e.size);
    case PushImm => PushSane(start, n0, m, e.size, e.imm);
    case PushRm =>
      if ReadRm(m, e, 4).Ok? { PushSane(start, n0, m, 4, ReadRm(m, e, 4).v); }
    case PushRm16 =>
      if ReadRm(m, e, 2).Ok? { PushSane(start, n0, m, 2, ReadRm(m, e, 2).v); }
    case PopRm =>
      var size := if e.size == 2 then 2 else 4;
      var p := Pop(m, size);
      PopSane(start, n0, m, size);
      if p.Ok? { WriteRmSane(start, n0, p.m, e, Address(m, e), e.size, p.v); }
    case Leave =>
      PopSane(start, n0, Set32(m, ESP, m.regs[EBP]), 4);
    case Enter(level) => EnterSane(start, n0, m, level, e.imm);
    case Pushf => PushSane(start, n0, m, if e.size == 2 then 2 else 4, ToWord(m.flags));
    case Popf =>
      var size := if e.size == 2 then 2 else 4;
      PopSane(start, n0, m, size);
      if Pop(m, size).Ok? { RestoredFlags(Pop(m, size).v); }
    case _ =>
  }

  lemma FlowSane(start: Image, n0: nat, m: Machine, e: Entry)
    requires start.Valid() && Sane(start, n0, m)
    ensures Sane(start, n0, ExecFlow(m, e).m)
  {
    hide Push, Pop, ReadRm, WellFormed, Covered, Condition, Mask32, Has;
    match e.fn
    case CallRel => PushSane(start, n0, m, 4, m.eip);
    case CallRm => PushSane(start, n0, m, 4, m.eip);
    case Ret => PopSane(start, n0, m, 4);
    case RetN => PopSane(start, n0, m, 4);
    case _ =>
  }

  lemma FlagSane(start: Image, n0: nat, m: Machine, e: Entry)
    requires start.Valid() && Sane(start, n0, m)
    ensures Sane(start, n0, ExecFlag(m, e).m)
  {
    hide Sane, SetReg, GetReg, LowBits, ToWord, ChangedFlags, WellFormed;
    SaneFacts(start, n0, m);
    ChangedFlagsWellFormed(e.fn, m.flags, LowBits(GetReg(m, 4, 1)));
    SaneSame(start, n0, m, ExecFlag(m, e).m);
  }

  lemma ChangedFlagsWellFormed(fn: Handler, f: Eflags, ah: bv16)
    requires WellFormed(f)
    ensures WellFormed(ChangedFlags(fn, f, ah))
  {
    hide WellFormed;
    BitFlags(f, ah);
  }

  lemma MulDivSane(start: Image, n0: nat, m: Machine, e: Entry, src: Word)
    requires start.Valid() && Sane(start, n0, m)
    ensures Sane(start, n0, ExecMulDiv(m, e, src).m)
  {
    hide WellFormed, Covered, Product, Quotient, Dividend, GetReg, Signed, TruncDiv, Build, ResultBits;
    forall low: int, wide: bool ensures WellFormed(MulFlags(m.flags, low, wide, e.size)) {
      BuiltFlags(m.flags, wide, wide, low, e.size);
    }
    hide MulFlags, Half, Range;
  }

  lemma BitSane(start: Image, n0: nat, m: Machine, e: Entry, sub: int, index: nat)
    requires start.Valid() && Sane(start, n0, m)
    ensures Sane(start, n0, ExecBit(m, e, sub, index).m)
  {
    hide Sane, WellFormed, ReadRm, ReadMem, WriteRm, BitAddress, ChangedBit, BitOn, WithCarry, BitIndex;
    SaneFacts(start, n0, m);
    var addr := BitAddress(m, e, index);
    var r := if e.mod == 3 then ReadRm(m, e, e.size) else ReadMem(m, addr, e.size);
    if r.Ok? {
      var bit := BitIndex(index, e.size);
      var cur := BitOn(r.v, bit);
      CarryFlags(m.flags, cur);
      var m1 := m.(flags := WithCarry(m.flags, cur));
      SaneSame(start, n0, m, m1);
      WriteRmSane(start, n0, m1, e, addr, e.size, ChangedBit(sub, r.v, bit));
    }
  }

  lemma DoubleShiftSane(start: Image, n0: nat, m: Machine, e: Entry)
    requires start.Valid() && Sane(start, n0, m)
    ensures Sane(start, n0, ExecDoubleShift(m, e).m)
  {
    hide WellFormed, Covered, ReadRm, WriteRm, Address, GetReg, DoubleShiftValue, Build, ResultBits;
    var op := e.imm / 256;
    var cnt := (if op == 0xA4 || op == 0xAC then e.imm % 256 else GetReg(m, ECX, 1)) % 32;
    var left := op == 0xA4 || op == 0xA5;
    var r := ReadRm(m, e, e.size);
    if r.Ok? && cnt != 0 && !(left && cnt > 8 * e.size) {
      var s := DoubleShiftValue(left, r.v, GetReg(m, e.reg, e.size), cnt, e.size);
      WriteRmSane(start, n0, m, e, Address(m, e), e.size, s.res);
      BuiltFlags(m.flags, s.cf, false, s.res, e.size);
    }
  }

  lemma MulFlagsWellFormed(f: Eflags, low: int, wide: bool, size: int)
    requires IsSize(size)
    ensures WellFormed(MulFlags(f, low, wide, size))
  {
    BuiltFlags(f, wide, wide, low, size);
  }

  lemma MultiplySane(start: Image, n0: nat, m: Machine, e: Entry, res: int)
    requires start.Valid() && Sane(start, n0, m)
    ensures Sane(start, n0, MultiplyInto(m, e, res).m)
  {
    hide Sane, WellFormed, MulFlags, SetReg;
    SaneFacts(start, n0, m);
    MulFlagsWellFormed(m.flags, res % Range(e.size), !(-Half(e.size) <= res < Half(e.size)), e.size);
    SaneSame(start, n0, m, MultiplyInto(m, e, res).m);
  }

  lemma ScanSane(start: Image, n0: nat, m: Machine, e: Entry)
    requires start.Valid() && Sane(start, n0, m)
    ensures Sane(start, n0, ExecScan(m, e).m)
  {
    hide Sane, ReadRm, SetReg, LowestBit, HighestBit, WellFormed;
    SaneFacts(start, n0, m);
    BitFlags(m.flags, 0);
    SaneSame(start, n0, m, ExecScan(m, e).m);
  }

  lemma WideSane(start: Image, n0: nat, m: Machine, e: Entry)
    requires start.Valid() && Sane(start, n0, m)
    ensures Sane(start, n0, ExecWide(m, e).m)
  {
    hide Sane, ReadRm, GetReg, ExecMulDiv, ExecBit, ExecScan, ExecDoubleShift, MultiplyInto, Signed, Mask32;
    SaneFacts(start, n0, m);
    var r := ReadRm(m, e, e.size);
    match e.fn
    case Imul3 => if r.Ok? { MultiplySane(start, n0, m, e, Signed(r.v, e.size) * e.imm); }
    case Imul2 =>
      if r.Ok? { MultiplySane(start, n0, m, e, Signed(GetReg(m, e.reg, e.size), e.size) * Signed(r.v, e.size)); }
    case MulDiv => if r.Ok? { MulDivSane(start, n0, m, e, r.v); }
    case BtR => BitSane(start, n0, m, e, e.imm, GetReg(m, e.reg, e.size));
    case BtI => BitSane(start, n0, m, e, e.reg, Mask32(e.imm));
    case BitScan => ScanSane(start, n0, m, e);
    case DoubleShift => DoubleShiftSane(start, n0, m, e);
    case _ =>
  }

  lemma ElementSane(start: Image, n0: nat, m: Machine, op: nat, size: int, delta: int)
    requires start.Valid() && Sane(start, n0, m) && IsSize(size)
    ensures Sane(start, n0, StringElement(m, op, size, delta).m)
  {
    hide WellFormed, Covered, ReadMem, WriteMem, SetReg, GetReg, Mask32, SubFlags;
    var si, di := R(m, ESI), R(m, EDI);
    if op == 0xA4 || op == 0xA5 {
      if ReadMem(m, si, size).Ok? { WriteMemSane(start, n0, m, di, size, ReadMem(m, si, size).v); }
    } else if op == 0xAA || op == 0xAB {
      WriteMemSane(start, n0, m, di, size, GetReg(m, EAX, size));
    } else if op == 0xA6 || op == 0xA7 {
      if ReadMem(m, si, size).Ok? && ReadMem(m, di, size).Ok? {
        ComputedFlags(m.flags, ReadMem(m, si, size).v, ReadMem(m, di, size).v, 0, size);
      }
    } else if op == 0xAE || op == 0xAF {
      if ReadMem(m, di, size).Ok? {
        ComputedFlags(m.flags, GetReg(m, EAX, size), ReadMem(m, di, size).v, 0, size);
      }
    }
  }

  lemma {:induction false} LoopSane(start: Image, n0: nat, m: Machine, op: nat, size: int, delta: int, rep: int, cnt: nat)
    requires start.Valid() && Sane(start, n0, m) && IsSize(size)
    ensures Sane(start, n0, StringLoop(m, op, size, delta, rep, cnt).m)
    decreases cnt
  {
    hide WellFormed, Covered, StringElement, Mask32, Has;
    if cnt > 0 {
      ElementSane(start, n0, m, op, size, delta);
      var r := StringElement(m, op, size, delta);
      if r.Ok? {
        if rep == 0 {
          LoopSane(start, n0, r.m, op, size, delta, rep, cnt - 1);
        } else {
          LoopSane(start, n0, Set32(r.m, ECX, cnt - 1), op, size, delta, rep, cnt - 1);
        }
      }
    }
  }

  lemma StringSane(start: Image, n0: nat, m: Machine, op: nat, opsize: OperandSize, rep: int)
    requires start.Valid() && Sane(start, n0, m)
    ensures Sane(start, n0, ExecString(m, op, opsize, rep).m)
  {
    hide WellFormed, Covered, StringLoop, WriteBytes, Mask32, Has, Repeat, GetReg, IsByteString, Image.Read;
    var size := if IsByteString(op) then 1 else opsize;
    var delta := if Has(m.flags, DF) then -size else size;
    var cnt := if rep != 0 then m.regs[ECX] else 1;
    var data := m.mem.Read(R(m, ESI), cnt * size);
    if data.Some? { WriteBytesSane(start, n0, m, R(m, EDI), data.value); }
    WriteBytesSane(start, n0, m, R(m, EDI), Repeat(Bytes(GetReg(m, EAX, size), size), cnt));
    LoopSane(start, n0, m, op, size, delta, rep, cnt);
  }

  /** Every handler, from every state and on every outcome, keeps EFLAGS well formed and logs each
      text byte it changes. */
  lemma ExecuteSane(start: Image, n0: nat, m: Machine, e: Entry)
    requires start.Valid() && Sane(start, n0, m)
    ensures Sane(start, n0, Execute(m, e).m)
  {
    hide Sane, ExecAlu, ExecMove, ExecStack, ExecFlow, ExecFlag, ExecWide, ExecString;
    AluSane(start, n0, m, e);
    MoveSane(start, n0, m, e);
    StackSane(start, n0, m, e);
    FlowSane(start, n0, m, e);
    FlagSane(start, n0, m, e);
    WideSane(start, n0, m, e);
    if e.fn.String? { StringSane(start, n0, m, e.fn.op, e.size, e.imm); }
  }

  /** The flag half on its own: a saved EFLAGS word always restores exactly. */
  lemma ExecuteKeepsFlags(m: Machine, e: Entry)
    requires m.mem.Valid() && WellFormed(m.flags)
    ensures WellFormed(Execute(m, e).m.flags)
    ensures FromWord(ToWord(Execute(m, e).m.flags)) == Execute(m, e).m.flags
  {
    hide Execute;
    ExecuteSane(m.mem, |m.log|, m, e);
    SaveRestore(Execute(m, e).m.flags);
  }
}
