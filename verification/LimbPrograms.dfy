/** Multi-word arithmetic by running code: add/adc and sub/sbb instructions with any operands, and whatever
    loop stands between them. */
module LimbPrograms {
  import opened Words
  import opened Memory
  import opened Decoder
  import opened Flags
  import opened Handlers
  import opened MultiLimb
  import opened InstructionLaws

  // ---- The carry between two limbs ---------------------------------------------------------

  /** The instructions that may change CF; all others (inc, dec, loop, jumps, moves, pushes, ...) keep it. */
  predicate ChangesCarry(fn: Handler) {
    || fn.AluRmR? || fn.AluRRm? || fn.AluRmImm? || fn.TestRmR? || fn.TestRmImm? || fn.Neg? || fn.Shift?
    || fn.Popf? || fn.Clc? || fn.Stc? || fn.Sahf? || fn.Imul3? || fn.Imul2? || fn.MulDiv? || fn.BtR? || fn.BtI?
    || fn.BitScan? || fn.DoubleShift? || (fn.String? && Compares(fn.op))
  }

  lemma CountingKeepsCarry(f: Eflags, a: int, size: int)
    requires IsSize(size)
    ensures Has(IncFlags(f, a, size), CF) == Has(f, CF)
    ensures Has(DecFlags(f, a, size), CF) == Has(f, CF)
  {
    hide EvenParity, SignBit;
  }

  lemma WritesKeepFlags(m: Machine, e: Entry, addr: Word, size: int, v: int)
    requires m.mem.Valid() && IsSize(size)
    ensures WriteRm(m, e, addr, size, v).m.flags == m.flags
  {
    hide Bytes;
  }

  lemma UnaryKeepsCarry(m: Machine, e: Entry)
    requires m.mem.Valid() && (e.fn == Inc || e.fn == Dec || e.fn == Not)
    ensures Has(ExecUnary(m, e).m.flags, CF) == Has(m.flags, CF)
  {
    hide IncFlags, DecFlags, Has, WriteRm;
    var a := ReadRm(m, e, e.size);
    if a.Ok? {
      CountingKeepsCarry(m.flags, a.v, e.size);
      var (res, f) := Unary(e.fn, m.flags, a.v, e.size);
      WritesKeepFlags(m.(flags := f), e, Address(m, e), e.size, res);
    }
  }

  lemma MovesKeepFlags(m: Machine, e: Entry)
    requires m.mem.Valid()
    ensures ExecMove(m, e).m.flags == m.flags
  {
    hide Bytes, Address, GetReg;
  }

  lemma FlowKeepsFlags(m: Machine, e: Entry)
    requires m.mem.Valid()
    ensures ExecFlow(m, e).m.flags == m.flags
  {
    hide Bytes, Address, GetReg;
  }

  lemma PushKeepsFlags(m: Machine, size: int, v: int)
    requires m.mem.Valid() && IsSize(size)
    ensures Push(m, size, v).m.flags == m.flags && Pop(m, size).m.flags == m.flags
  {
    hide Bytes;
  }

  lemma {:induction false} LevelsKeepFlags(m: Machine, level: nat)
    requires m.mem.Valid()
    ensures EnterLevels(m, level).m.flags == m.flags
    decreases level
  {
    hide Push, ReadMem;
    if level > 0 {
      var m1 := Set32(m, EBP, R(m, EBP) - 4);
      var v := ReadMem(m1, m1.regs[EBP], 4);
      if v.Ok? {
        PushKeepsFlags(m1, 4, v.v);
        LevelsKeepFlags(Push(m1, 4, v.v).m, level - 1);
      }
    }
  }

  lemma EnterKeepsFlags(m: Machine, level: nat, alloc: int)
    requires m.mem.Valid()
    ensures ExecEnter(m, level, alloc).m.flags == m.flags
  {
    hide Push, EnterLevels;
    PushKeepsFlags(m, 4, m.regs[EBP]);
    var m1 := Push(m, 4, m.regs[EBP]).m;
    LevelsKeepFlags(m1, level);
    PushKeepsFlags(EnterLevels(m1, level).m, 4, m1.regs[ESP]);
  }

  lemma StackKeepsFlags(m: Machine, e: Entry)
    requires m.mem.Valid() && e.fn != Popf
    ensures ExecStack(m, e).m.flags == m.flags
  {
    hide Bytes, Address, GetReg, ExecEnter, WriteMem;
    if e.fn.Enter? { EnterKeepsFlags(m, e.fn.level, e.imm); }
    forall x: Machine, addr: int, size: int, v: int | x.mem.Valid() && IsSize(size)
      ensures WriteMem(x, addr, size, v).m.flags == x.flags { StoreKeepsFlags(x, addr, size, v); }
  }

  lemma StoreKeepsFlags(m: Machine, addr: int, size: int, v: int)
    requires m.mem.Valid() && IsSize(size)
    ensures WriteMem(m, addr, size, v).m.flags == m.flags
  {
    hide Bytes;
  }

  lemma DirectionKeepsCarry(m: Machine, e: Entry)
    requires m.mem.Valid() && (e.fn == Cld || e.fn == Std || e.fn == Lahf)
    ensures Has(ExecFlag(m, e).m.flags, CF) == Has(m.flags, CF)
  {
    hide LowBits, ToWord, GetReg, SetReg, Has, ChangedFlags;
    if e.fn == Lahf { RegisterKeepsFlags(m, 4, 1, ToWord(m.flags) % 0x100); }
    else { DirectionApart(e.fn, m.flags, LowBits(GetReg(m, 4, 1))); }
  }

  lemma RegisterKeepsFlags(m: Machine, r: Reg, size: int, v: int)
    requires IsSize(size)
    ensures SetReg(m, r, size, v).flags == m.flags
  {
  }

  lemma DirectionApart(fn: Handler, f: Eflags, ah: bv16)
    requires fn == Cld || fn == Std
    ensures Has(ChangedFlags(fn, f, ah), CF) == Has(f, CF)
  {
    var g := if fn == Cld then f & !DF else f | DF;
    assert ChangedFlags(fn, f, ah) == g;
    assert g & CF == f & CF;
  }

  lemma ElementKeepsFlags(m: Machine, op: nat, size: int, delta: int)
    requires m.mem.Valid() && IsSize(size) && !Compares(op)
    ensures StringElement(m, op, size, delta).m.flags == m.flags
  {
    hide Bytes, GetReg, SetReg;
  }

  lemma {:induction false} LoopKeepsFlags(m: Machine, op: nat, size: int, delta: int, rep: int, cnt: nat)
    requires m.mem.Valid() && IsSize(size) && !Compares(op)
    ensures StringLoop(m, op, size, delta, rep, cnt).m.flags == m.flags
    decreases cnt
  {
    hide StringElement;
    if cnt > 0 {
      ElementKeepsFlags(m, op, size, delta);
      var r := StringElement(m, op, size, delta);
      if r.Ok? { LoopKeepsFlags(if rep == 0 then r.m else Set32(r.m, ECX, cnt - 1), op, size, delta, rep, cnt - 1); }
    }
  }

  lemma StringKeepsFlags(m: Machine, op: nat, opsize: OperandSize, rep: int)
    requires m.mem.Valid() && !Compares(op)
    ensures ExecString(m, op, opsize, rep).m.flags == m.flags
  {
    hide StringLoop, Repeat, Distance, Bytes;
    var size := if IsByteString(op) then 1 else opsize;
    LoopKeepsFlags(m, op, size, if Has(m.flags, DF) then -size else size, rep, if rep != 0 then m.regs[ECX] else 1);
  }

  /** Every instruction outside the list keeps the carry, faulting or not. */
  lemma CarryKept(m: Machine, e: Entry)
    requires m.mem.Valid() && !ChangesCarry(e.fn)
    ensures Has(Execute(m, e).m.flags, CF) == Has(m.flags, CF)
  {
    hide Has, ExecUnary, ExecMove, ExecFlow, ExecStack, ExecFlag, ExecString;
    MovesKeepFlags(m, e);
    FlowKeepsFlags(m, e);
    if e.fn == Inc || e.fn == Dec || e.fn == Not { UnaryKeepsCarry(m, e); }
    if e.fn != Popf { StackKeepsFlags(m, e); }
    if e.fn == Cld || e.fn == Std || e.fn == Lahf { DirectionKeepsCarry(m, e); }
    if e.fn.String? { StringKeepsFlags(m, e.fn.op, e.size, e.imm); }
  }

  /** Any number of such instructions, one after the other. */
  function RunGap(m: Machine, es: seq<Entry>): (r: Effect)
    requires m.mem.Valid()
    ensures r.m.mem.Valid()
    decreases |es|
  {
    if |es| == 0 then Done(m)
    else
      var (m1, _) :- Execute(m, es[0]);
      RunGap(m1, es[1..])
  }

  lemma {:induction false} GapKeepsCarry(m: Machine, es: seq<Entry>)
    requires m.mem.Valid() && forall i :: 0 <= i < |es| ==> !ChangesCarry(es[i].fn)
    ensures Has(RunGap(m, es).m.flags, CF) == Has(m.flags, CF)
    decreases |es|
  {
    hide Has, Execute, ChangesCarry;
    if |es| > 0 {
      CarryKept(m, es[0]);
      if Execute(m, es[0]).Ok? { GapKeepsCarry(Execute(m, es[0]).m, es[1..]); }
    }
  }

  // ---- One limb -------------------------------------------------------------------------------

  /** add, adc, sbb or sub of 32-bit operands: register or memory with register or constant, or the reverse. */
  predicate IsLimb(e: Entry, op: nat) {
    && e.size == 4 && (op == 0 || op == 2 || op == 3 || op == 5)
    && (e.fn == AluRmR(op) || e.fn == AluRRm(op) || e.fn == AluRmImm(op))
  }

  /** The value of an operand that can be read. */
  function Got(r: Res<Word>): Word {
    if r.Ok? then r.v else 0
  }

  function Destination(m: Machine, e: Entry): Word
    requires m.mem.Valid()
  {
    if e.fn.AluRRm? then GetReg(m, e.reg, 4) else Got(ReadRm(m, e, 4))
  }

  function Source(m: Machine, e: Entry): Word
    requires m.mem.Valid()
  {
    if e.fn.AluRRm? then Got(ReadRm(m, e, 4))
    else if e.fn.AluRmImm? then Mask32(e.imm) else GetReg(m, e.reg, 4)
  }

  /** What an instruction found in its operands and in the flags, and what it left there. */
  function TurnOf(m: Machine, e: Entry): Turn
    requires m.mem.Valid()
  {
    var m' := Execute(m, e).m;
    Turn(m.flags, Destination(m, e), Source(m, e), Destination(m', e), m'.flags)
  }

  lemma AluRange(op: nat, f: Eflags, a: Word, b: Word)
    requires op == 0 || op == 2 || op == 3 || op == 5
    ensures Alu(op, f, a, b, 4).0 == Alu(op, f, a, b, 4).0 % Range(4)
  {
    hide AddFlags, SubFlags, Has;
  }

  /** The digit goes to the register or memory operand. */
  lemma DigitToOperand(m: Machine, e: Entry, op: nat, b: Word)
    requires m.mem.Valid() && e.size == 4 && (op == 0 || op == 2 || op == 3 || op == 5) && AluToRm(m, e, op, b).Ok?
    ensures ReadRm(m, e, 4).Ok?
    ensures var m', a := AluToRm(m, e, op, b).m, ReadRm(m, e, 4).v;
      ReadRm(m', e, 4).Ok? && (ReadRm(m', e, 4).v, m'.flags) == Alu(op, m.flags, a, b, 4)
  {
    hide Alu, Address, WriteRm, ReadRm;
    var a := ReadRm(m, e, 4);
    if a.Ok? {
      var (res, f) := Alu(op, m.flags, a.v, b, 4);
      AluRange(op, m.flags, a.v, b);
      SameAddress(m, m.(flags := f), e);
      OperandExact(m.(flags := f), e, 4, res);
      WritesKeepFlags(m.(flags := f), e, Address(m, e), 4, res);
    }
  }

  /** The digit goes to the register named by the instruction. */
  lemma DigitToRegister(m: Machine, e: Entry, op: nat)
    requires m.mem.Valid() && e.size == 4 && (op == 0 || op == 2 || op == 3 || op == 5) && AluToReg(m, e, op).Ok?
    ensures ReadRm(m, e, 4).Ok?
    ensures var m' := AluToReg(m, e, op).m;
      (GetReg(m', e.reg, 4), m'.flags) == Alu(op, m.flags, GetReg(m, e.reg, 4), ReadRm(m, e, 4).v, 4)
  {
    hide Alu, ReadRm, GetReg, SetReg;
    var a, b := GetReg(m, e.reg, 4), ReadRm(m, e, 4);
    if b.Ok? {
      var (res, f) := Alu(op, m.flags, a, b.v, 4);
      AluRange(op, m.flags, a, b.v);
      RegisterExact(m.(flags := f), e.reg, 4, res, e.reg, 4);
      RegisterKeepsFlags(m.(flags := f), e.reg, 4, res);
    }
  }

  /** The digit stands where the destination was read. */
  lemma LimbExact(m: Machine, e: Entry, op: nat)
    requires m.mem.Valid() && IsLimb(e, op) && Execute(m, e).Ok?
    ensures Does(TurnOf(m, e), op)
  {
    hide Alu, AluToReg, AluToRm, GetReg, ReadRm;
    if e.fn.AluRRm? { DigitToRegister(m, e, op); } else { DigitToOperand(m, e, op, Source(m, e)); }
  }

  // ---- The whole number -----------------------------------------------------------------------

  /** The code of one limb: what stands before its instruction, and the instruction. */
  datatype LimbCode = LimbCode(gap: seq<Entry>, e: Entry)

  /** Limbs of one operation, with only instructions that keep the carry before each. */
  predicate IsChain(code: seq<LimbCode>, op: nat) {
    forall i :: 0 <= i < |code| ==>
      IsLimb(code[i].e, op) && forall j :: 0 <= j < |code[i].gap| ==> !ChangesCarry(code[i].gap[j].fn)
  }

  function RunLimb(m: Machine, c: LimbCode): (r: Effect)
    requires m.mem.Valid()
    ensures r.m.mem.Valid()
  {
    var (m1, _) :- RunGap(m, c.gap);
    Execute(m1, c.e)
  }

  /** The machine after the whole code. */
  function RunCode(m: Machine, code: seq<LimbCode>): (r: Effect)
    requires m.mem.Valid()
    ensures r.m.mem.Valid()
    decreases |code|
  {
    if |code| == 0 then Done(m)
    else
      var (m1, _) :- RunLimb(m, code[0]);
      RunCode(m1, code[1..])
  }

  /** What each limb's instruction found and left, as the code runs. */
  function TurnsOf(m: Machine, code: seq<LimbCode>): (ts: seq<Turn>)
    requires m.mem.Valid()
    ensures |ts| == |code|
    decreases |code|
  {
    if |code| == 0 then []
    else [TurnOf(RunGap(m, code[0].gap).m, code[0].e)] + TurnsOf(RunLimb(m, code[0]).m, code[1..])
  }

  lemma {:induction false} ChainRuns(m: Machine, code: seq<LimbCode>, op: nat)
    requires m.mem.Valid() && RunCode(m, code).Ok? && IsChain(code, op)
    ensures Chained(TurnsOf(m, code), op) && LastFlags(m.flags, TurnsOf(m, code)) == RunCode(m, code).m.flags
    ensures |code| > 0 ==> Carry(TurnsOf(m, code)[0].before) == Carry(m.flags)
    decreases |code|
  {
    hide Execute, Does, RunGap, Has, IsLimb, ChangesCarry, Destination, Source;
    if |code| > 0 {
      var m1 := RunGap(m, code[0].gap).m;
      GapKeepsCarry(m, code[0].gap);
      LimbExact(m1, code[0].e, op);
      var m2 := Execute(m1, code[0].e).m;
      ChainRuns(m2, code[1..], op);
      ChainedBelow(TurnOf(m1, code[0].e), TurnsOf(m2, code[1..]), op, m.flags);
    }
  }

  lemma ChainedBelow(t: Turn, ts: seq<Turn>, op: nat, f: Eflags)
    requires Does(t, op) && Chained(ts, op) && (|ts| > 0 ==> Carry(ts[0].before) == Carry(t.after))
    ensures Chained([t] + ts, op) && LastFlags(f, [t] + ts) == LastFlags(t.after, ts)
  {
    hide Does, Carry;
    var all := [t] + ts;
    forall i | 1 <= i < |all| ensures Carry(all[i].before) == Carry(all[i - 1].after) {
      assert all[i] == ts[i - 1];
    }
  }

  lemma CodeRuns(m: Machine, code: seq<LimbCode>, first: nat, op: nat)
    requires m.mem.Valid() && RunCode(m, code).Ok?
    requires |code| > 0 && IsLimb(code[0].e, first) && IsChain(code[1..], op)
    ensures Started(TurnsOf(m, code), first, op) && LastFlags(m.flags, TurnsOf(m, code)) == RunCode(m, code).m.flags
  {
    hide Execute, Does, RunGap, Has, IsLimb, Chained, IsChain, Destination, Source;
    var m1 := RunGap(m, code[0].gap).m;
    LimbExact(m1, code[0].e, first);
    var m2 := Execute(m1, code[0].e).m;
    ChainRuns(m2, code[1..], op);
    var ts := TurnsOf(m, code);
    assert ts[1..] == TurnsOf(m2, code[1..]);
    Unfolds(m.flags, ts);
  }

  /** Running add on the lowest limb and adc on the others leaves digits and a carry that are the exact sum of
      what the instructions found in their operands, whatever the operands are and whatever loop stands between
      them; OF tells the signed overflow of the whole. */
  lemma AddingCode(m: Machine, code: seq<LimbCode>)
    requires m.mem.Valid() && RunCode(m, code).Ok?
    requires |code| > 0 && IsLimb(code[0].e, 0) && IsChain(code[1..], 2)
    ensures var ts, f := TurnsOf(m, code), RunCode(m, code).m.flags;
      && Value(DigitsOf(ts)) + Carry(f) * Weight(|ts|) == Value(Lefts(ts)) + Value(Rights(ts))
      && (Has(f, OF) <==> !FitsSigned(SignedValue(Lefts(ts)) + SignedValue(Rights(ts)), |ts|))
  {
    hide *;
    CodeRuns(m, code, 0, 2);
    AdditionExact(m.flags, TurnsOf(m, code));
  }

  /** The same for sub and sbb; CF decides unsigned and SF != OF signed less-than of the whole. */
  lemma SubtractingCode(m: Machine, code: seq<LimbCode>)
    requires m.mem.Valid() && RunCode(m, code).Ok?
    requires |code| > 0 && IsLimb(code[0].e, 5) && IsChain(code[1..], 3)
    ensures var ts, f := TurnsOf(m, code), RunCode(m, code).m.flags;
      && Value(DigitsOf(ts)) - Carry(f) * Weight(|ts|) == Value(Lefts(ts)) - Value(Rights(ts))
      && (Has(f, OF) <==> !FitsSigned(SignedValue(Lefts(ts)) - SignedValue(Rights(ts)), |ts|))
      && (Condition(2, f) <==> Value(Lefts(ts)) < Value(Rights(ts)))
      && (Condition(12, f) <==> SignedValue(Lefts(ts)) < SignedValue(Rights(ts)))
  {
    hide *;
    CodeRuns(m, code, 5, 3);
    SubtractionExact(m.flags, TurnsOf(m, code));
  }
}
