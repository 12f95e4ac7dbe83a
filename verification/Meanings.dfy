/** What instructions do, by the name the disassembler shows (cpu_disasm.py), when the processor executes them
    (cpu86.py): the value left in the destination and the flags, in terms of the operands. */
module Meanings {
  import opened Words
  import opened Memory
  import opened Decoder
  import opened Flags
  import opened Handlers
  import opened FlagLaws
  import opened Operations
  import opened InstructionLaws
  import DecoderAgreement
  import Shifting
  import Disasm = Disassembler

  // ---- Operands -----------------------------------------------------------------------------

  /** The address a memory operand, as it is shown, denotes: base plus factor times index plus displacement. */
  function Denoted(o: Disasm.Operand, regs: Registers): int
    requires o.Location? && (o.base.Some? ==> o.base.value < 8) && (o.index.Some? ==> o.index.value < 8)
  {
    var base: int, index: int := if o.base.Some? then regs[o.base.value] else 0, if o.index.Some? then regs[o.index.value] else 0;
    var factor: int, disp: int := o.factor, o.disp;
    (base + factor * index + disp) % TWO32
  }

  /** The address lea computes, and every memory operand has, is that of the operand shown. */
  lemma AddressExact(m: Machine, e: Entry)
    requires e.mod != 3 && e.scale < 4
    ensures var o := DecoderAgreement.OperandOf(e.mod, e.base, e.index, e.scale, e.disp);
      o.Location? && (o.base.Some? ==> o.base.value < 8) && (o.index.Some? ==> o.index.value < 8) && Address(m, e) == Denoted(o, m.regs)
  {
    Powers(e.scale);
    var b: int := if e.base.Some? then m.regs[e.base.value] else 0;
    var i: int := if e.index.Some? then m.regs[e.index.value] else 0;
    SameModulo(e.disp, b + Disasm.Factor(e.scale) * i);
    if e.index.None? { NoIndex(Disasm.Factor(e.scale), Pow2(e.scale)); }
  }

  lemma Powers(scale: nat)
    requires scale < 4
    ensures Disasm.Factor(scale) == Pow2(scale)
  {
    assert Pow2(1) == 2 && Pow2(2) == 4 && Pow2(3) == 8;
  }

  lemma NoIndex(a: nat, b: nat)
    ensures a * 0 == 0 && b * 0 == 0
  {
  }

  lemma SameModulo(d: int, x: int)
    ensures (x + d % TWO32) % TWO32 == (d + x) % TWO32
  {
    Shifting.DivisionLaw(d, TWO32);
    Shifting.DivisionLaw(x + d % TWO32, TWO32);
    Shifting.QuotientOf(d + x, TWO32, d / TWO32 + (x + d % TWO32) / TWO32, (x + d % TWO32) % TWO32);
  }

  /** Decoded scales are 0 to 3. */
  lemma DecodedScale(m: Image, s: int)
    requires m.Valid() && Decode(m, s).Insn?
    ensures Decode(m, s).e.scale < 4
  {
    hide ScanPrefixes, DecodeModRM, ShapeOf, Shape0F, TailOf, Image.Load;
  }

  /** A register, as bits of the 32-bit register it is part of. */
  lemma RegisterBits(m: Machine, r: Reg, size: int, i: nat)
    requires IsSize(size) && i < 8 * size
    ensures BitOn(GetReg(m, r, size), i) == BitOn(m.regs[Container(r, size)], 8 * FirstByte(r, size) + i)
  {
    hide BitOn;
    var w: int := m.regs[Container(r, size)];
    Shifting.RangeIsPow2(size);
    assert Pow2(8) == 0x100;
    if FirstByte(r, size) == 1 {
      Shifting.BitOfMod(w / 0x100, 8, i);
      Shifting.BitOfHigh(w, 8, i);
    } else if size < 4 {
      Shifting.BitOfMod(w, 8 * size, i);
    }
  }

  /** The register-or-memory operand; None if it cannot be read. */
  function RmValue(m: Machine, e: Entry, size: int): (r: Option<Word>)
    requires m.mem.Valid() && IsSize(size)
    ensures r.Some? ==> r.value < Range(size)
  {
    if e.mod == 3 then Some(GetReg(m, RegOf(e), size))
    else
      Loaded(m, Address(m, e), size);
      m.mem.Load(Address(m, e), size)
  }

  lemma Loaded(m: Machine, a: int, size: int)
    requires m.mem.Valid() && IsSize(size)
    ensures m.mem.Load(a, size).Some? ==> m.mem.Load(a, size).value < Range(size)
  {
    if m.mem.Load(a, size).Some? { BytesOfNum(m.mem.Read(a, size).value); }
  }

  lemma ReadsRm(m: Machine, e: Entry, size: int)
    requires m.mem.Valid() && IsSize(size)
    ensures ReadRm(m, e, size) == match RmValue(m, e, size) case Some(v) => Ok(m, v) case None => Stop(m, SegFault)
  {
  }

  /** The instruction leaves v in its destination, a register or the register-or-memory operand, and sets the flags g;
      it does nothing else. */
  predicate Puts(m: Machine, e: Entry, toReg: bool, size: int, v: int, g: Eflags)
    requires m.mem.Valid() && IsSize(size)
  {
    Execute(m, e) == if toReg then Done(SetReg(m.(flags := g), e.reg, size, v)) else WriteRm(m.(flags := g), e, Address(m, e), size, v)
  }

  // ---- Arithmetic and logic --------------------------------------------------------------------

  predicate IsAluName(name: Disasm.Name) {
    name.Add? || name.Or? || name.Adc? || name.Sbb? || name.And? || name.Sub? || name.Xor? || name.Cmp?
  }

  function CarryIn(f: Eflags): int {
    if Has(f, CF) then 1 else 0
  }

  predicate EachBit(c: Connective, a: int, b: int, v: int, size: int) {
    forall i: nat :: i < 8 * size ==> (BitOn(v, i) <==> Connects(c, BitOn(a, i), BitOn(b, i)))
  }

  /** v is what the operation makes of a and b, and g are the flags it leaves. */
  predicate Combines(name: Disasm.Name, f: Eflags, a: int, b: int, size: int, v: int, g: Eflags)
    requires IsSize(size) && 0 <= a && 0 <= b && 0 <= v
  {
    match name
    case Add => v == (a + b) % Range(size) && AddTells(f, g, a, b, 0, size)
    case Adc => v == (a + b + CarryIn(f)) % Range(size) && AddTells(f, g, a, b, CarryIn(f), size)
    case Sub => v == (a - b) % Range(size) && SubTells(f, g, a, b, 0, size)
    case Cmp => v == (a - b) % Range(size) && SubTells(f, g, a, b, 0, size)
    case Sbb => v == (a - b - CarryIn(f)) % Range(size) && SubTells(f, g, a, b, CarryIn(f), size)
    case And => EachBit(Conjunction, a, b, v, size) && LogicTells(f, g, v, size)
    case Or => EachBit(Disjunction, a, b, v, size) && LogicTells(f, g, v, size)
    case Xor => EachBit(Exclusion, a, b, v, size) && LogicTells(f, g, v, size)
    case _ => false
  }

  lemma AluExact(k: nat, f: Eflags, a: Word, b: Word, size: int)
    requires IsSize(size) && k < 8 && a < Range(size) && b < Range(size)
    ensures var (v, g) := Alu(k, f, a, b, size);
      0 <= v < Range(size) && Combines(Disasm.AluName(k), f, a, b, size, v, g)
  {
    hide AddFlags, SubFlags, LogicFlags, AddTells, SubTells, LogicTells, Connected, BitOn, Has;
    if k == 1 || k == 4 || k == 6 {
      LogicalExact(k, a, b, size);
      LogicFlagsExact(f, Logic(k, a, b), size);
    } else if k == 0 || k == 2 {
      AddFlagsExact(f, a, b, if k == 0 then 0 else CarryIn(f), size);
    } else {
      SubFlagsExact(f, a, b, if k == 3 then CarryIn(f) else 0, size);
    }
  }

  lemma LogicalExact(k: nat, a: Word, b: Word, size: int)
    requires IsSize(size) && (k == 1 || k == 4 || k == 6) && a < Range(size) && b < Range(size)
    ensures Logic(k, a, b) < Range(size)
    ensures EachBit(if k == 1 then Disjunction else if k == 4 then Conjunction else Exclusion, a, b, Logic(k, a, b), size)
  {
    hide Bitwise, BitOn;
    Shifting.RangeIsPow2(size);
    Shifting.BitwiseBound(if k == 1 then Disjunction else if k == 4 then Conjunction else Exclusion, a, b, 32, 8 * size);
    forall i: nat | i < 8 * size { Shifting.LogicExact(k, a, b, i); }
  }

  /** The operands in the order shown: the destination first. */
  function AluOperands(m: Machine, e: Entry, rm: Word): (Word, int)
    requires e.fn.AluRmR? || e.fn.AluRRm? || e.fn.AluRmImm?
  {
    if e.fn.AluRRm? then (GetReg(m, e.reg, e.size), rm)
    else (rm, if e.fn.AluRmR? then GetReg(m, e.reg, e.size) else e.imm)
  }

  /** The entry holds its immediate reduced to the operand size, as decoding leaves it. */
  predicate ImmediateFits(e: Entry) {
    0 <= e.imm < Range(e.size)
  }

  predicate AluLeaves(m: Machine, e: Entry, name: Disasm.Name, a: int, b: int, v: int, g: Eflags)
    requires m.mem.Valid() && 0 <= a && 0 <= b
  {
    && 0 <= v < Range(e.size) && Combines(name, m.flags, a, b, e.size, v, g)
    && if name.Cmp? then Execute(m, e) == Done(m.(flags := g)) else Puts(m, e, e.fn.AluRRm?, e.size, v, g)
  }

  /** add, or, adc, sbb, and, sub, xor and cmp: the first operand and the second, as named, give the result and the flags;
      the result is left in the first, but for cmp. */
  ghost predicate AluMeans(m: Machine, e: Entry, name: Disasm.Name)
    requires m.mem.Valid() && (e.fn.AluRmR? || e.fn.AluRRm? || e.fn.AluRmImm?) && (e.fn.AluRmImm? ==> ImmediateFits(e))
  {
    match RmValue(m, e, e.size)
    case None => Execute(m, e) == Stop(m, SegFault)
    case Some(rm) => var (a, b) := AluOperands(m, e, rm); exists v, g :: AluLeaves(m, e, name, a, b, v, g)
  }

  lemma AluMeaning(m: Machine, e: Entry, name: Disasm.Name)
    requires m.mem.Valid() && IsAluName(name) && SameName(name, e) && (e.fn.AluRmImm? ==> ImmediateFits(e))
    ensures (e.fn.AluRmR? || e.fn.AluRRm? || e.fn.AluRmImm?) && AluMeans(m, e, name)
  {
    hide Combines, RmValue, Alu, Execute, Puts, AluOperands;
    NameIsAlu(name, e);
    AluSteps(m, e);
    if RmValue(m, e, e.size).Some? {
      var (a, b) := AluOperands(m, e, RmValue(m, e, e.size).value);
      OperandsFit(m, e, RmValue(m, e, e.size).value);
      AluExact(e.fn.op, m.flags, a, b, e.size);
      var (v, g) := Alu(e.fn.op, m.flags, a, b, e.size);
      assert AluLeaves(m, e, name, a, b, v, g);
    }
  }

  lemma OperandsFit(m: Machine, e: Entry, rm: Word)
    requires (e.fn.AluRmR? || e.fn.AluRRm? || e.fn.AluRmImm?) && (e.fn.AluRmImm? ==> ImmediateFits(e)) && rm < Range(e.size)
    ensures var (a, b) := AluOperands(m, e, rm); a < Range(e.size) && 0 <= b < Range(e.size)
  {
  }

  predicate IsWord(v: int) { 0 <= v < TWO32 }

  lemma AluSteps(m: Machine, e: Entry)
    requires m.mem.Valid() && (e.fn.AluRmR? || e.fn.AluRRm? || e.fn.AluRmImm?) && (e.fn.AluRmImm? ==> ImmediateFits(e))
    ensures match RmValue(m, e, e.size)
      case None => Execute(m, e) == Stop(m, SegFault)
      case Some(rm) =>
        var (a, b) := AluOperands(m, e, rm);
        IsWord(b) && var (v, g) := Alu(e.fn.op, m.flags, a, b, e.size);
        if e.fn.op == 7 then Execute(m, e) == Done(m.(flags := g)) else Puts(m, e, e.fn.AluRRm?, e.size, v, g)
  {
    hide RmValue, ReadRm, WriteRm, Address, GetReg, SetReg, Alu;
    ReadsRm(m, e, e.size);
  }

  lemma NameIsAlu(name: Disasm.Name, e: Entry)
    requires IsAluName(name) && SameName(name, e)
    ensures (e.fn.AluRmR? || e.fn.AluRRm? || e.fn.AluRmImm?) && e.fn.op < 8 && name == Disasm.AluName(e.fn.op)
    ensures name.Cmp? <==> e.fn.op == 7
  {
  }

  // ---- From the bytes ----------------------------------------------------------------------------

  lemma DecodedImmediate(m: Image, s: int)
    requires m.Valid() && Decode(m, s).Insn? && Decode(m, s).e.fn.AluRmImm?
    ensures ImmediateFits(Decode(m, s).e)
  {
    hide ScanPrefixes, DecodeOp;
    var f := ScanPrefixes(m, s, 4, 0);
    OpImmediate(m, f.val.op, f.val.opsize, s, f.pos);
  }

  lemma OpImmediate(m: Image, op: Byte, opsize: OperandSize, s: int, pos: int)
    requires m.Valid() && s <= pos && DecodeOp(m, op, opsize, s, pos).Insn? && DecodeOp(m, op, opsize, s, pos).e.fn.AluRmImm?
    ensures ImmediateFits(DecodeOp(m, op, opsize, s, pos).e)
  {
    hide DecodeShape, ShapeOf, Shape0F, Image.Load;
    if op == 0x0F {
      var op2 := FetchNum(m, pos, 1).val;
      ShapeImmediate(m, Shape0F(op2, opsize), s, FetchNum(m, pos, 1).pos);
      NoAlu0F(op2, opsize);
    } else {
      ShapeImmediate(m, ShapeOf(op, opsize), s, pos);
      AluImmediates(op, opsize);
    }
  }

  /** Table slots that take an ALU immediate as it stands, of the operand's size, or in the group. */
  predicate AluSlot(s: Shape) {
    || (s.Simple? && !s.fn.AluRmImm?) || (s.RegOperand? && !s.fn.AluRmImm?) || (s.Relative? && !s.fn.AluRmImm?) || s.EnterShape?
    || (s.Immediate? && (s.fn.AluRmImm? ==> s.conv == Raw && s.immSize == s.size))
    || (s.WithModRM? && (s.group.Fixed? ==> !s.group.tail.fn.AluRmImm?))
  }

  lemma NoAlu0F(op: nat, opsize: OperandSize)
    ensures AluSlot(Shape0F(op, opsize))
  {
  }

  lemma AluImmediates(op: nat, opsize: OperandSize)
    ensures AluSlot(ShapeOf(op, opsize))
  {
    hide AluShape, Shape40, Shape84, ShapeA0, ShapeC0, AluSlot;
    LowSlots(op, opsize);
    MiddleSlots(op, opsize);
    HighSlots(op, opsize);
  }

  lemma LowSlots(op: nat, opsize: OperandSize)
    ensures AluSlot(AluShape(op, opsize))
  {
  }

  lemma MiddleSlots(op: nat, opsize: OperandSize)
    ensures AluSlot(Shape40(op, opsize)) && AluSlot(Shape84(op, opsize))
  {
  }

  lemma HighSlots(op: nat, opsize: OperandSize)
    ensures AluSlot(ShapeA0(op, opsize)) && AluSlot(ShapeC0(op, opsize))
  {
  }

  lemma ShapeImmediate(m: Image, s: Shape, start: int, pos: int)
    requires m.Valid() && start <= pos && DecodeShape(m, s, start, pos).Insn? && DecodeShape(m, s, start, pos).e.fn.AluRmImm?
    ensures AluSlot(s) ==> ImmediateFits(DecodeShape(m, s, start, pos).e)
  {
    hide DecodeModRM, Image.Load;
    if s.Immediate? { FetchedInRange(m, pos, s.immSize); }
    if s.WithModRM? {
      var r := DecodeModRM(m, pos);
      var t := TailOf(s.group, r.val.reg);
      if t.immSize != 0 { FetchedInRange(m, r.pos, t.immSize); }
    }
  }

  /** Where the disassembler shows an arithmetic or logical instruction, executing the bytes does what the name says, to
      the operands it shows in the order it shows them. */
  lemma ShownAluMeaning(m: Machine, m1: Machine)
    requires m.mem.Valid() && m.mem.Disjoint() && 0 <= m.eip < TWO32 && Decode(m.mem, m.eip).Insn? && Decode(m.mem, m.eip).e.fn != Bad
    requires m1 == m.(eip := m.eip + Decode(m.mem, m.eip).e.length)
    requires Disasm.DisasmOne(m.mem, m.eip).Shown? && IsAluName(Disasm.DisasmOne(m.mem, m.eip).line.name)
    ensures var l, e := Disasm.DisasmOne(m.mem, m.eip).line, Decode(m.mem, m.eip).e;
      && (e.fn.AluRmR? || e.fn.AluRRm? || e.fn.AluRmImm?) && (e.fn.AluRmImm? ==> ImmediateFits(e)) && AluMeans(m1, e, l.name)
      && l.rm == Some(DecoderAgreement.OperandOf(e.mod, e.base, e.index, e.scale, e.disp)) && l.size == Some(e.size)
      && (l.first <==> !e.fn.AluRRm?) && (e.fn.AluRmImm? || l.reg == Some(e.reg))
      && (e.fn.AluRmImm? ==> l.imm.Some? && e.imm == l.imm.value % Range(e.size))
  {
    hide Decode, Disasm.DisasmOne, SameName, AluMeans, IsAluName;
    var l, e := Disasm.DisasmOne(m.mem, m.eip).line, Decode(m.mem, m.eip).e;
    DecoderAgreement.DecodersAgree(m.mem, m.eip);
    NameIsAlu(l.name, e);
    if e.fn.AluRmImm? { DecodedImmediate(m.mem, m.eip); }
    AluMeaning(m1, e, l.name);
  }

  /** The bytes 01 D8, add eax, ebx: eax becomes the sum. */
  lemma AddBytes(m: Machine)
    requires m.mem.Valid() && m.mem.Disjoint() && 0 <= m.eip < TWO32 - 2
    requires m.mem.Read(m.eip, 2) == Some([0x01, 0xD8])
    ensures var d := Decode(m.mem, m.eip);
      && d.Insn? && d.e.length == 2
      && var r := Execute(m.(eip := m.eip + 2), d.e);
         r.Ok? && r.m.regs == m.regs[EAX := Mask32(R(m, EAX) + R(m, EBX))] && r.m.mem == m.mem && r.m.eip == m.eip + 2
  {
    hide Execute, Decode;
    AddDecoded(m);
    AddExecuted(m.(eip := m.eip + 2), Decode(m.mem, m.eip).e);
  }

  lemma AddDecoded(m: Machine)
    requires m.mem.Valid() && m.mem.Disjoint() && m.mem.Read(m.eip, 2) == Some([0x01, 0xD8])
    ensures Decode(m.mem, m.eip) == Insn(Entry(AluRmR(0), 2, 4, EBX, Some(EAX), None, 0, 0, 0, 3))
  {
    hide Image.Read, Image.Disjoint, ShapeOf, DecodeShape;
    DecoderAgreement.ReadBytes(m.mem, m.eip, 2, 0);
    DecoderAgreement.ReadBytes(m.mem, m.eip, 2, 1);
    AddShape(m);
  }

  lemma AddShape(m: Machine)
    requires m.mem.Valid() && m.mem.ByteAt(m.eip + 1) == Some(0xD8)
    ensures DecodeShape(m.mem, ShapeOf(1, 4), m.eip, m.eip + 1) == Insn(Entry(AluRmR(0), 2, 4, EBX, Some(EAX), None, 0, 0, 0, 3))
  {
    assert m.mem.Load(m.eip + 1, 1) == Some(0xD8);
    assert DecodeModRM(m.mem, m.eip + 1) == Got(ModRM(3, EBX, Some(EAX), None, 0, 0), m.eip + 2);
  }

  lemma AddExecuted(m: Machine, e: Entry)
    requires m.mem.Valid() && e == Entry(AluRmR(0), 2, 4, EBX, Some(EAX), None, 0, 0, 0, 3)
    ensures var r := Execute(m, e);
      r.Ok? && r.m.regs == m.regs[EAX := Mask32(R(m, EAX) + R(m, EBX))] && r.m.mem == m.mem && r.m.eip == m.eip
  {
    hide AddFlags;
  }
}
