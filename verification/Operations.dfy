/** What each opcode does, by name: the executor's tables (cpu86.py) select, for every opcode, the operation and the
    direction that the disassembler's tables (cpu_disasm.py) name. */
module Operations {
  import opened Words
  import opened Memory
  import opened Decoder
  import Disasm = Disassembler

  // ---- What an executor entry does -------------------------------------------------

  predicate IsAlu(fn: Handler, k: nat) {
    (fn.AluRmR? && fn.op == k) || (fn.AluRRm? && fn.op == k) || (fn.AluRmImm? && fn.op == k)
  }

  predicate IsShift(fn: Handler, k: nat) {
    fn.Shift? && fn.kind == k
  }

  predicate IsMove(fn: Handler) {
    fn.MovRmR? || fn.MovRRm? || fn.MovRmImm? || fn.MovRImm? || fn.MovAlMoffs? || fn.MovAxMoffs? || fn.MovMoffsAl? || fn.MovMoffsAx?
  }

  predicate IsPush(fn: Handler) {
    fn.PushRm? || fn.PushRm16? || fn.PushR? || fn.PushImm?
  }

  /** bt and its kin keep the operation in the immediate, or in the reg field. */
  predicate IsBit(e: Entry, k: nat) {
    (e.fn.BtR? && e.imm == k) || (e.fn.BtI? && e.reg == k)
  }

  /** The double shifts keep the opcode above the count. */
  predicate IsDouble(e: Entry, op: nat) {
    e.fn.DoubleShift? && op * 0x100 <= e.imm < (op + 2) * 0x100
  }

  /** Arithmetic, logic, multiplication and division. */
  predicate NamesArithmetic(name: Disasm.Name, e: Entry) {
    match name
    case Add => IsAlu(e.fn, 0)
    case Or => IsAlu(e.fn, 1)
    case Adc => IsAlu(e.fn, 2)
    case Sbb => IsAlu(e.fn, 3)
    case And => IsAlu(e.fn, 4)
    case Sub => IsAlu(e.fn, 5)
    case Xor => IsAlu(e.fn, 6)
    case Cmp => IsAlu(e.fn, 7)
    case Test => e.fn.TestRmR? || e.fn.TestRmImm?
    case Inc => e.fn.Inc?
    case Dec => e.fn.Dec?
    case Not => e.fn.Not?
    case Neg => e.fn.Neg?
    case Mul => e.fn.MulDiv? && e.reg == 4
    case Imul => e.fn.Imul3? || e.fn.Imul2? || (e.fn.MulDiv? && e.reg == 5)
    case Div => e.fn.MulDiv? && e.reg == 6
    case Idiv => e.fn.MulDiv? && e.reg == 7
    case _ => false
  }

  /** Shifts, rotations and single bits. */
  predicate NamesShift(name: Disasm.Name, e: Entry) {
    match name
    case Rol => IsShift(e.fn, 0)
    case Ror => IsShift(e.fn, 1)
    case Shl => IsShift(e.fn, 4)
    case Shr => IsShift(e.fn, 5)
    case Sal => IsShift(e.fn, 6)
    case Sar => IsShift(e.fn, 7)
    case Shld => IsDouble(e, 0xA4)
    case Shrd => IsDouble(e, 0xAC)
    case Bt => IsBit(e, 4)
    case Bts => IsBit(e, 5)
    case Btr => IsBit(e, 6)
    case Btc => IsBit(e, 7)
    case Bsf => e.fn.BitScan? && e.imm == 0xBC
    case Bsr => e.fn.BitScan? && e.imm == 0xBD
    case _ => false
  }

  /** Moves and extensions. */
  predicate NamesMove(name: Disasm.Name, e: Entry) {
    match name
    case Mov => IsMove(e.fn)
    case Movzx(dst) => e.fn.Movx? && !e.fn.signed && e.fn.dst == dst
    case Movsx(dst) => e.fn.Movx? && e.fn.signed && e.fn.dst == dst
    case Lea => e.fn.Lea?
    case Xchg => e.fn.Xchg? || e.fn.XchgEaxR?
    case Xlat => e.fn.Xlat?
    case Set(cond) => e.fn.Setcc? && e.fn.cc < 16 && cond == Disasm.CondName(e.fn.cc)
    case Cbw => e.fn.Cbw? && e.size == 2
    case Cwde => e.fn.Cbw? && e.size == 4
    case Cwd => e.fn.Cwd? && e.size == 2
    case Cdq => e.fn.Cwd? && e.size == 4
    case Sahf => e.fn.Sahf?
    case Lahf => e.fn.Lahf?
    case _ => false
  }

  /** The stack. */
  predicate NamesStack(name: Disasm.Name, e: Entry) {
    match name
    case Push => IsPush(e.fn)
    case Pop => e.fn.PopRm? || e.fn.PopR?
    case Pushf => e.fn.Pushf? && e.size == 2
    case Pushfd => e.fn.Pushf? && e.size == 4
    case Popf => e.fn.Popf? && e.size == 2
    case Popfd => e.fn.Popf? && e.size == 4
    case Enter => e.fn.Enter?
    case Leave => e.fn.Leave?
    case _ => false
  }

  /** Jumps and stops; int3 is int with vector 3, and a repeated nop is shown as pause. */
  predicate NamesFlow(name: Disasm.Name, e: Entry) {
    match name
    case J(cond) => e.fn.Jcc? && e.fn.cc < 16 && cond == Disasm.CondName(e.fn.cc)
    case Jmp => e.fn.JmpRm? || e.fn.Jmp?
    case Call => e.fn.CallRm? || e.fn.CallRel?
    case Ret => e.fn.Ret? || e.fn.RetN?
    case Loopne => e.fn.Loop? && e.fn.op == 0xE0
    case Loope => e.fn.Loop? && e.fn.op == 0xE1
    case Loop => e.fn.Loop? && e.fn.op == 0xE2
    case Jecxz => e.fn.Loop? && e.fn.op == 0xE3
    case Int => e.fn.Interrupt?
    case Int3 => e.fn.Interrupt? && e.imm == 3
    case Hlt => e.fn.Halt?
    case Nop => e.fn.Nop?
    case Pause => e.fn.Nop?
    case _ => false
  }

  /** Flags and strings. */
  predicate NamesOther(name: Disasm.Name, e: Entry) {
    match name
    case Clc => e.fn.Clc?
    case Stc => e.fn.Stc?
    case Cld => e.fn.Cld?
    case Std => e.fn.Std?
    case String(_, _, _) => e.fn.String? && name == Disasm.StringName(e.fn.op, e.size, RepeatOf(e.imm))
    case _ => false
  }

  /** The name is that of the entry's operation. */
  predicate SameName(name: Disasm.Name, e: Entry) {
    || NamesArithmetic(name, e) || NamesShift(name, e) || NamesMove(name, e) || NamesStack(name, e) || NamesFlow(name, e)
    || NamesOther(name, e)
  }

  function RepeatOf(imm: int): Option<nat> {
    if imm == 0xF3 then Some(0xF3) else if imm == 0xF2 then Some(0xF2) else None
  }

  /** Handlers that write to the register operand, not to the register-or-memory operand or the address. */
  predicate ToRegister(fn: Handler) {
    fn.AluRRm? || fn.MovRRm? || fn.Lea? || fn.Imul2? || fn.Imul3? || fn.BitScan? || fn.Movx? || fn.MovAlMoffs? || fn.MovAxMoffs?
  }

  lemma FetchedInRange(m: Image, pos: int, size: int)
    requires m.Valid() && IsSize(size) && FetchNum(m, pos, size).Got?
    ensures FetchNum(m, pos, size).val < Range(size)
  {
  }

  // ---- From table slots to entries --------------------------------------------------------

  /** What a table slot fixes of the entry built from it. */
  predicate Built(s: Shape, e: Entry) {
    match s
    case Simple(fn, size, _, imm) => e.fn == fn && e.size == size && e.imm == imm
    case RegOperand(fn, _, _) => e.fn == fn
    case Immediate(fn, _, _, _, _) => e.fn == fn
    case Relative(fn, _) => e.fn == fn
    case EnterShape => e.fn.Enter?
    case WithModRM(g) =>
      var t := if g.Fixed? then g.tail else TailOf(g, e.reg);
      && e.fn == t.fn
      && (t.immSize == 0 && t.conv.Constant? ==> e.imm == t.conv.k)
      && (t.conv.Tagged? ==> t.conv.k <= e.imm < t.conv.k + 0x100)
  }

  lemma DecodedBuilt(m: Image, s: Shape, start: int, pos: int)
    requires m.Valid() && start <= pos && DecodeShape(m, s, start, pos).Insn?
    requires s.WithModRM? && s.group.Fixed? && s.group.tail.conv.Tagged? ==> s.group.tail.immSize <= 1
    ensures Built(s, DecodeShape(m, s, start, pos).e)
  {
    hide DecodeModRM;
    if s.WithModRM? && DecodeModRM(m, pos).Got? {
      var r := DecodeModRM(m, pos);
      TailBuilt(m, TailOf(s.group, r.val.reg), start, r.pos, r.val);
      TaggedAreFixed(s.group, r.val.reg);
    }
  }

  lemma TaggedAreFixed(g: Group, reg: Reg)
    ensures TailOf(g, reg).conv.Tagged? ==> g.Fixed? && g.tail == TailOf(g, reg)
  {
  }

  lemma TailBuilt(m: Image, t: Tail, start: int, pos: int, rm: ModRM)
    requires m.Valid() && start <= pos && DecodeTail(m, t, start, pos, rm).Insn?
    ensures var e := DecodeTail(m, t, start, pos, rm).e;
      && e.fn == t.fn && e.reg == rm.reg
      && (t.immSize == 0 && t.conv.Constant? ==> e.imm == t.conv.k)
      && (t.conv.Tagged? && t.immSize <= 1 ==> t.conv.k <= e.imm < t.conv.k + 0x100)
  {
    if t.immSize == 1 && FetchNum(m, pos, 1).Got? { FetchedInRange(m, pos, 1); }
  }

  /** What the reg field selects in the groups. */
  lemma GroupNames(g: Group, e: Entry)
    requires Built(WithModRM(g), e) && e.fn != Bad
    ensures g.AluImm? ==> SameName(Disasm.AluName(e.reg), e)
    ensures g.Shifts? ==> SameName(Disasm.ShiftName(e.reg), e)
    ensures g.Group3? ==> SameName(Disasm.Group3Name(e.reg), e)
    ensures g.Group5? ==> SameName(Disasm.Group5Name(e.reg), e)
    ensures g.BitImm? ==> SameName(Disasm.Name0F(0xBA, 4, e.reg), e)
    ensures !ToRegister(e.fn) || g.Fixed?
  {
    hide SameName, TailOf, ToRegister, Disasm.AluName, Disasm.ShiftName, Disasm.Group3Name, Disasm.Group5Name, Disasm.Name0F, Built;
    match g
    case Fixed(_) =>
    case AluImm(_, _) => AluGroup(g, e);
    case Shifts(_, _) => ShiftGroup(g, e);
    case Group3(_) => UnaryGroup(g, e);
    case Group5(_, _, _) => CountGroup(g, e);
    case BitImm(_) => BitGroup(g, e);
  }

  lemma AluGroup(g: Group, e: Entry)
    requires g.AluImm? && Built(WithModRM(g), e) && e.fn != Bad
    ensures SameName(Disasm.AluName(e.reg), e) && !ToRegister(e.fn)
  {
    hide NamesShift, NamesMove, NamesStack, NamesFlow, NamesOther;
  }

  lemma ShiftGroup(g: Group, e: Entry)
    requires g.Shifts? && Built(WithModRM(g), e) && e.fn != Bad
    ensures SameName(Disasm.ShiftName(e.reg), e) && !ToRegister(e.fn)
  {
    hide NamesArithmetic, NamesMove, NamesStack, NamesFlow, NamesOther;
  }

  lemma UnaryGroup(g: Group, e: Entry)
    requires g.Group3? && Built(WithModRM(g), e) && e.fn != Bad
    ensures SameName(Disasm.Group3Name(e.reg), e) && !ToRegister(e.fn)
  {
    hide SameName, ToRegister, Disasm.Group3Name;
    if e.reg <= 3 { TestGroup(g, e); } else { WideGroup(g, e); }
  }

  lemma TestGroup(g: Group, e: Entry)
    requires g.Group3? && Built(WithModRM(g), e) && e.fn != Bad && e.reg <= 3
    ensures SameName(Disasm.Group3Name(e.reg), e) && !ToRegister(e.fn)
  {
    hide NamesShift, NamesMove, NamesStack, NamesFlow, NamesOther;
  }

  lemma WideGroup(g: Group, e: Entry)
    requires g.Group3? && Built(WithModRM(g), e) && e.fn != Bad && e.reg > 3
    ensures SameName(Disasm.Group3Name(e.reg), e) && !ToRegister(e.fn)
  {
    hide NamesShift, NamesMove, NamesStack, NamesFlow, NamesOther;
  }

  lemma CountGroup(g: Group, e: Entry)
    requires g.Group5? && Built(WithModRM(g), e) && e.fn != Bad
    ensures SameName(Disasm.Group5Name(e.reg), e) && !ToRegister(e.fn)
  {
    hide SameName, ToRegister, Disasm.Group5Name;
    if e.reg <= 1 { StepGroup(g, e); } else { JumpGroup(g, e); }
  }

  lemma StepGroup(g: Group, e: Entry)
    requires g.Group5? && Built(WithModRM(g), e) && e.fn != Bad && e.reg <= 1
    ensures SameName(Disasm.Group5Name(e.reg), e) && !ToRegister(e.fn)
  {
    hide NamesShift, NamesMove, NamesStack, NamesFlow, NamesOther;
  }

  lemma JumpGroup(g: Group, e: Entry)
    requires g.Group5? && Built(WithModRM(g), e) && e.fn != Bad && e.reg > 1
    ensures SameName(Disasm.Group5Name(e.reg), e) && !ToRegister(e.fn)
  {
    hide NamesArithmetic, NamesShift, NamesMove, NamesOther;
  }

  lemma BitGroup(g: Group, e: Entry)
    requires g.BitImm? && Built(WithModRM(g), e) && e.fn != Bad
    ensures SameName(Disasm.Name0F(0xBA, 4, e.reg), e) && !ToRegister(e.fn)
  {
    hide NamesArithmetic, NamesMove, NamesStack, NamesFlow, NamesOther;
  }

  lemma NamesAlu(op: Byte, opsize: OperandSize, e: Entry)
    requires op < 0x40 && op != 0x0F && Built(AluShape(op, opsize), e) && e.fn != Bad
    ensures SameName(Disasm.NameOf(op, opsize, e.reg), e) && Disasm.RmFirst(op) == !ToRegister(e.fn)
  {
    hide Disasm.Name84, TailOf, Disasm.ShiftName, Disasm.Group3Name, Disasm.Group5Name, NamesShift, NamesMove, NamesStack, NamesFlow, NamesOther;
  }

  lemma Names40(op: Byte, opsize: OperandSize, e: Entry)
    requires 0x40 <= op < 0x60 && Built(Shape40(op, opsize), e) && e.fn != Bad
    ensures SameName(Disasm.NameOf(op, opsize, e.reg), e) && Disasm.RmFirst(op) == !ToRegister(e.fn)
  {
    hide Disasm.Name84, Disasm.AluName, Disasm.CondName, TailOf, Disasm.ShiftName, Disasm.Group3Name, Disasm.Group5Name, NamesShift, NamesMove, NamesFlow, NamesOther;
  }

  lemma Names60(op: Byte, opsize: OperandSize, e: Entry)
    requires 0x60 <= op < 0x70 && Built(Shape40(op, opsize), e) && e.fn != Bad
    ensures SameName(Disasm.NameOf(op, opsize, e.reg), e) && Disasm.RmFirst(op) == !ToRegister(e.fn)
  {
    hide Disasm.Name84, Disasm.AluName, Disasm.CondName, TailOf, Disasm.ShiftName, Disasm.Group3Name, Disasm.Group5Name, NamesShift, NamesMove, NamesFlow, NamesOther;
  }

  lemma Names70(op: Byte, opsize: OperandSize, e: Entry)
    requires 0x70 <= op < 0x84 && Built(Shape40(op, opsize), e) && e.fn != Bad
    ensures SameName(Disasm.NameOf(op, opsize, e.reg), e) && Disasm.RmFirst(op) == !ToRegister(e.fn)
  {
    hide Disasm.Name84, Disasm.AluName, TailOf, Disasm.ShiftName, Disasm.Group3Name, Disasm.Group5Name, NamesArithmetic, NamesShift, NamesMove, NamesStack, NamesOther;
    if Shape40(op, opsize).WithModRM? { GroupNames(Shape40(op, opsize).group, e); }
  }

  lemma Names84(op: Byte, opsize: OperandSize, e: Entry)
    requires 0x84 <= op < 0x88 && Built(Shape84(op, opsize), e) && e.fn != Bad
    ensures SameName(Disasm.Name84(op, opsize, e.reg), e) && Disasm.RmFirst(op) == !ToRegister(e.fn)
  {
    hide Disasm.NameC0, TailOf, Disasm.ShiftName, Disasm.Group3Name, Disasm.Group5Name, NamesShift, NamesStack, NamesFlow, NamesOther;
  }

  lemma Names88(op: Byte, opsize: OperandSize, e: Entry)
    requires 0x88 <= op < 0x8C && Built(Shape84(op, opsize), e) && e.fn != Bad
    ensures SameName(Disasm.Name84(op, opsize, e.reg), e) && Disasm.RmFirst(op) == !ToRegister(e.fn)
  {
    hide Disasm.NameC0, TailOf, Disasm.ShiftName, Disasm.Group3Name, Disasm.Group5Name, NamesArithmetic, NamesShift, NamesStack, NamesFlow, NamesOther;
  }

  lemma Names8C(op: Byte, opsize: OperandSize, e: Entry)
    requires 0x8C <= op < 0x8F && Built(Shape84(op, opsize), e) && e.fn != Bad
    ensures SameName(Disasm.Name84(op, opsize, e.reg), e) && Disasm.RmFirst(op) == !ToRegister(e.fn)
  {
    hide Disasm.NameC0, TailOf, Disasm.ShiftName, Disasm.Group3Name, Disasm.Group5Name, NamesArithmetic, NamesShift, NamesStack, NamesFlow, NamesOther;
  }

  lemma Names8F(op: Byte, opsize: OperandSize, e: Entry)
    requires 0x8F <= op < 0x91 && Built(Shape84(op, opsize), e) && e.fn != Bad
    ensures SameName(Disasm.Name84(op, opsize, e.reg), e) && Disasm.RmFirst(op) == !ToRegister(e.fn)
  {
    hide Disasm.NameC0, TailOf, Disasm.ShiftName, Disasm.Group3Name, Disasm.Group5Name, NamesArithmetic, NamesShift, NamesMove, NamesOther;
  }

  lemma Names91(op: Byte, opsize: OperandSize, e: Entry)
    requires 0x91 <= op < 0x9A && (opsize == 2 || opsize == 4) && Built(Shape84(op, opsize), e) && e.fn != Bad
    ensures SameName(Disasm.Name84(op, opsize, e.reg), e) && Disasm.RmFirst(op) == !ToRegister(e.fn)
  {
    hide Disasm.NameC0, TailOf, Disasm.ShiftName, Disasm.Group3Name, Disasm.Group5Name, NamesArithmetic, NamesShift, NamesStack, NamesFlow, NamesOther;
  }

  lemma Names9A(op: Byte, opsize: OperandSize, e: Entry)
    requires 0x9A <= op < 0xA0 && (opsize == 2 || opsize == 4) && Built(Shape84(op, opsize), e) && e.fn != Bad
    ensures SameName(Disasm.Name84(op, opsize, e.reg), e) && Disasm.RmFirst(op) == !ToRegister(e.fn)
  {
    hide Disasm.NameC0, TailOf, Disasm.ShiftName, Disasm.Group3Name, Disasm.Group5Name, NamesArithmetic, NamesShift, NamesFlow, NamesOther;
  }

  lemma NamesA0(op: Byte, opsize: OperandSize, e: Entry)
    requires 0xA0 <= op < 0xA4 && Built(ShapeA0(op, opsize), e) && e.fn != Bad
    ensures SameName(Disasm.Name84(op, opsize, e.reg), e) && Disasm.RmFirst(op) == !ToRegister(e.fn)
  {
    hide Disasm.NameC0, Disasm.KindName, TailOf, Disasm.ShiftName, Disasm.Group3Name, Disasm.Group5Name, NamesArithmetic, NamesShift, NamesStack, NamesFlow, NamesOther;
  }

  lemma NamesA4(op: Byte, opsize: OperandSize, e: Entry)
    requires 0xA4 <= op < 0xB0 && Built(ShapeA0(op, opsize), e) && e.fn != Bad
    ensures SameName(Disasm.Name84(op, opsize, e.reg), e) && Disasm.RmFirst(op) == !ToRegister(e.fn)
  {
    hide Disasm.NameC0, Disasm.KindName, TailOf, Disasm.ShiftName, Disasm.Group3Name, Disasm.Group5Name, NamesShift, NamesMove, NamesStack, NamesFlow;
  }

  lemma NamesB0(op: Byte, opsize: OperandSize, e: Entry)
    requires 0xB0 <= op < 0xC0 && Built(ShapeA0(op, opsize), e) && e.fn != Bad
    ensures SameName(Disasm.Name84(op, opsize, e.reg), e) && Disasm.RmFirst(op) == !ToRegister(e.fn)
  {
    hide Disasm.NameC0, Disasm.KindName, TailOf, Disasm.ShiftName, Disasm.Group3Name, Disasm.Group5Name, NamesArithmetic, NamesShift, NamesStack, NamesFlow, NamesOther;
  }

  lemma NamesC0(op: Byte, opsize: OperandSize, e: Entry)
    requires 0xC0 <= op < 0xC3 && Built(ShapeC0(op, opsize), e) && e.fn != Bad
    ensures SameName(Disasm.NameC0(op, e.reg), e) && Disasm.RmFirst(op) == !ToRegister(e.fn)
  {
    hide TailOf, Disasm.ShiftName, Disasm.Group3Name, Disasm.Group5Name, NamesArithmetic, NamesShift, NamesMove, NamesStack, NamesOther;
    if ShapeC0(op, opsize).WithModRM? { GroupNames(ShapeC0(op, opsize).group, e); }
  }

  lemma NamesC3(op: Byte, opsize: OperandSize, e: Entry)
    requires 0xC3 <= op < 0xCA && Built(ShapeC0(op, opsize), e) && e.fn != Bad
    ensures SameName(Disasm.NameC0(op, e.reg), e) && Disasm.RmFirst(op) == !ToRegister(e.fn)
  {
    hide TailOf, Disasm.ShiftName, Disasm.Group3Name, Disasm.Group5Name, NamesArithmetic, NamesShift, NamesOther;
  }

  lemma NamesCA(op: Byte, opsize: OperandSize, e: Entry)
    requires 0xCA <= op < 0xD4 && Built(ShapeC0(op, opsize), e) && e.fn != Bad
    ensures SameName(Disasm.NameC0(op, e.reg), e) && Disasm.RmFirst(op) == !ToRegister(e.fn)
  {
    hide TailOf, Disasm.ShiftName, Disasm.Group3Name, Disasm.Group5Name, NamesArithmetic, NamesShift, NamesMove, NamesOther;
    if ShapeC0(op, opsize).WithModRM? { GroupNames(ShapeC0(op, opsize).group, e); }
  }

  lemma NamesD4(op: Byte, opsize: OperandSize, e: Entry)
    requires 0xD4 <= op < 0xE2 && Built(ShapeC0(op, opsize), e) && e.fn != Bad
    ensures SameName(Disasm.NameC0(op, e.reg), e) && Disasm.RmFirst(op) == !ToRegister(e.fn)
  {
    hide TailOf, Disasm.ShiftName, Disasm.Group3Name, Disasm.Group5Name, NamesArithmetic, NamesShift, NamesStack, NamesOther;
  }

  lemma NamesE2(op: Byte, opsize: OperandSize, e: Entry)
    requires 0xE2 <= op < 0xEC && Built(ShapeC0(op, opsize), e) && e.fn != Bad
    ensures SameName(Disasm.NameC0(op, e.reg), e) && Disasm.RmFirst(op) == !ToRegister(e.fn)
  {
    hide TailOf, Disasm.ShiftName, Disasm.Group3Name, Disasm.Group5Name, NamesArithmetic, NamesShift, NamesMove, NamesStack, NamesOther;
  }

  lemma NamesEC(op: Byte, opsize: OperandSize, e: Entry)
    requires 0xEC <= op < 0xF8 && Built(ShapeC0(op, opsize), e) && e.fn != Bad
    ensures SameName(Disasm.NameC0(op, e.reg), e) && Disasm.RmFirst(op) == !ToRegister(e.fn)
  {
    hide TailOf, Disasm.ShiftName, Disasm.Group3Name, Disasm.Group5Name, NamesArithmetic, NamesShift, NamesMove, NamesStack, NamesOther;
    if ShapeC0(op, opsize).WithModRM? { GroupNames(ShapeC0(op, opsize).group, e); }
  }

  lemma NamesF8(op: Byte, opsize: OperandSize, e: Entry)
    requires 0xF8 <= op < 0xFB && Built(ShapeC0(op, opsize), e) && e.fn != Bad
    ensures SameName(Disasm.NameC0(op, e.reg), e) && Disasm.RmFirst(op) == !ToRegister(e.fn)
  {
    hide TailOf, Disasm.ShiftName, Disasm.Group3Name, Disasm.Group5Name, NamesArithmetic, NamesShift, NamesMove, NamesStack, NamesFlow;
  }

  lemma NamesFB(op: Byte, opsize: OperandSize, e: Entry)
    requires 0xFB <= op < 0xFE && Built(ShapeC0(op, opsize), e) && e.fn != Bad
    ensures SameName(Disasm.NameC0(op, e.reg), e) && Disasm.RmFirst(op) == !ToRegister(e.fn)
  {
    hide TailOf, Disasm.ShiftName, Disasm.Group3Name, Disasm.Group5Name, NamesArithmetic, NamesShift, NamesMove, NamesStack, NamesFlow;
  }

  lemma NamesFE(op: Byte, opsize: OperandSize, e: Entry)
    requires 0xFE <= op && (opsize == 2 || opsize == 4) && Built(ShapeC0(op, opsize), e) && e.fn != Bad
    ensures SameName(Disasm.NameC0(op, e.reg), e) && Disasm.RmFirst(op) == !ToRegister(e.fn)
  {
    hide TailOf, Disasm.ShiftName, Disasm.Group3Name, Disasm.Group5Name, NamesArithmetic, NamesShift, NamesMove, NamesStack, NamesFlow, NamesOther;
    if ShapeC0(op, opsize).WithModRM? { GroupNames(ShapeC0(op, opsize).group, e); }
  }

  lemma LateNames(op: Byte, opsize: OperandSize, reg: nat)
    requires op >= 0x84
    ensures Disasm.NameOf(op, opsize, reg) == Disasm.Name84(op, opsize, reg)
    ensures op >= 0xC0 ==> Disasm.Name84(op, opsize, reg) == Disasm.NameC0(op, reg)
  {
    hide Disasm.NameC0;
  }

  /** Each opcode of the one-byte table is the operation, in the direction, that the mnemonic names. */
  lemma NamesMatch(op: Byte, opsize: OperandSize, e: Entry)
    requires op != 0x0F && Built(ShapeOf(op, opsize), e) && e.fn != Bad && (opsize == 2 || opsize == 4)
    ensures SameName(Disasm.NameOf(op, opsize, e.reg), e) && Disasm.RmFirst(op) == !ToRegister(e.fn)
  {
    hide Built, SameName, ToRegister, Disasm.NameOf, Disasm.Name84, Disasm.NameC0, Disasm.RmFirst, AluShape, Shape40, Shape84, ShapeA0, ShapeC0;
    if op >= 0x84 { LateNames(op, opsize, e.reg); }
    if op < 0x40 { NamesAlu(op, opsize, e); }
    else if op < 0x60 { Names40(op, opsize, e); }
    else if op < 0x70 { Names60(op, opsize, e); }
    else if op < 0x84 { Names70(op, opsize, e); }
    else if op < 0x88 { Names84(op, opsize, e); }
    else if op < 0x8C { Names88(op, opsize, e); }
    else if op < 0x8F { Names8C(op, opsize, e); }
    else if op < 0x91 { Names8F(op, opsize, e); }
    else if op < 0x9A { Names91(op, opsize, e); }
    else if op < 0xA0 { Names9A(op, opsize, e); }
    else if op < 0xA4 { NamesA0(op, opsize, e); }
    else if op < 0xB0 { NamesA4(op, opsize, e); }
    else if op < 0xC0 { NamesB0(op, opsize, e); }
    else if op < 0xC3 { NamesC0(op, opsize, e); }
    else if op < 0xCA { NamesC3(op, opsize, e); }
    else if op < 0xD4 { NamesCA(op, opsize, e); }
    else if op < 0xE2 { NamesD4(op, opsize, e); }
    else if op < 0xEC { NamesE2(op, opsize, e); }
    else if op < 0xF8 { NamesEC(op, opsize, e); }
    else if op < 0xFB { NamesF8(op, opsize, e); }
    else if op < 0xFE { NamesFB(op, opsize, e); }
    else { NamesFE(op, opsize, e); }
  }

  lemma Names0FLow(op: Byte, opsize: OperandSize, e: Entry)
    requires op < 0x90 && Built(Shape0F(op, opsize), e) && e.fn != Bad
    ensures SameName(Disasm.Name0F(op, opsize, e.reg), e) && Disasm.RmFirst0F(op) == !ToRegister(e.fn)
  {
    hide TailOf, Disasm.ShiftName, Disasm.Group3Name, Disasm.Group5Name, NamesArithmetic, NamesShift, NamesMove, NamesStack, NamesOther;
  }

  lemma Names0F90(op: Byte, opsize: OperandSize, e: Entry)
    requires 0x90 <= op < 0xA4 && Built(Shape0F(op, opsize), e) && e.fn != Bad
    ensures SameName(Disasm.Name0F(op, opsize, e.reg), e) && Disasm.RmFirst0F(op) == !ToRegister(e.fn)
  {
    hide TailOf, Disasm.ShiftName, Disasm.Group3Name, Disasm.Group5Name, NamesArithmetic, NamesStack, NamesFlow, NamesOther;
  }

  lemma Names0FA4(op: Byte, opsize: OperandSize, e: Entry)
    requires 0xA4 <= op < 0xAC && Built(Shape0F(op, opsize), e) && e.fn != Bad
    ensures SameName(Disasm.Name0F(op, opsize, e.reg), e) && Disasm.RmFirst0F(op) == !ToRegister(e.fn)
  {
    hide Disasm.CondName, TailOf, Disasm.ShiftName, Disasm.Group3Name, Disasm.Group5Name, NamesArithmetic, NamesMove, NamesStack, NamesFlow, NamesOther;
  }

  lemma Names0FAC(op: Byte, opsize: OperandSize, e: Entry)
    requires 0xAC <= op < 0xB0 && Built(Shape0F(op, opsize), e) && e.fn != Bad
    ensures SameName(Disasm.Name0F(op, opsize, e.reg), e) && Disasm.RmFirst0F(op) == !ToRegister(e.fn)
  {
    hide Disasm.CondName, TailOf, Disasm.ShiftName, Disasm.Group3Name, Disasm.Group5Name, NamesMove, NamesStack, NamesFlow, NamesOther;
  }

  lemma Names0FB0(op: Byte, opsize: OperandSize, e: Entry)
    requires 0xB0 <= op < 0xB6 && Built(Shape0F(op, opsize), e) && e.fn != Bad
    ensures SameName(Disasm.Name0F(op, opsize, e.reg), e) && Disasm.RmFirst0F(op) == !ToRegister(e.fn)
  {
    hide Disasm.CondName, TailOf, Disasm.ShiftName, Disasm.Group3Name, Disasm.Group5Name, NamesMove, NamesStack, NamesFlow, NamesOther;
  }

  lemma Names0FB6(op: Byte, opsize: OperandSize, e: Entry)
    requires 0xB6 <= op < 0xBB && Built(Shape0F(op, opsize), e) && e.fn != Bad
    ensures SameName(Disasm.Name0F(op, opsize, e.reg), e) && Disasm.RmFirst0F(op) == !ToRegister(e.fn)
  {
    hide Disasm.CondName, TailOf, Disasm.ShiftName, Disasm.Group3Name, Disasm.Group5Name, NamesArithmetic, NamesShift, NamesStack, NamesFlow, NamesOther;
    if Shape0F(op, opsize).WithModRM? { GroupNames(Shape0F(op, opsize).group, e); }
  }

  lemma Names0FHigh(op: Byte, opsize: OperandSize, e: Entry)
    requires 0xBB <= op && Built(Shape0F(op, opsize), e) && e.fn != Bad
    ensures SameName(Disasm.Name0F(op, opsize, e.reg), e) && Disasm.RmFirst0F(op) == !ToRegister(e.fn)
  {
    hide Disasm.CondName, TailOf, Disasm.ShiftName, Disasm.Group3Name, Disasm.Group5Name, NamesArithmetic, NamesStack, NamesFlow, NamesOther;
  }

  /** And each of the two-byte table. */
  lemma NamesMatch0F(op: Byte, opsize: OperandSize, e: Entry)
    requires Built(Shape0F(op, opsize), e) && e.fn != Bad
    ensures SameName(Disasm.Name0F(op, opsize, e.reg), e) && Disasm.RmFirst0F(op) == !ToRegister(e.fn)
  {
    hide Built, SameName, ToRegister, Disasm.Name0F, Disasm.RmFirst0F, Shape0F;
    if op < 0x90 { Names0FLow(op, opsize, e); }
    else if op < 0xA4 { Names0F90(op, opsize, e); }
    else if op < 0xAC { Names0FA4(op, opsize, e); }
    else if op < 0xB0 { Names0FAC(op, opsize, e); }
    else if op < 0xB6 { Names0FB0(op, opsize, e); }
    else if op < 0xBB { Names0FB6(op, opsize, e); }
    else { Names0FHigh(op, opsize, e); }
  }
}
