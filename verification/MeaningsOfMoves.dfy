/** What the moving, testing, jumping and stack instructions do, by the name the disassembler shows. */
module MeaningsOfMoves {
  import opened Words
  import opened Memory
  import opened Decoder
  import opened Flags
  import opened Handlers
  import opened FlagLaws
  import opened Operations
  import opened InstructionLaws
  import opened Meanings
  import DecoderAgreement
  import Shifting
  import Disasm = Disassembler

  // ---- Which part of the processor runs an entry ------------------------------------------------

  lemma RunsAlu(m: Machine, e: Entry)
    requires m.mem.Valid() && (e.fn.TestRmR? || e.fn.TestRmImm? || e.fn.Inc? || e.fn.Dec? || e.fn.Not? || e.fn.Neg?)
    ensures Execute(m, e) == ExecAlu(m, e)
  {
    hide ExecAlu, ExecMove, ExecStack, ExecFlow, ExecFlag, ExecWide, ExecString;
  }

  lemma RunsMove(m: Machine, e: Entry)
    requires m.mem.Valid()
    requires IsMove(e.fn) || e.fn.Xchg? || e.fn.XchgEaxR? || e.fn.Cbw? || e.fn.Cwd? || e.fn.Movx? || e.fn.Lea? || e.fn.Xlat? || e.fn.Setcc?
    ensures Execute(m, e) == ExecMove(m, e)
  {
    hide ExecAlu, ExecMove, ExecStack, ExecFlow, ExecFlag, ExecWide, ExecString;
  }

  lemma RunsStack(m: Machine, e: Entry)
    requires m.mem.Valid()
    requires IsPush(e.fn) || e.fn.PopR? || e.fn.PopRm? || e.fn.Leave? || e.fn.Enter? || e.fn.Pushf? || e.fn.Popf?
    ensures Execute(m, e) == ExecStack(m, e)
  {
    hide ExecAlu, ExecMove, ExecStack, ExecFlow, ExecFlag, ExecWide, ExecString;
  }

  lemma RunsFlow(m: Machine, e: Entry)
    requires m.mem.Valid() && (e.fn.Jcc? || e.fn.Jmp? || e.fn.JmpRm? || e.fn.Loop? || e.fn.CallRel? || e.fn.CallRm?)
    ensures Execute(m, e) == ExecFlow(m, e)
  {
    hide ExecAlu, ExecMove, ExecStack, ExecFlow, ExecFlag, ExecWide, ExecString;
  }

  lemma RunsStop(m: Machine, e: Entry)
    requires m.mem.Valid() && (e.fn.Ret? || e.fn.RetN? || e.fn.Interrupt? || e.fn.Halt? || e.fn.Nop?)
    ensures Execute(m, e) == ExecFlow(m, e)
  {
    hide ExecAlu, ExecMove, ExecStack, ExecFlow, ExecFlag, ExecWide, ExecString;
  }

  lemma RunsFlag(m: Machine, e: Entry)
    requires m.mem.Valid() && (e.fn.Clc? || e.fn.Stc? || e.fn.Cld? || e.fn.Std? || e.fn.Lahf? || e.fn.Sahf?)
    ensures Execute(m, e) == ExecFlag(m, e)
  {
    hide Execute, ExecFlag;
    if e.fn.Lahf? || e.fn.Sahf? { RunsAh(m, e); } else { RunsBit(m, e); }
  }

  lemma RunsAh(m: Machine, e: Entry)
    requires m.mem.Valid() && (e.fn.Lahf? || e.fn.Sahf?)
    ensures Execute(m, e) == ExecFlag(m, e)
  {
    hide ExecAlu, ExecMove, ExecStack, ExecFlow, ExecFlag, ExecWide, ExecString;
  }

  lemma RunsBit(m: Machine, e: Entry)
    requires m.mem.Valid() && (e.fn.Clc? || e.fn.Stc? || e.fn.Cld? || e.fn.Std?)
    ensures Execute(m, e) == ExecFlag(m, e)
  {
    hide ExecAlu, ExecMove, ExecStack, ExecFlow, ExecFlag, ExecWide, ExecString;
  }

  // ---- test, inc, dec, not, neg ------------------------------------------------------------------

  predicate TestLeaves(m: Machine, e: Entry, a: int, b: int, v: int, g: Eflags)
    requires m.mem.Valid()
  {
    0 <= v && EachBit(Conjunction, a, b, v, e.size) && LogicTells(m.flags, g, v, e.size) && Execute(m, e) == Done(m.(flags := g))
  }

  /** test sets the flags of the conjunction and changes nothing else. */
  lemma TestMeaning(m: Machine, e: Entry)
    requires m.mem.Valid() && SameName(Disasm.Test, e) && (e.fn.TestRmImm? ==> ImmediateFits(e))
    ensures match RmValue(m, e, e.size)
      case None => Execute(m, e) == Stop(m, SegFault)
      case Some(rm) => var b := if e.fn.TestRmR? then GetReg(m, e.reg, e.size) else e.imm; exists v, g :: TestLeaves(m, e, rm, b, v, g)
  {
    hide RmValue, ReadRm, LogicFlags, LogicTells, Connected, BitOn, EachBit, Execute, SameName;
    NameIsTest(e);
    RunsAlu(m, e);
    ReadsRm(m, e, e.size);
    if RmValue(m, e, e.size).Some? {
      var a, b: Word := RmValue(m, e, e.size).value, if e.fn.TestRmR? then GetReg(m, e.reg, e.size) else e.imm;
      LogicalExact(4, a, b, e.size);
      LogicFlagsExact(m.flags, And(a, b), e.size);
      assert TestLeaves(m, e, a, b, And(a, b), LogicFlags(m.flags, And(a, b), e.size));
    }
  }

  lemma NameIsTest(e: Entry)
    requires SameName(Disasm.Test, e)
    ensures e.fn.TestRmR? || e.fn.TestRmImm?
  {
  }

  predicate IsUnaryName(name: Disasm.Name) {
    name.Inc? || name.Dec? || name.Not? || name.Neg?
  }

  /** inc and dec step by one, not turns every bit round, neg is the negative; not sets no flags. */
  predicate Turns(name: Disasm.Name, f: Eflags, a: int, size: int, v: int, g: Eflags)
    requires IsSize(size)
  {
    match name
    case Inc => v % Range(size) == (a + 1) % Range(size) && CountTells(f, g, a, 1, size)
    case Dec => v % Range(size) == (a - 1) % Range(size) && CountTells(f, g, a, -1, size)
    case Not => (forall i: nat :: i < 8 * size ==> BitOn(v % Range(size), i) == !BitOn(a, i)) && g == f
    case Neg => v % Range(size) == (-a) % Range(size) && SubTells(f, g, 0, a, 0, size)
    case _ => false
  }

  lemma UnaryExact(name: Disasm.Name, fn: Handler, f: Eflags, a: Word, size: int)
    requires IsSize(size) && a < Range(size)
    requires (name.Inc? && fn.Inc?) || (name.Dec? && fn.Dec?) || (name.Not? && fn.Not?) || (name.Neg? && fn.Neg?)
    ensures var (v, g) := Unary(fn, f, a, size); Turns(name, f, a, size, v, g)
  {
    hide SubFlags, IncFlags, DecFlags, CountTells, SubTells, BitOn;
    CountFlagsExact(f, a, size);
    SubFlagsExact(f, 0, a, 0, size);
    ComplementExact(a, size);
  }

  lemma ComplementExact(a: int, size: int)
    requires IsSize(size)
    ensures forall i: nat :: i < 8 * size ==> BitOn((-1 - a) % Range(size), i) == !BitOn(a, i)
  {
    hide BitOn;
    Shifting.RangeIsPow2(size);
    forall i: nat | i < 8 * size ensures BitOn((-1 - a) % Range(size), i) == !BitOn(a, i) {
      Shifting.BitOfMod(-1 - a, 8 * size, i);
      ComplementBits(a, i);
    }
  }

  lemma {:induction false} ComplementBits(a: int, i: nat)
    ensures BitOn(-1 - a, i) == !BitOn(a, i)
    decreases i
  {
    hide BitOn;
    Shifting.NextBit(a, if i == 0 then 0 else i - 1);
    Shifting.NextBit(-1 - a, if i == 0 then 0 else i - 1);
    assert (-1 - a) / 2 == -1 - a / 2 && ((-1 - a) % 2 == 1) == !(a % 2 == 1);
    if i > 0 { ComplementBits(a / 2, i - 1); }
  }

  predicate UnaryLeaves(m: Machine, e: Entry, name: Disasm.Name, a: int, v: int, g: Eflags)
    requires m.mem.Valid()
  {
    Turns(name, m.flags, a, e.size, v, g) && Puts(m, e, false, e.size, v, g)
  }

  lemma UnaryMeaning(m: Machine, e: Entry, name: Disasm.Name)
    requires m.mem.Valid() && IsUnaryName(name) && SameName(name, e)
    ensures match RmValue(m, e, e.size)
      case None => Execute(m, e) == Stop(m, SegFault)
      case Some(a) => exists v, g :: UnaryLeaves(m, e, name, a, v, g)
  {
    hide RmValue, ReadRm, WriteRm, Address, Unary, Turns, Execute, SameName;
    NameIsUnary(name, e);
    RunsAlu(m, e);
    ReadsRm(m, e, e.size);
    if RmValue(m, e, e.size).Some? {
      var a := RmValue(m, e, e.size).value;
      UnaryExact(name, e.fn, m.flags, a, e.size);
      var (v, g) := Unary(e.fn, m.flags, a, e.size);
      assert UnaryLeaves(m, e, name, a, v, g);
    }
  }

  lemma UnaryNames(e: Entry)
    ensures (SameName(Disasm.Inc, e) ==> e.fn.Inc?) && (SameName(Disasm.Dec, e) ==> e.fn.Dec?)
    ensures (SameName(Disasm.Not, e) ==> e.fn.Not?) && (SameName(Disasm.Neg, e) ==> e.fn.Neg?)
  {
  }

  lemma NameIsUnary(name: Disasm.Name, e: Entry)
    requires IsUnaryName(name) && SameName(name, e)
    ensures (name.Inc? && e.fn.Inc?) || (name.Dec? && e.fn.Dec?) || (name.Not? && e.fn.Not?) || (name.Neg? && e.fn.Neg?)
  {
    hide SameName;
    UnaryNames(e);
  }

  // ---- Moves ---------------------------------------------------------------------------------------

  /** The second operand of a mov, as shown: the operand, the register, the immediate, the accumulator, or the memory at
      an absolute address. */
  function Moved(m: Machine, e: Entry): Option<int>
    requires m.mem.Valid() && IsMove(e.fn)
  {
    match e.fn
    case MovRRm => (match RmValue(m, e, e.size) case Some(v) => Some(v) case None => None)
    case MovRmR => Some(GetReg(m, e.reg, e.size))
    case MovAlMoffs => (match m.mem.Load(e.imm, 1) case Some(v) => Some(v) case None => None)
    case MovAxMoffs => (match m.mem.Load(e.imm, e.size) case Some(v) => Some(v) case None => None)
    case MovMoffsAl => Some(GetReg(m, EAX, 1))
    case MovMoffsAx => Some(GetReg(m, EAX, e.size))
    case _ => Some(e.imm)
  }

  /** What has v put into the first operand of a mov, as shown. */
  function MovedTo(m: Machine, e: Entry, v: int): Effect
    requires m.mem.Valid() && IsMove(e.fn)
  {
    match e.fn
    case MovRmR => WriteRm(m, e, Address(m, e), e.size, v)
    case MovRmImm => WriteRm(m, e, Address(m, e), e.size, v)
    case MovAlMoffs => Done(SetReg(m, EAX, 1, v))
    case MovAxMoffs => Done(SetReg(m, EAX, e.size, v))
    case MovMoffsAl => WriteMem(m, e.imm, 1, v)
    case MovMoffsAx => WriteMem(m, e.imm, e.size, v)
    case _ => Done(SetReg(m, e.reg, e.size, v))
  }

  lemma MovMeaning(m: Machine, e: Entry)
    requires m.mem.Valid() && SameName(Disasm.Mov, e)
    ensures IsMove(e.fn) && Execute(m, e) == match Moved(m, e) case None => Stop(m, SegFault) case Some(v) => MovedTo(m, e, v)
  {
    hide GetReg, SetReg, WriteRm, WriteMem, Address, Image.Load, Execute, SameName, Condition;
    XlatName(e);
    RunsMove(m, e);
  }

  /** movzx and movsx put the unsigned or the signed value into the register, at the size named. */
  lemma MovxMeaning(m: Machine, e: Entry, dst: OperandSize)
    requires m.mem.Valid() && (SameName(Disasm.Movzx(dst), e) || SameName(Disasm.Movsx(dst), e))
    ensures match RmValue(m, e, e.size)
      case None => Execute(m, e) == Stop(m, SegFault)
      case Some(v) => Execute(m, e) == Done(SetReg(m, e.reg, dst, if SameName(Disasm.Movsx(dst), e) then Signed(v, e.size) else v))
  {
    hide RmValue, ReadRm, SetReg, Execute, SameName, Condition, WriteRm, WriteMem, GetReg, Address;
    NameIsMovx(e, dst);
    RunsMove(m, e);
    ReadsRm(m, e, e.size);
  }

  lemma NameIsMovx(e: Entry, dst: OperandSize)
    ensures SameName(Disasm.Movzx(dst), e) <==> e.fn == Movx(false, dst)
    ensures SameName(Disasm.Movsx(dst), e) <==> e.fn == Movx(true, dst)
  {
  }

  /** lea gives the address, whatever stands there. */
  lemma LeaMeaning(m: Machine, e: Entry)
    requires m.mem.Valid() && SameName(Disasm.Lea, e) && e.mod != 3 && e.scale < 4
    ensures var o := DecoderAgreement.OperandOf(e.mod, e.base, e.index, e.scale, e.disp);
      && o.Location? && (o.base.Some? ==> o.base.value < 8) && (o.index.Some? ==> o.index.value < 8)
      && Execute(m, e) == Done(SetReg(m, e.reg, e.size, Denoted(o, m.regs)))
  {
    hide SetReg, Address, Execute, Denoted, SameName, Condition, WriteRm, WriteMem, ReadRm, GetReg;
    XlatName(e);
    AddressExact(m, e);
    RunsMove(m, e);
  }

  /** xlat replaces AL by the byte AL places behind EBX. */
  lemma XlatMeaning(m: Machine, e: Entry)
    requires m.mem.Valid() && SameName(Disasm.Xlat, e)
    ensures Execute(m, e) == match m.mem.Load((R(m, EBX) + GetReg(m, EAX, 1)) % TWO32, 1)
      case None => Stop(m, SegFault)
      case Some(v) => Done(SetReg(m, EAX, 1, v))
  {
    hide SetReg, GetReg, Image.Load, Execute, SameName, Condition, WriteRm, WriteMem, ReadRm, Address;
    assert e.fn.Xlat? by { XlatName(e); }
    RunsMove(m, e);
  }

  lemma XlatName(e: Entry)
    ensures (SameName(Disasm.Xlat, e) ==> e.fn.Xlat?) && (SameName(Disasm.Lea, e) ==> e.fn.Lea?)
    ensures SameName(Disasm.Mov, e) ==> IsMove(e.fn)
  {
  }

  /** The exchange with the accumulator. */
  lemma AccumulatorSwaps(m: Machine, e: Entry)
    requires m.mem.Valid() && e.fn.XchgEaxR? && e.size > 1
    ensures Execute(m, e).Ok?
    ensures var m' := Execute(m, e).m;
      && m' == m.(regs := m'.regs)
      && GetReg(m', EAX, e.size) == GetReg(m, e.reg, e.size) && GetReg(m', e.reg, e.size) == GetReg(m, EAX, e.size)
      && forall q: Reg :: q != EAX && q != e.reg ==> m'.regs[q] == m.regs[q]
  {
    hide Execute, Low16, Low8, High8;
    RunsMove(m, e);
    SwapRegisters(m, e.reg, e.size);
  }

  lemma SwapRegisters(m: Machine, r: Reg, size: int)
    requires size == 2 || size == 4
    ensures var a, b := GetReg(m, EAX, size), GetReg(m, r, size);
      var m' := SetReg(SetReg(m, EAX, size, b), r, size, a);
      && GetReg(m', EAX, size) == b && GetReg(m', r, size) == a && forall q: Reg :: q != EAX && q != r ==> m'.regs[q] == m.regs[q]
  {
    hide GetReg, SetReg, Apart;
    var a, b := GetReg(m, EAX, size), GetReg(m, r, size);
    var m1 := SetReg(m, EAX, size, b);
    RegisterExact(m, EAX, size, b, EAX, size);
    RegisterExact(m1, r, size, a, r, size);
    RegisterExact(m1, r, size, a, EAX, size);
    RegisterBound(m, EAX, size);
    RegisterBound(m, r, size);
    WholeRegister(r, EAX, size);
    Untouched(m, EAX, size, b);
    Untouched(m1, r, size, a);
  }

  lemma WholeRegister(r: Reg, q: Reg, size: int)
    requires size == 2 || size == 4
    ensures r != q ==> Apart(r, size, q, size)
  {
  }

  lemma Untouched(m: Machine, r: Reg, size: int, v: int)
    requires size == 2 || size == 4
    ensures forall q: Reg :: q != r ==> SetReg(m, r, size, v).regs[q] == m.regs[q]
  {
    hide Low16, Low8, High8;
  }

  // ---- Conditions and jumps ---------------------------------------------------------------------------

  /** The condition a suffix names. */
  predicate Holds(c: Disasm.Cond, f: Eflags) {
    match c
    case O => Has(f, OF)
    case NO => !Has(f, OF)
    case B => Has(f, CF)
    case AE => !Has(f, CF)
    case E => Has(f, ZF)
    case NE => !Has(f, ZF)
    case BE => Has(f, CF) || Has(f, ZF)
    case A => !Has(f, CF) && !Has(f, ZF)
    case S => Has(f, SF)
    case NS => !Has(f, SF)
    case P => Has(f, PF)
    case NP => !Has(f, PF)
    case L => Has(f, SF) != Has(f, OF)
    case GE => Has(f, SF) == Has(f, OF)
    case LE => Has(f, ZF) || Has(f, SF) != Has(f, OF)
    case G => !Has(f, ZF) && Has(f, SF) == Has(f, OF)
  }

  lemma ConditionNamed(k: nat, f: Eflags)
    requires k < 16
    ensures Condition(k, f) <==> Holds(Disasm.CondName(k), f)
  {
    BelowOrEqual(f);
    hide Less;
  }

  predicate IsTransfer(name: Disasm.Name) {
    name.J? || name.Jmp? || name.Loop? || name.Loope? || name.Loopne? || name.Jecxz?
  }

  /** Whether the jump is taken; the loops count ECX down first. */
  predicate Taken(name: Disasm.Name, m: Machine) {
    var left := (R(m, ECX) - 1) % TWO32;
    match name
    case J(c) => Holds(c, m.flags)
    case Loop => left != 0
    case Loope => left != 0 && Has(m.flags, ZF)
    case Loopne => left != 0 && !Has(m.flags, ZF)
    case Jecxz => m.regs[ECX] == 0
    case _ => true
  }

  /** A jump to the target shown, or on to the next instruction; only the loops change a register. */
  lemma JumpMeaning(m: Machine, e: Entry, name: Disasm.Name)
    requires m.mem.Valid() && IsTransfer(name) && SameName(name, e) && e.fn != JmpRm
    ensures Execute(m, e) ==
      Done(m.(eip := if Taken(name, m) then e.imm else m.eip,
              regs := if name.Loop? || name.Loope? || name.Loopne? then m.regs[ECX := (R(m, ECX) - 1) % TWO32] else m.regs))
  {
    hide SameName, Execute, ExecFlow, Taken;
    NameIsJump(name, e);
    RunsFlow(m, e);
    JumpStep(m, e, name);
  }

  lemma JumpStep(m: Machine, e: Entry, name: Disasm.Name)
    requires m.mem.Valid() && IsTransfer(name) && JumpHandler(name, e.fn)
    ensures ExecFlow(m, e) ==
      Done(m.(eip := if Taken(name, m) then e.imm else m.eip,
              regs := if name.Loop? || name.Loope? || name.Loopne? then m.regs[ECX := (R(m, ECX) - 1) % TWO32] else m.regs))
  {
    hide Condition, Holds, Has, Push, Pop, ReadRm;
    if name.J? { ConditionNamed(e.fn.cc, m.flags); }
  }

  predicate JumpHandler(name: Disasm.Name, fn: Handler) {
    match name
    case J(c) => fn.Jcc? && fn.cc < 16 && c == Disasm.CondName(fn.cc)
    case Loopne => fn.Loop? && fn.op == 0xE0
    case Loope => fn.Loop? && fn.op == 0xE1
    case Loop => fn.Loop? && fn.op == 0xE2
    case Jecxz => fn.Loop? && fn.op == 0xE3
    case _ => name.Jmp? && fn.Jmp?
  }

  lemma LoopNames(e: Entry)
    ensures (SameName(Disasm.Loopne, e) ==> e.fn.Loop? && e.fn.op == 0xE0) && (SameName(Disasm.Loope, e) ==> e.fn.Loop? && e.fn.op == 0xE1)
  {
  }

  lemma CountNames(e: Entry)
    ensures (SameName(Disasm.Loop, e) ==> e.fn.Loop? && e.fn.op == 0xE2) && (SameName(Disasm.Jecxz, e) ==> e.fn.Loop? && e.fn.op == 0xE3)
  {
  }

  lemma JmpName(e: Entry)
    ensures SameName(Disasm.Jmp, e) ==> e.fn.Jmp? || e.fn.JmpRm?
  {
  }

  lemma JumpNamed(e: Entry, c: Disasm.Cond)
    requires SameName(Disasm.J(c), e)
    ensures e.fn.Jcc? && e.fn.cc < 16 && c == Disasm.CondName(e.fn.cc)
  {
    hide Disasm.CondName;
  }

  lemma NameIsJump(name: Disasm.Name, e: Entry)
    requires IsTransfer(name) && SameName(name, e) && e.fn != JmpRm
    ensures JumpHandler(name, e.fn)
  {
    hide SameName, Disasm.CondName;
    LoopNames(e);
    CountNames(e);
    JmpName(e);
    if name.J? { JumpNamed(e, name.cond); }
  }

  /** jmp and call through an operand. */
  lemma IndirectMeaning(m: Machine, e: Entry)
    requires m.mem.Valid() && (e.fn.JmpRm? || e.fn.CallRm?)
    ensures match RmValue(m, e, 4)
      case None => Execute(m, e) == Stop(m, SegFault)
      case Some(v) => Execute(m, e) == if e.fn.JmpRm? then Done(m.(eip := v)) else CalledTo(m, v)
  {
    hide RmValue, ReadRm, Push, Execute;
    RunsFlow(m, e);
    ReadsRm(m, e, 4);
  }

  /** The return address is pushed, and execution goes on at the target. */
  function CalledTo(m: Machine, target: int): Effect
    requires m.mem.Valid()
  {
    match Push(m, 4, m.eip)
    case Ok(m1, _) => Done(m1.(eip := target))
    case Stop(m1, ev) => Stop(m1, ev)
  }

  lemma CallMeaning(m: Machine, e: Entry)
    requires m.mem.Valid() && e.fn.CallRel?
    ensures Execute(m, e) == CalledTo(m, e.imm)
  {
    hide Push, Execute;
    RunsFlow(m, e);
  }

  /** setcc puts 1 or 0 into a byte. */
  lemma SetMeaning(m: Machine, e: Entry, c: Disasm.Cond)
    requires m.mem.Valid() && SameName(Disasm.Set(c), e)
    ensures Puts(m, e, false, 1, if Holds(c, m.flags) then 1 else 0, m.flags)
  {
    hide Condition, Holds, WriteRm, Address, Execute, SameName, ReadRm, SetReg, GetReg, WriteMem;
    NameIsSet(e, c);
    RunsMove(m, e);
    ConditionNamed(e.fn.cc, m.flags);
    assert m.(flags := m.flags) == m;
  }

  lemma NameIsSet(e: Entry, c: Disasm.Cond)
    requires SameName(Disasm.Set(c), e)
    ensures e.fn.Setcc? && e.fn.cc < 16 && c == Disasm.CondName(e.fn.cc)
  {
    hide Disasm.CondName, Disasm.StringName, IsMove, IsPush, IsBit, IsDouble;
  }

  /** int stops with its vector, hlt stops, nop does nothing. */
  lemma StopMeaning(m: Machine, e: Entry, name: Disasm.Name)
    requires m.mem.Valid() && SameName(name, e) && (name.Int? || name.Int3? || name.Hlt? || name.Nop? || name.Pause?)
    ensures Execute(m, e) == if name.Int? then Stop(m, Trap(e.imm)) else if name.Int3? then Stop(m, Trap(3))
                             else if name.Hlt? then Stop(m, Halted) else Done(m)
  {
    hide SameName, Execute, ExecFlow;
    NameIsStop(e, name);
    RunsStop(m, e);
    StopStep(m, e);
  }

  lemma StopStep(m: Machine, e: Entry)
    requires m.mem.Valid()
    ensures (e.fn.Interrupt? ==> ExecFlow(m, e) == Stop(m, Trap(e.imm))) && (e.fn.Halt? ==> ExecFlow(m, e) == Stop(m, Halted))
    ensures e.fn.Nop? ==> ExecFlow(m, e) == Done(m)
  {
    hide Push, Pop, ReadRm, Condition;
  }

  lemma IntNames(e: Entry)
    ensures (SameName(Disasm.Int, e) ==> e.fn.Interrupt?) && (SameName(Disasm.Int3, e) ==> e.fn.Interrupt? && e.imm == 3)
  {
  }

  lemma HaltName(e: Entry)
    ensures SameName(Disasm.Hlt, e) ==> e.fn.Halt?
  {
  }

  lemma NopNames(e: Entry)
    ensures (SameName(Disasm.Nop, e) ==> e.fn.Nop?) && (SameName(Disasm.Pause, e) ==> e.fn.Nop?)
  {
  }

  lemma NameIsStop(e: Entry, name: Disasm.Name)
    requires SameName(name, e) && (name.Int? || name.Int3? || name.Hlt? || name.Nop? || name.Pause?)
    ensures e.fn == if name.Int? || name.Int3? then Interrupt else if name.Hlt? then Halt else Nop
    ensures name.Int3? ==> e.imm == 3
  {
    hide SameName;
    IntNames(e);
    HaltName(e);
    NopNames(e);
  }

  // ---- Flags --------------------------------------------------------------------------------------------

  /** clc and stc change CF and nothing else. */
  lemma CarryMeaning(m: Machine, e: Entry, on: bool)
    requires m.mem.Valid() && SameName(if on then Disasm.Stc else Disasm.Clc, e)
    ensures var r := Execute(m, e); r == Done(m.(flags := r.m.flags)) && CarryIs(m.flags, r.m.flags, on)
  {
    hide Execute, SameName, ExecFlag, SetReg, GetReg, LowBits, ToWord, ChangedFlags, CarryIs;
    CarryNames(e);
    RunsFlag(m, e);
    FlagEffect(m, e);
    CarryChangesExact(m.flags, LowBits(GetReg(m, 4, 1)));
  }

  /** cld and std change DF and nothing else. */
  lemma DirectionMeaning(m: Machine, e: Entry, on: bool)
    requires m.mem.Valid() && SameName(if on then Disasm.Std else Disasm.Cld, e)
    ensures var r := Execute(m, e); r == Done(m.(flags := r.m.flags)) && DirectionIs(m.flags, r.m.flags, on)
  {
    hide Execute, SameName, ExecFlag, SetReg, GetReg, LowBits, ToWord, ChangedFlags, DirectionIs;
    DirectionNames(e);
    RunsFlag(m, e);
    FlagEffect(m, e);
    DirectionChangesExact(m.flags, LowBits(GetReg(m, 4, 1)));
  }

  /** sahf takes five flags from AH, whose bits stand where those of a saved word do. */
  lemma SahfMeaning(m: Machine, e: Entry)
    requires m.mem.Valid() && SameName(Disasm.Sahf, e)
    ensures var r := Execute(m, e); r == Done(m.(flags := r.m.flags)) && TakesAh(m.flags, r.m.flags, LowBits(GetReg(m, 4, 1)))
  {
    hide Execute, SameName, ExecFlag, SetReg, GetReg, LowBits, ToWord, ChangedFlags, TakesAh;
    AhNames(e);
    RunsFlag(m, e);
    FlagEffect(m, e);
    SahfExact(m.flags, LowBits(GetReg(m, 4, 1)));
  }

  /** lahf puts the low byte of a saved word into AH. */
  lemma LahfMeaning(m: Machine, e: Entry)
    requires m.mem.Valid() && SameName(Disasm.Lahf, e)
    ensures Execute(m, e) == Done(SetReg(m, 4, 1, ToWord(m.flags)))
  {
    hide Execute, SameName, ExecFlag, SetReg, GetReg, LowBits, ToWord, ChangedFlags;
    AhNames(e);
    RunsFlag(m, e);
    FlagEffect(m, e);
  }

  lemma CarryNames(e: Entry)
    ensures (SameName(Disasm.Clc, e) ==> e.fn.Clc?) && (SameName(Disasm.Stc, e) ==> e.fn.Stc?)
  {
  }

  lemma DirectionNames(e: Entry)
    ensures (SameName(Disasm.Cld, e) ==> e.fn.Cld?) && (SameName(Disasm.Std, e) ==> e.fn.Std?)
  {
  }

  lemma AhNames(e: Entry)
    ensures (SameName(Disasm.Sahf, e) ==> e.fn.Sahf?) && (SameName(Disasm.Lahf, e) ==> e.fn.Lahf?)
  {
  }

  lemma SameByte(m: Machine, v: int)
    ensures SetReg(m, 4, 1, v % 0x100) == SetReg(m, 4, 1, v)
    ensures SetReg(m, 4, 1, v).flags == m.flags
  {
  }

  lemma FlagEffect(m: Machine, e: Entry)
    requires m.mem.Valid()
    ensures ExecFlag(m, e) == Done(if e.fn.Lahf? then SetReg(m, 4, 1, ToWord(m.flags))
                                   else m.(flags := ChangedFlags(e.fn, m.flags, LowBits(GetReg(m, 4, 1)))))
    ensures SetReg(m, 4, 1, ToWord(m.flags)).flags == m.flags
  {
    hide ChangedFlags, LowBits, ToWord, SetReg, GetReg;
    SameByte(m, ToWord(m.flags));
  }
}
