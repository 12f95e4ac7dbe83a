/** The executor's decoder and the disassembler agree on length, operation, operands and jump target. */
module DecoderAgreement {
  import opened Words
  import opened Memory
  import opened Decoder
  import opened Operations
  import Disasm = Disassembler

  // ---- What an executor entry denotes -----------------------------------------

  /** Handlers with a register-or-memory operand. */
  predicate UsesRm(fn: Handler) {
    fn.AluRmR? || fn.AluRRm? || fn.AluRmImm? || fn.TestRmR? || fn.TestRmImm? || fn.MovRmR?
    || fn.MovRRm? || fn.MovRmImm? || fn.Xchg? || fn.Inc? || fn.Dec? || fn.Not? || fn.Neg?
    || fn.Shift? || fn.Setcc? || fn.Movx? || fn.Lea? || fn.CallRm? || fn.JmpRm? || fn.PushRm?
    || fn.PushRm16? || fn.PopRm? || fn.Imul3? || fn.Imul2? || fn.MulDiv? || fn.BtR? || fn.BtI?
    || fn.BitScan? || fn.DoubleShift?
  }

  predicate IsJump(fn: Handler) {
    fn.Jcc? || fn.CallRel? || fn.Jmp? || fn.Loop?
  }

  function OperandOf(mod: nat, base: Option<nat>, index: Option<nat>, scale: nat, disp: int): Disasm.Operand {
    if mod == 3 && base.Some? then Disasm.Register(base.value)
    else Disasm.Place(base, index, Disasm.Factor(scale), disp)
  }

  /** call and jmp through an operand: they read 32 bits whatever the prefix says. */
  predicate IsIndirect(fn: Handler) {
    fn.CallRm? || fn.JmpRm?
  }

  /** Handlers with a register operand besides. */
  predicate UsesReg(fn: Handler) {
    fn.AluRmR? || fn.AluRRm? || fn.TestRmR? || fn.MovRmR? || fn.MovRRm? || fn.Xchg? || fn.Movx? || fn.Lea? || fn.Imul3?
    || fn.Imul2? || fn.BtR? || fn.BitScan? || fn.DoubleShift? || fn.PushR? || fn.PopR? || fn.XchgEaxR? || fn.MovRImm?
  }

  /** Handlers with an immediate operand. */
  predicate UsesImm(fn: Handler) {
    fn.AluRmImm? || fn.TestRmImm? || fn.MovRmImm? || fn.MovRImm? || fn.PushImm? || fn.Imul3? || fn.BtI? || fn.RetN?
    || fn.Enter? || fn.MovAlMoffs? || fn.MovAxMoffs? || fn.MovMoffsAl? || fn.MovMoffsAx?
  }

  /** The executor means the immediate v as it is shown: modulo 32 as a shift count, beside the opcode in a double
      shift, signed in imul, else modulo the operand size where it was sign-extended, or as it stands. */
  predicate SameImm(fn: Handler, size: OperandSize, imm: int, v: Word) {
    if fn.Shift? then imm == v % 32
    else if fn.DoubleShift? then imm % 0x100 == v
    else if fn.Imul3? then imm == Signed(v % Range(size), size)
    else if fn.AluRmImm? || fn.PushImm? then imm == v % Range(size)
    else imm == v
  }

  /** Handlers whose register operand is named with a size. */
  predicate NamesRegister(fn: Handler) {
    fn.PushR? || fn.PopR? || fn.XchgEaxR? || fn.MovRImm? || fn.MovAlMoffs? || fn.MovAxMoffs? || fn.MovMoffsAl? || fn.MovMoffsAx?
  }

  /** The size an operand of the entry is used with. */
  function UsedSize(e: Entry): nat {
    if e.fn.MovAlMoffs? || e.fn.MovMoffsAl? then 1 else e.size
  }

  /** The line shows the operand, size, register, immediate and target that the executor uses; except that the
      operand of an indirect jump or call is shown with the prefix's size, while 32 bits are used. */
  predicate SameOperands(l: Disasm.Line, e: Entry, opsize: OperandSize) {
    && l.rm == (if UsesRm(e.fn) then Some(OperandOf(e.mod, e.base, e.index, e.scale, e.disp)) else None)
    && l.size == (if IsIndirect(e.fn) then Some(opsize) else if UsesRm(e.fn) || NamesRegister(e.fn) then Some(UsedSize(e)) else None)
    && (IsIndirect(e.fn) ==> e.size == 4) && (e.fn.PushImm? ==> e.size == opsize)
    && (l.reg.Some? ==> l.reg.value == e.reg) && (UsesReg(e.fn) ==> l.reg.Some?)
    && (l.imm.Some? ==> SameImm(e.fn, e.size, e.imm, l.imm.value)) && (UsesImm(e.fn) ==> l.imm.Some?)
    && l.target == (if IsJump(e.fn) then Some(Mask32(e.imm)) else None)
  }

  /** The scan ends with the instruction and shows its operands. */
  predicate Shows(s: Disasm.Scan<Disasm.Line>, e: Entry, start: int, opsize: OperandSize) {
    s.Seen? && s.pos == start + e.length && SameOperands(s.val, e, opsize)
  }

  /** The whole line: operation, operands and their order. */
  predicate SameLine(l: Disasm.Line, e: Entry, opsize: OperandSize) {
    SameOperands(l, e, opsize) && SameName(l.name, e) && l.first == !ToRegister(e.fn)
  }

  // ---- Byte readers -------------------------------------------------------------

  lemma U8At(m: Image, pos: int, b: Byte)
    requires m.Valid() && pos >= 0 && m.ByteAt(pos) == Some(b)
    ensures pos + 1 <= TASK_SIZE && Disasm.U8(m, pos) == Disasm.Seen(b, pos + 1)
  {
  }

  lemma ReadBytes(m: Image, pos: int, n: nat, k: nat)
    requires m.Valid() && m.Disjoint() && k < n && m.Read(pos, n).Some?
    ensures m.ByteAt(pos + k) == Some(m.Read(pos, n).value[k])
  {
  }

  lemma FetchesAgree(m: Image, pos: int, size: int)
    requires m.Valid() && m.Disjoint() && pos >= 0 && IsSize(size) && FetchNum(m, pos, size).Got?
    ensures Disasm.Unsigned(m, pos, size) == Disasm.Seen(FetchNum(m, pos, size).val, pos + size)
  {
    var bs := m.Read(pos, size).value;
    ReadBytes(m, pos, size, 0);
    U8At(m, pos, bs[0]);
    if size > 1 {
      ReadBytes(m, pos, size, 1);
      U8At(m, pos + 1, bs[1]);
    }
    if size == 4 { WordsAgree(m, pos); }
  }

  lemma WordsAgree(m: Image, pos: int)
    requires m.Valid() && m.Disjoint() && pos >= 0 && m.Read(pos, 4).Some?
    ensures pos + 4 <= TASK_SIZE
    ensures Disasm.U32(m, pos) == Disasm.Seen(Num(m.Read(pos, 4).value), pos + 4)
  {
    var bs := m.Read(pos, 4).value;
    forall k: nat | k < 4 ensures pos + k + 1 <= TASK_SIZE && Disasm.U8(m, pos + k) == Disasm.Seen(bs[k], pos + k + 1) {
      ReadBytes(m, pos, 4, k);
      U8At(m, pos + k, bs[k]);
    }
    assert Disasm.U8(m, pos + 0) == Disasm.Seen(bs[0], pos + 1);
    assert Disasm.U8(m, pos + 1) == Disasm.Seen(bs[1], pos + 2);
    assert Disasm.U8(m, pos + 2) == Disasm.Seen(bs[2], pos + 3);
    assert Disasm.U8(m, pos + 3) == Disasm.Seen(bs[3], pos + 4);
  }

  lemma SignedFetchesAgree(m: Image, pos: int)
    requires m.Valid() && m.Disjoint() && pos >= 0
    ensures FetchSigned(m, pos, 1).Got? ==>
      pos + 1 <= TASK_SIZE && Disasm.S8(m, pos) == Disasm.Seen(FetchSigned(m, pos, 1).val, pos + 1)
    ensures FetchSigned(m, pos, 4).Got? ==>
      pos + 4 <= TASK_SIZE && Disasm.S32(m, pos) == Disasm.Seen(FetchSigned(m, pos, 4).val, pos + 4)
  {
    if FetchSigned(m, pos, 1).Got? { FetchesAgree(m, pos, 1); }
    if FetchSigned(m, pos, 4).Got? { FetchesAgree(m, pos, 4); }
  }

  // ---- ModRM ----------------------------------------------------------------------

  function RmOperand(r: ModRM): Disasm.Operand {
    OperandOf(r.mod, r.base, r.index, r.scale, r.disp)
  }

  lemma DisplacementsAgree(m: Image, pos: int, r: ModRM)
    requires m.Valid() && m.Disjoint() && pos >= 0 && IsModRM(r) && r.mod != 3 && r.disp == 0
    requires pos <= TASK_SIZE && AddDisplacement(m, pos, r).Got?
    ensures var f := AddDisplacement(m, pos, r);
      && f.pos <= TASK_SIZE
      && Disasm.ReadDisplacement(m, pos, r.mod, r.reg, r.base, r.index, Disasm.Factor(r.scale))
         == Disasm.Seen((f.val.reg, RmOperand(f.val)), f.pos)
  {
    SignedFetchesAgree(m, pos);
  }

  lemma SibsAgree(m: Image, pos: int, mod: nat, reg: Reg)
    requires m.Valid() && m.Disjoint() && 0 <= pos <= TASK_SIZE && mod < 3
    requires SibBody(m, pos, mod, reg).Got?
    ensures var f := SibBody(m, pos, mod, reg);
      Disasm.ReadSib(m, pos, mod, reg) == Disasm.Seen((f.val.reg, RmOperand(f.val)), f.pos)
  {
    hide Mask32, Image.Valid, Image.Disjoint, Disasm.Place, Disasm.ReadDisplacement, AddDisplacement;
    hide FetchSigned, FetchNum, Disasm.S32, Disasm.U8, Disasm.Factor;
    FetchesAgree(m, pos, 1);
    var sib := FetchNum(m, pos, 1).val;
    if sib % 8 == 5 && mod == 0 {
      SignedFetchesAgree(m, pos + 1);
    } else {
      var index := if sib / 8 % 8 != 4 then Some(sib / 8 % 8) else None;
      DisplacementsAgree(m, pos + 1, ModRM(mod, reg, Some(sib % 8), index, sib / 64, 0));
    }
  }

  lemma ModRMsAgree(m: Image, pos: int)
    requires m.Valid() && m.Disjoint() && pos >= 0 && DecodeModRM(m, pos).Got?
    ensures pos <= TASK_SIZE
    ensures var f := DecodeModRM(m, pos);
      Disasm.ReadModRM(m, pos) == Disasm.Seen((f.val.reg, RmOperand(f.val)), f.pos)
  {
    hide Mask32, Image.Valid, Image.Disjoint, Disasm.Place, Disasm.ReadDisplacement, AddDisplacement;
    hide FetchSigned, FetchNum, Disasm.S32, Disasm.U8, Disasm.ReadSib, SibBody;
    FetchesAgree(m, pos, 1);
    var b := FetchNum(m, pos, 1).val;
    var mod, reg, rm := b / 64, b / 8 % 8, b % 8;
    if mod == 3 {
    } else if rm == 4 {
      SibsAgree(m, pos + 1, mod, reg);
    } else if rm == 5 && mod == 0 {
      SignedFetchesAgree(m, pos + 1);
    } else {
      DisplacementsAgree(m, pos + 1, ModRM(mod, reg, Some(rm), None, 0, 0));
    }
  }

  // ---- Opcode tables ----------------------------------------------------------------

  /** The conversion of an immediate fits what the handler means by it. */
  predicate ConvMatches(fn: Handler, size: OperandSize, conv: Conversion, immSize: ImmSize, signed: bool) {
    if immSize == 0 then !UsesImm(fn)
    else if signed then
      immSize == 1 && if fn.Imul3? then conv == SignExtended(1) else (fn.AluRmImm? || fn.PushImm?) && conv == Widened(size)
    else if fn.Shift? then conv == Mod32 && immSize == 1
    else if fn.DoubleShift? then conv.Tagged? && conv.k % 0x100 == 0 && immSize == 1
    else if fn.Imul3? then conv == SignExtended(size) && immSize == size
    else conv == Raw && (fn.AluRmImm? || fn.PushImm? ==> immSize == size)
  }

  /** A ModRM group and a disassembler form read the same immediates and show the same sizes. */
  ghost predicate GroupMatches(g: Group, f: Disasm.Form, opsize: OperandSize) {
    match g
    case Fixed(t) =>
      t.fn == Bad || (UsesRm(t.fn) && !IsJump(t.fn) && !IsIndirect(t.fn) && f.ModRMForm? && f.size == t.size && f.tail == t.immSize
                      && ConvMatches(t.fn, t.size, t.conv, t.immSize, f.signed))
    case AluImm(op, size) =>
      && (op == 0x81 || (op == 0x80 && size == 1) || op == 0x83)
      && f == Disasm.ModRMForm(size, if op == 0x81 then size else 1, op == 0x83)
    case Shifts(op, size) => f == Disasm.ModRMForm(size, if op < 0xD0 then 1 else 0, false)
    case Group3(size) => f == Disasm.TestGroup(size)
    case Group5(op, size, prefix) =>
      f == Disasm.ModRMForm(size, 0, false) && prefix == opsize && (op == 0xFF ==> size == opsize) && (opsize == 2 || opsize == 4)
    case BitImm(size) => f == Disasm.BitGroup(size)
  }

  /** A table slot and a disassembler form read the same bytes and show the same part of them. */
  ghost predicate Matches(s: Shape, f: Disasm.Form, opsize: OperandSize) {
    match s
    case Simple(fn, size, reg, _) =>
      fn == Bad || (!UsesRm(fn) && !IsJump(fn) && !UsesImm(fn) && (UsesReg(fn) <==> NamesRegister(fn))
                    && f == if UsesReg(fn) then Disasm.PlainRegister(reg, size) else Disasm.NoOperands)
    case RegOperand(fn, size, base) => f == Disasm.RegisterForm(base, size) && UsesRm(fn) && !UsesReg(fn) && !UsesImm(fn) && !IsIndirect(fn)
    case Immediate(fn, size, reg, k, conv) => !IsJump(fn) && !IsIndirect(fn) && ImmediateMatches(fn, size, reg, k, conv, f, opsize)
    case Relative(fn, k) =>
      IsJump(fn) && !UsesRm(fn) && (k == 1 || k == 4) && f == if k == 1 then Disasm.Rel8 else Disasm.Rel32
    case EnterShape => f == Disasm.EnterForm
    case WithModRM(g) => GroupMatches(g, f, opsize)
  }

  ghost predicate ImmediateMatches(fn: Handler, size: OperandSize, reg: Reg, k: ImmSize, conv: Conversion, f: Disasm.Form, opsize: OperandSize) {
    if UsesRm(fn) then !UsesReg(fn) && f == Disasm.AccumulatorImm(size) && k == size && ConvMatches(fn, size, conv, k, false)
    else if UsesReg(fn) then
      NamesRegister(fn) && fn.MovRImm? && f == Disasm.RegisterImm(reg, size) && k == size && ConvMatches(fn, size, conv, k, false)
    else if NamesRegister(fn) then
      k == 4 && f == Disasm.AddressForm(if fn.MovAlMoffs? || fn.MovMoffsAl? then 1 else size) && ConvMatches(fn, size, conv, k, false)
    else f.ImmediateForm? && f.immSize == k && ConvMatches(fn, size, conv, k, f.signed) && (fn.PushImm? ==> size == opsize)
  }

  /** The immediate a disassembler form reads after ModRM, given the reg field, and whether it is signed. */
  function ImmAfterModRM(f: Disasm.Form, reg: nat): Option<(nat, bool)> {
    match f
    case ModRMForm(_, k, signed) => Some((k, signed))
    case TestGroup(size) => Some((if reg <= 1 then size else 0, false))
    case BitGroup(_) => if reg < 4 then None else Some((1, false))
    case _ => None
  }

  function ShownSize(f: Disasm.Form): OperandSize
    requires f.ModRMForm? || f.TestGroup? || f.BitGroup?
  {
    f.size
  }

  /** What a group selects fits what the form shows. */
  predicate TailMatches(t: Tail, f: Disasm.Form, reg: Reg, opsize: OperandSize) {
    && UsesRm(t.fn) && !IsJump(t.fn) && (f.ModRMForm? || f.TestGroup? || f.BitGroup?)
    && ImmAfterModRM(f, reg).Some? && ImmAfterModRM(f, reg).value.0 == t.immSize
    && ConvMatches(t.fn, t.size, t.conv, t.immSize, ImmAfterModRM(f, reg).value.1)
    && ShownSize(f) == (if IsIndirect(t.fn) then opsize else t.size) && (IsIndirect(t.fn) ==> t.size == 4)
  }

  lemma GroupTail(g: Group, f: Disasm.Form, reg: Reg, opsize: OperandSize)
    requires GroupMatches(g, f, opsize) && TailOf(g, reg).fn != Bad
    ensures TailMatches(TailOf(g, reg), f, reg, opsize)
  {
    hide TailMatches, GroupMatches, TailOf;
    if g.Fixed? || g.AluImm? || g.Shifts? { PlainGroupTail(g, f, reg, opsize); }
    else if g.Group5? { JumpGroupTail(g, f, reg, opsize); }
    else { SelectedGroupTail(g, f, reg, opsize); }
  }

  lemma PlainGroupTail(g: Group, f: Disasm.Form, reg: Reg, opsize: OperandSize)
    requires (g.Fixed? || g.AluImm? || g.Shifts?) && GroupMatches(g, f, opsize) && TailOf(g, reg).fn != Bad
    ensures TailMatches(TailOf(g, reg), f, reg, opsize)
  {
  }

  lemma JumpGroupTail(g: Group, f: Disasm.Form, reg: Reg, opsize: OperandSize)
    requires g.Group5? && GroupMatches(g, f, opsize) && TailOf(g, reg).fn != Bad
    ensures TailMatches(TailOf(g, reg), f, reg, opsize)
  {
  }

  lemma SelectedGroupTail(g: Group, f: Disasm.Form, reg: Reg, opsize: OperandSize)
    requires (g.Group3? || g.BitImm?) && GroupMatches(g, f, opsize) && TailOf(g, reg).fn != Bad
    ensures TailMatches(TailOf(g, reg), f, reg, opsize)
  {
  }

  /** Matching conversions agree on every immediate. */
  lemma ConversionsAgree(fn: Handler, size: OperandSize, conv: Conversion, immSize: ImmSize, signed: bool, v: Word)
    requires ConvMatches(fn, size, conv, immSize, signed) && immSize != 0 && v < Range(immSize)
    ensures SameImm(fn, size, Convert(conv, v), if signed then Mask32(Signed(v, 1)) else v)
  {
    if signed { ByteWidened(v, size); }
    else { assert v < Range(size) ==> v % Range(size) == v; }
  }

  /** A signed byte shown as 32 bits is the same number in a smaller size. */
  lemma ByteWidened(v: Word, size: OperandSize)
    requires v < 0x100
    ensures Mask32(Signed(v, 1)) % Range(size) == Signed(v, 1) % Range(size)
    ensures Signed(Signed(v, 1) % Range(size), size) == Signed(v, 1)
  {
    var n := Signed(v, 1);
    if n >= 0 {
      assert Mask32(n) == n;
    } else {
      assert Mask32(n) == n + TWO32;
      WrapsDown(n, size);
    }
  }

  lemma WrapsDown(n: int, size: OperandSize)
    requires -0x80 <= n < 0
    ensures n % Range(size) == n + Range(size) && (n + TWO32) % Range(size) == n + Range(size)
  {
  }

  lemma TablesMatchAlu(op: Byte, opsize: OperandSize)
    requires op < 0x40 && op != 0x0F && (opsize == 2 || opsize == 4)
    ensures Matches(AluShape(op, opsize), Disasm.FormOf(op, opsize), opsize)
  {
    hide Disasm.FormC0;
  }

  lemma TablesMatch40(op: Byte, opsize: OperandSize)
    requires 0x40 <= op < 0x70 && (opsize == 2 || opsize == 4)
    ensures Matches(Shape40(op, opsize), Disasm.FormOf(op, opsize), opsize)
  {
    hide Disasm.FormC0;
  }

  lemma TablesMatch70(op: Byte, opsize: OperandSize)
    requires 0x70 <= op < 0x84 && (opsize == 2 || opsize == 4)
    ensures Matches(Shape40(op, opsize), Disasm.FormOf(op, opsize), opsize)
  {
    hide Disasm.FormC0;
  }

  lemma TablesMatch84(op: Byte, opsize: OperandSize)
    requires 0x84 <= op < 0x89 && (opsize == 2 || opsize == 4)
    ensures Matches(Shape84(op, opsize), Disasm.FormOf(op, opsize), opsize)
  {
    hide Disasm.FormC0;
  }

  lemma TablesMatch89(op: Byte, opsize: OperandSize)
    requires 0x89 <= op < 0x8C && (opsize == 2 || opsize == 4)
    ensures Matches(Shape84(op, opsize), Disasm.FormOf(op, opsize), opsize)
  {
    hide Disasm.FormC0;
  }

  lemma TablesMatch8C(op: Byte, opsize: OperandSize)
    requires 0x8C <= op < 0x90 && (opsize == 2 || opsize == 4)
    ensures Matches(Shape84(op, opsize), Disasm.FormOf(op, opsize), opsize)
  {
    hide Disasm.FormC0;
  }

  lemma TablesMatch90(op: Byte, opsize: OperandSize)
    requires 0x90 <= op < 0x98 && (opsize == 2 || opsize == 4)
    ensures Matches(Shape84(op, opsize), Disasm.FormOf(op, opsize), opsize)
  {
    hide Disasm.FormC0;
  }

  lemma TablesMatch98(op: Byte, opsize: OperandSize)
    requires 0x98 <= op < 0xA0 && (opsize == 2 || opsize == 4)
    ensures Matches(Shape84(op, opsize), Disasm.FormOf(op, opsize), opsize)
  {
    hide Disasm.FormOf, Matches, Shape84;
    if op == 0x9A || op == 0x9B {
      RefusedMatches(op, opsize);
    } else {
      NothingShown(op, opsize);
      NothingMatches(op, opsize);
    }
  }

  lemma RefusedMatches(op: Byte, opsize: OperandSize)
    requires op == 0x9A || op == 0x9B
    ensures Matches(Shape84(op, opsize), Disasm.FormOf(op, opsize), opsize)
  {
    hide Disasm.FormOf;
  }

  lemma NothingMatches(op: Byte, opsize: OperandSize)
    requires 0x98 <= op < 0xA0 && op != 0x9A && op != 0x9B && (opsize == 2 || opsize == 4)
    ensures Matches(Shape84(op, opsize), Disasm.NoOperands, opsize)
  {
    hide GroupMatches, ConvMatches;
  }

  lemma NothingShown(op: Byte, opsize: OperandSize)
    requires 0x98 <= op < 0xA0 && op != 0x9A && op != 0x9B
    ensures Disasm.FormOf(op, opsize) == Disasm.NoOperands
  {
    hide Disasm.FormC0, Disasm.SizeOf;
  }

  lemma TablesMatchA0First(op: Byte, opsize: OperandSize)
    requires 0xA0 <= op < 0xA4 && (opsize == 2 || opsize == 4)
    ensures Matches(ShapeA0(op, opsize), Disasm.FormOf(op, opsize), opsize)
  {
  }

  lemma TablesMatchA0Second(op: Byte, opsize: OperandSize)
    requires 0xA4 <= op < 0xA8 && (opsize == 2 || opsize == 4)
    ensures Matches(ShapeA0(op, opsize), Disasm.FormOf(op, opsize), opsize)
  {
  }

  lemma TablesMatchA0Third(op: Byte, opsize: OperandSize)
    requires 0xA8 <= op < 0xB0 && (opsize == 2 || opsize == 4)
    ensures Matches(ShapeA0(op, opsize), Disasm.FormOf(op, opsize), opsize)
  {
  }

  lemma TablesMatchA0Fourth(op: Byte, opsize: OperandSize)
    requires 0xB0 <= op < 0xC0 && (opsize == 2 || opsize == 4)
    ensures Matches(ShapeA0(op, opsize), Disasm.FormOf(op, opsize), opsize)
  {
  }

  lemma TablesMatchA0(op: Byte, opsize: OperandSize)
    requires 0xA0 <= op < 0xC0 && (opsize == 2 || opsize == 4)
    ensures Matches(ShapeA0(op, opsize), Disasm.FormOf(op, opsize), opsize)
  {
    hide Matches, ShapeA0, Disasm.FormOf;
    if op < 0xA4 { TablesMatchA0First(op, opsize); } else if op < 0xA8 { TablesMatchA0Second(op, opsize); } else if op < 0xB0 { TablesMatchA0Third(op, opsize); } else { TablesMatchA0Fourth(op, opsize); }
  }

  lemma TablesMatchC0(op: Byte, opsize: OperandSize)
    requires 0xC0 <= op < 0xC8 && (opsize == 2 || opsize == 4)
    ensures Matches(ShapeC0(op, opsize), Disasm.FormC0(op, opsize), opsize)
  {
  }

  lemma TablesMatchC8(op: Byte, opsize: OperandSize)
    requires 0xC8 <= op < 0xD0 && (opsize == 2 || opsize == 4)
    ensures Matches(ShapeC0(op, opsize), Disasm.FormC0(op, opsize), opsize)
  {
  }

  lemma TablesMatchD0(op: Byte, opsize: OperandSize)
    requires 0xD0 <= op < 0xF0 && (opsize == 2 || opsize == 4)
    ensures Matches(ShapeC0(op, opsize), Disasm.FormC0(op, opsize), opsize)
  {
  }

  lemma TablesMatchF0(op: Byte, opsize: OperandSize)
    requires 0xF0 <= op < 0xF8 && (opsize == 2 || opsize == 4)
    ensures Matches(ShapeC0(op, opsize), Disasm.FormC0(op, opsize), opsize)
  {
  }

  lemma TablesMatchF8First(op: Byte, opsize: OperandSize)
    requires 0xF8 <= op < 0xFC && (opsize == 2 || opsize == 4)
    ensures Matches(ShapeC0(op, opsize), Disasm.FormC0(op, opsize), opsize)
  {
  }

  lemma TablesMatchF8Second(op: Byte, opsize: OperandSize)
    requires 0xFC <= op < 0xFE && (opsize == 2 || opsize == 4)
    ensures Matches(ShapeC0(op, opsize), Disasm.FormC0(op, opsize), opsize)
  {
  }

  lemma TablesMatchF8Third(op: Byte, opsize: OperandSize)
    requires 0xFE <= op && (opsize == 2 || opsize == 4)
    ensures Matches(ShapeC0(op, opsize), Disasm.FormC0(op, opsize), opsize)
  {
  }

  lemma TablesMatchF8(op: Byte, opsize: OperandSize)
    requires 0xF8 <= op && (opsize == 2 || opsize == 4)
    ensures Matches(ShapeC0(op, opsize), Disasm.FormC0(op, opsize), opsize)
  {
    hide Matches, ShapeC0, Disasm.FormC0;
    if op < 0xFC { TablesMatchF8First(op, opsize); } else if op < 0xFE { TablesMatchF8Second(op, opsize); } else { TablesMatchF8Third(op, opsize); }
  }

  lemma HighForms(op: Byte, opsize: OperandSize)
    requires op >= 0xC0
    ensures Disasm.FormOf(op, opsize) == Disasm.FormC0(op, opsize)
  {
    hide Disasm.FormC0;
  }

  lemma TablesMatch(op: Byte, opsize: OperandSize)
    requires op != 0x0F && (opsize == 2 || opsize == 4)
    ensures Matches(ShapeOf(op, opsize), Disasm.FormOf(op, opsize), opsize)
  {
    hide Matches, Disasm.FormOf, AluShape, Shape40, Shape84, ShapeA0, ShapeC0, Disasm.FormC0;
    if op < 0x40 { TablesMatchAlu(op, opsize); }
    else if op < 0x70 { TablesMatch40(op, opsize); }
    else if op < 0x84 { TablesMatch70(op, opsize); }
    else if op < 0x89 { TablesMatch84(op, opsize); }
    else if op < 0x8C { TablesMatch89(op, opsize); }
    else if op < 0x90 { TablesMatch8C(op, opsize); }
    else if op < 0x98 { TablesMatch90(op, opsize); }
    else if op < 0xA0 { TablesMatch98(op, opsize); }
    else if op < 0xC0 { TablesMatchA0(op, opsize); }
    else {
      HighForms(op, opsize);
      if op < 0xC8 { TablesMatchC0(op, opsize); }
      else if op < 0xD0 { TablesMatchC8(op, opsize); }
      else if op < 0xF0 { TablesMatchD0(op, opsize); }
      else if op < 0xF8 { TablesMatchF0(op, opsize); }
      else { TablesMatchF8(op, opsize); }
    }
  }

  lemma TablesMatch0F(op: Byte, opsize: OperandSize)
    requires opsize == 2 || opsize == 4
    ensures Matches(Shape0F(op, opsize), Disasm.Form0F(op, opsize), opsize)
  {
    hide Matches, Shape0F, Disasm.Form0F;
    if op < 0xAC { TablesMatch0FLow(op, opsize); }
    else if op < 0xB4 { TablesMatch0FMiddle(op, opsize); }
    else { TablesMatch0FHigh(op, opsize); }
  }

  lemma TablesMatch0FLowFirst(op: Byte, opsize: OperandSize)
    requires op < 0x90 && (opsize == 2 || opsize == 4)
    ensures Matches(Shape0F(op, opsize), Disasm.Form0F(op, opsize), opsize)
  {
  }

  lemma TablesMatch0FLowSecond(op: Byte, opsize: OperandSize)
    requires 0x90 <= op < 0xA4 && (opsize == 2 || opsize == 4)
    ensures Matches(Shape0F(op, opsize), Disasm.Form0F(op, opsize), opsize)
  {
  }

  lemma TablesMatch0FLowThird(op: Byte, opsize: OperandSize)
    requires 0xA4 <= op < 0xAC && (opsize == 2 || opsize == 4)
    ensures Matches(Shape0F(op, opsize), Disasm.Form0F(op, opsize), opsize)
  {
  }

  lemma TablesMatch0FLow(op: Byte, opsize: OperandSize)
    requires op < 0xAC && (opsize == 2 || opsize == 4)
    ensures Matches(Shape0F(op, opsize), Disasm.Form0F(op, opsize), opsize)
  {
    hide Matches, Shape0F, Disasm.Form0F;
    if op < 0x90 { TablesMatch0FLowFirst(op, opsize); } else if op < 0xA4 { TablesMatch0FLowSecond(op, opsize); } else { TablesMatch0FLowThird(op, opsize); }
  }

  lemma TablesMatch0FMiddle(op: Byte, opsize: OperandSize)
    requires 0xAC <= op < 0xB4 && (opsize == 2 || opsize == 4)
    ensures Matches(Shape0F(op, opsize), Disasm.Form0F(op, opsize), opsize)
  {
  }

  lemma TablesMatch0FHigh(op: Byte, opsize: OperandSize)
    requires op >= 0xB4 && (opsize == 2 || opsize == 4)
    ensures Matches(Shape0F(op, opsize), Disasm.Form0F(op, opsize), opsize)
  {
  }

  // ---- Whole instructions --------------------------------------------------------------

  lemma ImmsAgree(m: Image, pos: int, fn: Handler, size: OperandSize, conv: Conversion, immSize: ImmSize, signed: bool, line: Disasm.Line)
    requires m.Valid() && m.Disjoint() && 0 <= pos <= TASK_SIZE && line.imm.None?
    requires immSize == 0 || FetchNum(m, pos, immSize).Got?
    requires ConvMatches(fn, size, conv, immSize, signed)
    ensures pos + immSize <= TASK_SIZE
    ensures var s := Disasm.WithImm(m, pos, immSize, signed, line);
      && s.Seen? && s.pos == pos + immSize && s.val == line.(imm := s.val.imm) && (s.val.imm.Some? <==> immSize != 0)
      && (immSize != 0 ==> SameImm(fn, size, Convert(conv, FetchNum(m, pos, immSize).val), s.val.imm.value))
  {
    hide SameImm, Convert, ConvMatches, FetchNum, Disasm.S8, Disasm.Unsigned, Mask32;
    if immSize != 0 {
      FetchesAgree(m, pos, immSize);
      var v := FetchNum(m, pos, immSize).val;
      FetchedInRange(m, pos, immSize);
      if signed {
        SignedOneByte(fn, size, conv, immSize);
        SignedFetchesAgree(m, pos);
        SignedFetch(m, pos);
      }
      SmallWord(v);
      ConversionsAgree(fn, size, conv, immSize, signed, v);
    }
  }

  lemma SignedFetch(m: Image, pos: int)
    requires m.Valid() && FetchNum(m, pos, 1).Got?
    ensures FetchSigned(m, pos, 1) == Got(Signed(FetchNum(m, pos, 1).val, 1), pos + 1)
  {
  }

  lemma SmallWord(v: Word)
    ensures Mask32(v) == v
  {
  }

  lemma SignedOneByte(fn: Handler, size: OperandSize, conv: Conversion, immSize: ImmSize)
    requires ConvMatches(fn, size, conv, immSize, true) && immSize != 0
    ensures immSize == 1
  {
  }

  /** Reducing an absolute address does not change the operand it denotes. */
  lemma AbsoluteOperand(t: Tail, start: int, pos: int, r: ModRM, imm: int)
    requires start <= pos && IsModRM(r)
    ensures var e := RmEntry(t, start, pos, r, imm).e;
      OperandOf(e.mod, e.base, e.index, e.scale, e.disp) == RmOperand(r)
  {
  }

  lemma TailsAgree(m: Image, g: Group, f: Disasm.Form, start: int, pos: int, opsize: OperandSize)
    requires m.Valid() && m.Disjoint() && 0 <= start <= pos <= TASK_SIZE && GroupMatches(g, f, opsize)
    requires var d := DecodeShape(m, WithModRM(g), start, pos); d.Insn? && d.e.fn != Bad
    ensures Shows(Disasm.ReadForm(m, f, pos), DecodeShape(m, WithModRM(g), start, pos).e, start, opsize)
  {
    hide SameImm, Convert, ConvMatches, GroupMatches, UsesReg, UsesImm, UsesRm, IsJump, NamesRegister, DecodeModRM, Disasm.ReadModRM, TailOf, OperandOf;
    var r := DecodeModRM(m, pos);
    ModRMsAgree(m, pos);
    var t := TailOf(g, r.val.reg);
    assert DecodeTail(m, t, start, r.pos, r.val).e.fn == t.fn;
    GroupTail(g, f, r.val.reg, opsize);
    var line := Disasm.Rm(RmOperand(r.val), ShownSize(f), Some(r.val.reg));
    ImmsAgree(m, r.pos, t.fn, t.size, t.conv, t.immSize, ImmAfterModRM(f, r.val.reg).value.1, line);
    NoImmediate(t);
    OneRole(t.fn);
    AbsoluteOperand(t, start, r.pos + t.immSize, r.val, DecodeShape(m, WithModRM(g), start, pos).e.imm);
  }

  lemma NoImmediate(t: Tail)
    ensures forall signed: bool :: ConvMatches(t.fn, t.size, t.conv, 0, signed) ==> !UsesImm(t.fn)
  {
  }

  lemma JumpsAgree(m: Image, fn: Handler, k: OperandSize, start: int, pos: int, opsize: OperandSize)
    requires m.Valid() && m.Disjoint() && 0 <= start <= pos <= TASK_SIZE && IsJump(fn) && (k == 1 || k == 4)
    requires DecodeShape(m, Relative(fn, k), start, pos).Insn?
    ensures Shows(Disasm.ReadForm(m, if k == 1 then Disasm.Rel8 else Disasm.Rel32, pos), DecodeShape(m, Relative(fn, k), start, pos).e, start, opsize)
  {
    SignedFetchesAgree(m, pos);
    JumpLine(fn, start, pos + k, FetchSigned(m, pos, k).val, opsize);
  }

  lemma JumpLine(fn: Handler, start: int, p: int, rel: int, opsize: OperandSize)
    requires start <= p && IsJump(fn)
    ensures SameOperands(Disasm.NOTHING.(target := Some(Mask32(p + rel))), PlainEntry(fn, start, p, 4, 0, Mask32(p + rel)).e, opsize)
  {
  }

  lemma EntersAgree(m: Image, start: int, pos: int, opsize: OperandSize)
    requires m.Valid() && m.Disjoint() && 0 <= start <= pos <= TASK_SIZE
    requires DecodeEnter(m, start, pos).Insn?
    ensures Shows(Disasm.ReadForm(m, Disasm.EnterForm, pos), DecodeEnter(m, start, pos).e, start, opsize)
  {
    FetchesAgree(m, pos, 2);
    FetchesAgree(m, pos + 2, 1);
    FetchedInRange(m, pos, 2);
  }

  lemma ImmediatesAgree(m: Image, s: Shape, f: Disasm.Form, start: int, pos: int, opsize: OperandSize)
    requires m.Valid() && m.Disjoint() && 0 <= start <= pos <= TASK_SIZE && s.Immediate? && Matches(s, f, opsize)
    requires DecodeShape(m, s, start, pos).Insn?
    ensures Shows(Disasm.ReadForm(m, f, pos), DecodeShape(m, s, start, pos).e, start, opsize)
  {
    hide SameImm, Convert, ConvMatches, UsesReg, UsesImm, UsesRm, IsJump, NamesRegister;
    var line := if f.AccumulatorImm? then Disasm.Rm(Disasm.Register(0), s.size, None)
                else if f.RegisterImm? then Disasm.NOTHING.(reg := Some(s.reg), size := Some(s.size))
                else if f.AddressForm? then Disasm.NOTHING.(size := Some(f.size)) else Disasm.NOTHING;
    OneRole(s.fn);
    ImmsAgree(m, pos, s.fn, s.size, s.conv, s.immSize, f.ImmediateForm? && f.signed, line);
  }

  lemma SimpleAgrees(m: Image, s: Shape, f: Disasm.Form, start: int, pos: int, opsize: OperandSize)
    requires m.Valid() && 0 <= start <= pos <= TASK_SIZE && s.Simple? && Matches(s, f, opsize) && s.fn != Bad
    ensures DecodeShape(m, s, start, pos).Insn?
    ensures Shows(Disasm.ReadForm(m, f, pos), DecodeShape(m, s, start, pos).e, start, opsize)
  {
    hide UsesReg, UsesImm, UsesRm, IsJump, IsIndirect, NamesRegister;
    OneRole(s.fn);
    PlainLine(s.fn);
  }

  lemma RegisterAgrees(m: Image, s: Shape, f: Disasm.Form, start: int, pos: int, opsize: OperandSize)
    requires m.Valid() && 0 <= start <= pos <= TASK_SIZE && s.RegOperand? && Matches(s, f, opsize)
    ensures DecodeShape(m, s, start, pos).Insn?
    ensures Shows(Disasm.ReadForm(m, f, pos), DecodeShape(m, s, start, pos).e, start, opsize)
  {
    hide UsesReg, UsesImm, UsesRm, IsJump, IsIndirect, NamesRegister;
    OneRole(s.fn);
    PlainLine(s.fn);
  }

  lemma ShapesAgree(m: Image, s: Shape, f: Disasm.Form, start: int, pos: int, opsize: OperandSize)
    requires m.Valid() && m.Disjoint() && 0 <= start <= pos <= TASK_SIZE && Matches(s, f, opsize)
    requires DecodeShape(m, s, start, pos).Insn? && DecodeShape(m, s, start, pos).e.fn != Bad
    ensures Shows(Disasm.ReadForm(m, f, pos), DecodeShape(m, s, start, pos).e, start, opsize)
  {
    hide SameImm, Convert, ConvMatches, GroupMatches, UsesReg, UsesImm, UsesRm, IsJump, IsIndirect, NamesRegister;
    match s
    case Simple(_, _, _, _) => SimpleAgrees(m, s, f, start, pos, opsize);
    case RegOperand(_, _, _) => RegisterAgrees(m, s, f, start, pos, opsize);
    case Immediate(_, _, _, _, _) => ImmediatesAgree(m, s, f, start, pos, opsize);
    case Relative(fn, k) => JumpsAgree(m, fn, k, start, pos, opsize);
    case EnterShape => EntersAgree(m, start, pos, opsize);
    case WithModRM(g) => TailsAgree(m, g, f, start, pos, opsize);
  }

  /** A handler has a register-or-memory operand or names a register of the opcode, not both. */
  lemma OneRole(fn: Handler)
    ensures UsesRm(fn) ==> !NamesRegister(fn) && !fn.PushImm?
    ensures fn.MovAlMoffs? || fn.MovMoffsAl? ==> NamesRegister(fn) && !UsesReg(fn)
    ensures IsIndirect(fn) ==> UsesRm(fn)
    ensures IsJump(fn) ==> !UsesRm(fn) && !NamesRegister(fn) && !fn.PushImm?
    ensures fn.PushImm? ==> UsesImm(fn) && !NamesRegister(fn)
  {
  }

  lemma PlainLine(fn: Handler)
    ensures IsIndirect(fn) ==> UsesRm(fn)
    ensures IsJump(fn) ==> !UsesRm(fn) && !UsesReg(fn) && !UsesImm(fn)
    ensures fn.Inc? || fn.Dec? ==> !IsJump(fn)
  {
  }

  function RepOption(rep: nat): Option<nat> {
    if rep == 0 then None else Some(rep)
  }

  function NextOpsize(op: Byte, opsize: OperandSize): OperandSize {
    if op == 0x66 then 2 else opsize
  }

  function NextRep(op: Byte, rep: nat): nat {
    if op == 0xF2 || op == 0xF3 then op else rep
  }

  lemma SkipStep(m: Image, pos: int, opsize: OperandSize, rep: nat)
    requires m.Valid() && 0 <= pos && m.ByteAt(pos).Some?
    ensures pos < TASK_SIZE
    ensures var op := m.ByteAt(pos).value;
      Disasm.SkipPrefixes(m, pos, opsize, RepOption(rep))
        == if IsPrefix(op) then Disasm.SkipPrefixes(m, pos + 1, NextOpsize(op, opsize), RepOption(NextRep(op, rep)))
           else Disasm.Seen(Disasm.Prefixed(op, opsize, RepOption(rep)), pos + 1)
  {
    hide IsPrefix, Disasm.IsSegmentOrLock, Image.ByteAt, RepOption, Mask32;
    AddressInside(m, pos);
    PrefixKinds(m.ByteAt(pos).value);
    RepOptions();
  }

  lemma AddressInside(m: Image, pos: int)
    requires m.Valid() && 0 <= pos && m.ByteAt(pos).Some?
    ensures pos < TASK_SIZE && Mask32(pos + 1) == pos + 1
  {
  }

  lemma PrefixKinds(op: Byte)
    ensures IsPrefix(op) <==> op == 0x66 || Disasm.IsSegmentOrLock(op) || op == 0xF2 || op == 0xF3
    ensures Disasm.IsSegmentOrLock(op) ==> op != 0x66 && op != 0xF2 && op != 0xF3
  {
  }

  lemma RepOptions()
    ensures RepOption(0xF2) == Some(0xF2) && RepOption(0xF3) == Some(0xF3)
  {
  }

  /** The two prefix loops; the disassembler keeps the last repeat prefix as an option. */
  lemma {:induction false} PrefixLoopsAgree(m: Image, pos: int, opsize: OperandSize, rep: nat)
    requires m.Valid() && m.Disjoint() && pos >= 0 && ScanPrefixes(m, pos, opsize, rep).Got?
    ensures pos < TASK_SIZE
    ensures var f := ScanPrefixes(m, pos, opsize, rep);
      Disasm.SkipPrefixes(m, pos, opsize, RepOption(rep))
        == Disasm.Seen(Disasm.Prefixed(f.val.op, f.val.opsize, RepOption(f.val.rep)), f.pos)
    decreases Limit(m) - pos
  {
    hide Disasm.SkipPrefixes, Image.Valid, Image.Disjoint, IsPrefix, RepOption;
    var op := m.ByteAt(pos).value;
    SkipStep(m, pos, opsize, rep);
    if IsPrefix(op) {
      PrefixLoopsAgree(m, pos + 1, NextOpsize(op, opsize), NextRep(op, rep));
    }
  }

  // ---- Operation and operands together ---------------------------------------------------

  /** The name does not depend on the reg field where the line has none. */
  lemma RegShown(m: Image, f: Disasm.Form, pos: Word)
    requires m.Valid() && Disasm.ReadForm(m, f, pos).Seen?
    ensures f.ModRMForm? || f.TestGroup? || f.BitGroup? ==> Disasm.ReadForm(m, f, pos).val.reg.Some?
  {
    hide Disasm.ReadModRM;
  }

  lemma RegNotNeeded(op: Byte, opsize: OperandSize, r: nat, q: nat)
    ensures (var f := Disasm.FormOf(op, opsize); !(f.ModRMForm? || f.TestGroup? || f.BitGroup?)) ==>
      Disasm.NameOf(op, opsize, r) == Disasm.NameOf(op, opsize, q)
    ensures (var f := Disasm.Form0F(op, opsize); !(f.ModRMForm? || f.TestGroup? || f.BitGroup?)) ==>
      Disasm.Name0F(op, opsize, r) == Disasm.Name0F(op, opsize, q)
  {
  }

  lemma Tagged0F(op: Byte, opsize: OperandSize)
    ensures var s := Shape0F(op, opsize); s.WithModRM? && s.group.Fixed? && s.group.tail.conv.Tagged? ==> s.group.tail.immSize <= 1
  {
  }

  lemma TaggedNone(op: Byte, opsize: OperandSize)
    ensures var s := ShapeOf(op, opsize); !(s.WithModRM? && s.group.Fixed? && s.group.tail.conv.Tagged?)
  {
  }

  lemma OneByteAgrees(m: Image, op: Byte, opsize: OperandSize, s: int, pos: int)
    requires m.Valid() && m.Disjoint() && 0 <= s <= pos <= TASK_SIZE && (opsize == 2 || opsize == 4) && op != 0x0F
    requires DecodeOp(m, op, opsize, s, pos).Insn? && DecodeOp(m, op, opsize, s, pos).e.fn != Bad
    ensures ShowsAll(Disasm.ReadOp(m, op, opsize, pos), DecodeOp(m, op, opsize, s, pos).e, s, opsize)
  {
    hide SameOperands, SameName, Built, Matches, DecodeShape, Disasm.ReadForm, ShapeOf, Disasm.FormOf, Disasm.NameOf, Disasm.RmFirst, ToRegister;
    TablesMatch(op, opsize);
    ShapesAgree(m, ShapeOf(op, opsize), Disasm.FormOf(op, opsize), s, pos, opsize);
    TaggedNone(op, opsize);
    DecodedBuilt(m, ShapeOf(op, opsize), s, pos);
    var e := DecodeShape(m, ShapeOf(op, opsize), s, pos).e;
    NamesMatch(op, opsize, e);
    var r := Disasm.ReadForm(m, Disasm.FormOf(op, opsize), pos);
    RegShown(m, Disasm.FormOf(op, opsize), pos);
    RegNotNeeded(op, opsize, Disasm.RegField(r.val), e.reg);
    NamedOperands(r.val, e, opsize, Disasm.NameOf(op, opsize, e.reg), Disasm.RmFirst(op));
  }

  lemma TwoBytesAgree(m: Image, op: Byte, opsize: OperandSize, s: int, pos: int)
    requires m.Valid() && m.Disjoint() && 0 <= s <= pos <= TASK_SIZE && (opsize == 2 || opsize == 4)
    requires DecodeShape(m, Shape0F(op, opsize), s, pos).Insn? && DecodeShape(m, Shape0F(op, opsize), s, pos).e.fn != Bad
    ensures var r := Disasm.ReadForm(m, Disasm.Form0F(op, opsize), pos);
      r.Seen? && ShowsAll(Disasm.Seen(Disasm.Named(r.val, Disasm.Name0F(op, opsize, Disasm.RegField(r.val)), Disasm.RmFirst0F(op)), r.pos),
                          DecodeShape(m, Shape0F(op, opsize), s, pos).e, s, opsize)
  {
    hide SameOperands, SameName, Built, Matches, DecodeShape, Disasm.ReadForm, Shape0F, Disasm.Form0F, Disasm.Name0F, Disasm.RmFirst0F, ToRegister;
    TablesMatch0F(op, opsize);
    ShapesAgree(m, Shape0F(op, opsize), Disasm.Form0F(op, opsize), s, pos, opsize);
    Tagged0F(op, opsize);
    DecodedBuilt(m, Shape0F(op, opsize), s, pos);
    var e := DecodeShape(m, Shape0F(op, opsize), s, pos).e;
    NamesMatch0F(op, opsize, e);
    var r := Disasm.ReadForm(m, Disasm.Form0F(op, opsize), pos);
    RegShown(m, Disasm.Form0F(op, opsize), pos);
    RegNotNeeded(op, opsize, Disasm.RegField(r.val), e.reg);
    NamedOperands(r.val, e, opsize, Disasm.Name0F(op, opsize, e.reg), Disasm.RmFirst0F(op));
  }

  lemma NamedOperands(l: Disasm.Line, e: Entry, opsize: OperandSize, name: Disasm.Name, first: bool)
    ensures SameOperands(l, e, opsize) ==> SameOperands(Disasm.Named(l, name, first), e, opsize)
    ensures SameOperands(l, e, opsize) && l.reg.Some? ==> Disasm.RegField(l) == e.reg
  {
  }

  /** The scan ends with the instruction and shows all of it. */
  predicate ShowsAll(s: Disasm.Scan<Disasm.Line>, e: Entry, start: int, opsize: OperandSize) {
    s.Seen? && s.pos == start + e.length && SameLine(s.val, e, opsize)
  }

  lemma OpsAgree(m: Image, op: Byte, opsize: OperandSize, s: int, pos: int)
    requires m.Valid() && m.Disjoint() && 0 <= s <= pos <= TASK_SIZE && (opsize == 2 || opsize == 4)
    requires DecodeOp(m, op, opsize, s, pos).Insn? && DecodeOp(m, op, opsize, s, pos).e.fn != Bad
    ensures ShowsAll(Disasm.ReadOp(m, op, opsize, pos), DecodeOp(m, op, opsize, s, pos).e, s, opsize)
  {
    hide ShowsAll, DecodeShape, Disasm.ReadForm, Shape0F, Disasm.Form0F, Disasm.Name0F, Disasm.RmFirst0F, Disasm.Named;
    if op == 0x0F {
      EscapedAgrees(m, opsize, s, pos);
    } else {
      OneByteAgrees(m, op, opsize, s, pos);
    }
  }

  lemma EscapedAgrees(m: Image, opsize: OperandSize, s: int, pos: int)
    requires m.Valid() && m.Disjoint() && 0 <= s <= pos <= TASK_SIZE && (opsize == 2 || opsize == 4)
    requires DecodeOp(m, 0x0F, opsize, s, pos).Insn? && DecodeOp(m, 0x0F, opsize, s, pos).e.fn != Bad
    ensures ShowsAll(Disasm.ReadOp(m, 0x0F, opsize, pos), DecodeOp(m, 0x0F, opsize, s, pos).e, s, opsize)
  {
    hide SameLine, DecodeShape, Disasm.ReadForm, Disasm.U8, FetchNum, ShapeOf, Disasm.FormOf, Disasm.NameOf, Shape0F, Disasm.Form0F,
         Disasm.Name0F, Disasm.RmFirst0F, Disasm.Named;
    var g := FetchNum(m, pos, 1);
    FetchesAgree(m, pos, 1);
    ByteFetched(m, pos);
    TwoBytesAgree(m, g.val, opsize, s, g.pos);
  }

  lemma ByteFetched(m: Image, pos: int)
    requires m.Valid() && 0 <= pos && FetchNum(m, pos, 1).Got?
    ensures var g := FetchNum(m, pos, 1);
      && g.pos == pos + 1 <= TASK_SIZE && g.val < 0x100
      && (Disasm.Unsigned(m, pos, 1) == Disasm.Seen(g.val, pos + 1) ==> Disasm.U8(m, pos) == Disasm.Seen(g.val, pos + 1))
  {
  }

  /** A repeated string operation has no operands; its name says what it repeats. */
  lemma StringLine(op: Byte, opsize: OperandSize, rep: nat, s: int, pos: int)
    requires s <= pos && IsStringOp(op) && (rep == 0xF2 || rep == 0xF3)
    ensures SameLine(Disasm.NOTHING.(name := Disasm.StringName(op, opsize, Some(rep))), PlainEntry(String(op), s, pos, opsize, 0, rep).e, opsize)
  {
    hide Disasm.KindName;
  }

  lemma NopLines(opsize: OperandSize, s: int, pos: int, name: Disasm.Name)
    requires s <= pos && (name == Disasm.Nop || name == Disasm.Pause)
    ensures SameLine(Disasm.NOTHING.(name := name), PlainEntry(Nop, s, pos, opsize, 0, 0).e, opsize)
  {
  }

  lemma NopLine(m: Image, opsize: OperandSize, pos: Word)
    requires m.Valid()
    ensures Disasm.ReadOp(m, 0x90, opsize, pos) == Disasm.Seen(Disasm.NOTHING.(name := Disasm.Nop), pos)
  {
  }

  lemma AfterPrefixesAgree(m: Image, o: Opcode, s: int, pos: int)
    requires m.Valid() && m.Disjoint() && 0 <= s <= pos <= TASK_SIZE && (o.opsize == 2 || o.opsize == 4)
    requires o.rep == 0 || o.rep == 0xF2 || o.rep == 0xF3
    requires DecodeFrom(m, s, o, pos).Insn? && DecodeFrom(m, s, o, pos).e.fn != Bad
    ensures ShowsAll(Disasm.ReadAfterPrefixes(m, Disasm.Prefixed(o.op, o.opsize, RepOption(o.rep)), pos), DecodeFrom(m, s, o, pos).e, s, o.opsize)
  {
    hide DecodeOp, Disasm.ReadOp, Image.Valid, Image.Disjoint, SameLine, Disasm.StringName;
    if o.rep != 0 && IsStringOp(o.op) {
      StringLine(o.op, o.opsize, o.rep, s, pos);
    } else if o.rep != 0 && o.op == 0x90 {
      NopLine(m, o.opsize, pos);
      NopLines(o.opsize, s, pos, if o.rep == 0xF3 then Disasm.Pause else Disasm.Nop);
    } else {
      OpsAgree(m, o.op, o.opsize, s, pos);
    }
  }

  /** The operand size after the prefixes at s: 2 if one of them is 66. */
  function PrefixSize(m: Image, s: int): OperandSize
    requires m.Valid()
  {
    match ScanPrefixes(m, s, 4, 0)
    case Got(o, _) => o.opsize
    case Miss(_) => 4
  }

  lemma {:induction false} TwoOrFour(m: Image, pos: int, opsize: OperandSize, rep: nat)
    requires m.Valid() && (opsize == 2 || opsize == 4) && ScanPrefixes(m, pos, opsize, rep).Got?
    requires rep == 0 || rep == 0xF2 || rep == 0xF3
    ensures var o := ScanPrefixes(m, pos, opsize, rep).val; (o.opsize == 2 || o.opsize == 4) && (o.rep == 0 || o.rep == 0xF2 || o.rep == 0xF3)
    decreases Limit(m) - pos
  {
    hide IsPrefix;
    var op := m.ByteAt(pos).value;
    if IsPrefix(op) { TwoOrFour(m, pos + 1, NextOpsize(op, opsize), NextRep(op, rep)); }
  }

  lemma LinesAgree(m: Image, s: int)
    requires m.Valid() && m.Disjoint() && 0 <= s < TWO32
    requires Decode(m, s).Insn? && Decode(m, s).e.fn != Bad
    ensures ShowsAll(Disasm.DecodeLine(m, s), Decode(m, s).e, s, PrefixSize(m, s))
  {
    hide DecodeFrom, ScanPrefixes, Disasm.ReadAfterPrefixes, Disasm.SkipPrefixes, Image.Valid, Image.Disjoint, SameLine;
    var f := ScanPrefixes(m, s, 4, 0);
    PrefixLoopsAgree(m, s, 4, 0);
    TwoOrFour(m, s, 4, 0);
    AfterPrefixesAgree(m, f.val, s, f.pos);
  }

  /** Wherever the executor's decoder yields an implemented instruction, the disassembler consumes
      the same number of bytes and shows the same operation, operand, direction, operand size, register, immediate
      and jump target; the size alone differs, exactly when a call or jump through an operand has the prefix 66. */
  lemma DecodersAgree(m: Image, s: int)
    requires m.Valid() && m.Disjoint() && 0 <= s < TWO32
    requires Decode(m, s).Insn? && Decode(m, s).e.fn != Bad
    ensures var e, shown := Decode(m, s).e, Disasm.DisasmOne(m, s);
      && shown.Shown? && shown.length == e.length && SameLine(shown.line, e, PrefixSize(m, s))
      && (UsesRm(e.fn) ==> (shown.line.size == Some(e.size) <==> !(IsIndirect(e.fn) && PrefixSize(m, s) != 4)))
  {
    hide Decode, PrefixSize, Disasm.DecodeLine, Disasm.Finish;
    LinesAgree(m, s);
    DecodedInside(m, s);
    FinishAgrees(s, Disasm.DecodeLine(m, s).val, Decode(m, s).e.length);
  }

  /** call eax with the prefix 66: the executor takes the target from all of eax, the line shows ax. */
  lemma PrefixedCall(m: Image)
    requires m.Valid() && m.Disjoint() && m.low == [0x66, 0xFF, 0xD0]
    ensures Decode(m, 0).Insn? && Decode(m, 0).e.fn == CallRm && Decode(m, 0).e.size == 4
    ensures Disasm.DisasmOne(m, 0).Shown? && Disasm.DisasmOne(m, 0).line.size == Some(2)
  {
    hide Disasm.DisasmOne, SameLine;
    assert ScanPrefixes(m, 1, 2, 0) == Got(Opcode(0xFF, 2, 0), 2);
    assert ScanPrefixes(m, 0, 4, 0) == Got(Opcode(0xFF, 2, 0), 2);
    CallShape(m);
    DecodersAgree(m, 0);
    LineSize(Disasm.DisasmOne(m, 0).line, Decode(m, 0).e, 2);
  }

  lemma CallShape(m: Image)
    requires m.Valid() && m.Disjoint() && m.low == [0x66, 0xFF, 0xD0]
    ensures DecodeOp(m, 0xFF, 2, 0, 2).Insn? && DecodeOp(m, 0xFF, 2, 0, 2).e.fn == CallRm && DecodeOp(m, 0xFF, 2, 0, 2).e.size == 4
  {
    hide ScanPrefixes;
    assert m.Load(2, 1) == Some(0xD0);
    assert DecodeModRM(m, 2).Got? && DecodeModRM(m, 2).val.reg == 2;
  }

  lemma LineSize(l: Disasm.Line, e: Entry, opsize: OperandSize)
    requires SameLine(l, e, opsize) && e.fn == CallRm
    ensures l.size == Some(opsize)
  {
  }

  lemma DecodedInside(m: Image, s: int)
    requires m.Valid() && Decode(m, s).Insn?
    ensures 0 < Decode(m, s).e.length && s + Decode(m, s).e.length <= TASK_SIZE
  {
    hide ScanPrefixes, DecodeFrom;
  }

  lemma FinishAgrees(s: Word, line: Disasm.Line, n: nat)
    requires 0 < n && s + n <= TASK_SIZE
    ensures Disasm.Finish(s, Disasm.Seen(line, s + n)) == Disasm.Shown(n, line)
    ensures Mask32(s) == s
  {
  }

  // ---- Ranges ------------------------------------------------------------------------------

  /** The address reached from a by adding k executor lengths; None when one of the instructions
      on the way is unreadable or not implemented. */
  function Executed(m: Image, a: int, k: nat): Option<int>
    requires m.Valid()
  {
    if k == 0 then Some(a)
    else match Executed(m, a, k - 1) {
      case None => None
      case Some(x) =>
        var d := Decode(m, x);
        if d.Insn? && d.e.fn != Bad then Some(x + d.e.length) else None
    }
  }

  lemma NextOfShown(x: Word, n: nat, line: Disasm.Line)
    requires 0 < n && x + n <= TASK_SIZE
    ensures Disasm.Next((x, Disasm.Shown(n, line))) == x + n
  {
  }

  lemma ListingStep(m: Image, a: Word, out: seq<(Word, Disasm.Shown)>, k: nat, d: Decoded)
    requires m.Valid() && m.Disjoint()
    requires Disasm.IsListing(m, a, out) && 0 < k < |out|
    requires d == Decode(m, out[k - 1].0) && d.Insn? && d.e.fn != Bad
    ensures out[k].0 == out[k - 1].0 + d.e.length
  {
    hide Decode, SameLine, PrefixSize, Disasm.DisasmOne;
    var x := out[k - 1].0;
    DecodersAgree(m, x);
    DecodedInside(m, x);
    NextOfShown(x, d.e.length, out[k - 1].1.line);
  }

  /** A listing visits exactly the addresses obtained by iterating executor lengths. */
  lemma {:induction false} ListingFollowsExecutor(m: Image, a: Word, out: seq<(Word, Disasm.Shown)>, k: nat)
    requires m.Valid() && m.Disjoint()
    requires Disasm.IsListing(m, a, out) && k < |out| && Executed(m, a, k).Some?
    ensures Executed(m, a, k).value == out[k].0
  {
    hide Decode, Disasm.DisasmOne;
    if k > 0 {
      var x := Executed(m, a, k - 1).value;
      var d := Decode(m, x);
      ListingFollowsExecutor(m, a, out, k - 1);
      ListingStep(m, a, out, k, d);
    }
  }
}
