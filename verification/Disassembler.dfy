/** The read-only disassembler (cpu_disasm.py): a second decoder with its own byte reader, its own
    ModRM reader and its own opcode classification, reduced to lengths, operands and targets. */
module Disassembler {
  import opened Words
  import opened Memory

  /** The reader's cursor is always reduced to 32 bits; an unreadable byte abandons the decoding. */
  datatype Scan<+T> = Seen(val: T, pos: Word) | Unreadable
  {
    predicate IsFailure() { Unreadable? }
    function PropagateFailure<U>(): Scan<U> requires Unreadable? { Unreadable }
    function Extract(): (T, Word) requires Seen? { (val, pos) }
  }

  function U8(m: Image, pos: Word): Scan<Byte>
    requires m.Valid()
  {
    match m.ByteAt(pos)
    case Some(b) => Seen(b, Mask32(pos + 1))
    case None => Unreadable
  }

  function U16(m: Image, pos: Word): Scan<int>
    requires m.Valid()
  {
    var (lo, p1) :- U8(m, pos);
    var (hi, p2) :- U8(m, p1);
    var l: int, h: int := lo, hi;
    Seen(l + h * 0x100, p2)
  }

  function U32(m: Image, pos: Word): Scan<int>
    requires m.Valid()
  {
    var (b0, p1) :- U8(m, pos);
    var (b1, p2) :- U8(m, p1);
    var (b2, p3) :- U8(m, p2);
    var (b3, p4) :- U8(m, p3);
    var i0: int, i1: int, i2: int, i3: int := b0, b1, b2, b3;
    Seen(i0 + i1 * 0x100 + i2 * 0x1_0000 + i3 * 0x100_0000, p4)
  }

  function S8(m: Image, pos: Word): Scan<int>
    requires m.Valid()
  {
    var (v, p) :- U8(m, pos);
    var n: int := v;
    Seen(if n >= 128 then n - 256 else n, p)
  }

  function S32(m: Image, pos: Word): Scan<int>
    requires m.Valid()
  {
    var (v, p) :- U32(m, pos);
    Seen(if v >= 0x8000_0000 then v - 0x1_0000_0000 else v, p)
  }

  /** An unsigned immediate of 1, 2 or 4 bytes. */
  function Unsigned(m: Image, pos: Word, size: int): Scan<int>
    requires m.Valid() && IsSize(size)
  {
    if size == 1 then
      var (v, p) :- U8(m, pos);
      Seen(v, p)
    else if size == 2 then U16(m, pos)
    else U32(m, pos)
  }

  datatype Operand =
    | Register(r: nat)
    | Location(base: Option<nat>, index: Option<nat>, factor: nat, disp: Word)

  function Factor(scale: nat): nat {
    if scale == 0 then 1 else if scale == 1 then 2 else if scale == 2 then 4 else 8
  }

  /** The memory operand as it is shown: without an index the factor plays no part. */
  function Place(base: Option<nat>, index: Option<nat>, factor: nat, disp: int): Operand {
    Location(base, index, if index.Some? then factor else 1, Mask32(disp))
  }

  /** ModRM with optional SIB and displacement: the reg field and the operand. */
  function ReadModRM(m: Image, pos: Word): Scan<(nat, Operand)>
    requires m.Valid()
  {
    var (b, p1) :- U8(m, pos);
    var mod, reg, rm := b / 64, b / 8 % 8, b % 8;
    if mod == 3 then Seen((reg, Register(rm)), p1)
    else if rm == 4 then ReadSib(m, p1, mod, reg)
    else if rm == 5 && mod == 0 then
      var (d, p2) :- S32(m, p1);
      Seen((reg, Place(None, None, 1, d)), p2)
    else ReadDisplacement(m, p1, mod, reg, Some(rm), None, 1)
  }

  function ReadSib(m: Image, pos: Word, mod: nat, reg: nat): Scan<(nat, Operand)>
    requires m.Valid()
  {
    var (sib, p) :- U8(m, pos);
    var index := if sib / 8 % 8 != 4 then Some(sib / 8 % 8) else None;
    if sib % 8 == 5 && mod == 0 then
      var (d, p3) :- S32(m, p);
      Seen((reg, Place(None, index, Factor(sib / 64), d)), p3)
    else ReadDisplacement(m, p, mod, reg, Some(sib % 8), index, Factor(sib / 64))
  }

  function ReadDisplacement(m: Image, pos: Word, mod: nat, reg: nat, base: Option<nat>,
                            index: Option<nat>, factor: nat): Scan<(nat, Operand)>
    requires m.Valid()
  {
    if mod == 1 then
      var (d, p) :- S8(m, pos);
      Seen((reg, Place(base, index, factor, d)), p)
    else if mod == 2 then
      var (d, p) :- S32(m, pos);
      Seen((reg, Place(base, index, factor, d)), p)
    else Seen((reg, Place(base, index, factor, 0)), pos)
  }

  // ---- Opcode classification ---------------------------------------------------

  type OperandSize = n: nat | IsSize(n) witness 4
  type ImmSize = n: nat | n == 0 || IsSize(n) witness 0

  /** What is read after the opcode, and how it is shown. */
  datatype Form =
    | NoOperands
    | RegisterForm(r: nat, size: OperandSize)            // a register of the opcode as operand
    | PlainRegister(r: nat, size: OperandSize)           // a register of the opcode beside an implied operand
    | AccumulatorImm(size: OperandSize)
    | ImmediateForm(immSize: OperandSize, signed: bool)
    | RegisterImm(r: nat, size: OperandSize)
    | AddressForm(size: OperandSize)                     // the accumulator and an absolute address
    | Rel8
    | Rel32
    | EnterForm
    | ModRMForm(size: OperandSize, tail: ImmSize, signed: bool)
    | TestGroup(size: OperandSize)
    | BitGroup(size: OperandSize)
    | Unknown

  function SizeOf(op: nat, opsize: OperandSize): OperandSize {
    if op % 2 == 0 then 1 else opsize
  }

  function FormOf(op: nat, opsize: OperandSize): Form {
    if op < 0x40 && op % 8 < 6 then
      (if op % 8 < 4 then ModRMForm(SizeOf(op, opsize), 0, false) else AccumulatorImm(SizeOf(op, opsize)))
    else if 0x40 <= op <= 0x4F then RegisterForm(op % 8, opsize)
    else if 0x50 <= op <= 0x5F then PlainRegister(op % 8, opsize)
    else if op == 0x68 then ImmediateForm(opsize, false)
    else if op == 0x6A then ImmediateForm(1, true)
    else if op == 0x69 then ModRMForm(opsize, opsize, false)
    else if op == 0x6B then ModRMForm(opsize, 1, true)
    else if 0x70 <= op <= 0x7F then Rel8
    else if op == 0x80 then ModRMForm(1, 1, false)
    else if op == 0x81 then ModRMForm(opsize, opsize, false)
    else if op == 0x83 then ModRMForm(opsize, 1, true)
    else if 0x84 <= op <= 0x8B then ModRMForm(SizeOf(op, opsize), 0, false)
    else if op == 0x8D || op == 0x8F then ModRMForm(opsize, 0, false)
    else if 0x91 <= op <= 0x97 then PlainRegister(op % 8, opsize)
    else if 0x90 <= op <= 0x99 || 0x9C <= op <= 0x9F then NoOperands
    else if 0xA0 <= op <= 0xA3 then AddressForm(SizeOf(op, opsize))
    else if op == 0xA8 || op == 0xA9 then AccumulatorImm(SizeOf(op, opsize))
    else if 0xA4 <= op <= 0xAF then NoOperands
    else if 0xB0 <= op <= 0xB7 then RegisterImm(op % 8, 1)
    else if 0xB8 <= op <= 0xBF then RegisterImm(op % 8, opsize)
    else FormC0(op, opsize)
  }

  function FormC0(op: nat, opsize: OperandSize): Form {
    if op == 0xC0 || op == 0xC1 then ModRMForm(SizeOf(op, opsize), 1, false)
    else if 0xD0 <= op <= 0xD3 then ModRMForm(SizeOf(op, opsize), 0, false)
    else if op == 0xC3 then NoOperands
    else if op == 0xC2 then ImmediateForm(2, false)
    else if op == 0xC6 || op == 0xC7 then ModRMForm(SizeOf(op, opsize), SizeOf(op, opsize), false)
    else if op == 0xC8 then EnterForm
    else if op == 0xC9 || op == 0xCC || op == 0xD7 || op == 0xF4 then NoOperands
    else if op == 0xCD then ImmediateForm(1, false)
    else if 0xE0 <= op <= 0xE3 || op == 0xEB then Rel8
    else if op == 0xE8 || op == 0xE9 then Rel32
    else if op == 0xF6 || op == 0xF7 then TestGroup(SizeOf(op, opsize))
    else if op == 0xF8 || op == 0xF9 || op == 0xFC || op == 0xFD then NoOperands
    else if op == 0xFE || op == 0xFF then ModRMForm(SizeOf(op, opsize), 0, false)
    else Unknown
  }

  function Form0F(op: nat, opsize: OperandSize): Form {
    if 0x80 <= op <= 0x8F then Rel32
    else if 0x90 <= op <= 0x9F then ModRMForm(1, 0, false)
    else if op == 0xAF || op == 0xA3 || op == 0xAB || op == 0xB3 || op == 0xBB then ModRMForm(opsize, 0, false)
    else if op == 0xBA then BitGroup(opsize)
    else if op == 0xBC || op == 0xBD then ModRMForm(opsize, 0, false)
    else if op == 0xA4 || op == 0xAC then ModRMForm(opsize, 1, false)
    else if op == 0xA5 || op == 0xAD then ModRMForm(opsize, 0, false)
    else if op == 0xB6 || op == 0xBE then ModRMForm(1, 0, false)
    else if op == 0xB7 || op == 0xBF then ModRMForm(2, 0, false)
    else Unknown
  }

  // ---- Names ---------------------------------------------------------------------

  datatype Cond = O | NO | B | AE | E | NE | BE | A | S | NS | P | NP | L | GE | LE | G
  datatype StringKind = Movs | Cmps | Stos | Lods | Scas
  datatype Repeat = Once | Rep | Repe | Repne

  /** The mnemonics. Where the text adds a suffix for the size of an implied operand, the name carries the size;
      movzx and movsx carry the size of their destination. */
  datatype Name =
    | Add | Or | Adc | Sbb | And | Sub | Xor | Cmp | Test | Inc | Dec | Not | Neg | Mul | Imul | Div | Idiv
    | Rol | Ror | Rcl | Rcr | Shl | Shr | Sal | Sar | Shld | Shrd | Bt | Bts | Btr | Btc | Bsf | Bsr
    | Mov | Movzx(dst: nat) | Movsx(dst: nat) | Lea | Xchg | Xlat | Set(cond: Cond) | Cbw | Cwde | Cwd | Cdq | Sahf | Lahf
    | Push | Pop | Pushf | Pushfd | Popf | Popfd | Enter | Leave
    | J(cond: Cond) | Jmp | Jmpf | Call | Callf | Ret | Loopne | Loope | Loop | Jecxz | Int | Int3 | Hlt | Nop | Pause
    | Clc | Stc | Cld | Std | String(kind: StringKind, size: nat, rep: Repeat) | Unnamed

  function AluName(k: nat): Name {
    match k
    case 0 => Add
    case 1 => Or
    case 2 => Adc
    case 3 => Sbb
    case 4 => And
    case 5 => Sub
    case 6 => Xor
    case _ => Cmp
  }

  function CondName(k: nat): Cond {
    match k
    case 0 => O
    case 1 => NO
    case 2 => B
    case 3 => AE
    case 4 => E
    case 5 => NE
    case 6 => BE
    case 7 => A
    case 8 => S
    case 9 => NS
    case 10 => P
    case 11 => NP
    case 12 => L
    case 13 => GE
    case 14 => LE
    case _ => G
  }

  function Group3Name(k: nat): Name {
    match k
    case 0 => Test
    case 1 => Test
    case 2 => Not
    case 3 => Neg
    case 4 => Mul
    case 5 => Imul
    case 6 => Div
    case _ => Idiv
  }

  function Group5Name(k: nat): Name {
    match k
    case 0 => Inc
    case 1 => Dec
    case 2 => Call
    case 3 => Callf
    case 4 => Jmp
    case 5 => Jmpf
    case 6 => Push
    case _ => Unnamed
  }

  function ShiftName(k: nat): Name {
    match k
    case 0 => Rol
    case 1 => Ror
    case 2 => Rcl
    case 3 => Rcr
    case 4 => Shl
    case 5 => Shr
    case 6 => Sal
    case _ => Sar
  }

  function KindName(op: nat): StringKind {
    if op == 0xA4 || op == 0xA5 then Movs
    else if op == 0xA6 || op == 0xA7 then Cmps
    else if op == 0xAA || op == 0xAB then Stos
    else if op == 0xAC || op == 0xAD then Lods
    else Scas
  }

  function StringName(op: nat, opsize: OperandSize, rep: Option<nat>): Name {
    var size := if op == 0xA4 || op == 0xA6 || op == 0xAA || op == 0xAC || op == 0xAE then 1 else opsize;
    var r := if rep == Some(0xF3) then (if op == 0xA6 || op == 0xA7 || op == 0xAE || op == 0xAF then Repe else Rep)
             else if rep == Some(0xF2) then Repne else Once;
    String(KindName(op), size, r)
  }

  /** The name of a one-byte opcode; in the groups the reg field of ModRM selects it. */
  function NameOf(op: nat, opsize: OperandSize, reg: nat): Name {
    if op < 0x40 then AluName(op / 8)
    else if op < 0x48 then Inc
    else if op < 0x50 then Dec
    else if op < 0x58 then Push
    else if op < 0x60 then Pop
    else if op == 0x68 || op == 0x6A then Push
    else if op == 0x69 || op == 0x6B then Imul
    else if 0x70 <= op <= 0x7F then J(CondName(op % 16))
    else if op == 0x80 || op == 0x81 || op == 0x83 then AluName(reg)
    else Name84(op, opsize, reg)
  }

  function Name84(op: nat, opsize: OperandSize, reg: nat): Name {
    if op == 0x84 || op == 0x85 then Test
    else if op == 0x86 || op == 0x87 then Xchg
    else if 0x88 <= op <= 0x8B then Mov
    else if op == 0x8D then Lea
    else if op == 0x8F then Pop
    else if op == 0x90 then Nop
    else if 0x91 <= op <= 0x97 then Xchg
    else if op == 0x98 then (if opsize == 2 then Cbw else Cwde)
    else if op == 0x99 then (if opsize == 2 then Cwd else Cdq)
    else if op == 0x9C then (if opsize == 2 then Pushf else Pushfd)
    else if op == 0x9D then (if opsize == 2 then Popf else Popfd)
    else if op == 0x9E then Sahf
    else if op == 0x9F then Lahf
    else if 0xA0 <= op <= 0xA3 then Mov
    else if op == 0xA8 || op == 0xA9 then Test
    else if op <= 0xAF then StringName(op, opsize, None)
    else if op <= 0xBF then Mov
    else NameC0(op, reg)
  }

  function NameC0(op: nat, reg: nat): Name {
    if op == 0xC0 || op == 0xC1 || 0xD0 <= op <= 0xD3 then ShiftName(reg)
    else if op == 0xC2 || op == 0xC3 then Ret
    else if op == 0xC6 || op == 0xC7 then Mov
    else if op == 0xC8 then Enter
    else if op == 0xC9 then Leave
    else if op == 0xCC then Int3
    else if op == 0xCD then Int
    else if op == 0xD7 then Xlat
    else if op == 0xE0 then Loopne
    else if op == 0xE1 then Loope
    else if op == 0xE2 then Loop
    else if op == 0xE3 then Jecxz
    else if op == 0xE8 then Call
    else if op == 0xE9 || op == 0xEB then Jmp
    else if op == 0xF4 then Hlt
    else if op == 0xF6 || op == 0xF7 then Group3Name(reg)
    else if op == 0xF8 then Clc
    else if op == 0xF9 then Stc
    else if op == 0xFC then Cld
    else if op == 0xFD then Std
    else if op == 0xFE || op == 0xFF then Group5Name(reg)
    else Unnamed
  }

  function Name0F(op: nat, opsize: OperandSize, reg: nat): Name {
    if 0x80 <= op <= 0x8F then J(CondName(op % 16))
    else if 0x90 <= op <= 0x9F then Set(CondName(op % 16))
    else if op == 0xAF then Imul
    else if op == 0xA3 then Bt
    else if op == 0xAB then Bts
    else if op == 0xB3 then Btr
    else if op == 0xBB then Btc
    else if op == 0xBA then (if reg == 4 then Bt else if reg == 5 then Bts else if reg == 6 then Btr else Btc)
    else if op == 0xBC then Bsf
    else if op == 0xBD then Bsr
    else if op == 0xA4 || op == 0xA5 then Shld
    else if op == 0xAC || op == 0xAD then Shrd
    else if op == 0xB6 || op == 0xB7 then Movzx(opsize)
    else if op == 0xBE || op == 0xBF then Movsx(opsize)
    else Unnamed
  }

  /** The register-or-memory operand, or the address, is written first; what is written first is the destination. */
  predicate RmFirst(op: nat) {
    !((op < 0x40 && (op % 8 == 2 || op % 8 == 3)) || op == 0x69 || op == 0x6B || op == 0x8A || op == 0x8B || op == 0x8D
      || op == 0xA0 || op == 0xA1)
  }

  predicate RmFirst0F(op: nat) {
    !(op == 0xAF || op == 0xBC || op == 0xBD || op == 0xB6 || op == 0xB7 || op == 0xBE || op == 0xBF)
  }

  // ---- One instruction -----------------------------------------------------------

  /** What a line shows: the mnemonic, the register-or-memory operand and whether it is written first, the size of
      the named operand, a register by number, the immediate and the jump target. */
  datatype Line = Line(name: Name, rm: Option<Operand>, first: bool, size: Option<nat>, reg: Option<nat>,
                       imm: Option<Word>, target: Option<Word>)

  const NOTHING: Line := Line(Unnamed, None, true, None, None, None, None)

  function Rm(o: Operand, size: OperandSize, reg: Option<nat>): Line {
    NOTHING.(rm := Some(o), size := Some(size), reg := reg)
  }

  /** The immediate; a signed one is a byte shown as 32 bits. */
  function WithImm(m: Image, pos: Word, size: ImmSize, signed: bool, line: Line): Scan<Line>
    requires m.Valid()
  {
    if size == 0 then Seen(line, pos)
    else if signed then
      var (v, p) :- S8(m, pos);
      Seen(line.(imm := Some(Mask32(v))), p)
    else
      var (v, p) :- Unsigned(m, pos, size);
      Seen(line.(imm := Some(Mask32(v))), p)
  }

  function ReadForm(m: Image, f: Form, pos: Word): Scan<Line>
    requires m.Valid()
  {
    match f
    case NoOperands => Seen(NOTHING, pos)
    case RegisterForm(r, size) => Seen(Rm(Register(r), size, None), pos)
    case PlainRegister(r, size) => Seen(NOTHING.(reg := Some(r), size := Some(size)), pos)
    case AccumulatorImm(size) => WithImm(m, pos, size, false, Rm(Register(0), size, None))
    case ImmediateForm(k, signed) => WithImm(m, pos, k, signed, NOTHING)
    case RegisterImm(r, size) => WithImm(m, pos, size, false, NOTHING.(reg := Some(r), size := Some(size)))
    case AddressForm(size) => WithImm(m, pos, 4, false, NOTHING.(size := Some(size)))
    case Rel8 =>
      var (rel, p) :- S8(m, pos);
      Seen(NOTHING.(target := Some(Mask32(p + rel))), p)
    case Rel32 =>
      var (rel, p) :- S32(m, pos);
      Seen(NOTHING.(target := Some(Mask32(p + rel))), p)
    case EnterForm =>
      var (alloc, p) :- U16(m, pos);
      var (_, p1) :- U8(m, p);
      Seen(NOTHING.(imm := Some(Mask32(alloc))), p1)
    case ModRMForm(size, k, signed) =>
      var ((reg, rm), p) :- ReadModRM(m, pos);
      WithImm(m, p, k, signed, Rm(rm, size, Some(reg)))
    case TestGroup(size) =>
      var ((reg, rm), p) :- ReadModRM(m, pos);
      WithImm(m, p, if reg <= 1 then size else 0, false, Rm(rm, size, Some(reg)))
    case BitGroup(size) =>
      var ((reg, rm), p) :- ReadModRM(m, pos);
      if reg < 4 then Unreadable else WithImm(m, p, 1, false, Rm(rm, size, Some(reg)))
    case Unknown => Unreadable
  }

  predicate IsSegmentOrLock(op: int) {
    op == 0x2E || op == 0x36 || op == 0x3E || op == 0x26 || op == 0x64 || op == 0x65 || op == 0xF0
  }

  datatype Prefixed = Prefixed(op: Byte, opsize: OperandSize, rep: Option<nat>)

  /** The prefix loop. */
  function SkipPrefixes(m: Image, pos: Word, opsize: OperandSize, rep: Option<nat>): Scan<Prefixed>
    requires m.Valid()
    decreases TASK_SIZE - pos
  {
    match m.ByteAt(pos)
    case None => Unreadable
    case Some(op) =>
      var next := Mask32(pos + 1);
      if op == 0x66 then SkipPrefixes(m, next, 2, rep)
      else if IsSegmentOrLock(op) then SkipPrefixes(m, next, opsize, rep)
      else if op == 0xF2 || op == 0xF3 then SkipPrefixes(m, next, opsize, Some(op))
      else Seen(Prefixed(op, opsize, rep), next)
  }

  function DecodeLine(m: Image, pos: Word): Scan<Line>
    requires m.Valid()
  {
    var (o, p) :- SkipPrefixes(m, pos, 4, None);
    ReadAfterPrefixes(m, o, p)
  }

  function ReadAfterPrefixes(m: Image, o: Prefixed, pos: Word): Scan<Line>
    requires m.Valid()
  {
    if o.rep.Some? && 0xA4 <= o.op <= 0xAF && o.op != 0xA8 && o.op != 0xA9 then
      Seen(NOTHING.(name := StringName(o.op, o.opsize, o.rep)), pos)
    else if o.rep == Some(0xF3) && o.op == 0x90 then Seen(NOTHING.(name := Pause), pos)
    else ReadOp(m, o.op, o.opsize, pos)
  }

  function Named(line: Line, name: Name, first: bool): Line {
    line.(name := name, first := first)
  }

  function RegField(line: Line): nat {
    if line.reg.Some? then line.reg.value else 0
  }

  function ReadOp(m: Image, op: Byte, opsize: OperandSize, pos: Word): Scan<Line>
    requires m.Valid()
  {
    if op == 0x0F then
      var (op2, p2) :- U8(m, pos);
      var (line, p) :- ReadForm(m, Form0F(op2, opsize), p2);
      Seen(Named(line, Name0F(op2, opsize, RegField(line)), RmFirst0F(op2)), p)
    else
      var (line, p) :- ReadForm(m, FormOf(op, opsize), pos);
      Seen(Named(line, NameOf(op, opsize, RegField(line)), RmFirst(op)), p)
  }

  /** A disassembled line with its length, or the one-byte fallback. */
  datatype Shown = Shown(length: nat, line: Line) | Fallback

  function DisasmOne(m: Image, addr: int): Shown
    requires m.Valid()
  {
    Finish(Mask32(addr), DecodeLine(m, Mask32(addr)))
  }

  function Finish(start: Word, scan: Scan<Line>): Shown {
    match scan
    case Seen(line, pos) =>
      var n := Mask32(pos - start);
      Shown(if n == 0 then 1 else n, line)
    case Unreadable => Fallback
  }

  function LengthOf(s: Shown): nat {
    match s
    case Shown(n, _) => n
    case Fallback => 1
  }

  /** Listing `count` lines: each line starts where the length of the one before it ends. */
  method DisasmRange(m: Image, addr: int, count: nat) returns (out: seq<(Word, Shown)>)
    requires m.Valid()
    ensures |out| == count && IsListing(m, Mask32(addr), out)
  {
    out := [];
    var a := Mask32(addr);
    for i := 0 to count
      invariant |out| == i && IsListing(m, Mask32(addr), out)
      invariant 0 <= a < TWO32
      invariant a == if i == 0 then Mask32(addr) else Next(out[i - 1])
    {
      out := out + [(a, DisasmOne(m, a))];
      a := Next(out[i]);
    }
  }

  function Next(l: (Word, Shown)): Word {
    Mask32(l.0 + LengthOf(l.1))
  }

  ghost predicate IsListing(m: Image, a: Word, out: seq<(Word, Shown)>)
    requires m.Valid()
  {
    && (|out| > 0 ==> out[0].0 == a)
    && (forall i :: 0 <= i < |out| ==> out[i].1 == DisasmOne(m, out[i].0))
    && (forall i :: 0 < i < |out| ==> out[i].0 == Next(out[i - 1]))
  }
}
