/** The executor's instruction decoder (cpu86.py, the `_DEC` and `_DEC0F` tables). */
module Decoder {
  import opened Words
  import opened Memory

  /** Register numbers; in 8-bit operands 4..7 are the high bytes of 0..3. */
  type Reg = r: nat | r < 8

  type OperandSize = n: nat | IsSize(n) witness 4
  type ImmSize = n: nat | n == 0 || IsSize(n) witness 0

  /** The handler a decoded instruction dispatches to, with the constants its variant fixes. */
  datatype Handler =
    | AluRmR(op: nat) | AluRRm(op: nat) | AluRmImm(op: nat)
    | TestRmR | TestRmImm | MovRmR | MovRRm | MovRmImm | Xchg
    | Inc | Dec | Not | Neg
    | Shift(kind: nat, byCl: bool)
    | Setcc(cc: nat) | Movx(signed: bool, dst: OperandSize) | Lea
    | CallRm | JmpRm | PushRm | PushRm16 | PopRm
    | Jcc(cc: nat) | CallRel | Jmp | Ret | RetN | Loop(op: nat)
    | PushR | PopR | PushImm | MovRImm
    | Leave | Enter(level: nat) | XchgEaxR | Cbw | Cwd | Pushf | Popf | Sahf | Lahf | Xlat
    | MovAlMoffs | MovAxMoffs | MovMoffsAl | MovMoffsAx
    | String(op: nat) | Clc | Stc | Cld | Std
    | Imul3 | Imul2 | MulDiv | BtR | BtI | BitScan | DoubleShift
    | Interrupt | Halt | Nop | Bad

  /** One decoded instruction. `mod == 3` means that `base` is a register operand. */
  datatype Entry = Entry(fn: Handler, length: nat, size: OperandSize, reg: Reg,
                         base: Option<Reg>, index: Option<Reg>, scale: nat,
                         disp: int, imm: int, mod: nat)

  /** A fetch either yields a value and the next position, or faults; a faulting fetch leaves the
      instruction pointer where that fetch started. */
  datatype Fetch<+T> = Got(val: T, pos: int) | Miss(eip: int)
  {
    predicate IsFailure() { Miss? }
    function PropagateFailure<U>(): Fetch<U> requires Miss? { Miss(eip) }
    function Extract(): (T, int) requires Got? { (val, pos) }
  }

  function FetchNum(m: Image, pos: int, size: int): (r: Fetch<Word>)
    requires m.Valid() && IsSize(size)
    ensures r.Got? ==> r.pos == pos + size <= TASK_SIZE && m.Load(pos, size) == Some(r.val)
  {
    match m.Load(pos, size)
    case Some(v) => Got(v, pos + size)
    case None => Miss(pos)
  }

  /** An immediate sign-extended from `size` bytes. */
  function FetchSigned(m: Image, pos: int, size: int): (r: Fetch<int>)
    requires m.Valid() && IsSize(size)
    ensures r.Got? ==> r.pos == pos + size <= TASK_SIZE
  {
    var (v, p) :- FetchNum(m, pos, size);
    Got(Signed(v, size), p)
  }

  datatype ModRM = ModRM(mod: nat, reg: Reg, base: Option<Reg>, index: Option<Reg>,
                         scale: nat, disp: int)

  predicate IsModRM(m: ModRM) {
    && m.mod < 4 && m.scale < 4
    && (m.mod == 3 ==> m.base.Some? && m.index.None?)
  }

  /** ModRM, the optional SIB byte and the displacement. The instruction pointer moves only when
      the whole group has been read. */
  function DecodeModRM(m: Image, pos: int): (r: Fetch<ModRM>)
    requires m.Valid()
    ensures r.Got? ==> IsModRM(r.val) && pos < r.pos <= TASK_SIZE
    ensures r.Miss? ==> r.eip == pos
  {
    match ModRMBody(m, pos)
    case Got(v, p) => Got(v, p)
    case Miss(_) => Miss(pos)
  }

  function ModRMBody(m: Image, pos: int): (r: Fetch<ModRM>)
    requires m.Valid()
    ensures r.Got? ==> IsModRM(r.val) && pos < r.pos <= TASK_SIZE
  {
    var (b, p1) :- FetchNum(m, pos, 1);
    var mod, reg, rm := b / 64, b / 8 % 8, b % 8;
    if mod == 3 then Got(ModRM(3, reg, Some(rm), None, 0, 0), p1)
    else if rm == 4 then SibBody(m, p1, mod, reg)
    else if rm == 5 && mod == 0 then
      var (d, p2) :- FetchSigned(m, p1, 4);
      Got(ModRM(mod, reg, None, None, 0, d), p2)
    else AddDisplacement(m, p1, ModRM(mod, reg, Some(rm), None, 0, 0))
  }

  /** The SIB byte; index 4 means no index, base 5 without displacement means no base. */
  function SibBody(m: Image, pos: int, mod: nat, reg: Reg): (r: Fetch<ModRM>)
    requires m.Valid() && mod < 3
    ensures r.Got? ==> IsModRM(r.val) && pos < r.pos <= TASK_SIZE
  {
    var (sib, p) :- FetchNum(m, pos, 1);
    var scale, idx, sbase := sib / 64, sib / 8 % 8, sib % 8;
    var index := if idx != 4 then Some(idx) else None;
    if sbase == 5 && mod == 0 then
      var (d, p3) :- FetchSigned(m, p, 4);
      Got(ModRM(mod, reg, None, index, scale, d), p3)
    else AddDisplacement(m, p, ModRM(mod, reg, Some(sbase), index, scale, 0))
  }

  function AddDisplacement(m: Image, pos: int, r: ModRM): (f: Fetch<ModRM>)
    requires m.Valid() && IsModRM(r) && r.mod != 3
    ensures f.Got? ==> IsModRM(f.val) && pos <= f.pos <= Max(pos, TASK_SIZE)
  {
    if r.mod == 1 then
      var (d, p) :- FetchSigned(m, pos, 1);
      Got(r.(disp := r.disp + d), p)
    else if r.mod == 2 then
      var (d, p) :- FetchSigned(m, pos, 4);
      Got(r.(disp := r.disp + d), p)
    else Got(r, pos)
  }

  // ---- The opcode tables -----------------------------------------------------

  /** How the immediate field of an entry is made from the immediate bytes. */
  datatype Conversion =
    | Constant(k: nat)            // no immediate: a constant of the decoder
    | Raw                         // the bytes as they are
    | Widened(size: OperandSize)  // imm8 sign-extended, then reduced to the operand size
    | SignExtended(size: OperandSize)
    | Mod32                       // shift counts
    | Tagged(k: nat)              // double shifts keep the opcode beside the count

  function Convert(c: Conversion, v: int): int {
    match c
    case Constant(k) => k
    case Raw => v
    case Widened(size) => Signed(v, 1) % Range(size)
    case SignExtended(size) => Signed(v, size)
    case Mod32 => v % 32
    case Tagged(k) => k + v
  }

  /** What follows ModRM: the handler, the operand size and the immediate. */
  datatype Tail = Tail(fn: Handler, size: OperandSize, immSize: ImmSize, conv: Conversion)

  /** ModRM opcodes; in the groups the reg field selects the operation. */
  datatype Group =
    | Fixed(tail: Tail)
    | AluImm(op: nat, size: OperandSize)
    | Shifts(op: nat, size: OperandSize)
    | Group3(size: OperandSize)
    | Group5(op: nat, size: OperandSize, opsize: OperandSize)
    | BitImm(size: OperandSize)

  function TailOf(g: Group, reg: Reg): Tail {
    match g
    case Fixed(t) => t
    case AluImm(op, size) =>
      if op == 0x81 then Tail(AluRmImm(reg), size, size, Raw)
      else Tail(AluRmImm(reg), size, 1, if op == 0x83 then Widened(size) else Raw)
    case Shifts(op, size) =>
      var fn := if reg == 2 || reg == 3 then Bad else Shift(reg, op >= 0xD2);
      if op < 0xD0 then Tail(fn, size, 1, Mod32)
      else Tail(fn, size, 0, Constant(if op < 0xD2 then 1 else 0))
    case Group3(size) =>
      if reg <= 1 then Tail(TestRmImm, size, size, Raw)
      else Tail(if reg == 2 then Not else if reg == 3 then Neg else MulDiv, size, 0, Constant(0))
    case Group5(op, size, opsize) =>
      if reg == 0 then Tail(Inc, size, 0, Constant(0))
      else if reg == 1 then Tail(Dec, size, 0, Constant(0))
      else if op == 0xFF && reg == 2 then Tail(CallRm, 4, 0, Constant(0))
      else if op == 0xFF && reg == 4 then Tail(JmpRm, 4, 0, Constant(0))
      else if op == 0xFF && reg == 6 then
        if opsize == 4 then Tail(PushRm, 4, 0, Constant(0)) else Tail(PushRm16, 2, 0, Constant(0))
      else Tail(Bad, size, 0, Constant(0))
    case BitImm(size) =>
      if reg < 4 then Tail(Bad, size, 0, Constant(0)) else Tail(BtI, size, 1, Raw)
  }

  /** One slot of a table: what the decoder of an opcode fetches and which entry it builds. */
  datatype Shape =
    | Simple(fn: Handler, size: OperandSize, reg: Reg, imm: int)
    | RegOperand(fn: Handler, size: OperandSize, base: Reg)
    | Immediate(fn: Handler, size: OperandSize, reg: Reg, immSize: OperandSize, conv: Conversion)
    | Relative(fn: Handler, immSize: OperandSize)
    | EnterShape
    | WithModRM(group: Group)

  function RmShape(fn: Handler, size: OperandSize, k: nat): Shape {
    WithModRM(Fixed(Tail(fn, size, 0, Constant(k))))
  }

  function RmImmShape(fn: Handler, size: OperandSize, immSize: OperandSize, conv: Conversion): Shape {
    WithModRM(Fixed(Tail(fn, size, immSize, conv)))
  }

  /** 00..3F. */
  function AluShape(op: nat, opsize: OperandSize): Shape {
    var alu, form := op / 8, op % 8;
    if form == 0 then RmShape(AluRmR(alu), 1, 0)
    else if form == 1 then RmShape(AluRmR(alu), opsize, 0)
    else if form == 2 then RmShape(AluRRm(alu), 1, 0)
    else if form == 3 then RmShape(AluRRm(alu), opsize, 0)
    else if form == 4 then Immediate(AluRmImm(alu), 1, 0, 1, Raw)
    else if form == 5 then Immediate(AluRmImm(alu), opsize, 0, opsize, Raw)
    else Simple(Bad, 4, 0, 0)
  }

  /** 40..83. */
  function Shape40(op: nat, opsize: OperandSize): Shape {
    if op < 0x48 then RegOperand(Inc, opsize, op % 8)
    else if op < 0x50 then RegOperand(Dec, opsize, op % 8)
    else if op < 0x58 then Simple(PushR, opsize, op % 8, 0)
    else if op < 0x60 then Simple(PopR, opsize, op % 8, 0)
    else if op == 0x68 then Immediate(PushImm, opsize, 0, opsize, Raw)
    else if op == 0x6A then Immediate(PushImm, opsize, 0, 1, Widened(opsize))
    else if op == 0x69 then RmImmShape(Imul3, opsize, opsize, SignExtended(opsize))
    else if op == 0x6B then RmImmShape(Imul3, opsize, 1, SignExtended(1))
    else if 0x70 <= op < 0x80 then Relative(Jcc(op % 16), 1)
    else if op == 0x80 then WithModRM(AluImm(op, 1))
    else if op == 0x81 || op == 0x83 then WithModRM(AluImm(op, opsize))
    else Simple(Bad, 4, 0, 0)
  }

  /** 84..9F. */
  function Shape84(op: nat, opsize: OperandSize): Shape {
    var size := if op % 2 == 0 then 1 else opsize;
    if op == 0x84 || op == 0x85 then RmShape(TestRmR, size, 0)
    else if op == 0x86 || op == 0x87 then RmShape(Xchg, size, 0)
    else if op == 0x88 || op == 0x89 then RmShape(MovRmR, size, 0)
    else if op == 0x8A || op == 0x8B then RmShape(MovRRm, size, 0)
    else if op == 0x8D then RmShape(Lea, opsize, 0)
    else if op == 0x8F then RmShape(PopRm, opsize, 0)
    else if op == 0x90 then Simple(Nop, opsize, 0, 0)
    else if 0x91 <= op <= 0x97 then Simple(XchgEaxR, opsize, op % 8, 0)
    else if op == 0x98 then Simple(Cbw, opsize, 0, 0)
    else if op == 0x99 then Simple(Cwd, opsize, 0, 0)
    else if op == 0x9C then Simple(Pushf, opsize, 0, 0)
    else if op == 0x9D then Simple(Popf, opsize, 0, 0)
    else if op == 0x9E then Simple(Sahf, opsize, 0, 0)
    else if op == 0x9F then Simple(Lahf, opsize, 0, 0)
    else Simple(Bad, 4, 0, 0)
  }

  /** A0..BF. */
  function ShapeA0(op: nat, opsize: OperandSize): Shape {
    if op == 0xA0 then Immediate(MovAlMoffs, opsize, 0, 4, Raw)
    else if op == 0xA1 then Immediate(MovAxMoffs, opsize, 0, 4, Raw)
    else if op == 0xA2 then Immediate(MovMoffsAl, opsize, 0, 4, Raw)
    else if op == 0xA3 then Immediate(MovMoffsAx, opsize, 0, 4, Raw)
    else if op == 0xA8 then Immediate(TestRmImm, 1, 0, 1, Raw)
    else if op == 0xA9 then Immediate(TestRmImm, opsize, 0, opsize, Raw)
    else if op < 0xB0 then Simple(String(op), opsize, 0, 0)
    else if op < 0xB8 then Immediate(MovRImm, 1, op % 8, 1, Raw)
    else Immediate(MovRImm, opsize, op % 8, opsize, Raw)
  }

  /** C0..FF. */
  function ShapeC0(op: nat, opsize: OperandSize): Shape {
    if op == 0xC0 || op == 0xD0 || op == 0xD2 then WithModRM(Shifts(op, 1))
    else if op == 0xC1 || op == 0xD1 || op == 0xD3 then WithModRM(Shifts(op, opsize))
    else if op == 0xC2 then Immediate(RetN, 4, 0, 2, Raw)
    else if op == 0xC3 then Simple(Ret, opsize, 0, 0)
    else if op == 0xC6 then RmImmShape(MovRmImm, 1, 1, Raw)
    else if op == 0xC7 then RmImmShape(MovRmImm, opsize, opsize, Raw)
    else if op == 0xC8 then EnterShape
    else if op == 0xC9 then Simple(Leave, opsize, 0, 0)
    else if op == 0xCC then Simple(Interrupt, 4, 0, 3)
    else if op == 0xCD then Immediate(Interrupt, 4, 0, 1, Raw)
    else if op == 0xD7 then Simple(Xlat, opsize, 0, 0)
    else if 0xE0 <= op <= 0xE3 then Relative(Loop(op), 1)
    else if op == 0xE8 then Relative(CallRel, 4)
    else if op == 0xE9 then Relative(Jmp, 4)
    else if op == 0xEB then Relative(Jmp, 1)
    else if op == 0xF4 then Simple(Halt, opsize, 0, 0)
    else if op == 0xF6 then WithModRM(Group3(1))
    else if op == 0xF7 then WithModRM(Group3(opsize))
    else if op == 0xF8 then Simple(Clc, opsize, 0, 0)
    else if op == 0xF9 then Simple(Stc, opsize, 0, 0)
    else if op == 0xFC then Simple(Cld, opsize, 0, 0)
    else if op == 0xFD then Simple(Std, opsize, 0, 0)
    else if op == 0xFE then WithModRM(Group5(op, 1, opsize))
    else if op == 0xFF then WithModRM(Group5(op, opsize, opsize))
    else Simple(Bad, 4, 0, 0)
  }

  /** The one-byte table; 0F escapes to the second table. */
  function ShapeOf(op: nat, opsize: OperandSize): Shape {
    if op < 0x40 then AluShape(op, opsize)
    else if op < 0x84 then Shape40(op, opsize)
    else if op < 0xA0 then Shape84(op, opsize)
    else if op < 0xC0 then ShapeA0(op, opsize)
    else ShapeC0(op, opsize)
  }

  /** The 0F table. */
  function Shape0F(op: nat, opsize: OperandSize): Shape {
    if 0x80 <= op <= 0x8F then Relative(Jcc(op % 16), 4)
    else if 0x90 <= op <= 0x9F then RmShape(Setcc(op % 16), 1, 0)
    else if op == 0xAF then RmShape(Imul2, opsize, 0)
    else if op == 0xA3 then RmShape(BtR, opsize, 4)
    else if op == 0xAB then RmShape(BtR, opsize, 5)
    else if op == 0xB3 then RmShape(BtR, opsize, 6)
    else if op == 0xBB then RmShape(BtR, opsize, 7)
    else if op == 0xBA then WithModRM(BitImm(opsize))
    else if op == 0xBC || op == 0xBD then RmShape(BitScan, opsize, op)
    else if op == 0xA4 || op == 0xAC then RmImmShape(DoubleShift, opsize, 1, Tagged(op * 256))
    else if op == 0xA5 || op == 0xAD then RmShape(DoubleShift, opsize, op * 256)
    else if op == 0xB6 || op == 0xBE then RmShape(Movx(op == 0xBE, opsize), 1, 0)
    else if op == 0xB7 || op == 0xBF then RmShape(Movx(op == 0xBF, opsize), 2, 0)
    else Simple(Bad, 4, 0, 0)
  }

  // ---- Assembling entries ----------------------------------------------------

  /** The result of decoding: an entry, or the pointer at which fetching faulted. */
  datatype Decoded = Insn(e: Entry) | NoInsn(eip: int)

  /** The instruction ends at or after `pos`, inside the address space. */
  predicate EndsPast(d: Decoded, start: int, pos: int) {
    d.Insn? ==> pos <= start + d.e.length <= Max(pos, TASK_SIZE)
  }

  /** An instruction without ModRM. */
  function PlainEntry(fn: Handler, start: int, pos: int, size: OperandSize, reg: Reg, imm: int): Decoded
    requires start <= pos
  {
    Insn(Entry(fn, pos - start, size, reg, Some(0), None, 0, 0, imm, 3))
  }

  /** An instruction with a ModRM operand; an absolute address is stored already reduced. */
  function RmEntry(t: Tail, start: int, pos: int, m: ModRM, imm: int): Decoded
    requires start <= pos
  {
    var disp := if m.mod != 3 && m.base.None? && m.index.None? then Mask32(m.disp) else m.disp;
    Insn(Entry(t.fn, pos - start, t.size, m.reg, m.base, m.index, m.scale, disp, imm, m.mod))
  }

  /** Running the decoder of one table slot with the instruction pointer at `pos`. */
  function DecodeShape(m: Image, s: Shape, start: int, pos: int): (d: Decoded)
    requires m.Valid() && start <= pos
    ensures EndsPast(d, start, pos)
  {
    match s
    case Simple(fn, size, reg, imm) => PlainEntry(fn, start, pos, size, reg, imm)
    case RegOperand(fn, size, base) =>
      Insn(Entry(fn, pos - start, size, 0, Some(base), None, 0, 0, 0, 3))
    case Immediate(fn, size, reg, immSize, conv) =>
      (match FetchNum(m, pos, immSize)
       case Miss(p) => NoInsn(p)
       case Got(v, p) => PlainEntry(fn, start, p, size, reg, Convert(conv, v)))
    case Relative(fn, immSize) =>
      (match FetchSigned(m, pos, immSize)
       case Miss(p) => NoInsn(p)
       case Got(rel, p) => PlainEntry(fn, start, p, 4, 0, Mask32(p + rel)))
    case EnterShape => DecodeEnter(m, start, pos)
    case WithModRM(g) =>
      (match DecodeModRM(m, pos)
       case Miss(p) => NoInsn(p)
       case Got(rm, p) => DecodeTail(m, TailOf(g, rm.reg), start, p, rm))
  }

  function DecodeTail(m: Image, t: Tail, start: int, pos: int, rm: ModRM): (d: Decoded)
    requires m.Valid() && start <= pos
    ensures EndsPast(d, start, pos)
  {
    if t.immSize == 0 then RmEntry(t, start, pos, rm, Convert(t.conv, 0))
    else
      match FetchNum(m, pos, t.immSize)
      case Miss(p) => NoInsn(p)
      case Got(v, p) => RmEntry(t, start, p, rm, Convert(t.conv, v))
  }

  /** C8: enter imm16, imm8. */
  function DecodeEnter(m: Image, start: int, pos: int): (d: Decoded)
    requires m.Valid() && start <= pos
    ensures EndsPast(d, start, pos)
  {
    match FetchNum(m, pos, 2)
    case Miss(p) => NoInsn(p)
    case Got(alloc, p1) =>
      match FetchNum(m, p1, 1)
      case Miss(p) => NoInsn(p)
      case Got(level, p2) => PlainEntry(Enter(level % 32), start, p2, 4, 0, alloc)
  }

  /** Dispatch on the opcode byte that ends at `pos`. */
  function DecodeOp(m: Image, op: Byte, opsize: OperandSize, start: int, pos: int): (d: Decoded)
    requires m.Valid() && start <= pos
    ensures EndsPast(d, start, pos)
  {
    if op == 0x0F then
      match FetchNum(m, pos, 1)
      case Miss(p) => NoInsn(p)
      case Got(op2, p) => DecodeShape(m, Shape0F(op2, opsize), start, p)
    else DecodeShape(m, ShapeOf(op, opsize), start, pos)
  }

  // ---- Prefixes and the whole instruction ------------------------------------

  predicate IsPrefix(op: int) {
    op == 0x66 || op == 0x2E || op == 0x36 || op == 0x3E || op == 0x26 || op == 0x64 || op == 0x65
    || op == 0xF0 || op == 0xF2 || op == 0xF3
  }

  predicate IsStringOp(op: int) {
    0xA4 <= op <= 0xAF && op != 0xA8 && op != 0xA9
  }

  datatype Opcode = Opcode(op: Byte, opsize: OperandSize, rep: nat)

  /** Nothing is readable at or above this address. */
  function Limit(m: Image): int {
    Max(|m.low|, TASK_SIZE)
  }

  /** The prefix loop; it has no length cap. */
  function ScanPrefixes(m: Image, pos: int, opsize: OperandSize, rep: nat): (r: Fetch<Opcode>)
    requires m.Valid()
    ensures r.Got? ==> pos < r.pos <= TASK_SIZE
    decreases Limit(m) - pos
  {
    match m.ByteAt(pos)
    case None => Miss(pos)
    case Some(op) =>
      if !IsPrefix(op) then Got(Opcode(op, opsize, rep), pos + 1)
      else ScanPrefixes(m, pos + 1, if op == 0x66 then 2 else opsize,
                        if op == 0xF2 || op == 0xF3 then op else rep)
  }

  /** Decoding past the prefixes. */
  function DecodeFrom(m: Image, start: int, o: Opcode, pos: int): (d: Decoded)
    requires m.Valid() && start <= pos
    ensures EndsPast(d, start, pos)
  {
    if o.rep != 0 && IsStringOp(o.op) then PlainEntry(String(o.op), start, pos, o.opsize, 0, o.rep)
    else if o.rep != 0 && o.op == 0x90 then PlainEntry(Nop, start, pos, o.opsize, 0, 0)
    else DecodeOp(m, o.op, o.opsize, start, pos)
  }

  /** The instruction at `start`. A fault before the opcode leaves the pointer at `start`. */
  function Decode(m: Image, start: int): (d: Decoded)
    requires m.Valid()
    ensures d.Insn? ==> start < start + d.e.length <= TASK_SIZE
  {
    match ScanPrefixes(m, start, 4, 0)
    case Miss(_) => NoInsn(start)
    case Got(o, pos) => DecodeFrom(m, start, o, pos)
  }
}
