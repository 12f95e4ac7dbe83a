/** The instruction handlers (cpu86.py) as functions on a machine state.

    Every store appends the span it wrote to `log` when that span lies in the low region and
    starts in text, which is exactly when the address space flushes decoded instructions. */
module Handlers {
  import opened Words
  import opened Memory
  import opened Decoder
  import opened Flags

  type Registers = r: seq<Word> | |r| == 8 witness [0, 0, 0, 0, 0, 0, 0, 0]

  const EAX: Reg := 0
  const ECX: Reg := 1
  const EDX: Reg := 2
  const EBX: Reg := 3
  const ESP: Reg := 4
  const EBP: Reg := 5
  const ESI: Reg := 6
  const EDI: Reg := 7

  datatype Span = Span(addr: nat, len: nat)

  datatype Machine = Machine(regs: Registers, eip: int, flags: Eflags, mem: Image, log: seq<Span>)

  /** Why a handler does not simply continue with the next instruction. */
  datatype Event = SegFault | DivideError | Trap(vec: int) | Halted | Illegal

  /** A handler step: it continues, or stops with the state reached so far. */
  datatype Res<+T> = Ok(m: Machine, v: T) | Stop(m: Machine, ev: Event)
  {
    predicate IsFailure() { Stop? }
    function PropagateFailure<U>(): Res<U> requires Stop? { Stop(m, ev) }
    function Extract(): (Machine, T) requires Ok? { (m, v) }
  }

  type Effect = Res<()>

  function Done(m: Machine): Effect { Ok(m, ()) }

  // ---- Registers -----------------------------------------------------------------

  function GetReg(m: Machine, r: Reg, size: int): (v: Word)
    requires IsSize(size)
    ensures v < Range(size)
  {
    if size == 4 then m.regs[r]
    else if size == 2 then m.regs[r] % 0x1_0000
    else if r < 4 then m.regs[r] % 0x100
    else m.regs[r - 4] / 0x100 % 0x100
  }

  /** Replacing the low 16 bits, the low byte or the second byte of a word. */
  function Low16(w: Word, v: int): Word {
    var i: int := w;
    i / 0x1_0000 * 0x1_0000 + v % 0x1_0000
  }

  function Low8(w: Word, v: int): Word {
    var i: int := w;
    i / 0x100 * 0x100 + v % 0x100
  }

  function High8(w: Word, v: int): Word {
    var i: int := w;
    i / 0x1_0000 * 0x1_0000 + v % 0x100 * 0x100 + i % 0x100
  }

  function SetReg(m: Machine, r: Reg, size: int, v: int): (m': Machine)
    requires IsSize(size)
    ensures m' == m.(regs := m'.regs)
  {
    if size == 4 then m.(regs := m.regs[r := Mask32(v)])
    else if size == 2 then m.(regs := m.regs[r := Low16(m.regs[r], v)])
    else if r < 4 then m.(regs := m.regs[r := Low8(m.regs[r], v)])
    else m.(regs := m.regs[r - 4 := High8(m.regs[r - 4], v)])
  }

  /** A register as an unbounded number, for address arithmetic. */
  function R(m: Machine, r: Reg): int {
    m.regs[r]
  }

  function Set32(m: Machine, r: Reg, v: int): (m': Machine)
    ensures m' == m.(regs := m'.regs)
  {
    m.(regs := m.regs[r := Mask32(v)])
  }

  // ---- Memory ----------------------------------------------------------------------

  function ReadMem(m: Machine, addr: int, size: int): (r: Res<Word>)
    requires m.mem.Valid() && IsSize(size)
    ensures r.m == m
  {
    match m.mem.Load(addr, size)
    case Some(v) => Ok(m, v)
    case None => Stop(m, SegFault)
  }

  /** A bulk store, with the flush it causes recorded. */
  function WriteBytes(m: Machine, addr: int, data: seq<Byte>): (r: Effect)
    requires m.mem.Valid()
    ensures r.m.mem.Valid()
  {
    var w := m.mem.Write(addr, data);
    var log := if m.mem.TouchesText(addr, |data|) then m.log + [Span(addr, |data|)] else m.log;
    if w.ok then Done(m.(mem := w.mem, log := log)) else Stop(m.(mem := w.mem), SegFault)
  }

  function WriteMem(m: Machine, addr: int, size: int, v: int): (r: Effect)
    requires m.mem.Valid() && IsSize(size)
    ensures r.m.mem.Valid()
  {
    WriteBytes(m, addr, Bytes(v, size))
  }

  // ---- Operands ----------------------------------------------------------------------

  /** Effective address of a memory operand. */
  function Address(m: Machine, e: Entry): Word {
    var b: int := if e.base.Some? then m.regs[e.base.value] else 0;
    var i: int := if e.index.Some? then m.regs[e.index.value] else 0;
    Mask32(e.disp + b + i * Pow2(e.scale))
  }

  function RegOf(e: Entry): Reg {
    if e.base.Some? then e.base.value else 0
  }

  function ReadRm(m: Machine, e: Entry, size: int): (r: Res<Word>)
    requires m.mem.Valid() && IsSize(size)
    ensures r.m == m
  {
    if e.mod == 3 then Ok(m, GetReg(m, RegOf(e), size)) else ReadMem(m, Address(m, e), size)
  }

  /** The address is the one computed before the operand was read. */
  function WriteRm(m: Machine, e: Entry, addr: Word, size: int, v: int): (r: Effect)
    requires m.mem.Valid() && IsSize(size)
    ensures r.m.mem.Valid()
  {
    if e.mod == 3 then Done(SetReg(m, RegOf(e), size, v)) else WriteMem(m, addr, size, v)
  }

  // ---- Stack ----------------------------------------------------------------------------

  function Push(m: Machine, size: int, v: int): (r: Effect)
    requires m.mem.Valid() && IsSize(size)
    ensures r.m.mem.Valid()
  {
    var sp := Mask32(R(m, ESP) - size);
    var (m1, _) :- WriteMem(m, sp, size, v);
    Done(Set32(m1, ESP, sp))
  }

  function Pop(m: Machine, size: int): (r: Res<Word>)
    requires m.mem.Valid() && IsSize(size)
    ensures r.m.mem.Valid() && r.m == m.(regs := r.m.regs)
  {
    var sp := m.regs[ESP];
    var (m1, v) :- ReadMem(m, sp, size);
    Ok(Set32(m1, ESP, R(m, ESP) + size), v)
  }

  // ---- Bitwise logic ---------------------------------------------------------------------

  datatype Connective = Conjunction | Disjunction | Exclusion

  predicate Connects(c: Connective, x: bool, y: bool) {
    match c
    case Conjunction => x && y
    case Disjunction => x || y
    case Exclusion => x != y
  }

  /** The low n bits of two numbers connected one by one, from the lowest up. */
  function Bitwise(c: Connective, a: nat, b: nat, n: nat): (r: nat)
    ensures r < Pow2(n)
    decreases n
  {
    if n == 0 then 0
    else 2 * Bitwise(c, a / 2, b / 2, n - 1) + if Connects(c, a % 2 == 1, b % 2 == 1) then 1 else 0
  }

  function Connected(c: Connective, a: Word, b: Word): Word {
    Pow2Word();
    Bitwise(c, a, b, 32)
  }

  function And(a: Word, b: Word): Word { Connected(Conjunction, a, b) }
  function Or(a: Word, b: Word): Word { Connected(Disjunction, a, b) }
  function Xor(a: Word, b: Word): Word { Connected(Exclusion, a, b) }

  function Logic(op: nat, a: Word, b: Word): Word {
    if op == 1 then Or(a, b) else if op == 4 then And(a, b) else Xor(a, b)
  }

  // ---- ALU ---------------------------------------------------------------------------------

  /** add, or, adc, sbb, and, sub, xor, cmp: the truncated result and the new flags. */
  function Alu(op: nat, f: Eflags, a: Word, b: Word, size: int): (int, Eflags)
    requires IsSize(size)
  {
    var c := if Has(f, CF) then 1 else 0;
    if op == 0 then ((a + b) % Range(size), AddFlags(f, a, b, 0, size))
    else if op == 2 then ((a + b + c) % Range(size), AddFlags(f, a, b, c, size))
    else if op == 5 || op == 7 then ((a - b) % Range(size), SubFlags(f, a, b, 0, size))
    else if op == 3 then ((a - b - c) % Range(size), SubFlags(f, a, b, c, size))
    else (Logic(op, a, b), LogicFlags(f, Logic(op, a, b), size))
  }

  /** The destination of an ALU operation is the r/m operand; the flags are set before the write
      back, so that a faulting write leaves the new flags. */
  function AluToRm(m: Machine, e: Entry, op: nat, b: Word): (r: Effect)
    requires m.mem.Valid()
    ensures r.m.mem.Valid()
  {
    var addr := Address(m, e);
    var (_, a) :- ReadRm(m, e, e.size);
    var (res, f) := Alu(op, m.flags, a, b, e.size);
    if op == 7 then Done(m.(flags := f)) else WriteRm(m.(flags := f), e, addr, e.size, res)
  }

  /** The destination is the reg operand. */
  function AluToReg(m: Machine, e: Entry, op: nat): (r: Effect)
    requires m.mem.Valid()
    ensures r.m.mem.Valid()
  {
    var a := GetReg(m, e.reg, e.size);
    var (_, b) :- ReadRm(m, e, e.size);
    var (res, f) := Alu(op, m.flags, a, b, e.size);
    Done(if op == 7 then m.(flags := f) else SetReg(m.(flags := f), e.reg, e.size, res))
  }

  function ExecTest(m: Machine, e: Entry, b: Word): (r: Effect)
    requires m.mem.Valid()
    ensures r.m.mem.Valid()
  {
    var (_, a) :- ReadRm(m, e, e.size);
    Done(m.(flags := LogicFlags(m.flags, And(a, b), e.size)))
  }

  /** inc, dec, not and neg: the new value (before truncation) and the new flags. */
  function Unary(fn: Handler, f: Eflags, a: int, size: int): (int, Eflags)
    requires IsSize(size)
  {
    if fn == Inc then (a + 1, IncFlags(f, a, size))
    else if fn == Dec then (a - 1, DecFlags(f, a, size))
    else if fn == Not then (-1 - a, f)
    else (-a, SubFlags(f, 0, a, 0, size))
  }

  /** The flags are set before the write back. */
  function ExecUnary(m: Machine, e: Entry): (r: Effect)
    requires m.mem.Valid()
    ensures r.m.mem.Valid()
  {
    var addr := Address(m, e);
    var (_, a) :- ReadRm(m, e, e.size);
    var (res, f) := Unary(e.fn, m.flags, a, e.size);
    WriteRm(m.(flags := f), e, addr, e.size, res)
  }

  /** Shifts and rotates write back before they set the flags; a zero count does nothing. */
  function ExecShift(m: Machine, e: Entry, kind: nat, cnt: nat): (r: Effect)
    requires m.mem.Valid()
    ensures r.m.mem.Valid()
  {
    if cnt == 0 then Done(m)
    else
      var addr := Address(m, e);
      var (_, a) :- ReadRm(m, e, e.size);
      var s := ShiftValue(kind, a, cnt, e.size);
      var (m1, _) :- WriteRm(m, e, addr, e.size, s.res);
      Done(m1.(flags := ShiftFlags(m1.flags, kind, s, cnt, e.size)))
  }

  function ExecAlu(m: Machine, e: Entry): (r: Effect)
    requires m.mem.Valid()
    ensures r.m.mem.Valid()
  {
    match e.fn
    case AluRmR(op) => AluToRm(m, e, op, GetReg(m, e.reg, e.size))
    case AluRmImm(op) => AluToRm(m, e, op, Mask32(e.imm))
    case AluRRm(op) => AluToReg(m, e, op)
    case TestRmR => ExecTest(m, e, GetReg(m, e.reg, e.size))
    case TestRmImm => ExecTest(m, e, Mask32(e.imm))
    case Shift(kind, byCl) => ExecShift(m, e, kind, if byCl then R(m, ECX) % 32 else e.imm % 32)
    case _ => ExecUnary(m, e)
  }

  // ---- Moves ----------------------------------------------------------------------------------

  function ExecMove(m: Machine, e: Entry): (r: Effect)
    requires m.mem.Valid()
    ensures r.m.mem.Valid()
  {
    match e.fn
    case MovRmR => WriteRm(m, e, Address(m, e), e.size, GetReg(m, e.reg, e.size))
    case MovRRm =>
      var (_, v) :- ReadRm(m, e, e.size);
      Done(SetReg(m, e.reg, e.size, v))
    case MovRmImm => WriteRm(m, e, Address(m, e), e.size, e.imm)
    case MovRImm => Done(SetReg(m, e.reg, e.size, e.imm))
    case Xchg =>
      var addr := Address(m, e);
      var (_, a) :- ReadRm(m, e, e.size);
      var (m1, _) :- WriteRm(m, e, addr, e.size, GetReg(m, e.reg, e.size));
      Done(SetReg(m1, e.reg, e.size, a))
    case Setcc(cc) => WriteRm(m, e, Address(m, e), 1, if Condition(cc, m.flags) then 1 else 0)
    case Movx(signed, dst) =>
      var (_, v) :- ReadRm(m, e, e.size);
      Done(SetReg(m, e.reg, dst, if signed then Signed(v, e.size) else v))
    case Lea =>
      if e.mod == 3 then Stop(m, Illegal) else Done(SetReg(m, e.reg, e.size, Address(m, e)))
    case XchgEaxR =>
      var a := GetReg(m, EAX, e.size);
      var m1 := SetReg(m, EAX, e.size, GetReg(m, e.reg, e.size));
      Done(SetReg(m1, e.reg, e.size, a))
    case Cbw =>
      Done(if e.size == 2 then SetReg(m, EAX, 2, Signed(GetReg(m, EAX, 1), 1))
           else SetReg(m, EAX, 4, Signed(GetReg(m, EAX, 2), 2)))
    case Cwd =>
      Done(if e.size == 2 then SetReg(m, EDX, 2, if SignBit(GetReg(m, EAX, 2), 2) then 0xFFFF else 0)
           else SetReg(m, EDX, 4, if SignBit(GetReg(m, EAX, 4), 4) then 0xFFFF_FFFF else 0))
    case Xlat =>
      var (_, v) :- ReadMem(m, Mask32(R(m, EBX) + GetReg(m, EAX, 1)), 1);
      Done(SetReg(m, EAX, 1, v))
    case MovAlMoffs =>
      var (_, v) :- ReadMem(m, e.imm, 1);
      Done(SetReg(m, EAX, 1, v))
    case MovAxMoffs =>
      var (_, v) :- ReadMem(m, e.imm, e.size);
      Done(SetReg(m, EAX, e.size, v))
    case MovMoffsAl => WriteMem(m, e.imm, 1, GetReg(m, EAX, 1))
    case MovMoffsAx => WriteMem(m, e.imm, e.size, GetReg(m, EAX, e.size))
    case _ => Stop(m, Illegal)
  }

  // ---- Stack and control flow --------------------------------------------------------------------

  /** The display copies of `enter`. */
  function EnterLevels(m: Machine, level: nat): (r: Effect)
    requires m.mem.Valid()
    ensures r.m.mem.Valid()
    decreases level
  {
    if level == 0 then Done(m)
    else
      var m1 := Set32(m, EBP, R(m, EBP) - 4);
      var (_, v) :- ReadMem(m1, m1.regs[EBP], 4);
      var (m2, _) :- Push(m1, 4, v);
      EnterLevels(m2, level - 1)
  }

  function ExecEnter(m: Machine, level: nat, alloc: int): (r: Effect)
    requires m.mem.Valid()
    ensures r.m.mem.Valid()
  {
    var (m1, _) :- Push(m, 4, m.regs[EBP]);
    var frame := m1.regs[ESP];
    var (m2, _) :- EnterLevels(m1, level);
    var (m3, _) :- if level == 0 then Done(m2) else Push(m2, 4, frame);
    Done(Set32(Set32(m3, EBP, frame), ESP, R(m3, ESP) - alloc))
  }

  function ExecStack(m: Machine, e: Entry): (r: Effect)
    requires m.mem.Valid()
    ensures r.m.mem.Valid()
  {
    match e.fn
    case PushR => Push(m, e.size, GetReg(m, e.reg, e.size))
    case PopR =>
      var (m1, v) :- Pop(m, e.size);
      Done(SetReg(m1, e.reg, e.size, v))
    case PushImm => Push(m, e.size, e.imm)
    case PushRm =>
      var (_, v) :- ReadRm(m, e, 4);
      Push(m, 4, v)
    case PushRm16 =>
      var (_, v) :- ReadRm(m, e, 2);
      Push(m, 2, v)
    case PopRm =>
      var addr := Address(m, e);
      var (m1, v) :- Pop(m, if e.size == 2 then 2 else 4);
      WriteRm(m1, e, addr, e.size, v)
    case Leave =>
      var (m1, v) :- Pop(Set32(m, ESP, m.regs[EBP]), 4);
      Done(Set32(m1, EBP, v))
    case Enter(level) => ExecEnter(m, level, e.imm)
    case Pushf => Push(m, if e.size == 2 then 2 else 4, ToWord(m.flags))
    case Popf =>
      var (m1, v) :- Pop(m, if e.size == 2 then 2 else 4);
      Done(m1.(flags := FromWord(v)))
    case _ => Stop(m, Illegal)
  }

  function ExecFlow(m: Machine, e: Entry): (r: Effect)
    requires m.mem.Valid()
    ensures r.m.mem.Valid()
  {
    match e.fn
    case Jcc(cc) => Done(if Condition(cc, m.flags) then m.(eip := e.imm) else m)
    case Jmp => Done(m.(eip := e.imm))
    case CallRel =>
      var (m1, _) :- Push(m, 4, m.eip);
      Done(m1.(eip := e.imm))
    case CallRm =>
      var (_, target) :- ReadRm(m, e, 4);
      var (m1, _) :- Push(m, 4, m.eip);
      Done(m1.(eip := target))
    case JmpRm =>
      var (_, target) :- ReadRm(m, e, 4);
      Done(m.(eip := target))
    case Ret =>
      var (m1, v) :- Pop(m, 4);
      Done(m1.(eip := v))
    case RetN =>
      var (m1, v) :- Pop(m, 4);
      Done(Set32(m1, ESP, R(m1, ESP) + e.imm).(eip := v))
    case Loop(op) =>
      var m1 := if op == 0xE3 then m else Set32(m, ECX, R(m, ECX) - 1);
      var taken := if op == 0xE3 then m.regs[ECX] == 0
                   else m1.regs[ECX] != 0 && (op == 0xE1 ==> Has(m.flags, ZF)) && (op == 0xE0 ==> !Has(m.flags, ZF));
      Done(if taken then m1.(eip := e.imm) else m1)
    case Interrupt => Stop(m, Trap(e.imm))
    case Halt => Stop(m, Halted)
    case Nop => Done(m)
    case _ => Stop(m, Illegal)
  }

  // ---- Flag instructions -----------------------------------------------------------------------------

  function ExecFlag(m: Machine, e: Entry): (r: Effect)
    requires m.mem.Valid()
    ensures r.m.mem.Valid()
  {
    if e.fn == Lahf then Done(SetReg(m, 4, 1, ToWord(m.flags) % 0x100))
    else Done(m.(flags := ChangedFlags(e.fn, m.flags, LowBits(GetReg(m, 4, 1)))))
  }

  /** clc, stc, cld, std and sahf. */
  function ChangedFlags(fn: Handler, f: Eflags, ah: bv16): Eflags {
    if fn == Clc then f & !CF
    else if fn == Stc then f | CF
    else if fn == Cld then f & !DF
    else if fn == Std then f | DF
    else (f & 0xFF00) | (ah & 0xD5) | 0x02
  }

  // ---- Multiplication, division -------------------------------------------------------------------------

  function Product(m: Machine, size: int, res: int): (m': Machine)
    requires IsSize(size)
    ensures m' == m.(regs := m'.regs)
  {
    if size == 1 then SetReg(m, EAX, 2, res)
    else SetReg(SetReg(m, EAX, size, res), EDX, size, res / Range(size))
  }

  /** Truncating division: quotient toward zero, remainder with the sign of the dividend. */
  function TruncDiv(a: int, b: int): int
    requires b != 0
  {
    var q := (if a < 0 then -a else a) / (if b < 0 then -b else b);
    if (a < 0) != (b < 0) then -q else q
  }

  function Dividend(m: Machine, size: int): int
    requires IsSize(size)
  {
    if size == 1 then GetReg(m, EAX, 2)
    else GetReg(m, EDX, size) * Range(size) + GetReg(m, EAX, size)
  }

  function Quotient(m: Machine, size: int, q: int, r: int): (m': Machine)
    requires IsSize(size)
    ensures m' == m.(regs := m'.regs)
  {
    if size == 1 then SetReg(SetReg(m, EAX, 1, q), 4, 1, r)
    else SetReg(SetReg(m, EAX, size, q), EDX, size, r)
  }

  function ExecMulDiv(m: Machine, e: Entry, src: Word): (r: Effect)
    requires m.mem.Valid()
    ensures r.m.mem.Valid()
  {
    var size, range := e.size, Range(e.size);
    if e.reg == 4 then
      var res := GetReg(m, EAX, size) * src;
      Done(Product(m, size, res).(flags := MulFlags(m.flags, res % range, res / range != 0, size)))
    else if e.reg == 5 then
      var res := Signed(GetReg(m, EAX, size), size) * Signed(src, size);
      Done(Product(m, size, res).(flags :=
        MulFlags(m.flags, res % range, !(-Half(size) <= res < Half(size)), size)))
    else if src == 0 then Stop(m, DivideError)
    else if e.reg == 6 then
      var num := Dividend(m, size);
      if num / src >= range then Stop(m, DivideError) else Done(Quotient(m, size, num / src, num % src))
    else
      var raw := Dividend(m, size);
      var num := if raw >= range * Half(size) then raw - range * range else raw;
      var d := Signed(src, size);
      if d == 0 then Stop(m, DivideError)
      else
        var q := TruncDiv(num, d);
        if !(-Half(size) <= q < Half(size)) then Stop(m, DivideError)
        else Done(Quotient(m, size, q, num - q * d))
  }

  // ---- Bit operations -------------------------------------------------------------------------------------

  function SetBit(v: int, bit: nat, on: bool): int {
    if BitOn(v, bit) == on then v else if on then v + Pow2(bit) else v - Pow2(bit)
  }

  /** bt, bts, btr, btc: a bit index beyond the operand moves the memory address. */
  function ExecBit(m: Machine, e: Entry, sub: int, index: nat): (r: Effect)
    requires m.mem.Valid()
    ensures r.m.mem.Valid()
  {
    var addr := BitAddress(m, e, index);
    var bit := BitIndex(index, e.size);
    var (_, v) :- if e.mod == 3 then ReadRm(m, e, e.size) else ReadMem(m, addr, e.size);
    var m1 := m.(flags := WithCarry(m.flags, BitOn(v, bit)));
    if sub == 4 then Done(m1) else WriteRm(m1, e, addr, e.size, ChangedBit(sub, v, bit))
  }

  function WithCarry(f: Eflags, c: bool): Eflags {
    (f & !CF) | When(c, CF)
  }

  function WithZero(f: Eflags, z: bool): Eflags {
    (f & !ZF) | When(z, ZF)
  }

  function BitIndex(index: nat, size: int): nat
    requires IsSize(size)
  {
    index % (8 * size)
  }

  predicate BitOn(v: int, bit: nat) {
    v / Pow2(bit) % 2 == 1
  }

  function BitAddress(m: Machine, e: Entry, index: nat): Word {
    Mask32(Address(m, e) + index / (8 * e.size) * e.size)
  }

  function ChangedBit(sub: int, v: int, bit: nat): int {
    SetBit(v, bit, if sub == 5 then true else if sub == 6 then false else !BitOn(v, bit))
  }

  function LowestBit(v: nat): nat
    requires v > 0
  {
    if v % 2 == 1 then 0 else 1 + LowestBit(v / 2)
  }

  function HighestBit(v: nat): nat
    requires v > 0
  {
    if v == 1 then 0 else 1 + HighestBit(v / 2)
  }

  function ExecScan(m: Machine, e: Entry): (r: Effect)
    requires m.mem.Valid()
    ensures r.m.mem.Valid()
  {
    var (_, v) :- ReadRm(m, e, e.size);
    if v == 0 then Done(m.(flags := WithZero(m.flags, true)))
    else Done(SetReg(m.(flags := WithZero(m.flags, false)), e.reg, e.size,
                     if e.imm == 0xBC then LowestBit(v) else HighestBit(v)))
  }

  /** The result and carry of shld and shrd by cnt >= 1 bits. */
  function DoubleShiftValue(left: bool, dst: int, src: int, cnt: nat, size: int): Shifted
    requires IsSize(size) && 1 <= cnt && (left ==> cnt <= 8 * size)
  {
    var range := Range(size);
    if left then
      var wide := dst * range + src;
      Shifted(wide * Pow2(cnt) / range % range, dst / Pow2(8 * size - cnt) % 2 == 1, false)
    else
      var wide := src * range + dst;
      Shifted(wide / Pow2(cnt) % range, dst / Pow2(cnt - 1) % 2 == 1, false)
  }

  /** shld by more bits than a 16-bit operand has makes the source shift by a negative count. */
  function ExecDoubleShift(m: Machine, e: Entry): (r: Effect)
    requires m.mem.Valid()
    ensures r.m.mem.Valid()
  {
    var op := e.imm / 256;
    var cnt := (if op == 0xA4 || op == 0xAC then e.imm % 256 else GetReg(m, ECX, 1)) % 32;
    var left := op == 0xA4 || op == 0xA5;
    var addr := Address(m, e);
    var (_, dst) :- ReadRm(m, e, e.size);
    var src := GetReg(m, e.reg, e.size);
    if cnt == 0 then Done(m)
    else if left && cnt > 8 * e.size then Stop(m, Illegal)
    else
      var s := DoubleShiftValue(left, dst, src, cnt, e.size);
      var (m1, _) :- WriteRm(m, e, addr, e.size, s.res);
      Done(m1.(flags := Build(m1.flags, DF, s.cf, false, false, ResultBits(s.res, e.size))))
  }

  function ExecWide(m: Machine, e: Entry): (r: Effect)
    requires m.mem.Valid()
    ensures r.m.mem.Valid()
  {
    match e.fn
    case Imul3 =>
      var (_, src) :- ReadRm(m, e, e.size);
      MultiplyInto(m, e, Signed(src, e.size) * e.imm)
    case Imul2 =>
      var (_, src) :- ReadRm(m, e, e.size);
      MultiplyInto(m, e, Signed(GetReg(m, e.reg, e.size), e.size) * Signed(src, e.size))
    case MulDiv =>
      var (_, src) :- ReadRm(m, e, e.size);
      ExecMulDiv(m, e, src)
    case BtR => ExecBit(m, e, e.imm, GetReg(m, e.reg, e.size))
    case BtI => ExecBit(m, e, e.reg, Mask32(e.imm))
    case BitScan => ExecScan(m, e)
    case DoubleShift => ExecDoubleShift(m, e)
    case _ => Stop(m, Illegal)
  }

  function MultiplyInto(m: Machine, e: Entry, res: int): (r: Effect)
    requires m.mem.Valid()
    ensures r.m.mem.Valid()
  {
    Done(SetReg(m.(flags := MulFlags(m.flags, res % Range(e.size), !(-Half(e.size) <= res < Half(e.size)), e.size)),
                e.reg, e.size, res))
  }

  // ---- String instructions -----------------------------------------------------------------------------

  predicate IsByteString(op: nat) {
    op == 0xA4 || op == 0xA6 || op == 0xAA || op == 0xAC || op == 0xAE
  }

  predicate Compares(op: nat) {
    op == 0xA6 || op == 0xA7 || op == 0xAE || op == 0xAF
  }

  /** One element of movs, stos, lods, cmps or scas. */
  function StringElement(m: Machine, op: nat, size: int, delta: int): (r: Effect)
    requires m.mem.Valid() && IsSize(size)
    ensures r.m.mem.Valid()
  {
    var si, di := R(m, ESI), R(m, EDI);
    if op == 0xA4 || op == 0xA5 then
      var (_, v) :- ReadMem(m, si, size);
      var (m1, _) :- WriteMem(m, di, size, v);
      Done(Set32(Set32(m1, ESI, si + delta), EDI, di + delta))
    else if op == 0xAA || op == 0xAB then
      var (m1, _) :- WriteMem(m, di, size, GetReg(m, EAX, size));
      Done(Set32(m1, EDI, di + delta))
    else if op == 0xAC || op == 0xAD then
      var (_, v) :- ReadMem(m, si, size);
      Done(Set32(SetReg(m, EAX, size, v), ESI, si + delta))
    else if op == 0xA6 || op == 0xA7 then
      var (_, a) :- ReadMem(m, si, size);
      var (_, b) :- ReadMem(m, di, size);
      Done(Set32(Set32(m, ESI, si + delta), EDI, di + delta).(flags := SubFlags(m.flags, a, b, 0, size)))
    else if op == 0xAE || op == 0xAF then
      var (_, b) :- ReadMem(m, di, size);
      Done(Set32(m, EDI, di + delta).(flags := SubFlags(m.flags, GetReg(m, EAX, size), b, 0, size)))
    else Stop(m, Illegal)
  }

  /** The element loop; with a repeat prefix ECX counts down and comparisons may end it early. */
  function StringLoop(m: Machine, op: nat, size: int, delta: int, rep: int, cnt: nat): (r: Effect)
    requires m.mem.Valid() && IsSize(size)
    ensures r.m.mem.Valid()
    decreases cnt
  {
    if cnt == 0 then Done(m)
    else
      var (m1, _) :- StringElement(m, op, size, delta);
      if rep == 0 then StringLoop(m1, op, size, delta, rep, cnt - 1)
      else
        var m2 := Set32(m1, ECX, cnt - 1);
        var zf := Has(m2.flags, ZF);
        if Compares(op) && ((rep == 0xF3 && !zf) || (rep == 0xF2 && zf)) then Done(m2)
        else StringLoop(m2, op, size, delta, rep, cnt - 1)
  }

  /** The block form of rep movs. */
  function MoveBlock(m: Machine, n: nat): (r: Effect)
    requires m.mem.Valid()
    ensures r.m.mem.Valid()
  {
    var src, dst := R(m, ESI), R(m, EDI);
    match m.mem.Read(src, n)
    case None => Stop(m, SegFault)
    case Some(data) =>
      var (m1, _) :- WriteBytes(m, dst, data);
      Done(Set32(Set32(Set32(m1, ESI, src + n), EDI, dst + n), ECX, 0))
  }

  /** cnt copies of a byte group. */
  function Repeat(bs: seq<Byte>, cnt: nat): (r: seq<Byte>)
    ensures |r| == |bs| * cnt
  {
    if cnt == 0 then [] else bs + Repeat(bs, cnt - 1)
  }

  /** The block form of rep stos. */
  function FillBlock(m: Machine, size: int, cnt: nat): (r: Effect)
    requires m.mem.Valid() && IsSize(size)
    ensures r.m.mem.Valid()
  {
    var dst := R(m, EDI);
    var chunk := Repeat(Bytes(GetReg(m, EAX, size), size), cnt);
    var (m1, _) :- WriteBytes(m, dst, chunk);
    Done(Set32(Set32(m1, EDI, dst + |chunk|), ECX, 0))
  }

  function Distance(a: int, b: int): nat {
    if a >= b then a - b else b - a
  }

  function ExecString(m: Machine, op: nat, opsize: OperandSize, rep: int): (r: Effect)
    requires m.mem.Valid()
    ensures r.m.mem.Valid()
  {
    var size := if IsByteString(op) then 1 else opsize;
    var back := Has(m.flags, DF);
    var delta := if back then -size else size;
    var cnt := if rep != 0 then m.regs[ECX] else 1;
    if cnt == 0 then Done(m)
    else if !back && rep != 0 && (op == 0xA4 || op == 0xA5) && cnt > 1
            && Distance(m.regs[EDI], m.regs[ESI]) >= cnt * size then MoveBlock(m, cnt * size)
    else if !back && rep != 0 && (op == 0xAA || op == 0xAB) && cnt > 1 then FillBlock(m, size, cnt)
    else StringLoop(m, op, size, delta, rep, cnt)
  }

  // ---- Dispatch ---------------------------------------------------------------------------------------------

  /** Running the handler of an entry; the instruction pointer is already past the instruction. */
  function Execute(m: Machine, e: Entry): (r: Effect)
    requires m.mem.Valid()
    ensures r.m.mem.Valid()
  {
    match e.fn
    case AluRmR(_) => ExecAlu(m, e)
    case AluRRm(_) => ExecAlu(m, e)
    case AluRmImm(_) => ExecAlu(m, e)
    case TestRmR => ExecAlu(m, e)
    case TestRmImm => ExecAlu(m, e)
    case Inc => ExecAlu(m, e)
    case Dec => ExecAlu(m, e)
    case Not => ExecAlu(m, e)
    case Neg => ExecAlu(m, e)
    case Shift(_, _) => ExecAlu(m, e)
    case CallRm => ExecFlow(m, e)
    case JmpRm => ExecFlow(m, e)
    case Jcc(_) => ExecFlow(m, e)
    case CallRel => ExecFlow(m, e)
    case Jmp => ExecFlow(m, e)
    case Ret => ExecFlow(m, e)
    case RetN => ExecFlow(m, e)
    case Loop(_) => ExecFlow(m, e)
    case Interrupt => ExecFlow(m, e)
    case Halt => ExecFlow(m, e)
    case Nop => ExecFlow(m, e)
    case Bad => ExecFlow(m, e)
    case PushR => ExecStack(m, e)
    case PopR => ExecStack(m, e)
    case PushImm => ExecStack(m, e)
    case PushRm => ExecStack(m, e)
    case PushRm16 => ExecStack(m, e)
    case PopRm => ExecStack(m, e)
    case Leave => ExecStack(m, e)
    case Enter(_) => ExecStack(m, e)
    case Pushf => ExecStack(m, e)
    case Popf => ExecStack(m, e)
    case Clc => ExecFlag(m, e)
    case Stc => ExecFlag(m, e)
    case Cld => ExecFlag(m, e)
    case Std => ExecFlag(m, e)
    case Sahf => ExecFlag(m, e)
    case Lahf => ExecFlag(m, e)
    case Imul3 => ExecWide(m, e)
    case Imul2 => ExecWide(m, e)
    case MulDiv => ExecWide(m, e)
    case BtR => ExecWide(m, e)
    case BtI => ExecWide(m, e)
    case BitScan => ExecWide(m, e)
    case DoubleShift => ExecWide(m, e)
    case String(op) => ExecString(m, op, e.size, e.imm)
    case _ => ExecMove(m, e)
  }
}
