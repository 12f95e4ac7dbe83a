/** What the instruction handlers (cpu86.py) mean: laws of registers and operands, comparisons,
    multiplication and division, the stack instructions and the searching string instructions, stated
    without the expressions the handlers compute with. */
module InstructionLaws {
  import opened Words
  import opened Memory
  import opened Decoder
  import opened Flags
  import opened Handlers
  import Shifting

  // ---- Registers and operands --------------------------------------------------------

  /** The 32-bit register a sized register is part of, and its first byte there. */
  function Container(r: Reg, size: int): Reg
    requires IsSize(size)
  {
    if size == 1 && r >= 4 then r - 4 else r
  }

  function FirstByte(r: Reg, size: int): nat
    requires IsSize(size)
  {
    if size == 1 && r >= 4 then 1 else 0
  }

  predicate Apart(r: Reg, size: int, q: Reg, n: int)
    requires IsSize(size) && IsSize(n)
  {
    || Container(r, size) != Container(q, n)
    || FirstByte(r, size) + size <= FirstByte(q, n)
    || FirstByte(q, n) + n <= FirstByte(r, size)
  }

  /** The three parts of a word that a sized write replaces. */
  lemma PartsExact(w: Word, v: int)
    ensures Low16(w, v) % 0x1_0000 == v % 0x1_0000 && Low16(w, v) / 0x1_0000 == w / 0x1_0000
    ensures Low8(w, v) % 0x100 == v % 0x100 && Low8(w, v) / 0x100 == w / 0x100
    ensures High8(w, v) / 0x100 % 0x100 == v % 0x100 && High8(w, v) % 0x100 == w % 0x100
    ensures High8(w, v) / 0x1_0000 == w / 0x1_0000 && Low8(w, v) / 0x1_0000 == w / 0x1_0000
  {
    hide *;
    Low16Exact(w, v);
    Low8Exact(w, v);
    High8Exact(w, v);
  }

  lemma Low16Exact(w: Word, v: int)
    ensures Low16(w, v) % 0x1_0000 == v % 0x1_0000 && Low16(w, v) / 0x1_0000 == w / 0x1_0000
  {
    var i: int := w;
    Shifting.QuotientOf(i / 0x1_0000 * 0x1_0000 + v % 0x1_0000, 0x1_0000, i / 0x1_0000, v % 0x1_0000);
  }

  lemma Low8Exact(w: Word, v: int)
    ensures Low8(w, v) % 0x100 == v % 0x100 && Low8(w, v) / 0x100 == w / 0x100 && Low8(w, v) / 0x1_0000 == w / 0x1_0000
  {
    var i: int := w;
    Shifting.QuotientOf(i / 0x100 * 0x100 + v % 0x100, 0x100, i / 0x100, v % 0x100);
    Shifting.ThroughTwo(i);
    Shifting.ThroughTwo(Low8(w, v));
  }

  lemma High8Exact(w: Word, v: int)
    ensures High8(w, v) / 0x100 % 0x100 == v % 0x100 && High8(w, v) % 0x100 == w % 0x100
    ensures High8(w, v) / 0x1_0000 == w / 0x1_0000
  {
    var i: int := w;
    var x, low := i / 0x1_0000 * 0x100 + v % 0x100, i % 0x100;
    Shifting.QuotientOf(High8(w, v), 0x100, x, low);
    Shifting.QuotientOf(x, 0x100, i / 0x1_0000, v % 0x100);
    Shifting.ThroughTwo(High8(w, v));
  }

  /** A register gives back what was put into it, and no byte outside it changes. */
  lemma RegisterExact(m: Machine, r: Reg, size: int, v: int, q: Reg, n: int)
    requires IsSize(size) && IsSize(n)
    ensures GetReg(SetReg(m, r, size, v), r, size) == v % Range(size)
    ensures Apart(r, size, q, n) ==> GetReg(SetReg(m, r, size, v), q, n) == GetReg(m, q, n)
    ensures size < 4 ==> SetReg(m, r, size, v).regs[Container(r, size)] / 0x1_0000 == m.regs[Container(r, size)] / 0x1_0000
  {
    hide Low16, Low8, High8;
    PartsExact(m.regs[Container(r, size)], v);
  }

  /** An operand, in a register or in memory, gives back what was written to it. */
  lemma OperandExact(m: Machine, e: Entry, size: int, v: int)
    requires m.mem.Valid() && IsSize(size) && WriteRm(m, e, Address(m, e), size, v).Ok?
    ensures var m' := WriteRm(m, e, Address(m, e), size, v).m;
      ReadRm(m', e, size) == Ok(m', v % Range(size))
  {
    hide GetReg, SetReg, Address;
    if e.mod == 3 {
      RegisterExact(m, RegOf(e), size, v, RegOf(e), size);
    } else {
      StoredLoads(m, Address(m, e), size, v);
      SameAddress(m, WriteRm(m, e, Address(m, e), size, v).m, e);
    }
  }

  lemma SameAddress(m: Machine, m': Machine, e: Entry)
    requires m'.regs == m.regs
    ensures Address(m', e) == Address(m, e)
  {
  }

  lemma StoredLoads(m: Machine, a: int, size: int, v: int)
    requires m.mem.Valid() && IsSize(size) && WriteMem(m, a, size, v).Ok?
    ensures var m' := WriteMem(m, a, size, v).m;
      m'.mem.Valid() && m'.regs == m.regs && m'.flags == m.flags && m'.eip == m.eip && m'.mem.Load(a, size) == Some(v % Range(size))
  {
    LoadAfterStore(m.mem, a, size, v);
  }

  /** xchg leaves each operand with the other's old value; a memory operand stays where it was. */
  lemma ExchangeSwaps(m: Machine, e: Entry)
    requires m.mem.Valid() && m.mem.Disjoint() && e.fn == Xchg && ExecMove(m, e).Ok?
    ensures ReadRm(m, e, e.size).Ok? && ExecMove(m, e).m.mem.Valid()
    ensures GetReg(ExecMove(m, e).m, e.reg, e.size) == ReadRm(m, e, e.size).v % Range(e.size)
    ensures e.mod == 3 ==> GetReg(ExecMove(m, e).m, RegOf(e), e.size) == GetReg(m, e.reg, e.size)
    ensures e.mod != 3 ==> ExecMove(m, e).m.mem.Load(Address(m, e), e.size) == Some(GetReg(m, e.reg, e.size))
  {
    hide *;
    ExchangeSteps(m, e);
    var old_ := GetReg(m, e.reg, e.size);
    var m1, a := WriteRm(m, e, Address(m, e), e.size, old_).m, ReadRm(m, e, e.size).v;
    RegisterExact(m1, e.reg, e.size, a, e.reg, e.size);
    if e.mod == 3 { RegistersSwap(m, e); } else { MemorySwaps(m, e, a); }
  }

  lemma RegistersSwap(m: Machine, e: Entry)
    requires m.mem.Valid() && e.mod == 3
    ensures var m1 := WriteRm(m, e, Address(m, e), e.size, GetReg(m, e.reg, e.size)).m;
      var m2 := SetReg(m1, e.reg, e.size, ReadRm(m, e, e.size).v);
      m2.mem.Valid() && GetReg(m2, RegOf(e), e.size) == GetReg(m, e.reg, e.size)
  {
    hide GetReg, SetReg, Address;
    var old_ := GetReg(m, e.reg, e.size);
    var m1, a := SetReg(m, RegOf(e), e.size, old_), ReadRm(m, e, e.size).v;
    RegisterExact(m, RegOf(e), e.size, old_, RegOf(e), e.size);
    RegisterExact(m1, e.reg, e.size, a, RegOf(e), e.size);
    RegisterBound(m, e.reg, e.size);
  }

  lemma RegisterBound(m: Machine, r: Reg, size: int)
    requires IsSize(size)
    ensures GetReg(m, r, size) % Range(size) == GetReg(m, r, size)
  {
  }

  lemma MemorySwaps(m: Machine, e: Entry, a: Word)
    requires m.mem.Valid() && e.mod != 3 && WriteRm(m, e, Address(m, e), e.size, GetReg(m, e.reg, e.size)).Ok?
    ensures var m1 := WriteRm(m, e, Address(m, e), e.size, GetReg(m, e.reg, e.size)).m;
      var m2 := SetReg(m1, e.reg, e.size, a);
      m2.mem.Valid() && m2.mem.Load(Address(m, e), e.size) == Some(GetReg(m, e.reg, e.size))
  {
    hide GetReg, SetReg, Address;
    StoredLoads(m, Address(m, e), e.size, GetReg(m, e.reg, e.size));
    RegisterBound(m, e.reg, e.size);
  }

  lemma ExchangeSteps(m: Machine, e: Entry)
    requires m.mem.Valid() && e.fn == Xchg && ExecMove(m, e).Ok?
    ensures ReadRm(m, e, e.size).Ok? && WriteRm(m, e, Address(m, e), e.size, GetReg(m, e.reg, e.size)).Ok?
    ensures ExecMove(m, e).m
         == SetReg(WriteRm(m, e, Address(m, e), e.size, GetReg(m, e.reg, e.size)).m, e.reg, e.size, ReadRm(m, e, e.size).v)
  {
    hide ReadRm, WriteRm, Address, GetReg, SetReg;
  }

  // ---- Comparisons -----------------------------------------------------------------------

  /** After a comparison the condition codes tell how the operands compare, unsigned and signed, at every
      operand size. */
  lemma ComparisonExact(f: Eflags, a: int, b: int, size: int)
    requires IsSize(size) && 0 <= a < Range(size) && 0 <= b < Range(size)
    ensures var g := SubFlags(f, a, b, 0, size);
      var d := Signed(a, size) - Signed(b, size);
      && (Condition(0, g) <==> !(-Half(size) <= d < Half(size))) && (Condition(1, g) <==> -Half(size) <= d < Half(size))
      && (Condition(2, g) <==> a < b) && (Condition(3, g) <==> a >= b)
      && (Condition(4, g) <==> a == b) && (Condition(5, g) <==> a != b)
      && (Condition(6, g) <==> a <= b) && (Condition(7, g) <==> a > b)
      && (Condition(12, g) <==> d < 0) && (Condition(13, g) <==> d >= 0)
      && (Condition(14, g) <==> d <= 0) && (Condition(15, g) <==> d > 0)
  {
    hide Build, ResultBits, EvenParity, SubFlags, Less;
    BelowOrEqual(SubFlags(f, a, b, 0, size));
    ComparisonFlags(f, a, b, size);
    SignsDecide(a, b, size);
  }

  lemma ComparisonFlags(f: Eflags, a: int, b: int, size: int)
    requires IsSize(size) && 0 <= a < Range(size) && 0 <= b < Range(size)
    ensures var g, t := SubFlags(f, a, b, 0, size), (a - b) % Range(size);
      && Has(g, CF) == (a < b) && Has(g, ZF) == (t == 0) && Has(g, SF) == SignBit(t, size)
      && Has(g, OF) == (SignBit(a, size) != SignBit(b, size) && SignBit(a, size) != SignBit(t, size))
  {
    hide Build, ResultBits, EvenParity, SignBit, Has;
    var t := (a - b) % Range(size);
    BuildBits(f, a - b < 0, SignBit(a, size) != SignBit(b, size) && SignBit(a, size) != SignBit(t, size),
              a % 16 - b % 16 < 0, t, size);
  }

  lemma SignsDecide(a: int, b: int, size: int)
    requires IsSize(size) && 0 <= a < Range(size) && 0 <= b < Range(size)
    ensures var t, d := (a - b) % Range(size), Signed(a, size) - Signed(b, size);
      var over := SignBit(a, size) != SignBit(b, size) && SignBit(a, size) != SignBit(t, size);
      && (t == 0 <==> a == b) && (over <==> !(-Half(size) <= d < Half(size)))
      && (SignBit(t, size) != over <==> d < 0)
  {
    SignsOf(a, b, if a < b then a - b + Range(size) else a - b, Half(size));
  }

  lemma SignsOf(a: int, b: int, t: int, h: int)
    requires h > 0 && 0 <= a < 2 * h && 0 <= b < 2 * h && t == if a < b then a - b + 2 * h else a - b
    ensures var d := (if a >= h then a - 2 * h else a) - (if b >= h then b - 2 * h else b);
      var over := (a >= h) != (b >= h) && (a >= h) != (t >= h);
      && (t == 0 <==> a == b) && (over <==> !(-h <= d < h)) && ((t >= h) != over <==> d < 0)
      && (a - b) % (2 * h) == t
  {
    Shifting.QuotientOf(a - b, 2 * h, if a < b then -1 else 0, t);
  }

  /** Of a conditional jump and the one with the opposite condition, exactly one jumps, whatever the flags. */
  lemma ConditionsPair(m: Machine, e: Entry, cc: nat)
    requires m.mem.Valid() && cc % 2 == 0 && cc < 16 && e.fn == Jcc(cc) && e.imm != m.eip
    ensures ExecFlow(m, e) == Done(m.(eip := e.imm)) <==> ExecFlow(m, e.(fn := Jcc(cc + 1))) == Done(m)
    ensures ExecFlow(m, e) == Done(m) <==> ExecFlow(m, e.(fn := Jcc(cc + 1))) == Done(m.(eip := e.imm))
  {
    ConditionsOppose(m.flags, cc);
    assert m.(eip := e.imm) != m;
  }

  lemma ConditionsOppose(f: Eflags, cc: nat)
    requires cc % 2 == 0 && cc < 16
    ensures Condition(cc + 1, f) == !Condition(cc, f)
  {
    hide Less;
  }

  // ---- Sign extension -----------------------------------------------------------------------

  /** movzx keeps the unsigned value, movsx the signed one. */
  lemma ExtensionExact(m: Machine, e: Entry, signed: bool, dst: OperandSize)
    requires m.mem.Valid() && e.fn == Movx(signed, dst) && e.size < dst && ExecMove(m, e).Ok?
    requires ReadRm(m, e, e.size).Ok? && ReadRm(m, e, e.size).v < Range(e.size)
    ensures var v := GetReg(ExecMove(m, e).m, e.reg, dst);
      && (!signed ==> v == ReadRm(m, e, e.size).v)
      && (signed ==> Signed(v, dst) == Signed(ReadRm(m, e, e.size).v, e.size))
  {
    var v := ReadRm(m, e, e.size).v;
    RegisterExact(m, e.reg, dst, if signed then Signed(v, e.size) else v, e.reg, dst);
    hide GetReg, SetReg, ReadRm;
    SignKept(Signed(v, e.size), dst);
  }

  lemma SignKept(v: int, size: int)
    requires IsSize(size) && -Half(size) <= v < Half(size)
    ensures Signed(v % Range(size), size) == v
  {
    Shifting.QuotientOf(v, Range(size), if v < 0 then -1 else 0, if v < 0 then v + Range(size) else v);
  }

  /** cbw and cwde double the width of the accumulator, cwd and cdq spread its sign over EDX: the signed
      value stays. */
  lemma WideningExact(m: Machine, e: Entry)
    requires m.mem.Valid() && (e.fn == Cbw || e.fn == Cwd) && (e.size == 2 || e.size == 4) && ExecMove(m, e).Ok?
    ensures var m' := ExecMove(m, e).m;
      && (e.fn == Cbw ==> Signed(GetReg(m', EAX, e.size), e.size) == Signed(GetReg(m, EAX, e.size / 2), e.size / 2))
      && (e.fn == Cwd ==> SignedPair(Dividend(m', e.size), e.size) == Signed(GetReg(m, EAX, e.size), e.size))
  {
    if e.fn == Cbw {
      var v := Signed(GetReg(m, EAX, e.size / 2), e.size / 2);
      RegisterExact(m, EAX, e.size, v, EAX, e.size);
      hide GetReg, SetReg;
      SignKept(v, e.size);
    } else {
      var fill := if SignBit(GetReg(m, EAX, e.size), e.size) then Range(e.size) - 1 else 0;
      RegisterExact(m, EDX, e.size, fill, EAX, e.size);
      hide GetReg, SetReg;
      SpreadSign(GetReg(m, EAX, e.size), e.size);
    }
  }

  /** The signed reading of a double-width number. */
  function SignedPair(v: int, size: int): int
    requires IsSize(size)
  {
    if v >= Range(size) * Half(size) then v - Range(size) * Range(size) else v
  }

  lemma SpreadSign(v: int, size: int)
    requires IsSize(size) && 0 <= v < Range(size)
    ensures SignedPair((if SignBit(v, size) then Range(size) - 1 else 0) * Range(size) + v, size) == Signed(v, size)
    ensures (if SignBit(v, size) then Range(size) - 1 else 0) % Range(size) == if SignBit(v, size) then Range(size) - 1 else 0
  {
  }

  // ---- Multiplication and division --------------------------------------------------------------

  /** mul and imul leave the whole product in the double-width accumulator; CF and OF tell whether it
      needs the upper half. */
  lemma MultiplicationExact(m: Machine, e: Entry, src: Word)
    requires m.mem.Valid() && (e.reg == 4 || e.reg == 5) && src < Range(e.size) && ExecMulDiv(m, e, src).Ok?
    ensures var m', a := ExecMulDiv(m, e, src).m, GetReg(m, EAX, e.size);
      var x, y := Signed(a, e.size), Signed(src, e.size);
      && (e.reg == 4 ==> Dividend(m', e.size) == a * src)
      && (e.reg == 5 ==> SignedPair(Dividend(m', e.size), e.size) == x * y)
      && Has(m'.flags, CF) == Has(m'.flags, OF)
      && Has(m'.flags, CF) == if e.reg == 4 then a * src >= Range(e.size) else !(-Half(e.size) <= x * y < Half(e.size))
  {
    var a := GetReg(m, EAX, e.size);
    MultiplicationStores(m, e, src);
    hide ExecMulDiv, Dividend, Product, GetReg, MulFlags;
    MulCarry(m.flags);
    if e.reg == 4 {
      UnsignedProduct(m, a, src, e.size);
    } else {
      SignedProduct(m, Signed(a, e.size), Signed(src, e.size), e.size);
    }
  }

  /** What mul and imul store. */
  lemma MultiplicationStores(m: Machine, e: Entry, src: Word)
    requires m.mem.Valid() && (e.reg == 4 || e.reg == 5)
    ensures var a := GetReg(m, EAX, e.size);
      var res := if e.reg == 4 then a * src else Signed(a, e.size) * Signed(src, e.size);
      var wide := if e.reg == 4 then res / Range(e.size) != 0 else !(-Half(e.size) <= res < Half(e.size));
      ExecMulDiv(m, e, src) == Done(Product(m, e.size, res).(flags := MulFlags(m.flags, res % Range(e.size), wide, e.size)))
  {
    hide Product, MulFlags, GetReg;
  }

  lemma UnsignedProduct(m: Machine, a: Word, b: Word, size: int)
    requires IsSize(size) && a < Range(size) && b < Range(size)
    ensures forall f :: Dividend(Product(m, size, a * b).(flags := f), size) == a * b
    ensures (a * b / Range(size) != 0) == (a * b >= Range(size))
  {
    ProductBound(a, b, Range(size));
    QuotientZero(a * b, Range(size));
    ProductRead(m, size, a * b);
    Shifting.QuotientOf(a * b, Range(size) * Range(size), 0, a * b);
    hide Product;
    FlagsApart(Product(m, size, a * b), size);
  }

  lemma SignedProduct(m: Machine, x: int, y: int, size: int)
    requires IsSize(size) && -Half(size) <= x < Half(size) && -Half(size) <= y < Half(size)
    ensures forall f :: SignedPair(Dividend(Product(m, size, x * y).(flags := f), size), size) == x * y
  {
    SignedProductBound(x, y, Half(size));
    ProductRead(m, size, x * y);
    PairKept(x * y, size);
    hide Product;
    FlagsApart(Product(m, size, x * y), size);
  }

  lemma FlagsApart(m: Machine, size: int)
    requires IsSize(size)
    ensures forall f :: Dividend(m.(flags := f), size) == Dividend(m, size)
  {
  }

  lemma Grows(a: int, b: int, c: int)
    requires a >= 0 && b <= c
    ensures a * b <= a * c
  {
  }

  lemma QuotientZero(x: int, r: int)
    requires r > 0 && x >= 0
    ensures (x / r != 0) == (x >= r)
  {
    Shifting.DivisionLaw(x, r);
    if x < r { Shifting.QuotientOf(x, r, 0, x); }
  }

  lemma ProductBound(a: int, b: int, r: int)
    requires 0 <= a < r && 0 <= b < r
    ensures 0 <= a * b < r * r
  {
    Grows(a, b, r);
    Grows(r, a, r - 1);
    Grows(a, 0, b);
    assert r * (r - 1) == r * r - r;
  }

  lemma SignedProductBound(x: int, y: int, h: int)
    requires h > 0 && -h <= x < h && -h <= y < h
    ensures -(2 * h) * h < x * y < 2 * h * h
  {
    var u, v := if x < 0 then -x else x, if y < 0 then -y else y;
    Grows(u, v, h);
    Grows(h, u, h);
    Grows(u, 0, v);
    assert x * y == u * v || x * y == -(u * v) by { SignsOfProduct(x, y); }
    assert h * h > 0 && 2 * h * h == h * h + h * h && -(2 * h) * h == -(2 * h * h);
  }

  lemma SignsOfProduct(x: int, y: int)
    ensures -x * y == -(x * y) && x * -y == -(x * y) && -x * -y == x * y
  {
  }

  /** What the double-width accumulator holds after a product is stored in it. */
  lemma ProductRead(m: Machine, size: int, res: int)
    requires IsSize(size)
    ensures Dividend(Product(m, size, res), size) == res % (Range(size) * Range(size))
  {
    if size == 1 {
      RegisterExact(m, EAX, 2, res, EAX, 2);
    } else {
      var m1 := SetReg(m, EAX, size, res);
      RegisterExact(m, EAX, size, res, EDX, size);
      RegisterExact(m1, EDX, size, res / Range(size), EAX, size);
      hide GetReg, SetReg;
      Halves(res, Range(size));
    }
  }

  lemma Halves(x: int, r: int)
    requires r > 0
    ensures x / r % r * r + x % r == x % (r * r)
  {
    var q := x / r;
    var q1, q0, low := q / r, q % r, x % r;
    Shifting.DivisionLaw(x, r);
    Shifting.DivisionLaw(q, r);
    Regrouped(q1, q0, low, r);
    BelowSquare(q0, low, r);
    Shifting.QuotientOf(x, r * r, q1, q0 * r + low);
  }

  lemma Regrouped(q1: int, q0: int, low: int, r: int)
    ensures (q1 * r + q0) * r + low == q1 * (r * r) + (q0 * r + low)
  {
  }

  lemma BelowSquare(q0: int, low: int, r: int)
    requires 0 <= q0 < r && 0 <= low < r
    ensures 0 <= q0 * r + low < r * r
  {
    Grows(r, q0, r - 1);
    Grows(r, 0, q0);
    assert r * (r - 1) == r * r - r;
    Commuted(q0, r);
  }

  lemma Commuted(a: int, b: int)
    ensures a * b == b * a
  {
  }

  lemma PairKept(v: int, size: int)
    requires IsSize(size) && -Range(size) * Half(size) <= v < Range(size) * Half(size)
    ensures SignedPair(v % (Range(size) * Range(size)), size) == v
  {
    var w := Range(size) * Range(size);
    Shifting.QuotientOf(v, w, if v < 0 then -1 else 0, if v < 0 then v + w else v);
  }

  lemma MulCarry(f: Eflags)
    ensures forall r, wide, size | IsSize(size) ::
      Has(MulFlags(f, r, wide, size), CF) == wide && Has(MulFlags(f, r, wide, size), OF) == wide
  {
    forall r, wide, size | IsSize(size)
      ensures Has(MulFlags(f, r, wide, size), CF) == wide && Has(MulFlags(f, r, wide, size), OF) == wide
    {
      BuildBits(f, wide, wide, false, r, size);
    }
  }

  /** q and r are the truncating quotient and remainder of num by d. */
  predicate IsDivision(num: int, d: int, q: int, r: int) {
    && num == q * d + r
    && (if r < 0 then -r else r) < (if d < 0 then -d else d)
    && (r == 0 || (r < 0) == (num < 0))
  }

  function QuotientPart(m: Machine, size: int): Word
    requires IsSize(size)
  {
    GetReg(m, EAX, size)
  }

  /** AH, or DX and EDX. */
  function RemainderPart(m: Machine, size: int): Word
    requires IsSize(size)
  {
    if size == 1 then GetReg(m, 4, 1) else GetReg(m, EDX, size)
  }

  /** div faults exactly if the divisor is zero or the quotient does not fit, and otherwise leaves quotient
      and remainder. */
  lemma DivisionExact(m: Machine, e: Entry, src: Word)
    requires m.mem.Valid() && e.reg == 6 && src < Range(e.size)
    ensures var num, r := Dividend(m, e.size), ExecMulDiv(m, e, src);
      && (r.Ok? <==> src != 0 && num < Range(e.size) * src)
      && (!r.Ok? ==> r == Stop(m, DivideError))
      && (r.Ok? ==> num == QuotientPart(r.m, e.size) * src + RemainderPart(r.m, e.size) && RemainderPart(r.m, e.size) < src)
  {
    var num, size := Dividend(m, e.size), e.size;
    if src != 0 {
      Shifting.DivisionLaw(num, src);
      QuotientFits(num, src, Range(size));
      QuotientRead(m, size, num / src, num % src);
      hide GetReg, SetReg, Dividend, Quotient;
      Small(num / src, Range(size));
      Small(num % src, Range(size));
    }
  }

  lemma Small(x: int, r: int)
    ensures 0 <= x < r ==> x % r == x
  {
    if 0 <= x < r { Shifting.QuotientOf(x, r, 0, x); }
  }

  lemma QuotientFits(num: int, d: int, r: int)
    requires d > 0 && num >= 0 && r > 0
    ensures num / d >= 0 && (num / d < r <==> num < r * d)
  {
    Shifting.DivisionLaw(num, d);
    var q := num / d;
    if q < r { Grows(d, q, r - 1); } else { Grows(d, r, q); }
    if q < 0 { Grows(d, q, -1); }
  }

  lemma QuotientRead(m: Machine, size: int, q: int, r: int)
    requires IsSize(size)
    ensures QuotientPart(Quotient(m, size, q, r), size) == q % Range(size)
    ensures RemainderPart(Quotient(m, size, q, r), size) == r % Range(size)
  {
    var m1 := SetReg(m, EAX, size, q);
    var rest: Reg := if size == 1 then 4 else EDX;
    RegisterExact(m, EAX, size, q, EAX, size);
    RegisterExact(m1, rest, size, r, EAX, size);
    RegisterExact(m1, rest, size, r, rest, size);
    hide GetReg, SetReg;
  }

  /** The truncating division is the only one. */
  lemma TruncatedIsDivision(num: int, d: int, q: int, r: int)
    requires d != 0
    ensures IsDivision(num, d, q, r) <==> q == TruncDiv(num, d) && r == num - q * d
  {
    var n, e := if num < 0 then -num else num, if d < 0 then -d else d;
    Shifting.DivisionLaw(n, e);
    var t, u := n / e, n % e;
    assert TruncDiv(num, d) == if (num < 0) != (d < 0) then -t else t;
    SignsOfProduct(t, e);
    SignsOfProduct(t, d);
    if IsDivision(num, d, q, r) {
      var q', r' := if (num < 0) != (d < 0) then -q else q, if num < 0 then -r else r;
      SignsOfProduct(q, d);
      assert n == q' * e + r';
      Shifting.QuotientOf(n, e, q', r');
    }
  }

  /** idiv, signed: it faults exactly if no quotient in range exists, and otherwise leaves the quotient
      truncated toward zero and a remainder with the sign of the dividend. */
  lemma SignedDivisionExact(m: Machine, e: Entry, src: Word)
    requires m.mem.Valid() && e.reg == 7 && src < Range(e.size)
    ensures var num, d, r := SignedPair(Dividend(m, e.size), e.size), Signed(src, e.size), ExecMulDiv(m, e, src);
      && (r.Ok? <==> exists q, rem :: IsDivision(num, d, q, rem) && -Half(e.size) <= q < Half(e.size))
      && (!r.Ok? ==> r == Stop(m, DivideError))
      && (r.Ok? ==> IsDivision(num, d, Signed(QuotientPart(r.m, e.size), e.size), Signed(RemainderPart(r.m, e.size), e.size)))
  {
    var num, d, size := SignedPair(Dividend(m, e.size), e.size), Signed(src, e.size), e.size;
    SignedDivisionStores(m, e, src);
    hide ExecMulDiv, Dividend, Quotient, QuotientPart, RemainderPart, TruncDiv;
    if d != 0 {
      var q := TruncDiv(num, d);
      var rem := num - q * d;
      TruncatedIsDivision(num, d, q, rem);
      forall q', r' | IsDivision(num, d, q', r') ensures q' == q { TruncatedIsDivision(num, d, q', r'); }
      if -Half(size) <= q < Half(size) {
        QuotientRead(m, size, q, rem);
        SignKept(q, size);
        SignKept(rem, size);
      }
    }
  }

  lemma SignedDivisionStores(m: Machine, e: Entry, src: Word)
    requires m.mem.Valid() && e.reg == 7 && src < Range(e.size)
    ensures var num, d := SignedPair(Dividend(m, e.size), e.size), Signed(src, e.size);
      && (d == 0 <==> src == 0)
      && ExecMulDiv(m, e, src) ==
           if d == 0 || !(-Half(e.size) <= TruncDiv(num, d) < Half(e.size)) then Stop(m, DivideError)
           else Done(Quotient(m, e.size, TruncDiv(num, d), num - TruncDiv(num, d) * d))
  {
    hide Quotient, GetReg, TruncDiv, Dividend;
  }

  // ---- The stack --------------------------------------------------------------------------------

  /** A later pop that finds the stack pointer and the word as a push left them gets the word and the old
      stack pointer back. */
  lemma PushPops(m: Machine, size: int, v: int, m2: Machine)
    requires m.mem.Valid() && m2.mem.Valid() && IsSize(size) && Push(m, size, v).Ok?
    requires var m1 := Push(m, size, v).m;
      R(m2, ESP) == R(m1, ESP) && m2.mem.Load(R(m1, ESP), size) == m1.mem.Load(R(m1, ESP), size)
    ensures Pop(m2, size) == Ok(m2.(regs := m2.regs[ESP := m.regs[ESP]]), v % Range(size))
  {
    hide Push, Pop;
    PushStores(m, size, v);
    PopLoads(m2, size, v % Range(size));
    assert Mask32(R(m2, ESP) + size) == m.regs[ESP];
  }

  lemma PushStores(m: Machine, size: int, v: int)
    requires m.mem.Valid() && IsSize(size) && Push(m, size, v).Ok?
    ensures var m1 := Push(m, size, v).m;
      && R(m1, ESP) == (R(m, ESP) - size) % TWO32 && m1.mem.Valid() && m1.mem.Load(R(m1, ESP), size) == Some(v % Range(size))
      && R(m, ESP) == if R(m1, ESP) + size < TWO32 then R(m1, ESP) + size else R(m1, ESP) + size - TWO32
  {
    hide WriteMem;
    StoredLoads(m, Mask32(R(m, ESP) - size), size, v);
  }

  lemma PopLoads(m: Machine, size: int, v: Word)
    requires m.mem.Valid() && IsSize(size) && m.mem.Load(R(m, ESP), size) == Some(v)
    ensures Pop(m, size) == Ok(Set32(m, ESP, R(m, ESP) + size), v)
  {
  }

  /** A call returns behind itself, with the stack pointer it started from (and past the arguments, for
      `ret n`), however much runs in between, as long as that leaves the stack pointer and the return
      address as it found them. */
  lemma CallReturns(m: Machine, call: Entry, m1: Machine, m2: Machine, ret: Entry)
    requires m.mem.Valid() && m2.mem.Valid() && (call.fn == CallRel || call.fn == CallRm) && ExecFlow(m, call) == Done(m1)
    requires R(m2, ESP) == R(m1, ESP) && m2.mem.Load(R(m1, ESP), 4) == m1.mem.Load(R(m1, ESP), 4)
    requires ret.fn == Ret || ret.fn == RetN
    ensures ExecFlow(m2, ret) == Done(Resumed(m2, Mask32(m.regs[ESP] + if ret.fn == RetN then ret.imm else 0), Mask32(m.eip)))
  {
    hide *;
    CallPushes(m, call, m1);
    AfterCall(m, m1, m2);
    Returns(m2, ret, m.regs[ESP], Mask32(m.eip));
  }

  lemma AfterCall(m: Machine, m1: Machine, m2: Machine)
    requires m.mem.Valid() && m2.mem.Valid() && Push(m, 4, m.eip).Ok? && m1 == Push(m, 4, m.eip).m.(eip := m1.eip)
    requires R(m2, ESP) == R(m1, ESP) && m2.mem.Load(R(m1, ESP), 4) == m1.mem.Load(R(m1, ESP), 4)
    ensures Pop(m2, 4) == Ok(m2.(regs := m2.regs[ESP := m.regs[ESP]]), Mask32(m.eip))
  {
    hide Push, Pop;
    PushPops(m, 4, m.eip, m2);
  }

  function Resumed(m: Machine, esp: Word, eip: Word): Machine {
    m.(regs := m.regs[ESP := esp], eip := eip)
  }

  lemma CallPushes(m: Machine, call: Entry, m1: Machine)
    requires m.mem.Valid() && (call.fn == CallRel || call.fn == CallRm) && ExecFlow(m, call) == Done(m1)
    ensures Push(m, 4, m.eip).Ok?
    ensures m1 == Push(m, 4, m.eip).m.(eip := m1.eip)
  {
    hide Push, ReadRm;
  }

  lemma Returns(m: Machine, ret: Entry, esp: Word, eip: Word)
    requires m.mem.Valid() && Pop(m, 4) == Ok(m.(regs := m.regs[ESP := esp]), eip) && (ret.fn == Ret || ret.fn == RetN)
    ensures ExecFlow(m, ret) == Done(Resumed(m, Mask32(esp + if ret.fn == RetN then ret.imm else 0), eip))
  {
    hide ExecFlow, Pop, Mask32, Resumed;
    Unmoved(esp);
    if ret.fn == Ret { ReturnsPlain(m, ret, esp, eip); } else { ReturnsPast(m, ret, esp, eip); }
  }

  lemma Unmoved(esp: Word)
    ensures Mask32(esp + 0) == esp
  {
  }

  lemma ReturnsPlain(m: Machine, ret: Entry, esp: Word, eip: Word)
    requires m.mem.Valid() && Pop(m, 4) == Ok(m.(regs := m.regs[ESP := esp]), eip) && ret.fn == Ret
    ensures ExecFlow(m, ret) == Done(Resumed(m, esp, eip))
  {
    hide Pop;
  }

  lemma ReturnsPast(m: Machine, ret: Entry, esp: Word, eip: Word)
    requires m.mem.Valid() && Pop(m, 4) == Ok(m.(regs := m.regs[ESP := esp]), eip) && ret.fn == RetN
    ensures ExecFlow(m, ret) == Done(Resumed(m, Mask32(esp + ret.imm), eip))
  {
    hide Pop, Mask32;
    assert m.regs[ESP := esp][ESP := Mask32(esp + ret.imm)] == m.regs[ESP := Mask32(esp + ret.imm)];
  }

  /** leave undoes enter at level 0, whatever has been pushed since, as long as EBP and the saved word are
      intact. */
  lemma EnterLeaves(m: Machine, alloc: int, m2: Machine, leave: Entry)
    requires m.mem.Valid() && m2.mem.Valid() && ExecEnter(m, 0, alloc).Ok? && leave.fn == Leave
    requires var m1 := ExecEnter(m, 0, alloc).m;
      R(m2, EBP) == R(m1, EBP) && m2.mem.Load(R(m1, EBP), 4) == m1.mem.Load(R(m1, EBP), 4)
    ensures ExecStack(m2, leave) == Done(m2.(regs := m2.regs[ESP := m.regs[ESP]][EBP := m.regs[EBP]]))
  {
    hide ExecEnter, ExecStack, Push, Pop, Mask32;
    EntersFrame(m, alloc);
    var m3 := m2.(regs := m2.regs[ESP := m2.regs[EBP]]);
    PushPops(m, 4, m.regs[EBP], m3);
    Leaves(m2, m3, leave);
    assert m2.regs[ESP := m2.regs[EBP]][ESP := m.regs[ESP]] == m2.regs[ESP := m.regs[ESP]];
  }

  lemma EntersFrame(m: Machine, alloc: int)
    requires m.mem.Valid() && ExecEnter(m, 0, alloc).Ok?
    ensures Push(m, 4, m.regs[EBP]).Ok?
    ensures var p, m1 := Push(m, 4, m.regs[EBP]).m, ExecEnter(m, 0, alloc).m;
      m1.mem == p.mem && m1.regs[EBP] == p.regs[ESP]
  {
    hide Push;
  }

  lemma Leaves(m: Machine, m3: Machine, leave: Entry)
    requires m.mem.Valid() && leave.fn == Leave && m3 == m.(regs := m.regs[ESP := m.regs[EBP]]) && Pop(m3, 4).Ok?
    ensures ExecStack(m, leave) == Done(Pop(m3, 4).m.(regs := Pop(m3, 4).m.regs[EBP := Pop(m3, 4).v]))
  {
    hide Pop;
    assert Set32(m, ESP, m.regs[EBP]) == m3;
  }

  /** popf restores the flags pushf saved, at both sizes, for every state whose flags are well formed. */
  lemma FlagsSaved(m: Machine, pushf: Entry, m2: Machine, popf: Entry)
    requires m.mem.Valid() && m2.mem.Valid() && pushf.fn == Pushf && popf.fn == Popf && popf.size == pushf.size
    requires ExecStack(m, pushf).Ok? && WellFormed(m.flags)
    requires var m1, size := ExecStack(m, pushf).m, if pushf.size == 2 then 2 else 4;
      R(m2, ESP) == R(m1, ESP) && m2.mem.Load(R(m1, ESP), size) == m1.mem.Load(R(m1, ESP), size)
    ensures ExecStack(m2, popf) == Done(m2.(regs := m2.regs[ESP := m.regs[ESP]], flags := m.flags))
  {
    var size := if pushf.size == 2 then 2 else 4;
    hide Push, Pop, FromWord, ToWord;
    PushPops(m, size, ToWord(m.flags), m2);
    SaveRestore(m.flags);
    Small(ToWord(m.flags), Range(size));
  }

  // ---- Searching ----------------------------------------------------------------------------------

  /** Address a after n steps of the given width. */
  function Moved(a: int, delta: int, n: nat): Word {
    Mask32(a + n * delta)
  }

  /** The two values element k of a scas or cmps compares, from the state before the first. */
  function LeftOf(m: Machine, op: nat, size: int, delta: int, k: nat): Option<Word>
    requires m.mem.Valid() && IsSize(size)
  {
    if op == 0xAE || op == 0xAF then Some(GetReg(m, EAX, size)) else m.mem.Load(Moved(R(m, ESI), delta, k), size)
  }

  function RightOf(m: Machine, size: int, delta: int, k: nat): Option<Word>
    requires m.mem.Valid() && IsSize(size)
  {
    m.mem.Load(Moved(R(m, EDI), delta, k), size)
  }

  predicate Comparable(m: Machine, op: nat, size: int, delta: int, k: nat)
    requires m.mem.Valid() && IsSize(size)
  {
    LeftOf(m, op, size, delta, k).Some? && RightOf(m, size, delta, k).Some?
  }

  predicate Same(m: Machine, op: nat, size: int, delta: int, k: nat)
    requires m.mem.Valid() && IsSize(size)
  {
    LeftOf(m, op, size, delta, k) == RightOf(m, size, delta, k)
  }

  /** repne searches for equal elements, repe for different ones. */
  predicate Sought(m: Machine, op: nat, size: int, delta: int, rep: int, k: nat)
    requires m.mem.Valid() && IsSize(size)
  {
    Same(m, op, size, delta, k) == (rep == 0xF2)
  }

  /** The state once n elements have been looked at, `cnt` having been asked for. */
  predicate Searched(m: Machine, r: Machine, op: nat, delta: int, cnt: nat, n: nat) {
    && r.mem == m.mem && r.log == m.log && r.eip == m.eip
    && r.regs[EDI] == Moved(R(m, EDI), delta, n) && r.regs[ECX] == Mask32(cnt - n)
    && r.regs[ESI] == (if op == 0xA6 || op == 0xA7 then Moved(R(m, ESI), delta, n) else m.regs[ESI])
    && forall q: Reg :: q != EDI && q != ECX && q != ESI ==> r.regs[q] == m.regs[q]
  }

  /** The state after one comparison. */
  function NextElement(m: Machine, op: nat, size: int, delta: int, cnt: nat): Machine
    requires m.mem.Valid() && IsSize(size) && Comparable(m, op, size, delta, 0)
  {
    var si := if op == 0xA6 || op == 0xA7 then Moved(R(m, ESI), delta, 1) else m.regs[ESI];
    m.(regs := m.regs[ESI := si][EDI := Moved(R(m, EDI), delta, 1)][ECX := Mask32(cnt - 1)],
       flags := SubFlags(m.flags, LeftOf(m, op, size, delta, 0).value, RightOf(m, size, delta, 0).value, 0, size))
  }

  lemma CompareOne(m: Machine, op: nat, size: int, delta: int, rep: int, cnt: nat)
    requires m.mem.Valid() && IsSize(size) && Compares(op) && rep != 0 && cnt >= 1 && Comparable(m, op, size, delta, 0)
    ensures var m2 := NextElement(m, op, size, delta, cnt);
      && Has(m2.flags, ZF) == Same(m, op, size, delta, 0)
      && StringLoop(m, op, size, delta, rep, cnt) ==
           if (rep == 0xF3 && !Has(m2.flags, ZF)) || (rep == 0xF2 && Has(m2.flags, ZF)) then Done(m2)
           else StringLoop(m2, op, size, delta, rep, cnt - 1)
  {
    var m2 := NextElement(m, op, size, delta, cnt);
    ElementCompared(m, op, size, delta, cnt);
    ZeroIsSame(m, op, size, delta);
    hide StringElement, NextElement, SubFlags, Comparable, Same;
  }

  lemma ElementCompared(m: Machine, op: nat, size: int, delta: int, cnt: nat)
    requires m.mem.Valid() && IsSize(size) && Compares(op) && cnt >= 1 && Comparable(m, op, size, delta, 0)
    ensures StringElement(m, op, size, delta).Ok?
    ensures Set32(StringElement(m, op, size, delta).m, ECX, cnt - 1) == NextElement(m, op, size, delta, cnt)
  {
    FirstMoves(R(m, EDI), delta);
    FirstMoves(R(m, ESI), delta);
    hide SubFlags, GetReg, Moved, Mask32, StringElement;
    if op == 0xA6 || op == 0xA7 {
      CmpsElement(m, op, size, delta, LeftOf(m, op, size, delta, 0).value, RightOf(m, size, delta, 0).value);
    } else {
      ScasElement(m, op, size, delta, RightOf(m, size, delta, 0).value);
      assert m.regs[ESI := m.regs[ESI]] == m.regs;
    }
  }

  lemma CmpsElement(m: Machine, op: nat, size: int, delta: int, a: Word, b: Word)
    requires m.mem.Valid() && IsSize(size) && (op == 0xA6 || op == 0xA7)
    requires m.mem.Load(R(m, ESI), size) == Some(a) && m.mem.Load(R(m, EDI), size) == Some(b)
    ensures StringElement(m, op, size, delta) ==
      Done(m.(regs := m.regs[ESI := Mask32(R(m, ESI) + delta)][EDI := Mask32(R(m, EDI) + delta)], flags := SubFlags(m.flags, a, b, 0, size)))
  {
    hide SubFlags, GetReg, Mask32;
  }

  lemma ScasElement(m: Machine, op: nat, size: int, delta: int, b: Word)
    requires m.mem.Valid() && IsSize(size) && (op == 0xAE || op == 0xAF) && m.mem.Load(R(m, EDI), size) == Some(b)
    ensures StringElement(m, op, size, delta) ==
      Done(m.(regs := m.regs[EDI := Mask32(R(m, EDI) + delta)], flags := SubFlags(m.flags, GetReg(m, EAX, size), b, 0, size)))
  {
    hide SubFlags, GetReg, Mask32;
  }

  lemma FirstMoves(a: Word, delta: int)
    ensures Moved(a, delta, 0) == a && Moved(a, delta, 1) == Mask32(a + delta)
  {
  }

  lemma ZeroIsSame(m: Machine, op: nat, size: int, delta: int)
    requires m.mem.Valid() && IsSize(size) && Comparable(m, op, size, delta, 0)
    ensures Has(SubFlags(m.flags, LeftOf(m, op, size, delta, 0).value, RightOf(m, size, delta, 0).value, 0, size), ZF)
         == Same(m, op, size, delta, 0)
  {
    hide SubFlags, GetReg;
    var a, b := LeftOf(m, op, size, delta, 0).value, RightOf(m, size, delta, 0).value;
    LoadInRange(m.mem, Moved(R(m, ESI), delta, 0), size);
    LoadInRange(m.mem, Moved(R(m, EDI), delta, 0), size);
    ComparisonExact(m.flags, a, b, size);
  }

  lemma LoadInRange(m: Image, a: int, size: int)
    requires m.Valid() && IsSize(size)
    ensures m.Load(a, size).Some? ==> m.Load(a, size).value < Range(size)
  {
  }

  lemma NextRegisters(m: Machine, op: nat, size: int, delta: int, cnt: nat)
    requires m.mem.Valid() && IsSize(size) && Comparable(m, op, size, delta, 0)
    ensures var m2 := NextElement(m, op, size, delta, cnt);
      && m2.mem == m.mem && m2.log == m.log && m2.eip == m.eip
      && m2.regs[EDI] == Moved(R(m, EDI), delta, 1) && m2.regs[ECX] == Mask32(cnt - 1)
      && m2.regs[ESI] == (if op == 0xA6 || op == 0xA7 then Moved(R(m, ESI), delta, 1) else m.regs[ESI])
      && forall q: Reg :: q != EDI && q != ECX && q != ESI ==> m2.regs[q] == m.regs[q]
  {
    hide SubFlags, Comparable;
  }

  /** The elements that remain are those of the rest of the search. */
  lemma RestSame(m: Machine, op: nat, size: int, delta: int, cnt: nat, k: nat)
    requires m.mem.Valid() && IsSize(size) && Compares(op) && Comparable(m, op, size, delta, 0)
    ensures NextElement(m, op, size, delta, cnt).mem == m.mem
    ensures var m2 := NextElement(m, op, size, delta, cnt);
      && LeftOf(m2, op, size, delta, k) == LeftOf(m, op, size, delta, k + 1)
      && RightOf(m2, size, delta, k) == RightOf(m, size, delta, k + 1)
  {
    NextRegisters(m, op, size, delta, cnt);
    AddressOn(R(m, EDI), delta, k);
    AddressOn(R(m, ESI), delta, k);
    hide NextElement, Moved, Comparable;
  }

  lemma AddressOn(a: int, delta: int, k: nat)
    ensures Moved(Moved(a, delta, 1), delta, k) == Moved(a, delta, k + 1)
  {
    assert (k + 1) * delta == delta + k * delta;
    ReduceInside(a + delta, k * delta);
  }

  lemma ReduceInside(x: int, y: int)
    ensures (x % TWO32 + y) % TWO32 == (x + y) % TWO32
  {
    Shifting.QuotientOf(x + y, TWO32, x / TWO32 + (x % TWO32 + y) / TWO32, (x % TWO32 + y) % TWO32);
  }

  lemma SearchedOn(m: Machine, r: Machine, op: nat, size: int, delta: int, cnt: nat, n: nat)
    requires m.mem.Valid() && IsSize(size) && Compares(op) && Comparable(m, op, size, delta, 0) && 1 <= n <= cnt
    requires Searched(NextElement(m, op, size, delta, cnt), r, op, delta, cnt - 1, n - 1)
    ensures Searched(m, r, op, delta, cnt, n)
  {
    NextRegisters(m, op, size, delta, cnt);
    AddressOn(R(m, EDI), delta, n - 1);
    AddressOn(R(m, ESI), delta, n - 1);
    assert n - 1 + 1 == n && cnt - 1 - (n - 1) == cnt - n;
    hide NextElement, Moved, Mask32, Comparable, Compares;
  }

  lemma SearchedOne(m: Machine, op: nat, size: int, delta: int, cnt: nat)
    requires m.mem.Valid() && IsSize(size) && Compares(op) && Comparable(m, op, size, delta, 0) && 1 <= cnt
    ensures Searched(m, NextElement(m, op, size, delta, cnt), op, delta, cnt, 1)
  {
    hide SubFlags, Comparable;
  }

  /** Element n - 1 is the first one sought among cnt, or the last of all. */
  predicate EndsAt(m: Machine, op: nat, size: int, delta: int, rep: int, cnt: nat, n: nat)
    requires m.mem.Valid() && IsSize(size) && 1 <= n
  {
    && n <= cnt && (forall k: nat :: k < n ==> Comparable(m, op, size, delta, k))
    && (forall k: nat :: k < n - 1 ==> !Sought(m, op, size, delta, rep, k))
    && (n == cnt || Sought(m, op, size, delta, rep, n - 1))
  }

  lemma RestEnds(m: Machine, op: nat, size: int, delta: int, rep: int, cnt: nat, n: nat)
    requires m.mem.Valid() && IsSize(size) && Compares(op) && 1 < n <= cnt && EndsAt(m, op, size, delta, rep, cnt, n)
    ensures Comparable(m, op, size, delta, 0) && !Sought(m, op, size, delta, rep, 0)
    ensures var m2 := NextElement(m, op, size, delta, cnt);
      && m2.mem == m.mem && EndsAt(m2, op, size, delta, rep, cnt - 1, n - 1)
      && Same(m2, op, size, delta, n - 2) == Same(m, op, size, delta, n - 1)
  {
    hide NextElement, LeftOf, RightOf;
    assert Comparable(m, op, size, delta, 0) && !Sought(m, op, size, delta, rep, 0);
    var m2 := NextElement(m, op, size, delta, cnt);
    NextRegisters(m, op, size, delta, cnt);
    forall k: nat | k < n - 1
      ensures Comparable(m2, op, size, delta, k) && Same(m2, op, size, delta, k) == Same(m, op, size, delta, k + 1)
    {
      assert Comparable(m, op, size, delta, k + 1);
      RestSame(m, op, size, delta, cnt, k);
    }
    forall k: nat | k < n - 2 ensures !Sought(m2, op, size, delta, rep, k) { assert !Sought(m, op, size, delta, rep, k + 1); }
  }

  lemma {:induction false} LoopSearches(m: Machine, op: nat, size: int, delta: int, rep: int, cnt: nat, n: nat)
    requires m.mem.Valid() && IsSize(size) && Compares(op) && (rep == 0xF2 || rep == 0xF3) && 1 <= n <= cnt
    requires EndsAt(m, op, size, delta, rep, cnt, n)
    ensures var r := StringLoop(m, op, size, delta, rep, cnt);
      r.Ok? && Searched(m, r.m, op, delta, cnt, n) && Has(r.m.flags, ZF) == Same(m, op, size, delta, n - 1)
    decreases cnt
  {
    hide NextElement, Comparable, Same, Searched, StringLoop, Sought;
    FirstCompared(m, op, size, delta, rep, cnt, n);
    var m2 := NextElement(m, op, size, delta, cnt);
    if n == 1 {
      SearchedOne(m, op, size, delta, cnt);
    } else {
      RestEnds(m, op, size, delta, rep, cnt, n);
      LoopSearches(m2, op, size, delta, rep, cnt - 1, n - 1);
      hide EndsAt;
      SearchedOn(m, StringLoop(m2, op, size, delta, rep, cnt - 1).m, op, size, delta, cnt, n);
    }
  }

  /** The first element either ends the search or leaves the rest of it. */
  lemma FirstCompared(m: Machine, op: nat, size: int, delta: int, rep: int, cnt: nat, n: nat)
    requires m.mem.Valid() && IsSize(size) && Compares(op) && (rep == 0xF2 || rep == 0xF3) && 1 <= n <= cnt
    requires EndsAt(m, op, size, delta, rep, cnt, n)
    ensures Comparable(m, op, size, delta, 0)
    ensures var m2 := NextElement(m, op, size, delta, cnt);
      && m2.mem == m.mem && Has(m2.flags, ZF) == Same(m, op, size, delta, 0)
      && StringLoop(m, op, size, delta, rep, cnt) == if n == 1 then Done(m2) else StringLoop(m2, op, size, delta, rep, cnt - 1)
  {
    hide NextElement, Comparable, Same;
    assert Comparable(m, op, size, delta, 0);
    CompareOne(m, op, size, delta, rep, cnt);
    NextRegisters(m, op, size, delta, cnt);
    if n > 1 { assert !Sought(m, op, size, delta, rep, 0); }
  }

  /** repne scas and cmps stop right behind the first equal element, repe behind the first different one,
      or after ECX elements if there is none; ZF tells whether the last one looked at was equal, ECX how
      many remain, and nothing but the registers and flags of the search changes. */
  lemma SearchExact(m: Machine, op: nat, opsize: OperandSize, rep: int, n: nat)
    requires m.mem.Valid() && Compares(op) && (rep == 0xF2 || rep == 0xF3) && 1 <= n <= R(m, ECX)
    requires var size := if IsByteString(op) then 1 else opsize;
      var delta := if Has(m.flags, DF) then -size else size;
      EndsAt(m, op, size, delta, rep, R(m, ECX), n)
    ensures var size := if IsByteString(op) then 1 else opsize;
      var delta := if Has(m.flags, DF) then -size else size;
      var r := ExecString(m, op, opsize, rep);
      r.Ok? && Searched(m, r.m, op, delta, R(m, ECX), n) && Has(r.m.flags, ZF) == Same(m, op, size, delta, n - 1)
  {
    hide EndsAt, Same, Searched, StringLoop;
    var size := if IsByteString(op) then 1 else opsize;
    LoopSearches(m, op, size, if Has(m.flags, DF) then -size else size, rep, R(m, ECX), n);
  }
}
