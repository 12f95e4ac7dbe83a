/** What multiplications, divisions, shifts, rotations and bit instructions do, by the name the disassembler shows. */
module MeaningsOfBits {
  import opened Words
  import opened Memory
  import opened Decoder
  import opened Flags
  import opened Handlers
  import opened FlagLaws
  import opened Operations
  import opened InstructionLaws
  import opened Meanings
  import Shifting
  import Disasm = Disassembler

  lemma RunsWide(m: Machine, e: Entry)
    requires m.mem.Valid()
    requires e.fn.MulDiv? || e.fn.Imul2? || e.fn.Imul3? || e.fn.BtR? || e.fn.BtI? || e.fn.BitScan? || e.fn.DoubleShift?
    ensures Execute(m, e) == ExecWide(m, e)
  {
    hide Execute, ExecWide;
    if e.fn.MulDiv? || e.fn.Imul2? || e.fn.Imul3? { RunsProduct(m, e); } else { RunsBits(m, e); }
  }

  lemma RunsProduct(m: Machine, e: Entry)
    requires m.mem.Valid() && (e.fn.MulDiv? || e.fn.Imul2? || e.fn.Imul3?)
    ensures Execute(m, e) == ExecWide(m, e)
  {
    hide ExecAlu, ExecMove, ExecStack, ExecFlow, ExecFlag, ExecWide, ExecString;
  }

  lemma RunsBits(m: Machine, e: Entry)
    requires m.mem.Valid() && (e.fn.BtR? || e.fn.BtI? || e.fn.BitScan? || e.fn.DoubleShift?)
    ensures Execute(m, e) == ExecWide(m, e)
  {
    hide ExecAlu, ExecMove, ExecStack, ExecFlow, ExecFlag, ExecWide, ExecString;
  }

  // ---- Multiplication and division --------------------------------------------------------------------

  lemma MulDivNames(e: Entry)
    ensures (SameName(Disasm.Mul, e) ==> e.fn.MulDiv? && e.reg == 4) && (SameName(Disasm.Div, e) ==> e.fn.MulDiv? && e.reg == 6)
    ensures SameName(Disasm.Idiv, e) ==> e.fn.MulDiv? && e.reg == 7
  {
  }

  lemma ImulName(e: Entry)
    ensures SameName(Disasm.Imul, e) ==> (e.fn.MulDiv? && e.reg == 5) || e.fn.Imul2? || e.fn.Imul3?
  {
  }

  /** mul, div, idiv and the imul with one operand work on that operand, as MultiplicationExact, DivisionExact and
      SignedDivisionExact say; only the accumulator, EDX and the flags change. */
  lemma MulDivMeaning(m: Machine, e: Entry)
    requires m.mem.Valid() && e.fn.MulDiv?
    ensures match RmValue(m, e, e.size)
      case None => Execute(m, e) == Stop(m, SegFault)
      case Some(src) =>
        && Execute(m, e) == ExecMulDiv(m, e, src)
        && var m' := ExecMulDiv(m, e, src).m;
           m' == m.(regs := m'.regs, flags := m'.flags) && forall q: Reg :: q != EAX && q != EDX ==> m'.regs[q] == m.regs[q]
  {
    hide Execute, RmValue, ReadRm, ExecMulDiv;
    RunsWide(m, e);
    ReadsRm(m, e, e.size);
    if RmValue(m, e, e.size).Some? { MulDivFrame(m, e, RmValue(m, e, e.size).value); }
  }

  lemma MulDivFrame(m: Machine, e: Entry, src: Word)
    requires m.mem.Valid()
    ensures var m' := ExecMulDiv(m, e, src).m;
      m' == m.(regs := m'.regs, flags := m'.flags) && forall q: Reg :: q != EAX && q != EDX ==> m'.regs[q] == m.regs[q]
  {
    hide MulFlags, TruncDiv, GetReg, Dividend, Product, Quotient;
    forall res { ProductFrame(m, e.size, res); }
    forall q, r { QuotientFrame(m, e.size, q, r); }
  }

  lemma ProductFrame(m: Machine, size: int, res: int)
    requires IsSize(size)
    ensures var m' := Product(m, size, res); m' == m.(regs := m'.regs) && forall q: Reg :: q != EAX && q != EDX ==> m'.regs[q] == m.regs[q]
  {
    hide Low16, Low8, High8;
  }

  lemma QuotientFrame(m: Machine, size: int, q: int, r: int)
    requires IsSize(size)
    ensures var m' := Quotient(m, size, q, r); m' == m.(regs := m'.regs) && forall x: Reg :: x != EAX && x != EDX ==> m'.regs[x] == m.regs[x]
  {
    hide Low16, Low8, High8;
  }

  predicate ImulLeaves(m: Machine, e: Entry, p: int, g: Eflags)
    requires m.mem.Valid()
  {
    && Execute(m, e) == Done(SetReg(m.(flags := g), e.reg, e.size, p))
    && (Has(g, CF) <==> Overflows(p, e.size)) && (Has(g, OF) <==> Overflows(p, e.size))
  }

  function ImulProduct(m: Machine, e: Entry, v: Word): int {
    Signed(v, e.size) * if e.fn.Imul2? then Signed(GetReg(m, e.reg, e.size), e.size) else e.imm
  }

  /** imul with two or three operands leaves the signed product, truncated, in the register; CF and OF tell whether it was
      too large. */
  lemma ImulMeaning(m: Machine, e: Entry)
    requires m.mem.Valid() && (e.fn.Imul2? || e.fn.Imul3?)
    ensures match RmValue(m, e, e.size)
      case None => Execute(m, e) == Stop(m, SegFault)
      case Some(v) => exists g :: ImulLeaves(m, e, ImulProduct(m, e, v), g)
  {
    hide Execute, RmValue, ReadRm, MulFlags, GetReg, SetReg, Signed, Has;
    RunsWide(m, e);
    ReadsRm(m, e, e.size);
    if RmValue(m, e, e.size).Some? {
      var v, x := RmValue(m, e, e.size).value, Signed(GetReg(m, e.reg, e.size), e.size);
      Commutes(Signed(v, e.size), x);
      var p := ImulProduct(m, e, v);
      MulCarry(m.flags);
      assert ImulLeaves(m, e, p, MulFlags(m.flags, p % Range(e.size), !(-Half(e.size) <= p < Half(e.size)), e.size));
    }
  }

  lemma Commutes(a: int, b: int)
    ensures a * b == b * a
  {
  }

  // ---- Shifts and rotations -----------------------------------------------------------------------------

  predicate IsShiftName(name: Disasm.Name) {
    name.Rol? || name.Ror? || name.Shl? || name.Sal? || name.Shr? || name.Sar?
  }

  lemma ShiftNames(e: Entry)
    ensures (SameName(Disasm.Rol, e) ==> IsShift(e.fn, 0)) && (SameName(Disasm.Ror, e) ==> IsShift(e.fn, 1))
    ensures (SameName(Disasm.Shl, e) ==> IsShift(e.fn, 4)) && (SameName(Disasm.Shr, e) ==> IsShift(e.fn, 5))
  {
  }

  lemma SalNames(e: Entry)
    ensures (SameName(Disasm.Sal, e) ==> IsShift(e.fn, 6)) && (SameName(Disasm.Sar, e) ==> IsShift(e.fn, 7))
  {
  }

  /** What bit i of the result is: shifted in from below or above, zero or the sign at the edge, or round the corner. */
  predicate BitThere(name: Disasm.Name, a: int, cnt: nat, size: int, i: nat)
    requires IsSize(size) && i < 8 * size
  {
    var bits := 8 * size;
    match name
    case Rol => BitOn(a, (i + bits - cnt % bits) % bits)
    case Ror => BitOn(a, (i + cnt) % bits)
    case Shr => i + cnt < bits && BitOn(a, i + cnt)
    case Sar => BitOn(a, if i + cnt < bits then i + cnt else bits - 1)
    case _ => i >= cnt && BitOn(a, i - cnt)
  }

  /** The last bit shifted out or round. */
  predicate LastOut(name: Disasm.Name, a: int, cnt: nat, size: int)
    requires IsSize(size) && cnt >= 1
  {
    var bits := 8 * size;
    match name
    case Rol => BitOn(a, (bits - cnt % bits) % bits)
    case Ror => BitOn(a, (cnt + bits - 1) % bits)
    case Shr => cnt <= bits && BitOn(a, cnt - 1)
    case Sar => BitOn(a, Min(cnt, bits) - 1)
    case _ => cnt <= bits && BitOn(a, bits - cnt)
  }

  /** OF: by one bit, shl tells whether doubling overflows, shr the old sign, sar nothing; rol and ror whether the sign of
      the result differs from its lowest, or its second highest, bit. */
  predicate OverflowThere(name: Disasm.Name, a: int, v: int, cnt: nat, size: int)
    requires IsSize(size)
  {
    match name
    case Rol => BitOn(v, 8 * size - 1) != BitOn(v, 0)
    case Ror => BitOn(v, 8 * size - 1) != BitOn(v, 8 * size - 2)
    case Shr => cnt == 1 && BitOn(a, 8 * size - 1)
    case Sar => false
    case _ => cnt == 1 && Overflows(2 * Signed(a, size), size)
  }

  predicate Rotates(name: Disasm.Name) {
    name.Rol? || name.Ror?
  }

  /** v and g are result and flags of the shift or rotation. */
  predicate ShiftLeaves(name: Disasm.Name, f: Eflags, a: int, cnt: nat, size: int, v: int, g: Eflags)
    requires IsSize(size) && cnt >= 1
  {
    && 0 <= v < Range(size) && (forall i: nat :: i < 8 * size ==> (BitOn(v, i) <==> BitThere(name, a, cnt, size, i)))
    && (Has(g, CF) <==> LastOut(name, a, cnt, size)) && (Has(g, OF) <==> OverflowThere(name, a, v, cnt, size))
    && Has(g, DF) == Has(f, DF)
    && if Rotates(name) then Has(g, ZF) == Has(f, ZF) && Has(g, SF) == Has(f, SF) && Has(g, PF) == Has(f, PF) else Tells(g, v, size)
  }

  function ShiftKind(name: Disasm.Name): nat
    requires IsShiftName(name)
  {
    match name
    case Rol => 0
    case Ror => 1
    case Shr => 5
    case Sar => 7
    case Sal => 6
    case _ => 4
  }

  lemma ShiftedExact(name: Disasm.Name, f: Eflags, a: Word, cnt: nat, size: int)
    requires IsShiftName(name) && IsSize(size) && a < Range(size) && 1 <= cnt <= 31
    ensures var k := ShiftKind(name);
      var s := ShiftValue(k, a, cnt, size);
      0 <= s.res < Range(size) && ShiftLeaves(name, f, a, cnt, size, s.res, ShiftFlags(f, k, s, cnt, size))
  {
    hide ShiftValue, BitThere, OverflowThere, LastOut, ShiftFlags, Tells, Has;
    ShiftedBits(name, a, cnt, size);
    OverflowsThere(name, a, cnt, size);
    ShiftedFlags(name, f, ShiftValue(ShiftKind(name), a, cnt, size), cnt, size);
  }

  lemma ShiftedBits(name: Disasm.Name, a: Word, cnt: nat, size: int)
    requires IsShiftName(name) && IsSize(size) && a < Range(size) && 1 <= cnt <= 31
    ensures var s := ShiftValue(ShiftKind(name), a, cnt, size);
      && 0 <= s.res < Range(size) && (s.cf <==> LastOut(name, a, cnt, size))
      && forall i: nat :: i < 8 * size ==> (BitOn(s.res, i) <==> BitThere(name, a, cnt, size, i))
  {
    hide ShiftValue, BitOn, Shifting.ShiftedBit, Shifting.BitOut, BitThere, LastOut;
    var k := ShiftKind(name);
    Shifting.ShiftExact(k, a, cnt, size, 0);
    SameOut(name, a, cnt, size);
    forall i: nat | i < 8 * size ensures BitOn(ShiftValue(k, a, cnt, size).res, i) <==> BitThere(name, a, cnt, size, i) {
      Shifting.ShiftExact(k, a, cnt, size, i);
      SameBit(name, a, cnt, size, i);
    }
  }

  lemma SameBit(name: Disasm.Name, a: int, cnt: nat, size: int, i: nat)
    requires IsShiftName(name) && IsSize(size) && i < 8 * size
    ensures Shifting.ShiftedBit(ShiftKind(name), a, cnt, size, i) <==> BitThere(name, a, cnt, size, i)
  {
    hide BitOn;
  }

  lemma SameOut(name: Disasm.Name, a: int, cnt: nat, size: int)
    requires IsShiftName(name) && IsSize(size) && cnt >= 1
    ensures Shifting.BitOut(ShiftKind(name), a, cnt, size) <==> LastOut(name, a, cnt, size)
  {
    hide BitOn, Min;
  }

  lemma ShiftedFlags(name: Disasm.Name, f: Eflags, s: Shifted, cnt: nat, size: int)
    requires IsShiftName(name) && IsSize(size) && 0 <= s.res < Range(size)
    ensures var g := ShiftFlags(f, ShiftKind(name), s, cnt, size);
      && Has(g, CF) == s.cf && Has(g, OF) == (if Rotates(name) then s.of else s.of && cnt == 1) && Has(g, DF) == Has(f, DF)
      && if Rotates(name) then Has(g, ZF) == Has(f, ZF) && Has(g, SF) == Has(f, SF) && Has(g, PF) == Has(f, PF) else Tells(g, s.res, size)
  {
    hide Build, ResultBits, Tells, Has;
    if Rotates(name) { RotateFlagsExact(f, s.cf, s.of); } else { Builds(f, s.cf, s.of && cnt == 1, false, s.res, size); }
  }

  lemma OverflowsThere(name: Disasm.Name, a: Word, cnt: nat, size: int)
    requires IsShiftName(name) && IsSize(size) && a < Range(size) && 1 <= cnt <= 31
    requires 0 <= ShiftValue(ShiftKind(name), a, cnt, size).res < Range(size)
    ensures var s := ShiftValue(ShiftKind(name), a, cnt, size);
      (if Rotates(name) then s.of else s.of && cnt == 1) <==> OverflowThere(name, a, s.res, cnt, size)
  {
    hide ShiftValue, BitOn, Overflows, OverflowThere;
    if Rotates(name) { RotatesOver(name, a, cnt, size); } else { ShiftsOver(name, a, cnt, size); }
  }

  lemma RotatesOver(name: Disasm.Name, a: Word, cnt: nat, size: int)
    requires Rotates(name) && IsSize(size) && a < Range(size) && 1 <= cnt <= 31
    requires 0 <= ShiftValue(ShiftKind(name), a, cnt, size).res < Range(size)
    ensures var s := ShiftValue(ShiftKind(name), a, cnt, size); s.of <==> OverflowThere(name, a, s.res, cnt, size)
  {
    hide ShiftValue, BitOn, Overflows;
    RotatedOverflow(a, cnt, size);
  }

  lemma ShiftsOver(name: Disasm.Name, a: Word, cnt: nat, size: int)
    requires IsShiftName(name) && !Rotates(name) && IsSize(size) && a < Range(size) && 1 <= cnt <= 31
    ensures var s := ShiftValue(ShiftKind(name), a, cnt, size); s.of && cnt == 1 <==> OverflowThere(name, a, s.res, cnt, size)
  {
    hide ShiftValue, BitOn, Overflows;
    if name.Shr? || name.Sar? { RightOverflow(a, cnt, size); } else { LeftOverflow(a, cnt, size); }
  }

  lemma RotatedOverflow(a: Word, cnt: nat, size: int)
    requires IsSize(size) && a < Range(size) && 1 <= cnt <= 31
    ensures var s := ShiftValue(0, a, cnt, size);
      0 <= s.res < Range(size) ==> (s.of <==> BitOn(s.res, 8 * size - 1) != BitOn(s.res, 0))
    ensures var s := ShiftValue(1, a, cnt, size);
      0 <= s.res < Range(size) ==> (s.of <==> BitOn(s.res, 8 * size - 1) != BitOn(s.res, 8 * size - 2))
  {
    hide Pow2, BitOn, SignBit;
    var l, r := ShiftValue(0, a, cnt, size).res, ShiftValue(1, a, cnt, size).res;
    if 0 <= l < Range(size) {
      Shifting.TopBit(l, size);
      Shifting.NextBit(l, 0);
    }
    if 0 <= r < Range(size) {
      Shifting.TopBit(r, size);
      SecondBit(r, size);
    }
  }

  lemma RightOverflow(a: Word, cnt: nat, size: int)
    requires IsSize(size) && a < Range(size) && 1 <= cnt <= 31
    ensures ShiftValue(5, a, cnt, size).of <==> cnt == 1 && BitOn(a, 8 * size - 1)
    ensures !ShiftValue(7, a, cnt, size).of
  {
    hide Pow2, BitOn, SignBit;
    Shifting.TopBit(a, size);
  }

  lemma LeftOverflow(a: Word, cnt: nat, size: int)
    requires IsSize(size) && a < Range(size) && 1 <= cnt <= 31
    ensures ShiftValue(4, a, cnt, size).of && cnt == 1 <==> cnt == 1 && Overflows(2 * Signed(a, size), size)
    ensures ShiftValue(6, a, cnt, size) == ShiftValue(4, a, cnt, size)
  {
    hide ShiftValue;
    if cnt == 1 { Shifting.DoublingOverflows(a, size); }
    SameShift(a, cnt, size);
  }

  lemma SameShift(a: int, cnt: nat, size: int)
    requires IsSize(size)
    ensures ShiftValue(6, a, cnt, size) == ShiftValue(4, a, cnt, size)
  {
    hide Pow2;
  }

  lemma SecondBit(v: int, size: int)
    requires IsSize(size) && 0 <= v < Range(size)
    ensures BitOn(v, 8 * size - 2) <==> v % Half(size) >= Half(size) / 2
  {
    Shifting.RangeIsPow2(size);
    Shifting.BitOfMod(v, 8 * size - 1, 8 * size - 2);
    Shifting.DivisionLaw(v % Half(size), Half(size) / 2);
    assert Pow2(8 * size - 1) == 2 * Pow2(8 * size - 2);
    var r, h := v % Half(size), Half(size) / 2;
    Shifting.QuotientOf(r, h, if r < h then 0 else 1, if r < h then r else r - h);
  }

  /** The counts: CL or the immediate, modulo 32. */
  function ShiftCount(m: Machine, e: Entry): nat
    requires e.fn.Shift?
  {
    (if e.fn.byCl then m.regs[ECX] else e.imm) % 32
  }

  predicate ShiftDone(m: Machine, e: Entry, name: Disasm.Name, a: int, v: int, g: Eflags)
    requires m.mem.Valid() && e.fn.Shift? && ShiftCount(m, e) >= 1
  {
    && ShiftLeaves(name, m.flags, a, ShiftCount(m, e), e.size, v, g)
    && Execute(m, e) == match WriteRm(m, e, Address(m, e), e.size, v) case Ok(m1, _) => Done(m1.(flags := g)) case Stop(m1, ev) => Stop(m1, ev)
  }

  /** A shift or rotation by zero does nothing; otherwise the result is stored, and then the flags are set. */
  lemma ShiftMeaning(m: Machine, e: Entry, name: Disasm.Name)
    requires m.mem.Valid() && IsShiftName(name) && SameName(name, e)
    ensures e.fn.Shift?
    ensures ShiftCount(m, e) == 0 ==> Execute(m, e) == Done(m)
    ensures ShiftCount(m, e) != 0 ==> match RmValue(m, e, e.size)
      case None => Execute(m, e) == Stop(m, SegFault)
      case Some(a) => exists v, g :: ShiftDone(m, e, name, a, v, g)
  {
    hide SameName, Execute, RmValue, ReadRm, WriteRm, Address, ShiftValue, ShiftFlags, ShiftLeaves, ExecShift;
    ShiftNames(e);
    SalNames(e);
    RunsShift(m, e);
    var cnt := ShiftCount(m, e);
    ShiftSteps(m, e, ShiftKind(name), cnt);
    if cnt != 0 && RmValue(m, e, e.size).Some? {
      var a := RmValue(m, e, e.size).value;
      ShiftedExact(name, m.flags, a, cnt, e.size);
      var s := ShiftValue(ShiftKind(name), a, cnt, e.size);
      assert ShiftDone(m, e, name, a, s.res, ShiftFlags(m.flags, ShiftKind(name), s, cnt, e.size));
    }
  }

  lemma RunsShift(m: Machine, e: Entry)
    requires m.mem.Valid() && e.fn.Shift?
    ensures Execute(m, e) == ExecShift(m, e, e.fn.kind, ShiftCount(m, e))
  {
    hide ExecShift, ExecMove, ExecStack, ExecFlow, ExecFlag, ExecWide, ExecString, AluToRm, AluToReg, ExecTest, ExecUnary;
  }

  lemma ShiftSteps(m: Machine, e: Entry, kind: nat, cnt: nat)
    requires m.mem.Valid()
    ensures ExecShift(m, e, kind, cnt) ==
      if cnt == 0 then Done(m)
      else
        match RmValue(m, e, e.size)
        case None => Stop(m, SegFault)
        case Some(a) =>
          var s := ShiftValue(kind, a, cnt, e.size);
          match WriteRm(m, e, Address(m, e), e.size, s.res)
          case Ok(m1, _) => Done(m1.(flags := ShiftFlags(m.flags, kind, s, cnt, e.size)))
          case Stop(m1, ev) => Stop(m1, ev)
  {
    hide RmValue, ReadRm, WriteRm, Address, ShiftValue, ShiftFlags;
    ReadsRm(m, e, e.size);
    KeepsFlags(m, e);
  }

  lemma KeepsFlags(m: Machine, e: Entry)
    requires m.mem.Valid()
    ensures forall v :: WriteRm(m, e, Address(m, e), e.size, v).m.flags == m.flags
  {
    hide Address, Bytes;
  }

  // ---- Double shifts ---------------------------------------------------------------------------------------

  /** The count of a double shift: the immediate's low byte or CL, modulo 32. */
  function DoubleCount(m: Machine, e: Entry): nat {
    (if e.imm / 256 == 0xA4 || e.imm / 256 == 0xAC then e.imm % 256 else GetReg(m, ECX, 1)) % 32
  }

  predicate DoubleLeaves(f: Eflags, left: bool, a: int, b: int, cnt: nat, size: int, v: int, g: Eflags)
    requires IsSize(size) && cnt >= 1 && (left ==> cnt <= 8 * size)
  {
    && 0 <= v < Range(size)
    && (forall i: nat :: i < 8 * size ==> (BitOn(v, i) <==>
         if left then (if i >= cnt then BitOn(a, i - cnt) else BitOn(b, i + 8 * size - cnt))
         else if i + cnt < 8 * size then BitOn(a, i + cnt) else BitOn(b, i + cnt - 8 * size)))
    && (Has(g, CF) <==> BitOn(a, if left then 8 * size - cnt else cnt - 1)) && !Has(g, OF) && Tells(g, v, size) && Has(g, DF) == Has(f, DF)
  }

  lemma DoubleNames(e: Entry)
    ensures (SameName(Disasm.Shld, e) ==> IsDouble(e, 0xA4)) && (SameName(Disasm.Shrd, e) ==> IsDouble(e, 0xAC))
  {
  }

  predicate DoubleDone(m: Machine, e: Entry, left: bool, a: int, v: int, g: Eflags)
    requires m.mem.Valid() && DoubleCount(m, e) >= 1 && (left ==> DoubleCount(m, e) <= 8 * e.size)
  {
    && DoubleLeaves(m.flags, left, a, GetReg(m, e.reg, e.size), DoubleCount(m, e), e.size, v, g)
    && Execute(m, e) == match WriteRm(m, e, Address(m, e), e.size, v) case Ok(m1, _) => Done(m1.(flags := g)) case Stop(m1, ev) => Stop(m1, ev)
  }

  /** shld and shrd fill up from the register; shld by more bits than the operand has is refused. */
  lemma DoubleMeaning(m: Machine, e: Entry, left: bool)
    requires m.mem.Valid() && SameName(if left then Disasm.Shld else Disasm.Shrd, e)
    ensures match RmValue(m, e, e.size)
      case None => Execute(m, e) == Stop(m, SegFault)
      case Some(a) =>
        var cnt := DoubleCount(m, e);
        if cnt == 0 then Execute(m, e) == Done(m)
        else if left && cnt > 8 * e.size then Execute(m, e) == Stop(m, Illegal)
        else exists v, g :: DoubleDone(m, e, left, a, v, g)
  {
    hide SameName, Execute, RmValue, ReadRm, WriteRm, Address, DoubleShiftValue, Build, ResultBits, DoubleLeaves, GetReg;
    DoubleNames(e);
    RunsWide(m, e);
    ReadsRm(m, e, e.size);
    KeepsFlags(m, e);
    DoubleOpcode(e, left);
    var cnt := DoubleCount(m, e);
    if RmValue(m, e, e.size).Some? && cnt != 0 && !(left && cnt > 8 * e.size) {
      var a, b := RmValue(m, e, e.size).value, GetReg(m, e.reg, e.size);
      var s := DoubleShiftValue(left, a, b, cnt, e.size);
      var g := Build(m.flags, DF, s.cf, false, false, ResultBits(s.res, e.size));
      DoubledExact(m.flags, left, a, b, cnt, e.size);
      assert DoubleDone(m, e, left, a, s.res, g);
    }
  }

  lemma DoubleOpcode(e: Entry, left: bool)
    requires IsDouble(e, if left then 0xA4 else 0xAC)
    ensures (e.imm / 256 == 0xA4 || e.imm / 256 == 0xA5) == left
  {
  }

  lemma DoubledExact(f: Eflags, left: bool, a: Word, b: Word, cnt: nat, size: int)
    requires IsSize(size) && a < Range(size) && b < Range(size) && cnt >= 1 && (left ==> cnt <= 8 * size)
    ensures var s := DoubleShiftValue(left, a, b, cnt, size);
      DoubleLeaves(f, left, a, b, cnt, size, s.res, Build(f, DF, s.cf, false, false, ResultBits(s.res, size)))
  {
    hide DoubleShiftValue, BitOn, Build, ResultBits, Tells, Has;
    var s := DoubleShiftValue(left, a, b, cnt, size);
    Shifting.DoubleShiftExact(left, a, b, cnt, size, 0);
    Builds(f, s.cf, false, false, s.res, size);
    forall i: nat | i < 8 * size { Shifting.DoubleShiftExact(left, a, b, cnt, size, i); }
  }

  // ---- Single bits -------------------------------------------------------------------------------------------

  predicate IsBitName(name: Disasm.Name) {
    name.Bt? || name.Bts? || name.Btr? || name.Btc?
  }

  lemma BitNames(e: Entry)
    ensures (SameName(Disasm.Bt, e) ==> IsBit(e, 4)) && (SameName(Disasm.Bts, e) ==> IsBit(e, 5))
    ensures (SameName(Disasm.Btr, e) ==> IsBit(e, 6)) && (SameName(Disasm.Btc, e) ==> IsBit(e, 7))
  {
  }

  /** The number of the bit, from a register or an immediate. */
  function BitNumber(m: Machine, e: Entry): nat {
    if e.fn.BtR? then GetReg(m, e.reg, e.size) else Mask32(e.imm)
  }

  /** Where the bit's group of bits stands: in the register, or as many operands past the address as the number has
      whole operands. */
  function BitGroup(m: Machine, e: Entry): Option<Word>
    requires m.mem.Valid()
  {
    if e.mod == 3 then Some(GetReg(m, RegOf(e), e.size))
    else m.mem.Load((Address(m, e) + BitNumber(m, e) / (8 * e.size) * e.size) % TWO32, e.size)
  }

  /** v differs from a in the one bit only, and there as the name says. */
  ghost predicate BitChanged(name: Disasm.Name, a: int, bit: nat, v: int) {
    forall i: nat :: BitOn(v, i) <==>
      if i != bit then BitOn(a, i) else if name.Bts? then true else if name.Btr? then false else !BitOn(a, bit)
  }

  ghost predicate BitDone(m: Machine, e: Entry, name: Disasm.Name, a: int, v: int, g: Eflags)
    requires m.mem.Valid()
  {
    var bit := BitNumber(m, e) % (8 * e.size);
    && CarryIs(m.flags, g, BitOn(a, bit))
    && if name.Bt? then Execute(m, e) == Done(m.(flags := g))
       else BitChanged(name, a, bit, v) &&
            Execute(m, e) == WriteRm(m.(flags := g), e, (Address(m, e) + BitNumber(m, e) / (8 * e.size) * e.size) % TWO32, e.size, v)
  }

  /** bt, bts, btr and btc put the bit into CF and leave it, set it, clear it or turn it round. */
  lemma BitMeaning(m: Machine, e: Entry, name: Disasm.Name)
    requires m.mem.Valid() && IsBitName(name) && SameName(name, e)
    ensures match BitGroup(m, e)
      case None => Execute(m, e) == Stop(m, SegFault)
      case Some(a) => exists v, g :: BitDone(m, e, name, a, v, g)
  {
    hide SameName, Execute, WriteRm, Address, WithCarry, BitOn, BitChanged, GetReg, CarryIs, ChangedBit, ExecBit;
    BitNames(e);
    RunsWide(m, e);
    var sub := if name.Bt? then 4 else if name.Bts? then 5 else if name.Btr? then 6 else 7;
    assert Execute(m, e) == ExecBit(m, e, sub, BitNumber(m, e));
    BitSteps(m, e, sub);
    if BitGroup(m, e).Some? {
      var a, bit := BitGroup(m, e).value, BitNumber(m, e) % (8 * e.size);
      WithCarryExact(m.flags, BitOn(a, bit));
      if sub != 4 { ChangedExact(name, sub, a, bit); }
      assert BitDone(m, e, name, a, ChangedBit(sub, a, bit), WithCarry(m.flags, BitOn(a, bit)));
    }
  }

  lemma BitSteps(m: Machine, e: Entry, sub: int)
    requires m.mem.Valid()
    ensures var at, bit := (Address(m, e) + BitNumber(m, e) / (8 * e.size) * e.size) % TWO32, BitNumber(m, e) % (8 * e.size);
      ExecBit(m, e, sub, BitNumber(m, e)) ==
        match BitGroup(m, e)
        case None => Stop(m, SegFault)
        case Some(a) =>
          var m1 := m.(flags := WithCarry(m.flags, BitOn(a, bit)));
          if sub == 4 then Done(m1) else WriteRm(m1, e, at, e.size, ChangedBit(sub, a, bit))
  {
    hide WriteRm, Address, WithCarry, BitOn, ChangedBit, GetReg, Image.Load, BitNumber;
  }

  lemma ChangedExact(name: Disasm.Name, sub: int, a: int, bit: nat)
    requires IsBitName(name) && !name.Bt? && sub == if name.Bts? then 5 else if name.Btr? then 6 else 7
    ensures BitChanged(name, a, bit, ChangedBit(sub, a, bit))
  {
    hide ChangedBit, BitOn;
    forall i: nat { Shifting.BitOperation(sub, a, bit, i); }
  }

  lemma ScanNames(e: Entry)
    ensures (SameName(Disasm.Bsf, e) ==> e.fn.BitScan? && e.imm == 0xBC) && (SameName(Disasm.Bsr, e) ==> e.fn.BitScan? && e.imm == 0xBD)
  {
  }

  ghost predicate IsFound(lowest: bool, a: int, bit: nat) {
    BitOn(a, bit) && forall i: nat :: BitOn(a, i) ==> if lowest then bit <= i else i <= bit
  }

  /** bsf and bsr: ZF and nothing else for zero; otherwise the number of the lowest or the highest bit that is on. */
  ghost predicate ScanLeaves(m: Machine, e: Entry, lowest: bool, a: int, bit: nat, g: Eflags)
    requires m.mem.Valid()
  {
    && ZeroIs(m.flags, g, a == 0)
    && (a == 0 ==> Execute(m, e) == Done(m.(flags := g)))
    && (a != 0 ==> IsFound(lowest, a, bit) && Execute(m, e) == Done(SetReg(m.(flags := g), e.reg, e.size, bit)))
  }

  lemma ScanMeaning(m: Machine, e: Entry, lowest: bool)
    requires m.mem.Valid() && SameName(if lowest then Disasm.Bsf else Disasm.Bsr, e)
    ensures match RmValue(m, e, e.size)
      case None => Execute(m, e) == Stop(m, SegFault)
      case Some(a) => exists bit, g :: ScanLeaves(m, e, lowest, a, bit, g)
  {
    hide SameName, Execute, RmValue, SetReg, ScanLeaves, WithZero, LowestBit, HighestBit;
    ScanNames(e);
    RunsWide(m, e);
    ScanSteps(m, e);
    if RmValue(m, e, e.size).Some? {
      var a := RmValue(m, e, e.size).value;
      ScanResult(m, e, lowest, a);
    }
  }

  lemma ScanSteps(m: Machine, e: Entry)
    requires m.mem.Valid() && e.fn.BitScan?
    ensures ExecWide(m, e) == match RmValue(m, e, e.size)
      case None => Stop(m, SegFault)
      case Some(a) =>
        if a == 0 then Done(m.(flags := WithZero(m.flags, true)))
        else Done(SetReg(m.(flags := WithZero(m.flags, false)), e.reg, e.size, if e.imm == 0xBC then LowestBit(a) else HighestBit(a)))
  {
    hide RmValue, ReadRm, SetReg, LowestBit, HighestBit, ExecBit, ExecMulDiv, ExecDoubleShift, MultiplyInto, GetReg, Signed, WithZero;
    assert ExecWide(m, e) == ExecScan(m, e);
    ReadsRm(m, e, e.size);
  }

  lemma ScanResult(m: Machine, e: Entry, lowest: bool, a: Word)
    requires m.mem.Valid() && Execute(m, e) ==
      if a == 0 then Done(m.(flags := WithZero(m.flags, true)))
      else Done(SetReg(m.(flags := WithZero(m.flags, false)), e.reg, e.size, if lowest then LowestBit(a) else HighestBit(a)))
    ensures exists bit, g :: ScanLeaves(m, e, lowest, a, bit, g)
  {
    hide Execute, SetReg, IsFound, ZeroIs, WithZero, LowestBit, HighestBit;
    WithZeroExact(m.flags, a == 0);
    if a == 0 {
      assert ScanLeaves(m, e, lowest, a, 0, WithZero(m.flags, true));
    } else {
      FoundBit(lowest, a);
      assert ScanLeaves(m, e, lowest, a, if lowest then LowestBit(a) else HighestBit(a), WithZero(m.flags, false));
    }
  }

  lemma FoundBit(lowest: bool, a: nat)
    requires a > 0
    ensures IsFound(lowest, a, if lowest then LowestBit(a) else HighestBit(a))
  {
    hide BitOn, LowestBit, HighestBit;
    forall i: nat ensures BitOn(a, i) ==> if lowest then LowestBit(a) <= i else i <= HighestBit(a) {
      Shifting.LowestBitExact(a, i);
      Shifting.HighestBitExact(a, i);
    }
    Shifting.LowestBitExact(a, 0);
    Shifting.HighestBitExact(a, 0);
  }
}
