/** What the flag fragments of the arithmetic handlers (cpu86.py) say about the operands, at every operand size, and
    where each flag stands in a saved word. */
module FlagLaws {
  import opened Words
  import opened Flags
  import opened Decoder
  import opened Handlers
  import Shifting

  /** The number of ones among the low n bits. */
  function Ones(v: nat, n: nat): nat
    decreases n
  {
    if n == 0 then 0 else v % 2 + Ones(v / 2, n - 1)
  }

  lemma ParityIsOnes(v: nat)
    ensures EvenParity(v) <==> Ones(v, 8) % 2 == 0
  {
    var v1 := v / 2;
    var v2 := v1 / 2;
    var v3 := v2 / 2;
    var v4 := v3 / 2;
    var v5 := v4 / 2;
    var v6 := v5 / 2;
    assert v / 4 == v2 && v / 8 == v3 && v / 16 == v4;
    assert v / 32 == v5 && v / 64 == v6 && v / 128 == v6 / 2;
    assert Ones(v, 8) == v % 2 + v1 % 2 + v2 % 2 + v3 % 2 + v4 % 2 + v5 % 2 + v6 % 2 + v6 / 2 % 2;
  }

  /** ZF, SF and PF tell of a result whether it is zero, whether its top bit is set, and whether its low byte has an even
      number of ones. */
  predicate Tells(g: Eflags, res: int, size: int)
    requires IsSize(size) && 0 <= res
  {
    && (Has(g, ZF) <==> res == 0) && (Has(g, SF) <==> BitOn(res, 8 * size - 1)) && (Has(g, PF) <==> Ones(res, 8) % 2 == 0)
  }

  /** The built image: the computed flags, the direction flag as it was. */
  lemma Builds(f: Eflags, cf: bool, of: bool, af: bool, res: int, size: int)
    requires IsSize(size) && 0 <= res < Range(size)
    ensures var g := Build(f, DF, cf, of, af, ResultBits(res, size));
      && Has(g, CF) == cf && Has(g, OF) == of && Has(g, AF) == af && Tells(g, res, size) && Has(g, DF) == Has(f, DF)
  {
    hide Build, ResultBits, EvenParity, Ones, SignBit, BitOn, Has;
    BuildBits(f, cf, of, af, res, size);
    ParityIsOnes(res);
    Shifting.TopBit(res, size);
  }

  /** Whether a number is no signed number of the size. */
  predicate Overflows(v: int, size: int)
    requires IsSize(size)
  {
    v < -Half(size) || v >= Half(size)
  }

  /** Addition with carry: CF if the unsigned sum does not fit, OF if the signed one does not, AF if that of the low
      halves of the low bytes does not. */
  predicate AddTells(f: Eflags, g: Eflags, a: int, b: int, c: int, size: int)
    requires IsSize(size) && 0 <= a && 0 <= b && 0 <= c
  {
    && (Has(g, CF) <==> a + b + c >= Range(size)) && (Has(g, AF) <==> a % 16 + b % 16 + c >= 16)
    && (Has(g, OF) <==> Overflows(Signed(a, size) + Signed(b, size) + c, size))
    && Tells(g, (a + b + c) % Range(size), size) && Has(g, DF) == Has(f, DF)
  }

  lemma AddFlagsExact(f: Eflags, a: int, b: int, c: int, size: int)
    requires IsSize(size) && 0 <= a < Range(size) && 0 <= b < Range(size) && 0 <= c <= 1
    ensures AddTells(f, AddFlags(f, a, b, c, size), a, b, c, size)
  {
    hide Build, ResultBits, Tells, Has;
    var t := (a + b + c) % Range(size);
    var of := SignBit(a, size) == SignBit(b, size) && SignBit(a, size) != SignBit(t, size);
    Builds(f, a + b + c >= Range(size), of, a % 16 + b % 16 + c > 15, t, size);
    SumSigns(a, b, c, size);
  }

  lemma SumSigns(a: int, b: int, c: int, size: int)
    requires IsSize(size) && 0 <= a < Range(size) && 0 <= b < Range(size) && 0 <= c <= 1
    ensures var t := (a + b + c) % Range(size);
      (SignBit(a, size) == SignBit(b, size) && SignBit(a, size) != SignBit(t, size))
      <==> Overflows(Signed(a, size) + Signed(b, size) + c, size)
  {
    var s := a + b + c;
    Shifting.QuotientOf(s, Range(size), if s < Range(size) then 0 else 1, if s < Range(size) then s else s - Range(size));
  }

  /** Subtraction with borrow: CF if the unsigned difference is negative. */
  predicate SubTells(f: Eflags, g: Eflags, a: int, b: int, c: int, size: int)
    requires IsSize(size)
  {
    && (Has(g, CF) <==> a < b + c) && (Has(g, AF) <==> a % 16 < b % 16 + c)
    && (Has(g, OF) <==> Overflows(Signed(a, size) - Signed(b, size) - c, size))
    && Tells(g, (a - b - c) % Range(size), size) && Has(g, DF) == Has(f, DF)
  }

  lemma SubFlagsExact(f: Eflags, a: int, b: int, c: int, size: int)
    requires IsSize(size) && 0 <= a < Range(size) && 0 <= b < Range(size) && 0 <= c <= 1
    ensures SubTells(f, SubFlags(f, a, b, c, size), a, b, c, size)
  {
    hide Build, ResultBits, Tells, Has;
    var t := (a - b - c) % Range(size);
    var of := SignBit(a, size) != SignBit(b, size) && SignBit(a, size) != SignBit(t, size);
    Builds(f, a - b - c < 0, of, a % 16 - b % 16 - c < 0, t, size);
    DifferenceSigns(a, b, c, size);
  }

  lemma DifferenceSigns(a: int, b: int, c: int, size: int)
    requires IsSize(size) && 0 <= a < Range(size) && 0 <= b < Range(size) && 0 <= c <= 1
    ensures var t := (a - b - c) % Range(size);
      (SignBit(a, size) != SignBit(b, size) && SignBit(a, size) != SignBit(t, size))
      <==> Overflows(Signed(a, size) - Signed(b, size) - c, size)
  {
    var s := a - b - c;
    Shifting.QuotientOf(s, Range(size), if s < 0 then -1 else 0, if s < 0 then s + Range(size) else s);
  }

  /** Logic clears CF, OF and AF. */
  predicate LogicTells(f: Eflags, g: Eflags, res: int, size: int)
    requires IsSize(size) && 0 <= res
  {
    !Has(g, CF) && !Has(g, OF) && !Has(g, AF) && Tells(g, res, size) && Has(g, DF) == Has(f, DF)
  }

  lemma LogicFlagsExact(f: Eflags, res: int, size: int)
    requires IsSize(size) && 0 <= res < Range(size)
    ensures LogicTells(f, LogicFlags(f, res, size), res, size)
  {
    hide Build, ResultBits, Tells, Has;
    Builds(f, false, false, false, res, size);
  }

  /** inc (d = 1) and dec (d = -1) keep CF. */
  predicate CountTells(f: Eflags, g: Eflags, a: int, d: int, size: int)
    requires IsSize(size)
  {
    && Has(g, CF) == Has(f, CF) && (Has(g, AF) <==> !(0 <= a % 16 + d < 16))
    && (Has(g, OF) <==> Overflows(Signed(a, size) + d, size))
    && Tells(g, (a + d) % Range(size), size) && Has(g, DF) == Has(f, DF)
  }

  lemma CountFlagsExact(f: Eflags, a: int, size: int)
    requires IsSize(size) && 0 <= a < Range(size)
    ensures CountTells(f, IncFlags(f, a, size), a, 1, size) && CountTells(f, DecFlags(f, a, size), a, -1, size)
  {
    hide Build, ResultBits, Tells, Has;
    var up, down := (a + 1) % Range(size), (a - 1) % Range(size);
    KeepsCarry(f, !SignBit(a, size) && SignBit(up, size), a % 16 + 1 > 15, up, size);
    KeepsCarry(f, SignBit(a, size) && !SignBit(down, size), a % 16 - 1 < 0, down, size);
    SumSigns(a, 0, 1, size);
    DifferenceSigns(a, 0, 1, size);
  }

  lemma KeepsCarry(f: Eflags, of: bool, af: bool, res: int, size: int)
    requires IsSize(size) && 0 <= res < Range(size)
    ensures var g := Build(f, DF | CF, false, of, af, ResultBits(res, size));
      && Has(g, CF) == Has(f, CF) && Has(g, OF) == of && Has(g, AF) == af && Tells(g, res, size) && Has(g, DF) == Has(f, DF)
  {
    hide Build, ResultBits, EvenParity, Ones, SignBit, BitOn, Has;
    CarryKeptBits(f, of, af, res, size);
    ParityIsOnes(res);
    Shifting.TopBit(res, size);
  }

  lemma CarryKeptBits(f: Eflags, of: bool, af: bool, res: int, size: int)
    requires IsSize(size)
    ensures var g := Build(f, DF | CF, false, of, af, ResultBits(res, size));
      && Has(g, CF) == Has(f, CF) && Has(g, OF) == of && Has(g, AF) == af
      && Has(g, ZF) == (res == 0) && Has(g, SF) == SignBit(res, size) && Has(g, PF) == EvenParity(res)
      && Has(g, DF) == Has(f, DF)
  {
    hide EvenParity, SignBit;
  }

  /** Rotates change CF and OF only. */
  lemma RotateFlagsExact(f: Eflags, cf: bool, of: bool)
    ensures var g := Build(f, DF | ZF | SF | PF | AF, cf, of, false, 0);
      && Has(g, CF) == cf && Has(g, OF) == of && Has(g, AF) == Has(f, AF)
      && Has(g, ZF) == Has(f, ZF) && Has(g, SF) == Has(f, SF) && Has(g, PF) == Has(f, PF) && Has(g, DF) == Has(f, DF)
  {
  }

  // ---- Saved words -----------------------------------------------------------------------------

  /** The low half of a word whose bit says something of flag, at the place of the flag in EFLAGS. */
  predicate Shows(b: bv16, f: Eflags) {
    && (Has(f, CF) <==> b & 0x0001 != 0) && (Has(f, PF) <==> b & 0x0004 != 0) && (Has(f, AF) <==> b & 0x0010 != 0)
    && (Has(f, ZF) <==> b & 0x0040 != 0) && (Has(f, SF) <==> b & 0x0080 != 0) && (Has(f, DF) <==> b & 0x0400 != 0)
    && (Has(f, OF) <==> b & 0x0800 != 0)
  }

  /** The saved word has CF, PF, AF, ZF, SF, DF and OF at the bits 0, 2, 4, 6, 7, 10 and 11; so has the word restored. */
  lemma FlagPlaces(f: Eflags, v: Word)
    ensures Shows(LowBits(ToWord(f)), f) && Shows(LowBits(v), FromWord(v))
  {
    LowBitsOf(f);
  }

  /** The flags other than CF, and than DF. */
  predicate KeepsAllButCarry(f: Eflags, g: Eflags) {
    && Has(g, PF) == Has(f, PF) && Has(g, AF) == Has(f, AF) && Has(g, ZF) == Has(f, ZF) && Has(g, SF) == Has(f, SF)
    && Has(g, DF) == Has(f, DF) && Has(g, OF) == Has(f, OF)
  }

  predicate KeepsAllButDirection(f: Eflags, g: Eflags) {
    && Has(g, CF) == Has(f, CF) && Has(g, PF) == Has(f, PF) && Has(g, AF) == Has(f, AF) && Has(g, ZF) == Has(f, ZF)
    && Has(g, SF) == Has(f, SF) && Has(g, OF) == Has(f, OF)
  }

  predicate CarryIs(f: Eflags, g: Eflags, c: bool) {
    Has(g, CF) == c && KeepsAllButCarry(f, g)
  }

  predicate DirectionIs(f: Eflags, g: Eflags, d: bool) {
    Has(g, DF) == d && KeepsAllButDirection(f, g)
  }

  /** clc and stc change CF only. */
  lemma CarryChangesExact(f: Eflags, ah: bv16)
    ensures CarryIs(f, ChangedFlags(Clc, f, ah), false) && CarryIs(f, ChangedFlags(Stc, f, ah), true)
  {
    hide CarryIs, ChangedFlags;
    ChangedCarry(f, ah);
    ClearedCarry(f);
    SetCarry(f);
  }

  lemma ChangedCarry(f: Eflags, ah: bv16)
    ensures ChangedFlags(Clc, f, ah) == f & !CF && ChangedFlags(Stc, f, ah) == f | CF
  {
    hide Has;
  }

  lemma ClearedCarry(f: Eflags)
    ensures CarryIs(f, f & !CF, false)
  {
  }

  lemma SetCarry(f: Eflags)
    ensures CarryIs(f, f | CF, true)
  {
  }

  /** cld and std change DF only. */
  lemma DirectionChangesExact(f: Eflags, ah: bv16)
    ensures DirectionIs(f, ChangedFlags(Cld, f, ah), false) && DirectionIs(f, ChangedFlags(Std, f, ah), true)
  {
    hide DirectionIs, ChangedFlags;
    ChangedDirection(f, ah);
    ClearedDirection(f);
    SetDirection(f);
  }

  lemma ChangedDirection(f: Eflags, ah: bv16)
    ensures ChangedFlags(Cld, f, ah) == f & !DF && ChangedFlags(Std, f, ah) == f | DF
  {
    hide Has;
  }

  lemma ClearedDirection(f: Eflags)
    ensures DirectionIs(f, f & !DF, false)
  {
  }

  lemma SetDirection(f: Eflags)
    ensures DirectionIs(f, f | DF, true)
  {
  }

  /** CF, PF, AF, ZF and SF are taken from AH; DF and OF are kept. */
  predicate TakesAh(f: Eflags, g: Eflags, ah: bv16) {
    && (Has(g, CF) <==> ah & 0x01 != 0) && (Has(g, PF) <==> ah & 0x04 != 0) && (Has(g, AF) <==> ah & 0x10 != 0)
    && (Has(g, ZF) <==> ah & 0x40 != 0) && (Has(g, SF) <==> ah & 0x80 != 0)
    && Has(g, DF) == Has(f, DF) && Has(g, OF) == Has(f, OF)
  }

  lemma SahfExact(f: Eflags, ah: bv16)
    ensures TakesAh(f, ChangedFlags(Sahf, f, ah), ah)
  {
  }

  lemma WithCarryExact(f: Eflags, c: bool)
    ensures CarryIs(f, WithCarry(f, c), c)
  {
  }

  /** ZF is as said, the other flags are as they were. */
  predicate ZeroIs(f: Eflags, g: Eflags, z: bool) {
    && Has(g, ZF) == z && Has(g, CF) == Has(f, CF) && Has(g, PF) == Has(f, PF) && Has(g, AF) == Has(f, AF)
    && Has(g, SF) == Has(f, SF) && Has(g, DF) == Has(f, DF) && Has(g, OF) == Has(f, OF)
  }

  lemma WithZeroExact(f: Eflags, z: bool)
    ensures ZeroIs(f, WithZero(f, z), z)
  {
  }
}
