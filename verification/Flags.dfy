/** EFLAGS and the flag fragments of the arithmetic handlers (cpu86.py). */
module Flags {
  import opened Words

  type Eflags = bv16

  const CF: Eflags := 0x0001
  const PF: Eflags := 0x0004
  const AF: Eflags := 0x0010
  const ZF: Eflags := 0x0040
  const SF: Eflags := 0x0080
  const DF: Eflags := 0x0400
  const OF: Eflags := 0x0800
  const EFLAGS_BASE: Eflags := 0x0202

  /** The word `popf` and signal return store: only the seven modelled flags are taken. */
  function FromWord(v: Word): Eflags {
    Masked(LowBits(v))
  }

  function LowBits(v: Word): bv16 {
    (v % 0x1_0000) as bv16
  }

  function Masked(b: bv16): Eflags {
    (b & 0x0CD5) | EFLAGS_BASE
  }

  function ToWord(f: Eflags): (w: Word)
    ensures w < 0x1_0000
  {
    f as int
  }

  /** The form every flag writer must keep: a saved word restores the flags it was saved from. */
  predicate WellFormed(f: Eflags) {
    (f & 0x0CD5) | 0x0202 == f
  }

  lemma SaveRestore(f: Eflags)
    requires WellFormed(f)
    ensures FromWord(ToWord(f)) == f
  {
    LowBitsOf(f);
  }

  lemma LowBitsOf(f: Eflags)
    ensures LowBits(ToWord(f)) == f
  {
    var w := f as int;
    assert w % 0x1_0000 == w;
  }

  predicate Has(f: Eflags, bit: Eflags) {
    f & bit != 0
  }

  function When(c: bool, bit: Eflags): Eflags {
    if c then bit else 0
  }

  /** PF is set when the low byte has an even number of ones. */
  predicate EvenParity(v: int) {
    (v % 2 + v / 2 % 2 + v / 4 % 2 + v / 8 % 2 + v / 16 % 2 + v / 32 % 2 + v / 64 % 2 + v / 128 % 2) % 2 == 0
  }

  predicate SignBit(v: int, size: int)
    requires IsSize(size)
  {
    v >= Half(size)
  }

  /** ZF, SF and PF of a result already reduced to the operand size. */
  function ResultBits(res: int, size: int): Eflags
    requires IsSize(size)
  {
    When(res == 0, ZF) | When(SignBit(res, size), SF) | When(EvenParity(res), PF)
  }

  /** A flag image: the constant bits, the kept bits of the old flags, and the computed ones. */
  function Build(old_: Eflags, keep: Eflags, cf: bool, of: bool, af: bool, bits: Eflags): Eflags {
    EFLAGS_BASE | (old_ & keep) | When(cf, CF) | When(of, OF) | When(af, AF) | bits
  }

  lemma BuildWellFormed(old_: Eflags, keep: Eflags, cf: bool, of: bool, af: bool, bits: Eflags)
    requires keep & 0x0CD5 == keep && bits & 0x0CD5 == bits
    ensures WellFormed(Build(old_, keep, cf, of, af, bits))
  {
  }

  function LogicFlags(old_: Eflags, res: int, size: int): Eflags
    requires IsSize(size)
  {
    Build(old_, DF, false, false, false, ResultBits(res, size))
  }

  /** a + b + c: the truncated sum and its flags. The overflow test of the source looks only at
      the sign bits of a, b and the sum. */
  function AddFlags(old_: Eflags, a: int, b: int, c: int, size: int): Eflags
    requires IsSize(size)
  {
    var res := a + b + c;
    var t := res % Range(size);
    Build(old_, DF, res >= Range(size),
          SignBit(a, size) == SignBit(b, size) && SignBit(a, size) != SignBit(t, size),
          a % 16 + b % 16 + c > 15,
          ResultBits(t, size))
  }

  /** a - b - c. */
  function SubFlags(old_: Eflags, a: int, b: int, c: int, size: int): Eflags
    requires IsSize(size)
  {
    var res := a - b - c;
    var t := res % Range(size);
    Build(old_, DF, res < 0,
          SignBit(a, size) != SignBit(b, size) && SignBit(a, size) != SignBit(t, size),
          a % 16 - b % 16 - c < 0,
          ResultBits(t, size))
  }

  /** inc and dec leave CF alone. */
  function IncFlags(old_: Eflags, a: int, size: int): Eflags
    requires IsSize(size)
  {
    var res := (a + 1) % Range(size);
    Build(old_, DF | CF, false, !SignBit(a, size) && SignBit(res, size), a % 16 + 1 > 15, ResultBits(res, size))
  }

  function DecFlags(old_: Eflags, a: int, size: int): Eflags
    requires IsSize(size)
  {
    var res := (a - 1) % Range(size);
    Build(old_, DF | CF, false, SignBit(a, size) && !SignBit(res, size), a % 16 - 1 < 0, ResultBits(res, size))
  }

  /** imul and mul: CF and OF say that the high half is significant. */
  function MulFlags(old_: Eflags, low: int, wide: bool, size: int): Eflags
    requires IsSize(size)
  {
    Build(old_, DF, wide, wide, false, ResultBits(low, size))
  }

  /** The result, carry and overflow of a shift or rotate by 1..31. */
  datatype Shifted = Shifted(res: int, cf: bool, of: bool)

  function ShiftValue(kind: nat, a: int, cnt: nat, size: int): Shifted
    requires IsSize(size)
  {
    var bits, range := 8 * size, Range(size);
    if kind == 4 || kind == 6 then
      var wide := a * Pow2(cnt);
      var cf := wide / range % 2 == 1;
      Shifted(wide % range, cf, SignBit(wide % range, size) != cf)
    else if kind == 5 then
      Shifted(a / Pow2(cnt) % range,
              cnt > 0 && cnt <= bits && a / Pow2(cnt - 1) % 2 == 1,
              cnt == 1 && SignBit(a, size))
    else if kind == 7 then
      var sv := Signed(a, size);
      Shifted(sv / Pow2(cnt) % range, cnt > 0 && sv / Pow2(cnt - 1) % 2 == 1, false)
    else
      var c := cnt % bits;
      if kind == 0 then
        var res := if c == 0 then a else a * Pow2(c) % range + a / Pow2(bits - c);
        Shifted(res, res % 2 == 1, SignBit(res, size) != (res % 2 == 1))
      else
        var res := if c == 0 then a else a / Pow2(c) + a * Pow2(bits - c) % range;
        Shifted(res, SignBit(res, size), SignBit(res, size) != (res % Half(size) >= Half(size) / 2))
  }

  /** Rotates change only CF and OF. */
  function ShiftFlags(old_: Eflags, kind: nat, s: Shifted, cnt: nat, size: int): Eflags
    requires IsSize(size)
  {
    if kind <= 1 then Build(old_, DF | ZF | SF | PF | AF, s.cf, s.of, false, 0)
    else Build(old_, DF, s.cf, s.of && cnt == 1, false, ResultBits(s.res, size))
  }

  // ---- Condition codes ---------------------------------------------------------

  /** Sign and overflow, moved to the same bit, differ. */
  predicate Less(f: Eflags): (r: bool)
    ensures r == (Has(f, SF) != Has(f, OF))
  {
    ((f >> 7) ^ (f >> 11)) & 1 != 0
  }

  /** The table of the sixteen conditions. */
  predicate Condition(cc: nat, f: Eflags) {
    match cc
    case 0 => f & OF != 0
    case 1 => !(f & OF != 0)
    case 2 => f & CF != 0
    case 3 => !(f & CF != 0)
    case 4 => f & ZF != 0
    case 5 => !(f & ZF != 0)
    case 6 => f & (CF | ZF) != 0
    case 7 => !(f & (CF | ZF) != 0)
    case 8 => f & SF != 0
    case 9 => !(f & SF != 0)
    case 10 => f & PF != 0
    case 11 => !(f & PF != 0)
    case 12 => Less(f)
    case 13 => !Less(f)
    case 14 => f & ZF != 0 || Less(f)
    case _ => !(f & ZF != 0) && !Less(f)
  }

  /** Two conditions test two flags at once. */
  lemma BelowOrEqual(f: Eflags)
    ensures f & (CF | ZF) != 0 <==> Has(f, CF) || Has(f, ZF)
  {
  }

  /** What the bits of a built image read back as. */
  lemma BuildBits(old_: Eflags, cf: bool, of: bool, af: bool, res: int, size: int)
    requires IsSize(size)
    ensures var f := Build(old_, DF, cf, of, af, ResultBits(res, size));
      && Has(f, CF) == cf && Has(f, OF) == of && Has(f, AF) == af
      && Has(f, ZF) == (res == 0) && Has(f, SF) == SignBit(res, size) && Has(f, PF) == EvenParity(res)
      && Has(f, DF) == Has(old_, DF)
  {
    hide EvenParity, SignBit;
  }
}
