/** What the shift, rotate, double-shift and bit handlers do to single bits (cpu86.py, the shift fragments
    and the bit instructions): an independent reading of the arithmetic they are written in. */
module Shifting {
  import opened Words
  import opened Decoder
  import opened Flags
  import opened Handlers
  import MultiLimb

  // ---- Bits of a number ------------------------------------------------------------

  lemma SplitPow2(n: nat, i: nat)
    requires i <= n
    ensures Pow2(n) == Pow2(i) * Pow2(n - i)
  {
    MultiLimb.Pow2Product(i, n - i);
  }

  lemma RangeIsPow2(size: int)
    requires IsSize(size)
    ensures Range(size) == Pow2(8 * size) && Half(size) == Pow2(8 * size - 1)
  {
    assert Pow2(7) == 128 && Pow2(8) == 256;
    if size > 1 {
      MultiLimb.Pow2Product(8, 8);
      MultiLimb.Pow2Product(8, 7);
    }
    if size > 2 {
      MultiLimb.Pow2Product(16, 16);
      MultiLimb.Pow2Product(16, 15);
    }
  }

  lemma QuotientOf(x: int, d: int, q: int, r: int)
    requires d > 0 && x == q * d + r && 0 <= r < d
    ensures x / d == q && x % d == r
  {
    var q1, r1 := x / d, x % d;
    assert (q - q1) * d == r1 - r;
    MultiLimb.Multiple(q - q1, d, r1 - r);
    NoFactor(q - q1, d);
  }

  lemma NoFactor(k: int, d: int)
    requires k * d == 0 && d > 0
    ensures k == 0
  {
  }

  lemma Doubled(q: int, p: int)
    ensures q * (2 * p) == 2 * (q * p)
  {
  }

  lemma ThroughHalf(x: int, p: int)
    requires p > 0
    ensures x / (2 * p) == x / 2 / p && x % (2 * p) == 2 * (x / 2 % p) + x % 2
  {
    var q, t := x / 2 / p, x / 2 % p;
    assert x / 2 == q * p + t;
    Doubled(q, p);
    QuotientOf(x, 2 * p, q, 2 * t + x % 2);
  }

  lemma ThroughTwo(x: int)
    ensures x / 0x100 / 0x100 == x / 0x1_0000
  {
  }

  /** Bits by halving. */
  lemma NextBit(x: int, i: nat)
    ensures BitOn(x, 0) == (x % 2 == 1)
    ensures BitOn(x, i + 1) == BitOn(x / 2, i)
  {
    ThroughHalf(x, Pow2(i));
  }

  /** Dropping low bits. */
  lemma {:induction false} BitOfHigh(x: int, n: nat, i: nat)
    ensures BitOn(x / Pow2(n), i) == BitOn(x, n + i)
    decreases n
  {
    hide BitOn;
    if n > 0 {
      ThroughHalf(x, Pow2(n - 1));
      BitOfHigh(x / 2, n - 1, i);
      NextBit(x, n - 1 + i);
    }
  }

  /** Reducing modulo a power of two keeps the low bits. */
  lemma {:induction false} BitOfMod(x: int, n: nat, i: nat)
    requires i < n
    ensures BitOn(x % Pow2(n), i) == BitOn(x, i)
    decreases n
  {
    hide BitOn;
    var y := x % Pow2(n);
    ThroughHalf(x, Pow2(n - 1));
    if i > 0 { BitOfMod(x / 2, n - 1, i - 1); }
    NextBit(x, Max(i - 1, 0));
    NextBit(y, Max(i - 1, 0));
  }

  /** Two fields side by side. */
  lemma {:induction false} BitOfPair(hi: int, lo: int, n: nat, i: nat)
    requires 0 <= lo < Pow2(n)
    ensures BitOn(hi * Pow2(n) + lo, i) == if i < n then BitOn(lo, i) else BitOn(hi, i - n)
    decreases n
  {
    hide BitOn;
    if n > 0 {
      var x, y := hi * Pow2(n) + lo, hi * Pow2(n - 1);
      Doubled(hi, Pow2(n - 1));
      assert x == 2 * y + lo && x / 2 == y + lo / 2 && x % 2 == lo % 2;
      NextBit(x, Max(i - 1, 0));
      NextBit(lo, Max(i - 1, 0));
      if i > 0 { BitOfPair(hi, lo / 2, n - 1, i - 1); }
    }
  }

  lemma ZeroBits(i: nat)
    ensures !BitOn(0, i)
  {
    QuotientOf(0, Pow2(i), 0, 0);
  }

  /** Multiplying by a power of two moves the bits up. */
  lemma BitOfShifted(x: int, n: nat, i: nat)
    ensures BitOn(x * Pow2(n), i) == (i >= n && BitOn(x, i - n))
  {
    BitOfPair(x, 0, n, i);
    ZeroBits(i);
  }

  lemma {:induction false} NoBitAbove(x: int, n: nat, i: nat)
    requires 0 <= x < Pow2(n) && n <= i
    ensures !BitOn(x, i)
  {
    SplitPow2(i, n);
    assert Pow2(i) >= Pow2(n) by { assert Pow2(n) * Pow2(i - n) >= Pow2(n) * 1; }
    QuotientOf(x, Pow2(i), 0, x);
  }

  /** Numbers with the same bits are the same. */
  lemma {:induction false} BitsDecide(x: int, y: int, n: nat)
    requires 0 <= x < Pow2(n) && 0 <= y < Pow2(n) && forall i: nat :: i < n ==> BitOn(x, i) == BitOn(y, i)
    ensures x == y
  {
    if n > 0 {
      forall i: nat | i < n - 1 ensures BitOn(x / 2, i) == BitOn(y / 2, i) {
        BitOfHigh(x, 1, i);
        BitOfHigh(y, 1, i);
        assert Pow2(1) == 2 && BitOn(x, i + 1) == BitOn(y, i + 1);
      }
      BitsDecide(x / 2, y / 2, n - 1);
      assert BitOn(x, 0) == BitOn(y, 0);
    }
  }

  /** The two's-complement reading repeats the sign bit. */
  lemma BitOfSigned(a: int, size: int, i: nat)
    requires IsSize(size) && 0 <= a < Range(size)
    ensures BitOn(Signed(a, size), i) == if i < 8 * size then BitOn(a, i) else SignBit(a, size)
  {
    RangeIsPow2(size);
    var n := 8 * size;
    if i < n {
      BitOfMod(Signed(a, size), n, i);
      if SignBit(a, size) { QuotientOf(Signed(a, size), Range(size), -1, a); }
    } else if SignBit(a, size) {
      BitOfPair(-1, a, n, i);
      MinusOneBits(i - n);
    } else {
      NoBitAbove(a, n, i);
    }
  }

  lemma MinusOneBits(i: nat)
    ensures BitOn(-1, i)
  {
    QuotientOf(-1, Pow2(i), -1, Pow2(i) - 1);
  }

  lemma TopBit(a: int, size: int)
    requires IsSize(size) && 0 <= a < Range(size)
    ensures BitOn(a, 8 * size - 1) == SignBit(a, size)
  {
    RangeIsPow2(size);
    if SignBit(a, size) { QuotientOf(a, Half(size), 1, a - Half(size)); } else { QuotientOf(a, Half(size), 0, a); }
  }

  // ---- Shifts ----------------------------------------------------------------------------

  /** What bit i of a shifted or rotated operand must be: shl (4 and 6), shr (5), sar (7), rol (0), ror (1). */
  predicate ShiftedBit(kind: nat, a: int, cnt: nat, size: int, i: nat)
    requires IsSize(size) && i < 8 * size
  {
    var bits := 8 * size;
    if kind == 4 || kind == 6 then i >= cnt && BitOn(a, i - cnt)
    else if kind == 5 then i + cnt < bits && BitOn(a, i + cnt)
    else if kind == 7 then BitOn(a, if i + cnt < bits then i + cnt else bits - 1)
    else if kind == 0 then BitOn(a, (i + bits - cnt % bits) % bits)
    else BitOn(a, (i + cnt) % bits)
  }

  /** The bit shifted or rotated out last; past the operand, shl and shr push out zeros and sar its sign. */
  predicate BitOut(kind: nat, a: int, cnt: nat, size: int)
    requires IsSize(size) && cnt >= 1
  {
    var bits := 8 * size;
    if kind == 4 || kind == 6 then cnt <= bits && BitOn(a, bits - cnt)
    else if kind == 5 then cnt <= bits && BitOn(a, cnt - 1)
    else if kind == 7 then BitOn(a, Min(cnt, bits) - 1)
    else if kind == 0 then BitOn(a, (bits - cnt % bits) % bits)
    else BitOn(a, (cnt + bits - 1) % bits)
  }

  /** Every shift and rotate by 1 to 31 bits, bit by bit, with the carry. */
  lemma ShiftExact(kind: nat, a: int, cnt: nat, size: int, i: nat)
    requires IsSize(size) && 0 <= a < Range(size) && 1 <= cnt <= 31 && i < 8 * size
    requires kind < 8 && kind != 2 && kind != 3
    ensures var s := ShiftValue(kind, a, cnt, size);
      0 <= s.res < Range(size) && BitOn(s.res, i) == ShiftedBit(kind, a, cnt, size, i) && s.cf == BitOut(kind, a, cnt, size)
  {
    if kind == 4 || kind == 6 { LeftExact(kind, a, cnt, size, i); }
    else if kind == 5 { RightExact(a, cnt, size, i); }
    else if kind == 7 { ArithmeticExact(a, cnt, size, i); }
    else if kind == 0 { RotateLeftExact(a, cnt, size, i); }
    else { RotateRightExact(a, cnt, size, i); }
  }

  lemma LeftExact(kind: nat, a: int, cnt: nat, size: int, i: nat)
    requires IsSize(size) && 0 <= a < Range(size) && 1 <= cnt <= 31 && i < 8 * size && (kind == 4 || kind == 6)
    ensures var s := ShiftValue(kind, a, cnt, size);
      0 <= s.res < Range(size) && BitOn(s.res, i) == ShiftedBit(kind, a, cnt, size, i) && s.cf == BitOut(kind, a, cnt, size)
  {
    hide Pow2;
    var bits := 8 * size;
    RangeIsPow2(size);
    BitOfMod(a * Pow2(cnt), bits, i);
    BitOfShifted(a, cnt, i);
    BitOfShifted(a, cnt, bits);
  }

  lemma RightExact(a: int, cnt: nat, size: int, i: nat)
    requires IsSize(size) && 0 <= a < Range(size) && 1 <= cnt <= 31 && i < 8 * size
    ensures var s := ShiftValue(5, a, cnt, size);
      0 <= s.res < Range(size) && BitOn(s.res, i) == ShiftedBit(5, a, cnt, size, i) && s.cf == BitOut(5, a, cnt, size)
  {
    hide Pow2;
    var bits := 8 * size;
    RangeIsPow2(size);
    BitOfMod(a / Pow2(cnt), bits, i);
    BitOfHigh(a, cnt, i);
    if i + cnt >= bits { NoBitAbove(a, bits, i + cnt); }
  }

  lemma ArithmeticExact(a: int, cnt: nat, size: int, i: nat)
    requires IsSize(size) && 0 <= a < Range(size) && 1 <= cnt <= 31 && i < 8 * size
    ensures var s := ShiftValue(7, a, cnt, size);
      0 <= s.res < Range(size) && BitOn(s.res, i) == ShiftedBit(7, a, cnt, size, i) && s.cf == BitOut(7, a, cnt, size)
  {
    hide Pow2;
    var bits, v := 8 * size, Signed(a, size);
    RangeIsPow2(size);
    BitOfMod(v / Pow2(cnt), bits, i);
    BitOfHigh(v, cnt, i);
    BitOfSigned(a, size, i + cnt);
    BitOfSigned(a, size, cnt - 1);
    TopBit(a, size);
  }

  /** Rotating left by c < bits puts the top c bits below the others. */
  lemma RotatedBits(a: int, c: nat, bits: nat, i: nat)
    requires 0 < c < bits && 0 <= a < Pow2(bits) && i < bits
    ensures var res := a * Pow2(c) % Pow2(bits) + a / Pow2(bits - c);
      0 <= res < Pow2(bits) && BitOn(res, i) == BitOn(a, if i < c then i + bits - c else i - c)
  {
    hide BitOn;
    var top, low := a / Pow2(bits - c), a % Pow2(bits - c);
    SplitPow2(bits, c);
    RotateSplit(a, Pow2(c), Pow2(bits - c));
    BitOfPair(low, top, c, i);
    if i < c { BitOfHigh(a, bits - c, i); } else { BitOfMod(a, bits - c, i - c); }
  }

  lemma RotateSplit(a: int, p: int, q: int)
    requires p >= 1 && q >= 1 && 0 <= a < p * q
    ensures a * p % (p * q) == a % q * p && 0 <= a / q < p && a % q * p + p <= p * q
  {
    var top, low := a / q, a % q;
    MultiLimb.Bounded(top, p, q, a);
    assert low * p + p <= p * q by { Scaled(low + 1, q, p); }
    assert a * p == top * (p * q) + low * p by {
      assert a == top * q + low;
      Spread(top, q, low, p);
    }
    QuotientOf(a * p, p * q, top, low * p);
  }

  lemma Scaled(x: int, q: int, p: int)
    requires x <= q && p >= 1
    ensures x * p <= p * q && x * p == (x - 1) * p + p
  {
  }

  lemma Spread(top: int, q: int, low: int, p: int)
    ensures (top * q + low) * p == top * (p * q) + low * p
  {
  }

  lemma RotateLeftExact(a: int, cnt: nat, size: int, i: nat)
    requires IsSize(size) && 0 <= a < Range(size) && 1 <= cnt <= 31 && i < 8 * size
    ensures var s := ShiftValue(0, a, cnt, size);
      0 <= s.res < Range(size) && BitOn(s.res, i) == ShiftedBit(0, a, cnt, size, i) && s.cf == BitOut(0, a, cnt, size)
  {
    hide Pow2, BitOn;
    var bits := 8 * size;
    var c := cnt % bits;
    RangeIsPow2(size);
    Around(i + bits - c, bits);
    Around(bits - c, bits);
    NextBit(ShiftValue(0, a, cnt, size).res, 0);
    if c > 0 {
      RotatedBits(a, c, bits, i);
      RotatedBits(a, c, bits, 0);
    }
  }

  /** Going once around the operand. */
  lemma Around(x: nat, bits: nat)
    requires (bits == 8 || bits == 16 || bits == 32) && x < 2 * bits
    ensures x % bits == if x < bits then x else x - bits
  {
  }

  lemma Reduced(x: nat, cnt: nat, bits: nat)
    requires bits == 8 || bits == 16 || bits == 32
    ensures cnt % bits < bits && (x + cnt) % bits == (x + cnt % bits) % bits
  {
    if bits == 8 {
      QuotientOf(x + cnt, 8, cnt / 8 + (x + cnt % 8) / 8, (x + cnt % 8) % 8);
    } else if bits == 16 {
      QuotientOf(x + cnt, 16, cnt / 16 + (x + cnt % 16) / 16, (x + cnt % 16) % 16);
    } else {
      QuotientOf(x + cnt, 32, cnt / 32 + (x + cnt % 32) / 32, (x + cnt % 32) % 32);
    }
  }

  lemma AroundBy(x: nat, cnt: nat, bits: nat)
    requires (bits == 8 || bits == 16 || bits == 32) && x < bits
    ensures var c := cnt % bits; c < bits && (x + cnt) % bits == if x + c < bits then x + c else x + c - bits
  {
    Reduced(x, cnt, bits);
    Around(x + cnt % bits, bits);
  }

  lemma RightRotation(a: int, cnt: nat, size: int)
    requires IsSize(size)
    ensures var s, c, bits := ShiftValue(1, a, cnt, size), cnt % (8 * size), 8 * size;
      && s.cf == SignBit(s.res, size)
      && s.res == if c == 0 then a else a * Pow2(bits - c) % Range(size) + a / Pow2(c)
  {
  }

  lemma RotateRightExact(a: int, cnt: nat, size: int, i: nat)
    requires IsSize(size) && 0 <= a < Range(size) && 1 <= cnt <= 31 && i < 8 * size
    ensures var s := ShiftValue(1, a, cnt, size);
      0 <= s.res < Range(size) && BitOn(s.res, i) == ShiftedBit(1, a, cnt, size, i) && s.cf == BitOut(1, a, cnt, size)
  {
    hide Pow2, BitOn, ShiftValue;
    var bits, res := 8 * size, ShiftValue(1, a, cnt, size).res;
    var c := cnt % bits;
    RangeIsPow2(size);
    RightRotation(a, cnt, size);
    AroundBy(i, cnt, bits);
    AroundBy(bits - 1, cnt, bits);
    if c > 0 {
      RotatedBits(a, bits - c, bits, i);
      RotatedBits(a, bits - c, bits, bits - 1);
    }
    TopBit(res, size);
  }

  /** Rotating back undoes a rotation, for every size and count. */
  lemma RotationsUndo(a: int, cnt: nat, size: int)
    requires IsSize(size) && 0 <= a < Range(size) && 1 <= cnt <= 31
    ensures ShiftValue(1, ShiftValue(0, a, cnt, size).res, cnt, size).res == a
    ensures ShiftValue(0, ShiftValue(1, a, cnt, size).res, cnt, size).res == a
  {
    hide BitOn, ShiftValue;
    var bits := 8 * size;
    var l, r := ShiftValue(0, a, cnt, size).res, ShiftValue(1, a, cnt, size).res;
    ShiftExact(0, a, cnt, size, 0);
    ShiftExact(1, a, cnt, size, 0);
    var x, y := ShiftValue(1, l, cnt, size).res, ShiftValue(0, r, cnt, size).res;
    ShiftExact(1, l, cnt, size, 0);
    ShiftExact(0, r, cnt, size, 0);
    RangeIsPow2(size);
    forall i: nat | i < bits ensures BitOn(x, i) == BitOn(a, i) && BitOn(y, i) == BitOn(a, i) {
      var up, down := (i + cnt) % bits, (i + bits - cnt % bits) % bits;
      ShiftExact(1, l, cnt, size, i);
      ShiftExact(0, a, cnt, size, up);
      ShiftExact(0, r, cnt, size, i);
      ShiftExact(1, a, cnt, size, down);
      Turned(i, cnt, bits);
    }
    BitsDecide(x, a, bits);
    BitsDecide(y, a, bits);
  }

  lemma Turned(i: nat, cnt: nat, bits: nat)
    requires bits == 8 || bits == 16 || bits == 32
    requires i < bits && cnt <= 31
    ensures ((i + cnt) % bits + bits - cnt % bits) % bits == i
    ensures ((i + bits - cnt % bits) % bits + cnt) % bits == i
  {
    Reduced(i, cnt, bits);
    Reduced((i + bits - cnt % bits) % bits, cnt, bits);
    TurnedBack(i, cnt % bits, bits);
  }

  lemma TurnedBack(i: nat, c: nat, bits: nat)
    requires (bits == 8 || bits == 16 || bits == 32) && i < bits && c < bits
    ensures ((i + c) % bits + bits - c) % bits == i && ((i + bits - c) % bits + c) % bits == i
  {
    Around(i + c, bits);
    Around(i + bits - c, bits);
    Around((i + c) % bits + bits - c, bits);
    Around((i + bits - c) % bits + c, bits);
  }

  /** Shifting left by one sets OF exactly if doubling the signed operand overflows. */
  lemma DoublingOverflows(a: int, size: int)
    requires IsSize(size) && 0 <= a < Range(size)
    ensures ShiftValue(4, a, 1, size).of <==> !(-Half(size) <= 2 * Signed(a, size) < Half(size))
  {
    assert Pow2(1) == 2;
    QuotientOf(2 * a, Range(size), if a >= Half(size) then 1 else 0, 2 * a - if a >= Half(size) then Range(size) else 0);
  }

  // ---- Double shifts -----------------------------------------------------------------------

  /** shld and shrd take the bits that enter from the other operand. */
  lemma DoubleShiftExact(left: bool, dst: int, src: int, cnt: nat, size: int, i: nat)
    requires IsSize(size) && 0 <= dst < Range(size) && 0 <= src < Range(size) && i < 8 * size
    requires 1 <= cnt && (left ==> cnt <= 8 * size)
    ensures var s := DoubleShiftValue(left, dst, src, cnt, size);
      && 0 <= s.res < Range(size)
      && (left ==> BitOn(s.res, i) == (if i >= cnt then BitOn(dst, i - cnt) else BitOn(src, i + 8 * size - cnt)))
      && (!left ==> BitOn(s.res, i) == (if i + cnt < 8 * size then BitOn(dst, i + cnt) else BitOn(src, i + cnt - 8 * size)))
      && s.cf == BitOn(dst, if left then 8 * size - cnt else cnt - 1)
  {
    hide Pow2;
    var bits := 8 * size;
    RangeIsPow2(size);
    if left {
      var wide := dst * Pow2(bits) + src;
      BitOfMod(wide * Pow2(cnt) / Pow2(bits), bits, i);
      BitOfHigh(wide * Pow2(cnt), bits, i);
      BitOfShifted(wide, cnt, bits + i);
      BitOfPair(dst, src, bits, bits + i - cnt);
    } else {
      var wide := src * Pow2(bits) + dst;
      BitOfMod(wide / Pow2(cnt), bits, i);
      BitOfHigh(wide, cnt, i);
      BitOfPair(src, dst, bits, cnt + i);
    }
  }

  // ---- Single bits -------------------------------------------------------------------------------

  /** Setting or clearing one bit changes that bit only. */
  lemma SetBitExact(v: int, bit: nat, on: bool, i: nat)
    ensures BitOn(SetBit(v, bit, on), i) == if i == bit then on else BitOn(v, i)
  {
    hide BitOn, Pow2;
    if BitOn(v, bit) != on {
      var q, r := v / Pow2(bit), v % Pow2(bit);
      var q' := if on then q + 1 else q - 1;
      SetBitField(v, bit, on);
      BitOfPair(q, r, bit, i);
      BitOfPair(q', r, bit, i);
      NextBit(q, Max(i - bit - 1, 0));
      NextBit(q', Max(i - bit - 1, 0));
    }
  }

  /** The bit is the lowest of the field above it. */
  lemma SetBitField(v: int, bit: nat, on: bool)
    requires BitOn(v, bit) != on
    ensures var q := v / Pow2(bit);
      && (q % 2 == 1) == !on
      && v == q * Pow2(bit) + v % Pow2(bit)
      && SetBit(v, bit, on) == (if on then q + 1 else q - 1) * Pow2(bit) + v % Pow2(bit)
  {
    var q, p := v / Pow2(bit), Pow2(bit);
    hide Pow2;
    Neighbours(q, p);
    DivisionLaw(v, p);
  }

  lemma Neighbours(q: int, p: int)
    ensures (q + 1) * p == q * p + p && (q - 1) * p == q * p - p
  {
  }

  lemma DivisionLaw(x: int, d: int)
    requires d > 0
    ensures x == x / d * d + x % d && 0 <= x % d < d
  {
  }

  /** bts, btr and btc do to the selected bit what they say, and nothing to the others. */
  lemma BitOperation(sub: int, v: int, bit: nat, i: nat)
    requires 5 <= sub <= 7
    ensures BitOn(ChangedBit(sub, v, bit), i) ==
      if i != bit then BitOn(v, i) else if sub == 5 then true else if sub == 6 then false else !BitOn(v, bit)
  {
    SetBitExact(v, bit, if sub == 5 then true else if sub == 6 then false else !BitOn(v, bit), i);
  }

  /** bsf finds the lowest bit that is on. */
  lemma {:induction false} LowestBitExact(v: nat, i: nat)
    requires v > 0
    ensures BitOn(v, LowestBit(v)) && (i < LowestBit(v) ==> !BitOn(v, i))
  {
    if v % 2 == 0 {
      LowestBitExact(v / 2, if i > 0 then i - 1 else 0);
      BitOfHigh(v, 1, LowestBit(v / 2));
      if i > 0 { BitOfHigh(v, 1, i - 1); }
      assert Pow2(1) == 2;
    }
  }

  /** bsr finds the highest. */
  lemma {:induction false} HighestBitExact(v: nat, i: nat)
    requires v > 0
    ensures BitOn(v, HighestBit(v)) && (i > HighestBit(v) ==> !BitOn(v, i))
  {
    if v == 1 {
      if i > 0 { NoBitAbove(1, 1, i); }
    } else {
      HighestBitExact(v / 2, if i > 0 then i - 1 else 0);
      BitOfHigh(v, 1, HighestBit(v / 2));
      if i > 0 { BitOfHigh(v, 1, i - 1); }
      assert Pow2(1) == 2;
    }
  }

  /** and, or and xor connect the operands bit by bit. */
  lemma {:induction false} BitwiseExact(c: Connective, a: nat, b: nat, n: nat, i: nat)
    ensures BitOn(Bitwise(c, a, b, n), i) == (i < n && Connects(c, BitOn(a, i), BitOn(b, i)))
    decreases n
  {
    if n == 0 {
      ZeroBits(i);
    } else {
      var r := Bitwise(c, a, b, n);
      var bit := if Connects(c, a % 2 == 1, b % 2 == 1) then 1 else 0;
      assert r / 2 == Bitwise(c, a / 2, b / 2, n - 1) && r % 2 == bit;
      if i == 0 {
        NextBit(r, 0);
        NextBit(a, 0);
        NextBit(b, 0);
      } else {
        NextBit(r, i - 1);
        NextBit(a, i - 1);
        NextBit(b, i - 1);
        BitwiseExact(c, a / 2, b / 2, n - 1, i - 1);
      }
    }
  }

  /** Connecting words bit by bit. */
  lemma LogicExact(op: nat, a: Word, b: Word, i: nat)
    requires i < 32 && (op == 1 || op == 4 || op == 6)
    ensures BitOn(Logic(op, a, b), i) ==
      if op == 1 then BitOn(a, i) || BitOn(b, i) else if op == 4 then BitOn(a, i) && BitOn(b, i) else BitOn(a, i) != BitOn(b, i)
  {
    hide Bitwise;
    BitwiseExact(if op == 1 then Disjunction else if op == 4 then Conjunction else Exclusion, a, b, 32, i);
  }

  /** Connected values of a size stay in it. */
  lemma {:induction false} BitwiseBound(c: Connective, a: nat, b: nat, n: nat, k: nat)
    requires k <= n && a < Pow2(k) && b < Pow2(k)
    ensures Bitwise(c, a, b, n) < Pow2(k)
    decreases n
  {
    if k > 0 { BitwiseBound(c, a / 2, b / 2, n - 1, k - 1); }
    else if n > 0 { BitwiseBound(c, 0, 0, n - 1, 0); }
  }
}
