/** Multi-word arithmetic out of the 32-bit handlers (cpu86.py, the ALU and shift fragments):
    add/adc, sub/sbb and shld/shl chains. Numbers are sequences of limbs, lowest first. */
module MultiLimb {
  import opened Words
  import opened Decoder
  import opened Flags
  import opened Handlers

  type Limbs = seq<Word>

  /** 2^(32 n). */
  function Weight(n: nat): (w: int)
    ensures w >= 1
  {
    if n == 0 then 1 else TWO32 * Weight(n - 1)
  }

  function Value(a: Limbs): (v: int)
    ensures 0 <= v < Weight(|a|)
  {
    if |a| == 0 then 0 else a[0] + TWO32 * Value(a[1..])
  }

  /** The two's-complement reading. */
  function SignedValue(a: Limbs): int
    requires |a| > 0
  {
    if a[|a| - 1] >= Half(4) then Value(a) - Weight(|a|) else Value(a)
  }

  lemma {:induction false} SignedSplit(a: Limbs)
    requires |a| > 1
    ensures SignedValue(a) == a[0] + TWO32 * SignedValue(a[1..])
  {
  }

  lemma OneLimb(a: Limbs)
    requires |a| == 1
    ensures SignedValue(a) == Signed(a[0], 4) && Value(a) == a[0]
    ensures forall v :: FitsSigned(v, 1) <==> -Half(4) <= v < Half(4)
  {
    assert Value(a[1..]) == 0;
  }

  /** The range of signed n-limb numbers. */
  predicate FitsSigned(v: int, n: nat)
    requires n > 0
  {
    -Half(4) * Weight(n - 1) <= v < Half(4) * Weight(n - 1)
  }

  // ---- add/adc and sub/sbb ------------------------------------------------------------------

  function Carry(f: Eflags): int {
    if Has(f, CF) then 1 else 0
  }

  /** One limb's turn: the flags it found, its operands, the digit it left and the flags after it. */
  datatype Turn = Turn(before: Eflags, a: Word, b: Word, digit: Word, after: Eflags)

  /** The turn is that of an ALU operation (0 add, 2 adc, 3 sbb, 5 sub). */
  predicate Does(t: Turn, op: nat) {
    Alu(op, t.before, t.a, t.b, 4) == (t.digit, t.after)
  }

  /** All turns are those of one operation, and whatever runs between them keeps the carry. */
  predicate Chained(ts: seq<Turn>, op: nat) {
    && (forall i :: 0 <= i < |ts| ==> Does(ts[i], op))
    && (forall i :: 1 <= i < |ts| ==> Carry(ts[i].before) == Carry(ts[i - 1].after))
  }

  /** The lowest limb has an operation of its own. */
  predicate Started(ts: seq<Turn>, first: nat, op: nat) {
    && |ts| > 0 && Does(ts[0], first) && Chained(ts[1..], op)
    && (|ts| > 1 ==> Carry(ts[1].before) == Carry(ts[0].after))
  }

  function Lefts(ts: seq<Turn>): (r: Limbs)
    ensures |r| == |ts|
  {
    if |ts| == 0 then [] else [ts[0].a] + Lefts(ts[1..])
  }

  function Rights(ts: seq<Turn>): (r: Limbs)
    ensures |r| == |ts|
  {
    if |ts| == 0 then [] else [ts[0].b] + Rights(ts[1..])
  }

  function DigitsOf(ts: seq<Turn>): (r: Limbs)
    ensures |r| == |ts|
  {
    if |ts| == 0 then [] else [ts[0].digit] + DigitsOf(ts[1..])
  }

  /** The flags at the end. */
  function LastFlags(f: Eflags, ts: seq<Turn>): Eflags {
    if |ts| == 0 then f else ts[|ts| - 1].after
  }

  lemma Unfolds(f: Eflags, ts: seq<Turn>)
    requires |ts| > 0
    ensures Lefts(ts)[0] == ts[0].a && Lefts(ts)[1..] == Lefts(ts[1..])
    ensures Rights(ts)[0] == ts[0].b && Rights(ts)[1..] == Rights(ts[1..])
    ensures DigitsOf(ts) == [ts[0].digit] + DigitsOf(ts[1..])
    ensures LastFlags(f, ts) == LastFlags(ts[0].after, ts[1..])
  {
  }

  lemma ChainedRest(ts: seq<Turn>, op: nat)
    requires |ts| > 0 && Chained(ts, op)
    ensures Does(ts[0], op) && Chained(ts[1..], op)
    ensures |ts| > 1 ==> Carry(ts[1..][0].before) == Carry(ts[0].after)
  {
    hide Does, Carry;
  }

  /** One addition step: an exact digit and carry, and OF for the signed range. */
  lemma AddLimb(f: Eflags, a: Word, b: Word, c: int)
    requires 0 <= c <= 1
    ensures var g := AddFlags(f, a, b, c, 4);
      && (a + b + c) % TWO32 + TWO32 * Carry(g) == a + b + c
      && (Has(g, OF) <==> !(-Half(4) <= Signed(a, 4) + Signed(b, 4) + c < Half(4)))
  {
    hide EvenParity;
    var res := (a + b + c) % TWO32;
    var of := SignBit(a, 4) == SignBit(b, 4) && SignBit(a, 4) != SignBit(res, 4);
    BuildBits(f, a + b + c >= TWO32, of, a % 16 + b % 16 + c > 15, res, 4);
  }

  lemma SubLimb(f: Eflags, a: Word, b: Word, c: int)
    requires 0 <= c <= 1
    ensures var g := SubFlags(f, a, b, c, 4);
      && (a - b - c) % TWO32 - TWO32 * Carry(g) == a - b - c
      && (Has(g, OF) <==> !(-Half(4) <= Signed(a, 4) - Signed(b, 4) - c < Half(4)))
      && (Less(g) <==> Signed(a, 4) - Signed(b, 4) - c < 0)
  {
    hide EvenParity;
    var res := (a - b - c) % TWO32;
    var of := SignBit(a, 4) != SignBit(b, 4) && SignBit(a, 4) != SignBit(res, 4);
    BuildBits(f, a - b - c < 0, of, a % 16 - b % 16 - c < 0, res, 4);
  }

  /** An ALU step of an addition (op 0 or 2) or of a subtraction (op 5 or 3), as an exact digit. */
  lemma AdditionStep(op: nat, f: Eflags, a: Word, b: Word)
    requires op == 0 || op == 2
    ensures var (v, g) := Alu(op, f, a, b, 4);
      var c := if op == 0 then 0 else Carry(f);
      && 0 <= v < TWO32 && v + TWO32 * Carry(g) == a + b + c
      && (Has(g, OF) <==> !(-Half(4) <= Signed(a, 4) + Signed(b, 4) + c < Half(4)))
  {
    hide AddFlags, SubFlags, Has, Logic, LogicFlags;
    AddLimb(f, a, b, if op == 0 then 0 else Carry(f));
  }

  lemma SubtractionStep(op: nat, f: Eflags, a: Word, b: Word)
    requires op == 5 || op == 3
    ensures var (v, g) := Alu(op, f, a, b, 4);
      var c := if op == 5 then 0 else Carry(f);
      && 0 <= v < TWO32 && v - TWO32 * Carry(g) == a - b - c
      && (Has(g, OF) <==> !(-Half(4) <= Signed(a, 4) - Signed(b, 4) - c < Half(4)))
      && (Less(g) <==> Signed(a, 4) - Signed(b, 4) - c < 0)
  {
    hide AddFlags, SubFlags, Has, Less, Logic, LogicFlags;
    SubLimb(f, a, b, if op == 5 then 0 else Carry(f));
  }

  /** The invariant of an adc chain, from the carry it starts with. */
  ghost predicate AddsUp(r: (Limbs, Eflags), a: Limbs, b: Limbs, c: int)
    requires |r.0| == |a| == |b|
  {
    && Value(r.0) + Carry(r.1) * Weight(|a|) == Value(a) + Value(b) + c
    && (|a| > 0 ==> (Has(r.1, OF) <==> !FitsSigned(SignedValue(a) + SignedValue(b) + c, |a|)))
  }

  lemma RangeStep(v: int, s: int, n: nat)
    requires n > 1 && 0 <= v < TWO32
    ensures FitsSigned(v + TWO32 * s, n) <==> FitsSigned(s, n - 1)
    ensures v + TWO32 * s < 0 <==> s < 0
  {
    assert Weight(n - 1) == TWO32 * Weight(n - 2);
  }

  lemma WeightStep(c: int, n: nat)
    requires n > 0
    ensures c * Weight(n) == TWO32 * (c * Weight(n - 1))
  {
  }

  lemma Digits(v: Word, rest: Limbs)
    ensures ([v] + rest)[1..] == rest && Value([v] + rest) == v + TWO32 * Value(rest)
  {
    assert ([v] + rest)[1..] == rest;
  }

  /** Adding one limb below a chain that adds up. */
  lemma AddBelow(v: Word, f1: Eflags, r: (Limbs, Eflags), a: Limbs, b: Limbs, c: int)
    requires |a| == |b| == |r.0| + 1
    requires v + TWO32 * Carry(f1) == a[0] + b[0] + c
    requires |a| == 1 ==> r == ([], f1) && (Has(f1, OF) <==> !(-Half(4) <= Signed(a[0], 4) + Signed(b[0], 4) + c < Half(4)))
    requires AddsUp(r, a[1..], b[1..], Carry(f1))
    ensures AddsUp(([v] + r.0, r.1), a, b, c)
  {
    hide Has, FitsSigned, SignedValue, Weight;
    Digits(v, r.0);
    WeightStep(Carry(r.1), |a|);
    if |a| > 1 {
      SignedSplit(a);
      SignedSplit(b);
      RangeStep(v, SignedValue(a[1..]) + SignedValue(b[1..]) + Carry(f1), |a|);
    } else {
      OneLimb(a);
      OneLimb(b);
    }
  }

  lemma {:induction false} AdcChainAdds(f: Eflags, ts: seq<Turn>)
    requires Chained(ts, 2) && (|ts| > 0 ==> Carry(ts[0].before) == Carry(f))
    ensures AddsUp((DigitsOf(ts), LastFlags(f, ts)), Lefts(ts), Rights(ts), Carry(f))
    decreases |ts|
  {
    hide Has, Less, AddsUp, Chained, Value, Weight, Alu, Signed;
    if |ts| == 0 {
      EmptyAdds(f);
    } else {
      ChainedRest(ts, 2);
      AdcChainAdds(ts[0].after, ts[1..]);
      AdditionBelow(f, ts, 2, Carry(f));
    }
  }

  /** The lowest limb of an addition. */
  lemma AdditionBelow(f: Eflags, ts: seq<Turn>, op: nat, c: int)
    requires |ts| > 0 && Does(ts[0], op) && (op == 0 || op == 2) && c == (if op == 0 then 0 else Carry(ts[0].before))
    requires AddsUp((DigitsOf(ts[1..]), LastFlags(ts[0].after, ts[1..])), Lefts(ts[1..]), Rights(ts[1..]), Carry(ts[0].after))
    ensures AddsUp((DigitsOf(ts), LastFlags(f, ts)), Lefts(ts), Rights(ts), c)
  {
    hide Has, Less, AddsUp, Value, Weight, Alu, Signed;
    Unfolds(f, ts);
    AdditionStep(op, ts[0].before, ts[0].a, ts[0].b);
    AddBelow(ts[0].digit, ts[0].after, (DigitsOf(ts[1..]), LastFlags(ts[0].after, ts[1..])), Lefts(ts), Rights(ts), c);
  }

  lemma EmptyAdds(f: Eflags)
    ensures AddsUp(([], f), [], [], Carry(f))
    ensures SubtractsDown(([], f), [], [], Carry(f))
  {
  }

  lemma AdditionAdds(f: Eflags, ts: seq<Turn>)
    requires Started(ts, 0, 2)
    ensures AddsUp((DigitsOf(ts), LastFlags(f, ts)), Lefts(ts), Rights(ts), 0)
  {
    hide Has, Chained, Alu, Value, Weight, SignedValue, FitsSigned, Signed, AddsUp;
    AdcChainAdds(ts[0].after, ts[1..]);
    AdditionBelow(f, ts, 0, 0);
  }

  /** n-limb addition: the digits and the final CF are the exact sum, OF is the signed overflow. */
  lemma AdditionExact(f: Eflags, ts: seq<Turn>)
    requires Started(ts, 0, 2)
    ensures var g, n := LastFlags(f, ts), |ts|;
      && Value(DigitsOf(ts)) + Carry(g) * Weight(n) == Value(Lefts(ts)) + Value(Rights(ts))
      && (Has(g, OF) <==> !FitsSigned(SignedValue(Lefts(ts)) + SignedValue(Rights(ts)), n))
  {
    hide Has, Started, Value, Weight, SignedValue, FitsSigned, Carry;
    AdditionAdds(f, ts);
    StartedSome(ts, 0, 2);
  }

  lemma StartedSome(ts: seq<Turn>, first: nat, op: nat)
    requires Started(ts, first, op)
    ensures |ts| > 0
  {
  }

  ghost predicate SubtractsDown(r: (Limbs, Eflags), a: Limbs, b: Limbs, c: int)
    requires |r.0| == |a| == |b|
  {
    && Value(r.0) - Carry(r.1) * Weight(|a|) == Value(a) - Value(b) - c
    && (|a| > 0 ==>
      && (Has(r.1, OF) <==> !FitsSigned(SignedValue(a) - SignedValue(b) - c, |a|))
      && (Less(r.1) <==> SignedValue(a) - SignedValue(b) - c < 0))
  }

  lemma SubtractBelow(v: Word, f1: Eflags, r: (Limbs, Eflags), a: Limbs, b: Limbs, c: int)
    requires |a| == |b| == |r.0| + 1
    requires v - TWO32 * Carry(f1) == a[0] - b[0] - c
    requires |a| == 1 ==>
      && r == ([], f1)
      && (Has(f1, OF) <==> !(-Half(4) <= Signed(a[0], 4) - Signed(b[0], 4) - c < Half(4)))
      && (Less(f1) <==> Signed(a[0], 4) - Signed(b[0], 4) - c < 0)
    requires SubtractsDown(r, a[1..], b[1..], Carry(f1))
    ensures SubtractsDown(([v] + r.0, r.1), a, b, c)
  {
    hide Has, Less, FitsSigned, SignedValue, Weight;
    Digits(v, r.0);
    WeightStep(Carry(r.1), |a|);
    if |a| > 1 {
      SignedSplit(a);
      SignedSplit(b);
      RangeStep(v, SignedValue(a[1..]) - SignedValue(b[1..]) - Carry(f1), |a|);
    } else {
      OneLimb(a);
      OneLimb(b);
    }
  }

  lemma {:induction false} SbbChainSubtracts(f: Eflags, ts: seq<Turn>)
    requires Chained(ts, 3) && (|ts| > 0 ==> Carry(ts[0].before) == Carry(f))
    ensures SubtractsDown((DigitsOf(ts), LastFlags(f, ts)), Lefts(ts), Rights(ts), Carry(f))
    decreases |ts|
  {
    hide Has, Less, SubtractsDown, Chained, Value, Weight, Alu, Signed;
    if |ts| == 0 {
      EmptyAdds(f);
    } else {
      ChainedRest(ts, 3);
      SbbChainSubtracts(ts[0].after, ts[1..]);
      SubtractionBelow(f, ts, 3, Carry(f));
    }
  }

  /** The lowest limb of a subtraction. */
  lemma SubtractionBelow(f: Eflags, ts: seq<Turn>, op: nat, c: int)
    requires |ts| > 0 && Does(ts[0], op) && (op == 5 || op == 3) && c == (if op == 5 then 0 else Carry(ts[0].before))
    requires SubtractsDown((DigitsOf(ts[1..]), LastFlags(ts[0].after, ts[1..])), Lefts(ts[1..]), Rights(ts[1..]), Carry(ts[0].after))
    ensures SubtractsDown((DigitsOf(ts), LastFlags(f, ts)), Lefts(ts), Rights(ts), c)
  {
    hide Has, Less, SubtractsDown, Value, Weight, Alu, Signed;
    Unfolds(f, ts);
    SubtractionStep(op, ts[0].before, ts[0].a, ts[0].b);
    SubtractBelow(ts[0].digit, ts[0].after, (DigitsOf(ts[1..]), LastFlags(ts[0].after, ts[1..])), Lefts(ts), Rights(ts), c);
  }

  lemma SubtractionSubtracts(f: Eflags, ts: seq<Turn>)
    requires Started(ts, 5, 3)
    ensures SubtractsDown((DigitsOf(ts), LastFlags(f, ts)), Lefts(ts), Rights(ts), 0)
  {
    hide Has, Less, Chained, Alu, Value, Weight, SignedValue, FitsSigned, Signed, SubtractsDown;
    SbbChainSubtracts(ts[0].after, ts[1..]);
    SubtractionBelow(f, ts, 5, 0);
  }

  /** n-limb subtraction and comparison: the exact difference, CF (jb) decides unsigned less-than,
      SF != OF (jl) decides signed less-than. */
  lemma SubtractionExact(f: Eflags, ts: seq<Turn>)
    requires Started(ts, 5, 3)
    ensures var g, n := LastFlags(f, ts), |ts|;
      && Value(DigitsOf(ts)) - Carry(g) * Weight(n) == Value(Lefts(ts)) - Value(Rights(ts))
      && (Has(g, OF) <==> !FitsSigned(SignedValue(Lefts(ts)) - SignedValue(Rights(ts)), n))
      && (Condition(2, g) <==> Value(Lefts(ts)) < Value(Rights(ts)))
      && (Condition(12, g) <==> SignedValue(Lefts(ts)) < SignedValue(Rights(ts)))
  {
    hide Less, Has, Carry, Started, Value, Weight, SignedValue, FitsSigned, Lefts, Rights, DigitsOf, LastFlags, Condition;
    SubtractionSubtracts(f, ts);
    StartedSome(ts, 5, 3);
    BorrowDecides(LastFlags(f, ts), DigitsOf(ts), Value(Lefts(ts)), Value(Rights(ts)));
  }

  lemma BorrowDecides(g: Eflags, r: Limbs, a: int, b: int)
    requires Value(r) - Carry(g) * Weight(|r|) == a - b && 0 <= a < Weight(|r|) && 0 <= b < Weight(|r|)
    ensures Condition(2, g) <==> a < b
    ensures Condition(12, g) <==> Less(g)
  {
    hide Value, Weight, Less;
    var w := Weight(|r|);
    assert Carry(g) * w == if Has(g, CF) then w else 0;
  }

  // ---- shld closed by shl ---------------------------------------------------------------------

  /** shld k of each limb from the one below it, and shl k of the lowest. */
  function ShiftChain(a: Limbs, k: nat): (r: Limbs)
    requires 1 <= k <= 31
    ensures |r| == |a|
  {
    if |a| == 0 then []
    else if |a| == 1 then [Mask32(ShiftValue(4, a[0], k, 4).res)]
    else
      ShiftChain(a[..|a| - 1], k) + [Mask32(DoubleShiftValue(true, a[|a| - 1], a[|a| - 2], k, 4).res)]
  }

  /** What leaves one limb at the top. */
  function LimbOut(x: Word, k: nat): int {
    x * Pow2(k) / TWO32
  }

  /** The bits shifted out at the top of the number. */
  function ShiftedOut(a: Limbs, k: nat): int {
    if |a| == 0 then 0 else LimbOut(a[|a| - 1], k)
  }

  lemma {:induction false} Pow2Product(k: nat, j: nat)
    ensures Pow2(k) * Pow2(j) == Pow2(k + j)
  {
    if k > 0 { Pow2Product(k - 1, j); }
  }

  /** One limb times 2^k plus what comes in from below never carries twice. */
  lemma LimbShift(a: Word, k: nat, low: int)
    requires 1 <= k <= 31 && 0 <= low < Pow2(k)
    ensures (a * Pow2(k) + low) / TWO32 == a * Pow2(k) / TWO32
    ensures 0 <= a * Pow2(k) / TWO32 < Pow2(k)
  {
    Pow2Product(k, 32 - k);
    Pow2Word();
    ShiftBound(a, Pow2(k), Pow2(32 - k), low);
  }

  lemma ShiftBound(a: int, p: int, q: int, low: int)
    requires p >= 1 && q >= 1 && p * q == TWO32 && 0 <= a < TWO32 && 0 <= low < p
    ensures (a * p + low) / TWO32 == a * p / TWO32 && 0 <= a * p / TWO32 < p
  {
    var hi, r := a / q, a % q;
    assert a * p == hi * (p * q) + r * p by { assert a == hi * q + r; }
    assert r * p <= (q - 1) * p;
    assert a * p == hi * TWO32 + r * p;
    QuotientIs(a * p, hi, r * p);
    QuotientIs(a * p + low, hi, r * p + low);
    assert hi < p by { Bounded(hi, p, q, a); }
  }

  lemma Bounded(hi: int, p: int, q: int, a: int)
    requires q >= 1 && hi * q <= a < p * q
    ensures hi < p
  {
    assert hi >= p ==> hi * q >= p * q;
  }

  lemma QuotientIs(x: int, q: int, r: int)
    requires x == q * TWO32 + r && 0 <= r < TWO32
    ensures x / TWO32 == q && x % TWO32 == r
  {
  }

  function Times(x: int, y: int): int {
    x * y
  }

  /** A number and what left it at the top make the product value * p. */
  predicate IsProduct(number: int, out: int, weight: int, value: int, p: int) {
    number + out * weight == value * p
  }

  lemma {:induction false} ValueAppend(a: Limbs, v: Word)
    ensures Value(a + [v]) == Value(a) + Times(v, Weight(|a|))
  {
    if |a| == 0 {
      assert ([] + [v])[1..] == [];
    } else {
      ValueAppend(a[1..], v);
      assert (a + [v])[1..] == a[1..] + [v];
      WeightStep(v, |a|);
    }
  }

  /** One shld limb: an exact digit, given what enters from the limb below. */
  lemma ShldLimb(d: Word, s: Word, k: nat)
    requires 1 <= k <= 31
    ensures var v := DoubleShiftValue(true, d, s, k, 4).res;
      0 <= v < TWO32 && v + LimbOut(d, k) * TWO32 == Times(d, Pow2(k)) + LimbOut(s, k)
  {
    hide Pow2;
    LimbShift(s, k, 0);
    LimbShift(d, k, s * Pow2(k) / TWO32);
    ShiftedPair(d, s, Pow2(k));
  }

  /** The lowest limb: nothing enters. */
  lemma ShlLimb(d: Word, k: nat)
    requires 1 <= k <= 31
    ensures var v := ShiftValue(4, d, k, 4).res;
      0 <= v < TWO32 && v + LimbOut(d, k) * TWO32 == d * Pow2(k)
  {
    hide Pow2;
  }

  lemma ShiftedPair(d: int, s: int, p: int)
    requires 0 <= d && 0 <= s && p >= 1
    ensures (d * TWO32 + s) * p / TWO32 == d * p + s * p / TWO32
  {
    assert (d * TWO32 + s) * p == (d * p) * TWO32 + s * p;
    ShiftedSum(d * p, s * p);
  }

  lemma ShiftedSum(x: int, y: int)
    ensures (x * TWO32 + y) / TWO32 == x + y / TWO32
  {
  }

  lemma TopLimb(v: int, hi: int, x: int, w: int, p: int, low: int, below: int, init: int,
                all: int, wide: int, value: int)
    requires v + hi * TWO32 == Times(x, p) + low && IsProduct(below, low, w, init, p)
    requires all == below + Times(v, w) && wide == TWO32 * w && value == init + Times(x, w)
    ensures IsProduct(all, hi, wide, value, p)
  {
    assert (v + hi * TWO32) * w == (x * p + low) * w;
    assert (x * p) * w == (x * w) * p;
    assert (hi * TWO32) * w == hi * (TWO32 * w);
    assert (init + x * w) * p == init * p + (x * w) * p;
  }

  lemma {:induction false} ShiftChainProduct(a: Limbs, k: nat)
    requires 1 <= k <= 31
    ensures IsProduct(Value(ShiftChain(a, k)), ShiftedOut(a, k), Weight(|a|), Value(a), Pow2(k))
    decreases |a|
  {
    hide Pow2, Value, Weight, DoubleShiftValue, ShiftValue, LimbOut, Times, IsProduct;
    if |a| == 0 {
      ShiftsNothing(a, k);
    } else if |a| == 1 {
      ShiftsOne(a, k);
    } else {
      var init, d, s := a[..|a| - 1], a[|a| - 1], a[|a| - 2];
      ShiftChainProduct(init, k);
      ShldLimb(d, s, k);
      var v := DoubleShiftValue(true, d, s, k, 4).res;
      ValueAppend(ShiftChain(init, k), v);
      ValueAppend(init, d);
      assert init + [d] == a;
      WeightUp(|init|);
      TopLimb(v, LimbOut(d, k), d, Weight(|init|), Pow2(k), LimbOut(s, k), Value(ShiftChain(init, k)), Value(init),
              Value(ShiftChain(a, k)), Weight(|a|), Value(a));
    }
  }

  lemma WeightUp(n: nat)
    ensures Weight(n + 1) == TWO32 * Weight(n)
  {
  }

  lemma ShiftsNothing(a: Limbs, k: nat)
    requires |a| == 0 && 1 <= k <= 31
    ensures IsProduct(Value(ShiftChain(a, k)), ShiftedOut(a, k), Weight(|a|), Value(a), Pow2(k))
  {
  }

  lemma ShiftsOne(a: Limbs, k: nat)
    requires |a| == 1 && 1 <= k <= 31
    ensures IsProduct(Value(ShiftChain(a, k)), ShiftedOut(a, k), Weight(|a|), Value(a), Pow2(k))
  {
    hide Pow2, Value, ShiftValue, LimbOut;
    ShlLimb(a[0], k);
    OneLimb(a);
    OneLimb([ShiftValue(4, a[0], k, 4).res]);
    assert Weight(1) == TWO32;
  }

  /** An shld chain closed by shl multiplies the whole number by 2^k, for every k in 1..31: what
      stays and what leaves at the top make the exact product, so that the limbs hold the product
      modulo 2^(32 n). */
  lemma ShiftMultiplies(a: Limbs, k: nat)
    requires 1 <= k <= 31
    ensures Value(ShiftChain(a, k)) + ShiftedOut(a, k) * Weight(|a|) == Value(a) * Pow2(k)
    ensures Value(ShiftChain(a, k)) == Value(a) * Pow2(k) % Weight(|a|)
  {
    hide Pow2, Value, Weight, ShiftChain, ShiftedOut;
    ShiftChainProduct(a, k);
    Residue(Value(ShiftChain(a, k)), ShiftedOut(a, k), Weight(|a|));
  }

  lemma Residue(r: int, q: int, w: int)
    requires 0 <= r < w
    ensures (r + q * w) % w == r
  {
    var x := r + q * w;
    assert x == (x / w) * w + x % w;
    assert (x / w - q) * w == r - x % w;
    Multiple(x / w - q, w, r - x % w);
  }

  lemma Multiple(k: int, w: int, d: int)
    requires k * w == d && -w < d < w
    ensures d == 0
  {
    assert k >= 1 ==> k * w >= w;
    assert k <= -1 ==> k * w <= -w;
  }
}
