/** Decoding reads only the bytes of the instruction it returns. */
module DecoderLocality {
  import opened Words
  import opened Memory
  import opened Decoder

  /** Both images carry the same bytes of their low regions in [lo, hi). */
  ghost predicate SameText(m: Image, m': Image, lo: int, hi: int)
    requires m.Valid() && m'.Valid()
  {
    && 0 <= lo && hi <= |m.low| && hi <= |m'.low|
    && forall x :: lo <= x < hi ==> m'.low[x] == m.low[x]
  }

  ghost predicate SameFetches(m: Image, m': Image, lo: int, hi: int)
    requires m.Valid() && m'.Valid()
  {
    && (forall p, k :: lo <= p && IsSize(k) && p + k <= hi ==> FetchNum(m', p, k) == FetchNum(m, p, k))
    && (forall p :: lo <= p < hi ==> m'.ByteAt(p) == m.ByteAt(p))
  }

  lemma SameTextFetches(m: Image, m': Image, lo: int, hi: int)
    requires m.Valid() && m'.Valid() && SameText(m, m', lo, hi)
    ensures SameFetches(m, m', lo, hi)
  {
    forall p, k | lo <= p && IsSize(k) && p + k <= hi
      ensures FetchNum(m', p, k) == FetchNum(m, p, k)
    {
      assert m'.low[p..p + k] == m.low[p..p + k];
    }
  }

  lemma AddDisplacementLocal(m: Image, m': Image, lo: int, hi: int, pos: int, r: ModRM)
    requires m.Valid() && m'.Valid() && SameFetches(m, m', lo, hi) && lo <= pos
    requires IsModRM(r) && r.mod != 3
    requires AddDisplacement(m, pos, r).Got? && AddDisplacement(m, pos, r).pos <= hi
    ensures AddDisplacement(m', pos, r) == AddDisplacement(m, pos, r)
  {
    if r.mod == 1 {
      assert FetchNum(m', pos, 1) == FetchNum(m, pos, 1);
    } else if r.mod == 2 {
      assert FetchNum(m', pos, 4) == FetchNum(m, pos, 4);
    }
  }

  lemma SibLocal(m: Image, m': Image, lo: int, hi: int, pos: int, mod: nat, reg: Reg)
    requires m.Valid() && m'.Valid() && SameFetches(m, m', lo, hi) && lo <= pos && mod < 3
    requires SibBody(m, pos, mod, reg).Got? && SibBody(m, pos, mod, reg).pos <= hi
    ensures SibBody(m', pos, mod, reg) == SibBody(m, pos, mod, reg)
  {
    var sib := FetchNum(m, pos, 1).val;
    assert FetchNum(m', pos, 1) == FetchNum(m, pos, 1);
    var scale, idx, sbase := sib / 64, sib / 8 % 8, sib % 8;
    if sbase == 5 && mod == 0 {
      assert FetchNum(m', pos + 1, 4) == FetchNum(m, pos + 1, 4);
    } else {
      AddDisplacementLocal(m, m', lo, hi, pos + 1,
        ModRM(mod, reg, Some(sbase), if idx != 4 then Some(idx) else None, scale, 0));
    }
  }

  lemma ModRMLocal(m: Image, m': Image, lo: int, hi: int, pos: int)
    requires m.Valid() && m'.Valid() && SameFetches(m, m', lo, hi) && lo <= pos
    requires DecodeModRM(m, pos).Got? && DecodeModRM(m, pos).pos <= hi
    ensures DecodeModRM(m', pos) == DecodeModRM(m, pos)
  {
    var b := FetchNum(m, pos, 1).val;
    assert FetchNum(m', pos, 1) == FetchNum(m, pos, 1);
    var mod, reg, rm := b / 64, b / 8 % 8, b % 8;
    if mod == 3 {
    } else if rm == 4 {
      SibLocal(m, m', lo, hi, pos + 1, mod, reg);
    } else if rm == 5 && mod == 0 {
      assert FetchNum(m', pos + 1, 4) == FetchNum(m, pos + 1, 4);
    } else {
      AddDisplacementLocal(m, m', lo, hi, pos + 1, ModRM(mod, reg, Some(rm), None, 0, 0));
    }
  }

  ghost predicate EndsBy(d: Decoded, start: int, hi: int) {
    d.Insn? && start + d.e.length <= hi
  }

  lemma ShapeLocal(m: Image, m': Image, lo: int, hi: int, s: Shape, start: int, pos: int)
    requires m.Valid() && m'.Valid() && SameFetches(m, m', lo, hi) && lo <= start <= pos
    requires EndsBy(DecodeShape(m, s, start, pos), start, hi)
    ensures DecodeShape(m', s, start, pos) == DecodeShape(m, s, start, pos)
  {
    hide DecodeModRM, DecodeTail, TailOf, DecodeEnter, FetchNum;
    if s.EnterShape? { EnterLocal(m, m', lo, hi, start, pos); }
    if s.WithModRM? {
      var r := DecodeModRM(m, pos);
      TailEnds(m, TailOf(s.group, r.val.reg), start, r.pos, r.val);
      ModRMLocal(m, m', lo, hi, pos);
      TailLocal(m, m', lo, hi, TailOf(s.group, r.val.reg), start, r.pos, r.val);
    }
  }

  lemma EnterLocal(m: Image, m': Image, lo: int, hi: int, start: int, pos: int)
    requires m.Valid() && m'.Valid() && SameFetches(m, m', lo, hi) && lo <= start <= pos
    requires EndsBy(DecodeEnter(m, start, pos), start, hi)
    ensures DecodeEnter(m', start, pos) == DecodeEnter(m, start, pos)
  {
  }

  /** The tail ends where or behind it starts. */
  lemma TailEnds(m: Image, t: Tail, start: int, pos: int, rm: ModRM)
    requires m.Valid() && start <= pos && DecodeTail(m, t, start, pos, rm).Insn?
    ensures pos <= start + DecodeTail(m, t, start, pos, rm).e.length
  {
  }

  lemma TailLocal(m: Image, m': Image, lo: int, hi: int, t: Tail, start: int, pos: int, rm: ModRM)
    requires m.Valid() && m'.Valid() && SameFetches(m, m', lo, hi) && lo <= start <= pos
    requires EndsBy(DecodeTail(m, t, start, pos, rm), start, hi)
    ensures DecodeTail(m', t, start, pos, rm) == DecodeTail(m, t, start, pos, rm)
  {
    hide FetchNum, Convert;
  }

  lemma {:induction false} PrefixesLocal(m: Image, m': Image, lo: int, hi: int, pos: int, opsize: OperandSize, rep: nat)
    requires m.Valid() && m'.Valid() && SameFetches(m, m', lo, hi) && lo <= pos
    requires ScanPrefixes(m, pos, opsize, rep).Got? && ScanPrefixes(m, pos, opsize, rep).pos <= hi
    ensures ScanPrefixes(m', pos, opsize, rep) == ScanPrefixes(m, pos, opsize, rep)
    decreases Limit(m) - pos
  {
    var op := m.ByteAt(pos).value;
    if IsPrefix(op) {
      PrefixesLocal(m, m', lo, hi, pos + 1, if op == 0x66 then 2 else opsize,
                    if op == 0xF2 || op == 0xF3 then op else rep);
    }
  }

  /** An instruction that lies in text decodes to the same entry as long as its own bytes stay. */
  lemma DecodeLocal(m: Image, m': Image, s: int)
    requires m.Valid() && m'.Valid()
    requires Decode(m, s).Insn?
    requires SameText(m, m', s, s + Decode(m, s).e.length)
    ensures Decode(m', s) == Decode(m, s)
  {
    var hi := s + Decode(m, s).e.length;
    SameTextFetches(m, m', s, hi);
    var f := ScanPrefixes(m, s, 4, 0);
    var op, opsize := f.val.op, f.val.opsize;
    if f.val.rep != 0 && (IsStringOp(op) || op == 0x90) {
    } else if op == 0x0F {
      var g := FetchNum(m, f.pos, 1);
      ShapeLocal(m, m', s, hi, Shape0F(g.val, opsize), s, g.pos);
    } else {
      ShapeLocal(m, m', s, hi, ShapeOf(op, opsize), s, f.pos);
    }
    PrefixesLocal(m, m', s, hi, s, 4, 0);
  }

  // ---- Lengths -----------------------------------------------------------------

  /** The bytes [s, s+15] all being prefixes, the instruction is longer than the flush window. */
  lemma {:induction false} PrefixRun(m: Image, s: int, k: nat, opsize: OperandSize, rep: nat)
    requires m.Valid() && s >= 0 && s + k < |m.low|
    requires forall x :: s <= x < s + k ==> m.low[x] == 0x2E
    requires m.low[s + k] == 0x90
    ensures ScanPrefixes(m, s, opsize, rep) == Got(Opcode(0x90, opsize, rep), s + k + 1)
    decreases k
  {
    if k > 0 {
      PrefixRun(m, s + 1, k - 1, opsize, rep);
    }
  }

  /** Segment prefixes can be repeated without bound: k of them and a nop form one instruction. */
  lemma UnboundedLength(m: Image, s: int, k: nat)
    requires m.Valid() && s >= 0 && s + k < |m.low|
    requires forall x :: s <= x < s + k ==> m.low[x] == 0x2E
    requires m.low[s + k] == 0x90
    ensures Decode(m, s) == Insn(Entry(Nop, k + 1, 4, 0, Some(0), None, 0, 0, 0, 3))
  {
    PrefixRun(m, s, k, 4, 0);
  }

  /** A trap to vector 0x80 ends in the bytes CD 80, whatever prefixes stand before them. */
  lemma Trap80Bytes(m: Image, s: int)
    requires m.Valid() && m.Disjoint()
    requires Decode(m, s).Insn? && Decode(m, s).e.fn == Interrupt && Decode(m, s).e.imm == 0x80
    ensures var end := s + Decode(m, s).e.length;
      m.ByteAt(end - 2) == Some(0xCD) && m.ByteAt(end - 1) == Some(0x80)
  {
    hide Decode, DecodeOp, ScanPrefixes, DecodeFrom, Image.Valid, Image.Disjoint;
    DecodeSteps(m, s);
    var f := ScanPrefixes(m, s, 4, 0);
    PrefixesEndInOpcode(m, s, 4, 0);
    OnlyIntDecodesToInterrupt(m, f.val.op, f.val.opsize, s, f.pos);
    OneByteLoad(m, f.pos, 0x80);
  }

  /** Conversely the two bytes decode to the trap, two bytes long. */
  lemma BytesAreTrap(m: Image, s: int)
    requires m.Valid() && m.Disjoint() && m.ByteAt(s) == Some(0xCD) && m.ByteAt(s + 1) == Some(0x80)
    ensures Decode(m, s).Insn? && Decode(m, s).e.fn == Interrupt && Decode(m, s).e.imm == 0x80
    ensures Decode(m, s).e.length == 2
  {
    hide ShapeOf, Shape0F;
    IntShape();
    ByteLoads(m, s + 1);
  }

  lemma IntShape()
    ensures ShapeOf(0xCD, 4) == Immediate(Interrupt, 4, 0, 1, Raw)
  {
  }

  lemma ByteLoads(m: Image, a: int)
    requires m.Valid() && m.Disjoint() && m.ByteAt(a).Some?
    ensures m.Load(a, 1) == Some(m.ByteAt(a).value)
  {
  }

  /** Decoding is the prefix loop followed by the opcode, unless a repeat prefix selects the entry. */
  lemma DecodeSteps(m: Image, s: int)
    requires m.Valid() && Decode(m, s).Insn?
    ensures ScanPrefixes(m, s, 4, 0).Got?
    ensures var f := ScanPrefixes(m, s, 4, 0);
      || Decode(m, s) == DecodeOp(m, f.val.op, f.val.opsize, s, f.pos)
      || Decode(m, s).e.fn.String? || Decode(m, s).e.fn == Nop
  {
    hide DecodeOp, ScanPrefixes;
  }

  lemma OneByteLoad(m: Image, a: int, b: Byte)
    requires m.Valid() && m.Disjoint() && m.Load(a, 1) == Some(b)
    ensures m.ByteAt(a) == Some(b)
  {
    assert m.Read(a, 1).value[0] == b;
  }

  lemma {:induction false} PrefixesEndInOpcode(m: Image, pos: int, opsize: OperandSize, rep: nat)
    requires m.Valid() && ScanPrefixes(m, pos, opsize, rep).Got?
    ensures var f := ScanPrefixes(m, pos, opsize, rep); m.ByteAt(f.pos - 1) == Some(f.val.op)
    decreases Limit(m) - pos
  {
    var op := m.ByteAt(pos).value;
    if IsPrefix(op) {
      PrefixesEndInOpcode(m, pos + 1, if op == 0x66 then 2 else opsize,
                          if op == 0xF2 || op == 0xF3 then op else rep);
    }
  }

  /** In the tables only CD carries an interrupt vector read from the instruction. */
  lemma OnlyIntDecodesToInterrupt(m: Image, op: Byte, opsize: OperandSize, start: int, pos: int)
    requires m.Valid() && start <= pos
    requires DecodeOp(m, op, opsize, start, pos).Insn?
    requires DecodeOp(m, op, opsize, start, pos).e.fn == Interrupt
    requires DecodeOp(m, op, opsize, start, pos).e.imm == 0x80
    ensures op == 0xCD && m.Load(pos, 1) == Some(0x80)
    ensures start + DecodeOp(m, op, opsize, start, pos).e.length == pos + 1
  {
    if op == 0x0F {
      var f := FetchNum(m, pos, 1);
      NoInterrupt0F(f.val, opsize);
      InterruptNeedsShape(m, Shape0F(f.val, opsize), start, f.pos);
    } else {
      InterruptShape(op, opsize);
      InterruptNeedsShape(m, ShapeOf(op, opsize), start, pos);
    }
  }

  lemma InterruptNeedsShape(m: Image, s: Shape, start: int, pos: int)
    requires m.Valid() && start <= pos
    requires DecodeShape(m, s, start, pos).Insn? && DecodeShape(m, s, start, pos).e.fn == Interrupt
    ensures MayBeInterrupt(s)
    ensures s == Simple(Interrupt, 4, 0, 3) ==> DecodeShape(m, s, start, pos).e.imm == 3
    ensures s == Immediate(Interrupt, 4, 0, 1, Raw) ==>
      && m.Load(pos, 1) == Some(DecodeShape(m, s, start, pos).e.imm)
      && start + DecodeShape(m, s, start, pos).e.length == pos + 1
  {
    if s.WithModRM? {
      var rm := DecodeModRM(m, pos).val;
      TailInterrupt(s.group, rm.reg);
    }
  }

  lemma TailInterrupt(g: Group, reg: Reg)
    ensures TailOf(g, reg).fn == Interrupt ==> g.Fixed? && g.tail.fn == Interrupt
  {
  }

  /** The handler a slot can produce. */
  predicate MayBeInterrupt(s: Shape) {
    match s
    case Simple(fn, _, _, _) => fn == Interrupt
    case RegOperand(fn, _, _) => fn == Interrupt
    case Immediate(fn, _, _, _, _) => fn == Interrupt
    case Relative(fn, _) => fn == Interrupt
    case EnterShape => false
    case WithModRM(g) => g.Fixed? && g.tail.fn == Interrupt
  }

  lemma InterruptShape(op: Byte, opsize: OperandSize)
    ensures MayBeInterrupt(ShapeOf(op, opsize)) ==>
      op == 0xCC || ShapeOf(op, opsize) == Immediate(Interrupt, 4, 0, 1, Raw)
    ensures op == 0xCC ==> ShapeOf(op, opsize) == Simple(Interrupt, 4, 0, 3)
    ensures ShapeOf(op, opsize) == Immediate(Interrupt, 4, 0, 1, Raw) ==> op == 0xCD
  {
  }

  lemma NoInterrupt0F(op: Byte, opsize: OperandSize)
    ensures !MayBeInterrupt(Shape0F(op, opsize))
  {
  }
}
