/** The block form of `rep movs` and `rep stos` against the element loop (cpu86.py,
    `_string_op_impl`). */
module StringBlock {
  import opened Words
  import opened Memory
  import opened Decoder
  import opened Flags
  import opened Handlers
  import opened Interpreter

  /** The instruction run by its element loop alone. */
  function ElementLoop(m: Machine, op: nat, opsize: OperandSize, rep: int): (r: Effect)
    requires m.mem.Valid()
  {
    var size := if IsByteString(op) then 1 else opsize;
    var delta := if Has(m.flags, DF) then -size else size;
    StringLoop(m, op, size, delta, rep, if rep != 0 then m.regs[ECX] else 1)
  }

  /** The instruction takes the block path. */
  predicate UsesBlock(m: Machine, op: nat, opsize: OperandSize, rep: int) {
    var size := if IsByteString(op) then 1 else opsize;
    && !Has(m.flags, DF) && rep != 0 && m.regs[ECX] > 1
    && (((op == 0xA4 || op == 0xA5) && Distance(m.regs[EDI], m.regs[ESI]) >= m.regs[ECX] * size)
        || op == 0xAA || op == 0xAB)
  }

  /** Slot i is flushed by some recorded store. */
  predicate Hit(log: seq<Span>, i: int) {
    exists k :: 0 <= k < |log| && InWindow(i, log[k].addr, log[k].len)
  }

  /** Two outcomes agree: same event, same registers, eip, flags and memory, same flushed slots. */
  ghost predicate SameEffect(a: Effect, b: Effect, end: nat) {
    && a.Ok? == b.Ok? && (a.Stop? ==> a.ev == b.ev)
    && a.m.(log := []) == b.m.(log := [])
    && forall i :: 0 <= i < end ==> Hit(a.m.log, i) == Hit(b.m.log, i)
  }

  // ---- Flushing -------------------------------------------------------------------

  lemma {:induction false} FlushAllAt(cache: Cache, log: seq<Span>, i: nat)
    requires i < |cache|
    ensures FlushAll(cache, log)[i] == if Hit(log, i) then None else cache[i]
  {
    if |log| > 0 {
      var init := log[..|log| - 1];
      FlushAllAt(cache, init, i);
      assert Hit(log, i) <==> Hit(init, i) || InWindow(i, log[|log| - 1].addr, log[|log| - 1].len) by {
        if Hit(init, i) {
          var k :| 0 <= k < |init| && InWindow(i, init[k].addr, init[k].len);
          assert log[k] == init[k];
        }
        if k :| 0 <= k < |log| && InWindow(i, log[k].addr, log[k].len) {
          if k < |init| { assert init[k] == log[k]; }
        }
      }
    }
  }

  /** Outcomes that agree leave the same decoded-instruction slots, whatever was cached. */
  lemma SameEffectSameCache(a: Effect, b: Effect, end: nat, cache: Cache)
    requires SameEffect(a, b, end) && |cache| <= end
    ensures FlushAll(cache, a.m.log) == FlushAll(cache, b.m.log)
  {
    forall i | 0 <= i < |cache| ensures FlushAll(cache, a.m.log)[i] == FlushAll(cache, b.m.log)[i] {
      FlushAllAt(cache, a.m.log, i);
      FlushAllAt(cache, b.m.log, i);
    }
  }

  lemma HitAppend(log: seq<Span>, s: Span, i: int)
    ensures Hit(log + [s], i) <==> Hit(log, i) || InWindow(i, s.addr, s.len)
  {
    var l := log + [s];
    if Hit(log, i) {
      var k :| 0 <= k < |log| && InWindow(i, log[k].addr, log[k].len);
      assert l[k] == log[k];
    }
    assert l[|log|] == s;
    if k :| 0 <= k < |l| && InWindow(i, l[k].addr, l[k].len) {
      if k < |log| { assert log[k] == l[k]; }
    }
  }

  // ---- Splitting one block store into its first element and the rest -----------------

  lemma WriteSplit(m: Image, a: int, x: seq<Byte>, y: seq<Byte>)
    requires m.Valid() && m.Disjoint() && |x| > 0 && |y| > 0 && m.Write(a, x + y).ok
    ensures m.Write(a, x).ok && m.Write(a, x).mem.Valid() && m.Write(a, x).mem.Disjoint()
    ensures SameLayout(m, m.Write(a, x).mem)
    ensures m.Write(a, x).mem.Write(a + |x|, y) == m.Write(a, x + y)
  {
    WriteExact(m, a, x);
    WriteExact(m, a, x + y);
    var n := |x| + |y|;
    if m.InLow(a, n) {
      assert m.low[..a] + (x + y) + m.low[a + n..]
          == (m.low[..a] + x + m.low[a + |x|..])[..a + |x|] + y + (m.low[..a] + x + m.low[a + |x|..])[a + n..];
    } else if m.InStack(a, n) {
      SplitInStack(m, a, x, y);
    } else {
      SplitInStack(m.GrowStack(a).value, a, x, y);
    }
  }

  lemma SplitInStack(m: Image, a: int, x: seq<Byte>, y: seq<Byte>)
    requires m.Valid() && m.Disjoint() && |x| > 0 && |y| > 0 && m.InStack(a, |x| + |y|)
    ensures m.WriteMapped(a, x).Some? && m.WriteMapped(a, x).value.Valid()
    ensures m.WriteMapped(a, x).value.WriteMapped(a + |x|, y) == m.WriteMapped(a, x + y)
  {
    var off := a - m.stackLow;
    var s1 := m.stack[..off] + x + m.stack[off + |x|..];
    assert m.stack[..off] + (x + y) + m.stack[off + |x| + |y|..]
        == s1[..off + |x|] + y + s1[off + |x| + |y|..];
  }

  lemma SliceOfSlice(s: seq<Byte>, a: nat, n: nat, k: nat)
    requires a + n <= |s| && k <= n
    ensures s[a..a + n][..k] == s[a..a + k]
    ensures s[a..a + n][k..] == s[a + k..a + n]
  {
    var t := s[a..a + n];
    assert |t| == n;
    assert t[..k] == s[a..a + k];
    assert t[k..] == s[a + k..a + n];
  }

  lemma ReadPart(m: Image, a: int, n: nat, k: nat)
    requires m.Valid() && m.Disjoint() && 0 < k < n && m.Read(a, n).Some?
    ensures m.Read(a, k) == Some(m.Read(a, n).value[..k])
    ensures m.Read(a + k, n - k) == Some(m.Read(a, n).value[k..])
  {
    if m.InLow(a, n) { SliceOfSlice(m.low, a, n, k); } else { SliceOfSlice(m.stack, a - m.stackLow, n, k); }
  }

  /** The bytes still to be copied are not touched by storing the first element. */
  lemma ReadSplit(m: Image, src: int, dst: int, size: nat, n: nat)
    requires m.Valid() && m.Disjoint() && 0 < size < n
    requires src + n <= dst || dst + n <= src
    requires m.Read(src, n).Some? && m.Write(dst, m.Read(src, n).value[..size]).ok
    ensures m.Read(src, size) == Some(m.Read(src, n).value[..size])
    ensures var m1 := m.Write(dst, m.Read(src, n).value[..size]).mem;
      m1.Valid() && m1.Read(src + size, n - size) == Some(m.Read(src, n).value[size..])
  {
    var data := m.Read(src, n).value;
    WriteExact(m, dst, data[..size]);
    var m1 := m.Write(dst, data[..size]).mem;
    forall x | src + size <= x < src + n ensures m1.ByteAt(x) == m.ByteAt(x) {
      assert m.ByteAt(x).Some?;
    }
    ReadPart(m, src, n, size);
    ReadFrame(m, m1, src + size, n - size);
  }

  // ---- The two loops ------------------------------------------------------------------------

  /** The state after the block: the bytes stored, the index registers advanced, ECX zero. */
  function AfterBlock(m: Machine, mem: Image, n: nat, moves: bool): (r: Machine) {
    var m1 := m.(mem := mem);
    var m2 := if moves then Set32(m1, ESI, R(m, ESI) + n) else m1;
    Set32(Set32(m2, EDI, R(m, EDI) + n), ECX, 0)
  }

  /** What is flushed by the element stores over [dst, dst+n) is what one store would flush. */
  ghost predicate FlushedAsBlock(m: Machine, log: seq<Span>, dst: int, n: nat)
    requires m.mem.Valid()
  {
    forall i :: 0 <= i < m.mem.textEnd ==>
      (Hit(log, i) <==> Hit(m.log, i) || (m.mem.TouchesText(dst, n) && InWindow(i, dst, n)))
  }

  lemma OneElementFlush(m: Machine, dst: int, data: seq<Byte>)
    requires m.mem.Valid() && m.mem.Write(dst, data).ok
    ensures FlushedAsBlock(m, WriteBytes(m, dst, data).m.log, dst, |data|)
  {
    if m.mem.TouchesText(dst, |data|) {
      forall i { HitAppend(m.log, Span(dst, |data|), i); }
    }
  }

  lemma FlushesJoin(m: Machine, m1: Machine, log: seq<Span>, dst: int, size: nat, rest: nat)
    requires m.mem.Valid() && m.mem.Disjoint() && m1.mem.Valid() && size > 0 && rest > 0
    requires |m1.mem.low| == |m.mem.low| && m1.mem.textEnd == m.mem.textEnd
    requires m.mem.InLow(dst, size + rest) || |m.mem.low| <= dst
    requires FlushedAsBlock(m, m1.log, dst, size)
    requires FlushedAsBlock(m1, log, dst + size, rest)
    ensures FlushedAsBlock(m, log, dst, size + rest)
  {
    hide Hit;
  }

  /** The state after one element of a forward movs or stos. */
  function AfterElement(m: Machine, data: seq<Byte>, cnt: nat, moves: bool): (r: Machine)
    requires m.mem.Valid()
    ensures r.mem == WriteBytes(m, R(m, EDI), data).m.mem && r.log == WriteBytes(m, R(m, EDI), data).m.log
    ensures r.flags == m.flags && r.eip == m.eip
  {
    var m1 := WriteBytes(m, R(m, EDI), data).m;
    var m2 := if moves then Set32(m1, ESI, R(m, ESI) + |data|) else m1;
    Set32(Set32(m2, EDI, R(m, EDI) + |data|), ECX, cnt - 1)
  }

  lemma MoveOne(m: Machine, op: nat, size: int, rep: int, cnt: nat)
    requires m.mem.Valid() && IsSize(size) && (op == 0xA4 || op == 0xA5) && rep != 0 && cnt >= 1
    requires m.mem.Read(R(m, ESI), size).Some? && m.mem.Write(R(m, EDI), m.mem.Read(R(m, ESI), size).value).ok
    ensures StringLoop(m, op, size, size, rep, cnt)
         == StringLoop(AfterElement(m, m.mem.Read(R(m, ESI), size).value, cnt, true), op, size, size, rep, cnt - 1)
  {
    hide Image.Write, Image.TouchesText, Num, Bytes, Has;
    ReadBounds(m.mem, R(m, ESI), size);
    BytesOfNum(m.mem.Read(R(m, ESI), size).value);
  }

  lemma FillOne(m: Machine, op: nat, size: int, rep: int, cnt: nat)
    requires m.mem.Valid() && IsSize(size) && (op == 0xAA || op == 0xAB) && rep != 0 && cnt >= 1
    requires m.mem.Write(R(m, EDI), Bytes(GetReg(m, EAX, size), size)).ok
    ensures StringLoop(m, op, size, size, rep, cnt)
         == StringLoop(AfterElement(m, Bytes(GetReg(m, EAX, size), size), cnt, false), op, size, size, rep, cnt - 1)
  {
    hide Image.Write, Image.TouchesText, Bytes, Has, GetReg;
  }

  lemma {:induction false} MoveLoop(m: Machine, op: nat, size: int, rep: int, cnt: nat, data: seq<Byte>)
    requires m.mem.Valid() && m.mem.Disjoint() && IsSize(size) && (op == 0xA4 || op == 0xA5) && rep != 0
    requires cnt >= 1 && Distance(R(m, EDI), R(m, ESI)) >= cnt * size
    requires m.mem.Read(R(m, ESI), cnt * size) == Some(data) && m.mem.Write(R(m, EDI), data).ok
    ensures BlockReached(m, StringLoop(m, op, size, size, rep, cnt), m.mem.Write(R(m, EDI), data).mem, cnt * size, true)
    decreases cnt
  {
    hide FlushedAsBlock, Image.TouchesText, Image.Write, Image.Read, StringElement, StringLoop, BlockReached, AfterElement;
    var src, dst, rest := R(m, ESI), R(m, EDI), (cnt - 1) * size;
    ReadBounds(m.mem, src, cnt * size);
    var r := StringLoop(m, op, size, size, rep, cnt);
    if cnt == 1 {
      MoveOne(m, op, size, rep, cnt);
      LastElement(m, op, size, rep, data, true);
    } else {
      assert cnt * size == size + rest && rest >= size;
      assert data == data[..size] + data[size..];
      WriteSplit(m.mem, dst, data[..size], data[size..]);
      ReadSplit(m.mem, src, dst, size, cnt * size);
      MoveOne(m, op, size, rep, cnt);
      WriteBounds(m.mem, dst, data);
      ElementAdvances(m, data[..size], cnt, true);
      var m2 := AfterElement(m, data[..size], cnt, true);
      MoveLoop(m2, op, size, rep, cnt - 1, data[size..]);
      BlockExtends(m, data[..size], data[size..], cnt, true, r);
    }
  }

  lemma {:induction false} FillLoop(m: Machine, op: nat, size: int, rep: int, cnt: nat, one: seq<Byte>)
    requires m.mem.Valid() && m.mem.Disjoint() && IsSize(size) && (op == 0xAA || op == 0xAB) && rep != 0
    requires cnt >= 1 && one == Bytes(GetReg(m, EAX, size), size)
    requires m.mem.Write(R(m, EDI), Repeat(one, cnt)).ok
    ensures BlockReached(m, StringLoop(m, op, size, size, rep, cnt),
                         m.mem.Write(R(m, EDI), Repeat(one, cnt)).mem, cnt * size, false)
    decreases cnt
  {
    hide FlushedAsBlock, Image.TouchesText, Image.Write, StringElement, StringLoop, BlockReached, AfterElement, Bytes;
    var dst, rest := R(m, EDI), Repeat(one, cnt - 1);
    var r := StringLoop(m, op, size, size, rep, cnt);
    if cnt == 1 {
      assert Repeat(one, 1) == one;
      FillOne(m, op, size, rep, cnt);
      LastElement(m, op, size, rep, one, false);
    } else {
      WriteSplit(m.mem, dst, one, rest);
      FillOne(m, op, size, rep, cnt);
      WriteBounds(m.mem, dst, one + rest);
      ElementAdvances(m, one, cnt, false);
      var m2 := AfterElement(m, one, cnt, false);
      FillLoop(m2, op, size, rep, cnt - 1, one);
      BlockExtends(m, one, rest, cnt, false, r);
    }
  }

  /** The loop ended in the state of the block, having flushed what the block flushes. */
  ghost predicate BlockReached(m: Machine, r: Effect, mem: Image, n: nat, moves: bool)
    requires m.mem.Valid()
  {
    && r.Ok?
    && r.m.(log := m.log) == AfterBlock(m, mem, n, moves)
    && FlushedAsBlock(m, r.m.log, R(m, EDI), n)
  }

  lemma LastElement(m: Machine, op: nat, size: int, rep: int, data: seq<Byte>, moves: bool)
    requires m.mem.Valid() && |data| == size && IsSize(size) && m.mem.Write(R(m, EDI), data).ok
    ensures BlockReached(m, StringLoop(AfterElement(m, data, 1, moves), op, size, size, rep, 0),
                         m.mem.Write(R(m, EDI), data).mem, size, moves)
  {
    hide FlushedAsBlock, Image.TouchesText, Image.Write;
    OneElementFlush(m, R(m, EDI), data);
  }

  lemma ElementAdvances(m: Machine, data: seq<Byte>, cnt: nat, moves: bool)
    requires m.mem.Valid() && cnt >= 1 && R(m, EDI) + |data| < TWO32 && (moves ==> R(m, ESI) + |data| < TWO32)
    requires m.mem.Write(R(m, EDI), data).ok
    ensures var m2 := AfterElement(m, data, cnt, moves);
      && m2.mem == m.mem.Write(R(m, EDI), data).mem
      && R(m2, EDI) == R(m, EDI) + |data| && R(m2, ESI) == R(m, ESI) + (if moves then |data| else 0)
      && R(m2, EAX) == R(m, EAX)
  {
    hide Image.Write, Image.TouchesText;
  }

  /** The first element and then a block over the rest make the whole block. */
  lemma BlockExtends(m: Machine, x: seq<Byte>, y: seq<Byte>, cnt: nat, moves: bool, r: Effect)
    requires m.mem.Valid() && m.mem.Disjoint() && |x| > 0 && |y| > 0 && cnt >= 1
    requires m.mem.Write(R(m, EDI), x + y).ok && (moves ==> R(m, ESI) + |x| < TWO32)
    requires AfterElement(m, x, cnt, moves).mem.Valid()
    requires var m2 := AfterElement(m, x, cnt, moves);
      BlockReached(m2, r, m.mem.Write(R(m, EDI), x + y).mem, |y|, moves)
    ensures BlockReached(m, r, m.mem.Write(R(m, EDI), x + y).mem, |x| + |y|, moves)
  {
    hide FlushedAsBlock, Image.TouchesText, Image.Write, AfterElement;
    WriteBounds(m.mem, R(m, EDI), x + y);
    WriteSplit(m.mem, R(m, EDI), x, y);
    OneElementFlush(m, R(m, EDI), x);
    ElementAdvances(m, x, cnt, moves);
    RegistersExtend(m, x, cnt, moves, |y|, m.mem.Write(R(m, EDI), x + y).mem);
    var m1, m2 := WriteBytes(m, R(m, EDI), x).m, AfterElement(m, x, cnt, moves);
    SameFlush(m1, m2, r.m.log, R(m, EDI) + |x|, |y|);
    FlushesJoin(m, m1, r.m.log, R(m, EDI), |x|, |y|);
  }

  lemma RegistersExtend(m: Machine, x: seq<Byte>, cnt: nat, moves: bool, rest: nat, mem: Image)
    requires m.mem.Valid() && cnt >= 1 && R(m, EDI) + |x| < TWO32 && (moves ==> R(m, ESI) + |x| < TWO32)
    ensures AfterBlock(AfterElement(m, x, cnt, moves), mem, rest, moves).(log := m.log)
         == AfterBlock(m, mem, |x| + rest, moves)
  {
    hide Image.Write, Image.TouchesText;
    var a := AfterBlock(AfterElement(m, x, cnt, moves), mem, rest, moves);
    assert a.regs == AfterBlock(m, mem, |x| + rest, moves).regs;
  }

  lemma SameFlush(m1: Machine, m2: Machine, log: seq<Span>, dst: int, n: nat)
    requires m1.mem.Valid() && m2.mem == m1.mem && m2.log == m1.log
    requires FlushedAsBlock(m2, log, dst, n)
    ensures FlushedAsBlock(m1, log, dst, n)
  {
  }

  lemma ReadBounds(m: Image, a: int, n: nat)
    requires m.Valid() && m.Read(a, n).Some?
    ensures |m.Read(a, n).value| == n && a + n <= TASK_SIZE
  {
  }

  lemma WriteBounds(m: Image, a: int, data: seq<Byte>)
    requires m.Valid() && m.Disjoint() && m.Write(a, data).ok
    ensures a + |data| <= TASK_SIZE && (m.InLow(a, |data|) || |m.low| <= a)
  {
    WriteExact(m, a, data);
  }

  // ---- The theorem -------------------------------------------------------------------------------

  lemma BlockReachedAgrees(m: Machine, block: Effect, loop: Effect, mem: Image, n: nat, moves: bool)
    requires m.mem.Valid() && block.Ok?
    requires block.m.(log := m.log) == AfterBlock(m, mem, n, moves)
    requires FlushedAsBlock(m, block.m.log, R(m, EDI), n)
    requires BlockReached(m, loop, mem, n, moves)
    ensures SameEffect(block, loop, m.mem.textEnd)
  {
    hide AfterBlock, Hit;
    assert block.m.(log := m.log).(log := []) == block.m.(log := []);
    assert loop.m.(log := m.log).(log := []) == loop.m.(log := []);
  }

  lemma MoveAgrees(m: Machine, op: nat, size: int, rep: int)
    requires m.mem.Valid() && m.mem.Disjoint() && IsSize(size) && (op == 0xA4 || op == 0xA5) && rep != 0
    requires m.regs[ECX] >= 1 && Distance(R(m, EDI), R(m, ESI)) >= m.regs[ECX] * size
    requires MoveBlock(m, m.regs[ECX] * size).Ok?
    ensures SameEffect(MoveBlock(m, m.regs[ECX] * size), StringLoop(m, op, size, size, rep, m.regs[ECX]), m.mem.textEnd)
  {
    hide Image.TouchesText, Image.Write, Image.Read, StringElement, StringLoop, FlushedAsBlock, BlockReached;
    var n := m.regs[ECX] * size;
    var data := m.mem.Read(R(m, ESI), n).value;
    ReadBounds(m.mem, R(m, ESI), n);
    MoveLoop(m, op, size, rep, m.regs[ECX], data);
    OneElementFlush(m, R(m, EDI), data);
    BlockReachedAgrees(m, MoveBlock(m, n), StringLoop(m, op, size, size, rep, m.regs[ECX]),
                       m.mem.Write(R(m, EDI), data).mem, n, true);
  }

  lemma FillAgrees(m: Machine, op: nat, size: int, rep: int)
    requires m.mem.Valid() && m.mem.Disjoint() && IsSize(size) && (op == 0xAA || op == 0xAB) && rep != 0
    requires m.regs[ECX] >= 1 && FillBlock(m, size, m.regs[ECX]).Ok?
    ensures SameEffect(FillBlock(m, size, m.regs[ECX]), StringLoop(m, op, size, size, rep, m.regs[ECX]), m.mem.textEnd)
  {
    hide Image.TouchesText, Image.Write, StringElement, StringLoop, FlushedAsBlock, BlockReached, Bytes;
    var one := Bytes(GetReg(m, EAX, size), size);
    var data := Repeat(one, m.regs[ECX]);
    assert |data| == m.regs[ECX] * size;
    FillLoop(m, op, size, rep, m.regs[ECX], one);
    OneElementFlush(m, R(m, EDI), data);
    BlockReachedAgrees(m, FillBlock(m, size, m.regs[ECX]), StringLoop(m, op, size, size, rep, m.regs[ECX]),
                       m.mem.Write(R(m, EDI), data).mem, m.regs[ECX] * size, false);
  }

  /** `rep movs` and `rep stos` by blocks do what the element loop does, down to the flushed slots,
      whenever the block does not fault. */
  lemma BlockEqualsLoop(m: Machine, op: nat, opsize: OperandSize, rep: int)
    requires m.mem.Valid() && m.mem.Disjoint()
    requires UsesBlock(m, op, opsize, rep) ==> ExecString(m, op, opsize, rep).Ok?
    ensures SameEffect(ExecString(m, op, opsize, rep), ElementLoop(m, op, opsize, rep), m.mem.textEnd)
  {
    hide StringElement, MoveBlock, FillBlock;
    var size := if IsByteString(op) then 1 else opsize;
    if UsesBlock(m, op, opsize, rep) {
      if op == 0xA4 || op == 0xA5 { MoveAgrees(m, op, size, rep); } else { FillAgrees(m, op, size, rep); }
    }
  }

  /** A block that faults agrees with the loop exactly when already the first element faults: the
      block moves nothing, the loop has moved the elements before the fault. The stack region is
      assumed to hold at least one operand. */
  lemma FaultingBlock(m: Machine, op: nat, opsize: OperandSize, rep: int)
    requires m.mem.Valid() && m.mem.Disjoint() && |m.mem.stack| >= 4
    requires UsesBlock(m, op, opsize, rep) && ExecString(m, op, opsize, rep).Stop?
    ensures SameEffect(ExecString(m, op, opsize, rep), ElementLoop(m, op, opsize, rep), m.mem.textEnd)
       <==> StringElement(m, op, if IsByteString(op) then 1 else opsize, if IsByteString(op) then 1 else opsize).Stop?
  {
    hide StringElement, StringLoop, MoveBlock, FillBlock, Has;
    var size := if IsByteString(op) then 1 else opsize;
    if StringElement(m, op, size, size).Stop? {
      FirstFaults(m, op, size, rep);
    } else {
      LoopMovesOn(m, op, size, rep);
    }
    if op == 0xA4 || op == 0xA5 { MoveFaults(m, op, size); } else { FillFaults(m, op, size); }
  }

  /** A store that cannot take its first bytes takes none, and does not grow the stack. */
  lemma NoStoreNoGrowth(m: Image, a: int, x: seq<Byte>, y: seq<Byte>)
    requires m.Valid() && m.Disjoint() && |m.stack| >= 4 && 0 < |x| <= 4 && |x| <= |y|
    requires !m.Write(a, x).ok
    ensures m.Write(a, y) == Written(m, false)
  {
    WriteExact(m, a, x);
    WriteExact(m, a, y);
  }

  /** A faulting block leaves the registers alone, and also memory if the first element faults. */
  lemma FillFaults(m: Machine, op: nat, size: int)
    requires m.mem.Valid() && m.mem.Disjoint() && |m.mem.stack| >= 4 && IsSize(size) && m.regs[ECX] > 1
    requires FillBlock(m, size, m.regs[ECX]).Stop? && (op == 0xAA || op == 0xAB)
    ensures FillBlock(m, size, m.regs[ECX]).ev == SegFault
    ensures FillBlock(m, size, m.regs[ECX]).m.regs == m.regs
    ensures StringElement(m, op, size, size).Stop? ==> FillBlock(m, size, m.regs[ECX]).m == m
  {
    hide GetReg, Bytes, Set32, Num, Image.Write, Image.TouchesText;
    var one := Bytes(GetReg(m, EAX, size), size);
    assert |Repeat(one, m.regs[ECX])| == size * m.regs[ECX] >= size;
    if StringElement(m, op, size, size).Stop? {
      NoStoreNoGrowth(m.mem, R(m, EDI), one, Repeat(one, m.regs[ECX]));
    }
  }

  lemma MoveFaults(m: Machine, op: nat, size: int)
    requires m.mem.Valid() && m.mem.Disjoint() && |m.mem.stack| >= 4 && IsSize(size) && m.regs[ECX] > 1
    requires MoveBlock(m, m.regs[ECX] * size).Stop? && (op == 0xA4 || op == 0xA5)
    ensures MoveBlock(m, m.regs[ECX] * size).ev == SegFault
    ensures MoveBlock(m, m.regs[ECX] * size).m.regs == m.regs
    ensures StringElement(m, op, size, size).Stop? ==> MoveBlock(m, m.regs[ECX] * size).m == m
  {
    hide Bytes, Set32, Num, Image.Write, Image.Read, Image.TouchesText;
    var n := m.regs[ECX] * size;
    if StringElement(m, op, size, size).Stop? && m.mem.Read(R(m, ESI), n).Some? {
      assert n > size;
      ReadPart(m.mem, R(m, ESI), n, size);
      ReadBounds(m.mem, R(m, ESI), n);
      NoStoreNoGrowth(m.mem, R(m, EDI), Bytes(Num(m.mem.Read(R(m, ESI), size).value), size), m.mem.Read(R(m, ESI), n).value);
    }
  }

  lemma FirstFaults(m: Machine, op: nat, size: int, rep: int)
    requires m.mem.Valid() && m.mem.Disjoint() && |m.mem.stack| >= 4 && IsSize(size) && m.regs[ECX] > 1
    requires op == 0xA4 || op == 0xA5 || op == 0xAA || op == 0xAB
    requires StringElement(m, op, size, size).Stop?
    ensures StringLoop(m, op, size, size, rep, m.regs[ECX]) == Stop(m, SegFault)
  {
    hide GetReg, Bytes, Set32, Num, Has;
  }

  /** The loop never counts up, so one completed element leaves ECX below the block's. */
  lemma {:induction false} LoopCountsDown(m: Machine, op: nat, size: int, rep: int, cnt: nat)
    requires m.mem.Valid() && IsSize(size) && rep != 0 && R(m, ECX) == cnt
    requires op == 0xA4 || op == 0xA5 || op == 0xAA || op == 0xAB
    ensures R(StringLoop(m, op, size, size, rep, cnt).m, ECX) <= cnt
    decreases cnt
  {
    hide StringElement;
    if cnt > 0 {
      ElementKeepsCount(m, op, size);
      if StringElement(m, op, size, size).Ok? {
        LoopCountsDown(Set32(StringElement(m, op, size, size).m, ECX, cnt - 1), op, size, rep, cnt - 1);
      }
    }
  }

  lemma ElementKeepsCount(m: Machine, op: nat, size: int)
    requires m.mem.Valid() && IsSize(size)
    requires op == 0xA4 || op == 0xA5 || op == 0xAA || op == 0xAB
    ensures R(StringElement(m, op, size, size).m, ECX) == R(m, ECX)
  {
    hide Image.Write, Image.TouchesText, Bytes;
  }

  lemma LoopMovesOn(m: Machine, op: nat, size: int, rep: int)
    requires m.mem.Valid() && IsSize(size) && rep != 0 && R(m, ECX) >= 1
    requires op == 0xA4 || op == 0xA5 || op == 0xAA || op == 0xAB
    requires StringElement(m, op, size, size).Ok?
    ensures R(StringLoop(m, op, size, size, rep, R(m, ECX)).m, ECX) < R(m, ECX)
  {
    hide StringElement;
    var m1 := StringElement(m, op, size, size).m;
    LoopCountsDown(Set32(m1, ECX, R(m, ECX) - 1), op, size, rep, R(m, ECX) - 1);
  }

  // ---- The instruction as it is run --------------------------------------------------------------

  /** The body of a string instruction, its element loop written out. */
  method RunString(m0: Machine, op: nat, opsize: OperandSize, rep: int) returns (r: Effect)
    requires m0.mem.Valid()
    ensures r == ExecString(m0, op, opsize, rep)
  {
    hide StringElement, MoveBlock, FillBlock;
    var size := if IsByteString(op) then 1 else opsize;
    var back := Has(m0.flags, DF);
    var delta := if back then -size else size;
    var cnt := 1;
    if rep != 0 {
      cnt := m0.regs[ECX];
      if cnt == 0 { return Done(m0); }
    }
    if !back && rep != 0 && (op == 0xA4 || op == 0xA5) && cnt > 1
       && Distance(m0.regs[EDI], m0.regs[ESI]) >= cnt * size {
      return MoveBlock(m0, cnt * size);
    }
    if !back && rep != 0 && (op == 0xAA || op == 0xAB) && cnt > 1 {
      return FillBlock(m0, size, cnt);
    }
    var m := m0;
    ghost var whole := StringLoop(m0, op, size, delta, rep, cnt);
    while cnt > 0
      invariant m.mem.Valid() && cnt >= 0
      invariant StringLoop(m, op, size, delta, rep, cnt) == whole
      decreases cnt
    {
      var e := StringElement(m, op, size, delta);
      if e.Stop? { return e; }
      m := e.m;
      cnt := cnt - 1;
      if rep != 0 {
        m := Set32(m, ECX, cnt);
        if Compares(op) {
          var zf := Has(m.flags, ZF);
          if (rep == 0xF3 && !zf) || (rep == 0xF2 && zf) { return Done(m); }
        }
      }
    }
    r := Done(m);
  }
}
