/** The two-region flat address space of one process (x86mem.py).

    `Image` is the value of an address space: a low region growing up from 0 and a stack region
    growing down from TASK_SIZE. `AddressSpace` is the object that is updated in place; every
    method is tied to the functions of `Image`. */
module Memory {
  import opened Words

  const TASK_SIZE: int := 0x400_0000
  const PAGE_SIZE: int := 4096
  const ARG_AREA: int := 32 * PAGE_SIZE
  const BRK_STACK_GAP: int := 16384
  const DEFAULT_STACK: int := 512 * 1024
  const STACK_GROW_STEP: int := 64 * 1024
  const ICACHE_MAX_TEXT: int := 0x80_0000

  function RoundUpToPage(n: nat): nat {
    (n + PAGE_SIZE - 1) / PAGE_SIZE * PAGE_SIZE
  }

  /** What a bulk write leaves behind: the image (a failing write may still have grown the stack)
      and whether the bytes were stored. */
  datatype Written = Written(mem: Image, ok: bool)

  datatype Image = Image(low: seq<Byte>, stack: seq<Byte>, stackLow: nat,
                         brk: int, textEnd: nat, startStack: int)
  {
    predicate Valid() {
      && stackLow + |stack| == TASK_SIZE
      && textEnd <= |low| <= TASK_SIZE
      && startStack <= TASK_SIZE
    }

    /** The two regions do not overlap. */
    predicate Disjoint() {
      |low| <= stackLow
    }

    /** The byte view of the address space; None where an access faults. */
    function ByteAt(a: int): Option<Byte>
      requires Valid()
    {
      if 0 <= a < |low| then Some(low[a])
      else if stackLow <= a < TASK_SIZE then Some(stack[a - stackLow])
      else None
    }

    predicate InLow(a: int, n: nat) {
      0 <= a && a + n <= |low|
    }

    predicate InStack(a: int, n: nat) {
      stackLow <= a && a + n <= TASK_SIZE
    }

    function Read(a: int, n: nat): Option<seq<Byte>>
      requires Valid()
    {
      if InLow(a, n) then Some(low[a..a + n])
      else if InStack(a, n) then Some(stack[a - stackLow..a - stackLow + n])
      else None
    }

    /** read_u8, read_u16 and read_u32. */
    function Load(a: int, size: int): Option<Word>
      requires Valid() && IsSize(size)
    {
      match Read(a, size)
      case Some(bs) => Some(Num(bs))
      case None => None
    }

    /** Growth down to an address in the hole; one step always covers that address. */
    function GrowStack(a: int): (g: Option<Image>)
      requires Valid()
      ensures g.Some? <==> |low| <= a < stackLow
      ensures g.Some? ==>
        && g.value.Valid() && g.value.Disjoint()
        && g.value.stackLow <= a
        && g.value.stack == Zeros(stackLow - g.value.stackLow) + stack
        && g.value == this.(stack := g.value.stack, stackLow := g.value.stackLow)
    {
      if a >= stackLow || a < |low| then None
      else
        var step := RoundUpToPage(Max(stackLow - a, STACK_GROW_STEP));
        var newLow := if stackLow - step < |low| then |low| else stackLow - step;
        if stackLow - newLow <= 0 then None
        else Some(this.(stack := Zeros(stackLow - newLow) + stack, stackLow := newLow))
    }

    /** A write that does not have to grow the stack. */
    function WriteMapped(a: int, data: seq<Byte>): Option<Image>
      requires Valid()
    {
      var n := |data|;
      if InLow(a, n) then Some(this.(low := low[..a] + data + low[a + n..]))
      else if InStack(a, n) then
        var off := a - stackLow;
        Some(this.(stack := stack[..off] + data + stack[off + n..]))
      else None
    }

    function Write(a: int, data: seq<Byte>): Written
      requires Valid()
    {
      match WriteMapped(a, data)
      case Some(m) => Written(m, true)
      case None =>
        if 0 <= a < stackLow && GrowStack(a).Some? then
          var g := GrowStack(a).value;
          match g.WriteMapped(a, data)
          case Some(m) => Written(m, true)
          case None => Written(g, false)
        else Written(this, false)
    }

    /** write_u8, write_u16 and write_u32. */
    function Store(a: int, size: int, v: int): Written
      requires Valid() && IsSize(size)
    {
      Write(a, Bytes(v, size))
    }

    function SetBrk(a: int): Image
      requires Valid()
    {
      if textEnd <= a < startStack - BRK_STACK_GAP then
        this.(low := if a > |low| then low + Zeros(a - |low|) else low, brk := a)
      else this
    }

    /** The store into [a, a+n) goes through the low region and starts inside text, so that it
        flushes decoded instructions. */
    predicate TouchesText(a: int, n: nat) {
      InLow(a, n) && a < textEnd
    }
  }

  // ---- The byte-map reading of the accessors -------------------------------

  /** The bytes after a store that succeeded, `edge` being the stack edge it started from. */
  ghost predicate StoredExactly(m: Image, m': Image, a: int, data: seq<Byte>)
    requires m.Valid() && m'.Valid()
  {
    forall x :: m'.ByteAt(x) == if a <= x < a + |data| then Some(data[x - a])
                                else if m'.stackLow <= x < m.stackLow then Some(0)
                                else m.ByteAt(x)
  }

  ghost predicate KeepsMapped(m: Image, m': Image)
    requires m.Valid() && m'.Valid()
  {
    forall x :: m.ByteAt(x).Some? ==> m'.ByteAt(x) == m.ByteAt(x)
  }

  /** m' differs from m at most in its bytes and in a lower stack edge. */
  predicate SameLayout(m: Image, m': Image) {
    && m'.stackLow <= m.stackLow
    && |m'.low| == |m.low|
    && m' == m.(low := m'.low, stack := m'.stack, stackLow := m'.stackLow)
  }

  lemma WriteMappedExact(m: Image, a: int, data: seq<Byte>)
    requires m.Valid() && m.Disjoint() && m.WriteMapped(a, data).Some?
    ensures var m' := m.WriteMapped(a, data).value;
      m'.Valid() && m'.Disjoint() && SameLayout(m, m') && m'.stackLow == m.stackLow && StoredExactly(m, m', a, data)
  {
  }

  lemma GrowStackExact(m: Image, a: int)
    requires m.Valid() && m.Disjoint() && m.GrowStack(a).Some?
    ensures var g := m.GrowStack(a).value;
      && g.Valid() && g.Disjoint() && SameLayout(m, g)
      && forall x :: g.ByteAt(x) == if g.stackLow <= x < m.stackLow then Some(0) else m.ByteAt(x)
  {
  }

  /** A store changes exactly its own bytes: growth only adds zeros below the old stack, a failed
      store loses no mapped byte, and it succeeds exactly on ranges inside one region or on
      ranges that one growth step can bring inside the stack. */
  lemma WriteExact(m: Image, a: int, data: seq<Byte>)
    requires m.Valid() && m.Disjoint()
    ensures var w := m.Write(a, data);
      && w.mem.Valid() && w.mem.Disjoint() && SameLayout(m, w.mem)
      && (w.ok <==> m.InLow(a, |data|) || (|m.low| <= a && a + |data| <= TASK_SIZE))
      && (w.ok ==> StoredExactly(m, w.mem, a, data))
      && (!w.ok ==> KeepsMapped(m, w.mem))
  {
    if m.WriteMapped(a, data).Some? {
      WriteMappedExact(m, a, data);
    } else if 0 <= a < m.stackLow && m.GrowStack(a).Some? {
      var g := m.GrowStack(a).value;
      GrowStackExact(m, a);
      if g.WriteMapped(a, data).Some? {
        WriteMappedExact(g, a, data);
      }
    }
  }

  /** Loads see the last store, in little-endian order and truncated to the operand size. */
  lemma LoadAfterStore(m: Image, a: int, size: int, v: int)
    requires m.Valid() && IsSize(size) && m.Store(a, size, v).ok
    ensures m.Store(a, size, v).mem.Valid()
    ensures m.Store(a, size, v).mem.Load(a, size) == Some(v % Range(size))
  {
    var bs := Bytes(v, size);
    var r := m.Store(a, size, v).mem;
    assert r.Read(a, size) == Some(bs);
    NumOfBytes(v, size);
  }

  /** A sized load is the little-endian number of the bytes it covers. */
  lemma LoadIsBytes(m: Image, a: int, size: int)
    requires m.Valid() && m.Disjoint() && IsSize(size) && m.Load(a, size).Some?
    ensures forall k :: 0 <= k < size ==> m.ByteAt(a + k) == Some(Bytes(m.Load(a, size).value, size)[k])
  {
    BytesOfNum(m.Read(a, size).value);
  }

  /** Reading survives any change that keeps the bytes read and only lowers the stack edge. */
  lemma ReadFrame(m: Image, m': Image, a: int, n: nat)
    requires m.Valid() && m'.Valid() && m.Disjoint() && m'.Disjoint()
    requires |m.low| == |m'.low| && m'.stackLow <= m.stackLow
    requires m.Read(a, n).Some?
    requires forall x :: a <= x < a + n ==> m'.ByteAt(x) == m.ByteAt(x)
    ensures m'.Read(a, n) == m.Read(a, n)
  {
    var bs := m.Read(a, n).value;
    assert m'.Read(a, n).Some?;
    var cs := m'.Read(a, n).value;
    forall k | 0 <= k < n ensures cs[k] == bs[k] {
      assert m'.ByteAt(a + k) == m.ByteAt(a + k);
      assert m.ByteAt(a + k) == Some(bs[k]);
      assert m'.ByteAt(a + k) == Some(cs[k]);
    }
    assert cs == bs;
  }

  /** The guard of brk looks at the start of the stack rather than at its current lower edge, so the
      regions stay apart exactly for requests at or below that edge (or refused ones). */
  lemma BrkKeepsRegionsApart(m: Image, a: int)
    requires m.Valid() && m.Disjoint()
    ensures m.SetBrk(a).Valid()
    ensures m.SetBrk(a).Disjoint() <==> a <= m.stackLow || a >= m.startStack - BRK_STACK_GAP
    ensures forall x :: 0 <= x < |m.low| ==> m.SetBrk(a).ByteAt(x) == m.ByteAt(x)
  {
  }

  /** An address space as built for a new process. */
  function Fresh(stackSize: nat): (m: Image)
    requires RoundUpToPage(stackSize) <= TASK_SIZE
    ensures m.Valid() && m.Disjoint()
  {
    var n := RoundUpToPage(stackSize);
    Image([], Zeros(n), TASK_SIZE - n, 0, 0, TASK_SIZE)
  }

  /** A fresh process can move its break into the stack region. */
  lemma BrkCanOverlapTheStack()
    ensures RoundUpToPage(DEFAULT_STACK) == DEFAULT_STACK
    ensures !Fresh(DEFAULT_STACK).SetBrk(TASK_SIZE - BRK_STACK_GAP - 1).Disjoint()
  {
  }

  // ---- Decoded-instruction slots --------------------------------------------

  /** Clearing the slots of every instruction that may cover a byte of [addr, addr+n). */
  function FlushSlots<E>(cache: seq<Option<E>>, addr: nat, n: nat): (r: seq<Option<E>>)
    ensures |r| == |cache|
    ensures forall i :: 0 <= i < |r| ==> r[i] == if addr - 15 <= i < addr + n then None else cache[i]
  {
    var lo := if addr > 15 then addr - 15 else 0;
    var hi := Min(addr + n, |cache|);
    if lo < hi then cache[..lo] + seq(hi - lo, _ => None) + cache[hi..] else cache
  }

  /** The slots after a store of n bytes at a into image m. */
  function SlotsAfter<E>(m: Image, cache: seq<Option<E>>, a: int, n: nat): (r: seq<Option<E>>)
    ensures |r| == |cache|
  {
    if m.TouchesText(a, n) then FlushSlots(cache, a, n) else cache
  }

  /** The NUL-terminated string at a, at most `limit` bytes; None where the scan faults. */
  function CString(m: Image, a: int, limit: nat): Option<seq<Byte>>
    requires m.Valid()
    decreases limit
  {
    if limit == 0 then None
    else match m.ByteAt(a) {
      case None => None
      case Some(b) =>
        if b == 0 then Some([])
        else match CString(m, a + 1, limit - 1) {
          case None => None
          case Some(rest) => Some([b] + rest)
        }
    }
  }

  // ---- The object ------------------------------------------------------------

  class AddressSpace<E> {
    var low: seq<Byte>
    var lowEnd: nat
    var stack: seq<Byte>
    var stackLow: nat
    var brk: int
    var textEnd: nat
    var startStack: int
    var icache: seq<Option<E>>

    function Value(): Image
      reads this
    {
      Image(low, stack, stackLow, brk, textEnd, startStack)
    }

    ghost predicate Valid()
      reads this
    {
      && lowEnd == |low|
      && Value().Valid()
      && |icache| == (if textEnd <= ICACHE_MAX_TEXT then textEnd else 0)
    }

    constructor (stackSize: nat)
      requires RoundUpToPage(stackSize) <= TASK_SIZE
      ensures Valid() && Value() == Fresh(stackSize) && icache == []
    {
      low, lowEnd := [], 0;
      stack := Zeros(RoundUpToPage(stackSize));
      stackLow := TASK_SIZE - RoundUpToPage(stackSize);
      brk, textEnd, startStack, icache := 0, 0, TASK_SIZE, [];
    }

    method LoadProgram(text: seq<Byte>, data: seq<Byte>, bss: nat)
      requires Valid() && |text| + |data| + bss <= TASK_SIZE
      modifies this
      ensures Valid()
      ensures low == text + data + Zeros(bss) && textEnd == |text| && brk == lowEnd
      ensures stack == old(stack) && stackLow == old(stackLow) && startStack == old(startStack)
      ensures forall i :: 0 <= i < |icache| ==> icache[i] == None
    {
      low := text + data + Zeros(bss);
      textEnd := |text|;
      lowEnd := |low|;
      brk := lowEnd;
      var n := if textEnd <= ICACHE_MAX_TEXT then textEnd else 0;
      icache := seq(n, _ => None);
    }

    method SetBrk(addr: int) returns (r: int)
      requires Valid()
      modifies this
      ensures Valid() && Value() == old(Value()).SetBrk(addr) && icache == old(icache)
      ensures r == brk
    {
      if textEnd <= addr < startStack - BRK_STACK_GAP {
        if addr > lowEnd {
          low := low + Zeros(addr - lowEnd);
          lowEnd := addr;
        }
        brk := addr;
      }
      r := brk;
    }

    method GrowStack(addr: int) returns (ok: bool)
      requires Valid()
      modifies this
      ensures Valid() && icache == old(icache)
      ensures ok == old(Value()).GrowStack(addr).Some?
      ensures Value() == if ok then old(Value()).GrowStack(addr).value else old(Value())
    {
      if addr >= stackLow || addr < lowEnd { return false; }
      var step := RoundUpToPage(Max(stackLow - addr, STACK_GROW_STEP));
      var newLow := stackLow - step;
      if newLow < lowEnd {
        newLow := lowEnd;
        step := stackLow - newLow;
      }
      stack := Zeros(step) + stack;
      stackLow := newLow;
      ok := true;
    }

    method Clone() returns (c: AddressSpace<E>)
      requires Valid()
      ensures fresh(c) && c.Valid() && c.Value() == Value() && c.icache == icache
    {
      c := new AddressSpace<E>(0);
      c.low, c.lowEnd, c.stack, c.stackLow := low, lowEnd, stack, stackLow;
      c.brk, c.textEnd, c.startStack, c.icache := brk, textEnd, startStack, icache;
    }

    method FlushIcache(addr: nat, n: nat)
      modifies this`icache
      ensures icache == FlushSlots(old(icache), addr, n)
    {
      var lo := if addr > 15 then addr - 15 else 0;
      var hi := addr + n;
      if hi > |icache| { hi := |icache|; }
      if lo < hi {
        icache := icache[..lo] + seq(hi - lo, _ => None) + icache[hi..];
      }
    }

    method Read(addr: int, n: nat) returns (r: Option<seq<Byte>>)
      requires Valid()
      ensures r == Value().Read(addr, n)
    {
      if 0 <= addr && addr + n <= lowEnd { return Some(low[addr..addr + n]); }
      if addr >= stackLow && addr + n <= TASK_SIZE {
        var off := addr - stackLow;
        return Some(stack[off..off + n]);
      }
      return None;
    }

    /** The bulk write: it calls itself again after growing the stack, at most once. */
    method Write(addr: int, data: seq<Byte>) returns (ok: bool)
      requires Valid()
      modifies this
      ensures Valid() && Written(Value(), ok) == old(Value()).Write(addr, data)
      ensures icache == SlotsAfter(old(Value()), old(icache), addr, |data|)
      decreases if addr < stackLow then 1 else 0
    {
      var n := |data|;
      if 0 <= addr && addr + n <= lowEnd {
        low := low[..addr] + data + low[addr + n..];
        if addr < textEnd { FlushIcache(addr, n); }
        return true;
      }
      if addr >= stackLow && addr + n <= TASK_SIZE {
        var off := addr - stackLow;
        stack := stack[..off] + data + stack[off + n..];
        return true;
      }
      if 0 <= addr < stackLow {
        var grown := GrowStack(addr);
        if grown {
          ok := Write(addr, data);
          return;
        }
      }
      return false;
    }

    /** read_u8 / read_u16 / read_u32, by operand size. */
    method ReadSized(addr: int, size: int) returns (r: Option<Word>)
      requires Valid() && IsSize(size)
      ensures r == Value().Load(addr, size)
    {
      if 0 <= addr && addr + size <= lowEnd { return Some(Num(low[addr..addr + size])); }
      if addr >= stackLow && addr + size <= TASK_SIZE {
        var off := addr - stackLow;
        return Some(Num(stack[off..off + size]));
      }
      return None;
    }

    /** write_u8 / write_u16 / write_u32: the two mapped cases directly, growth and faults through
        the bulk write. */
    method WriteSized(addr: int, size: int, val: int) returns (ok: bool)
      requires Valid() && IsSize(size)
      modifies this
      ensures Valid() && Written(Value(), ok) == old(Value()).Store(addr, size, val)
      ensures icache == SlotsAfter(old(Value()), old(icache), addr, size)
    {
      var bs := Bytes(val, size);
      if 0 <= addr && addr + size <= lowEnd {
        low := low[..addr] + bs + low[addr + size..];
        if addr < textEnd { FlushIcache(addr, size); }
        return true;
      }
      if addr >= stackLow && addr + size <= TASK_SIZE {
        var off := addr - stackLow;
        stack := stack[..off] + bs + stack[off + size..];
        return true;
      }
      ok := Write(addr, bs);
    }

    method ReadCStr(addr: int, limit: nat) returns (r: Option<seq<Byte>>)
      requires Valid()
      ensures r == CString(Value(), addr, limit)
    {
      var out: seq<Byte> := [];
      ghost var all := CString(Value(), addr, limit);
      assert all.Some? ==> out + all.value == all.value;
      while |out| < limit
        invariant |out| <= limit
        invariant CString(Value(), addr, limit) ==
          match CString(Value(), addr + |out|, limit - |out|)
          case None => None
          case Some(rest) => Some(out + rest)
      {
        var b := Value().ByteAt(addr + |out|);
        if b.None? { return None; }
        if b.value == 0 {
          assert out + [] == out;
          return Some(out);
        }
        ghost var rest := CString(Value(), addr + |out| + 1, limit - |out| - 1);
        assert rest.Some? ==> out + ([b.value] + rest.value) == (out + [b.value]) + rest.value;
        out := out + [b.value];
      }
      return None;
    }
  }
}
