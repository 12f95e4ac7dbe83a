/** The initial stack of a program (kexec.py, `setup_stack`): argument and environment strings,
    their pointer arrays and the three words a C start-up routine reads. */
module StackBuilder {
  import opened Words
  import opened Memory

  const MAX_TOTAL: int := 0x300_0000

  type Text = seq<Byte>

  /** The bytes of the strings with their terminators. */
  function Total(strs: seq<Text>): (n: nat)
    ensures n >= |strs|
  {
    if |strs| == 0 then 0 else |strs[0]| + 1 + Total(strs[1..])
  }

  predicate NulFree(s: Text) {
    forall i :: 0 <= i < |s| ==> s[i] != 0
  }

  // ---- Bytes at addresses ------------------------------------------------------------

  predicate Holds(m: Image, a: int, bs: seq<Byte>)
    requires m.Valid()
  {
    forall k :: 0 <= k < |bs| ==> m.ByteAt(a + k) == Some(bs[k])
  }

  predicate HoldsWord(m: Image, a: int, v: int)
    requires m.Valid()
  {
    Holds(m, a, Bytes(v, 4))
  }

  /** m' is m with new bytes inside [lo, hi) only, all above the low region (and possibly another
      start of the stack). */
  ghost predicate ChangedWithin(m: Image, m': Image, lo: int, hi: int)
    requires m.Valid() && m'.Valid()
  {
    && m'.Disjoint() && m' == m.(stack := m'.stack, stackLow := m'.stackLow, startStack := m'.startStack)
    && forall x :: m.ByteAt(x).Some? && !(lo <= x < hi) ==> m'.ByteAt(x) == m.ByteAt(x)
  }

  lemma StoreAbove(m: Image, a: int, data: seq<Byte>)
    requires m.Valid() && m.Disjoint() && |data| > 0 && |m.low| <= a && a + |data| <= TASK_SIZE
    ensures m.Write(a, data).ok && m.Write(a, data).mem.Valid() && !m.TouchesText(a, |data|)
    ensures Holds(m.Write(a, data).mem, a, data)
    ensures ChangedWithin(m, m.Write(a, data).mem, a, a + |data|)
  {
    WriteExact(m, a, data);
    assert m.Write(a, data).mem.low == m.low;
  }

  lemma ChangesCompose(m: Image, m': Image, m'': Image, lo1: int, hi1: int, lo2: int, hi2: int, lo: int, hi: int)
    requires m.Valid() && m'.Valid() && m''.Valid() && lo <= lo1 && hi1 <= hi && lo <= lo2 && hi2 <= hi
    requires ChangedWithin(m, m', lo1, hi1) && ChangedWithin(m', m'', lo2, hi2)
    ensures ChangedWithin(m, m'', lo, hi)
  {
  }

  lemma LayoutKept(m: Image, m': Image, lo: int, hi: int)
    requires m.Valid() && m'.Valid() && ChangedWithin(m, m', lo, hi)
    ensures m'.Disjoint() && m'.low == m.low && m'.textEnd == m.textEnd
  {
  }

  lemma Unchanged(m: Image, a: int)
    requires m.Valid() && m.Disjoint()
    ensures ChangedWithin(m, m, a, a)
  {
  }

  lemma HeldKept(m: Image, m': Image, lo: int, hi: int, a: int, bs: seq<Byte>)
    requires m.Valid() && m'.Valid() && ChangedWithin(m, m', lo, hi)
    requires Holds(m, a, bs) && (a + |bs| <= lo || hi <= a)
    ensures Holds(m', a, bs)
  {
  }

  // ---- The strings ---------------------------------------------------------------------

  /** Where string i of a list laid down from `top` downwards starts. */
  function StringAddr(strs: seq<Text>, i: nat, top: int): int
    requires i <= |strs|
  {
    top - Total(strs[i..])
  }

  ghost predicate StringsHeld(m: Image, strs: seq<Text>, from: nat, top: int)
    requires m.Valid()
  {
    forall j :: from <= j < |strs| ==> Holds(m, StringAddr(strs, j, top), strs[j] + [0])
  }

  lemma {:induction false} AddrBelow(strs: seq<Text>, i: nat, j: nat, top: int)
    requires i < j <= |strs|
    ensures StringAddr(strs, i, top) + |strs[i]| + 1 <= StringAddr(strs, j, top) <= top
    decreases j - i
  {
    assert strs[i..][0] == strs[i] && strs[i..][1..] == strs[i + 1..];
    if i + 1 < j { AddrBelow(strs, i + 1, j, top); }
  }

  lemma StringsKept(m: Image, m': Image, strs: seq<Text>, from: nat, top: int, lo: int, hi: int)
    requires m.Valid() && m'.Valid() && ChangedWithin(m, m', lo, hi) && from <= |strs|
    requires StringsHeld(m, strs, from, top)
    requires hi <= StringAddr(strs, from, top) || top <= lo
    ensures StringsHeld(m', strs, from, top)
  {
    forall j | from <= j < |strs| ensures Holds(m', StringAddr(strs, j, top), strs[j] + [0]) {
      AddrBelow(strs, j, |strs|, top);
      if from < j { AddrBelow(strs, from, j, top); }
      HeldKept(m, m', lo, hi, StringAddr(strs, j, top), strs[j] + [0]);
    }
  }

  lemma NoStrings(m: Image, strs: seq<Text>, top: int)
    requires m.Valid()
    ensures StringsHeld(m, strs, |strs|, top) && StringAddr(strs, |strs|, top) == top
  {
  }

  lemma OneMoreString(m: Image, strs: seq<Text>, i: nat, top: int)
    requires m.Valid() && i < |strs| && StringsHeld(m, strs, i + 1, top)
    requires Holds(m, StringAddr(strs, i, top), strs[i] + [0])
    ensures StringsHeld(m, strs, i, top)
  {
  }

  lemma NextAddr(strs: seq<Text>, i: nat, top: int)
    requires i < |strs|
    ensures StringAddr(strs, i, top) == StringAddr(strs, i + 1, top) - |strs[i]| - 1
    ensures top - Total(strs) <= StringAddr(strs, i, top)
  {
    assert strs[i..][0] == strs[i] && strs[i..][1..] == strs[i + 1..];
    assert strs[0..] == strs;
    if i > 0 { AddrBelow(strs, 0, i, top); }
  }

  /** Copies the strings downwards from `top`, the last one first. */
  method CopyStrings<E>(mem: AddressSpace<E>, strs: seq<Text>, top: int) returns (p: int, addrs: seq<int>)
    requires mem.Valid() && mem.Value().Disjoint() && top <= TASK_SIZE && mem.lowEnd <= top - Total(strs)
    modifies mem
    ensures mem.Valid() && mem.icache == old(mem.icache)
    ensures p == top - Total(strs)
    ensures |addrs| == |strs| && forall i :: 0 <= i < |strs| ==> addrs[i] == StringAddr(strs, i, top)
    ensures ChangedWithin(old(mem.Value()), mem.Value(), p, top)
    ensures StringsHeld(mem.Value(), strs, 0, top)
  {
    hide ChangedWithin, Holds, StringsHeld, Total, Image.Write, Image.TouchesText, Image.Disjoint;
    p, addrs := top, [];
    ghost var m0 := mem.Value();
    Unchanged(m0, p);
    NoStrings(m0, strs, top);
    var i := |strs|;
    while i > 0
      invariant 0 <= i <= |strs| && p == StringAddr(strs, i, top)
      invariant mem.Valid() && mem.icache == old(mem.icache) && mem.low == m0.low && mem.Value().Disjoint()
      invariant |addrs| == |strs| - i && forall j :: i <= j < |strs| ==> addrs[j - i] == StringAddr(strs, j, top)
      invariant ChangedWithin(m0, mem.Value(), p, top)
      invariant StringsHeld(mem.Value(), strs, i, top)
    {
      i := i - 1;
      ghost var q, m := p, mem.Value();
      NextAddr(strs, i, top);
      p := p - (|strs[i]| + 1);
      StoreAbove(m, p, strs[i] + [0]);
      var _ := mem.Write(p, strs[i] + [0]);
      LayoutKept(m, mem.Value(), p, q);
      StringsKept(m, mem.Value(), strs, i + 1, top, p, q);
      OneMoreString(mem.Value(), strs, i, top);
      ChangesCompose(m0, m, mem.Value(), q, top, p, q, p, top);
      addrs := [p] + addrs;
    }
    assert strs[0..] == strs;
  }

  // ---- The pointer arrays -------------------------------------------------------------------

  ghost predicate PointersHeld(m: Image, base: int, addrs: seq<int>, upTo: nat)
    requires m.Valid()
  {
    forall i :: 0 <= i < upTo <= |addrs| ==> HoldsWord(m, base + 4 * i, addrs[i])
  }

  /** A pointer array closed by a NULL word. */
  ghost predicate VectorHeld(m: Image, base: int, addrs: seq<int>)
    requires m.Valid()
  {
    PointersHeld(m, base, addrs, |addrs|) && HoldsWord(m, base + 4 * |addrs|, 0)
  }

  lemma PointersKept(m: Image, m': Image, base: int, addrs: seq<int>, upTo: nat, lo: int, hi: int)
    requires m.Valid() && m'.Valid() && ChangedWithin(m, m', lo, hi) && upTo <= |addrs|
    requires PointersHeld(m, base, addrs, upTo) && (hi <= base || base + 4 * upTo <= lo)
    ensures PointersHeld(m', base, addrs, upTo)
  {
    forall i | 0 <= i < upTo ensures HoldsWord(m', base + 4 * i, addrs[i]) {
      HeldKept(m, m', lo, hi, base + 4 * i, Bytes(addrs[i], 4));
    }
  }

  lemma VectorKept(m: Image, m': Image, base: int, addrs: seq<int>, lo: int, hi: int)
    requires m.Valid() && m'.Valid() && ChangedWithin(m, m', lo, hi)
    requires VectorHeld(m, base, addrs) && (hi <= base || base + 4 * |addrs| + 4 <= lo)
    ensures VectorHeld(m', base, addrs)
  {
    PointersKept(m, m', base, addrs, |addrs|, lo, hi);
    HeldKept(m, m', lo, hi, base + 4 * |addrs|, Bytes(0, 4));
  }

  lemma NoPointers(m: Image, base: int, addrs: seq<int>)
    requires m.Valid()
    ensures PointersHeld(m, base, addrs, 0)
  {
  }

  lemma OneMorePointer(m: Image, base: int, addrs: seq<int>, i: nat)
    requires m.Valid() && i < |addrs| && PointersHeld(m, base, addrs, i) && HoldsWord(m, base + 4 * i, addrs[i])
    ensures PointersHeld(m, base, addrs, i + 1)
  {
  }

  method WriteVector<E>(mem: AddressSpace<E>, base: int, addrs: seq<int>)
    requires mem.Valid() && mem.Value().Disjoint() && mem.lowEnd <= base && base + 4 * |addrs| + 4 <= TASK_SIZE
    modifies mem
    ensures mem.Valid() && mem.icache == old(mem.icache)
    ensures ChangedWithin(old(mem.Value()), mem.Value(), base, base + 4 * |addrs| + 4)
    ensures VectorHeld(mem.Value(), base, addrs)
  {
    hide ChangedWithin, Holds, PointersHeld, Bytes, Image.Write, Image.TouchesText, Image.Disjoint;
    ghost var m0 := mem.Value();
    Unchanged(m0, base);
    NoPointers(m0, base, addrs);
    for i := 0 to |addrs|
      invariant mem.Valid() && mem.icache == old(mem.icache) && mem.low == m0.low && mem.Value().Disjoint()
      invariant ChangedWithin(m0, mem.Value(), base, base + 4 * i)
      invariant PointersHeld(mem.Value(), base, addrs, i)
    {
      ghost var m := mem.Value();
      StoreAbove(m, base + 4 * i, Bytes(addrs[i], 4));
      var _ := mem.WriteSized(base + 4 * i, 4, addrs[i]);
      LayoutKept(m, mem.Value(), base + 4 * i, base + 4 * i + 4);
      PointersKept(m, mem.Value(), base, addrs, i, base + 4 * i, base + 4 * i + 4);
      OneMorePointer(mem.Value(), base, addrs, i);
      ChangesCompose(m0, m, mem.Value(), base, base + 4 * i, base + 4 * i, base + 4 * i + 4, base, base + 4 * i + 4);
    }
    ghost var m := mem.Value();
    var end := base + 4 * |addrs|;
    StoreAbove(m, end, Bytes(0, 4));
    var _ := mem.WriteSized(end, 4, 0);
    PointersKept(m, mem.Value(), base, addrs, |addrs|, end, end + 4);
    ChangesCompose(m0, m, mem.Value(), base, end, end, end + 4, base, end + 4);
  }

  // ---- The whole stack ---------------------------------------------------------------------

  datatype Built = Esp(sp: int) | TooBig

  /** The places of the layout. */
  function StringsEnd(argv: seq<Text>, envp: seq<Text>): int {
    TASK_SIZE - Total(envp) - Total(argv)
  }

  function EnvpBase(argv: seq<Text>, envp: seq<Text>): int {
    StringsEnd(argv, envp) / 4 * 4 - 4 * (|envp| + 1)
  }

  function ArgvBase(argv: seq<Text>, envp: seq<Text>): int {
    EnvpBase(argv, envp) - 4 * (|argv| + 1)
  }

  function InitialSp(argv: seq<Text>, envp: seq<Text>): (sp: int)
    ensures sp % 4 == 0
  {
    ArgvBase(argv, envp) - 12
  }

  /** The addresses of a list of strings laid down from `top`. */
  function StringAddrs(strs: seq<Text>, top: int): (addrs: seq<int>)
    ensures |addrs| == |strs|
  {
    seq(|strs|, i requires 0 <= i < |strs| => StringAddr(strs, i, top))
  }

  /** Everything the start-up code may read, at its place. */
  ghost predicate StackAt(m: Image, argv: seq<Text>, envp: seq<Text>, sp: int, av: int, ev: int, top: int)
    requires m.Valid()
  {
    && m.Disjoint() && |m.low| <= sp
    && HoldsWord(m, sp, |argv|) && HoldsWord(m, sp + 4, av) && HoldsWord(m, sp + 8, ev)
    && VectorHeld(m, av, StringAddrs(argv, top)) && VectorHeld(m, ev, StringAddrs(envp, TASK_SIZE))
    && StringsHeld(m, argv, 0, top) && StringsHeld(m, envp, 0, TASK_SIZE)
  }

  ghost predicate StackBuilt(m: Image, argv: seq<Text>, envp: seq<Text>)
    requires m.Valid()
  {
    StackAt(m, argv, envp, InitialSp(argv, envp), ArgvBase(argv, envp), EnvpBase(argv, envp), TASK_SIZE - Total(envp))
  }

  /** Within ARG_AREA the whole layout stays above any program the loader accepts. */
  lemma LayoutFits(argv: seq<Text>, envp: seq<Text>)
    requires Total(argv) + Total(envp) <= ARG_AREA
    ensures MAX_TOTAL < InitialSp(argv, envp)
    ensures EnvpBase(argv, envp) + 4 * (|envp| + 1) <= StringsEnd(argv, envp)
  {
  }

  /** Writing the three words below the pointer arrays. */
  method WriteHeader<E>(mem: AddressSpace<E>, sp: int, argc: int, argvBase: int, envpBase: int)
    requires mem.Valid() && mem.Value().Disjoint() && mem.lowEnd <= sp && sp + 12 <= TASK_SIZE
    modifies mem
    ensures mem.Valid() && mem.icache == old(mem.icache)
    ensures ChangedWithin(old(mem.Value()), mem.Value(), sp, sp + 12)
    ensures HoldsWord(mem.Value(), sp, argc) && HoldsWord(mem.Value(), sp + 4, argvBase)
      && HoldsWord(mem.Value(), sp + 8, envpBase)
  {
    hide ChangedWithin, Holds, Bytes, Image.Write, Image.TouchesText, Image.Disjoint;
    ghost var m0 := mem.Value();
    StoreAbove(m0, sp + 8, Bytes(envpBase, 4));
    var _ := mem.WriteSized(sp + 8, 4, envpBase);
    ghost var m1 := mem.Value();
    LayoutKept(m0, m1, sp + 8, sp + 12);
    StoreAbove(m1, sp + 4, Bytes(argvBase, 4));
    var _ := mem.WriteSized(sp + 4, 4, argvBase);
    ghost var m2 := mem.Value();
    LayoutKept(m1, m2, sp + 4, sp + 8);
    HeldKept(m1, m2, sp + 4, sp + 8, sp + 8, Bytes(envpBase, 4));
    StoreAbove(m2, sp, Bytes(argc, 4));
    var _ := mem.WriteSized(sp, 4, argc);
    ghost var m3 := mem.Value();
    HeldKept(m2, m3, sp, sp + 4, sp + 8, Bytes(envpBase, 4));
    HeldKept(m2, m3, sp, sp + 4, sp + 4, Bytes(argvBase, 4));
    ChangesCompose(m0, m1, m2, sp + 8, sp + 12, sp + 4, sp + 8, sp, sp + 12);
    ChangesCompose(m0, m2, m3, sp, sp + 12, sp, sp + 4, sp, sp + 12);
  }

  /** Builds the stack and returns esp; nothing is written when the strings exceed ARG_AREA. No store
      faults in an address space whose program the loader accepted. */
  method SetupStack<E>(mem: AddressSpace<E>, argv: seq<Text>, envp: seq<Text>) returns (r: Built)
    requires mem.Valid() && mem.Value().Disjoint() && mem.lowEnd <= MAX_TOTAL
    modifies mem
    ensures mem.Valid() && mem.icache == old(mem.icache)
    ensures r.TooBig? <==> Total(argv) + Total(envp) > ARG_AREA
    ensures r.TooBig? ==> mem.Value() == old(mem.Value())
    ensures r.Esp? ==>
      && r.sp == InitialSp(argv, envp)
      && mem.startStack == r.sp / 0x1000 * 0x1000
      && StackBuilt(mem.Value(), argv, envp)
      && ChangedWithin(old(mem.Value()), mem.Value(), r.sp, TASK_SIZE)
  {
    hide ChangedWithin, Holds, StringsHeld, VectorHeld, PointersHeld, StackAt, Bytes, Total,
         Image.Write, Image.TouchesText, Image.Disjoint;
    var total := Total(argv) + Total(envp);
    if total > ARG_AREA { return TooBig; }
    LayoutFits(argv, envp);
    ghost var m0 := mem.Value();
    var top, envAddrs := CopyStrings(mem, envp, TASK_SIZE);
    ghost var m1 := mem.Value();
    LayoutKept(m0, m1, top, TASK_SIZE);
    var p, argAddrs := CopyStrings(mem, argv, top);
    ghost var m2 := mem.Value();
    LayoutKept(m1, m2, p, top);
    var sp := p / 4 * 4;
    ghost var end := sp;
    sp := sp - 4 * (|envp| + 1);
    var envpBase := sp;
    sp := sp - 4 * (|argv| + 1);
    var argvBase := sp;
    sp := sp - 12;
    WriteHeader(mem, sp, |argv|, argvBase, envpBase);
    ghost var m3 := mem.Value();
    LayoutKept(m2, m3, sp, argvBase);
    WriteVector(mem, argvBase, argAddrs);
    ghost var m4 := mem.Value();
    LayoutKept(m3, m4, argvBase, envpBase);
    WriteVector(mem, envpBase, envAddrs);
    ghost var m5 := mem.Value();
    LayoutKept(m4, m5, envpBase, end);
    mem.startStack := sp / 0x1000 * 0x1000;
    OnlyStartMoved(m5, mem.Value(), envpBase);
    VectorKept(m5, mem.Value(), envpBase, envAddrs, envpBase, envpBase);
    ChangesCompose(m4, m5, mem.Value(), envpBase, end, envpBase, envpBase, envpBase, end);
    assert argAddrs == StringAddrs(argv, top) && envAddrs == StringAddrs(envp, TASK_SIZE);
    AddressSpan(argv, top);
    AddressSpan(envp, TASK_SIZE);
    StackStands(m0, m1, m2, m3, m4, mem.Value(), argv, envp, sp, argvBase, envpBase, end, p, top);
    r := Esp(sp);
  }

  lemma OnlyStartMoved(m: Image, m': Image, a: int)
    requires m.Valid() && m.Disjoint() && m'.Valid() && m' == m.(startStack := m'.startStack)
    ensures ChangedWithin(m, m', a, a)
  {
  }

  lemma AddressSpan(strs: seq<Text>, top: int)
    ensures StringAddr(strs, 0, top) == top - Total(strs)
  {
    assert strs[0..] == strs;
  }

  /** The stages of the construction do not disturb one another. */
  lemma StackStands(m0: Image, m1: Image, m2: Image, m3: Image, m4: Image, m5: Image, argv: seq<Text>, envp: seq<Text>,
                    sp: int, av: int, ev: int, end: int, p: int, top: int)
    requires m0.Valid() && m1.Valid() && m2.Valid() && m3.Valid() && m4.Valid() && m5.Valid()
    requires |m5.low| <= sp && sp + 12 == av && av + 4 * |argv| + 4 == ev && ev + 4 * |envp| + 4 == end <= p <= top <= TASK_SIZE
    requires StringAddr(argv, 0, top) == p && StringAddr(envp, 0, TASK_SIZE) == top
    requires ChangedWithin(m0, m1, top, TASK_SIZE) && StringsHeld(m1, envp, 0, TASK_SIZE)
    requires ChangedWithin(m1, m2, p, top) && StringsHeld(m2, argv, 0, top)
    requires ChangedWithin(m2, m3, sp, av)
    requires HoldsWord(m3, sp, |argv|) && HoldsWord(m3, sp + 4, av) && HoldsWord(m3, sp + 8, ev)
    requires ChangedWithin(m3, m4, av, ev) && VectorHeld(m4, av, StringAddrs(argv, top))
    requires ChangedWithin(m4, m5, ev, end) && VectorHeld(m5, ev, StringAddrs(envp, TASK_SIZE))
    ensures StackAt(m5, argv, envp, sp, av, ev, top)
    ensures ChangedWithin(m0, m5, sp, TASK_SIZE)
  {
    hide ChangedWithin, Holds, StringsHeld, VectorHeld, StringAddr, Bytes, Image.Disjoint;
    LayoutKept(m4, m5, ev, end);
    ChangesCompose(m0, m1, m2, top, TASK_SIZE, p, top, sp, TASK_SIZE);
    ChangesCompose(m0, m2, m3, sp, TASK_SIZE, sp, av, sp, TASK_SIZE);
    ChangesCompose(m0, m3, m4, sp, TASK_SIZE, av, ev, sp, TASK_SIZE);
    ChangesCompose(m0, m4, m5, sp, TASK_SIZE, ev, end, sp, TASK_SIZE);
    ChangesCompose(m3, m4, m5, av, ev, ev, end, av, p);
    ChangesCompose(m2, m3, m5, sp, av, av, p, sp, p);
    ChangesCompose(m1, m2, m5, p, top, sp, p, sp, top);
    StringsKept(m1, m5, envp, 0, TASK_SIZE, sp, top);
    StringsKept(m2, m5, argv, 0, top, sp, p);
    HeldKept(m3, m5, av, p, sp, Bytes(|argv|, 4));
    HeldKept(m3, m5, av, p, sp + 4, Bytes(av, 4));
    HeldKept(m3, m5, av, p, sp + 8, Bytes(ev, 4));
    VectorKept(m4, m5, av, StringAddrs(argv, top), ev, end);
  }

  // ---- Reading it back ----------------------------------------------------------------------------

  /** The pointers of a NULL-terminated array. */
  function Pointers(m: Image, base: int): Option<seq<int>>
    requires m.Valid()
    decreases TASK_SIZE - base
  {
    match m.Load(base, 4)
    case None => None
    case Some(p) =>
      if p == 0 then Some([])
      else match Pointers(m, base + 4)
        case None => None
        case Some(rest) => Some([p] + rest)
  }

  /** The strings they point to. */
  function Deref(m: Image, ps: seq<int>, limit: nat): Option<seq<Text>>
    requires m.Valid()
  {
    if |ps| == 0 then Some([])
    else match CString(m, ps[0], limit)
      case None => None
      case Some(s) =>
        match Deref(m, ps[1..], limit)
        case None => None
        case Some(rest) => Some([s] + rest)
  }

  /** What a program finds when it follows the array whose address is stored at `at`. */
  function ReadArgs(m: Image, at: int, limit: nat): Option<seq<Text>>
    requires m.Valid()
  {
    match m.Load(at, 4)
    case None => None
    case Some(base) =>
      match Pointers(m, base)
      case None => None
      case Some(ps) => Deref(m, ps, limit)
  }

  lemma HeldWordLoads(m: Image, a: int, v: int)
    requires m.Valid() && m.Disjoint() && |m.low| <= a && HoldsWord(m, a, v) && 0 <= v < TWO32
    ensures m.Load(a, 4) == Some(v)
  {
    hide Bytes, Num;
    HeldBytesRead(m, a, Bytes(v, 4));
    NumOfBytes(v, 4);
  }

  lemma HeldBytesRead(m: Image, a: int, bs: seq<Byte>)
    requires m.Valid() && m.Disjoint() && |m.low| <= a && Holds(m, a, bs) && |bs| > 0
    ensures m.Read(a, |bs|) == Some(bs)
  {
    var n := |bs|;
    assert m.ByteAt(a + 0) == Some(bs[0]) && m.ByteAt(a + (n - 1)) == Some(bs[n - 1]);
    var off := a - m.stackLow;
    forall k | 0 <= k < n ensures m.stack[off..off + n][k] == bs[k] {
      assert m.ByteAt(a + k) == Some(bs[k]);
    }
    assert m.stack[off..off + n] == bs;
  }

  lemma {:induction false} HeldStringReads(m: Image, a: int, s: Text, limit: nat)
    requires m.Valid() && Holds(m, a, s + [0]) && NulFree(s) && |s| < limit
    ensures CString(m, a, limit) == Some(s)
    decreases |s|
  {
    hide Image.ByteAt;
    var t := s + [0];
    assert m.ByteAt(a + 0) == Some(t[0]);
    if |s| > 0 {
      var rest := s[1..] + [0];
      forall k | 0 <= k < |rest| ensures m.ByteAt(a + 1 + k) == Some(rest[k]) {
        assert m.ByteAt(a + (k + 1)) == Some(t[k + 1]);
      }
      HeldStringReads(m, a + 1, s[1..], limit - 1);
      assert [s[0]] + s[1..] == s;
    }
  }

  lemma {:induction false} VectorReads(m: Image, base: int, addrs: seq<int>, i: nat)
    requires m.Valid() && m.Disjoint() && |m.low| <= base && VectorHeld(m, base, addrs) && i <= |addrs|
    requires forall j :: 0 <= j < |addrs| ==> 0 < addrs[j] < TWO32
    ensures Pointers(m, base + 4 * i) == Some(addrs[i..])
    decreases |addrs| - i
  {
    hide Image.Load, Bytes, Holds;
    if i == |addrs| {
      HeldWordLoads(m, base + 4 * i, 0);
    } else {
      HeldWordLoads(m, base + 4 * i, addrs[i]);
      VectorReads(m, base, addrs, i + 1);
      assert [addrs[i]] + addrs[i + 1..] == addrs[i..];
    }
  }

  lemma {:induction false} StringsRead(m: Image, strs: seq<Text>, i: nat, top: int, limit: nat)
    requires m.Valid() && i <= |strs| && StringsHeld(m, strs, 0, top)
    requires forall s :: s in strs ==> NulFree(s) && |s| < limit
    ensures Deref(m, StringAddrs(strs, top)[i..], limit) == Some(strs[i..])
    decreases |strs| - i
  {
    hide CString, Holds, StringAddr, NulFree;
    var ps := StringAddrs(strs, top)[i..];
    if i < |strs| {
      assert ps[0] == StringAddr(strs, i, top);
      assert ps[1..] == StringAddrs(strs, top)[i + 1..];
      HeldStringReads(m, StringAddr(strs, i, top), strs[i], limit);
      StringsRead(m, strs, i + 1, top, limit);
      assert [strs[i]] + strs[i + 1..] == strs[i..];
    } else {
      assert ps == [] && strs[i..] == [];
    }
  }

  lemma AddressesInRange(strs: seq<Text>, top: int)
    requires Total(strs) < top <= TASK_SIZE
    ensures forall j :: 0 <= j < |strs| ==> 0 < StringAddrs(strs, top)[j] < TWO32
  {
    forall j | 0 <= j < |strs| ensures 0 < StringAddrs(strs, top)[j] < TWO32 {
      assert strs[0..] == strs;
      AddrBelow(strs, j, |strs|, top);
      if j > 0 { AddrBelow(strs, 0, j, top); }
    }
  }

  /** Round trip: in the built stack argc, argv and envp read back exactly what was passed, for all
      NUL-free strings (and every reading limit that admits the longest of them). */
  lemma StackRoundTrip(m: Image, argv: seq<Text>, envp: seq<Text>, limit: nat)
    requires m.Valid() && StackBuilt(m, argv, envp) && Total(argv) + Total(envp) <= ARG_AREA
    requires forall s :: s in argv || s in envp ==> NulFree(s) && |s| < limit
    ensures var sp := InitialSp(argv, envp);
      && m.Load(sp, 4) == Some(|argv|)
      && ReadArgs(m, sp + 4, limit) == Some(argv)
      && ReadArgs(m, sp + 8, limit) == Some(envp)
  {
    hide StackAt, Image.Load, ReadArgs, Total, NulFree;
    LayoutFits(argv, envp);
    StackReads(m, argv, envp, InitialSp(argv, envp), ArgvBase(argv, envp), EnvpBase(argv, envp),
               TASK_SIZE - Total(envp), limit);
  }

  lemma StackReads(m: Image, argv: seq<Text>, envp: seq<Text>, sp: int, av: int, ev: int, top: int, limit: nat)
    requires m.Valid() && StackAt(m, argv, envp, sp, av, ev, top) && 0 <= sp <= av <= ev < TWO32
    requires |argv| < TWO32 && Total(argv) < top <= TASK_SIZE && Total(envp) < TASK_SIZE
    requires forall s :: s in argv || s in envp ==> NulFree(s) && |s| < limit
    ensures m.Load(sp, 4) == Some(|argv|)
    ensures ReadArgs(m, sp + 4, limit) == Some(argv) && ReadArgs(m, sp + 8, limit) == Some(envp)
  {
    hide Holds, StringsHeld, VectorHeld, Bytes, Image.Load, ReadArgs, Total, NulFree, Image.Disjoint;
    HeldWordLoads(m, sp, |argv|);
    HeldWordLoads(m, sp + 4, av);
    HeldWordLoads(m, sp + 8, ev);
    ListReads(m, sp + 4, av, argv, top, limit);
    ListReads(m, sp + 8, ev, envp, TASK_SIZE, limit);
  }

  lemma ListReads(m: Image, at: int, base: int, strs: seq<Text>, top: int, limit: nat)
    requires m.Valid() && m.Disjoint() && |m.low| <= base && Total(strs) < top <= TASK_SIZE
    requires m.Load(at, 4) == Some(base) && VectorHeld(m, base, StringAddrs(strs, top)) && StringsHeld(m, strs, 0, top)
    requires forall s :: s in strs ==> NulFree(s) && |s| < limit
    ensures ReadArgs(m, at, limit) == Some(strs)
  {
    hide Holds, StringsHeld, VectorHeld, Bytes, Image.Load, Pointers, Deref, Total, NulFree, Image.Disjoint;
    var addrs := StringAddrs(strs, top);
    AddressesInRange(strs, top);
    VectorReads(m, base, addrs, 0);
    StringsRead(m, strs, 0, top, limit);
    assert addrs[0..] == addrs && strs[0..] == strs;
  }
}
