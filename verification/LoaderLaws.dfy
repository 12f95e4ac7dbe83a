/** What the loader (kexec.py) and the address space (x86mem.py) make of given bytes, addresses and strings. */
module LoaderLaws {
  import opened Words
  import opened Memory
  import opened StackBuilder
  import opened ProgramLoader

  // ---- The header ------------------------------------------------------------------------

  /** The eight words of a header, in the order they stand in the file. */
  function Words8(h: Header): seq<Word> {
    [h.magic, h.text, h.data, h.bss, h.syms, h.entry, h.trsize, h.drsize]
  }

  /** A file that starts with the little-endian words of a header has that header. */
  lemma HeaderExact(raw: seq<Byte>, h: Header)
    requires |raw| >= 32 && forall i :: 0 <= i < 8 ==> raw[4 * i..4 * i + 4] == Bytes(Words8(h)[i], 4)
    ensures HeaderOf(raw) == Some(h)
  {
    hide Bytes, Num;
    forall i | 0 <= i < 8 ensures Field(raw, i) == Words8(h)[i] { NumOfBytes(Words8(h)[i], 4); }
    assert HeaderOf(raw).value.drsize == Words8(h)[7];
  }

  /** A header is accepted if its magic number is 413 in octal, it has no relocations, its program takes at most 48 MB,
      and the file, from byte 1024, is long enough for text, data and symbols. */
  lemma AcceptedExact(h: Header, size: nat)
    ensures var text: int, data: int, bss: int, syms: int := h.text, h.data, h.bss, h.syms;
      Accepted(h, size) <==>
        h.magic == 4 * 64 + 1 * 8 + 3 && h.trsize == 0 && h.drsize == 0 && text + data + bss <= 48 * 1024 * 1024
        && 1024 + text + data + syms <= size
  {
  }

  /** Memory holds text and data as they stand in the file from byte 1024, and zeros behind them. */
  lemma BodyExact(f: File)
    requires Loadable(f)
    ensures f.regular && f.executable && |f.bytes| >= 32 && HeaderOf(f.bytes).Some?
    ensures var h := HeaderOf(f.bytes).value;
      var text: int, data: int, bss: int := h.text, h.data, h.bss;
      && Accepted(h, |f.bytes|) && |Body(f)| == text + data + bss && 1024 + text + data <= |f.bytes|
      && forall i :: 0 <= i < |Body(f)| ==> Body(f)[i] == if i < text + data then f.bytes[1024 + i] else 0
  {
    SameHeader(f);
  }

  lemma SameHeader(f: File)
    ensures HeaderOf(Slice(f.bytes, 0, EXEC_HDR)) == HeaderOf(f.bytes)
  {
    var raw := Slice(f.bytes, 0, EXEC_HDR);
    if |f.bytes| >= 32 {
      assert raw == f.bytes[..32];
      forall i | 0 <= i < 8 ensures Field(raw, i) == Field(f.bytes, i) { assert raw[4 * i..4 * i + 4] == f.bytes[4 * i..4 * i + 4]; }
    }
  }

  lemma LoadableExact(f: File)
    ensures Loadable(f) <==> f.regular && f.executable && HeaderOf(f.bytes).Some? && Accepted(HeaderOf(f.bytes).value, |f.bytes|)
    ensures HeaderOf(f.bytes).Some? <==> |f.bytes| >= 32
  {
    hide HeaderOf, Accepted;
    SameHeader(f);
    HeaderLength(f.bytes);
  }

  lemma HeaderLength(raw: seq<Byte>)
    ensures HeaderOf(raw).Some? <==> |raw| >= 32
  {
  }

  // ---- Script lines -----------------------------------------------------------------------

  predicate AllBlank(s: seq<Byte>) {
    forall i :: 0 <= i < |s| ==> s[i] == 0x20 || s[i] == 0x09
  }

  predicate OneLine(s: seq<Byte>) {
    0x0A !in s && 0 !in s
  }

  /** A word: no white space and no end of line. */
  predicate IsWord(s: seq<Byte>) {
    |s| > 0 && OneLine(s) && forall i :: 0 <= i < |s| ==> !IsSpace(s[i])
  }

  /** An option, if there is one: the ends are not white space. */
  predicate IsOption(s: seq<Byte>) {
    OneLine(s) && (|s| > 0 ==> !IsSpace(s[0]) && !IsSpace(s[|s| - 1]))
  }

  lemma {:induction false} BeforeStop(s: seq<Byte>, stop: Byte, t: seq<Byte>)
    requires stop !in s
    ensures Before(s + [stop] + t, stop) == s && Before(s, stop) == s
    decreases |s|
  {
    if |s| == 0 {
      assert s + [stop] + t == [stop] + t;
    } else {
      assert (s + [stop] + t)[1..] == s[1..] + [stop] + t;
      BeforeStop(s[1..], stop, t);
    }
  }

  lemma {:induction false} BlanksDropped(b: seq<Byte>, s: seq<Byte>, blank: Byte -> bool)
    requires (forall i :: 0 <= i < |b| ==> blank(b[i])) && (|s| > 0 ==> !blank(s[0]))
    ensures DropLeft(b + s, blank) == s
    decreases |b|
  {
    if |b| == 0 {
      assert b + s == s;
    } else {
      assert (b + s)[1..] == b[1..] + s;
      BlanksDropped(b[1..], s, blank);
    }
  }

  lemma {:induction false} BlanksCut(s: seq<Byte>, b: seq<Byte>, blank: Byte -> bool)
    requires (forall i :: 0 <= i < |b| ==> blank(b[i])) && (|s| > 0 ==> !blank(s[|s| - 1]))
    ensures DropRight(s + b, blank) == s
    decreases |b|
  {
    if |b| == 0 {
      assert s + b == s;
    } else {
      assert (s + b)[..|s + b| - 1] == s + b[..|b| - 1];
      BlanksCut(s, b[..|b| - 1], blank);
    }
  }

  lemma Stripped(b: seq<Byte>, s: seq<Byte>, c: seq<Byte>, blank: Byte -> bool)
    requires (forall i :: 0 <= i < |b| ==> blank(b[i])) && (forall i :: 0 <= i < |c| ==> blank(c[i]))
    requires |s| > 0 ==> !blank(s[0]) && !blank(s[|s| - 1])
    ensures |s| > 0 ==> Strip(b + s + c, blank) == s
    ensures |s| == 0 ==> Strip(b + c, blank) == []
  {
    if |s| > 0 {
      assert b + s + c == b + (s + c);
      BlanksDropped(b, s + c, blank);
      BlanksCut(s, c, blank);
    } else {
      assert b + c == (b + c) + [];
      BlanksDropped(b + c, [], blank);
    }
  }

  lemma {:induction false} WordFirst(w: seq<Byte>, t: seq<Byte>)
    requires (forall i :: 0 <= i < |w| ==> !IsSpace(w[i])) && (|t| > 0 ==> IsSpace(t[0]))
    ensures FirstWord(w + t) == w
    decreases |w|
  {
    if |w| == 0 {
      assert w + t == t;
    } else {
      assert (w + t)[1..] == w[1..] + t;
      WordFirst(w[1..], t);
    }
  }

  /** The line of a script: the interpreter is the first word, and everything behind it, without the blanks around it, is
      one option. */
  lemma ShebangExact(b1: seq<Byte>, interp: seq<Byte>, b2: seq<Byte>, option: seq<Byte>, b3: seq<Byte>, rest: seq<Byte>)
    requires AllBlank(b1) && AllBlank(b2) && AllBlank(b3) && IsWord(interp) && IsOption(option) && (|option| > 0 ==> |b2| > 0)
    ensures ParseShebang([0x23, 0x21] + (b1 + interp + b2 + option + b3 + [0x0A] + rest))
         == Script(interp, if option == [] then None else Some(option))
  {
    hide Before, DropLeft, DropRight, FirstWord, Strip, IsSpace, IsBlank, LineOf;
    var line := b1 + interp + b2 + option + b3;
    var head := [0x23, 0x21] + (line + [0x0A] + rest);
    LineFound(b1, interp, b2, option, b3, rest);
    var text := if option == [] then interp else interp + b2 + option;
    TextParsed(interp, if option == [] then [] else b2, option);
    assert interp + [] + [] == interp;
    assert LineOf(head) == text && text != [] && [0x23, 0x21] <= head;
    assert text == interp + (if option == [] then [] else b2) + option;
  }

  lemma LineFound(b1: seq<Byte>, interp: seq<Byte>, b2: seq<Byte>, option: seq<Byte>, b3: seq<Byte>, rest: seq<Byte>)
    requires AllBlank(b1) && AllBlank(b2) && AllBlank(b3) && IsWord(interp) && IsOption(option)
    ensures LineOf([0x23, 0x21] + (b1 + interp + b2 + option + b3 + [0x0A] + rest)) == if option == [] then interp else interp + b2 + option
  {
    hide Before, Strip, IsSpace;
    var line := b1 + interp + b2 + option + b3;
    var head := [0x23, 0x21] + (line + [0x0A] + rest);
    assert head[2..] == line + [0x0A] + rest;
    BeforeStop(line, 0x0A, rest);
    BeforeStop(line, 0, []);
    SpacesBlank(interp);
    SpacesBlank(option);
    if option == [] {
      assert line == b1 + interp + (b2 + b3);
      Stripped(b1, interp, b2 + b3, IsBlank);
    } else {
      assert line == b1 + (interp + b2 + option) + b3;
      Stripped(b1, interp + b2 + option, b3, IsBlank);
    }
  }

  /** What is no white space at all is no blank. */
  lemma SpacesBlank(s: seq<Byte>)
    ensures |s| > 0 && !IsSpace(s[0]) ==> !IsBlank(s[0])
    ensures |s| > 0 && !IsSpace(s[|s| - 1]) ==> !IsBlank(s[|s| - 1])
  {
  }

  lemma TextParsed(interp: seq<Byte>, gap: seq<Byte>, option: seq<Byte>)
    requires IsWord(interp) && AllBlank(gap) && IsOption(option) && (gap == [] <==> option == [])
    ensures var text := interp + gap + option;
      && DropLeft(text, IsSpace) == text && FirstWord(text) == interp && Strip(text[|interp|..], IsSpace) == option
  {
    hide DropLeft, DropRight, FirstWord, Strip, IsSpace, OneLine, AllBlank;
    var tail := gap + option;
    GapIsSpace(gap);
    Joined(interp, gap, option);
    BlanksDropped([], interp + tail, IsSpace);
    WordFirst(interp, tail);
    OptionStripped(gap, option);
  }

  lemma Joined(a: seq<Byte>, b: seq<Byte>, c: seq<Byte>)
    ensures a + b + c == a + (b + c) && [] + (a + (b + c)) == a + (b + c) && (a + (b + c))[|a|..] == b + c
  {
  }

  lemma GapIsSpace(gap: seq<Byte>)
    requires AllBlank(gap)
    ensures forall i :: 0 <= i < |gap| ==> IsSpace(gap[i])
  {
  }

  lemma OptionStripped(gap: seq<Byte>, option: seq<Byte>)
    requires IsOption(option) && (gap == [] <==> option == []) && forall i :: 0 <= i < |gap| ==> IsSpace(gap[i])
    ensures Strip(gap + option, IsSpace) == option
  {
    hide DropLeft, DropRight, Strip, IsSpace, OneLine;
    if option == [] {
      assert gap + option == [] + [];
      Stripped([], [], [], IsSpace);
    } else {
      assert gap + option == gap + option + [];
      Stripped(gap, option, [], IsSpace);
    }
  }

  /** A script whose interpreter is a program: that program is loaded, with the interpreter's name, its option, the path
      of the script and the arguments behind the first. */
  lemma ScriptExact(names: Namespace, path: Text, argv: seq<Text>, depth: nat)
    requires depth < MAX_DEPTH && names(path).Some? && names(path).value.regular && LineAt(names, path).Script?
    requires var interp := LineAt(names, path).interp;
      names(interp).Some? && names(interp).value.regular && LineAt(names, interp) == NotScript
    ensures var s, later := LineAt(names, path), if argv == [] then [] else argv[1..];
      Resolve(names, path, argv, depth) ==
        Good((names(s.interp).value, (if s.arg.Some? then [s.interp, s.arg.value, path] else [s.interp, path]) + later))
  {
    hide ParseShebang;
    var s, later := LineAt(names, path), if argv == [] then [] else argv[1..];
    assert NextArguments(s.interp, s.arg, path, argv) == (if s.arg.Some? then [s.interp, s.arg.value, path] else [s.interp, path]) + later;
    assert Resolve(names, s.interp, NextArguments(s.interp, s.arg, path, argv), depth + 1)
        == Good((names(s.interp).value, NextArguments(s.interp, s.arg, path, argv)));
  }

  /** Why a path is refused at once: nothing has its name, it is no regular file, or its line has no word. */
  lemma RefusedExact(names: Namespace, path: Text, argv: seq<Text>, depth: nat)
    requires depth <= MAX_DEPTH
    ensures names(path).None? ==> Resolve(names, path, argv, depth) == Refused(NotFound)
    ensures names(path).Some? && !names(path).value.regular ==> Resolve(names, path, argv, depth) == Refused(NoAccess)
    ensures names(path).Some? && names(path).value.regular && LineAt(names, path).Broken? ==> Resolve(names, path, argv, depth) == Refused(Crash)
  {
    hide ParseShebang;
  }

  /** Only the first 128 bytes are looked at. */
  lemma HeadExact(names: Namespace, path: Text)
    requires names(path).Some?
    ensures var b := names(path).value.bytes; LineAt(names, path) == ParseShebang(if |b| <= 128 then b else b[..128])
  {
    var b := names(path).value.bytes;
    assert Slice(b, 0, 128) == if |b| <= 128 then b else b[..128];
  }

  // ---- The stack pointer -------------------------------------------------------------------

  /** From the top of memory down: the strings with their NULs, alignment to four, the two arrays of pointers, each with
      its NULL, and three words. */
  lemma SpExact(argv: seq<Text>, envp: seq<Text>)
    ensures var strings := 64 * 1024 * 1024 - Total(argv) - Total(envp);
      InitialSp(argv, envp) == strings - strings % 4 - 4 * (|argv| + 1) - 4 * (|envp| + 1) - 4 * 3
  {
    hide Total;
    RoundedDown(StringsEnd(argv, envp));
  }

  lemma RoundedDown(x: int)
    ensures x / 4 * 4 == x - x % 4
  {
  }

  /** A program may be given 128 KB of strings, and no more. */
  lemma AreaExact(argv: seq<Text>, envp: seq<Text>)
    ensures Total(argv) + Total(envp) <= ARG_AREA <==> Total(argv) + Total(envp) <= 128 * 1024
  {
    hide Total;
  }

  /** The fifth script in a row is one too many. */
  lemma DepthExact(names: Namespace, path: Text, argv: seq<Text>)
    ensures Resolve(names, path, argv, 0) == Refused(NoExec) <==> Hops(names, path, 5).Some?
  {
    hide Resolve, Hops;
    GivesUpExactly(names, path, argv, 0);
  }

  // ---- The address space -------------------------------------------------------------------

  /** A new address space: 64 MB, of which the topmost 512 KB are there, zero, and nothing below. */
  lemma FreshExact(x: int)
    ensures RoundUpToPage(DEFAULT_STACK) <= TASK_SIZE
    ensures var m := Fresh(DEFAULT_STACK);
      && m.ByteAt(x) == (if 64 * 1024 * 1024 - 512 * 1024 <= x < 64 * 1024 * 1024 then Some(0) else None)
      && m.brk == 0 && m.textEnd == 0 && m.startStack == 64 * 1024 * 1024
  {
  }

  /** A read gives the bytes of its range, and only a range inside one of the two regions can be read. */
  lemma ReadsExact(m: Image, a: int, n: nat, bs: seq<Byte>)
    requires m.Valid() && m.Disjoint() && n > 0
    ensures m.Read(a, n) == Some(bs) <==>
      && |bs| == n && ((0 <= a && a + n <= |m.low|) || (m.stackLow <= a && a + n <= 64 * 1024 * 1024))
      && forall i :: 0 <= i < n ==> m.ByteAt(a + i) == Some(bs[i])
  {
    if |bs| == n && m.Read(a, n).Some? {
      var rs := m.Read(a, n).value;
      forall i | 0 <= i < n ensures m.ByteAt(a + i) == Some(rs[i]) {}
      assert (forall i :: 0 <= i < n ==> m.ByteAt(a + i) == Some(bs[i])) ==> rs == bs;
    }
  }

  /** Two or four bytes are read as a number with the lowest first. */
  lemma LoadExact(m: Image, a: int)
    requires m.Valid() && m.Disjoint()
    ensures m.Load(a, 1) == m.ByteAt(a)
    ensures m.Load(a, 2).Some? ==> (
      m.ByteAt(a).Some? && m.ByteAt(a + 1).Some?
      && var x: int, y: int := m.ByteAt(a).value, m.ByteAt(a + 1).value; m.Load(a, 2).value == x + 256 * y)
    ensures m.Load(a, 4).Some? ==> (
      m.Load(a, 2).Some? && m.Load(a + 2, 2).Some?
      && var x: int, y: int := m.Load(a, 2).value, m.Load(a + 2, 2).value; m.Load(a, 4).value == x + 256 * 256 * y)
  {
  }

  /** The break moves between the end of text and 16 KB below the start of the stack, and nowhere else; memory grows with
      zeros and never shrinks. */
  lemma BrkExact(m: Image, a: int)
    requires m.Valid() && m.Disjoint()
    ensures var m' := m.SetBrk(a);
      && m'.Valid() && (a < m.textEnd || a >= m.startStack - 16 * 1024 ==> m' == m)
      && (m.textEnd <= a < m.startStack - 16 * 1024 ==>
           && m'.brk == a && m' == m.(low := m'.low, brk := a) && |m'.low| == (if a > |m.low| then a else |m.low|)
           && forall x :: 0 <= x < |m'.low| ==> m'.low[x] == if x < |m.low| then m.low[x] else 0)
  {
  }

  /** The stack grows at least 64 KB and to the address asked for, rounded up to a page, but not below the program. */
  lemma GrowthExact(m: Image, a: int)
    requires m.Valid() && m.Disjoint() && |m.low| <= a < m.stackLow
    ensures m.GrowStack(a).Some?
    ensures var edge, need := m.GrowStack(a).value.stackLow, if m.stackLow - a < 64 * 1024 then 64 * 1024 else m.stackLow - a;
      && |m.low| <= edge <= a
      && (edge == |m.low| || ((m.stackLow - edge) % 4096 == 0 && need <= m.stackLow - edge < need + 4096))
      && (edge == |m.low| ==> m.stackLow - |m.low| < need + 4096)
  {
    var need := Max(m.stackLow - a, STACK_GROW_STEP);
    RoundedUp(need);
  }

  lemma RoundedUp(n: nat)
    ensures var r := RoundUpToPage(n); r % 4096 == 0 && n <= r < n + 4096
  {
    var q := (n + 4095) / 4096;
    assert (q * 4096) % 4096 == 0;
  }

  /** A string is read up to its NUL if all of it is readable and the NUL is among the first `limit` bytes. */
  lemma {:induction false} CStringExact(m: Image, a: int, limit: nat, s: seq<Byte>)
    requires m.Valid()
    ensures CString(m, a, limit) == Some(s) <==>
      |s| < limit && 0 !in s && m.ByteAt(a + |s|) == Some(0) && forall i :: 0 <= i < |s| ==> m.ByteAt(a + i) == Some(s[i])
    decreases limit
  {
    hide Image.ByteAt;
    if limit > 0 {
      if |s| == 0 {
        assert m.ByteAt(a + 0) == m.ByteAt(a);
      } else {
        CStringExact(m, a + 1, limit - 1, s[1..]);
        StringTail(m, a, s);
      }
    }
  }

  lemma StringTail(m: Image, a: int, s: seq<Byte>)
    requires m.Valid() && |s| > 0
    ensures (forall i :: 0 <= i < |s| ==> m.ByteAt(a + i) == Some(s[i])) <==>
      m.ByteAt(a) == Some(s[0]) && forall i :: 0 <= i < |s[1..]| ==> m.ByteAt(a + 1 + i) == Some(s[1..][i])
    ensures 0 in s <==> s[0] == 0 || 0 in s[1..]
    ensures s == [s[0]] + s[1..]
  {
    hide Image.ByteAt;
    if m.ByteAt(a) == Some(s[0]) && (forall i :: 0 <= i < |s[1..]| ==> m.ByteAt(a + 1 + i) == Some(s[1..][i])) {
      forall i | 0 <= i < |s| ensures m.ByteAt(a + i) == Some(s[i]) {
        if i > 0 { assert s[1..][i - 1] == s[i] && m.ByteAt(a + 1 + (i - 1)) == Some(s[1..][i - 1]); }
      }
    }
    if forall i :: 0 <= i < |s| ==> m.ByteAt(a + i) == Some(s[i]) {
      forall i | 0 <= i < |s[1..]| ensures m.ByteAt(a + 1 + i) == Some(s[1..][i]) {
        assert m.ByteAt(a + (i + 1)) == Some(s[i + 1]);
      }
      assert m.ByteAt(a + 0) == Some(s[0]);
    }
  }
}
