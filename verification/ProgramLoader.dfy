/** From a path to a program ready to run (kexec.py): interpreter scripts, the a.out header, the memory
    image and, with StackBuilder, the initial stack. */
module ProgramLoader {
  import opened Words
  import opened Memory
  import opened StackBuilder

  const ZMAGIC: int := 0x10B
  const N_TXTOFF: nat := 1024
  const EXEC_HDR: nat := 32
  const HEAD_LENGTH: nat := 128
  const MAX_DEPTH: nat := 4

  datatype Fault = NoExec | NoAccess | TooLong | NotFound | Crash

  datatype Result<+T> = Good(value: T) | Refused(fault: Fault)

  /** A file as the loader sees it. */
  datatype File = File(regular: bool, executable: bool, bytes: seq<Byte>)

  /** At most n bytes from an offset. */
  function Slice(s: seq<Byte>, offset: nat, n: nat): seq<Byte> {
    s[Min(offset, |s|)..Min(offset + n, |s|)]
  }

  // ---- The header ------------------------------------------------------------------

  datatype Header = Header(magic: Word, text: Word, data: Word, bss: Word, syms: Word, entry: Word, trsize: Word, drsize: Word)

  function Field(raw: seq<Byte>, i: nat): Word
    requires 4 * i + 4 <= |raw|
  {
    Num(raw[4 * i..4 * i + 4])
  }

  function HeaderOf(raw: seq<Byte>): Option<Header> {
    if |raw| < EXEC_HDR then None
    else Some(Header(Field(raw, 0), Field(raw, 1), Field(raw, 2), Field(raw, 3), Field(raw, 4), Field(raw, 5),
                     Field(raw, 6), Field(raw, 7)))
  }

  /** The checks of `validate`. */
  predicate Accepted(h: Header, fileSize: nat) {
    && h.magic == ZMAGIC && h.trsize == 0 && h.drsize == 0
    && Span(h) <= MAX_TOTAL
    && (var text: int, data: int, syms: int := h.text, h.data, h.syms; fileSize >= text + data + syms + N_TXTOFF)
  }

  function Span(h: Header): int {
    var text: int, data: int, bss: int := h.text, h.data, h.bss;
    text + data + bss
  }

  predicate Loadable(f: File) {
    && f.regular && f.executable
    && var h := HeaderOf(Slice(f.bytes, 0, EXEC_HDR)); h.Some? && Accepted(h.value, |f.bytes|)
  }

  /** What the low region of a loaded program holds: text and data as they stand in the file from N_TXTOFF,
      then zeros. */
  function Body(f: File): seq<Byte>
    requires Loadable(f)
  {
    var h := HeaderOf(Slice(f.bytes, 0, EXEC_HDR)).value;
    var text: int, data: int := h.text, h.data;
    f.bytes[N_TXTOFF..N_TXTOFF + text + data] + Zeros(h.bss)
  }

  /** Loads a program; nothing changes when it is refused. A file that passes the checks is long enough, so
      the padding of a short body never happens. */
  method LoadAout<E>(mem: AddressSpace<E>, f: File) returns (r: Result<(Word, int)>)
    requires mem.Valid()
    modifies mem
    ensures mem.Valid()
    ensures r.Good? <==> Loadable(f)
    ensures r.Refused? ==> r.fault == (if f.regular && f.executable then NoExec else NoAccess)
    ensures r.Refused? ==> mem.Value() == old(mem.Value()) && mem.icache == old(mem.icache)
    ensures r.Good? ==>
      var h := HeaderOf(Slice(f.bytes, 0, EXEC_HDR)).value;
      && mem.low == Body(f) && mem.textEnd == h.text && mem.brk == mem.lowEnd == Span(h) <= MAX_TOTAL
      && mem.stack == old(mem.stack) && mem.stackLow == old(mem.stackLow) && mem.startStack == old(mem.startStack)
      && r.value == (h.entry, Span(h))
  {
    if !f.regular { return Refused(NoAccess); }
    if !f.executable { return Refused(NoAccess); }
    var header := HeaderOf(Slice(f.bytes, 0, EXEC_HDR));
    if header.None? { return Refused(NoExec); }
    var h := header.value;
    if !Accepted(h, |f.bytes|) { return Refused(NoExec); }
    var text: int, data: int := h.text, h.data;
    var body := Slice(f.bytes, N_TXTOFF, text + data);
    BodyWhole(f, body);
    hide Body;
    mem.LoadProgram(body[..text], body[text..], h.bss);
    r := Good((h.entry, mem.brk));
  }

  lemma BodyWhole(f: File, body: seq<Byte>)
    requires Loadable(f)
    requires var h := HeaderOf(Slice(f.bytes, 0, EXEC_HDR)).value;
      var text: int, data: int := h.text, h.data;
      body == Slice(f.bytes, N_TXTOFF, text + data)
    ensures var h := HeaderOf(Slice(f.bytes, 0, EXEC_HDR)).value;
      var text: int, data: int := h.text, h.data;
      && |body| == text + data && body[..text] + body[text..] + Zeros(h.bss) == Body(f)
      && |Body(f)| == Span(h)
  {
    hide HeaderOf;
    var text: int := HeaderOf(Slice(f.bytes, 0, EXEC_HDR)).value.text;
    assert body[..text] + body[text..] == body;
  }

  /** The part of execve that builds the new memory: entry point and stack pointer of the loaded program, or
      the error. On success the whole image is in place. */
  method BuildImage<E>(f: File, argv: seq<Text>, envp: seq<Text>) returns (mem: AddressSpace<E>, r: Result<(Word, int)>)
    ensures fresh(mem) && mem.Valid()
    ensures r.Good? <==> Loadable(f) && Total(argv) + Total(envp) <= ARG_AREA
    ensures r.Refused? ==>
      r.fault == (if Loadable(f) then TooLong else if f.regular && f.executable then NoExec else NoAccess)
    ensures r.Good? ==>
      && r.value == (HeaderOf(Slice(f.bytes, 0, EXEC_HDR)).value.entry, InitialSp(argv, envp))
      && mem.low == Body(f) && StackBuilt(mem.Value(), argv, envp)
  {
    hide StackBuilt, ChangedWithin, Loadable, Body;
    mem := new AddressSpace<E>(DEFAULT_STACK);
    var loaded := LoadAout(mem, f);
    if loaded.Refused? { return mem, Refused(loaded.fault); }
    FreshStackHigh(mem.Value());
    ghost var m0 := mem.Value();
    var built := SetupStack(mem, argv, envp);
    if built.TooBig? { return mem, Refused(TooLong); }
    LayoutKept(m0, mem.Value(), built.sp, TASK_SIZE);
    r := Good((loaded.value.0, built.sp));
  }

  lemma FreshStackHigh(m: Image)
    requires m.Valid() && m.stackLow == TASK_SIZE - RoundUpToPage(DEFAULT_STACK) && |m.low| <= MAX_TOTAL
    ensures m.Disjoint()
  {
  }

  // ---- Interpreter scripts -------------------------------------------------------------

  /** What bytes.strip and str.split take for white space. */
  predicate IsBlank(b: Byte) {
    0x09 <= b <= 0x0D || b == 0x20
  }

  predicate IsSpace(b: Byte) {
    IsBlank(b) || 0x1C <= b <= 0x1F || b == 0x85 || b == 0xA0
  }

  function Before(s: seq<Byte>, stop: Byte): (r: seq<Byte>)
    ensures r <= s && stop !in r
  {
    if |s| == 0 || s[0] == stop then [] else [s[0]] + Before(s[1..], stop)
  }

  function DropLeft(s: seq<Byte>, blank: Byte -> bool): (r: seq<Byte>)
    ensures |r| <= |s| && r == s[|s| - |r|..] && (r != [] ==> !blank(r[0]))
  {
    if |s| > 0 && blank(s[0]) then DropLeft(s[1..], blank) else s
  }

  function DropRight(s: seq<Byte>, blank: Byte -> bool): (r: seq<Byte>)
    ensures r <= s && (r != [] ==> !blank(r[|r| - 1]))
  {
    if |s| > 0 && blank(s[|s| - 1]) then DropRight(s[..|s| - 1], blank) else s
  }

  function Strip(s: seq<Byte>, blank: Byte -> bool): seq<Byte> {
    DropRight(DropLeft(s, blank), blank)
  }

  /** The characters before the first one that counts as white space. */
  function FirstWord(s: seq<Byte>): (r: seq<Byte>)
    ensures r <= s && forall i :: 0 <= i < |r| ==> !IsSpace(r[i])
  {
    if |s| == 0 || IsSpace(s[0]) then [] else [s[0]] + FirstWord(s[1..])
  }

  /** A line of characters that only str.split takes for blank leaves no word at all, and the source then
      indexes an empty list. */
  datatype Shebang = NotScript | Script(interp: Text, arg: Option<Text>) | Broken

  /** The line of a script, as bytes without white space at the ends. */
  function LineOf(head: seq<Byte>): seq<Byte>
    requires [0x23, 0x21] <= head
  {
    Strip(Before(Before(head[2..], 0x0A), 0), IsBlank)
  }

  function ParseShebang(head: seq<Byte>): Shebang {
    if !([0x23, 0x21] <= head) then NotScript
    else
      var line := LineOf(head);
      if line == [] then NotScript
      else
        var text := DropLeft(line, IsSpace);
        if text == [] then Broken
        else
          var interp := FirstWord(text);
          var rest := Strip(text[|interp|..], IsSpace);
          Script(interp, if rest == [] then None else Some(rest))
  }

  function Rest(argv: seq<Text>): seq<Text> {
    if argv == [] then [] else argv[1..]
  }

  type Namespace = Text -> Option<File>

  /** Follows the interpreters of scripts to the program to load, rebuilding the argument list. */
  function Resolve(names: Namespace, path: Text, argv: seq<Text>, depth: nat): Result<(File, seq<Text>)>
    decreases MAX_DEPTH + 1 - depth
  {
    if depth > MAX_DEPTH then Refused(NoExec)
    else
      match names(path)
      case None => Refused(NotFound)
      case Some(f) =>
        if !f.regular then Refused(NoAccess)
        else
          match ParseShebang(Slice(f.bytes, 0, HEAD_LENGTH))
          case NotScript => Good((f, argv))
          case Broken => Refused(Crash)
          case Script(interp, arg) =>
            Resolve(names, interp, NextArguments(interp, arg, path, argv), depth + 1)
  }

  predicate EndsWith(s: seq<Text>, t: seq<Text>) {
    |t| <= |s| && s[|s| - |t|..] == t
  }

  lemma EndsThrough(s: seq<Text>, t: seq<Text>, u: seq<Text>)
    requires EndsWith(s, t) && EndsWith(t, u)
    ensures EndsWith(s, u)
  {
    assert s[|s| - |u|..] == t[|t| - |u|..];
  }

  /** The script line of a path. */
  function LineAt(names: Namespace, path: Text): Shebang
    requires names(path).Some?
  {
    ParseShebang(Slice(names(path).value.bytes, 0, HEAD_LENGTH))
  }

  function NextArguments(interp: Text, arg: Option<Text>, path: Text, argv: seq<Text>): seq<Text> {
    (if arg.Some? then [interp, arg.value] else [interp]) + ([path] + Rest(argv))
  }

  lemma NextEnds(interp: Text, arg: Option<Text>, path: Text, argv: seq<Text>)
    ensures var r := NextArguments(interp, arg, path, argv);
      EndsWith(r, [path] + Rest(argv)) && [interp] + Rest(r) == r
  {
    hide Rest;
    var tail, r := [path] + Rest(argv), NextArguments(interp, arg, path, argv);
    assert r[|r| - |tail|..] == tail;
    Unrest(r);
  }

  lemma Unrest(r: seq<Text>)
    requires r != []
    ensures [r[0]] + Rest(r) == r
  {
  }

  /** What is loaded is a regular file that is no script. A path that is no script is loaded itself, with its
      arguments as they are; otherwise the arguments end, behind interpreters and their options, in the
      script's path and the original ones but the first. */
  lemma {:induction false} ResolveExact(names: Namespace, path: Text, argv: seq<Text>, depth: nat)
    requires Resolve(names, path, argv, depth).Good?
    ensures names(path).Some?
    ensures var (f, a) := Resolve(names, path, argv, depth).value;
      && f.regular && ParseShebang(Slice(f.bytes, 0, HEAD_LENGTH)) == NotScript
      && (LineAt(names, path) == NotScript ==> names(path) == Some(f) && a == argv)
      && (LineAt(names, path) != NotScript ==> EndsWith(a, [path] + Rest(argv)))
    decreases MAX_DEPTH + 1 - depth
  {
    hide ParseShebang, EndsWith, NextArguments;
    var head := LineAt(names, path);
    if head.Script? {
      var argv1 := NextArguments(head.interp, head.arg, path, argv);
      NextEnds(head.interp, head.arg, path, argv);
      ResolveExact(names, head.interp, argv1, depth + 1);
      var a := Resolve(names, head.interp, argv1, depth + 1).value.1;
      if LineAt(names, head.interp) != NotScript { EndsThrough(a, argv1, [path] + Rest(argv)); }
    }
  }

  /** The interpreter of a path that names a regular script. */
  function Hop(names: Namespace, path: Text): Option<Text> {
    if names(path).Some? && names(path).value.regular && LineAt(names, path).Script?
    then Some(LineAt(names, path).interp) else None
  }

  /** n hops, if there are that many. */
  function Hops(names: Namespace, path: Text, n: nat): Option<Text>
    decreases n
  {
    if n == 0 then Some(path)
    else if Hop(names, path).None? then None
    else Hops(names, Hop(names, path).value, n - 1)
  }

  /** The loader gives up exactly after five scripts in a row, whatever comes then. */
  lemma {:induction false} GivesUpExactly(names: Namespace, path: Text, argv: seq<Text>, depth: nat)
    requires depth <= MAX_DEPTH + 1
    ensures Resolve(names, path, argv, depth) == Refused(NoExec) <==> Hops(names, path, MAX_DEPTH + 1 - depth).Some?
    decreases MAX_DEPTH + 1 - depth
  {
    hide ParseShebang, NextArguments;
    if depth <= MAX_DEPTH && Hop(names, path).Some? {
      var head := LineAt(names, path);
      GivesUpExactly(names, head.interp, NextArguments(head.interp, head.arg, path, argv), depth + 1);
    }
  }

  /** Scripts that only lead to each other, in a loop or not, are refused. */
  lemma EndlessScriptsRefused(names: Namespace, scripts: set<Text>, path: Text, argv: seq<Text>)
    requires forall p :: p in scripts ==> Hop(names, p).Some? && Hop(names, p).value in scripts
    requires path in scripts
    ensures Resolve(names, path, argv, 0) == Refused(NoExec)
  {
    hide Resolve, Hop;
    StaysWithin(names, scripts, path, MAX_DEPTH + 1);
    GivesUpExactly(names, path, argv, 0);
  }

  lemma {:induction false} StaysWithin(names: Namespace, scripts: set<Text>, path: Text, n: nat)
    requires forall p :: p in scripts ==> Hop(names, p).Some? && Hop(names, p).value in scripts
    requires path in scripts
    ensures Hops(names, path, n).Some?
    decreases n
  {
    hide Hop;
    if n > 0 { StaysWithin(names, scripts, Hop(names, path).value, n - 1); }
  }

  /** A line of one byte 85 is such a line. */
  lemma BrokenLine()
    ensures ParseShebang([0x23, 0x21, 0x85, 0x0A]) == Broken
  {
    var head := [0x23, 0x21, 0x85, 0x0A];
    assert head[2..] == [0x85, 0x0A];
    assert [0x85, 0x0A][1..] == [0x0A];
    assert Before([0x85, 0x0A], 0x0A) == [0x85];
    assert Before([0x85], 0) == [0x85];
    assert DropLeft([0x85], IsBlank) == [0x85];
    assert LineOf(head) == [0x85];
    BrokenExactly(head);
  }

  /** Exactly when the source fails for want of a word: the line is not empty, yet every byte of it is white
      space to str.split, which knows more kinds than bytes.strip. */
  lemma BrokenExactly(head: seq<Byte>)
    ensures ParseShebang(head) == Broken <==>
      [0x23, 0x21] <= head && LineOf(head) != [] && forall i :: 0 <= i < |LineOf(head)| ==> IsSpace(LineOf(head)[i])
  {
    hide Before, Strip, DropLeft, FirstWord, IsSpace;
    if [0x23, 0x21] <= head { NothingLeft(LineOf(head), IsSpace); }
  }

  lemma {:induction false} NothingLeft(s: seq<Byte>, blank: Byte -> bool)
    ensures DropLeft(s, blank) == [] <==> forall i :: 0 <= i < |s| ==> blank(s[i])
  {
    if |s| > 0 && blank(s[0]) {
      NothingLeft(s[1..], blank);
      assert forall i :: 1 <= i < |s| ==> s[i] == s[1..][i - 1];
    }
  }

  /** The words of a script line: the interpreter has no white space in it, the option neither starts nor
      ends with any. */
  lemma ShebangWords(head: seq<Byte>)
    requires ParseShebang(head).Script?
    ensures var s := ParseShebang(head);
      && s.interp != [] && (forall i :: 0 <= i < |s.interp| ==> !IsSpace(s.interp[i]))
      && (s.arg.Some? ==> s.arg.value != [] && !IsSpace(s.arg.value[0]) && !IsSpace(s.arg.value[|s.arg.value| - 1]))
  {
    hide Before, Strip, DropLeft, FirstWord, IsSpace;
    var line := LineOf(head);
    var text := DropLeft(line, IsSpace);
    WordOf(text);
    var rest := text[|FirstWord(text)|..];
    if Strip(rest, IsSpace) != [] { StripEnds(rest, IsSpace); }
  }

  lemma WordOf(text: seq<Byte>)
    requires text != [] && !IsSpace(text[0])
    ensures FirstWord(text) != []
  {
  }

  lemma StripEnds(s: seq<Byte>, blank: Byte -> bool)
    requires Strip(s, blank) != []
    ensures var r := Strip(s, blank); !blank(r[0]) && !blank(r[|r| - 1])
  {
    hide DropLeft, DropRight;
    var l := DropLeft(s, blank);
    assert Strip(s, blank)[0] == l[0];
  }
}
