/** Signal frames (kernel.py, `_build_signal_frame`, `_sigreturn`): delivery pushes a frame on the
    user stack, and there is no sigreturn call, so a handler returns to a magic address and the
    kernel pops the frame. */
module Signals {
  import opened Words
  import opened Memory
  import opened Decoder
  import opened Flags
  import opened Handlers
  import opened Interpreter
  import Shifting

  const MAGIC_SIGRETURN: Word := 0xFFFF_0000

  datatype Action = Action(handler: Word, mask: Word, flags: Word, restorer: Word)

  predicate NoMask(a: Action) {
    a.flags / 0x4000_0000 % 2 == 1
  }

  predicate OneShot(a: Action) {
    a.flags / 0x8000_0000 % 2 == 1
  }

  type Actions = s: seq<Action> | |s| == 33 witness seq(33, _ => Action(0, 0, 0, 0))

  /** What signal handling reads and writes of a process: the processor state, the blocked mask, one
      bit per frame (does it hold the mask?) and the signal dispositions. */
  datatype Task = Task(m: Machine, blocked: Word, frames: seq<bool>, actions: Actions)

  // ---- Delivery -----------------------------------------------------------------

  /** Pushing words so that they stand in this order in memory. */
  function PushAll(m: Machine, words: seq<Word>): (r: Effect)
    requires m.mem.Valid()
    ensures r.m.mem.Valid()
    decreases |words|
  {
    if |words| == 0 then Done(m)
    else
      var (m1, _) :- PushAll(m, words[1..]);
      Push(m1, 4, words[0])
  }

  /** The part of a frame that the return pops. */
  function FrameBody(t: Task, sig: nat): (b: seq<Word>)
    requires sig < 33
  {
    [sig] + (if NoMask(t.actions[sig]) then [] else [t.blocked])
    + [t.m.regs[EAX], t.m.regs[ECX], t.m.regs[EDX], ToWord(t.m.flags), Mask32(t.m.eip)]
  }

  function ReturnAddress(a: Action): Word {
    if a.restorer != 0 then a.restorer else MAGIC_SIGRETURN
  }

  /** Delivering a signal with a handler; None when the frame does not fit on the stack. */
  function Deliver(t: Task, sig: nat): Option<Task>
    requires t.m.mem.Valid() && sig < 33
  {
    var a := t.actions[sig];
    var r := PushAll(t.m, [ReturnAddress(a)] + FrameBody(t, sig));
    if r.Stop? then None
    else Some(Task(r.m.(eip := a.handler, log := []), Or(t.blocked, a.mask), t.frames + [!NoMask(a)],
                   if OneShot(a) then t.actions[sig := a.(handler := 0)] else t.actions))
  }

  // ---- Return --------------------------------------------------------------------------

  function PopMask(t: Task): (r: Res<Word>)
    requires t.m.mem.Valid()
    ensures r.m.mem == t.m.mem
  {
    if |t.frames| > 0 && t.frames[|t.frames| - 1] then Pop(t.m, 4) else Ok(t.m, t.blocked)
  }

  function PopContext(m: Machine): (r: Effect)
    requires m.mem.Valid()
    ensures r.m.mem == m.mem
  {
    var (m1, eax) :- Pop(m, 4);
    var (m2, ecx) :- Pop(Set32(m1, EAX, eax), 4);
    var (m3, edx) :- Pop(Set32(m2, ECX, ecx), 4);
    var (m4, fl) :- Pop(Set32(m3, EDX, edx), 4);
    var (m5, ip) :- Pop(m4.(flags := FromWord(fl)), 4);
    Done(m5.(eip := ip))
  }

  /** Popping the frame after the handler's ret took the return address. */
  function SigReturn(t: Task): Option<Task>
    requires t.m.mem.Valid()
  {
    var s := Pop(t.m, 4);
    if s.Stop? then None
    else
      var b := PopMask(t.(m := s.m));
      if b.Stop? then None
      else
        var r := PopContext(b.m);
        if r.Stop? then None
        else Some(Task(r.m, b.v, if |t.frames| > 0 then t.frames[..|t.frames| - 1] else [], t.actions))
  }

  // ---- Words in memory ---------------------------------------------------------------------

  /** The words from address a upwards. */
  predicate WordsAt(m: Image, a: int, words: seq<Word>)
    requires m.Valid()
  {
    forall i :: 0 <= i < |words| ==> m.Load(a + 4 * i, 4) == Some(words[i])
  }

  lemma StoreKeepsLoad(m: Image, a: int, v: int, b: int)
    requires m.Valid() && m.Disjoint() && m.Store(a, 4, v).ok
    requires m.Load(b, 4).Some? && (b + 4 <= a || a + 4 <= b)
    ensures m.Store(a, 4, v).mem.Valid() && m.Store(a, 4, v).mem.Disjoint()
    ensures m.Store(a, 4, v).mem.Load(b, 4) == m.Load(b, 4)
  {
    hide Num, Bytes;
    WriteExact(m, a, Bytes(v, 4));
    var m' := m.Store(a, 4, v).mem;
    assert m.Read(b, 4).Some?;
    ReadFrame(m, m', b, 4);
  }

  /** A push that succeeds moves ESP down without wrapping and keeps every word at or above it. */
  lemma PushExact(m: Machine, v: Word)
    requires m.mem.Valid() && m.mem.Disjoint() && Push(m, 4, v).Ok?
    ensures var m' := Push(m, 4, v).m;
      && m'.mem.Valid() && m'.mem.Disjoint()
      && R(m', ESP) == R(m, ESP) - 4
      && m'.mem.Load(R(m', ESP), 4) == Some(v)
      && (forall b :: b >= R(m, ESP) && m.mem.Load(b, 4).Some? ==> m'.mem.Load(b, 4) == m.mem.Load(b, 4))
      && m'.flags == m.flags && m'.eip == m.eip
      && forall r: Reg :: r != ESP ==> m'.regs[r] == m.regs[r]
  {
    hide Image.Load, Bytes, Image.Write, Image.TouchesText;
    var sp := Mask32(R(m, ESP) - 4);
    LoadAfterStore(m.mem, sp, 4, v);
    StoreBelowTop(m.mem, sp, v);
    forall b | b >= R(m, ESP) && m.mem.Load(b, 4).Some?
      ensures Push(m, 4, v).m.mem.Load(b, 4) == m.mem.Load(b, 4)
    {
      StoreKeepsLoad(m.mem, sp, v, b);
    }
  }

  lemma StoreBelowTop(m: Image, a: int, v: int)
    requires m.Valid() && m.Disjoint() && m.Store(a, 4, v).ok
    ensures a + 4 <= TASK_SIZE && m.Store(a, 4, v).mem.Valid() && m.Store(a, 4, v).mem.Disjoint()
  {
    WriteExact(m, a, Bytes(v, 4));
  }

  lemma {:induction false} PushAllExact(m: Machine, words: seq<Word>)
    requires m.mem.Valid() && m.mem.Disjoint() && PushAll(m, words).Ok?
    ensures var m' := PushAll(m, words).m;
      && m'.mem.Valid() && m'.mem.Disjoint()
      && R(m', ESP) == R(m, ESP) - 4 * |words|
      && WordsAt(m'.mem, R(m', ESP), words)
      && (forall b :: b >= R(m, ESP) && m.mem.Load(b, 4).Some? ==> m'.mem.Load(b, 4) == m.mem.Load(b, 4))
      && m'.flags == m.flags && m'.eip == m.eip
      && forall r: Reg :: r != ESP ==> m'.regs[r] == m.regs[r]
    decreases |words|
  {
    hide Image.Load, Push;
    if |words| > 0 {
      PushAllExact(m, words[1..]);
      var m1 := PushAll(m, words[1..]).m;
      PushExact(m1, words[0]);
      var m' := Push(m1, 4, words[0]).m;
      assert PushAll(m, words).m == m';
      forall i | 0 <= i < |words| ensures m'.mem.Load(R(m', ESP) + 4 * i, 4) == Some(words[i]) {
        if i > 0 {
          assert m1.mem.Load(R(m1, ESP) + 4 * (i - 1), 4) == Some(words[1..][i - 1]);
        }
      }
    }
  }

  // ---- One frame ---------------------------------------------------------------------------------

  /** What a frame remembers: the state it interrupted, and where the signal number stands. */
  datatype Frame = Frame(saved: Task, sig: nat, sp: int)

  /** The frame holds the mask. */
  predicate Masked(f: Frame) {
    f.sig < 33 && !NoMask(f.saved.actions[f.sig])
  }

  /** The frame is still intact on the stack. */
  ghost predicate Intact(m: Image, f: Frame)
    requires m.Valid()
  {
    f.sig < 33 && WordsAt(m, f.sp, FrameBody(f.saved, f.sig)) && f.sp + 4 * |FrameBody(f.saved, f.sig)| < TWO32
  }

  /** Everything the return has to restore. */
  ghost predicate Restores(t: Task, t': Task, masked: bool) {
    && t'.m.regs[EAX] == t.m.regs[EAX] && t'.m.regs[ECX] == t.m.regs[ECX] && t'.m.regs[EDX] == t.m.regs[EDX]
    && t'.m.regs[ESP] == t.m.regs[ESP]
    && t'.m.flags == t.m.flags && t'.m.eip == t.m.eip
    && t'.frames == t.frames
    && (masked ==> t'.blocked == t.blocked)
  }

  /** The registers and the memory a return leaves as the handler did. */
  predicate LeavesRest(m: Machine, m': Machine) {
    m'.mem == m.mem && forall r: Reg :: r != EAX && r != ECX && r != EDX && r != ESP ==> m'.regs[r] == m.regs[r]
  }

  ghost predicate Proper(t: Task) {
    Ready(t.m) && t.m.mem.Disjoint() && 0 <= t.m.eip < TWO32
  }

  /** The handler is entered: with the signal number above the return address, the action's mask added to the
      process's bit by bit, and a one-shot action (flag bit 31) reset. No other register, flag or action changes. */
  ghost predicate Enters(t: Task, t': Task, sig: nat)
    requires sig < 33 && t'.m.mem.Valid()
  {
    var a := t.actions[sig];
    && t'.m.eip == a.handler && t'.m.flags == t.m.flags && (forall r: Reg :: r != ESP ==> t'.m.regs[r] == t.m.regs[r])
    && t'.m.mem.Load(R(t'.m, ESP), 4) == Some(if a.restorer != 0 then a.restorer else 0xFFFF_0000)
    && t'.m.mem.Load(R(t'.m, ESP) + 4, 4) == Some(sig)
    && t'.frames == t.frames + [!BitOn(a.flags, 30)]
    && (forall i: nat :: i < 32 ==> BitOn(t'.blocked, i) == (BitOn(t.blocked, i) || BitOn(a.mask, i)))
    && (forall s: nat :: s < 33 ==> t'.actions[s] == if s == sig && BitOn(a.flags, 31) then a.(handler := 0) else t.actions[s])
  }

  lemma FlagBits(a: Action)
    ensures NoMask(a) == BitOn(a.flags, 30) && OneShot(a) == BitOn(a.flags, 31)
  {
    assert Pow2(10) == 0x400 && Pow2(20) == 0x10_0000 && Pow2(30) == 0x4000_0000;
    assert Pow2(31) == 0x8000_0000;
  }

  lemma DeliverEnters(t: Task, sig: nat)
    requires Proper(t) && sig < 33 && Deliver(t, sig).Some?
    ensures Deliver(t, sig).value.m.mem.Valid() && Enters(t, Deliver(t, sig).value, sig)
  {
    hide Image.Load, PushAll, WellFormed, Bitwise, BitOn, NoMask, OneShot;
    var a := t.actions[sig];
    var words := [ReturnAddress(a)] + FrameBody(t, sig);
    PushAllExact(t.m, words);
    var t' := Deliver(t, sig).value;
    assert t'.m.mem.Load(R(t'.m, ESP) + 4 * 0, 4) == Some(words[0]);
    assert t'.m.mem.Load(R(t'.m, ESP) + 4 * 1, 4) == Some(words[1]);
    FlagBits(a);
    forall i: nat | i < 32 ensures BitOn(t'.blocked, i) == (BitOn(t.blocked, i) || BitOn(a.mask, i)) {
      Shifting.BitwiseExact(Disjunction, t.blocked, a.mask, 32, i);
    }
  }

  /** The words of the frame, from the stack pointer up: return address, signal, the mask unless the action has bit 30,
      then eax, ecx, edx, the flags and the place to resume; the stack pointer is that much lower. */
  lemma FrameExact(t: Task, sig: nat)
    requires Proper(t) && sig < 33 && Deliver(t, sig).Some?
    ensures Deliver(t, sig).value.m.mem.Valid()
    ensures var t', masked := Deliver(t, sig).value, !BitOn(t.actions[sig].flags, 30);
      var sp, at := R(t'.m, ESP), R(t'.m, ESP) + if masked then 12 else 8;
      && sp + (if masked then 32 else 28) == R(t.m, ESP)
      && (masked ==> t'.m.mem.Load(sp + 8, 4) == Some(t.blocked))
      && t'.m.mem.Load(at, 4) == Some(t.m.regs[EAX]) && t'.m.mem.Load(at + 4, 4) == Some(t.m.regs[ECX])
      && t'.m.mem.Load(at + 8, 4) == Some(t.m.regs[EDX]) && t'.m.mem.Load(at + 12, 4) == Some(ToWord(t.m.flags))
      && t'.m.mem.Load(at + 16, 4) == Some(Mask32(t.m.eip))
  {
    hide Image.Load, PushAll, WellFormed, Enters, Or, OneShot, NoMask, BitOn;
    DeliverExact(t, sig);
    FlagBits(t.actions[sig]);
    var t' := Deliver(t, sig).value;
    var f := Frame(t, sig, R(t'.m, ESP) + 4);
    forall i | 0 <= i < |FrameBody(t, sig)| ensures t'.m.mem.Load(R(t'.m, ESP) + 4 + 4 * i, 4) == Some(FrameBody(t, sig)[i]) {
      WordAt(t'.m.mem, f, i);
    }
    var k := if NoMask(t.actions[sig]) then 1 else 2;
    assert FrameBody(t, sig)[k..] == [t.m.regs[EAX], t.m.regs[ECX], t.m.regs[EDX], ToWord(t.m.flags), Mask32(t.m.eip)];
    assert t'.m.mem.Load(R(t'.m, ESP) + 4 + 4 * k, 4) == Some(FrameBody(t, sig)[k]);
    assert t'.m.mem.Load(R(t'.m, ESP) + 4 + 4 * (k + 1), 4) == Some(FrameBody(t, sig)[k + 1]);
    assert t'.m.mem.Load(R(t'.m, ESP) + 4 + 4 * (k + 2), 4) == Some(FrameBody(t, sig)[k + 2]);
    assert t'.m.mem.Load(R(t'.m, ESP) + 4 + 4 * (k + 3), 4) == Some(FrameBody(t, sig)[k + 3]);
    assert t'.m.mem.Load(R(t'.m, ESP) + 4 + 4 * (k + 4), 4) == Some(FrameBody(t, sig)[k + 4]);
    assert !NoMask(t.actions[sig]) ==> t'.m.mem.Load(R(t'.m, ESP) + 4 + 4 * 1, 4) == Some(FrameBody(t, sig)[1]);
  }

  lemma DeliverExact(t: Task, sig: nat)
    requires Proper(t) && sig < 33 && Deliver(t, sig).Some?
    ensures Deliver(t, sig).value.m.mem.Valid() && Enters(t, Deliver(t, sig).value, sig)
    ensures var t' := Deliver(t, sig).value;
      var f := Frame(t, sig, R(t'.m, ESP) + 4);
      && Proper(t') && Intact(t'.m.mem, f)
      && f.sp + 4 * |FrameBody(t, sig)| == R(t.m, ESP)
      && t'.frames == t.frames + [!NoMask(t.actions[sig])]
      && forall b :: b >= R(t.m, ESP) && t.m.mem.Load(b, 4).Some? ==> t'.m.mem.Load(b, 4) == t.m.mem.Load(b, 4)
  {
    hide Image.Load, PushAll, WellFormed, Enters, Or, OneShot;
    DeliverEnters(t, sig);
    var body := FrameBody(t, sig);
    var words := [ReturnAddress(t.actions[sig])] + body;
    PushAllExact(t.m, words);
    var t' := Deliver(t, sig).value;
    forall i | 0 <= i < |body| ensures t'.m.mem.Load(R(t'.m, ESP) + 4 + 4 * i, 4) == Some(body[i]) {
      assert words[i + 1] == body[i];
      assert t'.m.mem.Load(R(t'.m, ESP) + 4 * (i + 1), 4) == Some(words[i + 1]);
    }
  }

  lemma PopExact(m: Machine, v: Word)
    requires m.mem.Valid() && m.mem.Load(R(m, ESP), 4) == Some(v) && R(m, ESP) + 4 < TWO32
    ensures Pop(m, 4) == Ok(Set32(m, ESP, R(m, ESP) + 4), v)
  {
  }

  /** Popping an intact frame gives back what it saved. */
  lemma ReturnExact(t: Task, f: Frame)
    requires Proper(t) && Proper(f.saved) && Intact(t.m.mem, f) && R(t.m, ESP) == f.sp
    requires |t.frames| > 0 && t.frames[|t.frames| - 1] == Masked(f)
    ensures SigReturn(t).Some?
    ensures var t' := SigReturn(t).value;
      && t'.m.mem == t.m.mem && Proper(t') && t'.frames == t.frames[..|t.frames| - 1]
      && t'.m.regs[EAX] == f.saved.m.regs[EAX] && t'.m.regs[ECX] == f.saved.m.regs[ECX]
      && t'.m.regs[EDX] == f.saved.m.regs[EDX]
      && R(t'.m, ESP) == f.sp + 4 * |FrameBody(f.saved, f.sig)|
      && t'.m.flags == f.saved.m.flags && t'.m.eip == f.saved.m.eip
      && (Masked(f) ==> t'.blocked == f.saved.blocked)
      && LeavesRest(t.m, t'.m)
  {
    hide Image.Load, WellFormed, FromWord, ToWord, Pop;
    var body, masked := FrameBody(f.saved, f.sig), !NoMask(f.saved.actions[f.sig]);
    var n := |body|;
    WordAt(t.m.mem, f, 0);
    PopExact(t.m, body[0]);
    var m1 := Set32(t.m, ESP, f.sp + 4);
    if masked { WordAt(t.m.mem, f, 1); PopExact(m1, body[1]); }
    var m2 := if masked then Set32(m1, ESP, f.sp + 8) else m1;
    var c := if masked then 2 else 1;
    ContextWords(t.m.mem, f);
    PopContextExact(m2, f.sp + 4 * c, f.saved.m);
  }

  /** Where the five context words of an intact frame stand. */
  lemma ContextWords(m: Image, f: Frame)
    requires m.Valid() && Intact(m, f) && Proper(f.saved)
    ensures ContextAt(m, f.sp + (if NoMask(f.saved.actions[f.sig]) then 4 else 8), f.saved.m)
  {
    hide Image.Load, WellFormed, ToWord;
    var body, c := FrameBody(f.saved, f.sig), if NoMask(f.saved.actions[f.sig]) then 1 else 2;
    WordAt(m, f, c);
    WordAt(m, f, c + 1);
    WordAt(m, f, c + 2);
    WordAt(m, f, c + 3);
    WordAt(m, f, c + 4);
  }

  predicate ContextAt(m: Image, sp: int, saved: Machine)
    requires m.Valid()
  {
    && m.Load(sp, 4) == Some(saved.regs[EAX])
    && m.Load(sp + 4, 4) == Some(saved.regs[ECX])
    && m.Load(sp + 8, 4) == Some(saved.regs[EDX])
    && m.Load(sp + 12, 4) == Some(ToWord(saved.flags))
    && 0 <= saved.eip < TWO32 && m.Load(sp + 16, 4) == Some(saved.eip)
  }

  lemma WordAt(m: Image, f: Frame, i: nat)
    requires m.Valid() && Intact(m, f) && i < |FrameBody(f.saved, f.sig)|
    ensures m.Load(f.sp + 4 * i, 4) == Some(FrameBody(f.saved, f.sig)[i])
  {
  }

  lemma SetWord(m: Machine, r: Reg, v: Word)
    ensures Set32(m, r, v) == m.(regs := m.regs[r := v])
  {
  }

  /** One pop into a register. */
  lemma PopInto(m: Machine, r: Reg, v: Word)
    requires m.mem.Valid() && m.mem.Load(R(m, ESP), 4) == Some(v) && R(m, ESP) + 4 < TWO32
    ensures Pop(m, 4).Ok? && Pop(m, 4).v == v
    ensures Set32(Pop(m, 4).m, r, v) == m.(regs := m.regs[ESP := m.regs[ESP] + 4][r := v])
  {
    hide Image.Load, Pop;
    PopExact(m, v);
    SetWord(m, ESP, m.regs[ESP] + 4);
    SetWord(Pop(m, 4).m, r, v);
  }

  /** The five pops, whatever the words are. */
  lemma PopFive(m: Machine, sp: int, w: seq<Word>)
    requires m.mem.Valid() && R(m, ESP) == sp && sp + 20 < TWO32 && |w| == 5 && WordsAt(m.mem, sp, w)
    ensures PopContext(m).Ok?
    ensures var m' := PopContext(m).m;
      && m'.regs[EAX] == w[0] && m'.regs[ECX] == w[1] && m'.regs[EDX] == w[2]
      && R(m', ESP) == sp + 20 && m'.flags == FromWord(w[3]) && m'.eip == w[4]
      && LeavesRest(m, m')
  {
    hide Image.Load, FromWord, Pop, Set32;
    assert m.mem.Load(sp + 4 * 0, 4) == Some(w[0]);
    PopInto(m, EAX, w[0]);
    var m1 := m.(regs := m.regs[ESP := sp + 4][EAX := w[0]]);
    assert m.mem.Load(sp + 4 * 1, 4) == Some(w[1]);
    PopInto(m1, ECX, w[1]);
    var m2 := m1.(regs := m1.regs[ESP := sp + 8][ECX := w[1]]);
    assert m.mem.Load(sp + 4 * 2, 4) == Some(w[2]);
    PopInto(m2, EDX, w[2]);
    var m3 := m2.(regs := m2.regs[ESP := sp + 12][EDX := w[2]]);
    assert m.mem.Load(sp + 4 * 3, 4) == Some(w[3]);
    PopExact(m3, w[3]);
    SetWord(m3, ESP, sp + 16);
    var m4 := m3.(regs := m3.regs[ESP := sp + 16], flags := FromWord(w[3]));
    assert m.mem.Load(sp + 4 * 4, 4) == Some(w[4]);
    PopExact(m4, w[4]);
    SetWord(m4, ESP, sp + 20);
  }

  lemma PopContextExact(m: Machine, sp: int, saved: Machine)
    requires m.mem.Valid() && R(m, ESP) == sp && sp + 20 < TWO32 && WellFormed(saved.flags)
    requires ContextAt(m.mem, sp, saved)
    ensures PopContext(m).Ok?
    ensures var m' := PopContext(m).m;
      && m'.regs[EAX] == saved.regs[EAX] && m'.regs[ECX] == saved.regs[ECX] && m'.regs[EDX] == saved.regs[EDX]
      && R(m', ESP) == sp + 20 && m'.flags == saved.flags && m'.eip == saved.eip
      && LeavesRest(m, m')
  {
    hide Image.Load, WellFormed, FromWord, ToWord, PopContext;
    SaveRestore(saved.flags);
    var w: seq<Word> := [saved.regs[EAX], saved.regs[ECX], saved.regs[EDX], ToWord(saved.flags), saved.eip];
    assert WordsAt(m.mem, sp, w);
    PopFive(m, sp, w);
  }

  // ---- Fork inside a handler --------------------------------------------------------------------

  /** A forked child has its parent's stack but an empty frame list. If it then returns through a frame,
      its stack is restored if and only if that frame does not hold the mask: a masked frame is popped
      one word short, with the mask landing in eax and eflags in eip. */
  lemma ForkedReturn(t: Task, f: Frame)
    requires Proper(t) && Proper(f.saved) && Intact(t.m.mem, f) && R(t.m, ESP) == f.sp && t.frames == []
    ensures SigReturn(t).Some?
    ensures var m' := SigReturn(t).value.m;
      && (R(m', ESP) == f.sp + 4 * |FrameBody(f.saved, f.sig)| <==> !Masked(f))
      && (!Masked(f) ==> m'.eip == f.saved.m.eip && m'.flags == f.saved.m.flags && m'.regs[EAX] == f.saved.m.regs[EAX])
      && (Masked(f) ==> m'.eip == ToWord(f.saved.m.flags) && m'.regs[EAX] == f.saved.blocked)
  {
    hide Image.Load, WellFormed, FromWord, ToWord, Pop, PopContext;
    var body := FrameBody(f.saved, f.sig);
    WordAt(t.m.mem, f, 0);
    PopExact(t.m, body[0]);
    var m1 := Set32(t.m, ESP, f.sp + 4);
    var w := body[1..6];
    forall i | 0 <= i < 5 ensures t.m.mem.Load(f.sp + 4 + 4 * i, 4) == Some(w[i]) {
      WordAt(t.m.mem, f, i + 1);
    }
    PopFive(m1, f.sp + 4, w);
    SaveRestore(f.saved.m.flags);
  }

  /** The child of a fork in a handler, at the end of the handler: the copied stack, the return address taken off,
      and no frames on record. */
  function Child(t: Task): Task {
    t.(m := t.m.(regs := t.m.regs[EAX := 0][ESP := Mask32(R(t.m, ESP) + 4)], eip := MAGIC_SIGRETURN), frames := [])
  }

  /** Whatever signal with a masked action is delivered, a child forked in its handler comes back at the address
      that its flags spell. */
  lemma ForkedInHandler(t: Task, sig: nat)
    requires Proper(t) && sig < 33 && Deliver(t, sig).Some? && !NoMask(t.actions[sig])
    ensures var c := Child(Deliver(t, sig).value);
      && c.m.mem.Valid() && SigReturn(c).Some?
      && SigReturn(c).value.m.eip == ToWord(t.m.flags) && SigReturn(c).value.m.regs[EAX] == t.blocked
  {
    hide Enters, Bitwise, PushAll, SigReturn, WellFormed, ToWord, WordsAt;
    DeliverExact(t, sig);
    var t' := Deliver(t, sig).value;
    ForkedReturn(Child(t'), Frame(t, sig, R(t'.m, ESP) + 4));
  }

  // ---- Runs -----------------------------------------------------------------------------------

  /** A process together with the frames on its stack, oldest first. */
  datatype Config = Config(t: Task, stack: seq<Frame>)

  function Top(c: Config): Frame
    requires |c.stack| > 0
  {
    c.stack[|c.stack| - 1]
  }

  /** A signal is delivered at an instruction boundary; the handlers so far have balanced the stack,
      and the action has no user-space restorer. */
  ghost predicate DeliverStep(c: Config, c': Config, sig: nat)
    requires c.t.m.mem.Valid()
  {
    && sig < 33 && c.t.actions[sig].restorer == 0
    && (|c.stack| > 0 ==> R(c.t.m, ESP) <= Top(c).sp)
    && Deliver(c.t, sig) == Some(c'.t)
    && c'.stack == c.stack + [Frame(c.t, sig, R(c'.t.m, ESP) + 4)]
  }

  /** Anything else that happens to the process: its own instructions, its system calls, a sleep ended by
      the kernel. It leaves the frames on the stack alone; memory elsewhere, registers, the mask and the
      dispositions may change. */
  ghost predicate UserStep(c: Config, c': Config)
    requires c.t.m.mem.Valid()
  {
    && Proper(c'.t) && c'.t.frames == c.t.frames && c'.stack == c.stack
    && forall i :: 0 <= i < |c.stack| && Intact(c.t.m.mem, c.stack[i]) ==> Intact(c'.t.m.mem, c.stack[i])
  }

  /** What the interpreter runs is such a step, if it keeps the two regions apart and the frames intact. */
  lemma RunIsUserStep(c: Config, c': Config, n: nat, os: Callback)
    requires Ready(c.t.m) && Polite(os) && c'.t.m == Run(c.t.m, n, os).m
    requires c'.t.m.mem.Disjoint() && 0 <= c'.t.m.eip < TWO32 && c'.t.frames == c.t.frames && c'.stack == c.stack
    requires forall i :: 0 <= i < |c.stack| && Intact(c.t.m.mem, c.stack[i]) ==> Intact(c'.t.m.mem, c.stack[i])
    ensures UserStep(c, c')
  {
    hide Run, Intact, Ready, Polite;
  }

  /** The handler's ret reached a magic address. */
  ghost predicate ReturnStep(c: Config, c': Config)
    requires c.t.m.mem.Valid()
  {
    && |c.stack| > 0 && c.t.m.eip >= MAGIC_EIP_BASE && R(c.t.m, ESP) == Top(c).sp
    && SigReturn(c.t) == Some(c'.t)
    && c'.stack == c.stack[..|c.stack| - 1]
  }

  ghost predicate Next(c: Config, c': Config)
    requires c.t.m.mem.Valid()
  {
    (exists sig :: DeliverStep(c, c', sig)) || UserStep(c, c') || ReturnStep(c, c')
  }

  /** Frame i of the stack is intact, flagged as it was built, and remembers the frames below it. */
  ghost predicate GoodFrame(c: Config, i: nat)
    requires i < |c.stack| == |c.t.frames| && c.t.m.mem.Valid()
  {
    var f := c.stack[i];
    && Intact(c.t.m.mem, f) && Proper(f.saved)
    && f.sp + 4 * |FrameBody(f.saved, f.sig)| == R(f.saved.m, ESP)
    && c.t.frames[i] == Masked(f) && f.saved.frames == c.t.frames[..i]
  }

  ghost predicate Nested(c: Config) {
    && Proper(c.t) && |c.stack| == |c.t.frames|
    && (forall i :: 0 <= i < |c.stack| ==> GoodFrame(c, i))
    && (forall i, j :: 0 <= i < j < |c.stack| ==> c.stack[j].sp <= c.stack[i].sp)
  }

  lemma IntactKept(m: Image, m': Image, f: Frame)
    requires m.Valid() && m'.Valid() && Intact(m, f)
    requires forall b :: b >= f.sp && m.Load(b, 4).Some? ==> m'.Load(b, 4) == m.Load(b, 4)
    ensures Intact(m', f)
  {
    hide Image.Load;
    var body := FrameBody(f.saved, f.sig);
    forall i | 0 <= i < |body| ensures m'.Load(f.sp + 4 * i, 4) == Some(body[i]) {
      assert m.Load(f.sp + 4 * i, 4) == Some(body[i]);
    }
  }

  lemma DeliverKeepsNesting(c: Config, c': Config, sig: nat)
    requires Nested(c) && DeliverStep(c, c', sig)
    ensures Nested(c')
  {
    hide Image.Load, Deliver, Intact, WellFormed, FrameBody, Enters;
    DeliverExact(c.t, sig);
    var n := |c.stack|;
    DeliverIsDown(c.t, sig);
    forall i | 0 <= i < |c'.stack| ensures GoodFrame(c', i) {
      assert c'.t.frames[..i] == c.t.frames[..i];
      if i < n {
        assert GoodFrame(c, i) && c'.stack[i] == c.stack[i];
        IntactKept(c.t.m.mem, c'.t.m.mem, c.stack[i]);
      }
    }
  }

  lemma DeliverIsDown(t: Task, sig: nat)
    requires Proper(t) && sig < 33 && Deliver(t, sig).Some?
    ensures R(Deliver(t, sig).value.m, ESP) + 4 <= R(t.m, ESP)
  {
    hide PushAll, Enters;
    DeliverExact(t, sig);
  }

  lemma UserKeepsNesting(c: Config, c': Config)
    requires Nested(c) && UserStep(c, c')
    ensures Nested(c')
  {
    hide Image.Load, Intact, WellFormed, FrameBody;
    forall i | 0 <= i < |c'.stack| ensures GoodFrame(c', i) {
      assert GoodFrame(c, i);
    }
  }

  /** A return restores what its own delivery saved. */
  lemma ReturnRestores(c: Config, c': Config)
    requires Nested(c) && c.t.m.mem.Valid() && ReturnStep(c, c') && |c.stack| > 0
    ensures Restores(Top(c).saved, c'.t, Masked(Top(c))) && LeavesRest(c.t.m, c'.t.m)
    ensures Nested(c')
  {
    hide Image.Load, SigReturn, Intact, WellFormed, FrameBody;
    var n := |c.stack| - 1;
    assert GoodFrame(c, n);
    ReturnExact(c.t, Top(c));
    forall i | 0 <= i < |c'.stack| ensures GoodFrame(c', i) {
      assert GoodFrame(c, i);
      assert c'.t.frames[..i] == c.t.frames[..i];
    }
  }

  /** A return at the right place never faults. */
  lemma ReturnSucceeds(c: Config)
    requires Nested(c) && |c.stack| > 0 && R(c.t.m, ESP) == Top(c).sp
    ensures SigReturn(c.t).Some?
  {
    hide Image.Load, SigReturn, Intact, WellFormed, FrameBody;
    assert GoodFrame(c, |c.stack| - 1);
    ReturnExact(c.t, Top(c));
  }

  lemma NextKeepsNesting(c: Config, c': Config)
    requires Nested(c) && Next(c, c')
    ensures Nested(c')
  {
    hide Nested, DeliverStep, UserStep, SigReturn, Ready;
    NestedReady(c);
    if sig :| DeliverStep(c, c', sig) { DeliverKeepsNesting(c, c', sig); }
    else if UserStep(c, c') { UserKeepsNesting(c, c'); }
    else { ReturnRestores(c, c'); }
  }

  lemma NestedReady(c: Config)
    requires Nested(c)
    ensures Ready(c.t.m) && c.t.m.mem.Valid()
  {
  }

  /** A run of the process from a state whose frames, if any, are in order. */
  ghost predicate IsRun(run: seq<Config>) {
    && |run| > 0 && Nested(run[0])
    && forall k :: 0 <= k < |run| - 1 ==> run[k].t.m.mem.Valid() && Next(run[k], run[k + 1])
  }

  /** A state without frames, as a program starts, is such a state. */
  lemma FramelessNested(t: Task)
    requires Proper(t) && t.frames == []
    ensures Nested(Config(t, []))
  {
  }

  lemma {:induction false} RunNested(run: seq<Config>, k: nat)
    requires IsRun(run) && k < |run|
    ensures Nested(run[k])
  {
    hide Next, Proper, Ready;
    if k > 0 {
      RunNested(run, k - 1);
      NextKeepsNesting(run[k - 1], run[k]);
    }
  }

  /** One step changes the stack of frames only at its end. */
  lemma StepAtEnd(c: Config, c': Config, n: nat)
    requires c.t.m.mem.Valid() && Next(c, c') && n <= |c.stack| && n <= |c'.stack|
    ensures c'.stack[..n] == c.stack[..n]
  {
    hide Deliver, SigReturn, Ready, Intact;
  }

  lemma {:induction false} StackPrefix(run: seq<Config>, i: nat, k: nat, n: nat)
    requires IsRun(run) && i <= k < |run| && n <= |run[i].stack|
    requires forall x :: i <= x <= k ==> |run[x].stack| >= n
    ensures run[k].stack[..n] == run[i].stack[..n]
    decreases k - i
  {
    hide Next, Proper, Ready;
    if i < k {
      StackPrefix(run, i, k - 1, n);
      StepAtEnd(run[k - 1], run[k], n);
    }
  }

  /** Nested signals unwind exactly. Whatever happens between a delivery and the return that brings
      the number of frames back down (deeper deliveries and returns included), that return restores
      eax, ecx, edx, eflags, eip, ESP and the frame list of the interrupted state, and its mask unless
      the action was installed with SA_NOMASK. */
  lemma SignalsUnwind(run: seq<Config>, i: nat, j: nat, sig: nat)
    requires IsRun(run) && i + 1 < j < |run|
    requires run[i].t.m.mem.Valid() && DeliverStep(run[i], run[i + 1], sig)
    requires forall k :: i < k < j ==> |run[k].stack| > |run[i].stack|
    requires |run[j].stack| == |run[i].stack|
    ensures Restores(run[i].t, run[j].t, !NoMask(run[i].t.actions[sig]))
    ensures run[j].stack == run[i].stack
    ensures LeavesRest(run[j - 1].t.m, run[j].t.m)
  {
    hide Next, Proper, Ready, Nested, UserStep, Deliver, SigReturn, Restores;
    var n := |run[i].stack|;
    RunNested(run, i);
    RunNested(run, j - 1);
    StackPrefix(run, i + 1, j - 1, n + 1);
    LastStepReturns(run[j - 1], run[j], n);
    assert run[j - 1].stack == run[j - 1].stack[..n + 1];
    assert run[j - 1].stack == run[i + 1].stack[..n + 1];
    assert Top(run[j - 1]) == run[i + 1].stack[n];
    NestedReady(run[j - 1]);
    ReturnRestores(run[j - 1], run[j]);
  }

  lemma LastStepReturns(c: Config, c': Config, n: nat)
    requires c.t.m.mem.Valid() && Next(c, c') && |c.stack| > n && |c'.stack| == n
    ensures ReturnStep(c, c') && |c.stack| == n + 1
  {
    hide Deliver, SigReturn, Ready, Intact;
  }

  // ---- The object --------------------------------------------------------------------------------

  /** The fields of a process that signals use. */
  class Process {
    var cpu: CPU
    var blocked: Word
    var sigframes: seq<bool>
    var sigactions: Actions

    ghost predicate Valid()
      reads this, cpu, cpu.mem
    {
      cpu.Valid()
    }

    function Value(): Task
      reads this, cpu, cpu.mem
    {
      Task(cpu.State(), blocked, sigframes, sigactions)
    }

    constructor (c: CPU)
      requires c.Valid()
      ensures Valid() && cpu == c && blocked == 0 && sigframes == []
    {
      cpu, blocked, sigframes := c, 0, [];
      sigactions := seq(33, _ => Action(0, 0, 0, 0));
    }

    /** One more word of a frame, on top of those already pushed. */
    method PushNext(v: Word, ghost m0: Machine, ghost words: seq<Word>, ghost k: nat) returns (ok: bool)
      requires Valid() && m0.mem.Valid() && k < |words| && words[k] == v
      requires PushAll(m0, words[k + 1..]).Ok? && cpu.State() == PushAll(m0, words[k + 1..]).m.(log := [])
      modifies cpu`regs, cpu.mem
      ensures Valid()
      ensures !ok ==> PushAll(m0, words).Stop?
      ensures ok ==> PushAll(m0, words[k..]).Ok? && cpu.State() == PushAll(m0, words[k..]).m.(log := [])
    {
      hide Push, FlushAll, WellFormed;
      PushIgnoresLog(PushAll(m0, words[k + 1..]).m, v);
      assert words[k..][0] == v && words[k..][1..] == words[k + 1..];
      ok := cpu.Push32(v);
      if !ok { FailureSpreads(m0, words, k); }
    }

    /** The five words of the interrupted context. */
    method PushContext(ghost words: seq<Word>) returns (ok: bool)
      requires Valid() && cpu.State().log == [] && |words| >= 5
      requires var n := |words|;
        && words[n - 1] == Mask32(cpu.eip) && words[n - 2] == ToWord(cpu.flags) && words[n - 3] == cpu.regs[EDX]
        && words[n - 4] == cpu.regs[ECX] && words[n - 5] == cpu.regs[EAX]
      modifies cpu`regs, cpu.mem
      ensures Valid()
      ensures !ok ==> PushAll(old(cpu.State()), words).Stop?
      ensures ok ==> PushAll(old(cpu.State()), words[|words| - 5..]).Ok?
      ensures ok ==> cpu.State() == PushAll(old(cpu.State()), words[|words| - 5..]).m.(log := [])
    {
      hide PushAll, FlushAll, WellFormed, Mask32, ToWord;
      ghost var m0, n := cpu.State(), |words|;
      var oldEip := Mask32(cpu.eip);
      var eax, ecx, edx, eflags := cpu.regs[EAX], cpu.regs[ECX], cpu.regs[EDX], ToWord(cpu.flags);
      NothingPushed(m0, words);
      ok := PushNext(oldEip, m0, words, n - 1);
      if !ok { return; }
      ok := PushNext(eflags, m0, words, n - 2);
      if !ok { return; }
      ok := PushNext(edx, m0, words, n - 3);
      if !ok { return; }
      ok := PushNext(ecx, m0, words, n - 4);
      if !ok { return; }
      ok := PushNext(eax, m0, words, n - 5);
    }

    /** The eight (or, without the mask, seven) pushes. */
    method PushFrame(sig: nat, a: Action, ghost words: seq<Word>) returns (ok: bool)
      requires Valid() && cpu.State().log == [] && sig < 33 && a == sigactions[sig]
      requires words == [ReturnAddress(a)] + FrameBody(Value(), sig)
      modifies this`sigframes, cpu`regs, cpu.mem
      ensures Valid()
      ensures ok == PushAll(old(cpu.State()), words).Ok?
      ensures ok ==> cpu.State() == PushAll(old(cpu.State()), words).m.(log := [])
      ensures ok ==> sigframes == old(sigframes) + [!NoMask(a)]
    {
      hide PushAll, FlushAll, WellFormed, Mask32, ToWord, FrameBody, NoMask, ReturnAddress;
      ghost var m0 := cpu.State();
      var nomask := NoMask(a);
      FrameWords(Value(), sig);
      assert words[0..] == words;
      ok := PushContext(words);
      if !ok { return; }
      if !nomask {
        ok := PushNext(blocked, m0, words, 2);
        if !ok { return; }
      }
      sigframes := sigframes + [!nomask];
      ok := PushNext(sig, m0, words, 1);
      if !ok { return; }
      ok := PushNext(ReturnAddress(a), m0, words, 0);
    }

    /** False when a push faults. */
    method BuildSignalFrame(sig: nat) returns (ok: bool)
      requires Valid() && sig < 33
      modifies this, cpu, cpu.mem
      ensures Valid() && cpu == old(cpu) && cpu.mem == old(cpu.mem)
      ensures ok == Deliver(old(Value()), sig).Some?
      ensures ok ==> Value() == Deliver(old(Value()), sig).value
    {
      hide PushAll, FlushAll, WellFormed, Mask32, ToWord, FrameBody, NoMask, OneShot, ReturnAddress, Or;
      var a := sigactions[sig];
      ok := PushFrame(sig, a, [ReturnAddress(a)] + FrameBody(Value(), sig));
      if !ok { return; }
      cpu.eip := a.handler;
      blocked := Or(blocked, a.mask);
      if OneShot(a) { sigactions := sigactions[sig := a.(handler := 0)]; }
    }

    /** False when a pop faults. */
    method PopSignalFrame() returns (ok: bool)
      requires Valid()
      modifies this, cpu
      ensures Valid() && cpu == old(cpu)
      ensures ok == SigReturn(old(Value())).Some?
      ensures ok ==> Value() == SigReturn(old(Value())).value
    {
      hide Pop, FromWord;
      var w := cpu.Pop32();
      if w.None? { return false; }
      if |sigframes| > 0 {
        var masked := sigframes[|sigframes| - 1];
        sigframes := sigframes[..|sigframes| - 1];
        if masked {
          w := cpu.Pop32();
          if w.None? { return false; }
          blocked := w.value;
        }
      }
      ok := PopContextWords();
    }

    method PopRegister(r: Reg) returns (ok: bool)
      requires Valid()
      modifies cpu`regs
      ensures Valid() && cpu.mem == old(cpu.mem)
      ensures ok == Pop(old(cpu.State()), 4).Ok?
      ensures ok ==> cpu.State() == Set32(Pop(old(cpu.State()), 4).m, r, Pop(old(cpu.State()), 4).v)
    {
      hide Pop, WellFormed;
      var w := cpu.Pop32();
      if w.None? { return false; }
      cpu.regs := cpu.regs[r := w.value];
      ok := true;
    }

    method PopContextWords() returns (ok: bool)
      requires Valid()
      modifies cpu
      ensures Valid() && cpu.mem == old(cpu.mem)
      ensures ok == PopContext(old(cpu.State())).Ok?
      ensures ok ==> cpu.State() == PopContext(old(cpu.State())).m
    {
      hide Pop, Set32, FromWord, WellFormed;
      ok := PopRegister(EAX);
      if !ok { return; }
      ok := PopRegister(ECX);
      if !ok { return; }
      ok := PopRegister(EDX);
      if !ok { return; }
      var w := cpu.Pop32();
      if w.None? { return false; }
      PoppedFlags(w.value);
      cpu.flags := FromWord(w.value);
      w := cpu.Pop32();
      if w.None? { return false; }
      cpu.eip := w.value;
    }
  }

  lemma PoppedFlags(v: Word)
    ensures WellFormed(FromWord(v))
  {
    hide LowBits;
  }

  /** A push does not look at the log of stores. */
  lemma PushIgnoresLog(m: Machine, v: Word)
    requires m.mem.Valid()
    ensures Push(m.(log := []), 4, v).Ok? == Push(m, 4, v).Ok?
    ensures Push(m.(log := []), 4, v).m.(log := []) == Push(m, 4, v).m.(log := [])
  {
    hide Bytes, Image.Write, Image.TouchesText, Image.Valid, Mask32;
  }

  lemma {:induction false} FailureSpreads(m: Machine, words: seq<Word>, k: nat)
    requires m.mem.Valid() && k < |words| && PushAll(m, words[k..]).Stop?
    ensures PushAll(m, words).Stop?
  {
    hide Push;
    if k == 0 {
      assert words[0..] == words;
    } else {
      assert words[1..][k - 1..] == words[k..];
      FailureSpreads(m, words[1..], k - 1);
    }
  }

  lemma NothingPushed(m: Machine, words: seq<Word>)
    requires m.mem.Valid() && m.log == []
    ensures PushAll(m, words[|words|..]) == Done(m.(log := []))
  {
  }

  lemma FrameWords(t: Task, sig: nat)
    requires sig < 33
    ensures var words := [ReturnAddress(t.actions[sig])] + FrameBody(t, sig);
      var n := |words|;
      && n == (if NoMask(t.actions[sig]) then 7 else 8)
      && words[n - 1] == Mask32(t.m.eip) && words[n - 2] == ToWord(t.m.flags) && words[n - 3] == t.m.regs[EDX]
      && words[n - 4] == t.m.regs[ECX] && words[n - 5] == t.m.regs[EAX]
      && (!NoMask(t.actions[sig]) ==> words[2] == t.blocked)
      && words[1] == sig && words[0] == ReturnAddress(t.actions[sig])
  {
    hide ToWord, Mask32;
  }
}
