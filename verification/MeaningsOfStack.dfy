/** What the stack and string instructions do, by the name the disassembler shows. */
module MeaningsOfStack {
  import opened Words
  import opened Memory
  import opened Decoder
  import opened Flags
  import opened Handlers
  import opened FlagLaws
  import opened Operations
  import opened InstructionLaws
  import opened Meanings
  import opened MeaningsOfMoves
  import G = Signals
  import Shifting
  import Disasm = Disassembler

  // ---- push and pop ----------------------------------------------------------------------------------

  /** What push pushes: a register, an immediate, or the operand. */
  function Pushed(m: Machine, e: Entry): Option<int>
    requires m.mem.Valid() && IsPush(e.fn)
  {
    match e.fn
    case PushR => Some(GetReg(m, e.reg, e.size))
    case PushImm => Some(e.imm)
    case PushRm16 => (match RmValue(m, e, 2) case Some(v) => Some(v) case None => None)
    case _ => (match RmValue(m, e, 4) case Some(v) => Some(v) case None => None)
  }

  function PushWidth(fn: Handler, size: OperandSize): OperandSize {
    if fn.PushRm? then 4 else if fn.PushRm16? then 2 else size
  }

  lemma PushMeaning(m: Machine, e: Entry)
    requires m.mem.Valid() && IsPush(e.fn)
    ensures Execute(m, e) == match Pushed(m, e) case None => Stop(m, SegFault) case Some(v) => Push(m, PushWidth(e.fn, e.size), v)
  {
    hide Execute, RmValue, ReadRm, Push, Pop, GetReg, SetReg, WriteRm, ExecEnter, Set32, ToWord, Address;
    RunsStack(m, e);
    if e.fn.PushRm? { ReadsRm(m, e, 4); }
    if e.fn.PushRm16? { ReadsRm(m, e, 2); }
  }

  /** A push stores below the stack pointer and moves it there; if it faults, the stack pointer stays. */
  lemma PushExact(m: Machine, size: int, v: int)
    requires m.mem.Valid() && IsSize(size)
    ensures var r, sp := Push(m, size, v), (R(m, ESP) - size) % TWO32;
      && r.m == m.(regs := if r.Ok? then m.regs[ESP := sp] else m.regs, mem := r.m.mem, log := r.m.log)
      && r.m.mem == m.mem.Store(sp, size, v).mem && (r.Ok? <==> m.mem.Store(sp, size, v).ok) && (r.Stop? ==> r.ev == SegFault)
  {
    hide Image.Write, Bytes, Image.TouchesText;
  }

  /** pop reads at the stack pointer, moves it up, and puts the value into a register or the operand, whose address is
      computed with the stack pointer as it was. */
  lemma PopMeaning(m: Machine, e: Entry)
    requires m.mem.Valid() && (e.fn.PopR? || e.fn.PopRm?)
    ensures var size := if e.fn.PopR? then e.size else if e.size == 2 then 2 else 4;
      Execute(m, e) == match m.mem.Load(m.regs[ESP], size)
        case None => Stop(m, SegFault)
        case Some(v) =>
          var m1 := m.(regs := m.regs[ESP := (R(m, ESP) + size) % TWO32]);
          if e.fn.PopR? then Done(SetReg(m1, e.reg, e.size, v)) else WriteRm(m1, e, Address(m, e), e.size, v)
  {
    hide Execute, ReadRm, Push, GetReg, SetReg, WriteRm, ExecEnter, ToWord, Address, Image.Load;
    RunsStack(m, e);
  }

  /** ret resumes at the word on the stack; ret n drops n more bytes. */
  lemma RetMeaning(m: Machine, e: Entry)
    requires m.mem.Valid() && (e.fn.Ret? || e.fn.RetN?)
    ensures Execute(m, e) == match m.mem.Load(m.regs[ESP], 4)
      case None => Stop(m, SegFault)
      case Some(v) =>
        var sp := (R(m, ESP) + 4) % TWO32;
        Done(m.(eip := v, regs := m.regs[ESP := if e.fn.Ret? then sp else (sp + e.imm) % TWO32]))
  {
    hide Execute, ReadRm, Push, Condition, Image.Load;
    RunsStop(m, e);
  }

  // ---- enter ----------------------------------------------------------------------------------------------

  lemma Down(x: int, a: int)
    ensures Mask32(Mask32(x) - a) == Mask32(x - a)
  {
    Shifting.DivisionLaw(x, TWO32);
    Shifting.DivisionLaw(Mask32(x) - a, TWO32);
    Shifting.QuotientOf(x - a, TWO32, x / TWO32 + (Mask32(x) - a) / TWO32, Mask32(Mask32(x) - a));
  }

  /** The display copies move both pointers down, a word for each level, and change no other register. */
  lemma {:induction false} LevelsExact(m: Machine, level: nat)
    requires m.mem.Valid() && EnterLevels(m, level).Ok?
    ensures var m' := EnterLevels(m, level).m;
      && R(m', ESP) == Mask32(R(m, ESP) - 4 * level) && R(m', EBP) == Mask32(R(m, EBP) - 4 * level)
      && m' == m.(regs := m'.regs, mem := m'.mem, log := m'.log)
      && forall q: Reg :: q != ESP && q != EBP ==> m'.regs[q] == m.regs[q]
    decreases level
  {
    hide Push, Image.Load;
    if level > 0 {
      var m1 := Set32(m, EBP, R(m, EBP) - 4);
      var v := ReadMem(m1, m1.regs[EBP], 4).v;
      PushExact(m1, 4, v);
      LevelsExact(Push(m1, 4, v).m, level - 1);
      Down(R(m, ESP) - 4, 4 * (level - 1));
      Down(R(m, EBP) - 4, 4 * (level - 1));
    }
  }

  /** Words at and above the stack pointer stay. */
  lemma {:induction false} LevelsKeep(m: Machine, level: nat, b: int)
    requires m.mem.Valid() && m.mem.Disjoint() && EnterLevels(m, level).Ok? && 4 * level <= R(m, ESP) <= b && m.mem.Load(b, 4).Some?
    ensures EnterLevels(m, level).m.mem.Disjoint() && EnterLevels(m, level).m.mem.Load(b, 4) == m.mem.Load(b, 4)
    decreases level
  {
    hide Push, Image.Load, Image.Write, Image.Disjoint;
    if level > 0 {
      var m1 := Set32(m, EBP, R(m, EBP) - 4);
      var v := ReadMem(m1, m1.regs[EBP], 4).v;
      PushExact(m1, 4, v);
      G.StoreKeepsLoad(m.mem, R(m, ESP) - 4, v, b);
      LevelsKeep(Push(m1, 4, v).m, level - 1, b);
    }
  }

  /** One display copy. */
  lemma LevelStep(m: Machine, level: nat) returns (m2: Machine, v: Word)
    requires m.mem.Valid() && m.mem.Disjoint() && EnterLevels(m, level).Ok? && level > 0 && 4 <= R(m, ESP) && 4 <= R(m, EBP)
    ensures m2.mem.Valid() && m2.mem.Disjoint() && EnterLevels(m2, level - 1) == EnterLevels(m, level)
    ensures R(m2, ESP) == R(m, ESP) - 4 && R(m2, EBP) == R(m, EBP) - 4
    ensures m.mem.Store(R(m, ESP) - 4, 4, v).ok && m2.mem == m.mem.Store(R(m, ESP) - 4, 4, v).mem
    ensures m.mem.Load(R(m, EBP) - 4, 4) == Some(v) && m2.mem.Load(R(m, ESP) - 4, 4) == Some(v)
  {
    hide Push, Image.Load, Image.Write, Image.Disjoint;
    var m1 := Set32(m, EBP, R(m, EBP) - 4);
    v := ReadMem(m1, m1.regs[EBP], 4).v;
    PushExact(m1, 4, v);
    m2 := Push(m1, 4, v).m;
    StoredWordLoads(m.mem, R(m, ESP) - 4, v);
  }

  /** Copy i of the display is the word i places below the old frame pointer. */
  lemma {:induction false} LevelsCopy(m: Machine, level: nat, i: nat)
    requires m.mem.Valid() && m.mem.Disjoint() && EnterLevels(m, level).Ok? && 1 <= i <= level
    requires 4 * level <= R(m, ESP) <= R(m, EBP) - 4 * level && m.mem.Load(R(m, EBP) - 4 * i, 4).Some?
    ensures EnterLevels(m, level).m.mem.Load(R(m, ESP) - 4 * i, 4) == m.mem.Load(R(m, EBP) - 4 * i, 4)
    decreases level
  {
    hide EnterLevels, Image.Load, Image.Store, Image.Disjoint;
    var m2, v := LevelStep(m, level);
    if i == 1 {
      LevelsKeep(m2, level - 1, R(m, ESP) - 4);
    } else {
      G.StoreKeepsLoad(m.mem, R(m, ESP) - 4, v, R(m, EBP) - 4 * i);
      LevelsCopy(m2, level - 1, i - 1);
    }
  }

  lemma StoredWordLoads(m: Image, a: int, v: Word)
    requires m.Valid() && m.Disjoint() && m.Store(a, 4, v).ok
    ensures m.Store(a, 4, v).mem.Valid() && m.Store(a, 4, v).mem.Disjoint() && m.Store(a, 4, v).mem.Load(a, 4) == Some(v)
  {
    hide Bytes;
    LoadAfterStore(m, a, 4, v);
    WriteExact(m, a, Bytes(v, 4));
  }

  /** enter: the frame pointer is where its old value was pushed; below it stand the display, when there is one ending in
      the new frame pointer, and the room asked for. */
  lemma EnterMeaning(m: Machine, e: Entry)
    requires m.mem.Valid() && e.fn.Enter? && Execute(m, e).Ok?
    ensures var m', level := Execute(m, e).m, e.fn.level;
      && R(m', EBP) == Mask32(R(m, ESP) - 4)
      && R(m', ESP) == Mask32(R(m, ESP) - 4 - 4 * level - (if level == 0 then 0 else 4) - e.imm)
      && m'.flags == m.flags && m'.eip == m.eip && forall q: Reg :: q != ESP && q != EBP ==> m'.regs[q] == m.regs[q]
  {
    hide Execute, Push, EnterLevels;
    RunsStack(m, e);
    EnterPointers(m, e.fn.level, e.imm);
  }

  lemma EnterPointers(m: Machine, level: nat, alloc: int)
    requires m.mem.Valid() && ExecEnter(m, level, alloc).Ok?
    ensures var m' := ExecEnter(m, level, alloc).m;
      && R(m', EBP) == Mask32(R(m, ESP) - 4)
      && R(m', ESP) == Mask32(R(m, ESP) - 4 - 4 * level - (if level == 0 then 0 else 4) - alloc)
      && m'.flags == m.flags && m'.eip == m.eip && forall q: Reg :: q != ESP && q != EBP ==> m'.regs[q] == m.regs[q]
  {
    hide Push, EnterLevels, Mask32, Image.Store;
    PushExact(m, 4, m.regs[EBP]);
    var m1 := Push(m, 4, m.regs[EBP]).m;
    LevelsExact(m1, level);
    var m2 := EnterLevels(m1, level).m;
    Down(R(m, ESP) - 4, 4 * level);
    MaskedTwice(R(m, ESP) - 4);
    if level == 0 {
      Down(R(m, ESP) - 4 - 4 * level, alloc);
    } else {
      PushExact(m2, 4, m1.regs[ESP]);
      MaskedTwice(R(m2, ESP) - 4);
      Down(R(m, ESP) - 4 - 4 * level, 4);
      Down(R(m, ESP) - 4 - 4 * level - 4, alloc);
    }
  }

  lemma MaskedTwice(x: int)
    ensures Mask32(Mask32(x)) == Mask32(x) && Mask32(x) == x % TWO32
  {
  }

  /** The old frame pointer, the copies of the display, and the new frame pointer as they stand in memory, if the old
      display lies above the stack. */
  lemma EnterStores(m: Machine, level: nat, alloc: int, i: nat)
    requires m.mem.Valid() && m.mem.Disjoint() && ExecEnter(m, level, alloc).Ok? && 4 * level + 8 <= R(m, ESP)
    requires level > 0 ==> 1 <= i <= level && R(m, ESP) <= R(m, EBP) - 4 * level && m.mem.Load(R(m, EBP) - 4 * i, 4).Some?
    ensures var m', frame := ExecEnter(m, level, alloc).m, R(m, ESP) - 4;
      && m'.mem.Valid() && m'.mem.Load(frame, 4) == Some(m.regs[EBP])
      && (level > 0 ==> m'.mem.Load(frame - 4 * i, 4) == m.mem.Load(R(m, EBP) - 4 * i, 4)
                        && m'.mem.Load(frame - 4 * level - 4, 4) == Some(frame))
  {
    hide Push, EnterLevels, Image.Load, Image.Store, Image.Disjoint;
    var frame := R(m, ESP) - 4;
    FramePushed(m);
    var m1 := Push(m, 4, m.regs[EBP]).m;
    NoLevels(m1);
    if level > 0 {
      assert m1.mem.Load(R(m, EBP) - 4 * i, 4) == m.mem.Load(R(m, EBP) - 4 * i, 4);
      DisplayCopied(m1, level, i);
      FrameLast(EnterLevels(m1, level).m, frame, level, i);
    }
  }

  lemma NoLevels(m: Machine)
    requires m.mem.Valid()
    ensures EnterLevels(m, 0) == Done(m)
  {
  }

  /** The first push. */
  lemma FramePushed(m: Machine)
    requires m.mem.Valid() && m.mem.Disjoint() && Push(m, 4, m.regs[EBP]).Ok? && 8 <= R(m, ESP)
    ensures var m1, frame := Push(m, 4, m.regs[EBP]).m, R(m, ESP) - 4;
      && m1.mem.Valid() && m1.mem.Disjoint() && R(m1, ESP) == frame && R(m1, EBP) == R(m, EBP)
      && m1.mem.Load(frame, 4) == Some(m.regs[EBP])
      && forall b :: R(m, ESP) <= b && m.mem.Load(b, 4).Some? ==> m1.mem.Load(b, 4) == m.mem.Load(b, 4)
  {
    hide Push, Image.Load, Image.Store, Image.Disjoint;
    var frame := R(m, ESP) - 4;
    PushExact(m, 4, m.regs[EBP]);
    StoredWordLoads(m.mem, frame, m.regs[EBP]);
    forall b | R(m, ESP) <= b && m.mem.Load(b, 4).Some? ensures m.mem.Store(frame, 4, m.regs[EBP]).mem.Load(b, 4) == m.mem.Load(b, 4) {
      G.StoreKeepsLoad(m.mem, frame, m.regs[EBP], b);
    }
  }

  /** The copies, below the frame pointer just pushed. */
  lemma DisplayCopied(m1: Machine, level: nat, i: nat)
    requires m1.mem.Valid() && m1.mem.Disjoint() && EnterLevels(m1, level).Ok? && 1 <= i <= level && 4 * level + 4 <= R(m1, ESP)
    requires m1.mem.Load(R(m1, ESP), 4).Some? && R(m1, ESP) + 4 <= R(m1, EBP) - 4 * level && m1.mem.Load(R(m1, EBP) - 4 * i, 4).Some?
    ensures var m2 := EnterLevels(m1, level).m;
      && m2.mem.Disjoint() && R(m2, ESP) == R(m1, ESP) - 4 * level
      && m2.mem.Load(R(m1, ESP), 4) == m1.mem.Load(R(m1, ESP), 4)
      && m2.mem.Load(R(m1, ESP) - 4 * i, 4) == m1.mem.Load(R(m1, EBP) - 4 * i, 4)
  {
    hide EnterLevels, Image.Load, Image.Disjoint;
    LevelsExact(m1, level);
    LevelsKeep(m1, level, R(m1, ESP));
    LevelsCopy(m1, level, i);
  }

  /** The last push, below the copies, keeps all of them. */
  lemma FrameLast(m2: Machine, frame: int, level: nat, i: nat)
    requires m2.mem.Valid() && m2.mem.Disjoint() && 1 <= i <= level && R(m2, ESP) == frame - 4 * level && 4 <= R(m2, ESP)
    requires 0 <= frame < TWO32 && m2.mem.Load(frame, 4).Some? && m2.mem.Load(frame - 4 * i, 4).Some? && Push(m2, 4, frame).Ok?
    ensures var m3 := Push(m2, 4, frame).m;
      && m3.mem.Load(frame - 4 * level - 4, 4) == Some(frame) && m3.mem.Load(frame, 4) == m2.mem.Load(frame, 4)
      && m3.mem.Load(frame - 4 * i, 4) == m2.mem.Load(frame - 4 * i, 4)
  {
    hide Push, Image.Load, Image.Store, Image.Disjoint;
    PushExact(m2, 4, frame);
    StoredWordLoads(m2.mem, frame - 4 * level - 4, frame);
    G.StoreKeepsLoad(m2.mem, frame - 4 * level - 4, frame, frame);
    G.StoreKeepsLoad(m2.mem, frame - 4 * level - 4, frame, frame - 4 * i);
  }

  /** The level is the last byte modulo 32, the room the two before it. */
  lemma EnterDecoded(m: Image, start: int, pos: int)
    requires m.Valid() && start <= pos && DecodeEnter(m, start, pos).Insn?
    ensures var e := DecodeEnter(m, start, pos).e;
      && m.Load(pos, 2) == Some(e.imm) && m.Load(pos + 2, 1).Some? && e.fn == Enter(m.Load(pos + 2, 1).value % 32)
      && e.length == pos + 3 - start
  {
    hide Image.Load;
  }

  // ---- String elements ----------------------------------------------------------------------------------------

  /** Both pointers, or one of them, a step on. */
  function Stepped(m: Machine, delta: int, source: bool, target: bool): Machine {
    var regs := if source then m.regs[ESI := (R(m, ESI) + delta) % TWO32] else m.regs;
    m.(regs := if target then regs[EDI := (R(m, EDI) + delta) % TWO32] else regs)
  }

  predicate IsMoving(kind: Disasm.StringKind) {
    kind.Movs? || kind.Stos? || kind.Lods?
  }

  /** One element: movs copies it from ESI to EDI, stos stores the accumulator at EDI, lods loads it from ESI. */
  function MovedElement(kind: Disasm.StringKind, m: Machine, size: int, delta: int): Effect
    requires m.mem.Valid() && IsSize(size) && IsMoving(kind)
  {
    if kind.Lods? then
      match m.mem.Load(m.regs[ESI], size)
      case None => Stop(m, SegFault)
      case Some(v) => Done(Stepped(SetReg(m, EAX, size, v), delta, true, false))
    else
      match (if kind.Movs? then m.mem.Load(m.regs[ESI], size) else Some(GetReg(m, EAX, size)))
      case None => Stop(m, SegFault)
      case Some(v) =>
        match WriteMem(m, m.regs[EDI], size, v)
        case Ok(m1, _) => Done(Stepped(m1, delta, kind.Movs?, true))
        case Stop(m1, ev) => Stop(m1, ev)
  }

  /** cmps compares the element at ESI, scas the accumulator, with the element at EDI. */
  ghost predicate ComparedElement(kind: Disasm.StringKind, m: Machine, size: int, delta: int, r: Effect)
    requires m.mem.Valid() && IsSize(size) && !IsMoving(kind)
  {
    var first, second := if kind.Cmps? then m.mem.Load(m.regs[ESI], size) else Some(GetReg(m, EAX, size)), m.mem.Load(m.regs[EDI], size);
    if first.None? || second.None? then r == Stop(m, SegFault)
    else exists g :: SubTells(m.flags, g, first.value, second.value, 0, size) && r == Done(Stepped(m, delta, kind.Cmps?, true).(flags := g))
  }

  lemma ElementKinds(op: nat)
    requires IsStringOp(op)
    ensures IsMoving(Disasm.KindName(op)) <==> !Compares(op)
  {
  }

  lemma MovingElement(m: Machine, op: nat, size: int, delta: int)
    requires m.mem.Valid() && IsSize(size) && IsStringOp(op) && IsMoving(Disasm.KindName(op))
    ensures StringElement(m, op, size, delta) == MovedElement(Disasm.KindName(op), m, size, delta)
  {
    hide Image.Load, WriteMem, GetReg, SubFlags;
    StepsApart(m, op, size, delta);
  }

  lemma StepsApart(m: Machine, op: nat, size: int, delta: int)
    requires m.mem.Valid() && IsSize(size)
    ensures forall v :: SetReg(m, EAX, size, v).regs[ESI] == m.regs[ESI]
    ensures forall v :: WriteMem(m, R(m, EDI), size, v).m.regs == m.regs
  {
    hide Bytes, Image.Write;
  }

  lemma ComparingElement(m: Machine, op: nat, size: int, delta: int)
    requires m.mem.Valid() && IsSize(size) && IsStringOp(op) && !IsMoving(Disasm.KindName(op))
    ensures ComparedElement(Disasm.KindName(op), m, size, delta, StringElement(m, op, size, delta))
  {
    hide Image.Load, WriteMem, GetReg, SubFlags, SubTells, IsMoving;
    Loaded(m, m.regs[ESI], size);
    Loaded(m, m.regs[EDI], size);
    var first, second := if Disasm.KindName(op).Cmps? then m.mem.Load(m.regs[ESI], size) else Some(GetReg(m, EAX, size)), m.mem.Load(m.regs[EDI], size);
    KindsByOpcode(op);
    if first.Some? && second.Some? {
      var g := SubFlags(m.flags, first.value, second.value, 0, size);
      SubFlagsExact(m.flags, first.value, second.value, 0, size);
      assert StringElement(m, op, size, delta) == Done(Stepped(m, delta, Disasm.KindName(op).Cmps?, true).(flags := g));
    }
  }

  lemma KindsByOpcode(op: nat)
    requires IsStringOp(op)
    ensures Disasm.KindName(op).Cmps? <==> op == 0xA6 || op == 0xA7
    ensures !IsMoving(Disasm.KindName(op)) <==> op == 0xA6 || op == 0xA7 || op == 0xAE || op == 0xAF
  {
  }

  /** The step: the size, downwards if the direction flag is set. */
  function Step(m: Machine, size: int): int {
    if Has(m.flags, DF) then -size else size
  }

  lemma StringName(e: Entry, kind: Disasm.StringKind, size: nat, rep: Disasm.Repeat)
    requires SameName(Disasm.String(kind, size, rep), e)
    ensures e.fn.String? && Disasm.String(kind, size, rep) == Disasm.StringName(e.fn.op, e.size, RepeatOf(e.imm))
  {
    hide Disasm.StringName;
  }

  lemma NameParts(op: nat, opsize: OperandSize, rep: Option<nat>)
    requires IsStringOp(op)
    ensures var n := Disasm.StringName(op, opsize, rep);
      && n.kind == Disasm.KindName(op) && n.size == (if IsByteString(op) then 1 else opsize)
      && (n.rep.Once? <==> rep != Some(0xF2) && rep != Some(0xF3))
  {
    hide Disasm.KindName;
  }

  /** Without a repeat prefix one element is done, of the size and kind named, in the direction of DF. */
  lemma StringMeaning(m: Machine, e: Entry, kind: Disasm.StringKind, size: OperandSize)
    requires m.mem.Valid() && SameName(Disasm.String(kind, size, Disasm.Once), e) && e.imm == 0 && e.fn.String? && IsStringOp(e.fn.op)
    ensures if IsMoving(kind) then Execute(m, e) == MovedElement(kind, m, size, Step(m, size))
            else ComparedElement(kind, m, size, Step(m, size), Execute(m, e))
  {
    hide Execute, SameName, StringElement, MovedElement, ComparedElement, Has, IsMoving, Disasm.StringName, Disasm.KindName;
    StringName(e, kind, size, Disasm.Once);
    NameParts(e.fn.op, e.size, RepeatOf(e.imm));
    RunsString(m, e);
    OneElement(m, e.fn.op, e.size);
    if IsMoving(kind) { MovingElement(m, e.fn.op, size, Step(m, size)); } else { ComparingElement(m, e.fn.op, size, Step(m, size)); }
  }

  lemma RunsString(m: Machine, e: Entry)
    requires m.mem.Valid() && e.fn.String?
    ensures Execute(m, e) == ExecString(m, e.fn.op, e.size, e.imm)
  {
    hide ExecAlu, ExecMove, ExecStack, ExecFlow, ExecFlag, ExecWide, ExecString;
  }

  lemma OneElement(m: Machine, op: nat, opsize: OperandSize)
    requires m.mem.Valid()
    ensures var size := if IsByteString(op) then 1 else opsize;
      ExecString(m, op, opsize, 0) == StringElement(m, op, size, Step(m, size))
  {
    hide StringElement, Has, StringLoop;
    var size := if IsByteString(op) then 1 else opsize;
    LoopOnce(m, op, size, Step(m, size));
  }

  lemma OnlyUnit(u: ())
    ensures u == ()
  {
  }

  lemma LoopOnce(m: Machine, op: nat, size: int, delta: int)
    requires m.mem.Valid() && IsSize(size)
    ensures StringLoop(m, op, size, delta, 0, 1) == StringElement(m, op, size, delta)
  {
    hide StringElement;
    var r := StringElement(m, op, size, delta);
    assert StringLoop(r.m, op, size, delta, 0, 0) == Done(r.m);
    if r.Ok? { OnlyUnit(r.v); }
  }

  /** With a repeat prefix nothing is done for ECX = 0. Otherwise, backwards or for lods, one element is done, and with
      ECX one less the instruction goes on; a fault ends it where it is. */
  lemma RepeatMeaning(m: Machine, e: Entry)
    requires m.mem.Valid() && e.fn.String? && IsStringOp(e.fn.op) && (e.imm == 0xF2 || e.imm == 0xF3)
    ensures m.regs[ECX] == 0 ==> Execute(m, e) == Done(m)
    ensures m.regs[ECX] != 0 && !Compares(e.fn.op) && (Has(m.flags, DF) || e.fn.op == 0xAC || e.fn.op == 0xAD) ==>
      var one := Execute(m, e.(imm := 0));
      if one.Stop? then Execute(m, e) == one
      else one.m.mem.Valid() && Execute(m, e) == Execute(one.m.(regs := one.m.regs[ECX := m.regs[ECX] - 1]), e)
  {
    hide Execute, StringElement, Has, ExecString;
    var op := e.fn.op;
    RunsString(m, e);
    NoElement(m, op, e.size, e.imm);
    if m.regs[ECX] != 0 && !Compares(op) && (Has(m.flags, DF) || op == 0xAC || op == 0xAD) {
      RunsString(m, e.(imm := 0));
      OneElement(m, op, e.size);
      ElementThenRest(m, op, e.size, e.imm);
      var one := ExecString(m, op, e.size, 0);
      if one.Ok? { RunsString(one.m.(regs := one.m.regs[ECX := m.regs[ECX] - 1]), e); }
    }
  }

  lemma NoElement(m: Machine, op: nat, opsize: OperandSize, rep: int)
    requires m.mem.Valid() && rep != 0
    ensures m.regs[ECX] == 0 ==> ExecString(m, op, opsize, rep) == Done(m)
  {
    hide StringLoop, MoveBlock, FillBlock;
  }

  lemma ElementThenRest(m: Machine, op: nat, opsize: OperandSize, rep: int)
    requires m.mem.Valid() && rep != 0 && m.regs[ECX] != 0 && !Compares(op) && (Has(m.flags, DF) || op == 0xAC || op == 0xAD)
    ensures var size := if IsByteString(op) then 1 else opsize;
      var one := StringElement(m, op, size, Step(m, size));
      if one.Stop? then ExecString(m, op, opsize, rep) == one
      else ExecString(m, op, opsize, rep) == ExecString(one.m.(regs := one.m.regs[ECX := m.regs[ECX] - 1]), op, opsize, rep)
  {
    hide StringElement, Has, StringLoop, MoveBlock, FillBlock, Compares;
    var size := if IsByteString(op) then 1 else opsize;
    var one := StringElement(m, op, size, Step(m, size));
    LoopStep(m, op, size, Step(m, size), rep, m.regs[ECX]);
    if one.Ok? {
      ElementKeeps(m, op, size, Step(m, size));
      LoopEnd(one.m.(regs := one.m.regs[ECX := 0]), op, size, Step(m, size), rep);
    }
  }

  lemma LoopStep(m: Machine, op: nat, size: int, delta: int, rep: int, cnt: Word)
    requires m.mem.Valid() && IsSize(size) && !Compares(op) && rep != 0 && cnt > 0
    ensures StringLoop(m, op, size, delta, rep, cnt) ==
      match StringElement(m, op, size, delta)
      case Stop(m1, ev) => Stop(m1, ev)
      case Ok(m1, _) => StringLoop(m1.(regs := m1.regs[ECX := cnt - 1]), op, size, delta, rep, cnt - 1)
  {
    hide StringElement;
  }

  lemma LoopEnd(m: Machine, op: nat, size: int, delta: int, rep: int)
    requires m.mem.Valid() && IsSize(size)
    ensures StringLoop(m, op, size, delta, rep, 0) == Done(m)
  {
  }

  lemma ElementKeeps(m: Machine, op: nat, size: int, delta: int)
    requires m.mem.Valid() && IsSize(size) && !Compares(op) && StringElement(m, op, size, delta).Ok?
    ensures StringElement(m, op, size, delta).m.flags == m.flags
  {
    hide Bytes, Image.Write, Image.Load, SubFlags;
  }
}
