/** Sleeps over whole runs of the kernel: how each ends, and what each end leads to. A call that ends by a
    handler is followed through the handler, however deep its own signals nest, to the repeated call. */
module KernelEnds {
  import opened Words
  import opened Memory
  import opened Decoder
  import opened Handlers
  import opened Kernel
  import opened KernelProofs
  import opened KernelSleep
  import opened KernelFates
  import I = Interpreter
  import L = DecoderLocality
  import D = Descriptors
  import S = Scheduler
  import G = Signals

  // ---- The five ends --------------------------------------------------------------------

  /** How a sleep ends: awake at the call; in a handler whose frame leads back to the call; behind the call
      with EINTR; stopped at the call; dead. */
  datatype SleepEnd = CalledAgain | Handled | Failed | HeldUp | Dead

  /** p, which slept with user state t, is now in the situation e. */
  ghost predicate EndsAs(k: K, p: Pid, t: G.Task, e: SleepEnd)
    requires p in k.u
  {
    var t' := k.u[p].task;
    match e
    case CalledAgain => In(k, p, S.Running) && t' == t
    case Handled => In(k, p, S.Running) && Delivers(t, t')
    case Failed => In(k, p, S.Running) && t' == Interrupted(t)
    case HeldUp => In(k, p, S.Stopped) && t' == t
    case Dead => In(k, p, S.Zombie) && t' == t
  }

  ghost predicate HasEnd(k: K, p: Pid, t: G.Task)
    requires p in k.u
  {
    exists e :: EndsAs(k, p, t, e)
  }

  lemma DeliveryAddsFrame(t: G.Task, t': G.Task)
    requires Delivers(t, t')
    ensures |t'.frames| == |t.frames| + 1
  {
    hide G.PushAll;
  }

  /** The ends exclude each other. */
  lemma EndsOnce(k: K, p: Pid, t: G.Task, e: SleepEnd, e': SleepEnd)
    requires p in k.u && EndsAs(k, p, t, e) && EndsAs(k, p, t, e') && GoodMemory(t.m) && AtTrap(t.m)
    ensures e == e'
  {
    hide Delivers;
    var t' := k.u[p].task;
    if Delivers(t, t') { DeliveryAddsFrame(t, t'); }
    assert 0 <= t.m.eip < TASK_SIZE;
    assert Interrupted(t).m.eip == t.m.eip + 2;
  }

  lemma {:induction false} AsleepUnchanged(states: seq<K>, steps: seq<Step>, p: Pid, i: nat, j: nat)
    requires IsRun(states, steps) && i <= j < |states|
    requires forall x :: i <= x <= j ==> Known(states[x], p) && In(states[x], p, S.Sleeping)
    ensures SameUser(states[i], states[j], p)
    decreases j
  {
    hide Inv, Enabled, Next, Boot;
    if i < j {
      AsleepUnchanged(states, steps, p, i, j - 1);
      RunsKeepInv(states, steps, j - 1);
      assert Taken(states[j - 1], steps[j - 1], states[j]);
      SleeperFate(states[j - 1], steps[j - 1], p);
      AsleepMeansSame(states[j - 1], states[j], p);
    }
  }

  lemma AsleepMeansSame(k: K, k': K, p: Pid)
    requires Known(k, p) && Fate(k, k', p) && In(k', p, S.Sleeping)
    ensures SameUser(k, k', p)
  {
    hide G.Deliver, Interrupted;
  }

  /** Every sleep that ends, ends in exactly one of the five ways, the call and its arguments having stood
      untouched all the while. */
  lemma SleepEnds(states: seq<K>, steps: seq<Step>, p: Pid, i: nat, j: nat)
    requires IsRun(states, steps) && i < j < |states|
    requires forall x :: i <= x < j ==> Known(states[x], p) && In(states[x], p, S.Sleeping)
    requires !In(states[j], p, S.Sleeping)
    ensures SleepsAtCall(states[i], p) && SameUser(states[i], states[j - 1], p) && Known(states[j], p)
    ensures exists e :: EndsAs(states[j], p, states[i].u[p].task, e)
    ensures forall e, e' :: EndsAs(states[j], p, states[i].u[p].task, e) && EndsAs(states[j], p, states[i].u[p].task, e') ==> e == e'
  {
    hide IsRun, SleepsAtCall, EndsAs, Inv;
    AsleepUnchanged(states, steps, p, i, j - 1);
    SleepKept(states[i], states[j - 1], p);
    SleepOver(states, steps, p, j - 1);
    SleeperAtTrap(states, steps, p, i);
    var t := states[i].u[p].task;
    forall e, e' | EndsAs(states[j], p, t, e) && EndsAs(states[j], p, t, e') ensures e == e' {
      EndsOnce(states[j], p, t, e, e');
    }
  }

  lemma SleepKept(k: K, k': K, p: Pid)
    requires SameUser(k, k', p)
    ensures k'.u[p].task == k.u[p].task
  {
  }

  /** The last step of a sleep. */
  lemma SleepOver(states: seq<K>, steps: seq<Step>, p: Pid, i: nat)
    requires IsRun(states, steps) && i < |states| - 1 && Known(states[i], p) && In(states[i], p, S.Sleeping)
    requires !In(states[i + 1], p, S.Sleeping)
    ensures Known(states[i + 1], p) && HasEnd(states[i + 1], p, states[i].u[p].task)
  {
    hide Inv, Enabled, Next, Boot, EndsAs, Fate;
    RunsKeepInv(states, steps, i);
    assert Taken(states[i], steps[i], states[i + 1]);
    SleeperFate(states[i], steps[i], p);
    FateIsEnd(states[i], states[i + 1], p);
  }

  lemma SleeperAtTrap(states: seq<K>, steps: seq<Step>, p: Pid, i: nat)
    requires IsRun(states, steps) && i < |states| && Known(states[i], p) && In(states[i], p, S.Sleeping)
    ensures SleepsAtCall(states[i], p) && GoodMemory(M(states[i], p)) && AtTrap(M(states[i], p))
  {
    hide IsRun, Inv, AtTrap, GoodMemory, Fits;
    RunsKeepInv(states, steps, i);
    SameCallAgain(states[i], p);
  }

  lemma FateIsEnd(k: K, k': K, p: Pid)
    requires Known(k, p) && In(k, p, S.Sleeping) && Fate(k, k', p) && !In(k', p, S.Sleeping)
    ensures Known(k', p) && exists e :: EndsAs(k', p, k.u[p].task, e)
  {
    hide G.Deliver, Interrupted;
    var t, t' := k.u[p].task, k'.u[p].task;
    if In(k', p, S.Zombie) { assert EndsAs(k', p, t, Dead); }
    else if In(k', p, S.Stopped) { assert EndsAs(k', p, t, HeldUp); }
    else if t' == t { assert EndsAs(k', p, t, CalledAgain); }
    else if t' == Interrupted(t) { assert EndsAs(k', p, t, Failed); }
    else { assert EndsAs(k', p, t, Handled); }
  }

  // ---- The call again ----------------------------------------------------------------------

  /** A call: where its trap is, its number and its arguments. */
  datatype Call = Call(eip: int, nr: Word, a: Word, b: Word, c: Word)

  function CallOf(m: Machine): Call {
    Call(m.eip, m.regs[EAX], m.regs[EBX], m.regs[ECX], m.regs[EDX])
  }

  /** Until p takes a step itself, only handlers entered can change its user state. */
  lemma {:induction false} IdleKeeps(states: seq<K>, steps: seq<Step>, p: Pid, i: nat, j: nat)
    requires IsRun(states, steps) && i <= j < |states| && Awake(states[i], p)
    requires (forall x :: i <= x <= j ==> p in states[x].u) && (forall x :: i <= x < j ==> !OwnStep(steps[x], p))
    ensures Awake(states[j], p) && |states[j].u[p].task.frames| >= |states[i].u[p].task.frames|
    ensures |states[j].u[p].task.frames| == |states[i].u[p].task.frames| ==> states[j].u[p].task == states[i].u[p].task
    decreases j
  {
    hide Inv, Enabled, Next, Boot, Delivers;
    if i < j {
      IdleKeeps(states, steps, p, i, j - 1);
      RunsKeepInv(states, steps, j - 1);
      assert Taken(states[j - 1], steps[j - 1], states[j]);
      IdleStep(states[j - 1], steps[j - 1], p);
      var t, t' := states[j - 1].u[p].task, states[j].u[p].task;
      if Delivers(t, t') { DeliveryAddsFrame(t, t'); }
    }
  }

  lemma IdleStep(k: K, ev: Step, p: Pid)
    requires Inv(k) && Enabled(k, ev) && Awake(k, p) && !OwnStep(ev, p) && p in Next(k, ev).u
    ensures var k' := Next(k, ev);
      Awake(k', p) && (k'.u[p].task == k.u[p].task || Delivers(k.u[p].task, k'.u[p].task))
  {
    hide Inv, Enabled, Next, Domains, D.Exact, G.Deliver, DeliverOne, Delivers;
    if ev == Delivered(p) {
      KnownMemory(k);
      OwnDelivery(k, p);
      DeliveredIs(k, p);
    } else {
      AwakeKept(k, ev, p);
    }
  }

  /** A process at its trap can take no step but the trap. */
  lemma OnlyTrap(k: K, ev: Step, p: Pid)
    requires Inv(k) && Enabled(k, ev) && OwnStep(ev, p) && Known(k, p) && M(k, p).mem.Valid() && M(k, p).mem.Disjoint()
    requires AtTrap(M(k, p))
    ensures ev.Trapped?
  {
    hide Inv, Decode, GoodEnv, GoodMachine, G.SigReturn, S.Runnable;
    L.BytesAreTrap(M(k, p).mem, M(k, p).eip);
  }

  /** A process awake at its call makes that very call when it next runs, unless a handler comes first: same
      place, same number, same arguments. This covers a sleeper woken, and one back from a handler. */
  lemma CallsAgain(states: seq<K>, steps: seq<Step>, p: Pid, i: nat, j: nat)
    requires IsRun(states, steps) && i <= j < |steps| && Awake(states[i], p)
    requires (forall x :: i <= x <= j ==> p in states[x].u) && (forall x :: i <= x < j ==> !OwnStep(steps[x], p))
    requires OwnStep(steps[j], p) && GoodMemory(M(states[i], p)) && AtTrap(M(states[i], p))
    requires |states[j].u[p].task.frames| == |states[i].u[p].task.frames|
    ensures steps[j].Trapped? && M(states[j], p) == M(states[i], p) && CallOf(M(states[j], p)) == CallOf(M(states[i], p))
  {
    hide Inv, Enabled, Next, Boot, AtTrap, Awake;
    IdleKeeps(states, steps, p, i, j);
    RunsKeepInv(states, steps, j);
    assert Taken(states[j], steps[j], states[j + 1]);
    AwakeKnown(states[j], p);
    OnlyTrap(states[j], steps[j], p);
  }

  lemma AwakeKnown(k: K, p: Pid)
    requires Awake(k, p)
    ensures Known(k, p)
  {
  }

  // ---- Through the handlers ----------------------------------------------------------------------

  /** The signal whose handler has been entered. */
  ghost function TheSignal(t: G.Task, t': G.Task): (sig: nat)
    requires Delivers(t, t')
    ensures 1 <= sig <= 32 && t.m.mem.Valid() && G.Deliver(t, sig) == Some(t')
  {
    var sig :| 1 <= sig <= 32 && t.m.mem.Valid() && G.Deliver(t, sig) == Some(t');
    sig
  }

  /** p's frames after one more step. */
  ghost function StackAfter(t: G.Task, t': G.Task, stack: seq<G.Frame>): seq<G.Frame> {
    if Delivers(t, t') then stack + [G.Frame(t, TheSignal(t, t'), R(t'.m, ESP) + 4)]
    else if |t'.frames| < |t.frames| && |stack| > 0 then stack[..|stack| - 1]
    else stack
  }

  /** p exists from state i to state j. */
  ghost predicate Lives(states: seq<K>, p: Pid, i: nat, j: nat) {
    i <= j < |states| && forall x :: i <= x <= j ==> p in states[x].u
  }

  /** The frames on p's stack in state x, those in state i being known. */
  ghost function Stack(states: seq<K>, p: Pid, base: seq<G.Frame>, i: nat, x: nat): seq<G.Frame>
    requires Lives(states, p, i, x)
    decreases x
  {
    if x == i then base
    else StackAfter(states[x - 1].u[p].task, states[x].u[p].task, Stack(states, p, base, i, x - 1))
  }

  /** What handlers are asked to do: leave the frames below them alone, return where they were entered,
      take signals on a stack that is at or below their frame, and do without restorers and execve.
      Nothing is asked of the steps of others. */
  ghost predicate Considerate(t: G.Task, ev: Step, t': G.Task, p: Pid, stack: seq<G.Frame>)
    requires t.m.mem.Valid() && t'.m.mem.Valid()
  {
    if Delivers(t, t') then
      && t.actions[TheSignal(t, t')].restorer == 0
      && (|stack| > 0 ==> R(t.m, ESP) <= stack[|stack| - 1].sp)
    else if ev == Returned(p) then |stack| > 0 && R(t.m, ESP) == stack[|stack| - 1].sp
    else
      OwnStep(ev, p) ==>
      && t'.frames == t.frames
      && forall i :: 0 <= i < |stack| && G.Intact(t.m.mem, stack[i]) ==> G.Intact(t'.m.mem, stack[i])
  }

  /** Seen from p alone, a considerate step of the kernel is a step of a process with signals. */
  lemma ConsiderateNext(k: K, ev: Step, p: Pid, stack: seq<G.Frame>)
    requires Inv(k) && Enabled(k, ev) && AllProper(k) && AllProper(Next(k, ev)) && Known(k, p) && p in Next(k, ev).u
    requires |stack| == |k.u[p].task.frames|
    requires Considerate(k.u[p].task, ev, Next(k, ev).u[p].task, p, stack)
    ensures var t, t' := k.u[p].task, Next(k, ev).u[p].task;
      G.Next(G.Config(t, stack), G.Config(t', StackAfter(t, t', stack)))
  {
    hide Inv, Enabled, Next, G.Deliver, G.Proper, G.SigReturn, G.Intact, Delivers;
    var t, t' := k.u[p].task, Next(k, ev).u[p].task;
    var c, c' := G.Config(t, stack), G.Config(t', StackAfter(t, t', stack));
    if Delivers(t, t') {
      assert G.DeliverStep(c, c', TheSignal(t, t'));
    } else if ev == Returned(p) {
      ReturnedIs(k, p);
      assert G.ReturnStep(c, c');
    } else {
      ProperTask(k, p);
      ProperTask(Next(k, ev), p);
      if !OwnStep(ev, p) {
        OtherStep(k, ev, p);
        IdleSame(t, t');
      }
      SameStack(t, t', stack);
      assert G.UserStep(c, c');
    }
  }

  lemma ProperTask(k: K, p: Pid)
    requires AllProper(k) && p in k.u
    ensures G.Proper(k.u[p].task) && k.u[p].task.m.mem.Valid()
  {
  }

  lemma SameStack(t: G.Task, t': G.Task, stack: seq<G.Frame>)
    requires !Delivers(t, t') && t'.frames == t.frames
    ensures StackAfter(t, t', stack) == stack
  {
    hide Delivers;
  }

  lemma IdleSame(t: G.Task, t': G.Task)
    requires t' == t || t' == Interrupted(t)
    ensures t'.frames == t.frames && t'.m.mem == t.m.mem
  {
  }

  lemma ReturnedIs(k: K, p: Pid)
    requires Inv(k) && Enabled(k, Returned(p)) && p in Next(k, Returned(p)).u && |k.u[p].task.frames| > 0
    ensures M(k, p).mem.Valid() && G.SigReturn(k.u[p].task) == Some(Next(k, Returned(p)).u[p].task)
    ensures M(k, p).eip >= I.MAGIC_EIP_BASE && |Next(k, Returned(p)).u[p].task.frames| < |k.u[p].task.frames|
    ensures Known(k, p) && In(k, p, S.Running) && Awake(Next(k, Returned(p)), p)
  {
    hide Inv, G.PopContext, G.PopMask;
    KnownMemory(k);
  }

  /** Every step of p, and of everything else as far as it concerns p, is considerate. */
  ghost predicate AllConsiderate(states: seq<K>, steps: seq<Step>, p: Pid, base: seq<G.Frame>, i: nat, j: nat)
    requires Lives(states, p, i, j) && j <= |steps|
  {
    forall x :: i <= x < j ==> ConsiderateAt(states, steps, p, base, i, x)
  }

  ghost predicate ConsiderateAt(states: seq<K>, steps: seq<Step>, p: Pid, base: seq<G.Frame>, i: nat, x: nat)
    requires Lives(states, p, i, x + 1) && i <= x < |steps|
  {
    && M(states[x], p).mem.Valid() && M(states[x + 1], p).mem.Valid()
    && Considerate(states[x].u[p].task, steps[x], states[x + 1].u[p].task, p, Stack(states, p, base, i, x))
  }

  /** A run in which p lives and is considerate from state i, where its frames are in order, to state j. */
  ghost predicate Followed(states: seq<K>, steps: seq<Step>, p: Pid, base: seq<G.Frame>, i: nat, j: nat) {
    && IsRun(states, steps) && Lives(states, p, i, j) && j <= |steps|
    && AllConsiderate(states, steps, p, base, i, j) && G.Nested(At(states, p, base, i, i))
  }

  ghost function At(states: seq<K>, p: Pid, base: seq<G.Frame>, i: nat, x: nat): G.Config
    requires Lives(states, p, i, x)
  {
    G.Config(states[x].u[p].task, Stack(states, p, base, i, x))
  }

  /** p's life from state i to state x, as a run of a process with signals. */
  ghost function Life(states: seq<K>, p: Pid, base: seq<G.Frame>, i: nat, x: nat): (run: seq<G.Config>)
    requires Lives(states, p, i, x)
  {
    seq(x - i + 1, y requires 0 <= y <= x - i => At(states, p, base, i, i + y))
  }

  /** All of p's frames are in order all the time. */
  lemma {:induction false} NestedLife(states: seq<K>, steps: seq<Step>, p: Pid, base: seq<G.Frame>, i: nat, x: nat)
    requires Followed(states, steps, p, base, i, x)
    ensures G.Nested(At(states, p, base, i, x)) && |Stack(states, p, base, i, x)| == |states[x].u[p].task.frames|
    ensures i < x ==> M(states[x - 1], p).mem.Valid() && G.Next(At(states, p, base, i, x - 1), At(states, p, base, i, x))
    decreases x
  {
    hide IsRun, G.GoodFrame, G.Proper, G.Next, ConsiderateAt, Stack;
    if i < x {
      assert ConsiderateAt(states, steps, p, base, i, x - 1);
      NestedLife(states, steps, p, base, i, x - 1);
      LifeStep(states, steps, p, base, i, x);
      G.NextKeepsNesting(At(states, p, base, i, x - 1), At(states, p, base, i, x));
    }
  }

  lemma LifeIsRun(states: seq<K>, steps: seq<Step>, p: Pid, base: seq<G.Frame>, i: nat, x: nat)
    requires Followed(states, steps, p, base, i, x)
    ensures G.IsRun(Life(states, p, base, i, x))
  {
    hide IsRun, G.Nested, G.Next, ConsiderateAt, Stack;
    var run := Life(states, p, base, i, x);
    forall y | 0 <= y < |run| - 1 ensures run[y].t.m.mem.Valid() && G.Next(run[y], run[y + 1]) {
      NestedLife(states, steps, p, base, i, i + y + 1);
    }
  }

  lemma LifeStep(states: seq<K>, steps: seq<Step>, p: Pid, base: seq<G.Frame>, i: nat, x: nat)
    requires IsRun(states, steps) && i < x <= |steps| && Lives(states, p, i, x) && ConsiderateAt(states, steps, p, base, i, x - 1)
    requires |Stack(states, p, base, i, x - 1)| == |states[x - 1].u[p].task.frames|
    ensures M(states[x - 1], p).mem.Valid() && G.Next(At(states, p, base, i, x - 1), At(states, p, base, i, x))
  {
    hide Inv, Enabled, Next, Boot, Considerate, StackAfter, AllProper, G.Next;
    RunsKeepInv(states, steps, x - 1);
    RunsKeepProper(states, steps, x - 1);
    RunsKeepProper(states, steps, x);
    assert Taken(states[x - 1], steps[x - 1], states[x]);
    DomainKnown(states[x - 1], p);
    ConsiderateNext(states[x - 1], steps[x - 1], p, Stack(states, p, base, i, x - 1));
  }

  lemma DomainKnown(k: K, p: Pid)
    requires Inv(k) && p in k.u
    ensures Known(k, p)
  {
    hide D.Exact;
  }

  /** p was in state i, and is back in state j, outside the handler entered by the step from i. */
  ghost predicate BackFrom(states: seq<K>, p: Pid, i: nat, j: nat)
    requires Lives(states, p, i, j)
  {
    && i < j && Delivers(states[i].u[p].task, states[i + 1].u[p].task)
    && (forall x :: i < x < j ==> |states[x].u[p].task.frames| > |states[i].u[p].task.frames|)
    && |states[j].u[p].task.frames| == |states[i].u[p].task.frames|
  }

  /** However deep the signals that arrive in it nest, the handler's end gives p back the registers, flags
      and place its delivery saved, and the memory and other registers the handlers left. It stands at the
      interrupted call again, number and arguments alike, if and only if the handlers kept ebx, which no
      frame saves. */
  lemma HandlerReturns(states: seq<K>, steps: seq<Step>, p: Pid, base: seq<G.Frame>, i: nat, j: nat)
    requires Followed(states, steps, p, base, i, j) && BackFrom(states, p, i, j)
    ensures var t, t' := states[i].u[p].task, states[j].u[p].task;
      && G.Restores(t, t', !G.NoMask(t.actions[TheSignal(t, states[i + 1].u[p].task)]))
      && G.LeavesRest(M(states[j - 1], p), t'.m)
      && (CallOf(t'.m) == CallOf(t.m) <==> M(states[j - 1], p).regs[EBX] == t.m.regs[EBX])
  {
    hide Followed, G.NoMask, Delivers, TheSignal;
    Unwinds(states, steps, p, base, i, j);
  }

  lemma Unwinds(states: seq<K>, steps: seq<Step>, p: Pid, base: seq<G.Frame>, i: nat, j: nat)
    requires Followed(states, steps, p, base, i, j) && BackFrom(states, p, i, j)
    ensures var t, t' := states[i].u[p].task, states[j].u[p].task;
      && G.Restores(t, t', !G.NoMask(t.actions[TheSignal(t, states[i + 1].u[p].task)]))
      && G.LeavesRest(M(states[j - 1], p), t'.m)
  {
    hide Followed, BackFrom, Lives, Life, G.IsRun, G.DeliverStep, Delivers, G.NoMask, G.Restores, G.LeavesRest;
    LifeEnds(states, steps, p, base, i, j);
    LifeIsRun(states, steps, p, base, i, j);
    LifeDelivers(states, steps, p, base, i, j);
    LifeDeep(states, steps, p, base, i, j);
    WholeLifeUnwinds(Life(states, p, base, i, j), j - i, TheSignal(states[i].u[p].task, states[i + 1].u[p].task));
  }

  lemma LifeEnds(states: seq<K>, steps: seq<Step>, p: Pid, base: seq<G.Frame>, i: nat, j: nat)
    requires Followed(states, steps, p, base, i, j) && BackFrom(states, p, i, j)
    ensures Lives(states, p, i, j) && i < j < |states| && p in states[i].u && p in states[i + 1].u && p in states[j - 1].u && p in states[j].u
    ensures Delivers(states[i].u[p].task, states[i + 1].u[p].task)
    ensures var run := Life(states, p, base, i, j);
      && |run| == j - i + 1 && run[0].t == states[i].u[p].task
      && run[j - i].t == states[j].u[p].task && run[j - i - 1].t == states[j - 1].u[p].task
  {
    hide IsRun, AllConsiderate, G.Nested, Delivers, Life, Stack;
    LifeAt(states, p, base, i, j, 0);
    LifeAt(states, p, base, i, j, j - i);
    LifeAt(states, p, base, i, j, j - i - 1);
  }

  lemma WholeLifeUnwinds(run: seq<G.Config>, n: nat, sig: nat)
    requires G.IsRun(run) && |run| == n + 1 && n > 1 && run[0].t.m.mem.Valid() && G.DeliverStep(run[0], run[1], sig)
    requires (forall y :: 0 < y < n ==> |run[y].stack| > |run[0].stack|) && |run[n].stack| == |run[0].stack|
    ensures sig < 33 && G.Restores(run[0].t, run[n].t, !G.NoMask(run[0].t.actions[sig]))
    ensures G.LeavesRest(run[n - 1].t.m, run[n].t.m)
  {
    hide G.IsRun, G.Restores, G.Deliver, G.LeavesRest, G.NoMask;
    G.SignalsUnwind(run, 0, n, sig);
  }

  lemma LifeAt(states: seq<K>, p: Pid, base: seq<G.Frame>, i: nat, x: nat, y: nat)
    requires Lives(states, p, i, x) && i + y <= x
    ensures |Life(states, p, base, i, x)| == x - i + 1
    ensures Life(states, p, base, i, x)[y] == At(states, p, base, i, i + y)
  {
    hide Stack;
  }

  lemma LifeDelivers(states: seq<K>, steps: seq<Step>, p: Pid, base: seq<G.Frame>, i: nat, j: nat)
    requires Followed(states, steps, p, base, i, j) && BackFrom(states, p, i, j)
    ensures 1 < j - i
    ensures var run := Life(states, p, base, i, j);
      && |run| == j - i + 1 && run[0].t.m.mem.Valid()
      && G.DeliverStep(run[0], run[1], TheSignal(states[i].u[p].task, states[i + 1].u[p].task))
  {
    hide IsRun, G.Nested, G.DeliverStep, ConsiderateAt, Delivers, Stack, Life;
    assert ConsiderateAt(states, steps, p, base, i, i);
    FirstDelivers(states, steps, p, base, i);
    DeliveryAddsFrame(states[i].u[p].task, states[i + 1].u[p].task);
    LifeAt(states, p, base, i, j, 0);
    LifeAt(states, p, base, i, j, 1);
  }

  lemma LifeDeep(states: seq<K>, steps: seq<Step>, p: Pid, base: seq<G.Frame>, i: nat, j: nat)
    requires Followed(states, steps, p, base, i, j) && BackFrom(states, p, i, j)
    ensures var run := Life(states, p, base, i, j);
      && |run| == j - i + 1
      && (forall y :: 0 < y < j - i ==> |run[y].stack| > |run[0].stack|) && |run[j - i].stack| == |run[0].stack|
  {
    hide IsRun, G.Nested, ConsiderateAt, Delivers, Stack, Life;
    var run := Life(states, p, base, i, j);
    LifeAt(states, p, base, i, j, 0);
    forall y | 0 <= y <= j - i ensures |run[y].stack| == |states[i + y].u[p].task.frames| {
      NestedLife(states, steps, p, base, i, i + y);
      LifeAt(states, p, base, i, j, y);
    }
  }

  lemma FirstDelivers(states: seq<K>, steps: seq<Step>, p: Pid, base: seq<G.Frame>, i: nat)
    requires Lives(states, p, i, i + 1) && i < |steps| && ConsiderateAt(states, steps, p, base, i, i)
    requires Delivers(states[i].u[p].task, states[i + 1].u[p].task)
    ensures M(states[i], p).mem.Valid()
    ensures G.DeliverStep(At(states, p, base, i, i), At(states, p, base, i, i + 1),
                          TheSignal(states[i].u[p].task, states[i + 1].u[p].task))
  {
    hide Delivers, G.Deliver;
  }

  /** A process back from the handlers is awake. */
  lemma BackAwake(states: seq<K>, steps: seq<Step>, p: Pid, i: nat, j: nat, base: seq<G.Frame>)
    requires Followed(states, steps, p, base, i, j) && BackFrom(states, p, i, j)
    ensures Awake(states[j], p) && GoodMemory(M(states[j], p))
  {
    hide Inv, Enabled, Next, Boot, G.Nested, Considerate, Stack, Delivers, AllProper;
    RunsKeepInv(states, steps, j - 1);
    RunsKeepProper(states, steps, j);
    assert Taken(states[j - 1], steps[j - 1], states[j]);
    DomainKnown(states[j - 1], p);
    var t, t' := states[j - 1].u[p].task, states[j].u[p].task;
    if j - 1 == i { DeliveryAddsFrame(t, t'); assert false; }
    assert ConsiderateAt(states, steps, p, base, i, j - 1);
    ShrinksByReturn(states[j - 1], steps[j - 1], p, Stack(states, p, base, i, j - 1));
    ProperTask(states[j], p);
    ProperMemory(t');
  }

  lemma ShrinksByReturn(k: K, ev: Step, p: Pid, stack: seq<G.Frame>)
    requires Inv(k) && Enabled(k, ev) && Known(k, p) && p in Next(k, ev).u
    requires M(k, p).mem.Valid() && M(Next(k, ev), p).mem.Valid()
    requires Considerate(k.u[p].task, ev, Next(k, ev).u[p].task, p, stack)
    requires |Next(k, ev).u[p].task.frames| < |k.u[p].task.frames|
    ensures ev == Returned(p) && Awake(Next(k, ev), p)
  {
    hide Inv, Enabled, Next, Delivers, Awake, G.Intact;
    var t, t' := k.u[p].task, Next(k, ev).u[p].task;
    if Delivers(t, t') { DeliveryAddsFrame(t, t'); }
    if !OwnStep(ev, p) {
      OtherStep(k, ev, p);
      if !Delivers(t, t') { IdleSame(t, t'); }
    }
    ReturnedIs(k, p);
  }

  /** A sleeper whose sleep ended in a handler: back from it, with its trap still in memory, it makes a call
      when it next runs, and this is the very call it slept in if and only if the handlers kept ebx. */
  lemma HandledCallsAgain(states: seq<K>, steps: seq<Step>, p: Pid, base: seq<G.Frame>, i: nat, j: nat, l: nat)
    requires Followed(states, steps, p, base, i, j) && BackFrom(states, p, i, j)
    requires Lives(states, p, j, l) && l < |steps|
    requires In(states[i], p, S.Sleeping) && M(states[j], p).mem.Valid() && AtTrap(M(states[j], p))
    requires (forall x :: j <= x < l ==> !OwnStep(steps[x], p)) && OwnStep(steps[l], p)
    requires |states[l].u[p].task.frames| == |states[j].u[p].task.frames|
    ensures steps[l].Trapped? && M(states[l], p) == M(states[j], p)
    ensures CallOf(M(states[l], p)) == CallOf(M(states[i], p)) <==> M(states[j - 1], p).regs[EBX] == M(states[i], p).regs[EBX]
  {
    hide IsRun, BackFrom, G.Nested, AtTrap, GoodMemory, Awake, Stack, Delivers, G.NoMask, G.Restores;
    BackMeans(states, p, i, j);
    HandlerReturns(states, steps, p, base, i, j);
    BackAwake(states, steps, p, i, j, base);
    CallsAgain(states, steps, p, j, l);
  }

  lemma BackMeans(states: seq<K>, p: Pid, i: nat, j: nat)
    requires Lives(states, p, i, j) && BackFrom(states, p, i, j)
    ensures i < j && Delivers(states[i].u[p].task, states[i + 1].u[p].task)
  {
  }

  // ---- Dispositions -----------------------------------------------------------------------------

  lemma WordStored(m: Machine, addr: int, v: Word)
    requires GoodMemory(m) && WriteMem(m, addr, 4, v).Ok?
    ensures var m' := WriteMem(m, addr, 4, v).m;
      && GoodMemory(m') && m'.mem.Load(addr, 4) == Some(v)
      && forall b :: m.mem.Load(b, 4).Some? && (b + 4 <= addr || addr + 4 <= b) ==> m'.mem.Load(b, 4) == m.mem.Load(b, 4)
  {
    hide Bytes, Image.Load, Image.TouchesText, Image.Write;
    StoredWord(m, addr, v);
    LoadAfterStore(m.mem, addr, 4, v);
    forall b | m.mem.Load(b, 4).Some? && (b + 4 <= addr || addr + 4 <= b)
      ensures WriteMem(m, addr, 4, v).m.mem.Load(b, 4) == m.mem.Load(b, 4)
    {
      G.StoreKeepsLoad(m.mem, addr, v, b);
    }
  }

  /** A disposition stored is the disposition loaded. */
  lemma ActionRoundTrip(m: Machine, addr: int, a: G.Action)
    requires GoodMemory(m) && StoreAction(m, addr, a).Ok?
    ensures LoadAction(StoreAction(m, addr, a).m.mem, addr) == Some(a)
  {
    hide WriteMem, Image.Load;
    WordStored(m, addr, a.handler);
    var m1 := WriteMem(m, addr, 4, a.handler).m;
    WordStored(m1, addr + 4, a.mask);
    var m2 := WriteMem(m1, addr + 4, 4, a.mask).m;
    WordStored(m2, addr + 8, a.flags);
    WordStored(WriteMem(m2, addr + 8, 4, a.flags).m, addr + 12, a.restorer);
  }

  /** The old disposition that sigaction hands out is the one that, handed in later, is in force again. */
  lemma SigactionRestores(k: K, p: Pid, k': K)
    requires CanCall(k, p) && GoodMemory(M(k, p)) && Changeable(M(k, p).regs[EBX]) && M(k, p).regs[EDX] != 0
    requires SigactionCall(k, p).ret == 0
    requires CanCall(k', p) && M(k', p).regs[EBX] == M(k, p).regs[EBX] && M(k', p).regs[EDX] == 0
    requires M(k', p).mem == M(SigactionCall(k, p).k, p).mem && M(k', p).regs[ECX] == M(k, p).regs[EDX]
    ensures var o := SigactionCall(k', p);
      o.ret == 0 && o.k.u[p].task.actions[M(k, p).regs[EBX]] == k.u[p].task.actions[M(k, p).regs[EBX]]
  {
    hide D.Exact, Domains, StoreAction, LoadAction, GoodMemory;
    var m := M(k, p);
    ActionRoundTrip(m, m.regs[EDX], k.u[p].task.actions[m.regs[EBX]]);
  }

  /** signal hands out a handler only: handing it in again gives back the old disposition if and only if
      that was a one-shot, unmasked one without a mask and with the restorer now passed. */
  lemma SignalRestores(k: K, p: Pid, k': K)
    requires CanCall(k, p) && Changeable(M(k, p).regs[EBX]) && CanCall(k', p)
    requires M(k', p).regs[EBX] == M(k, p).regs[EBX] && M(k', p).regs[ECX] == SignalCall(k, p).ret
    ensures var a := k.u[p].task.actions[M(k, p).regs[EBX]];
      SignalCall(k', p).k.u[p].task.actions[M(k, p).regs[EBX]] == a
      <==> a.mask == 0 && a.flags == 0xC000_0000 && a.restorer == M(k', p).regs[EDX]
  {
    hide D.Exact, Domains;
  }
}
