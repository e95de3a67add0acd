/** Runs of one process: frames are isolated from what runs above them, and non-local returns find their home. */
module FrameRuns {
  import opened ObjectMemory
  import opened Options
  import opened Frames
  import opened Activations
  import opened Unwinder
  import opened UnwindRuns

  // ---------- the steps of a process ----------

  datatype Op =
    | Push(callee: Addr, r: nat, dest: nat, argc: nat, failure: Option<int>, asBlock: bool)
    | Ret(value: Value)
    | PutSlot(k: nat, value: Value)
    | NewClosure(a: Addr, block: Addr, hasNlr: bool, d: nat)
    | Nlr(slot: nat)
    | UnwindTo(offset: nat, serial: int, value: Value)
    | SetState(offset: nat, state: int)
    | Others(objects: set<Addr>, closures: map<Addr, Closure>)

  predicate UnwindLive(m: Machine, offset: nat, serial: int) {
    offset <= m.frame && m.At(offset + FRAME_FLAGS).Int? && m.Serial(offset) == serial
  }

  predicate EnclosingKnown(m: Machine) {
    m.Get(0).Ptr? && m.Get(0).addr in m.closures
  }

  /** What a step does. A dead home pops the block's frame; an unwind to a dead target fails without effect. */
  function Do(m: Machine, op: Op): Outcome
    requires op.Push? ==> op.callee in m.methods
    requires op.NewClosure? ==> EnclosingKnown(m) || !m.Flag(m.frame, FLAG_BLOCKCTX) || !op.hasNlr
    requires op.Nlr? ==> EnclosingKnown(m)
  {
    match op
    case Push(callee, r, dest, argc, failure, asBlock) => PushFrame(m, callee, r, dest, argc, failure, asBlock, false)
    case Ret(value) => Return(m, value)
    case PutSlot(k, value) => Running(m.Put(k, value))
    case NewClosure(a, block, hasNlr, d) => Running(MakeClosure(m, a, block, hasNlr, d))
    case Nlr(slot) =>
      var o := NonLocalReturn(m, slot);
      if o.CannotReturn? then Running(o.m) else o
    case UnwindTo(offset, serial, value) => if UnwindLive(m, offset, serial) then Unwind(m, offset, value) else Running(m)
    case SetState(offset, state) =>
      if m.At(offset + FRAME_FLAGS).Int? && m.Flag(offset, FLAG_HANDLER)
      then Running(m.(stack := Set(m.stack, offset + FRAME_RECEIVER + m.Info(offset).handlerBase + HANDLER_SLOT_STATE, Int(state))))
      else Running(m)
    case Others(objects, closures) => Running(m.(objects := m.objects + objects, closures := m.closures + closures))
  }

  /** What compiled code and the image see to: operands are valid values, slots lie inside the frame, offsets handed to the
      primitives are those of frames on the stack. A non-local return comes within the window of serials after its home was
      made, and no stray word stands where the home's flags were. */
  ghost predicate CanDo(m: Machine, h: History, op: Op) {
    match op
    case Push(callee, r, dest, _, _, _) => CanPush(m, callee, r, dest) && dest < m.Info(m.frame).frameSlots
    case Ret(value) => m.Valid(value)
    case PutSlot(k, value) => m.Valid(value) && k < m.Info(m.frame).frameSlots
    case NewClosure(a, _, hasNlr, d) =>
      a !in m.objects && d < m.Info(m.frame).frameSlots && (EnclosingKnown(m) || !m.Flag(m.frame, FLAG_BLOCKCTX) || !hasNlr)
    case Nlr(_) =>
      EnclosingKnown(m) && InWindow(m, h, m.Get(0).addr) && !Strays(m, h, m.closures[m.Get(0).addr])
    case UnwindTo(offset, _, value) => m.Valid(value) && offset in h.bases
    case SetState(offset, _) => exists i :: 0 <= i < |h.bases| && h.bases[i] == offset && m.Info(offset).isHandler
    case Others(objects, closures) =>
      && closures.Keys !! m.objects && closures.Keys <= objects
      && forall a :: a in closures ==> closures[a].homeProcess != m.process
  }

  /** The home activation of the closure at `a` is on the stack. */
  ghost predicate HomeOnStack(h: History, a: Addr) {
    a in h.births && exists i :: 0 <= i < |h.ids| && h.ids[i] == h.births[a]
  }

  /** Fewer than 2^30 - 1 activations of this process since the home of the closure. */
  ghost predicate InWindow(m: Machine, h: History, a: Addr)
    requires a in m.closures
  {
    m.closures[a].homeProcess == m.process ==> a in h.births && h.pushes - h.births[a] < LAST_SERIAL
  }

  /** The home's offset is no frame base, and the word where its flags would be is a SmallInteger that carries its serial. */
  ghost predicate Strays(m: Machine, h: History, c: Closure) {
    && c.homeProcess == m.process && c.homeOffset.Int? && 0 <= c.homeOffset.n <= m.frame && c.homeOffset.n !in h.bases
    && m.At(c.homeOffset.n + FRAME_FLAGS).Int? && Int(m.Serial(c.homeOffset.n)) == c.homeSerial
  }

  ghost predicate StepBy(m: Machine, h: History, op: Op, m': Machine, h': History, k: nat) {
    CanDo(m, h, op) && Do(m, op) == Running(m') && Wf(m', h') && Keeps(m, h, m', h', k)
  }

  ghost predicate Step(m: Machine, h: History, m': Machine, h': History) {
    exists op, k :: StepBy(m, h, op, m', h', k)
  }

  // ---------- every step keeps the activations apart ----------

  /** The home of a new closure is this activation, or the enclosing closure's. */
  ghost function Born(m: Machine, h: History, op: Op): History
    requires op.NewClosure? && |h.ids| > 0
  {
    if m.Flag(m.frame, FLAG_BLOCKCTX)
    then if EnclosingKnown(m) && m.Get(0).addr in h.births then h.(births := h.births[op.a := h.births[m.Get(0).addr]]) else h
    else h.(births := h.births[op.a := h.ids[|h.ids| - 1]])
  }

  /** More objects and closures leave the frames alone. */
  lemma WorldGrows(m: Machine, h: History, m1: Machine, h1: History)
    requires Wf(m, h) && m1 == m.(objects := m1.objects, closures := m1.closures) && h1 == h.(births := h1.births)
    requires m.objects <= m1.objects && m1.closures.Keys <= m1.objects
    requires forall a :: a in m.closures ==> a in m1.closures && m1.closures[a] == m.closures[a]
    requires forall a :: a in m1.closures && a in m.objects ==> a in m.closures
    requires forall a :: a in h.births ==> a in h1.births && h1.births[a] == h.births[a]
    requires ClosuresOk(m1, h1)
    ensures Wf(m1, h1) && Keeps(m, h, m1, h1, |h.bases|)
  {
    hide ClosuresOk, StateWord, FrameOk, PendingOk;
    assert forall i :: m1.At(i) == m.At(i);
    assert Shape(h1) && m.Valid(m.At(-1));
    assert WordsOk(m1) by {
      forall i
        ensures m1.Valid(m1.At(i))
      {
        assert m.Valid(m.At(i));
      }
    }
    hide WordsOk, FramesOk;
    WfFrames(m, h);
    assert Keeps(m, h, m1, h1, |h.bases|);
    hide Keeps;
    FramesKept(m, h, m1, h1);
  }

  lemma ClosureKeeps(m: Machine, h: History, op: Op)
    requires Wf(m, h) && op.NewClosure? && CanDo(m, h, op)
    ensures var m' := MakeClosure(m, op.a, op.block, op.hasNlr, op.d);
      Wf(m', Born(m, h, op)) && Keeps(m, h, m', Born(m, h, op), |h.bases|)
  {
    hide Keeps, FramesOk, ClosuresOk, WordsOk, Born;
    WfFrames(m, h);
    var h' := Born(m, h, op);
    var m1 := MakeClosure(m, op.a, op.block, op.hasNlr, op.d).(stack := m.stack);
    NewHome(m, h, op);
    WorldGrows(m, h, m1, h');
    hide Wf;
    PutKeeps(m1, h', op.d, Ptr(op.a));
    assert m1.Put(op.d, Ptr(op.a)) == MakeClosure(m, op.a, op.block, op.hasNlr, op.d);
    KeepsTrans(m, h, m1, h', m1.Put(op.d, Ptr(op.a)), h', |h.bases|, |h.bases|);
  }

  lemma NewHome(m: Machine, h: History, op: Op)
    requires Wf(m, h) && op.NewClosure? && CanDo(m, h, op)
    ensures ClosuresOk(MakeClosure(m, op.a, op.block, op.hasNlr, op.d).(stack := m.stack), Born(m, h, op))
    ensures Born(m, h, op) == h.(births := Born(m, h, op).births)
    ensures forall a :: a in h.births ==> a in Born(m, h, op).births && Born(m, h, op).births[a] == h.births[a]
  {
    hide FramesOk, WordsOk, MethodsOk, FrameOk, SerialNo, HasFlag, HomeOk;
    TopSerial(m, h);
    WfFrames(m, h);
    HomeHere(m, h, op.block);
    if EnclosingKnown(m) && m.Get(0).addr in h.births {
      HomeCopied(h, m.closures[m.Get(0).addr], h.births[m.Get(0).addr], op.block);
    }
  }

  lemma HomeCopied(h: History, c: Closure, birth: nat, block: Addr)
    ensures HomeOk(h.bases, h.ids, h.pushes, c, birth) ==> HomeOk(h.bases, h.ids, h.pushes, c.(block := block), birth)
  {
  }

  /** A closure made in a method's own activation. */
  lemma HomeHere(m: Machine, h: History, block: Addr)
    requires Wf(m, h)
    ensures |h.ids| == |h.bases| > 0
    ensures HomeOk(h.bases, h.ids, h.pushes, Closure(block, m.process, Int(m.frame), Int(m.Serial(m.frame))), h.ids[|h.ids| - 1])
  {
    hide FramesOk, WordsOk, MethodsOk, FrameOk, SerialNo, ClosuresOk;
    TopSerial(m, h);
    WfFrames(m, h);
  }

  lemma TopSerial(m: Machine, h: History)
    requires Wf(m, h)
    ensures |h.ids| == |h.bases| > 0 && m.Serial(m.frame) == SerialNo(h.ids[|h.ids| - 1])
  {
    assert FrameOk(m, h, |h.bases| - 1);
  }

  /** The state word of a handler frame is changed, and nothing else. */
  lemma StateKeeps(m: Machine, h: History, i: nat, state: int)
    requires Wf(m, h) && i < |h.bases| && m.Info(h.bases[i]).isHandler
    ensures var a := h.bases[i] + FRAME_RECEIVER + m.Info(h.bases[i]).handlerBase + HANDLER_SLOT_STATE;
      var m' := m.(stack := Set(m.stack, a, Int(state)));
      Wf(m', h) && Keeps(m, h, m', h, |h.bases|)
  {
    hide FrameOk, PendingOk, ClosuresOk;
    var a := h.bases[i] + FRAME_RECEIVER + m.Info(h.bases[i]).handlerBase + HANDLER_SLOT_STATE;
    var m' := m.(stack := Set(m.stack, a, Int(state)));
    WfFrames(m, h);
    assert StateWord(m, h, a);
    assert WordsOk(m') by {
      forall j
        ensures m'.Valid(m'.At(j))
      {
        assert m.Valid(m.At(j));
      }
    }
    hide WordsOk, FramesOk, StateWord;
    assert Keeps(m, h, m', h, |h.bases|);
    hide Keeps;
    FramesKept(m, h, m', h);
    ClosuresKept(m, h, m', h, |h.bases|);
  }

  lemma OthersKeep(m: Machine, h: History, op: Op)
    requires Wf(m, h) && op.Others? && CanDo(m, h, op)
    ensures Wf(Do(m, op).m, h) && Keeps(m, h, Do(m, op).m, h, |h.bases|)
  {
    var m1 := Do(m, op).m;
    hide FramesOk, WordsOk, MethodsOk;
    WfFrames(m, h);
    assert ClosuresOk(m1, h);
    WorldGrows(m, h, m1, h);
  }

  /** For an offset that is the base of a frame on the stack, the test of the home's serial holds exactly when that frame
      is the home activation, as long as fewer than 2^30 - 1 activations have been made since. */
  lemma SerialTestIff(m: Machine, h: History, a: Addr, i: nat)
    requires Wf(m, h) && a in m.closures && m.closures[a].homeProcess == m.process
    requires i < |h.bases| && m.closures[a].homeOffset == Int(h.bases[i])
    requires a in h.births && h.pushes - h.births[a] < LAST_SERIAL
    ensures i < |h.ids| && (HomeAlive(m, m.closures[a]) <==> h.ids[i] == h.births[a])
  {
    assert FrameOk(m, h, i);
    assert h.births[a] <= h.ids[i] <= h.pushes;
    SerialDistinct(h.births[a], h.ids[i]);
    assert h.bases[i] <= h.Top();
  }

  /** Within the window and without a stray word, a home that passes the test is on the stack. */
  lemma AliveOnStack(m: Machine, h: History, a: Addr)
    requires Wf(m, h) && a in m.closures && InWindow(m, h, a) && !Strays(m, h, m.closures[a]) && HomeAlive(m, m.closures[a])
    ensures HomeOnStack(h, a)
  {
    hide Wf;
    var off := m.closures[a].homeOffset.n;
    var i :| 0 <= i < |h.bases| && h.bases[i] == off;
    SerialTestIff(m, h, a, i);
  }

  /** A dead home: the block's frame is popped; in a base frame that is fatal. A live one: the unwinder goes there. */
  lemma NlrKeeps(m: Machine, h: History, slot: nat) returns (h': History, k: nat)
    requires Wf(m, h) && CanDo(m, h, Nlr(slot))
    ensures Do(m, Nlr(slot)) == Failed(DeadHomeInBaseFrame) || Proceeds(m, h, Do(m, Nlr(slot)), h', k)
  {
    hide Wf, Keeps, FramesOk, Unwind, Pop;
    WfFrames(m, h);
    var c := m.closures[m.Get(0).addr];
    ValueValid(m, h, m.frame + FRAME_RECEIVER + slot);
    if HomeAlive(m, c) {
      AliveOnStack(m, h, m.Get(0).addr);
      var i :| 0 <= i < |h.ids| && h.ids[i] == h.births[m.Get(0).addr];
      HomeOffset(m, h, m.Get(0).addr, i);
      h', k := UnwindKeeps(m, h, i, m.Get(slot));
    } else if |h.bases| == 1 {
      BaseCaller(m, h);
      h', k := h, 1;
    } else {
      var n := |h.bases| - 1;
      h', k := h.Cut(n), n;
      PopKeeps(m, h);
      PcFree(m, h, Pop(m, h.bases[n - 1]), h', n, m.RetPc(m.frame));
    }
  }

  lemma ValueValid(m: Machine, h: History, i: int)
    requires Wf(m, h)
    ensures m.Valid(m.At(i))
  {
  }

  lemma HomeOffset(m: Machine, h: History, a: Addr, i: nat)
    requires Wf(m, h) && a in m.closures && m.closures[a].homeProcess == m.process
    requires i < |h.ids| && a in h.births && h.ids[i] == h.births[a]
    ensures i < |h.bases| && m.closures[a].homeOffset == Int(h.bases[i])
  {
  }

  /** Every step of a process either fails for want of stack, for an ensure block that takes arguments or for a dead home
      in a base frame, or keeps the frames well-formed and everything below the surviving ones as it was. */
  lemma StepKeeps(m: Machine, h: History, op: Op) returns (h': History, k: nat)
    requires Wf(m, h) && CanDo(m, h, op)
    ensures Do(m, op) == Failed(DeadHomeInBaseFrame) || Proceeds(m, h, Do(m, op), h', k)
  {
    hide Wf, Keeps, FramesOk, Unwind, Return, PushFrame, MakeClosure, NonLocalReturn, CanPush, Pushed, Born, SomePending;
    WfFrames(m, h);
    KeepsAll(m, h);
    h', k := h, |h.bases|;
    match op {
      case Push(callee, r, dest, argc, failure, asBlock) =>
        PushKeeps(m, h, callee, r, dest, argc, failure, asBlock, false);
        h' := h.Push(m.frame + r);
      case Ret(value) =>
        h', k := ReturnKeeps(m, h, value);
      case PutSlot(slot, value) =>
        PutKeeps(m, h, slot, value);
      case NewClosure(_, _, _, _) =>
        ClosureKeeps(m, h, op);
        h' := Born(m, h, op);
      case Nlr(slot) =>
        h', k := NlrKeeps(m, h, slot);
      case UnwindTo(offset, serial, value) =>
        if UnwindLive(m, offset, serial) {
          var t :| 0 <= t < |h.bases| && h.bases[t] == offset;
          h', k := UnwindKeeps(m, h, t, value);
        }
      case SetState(offset, state) =>
        var i :| 0 <= i < |h.bases| && h.bases[i] == offset && m.Info(offset).isHandler;
        StateKeeps(m, h, i, state);
      case Others(_, _) =>
        OthersKeep(m, h, op);
    }
  }

  // ---------- isolation over runs ----------

  /** A run of `n` steps during which the activation at index `i` stays on the stack. */
  ghost predicate RunAbove(m: Machine, h: History, m': Machine, h': History, i: nat, n: nat)
    decreases n
  {
    && i < |h.ids| && i < |h'.ids| && h'.ids[i] == h.ids[i]
    && if n == 0 then m' == m && h' == h
       else exists m1, h1 :: RunAbove(m, h, m1, h1, i, n - 1) && Step(m1, h1, m', h')
  }

  /** From when an activation is on the stack until it leaves, no step changes a word below its slots, but for the states
      of handler frames; the activations below it stay. */
  lemma {:induction false} FramesIsolated(m: Machine, h: History, m': Machine, h': History, i: nat, n: nat) returns (k: nat)
    requires Wf(m, h) && RunAbove(m, h, m', h', i, n)
    ensures Wf(m', h') && k > i && Keeps(m, h, m', h', k)
    decreases n
  {
    hide Wf, Keeps, FramesOk, CanDo, Do;
    WfFrames(m, h);
    if n == 0 {
      KeepsAll(m, h);
      k := |h.bases|;
    } else {
      var m1, h1 :| RunAbove(m, h, m1, h1, i, n - 1) && Step(m1, h1, m', h');
      var k1 := FramesIsolated(m, h, m1, h1, i, n - 1);
      var op, k2 :| StepBy(m1, h1, op, m', h', k2);
      SurvivorKept(m1, h1, m', h', k2, i);
      KeepsTrans(m, h, m1, h1, m', h', k1, k2);
      k := if k1 <= k2 then k1 else k2;
    }
  }

  /** An activation that is still there is among those the step kept. */
  lemma SurvivorKept(m: Machine, h: History, m': Machine, h': History, k: nat, i: nat)
    requires Wf(m, h) && Keeps(m, h, m', h', k) && i < |h.ids| && i < |h'.ids| && h'.ids[i] == h.ids[i]
    ensures i < k
  {
  }

  /** A run of steps that starts at an activation, never leaves it and ends with it on top is a run of a block in the sense
      of a whole unwind. */
  lemma StepsRan(m: Machine, h: History, m': Machine, h': History, n: nat)
    requires Wf(m, h) && |h.bases| > 0 && RunAbove(m, h, m', h', |h.bases| - 1, n) && |h'.bases| == |h.bases|
    ensures Ran(m, h, m', h')
  {
    hide Wf, FramesOk, RunAbove;
    var k := FramesIsolated(m, h, m', h', |h.bases| - 1, n);
    assert h.bases[..k] == h.bases && h'.bases[..k] == h'.bases;
    WfFrames(m', h');
    assert h.ids[..k] == h.ids && h'.ids[..k] == h'.ids;
  }

  /** An unwind that stops at an armed frame and activates its block, followed by steps of the process until the block's
      activation is on top again and about to return, is one round of a whole unwind. */
  lemma StepsRound(m: Machine, h: History, t: nat, value: Value, k: nat, m1: Machine, m2: Machine, h2: History, n: nat)
    requires Wf(m, h) && t < |h.bases| && m.Valid(value) && Scan(m, h.bases[t]).AtEnsure?
    requires 1 <= k <= |h.bases| && k <= |h.ids| && h.bases[k - 1] == Scan(m, h.bases[t]).m.frame
    requires var s := Scan(m, h.bases[t]); s.block in s.m.closures && RunEnsure(s.m, h.bases[t], value, s.block) == Running(m1)
    requires RunAbove(m1, h.Cut(k).Push(m1.frame), m2, h2, k, n) && |h2.bases| == |h2.ids| == k + 1
    ensures var s := Scan(m, h.bases[t]);
      Round(m, h, h.bases[t], value, Activation(s.m.frame, s.block), k, m1, m2, h2)
  {
    hide Wf, Keeps, FramesOk, RunEnsure, Scan, StoppedArmed, StoppedWords, Ran, ArmedBlock, RunAbove, Stashed, ExactBut;
    var s := Scan(m, h.bases[t]);
    var k0 := ScanKeeps(m, h, t);
    StoppedOne(m, h, t, s, k0);
    WfFrames(s.m, h.Cut(k0));
    WfFrames(m, h);
    assert k0 == k;
    EnsureKeeps(s.m, h.Cut(k), t, value, s.block);
    StepsRan(m1, h.Cut(k).Push(m1.frame), m2, h2, n);
  }

  /** From a push to its matching return: the caller's frame, pc and method are restored, and every word below the callee
      is unchanged but for the destination slot and the states of handler frames. */
  lemma ReturnRestores(m: Machine, h: History, op: Op, m1: Machine, m2: Machine, h2: History, n: nat, value: Value, m3: Machine)
    requires Wf(m, h) && op.Push? && CanDo(m, h, op) && Do(m, op) == Running(m1)
    requires RunAbove(m1, h.Push(m1.frame), m2, h2, |h.bases|, n) && |h2.bases| == |h.bases| + 1
    requires m2.Valid(value) && Return(m2, value) == Running(m3)
    ensures m3.frame == m.frame && m3.pc == m.pc && m3.At(m.frame + FRAME_METHOD) == m.At(m.frame + FRAME_METHOD)
    ensures m3.Get(op.dest) == value
    ensures forall a :: 0 <= a < m1.frame && a != m.frame + FRAME_RECEIVER + op.dest ==>
      m3.At(a) == m.At(a) || StateWord(m1, h.Push(m1.frame), a)
  {
    hide Wf, Keeps, FramesOk, StateWord, CanPush, PushFrame, Pending, Unwind, RunAbove, Resume, Shape, MethodsOk;
    WfFrames(m, h);
    ShapeSize(h);
    var h1, i := h.Push(m1.frame), |h.bases|;
    PushKeeps(m, h, op.callee, op.r, op.dest, op.argc, op.failure, op.asBlock, false);
    WfFrames(m1, h1);
    var k := FramesIsolated(m1, h1, m2, h2, i, n);
    KeptLength(m1, h1, m2, h2, k);
    CalleeKept(m1, h1, m2, h2, k, i);
    BelowKept(m1, h1, m2, h2, k);
    ControlKept(m1, h1, m2, h2, k, i - 1, FRAME_METHOD);
    WfFrames(m2, h2);
    ResumeKeeps(m2, h2, value);
    FrameFits(m, h);
    StackGrows(m, h, m1, h1, |h.bases|);
    StackGrows(m1, h1, m2, h2, k);
    ResumeIs(m2, m.frame, value);
  }

  /** The slots of the frame on top lie on the stack. */
  lemma FrameFits(m: Machine, h: History)
    requires Wf(m, h)
    ensures m.frame + FRAME_RECEIVER + m.Info(m.frame).frameSlots <= |m.stack|
  {
    assert FrameOk(m, h, |h.bases| - 1);
  }

  lemma StackGrows(m: Machine, h: History, m': Machine, h': History, k: nat)
    requires Keeps(m, h, m', h', k)
    ensures |m.stack| <= |m'.stack|
  {
  }

  lemma ShapeSize(h: History)
    requires Shape(h)
    ensures |h.bases| == |h.ids| > 0
  {
  }

  lemma KeptLength(m: Machine, h: History, m': Machine, h': History, k: nat)
    requires Keeps(m, h, m', h', k)
    ensures k <= |h.bases| && k <= |h'.bases| && |h.bases| == |h.ids|
  {
  }

  /** The callee's control words are those the push wrote. */
  lemma CalleeKept(m1: Machine, h1: History, m2: Machine, h2: History, k: nat, i: nat)
    requires Wf(m1, h1) && Wf(m2, h2) && Keeps(m1, h1, m2, h2, k) && i + 1 == k == |h1.bases| == |h2.bases| && i > 0
    ensures m2.frame == m1.frame && h2.bases[i - 1] == h1.bases[i - 1]
    ensures m2.Caller(m2.frame) == m1.Caller(m1.frame) && m2.RetDest(m2.frame) == m1.RetDest(m1.frame)
    ensures m2.RetPc(m2.frame) == m1.RetPc(m1.frame)
    ensures m2.Flag(m2.frame, FLAG_UNWINDCONT) == m1.Flag(m1.frame, FLAG_UNWINDCONT)
  {
    hide FramesOk, Keeps;
    WfFrames(m1, h1);
    WfFrames(m2, h2);
    ControlKept(m1, h1, m2, h2, k, i - 1, FRAME_CALLER);
    ControlKept(m1, h1, m2, h2, k, i, FRAME_CALLER);
    ControlKept(m1, h1, m2, h2, k, i, FRAME_RETINFO);
    InfoKept(m1, h1, m2, h2, k, i);
  }

  lemma ResumeIs(m: Machine, c: nat, value: Value)
    ensures var m' := Resume(m, c, value);
      && m'.frame == c && m'.pc == m.RetPc(m.frame)
      && (m'.Get(m.RetDest(m.frame)) == value || c + FRAME_RECEIVER + m.RetDest(m.frame) >= |m.stack|)
  {
  }

  // ---------- non-local return ----------

  /** A non-local return whose home activation is on the stack passes the test, goes to exactly that activation and meets
      no fatal error of the unwinder. */
  lemma NlrFindsHome(m: Machine, h: History, slot: nat, i: nat) returns (h': History, k: nat)
    requires Wf(m, h) && EnclosingKnown(m)
    requires var a := m.Get(0).addr;
      m.closures[a].homeProcess == m.process && i < |h.ids| && a in h.births && h.births[a] == h.ids[i]
    ensures i < |h.bases| && HomeAlive(m, m.closures[m.Get(0).addr])
    ensures NonLocalReturn(m, slot) == Unwind(m, h.bases[i], m.Get(slot))
    ensures Proceeds(m, h, NonLocalReturn(m, slot), h', k)
  {
    var a := m.Get(0).addr;
    HomeOffset(m, h, a, i);
    assert FrameOk(m, h, i) && m.closures[a].homeSerial == Int(SerialNo(h.births[a]));
    assert h.bases[i] <= h.Top();
    ValueValid(m, h, m.frame + FRAME_RECEIVER + slot);
    hide Wf, Keeps, FramesOk, Unwind;
    h', k := UnwindKeeps(m, h, i, m.Get(slot));
  }

  /** What a non-local return is for: it returns from its home activation if that is on the stack; else the caller of the
      block is told that it cannot return, or there is no caller. */
  ghost predicate NlrPromise(m: Machine, h: History, slot: nat)
    requires EnclosingKnown(m)
  {
    var a := m.Get(0).addr;
    if m.closures[a].homeProcess == m.process && HomeOnStack(h, a) then
      exists i :: 0 <= i < |h.ids| && i < |h.bases| && h.ids[i] == h.births[a] &&
        NonLocalReturn(m, slot) == Unwind(m, h.bases[i], m.Get(slot))
    else NonLocalReturn(m, slot).CannotReturn? || NonLocalReturn(m, slot) == Failed(DeadHomeInBaseFrame)
  }

  /** Within the window of serials, a non-local return does what it is for exactly when no stray word stands where the flags
      of its home were. */
  lemma NlrPromiseIff(m: Machine, h: History, slot: nat)
    requires Wf(m, h) && EnclosingKnown(m) && InWindow(m, h, m.Get(0).addr)
    ensures NlrPromise(m, h, slot) <==> !Strays(m, h, m.closures[m.Get(0).addr])
  {
    hide Wf, Unwind, Pop, Keeps, Proceeds;
    var a := m.Get(0).addr;
    var c := m.closures[a];
    if c.homeProcess == m.process && HomeOnStack(h, a) {
      var i :| 0 <= i < |h.ids| && h.ids[i] == h.births[a];
      HomeOffset(m, h, a, i);
      var h', k := NlrFindsHome(m, h, slot, i);
    } else if HomeAlive(m, c) {
      UnwindNeverDead(m, c.homeOffset.n, m.Get(slot));
      if !Strays(m, h, c) {
        AliveOnStack(m, h, a);
      }
    } else {
      CallerBelow(m, h);
    }
  }

  /** The unwinder never reports a dead home. */
  lemma UnwindNeverDead(m: Machine, target: nat, value: Value)
    ensures !Unwind(m, target, value).CannotReturn? && Unwind(m, target, value) != Failed(DeadHomeInBaseFrame)
    decreases m.frame, 1
  {
    hide Pop, Resume, Pending, PushFrame;
    ScanFrame(m, target);
    ScanBlock(m, target);
    hide Scan;
    match Scan(m, target) {
      case AtTarget(m') => ReturnNeverDead(m', value);
      case AtEnsure(m', closure) => EnsureNeverDead(m', target, value, closure);
      case Lost(e) => LostNeverDead(m, target);
    }
  }

  lemma ReturnNeverDead(m: Machine, value: Value)
    ensures !Return(m, value).CannotReturn? && Return(m, value) != Failed(DeadHomeInBaseFrame)
    decreases m.frame, 0
  {
    hide Pop, Resume, Pending, Unwind;
    if m.Flag(m.frame, FLAG_UNWINDCONT) && Pending(m).Some? && Pending(m).value.target >= 0 {
      var p := Pending(m).value;
      UnwindNeverDead(p.m, p.target, p.value);
    }
  }

  lemma EnsureNeverDead(m: Machine, target: nat, value: Value, closure: Addr)
    requires closure in m.closures
    ensures !RunEnsure(m, target, value, closure).CannotReturn? && RunEnsure(m, target, value, closure) != Failed(DeadHomeInBaseFrame)
  {
    hide Stash, Room, NewFrame;
  }

  lemma {:induction false} LostNeverDead(m: Machine, target: nat)
    ensures Scan(m, target) != Lost(DeadHomeInBaseFrame)
    decreases m.frame
  {
    hide Pop, ArmedBlock;
    var c := m.Caller(m.frame);
    if m.frame > target && ArmedBlock(m, m.frame).None? && 0 < c < m.frame {
      PopFrame(m, c);
      LostNeverDead(Pop(m, c), target);
    }
  }

  lemma PopFrame(m: Machine, c: nat)
    ensures Pop(m, c).frame == c
  {
  }

  /** The link of the frame on top leads down, and the process is a real one. */
  lemma CallerBelow(m: Machine, h: History)
    requires Wf(m, h)
    ensures 0 <= m.Caller(m.frame) < m.frame && m.process != m.nil
  {
    assert FrameOk(m, h, |h.bases| - 1);
  }

  /** An unwind started inside a running ensure block that goes past the ensure frame replaces the unwind pending there:
      the block does not run again, and what arrives at the new target is the new value. */
  lemma PassingUnwindReplaces(m: Machine, h: History, i: nat, t: nat, value: Value, log: seq<Activation>, mT: Machine, vT: Value)
    requires Wf(m, h) && 1 <= i < |h.bases| && t < i - 1 && m.Valid(value)
    requires m.Flag(h.bases[i], FLAG_UNWINDCONT) && UnwindRun(m, h, h.bases[t], value, log, mT, vT)
    ensures mT.frame == h.bases[t] && vT == value
    ensures forall j :: 0 <= j < |log| ==> log[j].frame != h.bases[i - 1]
  {
    hide Wf, Keeps, FramesOk, UnwindRun, ArmedBlock, ArmedAbove, KeptTo, MethodsOk;
    WfFrames(m, h);
    var hT := EveryArmedBlockOnce(m, h, t, value, log, mT, vT);
    WfFrames(mT, hT);
    ContinuationDisarms(m, h, i);
    assert h.bases[..|h.bases|] == h.bases;
    NotArmed(m, h, |h.bases|, i - 1, t);
  }

  /** The ensure frame under a running block is not armed. */
  lemma ContinuationDisarms(m: Machine, h: History, i: nat)
    requires Wf(m, h) && 1 <= i < |h.bases| && m.Flag(h.bases[i], FLAG_UNWINDCONT)
    ensures ArmedBlock(m, h.bases[i - 1]).None?
  {
    assert PendingOk(m, h, i);
    EnsureNoHandler(m, h.bases[i - 1]);
  }

  lemma {:induction false} NotArmed(m: Machine, h: History, n: nat, e: nat, t: nat)
    requires Shape(h) && n <= |h.bases| && e < |h.bases| && ArmedBlock(m, h.bases[e]).None?
    ensures forall j :: 0 <= j < |ArmedAbove(m, h.bases[..n], t)| ==> ArmedAbove(m, h.bases[..n], t)[j].frame != h.bases[e]
    decreases n
  {
    hide ArmedBlock;
    if n > t + 1 {
      assert h.bases[..n][..n - 1] == h.bases[..n - 1];
      NotArmed(m, h, n - 1, e, t);
    }
  }

  // ---------- an offset that is no frame base ----------

  /** A base frame at 1 whose slot 4 holds a SmallInteger, and a block frame at 10 whose closure's home was at 6. */
  function StrayExample(): Machine {
    var nil, proc, base, blk, clo := Ptr(0), Ptr(8), Ptr(16), Ptr(24), Ptr(32);
    Machine(
      [nil, Int(0), Int(0), base, Int(SERIAL_UNIT), nil, nil, nil, nil, Int(2 * SERIAL_UNIT),
       Int(1), Int(0), blk, Int(4 + 3 * SERIAL_UNIT), clo, nil, nil],
      10, 0, 3, {0, 8, 16, 24, 32},
      map[32 := Closure(24, proc, Int(6), Int(2))],
      map[16 := MethodInfo(10, 0, false, false, 0, false), 24 := MethodInfo(1, 0, false, false, 0, false)],
      proc, nil, 20)
  }

  /** The home activation, number 2, is gone; the frames are those of activations 1 and 3. */
  function StrayHistory(): History {
    History([1, 10], [1, 3], 3, map[32 := 2])
  }

  lemma StrayWords()
    ensures var m := StrayExample();
      && |m.stack| == 17 && m.At(1) == Int(0) && m.At(2) == Int(0) && m.At(3) == Ptr(16) && m.At(4) == Int(SERIAL_UNIT)
      && m.At(9) == Int(2 * SERIAL_UNIT)
      && m.At(10) == Int(1) && m.At(11) == Int(0) && m.At(12) == Ptr(24) && m.At(13) == Int(4 + 3 * SERIAL_UNIT)
      && m.At(14) == Ptr(32)
  {
  }

  lemma StrayFrame(i: nat)
    requires i < 2
    ensures Shape(StrayHistory()) && FrameOk(StrayExample(), StrayHistory(), i) && PendingOk(StrayExample(), StrayHistory(), i)
  {
    StrayWords();
    var m, h := StrayExample(), StrayHistory();
    assert SERIAL_UNIT / FLAG_ENSURE % 2 == 0 && (4 + 3 * SERIAL_UNIT) / FLAG_ENSURE % 2 == 0;
    assert SERIAL_UNIT / FLAG_UNWINDCONT % 2 == 0 && (4 + 3 * SERIAL_UNIT) / FLAG_UNWINDCONT % 2 == 0;
    assert SERIAL_UNIT / SERIAL_UNIT == 1 && (4 + 3 * SERIAL_UNIT) / SERIAL_UNIT == 3;
  }

  lemma StrayValid()
    ensures WordsOk(StrayExample())
  {
    var m := StrayExample();
    forall i
      ensures m.Valid(m.At(i))
    {
      assert forall j :: 0 <= j < |m.stack| ==> m.Valid(m.stack[j]);
    }
  }

  lemma StrayWf()
    ensures Wf(StrayExample(), StrayHistory())
  {
    hide FrameOk, PendingOk, WordsOk;
    StrayFrame(0);
    StrayFrame(1);
    StrayValid();
    AllFramesOk(StrayExample(), StrayHistory());
    hide FramesOk;
    StrayClosures();
    hide ClosuresOk;
  }

  lemma StrayClosures()
    ensures ClosuresOk(StrayExample(), StrayHistory())
  {
    assert HomeOk([1, 10], [1, 3], 3, StrayExample().closures[32], 2);
    hide HomeOk;
  }

  /** An input on which it does not: the home is taken to be alive because of a SmallInteger in the frame below, and the
      unwinder does not find it. */
  lemma StrayHome()
    ensures var m, h := StrayExample(), StrayHistory();
      && Wf(m, h) && EnclosingKnown(m) && !HomeOnStack(h, m.Get(0).addr)
      && InWindow(m, h, m.Get(0).addr) && Strays(m, h, m.closures[m.Get(0).addr]) && !NlrPromise(m, h, 0)
      && NonLocalReturn(m, 0) == Failed(TargetNotOnChain)
  {
    StrayWf();
    StrayWords();
    var m, h := StrayExample(), StrayHistory();
    assert HomeAlive(m, m.closures[32]);
    StrayScan();
    hide Wf, Scan;
  }

  lemma StrayScan()
    ensures Scan(StrayExample(), 6) == Lost(TargetNotOnChain)
  {
    StrayWords();
    var m := StrayExample();
    assert (4 + 3 * SERIAL_UNIT) / FLAG_ENSURE % 2 == 0;
    assert !m.Flag(10, FLAG_ENSURE) && m.Caller(10) == 1;
    assert Pop(m, 1).frame == 1;
    assert Scan(Pop(m, 1), 6) == Lost(TargetNotOnChain) by {
      hide Pop;
    }
  }
}
