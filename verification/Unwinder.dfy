/** Pushing, returning and unwinding keep the activations apart, and unwinding runs each armed ensure block once. */
module Unwinder {
  import opened ObjectMemory
  import opened Options
  import opened Frames
  import opened Activations

  // ---------- pushing ----------

  /** Where a frame may be pushed: above the control words and above any handler or ensure slots. */
  ghost predicate CanPush(m: Machine, callee: Addr, r: nat, dest: nat) {
    && callee in m.methods && r >= FRAME_RECEIVER && dest < DEST_UNIT
    && (Reserves(m.Info(m.frame)) ==> r >= FRAME_RECEIVER + m.Info(m.frame).handlerBase + FRAME_RECEIVER)
  }

  /** What a push leaves: a new top frame that knows its caller, and the same words below it. */
  ghost predicate Pushed(m: Machine, m': Machine, callee: Addr, r: nat, dest: nat, block: bool, cont: bool) {
    && m'.frame == m.frame + r
    && m'.Caller(m'.frame) == m.frame && m'.RetDest(m'.frame) == dest && m'.RetPc(m'.frame) == m.pc
    && m'.At(m'.frame + FRAME_METHOD) == Ptr(callee)
    && m'.Flag(m'.frame, FLAG_BLOCKCTX) == block && m'.Flag(m'.frame, FLAG_UNWINDCONT) == cont
    && (forall a :: 0 <= a < m'.frame ==> m'.At(a) == m.At(a))
  }

  lemma PushShape(h: History, b: nat)
    requires Shape(h) && h.Top() + FRAME_RECEIVER <= b
    ensures Shape(h.Push(b)) && h.Push(b).Cut(|h.bases|).bases == h.bases && h.Push(b).Cut(|h.bases|).ids == h.ids
  {
  }

  /** The machine with the new frame in place, before a failure code is stored. */
  function Framed(m: Machine, callee: Addr, r: nat, dest: nat, argc: nat, pc: nat, block: bool, cont: bool): Machine
    requires callee in m.methods
  {
    var info, serial := m.methods[callee], NextSerial(m.serial);
    m.(serial := serial, frame := m.frame + r, pc := pc,
       stack := NewFrame(m, m.frame + r, callee, dest, argc,
                         FlagsWord(info.isHandler, info.isEnsure, block, cont, serial), info.frameSlots))
  }

  lemma FramedPushed(m: Machine, callee: Addr, r: nat, dest: nat, argc: nat, pc: nat, block: bool, cont: bool)
    requires CanPush(m, callee, r, dest) && m.frame + r + FRAME_RECEIVER + m.methods[callee].frameSlots <= |m.stack|
    ensures var m' := Framed(m, callee, r, dest, argc, pc, block, cont);
      && Pushed(m, m', callee, r, dest, block, cont) && SameWorld(m, m')
      && m'.At(m'.frame + FRAME_CALLER) == Int(m.frame)
      && m'.At(m'.frame + FRAME_RETINFO) == Int(dest + m.pc * DEST_UNIT)
      && m'.At(m'.frame + FRAME_FLAGS).Int? && m'.Serial(m'.frame) == NextSerial(m.serial)
      && m'.Flag(m'.frame, FLAG_ENSURE) == m'.Info(m'.frame).isEnsure
      && m'.Info(m'.frame) == m.methods[callee] && |m'.stack| == |m.stack|
  {
    var info := m.methods[callee];
    FlagsWordReads(info.isHandler, info.isEnsure, block, cont, NextSerial(m.serial));
    hide FlagsWord, HasFlag;
  }

  lemma FramedWords(m: Machine, callee: Addr, r: nat, dest: nat, argc: nat, pc: nat, block: bool, cont: bool)
    requires callee in m.methods && WordsOk(m) && m.methods.Keys <= m.objects
    ensures WordsOk(Framed(m, callee, r, dest, argc, pc, block, cont))
  {
    hide FlagsWord, NextSerial;
    var m' := Framed(m, callee, r, dest, argc, pc, block, cont);
    assert m.Valid(m.At(-1));
    forall i
      ensures m'.Valid(m'.At(i))
    {
      assert m.Valid(m.At(i));
    }
  }

  lemma FramedKeeps(m: Machine, h: History, callee: Addr, r: nat, dest: nat, argc: nat, pc: nat, block: bool, cont: bool)
    requires Wf(m, h) && CanPush(m, callee, r, dest)
    requires m.frame + r + FRAME_RECEIVER + m.methods[callee].frameSlots <= |m.stack|
    requires cont ==> m.Info(m.frame).isEnsure && SomePending(m, h, |h.bases| - 1)
    ensures var m' := Framed(m, callee, r, dest, argc, pc, block, cont);
      Wf(m', h.Push(m.frame + r)) && Keeps(m, h, m', h.Push(m.frame + r), |h.bases|)
  {
    hide Keeps, ClosuresOk, FramesOk, FrameOk, CanPush, Pushed, SomePending, WordsOk, MethodsOk, Framed, NextSerial, SerialNo,
      SameWorld;
    PushCallee(m, callee, r, dest);
    var m', h', n := Framed(m, callee, r, dest, argc, pc, block, cont), h.Push(m.frame + r), |h.bases|;
    WfFrames(m, h);
    FramedPushed(m, callee, r, dest, argc, pc, block, cont);
    FramedWords(m, callee, r, dest, argc, pc, block, cont);
    FramedRest(m, h, callee, r, dest, argc, pc, block, cont);
    FramedTop(m, h, m', h', callee, r, dest, block, cont);
    FramedFrames(m, h, m', h', callee, r, dest, block, cont);
    ClosuresKept(m, h, m', h', n);
  }

  lemma FramedRest(m: Machine, h: History, callee: Addr, r: nat, dest: nat, argc: nat, pc: nat, block: bool, cont: bool)
    requires Wf(m, h) && callee in m.methods
    ensures var m' := Framed(m, callee, r, dest, argc, pc, block, cont);
      && m' == m.(stack := m'.stack, frame := m.frame + r, serial := NextSerial(m.serial), pc := pc)
      && MethodsOk(m') && m'.serial == SerialNo(h.pushes + 1)
  {
    hide FramesOk, ClosuresOk, WordsOk;
    NextSerialNo(h.pushes);
  }

  /** The frames below a new one are kept, and its own control words are right. */
  lemma FramedTop(m: Machine, h: History, m': Machine, h': History, callee: Addr, r: nat, dest: nat, block: bool, cont: bool)
    requires Wf(m, h) && CanPush(m, callee, r, dest) && Pushed(m, m', callee, r, dest, block, cont) && SameWorld(m, m')
    requires m'.At(m'.frame + FRAME_CALLER) == Int(m.frame) && m'.At(m'.frame + FRAME_RETINFO) == Int(dest + m.pc * DEST_UNIT)
    requires m'.At(m'.frame + FRAME_FLAGS).Int? && m'.Serial(m'.frame) == NextSerial(m.serial)
    requires m'.Flag(m'.frame, FLAG_ENSURE) == m'.Info(m'.frame).isEnsure
    requires m'.Info(m'.frame) == m.methods[callee]
    requires m.frame + r + FRAME_RECEIVER + m.methods[callee].frameSlots <= |m'.stack|
    requires h' == h.Push(m.frame + r)
    ensures Shape(h') && Keeps(m, h, m', h', |h.bases|) && FrameOk(m', h', |h.bases|)
  {
    hide FramesOk, ClosuresOk, WordsOk, MethodsOk, StateWord, SerialNo, NextSerial;
    WfFrames(m, h);
    PushShape(h, m.frame + r);
    FramedBelow(m, h, m', h', callee, r, dest, block, cont);
    NewSerial(m, h);
    hide Keeps, SameBelow, FrameOk, SameWorld, Wf;
    TopFrameOk(m', h', |h.bases|);
  }

  lemma FramedBelow(m: Machine, h: History, m': Machine, h': History, callee: Addr, r: nat, dest: nat, block: bool, cont: bool)
    requires Shape(h) && m.frame == h.Top() && h' == h.Push(m.frame + r) && r >= FRAME_RECEIVER
    requires Pushed(m, m', callee, r, dest, block, cont) && SameWorld(m, m')
    ensures Keeps(m, h, m', h', |h.bases|)
  {
    hide StateWord, SameWorld;
    PushShape(h, m.frame + r);
  }

  lemma TopFrameOk(m: Machine, h: History, i: nat)
    requires Shape(h) && 0 < i && i + 1 == |h.bases|
    requires m.At(h.bases[i] + FRAME_CALLER) == Int(h.bases[i - 1])
    requires m.At(h.bases[i] + FRAME_RETINFO).Int? && m.At(h.bases[i] + FRAME_RETINFO).n >= 0
    requires m.At(h.bases[i] + FRAME_METHOD).Ptr? && m.At(h.bases[i] + FRAME_METHOD).addr in m.methods
    requires m.At(h.bases[i] + FRAME_FLAGS).Int? && m.Serial(h.bases[i]) == SerialNo(h.ids[i])
    requires m.Flag(h.bases[i], FLAG_ENSURE) ==> m.Info(h.bases[i]).isEnsure
    requires h.bases[i] + FRAME_RECEIVER + m.Info(h.bases[i]).frameSlots <= |m.stack|
    ensures FrameOk(m, h, i)
  {
  }

  lemma NewSerial(m: Machine, h: History)
    requires Wf(m, h)
    ensures NextSerial(m.serial) == SerialNo(h.pushes + 1)
  {
    hide FramesOk, ClosuresOk, WordsOk, MethodsOk;
    NextSerialNo(h.pushes);
  }

  lemma FramedFrames(m: Machine, h: History, m': Machine, h': History, callee: Addr, r: nat, dest: nat, block: bool, cont: bool)
    requires Wf(m, h) && CanPush(m, callee, r, dest) && Pushed(m, m', callee, r, dest, block, cont)
    requires h' == h.Push(m.frame + r) && Keeps(m, h, m', h', |h.bases|) && FrameOk(m', h', |h.bases|)
    requires cont ==> m.Info(m.frame).isEnsure && SomePending(m, h, |h.bases| - 1)
    ensures FramesOk(m', h')
  {
    hide Wf, FramesOk, FrameOk, PendingOk, SomePending, SameBelow, MethodsOk, Pushed;
    var n := |h.bases|;
    WfFrames(m, h);
    forall i | 0 <= i < n
      ensures FrameOk(m', h', i) && PendingOk(m', h', i)
    {
      FrameKept(m, h, m', h', n, i);
      PendingKept(m, h, m', h', n, i);
    }
    FramedPending(m, h, m', h', callee, r, dest, block, cont);
    AllFramesOk(m', h');
  }

  lemma AllFramesOk(m: Machine, h: History)
    requires Shape(h) && forall i :: 0 <= i < |h.bases| ==> FrameOk(m, h, i) && PendingOk(m, h, i)
    ensures FramesOk(m, h)
  {
    hide FrameOk, PendingOk;
  }

  lemma FramedPending(m: Machine, h: History, m': Machine, h': History, callee: Addr, r: nat, dest: nat, block: bool, cont: bool)
    requires Wf(m, h) && CanPush(m, callee, r, dest) && Pushed(m, m', callee, r, dest, block, cont)
    requires h' == h.Push(m.frame + r) && Keeps(m, h, m', h', |h.bases|)
    requires cont ==> m.Info(m.frame).isEnsure && SomePending(m, h, |h.bases| - 1)
    ensures PendingOk(m', h', |h.bases|)
  {
    hide Wf, Keeps, SomePending, FramesOk;
    WfFrames(m, h);
    KeepsShape(m, h, m', h', |h.bases|);
    if cont {
      PendingUnder(m, h, m', h');
    }
  }

  lemma KeepsNil(m: Machine, h: History, m': Machine, h': History, k: nat)
    requires Keeps(m, h, m', h', k)
    ensures m'.nil == m.nil && m'.methods == m.methods
  {
  }

  lemma KeepsShape(m: Machine, h: History, m': Machine, h': History, k: nat)
    requires Keeps(m, h, m', h', k)
    ensures Shape(h) && Shape(h')
  {
  }

  /** A pending unwind in the frame below a new one. */
  lemma PendingUnder(m: Machine, h: History, m': Machine, h': History)
    requires Wf(m, h) && Keeps(m, h, m', h', |h.bases|) && m.Info(m.frame).isEnsure && SomePending(m, h, |h.bases| - 1)
    requires h'.bases == h.bases + [m'.frame]
    requires m.frame + FRAME_RECEIVER + m.Info(m.frame).handlerBase + FRAME_RECEIVER <= m'.frame
    requires forall a :: 0 <= a < m'.frame ==> m'.At(a) == m.At(a)
    ensures m'.Info(m.frame).isEnsure && SomePending(m', h', |h.bases| - 1)
  {
    hide SameBelow, FramesOk, Wf, MethodsOk, SameWorld, SerialNo;
    var n := |h.bases|;
    WfFrames(m, h);
    InfoKept(m, h, m', h', n, n - 1);
    assert m'.nil == m.nil by {
      KeepsNil(m, h, m', h', n);
    }
    var t: nat :| HoldsPending(m, h, n - 1, t);
    assert h'.ids[..n][t] == h.ids[..n][t];
    assert HoldsPending(m', h', n - 1, t);
  }

  lemma PushKeeps(m: Machine, h: History, callee: Addr, r: nat, dest: nat, argc: nat, failure: Option<int>, block: bool, cont: bool)
    requires Wf(m, h) && CanPush(m, callee, r, dest)
    requires cont ==> m.Info(m.frame).isEnsure && SomePending(m, h, |h.bases| - 1)
    ensures var o := PushFrame(m, callee, r, dest, argc, failure, block, cont);
      if o.Running? then
        && Wf(o.m, h.Push(m.frame + r)) && Keeps(m, h, o.m, h.Push(m.frame + r), |h.bases|)
        && Pushed(m, o.m, callee, r, dest, block, cont)
      else o == Failed(StackOverflow)
  {
    hide Wf, Keeps, SomePending, CanPush, Pushed, Framed, FramesOk, MethodsOk, SameWorld, NewFrame, FlagsWord, NextSerial;
    assert callee in m.methods by {
      PushCallee(m, callee, r, dest);
    }
    var needed := m.frame + r + FRAME_RECEIVER + m.methods[callee].frameSlots;
    if Room(m, needed).Some? {
      var m1, h2 := Room(m, needed).value, h.Push(m.frame + r);
      var pc := if failure.Some? && m.methods[callee].startsWithPrim then 1 else 0;
      RoomSame(m, needed);
      FramedIs(m, m1, callee, r, dest, argc, failure, block, cont);
      hide PushFrame, Room;
      RoomyPush(m, h, m1, callee, r, dest, argc, pc, block, cont);
      var m2 := Framed(m1, callee, r, dest, argc, pc, block, cont);
      if failure.Some? {
        WfFrames(m, h);
        hide FramesOk, SameWorld;
        PutKeeps(m2, h2, Low8(1 + argc), Int(failure.value));
        KeepsTrans(m, h, m2, h2, m2.Put(Low8(1 + argc), Int(failure.value)), h2, |h.bases|, |h2.bases|);
        PutAbove(m, m2, callee, r, dest, block, cont, Low8(1 + argc), Int(failure.value));
      }
    }
  }

  lemma PushCallee(m: Machine, callee: Addr, r: nat, dest: nat)
    requires CanPush(m, callee, r, dest)
    ensures callee in m.methods
  {
  }

  lemma RoomSame(m: Machine, needed: nat)
    requires Room(m, needed).Some?
    ensures var m1 := Room(m, needed).value; m1 == m.(stack := m1.stack) && needed <= |m1.stack|
  {
  }

  lemma PushedFrom(m: Machine, m1: Machine, m2: Machine, callee: Addr, r: nat, dest: nat, block: bool, cont: bool)
    requires m1 == m.(stack := m1.stack) && (forall i :: m1.At(i) == m.At(i)) && Pushed(m1, m2, callee, r, dest, block, cont)
    ensures Pushed(m, m2, callee, r, dest, block, cont)
  {
  }

  /** A push onto a stack that has been grown. */
  lemma RoomyPush(m: Machine, h: History, m1: Machine, callee: Addr, r: nat, dest: nat, argc: nat, pc: nat, block: bool, cont: bool)
    requires Wf(m, h) && CanPush(m, callee, r, dest)
    requires cont ==> m.Info(m.frame).isEnsure && SomePending(m, h, |h.bases| - 1)
    requires Room(m, m.frame + r + FRAME_RECEIVER + m.methods[callee].frameSlots) == Some(m1)
    ensures callee in m1.methods
    ensures var m2 := Framed(m1, callee, r, dest, argc, pc, block, cont); var h2 := h.Push(m.frame + r);
      Wf(m2, h2) && Keeps(m, h, m2, h2, |h.bases|) && Pushed(m, m2, callee, r, dest, block, cont)
  {
    hide Wf, Keeps, SomePending, Framed, Room, Pushed, SameWorld, FramesOk, MethodsOk;
    var needed := m.frame + r + FRAME_RECEIVER + m.methods[callee].frameSlots;
    RoomKeeps(m, needed);
    RoomWf(m, h, needed);
    RoomPending(m, h, m1);
    assert CanPush(m1, callee, r, dest);
    var m2, h2 := Framed(m1, callee, r, dest, argc, pc, block, cont), h.Push(m.frame + r);
    hide CanPush;
    FramedPushed(m1, callee, r, dest, argc, pc, block, cont);
    PushedFrom(m, m1, m2, callee, r, dest, block, cont);
    FramedKeeps(m1, h, callee, r, dest, argc, pc, block, cont);
    WfFrames(m, h);
    hide FramesOk;
    KeepsTrans(m, h, m1, h, m2, h2, |h.bases|, |h.bases|);
  }

  lemma WfFrames(m: Machine, h: History)
    requires Wf(m, h)
    ensures FramesOk(m, h) && Shape(h) && m.frame == h.Top()
    ensures m.Valid(m.nil) && m.closures.Keys <= m.objects && m.methods.Keys <= m.objects && MethodsOk(m)
  {
    assert m.Valid(m.At(-1));
  }

  lemma FramedIs(m: Machine, m1: Machine, callee: Addr, r: nat, dest: nat, argc: nat, failure: Option<int>, block: bool, cont: bool)
    requires callee in m.methods && m1.methods == m.methods && m1.frame == m.frame && m1.serial == m.serial
    requires Room(m, m.frame + r + FRAME_RECEIVER + m.methods[callee].frameSlots) == Some(m1)
    ensures var m2 := Framed(m1, callee, r, dest, argc, if failure.Some? && m.methods[callee].startsWithPrim then 1 else 0, block, cont);
      PushFrame(m, callee, r, dest, argc, failure, block, cont) ==
        Running(if failure.Some? then m2.Put(Low8(1 + argc), Int(failure.value)) else m2)
  {
  }

  lemma PutAbove(m: Machine, m2: Machine, callee: Addr, r: nat, dest: nat, block: bool, cont: bool, k: nat, v: Value)
    requires Pushed(m, m2, callee, r, dest, block, cont)
    ensures Pushed(m, m2.Put(k, v), callee, r, dest, block, cont)
  {
    var m3 := m2.Put(k, v);
    assert forall a :: 0 <= a < m2.frame + FRAME_RECEIVER ==> m3.At(a) == m2.At(a);
  }

  lemma RoomPending(m: Machine, h: History, m1: Machine)
    requires Wf(m, h) && Wf(m1, h) && m1 == m.(stack := m1.stack) && forall i :: m1.At(i) == m.At(i)
    ensures m1.Info(m.frame) == m.Info(m.frame)
    ensures SomePending(m, h, |h.bases| - 1) ==> SomePending(m1, h, |h.bases| - 1)
  {
    hide Wf;
    WfFrames(m, h);
    if SomePending(m, h, |h.bases| - 1) {
      var t: nat :| HoldsPending(m, h, |h.bases| - 1, t);
      assert HoldsPending(m1, h, |h.bases| - 1, t);
    }
  }

  // ---------- returning to the caller ----------

  lemma ResumeKeeps(m: Machine, h: History, value: Value)
    requires Wf(m, h) && |h.bases| > 1 && m.Valid(value)
    ensures var n := |h.bases| - 1; var c := h.bases[n - 1];
      && m.Caller(m.frame) == c && 0 < c < m.frame
      && Wf(Resume(m, c, value), h.Cut(n)) && Keeps(m, h, Resume(m, c, value), h.Cut(n), n)
      && forall a :: 0 <= a < m.frame && a != c + FRAME_RECEIVER + m.RetDest(m.frame) ==> Resume(m, c, value).At(a) == m.At(a)
  {
    var n := |h.bases| - 1;
    var c := h.bases[n - 1];
    PopKeeps(m, h);
    var m1 := Pop(m, c).(pc := m.RetPc(m.frame));
    assert Wf(m1, h.Cut(n)) && Keeps(m, h, m1, h.Cut(n), n) by {
      PcFree(m, h, Pop(m, c), h.Cut(n), n, m.RetPc(m.frame));
    }
    assert FramesOk(m, h);
    assert forall a :: 0 <= a < m.frame ==> m1.At(a) == m.At(a);
    hide Wf, Keeps, FramesOk, Pop;
    PutKeeps(m1, h.Cut(n), m.RetDest(m.frame), value);
    KeepsTrans(m, h, m1, h.Cut(n), Resume(m, c, value), h.Cut(n), n, n);
  }

  lemma PcFree(m: Machine, h: History, m1: Machine, h1: History, k: nat, pc: nat)
    requires Wf(m1, h1) && Keeps(m, h, m1, h1, k)
    ensures Wf(m1.(pc := pc), h1) && Keeps(m, h, m1.(pc := pc), h1, k)
  {
    var m2 := m1.(pc := pc);
    assert Shape(h1) && WordsOk(m2) by {
      assert forall i :: m2.At(i) == m1.At(i);
    }
    assert Keeps(m1, h1, m2, h1, |h1.bases|) && Keeps(m, h, m2, h1, k) by {
      hide FramesOk, ClosuresOk, MethodsOk, WordsOk;
      assert forall i :: m2.At(i) == m1.At(i);
    }
    hide Keeps, FramesOk, ClosuresOk, WordsOk;
    FramesKept(m1, h1, m2, h1);
    ClosuresKept(m1, h1, m2, h1, |h1.bases|);
  }

  // ---------- popping towards a target ----------

  datatype Activation = Activation(frame: nat, closure: Addr)

  /** The ensure frames strictly above frame `t` whose block has not run, innermost first. */
  ghost function ArmedAbove(m: Machine, bases: seq<nat>, t: nat): seq<Activation> {
    if |bases| <= t + 1 then []
    else
      var n := |bases| - 1;
      var rest := ArmedAbove(m, bases[..n], t);
      match ArmedBlock(m, bases[n])
      case Some(closure) => [Activation(bases[n], closure)] + rest
      case None => rest
  }

  /** Whether frame `i` is armed depends on words of that frame below the next one. */
  lemma ArmedSame(m: Machine, h: History, m': Machine, i: nat)
    requires Wf(m, h) && i + 1 < |h.bases|
    requires m'.methods == m.methods && m'.closures == m.closures
    requires forall a :: 0 <= a < h.bases[i + 1] ==> m'.At(a) == m.At(a)
    ensures ArmedBlock(m', h.bases[i]) == ArmedBlock(m, h.bases[i])
  {
    assert FrameOk(m, h, i);
    var b := h.bases[i];
    if m.Flag(b, FLAG_ENSURE) {
      EnsureNoHandler(m, b);
    }
  }

  lemma {:induction false} ArmedAboveSame(m: Machine, h: History, m': Machine, k: nat, t: nat)
    requires Wf(m, h) && k < |h.bases|
    requires m'.methods == m.methods && m'.closures == m.closures
    requires forall a :: 0 <= a < h.bases[k] ==> m'.At(a) == m.At(a)
    ensures ArmedAbove(m', h.bases[..k], t) == ArmedAbove(m, h.bases[..k], t)
    decreases k
  {
    hide Wf, ArmedBlock;
    WfFrames(m, h);
    if k > t + 1 {
      assert h.bases[..k][..k - 1] == h.bases[..k - 1];
      ArmedSame(m, h, m', k - 1);
      ArmedAboveSame(m, h, m', k - 1, t);
    }
  }

  /** Where the scan stops: at the target if no frame above it is armed, else at the innermost armed one; nothing below
      has changed. `k` counts the frames that are left. */
  ghost predicate Stopped(m: Machine, h: History, t: nat, s: Stop, k: nat) {
    && !s.Lost? && 1 <= k <= |h.bases| && k <= |h.ids|
    && StoppedWf(m, h, s.m, k) && StoppedWords(m, h, s.m, k) && StoppedArmed(m, h, t, s, k)
  }

  ghost predicate StoppedWf(m: Machine, h: History, m': Machine, k: nat)
    requires 1 <= k <= |h.bases| && k <= |h.ids|
  {
    Wf(m', h.Cut(k)) && Keeps(m, h, m', h.Cut(k), k) && m'.closures == m.closures
  }

  ghost predicate StoppedWords(m: Machine, h: History, m': Machine, k: nat) {
    forall a :: 0 <= a && (k < |h.bases| ==> a < h.bases[k]) ==> m'.At(a) == m.At(a)
  }

  ghost predicate StoppedArmed(m: Machine, h: History, t: nat, s: Stop, k: nat)
    requires !s.Lost? && 1 <= k <= |h.bases|
  {
    && (s.AtTarget? ==> k == t + 1 && ArmedAbove(m, h.bases, t) == [])
    && (s.AtEnsure? ==>
          && k > t + 1 && ArmedBlock(s.m, s.m.frame) == Some(s.block)
          && ArmedAbove(m, h.bases, t) == [Activation(s.m.frame, s.block)] + ArmedAbove(m, h.bases[..k - 1], t))
  }

  lemma {:induction false} ScanKeeps(m: Machine, h: History, t: nat) returns (k: nat)
    requires Wf(m, h) && t < |h.bases|
    ensures Stopped(m, h, t, Scan(m, h.bases[t]), k)
    decreases |h.bases|
  {
    hide Wf, Keeps, FramesOk, ArmedBlock, Pop, Stopped;
    var n := |h.bases| - 1;
    WfFrames(m, h);
    if t == n || ArmedBlock(m, m.frame).Some? {
      k := n + 1;
      StopHere(m, h, t);
    } else {
      PopKeeps(m, h);
      var m1, h1 := Pop(m, h.bases[n - 1]), h.Cut(n);
      k := ScanKeeps(m1, h1, t);
      PopSame(m, h);
      StopBelow(m, h, m1, h1, t, Scan(m1, h.bases[t]), k);
      assert h.bases[t] < m.frame;
    }
  }

  lemma StopHere(m: Machine, h: History, t: nat)
    requires Wf(m, h) && t < |h.bases| && (t == |h.bases| - 1 || ArmedBlock(m, m.frame).Some?)
    ensures Stopped(m, h, t, Scan(m, h.bases[t]), |h.bases|)
  {
    assert h.bases[..|h.bases|] == h.bases && h.ids[..|h.ids|] == h.ids;
    assert h.Cut(|h.bases|) == h;
    KeepsAll(m, h);
    hide Wf, Keeps, ArmedBlock;
    WfFrames(m, h);
    hide FramesOk;
    if t < |h.bases| - 1 {
      assert h.bases[t] < m.frame;
    }
  }

  lemma PopSame(m: Machine, h: History)
    requires Wf(m, h) && |h.bases| > 1
    ensures var m1 := Pop(m, h.bases[|h.bases| - 2]);
      && m1.methods == m.methods && m1.closures == m.closures && m1.nil == m.nil
      && forall a :: 0 <= a < m.frame ==> m1.At(a) == m.At(a)
  {
  }

  lemma StopBelow(m: Machine, h: History, m1: Machine, h1: History, t: nat, s: Stop, k: nat)
    requires Wf(m, h) && |h.bases| > 1 && t < |h.bases| - 1 && h1 == h.Cut(|h.bases| - 1)
    requires Keeps(m, h, m1, h1, |h.bases| - 1) && Stopped(m1, h1, t, s, k)
    requires m1.methods == m.methods && m1.closures == m.closures
    requires forall a :: 0 <= a < m.frame ==> m1.At(a) == m.At(a)
    requires ArmedBlock(m, m.frame).None?
    ensures Stopped(m, h, t, s, k)
  {
    hide Wf, FramesOk, ArmedBlock, ArmedAbove, StoppedWf, StoppedWords, StoppedArmed, Keeps, MethodsOk;
    var n := |h.bases| - 1;
    WfFrames(m, h);
    assert h1.bases[..k - 1] == h.bases[..k - 1] && h1.bases == h.bases[..n] by {
      hide Shape;
    }
    StopBelowWf(m, h, m1, h1, s.m, k);
    StopBelowWords(m, h, m1, h1, s.m, k);
    ArmedAboveSame(m, h, m1, n, t);
    ArmedAboveSame(m, h, m1, k - 1, t);
    StopBelowArmed(m, h, m1, h1, t, s, k);
  }

  lemma StopBelowWf(m: Machine, h: History, m1: Machine, h1: History, m2: Machine, k: nat)
    requires Wf(m, h) && |h.bases| > 1 && |h.ids| == |h.bases| && h1 == h.Cut(|h.bases| - 1) && 1 <= k <= |h1.bases|
    requires Keeps(m, h, m1, h1, |h.bases| - 1) && StoppedWf(m1, h1, m2, k) && m1.closures == m.closures
    ensures StoppedWf(m, h, m2, k)
  {
    hide Wf, Keeps;
    assert h1.bases[..k] == h.bases[..k] && h1.ids[..k] == h.ids[..k];
    KeepsTrans2(m, h, m1, h1, m2, h1.Cut(k), |h.bases| - 1, k);
  }

  lemma StopBelowWords(m: Machine, h: History, m1: Machine, h1: History, m2: Machine, k: nat)
    requires Shape(h) && m.frame == h.Top() && |h.bases| > 1 && h1 == h.Cut(|h.bases| - 1) && 1 <= k <= |h1.bases|
    requires StoppedWords(m1, h1, m2, k) && forall a :: 0 <= a < m.frame ==> m1.At(a) == m.At(a)
    ensures StoppedWords(m, h, m2, k)
  {
  }

  lemma StopBelowArmed(m: Machine, h: History, m1: Machine, h1: History, t: nat, s: Stop, k: nat)
    requires |h.bases| > 1 && t < |h.bases| - 1 && m.frame == h.bases[|h.bases| - 1] && !s.Lost?
    requires h1.bases == h.bases[..|h.bases| - 1] && 1 <= k <= |h1.bases| && h1.bases[..k - 1] == h.bases[..k - 1]
    requires StoppedArmed(m1, h1, t, s, k) && ArmedBlock(m, m.frame).None?
    requires ArmedAbove(m1, h.bases[..|h.bases| - 1], t) == ArmedAbove(m, h.bases[..|h.bases| - 1], t)
    requires ArmedAbove(m1, h.bases[..k - 1], t) == ArmedAbove(m, h.bases[..k - 1], t)
    ensures StoppedArmed(m, h, t, s, k)
  {
    hide ArmedBlock;
  }

  lemma KeepsTrans2(m: Machine, h: History, m1: Machine, h1: History, m2: Machine, h2: History, k: nat, k2: nat)
    requires Wf(m, h) && Keeps(m, h, m1, h1, k) && Keeps(m1, h1, m2, h2, k2) && k2 <= k
    ensures Keeps(m, h, m2, h2, k2)
  {
    KeepsTrans(m, h, m1, h1, m2, h2, k, k2);
  }

  // ---------- running an ensure block ----------

  /** The ensure frame at `e` holds a pending unwind and its block is marked as consumed. */
  ghost predicate Stashed(m: Machine, e: nat, target: nat, serial: int, value: Value) {
    var slots := e + FRAME_RECEIVER + m.Info(e).handlerBase;
    && m.At(slots + ENSURE_SLOT_BLOCK) == m.nil
    && m.At(slots + ENSURE_SLOT_PENDING_TARGET) == Int(target)
    && m.At(slots + ENSURE_SLOT_PENDING_SERIAL) == Int(serial)
    && m.At(slots + ENSURE_SLOT_PENDING_VALUE) == value
  }

  /** What an armed frame on top tells about its method. */
  lemma ArmedTop(m: Machine, h: History)
    requires Wf(m, h) && ArmedBlock(m, m.frame).Some?
    ensures var info := m.Info(m.frame);
      && info.isEnsure && info.handlerBase + FRAME_RECEIVER <= info.frameSlots <= 251
      && m.frame + FRAME_RECEIVER + info.frameSlots <= |m.stack|
      && ArmedBlock(m, m.frame).value in m.closures
  {
    assert FrameOk(m, h, |h.bases| - 1);
    EnsureNoHandler(m, m.frame);
  }

  lemma StashWords(m: Machine, target: nat, value: Value)
    requires var info := m.Info(m.frame); info.handlerBase + FRAME_RECEIVER <= info.frameSlots <= 251
    requires m.frame + FRAME_RECEIVER + m.Info(m.frame).frameSlots <= |m.stack|
    ensures var m1 := Stash(m, target, value); var slots := m.frame + FRAME_RECEIVER + m.Info(m.frame).handlerBase;
      && m1 == m.(stack := m1.stack) && |m1.stack| == |m.stack|
      && m1.Info(m.frame) == m.Info(m.frame)
      && Stashed(m1, m.frame, target, m.Serial(target), value)
      && (forall a :: !(slots <= a < slots + FRAME_RECEIVER) ==> m1.At(a) == m.At(a))
  {
  }

  lemma StashKeeps(m: Machine, h: History, target: nat, value: Value)
    requires Wf(m, h) && m.Valid(value)
    ensures Wf(Stash(m, target, value), h) && Keeps(m, h, Stash(m, target, value), h, |h.bases|)
  {
    hide Wf, Keeps, FramesOk;
    WfFrames(m, h);
    var base, n := m.Info(m.frame).handlerBase, |h.bases|;
    var m1 := m.Put(Low8(base + ENSURE_SLOT_BLOCK), m.nil);
    var m2 := m1.Put(Low8(base + ENSURE_SLOT_PENDING_TARGET), Int(target));
    var m3 := m2.Put(Low8(base + ENSURE_SLOT_PENDING_SERIAL), Int(m.Serial(target)));
    PutKeeps(m, h, Low8(base + ENSURE_SLOT_BLOCK), m.nil);
    PutKeeps(m1, h, Low8(base + ENSURE_SLOT_PENDING_TARGET), Int(target));
    KeepsTrans(m, h, m1, h, m2, h, n, n);
    PutKeeps(m2, h, Low8(base + ENSURE_SLOT_PENDING_SERIAL), Int(m.Serial(target)));
    KeepsTrans(m, h, m2, h, m3, h, n, n);
    PutKeeps(m3, h, Low8(base + ENSURE_SLOT_PENDING_VALUE), value);
    KeepsTrans(m, h, m3, h, m3.Put(Low8(base + ENSURE_SLOT_PENDING_VALUE), value), h, n, n);
  }

  /** The block runs in a new frame above the ensure frame, which holds the pending unwind. */
  ghost predicate Intercepted(m: Machine, h: History, m1: Machine, t: nat, value: Value)
    requires Shape(h) && t < |h.bases|
  {
    && Wf(m1, h.Push(m1.frame)) && Keeps(m, h, m1, h.Push(m1.frame), |h.bases|)
    && m1.closures == m.closures && m1.Flag(m1.frame, FLAG_UNWINDCONT)
    && m1.frame == m.frame + FRAME_RECEIVER + m.Info(m.frame).frameSlots
    && m1.Info(m.frame) == m.Info(m.frame)
    && Stashed(m1, m.frame, h.bases[t], SerialNo(h.ids[t]), value)
    && ExactBut(m, m1, m.frame + FRAME_RECEIVER + m.Info(m.frame).handlerBase, m1.frame)
  }

  /** Below `n` only the four words at `slots` differ. */
  ghost predicate ExactBut(m: Machine, m1: Machine, slots: nat, n: nat) {
    forall a :: 0 <= a < n && !(slots <= a < slots + FRAME_RECEIVER) ==> m1.At(a) == m.At(a)
  }

  /** On the way to running the block: the pending unwind is stashed, nothing else below the block's frame changed. */
  ghost predicate Readied(m: Machine, h: History, m1: Machine, t: nat, value: Value)
    requires Shape(h) && t < |h.bases|
  {
    && Wf(m1, h) && Keeps(m, h, m1, h, |h.bases|)
    && m1 == m.(stack := m1.stack) && m1.Info(m.frame) == m.Info(m.frame)
    && Stashed(m1, m.frame, h.bases[t], SerialNo(h.ids[t]), value)
    && ExactBut(m, m1, m.frame + FRAME_RECEIVER + m.Info(m.frame).handlerBase,
                m.frame + FRAME_RECEIVER + m.Info(m.frame).frameSlots)
  }

  lemma StashReadied(m: Machine, h: History, t: nat, value: Value)
    requires Wf(m, h) && t < |h.bases| - 1 && ArmedBlock(m, m.frame).Some? && m.Valid(value)
    ensures Readied(m, h, Stash(m, h.bases[t], value), t, value)
  {
    ArmedTop(m, h);
    WfFrames(m, h);
    assert m.Serial(h.bases[t]) == SerialNo(h.ids[t]) by {
      assert FrameOk(m, h, t);
    }
    StashWords(m, h.bases[t], value);
    StashKeeps(m, h, h.bases[t], value);
    hide Wf, Keeps, FramesOk, ArmedBlock, Stash, Stashed, SerialNo;
  }

  lemma ReadiedMore(m: Machine, h: History, m1: Machine, m2: Machine, t: nat, value: Value)
    requires Wf(m, h) && t < |h.bases| - 1 && Readied(m, h, m1, t, value)
    requires var info := m.Info(m.frame); info.handlerBase + FRAME_RECEIVER <= info.frameSlots
    requires Wf(m2, h) && Keeps(m1, h, m2, h, |h.bases|) && m2 == m1.(stack := m2.stack)
    requires forall a :: a < m.frame + FRAME_RECEIVER + m.Info(m.frame).frameSlots ==> m2.At(a) == m1.At(a)
    ensures Readied(m, h, m2, t, value)
  {
    hide Wf, FramesOk, SerialNo, FrameOk, MethodsOk;
    WfFrames(m, h);
    KeepsTrans2(m, h, m1, h, m2, h, |h.bases|, |h.bases|);
    hide Keeps;
    assert m2.At(m.frame + FRAME_METHOD) == m1.At(m.frame + FRAME_METHOD);
  }

  lemma ReadiedPending(m: Machine, h: History, m1: Machine, t: nat, value: Value)
    requires Wf(m, h) && t < |h.bases| - 1 && Readied(m, h, m1, t, value)
    ensures SomePending(m1, h, |h.bases| - 1)
  {
    WfFrames(m, h);
    hide Wf, FramesOk, Keeps, ExactBut, SerialNo;
    assert HoldsPending(m1, h, |h.bases| - 1, t);
  }

  lemma ReadiedPush(m: Machine, h: History, m3: Machine, t: nat, value: Value, block: Addr, r: nat)
    requires Wf(m, h) && t < |h.bases| - 1 && Readied(m, h, m3, t, value) && block in m.methods
    requires var info := m.Info(m.frame); info.isEnsure && info.handlerBase + FRAME_RECEIVER <= info.frameSlots <= 251
    requires r == m.Info(m.frame).frameSlots + FRAME_RECEIVER
    ensures var o := PushFrame(m3, block, r, 0, 0, None, true, true);
      if o.Running? then Intercepted(m, h, o.m, t, value) else o == Failed(StackOverflow)
  {
    hide Wf, FramesOk, Keeps, ExactBut, SerialNo, PushFrame, SomePending, Stashed, MethodsOk;
    WfFrames(m, h);
    ReadiedPending(m, h, m3, t, value);
    PushKeeps(m3, h, block, r, 0, 0, None, true, true);
    var o := PushFrame(m3, block, r, 0, 0, None, true, true);
    if o.Running? {
      KeepsTrans2(m, h, m3, h, o.m, h.Push(m.frame + r), |h.bases|, |h.bases|);
      PushClosures(m3, block, r);
      KeepsNil(m, h, o.m, h.Push(m.frame + r), |h.bases|);
      PushedStash(m, m3, o.m, h.bases[t], SerialNo(h.ids[t]), value);
    }
  }

  /** The words below the block's frame are those from before the push. */
  lemma PushedStash(m: Machine, m3: Machine, m4: Machine, target: nat, serial: int, value: Value)
    requires m3 == m.(stack := m3.stack) && m4.methods == m.methods && m4.nil == m.nil
    requires m4.frame == m.frame + FRAME_RECEIVER + m.Info(m.frame).frameSlots
    requires m.Info(m.frame).handlerBase + FRAME_RECEIVER <= m.Info(m.frame).frameSlots
    requires m3.Info(m.frame) == m.Info(m.frame) && Stashed(m3, m.frame, target, serial, value)
    requires ExactBut(m, m3, m.frame + FRAME_RECEIVER + m.Info(m.frame).handlerBase, m4.frame)
    requires forall a :: 0 <= a < m4.frame ==> m4.At(a) == m3.At(a)
    ensures m4.Info(m.frame) == m.Info(m.frame) && Stashed(m4, m.frame, target, serial, value)
    ensures ExactBut(m, m4, m.frame + FRAME_RECEIVER + m.Info(m.frame).handlerBase, m4.frame)
  {
    assert m4.At(m.frame + FRAME_METHOD) == m3.At(m.frame + FRAME_METHOD);
  }

  lemma EnsureKeeps(m: Machine, h: History, t: nat, value: Value, closure: Addr)
    requires Wf(m, h) && t < |h.bases| - 1 && ArmedBlock(m, m.frame) == Some(closure) && m.Valid(value)
    ensures closure in m.closures
    ensures var o := RunEnsure(m, h.bases[t], value, closure);
      if o.Running? then Intercepted(m, h, o.m, t, value)
      else o == Failed(StackOverflow) || o == Failed(EnsureTakesArguments)
  {
    hide Wf, Keeps, FramesOk, ArmedBlock, Stash, PushFrame, Room, Readied, Intercepted, RunEnsure, Machine.Put, Machine.Info;
    ArmedTop(m, h);
    WfFrames(m, h);
    StashReadied(m, h, t, value);
    var m1 := Stash(m, h.bases[t], value);
    var block := m.closures[closure].block;
    var r := m.Info(m.frame).frameSlots + FRAME_RECEIVER;
    var needed := m.frame + FRAME_RECEIVER + r + 1;
    RunEnsureIs(m, h.bases[t], value, closure, r);
    if block in m.methods && m.methods[block].argc == 0 && Room(m1, needed).Some? {
      var m2 := Room(m1, needed).value;
      RoomReadied(m, h, m1, needed, t, value);
      StageReadied(m, h, m2, t, value, r, Ptr(closure));
      ReadiedPush(m, h, m2.Put(r, Ptr(closure)), t, value, block, r);
    }
  }

  lemma RunEnsureIs(m: Machine, target: nat, value: Value, closure: Addr, r: nat)
    requires closure in m.closures && r == m.Info(m.frame).frameSlots + FRAME_RECEIVER && r < 256
    ensures var block := m.closures[closure].block;
      RunEnsure(m, target, value, closure) ==
        if block !in m.methods || m.methods[block].argc != 0 then Failed(EnsureTakesArguments)
        else match Room(Stash(m, target, value), m.frame + FRAME_RECEIVER + r + 1)
             case None => Failed(StackOverflow)
             case Some(m2) => PushFrame(m2.Put(r, Ptr(closure)), block, r, 0, 0, None, true, true)
  {
    hide PushFrame, Room, Stash;
    assert Stash(m, target, value).methods == m.methods && Stash(m, target, value).closures == m.closures by {
      StashFields(m, target, value);
    }
  }

  lemma StashFields(m: Machine, target: nat, value: Value)
    ensures var m1 := Stash(m, target, value);
      m1.methods == m.methods && m1.closures == m.closures && m1.frame == m.frame
  {
  }

  lemma RoomReadied(m: Machine, h: History, m1: Machine, needed: nat, t: nat, value: Value)
    requires Wf(m, h) && t < |h.bases| - 1 && Readied(m, h, m1, t, value) && Room(m1, needed).Some?
    requires var info := m.Info(m.frame); info.handlerBase + FRAME_RECEIVER <= info.frameSlots
    ensures Readied(m, h, Room(m1, needed).value, t, value)
  {
    hide Wf, Keeps, Stashed, ExactBut, SerialNo;
    var m2 := Room(m1, needed).value;
    RoomKeeps(m1, needed);
    RoomWf(m1, h, needed);
    ReadiedMore(m, h, m1, m2, t, value);
  }

  lemma StageReadied(m: Machine, h: History, m1: Machine, t: nat, value: Value, r: nat, v: Value)
    requires Wf(m, h) && t < |h.bases| - 1 && Readied(m, h, m1, t, value)
    requires var info := m.Info(m.frame); info.handlerBase + FRAME_RECEIVER <= info.frameSlots <= r
    requires m.Valid(v)
    ensures Readied(m, h, m1.Put(r, v), t, value)
  {
    hide Wf, Keeps, Stashed, ExactBut, SerialNo;
    StagedWords(m1, r, v);
    PutKeeps(m1, h, r, v);
    ReadiedMore(m, h, m1, m1.Put(r, v), t, value);
  }

  lemma StagedWords(m: Machine, r: nat, v: Value)
    ensures m.Put(r, v) == m.(stack := m.Put(r, v).stack)
    ensures forall a :: a < m.frame + FRAME_RECEIVER + r ==> m.Put(r, v).At(a) == m.At(a)
  {
  }

  lemma PushClosures(m: Machine, block: Addr, r: nat)
    requires block in m.methods && PushFrame(m, block, r, 0, 0, None, true, true).Running?
    ensures PushFrame(m, block, r, 0, 0, None, true, true).m.closures == m.closures
  {
  }

  /** The block of an ensure method runs above the method's own slots exactly when there are at most 251 of them. */
  lemma EnsureSlotsIff(m: Machine, target: nat, value: Value, closure: Addr)
    requires closure in m.closures && m.Info(m.frame).frameSlots <= 255
    requires RunEnsure(m, target, value, closure).Running?
    ensures RunEnsure(m, target, value, closure).m.frame >= m.frame + FRAME_RECEIVER + m.Info(m.frame).frameSlots
      <==> m.Info(m.frame).frameSlots <= 251
  {
    var r := m.Info(m.frame).frameSlots + FRAME_RECEIVER;
    assert Stash(m, target, value).frame == m.frame;
    assert RunEnsure(m, target, value, closure).m.frame == m.frame + Low8(r);
  }

  /** A base frame at 1 and above it, at 7, an armed ensure frame of 252 slots, on a stack with room. */
  function WideExample(): Machine {
    var nil := Ptr(0);
    Machine([nil, Int(0), Int(0), Ptr(40), Int(SERIAL_UNIT), nil, nil,
             Int(1), Int(0), Ptr(16), Int(FLAG_ENSURE + 2 * SERIAL_UNIT), nil, Ptr(32)] + seq(300, i => nil),
            7, 0, 2, {0, 8, 16, 24, 32, 40},
            map[32 := Closure(24, nil, Int(0), Int(0))],
            map[16 := MethodInfo(252, 0, false, true, 1, false), 24 := MethodInfo(1, 0, false, false, 0, false),
                40 := MethodInfo(2, 0, false, false, 0, false)],
            Ptr(8), nil, 400)
  }

  lemma WideArmed()
    ensures var m := WideExample();
      m.Info(m.frame) == m.methods[16] && ArmedBlock(m, m.frame) == Some(32) && Scan(m, 1) == AtEnsure(m, 32)
  {
    var m := WideExample();
    assert m.At(9) == Ptr(16) && m.At(10) == Int(FLAG_ENSURE + 2 * SERIAL_UNIT) && m.At(12) == Ptr(32);
    assert (FLAG_ENSURE + 2 * SERIAL_UNIT) / FLAG_ENSURE % 2 == 1;
  }

  /** An input on which it does not: an unwind lays the block's frame over the ensure frame itself. */
  lemma WideEnsure(value: Value)
    ensures var m := WideExample();
      && m.Info(m.frame).isEnsure && m.Info(m.frame).frameSlots == 252
      && Unwind(m, 1, value).Running? && Unwind(m, 1, value).m.frame == m.frame
  {
    var m := WideExample();
    WideArmed();
    StashSame(m, 1, value);
    assert Low8(252 + FRAME_RECEIVER) == 0;
    hide Stash, Scan, ArmedBlock;
    assert RunEnsure(m, 1, value, 32).Running?;
  }

  lemma StashSame(m: Machine, target: nat, value: Value)
    ensures var m1 := Stash(m, target, value); m1 == m.(stack := m1.stack) && |m1.stack| == |m.stack|
  {
  }

  // ---------- resuming a pending unwind ----------

  /** The pending unwind a finished ensure block finds goes to a frame still on the stack. */
  lemma PendingReads(m: Machine, h: History) returns (t: nat)
    requires Wf(m, h) && m.Flag(m.frame, FLAG_UNWINDCONT)
    ensures |h.bases| > 1 && t < |h.bases| - 2
    ensures var n := |h.bases| - 1; var e := h.bases[n - 1]; var m1 := Pop(m, e);
      var slots := e + FRAME_RECEIVER + m.Info(e).handlerBase;
      && Wf(m1, h.Cut(n)) && Keeps(m, h, m1, h.Cut(n), n)
      && m1.closures == m.closures && m1.methods == m.methods && m1.nil == m.nil
      && (forall a :: 0 <= a < m.frame ==> m1.At(a) == m.At(a))
      && m1.Info(e) == m.Info(e) && slots + FRAME_RECEIVER <= m.frame && m.Info(e).isEnsure
      && Pending(m) == Some(PendingUnwind(m1, h.bases[t], Int(SerialNo(h.ids[t])), m.At(slots + ENSURE_SLOT_PENDING_VALUE)))
      && m.Valid(m.At(slots + ENSURE_SLOT_PENDING_VALUE))
      && m.At(slots + ENSURE_SLOT_PENDING_TARGET) == Int(h.bases[t])
  {
    var n := |h.bases| - 1;
    assert PendingOk(m, h, n);
    var e := h.bases[n - 1];
    t :| HoldsPending(m, h, n - 1, t);
    EnsureNoHandler(m, e);
    PopKeeps(m, h);
    PopSame(m, h);
    assert FrameOk(m, h, n - 1);
    hide Wf, Keeps, FramesOk, Pop, PendingOk, FrameOk, MethodsOk, SerialNo;
    PendingIs(m, e);
  }

  lemma PendingIs(m: Machine, e: nat)
    requires m.Caller(m.frame) == e < m.frame
    requires var info := m.Info(e); info.handlerBase + FRAME_RECEIVER <= info.frameSlots <= 251
    requires e + FRAME_RECEIVER + m.Info(e).handlerBase + FRAME_RECEIVER <= m.frame
    requires Pop(m, e).methods == m.methods && forall a :: 0 <= a < m.frame ==> Pop(m, e).At(a) == m.At(a)
    requires m.At(e + FRAME_RECEIVER + m.Info(e).handlerBase + ENSURE_SLOT_PENDING_TARGET).Int?
    ensures Pop(m, e).Info(e) == m.Info(e)
    ensures var slots := e + FRAME_RECEIVER + m.Info(e).handlerBase;
      Pending(m) == Some(PendingUnwind(Pop(m, e), m.At(slots + ENSURE_SLOT_PENDING_TARGET).n,
                                       m.At(slots + ENSURE_SLOT_PENDING_SERIAL), m.At(slots + ENSURE_SLOT_PENDING_VALUE)))
  {
    assert Pop(m, e).frame == e;
    hide Pop;
    assert Pop(m, e).At(e + FRAME_METHOD) == m.At(e + FRAME_METHOD);
  }

  // ---------- an unwind never loses its way ----------

  /** The outcomes an unwind or return can have: no fatal error of the unwinder is among them. */
  ghost predicate Proceeds(m: Machine, h: History, o: Outcome, h': History, k: nat) {
    match o
    case Running(m') => Wf(m', h') && Keeps(m, h, m', h', k)
    case Halted(_, _) => true
    case CannotReturn(_, _, _, _) => false
    case Failed(e) => e == StackOverflow || e == EnsureTakesArguments
  }

  lemma ProceedsTrans(m: Machine, h: History, m1: Machine, h1: History, k1: nat, o: Outcome, h': History, k2: nat)
    requires Wf(m, h) && Keeps(m, h, m1, h1, k1) && Proceeds(m1, h1, o, h', k2)
    ensures Proceeds(m, h, o, h', if k1 <= k2 then k1 else k2)
  {
    hide Wf, Keeps, FramesOk;
    WfFrames(m, h);
    if o.Running? {
      KeepsTrans(m, h, m1, h1, o.m, h', k1, k2);
    }
  }

  lemma {:induction false} UnwindKeeps(m: Machine, h: History, t: nat, value: Value) returns (h': History, k: nat)
    requires Wf(m, h) && t < |h.bases| && m.Valid(value)
    ensures Proceeds(m, h, Unwind(m, h.bases[t], value), h', k)
    decreases |h.bases|, 1
  {
    hide Wf, Keeps, FramesOk, RunEnsure, Return, Scan, StoppedArmed, StoppedWords, Intercepted, ArmedBlock;
    var k0 := ScanKeeps(m, h, t);
    var s := Scan(m, h.bases[t]);
    StoppedOne(m, h, t, s, k0);
    var m1, h1 := s.m, h.Cut(k0);
    if s.AtTarget? {
      h', k := ReturnKeeps(m1, h1, value);
      ProceedsTrans(m, h, m1, h1, k0, Return(m1, value), h', k);
      k := if k0 <= k then k0 else k;
    } else {
      WfFrames(m1, h1);
      EnsureKeeps(m1, h1, t, value, s.block);
      var o := RunEnsure(m1, h1.bases[t], value, s.block);
      h', k := (if o.Running? then h1.Push(o.m.frame) else h1), k0;
      if o.Running? {
        InterceptedKeeps(m1, h1, o.m, t, value);
      }
      ProceedsTrans(m, h, m1, h1, k0, o, h', k0);
    }
  }

  lemma StoppedOne(m: Machine, h: History, t: nat, s: Stop, k: nat)
    requires Wf(m, h) && t < |h.bases| && Stopped(m, h, t, s, k)
    ensures !s.Lost? && Wf(s.m, h.Cut(k)) && Keeps(m, h, s.m, h.Cut(k), k) && s.m.objects >= m.objects
    ensures 1 <= k <= |h.bases| && |h.ids| == |h.bases| && t < k && h.Cut(k).bases[t] == h.bases[t]
    ensures s.AtTarget? ==> k == t + 1
    ensures s.AtEnsure? ==> t < k - 1 && ArmedBlock(s.m, s.m.frame) == Some(s.block)
  {
    hide Wf, FramesOk, ArmedBlock;
    WfFrames(m, h);
  }

  lemma InterceptedKeeps(m: Machine, h: History, m1: Machine, t: nat, value: Value)
    requires Shape(h) && t < |h.bases| && Intercepted(m, h, m1, t, value)
    ensures Wf(m1, h.Push(m1.frame)) && Keeps(m, h, m1, h.Push(m1.frame), |h.bases|)
  {
  }

  lemma {:induction false} ReturnKeeps(m: Machine, h: History, value: Value) returns (h': History, k: nat)
    requires Wf(m, h) && m.Valid(value)
    ensures Proceeds(m, h, Return(m, value), h', k)
    decreases |h.bases|, 0
  {
    hide Wf, Keeps, FramesOk, Unwind, Pending, Resume;
    WfFrames(m, h);
    var n := |h.bases| - 1;
    if m.Flag(m.frame, FLAG_UNWINDCONT) {
      var t := PendingReads(m, h);
      var m1, h1, p := Pop(m, h.bases[n - 1]), h.Cut(n), Pending(m).value;
      TargetLives(m1, h1, t);
      KeepsObjects(m, h, m1, h1, n);
      h', k := UnwindKeeps(m1, h1, t, p.value);
      ProceedsTrans(m, h, m1, h1, n, Unwind(m1, h1.bases[t], p.value), h', k);
      k := if n <= k then n else k;
    } else if n == 0 {
      BaseCaller(m, h);
      h', k := h, 1;
    } else {
      ResumeKeeps(m, h, value);
      h', k := h.Cut(n), n;
    }
  }

  lemma BaseCaller(m: Machine, h: History)
    requires Wf(m, h) && |h.bases| == 1
    ensures m.Caller(m.frame) == 0
  {
    assert FrameOk(m, h, 0);
  }

  lemma KeepsObjects(m: Machine, h: History, m1: Machine, h1: History, k: nat)
    requires Keeps(m, h, m1, h1, k)
    ensures m.objects <= m1.objects
  {
  }

  lemma TargetLives(m: Machine, h: History, t: nat)
    requires Wf(m, h) && t < |h.bases| && t < |h.ids|
    ensures h.bases[t] <= m.frame && m.At(h.bases[t] + FRAME_FLAGS).Int? && m.Serial(h.bases[t]) == SerialNo(h.ids[t])
  {
    assert FrameOk(m, h, t);
  }
}
