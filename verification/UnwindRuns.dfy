/** A whole unwind: each armed ensure block above the target runs once, innermost first, and the value arrives. */
module UnwindRuns {
  import opened ObjectMemory
  import opened Options
  import opened Frames
  import opened Activations
  import opened Unwinder

  /** From `m1`, where a frame has just been pushed, to `m2`, where the same activation is on top again and about to
      return. Above its control words anything may have happened. */
  ghost predicate Ran(m1: Machine, h1: History, m2: Machine, h2: History) {
    Wf(m2, h2) && h2.bases == h1.bases && h2.ids == h1.ids && Keeps(m1, h1, m2, h2, |h1.bases|)
  }

  /** One interception: the unwind stops at the armed frame `k - 1`, its block is activated and runs until it returns. */
  ghost predicate Round(m: Machine, h: History, target: nat, value: Value, a: Activation, k: nat,
                        m1: Machine, m2: Machine, h2: History) {
    var s := Scan(m, target);
    && s.AtEnsure? && a == Activation(s.m.frame, s.block) && s.block in s.m.closures
    && 1 <= k <= |h.bases| && k <= |h.ids| && h.bases[k - 1] == s.m.frame
    && RunEnsure(s.m, target, value, s.block) == Running(m1)
    && Ran(m1, h.Cut(k).Push(m1.frame), m2, h2) && |h2.bases| == |h2.ids| == k + 1
  }

  /** A whole unwind to `target`: the blocks of `log` run one after the other, each return resuming the pending unwind,
      until the frame at `target` is on top in `mT`, about to return `vT`. */
  ghost predicate UnwindRun(m: Machine, h: History, target: nat, value: Value, log: seq<Activation>, mT: Machine, vT: Value)
    decreases |log|, 0
  {
    if log == [] then Scan(m, target) == AtTarget(mT) && vT == value
    else exists k: nat, m1, m2, h2 ::
      Round(m, h, target, value, log[0], k, m1, m2, h2) && Resumed(m2, h2, k, log[1..], mT, vT)
  }

  ghost predicate Resumed(m2: Machine, h2: History, k: nat, log: seq<Activation>, mT: Machine, vT: Value)
    requires k <= |h2.bases| && k <= |h2.ids|
    decreases |log|, 1
  {
    && Pending(m2).Some? && Pending(m2).value.target >= 0
    && var p := Pending(m2).value;
       UnwindRun(p.m, h2.Cut(k), p.target, p.value, log, mT, vT)
  }

  /** When the block of an intercepted unwind returns, whatever it answers, the pending unwind goes on. */
  lemma BlockReturnResumes(m: Machine, h: History, answer: Value)
    requires Wf(m, h) && m.Flag(m.frame, FLAG_UNWINDCONT)
    ensures Pending(m).Some? && Pending(m).value.target >= 0
    ensures var p := Pending(m).value; Return(m, answer) == Unwind(p.m, p.target, p.value)
  {
    hide Wf, Keeps, FramesOk, Pending, Unwind, Pop;
    var t := PendingReads(m, h);
    WfFrames(m, h);
    TargetLives(Pop(m, h.bases[|h.bases| - 2]), h.Cut(|h.bases| - 1), t);
  }

  // ---------- one round ----------

  /** The scan stopped at the frame the round names. */
  lemma RoundStop(m: Machine, h: History, t: nat, value: Value, a: Activation, k: nat, m1: Machine, m2: Machine, h2: History)
    requires Wf(m, h) && t < |h.bases| && m.Valid(value) && Round(m, h, h.bases[t], value, a, k, m1, m2, h2)
    ensures var s := Scan(m, h.bases[t]);
      && Stopped(m, h, t, s, k) && t < k - 1 && Wf(s.m, h.Cut(k)) && s.m.frame == h.bases[k - 1]
      && Intercepted(s.m, h.Cut(k), m1, t, value)
  {
    hide Wf, Keeps, FramesOk, RunEnsure, Scan, StoppedArmed, StoppedWords, Intercepted, Ran, ArmedBlock;
    var s := Scan(m, h.bases[t]);
    var k0 := ScanKeeps(m, h, t);
    StoppedOne(m, h, t, s, k0);
    WfFrames(s.m, h.Cut(k0));
    WfFrames(m, h);
    assert k0 == k;
    EnsureKeeps(s.m, h.Cut(k), t, value, s.block);
  }

  /** While the block ran, the ensure frame kept the pending unwind. */
  lemma StashedStays(m: Machine, h: History, m1: Machine, m2: Machine, h2: History, t: nat, value: Value)
    requires Wf(m, h) && t < |h.bases| && m.Info(m.frame).isEnsure && Intercepted(m, h, m1, t, value)
    requires Ran(m1, h.Push(m1.frame), m2, h2)
    ensures Stashed(m2, m.frame, h.bases[t], SerialNo(h.ids[t]), value) && m2.Info(m.frame) == m.Info(m.frame)
    ensures m2.Flag(m2.frame, FLAG_UNWINDCONT) && m2.frame == m1.frame
    ensures forall a :: 0 <= a < m1.frame && m2.At(a) != m1.At(a) ==> StateWord(m1, h.Push(m1.frame), a)
    ensures m.frame + FRAME_RECEIVER + m.Info(m.frame).handlerBase + FRAME_RECEIVER <= m1.frame
  {
    hide FramesOk, Keeps, Stashed, SerialNo, StateWord, MethodsOk;
    EnsureNoHandler(m, m.frame);
    var h1, n := h.Push(m1.frame), |h.bases|;
    WfFrames(m, h);
    WfFrames(m1, h1);
    WfFrames(m2, h2);
    InfoKept(m1, h1, m2, h2, n + 1, n);
    InfoKept(m1, h1, m2, h2, n + 1, n - 1);
    StashedWords(m1, h1, m2, h2, n, h.bases[t], SerialNo(h.ids[t]), value);
    BelowKept(m1, h1, m2, h2, n + 1);
  }

  lemma BelowKept(m: Machine, h: History, m': Machine, h': History, k: nat)
    requires Keeps(m, h, m', h', k)
    ensures forall a :: 0 <= a < h.bases[k - 1] && m'.At(a) != m.At(a) ==> StateWord(m, h, a)
    ensures m.objects <= m'.objects && m'.methods == m.methods && m'.nil == m.nil
    ensures forall a :: a in m'.closures && a in m.objects ==> a in m.closures
    ensures forall a :: a in m.closures ==> a in m'.closures
  {
  }

  lemma StashedWords(m1: Machine, h1: History, m2: Machine, h2: History, n: nat, target: nat, serial: int, value: Value)
    requires Wf(m1, h1) && Keeps(m1, h1, m2, h2, n + 1) && 1 <= n && |h1.bases| == n + 1
    requires m1.Info(h1.bases[n - 1]).isEnsure && m2.Info(h1.bases[n - 1]) == m1.Info(h1.bases[n - 1])
    requires Stashed(m1, h1.bases[n - 1], target, serial, value)
    ensures Stashed(m2, h1.bases[n - 1], target, serial, value)
  {
    hide Wf, FramesOk, MethodsOk, Keeps;
    WfFrames(m1, h1);
    BelowKept(m1, h1, m2, h2, n + 1);
    ReservedKept(m1, h1, m2, h2, n + 1, n - 1, ENSURE_SLOT_BLOCK);
    ReservedKept(m1, h1, m2, h2, n + 1, n - 1, ENSURE_SLOT_PENDING_TARGET);
    ReservedKept(m1, h1, m2, h2, n + 1, n - 1, ENSURE_SLOT_PENDING_SERIAL);
    ReservedKept(m1, h1, m2, h2, n + 1, n - 1, ENSURE_SLOT_PENDING_VALUE);
  }

  lemma StashedSame(m2: Machine, p: Machine, e: nat, n: nat, target: nat, serial: int, value: Value)
    requires Stashed(m2, e, target, serial, value) && p.methods == m2.methods && p.nil == m2.nil
    requires e + FRAME_RECEIVER + m2.Info(e).handlerBase + FRAME_RECEIVER <= n
    requires forall a :: 0 <= a < n ==> p.At(a) == m2.At(a)
    ensures Stashed(p, e, target, serial, value) && p.Info(e) == m2.Info(e)
  {
    assert p.At(e + FRAME_METHOD) == m2.At(e + FRAME_METHOD);
  }

  lemma RanWf(m1: Machine, h1: History, m2: Machine, h2: History)
    requires Ran(m1, h1, m2, h2) && |h1.bases| > 0
    ensures Wf(m2, h2) && h2.bases == h1.bases && h2.ids == h1.ids && |h2.bases| == |h2.ids| && |h1.ids| == |h1.bases|
    ensures m2.frame == h1.bases[|h1.bases| - 1]
  {
    hide FramesOk;
  }

  lemma StashedValue(m: Machine, e: nat, target: nat, serial: int, value: Value)
    requires Stashed(m, e, target, serial, value)
    ensures var slots := e + FRAME_RECEIVER + m.Info(e).handlerBase;
      m.At(slots + ENSURE_SLOT_PENDING_TARGET) == Int(target) && m.At(slots + ENSURE_SLOT_PENDING_VALUE) == value
  {
  }

  /** After the block has returned the ensure frame is on top again, holding the unwind it passes on. */
  lemma RoundResumes(m: Machine, h: History, m1: Machine, m2: Machine, h2: History, t: nat, value: Value)
    requires Wf(m, h) && t < |h.bases| && m.Info(m.frame).isEnsure && Intercepted(m, h, m1, t, value)
    requires Ran(m1, h.Push(m1.frame), m2, h2)
    ensures |h2.bases| == |h2.ids| == |h.bases| + 1 && h2.Cut(|h.bases|).bases == h.bases && h2.Cut(|h.bases|).ids == h.ids
    ensures Pending(m2).Some?
    ensures var p := Pending(m2).value;
      && p.target == h.bases[t] && p.value == value && Wf(p.m, h2.Cut(|h.bases|)) && p.m.frame == m.frame
      && Keeps(m2, h2, p.m, h2.Cut(|h.bases|), |h.bases|) && p.m.closures == m2.closures && m2.Valid(value)
      && Stashed(p.m, m.frame, h.bases[t], SerialNo(h.ids[t]), value) && p.m.Info(m.frame) == m.Info(m.frame)
      && forall a :: 0 <= a < m1.frame ==> p.m.At(a) == m2.At(a)
  {
    hide Keeps, FramesOk, Pending, SerialNo, StateWord, Intercepted, Ran, Pop, Wf, Stashed;
    WfFrames(m, h);
    StashedStays(m, h, m1, m2, h2, t, value);
    StashedValue(m2, m.frame, h.bases[t], SerialNo(h.ids[t]), value);
    RanWf(m1, h.Push(m1.frame), m2, h2);
    StashedSame(m2, Pop(m2, m.frame), m.frame, m1.frame, h.bases[t], SerialNo(h.ids[t]), value) by {
      PopSame(m2, h2);
    }
    var t2 := PendingReads(m2, h2);
    WfFrames(Pop(m2, m.frame), h2.Cut(|h.bases|));
    assert h2.Cut(|h.bases|).bases == h.bases && h2.Cut(|h.bases|).ids == h.ids;
  }

  /** Whether a suspended frame is armed does not change while frames above it run. */
  lemma ArmedKept(m: Machine, h: History, m': Machine, h': History, k: nat, i: nat)
    requires Wf(m, h) && Keeps(m, h, m', h', k) && i + 1 < k
    ensures ArmedBlock(m', h.bases[i]) == ArmedBlock(m, h.bases[i])
  {
    hide FramesOk, StateWord, SameBelow;
    WfFrames(m, h);
    var b := h.bases[i];
    InfoKept(m, h, m', h', k, i);
    if m.Flag(b, FLAG_ENSURE) {
      EnsureFrame(m, h, i);
      ReservedKept(m, h, m', h', k, i, ENSURE_SLOT_BLOCK);
      var v := m.At(b + FRAME_RECEIVER + m.Info(b).handlerBase + ENSURE_SLOT_BLOCK);
      assert m.Valid(v);
    }
  }

  lemma EnsureFrame(m: Machine, h: History, i: nat)
    requires Wf(m, h) && i < |h.bases| && m.Flag(h.bases[i], FLAG_ENSURE)
    ensures m.Info(h.bases[i]).isEnsure
    ensures m.Info(h.bases[i]).handlerBase + FRAME_RECEIVER <= m.Info(h.bases[i]).frameSlots <= 251
  {
    assert FrameOk(m, h, i);
    EnsureNoHandler(m, h.bases[i]);
  }

  lemma {:induction false} ArmedAboveKept(m: Machine, h: History, m': Machine, h': History, k: nat, j: nat, t: nat)
    requires Wf(m, h) && Keeps(m, h, m', h', k) && j < k
    ensures k <= |h.bases| && ArmedAbove(m', h.bases[..j], t) == ArmedAbove(m, h.bases[..j], t)
    decreases j
  {
    hide Wf, ArmedBlock, SameBelow, SameWorld, Shape;
    if j > t + 1 {
      assert h.bases[..j][..j - 1] == h.bases[..j - 1];
      ArmedKept(m, h, m', h', k, j - 1);
      ArmedAboveKept(m, h, m', h', k, j - 1, t);
    }
  }

  lemma StashedDisarms(m: Machine, h: History, target: nat, serial: int, value: Value)
    requires Wf(m, h) && m.Info(m.frame).isEnsure && Stashed(m, m.frame, target, serial, value)
    ensures ArmedBlock(m, m.frame).None?
  {
    EnsureNoHandler(m, m.frame);
    hide FramesOk;
  }

  /** After a round the armed frames are those that were below the one that ran. */
  lemma RoundArmed(m: Machine, h: History, m1: Machine, m2: Machine, h2: History, t: nat, value: Value)
    requires Wf(m, h) && t < |h.bases| - 1 && m.Info(m.frame).isEnsure && Intercepted(m, h, m1, t, value)
    requires Ran(m1, h.Push(m1.frame), m2, h2)
    ensures |h2.bases| == |h2.ids| == |h.bases| + 1 && Pending(m2).Some?
    ensures var p := Pending(m2).value.m;
      && Keeps(m, h, p, h2.Cut(|h.bases|), |h.bases|)
      && ArmedAbove(p, h.bases, t) == ArmedAbove(m, h.bases[..|h.bases| - 1], t)
  {
    hide Wf, Keeps, FramesOk, Pending, SerialNo, StateWord, ExactBut, ArmedBlock, Stashed;
    RoundResumes(m, h, m1, m2, h2, t, value);
    WfFrames(m, h);
    var p, h3, n := Pending(m2).value.m, h2.Cut(|h.bases|), |h.bases|;
    KeepsTrans2(m, h, m1, h.Push(m1.frame), m2, h2, n, n + 1, n);
    KeepsTrans2(m, h, m2, h2, p, h3, n, n, n);
    StashedDisarms(p, h3, h.bases[t], SerialNo(h.ids[t]), value);
    ArmedAboveKept(m, h, p, h3, n, n - 1, t);
  }

  lemma KeepsTrans2(m: Machine, h: History, m1: Machine, h1: History, m2: Machine, h2: History, k: nat, k2: nat, j: nat)
    requires Wf(m, h) && Keeps(m, h, m1, h1, k) && Keeps(m1, h1, m2, h2, k2) && j == if k <= k2 then k else k2
    ensures Keeps(m, h, m2, h2, j)
  {
    KeepsTrans(m, h, m1, h1, m2, h2, k, k2);
  }

  // ---------- the whole unwind ----------

  /** Below the slots of the frame above, frame `t` and all below it are as they were, but for handler states. */
  ghost predicate KeptTo(m: Machine, h: History, m': Machine, t: nat)
    requires t < |h.bases|
  {
    t + 1 < |h.bases| ==> SameBelow(m, h, m', h.bases[t + 1])
  }

  lemma KeptToTrans(m: Machine, h: History, m1: Machine, h1: History, m2: Machine, k: nat, t: nat)
    requires Wf(m, h) && Keeps(m, h, m1, h1, k) && t + 1 < k && |h1.bases| == k && h1.bases == h.bases[..k]
    requires KeptTo(m1, h1, m2, t)
    ensures KeptTo(m, h, m2, t)
  {
    hide Wf, FramesOk, StateWord;
    WfFrames(m, h);
    assert h1.bases[t + 1] == h.bases[t + 1];
    forall a | 0 <= a < h.bases[t + 1] && m2.At(a) != m.At(a)
      ensures StateWord(m, h, a)
    {
      if m1.At(a) == m.At(a) {
        StateWordBack(m, h, m1, h1, k, k, a);
      }
    }
  }

  lemma ScanKept(m: Machine, h: History, t: nat, mT: Machine)
    requires Shape(h) && t < |h.bases| && StoppedWords(m, h, mT, t + 1)
    ensures KeptTo(m, h, mT, t)
  {
  }

  lemma RoundKeeps(m: Machine, h: History, t: nat, value: Value, a: Activation, k: nat, m1: Machine, m2: Machine, h2: History)
    requires Wf(m, h) && t < |h.bases| && m.Valid(value) && Round(m, h, h.bases[t], value, a, k, m1, m2, h2)
    ensures |h.bases| == |h.ids| && 1 <= k <= |h.bases| && t + 1 < k
    ensures |h2.bases| == |h2.ids| == k + 1 && h2.Cut(k).bases == h.bases[..k] && h2.Cut(k).ids == h.ids[..k]
    ensures Pending(m2).Some?
    ensures var p := Pending(m2).value;
      && p.target == h.bases[t] && p.value == value && p.m.Valid(value) && Wf(p.m, h2.Cut(k)) && Keeps(m, h, p.m, h2.Cut(k), k)
      && ArmedAbove(m, h.bases, t) == [a] + ArmedAbove(p.m, h.bases[..k], t)
  {
    hide Wf, Keeps, FramesOk, RunEnsure, Scan, Intercepted, ArmedAbove, ArmedBlock, Pending, StoppedWords, Ran, SerialNo, Stashed;
    WfFrames(m, h);
    RoundStop(m, h, t, value, a, k, m1, m2, h2);
    var s, h1 := Scan(m, h.bases[t]).m, h.Cut(k);
    WfFrames(s, h1);
    RoundEnsure(m, h, t, k);
    RoundResumes(s, h1, m1, m2, h2, t, value);
    RoundArmed(s, h1, m1, m2, h2, t, value);
    KeepsTrans2(m, h, s, h1, Pending(m2).value.m, h2.Cut(k), k, k, k);
    KeepsObjects(m2, h2, Pending(m2).value.m, h2.Cut(k), k);
    StopArmed(m, h, t, k);
    assert h1.bases[..k - 1] == h.bases[..k - 1];
  }

  lemma RoundEnsure(m: Machine, h: History, t: nat, k: nat)
    requires Shape(h) && t < |h.bases|
    requires var s := Scan(m, h.bases[t]); Stopped(m, h, t, s, k) && s.AtEnsure?
    ensures Scan(m, h.bases[t]).m.Info(Scan(m, h.bases[t]).m.frame).isEnsure
  {
    var s := Scan(m, h.bases[t]).m;
    hide Scan;
    ArmedTop(s, h.Cut(k));
  }

  lemma StopArmed(m: Machine, h: History, t: nat, k: nat)
    requires Wf(m, h) && t < |h.bases|
    requires var s := Scan(m, h.bases[t]); Stopped(m, h, t, s, k) && s.AtEnsure?
    ensures var s := Scan(m, h.bases[t]);
      && s.m.frame == h.bases[k - 1]
      && ArmedAbove(m, h.bases, t) == [Activation(s.m.frame, s.block)] + ArmedAbove(s.m, h.bases[..k - 1], t)
  {
    hide Scan, ArmedAbove, FramesOk, Wf, Keeps, ArmedBlock, StoppedWords;
    var s := Scan(m, h.bases[t]);
    WfFrames(m, h);
    WfFrames(s.m, h.Cut(k));
    ArmedAboveKept(m, h, s.m, h.Cut(k), k, k - 1, t);
  }

  /** An unwind in which every activated block returns activates exactly the armed ensure blocks in frames strictly above
      its target, innermost first and once each; then the target is on top, it and everything below as they were, and
      about to return the value the unwind started with. */
  lemma {:induction false} EveryArmedBlockOnce(m: Machine, h: History, t: nat, value: Value, log: seq<Activation>,
                                               mT: Machine, vT: Value) returns (hT: History)
    requires Wf(m, h) && t < |h.bases| && m.Valid(value)
    requires UnwindRun(m, h, h.bases[t], value, log, mT, vT)
    ensures log == ArmedAbove(m, h.bases, t) && vT == value
    ensures |h.ids| == |h.bases| && hT.bases == h.bases[..t + 1] && hT.ids == h.ids[..t + 1]
    ensures Wf(mT, hT) && Keeps(m, h, mT, hT, t + 1) && KeptTo(m, h, mT, t)
    decreases |log|
  {
    hide Wf, Keeps, FramesOk, Scan, ArmedAbove, Ran, RunEnsure, Pending, KeptTo, StoppedWords, StoppedWf, MethodsOk;
    WfFrames(m, h);
    if log == [] {
      var k := ScanKeeps(m, h, t);
      StoppedOne(m, h, t, Scan(m, h.bases[t]), k);
      ScanKept(m, h, t, mT);
      hT := h.Cut(t + 1);
    } else {
      var k: nat, m1, m2, h2 :|
        Round(m, h, h.bases[t], value, log[0], k, m1, m2, h2) && Resumed(m2, h2, k, log[1..], mT, vT);
      RoundKeeps(m, h, t, value, log[0], k, m1, m2, h2);
      var p, h3 := Pending(m2).value.m, h2.Cut(k);
      hT := EveryArmedBlockOnce(p, h3, t, value, log[1..], mT, vT);
      KeepsTrans2(m, h, p, h3, mT, hT, k, t + 1, t + 1);
      KeptToTrans(m, h, p, h3, mT, k, t);
      assert h.bases[..k][..t + 1] == h.bases[..t + 1] && h.ids[..k][..t + 1] == h.ids[..t + 1];
      assert log == [log[0]] + log[1..];
    }
  }
}
