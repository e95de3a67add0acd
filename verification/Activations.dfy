/** The activations behind the frames of a stack, and what pushing and popping does to them. */
module Activations {
  import opened ObjectMemory
  import opened Options
  import opened Frames

  /** The frames on the stack from the base up, which activation of the process each one is, how many activations there
      have been, and the home activation of each closure that belongs to this process. */
  datatype History = History(bases: seq<nat>, ids: seq<nat>, pushes: nat, births: map<Addr, nat>) {
    ghost function Top(): nat
      requires |bases| > 0
    {
      bases[|bases| - 1]
    }

    /** The first `k` frames. */
    ghost function Cut(k: nat): History
      requires k <= |bases| && k <= |ids|
    {
      this.(bases := bases[..k], ids := ids[..k])
    }

    /** One more activation, at `b`. */
    ghost function Push(b: nat): History {
      this.(bases := bases + [b], ids := ids + [pushes + 1], pushes := pushes + 1)
    }
  }

  ghost predicate Shape(h: History) {
    && |h.bases| == |h.ids| > 0
    && h.bases[0] >= STACK_FRAMES_BASE
    && (forall i, j :: 0 <= i < j < |h.bases| ==> h.bases[i] + FRAME_RECEIVER <= h.bases[j])
    && h.ids[0] >= 1
    && (forall i, j :: 0 <= i < j < |h.ids| ==> h.ids[i] < h.ids[j])
    && (forall i :: 0 <= i < |h.ids| ==> 1 <= h.ids[i] <= h.pushes)
  }

  /** Compiled methods keep their handler or ensure slots inside the frame; a method is not both; the slots of an ensure
      method leave room for its block above them. */
  ghost predicate MethodsOk(m: Machine) {
    forall a :: a in m.methods ==>
      var info := m.methods[a];
      && !(info.isHandler && info.isEnsure)
      && (info.isHandler || info.isEnsure ==> info.handlerBase + FRAME_RECEIVER <= info.frameSlots)
      && (info.isEnsure ==> info.frameSlots <= 251)
  }

  predicate Reserves(info: MethodInfo) {
    info.isHandler || info.isEnsure
  }

  /** The control words of frame `i`; a frame above starts after the handler or ensure slots. */
  ghost predicate FrameOk(m: Machine, h: History, i: nat)
    requires Shape(h) && i < |h.bases|
  {
    var b := h.bases[i];
    && m.At(b + FRAME_CALLER) == Int(if i == 0 then 0 else h.bases[i - 1])
    && m.At(b + FRAME_RETINFO).Int? && m.At(b + FRAME_RETINFO).n >= 0
    && m.At(b + FRAME_METHOD).Ptr? && m.At(b + FRAME_METHOD).addr in m.methods
    && m.At(b + FRAME_FLAGS).Int? && m.Serial(b) == SerialNo(h.ids[i])
    && (m.Flag(b, FLAG_ENSURE) ==> m.Info(b).isEnsure)
    && b + FRAME_RECEIVER + m.Info(b).frameSlots <= |m.stack|
    && (i + 1 < |h.bases| && Reserves(m.Info(b)) ==>
          b + FRAME_RECEIVER + m.Info(b).handlerBase + FRAME_RECEIVER <= h.bases[i + 1])
  }

  /** An unwind continuation runs on an ensure frame that holds a pending unwind to a frame further down. */
  ghost predicate PendingOk(m: Machine, h: History, i: nat)
    requires Shape(h) && i < |h.bases|
  {
    m.Flag(h.bases[i], FLAG_UNWINDCONT) ==>
      && i > 0 && m.Info(h.bases[i - 1]).isEnsure
      && SomePending(m, h, i - 1)
  }

  ghost predicate SomePending(m: Machine, h: History, e: nat)
    requires Shape(h) && e < |h.bases|
  {
    exists t: nat :: HoldsPending(m, h, e, t)
  }

  /** Ensure frame `e` holds a pending unwind to frame `t`. */
  ghost predicate HoldsPending(m: Machine, h: History, e: nat, t: nat)
    requires Shape(h) && e < |h.bases|
  {
    && t < e
    && var slots := h.bases[e] + FRAME_RECEIVER + m.Info(h.bases[e]).handlerBase;
       && m.At(slots + ENSURE_SLOT_BLOCK) == m.nil
       && m.At(slots + ENSURE_SLOT_PENDING_TARGET) == Int(h.bases[t])
       && m.At(slots + ENSURE_SLOT_PENDING_SERIAL) == Int(SerialNo(h.ids[t]))
  }

  /** A closure with a home in this process names the home's frame and serial; frames older than the home are below it. */
  ghost predicate ClosuresOk(m: Machine, h: History) {
    && h.births.Keys <= m.objects
    && forall a :: a in m.closures && m.closures[a].homeProcess == m.process ==>
      a in h.births && HomeOk(h.bases, h.ids, h.pushes, m.closures[a], h.births[a])
  }

  ghost predicate HomeOk(bases: seq<nat>, ids: seq<nat>, pushes: nat, c: Closure, birth: nat) {
    && 1 <= birth <= pushes
    && c.homeOffset.Int? && c.homeOffset.n >= 1
    && c.homeSerial == Int(SerialNo(birth))
    && (forall i :: 0 <= i < |ids| && i < |bases| && ids[i] == birth ==> c.homeOffset.n == bases[i])
    && (forall i :: 0 <= i < |ids| && i < |bases| && ids[i] < birth ==> bases[i] < c.homeOffset.n)
  }

  ghost predicate FramesOk(m: Machine, h: History) {
    && Shape(h)
    && (forall i :: 0 <= i < |h.bases| ==> FrameOk(m, h, i))
    && (forall i :: 0 <= i < |h.bases| ==> PendingOk(m, h, i))
  }

  ghost predicate Wf(m: Machine, h: History) {
    && FramesOk(m, h)
    && m.frame == h.Top()
    && h.pushes >= 1 && m.serial == SerialNo(h.pushes)
    && MethodsOk(m) && ClosuresOk(m, h) && m.process != m.nil
    && (m.nil.Ptr? ==> m.nil.addr !in m.closures)
    && WordsOk(m) && m.closures.Keys <= m.objects && m.methods.Keys <= m.objects
  }

  /** Every word of a stack is a valid value at all times. */
  ghost predicate WordsOk(m: Machine) {
    forall i :: m.Valid(m.At(i))
  }

  // ---------- what survives ----------

  /** The word that holds the state of a handler frame: the image changes it while the frame is suspended. */
  ghost predicate StateWord(m: Machine, h: History, a: int) {
    exists j :: 0 <= j < |h.bases| && m.Info(h.bases[j]).isHandler &&
      a == h.bases[j] + FRAME_RECEIVER + m.Info(h.bases[j]).handlerBase + HANDLER_SLOT_STATE
  }

  /** Fixed data, and closures that stay what they are. */
  ghost predicate SameWorld(m: Machine, m': Machine) {
    && m'.methods == m.methods && m'.process == m.process && m'.nil == m.nil && m'.limit == m.limit
    && |m.stack| <= |m'.stack|
    && m.objects <= m'.objects && (forall a :: a in m'.closures && a in m.objects ==> a in m.closures)
    && forall a :: a in m.closures ==> a in m'.closures && m'.closures[a] == m.closures[a]
  }

  ghost predicate SameBelow(m: Machine, h: History, m': Machine, n: nat) {
    forall a :: 0 <= a < n ==> m'.At(a) == m.At(a) || StateWord(m, h, a)
  }

  /** The first `k` frames are the same activations; nothing below the slots of the last of them has changed but
      handler states; the frames above are new activations. */
  ghost predicate Keeps(m: Machine, h: History, m': Machine, h': History, k: nat) {
    && Shape(h) && Shape(h') && 1 <= k <= |h.bases| && k <= |h'.bases|
    && h'.bases[..k] == h.bases[..k] && h'.ids[..k] == h.ids[..k]
    && (forall j :: k <= j < |h'.ids| ==> h'.ids[j] > h.pushes)
    && h'.pushes >= h.pushes
    && (forall a :: a in h.births ==> a in h'.births && h'.births[a] == h.births[a])
    && SameWorld(m, m')
    && SameBelow(m, h, m', h.bases[k - 1] + FRAME_RECEIVER)
  }

  /** State words lie in the frame they belong to. */
  lemma StateWordOwn(m: Machine, h: History, i: nat, a: int)
    requires Shape(h) && i < |h.bases| && StateWord(m, h, a)
    requires forall j :: 0 <= j < |h.bases| ==> FrameOk(m, h, j)
    requires h.bases[i] <= a && (i + 1 < |h.bases| ==> a < h.bases[i + 1])
    ensures m.Info(h.bases[i]).isHandler
    ensures a == h.bases[i] + FRAME_RECEIVER + m.Info(h.bases[i]).handlerBase + HANDLER_SLOT_STATE
  {
    var j :| 0 <= j < |h.bases| && m.Info(h.bases[j]).isHandler &&
      a == h.bases[j] + FRAME_RECEIVER + m.Info(h.bases[j]).handlerBase + HANDLER_SLOT_STATE;
    assert FrameOk(m, h, j);
  }

  /** Control words are no state words. */
  lemma ControlKept(m: Machine, h: History, m': Machine, h': History, k: nat, i: nat, c: nat)
    requires FramesOk(m, h) && Keeps(m, h, m', h', k) && i < k && c < FRAME_RECEIVER
    ensures h'.bases[i] == h.bases[i] && h'.ids[i] == h.ids[i]
    ensures m'.At(h.bases[i] + c) == m.At(h.bases[i] + c)
  {
    assert h'.bases[..k][i] == h.bases[..k][i] && h'.ids[..k][i] == h.ids[..k][i];
    var a := h.bases[i] + c;
    if StateWord(m, h, a) {
      StateWordOwn(m, h, i, a);
      assert false;
    }
  }

  lemma InfoKept(m: Machine, h: History, m': Machine, h': History, k: nat, i: nat)
    requires FramesOk(m, h) && Keeps(m, h, m', h', k) && i < k
    ensures h'.bases[i] == h.bases[i] && h'.ids[i] == h.ids[i]
    ensures m'.Info(h.bases[i]) == m.Info(h.bases[i]) && m'.Serial(h.bases[i]) == m.Serial(h.bases[i])
    ensures forall flag: nat :: flag > 0 ==> m'.Flag(h.bases[i], flag) == m.Flag(h.bases[i], flag)
  {
    ControlKept(m, h, m', h', k, i, FRAME_METHOD);
    ControlKept(m, h, m', h', k, i, FRAME_FLAGS);
  }

  /** A surviving frame is well-formed, given where the frame above it starts. */
  lemma FrameKept(m: Machine, h: History, m': Machine, h': History, k: nat, i: nat)
    requires FramesOk(m, h) && Keeps(m, h, m', h', k) && i < k
    requires i + 1 == k < |h'.bases| && Reserves(m.Info(h.bases[i])) ==>
      h.bases[i] + FRAME_RECEIVER + m.Info(h.bases[i]).handlerBase + FRAME_RECEIVER <= h'.bases[k]
    ensures FrameOk(m', h', i)
  {
    hide PendingOk, SameBelow, StateWord;
    InfoKept(m, h, m', h', k, i);
    ControlKept(m, h, m', h', k, i, FRAME_CALLER);
    ControlKept(m, h, m', h', k, i, FRAME_RETINFO);
    ControlKept(m, h, m', h', k, i, FRAME_METHOD);
    ControlKept(m, h, m', h', k, i, FRAME_FLAGS);
    if i > 0 {
      InfoKept(m, h, m', h', k, i - 1);
    }
    if i + 1 < k {
      InfoKept(m, h, m', h', k, i + 1);
    }
    assert FrameOk(m, h, i);
  }

  /** The pending unwind under a surviving continuation is untouched. */
  lemma PendingKept(m: Machine, h: History, m': Machine, h': History, k: nat, i: nat)
    requires FramesOk(m, h) && MethodsOk(m) && Keeps(m, h, m', h', k) && i < k
    ensures PendingOk(m', h', i)
  {
    hide SameBelow, StateWord, FramesOk;
    InfoKept(m, h, m', h', k, i);
    if m.Flag(h.bases[i], FLAG_UNWINDCONT) {
      assert FramesOk(m, h);
      PendingWord(m, h, m', h', k, i);
    }
  }

  lemma PendingWord(m: Machine, h: History, m': Machine, h': History, k: nat, i: nat)
    requires FramesOk(m, h) && MethodsOk(m) && Keeps(m, h, m', h', k) && i < k && m.Flag(h.bases[i], FLAG_UNWINDCONT)
    requires h'.bases[i] == h.bases[i]
    ensures PendingOk(m', h', i)
  {
    assert PendingOk(m, h, i);
    var e: nat := i - 1;
    var t: nat :| HoldsPending(m, h, e, t);
    InfoKept(m, h, m', h', k, e);
    InfoKept(m, h, m', h', k, t);
    ReservedKept(m, h, m', h', k, e, ENSURE_SLOT_BLOCK);
    ReservedKept(m, h, m', h', k, e, ENSURE_SLOT_PENDING_TARGET);
    ReservedKept(m, h, m', h', k, e, ENSURE_SLOT_PENDING_SERIAL);
    hide SameBelow, StateWord, FramesOk;
    assert HoldsPending(m', h', e, t);
  }

  /** The reserved slots of a suspended ensure frame are untouched. */
  lemma ReservedKept(m: Machine, h: History, m': Machine, h': History, k: nat, e: nat, c: nat)
    requires FramesOk(m, h) && MethodsOk(m) && Keeps(m, h, m', h', k) && e + 1 < k && c < FRAME_RECEIVER
    requires m.Info(h.bases[e]).isEnsure
    ensures var a := h.bases[e] + FRAME_RECEIVER + m.Info(h.bases[e]).handlerBase + c; m'.At(a) == m.At(a)
  {
    assert FrameOk(m, h, e);
    var a := h.bases[e] + FRAME_RECEIVER + m.Info(h.bases[e]).handlerBase + c;
    if StateWord(m, h, a) {
      StateWordOwn(m, h, e, a);
      EnsureNoHandler(m, h.bases[e]);
      assert false;
    }
  }

  lemma EnsureNoHandler(m: Machine, b: nat)
    requires MethodsOk(m) && m.Info(b).isEnsure
    ensures !m.Info(b).isHandler
    ensures m.Info(b).handlerBase + FRAME_RECEIVER <= m.Info(b).frameSlots <= 251
  {
  }

  /** If nothing but new frames and unreserved slots changed, the frames are well-formed. */
  lemma FramesKept(m: Machine, h: History, m': Machine, h': History)
    requires FramesOk(m, h) && MethodsOk(m) && Keeps(m, h, m', h', |h'.bases|)
    ensures FramesOk(m', h')
  {
    hide SameBelow, StateWord, FrameOk, PendingOk;
    forall i | 0 <= i < |h'.bases|
      ensures FrameOk(m', h', i) && PendingOk(m', h', i)
    {
      FrameKept(m, h, m', h', |h'.bases|, i);
      PendingKept(m, h, m', h', |h'.bases|, i);
    }
  }

  lemma ClosuresKept(m: Machine, h: History, m': Machine, h': History, k: nat)
    requires ClosuresOk(m, h) && Keeps(m, h, m', h', k) && h'.births == h.births
    requires forall a :: a in m'.closures && a !in m.closures ==> m'.closures[a].homeProcess != m.process
    ensures ClosuresOk(m', h')
  {
    hide SameBelow;
    forall a, i | a in m.closures && m.closures[a].homeProcess == m.process && 0 <= i < |h'.ids| && h'.ids[i] <= h.births[a]
      ensures i < |h.ids| && h.ids[i] == h'.ids[i] && h.bases[i] == h'.bases[i]
    {
      assert i < k;
      assert h'.bases[..k][i] == h.bases[..k][i] && h'.ids[..k][i] == h.ids[..k][i];
    }
  }

  lemma KeepsAll(m: Machine, h: History)
    requires Shape(h)
    ensures Keeps(m, h, m, h, |h.bases|)
  {
  }

  // ---------- the steps ----------

  lemma PutWords(m: Machine, k: nat, v: Value)
    requires WordsOk(m) && m.Valid(v)
    ensures WordsOk(m.Put(k, v))
  {
    var m' := m.Put(k, v);
    forall i
      ensures m'.Valid(m'.At(i))
    {
      assert m.Valid(m.At(i));
    }
  }

  lemma PopWords(m: Machine, c: nat)
    requires WordsOk(m)
    ensures WordsOk(Pop(m, c)) && m.Valid(m.nil)
  {
    var m' := Pop(m, c);
    assert m.Valid(m.At(-1));
    forall i
      ensures m'.Valid(m'.At(i))
    {
      assert m.Valid(m.At(i));
    }
  }

  /** Slots of the current frame may change freely. */
  lemma PutKeeps(m: Machine, h: History, k: nat, v: Value)
    requires Wf(m, h) && m.Valid(v)
    ensures Wf(m.Put(k, v), h) && Keeps(m, h, m.Put(k, v), h, |h.bases|)
  {
    var m' := m.Put(k, v);
    assert Shape(h);
    PutWords(m, k, v);
    assert Keeps(m, h, m', h, |h.bases|) by {
      hide FramesOk, ClosuresOk, MethodsOk, WordsOk;
    }
    hide Keeps, FramesOk, ClosuresOk;
    FramesKept(m, h, m', h);
    ClosuresKept(m, h, m', h, |h.bases|);
  }

  lemma RoomWf(m: Machine, h: History, needed: nat)
    requires Wf(m, h) && Room(m, needed).Some?
    ensures Wf(Room(m, needed).value, h) && Keeps(m, h, Room(m, needed).value, h, |h.bases|)
  {
    var m' := Room(m, needed).value;
    RoomKeeps(m, needed);
    hide Room;
    assert Keeps(m, h, m', h, |h.bases|) by {
      hide FramesOk, ClosuresOk, MethodsOk;
    }
    hide Keeps, FramesOk, ClosuresOk;
    FramesKept(m, h, m', h);
    ClosuresKept(m, h, m', h, |h.bases|);
  }

  lemma CutShape(h: History, k: nat)
    requires Shape(h) && 1 <= k <= |h.bases|
    ensures Shape(h.Cut(k))
  {
  }

  /** Popping the top frame. */
  lemma PopKeeps(m: Machine, h: History)
    requires Wf(m, h) && |h.bases| > 1
    ensures var n := |h.bases| - 1;
      && m.Caller(m.frame) == h.bases[n - 1] && 0 < h.bases[n - 1] < m.frame
      && Wf(Pop(m, h.bases[n - 1]), h.Cut(n)) && Keeps(m, h, Pop(m, h.bases[n - 1]), h.Cut(n), n)
  {
    var n := |h.bases| - 1;
    assert FrameOk(m, h, n);
    CutShape(h, n);
    PopWords(m, h.bases[n - 1]);
    hide WordsOk;
    var m', h' := Pop(m, h.bases[n - 1]), h.Cut(n);
    assert Keeps(m, h, m', h', n) by {
      hide FramesOk, ClosuresOk, MethodsOk, FrameOk;
    }
    hide Keeps, FramesOk, ClosuresOk, FrameOk;
    FramesKept(m, h, m', h');
    ClosuresKept(m, h, m', h', n);
  }

  /** The window a surviving prefix gives: surviving twice is surviving. */
  lemma KeepsTrans(m: Machine, h: History, m1: Machine, h1: History, m2: Machine, h2: History, k: nat, k2: nat)
    requires FramesOk(m, h) && Keeps(m, h, m1, h1, k) && Keeps(m1, h1, m2, h2, k2)
    ensures var j := if k <= k2 then k else k2; Keeps(m, h, m2, h2, j)
  {
    var j := if k <= k2 then k else k2;
    assert h1.bases[..k][..j] == h1.bases[..j] && h1.bases[..k2][..j] == h1.bases[..j];
    assert h1.ids[..k][..j] == h1.ids[..j] && h1.ids[..k2][..j] == h1.ids[..j];
    assert h.bases[..k][..j] == h.bases[..j] && h2.bases[..k2][..j] == h2.bases[..j];
    assert h.ids[..k][..j] == h.ids[..j] && h2.ids[..k2][..j] == h2.ids[..j];
    assert h2.bases[..j] == h.bases[..j] && h2.ids[..j] == h.ids[..j];
    SameBelowTrans(m, h, m1, h1, m2, h2, k, k2, j);
    hide SameBelow;
    forall i | j <= i < |h2.ids|
      ensures h2.ids[i] > h.pushes
    {
      if i < k2 {
        assert h2.ids[..k2][i] == h1.ids[..k2][i];
      }
    }
  }

  lemma SameBelowTrans(m: Machine, h: History, m1: Machine, h1: History, m2: Machine, h2: History, k: nat, k2: nat, j: nat)
    requires FramesOk(m, h) && Keeps(m, h, m1, h1, k) && Keeps(m1, h1, m2, h2, k2)
    requires 1 <= j && j <= k && j <= k2 && h1.bases[..j] == h.bases[..j]
    ensures SameBelow(m, h, m2, h.bases[j - 1] + FRAME_RECEIVER)
  {
    assert h1.bases[..j][j - 1] == h.bases[..j][j - 1];
    forall a | 0 <= a < h.bases[j - 1] + FRAME_RECEIVER && m2.At(a) != m.At(a)
      ensures StateWord(m, h, a)
    {
      if m1.At(a) == m.At(a) {
        assert StateWord(m1, h1, a);
        StateWordBack(m, h, m1, h1, k, j, a);
      }
    }
  }

  lemma StateWordBack(m: Machine, h: History, m1: Machine, h1: History, k: nat, j: nat, a: int)
    requires FramesOk(m, h) && Keeps(m, h, m1, h1, k) && 1 <= j <= k && StateWord(m1, h1, a)
    requires a < h.bases[j - 1] + FRAME_RECEIVER
    ensures StateWord(m, h, a)
  {
    var i :| 0 <= i < |h1.bases| && m1.Info(h1.bases[i]).isHandler &&
      a == h1.bases[i] + FRAME_RECEIVER + m1.Info(h1.bases[i]).handlerBase + HANDLER_SLOT_STATE;
    InfoKept(m, h, m1, h1, k, j - 1);
    assert i < j;
    InfoKept(m, h, m1, h1, k, i);
  }
}
