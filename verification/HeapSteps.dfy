/** Every run of the program and the collector keeps the heap invariant. */
module HeapSteps {
  import opened ObjectMemory
  import opened Scavenge
  import opened ScavengeSteps
  import opened ScavengeResult
  import opened Renaming
  import opened Compaction
  import opened CompactionResult
  import opened Mutator

  /** The heap invariant, and every allocated word of old space belongs to an object. */
  ghost predicate Good(h: Heap) {
    HeapOk(h) && NoGaps(h.mem, h.oldSpace)
  }

  // ---------- the steps ----------

  ghost predicate StoreStep(h: Heap, h': Heap) {
    exists b, i: nat, v :: CanStore(h, b, i, v) && h' == Store(h, b, i, v)
  }

  /** A store into the running stack. */
  ghost predicate PutStep(h: Heap, h': Heap) {
    exists b, i: nat, v :: b in RunningStack(h) && CanStore(h, b, i, v) && h' == SetRef(h, b, i, v)
  }

  /** A store that initialises a young object. */
  ghost predicate FillStep(h: Heap, h': Heap) {
    exists b, i: nat, v :: IsYoung(h, b) && CanStore(h, b, i, v) && h' == SetRef(h, b, i, v)
  }

  ghost predicate RootsStep(h: Heap, h': Heap) {
    exists roots :: CanSetRoots(h, roots) && h' == h.(roots := roots)
  }

  ghost predicate SwitchStep(h: Heap, h': Heap) {
    exists sched, i: nat, target :: CanSwitch(h, sched, i, target) && h' == Switch(h, sched, i, target)
  }

  ghost predicate AllocStep(h: Heap, h': Heap) {
    exists o, inOld :: |h.roots| > 0 && CanPlace(h, o, inOld) && NilFilled(h, o) && h' == Alloc(h, o, inOld)
  }

  ghost predicate GrowStep(h: Heap, h': Heap) {
    exists o, inOld ::
      && |h.roots| > 0 && SoleStack(h) && GrownStack(h, o) && CanPlace(h, o, inOld)
      && PlaceAddr(h, o, inOld) !in h.mem && h' == Grow(h, o, inOld)
  }

  ghost predicate DropStep(h: Heap, h': Heap) {
    SoleStack(h) && h' == DropStack(h)
  }

  ghost predicate ScavengeStep(h: Heap, h': Heap) {
    exists h1, recheck ::
      Scavenging(h, h1) && Scanned(h, h1) && Recheck(h, h1, recheck) && Rebuilt(Flip(h1), recheck, h')
  }

  /** A compaction of a gap-free old space: a walk over gaps would read what is no object. Headers left behind in the gaps it
      may leave are no objects. */
  ghost predicate CompactStep(h: Heap, h': Heap) {
    NoGaps(h.mem, h.oldSpace) && exists full, fwd :: Compacts(h, full, fwd) && h' == Swept(full, fwd.Values)
  }

  ghost predicate Next(h: Heap, h': Heap) {
    || StoreStep(h, h') || PutStep(h, h') || FillStep(h, h') || RootsStep(h, h') || SwitchStep(h, h')
    || AllocStep(h, h') || GrowStep(h, h') || DropStep(h, h') || ScavengeStep(h, h') || CompactStep(h, h')
  }

  ghost predicate Run(h: Heap, h': Heap, n: nat)
    decreases n
  {
    if n == 0 then h' == h
    else exists h1 :: Run(h, h1, n - 1) && Next(h1, h')
  }

  // ---------- a process switch, with the store that tells the scheduler ----------

  /** The scheduler is a root and not itself a process. */
  ghost predicate CanSwitch(h: Heap, sched: Addr, i: nat, target: Value) {
    CanTransfer(h, target) && HasRef(h, sched, i) && Ptr(sched) in h.roots && Ptr(sched) != target
  }

  ghost function Switch(h: Heap, sched: Addr, i: nat, target: Value): Heap
    requires CanSwitch(h, sched, i, target)
  {
    RememberStackHasRef(h, sched, i);
    Store(RememberStack(h), sched, i, target).(active := target)
  }

  lemma RememberStackHasRef(h: Heap, b: Addr, i: nat)
    requires HasRef(h, b, i)
    ensures HasRef(RememberStack(h), b, i)
  {
  }

  /** The running stack, as a switch reads it. */
  lemma RunningStackIs(h: Heap)
    requires HeapOk(h)
    ensures |h.roots| > 0 && Nil(h) == h.roots[0]
    ensures HasActive(h) ==>
      && h.active.addr in h.mem && h.mem[h.active.addr].Live? && |h.mem[h.active.addr].obj.Refs()| > PROCESS_STACK
      && var stack := h.mem[h.active.addr].obj.Refs()[PROCESS_STACK];
         if stack.Ptr? && stack != Nil(h)
         then stack.addr in h.mem && h.mem[stack.addr].Live? && RememberStack(h) == Remember(h, stack.addr)
         else RememberStack(h) == h
    ensures !HasActive(h) ==> RememberStack(h) == h
  {
    RootsReached(h);
    RunningStackLive(h);
  }

  lemma RememberStackSame(h: Heap)
    ensures var h1 := RememberStack(h); h1.active == h.active && h1.roots == h.roots && SameLayout(h, h1)
  {
    hide RunningStack;
    if s :| s in RunningStack(h) && s in h.mem && h.mem[s].Live? && RememberStack(h) == Remember(h, s) {
      RememberLayout(h, s);
    }
  }

  lemma SwitchStepKeeps(h: Heap, sched: Addr, i: nat, target: Value)
    requires HeapOk(h) && CanSwitch(h, sched, i, target)
    ensures HeapOk(Switch(h, sched, i, target)) && SameLayout(h, Switch(h, sched, i, target))
  {
    hide HeapOk, RememberStack, SameLayout, RunningStack;
    var h1 := Transfer(h, target);
    TransferKeeps(h, target);
    RememberStackSame(h);
    RememberStackHasRef(h, sched, i);
    RootsReached(h1);
    assert CanStore(h1, sched, i, target);
    StoreKeeps(h1, sched, i, target);
    StoreLayout(RememberStack(h), sched, i, target);
    LayoutTrans(h, RememberStack(h), Store(RememberStack(h), sched, i, target));
    SwitchLayout(h, Store(RememberStack(h), sched, i, target), target);
    StoreCommutes(RememberStack(h), sched, i, target);
  }

  lemma RootsReached(h: Heap)
    requires HeapOk(h)
    ensures forall v :: v in h.roots || v == h.active ==> ReachedValue(h, v)
    ensures forall a :: Ptr(a) in h.roots ==> Tracks(h, a)
  {
    ReachedRoots(h);
    hide HeapOk;
    forall a | Ptr(a) in h.roots
      ensures Tracks(h, a)
    {
      assert ReachedValue(h, Ptr(a));
    }
  }

  lemma StoreCommutes(h: Heap, b: Addr, i: nat, target: Value)
    requires HasRef(h, b, i)
    ensures HasRef(h.(active := target), b, i)
    ensures Store(h.(active := target), b, i, target) == Store(h, b, i, target).(active := target)
  {
  }

  lemma StoreLayout(h: Heap, b: Addr, i: nat, v: Value)
    requires HasRef(h, b, i)
    ensures SameLayout(h, Store(h, b, i, v))
  {
    SetRefLayout(h, b, i, v);
    var h1 := SetRef(h, b, i, v);
    RememberLayout(h1, b);
    if YoungValue(h1, v) {
      LayoutTrans(h, h1, Remember(h1, b));
    }
  }

  lemma LayoutTrans(h: Heap, h1: Heap, h2: Heap)
    requires SameLayout(h, h1) && SameLayout(h1, h2)
    ensures SameLayout(h, h2)
  {
  }

  lemma SwitchLayout(h: Heap, h2: Heap, target: Value)
    requires SameLayout(h, h2)
    ensures SameLayout(h, h2.(active := target))
  {
  }

  // ---------- every step keeps the invariant ----------

  lemma LayoutGood(h: Heap, h': Heap)
    requires NoGaps(h.mem, h.oldSpace) && Placed(h) && SameLayout(h, h')
    ensures NoGaps(h'.mem, h'.oldSpace)
  {
    assert HeadersIn(h'.mem, h'.oldSpace) == HeadersIn(h.mem, h.oldSpace);
    TotalSame(h.mem, h'.mem, HeadersIn(h.mem, h.oldSpace));
  }

  lemma PlaceOldGaps(h: Heap, o: Obj, inOld: bool)
    requires SpacesOk(h) && Placed(h) && NoGaps(h.mem, h.oldSpace) && CanPlace(h, o, inOld)
    requires PlaceAddr(h, o, inOld) !in h.mem
    ensures NoGaps(Place(h, o, inOld).mem, Place(h, o, inOld).oldSpace)
  {
    var h', n := Place(h, o, inOld), PlaceAddr(h, o, inOld);
    var before := HeadersIn(h.mem, h.oldSpace);
    TotalSame(h.mem, h'.mem, before);
    if inOld {
      assert HeadersIn(h'.mem, h'.oldSpace) == before + {n};
      TotalAdd(h'.mem, before, n);
    } else {
      assert HeadersIn(h'.mem, h'.oldSpace) == before;
    }
  }

  lemma StoreStepKeeps(h: Heap, h': Heap)
    requires HeapOk(h) && (StoreStep(h, h') || PutStep(h, h') || FillStep(h, h'))
    ensures HeapOk(h') && (Good(h) ==> Good(h'))
  {
    assert Placed(h);
    hide HeapOk, NoGaps, RunningStack, SameLayout, Placed;
    if StoreStep(h, h') {
      var b, i: nat, v :| CanStore(h, b, i, v) && h' == Store(h, b, i, v);
      StoreKeeps(h, b, i, v);
      StoreLayout(h, b, i, v);
    } else if PutStep(h, h') {
      var b, i: nat, v :| b in RunningStack(h) && CanStore(h, b, i, v) && h' == SetRef(h, b, i, v);
      PutKeeps(h, b, i, v);
      SetRefLayout(h, b, i, v);
    } else {
      var b, i: nat, v :| IsYoung(h, b) && CanStore(h, b, i, v) && h' == SetRef(h, b, i, v);
      FillKeeps(h, b, i, v);
      SetRefLayout(h, b, i, v);
    }
    if NoGaps(h.mem, h.oldSpace) {
      LayoutGood(h, h');
    }
  }

  lemma RootStepKeeps(h: Heap, h': Heap)
    requires HeapOk(h) && (RootsStep(h, h') || SwitchStep(h, h') || DropStep(h, h'))
    ensures HeapOk(h') && (Good(h) ==> Good(h'))
  {
    assert Placed(h);
    hide HeapOk, NoGaps, RunningStack, Placed, Switch;
    if RootsStep(h, h') {
      var roots :| CanSetRoots(h, roots) && h' == h.(roots := roots);
      SetRootsKeeps(h, roots);
    } else if SwitchStep(h, h') {
      var sched, i: nat, target :| CanSwitch(h, sched, i, target) && h' == Switch(h, sched, i, target);
      SwitchStepKeeps(h, sched, i, target);
    } else {
      DropStackKeeps(h);
      SetRefLayout(h, h.active.addr, PROCESS_STACK, Nil(h));
    }
    if NoGaps(h.mem, h.oldSpace) {
      LayoutGood(h, h');
    }
  }

  lemma AllocStepKeeps(h: Heap, h': Heap)
    requires HeapOk(h) && (AllocStep(h, h') || GrowStep(h, h'))
    ensures HeapOk(h') && (Good(h) ==> Good(h'))
  {
    assert Placed(h) && SpacesOk(h);
    hide HeapOk, NoGaps, RunningStack, Placed, SoleStack, GrownStack, CanPlace, SpacesOk;
    if AllocStep(h, h') {
      var o, inOld :| |h.roots| > 0 && CanPlace(h, o, inOld) && NilFilled(h, o) && h' == Alloc(h, o, inOld);
      AllocKeeps(h, o, inOld);
      if NoGaps(h.mem, h.oldSpace) {
        PlaceFresh(h, o, inOld);
        PlaceOldGaps(h, o, inOld);
      }
    } else {
      var o, inOld :| |h.roots| > 0 && SoleStack(h) && GrownStack(h, o) && CanPlace(h, o, inOld) &&
        PlaceAddr(h, o, inOld) !in h.mem && h' == Grow(h, o, inOld);
      GrowKeeps(h, o, inOld);
      if NoGaps(h.mem, h.oldSpace) {
        PlaceOldGaps(h, o, inOld);
        GrowLast(h, o, inOld);
      }
    }
  }

  lemma GrowLast(h: Heap, o: Obj, inOld: bool)
    requires SpacesOk(h) && Placed(h) && SoleStack(h) && CanPlace(h, o, inOld) && PlaceAddr(h, o, inOld) !in h.mem
    requires NoGaps(Place(h, o, inOld).mem, Place(h, o, inOld).oldSpace)
    ensures NoGaps(Grow(h, o, inOld).mem, Grow(h, o, inOld).oldSpace)
  {
    hide NoGaps, SpacesOk;
    var h1, p, v := Place(h, o, inOld), h.active.addr, Ptr(PlaceAddr(h, o, inOld));
    assert Placed(h1) by {
      PlacePlaced(h, o, inOld);
    }
    StoreLayout(h1, p, PROCESS_STACK, v);
    hide Placed, Place;
    LayoutGood(h1, Store(h1, p, PROCESS_STACK, v));
  }

  lemma ScavengeStepKeeps(h: Heap, h': Heap)
    requires HeapOk(h) && ScavengeStep(h, h')
    ensures HeapOk(h') && (Good(h) ==> Good(h'))
  {
    hide HeapOk, NoGaps, Scavenging, Scanned, Recheck, Rebuilt, Flip, Renames;
    var h1, recheck :| Scavenging(h, h1) && Scanned(h, h1) && Recheck(h, h1, recheck) && Rebuilt(Flip(h1), recheck, h');
    ScavengeEnds(h, h1, recheck, h');
  }

  /** A compaction leaves old space gap-free exactly when it finds no live overflow word there. */
  lemma CompactStepKeeps(h: Heap, h': Heap)
    requires HeapOk(h) && CompactStep(h, h')
    ensures HeapOk(h') && (Good(h') <==> NoLiveOverflow(h))
  {
    hide HeapOk, NoGaps, NoLiveOverflow, Compacted, Preserves, Swept;
  }

  /** Every step keeps the heap in order, and old space gap-free but for a compaction that finds a live overflow word. */
  lemma NextKeeps(h: Heap, h': Heap)
    requires HeapOk(h) && Next(h, h')
    ensures HeapOk(h') && (Good(h) && (CompactStep(h, h') ==> NoLiveOverflow(h)) ==> Good(h'))
  {
    hide HeapOk, Good, StoreStep, PutStep, FillStep, RootsStep, SwitchStep, AllocStep, GrowStep, DropStep, ScavengeStep,
      CompactStep, NoLiveOverflow;
    if StoreStep(h, h') || PutStep(h, h') || FillStep(h, h') {
      StoreStepKeeps(h, h');
    } else if RootsStep(h, h') || SwitchStep(h, h') || DropStep(h, h') {
      RootStepKeeps(h, h');
    } else if AllocStep(h, h') || GrowStep(h, h') {
      AllocStepKeeps(h, h');
    } else if ScavengeStep(h, h') {
      ScavengeStepKeeps(h, h');
    } else {
      CompactStepKeeps(h, h');
    }
  }

  lemma {:induction false} RunKeeps(h: Heap, h': Heap, n: nat)
    requires HeapOk(h) && Run(h, h', n)
    ensures HeapOk(h')
    decreases n
  {
    hide HeapOk, Next;
    if n > 0 {
      var h1 :| Run(h, h1, n - 1) && Next(h1, h');
      RunKeeps(h, h1, n - 1);
      NextKeeps(h1, h');
    }
  }

  /** After any run, an old object the program can reach that refers to a young one, and is not the running stack, has
      its remembered bit set and is in the store buffer exactly once; and no object is marked. */
  lemma RememberedAlways(h: Heap, h': Heap, n: nat, a: Addr)
    requires HeapOk(h) && Run(h, h', n) && Alive(h', a) && IsOld(h', a)
    ensures a in h'.mem && h'.mem[a].Live? && !h'.mem[a].obj.gc.mark
    ensures PointsYoung(h', a) && a !in RunningStack(h') ==>
      && h'.mem[a].obj.gc.remembered
      && exists i :: 0 <= i < |h'.ssb| && h'.ssb[i] == a && forall j :: 0 <= j < |h'.ssb| && h'.ssb[j] == a ==> j == i
  {
    hide HeapOk, Run, RunningStack, PointsYoung, Tracks, Alive;
    RunKeeps(h, h', n);
    AliveTracked(h', a);
    BufferedOnce(h', a);
  }

  lemma BufferedOnce(h: Heap, a: Addr)
    requires HeapOk(h) && Tracks(h, a) && IsOld(h, a)
    ensures a in h.mem && h.mem[a].Live? && !h.mem[a].obj.gc.mark
    ensures PointsYoung(h, a) && a !in RunningStack(h) ==>
      && h.mem[a].obj.gc.remembered
      && exists i :: 0 <= i < |h.ssb| && h.ssb[i] == a && forall j :: 0 <= j < |h.ssb| && h.ssb[j] == a ==> j == i
  {
    assert Placed(h) && BufferOk(h) && NoDangling(h) && Remembered(h);
    hide HeapOk, RunningStack, PointsYoung, Tracks;
    assert a in h.mem;
    if a in h.ssb {
      OnceIn(h.ssb, a);
    }
  }

  lemma OnceIn(s: seq<Addr>, a: Addr)
    requires NoDuplicates(s) && a in s
    ensures exists i :: 0 <= i < |s| && s[i] == a && forall j :: 0 <= j < |s| && s[j] == a ==> j == i
  {
    var i :| 0 <= i < |s| && s[i] == a;
  }

  // ---------- a full collection: a scavenge, then a compaction ----------

  /** No object that will be in old space when the compaction starts has an overflow word. */
  ghost predicate NoOverflowToCome(h: Heap) {
    forall a :: Alive(h, a) && a in h.mem && h.mem[a].Live? && (IsOld(h, a) || NextAge(h.mem[a].obj.gc.age) >= h.threshold) ==>
      h.mem[a].obj.Extra() == 0
  }

  lemma NoneTenured(h0: Heap, h1: Heap, phi: map<Addr, Addr>)
    requires Scavenged(h0, h1, phi) && NoOverflowToCome(h0)
    ensures NoLiveOverflow(h1)
  {
    ScavengePreserves(h0, h1, phi);
    PreservesAlive(h0, h1, phi);
    hide Alive, Preserves;
    forall b | b in LiveOld(h1) && h1.mem[b].Live?
      ensures h1.mem[b].obj.Extra() == 0
    {
      var a :| Alive(h0, a) && Renamed(phi, a) == b;
      AliveTracked(h0, a);
      assert RenamesObj(h0, h1, phi, a);
      assert a in phi ==> IsOld(h0, phi[a]);
    }
  }

  lemma FullCollection(h0: Heap, h1: Heap, h2: Heap, phi: map<Addr, Addr>, psi: map<Addr, Addr>)
    requires HeapOk(h0) && Scavenged(h0, h1, phi) && HeapOk(h1) && Compacts(h1, h2, psi)
    ensures Preserves(h0, h2, Composed(phi, psi)) && Preserves(h0, Swept(h2, psi.Values), Composed(phi, psi))
  {
    ScavengePreserves(h0, h1, phi);
    YoungMoved(h0, h1, phi);
    OldNotYoung(h1);
    hide HeapOk, Scavenged, Preserves, Alive;
    forall b | b in psi
      ensures !IsYoung(h1, b)
    {
      assert b in LiveOld(h1);
    }
    PreservesTrans(h0, h1, h2, phi, psi);
    PreservesTrans(h0, h1, Swept(h2, psi.Values), phi, psi);
  }

  lemma YoungMoved(h0: Heap, h1: Heap, phi: map<Addr, Addr>)
    requires HeapOk(h0) && Scavenged(h0, h1, phi)
    ensures forall a :: Alive(h0, a) && IsYoung(h0, a) ==> a in phi
  {
    hide Scavenged, HeapOk, Alive;
    forall a | Alive(h0, a) && IsYoung(h0, a)
      ensures a in phi
    {
      AliveIn(h0, a);
      ScavengedKeys(h0, h1, phi);
    }
  }

  lemma ScavengedKeys(h0: Heap, h1: Heap, phi: map<Addr, Addr>)
    requires Scavenged(h0, h1, phi)
    ensures forall a :: a in phi <==> a in h0.mem && Tracks(h0, a) && IsYoung(h0, a)
  {
  }

  lemma ScavengedGaps(h0: Heap, h1: Heap, phi: map<Addr, Addr>)
    requires Scavenged(h0, h1, phi) && NoGaps(h0.mem, h0.oldSpace)
    ensures NoGaps(h1.mem, h1.oldSpace)
  {
  }

  // ---------- sizes and growth ----------

  const LARGE_OBJECT_BYTES: nat := 65536
  const CLASS_STACK: nat := 30

  predicate IsLarge(n: nat) {
    n * 8 > LARGE_OBJECT_BYTES
  }

  function NilObj(nil: Value, classIndex: nat, fixed: bool, n: nat): (o: Obj)
    ensures o.Refs() == seq(n, i => nil) && o.NumSlots() == n
  {
    Obj(classIndex, 0, GcBits(false, false, false, 0, false), Slots(fixed, seq(n, i => nil)))
  }

  lemma StackIsLive(h: Heap)
    requires HeapOk(h) && SoleStack(h)
    ensures |h.roots| > 0 && Nil(h) == h.roots[0] && HasStackSlot(h)
    ensures StackValue(h).Ptr? && StackValue(h).addr in h.mem && h.mem[StackValue(h).addr].Live?
    ensures StackValue(h) == h.mem[h.active.addr].obj.Refs()[PROCESS_STACK]
  {
    RunningStackIs(h);
  }

  /** The words of the running stack. */
  ghost function StackWords(h: Heap): seq<Value> {
    if HasStackSlot(h) && StackValue(h).Ptr? && StackValue(h).addr in h.mem && h.mem[StackValue(h).addr].Live?
    then h.mem[StackValue(h).addr].obj.Refs()
    else []
  }

  lemma AllocStepNow(h: Heap, o: Obj, inOld: bool)
    requires |h.roots| > 0 && CanPlace(h, o, inOld) && NilFilled(h, o)
    ensures AllocStep(h, Alloc(h, o, inOld))
  {
    hide Alloc, CanPlace;
  }

  /** The place of an object depends on its size alone. */
  lemma PlaceOther(h: Heap, o: Obj, o': Obj, inOld: bool)
    requires o'.NumSlots() == o.NumSlots()
    ensures PlaceAddr(h, o', inOld) == PlaceAddr(h, o, inOld)
    ensures Place(h, o', inOld) == Place(h, o, inOld).(mem := Place(h, o, inOld).mem[PlaceAddr(h, o, inOld) := Live(o')])
  {
  }

  /** A stack of `n` slots that starts with `words`. */
  function GrownObj(nil: Value, words: seq<Value>, n: nat): (o: Obj)
    requires |words| <= n
    ensures o.Refs() == words + seq(n - |words|, i => nil) && o.NumSlots() == n
  {
    var o := NilObj(nil, CLASS_STACK, false, n);
    o.(body := Slots(false, words + o.body.values[|words|..]))
  }

  lemma GrownFits(h: Heap, words: seq<Value>, n: nat, inOld: bool)
    requires HeapOk(h) && SoleStack(h) && |words| <= n
    requires StackValue(h).Ptr? && StackValue(h).addr in h.mem && h.mem[StackValue(h).addr].Live?
    requires words == h.mem[StackValue(h).addr].obj.Refs()
    requires |h.roots| > 0 && CanPlace(h, GrownObj(h.roots[0], words, n), inOld)
    ensures var o := GrownObj(h.roots[0], words, n);
      && GrownStack(h, o) && PlaceAddr(h, o, inOld) !in h.mem
      && HasRef(Place(h, o, inOld), h.active.addr, PROCESS_STACK)
      && Place(h, o, inOld).active == h.active && HasStackSlot(h)
      && words <= o.Refs()
  {
    var o := GrownObj(h.roots[0], words, n);
    PlaceFresh(h, o, inOld);
    assert HasStackSlot(h);
    hide HeapOk, SoleStack, CanPlace;
  }

  lemma GrowStepNow(h: Heap, o: Obj, inOld: bool)
    requires HeapOk(h) && SoleStack(h) && |h.roots| > 0 && GrownStack(h, o) && CanPlace(h, o, inOld)
    requires PlaceAddr(h, o, inOld) !in h.mem
    ensures var h' := Grow(h, o, inOld); var n := PlaceAddr(h, o, inOld);
      && GrowStep(h, h')
      && RunningStack(h') == {n} && n in h'.mem && h'.mem[n].Live? && h'.mem[n].obj.Refs() == o.Refs()
  {
    assert HasStackSlot(h);
    GrowActive(h, o, inOld);
    GrowObject(h, o, inOld);
    hide HeapOk, RunningStack, SoleStack, GrownStack, CanPlace, PlaceAddr, Grow;
  }

  lemma GrowObject(h: Heap, o: Obj, inOld: bool)
    requires HasStackSlot(h) && PlaceAddr(h, o, inOld) !in h.mem
    ensures var h' := Grow(h, o, inOld); var n := PlaceAddr(h, o, inOld);
      n in h'.mem && h'.mem[n].Live? && h'.mem[n].obj.Refs() == o.Refs()
  {
  }

  // ---------- the beginning ----------

  const CLASS_UNDEFINED_OBJECT: nat := 5
  const CLASS_TRUE: nat := 6
  const CLASS_FALSE: nat := 7

  /** Nil, true and false, the first three objects of old space. */
  function BareMemory(base: Addr): Memory {
    map[base := Live(NilObj(Ptr(base), CLASS_UNDEFINED_OBJECT, true, 0)),
        base + 1 := Live(NilObj(Ptr(base), CLASS_TRUE, true, 0)),
        base + 2 := Live(NilObj(Ptr(base), CLASS_FALSE, true, 0))]
  }

  function BareHeap(young: Space, spare: Space, oldSpace: Space, threshold: nat): Heap {
    var b := oldSpace.base;
    Heap(BareMemory(b), young, spare, oldSpace.(alloc := 3), [], [Ptr(b), Ptr(b + 1), Ptr(b + 2)], Ptr(b), threshold)
  }

  /** The heap a machine starts with is in order. */
  lemma BareGood(young: Space, spare: Space, oldSpace: Space, threshold: nat)
    requires young.alloc == spare.alloc == oldSpace.alloc == 0 && young.words == spare.words && oldSpace.words >= 3
    requires Disjoint(young, spare) && Disjoint(young, oldSpace) && Disjoint(spare, oldSpace)
    ensures Good(BareHeap(young, spare, oldSpace, threshold))
  {
    hide Total, Reachable;
    var h, b := BareHeap(young, spare, oldSpace, threshold), oldSpace.base;
    BareTotals(h.mem, b, young, h.oldSpace);
    ReachableWithin(h.mem, Starts(h), h.mem.Keys);
  }

  lemma BareTotals(m: Memory, b: Addr, young: Space, oldSpace: Space)
    requires m == BareMemory(b) && oldSpace.base == b && oldSpace.words >= 3 && Disjoint(young, oldSpace)
    ensures Total(m, HeadersIn(m, young)) == 0 && Total(m, HeadersIn(m, oldSpace)) == 3
  {
    assert HeadersIn(m, young) == {};
    assert Total(m, {}) == 0;
    assert HeadersIn(m, oldSpace) == {} + {b} + {b + 1} + {b + 2};
    hide Total;
    TotalAdd(m, {}, b);
    TotalAdd(m, {} + {b}, b + 1);
    TotalAdd(m, {} + {b} + {b + 1}, b + 2);
  }
}
