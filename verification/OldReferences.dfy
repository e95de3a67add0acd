/** What unreachable old objects refer to: only stacks keep stale references. */
module OldReferences {
  import opened ObjectMemory
  import opened Scavenge
  import opened ScavengeSteps
  import opened ScavengeResult
  import opened Renaming
  import opened Compaction
  import opened CompactionResult
  import opened Mutator
  import opened HeapSteps

  ghost predicate NamesOld(h: Heap, o: Obj) {
    forall v :: v in o.Refs() && v.Ptr? ==> IsOld(h, v.addr) && v.addr in h.mem
  }

  /** An old object, reachable or not, that is no stack and is not in the store buffer. */
  ghost predicate Plain(h: Heap, a: Addr) {
    a in h.mem && h.mem[a].Live? && IsOld(h, a) && a !in h.ssb && h.mem[a].obj.classIndex != CLASS_STACK
  }

  /** Such an object refers to old objects alone. */
  ghost predicate OldNames(h: Heap) {
    forall a :: Plain(h, a) ==> NamesOld(h, h.mem[a].obj)
  }

  /** The running stack, which is exempt from the write barrier, is an object of the class of stacks. */
  ghost predicate StackKind(h: Heap) {
    forall s :: s in RunningStack(h) && s in h.mem && h.mem[s].Live? ==> h.mem[s].obj.classIndex == CLASS_STACK
  }

  /** A run in which whatever becomes the running stack is a stack. */
  ghost predicate StackedRun(h: Heap, h': Heap, n: nat)
    decreases n
  {
    && StackKind(h')
    && if n == 0 then h' == h else exists h1 :: StackedRun(h, h1, n - 1) && Next(h1, h')
  }

  // ---------- steps of the program ----------

  /** Where a slot of an old object may come from. */
  ghost predicate FromOld(h: Heap, h': Heap, a: Addr, v: Value)
    requires a in h'.mem && h'.mem[a].Live? && v.Ptr?
  {
    || (IsOld(h', v.addr) && v.addr in h'.mem)
    || (a in h.mem && h.mem[a].Live? && h.mem[a].obj.classIndex == h'.mem[a].obj.classIndex && v in h.mem[a].obj.Refs())
  }

  /** Objects and buffer entries stay, and old objects outside the buffer gain references to old ones alone. */
  ghost predicate Spares(h: Heap, h': Heap) {
    && h'.oldSpace.base == h.oldSpace.base && h'.oldSpace.words == h.oldSpace.words
    && h.mem.Keys <= h'.mem.Keys && (forall a :: a in h.ssb ==> a in h'.ssb)
    && forall a, v :: Plain(h', a) && v in h'.mem[a].obj.Refs() && v.Ptr? ==> FromOld(h, h', a, v)
  }

  lemma SparesKeeps(h: Heap, h': Heap)
    requires OldNames(h) && Spares(h, h')
    ensures OldNames(h')
  {
    forall a, v | Plain(h', a) && v in h'.mem[a].obj.Refs() && v.Ptr?
      ensures IsOld(h', v.addr) && v.addr in h'.mem
    {
      assert FromOld(h, h', a, v);
    }
  }

  lemma SparesTrans(h: Heap, h1: Heap, h2: Heap)
    requires Spares(h, h1) && Spares(h1, h2)
    ensures Spares(h, h2)
  {
    forall a, v | Plain(h2, a) && v in h2.mem[a].obj.Refs() && v.Ptr?
      ensures FromOld(h, h2, a, v)
    {
      assert FromOld(h1, h2, a, v);
      if !(IsOld(h2, v.addr) && v.addr in h2.mem) {
        assert FromOld(h, h1, a, v);
      }
    }
  }

  /** A value the program can reach refers to an object of either generation. */
  lemma ReachedPlaces(h: Heap, v: Value)
    requires HeapOk(h) && ReachedValue(h, v) && v.Ptr?
    ensures v.addr in h.mem && h.mem[v.addr].Live? && (IsYoung(h, v.addr) || IsOld(h, v.addr))
  {
    hide Remembered, NoGaps, BufferOk, ActiveOk, NoOverlap;
    assert InUsed(h.young, v.addr, h.mem[v.addr].obj) || InUsed(h.oldSpace, v.addr, h.mem[v.addr].obj);
  }

  /** A raw store of an old reference, into a young object or into a stack. */
  lemma RawSpares(h: Heap, b: Addr, i: nat, v: Value)
    requires HasRef(h, b, i)
    requires (v.Ptr? ==> IsOld(h, v.addr) && v.addr in h.mem) || !IsOld(h, b) || h.mem[b].obj.classIndex == CLASS_STACK || b in h.ssb
    ensures Spares(h, SetRef(h, b, i, v))
  {
    var h' := SetRef(h, b, i, v);
    forall a, u | Plain(h', a) && u in h'.mem[a].obj.Refs() && u.Ptr?
      ensures FromOld(h, h', a, u)
    {
      if a == b && u != v {
        assert u in h.mem[a].obj.Refs();
      }
    }
  }

  lemma RememberSpares(h: Heap, b: Addr)
    requires b in h.mem && h.mem[b].Live?
    ensures Spares(h, Remember(h, b))
  {
    forall a | a in h.mem && h.mem[a].Live?
      ensures Remember(h, b).mem[a].Live? && Remember(h, b).mem[a].obj.Refs() == h.mem[a].obj.Refs()
    {
    }
  }

  /** A barriered store. */
  lemma StoreSpares(h: Heap, b: Addr, i: nat, v: Value)
    requires BufferOk(h) && HasRef(h, b, i) && (v.Ptr? ==> v.addr in h.mem && (IsYoung(h, v.addr) || IsOld(h, v.addr)))
    ensures Spares(h, Store(h, b, i, v))
  {
    hide Spares;
    if YoungValue(h, v) && IsOld(h, b) {
      // the barrier and the raw store commute
      var h1 := Remember(h, b);
      RememberSpares(h, b);
      assert b in h1.ssb;
      RawSpares(h1, b, i, v);
      SparesTrans(h, h1, SetRef(h1, b, i, v));
      assert SetRef(h1, b, i, v) == Store(h, b, i, v);
    } else {
      RawSpares(h, b, i, v);
      assert Store(h, b, i, v) == SetRef(h, b, i, v);
    }
  }

  lemma StoreStepSpares(h: Heap, h': Heap)
    requires HeapOk(h) && StackKind(h) && (StoreStep(h, h') || PutStep(h, h') || FillStep(h, h'))
    ensures Spares(h, h')
  {
    assert BufferOk(h);
    hide HeapOk, Spares, RunningStack;
    if PutStep(h, h') {
      var b, i: nat, v :| b in RunningStack(h) && CanStore(h, b, i, v) && h' == SetRef(h, b, i, v);
      RawSpares(h, b, i, v);
    } else if FillStep(h, h') {
      var b, i: nat, v :| IsYoung(h, b) && CanStore(h, b, i, v) && h' == SetRef(h, b, i, v);
      OldNotYoung(h);
      RawSpares(h, b, i, v);
    } else {
      var b, i: nat, v :| CanStore(h, b, i, v) && h' == Store(h, b, i, v);
      if v.Ptr? {
        ReachedPlaces(h, v);
      }
      StoreSpares(h, b, i, v);
    }
  }

  lemma RememberStackSpares(h: Heap)
    ensures Spares(h, RememberStack(h))
  {
    hide RunningStack, Spares, Remember;
    SparesRefl(h);
    forall s | s in h.mem && h.mem[s].Live?
      ensures Spares(h, Remember(h, s))
    {
      RememberSpares(h, s);
    }
  }

  /** Only memory, store buffer and old space matter. */
  lemma SparesRoots(h: Heap, h1: Heap, h2: Heap)
    requires Spares(h, h1) && h2 == h1.(roots := h2.roots, active := h2.active)
    ensures Spares(h, h2)
  {
    forall a, v | Plain(h2, a) && v in h2.mem[a].obj.Refs() && v.Ptr?
      ensures FromOld(h, h2, a, v)
    {
      assert Plain(h1, a) && FromOld(h, h1, a, v);
    }
  }

  lemma SparesRefl(h: Heap)
    ensures Spares(h, h)
  {
  }

  lemma RootStepSpares(h: Heap, h': Heap)
    requires HeapOk(h) && (RootsStep(h, h') || SwitchStep(h, h') || DropStep(h, h'))
    ensures Spares(h, h')
  {
    if RootsStep(h, h') {
      hide HeapOk, Spares;
      SparesRefl(h);
      SparesRoots(h, h, h');
    } else if SwitchStep(h, h') {
      hide HeapOk, Spares, RunningStack, RememberStack;
      var sched, i: nat, target :| CanSwitch(h, sched, i, target) && h' == Switch(h, sched, i, target);
      SwitchSpares(h, sched, i, target);
    } else {
      hide Spares, RunningStack;
      NilPlace(h);
      RawSpares(h, h.active.addr, PROCESS_STACK, Nil(h));
    }
  }

  lemma NilPlace(h: Heap)
    requires HeapOk(h)
    ensures |h.roots| > 0 && (Nil(h).Ptr? ==> IsOld(h, Nil(h).addr) && Nil(h).addr in h.mem)
  {
    ReachedRoots(h);
    hide Placed, NoOverlap, NoGaps, Remembered, BufferOk;
    assert Nil(h) in h.roots;
  }

  lemma SwitchSpares(h: Heap, sched: Addr, i: nat, target: Value)
    requires HeapOk(h) && CanSwitch(h, sched, i, target)
    ensures Spares(h, Switch(h, sched, i, target))
  {
    RememberStackSpares(h);
    RememberStackKeeps(h);
    RememberStackSame(h);
    RememberStackHasRef(h, sched, i);
    ReachedPlaces(h, target);
    var h1 := RememberStack(h);
    hide Spares, RememberStack, RunningStack;
    assert BufferOk(h1);
    StoreSpares(h1, sched, i, target);
    SparesTrans(h, h1, Store(h1, sched, i, target));
    SparesRoots(h, Store(h1, sched, i, target), Switch(h, sched, i, target));
  }

  /** A new object refers to old ones alone, or is a stack, or young. */
  lemma PlaceSpares(h: Heap, o: Obj, inOld: bool)
    requires HeapOk(h) && CanPlace(h, o, inOld)
    requires NamesOld(h, o) || o.classIndex == CLASS_STACK || !inOld
    ensures Spares(h, Place(h, o, inOld))
  {
    PlaceFresh(h, o, inOld);
    OldNotYoung(h);
    hide HeapOk;
    var h' := Place(h, o, inOld);
    forall a, v | Plain(h', a) && v in h'.mem[a].obj.Refs() && v.Ptr?
      ensures FromOld(h, h', a, v)
    {
    }
  }

  lemma AllocSpares(h: Heap, o: Obj, inOld: bool)
    requires HeapOk(h) && CanPlace(h, o, inOld) && |h.roots| > 0 && NilFilled(h, o)
    ensures Spares(h, Alloc(h, o, inOld))
  {
    NilPlace(h);
    hide HeapOk, Spares, CanPlace;
    PlaceSpares(h, o, inOld);
    SparesRoots(h, Place(h, o, inOld), Alloc(h, o, inOld));
  }

  lemma GrowSpares(h: Heap, o: Obj, inOld: bool)
    requires HeapOk(h) && CanPlace(h, o, inOld) && HasStackSlot(h) && PlaceAddr(h, o, inOld) !in h.mem
    requires o.classIndex == CLASS_STACK
    ensures Spares(h, Grow(h, o, inOld))
  {
    PlaceSpares(h, o, inOld);
    PlaceFresh(h, o, inOld);
    var h1, n := Place(h, o, inOld), PlaceAddr(h, o, inOld);
    assert BufferOk(h1);
    hide Spares, HeapOk;
    StoreSpares(h1, h.active.addr, PROCESS_STACK, Ptr(n));
    SparesTrans(h, h1, Grow(h, o, inOld));
  }

  /** The stack a growth installs is the running stack, so it is a stack. */
  lemma GrownKind(h: Heap, o: Obj, inOld: bool)
    requires HeapOk(h) && |h.roots| > 0 && SoleStack(h) && GrownStack(h, o) && CanPlace(h, o, inOld)
    requires PlaceAddr(h, o, inOld) !in h.mem && HasStackSlot(h) && StackKind(Grow(h, o, inOld))
    ensures o.classIndex == CLASS_STACK
  {
    GrowStepNow(h, o, inOld);
    var h', n := Grow(h, o, inOld), PlaceAddr(h, o, inOld);
    hide HeapOk, RunningStack, GrownStack, SoleStack, CanPlace;
    GrowClass(h, o, inOld);
    assert n in RunningStack(h');
  }

  lemma GrowClass(h: Heap, o: Obj, inOld: bool)
    requires HasStackSlot(h) && PlaceAddr(h, o, inOld) !in h.mem
    ensures var h', n := Grow(h, o, inOld), PlaceAddr(h, o, inOld);
      n in h'.mem && h'.mem[n].Live? && h'.mem[n].obj.classIndex == o.classIndex
  {
  }

  lemma AllocStepSpares(h: Heap, h': Heap)
    requires HeapOk(h) && StackKind(h') && (AllocStep(h, h') || GrowStep(h, h'))
    ensures Spares(h, h')
  {
    assert SoleStack(h) ==> HasStackSlot(h);
    hide HeapOk, RunningStack, SoleStack, GrownStack, CanPlace, Spares, StackKind;
    if AllocStep(h, h') {
      var o, inOld :| |h.roots| > 0 && CanPlace(h, o, inOld) && NilFilled(h, o) && h' == Alloc(h, o, inOld);
      AllocSpares(h, o, inOld);
    } else {
      var o, inOld :| |h.roots| > 0 && SoleStack(h) && GrownStack(h, o) && CanPlace(h, o, inOld) &&
        PlaceAddr(h, o, inOld) !in h.mem && h' == Grow(h, o, inOld);
      GrownKind(h, o, inOld);
      GrowSpares(h, o, inOld);
    }
  }

  // ---------- collections ----------

  /** What the collector reaches and does not remember refers to old objects alone. */
  lemma TrackedNames(h: Heap, a: Addr)
    requires HeapOk(h) && StackKind(h) && Tracks(h, a) && Plain(h, a)
    ensures NamesOld(h, h.mem[a].obj)
  {
    RunningStackLive(h);
    hide RunningStack, NoOverlap, NoGaps, BufferOk, ActiveOk;
    assert !PointsYoung(h, a);
    forall v | v in h.mem[a].obj.Refs() && v.Ptr?
      ensures IsOld(h, v.addr) && v.addr in h.mem
    {
      ReachableEdge(h.mem, Starts(h), a, v.addr);
      ReachedPlaces(h, v);
    }
  }

  lemma CompactNames(h: Heap, h': Heap)
    requires HeapOk(h) && StackKind(h') && CompactStep(h, h')
    ensures OldNames(h')
  {
    hide HeapOk, NoGaps, Preserves, Compacted, StackKind, Alive, Tracks, NamesOld;
    var full, fwd :| Compacts(h, full, fwd) && h' == Swept(full, fwd.Values);
    assert fwd.Keys == LiveOld(h) by {
      CompactedKeys(h, full, fwd);
    }
    SweptSpaces(full, fwd.Values);
    hide Compacts, Swept;
    forall a | Plain(h', a)
      ensures NamesOld(h', h'.mem[a].obj)
    {
      OldNotYoung(h');
      assert a in fwd.Values;
      var c :| c in fwd && fwd[c] == a;
      assert c in LiveOld(h);
      PreservesAlive(h, h', fwd);
      assert Renamed(fwd, c) == a;
      AliveTracked(h', a);
      TrackedNames(h', a);
    }
  }

  lemma CompactedKeys(h: Heap, full: Heap, fwd: map<Addr, Addr>)
    requires Compacted(h, full, fwd)
    ensures fwd.Keys == LiveOld(h)
  {
  }

  lemma SweptSpaces(h: Heap, moved: set<Addr>)
    ensures Swept(h, moved).young == h.young && forall a :: a in Swept(h, moved).mem ==> h.young.Contains(a) || a in moved
  {
  }

  lemma ScavengeNames(h: Heap, h': Heap)
    requires HeapOk(h) && OldNames(h) && ScavengeStep(h, h')
    ensures OldNames(h')
  {
    var h1, recheck :| Scavenging(h, h1) && Scanned(h, h1) && Recheck(h, h1, recheck) && Rebuilt(Flip(h1), recheck, h');
    hide HeapOk, Scavenging, Scanned, OldNames, NamesOld, Scavenged, Rebuilt, Recheck;
    ScavengeEnds(h, h1, recheck, h');
    forall a | Plain(h', a)
      ensures NamesOld(h', h'.mem[a].obj)
    {
      if a in recheck {
        RecheckedNames(h, h1, recheck, h', a);
      } else {
        UntouchedNames(h, h1, recheck, h', a);
      }
    }
  }

  /** A rechecked object that is not buffered afterwards is the image of one the scavenge reached. */
  lemma RecheckedNames(h: Heap, h1: Heap, recheck: seq<Addr>, h': Heap, a: Addr)
    requires HeapOk(h) && HeapOk(h') && Scavenging(h, h1) && Recheck(h, h1, recheck) && Rebuilt(Flip(h1), recheck, h')
    requires Scavenged(h, h', Forwards(h1.mem)) && a in recheck && Plain(h', a)
    ensures NamesOld(h', h'.mem[a].obj)
  {
    var phi := Forwards(h1.mem);
    var c := RecheckedImage(h, h1, recheck, h', a);
    RecheckedRefs(h1, recheck, h', a);
    ScavengedObjects(h, h', phi);
    hide HeapOk, Scavenging, Recheck, Rebuilt, Tracks, PointsYoung, RenamesObj, Scavenged;
    forall v | v in h'.mem[a].obj.Refs() && v.Ptr?
      ensures IsOld(h', v.addr) && v.addr in h'.mem
    {
      ImageRef(h, h', phi, c, v);
      PlacedSomewhere(h', v.addr);
    }
  }

  lemma ScavengedObjects(h: Heap, h': Heap, phi: map<Addr, Addr>)
    requires Scavenged(h, h', phi)
    ensures forall a :: Tracks(h, a) ==> RenamesObj(h, h', phi, a)
  {
  }

  /** A slot of an image refers to an image. */
  lemma ImageRef(h: Heap, h': Heap, phi: map<Addr, Addr>, c: Addr, v: Value)
    requires (forall a :: Tracks(h, a) ==> RenamesObj(h, h', phi, a)) && Tracks(h, c)
    requires Renamed(phi, c) in h'.mem && h'.mem[Renamed(phi, c)].Live? && v in h'.mem[Renamed(phi, c)].obj.Refs() && v.Ptr?
    ensures v.addr in h'.mem
  {
    hide Tracks;
    assert RenamesObj(h, h', phi, c);
    var refs := h'.mem[Renamed(phi, c)].obj.Refs();
    var i :| 0 <= i < |refs| && refs[i] == v;
    var u := h.mem[c].obj.Refs()[i];
    assert v == Forwarded(phi, u) && u in h.mem[c].obj.Refs();
    TrackedRef(h, c, u);
    assert RenamesObj(h, h', phi, u.addr);
  }

  lemma TrackedRef(h: Heap, a: Addr, u: Value)
    requires a in h.mem && h.mem[a].Live? && Tracks(h, a) && u in h.mem[a].obj.Refs() && u.Ptr?
    ensures Tracks(h, u.addr)
  {
    ReachableEdge(h.mem, Starts(h), a, u.addr);
  }

  lemma PlacedSomewhere(h: Heap, a: Addr)
    requires HeapOk(h) && a in h.mem
    ensures IsYoung(h, a) || IsOld(h, a)
  {
    hide Remembered, NoGaps, BufferOk, ActiveOk, NoOverlap, NoDangling;
    assert InUsed(h.young, a, h.mem[a].obj) || InUsed(h.oldSpace, a, h.mem[a].obj);
  }

  lemma RecheckedRefs(h1: Heap, recheck: seq<Addr>, h': Heap, a: Addr)
    requires Rebuilt(Flip(h1), recheck, h') && a in recheck && Plain(h', a)
    ensures forall v :: v in h'.mem[a].obj.Refs() && v.Ptr? ==> !IsYoung(h', v.addr)
  {
    var f := Flip(h1);
    assert h'.mem[a].obj.Refs() == f.mem[a].obj.Refs() && !PointsYoung(f, a);
  }

  lemma RecheckedImage(h: Heap, h1: Heap, recheck: seq<Addr>, h': Heap, a: Addr) returns (c: Addr)
    requires HeapOk(h) && Scavenging(h, h1) && Recheck(h, h1, recheck) && Rebuilt(Flip(h1), recheck, h')
    requires Scavenged(h, h', Forwards(h1.mem)) && a in recheck && Plain(h', a)
    ensures Tracks(h, c) && Renamed(Forwards(h1.mem), c) == a
  {
    var phi := Forwards(h1.mem);
    OldNotYoung(h);
    if a !in h.mem {
      assert a in h'.mem;
      c :| c in phi && phi[c] == a;
    } else if a in h.ssb {
      c := a;
      ReachableStart(h.mem, Starts(h), a);
      assert a !in phi;
    } else {
      c :| c in RunningStack(h) && Image(h1, c) == a;
      RunningStackLive(h);
    }
  }

  /** An old object the scavenge did not list has the references it had. */
  lemma UntouchedNames(h: Heap, h1: Heap, recheck: seq<Addr>, h': Heap, a: Addr)
    requires HeapOk(h) && OldNames(h) && Scavenging(h, h1) && Recheck(h, h1, recheck) && Rebuilt(Flip(h1), recheck, h')
    requires Scavenged(h, h', Forwards(h1.mem)) && a !in recheck && Plain(h', a)
    ensures NamesOld(h', h'.mem[a].obj)
  {
    UntouchedPlain(h, h1, recheck, h', a);
    var phi := Forwards(h1.mem);
    UntouchedRefs(h, h1, a);
    OldStays(h, h1, h', phi);
    assert NamesOld(h, h.mem[a].obj);
  }

  lemma OldStays(h: Heap, h1: Heap, h': Heap, phi: map<Addr, Addr>)
    requires HeapOk(h) && Scavenged(h, h', phi)
    ensures forall b :: b in h.mem && IsOld(h, b) ==> b in h'.mem && IsOld(h', b)
  {
    OldNotYoung(h);
    hide HeapOk, Renames;
  }

  /** Without young references there is nothing to forward. */
  lemma UntouchedRefs(h: Heap, h1: Heap, a: Addr)
    requires HeapOk(h) && Scavenging(h, h1) && a in h.mem && h.mem[a].Live? && IsOld(h, a) && NamesOld(h, h.mem[a].obj)
    ensures a in h1.mem && h1.mem[a].Live? && h1.mem[a].obj.Refs() == h.mem[a].obj.Refs()
  {
    OldNotYoung(h);
    hide HeapOk, Forwards, RewriteOf;
    OldNotForwarded(h, h1, a);
    var o, o1 := h.mem[a].obj, h1.mem[a].obj;
    forall i | 0 <= i < |o.Refs()| && o.Refs()[i].Ptr?
      ensures o.Refs()[i].addr !in Forwards(h1.mem)
    {
      assert o.Refs()[i] in o.Refs();
    }
    SameBody(Forwards(h1.mem), o, o1);
  }

  lemma OldNotForwarded(h: Heap, h1: Heap, a: Addr)
    requires Scavenging(h, h1) && a in h.mem && h.mem[a].Live? && IsOld(h, a) && !IsYoung(h, a)
    ensures a in h1.mem && h1.mem[a].Live? && RewriteOf(Forwards(h1.mem), h.mem[a].obj, h1.mem[a].obj)
    ensures forall b :: b in Forwards(h1.mem) ==> IsYoung(h, b)
  {
    hide PlacedNow, ApartNow, Conserved, CopiesOk, NothingElse, RewriteOf;
  }

  lemma SameBody(fwd: map<Addr, Addr>, o: Obj, o1: Obj)
    requires RewriteOf(fwd, o, o1) && forall i :: 0 <= i < |o.Refs()| && o.Refs()[i].Ptr? ==> o.Refs()[i].addr !in fwd
    ensures o1.Refs() == o.Refs()
  {
    forall i | 0 <= i < |o.Refs()|
      ensures o1.Refs()[i] == o.Refs()[i]
    {
    }
  }

  lemma UntouchedPlain(h: Heap, h1: Heap, recheck: seq<Addr>, h': Heap, a: Addr)
    requires HeapOk(h) && Scavenging(h, h1) && Recheck(h, h1, recheck) && Rebuilt(Flip(h1), recheck, h')
    requires Scavenged(h, h', Forwards(h1.mem)) && a !in recheck && Plain(h', a)
    ensures Plain(h, a) && a in h1.mem && h1.mem[a].Live? && h'.mem[a] == h1.mem[a]
  {
    hide PlacedNow, ApartNow, Conserved, CopiesOk, NoOverlap, NoGaps, NoDangling, BufferOk, ActiveOk, Remembered;
    NewIsListed(h, h1, recheck, h', a);
  }

  lemma NewIsListed(h: Heap, h1: Heap, recheck: seq<Addr>, h': Heap, a: Addr)
    requires Scavenging(h, h1) && Recheck(h, h1, recheck) && Scavenged(h, h', Forwards(h1.mem)) && a in h'.mem && IsOld(h', a)
    ensures a in h.mem || a in recheck
  {
    hide PlacedNow, ApartNow, Conserved, CopiesOk, OldOk, OriginalsOk, NothingElse, Renames;
  }

  // ---------- runs ----------

  lemma NextNames(h: Heap, h': Heap)
    requires HeapOk(h) && OldNames(h) && StackKind(h) && StackKind(h') && Next(h, h')
    ensures OldNames(h')
  {
    hide HeapOk, OldNames, StackKind, Spares, StoreStep, PutStep, FillStep, RootsStep, SwitchStep, AllocStep, GrowStep, DropStep,
      ScavengeStep, CompactStep;
    if ScavengeStep(h, h') {
      ScavengeNames(h, h');
    } else if CompactStep(h, h') {
      CompactNames(h, h');
    } else {
      if StoreStep(h, h') || PutStep(h, h') || FillStep(h, h') {
        StoreStepSpares(h, h');
      } else if RootsStep(h, h') || SwitchStep(h, h') || DropStep(h, h') {
        RootStepSpares(h, h');
      } else {
        AllocStepSpares(h, h');
      }
      SparesKeeps(h, h');
    }
  }

  /** Over any run in which the running stack is a stack, old objects that are no stacks, dead ones included, refer to old
      objects that are there, or are in the store buffer. */
  lemma {:induction false} OldNamesAlways(h: Heap, h': Heap, n: nat)
    requires HeapOk(h) && OldNames(h) && StackedRun(h, h', n)
    ensures HeapOk(h') && OldNames(h')
    decreases n
  {
    hide HeapOk, OldNames, StackKind, Next;
    if n > 0 {
      var h1 :| StackedRun(h, h1, n - 1) && Next(h1, h');
      OldNamesAlways(h, h1, n - 1);
      NextKeeps(h1, h');
      assert StackKind(h1);
      NextNames(h1, h');
    }
  }

  /** A machine starts so. */
  lemma BareNames(young: Space, spare: Space, oldSpace: Space, threshold: nat)
    requires oldSpace.words >= 3
    ensures OldNames(BareHeap(young, spare, oldSpace, threshold))
  {
    var h := BareHeap(young, spare, oldSpace, threshold);
    forall a | Plain(h, a)
      ensures NamesOld(h, h.mem[a].obj)
    {
      assert h.mem[a].obj.Refs() == [];
    }
  }
}
