/** The steps of the running program that the collector depends on: barriered stores, stores into the running stack,
    allocation, process switches and stack growth. */
module Mutator {
  import opened ObjectMemory
  import opened Scavenge
  import opened ScavengeSteps
  import opened ScavengeResult

  // ---------- stores ----------

  /** Remember an old object: set its bit and put it into the store buffer, unless that was done before. */
  function Remember(h: Heap, b: Addr): Heap
    requires b in h.mem && h.mem[b].Live?
  {
    if h.oldSpace.Contains(b) && !h.mem[b].obj.gc.remembered
    then h.(mem := h.mem[b := Live(WithRemembered(h.mem[b].obj, true))], ssb := h.ssb + [b])
    else h
  }

  function Barrier(h: Heap, b: Addr, v: Value): Heap
    requires b in h.mem && h.mem[b].Live?
  {
    if v.Ptr? && h.young.Contains(v.addr) then Remember(h, b) else h
  }

  ghost predicate HasRef(h: Heap, b: Addr, i: nat) {
    b in h.mem && h.mem[b].Live? && i < |h.mem[b].obj.Refs()|
  }

  ghost function Store(h: Heap, b: Addr, i: nat, v: Value): Heap
    requires HasRef(h, b, i)
  {
    Barrier(SetRef(h, b, i, v), b, v)
  }

  /** The program holds `b` and `v`, and does not replace the running process's stack. */
  ghost predicate CanStore(h: Heap, b: Addr, i: nat, v: Value) {
    && HasRef(h, b, i) && Tracks(h, b) && ReachedValue(h, v)
    && !(HasActive(h) && b == h.active.addr && i == PROCESS_STACK)
  }

  lemma SetRefReaches(h: Heap, b: Addr, i: nat, v: Value)
    requires NoDangling(h) && HasRef(h, b, i) && Tracks(h, b) && ReachedValue(h, v)
    ensures forall a :: Tracks(SetRef(h, b, i, v), a) ==> Tracks(h, a)
  {
    var h' := SetRef(h, b, i, v);
    forall a | a in Starts(h')
      ensures a in Tracked(h)
    {
      assert a in Starts(h);
      ReachableStart(h.mem, Starts(h), a);
    }
    forall a, c | a in Tracked(h) && Edge(h'.mem, a, c)
      ensures c in Tracked(h)
    {
      if Edge(h.mem, a, c) {
        ReachableEdge(h.mem, Starts(h), a, c);
      } else {
        assert v == Ptr(c);
      }
    }
    ReachableWithin(h'.mem, Starts(h'), Tracked(h));
  }

  /** The layout depends on addresses, sizes and marks alone. */
  ghost predicate SameLayout(h: Heap, h': Heap) {
    && h'.young == h.young && h'.spare == h.spare && h'.oldSpace == h.oldSpace
    && h'.mem.Keys == h.mem.Keys
    && forall a :: a in h.mem && h.mem[a].Live? ==>
      h'.mem[a].Live? && h'.mem[a].obj.NumSlots() == h.mem[a].obj.NumSlots() && h'.mem[a].obj.gc.mark == h.mem[a].obj.gc.mark
  }

  ghost predicate LayoutOk(h: Heap) {
    SpacesOk(h) && Placed(h) && NoOverlap(h.mem) && NoGaps(h.mem, h.young)
  }

  lemma LayoutKept(h: Heap, h': Heap)
    requires LayoutOk(h) && SameLayout(h, h')
    ensures LayoutOk(h')
  {
    PlacesKept(h, h');
    hide Placed, NoOverlap, SpacesOk;
    assert HeadersIn(h'.mem, h'.young) == HeadersIn(h.mem, h.young);
    TotalSame(h.mem, h'.mem, HeadersIn(h.mem, h.young)) by {
      PlacedLive(h);
    }
  }

  lemma PlacesKept(h: Heap, h': Heap)
    requires Placed(h) && NoOverlap(h.mem) && SameLayout(h, h')
    ensures Placed(h') && NoOverlap(h'.mem) && (SpacesOk(h) ==> SpacesOk(h'))
  {
    assert Placed(h') by {
      hide NoOverlap;
    }
    hide SpacesOk, InUsed;
    assert forall a :: a in h'.mem ==> a in h.mem && h.mem[a].Live? && h'.mem[a].Live?;
    hide Placed;
  }

  lemma PlacedLive(h: Heap)
    requires Placed(h)
    ensures forall a :: a in h.mem ==> h.mem[a].Live?
  {
  }

  lemma SetRefLayout(h: Heap, b: Addr, i: nat, v: Value)
    requires HasRef(h, b, i)
    ensures SameLayout(h, SetRef(h, b, i, v))
  {
  }

  lemma SetRefRest(h: Heap, b: Addr, i: nat, v: Value)
    requires HeapOk(h) && HasRef(h, b, i) && Tracks(h, b) && ReachedValue(h, v)
    ensures var h' := SetRef(h, b, i, v); NoDangling(h') && ActiveOk(h') && BufferOk(h')
  {
    hide Remembered, NoOverlap, NoGaps, Placed;
    SetRefReaches(h, b, i, v);
  }

  lemma SetRefRunning(h: Heap, b: Addr, i: nat, v: Value)
    requires HasRef(h, b, i) && !(HasActive(h) && b == h.active.addr && i == PROCESS_STACK)
    ensures RunningStack(SetRef(h, b, i, v)) == RunningStack(h)
  {
  }

  /** A store can make only its own object refer to young ones, and only by storing a young value. */
  lemma SetRefPointsYoung(h: Heap, b: Addr, i: nat, v: Value, a: Addr)
    requires HasRef(h, b, i) && a in h.mem && h.mem[a].Live?
    requires PointsYoung(SetRef(h, b, i, v), a)
    ensures PointsYoung(h, a) || (a == b && YoungValue(h, v))
  {
    var u :| u in SetRef(h, b, i, v).mem[a].obj.Refs() && u.Ptr? && IsYoung(h, u.addr);
    if a == b && u != v {
      assert u in h.mem[a].obj.Refs();
    }
  }

  /** A store that skips the barrier keeps the invariant if the object is young, exempt or already remembered, or the
      value is not young. */
  lemma SetRefKeeps(h: Heap, b: Addr, i: nat, v: Value)
    requires HeapOk(h) && HasRef(h, b, i) && Tracks(h, b) && ReachedValue(h, v)
    requires RunningStack(SetRef(h, b, i, v)) == RunningStack(h)
    requires !YoungValue(h, v) || !IsOld(h, b) || b in RunningStack(h) || b in h.ssb
    ensures HeapOk(SetRef(h, b, i, v))
  {
    hide SpacesOk, NoOverlap, NoGaps, Placed, RunningStack, NoDangling, ActiveOk, BufferOk, PointsYoung;
    SetRefLayout(h, b, i, v);
    hide SameLayout;
    LayoutKept(h, SetRef(h, b, i, v));
    SetRefRest(h, b, i, v);
    SetRefReaches(h, b, i, v);
    var h' := SetRef(h, b, i, v);
    forall a | a in h'.mem && h'.mem[a].Live? && Tracks(h', a) && IsOld(h', a) && PointsYoung(h', a)
      ensures a in RunningStack(h') || a in h'.ssb
    {
      SetRefPointsYoung(h, b, i, v, a);
    }
  }

  lemma RememberReaches(h: Heap, b: Addr)
    requires b in h.mem && h.mem[b].Live? && Tracks(h, b) && NoDangling(h)
    ensures forall a :: Tracks(Remember(h, b), a) ==> Tracks(h, a)
  {
    var h' := Remember(h, b);
    forall a | a in Starts(h')
      ensures a in Tracked(h)
    {
      if a != b {
        assert a in Starts(h);
        ReachableStart(h.mem, Starts(h), a);
      }
    }
    forall a, c | a in Tracked(h) && Edge(h'.mem, a, c)
      ensures c in Tracked(h)
    {
      assert Edge(h.mem, a, c);
      ReachableEdge(h.mem, Starts(h), a, c);
    }
    ReachableWithin(h'.mem, Starts(h'), Tracked(h));
  }

  lemma RememberLayout(h: Heap, b: Addr)
    requires b in h.mem && h.mem[b].Live?
    ensures SameLayout(h, Remember(h, b))
  {
  }

  lemma RememberRest(h: Heap, b: Addr)
    requires ActiveOk(h) && BufferOk(h)
    requires b in h.mem && h.mem[b].Live?
    ensures var h' := Remember(h, b); ActiveOk(h') && BufferOk(h') && RunningStack(h') == RunningStack(h)
    ensures IsOld(h, b) ==> b in Remember(h, b).ssb
    ensures forall a :: a in h.ssb ==> a in Remember(h, b).ssb
  {
  }

  lemma RememberKeeps(h: Heap, b: Addr)
    requires HeapOk(h) && b in h.mem && h.mem[b].Live? && Tracks(h, b)
    ensures HeapOk(Remember(h, b))
    ensures IsOld(h, b) ==> b in Remember(h, b).ssb
    ensures RunningStack(Remember(h, b)) == RunningStack(h)
    ensures forall a :: Tracks(h, a) ==> Tracks(Remember(h, b), a)
  {
    hide SpacesOk, NoOverlap, NoGaps, Placed, RunningStack, ActiveOk, BufferOk, PointsYoung;
    RememberLayout(h, b);
    LayoutKept(h, Remember(h, b));
    hide SameLayout;
    RememberRest(h, b);
    RememberReaches(h, b);
    RememberReachesBack(h, b);
    var h' := Remember(h, b);
    forall a | a in h'.mem && h'.mem[a].Live? && Tracks(h', a) && IsOld(h', a) && PointsYoung(h', a)
      ensures a in RunningStack(h') || a in h'.ssb
    {
      RememberPointsYoung(h, b, a);
    }
  }

  lemma RememberPointsYoung(h: Heap, b: Addr, a: Addr)
    requires b in h.mem && h.mem[b].Live? && a in h.mem && h.mem[a].Live?
    requires PointsYoung(Remember(h, b), a)
    ensures PointsYoung(h, a)
  {
    assert Remember(h, b).mem[a].obj.Refs() == h.mem[a].obj.Refs();
  }

  lemma RememberReachesBack(h: Heap, b: Addr)
    requires b in h.mem && h.mem[b].Live?
    ensures forall a :: Tracks(h, a) ==> Tracks(Remember(h, b), a)
  {
    var h' := Remember(h, b);
    forall a | Tracks(h, a)
      ensures Tracks(h', a)
    {
      var n: nat :| ReachableIn(h.mem, Starts(h), a, n);
      ReachableMore(h.mem, Starts(h), h'.mem, Starts(h'), a, n);
    }
  }

  lemma {:induction false} ReachableMore(m: Memory, s: set<Addr>, m': Memory, s': set<Addr>, a: Addr, n: nat)
    requires s <= s'
    requires forall x, y :: Edge(m, x, y) ==> Edge(m', x, y)
    requires ReachableIn(m, s, a, n)
    ensures Reachable(m', s', a)
    decreases n
  {
    if n == 0 {
      ReachableStart(m', s', a);
    } else {
      var b :| ReachableIn(m, s, b, n - 1) && Edge(m, b, a);
      ReachableMore(m, s, m', s', b, n - 1);
      ReachableEdge(m', s', b, a);
    }
  }

  /** A barriered store keeps the invariant. */
  lemma StoreKeeps(h: Heap, b: Addr, i: nat, v: Value)
    requires HeapOk(h) && CanStore(h, b, i, v)
    ensures HeapOk(Store(h, b, i, v))
  {
    hide HeapOk;
    SetRefRunning(h, b, i, v);
    if YoungValue(h, v) {
      var h1 := Remember(h, b);
      RememberKeeps(h, b);
      RememberRefs(h, b, i, v);
      assert Tracks(h, v.addr);
      SetRefRunning(h1, b, i, v);
      SetRefKeeps(h1, b, i, v);
    } else {
      SetRefKeeps(h, b, i, v);
    }
  }

  lemma RememberRefs(h: Heap, b: Addr, i: nat, v: Value)
    requires HasRef(h, b, i)
    ensures HasRef(Remember(h, b), b, i)
    ensures Remember(SetRef(h, b, i, v), b) == SetRef(Remember(h, b), b, i, v)
  {
    var o := h.mem[b].obj;
    assert WithRemembered(o, true).WithRef(i, v) == WithRemembered(o.WithRef(i, v), true);
    assert Remember(SetRef(h, b, i, v), b).mem == SetRef(Remember(h, b), b, i, v).mem;
  }

  /** A store into the running stack skips the barrier and keeps the invariant. */
  lemma PutKeeps(h: Heap, b: Addr, i: nat, v: Value)
    requires HeapOk(h) && b in RunningStack(h) && CanStore(h, b, i, v)
    ensures HeapOk(SetRef(h, b, i, v))
  {
    hide HeapOk, RunningStack;
    SetRefRunning(h, b, i, v);
    SetRefKeeps(h, b, i, v);
  }

  /** So does a store that fills a young object. */
  lemma FillKeeps(h: Heap, b: Addr, i: nat, v: Value)
    requires HeapOk(h) && IsYoung(h, b) && CanStore(h, b, i, v)
    ensures HeapOk(SetRef(h, b, i, v))
  {
    SetRefRunning(h, b, i, v);
    hide RunningStack;
    SetRefKeeps(h, b, i, v);
  }

  // ---------- roots ----------

  /** The program may change the root vectors to any values it holds; nil stays first. */
  ghost predicate CanSetRoots(h: Heap, roots: seq<Value>) {
    && |roots| > 0 && |h.roots| > 0 && roots[0] == h.roots[0]
    && forall v :: v in roots ==> ReachedValue(h, v)
  }

  lemma RootsReach(h: Heap, h': Heap)
    requires NoDangling(h) && h'.mem == h.mem && h'.ssb == h.ssb
    requires forall v :: v in h'.roots ==> ReachedValue(h, v)
    requires ReachedValue(h, h'.active)
    ensures forall a :: Tracks(h', a) ==> Tracks(h, a)
  {
    forall a | a in Starts(h')
      ensures a in Tracked(h)
    {
      if a in h.ssb {
        ReachedRoots(h);
      } else if v :| v in h'.roots && v == Ptr(a) {
        assert ReachedValue(h, v);
      }
    }
    forall a, c | a in Tracked(h) && Edge(h'.mem, a, c)
      ensures c in Tracked(h)
    {
      ReachableEdge(h.mem, Starts(h), a, c);
    }
    ReachableWithin(h'.mem, Starts(h'), Tracked(h));
  }

  lemma SetRootsKeeps(h: Heap, roots: seq<Value>)
    requires HeapOk(h) && CanSetRoots(h, roots)
    ensures HeapOk(h.(roots := roots))
  {
    ReachedRoots(h);
    RootsKeep(h, h.(roots := roots));
  }

  /** New roots keep the invariant if the stack that is exempt afterwards covers the one before. */
  lemma RootsKeep(h: Heap, h': Heap)
    requires HeapOk(h) && h' == h.(roots := h'.roots, active := h'.active)
    requires |h'.roots| > 0 && h'.roots[0] == h.roots[0]
    requires forall v :: v in h'.roots ==> ReachedValue(h, v)
    requires ReachedValue(h, h'.active) && ActiveOk(h')
    requires forall s :: s in RunningStack(h) && IsOld(h, s) ==> s in RunningStack(h') || s in h.ssb
    ensures HeapOk(h')
  {
    hide SpacesOk, NoOverlap, NoGaps, Placed, RunningStack, ActiveOk, BufferOk, PointsYoung;
    RootsReach(h, h');
    LayoutKept(h, h');
    BufferKeptToo(h, h');
    forall a | a in h'.mem && h'.mem[a].Live?
      ensures PointsYoung(h', a) <==> PointsYoung(h, a)
    {
      SamePointsYoung(h, h', a);
    }
  }

  lemma BufferKeptToo(h: Heap, h': Heap)
    requires BufferOk(h) && h' == h.(roots := h'.roots, active := h'.active)
    ensures BufferOk(h')
  {
  }

  // ---------- process switches ----------

  /** Remember the outgoing stack if it lives in old space: it is no longer exempt. */
  ghost function RememberStack(h: Heap): Heap {
    if exists s :: s in RunningStack(h) && s in h.mem && h.mem[s].Live?
    then
      var s :| s in RunningStack(h) && s in h.mem && h.mem[s].Live?;
      Remember(h, s)
    else h
  }

  ghost predicate CanTransfer(h: Heap, target: Value) {
    && target.Ptr? && ReachedValue(h, target) && h.mem[target.addr].Live?
    && |h.mem[target.addr].obj.Refs()| > PROCESS_STACK
  }

  ghost function Transfer(h: Heap, target: Value): Heap {
    RememberStack(h).(active := target)
  }

  lemma RememberStackKeeps(h: Heap)
    requires HeapOk(h)
    ensures var h' := RememberStack(h);
      && HeapOk(h') && (forall s :: s in RunningStack(h') && IsOld(h', s) ==> s in h'.ssb)
      && (forall a :: Tracks(h, a) ==> Tracks(h', a)) && SameRefs(h, h')
  {
    hide SpacesOk, NoOverlap, NoGaps, ActiveOk, BufferOk, PointsYoung, Remembered;
    RunningStackLive(h);
    hide RunningStack, HeapOk;
    if s :| s in RunningStack(h) {
      RememberKeeps(h, s);
      RememberSameRefs(h, s);
      assert RememberStack(h) == Remember(h, s);
    }
  }

  ghost predicate SameRefs(h: Heap, h': Heap) {
    && h'.mem.Keys == h.mem.Keys
    && forall a :: a in h.mem && h.mem[a].Live? ==> h'.mem[a].Live? && h'.mem[a].obj.Refs() == h.mem[a].obj.Refs()
  }

  lemma RememberSameRefs(h: Heap, b: Addr)
    requires b in h.mem && h.mem[b].Live?
    ensures SameRefs(h, Remember(h, b))
  {
  }

  lemma RunningStackLive(h: Heap)
    requires NoDangling(h) && Placed(h)
    ensures forall s :: s in RunningStack(h) ==>
      s in h.mem && h.mem[s].Live? && Tracks(h, s) && RunningStack(h) == {s}
  {
    RunningStackTracked(h);
  }

  lemma TransferKeeps(h: Heap, target: Value)
    requires HeapOk(h) && CanTransfer(h, target)
    ensures HeapOk(Transfer(h, target))
  {
    var h1 := RememberStack(h);
    RememberStackKeeps(h);
    hide RememberStack;
    SwitchKeeps(h1, target);
  }

  /** Once its stack is remembered, the running process can be switched. */
  lemma SwitchKeeps(h1: Heap, target: Value)
    requires HeapOk(h1) && CanTransfer(h1, target)
    requires forall s :: s in RunningStack(h1) && IsOld(h1, s) ==> s in h1.ssb
    ensures HeapOk(h1.(active := target))
  {
    hide SpacesOk, NoOverlap, NoGaps, Placed, RunningStack, BufferOk, PointsYoung, Remembered;
    ReachedRoots(h1);
    RootsKeep(h1, h1.(active := target));
  }

  // ---------- allocation ----------

  /** A new object is put at the top of its space. */
  function PlaceAddr(h: Heap, o: Obj, inOld: bool): Addr {
    (if inOld then h.oldSpace.Top() else h.young.Top()) + o.Extra()
  }

  function Place(h: Heap, o: Obj, inOld: bool): Heap {
    var m := h.mem[PlaceAddr(h, o, inOld) := Live(o)];
    if inOld
    then h.(mem := m, oldSpace := h.oldSpace.(alloc := h.oldSpace.alloc + o.Footprint()))
    else h.(mem := m, young := h.young.(alloc := h.young.alloc + o.Footprint()))
  }

  ghost predicate CanPlace(h: Heap, o: Obj, inOld: bool) {
    && (if inOld then h.oldSpace else h.young).HasRoom(o.Footprint())
    && !o.gc.mark && !o.gc.remembered
  }

  lemma PlaceFresh(h: Heap, o: Obj, inOld: bool)
    requires SpacesOk(h) && Placed(h) && CanPlace(h, o, inOld)
    ensures PlaceAddr(h, o, inOld) !in h.mem
    ensures if inOld then IsOld(h, PlaceAddr(h, o, inOld)) else IsYoung(h, PlaceAddr(h, o, inOld))
  {
  }

  lemma PlaceLayout(h: Heap, o: Obj, inOld: bool)
    requires LayoutOk(h) && CanPlace(h, o, inOld)
    ensures LayoutOk(Place(h, o, inOld))
  {
    PlaceFresh(h, o, inOld);
    PlaceApart(h, o, inOld);
    PlaceTotals(h, o, inOld);
    hide NoGaps, NoOverlap;
    PlacePlaced(h, o, inOld);
  }

  lemma PlacePlaced(h: Heap, o: Obj, inOld: bool)
    requires SpacesOk(h) && Placed(h) && CanPlace(h, o, inOld)
    ensures SpacesOk(Place(h, o, inOld)) && Placed(Place(h, o, inOld))
  {
  }

  lemma PlaceApart(h: Heap, o: Obj, inOld: bool)
    requires SpacesOk(h) && Placed(h) && NoOverlap(h.mem) && CanPlace(h, o, inOld)
    ensures NoOverlap(Place(h, o, inOld).mem)
  {
    var n := PlaceAddr(h, o, inOld);
    forall a | a in h.mem
      ensures Apart(a, h.mem[a].obj, n, o)
    {
      assert InUsed(h.young, a, h.mem[a].obj) || InUsed(h.oldSpace, a, h.mem[a].obj);
    }
  }

  lemma PlaceTotals(h: Heap, o: Obj, inOld: bool)
    requires SpacesOk(h) && Placed(h) && NoGaps(h.mem, h.young) && CanPlace(h, o, inOld)
    requires PlaceAddr(h, o, inOld) !in h.mem
    ensures NoGaps(Place(h, o, inOld).mem, Place(h, o, inOld).young)
  {
    var h', n := Place(h, o, inOld), PlaceAddr(h, o, inOld);
    var before := HeadersIn(h.mem, h.young);
    TotalSame(h.mem, h'.mem, before);
    if inOld {
      assert HeadersIn(h'.mem, h'.young) == before;
    } else {
      assert HeadersIn(h'.mem, h'.young) == before + {n};
      TotalAdd(h'.mem, before, n);
    }
  }

  /** The object is new: all its references are nil. */
  ghost predicate NilFilled(h: Heap, o: Obj)
    requires |h.roots| > 0
  {
    forall v :: v in o.Refs() ==> v == Nil(h)
  }

  /** Allocate and hold the new object in the handle scope. */
  ghost function Alloc(h: Heap, o: Obj, inOld: bool): Heap {
    Place(h, o, inOld).(roots := h.roots + [Ptr(PlaceAddr(h, o, inOld))])
  }

  lemma AllocReaches(h: Heap, o: Obj, inOld: bool)
    requires NoDangling(h) && |h.roots| > 0 && NilFilled(h, o)
    requires PlaceAddr(h, o, inOld) !in h.mem
    ensures forall a :: Tracks(Alloc(h, o, inOld), a) ==> Tracks(h, a) || a == PlaceAddr(h, o, inOld)
  {
    var h', n := Alloc(h, o, inOld), PlaceAddr(h, o, inOld);
    ReachedRoots(h);
    var s := Tracked(h) + {n};
    forall a | a in Starts(h')
      ensures a in s
    {
      if a in h.ssb {
      } else if v :| v in h'.roots && v == Ptr(a) {
        assert v in h.roots ==> ReachedValue(h, v);
      }
    }
    forall a, c | a in s && Edge(h'.mem, a, c)
      ensures c in s
    {
      if a == n {
        assert Ptr(c) == Nil(h) && ReachedValue(h, Nil(h));
      } else {
        assert Edge(h.mem, a, c);
        ReachableEdge(h.mem, Starts(h), a, c);
      }
    }
    ReachableWithin(h'.mem, Starts(h'), s);
  }

  lemma AllocKeeps(h: Heap, o: Obj, inOld: bool)
    requires HeapOk(h) && CanPlace(h, o, inOld) && NilFilled(h, o)
    ensures HeapOk(Alloc(h, o, inOld))
  {
    hide SpacesOk, NoOverlap, NoGaps, Placed, RunningStack, PointsYoung, Reachable;
    var h', n := Alloc(h, o, inOld), PlaceAddr(h, o, inOld);
    PlaceFresh(h, o, inOld);
    PlaceLayout(h, o, inOld);
    AllocReaches(h, o, inOld);
    AllocRest(h, o, inOld);
    AllocLayout(h, o, inOld);
    forall a | a in h'.mem && h'.mem[a].Live? && Tracks(h', a) && IsOld(h', a) && PointsYoung(h', a)
      ensures a in RunningStack(h') || a in h'.ssb
    {
      AllocPointsYoung(h, o, inOld, a);
    }
  }

  lemma AllocLayout(h: Heap, o: Obj, inOld: bool)
    requires LayoutOk(Place(h, o, inOld))
    ensures LayoutOk(Alloc(h, o, inOld))
  {
  }

  lemma AllocRest(h: Heap, o: Obj, inOld: bool)
    requires ActiveOk(h) && BufferOk(h) && CanPlace(h, o, inOld) && NoDangling(h)
    requires PlaceAddr(h, o, inOld) !in h.mem
    ensures var h' := Alloc(h, o, inOld); ActiveOk(h') && BufferOk(h') && RunningStack(h') == RunningStack(h)
  {
    ReachedRoots(h);
    var h' := Alloc(h, o, inOld);
    assert h.active.Ptr? ==> h.active.addr in h.mem;
  }

  lemma AllocPointsYoung(h: Heap, o: Obj, inOld: bool, a: Addr)
    requires SpacesOk(h) && |h.roots| > 0 && NilFilled(h, o) && Nil(h).Ptr? && IsOld(h, Nil(h).addr)
    requires PlaceAddr(h, o, inOld) !in h.mem
    requires a in Alloc(h, o, inOld).mem && Alloc(h, o, inOld).mem[a].Live?
    requires PointsYoung(Alloc(h, o, inOld), a)
    ensures a in h.mem && h.mem[a].Live? && PointsYoung(h, a)
  {
    if a == PlaceAddr(h, o, inOld) {
      assert false;
    } else {
      assert Alloc(h, o, inOld).mem[a] == h.mem[a];
    }
  }

  // ---------- stack growth and the end of a process ----------

  /** Nothing but the running process refers to its stack. */
  ghost predicate SoleStack(h: Heap) {
    && HasStackSlot(h) && StackValue(h).Ptr? && StackValue(h) != Nil(h)
    && StackValue(h) != h.active && StackValue(h) !in h.roots
    && (forall a, i: nat :: HasRef(h, a, i) && Tracks(h, a) && h.mem[a].obj.Refs()[i] == StackValue(h) ==>
          a == h.active.addr && i == PROCESS_STACK)
  }

  /** The grown stack starts with the values of the old one; the rest is nil. */
  ghost predicate GrownStack(h: Heap, o: Obj)
    requires |h.roots| > 0
  {
    && StackValue(h).Ptr? && StackValue(h).addr in h.mem && h.mem[StackValue(h).addr].Live?
    && h.mem[StackValue(h).addr].obj.Refs() <= o.Refs()
    && forall i :: |h.mem[StackValue(h).addr].obj.Refs()| <= i < |o.Refs()| ==> o.Refs()[i] == Nil(h)
  }

  ghost function Grow(h: Heap, o: Obj, inOld: bool): Heap
    requires HasStackSlot(h)
    requires PlaceAddr(h, o, inOld) !in h.mem
  {
    Store(Place(h, o, inOld), h.active.addr, PROCESS_STACK, Ptr(PlaceAddr(h, o, inOld)))
  }

  /** All that stays reachable, and the new stack; the old stack only if it was buffered. */
  ghost function AfterGrow(h: Heap, n: Addr): set<Addr> {
    if StackValue(h).Ptr? && StackValue(h).addr !in h.ssb then Tracked(h) + {n} - {StackValue(h).addr} else Tracked(h) + {n}
  }

  lemma GrowReaches(h: Heap, o: Obj, inOld: bool)
    requires NoDangling(h) && Placed(h) && |h.roots| > 0 && SoleStack(h) && GrownStack(h, o)
    requires PlaceAddr(h, o, inOld) !in h.mem
    ensures forall a :: Tracks(Grow(h, o, inOld), a) ==> a in AfterGrow(h, PlaceAddr(h, o, inOld))
  {
    var h', n, t := Grow(h, o, inOld), PlaceAddr(h, o, inOld), AfterGrow(h, PlaceAddr(h, o, inOld));
    ReachedRoots(h);
    forall a | a in Starts(h')
      ensures a in t
    {
      if a in h.ssb {
      } else if a == h.active.addr {
      } else if v :| v in h'.roots && v == Ptr(a) {
        assert ReachedValue(h, v);
      }
    }
    forall a, c | a in t && Edge(h'.mem, a, c)
      ensures c in t
    {
      GrowEdge(h, o, inOld, a, c);
    }
    ReachableWithin(h'.mem, Starts(h'), t);
  }

  lemma GrowEdge(h: Heap, o: Obj, inOld: bool, a: Addr, c: Addr)
    requires NoDangling(h) && Placed(h) && |h.roots| > 0 && SoleStack(h) && GrownStack(h, o)
    requires PlaceAddr(h, o, inOld) !in h.mem
    requires a in AfterGrow(h, PlaceAddr(h, o, inOld)) && Edge(Grow(h, o, inOld).mem, a, c)
    ensures c in AfterGrow(h, PlaceAddr(h, o, inOld))
  {
    assert HasStackSlot(h);
    hide NoDangling, Placed, SoleStack, GrownStack, StackValue, PlaceAddr, Tracks;
    var n := PlaceAddr(h, o, inOld);
    var refs := Grow(h, o, inOld).mem[a].obj.Refs();
    var i: nat :| i < |refs| && refs[i] == Ptr(c);
    GrowRefs(h, o, inOld, a, i);
    hide Grow;
    if a == n {
      NewStackEdge(h, o, i, c);
    } else if a == h.active.addr && i == PROCESS_STACK {
      assert c == n;
    } else {
      OtherEdge(h, a, i, c);
    }
  }

  /** The slots after a growth: those of the new stack, and the process's slot that refers to it. */
  lemma GrowRefs(h: Heap, o: Obj, inOld: bool, a: Addr, i: nat)
    requires HasStackSlot(h) && PlaceAddr(h, o, inOld) !in h.mem
    requires HasRef(Grow(h, o, inOld), a, i)
    ensures var v, n := Grow(h, o, inOld).mem[a].obj.Refs()[i], PlaceAddr(h, o, inOld);
      if a == n then i < |o.Refs()| && v == o.Refs()[i]
      else if a == h.active.addr && i == PROCESS_STACK then v == Ptr(n)
      else HasRef(h, a, i) && v == h.mem[a].obj.Refs()[i]
  {
  }

  /** Apart from the process's stack slot, no reachable slot holds the stack. */
  lemma OtherEdge(h: Heap, a: Addr, i: nat, c: Addr)
    requires NoDangling(h) && SoleStack(h) && HasRef(h, a, i) && Tracks(h, a) && h.mem[a].obj.Refs()[i] == Ptr(c)
    requires !(a == h.active.addr && i == PROCESS_STACK)
    ensures c in h.mem && Tracks(h, c) && Ptr(c) != StackValue(h)
  {
    ReachedSlots(h, a);
    assert ReachedValue(h, Ptr(c));
  }

  lemma NewStackEdge(h: Heap, o: Obj, i: nat, c: Addr)
    requires NoDangling(h) && Placed(h) && |h.roots| > 0 && SoleStack(h) && GrownStack(h, o)
    requires i < |o.Refs()| && o.Refs()[i] == Ptr(c)
    ensures c in h.mem && Tracks(h, c) && Ptr(c) != StackValue(h)
  {
    ReachedRoots(h);
    ReachedSlots(h, h.active.addr);
    assert ReachedValue(h, StackValue(h)) && ReachedValue(h, Nil(h));
    var s := StackValue(h).addr;
    if i < |h.mem[s].obj.Refs()| {
      OtherEdge(h, s, i, c);
    }
  }

  /** A grown stack takes over the exemption; the old stack, if it is not buffered, can no longer be reached. */
  lemma GrowKeeps(h: Heap, o: Obj, inOld: bool)
    requires HeapOk(h) && SoleStack(h) && GrownStack(h, o) && CanPlace(h, o, inOld)
    ensures PlaceAddr(h, o, inOld) !in h.mem && HeapOk(Grow(h, o, inOld))
  {
    assert HasStackSlot(h);
    hide NoOverlap, NoGaps, Remembered, SoleStack, GrownStack, RunningStack, BufferOk, StackValue;
    PlaceFresh(h, o, inOld);
    GrowLayout(h, o, inOld);
    GrowReaches(h, o, inOld);
    GrowActive(h, o, inOld);
    GrowBuffer(h, o, inOld);
    GrowDangling(h, o, inOld);
    GrowRemembers(h, o, inOld);
  }

  lemma GrowLayout(h: Heap, o: Obj, inOld: bool)
    requires LayoutOk(h) && CanPlace(h, o, inOld) && HasStackSlot(h)
    requires PlaceAddr(h, o, inOld) !in h.mem
    ensures LayoutOk(Grow(h, o, inOld)) && Grow(h, o, inOld).spare == h.spare
  {
    hide LayoutOk, SameLayout;
    var h1, n, p := Place(h, o, inOld), PlaceAddr(h, o, inOld), h.active.addr;
    PlaceLayout(h, o, inOld);
    SetRefLayout(h1, p, PROCESS_STACK, Ptr(n));
    var h2 := SetRef(h1, p, PROCESS_STACK, Ptr(n));
    LayoutKept(h1, h2);
    RememberLayout(h2, p);
    LayoutKept(h2, Remember(h2, p));
  }

  lemma GrowActive(h: Heap, o: Obj, inOld: bool)
    requires ActiveOk(h) && SoleStack(h) && Placed(h) && NoDangling(h)
    requires PlaceAddr(h, o, inOld) !in h.mem
    ensures ActiveOk(Grow(h, o, inOld))
    ensures RunningStack(Grow(h, o, inOld)) == {PlaceAddr(h, o, inOld)}
    ensures RunningStack(h) == {StackValue(h).addr}
  {
    ReachedRoots(h);
    assert ReachedValue(h, Nil(h));
  }

  lemma GrowBuffer(h: Heap, o: Obj, inOld: bool)
    requires BufferOk(h) && CanPlace(h, o, inOld) && HasStackSlot(h)
    requires PlaceAddr(h, o, inOld) !in h.mem
    ensures BufferOk(Grow(h, o, inOld))
    ensures forall a :: a in h.ssb ==> a in Grow(h, o, inOld).ssb
  {
  }

  lemma GrowDangling(h: Heap, o: Obj, inOld: bool)
    requires HasStackSlot(h) && PlaceAddr(h, o, inOld) !in h.mem
    requires forall a :: Tracks(Grow(h, o, inOld), a) ==> a in AfterGrow(h, PlaceAddr(h, o, inOld))
    ensures NoDangling(Grow(h, o, inOld))
  {
  }

  lemma GrowRemembers(h: Heap, o: Obj, inOld: bool)
    requires HeapOk(h) && SoleStack(h) && GrownStack(h, o) && CanPlace(h, o, inOld)
    requires PlaceAddr(h, o, inOld) !in h.mem
    requires forall a :: Tracks(Grow(h, o, inOld), a) ==> a in AfterGrow(h, PlaceAddr(h, o, inOld))
    requires RunningStack(Grow(h, o, inOld)) == {PlaceAddr(h, o, inOld)}
    requires RunningStack(h) == {StackValue(h).addr}
    requires BufferOk(Grow(h, o, inOld)) && forall a :: a in h.ssb ==> a in Grow(h, o, inOld).ssb
    ensures Remembered(Grow(h, o, inOld))
  {
    assert HasStackSlot(h);
    hide SpacesOk, NoOverlap, NoGaps, SoleStack, GrownStack, RunningStack, BufferOk, Placed, NoDangling, StackValue,
      ActiveOk, PointsYoung, Grow, CanPlace;
    assert StackValue(h).Ptr? by {
      SoleStackPtr(h);
    }
    var h', n := Grow(h, o, inOld), PlaceAddr(h, o, inOld);
    GrowSpaces(h, o, inOld);
    forall a | a in h'.mem && h'.mem[a].Live? && Tracks(h', a) && IsOld(h', a) && PointsYoung(h', a)
      ensures a in RunningStack(h') || a in h'.ssb
    {
      if a != n {
        GrowPointsYoung(h, o, inOld, a);
      }
    }
  }

  lemma SoleStackPtr(h: Heap)
    requires SoleStack(h)
    ensures StackValue(h).Ptr?
  {
  }

  lemma GrowSpaces(h: Heap, o: Obj, inOld: bool)
    requires HasStackSlot(h) && PlaceAddr(h, o, inOld) !in h.mem
    ensures forall a :: IsOld(Grow(h, o, inOld), a) <==> IsOld(h, a)
    ensures forall a :: a in Grow(h, o, inOld).mem && a != PlaceAddr(h, o, inOld) ==> a in h.mem
  {
  }

  lemma GrowPointsYoung(h: Heap, o: Obj, inOld: bool, a: Addr)
    requires Placed(h) && BufferOk(h) && HasStackSlot(h) && PlaceAddr(h, o, inOld) !in h.mem
    requires a in h.mem && IsOld(h, a)
    requires a in Grow(h, o, inOld).mem && Grow(h, o, inOld).mem[a].Live? && PointsYoung(Grow(h, o, inOld), a)
    ensures PointsYoung(h, a) || a in Grow(h, o, inOld).ssb
  {
    var h' := Grow(h, o, inOld);
    var v :| v in h'.mem[a].obj.Refs() && v.Ptr? && IsYoung(h', v.addr);
    if a == h.active.addr {
      if v != Ptr(PlaceAddr(h, o, inOld)) {
        assert v in h.mem[a].obj.Refs();
      }
    } else {
      assert h'.mem[a].obj.Refs() == h.mem[a].obj.Refs();
    }
  }

  /** The end of a process: its stack slot becomes nil. */
  ghost function DropStack(h: Heap): Heap
    requires HasStackSlot(h)
  {
    SetRef(h, h.active.addr, PROCESS_STACK, Nil(h))
  }

  lemma DropReaches(h: Heap)
    requires NoDangling(h) && SoleStack(h)
    ensures forall a :: Tracks(DropStack(h), a) ==> a in AfterGrow(h, h.active.addr)
  {
    var h', t := DropStack(h), AfterGrow(h, h.active.addr);
    ReachedRoots(h);
    forall a | a in Starts(h')
      ensures a in t
    {
      if a in h.ssb {
      } else if a == h.active.addr {
      } else if v :| v in h'.roots && v == Ptr(a) {
        assert ReachedValue(h, v);
      }
    }
    forall a, c | a in t && Edge(h'.mem, a, c)
      ensures c in t
    {
      var refs := h'.mem[a].obj.Refs();
      var i: nat :| i < |refs| && refs[i] == Ptr(c);
      if a == h.active.addr && i == PROCESS_STACK {
        assert ReachedValue(h, Nil(h));
      } else {
        OtherEdge(h, a, i, c);
      }
    }
    ReachableWithin(h'.mem, Starts(h'), t);
  }

  lemma DropStackKeeps(h: Heap)
    requires HeapOk(h) && SoleStack(h)
    ensures HeapOk(DropStack(h))
  {
    hide NoOverlap, NoGaps, RunningStack, BufferOk, Placed, StackValue, PointsYoung, SameLayout, Remembered;
    var h', p := DropStack(h), h.active.addr;
    ReachedRoots(h);
    SetRefLayout(h, p, PROCESS_STACK, Nil(h));
    LayoutKept(h, h');
    SetRefRest(h, p, PROCESS_STACK, Nil(h));
    DropRemembers(h);
  }

  lemma DropRemembers(h: Heap)
    requires HeapOk(h) && SoleStack(h)
    ensures Remembered(DropStack(h))
  {
    DropFacts(h);
    hide HeapOk, SoleStack, RunningStack, StackValue, PointsYoung, Nil;
    var h', p := DropStack(h), h.active.addr;
    forall a | a in h'.mem && h'.mem[a].Live? && Tracks(h', a) && IsOld(h', a) && PointsYoung(h', a)
      ensures a in h'.ssb
    {
      SetRefPointsYoung(h, p, PROCESS_STACK, Nil(h), a);
    }
  }

  lemma DropFacts(h: Heap)
    requires HeapOk(h) && SoleStack(h)
    ensures HasStackSlot(h) && StackValue(h).Ptr? && RunningStack(h) == {StackValue(h).addr}
    ensures !YoungValue(h, Nil(h)) && |h.roots| > 0 && Remembered(h) && DropStack(h).oldSpace == h.oldSpace
    ensures forall a :: Tracks(DropStack(h), a) ==> a in AfterGrow(h, h.active.addr)
    ensures forall a :: a in AfterGrow(h, h.active.addr) ==> a in h.mem && h.mem[a].Live? && Tracks(h, a)
  {
    hide Remembered, NoOverlap, NoGaps, BufferOk, PointsYoung;
    ReachedRoots(h);
    DropReaches(h);
    DropRunning(h);
    hide RunningStack;
    assert Tracks(h, h.active.addr);
  }

  lemma DropRunning(h: Heap)
    requires SoleStack(h) && SpacesOk(h) && ActiveOk(h)
    ensures RunningStack(h) == {StackValue(h).addr} && !YoungValue(h, Nil(h))
    ensures StackValue(h).addr != h.active.addr
  {
  }
}
