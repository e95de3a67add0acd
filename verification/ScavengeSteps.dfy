/** What each step of the scavenger keeps true: the tri-colour argument over the work list. */
module ScavengeSteps {
  import opened ObjectMemory
  import opened Scavenge

  // ---------- what the steps of a scavenge do to the work list ----------

  /** From `h` to `h'` objects were forwarded, each new copy went onto the work list, and objects outside from-space
      other than those in `but` kept their contents. */
  ghost predicate Grows(h: Heap, w: seq<Addr>, h': Heap, w': seq<Addr>, but: set<Addr>) {
    && h'.young == h.young
    && w <= w' && h.mem.Keys <= h'.mem.Keys
    && (forall n :: n in w'[|w|..] ==> n in h'.mem && n !in h.mem)
    && (forall a :: a in h.mem && h.mem[a].Moved? ==> a in h'.mem && h'.mem[a] == h.mem[a])
    && (forall a :: a in h'.mem && h'.mem[a].Moved? ==> (a in h.mem && h.mem[a].Moved?) || h'.mem[a].to in w'[|w|..])
    && (forall b :: b in h.mem && h.mem[b].Live? && !IsYoung(h, b) && b !in but ==> b in h'.mem && h'.mem[b] == h.mem[b])
    && |w'| - |w| == |Forwards(h'.mem)| - |Forwards(h.mem)|
  }

  lemma GrowsTrans(h: Heap, w: seq<Addr>, h1: Heap, w1: seq<Addr>, h2: Heap, w2: seq<Addr>, but: set<Addr>)
    requires Grows(h, w, h1, w1, but) && Grows(h1, w1, h2, w2, but)
    ensures Grows(h, w, h2, w2, but)
  {
    assert w2[|w|..] == w1[|w|..] + w2[|w1|..];
  }

  /** All references of the object at `b` have been forwarded. */
  ghost predicate Black(h: Heap, b: Addr) {
    && b in h.mem && h.mem[b].Live? && !IsYoung(h, b)
    && forall i :: 0 <= i < |h.mem[b].obj.Refs()| ==> !YoungValue(h, h.mem[b].obj.Refs()[i])
  }

  ghost predicate YoungValue(h: Heap, v: Value) {
    v.Ptr? && IsYoung(h, v.addr)
  }

  /** Each copy is black, on the work list, or about to be scanned. */
  ghost predicate Greys(h: Heap, w: seq<Addr>, but: set<Addr>) {
    forall a :: a in h.mem && h.mem[a].Moved? ==> Black(h, h.mem[a].to) || h.mem[a].to in w || h.mem[a].to in but
  }

  /** The work list holds copies only. */
  ghost predicate WorkOk(h0: Heap, h: Heap, w: seq<Addr>) {
    forall n :: n in w ==> n in h.mem && n !in h0.mem
  }

  lemma GrowsWork(h0: Heap, h: Heap, w: seq<Addr>, h': Heap, w': seq<Addr>, but: set<Addr>)
    requires Grows(h, w, h', w', but) && WorkOk(h0, h, w) && h0.mem.Keys <= h.mem.Keys
    ensures WorkOk(h0, h', w') && h0.mem.Keys <= h'.mem.Keys
  {
    hide Forwards;
    assert w' == w + w'[|w|..];
  }

  /** What the work list means: it holds copies, and every copy not on it is black. */
  ghost predicate Queue(h0: Heap, h: Heap, w: seq<Addr>) {
    Greys(h, w, {}) && WorkOk(h0, h, w) && h0.mem.Keys <= h.mem.Keys
  }

  lemma GrowsQueue(h0: Heap, h: Heap, w: seq<Addr>, h': Heap, w': seq<Addr>, but: set<Addr>)
    requires Grows(h, w, h', w', but) && Greys(h, w, but) && WorkOk(h0, h, w) && h0.mem.Keys <= h.mem.Keys
    requires forall b :: b in but ==> Black(h', b)
    ensures Queue(h0, h', w')
  {
    GrowsGreys(h, w, h', w', but);
    GrowsWork(h0, h, w, h', w', but);
  }

  /** A step keeps black what was black, and its new copies are on the work list. */
  lemma GrowsGreys(h: Heap, w: seq<Addr>, h': Heap, w': seq<Addr>, but: set<Addr>)
    requires Grows(h, w, h', w', but) && Greys(h, w, but)
    requires forall b :: b in but ==> Black(h', b)
    ensures Greys(h', w', {})
  {
    forall a | a in h'.mem && h'.mem[a].Moved?
      ensures Black(h', h'.mem[a].to) || h'.mem[a].to in w'
    {
      if a in h.mem && h.mem[a].Moved? {
        assert h'.mem[a] == h.mem[a];
        assert h.mem[a].to in w ==> h.mem[a].to in w';
      }
    }
  }

  /** Forwarding one slot of `b` keeps the work list right. */
  lemma SlotQueue(h0: Heap, h: Heap, w: seq<Addr>, h': Heap, w': seq<Addr>, b: Addr, i: nat)
    requires Grows(h, w, h', w', {b}) && Queue(h0, h, w)
    requires Slot(h, b, i) && Slot(h', b, i) && !YoungValue(h', h'.mem[b].obj.Refs()[i])
    requires |h'.mem[b].obj.Refs()| == |h.mem[b].obj.Refs()|
    requires forall j :: 0 <= j < |h'.mem[b].obj.Refs()| && j != i ==>
      h'.mem[b].obj.Refs()[j] == h.mem[b].obj.Refs()[j]
    ensures Queue(h0, h', w')
  {
    GrowsWork(h0, h, w, h', w', {b});
    assert Black(h, b) ==> Black(h', b);
    forall a | a in h'.mem && h'.mem[a].Moved?
      ensures Black(h', h'.mem[a].to) || h'.mem[a].to in w'
    {
      if a in h.mem && h.mem[a].Moved? {
        assert h'.mem[a] == h.mem[a];
        assert h.mem[a].to in w ==> h.mem[a].to in w';
      }
    }
  }

  lemma GrowsAll(h: Heap, w: seq<Addr>, h1: Heap, w1: seq<Addr>, but1: set<Addr>,
                 h2: Heap, w2: seq<Addr>, but2: set<Addr>)
    requires Grows(h, w, h1, w1, but1) && Grows(h1, w1, h2, w2, but2)
    ensures Grows(h, w, h2, w2, h.mem.Keys)
  {
    assert w2[|w|..] == w1[|w|..] + w2[|w1|..];
  }

  lemma GrowsBlack(h: Heap, w: seq<Addr>, h': Heap, w': seq<Addr>, but: set<Addr>, b: Addr)
    requires Grows(h, w, h', w', but) && Black(h, b)
    requires forall c :: c in but ==> Black(h', c)
    ensures Black(h', b)
  {
  }

  /** `v` is the final form of the original value `v0`. */
  ghost predicate Done(h: Heap, v0: Value, v: Value) {
    v == Forwarded(Forwards(h.mem), v0) && !YoungValue(h, v)
  }

  lemma DoneNow(h: Heap, v0: Value, v: Value)
    requires v == Forwarded(Forwards(h.mem), v0) && !YoungValue(h, v)
    ensures Done(h, v0, v)
  {
  }

  lemma DoneMore(h0: Heap, h: Heap, w: seq<Addr>, h': Heap, w': seq<Addr>, but: set<Addr>, v0: Value, v: Value)
    requires Scavenging(h0, h')
    requires Grows(h, w, h', w', but)
    requires Done(h, v0, v)
    ensures Done(h', v0, v)
  {
    hide Scavenging, Grows;
    MovedYoung(h0, h');
    GrowsYoung(h, w, h', w', but);
    ForwardedStays(h, w, h', w', but, v0);
  }

  lemma GrowsYoung(h: Heap, w: seq<Addr>, h': Heap, w': seq<Addr>, but: set<Addr>)
    requires Grows(h, w, h', w', but)
    ensures h'.young == h.young
  {
  }

  /** Writing a root changes nothing else. */
  lemma RewriteRoots(h0: Heap, h: Heap, w: seq<Addr>, t: seq<Addr>, roots: seq<Value>, active: Value)
    requires Scavenging(h0, h) && Queue(h0, h, w) && TenuredOk(h0, h, t)
    ensures var h' := h.(roots := roots, active := active);
      Scavenging(h0, h') && Queue(h0, h', w) && TenuredOk(h0, h', t) && forall v0, v :: Done(h, v0, v) ==> Done(h', v0, v)
  {
    hide Scavenging;
    RewriteRootsKeeps(h0, h, roots, active);
  }

  lemma RewriteRootsKeeps(h0: Heap, h: Heap, roots: seq<Value>, active: Value)
    requires Scavenging(h0, h)
    ensures Scavenging(h0, h.(roots := roots, active := active))
  {
    var h' := h.(roots := roots, active := active);
    hide OriginalsOk, Conserved, Updated;
    KeepsNothingElse(h0, h, h');
    RewriteRootsOriginals(h0, h, roots, active);
  }

  lemma RewriteRootsOriginals(h0: Heap, h: Heap, roots: seq<Value>, active: Value)
    requires OriginalsOk(h0, h) && Conserved(h0, h)
    ensures OriginalsOk(h0, h.(roots := roots, active := active))
    ensures Conserved(h0, h.(roots := roots, active := active))
  {
  }

  lemma StartGreys(h0: Heap)
    requires forall a :: a in h0.mem ==> h0.mem[a].Live?
    ensures Queue(h0, h0, []) && TenuredOk(h0, h0, [])
  {
    assert Forwards(h0.mem) == map[];
  }

  ghost predicate RootsKnown(h0: Heap) {
    && (forall v :: v in h0.roots ==> Known(h0, h0, v))
    && Known(h0, h0, h0.active)
  }

  lemma RootKnown(h0: Heap, h: Heap, v: Value)
    requires Scavenging(h0, h) && RootsKnown(h0)
    requires v in h0.roots || v == h0.active
    ensures Known(h0, h, v)
  {
  }

  /** `t` lists the copies made in old space. */
  ghost predicate TenuredOk(h0: Heap, h: Heap, t: seq<Addr>) {
    && (forall a :: a in h.mem && h.mem[a].Moved? && IsOld(h, h.mem[a].to) ==> h.mem[a].to in t)
    && (forall n :: n in t ==> n in h.mem && h.mem[n].Live? && IsOld(h, n) && n !in h0.mem)
  }

  lemma CopyOutTenured(h0: Heap, h: Heap, a: Addr, t: seq<Addr>)
    requires Copyable(h, a) && PlacedNow(h) && TenuredOk(h0, h, t) && h0.mem.Keys <= h.mem.Keys
    requires AddsCopy(h, CopyOut(h, a), a, CopyAddr(h, h.mem[a].obj))
    ensures var n := CopyAddr(h, h.mem[a].obj);
      TenuredOk(h0, CopyOut(h, a), if TakesOld(h, h.mem[a].obj) then t + [n] else t)
  {
  }

  lemma RewriteTenured(h0: Heap, h: Heap, b: Addr, i: nat, t: seq<Addr>)
    requires Slot(h, b, i) && TenuredOk(h0, h, t)
    ensures TenuredOk(h0, Rewrite(h, b, i), t)
  {
  }

  /** A young value refers to an object the collector reached before the scavenge. */
  ghost predicate Known(h0: Heap, h: Heap, v: Value) {
    YoungValue(h, v) ==> v.addr in h0.mem && Tracks(h0, v.addr)
  }

  /** The object at `b` is the copy of a reached object or a reached old object. */
  ghost predicate ImageOf(h0: Heap, h: Heap, a: Addr, b: Addr) {
    && a in h0.mem && Tracks(h0, a) && a in h.mem
    && (if IsYoung(h0, a) then h.mem[a] == Moved(b) else a == b)
  }

  /** Where the object at `a` is now. */
  function Image(h: Heap, a: Addr): Addr {
    if a in h.mem && h.mem[a].Moved? then h.mem[a].to else a
  }

  lemma ImageRefsKnown(h0: Heap, h: Heap, a: Addr, b: Addr)
    requires SpacesOk(h0) && Placed(h0) && NoDangling(h0)
    requires SpacesKept(h0, h) && OriginalsOk(h0, h) && OldOk(h0, h) && CopiesOk(h0, h)
    requires ImageOf(h0, h, a, b)
    ensures b in h.mem && h.mem[b].Live? && !IsYoung(h, b)
    ensures Updated(Forwards(h.mem), h0.mem[a].obj.Refs(), h.mem[b].obj.Refs())
    ensures forall i :: 0 <= i < |h.mem[b].obj.Refs()| ==> Known(h0, h, h.mem[b].obj.Refs()[i])
  {
    CopiesNotYoung(h0, h);
    var s0 := h0.mem[a].obj.Refs();
    if IsYoung(h0, a) {
      assert CopyOk(h0, h, a, b);
    }
    var s := h.mem[b].obj.Refs();
    assert Updated(Forwards(h.mem), s0, s);
    forall i | 0 <= i < |s|
      ensures Known(h0, h, s[i])
    {
      if YoungValue(h, s[i]) {
        assert s[i] == s0[i];
        assert Edge(h0.mem, a, s[i].addr);
        ReachableEdge(h0.mem, Starts(h0), a, s[i].addr);
      }
    }
  }

  /** An object outside from-space whose young references were all reachable before the scavenge. */
  ghost predicate Scannable(h0: Heap, h: Heap, b: Addr) {
    && b in h.mem && h.mem[b].Live? && !IsYoung(h, b)
    && forall i :: 0 <= i < |h.mem[b].obj.Refs()| ==> Known(h0, h, h.mem[b].obj.Refs()[i])
  }

  lemma ScanSlotScannable(h0: Heap, h: Heap, w: seq<Addr>, h': Heap, w': seq<Addr>, b: Addr, i: nat)
    requires Scannable(h0, h, b) && Slot(h', b, i)
    requires Grows(h, w, h', w', {b})
    requires |h'.mem[b].obj.Refs()| == |h.mem[b].obj.Refs()|
    requires !YoungValue(h', h'.mem[b].obj.Refs()[i])
    requires forall j :: 0 <= j < |h'.mem[b].obj.Refs()| && j != i ==>
      h'.mem[b].obj.Refs()[j] == h.mem[b].obj.Refs()[j]
    ensures Scannable(h0, h', b) && h'.young == h.young
  {
  }

  lemma GrowsRefl(h: Heap, w: seq<Addr>, but: set<Addr>)
    ensures Grows(h, w, h, w, but)
  {
  }

  lemma GrowsKeeps(h: Heap, w: seq<Addr>, h': Heap, w': seq<Addr>, b: Addr)
    requires Grows(h, w, h', w', {})
    requires b in h.mem && h.mem[b].Live? && !IsYoung(h, b)
    ensures h'.young == h.young && b in h'.mem && h'.mem[b] == h.mem[b]
  {
  }

  lemma RewriteSteps(h0: Heap, h: Heap, b: Addr, i: nat, w: seq<Addr>)
    requires StartOk(h0) && Scavenging(h0, h)
    requires Slot(h, b, i)
    ensures Scavenging(h0, Rewrite(h, b, i))
    ensures Grows(h, w, Rewrite(h, b, i), w, {b})
  {
    RewriteKeeps(h0, h, b, i);
    RewriteGrows(h, b, i, w);
  }

  lemma RewriteGrows(h: Heap, b: Addr, i: nat, w: seq<Addr>)
    requires Slot(h, b, i)
    requires Forwards(Rewrite(h, b, i).mem) == Forwards(h.mem)
    ensures Grows(h, w, Rewrite(h, b, i), w, {b})
  {
  }

  lemma GrowsMore(h: Heap, w: seq<Addr>, h1: Heap, w1: seq<Addr>, h2: Heap, b: Addr)
    requires Grows(h, w, h1, w1, {}) && Grows(h1, w1, h2, w1, {b})
    ensures Grows(h, w, h2, w1, {b})
  {
    assert Grows(h, w, h1, w1, {b});
    GrowsTrans(h, w, h1, w1, h2, w1, {b});
  }

  /** What forwarding `v` does, case by case. */
  lemma ForwardSteps(h0: Heap, h: Heap, v: Value, w: seq<Addr>, t: seq<Addr>)
    requires StartOk(h0) && Scavenging(h0, h)
    requires Known(h0, h, v) && TenuredOk(h0, h, t)
    ensures YoungValue(h, v) ==> v.addr in h.mem
    ensures YoungValue(h, v) && h.mem[v.addr].Live? ==>
      && Copyable(h, v.addr)
      && var h', n := CopyOut(h, v.addr), CopyAddr(h, h.mem[v.addr].obj);
         Scavenging(h0, h') && Forwarded(Forwards(h'.mem), v) == Ptr(n) && !IsYoung(h', n) &&
         Grows(h, w, h', w + [n], {}) && TenuredOk(h0, h', if TakesOld(h, h.mem[v.addr].obj) then t + [n] else t)
    ensures YoungValue(h, v) && h.mem[v.addr].Moved? ==>
      Forwarded(Forwards(h.mem), v) == Ptr(h.mem[v.addr].to) && !IsYoung(h, h.mem[v.addr].to)
    ensures !YoungValue(h, v) ==> Forwarded(Forwards(h.mem), v) == v
    ensures Grows(h, w, h, w, {})
  {
    hide NoGaps, Conserved, OldOk, ApartNow, CopyOk, NothingElse;
    if YoungValue(h, v) {
      if h.mem[v.addr].Live? {
        ForwardCopies(h0, h, v.addr, w, t);
      } else {
        CopiesNotYoung(h0, h);
      }
    } else if v.Ptr? {
      FromSpaceOnly(h0, h, v.addr);
    }
  }

  lemma OriginalsStay(h0: Heap, h: Heap)
    requires StartOk(h0) && OriginalsOk(h0, h) && OldOk(h0, h)
    ensures h0.mem.Keys <= h.mem.Keys
  {
  }

  lemma ForwardCopies(h0: Heap, h: Heap, a: Addr, w: seq<Addr>, t: seq<Addr>)
    requires CanCopy(h0, h, a) && TenuredOk(h0, h, t)
    ensures Copyable(h, a)
    ensures var h', n := CopyOut(h, a), CopyAddr(h, h.mem[a].obj);
      Scavenging(h0, h') && Forwarded(Forwards(h'.mem), Ptr(a)) == Ptr(n) && !IsYoung(h', n) &&
      Grows(h, w, h', w + [n], {}) && TenuredOk(h0, h', if TakesOld(h, h.mem[a].obj) then t + [n] else t)
  {
    hide NoGaps, Conserved, OldOk, ApartNow, CopiesOk, NothingElse, Grows, TenuredOk;
    CopyOutKeeps(h0, h, a);
    CopyOutGrows(h0, h, a, w);
    CopyOutShape(h, a);
    OriginalsStay(h0, h);
    CopyOutTenured(h0, h, a, t);
  }

  lemma HeapStart(h0: Heap)
    requires HeapOk(h0)
    ensures StartOk(h0)
  {
  }

  lemma MovedYoung(h0: Heap, h: Heap)
    requires Scavenging(h0, h)
    ensures forall c :: c in h.mem && h.mem[c].Moved? ==> IsYoung(h, c)
  {
  }

  /** Only from-space holds forwarding words. */
  lemma FromSpaceOnly(h0: Heap, h: Heap, a: Addr)
    requires OriginalsOk(h0, h) && h.young == h0.young && !IsYoung(h, a)
    ensures a !in Forwards(h.mem)
  {
  }

  lemma CopyOutGrows(h0: Heap, h: Heap, a: Addr, w: seq<Addr>)
    requires Copyable(h, a) && PlacedNow(h) && OriginalsOk(h0, h) && h.young == h0.young
    ensures Grows(h, w, CopyOut(h, a), w + [CopyAddr(h, h.mem[a].obj)], {})
    ensures !IsYoung(h, CopyAddr(h, h.mem[a].obj))
  {
    var n := CopyAddr(h, h.mem[a].obj);
    CopyOutShape(h, a);
    AddsCopyForwards(h, CopyOut(h, a), a, n);
    assert Forwards(CopyOut(h, a).mem).Keys == Forwards(h.mem).Keys + {a};
    assert (w + [n])[|w|..] == [n];
  }

  /** A value the collector reached before the scavenge. */
  ghost predicate ReachedValue(h0: Heap, v: Value) {
    v.Ptr? ==> v.addr in h0.mem && Tracks(h0, v.addr)
  }

  lemma ReachedRoots(h0: Heap)
    requires NoDangling(h0)
    ensures forall v :: v in h0.roots ==> ReachedValue(h0, v)
    ensures ReachedValue(h0, h0.active)
    ensures |h0.roots| > 0 ==> ReachedValue(h0, Nil(h0))
    ensures forall a :: a in h0.ssb ==> a in h0.mem && Tracks(h0, a)
  {
    forall a | a in Starts(h0)
      ensures a in h0.mem && Tracks(h0, a)
    {
      ReachableStart(h0.mem, Starts(h0), a);
    }
  }

  lemma ReachedSlots(h0: Heap, a: Addr)
    requires NoDangling(h0) && a in h0.mem && h0.mem[a].Live? && Tracks(h0, a)
    ensures forall v :: v in h0.mem[a].obj.Refs() ==> ReachedValue(h0, v)
  {
    forall v | v in h0.mem[a].obj.Refs() && v.Ptr?
      ensures ReachedValue(h0, v)
    {
      assert Edge(h0.mem, a, v.addr);
      ReachableEdge(h0.mem, Starts(h0), a, v.addr);
    }
  }

  /** Nothing becomes nil by being forwarded. */
  lemma NilStays(h0: Heap, h: Heap, v: Value)
    requires SpacesOk(h0) && Placed(h0) && h0.spare.alloc == 0
    requires SpacesKept(h0, h) && OriginalsOk(h0, h) && CopiesOk(h0, h)
    requires |h0.roots| > 0 && Nil(h0).Ptr? && IsOld(h0, Nil(h0).addr) && Nil(h0).addr in h0.mem
    ensures Forwarded(Forwards(h.mem), v) == Nil(h0) <==> v == Nil(h0)
  {
  }

  lemma ForwardedStays(h: Heap, w: seq<Addr>, h': Heap, w': seq<Addr>, but: set<Addr>, v: Value)
    requires Grows(h, w, h', w', but)
    requires forall a :: a in h'.mem && h'.mem[a].Moved? ==> IsYoung(h', a)
    requires !YoungValue(h, Forwarded(Forwards(h.mem), v))
    ensures Forwarded(Forwards(h'.mem), v) == Forwarded(Forwards(h.mem), v)
    ensures Forwarded(Forwards(h'.mem), Forwarded(Forwards(h.mem), v)) == Forwarded(Forwards(h.mem), v)
  {
  }

  ghost predicate HasStackSlot(h: Heap) {
    && HasActive(h) && h.active.addr in h.mem && h.mem[h.active.addr].Live?
    && |h.mem[h.active.addr].obj.Refs()| > PROCESS_STACK
  }

  /** What the running process's stack slot holds. */
  ghost function StackValue(h: Heap): Value {
    if HasStackSlot(h) then h.mem[h.active.addr].obj.Refs()[PROCESS_STACK] else Int(0)
  }

  /** The running process and its stack slot, as the collector finds them. */
  lemma ActiveImage(h0: Heap, h: Heap)
    requires HeapOk(h0) && Scavenging(h0, h)
    requires |h.roots| > 0 && h.roots[0] == Nil(h0) && Done(h, h0.active, h.active)
    ensures HasActive(h) <==> HasActive(h0)
    ensures !HasActive(h0) || !StackValue(h0).Ptr? || StackValue(h0) == Nil(h0) ==> RunningStack(h0) == {}
    ensures HasActive(h0) ==>
      && HasStackSlot(h0)
      && ImageOf(h0, h, h0.active.addr, h.active.addr)
      && Slot(h, h.active.addr, PROCESS_STACK)
      && Known(h0, h, h.mem[h.active.addr].obj.Refs()[PROCESS_STACK])
      && StackSlot(h0, h, StackValue(h0), h.mem[h.active.addr].obj.Refs()[PROCESS_STACK])
  {
    hide Remembered, NoOverlap, NoGaps, BufferOk, OldOk, Conserved, ApartNow, PlacedNow, NothingElse, CopiesOk, NoDangling,
      OriginalsOk, Placed, StackSlot;
    ReachedRoots(h0);
    NilStays(h0, h, h0.active);
    if HasActive(h0) {
      var p0, p := h0.active.addr, h.active.addr;
      ActiveImageOf(h0, h);
      ImageRefsKnown(h0, h, p0, p);
      StackSlotNow(h0, h, p0, p);
    }
  }

  lemma ActiveImageOf(h0: Heap, h: Heap)
    requires NoDangling(h0) && Placed(h0) && HasActive(h0) && Done(h, h0.active, h.active)
    requires h.young == h0.young && OriginalsOk(h0, h) && OldOk(h0, h)
    ensures h0.active.addr in h0.mem && h0.mem[h0.active.addr].Live?
    ensures h.active.Ptr? && ImageOf(h0, h, h0.active.addr, h.active.addr)
  {
    ReachedRoots(h0);
  }

  lemma StackSlotNow(h0: Heap, h: Heap, p0: Addr, p: Addr)
    requires SpacesOk(h0) && Placed(h0) && h0.spare.alloc == 0
    requires SpacesKept(h0, h) && OriginalsOk(h0, h) && CopiesOk(h0, h)
    requires |h0.roots| > 0 && Nil(h0).Ptr? && IsOld(h0, Nil(h0).addr) && Nil(h0).addr in h0.mem
    requires p0 in h0.mem && h0.mem[p0].Live? && p in h.mem && h.mem[p].Live?
    requires |h0.mem[p0].obj.Refs()| > PROCESS_STACK
    requires Updated(Forwards(h.mem), h0.mem[p0].obj.Refs(), h.mem[p].obj.Refs())
    ensures StackSlot(h0, h, h0.mem[p0].obj.Refs()[PROCESS_STACK], h.mem[p].obj.Refs()[PROCESS_STACK])
  {
    NilStays(h0, h, h0.mem[p0].obj.Refs()[PROCESS_STACK]);
  }

  /** The stack slot holds the original value or its forwarded form, and is nil only if it was. */
  ghost predicate StackSlot(h0: Heap, h: Heap, v0: Value, v: Value)
    requires |h0.roots| > 0
  {
    && (v == v0 || v == Forwarded(Forwards(h.mem), v0))
    && (v.Ptr? <==> v0.Ptr?)
    && (v == Nil(h0) <==> v0 == Nil(h0))
  }

  /** The forwarded stack is the image of the stack that was running. */
  lemma RunningImage(h0: Heap, h: Heap, w: seq<Addr>, h1: Heap, w1: seq<Addr>, p: Addr)
    requires HeapOk(h0) && Scavenging(h0, h) && Scavenging(h0, h1)
    requires HasStackSlot(h0) && StackValue(h0).Ptr? && StackValue(h0) != Nil(h0)
    requires Slot(h, p, PROCESS_STACK) && Slot(h1, p, PROCESS_STACK)
    requires StackSlot(h0, h, StackValue(h0), h.mem[p].obj.Refs()[PROCESS_STACK])
    requires Grows(h, w, h1, w1, {p})
    requires h1.mem[p].obj.Refs()[PROCESS_STACK] == Forwarded(Forwards(h1.mem), h.mem[p].obj.Refs()[PROCESS_STACK])
    requires !YoungValue(h1, h1.mem[p].obj.Refs()[PROCESS_STACK])
    ensures RunningStack(h0) == {StackValue(h0).addr}
    ensures h1.mem[p].obj.Refs()[PROCESS_STACK] == Ptr(Image(h1, StackValue(h0).addr))
    ensures Scannable(h0, h1, Image(h1, StackValue(h0).addr))
  {
    hide Remembered, NoOverlap, NoGaps, BufferOk, Conserved, ApartNow, PlacedNow, NothingElse, NoDangling, CopiesOk,
      OldOk, OriginalsOk, Placed, Grows, Updated, Forwards, ImageOf, IsYoung, SpacesOk, SpacesKept;
    var v0, v := StackValue(h0), h.mem[p].obj.Refs()[PROCESS_STACK];
    ReachedRoots(h0);
    ReachedSlots(h0, h0.active.addr);
    assert v0 in h0.mem[h0.active.addr].obj.Refs() && ReachedValue(h0, v0);
    RunningImageOf(h0, h, w, h1, w1, {p}, v0, v);
    ImageRefsKnown(h0, h1, v0.addr, Image(h1, v0.addr));
  }

  lemma RunningImageOf(h0: Heap, h: Heap, w: seq<Addr>, h1: Heap, w1: seq<Addr>, but: set<Addr>, v0: Value, v: Value)
    requires SpacesOk(h0) && SpacesKept(h0, h) && CopiesOk(h0, h) && OldOk(h0, h1) && OriginalsOk(h0, h1)
    requires Placed(h0) && SpacesKept(h0, h1)
    requires v0.Ptr? && v0.addr in h0.mem && Tracks(h0, v0.addr)
    requires v == v0 || v == Forwarded(Forwards(h.mem), v0)
    requires Grows(h, w, h1, w1, but)
    requires !YoungValue(h1, Forwarded(Forwards(h1.mem), v))
    ensures Forwarded(Forwards(h1.mem), v) == Ptr(Image(h1, v0.addr))
    ensures ImageOf(h0, h1, v0.addr, Image(h1, v0.addr))
  {
    CopiesNotYoung(h0, h);
    if v != v0 {
      ForwardedStays(h, w, h1, w1, but, v0);
    }
  }

  lemma ImageStays(h: Heap, w: seq<Addr>, h': Heap, w': seq<Addr>, but: set<Addr>, a: Addr)
    requires Grows(h, w, h', w', but) && !IsYoung(h, Image(h, a))
    requires forall c :: c in h'.mem && h'.mem[c].Moved? ==> IsYoung(h', c)
    ensures Image(h', a) == Image(h, a)
  {
  }

  /** What was black still is. */
  ghost predicate BlackStays(h: Heap, h': Heap) {
    forall b :: Black(h, b) ==> Black(h', b)
  }

  lemma ScanQueue(h0: Heap, h: Heap, w: seq<Addr>, h': Heap, w': seq<Addr>, b: Addr)
    requires Queue(h0, h, w) && Grows(h, w, h', w', {b}) && Black(h', b)
    ensures Queue(h0, h', w') && BlackStays(h, h')
  {
    hide Black;
    GrowsQueue(h0, h, w, h', w', {b});
    forall c | Black(h, c)
      ensures Black(h', c)
    {
      GrowsBlack(h, w, h', w', {b}, c);
    }
  }

  /** Taking the last entry off the work list leaves one object to scan. */
  ghost predicate Popped(h0: Heap, h: Heap, w: seq<Addr>, b: Addr) {
    Greys(h, w, {b}) && WorkOk(h0, h, w) && h0.mem.Keys <= h.mem.Keys
  }

  lemma PopQueue(h0: Heap, h: Heap, w: seq<Addr>, b: Addr)
    requires Queue(h0, h, w + [b])
    ensures Popped(h0, h, w, b)
  {
  }

  lemma PoppedQueue(h0: Heap, h: Heap, w: seq<Addr>, h': Heap, w': seq<Addr>, b: Addr)
    requires Popped(h0, h, w, b) && Grows(h, w, h', w', {b}) && Black(h', b)
    ensures Queue(h0, h', w') && BlackStays(h, h')
    ensures |w'| - |w| == |Forwards(h'.mem)| - |Forwards(h.mem)|
  {
    hide Black;
    GrowsQueue(h0, h, w, h', w', {b});
    forall c | Black(h, c)
      ensures Black(h', c)
    {
      GrowsBlack(h, w, h', w', {b}, c);
    }
  }

  lemma EmptyQueue(h0: Heap, h: Heap, w: seq<Addr>)
    requires Queue(h0, h, w) && |w| == 0
    ensures Greys(h, [], {})
  {
  }

  lemma GrowsAnyTrail(h: Heap, w: seq<Addr>, h': Heap, w': seq<Addr>, trail: seq<Addr>, but: set<Addr>)
    requires Grows(h, w, h', w', but)
    ensures Grows(h, trail, h', trail + w'[|w|..], but)
  {
    assert (trail + w'[|w|..])[|trail|..] == w'[|w|..];
  }

  lemma ForwardsBounded(h0: Heap, h: Heap)
    requires Scavenging(h0, h)
    ensures |Forwards(h.mem)| <= |HeadersIn(h0.mem, h0.young)|
  {
    assert Forwards(h.mem).Keys <= HeadersIn(h0.mem, h0.young);
    SubsetSize(Forwards(h.mem).Keys, HeadersIn(h0.mem, h0.young));
  }

  lemma {:induction false} SubsetSize(s: set<Addr>, t: set<Addr>)
    requires s <= t
    ensures |s| <= |t|
  {
    if s != {} {
      var a :| a in s;
      SubsetSize(s - {a}, t - {a});
    }
  }

  lemma BufferKept(h0: Heap, h: Heap)
    requires HeapOk(h0) && Scavenging(h0, h)
    ensures h.ssb == h0.ssb
  {
  }

  lemma BufferScannable(h0: Heap, h: Heap, b: Addr)
    requires HeapOk(h0) && Scavenging(h0, h) && b in h0.ssb
    ensures Scannable(h0, h, b)
  {
    hide Remembered, NoOverlap, NoGaps, Conserved, ApartNow, PlacedNow, NothingElse, CopiesOk, NoDangling, Placed,
      Scannable;
    ReachedRoots(h0);
    OldImage(h0, h, b);
    ImageScannable(h0, h, b, b);
  }

  lemma OldImage(h0: Heap, h: Heap, b: Addr)
    requires SpacesOk(h0) && IsOld(h0, b) && b in h0.mem && Tracks(h0, b) && Placed(h0) && OldOk(h0, h)
    ensures ImageOf(h0, h, b, b)
  {
  }

  lemma ImageScannable(h0: Heap, h: Heap, a: Addr, b: Addr)
    requires SpacesOk(h0) && Placed(h0) && NoDangling(h0)
    requires SpacesKept(h0, h) && OriginalsOk(h0, h) && OldOk(h0, h) && CopiesOk(h0, h)
    requires ImageOf(h0, h, a, b)
    ensures Scannable(h0, h, b)
  {
    ImageRefsKnown(h0, h, a, b);
  }

  lemma CopyScannable(h0: Heap, h: Heap, w: seq<Addr>, b: Addr)
    requires HeapOk(h0) && Scavenging(h0, h) && Queue(h0, h, w) && b in w
    ensures Scannable(h0, h, b)
  {
    hide Remembered, NoOverlap, NoGaps, Conserved, ApartNow, PlacedNow, CopiesOk, NoDangling, Placed, Scannable,
      OldOk, Greys;
    var a :| ForwardsTo(h0.mem, h.mem, a, b);
    ImageScannable(h0, h, a, b);
  }
}
