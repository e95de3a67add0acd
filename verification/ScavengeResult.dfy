/** What a finished scavenge has done: the heap after it is the heap before it, with the young objects renamed. */
module ScavengeResult {
  import opened ObjectMemory
  import opened Scavenge
  import opened ScavengeSteps

  /** The work list has run dry and every root set has been scanned. */
  ghost predicate Scanned(h0: Heap, h: Heap) {
    && |h.roots| == |h0.roots|
    && (forall j :: 0 <= j < |h.roots| ==> Done(h, h0.roots[j], h.roots[j]))
    && Done(h, h0.active, h.active)
    && Greys(h, [], {})
    && (forall b :: b in h0.ssb ==> Black(h, b))
    && (forall s :: s in RunningStack(h0) ==> Black(h, Image(h, s)))
  }

  // ---------- everything reached was forwarded ----------

  ghost predicate Saved(h0: Heap, h: Heap, a: Addr) {
    a in h0.mem && Tracks(h0, a) && (IsYoung(h0, a) ==> a in h.mem && h.mem[a].Moved?)
  }

  lemma StartsSaved(h0: Heap, h: Heap)
    requires HeapOk(h0) && Scavenging(h0, h) && Scanned(h0, h)
    ensures forall a :: a in Starts(h0) ==> Saved(h0, h, a)
  {
    hide Remembered, NoOverlap, NoGaps, Conserved, ApartNow, PlacedNow, NothingElse, CopiesOk, OldOk, Greys, Black;
    ReachedRoots(h0);
    forall a | a in Starts(h0)
      ensures Saved(h0, h, a)
    {
      if a in h0.ssb {
      } else if v :| v in h0.roots && v == Ptr(a) {
        var j :| 0 <= j < |h0.roots| && h0.roots[j] == v;
        assert ReachedValue(h0, v) && Done(h, h0.roots[j], h.roots[j]);
      }
    }
  }

  /** Whatever an object referred to before the scavenge is saved if its image has been scanned. */
  lemma BlackSaves(h0: Heap, h: Heap, a: Addr, b: Addr)
    requires SpacesOk(h0) && Placed(h0) && NoDangling(h0)
    requires SpacesKept(h0, h) && OriginalsOk(h0, h) && OldOk(h0, h) && CopiesOk(h0, h)
    requires a in h0.mem && h0.mem[a].Live? && Saved(h0, h, a) && Ptr(b) in h0.mem[a].obj.Refs()
    requires Black(h, Image(h, a))
    ensures Saved(h0, h, b)
  {
    ImageRefsKnown(h0, h, a, Image(h, a));
    ReachedSlots(h0, a);
    assert ReachedValue(h0, Ptr(b));
    var i :| 0 <= i < |h0.mem[a].obj.Refs()| && h0.mem[a].obj.Refs()[i] == Ptr(b);
    assert !YoungValue(h, h.mem[Image(h, a)].obj.Refs()[i]);
  }

  /** An image that was not scanned had no young references to begin with. */
  lemma BlackOrNotYoung(h0: Heap, h: Heap, a: Addr)
    requires HeapOk(h0) && Scavenging(h0, h) && Scanned(h0, h)
    requires Saved(h0, h, a)
    ensures h0.mem[a].Live?
    ensures Black(h, Image(h, a)) || (!IsYoung(h0, a) && !PointsYoung(h0, a))
  {
    hide NoOverlap, NoGaps, Conserved, ApartNow, PlacedNow, NothingElse, CopiesOk, OldOk, Black, PointsYoung, Done;
    if IsYoung(h0, a) {
      assert h.mem[a].Moved?;
    } else if PointsYoung(h0, a) {
      assert a in RunningStack(h0) || a in h0.ssb by {
        assert InUsed(h0.oldSpace, a, h0.mem[a].obj);
      }
      assert a !in h.mem || !h.mem[a].Moved?;
      assert Image(h, a) == a;
    }
  }

  lemma EdgesSaved(h0: Heap, h: Heap, a: Addr, b: Addr)
    requires HeapOk(h0) && Scavenging(h0, h) && Scanned(h0, h)
    requires Saved(h0, h, a) && Edge(h0.mem, a, b)
    ensures Saved(h0, h, b)
  {
    hide Remembered, NoOverlap, NoGaps, Conserved, ApartNow, PlacedNow, NothingElse, CopiesOk, OldOk, Black, Done, Greys,
      BufferOk, ActiveOk, Scanned;
    BlackOrNotYoung(h0, h, a);
    if Black(h, Image(h, a)) {
      BlackSaves(h0, h, a, b);
    } else {
      ReachedSlots(h0, a);
      assert ReachedValue(h0, Ptr(b));
      assert !IsYoung(h0, b);
    }
  }

  lemma AllSaved(h0: Heap, h: Heap)
    requires HeapOk(h0) && Scavenging(h0, h) && Scanned(h0, h)
    ensures forall a :: Tracks(h0, a) ==> Saved(h0, h, a)
  {
    hide HeapOk, Scavenging, Scanned;
    var saved := set a | a in h0.mem && Saved(h0, h, a);
    StartsSaved(h0, h);
    forall a, b | a in saved && Edge(h0.mem, a, b)
      ensures b in saved
    {
      EdgesSaved(h0, h, a, b);
    }
    ReachableWithin(h0.mem, Starts(h0), saved);
  }

  // ---------- references are exact ----------

  /** The image of `a` refers to exactly the images of what `a` referred to. */
  ghost predicate Exact(h0: Heap, h: Heap, a: Addr) {
    var b := Image(h, a);
    && a in h0.mem && h0.mem[a].Live? && b in h.mem && h.mem[b].Live? && !IsYoung(h, b)
    && ImageOf(h0, h, a, b)
    && |h.mem[b].obj.Refs()| == |h0.mem[a].obj.Refs()|
    && forall i :: 0 <= i < |h0.mem[a].obj.Refs()| ==>
      h.mem[b].obj.Refs()[i] == Forwarded(Forwards(h.mem), h0.mem[a].obj.Refs()[i])
  }

  lemma UpdatedExact(fwd: map<Addr, Addr>, h: Heap, s0: seq<Value>, s: seq<Value>)
    requires Updated(fwd, s0, s)
    requires forall a :: a in fwd ==> IsYoung(h, a)
    requires forall i :: 0 <= i < |s| ==> !YoungValue(h, s[i]) || !YoungValue(h, s0[i])
    ensures forall i :: 0 <= i < |s0| ==> s[i] == Forwarded(fwd, s0[i])
  {
  }

  lemma SavedExact(h0: Heap, h: Heap, a: Addr)
    requires HeapOk(h0) && Scavenging(h0, h) && Scanned(h0, h)
    requires Saved(h0, h, a)
    ensures Exact(h0, h, a)
  {
    hide Remembered, NoOverlap, NoGaps, Conserved, ApartNow, PlacedNow, NothingElse, Done, Greys, BufferOk, ActiveOk,
      Scanned, CopyOk;
    BlackOrNotYoung(h0, h, a);
    var b := Image(h, a);
    assert ImageOf(h0, h, a, b) by {
      if !IsYoung(h0, a) {
        assert a in h.mem && !h.mem[a].Moved?;
      }
    }
    ImageRefsKnown(h0, h, a, b);
    UpdatedExact(Forwards(h.mem), h, h0.mem[a].obj.Refs(), h.mem[b].obj.Refs());
  }

  // ---------- the flip and the rebuilt store buffer ----------

  /** Swap the semispaces and clear the one that was from-space; the store buffer has been drained. */
  ghost function Flip(h: Heap): Heap {
    h.(mem := map a | a in h.mem && !h.young.Contains(a) :: h.mem[a],
       young := h.spare,
       spare := h.young.(alloc := 0),
       ssb := [])
  }

  function WithRemembered(o: Obj, b: bool): Obj {
    o.(gc := o.gc.(remembered := b))
  }

  /** Old objects whose remembered bits are to be recomputed. */
  ghost predicate Recheck(h0: Heap, h: Heap, recheck: seq<Addr>) {
    && (forall a :: a in recheck ==>
          a in h.mem && h.mem[a].Live? && IsOld(h, a) &&
          (a !in h0.mem || a in h0.ssb || exists s :: s in RunningStack(h0) && Image(h, s) == a))
    && (forall a :: a in h0.ssb ==> a in recheck)
    && (forall a :: a in h.mem && h.mem[a].Moved? && IsOld(h, h.mem[a].to) ==> h.mem[a].to in recheck)
    && (forall s :: s in RunningStack(h0) && IsOld(h, Image(h, s)) ==> Image(h, s) in recheck)
  }

  /** Exactly the rechecked objects that still refer to young ones are remembered and buffered. */
  ghost predicate Rebuilt(h1: Heap, recheck: seq<Addr>, h2: Heap) {
    && h2 == h1.(mem := h2.mem, ssb := h2.ssb)
    && h2.mem.Keys == h1.mem.Keys
    && (forall a :: a in h1.mem && a !in recheck ==> h2.mem[a] == h1.mem[a])
    && (forall a :: a in recheck ==>
          a in h1.mem && h1.mem[a].Live? &&
          h2.mem[a] == Live(WithRemembered(h1.mem[a].obj, PointsYoung(h1, a))))
    && NoDuplicates(h2.ssb)
    && (forall a :: a in h2.ssb <==> a in recheck && a in h1.mem && h1.mem[a].Live? && PointsYoung(h1, a))
  }

  lemma RebuiltNow(h1: Heap, recheck: seq<Addr>, h2: Heap)
    requires h2 == h1.(mem := h2.mem, ssb := h2.ssb) && h2.mem.Keys == h1.mem.Keys && NoDuplicates(h2.ssb)
    requires forall a :: a in recheck ==> a in h1.mem && h1.mem[a].Live?
    requires forall a :: a in h1.mem && a !in recheck ==> h2.mem[a] == h1.mem[a]
    requires forall a :: a in recheck ==> h2.mem[a] == Live(WithRemembered(h1.mem[a].obj, PointsYoung(h1, a)))
    requires forall a :: a in h2.ssb <==> a in recheck && PointsYoung(h1, a)
    ensures Rebuilt(h1, recheck, h2)
  {
    hide PointsYoung, NoDuplicates;
  }

  lemma NoDuplicatesYet()
    ensures NoDuplicates([])
  {
  }

  /** Whether an object refers to young ones depends on nothing but its references. */
  lemma SamePointsYoung(h: Heap, h': Heap, a: Addr)
    requires h'.young == h.young && a in h.mem && h.mem[a].Live? && a in h'.mem && h'.mem[a] == h.mem[a]
    ensures PointsYoung(h', a) <==> PointsYoung(h, a)
  {
  }

  /** Objects keep their contents through the flip and the rebuilding, but for the remembered bit. */
  lemma EndObjects(h0: Heap, h: Heap, recheck: seq<Addr>, h2: Heap)
    requires OriginalsOk(h0, h) && h.young == h0.young && Rebuilt(Flip(h), recheck, h2)
    ensures forall b :: b in h2.mem <==> b in h.mem && !IsYoung(h, b)
    ensures forall b :: b in h2.mem ==>
      h.mem[b].Live? && h2.mem[b].Live? &&
      h2.mem[b].obj == WithRemembered(h.mem[b].obj, h2.mem[b].obj.gc.remembered)
    ensures forall b :: b in h2.mem ==> h2.mem[b].obj.Refs() == h.mem[b].obj.Refs()
    ensures forall b :: b in h2.mem ==> h2.mem[b].obj.NumSlots() == h.mem[b].obj.NumSlots()
    ensures forall b :: b in h2.mem && b !in recheck ==> h2.mem[b] == h.mem[b]
  {
  }

  // ---------- the heap after is the heap before, renamed ----------

  function Renamed(phi: map<Addr, Addr>, a: Addr): Addr {
    if a in phi then phi[a] else a
  }

  ghost predicate RenamesBody(phi: map<Addr, Addr>, b0: Body, b: Body) {
    if b0.Slots? then
      && b.Slots? && b.fixed == b0.fixed && |b.values| == |b0.values|
      && forall i :: 0 <= i < |b0.values| ==> b.values[i] == Forwarded(phi, b0.values[i])
    else b == b0
  }

  /** Class, hash, format, size, bytes, the immutable and pinned bits and every slot up to renaming. */
  ghost predicate RenamesObj(h0: Heap, h1: Heap, phi: map<Addr, Addr>, a: Addr) {
    && a in h0.mem && h0.mem[a].Live?
    && var b := Renamed(phi, a);
       && b in h1.mem && h1.mem[b].Live?
       && var o0, o := h0.mem[a].obj, h1.mem[b].obj;
          && SameKind(o0, o)
          && o.gc.pinned == o0.gc.pinned && o.gc.immutable == o0.gc.immutable
          && o.gc.age == (if a in phi && IsYoung(h0, a) then NextAge(o0.gc.age) else o0.gc.age)
          && RenamesBody(phi, o0.body, o.body)
  }

  ghost predicate RenamesRoots(h0: Heap, h1: Heap, phi: map<Addr, Addr>) {
    && |h1.roots| == |h0.roots|
    && (forall i :: 0 <= i < |h0.roots| ==> h1.roots[i] == Forwarded(phi, h0.roots[i]))
    && h1.active == Forwarded(phi, h0.active)
  }

  ghost predicate Renames(h0: Heap, h1: Heap, phi: map<Addr, Addr>) {
    && (forall a :: Tracks(h0, a) ==> RenamesObj(h0, h1, phi, a))
    && (forall a, b :: Tracks(h0, a) && Tracks(h0, b) && a != b ==> Renamed(phi, a) != Renamed(phi, b))
    && RenamesRoots(h0, h1, phi)
  }

  lemma EndRenamesObj(h0: Heap, h: Heap, recheck: seq<Addr>, h2: Heap, a: Addr)
    requires SpacesKept(h0, h) && OriginalsOk(h0, h) && OldOk(h0, h) && CopiesOk(h0, h)
    requires Exact(h0, h, a) && Rebuilt(Flip(h), recheck, h2)
    ensures Renamed(Forwards(h.mem), a) == Image(h, a)
    ensures RenamesObj(h0, h2, Forwards(h.mem), a)
  {
    hide Rebuilt;
    EndObjects(h0, h, recheck, h2);
    if IsYoung(h0, a) {
      assert CopyOk(h0, h, a, h.mem[a].to);
    }
  }

  lemma EndRenames(h0: Heap, h: Heap, recheck: seq<Addr>, h2: Heap)
    requires HeapOk(h0) && Scavenging(h0, h) && Scanned(h0, h)
    requires Rebuilt(Flip(h), recheck, h2)
    ensures Renames(h0, h2, Forwards(h.mem))
    ensures forall a :: Tracks(h0, a) ==> Saved(h0, h, a) && Exact(h0, h, a)
    ensures forall a :: a in Forwards(h.mem) <==> a in h0.mem && Tracks(h0, a) && IsYoung(h0, a)
  {
    hide HeapOk, Exact, RenamesObj, Rebuilt, Greys, Black, OldOk, CopyOk, NothingElse, Conserved;
    AllSaved(h0, h);
    forall a | Tracks(h0, a)
      ensures Exact(h0, h, a) && Renamed(Forwards(h.mem), a) == Image(h, a) && RenamesObj(h0, h2, Forwards(h.mem), a)
    {
      SavedExact(h0, h, a);
      EndRenamesObj(h0, h, recheck, h2, a);
    }
    forall a, b | Tracks(h0, a) && Tracks(h0, b) && a != b
      ensures Renamed(Forwards(h.mem), a) != Renamed(Forwards(h.mem), b)
    {
      EndInjective(h0, h, a, b);
    }
    assert RenamesRoots(h0, h2, Forwards(h.mem)) by {
      EndRoots(h0, h, recheck, h2);
    }
  }

  lemma EndRoots(h0: Heap, h: Heap, recheck: seq<Addr>, h2: Heap)
    requires Scanned(h0, h) && Rebuilt(Flip(h), recheck, h2)
    ensures RenamesRoots(h0, h2, Forwards(h.mem))
  {
  }

  lemma EndInjective(h0: Heap, h: Heap, a: Addr, b: Addr)
    requires HeapOk(h0) && Scavenging(h0, h)
    requires Saved(h0, h, a) && Saved(h0, h, b) && a != b
    ensures Renamed(Forwards(h.mem), a) != Renamed(Forwards(h.mem), b)
  {
    hide Remembered, NoOverlap, NoGaps, BufferOk, ActiveOk, Conserved, ApartNow, PlacedNow, NothingElse, OldOk, NoDangling;
    assert a in h.mem && h.mem[a].Moved? ==> CopyOk(h0, h, a, h.mem[a].to);
    assert b in h.mem && h.mem[b].Moved? ==> CopyOk(h0, h, b, h.mem[b].to);
  }

  // ---------- the heap after is well-formed ----------

  lemma EndLayout(h0: Heap, h: Heap, recheck: seq<Addr>, h2: Heap)
    requires SpacesOk(h0) && Placed(h0) && SpacesKept(h0, h)
    requires OriginalsOk(h0, h) && OldOk(h0, h) && CopiesOk(h0, h) && NothingElse(h0, h)
    requires PlacedNow(h) && ApartNow(h)
    requires Rebuilt(Flip(h), recheck, h2)
    ensures SpacesOk(h2) && Placed(h2) && NoOverlap(h2.mem)
  {
    hide Rebuilt, OriginalsOk, OldOk, CopiesOk, NothingElse, Placed, PlacedNow, ApartNow, NoOverlap;
    EndObjects(h0, h, recheck, h2);
    EndSpaces(h0, h, recheck, h2);
    EndUnmarked(h0, h);
    EndPlaced(h, h2);
    EndNoOverlap(h, h2);
  }

  lemma EndPlaced(h: Heap, h2: Heap)
    requires PlacedNow(h)
    requires forall b :: b in h.mem && h.mem[b].Live? && !IsYoung(h, b) ==> !h.mem[b].obj.gc.mark
    requires h2.young == h.spare && h2.oldSpace == h.oldSpace
    requires forall b :: b in h2.mem <==> b in h.mem && !IsYoung(h, b)
    requires forall b :: b in h2.mem ==>
      h.mem[b].Live? && h2.mem[b].Live? &&
      h2.mem[b].obj == WithRemembered(h.mem[b].obj, h2.mem[b].obj.gc.remembered)
    ensures Placed(h2)
  {
  }

  lemma EndNoOverlap(h: Heap, h2: Heap)
    requires ApartNow(h)
    requires forall b :: b in h2.mem <==> b in h.mem && !IsYoung(h, b)
    requires forall b :: b in h2.mem ==> h.mem[b].Live? && h2.mem[b].Live?
    requires forall b :: b in h2.mem ==> h2.mem[b].obj.NumSlots() == h.mem[b].obj.NumSlots()
    ensures NoOverlap(h2.mem)
  {
  }

  lemma EndSpaces(h0: Heap, h: Heap, recheck: seq<Addr>, h2: Heap)
    requires SpacesOk(h0) && SpacesKept(h0, h) && Rebuilt(Flip(h), recheck, h2)
    ensures SpacesOk(h2)
    ensures h2.young == h.spare && h2.spare == h.young.(alloc := 0) && h2.oldSpace == h.oldSpace
    ensures h2.threshold == h0.threshold && h2.roots == h.roots && h2.active == h.active
  {
  }

  lemma EndUnmarked(h0: Heap, h: Heap)
    requires SpacesOk(h0) && Placed(h0) && SpacesKept(h0, h)
    requires OldOk(h0, h) && CopiesOk(h0, h) && NothingElse(h0, h)
    ensures forall b :: b in h.mem && h.mem[b].Live? && !IsYoung(h, b) ==> !h.mem[b].obj.gc.mark
  {
    forall b | b in h.mem && h.mem[b].Live? && !IsYoung(h, b)
      ensures !h.mem[b].obj.gc.mark
    {
      if b !in h0.mem {
        var a :| ForwardsTo(h0.mem, h.mem, a, b);
        assert CopyOk(h0, h, a, b);
      }
    }
  }

  lemma EndNoGaps(h0: Heap, h: Heap, recheck: seq<Addr>, h2: Heap)
    requires SpacesOk(h0) && SpacesKept(h0, h) && OriginalsOk(h0, h) && Conserved(h0, h)
    requires Rebuilt(Flip(h), recheck, h2)
    ensures NoGaps(h2.mem, h2.young)
    ensures NoGaps(h0.mem, h0.oldSpace) ==> NoGaps(h2.mem, h2.oldSpace)
    ensures h2.young.alloc + h2.oldSpace.alloc == h0.oldSpace.alloc + Total(h0.mem, Forwards(h.mem).Keys)
  {
    hide Rebuilt;
    EndObjects(h0, h, recheck, h2);
    EndSpaces(h0, h, recheck, h2);
    assert HeadersIn(h2.mem, h2.young) == HeadersIn(h.mem, h.spare);
    assert HeadersIn(h2.mem, h2.oldSpace) == HeadersIn(h.mem, h.oldSpace);
    TotalSame(h2.mem, h.mem, HeadersIn(h.mem, h.spare));
    TotalSame(h2.mem, h.mem, HeadersIn(h.mem, h.oldSpace));
  }

  /** A rechecked object is remembered exactly if it is buffered; nothing else is remembered. */
  lemma EndBuffer(h0: Heap, h: Heap, recheck: seq<Addr>, h2: Heap)
    requires SpacesOk(h0) && BufferOk(h0) && SpacesKept(h0, h)
    requires OriginalsOk(h0, h) && OldOk(h0, h) && CopiesOk(h0, h) && NothingElse(h0, h) && Placed(h0)
    requires Recheck(h0, h, recheck) && Rebuilt(Flip(h), recheck, h2)
    ensures BufferOk(h2)
  {
    EndObjects(h0, h, recheck, h2);
    EndSpaces(h0, h, recheck, h2);
    forall b | b in h2.mem && b !in recheck
      ensures !h2.mem[b].obj.gc.remembered
    {
      if b !in h0.mem {
        var a :| ForwardsTo(h0.mem, h.mem, a, b);
        assert CopyOk(h0, h, a, b);
      }
    }
  }

  /** All that can be reached after the scavenge is the image of something that could be before. */
  lemma EndReached(h0: Heap, h: Heap, recheck: seq<Addr>, h2: Heap)
    requires HeapOk(h0) && Scavenging(h0, h) && Scanned(h0, h) && Recheck(h0, h, recheck)
    requires forall n :: n in recheck ==> exists a :: Tracks(h0, a) && Image(h, a) == n
    requires Rebuilt(Flip(h), recheck, h2)
    ensures forall b :: Tracks(h2, b) ==> b in h2.mem && exists a :: Tracks(h0, a) && Image(h, a) == b
  {
    EndRenames(h0, h, recheck, h2);
    var phi := Forwards(h.mem);
    hide HeapOk, Scavenging, Scanned, Exact, Saved;
    var images := set a | a in h0.mem && Tracks(h0, a) :: Image(h, a);
    forall a | Tracks(h0, a)
      ensures Image(h, a) in images && RenamesObj(h0, h2, phi, a) && Renamed(phi, a) == Image(h, a)
    {
    }
    EndReachedStarts(h0, h, recheck, h2, images);
    EndReachedEdges(h0, h, h2, images);
    ReachableWithin(h2.mem, Starts(h2), images);
  }

  lemma EndReachedStarts(h0: Heap, h: Heap, recheck: seq<Addr>, h2: Heap, images: set<Addr>)
    requires NoDangling(h0)
    requires forall n :: n in recheck ==> exists a :: Tracks(h0, a) && Image(h, a) == n
    requires Rebuilt(Flip(h), recheck, h2)
    requires RenamesRoots(h0, h2, Forwards(h.mem))
    requires forall a :: Tracks(h0, a) ==> Image(h, a) in images
    ensures Starts(h2) <= images
  {
    ReachedRoots(h0);
    forall b | b in Starts(h2)
      ensures b in images
    {
      if b in h2.ssb {
        assert b in recheck;
      } else if v :| v in h2.roots && v == Ptr(b) {
        var i :| 0 <= i < |h2.roots| && h2.roots[i] == v;
        assert ReachedValue(h0, h0.roots[i]);
      }
    }
  }

  lemma EndReachedEdges(h0: Heap, h: Heap, h2: Heap, images: set<Addr>)
    requires NoDangling(h0)
    requires forall b :: b in images <==> exists a :: Tracks(h0, a) && Image(h, a) == b
    requires forall a :: Tracks(h0, a) ==>
      RenamesObj(h0, h2, Forwards(h.mem), a) && Renamed(Forwards(h.mem), a) == Image(h, a)
    ensures ClosedSet(h2.mem, images)
  {
    forall b, c | b in images && Edge(h2.mem, b, c)
      ensures c in images
    {
      var a :| Tracks(h0, a) && Image(h, a) == b;
      assert RenamesObj(h0, h2, Forwards(h.mem), a);
      var s0, s := h0.mem[a].obj.Refs(), h2.mem[b].obj.Refs();
      var i :| 0 <= i < |s| && s[i] == Ptr(c);
      assert s[i] == Forwarded(Forwards(h.mem), s0[i]);
      ReachedSlots(h0, a);
      assert ReachedValue(h0, s0[i]);
      assert Image(h, s0[i].addr) == c;
    }
  }

  lemma EndActive(h0: Heap, h: Heap, h2: Heap)
    requires HeapOk(h0) && Scavenging(h0, h) && RenamesRoots(h0, h2, Forwards(h.mem))
    requires h2.oldSpace == h.oldSpace
    requires forall a :: Tracks(h0, a) ==> RenamesObj(h0, h2, Forwards(h.mem), a)
    ensures ActiveOk(h2)
  {
    hide Remembered, NoOverlap, NoGaps, BufferOk, Conserved, ApartNow, PlacedNow, NothingElse, OldOk;
    ReachedRoots(h0);
    NilStays(h0, h, h0.active);
    NilStays(h0, h, h0.roots[0]);
    if HasActive(h2) {
      assert RenamesObj(h0, h2, Forwards(h.mem), h0.active.addr);
    }
  }

  lemma RecheckImages(h0: Heap, h: Heap, recheck: seq<Addr>)
    requires HeapOk(h0) && Scavenging(h0, h) && Scanned(h0, h) && Recheck(h0, h, recheck)
    ensures forall n :: n in recheck ==> exists a :: Tracks(h0, a) && Image(h, a) == n
  {
    hide Remembered, NoOverlap, NoGaps, Conserved, ApartNow, PlacedNow, OldOk, CopiesOk, Scanned;
    ReachedRoots(h0);
    forall n | n in recheck
      ensures exists a :: Tracks(h0, a) && Image(h, a) == n
    {
      if n !in h0.mem {
        var a :| ForwardsTo(h0.mem, h.mem, a, n);
        assert Tracks(h0, a) && Image(h, a) == n;
      } else if n in h0.ssb {
        assert Tracks(h0, n) && Image(h, n) == n;
      } else {
        RunningStackTracked(h0);
      }
    }
  }

  lemma RunningStackTracked(h0: Heap)
    requires NoDangling(h0) && Placed(h0)
    ensures forall s :: s in RunningStack(h0) ==> Tracks(h0, s)
  {
    if s :| s in RunningStack(h0) {
      ReachedRoots(h0);
      ReachedSlots(h0, h0.active.addr);
      assert ReachedValue(h0, StackValue(h0));
    }
  }

  lemma EndRemembered(h0: Heap, h: Heap, recheck: seq<Addr>, h2: Heap)
    requires HeapOk(h0) && Scavenging(h0, h) && Scanned(h0, h) && Recheck(h0, h, recheck)
    requires Rebuilt(Flip(h), recheck, h2)
    requires forall b :: Tracks(h2, b) ==> b in h2.mem && exists a :: Tracks(h0, a) && Image(h, a) == b
    ensures Remembered(h2)
  {
    hide HeapOk, Scavenging, Scanned;
    EndRenames(h0, h, recheck, h2);
    forall b | b in h2.mem && h2.mem[b].Live? && Tracks(h2, b) && IsOld(h2, b) && PointsYoung(h2, b)
      ensures b in h2.ssb
    {
      var a :| Tracks(h0, a) && Image(h, a) == b;
      RememberedNow(h0, h, recheck, h2, a, b);
    }
  }

  lemma RememberedNow(h0: Heap, h: Heap, recheck: seq<Addr>, h2: Heap, a: Addr, b: Addr)
    requires HeapOk(h0) && Scavenging(h0, h) && Recheck(h0, h, recheck) && Rebuilt(Flip(h), recheck, h2)
    requires Saved(h0, h, a) && Exact(h0, h, a) && Image(h, a) == b
    requires b in h2.mem && h2.mem[b].Live? && IsOld(h2, b) && PointsYoung(h2, b)
    ensures b in h2.ssb
  {
    hide NoOverlap, NoGaps, Conserved, ApartNow, PlacedNow, OldOk, CopiesOk, NothingElse, Remembered, Placed, Recheck,
      BufferOk, ActiveOk, NoDangling, Exact, PointsYoung;
    EndObjects(h0, h, recheck, h2);
    if b !in recheck {
      NotRechecked(h0, h, recheck, a, b);
      OldPointsNowhereYoung(h0, h, h2, a, b);
      assert false;
    }
    assert PointsYoung(Flip(h), b) by {
      SameRefsPointYoung(h2, Flip(h), b);
    }
  }

  lemma SameRefsPointYoung(h: Heap, h': Heap, a: Addr)
    requires h'.young == h.young && a in h.mem && h.mem[a].Live? && a in h'.mem && h'.mem[a].Live?
    requires h.mem[a].obj.Refs() == h'.mem[a].obj.Refs() && PointsYoung(h, a)
    ensures PointsYoung(h', a)
  {
  }

  /** What was not young before the scavenge is not in the new young space. */
  lemma OldPointsNowhereYoung(h0: Heap, h: Heap, h2: Heap, a: Addr, b: Addr)
    requires SpacesOk(h0) && Placed(h0) && NoDangling(h0) && SpacesKept(h0, h) && h2.young == h.spare
    requires a in h0.mem && h0.mem[a].Live? && Tracks(h0, a)
    requires b in h2.mem && h2.mem[b].Live? && h2.mem[b].obj.Refs() == h0.mem[a].obj.Refs()
    requires forall v :: v in h0.mem[a].obj.Refs() && v.Ptr? ==> !IsYoung(h0, v.addr)
    ensures !PointsYoung(h2, b)
  {
    ReachedSlots(h0, a);
    forall v | v in h2.mem[b].obj.Refs() && v.Ptr?
      ensures !IsYoung(h2, v.addr)
    {
      assert ReachedValue(h0, v);
    }
  }

  /** An old object that is not rechecked has the references it had, none of them young. */
  lemma NotRechecked(h0: Heap, h: Heap, recheck: seq<Addr>, a: Addr, b: Addr)
    requires HeapOk(h0) && SpacesKept(h0, h) && OriginalsOk(h0, h) && Recheck(h0, h, recheck)
    requires Saved(h0, h, a) && Exact(h0, h, a) && Image(h, a) == b && b !in recheck && IsOld(h, b)
    ensures h0.mem[a].Live? && a == b && h.mem[b].obj.Refs() == h0.mem[a].obj.Refs()
    ensures forall v :: v in h0.mem[a].obj.Refs() && v.Ptr? ==> !IsYoung(h0, v.addr)
  {
    assert !IsYoung(h0, a);
    assert a !in h0.ssb && a !in RunningStack(h0);
    assert !PointsYoung(h0, a);
    forall i | 0 <= i < |h0.mem[a].obj.Refs()|
      ensures h.mem[b].obj.Refs()[i] == h0.mem[a].obj.Refs()[i]
    {
      assert h0.mem[a].obj.Refs()[i] in h0.mem[a].obj.Refs();
    }
  }

  // ---------- the relation a scavenge establishes ----------

  /** `phi` says where each young object the collector reached has gone. */
  ghost predicate Scavenged(h0: Heap, h2: Heap, phi: map<Addr, Addr>) {
    && Renames(h0, h2, phi)
    && (forall a :: a in phi <==> a in h0.mem && Tracks(h0, a) && IsYoung(h0, a))
    && (forall a :: a in phi ==> h0.mem[a].Live?)
    && (forall a :: a in phi && IsOld(h0, phi[a]) ==> NextAge(h0.mem[a].obj.gc.age) >= h0.threshold)
    && (forall b :: b in h2.mem ==> b in h0.mem || exists a :: a in phi && phi[a] == b)
    && (forall a :: a in h0.mem && !IsYoung(h0, a) ==> a in h2.mem)
    && h2.young.base == h0.spare.base && h2.spare == h0.young.(alloc := 0)
    && h2.oldSpace.base == h0.oldSpace.base && h2.oldSpace.words == h0.oldSpace.words
    && h2.young.alloc + h2.oldSpace.alloc == h0.oldSpace.alloc + Total(h0.mem, phi.Keys)
    && Total(h0.mem, phi.Keys) <= h0.young.alloc
    && (TenuresAll(h0) ==> h2.young.alloc == 0)
    && (NoGaps(h0.mem, h0.oldSpace) ==> NoGaps(h2.mem, h2.oldSpace))
  }

  lemma ScavengeEnds(h0: Heap, h: Heap, recheck: seq<Addr>, h2: Heap)
    requires HeapOk(h0) && Scavenging(h0, h) && Scanned(h0, h) && Recheck(h0, h, recheck)
    requires Rebuilt(Flip(h), recheck, h2)
    ensures HeapOk(h2)
    ensures Scavenged(h0, h2, Forwards(h.mem))
  {
    ScavengeKeepsHeapOk(h0, h, recheck, h2);
    ScavengeRenames(h0, h, recheck, h2);
  }

  lemma ScavengeKeepsHeapOk(h0: Heap, h: Heap, recheck: seq<Addr>, h2: Heap)
    requires HeapOk(h0) && Scavenging(h0, h) && Scanned(h0, h) && Recheck(h0, h, recheck)
    requires Rebuilt(Flip(h), recheck, h2)
    ensures HeapOk(h2)
  {
    hide NoGaps, NoOverlap, Placed, NoDangling, Remembered, BufferOk, ActiveOk, OriginalsOk, OldOk, CopiesOk, NothingElse,
      PlacedNow, ApartNow, Conserved, Scanned, Recheck, Rebuilt, SpacesOk, SpacesKept, Flip, Renames, Exact, Saved;
    RecheckImages(h0, h, recheck);
    EndRenames(h0, h, recheck, h2);
    EndLayout(h0, h, recheck, h2);
    EndNoGaps(h0, h, recheck, h2);
    EndReached(h0, h, recheck, h2);
    EndSpaces(h0, h, recheck, h2);
    EndBuffer(h0, h, recheck, h2);
    EndRemembered(h0, h, recheck, h2);
    EndDangling(h2);
    EndRenamesParts(h0, h2, Forwards(h.mem));
    EndActive(h0, h, h2);
    EndSpareEmpty(h0, h, recheck, h2);
  }

  lemma EndDangling(h2: Heap)
    requires forall b :: Tracks(h2, b) ==> b in h2.mem
    ensures NoDangling(h2)
  {
  }

  lemma EndSpareEmpty(h0: Heap, h: Heap, recheck: seq<Addr>, h2: Heap)
    requires Rebuilt(Flip(h), recheck, h2)
    ensures h2.spare.alloc == 0
  {
  }

  lemma EndRenamesParts(h0: Heap, h1: Heap, phi: map<Addr, Addr>)
    requires Renames(h0, h1, phi)
    ensures RenamesRoots(h0, h1, phi) && forall a :: Tracks(h0, a) ==> RenamesObj(h0, h1, phi, a)
  {
  }

  lemma ScavengeRenames(h0: Heap, h: Heap, recheck: seq<Addr>, h2: Heap)
    requires HeapOk(h0) && Scavenging(h0, h) && Scanned(h0, h)
    requires Rebuilt(Flip(h), recheck, h2)
    ensures Scavenged(h0, h2, Forwards(h.mem))
  {
    hide NoGaps, NoOverlap, Placed, NoDangling, Remembered, BufferOk, ActiveOk, CopiesOk,
      PlacedNow, ApartNow, Conserved, Scanned, Rebuilt, Renames, Exact, Saved, Flip;
    EndRenames(h0, h, recheck, h2);
    EndNoGaps(h0, h, recheck, h2);
    EndSpaces(h0, h, recheck, h2);
    EndObjects(h0, h, recheck, h2);
    EndTotals(h0, h);
    EndKeys(h0, h, h2);
    EndTenured(h0, h);
  }

  lemma EndTenured(h0: Heap, h: Heap)
    requires CopiesOk(h0, h)
    ensures forall a :: a in Forwards(h.mem) ==>
      && a in h0.mem && h0.mem[a].Live?
      && (IsOld(h0, Forwards(h.mem)[a]) ==> NextAge(h0.mem[a].obj.gc.age) >= h0.threshold)
  {
    forall a | a in Forwards(h.mem)
      ensures CopyOk(h0, h, a, Forwards(h.mem)[a])
    {
    }
  }

  lemma EndTotals(h0: Heap, h: Heap)
    requires NoGaps(h0.mem, h0.young) && OriginalsOk(h0, h) && Conserved(h0, h)
    ensures Total(h0.mem, Forwards(h.mem).Keys) <= h0.young.alloc
    ensures TenuresAll(h0) ==> h.spare.alloc == 0
  {
    TotalSubset(h0.mem, Forwards(h.mem).Keys, HeadersIn(h0.mem, h0.young));
  }

  lemma EndKeys(h0: Heap, h: Heap, h2: Heap)
    requires Placed(h0) && NothingElse(h0, h) && OldOk(h0, h) && h.young == h0.young
    requires forall b :: b in h2.mem <==> b in h.mem && !IsYoung(h, b)
    ensures forall b :: b in h2.mem ==> b in h0.mem || exists a :: a in Forwards(h.mem) && Forwards(h.mem)[a] == b
    ensures forall a :: a in h0.mem && !IsYoung(h0, a) ==> a in h2.mem
  {
    forall b | b in h2.mem && b !in h0.mem
      ensures exists a :: a in Forwards(h.mem) && Forwards(h.mem)[a] == b
    {
      var a :| ForwardsTo(h0.mem, h.mem, a, b);
      assert a in Forwards(h.mem) && Forwards(h.mem)[a] == b;
    }
  }

  // ---------- joining the phases ----------

  lemma StartScavenging(h0: Heap)
    requires HeapOk(h0)
    ensures StartOk(h0) && Scavenging(h0, h0) && RootsKnown(h0) && |h0.roots| > 0
    ensures forall a :: a in h0.mem ==> h0.mem[a].Live?
  {
    hide Remembered, BufferOk, NoGaps, NoOverlap, Scavenging, RootsKnown;
    StartInvariant(h0);
    StartRoots(h0);
  }

  lemma StartRoots(h0: Heap)
    requires NoDangling(h0)
    ensures RootsKnown(h0)
  {
    ReachedRoots(h0);
    assert forall v :: v in h0.roots ==> ReachedValue(h0, v);
  }

  lemma StartInvariant(h0: Heap)
    requires SpacesOk(h0) && Placed(h0) && NoOverlap(h0.mem) && h0.spare.alloc == 0
    ensures Scavenging(h0, h0)
  {
    hide Conserved;
    StartConserved(h0);
    assert Forwards(h0.mem) == map[];
  }

  lemma StartConserved(h0: Heap)
    requires SpacesOk(h0) && Placed(h0) && h0.spare.alloc == 0
    ensures Conserved(h0, h0)
  {
    assert Forwards(h0.mem).Keys == {};
    assert HeadersIn(h0.mem, h0.spare) == {};
  }

  lemma NilKept(h0: Heap, h: Heap)
    requires HeapOk(h0) && Scavenging(h0, h)
    requires |h.roots| == |h0.roots| && forall j :: 0 <= j < |h.roots| ==> Done(h, h0.roots[j], h.roots[j])
    ensures |h.roots| > 0 && h.roots[0] == Nil(h0)
  {
    hide Remembered, NoOverlap, NoGaps, BufferOk, Conserved, ApartNow, PlacedNow, NothingElse, OldOk;
    ReachedRoots(h0);
    NilStays(h0, h, h0.roots[0]);
    assert Done(h, h0.roots[0], h.roots[0]);
  }

  /** The roots stay done while the scavenge goes on. */
  lemma RootsDone(h0: Heap, h: Heap, w: seq<Addr>, h': Heap, w': seq<Addr>)
    requires Scavenging(h0, h') && Grows(h, w, h', w', h.mem.Keys)
    requires h'.roots == h.roots && h'.active == h.active
    requires |h.roots| == |h0.roots| && forall j :: 0 <= j < |h.roots| ==> Done(h, h0.roots[j], h.roots[j])
    requires Done(h, h0.active, h.active)
    ensures forall j :: 0 <= j < |h'.roots| ==> Done(h', h0.roots[j], h'.roots[j])
    ensures Done(h', h0.active, h'.active)
  {
    hide Scavenging, Done, Grows;
    forall v0, v | Done(h, v0, v)
      ensures Done(h', v0, v)
    {
      DoneMore(h0, h, w, h', w', h.mem.Keys, v0, v);
    }
  }

  /** The running stack has been scanned, and is listed if it is in old space. */
  ghost predicate StackScanned(h0: Heap, h: Heap, stack: seq<Addr>) {
    && (forall s :: s in RunningStack(h0) ==> Black(h, Image(h, s)))
    && StackListed(h0, h, stack)
  }

  ghost predicate StackListed(h0: Heap, h: Heap, stack: seq<Addr>) {
    && (forall s :: s in RunningStack(h0) && IsOld(h, Image(h, s)) ==> Image(h, s) in stack)
    && (forall n :: n in stack ==> IsOld(h, n) && exists s :: s in RunningStack(h0) && Image(h, s) == n)
  }

  lemma StackScannedNow(h0: Heap, h: Heap, stack: seq<Addr>)
    requires forall s :: s in RunningStack(h0) ==>
      Black(h, Image(h, s)) && (IsOld(h, Image(h, s)) ==> Image(h, s) in stack)
    requires forall n :: n in stack ==> IsOld(h, n) && exists s :: s in RunningStack(h0) && Image(h, s) == n
    ensures StackScanned(h0, h, stack)
  {
    hide RunningStack, Black;
  }

  lemma StackScannedStill(h0: Heap, h: Heap, w: seq<Addr>, h': Heap, w': seq<Addr>, stack: seq<Addr>)
    requires Scavenging(h0, h) && Scavenging(h0, h') && Grows(h, w, h', w', h.mem.Keys) && BlackStays(h, h')
    requires StackScanned(h0, h, stack)
    ensures StackScanned(h0, h', stack)
  {
    hide OriginalsOk, OldOk, CopiesOk, NothingElse, PlacedNow, ApartNow, Conserved, RunningStack, Grows;
    MovedYoung(h0, h');
    forall s | s in RunningStack(h0)
      ensures Image(h', s) == Image(h, s) && Black(h', Image(h', s))
    {
      ImageStays(h, w, h', w', h.mem.Keys, s);
    }
  }

  lemma AllScanned(h0: Heap, h3: Heap, h: Heap, stack: seq<Addr>)
    requires |h.roots| == |h0.roots| && forall j :: 0 <= j < |h.roots| ==> Done(h, h0.roots[j], h.roots[j])
    requires Done(h, h0.active, h.active) && Greys(h, [], {})
    requires BlackStays(h3, h) && forall b :: b in h0.ssb ==> Black(h3, b)
    requires StackScanned(h0, h, stack)
    ensures Scanned(h0, h) && StackListed(h0, h, stack)
  {
    hide Done, Greys, Black, RunningStack;
  }

  lemma RecheckComplete(h0: Heap, h: Heap, tenured: seq<Addr>, stack: seq<Addr>, recheck: seq<Addr>)
    requires HeapOk(h0) && Scavenging(h0, h) && Scanned(h0, h)
    requires TenuredOk(h0, h, tenured) && StackListed(h0, h, stack)
    requires forall a :: a in recheck <==> a in h0.ssb + tenured + stack
    ensures Recheck(h0, h, recheck)
    ensures forall a :: a in recheck ==> a in Flip(h).mem && Flip(h).mem[a].Live?
    ensures h.ssb == h0.ssb
  {
    hide Remembered, NoOverlap, NoGaps, Conserved, ApartNow, PlacedNow, NothingElse, OldOk, CopiesOk, OriginalsOk,
      NoDangling, Placed, ActiveOk, RunningStack, Greys, Done;
  }
}
