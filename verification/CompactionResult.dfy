/** What a finished compaction has done. */
module CompactionResult {
  import opened ObjectMemory
  import opened Scavenge
  import opened ScavengeSteps
  import opened ScavengeResult
  import opened Renaming
  import opened Compaction
  import opened HeapWalk

  // ---------- fixing references ----------

  ghost predicate FixedObj(fwd: map<Addr, Addr>, o0: Obj, o: Obj) {
    SameKind(o0, o) && o.gc == o0.gc && RenamesBody(fwd, o0.body, o.body)
  }

  /** Roots and the slots of marked objects go through the forwarding table. */
  ghost predicate Fixed(h1: Heap, fwd: map<Addr, Addr>, h2: Heap) {
    && h2 == h1.(mem := h2.mem, roots := h2.roots, active := h2.active)
    && h2.mem.Keys == h1.mem.Keys
    && (forall a :: Marked(h1, a) ==> h2.mem[a].Live? && FixedObj(fwd, h1.mem[a].obj, h2.mem[a].obj))
    && (forall a :: a in h1.mem && !Marked(h1, a) ==> h2.mem[a] == h1.mem[a])
    && RenamesRoots(h1, h2, fwd)
  }

  /** The forwarding table lists the planned moves. */
  ghost predicate TableOk(srcs: seq<Addr>, dsts: seq<Addr>, fwd: map<Addr, Addr>) {
    && |dsts| == |srcs|
    && (forall a :: a in fwd <==> a in srcs)
    && (forall k :: 0 <= k < |srcs| ==> fwd[srcs[k]] == dsts[k])
  }

  /** Clear the marks of young objects; set the top of old space and clear what lies above it. */
  ghost function Finish(g: Heap, next: Addr): Heap
    requires g.oldSpace.base <= next
    requires forall a :: a in g.mem ==> g.mem[a].Live?
  {
    g.(mem := map a | a in g.mem && (g.young.Contains(a) || a < next) ::
         if g.young.Contains(a) then Live(WithMark(g.mem[a].obj, false)) else g.mem[a],
       oldSpace := g.oldSpace.(alloc := next - g.oldSpace.base))
  }

  /** The heap without the headers a slide left behind in gaps: in old space only what was moved is an object. */
  ghost function Swept(h: Heap, moved: set<Addr>): Heap {
    h.(mem := map a | a in h.mem && (h.young.Contains(a) || a in moved) :: h.mem[a])
  }

  /** The phases of one compaction: `h1` marked, `h2` fixed, `g` slid. */
  ghost predicate Phases(h0: Heap, h1: Heap, h2: Heap, g: Heap, srcs: seq<Addr>, dsts: seq<Addr>, fwd: map<Addr, Addr>) {
    && HeapOk(h0) && SameButMarks(h0, h1) && (forall a :: Marked(h1, a) <==> Alive(h0, a))
    && (forall a :: a in srcs <==> Alive(h0, a) && IsOld(h0, a))
    && TableOk(srcs, dsts, fwd) && Fixed(h1, fwd, h2)
    && Sliding(h2, srcs, dsts, |srcs|, g) && Tidy(h2, srcs, dsts, |srcs|, g) && Buffered(h2, srcs, dsts, |srcs|, g.ssb)
    && Top(h2, srcs) <= h2.oldSpace.Top()
  }

  ghost function Top(h2: Heap, srcs: seq<Addr>): Addr
    requires Listed(h2.mem, srcs)
  {
    PlanNext(h2.mem, srcs, h2.oldSpace.base)
  }

  lemma AliveIn(h: Heap, a: Addr)
    requires HeapOk(h) && Alive(h, a)
    ensures a in h.mem && h.mem[a].Live? && Tracks(h, a)
    ensures InUsed(h.young, a, h.mem[a].obj) || InUsed(h.oldSpace, a, h.mem[a].obj)
    ensures IsYoung(h, a) || IsOld(h, a)
  {
    hide Remembered, NoOverlap, NoGaps, BufferOk, ActiveOk;
    AliveTracked(h, a);
  }

  /** Neither marking nor fixing changes addresses, sizes or remembered bits. */
  ghost predicate SameSizes(h0: Heap, h2: Heap) {
    && h2.mem.Keys == h0.mem.Keys && h2.young == h0.young && h2.spare == h0.spare && h2.oldSpace == h0.oldSpace
    && h2.threshold == h0.threshold
    && forall a :: a in h0.mem ==>
      && h0.mem[a].Live? && h2.mem[a].Live?
      && h2.mem[a].obj.NumSlots() == h0.mem[a].obj.NumSlots()
      && h2.mem[a].obj.gc.remembered == h0.mem[a].obj.gc.remembered
  }

  lemma FixedSizes(h0: Heap, h1: Heap, fwd: map<Addr, Addr>, h2: Heap)
    requires SameButMarks(h0, h1) && Fixed(h1, fwd, h2)
    ensures SameSizes(h0, h2)
  {
  }

  /** The slide stays inside old space. */
  lemma PhasesArea(h0: Heap, h2: Heap, srcs: seq<Addr>)
    requires HeapOk(h0) && SameSizes(h0, h2)
    requires forall a :: a in srcs ==> Alive(h0, a) && IsOld(h0, a)
    requires Listed(h2.mem, srcs) && Top(h2, srcs) <= h2.oldSpace.Top()
    ensures SlideArea(h2, srcs)
  {
    hide Remembered, NoGaps, BufferOk, ActiveOk, NoDangling, Alive, NoOverlap, Placed;
    SizesNoOverlap(h0, h2);
    SizesYoung(h0, h2);
    forall k | 0 <= k < |srcs|
      ensures srcs[k] in h2.mem && InUsed(h2.oldSpace, srcs[k], h2.mem[srcs[k]].obj)
    {
      assert srcs[k] in srcs;
      AliveIn(h0, srcs[k]);
    }
  }

  lemma SizesNoOverlap(h0: Heap, h2: Heap)
    requires NoOverlap(h0.mem) && SameSizes(h0, h2)
    ensures NoOverlap(h2.mem)
  {
  }

  lemma SizesYoung(h0: Heap, h2: Heap)
    requires SpacesOk(h0) && Placed(h0) && SameSizes(h0, h2)
    ensures forall a :: a in h2.mem && IsYoung(h2, a) ==> h2.mem[a].Live? && InUsed(h2.young, a, h2.mem[a].obj)
  {
  }

  lemma TopBounds(h2: Heap, srcs: seq<Addr>, dsts: seq<Addr>)
    requires SlideArea(h2, srcs) && PlanOk(h2.mem, srcs, dsts, h2.oldSpace.base)
    ensures h2.oldSpace.base <= Top(h2, srcs)
    ensures Top(h2, srcs) <= h2.oldSpace.Top()
    ensures forall k :: 0 <= k < |srcs| ==>
      h2.oldSpace.base + h2.mem[srcs[k]].obj.Extra() <= dsts[k] && dsts[k] + 1 + h2.mem[srcs[k]].obj.NumSlots() <= Top(h2, srcs)
  {
    assert srcs[..|srcs|] == srcs && srcs[..0] == [];
    PlanNextGrows(h2.mem, srcs, h2.oldSpace.base, 0, |srcs|);
    forall k | 0 <= k < |srcs|
      ensures h2.oldSpace.base + h2.mem[srcs[k]].obj.Extra() <= dsts[k]
      ensures dsts[k] + 1 + h2.mem[srcs[k]].obj.NumSlots() <= Top(h2, srcs)
    {
      TargetBounds(h2.mem, srcs, dsts, h2.oldSpace.base, k);
    }
  }

  // ---------- the graph is preserved ----------

  lemma CompactRenamesYoung(h0: Heap, h1: Heap, h2: Heap, g: Heap, srcs: seq<Addr>, dsts: seq<Addr>,
                            fwd: map<Addr, Addr>, a: Addr)
    requires SameButMarks(h0, h1) && Fixed(h1, fwd, h2) && Sliding(h2, srcs, dsts, |srcs|, g)
    requires Marked(h1, a) && IsYoung(h0, a) && a !in fwd
    requires g.oldSpace.base <= Top(h2, srcs)
    ensures RenamesObj(h0, Finish(g, Top(h2, srcs)), fwd, a)
  {
    hide PlanOk, Settled;
  }

  lemma CompactRenamesOld(h0: Heap, h1: Heap, h2: Heap, g: Heap, srcs: seq<Addr>, dsts: seq<Addr>,
                          fwd: map<Addr, Addr>, k: nat)
    requires SameButMarks(h0, h1) && Fixed(h1, fwd, h2) && Sliding(h2, srcs, dsts, |srcs|, g)
    requires TableOk(srcs, dsts, fwd) && k < |srcs| && Marked(h1, srcs[k]) && !IsYoung(h0, srcs[k])
    requires !IsYoung(h0, dsts[k]) && dsts[k] < Top(h2, srcs)
    requires g.oldSpace.base <= Top(h2, srcs)
    ensures RenamesObj(h0, Finish(g, Top(h2, srcs)), fwd, srcs[k])
  {
    hide PlanOk, PointsYoung;
  }

  lemma CompactRenamesObj(h0: Heap, h1: Heap, h2: Heap, g: Heap, srcs: seq<Addr>, dsts: seq<Addr>, fwd: map<Addr, Addr>,
                          a: Addr)
    requires Phases(h0, h1, h2, g, srcs, dsts, fwd) && Alive(h0, a)
    requires forall k :: 0 <= k < |srcs| ==> IsOld(h0, dsts[k]) && dsts[k] < Top(h2, srcs)
    requires g.oldSpace.base <= Top(h2, srcs)
    ensures RenamesObj(h0, Finish(g, Top(h2, srcs)), fwd, a)
  {
    AliveIn(h0, a);
    assert Marked(h1, a);
    OldNotYoung(h0);
    hide HeapOk, Tidy, Buffered, PointsYoung, Sliding, Fixed, SameButMarks, RenamesObj, Finish;
    if IsYoung(h0, a) {
      CompactRenamesYoung(h0, h1, h2, g, srcs, dsts, fwd, a);
    } else {
      var k :| 0 <= k < |srcs| && srcs[k] == a;
      CompactRenamesOld(h0, h1, h2, g, srcs, dsts, fwd, k);
    }
  }

  lemma OldNotYoung(h: Heap)
    requires HeapOk(h)
    ensures forall a :: IsOld(h, a) ==> !IsYoung(h, a)
  {
  }

  lemma CompactInjective(h0: Heap, h2: Heap, srcs: seq<Addr>, dsts: seq<Addr>, fwd: map<Addr, Addr>, a: Addr, b: Addr)
    requires HeapOk(h0) && Alive(h0, a) && Alive(h0, b) && a != b
    requires forall c :: c in srcs <==> Alive(h0, c) && IsOld(h0, c)
    requires TableOk(srcs, dsts, fwd)
    requires PlanOk(h2.mem, srcs, dsts, h2.oldSpace.base) && forall k :: 0 <= k < |srcs| ==> IsOld(h0, dsts[k])
    ensures Renamed(fwd, a) != Renamed(fwd, b)
  {
    hide Remembered, NoOverlap, NoGaps, BufferOk, ActiveOk, NoDangling, Placed, PlanDst, Alive, Clear;
    AliveIn(h0, a);
    AliveIn(h0, b);
    forall c | c in srcs
      ensures IsOld(h0, fwd[c])
    {
      var k :| 0 <= k < |srcs| && srcs[k] == c;
    }
    if a in srcs && b in srcs {
      var j :| 0 <= j < |srcs| && srcs[j] == a;
      var k :| 0 <= k < |srcs| && srcs[k] == b;
      if j < k {
        PlanApart(h2.mem, srcs, dsts, h2.oldSpace.base, j, k);
      } else {
        PlanApart(h2.mem, srcs, dsts, h2.oldSpace.base, k, j);
      }
    }
  }

  lemma CompactPreserves(h0: Heap, h1: Heap, h2: Heap, g: Heap, srcs: seq<Addr>, dsts: seq<Addr>, fwd: map<Addr, Addr>)
    requires Phases(h0, h1, h2, g, srcs, dsts, fwd)
    ensures h2.oldSpace.base <= Top(h2, srcs)
    ensures Preserves(h0, Finish(g, Top(h2, srcs)), fwd)
  {
    hide HeapOk, SameButMarks, Tidy, Buffered, Fixed, RenamesObj, RenamesRoots, TableOk, SlideArea, SameSizes, PlanOk,
      Alive, Marked, NoOverflow, Finish;
    FixedSizes(h0, h1, fwd, h2);
    PlanLists(h2, srcs, dsts);
    PhasesArea(h0, h2, srcs);
    TopBounds(h2, srcs, dsts);
    TargetsOld(h0, h2, srcs, dsts);
    CompactRoots(h0, h1, h2, g, srcs, dsts, fwd);
    forall a | Alive(h0, a)
      ensures RenamesObj(h0, Finish(g, Top(h2, srcs)), fwd, a)
    {
      CompactRenamesObj(h0, h1, h2, g, srcs, dsts, fwd, a);
    }
    forall a, b | Alive(h0, a) && Alive(h0, b) && a != b
      ensures Renamed(fwd, a) != Renamed(fwd, b)
    {
      SizesSpaces(h0, h2);
      CompactInjective(h0, h2, srcs, dsts, fwd, a, b);
    }
  }

  lemma SizesSpaces(h0: Heap, h2: Heap)
    requires SameSizes(h0, h2)
    ensures h2.young == h0.young && h2.spare == h0.spare && h2.oldSpace == h0.oldSpace && h2.threshold == h0.threshold
  {
  }

  lemma TargetsOld(h0: Heap, h2: Heap, srcs: seq<Addr>, dsts: seq<Addr>)
    requires SlideArea(h2, srcs) && SameSizes(h0, h2) && PlanOk(h2.mem, srcs, dsts, h2.oldSpace.base)
    ensures forall k :: 0 <= k < |srcs| ==> IsOld(h0, dsts[k])
  {
    TopBounds(h2, srcs, dsts);
  }

  lemma CompactRoots(h0: Heap, h1: Heap, h2: Heap, g: Heap, srcs: seq<Addr>, dsts: seq<Addr>, fwd: map<Addr, Addr>)
    requires SameButMarks(h0, h1) && Fixed(h1, fwd, h2) && Sliding(h2, srcs, dsts, |srcs|, g)
    requires g.oldSpace.base <= Top(h2, srcs)
    ensures RenamesRoots(h0, Finish(g, Top(h2, srcs)), fwd)
  {
  }

  // ---------- the heap after is well-formed ----------

  /** Old space holds the moved objects and nothing else; young objects lost their marks. */
  ghost predicate Finished(h2: Heap, srcs: seq<Addr>, dsts: seq<Addr>, h: Heap)
    requires Listed(h2.mem, srcs)
  {
    && |dsts| == |srcs| && h2.oldSpace.base <= Top(h2, srcs)
    && h.young == h2.young && h.spare == h2.spare && h.roots == h2.roots && h.active == h2.active
    && h.oldSpace == h2.oldSpace.(alloc := Top(h2, srcs) - h2.oldSpace.base)
    && (forall a :: a in h.mem && !IsYoung(h2, a) ==> a in dsts)
    && (forall k :: 0 <= k < |srcs| ==> dsts[k] in h.mem && h.mem[dsts[k]] == Live(Settled(h2, srcs[k])))
    && (forall a :: IsYoung(h2, a) ==> (a in h.mem <==> a in h2.mem))
    && (forall a :: IsYoung(h2, a) && a in h2.mem ==> h2.mem[a].Live? && h.mem[a] == Live(WithMark(h2.mem[a].obj, false)))
  }

  lemma FinishShape(h2: Heap, g: Heap, srcs: seq<Addr>, dsts: seq<Addr>)
    requires SlideArea(h2, srcs) && Sliding(h2, srcs, dsts, |srcs|, g) && h2.oldSpace.base <= Top(h2, srcs)
    requires forall k :: 0 <= k < |srcs| ==> IsOld(h2, dsts[k]) && dsts[k] < Top(h2, srcs)
    ensures Finished(h2, srcs, dsts, Swept(Finish(g, Top(h2, srcs)), Members(dsts)))
  {
    hide Settled, PlanDst, NoOverlap, PlanNext, InUsed;
  }

  /** Without overflow words nothing is left behind. */
  lemma NothingStale(h2: Heap, g: Heap, srcs: seq<Addr>, dsts: seq<Addr>)
    requires Sliding(h2, srcs, dsts, |srcs|, g) && Tidy(h2, srcs, dsts, |srcs|, g)
    requires NoOverflow(h2.mem, srcs) && h2.oldSpace.base <= Top(h2, srcs)
    ensures Swept(Finish(g, Top(h2, srcs)), Members(dsts)) == Finish(g, Top(h2, srcs))
  {
    assert |dsts| == |srcs| && Listed(h2.mem, srcs);
    hide Settled, PlanDst, PlanNext, PlanOk;
    assert srcs[..|srcs|] == srcs && dsts[..|srcs|] == dsts;
    var h := Finish(g, Top(h2, srcs));
    assert forall a :: a in h.mem ==> h.young.Contains(a) || a in Members(dsts);
    assert Swept(h, Members(dsts)).mem == h.mem;
  }

  /** The graph does not depend on what is left behind. */
  lemma SweptPreserves(h0: Heap, h: Heap, srcs: seq<Addr>, dsts: seq<Addr>, fwd: map<Addr, Addr>)
    requires HeapOk(h0) && Preserves(h0, h, fwd) && TableOk(srcs, dsts, fwd) && h.young == h0.young
    requires forall a :: a in srcs <==> Alive(h0, a) && IsOld(h0, a)
    ensures Preserves(h0, Swept(h, Members(dsts)), fwd)
  {
    hide HeapOk, Alive, Swept;
    forall a | Alive(h0, a)
      ensures RenamesObj(h0, Swept(h, Members(dsts)), fwd, a)
    {
      AliveIn(h0, a);
      assert RenamesObj(h0, h, fwd, a);
      if a in fwd {
        var k :| 0 <= k < |srcs| && srcs[k] == a;
        assert Renamed(fwd, a) in Members(dsts);
      }
      SweptAt(h, Members(dsts), Renamed(fwd, a));
    }
    SweptRoots(h, Members(dsts));
  }

  lemma SweptAt(h: Heap, moved: set<Addr>, a: Addr)
    requires a in h.mem && (h.young.Contains(a) || a in moved)
    ensures a in Swept(h, moved).mem && Swept(h, moved).mem[a] == h.mem[a]
  {
  }

  lemma SweptRoots(h: Heap, moved: set<Addr>)
    ensures Swept(h, moved) == h.(mem := Swept(h, moved).mem)
  {
  }

  /** Every object left in old space is a moved one. */
  lemma FinishedOld(h2: Heap, srcs: seq<Addr>, dsts: seq<Addr>, h: Heap, a: Addr) returns (k: nat)
    requires Listed(h2.mem, srcs) && Finished(h2, srcs, dsts, h)
    requires a in h.mem && !IsYoung(h2, a)
    ensures k < |srcs| == |dsts| && dsts[k] == a && h.mem[a].Live?
    ensures h.mem[a].obj == Settled(h2, srcs[k]) && h.mem[a].obj.NumSlots() == h2.mem[srcs[k]].obj.NumSlots()
  {
    k :| 0 <= k < |dsts| && dsts[k] == a;
  }

  lemma FinishLayout(h2: Heap, srcs: seq<Addr>, dsts: seq<Addr>, h: Heap)
    requires SlideArea(h2, srcs) && PlanOk(h2.mem, srcs, dsts, h2.oldSpace.base) && Finished(h2, srcs, dsts, h)
    ensures SpacesOk(h) && Placed(h)
  {
    TopBounds(h2, srcs, dsts);
    assert SpacesOk(h);
    hide PointsYoung, PlanNext, PlanDst, NoOverlap, PlanOk, Top;
    forall a | a in h.mem && !IsYoung(h2, a)
      ensures h.mem[a].Live? && !h.mem[a].obj.gc.mark && InUsed(h.oldSpace, a, h.mem[a].obj)
    {
      var k := FinishedOld(h2, srcs, dsts, h, a);
    }
    FinishYoung(h2, srcs, dsts, h);
  }

  lemma FinishYoung(h2: Heap, srcs: seq<Addr>, dsts: seq<Addr>, h: Heap)
    requires SlideArea(h2, srcs) && Listed(h2.mem, srcs) && Finished(h2, srcs, dsts, h)
    ensures forall a :: a in h.mem && IsYoung(h2, a) ==>
      && a in h2.mem && h2.mem[a].Live? && h.mem[a].Live? && !h.mem[a].obj.gc.mark
      && h.mem[a].obj.NumSlots() == h2.mem[a].obj.NumSlots() && InUsed(h.young, a, h.mem[a].obj)
  {
    hide PointsYoung, PlanNext, NoOverlap, Top, Settled;
  }

  lemma FinishApart(h2: Heap, srcs: seq<Addr>, dsts: seq<Addr>, h: Heap)
    requires SlideArea(h2, srcs) && PlanOk(h2.mem, srcs, dsts, h2.oldSpace.base) && Finished(h2, srcs, dsts, h)
    requires SpacesOk(h) && Placed(h)
    ensures NoOverlap(h.mem)
  {
    assert h.young == h2.young && NoOverlap(h2.mem);
    FinishYoung(h2, srcs, dsts, h);
    hide PlanOk, Finished, SlideArea, NoOverlap;
    forall a, b | a in h.mem && b in h.mem && a != b
      ensures Apart(a, h.mem[a].obj, b, h.mem[b].obj)
    {
      hide Apart, InUsed;
      if !IsYoung(h2, a) && !IsYoung(h2, b) {
        OldApart(h2, srcs, dsts, h, a, b);
      } else if IsYoung(h2, a) && IsYoung(h2, b) {
        YoungApart(h2, h, a, b);
      } else {
        MixedApart(h, a, b);
      }
    }
    ApartEverywhere(h.mem);
  }

  lemma ApartEverywhere(m: Memory)
    requires forall a, b :: a in m && b in m && a != b ==>
      (m[a].Live? && m[b].Live? ==> Apart(a, m[a].obj, b, m[b].obj))
    ensures NoOverlap(m)
  {
  }

  lemma OldApart(h2: Heap, srcs: seq<Addr>, dsts: seq<Addr>, h: Heap, a: Addr, b: Addr)
    requires PlanOk(h2.mem, srcs, dsts, h2.oldSpace.base) && Finished(h2, srcs, dsts, h)
    requires a in h.mem && b in h.mem && a != b && !IsYoung(h2, a) && !IsYoung(h2, b)
    ensures h.mem[a].Live? && h.mem[b].Live? && Apart(a, h.mem[a].obj, b, h.mem[b].obj)
  {
    var j := FinishedOld(h2, srcs, dsts, h, a);
    var k := FinishedOld(h2, srcs, dsts, h, b);
    hide PointsYoung, PlanNext, PlanDst, Top, Finished, PlanOk, Settled;
    if j < k {
      PlanApart(h2.mem, srcs, dsts, h2.oldSpace.base, j, k);
    } else {
      PlanApart(h2.mem, srcs, dsts, h2.oldSpace.base, k, j);
    }
  }

  lemma YoungApart(h2: Heap, h: Heap, a: Addr, b: Addr)
    requires NoOverlap(h2.mem) && a in h2.mem && b in h2.mem && a != b && h2.mem[a].Live? && h2.mem[b].Live?
    requires a in h.mem && b in h.mem && h.mem[a].Live? && h.mem[b].Live?
    requires h.mem[a].obj.NumSlots() == h2.mem[a].obj.NumSlots() && h.mem[b].obj.NumSlots() == h2.mem[b].obj.NumSlots()
    ensures Apart(a, h.mem[a].obj, b, h.mem[b].obj)
  {
    assert Apart(a, h2.mem[a].obj, b, h2.mem[b].obj);
  }

  lemma MixedApart(h: Heap, a: Addr, b: Addr)
    requires SpacesOk(h) && Placed(h) && a in h.mem && b in h.mem
    requires IsYoung(h, a) != IsYoung(h, b)
    ensures Apart(a, h.mem[a].obj, b, h.mem[b].obj)
  {
  }

  lemma FinishNoGaps(h0: Heap, h2: Heap, srcs: seq<Addr>, dsts: seq<Addr>, h: Heap)
    requires NoGaps(h0.mem, h0.young) && SameSizes(h0, h2) && Listed(h2.mem, srcs) && Finished(h2, srcs, dsts, h)
    ensures NoGaps(h.mem, h.young)
  {
    hide PointsYoung, PlanNext, PlanDst, Settled;
    assert HeadersIn(h.mem, h.young) == HeadersIn(h0.mem, h0.young);
    TotalSame(h.mem, h0.mem, HeadersIn(h0.mem, h0.young));
  }

  ghost function Members(s: seq<Addr>): set<Addr> {
    set a | a in s
  }

  ghost predicate Distinct(s: seq<Addr>) {
    forall j, k :: 0 <= j < k < |s| ==> s[j] != s[k]
  }

  lemma MembersSnoc(s: seq<Addr>)
    requires |s| > 0 && Distinct(s)
    ensures Distinct(s[..|s| - 1]) && s[|s| - 1] !in Members(s[..|s| - 1])
    ensures Members(s) == Members(s[..|s| - 1]) + {s[|s| - 1]}
  {
    assert s == s[..|s| - 1] + [s[|s| - 1]];
  }

  /** `dsts` holds copies of the objects listed in `srcs`. */
  ghost predicate SameFootprints(m0: Memory, srcs: seq<Addr>, m: Memory, dsts: seq<Addr>)
    requires Listed(m0, srcs)
  {
    && |dsts| == |srcs|
    && forall k :: 0 <= k < |srcs| ==> FootprintAt(m, dsts[k]) == m0[srcs[k]].obj.Footprint()
  }

  /** The footprints of the moved objects, added up in order. */
  lemma {:induction false} WordsTotal(m0: Memory, srcs: seq<Addr>, m: Memory, dsts: seq<Addr>)
    requires Listed(m0, srcs) && SameFootprints(m0, srcs, m, dsts) && Distinct(dsts)
    ensures Total(m, Members(dsts)) == Words(m0, srcs)
    decreases |srcs|
  {
    if |srcs| == 0 {
      assert Members(dsts) == {};
    } else {
      var last := |srcs| - 1;
      MembersSnoc(dsts);
      assert Listed(m0, srcs[..last]) && SameFootprints(m0, srcs[..last], m, dsts[..last]);
      hide Members, Distinct;
      WordsTotal(m0, srcs[..last], m, dsts[..last]);
      TotalAdd(m, Members(dsts[..last]), dsts[last]);
    }
  }

  /** Old space has no gap afterwards exactly when nothing moved has an overflow word. */
  lemma FinishOldNoGaps(h2: Heap, srcs: seq<Addr>, dsts: seq<Addr>, h: Heap)
    requires SlideArea(h2, srcs) && PlanOk(h2.mem, srcs, dsts, h2.oldSpace.base) && Finished(h2, srcs, dsts, h)
    requires forall k :: 0 <= k < |srcs| ==> IsOld(h2, dsts[k])
    ensures Listed(h2.mem, srcs) && (NoGaps(h.mem, h.oldSpace) <==> NoOverflow(h2.mem, srcs))
  {
    PlanNextSum(h2.mem, srcs, h2.oldSpace.base);
    OverflowsZero(h2.mem, srcs);
    hide PointsYoung, PlanDst, Words, Overflows, PlanNext;
    forall j, k | 0 <= j < k < |dsts|
      ensures dsts[j] != dsts[k]
    {
      PlanApart(h2.mem, srcs, dsts, h2.oldSpace.base, j, k);
    }
    FinishOldHeaders(h2, srcs, dsts, h);
    WordsTotal(h2.mem, srcs, h.mem, dsts);
  }

  lemma FinishOldHeaders(h2: Heap, srcs: seq<Addr>, dsts: seq<Addr>, h: Heap)
    requires SpacesOk(h2) && Listed(h2.mem, srcs) && Finished(h2, srcs, dsts, h)
    requires forall k :: 0 <= k < |srcs| ==> IsOld(h2, dsts[k])
    ensures HeadersIn(h.mem, h.oldSpace) == Members(dsts)
    ensures SameFootprints(h2.mem, srcs, h.mem, dsts)
  {
    hide PointsYoung, PlanNext, Top;
    forall a
      ensures a in HeadersIn(h.mem, h.oldSpace) <==> a in Members(dsts)
    {
      if a in Members(dsts) {
        var k :| 0 <= k < |dsts| && dsts[k] == a;
        assert IsOld(h2, dsts[k]);
      }
    }
  }

  lemma FinishBuffer(h0: Heap, h2: Heap, g: Heap, srcs: seq<Addr>, dsts: seq<Addr>, h: Heap)
    requires SpacesOk(h0) && BufferOk(h0) && SameSizes(h0, h2) && PlanOk(h2.mem, srcs, dsts, h2.oldSpace.base)
    requires Finished(h2, srcs, dsts, h) && Buffered(h2, srcs, dsts, |srcs|, h.ssb)
    requires forall k :: 0 <= k < |srcs| ==> IsOld(h0, dsts[k])
    ensures BufferOk(h)
  {
    hide PointsYoung, PlanDst, Top;
    forall a | a in h.mem
      ensures h.mem[a].Live? && (h.mem[a].obj.gc.remembered <==> a in h.ssb)
    {
      if IsYoung(h2, a) {
        assert !h0.mem[a].obj.gc.remembered;
      } else {
        var k :| 0 <= k < |dsts| && dsts[k] == a;
        assert h.mem[dsts[k]] == Live(Settled(h2, srcs[k]));
        TargetsDistinct(h2, srcs, dsts, k);
      }
    }
  }

  lemma TargetsDistinct(h2: Heap, srcs: seq<Addr>, dsts: seq<Addr>, k: nat)
    requires PlanOk(h2.mem, srcs, dsts, h2.oldSpace.base) && k < |srcs|
    ensures forall j :: 0 <= j < |srcs| && dsts[j] == dsts[k] ==> j == k
  {
    forall j | 0 <= j < |srcs| && j != k
      ensures dsts[j] != dsts[k]
    {
      if j < k {
        PlanApart(h2.mem, srcs, dsts, h2.oldSpace.base, j, k);
      } else {
        PlanApart(h2.mem, srcs, dsts, h2.oldSpace.base, k, j);
      }
    }
  }

  /** All the collector can reach afterwards are the new names of what was alive. */
  lemma FinishReached(h0: Heap, h: Heap, fwd: map<Addr, Addr>)
    requires Preserves(h0, h, fwd) && HeapOk(h0)
    requires forall n :: n in h.ssb ==> exists a :: Alive(h0, a) && Renamed(fwd, a) == n
    ensures forall b :: Tracks(h, b) ==> exists a :: Alive(h0, a) && Renamed(fwd, a) == b
    ensures NoDangling(h)
  {
    forall b | Tracks(h, b)
      ensures exists a :: Alive(h0, a) && Renamed(fwd, a) == b
    {
      var n: nat :| ReachableIn(h.mem, Starts(h), b, n);
      FinishReachedIn(h0, h, fwd, b, n);
    }
    forall b | Tracks(h, b)
      ensures b in h.mem
    {
      var a :| Alive(h0, a) && Renamed(fwd, a) == b;
      assert RenamesObj(h0, h, fwd, a);
    }
  }

  lemma {:induction false} FinishReachedIn(h0: Heap, h: Heap, fwd: map<Addr, Addr>, b: Addr, n: nat)
    requires Preserves(h0, h, fwd)
    requires forall x :: x in h.ssb ==> exists a :: Alive(h0, a) && Renamed(fwd, a) == x
    requires ReachableIn(h.mem, Starts(h), b, n)
    ensures exists a :: Alive(h0, a) && Renamed(fwd, a) == b
    decreases n
  {
    if n == 0 {
      if b !in h.ssb {
        assert ReachableIn(h.mem, RootAddrs(h), b, 0);
        AliveBackward(h0, h, fwd, b, 0);
      }
    } else {
      var c :| ReachableIn(h.mem, Starts(h), c, n - 1) && Edge(h.mem, c, b);
      FinishReachedIn(h0, h, fwd, c, n - 1);
      var a :| Alive(h0, a) && Renamed(fwd, a) == c;
      EdgeFromImage(h0, h, fwd, a, b);
    }
  }

  lemma EdgeFromImage(h0: Heap, h: Heap, fwd: map<Addr, Addr>, a: Addr, b: Addr)
    requires RenamesObj(h0, h, fwd, a) && Alive(h0, a) && Edge(h.mem, Renamed(fwd, a), b)
    ensures exists c :: Alive(h0, c) && Renamed(fwd, c) == b
  {
    var s0, s := h0.mem[a].obj.Refs(), h.mem[Renamed(fwd, a)].obj.Refs();
    var i :| 0 <= i < |s| && s[i] == Ptr(b);
    assert s[i] == Forwarded(fwd, s0[i]);
    assert Edge(h0.mem, a, s0[i].addr);
    ReachableEdge(h0.mem, RootAddrs(h0), a, s0[i].addr);
    assert Renamed(fwd, s0[i].addr) == b;
  }

  lemma FinishActive(h0: Heap, h: Heap, fwd: map<Addr, Addr>)
    requires ActiveOk(h0) && Preserves(h0, h, fwd)
    requires h.oldSpace.base == h0.oldSpace.base && h.oldSpace.words == h0.oldSpace.words
    requires forall a :: a in fwd ==> IsOld(h0, fwd[a])
    ensures ActiveOk(h)
  {
    AliveRoot(h0, h0.roots[0]);
    if HasActive(h) {
      AliveRoot(h0, h0.active);
      assert RenamesObj(h0, h, fwd, h0.active.addr);
    }
  }

  lemma FinishRemembered(h2: Heap, srcs: seq<Addr>, dsts: seq<Addr>, h: Heap)
    requires SpacesOk(h2) && Listed(h2.mem, srcs) && Finished(h2, srcs, dsts, h)
    requires Buffered(h2, srcs, dsts, |srcs|, h.ssb)
    ensures Remembered(h)
  {
    hide Top;
    forall a | a in h.mem && h.mem[a].Live? && IsOld(h, a) && PointsYoung(h, a)
      ensures a in h.ssb
    {
      var k :| 0 <= k < |dsts| && dsts[k] == a;
      assert h.mem[dsts[k]] == Live(Settled(h2, srcs[k]));
      SettledPointsYoung(h2, h, srcs[k], dsts[k]);
    }
  }

  lemma SettledPointsYoung(h2: Heap, h: Heap, src: Addr, dst: Addr)
    requires src in h2.mem && h2.mem[src].Live? && dst in h.mem && h.mem[dst] == Live(Settled(h2, src))
    requires h.young == h2.young && PointsYoung(h, dst)
    ensures PointsYoung(h2, src)
  {
    assert h.mem[dst].obj.Refs() == h2.mem[src].obj.Refs();
  }

  /** What was moved, and young space, are a heap in order; it has no gap exactly when nothing moved has an overflow word. */
  lemma CompactKeeps(h0: Heap, h1: Heap, h2: Heap, g: Heap, srcs: seq<Addr>, dsts: seq<Addr>, fwd: map<Addr, Addr>)
    requires Phases(h0, h1, h2, g, srcs, dsts, fwd)
    ensures h2.oldSpace.base <= Top(h2, srcs)
    ensures var h := Swept(Finish(g, Top(h2, srcs)), Members(dsts));
      HeapOk(h) && Preserves(h0, h, fwd) && (NoGaps(h.mem, h.oldSpace) <==> NoOverflow(h2.mem, srcs))
  {
    hide SameButMarks, Tidy, Buffered, Fixed, RenamesObj, RenamesRoots, SlideArea, SameSizes, PlanOk, Alive, Marked,
      NoOverflow, Finish, Preserves, Finished, NoGaps, NoOverlap, Remembered, NoDangling, Placed, ActiveOk, BufferOk,
      SpacesOk, PointsYoung, Settled, Swept, Members;
    FixedSizes(h0, h1, fwd, h2);
    SizesSpaces(h0, h2);
    PlanLists(h2, srcs, dsts);
    PhasesArea(h0, h2, srcs);
    TopBounds(h2, srcs, dsts);
    TargetsOld(h0, h2, srcs, dsts);
    CompactPreserves(h0, h1, h2, g, srcs, dsts, fwd);
    FinishShape(h2, g, srcs, dsts);
    var f := Finish(g, Top(h2, srcs));
    var h := Swept(f, Members(dsts));
    FinishSpaces(g, Top(h2, srcs));
    FinishYoungSpaces(g, Top(h2, srcs));
    SweptRoots(f, Members(dsts));
    SweptPreserves(h0, f, srcs, dsts, fwd);
    FinishLayout(h2, srcs, dsts, h);
    FinishApart(h2, srcs, dsts, h);
    FinishNoGaps(h0, h2, srcs, dsts, h);
    FinishOldNoGaps(h2, srcs, dsts, h);
    FinishBuffer(h0, h2, g, srcs, dsts, h);
    BufferedImages(h0, h2, srcs, dsts, fwd, h.ssb);
    FinishReached(h0, h, fwd);
    TableOld(h0, srcs, dsts, fwd);
    FinishActive(h0, h, fwd);
    AreaSpaces(h2, srcs);
    FinishRemembered(h2, srcs, dsts, h);
  }

  lemma FinishSpaces(g: Heap, next: Addr)
    requires g.oldSpace.base <= next
    requires forall a :: a in g.mem ==> g.mem[a].Live?
    ensures var h := Finish(g, next);
      h.ssb == g.ssb && h.spare == g.spare && h.oldSpace.base == g.oldSpace.base && h.oldSpace.words == g.oldSpace.words
  {
  }

  lemma AreaSpaces(h2: Heap, srcs: seq<Addr>)
    requires SlideArea(h2, srcs)
    ensures SpacesOk(h2)
  {
  }

  lemma TableOld(h0: Heap, srcs: seq<Addr>, dsts: seq<Addr>, fwd: map<Addr, Addr>)
    requires TableOk(srcs, dsts, fwd) && forall k :: 0 <= k < |srcs| ==> IsOld(h0, dsts[k])
    ensures forall a :: a in fwd ==> IsOld(h0, fwd[a])
  {
    forall a | a in fwd
      ensures IsOld(h0, fwd[a])
    {
      var k :| 0 <= k < |srcs| && srcs[k] == a;
    }
  }

  lemma BufferedImages(h0: Heap, h2: Heap, srcs: seq<Addr>, dsts: seq<Addr>, fwd: map<Addr, Addr>, ssb: seq<Addr>)
    requires Listed(h2.mem, srcs) && TableOk(srcs, dsts, fwd) && Buffered(h2, srcs, dsts, |srcs|, ssb)
    requires forall a :: a in srcs ==> Alive(h0, a)
    ensures forall n :: n in ssb ==> exists a :: Alive(h0, a) && Renamed(fwd, a) == n
  {
    forall n | n in ssb
      ensures exists a :: Alive(h0, a) && Renamed(fwd, a) == n
    {
      var j :| 0 <= j < |srcs| && dsts[j] == n && PointsYoung(h2, srcs[j]);
      assert srcs[j] in srcs;
      assert Alive(h0, srcs[j]) && Renamed(fwd, srcs[j]) == n;
    }
  }

  // ---------- the relation a compaction establishes ----------

  ghost function LiveOld(h: Heap): set<Addr> {
    set a | a in h.mem && Alive(h, a) && IsOld(h, a)
  }

  ghost function OldBelow(h: Heap, a: Addr): set<Addr> {
    set b | b in LiveOld(h) && b < a
  }

  /** Words of the live old objects below `a`. */
  ghost function LiveBelow(h: Heap, a: Addr): nat {
    Total(h.mem, OldBelow(h, a))
  }

  ghost predicate NoLiveOverflow(h: Heap) {
    forall a :: a in LiveOld(h) && h.mem[a].Live? ==> h.mem[a].obj.Extra() == 0
  }

  /** `objs` lists the live old objects in address order. */
  ghost predicate ListsLive(h: Heap, objs: seq<Addr>) {
    Rising(objs) && (forall a :: a in objs <==> a in LiveOld(h)) && Listed(h.mem, objs)
  }

  /** What the compaction as written needs, and no more: no live object's target, the overflow words below it counted twice,
      reaches into a live object above it, and all of it ends below the top of old space. */
  ghost predicate RoomForOverflow(h: Heap) {
    forall objs :: ListsLive(h, objs) ==>
      && (forall k, j :: 0 <= k < j < |objs| ==> Misses(h.mem, objs, h.oldSpace.base, k, j))
      && Words(h.mem, objs) + Overflows(h.mem, objs) <= h.oldSpace.alloc
  }

  /** There are as many dead words below each live old object as live overflow words. */
  ghost predicate NeverRight(h: Heap) {
    forall objs :: ListsLive(h, objs) ==>
      forall k :: 0 <= k < |objs| ==> Overflows(h.mem, objs[..k]) <= Slack(h.mem, objs, h.oldSpace.base, k)
  }

  /** Live old objects keep their order and stay in old space; with enough dead words below them they move left or not at
      all; without overflow words each lands right after the live objects below it. */
  ghost predicate Compacted(h0: Heap, h: Heap, fwd: map<Addr, Addr>) {
    && Preserves(h0, h, fwd)
    && fwd.Keys == LiveOld(h0)
    && (forall a :: a in fwd ==> IsOld(h0, fwd[a]))
    && (NeverRight(h0) ==> forall a :: a in fwd ==> fwd[a] <= a)
    && (forall a, b :: a in fwd && b in fwd && a < b ==> fwd[a] < fwd[b])
    && (NoLiveOverflow(h0) ==> forall a :: a in fwd ==> fwd[a] == h0.oldSpace.base + LiveBelow(h0, a))
    && h.young == h0.young && h.spare == h0.spare
  }

  lemma SameSizesWords(h0: Heap, h2: Heap, objs: seq<Addr>)
    requires SameSizes(h0, h2) && Listed(h0.mem, objs)
    ensures Listed(h2.mem, objs)
    ensures PlanNext(h2.mem, objs, h2.oldSpace.base) == PlanNext(h0.mem, objs, h0.oldSpace.base)
    ensures Words(h2.mem, objs) == Words(h0.mem, objs)
    decreases |objs|
  {
    if |objs| > 0 {
      SameSizesWords(h0, h2, objs[..|objs| - 1]);
    }
  }

  /** The words planned before object `k` are those of the live objects below it. */
  lemma PlannedBelow(h0: Heap, srcs: seq<Addr>, k: nat)
    requires ListsLive(h0, srcs) && k < |srcs|
    ensures Words(h0.mem, srcs[..k]) == LiveBelow(h0, srcs[k])
  {
    var below := OldBelow(h0, srcs[k]);
    forall b | b in below
      ensures b in Members(srcs[..k])
    {
      assert b in srcs;
      var j :| 0 <= j < |srcs| && srcs[j] == b;
      assert j < k;
      assert b == srcs[..k][j];
    }
    forall b | b in Members(srcs[..k])
      ensures b in below
    {
      var j :| 0 <= j < k && srcs[..k][j] == b;
      assert b == srcs[j] && b in srcs;
    }
    assert Members(srcs[..k]) == below;
    WordsTotal(h0.mem, srcs[..k], h0.mem, srcs[..k]);
  }

  lemma CompactAddress(h0: Heap, h2: Heap, srcs: seq<Addr>, dsts: seq<Addr>, k: nat)
    requires ListsLive(h0, srcs) && SameSizes(h0, h2) && PlanOk(h2.mem, srcs, dsts, h2.oldSpace.base) && k < |srcs|
    requires NoOverflow(h2.mem, srcs)
    ensures dsts[k] == h0.oldSpace.base + LiveBelow(h0, srcs[k])
  {
    PlanContiguous(h2.mem, srcs, dsts, h2.oldSpace.base, k);
    SameSizesWords(h0, h2, srcs[..k]);
    PlanNextSum(h2.mem, srcs[..k], h2.oldSpace.base);
    OverflowsZero(h2.mem, srcs[..k]);
    PlannedBelow(h0, srcs, k);
  }

  lemma CompactMoves(h0: Heap, h2: Heap, srcs: seq<Addr>, dsts: seq<Addr>, fwd: map<Addr, Addr>)
    requires ListsLive(h0, srcs) && SameSizes(h0, h2) && TableOk(srcs, dsts, fwd)
    requires PlanOk(h2.mem, srcs, dsts, h2.oldSpace.base)
    requires forall k :: 0 <= k < |srcs| ==> IsOld(h0, dsts[k])
    ensures fwd.Keys == LiveOld(h0)
    ensures forall a :: a in fwd ==> IsOld(h0, fwd[a])
    ensures NeverRight(h0) ==> forall a :: a in fwd ==> fwd[a] <= a
    ensures forall a, b :: a in fwd && b in fwd && a < b ==> fwd[a] < fwd[b]
  {
    hide PlanDst, LiveOld, NeverRight, Clear;
    forall a | a in fwd
      ensures IsOld(h0, fwd[a]) && (NeverRight(h0) ==> fwd[a] <= a)
    {
      var k :| 0 <= k < |srcs| && srcs[k] == a;
      if NeverRight(h0) {
        NotRight(h0, h2, srcs, dsts, k);
      }
    }
    forall a, b | a in fwd && b in fwd && a < b
      ensures fwd[a] < fwd[b]
    {
      var j :| 0 <= j < |srcs| && srcs[j] == a;
      var k :| 0 <= k < |srcs| && srcs[k] == b;
      PlanApart(h2.mem, srcs, dsts, h2.oldSpace.base, j, k);
    }
  }

  lemma NotRight(h0: Heap, h2: Heap, srcs: seq<Addr>, dsts: seq<Addr>, k: nat)
    requires ListsLive(h0, srcs) && SameSizes(h0, h2) && NeverRight(h0)
    requires PlanShape(h2.mem, srcs, dsts, h2.oldSpace.base) && k < |srcs|
    ensures dsts[k] <= srcs[k]
  {
    hide PlanNext, Words, Overflows, Slack;
    NeverRightIff(h0.mem, srcs, h0.oldSpace.base);
    SameSizesWords(h0, h2, srcs[..k]);
    SameExtra(h0, h2, srcs[k]);
    assert dsts[k] == PlanDst(h2.mem, srcs, h2.oldSpace.base, k) == PlanDst(h0.mem, srcs, h0.oldSpace.base, k);
  }

  lemma CompactAddresses(h0: Heap, h2: Heap, srcs: seq<Addr>, dsts: seq<Addr>, fwd: map<Addr, Addr>)
    requires ListsLive(h0, srcs) && SameSizes(h0, h2) && TableOk(srcs, dsts, fwd)
    requires PlanOk(h2.mem, srcs, dsts, h2.oldSpace.base)
    requires NoOverflow(h2.mem, srcs)
    ensures forall a :: a in fwd ==> fwd[a] == h0.oldSpace.base + LiveBelow(h0, a)
  {
    hide PlanDst, LiveOld, LiveBelow;
    forall a | a in fwd
      ensures fwd[a] == h0.oldSpace.base + LiveBelow(h0, a)
    {
      var k :| 0 <= k < |srcs| && srcs[k] == a;
      CompactAddress(h0, h2, srcs, dsts, k);
    }
  }

  lemma OverflowSame(h0: Heap, h2: Heap, srcs: seq<Addr>)
    requires ListsLive(h0, srcs) && SameSizes(h0, h2)
    ensures Listed(h2.mem, srcs) && (NoLiveOverflow(h0) <==> NoOverflow(h2.mem, srcs))
  {
    forall k | 0 <= k < |srcs|
      ensures srcs[k] in LiveOld(h0)
    {
      assert srcs[k] in srcs;
    }
    if NoOverflow(h2.mem, srcs) {
      forall a | a in LiveOld(h0) && h0.mem[a].Live?
        ensures h0.mem[a].obj.Extra() == 0
      {
        assert a in srcs;
      }
    }
  }

  lemma PhasesLists(h0: Heap, srcs: seq<Addr>)
    requires HeapOk(h0) && Rising(srcs) && forall a :: a in srcs <==> Alive(h0, a) && IsOld(h0, a)
    ensures ListsLive(h0, srcs)
  {
    hide HeapOk;
    forall a | Alive(h0, a)
      ensures a in h0.mem && h0.mem[a].Live?
    {
      AliveIn(h0, a);
    }
    forall k | 0 <= k < |srcs|
      ensures srcs[k] in h0.mem && h0.mem[srcs[k]].Live?
    {
      assert srcs[k] in srcs;
    }
  }

  /** What one compaction does, with all its phases. Without the headers left behind in gaps the heap is in order and the
      graph is preserved; old space has no gap, and nothing is left behind, exactly when no live object has an overflow word. */
  ghost predicate Compacts(h0: Heap, h: Heap, fwd: map<Addr, Addr>) {
    && Compacted(h0, h, fwd)
    && var t := Swept(h, fwd.Values);
       && HeapOk(t) && Preserves(h0, t, fwd)
       && (NoGaps(t.mem, t.oldSpace) <==> NoLiveOverflow(h0)) && (NoLiveOverflow(h0) ==> t == h)
  }

  lemma CompactEnds(h0: Heap, h1: Heap, h2: Heap, g: Heap, srcs: seq<Addr>, dsts: seq<Addr>, fwd: map<Addr, Addr>)
    requires Phases(h0, h1, h2, g, srcs, dsts, fwd)
    ensures h2.oldSpace.base <= Top(h2, srcs)
    ensures Compacts(h0, Finish(g, Top(h2, srcs)), fwd)
  {
    hide HeapOk, SameButMarks, Tidy, Buffered, Fixed, TableOk, SlideArea, SameSizes, Alive, Marked,
      NoOverflow, Finish, Preserves, NoGaps, ListsLive, LiveOld, NoLiveOverflow, LiveBelow, Swept, Members;
    FixedSizes(h0, h1, fwd, h2);
    SizesSpaces(h0, h2);
    PhasesArea(h0, h2, srcs);
    PhasesLists(h0, srcs);
    TargetsOld(h0, h2, srcs, dsts);
    CompactPreserves(h0, h1, h2, g, srcs, dsts, fwd);
    CompactMoves(h0, h2, srcs, dsts, fwd);
    OverflowSame(h0, h2, srcs);
    FinishYoungSpaces(g, Top(h2, srcs));
    TableValues(srcs, dsts, fwd);
    CompactKeeps(h0, h1, h2, g, srcs, dsts, fwd);
    if NoLiveOverflow(h0) {
      CompactAddresses(h0, h2, srcs, dsts, fwd);
      NothingStale(h2, g, srcs, dsts);
    }
  }

  lemma TableValues(srcs: seq<Addr>, dsts: seq<Addr>, fwd: map<Addr, Addr>)
    requires TableOk(srcs, dsts, fwd)
    ensures fwd.Values == Members(dsts)
  {
    forall d | d in fwd.Values
      ensures d in Members(dsts)
    {
      var a :| a in fwd && fwd[a] == d;
      var k :| 0 <= k < |srcs| && srcs[k] == a;
    }
    forall d | d in Members(dsts)
      ensures d in fwd.Values
    {
      var k :| 0 <= k < |dsts| && dsts[k] == d;
      assert srcs[k] in fwd && fwd[srcs[k]] == d;
    }
  }

  lemma FinishYoungSpaces(g: Heap, next: Addr)
    requires g.oldSpace.base <= next
    requires forall a :: a in g.mem ==> g.mem[a].Live?
    ensures Finish(g, next).young == g.young && Finish(g, next).spare == g.spare
  {
  }

  /** Without overflow words there is always room, and nothing moves right. */
  lemma NoOverflowRoom(h: Heap)
    requires HeapOk(h) && NoLiveOverflow(h)
    ensures RoomForOverflow(h) && NeverRight(h)
  {
    hide HeapOk, NoLiveOverflow, Words, Overflows, Slack, Misses, ListsLive;
    forall objs | ListsLive(h, objs)
      ensures Listed(h.mem, objs)
      ensures forall k :: 0 <= k < |objs| ==> Overflows(h.mem, objs[..k]) <= Slack(h.mem, objs, h.oldSpace.base, k)
      ensures forall k, j :: 0 <= k < j < |objs| ==> Misses(h.mem, objs, h.oldSpace.base, k, j)
      ensures Words(h.mem, objs) + Overflows(h.mem, objs) <= h.oldSpace.alloc
    {
      NoneListed(h, objs);
      forall k, j | 0 <= k < j < |objs|
        ensures Misses(h.mem, objs, h.oldSpace.base, k, j)
      {
        WordsGrow(h.mem, objs, k + 1, j);
        MissesLeft(h.mem, objs, h.oldSpace.base, k, j);
      }
    }
  }

  lemma NoneListed(h: Heap, objs: seq<Addr>)
    requires HeapOk(h) && NoLiveOverflow(h) && ListsLive(h, objs)
    ensures Listed(h.mem, objs) && Words(h.mem, objs) + Overflows(h.mem, objs) <= h.oldSpace.alloc
    ensures forall k :: 0 <= k < |objs| ==> Overflows(h.mem, objs[..k]) == 0 <= Slack(h.mem, objs, h.oldSpace.base, k)
  {
    hide HeapOk, NoLiveOverflow, Words, Overflows, Slack;
    ListedNoOverflow(h, objs);
    OverflowsZero(h.mem, objs);
    ListedWords(h, objs);
    forall k | 0 <= k < |objs|
      ensures Overflows(h.mem, objs[..k]) == 0 <= Slack(h.mem, objs, h.oldSpace.base, k)
    {
      OverflowsZero(h.mem, objs[..k]);
      ListedFits(h, objs, k);
      SlackIs(h.mem, objs, h.oldSpace.base, k);
    }
  }

  lemma {:induction false} WordsGrow(m: Memory, objs: seq<Addr>, j: nat, k: nat)
    requires Listed(m, objs) && j <= k <= |objs|
    ensures Words(m, objs[..j]) <= Words(m, objs[..k])
    decreases k
  {
    if j < k {
      WordsGrow(m, objs, j, k - 1);
      assert objs[..k][..k - 1] == objs[..k - 1];
    }
  }

  lemma MissesLeft(m: Memory, objs: seq<Addr>, base: Addr, k: nat, j: nat)
    requires Listed(m, objs) && k < j < |objs|
    requires Overflows(m, objs[..k]) <= Slack(m, objs, base, j) && Words(m, objs[..k + 1]) <= Words(m, objs[..j])
    ensures Misses(m, objs, base, k, j)
  {
  }

  lemma SlackIs(m: Memory, objs: seq<Addr>, base: Addr, k: nat)
    requires Listed(m, objs) && k < |objs|
    ensures Slack(m, objs, base, k) == objs[k] - m[objs[k]].obj.Extra() - base - Words(m, objs[..k])
  {
  }

  lemma ListedWords(h: Heap, objs: seq<Addr>)
    requires HeapOk(h) && ListsLive(h, objs)
    ensures Words(h.mem, objs) <= h.oldSpace.alloc
  {
    if |objs| > 0 {
      var k := |objs| - 1;
      ListedFits(h, objs, k);
      assert objs[k] in objs;
      hide Remembered, NoGaps, BufferOk, ActiveOk, NoDangling, Alive, NoOverlap;
      AliveIn(h, objs[k]);
    }
  }

  lemma ListedNoOverflow(h: Heap, objs: seq<Addr>)
    requires ListsLive(h, objs) && NoLiveOverflow(h)
    ensures NoOverflow(h.mem, objs)
  {
    forall k | 0 <= k < |objs|
      ensures objs[k] in LiveOld(h)
    {
      assert objs[k] in objs;
    }
  }

  /** The live objects before the one at `k` lie below it. */
  lemma {:induction false} ListedFits(h: Heap, objs: seq<Addr>, k: nat)
    requires HeapOk(h) && ListsLive(h, objs) && k < |objs|
    ensures h.oldSpace.base + Words(h.mem, objs[..k]) + h.mem[objs[k]].obj.Extra() <= objs[k]
  {
    hide Remembered, NoGaps, BufferOk, ActiveOk, NoDangling, Alive;
    assert objs[k] in objs;
    AliveIn(h, objs[k]);
    if k > 0 {
      ListedFits(h, objs, k - 1);
      assert objs[..k][..k - 1] == objs[..k - 1];
      assert Apart(objs[k - 1], h.mem[objs[k - 1]].obj, objs[k], h.mem[objs[k]].obj);
    }
  }

  /** A fully live prefix of old space stays in place: nil, true and false, which are roots, keep their addresses. */
  lemma LivePrefixStays(h0: Heap, h: Heap, fwd: map<Addr, Addr>, a: Addr)
    requires HeapOk(h0) && NoGaps(h0.mem, h0.oldSpace) && Compacted(h0, h, fwd) && NoLiveOverflow(h0)
    requires a in LiveOld(h0) && forall b :: b in h0.mem && IsOld(h0, b) && b < a ==> Alive(h0, b)
    ensures Renamed(fwd, a) == a
  {
    hide Remembered, BufferOk, ActiveOk, NoDangling, Alive, Preserves, Total;
    var m, s := h0.mem, h0.oldSpace;
    var all := HeadersIn(m, s);
    var below := Under(all, a);
    assert below == OldBelow(h0, a);
    PrefixPacked(h0, a);
    PackedTotal(m, below, s.base, a);
    PackedTotal(m, all - below, a, s.Top());
    assert below + (all - below) == all;
    TotalUnion(m, below, all - below);
  }

  lemma PrefixPacked(h0: Heap, a: Addr)
    requires HeapOk(h0) && NoLiveOverflow(h0) && a in LiveOld(h0)
    ensures var all := HeadersIn(h0.mem, h0.oldSpace);
      Packed(h0.mem, Under(all, a), h0.oldSpace.base, a) && Packed(h0.mem, all - Under(all, a), a, h0.oldSpace.Top())
  {
    hide Remembered, BufferOk, ActiveOk, NoDangling, Alive, NoGaps;
    assert h0.mem[a].obj.Extra() == 0;
    forall b | b in HeadersIn(h0.mem, h0.oldSpace) && b != a
      ensures Apart(a, h0.mem[a].obj, b, h0.mem[b].obj) && InUsed(h0.oldSpace, b, h0.mem[b].obj)
    {
    }
  }

  // ---------- joining the phases ----------

  ghost predicate MarksStay(h: Heap, h': Heap) {
    forall a :: Marked(h, a) ==> Marked(h', a)
  }

  lemma MarksStayRefl(h: Heap)
    ensures MarksStay(h, h)
  {
  }

  lemma MarksStayAll(h: Heap, h': Heap)
    requires MarksStay(h, h')
    ensures forall a :: Marked(h, a) ==> Marked(h', a)
  {
    hide Marked;
  }

  lemma MarksStayTrans(h: Heap, h1: Heap, h2: Heap)
    requires MarksStay(h, h1) && MarksStay(h1, h2)
    ensures MarksStay(h, h2)
  {
    hide Marked;
  }

  lemma MarkStart(h0: Heap)
    requires HeapOk(h0)
    ensures MarkOk(h0, h0, [] + [])
  {
    hide Remembered, NoOverlap, NoGaps, BufferOk, ActiveOk, NoDangling, Alive;
    assert forall a :: !Marked(h0, a);
  }

  lemma MarkRoot(h0: Heap, v: Value)
    requires HeapOk(h0) && (v in h0.roots || v == h0.active)
    ensures v.Ptr? ==> Alive(h0, v.addr) && v.addr in h0.mem && (IsYoung(h0, v.addr) || IsOld(h0, v.addr))
  {
    hide HeapOk;
    if v.Ptr? {
      AliveRoot(h0, v);
      AliveIn(h0, v.addr);
    }
  }

  lemma MarkedRoots(h0: Heap, h: Heap)
    requires forall j :: 0 <= j < |h0.roots| && h0.roots[j].Ptr? ==> Marked(h, h0.roots[j].addr)
    requires h0.active.Ptr? ==> Marked(h, h0.active.addr)
    ensures forall a :: a in RootAddrs(h0) ==> Marked(h, a)
  {
    hide Marked;
    forall a | a in RootAddrs(h0)
      ensures Marked(h, a)
    {
      if h0.active != Ptr(a) {
        var v :| v in h0.roots && v == Ptr(a);
        var j :| 0 <= j < |h0.roots| && h0.roots[j] == v;
      }
    }
  }

  lemma MarkTop(h0: Heap, h: Heap, stack: seq<Addr>)
    requires MarkOk(h0, h, stack) && |stack| > 0
    ensures Marked(h, stack[|stack| - 1])
    ensures MarkOk(h0, h, [stack[|stack| - 1]] + stack[..|stack| - 1])
  {
    hide Marked, Alive, Edge;
    var t := [stack[|stack| - 1]] + stack[..|stack| - 1];
    assert stack == stack[..|stack| - 1] + [stack[|stack| - 1]];
    assert forall a :: a in t <==> a in stack;
  }

  lemma MarkedRefs(h0: Heap, h: Heap, stack: seq<Addr>, b: Addr)
    requires HeapOk(h0) && MarkOk(h0, h, stack) && Marked(h, b)
    ensures b in h0.mem && h0.mem[b].Live? && h.mem[b].obj.Refs() == h0.mem[b].obj.Refs()
    ensures forall v :: v in h.mem[b].obj.Refs() && v.Ptr? ==>
      Alive(h0, v.addr) && v.addr in h0.mem && (IsYoung(h0, v.addr) || IsOld(h0, v.addr))
  {
    hide HeapOk;
    forall v | v in h.mem[b].obj.Refs() && v.Ptr?
      ensures Alive(h0, v.addr) && v.addr in h0.mem && (IsYoung(h0, v.addr) || IsOld(h0, v.addr))
    {
      assert Edge(h0.mem, b, v.addr);
      ReachableEdge(h0.mem, RootAddrs(h0), b, v.addr);
      AliveIn(h0, v.addr);
    }
  }

  lemma MarkedSlots(h0: Heap, h: Heap, b: Addr, stack: seq<Addr>, refs: seq<Value>)
    requires MarkOk(h0, h, [b] + stack)
    requires b in h0.mem && h0.mem[b].Live? && refs == h0.mem[b].obj.Refs()
    requires forall j :: 0 <= j < |refs| && refs[j].Ptr? ==> Marked(h, refs[j].addr)
    ensures MarkOk(h0, h, stack)
  {
    hide Marked, Alive;
    forall a, c | Marked(h, a) && a !in stack && Edge(h0.mem, a, c)
      ensures Marked(h, c)
    {
      if a == b {
        var j :| 0 <= j < |refs| && refs[j] == Ptr(c);
      } else {
        assert a !in [b] + stack;
      }
    }
  }

  lemma MarkSame(h0: Heap, h: Heap)
    requires MarkOk(h0, h, [])
    ensures SameButMarks(h0, h)
  {
  }

  /** A plan under construction: the forwarding table, the moves and the next free address. */
  ghost predicate Planned(m: Memory, srcs: seq<Addr>, dsts: seq<Addr>, base: Addr, fwd: map<Addr, Addr>, next: Addr) {
    && Listed(m, srcs) && TableOk(srcs, dsts, fwd) && |dsts| == |srcs|
    && (forall k :: 0 <= k < |srcs| ==> dsts[k] == PlanDst(m, srcs, base, k))
    && next == PlanNext(m, srcs, base)
  }

  lemma PlanSnoc(m: Memory, srcs: seq<Addr>, dsts: seq<Addr>, base: Addr, fwd: map<Addr, Addr>, next: Addr, b: Addr)
    requires Planned(m, srcs, dsts, base, fwd, next) && b in m && m[b].Live? && b !in srcs
    ensures var dst := next + m[b].obj.Extra();
      Planned(m, srcs + [b], dsts + [dst], base, fwd[b := dst], next + m[b].obj.Extra() + m[b].obj.Footprint())
  {
    assert (srcs + [b])[..|srcs|] == srcs;
    forall k | 0 <= k < |srcs|
      ensures (srcs + [b])[..k] == srcs[..k]
    {
    }
    forall k | 0 <= k < |srcs| + 1
      ensures (dsts + [next + m[b].obj.Extra()])[k] == PlanDst(m, srcs + [b], base, k)
    {
      hide PlanNext, TableOk;
    }
  }

  lemma PlanNone(m: Memory, base: Addr)
    ensures Planned(m, [], [], base, map[], base)
  {
  }

  /** The plan of the marked heap is a plan of the fixed one. */
  lemma PlanShaped(h0: Heap, h1: Heap, h2: Heap, srcs: seq<Addr>, dsts: seq<Addr>, fwd: map<Addr, Addr>, next: Addr)
    requires SameSizes(h0, h1) && SameSizes(h0, h2) && ListsLive(h0, srcs)
    requires Planned(h1.mem, srcs, dsts, h1.oldSpace.base, fwd, next)
    ensures PlanShape(h2.mem, srcs, dsts, h2.oldSpace.base) && PlanShape(h0.mem, srcs, dsts, h0.oldSpace.base)
    ensures next == Top(h2, srcs) == h0.oldSpace.base + Words(h0.mem, srcs) + Overflows(h0.mem, srcs)
  {
    hide PlanNext, Words, Overflows, TableOk;
    var m, base := h0.mem, h0.oldSpace.base;
    PlanNextSum(m, srcs, base);
    SameSizesWords(h0, h1, srcs);
    SameSizesWords(h0, h2, srcs);
    forall k | 0 <= k < |srcs|
      ensures dsts[k] == PlanDst(h2.mem, srcs, h2.oldSpace.base, k) == PlanDst(m, srcs, base, k)
    {
      SameSizesWords(h0, h1, srcs[..k]);
      SameSizesWords(h0, h2, srcs[..k]);
      SameExtra(h0, h1, srcs[k]);
      SameExtra(h0, h2, srcs[k]);
    }
  }

  /** The slide clears its way exactly when there is room. */
  lemma RoomIff(h0: Heap, h2: Heap, srcs: seq<Addr>, dsts: seq<Addr>)
    requires SameSizes(h0, h2) && ListsLive(h0, srcs) && PlanShape(h0.mem, srcs, dsts, h0.oldSpace.base)
    requires PlanShape(h2.mem, srcs, dsts, h2.oldSpace.base)
    requires Top(h2, srcs) == h0.oldSpace.base + Words(h0.mem, srcs) + Overflows(h0.mem, srcs)
    ensures RoomForOverflow(h0) <==> PlanOk(h2.mem, srcs, dsts, h2.oldSpace.base) && Top(h2, srcs) <= h2.oldSpace.Top()
  {
    hide PlanNext, Words, Overflows, Slack, Misses, PlanShape, Clear, Top;
    ShapeLists(h0.mem, srcs, dsts, h0.oldSpace.base);
    ShapeLists(h2.mem, srcs, dsts, h2.oldSpace.base);
    forall k: nat, j: nat | k < j < |srcs|
      ensures Misses(h0.mem, srcs, h0.oldSpace.base, k, j) <==> Clear(h2.mem, srcs, dsts, k, j)
    {
      MissesIff(h0.mem, srcs, dsts, h0.oldSpace.base, k, j);
      SameClear(h0, h2, srcs, dsts, k, j);
    }
    forall objs | ListsLive(h0, objs)
      ensures objs == srcs
    {
      OneList(objs, srcs);
    }
  }

  lemma ShapeLists(m: Memory, srcs: seq<Addr>, dsts: seq<Addr>, base: Addr)
    requires PlanShape(m, srcs, dsts, base)
    ensures Listed(m, srcs) && Rising(srcs) && |dsts| == |srcs|
  {
  }

  lemma SameClear(h0: Heap, h2: Heap, srcs: seq<Addr>, dsts: seq<Addr>, k: nat, j: nat)
    requires SameSizes(h0, h2) && Listed(h0.mem, srcs) && Listed(h2.mem, srcs) && |dsts| == |srcs| && k < j < |srcs|
    ensures Clear(h0.mem, srcs, dsts, k, j) <==> Clear(h2.mem, srcs, dsts, k, j)
  {
  }

  lemma LastIsLargest(s: seq<Addr>)
    requires Rising(s) && |s| > 0
    ensures s[|s| - 1] in s && forall a :: a in s ==> a <= s[|s| - 1]
    ensures Rising(s[..|s| - 1]) && forall a :: a in s[..|s| - 1] <==> a in s && a != s[|s| - 1]
  {
    assert s == s[..|s| - 1] + [s[|s| - 1]];
  }

  /** There is one way to list a set in order. */
  lemma {:induction false} OneList(s: seq<Addr>, t: seq<Addr>)
    requires Rising(s) && Rising(t) && forall a :: a in s <==> a in t
    ensures s == t
    decreases |s|
  {
    if |s| > 0 {
      LastIsLargest(s);
    }
    if |t| > 0 {
      LastIsLargest(t);
    }
    if |s| > 0 && |t| > 0 {
      assert s[|s| - 1] in t && t[|t| - 1] in s;
      assert s[|s| - 1] == t[|t| - 1];
      var s', t' := s[..|s| - 1], t[..|t| - 1];
      assert Rising(s') && Rising(t');
      forall a: Addr
        ensures a in s' <==> a in t'
      {
        assert a in s <==> a in t;
      }
      OneList(s', t');
      assert s == s[..|s| - 1] + [s[|s| - 1]] && t == t[..|t| - 1] + [t[|t| - 1]];
    }
  }

  lemma PlanReady(h0: Heap, h1: Heap, h2: Heap, srcs: seq<Addr>, dsts: seq<Addr>, fwd: map<Addr, Addr>, next: Addr)
    requires SameSizes(h0, h1) && SameSizes(h0, h2) && ListsLive(h0, srcs) && RoomForOverflow(h0)
    requires Planned(h1.mem, srcs, dsts, h1.oldSpace.base, fwd, next)
    ensures PlanOk(h2.mem, srcs, dsts, h2.oldSpace.base) && next == Top(h2, srcs) && next <= h2.oldSpace.Top()
  {
    hide PlanNext, Words, Overflows, Slack, RoomForOverflow, TableOk, SameSizes, PlanDst;
    PlanShaped(h0, h1, h2, srcs, dsts, fwd, next);
    RoomIff(h0, h2, srcs, dsts);
  }

  lemma SameExtra(h0: Heap, h2: Heap, a: Addr)
    requires SameSizes(h0, h2) && a in h0.mem
    ensures h0.mem[a].Live? && h2.mem[a].Live? && h2.mem[a].obj.Extra() == h0.mem[a].obj.Extra()
  {
  }

  lemma MarkSizes(h0: Heap, h1: Heap)
    requires SameButMarks(h0, h1)
    ensures SameSizes(h0, h1)
  {
  }

  /** Marking leaves both spaces walkable. */
  lemma MarkedWalkable(h0: Heap, h1: Heap, s: Space)
    requires HeapOk(h0) && NoGaps(h0.mem, s) && SameSizes(h0, h1) && (s == h0.young || s == h0.oldSpace)
    ensures Walkable(h1.mem, s) && s.alloc <= s.words
  {
    hide Remembered, BufferOk, ActiveOk, NoDangling, Placed, InUsed, NoOverlap, NoGaps;
    SpaceUsed(h0, s);
    SizesNoOverlap(h0, h1);
    SizesNoGaps(h0, h1, s);
    forall a | a in h1.mem && s.Contains(a)
      ensures h1.mem[a].Live? && InUsed(s, a, h1.mem[a].obj)
    {
      SameExtent(h0, h1, s, a);
    }
  }

  lemma SizesNoGaps(h0: Heap, h1: Heap, s: Space)
    requires NoGaps(h0.mem, s) && SameSizes(h0, h1)
    ensures NoGaps(h1.mem, s)
  {
    assert HeadersIn(h1.mem, s) == HeadersIn(h0.mem, s);
    TotalSame(h0.mem, h1.mem, HeadersIn(h0.mem, s));
  }

  lemma SpaceUsed(h: Heap, s: Space)
    requires SpacesOk(h) && Placed(h) && (s == h.young || s == h.oldSpace)
    ensures forall a :: a in h.mem && s.Contains(a) ==> h.mem[a].Live? && InUsed(s, a, h.mem[a].obj)
  {
  }

  lemma SameExtent(h0: Heap, h1: Heap, s: Space, a: Addr)
    requires SameSizes(h0, h1) && a in h0.mem && h0.mem[a].Live? && InUsed(s, a, h0.mem[a].obj)
    ensures h1.mem[a].Live? && InUsed(s, a, h1.mem[a].obj)
  {
  }

  /** The planned objects are the live old ones. */
  lemma PlannedLive(h0: Heap, h1: Heap, live: seq<Addr>, srcs: seq<Addr>)
    requires HeapOk(h0) && SameButMarks(h0, h1) && Rising(srcs) && forall a :: Marked(h1, a) <==> Alive(h0, a)
    requires forall a :: a in live <==> a in HeadersIn(h1.mem, h1.oldSpace)
    requires forall a :: a in srcs <==> a in live && Marked(h1, a)
    ensures forall a :: a in srcs <==> Alive(h0, a) && IsOld(h0, a)
    ensures ListsLive(h0, srcs)
  {
    hide HeapOk, Marked, Alive;
    forall a | Alive(h0, a)
      ensures a in h0.mem
    {
      AliveIn(h0, a);
    }
    PhasesLists(h0, srcs);
  }

  /** The slots of the object at `b` before slot `i` are fixed, the others are as they were. */
  ghost predicate FixedTo(fwd: map<Addr, Addr>, o0: Obj, o: Obj, i: nat) {
    && SameKind(o0, o) && o.gc == o0.gc && o0.body.Slots? && o.body.Slots? && o.body.fixed == o0.body.fixed
    && |o.Refs()| == |o0.Refs()| && i <= |o.Refs()|
    && (forall j :: 0 <= j < i ==> o.Refs()[j] == Forwarded(fwd, o0.Refs()[j]))
    && (forall j :: i <= j < |o.Refs()| ==> o.Refs()[j] == o0.Refs()[j])
  }

  lemma FixedStep(fwd: map<Addr, Addr>, o0: Obj, o: Obj, i: nat, v: Value)
    requires FixedTo(fwd, o0, o, i) && i < |o.Refs()| && v == Forwarded(fwd, o.Refs()[i])
    ensures FixedTo(fwd, o0, o.WithRef(i, v), i + 1)
    ensures v == o.Refs()[i] ==> o.WithRef(i, v) == o
  {
  }

  lemma FixedEnd(fwd: map<Addr, Addr>, o0: Obj, o: Obj)
    requires FixedTo(fwd, o0, o, |o.Refs()|)
    ensures FixedObj(fwd, o0, o)
  {
  }

  /** The cell is that of a marked object with its slots fixed, or of an unmarked one untouched. */
  ghost predicate FixedCell(fwd: map<Addr, Addr>, c0: Cell, c: Cell) {
    c0.Live? && if c0.obj.gc.mark then c.Live? && FixedObj(fwd, c0.obj, c.obj) else c == c0
  }

  /** Every listed object is fixed, every other untouched. */
  ghost predicate FixedSome(m1: Memory, m: Memory, fwd: map<Addr, Addr>, done: set<Addr>) {
    && m.Keys == m1.Keys
    && (forall a :: a in m1 && a in done ==> FixedCell(fwd, m1[a], m[a]))
    && (forall a :: a in m1 && a !in done ==> m[a] == m1[a])
  }

  lemma FixedOne(m1: Memory, m: Memory, fwd: map<Addr, Addr>, done: set<Addr>, b: Addr, c: Cell)
    requires FixedSome(m1, m, fwd, done) && b in m1 && b !in done && FixedCell(fwd, m1[b], c)
    ensures FixedSome(m1, m[b := c], fwd, done + {b})
  {
    hide FixedCell;
  }

  lemma FixedAll(h1: Heap, fwd: map<Addr, Addr>, h2: Heap, done: set<Addr>)
    requires FixedSome(h1.mem, h2.mem, fwd, done) && h1.mem.Keys <= done
    requires h2 == h1.(mem := h2.mem, roots := h2.roots, active := h2.active) && RenamesRoots(h1, h2, fwd)
    ensures Fixed(h1, fwd, h2)
  {
    hide FixedObj;
    forall a | a in h1.mem
      ensures FixedCell(fwd, h1.mem[a], h2.mem[a])
    {
    }
  }

  /** The two walks list every header. */
  lemma WalkedAll(h0: Heap, h1: Heap, youngObjs: seq<Addr>, live: seq<Addr>)
    requires SpacesOk(h0) && Placed(h0) && SameSizes(h0, h1)
    requires forall a :: a in youngObjs <==> a in HeadersIn(h1.mem, h1.young)
    requires forall a :: a in live <==> a in HeadersIn(h1.mem, h1.oldSpace)
    ensures h1.mem.Keys <= Members(youngObjs) + Members(live)
    ensures Members(youngObjs) !! Members(live)
  {
  }

  /** The marks of the listed young objects are cleared. */
  ghost predicate Cleared(m: Memory, m': Memory, done: set<Addr>) {
    && m'.Keys == m.Keys
    && forall a :: a in m && m[a].Live? ==> m'[a] == if a in done then Live(WithMark(m[a].obj, false)) else m[a]
  }

  lemma FinishedNow(g: Heap, m: Memory, youngObjs: seq<Addr>, next: Addr, h: Heap)
    requires g.oldSpace.base <= next && forall a :: a in g.mem ==> g.mem[a].Live?
    requires forall a :: a in youngObjs <==> a in HeadersIn(g.mem, g.young)
    requires Cleared(g.mem, m, Members(youngObjs))
    requires h == g.(mem := h.mem, oldSpace := g.oldSpace.(alloc := next - g.oldSpace.base))
    requires h.mem == map a | a in m && (g.young.Contains(a) || a < next) :: m[a]
    ensures h == Finish(g, next)
  {
    assert h.mem == Finish(g, next).mem;
  }

  lemma StartSliding(h2: Heap, srcs: seq<Addr>, dsts: seq<Addr>)
    requires PlanOk(h2.mem, srcs, dsts, h2.oldSpace.base) && SlideArea(h2, srcs)
    requires forall a :: a in h2.mem ==> h2.mem[a].Live? && (IsYoung(h2, a) || IsOld(h2, a))
    ensures Sliding(h2, srcs, dsts, 0, h2.(ssb := [])) && Tidy(h2, srcs, dsts, 0, h2.(ssb := []))
    ensures Buffered(h2, srcs, dsts, 0, [])
  {
    hide PlanDst;
    assert srcs[..0] == [];
  }

  lemma FixedNone(fwd: map<Addr, Addr>, o: Obj)
    requires o.body.Slots?
    ensures FixedTo(fwd, o, o, 0)
  {
  }

  lemma FixedNoneYet(m: Memory, fwd: map<Addr, Addr>)
    ensures FixedSome(m, m, fwd, {})
  {
  }

  lemma HeadersAre(m: Memory, s: Space)
    ensures forall a :: a in HeadersIn(m, s) <==> a in m && s.Contains(a)
  {
  }

  lemma SlidingSource(h2: Heap, srcs: seq<Addr>, dsts: seq<Addr>, k: nat, g: Heap)
    requires Sliding(h2, srcs, dsts, k, g) && k < |srcs|
    ensures srcs[k] in h2.mem && h2.mem[srcs[k]].Live? && srcs[k] in g.mem && g.mem[srcs[k]] == h2.mem[srcs[k]]
    ensures g.young == h2.young
  {
  }

  lemma SamePointsYoungAt(h: Heap, a: Addr, h': Heap, b: Addr)
    requires a in h.mem && h.mem[a].Live? && b in h'.mem && h'.mem[b] == h.mem[a] && h'.young == h.young
    ensures PointsYoung(h', b) <==> PointsYoung(h, a)
  {
  }

  /** The heap after marking. */
  lemma MarkedHeap(h0: Heap, h1: Heap)
    requires HeapOk(h0) && NoGaps(h0.mem, h0.oldSpace) && SameButMarks(h0, h1)
    ensures SameSizes(h0, h1) && SpacesOk(h0) && Placed(h0)
    ensures h1.young == h0.young && h1.oldSpace == h0.oldSpace && forall a :: a in h1.mem ==> h1.mem[a].Live?
    ensures Walkable(h1.mem, h1.oldSpace) && Walkable(h1.mem, h1.young)
    ensures h1.oldSpace.alloc <= h1.oldSpace.words && h1.young.alloc <= h1.young.words
  {
    MarkSizes(h0, h1);
    assert NoGaps(h0.mem, h0.young) && SpacesOk(h0) && Placed(h0);
    hide HeapOk, NoGaps, Walkable, SpacesOk, Placed;
    MarkedWalkable(h0, h1, h0.oldSpace);
    MarkedWalkable(h0, h1, h0.young);
  }

  /** The heap before the first move. */
  lemma ReadyToSlide(h0: Heap, h1: Heap, h2: Heap, srcs: seq<Addr>, dsts: seq<Addr>, fwd: map<Addr, Addr>, next: Addr)
    requires HeapOk(h0) && RoomForOverflow(h0) && SameButMarks(h0, h1) && SameSizes(h0, h1) && Fixed(h1, fwd, h2)
    requires forall a :: a in srcs <==> Alive(h0, a) && IsOld(h0, a)
    requires ListsLive(h0, srcs) && Planned(h1.mem, srcs, dsts, h1.oldSpace.base, fwd, next)
    ensures PlanOk(h2.mem, srcs, dsts, h2.oldSpace.base) && SlideArea(h2, srcs) && TableOk(srcs, dsts, fwd)
    ensures forall a :: a in h2.mem ==> h2.mem[a].Live? && (IsYoung(h2, a) || IsOld(h2, a))
    ensures next == Top(h2, srcs) && h2.oldSpace.base <= next <= h2.oldSpace.Top()
  {
    FixedSizes(h0, h1, fwd, h2);
    YoungOrOld(h0, h2);
    hide HeapOk, RoomForOverflow, SameButMarks, Fixed, Alive, ListsLive, PlanOk, SlideArea, TableOk, PlanNext, PlanDst;
    PlanReady(h0, h1, h2, srcs, dsts, fwd, next);
    PlanLists(h2, srcs, dsts);
    PhasesArea(h0, h2, srcs);
    TopBounds(h2, srcs, dsts);
  }

  lemma PlanLists(h2: Heap, srcs: seq<Addr>, dsts: seq<Addr>)
    requires PlanOk(h2.mem, srcs, dsts, h2.oldSpace.base)
    ensures Listed(h2.mem, srcs)
  {
  }

  lemma YoungOrOld(h0: Heap, h2: Heap)
    requires SpacesOk(h0) && Placed(h0) && SameSizes(h0, h2)
    ensures forall a :: a in h2.mem ==> h2.mem[a].Live? && (IsYoung(h2, a) || IsOld(h2, a))
  {
  }

  lemma JoinPhases(h0: Heap, h1: Heap, h2: Heap, g: Heap, srcs: seq<Addr>, dsts: seq<Addr>, fwd: map<Addr, Addr>, next: Addr)
    requires HeapOk(h0) && SameButMarks(h0, h1) && (forall a :: Marked(h1, a) <==> Alive(h0, a))
    requires forall a :: a in srcs <==> Alive(h0, a) && IsOld(h0, a)
    requires TableOk(srcs, dsts, fwd) && Fixed(h1, fwd, h2)
    requires Sliding(h2, srcs, dsts, |srcs|, g) && Tidy(h2, srcs, dsts, |srcs|, g) && Buffered(h2, srcs, dsts, |srcs|, g.ssb)
    requires next == Top(h2, srcs) <= h2.oldSpace.Top()
    ensures Phases(h0, h1, h2, g, srcs, dsts, fwd)
    ensures g.oldSpace == h2.oldSpace && forall a :: a in g.mem ==> g.mem[a].Live?
  {
    hide HeapOk, SameButMarks, Marked, Alive, TableOk, Fixed, Tidy, Buffered, Top;
  }

  /** The slide leaves the headers of young space where they are. */
  lemma YoungStay(h1: Heap, fwd: map<Addr, Addr>, h2: Heap, g: Heap, srcs: seq<Addr>, dsts: seq<Addr>, youngObjs: seq<Addr>)
    requires forall a :: a in youngObjs <==> a in HeadersIn(h1.mem, h1.young)
    requires Fixed(h1, fwd, h2) && Sliding(h2, srcs, dsts, |srcs|, g)
    ensures forall a :: a in youngObjs <==> a in HeadersIn(g.mem, g.young)
    ensures forall a :: a in youngObjs ==> a in g.mem
  {
    hide PlanOk, Settled;
  }

  lemma CompactsNow(h0: Heap, h1: Heap, h2: Heap, g: Heap, srcs: seq<Addr>, dsts: seq<Addr>, fwd: map<Addr, Addr>, h: Heap)
    requires Phases(h0, h1, h2, g, srcs, dsts, fwd)
    requires g.oldSpace.base <= Top(h2, srcs) && (forall a :: a in g.mem ==> g.mem[a].Live?) && h == Finish(g, Top(h2, srcs))
    ensures Compacts(h0, h, fwd)
  {
    hide Phases, Compacts, Finish, Top;
    CompactEnds(h0, h1, h2, g, srcs, dsts, fwd);
  }
}
