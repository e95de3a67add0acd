/** Exactly when the slide as written destroys nothing. */
module CompactionExact {
  import opened Options
  import opened ObjectMemory
  import opened HeapWalk
  import opened ScavengeSteps
  import opened Renaming
  import opened Compaction
  import opened CompactionResult
  import opened HeapSteps

  /** The move loop, as far as it comes before it finds that an object it is to move has been written over. */
  ghost function SlideTo(h: Heap, srcs: seq<Addr>, dsts: seq<Addr>, k: nat): Option<Heap>
    requires Listed(h.mem, srcs) && k <= |srcs| == |dsts|
  {
    if k == 0 then Some(h.(ssb := []))
    else
      match SlideTo(h, srcs, dsts, k - 1)
      case None => None
      case Some(g) =>
        if srcs[k - 1] in g.mem && g.mem[srcs[k - 1]] == h.mem[srcs[k - 1]] then Some(Slid(h, g, srcs[k - 1], dsts[k - 1]))
        else None
  }

  /** The object that was at `a` is gone: nothing is there, or a copy of another object, its mark cleared. */
  ghost predicate Lost(g: Heap, a: Addr) {
    a in g.mem ==> g.mem[a].Live? && !g.mem[a].obj.gc.mark
  }

  /** What a move does to the cell at `a`. */
  lemma MoveAt(h: Heap, g: Heap, src: Addr, dst: Addr, a: Addr)
    requires src in h.mem && h.mem[src].Live? && src in g.mem && g.mem[src] == h.mem[src]
    requires a in g.mem ==> g.mem[a].Live?
    ensures var g', o := Slid(h, g, src, dst), h.mem[src].obj;
      && (Lost(g, a) ==> Lost(g', a))
      && (Lost(g', a) || (a in g'.mem && a in g.mem && g'.mem[a] == g.mem[a]))
      && (a in g'.mem ==> g'.mem[a].Live?)
      && (a in g.mem && Touches(dst - o.Extra(), dst + 1 + o.NumSlots(), a, g.mem[a].obj) ==> Lost(g', a))
  {
    hide PointsYoung;
  }

  /** Until it is moved, an object is where it was or lost. */
  lemma {:induction false} IntactOrLost(h: Heap, srcs: seq<Addr>, dsts: seq<Addr>, i: nat, j: nat)
    requires Listed(h.mem, srcs) && i <= j < |srcs| == |dsts| && SlideTo(h, srcs, dsts, i).Some?
    ensures var g := SlideTo(h, srcs, dsts, i).value;
      (srcs[j] in g.mem && g.mem[srcs[j]] == h.mem[srcs[j]]) || Lost(g, srcs[j])
  {
    hide Slid, Lost;
    if i > 0 {
      IntactOrLost(h, srcs, dsts, i - 1, j);
      var g := SlideTo(h, srcs, dsts, i - 1).value;
      LostLive(g, srcs[j]);
      MoveAt(h, g, srcs[i - 1], dsts[i - 1], srcs[j]);
    }
  }

  lemma LostLive(g: Heap, a: Addr)
    ensures Lost(g, a) && a in g.mem ==> g.mem[a].Live?
  {
  }

  /** An object touched by a target written before its turn stays lost. */
  lemma {:induction false} TouchedIsLost(h: Heap, srcs: seq<Addr>, dsts: seq<Addr>, k: nat, i: nat, j: nat)
    requires Listed(h.mem, srcs) && k < i <= j < |srcs| == |dsts| && SlideTo(h, srcs, dsts, i).Some?
    requires !Clear(h.mem, srcs, dsts, k, j)
    ensures Lost(SlideTo(h, srcs, dsts, i).value, srcs[j])
    decreases i
  {
    hide Slid, Lost;
    var g := SlideTo(h, srcs, dsts, i - 1).value;
    IntactOrLost(h, srcs, dsts, i - 1, j);
    LostLive(g, srcs[j]);
    MoveAt(h, g, srcs[i - 1], dsts[i - 1], srcs[j]);
    if k < i - 1 {
      TouchedIsLost(h, srcs, dsts, k, i - 1, j);
    }
  }

  /** A loop that comes to the end has touched nothing before its turn. */
  lemma EndedClear(h: Heap, srcs: seq<Addr>, dsts: seq<Addr>, k: nat, j: nat)
    requires Listed(h.mem, srcs) && k < j < |srcs| == |dsts| && h.mem[srcs[j]].obj.gc.mark
    requires SlideTo(h, srcs, dsts, |srcs|).Some?
    ensures Clear(h.mem, srcs, dsts, k, j)
  {
    hide Clear, SlideTo;
    EndedBefore(h, srcs, dsts, j + 1, |srcs|);
    TurnComes(h, srcs, dsts, j);
    if !Clear(h.mem, srcs, dsts, k, j) {
      TouchedIsLost(h, srcs, dsts, k, j, j);
    }
  }

  lemma TurnComes(h: Heap, srcs: seq<Addr>, dsts: seq<Addr>, j: nat)
    requires Listed(h.mem, srcs) && j < |srcs| == |dsts| && SlideTo(h, srcs, dsts, j + 1).Some?
    ensures SlideTo(h, srcs, dsts, j).Some?
    ensures var g := SlideTo(h, srcs, dsts, j).value; srcs[j] in g.mem && g.mem[srcs[j]] == h.mem[srcs[j]]
  {
    hide Slid;
  }

  lemma {:induction false} EndedBefore(h: Heap, srcs: seq<Addr>, dsts: seq<Addr>, i: nat, n: nat)
    requires Listed(h.mem, srcs) && i <= n <= |srcs| == |dsts| && SlideTo(h, srcs, dsts, n).Some?
    ensures SlideTo(h, srcs, dsts, i).Some?
    decreases n
  {
    if i < n {
      EndedBefore(h, srcs, dsts, i, n - 1);
    }
  }

  /** Without a touch the loop comes to the end. */
  lemma {:induction false} ClearEnds(h: Heap, srcs: seq<Addr>, dsts: seq<Addr>, k: nat)
    requires PlanOk(h.mem, srcs, dsts, h.oldSpace.base) && SlideArea(h, srcs) && k <= |srcs|
    requires forall a :: a in h.mem ==> h.mem[a].Live? && (IsYoung(h, a) || IsOld(h, a))
    ensures |dsts| == |srcs| && Listed(h.mem, srcs) && SlideTo(h, srcs, dsts, k).Some?
    ensures var g := SlideTo(h, srcs, dsts, k).value;
      Sliding(h, srcs, dsts, k, g) && Tidy(h, srcs, dsts, k, g) && Buffered(h, srcs, dsts, k, g.ssb)
  {
    hide PlanOk, SlideArea, Sliding, Slid, Tidy, Buffered;
    PlanLists(h, srcs, dsts);
    PlanLengths(h, srcs, dsts);
    if k == 0 {
      StartSliding(h, srcs, dsts);
    } else {
      ClearEnds(h, srcs, dsts, k - 1);
      var g := SlideTo(h, srcs, dsts, k - 1).value;
      SlidingSource(h, srcs, dsts, k - 1, g);
      SlideStep(h, srcs, dsts, k - 1, g);
      SlideTidy(h, srcs, dsts, k - 1, g);
      SlideBuffered(h, srcs, dsts, k - 1, g);
    }
  }

  lemma PlanLengths(h: Heap, srcs: seq<Addr>, dsts: seq<Addr>)
    requires PlanOk(h.mem, srcs, dsts, h.oldSpace.base)
    ensures |dsts| == |srcs|
  {
  }

  /** Marked and fixed, a heap slides to the end without destroying an object that is still to be moved, and the new top is
      not above the old one, exactly when there is room for the overflow words that are counted twice. */
  lemma SlidesIff(h0: Heap, h1: Heap, h2: Heap, srcs: seq<Addr>, dsts: seq<Addr>, fwd: map<Addr, Addr>, next: Addr)
    requires HeapOk(h0) && SameButMarks(h0, h1) && Fixed(h1, fwd, h2) && ListsLive(h0, srcs)
    requires forall a :: Marked(h1, a) <==> Alive(h0, a)
    requires Planned(h1.mem, srcs, dsts, h1.oldSpace.base, fwd, next)
    ensures Listed(h2.mem, srcs) && |dsts| == |srcs|
    ensures RoomForOverflow(h0) <==> SlideTo(h2, srcs, dsts, |srcs|).Some? && next <= h2.oldSpace.Top()
  {
    hide HeapOk, RoomForOverflow, PlanNext, Words, Overflows, PlanDst, Top, Clear, SlideTo, Marked, Alive, Fixed, SameButMarks,
      SameSizes, ListsLive, Planned, SlideArea, PlanShape;
    MarkSizes(h0, h1);
    FixedSizes(h0, h1, fwd, h2);
    PlanShaped(h0, h1, h2, srcs, dsts, fwd, next);
    ShapeLists(h2.mem, srcs, dsts, h2.oldSpace.base);
    RoomIff(h0, h2, srcs, dsts);
    AllMarked(h0, h1, h2, srcs, fwd);
    if next <= h2.oldSpace.Top() {
      ListsOld(h0, srcs);
      PhasesArea(h0, h2, srcs);
      LiveCells(h0, h2);
      if PlanOk(h2.mem, srcs, dsts, h2.oldSpace.base) {
        ClearEnds(h2, srcs, dsts, |srcs|);
      } else {
        var k, j :| 0 <= k < j < |srcs| && !Clear(h2.mem, srcs, dsts, k, j);
        if SlideTo(h2, srcs, dsts, |srcs|).Some? {
          EndedClear(h2, srcs, dsts, k, j);
        }
      }
    }
  }

  lemma ListsOld(h0: Heap, srcs: seq<Addr>)
    requires ListsLive(h0, srcs)
    ensures forall a :: a in srcs ==> Alive(h0, a) && IsOld(h0, a)
  {
    hide Alive;
  }

  lemma LiveCells(h0: Heap, h2: Heap)
    requires HeapOk(h0) && SameSizes(h0, h2)
    ensures forall a :: a in h2.mem ==> h2.mem[a].Live? && (IsYoung(h2, a) || IsOld(h2, a))
  {
    hide Remembered, NoGaps, BufferOk, ActiveOk, NoDangling, NoOverlap;
    YoungOrOld(h0, h2);
  }

  lemma AllMarked(h0: Heap, h1: Heap, h2: Heap, srcs: seq<Addr>, fwd: map<Addr, Addr>)
    requires SameButMarks(h0, h1) && Fixed(h1, fwd, h2) && ListsLive(h0, srcs) && forall a :: Marked(h1, a) <==> Alive(h0, a)
    ensures Listed(h2.mem, srcs) && forall j :: 0 <= j < |srcs| ==> h2.mem[srcs[j]].obj.gc.mark
  {
    hide Alive;
    forall j | 0 <= j < |srcs|
      ensures srcs[j] in h2.mem && h2.mem[srcs[j]].Live? && h2.mem[srcs[j]].obj.gc.mark
    {
      assert srcs[j] in srcs;
      assert Marked(h1, srcs[j]);
    }
  }

  lemma SlideStart(h: Heap, srcs: seq<Addr>, dsts: seq<Addr>)
    requires Listed(h.mem, srcs) && |dsts| == |srcs|
    ensures SlideTo(h, srcs, dsts, 0) == Some(h.(ssb := []))
  {
  }

  /** The loop changes memory and store buffer alone. */
  lemma {:induction false} SlideFrame(h: Heap, srcs: seq<Addr>, dsts: seq<Addr>, k: nat)
    requires Listed(h.mem, srcs) && k <= |srcs| == |dsts| && SlideTo(h, srcs, dsts, k).Some?
    requires forall a :: a in h.mem ==> h.mem[a].Live?
    ensures var g := SlideTo(h, srcs, dsts, k).value; g == h.(mem := g.mem, ssb := g.ssb) && forall a :: a in g.mem ==> g.mem[a].Live?
  {
    if k > 0 {
      SlideFrame(h, srcs, dsts, k - 1);
      hide Settled, PointsYoung;
    }
  }

  /** The object whose turn comes is intact if it still has its mark; otherwise it is gone. */
  lemma SlideNext(h: Heap, srcs: seq<Addr>, dsts: seq<Addr>, k: nat)
    requires Listed(h.mem, srcs) && k < |srcs| == |dsts| && SlideTo(h, srcs, dsts, k).Some?
    requires (forall a :: a in h.mem ==> h.mem[a].Live?) && h.mem[srcs[k]].obj.gc.mark
    ensures var g, src := SlideTo(h, srcs, dsts, k).value, srcs[k];
      && g.young == h.young && (forall a :: a in g.mem ==> g.mem[a].Live?)
      && if src in g.mem && g.mem[src].obj.gc.mark
         then g.mem[src] == h.mem[src] && SlideTo(h, srcs, dsts, k + 1) == Some(Slid(h, g, src, dsts[k]))
         else SlideTo(h, srcs, dsts, k + 1).None?
  {
    SlideFrame(h, srcs, dsts, k);
    IntactOrLost(h, srcs, dsts, k, k);
    hide Slid;
  }

  lemma StaysNone(h: Heap, srcs: seq<Addr>, dsts: seq<Addr>, i: nat)
    requires Listed(h.mem, srcs) && i <= |srcs| == |dsts| && SlideTo(h, srcs, dsts, i).None?
    ensures SlideTo(h, srcs, dsts, |srcs|).None?
  {
    hide SlideTo;
    if SlideTo(h, srcs, dsts, |srcs|).Some? {
      EndedBefore(h, srcs, dsts, i, |srcs|);
    }
  }

  /** The heap before the first move. */
  lemma SlideReady(h0: Heap, h1: Heap, h2: Heap, srcs: seq<Addr>, dsts: seq<Addr>, fwd: map<Addr, Addr>, next: Addr)
    requires HeapOk(h0) && SameButMarks(h0, h1) && Fixed(h1, fwd, h2) && ListsLive(h0, srcs)
    requires forall a :: Marked(h1, a) <==> Alive(h0, a)
    requires Planned(h1.mem, srcs, dsts, h1.oldSpace.base, fwd, next)
    ensures Listed(h2.mem, srcs) && |dsts| == |srcs| && (forall a :: a in h2.mem ==> h2.mem[a].Live?)
    ensures forall k :: 0 <= k < |srcs| ==> h2.mem[srcs[k]].obj.gc.mark
  {
    FixedSizes(h0, h1, fwd, h2);
    hide HeapOk, Alive, Fixed, SameButMarks, ListsLive, Marked;
    AllMarked(h0, h1, h2, srcs, fwd);
  }

  /** A slide that came to its end, with a top not above the old one, did what a compaction needs. */
  lemma SlidWell(h0: Heap, h1: Heap, h2: Heap, g: Heap, srcs: seq<Addr>, dsts: seq<Addr>, fwd: map<Addr, Addr>, next: Addr)
    requires HeapOk(h0) && SameButMarks(h0, h1) && Fixed(h1, fwd, h2) && ListsLive(h0, srcs)
    requires forall a :: Marked(h1, a) <==> Alive(h0, a)
    requires forall a :: a in srcs <==> Alive(h0, a) && IsOld(h0, a)
    requires Planned(h1.mem, srcs, dsts, h1.oldSpace.base, fwd, next)
    requires RoomForOverflow(h0) && Listed(h2.mem, srcs) && |dsts| == |srcs|
    requires SlideTo(h2, srcs, dsts, |srcs|) == Some(g)
    ensures Phases(h0, h1, h2, g, srcs, dsts, fwd) && next == Top(h2, srcs) && h2.oldSpace.base <= next <= h2.oldSpace.Top()
    ensures Sliding(h2, srcs, dsts, |srcs|, g) && g.oldSpace == h2.oldSpace && forall a :: a in g.mem ==> g.mem[a].Live?
  {
    hide HeapOk, SameButMarks, Fixed, ListsLive, Marked, Alive, Planned, RoomForOverflow, SlideTo, PlanOk, SlideArea, Sliding,
      Tidy, Buffered, SameSizes, TableOk, Phases;
    MarkSizes(h0, h1);
    ReadyToSlide(h0, h1, h2, srcs, dsts, fwd, next);
    ClearEnds(h2, srcs, dsts, |srcs|);
    JoinPhases(h0, h1, h2, g, srcs, dsts, fwd, next);
  }

  // ---------- an input on which it does ----------

  function Plain(classIndex: nat, n: nat): Obj {
    Obj(classIndex, 0, GcBits(false, false, false, 0, false), Slots(false, seq(n, i => Int(0))))
  }

  /** Nil, an array of 255 slots and two small objects side by side in old space, all of them roots. */
  function OverflowHeap(): Heap {
    Heap(map[0 := Live(Plain(5, 0)), 2 := Live(Plain(16, 255)), 258 := Live(Plain(1, 0)), 259 := Live(Plain(2, 0))],
         Space(1000, 100, 0), Space(2000, 100, 0), Space(0, 500, 260), [],
         [Ptr(0), Ptr(2), Ptr(258), Ptr(259)], Ptr(0), 4)
  }

  lemma ExampleTotals()
    ensures var h := OverflowHeap();
      Total(h.mem, HeadersIn(h.mem, h.young)) == 0 && Total(h.mem, HeadersIn(h.mem, h.oldSpace)) == 260
  {
    var m := OverflowHeap().mem;
    assert HeadersIn(m, OverflowHeap().young) == {};
    assert Total(m, {}) == 0;
    assert HeadersIn(m, OverflowHeap().oldSpace) == {} + {0} + {2} + {258} + {259};
    assert FootprintAt(m, 0) == 1 && FootprintAt(m, 2) == 257 && FootprintAt(m, 258) == 1 && FootprintAt(m, 259) == 1;
    hide Total;
    TotalAdd(m, {}, 0);
    TotalAdd(m, {} + {0}, 2);
    TotalAdd(m, {} + {0} + {2}, 258);
    TotalAdd(m, {} + {0} + {2} + {258}, 259);
  }

  /** What is used of the example. */
  ghost predicate ExampleFacts(h: Heap) {
    && h.young == Space(1000, 100, 0) && h.spare == Space(2000, 100, 0) && h.oldSpace == Space(0, 500, 260)
    && h.ssb == [] && h.roots == [Ptr(0), Ptr(2), Ptr(258), Ptr(259)] && h.active == Ptr(0)
    && h.mem.Keys == {0, 2, 258, 259}
    && (forall a :: a in h.mem ==> h.mem[a].Live? && !h.mem[a].obj.gc.mark && !h.mem[a].obj.gc.remembered)
    && h.mem[0].obj.NumSlots() == 0 && h.mem[2].obj.NumSlots() == 255 && h.mem[258].obj.NumSlots() == 0 && h.mem[259].obj.NumSlots() == 0
    && (forall a, i :: a in h.mem && 0 <= i < |h.mem[a].obj.Refs()| ==> h.mem[a].obj.Refs()[i] == Int(0))
  }

  lemma ExampleIs()
    ensures ExampleFacts(OverflowHeap())
  {
  }

  lemma ExampleLayout(h: Heap)
    requires ExampleFacts(h)
    ensures SpacesOk(h) && Placed(h) && NoOverlap(h.mem)
  {
  }

  lemma ExampleLive(h: Heap)
    requires ExampleFacts(h)
    ensures NoDangling(h) && ListsLive(h, [0, 2, 258, 259])
  {
    hide Reachable;
    var m := h.mem;
    assert h.roots[0] == Ptr(0) && h.roots[1] == Ptr(2) && h.roots[2] == Ptr(258) && h.roots[3] == Ptr(259);
    assert forall a, b :: !Edge(m, a, b);
    assert Starts(h) <= m.Keys;
    ReachableWithin(m, Starts(h), m.Keys);
    forall a | a in m
      ensures Alive(h, a)
    {
      assert Ptr(a) in h.roots;
      ReachableStart(m, RootAddrs(h), a);
    }
    assert forall a :: a in [0, 2, 258, 259] <==> a in LiveOld(h);
  }

  lemma ExampleRest(h: Heap)
    requires ExampleFacts(h)
    ensures ActiveOk(h) && BufferOk(h) && Remembered(h)
  {
    hide Tracks;
  }

  lemma ExampleGood()
    ensures var h := OverflowHeap(); Good(h) && ListsLive(h, [0, 2, 258, 259])
  {
    hide SpacesOk, Placed, NoOverlap, NoDangling, ListsLive, ActiveOk, BufferOk, Remembered, Total, HeadersIn;
    var h := OverflowHeap();
    ExampleIs();
    ExampleTotals();
    ExampleLayout(h);
    ExampleLive(h);
    ExampleRest(h);
  }

  lemma ExamplePlan()
    ensures var m, objs := OverflowHeap().mem, [0, 2, 258, 259];
      Listed(m, objs) && PlanShape(m, objs, [0, 2, 259, 260], 0) && PlanNext(m, objs, 0) == 261
  {
    var m, objs: seq<Addr> := OverflowHeap().mem, [0, 2, 258, 259];
    assert m[0].obj.NumSlots() == 0 && m[2].obj.NumSlots() == 255 && m[258].obj.NumSlots() == 0 && m[259].obj.NumSlots() == 0;
    var one, two, three: seq<Addr> := [0], [0, 2], [0, 2, 258];
    assert objs[..0] == [] && objs[..1] == one && objs[..2] == two && objs[..3] == three;
    assert one[..0] == [] && two[..1] == one && three[..2] == two;
    assert PlanNext(m, [], 0) == 0;
    assert PlanNext(m, one, 0) == 1;
    assert PlanNext(m, two, 0) == 259;
    assert PlanNext(m, three, 0) == 260;
  }

  /** A heap in order on which the compaction as written destroys a live object: the third object is moved onto the fourth
      before that has moved, and the new top lies above the old one. */
  lemma OverflowOverwrites()
    ensures var h, objs, dsts := OverflowHeap(), [0, 2, 258, 259], [0, 2, 259, 260];
      && Good(h) && ListsLive(h, objs) && PlanShape(h.mem, objs, dsts, h.oldSpace.base) && !RoomForOverflow(h)
      && MoveWords(h.mem, 258, 259)[259] == h.mem[258] != h.mem[259]
      && PlanNext(h.mem, objs, h.oldSpace.base) > h.oldSpace.Top()
  {
    hide Good, ListsLive, Words, Overflows, PlanNext, Misses, Slack, MoveWords;
    var h, objs: seq<Addr>, dsts: seq<Addr> := OverflowHeap(), [0, 2, 258, 259], [0, 2, 259, 260];
    ExampleGood();
    ExamplePlan();
    SecondHits(h, objs, dsts);
    MissesIff(h.mem, objs, dsts, 0, 2, 3);
  }

  lemma SecondHits(h: Heap, objs: seq<Addr>, dsts: seq<Addr>)
    requires h == OverflowHeap() && Listed(h.mem, objs) && |objs| == |dsts| == 4
    requires objs[2] == 258 && objs[3] == 259 == dsts[2]
    ensures !Clear(h.mem, objs, dsts, 2, 3) && MoveWords(h.mem, 258, 259)[259] == h.mem[258] != h.mem[259]
  {
    assert h.mem[258].obj.NumSlots() == 0 && h.mem[259].obj.NumSlots() == 0;
  }
}
