/** Mark-compact of old space: marking, the sliding plan, the fix-up of references and the slide itself. */
module Compaction {
  import opened ObjectMemory
  import opened Scavenge
  import opened ScavengeSteps
  import opened ScavengeResult
  import opened Renaming

  // ---------- marking ----------

  function WithMark(o: Obj, b: bool): Obj {
    o.(gc := o.gc.(mark := b))
  }

  ghost predicate Marked(h: Heap, a: Addr) {
    a in h.mem && h.mem[a].Live? && h.mem[a].obj.gc.mark
  }

  ghost predicate SameButMarks(h0: Heap, h: Heap) {
    && h == h0.(mem := h.mem) && h.mem.Keys == h0.mem.Keys
    && forall a :: a in h0.mem ==>
      h0.mem[a].Live? && h.mem[a].Live? && h.mem[a].obj == WithMark(h0.mem[a].obj, h.mem[a].obj.gc.mark)
  }

  /** Only live objects are marked, and what a marked object refers to is marked unless it waits on the stack. */
  ghost predicate MarkOk(h0: Heap, h: Heap, stack: seq<Addr>) {
    && SameButMarks(h0, h)
    && (forall a :: Marked(h, a) ==> Alive(h0, a))
    && (forall a :: a in stack ==> Marked(h, a))
    && (forall a, b :: Marked(h, a) && a !in stack && Edge(h0.mem, a, b) ==> Marked(h, b))
  }

  ghost function Unmarked(h: Heap): set<Addr> {
    set a | a in h.mem && !Marked(h, a)
  }

  function SetMark(h: Heap, a: Addr): Heap
    requires a in h.mem && h.mem[a].Live?
  {
    h.(mem := h.mem[a := Live(WithMark(h.mem[a].obj, true))])
  }

  lemma SetMarkKeeps(h0: Heap, h: Heap, stack: seq<Addr>, a: Addr)
    requires MarkOk(h0, h, stack) && a in h.mem && h.mem[a].Live? && !Marked(h, a) && Alive(h0, a)
    ensures MarkOk(h0, SetMark(h, a), stack + [a])
    ensures |Unmarked(SetMark(h, a))| == |Unmarked(h)| - 1
    ensures forall b :: Marked(h, b) ==> Marked(SetMark(h, a), b)
  {
    assert Unmarked(SetMark(h, a)) == Unmarked(h) - {a};
  }

  /** With an empty stack and marked roots, exactly the live objects are marked. */
  lemma MarkComplete(h0: Heap, h: Heap)
    requires MarkOk(h0, h, [])
    requires forall a :: a in RootAddrs(h0) ==> Marked(h, a)
    ensures forall a :: Marked(h, a) <==> Alive(h0, a)
  {
    var s := set a | a in h.mem && Marked(h, a);
    ReachableWithin(h0.mem, RootAddrs(h0), s);
  }

  // ---------- the sliding plan, as the loop computes it ----------

  ghost predicate Listed(m: Memory, objs: seq<Addr>) {
    forall i :: 0 <= i < |objs| ==> objs[i] in m && m[objs[i]].Live?
  }

  /** The value of `next` after the objects of `objs` have been planned from `base`. The loop adds the overflow word
      and the footprint, and the footprint counts the overflow word too. */
  ghost function PlanNext(m: Memory, objs: seq<Addr>, base: Addr): Addr
    requires Listed(m, objs)
  {
    if |objs| == 0 then base
    else
      var last := |objs| - 1;
      var o := m[objs[last]].obj;
      PlanNext(m, objs[..last], base) + o.Extra() + o.Footprint()
  }

  /** The new header address of object `k`. */
  ghost function PlanDst(m: Memory, objs: seq<Addr>, base: Addr, k: nat): Addr
    requires Listed(m, objs) && k < |objs|
  {
    PlanNext(m, objs[..k], base) + m[objs[k]].obj.Extra()
  }

  ghost function Words(m: Memory, objs: seq<Addr>): nat
    requires Listed(m, objs)
  {
    if |objs| == 0 then 0
    else
      var last := |objs| - 1;
      Words(m, objs[..last]) + m[objs[last]].obj.Footprint()
  }

  ghost function Overflows(m: Memory, objs: seq<Addr>): nat
    requires Listed(m, objs)
  {
    if |objs| == 0 then 0
    else
      var last := |objs| - 1;
      Overflows(m, objs[..last]) + m[objs[last]].obj.Extra()
  }

  lemma {:induction false} PlanNextSum(m: Memory, objs: seq<Addr>, base: Addr)
    requires Listed(m, objs)
    ensures PlanNext(m, objs, base) == base + Words(m, objs) + Overflows(m, objs)
  {
    if |objs| > 0 {
      PlanNextSum(m, objs[..|objs| - 1], base);
    }
  }

  /** Words between `base` and object `k` that no planned object occupies. */
  ghost function Slack(m: Memory, objs: seq<Addr>, base: Addr, k: nat): int
    requires Listed(m, objs) && k < |objs|
  {
    objs[k] - m[objs[k]].obj.Extra() - base - Words(m, objs[..k])
  }

  /** As written, the plan moves no object right exactly when every live object has at least as many dead words
      before it as live objects with an overflow word. */
  lemma NeverRightIff(m: Memory, objs: seq<Addr>, base: Addr)
    requires Listed(m, objs)
    ensures (forall k :: 0 <= k < |objs| ==> PlanDst(m, objs, base, k) <= objs[k]) <==>
            (forall k :: 0 <= k < |objs| ==> Overflows(m, objs[..k]) <= Slack(m, objs, base, k))
  {
    forall k | 0 <= k < |objs|
      ensures PlanDst(m, objs, base, k) <= objs[k] <==> Overflows(m, objs[..k]) <= Slack(m, objs, base, k)
    {
      PlanNextSum(m, objs[..k], base);
    }
  }

  lemma {:induction false} OverflowsZero(m: Memory, objs: seq<Addr>)
    requires Listed(m, objs)
    ensures Overflows(m, objs) == 0 <==> forall k :: 0 <= k < |objs| ==> m[objs[k]].obj.Extra() == 0
  {
    if |objs| > 0 {
      var last := |objs| - 1;
      OverflowsZero(m, objs[..last]);
      assert (forall k :: 0 <= k < |objs| ==> m[objs[k]].obj.Extra() == 0) <==>
        (forall k :: 0 <= k < last ==> m[objs[..last][k]].obj.Extra() == 0) && m[objs[last]].obj.Extra() == 0;
    }
  }

  /** As written, the slid objects fill old space without a gap exactly when none has an overflow word. */
  lemma GapFreeIff(m: Memory, objs: seq<Addr>, base: Addr)
    requires Listed(m, objs)
    ensures PlanNext(m, objs, base) == base + Words(m, objs) <==>
            forall k :: 0 <= k < |objs| ==> m[objs[k]].obj.Extra() == 0
  {
    PlanNextSum(m, objs, base);
    OverflowsZero(m, objs);
  }

  // ---------- where the plan puts things ----------

  ghost predicate Rising(objs: seq<Addr>) {
    forall i, j :: 0 <= i < j < |objs| ==> objs[i] < objs[j]
  }

  lemma RisingSnoc(s: seq<Addr>, x: Addr)
    requires Rising(s) && forall a :: a in s ==> a < x
    ensures Rising(s + [x])
  {
    forall i | 0 <= i < |s|
      ensures s[i] < x
    {
      assert s[i] in s;
    }
  }

  /** `srcs` are the objects to move, in address order, `dsts` their new addresses. */
  ghost predicate PlanShape(m: Memory, srcs: seq<Addr>, dsts: seq<Addr>, base: Addr) {
    && Listed(m, srcs) && Rising(srcs) && |dsts| == |srcs|
    && (forall k :: 0 <= k < |srcs| ==> dsts[k] == PlanDst(m, srcs, base, k))
  }

  predicate Touches(lo: int, hi: int, a: Addr, o: Obj) {
    lo < a + 1 + o.NumSlots() && a - o.Extra() < hi
  }

  /** Writing target `k` does not touch object `j` where it is before the slide. */
  ghost predicate Clear(m: Memory, srcs: seq<Addr>, dsts: seq<Addr>, k: nat, j: nat)
    requires Listed(m, srcs) && |dsts| == |srcs| && k < |srcs| && j < |srcs|
  {
    var o := m[srcs[k]].obj;
    !Touches(dsts[k] - o.Extra(), dsts[k] + 1 + o.NumSlots(), srcs[j], m[srcs[j]].obj)
  }

  /** No target touches an object that is still to be moved when it is written. */
  ghost predicate PlanOk(m: Memory, srcs: seq<Addr>, dsts: seq<Addr>, base: Addr) {
    && PlanShape(m, srcs, dsts, base)
    && (forall k, j :: 0 <= k < j < |srcs| ==> Clear(m, srcs, dsts, k, j))
  }

  /** The target of object `k`, from the words and overflow words planned before it, ends before the source of object `j`
      starts, or starts after it ends. */
  ghost predicate Misses(m: Memory, objs: seq<Addr>, base: Addr, k: nat, j: nat)
    requires Listed(m, objs) && k < j < |objs|
  {
    || Words(m, objs[..k + 1]) + Overflows(m, objs[..k]) <= Words(m, objs[..j]) + Slack(m, objs, base, j)
    || Words(m, objs[..j + 1]) + Slack(m, objs, base, j) <= Words(m, objs[..k]) + Overflows(m, objs[..k])
  }

  lemma MissesIff(m: Memory, srcs: seq<Addr>, dsts: seq<Addr>, base: Addr, k: nat, j: nat)
    requires PlanShape(m, srcs, dsts, base) && k < j < |srcs|
    ensures Misses(m, srcs, base, k, j) <==> Clear(m, srcs, dsts, k, j)
  {
    hide PlanNext;
    PlanNextSum(m, srcs[..k], base);
    assert srcs[..k + 1][..k] == srcs[..k] && srcs[..j + 1][..j] == srcs[..j];
    assert dsts[k] == PlanDst(m, srcs, base, k);
  }

  lemma {:induction false} PlanNextGrows(m: Memory, objs: seq<Addr>, base: Addr, j: nat, k: nat)
    requires Listed(m, objs) && j <= k <= |objs|
    ensures base <= PlanNext(m, objs[..j], base) <= PlanNext(m, objs[..k], base)
    decreases k
  {
    if j < k {
      PlanNextGrows(m, objs, base, j, k - 1);
      assert objs[..k][..k - 1] == objs[..k - 1];
    } else if j > 0 {
      PlanNextGrows(m, objs, base, j - 1, k - 1);
      assert objs[..k][..k - 1] == objs[..k - 1];
    }
  }

  lemma PlanNextStep(m: Memory, objs: seq<Addr>, base: Addr, k: nat)
    requires Listed(m, objs) && k < |objs|
    ensures PlanNext(m, objs[..k + 1], base) ==
      PlanNext(m, objs[..k], base) + m[objs[k]].obj.Extra() + m[objs[k]].obj.Footprint()
  {
    assert objs[..k + 1][..k] == objs[..k];
  }

  /** Targets start at or after `base` and do not overlap each other. */
  lemma PlanApart(m: Memory, srcs: seq<Addr>, dsts: seq<Addr>, base: Addr, j: nat, k: nat)
    requires PlanShape(m, srcs, dsts, base) && j < k < |srcs|
    ensures base + m[srcs[k]].obj.Extra() <= dsts[k]
    ensures dsts[j] + 1 + m[srcs[j]].obj.NumSlots() + m[srcs[k]].obj.Extra() <= dsts[k]
  {
    PlanNextStep(m, srcs, base, j);
    PlanNextGrows(m, srcs, base, j + 1, k);
    PlanNextGrows(m, srcs, base, 0, k);
  }

  /** An object that does not move right cannot touch one that is still to be moved. */
  lemma PlanClears(m: Memory, srcs: seq<Addr>, dsts: seq<Addr>, base: Addr, k: nat, j: nat)
    requires PlanShape(m, srcs, dsts, base) && NoOverlap(m) && k < j < |srcs| && dsts[k] <= srcs[k]
    ensures Clear(m, srcs, dsts, k, j)
  {
    assert srcs[k] < srcs[j];
    assert Apart(srcs[k], m[srcs[k]].obj, srcs[j], m[srcs[j]].obj);
  }

  /** Without overflow words each target starts where the one before ends. */
  lemma PlanContiguous(m: Memory, srcs: seq<Addr>, dsts: seq<Addr>, base: Addr, k: nat)
    requires PlanShape(m, srcs, dsts, base) && k < |srcs| && m[srcs[k]].obj.Extra() == 0
    ensures dsts[k] == PlanNext(m, srcs[..k], base)
    ensures PlanNext(m, srcs[..k + 1], base) == dsts[k] + 1 + m[srcs[k]].obj.NumSlots()
  {
    PlanNextStep(m, srcs, base, k);
  }

  // ---------- the slide ----------

  /** Copy the words of the object at `src` to `dst`. Every other object with a word in the target is destroyed. */
  function MoveWords(m: Memory, src: Addr, dst: Addr): Memory
    requires src in m && m[src].Live?
  {
    var o := m[src].obj;
    (map a | a in m && !(m[a].Live? && Touches(dst - o.Extra(), dst + 1 + o.NumSlots(), a, m[a].obj)) :: m[a])
    [dst := Live(o)]
  }

  /** A moved object has its mark cleared and its remembered bit recomputed. */
  ghost function Settled(h: Heap, a: Addr): Obj
    requires a in h.mem && h.mem[a].Live?
  {
    h.mem[a].obj.(gc := h.mem[a].obj.gc.(mark := false, remembered := PointsYoung(h, a)))
  }

  ghost predicate NoOverflow(m: Memory, objs: seq<Addr>)
    requires Listed(m, objs)
  {
    forall k :: 0 <= k < |objs| ==> m[objs[k]].obj.Extra() == 0
  }

  /** After `k` moves: young objects untouched, moved objects in place, the others still where they were; without
      overflow words nothing else is left below the last word written. */
  ghost predicate Sliding(h: Heap, srcs: seq<Addr>, dsts: seq<Addr>, k: nat, g: Heap) {
    && PlanOk(h.mem, srcs, dsts, h.oldSpace.base) && k <= |srcs|
    && g == h.(mem := g.mem, ssb := g.ssb)
    && (forall a :: a in g.mem ==> g.mem[a].Live?)
    && (forall a :: IsYoung(h, a) ==> (a in g.mem <==> a in h.mem))
    && (forall a :: IsYoung(h, a) && a in h.mem ==> g.mem[a] == h.mem[a])
    && (forall j :: 0 <= j < k ==> dsts[j] in g.mem && g.mem[dsts[j]] == Live(Settled(h, srcs[j])))
    && (forall j :: k <= j < |srcs| ==> srcs[j] in g.mem && g.mem[srcs[j]] == h.mem[srcs[j]])
  }

  ghost predicate Tidy(h: Heap, srcs: seq<Addr>, dsts: seq<Addr>, k: nat, g: Heap)
    requires Listed(h.mem, srcs) && k <= |srcs| == |dsts|
  {
    NoOverflow(h.mem, srcs) ==>
      forall a :: a in g.mem && !IsYoung(h, a) && a < PlanNext(h.mem, srcs[..k], h.oldSpace.base) ==> a in dsts[..k]
  }

  ghost predicate Buffered(h: Heap, srcs: seq<Addr>, dsts: seq<Addr>, k: nat, ssb: seq<Addr>)
    requires Listed(h.mem, srcs) && k <= |srcs| == |dsts|
  {
    && NoDuplicates(ssb)
    && (forall a :: a in ssb <==> exists j :: 0 <= j < k && dsts[j] == a && PointsYoung(h, srcs[j]))
  }

  /** One round of the move loop. */
  ghost function Slid(h: Heap, g: Heap, src: Addr, dst: Addr): Heap
    requires src in h.mem && h.mem[src].Live? && src in g.mem && g.mem[src].Live?
  {
    g.(mem := MoveWords(g.mem, src, dst)[dst := Live(Settled(h, src))],
       ssb := if PointsYoung(h, src) then g.ssb + [dst] else g.ssb)
  }

  /** The storage of the objects to move lies in old space, that of young objects in young space, and the plan ends inside
      old space. */
  ghost predicate SlideArea(h: Heap, srcs: seq<Addr>) {
    && SpacesOk(h) && NoOverlap(h.mem)
    && (forall a :: a in h.mem && IsYoung(h, a) ==> h.mem[a].Live? && InUsed(h.young, a, h.mem[a].obj))
    && (forall k :: 0 <= k < |srcs| ==> srcs[k] in h.mem && h.mem[srcs[k]].Live? && InUsed(h.oldSpace, srcs[k], h.mem[srcs[k]].obj))
    && PlanNext(h.mem, srcs, h.oldSpace.base) <= h.oldSpace.Top()
  }

  /** Every target lies between the base of old space and the end of the plan. */
  lemma TargetBounds(m: Memory, srcs: seq<Addr>, dsts: seq<Addr>, base: Addr, k: nat)
    requires PlanShape(m, srcs, dsts, base) && k < |srcs|
    ensures base + m[srcs[k]].obj.Extra() <= dsts[k] && dsts[k] + 1 + m[srcs[k]].obj.NumSlots() <= PlanNext(m, srcs, base)
  {
    assert srcs[..|srcs|] == srcs && srcs[..0] == [];
    PlanNextGrows(m, srcs, base, 0, k);
    PlanNextStep(m, srcs, base, k);
    PlanNextGrows(m, srcs, base, k + 1, |srcs|);
  }

  lemma SlideStep(h: Heap, srcs: seq<Addr>, dsts: seq<Addr>, k: nat, g: Heap)
    requires SlideArea(h, srcs) && Sliding(h, srcs, dsts, k, g) && k < |srcs|
    ensures Sliding(h, srcs, dsts, k + 1, Slid(h, g, srcs[k], dsts[k]))
  {
    var g', m, o := Slid(h, g, srcs[k], dsts[k]), h.mem, h.mem[srcs[k]].obj;
    TargetBounds(m, srcs, dsts, h.oldSpace.base, k);
    forall j | k < j < |srcs|
      ensures srcs[j] in g'.mem && g'.mem[srcs[j]] == m[srcs[j]]
    {
      assert Clear(m, srcs, dsts, k, j);
    }
    forall j | 0 <= j < k
      ensures dsts[j] in g'.mem && g'.mem[dsts[j]] == Live(Settled(h, srcs[j]))
    {
      PlanApart(m, srcs, dsts, h.oldSpace.base, j, k);
    }
    forall a | IsYoung(h, a) && a in m
      ensures a in g'.mem && g'.mem[a] == m[a]
    {
      assert InUsed(h.young, a, m[a].obj);
    }
  }

  lemma SlideTidy(h: Heap, srcs: seq<Addr>, dsts: seq<Addr>, k: nat, g: Heap)
    requires Sliding(h, srcs, dsts, k, g) && k < |srcs|
    requires Tidy(h, srcs, dsts, k, g)
    ensures Tidy(h, srcs, dsts, k + 1, Slid(h, g, srcs[k], dsts[k]))
  {
    hide PointsYoung, Settled, PlanNext, PlanDst, MoveWords;
    if NoOverflow(h.mem, srcs) {
      var g', next := Slid(h, g, srcs[k], dsts[k]), PlanNext(h.mem, srcs[..k + 1], h.oldSpace.base);
      PlanContiguous(h.mem, srcs, dsts, h.oldSpace.base, k);
      assert dsts[..k + 1] == dsts[..k] + [dsts[k]];
      forall a | a in g'.mem && !IsYoung(h, a) && a < next
        ensures a in dsts[..k + 1]
      {
        if a != dsts[k] {
          SurvivesMove(g.mem, srcs[k], dsts[k], a);
        }
      }
    }
  }

  lemma SurvivesMove(m: Memory, src: Addr, dst: Addr, a: Addr)
    requires src in m && m[src].Live? && m[src].obj.Extra() == 0
    requires a in MoveWords(m, src, dst) && a != dst
    requires a in m ==> m[a].Live?
    ensures a in m && (a < dst || dst + 1 + m[src].obj.NumSlots() <= a)
  {
  }

  lemma SlideBuffered(h: Heap, srcs: seq<Addr>, dsts: seq<Addr>, k: nat, g: Heap)
    requires Sliding(h, srcs, dsts, k, g) && k < |srcs|
    requires Buffered(h, srcs, dsts, k, g.ssb)
    ensures Buffered(h, srcs, dsts, k + 1, Slid(h, g, srcs[k], dsts[k]).ssb)
  {
    hide PointsYoung, Settled;
    var ssb := Slid(h, g, srcs[k], dsts[k]).ssb;
    forall j | 0 <= j < k
      ensures dsts[j] != dsts[k]
    {
      PlanApart(h.mem, srcs, dsts, h.oldSpace.base, j, k);
    }
    assert dsts[k] !in g.ssb;
    if PointsYoung(h, srcs[k]) {
      forall a | a in ssb
        ensures exists j :: 0 <= j < k + 1 && dsts[j] == a && PointsYoung(h, srcs[j])
      {
        if a in g.ssb {
          var j :| 0 <= j < k && dsts[j] == a && PointsYoung(h, srcs[j]);
        } else {
          assert dsts[k] == a;
        }
      }
    }
  }
}
