/** The collector and the write barrier over a mutable heap. */
module Collector {
  import opened Options
  import opened ObjectMemory
  import opened Scavenge
  import opened ScavengeSteps
  import opened ScavengeResult
  import opened Renaming
  import opened Compaction
  import opened CompactionResult
  import opened CompactionExact
  import opened HeapWalk
  import opened Mutator
  import opened HeapSteps
  import opened StackSizes

  ghost predicate Ascending(s: seq<Addr>) {
    forall i, j :: 0 <= i < j < |s| ==> s[i] < s[j]
  }

  /** Insert `x` into an ascending sequence unless it is there. */
  method Insert(s: seq<Addr>, x: Addr) returns (r: seq<Addr>)
    requires Ascending(s)
    ensures Ascending(r)
    ensures forall a :: a in r <==> a in s || a == x
  {
    var i := 0;
    while i < |s| && s[i] < x
      invariant i <= |s|
      invariant forall j :: 0 <= j < i ==> s[j] < x
    {
      i := i + 1;
    }
    if i < |s| && s[i] == x {
      r := s;
    } else {
      r := s[..i] + [x] + s[i..];
    }
  }

  /** Sort and drop repetitions. */
  method SortDedup(s: seq<Addr>) returns (r: seq<Addr>)
    ensures Ascending(r)
    ensures forall a :: a in r <==> a in s
  {
    r := [];
    for i := 0 to |s|
      invariant Ascending(r)
      invariant forall a :: a in r <==> a in s[..i]
    {
      r := Insert(r, s[i]);
      assert s[..i + 1] == s[..i] + [s[i]];
    }
    assert s[..|s|] == s;
  }

  class Collector {
    var mem: Memory
    var young: Space
    var spare: Space
    var oldSpace: Space
    var ssb: seq<Addr>
    var roots: seq<Value>
    var active: Value
    var threshold: nat

    ghost function State(): Heap
      reads this
    {
      Heap(mem, young, spare, oldSpace, ssb, roots, active, threshold)
    }

    /** A machine with nothing but nil, true and false in old space and no process running. */
    constructor Bare(youngSpace: Space, spareSpace: Space, oldRegion: Space, tenureAge: nat)
      requires youngSpace.alloc == spareSpace.alloc == oldRegion.alloc == 0
      requires youngSpace.words == spareSpace.words && oldRegion.words >= 3
      requires Disjoint(youngSpace, spareSpace) && Disjoint(youngSpace, oldRegion) && Disjoint(spareSpace, oldRegion)
      ensures State() == BareHeap(youngSpace, spareSpace, oldRegion, tenureAge) && Good(State())
    {
      var b := oldRegion.base;
      mem, young, spare, oldSpace := BareMemory(b), youngSpace, spareSpace, oldRegion.(alloc := 3);
      ssb, roots, active, threshold := [], [Ptr(b), Ptr(b + 1), Ptr(b + 2)], Ptr(b), tenureAge;
      new;
      hide Good;
      BareGood(youngSpace, spareSpace, oldRegion, tenureAge);
    }

    /** Copy the from-space object at `addr` into old space when it is to be tenured and fits, else into to-space;
        leave a forwarding word. */
    method Copy(addr: Addr) returns (n: Addr, isOld: bool)
      requires Copyable(State(), addr)
      modifies this`mem, this`spare, this`oldSpace
      ensures State() == CopyOut(old(State()), addr)
      ensures n == CopyAddr(old(State()), old(mem)[addr].obj)
      ensures isOld == TakesOld(old(State()), old(mem)[addr].obj)
    {
      var o := mem[addr].obj;
      var wantsTenure := NextAge(o.gc.age) >= threshold;
      var start;
      if wantsTenure && oldSpace.HasRoom(o.Footprint()) {
        start, isOld := oldSpace.Top(), true;
        oldSpace := oldSpace.(alloc := oldSpace.alloc + o.Footprint());
      } else {
        start, isOld := spare.Top(), false;
        spare := spare.(alloc := spare.alloc + o.Footprint());
      }
      n := start + o.Extra();
      mem := mem[n := Live(o.(gc := CopyGc(o.gc)))];
      mem := mem[addr := Moved(n)];
    }

    /** Copy a from-space object, or return the forward that is there already. */
    method Forward(v: Value, work: seq<Addr>, tenured: seq<Addr>, ghost h0: Heap)
      returns (f: Value, work': seq<Addr>, tenured': seq<Addr>)
      requires StartOk(h0) && Scavenging(h0, State())
      requires Known(h0, State(), v) && TenuredOk(h0, State(), tenured)
      modifies this`mem, this`spare, this`oldSpace
      ensures Scavenging(h0, State())
      ensures f == Forwarded(Forwards(mem), v) && !YoungValue(State(), f)
      ensures Grows(old(State()), work, State(), work', {})
      ensures TenuredOk(h0, State(), tenured')
    {
      hide Scavenging, StartOk, Known, Grows, TenuredOk, Copyable, CopyOut;
      ForwardSteps(h0, State(), v, work, tenured);
      work', tenured' := work, tenured;
      if !v.Ptr? {
        return v, work', tenured';
      }
      var addr := v.addr;
      if !young.Contains(addr) {
        return v, work', tenured';
      }
      if mem[addr].Moved? {
        return Ptr(mem[addr].to), work', tenured';
      }
      var n, isOld := Copy(addr);
      work' := work' + [n];
      if isOld {
        tenured' := tenured' + [n];
      }
      f := Ptr(n);
    }

    /** Forward the root vectors, then the running process. */
    method ForwardRoots(ghost h0: Heap) returns (work: seq<Addr>, tenured: seq<Addr>)
      requires StartOk(h0) && State() == h0 && Scavenging(h0, h0)
      requires RootsKnown(h0) && forall a :: a in mem ==> mem[a].Live?
      modifies this`mem, this`spare, this`oldSpace, this`roots, this`active
      ensures Scavenging(h0, State()) && Queue(h0, State(), work) && TenuredOk(h0, State(), tenured)
      ensures |roots| == |h0.roots| && forall j :: 0 <= j < |roots| ==> Done(State(), h0.roots[j], roots[j])
      ensures Done(State(), h0.active, active)
    {
      hide Scavenging, StartOk, Grows, Known, TenuredOk, Done;
      work, tenured := [], [];
      StartGreys(h0);
      for i := 0 to |roots|
        invariant |roots| == |h0.roots| && active == h0.active
        invariant Scavenging(h0, State()) && Queue(h0, State(), work) && TenuredOk(h0, State(), tenured)
        invariant forall j :: 0 <= j < i ==> Done(State(), h0.roots[j], roots[j])
        invariant forall j :: i <= j < |roots| ==> roots[j] == h0.roots[j]
      {
        ghost var h, w := State(), work;
        var f;
        RootKnown(h0, State(), roots[i]);
        f, work, tenured := Forward(roots[i], work, tenured, h0);
        GrowsQueue(h0, h, w, State(), work, {});
        forall j | 0 <= j < i
          ensures Done(State(), h0.roots[j], roots[j])
        {
          DoneMore(h0, h, w, State(), work, {}, h0.roots[j], roots[j]);
        }
        DoneNow(State(), roots[i], f);
        RewriteRoots(h0, State(), work, tenured, roots[i := f], active);
        roots := roots[i := f];
      }
      ghost var h, w := State(), work;
      var f;
      RootKnown(h0, State(), active);
      f, work, tenured := Forward(active, work, tenured, h0);
      GrowsQueue(h0, h, w, State(), work, {});
      forall j | 0 <= j < |roots|
        ensures Done(State(), h0.roots[j], roots[j])
      {
        DoneMore(h0, h, w, State(), work, {}, h0.roots[j], roots[j]);
      }
      DoneNow(State(), active, f);
      RewriteRoots(h0, State(), work, tenured, roots, f);
      active := f;
    }

    /** Scan the running process's stack, wherever it lives: stores into it skip the barrier. */
    method ScanRunningStack(work: seq<Addr>, tenured: seq<Addr>, ghost h0: Heap)
      returns (work': seq<Addr>, tenured': seq<Addr>, activeOldStack: seq<Addr>)
      requires HeapOk(h0) && Scavenging(h0, State())
      requires Queue(h0, State(), work) && TenuredOk(h0, State(), tenured)
      requires |roots| > 0 && roots[0] == Nil(h0) && Done(State(), h0.active, active)
      modifies this`mem, this`spare, this`oldSpace
      ensures Scavenging(h0, State())
      ensures Queue(h0, State(), work') && TenuredOk(h0, State(), tenured')
      ensures Grows(old(State()), work, State(), work', old(mem).Keys)
      ensures forall s :: s in RunningStack(h0) ==>
        Black(State(), Image(State(), s)) && (oldSpace.Contains(Image(State(), s)) ==> Image(State(), s) in activeOldStack)
      ensures forall n :: n in activeOldStack ==>
        oldSpace.Contains(n) && exists s :: s in RunningStack(h0) && Image(State(), s) == n
    {
      hide Scavenging, HeapOk, Grows, Known, TenuredOk, Done, Greys, RunningStack, ImageOf;
      ghost var h := State();
      HeapStart(h0);
      ActiveImage(h0, h);
      work', tenured', activeOldStack := work, tenured, [];
      GrowsRefl(h, work, old(mem).Keys);
      if active.Ptr? && active != roots[0] {
        var p := active.addr;
        var stack := mem[p].obj.Refs()[PROCESS_STACK];
        if stack.Ptr? && stack != roots[0] {
          work', tenured' := ScanSlot(p, PROCESS_STACK, work', tenured', h0);
          ghost var h1, w1 := State(), work';
          var f := mem[p].obj.Refs()[PROCESS_STACK].addr;
          RunningImage(h0, h, work, h1, w1, p);
          SlotQueue(h0, h, work, h1, w1, p, PROCESS_STACK);
          work', tenured' := ScanObject(f, work', tenured', h0);
          ScanQueue(h0, h1, w1, State(), work', f);
          GrowsAll(h, work, h1, w1, {p}, State(), work', {f});
          MovedYoung(h0, State());
          ImageStays(h1, w1, State(), work', {f}, StackValue(h0).addr);
          if oldSpace.Contains(f) {
            activeOldStack := [f];
          }
        }
      }
    }

    /** Scan the remembered old objects. */
    method ScanBuffer(work: seq<Addr>, tenured: seq<Addr>, ghost h0: Heap)
      returns (work': seq<Addr>, tenured': seq<Addr>)
      requires HeapOk(h0) && Scavenging(h0, State())
      requires Queue(h0, State(), work) && TenuredOk(h0, State(), tenured)
      modifies this`mem, this`spare, this`oldSpace
      ensures Scavenging(h0, State())
      ensures Queue(h0, State(), work') && TenuredOk(h0, State(), tenured')
      ensures Grows(old(State()), work, State(), work', old(mem).Keys) && BlackStays(old(State()), State())
      ensures forall b :: b in ssb ==> Black(State(), b)
    {
      hide Scavenging, HeapOk, Grows, Known, TenuredOk, Queue, Black;
      ghost var start := State();
      HeapStart(h0);
      BufferKept(h0, State());
      GrowsRefl(start, work, start.mem.Keys);
      work', tenured' := work, tenured;
      for i := 0 to |ssb|
        invariant Scavenging(h0, State())
        invariant Queue(h0, State(), work') && TenuredOk(h0, State(), tenured')
        invariant Grows(start, work, State(), work', start.mem.Keys) && BlackStays(start, State())
        invariant forall j :: 0 <= j < i ==> Black(State(), ssb[j])
      {
        ghost var h, w := State(), work';
        BufferScannable(h0, h, ssb[i]);
        work', tenured' := ScanObject(ssb[i], work', tenured', h0);
        ScanQueue(h0, h, w, State(), work', ssb[i]);
        GrowsAll(start, work, h, w, start.mem.Keys, State(), work', {ssb[i]});
      }
    }

    /** Scan copies until none is left. */
    method Drain(work: seq<Addr>, tenured: seq<Addr>, ghost h0: Heap) returns (tenured': seq<Addr>)
      requires HeapOk(h0) && Scavenging(h0, State())
      requires Queue(h0, State(), work) && TenuredOk(h0, State(), tenured)
      modifies this`mem, this`spare, this`oldSpace
      ensures Scavenging(h0, State()) && Greys(State(), [], {}) && TenuredOk(h0, State(), tenured')
      ensures exists w :: Grows(old(State()), work, State(), w, old(mem).Keys)
      ensures BlackStays(old(State()), State())
    {
      hide Scavenging, HeapOk, Grows, Known, TenuredOk, Queue, Black, Greys;
      ghost var start := State();
      HeapStart(h0);
      ghost var trail := work;
      GrowsRefl(start, work, start.mem.Keys);
      var w := work;
      tenured' := tenured;
      while |w| > 0
        invariant Scavenging(h0, State())
        invariant Queue(h0, State(), w) && TenuredOk(h0, State(), tenured')
        invariant Grows(start, work, State(), trail, start.mem.Keys) && BlackStays(start, State())
        decreases |HeadersIn(h0.mem, h0.young)| - |Forwards(mem)| + |w|
      {
        ghost var h, all := State(), w;
        var obj := w[|w| - 1];
        w := w[..|w| - 1];
        ghost var w0 := w;
        assert w + [obj] == all;
        CopyScannable(h0, h, w + [obj], obj);
        PopQueue(h0, h, w, obj);
        w, tenured' := ScanObject(obj, w, tenured', h0);
        PoppedQueue(h0, h, w0, State(), w, obj);
        GrowsAnyTrail(h, w0, State(), w, trail, {obj});
        GrowsAll(start, work, h, trail, start.mem.Keys, State(), trail + w[|w0|..], {obj});
        trail := trail + w[|w0|..];
        ForwardsBounded(h0, State());
      }
      EmptyQueue(h0, State(), w);
    }

    /** Forward every slot of a pointer object; byte objects have none. */
    method ScanObject(b: Addr, work: seq<Addr>, tenured: seq<Addr>, ghost h0: Heap)
      returns (work': seq<Addr>, tenured': seq<Addr>)
      requires StartOk(h0) && Scavenging(h0, State())
      requires Scannable(h0, State(), b) && TenuredOk(h0, State(), tenured)
      modifies this`mem, this`spare, this`oldSpace
      ensures Scavenging(h0, State())
      ensures Grows(old(State()), work, State(), work', {b})
      ensures Black(State(), b) && TenuredOk(h0, State(), tenured')
    {
      hide Scavenging, StartOk, Grows, Known, TenuredOk;
      work', tenured' := work, tenured;
      GrowsRefl(State(), work, {b});
      var n := |mem[b].obj.Refs()|;
      for i := 0 to n
        invariant Scavenging(h0, State())
        invariant Scannable(h0, State(), b) && |mem[b].obj.Refs()| == n
        invariant forall j :: 0 <= j < i ==> !YoungValue(State(), mem[b].obj.Refs()[j])
        invariant Grows(old(State()), work, State(), work', {b}) && TenuredOk(h0, State(), tenured')
      {
        ghost var h, w := State(), work';
        work', tenured' := ScanSlot(b, i, work', tenured', h0);
        GrowsTrans(old(State()), work, h, w, State(), work', {b});
        ScanSlotScannable(h0, h, w, State(), work', b, i);
      }
    }

    /** Forward slot `i` of the object at `b`. */
    method ScanSlot(b: Addr, i: nat, work: seq<Addr>, tenured: seq<Addr>, ghost h0: Heap)
      returns (work': seq<Addr>, tenured': seq<Addr>)
      requires StartOk(h0) && Scavenging(h0, State())
      requires Slot(State(), b, i) && Known(h0, State(), mem[b].obj.Refs()[i])
      requires TenuredOk(h0, State(), tenured)
      modifies this`mem, this`spare, this`oldSpace
      ensures Scavenging(h0, State())
      ensures Grows(old(State()), work, State(), work', {b})
      ensures TenuredOk(h0, State(), tenured')
      ensures Slot(State(), b, i) && mem[b].obj.Refs()[i] == Forwarded(Forwards(mem), old(mem)[b].obj.Refs()[i])
      ensures !YoungValue(State(), mem[b].obj.Refs()[i])
      ensures |mem[b].obj.Refs()| == |old(mem)[b].obj.Refs()|
      ensures forall j :: 0 <= j < |mem[b].obj.Refs()| && j != i ==> mem[b].obj.Refs()[j] == old(mem)[b].obj.Refs()[j]
    {
      hide Scavenging, StartOk, Grows, Known, TenuredOk, Rewrite;
      var v := mem[b].obj.Refs()[i];
      var f;
      f, work', tenured' := Forward(v, work, tenured, h0);
      GrowsKeeps(old(State()), work, State(), work', b);
      RewriteSteps(h0, State(), b, i, work');
      RewriteTenured(h0, State(), b, i, tenured');
      ghost var h1 := State();
      RewriteIs(h1, b, i, f);
      if f != v {
        mem := mem[b := Live(mem[b].obj.WithRef(i, f))];
      }
      GrowsMore(old(State()), work, h1, work', State(), b);
    }

    method ObjectPointsYoung(b: Addr) returns (r: bool)
      requires b in mem && mem[b].Live?
      ensures r <==> PointsYoung(State(), b)
    {
      var refs := mem[b].obj.Refs();
      for i := 0 to |refs|
        invariant forall j :: 0 <= j < i ==> !(refs[j].Ptr? && young.Contains(refs[j].addr))
      {
        if refs[i].Ptr? && young.Contains(refs[i].addr) {
          assert refs[i] in refs;
          return true;
        }
      }
      r := false;
    }

    /** Set or clear the remembered bit of an object by whether it refers to young ones, and buffer it if it does. */
    method Recompute(b: Addr)
      requires b in mem && mem[b].Live? && b !in ssb && NoDuplicates(ssb)
      modifies this`mem, this`ssb
      ensures mem == old(mem)[b := Live(WithRemembered(old(mem)[b].obj, PointsYoung(old(State()), b)))]
      ensures ssb == if PointsYoung(old(State()), b) then old(ssb) + [b] else old(ssb)
      ensures NoDuplicates(ssb)
    {
      var pointsYoung := ObjectPointsYoung(b);
      hide PointsYoung;
      var o := mem[b].obj;
      assert WithRemembered(o, o.gc.remembered) == o;
      if pointsYoung {
        if !o.gc.remembered {
          mem := mem[b := Live(WithRemembered(o, true))];
        }
        ssb := ssb + [b];
      } else if o.gc.remembered {
        mem := mem[b := Live(WithRemembered(o, false))];
      }
    }

    /** Recompute the remembered bit of each rechecked object and refill the store buffer. */
    method Rebuild(recheck: seq<Addr>)
      requires Ascending(recheck) && ssb == []
      requires forall a :: a in recheck ==> a in mem && mem[a].Live?
      modifies this`mem, this`ssb
      ensures Rebuilt(old(State()), recheck, State())
    {
      hide PointsYoung, NoDuplicates, Rebuilt;
      ghost var h1 := State();
      NoDuplicatesYet();
      for i := 0 to |recheck|
        invariant mem.Keys == h1.mem.Keys && NoDuplicates(ssb)
        invariant forall a :: a in h1.mem && a !in recheck[..i] ==> mem[a] == h1.mem[a]
        invariant forall a :: a in recheck[..i] ==> mem[a] == Live(WithRemembered(h1.mem[a].obj, PointsYoung(h1, a)))
        invariant forall a :: a in ssb <==> a in recheck[..i] && PointsYoung(h1, a)
      {
        var b := recheck[i];
        assert b !in recheck[..i];
        assert recheck[..i + 1] == recheck[..i] + [b];
        SamePointsYoung(h1, State(), b);
        Recompute(b);
      }
      assert recheck[..|recheck|] == recheck;
      RebuiltNow(h1, recheck, State());
    }

    /** Copy everything that can be reached from the roots, the running stack and the store buffer. */
    method Trace(ghost h0: Heap) returns (tenured: seq<Addr>, activeOldStack: seq<Addr>)
      requires HeapOk(h0) && State() == h0
      modifies this`mem, this`spare, this`oldSpace, this`roots, this`active
      ensures Scavenging(h0, State()) && Scanned(h0, State())
      ensures TenuredOk(h0, State(), tenured) && StackListed(h0, State(), activeOldStack)
    {
      hide HeapOk, Scavenging, Done, Queue, Greys, Grows, TenuredOk, Black, Scanned, RunningStack, BlackStays, StackListed,
        StartOk, RootsKnown;
      StartScavenging(h0);
      var work;
      work, tenured := ForwardRoots(h0);
      ghost var h1, w1 := State(), work;
      NilKept(h0, h1);
      work, tenured, activeOldStack := ScanRunningStack(work, tenured, h0);
      ghost var h2, w2 := State(), work;
      RootsDone(h0, h1, w1, h2, w2);
      StackScannedNow(h0, h2, activeOldStack);
      work, tenured := ScanBuffer(work, tenured, h0);
      ghost var h3, w3 := State(), work;
      RootsDone(h0, h2, w2, h3, w3);
      StackScannedStill(h0, h2, w2, h3, w3, activeOldStack);
      BufferKept(h0, h3);
      tenured := Drain(work, tenured, h0);
      ghost var h := State();
      ghost var w :| Grows(h3, w3, h, w, h3.mem.Keys);
      RootsDone(h0, h3, w3, h, w);
      StackScannedStill(h0, h3, w3, h, w, activeOldStack);
      AllScanned(h0, h3, h, activeOldStack);
    }

    /** Scavenge the young generation. */
    method CollectYoung() returns (ghost phi: map<Addr, Addr>)
      requires HeapOk(State())
      modifies this
      ensures HeapOk(State())
      ensures Scavenged(old(State()), State(), phi) && ScavengeStep(old(State()), State())
    {
      hide HeapOk, Scavenging, Recheck, Scanned, Rebuilt, Scavenged, TenuredOk, StackListed;
      ghost var h0 := State();
      var tenured, activeOldStack := Trace(h0);
      ghost var h := State();
      var drained := ssb;
      mem := map a | a in mem && !young.Contains(a) :: mem[a];
      young, spare := spare, young.(alloc := 0);
      ssb := [];
      assert State() == Flip(h);
      var recheck := SortDedup(drained + tenured + activeOldStack);
      RecheckComplete(h0, h, tenured, activeOldStack, recheck);
      Rebuild(recheck);
      ScavengeEnds(h0, h, recheck, State());
      phi := Forwards(h.mem);
    }

    // ---------- old generation: mark-compact ----------

    /** Mark the object a value refers to and stack it, unless it is marked. */
    method MarkValue(v: Value, stack: seq<Addr>, ghost pending: seq<Addr>, ghost h0: Heap) returns (stack': seq<Addr>)
      requires MarkOk(h0, State(), pending + stack)
      requires v.Ptr? ==> Alive(h0, v.addr) && v.addr in h0.mem && (IsYoung(h0, v.addr) || IsOld(h0, v.addr))
      modifies this`mem
      ensures MarkOk(h0, State(), pending + stack')
      ensures v.Ptr? ==> Marked(State(), v.addr)
      ensures MarksStay(old(State()), State())
      ensures |Unmarked(State())| + |stack'| == |Unmarked(old(State()))| + |stack|
    {
      stack' := stack;
      if !v.Ptr? {
        return;
      }
      var a := v.addr;
      if !young.Contains(a) && !oldSpace.Contains(a) {
        return;
      }
      var o := mem[a].obj;
      if o.gc.mark {
        return;
      }
      SetMarkKeeps(h0, State(), pending + stack, a);
      mem := mem[a := Live(WithMark(o, true))];
      stack' := stack + [a];
      assert pending + stack' == pending + stack + [a];
    }

    /** Mark what the roots refer to, then all that can be reached from there. */
    method Mark(ghost h0: Heap)
      requires HeapOk(h0) && State() == h0
      modifies this`mem
      ensures SameButMarks(h0, State()) && forall a :: Marked(State(), a) <==> Alive(h0, a)
    {
      hide HeapOk, MarkOk, Marked, Alive, MarksStay, Unmarked;
      MarkStart(h0);
      var stack: seq<Addr> := [];
      for i := 0 to |roots|
        invariant MarkOk(h0, State(), [] + stack) && roots == h0.roots && active == h0.active
        invariant forall j :: 0 <= j < i && roots[j].Ptr? ==> Marked(State(), roots[j].addr)
      {
        MarkRoot(h0, roots[i]);
        ghost var h := State();
        stack := MarkValue(roots[i], stack, [], h0);
        MarksStayAll(h, State());
      }
      MarkRoot(h0, active);
      ghost var h := State();
      stack := MarkValue(active, stack, [], h0);
      MarksStayAll(h, State());
      MarkedRoots(h0, State());
      assert [] + stack == stack;
      while |stack| > 0
        invariant MarkOk(h0, State(), stack)
        invariant forall a :: a in RootAddrs(h0) ==> Marked(State(), a)
        decreases |Unmarked(State())| + |stack|
      {
        var b := stack[|stack| - 1];
        ghost var h := State();
        MarkTop(h0, h, stack);
        stack := MarkSlots(b, stack[..|stack| - 1], h0);
        MarksStayAll(h, State());
      }
      assert stack == [];
      MarkComplete(h0, State());
      MarkSame(h0, State());
    }

    /** Mark what the object at `b` refers to. */
    method MarkSlots(b: Addr, stack: seq<Addr>, ghost h0: Heap) returns (stack': seq<Addr>)
      requires HeapOk(h0) && MarkOk(h0, State(), [b] + stack) && Marked(State(), b)
      modifies this`mem
      ensures MarkOk(h0, State(), stack') && MarksStay(old(State()), State())
      ensures |Unmarked(State())| + |stack'| == |Unmarked(old(State()))| + |stack|
    {
      hide HeapOk, MarkOk, Alive, MarksStay, Unmarked;
      stack' := stack;
      MarksStayRefl(State());
      MarkedRefs(h0, State(), [b] + stack, b);
      var refs := mem[b].obj.Refs();
      for i := 0 to |refs|
        invariant MarkOk(h0, State(), [b] + stack') && MarksStay(old(State()), State())
        invariant forall j :: 0 <= j < i && refs[j].Ptr? ==> Marked(State(), refs[j].addr)
        invariant |Unmarked(State())| + |stack'| == |Unmarked(old(State()))| + |stack|
      {
        ghost var h := State();
        stack' := MarkValue(refs[i], stack', [b], h0);
        MarksStayAll(h, State());
        MarksStayTrans(old(State()), h, State());
      }
      MarkedSlots(h0, State(), b, stack', refs);
    }

    /** The headers of a space in address order, from one object's end to the next object's start. */
    method Walk(s: Space) returns (objs: seq<Addr>)
      requires Walkable(mem, s) && s.alloc <= s.words
      ensures Rising(objs)
      ensures forall a :: a in objs <==> a in HeadersIn(mem, s)
    {
      hide Walkable, WalkedTo, HeadersIn;
      objs := [];
      var p := s.base;
      WalkStarts(mem, s);
      while p < s.Top()
        invariant Rising(objs) && WalkedTo(mem, s, p) && p <= s.Top()
        invariant forall a :: a in objs <==> a in StartsBelow(mem, s, p)
        invariant forall a :: a in objs ==> a < p
      {
        WalkStep(mem, s, p);
        var obj := HeaderAt(mem, p);
        WalkedBounds(mem, s, p + mem[obj].obj.Footprint());
        ghost var before := objs;
        RisingSnoc(objs, obj);
        objs := objs + [obj];
        assert forall a :: a in objs <==> a in before || a == obj;
        p := p + mem[obj].obj.Footprint();
      }
      WalkEnds(mem, s);
    }

    /** Give each marked object its new address, sliding left from the base of old space. */
    method ComputeForwarding(live: seq<Addr>)
      returns (fwd: map<Addr, Addr>, srcs: seq<Addr>, dsts: seq<Addr>, next: Addr)
      requires forall a :: a in mem ==> mem[a].Live?
      requires Rising(live) && forall a :: a in live ==> a in mem
      ensures Rising(srcs) && Planned(mem, srcs, dsts, oldSpace.base, fwd, next)
      ensures forall a :: a in srcs <==> a in live && Marked(State(), a)
    {
      hide Planned;
      fwd, srcs, dsts, next := map[], [], [], oldSpace.base;
      PlanNone(mem, oldSpace.base);
      for i := 0 to |live|
        invariant Rising(srcs) && Planned(mem, srcs, dsts, oldSpace.base, fwd, next)
        invariant forall a :: a in srcs <==> a in live[..i] && Marked(State(), a)
      {
        var b := live[i];
        var o := mem[b].obj;
        assert live[..i + 1] == live[..i] + [b];
        if o.gc.mark {
          var dst := next + o.Extra();
          forall a | a in srcs
            ensures a < b
          {
            var j :| 0 <= j < i && live[j] == a;
          }
          RisingSnoc(srcs, b);
          PlanSnoc(mem, srcs, dsts, oldSpace.base, fwd, next, b);
          fwd, srcs, dsts := fwd[b := dst], srcs + [b], dsts + [dst];
          next := next + o.Extra() + o.Footprint();
        }
      }
      assert live[..|live|] == live;
    }

    /** A value through the forwarding table. */
    static method Fix(fwd: map<Addr, Addr>, v: Value) returns (f: Value)
      ensures f == Forwarded(fwd, v)
    {
      if v.Ptr? && v.addr in fwd {
        f := Ptr(fwd[v.addr]);
      } else {
        f := v;
      }
    }

    method FixRoots(fwd: map<Addr, Addr>)
      modifies this`roots, this`active
      ensures RenamesRoots(old(State()), State(), fwd)
    {
      for i := 0 to |roots|
        invariant |roots| == |old(roots)| && active == old(active)
        invariant forall j :: 0 <= j < i ==> roots[j] == Forwarded(fwd, old(roots)[j])
        invariant forall j :: i <= j < |roots| ==> roots[j] == old(roots)[j]
      {
        var f := Fix(fwd, roots[i]);
        roots := roots[i := f];
      }
      active := Fix(fwd, active);
    }

    /** Fix the slots of the object at `b` if it is marked. */
    method FixSlots(fwd: map<Addr, Addr>, b: Addr)
      requires b in mem && mem[b].Live?
      modifies this`mem
      ensures b in mem && mem == old(mem)[b := mem[b]] && FixedCell(fwd, old(mem)[b], mem[b])
    {
      var o := mem[b].obj;
      if !o.gc.mark || o.body.Bytes? {
        assert mem == mem[b := mem[b]];
        return;
      }
      hide FixedTo, FixedObj;
      FixedNone(fwd, o);
      for i := 0 to |o.Refs()|
        invariant b in mem && mem == old(mem)[b := mem[b]]
        invariant mem[b].Live? && FixedTo(fwd, o, mem[b].obj, i) && |mem[b].obj.Refs()| == |o.Refs()|
      {
        var v := mem[b].obj.Refs()[i];
        var f := Fix(fwd, v);
        FixedStep(fwd, o, mem[b].obj, i, f);
        if f != v {
          mem := mem[b := Live(mem[b].obj.WithRef(i, f))];
        }
      }
      FixedEnd(fwd, o, mem[b].obj);
    }

    method FixAll(fwd: map<Addr, Addr>, objs: seq<Addr>, ghost m1: Memory, ghost done: set<Addr>)
      requires forall a :: a in m1 ==> m1[a].Live?
      requires Rising(objs) && forall a :: a in objs ==> a in m1 && a !in done
      requires FixedSome(m1, mem, fwd, done)
      modifies this`mem
      ensures FixedSome(m1, mem, fwd, done + Members(objs))
    {
      assert done + Members(objs[..0]) == done;
      for i := 0 to |objs|
        invariant FixedSome(m1, mem, fwd, done + Members(objs[..i]))
      {
        hide FixedCell;
        assert objs[i] in objs;
        assert objs[i] !in Members(objs[..i]);
        assert done + Members(objs[..i]) + {objs[i]} == done + Members(objs[..i + 1]) by {
          assert objs[..i + 1] == objs[..i] + [objs[i]];
        }
        ghost var m := mem;
        FixSlots(fwd, objs[i]);
        FixedOne(m1, m, fwd, done + Members(objs[..i]), objs[i], mem[objs[i]]);
      }
      assert objs[..|objs|] == objs;
    }

    /** Move the objects in ascending order, clear their marks and refill the store buffer. The loop cannot tell when an object
        it is to move has been written over; here it stops and answers false. */
    method Slide(srcs: seq<Addr>, dsts: seq<Addr>, ghost h2: Heap) returns (intact: bool)
      requires State() == h2 && Listed(h2.mem, srcs) && |dsts| == |srcs| && forall a :: a in mem ==> mem[a].Live?
      requires forall k :: 0 <= k < |srcs| ==> h2.mem[srcs[k]].obj.gc.mark
      modifies this`mem, this`ssb
      ensures intact <==> SlideTo(h2, srcs, dsts, |srcs|).Some?
      ensures intact ==> State() == SlideTo(h2, srcs, dsts, |srcs|).value
    {
      hide SlideTo, Slid;
      ssb := [];
      SlideStart(h2, srcs, dsts);
      for k := 0 to |srcs|
        invariant SlideTo(h2, srcs, dsts, k) == Some(State())
      {
        SlideNext(h2, srcs, dsts, k);
        if srcs[k] !in mem || !mem[srcs[k]].obj.gc.mark {
          StaysNone(h2, srcs, dsts, k + 1);
          return false;
        }
        MoveOne(srcs[k], dsts[k], h2);
      }
      intact := true;
    }

    method MoveOne(src: Addr, dst: Addr, ghost h2: Heap)
      requires src in h2.mem && h2.mem[src].Live? && src in mem && mem[src] == h2.mem[src] && young == h2.young
      modifies this`mem, this`ssb
      ensures State() == Slid(h2, old(State()), src, dst)
    {
      mem := MoveWords(mem, src, dst);
      var pointsYoung := ObjectPointsYoung(dst);
      SamePointsYoungAt(h2, src, State(), dst);
      hide PointsYoung;
      var o := mem[dst].obj;
      var bits := o.gc.(mark := false, remembered := false);
      if pointsYoung {
        bits := bits.(remembered := true);
        ssb := ssb + [dst];
      }
      mem := mem[dst := Live(o.(gc := bits))];
    }

    method ClearMarks(objs: seq<Addr>)
      requires forall a :: a in mem ==> mem[a].Live?
      requires forall a :: a in objs ==> a in mem
      modifies this`mem
      ensures Cleared(old(mem), mem, Members(objs))
    {
      for i := 0 to |objs|
        invariant Cleared(old(mem), mem, Members(objs[..i])) && forall a :: a in mem ==> mem[a].Live?
      {
        var b := objs[i];
        assert b in objs && objs[..i + 1] == objs[..i] + [b];
        if mem[b].obj.gc.mark {
          mem := mem[b := Live(WithMark(mem[b].obj, false))];
        } else {
          assert WithMark(mem[b].obj, false) == mem[b].obj;
        }
      }
      assert objs[..|objs|] == objs;
    }

    /** Set the top of old space and clear what lies above it. */
    method Truncate(next: Addr)
      requires oldSpace.base <= next <= oldSpace.Top()
      modifies this`mem, this`oldSpace
      ensures State() == old(State()).(mem := mem, oldSpace := old(oldSpace).(alloc := next - old(oldSpace).base))
      ensures mem == map a | a in old(mem) && (young.Contains(a) || a < next) :: old(mem)[a]
    {
      oldSpace := oldSpace.(alloc := next - oldSpace.base);
      mem := map a | a in mem && (young.Contains(a) || a < next) :: mem[a];
    }

    /** Compact old space. The answer tells whether every object arrived; the code goes on, with memory destroyed, if not. */
    method CompactOld() returns (intact: bool, ghost fwd: map<Addr, Addr>)
      requires HeapOk(State()) && NoGaps(mem, oldSpace)
      modifies this
      ensures intact <==> RoomForOverflow(old(State()))
      ensures intact ==> Compacts(old(State()), State(), fwd)
    {
      hide HeapOk, NoGaps, RoomForOverflow, SameButMarks, SameSizes, Walkable, Marked, Alive, ListsLive, Planned, PlanOk,
        Fixed, Sliding, Tidy, Buffered, FixedSome, SlideArea, Cleared, Finish, TableOk, PlanNext, HeadersIn,
        Compacts, Phases, SlideTo;
      ghost var h0 := State();
      Mark(h0);
      ghost var h1 := State();
      MarkedHeap(h0, h1);
      var live := Walk(oldSpace);
      HeadersAre(mem, oldSpace);
      var table, srcs, dsts, next := ComputeForwarding(live);
      PlannedLive(h0, h1, live, srcs);
      FixRoots(table);
      var youngObjs := Walk(young);
      HeadersAre(mem, young);
      WalkedAll(h0, h1, youngObjs, live);
      FixedNoneYet(h1.mem, table);
      FixAll(table, youngObjs, h1.mem, {});
      FixAll(table, live, h1.mem, {} + Members(youngObjs));
      ghost var h2 := State();
      assert {} + Members(youngObjs) + Members(live) == Members(youngObjs) + Members(live);
      FixedAll(h1, table, h2, {} + Members(youngObjs) + Members(live));
      SlideReady(h0, h1, h2, srcs, dsts, table, next);
      SlidesIff(h0, h1, h2, srcs, dsts, table, next);
      intact := Slide(srcs, dsts, h2);
      if !intact || next > oldSpace.Top() {
        return false, table;
      }
      ghost var g := State();
      SlidWell(h0, h1, h2, g, srcs, dsts, table, next);
      YoungStay(h1, table, h2, g, srcs, dsts, youngObjs);
      ClearMarks(youngObjs);
      ghost var m := mem;
      Truncate(next);
      FinishedNow(g, m, youngObjs, next, State());
      fwd := table;
      CompactsNow(h0, h1, h2, g, srcs, dsts, fwd, State());
    }

    /** Scavenge, then compact. The heap between the two is `mid`. */
    method CollectOld() returns (intact: bool, ghost mid: Heap, ghost toOld: map<Addr, Addr>, ghost slid: map<Addr, Addr>)
      requires Good(State())
      modifies this
      ensures HeapOk(mid) && Scavenged(old(State()), mid, toOld) && (intact <==> RoomForOverflow(mid))
      ensures intact ==> Compacts(mid, State(), slid) && Preserves(old(State()), State(), Composed(toOld, slid))
      ensures NoOverflowToCome(old(State())) ==> intact && Good(State())
    {
      hide HeapOk, NoGaps, NoOverflowToCome, NoLiveOverflow, RoomForOverflow, Preserves, Scavenged, Compacted, ScavengeStep, Swept;
      ghost var h0 := State();
      toOld := CollectYoung();
      mid := State();
      ScavengedGaps(h0, mid, toOld);
      intact, slid := CompactOld();
      if intact {
        FullCollection(h0, mid, State(), toOld, slid);
      }
      if NoOverflowToCome(h0) {
        NoneTenured(h0, mid, toOld);
        NoOverflowRoom(mid);
      }
    }

    // ---------- the running program ----------

    method WriteBarrier(b: Addr, v: Value)
      requires b in mem && mem[b].Live?
      modifies this`mem, this`ssb
      ensures State() == Barrier(old(State()), b, v)
    {
      if v.Ptr? && young.Contains(v.addr) && oldSpace.Contains(b) {
        RememberOld(b);
      }
    }

    /** Set the remembered bit of an object and buffer it, unless the bit is set. */
    method RememberOld(b: Addr)
      requires b in mem && mem[b].Live? && oldSpace.Contains(b)
      modifies this`mem, this`ssb
      ensures State() == Remember(old(State()), b)
    {
      if !mem[b].obj.gc.remembered {
        mem := mem[b := Live(WithRemembered(mem[b].obj, true))];
        ssb := ssb + [b];
      }
    }

    /** A slot store with the write barrier. */
    method StoreSlot(b: Addr, i: nat, v: Value)
      requires HeapOk(State()) && CanStore(State(), b, i, v)
      modifies this`mem, this`ssb
      ensures State() == Store(old(State()), b, i, v) && StoreStep(old(State()), State())
      ensures HeapOk(State()) && (Good(old(State())) ==> Good(State()))
    {
      hide HeapOk, Good, Store;
      RawStore(b, i, v);
      assert StoreStep(old(State()), State());
      hide StoreStep;
      StoreStepKeeps(old(State()), State());
    }

    /** A store into the running stack: no barrier. */
    method PutStack(b: Addr, i: nat, v: Value)
      requires HeapOk(State()) && b in RunningStack(State()) && CanStore(State(), b, i, v)
      modifies this`mem
      ensures State() == SetRef(old(State()), b, i, v) && PutStep(old(State()), State())
      ensures HeapOk(State()) && (Good(old(State())) ==> Good(State()))
    {
      hide HeapOk, Good, RunningStack;
      mem := mem[b := Live(mem[b].obj.WithRef(i, v))];
      assert PutStep(old(State()), State());
      hide PutStep;
      StoreStepKeeps(old(State()), State());
    }

    /** Switch to another process: remember the outgoing stack, tell the scheduler, load the target. */
    method TransferTo(sched: Addr, i: nat, target: Value)
      requires HeapOk(State()) && CanSwitch(State(), sched, i, target)
      modifies this`mem, this`ssb, this`active
      ensures State() == Switch(old(State()), sched, i, target) && SwitchStep(old(State()), State())
      ensures HeapOk(State()) && (Good(old(State())) ==> Good(State()))
    {
      RunningStackIs(State());
      hide HeapOk, Good, Remember, RunningStack, Nil;
      if active.Ptr? && active != roots[0] {
        var stack := mem[active.addr].obj.Refs()[PROCESS_STACK];
        if stack.Ptr? && stack != roots[0] && oldSpace.Contains(stack.addr) {
          RememberOld(stack.addr);
        }
      }
      assert State() == RememberStack(old(State()));
      RememberStackHasRef(old(State()), sched, i);
      RawStore(sched, i, target);
      active := target;
      assert SwitchStep(old(State()), State());
      hide SwitchStep;
      RootStepKeeps(old(State()), State());
    }

    /** Put a new object at the top of young or old space. */
    method PlaceNew(o: Obj, inOld: bool) returns (a: Addr)
      requires CanPlace(State(), o, inOld)
      modifies this`mem, this`young, this`oldSpace
      ensures a == PlaceAddr(old(State()), o, inOld) && State() == Place(old(State()), o, inOld)
    {
      var start;
      if inOld {
        start := oldSpace.Top();
        oldSpace := oldSpace.(alloc := oldSpace.alloc + o.Footprint());
      } else {
        start := young.Top();
        young := young.(alloc := young.alloc + o.Footprint());
      }
      a := start + o.Extra();
      mem := mem[a := Live(o)];
    }

    /** Allocate a nil-filled pointer object, a large one in old space, and hold it in the handle scope; fail without
        effect when the space is full. */
    method AllocSlots(classIndex: nat, fixed: bool, n: nat) returns (ok: bool, a: Addr)
      requires HeapOk(State())
      modifies this`mem, this`young, this`oldSpace, this`roots
      ensures HeapOk(State()) && (Good(old(State())) ==> Good(State()))
      ensures ok <==> (if IsLarge(n) then old(oldSpace) else old(young)).HasRoom(NilObj(Nil(old(State())), classIndex, fixed, n).Footprint())
      ensures ok ==>
        && State() == Alloc(old(State()), NilObj(Nil(old(State())), classIndex, fixed, n), IsLarge(n))
        && AllocStep(old(State()), State()) && roots == old(roots) + [Ptr(a)]
      ensures !ok ==> State() == old(State())
    {
      ghost var h := State();
      RunningStackIs(h);
      var o := NilObj(roots[0], classIndex, fixed, n);
      var space := if IsLarge(n) then oldSpace else young;
      if !space.HasRoom(o.Footprint()) {
        return false, 0;
      }
      a := PlaceNew(o, IsLarge(n));
      roots := roots + [Ptr(a)];
      ok := true;
      hide HeapOk, Good;
      AllocStepNow(h, o, IsLarge(n));
      hide AllocStep;
      AllocStepKeeps(h, State());
    }

    /** Double the running stack until `needed` slots fit and copy it; young space if possible, else old space. */
    method GrowStack(needed: nat, maxBytes: nat) returns (r: Growth)
      requires HeapOk(State()) && SoleStack(State())
      requires |StackWords(State())| > 0
      modifies this`mem, this`young, this`oldSpace, this`ssb
      ensures HeapOk(State()) && (Good(old(State())) ==> Good(State()))
      ensures r.Grown? ==>
        && GrowStep(old(State()), State()) && r.addr in mem && mem[r.addr].Live?
        && RunningStack(State()) == {r.addr} && needed <= |mem[r.addr].obj.Refs()|
        && StackWords(old(State())) < mem[r.addr].obj.Refs()
      ensures !r.Grown? ==> State() == old(State())
    {
      ghost var h := State();
      StackIsLive(h);
      hide HeapOk, Good, SoleStack, Grow, Place, PlaceAddr, Store, GrownObj;
      var p := active.addr;
      var stack := mem[p].obj.Refs()[PROCESS_STACK].addr;
      var words := mem[stack].obj.Refs();
      var n := NewSize(|words|, needed);
      if n * 8 > maxBytes {
        return StackOverflow;
      }
      var o := GrownObj(roots[0], words, n);
      var inOld := IsLarge(n);
      if !(if inOld then oldSpace else young).HasRoom(o.Footprint()) {
        inOld := true;
        if !oldSpace.HasRoom(o.Footprint()) {
          return OutOfMemory;
        }
      }
      GrownFits(h, words, n, inOld);
      var a := CopyGrown(words, n, inOld);
      RawStore(p, PROCESS_STACK, Ptr(a));
      GrowStepNow(h, o, inOld);
      hide GrowStep;
      AllocStepKeeps(h, State());
      r := Grown(a);
    }

    /** Allocate a nil-filled stack of `n` slots and copy `words` into it. */
    method CopyGrown(words: seq<Value>, n: nat, inOld: bool) returns (a: Addr)
      requires |roots| > 0 && |words| <= n && CanPlace(State(), GrownObj(roots[0], words, n), inOld)
      modifies this`mem, this`young, this`oldSpace
      ensures State() == Place(old(State()), GrownObj(roots[0], words, n), inOld)
      ensures a == PlaceAddr(old(State()), GrownObj(roots[0], words, n), inOld)
    {
      var o := NilObj(roots[0], CLASS_STACK, false, n);
      ghost var grown := GrownObj(roots[0], words, n);
      PlaceOther(State(), o, grown, inOld);
      hide PlaceAddr, Place;
      a := PlaceNew(o, inOld);
      CopyStack(words, a, o, grown);
    }

    /** A slot store with the write barrier, wherever it goes. */
    method RawStore(b: Addr, i: nat, v: Value)
      requires HasRef(State(), b, i)
      modifies this`mem, this`ssb
      ensures State() == Store(old(State()), b, i, v)
    {
      hide Remember;
      mem := mem[b := Live(mem[b].obj.WithRef(i, v))];
      WriteBarrier(b, v);
    }

    /** Copy `words` into the first slots of the object at `a`. */
    method CopyStack(words: seq<Value>, a: Addr, ghost o: Obj, ghost grown: Obj)
      requires a in mem && mem[a] == Live(o) && o.body.Slots? && |words| <= |o.body.values|
      requires grown == o.(body := Slots(o.body.fixed, words + o.body.values[|words|..]))
      modifies this`mem
      ensures mem == old(mem)[a := Live(grown)]
    {
      for i := 0 to |words|
        invariant a in mem && mem == old(mem)[a := mem[a]]
        invariant mem[a] == Live(o.(body := Slots(o.body.fixed, words[..i] + o.body.values[i..])))
      {
        mem := mem[a := Live(mem[a].obj.WithRef(i, words[i]))];
        assert (words[..i] + o.body.values[i..])[i := words[i]] == words[..i + 1] + o.body.values[i + 1..];
      }
      assert words[..|words|] == words;
    }
  }

  datatype Growth = Grown(addr: Addr) | StackOverflow | OutOfMemory
}
