/** What a collector leaves is what an image can be written from. */
module ImageSource {
  import opened ObjectMemory
  import opened HeapWalk
  import opened Scavenge
  import opened ScavengeResult
  import opened Compaction
  import opened Mutator
  import opened HeapSteps
  import opened OldReferences
  import opened ObjectFormat
  import opened ImageRelocation
  import opened ImageFile
  import opened ImageLoader
  import opened ImageGraph
  import opened ImageRoundTrip

  /** The headers of a space in address order, as a walk lists them. */
  ghost predicate Lists(m: Memory, s: Space, heads: seq<Addr>) {
    Rising(heads) && forall a :: a in heads <==> a in HeadersIn(m, s)
  }

  ghost function ObjectsAt(m: Memory, heads: seq<Addr>): (objs: seq<Obj>)
    requires forall a :: a in heads ==> a in m && m[a].Live?
    ensures |objs| == |heads|
  {
    seq(|heads|, k requires 0 <= k < |heads| => m[heads[k]].obj)
  }

  /** The objects before the one at `k` fill old space up to where its storage starts. */
  lemma {:induction false} PrefixSize(m: Memory, heads: seq<Addr>, k: nat)
    requires forall a :: a in heads ==> a in m && m[a].Live?
    requires Rising(heads) && k <= |heads|
    ensures Size(ObjectsAt(m, heads)[..k]) == Total(m, set i | 0 <= i < k :: heads[i])
  {
    hide Total, Size;
    var objs := ObjectsAt(m, heads);
    var before := set i | 0 <= i < k :: heads[i];
    if k == 0 {
      assert before == {};
      NothingThere(m);
    } else {
      PrefixSize(m, heads, k - 1);
      var less := set i | 0 <= i < k - 1 :: heads[i];
      assert before == less + {heads[k - 1]};
      assert heads[k - 1] !in less;
      assert heads[k - 1] in heads;
      TotalAdd(m, less, heads[k - 1]);
      assert objs[..k] == objs[..k - 1] + [objs[k - 1]];
      SizeSnoc(objs[..k - 1], objs[k - 1]);
    }
  }

  lemma NothingThere(m: Memory)
    ensures Total(m, {}) == 0 && Size([]) == 0
  {
  }

  /** In a gap-free space each object starts where those before it end. */
  lemma StartsThere(m: Memory, s: Space, heads: seq<Addr>, k: nat)
    requires Walkable(m, s) && s.alloc <= s.words && Lists(m, s, heads) && k < |heads|
    ensures heads[k] in m && m[heads[k]].Live?
    ensures s.base + Total(m, Under(HeadersIn(m, s), heads[k])) + m[heads[k]].obj.Extra() == heads[k]
  {
    var all, x := HeadersIn(m, s), heads[k];
    assert x in heads;
    var below, above := Under(all, x), Over(all, x);
    assert Packed(m, all, s.base, s.Top());
    PackedParts(m, all, s.base, s.Top(), x);
    hide Packed, Total;
    PackedTotal(m, below, s.base, x - m[x].obj.Extra());
    PackedTotal(m, above, x + 1 + m[x].obj.NumSlots(), s.Top());
    assert all - {x} == below + above;
    TotalTake(m, all, x);
    TotalUnion(m, below, above);
  }

  /** The headers of the laid-out objects are those of the space. */
  lemma HeadsAre(m: Memory, s: Space, heads: seq<Addr>)
    requires Walkable(m, s) && s.alloc <= s.words && Lists(m, s, heads)
    ensures forall a :: a in heads ==> a in m && m[a].Live?
    ensures Heads(ObjectsAt(m, heads), s.base) == heads && Size(ObjectsAt(m, heads)) == s.alloc
  {
    var objs := ObjectsAt(m, heads);
    forall k | 0 <= k < |heads|
      ensures Heads(objs, s.base)[k] == heads[k]
    {
      StartsThere(m, s, heads, k);
      PrefixSize(m, heads, k);
      var before := set i | 0 <= i < k :: heads[i];
      UnderIs(m, s, heads, k);
      HeadsPrefix(objs, s.base, k);
    }
    PrefixSize(m, heads, |heads|);
    assert objs[..|heads|] == objs;
    AllListed(m, s, heads);
  }

  lemma UnderIs(m: Memory, s: Space, heads: seq<Addr>, k: nat)
    requires Lists(m, s, heads) && k < |heads|
    ensures (set i | 0 <= i < k :: heads[i]) == Under(HeadersIn(m, s), heads[k])
  {
    forall a | a in Under(HeadersIn(m, s), heads[k])
      ensures exists i :: 0 <= i < k && heads[i] == a
    {
      var i :| 0 <= i < |heads| && heads[i] == a;
    }
    forall i | 0 <= i < k
      ensures heads[i] in HeadersIn(m, s)
    {
      assert heads[i] in heads;
    }
  }

  lemma AllListed(m: Memory, s: Space, heads: seq<Addr>)
    requires Lists(m, s, heads)
    ensures (set i | 0 <= i < |heads| :: heads[i]) == HeadersIn(m, s)
  {
    forall a | a in HeadersIn(m, s)
      ensures exists i :: 0 <= i < |heads| && heads[i] == a
    {
      assert a in heads;
    }
    forall i | 0 <= i < |heads|
      ensures heads[i] in HeadersIn(m, s)
    {
      assert heads[i] in heads;
    }
  }

  lemma HeadsPrefix(objs: seq<Obj>, at: nat, k: nat)
    requires k < |objs|
    ensures Heads(objs, at)[k] == at + Size(objs[..k]) + objs[k].Extra()
  {
    assert objs == objs[..k] + objs[k..];
    HeadsAppend(objs[..k], objs[k..], at);
  }

  /** The objects of a gap-free space, laid out, are the memory of that space. */
  lemma HeapIs(m: Memory, s: Space, heads: seq<Addr>)
    requires Walkable(m, s) && s.alloc <= s.words && Lists(m, s, heads) && m.Keys == HeadersIn(m, s)
    ensures forall a :: a in heads ==> a in m && m[a].Live?
    ensures HeapOf(ObjectsAt(m, heads), s.base) == m
  {
    hide Total, Heads, ObjectAt;
    HeadsAre(m, s, heads);
    var objs := ObjectsAt(m, heads);
    forall a | a in m
      ensures a in heads && ObjectAt(objs, s.base, a) == m[a].obj
    {
      assert a in heads;
      var k :| 0 <= k < |heads| && heads[k] == a;
      ObjectAtHead(objs, s.base, k);
    }
  }

  // ---------- from the collector to the image ----------

  /** Every object fits the fields of a header, and its code and symbols have the shape the loader expects. */
  ghost predicate Representable(h: Heap) {
    && h.oldSpace.Top() < W61
    && forall a :: a in h.mem && h.mem[a].Live? ==> ObjectFits(h.mem[a].obj)
  }

  ghost predicate ObjectFits(o: Obj) {
    && ObjOk(o)
    && (IsCode(o.classIndex) ==> o.body.Slots? && METHOD_SEND_SITES < o.NumSlots())
    && (o.classIndex == CLASS_SYMBOL ==> o.body.Bytes?)
  }

  lemma OldOnly(h: Heap)
    requires HeapOk(h) && h.young.alloc == 0
    ensures h.mem.Keys == HeadersIn(h.mem, h.oldSpace)
  {
    hide Remembered, NoGaps, BufferOk, ActiveOk, NoDangling, NoOverlap;
    forall a | a in h.mem
      ensures h.oldSpace.Contains(a)
    {
      assert InUsed(h.young, a, h.mem[a].obj) || InUsed(h.oldSpace, a, h.mem[a].obj);
    }
  }

  lemma OldWalkable(h: Heap)
    requires Good(h) && h.young.alloc == 0
    ensures Walkable(h.mem, h.oldSpace) && h.oldSpace.alloc <= h.oldSpace.words && h.mem.Keys == HeadersIn(h.mem, h.oldSpace)
    ensures forall a :: a in h.mem ==> h.mem[a].Live?
  {
    hide Remembered, NoGaps, BufferOk, ActiveOk, NoDangling;
    OldOnly(h);
    forall a | a in h.mem
      ensures h.mem[a].Live? && InUsed(h.oldSpace, a, h.mem[a].obj)
    {
      assert InUsed(h.young, a, h.mem[a].obj) || InUsed(h.oldSpace, a, h.mem[a].obj);
    }
  }

  /** What a heap in order with an empty young space holds can be saved, and its graph will be that of the image. */
  lemma OldSpaceSaveable(h: Heap, heads: seq<Addr>, classTable: seq<Value>, specials: seq<Value>)
    requires Good(h) && OldNames(h) && h.young.alloc == 0 && Lists(h.mem, h.oldSpace, heads) && Representable(h)
    requires ValuesOk(classTable) && ValuesOk(specials) && |specials| == SPECIAL_OBJECTS_COUNT
    requires forall v :: v in classTable + specials ==> v in h.roots
    ensures forall a :: a in heads ==> a in h.mem && h.mem[a].Live?
    ensures var objs, base := ObjectsAt(h.mem, heads), h.oldSpace.base;
      && Saveable(objs, base, classTable, specials) && LiveClosed(objs, base, RootsOf(classTable, specials, h.active))
      && HeapOf(objs, base) == h.mem && Size(objs) == h.oldSpace.alloc
      && (h.active.Ptr? ==> h.active.addr in Heads(objs, base))
  {
    hide HeapOk, Walkable, Heads, Size, HeapOf, ObjectFits, Tracks, ObjectsAt, ObjectAt, Reachable;
    OldWalkable(h);
    HeadsAre(h.mem, h.oldSpace, heads);
    HeapIs(h.mem, h.oldSpace, heads);
    ObjectsFit(h, heads);
    LiveIn(h, heads, RootsOf(classTable, specials, h.active));
    if h.active.Ptr? {
      assert h.active in [h.active];
      ReachableStart(h.mem, RootsOf(classTable, specials, h.active), h.active.addr);
    }
  }

  lemma ObjectsFit(h: Heap, heads: seq<Addr>)
    requires Good(h) && OldNames(h) && Representable(h) && Lists(h.mem, h.oldSpace, heads) && forall a :: a in heads ==> a in h.mem && h.mem[a].Live?
    requires Heads(ObjectsAt(h.mem, heads), h.oldSpace.base) == heads && h.mem.Keys == HeadersIn(h.mem, h.oldSpace)
    ensures var objs := ObjectsAt(h.mem, heads);
      ObjsOk(objs) && Shaped(objs) && SitesKnown(objs, h.oldSpace.base)
  {
    hide ObjOk, Heads, HeapOk, Tracks;
    var objs := ObjectsAt(h.mem, heads);
    forall k | 0 <= k < |objs|
      ensures ObjectFits(objs[k]) && objs[k] == h.mem[heads[k]].obj
    {
      assert heads[k] in heads;
    }
    forall k | 0 <= k < |objs| && IsCode(objs[k].classIndex) && METHOD_SEND_SITES < |objs[k].Refs()| &&
               objs[k].Refs()[METHOD_SEND_SITES].Ptr?
      ensures objs[k].Refs()[METHOD_SEND_SITES].addr in heads
    {
      SiteThere(h, heads[k], objs[k]);
    }
  }

  /** The send sites of a method, reachable or not, are an object. */
  lemma SiteThere(h: Heap, a: Addr, o: Obj)
    requires HeapOk(h) && OldNames(h) && a in h.mem && h.mem[a].Live? && h.mem[a].obj == o && IsOld(h, a)
    requires IsCode(o.classIndex) && METHOD_SEND_SITES < |o.Refs()| && o.Refs()[METHOD_SEND_SITES].Ptr?
    ensures o.Refs()[METHOD_SEND_SITES].addr in h.mem
  {
    hide Remembered, NoGaps, BufferOk, ActiveOk, NoOverlap, Placed, Reachable;
    var v := o.Refs()[METHOD_SEND_SITES];
    assert v in o.Refs();
    if a in h.ssb {
      ReachableStart(h.mem, Starts(h), a);
      ReachableEdge(h.mem, Starts(h), a, v.addr);
    } else {
      assert Plain(h, a);
    }
  }

  lemma LiveIn(h: Heap, heads: seq<Addr>, starts: set<Addr>)
    requires HeapOk(h) && starts <= Starts(h) && forall a :: a in heads ==> a in h.mem && h.mem[a].Live?
    requires forall a :: a in h.mem ==> a in heads
    requires Heads(ObjectsAt(h.mem, heads), h.oldSpace.base) == heads
    requires HeapOf(ObjectsAt(h.mem, heads), h.oldSpace.base) == h.mem
    ensures LiveClosed(ObjectsAt(h.mem, heads), h.oldSpace.base, starts)
  {
    hide Remembered, NoGaps, BufferOk, ActiveOk, NoOverlap, Placed, Heads, HeapOf, ObjectsAt;
    forall a: Addr | Reachable(h.mem, starts, a)
      ensures a in heads
    {
      var n: nat :| ReachableIn(h.mem, starts, a, n);
      ReachableMore(h.mem, starts, h.mem, Starts(h), a, n);
      assert Tracks(h, a);
    }
  }

  /** The snapshot empties young space by a scavenge that tenures everything; then old space can be saved, whatever the machine
      did since its start, as long as the running stack was a stack. */
  lemma SnapshotSaveable(h0: Heap, n: nat, h1: Heap, h: Heap, phi: map<Addr, Addr>, heads: seq<Addr>,
                         classTable: seq<Value>, specials: seq<Value>)
    requires HeapOk(h0) && OldNames(h0) && StackedRun(h0, h1, n) && Good(h1)
    requires TenuresAll(h1) && ScavengeStep(h1, h) && Scavenged(h1, h, phi)
    requires Lists(h.mem, h.oldSpace, heads) && Representable(h)
    requires ValuesOk(classTable) && ValuesOk(specials) && |specials| == SPECIAL_OBJECTS_COUNT
    requires forall v :: v in classTable + specials ==> v in h.roots
    ensures forall a :: a in heads ==> a in h.mem && h.mem[a].Live?
    ensures var objs, base := ObjectsAt(h.mem, heads), h.oldSpace.base;
      Saveable(objs, base, classTable, specials) && LiveClosed(objs, base, RootsOf(classTable, specials, h.active))
  {
    hide HeapOk, NoGaps, Renames, StackedRun, ScavengeStep, OldNames, Representable, Lists;
    OldNamesAlways(h0, h1, n);
    ScavengeStepKeeps(h1, h);
    ScavengeNames(h1, h);
    OldSpaceSaveable(h, heads, classTable, specials);
  }
}
