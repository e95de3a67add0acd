/** One scavenge as a relation between heaps, and the invariant its steps keep. */
module Scavenge {
  import opened ObjectMemory

  // ---------- the copying step ----------

  function NextAge(age: nat): nat {
    if age + 1 <= MAX_AGE then age + 1 else MAX_AGE
  }

  /** The copy keeps the immutable and pinned bits, gets one year older and loses the other bits. */
  function CopyGc(g: GcBits): GcBits {
    GcBits(false, false, g.pinned, NextAge(g.age), g.immutable)
  }

  predicate TakesOld(h: Heap, o: Obj) {
    NextAge(o.gc.age) >= h.threshold && h.oldSpace.HasRoom(o.Footprint())
  }

  function CopyAddr(h: Heap, o: Obj): Addr {
    (if TakesOld(h, o) then h.oldSpace.Top() else h.spare.Top()) + o.Extra()
  }

  /** Copy the object at `a` out of from-space and leave a forwarding word. */
  function CopyOut(h: Heap, a: Addr): Heap
    requires a in h.mem && h.mem[a].Live?
  {
    var o := h.mem[a].obj;
    var n := CopyAddr(h, o);
    var m := h.mem[n := Live(o.(gc := CopyGc(o.gc)))][a := Moved(n)];
    if TakesOld(h, o)
    then h.(mem := m, oldSpace := h.oldSpace.(alloc := h.oldSpace.alloc + o.Footprint()))
    else h.(mem := m, spare := h.spare.(alloc := h.spare.alloc + o.Footprint()))
  }

  // ---------- the invariant of a scavenge in progress ----------

  ghost function Forwards(m: Memory): map<Addr, Addr> {
    map a | a in m && m[a].Moved? :: m[a].to
  }

  ghost function Forwarded(fwd: map<Addr, Addr>, v: Value): Value {
    if v.Ptr? && v.addr in fwd then Ptr(fwd[v.addr]) else v
  }

  /** Each value is the original or its forwarded form. */
  ghost predicate Updated(fwd: map<Addr, Addr>, s0: seq<Value>, s: seq<Value>) {
    && |s| == |s0|
    && forall i :: 0 <= i < |s| ==> s[i] == s0[i] || s[i] == Forwarded(fwd, s0[i])
  }

  ghost predicate BodyUpdated(fwd: map<Addr, Addr>, b0: Body, b: Body) {
    if b0.Slots? then b.Slots? && b.fixed == b0.fixed && Updated(fwd, b0.values, b.values)
    else b == b0
  }

  ghost predicate SameKind(o0: Obj, o: Obj) {
    o.classIndex == o0.classIndex && o.hash == o0.hash
  }

  ghost predicate CopyOf(fwd: map<Addr, Addr>, o0: Obj, o: Obj) {
    SameKind(o0, o) && o.gc == CopyGc(o0.gc) && BodyUpdated(fwd, o0.body, o.body)
  }

  ghost predicate RewriteOf(fwd: map<Addr, Addr>, o0: Obj, o: Obj) {
    SameKind(o0, o) && o.gc == o0.gc && BodyUpdated(fwd, o0.body, o.body)
  }

  ghost predicate SpacesKept(h0: Heap, h: Heap) {
    && h.young == h0.young
    && h.spare.base == h0.spare.base && h.spare.words == h0.spare.words
    && h.oldSpace.base == h0.oldSpace.base && h.oldSpace.words == h0.oldSpace.words
    && h0.oldSpace.alloc <= h.oldSpace.alloc <= h.oldSpace.words
    && h0.spare.alloc <= h.spare.alloc && h.spare.alloc <= h.spare.words
    && h.threshold == h0.threshold
    && h.ssb == h0.ssb
  }

  /** A young original is untouched or holds a forwarding word; forwarded objects were reachable. */
  ghost predicate OriginalsOk(h0: Heap, h: Heap) {
    && (forall a :: a in h0.mem && IsYoung(h0, a) ==> a in h.mem && (h.mem[a] == h0.mem[a] || h.mem[a].Moved?))
    && (forall a :: a in h.mem && h.mem[a].Moved? ==> a in h0.mem && IsYoung(h0, a) && Tracks(h0, a))
  }

  ghost predicate OldOk(h0: Heap, h: Heap) {
    forall a :: a in h0.mem && h0.mem[a].Live? && !IsYoung(h0, a) ==>
      a in h.mem && h.mem[a].Live? && RewriteOf(Forwards(h.mem), h0.mem[a].obj, h.mem[a].obj)
  }

  ghost predicate CopyOk(h0: Heap, h: Heap, a: Addr, n: Addr) {
    && a in h0.mem && h0.mem[a].Live?
    && n in h.mem && h.mem[n].Live?
    && CopyOf(Forwards(h.mem), h0.mem[a].obj, h.mem[n].obj)
    && (IsOld(h0, n) ==> NextAge(h0.mem[a].obj.gc.age) >= h0.threshold)
    && (Between(h0.spare.Top(), h.spare.Top(), n, h.mem[n].obj) ||
        Between(h0.oldSpace.Top(), h.oldSpace.Top(), n, h.mem[n].obj))
  }

  ghost predicate CopiesOk(h0: Heap, h: Heap) {
    && (forall a :: a in h.mem && h.mem[a].Moved? ==> CopyOk(h0, h, a, h.mem[a].to))
    && (forall a, b :: a in h.mem && b in h.mem && h.mem[a].Moved? && h.mem[b].Moved? && a != b ==>
          h.mem[a].to != h.mem[b].to)
  }

  ghost predicate ForwardsTo(m0: Memory, m: Memory, a: Addr, b: Addr) {
    a in m0 && a in m && m[a] == Moved(b)
  }

  /** Every object outside from-space is an old original or a copy. */
  ghost predicate NothingElse(h0: Heap, h: Heap) {
    forall b :: b in h.mem && b !in h0.mem ==> exists a :: ForwardsTo(h0.mem, h.mem, a, b)
  }

  ghost predicate PlacedNow(h: Heap) {
    forall a :: a in h.mem && h.mem[a].Live? && !IsYoung(h, a) ==>
      InUsed(h.spare, a, h.mem[a].obj) || InUsed(h.oldSpace, a, h.mem[a].obj)
  }

  ghost predicate ApartNow(h: Heap) {
    forall a, b | a in h.mem && b in h.mem && a != b && h.mem[a].Live? && h.mem[b].Live? :: 
      IsYoung(h, a) || IsYoung(h, b) || Apart(a, h.mem[a].obj, b, h.mem[b].obj)
  }

  /** Words taken in to-space and old space are exactly the footprints of the originals copied so far. */
  ghost predicate Conserved(h0: Heap, h: Heap) {
    && h.spare.alloc + h.oldSpace.alloc == h0.oldSpace.alloc + Total(h0.mem, Forwards(h.mem).Keys)
    && Total(h.mem, HeadersIn(h.mem, h.spare)) == h.spare.alloc
    && Total(h.mem, HeadersIn(h.mem, h.oldSpace)) + h0.oldSpace.alloc ==
       Total(h0.mem, HeadersIn(h0.mem, h0.oldSpace)) + h.oldSpace.alloc
    && (TenuresAll(h0) ==> h.spare.alloc == 0)
  }

  /** Every object is old enough to tenure, and old space could take all of from-space. */
  predicate TenuresAll(h: Heap) {
    h.threshold <= 1 && h.oldSpace.HasRoom(h.young.alloc)
  }

  ghost predicate Scavenging(h0: Heap, h: Heap) {
    && SpacesKept(h0, h)
    && OriginalsOk(h0, h)
    && OldOk(h0, h)
    && CopiesOk(h0, h)
    && NothingElse(h0, h)
    && PlacedNow(h) && ApartNow(h)
    && Conserved(h0, h)
  }

  lemma UpdatedMore(fwd: map<Addr, Addr>, a: Addr, n: Addr, s0: seq<Value>, s: seq<Value>)
    requires Updated(fwd, s0, s)
    requires a !in fwd
    ensures Updated(fwd[a := n], s0, s)
  {
    forall i | 0 <= i < |s|
      ensures s[i] == s0[i] || s[i] == Forwarded(fwd[a := n], s0[i])
    {
      if s[i] != s0[i] {
        assert s[i] == Forwarded(fwd, s0[i]);
      }
    }
  }

  lemma BodyUpdatedMore(fwd: map<Addr, Addr>, a: Addr, n: Addr, b0: Body, b: Body)
    requires BodyUpdated(fwd, b0, b)
    requires a !in fwd
    ensures BodyUpdated(fwd[a := n], b0, b)
  {
    if b0.Slots? {
      UpdatedMore(fwd, a, n, b0.values, b.values);
    }
  }

  /** What the copying steps need to know of the heap before the scavenge. */
  ghost predicate StartOk(h0: Heap) {
    SpacesOk(h0) && h0.spare.alloc == 0 && NoGaps(h0.mem, h0.young) && forall a :: a in h0.mem ==> h0.mem[a].Live?
  }

  /** To-space always has room: what was copied plus what is about to be fits in what from-space holds. */
  lemma RoomToCopy(h0: Heap, h: Heap, a: Addr)
    requires StartOk(h0) && Scavenging(h0, h)
    requires a in h0.mem && IsYoung(h0, a) && Tracks(h0, a)
    requires a in h.mem && h.mem[a].Live?
    ensures h.mem[a] == h0.mem[a]
    ensures Total(h0.mem, Forwards(h.mem).Keys) + h.mem[a].obj.Footprint() <= h0.young.alloc
    ensures h.spare.HasRoom(h.mem[a].obj.Footprint())
  {
    var done := Forwards(h.mem).Keys;
    assert a !in done;
    TotalAdd(h0.mem, done, a);
    assert done + {a} <= HeadersIn(h0.mem, h0.young);
    TotalSubset(h0.mem, done + {a}, HeadersIn(h0.mem, h0.young));
  }

  /** What one copying step may assume. */
  ghost predicate CanCopy(h0: Heap, h: Heap, a: Addr) {
    && StartOk(h0) && Scavenging(h0, h)
    && a in h0.mem && IsYoung(h0, a) && Tracks(h0, a)
    && a in h.mem && h.mem[a].Live?
  }

  /** A young object not copied yet, with room for its copy. */
  ghost predicate Copyable(h: Heap, a: Addr) {
    && SpacesOk(h)
    && a in h.mem && h.mem[a].Live? && IsYoung(h, a)
    && h.spare.HasRoom(h.mem[a].obj.Footprint())
  }

  /** A copying step adds the object at `n` and turns `a` into a forwarding word; all else stays. */
  ghost predicate AddsCopy(h: Heap, h': Heap, a: Addr, n: Addr) {
    && a in h.mem && h.mem[a].Live? && IsYoung(h, a)
    && n !in h.mem && !IsYoung(h, n)
    && h'.mem == h.mem[n := Live(h.mem[a].obj.(gc := CopyGc(h.mem[a].obj.gc)))][a := Moved(n)]
  }

  lemma CopyOutShape(h: Heap, a: Addr)
    requires Copyable(h, a)
    requires PlacedNow(h)
    requires forall b :: b in h.mem && h.mem[b].Moved? ==> IsYoung(h, b)
    ensures var n := CopyAddr(h, h.mem[a].obj); AddsCopy(h, CopyOut(h, a), a, n)
  {
    var n := CopyAddr(h, h.mem[a].obj);
    forall b | b in h.mem && !IsYoung(h, b)
      ensures b != n
    {
      assert InUsed(h.spare, b, h.mem[b].obj) || InUsed(h.oldSpace, b, h.mem[b].obj);
    }
  }

  lemma AddsCopyForwards(h: Heap, h': Heap, a: Addr, n: Addr)
    requires AddsCopy(h, h', a, n)
    ensures Forwards(h'.mem) == Forwards(h.mem)[a := n]
  {
  }

  lemma CopyOutOld(h0: Heap, h: Heap, h': Heap, a: Addr, n: Addr)
    requires AddsCopy(h, h', a, n) && h.young == h0.young
    requires OldOk(h0, h)
    ensures OldOk(h0, h')
  {
    AddsCopyForwards(h, h', a, n);
    forall b | b in h0.mem && h0.mem[b].Live? && !IsYoung(h0, b)
      ensures b in h'.mem && h'.mem[b].Live? && RewriteOf(Forwards(h'.mem), h0.mem[b].obj, h'.mem[b].obj)
    {
      BodyUpdatedMore(Forwards(h.mem), a, n, h0.mem[b].obj.body, h.mem[b].obj.body);
    }
  }

  lemma CopyOutNothingElse(h0: Heap, h: Heap, h': Heap, a: Addr, n: Addr)
    requires AddsCopy(h, h', a, n)
    requires NothingElse(h0, h) && a in h0.mem
    ensures NothingElse(h0, h')
  {
    forall b | b in h'.mem && b !in h0.mem
      ensures exists c :: ForwardsTo(h0.mem, h'.mem, c, b)
    {
      if b == n {
        assert ForwardsTo(h0.mem, h'.mem, a, b);
      } else if b != a {
        var c :| ForwardsTo(h0.mem, h.mem, c, b);
        assert ForwardsTo(h0.mem, h'.mem, c, b);
      }
    }
  }

  lemma CopyOutOriginals(h0: Heap, h: Heap, h': Heap, a: Addr, n: Addr)
    requires AddsCopy(h, h', a, n)
    requires a in h0.mem && IsYoung(h0, a) && Tracks(h0, a)
    requires OriginalsOk(h0, h) && h.young == h0.young
    ensures OriginalsOk(h0, h')
  {
  }

  lemma CopyOutSpaces(h0: Heap, h: Heap, a: Addr)
    requires SpacesKept(h0, h) && Copyable(h, a)
    ensures SpacesKept(h0, CopyOut(h, a))
  {
  }

  lemma CopyOutCopies(h0: Heap, h: Heap, a: Addr, n: Addr)
    requires SpacesKept(h0, h) && Copyable(h, a) && n == CopyAddr(h, h.mem[a].obj)
    requires AddsCopy(h, CopyOut(h, a), a, n)
    requires a in h0.mem && h.mem[a] == h0.mem[a]
    requires CopiesOk(h0, h)
    ensures CopiesOk(h0, CopyOut(h, a))
  {
    var h' := CopyOut(h, a);
    AddsCopyForwards(h, h', a, n);
    forall b | b in h'.mem && h'.mem[b].Moved?
      ensures CopyOk(h0, h', b, h'.mem[b].to)
    {
      if b == a {
        assert h0.mem[a].obj.body == h'.mem[n].obj.body;
      } else {
        assert CopyOk(h0, h, b, h.mem[b].to);
        BodyUpdatedMore(Forwards(h.mem), a, n, h0.mem[b].obj.body, h.mem[h.mem[b].to].obj.body);
      }
    }
  }

  lemma CopyOutPlaces(h: Heap, a: Addr, n: Addr)
    requires Copyable(h, a) && n == CopyAddr(h, h.mem[a].obj)
    requires AddsCopy(h, CopyOut(h, a), a, n)
    requires PlacedNow(h)
    ensures PlacedNow(CopyOut(h, a))
  {
  }

  lemma CopyOutApart(h: Heap, a: Addr, n: Addr)
    requires Copyable(h, a) && n == CopyAddr(h, h.mem[a].obj)
    requires AddsCopy(h, CopyOut(h, a), a, n)
    requires PlacedNow(h) && ApartNow(h)
    ensures ApartNow(CopyOut(h, a))
  {
    var h' := CopyOut(h, a);
    forall b | b in h.mem && h.mem[b].Live? && !IsYoung(h, b)
      ensures Apart(b, h.mem[b].obj, n, h'.mem[n].obj)
    {
      assert InUsed(h.spare, b, h.mem[b].obj) || InUsed(h.oldSpace, b, h.mem[b].obj);
    }
  }

  lemma CopyOutConserves(h0: Heap, h: Heap, a: Addr, n: Addr)
    requires SpacesKept(h0, h) && Copyable(h, a) && n == CopyAddr(h, h.mem[a].obj)
    requires AddsCopy(h, CopyOut(h, a), a, n)
    requires a in h0.mem && h.mem[a] == h0.mem[a]
    requires Conserved(h0, h) && h0.spare.alloc == 0
    requires Total(h0.mem, Forwards(h.mem).Keys) + h.mem[a].obj.Footprint() <= h0.young.alloc
    ensures Conserved(h0, CopyOut(h, a))
  {
    hide AddsCopy;
    AddsCopyForwards(h, CopyOut(h, a), a, n);
    TotalAdd(h0.mem, Forwards(h.mem).Keys, a);
    assert Forwards(CopyOut(h, a).mem).Keys == Forwards(h.mem).Keys + {a};
    CopyOutTotals(h, a, n);
  }

  /** The copy's words are charged to the space it goes to. */
  lemma CopyOutTotals(h: Heap, a: Addr, n: Addr)
    requires Copyable(h, a) && n == CopyAddr(h, h.mem[a].obj)
    requires AddsCopy(h, CopyOut(h, a), a, n)
    ensures var h', fp := CopyOut(h, a), h.mem[a].obj.Footprint();
      && Total(h'.mem, HeadersIn(h'.mem, h'.spare)) ==
         Total(h.mem, HeadersIn(h.mem, h.spare)) + (if TakesOld(h, h.mem[a].obj) then 0 else fp)
      && Total(h'.mem, HeadersIn(h'.mem, h'.oldSpace)) ==
         Total(h.mem, HeadersIn(h.mem, h.oldSpace)) + (if TakesOld(h, h.mem[a].obj) then fp else 0)
  {
    var h' := CopyOut(h, a);
    assert FootprintAt(h'.mem, n) == h.mem[a].obj.Footprint();
    HeadersGrow(h.mem, h'.mem, h.spare, a, n);
    HeadersGrow(h.mem, h'.mem, h.oldSpace, a, n);
    assert HeadersIn(h'.mem, h'.spare) == HeadersIn(h'.mem, h.spare);
    assert HeadersIn(h'.mem, h'.oldSpace) == HeadersIn(h'.mem, h.oldSpace);
  }

  /** Adding one object outside from-space adds its footprint to the space it lies in. */
  lemma HeadersGrow(m: Memory, m': Memory, s: Space, a: Addr, n: Addr)
    requires a in m && !s.Contains(a) && n !in m
    requires forall b :: b in m' <==> b in m || b == n
    requires forall b :: b in m && b != a ==> m'[b] == m[b]
    ensures Total(m', HeadersIn(m', s)) ==
      Total(m, HeadersIn(m, s)) + (if s.Contains(n) then FootprintAt(m', n) else 0)
  {
    var before := HeadersIn(m, s);
    TotalSame(m, m', before);
    if s.Contains(n) {
      assert HeadersIn(m', s) == before + {n};
      TotalAdd(m', before, n);
    } else {
      assert HeadersIn(m', s) == before;
    }
  }

  lemma CopyOutKeeps(h0: Heap, h: Heap, a: Addr)
    requires CanCopy(h0, h, a)
    ensures Copyable(h, a)
    ensures Scavenging(h0, CopyOut(h, a))
    ensures Forwards(CopyOut(h, a).mem) == Forwards(h.mem)[a := CopyAddr(h, h.mem[a].obj)]
  {
    RoomToCopy(h0, h, a);
    assert Copyable(h, a);
    CopyOutKeepsParts(h0, h, a);
  }

  lemma CopyOutKeepsParts(h0: Heap, h: Heap, a: Addr)
    requires SpacesKept(h0, h) && OriginalsOk(h0, h) && OldOk(h0, h) && CopiesOk(h0, h)
    requires NothingElse(h0, h) && PlacedNow(h) && ApartNow(h) && Conserved(h0, h)
    requires Copyable(h, a) && a in h0.mem && h.mem[a] == h0.mem[a] && Tracks(h0, a) && h0.spare.alloc == 0
    requires Total(h0.mem, Forwards(h.mem).Keys) + h.mem[a].obj.Footprint() <= h0.young.alloc
    ensures Scavenging(h0, CopyOut(h, a))
    ensures Forwards(CopyOut(h, a).mem) == Forwards(h.mem)[a := CopyAddr(h, h.mem[a].obj)]
  {
    var h', n := CopyOut(h, a), CopyAddr(h, h.mem[a].obj);
    CopyOutShape(h, a);
    AddsCopyForwards(h, h', a, n);
    CopyOutOriginals(h0, h, h', a, n);
    CopyOutSpaces(h0, h, a);
    CopyOutOld(h0, h, h', a, n);
    CopyOutNothingElse(h0, h, h', a, n);
    CopyOutCopies(h0, h, a, n);
    CopyOutPlaces(h, a, n);
    CopyOutApart(h, a, n);
    CopyOutConserves(h0, h, a, n);
  }

  // ---------- rewriting one slot ----------

  /** The heap after `set_slot_raw`. */
  function SetRef(h: Heap, b: Addr, i: nat, v: Value): Heap
    requires b in h.mem && h.mem[b].Live? && i < |h.mem[b].obj.Refs()|
  {
    h.(mem := h.mem[b := Live(h.mem[b].obj.WithRef(i, v))])
  }

  /** Copies and old objects lie outside from-space. */
  lemma CopiesNotYoung(h0: Heap, h: Heap)
    requires SpacesOk(h0) && SpacesKept(h0, h) && CopiesOk(h0, h)
    ensures forall a :: a in h.mem && h.mem[a].Moved? ==> !IsYoung(h, h.mem[a].to)
  {
  }

  lemma UpdatedStep(fwd: map<Addr, Addr>, s0: seq<Value>, s: seq<Value>, i: nat)
    requires Updated(fwd, s0, s) && i < |s|
    requires forall a :: a in fwd ==> fwd[a] !in fwd
    ensures Updated(fwd, s0, s[i := Forwarded(fwd, s[i])])
  {
  }

  lemma SetRefForwards(h: Heap, b: Addr, i: nat, v: Value)
    requires b in h.mem && h.mem[b].Live? && i < |h.mem[b].obj.Refs()|
    ensures Forwards(SetRef(h, b, i, v).mem) == Forwards(h.mem)
  {
  }

  ghost predicate NoChains(fwd: map<Addr, Addr>) {
    forall a :: a in fwd ==> fwd[a] !in fwd
  }

  lemma NoForwardingChains(h0: Heap, h: Heap)
    requires SpacesOk(h0) && SpacesKept(h0, h) && CopiesOk(h0, h)
    ensures NoChains(Forwards(h.mem))
  {
    forall a | a in Forwards(h.mem)
      ensures Forwards(h.mem)[a] !in Forwards(h.mem)
    {
      assert CopyOk(h0, h, a, h.mem[a].to);
    }
  }

  lemma SetRefBody(fwd: map<Addr, Addr>, o0: Obj, o: Obj, i: nat)
    requires NoChains(fwd) && BodyUpdated(fwd, o0.body, o.body) && i < |o.Refs()|
    ensures BodyUpdated(fwd, o0.body, o.WithRef(i, Forwarded(fwd, o.Refs()[i])).body)
  {
    UpdatedStep(fwd, o0.body.values, o.body.values, i);
  }

  /** A rewritable slot: slot `i` of an object outside from-space. */
  ghost predicate Slot(h: Heap, b: Addr, i: nat) {
    b in h.mem && h.mem[b].Live? && !IsYoung(h, b) && i < |h.mem[b].obj.Refs()|
  }

  ghost function Rewrite(h: Heap, b: Addr, i: nat): Heap
    requires Slot(h, b, i)
  {
    SetRef(h, b, i, Forwarded(Forwards(h.mem), h.mem[b].obj.Refs()[i]))
  }

  /** What a rewritten slot looks like; without a change nothing is written. */
  lemma RewriteIs(h: Heap, b: Addr, i: nat, f: Value)
    requires Slot(h, b, i) && f == Forwarded(Forwards(h.mem), h.mem[b].obj.Refs()[i])
    ensures var h', o := Rewrite(h, b, i), h.mem[b].obj.WithRef(i, f);
      && h' == h.(mem := h.mem[b := Live(o)]) && (f == h.mem[b].obj.Refs()[i] ==> h' == h)
      && |o.Refs()| == |h.mem[b].obj.Refs()| && o.Refs()[i] == f
      && forall j :: 0 <= j < |o.Refs()| && j != i ==> o.Refs()[j] == h.mem[b].obj.Refs()[j]
  {
    hide Forwards;
    var o := h.mem[b].obj;
    if f == o.Refs()[i] {
      assert o.WithRef(i, f) == o;
      assert h.mem[b := Live(o)] == h.mem;
    }
  }

  lemma RewriteOld(h0: Heap, h: Heap, b: Addr, i: nat)
    requires Slot(h, b, i) && NoChains(Forwards(h.mem))
    requires OldOk(h0, h)
    ensures OldOk(h0, Rewrite(h, b, i))
  {
    SetRefForwards(h, b, i, Forwarded(Forwards(h.mem), h.mem[b].obj.Refs()[i]));
    if b in h0.mem && h0.mem[b].Live? && !IsYoung(h0, b) {
      SetRefBody(Forwards(h.mem), h0.mem[b].obj, h.mem[b].obj, i);
    }
  }

  lemma RewriteCopies(h0: Heap, h: Heap, b: Addr, i: nat)
    requires Slot(h, b, i) && NoChains(Forwards(h.mem))
    requires CopiesOk(h0, h)
    ensures CopiesOk(h0, Rewrite(h, b, i))
  {
    var h' := Rewrite(h, b, i);
    SetRefForwards(h, b, i, Forwarded(Forwards(h.mem), h.mem[b].obj.Refs()[i]));
    forall a | a in h'.mem && h'.mem[a].Moved?
      ensures CopyOk(h0, h', a, h'.mem[a].to)
    {
      assert CopyOk(h0, h, a, h.mem[a].to);
      if h.mem[a].to == b {
        SetRefBody(Forwards(h.mem), h0.mem[a].obj, h.mem[b].obj, i);
      }
    }
  }

  lemma RewriteNothingElse(h0: Heap, h: Heap, b: Addr, i: nat)
    requires Slot(h, b, i)
    requires NothingElse(h0, h)
    ensures NothingElse(h0, Rewrite(h, b, i))
  {
    KeepsNothingElse(h0, h, Rewrite(h, b, i));
  }

  lemma KeepsNothingElse(h0: Heap, h: Heap, h': Heap)
    requires NothingElse(h0, h)
    requires h'.mem.Keys == h.mem.Keys
    requires forall a :: a in h.mem && h.mem[a].Moved? ==> h'.mem[a] == h.mem[a]
    ensures NothingElse(h0, h')
  {
    forall c | c in h'.mem && c !in h0.mem
      ensures exists a :: ForwardsTo(h0.mem, h'.mem, a, c)
    {
      var a :| ForwardsTo(h0.mem, h.mem, a, c);
      assert ForwardsTo(h0.mem, h'.mem, a, c);
    }
  }

  lemma RewriteLayout(h: Heap, b: Addr, i: nat)
    requires Slot(h, b, i)
    requires PlacedNow(h) && ApartNow(h)
    ensures PlacedNow(Rewrite(h, b, i)) && ApartNow(Rewrite(h, b, i))
  {
  }

  lemma RewriteConserves(h0: Heap, h: Heap, b: Addr, i: nat)
    requires Slot(h, b, i)
    requires Conserved(h0, h)
    ensures Conserved(h0, Rewrite(h, b, i))
  {
    var h' := Rewrite(h, b, i);
    SetRefForwards(h, b, i, Forwarded(Forwards(h.mem), h.mem[b].obj.Refs()[i]));
    assert HeadersIn(h'.mem, h'.spare) == HeadersIn(h.mem, h.spare);
    assert HeadersIn(h'.mem, h'.oldSpace) == HeadersIn(h.mem, h.oldSpace);
    TotalSame(h.mem, h'.mem, HeadersIn(h.mem, h.spare));
    TotalSame(h.mem, h'.mem, HeadersIn(h.mem, h.oldSpace));
  }

  lemma RewriteKeeps(h0: Heap, h: Heap, b: Addr, i: nat)
    requires Slot(h, b, i) && SpacesOk(h0)
    requires Scavenging(h0, h)
    ensures Scavenging(h0, Rewrite(h, b, i))
    ensures Forwards(Rewrite(h, b, i).mem) == Forwards(h.mem)
  {
    NoForwardingChains(h0, h);
    SetRefForwards(h, b, i, Forwarded(Forwards(h.mem), h.mem[b].obj.Refs()[i]));
    RewriteOriginals(h0, h, b, i);
    RewriteOld(h0, h, b, i);
    RewriteCopies(h0, h, b, i);
    RewriteNothingElse(h0, h, b, i);
    RewriteLayout(h, b, i);
    RewriteConserves(h0, h, b, i);
  }

  lemma RewriteOriginals(h0: Heap, h: Heap, b: Addr, i: nat)
    requires Slot(h, b, i) && h.young == h0.young
    requires OriginalsOk(h0, h)
    ensures OriginalsOk(h0, Rewrite(h, b, i))
  {
  }
}
