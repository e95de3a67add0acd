/** What moving an image means for the program: the objects it can reach, and the pointers between them, are the same. */
module ImageGraph {
  import opened ObjectMemory
  import opened ObjectFormat
  import opened ImageRelocation

  /** The laid-out objects as a memory. */
  ghost function HeapOf(objs: seq<Obj>, base: Addr): Memory {
    map a | a in Heads(objs, base) :: Live(ObjectAt(objs, base, a))
  }

  /** All that can be reached from `starts` is an object; what cannot be reached may hold anything. */
  ghost predicate LiveClosed(objs: seq<Obj>, base: Addr, starts: set<Addr>) {
    forall a :: Reachable(HeapOf(objs, base), starts, a) ==> a in Heads(objs, base)
  }

  ghost function Addrs(values: seq<Value>): set<Addr> {
    set v | v in values && v.Ptr? :: v.addr
  }

  ghost function MovedAddrs(starts: set<Addr>, d: int): set<Addr> {
    set a | a in starts && a + d >= 0 :: a + d
  }

  /** A pointer `d` words further, without wrapping around. */
  function MovedValue(v: Value, d: int): Value
    requires v.Ptr? ==> v.addr + d >= 0
  {
    if v.Ptr? then Ptr(v.addr + d) else v
  }

  /** The object moved: the same but for exactly shifted pointers and clear mark and remembered bits. */
  ghost predicate MovedObj(o: Obj, o': Obj, d: int) {
    && o'.classIndex == o.classIndex && o'.hash == o.hash && o'.gc == o.gc.(mark := false, remembered := false)
    && (o.body.Bytes? ==> o'.body == o.body)
    && (o.body.Slots? ==>
          && o'.body.Slots? && o'.body.fixed == o.body.fixed && |o'.body.values| == |o.body.values|
          && forall i :: 0 <= i < |o.body.values| ==>
               (o.body.values[i].Ptr? ==> o.body.values[i].addr + d >= 0) && o'.body.values[i] == MovedValue(o.body.values[i], d))
  }

  /** The graph that can be reached is the same at the new base: an isomorphism that adds `d` to every address. */
  ghost predicate GraphMoved(objs: seq<Obj>, base: Addr, d: int, starts: set<Addr>)
    requires base + d >= 0
  {
    var m, m' := HeapOf(objs, base), HeapOf(RelocatedTo(d, objs, |objs|), base + d);
    && (forall a: Addr :: Reachable(m, starts, a) ==>
          && a + d >= 0 && a in m && m[a].Live? && a + d in m' && m'[a + d].Live? && MovedObj(m[a].obj, m'[a + d].obj, d)
          && Reachable(m', MovedAddrs(starts, d), a + d))
    && (forall b: Addr :: Reachable(m', MovedAddrs(starts, d), b) ==> b - d >= 0 && Reachable(m, starts, b - d))
  }

  lemma ReachedObject(objs: seq<Obj>, base: Addr, d: int, starts: set<Addr>, a: Addr)
    requires ObjsOk(objs) && Fits(objs, base, d) && HeadsMoved(objs, base, d)
    requires LiveClosed(objs, base, starts) && Reachable(HeapOf(objs, base), starts, a)
    ensures var m, m' := HeapOf(objs, base), HeapOf(RelocatedTo(d, objs, |objs|), base + d);
      && a + d >= 0 && a in m && m[a].Live? && a + d in m' && m'[a + d].Live? && MovedObj(m[a].obj, m'[a + d].obj, d)
      && m[a].obj == ObjectAt(objs, base, a) && m'[a + d].obj == Relocated(d, m[a].obj)
  {
    hide Heads, ObjectAt, RelocatedTo, HeadsMoved, Reachable, Shift, Relocated, MovedObj;
    var m := HeapOf(objs, base);
    HeadShifted(objs, base, d, a);
    var o := m[a].obj;
    forall i | 0 <= i < |o.Refs()| && o.Refs()[i].Ptr?
      ensures o.Refs()[i].addr + d >= 0 && Shift(d, o.Refs()[i]) == Ptr(o.Refs()[i].addr + d)
    {
      var b := o.Refs()[i].addr;
      assert Ptr(b) in o.Refs();
      ReachableEdge(m, starts, a, b);
      HeadShifted(objs, base, d, b);
    }
    RelocatedMoved(o, d);
  }

  lemma RelocatedMoved(o: Obj, d: int)
    requires forall i :: 0 <= i < |o.Refs()| && o.Refs()[i].Ptr? ==>
      o.Refs()[i].addr + d >= 0 && Shift(d, o.Refs()[i]) == Ptr(o.Refs()[i].addr + d)
    ensures MovedObj(o, Relocated(d, o), d)
  {
    var o' := Relocated(d, o);
    if o.body.Slots? {
      forall i | 0 <= i < |o.body.values|
        ensures o.body.values[i].Ptr? ==> o.body.values[i].addr + d >= 0
        ensures o'.body.values[i] == MovedValue(o.body.values[i], d)
      {
        assert o.Refs()[i] == o.body.values[i];
      }
    }
  }

  lemma {:induction false} ReachedMoves(objs: seq<Obj>, base: Addr, d: int, starts: set<Addr>, a: Addr, n: nat)
    requires ObjsOk(objs) && Fits(objs, base, d) && HeadsMoved(objs, base, d) && LiveClosed(objs, base, starts)
    requires ReachableIn(HeapOf(objs, base), starts, a, n)
    ensures a + d >= 0 && Reachable(HeapOf(RelocatedTo(d, objs, |objs|), base + d), MovedAddrs(starts, d), a + d)
    decreases n
  {
    hide RelocatedTo, HeadsMoved, HeapOf, Relocated, ObjectAt, LiveClosed, Reachable;
    var m, m' := HeapOf(objs, base), HeapOf(RelocatedTo(d, objs, |objs|), base + d);
    Steps(m, starts, a, n);
    ReachedObject(objs, base, d, starts, a);
    if n == 0 {
      ReachableStart(m', MovedAddrs(starts, d), a + d);
    } else {
      var b: Addr :| ReachableIn(m, starts, b, n - 1) && Edge(m, b, a);
      Steps(m, starts, b, n - 1);
      ReachedMoves(objs, base, d, starts, b, n - 1);
      ReachedObject(objs, base, d, starts, b);
      EdgeMoves(m, m', d, b, a);
      ReachableEdge(m', MovedAddrs(starts, d), b + d, a + d);
    }
  }

  lemma Steps(m: Memory, starts: set<Addr>, a: Addr, n: nat)
    requires ReachableIn(m, starts, a, n)
    ensures Reachable(m, starts, a)
  {
  }

  lemma EdgeMoves(m: Memory, m': Memory, d: int, b: Addr, a: Addr)
    requires b in m && m[b].Live? && b + d >= 0 && b + d in m' && m'[b + d].Live? && MovedObj(m[b].obj, m'[b + d].obj, d)
    requires Edge(m, b, a)
    ensures a + d >= 0 && Edge(m', b + d, a + d)
  {
    var i :| 0 <= i < |m[b].obj.Refs()| && m[b].obj.Refs()[i] == Ptr(a);
    assert m'[b + d].obj.Refs()[i] == Ptr(a + d);
  }

  lemma {:induction false} ReachedMovesBack(objs: seq<Obj>, base: Addr, d: int, starts: set<Addr>, b: Addr, n: nat)
    requires ObjsOk(objs) && Fits(objs, base, d) && HeadsMoved(objs, base, d) && LiveClosed(objs, base, starts)
    requires ReachableIn(HeapOf(RelocatedTo(d, objs, |objs|), base + d), MovedAddrs(starts, d), b, n)
    ensures b - d >= 0 && Reachable(HeapOf(objs, base), starts, b - d)
    decreases n
  {
    hide RelocatedTo, HeadsMoved, HeapOf, Relocated, ObjectAt, LiveClosed, Reachable;
    var m, m' := HeapOf(objs, base), HeapOf(RelocatedTo(d, objs, |objs|), base + d);
    if n == 0 {
      ReachableStart(m, starts, b - d);
    } else {
      var c: Addr :| ReachableIn(m', MovedAddrs(starts, d), c, n - 1) && Edge(m', c, b);
      ReachedMovesBack(objs, base, d, starts, c, n - 1);
      ReachedObject(objs, base, d, starts, c - d);
      EdgeMovesBack(m, m', d, c - d, b);
      ReachableEdge(m, starts, c - d, b - d);
    }
  }

  lemma EdgeMovesBack(m: Memory, m': Memory, d: int, c: Addr, b: Addr)
    requires c in m && m[c].Live? && c + d >= 0 && c + d in m' && m'[c + d].Live? && MovedObj(m[c].obj, m'[c + d].obj, d)
    requires Edge(m', c + d, b)
    ensures b - d >= 0 && Edge(m, c, b - d)
  {
    var i :| 0 <= i < |m'[c + d].obj.Refs()| && m'[c + d].obj.Refs()[i] == Ptr(b);
    assert m[c].obj.Refs()[i] == Ptr(b - d);
  }

  /** Moving a heap whose reachable part is closed moves its graph. */
  lemma GraphMoves(objs: seq<Obj>, base: Addr, d: int, starts: set<Addr>)
    requires ObjsOk(objs) && Fits(objs, base, d) && LiveClosed(objs, base, starts)
    ensures GraphMoved(objs, base, d, starts)
  {
    hide ObjsOk, RelocatedTo, HeadsMoved, HeapOf, Relocated, ObjectAt, LiveClosed, MovedObj, Fits;
    RelocatedHeads(objs, base, d);
    FitsBase(objs, base, d);
    var m, m' := HeapOf(objs, base), HeapOf(RelocatedTo(d, objs, |objs|), base + d);
    forall a: Addr | Reachable(m, starts, a)
      ensures a + d >= 0 && a in m && m[a].Live? && a + d in m' && m'[a + d].Live? && MovedObj(m[a].obj, m'[a + d].obj, d)
      ensures Reachable(m', MovedAddrs(starts, d), a + d)
    {
      var n: nat :| ReachableIn(m, starts, a, n);
      ReachedObject(objs, base, d, starts, a);
      ReachedMoves(objs, base, d, starts, a, n);
    }
    forall b: Addr | Reachable(m', MovedAddrs(starts, d), b)
      ensures b - d >= 0 && Reachable(m, starts, b - d)
    {
      var n: nat :| ReachableIn(m', MovedAddrs(starts, d), b, n);
      ReachedMovesBack(objs, base, d, starts, b, n);
    }
  }

  lemma FitsBase(objs: seq<Obj>, base: Addr, d: int)
    requires Fits(objs, base, d)
    ensures base + d >= 0
  {
  }

  /** An object at the end whose pointers lead to what can be reached keeps the reachable part closed. */
  lemma ClosedSnoc(objs: seq<Obj>, base: Addr, starts: set<Addr>, o: Obj)
    requires LiveClosed(objs, base, starts)
    requires forall v :: v in o.Refs() && v.Ptr? ==> v.addr in starts
    ensures LiveClosed(objs + [o], base, starts + {base + Size(objs) + o.Extra()})
  {
    hide ObjectAt, Heads;
    var all, a := objs + [o], base + Size(objs) + o.Extra();
    var m, m' := HeapOf(objs, base), HeapOf(all, base);
    var live := set b | b in Heads(objs, base) && Reachable(m, starts, b);
    SnocObjects(objs, base, o);
    forall b | b in starts
      ensures b in live
    {
      ReachableStart(m, starts, b);
    }
    forall b, c | b in live + {a} && Edge(m', b, c)
      ensures c in live + {a}
    {
      if b != a {
        assert m'[b] == m[b];
        ReachableEdge(m, starts, b, c);
      }
    }
    ReachableWithin(m', starts + {a}, live + {a});
  }

  lemma SnocObjects(objs: seq<Obj>, base: Addr, o: Obj)
    ensures var all, a := objs + [o], base + Size(objs) + o.Extra();
      && a in Heads(all, base) && ObjectAt(all, base, a) == o && a !in Heads(objs, base)
      && forall b :: b in Heads(objs, base) ==> b in Heads(all, base) && ObjectAt(all, base, b) == ObjectAt(objs, base, b)
  {
    hide ObjectAt;
    var all, a := objs + [o], base + Size(objs) + o.Extra();
    HeadsAppend(objs, [o], base);
    assert Heads([o], base + Size(objs)) == [a] + Heads([], base + Size(objs) + o.Footprint());
    hide Heads;
    assert Heads(all, base) == Heads(objs, base) + [a];
    ObjectAtHead(all, base, |objs|);
    forall b | b in Heads(objs, base)
      ensures b < a && ObjectAt(all, base, b) == ObjectAt(objs, base, b)
    {
      var j :| 0 <= j < |objs| && Heads(objs, base)[j] == b;
      HeadsWithin(objs, base, j);
      ObjectAtHead(objs, base, j);
      ObjectAtHead(all, base, j);
    }
  }
}
