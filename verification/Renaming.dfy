/** A collection preserves the graph the program can reach, up to the addresses of its objects. */
module Renaming {
  import opened ObjectMemory
  import opened Scavenge
  import opened ScavengeSteps
  import opened ScavengeResult

  /** Every object alive before is there after, under its new name; distinct objects stay distinct. */
  ghost predicate Preserves(h0: Heap, h1: Heap, phi: map<Addr, Addr>) {
    && (forall a :: Alive(h0, a) ==> RenamesObj(h0, h1, phi, a))
    && (forall a, b :: Alive(h0, a) && Alive(h0, b) && a != b ==> Renamed(phi, a) != Renamed(phi, b))
    && RenamesRoots(h0, h1, phi)
  }

  lemma AliveTracked(h: Heap, a: Addr)
    requires Alive(h, a)
    ensures Tracks(h, a)
  {
    var n: nat :| ReachableIn(h.mem, RootAddrs(h), a, n);
    AliveTrackedIn(h, a, n);
  }

  lemma {:induction false} AliveTrackedIn(h: Heap, a: Addr, n: nat)
    requires ReachableIn(h.mem, RootAddrs(h), a, n)
    ensures Tracks(h, a)
    decreases n
  {
    if n == 0 {
      ReachableStart(h.mem, Starts(h), a);
    } else {
      var b :| ReachableIn(h.mem, RootAddrs(h), b, n - 1) && Edge(h.mem, b, a);
      AliveTrackedIn(h, b, n - 1);
      ReachableEdge(h.mem, Starts(h), b, a);
    }
  }

  lemma AliveRoot(h: Heap, v: Value)
    requires (v in h.roots || v == h.active) && v.Ptr?
    ensures Alive(h, v.addr)
  {
    ReachableStart(h.mem, RootAddrs(h), v.addr);
  }

  /** A scavenge preserves the program's graph. */
  lemma ScavengePreserves(h0: Heap, h1: Heap, phi: map<Addr, Addr>)
    requires Scavenged(h0, h1, phi)
    ensures Preserves(h0, h1, phi)
  {
    hide RenamesObj, RenamesRoots;
    forall a | Alive(h0, a)
      ensures Tracks(h0, a)
    {
      AliveTracked(h0, a);
    }
  }

  /** An edge between live objects is an edge between their new names. */
  lemma EdgeRenamed(h0: Heap, h1: Heap, phi: map<Addr, Addr>, a: Addr, b: Addr)
    requires RenamesObj(h0, h1, phi, a) && Edge(h0.mem, a, b)
    ensures Edge(h1.mem, Renamed(phi, a), Renamed(phi, b))
  {
    var s0, s := h0.mem[a].obj.Refs(), h1.mem[Renamed(phi, a)].obj.Refs();
    var i :| 0 <= i < |s0| && s0[i] == Ptr(b);
    assert s[i] == Forwarded(phi, s0[i]);
  }

  lemma {:induction false} AliveForward(h0: Heap, h1: Heap, phi: map<Addr, Addr>, a: Addr, n: nat)
    requires Preserves(h0, h1, phi)
    requires ReachableIn(h0.mem, RootAddrs(h0), a, n)
    ensures Alive(h1, Renamed(phi, a))
    decreases n
  {
    hide RenamesObj;
    if n == 0 {
      if h0.active == Ptr(a) {
        AliveRoot(h1, h1.active);
      } else {
        var v :| v in h0.roots && v == Ptr(a);
        var i :| 0 <= i < |h0.roots| && h0.roots[i] == v;
        assert h1.roots[i] == Forwarded(phi, h0.roots[i]);
        AliveRoot(h1, h1.roots[i]);
      }
    } else {
      var b :| ReachableIn(h0.mem, RootAddrs(h0), b, n - 1) && Edge(h0.mem, b, a);
      AliveForward(h0, h1, phi, b, n - 1);
      assert Alive(h0, b);
      EdgeRenamed(h0, h1, phi, b, a);
      ReachableEdge(h1.mem, RootAddrs(h1), Renamed(phi, b), Renamed(phi, a));
    }
  }

  lemma {:induction false} AliveBackward(h0: Heap, h1: Heap, phi: map<Addr, Addr>, b: Addr, n: nat)
    requires Preserves(h0, h1, phi)
    requires ReachableIn(h1.mem, RootAddrs(h1), b, n)
    ensures exists a :: Alive(h0, a) && Renamed(phi, a) == b
    decreases n
  {
    if n == 0 {
      if h1.active == Ptr(b) {
        AliveRoot(h0, h0.active);
        assert Renamed(phi, h0.active.addr) == b;
      } else {
        var v :| v in h1.roots && v == Ptr(b);
        var i :| 0 <= i < |h1.roots| && h1.roots[i] == v;
        assert h1.roots[i] == Forwarded(phi, h0.roots[i]);
        AliveRoot(h0, h0.roots[i]);
        assert Renamed(phi, h0.roots[i].addr) == b;
      }
    } else {
      var c :| ReachableIn(h1.mem, RootAddrs(h1), c, n - 1) && Edge(h1.mem, c, b);
      AliveBackward(h0, h1, phi, c, n - 1);
      var a :| Alive(h0, a) && Renamed(phi, a) == c;
      assert RenamesObj(h0, h1, phi, a);
      var s0, s := h0.mem[a].obj.Refs(), h1.mem[c].obj.Refs();
      var i :| 0 <= i < |s| && s[i] == Ptr(b);
      assert s[i] == Forwarded(phi, s0[i]);
      assert Edge(h0.mem, a, s0[i].addr);
      ReachableEdge(h0.mem, RootAddrs(h0), a, s0[i].addr);
      assert Renamed(phi, s0[i].addr) == b;
    }
  }

  /** Renaming is a bijection from the objects alive before to the objects alive after. */
  lemma PreservesAlive(h0: Heap, h1: Heap, phi: map<Addr, Addr>)
    requires Preserves(h0, h1, phi)
    ensures forall b :: Alive(h1, b) <==> exists a :: Alive(h0, a) && Renamed(phi, a) == b
  {
    hide Preserves;
    forall a | Alive(h0, a)
      ensures Alive(h1, Renamed(phi, a))
    {
      var n: nat :| ReachableIn(h0.mem, RootAddrs(h0), a, n);
      AliveForward(h0, h1, phi, a, n);
    }
    forall b | Alive(h1, b)
      ensures exists a :: Alive(h0, a) && Renamed(phi, a) == b
    {
      var n: nat :| ReachableIn(h1.mem, RootAddrs(h1), b, n);
      AliveBackward(h0, h1, phi, b, n);
    }
  }

  /** One renaming after another. */
  ghost function Composed(phi: map<Addr, Addr>, psi: map<Addr, Addr>): map<Addr, Addr> {
    map a | a in phi.Keys + psi.Keys :: Renamed(psi, Renamed(phi, a))
  }

  lemma ComposedRenames(phi: map<Addr, Addr>, psi: map<Addr, Addr>, a: Addr)
    ensures Renamed(Composed(phi, psi), a) == Renamed(psi, Renamed(phi, a))
  {
  }

  lemma ComposedBody(phi: map<Addr, Addr>, psi: map<Addr, Addr>, b0: Body, b1: Body, b2: Body)
    requires RenamesBody(phi, b0, b1) && RenamesBody(psi, b1, b2)
    ensures RenamesBody(Composed(phi, psi), b0, b2)
  {
    if b0.Slots? {
      forall i | 0 <= i < |b0.values|
        ensures b2.values[i] == Forwarded(Composed(phi, psi), b0.values[i])
      {
        ForwardedTwice(phi, psi, b0.values[i]);
      }
    }
  }

  lemma ForwardedTwice(phi: map<Addr, Addr>, psi: map<Addr, Addr>, v: Value)
    ensures Forwarded(psi, Forwarded(phi, v)) == Forwarded(Composed(phi, psi), v)
  {
  }

  lemma ComposedObj(h0: Heap, h1: Heap, h2: Heap, phi: map<Addr, Addr>, psi: map<Addr, Addr>, a: Addr)
    requires RenamesObj(h0, h1, phi, a) && RenamesObj(h1, h2, psi, Renamed(phi, a))
    requires forall b :: b in psi ==> !IsYoung(h1, b)
    requires IsYoung(h0, a) ==> a in phi
    ensures RenamesObj(h0, h2, Composed(phi, psi), a)
  {
    ComposedRenames(phi, psi, a);
    ComposedBody(phi, psi, h0.mem[a].obj.body, h1.mem[Renamed(phi, a)].obj.body,
      h2.mem[Renamed(psi, Renamed(phi, a))].obj.body);
    hide RenamesBody;
  }

  /** A collection that ages young objects, followed by one that moves only old ones, preserves the graph. */
  lemma PreservesTrans(h0: Heap, h1: Heap, h2: Heap, phi: map<Addr, Addr>, psi: map<Addr, Addr>)
    requires Preserves(h0, h1, phi) && Preserves(h1, h2, psi)
    requires forall b :: b in psi ==> !IsYoung(h1, b)
    requires forall a :: Alive(h0, a) && IsYoung(h0, a) ==> a in phi
    ensures Preserves(h0, h2, Composed(phi, psi))
  {
    PreservesAlive(h0, h1, phi);
    hide RenamesObj, Alive;
    forall a | Alive(h0, a)
      ensures RenamesObj(h0, h2, Composed(phi, psi), a)
    {
      assert Alive(h1, Renamed(phi, a));
      ComposedObj(h0, h1, h2, phi, psi, a);
    }
    forall a, b | Alive(h0, a) && Alive(h0, b) && a != b
      ensures Renamed(Composed(phi, psi), a) != Renamed(Composed(phi, psi), b)
    {
      assert Alive(h1, Renamed(phi, a)) && Alive(h1, Renamed(phi, b));
      ComposedRenames(phi, psi, a);
      ComposedRenames(phi, psi, b);
    }
    ComposedRoots(h0, h1, h2, phi, psi);
  }

  lemma ComposedRoots(h0: Heap, h1: Heap, h2: Heap, phi: map<Addr, Addr>, psi: map<Addr, Addr>)
    requires RenamesRoots(h0, h1, phi) && RenamesRoots(h1, h2, psi)
    ensures RenamesRoots(h0, h2, Composed(phi, psi))
  {
    forall i | 0 <= i < |h0.roots|
      ensures h2.roots[i] == Forwarded(Composed(phi, psi), h0.roots[i])
    {
      ForwardedTwice(phi, psi, h0.roots[i]);
    }
    ForwardedTwice(phi, psi, h0.active);
  }
}
