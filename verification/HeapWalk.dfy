/** Walking a gap-free space from object to object. */
module HeapWalk {
  import opened ObjectMemory

  lemma {:induction false} TotalUnion(m: Memory, s: set<Addr>, t: set<Addr>)
    requires s !! t
    ensures Total(m, s + t) == Total(m, s) + Total(m, t)
    decreases |s|
  {
    if s == {} {
      assert s + t == t;
    } else {
      var a :| a in s;
      TotalTake(m, s, a);
      TotalTake(m, s + t, a);
      assert s + t - {a} == (s - {a}) + t;
      TotalUnion(m, s - {a}, t);
    }
  }

  ghost predicate Packed(m: Memory, s: set<Addr>, lo: Addr, hi: Addr) {
    && lo <= hi
    && (forall a :: a in s ==> a in m && m[a].Live? && Between(lo, hi, a, m[a].obj))
    && (forall a, b :: a in s && b in s && a != b ==> Apart(a, m[a].obj, b, m[b].obj))
  }

  ghost function Under(s: set<Addr>, x: Addr): set<Addr> {
    set a | a in s && a < x
  }

  ghost function Over(s: set<Addr>, x: Addr): set<Addr> {
    set a | a in s && x < a
  }

  /** Objects that share no word take no more words than the area they lie in. */
  lemma {:induction false} PackedTotal(m: Memory, s: set<Addr>, lo: Addr, hi: Addr)
    requires Packed(m, s, lo, hi)
    ensures lo <= hi && Total(m, s) <= hi - lo
    decreases |s|
  {
    if s != {} {
      var x :| x in s;
      var below, above := Under(s, x), Over(s, x);
      PackedParts(m, s, lo, hi, x);
      hide Packed, Total;
      assert s - {x} == below + above;
      SmallerSet(below, s);
      SmallerSet(above, s);
      PackedTotal(m, below, lo, x - m[x].obj.Extra());
      PackedTotal(m, above, x + 1 + m[x].obj.NumSlots(), hi);
      TotalTake(m, s, x);
      TotalUnion(m, below, above);
    } else {
      assert Total(m, s) == 0;
    }
  }

  /** One object splits the others into those below and those above it. */
  lemma PackedParts(m: Memory, s: set<Addr>, lo: Addr, hi: Addr, x: Addr)
    requires Packed(m, s, lo, hi) && x in s
    ensures m[x].Live? && lo + m[x].obj.Extra() <= x
    ensures Packed(m, Under(s, x), lo, x - m[x].obj.Extra())
    ensures Packed(m, Over(s, x), x + 1 + m[x].obj.NumSlots(), hi)
    ensures Under(s, x) < s && Over(s, x) < s
  {
    assert x !in Under(s, x) && x !in Over(s, x);
    forall a | a in s && a != x
      ensures Apart(x, m[x].obj, a, m[a].obj)
    {
    }
  }

  lemma {:induction false} SmallerSet(s: set<Addr>, t: set<Addr>)
    requires s < t
    ensures |s| < |t|
  {
    if s != {} {
      var a :| a in s;
      SmallerSet(s - {a}, t - {a});
    }
  }

  ghost predicate Walkable(m: Memory, s: Space) {
    && NoOverlap(m) && NoGaps(m, s)
    && forall a :: a in m && s.Contains(a) ==> m[a].Live? && InUsed(s, a, m[a].obj)
  }

  /** The objects whose storage starts below `p`. */
  ghost function StartsBelow(m: Memory, s: Space, p: Addr): set<Addr> {
    set a | a in HeadersIn(m, s) && m[a].Live? && a - m[a].obj.Extra() < p
  }

  /** The walk has come to `p`: the objects that start below it end below it and leave no gap. */
  ghost predicate WalkedTo(m: Memory, s: Space, p: Addr) {
    && s.base <= p <= s.Top()
    && (forall a :: a in StartsBelow(m, s, p) ==> a + 1 + m[a].obj.NumSlots() <= p)
    && Total(m, StartsBelow(m, s, p)) == p - s.base
  }

  /** Where the header is of the object whose storage starts at `p`: a word that is no header is an overflow word. */
  function HeaderAt(m: Memory, p: Addr): Addr {
    if p in m then p else p + 1
  }

  /** In a gap-free space an object starts where the one before ends. */
  lemma ObjectStartsAt(m: Memory, s: Space, p: Addr)
    requires Walkable(m, s) && WalkedTo(m, s, p) && p < s.Top() && s.alloc <= s.words
    ensures exists a :: a in HeadersIn(m, s) && m[a].Live? && a - m[a].obj.Extra() == p
  {
    hide Total;
    var all, below := HeadersIn(m, s), StartsBelow(m, s, p);
    var rest := all - below;
    assert all == below + rest;
    TotalUnion(m, below, rest);
    if forall a :: a in all ==> a - m[a].obj.Extra() != p {
      RestPacked(m, s, p, rest);
      PackedTotal(m, rest, p + 1, s.Top());
      assert false;
    }
  }

  lemma RestPacked(m: Memory, s: Space, p: Addr, rest: set<Addr>)
    requires Walkable(m, s) && p < s.Top() && s.base <= p
    requires rest == HeadersIn(m, s) - StartsBelow(m, s, p)
    requires forall a :: a in HeadersIn(m, s) ==> a - m[a].obj.Extra() != p
    ensures Packed(m, rest, p + 1, s.Top())
  {
    hide NoGaps;
  }

  lemma WalkStep(m: Memory, s: Space, p: Addr)
    requires Walkable(m, s) && WalkedTo(m, s, p) && p < s.Top() && s.alloc <= s.words
    ensures var a := HeaderAt(m, p);
      && a in m && a in HeadersIn(m, s) && m[a].Live? && a - m[a].obj.Extra() == p
      && a !in StartsBelow(m, s, p)
      && StartsBelow(m, s, p + m[a].obj.Footprint()) == StartsBelow(m, s, p) + {a}
      && WalkedTo(m, s, p + m[a].obj.Footprint())
  {
    ObjectStartsAt(m, s, p);
    var a :| a in HeadersIn(m, s) && m[a].Live? && a - m[a].obj.Extra() == p;
    hide Total, NoGaps;
    HeaderIs(m, s, p, a);
    NextStarts(m, s, p, a);
    TotalAdd(m, StartsBelow(m, s, p), a);
  }

  lemma NextStarts(m: Memory, s: Space, p: Addr, a: Addr)
    requires NoOverlap(m) && forall b :: b in m && s.Contains(b) ==> m[b].Live? && InUsed(s, b, m[b].obj)
    requires a in HeadersIn(m, s) && m[a].Live? && a - m[a].obj.Extra() == p
    ensures a !in StartsBelow(m, s, p)
    ensures StartsBelow(m, s, p + m[a].obj.Footprint()) == StartsBelow(m, s, p) + {a}
  {
    var q := p + m[a].obj.Footprint();
    forall b | b in StartsBelow(m, s, q) && b != a
      ensures b in StartsBelow(m, s, p)
    {
      assert Apart(a, m[a].obj, b, m[b].obj);
    }
  }

  lemma HeaderIs(m: Memory, s: Space, p: Addr, a: Addr)
    requires NoOverlap(m) && forall b :: b in m && s.Contains(b) ==> m[b].Live? && InUsed(s, b, m[b].obj)
    requires WalkedTo(m, s, p) && p < s.Top() && s.alloc <= s.words
    requires a in HeadersIn(m, s) && m[a].Live? && a - m[a].obj.Extra() == p
    ensures a == HeaderAt(m, p)
  {
    hide Total;
  }

  lemma WalkStarts(m: Memory, s: Space)
    requires Walkable(m, s) && s.alloc <= s.words
    ensures WalkedTo(m, s, s.base) && StartsBelow(m, s, s.base) == {}
  {
    forall a | a in HeadersIn(m, s)
      ensures a - m[a].obj.Extra() >= s.base
    {
    }
    assert StartsBelow(m, s, s.base) == {};
  }

  lemma WalkEnds(m: Memory, s: Space)
    requires Walkable(m, s)
    ensures StartsBelow(m, s, s.Top()) == HeadersIn(m, s)
  {
    hide Total, NoOverlap;
  }

  lemma WalkedBounds(m: Memory, s: Space, p: Addr)
    requires WalkedTo(m, s, p)
    ensures p <= s.Top() && forall a :: a in StartsBelow(m, s, p) ==> a < p
  {
  }
}
