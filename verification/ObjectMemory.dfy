/** Objects, spaces and reachability, as the collector sees them.

    Memory is a map from the address of an object's header to the object. Addresses are counted in words
    (a byte address divided by 8), so an object with `n` body slots and no overflow word that has its header
    at `a` occupies the words `a .. a + 1 + n`. */
module ObjectMemory {

  type Addr = nat

  /** A tagged word: a SmallInteger or the address of a header. */
  datatype Value = Int(n: int) | Ptr(addr: Addr)

  /** A slot count of this size or more does not fit the header and takes an overflow word in front of it. */
  const OVERFLOW_SLOTS: nat := 255

  /** The largest age the three age bits hold. */
  const MAX_AGE: nat := 7

  /** The slot of a Process that holds its Stack. */
  const PROCESS_STACK: nat := 0

  datatype GcBits = GcBits(mark: bool, remembered: bool, pinned: bool, age: nat, immutable: bool)

  datatype Body =
    | Slots(fixed: bool, values: seq<Value>)
    | Bytes(pad: nat, words: seq<nat>)

  datatype Obj = Obj(classIndex: nat, hash: nat, gc: GcBits, body: Body) {
    function NumSlots(): nat {
      if body.Slots? then |body.values| else |body.words|
    }

    function Extra(): nat {
      if NumSlots() >= OVERFLOW_SLOTS then 1 else 0
    }

    /** Words of storage: overflow word if any, header, body. */
    function Footprint(): nat {
      Extra() + 1 + NumSlots()
    }

    /** The words the collector treats as values: none in a byte object. */
    function Refs(): seq<Value> {
      if body.Slots? then body.values else []
    }

    function WithRef(i: nat, v: Value): Obj
      requires i < |Refs()|
    {
      this.(body := body.(values := body.values[i := v]))
    }
  }

  /** What the header address holds: an object, or the forwarding word a scavenge leaves behind. */
  datatype Cell = Live(obj: Obj) | Moved(to: Addr)

  type Memory = map<Addr, Cell>

  /** A region with bump allocation; all three fields count words. */
  datatype Space = Space(base: Addr, words: nat, alloc: nat) {
    predicate Contains(a: Addr) {
      base <= a < base + words
    }

    function Top(): Addr {
      base + alloc
    }

    predicate HasRoom(n: nat) {
      alloc + n <= words
    }
  }

  /** `young` and `spare` are the two semispaces, `roots` the concatenation of the root vectors with nil first,
      `active` the running process. */
  datatype Heap = Heap(
    mem: Memory,
    young: Space,
    spare: Space,
    oldSpace: Space,
    ssb: seq<Addr>,
    roots: seq<Value>,
    active: Value,
    threshold: nat)

  // ---------- reachability ----------

  ghost predicate Edge(m: Memory, a: Addr, b: Addr) {
    a in m && m[a].Live? && Ptr(b) in m[a].obj.Refs()
  }

  ghost predicate ReachableIn(m: Memory, starts: set<Addr>, a: Addr, n: nat)
    decreases n
  {
    if n == 0 then a in starts
    else exists b :: ReachableIn(m, starts, b, n - 1) && Edge(m, b, a)
  }

  ghost predicate Reachable(m: Memory, starts: set<Addr>, a: Addr) {
    exists n: nat :: ReachableIn(m, starts, a, n)
  }

  lemma ReachableStart(m: Memory, starts: set<Addr>, a: Addr)
    requires a in starts
    ensures Reachable(m, starts, a)
  {
    assert ReachableIn(m, starts, a, 0);
  }

  lemma ReachableEdge(m: Memory, starts: set<Addr>, a: Addr, b: Addr)
    requires Reachable(m, starts, a) && Edge(m, a, b)
    ensures Reachable(m, starts, b)
  {
    var n: nat :| ReachableIn(m, starts, a, n);
    assert ReachableIn(m, starts, b, n + 1);
  }

  ghost predicate ClosedSet(m: Memory, s: set<Addr>) {
    forall a, b :: a in s && Edge(m, a, b) ==> b in s
  }

  /** Induction principle: a set that holds the starts and is closed under edges holds all that is reachable. */
  lemma ReachableWithin(m: Memory, starts: set<Addr>, s: set<Addr>)
    requires starts <= s
    requires ClosedSet(m, s)
    ensures forall a :: Reachable(m, starts, a) ==> a in s
  {
    forall a | Reachable(m, starts, a)
      ensures a in s
    {
      var n: nat :| ReachableIn(m, starts, a, n);
      ReachableInWithin(m, starts, s, a, n);
    }
  }

  lemma {:induction false} ReachableInWithin(m: Memory, starts: set<Addr>, s: set<Addr>, a: Addr, n: nat)
    requires starts <= s
    requires ClosedSet(m, s)
    requires ReachableIn(m, starts, a, n)
    ensures a in s
    decreases n
  {
    if n > 0 {
      var b :| ReachableIn(m, starts, b, n - 1) && Edge(m, b, a);
      ReachableInWithin(m, starts, s, b, n - 1);
    }
  }

  // ---------- footprints ----------

  function FootprintAt(m: Memory, a: Addr): nat {
    if a in m && m[a].Live? then m[a].obj.Footprint() else 0
  }

  ghost function Total(m: Memory, s: set<Addr>): nat {
    if s == {} then 0
    else
      var a :| a in s;
      FootprintAt(m, a) + Total(m, s - {a})
  }

  lemma {:induction false} TotalTake(m: Memory, s: set<Addr>, a: Addr)
    requires a in s
    ensures Total(m, s) == FootprintAt(m, a) + Total(m, s - {a})
  {
    var b :| b in s && Total(m, s) == FootprintAt(m, b) + Total(m, s - {b});
    if b != a {
      TotalTake(m, s - {b}, a);
      TotalTake(m, s - {a}, b);
      assert s - {b} - {a} == s - {a} - {b};
    }
  }

  lemma TotalAdd(m: Memory, s: set<Addr>, a: Addr)
    requires a !in s
    ensures Total(m, s + {a}) == Total(m, s) + FootprintAt(m, a)
  {
    TotalTake(m, s + {a}, a);
    assert s + {a} - {a} == s;
  }

  lemma {:induction false} TotalSame(m: Memory, m': Memory, s: set<Addr>)
    requires forall a :: a in s ==> FootprintAt(m, a) == FootprintAt(m', a)
    ensures Total(m, s) == Total(m', s)
  {
    if s != {} {
      var a :| a in s;
      TotalTake(m, s, a);
      TotalTake(m', s, a);
      TotalSame(m, m', s - {a});
    }
  }

  lemma {:induction false} TotalSubset(m: Memory, s: set<Addr>, t: set<Addr>)
    requires s <= t
    ensures Total(m, s) <= Total(m, t)
  {
    if s != {} {
      var a :| a in s;
      TotalTake(m, s, a);
      TotalTake(m, t, a);
      TotalSubset(m, s - {a}, t - {a});
    }
  }

  /** The headers that lie in a space. */
  ghost function HeadersIn(m: Memory, s: Space): set<Addr> {
    set a | a in m && s.Contains(a)
  }

  // ---------- the heap invariant ----------

  ghost predicate IsOld(h: Heap, a: Addr) {
    h.oldSpace.Contains(a)
  }

  ghost predicate IsYoung(h: Heap, a: Addr) {
    h.young.Contains(a)
  }

  ghost predicate PointsYoung(h: Heap, a: Addr)
    requires a in h.mem && h.mem[a].Live?
  {
    exists v :: v in h.mem[a].obj.Refs() && v.Ptr? && IsYoung(h, v.addr)
  }

  ghost function RootAddrs(h: Heap): set<Addr> {
    (set v | v in h.roots && v.Ptr? :: v.addr) + (if h.active.Ptr? then {h.active.addr} else {})
  }

  /** Where the collector starts: the roots and the store buffer. */
  ghost function Starts(h: Heap): set<Addr> {
    RootAddrs(h) + (set a | a in h.ssb)
  }

  ghost predicate Tracks(h: Heap, a: Addr) {
    Reachable(h.mem, Starts(h), a)
  }

  ghost function Tracked(h: Heap): set<Addr> {
    set a | a in h.mem && Tracks(h, a)
  }

  /** What the program can still reach. */
  ghost predicate Alive(h: Heap, a: Addr) {
    Reachable(h.mem, RootAddrs(h), a)
  }

  function Disjoint(s: Space, t: Space): bool {
    s.base + s.words <= t.base || t.base + t.words <= s.base
  }

  ghost predicate SpacesOk(h: Heap) {
    && Disjoint(h.young, h.spare) && Disjoint(h.young, h.oldSpace) && Disjoint(h.spare, h.oldSpace)
    && h.young.words == h.spare.words
    && h.young.alloc <= h.young.words
    && h.spare.alloc <= h.spare.words
    && h.oldSpace.alloc <= h.oldSpace.words
  }

  /** The storage of the object at `a` lies in the words `lo .. hi`. */
  predicate Between(lo: Addr, hi: Addr, a: Addr, o: Obj) {
    lo + o.Extra() <= a && a + 1 + o.NumSlots() <= hi
  }

  predicate InUsed(s: Space, a: Addr, o: Obj) {
    Between(s.base, s.Top(), a, o)
  }

  /** Every header holds an unmarked object inside the used part of the young or the old space. */
  ghost predicate Placed(h: Heap) {
    forall a :: a in h.mem ==>
      && h.mem[a].Live?
      && !h.mem[a].obj.gc.mark
      && (InUsed(h.young, a, h.mem[a].obj) || InUsed(h.oldSpace, a, h.mem[a].obj))
  }

  predicate Apart(a: Addr, o: Obj, b: Addr, p: Obj) {
    a + 1 + o.NumSlots() + p.Extra() <= b || b + 1 + p.NumSlots() + o.Extra() <= a
  }

  /** No two objects share a word. */
  ghost predicate NoOverlap(m: Memory) {
    forall a, b :: a in m && b in m && a != b && m[a].Live? && m[b].Live? ==> Apart(a, m[a].obj, b, m[b].obj)
  }

  /** Every allocated word belongs to an object. */
  ghost predicate NoGaps(m: Memory, s: Space) {
    Total(m, HeadersIn(m, s)) == s.alloc
  }

  /** Everything the collector can reach is an object. */
  ghost predicate NoDangling(h: Heap) {
    forall a :: Tracks(h, a) ==> a in h.mem
  }

  ghost function Nil(h: Heap): Value
    requires |h.roots| > 0
  {
    h.roots[0]
  }

  ghost predicate HasActive(h: Heap) {
    |h.roots| > 0 && h.active.Ptr? && h.active != Nil(h)
  }

  /** The stack of the running process: the only object whose stores skip the write barrier. */
  ghost function RunningStack(h: Heap): set<Addr> {
    if HasActive(h) && h.active.addr in h.mem && h.mem[h.active.addr].Live? &&
       |h.mem[h.active.addr].obj.Refs()| > PROCESS_STACK &&
       h.mem[h.active.addr].obj.Refs()[PROCESS_STACK].Ptr? &&
       h.mem[h.active.addr].obj.Refs()[PROCESS_STACK] != Nil(h)
    then {h.mem[h.active.addr].obj.Refs()[PROCESS_STACK].addr}
    else {}
  }

  ghost predicate ActiveOk(h: Heap) {
    && |h.roots| > 0 && Nil(h).Ptr? && IsOld(h, Nil(h).addr)
    && (HasActive(h) && h.active.addr in h.mem && h.mem[h.active.addr].Live? ==>
      |h.mem[h.active.addr].obj.Refs()| > PROCESS_STACK)
  }

  ghost predicate NoDuplicates(s: seq<Addr>) {
    forall i, j :: 0 <= i < j < |s| ==> s[i] != s[j]
  }

  /** An object has its remembered bit set exactly when it is in the store buffer; only old objects are. */
  ghost predicate BufferOk(h: Heap) {
    && NoDuplicates(h.ssb)
    && (forall a :: a in h.ssb ==> a in h.mem && IsOld(h, a))
    && (forall a :: a in h.mem && h.mem[a].Live? ==> (h.mem[a].obj.gc.remembered <==> a in h.ssb))
  }

  /** Every old object the collector can reach that refers to a young one is remembered, the running stack
      excepted. */
  ghost predicate Remembered(h: Heap) {
    forall a | a in h.mem && h.mem[a].Live? && Tracks(h, a) && IsOld(h, a) && PointsYoung(h, a) ::
      a in RunningStack(h) || a in h.ssb
  }

  ghost predicate HeapOk(h: Heap) {
    && SpacesOk(h) && h.spare.alloc == 0
    && Placed(h) && NoOverlap(h.mem)
    && NoGaps(h.mem, h.young)
    && NoDangling(h)
    && ActiveOk(h)
    && BufferOk(h)
    && Remembered(h)
  }
}
