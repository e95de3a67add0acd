/** The scheduler over intrusive queues: processes are linked through their own next and list fields. */
module Scheduler {
  import opened Options
  import opened Scheduling
  import opened Timers

  datatype Ref = Nil | To(p: Proc)
  datatype Place = Nowhere | In(l: ListId)

  function First(q: seq<Proc>): Ref {
    if q == [] then Nil else To(q[0])
  }

  function Last(q: seq<Proc>): Ref {
    if q == [] then Nil else To(q[|q| - 1])
  }

  /** What follows the process at index `i`. */
  function After(q: seq<Proc>, i: nat): Ref {
    if i + 1 < |q| then To(q[i + 1]) else Nil
  }

  lemma {:induction false} FireAppend(s: Sched, a: seq<Sem>, b: seq<Sem>)
    ensures FireAll(FireAll(s, a), b) == FireAll(s, a + b)
    decreases |a|
  {
    if a == [] {
      assert a + b == b;
    } else {
      assert (a + b)[1..] == a[1..] + b;
      FireAppend(SignalInternal(s, a[0]), a[1..], b);
    }
  }

  lemma FireSnoc(s: Sched, a: seq<Sem>, sem: Sem)
    ensures FireAll(s, a + [sem]) == SignalInternal(FireAll(s, a), sem)
  {
    hide SignalInternal;
    FireAppend(s, a, [sem]);
    assert [sem][1..] == [];
  }

  lemma {:induction false} WithoutAbsent(q: seq<Proc>, p: Proc)
    requires p !in q
    ensures Without(q, p) == q
  {
    if q != [] {
      WithoutAbsent(q[1..], p);
    }
  }

  lemma {:induction false} WithoutAt(q: seq<Proc>, p: Proc, i: nat)
    requires i < |q| && q[i] == p && p !in q[..i]
    ensures Without(q, p) == q[..i] + q[i + 1..]
    decreases i
  {
    if i > 0 {
      assert q[0] == q[..i][0];
      assert q[1..][..i - 1] == q[..i][1..];
      WithoutAt(q[1..], p, i - 1);
    }
  }

  // ---------- intrusive links ----------

  /** The link fields of processes and lists. */
  datatype Links = Links(next: map<Proc, Ref>, myList: map<Proc, Place>, head: map<ListId, Ref>, tail: map<ListId, Ref>)

  /** The links of list `l` spell out the processes of `q`, from head to tail, ending in nil. */
  ghost predicate Linked(c: Links, l: ListId, q: seq<Proc>) {
    && l in c.head && l in c.tail && c.head[l] == First(q) && c.tail[l] == Last(q)
    && Distinct(q)
    && forall i :: 0 <= i < |q| ==> MemberOk(c, l, q, i)
  }

  ghost predicate MemberOk(c: Links, l: ListId, q: seq<Proc>, i: nat)
    requires i < |q|
  {
    q[i] in c.next && q[i] in c.myList && c.myList[q[i]] == In(l) && c.next[q[i]] == After(q, i)
  }

  ghost predicate PlaceOk(c: Links, lists: map<ListId, seq<Proc>>, p: Proc)
    requires p in c.myList
  {
    && p in c.next
    && (c.myList[p].Nowhere? ==> c.next[p] == Nil)
    && (c.myList[p].In? ==> c.myList[p].l in lists && p in lists[c.myList[p].l])
  }

  /** Every list is linked; a process is on a list exactly when its list field says so. */
  ghost predicate LinksOk(c: Links, lists: map<ListId, seq<Proc>>) {
    && c.next.Keys == c.myList.Keys && c.head.Keys == lists.Keys && c.tail.Keys == lists.Keys
    && (forall l :: l in lists ==> Linked(c, l, lists[l]))
    && (forall p :: p in c.myList ==> PlaceOk(c, lists, p))
  }

  /** Where the members of a list say they are. */
  lemma MembersAt(c: Links, lists: map<ListId, seq<Proc>>, l: ListId, p: Proc)
    requires LinksOk(c, lists) && l in lists && p in lists[l]
    ensures p in c.myList && p in c.next && c.myList[p] == In(l)
  {
    assert Linked(c, l, lists[l]);
    var i :| 0 <= i < |lists[l]| && lists[l][i] == p;
    assert MemberOk(c, l, lists[l], i);
  }

  /** A list none of whose fields changed is still linked. */
  lemma OtherLinked(c: Links, c': Links, l: ListId, q: seq<Proc>)
    requires Linked(c, l, q) && l in c'.head && l in c'.tail && c'.head[l] == c.head[l] && c'.tail[l] == c.tail[l]
    requires forall p :: p in q ==> p in c'.next && p in c'.myList
    requires forall p :: p in q && p in c.next && p in c.myList ==> c'.next[p] == c.next[p] && c'.myList[p] == c.myList[p]
    ensures Linked(c', l, q)
  {
    forall i | 0 <= i < |q|
      ensures MemberOk(c', l, q, i)
    {
      assert MemberOk(c, l, q, i) && q[i] in q;
    }
  }

  function Appended(c: Links, l: ListId, p: Proc): Links
    requires l in c.head && l in c.tail
  {
    var next := c.next[p := Nil];
    Links(if c.head[l] != Nil && c.tail[l] != Nil then next[c.tail[l].p := To(p)] else next,
          c.myList[p := In(l)],
          if c.head[l] == Nil then c.head[l := To(p)] else c.head,
          c.tail[l := To(p)])
  }

  lemma AppendedOk(c: Links, lists: map<ListId, seq<Proc>>, l: ListId, p: Proc)
    requires LinksOk(c, lists) && l in lists && p in c.myList && c.myList[p].Nowhere?
    ensures LinksOk(Appended(c, l, p), lists[l := lists[l] + [p]])
    ensures Appended(c, l, p).myList.Keys == c.myList.Keys
  {
    var c', q, lists' := Appended(c, l, p), lists[l] + [p], lists[l := lists[l] + [p]];
    NotMember(c, lists, p);
    AppendedHere(c, lists, l, p);
    hide Appended, Linked;
    forall k | k in lists && k != l
      ensures Linked(c', k, lists[k])
    {
      AppendedElsewhere(c, lists, l, p, k);
    }
    AppendedPlaces(c, lists, l, p);
  }

  lemma NotMember(c: Links, lists: map<ListId, seq<Proc>>, p: Proc)
    requires LinksOk(c, lists) && p in c.myList && c.myList[p].Nowhere?
    ensures forall k :: k in lists ==> p !in lists[k]
  {
    forall k | k in lists && p in lists[k]
      ensures false
    {
      MembersAt(c, lists, k, p);
    }
  }

  lemma AppendedHere(c: Links, lists: map<ListId, seq<Proc>>, l: ListId, p: Proc)
    requires LinksOk(c, lists) && l in lists && p in c.myList && p !in lists[l]
    ensures Linked(Appended(c, l, p), l, lists[l] + [p])
  {
    var c', q0, q := Appended(c, l, p), lists[l], lists[l] + [p];
    assert Linked(c, l, q0);
    forall i | 0 <= i < |q|
      ensures MemberOk(c', l, q, i)
    {
      if i < |q0| {
        assert MemberOk(c, l, q0, i) && q0[i] in q0;
        assert i < |q0| - 1 ==> q0[i] != q0[|q0| - 1];
      }
    }
  }

  lemma AppendedElsewhere(c: Links, lists: map<ListId, seq<Proc>>, l: ListId, p: Proc, k: ListId)
    requires LinksOk(c, lists) && l in lists && k in lists && k != l && p !in lists[k]
    ensures Linked(Appended(c, l, p), k, lists[k])
  {
    assert Linked(c, k, lists[k]) && Linked(c, l, lists[l]);
    forall x | x in lists[k]
      ensures x in c.next && x in c.myList && c.myList[x] == In(k)
    {
      MembersAt(c, lists, k, x);
    }
    if lists[l] != [] {
      MembersAt(c, lists, l, lists[l][|lists[l]| - 1]);
    }
    OtherLinked(c, Appended(c, l, p), k, lists[k]);
  }

  lemma AppendedPlaces(c: Links, lists: map<ListId, seq<Proc>>, l: ListId, p: Proc)
    requires LinksOk(c, lists) && l in lists && p in c.myList
    ensures var c' := Appended(c, l, p);
      && c'.next.Keys == c'.myList.Keys == c.myList.Keys && c'.head.Keys == lists.Keys && c'.tail.Keys == lists.Keys
      && forall x :: x in c'.myList ==> PlaceOk(c', lists[l := lists[l] + [p]], x)
  {
    var c' := Appended(c, l, p);
    assert Linked(c, l, lists[l]);
    if lists[l] != [] {
      MembersAt(c, lists, l, lists[l][|lists[l]| - 1]);
    }
    forall x | x in c'.myList
      ensures PlaceOk(c', lists[l := lists[l] + [p]], x)
    {
      assert PlaceOk(c, lists, x);
    }
  }

  /** Process `p` taken out of list `l`, where `prev` comes before it. */
  function Unlinked(c: Links, l: ListId, p: Proc, prev: Ref): Links
    requires p in c.next && l in c.head && l in c.tail
  {
    var n := c.next[p];
    var next := if prev == Nil then c.next else c.next[prev.p := n];
    Links(next[p := Nil], c.myList[p := Nowhere],
          if prev == Nil then c.head[l := n] else c.head,
          if n == Nil then c.tail[l := prev] else c.tail)
  }

  /** What comes before index `i`. */
  function Before(q: seq<Proc>, i: nat): Ref
    requires i <= |q|
  {
    if i > 0 then To(q[i - 1]) else Nil
  }

  function Cut(q: seq<Proc>, i: nat): seq<Proc>
    requires i < |q|
  {
    q[..i] + q[i + 1..]
  }

  lemma UnlinkedOk(c: Links, lists: map<ListId, seq<Proc>>, l: ListId, i: nat)
    requires LinksOk(c, lists) && l in lists && i < |lists[l]|
    ensures lists[l][i] in c.next && lists[l][i] in c.myList && l in c.head && l in c.tail
    ensures var c' := Unlinked(c, l, lists[l][i], Before(lists[l], i));
      LinksOk(c', lists[l := Cut(lists[l], i)]) && c'.myList.Keys == c.myList.Keys && c'.myList[lists[l][i]].Nowhere?
  {
    MembersAt(c, lists, l, lists[l][i]);
    var p, c' := lists[l][i], Unlinked(c, l, lists[l][i], Before(lists[l], i));
    UnlinkedHere(c, lists, l, i);
    hide Unlinked, Linked, Cut;
    forall k | k in lists && k != l
      ensures Linked(c', k, lists[k])
    {
      UnlinkedElsewhere(c, lists, l, i, k);
    }
    UnlinkedPlaces(c, lists, l, i);
  }

  lemma UnlinkedHere(c: Links, lists: map<ListId, seq<Proc>>, l: ListId, i: nat)
    requires LinksOk(c, lists) && l in lists && i < |lists[l]| && lists[l][i] in c.next && l in c.head && l in c.tail
    ensures Linked(Unlinked(c, l, lists[l][i], Before(lists[l], i)), l, Cut(lists[l], i))
  {
    var q0, q := lists[l], Cut(lists[l], i);
    var c' := Unlinked(c, l, q0[i], Before(q0, i));
    assert Linked(c, l, q0) && MemberOk(c, l, q0, i);
    forall j | 0 <= j < |q|
      ensures MemberOk(c', l, q, j)
    {
      var j0 := if j < i then j else j + 1;
      assert MemberOk(c, l, q0, j0) && q[j] == q0[j0] && q0[j0] != q0[i];
      assert i > 0 && j0 != i - 1 ==> q0[j0] != q0[i - 1];
    }
  }

  lemma UnlinkedElsewhere(c: Links, lists: map<ListId, seq<Proc>>, l: ListId, i: nat, k: ListId)
    requires LinksOk(c, lists) && l in lists && i < |lists[l]| && lists[l][i] in c.next && l in c.head && l in c.tail
    requires k in lists && k != l
    ensures Linked(Unlinked(c, l, lists[l][i], Before(lists[l], i)), k, lists[k])
  {
    assert Linked(c, k, lists[k]);
    forall x | x in lists[k]
      ensures x in c.next && x in c.myList && c.myList[x] == In(k)
    {
      MembersAt(c, lists, k, x);
    }
    MembersAt(c, lists, l, lists[l][i]);
    if i > 0 {
      MembersAt(c, lists, l, lists[l][i - 1]);
    }
    OtherLinked(c, Unlinked(c, l, lists[l][i], Before(lists[l], i)), k, lists[k]);
  }

  lemma UnlinkedPlaces(c: Links, lists: map<ListId, seq<Proc>>, l: ListId, i: nat)
    requires LinksOk(c, lists) && l in lists && i < |lists[l]| && lists[l][i] in c.next && l in c.head && l in c.tail
    ensures var c' := Unlinked(c, l, lists[l][i], Before(lists[l], i));
      && c'.next.Keys == c'.myList.Keys == c.myList.Keys && c'.head.Keys == lists.Keys && c'.tail.Keys == lists.Keys
      && forall x :: x in c'.myList ==> PlaceOk(c', lists[l := Cut(lists[l], i)], x)
  {
    var q, p := lists[l], lists[l][i];
    var c' := Unlinked(c, l, p, Before(q, i));
    MembersAt(c, lists, l, p);
    if i > 0 {
      MembersAt(c, lists, l, q[i - 1]);
      assert Linked(c, l, q);
    }
    RestIs(q, i);
    forall x | x in c'.myList
      ensures PlaceOk(c', lists[l := Cut(q, i)], x)
    {
      assert PlaceOk(c, lists, x);
    }
  }

  lemma RestIs(q: seq<Proc>, i: nat)
    requires i < |q|
    ensures forall x :: x in q && x != q[i] ==> x in Cut(q, i)
  {
    assert q == q[..i] + [q[i]] + q[i + 1..];
  }

  lemma RemovedIs(c: Links, lists: map<ListId, seq<Proc>>, l: ListId, i: nat)
    requires LinksOk(c, lists) && l in lists && i < |lists[l]|
    ensures lists[l := Cut(lists[l], i)] == map k | k in lists :: Without(lists[k], lists[l][i])
  {
    var q, p := lists[l], lists[l][i];
    assert Linked(c, l, q);
    WithoutAt(q, p, i);
    MembersAt(c, lists, l, p);
    forall k | k in lists && k != l
      ensures Without(lists[k], p) == lists[k]
    {
      if p in lists[k] {
        MembersAt(c, lists, k, p);
      }
      WithoutAbsent(lists[k], p);
    }
  }

  lemma NothingRemoved(c: Links, lists: map<ListId, seq<Proc>>, p: Proc)
    requires LinksOk(c, lists) && p in c.myList && c.myList[p].Nowhere?
    ensures (map k | k in lists :: Without(lists[k], p)) == lists
  {
    NotMember(c, lists, p);
    forall k | k in lists
      ensures Without(lists[k], p) == lists[k]
    {
      WithoutAbsent(lists[k], p);
    }
  }

  lemma MemberPlace(c: Links, lists: map<ListId, seq<Proc>>, p: Proc)
    requires LinksOk(c, lists) && p in c.myList && c.myList[p].In?
    ensures c.myList[p].l in lists && p in lists[c.myList[p].l]
  {
    assert PlaceOk(c, lists, p);
  }

  /** What a link field says of the list it belongs to. */
  lemma LinkIs(c: Links, lists: map<ListId, seq<Proc>>, l: ListId, i: nat)
    requires LinksOk(c, lists) && l in lists
    ensures l in c.head && l in c.tail && c.head[l] == First(lists[l]) && c.tail[l] == Last(lists[l])
    ensures i < |lists[l]| ==> lists[l][i] in c.next && c.next[lists[l][i]] == After(lists[l], i)
    ensures forall p :: p in lists[l] ==> p in c.next && p in c.myList
  {
    assert Linked(c, l, lists[l]);
    if i < |lists[l]| {
      assert MemberOk(c, l, lists[l], i);
    }
    forall p | p in lists[l]
      ensures p in c.next && p in c.myList
    {
      MembersAt(c, lists, l, p);
    }
  }

  class Scheduler {
    var next: map<Proc, Ref>
    var myList: map<Proc, Place>
    var head: map<ListId, Ref>
    var tail: map<ListId, Ref>
    var excess: map<Sem, int>
    var priority: map<Proc, int>
    var alive: set<Proc>
    var active: Proc
    var timers: seq<Timer>
    var clock: int
    ghost var lists: map<ListId, seq<Proc>>

    ghost function State(): Sched
      reads this
    {
      Sched(lists, excess, priority, alive, active)
    }

    function Fields(): Links
      reads this
    {
      Links(next, myList, head, tail)
    }

    ghost predicate Valid()
      reads this
    {
      LinksOk(Fields(), lists) && myList.Keys == priority.Keys
    }

    /** Empty run queues, the given semaphores with nothing signalled, and one process, running. */
    constructor Idle(main: Proc, level: int, sems: set<Sem>)
      requires 1 <= level <= NUM_PRIORITIES
      ensures Valid() && Ok(State()) && TimersOk() && PrioritiesOk(State()) && TopPriority(State())
      ensures active == main && priority == map[main := level] && excess == map sem | sem in sems :: 0
      ensures forall l :: l in lists ==> lists[l] == []
    {
      var ids := ListIds(sems);
      next, myList := map[main := Nil], map[main := Nowhere];
      head, tail, lists := map l | l in ids :: Nil, map l | l in ids :: Nil, map l | l in ids :: [];
      excess, priority, alive, active := map sem | sem in sems :: 0, map[main := level], {main}, main;
      timers, clock := [], 0;
      new;
      hide LinksOk, Ok, PrioritiesOk, TopPriority;
      IdleOk(State(), main, level, sems);
      IdleLinks(Fields(), lists, main);
    }

    /** A new process: suspended, on no queue. */
    method NewProcess(p: Proc, level: int)
      requires Valid() && Ok(State()) && p !in priority && 1 <= level <= NUM_PRIORITIES
      modifies this`next, this`myList, this`priority, this`alive
      ensures Valid() && Ok(State())
      ensures State() == old(State()).(priority := old(priority)[p := level], alive := old(alive) + {p})
      ensures PrioritiesOk(old(State())) ==> PrioritiesOk(State())
      ensures TopPriority(old(State())) ==> TopPriority(State())
    {
      hide LinksOk, Ok, PrioritiesOk, TopPriority;
      NewProcessOk(State(), p, level);
      NewProcessLinks(Fields(), lists, p);
      next, myList := next[p := Nil], myList[p := Nowhere];
      priority, alive := priority[p := level], alive + {p};
    }

    /** Append a process to a queue. */
    method EnqueueProcess(l: ListId, p: Proc)
      requires Valid() && l in lists && p in priority && myList[p].Nowhere?
      modifies this`next, this`myList, this`head, this`tail, this`lists
      ensures Valid() && State() == Enqueue(old(State()), l, p)
    {
      hide LinksOk;
      ghost var c, q := Fields(), lists;
      LinkIs(c, q, l, 0);
      next := next[p := Nil];
      myList := myList[p := In(l)];
      if head[l] == Nil {
        head := head[l := To(p)];
      } else {
        next := next[tail[l].p := To(p)];
      }
      tail := tail[l := To(p)];
      lists := lists[l := lists[l] + [p]];
      assert Fields() == Appended(c, l, p);
      hide Appended;
      AppendedOk(c, q, l, p);
    }

    /** Take the first process off a queue. */
    method DequeueProcess(l: ListId) returns (r: Option<Proc>)
      requires Valid() && l in lists
      modifies this`next, this`myList, this`head, this`tail, this`lists
      ensures Valid()
      ensures old(lists[l]) == [] ==> r == None && State() == old(State())
      ensures old(lists[l]) != [] ==>
        && r == Some(old(lists[l])[0]) && State() == old(State()).With(l, old(lists[l])[1..])
        && r.value in myList && myList[r.value].Nowhere?
    {
      hide LinksOk;
      ghost var c, q := Fields(), lists;
      LinkIs(c, q, l, 0);
      if head[l] == Nil {
        return None;
      }
      var p := head[l].p;
      var n := next[p];
      head := head[l := n];
      if n == Nil {
        tail := tail[l := Nil];
      }
      next := next[p := Nil];
      myList := myList[p := Nowhere];
      lists := lists[l := lists[l][1..]];
      assert Fields() == Unlinked(c, l, p, Nil);
      hide Unlinked;
      UnlinkedOk(c, q, l, 0);
      assert Cut(q[l], 0) == q[l][1..];
      r := Some(p);
    }

    /** Unlink a process from whatever queue holds it. */
    method RemoveFromItsList(p: Proc)
      requires Valid() && p in priority
      modifies this`next, this`myList, this`head, this`tail, this`lists
      ensures Valid() && State() == Remove(old(State()), p)
      ensures p in myList && myList[p].Nowhere?
    {
      if myList[p] == Nowhere {
        NothingRemoved(Fields(), lists, p);
        return;
      }
      MemberPlace(Fields(), lists, p);
      hide LinksOk;
      var l := myList[p].l;
      ghost var q := lists[l];
      LinkIs(Fields(), lists, l, 0);
      var prev, cur := Nil, head[l];
      ghost var i := 0;
      while cur != Nil && cur != To(p)
        invariant unchanged(this)
        invariant i <= |q| && cur == (if i < |q| then To(q[i]) else Nil) && prev == Before(q, i)
        invariant p !in q[..i]
        decreases |q| - i
      {
        LinkIs(Fields(), lists, l, i);
        prev := cur;
        cur := next[cur.p];
        i := i + 1;
        assert q[..i] == q[..i - 1] + [q[i - 1]];
      }
      assert i < |q| by {
        assert q[..|q|] == q;
      }
      Unlink(p, l, prev, i);
    }

    /** Take the process at index `i` out of list `l`; `prev` comes before it. */
    method Unlink(p: Proc, l: ListId, prev: Ref, ghost i: nat)
      requires Valid() && l in lists && i < |lists[l]| && lists[l][i] == p && prev == Before(lists[l], i)
      modifies this`next, this`myList, this`head, this`tail, this`lists
      ensures Valid() && State() == Remove(old(State()), p)
      ensures p in myList && myList[p].Nowhere?
    {
      hide LinksOk, Cut, First, Last, After, Without;
      ghost var c, q := Fields(), lists;
      LinkIs(c, q, l, i);
      var n := next[p];
      if prev == Nil {
        head := head[l := n];
      } else {
        next := next[prev.p := n];
      }
      if n == Nil {
        tail := tail[l := prev];
      }
      next := next[p := Nil];
      myList := myList[p := Nowhere];
      lists := lists[l := Cut(lists[l], i)];
      assert next == Unlinked(c, l, p, prev).next;
      assert Fields() == Unlinked(c, l, p, prev);
      hide Unlinked;
      UnlinkedOk(c, q, l, i);
      RemovedIs(c, q, l, i);
    }

    method MakeRunnable(p: Proc)
      requires Valid() && HasQueues(State()) && p in priority && myList[p].Nowhere?
      modifies this`next, this`myList, this`head, this`tail, this`lists
      ensures Valid() && HasQueues(State()) && State() == Scheduling.MakeRunnable(old(State()), p)
    {
      hide LinksOk;
      EnqueueProcess(Run(Clamp(priority[p]) - 1), p);
    }

    /** The first process of the highest non-empty run queue. */
    method TakeNextRunnable() returns (r: Option<Proc>)
      requires Valid() && HasQueues(State())
      modifies this`next, this`myList, this`head, this`tail, this`lists
      ensures Valid() && HasQueues(State())
      ensures match TakeNext(old(State()))
              case None => r == None && State() == old(State())
              case Some(n) => r == Some(n.1) && State() == n.0 && n.1 in myList && myList[n.1].Nowhere?
    {
      hide LinksOk;
      var i: nat := NUM_PRIORITIES;
      while i > 0
        invariant i <= NUM_PRIORITIES && Valid() && State() == old(State())
        invariant Highest(State(), NUM_PRIORITIES) == Highest(State(), i)
      {
        i := i - 1;
        r := DequeueProcess(Run(i));
        if r.Some? {
          return;
        }
      }
      r := None;
    }

    /** The highest priority of a runnable process. */
    method RunnableCeiling() returns (r: Option<int>)
      requires Valid() && HasQueues(State())
      ensures match Highest(State(), NUM_PRIORITIES)
              case None => r == None
              case Some(i) => r == Some(i + 1)
    {
      hide LinksOk;
      var i: nat := NUM_PRIORITIES;
      while i > 0
        invariant i <= NUM_PRIORITIES
        invariant Highest(State(), NUM_PRIORITIES) == Highest(State(), i)
      {
        i := i - 1;
        LinkIs(Fields(), lists, Run(i), 0);
        if head[Run(i)] != Nil {
          return Some(i + 1);
        }
      }
      r := None;
    }

    /** A signal that does not preempt. */
    method SemaphoreSignalInternal(sem: Sem)
      requires Valid() && HasQueues(State()) && sem in excess
      modifies this`next, this`myList, this`head, this`tail, this`lists, this`excess
      ensures Valid() && HasQueues(State()) && State() == SignalInternal(old(State()), sem)
      ensures excess.Keys == old(excess.Keys)
    {
      hide LinksOk;
      var r := DequeueProcess(Waiters(sem));
      if r.Some? {
        MakeRunnable(r.value);
      } else {
        excess := excess[sem := excess[sem] + 1];
      }
    }

    /** Fire the timers that are due. */
    method ServiceTimers() returns (fired: bool)
      requires Valid() && HasQueues(State()) && TimersOk()
      modifies this`next, this`myList, this`head, this`tail, this`lists, this`excess, this`timers, this`clock
      ensures Valid() && HasQueues(State()) && TimersOk() && clock >= old(clock)
      ensures State() == FireAll(old(State()), Due(old(timers), clock)) && timers == Later(old(timers), clock)
      ensures fired <==> Due(old(timers), clock) != []
      ensures excess.Keys == old(excess.Keys)
    {
      hide LinksOk, SignalInternal, HasQueues, FireAll, Due, Later;
      FireNone(State());
      var now := ReadClock();
      TimersSplit(timers, now, excess.Keys);
      var due, keep := Partition(timers, now);
      timers := keep;
      fired := due != [];
      for i := 0 to |due|
        invariant Valid() && HasQueues(State()) && excess.Keys == old(excess.Keys) && timers == keep && clock == now
        invariant State() == FireAll(old(State()), due[..i])
      {
        assert due[..i + 1] == due[..i] + [due[i]];
        FireSnoc(old(State()), due[..i], due[i]);
        SemaphoreSignalInternal(due[i]);
      }
      assert due[..|due|] == due;
    }

    ghost predicate TimersOk()
      reads this
    {
      KnownTimers(timers, excess.Keys)
    }

    /** The clock does not go back. */
    method ReadClock() returns (now: int)
      modifies this`clock
      ensures clock == now >= old(clock)
    {
      now := *;
      if now < clock {
        now := clock;
      }
      clock := now;
    }

    /** Take the next runnable process; while there is none, let timers come due. With no timer left that is a deadlock.
        `fired` are the semaphores signalled meanwhile. */
    method PickNextOrWait() returns (r: Option<Proc>, ghost fired: seq<Sem>)
      requires Valid() && HasQueues(State()) && TimersOk()
      modifies this`next, this`myList, this`head, this`tail, this`lists, this`excess, this`timers, this`clock
      ensures Valid() && HasQueues(State()) && TimersOk() && forall sem :: sem in fired ==> sem in old(excess)
      ensures match TakeNext(FireAll(old(State()), fired))
              case None => r == None && timers == []
              case Some(n) => r == Some(n.1) && State() == n.0 && n.1 in myList && myList[n.1].Nowhere?
      ensures TakeNext(old(State())).Some? ==> fired == [] && timers == old(timers)
      ensures clock >= old(clock) && Fired(old(timers), timers, fired, clock)
    {
      hide LinksOk, FireAll, TakeNext, Fired;
      fired := [];
      assert FireAll(old(State()), []) == old(State()) by {
        FireNone(old(State()));
      }
      FiredNone(timers, clock);
      ghost var due := false;
      while true
        invariant Valid() && HasQueues(State()) && TimersOk() && excess.Keys == old(excess.Keys)
        invariant State() == FireAll(old(State()), fired) && forall sem :: sem in fired ==> sem in old(excess)
        invariant fired != [] || timers != old(timers) ==> TakeNext(old(State())).None?
        invariant clock >= old(clock) && Fired(old(timers), timers, fired, clock)
        invariant due ==> exists i :: 0 <= i < |timers| && timers[i].deadline <= clock
        decreases |timers|, if due then 0 else 1
      {
        r := TakeNextRunnable();
        if r.Some? {
          return;
        }
        if timers == [] {
          return;
        }
        ghost var before, from := timers, clock;
        ghost var more, polled;
        due, more, polled := AwaitTimers();
        FireAppend(old(State()), fired, more);
        FiredMore(old(timers), before, fired, from, polled);
        fired := fired + more;
        FiredLater(old(timers), timers, fired, polled, clock);
      }
    }

    /** Fire what is due; if nothing is, sleep until the earliest deadline. `polled` is the reading of the clock. */
    method AwaitTimers() returns (ghost due: bool, ghost more: seq<Sem>, ghost polled: int)
      requires Valid() && HasQueues(State()) && TimersOk() && timers != []
      modifies this`next, this`myList, this`head, this`tail, this`lists, this`excess, this`timers, this`clock
      ensures Valid() && HasQueues(State()) && TimersOk() && excess.Keys == old(excess.Keys)
      ensures State() == FireAll(old(State()), more) && forall sem :: sem in more ==> sem in excess
      ensures old(clock) <= polled <= clock && more == Due(old(timers), polled) && timers == Later(old(timers), polled)
      ensures |timers| < |old(timers)| || (|timers| == |old(timers)| && due)
      ensures due ==> exists i :: 0 <= i < |timers| && timers[i].deadline <= clock
      ensures (exists i :: 0 <= i < |old(timers)| && old(timers)[i].deadline <= old(clock)) ==> |timers| < |old(timers)|
    {
      hide LinksOk, FireAll;
      ghost var before := timers;
      var any := ServiceTimers();
      polled, more, due := clock, Due(before, clock), !any;
      DueIn(before, clock);
      TimersSplit(before, clock, excess.Keys);
      if !any {
        NoneDue(before, clock);
        Sleep();
      }
    }

    /** Sleep to the earliest deadline, at least one tick. */
    method Sleep()
      requires timers != [] && Due(timers, clock) == []
      modifies this`clock
      ensures clock > old(clock) && exists i :: 0 <= i < |timers| && timers[i].deadline <= clock
    {
      var earliest := Earliest(timers);
      ghost var i :| 0 <= i < |timers| && timers[i].deadline == earliest;
      clock := if earliest > clock + 1 then earliest else clock + 1;
      assert timers[i].deadline <= clock;
    }

    /** The earliest deadline. */
    static method Earliest(all: seq<Timer>) returns (t: int)
      requires all != []
      ensures exists i :: 0 <= i < |all| && all[i].deadline == t
      ensures forall i :: 0 <= i < |all| ==> t <= all[i].deadline
    {
      t := all[0].deadline;
      for i := 1 to |all|
        invariant exists j :: 0 <= j < |all| && all[j].deadline == t
        invariant forall j :: 0 <= j < i ==> t <= all[j].deadline
      {
        if all[i].deadline < t {
          t := all[i].deadline;
        }
      }
    }

    /** Pick the next process and switch to it. */
    method PickAndTransfer() returns (ok: bool, ghost fired: seq<Sem>)
      requires Valid() && HasQueues(State()) && TimersOk()
      modifies this`next, this`myList, this`head, this`tail, this`lists, this`excess, this`timers, this`clock, this`active
      ensures Valid() && TimersOk() && forall sem :: sem in fired ==> sem in old(excess)
      ensures clock >= old(clock) && Fired(old(timers), timers, fired, clock)
      ensures ok ==> Switch(old(State()), fired) == Done(State(), FireEvents(old(State()), fired))
      ensures !ok ==> Switch(old(State()), fired) == Deadlock
    {
      hide LinksOk, FireAll, FireEvents, TakeNext, Fired;
      var r;
      r, fired := PickNextOrWait();
      ok := r.Some?;
      if ok {
        active := r.value;
      }
    }

    /** Wait on a semaphore: take an excess signal, or block and run another process. */
    method SemaphoreWait(sem: Sem) returns (ok: bool, ghost fired: seq<Sem>)
      requires Valid() && Ok(State()) && TimersOk()
      modifies this`next, this`myList, this`head, this`tail, this`lists, this`excess, this`timers, this`clock, this`active
      ensures Valid() && TimersOk() && Completes(old(State()), Op.Wait(sem, fired), ok, State())
      ensures clock >= old(clock) && Fired(old(timers), timers, fired, clock)
    {
      hide LinksOk, QueuesOk, Free, Switch, Fired;
      ghost var s := State();
      Ready(Fields(), s);
      ok, fired := true, [];
      FiredNone(timers, clock);
      if sem !in excess {
        StepCompletes(s, Op.Wait(sem, []), State());
        return;
      }
      if excess[sem] > 0 {
        excess := excess[sem := excess[sem] - 1];
        StepCompletes(s, Op.Wait(sem, []), State());
        return;
      }
      EnqueueProcess(Waiters(sem), active);
      ok, fired := PickAndTransfer();
      if ok {
        StepCompletes(s, Op.Wait(sem, fired), State());
      }
    }

    /** Signal a semaphore: a waiter of higher priority runs at once, one of lower priority becomes runnable. */
    method SemaphoreSignal(sem: Sem)
      requires Valid() && Ok(State()) && TimersOk()
      modifies this`next, this`myList, this`head, this`tail, this`lists, this`excess, this`active
      ensures Valid() && TimersOk() && Completes(old(State()), Op.Signal(sem), true, State())
    {
      hide LinksOk, QueuesOk, Free;
      ghost var s := State();
      Ready(Fields(), s);
      if sem !in excess {
        StepCompletes(s, Op.Signal(sem), State());
        return;
      }
      var r := DequeueProcess(Waiters(sem));
      if r.Some? {
        var p := r.value;
        if priority[p] > priority[active] {
          StillNowhere(s, Waiters(sem), Fields(), lists);
          MakeRunnable(active);
          active := p;
        } else {
          MakeRunnable(p);
        }
      } else {
        excess := excess[sem := excess[sem] + 1];
      }
      StepCompletes(s, Op.Signal(sem), State());
    }

    /** Let other processes of the same priority run first. */
    method Yield() returns (ok: bool, ghost fired: seq<Sem>)
      requires Valid() && Ok(State()) && TimersOk()
      modifies this`next, this`myList, this`head, this`tail, this`lists, this`excess, this`timers, this`clock, this`active
      ensures Valid() && TimersOk() && Completes(old(State()), Op.Yield(fired), ok, State())
      ensures clock >= old(clock) && Fired(old(timers), timers, fired, clock)
    {
      hide LinksOk, QueuesOk, Free, Switch, Fired;
      ghost var s := State();
      Ready(Fields(), s);
      MakeRunnable(active);
      ok, fired := PickAndTransfer();
      if ok {
        StepCompletes(s, Op.Yield(fired), State());
      }
    }

    /** Make a suspended process runnable, or run it at once if its priority is higher; fails for a process that is
        running, on a queue or terminated. */
    method Resume(p: Proc) returns (ok: bool)
      requires Valid() && Ok(State()) && TimersOk()
      modifies this`next, this`myList, this`head, this`tail, this`lists, this`active
      ensures Valid() && TimersOk() && Completes(old(State()), Op.Resume(p), true, State())
      ensures ok <==> CanResume(old(State()), p)
    {
      hide LinksOk, QueuesOk, Free;
      ghost var s := State();
      Ready(Fields(), s);
      ok := p in priority && p != active && p in alive && myList[p] == Nowhere;
      NowhereIff(Fields(), lists, p);
      if ok {
        if priority[p] > priority[active] {
          MakeRunnable(active);
          active := p;
        } else {
          MakeRunnable(p);
        }
      }
      StepCompletes(s, Op.Resume(p), State());
    }

    /** Suspend a process: the running one gives way to another, any other leaves its queue. */
    method Suspend(p: Proc) returns (ok: bool, ghost fired: seq<Sem>)
      requires Valid() && Ok(State()) && TimersOk()
      modifies this`next, this`myList, this`head, this`tail, this`lists, this`excess, this`timers, this`clock, this`active
      ensures Valid() && TimersOk() && Completes(old(State()), Op.Suspend(p, fired), ok, State())
      ensures clock >= old(clock) && Fired(old(timers), timers, fired, clock)
    {
      hide LinksOk, QueuesOk, Free, Switch, Remove, Fired;
      ghost var s := State();
      Ready(Fields(), s);
      ok, fired := true, [];
      FiredNone(timers, clock);
      if p in priority {
        if p == active {
          ok, fired := PickAndTransfer();
        } else {
          RemoveFromItsList(p);
        }
      }
      if ok {
        StepCompletes(s, Op.Suspend(p, fired), State());
      }
    }

    /** Terminate another process: with a trampoline frame pushed, it becomes runnable to unwind itself. */
    method TerminateOther(p: Proc)
      requires Valid() && Ok(State()) && TimersOk()
      modifies this`next, this`myList, this`head, this`tail, this`lists
      ensures Valid() && TimersOk() && Completes(old(State()), Op.TerminateOther(p), true, State())
    {
      hide LinksOk, QueuesOk, Free, Remove;
      ghost var s := State();
      Ready(Fields(), s);
      if p in priority && p != active && p in alive {
        RemoveFromItsList(p);
        RemoveKeepsQueues(s, p);
        MakeRunnable(p);
      }
      StepCompletes(s, Op.TerminateOther(p), State());
    }

    /** Timer expiry and preemption. */
    method ServiceSafepoint() returns (ghost fired: seq<Sem>)
      requires Valid() && Ok(State()) && TimersOk()
      modifies this`next, this`myList, this`head, this`tail, this`lists, this`excess, this`timers, this`clock, this`active
      ensures Valid() && TimersOk() && Completes(old(State()), Op.Safepoint(fired), true, State())
      ensures clock >= old(clock) && Fired(old(timers), timers, fired, clock)
    {
      hide LinksOk, QueuesOk, Free, FireAll, FireEvents, Due, Preempt, Fired;
      ghost var s := State();
      Ready(Fields(), s);
      ghost var before := timers;
      var any := ServiceTimers();
      fired := Due(before, clock);
      TimersSplit(before, clock, s.excess.Keys);
      FireAllOk(s, fired);
      FiredNone(before, clock);
      FiredMore(before, before, [], clock, clock);
      assert [] + fired == fired;
      PreemptIfOutranked();
      StepCompletes(s, Op.Safepoint(fired), State());
    }

    /** Give way to a runnable process of higher priority. */
    method PreemptIfOutranked()
      requires Valid() && HasQueues(State()) && Ok(State())
      modifies this`next, this`myList, this`head, this`tail, this`lists, this`active
      ensures Valid() && State() == Preempt(old(State()))
    {
      hide LinksOk, QueuesOk, Free, TakeNext, Highest;
      ghost var s := State();
      FreeNow(s, Fields());
      var ceiling := RunnableCeiling();
      if ceiling.Some? && ceiling.value > priority[active] {
        MakeRunnable(active);
        RunnableSwitches(s, active);
        FireNone(Scheduling.MakeRunnable(s, s.active));
        var r := TakeNextRunnable();
        active := r.value;
      }
    }

    /** The base frame of the running process has returned: the process ends and another runs. */
    method BaseFrameReturned() returns (ok: bool, ghost fired: seq<Sem>)
      requires Valid() && Ok(State()) && TimersOk()
      modifies this`next, this`myList, this`head, this`tail, this`lists, this`excess, this`timers, this`clock, this`active, this`alive
      ensures Valid() && TimersOk() && Completes(old(State()), Op.BaseReturn(fired), ok, State())
      ensures clock >= old(clock) && Fired(old(timers), timers, fired, clock)
    {
      hide LinksOk, QueuesOk, Free, Switch, Fired;
      ghost var s := State();
      Ready(Fields(), s);
      alive := alive - {active};
      ok, fired := PickAndTransfer();
      if ok {
        StepCompletes(s, Op.BaseReturn(fired), State());
      }
    }

    /** Switch to a process directly. */
    method TransferTo(p: Proc) returns (ok: bool)
      requires Valid() && Ok(State()) && TimersOk()
      requires p in priority && p in alive ==> Free(State(), p)
      modifies this`active
      ensures Valid() && TimersOk() && Completes(old(State()), Op.TransferTo(p), true, State())
      ensures ok <==> p in priority && p in alive
    {
      hide LinksOk, QueuesOk, Free;
      ghost var s := State();
      ok := p in priority && p in alive;
      if ok {
        active := p;
      }
      StepCompletes(s, Op.TransferTo(p), State());
    }

    /** Ask for a signal at a deadline; fails for what is no semaphore. */
    method SignalAt(sem: Sem, deadline: int) returns (ok: bool)
      requires Valid() && TimersOk()
      modifies this`timers
      ensures Valid() && TimersOk() && State() == old(State())
      ensures ok <==> sem in excess
      ensures timers == old(timers) + if ok then [Timer(deadline, sem)] else []
    {
      hide LinksOk;
      ok := sem in excess;
      if ok {
        timers := timers + [Timer(deadline, sem)];
      }
    }
  }

  function ListIds(sems: set<Sem>): set<ListId> {
    (set i: nat | i < NUM_PRIORITIES :: Run(i)) + (set sem | sem in sems :: Waiters(sem))
  }

  lemma IdleOk(s: Sched, main: Proc, level: int, sems: set<Sem>)
    requires 1 <= level <= NUM_PRIORITIES
    requires s == Sched(map l | l in ListIds(sems) :: [], map sem | sem in sems :: 0, map[main := level], {main}, main)
    ensures Ok(s) && PrioritiesOk(s) && TopPriority(s)
  {
    assert forall l :: l in s.lists ==> s.lists[l] == [];
    forall l | l in s.lists
      ensures QueueOk(s, l)
    {
    }
    hide QueueOk;
  }

  lemma IdleLinks(c: Links, lists: map<ListId, seq<Proc>>, main: Proc)
    requires c.next == map[main := Nil] && c.myList == map[main := Nowhere]
    requires c.head.Keys == c.tail.Keys == lists.Keys
    requires forall l :: l in lists ==> lists[l] == [] && c.head[l] == Nil && c.tail[l] == Nil
    ensures LinksOk(c, lists)
  {
    forall l | l in lists
      ensures Linked(c, l, lists[l])
    {
    }
    hide Linked;
  }

  lemma NewProcessOk(s: Sched, p: Proc, level: int)
    requires Ok(s) && p !in s.priority && 1 <= level <= NUM_PRIORITIES
    ensures var s' := s.(priority := s.priority[p := level], alive := s.alive + {p});
      Ok(s') && (PrioritiesOk(s) ==> PrioritiesOk(s')) && (TopPriority(s) ==> TopPriority(s'))
  {
    var s' := s.(priority := s.priority[p := level], alive := s.alive + {p});
    forall l | l in s.lists
      ensures p !in s.lists[l] && QueueOk(s', l)
    {
      assert QueueOk(s, l);
      assert forall q :: q in s.lists[l] ==> Level(s', q) == Level(s, q);
    }
    hide QueueOk;
  }

  lemma NewProcessLinks(c: Links, lists: map<ListId, seq<Proc>>, p: Proc)
    requires LinksOk(c, lists) && p !in c.myList
    ensures LinksOk(Links(c.next[p := Nil], c.myList[p := Nowhere], c.head, c.tail), lists)
  {
    var c' := Links(c.next[p := Nil], c.myList[p := Nowhere], c.head, c.tail);
    forall l | l in lists
      ensures Linked(c', l, lists[l])
    {
      assert Linked(c, l, lists[l]);
      forall i: nat | i < |lists[l]|
        ensures MemberOk(c', l, lists[l], i)
      {
        assert MemberOk(c, l, lists[l], i);
      }
      hide MemberOk;
    }
    hide Linked;
  }

  /** A step that completes arrives in the state the specification names, in order; one that does not is a deadlock. */
  ghost predicate Completes(s: Sched, op: Op, ok: bool, s': Sched) {
    if ok then Step(s, op).Done? && s' == Step(s, op).s && Ok(s') else Step(s, op).Deadlock?
  }

  lemma StepCompletes(s: Sched, op: Op, s': Sched)
    requires Ok(s) && CanStep(s, op) && Step(s, op).Done? && s' == Step(s, op).s
    ensures Completes(s, op, true, s')
  {
    hide Ok, Step, CanStep;
    StepOk(s, op);
  }

  /** What an orderly state and its links offer a step. */
  lemma Ready(c: Links, s: Sched)
    requires LinksOk(c, s.lists) && c.myList.Keys == s.priority.Keys && Ok(s)
    ensures HasQueues(s) && s.active in s.priority && s.active in s.alive && c.myList[s.active].Nowhere?
    ensures forall sem :: sem in s.excess ==> s.excess[sem] >= 0
  {
    FreeNow(s, c);
  }

  lemma FreeNow(s: Sched, c: Links)
    requires LinksOk(c, s.lists) && c.myList.Keys == s.priority.Keys && Free(s, s.active)
    ensures s.active in s.priority && c.myList[s.active].Nowhere?
  {
    assert PlaceOk(c, s.lists, s.active);
  }

  lemma NowhereIff(c: Links, lists: map<ListId, seq<Proc>>, p: Proc)
    requires LinksOk(c, lists)
    ensures p in c.myList ==> (c.myList[p].Nowhere? <==> forall l :: l in lists ==> p !in lists[l])
  {
    if p in c.myList {
      if c.myList[p].Nowhere? {
        NotMember(c, lists, p);
      } else {
        assert PlaceOk(c, lists, p);
      }
    }
  }

  /** Taking a waiter off does not put the running process on a list. */
  lemma StillNowhere(s: Sched, l: ListId, c: Links, lists: map<ListId, seq<Proc>>)
    requires Ok(s) && l in s.lists && s.lists[l] != [] && lists == s.lists[l := s.lists[l][1..]] && LinksOk(c, lists)
    requires c.myList.Keys == s.priority.Keys
    ensures s.active in c.myList && c.myList[s.active].Nowhere?
  {
    NowhereIff(c, lists, s.active);
    forall x | x in s.lists[l][1..]
      ensures x in s.lists[l]
    {
    }
  }

  lemma RemoveKeepsQueues(s: Sched, p: Proc)
    requires HasQueues(s)
    ensures HasQueues(Remove(s, p))
  {
  }

  lemma FireNone(s: Sched)
    ensures FireAll(s, []) == s
  {
  }
}
