/** Run queues, semaphores and process switches, with queues as sequences. */
module Scheduling {
  import opened Options

  type Proc = nat
  type Sem = nat

  const NUM_PRIORITIES: nat := 8

  /** A run queue, by priority less one, or the queue of a semaphore. */
  datatype ListId = Run(level: nat) | Waiters(sem: Sem)

  /** `alive` holds the processes that have a stack. */
  datatype Sched = Sched(
    lists: map<ListId, seq<Proc>>,
    excess: map<Sem, int>,
    priority: map<Proc, int>,
    alive: set<Proc>,
    active: Proc)
  {
    function Queue(l: ListId): seq<Proc> {
      if l in lists then lists[l] else []
    }

    function Prio(p: Proc): int {
      if p in priority then priority[p] else 0
    }

    function Excess(sem: Sem): int {
      if sem in excess then excess[sem] else 0
    }

    function With(l: ListId, q: seq<Proc>): Sched {
      this.(lists := lists[l := q])
    }
  }

  function Clamp(prio: int): nat {
    if prio < 1 then 1 else if prio > NUM_PRIORITIES then NUM_PRIORITIES else prio
  }

  function Level(s: Sched, p: Proc): nat {
    Clamp(s.Prio(p)) - 1
  }

  // ---------- queue operations ----------

  function Enqueue(s: Sched, l: ListId, p: Proc): Sched {
    s.With(l, s.Queue(l) + [p])
  }

  function Without(q: seq<Proc>, p: Proc): seq<Proc> {
    if q == [] then [] else if q[0] == p then q[1..] else [q[0]] + Without(q[1..], p)
  }

  /** Unlink a process from the queue that holds it, if any. */
  function Remove(s: Sched, p: Proc): Sched {
    s.(lists := map l | l in s.lists :: Without(s.lists[l], p))
  }

  function MakeRunnable(s: Sched, p: Proc): Sched {
    Enqueue(s, Run(Level(s, p)), p)
  }

  /** The highest non-empty run queue below `n`. */
  function Highest(s: Sched, n: nat): Option<nat> {
    if n == 0 then None
    else if s.Queue(Run(n - 1)) != [] then Some(n - 1)
    else Highest(s, n - 1)
  }

  /** Take the first process of the highest non-empty run queue. */
  function TakeNext(s: Sched): Option<(Sched, Proc)> {
    match Highest(s, NUM_PRIORITIES)
    case None => None
    case Some(i) => HighestFull(s, NUM_PRIORITIES); Some((s.With(Run(i), s.Queue(Run(i))[1..]), s.Queue(Run(i))[0]))
  }

  lemma {:induction false} HighestFull(s: Sched, n: nat)
    ensures Highest(s, n).Some? ==>
      Highest(s, n).value < n && s.Queue(Run(Highest(s, n).value)) != []
    ensures Highest(s, n).Some? ==> forall j :: Highest(s, n).value < j < n ==> s.Queue(Run(j)) == []
    ensures Highest(s, n).None? ==> forall j :: 0 <= j < n ==> s.Queue(Run(j)) == []
  {
    if n > 0 && s.Queue(Run(n - 1)) == [] {
      HighestFull(s, n - 1);
    }
  }

  /** A signal without preemption: wake the first waiter, or count an excess signal. */
  function SignalInternal(s: Sched, sem: Sem): Sched {
    var q := s.Queue(Waiters(sem));
    if q != [] then MakeRunnable(s.With(Waiters(sem), q[1..]), q[0])
    else s.(excess := s.excess[sem := s.Excess(sem) + 1])
  }

  function FireAll(s: Sched, fired: seq<Sem>): Sched
    decreases |fired|
  {
    if fired == [] then s else FireAll(SignalInternal(s, fired[0]), fired[1..])
  }

  // ---------- the steps ----------

  datatype Event = Signalled(sem: Sem) | Immediate(sem: Sem) | Woken(sem: Sem)

  function SignalEvents(s: Sched, sem: Sem): seq<Event> {
    if s.Queue(Waiters(sem)) != [] then [Signalled(sem), Woken(sem)] else [Signalled(sem)]
  }

  function FireEvents(s: Sched, fired: seq<Sem>): seq<Event>
    decreases |fired|
  {
    if fired == [] then [] else SignalEvents(s, fired[0]) + FireEvents(SignalInternal(s, fired[0]), fired[1..])
  }

  /** `fired` are the semaphores of the timers that come due during the step. */
  datatype Op =
    | Wait(sem: Sem, fired: seq<Sem>)
    | Signal(sem: Sem)
    | Yield(fired: seq<Sem>)
    | Resume(p: Proc)
    | Suspend(p: Proc, fired: seq<Sem>)
    | TerminateOther(p: Proc)
    | TransferTo(p: Proc)
    | Safepoint(fired: seq<Sem>)
    | BaseReturn(fired: seq<Sem>)

  datatype Effect = Deadlock | Done(s: Sched, events: seq<Event>)

  /** Pick the next process, after the timers that come due while none is runnable, and switch to it. */
  function Switch(s: Sched, fired: seq<Sem>): Effect {
    match TakeNext(FireAll(s, fired))
    case None => Deadlock
    case Some(next) => Done(next.0.(active := next.1), FireEvents(s, fired))
  }

  /** Give way to a runnable process of higher priority. */
  function Preempt(s: Sched): Sched {
    if Highest(s, NUM_PRIORITIES).Some? && Highest(s, NUM_PRIORITIES).value + 1 > s.Prio(s.active)
    then
      match Switch(MakeRunnable(s, s.active), [])
      case Deadlock => s
      case Done(s', _) => s'
    else s
  }

  function Step(s: Sched, op: Op): Effect {
    match op
    case Wait(sem, fired) =>
      if sem !in s.excess then Done(s, [])
      else if s.Excess(sem) > 0 then Done(s.(excess := s.excess[sem := s.Excess(sem) - 1]), [Immediate(sem)])
      else Switch(Enqueue(s, Waiters(sem), s.active), fired)
    case Signal(sem) =>
      if sem !in s.excess then Done(s, [])
      else
        var q := s.Queue(Waiters(sem));
        if q != [] && s.Prio(q[0]) > s.Prio(s.active)
        then Done(MakeRunnable(s.With(Waiters(sem), q[1..]), s.active).(active := q[0]), SignalEvents(s, sem))
        else Done(SignalInternal(s, sem), SignalEvents(s, sem))
    case Yield(fired) => Switch(MakeRunnable(s, s.active), fired)
    case Resume(p) =>
      if !CanResume(s, p) then Done(s, [])
      else if s.Prio(p) > s.Prio(s.active) then Done(MakeRunnable(s, s.active).(active := p), [])
      else Done(MakeRunnable(s, p), [])
    case Suspend(p, fired) =>
      if p !in s.priority then Done(s, [])
      else if p == s.active then Switch(s, fired)
      else Done(Remove(s, p), [])
    case TerminateOther(p) =>
      if p !in s.priority || p == s.active || p !in s.alive then Done(s, [])
      else Done(MakeRunnable(Remove(s, p), p), [])
    case TransferTo(p) =>
      if p !in s.priority || p !in s.alive then Done(s, []) else Done(s.(active := p), [])
    case Safepoint(fired) => Done(Preempt(FireAll(s, fired)), FireEvents(s, fired))
    case BaseReturn(fired) => Switch(s.(alive := s.alive - {s.active}), fired)
  }

  /** Not running, not terminated and on no queue. */
  predicate CanResume(s: Sched, p: Proc) {
    && p in s.priority && p != s.active && p in s.alive
    && forall l :: l in s.lists ==> p !in s.lists[l]
  }

  // ---------- what every step keeps ----------

  predicate Distinct(q: seq<Proc>) {
    forall i, j :: 0 <= i < j < |q| ==> q[i] != q[j]
  }

  ghost predicate QueueOk(s: Sched, l: ListId)
    requires l in s.lists
  {
    && Distinct(s.lists[l])
    && (forall p :: p in s.lists[l] ==> p in s.priority && p in s.alive)
    && (l.Run? ==> l.level < NUM_PRIORITIES && forall p :: p in s.lists[l] ==> Level(s, p) == l.level)
    && (l.Waiters? ==> l.sem in s.excess && (s.lists[l] != [] ==> s.excess[l.sem] == 0))
  }

  /** Queues hold live processes, each on at most one, run queues by priority; no count is negative, and a semaphore with
      excess signals has no waiter. */
  ghost predicate QueuesOk(s: Sched) {
    && (forall i :: 0 <= i < NUM_PRIORITIES ==> Run(i) in s.lists)
    && (forall sem :: sem in s.excess ==> Waiters(sem) in s.lists && s.excess[sem] >= 0)
    && (forall l :: l in s.lists ==> QueueOk(s, l))
    && (forall l, k, p :: l in s.lists && k in s.lists && p in s.lists[l] && p in s.lists[k] ==> l == k)
  }

  /** There is a run queue for each priority and a queue for each semaphore. */
  ghost predicate HasQueues(s: Sched) {
    (forall i :: 0 <= i < NUM_PRIORITIES ==> Run(i) in s.lists) && (forall sem :: sem in s.excess ==> Waiters(sem) in s.lists)
  }

  /** A live process that is on no queue. */
  ghost predicate Free(s: Sched, p: Proc) {
    p in s.priority && p in s.alive && forall l :: l in s.lists ==> p !in s.lists[l]
  }

  ghost predicate Ok(s: Sched) {
    QueuesOk(s) && Free(s, s.active)
  }

  /** From `s` to `s'` only queues and counts changed, and free processes other than `p` stayed free. */
  ghost predicate Moves(s: Sched, s': Sched, p: Proc) {
    && s' == s.(lists := s'.lists, excess := s'.excess) && s'.excess.Keys == s.excess.Keys
    && forall q :: q != p && Free(s, q) ==> Free(s', q)
  }

  lemma EnqueueOk(s: Sched, l: ListId, p: Proc)
    requires QueuesOk(s) && Free(s, p) && l in s.lists
    requires l.Run? ==> Level(s, p) == l.level
    requires l.Waiters? ==> s.excess[l.sem] == 0
    ensures QueuesOk(Enqueue(s, l, p)) && Moves(s, Enqueue(s, l, p), p)
  {
    var s' := Enqueue(s, l, p);
    assert QueueOk(s, l);
    forall k | k in s'.lists
      ensures QueueOk(s', k)
    {
      assert QueueOk(s, k);
    }
  }

  lemma PopOk(s: Sched, l: ListId)
    requires QueuesOk(s) && l in s.lists && s.lists[l] != []
    ensures var s' := s.With(l, s.lists[l][1..]);
      QueuesOk(s') && Free(s', s.lists[l][0]) && Moves(s, s', s.lists[l][0])
  {
    var q, s' := s.lists[l], s.With(l, s.lists[l][1..]);
    assert QueueOk(s, l);
    assert q == [q[0]] + q[1..];
    forall k | k in s'.lists
      ensures QueueOk(s', k)
    {
      assert QueueOk(s, k);
    }
    forall k | k in s'.lists
      ensures q[0] !in s'.lists[k]
    {
      assert q[0] in s.lists[l];
    }
  }

  lemma MakeRunnableOk(s: Sched, p: Proc)
    requires QueuesOk(s) && Free(s, p)
    ensures QueuesOk(MakeRunnable(s, p)) && Moves(s, MakeRunnable(s, p), p)
  {
    hide QueuesOk, Free, Moves, Enqueue;
    assert Run(Level(s, p)) in s.lists by {
      RunQueues(s);
    }
    EnqueueOk(s, Run(Level(s, p)), p);
  }

  lemma RunQueues(s: Sched)
    requires QueuesOk(s)
    ensures forall i :: 0 <= i < NUM_PRIORITIES ==> Run(i) in s.lists
    ensures forall sem :: sem in s.excess ==> Waiters(sem) in s.lists && s.excess[sem] >= 0
  {
  }

  lemma MovesTrans(s: Sched, s1: Sched, s2: Sched, p: Proc)
    requires Moves(s, s1, p) && Moves(s1, s2, p)
    ensures Moves(s, s2, p)
  {
    hide Free;
  }

  lemma SignalInternalOk(s: Sched, sem: Sem)
    requires QueuesOk(s) && sem in s.excess
    ensures QueuesOk(SignalInternal(s, sem))
    ensures s.Queue(Waiters(sem)) != [] ==> Moves(s, SignalInternal(s, sem), s.Queue(Waiters(sem))[0])
    ensures forall q :: Free(s, q) ==> Free(SignalInternal(s, sem), q)
    ensures SignalInternal(s, sem).priority == s.priority && SignalInternal(s, sem).active == s.active
    ensures SignalInternal(s, sem).excess.Keys == s.excess.Keys
  {
    var l := Waiters(sem);
    RunQueues(s);
    if s.Queue(l) != [] {
      hide QueuesOk, Free;
      var p, s1 := s.lists[l][0], s.With(l, s.lists[l][1..]);
      PopOk(s, l);
      MakeRunnableOk(s1, p);
      WaiterNotFree(s, l, p);
      MovesTrans(s, s1, MakeRunnable(s1, p), p);
    } else {
      var s' := SignalInternal(s, sem);
      forall k | k in s'.lists
        ensures QueueOk(s', k)
      {
        assert QueueOk(s, k);
      }
    }
  }

  lemma WaiterNotFree(s: Sched, l: ListId, p: Proc)
    requires l in s.lists && p in s.lists[l]
    ensures !Free(s, p)
  {
  }

  lemma {:induction false} FireAllOk(s: Sched, fired: seq<Sem>)
    requires QueuesOk(s) && forall sem :: sem in fired ==> sem in s.excess
    ensures QueuesOk(FireAll(s, fired))
    ensures forall q :: Free(s, q) ==> Free(FireAll(s, fired), q)
    ensures FireAll(s, fired).priority == s.priority && FireAll(s, fired).active == s.active
    ensures FireAll(s, fired).excess.Keys == s.excess.Keys
    decreases |fired|
  {
    hide QueuesOk, Free, SignalInternal;
    if fired != [] {
      SignalInternalOk(s, fired[0]);
      FireAllOk(SignalInternal(s, fired[0]), fired[1..]);
    }
  }

  lemma {:induction false} WithoutIs(q: seq<Proc>, p: Proc)
    requires Distinct(q)
    ensures Distinct(Without(q, p))
    ensures forall x :: x in Without(q, p) <==> x in q && x != p
  {
    if q != [] {
      assert q == [q[0]] + q[1..];
      assert q[0] !in q[1..];
      WithoutIs(q[1..], p);
    }
  }

  lemma RemoveOk(s: Sched, p: Proc)
    requires QueuesOk(s)
    ensures QueuesOk(Remove(s, p)) && Moves(s, Remove(s, p), p)
    ensures p in s.priority && p in s.alive ==> Free(Remove(s, p), p)
    ensures forall l :: l in s.lists ==> (Remove(s, p).lists[l] != [] ==> s.lists[l] != [])
  {
    var s' := Remove(s, p);
    forall l | l in s.lists
      ensures Distinct(s'.lists[l]) && forall x :: x in s'.lists[l] <==> x in s.lists[l] && x != p
      ensures s.lists[l] == [] ==> s'.lists[l] == []
    {
      assert QueueOk(s, l);
      WithoutIs(s.lists[l], p);
    }
    forall l | l in s'.lists
      ensures QueueOk(s', l)
    {
      assert QueueOk(s, l);
    }
  }

  /** The process taken next is the head of the highest non-empty run queue. */
  lemma TakeNextIs(s: Sched)
    requires QueuesOk(s)
    ensures TakeNext(s).None? <==> forall i :: 0 <= i < NUM_PRIORITIES ==> s.lists[Run(i)] == []
    ensures TakeNext(s).Some? ==>
      var s', p := TakeNext(s).value.0, TakeNext(s).value.1;
      var i := Level(s, p);
      && s.lists[Run(i)] != [] && p == s.lists[Run(i)][0] && (forall j :: i < j < NUM_PRIORITIES ==> s.lists[Run(j)] == [])
      && s' == s.With(Run(i), s.lists[Run(i)][1..])
      && QueuesOk(s') && Free(s', p) && Moves(s, s', p)
  {
    HighestFull(s, NUM_PRIORITIES);
    RunQueues(s);
    assert forall i :: 0 <= i < NUM_PRIORITIES ==> s.Queue(Run(i)) == s.lists[Run(i)];
    if Highest(s, NUM_PRIORITIES).Some? {
      var i := Highest(s, NUM_PRIORITIES).value;
      assert QueueOk(s, Run(i));
      PopOk(s, Run(i));
    }
  }

  lemma SwitchOk(s: Sched, fired: seq<Sem>)
    requires QueuesOk(s) && forall sem :: sem in fired ==> sem in s.excess
    ensures Switch(s, fired).Done? ==> Ok(Switch(s, fired).s)
  {
    hide QueuesOk, Free, Moves, TakeNext;
    FireAllOk(s, fired);
    var s1 := FireAll(s, fired);
    TakeNextIs(s1);
    if TakeNext(s1).Some? {
      Activates(TakeNext(s1).value.0, TakeNext(s1).value.1);
    }
  }

  lemma Activates(s: Sched, p: Proc)
    requires QueuesOk(s) && Free(s, p)
    ensures Ok(s.(active := p))
  {
    var s' := s.(active := p);
    forall l | l in s'.lists
      ensures QueueOk(s', l)
    {
      assert QueueOk(s, l);
    }
  }

  /** Timers belong to semaphores; a direct transfer goes to a process on no queue. */
  ghost predicate CanStep(s: Sched, op: Op) {
    && (op.Wait? || op.Yield? || op.Suspend? || op.Safepoint? || op.BaseReturn? ==> forall sem :: sem in op.fired ==> sem in s.excess)
    && (op.TransferTo? && op.p in s.priority && op.p in s.alive ==> Free(s, op.p))
  }

  lemma WaitOk(s: Sched, sem: Sem, fired: seq<Sem>)
    requires Ok(s) && CanStep(s, Wait(sem, fired)) && Step(s, Wait(sem, fired)).Done?
    ensures Ok(Step(s, Wait(sem, fired)).s)
  {
    RunQueues(s);
    if sem in s.excess && s.Excess(sem) > 0 {
      var s' := s.(excess := s.excess[sem := s.Excess(sem) - 1]);
      forall l | l in s'.lists
        ensures QueueOk(s', l)
      {
        assert QueueOk(s, l);
      }
    } else if sem in s.excess {
      hide QueuesOk, Free, Enqueue, Switch;
      EnqueueOk(s, Waiters(sem), s.active);
      SwitchOk(Enqueue(s, Waiters(sem), s.active), fired);
    }
  }

  lemma SignalOk(s: Sched, sem: Sem)
    requires Ok(s)
    ensures Step(s, Signal(sem)).Done? && Ok(Step(s, Signal(sem)).s)
  {
    hide QueuesOk, Free, Moves, MakeRunnable;
    if sem in s.excess {
      RunQueues(s);
      SignalInternalOk(s, sem);
      var q := s.Queue(Waiters(sem));
      if q != [] && s.Prio(q[0]) > s.Prio(s.active) {
        PreemptOk(s, Waiters(sem));
      } else {
        Activates(SignalInternal(s, sem), s.active);
      }
    }
  }

  lemma PreemptOk(s: Sched, l: ListId)
    requires Ok(s) && l in s.lists && s.lists[l] != []
    ensures var s1 := s.With(l, s.lists[l][1..]); Ok(MakeRunnable(s1, s.active).(active := s.lists[l][0]))
  {
    var p, s1 := s.lists[l][0], s.With(l, s.lists[l][1..]);
    WaiterNotFree(s, l, p);
    hide QueuesOk, Free, MakeRunnable;
    PopOk(s, l);
    MakeRunnableOk(s1, s.active);
    Activates(MakeRunnable(s1, s.active), p);
  }

  lemma ResumeOk(s: Sched, p: Proc)
    requires Ok(s)
    ensures Step(s, Resume(p)).Done? && Ok(Step(s, Resume(p)).s)
  {
    if CanResume(s, p) {
      assert Free(s, p);
      hide QueuesOk, Free, MakeRunnable, CanResume;
      MakeRunnableOk(s, s.active);
      MakeRunnableOk(s, p);
      if s.Prio(p) > s.Prio(s.active) {
        Activates(MakeRunnable(s, s.active), p);
      } else {
        Activates(MakeRunnable(s, p), s.active);
      }
    }
  }

  lemma RemoveStepsOk(s: Sched, op: Op)
    requires Ok(s) && CanStep(s, op) && (op.Suspend? || op.TerminateOther?) && Step(s, op).Done?
    ensures Ok(Step(s, op).s)
  {
    hide QueuesOk, Free, MakeRunnable, Remove, Switch;
    if op.p in s.priority {
      RemoveOk(s, op.p);
      if op.Suspend? {
        if op.p == s.active {
          SwitchOk(s, op.fired);
        } else {
          Activates(Remove(s, op.p), s.active);
        }
      } else if op.p != s.active && op.p in s.alive {
        MakeRunnableOk(Remove(s, op.p), op.p);
        Activates(MakeRunnable(Remove(s, op.p), op.p), s.active);
      }
    }
  }

  lemma SwitchStepsOk(s: Sched, op: Op)
    requires Ok(s) && CanStep(s, op) && (op.Yield? || op.Safepoint? || op.BaseReturn?) && Step(s, op).Done?
    ensures Ok(Step(s, op).s)
  {
    if op.BaseReturn? {
      var s1 := s.(alive := s.alive - {s.active});
      forall l | l in s1.lists
        ensures QueueOk(s1, l)
      {
        assert QueueOk(s, l);
      }
      hide QueuesOk, Free, Switch;
      SwitchOk(s1, op.fired);
    } else {
      hide QueuesOk, Free, MakeRunnable, Switch, FireAll;
      if op.Yield? {
        MakeRunnableOk(s, s.active);
        SwitchOk(MakeRunnable(s, s.active), op.fired);
      } else {
        FireAllOk(s, op.fired);
        var s1 := FireAll(s, op.fired);
        MakeRunnableOk(s1, s1.active);
        SwitchOk(MakeRunnable(s1, s1.active), []);
      }
    }
  }

  /** A direct transfer keeps the queues in order exactly when its target is on none: it does not unlink it. */
  lemma TransferOkIff(s: Sched, p: Proc)
    requires Ok(s) && p in s.priority && p in s.alive
    ensures Step(s, TransferTo(p)).Done?
    ensures Ok(Step(s, TransferTo(p)).s) <==> forall l :: l in s.lists ==> p !in s.lists[l]
  {
    if forall l :: l in s.lists ==> p !in s.lists[l] {
      assert Free(s, p);
      Activates(s, p);
    }
  }

  /** Processes 1 and 2 of priority 1; 1 runs and 2 is runnable. */
  function TransferExample(): Sched {
    Sched(map l | l in RunIds() :: if l == Run(0) then [2] else [], map[], map[1 := 1, 2 := 1], {1, 2}, 1)
  }

  function RunIds(): set<ListId> {
    set i: nat | i < NUM_PRIORITIES :: Run(i)
  }

  lemma TransferQueues()
    ensures var s := TransferExample(); forall l :: l in s.lists ==> QueueOk(s, l)
  {
    var s := TransferExample();
    forall l | l in s.lists
      ensures QueueOk(s, l)
    {
      assert l in RunIds() && l.Run?;
      assert |s.lists[l]| <= 1;
    }
  }

  /** An input on which a transfer does not: the target runs and is still on the run queue. */
  lemma TransferQueued()
    ensures Ok(TransferExample()) && Step(TransferExample(), TransferTo(2)).Done?
    ensures !Ok(Step(TransferExample(), TransferTo(2)).s)
  {
    var s := TransferExample();
    TransferQueues();
    assert Ok(s) by {
      hide QueueOk;
    }
    hide Ok, Step;
    TransferOkIff(s, 2);
    assert Run(0) in s.lists && 2 in s.lists[Run(0)];
  }

  /** Every completed step keeps the queues and counts in order. */
  lemma StepOk(s: Sched, op: Op)
    requires Ok(s) && CanStep(s, op) && Step(s, op).Done?
    ensures Ok(Step(s, op).s)
  {
    hide QueuesOk, Free, Switch;
    match op {
      case Wait(sem, fired) => WaitOk(s, sem, fired);
      case Signal(sem) => SignalOk(s, sem);
      case Resume(p) => ResumeOk(s, p);
      case Suspend(_, _) => RemoveStepsOk(s, op);
      case TerminateOther(_) => RemoveStepsOk(s, op);
      case TransferTo(p) =>
        if p in s.priority && p in s.alive {
          Activates(s, p);
        }
      case Yield(_) => SwitchStepsOk(s, op);
      case Safepoint(_) => SwitchStepsOk(s, op);
      case BaseReturn(_) => SwitchStepsOk(s, op);
    }
  }

  // ---------- the running process has the highest priority ----------

  ghost predicate PrioritiesOk(s: Sched) {
    forall p :: p in s.priority ==> 1 <= s.priority[p] <= NUM_PRIORITIES
  }

  /** No runnable process has a higher priority than the running one. */
  ghost predicate TopPriority(s: Sched) {
    forall l, p :: l in s.lists && l.Run? && p in s.lists[l] ==> s.Prio(p) <= s.Prio(s.active)
  }

  /** A process picked as the next has the highest priority, wherever the others were. */
  lemma SwitchTop(s: Sched, fired: seq<Sem>)
    requires QueuesOk(s) && PrioritiesOk(s) && forall sem :: sem in fired ==> sem in s.excess
    ensures Switch(s, fired).Done? ==> TopPriority(Switch(s, fired).s)
  {
    FireAllOk(s, fired);
    var s1 := FireAll(s, fired);
    TakeNextIs(s1);
    hide FireAll, TakeNext, FireEvents;
    if TakeNext(s1).Some? {
      var s2, p := TakeNext(s1).value.0, TakeNext(s1).value.1;
      assert QueueOk(s1, Run(Level(s1, p))) && Free(s2, p);
      forall l, q | l in s2.lists && l.Run? && q in s2.lists[l]
        ensures s2.Prio(q) <= s2.Prio(p)
      {
        assert QueueOk(s2, l) && QueueOk(s1, l);
      }
    }
  }

  /** Whatever becomes runnable without preemption has at most the running priority. */
  lemma MakeRunnableTop(s: Sched, p: Proc)
    requires TopPriority(s) && s.Prio(p) <= s.Prio(s.active)
    ensures TopPriority(MakeRunnable(s, p))
  {
    var s' := MakeRunnable(s, p);
    forall l, q | l in s'.lists && l.Run? && q in s'.lists[l]
      ensures s'.Prio(q) <= s'.Prio(s'.active)
    {
      if q in s.Queue(l) {
        assert l in s.lists && q in s.lists[l] && s.Prio(q) <= s.Prio(s.active);
      }
    }
  }

  lemma ShorterTop(s: Sched, s': Sched, p: Proc)
    requires TopPriority(s) && s'.priority == s.priority && s'.active == p && s.Prio(s.active) <= s.Prio(p)
    requires forall l, q :: l in s'.lists && l.Run? && q in s'.lists[l] ==> q in s.Queue(l) || q == s.active
    ensures TopPriority(s')
  {
    forall l, q | l in s'.lists && l.Run? && q in s'.lists[l]
      ensures s'.Prio(q) <= s'.Prio(s'.active)
    {
      if q in s.Queue(l) {
        assert l in s.lists && q in s.lists[l] && s.Prio(q) <= s.Prio(s.active);
      }
    }
  }

  lemma SignalTop(s: Sched, sem: Sem)
    requires Ok(s) && TopPriority(s)
    ensures TopPriority(Step(s, Signal(sem)).s)
  {
    if sem in s.excess && s.Queue(Waiters(sem)) != [] {
      var l := Waiters(sem);
      var p, s1 := s.lists[l][0], s.With(l, s.lists[l][1..]);
      assert TopPriority(s1);
      if s.Prio(p) > s.Prio(s.active) {
        ShorterTop(s, MakeRunnable(s1, s.active).(active := p), p);
      } else {
        MakeRunnableTop(s1, p);
      }
    }
  }

  lemma RemoveTop(s: Sched, p: Proc)
    requires QueuesOk(s) && TopPriority(s)
    ensures TopPriority(Remove(s, p))
  {
    forall l, q | l in s.lists && q in Remove(s, p).lists[l]
      ensures q in s.lists[l]
    {
      assert QueueOk(s, l);
      WithoutIs(s.lists[l], p);
    }
  }

  lemma SafepointTop(s: Sched, fired: seq<Sem>)
    requires Ok(s) && PrioritiesOk(s) && CanStep(s, Safepoint(fired))
    ensures TopPriority(Step(s, Safepoint(fired)).s)
  {
    hide QueuesOk, Free, FireAll, FireEvents, Preempt, TopPriority;
    FireAllOk(s, fired);
    PreemptTop(FireAll(s, fired));
  }

  lemma PreemptTop(s: Sched)
    requires QueuesOk(s) && Free(s, s.active) && PrioritiesOk(s)
    ensures TopPriority(Preempt(s))
  {
    hide Highest, TakeNext, FireEvents, Free, QueuesOk, MakeRunnable, PrioritiesOk;
    HighestFull(s, NUM_PRIORITIES);
    if Highest(s, NUM_PRIORITIES).Some? && Highest(s, NUM_PRIORITIES).value + 1 > s.Prio(s.active) {
      hide TopPriority, Switch;
      MakeRunnableOk(s, s.active);
      MakeRunnableSame(s, s.active);
      SamePriorities(s, MakeRunnable(s, s.active));
      SwitchTop(MakeRunnable(s, s.active), []);
      RunnableSwitches(s, s.active);
    } else {
      CeilingTop(s);
    }
  }

  lemma SamePriorities(s: Sched, s': Sched)
    requires PrioritiesOk(s) && s'.priority == s.priority
    ensures PrioritiesOk(s')
  {
  }

  /** No run queue above the running priority holds a process. */
  lemma CeilingTop(s: Sched)
    requires QueuesOk(s) && PrioritiesOk(s)
    requires Highest(s, NUM_PRIORITIES).Some? ==> Highest(s, NUM_PRIORITIES).value + 1 <= s.Prio(s.active)
    ensures TopPriority(s)
  {
    HighestFull(s, NUM_PRIORITIES);
    hide Highest;
    forall l, p | l in s.lists && l.Run? && p in s.lists[l]
      ensures s.Prio(p) <= s.Prio(s.active)
    {
      assert QueueOk(s, l) && s.Queue(Run(l.level)) != [];
    }
  }

  /** With a runnable process a switch succeeds. */
  lemma RunnableSwitches(s: Sched, p: Proc)
    requires QueuesOk(s) && Free(s, p)
    ensures Switch(MakeRunnable(s, p), []).Done?
  {
    MakeRunnableOk(s, p);
    var s' := MakeRunnable(s, p);
    assert s'.lists[Run(Level(s, p))] != [];
    TakeNextIs(s');
    hide TakeNext;
  }

  /** Steps that pick the next process make the running priority the highest, whatever it was before. */
  lemma PickingTop(s: Sched, op: Op)
    requires Ok(s) && PrioritiesOk(s) && CanStep(s, op) && Step(s, op).Done?
    requires op.Yield? || op.Safepoint? || op.BaseReturn? || (op.Suspend? && op.p == s.active)
      || (op.Wait? && op.sem in s.excess && s.excess[op.sem] <= 0)
    ensures TopPriority(Step(s, op).s)
  {
    hide QueuesOk, Free, TopPriority, Switch, MakeRunnable, Enqueue;
    ActiveKnown(s);
    match op {
      case Yield(fired) =>
        MakeRunnableOk(s, s.active);
        MakeRunnableSame(s, s.active);
        SwitchTop(MakeRunnable(s, s.active), fired);
      case Safepoint(fired) => SafepointTop(s, fired);
      case BaseReturn(fired) =>
        BaseOk(s);
        SwitchTop(s.(alive := s.alive - {s.active}), fired);
      case Suspend(_, fired) => SwitchTop(s, fired);
      case Wait(sem, fired) =>
        RunQueues(s);
        EnqueueOk(s, Waiters(sem), s.active);
        EnqueueSame(s, Waiters(sem), s.active);
        SwitchTop(Enqueue(s, Waiters(sem), s.active), fired);
    }
  }

  lemma ActiveKnown(s: Sched)
    requires Ok(s)
    ensures s.active in s.priority && s.active in s.alive
  {
  }

  lemma EnqueueSame(s: Sched, l: ListId, p: Proc)
    ensures Enqueue(s, l, p).priority == s.priority && Enqueue(s, l, p).excess == s.excess
  {
  }

  lemma MakeRunnableSame(s: Sched, p: Proc)
    ensures MakeRunnable(s, p).priority == s.priority && MakeRunnable(s, p).excess == s.excess
  {
  }

  lemma BaseOk(s: Sched)
    requires Ok(s)
    ensures QueuesOk(s.(alive := s.alive - {s.active}))
  {
    var s1 := s.(alive := s.alive - {s.active});
    forall l | l in s1.lists
      ensures QueueOk(s1, l)
    {
      assert QueueOk(s, l);
    }
  }

  /** Apart from a direct transfer and from terminating another process, every completed step leaves the running priority
      the highest if it was before. */
  lemma StepTop(s: Sched, op: Op)
    requires Ok(s) && PrioritiesOk(s) && TopPriority(s) && CanStep(s, op) && Step(s, op).Done?
    requires !op.TransferTo? && !op.TerminateOther?
    ensures TopPriority(Step(s, op).s)
  {
    match op {
      case Wait(sem, _) =>
        if sem in s.excess && s.excess[sem] <= 0 {
          PickingTop(s, op);
        }
      case Signal(sem) => SignalTop(s, sem);
      case Resume(p) =>
        if CanResume(s, p) {
          if s.Prio(p) > s.Prio(s.active) {
            ShorterTop(s, MakeRunnable(s, s.active).(active := p), p) by {
              RunQueues(s);
            }
          } else {
            MakeRunnableTop(s, p);
          }
        }
      case Suspend(p, _) =>
        if p == s.active {
          PickingTop(s, op);
        } else {
          RemoveTop(s, p);
        }
      case Yield(_) => PickingTop(s, op);
      case Safepoint(_) => PickingTop(s, op);
      case BaseReturn(_) => PickingTop(s, op);
    }
  }

  // ---------- semaphore conservation ----------

  function Count(events: seq<Event>, e: Event): nat {
    if events == [] then 0 else (if events[0] == e then 1 else 0) + Count(events[1..], e)
  }

  lemma {:induction false} CountAppend(a: seq<Event>, b: seq<Event>, e: Event)
    ensures Count(a + b, e) == Count(a, e) + Count(b, e)
  {
    if a == [] {
      assert a + b == b;
    } else {
      assert (a + b)[1..] == a[1..] + b;
      CountAppend(a[1..], b, e);
    }
  }

  /** What came in equals what is there and what went out. */
  ghost predicate Conserved(s: Sched, s': Sched, events: seq<Event>, sem: Sem) {
    s.Excess(sem) + Count(events, Signalled(sem)) ==
      s'.Excess(sem) + Count(events, Immediate(sem)) + Count(events, Woken(sem))
  }

  lemma ConservedTrans(s: Sched, s1: Sched, s2: Sched, a: seq<Event>, b: seq<Event>, sem: Sem)
    requires Conserved(s, s1, a, sem) && Conserved(s1, s2, b, sem)
    ensures Conserved(s, s2, a + b, sem)
  {
    CountAppend(a, b, Signalled(sem));
    CountAppend(a, b, Immediate(sem));
    CountAppend(a, b, Woken(sem));
  }

  lemma SignalConserves(s: Sched, k: Sem, sem: Sem)
    ensures Conserved(s, SignalInternal(s, k), SignalEvents(s, k), sem)
  {
    forall e
      ensures Count(SignalEvents(s, k), e) == Count([Signalled(k)], e) + if s.Queue(Waiters(k)) != [] then Count([Woken(k)], e) else 0
    {
      CountAppend([Signalled(k)], [Woken(k)], e);
    }
    CountOne(Signalled(k));
    CountOne(Woken(k));
  }

  lemma CountOne(x: Event)
    ensures forall e :: Count([x], e) == if x == e then 1 else 0
  {
    assert [x][1..] == [];
  }

  lemma {:induction false} FireConserves(s: Sched, fired: seq<Sem>, sem: Sem)
    ensures Conserved(s, FireAll(s, fired), FireEvents(s, fired), sem)
    decreases |fired|
  {
    hide Conserved, SignalEvents, SignalInternal;
    if fired == [] {
      NoEvents(s, s, sem);
    } else {
      var s1 := SignalInternal(s, fired[0]);
      SignalConserves(s, fired[0], sem);
      FireConserves(s1, fired[1..], sem);
      ConservedTrans(s, s1, FireAll(s1, fired[1..]), SignalEvents(s, fired[0]), FireEvents(s1, fired[1..]), sem);
    }
  }

  lemma NoEvents(s: Sched, s': Sched, sem: Sem)
    requires s'.excess == s.excess
    ensures Conserved(s, s', [], sem)
  {
  }

  lemma SwitchConserves(s: Sched, fired: seq<Sem>, sem: Sem)
    ensures var e := Switch(s, fired); e.Done? ==> Conserved(s, e.s, e.events, sem)
  {
    FireConserves(s, fired, sem);
    hide FireAll, FireEvents, Highest;
  }

  lemma StepConserves(s: Sched, op: Op, sem: Sem)
    ensures var e := Step(s, op); e.Done? ==> Conserved(s, e.s, e.events, sem)
  {
    NoEvents(s, s, sem);
    match op {
      case Wait(k, fired) =>
        CountOne(Immediate(k));
        SwitchConserves(Enqueue(s, Waiters(k), s.active), fired, sem);
        hide Switch;
      case Signal(k) => SignalConserves(s, k, sem);
      case Yield(fired) => SwitchConserves(MakeRunnable(s, s.active), fired, sem);
      case Suspend(_, fired) => SwitchConserves(s, fired, sem);
      case Safepoint(fired) =>
        hide FireAll, FireEvents, TakeNext, Highest;
        FireConserves(s, fired, sem);
      case BaseReturn(fired) => SwitchConserves(s.(alive := s.alive - {s.active}), fired, sem);
      case _ =>
    }
  }

  // ---------- waiters ----------

  /** The processes that a step blocks on a semaphore. */
  function Joins(s: Sched, op: Op, sem: Sem): nat {
    if op.Wait? && op.sem == sem && sem in s.excess && s.Excess(sem) <= 0 then 1 else 0
  }

  /** The waiters of a semaphore that a step takes off its queue without a signal: one that is suspended or terminated. */
  function Leaves(s: Sched, op: Op, sem: Sem): nat {
    if (op.Suspend? || op.TerminateOther?) && op.p in s.priority && op.p != s.active && (op.TerminateOther? ==> op.p in s.alive)
       && op.p in s.Queue(Waiters(sem)) then 1 else 0
  }

  /** With `joined` more waiters, of which `left` were taken off, the rest still wait or were woken. */
  ghost predicate Balanced(s: Sched, s': Sched, events: seq<Event>, sem: Sem, joined: nat, left: nat) {
    |s.Queue(Waiters(sem))| + joined == |s'.Queue(Waiters(sem))| + Count(events, Woken(sem)) + left
  }

  lemma BalancedTrans(s: Sched, s1: Sched, s2: Sched, a: seq<Event>, b: seq<Event>, sem: Sem, j: nat, l: nat, j': nat, l': nat)
    requires Balanced(s, s1, a, sem, j, l) && Balanced(s1, s2, b, sem, j', l')
    ensures Balanced(s, s2, a + b, sem, j + j', l + l')
  {
    CountAppend(a, b, Woken(sem));
  }

  lemma {:induction false} WithoutShorter(q: seq<Proc>, p: Proc)
    ensures |Without(q, p)| == |q| - if p in q then 1 else 0
  {
    if q != [] && q[0] != p {
      WithoutShorter(q[1..], p);
      assert q == [q[0]] + q[1..];
    }
  }

  lemma SignalWakes(s: Sched, k: Sem, sem: Sem)
    ensures Balanced(s, SignalInternal(s, k), SignalEvents(s, k), sem, 0, 0)
  {
    CountAppend([Signalled(k)], [Woken(k)], Woken(sem));
    CountOne(Signalled(k));
    CountOne(Woken(k));
    assert [Signalled(k), Woken(k)] == [Signalled(k)] + [Woken(k)];
  }

  lemma {:induction false} FireWakes(s: Sched, fired: seq<Sem>, sem: Sem)
    ensures Balanced(s, FireAll(s, fired), FireEvents(s, fired), sem, 0, 0)
    decreases |fired|
  {
    hide Balanced, SignalEvents, SignalInternal;
    if fired == [] {
      SameQueue(s, s, sem);
    } else {
      var s1 := SignalInternal(s, fired[0]);
      SignalWakes(s, fired[0], sem);
      FireWakes(s1, fired[1..], sem);
      BalancedTrans(s, s1, FireAll(s1, fired[1..]), SignalEvents(s, fired[0]), FireEvents(s1, fired[1..]), sem, 0, 0, 0, 0);
    }
  }

  lemma SameQueue(s: Sched, s': Sched, sem: Sem)
    requires s'.Queue(Waiters(sem)) == s.Queue(Waiters(sem))
    ensures Balanced(s, s', [], sem, 0, 0)
  {
  }

  /** Picking the next process touches run queues only. */
  lemma SwitchWakes(s: Sched, fired: seq<Sem>, sem: Sem)
    ensures var e := Switch(s, fired); e.Done? ==> Balanced(s, e.s, e.events, sem, 0, 0)
  {
    FireWakes(s, fired, sem);
    hide FireAll, FireEvents, Highest;
  }

  lemma PreemptWakes(s: Sched, sem: Sem)
    ensures Preempt(s).Queue(Waiters(sem)) == s.Queue(Waiters(sem))
  {
    hide Highest;
  }

  /** One step accounts for every waiter. */
  lemma StepWaiters(s: Sched, op: Op, sem: Sem)
    ensures var e := Step(s, op); e.Done? ==> Balanced(s, e.s, e.events, sem, Joins(s, op, sem), Leaves(s, op, sem))
  {
    match op {
      case Wait(k, fired) =>
        CountOne(Immediate(k));
        SwitchWakes(Enqueue(s, Waiters(k), s.active), fired, sem);
        hide Switch;
      case Signal(k) => SignalWakes(s, k, sem);
      case Yield(fired) => SwitchWakes(MakeRunnable(s, s.active), fired, sem);
      case Suspend(p, fired) =>
        SwitchWakes(s, fired, sem);
        WithoutShorter(s.Queue(Waiters(sem)), p);
        hide Switch;
      case TerminateOther(p) => WithoutShorter(s.Queue(Waiters(sem)), p);
      case Safepoint(fired) =>
        FireWakes(s, fired, sem);
        PreemptWakes(FireAll(s, fired), sem);
        hide FireAll, FireEvents, Preempt;
      case BaseReturn(fired) => SwitchWakes(s.(alive := s.alive - {s.active}), fired, sem);
      case _ =>
    }
  }

  // ---------- runs ----------

  /** A run of completed steps and the events of all of them. */
  ghost predicate Runs(s: Sched, ops: seq<Op>, s': Sched, events: seq<Event>)
    decreases |ops|
  {
    if ops == [] then s' == s && events == []
    else
      && CanStep(s, ops[0]) && Step(s, ops[0]).Done?
      && var e := Step(s, ops[0]);
         e.events <= events && Runs(e.s, ops[1..], s', events[|e.events|..])
  }

  /** Over any run the queues stay in order, and for every semaphore the initial count and the signals equal the final
      count, the waits that went through and the waiters woken. */
  lemma {:induction false} RunConserves(s: Sched, ops: seq<Op>, s': Sched, events: seq<Event>, sem: Sem)
    requires Ok(s) && Runs(s, ops, s', events)
    ensures Ok(s') && Conserved(s, s', events, sem)
    ensures s'.Excess(sem) >= 0 && (s'.Excess(sem) > 0 ==> s'.Queue(Waiters(sem)) == [])
    decreases |ops|
  {
    hide Conserved, Ok, CanStep, Step;
    if ops == [] {
      NoEvents(s, s, sem);
      OkCounts(s, sem);
    } else {
      var e := Step(s, ops[0]);
      StepOk(s, ops[0]);
      StepConserves(s, ops[0], sem);
      RunConserves(e.s, ops[1..], s', events[|e.events|..], sem);
      ConservedTrans(s, e.s, s', e.events, events[|e.events|..], sem);
      assert e.events + events[|e.events|..] == events;
    }
  }

  /** The waits of a run that blocked on a semaphore. */
  function Joined(s: Sched, ops: seq<Op>, sem: Sem): nat
    decreases |ops|
  {
    if ops == [] then 0
    else Joins(s, ops[0], sem) + if Step(s, ops[0]).Done? then Joined(Step(s, ops[0]).s, ops[1..], sem) else 0
  }

  /** The waiters of a semaphore that were suspended or terminated during a run. */
  function Left(s: Sched, ops: seq<Op>, sem: Sem): nat
    decreases |ops|
  {
    if ops == [] then 0
    else Leaves(s, ops[0], sem) + if Step(s, ops[0]).Done? then Left(Step(s, ops[0]).s, ops[1..], sem) else 0
  }

  /** Over any run, for every semaphore, the first waiters and the waits that blocked equal the waiters woken, those
      suspended or terminated, and those still on the queue: no wait is lost and none is woken twice. */
  lemma {:induction false} RunWaiters(s: Sched, ops: seq<Op>, s': Sched, events: seq<Event>, sem: Sem)
    requires Runs(s, ops, s', events)
    ensures Balanced(s, s', events, sem, Joined(s, ops, sem), Left(s, ops, sem))
    decreases |ops|
  {
    hide Balanced, CanStep, Step, Joins, Leaves;
    if ops == [] {
      SameQueue(s, s, sem);
    } else {
      var e, o := Step(s, ops[0]), ops[1..];
      StepWaiters(s, ops[0], sem);
      RunWaiters(e.s, o, s', events[|e.events|..], sem);
      BalancedTrans(s, e.s, s', e.events, events[|e.events|..], sem, Joins(s, ops[0], sem), Leaves(s, ops[0], sem),
                    Joined(e.s, o, sem), Left(e.s, o, sem));
      assert e.events + events[|e.events|..] == events;
    }
  }

  lemma OkCounts(s: Sched, sem: Sem)
    requires Ok(s)
    ensures s.Excess(sem) >= 0 && (s.Excess(sem) > 0 ==> s.Queue(Waiters(sem)) == [])
  {
    if sem in s.excess {
      assert QueueOk(s, Waiters(sem));
    }
  }

  /** Over any run without direct transfers and terminations of others, the running priority stays the highest. */
  lemma {:induction false} RunTop(s: Sched, ops: seq<Op>, s': Sched, events: seq<Event>)
    requires Ok(s) && PrioritiesOk(s) && TopPriority(s) && Runs(s, ops, s', events)
    requires forall i :: 0 <= i < |ops| ==> !ops[i].TransferTo? && !ops[i].TerminateOther?
    ensures TopPriority(s')
    decreases |ops|
  {
    hide Ok, CanStep, Step, TopPriority, PrioritiesOk;
    if ops != [] {
      var e := Step(s, ops[0]);
      StepOk(s, ops[0]);
      StepTop(s, ops[0]);
      StepPriorities(s, ops[0]);
      RunTop(e.s, ops[1..], s', events[|e.events|..]);
    }
  }

  lemma StepPriorities(s: Sched, op: Op)
    requires Ok(s) && CanStep(s, op) && Step(s, op).Done? && PrioritiesOk(s)
    ensures PrioritiesOk(Step(s, op).s)
  {
    StepFixes(s, op);
    hide Step;
  }

  lemma {:induction false} FireFixes(s: Sched, fired: seq<Sem>)
    ensures FireAll(s, fired).priority == s.priority
    decreases |fired|
  {
    if fired != [] {
      FireFixes(SignalInternal(s, fired[0]), fired[1..]);
    }
  }

  /** No step changes a priority. */
  lemma StepFixes(s: Sched, op: Op)
    ensures Step(s, op).Done? ==> Step(s, op).s.priority == s.priority
  {
    hide FireEvents, Highest;
    match op {
      case Wait(sem, fired) => FireFixes(Enqueue(s, Waiters(sem), s.active), fired);
      case Yield(fired) => FireFixes(MakeRunnable(s, s.active), fired);
      case Suspend(_, fired) => FireFixes(s, fired);
      case Safepoint(fired) => FireFixes(s, fired);
      case BaseReturn(fired) => FireFixes(s.(alive := s.alive - {s.active}), fired);
      case _ =>
    }
  }
}
