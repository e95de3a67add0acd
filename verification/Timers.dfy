/** Requests for a signal at a deadline. */
module Timers {
  /** A semaphore is named by a number. */
  datatype Timer = Timer(deadline: int, sem: nat)

  /** The semaphores of the timers due at `now`, in order. */
  function Due(timers: seq<Timer>, now: int): seq<nat> {
    if timers == [] then []
    else (if timers[0].deadline <= now then [timers[0].sem] else []) + Due(timers[1..], now)
  }

  function Later(timers: seq<Timer>, now: int): seq<Timer> {
    if timers == [] then []
    else (if timers[0].deadline > now then [timers[0]] else []) + Later(timers[1..], now)
  }

  lemma {:induction false} DueSnoc(a: seq<Timer>, t: Timer, now: int)
    ensures Due(a + [t], now) == Due(a, now) + if t.deadline <= now then [t.sem] else []
    ensures Later(a + [t], now) == Later(a, now) + if t.deadline > now then [t] else []
  {
    if a == [] {
      assert a + [t] == [t] && [t][1..] == [];
    } else {
      assert (a + [t])[1..] == a[1..] + [t];
      DueSnoc(a[1..], t, now);
      assert (a + [t])[0] == a[0];
    }
  }

  lemma {:induction false} DueIn(timers: seq<Timer>, now: int)
    ensures forall sem :: sem in Due(timers, now) ==> exists i :: 0 <= i < |timers| && timers[i].sem == sem
    ensures forall t :: t in Later(timers, now) ==> t in timers
    ensures |Due(timers, now)| + |Later(timers, now)| == |timers|
    ensures (exists i :: 0 <= i < |timers| && timers[i].deadline <= now) ==> Due(timers, now) != []
  {
    if timers != [] {
      DueIn(timers[1..], now);
      forall sem | sem in Due(timers, now)
        ensures exists i :: 0 <= i < |timers| && timers[i].sem == sem
      {
        if timers[0].sem != sem {
          var i :| 0 <= i < |timers[1..]| && timers[1..][i].sem == sem;
          assert timers[i + 1].sem == sem;
        }
      }
      if i :| 0 <= i < |timers| && timers[i].deadline <= now {
        if i > 0 {
          assert timers[1..][i - 1].deadline <= now;
        }
      }
    }
  }

  /** From one list of timers to the next: exactly those due at some reading of the clock not after `now` were fired, once
      each, and the others are left; or none was. */
  ghost predicate Fired(before: seq<Timer>, after: seq<Timer>, fired: seq<nat>, now: int) {
    || (after == before && fired == [])
    || exists p: int :: p <= now && FiredAt(before, after, fired, p)
  }

  ghost predicate FiredAt(before: seq<Timer>, after: seq<Timer>, fired: seq<nat>, p: int) {
    after == Later(before, p) && multiset(fired) == multiset(Due(before, p))
  }

  lemma FiredNone(timers: seq<Timer>, now: int)
    ensures Fired(timers, timers, [], now)
  {
  }

  lemma FiredLater(before: seq<Timer>, after: seq<Timer>, fired: seq<nat>, now: int, later: int)
    requires Fired(before, after, fired, now) && now <= later
    ensures Fired(before, after, fired, later)
  {
    hide FiredAt;
  }

  lemma FiredMore(before: seq<Timer>, mid: seq<Timer>, fired: seq<nat>, from: int, now: int)
    requires Fired(before, mid, fired, from) && from <= now
    ensures Fired(before, Later(mid, now), fired + Due(mid, now), now)
  {
    if mid == before && fired == [] {
      assert fired + Due(mid, now) == Due(mid, now);
      assert FiredAt(before, Later(mid, now), fired + Due(mid, now), now);
    } else {
      var p :| p <= from && FiredAt(before, mid, fired, p);
      DueTwice(before, p, now);
      assert FiredAt(before, Later(mid, now), fired + Due(mid, now), now);
    }
  }

  lemma {:induction false} DueTwice(timers: seq<Timer>, p: int, now: int)
    requires p <= now
    ensures Later(Later(timers, p), now) == Later(timers, now)
    ensures multiset(Due(timers, p)) + multiset(Due(Later(timers, p), now)) == multiset(Due(timers, now))
  {
    hide Due, Later;
    DueNone(p);
    DueNone(now);
    if timers != [] {
      var t, rest := timers[0], timers[1..];
      assert timers == [t] + rest;
      DueTwice(rest, p, now);
      DueCons(t, rest, p);
      DueCons(t, rest, now);
      if t.deadline > p {
        DueCons(t, Later(rest, p), now);
      }
    }
  }

  lemma DueNone(now: int)
    ensures Due([], now) == [] && Later([], now) == []
  {
  }

  lemma DueCons(t: Timer, rest: seq<Timer>, now: int)
    ensures Due([t] + rest, now) == if t.deadline <= now then [t.sem] + Due(rest, now) else Due(rest, now)
    ensures Later([t] + rest, now) == if t.deadline > now then [t] + Later(rest, now) else Later(rest, now)
  {
    assert ([t] + rest)[1..] == rest;
  }

  /** Timers belong to semaphores. */
  ghost predicate KnownTimers(timers: seq<Timer>, sems: set<nat>) {
    forall i :: 0 <= i < |timers| ==> timers[i].sem in sems
  }

  lemma TimersSplit(timers: seq<Timer>, now: int, sems: set<nat>)
    requires KnownTimers(timers, sems)
    ensures KnownTimers(Later(timers, now), sems) && forall sem :: sem in Due(timers, now) ==> sem in sems
  {
    DueIn(timers, now);
    forall i | 0 <= i < |Later(timers, now)|
      ensures Later(timers, now)[i].sem in sems
    {
      assert Later(timers, now)[i] in timers;
    }
  }

  lemma {:induction false} NoneDue(timers: seq<Timer>, now: int)
    requires Due(timers, now) == []
    ensures Later(timers, now) == timers
  {
    if timers != [] {
      NoneDue(timers[1..], now);
    }
  }

  /** Split the timers into those due at `now` and the others. */
  method Partition(timers: seq<Timer>, now: int) returns (due: seq<nat>, keep: seq<Timer>)
    ensures due == Due(timers, now) && keep == Later(timers, now)
  {
    due, keep := [], [];
    for i := 0 to |timers|
      invariant due == Due(timers[..i], now) && keep == Later(timers[..i], now)
    {
      assert timers[..i + 1] == timers[..i] + [timers[i]];
      DueSnoc(timers[..i], timers[i], now);
      if timers[i].deadline <= now {
        due := due + [timers[i].sem];
      } else {
        keep := keep + [timers[i]];
      }
    }
    assert timers[..|timers|] == timers;
  }
}
