/** Coherence over whole runs with saves and loads: what a loaded image's sites are worth. */
module CacheRuns {
  import opened Options
  import opened MethodLookup
  import opened CacheSteps

  /** The states a run goes through, one step after the other. */
  ghost predicate Trace(states: seq<Caches>, ops: seq<Op>) {
    && |states| == |ops| + 1
    && (forall i :: 0 <= i < |states| ==> Formed(states[i]))
    && (forall i :: 0 <= i < |ops| ==> CanDo(states[i], ops[i]) && states[i + 1] == Next(states[i], ops[i]))
  }

  lemma TraceAt(states: seq<Caches>, ops: seq<Op>, i: nat)
    requires Trace(states, ops) && i < |ops|
    ensures i + 1 < |states| && Formed(states[i]) && CanDo(states[i], ops[i]) && states[i + 1] == Next(states[i], ops[i])
    ensures Formed(states[i + 1])
  {
  }

  lemma TraceEnd(states: seq<Caches>, ops: seq<Op>)
    requires Trace(states, ops)
    ensures |states| == |ops| + 1 && Formed(states[0]) && Formed(states[|ops|])
  {
  }

  ghost predicate BrokenAt(states: seq<Caches>, ops: seq<Op>, i: nat, t: TableId, j: nat)
    requires Trace(states, ops) && i < |ops|
  {
    Breaks(states[i], ops[i], t, j)
  }

  ghost predicate MendedAt(states: seq<Caches>, ops: seq<Op>, i: nat, t: TableId, j: nat)
    requires Trace(states, ops) && i < |ops|
  {
    HasSite(states[i], t, j) && Mends(states[i], ops[i], t, j)
  }

  /** Every install among the first `n` steps that broke the site was followed by a step that mended it. */
  ghost predicate AllMended(states: seq<Caches>, ops: seq<Op>, n: nat, t: TableId, j: nat)
    requires Trace(states, ops) && n <= |ops|
  {
    forall i: nat :: i < n && BrokenAt(states, ops, i, t, j) ==> exists i': nat :: i < i' < n && MendedAt(states, ops, i', t, j)
  }

  /** Sites are never taken away. */
  lemma {:induction false} SiteStays(states: seq<Caches>, ops: seq<Op>, i: nat, n: nat, t: TableId, j: nat)
    requires Trace(states, ops) && i <= n <= |ops| && HasSite(states[i], t, j)
    ensures HasSite(states[n], t, j)
    decreases n
  {
    hide Trace, Formed, CanDo, Next, HasSite;
    if i < n {
      SiteStays(states, ops, i, n - 1, t, j);
      TraceAt(states, ops, n - 1);
      StepFormed(states[n - 1], ops[n - 1]);
    }
  }

  /** Over any run, loads included, a site that was fresh at the start, or was added since, is fresh exactly when every
      install that broke it was followed by a step that mended it. */
  lemma {:induction false} FreshIff(states: seq<Caches>, ops: seq<Op>, n: nat, t: TableId, j: nat)
    requires Trace(states, ops) && n <= |ops| && HasSite(states[n], t, j)
    requires HasSite(states[0], t, j) ==> Fresh(states[0], t, j)
    ensures Formed(states[n]) && (Fresh(states[n], t, j) <==> AllMended(states, ops, n, t, j))
    decreases n
  {
    hide Formed, CanDo, Next, HasSite, Fresh, Breaks, Mends, AllMended;
    if n == 0 {
      NoneBroken(states, ops, t, j);
    } else {
      TraceAt(states, ops, n - 1);
      hide Trace;
      var s, op := states[n - 1], ops[n - 1];
      if HasSite(s, t, j) {
        FreshIff(states, ops, n - 1, t, j);
        StepFresh(s, op, t, j);
        MendedSnoc(states, ops, n, t, j);
      } else {
        AddedFresh(s, op, t, j);
        NotThere(states, ops, n, t, j);
      }
    }
  }

  lemma StepFresh(s: Caches, op: Op, t: TableId, j: nat)
    requires Formed(s) && CanDo(s, op) && HasSite(s, t, j) && Formed(Next(s, op)) && HasSite(Next(s, op), t, j)
    ensures Fresh(Next(s, op), t, j) <==> Mends(s, op, t, j) || (Fresh(s, t, j) && !Breaks(s, op, t, j))
    ensures !(Mends(s, op, t, j) && Breaks(s, op, t, j))
  {
    hide Formed, CanDo, Next;
    StepSite(s, op, t, j);
    hide SiteOk;
  }

  /** A site that was not there before is empty. */
  lemma AddedFresh(s: Caches, op: Op, t: TableId, j: nat)
    requires Formed(s) && CanDo(s, op) && !HasSite(s, t, j) && Formed(Next(s, op)) && HasSite(Next(s, op), t, j)
    ensures Fresh(Next(s, op), t, j)
  {
    hide ClassesOk, SiteKnown, SiteLookup;
    var s' := Next(s, op);
    assert op.AddTable? && s'.tables[t][j] == op.sites[j];
    assert SiteFormed(s'.k, s'.tables[t][j]);
  }

  lemma NoneBroken(states: seq<Caches>, ops: seq<Op>, t: TableId, j: nat)
    requires Trace(states, ops)
    ensures AllMended(states, ops, 0, t, j)
  {
  }

  lemma MendedSnoc(states: seq<Caches>, ops: seq<Op>, n: nat, t: TableId, j: nat)
    requires Trace(states, ops) && 0 < n <= |ops| && HasSite(states[n - 1], t, j)
    requires !(MendedAt(states, ops, n - 1, t, j) && BrokenAt(states, ops, n - 1, t, j))
    ensures AllMended(states, ops, n, t, j) <==>
      MendedAt(states, ops, n - 1, t, j) || (AllMended(states, ops, n - 1, t, j) && !BrokenAt(states, ops, n - 1, t, j))
  {
    hide Trace, BrokenAt, MendedAt;
    if AllMended(states, ops, n, t, j) && !MendedAt(states, ops, n - 1, t, j) {
      forall i: nat | i < n - 1 && BrokenAt(states, ops, i, t, j)
        ensures exists i': nat :: i < i' < n - 1 && MendedAt(states, ops, i', t, j)
      {
        var i': nat :| i < i' < n && MendedAt(states, ops, i', t, j);
      }
    }
  }

  lemma NotThere(states: seq<Caches>, ops: seq<Op>, n: nat, t: TableId, j: nat)
    requires Trace(states, ops) && 0 < n <= |ops| && !HasSite(states[n - 1], t, j)
    ensures AllMended(states, ops, n, t, j)
  {
    forall i: nat | i < n
      ensures !BrokenAt(states, ops, i, t, j)
    {
      if HasSite(states[i], t, j) {
        SiteStays(states, ops, i, n - 1, t, j);
      }
    }
  }

  // ---------- a loaded image ----------

  predicate NothingCached(cache: seq<Entry>) {
    forall i :: 0 <= i < |cache| ==> cache[i] == EMPTY
  }

  /** With an empty global cache, the caches are coherent exactly when every site of a registered table is fresh. */
  lemma LoadedCoherentIff(s: Caches, cache: seq<Entry>)
    requires Formed(s) && NothingCached(cache)
    ensures Coherent(s.k, cache, s.tables, s.registry) <==>
      forall t, j :: t in s.registry && HasSite(s, t, j) ==> Fresh(s, t, j)
  {
    hide ClassesOk, SiteLookup, SiteKnown;
    if Coherent(s.k, cache, s.tables, s.registry) {
      forall t, j: nat | t in s.registry && HasSite(s, t, j)
        ensures Fresh(s, t, j)
      {
        assert SiteOk(s.k, s.tables[t][j]);
      }
    } else if forall t, j :: t in s.registry && HasSite(s, t, j) ==> Fresh(s, t, j) {
      forall t, j: nat | t in s.registry && t in s.tables && j < |s.tables[t]|
        ensures SiteOk(s.k, s.tables[t][j])
      {
        assert HasSite(s, t, j);
      }
    }
  }

  /** A machine that starts from a loaded image, whatever runs, saves and loads went before, is coherent exactly when, for each
      site the load registers, every install that made it stale was followed by a step that mended it. */
  lemma LoadCoherentOverRuns(states: seq<Caches>, ops: seq<Op>, found: seq<TableId>, cache: seq<Entry>)
    requires Trace(states, ops) && CanDo(states[|ops|], Load(found)) && NothingCached(cache)
    requires forall t, j :: HasSite(states[0], t, j) ==> Fresh(states[0], t, j)
    ensures var s := Next(states[|ops|], Load(found));
      Coherent(s.k, cache, s.tables, s.registry) <==>
        forall t, j :: t in found && HasSite(states[|ops|], t, j) ==> AllMended(states, ops, |ops|, t, j)
  {
    TraceEnd(states, ops);
    hide Trace, Formed, Coherent, AllMended, SiteOk, CanDo, Next, Fresh, HasSite;
    var last := states[|ops|];
    LoadKeepsSites(last, found);
    var s := Next(last, Load(found));
    LoadedCoherentIff(s, cache);
    forall t, j: nat | t in found && HasSite(last, t, j)
      ensures Fresh(s, t, j) <==> AllMended(states, ops, |ops|, t, j)
    {
      FreshIff(states, ops, |ops|, t, j);
    }
  }

  lemma LoadKeepsSites(s: Caches, found: seq<TableId>)
    requires Formed(s) && CanDo(s, Load(found))
    ensures var s' := Next(s, Load(found));
      && Formed(s') && s'.registry == found
      && (forall t, j :: HasSite(s', t, j) <==> HasSite(s, t, j))
      && forall t, j :: HasSite(s, t, j) ==> (Fresh(s', t, j) <==> Fresh(s, t, j))
  {
    StepFormed(s, Load(found));
    hide SiteOk, Formed;
  }

  // ---------- an input on which it is not ----------

  /** A site of a block, in a table that is not registered, holds method 10 for selector 7. */
  function BlockExample(): Caches {
    Caches(StaleExample(), map[0 := [Site(7, 0, 1, 10, None)]], [], map[])
  }

  /** Method 11 is installed for selector 7. */
  function SavedExample(): Caches {
    BlockExample().(k := StaleExample().(dict := map[5 := Some(Dict([7], [11]))]))
  }

  /** The image is saved and loaded. */
  function LoadedExample(): Caches {
    SavedExample().(registry := [0])
  }

  lemma BlockFormed()
    ensures Formed(BlockExample()) && CanDo(BlockExample(), Install(5, 7, 11))
    ensures HasSite(BlockExample(), 0, 0) && Fresh(BlockExample(), 0, 0)
    ensures WithMethod(StaleExample(), 5, 7, 11) == SavedExample().k
  {
    StaleSite();
    Overwritten();
  }

  lemma Overwritten()
    ensures Installed(Dict([7], [10]), 7, 11) == Dict([7], [11])
  {
    assert IndexOf([7], 7) == 0 && [10][0 := 11] == [11];
  }

  lemma BlockSteps()
    ensures Formed(BlockExample()) && CanDo(BlockExample(), Install(5, 7, 11))
    ensures Next(BlockExample(), Install(5, 7, 11)) == SavedExample()
    ensures Formed(SavedExample()) && CanDo(SavedExample(), Load([0])) && Next(SavedExample(), Load([0])) == LoadedExample()
    ensures Formed(LoadedExample())
  {
    hide Formed;
    BlockFormed();
    StepFormed(BlockExample(), Install(5, 7, 11));
    var tables := BlockExample().tables;
    assert Flush(tables, []) == tables;
    StepFormed(SavedExample(), Load([0]));
  }

  /** The block's site is fresh, another method is installed, the image is saved and loaded: before the load all is coherent,
      after it a registered site answers the old method. */
  lemma StaleAfterLoad(cache: seq<Entry>)
    requires NothingCached(cache)
    ensures Formed(BlockExample()) && CanDo(BlockExample(), Install(5, 7, 11)) && Fresh(BlockExample(), 0, 0)
    ensures Next(BlockExample(), Install(5, 7, 11)) == SavedExample() && Formed(SavedExample())
    ensures Next(SavedExample(), Load([0])) == LoadedExample()
    ensures Coherent(SavedExample().k, cache, SavedExample().tables, SavedExample().registry)
    ensures !Coherent(LoadedExample().k, cache, LoadedExample().tables, LoadedExample().registry)
  {
    hide Formed, Coherent, Fresh, Next, CanDo;
    BlockFormed();
    BlockSteps();
    LoadedCoherentIff(SavedExample(), cache);
    LoadedCoherentIff(LoadedExample(), cache);
    LoadedStale();
  }

  lemma LoadedStale()
    requires Formed(LoadedExample())
    ensures HasSite(LoadedExample(), 0, 0) && !Fresh(LoadedExample(), 0, 0)
  {
    hide Formed;
    StaleSite();
    Overwritten();
    assert WithMethod(StaleExample(), 5, 7, 11) == LoadedExample().k;
  }
}
