/** The global lookup cache and the inline caches of send sites, filled by sends and flushed by installs. */
module LookupCaches {
  import opened Options
  import opened MethodLookup
  import opened CacheSteps
  import opened CacheRuns

  class LookupCaches {
    var superclass: map<Class, Option<Class>>
    var dict: map<Class, Option<Dict>>
    var index: map<Class, nat>
    var table: seq<Option<Class>>
    var rank: map<Class, nat>
    const cache: array<Entry>
    var tables: map<TableId, seq<Site>>
    var registry: seq<TableId>
    var ownTable: map<Method, TableId>

    function World(): Classes
      reads this
    {
      Classes(superclass, dict, index, table, rank)
    }

    function Sites(): Caches
      reads this
    {
      Caches(World(), tables, registry, ownTable)
    }

    ghost predicate Shaped()
      reads this
    {
      cache.Length == LOOKUP_CACHE_SIZE && Formed(Sites())
    }

    /** What the global cache holds is what the walk finds. */
    ghost predicate CacheOk()
      reads this, cache
    {
      Shaped() && Coherent(World(), cache[..], tables, [])
    }

    /** And so is what the sites of registered tables hold. */
    ghost predicate Valid()
      reads this, cache
    {
      Shaped() && Coherent(World(), cache[..], tables, registry)
    }

    /** A machine loaded from an image: the global cache is empty, the sites are those saved, and the tables of the methods
        and blocks found in the image are registered. */
    constructor (k: Classes, saved: map<TableId, seq<Site>>, found: seq<TableId>, own: map<Method, TableId>)
      requires Formed(Caches(k, saved, found, own))
      ensures fresh(cache) && Sites() == Caches(k, saved, found, own) && NothingCached(cache[..]) && CacheOk()
      ensures Valid() <==> forall t, j :: t in found && HasSite(Sites(), t, j) ==> Fresh(Sites(), t, j)
    {
      superclass, dict, index, table, rank := k.superclass, k.dict, k.index, k.table, k.rank;
      cache := new Entry[LOOKUP_CACHE_SIZE](i => EMPTY);
      tables, registry, ownTable := saved, found, own;
      new;
      hide Formed, Coherent, Fresh;
      assert World() == k;
      LoadedCoherentIff(Sites(), cache[..]);
      NothingRegistered(Sites(), cache[..]);
    }

    /** Look a selector up in a dictionary. */
    static method MDictLookup(d: Dict, sel: Selector) returns (r: Option<Method>)
      requires DictOk(d)
      ensures r == Find(d, sel) && (r.None? <==> sel !in d.keys)
      ensures r.Some? ==> exists j :: 0 <= j < |d.keys| && d.keys[j] == sel && sel !in d.keys[..j] && r.value == d.vals[j]
    {
      FindIs(d, sel, 0);
      assert d.keys[0..] == d.keys && forall j :: 0 <= j <= |d.keys| ==> d.keys[0..j] == d.keys[..j];
      for i := 0 to |d.keys|
        invariant Find(d, sel) == FindFrom(d, sel, i)
      {
        if d.keys[i] == sel {
          return Some(d.vals[i]);
        }
      }
      r := None;
    }

    /** Walk the method dictionaries up the superclass chain. */
    method LookupMethod(ci: nat, sel: Selector) returns (r: Option<Method>)
      requires ClassesOk(World()) && ci < |table|
      ensures r == Lookup(World(), ci, sel)
    {
      var cls := table[ci];
      while cls.Some?
        invariant cls.Some? ==> cls.value in superclass
        invariant Lookup(World(), ci, sel) == Walk(World(), cls, sel)
        decreases if cls.Some? then rank[cls.value] + 1 else 0
      {
        SuperKnown(World(), cls.value);
        if dict[cls.value].Some? {
          r := MDictLookup(dict[cls.value].value, sel);
          if r.Some? {
            return;
          }
        }
        cls := superclass[cls.value];
      }
      r := None;
    }

    /** Look up from above a class. */
    method LookupMethodAbove(static_: Class, sel: Selector) returns (r: Option<Method>)
      requires ClassesOk(World()) && static_ in superclass
      ensures r == LookupAbove(World(), static_, sel)
    {
      var sup := superclass[static_];
      if sup.None? {
        return None;
      }
      r := LookupMethod(index[sup.value], sel);
    }

    /** Look up through the global cache; what the walk finds replaces the entry. */
    method LookupCached(ci: nat, sel: Selector) returns (r: Option<Method>)
      requires CacheOk() && 0 < ci < |table|
      modifies cache
      ensures CacheOk() && (old(Valid()) ==> Valid()) && r == Lookup(World(), ci, sel)
      ensures cache[..] == if r.Some? then old(cache[..])[Slot(ci, sel) := Entry(ci, sel, r.value)] else old(cache[..])
    {
      var h := Slot(ci, sel);
      var e := cache[h];
      assert EntryOk(World(), cache[..][h]);
      if e.classIndex == ci && e.selector == sel {
        return Some(e.code);
      }
      r := LookupMethod(ci, sel);
      if r.None? {
        return;
      }
      cache[h] := Entry(ci, sel, r.value);
      hide ClassesOk, Lookup, SiteOk;
    }

    /** The lookup of a send through its site: a hit answers the cached method; a miss fills the site. For a fresh site the
        answer is the one the slow lookup gives, and those of registered tables are. */
    method LookupAtSite(t: TableId, j: nat, ci: nat) returns (r: Option<Method>)
      requires CacheOk() && CanDo(Sites(), Send(t, j, ci))
      modifies this`tables, cache
      ensures CacheOk() && (old(Valid()) ==> Valid()) && Sites() == Next(old(Sites()), Send(t, j, ci))
      ensures r == if old(tables)[t][j].cachedClass == ci then Some(old(tables)[t][j].cachedMethod)
                   else SiteLookup(World(), old(tables)[t][j], ci)
      ensures SiteOk(World(), old(tables)[t][j]) ==> r == SiteLookup(World(), old(tables)[t][j], ci)
      ensures old(Valid()) && t in registry ==> r == SiteLookup(World(), old(tables)[t][j], ci)
      ensures tables == if r.Some? then old(tables)[t := old(tables)[t][j := old(tables)[t][j].(cachedClass := ci, cachedMethod := r.value)]]
                        else old(tables)
      ensures old(tables)[t][j].cachedClass == ci || old(tables)[t][j].above.Some? ==> cache[..] == old(cache[..])
    {
      var site := tables[t][j];
      assert SiteFormed(World(), site);
      assert Valid() && t in registry ==> SiteOk(World(), tables[t][j]);
      if site.cachedClass == ci {
        assert tables[t][j := site] == tables[t];
        return Some(site.cachedMethod);
      }
      ghost var valid := Valid();
      if site.above.Some? {
        r := LookupMethodAbove(site.above.value, site.selector);
      } else {
        r := LookupCached(ci, site.selector);
      }
      if r.Some? {
        ghost var before := Sites();
        var filled := site.(cachedClass := ci, cachedMethod := r.value);
        FilledSite(World(), site, ci, r.value);
        StepFormed(before, Send(t, j, ci));
        tables := tables[t := tables[t][j := filled]];
        assert Sites() == Next(before, Send(t, j, ci));
        hide ClassesOk, SiteOk, EntryOk, SiteKnown, Formed, Next;
        FilledTables(World(), cache[..], before.tables, [], t, j, filled);
        if valid {
          FilledTables(World(), cache[..], before.tables, registry, t, j, filled);
        }
      }
    }

    /** Empty the global cache and every site of a registered table. */
    method FlushCaches()
      requires Shaped()
      modifies this`tables, cache
      ensures Valid() && tables == Flush(old(tables), registry) && NothingCached(cache[..])
    {
      hide ClassesOk, Formed;
      for i := 0 to cache.Length
        invariant tables == old(tables)
        invariant forall k :: 0 <= k < i ==> cache[k] == EMPTY
      {
        cache[i] := EMPTY;
      }
      assert Flush(tables, registry[..0]) == tables;
      for i := 0 to |registry|
        invariant Shaped()
        invariant NothingCached(cache[..])
        invariant tables == Flush(old(tables), registry[..i])
      {
        assert registry[i] in tables by {
          RegisteredThere(Sites(), i);
        }
        FlushTable(registry[i]);
        FlushSnoc(old(tables), registry, i);
      }
      assert registry[..|registry|] == registry;
      FlushedFresh(old(tables), Sites());
      LoadedCoherentIff(Sites(), cache[..]);
    }

    method FlushTable(t: TableId)
      requires Shaped() && t in tables
      modifies this`tables
      ensures Shaped() && tables == old(tables)[t := Emptied(old(tables)[t])]
    {
      var sites := tables[t];
      for s := 0 to |sites|
        invariant |sites| == |tables[t]|
        invariant forall j :: 0 <= j < s ==> sites[j] == tables[t][j].(cachedClass := 0, cachedMethod := 0)
        invariant forall j :: s <= j < |sites| ==> sites[j] == tables[t][j]
      {
        sites := sites[s := sites[s].(cachedClass := 0, cachedMethod := 0)];
      }
      hide ClassesOk;
      assert sites == Emptied(tables[t]);
      tables := tables[t := sites];
    }

    /** Install a method in a class that has a dictionary: overwrite or append, register its own send-site table, flush. */
    method InstallMethod(c: Class, sel: Selector, m: Method)
      requires Shaped() && CanDo(Sites(), Install(c, sel, m))
      modifies this`dict, this`tables, this`registry, cache
      ensures Valid() && World() == WithMethod(old(World()), c, sel, m) && Sites() == Next(old(Sites()), Install(c, sel, m))
      ensures registry == old(registry) + if m in ownTable && ownTable[m] !in old(registry) then [ownTable[m]] else []
      ensures tables == Flush(old(tables), registry)
    {
      hide ClassesOk, Installed, Formed;
      ghost var s := Sites();
      InstallFormed(s, c, sel, m);
      var d := dict[c].value;
      var d' := InstallIn(d, sel, m);
      dict := dict[c := Some(d')];
      if m in ownTable && ownTable[m] !in registry {
        registry := registry + [ownTable[m]];
      }
      assert Sites() == s.(k := WithMethod(s.k, c, sel, m), registry := Listing(s, m));
      FlushCaches();
    }

    static method InstallIn(d: Dict, sel: Selector, m: Method) returns (r: Dict)
      requires DictOk(d)
      ensures r == Installed(d, sel, m)
    {
      IndexOfIs(d.keys, sel);
      var n := |d.keys|;
      var i := 0;
      while i < n
        invariant i <= n && sel !in d.keys[..i]
      {
        if d.keys[i] == sel {
          FirstIndex(d.keys, sel, i);
          return Dict(d.keys, d.vals[i := m]);
        }
        assert d.keys[..i + 1] == d.keys[..i] + [d.keys[i]];
        i := i + 1;
      }
      assert d.keys[..n] == d.keys;
      r := Dict(d.keys + [sel], d.vals + [m]);
    }

    /** A new class object below a registered one. */
    method NewClass(c: Class, sup: Option<Class>, d: Option<Dict>)
      requires CacheOk() && CanDo(Sites(), AddClass(c, sup, d))
      modifies this`superclass, this`dict, this`rank
      ensures CacheOk() && (old(Valid()) ==> Valid()) && Sites() == Next(old(Sites()), AddClass(c, sup, d))
    {
      hide Coherent, Formed, ClassesOk;
      ClassAdded(Sites(), cache[..], c, sup, d);
      superclass, dict := superclass[c := sup], dict[c := d];
      rank := rank[c := if sup.Some? then rank[sup.value] + 1 else 0];
    }

    /** Give a class the next class index. */
    method RegisterClass(c: Class) returns (ci: nat)
      requires Shaped() && c in superclass
      modifies this`table, this`index, this`tables, cache
      ensures Valid() && Sites() == Next(old(Sites()), Register(c)) && ci == old(|table|) && table[ci] == Some(c)
      ensures tables == Flush(old(tables), registry)
    {
      RegisteredFormed(Sites(), c);
      hide ClassesOk, Formed;
      ci := |table|;
      table := table + [Some(c)];
      index := index[c := ci];
      assert Shaped();
      FlushCaches();
    }

    /** The send-site table of a new method or block, with nothing cached. */
    method NewTable(t: TableId, sites: seq<Site>, owner: Option<Method>)
      requires CacheOk() && CanDo(Sites(), AddTable(t, sites, owner))
      modifies this`tables, this`ownTable
      ensures CacheOk() && (old(Valid()) ==> Valid()) && Sites() == Next(old(Sites()), AddTable(t, sites, owner))
    {
      StepFormed(Sites(), AddTable(t, sites, owner));
      hide ClassesOk;
      tables := tables[t := sites];
      if owner.Some? {
        ownTable := ownTable[owner.value := t];
      }
    }

    /** What a collection does to the caches: the global one is emptied, the sites stay. */
    method Collected()
      requires CacheOk()
      modifies cache
      ensures CacheOk() && (old(Valid()) ==> Valid()) && NothingCached(cache[..])
    {
      hide ClassesOk, SiteOk;
      for i := 0 to cache.Length
        invariant forall k :: 0 <= k < i ==> cache[k] == EMPTY
      {
        cache[i] := EMPTY;
      }
    }
  }

  /** With no table registered only the global cache matters. */
  lemma NothingRegistered(s: Caches, cache: seq<Entry>)
    requires Formed(s) && NothingCached(cache)
    ensures Coherent(s.k, cache, s.tables, [])
  {
    hide ClassesOk;
  }

  lemma RegisteredThere(s: Caches, i: nat)
    requires Formed(s) && i < |s.registry|
    ensures s.registry[i] in s.tables
  {
  }

  lemma FlushSnoc(tables: map<TableId, seq<Site>>, registry: seq<TableId>, i: nat)
    requires i < |registry| && registry[i] in tables
    ensures var flushed := Flush(tables, registry[..i]);
      registry[i] in flushed && flushed[registry[i] := Emptied(flushed[registry[i]])] == Flush(tables, registry[..i + 1])
  {
    assert registry[..i + 1] == registry[..i] + [registry[i]];
    assert Emptied(Emptied(tables[registry[i]])) == Emptied(tables[registry[i]]);
  }

  /** After a flush every site of a registered table is fresh. */
  lemma FlushedFresh(before: map<TableId, seq<Site>>, s: Caches)
    requires Formed(s) && s.tables == Flush(before, s.registry)
    ensures forall t, j :: t in s.registry && HasSite(s, t, j) ==> Fresh(s, t, j)
  {
    hide ClassesOk;
    forall t, j: nat | t in s.registry && HasSite(s, t, j)
      ensures Fresh(s, t, j)
    {
      assert s.tables[t] == Emptied(before[t]);
    }
  }

  lemma RegisteredFormed(s: Caches, c: Class)
    requires Formed(s) && c in s.k.superclass
    ensures Formed(s.(k := Registered(s.k, c)))
  {
    RegisteredOk(s.k, c);
    hide ClassesOk;
  }

  lemma FilledSite(k: Classes, site: Site, ci: nat, m: Method)
    requires ClassesOk(k) && SiteKnown(k, site) && 0 < ci < |k.table| && SiteLookup(k, site, ci) == Some(m)
    ensures SiteKnown(k, site.(cachedClass := ci, cachedMethod := m)) && SiteOk(k, site.(cachedClass := ci, cachedMethod := m))
  {
  }

  lemma FilledTables(k: Classes, cache: seq<Entry>, tables: map<TableId, seq<Site>>, registry: seq<TableId>, t: TableId, j: nat, filled: Site)
    requires Coherent(k, cache, tables, registry) && t in tables && j < |tables[t]|
    requires SiteKnown(k, filled) && SiteOk(k, filled)
    ensures Coherent(k, cache, tables[t := tables[t][j := filled]], registry)
  {
    hide ClassesOk, SiteOk, SiteKnown, EntryOk;
  }

  lemma {:induction false} FirstIndex(keys: seq<Selector>, sel: Selector, i: nat)
    requires i < |keys| && keys[i] == sel && sel !in keys[..i]
    ensures IndexOf(keys, sel) == i
  {
    if i > 0 {
      assert keys[0] == keys[..i][0];
      assert keys[1..][..i - 1] == keys[..i][1..];
      FirstIndex(keys[1..], sel, i - 1);
    }
  }

  lemma InstallFormed(s: Caches, c: Class, sel: Selector, m: Method)
    requires Formed(s) && CanDo(s, Install(c, sel, m))
    ensures DictOk(s.k.dict[c].value) && Formed(s.(k := WithMethod(s.k, c, sel, m), registry := Listing(s, m)))
  {
    WithMethodOk(s.k, c, sel, m);
    hide Installed;
  }

  lemma ClassAdded(s: Caches, cache: seq<Entry>, c: Class, sup: Option<Class>, d: Option<Dict>)
    requires Formed(s) && CanDo(s, AddClass(c, sup, d)) && Coherent(s.k, cache, s.tables, [])
    ensures Formed(Next(s, AddClass(c, sup, d))) && (sup.Some? ==> sup.value in s.k.rank)
    ensures Coherent(WithClass(s.k, c, sup, d), cache, s.tables, [])
    ensures Coherent(s.k, cache, s.tables, s.registry) ==> Coherent(WithClass(s.k, c, sup, d), cache, s.tables, s.registry)
  {
    StepFormed(s, AddClass(c, sup, d));
    SupRanked(s.k, sup);
    hide Formed, Coherent, ClassesOk;
    NewClassCoherent(s.k, cache, s.tables, [], c, sup, d);
    if Coherent(s.k, cache, s.tables, s.registry) {
      NewClassCoherent(s.k, cache, s.tables, s.registry, c, sup, d);
    }
  }

  lemma SupRanked(k: Classes, sup: Option<Class>)
    requires ClassesOk(k) && (sup.Some? ==> sup.value in k.index)
    ensures sup.Some? ==> sup.value in k.rank
  {
  }
}
