/** Method lookup through the superclass chain, and what the caches in front of it must hold. */
module MethodLookup {
  import opened Options

  type Class = nat
  type Selector = nat
  type Method = nat
  type TableId = nat

  const LOOKUP_CACHE_SIZE: nat := 4096

  /** A method dictionary: two parallel arrays. */
  datatype Dict = Dict(keys: seq<Selector>, vals: seq<Method>)

  /** Classes with their superclass links, dictionaries and indices; `rank` falls along superclass links. Index 0 of the
      class table is no class. */
  datatype Classes = Classes(
    superclass: map<Class, Option<Class>>,
    dict: map<Class, Option<Dict>>,
    index: map<Class, nat>,
    table: seq<Option<Class>>,
    rank: map<Class, nat>)

  /** Chains end: each superclass is a known class of lower rank. */
  ghost predicate Ranked(k: Classes) {
    && k.superclass.Keys == k.rank.Keys
    && forall c :: c in k.superclass && k.superclass[c].Some? ==>
      k.superclass[c].value in k.rank && k.rank[k.superclass[c].value] < k.rank[c]
  }

  predicate DictOk(d: Dict) {
    |d.keys| == |d.vals|
  }

  /** Every class has its dictionary, if any, in order; an index leads back to its class. */
  ghost predicate ClassesOk(k: Classes) {
    && Ranked(k) && k.dict.Keys == k.superclass.Keys
    && (forall c :: c in k.dict && k.dict[c].Some? ==> DictOk(k.dict[c].value))
    && (forall c :: c in k.index ==> c in k.superclass && 0 < k.index[c] < |k.table| && k.table[k.index[c]] == Some(c))
    && (forall i :: 0 <= i < |k.table| && k.table[i].Some? ==> k.table[i].value in k.superclass)
    && (forall c :: c in k.superclass && k.superclass[c].Some? ==> k.superclass[c].value in k.index)
  }

  // ---------- the slow lookup ----------

  function Find(d: Dict, sel: Selector): Option<Method>
    requires DictOk(d)
  {
    FindFrom(d, sel, 0)
  }

  function FindFrom(d: Dict, sel: Selector, i: nat): Option<Method>
    requires DictOk(d) && i <= |d.keys|
    decreases |d.keys| - i
  {
    if i == |d.keys| then None else if d.keys[i] == sel then Some(d.vals[i]) else FindFrom(d, sel, i + 1)
  }

  /** What class `c` itself defines for a selector. */
  ghost function Own(k: Classes, c: Class, sel: Selector): Option<Method>
    requires ClassesOk(k) && c in k.superclass
  {
    if k.dict[c].Some? then Find(k.dict[c].value, sel) else None
  }

  /** The method of the nearest class on the chain from `c` that defines the selector. */
  ghost function Walk(k: Classes, c: Option<Class>, sel: Selector): Option<Method>
    requires ClassesOk(k) && (c.Some? ==> c.value in k.superclass)
    decreases if c.Some? then k.rank[c.value] + 1 else 0
  {
    match c
    case None => None
    case Some(cls) => if Own(k, cls, sel).Some? then Own(k, cls, sel) else Walk(k, k.superclass[cls], sel)
  }

  ghost function Lookup(k: Classes, ci: nat, sel: Selector): Option<Method>
    requires ClassesOk(k) && ci < |k.table|
  {
    Walk(k, k.table[ci], sel)
  }

  /** The lookup of a send to super: from the class above the static one, found through that class's index. */
  ghost function LookupAbove(k: Classes, static_: Class, sel: Selector): Option<Method>
    requires ClassesOk(k) && static_ in k.superclass
  {
    match k.superclass[static_]
    case None => None
    case Some(sup) => Lookup(k, k.index[sup], sel)
  }

  /** Going through the index of the superclass is walking from the superclass. */
  lemma LookupAboveWalks(k: Classes, static_: Class, sel: Selector)
    requires ClassesOk(k) && static_ in k.superclass
    ensures LookupAbove(k, static_, sel) == Walk(k, k.superclass[static_], sel)
  {
  }

  // ---------- installing ----------

  function IndexOf(keys: seq<Selector>, sel: Selector): nat {
    if keys == [] || keys[0] == sel then 0 else 1 + IndexOf(keys[1..], sel)
  }

  lemma {:induction false} IndexOfIs(keys: seq<Selector>, sel: Selector)
    ensures IndexOf(keys, sel) <= |keys| && sel !in keys[..IndexOf(keys, sel)]
    ensures IndexOf(keys, sel) < |keys| ==> keys[IndexOf(keys, sel)] == sel
    ensures IndexOf(keys, sel) == |keys| <==> sel !in keys
  {
    if keys != [] && keys[0] != sel {
      IndexOfIs(keys[1..], sel);
      var n := IndexOf(keys[1..], sel);
      assert keys[..n + 1] == [keys[0]] + keys[1..][..n];
    }
  }

  /** Overwrite the method of a selector that is there, or append the pair. */
  function Installed(d: Dict, sel: Selector, m: Method): Dict
    requires DictOk(d)
  {
    IndexOfIs(d.keys, sel);
    var i := IndexOf(d.keys, sel);
    if i < |d.keys| then Dict(d.keys, d.vals[i := m]) else Dict(d.keys + [sel], d.vals + [m])
  }

  lemma {:induction false} FindIs(d: Dict, sel: Selector, i: nat)
    requires DictOk(d) && i <= |d.keys|
    ensures FindFrom(d, sel, i).None? <==> sel !in d.keys[i..]
    ensures FindFrom(d, sel, i).Some? ==>
      exists j :: i <= j < |d.keys| && d.keys[j] == sel && sel !in d.keys[i..j] && FindFrom(d, sel, i).value == d.vals[j]
    decreases |d.keys| - i
  {
    if i < |d.keys| {
      assert d.keys[i..] == [d.keys[i]] + d.keys[i + 1..];
      if d.keys[i] != sel {
        FindIs(d, sel, i + 1);
        if FindFrom(d, sel, i + 1).Some? {
          var j :| i + 1 <= j < |d.keys| && d.keys[j] == sel && sel !in d.keys[i + 1..j] && FindFrom(d, sel, i + 1).value == d.vals[j];
          assert d.keys[i..j] == [d.keys[i]] + d.keys[i + 1..j];
        }
      } else {
        assert d.keys[i..i] == [];
      }
    }
  }

  /** The installed method is found under its selector; under every other one what was found before. */
  lemma FindInstalled(d: Dict, sel: Selector, m: Method, other: Selector)
    requires DictOk(d)
    ensures DictOk(Installed(d, sel, m))
    ensures Find(Installed(d, sel, m), other) == if other == sel then Some(m) else Find(d, other)
  {
    IndexOfIs(d.keys, sel);
    FindSame(d, Installed(d, sel, m), sel, m, other, 0);
  }

  lemma {:induction false} FindSame(d: Dict, d': Dict, sel: Selector, m: Method, other: Selector, i: nat)
    requires DictOk(d) && d' == Installed(d, sel, m) && i <= IndexOf(d.keys, sel) <= |d.keys|
    requires sel !in d.keys[..IndexOf(d.keys, sel)]
    requires IndexOf(d.keys, sel) < |d.keys| ==> d.keys[IndexOf(d.keys, sel)] == sel
    ensures DictOk(d') && i <= |d'.keys|
    ensures FindFrom(d', other, i) == if other == sel then Some(m) else FindFrom(d, other, i)
    decreases |d.keys| - i
  {
    var n := IndexOf(d.keys, sel);
    if i < n {
      assert d.keys[i] == d.keys[..n][i];
      FindSame(d, d', sel, m, other, i + 1);
    } else if i < |d.keys| {
      FindTail(d, d', other, i + 1);
    }
  }

  lemma {:induction false} FindTail(d: Dict, d': Dict, other: Selector, i: nat)
    requires DictOk(d) && DictOk(d') && d'.keys == d.keys && i <= |d.keys|
    requires forall j :: i <= j < |d.keys| ==> d'.vals[j] == d.vals[j]
    ensures FindFrom(d', other, i) == FindFrom(d, other, i)
    decreases |d.keys| - i
  {
    if i < |d.keys| {
      FindTail(d, d', other, i + 1);
    }
  }

  function WithMethod(k: Classes, c: Class, sel: Selector, m: Method): Classes
    requires c in k.dict && k.dict[c].Some? && DictOk(k.dict[c].value)
  {
    k.(dict := k.dict[c := Some(Installed(k.dict[c].value, sel, m))])
  }

  lemma WithMethodOk(k: Classes, c: Class, sel: Selector, m: Method)
    requires ClassesOk(k) && c in k.dict && k.dict[c].Some?
    ensures ClassesOk(WithMethod(k, c, sel, m))
  {
    FindInstalled(k.dict[c].value, sel, m, sel);
    hide Installed;
  }

  /** Class `c` is on the chain from `from`, and no class before it defines the selector. */
  ghost predicate Inherits(k: Classes, from: Option<Class>, c: Class, sel: Selector)
    requires ClassesOk(k) && (from.Some? ==> from.value in k.superclass)
    decreases if from.Some? then k.rank[from.value] + 1 else 0
  {
    from.Some? && (from.value == c || (Own(k, from.value, sel).None? && Inherits(k, k.superclass[from.value], c, sel)))
  }

  /** After a method is installed, exactly the lookups of its selector that come to its class find it; all others find
      what they found before. */
  lemma {:induction false} WalkInstalled(k: Classes, c: Class, sel: Selector, m: Method, from: Option<Class>, other: Selector)
    requires ClassesOk(k) && c in k.dict && k.dict[c].Some? && (from.Some? ==> from.value in k.superclass)
    ensures ClassesOk(WithMethod(k, c, sel, m))
    ensures Walk(WithMethod(k, c, sel, m), from, other) ==
      if other == sel && Inherits(k, from, c, sel) then Some(m) else Walk(k, from, other)
    decreases if from.Some? then k.rank[from.value] + 1 else 0
  {
    WithMethodOk(k, c, sel, m);
    hide ClassesOk, Installed, Find;
    if from.Some? {
      OwnInstalled(k, c, sel, m, from.value, other);
      SuperKnown(k, from.value);
      WalkInstalled(k, c, sel, m, k.superclass[from.value], other);
    }
  }

  lemma SuperKnown(k: Classes, c: Class)
    requires ClassesOk(k) && c in k.superclass
    ensures c in k.rank && c in k.dict
    ensures k.superclass[c].Some? ==> k.superclass[c].value in k.superclass && k.superclass[c].value in k.rank
    ensures k.superclass[c].Some? ==> k.rank[k.superclass[c].value] < k.rank[c]
  {
  }

  lemma OwnInstalled(k: Classes, c: Class, sel: Selector, m: Method, from: Class, other: Selector)
    requires ClassesOk(k) && c in k.dict && k.dict[c].Some? && from in k.superclass
    ensures ClassesOk(WithMethod(k, c, sel, m))
    ensures Own(WithMethod(k, c, sel, m), from, other) == if from == c && other == sel then Some(m) else Own(k, from, other)
  {
    WithMethodOk(k, c, sel, m);
    if from == c {
      FindInstalled(k.dict[c].value, sel, m, other);
    }
    hide Installed, Find;
  }

  // ---------- new classes ----------

  /** A class object that is not registered yet: its superclass, if any, is. */
  ghost function WithClass(k: Classes, c: Class, sup: Option<Class>, d: Option<Dict>): Classes
    requires sup.Some? ==> sup.value in k.rank
  {
    k.(superclass := k.superclass[c := sup], dict := k.dict[c := d],
       rank := k.rank[c := if sup.Some? then k.rank[sup.value] + 1 else 0])
  }

  function Registered(k: Classes, c: Class): Classes {
    k.(table := k.table + [Some(c)], index := k.index[c := |k.table|])
  }

  lemma WithClassOk(k: Classes, c: Class, sup: Option<Class>, d: Option<Dict>)
    requires ClassesOk(k) && c !in k.superclass && (sup.Some? ==> sup.value in k.index) && (d.Some? ==> DictOk(d.value))
    ensures ClassesOk(WithClass(k, c, sup, d))
  {
  }

  lemma RegisteredOk(k: Classes, c: Class)
    requires ClassesOk(k) && c in k.superclass && |k.table| > 0
    ensures ClassesOk(Registered(k, c))
  {
  }

  /** A new class changes no lookup from the others. */
  lemma {:induction false} WalkWithClass(k: Classes, c: Class, sup: Option<Class>, d: Option<Dict>, from: Option<Class>, sel: Selector)
    requires ClassesOk(k) && c !in k.superclass && (sup.Some? ==> sup.value in k.index) && (d.Some? ==> DictOk(d.value))
    requires from.Some? ==> from.value in k.superclass
    ensures ClassesOk(WithClass(k, c, sup, d)) && Walk(WithClass(k, c, sup, d), from, sel) == Walk(k, from, sel)
    decreases if from.Some? then k.rank[from.value] + 1 else 0
  {
    WithClassOk(k, c, sup, d);
    if from.Some? {
      SuperKnown(k, from.value);
      hide ClassesOk, Find;
      WalkWithClass(k, c, sup, d, k.superclass[from.value], sel);
    }
  }

  lemma {:induction false} WalkRegistered(k: Classes, c: Class, from: Option<Class>, sel: Selector)
    requires ClassesOk(k) && c in k.superclass && |k.table| > 0 && (from.Some? ==> from.value in k.superclass)
    ensures ClassesOk(Registered(k, c)) && Walk(Registered(k, c), from, sel) == Walk(k, from, sel)
    decreases if from.Some? then k.rank[from.value] + 1 else 0
  {
    RegisteredOk(k, c);
    if from.Some? {
      SuperKnown(k, from.value);
      hide ClassesOk, Find;
      WalkRegistered(k, c, k.superclass[from.value], sel);
    }
  }

  // ---------- the caches ----------

  /** An entry of the global cache; class index 0 marks an empty one. */
  datatype Entry = Entry(classIndex: nat, selector: Selector, code: Method)

  /** A send site: what it sends, and the method it found last for which class index. A site of a super send knows the
      class it was compiled in. */
  datatype Site = Site(selector: Selector, argc: nat, cachedClass: nat, cachedMethod: Method, above: Option<Class>)

  const EMPTY := Entry(0, 0, 0)

  function Slot(ci: nat, sel: Selector): nat {
    ((ci * 31 + sel / 8) % 0x1_0000_0000_0000_0000) % LOOKUP_CACHE_SIZE
  }

  /** What a site should find for a receiver of class index `ci`. */
  ghost function SiteLookup(k: Classes, site: Site, ci: nat): Option<Method>
    requires ClassesOk(k) && ci < |k.table| && (site.above.Some? ==> site.above.value in k.superclass)
  {
    match site.above
    case None => Lookup(k, ci, site.selector)
    case Some(c) => LookupAbove(k, c, site.selector)
  }

  ghost predicate EntryOk(k: Classes, e: Entry)
    requires ClassesOk(k)
  {
    e.classIndex > 0 ==> e.classIndex < |k.table| && Lookup(k, e.classIndex, e.selector) == Some(e.code)
  }

  ghost predicate SiteKnown(k: Classes, site: Site) {
    site.above.Some? ==> site.above.value in k.superclass
  }

  ghost predicate SiteOk(k: Classes, site: Site)
    requires ClassesOk(k)
  {
    && SiteKnown(k, site)
    && (site.cachedClass > 0 ==> site.cachedClass < |k.table| && SiteLookup(k, site, site.cachedClass) == Some(site.cachedMethod))
  }

  /** Every non-empty entry of the global cache, and every non-empty entry of a registered site table, holds what the slow
      lookup returns. */
  ghost predicate Coherent(k: Classes, cache: seq<Entry>, tables: map<TableId, seq<Site>>, registry: seq<TableId>) {
    && ClassesOk(k)
    && (forall i :: 0 <= i < |cache| ==> EntryOk(k, cache[i]))
    && (forall t, j :: t in registry && t in tables && 0 <= j < |tables[t]| ==> SiteOk(k, tables[t][j]))
    && (forall t, j :: t in tables && 0 <= j < |tables[t]| ==> SiteKnown(k, tables[t][j]))
  }

  /** A new class leaves the caches coherent without a flush. */
  lemma NewClassCoherent(k: Classes, cache: seq<Entry>, tables: map<TableId, seq<Site>>, registry: seq<TableId>,
                         c: Class, sup: Option<Class>, d: Option<Dict>)
    requires Coherent(k, cache, tables, registry)
    requires c !in k.superclass && (sup.Some? ==> sup.value in k.index) && (d.Some? ==> DictOk(d.value))
    ensures Coherent(WithClass(k, c, sup, d), cache, tables, registry)
  {
    WithClassOk(k, c, sup, d);
    hide ClassesOk;
    forall e: Entry | EntryOk(k, e)
      ensures EntryOk(WithClass(k, c, sup, d), e)
    {
      NewClassEntry(k, e, c, sup, d);
    }
    forall site: Site | SiteKnown(k, site) && SiteOk(k, site)
      ensures SiteOk(WithClass(k, c, sup, d), site)
    {
      NewClassSite(k, site, c, sup, d);
    }
  }

  lemma NewClassEntry(k: Classes, e: Entry, c: Class, sup: Option<Class>, d: Option<Dict>)
    requires ClassesOk(k) && EntryOk(k, e)
    requires c !in k.superclass && (sup.Some? ==> sup.value in k.index) && (d.Some? ==> DictOk(d.value))
    ensures ClassesOk(WithClass(k, c, sup, d)) && EntryOk(WithClass(k, c, sup, d), e)
  {
    WithClassOk(k, c, sup, d);
    if e.classIndex > 0 {
      WalkWithClass(k, c, sup, d, k.table[e.classIndex], e.selector);
    }
  }

  lemma NewClassSite(k: Classes, site: Site, c: Class, sup: Option<Class>, d: Option<Dict>)
    requires ClassesOk(k) && SiteOk(k, site)
    requires c !in k.superclass && (sup.Some? ==> sup.value in k.index) && (d.Some? ==> DictOk(d.value))
    ensures ClassesOk(WithClass(k, c, sup, d)) && SiteOk(WithClass(k, c, sup, d), site)
  {
    WithClassOk(k, c, sup, d);
    if site.cachedClass > 0 {
      if site.above.Some? {
        LookupAboveWalks(k, site.above.value, site.selector);
        LookupAboveWalks(WithClass(k, c, sup, d), site.above.value, site.selector);
        WalkWithClass(k, c, sup, d, k.superclass[site.above.value], site.selector);
      } else {
        WalkWithClass(k, c, sup, d, k.table[site.cachedClass], site.selector);
      }
    }
  }

  /** Where the lookup of a site starts for a receiver of class index `ci`. */
  ghost function StartOf(k: Classes, site: Site, ci: nat): Option<Class>
    requires ClassesOk(k) && ci < |k.table| && SiteKnown(k, site)
  {
    if site.above.Some? then k.superclass[site.above.value] else k.table[ci]
  }

  lemma StartKnown(k: Classes, site: Site, ci: nat)
    requires ClassesOk(k) && ci < |k.table| && SiteKnown(k, site)
    ensures StartOf(k, site, ci).Some? ==> StartOf(k, site, ci).value in k.superclass
    ensures SiteLookup(k, site, ci) == Walk(k, StartOf(k, site, ci), site.selector)
  {
    if site.above.Some? {
      LookupAboveWalks(k, site.above.value, site.selector);
    }
  }

  /** A filled site that is not flushed when a method is installed goes stale exactly when its own lookup comes to the
      class the method went into, and the method is another one. Sites of tables that are not registered, those of blocks
      inside a method, are not flushed. */
  lemma StaleIff(k: Classes, site: Site, c: Class, sel: Selector, m: Method)
    requires ClassesOk(k) && SiteKnown(k, site) && SiteOk(k, site) && site.cachedClass > 0
    requires c in k.dict && k.dict[c].Some?
    ensures ClassesOk(WithMethod(k, c, sel, m)) && StartOf(k, site, site.cachedClass).Some? ==>
      StartOf(k, site, site.cachedClass).value in k.superclass
    ensures ClassesOk(WithMethod(k, c, sel, m)) &&
      (SiteOk(WithMethod(k, c, sel, m), site) <==>
        !(site.selector == sel && Inherits(k, StartOf(k, site, site.cachedClass), c, sel) && m != site.cachedMethod))
  {
    WithMethodOk(k, c, sel, m);
    StartKnown(k, site, site.cachedClass);
    StartKnown(WithMethod(k, c, sel, m), site, site.cachedClass);
    WalkInstalled(k, c, sel, m, StartOf(k, site, site.cachedClass), site.selector);
    hide ClassesOk, Installed;
  }

  /** One class, of index 1, that understands selector 7 with method 10. */
  function StaleExample(): Classes {
    Classes(map[5 := None], map[5 := Some(Dict([7], [10]))], map[5 := 1], [None, Some(5)], map[5 := 0])
  }

  /** An input on which a site goes stale: method 11 is installed for 7, and an unflushed site still answers method 10. */
  lemma StaleSite()
    ensures var k, site := StaleExample(), Site(7, 0, 1, 10, None);
      && ClassesOk(k) && SiteOk(k, site) && ClassesOk(WithMethod(k, 5, 7, 11))
      && !SiteOk(WithMethod(k, 5, 7, 11), site)
  {
    var k, site := StaleExample(), Site(7, 0, 1, 10, None);
    assert Own(k, 5, 7) == Some(10);
    StaleIff(k, site, 5, 7, 11);
  }

  /** With nothing cached, everything is coherent. */
  lemma FlushedCoherent(k: Classes, cache: seq<Entry>, tables: map<TableId, seq<Site>>, registry: seq<TableId>)
    requires ClassesOk(k) && forall i :: 0 <= i < |cache| ==> cache[i] == EMPTY
    requires forall t, j :: t in registry && t in tables && 0 <= j < |tables[t]| ==> tables[t][j].cachedClass == 0
    requires forall t, j :: t in tables && 0 <= j < |tables[t]| ==> SiteKnown(k, tables[t][j])
    ensures Coherent(k, cache, tables, registry)
  {
    hide ClassesOk;
  }
}
