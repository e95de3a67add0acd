/** Send sites over whole runs: which of them hold what the slow lookup finds, up to a saved image and after it is loaded. */
module CacheSteps {
  import opened Options
  import opened MethodLookup

  /** The sites of a table with nothing cached. */
  function Emptied(sites: seq<Site>): (r: seq<Site>)
    ensures |r| == |sites|
  {
    seq(|sites|, j requires 0 <= j < |sites| => sites[j].(cachedClass := 0, cachedMethod := 0))
  }

  /** The tables that are registered are emptied, the others are as they were. */
  function Flush(tables: map<TableId, seq<Site>>, registry: seq<TableId>): map<TableId, seq<Site>> {
    map t | t in tables :: if t in registry then Emptied(tables[t]) else tables[t]
  }

  // ---------- the steps ----------

  /** The classes, the send-site tables, those that are registered, and the table of each method. What the global cache
      answers is what the walk would. */
  datatype Caches = Caches(k: Classes, tables: map<TableId, seq<Site>>, registry: seq<TableId>, own: map<Method, TableId>)

  /** A site is in order when its static class is known and what it caches is for a class index. */
  ghost predicate SiteFormed(k: Classes, site: Site) {
    SiteKnown(k, site) && site.cachedClass < |k.table|
  }

  ghost predicate Formed(s: Caches) {
    && ClassesOk(s.k) && |s.k.table| > 0
    && (forall t, j :: t in s.tables && 0 <= j < |s.tables[t]| ==> SiteFormed(s.k, s.tables[t][j]))
    && (forall t :: t in s.registry ==> t in s.tables)
    && (forall m :: m in s.own ==> s.own[m] in s.tables)
  }

  /** `Load` is a save and a load: the sites are those saved, the tables found in the image are registered. */
  datatype Op =
    | Send(t: TableId, j: nat, ci: nat)
    | Install(c: Class, sel: Selector, m: Method)
    | AddClass(c: Class, sup: Option<Class>, d: Option<Dict>)
    | Register(c: Class)
    | AddTable(t: TableId, sites: seq<Site>, owner: Option<Method>)
    | Load(found: seq<TableId>)

  ghost predicate CanDo(s: Caches, op: Op) {
    match op
    case Send(t, j, ci) => t in s.tables && j < |s.tables[t]| && 0 < ci < |s.k.table|
    case Install(c, _, _) => c in s.k.dict && s.k.dict[c].Some?
    case AddClass(c, sup, d) =>
      c !in s.k.superclass && (sup.Some? ==> sup.value in s.k.index) && (d.Some? ==> DictOk(d.value))
    case Register(c) => c in s.k.superclass
    case AddTable(t, sites, _) =>
      t !in s.tables && forall j :: 0 <= j < |sites| ==> sites[j].cachedClass == 0 && SiteKnown(s.k, sites[j])
    case Load(found) => forall t :: t in found ==> t in s.tables
  }

  /** The tables registered after an install: the method's own is added. */
  function Listing(s: Caches, m: Method): seq<TableId> {
    if m in s.own && s.own[m] !in s.registry then s.registry + [s.own[m]] else s.registry
  }

  /** What a send through a site looks up, unless the site answers. */
  ghost function SendLookup(s: Caches, t: TableId, j: nat, ci: nat): Option<Method>
    requires Formed(s) && CanDo(s, Send(t, j, ci))
  {
    SiteLookup(s.k, s.tables[t][j], ci)
  }

  ghost predicate Misses(s: Caches, t: TableId, j: nat, ci: nat)
    requires Formed(s) && CanDo(s, Send(t, j, ci))
  {
    s.tables[t][j].cachedClass != ci && SendLookup(s, t, j, ci).Some?
  }

  ghost function Next(s: Caches, op: Op): Caches
    requires Formed(s) && CanDo(s, op)
  {
    match op
    case Send(t, j, ci) =>
      if Misses(s, t, j, ci)
      then s.(tables := s.tables[t := s.tables[t][j := s.tables[t][j].(cachedClass := ci, cachedMethod := SendLookup(s, t, j, ci).value)]])
      else s
    case Install(c, sel, m) =>
      s.(k := WithMethod(s.k, c, sel, m), registry := Listing(s, m), tables := Flush(s.tables, Listing(s, m)))
    case AddClass(c, sup, d) => s.(k := WithClass(s.k, c, sup, d))
    case Register(c) => s.(k := Registered(s.k, c), tables := Flush(s.tables, s.registry))
    case AddTable(t, sites, owner) =>
      s.(tables := s.tables[t := sites], own := if owner.Some? then s.own[owner.value := t] else s.own)
    case Load(found) => s.(registry := found)
  }

  // ---------- one site over one step ----------

  ghost predicate HasSite(s: Caches, t: TableId, j: nat) {
    t in s.tables && j < |s.tables[t]|
  }

  /** The site holds nothing, or what the slow lookup finds. */
  ghost predicate Fresh(s: Caches, t: TableId, j: nat)
    requires Formed(s) && HasSite(s, t, j)
  {
    SiteOk(s.k, s.tables[t][j])
  }

  /** The filled site's own lookup comes to the class of the install. */
  ghost predicate Concerns(k: Classes, site: Site, c: Class, sel: Selector)
    requires ClassesOk(k) && SiteFormed(k, site)
  {
    StartKnown(k, site, site.cachedClass);
    site.cachedClass > 0 && site.selector == sel && Inherits(k, StartOf(k, site, site.cachedClass), c, sel)
  }

  /** An install that makes a site stale: the site is not flushed, its lookup comes to the class of the install, and the
      method there is now another one. */
  ghost predicate Breaks(s: Caches, op: Op, t: TableId, j: nat)
    requires Formed(s)
  {
    && op.Install? && HasSite(s, t, j) && t !in Listing(s, op.m)
    && Concerns(s.k, s.tables[t][j], op.c, op.sel) && op.m != s.tables[t][j].cachedMethod
  }

  /** A step that makes a site fresh: it is flushed, filled again, or the method it holds is installed again. */
  ghost predicate Mends(s: Caches, op: Op, t: TableId, j: nat)
    requires Formed(s) && CanDo(s, op) && HasSite(s, t, j)
  {
    match op
    case Send(t', j', ci) => t' == t && j' == j && Misses(s, t, j, ci)
    case Install(c, sel, m) =>
      t in Listing(s, m) || (Concerns(s.k, s.tables[t][j], c, sel) && m == s.tables[t][j].cachedMethod)
    case Register(_) => t in s.registry
    case _ => false
  }

  /** What an install does to a filled site that is not flushed. */
  lemma InstallSite(k: Classes, site: Site, c: Class, sel: Selector, m: Method)
    requires ClassesOk(k) && SiteFormed(k, site) && site.cachedClass > 0 && c in k.dict && k.dict[c].Some?
    ensures ClassesOk(WithMethod(k, c, sel, m)) && SiteFormed(WithMethod(k, c, sel, m), site)
    ensures SiteOk(WithMethod(k, c, sel, m), site) <==> if Concerns(k, site, c, sel) then m == site.cachedMethod else SiteOk(k, site)
  {
    WithMethodOk(k, c, sel, m);
    StartKnown(k, site, site.cachedClass);
    StartKnown(WithMethod(k, c, sel, m), site, site.cachedClass);
    WalkInstalled(k, c, sel, m, StartOf(k, site, site.cachedClass), site.selector);
    hide ClassesOk, Installed, Walk, Inherits, SiteLookup;
  }

  /** A new class changes nothing for a site. */
  lemma AddedSite(k: Classes, site: Site, c: Class, sup: Option<Class>, d: Option<Dict>)
    requires ClassesOk(k) && SiteFormed(k, site) && CanDo(Caches(k, map[], [], map[]), AddClass(c, sup, d))
    ensures ClassesOk(WithClass(k, c, sup, d)) && SiteFormed(WithClass(k, c, sup, d), site)
    ensures SiteOk(WithClass(k, c, sup, d), site) <==> SiteOk(k, site)
  {
    WithClassOk(k, c, sup, d);
    StartKnown(k, site, site.cachedClass);
    StartKnown(WithClass(k, c, sup, d), site, site.cachedClass);
    WalkWithClass(k, c, sup, d, StartOf(k, site, site.cachedClass), site.selector);
    AddedStart(k, site, c, sup, d);
    hide ClassesOk, Walk, SiteLookup;
  }

  lemma AddedStart(k: Classes, site: Site, c: Class, sup: Option<Class>, d: Option<Dict>)
    requires ClassesOk(k) && c !in k.superclass && (sup.Some? ==> sup.value in k.rank)
    requires ClassesOk(WithClass(k, c, sup, d)) && SiteFormed(k, site)
    ensures SiteFormed(WithClass(k, c, sup, d), site)
    ensures StartOf(WithClass(k, c, sup, d), site, site.cachedClass) == StartOf(k, site, site.cachedClass)
  {
  }

  /** Nor does a new class index. */
  lemma RegisteredSite(k: Classes, site: Site, c: Class)
    requires ClassesOk(k) && |k.table| > 0 && SiteFormed(k, site) && c in k.superclass
    ensures ClassesOk(Registered(k, c)) && SiteFormed(Registered(k, c), site)
    ensures SiteOk(Registered(k, c), site) <==> SiteOk(k, site)
  {
    RegisteredOk(k, c);
    StartKnown(k, site, site.cachedClass);
    StartKnown(Registered(k, c), site, site.cachedClass);
    WalkRegistered(k, c, StartOf(k, site, site.cachedClass), site.selector);
    hide ClassesOk, Walk, SiteLookup;
  }

  lemma SentSite(k: Classes, site: Site, ci: nat)
    requires ClassesOk(k) && SiteKnown(k, site) && 0 < ci < |k.table| && SiteLookup(k, site, ci).Some?
    ensures var filled := site.(cachedClass := ci, cachedMethod := SiteLookup(k, site, ci).value);
      SiteFormed(k, filled) && SiteOk(k, filled)
  {
    hide ClassesOk;
  }

  lemma EmptySite(k: Classes, site: Site)
    requires ClassesOk(k) && |k.table| > 0 && SiteKnown(k, site)
    ensures var empty := site.(cachedClass := 0, cachedMethod := 0); SiteFormed(k, empty) && SiteOk(k, empty)
  {
    hide ClassesOk;
  }

  /** Every step keeps classes and sites in order, and no site goes away. */
  lemma StepFormed(s: Caches, op: Op)
    requires Formed(s) && CanDo(s, op)
    ensures Formed(Next(s, op))
    ensures forall t, j :: HasSite(s, t, j) ==> HasSite(Next(s, op), t, j)
  {
    hide ClassesOk, SiteKnown, SiteLookup;
    var s' := Next(s, op);
    NextClasses(s, op);
    forall t, j: nat | HasSite(s', t, j)
      ensures SiteFormed(s'.k, s'.tables[t][j])
    {
      if HasSite(s, t, j) {
        StepSite(s, op, t, j);
      } else {
        assert op.AddTable? && SiteKnown(s.k, op.sites[j]);
      }
    }
  }

  lemma NextClasses(s: Caches, op: Op)
    requires Formed(s) && CanDo(s, op)
    ensures ClassesOk(Next(s, op).k) && |Next(s, op).k.table| > 0
  {
    match op {
      case Install(c, sel, m) => WithMethodOk(s.k, c, sel, m);
      case AddClass(c, sup, d) => WithClassOk(s.k, c, sup, d);
      case Register(c) => RegisteredOk(s.k, c);
      case _ =>
    }
  }

  /** A step leaves a site fresh exactly when it mends it, or the site was fresh and the step does not break it. */
  lemma StepSite(s: Caches, op: Op, t: TableId, j: nat)
    requires Formed(s) && CanDo(s, op) && HasSite(s, t, j)
    ensures var s' := Next(s, op);
      && ClassesOk(s'.k) && HasSite(s', t, j) && SiteFormed(s'.k, s'.tables[t][j])
      && (SiteOk(s'.k, s'.tables[t][j]) <==> Mends(s, op, t, j) || (Fresh(s, t, j) && !Breaks(s, op, t, j)))
  {
    hide ClassesOk, SiteKnown, SiteLookup, SiteOk, Inherits, Installed;
    NextClasses(s, op);
    var site := s.tables[t][j];
    assert SiteFormed(s.k, site);
    match op {
      case Send(t', j', ci) =>
        if t' == t && j' == j && Misses(s, t, j, ci) {
          SentSite(s.k, site, ci);
        }
      case Install(c, sel, m) =>
        InstalledSite(s, c, sel, m, t, j);
      case AddClass(c, sup, d) => AddedSite(s.k, site, c, sup, d);
      case Register(c) =>
        RegisteredSite(s.k, site, c);
        if t in s.registry {
          RegisteredKnown(s.k, site, c);
          EmptySite(Registered(s.k, c), site);
        }
      case _ =>
    }
  }

  lemma RegisteredKnown(k: Classes, site: Site, c: Class)
    requires SiteKnown(k, site)
    ensures SiteKnown(Registered(k, c), site)
  {
  }

  lemma InstalledSite(s: Caches, c: Class, sel: Selector, m: Method, t: TableId, j: nat)
    requires Formed(s) && CanDo(s, Install(c, sel, m)) && HasSite(s, t, j)
    ensures var op := Install(c, sel, m); var s' := Next(s, op);
      && ClassesOk(s'.k) && HasSite(s', t, j) && SiteFormed(s'.k, s'.tables[t][j])
      && (SiteOk(s'.k, s'.tables[t][j]) <==> Mends(s, op, t, j) || (Fresh(s, t, j) && !Breaks(s, op, t, j)))
  {
    hide SiteLookup, Inherits, Installed;
    WithMethodOk(s.k, c, sel, m);
    var site, k' := s.tables[t][j], WithMethod(s.k, c, sel, m);
    hide ClassesOk;
    assert SiteFormed(s.k, site);
    assert SiteKnown(k', site);
    if t in Listing(s, m) {
      EmptySite(k', site);
    } else if site.cachedClass > 0 {
      InstallSite(s.k, site, c, sel, m);
    }
  }
}
