/** Saving at one base and loading at another. */
module ImageRoundTrip {
  import opened ObjectMemory
  import opened ObjectFormat
  import opened ImageRelocation
  import opened ByteOrder
  import opened ImageFile
  import opened ImageLoader
  import opened ImageGraph

  /** The saved heap at its new place: old space and the two arrays added to it, every pointer shifted by the same
      distance, and the roots denoting the same objects. */
  ghost predicate Reloaded(objs: seq<Obj>, base: Addr, classTable: seq<Value>, specials: seq<Value>, active: Value, l: Loaded)
    requires Saveable(objs, base, classTable, specials) && base + Size(objs) + 1 < W61
  {
    SavedShape(objs, base, classTable, specials);
    var all, d := SavedObjs(objs, base, classTable, specials), l.base - base;
    var moved := RelocatedTo(d, all, |all|);
    && ObjsOk(moved) && l.words == Layout(moved)
    && l.classTable == ShiftAll(d, classTable)
    && |l.specials| == |specials|
    && (forall i :: 0 <= i < |specials| && i != SPECIAL_CLASS_LIST ==> l.specials[i] == Shift(d, specials[i]))
    && l.specials[SPECIAL_CLASS_LIST] == Ptr(l.base + Size(objs) + ArrayObj(classTable).Extra())
    && l.active == Shift(d, active)
    && l.registry == ShiftAll(d, SiteTables(all, base, |all|))
    && l.symbols == ShiftSymbols(d, Symbols(all, base, |all|))
  }

  /** An image that was written is accepted. */
  lemma WrittenAccepted(s: Saved)
    requires SavedOk(s)
    ensures HeaderError(ImageBytes(s)) == []
  {
    hide Read, HeaderBytes, WordBytes, ObjsOk, Shaped, SitesKnown, Layout;
    LayoutSize(s.objs);
    HeadsWithin(s.objs, 0, s.specials);
    HeadsWithin(s.objs, 0, s.classList);
    HeadsWithin(s.objs, 0, s.active);
    HeaderFields(8 * s.base, 8 * Size(s.objs), 8 * Heads(s.objs, 0)[s.specials], 8 * Heads(s.objs, 0)[s.classList],
                 8 * Heads(s.objs, 0)[s.active], WordBytes(Layout(s.objs)));
  }

  /** Save and load: whatever is saved comes back at any 8-aligned base with room for it. */
  method SaveThenLoad(words: seq<nat>, base: Addr, capacity: nat, classTable: seq<Value>, specials: seq<Value>, active: Value,
                      newBase: Addr, ghost objs: seq<Obj>)
    returns (r: Result<Loaded>)
    requires Saveable(objs, base, classTable, specials) && words == Layout(objs) && base + capacity + 2 < W61
    requires Size(objs) <= capacity && newBase + capacity < W61
    requires active.Ptr? && base <= active.addr < base + capacity ==> active.addr in Heads(objs, base)
    ensures r.Ok? <==> Size(SavedObjs(objs, base, classTable, specials)) <= capacity && active.Ptr? && base <= active.addr < base + capacity
    ensures r.Ok? ==> r.value.base == newBase && Reloaded(objs, base, classTable, specials, active, r.value)
    ensures r.Ok? && LiveClosed(objs, base, RootsOf(classTable, specials, active)) ==>
      SameGraph(objs, base, classTable, specials, active, r.value)
  {
    hide SameGraph, LiveClosed, Layout, ObjsOk, Heads, SitesKnown, Shaped, Size, SavedObjs, ImageBytes, HeaderError, Reloaded, LoadedOk, SavedOk, Saveable;
    var image, s := WriteImage(words, base, capacity, classTable, specials, active, objs);
    if image.Err? {
      return Err(image.error);
    }
    WrittenAccepted(s);
    r := LoadImage(image.value, newBase, s);
    SameRoots(objs, base, classTable, specials, active, s, r.value);
    if LiveClosed(objs, base, RootsOf(classTable, specials, active)) {
      GraphReloaded(objs, base, classTable, specials, active, r.value);
    }
  }

  /** What the program can start from. */
  ghost function RootsOf(classTable: seq<Value>, specials: seq<Value>, active: Value): set<Addr> {
    Addrs(classTable) + Addrs(specials) + Addrs([active])
  }

  /** The graph the program can reach is the one that was saved, every address `l.base - base` further, and so are the roots
      themselves. */
  ghost predicate SameGraph(objs: seq<Obj>, base: Addr, classTable: seq<Value>, specials: seq<Value>, active: Value, l: Loaded)
    requires |specials| == SPECIAL_OBJECTS_COUNT
  {
    var all, d := SavedObjs(objs, base, classTable, specials), l.base - base;
    && GraphMoved(all, base, d, RootsOf(classTable, specials, active) + NewArrays(objs, base, classTable, specials))
    && (forall a :: a in RootsOf(classTable, specials, active) ==> Shift(d, Ptr(a)).addr == a + d)
  }

  /** Where the class list and the special objects array go. */
  ghost function NewArrays(objs: seq<Obj>, base: Addr, classTable: seq<Value>, specials: seq<Value>): set<Addr>
    requires |specials| == SPECIAL_OBJECTS_COUNT
  {
    var cl := ArrayObj(classTable);
    {base + Size(objs) + cl.Extra(), base + Size(objs + [cl]) + ArrayObj(specials).Extra()}
  }

  lemma SavedClosed(objs: seq<Obj>, base: Addr, classTable: seq<Value>, specials: seq<Value>, active: Value)
    requires |specials| == SPECIAL_OBJECTS_COUNT && LiveClosed(objs, base, RootsOf(classTable, specials, active))
    ensures LiveClosed(SavedObjs(objs, base, classTable, specials), base,
                       RootsOf(classTable, specials, active) + NewArrays(objs, base, classTable, specials))
  {
    hide LiveClosed, Size;
    var cl, starts := ArrayObj(classTable), RootsOf(classTable, specials, active);
    var listed := base + Size(objs) + cl.Extra();
    var sp := ArrayObj(specials[SPECIAL_CLASS_LIST := Ptr(listed)]);
    ClosedSnoc(objs, base, starts, cl);
    ClosedSnoc(objs + [cl], base, starts + {listed}, sp);
    assert sp.Extra() == ArrayObj(specials).Extra();
    assert starts + {listed} + {base + Size(objs + [cl]) + sp.Extra()} == starts + NewArrays(objs, base, classTable, specials);
  }

  lemma GraphReloaded(objs: seq<Obj>, base: Addr, classTable: seq<Value>, specials: seq<Value>, active: Value, l: Loaded)
    requires Saveable(objs, base, classTable, specials) && base + Size(objs) + 1 < W61
    requires LiveClosed(objs, base, RootsOf(classTable, specials, active))
    requires l.base + Size(SavedObjs(objs, base, classTable, specials)) < W61
    ensures SameGraph(objs, base, classTable, specials, active, l)
  {
    hide ObjsOk, Heads, SitesKnown, Shaped, Size, SavedObjs, LiveClosed, GraphMoved, RootsOf, NewArrays;
    SavedShape(objs, base, classTable, specials);
    SavedClosed(objs, base, classTable, specials, active);
    var all, d := SavedObjs(objs, base, classTable, specials), l.base - base;
    var starts := RootsOf(classTable, specials, active) + NewArrays(objs, base, classTable, specials);
    GraphMoves(all, base, d, starts);
    RelocatedHeads(all, base, d);
    forall a | a in RootsOf(classTable, specials, active)
      ensures Shift(d, Ptr(a)).addr == a + d
    {
      RootIsHead(all, base, starts, a);
      HeadShifted(all, base, d, a);
    }
  }

  lemma RootIsHead(objs: seq<Obj>, base: Addr, starts: set<Addr>, a: Addr)
    requires LiveClosed(objs, base, starts) && a in starts
    ensures a in Heads(objs, base)
  {
    ReachableStart(HeapOf(objs, base), starts, a);
  }

  lemma SameRoots(objs: seq<Obj>, base: Addr, classTable: seq<Value>, specials: seq<Value>, active: Value, s: Saved, l: Loaded)
    requires Saveable(objs, base, classTable, specials) && base + Size(objs) + 1 < W61
    requires SavedOk(s) && LoadedOk(s, l) && s.base == base && s.objs == SavedObjs(objs, base, classTable, specials)
    requires s.classList == |objs| && s.specials == |objs| + 1 && active == Ptr(Heads(s.objs, base)[s.active])
    requires l.base + Size(s.objs) < W61
    ensures Reloaded(objs, base, classTable, specials, active, l)
  {
    hide Layout, ObjsOk, SitesKnown, Shaped, Size, SiteTables, Symbols, RelocatedTo, Heads;
    HeadsShift(s.objs, base, 0);
    HeadsWithin(s.objs, 0, s.active);
    ListPlace(objs, base, classTable, specials);
  }

  /** The class list lies inside the saved objects. */
  lemma ListPlace(objs: seq<Obj>, base: Addr, classTable: seq<Value>, specials: seq<Value>)
    requires Saveable(objs, base, classTable, specials)
    ensures Size(objs) + ArrayObj(classTable).Extra() < Size(SavedObjs(objs, base, classTable, specials))
  {
    WriteSizes(objs, base, classTable, specials, Ptr(0));
  }
}
