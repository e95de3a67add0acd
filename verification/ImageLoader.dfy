/** The image writer and the loader, and the round trip they make. */
module ImageLoader {
  import opened ObjectMemory
  import opened ObjectFormat
  import opened ImageRelocation
  import opened ByteOrder
  import opened ImageFile

  function ArrayObj(values: seq<Value>): Obj {
    Obj(CLASS_ARRAY, 0, GcBits(false, false, false, 0, false), Slots(false, values))
  }

  ghost predicate ValuesOk(values: seq<Value>) {
    |values| < CLASS_UNIT && forall i :: 0 <= i < |values| ==> ValueOk(values[i])
  }

  lemma ArrayObjOk(values: seq<Value>)
    requires ValuesOk(values)
    ensures ObjOk(ArrayObj(values))
  {
  }

  lemma SnocOk(objs: seq<Obj>, o: Obj)
    requires ObjsOk(objs) && ObjOk(o)
    ensures ObjsOk(objs + [o]) && Layout(objs + [o]) == Layout(objs) + EncodeObj(o) && Size(objs + [o]) == Size(objs) + o.Footprint()
    ensures forall at: nat :: Heads(objs + [o], at) == Heads(objs, at) + [at + Size(objs) + o.Extra()]
    ensures |Layout(objs)| == Size(objs)
  {
    hide EncodeObj, ObjOk;
    LayoutAppend(objs, [o]);
    LayoutSize(objs);
    assert Layout([o]) == EncodeObj(o) + Layout([]);
    assert Size([o]) == o.Footprint() + Size([]);
    forall at: nat
      ensures Heads(objs + [o], at) == Heads(objs, at) + [at + Size(objs) + o.Extra()]
    {
      HeadsAppend(objs, [o], at);
      assert Heads([o], at + Size(objs)) == [at + Size(objs) + o.Extra()] + Heads([], at + Size(objs) + o.Footprint());
    }
  }

  /** Allocate an array at the top of old space and fill it. */
  method AllocArray(words: seq<nat>, capacity: nat, values: seq<Value>, ghost objs: seq<Obj>)
    returns (r: Result<seq<nat>>, head: nat)
    requires ObjsOk(objs) && words == Layout(objs) && ValuesOk(values)
    ensures r.Ok? <==> Size(objs) + ArrayObj(values).Footprint() <= capacity
    ensures r.Err? ==> r.error == OutOfMemory
    ensures ObjOk(ArrayObj(values)) && ObjsOk(objs + [ArrayObj(values)])
    ensures r.Ok? ==> r.value == Layout(objs + [ArrayObj(values)])
    ensures head == Heads(objs + [ArrayObj(values)], 0)[|objs|]
  {
    hide Heads, ObjOk, ObjsOk, Layout, Header, EncodeValue;
    var o := ArrayObj(values);
    ArrayObjOk(values);
    SnocOk(objs, o);
    head := |words| + o.Extra();
    if |words| + o.Footprint() > capacity {
      return Err(OutOfMemory), head;
    }
    var out := words;
    if o.Extra() == 1 {
      out := out + [|values|];
    }
    out := out + [Header(o)];
    ghost var start := out;
    for i := 0 to |values|
      invariant out == start + BodyWords(o)[..i]
    {
      out := out + [EncodeValue(values[i])];
      assert BodyWords(o)[..i + 1] == BodyWords(o)[..i] + [BodyWords(o)[i]];
    }
    assert BodyWords(o)[..|values|] == BodyWords(o);
    r := Ok(out);
  }

  /** Old space as it is saved: the class list and the special objects array are added at the end. */
  ghost function SavedObjs(objs: seq<Obj>, base: Addr, classTable: seq<Value>, specials: seq<Value>): seq<Obj>
    requires |specials| == SPECIAL_OBJECTS_COUNT
  {
    var cl := ArrayObj(classTable);
    objs + [cl] + [ArrayObj(specials[SPECIAL_CLASS_LIST := Ptr(base + Size(objs) + cl.Extra())])]
  }

  /** Old space can be written and read back: every object fits its header, methods and blocks name their send sites. What
      the program cannot reach may hold any words. */
  ghost predicate Saveable(objs: seq<Obj>, base: Addr, classTable: seq<Value>, specials: seq<Value>) {
    && ObjsOk(objs) && Shaped(objs) && SitesKnown(objs, base)
    && ValuesOk(classTable) && ValuesOk(specials) && |specials| == SPECIAL_OBJECTS_COUNT
  }

  /** An array at the end changes nothing for the send sites. */
  lemma SitesSnoc(objs: seq<Obj>, base: Addr, o: Obj)
    requires SitesKnown(objs, base) && !IsCode(o.classIndex)
    ensures SitesKnown(objs + [o], base)
  {
    HeadsAppend(objs, [o], base);
    hide Heads;
    var all := objs + [o];
    forall k | 0 <= k < |all| && IsCode(all[k].classIndex) && METHOD_SEND_SITES < |all[k].Refs()| && all[k].Refs()[METHOD_SEND_SITES].Ptr?
      ensures all[k].Refs()[METHOD_SEND_SITES].addr in Heads(all, base)
    {
      assert k < |objs| && all[k] == objs[k];
    }
  }

  lemma ShapedSnoc(objs: seq<Obj>, o: Obj)
    requires Shaped(objs) && o.classIndex == CLASS_ARRAY
    ensures Shaped(objs + [o])
  {
  }

  lemma SavedShape(objs: seq<Obj>, base: Addr, classTable: seq<Value>, specials: seq<Value>)
    requires Saveable(objs, base, classTable, specials) && base + Size(objs) + 1 < W61
    ensures var cl := ArrayObj(classTable); var sp := specials[SPECIAL_CLASS_LIST := Ptr(base + Size(objs) + cl.Extra())];
      && ValuesOk(sp) && ObjOk(cl) && ObjsOk(objs + [cl])
      && ObjsOk(SavedObjs(objs, base, classTable, specials)) && Shaped(SavedObjs(objs, base, classTable, specials))
      && SitesKnown(SavedObjs(objs, base, classTable, specials), base)
  {
    hide ObjOk, Layout, EncodeObj, Heads, SitesKnown, Shaped, Size, ObjsOk;
    var cl := ArrayObj(classTable);
    var sp := specials[SPECIAL_CLASS_LIST := Ptr(base + Size(objs) + cl.Extra())];
    ArrayObjOk(classTable);
    SnocOk(objs, cl);
    ArrayObjOk(sp);
    SnocOk(objs + [cl], ArrayObj(sp));
    ShapedSnoc(objs, cl);
    ShapedSnoc(objs + [cl], ArrayObj(sp));
    SitesSnoc(objs, base, cl);
    SitesSnoc(objs + [cl], base, ArrayObj(sp));
  }

  /** Append the bytes of a number. */
  method Put(out: seq<Byte>, w: nat, n: nat) returns (r: seq<Byte>)
    ensures r == out + LE(w, n)
  {
    r := out;
    var rest := w;
    ghost var done: nat := 0;
    for i := 0 to n
      invariant out + LE(w, n) == r + LE(rest, n - i)
    {
      r := r + [rest % 256];
      rest := rest / 256;
    }
  }

  /** Write the image: fails when old space cannot hold the two arrays, or when the active process is not in old space. */
  method WriteImage(words: seq<nat>, base: Addr, capacity: nat, classTable: seq<Value>, specials: seq<Value>, active: Value,
                    ghost objs: seq<Obj>)
    returns (r: Result<seq<Byte>>, ghost s: Saved)
    requires Saveable(objs, base, classTable, specials) && words == Layout(objs) && base + capacity + 2 < W61
    requires active.Ptr? && base <= active.addr < base + capacity ==> active.addr in Heads(objs, base)
    ensures var all := SavedObjs(objs, base, classTable, specials);
      && (r == Err(OutOfMemory) <==> Size(all) > capacity)
      && (r == Err(ActiveNotInOldSpace) <==> Size(all) <= capacity && !(active.Ptr? && base <= active.addr < base + capacity))
      && (r.Err? ==> r.error == OutOfMemory || r.error == ActiveNotInOldSpace)
      && (r.Ok? ==>
            && SavedOk(s) && r.value == ImageBytes(s) && s.base == base && s.objs == all
            && s.classList == |objs| && s.specials == |objs| + 1 && active == Ptr(Heads(all, base)[s.active]))
  {
    hide ObjOk, Layout, EncodeObj, ObjsOk, Heads, SitesKnown, Shaped, Size, LE, SavedObjs, ValuesOk, SavedOk;
    s := Saved(base, [], 0, 0, 0);
    ghost var cl := ArrayObj(classTable);
    ghost var listed := Ptr(base + Size(objs) + cl.Extra());
    WriteSizes(objs, base, classTable, specials, listed);
    ClassListHead(objs, cl);
    var withClasses, head := AllocArray(words, capacity, classTable, objs);
    if withClasses.Err? {
      return Err(OutOfMemory), s;
    }
    SavedShape(objs, base, classTable, specials);
    SpecialsHead(objs, base, classTable, specials);
    var all, spHead := AllocArray(withClasses.value, capacity, specials[SPECIAL_CLASS_LIST := Ptr(base + head)], objs + [cl]);
    if all.Err? {
      return Err(OutOfMemory), s;
    }
    if !active.Ptr? || !(base <= active.addr < base + capacity) {
      return Err(ActiveNotInOldSpace), s;
    }
    s := SavedState(objs, base, classTable, specials, active, capacity);
    LayoutSize(s.objs);
    var header := WriteHeader(8 * base, 8 * |all.value|, 8 * spHead, 8 * head, 8 * (active.addr - base));
    var dump := WriteWords(all.value);
    r := Ok(header + dump);
  }

  /** Where the class list goes. */
  lemma ClassListHead(objs: seq<Obj>, cl: Obj)
    ensures |Heads(objs + [cl], 0)| == |objs| + 1 && Heads(objs + [cl], 0)[|objs|] == Size(objs) + cl.Extra()
  {
    HeadsAppend(objs, [cl], 0);
  }

  /** The class list and the special objects array among the saved objects. */
  lemma SpecialsHead(objs: seq<Obj>, base: Addr, classTable: seq<Value>, specials: seq<Value>)
    requires |specials| == SPECIAL_OBJECTS_COUNT
    ensures var cl := ArrayObj(classTable); var sp := ArrayObj(specials[SPECIAL_CLASS_LIST := Ptr(base + Size(objs) + cl.Extra())]);
      var all := SavedObjs(objs, base, classTable, specials);
      && all == objs + [cl] + [sp] && |all| == |objs| + 2
      && Heads(all, 0)[|objs|] == Heads(objs + [cl], 0)[|objs|]
  {
    var cl := ArrayObj(classTable);
    HeadsAppend(objs + [cl], [ArrayObj(specials[SPECIAL_CLASS_LIST := Ptr(base + Size(objs) + cl.Extra())])], 0);
  }

  method WriteWords(words: seq<nat>) returns (out: seq<Byte>)
    ensures out == WordBytes(words)
  {
    hide LE;
    out := [];
    assert words[0..] == words;
    for i := 0 to |words|
      invariant out + WordBytes(words[i..]) == WordBytes(words)
    {
      assert words[i..][1..] == words[i + 1..];
      out := Put(out, words[i], 8);
    }
    assert words[|words|..] == [];
  }

  method WriteHeader(base: nat, size: nat, sp: nat, cl: nat, active: nat) returns (out: seq<Byte>)
    ensures out == HeaderBytes(base, size, sp, cl, active)
  {
    hide LE;
    out := Put([], IMG_MAGIC, 4);
    out := Put(out, 1, 4);
    out := Put(out, 0, 8);
    out := Put(out, base, 8);
    out := Put(out, size, 8);
    out := Put(out, sp, 8);
    out := Put(out, cl, 8);
    out := Put(out, active, 8);
    out := Put(out, 0, 8);
  }

  lemma WriteSizes(objs: seq<Obj>, base: Addr, classTable: seq<Value>, specials: seq<Value>, v: Value)
    requires Saveable(objs, base, classTable, specials)
    ensures ObjsOk(objs) && ValuesOk(classTable)
    ensures var sp := ArrayObj(specials);
      Size(SavedObjs(objs, base, classTable, specials)) == Size(objs) + ArrayObj(classTable).Footprint() + sp.Footprint()
    ensures ArrayObj(classTable).Footprint() >= 1 && ArrayObj(specials).Footprint() >= 1
    ensures ArrayObj(specials[SPECIAL_CLASS_LIST := v]).Footprint() == ArrayObj(specials).Footprint()
    ensures Size(objs + [ArrayObj(classTable)]) == Size(objs) + ArrayObj(classTable).Footprint()
  {
    hide ObjOk;
    SizeSnoc(objs, ArrayObj(classTable));
    var cl := ArrayObj(classTable);
    SizeSnoc(objs + [cl], ArrayObj(specials[SPECIAL_CLASS_LIST := Ptr(base + Size(objs) + cl.Extra())]));
  }

  lemma {:induction false} SizeSnoc(objs: seq<Obj>, o: Obj)
    ensures Size(objs + [o]) == Size(objs) + o.Footprint()
  {
    if objs == [] {
      assert [o][1..] == [];
    } else {
      assert (objs + [o])[1..] == objs[1..] + [o];
      SizeSnoc(objs[1..], o);
    }
  }

  lemma SavedState(objs: seq<Obj>, base: Addr, classTable: seq<Value>, specials: seq<Value>, active: Value, capacity: nat)
    returns (s: Saved)
    requires Saveable(objs, base, classTable, specials) && base + capacity + 2 < W61
    requires Size(SavedObjs(objs, base, classTable, specials)) <= capacity
    requires active.Ptr? && active.addr in Heads(objs, base)
    ensures SavedOk(s) && s.base == base && s.objs == SavedObjs(objs, base, classTable, specials)
    ensures s.classList == |objs| && s.specials == |objs| + 1 && active == Ptr(Heads(s.objs, base)[s.active])
    ensures active.addr - base == Heads(s.objs, 0)[s.active]
  {
    hide ObjOk, ObjsOk;
    WriteSizes(objs, base, classTable, specials, active);
    SavedShape(objs, base, classTable, specials);
    var k :| 0 <= k < |objs| && Heads(objs, base)[k] == active.addr;
    var all := SavedObjs(objs, base, classTable, specials);
    s := Saved(base, all, |objs| + 1, |objs|, k);
    HeadsShift(all, 0, base);
    assert all == objs + all[|objs|..];
    HeadsAppend(objs, all[|objs|..], base);
    assert Heads(all, base)[k] == Heads(objs, base)[k];
  }

  // ---------- loading ----------

  /** A loaded image. */
  datatype Loaded = Loaded(
    base: Addr,
    words: seq<nat>,
    specials: seq<Value>,
    classTable: seq<Value>,
    registry: seq<Value>,
    symbols: seq<Symbol>,
    active: Value)

  /** The loaded heap holds the saved objects at the new base, every pointer shifted by the same distance; roots, active
      process, send-site registry and symbols denote the same objects. */
  ghost predicate LoadedOk(s: Saved, l: Loaded)
    requires SavedOk(s)
  {
    var d := l.base - s.base;
    var objs := RelocatedTo(d, s.objs, |s.objs|);
    && ObjsOk(objs) && l.words == Layout(objs)
    && l.specials == ShiftAll(d, if |s.objs[s.specials].Refs()| <= SPECIAL_OBJECTS_COUNT then s.objs[s.specials].Refs()
                                 else s.objs[s.specials].Refs()[..SPECIAL_OBJECTS_COUNT])
    && l.classTable == ShiftAll(d, s.objs[s.classList].Refs())
    && l.registry == ShiftAll(d, SiteTables(s.objs, s.base, |s.objs|))
    && l.symbols == ShiftSymbols(d, Symbols(s.objs, s.base, |s.objs|))
    && l.active == Ptr(l.base + Heads(s.objs, 0)[s.active])
  }

  /** The words of the saved old space. */
  method ReadWords(data: seq<Byte>, n: nat, ghost words: seq<nat>) returns (a: array<nat>)
    requires |data| >= IMG_HEADER_SIZE + 8 * n && |words| == n && WordBytes(words) == data[IMG_HEADER_SIZE..IMG_HEADER_SIZE + 8 * n]
    requires forall k :: 0 <= k < n ==> words[k] < W64
    ensures fresh(a) && a[..] == words
  {
    hide WordBytes, FromLE;
    a := new nat[n];
    for i := 0 to n
      invariant forall k :: 0 <= k < i ==> a[k] == words[k]
    {
      a[i] := Read(data, IMG_HEADER_SIZE + 8 * i, 8);
      WordsReadBack(words, i);
      SlicePart(data, IMG_HEADER_SIZE, 8 * n, 8 * i);
    }
  }

  lemma SlicePart(data: seq<Byte>, from: nat, size: nat, at: nat)
    requires from + size <= |data| && at + 8 <= size
    ensures data[from..from + size][at..at + 8] == data[from + at..from + at + 8]
  {
    var a, b := data[from..from + size][at..at + 8], data[from + at..from + at + 8];
    assert forall k :: 0 <= k < 8 ==> a[k] == data[from + at + k] && b[k] == data[from + at + k];
  }

  /** The headers in address order. */
  method WalkRegion(a: array<nat>) returns (heads: seq<nat>)
    ensures heads == WalkFrom(a[..], 0)
  {
    hide HeaderFrom, StorageStart, StorageSize;
    heads := [];
    var p := 0;
    while p < a.Length
      invariant heads + WalkFrom(a[..], p) == WalkFrom(a[..], 0)
      decreases a.Length - p
    {
      var h := HeaderFrom(a[..], p);
      if h >= a.Length {
        return;
      }
      WalkForward(a[..], p);
      heads := heads + [h];
      p := StorageStart(a[..], h) + StorageSize(a[..], h);
    }
  }

  lemma WalkForward(words: seq<nat>, p: nat)
    requires p < |words| && HeaderFrom(words, p) < |words|
    ensures StorageStart(words, HeaderFrom(words, p)) + StorageSize(words, HeaderFrom(words, p)) > p
  {
  }

  /** Clear the header's bits and shift the pointer slots of the object at `h`. */
  method RelocateInPlace(a: array<nat>, h: nat, delta: int)
    requires h < a.Length && h + SlotsAt(a[..], h) < a.Length
    modifies a
    ensures a[..] == RelocateAt(old(a[..]), h, delta)
  {
    ghost var words := a[..];
    var w, n := a[h], SlotsAt(a[..], h);
    hide SlotsAt, IsBytes, RelocateWord, ClearBits;
    a[h] := ClearBits(w);
    if !IsBytes(w) {
      for i := 0 to n
        invariant forall j :: 0 <= j < a.Length ==>
          a[j] == if j == h then ClearBits(w) else if h < j <= h + i then RelocateWord(delta, words[j]) else words[j]
      {
        a[h + 1 + i] := RelocateWord(delta, a[h + 1 + i]);
      }
    }
  }

  /** The values in the slots of the object at `h`, at most `limit`. */
  method ReadSlots(a: array<nat>, h: nat, limit: nat, ghost o: Obj, ghost pre: seq<nat>, ghost post: seq<nat>)
    returns (values: seq<Value>)
    requires ObjOk(o) && o.body.Slots? && a[..] == pre + EncodeObj(o) + post && h == |pre| + o.Extra()
    ensures values == if |o.Refs()| <= limit then o.Refs() else o.Refs()[..limit]
  {
    ReadsBack(pre, o, post);
    hide EncodeObj, Header, SlotsAt, IsBytes, StorageStart, StorageSize, DecodeValue;
    var n := SlotsAt(a[..], h);
    if n > limit {
      n := limit;
    }
    values := [];
    for i := 0 to n
      invariant values == o.Refs()[..i]
    {
      assert a[..][h + 1 + i] == BodyWords(o)[i];
      ValueRoundTrip(o.Refs()[i]);
      values := values + [DecodeValue(a[h + 1 + i])];
    }
  }

  // ---------- the relocation pass ----------

  /** The pass has the objects before `k` behind it. */
  ghost function Stage(d: int, objs: seq<Obj>, k: nat): seq<nat>
    requires ObjsOk(objs)
  {
    RelocatedToOk(d, objs, k);
    Layout(RelocatedTo(d, objs, k))
  }

  /** The object at index `j` in some stage of the pass. */
  lemma StageObject(d: int, objs: seq<Obj>, k: nat, j: nat) returns (pre: seq<nat>, post: seq<nat>)
    requires ObjsOk(objs) && j < |objs|
    ensures var o := RelocatedTo(d, objs, k)[j];
      && ObjOk(o) && Stage(d, objs, k) == pre + EncodeObj(o) + post && Heads(objs, 0)[j] == |pre| + o.Extra()
  {
    hide EncodeObj, ObjOk, Layout;
    RelocatedToOk(d, objs, k);
    var all := RelocatedTo(d, objs, k);
    LayoutSplit(all, j);
    pre, post := Layout(all[..j]), Layout(all[j + 1..]);
  }

  /** What can be read at a head, in any stage. */
  lemma StageReads(d: int, objs: seq<Obj>, k: nat, j: nat)
    requires ObjsOk(objs) && j < |objs|
    ensures var h := Heads(objs, 0)[j]; var words := Stage(d, objs, k); var o := RelocatedTo(d, objs, k)[j];
      && ObjOk(o) && o.NumSlots() == objs[j].NumSlots()
      && h < |words| && SlotsAt(words, h) == objs[j].NumSlots() && h + SlotsAt(words, h) < |words|
      && ClassOf(words[h]) == objs[j].classIndex && FormatOf(words[h]) == Format(objs[j])
      && (IsBytes(words[h]) <==> objs[j].body.Bytes?)
      && forall i :: 0 <= i < o.NumSlots() ==> words[h + 1 + i] == BodyWords(o)[i]
  {
    hide EncodeObj, ObjOk, Header, Stage, ClassOf, FormatOf, HashOf, FieldOf, GcOf, SlotsAt, Relocated, BodyWords;
    var pre, post := StageObject(d, objs, k, j);
    var o := RelocatedTo(d, objs, k)[j];
    ReadsBack(pre, o, post);
    HeaderReads(o);
    SameKind(d, objs[j]);
    FormatSame(d, objs[j]);
  }

  /** Looking at the format of the object a send-sites slot refers to tells whether it is a table. */
  lemma TableTest(s: Saved, d: int, k: nat, stage: nat)
    requires SavedOk(s) && Fits(s.objs, s.base, d) && k < |s.objs| && IsCode(s.objs[k].classIndex)
    ensures var objs' := RelocatedTo(d, s.objs, |s.objs|); var words := Stage(d, s.objs, stage);
      && Shaped(objs') && SitesKnown(objs', s.base + d) && METHOD_SEND_SITES < |objs'[k].Refs()|
      && var v := objs'[k].Refs()[METHOD_SEND_SITES];
         v.Ptr? ==>
           && s.base + d <= v.addr && v.addr - (s.base + d) < |words|
           && (FormatOf(words[v.addr - (s.base + d)]) == FMT_PTRS <==> IsTable(objs', s.base + d, v))
  {
    hide Stage, ObjectAt, Heads, RelocatedTo, Relocated, ClassOf, FormatOf, SlotsAt, ObjsOk, BodyWords;
    RelocatedShape(s.objs, s.base, d);
    var objs', at := RelocatedTo(d, s.objs, |s.objs|), s.base + d;
    assert IsCode(objs'[k].classIndex) by {
      RelocatedIs(s.objs, d, k);
      SameKind(d, s.objs[k]);
    }
    var v := objs'[k].Refs()[METHOD_SEND_SITES];
    if v.Ptr? {
      assert v.addr in Heads(objs', at);
      var j :| 0 <= j < |objs'| && Heads(objs', at)[j] == v.addr;
      ObjectAtHead(objs', at, j);
      HeadsShift(s.objs, s.base, 0);
      StageReads(d, s.objs, stage, j);
      RelocatedIs(s.objs, d, j);
      FormatSame(d, s.objs[j]);
    }
  }

  /** What the pass reads at `h`, the head of the relocated object `k`. */
  ghost predicate Collectable(objs: seq<Obj>, at: Addr, k: nat, words: seq<nat>, h: nat)
    requires k < |objs|
  {
    var o := objs[k];
    && Shaped(objs) && SitesKnown(objs, at) && at + h == Heads(objs, at)[k]
    && h + o.NumSlots() < |words| && ClassOf(words[h]) == o.classIndex && FormatOf(words[h]) == Format(o)
    && SlotsAt(words, h) == o.NumSlots()
    && (IsCode(o.classIndex) ==>
          && METHOD_SEND_SITES < o.NumSlots()
          && CollectsTable(objs, at, words, words[h + 1 + METHOD_SEND_SITES], o.Refs()[METHOD_SEND_SITES]))
    && (o.classIndex == CLASS_SYMBOL ==>
          words[h + 1..h + 1 + o.NumSlots()] == o.body.words && FormatOf(words[h]) == FMT_BYTES_BASE + o.body.pad)
  }

  ghost predicate CollectsTable(objs: seq<Obj>, at: Addr, words: seq<nat>, w: nat, v: Value)
    requires v.Ptr? ==> v.addr in Heads(objs, at)
  {
    && (IsPtr(w) <==> v.Ptr?)
    && (v.Ptr? ==>
          && w / 8 == v.addr && at <= v.addr && v.addr - at < |words|
          && (FormatOf(words[v.addr - at]) == FMT_PTRS <==> IsTable(objs, at, v)))
  }

  lemma CollectReads(s: Saved, d: int, k: nat)
    requires SavedOk(s) && Fits(s.objs, s.base, d) && k < |s.objs|
    ensures Collectable(RelocatedTo(d, s.objs, |s.objs|), s.base + d, k, Stage(d, s.objs, k + 1), Heads(s.objs, 0)[k])
  {
    hide Stage, ClassOf, FormatOf, Relocated, IsTable, Heads, ObjsOk, EncodeValue, SlotsAt, ObjOk;
    StageReads(d, s.objs, k + 1, k);
    RelocatedIs(s.objs, d, k);
    SameKind(d, s.objs[k]);
    FormatSame(d, s.objs[k]);
    RelocatedShape(s.objs, s.base, d);
    HeadsShift(s.objs, s.base, 0);
    var o := Relocated(d, s.objs[k]);
    assert RelocatedTo(d, s.objs, k + 1)[k] == o;
    if IsCode(o.classIndex) {
      TableTest(s, d, k, k + 1);
      SlotRead(o, METHOD_SEND_SITES);
    } else if o.classIndex == CLASS_SYMBOL {
      SymbolBody(o, Stage(d, s.objs, k + 1), Heads(s.objs, 0)[k]);
    }
  }

  /** Collect what the object at head `k` contributes to the registries. */
  method Collect(a: array<nat>, h: nat, newBase: Addr, registry: seq<Value>, symbols: seq<Symbol>, ghost objs': seq<Obj>, ghost k: nat)
    returns (registry': seq<Value>, symbols': seq<Symbol>)
    requires k < |objs'| && Shaped(objs') && SitesKnown(objs', newBase) && Collectable(objs', newBase, k, a[..], h)
    requires registry == SiteTables(objs', newBase, k) && symbols == Symbols(objs', newBase, k)
    ensures registry' == SiteTables(objs', newBase, k + 1) && symbols' == Symbols(objs', newBase, k + 1)
  {
    hide ClassOf, FormatOf, IsTable, Heads, SitesKnown, SlotsAt, SiteTables, Symbols;
    registry', symbols' := registry, symbols;
    ghost var o := objs'[k];
    CollectedNext(objs', newBase, k);
    var c := ClassOf(a[h]);
    assert c == o.classIndex && a[h] == a[..][h];
    if IsCode(c) {
      var sites := a[h + 1 + METHOD_SEND_SITES];
      assert sites == a[..][h + 1 + METHOD_SEND_SITES];
      assert IsPtr(sites) ==> a[sites / 8 - newBase] == a[..][sites / 8 - newBase];
      if IsPtr(sites) && FormatOf(a[sites / 8 - newBase]) == FMT_PTRS {
        registry' := registry + [Ptr(sites / 8)];
        assert o.Refs()[METHOD_SEND_SITES] == Ptr(sites / 8);
        assert IsTable(objs', newBase, o.Refs()[METHOD_SEND_SITES]);
      } else {
        assert !o.Refs()[METHOD_SEND_SITES].Ptr? || !IsTable(objs', newBase, o.Refs()[METHOD_SEND_SITES]);
      }
    } else if c == CLASS_SYMBOL {
      var n := SlotsAt(a[..], h);
      symbols' := symbols + [Symbol(FormatOf(a[h]) - FMT_BYTES_BASE, a[h + 1..h + 1 + n], newBase + h)];
    }
  }

  /** What one more object adds to the registries. */
  lemma CollectedNext(objs: seq<Obj>, base: Addr, k: nat)
    requires k < |objs| && Shaped(objs) && SitesKnown(objs, base)
    ensures IsCode(objs[k].classIndex) && objs[k].Refs()[METHOD_SEND_SITES].Ptr? ==>
      objs[k].Refs()[METHOD_SEND_SITES].addr in Heads(objs, base)
    ensures var o := objs[k]; var tables := SiteTables(objs, base, k);
      SiteTables(objs, base, k + 1) ==
      if IsCode(o.classIndex) && o.Refs()[METHOD_SEND_SITES].Ptr? && IsTable(objs, base, o.Refs()[METHOD_SEND_SITES])
      then tables + [o.Refs()[METHOD_SEND_SITES]] else tables
    ensures var o := objs[k]; var symbols := Symbols(objs, base, k);
      Symbols(objs, base, k + 1) ==
      if o.classIndex == CLASS_SYMBOL then symbols + [Symbol(o.body.pad, o.body.words, Heads(objs, base)[k])] else symbols
  {
    hide Heads, ObjectAt;
    assert SiteTables(objs, base, k) + [] == SiteTables(objs, base, k);
    assert Symbols(objs, base, k) + [] == Symbols(objs, base, k);
  }

  lemma SlotRead(o: Obj, i: nat)
    requires ObjOk(o) && o.body.Slots? && i < o.NumSlots()
    ensures var w := BodyWords(o)[i]; (IsPtr(w) <==> o.Refs()[i].Ptr?) && (o.Refs()[i].Ptr? ==> w / 8 == o.Refs()[i].addr)
  {
    ValueRoundTrip(o.Refs()[i]);
  }

  lemma SymbolBody(o: Obj, words: seq<nat>, h: nat)
    requires o.body.Bytes? && h + o.NumSlots() < |words| && ObjOk(o)
    requires forall i :: 0 <= i < o.NumSlots() ==> words[h + 1 + i] == BodyWords(o)[i]
    ensures words[h + 1..h + 1 + o.NumSlots()] == o.body.words && Format(o) - FMT_BYTES_BASE == o.body.pad
  {
    var part := words[h + 1..h + 1 + o.NumSlots()];
    forall i | 0 <= i < o.NumSlots()
      ensures part[i] == o.body.words[i]
    {
      assert part[i] == words[h + 1 + i] == BodyWords(o)[i];
    }
  }

  /** One linear pass: relocate every object and collect send-site tables and symbols. */
  method RelocateAll(a: array<nat>, heads: seq<nat>, newBase: Addr, delta: int, ghost s: Saved, ghost d: int)
    returns (registry: seq<Value>, symbols: seq<Symbol>)
    requires SavedOk(s) && Fits(s.objs, s.base, d) && newBase == s.base + d && delta == 8 * d
    requires a[..] == Layout(s.objs) && heads == Heads(s.objs, 0)
    modifies a
    ensures a[..] == Stage(d, s.objs, |s.objs|)
    ensures registry == ShiftAll(d, SiteTables(s.objs, s.base, |s.objs|))
    ensures symbols == ShiftSymbols(d, Symbols(s.objs, s.base, |s.objs|))
  {
    hide Layout, ObjsOk, Relocated, Shaped, SitesKnown, SiteTables, Symbols, RelocateAt, SlotsAt, Collectable;
    registry, symbols := [], [];
    RelocatedShape(s.objs, s.base, d);
    assert RelocatedTo(d, s.objs, 0) == s.objs;
    ghost var objs' := RelocatedTo(d, s.objs, |s.objs|);
    NothingCollected(objs', newBase);
    for k := 0 to |heads|
      invariant a[..] == Stage(d, s.objs, k)
      invariant registry == SiteTables(objs', newBase, k) && symbols == Symbols(objs', newBase, k)
    {
      StageReads(d, s.objs, k, k);
      RelocateInPlace(a, heads[k], delta);
      RelocateNext(d, s.objs, k);
      CollectReads(s, d, k);
      registry, symbols := Collect(a, heads[k], newBase, registry, symbols, objs', k);
    }
    SiteTablesShift(s.objs, s.base, d, |s.objs|);
    SymbolsShift(s.objs, s.base, d, |s.objs|);
  }

  lemma NothingCollected(objs: seq<Obj>, base: Addr)
    requires Shaped(objs) && SitesKnown(objs, base)
    ensures SiteTables(objs, base, 0) == [] && Symbols(objs, base, 0) == []
  {
  }

  /** Load an image: refuse a bad file, else read old space, relocate it and rebuild the registries. */
  method LoadImage(data: seq<Byte>, newBase: Addr, ghost s: Saved) returns (r: Result<Loaded>)
    requires HeaderError(data) == [] ==>
      SavedOk(s) && ImageBytes(s) <= data && newBase + Size(s.objs) < W61
    ensures HeaderError(data) != [] ==> r == Err(HeaderError(data)[0])
    ensures HeaderError(data) == [] ==> r.Ok? && r.value.base == newBase && LoadedOk(s, r.value)
  {
    hide HeaderBytes, WordBytes, FromLE, LoadedOk, Layout, ImageBytes, ObjsOk, Shaped, SitesKnown, RelocatedTo, SiteTables, Symbols,
      SlotsAt, ShiftAll, ShiftSymbols, Stage, WalkFrom;
    if |data| < IMG_HEADER_SIZE || Read(data, 0, 4) != IMG_MAGIC {
      return Err(NotAnImage);
    }
    if Read(data, 4, 4) != 1 {
      return Err(UnsupportedVersion);
    }
    var base, size, sp, cl, active := Read(data, 16, 8), Read(data, 24, 8), Read(data, 32, 8), Read(data, 40, 8), Read(data, 48, 8);
    if |data| < IMG_HEADER_SIZE + size {
      return Err(Truncated);
    }
    ImageFields(s, data);
    hide Read;
    ghost var d := newBase - s.base;
    var a := ReadWords(data, size / 8, Layout(s.objs));
    var heads := WalkRegion(a);
    WalkAll(s);
    var registry, symbols := RelocateAll(a, heads, newBase, 8 * newBase - base, s, d);
    var specials := ReadRoots(a, sp / 8, SPECIAL_OBJECTS_COUNT, s, d, s.specials);
    RootArray(s, d, s.classList);
    var classTable := ReadRoots(a, cl / 8, SlotsAt(a[..], cl / 8), s, d, s.classList);
    r := Ok(Loaded(newBase, a[..], specials, classTable, registry, symbols, Ptr(newBase + active / 8)));
    LoadedNow(s, r.value);
  }

  method ReadRoots(a: array<nat>, h: nat, limit: nat, ghost s: Saved, ghost d: int, ghost k: nat) returns (values: seq<Value>)
    requires SavedOk(s) && (k == s.specials || k == s.classList)
    requires a[..] == Stage(d, s.objs, |s.objs|) && h == Heads(s.objs, 0)[k]
    ensures |s.objs[k].Refs()| <= limit ==> values == ShiftAll(d, s.objs[k].Refs())
    ensures |s.objs[k].Refs()| > limit ==> values == ShiftAll(d, s.objs[k].Refs()[..limit])
  {
    hide ObjsOk, Shaped, SitesKnown, Stage, EncodeObj, ObjOk;
    RootArray(s, d, k);
    ghost var pre, post := StageObject(d, s.objs, |s.objs|, k);
    hide RelocatedTo;
    values := ReadSlots(a, h, limit, RelocatedTo(d, s.objs, |s.objs|)[k], pre, post);
    if |s.objs[k].Refs()| > limit {
      assert ShiftAll(d, s.objs[k].Refs())[..limit] == ShiftAll(d, s.objs[k].Refs()[..limit]);
    }
  }

  lemma WalkAll(s: Saved)
    requires SavedOk(s)
    ensures WalkFrom(Layout(s.objs), 0) == Heads(s.objs, 0) && |Layout(s.objs)| == Size(s.objs)
  {
    WalkLayout([], s.objs);
    assert [] + Layout(s.objs) == Layout(s.objs);
    LayoutSize(s.objs);
  }

  /** The array of special objects or classes, after the move. */
  lemma RootArray(s: Saved, d: int, k: nat)
    requires SavedOk(s) && (k == s.specials || k == s.classList)
    ensures k < |s.objs|
    ensures var o := RelocatedTo(d, s.objs, |s.objs|)[k];
      && o.body.Slots? && o.Refs() == ShiftAll(d, s.objs[k].Refs()) && o.Extra() == s.objs[k].Extra()
      && Heads(s.objs, 0)[k] < |Stage(d, s.objs, |s.objs|)|
      && SlotsAt(Stage(d, s.objs, |s.objs|), Heads(s.objs, 0)[k]) == |o.Refs()|
  {
    StageReads(d, s.objs, |s.objs|, k);
    hide Stage;
  }

  lemma ImageFields(s: Saved, data: seq<Byte>)
    requires SavedOk(s) && ImageBytes(s) <= data
    ensures |data| >= IMG_HEADER_SIZE + 8 * Size(s.objs) && |Layout(s.objs)| == Size(s.objs)
    ensures Read(data, 16, 8) == 8 * s.base && Read(data, 24, 8) == 8 * Size(s.objs)
    ensures Read(data, 32, 8) == 8 * Heads(s.objs, 0)[s.specials] && Read(data, 40, 8) == 8 * Heads(s.objs, 0)[s.classList]
    ensures Read(data, 48, 8) == 8 * Heads(s.objs, 0)[s.active]
    ensures WordBytes(Layout(s.objs)) == data[IMG_HEADER_SIZE..IMG_HEADER_SIZE + 8 * Size(s.objs)]
    ensures forall k :: 0 <= k < |Layout(s.objs)| ==> Layout(s.objs)[k] < W64
  {
    hide WordBytes, HeaderBytes, Layout, Read, ObjsOk, Shaped, SitesKnown, Size, Heads;
    LayoutSize(s.objs);
    LayoutWords(s.objs);
    HeadsWithin(s.objs, 0, s.specials);
    HeadsWithin(s.objs, 0, s.classList);
    HeadsWithin(s.objs, 0, s.active);
    var base, size := 8 * s.base, 8 * Size(s.objs);
    var sp, cl, ac := 8 * Heads(s.objs, 0)[s.specials], 8 * Heads(s.objs, 0)[s.classList], 8 * Heads(s.objs, 0)[s.active];
    var header, dump, tail := HeaderBytes(base, size, sp, cl, ac), WordBytes(Layout(s.objs)), data[|ImageBytes(s)|..];
    SplitFile(header, dump, tail, data);
    HeaderFields(base, size, sp, cl, ac, dump + tail);
  }

  lemma SplitFile(header: seq<Byte>, dump: seq<Byte>, tail: seq<Byte>, data: seq<Byte>)
    requires header + dump <= data && tail == data[|header + dump|..]
    ensures data == header + (dump + tail) && data[|header|..|header| + |dump|] == dump
  {
    assert data == (header + dump) + tail;
    assert (header + dump)[|header|..] == dump;
  }

  lemma LoadedNow(s: Saved, l: Loaded)
    requires SavedOk(s) && var d := l.base - s.base; l.words == Stage(d, s.objs, |s.objs|)
    requires var d := l.base - s.base; var sp := s.objs[s.specials].Refs();
      && (|sp| <= SPECIAL_OBJECTS_COUNT ==> l.specials == ShiftAll(d, sp))
      && (|sp| > SPECIAL_OBJECTS_COUNT ==> l.specials == ShiftAll(d, sp[..SPECIAL_OBJECTS_COUNT]))
      && l.classTable == ShiftAll(d, s.objs[s.classList].Refs())
      && l.registry == ShiftAll(d, SiteTables(s.objs, s.base, |s.objs|))
      && l.symbols == ShiftSymbols(d, Symbols(s.objs, s.base, |s.objs|))
      && l.active == Ptr(l.base + Heads(s.objs, 0)[s.active])
    ensures LoadedOk(s, l)
  {
    hide ObjsOk, Layout, RelocatedTo, Shaped, SitesKnown, SiteTables, Symbols, ShiftAll, ShiftSymbols;
    RelocatedToOk(l.base - s.base, s.objs, |s.objs|);
  }
}
