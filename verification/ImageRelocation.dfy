/** Moving a laid-out heap to another base: every pointer slot shifts by the same distance, nothing else changes. */
module ImageRelocation {
  import opened ObjectMemory
  import opened ObjectFormat

  const CLASS_SYMBOL: nat := 13
  const CLASS_ARRAY: nat := 16
  const CLASS_COMPILEDMETHOD: nat := 22
  const CLASS_COMPILEDBLOCK: nat := 23
  const METHOD_SEND_SITES: nat := 3

  /** Addresses in words. */
  const W61: nat := 0x2000_0000_0000_0000

  /** A pointer moves by `d` words, modulo the address space. */
  function Shift(d: int, v: Value): Value {
    if v.Ptr? then Ptr((v.addr + d) % W61) else v
  }

  function ShiftAll(d: int, vs: seq<Value>): (r: seq<Value>)
    ensures |r| == |vs|
  {
    seq(|vs|, i requires 0 <= i < |vs| => Shift(d, vs[i]))
  }

  /** The object at the new base: pointers shifted, mark and remembered bits clear. */
  function Relocated(d: int, o: Obj): Obj {
    o.(gc := o.gc.(mark := false, remembered := false),
       body := if o.body.Slots? then Slots(o.body.fixed, ShiftAll(d, o.body.values)) else o.body)
  }

  function RelocatedTo(d: int, objs: seq<Obj>, k: nat): (r: seq<Obj>)
    ensures |r| == |objs|
  {
    seq(|objs|, i requires 0 <= i < |objs| => if i < k then Relocated(d, objs[i]) else objs[i])
  }

  /** A slot word: pointers move by `delta` bytes, SmallIntegers stay. */
  function RelocateWord(delta: int, w: nat): nat {
    if IsPtr(w) then (w + delta) % W64 else w
  }

  lemma WordShift(d: int, v: Value)
    requires ValueOk(v)
    ensures ValueOk(Shift(d, v)) && EncodeValue(Shift(d, v)) == RelocateWord(8 * d, EncodeValue(v))
  {
    ValueRoundTrip(v);
    if v.Ptr? {
      EightTimes(v.addr + d);
    }
  }

  lemma EightTimes(x: int)
    ensures 8 * x % W64 == 8 * (x % W61)
  {
  }

  /** The low two bits of a header are the mark and the remembered bit. */
  function ClearBits(w: nat): nat {
    w - w % 4
  }

  lemma ClearedHeader(o: Obj, o': Obj)
    requires o' == o.(gc := o.gc.(mark := false, remembered := false), body := o'.body)
    requires o'.NumSlots() == o.NumSlots() && Format(o') == Format(o)
    ensures Header(o') == ClearBits(Header(o))
  {
    hide ClearBits;
    var high := o.classIndex * CLASS_UNIT + o.hash * HASH_UNIT + Field(o) * NSLOTS_UNIT + Format(o) * FORMAT_UNIT;
    LowBits(o.classIndex, o.hash, Field(o), Format(o), Bit(o.gc.pinned) + 2 * o.gc.age + 32 * Bit(o.gc.immutable),
            Bit(o.gc.mark) + 2 * Bit(o.gc.remembered));
  }

  lemma LowBits(c: nat, h: nat, n: nat, f: nat, g: nat, low: nat)
    requires low < 4
    ensures var high := c * CLASS_UNIT + h * HASH_UNIT + n * NSLOTS_UNIT + f * FORMAT_UNIT + 4 * g;
      ClearBits(high + low) == high
  {
    var k := c * 0x100_0000_0000 + h * 0x4_0000 + n * 0x400 + f * 0x40 + g;
    assert c * CLASS_UNIT + h * HASH_UNIT + n * NSLOTS_UNIT + f * FORMAT_UNIT + 4 * g == 4 * k;
    Quarter(k, low);
  }

  lemma Quarter(k: nat, low: nat)
    requires low < 4
    ensures (4 * k + low) % 4 == low
  {
  }

  /** One round of the pass: the header's bits and the pointer slots of the object at `h`. */
  function RelocateAt(words: seq<nat>, h: nat, delta: int): seq<nat>
    requires h < |words|
  {
    seq(|words|, i requires 0 <= i < |words| =>
      if i == h then ClearBits(words[h])
      else if !IsBytes(words[h]) && h < i <= h + SlotsAt(words, h) then RelocateWord(delta, words[i])
      else words[i])
  }

  lemma RelocatedObjOk(d: int, o: Obj)
    requires ObjOk(o)
    ensures ObjOk(Relocated(d, o)) && Relocated(d, o).Footprint() == o.Footprint() && Relocated(d, o).Extra() == o.Extra()
    ensures Header(Relocated(d, o)) == ClearBits(Header(o))
    ensures |BodyWords(Relocated(d, o))| == |BodyWords(o)|
    ensures forall i :: 0 <= i < o.NumSlots() ==>
      BodyWords(Relocated(d, o))[i] == if o.body.Bytes? then BodyWords(o)[i] else RelocateWord(8 * d, BodyWords(o)[i])
  {
    var o' := Relocated(d, o);
    if o.body.Slots? {
      forall i | 0 <= i < |o.body.values|
        ensures ValueOk(o'.body.values[i]) && EncodeValue(o'.body.values[i]) == RelocateWord(8 * d, EncodeValue(o.body.values[i]))
      {
        assert o.Refs()[i] == o.body.values[i];
        WordShift(d, o.body.values[i]);
      }
    }
    hide EncodeValue, ValueOk, RelocateWord, Header;
    assert o' == o.(gc := o.gc.(mark := false, remembered := false), body := o'.body);
    assert o'.NumSlots() == o.NumSlots() && Format(o') == Format(o);
    ClearedHeader(o, o');
  }

  lemma RelocateObject(pre: seq<nat>, o: Obj, post: seq<nat>, d: int)
    requires ObjOk(o)
    ensures ObjOk(Relocated(d, o)) && |pre| + o.Extra() < |pre + EncodeObj(o) + post|
    ensures RelocateAt(pre + EncodeObj(o) + post, |pre| + o.Extra(), 8 * d) == pre + EncodeObj(Relocated(d, o)) + post
  {
    hide Header, RelocateWord, ClearBits, BodyWords, Relocated, IsBytes, SlotsAt, EncodeObj, RelocateAt;
    RelocatedObjOk(d, o);
    ReadsBack(pre, o, post);
    ReadsBack(pre, Relocated(d, o), post);
    var words, h := pre + EncodeObj(o) + post, |pre| + o.Extra();
    var words' := pre + EncodeObj(Relocated(d, o)) + post;
    RelocateLength(words, h, 8 * d);
    forall i | 0 <= i < |words|
      ensures RelocateAt(words, h, 8 * d)[i] == words'[i]
    {
      RelocatedWord(pre, o, post, d, i);
    }
    assert RelocateAt(words, h, 8 * d) == words';
  }

  lemma RelocateLength(words: seq<nat>, h: nat, delta: int)
    requires h < |words|
    ensures |RelocateAt(words, h, delta)| == |words|
  {
  }

  lemma RelocatedWord(pre: seq<nat>, o: Obj, post: seq<nat>, d: int, i: nat)
    requires ObjOk(o)
    requires i < |pre + EncodeObj(o) + post| && |pre| + o.Extra() < |pre + EncodeObj(o) + post|
    ensures ObjOk(Relocated(d, o)) && i < |pre + EncodeObj(Relocated(d, o)) + post|
    ensures |RelocateAt(pre + EncodeObj(o) + post, |pre| + o.Extra(), 8 * d)| == |pre + EncodeObj(o) + post|
    ensures RelocateAt(pre + EncodeObj(o) + post, |pre| + o.Extra(), 8 * d)[i] == (pre + EncodeObj(Relocated(d, o)) + post)[i]
  {
    hide Header, RelocateWord, ClearBits, BodyWords, Relocated, IsBytes, SlotsAt, EncodeObj;
    RelocatedObjOk(d, o);
    ReadsBack(pre, o, post);
    ReadsBack(pre, Relocated(d, o), post);
    var words, h, n := pre + EncodeObj(o) + post, |pre| + o.Extra(), o.NumSlots();
    var words' := pre + EncodeObj(Relocated(d, o)) + post;
    SameKind(d, o);
    if h < i <= h + n {
      assert words[h + 1 + (i - h - 1)] == BodyWords(o)[i - h - 1] && words'[h + 1 + (i - h - 1)] == BodyWords(Relocated(d, o))[i - h - 1];
    }
  }

  lemma SameKind(d: int, o: Obj)
    ensures Relocated(d, o).NumSlots() == o.NumSlots() && Relocated(d, o).body.Bytes? == o.body.Bytes?
    ensures Relocated(d, o).classIndex == o.classIndex
  {
  }

  // ---------- the pass over all objects ----------

  lemma LayoutSplit(objs: seq<Obj>, k: nat)
    requires ObjsOk(objs) && k < |objs|
    ensures ObjsOk(objs[..k]) && ObjsOk(objs[k + 1..])
    ensures Layout(objs) == Layout(objs[..k]) + EncodeObj(objs[k]) + Layout(objs[k + 1..])
    ensures |Layout(objs[..k])| == Size(objs[..k]) && Heads(objs, 0)[k] == Size(objs[..k]) + objs[k].Extra()
  {
    hide EncodeObj, ObjOk;
    var a, b := objs[..k], objs[k..];
    assert objs == a + b && b[0] == objs[k] && b[1..] == objs[k + 1..];
    LayoutAppend(a, b);
    LayoutSize(a);
    HeadsAppend(a, b, 0);
    assert Layout(b) == EncodeObj(objs[k]) + Layout(objs[k + 1..]);
  }

  lemma {:induction false} SameHeads(a: seq<Obj>, b: seq<Obj>, at: nat)
    requires |a| == |b| && forall i :: 0 <= i < |a| ==> a[i].Footprint() == b[i].Footprint() && a[i].Extra() == b[i].Extra()
    ensures Heads(a, at) == Heads(b, at) && Size(a) == Size(b)
  {
    if a != [] {
      SameHeads(a[1..], b[1..], at + a[0].Footprint());
    }
  }

  lemma RelocatedToOk(d: int, objs: seq<Obj>, k: nat)
    requires ObjsOk(objs)
    ensures ObjsOk(RelocatedTo(d, objs, k)) && Size(RelocatedTo(d, objs, k)) == Size(objs)
    ensures forall at: nat :: Heads(RelocatedTo(d, objs, k), at) == Heads(objs, at)
  {
    hide ObjOk, Relocated;
    forall i | 0 <= i < |objs|
      ensures ObjOk(RelocatedTo(d, objs, k)[i]) && RelocatedTo(d, objs, k)[i].Footprint() == objs[i].Footprint()
      ensures RelocatedTo(d, objs, k)[i].Extra() == objs[i].Extra()
    {
      RelocatedObjOk(d, objs[i]);
    }
    forall at: nat
      ensures Heads(RelocatedTo(d, objs, k), at) == Heads(objs, at)
    {
      SameHeads(RelocatedTo(d, objs, k), objs, at);
    }
    SameHeads(RelocatedTo(d, objs, k), objs, 0);
  }

  /** Relocating the next object of the layout. */
  lemma RelocateNext(d: int, objs: seq<Obj>, k: nat)
    requires ObjsOk(objs) && k < |objs|
    ensures ObjsOk(RelocatedTo(d, objs, k)) && ObjsOk(RelocatedTo(d, objs, k + 1))
    ensures Heads(objs, 0)[k] < |Layout(RelocatedTo(d, objs, k))|
    ensures RelocateAt(Layout(RelocatedTo(d, objs, k)), Heads(objs, 0)[k], 8 * d) == Layout(RelocatedTo(d, objs, k + 1))
  {
    hide EncodeObj, ObjOk, Relocated, RelocateAt;
    var a, b := RelocatedTo(d, objs, k), RelocatedTo(d, objs, k + 1);
    RelocatedToOk(d, objs, k);
    RelocatedToOk(d, objs, k + 1);
    LayoutSplit(a, k);
    LayoutSplit(b, k);
    assert a[..k] == b[..k] && a[k + 1..] == b[k + 1..] && a[k] == objs[k] && b[k] == Relocated(d, objs[k]);
    RelocateObject(Layout(a[..k]), objs[k], Layout(a[k + 1..]), d);
  }

  // ---------- what the pass collects ----------

  /** Methods and blocks have a slot for their send sites, symbols are byte objects. */
  ghost predicate Shaped(objs: seq<Obj>) {
    forall k :: 0 <= k < |objs| ==>
      && (IsCode(objs[k].classIndex) ==> objs[k].body.Slots? && METHOD_SEND_SITES < objs[k].NumSlots())
      && (objs[k].classIndex == CLASS_SYMBOL ==> objs[k].body.Bytes?)
  }

  predicate IsCode(c: nat) {
    c == CLASS_COMPILEDMETHOD || c == CLASS_COMPILEDBLOCK
  }

  /** The send-sites slot of a method or block, if it is a pointer, refers to the header of an object. */
  ghost predicate SitesKnown(objs: seq<Obj>, base: Addr) {
    forall k :: 0 <= k < |objs| && IsCode(objs[k].classIndex) && METHOD_SEND_SITES < |objs[k].Refs()| &&
                objs[k].Refs()[METHOD_SEND_SITES].Ptr? ==>
      objs[k].Refs()[METHOD_SEND_SITES].addr in Heads(objs, base)
  }

  /** There is room for the objects at the new base. */
  ghost predicate Fits(objs: seq<Obj>, base: Addr, d: int) {
    base + d >= 0 && base + d + Size(objs) < W61
  }

  /** The object whose header is at `a`. */
  ghost function ObjectAt(objs: seq<Obj>, base: Addr, a: Addr): Obj
    requires a in Heads(objs, base)
  {
    var j :| 0 <= j < |objs| && Heads(objs, base)[j] == a;
    objs[j]
  }

  /** The send-site tables of the first `k` objects: a table is a variable pointer object. */
  ghost function SiteTables(objs: seq<Obj>, base: Addr, k: nat): seq<Value>
    requires k <= |objs| && Shaped(objs) && SitesKnown(objs, base)
  {
    if k == 0 then []
    else
      var o := objs[k - 1];
      SiteTables(objs, base, k - 1) + if IsCode(o.classIndex) && IsTable(objs, base, o.Refs()[METHOD_SEND_SITES])
                                      then [o.Refs()[METHOD_SEND_SITES]] else []
  }

  ghost predicate IsTable(objs: seq<Obj>, base: Addr, v: Value)
    requires v.Ptr? ==> v.addr in Heads(objs, base)
  {
    v.Ptr? && Format(ObjectAt(objs, base, v.addr)) == FMT_PTRS
  }

  datatype Symbol = Symbol(pad: nat, words: seq<nat>, addr: Addr)

  ghost function Symbols(objs: seq<Obj>, base: Addr, k: nat): seq<Symbol>
    requires k <= |objs| && Shaped(objs)
  {
    if k == 0 then []
    else
      var o := objs[k - 1];
      Symbols(objs, base, k - 1) + if o.classIndex == CLASS_SYMBOL
                                   then [Symbol(o.body.pad, o.body.words, Heads(objs, base)[k - 1])] else []
  }

  lemma {:induction false} HeadsShift(objs: seq<Obj>, at: nat, at': nat)
    ensures forall k :: 0 <= k < |objs| ==> Heads(objs, at')[k] - at' == Heads(objs, at)[k] - at
    ensures forall k :: 0 <= k < |objs| ==> at <= Heads(objs, at)[k]
  {
    if objs != [] {
      HeadsShift(objs[1..], at + objs[0].Footprint(), at' + objs[0].Footprint());
      forall k | 0 < k < |objs|
        ensures Heads(objs, at')[k] - at' == Heads(objs, at)[k] - at && at <= Heads(objs, at)[k]
      {
        assert Heads(objs, at)[k] == Heads(objs[1..], at + objs[0].Footprint())[k - 1];
        assert Heads(objs, at')[k] == Heads(objs[1..], at' + objs[0].Footprint())[k - 1];
      }
    }
  }

  lemma {:induction false} HeadsRise(objs: seq<Obj>, at: nat, j: nat, k: nat)
    requires j < k < |objs|
    ensures Heads(objs, at)[j] < Heads(objs, at)[k]
  {
    if j > 0 {
      HeadsRise(objs[1..], at + objs[0].Footprint(), j - 1, k - 1);
    } else {
      HeadsShift(objs[1..], at + objs[0].Footprint(), 0);
    }
  }

  lemma ObjectAtHead(objs: seq<Obj>, base: Addr, k: nat)
    requires k < |objs|
    ensures Heads(objs, base)[k] in Heads(objs, base) && ObjectAt(objs, base, Heads(objs, base)[k]) == objs[k]
  {
    var a := Heads(objs, base)[k];
    var j :| 0 <= j < |objs| && Heads(objs, base)[j] == a && ObjectAt(objs, base, a) == objs[j];
    if j < k {
      HeadsRise(objs, base, j, k);
    } else if k < j {
      HeadsRise(objs, base, k, j);
    }
  }

  /** The relocated objects have the same shape, and their send-sites slots lead to the same objects. */
  lemma RelocatedShape(objs: seq<Obj>, base: Addr, d: int)
    requires ObjsOk(objs) && Shaped(objs) && SitesKnown(objs, base) && Fits(objs, base, d)
    ensures var objs' := RelocatedTo(d, objs, |objs|);
      && ObjsOk(objs') && Shaped(objs') && SitesKnown(objs', base + d) && HeadsMoved(objs, base, d)
  {
    hide ObjOk, RelocatedTo, Relocated, Heads, ObjectAt, Shift;
    var objs' := RelocatedTo(d, objs, |objs|);
    RelocatedHeads(objs, base, d);
    forall k | 0 <= k < |objs'|
      ensures IsCode(objs'[k].classIndex) ==> objs'[k].body.Slots? && METHOD_SEND_SITES < objs'[k].NumSlots()
      ensures objs'[k].classIndex == CLASS_SYMBOL ==> objs'[k].body.Bytes?
      ensures IsCode(objs'[k].classIndex) && METHOD_SEND_SITES < |objs'[k].Refs()| && objs'[k].Refs()[METHOD_SEND_SITES].Ptr? ==>
        objs'[k].Refs()[METHOD_SEND_SITES].addr in Heads(objs', base + d)
    {
      RelocatedIs(objs, d, k);
      SameKind(d, objs[k]);
      if IsCode(objs[k].classIndex) {
        SiteShifted(objs, base, d, objs[k].Refs()[METHOD_SEND_SITES]);
      }
    }
  }

  /** After the move every header lies `d` words further, at what is the relocated object. */
  ghost predicate HeadsMoved(objs: seq<Obj>, base: Addr, d: int)
    requires base + d >= 0
  {
    var objs' := RelocatedTo(d, objs, |objs|);
    forall k :: 0 <= k < |objs| ==> Heads(objs', base + d)[k] == Heads(objs, base)[k] + d
  }

  lemma RelocatedHeads(objs: seq<Obj>, base: Addr, d: int)
    requires ObjsOk(objs) && Fits(objs, base, d)
    ensures ObjsOk(RelocatedTo(d, objs, |objs|)) && HeadsMoved(objs, base, d)
  {
    hide ObjsOk, RelocatedTo;
    RelocatedToOk(d, objs, |objs|);
    HeadsShift(objs, base, base + d);
  }

  lemma RelocatedIs(objs: seq<Obj>, d: int, k: nat)
    requires k < |objs|
    ensures RelocatedTo(d, objs, |objs|)[k] == Relocated(d, objs[k])
    ensures |Relocated(d, objs[k]).Refs()| == |objs[k].Refs()|
    ensures forall i :: 0 <= i < |objs[k].Refs()| ==> Relocated(d, objs[k]).Refs()[i] == Shift(d, objs[k].Refs()[i])
  {
    hide Shift;
  }

  lemma SiteShifted(objs: seq<Obj>, base: Addr, d: int, v: Value)
    requires Fits(objs, base, d) && HeadsMoved(objs, base, d) && (v.Ptr? ==> v.addr in Heads(objs, base))
    ensures Shift(d, v).Ptr? ==> Shift(d, v).addr in Heads(RelocatedTo(d, objs, |objs|), base + d)
  {
    hide Heads, ObjectAt, RelocatedTo, HeadsMoved;
    if v.Ptr? {
      HeadShifted(objs, base, d, v.addr);
    }
  }

  lemma {:induction false} HeadsWithin(objs: seq<Obj>, at: nat, j: nat)
    requires j < |objs|
    ensures at <= Heads(objs, at)[j] < at + Size(objs)
  {
    if j > 0 {
      HeadsWithin(objs[1..], at + objs[0].Footprint(), j - 1);
    }
  }

  /** Where the object at `a` is afterwards, and what it is: a pointer to a header moves with it. */
  lemma HeadShifted(objs: seq<Obj>, base: Addr, d: int, a: Addr)
    requires Fits(objs, base, d) && HeadsMoved(objs, base, d) && a in Heads(objs, base)
    ensures var objs' := RelocatedTo(d, objs, |objs|);
      && base <= a && a + d >= 0 && Shift(d, Ptr(a)) == Ptr(a + d) && a + d in Heads(objs', base + d)
      && ObjectAt(objs', base + d, a + d) == Relocated(d, ObjectAt(objs, base, a))
  {
    hide Heads, ObjectAt, RelocatedTo, Relocated;
    var j :| 0 <= j < |objs| && Heads(objs, base)[j] == a;
    HeadsWithin(objs, base, j);
    ObjectAtHead(objs, base, j);
    ObjectAtHead(RelocatedTo(d, objs, |objs|), base + d, j);
    RelocatedIs(objs, d, j);
  }

  lemma FormatSame(d: int, o: Obj)
    ensures Format(Relocated(d, o)) == Format(o)
  {
  }

  /** The send-site tables found after the move are those found before it, shifted. */
  lemma {:induction false} SiteTablesShift(objs: seq<Obj>, base: Addr, d: int, k: nat)
    requires k <= |objs| && ObjsOk(objs) && Shaped(objs) && SitesKnown(objs, base) && Fits(objs, base, d)
    ensures var objs' := RelocatedTo(d, objs, |objs|);
      Shaped(objs') && SitesKnown(objs', base + d) && SiteTables(objs', base + d, k) == ShiftAll(d, SiteTables(objs, base, k))
    decreases k
  {
    hide ObjsOk, Relocated, RelocatedTo, ObjectAt, IsTable, ShiftAll, Shift, HeadsMoved, Fits;
    RelocatedShape(objs, base, d);
    ShiftNone(d, []);
    if k > 0 {
      ShiftNone(d, SiteTables(objs, base, k - 1));
      SiteTablesShift(objs, base, d, k - 1);
      RelocatedIs(objs, d, k - 1);
      SameKind(d, objs[k - 1]);
      if IsCode(objs[k - 1].classIndex) {
        var v := objs[k - 1].Refs()[METHOD_SEND_SITES];
        ShiftSnoc(d, SiteTables(objs, base, k - 1), v);
        TableShifted(objs, base, d, v);
      }
    }
  }

  lemma ShiftSnoc(d: int, vs: seq<Value>, v: Value)
    ensures ShiftAll(d, vs + [v]) == ShiftAll(d, vs) + [Shift(d, v)]
  {
  }

  lemma ShiftNone(d: int, vs: seq<Value>)
    ensures ShiftAll(d, []) == [] && vs + [] == vs && ShiftAll(d, vs) + [] == ShiftAll(d, vs)
  {
  }

  lemma TableShifted(objs: seq<Obj>, base: Addr, d: int, v: Value)
    requires Fits(objs, base, d) && HeadsMoved(objs, base, d) && (v.Ptr? ==> v.addr in Heads(objs, base))
    ensures var objs' := RelocatedTo(d, objs, |objs|);
      && (Shift(d, v).Ptr? ==> Shift(d, v).addr in Heads(objs', base + d))
      && (IsTable(objs', base + d, Shift(d, v)) <==> IsTable(objs, base, v))
  {
    hide RelocatedTo, Relocated, ObjectAt, Heads, HeadsMoved;
    if v.Ptr? {
      HeadShifted(objs, base, d, v.addr);
      FormatSame(d, ObjectAt(objs, base, v.addr));
    }
  }

  function ShiftSymbols(d: int, ss: seq<Symbol>): (r: seq<Symbol>)
    ensures |r| == |ss|
  {
    seq(|ss|, i requires 0 <= i < |ss| => if ss[i].addr + d >= 0 then ss[i].(addr := ss[i].addr + d) else ss[i])
  }

  lemma {:induction false} SymbolsShift(objs: seq<Obj>, base: Addr, d: int, k: nat)
    requires k <= |objs| && ObjsOk(objs) && Shaped(objs) && SitesKnown(objs, base) && Fits(objs, base, d)
    ensures var objs' := RelocatedTo(d, objs, |objs|);
      Shaped(objs') && Symbols(objs', base + d, k) == ShiftSymbols(d, Symbols(objs, base, k))
    decreases k
  {
    hide ObjsOk, SitesKnown;
    RelocatedShape(objs, base, d);
    if k > 0 {
      SymbolsShift(objs, base, d, k - 1);
      RelocatedIs(objs, d, k - 1);
      SameKind(d, objs[k - 1]);
      hide RelocatedTo;
      var o := objs[k - 1];
      if o.classIndex == CLASS_SYMBOL {
        var s := Symbol(o.body.pad, o.body.words, Heads(objs, base)[k - 1]);
        SymbolSnoc(d, Symbols(objs, base, k - 1), s);
      }
    }
  }

  lemma SymbolSnoc(d: int, ss: seq<Symbol>, s: Symbol)
    ensures ShiftSymbols(d, ss + [s]) == ShiftSymbols(d, ss) + ShiftSymbols(d, [s])
  {
  }
}
