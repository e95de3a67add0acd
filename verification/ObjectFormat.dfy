/** Objects as words of memory: tagged values, header fields, overflow words, and the walk over a region. */
module ObjectFormat {
  import opened ObjectMemory

  const W64: nat := 0x1_0000_0000_0000_0000
  const CLASS_UNIT: nat := 0x400_0000_0000
  const HASH_UNIT: nat := 0x10_0000
  const NSLOTS_UNIT: nat := 0x1000
  const FORMAT_UNIT: nat := 0x100
  const CLASS_LIMIT: nat := 0x40_0000
  const HASH_LIMIT: nat := 0x40_0000

  const FMT_FIXED: nat := 0
  const FMT_PTRS: nat := 1
  const FMT_BYTES_BASE: nat := 8

  const SMALLINT_MAX: int := 0x3FFF_FFFF_FFFF_FFFF
  const SMALLINT_MIN: int := -0x4000_0000_0000_0000

  // ---------- tagged values ----------

  predicate ValueOk(v: Value) {
    match v
    case Int(n) => SMALLINT_MIN <= n <= SMALLINT_MAX
    case Ptr(a) => 8 * a < W64
  }

  /** A SmallInteger is shifted left and tagged with 1; a pointer is its byte address. */
  function EncodeValue(v: Value): (w: nat)
    requires ValueOk(v)
    ensures w < W64
  {
    match v
    case Int(n) => 2 * (if n >= 0 then n else n + W64 / 2) + 1
    case Ptr(a) => 8 * a
  }

  predicate IsPtr(w: nat) {
    w % 8 == 0
  }

  /** Untagging shifts right arithmetically. */
  function DecodeValue(w: nat): Value {
    if w % 2 == 1 then Int((if w < W64 / 2 then w else w - W64) / 2) else Ptr(w / 8)
  }

  lemma ValueRoundTrip(v: Value)
    requires ValueOk(v)
    ensures DecodeValue(EncodeValue(v)) == v && (IsPtr(EncodeValue(v)) <==> v.Ptr?)
  {
  }

  // ---------- headers ----------

  function Bit(b: bool): nat {
    if b then 1 else 0
  }

  function GcWord(g: GcBits): nat {
    Bit(g.mark) + 2 * Bit(g.remembered) + 4 * Bit(g.pinned) + 8 * g.age + 128 * Bit(g.immutable)
  }

  function Field(o: Obj): nat {
    if o.Extra() == 1 then OVERFLOW_SLOTS else o.NumSlots()
  }

  function Format(o: Obj): nat {
    match o.body
    case Slots(fixed, _) => if fixed then FMT_FIXED else FMT_PTRS
    case Bytes(pad, _) => FMT_BYTES_BASE + pad
  }

  function Header(o: Obj): nat {
    o.classIndex * CLASS_UNIT + o.hash * HASH_UNIT + Field(o) * NSLOTS_UNIT + Format(o) * FORMAT_UNIT + GcWord(o.gc)
  }

  function ClassOf(w: nat): nat {
    w / CLASS_UNIT
  }

  function HashOf(w: nat): nat {
    w / HASH_UNIT % HASH_LIMIT
  }

  function FieldOf(w: nat): nat {
    w / NSLOTS_UNIT % 256
  }

  function FormatOf(w: nat): nat {
    w / FORMAT_UNIT % 16
  }

  function GcOf(w: nat): nat {
    w % 256
  }

  predicate IsBytes(w: nat) {
    FormatOf(w) >= FMT_BYTES_BASE
  }

  /** What fits the fields of a header; class index 0 is never used. */
  ghost predicate ObjOk(o: Obj) {
    && 0 < o.classIndex < CLASS_LIMIT && o.hash < HASH_LIMIT && o.NumSlots() < CLASS_UNIT && o.gc.age <= MAX_AGE
    && (o.body.Slots? ==> forall i :: 0 <= i < |o.body.values| ==> ValueOk(o.body.values[i]))
    && (o.body.Bytes? ==> o.body.pad < 8 && forall i :: 0 <= i < |o.body.words| ==> o.body.words[i] < W64)
  }

  /** Taking a quotient and remainder apart, for the divisors of the header layout. */
  lemma DivideOut(q: nat, d: nat, r: nat)
    requires d == CLASS_UNIT || d == HASH_UNIT || d == HASH_LIMIT || d == NSLOTS_UNIT || d == FORMAT_UNIT || d == 256 || d == 16
    requires r < d
    ensures (q * d + r) / d == q && (q * d + r) % d == r
  {
    if d == CLASS_UNIT {
      assert (q * 0x400_0000_0000 + r) / 0x400_0000_0000 == q;
    } else if d == HASH_UNIT {
      assert (q * 0x10_0000 + r) / 0x10_0000 == q;
    } else if d == HASH_LIMIT {
      assert (q * 0x40_0000 + r) / 0x40_0000 == q;
    } else if d == NSLOTS_UNIT {
      assert (q * 0x1000 + r) / 0x1000 == q;
    } else if d == 256 {
      assert (q * 256 + r) / 256 == q;
    } else {
      assert (q * 16 + r) / 16 == q;
    }
  }

  /** Header fields read back. */
  lemma HeaderReads(o: Obj)
    requires ObjOk(o)
    ensures var w := Header(o);
      && w < W64 && ClassOf(w) == o.classIndex && HashOf(w) == o.hash && FieldOf(w) == Field(o) && FormatOf(w) == Format(o)
      && GcOf(w) == GcWord(o.gc)
  {
    FieldsRead(o.classIndex, o.hash, Field(o), Format(o), GcWord(o.gc));
  }

  lemma FieldsRead(c: nat, h: nat, n: nat, f: nat, g: nat)
    requires c < CLASS_LIMIT && h < HASH_LIMIT && n < 256 && f < 16 && g < 256
    ensures var w := c * CLASS_UNIT + h * HASH_UNIT + n * NSLOTS_UNIT + f * FORMAT_UNIT + g;
      w < W64 && ClassOf(w) == c && HashOf(w) == h && FieldOf(w) == n && FormatOf(w) == f && GcOf(w) == g
  {
    var w := c * CLASS_UNIT + h * HASH_UNIT + n * NSLOTS_UNIT + f * FORMAT_UNIT + g;
    var hi1, hi2, hi3 := c * HASH_LIMIT + h, c * 0x4000_0000 + h * 256 + n, c * 0x4_0000_0000 + h * 0x1000 + n * 16 + f;
    DivideOut(c, CLASS_UNIT, h * HASH_UNIT + n * NSLOTS_UNIT + f * FORMAT_UNIT + g);
    DivideOut(hi1, HASH_UNIT, n * NSLOTS_UNIT + f * FORMAT_UNIT + g);
    DivideOut(c, HASH_LIMIT, h);
    DivideOut(hi2, NSLOTS_UNIT, f * FORMAT_UNIT + g);
    DivideOut(c * 0x40_0000 + h, 256, n);
    DivideOut(hi3, FORMAT_UNIT, g);
    DivideOut(hi2, 16, f);
  }

  /** The header of an unmarked object is even, a forwarding word is odd: the test of the low bit is unambiguous exactly
      because no mark is left set. */
  lemma LowBitIsMark(o: Obj, to: Addr)
    requires ObjOk(o)
    ensures Header(o) % 2 == 1 <==> o.gc.mark
    ensures (8 * to + 1) % 2 == 1 && DecodeForward(8 * to + 1) == to
  {
    hide Header, ClassOf, HashOf, FieldOf, FormatOf, GcWord;
    HeaderReads(o);
    GcReads(o.gc);
    LowBit(Header(o));
  }

  lemma LowBit(w: nat)
    ensures w % 2 == w % 256 % 2
  {
  }

  function DecodeForward(w: nat): Addr {
    w / 8
  }

  // ---------- objects in memory ----------

  function BodyWords(o: Obj): (s: seq<nat>)
    requires o.body.Slots? ==> forall i :: 0 <= i < |o.body.values| ==> ValueOk(o.body.values[i])
    ensures |s| == o.NumSlots()
  {
    match o.body
    case Slots(_, values) => seq(|values|, i requires 0 <= i < |values| => EncodeValue(values[i]))
    case Bytes(_, words) => words
  }

  /** Overflow word if any, header, body. */
  ghost function EncodeObj(o: Obj): (s: seq<nat>)
    requires ObjOk(o)
    ensures |s| == o.Footprint()
  {
    (if o.Extra() == 1 then [o.NumSlots()] else []) + [Header(o)] + BodyWords(o)
  }

  ghost predicate ObjsOk(objs: seq<Obj>) {
    forall k :: 0 <= k < |objs| ==> ObjOk(objs[k])
  }

  /** A gap-free region. */
  ghost function Layout(objs: seq<Obj>): seq<nat>
    requires ObjsOk(objs)
  {
    if objs == [] then [] else EncodeObj(objs[0]) + Layout(objs[1..])
  }

  /** The headers of the objects laid out from `at`. */
  ghost function Heads(objs: seq<Obj>, at: nat): (r: seq<nat>)
    ensures |r| == |objs|
  {
    if objs == [] then [] else [at + objs[0].Extra()] + Heads(objs[1..], at + objs[0].Footprint())
  }

  ghost function Size(objs: seq<Obj>): nat {
    if objs == [] then 0 else objs[0].Footprint() + Size(objs[1..])
  }

  lemma {:induction false} LayoutSize(objs: seq<Obj>)
    requires ObjsOk(objs)
    ensures |Layout(objs)| == Size(objs)
  {
    if objs != [] {
      LayoutSize(objs[1..]);
    }
  }

  lemma {:induction false} LayoutAppend(a: seq<Obj>, b: seq<Obj>)
    requires ObjsOk(a) && ObjsOk(b)
    ensures ObjsOk(a + b) && Layout(a + b) == Layout(a) + Layout(b) && Size(a + b) == Size(a) + Size(b)
  {
    hide EncodeObj, ObjOk;
    if a == [] {
      assert a + b == b;
    } else {
      assert (a + b)[1..] == a[1..] + b;
      LayoutAppend(a[1..], b);
      assert Layout(a + b) == EncodeObj(a[0]) + (Layout(a[1..]) + Layout(b));
    }
  }

  lemma {:induction false} HeadsAppend(a: seq<Obj>, b: seq<Obj>, at: nat)
    ensures Heads(a + b, at) == Heads(a, at) + Heads(b, at + Size(a))
  {
    if a == [] {
      assert a + b == b;
    } else {
      assert (a + b)[1..] == a[1..] + b;
      HeadsAppend(a[1..], b, at + a[0].Footprint());
    }
  }

  // ---------- reading an object ----------

  /** The slot count of the object whose header is at `h`. */
  function SlotsAt(words: seq<nat>, h: nat): nat
    requires h < |words|
  {
    if FieldOf(words[h]) == OVERFLOW_SLOTS then (if h > 0 then words[h - 1] else 0) else FieldOf(words[h])
  }

  function StorageStart(words: seq<nat>, h: nat): nat
    requires h < |words|
  {
    if FieldOf(words[h]) == OVERFLOW_SLOTS && h > 0 then h - 1 else h
  }

  function StorageSize(words: seq<nat>, h: nat): nat
    requires h < |words|
  {
    (if FieldOf(words[h]) == OVERFLOW_SLOTS then 1 else 0) + 1 + SlotsAt(words, h)
  }

  /** Reading the object laid out between `pre` and `post`. */
  lemma ReadsBack(pre: seq<nat>, o: Obj, post: seq<nat>)
    requires ObjOk(o)
    ensures var words, h := pre + EncodeObj(o) + post, |pre| + o.Extra();
      && h < |words| && h + o.NumSlots() < |words|
      && words[h] == Header(o) && SlotsAt(words, h) == o.NumSlots() && StorageStart(words, h) == |pre|
      && StorageSize(words, h) == o.Footprint()
      && (IsBytes(words[h]) <==> o.body.Bytes?)
      && (o.Extra() == 1 ==> words[|pre|] == o.NumSlots())
      && (forall i :: 0 <= i < o.NumSlots() ==> words[h + 1 + i] == BodyWords(o)[i])
  {
    HeaderReads(o);
    hide Header, FieldOf, FormatOf, ClassOf, HashOf, GcOf;
  }

  /** Everything an object is can be read from its words. */
  ghost function ReadObject(words: seq<nat>, h: nat): Obj
    requires h < |words| && h + SlotsAt(words, h) < |words|
  {
    var w, n := words[h], SlotsAt(words, h);
    var g := GcOf(w);
    Obj(ClassOf(w), HashOf(w),
        GcBits(g % 2 == 1, g / 2 % 2 == 1, g / 4 % 2 == 1, g / 8 % 8, g / 128 % 2 == 1),
        if IsBytes(w) then Bytes(FormatOf(w) - FMT_BYTES_BASE, words[h + 1..h + 1 + n])
        else Slots(FormatOf(w) == FMT_FIXED, seq(n, i requires 0 <= i < n => DecodeValue(words[h + 1 + i]))))
  }

  lemma ObjectRoundTrip(pre: seq<nat>, o: Obj, post: seq<nat>)
    requires ObjOk(o)
    ensures var words, h := pre + EncodeObj(o) + post, |pre| + o.Extra();
      h < |words| && h + SlotsAt(words, h) < |words| && ReadObject(words, h) == o
  {
    var words, h, n := pre + EncodeObj(o) + post, |pre| + o.Extra(), o.NumSlots();
    ReadsBack(pre, o, post);
    HeaderReads(o);
    GcReads(o.gc);
    hide Header, FieldOf, ClassOf, HashOf, GcOf, EncodeObj, GcWord;
    if o.body.Bytes? {
      assert words[h + 1..h + 1 + n] == o.body.words;
    } else {
      forall i | 0 <= i < n
        ensures DecodeValue(words[h + 1 + i]) == o.body.values[i]
      {
        ValueRoundTrip(o.body.values[i]);
      }
      hide DecodeValue;
      assert seq(n, i requires 0 <= i < n => DecodeValue(words[h + 1 + i])) == o.body.values;
    }
  }

  lemma GcReads(g: GcBits)
    requires g.age <= MAX_AGE
    ensures var w := GcWord(g);
      && (w % 2 == 1 <==> g.mark) && (w / 2 % 2 == 1 <==> g.remembered) && (w / 4 % 2 == 1 <==> g.pinned)
      && w / 8 % 8 == g.age && (w / 128 % 2 == 1 <==> g.immutable)
  {
    var w := GcWord(g);
    assert w / 8 == g.age + 16 * Bit(g.immutable);
    assert w / 128 == Bit(g.immutable);
    assert w / 4 == Bit(g.pinned) + 2 * (g.age + 16 * Bit(g.immutable));
    assert w / 2 == Bit(g.remembered) + 2 * (Bit(g.pinned) + 2 * (g.age + 16 * Bit(g.immutable)));
  }

  // ---------- the walk ----------

  /** Where the walk finds the header of the object stored at `p`: a word without a class index is an overflow word. */
  function HeaderFrom(words: seq<nat>, p: nat): nat
    requires p < |words|
  {
    if ClassOf(words[p]) == 0 then p + 1 else p
  }

  /** The headers from `p` on. */
  function WalkFrom(words: seq<nat>, p: nat): seq<nat>
    decreases |words| - p
  {
    if p >= |words| || HeaderFrom(words, p) >= |words| then []
    else
      var h := HeaderFrom(words, p);
      [h] + WalkFrom(words, StorageStart(words, h) + StorageSize(words, h))
  }

  /** The walk over a gap-free region visits exactly its objects, in order, overflow-sized ones included. */
  lemma {:induction false} WalkLayout(pre: seq<nat>, objs: seq<Obj>)
    requires ObjsOk(objs)
    ensures WalkFrom(pre + Layout(objs), |pre|) == Heads(objs, |pre|)
    decreases |objs|
  {
    hide EncodeObj, ObjOk, HeaderFrom, StorageStart, StorageSize;
    var words := pre + Layout(objs);
    if objs == [] {
      assert |words| == |pre|;
    } else {
      var o, rest := objs[0], Layout(objs[1..]);
      assert words == pre + EncodeObj(o) + rest;
      WalkLayout(pre + EncodeObj(o), objs[1..]);
      ReadsBack(pre, o, rest);
      WalkHead(pre, o, rest);
      assert |pre + EncodeObj(o)| == |pre| + o.Footprint();
    }
  }

  lemma WalkHead(pre: seq<nat>, o: Obj, post: seq<nat>)
    requires ObjOk(o)
    ensures |pre| < |pre + EncodeObj(o) + post|
    ensures HeaderFrom(pre + EncodeObj(o) + post, |pre|) == |pre| + o.Extra()
  {
    HeaderReads(o);
    hide Header, FieldOf, FormatOf, HashOf, GcOf;
    var words := pre + EncodeObj(o) + post;
    if o.Extra() == 1 {
      assert words[|pre|] == o.NumSlots();
      DivideOut(0, CLASS_UNIT, o.NumSlots());
    } else {
      assert words[|pre|] == Header(o);
    }
  }
}
