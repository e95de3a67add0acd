/** Saving the old space to an image file and loading it at another base. */
module ImageFile {
  import opened ObjectMemory
  import opened ObjectFormat
  import opened ImageRelocation
  import opened ByteOrder

  const IMG_MAGIC: nat := 0x4D495453
  const IMG_HEADER_SIZE: nat := 64
  const SPECIAL_CLASS_LIST: nat := 5
  const SPECIAL_OBJECTS_COUNT: nat := 13

  datatype Error = OutOfMemory | ActiveNotInOldSpace | NotAnImage | UnsupportedVersion | Truncated
  datatype Result<T> = Ok(value: T) | Err(error: Error)

  /** What an image holds: the objects of old space from `base`, and which of them are the special objects array, the
      class list and the active process. */
  datatype Saved = Saved(base: Addr, objs: seq<Obj>, specials: nat, classList: nat, active: nat)

  ghost predicate SavedOk(s: Saved) {
    && ObjsOk(s.objs) && Shaped(s.objs) && SitesKnown(s.objs, s.base)
    && s.specials < |s.objs| && s.classList < |s.objs| && s.active < |s.objs|
    && s.objs[s.specials].body.Slots? && s.objs[s.classList].body.Slots?
    && s.base + Size(s.objs) < W61
  }

  // ---------- the bytes ----------

  function WordBytes(words: seq<nat>): (r: seq<Byte>)
    ensures |r| == 8 * |words|
  {
    if words == [] then [] else LE(words[0], 8) + WordBytes(words[1..])
  }

  function HeaderBytes(base: nat, size: nat, sp: nat, cl: nat, active: nat): (r: seq<Byte>)
    ensures |r| == IMG_HEADER_SIZE
  {
    LE(IMG_MAGIC, 4) + LE(1, 4) + LE(0, 8) + LE(base, 8) + LE(size, 8) + LE(sp, 8) + LE(cl, 8) + LE(active, 8) + LE(0, 8)
  }

  ghost function ImageBytes(s: Saved): seq<Byte>
    requires SavedOk(s)
  {
    HeaderBytes(8 * s.base, 8 * Size(s.objs), 8 * Heads(s.objs, 0)[s.specials], 8 * Heads(s.objs, 0)[s.classList],
                8 * Heads(s.objs, 0)[s.active]) + WordBytes(Layout(s.objs))
  }

  function Read(data: seq<Byte>, off: nat, n: nat): nat
    requires off + n <= |data|
  {
    FromLE(data[off..off + n])
  }

  /** Why a file is refused. */
  function HeaderError(data: seq<Byte>): (e: seq<Error>)
    ensures e == [] ==> |data| >= IMG_HEADER_SIZE
  {
    if |data| < IMG_HEADER_SIZE || Read(data, 0, 4) != IMG_MAGIC then [NotAnImage]
    else if Read(data, 4, 4) != 1 then [UnsupportedVersion]
    else if |data| < IMG_HEADER_SIZE + Read(data, 24, 8) then [Truncated]
    else []
  }

  lemma ReadPart(a: seq<Byte>, w: nat, n: nat, b: seq<Byte>)
    requires w < Pow256(n)
    ensures |a| + n <= |a + LE(w, n) + b| && Read(a + LE(w, n) + b, |a|, n) == w
  {
    LERoundTrip(w, n);
    assert (a + LE(w, n) + b)[|a|..|a| + n] == LE(w, n);
  }

  lemma HeaderFields(base: nat, size: nat, sp: nat, cl: nat, active: nat, rest: seq<Byte>)
    requires base < W64 && size < W64 && sp < W64 && cl < W64 && active < W64
    ensures var data := HeaderBytes(base, size, sp, cl, active) + rest;
      && |data| == IMG_HEADER_SIZE + |rest|
      && Read(data, 0, 4) == IMG_MAGIC && Read(data, 4, 4) == 1
      && Read(data, 16, 8) == base && Read(data, 24, 8) == size && Read(data, 32, 8) == sp && Read(data, 40, 8) == cl
      && Read(data, 48, 8) == active
  {
    PowersOf256();
    hide LE, Pow256, Read;
    var data := HeaderBytes(base, size, sp, cl, active) + rest;
    var m, v, f, z := LE(IMG_MAGIC, 4), LE(1, 4), LE(0, 8), LE(0, 8);
    var b, s, p, c, a := LE(base, 8), LE(size, 8), LE(sp, 8), LE(cl, 8), LE(active, 8);
    assert data == [] + m + (v + f + b + s + p + c + a + z + rest);
    ReadPart([], IMG_MAGIC, 4, v + f + b + s + p + c + a + z + rest);
    assert data == m + v + (f + b + s + p + c + a + z + rest);
    ReadPart(m, 1, 4, f + b + s + p + c + a + z + rest);
    assert data == (m + v + f) + b + (s + p + c + a + z + rest);
    ReadPart(m + v + f, base, 8, s + p + c + a + z + rest);
    assert data == (m + v + f + b) + s + (p + c + a + z + rest);
    ReadPart(m + v + f + b, size, 8, p + c + a + z + rest);
    assert data == (m + v + f + b + s) + p + (c + a + z + rest);
    ReadPart(m + v + f + b + s, sp, 8, c + a + z + rest);
    assert data == (m + v + f + b + s + p) + c + (a + z + rest);
    ReadPart(m + v + f + b + s + p, cl, 8, a + z + rest);
    assert data == (m + v + f + b + s + p + c) + a + (z + rest);
    ReadPart(m + v + f + b + s + p + c, active, 8, z + rest);
  }

  lemma PowersOf256()
    ensures Pow256(4) == 0x1_0000_0000 && Pow256(8) == W64
  {
    assert Pow256(1) == 0x100;
    assert Pow256(2) == 0x1_0000;
    assert Pow256(3) == 0x100_0000;
    assert Pow256(4) == 0x1_0000_0000;
    assert Pow256(5) == 0x100_0000_0000;
    assert Pow256(6) == 0x1_0000_0000_0000;
    assert Pow256(7) == 0x100_0000_0000_0000;
  }

  lemma SkipWord(word: seq<Byte>, rest: seq<Byte>, i: nat)
    requires |word| == 8 && 0 < i && 8 * i <= |rest|
    ensures (word + rest)[8 * i..8 * i + 8] == rest[8 * (i - 1)..8 * (i - 1) + 8]
  {
  }

  lemma {:induction false} WordsReadBack(words: seq<nat>, i: nat)
    requires i < |words| && forall k :: 0 <= k < |words| ==> words[k] < W64
    ensures FromLE(WordBytes(words)[8 * i..8 * i + 8]) == words[i]
  {
    PowersOf256();
    var rest := WordBytes(words[1..]);
    hide Pow256, LE;
    assert WordBytes(words) == LE(words[0], 8) + rest;
    if i == 0 {
      LERoundTrip(words[0], 8);
      assert WordBytes(words)[0..8] == LE(words[0], 8);
    } else {
      WordsReadBack(words[1..], i - 1);
      SkipWord(LE(words[0], 8), rest, i);
    }
  }

  lemma {:induction false} LayoutWords(objs: seq<Obj>)
    requires ObjsOk(objs)
    ensures forall k :: 0 <= k < |Layout(objs)| ==> Layout(objs)[k] < W64
  {
    if objs != [] {
      HeaderReads(objs[0]);
      LayoutWords(objs[1..]);
      hide Header;
      assert forall k :: 0 <= k < |EncodeObj(objs[0])| ==> EncodeObj(objs[0])[k] < W64;
    }
  }
}
