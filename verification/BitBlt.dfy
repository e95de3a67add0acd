/** Copying a rectangle of bits between 1-bit forms: rows of packed bits, the leftmost pixel in the highest bit. */
module BitBlt {
  import opened Options
  import opened FailureCodes
  import ObjectFormat

  const W64 := ObjectFormat.W64
  const SETUP_SLOTS: nat := 14
  const FORM_SLOTS: nat := 4

  type SmallInt = i: int | ObjectFormat.SMALLINT_MIN <= i <= ObjectFormat.SMALLINT_MAX

  /** What a slot holds; the bytes of a ByteArray are shared by whoever refers to it. */
  datatype Field = Int(i: SmallInt) | Nil | Slots(slots: seq<Field>) | Bytes(bytes: array<bv8>)

  datatype Form = Form(width: SmallInt, height: SmallInt, depth: SmallInt, bits: array<bv8>)

  /** What the rectangle is copied from: a copy of the form's bits. */
  datatype Image = Image(width: SmallInt, height: SmallInt, data: seq<bv8>)

  datatype Blt = Blt(rule: int, dx: int, dy: int, w: int, h: int, sx: int, sy: int, cx: int, cy: int, cw: int, ch: int)

  /** `Panic` is an overflow of unsigned 64-bit arithmetic. */
  datatype Outcome = Done(pixels: nat) | Fail(code: nat) | Panic

  // ---------- bits ----------

  /** Bit `i` of a byte, 0 the highest. */
  function BitOf(b: bv8, i: nat): (r: bv8)
    requires i < 8
    ensures r == 0 || r == 1
  {
    (b >> (7 - i)) & 1
  }

  function WithBit(b: bv8, i: nat, v: bv8): bv8
    requires i < 8
  {
    if v == 1 then b | (1 << (7 - i)) else b & !(1 << (7 - i))
  }

  lemma WithBitReads(b: bv8, i: nat, v: bv8, k: nat)
    requires i < 8 && k < 8 && (v == 0 || v == 1)
    ensures BitOf(WithBit(b, i, v), k) == if k == i then v else BitOf(b, k)
  {
    if i == 0 {
    } else if i == 1 {
    } else if i == 2 {
    } else if i == 3 {
    } else if i == 4 {
    } else if i == 5 {
    } else if i == 6 {
    }
  }

  /** Bytes of a row; a negative width is converted to an unsigned word first. */
  function Stride(width: int): nat {
    (width % W64 + 7) / 8
  }

  /** The pixel at column `x` of row `y`. */
  function Pixel(data: seq<bv8>, stride: nat, x: nat, y: nat): bv8
    requires y * stride + x / 8 < |data|
  {
    BitOf(data[y * stride + x / 8], x % 8)
  }

  function Bytes64(width: int, height: int): nat {
    height % W64 * Stride(width)
  }

  /** A pixel of the form has its byte. */
  lemma InBounds(width: int, height: int, x: int, y: int)
    requires 0 <= x < width < W64 && 0 <= y < height < W64
    ensures x / 8 < Stride(width) && 0 <= y * Stride(width) + x / 8 < Bytes64(width, height)
    ensures (y * Stride(width) + x / 8) / Stride(width) == y && (y * Stride(width) + x / 8) % Stride(width) == x / 8
  {
    var n := Stride(width);
    assert width % W64 == width && height % W64 == height;
    assert x / 8 < n;
    Within(y, height, n, x / 8);
  }

  lemma Within(y: nat, height: nat, n: nat, r: nat)
    requires y < height && r < n
    ensures y * n + r < height * n && (y * n + r) / n == y && (y * n + r) % n == r
  {
    assert (y + 1) * n <= height * n;
    DivMod(y, n, r);
  }

  lemma DivMod(y: nat, n: nat, r: nat)
    requires r < n
    ensures (y * n + r) / n == y && (y * n + r) % n == r
  {
    var a := y * n + r;
    SameQuotient(n, y, r, a / n, a % n);
  }

  lemma SameQuotient(n: nat, y: nat, r: nat, q: nat, m: nat)
    requires r < n && m < n && y * n + r == n * q + m
    ensures y == q && r == m
  {
    RowsApart(y, q, n);
    RowsApart(q, y, n);
  }

  lemma {:induction false} RowsApart(a: nat, b: nat, n: nat)
    ensures a < b ==> a * n + n <= b * n
  {
    if a + 1 < b {
      RowsApart(a, b - 1, n);
    }
  }

  // ---------- the rectangle ----------

  /** The pixel lies in the target rectangle, the clip and the destination form. */
  predicate Covers(b: Blt, width: int, height: int, x: int, y: int) {
    && b.dx <= x < b.dx + b.w && b.dy <= y < b.dy + b.h
    && b.cx <= x < b.cx + b.cw && b.cy <= y < b.cy + b.ch
    && 0 <= x < width && 0 <= y < height
  }

  ghost predicate ImageOk(src: Option<Image>) {
    src.Some? ==> Bytes64(src.value.width, src.value.height) <= |src.value.data|
  }

  /** The source sample for a pixel: 0 without a source or outside it. */
  function SourceBit(b: Blt, src: Option<Image>, x: int, y: int): (r: bv8)
    requires ImageOk(src)
    ensures r == 0 || r == 1
  {
    var sx, sy := b.sx + (x - b.dx), b.sy + (y - b.dy);
    if src.Some? && 0 <= sx < src.value.width && 0 <= sy < src.value.height then
      InBounds(src.value.width, src.value.height, sx, sy);
      Pixel(src.value.data, Stride(src.value.width), sx, sy)
    else 0
  }

  function Combine(rule: int, s: bv8, d: bv8): (r: bv8)
    requires (s == 0 || s == 1) && (d == 0 || d == 1)
    ensures r == 0 || r == 1
  {
    if rule == 0 then 0 else if rule == 3 then s else if rule == 6 then s ^ d else s | d
  }

  /** Bit `i` of byte `n` afterwards: combined if its pixel is covered, else as it was. */
  function NewBit(b: Blt, width: int, height: int, src: Option<Image>, n: nat, i: nat, bit: bv8): bv8
    requires ImageOk(src) && i < 8 && (bit == 0 || bit == 1) && Stride(width) > 0
  {
    var x, y := n % Stride(width) * 8 + i, n / Stride(width);
    if Covers(b, width, height, x, y) then Combine(b.rule, SourceBit(b, src, x, y), bit) else bit
  }

  /** Every covered pixel is combined, every other bit of the buffer, padding included, is as before. */
  ghost predicate Blitted(b: Blt, width: int, height: int, src: Option<Image>, before: seq<bv8>, after: seq<bv8>)
    requires ImageOk(src)
  {
    && |after| == |before|
    && (Stride(width) == 0 ==> after == before)
    && (Stride(width) > 0 ==>
          forall n: nat, i: nat :: n < |after| && i < 8 ==>
            BitOf(after[n], i) == NewBit(b, width, height, src, n, i, BitOf(before[n], i)))
  }

  /** Pixel by pixel: the destination afterwards against its definition. */
  lemma PixelsBlitted(b: Blt, width: int, height: int, src: Option<Image>, before: seq<bv8>, after: seq<bv8>, x: int, y: int)
    requires ImageOk(src) && Blitted(b, width, height, src, before, after)
    requires 0 <= x < width < W64 && 0 <= y < height < W64 && Bytes64(width, height) <= |before|
    ensures y * Stride(width) + x / 8 < |before| && y * Stride(width) + x / 8 >= 0
    ensures Pixel(after, Stride(width), x, y) ==
      if Covers(b, width, height, x, y) then Combine(b.rule, SourceBit(b, src, x, y), Pixel(before, Stride(width), x, y))
      else Pixel(before, Stride(width), x, y)
  {
    hide Stride, BitOf, SourceBit, Combine, Bytes64;
    InBounds(width, height, x, y);
  }

  ghost function Covered(b: Blt, width: int, height: int): set<(int, int)> {
    set x: int, y: int | 0 <= x < width && 0 <= y < height && Covers(b, width, height, x, y) :: (x, y)
  }

  /** Two rectangles of one copy, one after the other, make the whole. */
  ghost predicate SplitInto(b: Blt, b1: Blt, b2: Blt, width: int, height: int) {
    && b1.rule == b.rule && b2.rule == b.rule
    && b1.sx - b1.dx == b.sx - b.dx && b2.sx - b2.dx == b.sx - b.dx
    && b1.sy - b1.dy == b.sy - b.dy && b2.sy - b2.dy == b.sy - b.dy
    && (forall x, y :: Covers(b, width, height, x, y) <==> Covers(b1, width, height, x, y) || Covers(b2, width, height, x, y))
    && (forall x, y :: !(Covers(b1, width, height, x, y) && Covers(b2, width, height, x, y)))
  }

  lemma BlitSplit(b: Blt, b1: Blt, b2: Blt, width: int, height: int, src: Option<Image>, d0: seq<bv8>, d1: seq<bv8>, d2: seq<bv8>)
    requires ImageOk(src) && SplitInto(b, b1, b2, width, height)
    requires Blitted(b1, width, height, src, d0, d1) && Blitted(b2, width, height, src, d1, d2)
    ensures Blitted(b, width, height, src, d0, d2)
    ensures |Covered(b, width, height)| == |Covered(b1, width, height)| + |Covered(b2, width, height)|
  {
    hide Covers, Stride, BitOf, Combine, Covered, NewBit;
    if Stride(width) > 0 {
      forall n: nat, i: nat | n < |d2| && i < 8
        ensures BitOf(d2[n], i) == NewBit(b, width, height, src, n, i, BitOf(d0[n], i))
      {
        BitSplit(b, b1, b2, width, height, src, n, i, BitOf(d0[n], i));
      }
    }
    CoveredSplit(b, b1, b2, width, height);
  }

  lemma BitSplit(b: Blt, b1: Blt, b2: Blt, width: int, height: int, src: Option<Image>, n: nat, i: nat, bit: bv8)
    requires ImageOk(src) && SplitInto(b, b1, b2, width, height) && i < 8 && (bit == 0 || bit == 1) && Stride(width) > 0
    ensures var mid := NewBit(b1, width, height, src, n, i, bit);
      (mid == 0 || mid == 1) && NewBit(b2, width, height, src, n, i, mid) == NewBit(b, width, height, src, n, i, bit)
  {
    hide Covers, Stride, BitOf, Combine, Pixel;
  }

  lemma CoveredSplit(b: Blt, b1: Blt, b2: Blt, width: int, height: int)
    requires SplitInto(b, b1, b2, width, height)
    ensures |Covered(b, width, height)| == |Covered(b1, width, height)| + |Covered(b2, width, height)|
  {
    hide Covers;
    assert Covered(b, width, height) == Covered(b1, width, height) + Covered(b2, width, height);
    assert Covered(b1, width, height) !! Covered(b2, width, height);
  }

  lemma NothingCovered(b: Blt, width: int, height: int, src: Option<Image>, data: seq<bv8>)
    requires ImageOk(src) && forall x, y :: !Covers(b, width, height, x, y)
    ensures Blitted(b, width, height, src, data, data) && Covered(b, width, height) == {}
  {
    hide Covers, BitOf, Stride, SourceBit, Combine;
  }

  // ---------- the loops ----------

  /** The part of a copy that is one pixel of its rectangle, one row, or its first rows. */
  function PixelOf(b: Blt, i: int): Blt {
    b.(dx := b.dx + i, sx := b.sx + i, w := 1)
  }

  function RowOf(b: Blt, j: int): Blt {
    b.(dy := b.dy + j, sy := b.sy + j, h := 1)
  }

  /** Combine one pixel. */
  method BlitPixel(b: Blt, width: int, height: int, src: Option<Image>, dst: array<bv8>)
    requires ImageOk(src) && b.w == 1 && b.h == 1 && width < W64 && height < W64 && Bytes64(width, height) <= dst.Length
    requires Covers(b, width, height, b.dx, b.dy)
    modifies dst
    ensures Blitted(b, width, height, src, old(dst[..]), dst[..])
  {
    hide BitOf, WithBit, Stride, Bytes64;
    var px, py := b.dx, b.dy;
    var sbit: bv8 := 0;
    if src.Some? {
      var sxx, syy := b.sx, b.sy;
      if sxx >= 0 && syy >= 0 && sxx < src.value.width && syy < src.value.height {
        InBounds(src.value.width, src.value.height, sxx, syy);
        var byte := src.value.data[syy * Stride(src.value.width) + sxx / 8];
        sbit := BitOf(byte, sxx % 8);
      }
    }
    assert sbit == SourceBit(b, src, px, py);
    InBounds(width, height, px, py);
    var didx := py * Stride(width) + px / 8;
    var dbit := BitOf(dst[didx], px % 8);
    var out := if b.rule == 0 then 0 else if b.rule == 3 then sbit else if b.rule == 6 then sbit ^ dbit else sbit | dbit;
    assert out == Combine(b.rule, sbit, dbit);
    ghost var before := dst[..];
    dst[didx] := WithBit(dst[didx], px % 8, out);
    OnePixel(b, width, height, src, before, dst[..], didx, out);
  }

  lemma OnePixel(b: Blt, width: int, height: int, src: Option<Image>, before: seq<bv8>, after: seq<bv8>, didx: nat, out: bv8)
    requires ImageOk(src) && b.w == 1 && b.h == 1 && Covers(b, width, height, b.dx, b.dy)
    requires Stride(width) > 0 && didx < |before| && didx / Stride(width) == b.dy && didx % Stride(width) == b.dx / 8
    requires out == Combine(b.rule, SourceBit(b, src, b.dx, b.dy), BitOf(before[didx], b.dx % 8))
    requires after == before[didx := WithBit(before[didx], b.dx % 8, out)]
    ensures Blitted(b, width, height, src, before, after)
  {
    hide BitOf, WithBit, Stride, SourceBit, Combine;
    forall n: nat, i: nat | n < |after| && i < 8
      ensures BitOf(after[n], i) == NewBit(b, width, height, src, n, i, BitOf(before[n], i))
    {
      WithBitReads(before[didx], b.dx % 8, out, i);
      var m := Stride(width);
      if Covers(b, width, height, n % m * 8 + i, n / m) {
        SamePlace(m, n, didx);
      }
    }
  }

  lemma SamePlace(m: nat, n: nat, k: nat)
    requires m > 0 && n / m == k / m && n % m == k % m
    ensures n == k
  {
  }

  /** The inner loop: one row of the rectangle. */
  method BlitRow(b: Blt, width: int, height: int, src: Option<Image>, dst: array<bv8>, cx0: int, cx1: int) returns (pixels: nat)
    requires ImageOk(src) && b.h == 1 && width < W64 && height < W64 && Bytes64(width, height) <= dst.Length
    requires cx0 == (if b.cx > 0 then b.cx else 0) && cx1 == (if b.cx + b.cw < width then b.cx + b.cw else width)
    requires b.cy <= b.dy < b.cy + b.ch && 0 <= b.dy < height
    modifies dst
    ensures Blitted(b, width, height, src, old(dst[..]), dst[..])
    ensures pixels == |Covered(b, width, height)|
  {
    hide Blitted, Covered, Bytes64;
    pixels := 0;
    var i := 0;
    NothingCovered(b.(w := 0), width, height, src, dst[..]);
    while i < b.w
      invariant 0 <= i && (b.w >= 0 ==> i <= b.w) && (b.w < 0 ==> i == 0)
      invariant Blitted(b.(w := i), width, height, src, old(dst[..]), dst[..])
      invariant pixels == |Covered(b.(w := i), width, height)|
      invariant b.w < 0 ==> dst[..] == old(dst[..]) && pixels == 0
    {
      ghost var now := dst[..];
      var px := b.dx + i;
      if px < cx0 || px >= cx1 {
        NothingCovered(PixelOf(b, i), width, height, src, now);
      } else {
        BlitPixel(PixelOf(b, i), width, height, src, dst);
        OnePixelCovered(PixelOf(b, i), width, height);
        pixels := pixels + 1;
      }
      BlitSplit(b.(w := i + 1), b.(w := i), PixelOf(b, i), width, height, src, old(dst[..]), now, dst[..]);
      i := i + 1;
    }
    if b.w < 0 {
      NothingCovered(b, width, height, src, dst[..]);
    }
  }

  lemma OnePixelCovered(b: Blt, width: int, height: int)
    requires b.w == 1 && b.h == 1 && Covers(b, width, height, b.dx, b.dy)
    ensures |Covered(b, width, height)| == 1
  {
    assert Covered(b, width, height) == {(b.dx, b.dy)};
  }

  lemma NoRows(b: Blt, width: int, height: int)
    requires b.h <= 0
    ensures forall x, y :: !Covers(b, width, height, x, y)
  {
  }

  lemma RowSkipped(b: Blt, width: int, height: int, j: int)
    requires var y := b.dy + j; y < 0 || y < b.cy || y >= height || y >= b.cy + b.ch
    ensures forall x, y :: !Covers(RowOf(b, j), width, height, x, y)
  {
  }

  lemma OneMoreRow(b: Blt, width: int, height: int, j: int)
    requires 0 <= j
    ensures SplitInto(b.(h := j + 1), b.(h := j), RowOf(b, j), width, height)
  {
  }

  /** The outer loop: all rows. */
  method BlitRows(b: Blt, width: int, height: int, src: Option<Image>, dst: array<bv8>) returns (pixels: nat)
    requires ImageOk(src) && width < W64 && height < W64 && Bytes64(width, height) <= dst.Length
    modifies dst
    ensures Blitted(b, width, height, src, old(dst[..]), dst[..])
    ensures pixels == |Covered(b, width, height)|
  {
    hide Blitted, Covered, Bytes64, Covers, SplitInto, Stride;
    var cx0 := if b.cx > 0 then b.cx else 0;
    var cy0 := if b.cy > 0 then b.cy else 0;
    var cx1 := if b.cx + b.cw < width then b.cx + b.cw else width;
    var cy1 := if b.cy + b.ch < height then b.cy + b.ch else height;
    pixels := 0;
    var j := 0;
    NoRows(b.(h := 0), width, height);
    NothingCovered(b.(h := 0), width, height, src, dst[..]);
    while j < b.h
      invariant 0 <= j && (b.h >= 0 ==> j <= b.h) && (b.h < 0 ==> j == 0)
      invariant Blitted(b.(h := j), width, height, src, old(dst[..]), dst[..])
      invariant pixels == |Covered(b.(h := j), width, height)|
      invariant b.h < 0 ==> dst[..] == old(dst[..]) && pixels == 0
    {
      ghost var now := dst[..];
      var py := b.dy + j;
      if py < cy0 || py >= cy1 {
        RowSkipped(b, width, height, j);
        NothingCovered(RowOf(b, j), width, height, src, now);
      } else {
        var n := BlitRow(RowOf(b, j), width, height, src, dst, cx0, cx1);
        pixels := pixels + n;
      }
      OneMoreRow(b, width, height, j);
      BlitSplit(b.(h := j + 1), b.(h := j), RowOf(b, j), width, height, src, old(dst[..]), now, dst[..]);
      j := j + 1;
    }
    if b.h < 0 {
      NoRows(b, width, height);
      NothingCovered(b, width, height, src, dst[..]);
    }
  }

  // ---------- how many pixels ----------

  /** How much of [a, a + n) lies in [c, c + m) and in [0, limit). */
  function Span(a: int, n: int, c: int, m: int, limit: int): nat {
    var lo := if a >= c && a >= 0 then a else if c >= 0 then c else 0;
    var hi := if a + n <= c + m && a + n <= limit then a + n else if c + m <= limit then c + m else limit;
    if lo < hi then hi - lo else 0
  }

  /** The count is the area of target rectangle, clip and form in common. */
  lemma {:induction false} CoveredArea(b: Blt, width: int, height: int)
    ensures |Covered(b, width, height)| == Span(b.dx, b.w, b.cx, b.cw, width) * Span(b.dy, b.h, b.cy, b.ch, height)
    decreases if b.h > 0 then b.h else 0
  {
    hide Covers, Span, Covered;
    if b.h <= 0 {
      NoRows(b, width, height);
      NoneCovered(b, width, height);
      SpanNext(b.dy, b.h, b.cy, b.ch, height);
    } else {
      var rest := b.(h := b.h - 1);
      CoveredArea(rest, width, height);
      OneMoreRow(b, width, height, b.h - 1);
      CoveredSplit(b, rest, RowOf(b, b.h - 1), width, height);
      RowArea(RowOf(b, b.h - 1), width, height);
      SpanNext(b.dy, b.h, b.cy, b.ch, height);
      MoreRows(Span(b.dx, b.w, b.cx, b.cw, width), Span(b.dy, b.h - 1, b.cy, b.ch, height), Span(b.dy + b.h - 1, 1, b.cy, b.ch, height));
    }
  }

  lemma MoreRows(w: nat, h: nat, one: nat)
    ensures w * (h + one) == w * h + w * one
  {
  }

  lemma NoneCovered(b: Blt, width: int, height: int)
    requires forall x, y :: !Covers(b, width, height, x, y)
    ensures Covered(b, width, height) == {}
  {
  }

  lemma SpanNext(a: int, n: int, c: int, m: int, limit: int)
    ensures n <= 0 ==> Span(a, n, c, m, limit) == 0
    ensures n > 0 ==> Span(a, n, c, m, limit) == Span(a, n - 1, c, m, limit) + Span(a + n - 1, 1, c, m, limit)
    ensures Span(a, 1, c, m, limit) == if c <= a < c + m && 0 <= a < limit then 1 else 0
  {
  }

  lemma {:induction false} RowArea(b: Blt, width: int, height: int)
    requires b.h == 1
    ensures |Covered(b, width, height)| == Span(b.dx, b.w, b.cx, b.cw, width) * Span(b.dy, 1, b.cy, b.ch, height)
    decreases if b.w > 0 then b.w else 0
  {
    hide Covered, Span;
    SpanNext(b.dx, b.w, b.cx, b.cw, width);
    SpanNext(b.dy, 1, b.cy, b.ch, height);
    if b.w <= 0 || Span(b.dy, 1, b.cy, b.ch, height) == 0 {
      NoneCovered(b, width, height);
    } else {
      var rest, last := b.(w := b.w - 1), PixelOf(b, b.w - 1);
      RowArea(rest, width, height);
      CoveredSplit(b, rest, last, width, height);
      SpanNext(b.dx + b.w - 1, 1, b.cx, b.cw, width);
      if Covers(last, width, height, last.dx, last.dy) {
        OnePixelCovered(last, width, height);
      } else {
        NoneCovered(last, width, height);
      }
    }
  }

  // ---------- the primitive ----------

  function FormFields(f: Field): Option<Form> {
    if f.Slots? && |f.slots| >= FORM_SLOTS && f.slots[0].Int? && f.slots[1].Int? && f.slots[2].Int? && f.slots[3].Bytes?
    then Some(Form(f.slots[0].i, f.slots[1].i, f.slots[2].i, f.slots[3].bytes))
    else None
  }

  predicate IsSetup(f: Field) {
    f.Slots? && |f.slots| >= SETUP_SLOTS && forall k :: 3 <= k < SETUP_SLOTS ==> f.slots[k].Int?
  }

  function Settings(f: Field): Blt
    requires IsSetup(f)
  {
    Blt(f.slots[3].i, f.slots[4].i, f.slots[5].i, f.slots[6].i, f.slots[7].i, f.slots[8].i, f.slots[9].i,
        f.slots[10].i, f.slots[11].i, f.slots[12].i, f.slots[13].i)
  }

  predicate KnownRule(rule: int) {
    rule == 0 || rule == 3 || rule == 6 || rule == 7
  }

  predicate IsBitmap(f: Field) {
    FormFields(f).Some? && FormFields(f).value.depth == 1
  }

  /** A setup object with a known rule, a 1-bit destination, and no source or a 1-bit one. */
  predicate Usable(f: Field) {
    IsSetup(f) && KnownRule(Settings(f).rule) && IsBitmap(f.slots[0]) && (f.slots[1] == Nil || IsBitmap(f.slots[1]))
  }

  predicate Holds(f: Form) {
    Bytes64(f.width, f.height) <= f.bits.Length
  }

  predicate Acceptable(f: Field) {
    Usable(f) && Holds(FormFields(f.slots[0]).value) && (f.slots[1] == Nil || Holds(FormFields(f.slots[1]).value))
  }

  /** The unsigned size computations overflow: the destination's first, then, if that fits, the source's. */
  predicate Overflows(f: Field)
    requires Usable(f)
  {
    var d := FormFields(f.slots[0]).value;
    || Bytes64(d.width, d.height) >= W64
    || (Holds(d) && f.slots[1] != Nil &&
        var s := FormFields(f.slots[1]).value; Bytes64(s.width, s.height) >= W64)
  }

  ghost function Destination(f: Field): set<object> {
    if Usable(f) then {FormFields(f.slots[0]).value.bits} else {}
  }

  /** The source as it is before the call. */
  function SourceImage(f: Field): Option<Image>
    requires Usable(f)
    reads if f.slots[1] == Nil then {} else {FormFields(f.slots[1]).value.bits}
  {
    if f.slots[1] == Nil then None
    else
      var s := FormFields(f.slots[1]).value;
      Some(Image(s.width, s.height, s.bits[..]))
  }

  /** Copy a rectangle of bits. Either every covered pixel of the destination is combined and nothing else changes, or
      nothing changes at all. Source and destination may be the same form: the source is read as it was before. */
  method PrimBitBlt(setup: Field) returns (r: Outcome)
    modifies Destination(setup)
    ensures r.Done? <==> Acceptable(setup) && !Overflows(setup)
    ensures r == Panic <==> Usable(setup) && Overflows(setup)
    ensures r == Fail(FAIL_UNSUPPORTED_CONTEXT) <==> IsSetup(setup) && !KnownRule(Settings(setup).rule)
    ensures r == Fail(FAIL_WRONG_TYPE) <==>
      !IsSetup(setup) ||
      (KnownRule(Settings(setup).rule) &&
       (FormFields(setup.slots[0]).None? ||
        (IsBitmap(setup.slots[0]) && setup.slots[1] != Nil && FormFields(setup.slots[1]).None?)))
    ensures r.Fail? ==> r.code == FAIL_WRONG_TYPE || r.code == FAIL_UNSUPPORTED_CONTEXT || r.code == FAIL_BAD_INDEX
    ensures !r.Done? ==> forall a: array<bv8> :: a in Destination(setup) ==> a[..] == old(a[..])
    ensures r.Done? ==>
      var d, b := FormFields(setup.slots[0]).value, Settings(setup);
      && ImageOk(old(SourceImage(setup)))
      && Blitted(b, d.width, d.height, old(SourceImage(setup)), old(d.bits[..]), d.bits[..])
      && r.pixels == Span(b.dx, b.w, b.cx, b.cw, d.width) * Span(b.dy, b.h, b.cy, b.ch, d.height)
  {
    hide Blitted, Covered, Bytes64, Span;
    if !IsSetup(setup) {
      return Fail(FAIL_WRONG_TYPE);
    }
    var b := Settings(setup);
    if b.rule != 0 && b.rule != 3 && b.rule != 6 && b.rule != 7 {
      return Fail(FAIL_UNSUPPORTED_CONTEXT);
    }
    var dest := FormFields(setup.slots[0]);
    if dest.None? {
      return Fail(FAIL_WRONG_TYPE);
    }
    var d := dest.value;
    if d.depth != 1 {
      return Fail(FAIL_BAD_INDEX);
    }
    var source := FormFields(setup.slots[1]);
    if setup.slots[1] != Nil {
      if source.None? {
        return Fail(FAIL_WRONG_TYPE);
      } else if source.value.depth != 1 {
        return Fail(FAIL_BAD_INDEX);
      }
    }
    var src := SourceImage(setup);
    var dst := new bv8[d.bits.Length](k requires 0 <= k < d.bits.Length reads d.bits => d.bits[k]);
    assert dst[..] == old(d.bits[..]);
    ghost var before := dst[..];
    if Bytes64(d.width, d.height) >= W64 {
      return Panic;
    }
    if dst.Length < Bytes64(d.width, d.height) {
      return Fail(FAIL_BAD_INDEX);
    }
    if src.Some? {
      if Bytes64(src.value.width, src.value.height) >= W64 {
        return Panic;
      }
      if |src.value.data| < Bytes64(src.value.width, src.value.height) {
        return Fail(FAIL_BAD_INDEX);
      }
    }
    var pixels := BlitRows(b, d.width, d.height, src, dst);
    CoveredArea(b, d.width, d.height);
    BlittedLength(b, d.width, d.height, src, before, dst[..]);
    ghost var after := dst[..];
    forall k | 0 <= k < d.bits.Length {
      d.bits[k] := dst[k];
    }
    assert d.bits[..] == after;
    r := Done(pixels);
  }

  lemma BlittedLength(b: Blt, width: int, height: int, src: Option<Image>, before: seq<bv8>, after: seq<bv8>)
    requires ImageOk(src) && Blitted(b, width, height, src, before, after)
    ensures |after| == |before|
  {
  }
}
