/** The PNG writer, and a reader that follows the standards, to say what the written file means. */
module Png {
  import opened Options
  import opened ByteOrder
  import opened ChunkChecksum
  import opened StreamChecksum

  const U32: nat := 0x1_0000_0000
  const MAX_BLOCK: nat := 0xFFFF
  const SIGNATURE: seq<Byte> := [137, 80, 78, 71, 13, 10, 26, 10]
  const IHDR: seq<Byte> := [73, 72, 68, 82]
  const IDAT: seq<Byte> := [73, 68, 65, 84]
  const IEND: seq<Byte> := [73, 69, 78, 68]
  /** Depth 8, truecolor, deflate, no filter, no interlace. */
  const COLOR: seq<Byte> := [8, 2, 0, 0, 0]

  // ---------- big-endian numbers ----------

  function BE(w: nat, n: nat): (r: seq<Byte>)
    ensures |r| == n
  {
    if n == 0 then [] else BE(w / 256, n - 1) + [w % 256]
  }

  function FromBE(s: seq<Byte>): nat {
    if s == [] then 0 else FromBE(s[..|s| - 1]) * 256 + s[|s| - 1]
  }

  lemma {:induction false} BERoundTrip(w: nat, n: nat)
    requires w < Pow256(n)
    ensures FromBE(BE(w, n)) == w
  {
    if n > 0 {
      BERoundTrip(w / 256, n - 1);
      assert BE(w, n)[..n - 1] == BE(w / 256, n - 1);
    }
  }

  lemma Word32(w: nat)
    requires w < U32
    ensures FromBE(BE(w, 4)) == w
  {
    assert Pow256(1) == 0x100;
    assert Pow256(2) == 0x1_0000;
    assert Pow256(3) == 0x100_0000;
    BERoundTrip(w, 4);
  }

  lemma Word16(w: nat)
    requires w < 0x1_0000
    ensures FromLE(LE(w, 2)) == w
  {
    assert Pow256(1) == 0x100;
    LERoundTrip(w, 2);
  }

  // ---------- stored DEFLATE ----------

  /** A stored block: the final bit, LEN, its complement, the bytes. */
  function Block(last: bool, d: seq<Byte>): (r: seq<Byte>)
    requires |d| <= MAX_BLOCK
    ensures |r| == 5 + |d|
  {
    [if last then 1 else 0] + LE(|d|, 2) + LE(MAX_BLOCK - |d|, 2) + d
  }

  function Blocks(raw: seq<Byte>): (r: seq<Byte>)
  {
    if |raw| <= MAX_BLOCK then Block(true, raw) else Block(false, raw[..MAX_BLOCK]) + Blocks(raw[MAX_BLOCK..])
  }

  /** Read stored blocks up to the final one (section 3.2.4 of RFC 1951): the bytes and what follows. */
  function InflateBlocks(data: seq<Byte>): Option<(seq<Byte>, seq<Byte>)>
    decreases |data|
  {
    if |data| < 5 || data[0] / 2 % 4 != 0 then None
    else
      var len, complement := FromLE(data[1..3]), FromLE(data[3..5]);
      if complement != MAX_BLOCK - len || |data| < 5 + len then None
      else if data[0] % 2 == 1 then Some((data[5..5 + len], data[5 + len..]))
      else
        match InflateBlocks(data[5 + len..])
        case None => None
        case Some((more, rest)) => Some((data[5..5 + len] + more, rest))
  }

  function Zlib(raw: seq<Byte>): seq<Byte> {
    [0x78, 0x01] + Blocks(raw) + BE(Adler(raw), 4)
  }

  /** Read a zlib stream of stored blocks (section 2.2 of RFC 1950): method 8, no dictionary, a header that is a multiple of
      31, the blocks, the checksum, and nothing after it. */
  function Inflate(data: seq<Byte>): Option<seq<Byte>> {
    if |data| < 2 || data[0] % 16 != 8 || data[0] / 16 > 7 || data[1] / 32 % 2 != 0 || (data[0] as int * 256 + data[1] as int) % 31 != 0 then None
    else
      match InflateBlocks(data[2..])
      case None => None
      case Some((raw, rest)) => if |rest| == 4 && FromBE(rest) == Adler(raw) then Some(raw) else None
  }

  /** How a block reads, whatever follows it. */
  lemma BlockReads(last: bool, d: seq<Byte>, tail: seq<Byte>)
    requires |d| <= MAX_BLOCK
    ensures var data := Block(last, d) + tail;
      && data[0] == (if last then 1 else 0) && FromLE(data[1..3]) == |d| && FromLE(data[3..5]) == MAX_BLOCK - |d|
      && data[5..5 + |d|] == d && data[5 + |d|..] == tail
  {
    var data := Block(last, d) + tail;
    Word16(|d|);
    Word16(MAX_BLOCK - |d|);
    assert data[1..3] == LE(|d|, 2);
    assert data[3..5] == LE(MAX_BLOCK - |d|, 2);
  }

  /** The blocks inflate to what was stored, whatever follows them. */
  lemma {:induction false} BlocksInflate(raw: seq<Byte>, tail: seq<Byte>)
    ensures InflateBlocks(Blocks(raw) + tail) == Some((raw, tail))
    decreases |raw|
  {
    hide Block, FromLE;
    if |raw| <= MAX_BLOCK {
      BlockReads(true, raw, tail);
    } else {
      var d, more := raw[..MAX_BLOCK], raw[MAX_BLOCK..];
      BlocksInflate(more, tail);
      assert Blocks(raw) + tail == Block(false, d) + (Blocks(more) + tail);
      BlockReads(false, d, Blocks(more) + tail);
      assert d + more == raw;
    }
  }

  /** No proper prefix of the blocks inflates: only the last block is final. */
  lemma {:induction false} BlocksPrefix(raw: seq<Byte>, k: nat)
    requires k < |Blocks(raw)|
    ensures InflateBlocks(Blocks(raw)[..k]) == None
    decreases |raw|
  {
    hide Block, FromLE;
    var last := |raw| <= MAX_BLOCK;
    var d := if last then raw else raw[..MAX_BLOCK];
    var more := if last then [] else Blocks(raw[MAX_BLOCK..]);
    var part := Blocks(raw)[..k];
    assert Blocks(raw) == Block(last, d) + more;
    BlockReads(last, d, more);
    if k >= 5 {
      assert part[1..3] == Blocks(raw)[1..3] && part[3..5] == Blocks(raw)[3..5] && part[0] == Blocks(raw)[0];
      if k >= 5 + |d| {
        assert part[5 + |d|..] == more[..k - 5 - |d|];
        BlocksPrefix(raw[MAX_BLOCK..], k - 5 - |d|);
      }
    }
  }

  /** The stream inflates to what was stored, and no proper prefix of it inflates to anything. */
  lemma ZlibInflates(raw: seq<Byte>)
    ensures Inflate(Zlib(raw)) == Some(raw)
    ensures forall k :: 0 <= k < |Zlib(raw)| ==> Inflate(Zlib(raw)[..k]) == None
  {
    hide Blocks, InflateBlocks, Adler, BE, FromBE;
    var sum := BE(Adler(raw), 4);
    Word32(Adler(raw));
    BlocksInflate(raw, sum);
    assert Zlib(raw)[2..] == Blocks(raw) + sum;
    forall k | 0 <= k < |Zlib(raw)|
      ensures Inflate(Zlib(raw)[..k]) == None
    {
      if k >= 2 {
        ZlibPrefix(raw, k - 2);
        assert Zlib(raw)[..k][2..] == (Blocks(raw) + sum)[..k - 2];
      }
    }
  }

  lemma ZlibPrefix(raw: seq<Byte>, k: nat)
    requires k < |Blocks(raw)| + 4
    ensures var r := InflateBlocks((Blocks(raw) + BE(Adler(raw), 4))[..k]); r.Some? ==> |r.value.1| < 4
  {
    hide Blocks, InflateBlocks, Adler, BE, FromBE;
    var sum := BE(Adler(raw), 4);
    if k < |Blocks(raw)| {
      assert (Blocks(raw) + sum)[..k] == Blocks(raw)[..k];
      BlocksPrefix(raw, k);
    } else {
      assert (Blocks(raw) + sum)[..k] == Blocks(raw) + sum[..k - |Blocks(raw)|];
      BlocksInflate(raw, sum[..k - |Blocks(raw)|]);
    }
  }

  /** Bytes of the stream for `n` bytes. */
  function ZlibSize(n: nat): nat {
    n + 6 + 5 * (if n == 0 then 1 else (n + MAX_BLOCK - 1) / MAX_BLOCK)
  }

  lemma {:induction false} ZlibLength(raw: seq<Byte>)
    ensures |Zlib(raw)| == ZlibSize(|raw|)
    decreases |raw|
  {
    hide Adler, BE, Block;
    if |raw| > MAX_BLOCK {
      ZlibLength(raw[MAX_BLOCK..]);
    }
  }

  method ZlibStored(raw: seq<Byte>) returns (out: seq<Byte>)
    ensures out == Zlib(raw)
  {
    hide Block, LE, BE, Adler;
    out := [0x78, 0x01];
    if raw == [] {
      EmptyBlock();
      out := out + [0x01, 0x00, 0x00, 0xFF, 0xFF];
    } else {
      var i := 0;
      assert raw[0..] == raw;
      while i < |raw|
        invariant 0 <= i <= |raw|
        invariant i < |raw| ==> out + Blocks(raw[i..]) == [0x78, 0x01] + Blocks(raw)
        invariant i == |raw| ==> out == [0x78, 0x01] + Blocks(raw)
      {
        var len := if |raw| - i < MAX_BLOCK then |raw| - i else MAX_BLOCK;
        var finalBlock := i + len >= |raw|;
        NextBlock(raw[i..], len);
        assert raw[i..][..len] == raw[i..i + len] && raw[i..][len..] == raw[i + len..];
        BlockParts(finalBlock, raw[i..i + len]);
        ghost var before := out;
        out := out + [if finalBlock then 1 else 0];
        out := out + LE(len, 2);
        out := out + LE(MAX_BLOCK - len, 2);
        out := out + raw[i..i + len];
        assert out == before + Block(finalBlock, raw[i..i + len]);
        i := i + len;
      }
    }
    var sum := Adler32(raw);
    out := out + BE(sum, 4);
  }

  lemma EmptyBlock()
    ensures Blocks([]) == [0x01, 0x00, 0x00, 0xFF, 0xFF]
  {
    assert LE(0, 2) == [0, 0];
    assert LE(0xFFFF, 2) == [0xFF, 0xFF];
  }

  lemma NextBlock(raw: seq<Byte>, len: nat)
    requires 0 < |raw| && len == (if |raw| < MAX_BLOCK then |raw| else MAX_BLOCK)
    ensures Blocks(raw) == Block(len == |raw|, raw[..len]) + if len == |raw| then [] else Blocks(raw[len..])
  {
    hide Block;
    if len == |raw| {
      assert raw[..len] == raw;
      assert Block(true, raw) + [] == Block(true, raw);
    }
  }

  lemma BlockParts(last: bool, d: seq<Byte>)
    requires |d| <= MAX_BLOCK
    ensures Block(last, d) == [if last then 1 else 0] + LE(|d|, 2) + LE(MAX_BLOCK - |d|, 2) + d
  {
  }

  // ---------- chunks ----------

  /** Length, name, data, checksum; the length is truncated to 32 bits. */
  function ChunkBytes(name: seq<Byte>, data: seq<Byte>): (r: seq<Byte>)
    ensures |r| == 8 + |name| + |data|
  {
    BE(|data| % U32, 4) + name + data + BE(Crc(name + data), 4)
  }

  method Chunk(out: seq<Byte>, name: seq<Byte>, data: seq<Byte>) returns (r: seq<Byte>)
    ensures r == out + ChunkBytes(name, data)
  {
    hide BE, Crc;
    r := out + BE(|data| % U32, 4);
    var crcInput := name;
    crcInput := crcInput + data;
    r := r + name;
    r := r + data;
    var crc := Crc32(crcInput);
    r := r + BE(crc, 4);
    assert r == out + (BE(|data| % U32, 4) + name + data + BE(crc, 4));
  }

  /** Read the chunk with the given name at the front (sections 5.3 and 5.4 of the W3C PNG specification): its data and what
      follows. */
  function ReadChunk(name: seq<Byte>, file: seq<Byte>): Option<(seq<Byte>, seq<Byte>)>
    requires |name| == 4
  {
    if |file| < 12 then None
    else
      var len := FromBE(file[..4]);
      if |file| < 12 + len || file[4..8] != name || FromBE(file[8 + len..12 + len]) != Crc(file[4..8 + len]) then None
      else Some((file[8..8 + len], file[12 + len..]))
  }

  /** A chunk reads back when its length fits 32 bits. Otherwise a reader can at most see a proper prefix of its data. */
  lemma ChunkReads(name: seq<Byte>, data: seq<Byte>, tail: seq<Byte>)
    requires |name| == 4
    ensures var r := ReadChunk(name, ChunkBytes(name, data) + tail);
      && (|data| < U32 ==> r == Some((data, tail)))
      && (|data| >= U32 && r.Some? ==> |data| % U32 < |data| && r.value.0 == data[..|data| % U32])
  {
    hide BE, FromBE, Crc;
    var len, sum := |data| % U32, Crc(name + data);
    Word32(len);
    Word32(sum);
    var file := ChunkBytes(name, data) + tail;
    assert file == BE(len, 4) + (name + data + BE(sum, 4) + tail);
    Parts(BE(len, 4), name, data, BE(sum, 4), tail, len);
    if |data| < U32 {
      assert data[..len] == data;
    }
  }

  lemma Parts(len: seq<Byte>, name: seq<Byte>, data: seq<Byte>, sum: seq<Byte>, tail: seq<Byte>, n: nat)
    requires |len| == |name| == |sum| == 4 && n <= |data|
    ensures var file := len + (name + data + sum + tail);
      && file[..4] == len && file[4..8] == name && file[8..8 + n] == data[..n] && |file| >= 12 + n
      && (n == |data| ==> file[4..8 + n] == name + data && file[8 + n..12 + n] == sum && file[12 + n..] == tail)
  {
    var file := len + (name + data + sum + tail);
    assert file[..4] == len;
    assert file[4..8] == name;
    assert file[8..8 + n] == data[..n];
    if n == |data| {
      assert file[4..8 + n] == name + data;
      assert file[8 + n..12 + n] == sum;
      assert file[12 + n..] == tail;
    }
  }

  // ---------- the image ----------

  /** Rows of `stride` bytes, each behind a filter byte 0. */
  function Rows(rgb: seq<Byte>, stride: nat, n: nat): (r: seq<Byte>)
    requires |rgb| == n * stride
    ensures |r| == n * (1 + stride)
  {
    if n == 0 then []
    else
      RowSplit(n, stride);
      [0] + rgb[..stride] + Rows(rgb[stride..], stride, n - 1)
  }

  lemma RowSplit(n: nat, stride: nat)
    requires n > 0
    ensures n * stride == stride + (n - 1) * stride && n * (1 + stride) == 1 + stride + (n - 1) * (1 + stride)
    ensures n * stride >= stride
  {
  }

  /** Undo the filtering: every row must have filter 0. */
  function Unfilter(raw: seq<Byte>, stride: nat, n: nat): Option<seq<Byte>> {
    if n == 0 then if raw == [] then Some([]) else None
    else if |raw| < 1 + stride || raw[0] != 0 then None
    else
      match Unfilter(raw[1 + stride..], stride, n - 1)
      case None => None
      case Some(rest) => Some(raw[1..1 + stride] + rest)
  }

  lemma {:induction false} RowsUnfilter(rgb: seq<Byte>, stride: nat, n: nat)
    requires |rgb| == n * stride
    ensures Unfilter(Rows(rgb, stride, n), stride, n) == Some(rgb)
  {
    if n == 0 {
      assert rgb == [];
    } else {
      RowSplit(n, stride);
      RowsUnfilter(rgb[stride..], stride, n - 1);
      var row, rest := rgb[..stride], Rows(rgb[stride..], stride, n - 1);
      var raw := [0] + row + rest;
      assert raw[1..1 + stride] == row && raw[1 + stride..] == rest;
      assert row + rgb[stride..] == rgb;
    }
  }

  datatype Picture = Picture(width: nat, height: nat, rgb: seq<Byte>)

  /** Read a truecolor PNG with one IDAT chunk. */
  function Decode(file: seq<Byte>): Option<Picture> {
    if |file| < 8 || file[..8] != SIGNATURE then None
    else
      match ReadChunk(IHDR, file[8..])
      case None => None
      case Some((ihdr, afterHeader)) =>
        if |ihdr| != 13 || ihdr[8..] != COLOR then None
        else
          var width, height := FromBE(ihdr[..4]), FromBE(ihdr[4..8]);
          match ReadChunk(IDAT, afterHeader)
          case None => None
          case Some((idat, afterData)) =>
            match ReadChunk(IEND, afterData)
            case None => None
            case Some((iend, rest)) =>
              if iend != [] || rest != [] then None
              else
                match Inflate(idat)
                case None => None
                case Some(raw) =>
                  match Unfilter(raw, 3 * width, height)
                  case None => None
                  case Some(rgb) => Some(Picture(width, height, rgb))
  }

  /** What the writer puts in a file. */
  function FileBytes(width: nat, height: nat, rgb: seq<Byte>): seq<Byte>
    requires |rgb| == height * (3 * width)
  {
    SIGNATURE + ChunkBytes(IHDR, BE(width, 4) + BE(height, 4) + COLOR)
    + ChunkBytes(IDAT, Zlib(Rows(rgb, 3 * width, height))) + ChunkBytes(IEND, [])
  }

  /** Put a filter byte before every row. */
  method FilterRows(rgb: seq<Byte>, stride: nat, height: nat) returns (raw: seq<Byte>)
    requires |rgb| == height * stride
    ensures raw == Rows(rgb, stride, height)
  {
    hide Rows;
    raw := [];
    RowsFrom(rgb, stride, height);
    for y := 0 to height
      invariant 0 <= y * stride <= |rgb| && |rgb[y * stride..]| == (height - y) * stride
      invariant raw + Rows(rgb[y * stride..], stride, height - y) == Rows(rgb, stride, height)
    {
      NextRow(rgb, stride, height, y);
      raw := raw + [0];
      raw := raw + rgb[y * stride..(y + 1) * stride];
    }
    NoRow(rgb[height * stride..], stride);
  }

  /** Encode RGB rows. `None` is a panic: the 32-bit products overflow, or the size of `rgb` does not match. */
  method EncodeRgb(width: nat, height: nat, rgb: seq<Byte>) returns (out: Option<seq<Byte>>)
    requires width < U32 && height < U32
    ensures out.Some? <==> |rgb| == width * height * 3 && width * height * 3 < U32 && width * 3 < U32
    ensures out.Some? ==> |rgb| == height * (3 * width) && out.value == FileBytes(width, height, rgb)
  {
    hide Rows, BE, Zlib, ChunkBytes;
    if width * height >= U32 || width * height * 3 >= U32 || |rgb| != width * height * 3 || width * 3 >= U32 {
      NoProduct(width, height);
      return None;
    }
    Products(width, height);
    var stride := width * 3;
    var raw := FilterRows(rgb, stride, height);
    var f := SIGNATURE;
    var ihdr := BE(width, 4);
    ihdr := ihdr + BE(height, 4);
    ihdr := ihdr + COLOR;
    f := Chunk(f, IHDR, ihdr);
    var z := ZlibStored(raw);
    f := Chunk(f, IDAT, z);
    f := Chunk(f, IEND, []);
    out := Some(f);
  }

  lemma NoProduct(width: nat, height: nat)
    ensures width * height <= width * height * 3
  {
  }

  lemma Products(width: nat, height: nat)
    ensures height * (width * 3) == width * height * 3
  {
  }

  lemma RowsFrom(rgb: seq<Byte>, stride: nat, n: nat)
    requires |rgb| == n * stride
    ensures rgb[0 * stride..] == rgb && 0 * stride == 0
    ensures [] + Rows(rgb, stride, n) == Rows(rgb, stride, n)
  {
  }

  lemma NoRow(rgb: seq<Byte>, stride: nat)
    requires |rgb| == 0
    ensures 0 * stride == 0 && Rows(rgb, stride, 0) == []
  {
  }

  lemma NextRow(rgb: seq<Byte>, stride: nat, n: nat, y: nat)
    requires y < n && |rgb| == n * stride
    ensures y * stride <= (y + 1) * stride <= |rgb|
    ensures |rgb[y * stride..]| == (n - y) * stride && |rgb[(y + 1) * stride..]| == (n - (y + 1)) * stride
    ensures Rows(rgb[y * stride..], stride, n - y) ==
      [0] + rgb[y * stride..(y + 1) * stride] + Rows(rgb[(y + 1) * stride..], stride, n - (y + 1))
  {
    assert (y + 1) * stride == y * stride + stride;
    assert (n - y) * stride == n * stride - y * stride;
    assert (n - (y + 1)) * stride == n * stride - (y + 1) * stride;
    var rest := rgb[y * stride..];
    assert n - y > 0;
    RowSplit(n - y, stride);
    assert rest[..stride] == rgb[y * stride..(y + 1) * stride];
    assert rest[stride..] == rgb[(y + 1) * stride..];
  }

  /** The file reads back as the picture exactly when the compressed rows fit the 32-bit chunk length. */
  lemma RoundTrip(width: nat, height: nat, rgb: seq<Byte>)
    requires width < U32 && height < U32 && |rgb| == height * (3 * width)
    ensures Decode(FileBytes(width, height, rgb)) == Some(Picture(width, height, rgb)) <==>
      ZlibSize(height * (1 + 3 * width)) < U32
  {
    hide BE, FromBE, ChunkBytes, Rows, Zlib, Inflate, Unfilter, ReadChunk, ZlibSize;
    var raw := Rows(rgb, 3 * width, height);
    var ihdr := BE(width, 4) + BE(height, 4) + COLOR;
    var header, idat, end := ChunkBytes(IHDR, ihdr), ChunkBytes(IDAT, Zlib(raw)), ChunkBytes(IEND, []);
    var file := FileBytes(width, height, rgb);
    assert file[..8] == SIGNATURE;
    assert file[8..] == header + (idat + end);
    ChunkReads(IHDR, ihdr, idat + end);
    Word32(width);
    Word32(height);
    assert ihdr[..4] == BE(width, 4) && ihdr[4..8] == BE(height, 4) && ihdr[8..] == COLOR;
    ChunkReads(IDAT, Zlib(raw), end);
    assert end + [] == end;
    ChunkReads(IEND, [], []);
    ZlibLength(raw);
    ZlibInflates(raw);
    RowsUnfilter(rgb, 3 * width, height);
  }

  /** A black picture one pixel wide. */
  function Column(height: nat): (rgb: seq<Byte>)
    ensures |rgb| == height * (3 * 1) == 1 * height * 3
  {
    seq(3 * height, i => 0)
  }

  /** An input on which the file does not read back: the picture is accepted, but with a filter byte for each of its 2^30
      rows the compressed rows are longer than the chunk's length can say. */
  lemma TooTall()
    ensures |Column(0x4000_0000)| == 1 * 0x4000_0000 * 3 < U32
    ensures Decode(FileBytes(1, 0x4000_0000, Column(0x4000_0000))) != Some(Picture(1, 0x4000_0000, Column(0x4000_0000)))
  {
    hide Decode, FileBytes, Column;
    RoundTrip(1, 0x4000_0000, Column(0x4000_0000));
  }
}
