/** The CRC-32 of PNG chunks, bit by bit against its table-driven definition. */
module ChunkChecksum {
  import opened ByteOrder

  const POLYNOMIAL: bv32 := 0xEDB8_8320

  /** Exclusive or, by name where a proof only needs what is equal to what. */
  function Xor(a: bv32, b: bv32): bv32 {
    a ^ b
  }

  /** One division step, as Annex D of the W3C PNG specification defines it. */
  function PolyStep(c: bv32): bv32 {
    if c & 1 == 1 then POLYNOMIAL ^ (c >> 1) else c >> 1
  }

  function PolySteps(c: bv32, n: nat): bv32 {
    if n == 0 then c else PolyStep(PolySteps(c, n - 1))
  }

  function LowByte(c: bv32): bv32 {
    c & 0xFF
  }

  function HighBytes(c: bv32): bv32 {
    c & 0xFFFF_FF00
  }

  function DropByte(c: bv32): bv32 {
    c >> 8
  }

  /** The table entry for a byte. */
  function TableEntry(c: bv32): bv32 {
    PolySteps(c, 8)
  }

  /** The table-driven update for one byte. */
  function Update(c: bv32, b: Byte): bv32 {
    Xor(TableEntry(LowByte(Xor(c, b as bv32))), DropByte(c))
  }

  function UpdateAll(bytes: seq<Byte>): bv32 {
    if bytes == [] then 0xFFFF_FFFF else Update(UpdateAll(bytes[..|bytes| - 1]), bytes[|bytes| - 1])
  }

  function Crc(bytes: seq<Byte>): (r: nat)
    ensures r < 0x1_0000_0000
  {
    !UpdateAll(bytes) as nat
  }

  lemma XorShift(a: bv32, b: bv32)
    ensures (a ^ b) >> 1 == (a >> 1) ^ (b >> 1)
  {
  }

  lemma XorLow(a: bv32, b: bv32)
    ensures (a ^ b) & 1 == 1 <==> ((a & 1 == 1) != (b & 1 == 1))
  {
  }

  lemma XorOnce(p: bv32, x: bv32, y: bv32)
    ensures (p ^ x) ^ y == p ^ (x ^ y) && y ^ (p ^ x) == p ^ (y ^ x)
  {
  }

  lemma XorTwice(p: bv32, x: bv32, y: bv32)
    ensures (p ^ x) ^ (p ^ y) == x ^ y
  {
  }

  /** The step is linear. */
  lemma StepLinear(a: bv32, b: bv32)
    ensures PolyStep(a ^ b) == PolyStep(a) ^ PolyStep(b)
  {
    XorShift(a, b);
    XorLow(a, b);
    if a & 1 != 1 {
      XorOnce(POLYNOMIAL, b >> 1, a >> 1);
    } else if b & 1 == 1 {
      XorTwice(POLYNOMIAL, a >> 1, b >> 1);
    } else {
      XorOnce(POLYNOMIAL, a >> 1, b >> 1);
    }
  }

  lemma StepXor(a: bv32, b: bv32)
    ensures PolyStep(Xor(a, b)) == Xor(PolyStep(a), PolyStep(b))
  {
    hide PolyStep;
    StepLinear(a, b);
  }

  lemma {:induction false} StepsLinear(a: bv32, b: bv32, n: nat)
    ensures PolySteps(Xor(a, b), n) == Xor(PolySteps(a, n), PolySteps(b, n))
  {
    hide PolyStep, Xor;
    if n > 0 {
      StepsLinear(a, b, n - 1);
      StepXor(PolySteps(a, n - 1), PolySteps(b, n - 1));
    }
  }

  /** Eight steps only shift a register whose low byte is clear. */
  lemma ClearByteShifts(c: bv32)
    requires LowByte(c) == 0
    ensures PolySteps(c, 8) == DropByte(c)
  {
    ClearBits(c);
    Shifts(c);
    assert PolySteps(c, 1) == c >> 1;
    assert PolySteps(c, 2) == c >> 2;
    assert PolySteps(c, 3) == c >> 3;
    assert PolySteps(c, 4) == c >> 4;
    assert PolySteps(c, 5) == c >> 5;
    assert PolySteps(c, 6) == c >> 6;
    assert PolySteps(c, 7) == c >> 7;
  }

  lemma ClearBits(c: bv32)
    requires c & 0xFF == 0
    ensures c & 1 != 1 && (c >> 1) & 1 != 1 && (c >> 2) & 1 != 1 && (c >> 3) & 1 != 1
    ensures (c >> 4) & 1 != 1 && (c >> 5) & 1 != 1 && (c >> 6) & 1 != 1 && (c >> 7) & 1 != 1
  {
  }

  lemma Shifts(c: bv32)
    ensures (c >> 1) >> 1 == c >> 2 && (c >> 2) >> 1 == c >> 3 && (c >> 3) >> 1 == c >> 4 && (c >> 4) >> 1 == c >> 5
    ensures (c >> 5) >> 1 == c >> 6 && (c >> 6) >> 1 == c >> 7 && (c >> 7) >> 1 == c >> 8
  {
  }

  /** Eight steps on the register with the byte mixed in are the table-driven update. */
  lemma BitwiseIsTable(c: bv32, b: Byte)
    ensures PolySteps(Xor(c, b as bv32), 8) == Update(c, b)
  {
    hide PolySteps, Xor, LowByte, DropByte;
    ByteFits(b);
    StepsSplit(c, b as bv32);
  }

  lemma StepsSplit(c: bv32, b: bv32)
    requires b <= 0xFF
    ensures PolySteps(Xor(c, b), 8) == Xor(PolySteps(LowByte(Xor(c, b)), 8), DropByte(c))
  {
    hide PolySteps, Xor, LowByte, HighBytes, DropByte;
    var x := Xor(c, b);
    Rejoin(x);
    LowByteClear(x);
    SameTop(c, b);
    StepsLinear(LowByte(x), HighBytes(x), 8);
    ClearByteShifts(HighBytes(x));
  }

  lemma ByteFits(b: Byte)
    ensures (b as bv32) <= 0xFF
  {
  }

  lemma Rejoin(x: bv32)
    ensures Xor(LowByte(x), HighBytes(x)) == x
  {
  }

  lemma LowByteClear(x: bv32)
    ensures LowByte(HighBytes(x)) == 0
  {
  }

  lemma SameTop(c: bv32, b: bv32)
    requires b <= 0xFF
    ensures DropByte(HighBytes(Xor(c, b))) == DropByte(c)
  {
  }

  /** The inner loop: eight steps without a branch. */
  method EightSteps(c: bv32) returns (crc: bv32)
    ensures crc == PolySteps(c, 8)
  {
    hide PolyStep, PolySteps;
    StepsDone(c);
    crc := c;
    for k := 0 to 8
      invariant crc == PolySteps(c, k)
    {
      var mask := 0 - (crc & 1);
      MaskStep(crc);
      crc := (crc >> 1) ^ (POLYNOMIAL & mask);
      NextStep(c, k);
    }
  }

  /** The bit-serial loop computes the table-driven checksum. */
  method Crc32(bytes: seq<Byte>) returns (r: nat)
    ensures r == Crc(bytes)
  {
    hide PolyStep, PolySteps, Update, Xor, LowByte, DropByte;
    var crc: bv32 := 0xFFFF_FFFF;
    for i := 0 to |bytes|
      invariant crc == UpdateAll(bytes[..i])
    {
      ghost var before := crc;
      crc := Xor(crc, bytes[i] as bv32);
      crc := EightSteps(crc);
      BitwiseIsTable(before, bytes[i]);
      assert bytes[..i + 1][..i] == bytes[..i];
    }
    assert bytes[..|bytes|] == bytes;
    r := !crc as nat;
  }

  lemma StepsDone(c: bv32)
    ensures PolySteps(c, 0) == c
  {
  }

  lemma NextStep(c: bv32, k: nat)
    ensures PolySteps(c, k + 1) == PolyStep(PolySteps(c, k))
  {
  }

  /** The branch-free step. */
  lemma MaskStep(c: bv32)
    ensures (c >> 1) ^ (POLYNOMIAL & (0 - (c & 1))) == PolyStep(c)
  {
    assert c & 1 == 0 || c & 1 == 1;
  }
}
