/** The Adler-32 of zlib streams, its running sums against their closed form. */
module StreamChecksum {
  import opened ByteOrder

  const ADLER_BASE: nat := 65521

  function Sum(bytes: seq<Byte>): nat {
    if bytes == [] then 0 else Sum(bytes[..|bytes| - 1]) + bytes[|bytes| - 1]
  }

  /** Every byte counted once for each byte from it to the end. */
  function WeightedSum(bytes: seq<Byte>): nat {
    if bytes == [] then 0 else bytes[0] * |bytes| + WeightedSum(bytes[1..])
  }

  /** Section 2.2 of RFC 1950, in closed form: the sum and the sum of the sums, modulo the largest prime below 2^16. */
  function Adler(bytes: seq<Byte>): (r: nat)
    ensures r < 0x1_0000_0000
  {
    (|bytes| + WeightedSum(bytes)) % ADLER_BASE * 0x1_0000 + (1 + Sum(bytes)) % ADLER_BASE
  }

  lemma {:induction false} WeightedSnoc(bytes: seq<Byte>, b: Byte)
    ensures WeightedSum(bytes + [b]) == WeightedSum(bytes) + Sum(bytes) + b
  {
    hide Sum;
    if bytes == [] {
      assert (bytes + [b])[1..] == [];
      Empty();
    } else {
      assert (bytes + [b])[1..] == bytes[1..] + [b];
      WeightedSnoc(bytes[1..], b);
      SumCons(bytes);
      OneMore(bytes[0], |bytes|);
    }
  }

  lemma OneMore(x: nat, n: nat)
    ensures x * (n + 1) == x * n + x
  {
  }

  lemma {:induction false} SumCons(bytes: seq<Byte>)
    requires bytes != []
    ensures Sum(bytes) == bytes[0] + Sum(bytes[1..])
  {
    if |bytes| > 1 {
      var front := bytes[..|bytes| - 1];
      SumCons(front);
      assert front[1..] == bytes[1..][..|bytes| - 2];
    } else {
      assert bytes[..0] == [] && bytes[1..] == [];
    }
  }

  lemma ModAdd(x: nat, y: nat)
    ensures (x % ADLER_BASE + y) % ADLER_BASE == (x + y) % ADLER_BASE
    ensures (y + x % ADLER_BASE) % ADLER_BASE == (x + y) % ADLER_BASE
  {
  }

  method Adler32(bytes: seq<Byte>) returns (r: nat)
    ensures r == Adler(bytes)
  {
    hide Sum, WeightedSum;
    var a, b := 1, 0;
    Empty();
    for i := 0 to |bytes|
      invariant a == (1 + Sum(bytes[..i])) % ADLER_BASE && b == (i + WeightedSum(bytes[..i])) % ADLER_BASE
    {
      ghost var done := bytes[..i];
      assert bytes[..i + 1] == done + [bytes[i]];
      WeightedSnoc(done, bytes[i]);
      SumSnoc(done, bytes[i]);
      ModAdd(1 + Sum(done), bytes[i]);
      a := (a + bytes[i]) % ADLER_BASE;
      ModAdd(i + WeightedSum(done), a);
      ModAdd(1 + Sum(done) + bytes[i], i + WeightedSum(done));
      b := (b + a) % ADLER_BASE;
    }
    assert bytes[..|bytes|] == bytes;
    r := b * 0x1_0000 + a;
  }

  lemma Empty()
    ensures Sum([]) == 0 && WeightedSum([]) == 0
  {
  }

  lemma SumSnoc(bytes: seq<Byte>, b: Byte)
    ensures Sum(bytes + [b]) == Sum(bytes) + b
  {
    assert (bytes + [b])[..|bytes|] == bytes;
  }
}
