/** Little-endian numbers in byte sequences. */
module ByteOrder {
  type Byte = n: nat | n < 256

  function Pow256(n: nat): nat {
    if n == 0 then 1 else 256 * Pow256(n - 1)
  }

  /** The low `n` bytes of a number, lowest first. */
  function LE(w: nat, n: nat): (r: seq<Byte>)
    ensures |r| == n
  {
    if n == 0 then [] else [w % 256] + LE(w / 256, n - 1)
  }

  function FromLE(s: seq<Byte>): nat {
    if s == [] then 0 else s[0] + 256 * FromLE(s[1..])
  }

  lemma {:induction false} LERoundTrip(w: nat, n: nat)
    requires w < Pow256(n)
    ensures FromLE(LE(w, n)) == w
  {
    if n > 0 {
      LERoundTrip(w / 256, n - 1);
      assert LE(w, n)[1..] == LE(w / 256, n - 1);
    }
  }
}
