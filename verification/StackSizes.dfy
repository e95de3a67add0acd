/** How a stack's size grows. */
module StackSizes {
  /** The size after doubling until `needed` slots fit: a power of two times `size`, and no larger than it has to be. */
  function Doubled(size: nat, needed: nat): (r: nat)
    requires size > 0
    ensures r >= size && r >= needed && (r == size || r < 2 * needed)
    decreases needed - size
  {
    if size < needed then Doubled(2 * size, needed) else size
  }

  /** Twice the size, and again until `needed` fits. */
  method NewSize(cur: nat, needed: nat) returns (n: nat)
    requires cur > 0
    ensures n == Doubled(2 * cur, needed)
  {
    n := cur * 2;
    while n < needed
      invariant n > 0 && Doubled(n, needed) == Doubled(2 * cur, needed)
      decreases needed - n
    {
      n := n * 2;
    }
  }
}
