/** Offsets as positions inside equal blocks, so that proofs need no division. */
module Positions {
  import opened Common
  import Bits

  /** The byte offset `off` is position `r` of erase block `k`. */
  predicate At(off: nat, k: nat, r: nat, size: nat) {
    r < size && off == k * size + r
  }

  lemma AtMod(off: nat, k: nat, r: nat, size: nat)
    requires At(off, k, r, size)
    ensures off / size == k && off % size == r
  {
    Bits.ModUnique(off, size, k, r);
  }

  /** Moving on by less than two blocks. */
  lemma Advance(off: nat, n: nat, k: nat, r: nat, size: nat)
    requires At(off, k, r, size) && r + n < 2 * size
    ensures r + n < size ==> At(off + n, k, r + n, size)
    ensures size <= r + n ==> At(off + n, k + 1, r + n - size, size)
  {
    assert (k + 1) * size == k * size + size;
  }

  /** An offset below a block boundary lies in an earlier block, which ends there
      or before; and conversely. */
  lemma Below(off: nat, k: nat, r: nat, end: nat, m: nat, size: nat)
    requires At(off, k, r, size) && At(end, m, 0, size)
    ensures off < end <==> k < m
    ensures k < m ==> off - r + size <= end
  {
    assert (m - k) * size == m * size - k * size;
    MulAtLeast(m - k, size);
    MulAtLeast(k - m, size);
  }
}
