/** Flash cells: an erase sets a byte to 0xFF, a program can only clear bits. */
module FlashCells {
  import opened Bytes
  import Bits

  function AndByte(x: byte, y: byte): byte {
    Bits.And(x as nat, y as nat) as byte
  }

  lemma BlankTakes(y: byte)
    ensures AndByte(0xFF, y) == y
  {
    assert Bits.Pow2(8) == 256 by {
      assert Bits.Pow2(4) == 16;
      assert Bits.Pow2(6) == 64;
    }
    Bits.AndOnes(y as nat, 8);
  }

  /** The cells [lo, hi) of a block are erased. */
  ghost predicate Blank(b: Block, lo: nat, hi: nat)
    requires hi <= |b|
  {
    forall i :: lo <= i < hi ==> b[i] == 0xFF
  }

  /** A block after programming `d` at position `r`. */
  function ProgramBlock(was: Block, r: nat, d: seq<byte>): (b: Block)
    requires r + |d| <= |was|
    ensures |b| == |was|
    ensures forall i :: 0 <= i < |b| ==> b[i] == if r <= i < r + |d| then AndByte(was[i], d[i - r]) else was[i]
  {
    seq(|was|, i requires 0 <= i < |was| => if r <= i < r + |d| then AndByte(was[i], d[i - r]) else was[i])
  }

  /** The cells at [r, r + |d|) can be made to hold `d` without an erase. */
  ghost predicate Takes(b: Block, r: nat, d: seq<byte>)
    requires r + |d| <= |b|
  {
    forall i :: 0 <= i < |d| ==> AndByte(b[r + i], d[i]) == d[i]
  }

  lemma BlankTakesAll(b: Block, r: nat, d: seq<byte>)
    requires r + |d| <= |b| && Blank(b, r, r + |d|)
    ensures Takes(b, r, d)
  {
    forall i | 0 <= i < |d| ensures AndByte(b[r + i], d[i]) == d[i] {
      BlankTakes(d[i]);
    }
  }
}
