/** Raw NAND: erase blocks, some of them bad from the factory, that an erase sets
    to 0xFF and a program can only clear bits of. */
module NandFlash {
  import opened Common
  import opened Bytes
  import opened FlashCells
  import opened Positions
  import Bits

  /** What the driver asked the chip to do at offset `off`, which is position `r` of
      block `k`. Of the `len` bytes to program, `data` is what got programmed before
      the chip failed, if it did. */
  datatype Op = EraseOp(off: nat, k: nat, r: nat) | ProgramOp(off: nat, len: nat, k: nat, r: nat, data: seq<byte>)

  ghost predicate Uniform(blocks: seq<Block>, size: nat) {
    forall i :: 0 <= i < |blocks| ==> |blocks[i]| == size
  }

  /** The array after programming `d` from position `r` of block `k` on, running
      into the following blocks; bad blocks keep nothing of it. */
  function Program(blocks: seq<Block>, bad: seq<bool>, size: nat, k: nat, r: nat, d: seq<byte>): (p: seq<Block>)
    requires Uniform(blocks, size) && |bad| == |blocks| && r < size
    ensures Uniform(p, size) && |p| == |blocks|
    decreases |d|
  {
    if k >= |blocks| || d == [] then blocks
    else
      var n := if |d| <= size - r then |d| else size - r;
      var one := if bad[k] then blocks else blocks[k := ProgramBlock(blocks[k], r, d[..n])];
      Program(one, bad, size, k + 1, 0, d[n..])
  }

  /** A program that stays in its block. */
  lemma ProgramInside(blocks: seq<Block>, bad: seq<bool>, size: nat, k: nat, r: nat, d: seq<byte>)
    requires Uniform(blocks, size) && |bad| == |blocks| && k < |blocks| && r < size && r + |d| <= size
    ensures Program(blocks, bad, size, k, r, d) ==
            if bad[k] then blocks else blocks[k := ProgramBlock(blocks[k], r, d)]
  {
    assert d[..|d|] == d && d[|d|..] == [];
    if d == [] {
      assert ProgramBlock(blocks[k], r, d) == blocks[k];
    }
  }

  /** One that runs over the end of its block is one to the end and one from the
      start of the next block. */
  lemma ProgramSplit(blocks: seq<Block>, bad: seq<bool>, size: nat, k: nat, r: nat, d: seq<byte>)
    requires Uniform(blocks, size) && |bad| == |blocks| && k < |blocks| && r < size < r + |d|
    ensures Program(blocks, bad, size, k, r, d) ==
            Program(Program(blocks, bad, size, k, r, d[..size - r]), bad, size, k + 1, 0, d[size - r..])
  {
    ProgramInside(blocks, bad, size, k, r, d[..size - r]);
  }

  /** A program of at most one block changes its block, and the next one only if it
      runs over. */
  lemma ProgramTouches(blocks: seq<Block>, bad: seq<bool>, size: nat, k: nat, r: nat, d: seq<byte>)
    requires Uniform(blocks, size) && |bad| == |blocks| && k < |blocks| && r < size && |d| <= size
    requires size < r + |d| ==> k + 1 < |blocks|
    ensures SameOutside(blocks, Program(blocks, bad, size, k, r, d), k, if size < r + |d| then k + 2 else k + 1)
  {
    if r + |d| <= size {
      ProgramInside(blocks, bad, size, k, r, d);
    } else {
      var head, over := d[..size - r], d[size - r..];
      ProgramSplit(blocks, bad, size, k, r, d);
      ProgramInside(blocks, bad, size, k, r, head);
      ProgramInside(Program(blocks, bad, size, k, r, head), bad, size, k + 1, 0, over);
    }
  }

  /** What an erase that may have failed half way leaves at the start of a block. */
  predicate Smeared(b: Block) {
    |b| < 2 || b[1] == 0xFF || b[0] == b[1]
  }

  datatype Chip = Chip(bad: seq<bool>, size: nat, page: nat)

  /** What one operation does to the array; pages are programmed whole or not at all. */
  ghost predicate Effect(op: Op, was: seq<Block>, now: seq<Block>, c: Chip) {
    && 0 < c.page && |was| == |now| == |c.bad| && Uniform(was, c.size) && Uniform(now, c.size)
    && At(op.off, op.k, op.r, c.size)
    && match op
       case EraseOp(_, k, _) =>
         SameOutside(was, now, k, k + 1) && (k < |was| ==> now[k] == was[k] || Smeared(now[k]))
       case ProgramOp(_, len, k, r, data) =>
         now == Program(was, c.bad, c.size, k, r, data) && |data| <= len && |data| % c.page == 0
  }

  /** The states of a chip, each with the operation that led to it. */
  datatype Trace = First(chip: Chip, blocks: seq<Block>) | Next(before: Trace, op: Op, blocks: seq<Block>)

  function ChipOf(t: Trace): Chip {
    match t
    case First(chip, _) => chip
    case Next(before, _, _) => ChipOf(before)
  }

  ghost predicate Explained(t: Trace) {
    t.Next? ==> Explained(t.before) && Effect(t.op, t.before.blocks, t.blocks, ChipOf(t.before))
  }

  ghost const EMPTY: Trace := First(Chip([], 0, 0), [])

  /** A trace in which every state comes from the one before by its operation. */
  type TrueTrace = t: Trace | Explained(t) ghost witness EMPTY

  class NandFlash {
    const erasesize: nat
    const writesize: nat
    const bad: seq<bool>
    var blocks: seq<Block>
    ghost var trace: TrueTrace
    ghost var failures: nat      // operations that failed though they were legal

    ghost predicate Valid()
      reads this
    {
      && Bits.IsPow2(erasesize) && 0 < erasesize && 0 < writesize && erasesize % writesize == 0
      && |bad| == |blocks| && Uniform(blocks, erasesize)
      && blocks == trace.blocks && ChipOf(trace) == Chip(bad, erasesize, writesize)
    }

    constructor (erasesize: nat, writesize: nat, bad: seq<bool>, blocks: seq<Block>)
      requires Bits.IsPow2(erasesize) && 0 < erasesize && 0 < writesize && erasesize % writesize == 0
      requires |bad| == |blocks| && Uniform(blocks, erasesize)
      ensures Valid() && this.erasesize == erasesize && this.writesize == writesize
      ensures this.bad == bad && this.blocks == blocks && trace.First? && failures == 0
    {
      this.erasesize, this.writesize, this.bad, this.blocks := erasesize, writesize, bad, blocks;
      trace, failures := First(Chip(bad, erasesize, writesize), blocks), 0;
    }

    method IsBad(off: nat, ghost k: nat) returns (b: bool)
      requires Valid() && At(off, k, 0, erasesize) && k < |bad|
      ensures b == bad[k]
    {
      AtMod(off, k, 0, erasesize);
      b := bad[off / erasesize];
    }

    /** Only whole blocks can be erased. */
    method Erase(off: nat, ghost k: nat, ghost r: nat) returns (ret: int)
      requires Valid() && At(off, k, r, erasesize)
      modifies this
      ensures Valid() && trace == Next(old(trace), EraseOp(off, k, r), blocks) && |blocks| == |old(blocks)|
      ensures SameOutside(old(blocks), blocks, k, k + 1) && failures >= old(failures)
      ensures ret == 0 ==> r == 0 && k < |blocks| && (!bad[k] ==> Blank(blocks[k], 0, erasesize))
      ensures ret != 0 ==> failures > old(failures) || r != 0 || k >= |blocks|
    {
      ret := EraseCells(off, k, r);
      ghost var next := Next(trace, EraseOp(off, k, r), blocks);
      assert Explained(next);
      trace := next;
    }

    method EraseCells(off: nat, ghost k: nat, ghost r: nat) returns (ret: int)
      requires |bad| == |blocks| && Uniform(blocks, erasesize) && At(off, k, r, erasesize)
      modifies this`blocks, this`failures
      ensures |blocks| == |old(blocks)| && Uniform(blocks, erasesize) && failures >= old(failures)
      ensures SameOutside(old(blocks), blocks, k, k + 1)
      ensures k < |blocks| ==> blocks[k] == old(blocks)[k] || Smeared(blocks[k])
      ensures ret == 0 ==> r == 0 && k < |blocks| && (!bad[k] ==> Blank(blocks[k], 0, erasesize))
      ensures ret != 0 ==> failures > old(failures) || r != 0 || k >= |blocks|
    {
      AtMod(off, k, r, erasesize);
      var b := off / erasesize;
      if off % erasesize != 0 || b >= |bad| {
        return -EINVAL;
      }
      var ok: bool := *;
      if ok && !bad[b] {
        blocks := blocks[b := Fill(erasesize, 0xFF)];
      } else if !ok {
        var left: byte := *;
        var cut: nat := *;
        blocks := blocks[b := seq(erasesize, i => if i < cut then left else 0xFF)];
        failures := failures + 1;
      }
      ret := if ok then 0 else -EIO;
    }

    /** Only whole pages can be programmed; `retlen` counts the bytes that were. */
    method Write(off: nat, d: seq<byte>, ghost k: nat, ghost r: nat) returns (ret: int, retlen: nat)
      requires Valid() && At(off, k, r, erasesize)
      modifies this
      ensures Valid() && |blocks| == |old(blocks)| && failures >= old(failures)
      ensures retlen <= |d| && (ret == 0 ==> retlen == |d|)
      ensures trace == Next(old(trace), ProgramOp(off, |d|, k, r, d[..retlen]), blocks)
      ensures blocks == Program(old(blocks), bad, erasesize, k, r, d[..retlen])
      ensures ret != 0 ==>
        failures > old(failures) || off % writesize != 0 || |d| % writesize != 0 || off + |d| > |bad| * erasesize
    {
      retlen := 0;
      if off % writesize == 0 && |d| % writesize == 0 && off + |d| <= |bad| * erasesize {
        retlen :| 0 <= retlen <= |d| && retlen % writesize == 0;
        var ok: bool := *;
        if ok {
          retlen := |d|;
        } else {
          failures := failures + 1;
        }
        ret := if ok then 0 else -EIO;
      } else {
        ret := -EINVAL;
      }
      AtMod(off, k, r, erasesize);
      blocks := Program(blocks, bad, erasesize, off / erasesize, off % erasesize, d[..retlen]);
      ghost var next := Next(trace, ProgramOp(off, |d|, k, r, d[..retlen]), blocks);
      assert Explained(next);
      trace := next;
    }
  }
}
