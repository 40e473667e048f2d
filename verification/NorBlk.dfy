/** Block writes of any alignment over a NOR flash with larger erase sectors:
    read the sector, change part of it, erase it, program it back
    (drivers/misc/qti_nor_blk.c). */
module NorBlk {
  import opened Common
  import opened Bytes
  import opened FlashCells
  import Bits

  /** What was asked of the chip; `clean` says that every cell programmed was erased. */
  datatype Op = EraseOp(off: nat, len: nat) | ProgramOp(off: nat, len: nat, clean: bool)

  ghost predicate Erased(cells: seq<byte>, off: nat, len: nat) {
    off + len <= |cells| && forall i :: off <= i < off + len ==> cells[i] == 0xFF
  }

  /** A NOR flash. Any operation can fail, leaving its range undefined. */
  class NorFlash {
    const sector: nat
    var cells: seq<byte>
    ghost var log: seq<Op>
    ghost var failures: nat   // operations that failed though they were legal

    constructor (sector: nat, cells: seq<byte>)
      ensures this.sector == sector && this.cells == cells && log == [] && failures == 0
    {
      this.sector, this.cells, this.log, failures := sector, cells, [], 0;
    }

    method Read(off: nat, len: nat) returns (ret: int, d: seq<byte>)
      modifies this`failures
      ensures |d| == len && failures >= old(failures)
      ensures ret == 0 ==> off + len <= |cells| && d == cells[off..off + len]
      ensures ret != 0 ==> failures > old(failures) || off + len > |cells|
    {
      var ok: bool := *;
      ret, d := -EIO, Fill(len, 0);
      if off + len <= |cells| {
        if ok {
          ret, d := 0, cells[off..off + len];
        } else {
          failures := failures + 1;
        }
      }
    }

    method Erase(off: nat, len: nat) returns (ret: int)
      requires Bits.IsPow2(sector)
      modifies this
      ensures log == old(log) + [EraseOp(off, len)]
      ensures SameOutside(old(cells), cells, off, off + len)
      ensures ret == 0 ==> Erased(cells, off, len) && off % sector == 0
      ensures failures >= old(failures)
      ensures ret != 0 ==>
        failures > old(failures) || 0 == sector || off % sector != 0 || len % sector != 0 || off + len > |cells|
    {
      log := log + [EraseOp(off, len)];
      if Bits.LowBits(off, sector) != 0 || Bits.LowBits(len, sector) != 0 || off + len > |cells| {
        return -EINVAL;
      }
      var ok: bool := *;
      var left: byte := *;
      cells := Splice(cells, off, Fill(len, if ok then 0xFF else left));
      failures := if ok then failures else failures + 1;
      ret := if ok then 0 else -EIO;
    }

    method Write(off: nat, d: seq<byte>) returns (ret: int)
      modifies this
      ensures log == old(log) + [ProgramOp(off, |d|, Erased(old(cells), off, |d|))]
      ensures SameOutside(old(cells), cells, off, off + |d|)
      ensures ret == 0 && Erased(old(cells), off, |d|) ==> cells == Splice(old(cells), off, d)
      ensures failures >= old(failures)
      ensures ret != 0 ==> failures > old(failures) || off + |d| > |cells|
    {
      log := log + [ProgramOp(off, |d|, Erased(cells, off, |d|))];
      if off + |d| > |cells| {
        return -EINVAL;
      }
      var ok: bool := *;
      var n :| 0 <= n <= |d|;
      ghost var was := cells;
      cells := ProgramBlock(cells, off, if ok then d else d[..n]);
      failures := if ok then failures else failures + 1;
      if Erased(was, off, |d|) {
        forall i | 0 <= i < |d| ensures AndByte(was[off + i], d[i]) == d[i] {
          BlankTakes(d[i]);
        }
      }
      ret := if ok then 0 else -EIO;
    }
  }

  /** Every operation after `log` works on one whole sector, every erase is sector
      aligned, and every program goes to erased cells. */
  ghost predicate SafeOps(log: seq<Op>, log': seq<Op>, sector: nat)
    requires 0 < sector
  {
    && log <= log'
    && forall i :: |log| <= i < |log'| ==>
         match log'[i]
         case EraseOp(off, len) => len == sector && off % sector == 0
         case ProgramOp(off, len, clean) => len == sector && off % sector == 0 && clean
  }

  lemma SafeOpsTrans(l1: seq<Op>, l2: seq<Op>, l3: seq<Op>, sector: nat)
    requires 0 < sector && SafeOps(l1, l2, sector) && SafeOps(l2, l3, sector)
    ensures SafeOps(l1, l3, sector)
  {
    forall i | |l1| <= i < |l3|
      ensures match l3[i]
              case EraseOp(off, len) => len == sector && off % sector == 0
              case ProgramOp(off, len, clean) => len == sector && off % sector == 0 && clean
    {
      if i < |l2| { assert l3[i] == l2[i]; }
    }
  }

  /** The sector boundary at or before `x`. */
  function Floor(x: nat, sector: nat): (f: nat)
    requires 0 < sector
    ensures f == x - x % sector && f <= x < f + sector && f % sector == 0
  {
    WholeBlocks(x, sector);
    x - x % sector
  }

  /** The sector boundary at or after `x`. */
  function Ceil(x: nat, sector: nat): nat
    requires 0 < sector
  {
    if x % sector == 0 then x else Floor(x, sector) + sector
  }

  /** Whole multiples of the sector size do not lie closer than a sector. */
  lemma Apart(a: nat, b: nat, sector: nat)
    requires 0 < sector && a % sector == 0 && b % sector == 0 && a < b
    ensures a + sector <= b
  {
    var d := b / sector - a / sector;
    assert d * sector == b / sector * sector - a / sector * sector;
    MulAtLeast(d, sector);
    MulAtLeast(-d, sector);
    MulAtLeast(1 - d, sector);
  }

  lemma SectorRange(x: nat, y: nat, end: nat, sector: nat)
    requires 0 < sector && x <= y < end
    ensures Floor(x, sector) <= Floor(y, sector) && Floor(y, sector) + sector <= Ceil(end, sector)
  {
    var fx, fy, c := Floor(x, sector), Floor(y, sector), Ceil(end, sector);
    if fy < fx {
      Apart(fy, fx, sector);
    }
    RestMod(0, 0, sector);
    if end % sector != 0 {
      WholeSum(Floor(end, sector), sector, sector);
    }
    Apart(fy, c, sector);
  }

  /** Putting a patched sector back is the same as patching in place. */
  lemma Patched(was: seq<byte>, now: seq<byte>, off: nat, sector: nat, gap: nat, chunk: seq<byte>, image: seq<byte>)
    requires off + sector <= |was| && gap + |chunk| <= sector && SameOutside(was, now, off, off + sector)
    requires image == Splice(was[off..off + sector], gap, chunk) || (gap == 0 && |chunk| == sector && image == chunk)
    ensures Splice(now, off, image) == Splice(was, off + gap, chunk)
  {}

  /** One round of the write loop: puts `chunk` into the sector at `off`. A whole
      sector that is not the last goes straight to the flash; otherwise the sector
      is read into the scratch buffer and patched there. */
  method UpdateSector(flash: NorFlash, off: nat, gap: nat, chunk: seq<byte>, backup: bool) returns (ret: int)
    requires Bits.IsPow2(flash.sector) && 0 < flash.sector
    requires off % flash.sector == 0 && gap + |chunk| <= flash.sector
    requires !backup ==> gap == 0 && |chunk| == flash.sector
    modifies flash
    ensures SafeOps(old(flash.log), flash.log, flash.sector)
    ensures SameOutside(old(flash.cells), flash.cells, off, off + flash.sector)
    ensures ret == 0 ==> flash.cells == Splice(old(flash.cells), off + gap, chunk)
    ensures ret == 0 ==> off + flash.sector <= |flash.cells|
    ensures flash.failures >= old(flash.failures)
    ensures ret != 0 ==> flash.failures > old(flash.failures) || off + flash.sector > |flash.cells|
  {
    var image := chunk;
    if backup {
      var buff;
      ret, buff := flash.Read(off, flash.sector);
      if ret != 0 {
        return;
      }
      image := Splice(buff, gap, chunk);
    }
    ret := flash.Erase(off, flash.sector);
    if ret != 0 {
      return;
    }
    Patched(old(flash.cells), flash.cells, off, flash.sector, gap, chunk, image);
    ret := flash.Write(off, image);
  }

  /** In blocks: what is left of a sector after a gap of whole blocks. */
  lemma BlocksLeft(sector: nat, gap: nat, blksz: nat)
    requires 0 < blksz && sector % blksz == 0 && gap % blksz == 0 && gap < sector
    ensures 0 < sector / blksz - gap / blksz
    ensures (sector / blksz - gap / blksz) * blksz == sector - gap
  {
    var d := sector / blksz - gap / blksz;
    assert d * blksz == sector / blksz * blksz - gap / blksz * blksz;
    MulAtLeast(1 - d, blksz);
  }

  /** A block-aligned position lies a whole number of blocks into its sector. */
  lemma GapAligned(at: nat, sector: nat, blksz: nat)
    requires 0 < blksz && 0 < sector && at % blksz == 0 && sector % blksz == 0
    ensures (at % sector) % blksz == 0
  {
    var q := at / sector;
    assert at % sector == at - q * sector;
    assert q * (sector / blksz * blksz) == (q * (sector / blksz)) * blksz;
    var m := at / blksz - q * (sector / blksz);
    assert at % sector == m * blksz;
    MulAtLeast(-m, blksz);
    QuotientUnique(at % sector, blksz, m);
  }

  /** The part of the range that the next round handles: `cnt` blocks, `gap` bytes
      into the sector. The sector is backed up unless it is replaced whole and
      more follows. */
  method NextPart(at: nat, left: nat, sector: nat, blksz: nat)
    returns (off: nat, gap: nat, cnt: nat, len: nat, next: nat, backup: bool)
    requires Bits.IsPow2(sector) && 0 < sector && 0 < blksz && sector % blksz == 0
    requires at % blksz == 0 && 0 < left
    ensures gap == at % sector && 0 < cnt <= left && len == cnt * blksz && gap + len <= sector
    ensures !backup <==> gap == 0 && len == sector && cnt < left
    ensures cnt == left || gap + len == sector
    ensures (left - cnt) * blksz == left * blksz - len >= 0
    ensures next == at + len && next % blksz == 0
    ensures off + gap == at && off == Floor(at, sector) && off % sector == 0
  {
    var total := sector / blksz;
    GapAligned(at, sector, blksz);
    gap := Bits.LowBits(at, sector);
    BlocksLeft(sector, gap, blksz);
    BlocksLeft(sector, 0, blksz);
    if gap != 0 {
      cnt := total - gap / blksz;
      backup := true;
      if left < cnt {
        MulAtMost(left, cnt, blksz);
        cnt := left;
      }
    } else if left > total {
      cnt, backup := total, false;
    } else {
      MulAtMost(left, total, blksz);
      cnt, backup := left, true;
    }
    len := cnt * blksz;
    PartDone(at, left, blksz, cnt, len);
    off, next := at - gap, at + len;
    assert off == Floor(at, sector);
  }

  lemma PartDone(at: nat, left: nat, blksz: nat, cnt: nat, len: nat)
    requires 0 < blksz && at % blksz == 0 && cnt <= left && len == cnt * blksz
    ensures (left - cnt) * blksz == left * blksz - len >= 0
    ensures (at + len) % blksz == 0
  {
    MulAtMost(cnt, left, blksz);
    QuotientUnique(len, blksz, cnt);
    WholeSum(at, len, blksz);
  }

  lemma MulAtMost(x: nat, y: nat, b: nat)
    requires x <= y
    ensures 0 <= x * b <= y * b
  {}

  /** One round of the write loop. */
  method WritePart(flash: NorFlash, blksz: nat, at: nat, left: nat, lsrc: seq<byte>)
    returns (ret: int, cnt: nat, len: nat, backup: bool)
    requires Bits.IsPow2(flash.sector) && 0 < flash.sector && 0 < blksz && flash.sector % blksz == 0
    requires at % blksz == 0 && 0 < left && |lsrc| == left * blksz
    modifies flash
    ensures 0 < cnt <= left && len <= |lsrc| && |lsrc| - len == (left - cnt) * blksz && (at + len) % blksz == 0
    ensures !backup ==> cnt < left
    ensures SafeOps(old(flash.log), flash.log, flash.sector)
    ensures SameOutside(old(flash.cells), flash.cells, Floor(at, flash.sector), Floor(at, flash.sector) + flash.sector)
    ensures ret == 0 ==> flash.cells == Splice(old(flash.cells), at, lsrc[..len]) && at + len <= |flash.cells|
    ensures flash.failures >= old(flash.failures)
    ensures ret != 0 ==> flash.failures > old(flash.failures) || Floor(at, flash.sector) + flash.sector > |flash.cells|
  {
    var off, gap, next;
    off, gap, cnt, len, next, backup := NextPart(at, left, flash.sector, blksz);
    ret := UpdateSector(flash, off, gap, lsrc[..len], backup);
  }

  /** The write loop, from byte position `at0` on. `left` is what was not written
      when a device operation failed. */
  method WriteLoop(flash: NorFlash, blksz: nat, at0: nat, blkcnt: nat, src: seq<byte>, hasBuff: bool)
    returns (left: nat, wild: bool)
    requires Bits.IsPow2(flash.sector) && 0 < flash.sector && 0 < blksz && flash.sector % blksz == 0
    requires |src| == blkcnt * blksz && at0 % blksz == 0 && 0 < blkcnt
    modifies flash
    ensures left == 0 ==> flash.cells == Splice(old(flash.cells), at0, src)
    ensures left == 0 ==> at0 + |src| <= |flash.cells|
    ensures SafeOps(old(flash.log), flash.log, flash.sector)
    ensures SameOutside(old(flash.cells), flash.cells, Floor(at0, flash.sector), Ceil(at0 + |src|, flash.sector))
    ensures wild ==> !hasBuff
    ensures left == 0 ==> wild == !hasBuff
    ensures flash.failures >= old(flash.failures)
    ensures left > 0 ==> flash.failures > old(flash.failures) || Ceil(at0 + |src|, flash.sector) > |flash.cells|
  {
    ghost var was, done := flash.cells, [];
    ghost var lo, hi := Floor(at0, flash.sector), Ceil(at0 + |src|, flash.sector);
    var at, lsrc := at0, src;
    left, wild := blkcnt, false;
    while left > 0
      invariant left <= blkcnt && |lsrc| == left * blksz && at % blksz == 0
      invariant done + lsrc == src && at == at0 + |done|
      invariant flash.cells == Splice(was, at0, done)
      invariant left < blkcnt ==> at <= |was|
      invariant SafeOps(old(flash.log), flash.log, flash.sector)
      invariant SameOutside(was, flash.cells, lo, hi)
      invariant wild ==> !hasBuff
      invariant left == 0 ==> wild == !hasBuff
      invariant flash.failures >= old(flash.failures)
    {
      ghost var log, cells, off := flash.log, flash.cells, Floor(at, flash.sector);
      SectorRange(at0, at, at0 + |src|, flash.sector);
      var ret, cnt, len, backup := WritePart(flash, blksz, at, left, lsrc);
      if backup && !hasBuff {
        wild := true;
      }
      SafeOpsTrans(old(flash.log), log, flash.log, flash.sector);
      SameOutsideTrans(was, cells, flash.cells, lo, hi, off, off + flash.sector);
      if ret != 0 {
        assert flash.failures > old(flash.failures) || hi > |flash.cells|;
        break;
      }
      SpliceAppend(was, at0, done, lsrc[..len]);
      Assoc(done, lsrc[..len], lsrc[len..]);
      assert lsrc == lsrc[..len] + lsrc[len..];
      done := done + lsrc[..len];
      left, at, lsrc := left - cnt, at + len, lsrc[len..];
    }
    if left == 0 {
      assert done == src;
    }
  }

  /** nor_bwrite. It returns the block count, or zero after a failed device
      operation; unless the device fails that is when its sectors are not all there.
      `wild` says that the scratch buffer was used although the guard on its allocation
      was false. */
  method Bwrite(flash: NorFlash, blksz: nat, start: nat, blkcnt: nat, src: seq<byte>) returns (n: nat, wild: bool)
    requires Bits.IsPow2(flash.sector) && 0 < flash.sector
    requires 0 < blksz && flash.sector % blksz == 0 && |src| == blkcnt * blksz
    requires (start + blkcnt) * blksz < 0x8000_0000
    modifies flash
    ensures n == blkcnt || n == 0
    ensures n == blkcnt ==> flash.cells == Splice(old(flash.cells), start * blksz, src)
    ensures n == blkcnt && src != [] ==> start * blksz + |src| <= |flash.cells|
    ensures SafeOps(old(flash.log), flash.log, flash.sector)
    ensures SameOutside(old(flash.cells), flash.cells, Floor(start * blksz, flash.sector),
                        Ceil(start * blksz + |src|, flash.sector))
    ensures n > 0 ==> (wild <==> (start * blksz) % flash.sector == 0 && blkcnt % (flash.sector / blksz) == 0)
    ensures wild ==> (start * blksz) % flash.sector == 0 && blkcnt % (flash.sector / blksz) == 0
    ensures flash.failures >= old(flash.failures)
    ensures n == 0 && 0 < blkcnt ==>
      flash.failures > old(flash.failures) || Ceil(start * blksz + |src|, flash.sector) > |flash.cells|
  {
    var at := start * blksz;
    QuotientUnique(at, blksz, start);
    n, wild := BwriteAt(flash, blksz, at, blkcnt, src);
  }

  method BwriteAt(flash: NorFlash, blksz: nat, at: nat, blkcnt: nat, src: seq<byte>) returns (n: nat, wild: bool)
    requires Bits.IsPow2(flash.sector) && 0 < flash.sector
    requires 0 < blksz && flash.sector % blksz == 0 && |src| == blkcnt * blksz && at % blksz == 0
    modifies flash
    ensures n == blkcnt || n == 0
    ensures n == blkcnt ==> flash.cells == Splice(old(flash.cells), at, src)
    ensures n == blkcnt && src != [] ==> at + |src| <= |flash.cells|
    ensures SafeOps(old(flash.log), flash.log, flash.sector)
    ensures SameOutside(old(flash.cells), flash.cells, Floor(at, flash.sector), Ceil(at + |src|, flash.sector))
    ensures n > 0 ==> (wild <==> at % flash.sector == 0 && blkcnt % (flash.sector / blksz) == 0)
    ensures wild ==> at % flash.sector == 0 && blkcnt % (flash.sector / blksz) == 0
    ensures flash.failures >= old(flash.failures)
    ensures n == 0 && 0 < blkcnt ==>
      flash.failures > old(flash.failures) || Ceil(at + |src|, flash.sector) > |flash.cells|
  {
    if blkcnt == 0 {
      assert Splice(flash.cells, at, src) == flash.cells;
      return 0, false;
    }
    BlocksLeft(flash.sector, 0, blksz);
    var hasBuff := Bits.LowBits(at, flash.sector) != 0 || blkcnt % (flash.sector / blksz) != 0;
    var left;
    left, wild := WriteLoop(flash, blksz, at, blkcnt, src, hasBuff);
    n := if left > 0 then 0 else blkcnt;
  }

  /** nor_bread. */
  method Bread(flash: NorFlash, blksz: nat, start: nat, blkcnt: nat) returns (n: nat, dst: seq<byte>)
    requires (start + blkcnt) * blksz < 0x8000_0000
    modifies flash`failures
    ensures n == blkcnt || n == 0
    ensures |dst| == blkcnt * blksz && flash.failures >= old(flash.failures)
    ensures n > 0 ==> start * blksz + |dst| <= |flash.cells| && dst == flash.cells[start * blksz..start * blksz + |dst|]
    ensures n == 0 && 0 < blkcnt ==>
      flash.failures > old(flash.failures) || start * blksz + blkcnt * blksz > |flash.cells|
  {
    var ret;
    ret, dst := flash.Read(start * blksz, blkcnt * blksz);
    n := if ret != 0 then 0 else blkcnt;
  }

  /** A block range that was written reads back, and a range beside it reads as before. */
  lemma SpliceReads(cells: seq<byte>, at: nat, src: seq<byte>, from: nat, len: nat, now: seq<byte>)
    requires at + |src| <= |cells| && from + len <= |cells| && now == Splice(cells, at, src)
    ensures now[at..at + |src|] == src
    ensures from + len <= at || at + |src| <= from ==> now[from..from + len] == cells[from..from + len]
  {
    SpliceSlice(cells, at, src);
  }

  /** A write and a read of any two block ranges. If both succeed, which they do unless
      the device fails or lacks the sectors, the same range gives what was written and
      a range beside it what was there before. */
  method WriteThenRead(flash: NorFlash, blksz: nat, start: nat, blkcnt: nat, src: seq<byte>, from: nat, cnt: nat)
    returns (n: nat, m: nat, dst: seq<byte>)
    requires Bits.IsPow2(flash.sector) && 0 < flash.sector
    requires 0 < blksz && flash.sector % blksz == 0 && |src| == blkcnt * blksz && 0 < blkcnt && 0 < cnt
    requires (start + blkcnt) * blksz < 0x8000_0000 && (from + cnt) * blksz < 0x8000_0000
    modifies flash
    ensures n > 0 && m > 0 && from == start && cnt == blkcnt ==> dst == src
    ensures n > 0 && m > 0 && (from + cnt <= start || start + blkcnt <= from) ==>
      from * blksz + |dst| <= |old(flash.cells)| && dst == old(flash.cells)[from * blksz..from * blksz + |dst|]
    ensures n == 0 || m == 0 ==>
      || flash.failures > old(flash.failures)
      || Ceil(start * blksz + |src|, flash.sector) > |flash.cells| || from * blksz + cnt * blksz > |flash.cells|
  {
    ghost var cells := flash.cells;
    var wild;
    n, wild := Bwrite(flash, blksz, start, blkcnt, src);
    m, dst := Bread(flash, blksz, from, cnt);
    if n > 0 && m > 0 {
      RangesApart(start, blkcnt, from, cnt, blksz);
      SpliceReads(cells, start * blksz, src, from * blksz, |dst|, flash.cells);
    }
  }

  lemma RangesApart(start: nat, blkcnt: nat, from: nat, cnt: nat, blksz: nat)
    ensures from + cnt <= start ==> from * blksz + cnt * blksz <= start * blksz
    ensures start + blkcnt <= from ==> start * blksz + blkcnt * blksz <= from * blksz
  {
    if from + cnt <= start {
      MulAtMost(from + cnt, start, blksz);
    }
    if start + blkcnt <= from {
      MulAtMost(start + blkcnt, from, blksz);
    }
  }
}
