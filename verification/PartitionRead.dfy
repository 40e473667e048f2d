/** Reading a byte range of an eMMC partition block by block
    (ipq_get_partition_data in arch/arm/mach-ipq/common.c). */
module PartitionRead {
  import opened Common
  import opened Bytes

  /** The disk is made of blocks of `b` bytes. */
  ghost predicate Blocky(disk: seq<Block>, b: nat) {
    0 < b && forall i :: 0 <= i < |disk| ==> |disk[i]| == b
  }

  /** The bytes of the disk from block `first` on. */
  function Rest(disk: seq<Block>, first: nat): seq<byte> {
    if first <= |disk| then Join(disk[first..]) else []
  }

  /** The reads that the code gets right: more than a block, or ending strictly inside
      the first one, or whole blocks from the start of the partition. */
  predicate Handled(offset: nat, size: nat, b: nat)
    requires 0 < b
  {
    b < size || offset % b + size < b || (offset == 0 && size % b == 0)
  }

  /** The range that was asked for. */
  ghost predicate IsRange(data: seq<byte>, disk: seq<Block>, start: nat, offset: nat, size: nat) {
    && offset + size <= |Rest(disk, start)|
    && data == Rest(disk, start)[offset..offset + size]
  }

  /** What the code delivers otherwise: the beginning of the block after the first. */
  ghost predicate IsNextBlock(data: seq<byte>, disk: seq<Block>, start: nat, offset: nat, size: nat, b: nat)
    requires 0 < b
  {
    var next := start + offset / b + 1;
    next < |disk| && size <= |disk[next]| && data == disk[next][..size]
  }

  lemma RestNext(disk: seq<Block>, i: nat)
    requires i < |disk|
    ensures Rest(disk, i) == disk[i] + Rest(disk, i + 1)
  {
    assert disk[i..] == [disk[i]] + disk[i + 1..];
    JoinCons(disk[i], disk[i + 1..]);
  }

  /** Whole blocks further on, the range is counted from there. */
  lemma {:induction false} RestSkips(disk: seq<Block>, b: nat, start: nat, q: nat)
    requires Blocky(disk, b) && start + q <= |disk|
    ensures q * b <= |Rest(disk, start)| && Rest(disk, start)[q * b..] == Rest(disk, start + q)
  {
    if q > 0 {
      RestSkips(disk, b, start, q - 1);
      RestNext(disk, start + q - 1);
      MulNonNeg(q - 1, b);
      assert q * b == (q - 1) * b + b;
      var r := Rest(disk, start);
      assert r[q * b..] == r[(q - 1) * b..][b..];
    }
  }

  lemma RangeFrom(disk: seq<Block>, b: nat, start: nat, offset: nat, size: nat, q: nat, o: nat, data: seq<byte>)
    requires Blocky(disk, b) && offset == q * b + o && start + q <= |disk|
    requires o + size <= |Rest(disk, start + q)| && data == Rest(disk, start + q)[o..o + size]
    ensures IsRange(data, disk, start, offset, size)
  {
    RestSkips(disk, b, start, q);
    var r := Rest(disk, start);
    assert r[q * b..][o..o + size] == r[offset..offset + size];
  }

  /** The blocks that the call reads are all on the disk. */
  predicate Present(disk: nat, start: nat, offset: nat, size: nat, b: nat)
    requires 0 < b
  {
    if offset == 0 && size % b == 0 then start + size / b <= disk else start + (offset + size) / b < disk
  }

  /** An eMMC, which reports how many blocks it has read: a read may fail with an error,
      or come short, as it may also beyond the end. */
  class Emmc {
    const b: nat
    const disk: seq<Block>
    ghost var failures: nat   // errors although the blocks are there
    ghost var shorts: nat     // reads that returned fewer blocks and no error

    constructor (b: nat, disk: seq<Block>)
      ensures this.b == b && this.disk == disk && failures == shorts == 0
    {
      this.b, this.disk, failures, shorts := b, disk, 0, 0;
    }

    /** One block into a buffer that holds `stale`. */
    method ReadBlock(i: nat, stale: Block) returns (ret: int, blk: Block)
      requires Blocky(disk, b) && |stale| == b
      modifies this
      ensures |blk| == b && failures >= old(failures) && shorts >= old(shorts)
      ensures ret <= 1 && (ret == 1 ==> i < |disk| && blk == disk[i]) && (ret != 1 ==> blk == stale)
      ensures ret == 0 <==> shorts > old(shorts)
      ensures ret < 0 ==> failures > old(failures) || |disk| <= i
    {
      var error, short: bool := *, *;
      ret, blk := if error then -1 else if short || i >= |disk| then 0 else 1, stale;
      if ret == 1 {
        blk := disk[i];
      } else if ret == 0 {
        shorts := shorts + 1;
      } else if i < |disk| {
        failures := failures + 1;
      }
    }

    /** Several blocks; `data` is what was read of them. */
    method ReadBlocks(start: nat, cnt: nat) returns (ret: int, data: seq<byte>)
      requires Blocky(disk, b)
      modifies this
      ensures failures >= old(failures) && shorts >= old(shorts) && ret <= cnt && |data| <= cnt * b
      ensures ret == cnt ==> start + cnt <= |disk| && data == Join(disk[start..start + cnt]) && |data| == cnt * b
      ensures 0 <= ret < cnt <==> shorts > old(shorts)
      ensures ret < 0 ==> failures > old(failures) || |disk| < start + cnt
    {
      ret :| -1 <= ret <= cnt && (start + cnt > |disk| ==> ret < cnt);
      MulNonNeg(cnt, b);
      data := [];
      if ret == cnt {
        WholeLength(disk[start..start + cnt], b);
        data := Join(disk[start..start + cnt]);
      } else if ret >= 0 {
        shorts := shorts + 1;
      } else if start + cnt <= |disk| {
        failures := failures + 1;
      }
    }
  }

  method Copy(buf: array<byte>, at: nat, d: seq<byte>)
    requires at + |d| <= buf.Length
    modifies buf
    ensures forall x :: 0 <= x < buf.Length ==> buf[x] == if at <= x < at + |d| then d[x - at] else old(buf[x])
  {
    forall i | 0 <= i < |d| {
      buf[at + i] := d[i];
    }
  }

  function Times(n: nat, b: nat): nat {
    if n == 0 then 0 else b + Times(n - 1, b)
  }

  lemma {:induction false} TimesIsProduct(n: nat, b: nat)
    ensures Times(n, b) == n * b
  {
    if n > 0 {
      TimesIsProduct(n - 1, b);
    }
  }

  lemma LeftOver(left: nat, n: nat, b: nat, r: nat)
    requires left == Times(n, b) + r && r < b
    ensures b <= left <==> n > 0
    ensures n > 0 ==> left - b == Times(n - 1, b) + r
    ensures n == 0 ==> left == r
  {}

  /** What is left of `all` after `done` bytes is `rest`. */
  ghost predicate Suffix(all: seq<byte>, done: nat, rest: seq<byte>) {
    && |all| == done + |rest|
    && forall k :: done <= k < |all| ==> all[k] == rest[k - done]
  }

  /** The first `pos` bytes of the buffer are those of `all` after `o`. */
  ghost predicate Filled(buf: seq<byte>, all: seq<byte>, o: nat, pos: nat) {
    && pos <= |buf| && o + pos <= |all|
    && forall x :: 0 <= x < pos ==> buf[x] == all[o + x]
  }

  lemma FilledNext(buf: seq<byte>, was: seq<byte>, all: seq<byte>, o: nat, pos: nat, d: seq<byte>, rest: seq<byte>)
    requires Filled(was, all, o, pos) && Suffix(all, o + pos, rest) && d <= rest
    requires |buf| == |was| && pos + |d| <= |buf|
    requires forall x :: 0 <= x < |buf| ==> buf[x] == if pos <= x < pos + |d| then d[x - pos] else was[x]
    ensures Filled(buf, all, o, pos + |d|)
  {}

  lemma SuffixNext(all: seq<byte>, done: nat, rest: seq<byte>, d: seq<byte>, rest': seq<byte>)
    requires Suffix(all, done, rest) && rest == d + rest'
    ensures Suffix(all, done + |d|, rest')
  {}

  /** The copying of one block after the first; `good` says that no read came short. */
  method CopyNext(disk: seq<Block>, blk: Block, i: nat, b: nat, ghost good: bool, ghost all: seq<byte>, ghost o: nat,
                  pos: nat, rdatacnt: nat, buf: array<byte>) returns (n: nat)
    requires |blk| == b && pos + rdatacnt <= buf.Length
    requires good ==>
      i < |disk| && blk == disk[i] && Filled(buf[..], all, o, pos) && Suffix(all, o + pos, Rest(disk, i))
    modifies buf
    ensures n == if rdatacnt >= b then b else rdatacnt
    ensures good ==> Filled(buf[..], all, o, pos + n)
    ensures good && n == b ==> Suffix(all, o + pos + n, Rest(disk, i + 1))
  {
    ghost var was := buf[..];
    n := if rdatacnt >= b then b else rdatacnt;
    Copy(buf, pos, blk[..n]);
    if good {
      CopiedNext(buf[..], was, all, o, pos, disk, i, blk, blk[..n]);
    }
  }

  lemma CopiedNext(buf: seq<byte>, was: seq<byte>, all: seq<byte>, o: nat, pos: nat, disk: seq<Block>, i: nat,
                   blk: Block, d: seq<byte>)
    requires i < |disk| && blk == disk[i] && d <= blk
    requires Filled(was, all, o, pos) && Suffix(all, o + pos, Rest(disk, i))
    requires |buf| == |was| && pos + |d| <= |buf|
    requires forall x :: 0 <= x < |buf| ==> buf[x] == if pos <= x < pos + |d| then d[x - pos] else was[x]
    ensures Filled(buf, all, o, pos + |d|)
    ensures |d| == |blk| ==> Suffix(all, o + pos + |d|, Rest(disk, i + 1))
  {
    RestNext(disk, i);
    FilledNext(buf, was, all, o, pos, d, Rest(disk, i));
    SuffixNext(all, o + pos, Rest(disk, i), blk, Rest(disk, i + 1));
  }

  /** The copying of the first block of a read of more than one. */
  method CopyFirst(disk: seq<Block>, blk: Block, i: nat, b: nat, o: nat, ghost good: bool, buf: array<byte>)
    requires |blk| == b && o < b <= buf.Length && (good ==> i < |disk| && blk == disk[i])
    modifies buf
    ensures good ==> Filled(buf[..], Rest(disk, i), o, b - o)
    ensures good ==> Suffix(Rest(disk, i), b, Rest(disk, i + 1))
  {
    Copy(buf, 0, blk[o..]);
    if good {
      RestNext(disk, i);
      SuffixNext(Rest(disk, i), 0, Rest(disk, i), disk[i], Rest(disk, i + 1));
    }
  }

  /** A read of more than one block, through a block buffer that holds `stale`. */
  method ReadLarge(dev: Emmc, stale: Block, first: nat, o: nat, size: nat, end: nat, ghost r: nat, buf: array<byte>)
    returns (ret: int)
    requires Blocky(dev.disk, dev.b) && |stale| == dev.b && o < dev.b < size <= buf.Length
    requires first <= end && r < dev.b && o + size == Times(end - first, dev.b) + r
    modifies buf, dev
    ensures dev.failures >= old(dev.failures) && dev.shorts >= old(dev.shorts)
    ensures ret >= 0 && dev.shorts == old(dev.shorts) ==>
      end < |dev.disk| && Filled(buf[..], Rest(dev.disk, first), o, size)
    ensures ret < 0 ==> dev.failures > old(dev.failures) || |dev.disk| <= end
  {
    ghost var all, shorts := Rest(dev.disk, first), dev.shorts;
    var b, blk := dev.b, stale;
    var pos: nat, rdatacnt: nat := 0, size;
    ret := 0;
    var i := first;
    while i <= end && ret >= 0
      invariant first <= i <= end + 1 && pos + rdatacnt == size && |blk| == b
      invariant dev.failures >= old(dev.failures) && dev.shorts >= shorts
      invariant ret < 0 ==> dev.failures > old(dev.failures) || |dev.disk| <= end
      invariant i == first ==> pos == 0
      invariant ret >= 0 && first < i <= end ==> rdatacnt == Times(end - i, b) + r
      invariant ret >= 0 && first < i && dev.shorts == shorts ==> i <= |dev.disk| && Filled(buf[..], all, o, pos)
      invariant ret >= 0 && first < i <= end && dev.shorts == shorts ==> Suffix(all, o + pos, Rest(dev.disk, i))
      invariant ret >= 0 && i == end + 1 ==> rdatacnt == 0
      decreases end + 1 - i, ret
    {
      ret, blk := dev.ReadBlock(i, blk);
      if ret >= 0 {
        if i == first {
          LeftOver(o + size, end - i, b, r);
          CopyFirst(dev.disk, blk, i, b, o, dev.shorts == shorts, buf);
          pos := pos + (b - o);
          rdatacnt := rdatacnt - (b - o);
        } else {
          LeftOver(rdatacnt, end - i, b, r);
          var n := CopyNext(dev.disk, blk, i, b, dev.shorts == shorts, all, o, pos, rdatacnt, buf);
          pos := pos + n;
          rdatacnt := rdatacnt - n;
        }
        i := i + 1;
      }
    }
  }

  /** A read of at most one block. `heap` is what lies behind the block buffer: the
      first copy runs into it when the range crosses the end of the block. */
  method ReadSmall(dev: Emmc, stale: Block, first: nat, o: nat, size: nat, end: nat, heap: seq<byte>, buf: array<byte>)
    returns (ret: int)
    requires Blocky(dev.disk, dev.b) && |stale| == dev.b && o < dev.b && size <= dev.b <= |heap| && size <= buf.Length
    requires end == if o + size < dev.b then first else first + 1
    modifies buf, dev
    ensures dev.failures >= old(dev.failures) && dev.shorts >= old(dev.shorts)
    ensures ret >= 0 && dev.shorts == old(dev.shorts) ==>
      && end < |dev.disk|
      && buf[..size] == if o + size < dev.b then dev.disk[first][o..o + size] else dev.disk[end][..size]
    ensures ret == 0 && o + size < dev.b ==> buf[..size] == stale[o..o + size]
    ensures ret < 0 ==> dev.failures > old(dev.failures) || |dev.disk| <= end
    ensures dev.shorts > old(dev.shorts) && o + size < dev.b ==> ret == 0
  {
    var blk;
    ret, blk := dev.ReadBlock(first, stale);
    if ret >= 0 {
      Copy(buf, 0, (blk + heap)[o..o + size]);
      if first == end {
        assert buf[..size] == (blk + heap)[o..o + size] == blk[o..o + size];
      } else {
        ret, blk := dev.ReadBlock(end, blk);
        if ret >= 0 {
          Copy(buf, 0, blk[..size]);
          assert buf[..size] == blk[..size];
        }
      }
    }
  }

  /** Whole blocks from the start of the partition, in one read. */
  method ReadWhole(dev: Emmc, start: nat, cnt: nat, size: nat, buf: array<byte>) returns (ret: int)
    requires Blocky(dev.disk, dev.b) && size == cnt * dev.b <= buf.Length
    modifies buf, dev
    ensures dev.failures >= old(dev.failures) && dev.shorts >= old(dev.shorts)
    ensures ret >= 0 && dev.shorts == old(dev.shorts) ==>
      start + cnt <= |dev.disk| && IsRange(buf[..size], dev.disk, start, 0, size)
    ensures ret < 0 ==> dev.failures > old(dev.failures) || |dev.disk| < start + cnt
  {
    var data;
    ret, data := dev.ReadBlocks(start, cnt);
    Copy(buf, 0, data);
    if ret == cnt {
      WholeRange(dev.disk, dev.b, start, cnt, data);
      assert buf[..size] == data;
    }
  }

  lemma WholeRange(disk: seq<Block>, b: nat, start: nat, cnt: nat, data: seq<byte>)
    requires Blocky(disk, b) && start + cnt <= |disk| && data == Join(disk[start..start + cnt]) && |data| == cnt * b
    ensures IsRange(data, disk, start, 0, cnt * b)
  {
    assert disk[start..] == disk[start..start + cnt] + disk[start + cnt..];
    JoinAppend(disk[start..start + cnt], disk[start + cnt..]);
  }

  /** Quotient and rest of the offset and of the end. */
  lemma Split(offset: nat, size: nat, b: nat) returns (q: nat, o: nat, k: nat, r: nat)
    requires 0 < b
    ensures q == offset / b && o == offset % b && offset == q * b + o && o < b
    ensures (offset + size) / b == q + k && o + size == Times(k, b) + r && r < b
    ensures size <= b ==> k == if o + size < b then 0 else 1
  {
    q, o := offset / b, offset % b;
    k, r := (o + size) / b, (o + size) % b;
    TimesIsProduct(k, b);
    EndBlock(offset, size, b, q, o, k, r);
    if size <= b {
      QuotientUnique(o + size, b, if o + size < b then 0 else 1);
    }
  }

  lemma EndBlock(offset: nat, size: nat, b: nat, q: nat, o: nat, k: nat, r: nat)
    requires 0 < b && offset == q * b + o && o + size == k * b + r && r < b
    ensures (offset + size) / b == q + k
  {
    assert (q + k) * b == q * b + k * b;
    QuotientUnique(offset + size, b, q + k);
  }

  /** ipq_get_partition_data on eMMC. Unless a read fails or comes short, it succeeds
      exactly if the blocks it reads are there; then it delivers the range that was asked
      for exactly if Handled says so, and otherwise the beginning of the block after the
      one that holds the offset. Only a negative count is taken for a failure: a block
      read that comes short succeeds with what was in the block buffer before. */
  method GetPartitionData(dev: Emmc, stale: Block, start: nat, offset: nat, size: nat, heap: seq<byte>,
                          buf: array<byte>)
    returns (ret: int)
    requires Blocky(dev.disk, dev.b) && |stale| == dev.b <= |heap| && size <= buf.Length
    modifies buf, dev
    ensures dev.failures >= old(dev.failures) && dev.shorts >= old(dev.shorts)
    ensures ret < 0 ==> dev.failures > old(dev.failures) || !Present(|dev.disk|, start, offset, size, dev.b)
    ensures ret >= 0 && dev.shorts == old(dev.shorts) ==>
      && Present(|dev.disk|, start, offset, size, dev.b)
      && (Handled(offset, size, dev.b) ==> IsRange(buf[..size], dev.disk, start, offset, size))
      && (!Handled(offset, size, dev.b) ==> IsNextBlock(buf[..size], dev.disk, start, offset, size, dev.b))
    ensures dev.shorts > old(dev.shorts) && offset % dev.b + size < dev.b && !(offset == 0 && size == 0) ==>
      ret == 0 && buf[..size] == stale[offset % dev.b..offset % dev.b + size]
  {
    if offset == 0 && size % dev.b == 0 {
      ret := ReadWhole(dev, start, size / dev.b, size, buf);
    } else {
      ret := ReadPart(dev, stale, start, offset, size, heap, buf);
    }
  }

  /** A read block by block. */
  method ReadPart(dev: Emmc, stale: Block, start: nat, offset: nat, size: nat, heap: seq<byte>, buf: array<byte>)
    returns (ret: int)
    requires Blocky(dev.disk, dev.b) && |stale| == dev.b <= |heap| && size <= buf.Length
    requires !(offset == 0 && size % dev.b == 0)
    modifies buf, dev
    ensures dev.failures >= old(dev.failures) && dev.shorts >= old(dev.shorts)
    ensures ret < 0 ==> dev.failures > old(dev.failures) || |dev.disk| <= start + (offset + size) / dev.b
    ensures ret >= 0 && dev.shorts == old(dev.shorts) ==>
      && start + (offset + size) / dev.b < |dev.disk|
      && (Handled(offset, size, dev.b) ==> IsRange(buf[..size], dev.disk, start, offset, size))
      && (!Handled(offset, size, dev.b) ==> IsNextBlock(buf[..size], dev.disk, start, offset, size, dev.b))
    ensures dev.shorts > old(dev.shorts) && offset % dev.b + size < dev.b ==>
      ret == 0 && buf[..size] == stale[offset % dev.b..offset % dev.b + size]
  {
    var first := start + offset / dev.b;
    var end := start + (offset + size) / dev.b;
    ghost var q, o, k, r := Split(offset, size, dev.b);
    ghost var shorts := dev.shorts;
    if size <= dev.b {
      ret := ReadSmall(dev, stale, first, offset % dev.b, size, end, heap, buf);
      if ret >= 0 && dev.shorts == shorts && o + size < dev.b {
        SmallRange(dev.disk, dev.b, start, offset, size, q, o, buf[..size]);
      }
    } else {
      ret := ReadLarge(dev, stale, first, offset % dev.b, size, end, r, buf);
      if ret >= 0 && dev.shorts == shorts {
        LargeRange(dev.disk, dev.b, start, offset, size, q, o, buf[..], buf[..size]);
      }
    }
  }

  lemma SmallRange(disk: seq<Block>, b: nat, start: nat, offset: nat, size: nat, q: nat, o: nat, data: seq<byte>)
    requires Blocky(disk, b) && offset == q * b + o && start + q < |disk| && o + size <= b
    requires data == disk[start + q][o..o + size]
    ensures IsRange(data, disk, start, offset, size)
  {
    RestNext(disk, start + q);
    RangeFrom(disk, b, start, offset, size, q, o, data);
  }

  lemma LargeRange(disk: seq<Block>, b: nat, start: nat, offset: nat, size: nat, q: nat, o: nat, buf: seq<byte>,
                   data: seq<byte>)
    requires Blocky(disk, b) && offset == q * b + o && start + q <= |disk|
    requires Filled(buf, Rest(disk, start + q), o, size) && data == buf[..size]
    ensures IsRange(data, disk, start, offset, size)
  {
    RangeFrom(disk, b, start, offset, size, q, o, data);
  }

  /** A range inside the disk is refused exactly if it ends with the last block of the
      disk, unless it is whole blocks from the start of the partition. */
  lemma RefusedAtTheEnd(disk: seq<Block>, b: nat, start: nat, offset: nat, size: nat)
    requires Blocky(disk, b) && start <= |disk| && offset + size <= |Rest(disk, start)|
    ensures Present(|disk|, start, offset, size, b) <==>
            offset + size < |Rest(disk, start)| || (offset == 0 && size % b == 0)
  {
    var n := |disk| - start;
    RestLength(disk, b, start, n);
    BlocksBefore(n, b, offset + size);
  }

  lemma RestLength(disk: seq<Block>, b: nat, start: nat, n: nat)
    requires Blocky(disk, b) && start + n == |disk|
    ensures |Rest(disk, start)| == n * b
  {
    RestSkips(disk, b, start, n);
    assert |Rest(disk, start)[n * b..]| == 0;
  }

  lemma BlocksBefore(n: nat, b: nat, x: nat)
    requires 0 < b && x <= n * b
    ensures x / b <= n && (x / b < n <==> x < n * b)
  {
    WholeBlocks(x, b);
    var d := n - x / b;
    assert d * b == n * b - x / b * b;
    if d < 0 {
      MulAtLeast(-d, b);
    } else if d > 0 {
      MulAtLeast(d, b);
    }
  }

  lemma RefusedExample()
    ensures exists disk: seq<Block>, b: nat, start: nat, offset: nat, size: nat ::
              && Blocky(disk, b) && offset + size <= |Rest(disk, start)| && Handled(offset, size, b)
              && !Present(|disk|, start, offset, size, b)
  {
    var x: Block, y: Block := [1, 2], [3, 4];
    var disk := [x, y];
    RestNext(disk, 0);
    RestNext(disk, 1);
    assert Rest(disk, 2) == [];
    assert |Rest(disk, 0)| == 4;
    assert Handled(1, 3, 2) && !Present(|disk|, 0, 1, 3, 2);
  }

  /** For every read that is not handled there is a disk on which the bytes delivered
      are not those of the range. */
  lemma NotHandled(b: nat, start: nat, offset: nat, size: nat)
    requires 0 < b && !Handled(offset, size, b)
    ensures exists disk: seq<Block>, data: seq<byte> ::
              && Blocky(disk, b)
              && IsNextBlock(data, disk, start, offset, size, b) && !IsRange(data, disk, start, offset, size)
  {
    var q, o, k, r := Split(offset, size, b);
    var next := start + q + 1;
    var disk := seq(next + 1, i => if i == next then Fill(b, 1) else Fill(b, 0));
    var data := Fill(size, 1);
    assert disk[next] == Fill(b, 1) && disk[start + q] == Fill(b, 0) && size <= b;
    assert data == disk[next][..size];
    NotTheRange(disk, b, start, offset, size, q, o, data);
  }

  lemma NotTheRange(disk: seq<Block>, b: nat, start: nat, offset: nat, size: nat, q: nat, o: nat, data: seq<byte>)
    requires Blocky(disk, b) && offset == q * b + o && o < b && start + q < |disk|
    requires disk[start + q] == Fill(b, 0) && data == Fill(size, 1) && 0 < size
    ensures !IsRange(data, disk, start, offset, size)
  {
    TimesIsProduct(q, b);
    ByteAt(disk, b, start, offset, q, o);
    NotZero(Rest(disk, start), offset, size, data);
  }

  /** The byte at `offset` is byte `o` of block `q`. */
  lemma {:induction false} ByteAt(disk: seq<Block>, b: nat, start: nat, offset: nat, q: nat, o: nat)
    requires Blocky(disk, b) && offset == Times(q, b) + o && o < b && start + q < |disk|
    ensures offset < |Rest(disk, start)| && Rest(disk, start)[offset] == disk[start + q][o]
    decreases q
  {
    RestNext(disk, start);
    if q > 0 {
      ByteAt(disk, b, start + 1, offset - b, q - 1, o);
    }
  }

  lemma NotZero(s: seq<byte>, offset: nat, size: nat, data: seq<byte>)
    requires offset < |s| && s[offset] == 0 && data == Fill(size, 1) && 0 < size
    ensures !(offset + size <= |s| && data == s[offset..offset + size])
  {
    if offset + size <= |s| {
      assert s[offset..offset + size][0] == s[offset] && data[0] == 1;
    }
  }
}
