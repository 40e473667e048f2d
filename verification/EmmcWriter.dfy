/** The eMMC back end of the crash-dump stream writer: chunks of any length
    collected into whole blocks (arch/arm/mach-ipq/cmd_crashdump.c). */
module EmmcWriter {
  import opened Common
  import opened Bytes

  /** The states added to the history change `disk` only inside [lo, hi). */
  ghost predicate Logged(disk: seq<Block>, history: seq<seq<Block>>, history': seq<seq<Block>>, lo: nat, hi: nat) {
    && history <= history'
    && forall i :: |history| <= i < |history'| ==> SameOutside(disk, history'[i], lo, hi)
  }

  /** The eMMC user area, as a sequence of blocks. A block write can stop early;
      every block it completes is a state in which power can be lost, kept in
      `history`. */
  class Mmc {
    const blksz: nat
    var disk: seq<Block>
    ghost var history: seq<seq<Block>>
    ghost var failures: nat   // writes that failed though they were in range

    constructor (blksz: nat, disk: seq<Block>)
      ensures this.blksz == blksz && this.disk == disk && history == [] && failures == 0
    {
      this.blksz, this.disk, this.history, failures := blksz, disk, [], 0;
    }

    method BlockWrite(start: nat, cnt: nat, data: seq<byte>) returns (n: nat)
      requires 0 < blksz && |data| == cnt * blksz
      modifies this
      ensures n <= cnt == |Blocks(data, blksz)|
      ensures n > 0 ==> start + cnt <= |disk|
      ensures disk == Splice(old(disk), start, Blocks(data, blksz)[..n])
      ensures Logged(old(disk), old(history), history, start, start + cnt)
      ensures n == 0 ==> disk == old(disk) && history == old(history)
      ensures n == 1 ==> history == old(history) + [disk]
      ensures failures >= old(failures) && (n < cnt ==> failures > old(failures) || |disk| < start + cnt)
    {
      ExactBlocks(data, cnt, blksz);
      n := 0;
      if start + cnt <= |disk| {
        n :| 0 <= n <= cnt;
        failures := if n < cnt then failures + 1 else failures;
      }
      var blocks := Blocks(data, blksz);
      ghost var was := disk;
      history := history + seq(n, k requires 0 <= k < n => Splice(was, start, blocks[..k + 1]));
      disk := Splice(disk, start, blocks[..n]);
    }
  }

  /** The disk, and every state of it since `mark`, is `base` outside [lo, hi). */
  ghost predicate StatesWithin(disk: seq<Block>, history: seq<seq<Block>>, mark: nat, base: seq<Block>, lo: nat,
                               hi: nat) {
    && SameOutside(base, disk, lo, hi)
    && mark <= |history|
    && forall i :: mark <= i < |history| ==> SameOutside(base, history[i], lo, hi)
  }

  lemma StatesWiden(disk: seq<Block>, history: seq<seq<Block>>, mark: nat, base: seq<Block>, lo: nat, hi: nat, hi': nat)
    requires StatesWithin(disk, history, mark, base, lo, hi) && hi <= hi'
    ensures StatesWithin(disk, history, mark, base, lo, hi')
  {}

  /** A further write inside [lo, hi) keeps everything outside. */
  lemma StatesGrow(disk: seq<Block>, history: seq<seq<Block>>, mark: nat, base: seq<Block>, lo: nat, hi: nat,
                   disk': seq<Block>, history': seq<seq<Block>>, at: nat, d: seq<Block>, end: nat)
    requires StatesWithin(disk, history, mark, base, lo, hi) && lo <= at && at + |d| <= end <= hi
    requires disk' == Splice(disk, at, d) && Logged(disk, history, history', at, end)
    ensures StatesWithin(disk', history', mark, base, lo, hi)
  {
    forall i | mark <= i < |history'| ensures SameOutside(base, history'[i], lo, hi) {
      if i >= |history| {
        SameOutsideTrans(base, disk, history'[i], lo, hi, at, end);
      } else {
        assert history'[i] == history[i];
      }
    }
  }

  /** `disk` is `base` with the blocks `full` written from block `start` on. */
  ghost predicate Stored(disk: seq<Block>, base: seq<Block>, start: nat, full: seq<Block>, b: nat) {
    && (forall i :: 0 <= i < |full| ==> |full[i]| == b)
    && (full != [] ==> start + |full| <= |base|)
    && disk == Splice(base, start, full)
  }

  lemma StoredStep(disk: seq<Block>, base: seq<Block>, start: nat, full: seq<Block>, more: seq<Block>, b: nat)
    requires Stored(disk, base, start, full, b)
    requires more != [] ==> start + |full| + |more| <= |base|
    requires forall i :: 0 <= i < |more| ==> |more[i]| == b
    ensures Stored(Splice(disk, start + |full|, more), base, start, full + more, b)
  {
    SpliceAppend(base, start, full, more);
  }

  class EmmcWriter {
    const dev: Mmc
    var offset: nat          // cur_crashdump_offset, in blocks
    var dataLen: nat         // cur_blk_data_len
    var temp: array?<byte>   // temp_data, one block
    // what the session has been asked to store, and where
    ghost var start: nat
    ghost var base: seq<Block>
    ghost var mark: nat
    ghost var stream: seq<byte>
    ghost var full: seq<Block>

    /** Nothing outside the blocks that the stream needs has changed, now or in
        any state since the session began. */
    ghost predicate Confined()
      reads `start, `base, `mark, `stream, dev
    {
      && 0 < dev.blksz
      && StatesWithin(dev.disk, dev.history, mark, base, start, start + CeilDiv(|stream|, dev.blksz))
    }

    /** The complete blocks are on the disk from `start` on, and nothing else is. */
    ghost predicate Placed()
      reads `start, `base, `mark, `stream, `full, `offset, dev
    {
      && Confined()
      && offset == start + |full|
      && Stored(dev.disk, base, start, full, dev.blksz)
    }

    /** The complete blocks of the stream are on the disk; the rest, shorter than
        a block, is in the buffer. */
    ghost predicate Valid()
      reads this, dev, temp
    {
      && Placed()
      && temp != null && temp.Length == dev.blksz
      && dataLen < dev.blksz
      && stream == Join(full) + temp[..dataLen]
    }

    /** Whether a step succeeds, when `f` failures of the device were known: it does if
        the device does not fail and the stream fits on the disk. */
    ghost predicate Reported(f: nat, ret: int)
      reads `start, `stream, dev
      requires 0 < dev.blksz
    {
      && dev.failures >= f
      && (ret != 0 ==> dev.failures > f || |dev.disk| < start + CeilDiv(|stream|, dev.blksz))
    }

    ghost predicate SessionIs(start: nat, base: seq<Block>, mark: nat)
      reads this
    {
      this.start == start && this.base == base && this.mark == mark
    }

    constructor (dev: Mmc)
      ensures this.dev == dev && temp == null
    {
      this.dev := dev;
      offset, dataLen, temp := 0, 0, null;
    }

    method Init(start: nat) returns (ret: int)
      requires 0 < dev.blksz
      modifies this
      ensures ret == 0 && Valid() && fresh(temp)
      ensures SessionIs(start, dev.disk, |dev.history|) && stream == []
    {
      offset := start;
      dataLen := 0;
      temp := new byte[dev.blksz];
      this.start, base, mark, stream, full := start, dev.disk, |dev.history|, [], [];
      ret := 0;
    }

    /** Extends the stream by data still to be stored. */
    ghost method Announce(data: seq<byte>)
      requires Placed()
      modifies this`stream
      ensures Placed() && stream == old(stream) + data
    {
      ghost var end := start + CeilDiv(|stream|, dev.blksz);
      CeilDivMonotone(|stream|, |stream| + |data|, dev.blksz);
      stream := stream + data;
      StatesWiden(dev.disk, dev.history, mark, base, start, end, start + CeilDiv(|stream|, dev.blksz));
    }

    /** Writes `cnt` blocks at the current offset and moves past them. */
    method Put(cnt: nat, data: seq<byte>) returns (n: nat)
      requires Placed() && |data| == cnt * dev.blksz
      requires |full| + cnt <= CeilDiv(|stream|, dev.blksz)
      modifies this`offset, this`full, dev
      ensures n <= cnt && Confined()
      ensures n == cnt ==> Placed() && full == old(full) + Blocks(data, dev.blksz)
      ensures n < cnt ==> offset == old(offset) && full == old(full)
      ensures n == 0 ==> dev.disk == old(dev.disk) && dev.history == old(dev.history)
      ensures n == 1 ==> dev.history == old(dev.history) + [dev.disk]
      ensures Reported(old(dev.failures), if n < cnt then -1 else 0)
    {
      ghost var end := start + CeilDiv(|stream|, dev.blksz);
      ghost var blocks := Blocks(data, dev.blksz);
      ghost var disk, history := dev.disk, dev.history;
      n := dev.BlockWrite(offset, cnt, data);
      StatesGrow(disk, history, mark, base, start, end, dev.disk, dev.history, offset, blocks[..n], offset + cnt);
      if n == cnt {
        assert blocks[..n] == blocks;
        StoredStep(disk, base, start, full, blocks, dev.blksz);
        offset := offset + cnt;
        full := full + blocks;
      }
    }

    /** Appends a chunk to the stream. The chunk length and the buffered length
        are added in 32 bits. */
    method WriteData(data: seq<byte>) returns (ret: int)
      requires Valid() && dataLen + |data| < 0x1_0000_0000
      modifies this, dev, temp
      ensures stream == old(stream) + data && SessionIs(old(start), old(base), old(mark))
      ensures temp == old(temp) && Confined()
      ensures ret == 0 ==> Valid()
      ensures old(dataLen) + |data| < dev.blksz ==>
        ret == 0 && dev.disk == old(dev.disk) && dev.history == old(dev.history)
      ensures ret in {0, -ENOMEM, -1} && Reported(old(dev.failures), ret)
    {
      var total := dataLen + |data|;
      if total < dev.blksz {
        ghost var tail := temp[..dataLen];
        Announce(data);
        Memcpy(temp, dataLen, data);
        dataLen := dataLen + |data|;
        assert temp[..dataLen] == tail + data;
        Assoc(Join(full), tail, data);
        return 0;
      }
      ret := Spill(data);
    }

    /** The part of WriteData that runs when the buffered bytes and the chunk
        fill at least one block. */
    method Spill(data: seq<byte>) returns (ret: int)
      requires Valid() && dev.blksz <= dataLen + |data|
      modifies this`offset, this`dataLen, this`stream, this`full, dev, temp
      ensures stream == old(stream) + data && Confined()
      ensures ret == 0 ==> Valid()
      ensures ret in {0, -ENOMEM, -1} && Reported(old(dev.failures), ret)
    {
      ghost var tail := temp[..dataLen];
      var pos := dev.blksz - dataLen;
      ghost var first, rest := tail + data[..pos], data[pos..];
      Announce(data);
      Memcpy(temp, dataLen, data[..pos]);
      assert temp[..] == first;
      BlocksAppended(full, first, rest, 1, dev.blksz);
      assert stream == Join(full) + first + rest by {
        assert data == data[..pos] + rest;
        Assoc(Join(full), tail, data);
        Assoc(tail, data[..pos], rest);
        Assoc(Join(full), first, rest);
      }
      var n := Put(1, temp[..]);
      ret := if n == 1 then 0 else -ENOMEM;
      if ret != 0 {
        return;
      }
      ret := PutRest(data[pos..]);
    }

    /** Stores the whole blocks of `data` and buffers what remains. */
    method PutRest(data: seq<byte>) returns (ret: int)
      requires Placed() && temp != null && temp.Length == dev.blksz
      requires stream == Join(full) + data
      modifies this`offset, this`dataLen, this`full, dev, temp
      ensures Confined()
      ensures ret == 0 ==> Valid()
      ensures ret in {0, -1} && Reported(old(dev.failures), ret)
    {
      var cnt := |data| / dev.blksz;
      var len := cnt * dev.blksz;
      WholeBlocks(|data|, dev.blksz);
      var bulk, rest := data[..len], data[len..];
      BlocksAppended(full, bulk, rest, cnt, dev.blksz);
      Assoc(Join(full), bulk, rest);
      assert data == bulk + rest;
      if len > 0 {
        var n := Put(cnt, bulk);
        ret := if n == cnt then 0 else -1;
        if ret != 0 {
          return;
        }
      } else {
        ret := 0;
        assert rest == data;
      }
      assert stream == Join(full) + rest;
      Memcpy(temp, 0, rest);
      dataLen := |rest|;
      assert temp[..dataLen] == rest;
    }

    /** Ends the session: pads the buffered bytes with 0xFF to a whole block,
        writes it, and frees the buffer. */
    method Deinit() returns (ret: int)
      requires Valid()
      modifies this, dev, temp
      ensures SessionIs(old(start), old(base), old(mark)) && stream == old(stream)
      ensures temp == null && Confined()
      ensures ret == 0 ==>
        && dev.disk == Splice(base, start, Blocks(stream, dev.blksz))
        && (stream != [] ==> start + |Blocks(stream, dev.blksz)| <= |base|)
      ensures ret in {0, -ENOMEM} && Reported(old(dev.failures), ret)
      ensures ret != 0 ==> dev.disk == old(dev.disk)
      ensures || dev.history == old(dev.history) + [dev.disk]
              || (dev.disk == old(dev.disk) && dev.history == old(dev.history))
    {
      ret := 0;
      ghost var tail := temp[..dataLen];
      ghost var last := tail + Fill(dev.blksz - dataLen, 0xFF);
      PaddedLast(full, tail, last, stream, dev.blksz);
      if dataLen > 0 {
        Memcpy(temp, dataLen, Fill(dev.blksz - dataLen, 0xFF));
        assert temp[..] == last;
        var n := Put(1, temp[..]);
        ret := if n == 1 then 0 else -ENOMEM;
      }
      temp := null;
    }
  }

  /** The blocks of a stream whose last block is padded. */
  lemma PaddedLast(full: seq<Block>, tail: seq<byte>, last: seq<byte>, stream: seq<byte>, b: nat)
    requires |tail| < b && last == tail + Fill(b - |tail|, 0xFF) && stream == Join(full) + tail
    requires forall i :: 0 <= i < |full| ==> |full[i]| == b
    ensures Blocks(stream, b) == if tail == [] then full else full + Blocks(last, b)
    ensures CeilDiv(|stream|, b) == if tail == [] then |full| else |full| + 1
  {
    BlocksAppend(full, tail, b);
    BlocksCons(last, [], b);
    assert last + [] == last;
  }

  /** One session: the chunks are stored one after the other, then the rest is
      flushed. However the data was cut into chunks, the blocks from `start` on
      hold it, and no state along the way differs anywhere else. Unless the device
      fails, the session succeeds exactly if the blocks are there. */
  method StoreAll(w: EmmcWriter, start: nat, chunks: seq<seq<byte>>) returns (ret: int)
    requires 0 < w.dev.blksz
    requires forall i :: 0 <= i < |chunks| ==> w.dev.blksz + |chunks[i]| < 0x1_0000_0000
    modifies w, w.dev
    ensures var b, d := w.dev.blksz, Flatten(chunks);
            && (ret == 0 ==> w.dev.disk == Splice(old(w.dev.disk), start, Blocks(d, b)))
            && (ret == 0 && d != [] ==> start + |Blocks(d, b)| <= |w.dev.disk|)
            && (ret != 0 ==> w.dev.failures > old(w.dev.failures) || |w.dev.disk| < start + CeilDiv(|d|, b))
            && StatesWithin(w.dev.disk, w.dev.history, |old(w.dev.history)|, old(w.dev.disk),
                            start, start + CeilDiv(|d|, b))
  {
    ret := w.Init(start);
    var i := 0;
    assert chunks[..|chunks|] == chunks;
    while i < |chunks|
      invariant 0 <= i <= |chunks| && w.Valid() && fresh(w.temp)
      invariant w.stream == Flatten(chunks[..i])
      invariant w.SessionIs(start, old(w.dev.disk), |old(w.dev.history)|) && w.dev.failures >= old(w.dev.failures)
    {
      FlattenNext(chunks, i);
      ret := w.WriteData(chunks[i]);
      if ret != 0 {
        FlattenPrefix(chunks, i + 1);
        CeilDivMonotone(|w.stream|, |Flatten(chunks)|, w.dev.blksz);
        StatesWiden(w.dev.disk, w.dev.history, w.mark, w.base, start, start + CeilDiv(|w.stream|, w.dev.blksz),
                    start + CeilDiv(|Flatten(chunks)|, w.dev.blksz));
        return;
      }
      i := i + 1;
    }
    ret := w.Deinit();
  }

  /** What a finished session stored can be read back from its blocks, and what
      follows it in the last block is 0xFF. */
  lemma StoredReadsBack(base: seq<Block>, start: nat, d: seq<byte>, b: nat)
    requires 0 < b && start + |Blocks(d, b)| <= |base|
    ensures var disk := Splice(base, start, Blocks(d, b));
            var image := Join(disk[start..start + |Blocks(d, b)|]);
            && d <= image && |image| < |d| + b
            && forall i :: |d| <= i < |image| ==> image[i] == 0xFF
  {
    SpliceSlice(base, start, Blocks(d, b));
    JoinBlocks(d, b);
  }
}
