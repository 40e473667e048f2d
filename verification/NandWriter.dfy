/** The NAND back end of the crash-dump stream writer: pages collected in a
    buffer, bad blocks skipped, every erase block erased when it is entered
    (arch/arm/mach-ipq/cmd_crashdump.c). */
module NandWriter {
  import opened Common
  import opened Bytes
  import opened FlashCells
  import opened NandFlash
  import opened NandPlan
  import opened NandCut
  import opened NandRoute
  import opened Positions
  import Bits

  class NandWriter {
    const dev: NandFlash
    var firstErase: bool     // the function's static first_erase
    var partStart: nat
    var partSize: nat
    var offset: nat          // cur_crashdump_offset
    var dataLen: nat         // cur_page_data_len
    var temp: array?<byte>   // temp_data, one page
    ghost var c: Card        // the chip as the session found it
    ghost var t0: Trace
    ghost var start: nat     // the erase block where the session began
    ghost var p: Pos         // where the offset is
    ghost var ok: bool       // everything written so far reads back
    ghost var tidy: bool     // nothing ran over a block end
    ghost var cut: Cut       // the calls so far, and what is in the page buffer

    constructor (dev: NandFlash)
      ensures this.dev == dev && temp == null && firstErase
    {
      this.dev, firstErase, temp := dev, true, null;
      partStart, partSize, offset, dataLen := 0, 0, 0, 0;
    }

    ghost predicate Config()
      reads `partStart, `partSize, `c, dev
    {
      && dev.Valid() && CardOk(c)
      && c.bad == dev.bad && c.size == dev.erasesize && c.page == dev.writesize
      && At(partStart, c.lo, 0, c.size) && At(partStart + partSize, c.hi, 0, c.size)
    }

    /** The session has stayed in the partition. */
    ghost predicate Open()
      reads `partStart, `partSize, `c, `t0, `start, `tidy, dev
    {
      && Config()
      && Since(dev.trace, t0, c, start, tidy) && SameOutside(c.base, dev.blocks, From(c, start), c.hi)
    }

    /** The session has written `d` up to the current offset. */
    ghost predicate Ready(d: seq<byte>)
      reads `partStart, `partSize, `c, `t0, `start, `offset, `p, `ok, `tidy, `firstErase, dev
    {
      && Open()
      && At(offset, p.k, p.r, c.size) && (p.r > 0 || p.clean ==> !firstErase) && (tidy && p.r > 0 ==> p.clean)
      && Holds(c, start, dev.blocks, p, ok, d)
    }

    /** The start of the first block from `skipoff` on that is not bad, or the
        partition end. */
    method FindGood(skipoff: nat, ghost k: nat) returns (off: nat)
      requires Config() && At(skipoff, k, 0, c.size)
      ensures var j := NextGood(c.bad, k, c.hi); At(off, j, 0, c.size) && (off == skipoff <==> j == k)
    {
      var size: nat, end: nat := dev.erasesize, partStart + partSize;
      off := skipoff;
      ghost var j: nat := k;
      Below(off, j, 0, end, c.hi, size);
      while off < end
        invariant At(off, j, 0, size) && (off < end <==> j < c.hi)
        invariant k <= j && (off == skipoff <==> j == k)
        invariant NextGood(c.bad, j, c.hi) == NextGood(c.bad, k, c.hi)
        decreases end - off
      {
        var isBad := dev.IsBad(off, j);
        if !isBad {
          break;
        }
        Advance(off, size, j, 0, size);
        off, j := off + size, j + 1;
        Below(off, j, 0, end, c.hi, size);
      }
    }

    /** Moves the offset past bad blocks, to the partition end at most. */
    method SkipBad(ghost d: seq<byte>)
      requires Ready(d)
      modifies this`offset, this`p
      ensures Ready(d) && p == Skip(c, old(p))
    {
      AtMod(offset, p.k, p.r, c.size);
      var skipoff_cmp := offset - Bits.LowBits(offset, dev.erasesize);
      var skipoff := FindGood(skipoff_cmp, p.k);
      SkipHolds(c, start, dev.blocks, p, ok, d);
      if skipoff_cmp != skipoff {
        offset := skipoff;
      }
      p := Skip(c, p);
    }

    /** Before a piece: skip bad blocks, stop at the partition end, and erase a
        block that is being entered. */
    method EnterBlock(remaining: nat, ghost d: seq<byte>) returns (ret: int)
      requires Ready(d) && 0 < remaining
      modifies this`offset, this`p, this`firstErase, dev
      ensures Open() && dev.failures >= old(dev.failures)
      ensures ret == 0 ==> Ready(d) && p == Enter(c, old(p)) && Room(c, p, remaining) && Writable(c, start, p)
      ensures ret != 0 ==> dev.failures > old(dev.failures) || !Room(c, Enter(c, old(p)), remaining)
      ensures Entered(old(dev.trace), dev.trace, Enter(c, old(p)), ret == 0)
      ensures !Room(c, Enter(c, old(p)), remaining) ==> dev.trace == old(dev.trace)
    {
      SkipBad(d);
      var end := partStart + partSize;
      if partStart > offset || offset + remaining >= end {
        return 1;
      }
      Below(offset, p.k, p.r, partStart, c.lo, c.size);
      Below(offset, p.k, p.r, end, c.hi, c.size);
      AtMod(offset, p.k, p.r, dev.erasesize);
      ret := 0;
      if Bits.LowBits(offset, dev.erasesize) == 0 || firstErase {
        ret := EraseHere(d);
      }
    }

    method EraseHere(ghost d: seq<byte>) returns (ret: int)
      requires Ready(d) && p.r == 0 && start <= p.k && c.lo <= p.k < c.hi && !c.bad[p.k]
      modifies this`p, this`firstErase, dev
      ensures Open() && dev.failures >= old(dev.failures)
      ensures ret == 0 ==> Ready(d) && p == Pos(old(p).k, 0, true)
      ensures ret != 0 ==> dev.failures > old(dev.failures)
      ensures Entered(old(dev.trace), dev.trace, Pos(old(p).k, 0, true), ret == 0)
    {
      ghost var was, t := dev.blocks, dev.trace;
      EraseInPartition(c, p.k, offset);
      ret := dev.Erase(offset, p.k, 0);
      TouchMore(c, start, was, dev.blocks, p.k, p.k + 1);
      SinceNext(t, t0, c, start, tidy, tidy, EraseOp(offset, p.k, 0), dev.blocks);
      if ret == 0 {
        EraseHolds(c, start, was, dev.blocks, p, ok, d);
        p := Pos(p.k, 0, true);
        firstErase := false;
      }
    }

    /** Programs one piece at the current offset, which EnterBlock has prepared.
        The last piece is written whole, even when it runs over the block end; a
        failed write moves the offset only if the piece is the last. */
    method Piece(x: seq<byte>, last: bool, ghost d: seq<byte>) returns (ret: int)
      requires Ready(d) && Writable(c, start, p) && Room(c, p, |x|) && x != []
      requires |x| <= c.size && (p.r + |x| <= c.size || last)
      requires IsMultiple(|x|, c.page) && IsMultiple(p.r + |x|, c.page)
      modifies this`offset, this`p, this`ok, this`tidy, dev
      ensures Open() && dev.failures >= old(dev.failures)
      ensures tidy == (old(tidy) && old(p).r + |x| <= c.size)
      ensures ret == 0 ==> Ready(d + x) && p == After(c, old(p), |x|) && ok == (old(ok) && Taken(c, old(p), x))
      ensures ret != 0 ==> dev.failures > old(dev.failures)
      ensures Programmed(old(dev.trace), dev.trace, old(p), x)
    {
      ghost var was := dev.blocks;
      ret := Stay(x, last);
      if ret == 0 {
        ghost var q, ok' := After(c, p, |x|), ok && Taken(c, p, x);
        PieceDone(c, start, was, dev.blocks, p, q, ok, ok', d, x, d + x);
        AfterClean(c, p, |x|, q);
        ok, p := ok', q;
      }
    }

    /** The piece stays in the partition. */
    method Stay(x: seq<byte>, last: bool) returns (ret: int)
      requires Open() && At(offset, p.k, p.r, c.size) && PosOk(c, p) && (tidy && p.r > 0 ==> p.clean)
      requires Cells(c, start, dev.blocks, p) && Writable(c, start, p) && Room(c, p, |x|)
      requires |x| <= c.size && IsMultiple(|x|, c.page)
      modifies this`offset, this`tidy, dev
      ensures Open() && dev.failures >= old(dev.failures)
      ensures tidy == (old(tidy) && p.r + |x| <= c.size) && (c.size < p.r + |x| ==> p.k + 1 < c.hi)
      ensures ret == 0 ==> dev.blocks == Program(old(dev.blocks), c.bad, c.size, p.k, p.r, x)
      ensures ret == 0 ==> At(offset, After(c, p, |x|).k, After(c, p, |x|).r, c.size)
      ensures ret != 0 ==> dev.failures > old(dev.failures)
      ensures Programmed(old(dev.trace), dev.trace, p, x)
    {
      ghost var t, off := dev.trace, offset;
      ghost var n;
      ret, n := Transfer(x, last);
      ghost var tidy' := tidy && p.r + |x| <= c.size;
      PieceSince(c, start, t, t0, p, off, x, x[..n], dev.blocks, tidy, tidy');
      tidy := tidy';
      assert x[..|x|] == x;
    }

    /** The write itself: it programs `n` bytes, all of them on success, and moves
        the offset past them unless it failed before the last piece. */
    method Transfer(x: seq<byte>, last: bool) returns (ret: int, ghost n: nat)
      requires Config() && At(offset, p.k, p.r, c.size) && p.k < c.hi <= |c.bad| && |x| <= c.size && Room(c, p, |x|)
      requires IsMultiple(p.r, c.page) && IsMultiple(|x|, c.page)
      modifies this`offset, dev
      ensures Config() && n <= |x| && (ret == 0 ==> n == |x|) && dev.failures >= old(dev.failures)
      ensures dev.blocks == Program(old(dev.blocks), c.bad, c.size, p.k, p.r, x[..n])
      ensures dev.trace == Next(old(dev.trace), ProgramOp(old(offset), |x|, p.k, p.r, x[..n]), dev.blocks)
      ensures ret == 0 ==> At(offset, After(c, p, |x|).k, After(c, p, |x|).r, c.size)
      ensures ret != 0 ==> dev.failures > old(dev.failures)
    {
      OffsetMultiple(p.k, p.r, c.size, c.page);
      MultipleMeaning(offset, c.page);
      MultipleMeaning(|x|, c.page);
      MulMonotone(c.hi, |c.bad|, c.size);
      Advance(offset, |x|, p.k, p.r, c.size);
      ghost var f := dev.failures;
      var m;
      ret, m := dev.Write(offset, x, p.k, p.r);
      n := m;
      if ret == 0 || last {
        offset := offset + m;
      }
    }

    /** One round of the write loop: prepares the block and writes either up to
        its end or, when at most one block of data is left, all of it. */
    method Round(data: seq<byte>, ghost d: seq<byte>, ghost w: Result) returns (ret: int, len: nat, ghost left: nat)
      requires Ready(d) && data != [] && IsMultiple(|data|, c.page)
      requires w == Write(c, p, ok, tidy, data)
      modifies this`offset, this`p, this`firstErase, this`ok, this`tidy, dev
      ensures Open() && dev.failures >= old(dev.failures)
      ensures ret == 0 ==> 0 < len <= |data| && left == |data| - len && IsMultiple(left, c.page)
      ensures ret == 0 ==> Ready(d + data[..len]) && w == Write(c, p, ok, tidy, data[len..])
      ensures ret != 0 ==> dev.failures > old(dev.failures) || w.NoRoom?
      ensures w.tidy ==> tidy
      ensures |data| <= c.size ==>
        Single(c, start, old(p), old(dev.trace), dev.trace, data) && (ret == 0 ==> len == |data|)
    {
      len, left := 0, 0;
      RoundPlan(c, p, ok, tidy, data, Enter(c, p), w);
      ret := EnterBlock(|data|, d);
      if ret == 0 {
        ret, len, left := NextPiece(data, d, w);
      }
    }

    /** The piece of a round. */
    method NextPiece(data: seq<byte>, ghost d: seq<byte>, ghost w: Result) returns (ret: int, len: nat, ghost left: nat)
      requires Ready(d) && Writable(c, start, p) && data != [] && Room(c, p, |data|) && IsMultiple(|data|, c.page)
      requires w == WriteFrom(c, p, ok, tidy, data)
      modifies this`offset, this`p, this`ok, this`tidy, dev
      ensures Open() && dev.failures >= old(dev.failures)
      ensures 0 < len <= |data| && left == |data| - len && IsMultiple(left, c.page)
      ensures ret == 0 ==> Ready(d + data[..len]) && w == Write(c, p, ok, tidy, data[len..])
      ensures ret != 0 ==> dev.failures > old(dev.failures)
      ensures tidy == (old(tidy) && old(p).r + Len(c, old(p), |data|) <= c.size)
      ensures Programmed(old(dev.trace), dev.trace, old(p), data[..len])
      ensures |data| <= c.size ==> len == |data|
    {
      len := PieceLength(|data|);
      left := |data| - len;
      PiecePlan(c, p, ok, tidy, data, w, len, left, data[..len], data[len..]);
      ret := Piece(data[..len], |data| <= dev.erasesize, d);
    }

    /** How much of `n` bytes is written at once. */
    method PieceLength(n: nat) returns (len: nat)
      requires Config() && At(offset, p.k, p.r, c.size)
      ensures len == Len(c, p, n)
    {
      var size := dev.erasesize;
      AtMod(offset, p.k, p.r, size);
      var inBlock := Bits.LowBits(offset, size);
      len := if n > size then (if inBlock != 0 then size - inBlock else size) else n;
    }

    /** check_and_write_crashdump_nand_flash: the session holds `d`, and `w` is what the
        write leads to unless the chip fails. */
    method CheckAndWrite(data: seq<byte>, ghost d: seq<byte>, ghost w: Result) returns (ret: int)
      requires Ready(d) && IsMultiple(|data|, c.page) && w == Write(c, p, ok, tidy, data)
      modifies this`offset, this`p, this`firstErase, this`ok, this`tidy, dev
      ensures Open() && dev.failures >= old(dev.failures)
      ensures ret == 0 ==> Ready(d + data) && w == Put(p, ok, tidy)
      ensures ret != 0 ==> dev.failures > old(dev.failures) || w.NoRoom?
      ensures w.tidy ==> tidy
      ensures |data| <= c.size ==> Single(c, start, old(p), old(dev.trace), dev.trace, data)
    {
      var rest := data;
      ghost var had, p0, t, f := d, p, dev.trace, dev.failures;
      ghost var left := |data|;
      ret := 0;
      while rest != [] && ret == 0
        invariant Open() && dev.failures >= f
        invariant ret == 0 ==> Ready(had) && had + rest == d + data && left == |rest| && IsMultiple(left, c.page)
        invariant ret == 0 ==> w == Write(c, p, ok, tidy, rest)
        invariant ret != 0 ==> (dev.failures > f || w.NoRoom?) && (w.tidy ==> tidy)
        invariant rest == data && ret == 0 ==> p == p0 && dev.trace == t
        invariant |data| <= c.size ==> Single(c, start, p0, t, dev.trace, data) && (rest == [] || rest == data)
        decreases |rest|, ret == 0
      {
        var len;
        ret, len, left := Round(rest, had, w);
        if ret == 0 {
          TakeMore(had, rest, len, rest[..len], rest[len..], had + rest);
          had, rest := had + rest[..len], rest[len..];
        }
      }
    }

    /** The calls so far have been written. */
    ghost predicate Written()
      reads `partStart, `partSize, `c, `t0, `start, `offset, `p, `ok, `tidy, `firstErase, `cut, dev
    {
      Ready(Flatten(cut.calls)) && WriteAll(c, start, cut.calls) == Put(p, ok, tidy)
    }

    /** The whole pages of the stream are on the chip, the rest is in the buffer. */
    ghost predicate Valid()
      reads this, dev, temp
    {
      && Written()
      && temp != null && temp.Length == dev.writesize
      && dataLen < dev.writesize && cut.tail == temp[..dataLen]
    }

    /** Whether a step succeeds, when `f` failures of the chip were known: it does if the
        chip does not fail and there is room. */
    ghost predicate Reported(f: nat, ret: int, calls: seq<seq<byte>>)
      reads `partStart, `partSize, `c, `t0, `start, `tidy, dev
    {
      && Open() && dev.failures >= f
      && (ret != 0 ==> dev.failures > f || WriteAll(c, start, calls).NoRoom?)
      && (WriteAll(c, start, calls).tidy ==> tidy)
    }

    method Init(offset: nat, partStart: nat, partSize: nat, ghost k: nat, ghost lo: nat, ghost hi: nat)
      returns (ret: int)
      requires dev.Valid() && At(offset, k, 0, dev.erasesize) && k <= |dev.blocks| && hi <= |dev.blocks|
      requires At(partStart, lo, 0, dev.erasesize) && At(partStart + partSize, hi, 0, dev.erasesize)
      modifies this
      ensures ret == 0 && Valid() && fresh(temp) && cut == Cut([], [])
      ensures c == Card(dev.blocks, dev.bad, dev.erasesize, dev.writesize, lo, hi) && t0 == dev.trace && start == k
    {
      var page := new byte[dev.writesize];
      temp, dataLen, this.offset, this.partStart, this.partSize := page, 0, offset, partStart, partSize;
      c, t0, start := Card(dev.blocks, dev.bad, dev.erasesize, dev.writesize, lo, hi), dev.trace, k;
      p, ok, tidy, cut := Pos(k, 0, false), true, true, Cut([], []);
      MultipleMeaning(dev.erasesize, dev.writesize);
      ret := 0;
    }

    /** Appends a chunk to the stream. */
    method WriteData(data: seq<byte>) returns (ret: int)
      requires Valid() && dataLen + |data| < 0x1_0000_0000
      modifies this`offset, this`p, this`firstErase, this`ok, this`tidy, this`dataLen, this`cut, dev, temp
      ensures cut == Add(old(cut), data, c.page)
      ensures Reported(old(dev.failures), ret, cut.calls)
      ensures ret == 0 ==> Valid()
      ensures old(dataLen) + |data| < c.page ==> ret == 0 && dev.trace == old(dev.trace) && p == old(p)
    {
      if dataLen + |data| < dev.writesize {
        Memcpy(temp, dataLen, data);
        dataLen := dataLen + |data|;
        cut := Cut(cut.calls, cut.tail + data);
        return 0;
      }
      ret := Spill(data);
    }

    /** The part of WriteData that runs when a page is filled. */
    method Spill(data: seq<byte>) returns (ret: int)
      requires Valid() && dev.writesize <= dataLen + |data|
      modifies this`offset, this`p, this`firstErase, this`ok, this`tidy, this`dataLen, this`cut, dev, temp
      ensures cut == Add(old(cut), data, c.page)
      ensures Reported(old(dev.failures), ret, cut.calls)
      ensures ret == 0 ==> Valid()
    {
      var n := dev.writesize - dataLen;
      ghost var all := Add(cut, data, c.page);
      SpillPlan(c, start, cut, data, data[..n], data[n..], FillUp(cut, data[..n]), all);
      ret := FillPage(data[..n]);
      if ret == 0 {
        ret := PutRest(data[n..]);
      } else {
        cut := all;
      }
    }

    /** One call, in terms of all calls so far. */
    method Call(x: seq<byte>) returns (ret: int)
      requires Written() && IsMultiple(|x|, c.page)
      modifies this`offset, this`p, this`firstErase, this`ok, this`tidy, this`cut, dev
      ensures cut == Cut(old(cut).calls + [x], [])
      ensures Reported(old(dev.failures), ret, cut.calls)
      ensures ret == 0 ==> Written()
      ensures |x| <= c.size ==> Single(c, start, old(p), old(dev.trace), dev.trace, x)
    {
      WriteNext(c, start, cut.calls, x);
      FlattenSnoc(cut.calls, x);
      ret := CheckAndWrite(x, Flatten(cut.calls), WriteAll(c, start, cut.calls + [x]));
      cut := Cut(cut.calls + [x], []);
    }

    /** Completes the page in the buffer and writes it. */
    method FillPage(data: seq<byte>) returns (ret: int)
      requires Valid() && dataLen + |data| == dev.writesize
      modifies this`offset, this`p, this`firstErase, this`ok, this`tidy, this`cut, dev, temp
      ensures cut == FillUp(old(cut), data)
      ensures Reported(old(dev.failures), ret, cut.calls)
      ensures ret == 0 ==> Written()
      ensures c.page <= c.size && Single(c, start, old(p), old(dev.trace), dev.trace, old(cut).tail + data)
    {
      ghost var first := cut.tail + data;
      Memcpy(temp, dataLen, data);
      assert temp[..] == first;
      ret := Call(temp[..]);
    }

    /** Writes the whole pages of `data` in one go and buffers what remains. */
    method PutRest(data: seq<byte>) returns (ret: int)
      requires Written() && cut.tail == [] && temp != null && temp.Length == dev.writesize
      modifies this`offset, this`p, this`firstErase, this`ok, this`tidy, this`dataLen, this`cut, dev, temp
      ensures cut == AddBulk(old(cut), data, c.page)
      ensures Reported(old(dev.failures), ret, cut.calls)
      ensures ret == 0 ==> Valid()
    {
      WholeMeaning(|data|, dev.writesize);
      var len := |data| / dev.writesize * dev.writesize;
      ret := 0;
      if len > 0 {
        ret := Call(data[..len]);
      }
      if ret == 0 {
        Keep(data[len..]);
      } else {
        cut := Cut(cut.calls, data[len..]);
      }
    }

    /** Buffers what is shorter than a page. */
    method Keep(rest: seq<byte>)
      requires Written() && temp != null && temp.Length == dev.writesize && |rest| < c.page
      modifies this`dataLen, this`cut, temp
      ensures Valid() && cut == Cut(old(cut).calls, rest)
    {
      Memcpy(temp, 0, rest);
      dataLen := |rest|;
      cut := Cut(cut.calls, rest);
    }

    /** Ends the session: pads the buffered bytes with 0xFF to a whole page,
        writes it, and frees the buffer. */
    method Deinit() returns (ret: int)
      requires Valid()
      modifies this`offset, this`p, this`firstErase, this`ok, this`tidy, this`cut, this`temp, dev, temp
      ensures temp == null && cut == Cut(Flush(old(cut), c.page), [])
      ensures Reported(old(dev.failures), ret, cut.calls)
      ensures ret == 0 ==> Written()
      ensures var tail := old(cut).tail;
              if tail == [] then dev.trace == old(dev.trace)
              else Single(c, start, old(p), old(dev.trace), dev.trace, tail + Fill(c.page - |tail|, 0xFF))
    {
      ret := 0;
      if dataLen > 0 {
        ret := FillPage(Fill(dev.writesize - dataLen, 0xFF));
      }
      temp := null;
    }
  }

  /** The chunks, one call each. */
  method Feed(w: NandWriter, chunks: seq<seq<byte>>) returns (ret: int)
    requires w.Valid() && w.cut == Cut([], [])
    requires forall i :: 0 <= i < |chunks| ==> w.dev.writesize + |chunks[i]| < 0x1_0000_0000
    modifies w`offset, w`p, w`firstErase, w`ok, w`tidy, w`dataLen, w`cut, w.dev, w.temp
    ensures w.Reported(old(w.dev.failures), ret, CutAll(chunks, w.c.page).calls)
    ensures ret == 0 ==> w.Valid() && w.cut == CutAll(chunks, w.c.page)
  {
    ghost var f := w.dev.failures;
    ret := 0;
    var i := 0;
    assert chunks[..|chunks|] == chunks;
    while i < |chunks| && ret == 0
      invariant 0 <= i <= |chunks|
      invariant w.cut == CutAll(chunks[..i], w.c.page) && w.Reported(f, ret, w.cut.calls)
      invariant ret == 0 ==> w.Valid()
    {
      assert chunks[..i + 1][..i] == chunks[..i];
      ret := w.WriteData(chunks[i]);
      i := i + 1;
    }
    CutGrows(chunks, w.c.page, i);
    WriteLater(w.c, w.start, w.cut.calls, CutAll(chunks, w.c.page).calls);
  }

  /** One session from the start of erase block `k`. Whatever blocks are bad and
      however the chip fails, only the partition is erased and programmed, and only
      erased cells of good blocks if no piece runs over a block end. Unless the chip
      fails, the session succeeds exactly if the plan finds room. After a session that
      succeeded, a reader that skips bad blocks gets the concatenated chunks, padded
      with 0xFF to a whole page, exactly if the plan says so; on an erased partition
      that is if every piece that runs over a block end lands in a good block. */
  method StoreAll(w: NandWriter, offset: nat, partStart: nat, partSize: nat, chunks: seq<seq<byte>>,
                  ghost k: nat, ghost lo: nat, ghost hi: nat, ghost c: Card) returns (ret: int)
    requires w.dev.Valid() && At(offset, k, 0, w.dev.erasesize) && k <= |w.dev.blocks| && hi <= |w.dev.blocks|
    requires At(partStart, lo, 0, w.dev.erasesize) && At(partStart + partSize, hi, 0, w.dev.erasesize)
    requires forall i :: 0 <= i < |chunks| ==> w.dev.writesize + |chunks[i]| < 0x1_0000_0000
    requires c == Card(w.dev.blocks, w.dev.bad, w.dev.erasesize, w.dev.writesize, lo, hi)
    modifies w, w.dev
    ensures w.dev.Valid() && SameOutside(old(w.dev.blocks), w.dev.blocks, From(c, k), hi)
    ensures Since(w.dev.trace, old(w.dev.trace), c, k, Plan(c, k, chunks).tidy)
    ensures ret != 0 ==> w.dev.failures > old(w.dev.failures) || Plan(c, k, chunks).NoRoom?
    ensures ret == 0 ==>
      Plan(c, k, chunks).Put? && Stored(c, k, Plan(c, k, chunks), w.dev.blocks, Join(Blocks(Flatten(chunks), c.page)))
    ensures CardOk(c) && Matches(c, RouteOf(c, k, Lens(chunks)), Plan(c, k, chunks))
  {
    ghost var t := w.dev.trace;
    ret := w.Init(offset, partStart, partSize, k, lo, hi);
    ret := Feed(w, chunks);
    if ret == 0 {
      ret := w.Deinit();
    } else {
      WriteLater(c, k, CutAll(chunks, c.page).calls, Flush(CutAll(chunks, c.page), c.page));
    }
    FlushJoins(chunks, c.page);
    RouteTells(c, k, chunks, Lens(chunks), RouteOf(c, k, Lens(chunks)), Plan(c, k, chunks));
    SinceWeaken(w.dev.trace, t, c, k, w.tidy, Plan(c, k, chunks).tidy);
  }

  /** The session is at the position of the plan, and its good blocks read back as `d`
      exactly if the plan says so. */
  ghost predicate Stored(c: Card, s: nat, plan: Result, blocks: seq<Block>, d: seq<byte>)
    requires plan.Put?
  {
    && Holds(c, s, blocks, plan.pos, plan.ok, d)
    && (plan.ok <==> Readable(blocks, c.bad, s, plan.pos.k, plan.pos.r) == d)
  }

  lemma TakeMore<T>(had: seq<T>, rest: seq<T>, n: nat, x: seq<T>, y: seq<T>, all: seq<T>)
    requires n <= |rest| && x == rest[..n] && y == rest[n..] && all == had + rest
    ensures had + x + y == all && |y| == |rest| - n && (n == |rest| ==> y == [])
  {
    assert rest == x + y;
    Assoc(had, x, y);
  }

  /** What a write of at most one block at the start of a good block does. */
  ghost predicate Single(c: Card, s: nat, p: Pos, t: Trace, t': Trace, x: seq<byte>) {
    p.r == 0 && Writable(c, s, Pos(p.k, 0, true)) ==>
      OneRound(t, t', p.k, x) && (t' == t || Room(c, Pos(p.k, 0, true), |x|))
  }

  /** One program of a prefix of `x` at `p`. */
  ghost predicate Programmed(t: Trace, t': Trace, p: Pos, x: seq<byte>) {
    && t'.Next? && t'.before == t && t'.op.ProgramOp?
    && t'.op.k == p.k && t'.op.r == p.r && t'.op.data <= x
  }

  /** The trace before a write to position `e` and after the block was prepared. */
  ghost predicate Entered(t: Trace, t': Trace, e: Pos, done: bool) {
    if t' == t then done ==> e.r > 0
    else
      && t'.Next? && t'.before == t && t'.op.EraseOp? && t'.op.k == e.k
      && (done ==> e.k < |t'.blocks| && Blank(t'.blocks[e.k], 0, |t'.blocks[e.k]|))
  }
}
