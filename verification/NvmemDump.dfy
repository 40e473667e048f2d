/** The crash dump into an eMMC partition (arch/arm/mach-ipq/cmd_crashdump.c): the
    dumps and the index list as one stream from the second block on, and the header
    in a session of its own in the first block. */
module NvmemDump {
  import opened Common
  import opened Bytes
  import opened DumpContainer
  import opened DumpStream
  import opened EmmcWriter

  // ----- what the disk holds -----

  /** The partition, the block size and the room for a name. */
  datatype Target = Target(start: nat, part: nat, b: nat, nameMax: nat)

  predicate MagicAt(disk: seq<Block>, start: nat) {
    start < |disk| && HasMagic(disk[start])
  }

  function ImageAt(disk: seq<Block>, g: Target): seq<byte>
    requires g.start + g.part <= |disk|
  {
    Join(disk[g.start..g.start + g.part])
  }

  /** What a reader of the partition may find: no container, or all of it. */
  ghost predicate SoundDisk(disk: seq<Block>, g: Target, dumps: seq<Dump>) {
    && g.start + g.part <= |disk|
    && (MagicAt(disk, g.start) ==>
          HasMagic(ImageAt(disk, g)) && Sound(ImageAt(disk, g), PlaceOf(g.b, g.nameMax), dumps))
  }

  ghost function SoundOn(g: Target, dumps: seq<Dump>): seq<Block> -> bool {
    disk => SoundDisk(disk, g, dumps)
  }

  lemma BlocksFit(x: nat, b: nat, part: nat)
    requires 0 < b
    ensures 1 + CeilDiv(x, b) <= part <==> b + x <= part * b
  {
    CeilDivMeaning(x, b);
    var d := CeilDiv(x, b) - part + 1;
    assert d * b == CeilDiv(x, b) * b - part * b + b;
    MulAtLeast(d, b);
    MulAtLeast(1 - d, b);
    assert (1 - d) * b == b - d * b;
  }

  /** The first blocks of the partition: the header block, then the stream. */
  lemma ImageOf(disk: seq<Block>, g: Target, h: Block, stream: seq<byte>, blocks: seq<Block>)
    requires 1 + |blocks| <= g.part && g.start + g.part <= |disk| && disk[g.start] == h
    requires forall i :: 0 <= i < |blocks| ==> disk[g.start + 1 + i] == blocks[i]
    requires stream <= Join(blocks)
    ensures h + stream <= ImageAt(disk, g)
  {
    var rest := disk[g.start + 1 + |blocks|..g.start + g.part];
    SliceParts(disk, g.start, g.start + g.part, h, blocks, rest);
    JoinStarts(h, stream, blocks, rest, ImageAt(disk, g));
  }

  lemma SliceParts<T>(s: seq<T>, lo: nat, hi: nat, x: T, xs: seq<T>, rest: seq<T>)
    requires lo + 1 + |xs| <= hi <= |s| && s[lo] == x && rest == s[lo + 1 + |xs|..hi]
    requires forall i :: 0 <= i < |xs| ==> s[lo + 1 + i] == xs[i]
    ensures s[lo..hi] == [x] + (xs + rest)
  {
    assert s[lo + 1..hi] == xs + rest;
  }

  lemma JoinStarts(h: Block, stream: seq<byte>, blocks: seq<Block>, rest: seq<Block>, s: seq<byte>)
    requires s == Join([h] + (blocks + rest)) && stream <= Join(blocks)
    ensures h + stream <= s
  {
    JoinCons(h, blocks + rest);
    JoinAppend(blocks, rest);
    Assoc(h, Join(blocks), Join(rest));
  }

  /** The whole of it: the stream from the second block on, the header in the first. */
  lemma DiskCommits(g: Target, base: seq<Block>, stream: seq<byte>, list: seq<byte>,
                    curr: nat, log: Log, total: nat, was: seq<Block>, disk: seq<Block>)
    requires HEADER_SIZE < g.b && g.start + g.part <= |base|
    requires Gathered(g.b, g.nameMax, stream, list, curr, log) && |list| == Slot(Count(log), g.nameMax)
    requires total == curr + |list| < 0x1_0000_0000 && total <= g.part * g.b
    requires was == Splice(base, g.start + 1, Blocks(stream + list, g.b))
    requires disk == Splice(was, g.start, Blocks(HeaderBytes(Count(log), total, curr), g.b))
    ensures MagicAt(disk, g.start) && SoundDisk(disk, g, DumpsOf(log))
    ensures SameOutside(was, disk, g.start, g.start + 1)
  {
    var hdr := HeaderBytes(Count(log), total, curr);
    var h, s := hdr + Fill(g.b - |hdr|, 0xFF), ImageAt(disk, g);
    HeaderBlock(hdr, g.b, h);
    DiskImage(g, base, stream + list, hdr, h, was, disk);
    HeaderCommits(s, h, g.b, g.nameMax, stream, list, curr, log, total);
    MagicInFirst(s, h, stream + list);
  }

  lemma DiskImage(g: Target, base: seq<Block>, d: seq<byte>, hdr: seq<byte>, h: Block, was: seq<Block>,
                  disk: seq<Block>)
    requires 0 < g.b && g.start + g.part <= |base| && g.b + |d| <= g.part * g.b
    requires was == Splice(base, g.start + 1, Blocks(d, g.b)) && disk == Splice(was, g.start, Blocks(hdr, g.b))
    requires Blocks(hdr, g.b) == [h] && |h| == g.b
    ensures g.start < |disk| && disk[g.start] == h && h + d <= ImageAt(disk, g)
    ensures SameOutside(was, disk, g.start, g.start + 1)
  {
    BlocksFit(|d|, g.b, g.part);
    JoinBlocks(d, g.b);
    ImageOf(disk, g, h, d, Blocks(d, g.b));
  }

  lemma HeaderBlock(hdr: seq<byte>, b: nat, h: Block)
    requires 0 < |hdr| <= b && h == hdr + Fill(b - |hdr|, 0xFF)
    ensures Blocks(hdr, b) == [h] && |h| == b && HoldsAt(h, 0, hdr)
  {}

  lemma MagicInFirst(s: seq<byte>, h: Block, d: seq<byte>)
    requires HEADER_SIZE <= |h| && h + d <= s && HasMagic(s)
    ensures HasMagic(h)
  {
    assert forall i :: 0 <= i < 8 ==> s[i] == h[i];
  }

  // ----- the list is written before the size check -----

  /** The dumps and the list end inside the partition. */
  predicate Fits(g: Target, dumps: seq<Dump>) {
    End(g.b, dumps) + Slot(|dumps|, g.nameMax) <= g.part * g.b
  }

  /** Every dump passes its check, and there are blocks for the stream, in the partition
      or not. */
  predicate Streams(g: Target, dumps: seq<Dump>, disk: nat)
    requires 0 < g.b
  {
    && End(g.b, dumps) <= g.part * g.b
    && g.start + 1 + CeilDiv(End(g.b, dumps) - g.b + Slot(|dumps|, g.nameMax), g.b) <= disk
  }

  /** Behind the first block of the partition the disk is `base` with the stream `d`. */
  ghost predicate Flushed(g: Target, base: seq<Block>, disk: seq<Block>, d: seq<byte>)
    requires 0 < g.b
  {
    && |disk| == |base| && (d != [] ==> g.start + 1 + CeilDiv(|d|, g.b) <= |disk|)
    && forall i :: g.start < i < |disk| ==> disk[i] == Splice(base, g.start + 1, Blocks(d, g.b))[i]
  }

  /** Once the stream is flushed, the first block behind the partition holds a part of
      it exactly if dumps and list do not fit. */
  lemma BehindPartition(g: Target, base: seq<Block>, disk: seq<Block>, d: seq<byte>)
    requires 0 < g.b && 0 < g.part && Flushed(g, base, disk, d) && g.start + g.part < |disk|
    ensures var next := g.start + g.part;
            if g.part * g.b < g.b + |d| then g.part <= |Blocks(d, g.b)| && disk[next] == Blocks(d, g.b)[g.part - 1]
            else disk[next] == base[next]
  {
    BlocksFit(|d|, g.b, g.part);
  }

  /** There is a table whose dumps fit and whose list does not, though the disk has
      room for both. */
  lemma ListOverruns()
    ensures exists g: Target, dumps: seq<Dump>, disk: nat ::
              0 < g.b && 0 < g.part && g.start + g.part < disk && Streams(g, dumps, disk) && !Fits(g, dumps)
  {
    var g, dumps := Target(0, 2, 512, 20), [Dump([], Fill(500, 0))];
    assert Datas(dumps) == [Fill(500, 0)] && Datas(dumps)[..0] == [];
    assert Flatten(Datas(dumps)) == [] + Fill(500, 0);
    assert RoundUp(12, 8) == 16;
    assert Slot(1, 20) == 40;
    assert CeilDiv(540, 512) == 2;
    assert Streams(g, dumps, 3) && !Fits(g, dumps);
  }

  // ----- the states of a run -----

  /** While the first block stays as it was, there is no container. */
  lemma {:induction false} FirstBlockKept(disk: seq<Block>, history: seq<seq<Block>>, mark: nat, base: seq<Block>,
                                          hi: nat, g: Target, dumps: seq<Dump>)
    requires StatesWithin(disk, history, mark, base, g.start + 1, hi)
    requires g.start + g.part <= |base| && !MagicAt(base, g.start)
    ensures !MagicAt(disk, g.start) && SoundDisk(disk, g, dumps)
    ensures Always(SoundOn(g, dumps), history, mark)
  {
    SameFirst(base, disk, hi, g, dumps);
    if mark < |history| {
      var n := |history| - 1;
      SameFirst(base, history[n], hi, g, dumps);
      FirstBlockKept(disk, history[..n], mark, base, hi, g, dumps);
    }
  }

  lemma SameFirst(base: seq<Block>, disk: seq<Block>, hi: nat, g: Target, dumps: seq<Dump>)
    requires SameOutside(base, disk, g.start + 1, hi) && g.start + g.part <= |base| && !MagicAt(base, g.start)
    ensures !MagicAt(disk, g.start) && SoundDisk(disk, g, dumps)
  {}

  lemma WithinAdds(disk: seq<Block>, history: seq<seq<Block>>, mark: nat, base: seq<Block>, start: nat, hi: nat,
                   disk': seq<Block>, history': seq<seq<Block>>)
    requires StatesWithin(disk, history, mark, base, start + 1, hi) && start < hi
    requires SameOutside(disk, disk', start, start + 1)
    requires history' == history || history' == history + [disk']
    ensures StatesWithin(disk', history', mark, base, start, hi)
  {}

  /** What a run may leave, when the dumps and the list end at `end`: the header exactly
      if it `committed`, and then everything inside the partition; in every state no
      container or all of it; and nothing changed but the blocks that the dump needs. */
  ghost predicate Outcome(g: Target, base: seq<Block>, mark: nat, disk: seq<Block>, history: seq<seq<Block>>,
                          dumps: seq<Dump>, end: nat, committed: bool)
    requires 0 < g.b <= end
  {
    && (committed <==> MagicAt(disk, g.start))
    && (committed ==> end <= g.part * g.b)
    && SoundDisk(disk, g, dumps)
    && Always(SoundOn(g, dumps), history, mark)
    && StatesWithin(disk, history, mark, base, g.start, g.start + 1 + CeilDiv(end - g.b, g.b))
  }

  lemma NotCommitted(g: Target, base: seq<Block>, mark: nat, disk: seq<Block>, history: seq<seq<Block>>,
                     dumps: seq<Dump>, end: nat, stored: nat)
    requires 0 < g.b && g.b + stored <= end
    requires StatesWithin(disk, history, mark, base, g.start + 1, g.start + 1 + CeilDiv(stored, g.b))
    requires g.start + g.part <= |base| && !MagicAt(base, g.start)
    ensures Outcome(g, base, mark, disk, history, dumps, end, false)
  {
    var hi, hi' := g.start + 1 + CeilDiv(stored, g.b), g.start + 1 + CeilDiv(end - g.b, g.b);
    CeilDivMonotone(stored, end - g.b, g.b);
    StatesWiden(disk, history, mark, base, g.start + 1, hi, hi');
    FirstBlockKept(disk, history, mark, base, hi', g, dumps);
    WithinAdds(disk, history, mark, base, g.start, hi', disk, history);
  }

  lemma HeaderAdds(g: Target, base: seq<Block>, mark: nat, disk: seq<Block>, history: seq<seq<Block>>,
                   dumps: seq<Dump>, end: nat, disk': seq<Block>, history': seq<seq<Block>>, ok: bool)
    requires 0 < g.b <= end && Outcome(g, base, mark, disk, history, dumps, end, false)
    requires StatesWithin(disk, history, mark, base, g.start + 1, g.start + 1 + CeilDiv(end - g.b, g.b))
    requires history' == history || history' == history + [disk']
    requires if ok then
               && end <= g.part * g.b && SameOutside(disk, disk', g.start, g.start + 1)
               && MagicAt(disk', g.start) && SoundDisk(disk', g, dumps)
             else disk' == disk
    ensures Outcome(g, base, mark, disk', history', dumps, end, ok)
  {
    AlwaysAdds(SoundOn(g, dumps), history, mark, disk', history');
    WithinAdds(disk, history, mark, base, g.start, g.start + 1 + CeilDiv(end - g.b, g.b), disk', history');
  }

  /** The stream is on the disk and the size check has passed: the header commits. */
  lemma LastStep(g: Target, base: seq<Block>, mark: nat, disk: seq<Block>, history: seq<seq<Block>>,
                 stream: seq<byte>, list: seq<byte>, curr: nat, log: Log, end: nat, total: nat,
                 disk': seq<Block>, history': seq<seq<Block>>, ok: bool)
    requires Streamed(g, base, mark, disk, history, stream, list, curr, log, end)
    requires end <= g.part * g.b && total == end < 0x1_0000_0000
    requires history' == history || history' == history + [disk']
    requires disk' == if ok then Splice(disk, g.start, Blocks(HeaderBytes(Count(log), total, curr), g.b)) else disk
    ensures Outcome(g, base, mark, disk', history', DumpsOf(log), end, ok)
    ensures Flushed(g, base, disk', stream + list)
  {
    if ok {
      DiskCommits(g, base, stream, list, curr, log, total, disk, disk');
    }
    HeaderAdds(g, base, mark, disk, history, DumpsOf(log), end, disk', history', ok);
  }

  /** Before the header: the dumps and the list are on the disk. */
  ghost predicate Streamed(g: Target, base: seq<Block>, mark: nat, disk: seq<Block>, history: seq<seq<Block>>,
                           stream: seq<byte>, list: seq<byte>, curr: nat, log: Log, end: nat)
  {
    && HEADER_SIZE < g.b && g.start + g.part <= |base|
    && Gathered(g.b, g.nameMax, stream, list, curr, log)
    && |list| == Slot(Count(log), g.nameMax) && end == curr + |list|
    && disk == Splice(base, g.start + 1, Blocks(stream + list, g.b))
    && Flushed(g, base, disk, stream + list)
    && StatesWithin(disk, history, mark, base, g.start + 1, g.start + 1 + CeilDiv(end - g.b, g.b))
    && Outcome(g, base, mark, disk, history, DumpsOf(log), end, false)
  }

  class NvmemDump {
    const w: EmmcWriter
    const g: Target      // crashdump_offset in blocks, part_size in blocks, part_blksize
    var curr: nat        // dump2mem_curr_addr
    var nos: nat         // memdump_hdr.nos_memdumps
    var list: seq<byte>  // memdump_list
    ghost var log: Log
    ghost var base: seq<Block>
    ghost var mark: nat

    /** The partition, of at least one block, has been erased. */
    ghost predicate Erased()
      reads w, w.dev
    {
      && HEADER_SIZE < g.b == w.dev.blksz < 0x1_0000_0000 && 0 < g.part && g.start + g.part <= |w.dev.disk|
      && g.part * g.b < 0x1_0000_0000_0000_0000
      && !MagicAt(w.dev.disk, g.start)
    }

    ghost predicate Ground()
      reads `base
    {
      && HEADER_SIZE < g.b && 0 < g.part && g.start + g.part <= |base|
      && g.part * g.b < 0x1_0000_0000_0000_0000
      && !MagicAt(base, g.start)
    }

    /** Since the erase, everything went into the blocks after the first. */
    ghost predicate Open()
      reads `base, `mark, w, w.dev
    {
      && Ground() && g.b == w.dev.blksz
      && w.Confined() && w.SessionIs(g.start + 1, base, mark)
    }

    ghost predicate Valid()
      reads this, w, w.dev, w.temp
    {
      && Open() && w.Valid() && curr < 0x1_0000_0000_0000_0000
      && Gathered(g.b, g.nameMax, w.stream, list, curr, log)
      && nos == Count(log)
    }

    constructor (w: EmmcWriter, g: Target)
      ensures this.w == w && this.g == g
    {
      this.w, this.g := w, g;
    }

    method Begin(n: nat)
      requires Erased()
      modifies this, w
      ensures Valid() && fresh(w.temp) && DumpsOf(log) == [] && |list| == Slot(n, g.nameMax)
      ensures base == w.dev.disk && mark == |w.dev.history|
    {
      base, mark := w.dev.disk, |w.dev.history|;
      var ret := w.Init(g.start + 1);
      curr, nos, log := g.b, 0, Start;
      assert |Fill(Slot(n, g.nameMax), 0)| == Slot(n, g.nameMax);
      var garbage: seq<byte> :| |garbage| == Slot(n, g.nameMax);
      list := garbage;
      assert DumpsOf(log) == [];
    }

    /** One entry of the dump table. */
    method DumpOne(d: Dump) returns (ok: bool)
      requires Valid() && CName(d.name, g.nameMax) && Slot(nos + 1, g.nameMax) <= |list|
      requires g.b + |d.data| < 0x1_0000_0000
      modifies this, w, w.dev, w.temp
      ensures Open() && base == old(base) && mark == old(mark) && |list| == |old(list)| && w.temp == old(w.temp)
      ensures ok ==> Valid() && DumpsOf(log) == DumpsOf(old(log)) + [d] && curr == old(curr) + |d.data| <= g.part * g.b
      ensures w.stream == old(w.stream) || w.stream == old(w.stream) + d.data
      ensures w.dev.failures >= old(w.dev.failures)
      ensures !ok ==> w.dev.failures > old(w.dev.failures) || old(curr) + |d.data| > g.part * g.b || Beyond(w.stream)
    {
      ghost var e := Entry(d.name, curr, |d.data|);
      GatherStep(g.b, g.nameMax, w.stream, list, curr, log, e, d);
      list := PutEntry(list, nos, g.nameMax, Entry(d.name, curr, |d.data|));
      nos := nos + 1;
      if curr + |d.data| > g.part * g.b {
        return false;
      }
      ok := Append(d, e);
    }

    /** The disk has no room for so much of the stream. */
    ghost predicate Beyond(stream: seq<byte>)
      reads w, w.dev
    {
      0 < g.b && |w.dev.disk| < g.start + 1 + CeilDiv(|stream|, g.b)
    }

    /** The data of a dump whose record is in the list. */
    method Append(d: Dump, ghost e: Entry) returns (ok: bool)
      requires Open() && w.Valid() && curr + |d.data| < 0x1_0000_0000_0000_0000 && g.b + |d.data| < 0x1_0000_0000
      requires Gathered(g.b, g.nameMax, w.stream + d.data, list, curr + |d.data|, Then(log, e, d))
      requires nos == Count(log) + 1
      modifies this`curr, this`log, w, w.dev, w.temp
      ensures Open() && w.temp == old(w.temp) && w.stream == old(w.stream) + d.data
      ensures ok ==> Valid() && DumpsOf(log) == DumpsOf(old(log)) + [d] && curr == old(curr) + |d.data|
      ensures w.dev.failures >= old(w.dev.failures)
      ensures !ok ==> w.dev.failures > old(w.dev.failures) || Beyond(w.stream)
    {
      var ret := w.WriteData(d.data);
      if ret != 0 {
        return false;
      }
      curr := curr + |d.data|;
      log := Then(log, e, d);
      ok := true;
    }

    /** The list follows the dumps in the stream, which is then flushed. */
    method FinishStream() returns (ok: bool)
      requires Valid() && g.b + |list| < 0x1_0000_0000
      modifies w, w.dev, w.temp
      ensures Open() && w.stream == old(w.stream) + list
      ensures ok ==> w.dev.disk == Splice(base, g.start + 1, Blocks(w.stream, g.b))
      ensures ok ==> Flushed(g, base, w.dev.disk, w.stream)
      ensures w.dev.failures >= old(w.dev.failures)
      ensures !ok ==> w.dev.failures > old(w.dev.failures) || Beyond(w.stream)
    {
      var ret := w.WriteData(list);
      if ret != 0 {
        return false;
      }
      ret := w.Deinit();
      ok := ret == 0;
    }

    /** A session of its own for the header: it fits in one block. */
    method PutHeader(total: nat) returns (ok: bool)
      requires HEADER_SIZE < g.b == w.dev.blksz
      modifies w, w.dev
      ensures w.dev.disk == if ok then Splice(old(w.dev.disk), g.start, Blocks(HeaderBytes(nos, total, curr), g.b))
                            else old(w.dev.disk)
      ensures w.dev.history == old(w.dev.history) || w.dev.history == old(w.dev.history) + [w.dev.disk]
      ensures w.dev.failures >= old(w.dev.failures)
      ensures !ok ==> w.dev.failures > old(w.dev.failures) || |w.dev.disk| < g.start + 1
    {
      var ret := w.Init(g.start);
      var header := HeaderBytes(nos, total, curr);
      ret := w.WriteData(header);
      assert w.stream == header;
      ret := w.Deinit();
      ok := ret == 0;
    }

    /** The end of a run in which every dump was taken. The list is written before
        the size check; the header only after it. */
    method Finish(ghost end: nat, ghost dumps: seq<Dump>, ghost data: seq<byte>) returns (ok: bool, flushed: bool)
      requires Valid() && |list| == Slot(nos, g.nameMax) && g.b + |list| < 0x1_0000_0000
      requires end == curr + |list| < 0x1_0000_0000 && dumps == DumpsOf(log) && data == w.stream + list
      modifies w, w.dev, w.temp
      ensures Outcome(g, base, mark, w.dev.disk, w.dev.history, dumps, end, ok)
      ensures flushed ==> Flushed(g, base, w.dev.disk, data)
      ensures w.dev.failures >= old(w.dev.failures) && (ok ==> flushed)
      ensures !flushed ==> w.dev.failures > old(w.dev.failures) || |w.dev.disk| < g.start + 1 + CeilDiv(end - g.b, g.b)
      ensures flushed && !ok ==> w.dev.failures > old(w.dev.failures) || g.part * g.b < end
    {
      ghost var stream := w.stream;
      flushed := FinishStream();
      ok := false;
      NotCommitted(g, base, mark, w.dev.disk, w.dev.history, DumpsOf(log), end, |w.stream|);
      if flushed {
        ok := Commit(end, stream);
      }
    }

    /** The size check, and the header. */
    method Commit(ghost end: nat, ghost stream: seq<byte>) returns (ok: bool)
      requires g.b == w.dev.blksz && nos == Count(log) && end < 0x1_0000_0000
      requires Streamed(g, base, mark, w.dev.disk, w.dev.history, stream, list, curr, log, end)
      modifies w, w.dev
      ensures Outcome(g, base, mark, w.dev.disk, w.dev.history, DumpsOf(log), end, ok)
      ensures Flushed(g, base, w.dev.disk, stream + list)
      ensures w.dev.failures >= old(w.dev.failures)
      ensures !ok ==> w.dev.failures > old(w.dev.failures) || g.part * g.b < end || |w.dev.disk| < g.start + 1
    {
      ghost var disk, history := w.dev.disk, w.dev.history;
      var total := (curr + Slot(nos, g.nameMax)) % 0x1_0000_0000;
      if total > g.part * g.b {
        return false;
      }
      ok := PutHeader(total);
      LastStep(g, base, mark, disk, history, stream, list, curr, log, end, total, w.dev.disk, w.dev.history, ok);
    }
  }

  /** The loop over the dump table. */
  method TakeAll(m: NvmemDump, dumps: seq<Dump>) returns (ok: bool)
    requires m.Erased() && Storable(dumps, m.g.nameMax, m.g.b)
    modifies m, m.w, m.w.dev
    ensures m.base == old(m.w.dev.disk) && m.mark == |old(m.w.dev.history)| && m.Open()
    ensures ok ==> m.Valid() && fresh(m.w.temp) && DumpsOf(m.log) == dumps && |m.list| == Slot(m.nos, m.g.nameMax)
    ensures m.g.b + |m.w.stream| <= End(m.g.b, dumps)
    ensures m.w.dev.failures >= old(m.w.dev.failures)
    ensures ok ==> End(m.g.b, dumps) <= m.g.part * m.g.b
    ensures !ok ==>
      m.w.dev.failures > old(m.w.dev.failures) || End(m.g.b, dumps) > m.g.part * m.g.b || m.Beyond(m.w.stream)
  {
    m.Begin(|dumps|);
    ghost var base, mark, f := m.base, m.mark, m.w.dev.failures;
    FirstBlockFits(m.g);
    ok := true;
    var i := 0;
    while i < |dumps| && ok
      invariant 0 <= i <= |dumps| && m.base == base && m.mark == mark && m.Open()
      invariant ok ==> m.Valid() && DumpsOf(m.log) == dumps[..i] && m.curr <= m.g.part * m.g.b
      invariant ok ==> fresh(m.w.temp) && |m.list| == Slot(|dumps|, m.g.nameMax)
      invariant m.g.b + |m.w.stream| <= End(m.g.b, dumps) && m.w.dev.failures >= f
      invariant !ok ==> m.w.dev.failures > f || End(m.g.b, dumps) > m.g.part * m.g.b || m.Beyond(m.w.stream)
    {
      SlotGrows(i + 1, |dumps|, m.g.nameMax);
      EndNext(m.g.b, dumps, i);
      ok := m.DumpOne(dumps[i]);
      i := i + 1;
    }
    assert dumps[..|dumps|] == dumps;
  }

  lemma FirstBlockFits(g: Target)
    requires 0 < g.part
    ensures g.b <= g.part * g.b
  {
    MulAtLeast(g.part, g.b);
  }

  /** Dumps and list that fit have their blocks. */
  lemma FitsStreams(g: Target, dumps: seq<Dump>, disk: nat)
    requires 0 < g.b && g.start + g.part <= disk && Fits(g, dumps)
    ensures Streams(g, dumps, disk)
  {
    BlocksFit(End(g.b, dumps) - g.b + Slot(|dumps|, g.nameMax), g.b, g.part);
  }

  /** What decides the two results, when `stored` bytes had been given to the writer
      before the list and the device failed or not. */
  lemma Verdict(g: Target, dumps: seq<Dump>, disk: nat, end: nat, stored: nat, failed: bool, taken: bool, flushed: bool,
                ok: bool)
    requires 0 < g.b && 0 < g.part && g.start + g.part <= disk && end == End(g.b, dumps) + Slot(|dumps|, g.nameMax)
    requires taken ==> End(g.b, dumps) <= g.part * g.b
    requires !taken ==> !flushed && !ok && g.b + stored <= End(g.b, dumps)
    requires !taken ==> failed || g.part * g.b < End(g.b, dumps) || disk < g.start + 1 + CeilDiv(stored, g.b)
    requires flushed ==> taken && (g.b < end ==> g.start + 1 + CeilDiv(end - g.b, g.b) <= disk)
    requires taken && !flushed ==> !ok && (failed || disk < g.start + 1 + CeilDiv(end - g.b, g.b))
    requires flushed && !ok ==> failed || g.part * g.b < end
    requires ok ==> flushed && end <= g.part * g.b
    ensures flushed ==> Streams(g, dumps, disk)
    ensures failed || ((flushed <==> Streams(g, dumps, disk)) && (ok <==> Fits(g, dumps)))
  {
    if !taken {
      CeilDivMonotone(stored, end - g.b, g.b);
    }
    if Fits(g, dumps) {
      FitsStreams(g, dumps, disk);
    }
  }

  /** A whole run over a dump table, on an erased partition. If the header got
      written, the partition reads back as the table and all of it lies inside.
      Otherwise there is no header. Every state on the way, even one in which
      writing failed, is without a container or has all of it. `flushed` says that
      dumps and list are on the disk, inside the partition or not. Unless the device
      fails, the stream is flushed exactly if Streams holds, and the header is written
      exactly if dumps and list fit. */
  method Run(m: NvmemDump, dumps: seq<Dump>) returns (ok: bool, flushed: bool)
    requires m.Erased() && Storable(dumps, m.g.nameMax, m.g.b)
    modifies m, m.w, m.w.dev
    ensures Outcome(m.g, old(m.w.dev.disk), |old(m.w.dev.history)|, m.w.dev.disk, m.w.dev.history, dumps,
                    End(m.g.b, dumps) + Slot(|dumps|, m.g.nameMax), ok)
    ensures flushed ==> |m.list| == Slot(|dumps|, m.g.nameMax) && Streams(m.g, dumps, |m.w.dev.disk|)
    ensures flushed ==> Flushed(m.g, old(m.w.dev.disk), m.w.dev.disk, Flatten(Datas(dumps)) + m.list)
    ensures m.w.dev.failures > old(m.w.dev.failures)
            || ((flushed <==> Streams(m.g, dumps, |m.w.dev.disk|)) && (ok <==> Fits(m.g, dumps)))
  {
    ghost var end, f := End(m.g.b, dumps) + Slot(|dumps|, m.g.nameMax), m.w.dev.failures;
    flushed := false;
    ok := TakeAll(m, dumps);
    if ok {
      ghost var size, failed;
      ok, flushed, size, failed := ListAndHeader(m, dumps, end, f, Flatten(Datas(dumps)) + m.list);
    } else {
      NotCommitted(m.g, m.base, m.mark, m.w.dev.disk, m.w.dev.history, dumps, end, |m.w.stream|);
      Verdict(m.g, dumps, |m.w.dev.disk|, end, |m.w.stream|, m.w.dev.failures > f, false, false, false);
    }
  }

  /** The same for a run in which every dump was taken. */
  lemma TakenVerdict(g: Target, dumps: seq<Dump>, disk: nat, end: nat, room: nat, need: nat, failed: bool,
                     flushed: bool, ok: bool)
    requires 0 < g.b && 0 < g.part && g.start + g.part <= disk && end == End(g.b, dumps) + Slot(|dumps|, g.nameMax)
    requires room == g.part * g.b && need == g.start + 1 + CeilDiv(end - g.b, g.b) && End(g.b, dumps) <= room
    requires if flushed then ok || failed || room < end else !ok && (failed || disk < need)
    requires flushed ==> g.b < end ==> need <= disk
    requires ok ==> end <= room
    ensures flushed ==> Streams(g, dumps, disk)
    ensures failed || ((flushed <==> Streams(g, dumps, disk)) && (ok <==> Fits(g, dumps)))
  {
    Verdict(g, dumps, disk, end, 0, failed, true, flushed, ok);
  }

  /** The end of a run, from the list on. */
  method ListAndHeader(m: NvmemDump, dumps: seq<Dump>, ghost end: nat, ghost f: nat, ghost data: seq<byte>)
    returns (ok: bool, flushed: bool, ghost size: nat, ghost failed: bool)
    requires m.Valid() && Storable(dumps, m.g.nameMax, m.g.b)
    requires DumpsOf(m.log) == dumps && |m.list| == Slot(|dumps|, m.g.nameMax)
    requires End(m.g.b, dumps) <= m.g.part * m.g.b && m.w.dev.failures >= f
    requires end == End(m.g.b, dumps) + Slot(|dumps|, m.g.nameMax) && data == Flatten(Datas(dumps)) + m.list
    modifies m.w, m.w.dev, m.w.temp
    ensures Outcome(m.g, m.base, m.mark, m.w.dev.disk, m.w.dev.history, dumps, end, ok)
    ensures size == |m.w.dev.disk| && failed == (m.w.dev.failures > f)
    ensures flushed ==> Streams(m.g, dumps, size)
    ensures flushed ==> Flushed(m.g, m.base, m.w.dev.disk, data)
    ensures failed || ((flushed <==> Streams(m.g, dumps, size)) && (ok <==> Fits(m.g, dumps)))
  {
    SlotAtLeast(|dumps|, m.g.nameMax);
    ghost var room, need := m.g.part * m.g.b, m.g.start + 1 + CeilDiv(end - m.g.b, m.g.b);
    ok, flushed := m.Finish(end, dumps, data);
    size, failed := |m.w.dev.disk|, m.w.dev.failures > f;
    TakenVerdict(m.g, dumps, size, end, room, need, failed, flushed, ok);
  }
}
