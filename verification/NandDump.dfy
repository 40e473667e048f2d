/** The crash dump into a raw NAND partition (arch/arm/mach-ipq/cmd_crashdump.c): the
    dumps and the index list as one session from the block after the first good one on,
    and the header in a session of its own in that first block. A reader skips bad
    blocks. */
module NandDump {
  import opened Common
  import opened Bytes
  import opened FlashCells
  import opened NandFlash
  import opened NandPlan
  import opened NandCut
  import opened NandRoute
  import opened NandHeld
  import opened NandWriter
  import opened DumpContainer
  import opened DumpStream
  import opened Positions

  /** The partition: where it starts and how long it is, where its first good block
      starts, and the number of bytes in its good blocks; [lo, hi) are its erase blocks,
      `s` is the first good one. */
  datatype Site = Site(partStart: nat, partSize: nat, offset: nat, part: nat, nameMax: nat, lo: nat, hi: nat, s: nat)

  ghost predicate SiteOk(g: Site, c: Card) {
    && CardOk(c) && c.lo == g.lo && c.hi == g.hi && HEADER_SIZE < c.page <= c.size
    && At(g.partStart, g.lo, 0, c.size) && At(g.partStart + g.partSize, g.hi, 0, c.size) && At(g.offset, g.s, 0, c.size)
    && g.lo <= g.s == NextGood(c.bad, g.lo, g.hi) < g.hi && !c.bad[g.s]
    && g.part == GoodLen(c.bad, c.size, g.lo, g.hi) < 0x1_0000_0000 && c.size < 0x1_0000_0000
  }

  // ----- what a reader finds -----

  ghost function ImageOf(blocks: seq<Block>, c: Card, s: nat): seq<byte>
    requires |blocks| == |c.bad| && c.hi <= |c.bad|
  {
    GoodBytes(blocks, c.bad, s, c.hi)
  }

  lemma {:induction false} GoodFirst(blocks: seq<Block>, bad: seq<bool>, s: nat, k: nat)
    requires |bad| == |blocks| && s < k <= |blocks| && !bad[s]
    ensures GoodBytes(blocks, bad, s, k) == blocks[s] + GoodBytes(blocks, bad, s + 1, k)
  {
    if s + 1 < k {
      GoodFirst(blocks, bad, s, k - 1);
      var last := if bad[k - 1] then [] else blocks[k - 1];
      Assoc(blocks[s], GoodBytes(blocks, bad, s + 1, k - 1), last);
    }
  }

  lemma {:induction false} GoodLenFrom(bad: seq<bool>, size: nat, lo: nat, s: nat, k: nat)
    requires lo <= s <= k <= |bad| && forall i :: lo <= i < s ==> bad[i]
    ensures GoodLen(bad, size, lo, k) == GoodLen(bad, size, s, k)
  {
    if s < k {
      GoodLenFrom(bad, size, lo, s, k - 1);
    } else {
      GoodLenSkip(bad, size, lo, lo, s);
    }
  }

  /** What a reader finds is as long as the run was told. */
  lemma ImageLength(blocks: seq<Block>, c: Card, g: Site)
    requires SiteOk(g, c) && |blocks| == |c.bad| && Uniform(blocks, c.size)
    ensures |ImageOf(blocks, c, g.s)| == g.part
  {
    GoodLenIs(blocks, c.bad, c.size, g.s, c.hi);
    GoodLenFrom(c.bad, c.size, g.lo, g.s, g.hi);
  }

  /** A first block that is erased, or whose erase was cut short, shows no magic. */
  lemma NoMagic(blocks: seq<Block>, c: Card, s: nat)
    requires |blocks| == |c.bad| && s < c.hi <= |c.bad| && !c.bad[s] && HEADER_SIZE <= |blocks[s]|
    requires blocks[s][0] == 0xFF || Smeared(blocks[s])
    ensures !HasMagic(ImageOf(blocks, c, s))
  {
    GoodFirst(blocks, c.bad, s, c.hi);
    NoMagicIn(blocks[s], GoodBytes(blocks, c.bad, s + 1, c.hi), ImageOf(blocks, c, s));
  }

  lemma NoMagicIn(b: Block, rest: seq<byte>, image: seq<byte>)
    requires image == b + rest && HEADER_SIZE <= |b| && (b[0] == 0xFF || Smeared(b))
    ensures !HasMagic(image)
  {
    MagicStarts();
    assert image[0] == b[0] && image[1] == b[1];
  }

  /** What a reader gets starts with what it gets up to a position. */
  lemma {:induction false} ReadableStarts(blocks: seq<Block>, bad: seq<bool>, s: nat, k: nat, r: nat, hi: nat)
    requires |bad| == |blocks| && k <= hi <= |blocks| && (r > 0 ==> k < hi && r <= |blocks[k]|)
    ensures Readable(blocks, bad, s, k, r) <= GoodBytes(blocks, bad, s, hi) || k < s
    decreases hi - k
  {
    if k < hi && s <= k {
      assert GoodBytes(blocks, bad, s, k + 1) == GoodBytes(blocks, bad, s, k) + (if bad[k] then [] else blocks[k]);
      if k + 1 < hi {
        ReadableStarts(blocks, bad, s, k + 1, 0, hi);
      }
    }
  }

  /** No container, or all of it if nothing is lost; and nothing changed but in the good
      part of the partition. */
  ghost predicate StateOk(blocks: seq<Block>, c: Card, g: Site, lossless: bool, dumps: seq<Dump>) {
    && c.hi <= |c.bad| == |blocks| && SameOutside(c.base, blocks, g.s, c.hi)
    && (if lossless then Sound(ImageOf(blocks, c, g.s), PlaceOf(c.size, g.nameMax), dumps)
        else Parse(ImageOf(blocks, c, g.s), g.nameMax) == None)
  }

  ghost function OkBy(c: Card, g: Site, lossless: bool, dumps: seq<Dump>): seq<Block> -> bool {
    blocks => StateOk(blocks, c, g, lossless, dumps)
  }

  // ----- the states of a run -----

  /** The states of the chip, in order. */
  function Path(t: Trace): (p: seq<seq<Block>>)
    ensures |p| > 0
  {
    match t
    case First(_, blocks) => [blocks]
    case Next(before, _, blocks) => Path(before) + [blocks]
  }

  ghost predicate OkSince(t: Trace, t0: Trace, c: Card, g: Site, lossless: bool, dumps: seq<Dump>) {
    Always(OkBy(c, g, lossless, dumps), Path(t), |Path(t0)|)
  }

  lemma OkNext(t: Trace, t0: Trace, c: Card, g: Site, lossless: bool, dumps: seq<Dump>, t': Trace)
    requires OkSince(t, t0, c, g, lossless, dumps) && t'.Next? && t'.before == t
    requires StateOk(t'.blocks, c, g, lossless, dumps)
    ensures OkSince(t', t0, c, g, lossless, dumps)
  {
    AlwaysAdds(OkBy(c, g, lossless, dumps), Path(t), |Path(t0)|, t'.blocks, Path(t'));
  }

  /** A reader finds no header. */
  ghost predicate Quiet(blocks: seq<Block>, c: Card, g: Site) {
    c.hi <= |c.bad| == |blocks| && !HasMagic(ImageOf(blocks, c, g.s))
  }

  ghost function QuietBy(c: Card, g: Site): seq<Block> -> bool {
    blocks => Quiet(blocks, c, g)
  }

  ghost predicate QuietSince(t: Trace, t0: Trace, c: Card, g: Site) {
    Always(QuietBy(c, g), Path(t), |Path(t0)|)
  }

  /** Every state but the last shows no header. */
  ghost predicate QuietBefore(t: Trace, t0: Trace, c: Card, g: Site) {
    t.Next? ==> QuietSince(t.before, t0, c, g)
  }

  lemma QuietNext(t: Trace, t0: Trace, c: Card, g: Site, t': Trace)
    requires QuietSince(t, t0, c, g) && t'.Next? && t'.before == t && Quiet(t'.blocks, c, g)
    ensures QuietSince(t', t0, c, g)
  {
    AlwaysAdds(QuietBy(c, g), Path(t), |Path(t0)|, t'.blocks, Path(t'));
  }

  lemma QuietDrop(t: Trace, t0: Trace, c: Card, g: Site)
    requires QuietSince(t, t0, c, g)
    ensures QuietBefore(t, t0, c, g)
  {
    if t.Next? {
      assert Path(t)[..|Path(t)| - 1] == Path(t.before);
    }
  }

  /** While the first block is erased there is no container. */
  lemma BlankStateOk(blocks: seq<Block>, c: Card, g: Site, lossless: bool, dumps: seq<Dump>)
    requires SiteOk(g, c) && Erased(c) && SameOutside(c.base, blocks, From(c, g.s + 1), c.hi)
    ensures StateOk(blocks, c, g, lossless, dumps) && Quiet(blocks, c, g)
  {
    assert blocks[g.s] == c.base[g.s];
    NoMagic(blocks, c, g.s);
  }

  /** No state of the session of dumps and list shows a header. */
  lemma {:induction false} StreamStates(t: Trace, t0: Trace, c: Card, g: Site, lossless: bool, dumps: seq<Dump>,
                                        tidy: bool)
    requires SiteOk(g, c) && Erased(c) && Since(t, t0, c, g.s + 1, tidy)
    ensures OkSince(t, t0, c, g, lossless, dumps) && QuietSince(t, t0, c, g)
  {
    if t != t0 {
      StreamStates(t.before, t0, c, g, lossless, dumps, tidy);
      BlankStateOk(t.blocks, c, g, lossless, dumps);
      OkNext(t.before, t0, c, g, lossless, dumps, t);
      QuietNext(t.before, t0, c, g, t);
    }
  }

  // ----- the header session -----

  /** The first block with the header page in it. */
  function HeaderBlock(x: seq<byte>, size: nat): Block
    requires |x| <= size
  {
    x + Fill(size - |x|, 0xFF)
  }

  lemma ProgramHeader(b: Block, x: seq<byte>, size: nat)
    requires |x| <= size == |b| && Blank(b, 0, size)
    ensures ProgramBlock(b, 0, x) == HeaderBlock(x, size)
  {
    BlankTakesAll(b, 0, x);
  }

  /** An erase of the first block leaves no container. */
  lemma EraseStateOk(was: seq<Block>, now: seq<Block>, c: Card, g: Site, lossless: bool, dumps: seq<Dump>)
    requires SiteOk(g, c) && Uniform(now, c.size) && |was| == |now| == |c.bad|
    requires SameOutside(c.base, was, g.s, c.hi) && SameOutside(was, now, g.s, g.s + 1)
    requires now[g.s] == was[g.s] || Smeared(now[g.s])
    requires Blank(was[g.s], 0, |was[g.s]|)
    ensures StateOk(now, c, g, lossless, dumps) && Quiet(now, c, g)
  {
    SameOutsideTrans(c.base, was, now, g.s, c.hi, g.s, g.s + 1);
    NoMagic(now, c, g.s);
  }

  /** Pages are programmed whole or not at all. */
  lemma OnePage(d: seq<byte>, x: seq<byte>, page: nat)
    requires 0 < page == |x| && d <= x && |d| % page == 0
    ensures d == [] || d == x
  {
    assert |d| < page ==> |d| % page == |d|;
    assert |d| == page ==> d == x;
  }

  lemma ProgramStateOk(was: seq<Block>, now: seq<Block>, c: Card, g: Site, lossless: bool, dumps: seq<Dump>,
                       base: seq<Block>, d: seq<byte>, x: seq<byte>, done: seq<Block>)
    requires SiteOk(g, c) && Uniform(was, c.size) && |was| == |c.bad| && StateOk(was, c, g, lossless, dumps)
    requires |x| == c.page && (d == [] || d == x) && now == Program(was, c.bad, c.size, g.s, 0, d)
    requires Blank(was[g.s], 0, c.size) && SameOutside(base, was, g.s, g.s + 1)
    requires done == base[g.s := HeaderBlock(x, c.size)] && StateOk(done, c, g, lossless, dumps)
    ensures StateOk(now, c, g, lossless, dumps)
    ensures now == was || now == done
  {
    if d == x {
      HeaderProgrammed(was, now, c, g.s, base, x, done);
    }
  }

  lemma HeaderProgrammed(was: seq<Block>, now: seq<Block>, c: Card, s: nat, base: seq<Block>, x: seq<byte>,
                         done: seq<Block>)
    requires Uniform(was, c.size) && |was| == |c.bad| && s < |was| && !c.bad[s] && |x| <= c.size && 0 < c.size
    requires now == Program(was, c.bad, c.size, s, 0, x) && SameOutside(base, was, s, s + 1) && Blank(was[s], 0, c.size)
    requires done == base[s := HeaderBlock(x, c.size)]
    ensures now == done
  {
    ProgramInside(was, c.bad, c.size, s, 0, x);
    ProgramHeader(was[s], x, c.size);
  }

  /** The states of the header session, from `t1` on. The block written is the first;
      with the header in it there must be a container. */
  lemma HeaderStates(t1: Trace, t2: TrueTrace, t0: Trace, c: Card, g: Site, lossless: bool, dumps: seq<Dump>,
                     x: seq<byte>, done: seq<Block>)
    requires SiteOk(g, c) && Erased(c) && OkSince(t1, t0, c, g, lossless, dumps) && QuietSince(t1, t0, c, g)
    requires |x| == c.page && x != []
    requires ChipOf(t2) == Chip(c.bad, c.size, c.page) && |t1.blocks| == |c.bad| && Uniform(t1.blocks, c.size)
    requires SameOutside(c.base, t1.blocks, From(c, g.s + 1), c.hi)
    requires OneRound(t1, t2, g.s, x)
    requires done == t1.blocks[g.s := HeaderBlock(x, c.size)] && StateOk(done, c, g, lossless, dumps)
    ensures OkSince(t2, t0, c, g, lossless, dumps) && StateOk(t2.blocks, c, g, lossless, dumps)
    ensures Smeared(t2.blocks[g.s]) || t2.blocks == done
    ensures QuietBefore(t2, t0, c, g) && (Quiet(t2.blocks, c, g) || (t2 != t1 && t2.blocks == done))
  {
    QuietDrop(t1, t0, c, g);
    BlankStateOk(t1.blocks, c, g, lossless, dumps);
    assert t1.blocks[g.s] == c.base[g.s];
    if t2 == t1 {
    } else if t2.before == t1 {
      ErasedOnce(t1, t2, t0, c, g, lossless, dumps);
    } else {
      var t := t2.before;
      ErasedOnce(t1, t, t0, c, g, lossless, dumps);
      OnePage(t2.op.data, x, c.page);
      ProgramStateOk(t.blocks, t2.blocks, c, g, lossless, dumps, t1.blocks, t2.op.data, x, done);
      OkNext(t, t0, c, g, lossless, dumps, t2);
    }
  }

  lemma ErasedOnce(t1: Trace, t: TrueTrace, t0: Trace, c: Card, g: Site, lossless: bool, dumps: seq<Dump>)
    requires SiteOk(g, c) && OkSince(t1, t0, c, g, lossless, dumps) && QuietSince(t1, t0, c, g)
    requires ChipOf(t) == Chip(c.bad, c.size, c.page) && |t1.blocks| == |c.bad|
    requires SameOutside(c.base, t1.blocks, g.s, c.hi) && Blank(t1.blocks[g.s], 0, |t1.blocks[g.s]|)
    requires t.Next? && t.before == t1 && t.op.EraseOp? && t.op.k == g.s
    ensures Uniform(t.blocks, c.size) && |t.blocks| == |c.bad| && SameOutside(t1.blocks, t.blocks, g.s, g.s + 1)
    ensures OkSince(t, t0, c, g, lossless, dumps) && StateOk(t.blocks, c, g, lossless, dumps)
    ensures Smeared(t.blocks[g.s]) && QuietSince(t, t0, c, g) && Quiet(t.blocks, c, g)
  {
    assert Effect(t.op, t1.blocks, t.blocks, ChipOf(t));
    EraseStateOk(t1.blocks, t.blocks, c, g, lossless, dumps);
    OkNext(t1, t0, c, g, lossless, dumps, t);
    QuietNext(t1, t0, c, g, t);
  }

  ghost function OnlyBlock(base: seq<Block>, k: nat): seq<Block> -> bool {
    blocks => SameOutside(base, blocks, k, k + 1)
  }

  /** In every state of the header session only the first block has changed. */
  lemma HeaderTouchesFirst(t1: Trace, t2: TrueTrace, c: Card, s: nat, x: seq<byte>)
    requires OneRound(t1, t2, s, x) && ChipOf(t2) == Chip(c.bad, c.size, c.page)
    requires |t1.blocks| == |c.bad| && s < |c.bad| && 0 < c.size && |x| <= c.size
    ensures Always(OnlyBlock(t1.blocks, s), Path(t2), |Path(t1)|)
  {
    if t2 != t1 {
      if t2.before == t1 {
        EraseTouchesFirst(t1, t2, c, s);
      } else {
        var t: TrueTrace := t2.before;
        EraseTouchesFirst(t1, t, c, s);
        assert Effect(t2.op, t.blocks, t2.blocks, ChipOf(t2));
        ProgramTouches(t.blocks, c.bad, c.size, s, 0, t2.op.data);
        SameOutsideTrans(t1.blocks, t.blocks, t2.blocks, s, s + 1, s, s + 1);
        AlwaysAdds(OnlyBlock(t1.blocks, s), Path(t), |Path(t1)|, t2.blocks, Path(t2));
      }
    }
  }

  lemma EraseTouchesFirst(t1: Trace, t: TrueTrace, c: Card, s: nat)
    requires t.Next? && t.before == t1 && t.op.EraseOp? && t.op.k == s
    requires |t1.blocks| == |c.bad| && ChipOf(t) == Chip(c.bad, c.size, c.page)
    ensures SameOutside(t1.blocks, t.blocks, s, s + 1) && Uniform(t.blocks, c.size) && |t.blocks| == |c.bad|
    ensures Always(OnlyBlock(t1.blocks, s), Path(t), |Path(t1)|)
  {
    assert Effect(t.op, t1.blocks, t.blocks, ChipOf(t));
    AlwaysAdds(OnlyBlock(t1.blocks, s), Path(t1), |Path(t1)|, t.blocks, Path(t));
  }

  /** The stream is there and reads back if nothing was lost: the header makes it a
      container. */
  lemma HeaderSound(c: Card, g: Site, blocks: seq<Block>, now: seq<Block>, h: Block, stream: seq<byte>, list: seq<byte>,
                    curr: nat, log: Log, total: nat, q: Pos)
    requires SiteOk(g, c) && |blocks| == |c.bad| && Uniform(blocks, c.size)
    requires Gathered(c.size, g.nameMax, stream, list, curr, log) && |list| == Slot(Count(log), g.nameMax)
    requires total == curr + |list| < 0x1_0000_0000
    requires HoldsAt(h, 0, HeaderBytes(Count(log), total, curr)) && |h| == c.size && now == blocks[g.s := h]
    requires InSite(c, q) && g.s + 1 <= q.k
    requires Readable(blocks, c.bad, g.s + 1, q.k, q.r) == Join(Blocks(stream + list, c.page))
    ensures Sound(ImageOf(now, c, g.s), PlaceOf(c.size, g.nameMax), DumpsOf(log))
  {
    ImageStarts(c, g, blocks, now, h, stream + list, q);
    HeaderCommits(ImageOf(now, c, g.s), h, c.size, g.nameMax, stream, list, curr, log, total);
  }

  /** If something was lost the list ends in erased cells, and the header makes no
      container. */
  lemma HeaderSpoilt(c: Card, g: Site, blocks: seq<Block>, now: seq<Block>, h: Block, d: seq<byte>, nos: nat, lo: nat,
                     total: nat, q: Pos)
    requires SiteOk(g, c) && Erased(c) && |blocks| == |c.bad| && Uniform(blocks, c.size)
    requires total == lo + Slot(nos, g.nameMax) == c.size + |d| < 0x1_0000_0000 && 0 < nos
    requires HoldsAt(h, 0, HeaderBytes(nos, total, lo)) && |h| == c.size && now == blocks[g.s := h]
    requires InSite(c, q) && g.s + 1 <= q.k && Cells(c, g.s + 1, blocks, q)
    requires Held(c, g.s + 1, q) + c.page <= |Join(Blocks(d, c.page))|
    ensures Parse(ImageOf(now, c, g.s), g.nameMax) == None
  {
    var image, rest := ImageOf(now, c, g.s), GoodBytes(blocks, c.bad, g.s + 1, c.hi);
    ImageSplit(c, g, blocks, now, h, rest);
    LastErased(c, g.s + 1, blocks, q, d, rest);
    SpoiltReads(image, h, rest, g.nameMax, |d|, nos, lo, total);
  }

  /** The last byte of a stream that is short is an erased cell. */
  lemma LastErased(c: Card, s: nat, blocks: seq<Block>, q: Pos, d: seq<byte>, rest: seq<byte>)
    requires CardOk(c) && Erased(c) && |blocks| == |c.bad| && Uniform(blocks, c.size)
    requires c.lo <= s <= q.k && InSite(c, q) && Cells(c, s, blocks, q) && rest == GoodBytes(blocks, c.bad, s, c.hi)
    requires Held(c, s, q) + c.page <= |Join(Blocks(d, c.page))|
    ensures 0 < |d| && (|d| <= |rest| ==> rest[|d| - 1] == 0xFF)
  {
    JoinBlocks(d, c.page);
    if |d| <= |rest| {
      BlankBehind(c, blocks, s, q, c.hi, |d| - 1);
    }
  }

  lemma SpoiltReads(image: seq<byte>, h: Block, rest: seq<byte>, nameMax: nat, n: nat, nos: nat, lo: nat, total: nat)
    requires image == h + rest && |image| < 0x1_0000_0000 && HoldsAt(h, 0, HeaderBytes(nos, total, lo))
    requires total == lo + Slot(nos, nameMax) == |h| + n < 0x1_0000_0000 && 0 < nos && 0 < n
    requires n <= |rest| ==> rest[n - 1] == 0xFF
    ensures Parse(image, nameMax) == None
  {
    HeldSame(h, image, 0, |h|, 0, HeaderBytes(nos, total, lo));
    SlotAtLeast(nos, nameMax);
    HeaderReads(image, nos, total, lo);
    ErasedRecord(image, nameMax, nos, lo, total);
  }

  function HeaderPage(hdr: seq<byte>, page: nat): (x: seq<byte>)
    requires |hdr| <= page
    ensures |x| == page
  {
    hdr + Fill(page - |hdr|, 0xFF)
  }

  lemma HeaderHeld(h: Block, x: seq<byte>, hdr: seq<byte>, page: nat, size: nat)
    requires |hdr| <= page <= size && x == HeaderPage(hdr, page) && h == HeaderBlock(x, size)
    ensures HoldsAt(h, 0, hdr) && |h| == size
  {}

  lemma ImageStarts(c: Card, g: Site, blocks: seq<Block>, now: seq<Block>, h: Block, d: seq<byte>, q: Pos)
    requires SiteOk(g, c) && |blocks| == |c.bad| && Uniform(blocks, c.size) && |h| == c.size && now == blocks[g.s := h]
    requires InSite(c, q) && g.s + 1 <= q.k
    requires Readable(blocks, c.bad, g.s + 1, q.k, q.r) == Join(Blocks(d, c.page))
    ensures h + d <= ImageOf(now, c, g.s)
  {
    var rest, r := GoodBytes(blocks, c.bad, g.s + 1, c.hi), Readable(blocks, c.bad, g.s + 1, q.k, q.r);
    ImageSplit(c, g, blocks, now, h, rest);
    ReadableStarts(blocks, c.bad, g.s + 1, q.k, q.r, c.hi);
    JoinBlocks(d, c.page);
    StartsWith(h, d, r, rest, ImageOf(now, c, g.s));
  }

  lemma StartsWith<T>(h: seq<T>, d: seq<T>, r: seq<T>, rest: seq<T>, image: seq<T>)
    requires d <= r && r <= rest && image == h + rest
    ensures h + d <= image
  {}

  /** What a reader gets of the partition with the header block in it. */
  lemma ImageSplit(c: Card, g: Site, blocks: seq<Block>, now: seq<Block>, h: Block, rest: seq<byte>)
    requires SiteOk(g, c) && |blocks| == |c.bad| && Uniform(blocks, c.size) && |h| == c.size && now == blocks[g.s := h]
    requires rest == GoodBytes(blocks, c.bad, g.s + 1, c.hi)
    ensures ImageOf(now, c, g.s) == h + rest && |ImageOf(now, c, g.s)| == g.part
  {
    GoodFirst(now, c.bad, g.s, c.hi);
    GoodFrame(blocks, now, c.bad, g.s + 1, c.hi);
    ImageLength(now, c, g);
  }

  // ----- before a run -----

  /** The lengths of the chunks of a run: the dumps, then the list. */
  function RunLens(dumps: seq<Dump>, nameMax: nat): seq<nat> {
    Lens(Datas(dumps)) + [Slot(|dumps|, nameMax)]
  }

  function RunRoute(c: Card, g: Site, dumps: seq<Dump>): Route
    requires c.hi <= |c.bad| && 0 < c.page
  {
    RouteOf(c, g.s + 1, RunLens(dumps, g.nameMax))
  }

  /** Where the session of dumps and list ends, if it finds room, and whether it reads
      back. */
  datatype Fate = NoWay | Way(pos: Pos, lossless: bool)

  function FateOf(w: Result): Fate {
    match w
    case NoRoom(_) => NoWay
    case Put(pos, ok, _) => Way(pos, ok)
  }

  /** What the lengths and the bad blocks tell of it before the run: nothing is lost if
      every piece that runs over a block end lands in a good block. */
  function RunFate(c: Card, g: Site, dumps: seq<Dump>): Fate
    requires c.hi <= |c.bad| && 0 < c.page
  {
    match RunRoute(c, g, dumps)
    case Blocked => NoWay
    case Reached(pos, crossings) => Way(pos, AllGood(c.bad, crossings))
  }

  predicate Lossless(z: Fate) {
    z.Way? ==> z.lossless
  }

  /** What decides whether a run completes unless the chip fails: the dumps pass their
      checks, the stream finds room, the total passes its check, and the header finds
      room. */
  predicate Completes(c: Card, g: Site, dumps: seq<Dump>, z: Fate) {
    && (dumps != [] ==> End(c.size, dumps) <= g.part) && z.Way?
    && End(c.size, dumps) + Slot(|dumps|, g.nameMax) <= g.part
    && Room(c, Pos(g.s, 0, true), c.page)
  }

  // ----- what a run leaves -----

  /** Dumps and list are in the good blocks behind the first, and read back exactly if
      nothing was lost; otherwise a reader gets at least a page less. */
  ghost predicate Streamed(c: Card, g: Site, dumps: seq<Dump>, list: seq<byte>, blocks: seq<Block>, z: Fate)
    requires CardOk(c)
  {
    && |list| == Slot(|dumps|, g.nameMax) && z.Way? && InSite(c, z.pos)
    && Holds(c, g.s + 1, blocks, z.pos, z.lossless, Join(Blocks(Flatten(Datas(dumps)) + list, c.page)))
    && (z.lossless || Held(c, g.s + 1, z.pos) + c.page <= |Join(Blocks(Flatten(Datas(dumps)) + list, c.page))|)
  }

  /** The header is in the first block, and the stream behind it; a reader gets the table
      exactly if nothing was lost, and otherwise none. */
  ghost predicate Left(c: Card, g: Site, dumps: seq<Dump>, list: seq<byte>, blocks: seq<Block>, z: Fate)
    requires SiteOk(g, c) && |blocks| == |c.bad|
  {
    && Streamed(c, g, dumps, list, blocks[g.s := c.base[g.s]], z)
    && HoldsAt(blocks[g.s], 0, HeaderBytes(|dumps|, End(c.size, dumps) + |list|, End(c.size, dumps)))
    && HasMagic(ImageOf(blocks, c, g.s))
    && (Lossless(z) ==> Sound(ImageOf(blocks, c, g.s), PlaceOf(c.size, g.nameMax), dumps))
    && Parse(ImageOf(blocks, c, g.s), g.nameMax) == if Lossless(z) then Some(dumps) else None
  }

  /** After a run: every state on the way was in order, and none but the last showed a
      header. Unless the chip failed the run succeeded exactly if Completes holds. There
      is a header after every success, and wherever there is one, header and stream are
      there: so a run that failed for any other reason left none. */
  ghost predicate Outcome(c: Card, g: Site, dumps: seq<Dump>, list: seq<byte>, z: Fate, t0: Trace, t: Trace,
                          failed: bool, ok: bool)
    requires SiteOk(g, c)
  {
    && |t.blocks| == |c.bad| && SameOutside(c.base, t.blocks, g.s, c.hi)
    && OkSince(t, t0, c, g, Lossless(z), dumps) && QuietBefore(t, t0, c, g)
    && (!Quiet(t.blocks, c, g) ==> Completes(c, g, dumps, z) && Left(c, g, dumps, list, t.blocks, z))
    && (if ok then !Quiet(t.blocks, c, g) else failed || !Completes(c, g, dumps, z))
  }

  /** A run that never got to its header. */
  lemma NoHeader(c: Card, g: Site, dumps: seq<Dump>, list: seq<byte>, z: Fate, t0: Trace, t: Trace, tidy: bool,
                 failed: bool)
    requires SiteOk(g, c) && Erased(c) && Since(t, t0, c, g.s + 1, tidy) && |t.blocks| == |c.bad|
    requires SameOutside(c.base, t.blocks, From(c, g.s + 1), c.hi)
    requires failed || !Completes(c, g, dumps, z)
    ensures Outcome(c, g, dumps, list, z, t0, t, failed, false)
  {
    StreamStates(t, t0, c, g, Lossless(z), dumps, tidy);
    QuietDrop(t, t0, c, g);
    BlankStateOk(t.blocks, c, g, Lossless(z), dumps);
  }

  /** A session that does not read back is at least a page short. */
  ghost predicate Short(c: Card, s: nat, plan: Result, d: seq<byte>)
    requires CardOk(c)
  {
    plan.Put? ==> InSite(c, plan.pos) && (plan.ok || Held(c, s, plan.pos) + c.page <= |d|)
  }

  /** When the list follows the calls of `b`, the calls of the session are `calls`; they
      lead to `plan` and write `d`. */
  ghost predicate Planned(c: Card, s: nat, dumps: seq<Dump>, list: seq<byte>, b: Cut, calls: seq<seq<byte>>,
                          plan: Result, d: seq<byte>)
    requires CardOk(c) && |b.tail| < c.page
  {
    && calls == Flush(Add(b, list, c.page), c.page) && plan == WriteAll(c, s, calls) && d == Flatten(calls)
    && d == Join(Blocks(Flatten(Datas(dumps)) + list, c.page)) && Short(c, s, plan, d)
  }

  /** The session of dumps and list, when the dumps have been given to the writer. */
  lemma LastCalls(c: Card, s: nat, dumps: seq<Dump>, list: seq<byte>, b: Cut)
    returns (calls: seq<seq<byte>>, plan: Result, d: seq<byte>)
    requires CardOk(c) && Erased(c) && s <= c.hi && b == CutAll(Datas(dumps), c.page)
    ensures plan == Plan(c, s, Datas(dumps) + [list]) && Planned(c, s, dumps, list, b, calls, plan, d)
  {
    var chunks := Datas(dumps) + [list];
    calls := Flush(Add(b, list, c.page), c.page);
    plan, d := WriteAll(c, s, calls), Flatten(calls);
    CutSnoc(Datas(dumps), list, c.page);
    StreamIs(dumps, list, chunks, c.page);
    if plan.Put? {
      PlanLags(c, s, chunks, plan, d);
    }
  }

  lemma StreamIs(dumps: seq<Dump>, list: seq<byte>, chunks: seq<seq<byte>>, page: nat)
    requires chunks == Datas(dumps) + [list] && 0 < page
    ensures Flatten(Flush(CutAll(chunks, page), page)) == Join(Blocks(Flatten(Datas(dumps)) + list, page))
  {
    FlushJoins(chunks, page);
    FlattenSnoc(Datas(dumps), list);
  }

  lemma StreamTold(c: Card, g: Site, dumps: seq<Dump>, list: seq<byte>, w: Result, blocks: seq<Block>, d: seq<byte>)
    requires CardOk(c) && |list| == Slot(|dumps|, g.nameMax) && w.Put? && Short(c, g.s + 1, w, d)
    requires Holds(c, g.s + 1, blocks, w.pos, w.ok, d) && d == Join(Blocks(Flatten(Datas(dumps)) + list, c.page))
    ensures Streamed(c, g, dumps, list, blocks, FateOf(w))
  {}

  /** With the header page in the first block everything is there. */
  lemma HeaderLeft(c: Card, g: Site, dumps: seq<Dump>, list: seq<byte>, blocks: seq<Block>, done: seq<Block>,
                   x: seq<byte>, curr: nat, total: nat, z: Fate)
    requires SiteOk(g, c) && |blocks| == |c.bad| && Uniform(blocks, c.size) && blocks[g.s] == c.base[g.s]
    requires Streamed(c, g, dumps, list, blocks, z) && curr == End(c.size, dumps) && total == curr + |list|
    requires x == HeaderPage(HeaderBytes(|dumps|, total, curr), c.page) && done == blocks[g.s := HeaderBlock(x, c.size)]
    requires StateOk(done, c, g, Lossless(z), dumps)
    ensures Left(c, g, dumps, list, done, z) && !Quiet(done, c, g)
  {
    var hdr := HeaderBytes(|dumps|, total, curr);
    HeaderHeld(HeaderBlock(x, c.size), x, hdr, c.page, c.size);
    assert done[g.s := c.base[g.s]] == blocks;
    HeaderShows(c, g, done, hdr, |dumps|, total, curr);
  }

  lemma HeaderShows(c: Card, g: Site, done: seq<Block>, hdr: seq<byte>, nos: nat, total: nat, lo: nat)
    requires SiteOk(g, c) && |done| == |c.bad| && hdr == HeaderBytes(nos, total, lo) && HoldsAt(done[g.s], 0, hdr)
    ensures HasMagic(ImageOf(done, c, g.s))
  {
    GoodFirst(done, c.bad, g.s, c.hi);
    HeldParts(done[g.s], 0, MagicBytes(), Le(4, nos) + (Le(4, total) + (Le(8, lo) + Fill(8, 0))));
    var b, rest := done[g.s], GoodBytes(done, c.bad, g.s + 1, c.hi);
    forall i | 0 <= i < 8 ensures (b + rest)[i] == MagicBytes()[i] {
      assert b[0 + i] == MagicBytes()[i];
    }
  }

  /** A block that starts with the header page was not left by an erase. */
  lemma NotSmeared(b: Block, x: seq<byte>, nos: nat, total: nat, lo: nat, page: nat)
    requires HEADER_SIZE < page && x == HeaderPage(HeaderBytes(nos, total, lo), page) && x <= b
    ensures !Smeared(b)
  {
    MagicStarts();
    assert x[0] == MagicBytes()[0] && x[1] == MagicBytes()[1];
  }

  /** Before the header: dumps and list are there and passed their checks. */
  ghost predicate Closed(c: Card, g: Site, dumps: seq<Dump>, list: seq<byte>, curr: nat, log: Log, total: nat,
                         t0: Trace, t: Trace, tidy: bool, z: Fate) {
    && SiteOk(g, c) && Erased(c) && Since(t, t0, c, g.s + 1, tidy)
    && |t.blocks| == |c.bad| && Uniform(t.blocks, c.size) && SameOutside(c.base, t.blocks, From(c, g.s + 1), c.hi)
    && Streamed(c, g, dumps, list, t.blocks, z) && (dumps != [] ==> End(c.size, dumps) <= g.part)
    && Gathered(c.size, g.nameMax, Flatten(Datas(dumps)), list, curr, log) && DumpsOf(log) == dumps
    && total == curr + |list| < 0x1_0000_0000 && total <= g.part
  }

  /** The run to its end. */
  lemma HeaderOutcome(c: Card, g: Site, dumps: seq<Dump>, list: seq<byte>, curr: nat, log: Log, total: nat,
                      x: seq<byte>,
                      t0: Trace, t1: Trace, t2: TrueTrace, done: seq<Block>, tidy: bool, failed: bool, ok: bool,
                      z: Fate)
    requires Closed(c, g, dumps, list, curr, log, total, t0, t1, tidy, z)
    requires x == HeaderPage(HeaderBytes(|dumps|, total, curr), c.page)
    requires done == t1.blocks[g.s := HeaderBlock(x, c.size)]
    requires ChipOf(t2) == Chip(c.bad, c.size, c.page) && OneRound(t1, t2, g.s, x) && |t2.blocks| == |c.bad|
    requires if ok then x <= t2.blocks[g.s] else failed || !Room(c, Pos(g.s, 0, true), c.page)
    requires t2 == t1 || Room(c, Pos(g.s, 0, true), c.page)
    ensures Outcome(c, g, dumps, list, z, t0, t2, failed, ok)
  {
    var lossless := Lossless(z);
    StreamHeader(c, g, dumps, list, curr, log, total, x, t1.blocks, done, z, lossless);
    HeaderRun(c, g, dumps, x, t0, t1, t2, done, tidy, lossless);
    StreamEnds(c, g, dumps, list, t1.blocks, curr, log, total, z);
    HeaderLeft(c, g, dumps, list, t1.blocks, done, x, curr, total, z);
    if ok {
      NotSmeared(t2.blocks[g.s], x, |dumps|, total, curr, c.page);
    }
  }

  lemma HeaderRun(c: Card, g: Site, dumps: seq<Dump>, x: seq<byte>, t0: Trace, t1: Trace, t2: TrueTrace,
                  done: seq<Block>, tidy: bool, lossless: bool)
    requires SiteOk(g, c) && Erased(c) && Since(t1, t0, c, g.s + 1, tidy)
    requires |t1.blocks| == |c.bad| && Uniform(t1.blocks, c.size)
    requires SameOutside(c.base, t1.blocks, From(c, g.s + 1), c.hi)
    requires |x| == c.page && x != [] && done == t1.blocks[g.s := HeaderBlock(x, c.size)]
    requires ChipOf(t2) == Chip(c.bad, c.size, c.page) && OneRound(t1, t2, g.s, x)
    requires StateOk(done, c, g, lossless, dumps)
    ensures OkSince(t2, t0, c, g, lossless, dumps) && StateOk(t2.blocks, c, g, lossless, dumps)
    ensures Smeared(t2.blocks[g.s]) || t2.blocks == done
    ensures QuietBefore(t2, t0, c, g) && (Quiet(t2.blocks, c, g) || (t2 != t1 && t2.blocks == done))
  {
    StreamStates(t1, t0, c, g, lossless, dumps, tidy);
    HeaderStates(t1, t2, t0, c, g, lossless, dumps, x, done);
  }

  lemma NoWrap(n: nat, m: nat)
    requires m == n % 0x1_0000_0000
    ensures n < 0x1_0000_0000 ==> m == n
  {}

  lemma TooLong(c: Card, g: Site, dumps: seq<Dump>, list: seq<byte>, curr: nat, log: Log, total: nat, z: Fate)
    requires CardOk(c) && |list| == Slot(|dumps|, g.nameMax) && total == curr + |list| && g.part < total
    requires Gathered(c.size, g.nameMax, Flatten(Datas(dumps)), list, curr, log)
    ensures !Completes(c, g, dumps, z)
  {}

  lemma StreamEnds(c: Card, g: Site, dumps: seq<Dump>, list: seq<byte>, blocks: seq<Block>, curr: nat, log: Log,
                   total: nat, z: Fate)
    requires CardOk(c) && Streamed(c, g, dumps, list, blocks, z) && (dumps != [] ==> End(c.size, dumps) <= g.part)
    requires Gathered(c.size, g.nameMax, Flatten(Datas(dumps)), list, curr, log) && total == curr + |list| <= g.part
    ensures curr == End(c.size, dumps)
    ensures Completes(c, g, dumps, z) <==> Room(c, Pos(g.s, 0, true), c.page)
  {}

  lemma StreamHeader(c: Card, g: Site, dumps: seq<Dump>, list: seq<byte>, curr: nat, log: Log, total: nat, x: seq<byte>,
                     blocks: seq<Block>, done: seq<Block>, z: Fate, lossless: bool)
    requires SiteOk(g, c) && Erased(c) && |blocks| == |c.bad| && Uniform(blocks, c.size)
    requires SameOutside(c.base, blocks, From(c, g.s + 1), c.hi)
    requires Streamed(c, g, dumps, list, blocks, z) && lossless == Lossless(z)
    requires Gathered(c.size, g.nameMax, Flatten(Datas(dumps)), list, curr, log) && DumpsOf(log) == dumps
    requires total == curr + |list| < 0x1_0000_0000
    requires x == HeaderPage(HeaderBytes(|dumps|, total, curr), c.page) && done == blocks[g.s := HeaderBlock(x, c.size)]
    ensures StateOk(done, c, g, lossless, dumps)
  {
    var stream, h := Flatten(Datas(dumps)), HeaderBlock(x, c.size);
    StreamedMeans(c, g, dumps, list, blocks, z, lossless, Join(Blocks(Flatten(Datas(dumps)) + list, c.page)));
    HeaderHeld(h, x, HeaderBytes(Count(log), total, curr), c.page, c.size);
    if lossless {
      HeaderSound(c, g, blocks, done, h, stream, list, curr, log, total, z.pos);
    } else {
      SomeDump(c, dumps, list, g.nameMax, stream + list);
      HeaderSpoilt(c, g, blocks, done, h, stream + list, |dumps|, curr, total, z.pos);
    }
  }

  /** A stream of at least a page has a dump. */
  lemma SomeDump(c: Card, dumps: seq<Dump>, list: seq<byte>, nameMax: nat, d: seq<byte>)
    requires CardOk(c) && |list| == Slot(|dumps|, nameMax) && d == Flatten(Datas(dumps)) + list
    requires c.page <= |Join(Blocks(d, c.page))|
    ensures 0 < |dumps|
  {
    JoinBlocks(d, c.page);
  }

  lemma StreamedMeans(c: Card, g: Site, dumps: seq<Dump>, list: seq<byte>, blocks: seq<Block>, z: Fate, lossless: bool,
                      d: seq<byte>)
    requires CardOk(c) && |blocks| == |c.bad| && Streamed(c, g, dumps, list, blocks, z) && lossless == Lossless(z)
    requires d == Join(Blocks(Flatten(Datas(dumps)) + list, c.page))
    ensures |list| == Slot(|dumps|, g.nameMax) && z.Way? && InSite(c, z.pos) && g.s + 1 <= z.pos.k
    ensures z.pos.r > 0 ==> z.pos.r <= |blocks[z.pos.k]|
    ensures if lossless then Readable(blocks, c.bad, g.s + 1, z.pos.k, z.pos.r) == d
            else Cells(c, g.s + 1, blocks, z.pos) && Held(c, g.s + 1, z.pos) + c.page <= |d|
  {
    HoldsMeans(c, g.s + 1, blocks, z.pos, z.lossless, d);
  }

  lemma HoldsMeans(c: Card, s: nat, blocks: seq<Block>, p: Pos, ok: bool, d: seq<byte>)
    requires Holds(c, s, blocks, p, ok, d) && InSite(c, p)
    ensures |blocks| == |c.bad| && s <= p.k && (p.r > 0 ==> p.r <= |blocks[p.k]|) && Cells(c, s, blocks, p)
    ensures ok <==> Readable(blocks, c.bad, s, p.k, p.r) == d
  {}

  class NandDump {
    const w: NandWriter
    const g: Site
    var curr: nat        // dump2mem_curr_addr
    var nos: nat         // memdump_hdr.nos_memdumps
    var list: seq<byte>  // memdump_list
    ghost var c: Card    // the chip when the run began
    ghost var t0: Trace
    ghost var log: Log

    constructor (w: NandWriter, g: Site)
      ensures this.w == w && this.g == g
    {
      this.w, this.g := w, g;
    }

    ghost predicate Ready(c: Card)
      reads w, w.dev
    {
      && w.dev.Valid() && c == Card(w.dev.blocks, w.dev.bad, w.dev.erasesize, w.dev.writesize, g.lo, g.hi)
      && SiteOk(g, c)
    }

    /** The writer is in the stream session of this run. */
    ghost predicate Session()
      reads `c, `t0, w`c, w`start, w`t0
    {
      SiteOk(g, c) && w.c == c && w.start == g.s + 1 && w.t0 == t0
    }

    /** The dumps taken so far have been given to the writer. */
    ghost predicate Valid()
      reads this, w, w.dev, w.temp
    {
      && w.Valid() && curr < 0x1_0000_0000_0000_0000
      && w.cut == CutAll(Datas(DumpsOf(log)), w.c.page)
      && Gathered(w.c.size, g.nameMax, Flatten(Datas(DumpsOf(log))), list, curr, log)
      && nos == Count(log)
    }

    method Begin(n: nat, ghost c: Card)
      requires Ready(c)
      modifies this, w
      ensures Session() && Valid() && fresh(w.temp) && DumpsOf(log) == [] && |list| == Slot(n, g.nameMax)
      ensures this.c == c && t0 == w.dev.trace
    {
      this.c, t0 := c, w.dev.trace;
      Advance(g.offset, w.dev.erasesize, g.s, 0, w.dev.erasesize);
      var ret := w.Init(g.offset + w.dev.erasesize, g.partStart, g.partSize, g.s + 1, g.lo, g.hi);
      curr, nos, log := w.dev.erasesize, 0, Start;
      assert |Fill(Slot(n, g.nameMax), 0)| == Slot(n, g.nameMax);
      var garbage: seq<byte> :| |garbage| == Slot(n, g.nameMax);
      list := garbage;
      GatherStart(c.size, g.nameMax, list);
    }

    /** The calls made so far found no room. */
    ghost predicate Full()
      reads `c, w, w.dev
    {
      c.hi <= |c.bad| && WriteAll(c, g.s + 1, w.cut.calls).NoRoom?
    }

    /** One entry of the dump table. */
    method DumpOne(d: Dump, ghost ds: seq<Dump>) returns (ok: bool)
      requires Session() && Valid() && CName(d.name, g.nameMax) && Slot(nos + 1, g.nameMax) <= |list|
      requires c.page + |d.data| < 0x1_0000_0000 && ds == DumpsOf(log) + [d]
      modifies this`curr, this`nos, this`list, this`log
      modifies w`offset, w`p, w`firstErase, w`ok, w`tidy, w`dataLen, w`cut, w.dev, w.temp
      ensures if ok then Valid() else w.Open()
      ensures |list| == |old(list)| && w.dev.failures >= old(w.dev.failures)
      ensures ok ==> DumpsOf(log) == ds && curr <= g.part
      ensures !ok ==> w.dev.failures > old(w.dev.failures) || old(curr) + |d.data| > g.part
                      || (Full() && w.cut == CutAll(Datas(ds), c.page))
    {
      ghost var log', cut := Then(log, Entry(d.name, curr, |d.data|), d), Add(w.cut, d.data, c.page);
      Record(d, ds, log', w.cut, cut);
      ok := curr + |d.data| <= g.part;
      if ok {
        ok := Append(d, log', ds, cut);
      }
    }

    /** The record of a dump. */
    method Record(d: Dump, ghost ds: seq<Dump>, ghost log': Log, ghost b: Cut, ghost b': Cut)
      requires 0 < c.page && CName(d.name, g.nameMax) && Slot(nos + 1, g.nameMax) <= |list| && nos == Count(log)
      requires curr < 0x1_0000_0000_0000_0000 && |d.data| < 0x1_0000_0000_0000_0000
      requires Gathered(c.size, g.nameMax, Flatten(Datas(DumpsOf(log))), list, curr, log)
      requires log' == Then(log, Entry(d.name, curr, |d.data|), d) && ds == DumpsOf(log) + [d]
      requires b == CutAll(Datas(DumpsOf(log)), c.page) && b' == Add(b, d.data, c.page)
      modifies this`nos, this`list
      ensures |list| == |old(list)| && nos == Count(log') && DumpsOf(log') == ds && b' == CutAll(Datas(ds), c.page)
      ensures Gathered(c.size, g.nameMax, Flatten(Datas(ds)), list, curr + |d.data|, log')
    {
      ghost var e := Entry(d.name, curr, |d.data|);
      TakeStep(c, g.nameMax, list, curr, log, e, d, log', ds, b, b', PutEntry(list, nos, g.nameMax, e));
      list := PutEntry(list, nos, g.nameMax, Entry(d.name, curr, |d.data|));
      nos := nos + 1;
    }

    /** The data of a dump whose record is in the list; `log'` is then the log. */
    method Append(d: Dump, ghost log': Log, ghost ds: seq<Dump>, ghost cut: Cut) returns (ok: bool)
      requires Session() && w.Valid() && curr + |d.data| < 0x1_0000_0000_0000_0000 && c.page + |d.data| < 0x1_0000_0000
      requires cut == Add(w.cut, d.data, c.page) && cut == CutAll(Datas(ds), c.page)
      requires nos == Count(log') && DumpsOf(log') == ds
      requires Gathered(c.size, g.nameMax, Flatten(Datas(ds)), list, curr + |d.data|, log')
      modifies this`curr, this`log
      modifies w`offset, w`p, w`firstErase, w`ok, w`tidy, w`dataLen, w`cut, w.dev, w.temp
      ensures if ok then Valid() else w.Open()
      ensures w.dev.failures >= old(w.dev.failures)
      ensures ok ==> log == log' && curr == old(curr) + |d.data|
      ensures !ok ==> w.dev.failures > old(w.dev.failures) || (Full() && w.cut == cut)
    {
      ok := Give(d.data);
      if ok {
        curr := curr + |d.data|;
        log := log';
      }
    }

    /** A chunk for the writer. */
    method Give(data: seq<byte>) returns (ok: bool)
      requires Session() && w.Valid() && c.page + |data| < 0x1_0000_0000
      modifies w`offset, w`p, w`firstErase, w`ok, w`tidy, w`dataLen, w`cut, w.dev, w.temp
      ensures w.Open() && w.dev.failures >= old(w.dev.failures)
      ensures w.cut == Add(old(w.cut), data, c.page)
      ensures ok ==> w.Valid()
      ensures !ok ==> w.dev.failures > old(w.dev.failures) || Full()
    {
      var ret := w.WriteData(data);
      ok := ret == 0;
    }

    /** The list follows the dumps in the stream, which is then flushed; the plan of
        the session decides. */
    method FinishStream(ghost calls: seq<seq<byte>>, ghost plan: Result, ghost d: seq<byte>) returns (ok: bool)
      requires Session() && Valid() && c.page + |list| < 0x1_0000_0000
      requires calls == Flush(Add(w.cut, list, c.page), c.page)
      requires plan == WriteAll(c, g.s + 1, calls) && d == Flatten(calls)
      modifies w`offset, w`p, w`firstErase, w`ok, w`tidy, w`dataLen, w`cut, w`temp, w.dev, w.temp
      ensures w.Open() && w.dev.failures >= old(w.dev.failures)
      ensures ok ==> plan.Put? && Holds(c, g.s + 1, w.dev.blocks, plan.pos, plan.ok, d)
      ensures !ok ==> w.dev.failures > old(w.dev.failures) || plan.NoRoom?
    {
      WriteLater(c, g.s + 1, Add(w.cut, list, c.page).calls, calls);
      var ret := w.WriteData(list);
      if ret == 0 {
        ret := w.Deinit();
      }
      ok := ret == 0;
    }

    /** What the finished stream is for a reader. */
    method CloseStream(ghost dumps: seq<Dump>, ghost calls: seq<seq<byte>>, ghost plan: Result, ghost d: seq<byte>)
      returns (ok: bool)
      requires Session() && Valid() && c.page + |list| < 0x1_0000_0000 && |list| == Slot(|dumps|, g.nameMax)
      requires Planned(c, g.s + 1, dumps, list, w.cut, calls, plan, d)
      modifies w`offset, w`p, w`firstErase, w`ok, w`tidy, w`dataLen, w`cut, w`temp, w.dev, w.temp
      ensures w.Open() && w.dev.failures >= old(w.dev.failures)
      ensures ok ==> Streamed(c, g, dumps, list, w.dev.blocks, FateOf(plan))
      ensures !ok ==> w.dev.failures > old(w.dev.failures) || FateOf(plan) == NoWay
    {
      ok := FinishStream(calls, plan, d);
      if ok {
        StreamTold(c, g, dumps, list, plan, w.dev.blocks, d);
      }
    }

    /** The end of a run in which every dump was taken. The list is written before
        the size check; the header only after it. */
    method Finish(ghost dumps: seq<Dump>, ghost f: nat, ghost calls: seq<seq<byte>>, ghost plan: Result,
                  ghost d: seq<byte>)
      returns (ok: bool)
      requires Session() && Valid() && Erased(c) && c.size + |list| < 0x1_0000_0000
      requires curr + |list| < 0x1_0000_0000 && w.dev.failures >= f
      requires DumpsOf(log) == dumps && |list| == Slot(|dumps|, g.nameMax)
      requires (dumps != [] ==> End(c.size, dumps) <= g.part)
      requires Planned(c, g.s + 1, dumps, list, w.cut, calls, plan, d)
      modifies w, w.dev, w.temp
      ensures w.dev.Valid() && w.dev.failures >= old(w.dev.failures)
      ensures Outcome(c, g, dumps, list, FateOf(plan), t0, w.dev.trace, w.dev.failures > f, ok)
    {
      ok := CloseStream(dumps, calls, plan, d);
      if ok {
        ok := Commit(dumps, f, FateOf(plan));
      } else {
        NoHeader(c, g, dumps, list, FateOf(plan), t0, w.dev.trace, w.tidy, w.dev.failures > f);
      }
    }

    /** The size check, and the header. */
    method Commit(ghost dumps: seq<Dump>, ghost f: nat, ghost z: Fate) returns (ok: bool)
      requires Session() && w.Open() && Erased(c) && nos == |dumps|
      requires Streamed(c, g, dumps, list, w.dev.blocks, z) && w.dev.failures >= f
      requires Gathered(c.size, g.nameMax, Flatten(Datas(dumps)), list, curr, log) && DumpsOf(log) == dumps
      requires |list| == Slot(nos, g.nameMax) && curr + |list| < 0x1_0000_0000
      requires (dumps != [] ==> End(c.size, dumps) <= g.part)
      modifies w, w.dev
      ensures w.dev.Valid() && w.dev.failures >= old(w.dev.failures)
      ensures Outcome(c, g, dumps, list, z, t0, w.dev.trace, w.dev.failures > f, ok)
    {
      var total := (curr + Slot(nos, g.nameMax)) % 0x1_0000_0000;
      NoWrap(curr + Slot(nos, g.nameMax), total);
      if total > g.part {
        TooLong(c, g, dumps, list, curr, log, total, z);
        NoHeader(c, g, dumps, list, z, t0, w.dev.trace, w.tidy, w.dev.failures > f);
        return false;
      }
      ok := LastStep(total, dumps, f, z);
    }

    /** The header, when the size check has passed. */
    method LastStep(total: nat, ghost dumps: seq<Dump>, ghost f: nat, ghost z: Fate) returns (ok: bool)
      requires Session() && w.Config() && nos == |dumps| && w.dev.failures >= f
      requires Closed(c, g, dumps, list, curr, log, total, t0, w.dev.trace, w.tidy, z)
      modifies w, w.dev
      ensures w.dev.Valid() && w.dev.failures >= old(w.dev.failures)
      ensures Outcome(c, g, dumps, list, z, t0, w.dev.trace, w.dev.failures > f, ok)
    {
      ghost var t1, tidy := w.dev.trace, w.tidy;
      ghost var x := HeaderPage(HeaderBytes(nos, total, curr), c.page);
      ghost var done := t1.blocks[g.s := HeaderBlock(x, c.size)];
      ok := PutHeader(total, c, x);
      HeaderOutcome(c, g, dumps, list, curr, log, total, x, t0, t1, w.dev.trace, done, tidy, w.dev.failures > f, ok, z);
    }

    /** A session of its own for the header: it fits in one page. */
    method PutHeader(total: nat, ghost c1: Card, ghost x: seq<byte>) returns (ok: bool)
      requires w.dev.Valid() && SiteOk(g, c1)
      requires c1.bad == w.dev.bad && c1.size == w.dev.erasesize && c1.page == w.dev.writesize
      requires x == HeaderPage(HeaderBytes(nos, total, curr), c1.page)
      modifies w, w.dev
      ensures w.dev.Valid() && w.dev.failures >= old(w.dev.failures)
      ensures OneRound(old(w.dev.trace), w.dev.trace, g.s, x)
      ensures w.dev.trace == old(w.dev.trace) || Room(c1, Pos(g.s, 0, true), c1.page)
      ensures ok ==> x <= w.dev.blocks[g.s]
      ensures !ok ==> w.dev.failures > old(w.dev.failures) || !Room(c1, Pos(g.s, 0, true), c1.page)
    {
      var ret := w.Init(g.offset, g.partStart, g.partSize, g.s, g.lo, g.hi);
      ok := SendHeader(HeaderBytes(nos, total, curr), w.c, x);
    }

    /** The page with the header is written when the session ends. */
    method SendHeader(header: seq<byte>, ghost c1: Card, ghost x: seq<byte>) returns (ok: bool)
      requires w.Valid() && w.cut == Cut([], []) && w.c == c1 && w.start == g.s
      requires c1.lo <= g.s < c1.hi && !c1.bad[g.s] && 0 < |header| < c1.page <= c1.size < 0x1_0000_0000
      requires x == HeaderPage(header, c1.page)
      modifies w`offset, w`p, w`firstErase, w`ok, w`tidy, w`dataLen, w`cut, w`temp, w.dev, w.temp
      ensures w.dev.Valid() && w.dev.failures >= old(w.dev.failures)
      ensures OneRound(old(w.dev.trace), w.dev.trace, g.s, x)
      ensures w.dev.trace == old(w.dev.trace) || Room(c1, Pos(g.s, 0, true), c1.page)
      ensures ok ==> x <= w.dev.blocks[g.s]
      ensures !ok ==> w.dev.failures > old(w.dev.failures) || !Room(c1, Pos(g.s, 0, true), c1.page)
    {
      HeaderPlan(c1, g.s, header, x);
      var ret := w.WriteData(header);
      ret := w.Deinit();
      if ret == 0 {
        HeaderThere(c1, g.s, w.dev.blocks, x);
      }
      ok := ret == 0;
    }
  }

  lemma HeaderPlan(c: Card, s: nat, hdr: seq<byte>, x: seq<byte>)
    requires CardOk(c) && c.lo <= s < c.hi && !c.bad[s] && 0 < |hdr| < c.page <= c.size && x == HeaderPage(hdr, c.page)
    ensures Add(Cut([], []), hdr, c.page) == Cut([], hdr)
    ensures Flush(Cut([], hdr), c.page) == [x] && Flatten([x]) == x
    ensures var e := Pos(s, 0, true);
            WriteAll(c, s, [x]) == if Room(c, e, c.page) then Put(After(c, e, c.page), true, true) else NoRoom(true)
  {
    assert [] + hdr == hdr && [] + x == x;
    assert [x][..0] == [];
    assert x[..|x|] == x && x[|x|..] == [];
    var p, e := Pos(s, 0, false), Pos(s, 0, true);
    assert WriteAll(c, s, []) == Put(p, true, true);
    assert WriteAll(c, s, [x]) == Write(c, p, true, true, x);
    RoundPlan(c, p, true, true, x, e, WriteAll(c, s, [x]));
    if Room(c, e, c.page) {
      assert Taken(c, e, x);
      assert WriteFrom(c, e, true, true, x) == Write(c, After(c, e, c.page), true, true, []);
    }
  }

  lemma HeaderThere(c: Card, s: nat, blocks: seq<Block>, x: seq<byte>)
    requires CardOk(c) && s < c.hi && !c.bad[s] && 0 < |x| <= c.size && |x| == c.page
    requires Holds(c, s, blocks, After(c, Pos(s, 0, true), |x|), true, x)
    ensures x <= blocks[s]
  {}

  /** The next record, and the next chunk. */
  lemma TakeStep(c: Card, nameMax: nat, list: seq<byte>, curr: nat, log: Log, e: Entry, d: Dump, log': Log,
                 ds: seq<Dump>, b: Cut, b': Cut, list': seq<byte>)
    requires 0 < c.page && Gathered(c.size, nameMax, Flatten(Datas(DumpsOf(log))), list, curr, log)
    requires e == Entry(d.name, curr, |d.data|) && Legal(e, nameMax) && Slot(Count(log) + 1, nameMax) <= |list|
    requires log' == Then(log, e, d) && ds == DumpsOf(log) + [d] && list' == PutEntry(list, Count(log), nameMax, e)
    requires b == CutAll(Datas(DumpsOf(log)), c.page) && b' == Add(b, d.data, c.page)
    ensures DumpsOf(log') == ds && Count(log') == Count(log) + 1 && b' == CutAll(Datas(ds), c.page)
    ensures Gathered(c.size, nameMax, Flatten(Datas(ds)), list', curr + |d.data|, log')
  {
    GatherStep(c.size, nameMax, Flatten(Datas(DumpsOf(log))), list, curr, log, e, d);
    DatasNext(DumpsOf(log), d);
    CutSnoc(Datas(DumpsOf(log)), d.data, c.page);
  }

  // ----- a whole run -----

  /** If the first dumps find no room, no run over the table does. */
  lemma FullDecides(c: Card, g: Site, dumps: seq<Dump>, ds: seq<Dump>, b: Cut)
    requires CardOk(c) && ds <= dumps && b == CutAll(Datas(ds), c.page)
    ensures WriteAll(c, g.s + 1, b.calls).NoRoom? ==> RunFate(c, g, dumps) == NoWay
  {
    var list := Fill(Slot(|dumps|, g.nameMax), 0);
    var chunks := Datas(dumps) + [list];
    assert chunks[..|ds|] == Datas(ds);
    CutGrows(chunks, c.page, |ds|);
    WriteLater(c, g.s + 1, b.calls, Flush(CutAll(chunks, c.page), c.page));
    LensRun(dumps, g.nameMax, list, chunks);
    PlanTells(c, g, dumps, chunks, RunRoute(c, g, dumps), Plan(c, g.s + 1, chunks));
  }

  /** What the lengths tell of a run, whatever the list holds. */
  lemma PlanTells(c: Card, g: Site, dumps: seq<Dump>, chunks: seq<seq<byte>>, r: Route, w: Result)
    requires CardOk(c) && Lens(chunks) == RunLens(dumps, g.nameMax)
    requires r == RunRoute(c, g, dumps) && w == Plan(c, g.s + 1, chunks)
    ensures Matches(c, r, w)
  {
    RouteTells(c, g.s + 1, chunks, Lens(chunks), r, w);
  }

  lemma LensRun(dumps: seq<Dump>, nameMax: nat, list: seq<byte>, chunks: seq<seq<byte>>)
    requires |list| == Slot(|dumps|, nameMax) && chunks == Datas(dumps) + [list]
    ensures Lens(chunks) == RunLens(dumps, nameMax)
  {
    LensSnoc(Datas(dumps), list);
  }

  /** The next dump of the table, when the dumps `ds` have been taken. */
  lemma NextDump(dumps: seq<Dump>, ds: seq<Dump>, ds': seq<Dump>, b: nat, nameMax: nat)
    requires |ds| < |dumps| && ds <= dumps && ds' == ds + [dumps[|ds|]] && Storable(dumps, nameMax, b)
    ensures CName(dumps[|ds|].name, nameMax) && b + |dumps[|ds|].data| < 0x1_0000_0000
    ensures Slot(|ds'|, nameMax) <= Slot(|dumps|, nameMax)
    ensures End(b, ds) + |dumps[|ds|].data| <= End(b, dumps)
    ensures ds' <= dumps
  {
    SlotGrows(|ds'|, |dumps|, nameMax);
    EndNext(b, dumps, |ds|);
    assert dumps[..|ds|] == ds;
  }

  /** What ended the loop: the writer failed, or a dump did not pass its check, or the
      dumps `ds` found no room. */
  ghost predicate Stopped(m: NandDump, ds: seq<Dump>, f: nat, far: bool)
    reads m, m.w, m.w.dev
    requires 0 < m.c.page
  {
    m.w.dev.failures > f || far || (m.Full() && m.w.cut == CutAll(Datas(ds), m.c.page))
  }

  /** One pass of the loop over the dump table, when the dumps `ds` have been taken. */
  method TakeOne(m: NandDump, dumps: seq<Dump>, i: nat, ghost ds: seq<Dump>, ghost ds': seq<Dump>) returns (ok: bool)
    requires m.Session() && m.Valid() && DumpsOf(m.log) == ds
    requires ds <= dumps && |ds| == i < |dumps| && ds' == ds + [dumps[i]]
    requires |m.list| == Slot(|dumps|, m.g.nameMax) && Storable(dumps, m.g.nameMax, m.c.size)
    modifies m`curr, m`nos, m`list, m`log
    modifies m.w`offset, m.w`p, m.w`firstErase, m.w`ok, m.w`tidy, m.w`dataLen, m.w`cut, m.w.dev, m.w.temp
    ensures if ok then m.Valid() else m.w.Open()
    ensures m.w.dev.failures >= old(m.w.dev.failures) && |m.list| == |old(m.list)| && ds' <= dumps
    ensures if ok then DumpsOf(m.log) == ds' && m.curr <= m.g.part
            else Stopped(m, ds', old(m.w.dev.failures), End(m.c.size, dumps) > m.g.part)
  {
    NextDump(dumps, ds, ds', m.c.size, m.g.nameMax);
    ok := m.DumpOne(dumps[i], ds');
  }

  /** The loop over the dump table. */
  method TakeAll(m: NandDump, dumps: seq<Dump>) returns (ok: bool, ghost ds: seq<Dump>)
    requires m.Session() && m.Valid() && DumpsOf(m.log) == [] && |m.list| == Slot(|dumps|, m.g.nameMax)
    requires Storable(dumps, m.g.nameMax, m.c.size)
    modifies m`curr, m`nos, m`list, m`log
    modifies m.w`offset, m.w`p, m.w`firstErase, m.w`ok, m.w`tidy, m.w`dataLen, m.w`cut, m.w.dev, m.w.temp
    ensures if ok then m.Valid() else m.w.Open()
    ensures m.w.dev.failures >= old(m.w.dev.failures) && |m.list| == |old(m.list)| && ds <= dumps
    ensures if ok then DumpsOf(m.log) == dumps && (dumps != [] ==> End(m.c.size, dumps) <= m.g.part)
            else ds != [] && Stopped(m, ds, old(m.w.dev.failures), End(m.c.size, dumps) > m.g.part)
  {
    ghost var f, n, far := m.w.dev.failures, |m.list|, End(m.c.size, dumps) > m.g.part;
    ds := [];
    ok := true;
    var i := 0;
    while i < |dumps| && ok
      invariant 0 <= i <= |dumps| && m.w.dev.failures >= f && |m.list| == n && ds <= dumps && |ds| == i
      invariant if ok then m.Valid() else m.w.Open()
      invariant if ok then DumpsOf(m.log) == ds && (0 < i ==> m.curr <= m.g.part) else 0 < i && Stopped(m, ds, f, far)
    {
      ghost var ds' := ds + [dumps[i]];
      ok := TakeOne(m, dumps, i, ds, ds');
      i, ds := i + 1, ds';
    }
  }

  /** What is known of a run that ended early: the writer failed, a dump did not pass
      its check, or the dumps `ds` found no room, which are the calls of `b`. */
  ghost predicate Early(c: Card, g: Site, dumps: seq<Dump>, t0: Trace, t: Trace, tidy: bool, ds: seq<Dump>, b: Cut,
                        failed: bool)
    requires CardOk(c)
  {
    && Since(t, t0, c, g.s + 1, tidy) && |t.blocks| == |c.bad| && SameOutside(c.base, t.blocks, From(c, g.s + 1), c.hi)
    && ds <= dumps
    && (|| failed || (ds != [] && End(c.size, dumps) > g.part)
        || (b == CutAll(Datas(ds), c.page) && WriteAll(c, g.s + 1, b.calls).NoRoom?))
  }

  /** The run from the first dump on: either it ended early, or the outcome is that of
      the plan for dumps and list. */
  method Work(m: NandDump, dumps: seq<Dump>) returns (ok: bool, ghost taken: bool, ghost ds: seq<Dump>, ghost z: Fate)
    requires m.Session() && m.Valid() && DumpsOf(m.log) == [] && |m.list| == Slot(|dumps|, m.g.nameMax)
    requires Erased(m.c) && Storable(dumps, m.g.nameMax, m.c.size)
    modifies m`curr, m`nos, m`list, m`log, m.w, m.w.dev, m.w.temp
    ensures m.w.dev.Valid() && (taken ==> |m.list| == Slot(|dumps|, m.g.nameMax))
    ensures taken ==> z == FateOf(Plan(m.c, m.g.s + 1, Datas(dumps) + [m.list]))
    ensures taken ==>
      Outcome(m.c, m.g, dumps, m.list, z, m.t0, m.w.dev.trace, m.w.dev.failures > old(m.w.dev.failures), ok)
    ensures !taken ==>
      !ok && Early(m.c, m.g, dumps, m.t0, m.w.dev.trace, m.w.tidy, ds, m.w.cut,
                   m.w.dev.failures > old(m.w.dev.failures))
  {
    ghost var f := m.w.dev.failures;
    ok, ds := TakeAll(m, dumps);
    taken, z := ok, NoWay;
    if ok {
      ok, z := ListAndHeader(m, dumps, f);
    }
  }

  /** The end of a run, from the list on. */
  method ListAndHeader(m: NandDump, dumps: seq<Dump>, ghost f: nat) returns (ok: bool, ghost z: Fate)
    requires m.Session() && m.Valid() && DumpsOf(m.log) == dumps && |m.list| == Slot(|dumps|, m.g.nameMax)
    requires Erased(m.c) && Storable(dumps, m.g.nameMax, m.c.size) && (dumps != [] ==> End(m.c.size, dumps) <= m.g.part)
    requires m.w.dev.failures >= f
    modifies m.w, m.w.dev, m.w.temp
    ensures m.w.dev.Valid()
    ensures z == FateOf(Plan(m.c, m.g.s + 1, Datas(dumps) + [m.list]))
    ensures Outcome(m.c, m.g, dumps, m.list, z, m.t0, m.w.dev.trace, m.w.dev.failures > f, ok)
  {
    SlotAtLeast(|dumps|, m.g.nameMax);
    ghost var calls, plan, d := LastCalls(m.c, m.g.s + 1, dumps, m.list, m.w.cut);
    z := FateOf(plan);
    ok := m.Finish(dumps, f, calls, plan, d);
  }

  method BeginAndWork(m: NandDump, dumps: seq<Dump>, ghost c: Card)
    returns (ok: bool, ghost taken: bool, ghost ds: seq<Dump>, ghost z: Fate)
    requires m.Ready(c) && Erased(c) && Storable(dumps, m.g.nameMax, c.size)
    modifies m, m.w, m.w.dev
    ensures m.w.dev.Valid() && (taken ==> |m.list| == Slot(|dumps|, m.g.nameMax))
    ensures taken ==> z == FateOf(Plan(c, m.g.s + 1, Datas(dumps) + [m.list]))
    ensures taken ==>
      Outcome(c, m.g, dumps, m.list, z, old(m.w.dev.trace), m.w.dev.trace, m.w.dev.failures > old(m.w.dev.failures), ok)
    ensures !taken ==> !ok && Early(c, m.g, dumps, old(m.w.dev.trace), m.w.dev.trace, m.w.tidy, ds, m.w.cut,
                                    m.w.dev.failures > old(m.w.dev.failures))
  {
    m.Begin(|dumps|, c);
    ok, taken, ds, z := Work(m, dumps);
  }

  /** A whole run over a dump table, on an erased partition with any bad blocks. Unless
      the chip fails it succeeds exactly if Completes holds. After a success a reader gets
      the table exactly if Lossless holds, and otherwise finds a header and no container;
      if it holds every state on the way, even one in which writing failed, is without a
      container or has all of it. No state but the last shows a header, and a run that
      failed with a working chip left none. Nothing before the header block or behind the
      partition ever changes. */
  method Run(m: NandDump, dumps: seq<Dump>, ghost c: Card) returns (ok: bool)
    requires m.Ready(c) && Erased(c) && Storable(dumps, m.g.nameMax, c.size)
    modifies m, m.w, m.w.dev
    ensures m.w.dev.Valid()
    ensures Outcome(c, m.g, dumps, m.list, RunFate(c, m.g, dumps), old(m.w.dev.trace), m.w.dev.trace,
                    m.w.dev.failures > old(m.w.dev.failures), ok)
    ensures Told(c, m.g, dumps, m.w.dev.blocks, m.w.dev.failures > old(m.w.dev.failures), ok)
  {
    ghost var taken, ds, z;
    ok, taken, ds, z := BeginAndWork(m, dumps, c);
    ghost var failed := m.w.dev.failures > old(m.w.dev.failures);
    if taken {
      FateTold(c, m.g, dumps, m.list, z);
    } else {
      EndedEarly(c, m.g, dumps, m.list, old(m.w.dev.trace), m.w.dev.trace, m.w.tidy, ds, m.w.cut, failed);
    }
    OutcomeTells(c, m.g, dumps, m.list, old(m.w.dev.trace), m.w.dev.trace, failed, ok);
  }

  /** What a reader finds after a run. */
  ghost predicate Told(c: Card, g: Site, dumps: seq<Dump>, blocks: seq<Block>, failed: bool, ok: bool)
    requires SiteOk(g, c)
  {
    var z := RunFate(c, g, dumps);
    && |blocks| == |c.bad|
    && (ok ==> HasMagic(ImageOf(blocks, c, g.s)))
    && (ok ==> Parse(ImageOf(blocks, c, g.s), g.nameMax) == if Lossless(z) then Some(dumps) else None)
    && (!ok && !failed ==> !Completes(c, g, dumps, z) && !HasMagic(ImageOf(blocks, c, g.s)))
  }

  lemma OutcomeTells(c: Card, g: Site, dumps: seq<Dump>, list: seq<byte>, t0: Trace, t: Trace, failed: bool, ok: bool)
    requires SiteOk(g, c) && Outcome(c, g, dumps, list, RunFate(c, g, dumps), t0, t, failed, ok)
    ensures Told(c, g, dumps, t.blocks, failed, ok)
  {}

  lemma FateTold(c: Card, g: Site, dumps: seq<Dump>, list: seq<byte>, z: Fate)
    requires CardOk(c) && Erased(c) && |list| == Slot(|dumps|, g.nameMax)
    requires z == FateOf(Plan(c, g.s + 1, Datas(dumps) + [list]))
    ensures z == RunFate(c, g, dumps)
  {
    var chunks := Datas(dumps) + [list];
    LensRun(dumps, g.nameMax, list, chunks);
    PlanTells(c, g, dumps, chunks, RunRoute(c, g, dumps), Plan(c, g.s + 1, chunks));
  }

  /** A run that ended before the list. */
  lemma EndedEarly(c: Card, g: Site, dumps: seq<Dump>, list: seq<byte>, t0: Trace, t: Trace, tidy: bool, ds: seq<Dump>,
                   b: Cut, failed: bool)
    requires SiteOk(g, c) && Erased(c) && Early(c, g, dumps, t0, t, tidy, ds, b, failed)
    ensures Outcome(c, g, dumps, list, RunFate(c, g, dumps), t0, t, failed, false)
  {
    if b == CutAll(Datas(ds), c.page) {
      FullDecides(c, g, dumps, ds, b);
    }
    NoHeader(c, g, dumps, list, RunFate(c, g, dumps), t0, t, tidy, failed);
  }
}
