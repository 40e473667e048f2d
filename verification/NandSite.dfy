/** Where a flash dump goes on a NAND partition with bad blocks
    (arch/arm/mach-ipq/cmd_crashdump.c). */
module NandSite {
  import opened Bytes
  import opened NandFlash
  import opened NandPlan
  import opened NandRoute
  import opened NandHeld
  import opened NandWriter
  import opened NandDump
  import opened DumpContainer
  import opened DumpStream
  import opened Positions

  /** Finds the first good block of the partition and counts the bytes of the good ones:
      as many as a reader that skips bad blocks gets. */
  method Locate(dev: NandFlash, partStart: nat, partSize: nat, ghost lo: nat, ghost hi: nat)
    returns (ret: int, offset: nat, part: nat)
    requires dev.Valid() && lo <= hi <= |dev.blocks|
    requires At(partStart, lo, 0, dev.erasesize) && At(partStart + partSize, hi, 0, dev.erasesize)
    ensures part == |GoodBytes(dev.blocks, dev.bad, lo, hi)| && part <= partSize
    ensures ret == 0 <==> NextGood(dev.bad, lo, hi) < hi
    ensures ret == 0 ==> At(offset, NextGood(dev.bad, lo, hi), 0, dev.erasesize)
  {
    var off, found := partStart, false;
    offset, part := partStart, partSize;
    ghost var j := lo;
    Below(off, j, 0, partStart + partSize, hi, dev.erasesize);
    while off < partStart + partSize
      invariant lo <= j <= hi && At(off, j, 0, dev.erasesize) && (off < partStart + partSize <==> j < hi)
      invariant part == |GoodBytes(dev.blocks, dev.bad, lo, j)| + (partStart + partSize - off) <= partSize
      invariant if found then NextGood(dev.bad, lo, hi) < j && At(offset, NextGood(dev.bad, lo, hi), 0, dev.erasesize)
                else NextGood(dev.bad, lo, hi) == NextGood(dev.bad, j, hi)
    {
      Below(off, j, 0, partStart + partSize, hi, dev.erasesize);
      var isBad := dev.IsBad(off, j);
      if isBad {
        part := part - dev.erasesize;
      } else if !found {
        offset, found := off, true;
      }
      Advance(off, dev.erasesize, j, 0, dev.erasesize);
      off, j := off + dev.erasesize, j + 1;
      Below(off, j, 0, partStart + partSize, hi, dev.erasesize);
    }
    ret := if part == 0 then -1 else 0;
    SomeGood(dev.blocks, dev.bad, dev.erasesize, lo, hi);
  }

  /** A dump to an erased NAND partition from the beginning: the first good block and
      the bytes of the good ones are found, and the run is the one of that site. Without
      a good block nothing is written. */
  method DumpToPartition(dev: NandFlash, partStart: nat, partSize: nat, nameMax: nat, dumps: seq<Dump>,
                         ghost lo: nat, ghost hi: nat, ghost c: Card)
    returns (ok: bool, ghost g: Site, ghost list: seq<byte>)
    requires dev.Valid() && lo <= hi <= |dev.blocks| && HEADER_SIZE < dev.writesize <= dev.erasesize < 0x1_0000_0000
    requires At(partStart, lo, 0, dev.erasesize)
    requires At(partStart + partSize, hi, 0, dev.erasesize) && partSize < 0x1_0000_0000
    requires c == Card(dev.blocks, dev.bad, dev.erasesize, dev.writesize, lo, hi)
    requires Erased(c) && Storable(dumps, nameMax, dev.erasesize)
    modifies dev
    ensures dev.Valid()
    ensures NextGood(c.bad, lo, hi) == hi ==> !ok && dev.trace == old(dev.trace)
    ensures NextGood(c.bad, lo, hi) < hi ==>
      SiteOk(g, c) && g.partStart == partStart && g.partSize == partSize && g.nameMax == nameMax
    ensures NextGood(c.bad, lo, hi) < hi ==>
      Outcome(c, g, dumps, list, RunFate(c, g, dumps), old(dev.trace), dev.trace, dev.failures > old(dev.failures), ok)
  {
    var ret, offset, part := Locate(dev, partStart, partSize, lo, hi);
    var site := SiteOf(partStart, partSize, offset, part, nameMax, dev.erasesize);
    g, ok, list := site, false, [];
    if ret == 0 {
      SiteFound(c, partStart, partSize, offset, part, nameMax, site);
      ok, list := RunAt(dev, site, dumps, c);
    }
  }

  /** A run at a site. */
  method RunAt(dev: NandFlash, g: Site, dumps: seq<Dump>, ghost c: Card) returns (ok: bool, ghost list: seq<byte>)
    requires dev.Valid() && c == Card(dev.blocks, dev.bad, dev.erasesize, dev.writesize, g.lo, g.hi)
    requires SiteOk(g, c) && Erased(c) && Storable(dumps, g.nameMax, c.size)
    modifies dev
    ensures dev.Valid()
    ensures Outcome(c, g, dumps, list, RunFate(c, g, dumps), old(dev.trace), dev.trace,
                    dev.failures > old(dev.failures), ok)
  {
    var w := new NandWriter(dev);
    var m := new NandDump(w, g);
    ok := Run(m, dumps, c);
    list := m.list;
  }

  function SiteOf(partStart: nat, partSize: nat, offset: nat, part: nat, nameMax: nat, size: nat): Site
    requires 0 < size
  {
    Site(partStart, partSize, offset, part, nameMax, partStart / size, (partStart + partSize) / size, offset / size)
  }

  lemma SiteFound(c: Card, partStart: nat, partSize: nat, offset: nat, part: nat, nameMax: nat, g: Site)
    requires |c.base| == |c.bad| && Uniform(c.base, c.size) && 0 < c.page && c.size % c.page == 0
    requires HEADER_SIZE < c.page <= c.size < 0x1_0000_0000 && c.hi <= |c.bad|
    requires At(partStart, c.lo, 0, c.size) && At(partStart + partSize, c.hi, 0, c.size)
    requires NextGood(c.bad, c.lo, c.hi) < c.hi && At(offset, NextGood(c.bad, c.lo, c.hi), 0, c.size)
    requires part == |GoodBytes(c.base, c.bad, c.lo, c.hi)| < 0x1_0000_0000
    requires g == SiteOf(partStart, partSize, offset, part, nameMax, c.size)
    ensures SiteOk(g, c) && g.lo == c.lo && g.hi == c.hi
    ensures g.partStart == partStart && g.partSize == partSize && g.nameMax == nameMax
  {
    AtMod(partStart, c.lo, 0, c.size);
    AtMod(partStart + partSize, c.hi, 0, c.size);
    AtMod(offset, NextGood(c.bad, c.lo, c.hi), 0, c.size);
    MultipleMeaning(c.size, c.page);
    GoodLenIs(c.base, c.bad, c.size, c.lo, c.hi);
  }

  lemma {:induction false} SomeGood(blocks: seq<Block>, bad: seq<bool>, size: nat, lo: nat, hi: nat)
    requires |bad| == |blocks| && Uniform(blocks, size) && 0 < size && lo <= hi <= |blocks|
    ensures |GoodBytes(blocks, bad, lo, hi)| > 0 <==> NextGood(bad, lo, hi) < hi
  {
    if lo < hi {
      SomeGood(blocks, bad, size, lo, hi - 1);
      NextGoodLast(bad, lo, hi);
    }
  }

  lemma {:induction false} NextGoodLast(bad: seq<bool>, lo: nat, hi: nat)
    requires lo < hi <= |bad|
    ensures NextGood(bad, lo, hi) < hi <==> NextGood(bad, lo, hi - 1) < hi - 1 || !bad[hi - 1]
    decreases hi - lo
  {
    if bad[lo] && lo + 1 < hi {
      NextGoodLast(bad, lo + 1, hi);
    }
  }
}
