/** A flash dump to a NAND partition without bad blocks behind its first good one: when it
    succeeds, in numbers (arch/arm/mach-ipq/cmd_crashdump.c). */
module NandClean {
  import opened Common
  import opened Bytes
  import opened FlashCells
  import opened NandFlash
  import opened NandPlan
  import opened NandCut
  import opened NandRoute
  import opened NandHeld
  import opened DumpContainer
  import opened DumpStream
  import opened NandDump

  /** No block from `s` on is bad. */
  ghost predicate CleanFrom(c: Card, s: nat) {
    c.hi <= |c.bad| && forall i :: s <= i < c.hi ==> !c.bad[i]
  }

  /** The byte offset of a position. */
  function OffsetOf(c: Card, p: Pos): int {
    p.k * c.size + p.r
  }

  /** A position that the writer comes to on such a partition. */
  ghost predicate OnTrack(c: Card, p: Pos, off: nat) {
    && CleanFrom(c, p.k) && 0 < c.size && p.r < c.size && p.k <= c.hi
    && off == OffsetOf(c, p) && c.lo * c.size <= off
  }

  lemma AfterOffset(c: Card, e: Pos, m: nat, q: Pos)
    requires 0 < c.size && e.r < c.size && m <= c.size && q == After(c, e, m)
    ensures OffsetOf(c, q) == OffsetOf(c, e) + m && q.r < c.size && e.k <= q.k
  {
    assert (e.k + 1) * c.size == e.k * c.size + c.size;
  }

  lemma EnterOffset(c: Card, p: Pos, off: nat, e: Pos)
    requires OnTrack(c, p, off) && e == Enter(c, p)
    ensures OnTrack(c, e, off) && e.k == p.k
  {}

  /** One call finds room exactly if it ends before the last byte of the partition, and
      nothing that runs over a block end is lost. */
  lemma {:induction false} CleanCall(c: Card, p: Pos, cr: seq<nat>, n: nat, off: nat, end: nat, r: Route)
    requires CardOk(c) && OnTrack(c, p, off) && AllGood(c.bad, cr) && r == Travel(c, p, cr, n) && end == c.hi * c.size
    ensures r.Reached? <==> n == 0 || off + n < end
    ensures r.Reached? ==> OnTrack(c, r.pos, off + n) && AllGood(c.bad, r.crossings)
    decreases n
  {
    var e := Enter(c, p);
    EnterOffset(c, p, off, e);
    if n > 0 && off + n < end {
      var m := Len(c, e, n);
      var q, cr' := After(c, e, m), if e.r + m <= c.size then cr else cr + [e.k + 1];
      RoomIs(c, e, n, off, end);
      CleanPiece(c, e, cr, n, off, m, q, cr');
      CleanCall(c, q, cr', n - m, off + m, end, r);
    } else if n > 0 {
      RoomIs(c, e, n, off, end);
    }
  }

  lemma RoomIs(c: Card, e: Pos, n: nat, off: nat, end: nat)
    requires OnTrack(c, e, off) && end == c.hi * c.size
    ensures Room(c, e, n) <==> off + n < end
  {}

  lemma CleanPiece(c: Card, e: Pos, cr: seq<nat>, n: nat, off: nat, m: nat, q: Pos, cr': seq<nat>)
    requires CardOk(c) && OnTrack(c, e, off) && AllGood(c.bad, cr) && Room(c, e, n) && 0 < n && m == Len(c, e, n)
    requires q == After(c, e, m) && cr' == if e.r + m <= c.size then cr else cr + [e.k + 1]
    ensures OnTrack(c, q, off + m) && AllGood(c.bad, cr')
  {
    RoomInside(c, e, n);
    AfterOffset(c, e, m, q);
    AllGoodSnoc(c.bad, cr, e.k + 1);
  }

  /** A session finds room exactly if it ends before the last byte of the partition. */
  lemma {:induction false} CleanSession(c: Card, s: nat, calls: seq<seq<byte>>, off: nat, end: nat, r: Route)
    requires CardOk(c) && OnTrack(c, Pos(s, 0, false), off) && end == c.hi * c.size
    requires r == TravelAll(c, s, Lens(calls))
    ensures r.Reached? <==> Flatten(calls) == [] || off + |Flatten(calls)| < end
    ensures r.Reached? ==> OnTrack(c, r.pos, off + |Flatten(calls)|) && AllGood(c.bad, r.crossings)
  {
    if calls != [] {
      var n := |calls| - 1;
      assert Lens(calls)[..n] == Lens(calls[..n]) && Lens(calls)[n] == |calls[n]|;
      var before := TravelAll(c, s, Lens(calls[..n]));
      CleanSession(c, s, calls[..n], off, end, before);
      if before.Reached? {
        CleanCall(c, before.pos, before.crossings, |calls[n]|, off + |Flatten(calls[..n])|, end, r);
      }
    }
  }

  /** The calls of a session write the stream padded to whole pages. */
  lemma FlatLength(chunks: seq<seq<byte>>, page: nat, n: nat, flat: seq<byte>)
    requires 0 < page && n == |Flatten(chunks)| && flat == Flatten(Flush(CutAll(chunks, page), page))
    ensures |flat| == (n + page - 1) / page * page
  {
    FlushJoins(chunks, page);
    CeilDivMeaning(n, page);
    WholeLength(Blocks(Flatten(chunks), page), page);
  }

  lemma CleanPlan(c: Card, s: nat, chunks: seq<seq<byte>>, off: nat, end: nat, flat: seq<byte>, plan: Result)
    requires CardOk(c) && OnTrack(c, Pos(s, 0, false), off) && end == c.hi * c.size
    requires plan == Plan(c, s, chunks) && flat == Flatten(Flush(CutAll(chunks, c.page), c.page))
    ensures plan.Put? <==> flat == [] || off + |flat| < end
    ensures Erased(c) && plan.Put? ==> plan.ok
  {
    var calls := Flush(CutAll(chunks, c.page), c.page);
    SessionMatches(c, s, calls);
    CleanSession(c, s, calls, off, end, TravelAll(c, s, Lens(calls)));
  }

  lemma {:induction false} CleanLength(bad: seq<bool>, size: nat, s: nat, k: nat)
    requires s <= k <= |bad| && forall i :: s <= i < k ==> !bad[i]
    ensures GoodLen(bad, size, s, k) == k * size - s * size
  {
    if s < k {
      CleanLength(bad, size, s, k - 1);
      assert k * size == (k - 1) * size + size;
    }
  }

  /** Where the stream starts and the partition ends, in terms of its good bytes. */
  lemma CleanSite(c: Card, g: Site) returns (off: nat, end: nat)
    requires SiteOk(g, c) && CleanFrom(c, g.s)
    ensures end == c.hi * c.size && c.size <= g.part
    ensures g.part == end - off + c.size && OnTrack(c, Pos(g.s + 1, 0, false), off)
    ensures Room(c, Pos(g.s, 0, true), c.page) <==> c.page < g.part
  {
    var here := g.s * c.size;
    off, end := here + c.size, c.hi * c.size;
    GoodLenFrom(c.bad, c.size, g.lo, g.s, g.hi);
    CleanLength(c.bad, c.size, g.s, g.hi);
    Starts(c, g.s, here, off, end);
    RoomIs(c, Pos(g.s, 0, true), c.page, here, end);
  }

  lemma Starts(c: Card, s: nat, here: nat, off: nat, end: nat)
    requires 0 < c.size && c.lo <= s < c.hi && CleanFrom(c, s)
    requires here == s * c.size && off == here + c.size && end == c.hi * c.size
    ensures OnTrack(c, Pos(s, 0, true), here) && OnTrack(c, Pos(s + 1, 0, false), off) && off <= end
  {
    assert (s + 1) * c.size == s * c.size + c.size;
    MulMonotone(c.lo, s, c.size);
    MulMonotone(s + 1, c.hi, c.size);
  }

  /** On such a partition, if it is erased, a run loses nothing, and unless the chip fails
      it succeeds exactly if the header block and the stream, padded to whole pages, leave
      at least a byte of the partition free. */
  lemma CleanRun(c: Card, g: Site, dumps: seq<Dump>, total: nat, padded: nat)
    requires SiteOk(g, c) && Erased(c) && CleanFrom(c, g.s)
    requires total == |Flatten(Datas(dumps))| + |dumps| * EntrySize(g.nameMax)
    requires padded == (total + c.page - 1) / c.page * c.page
    ensures Lossless(RunFate(c, g, dumps))
    ensures dumps != [] ==> (Completes(c, g, dumps, RunFate(c, g, dumps)) <==> c.size + padded < g.part)
    ensures dumps == [] ==> (Completes(c, g, dumps, RunFate(c, g, dumps)) <==> c.page < g.part)
  {
    var off, end := CleanSite(c, g);
    var list := Fill(Slot(|dumps|, g.nameMax), 0);
    var chunks := Datas(dumps) + [list];
    var flat := Flatten(Flush(CutAll(chunks, c.page), c.page));
    SlotIsProduct(|dumps|, g.nameMax);
    RunLength(dumps, list, c.page, total, flat);
    CleanFate(c, g, dumps, list, chunks, off, end, flat);
    Sizes(c, g, dumps, total, padded);
    Numbers(c, g, dumps, RunFate(c, g, dumps), off, end, total, |flat|);
  }

  lemma CleanFate(c: Card, g: Site, dumps: seq<Dump>, list: seq<byte>, chunks: seq<seq<byte>>, off: nat, end: nat,
                  flat: seq<byte>)
    requires SiteOk(g, c) && Erased(c) && OnTrack(c, Pos(g.s + 1, 0, false), off) && end == c.hi * c.size
    requires |list| == Slot(|dumps|, g.nameMax) && chunks == Datas(dumps) + [list]
    requires flat == Flatten(Flush(CutAll(chunks, c.page), c.page))
    ensures RunFate(c, g, dumps).Way? <==> flat == [] || off + |flat| < end
    ensures Lossless(RunFate(c, g, dumps))
  {
    var plan := Plan(c, g.s + 1, chunks);
    CleanPlan(c, g.s + 1, chunks, off, end, flat, plan);
    FateTold(c, g, dumps, list, FateOf(plan));
  }

  /** The number of bytes that the calls of a run write. */
  lemma RunLength(dumps: seq<Dump>, list: seq<byte>, page: nat, total: nat, flat: seq<byte>)
    requires 0 < page && total == |Flatten(Datas(dumps))| + |list|
    requires flat == Flatten(Flush(CutAll(Datas(dumps) + [list], page), page))
    ensures |flat| == (total + page - 1) / page * page
  {
    FlattenSnoc(Datas(dumps), list);
    FlatLength(Datas(dumps) + [list], page, total, flat);
  }

  lemma Numbers(c: Card, g: Site, dumps: seq<Dump>, z: Fate, off: nat, end: nat, total: nat, padded: nat)
    requires CardOk(c) && (z.Way? <==> padded == 0 || off + padded < end) && g.part == end - off + c.size
    requires Room(c, Pos(g.s, 0, true), c.page) <==> c.page < g.part
    requires total <= padded && (padded == 0 <==> total == 0) && (dumps != [] <==> 0 < total)
    requires End(c.size, dumps) + Slot(|dumps|, g.nameMax) == c.size + total && c.page <= c.size <= g.part
    ensures dumps != [] ==> (Completes(c, g, dumps, z) <==> c.size + padded < g.part)
    ensures dumps == [] ==> (Completes(c, g, dumps, z) <==> c.page < g.part)
  {}

  lemma Sizes(c: Card, g: Site, dumps: seq<Dump>, total: nat, padded: nat)
    requires 0 < c.page && padded == (total + c.page - 1) / c.page * c.page
    requires total == |Flatten(Datas(dumps))| + Slot(|dumps|, g.nameMax)
    ensures total <= padded && (padded == 0 <==> total == 0) && (dumps != [] <==> 0 < total)
    ensures End(c.size, dumps) + Slot(|dumps|, g.nameMax) == c.size + total
  {
    CeilDivMeaning(total, c.page);
    SlotAtLeast(|dumps|, g.nameMax);
  }
}
