/** A flash dump that loses data without noticing: two dumps of 100 KiB on an erased
    partition of 128 KiB blocks and 2 KiB pages with one bad block
    (arch/arm/mach-ipq/cmd_crashdump.c). */
module NandLoss {
  import opened Common
  import opened Bytes
  import opened FlashCells
  import opened NandFlash
  import opened NandPlan
  import opened NandCut
  import opened NandRoute
  import opened NandHeld
  import opened DumpContainer
  import opened DumpStream
  import opened NandDump

  const KB100: nat := 102400
  const BULK: nat := 100352    // 100 KiB less a page

  /** The third of five blocks is bad. */
  ghost predicate Chip5(c: Card, g: Site) {
    && c.size == 131072 && c.page == 2048 && c.lo == 0 && c.hi == 5
    && c.bad == [false, false, true, false, false]
    && g.s == 0 && g.nameMax == 20 && g.part == 524288
  }

  /** There is such a chip. */
  lemma SomeChip()
    ensures exists c: Card, g: Site :: SiteOk(g, c) && Erased(c) && Chip5(c, g)
  {
    var b := Fill(131072, 0xFF);
    var bad := [false, false, true, false, false];
    var c, g := Card([b, b, b, b, b], bad, 131072, 2048, 0, 5), Site(0, 655360, 0, 524288, 20, 0, 5, 0);
    MultipleMeaning(131072, 2048);
    assert GoodLen(bad, 131072, 0, 3) == 262144;
    assert GoodLen(bad, 131072, 0, 5) == 524288;
    assert SiteOk(g, c) && Erased(c) && Chip5(c, g);
  }

  ghost predicate TwoDumps(dumps: seq<Dump>) {
    |dumps| == 2 && |dumps[0].data| == KB100 && |dumps[1].data| == KB100
  }

  // ----- the calls -----

  /** A chunk of 100 KiB at a page boundary: a page, and the other pages in one call. */
  lemma ChunkCalls(b: Cut, x: seq<byte>)
    requires b.tail == [] && |x| == KB100
    ensures Lens(Add(b, x, 2048).calls) == Lens(b.calls) + [2048, BULK] && Add(b, x, 2048).tail == []
  {
    var first, rest := x[..2048], x[2048..];
    WholeMeaning(BULK, 2048);
    LensSnoc(b.calls, [] + first);
    LensSnoc(b.calls + [[] + first], rest[..BULK]);
    assert Lens(b.calls) + [2048] + [BULK] == Lens(b.calls) + [2048, BULK];
  }

  lemma TableCalls(x: seq<byte>, y: seq<byte>, list: seq<byte>)
    requires |x| == |y| == KB100 && |list| == 80
    ensures Lens(Flush(CutAll([x, y, list], 2048), 2048)) == [2048, BULK, 2048, BULK, 2048]
  {
    var b0 := Cut([], []);
    assert [x, y, list] == [] + [x] + [y] + [list];
    CutSnoc([], x, 2048);
    CutSnoc([] + [x], y, 2048);
    CutSnoc([] + [x] + [y], list, 2048);
    ChunkCalls(b0, x);
    var b1 := Add(b0, x, 2048);
    ChunkCalls(b1, y);
    var b2 := Add(b1, y, 2048);
    assert Lens(b0.calls) == [];
    assert Lens(b2.calls) == [2048, BULK, 2048, BULK];
    assert Add(b2, list, 2048) == Cut(b2.calls, [] + list);
    LensSnoc(b2.calls, [] + list + Fill(2048 - 80, 0xFF));
  }

  // ----- the way -----

  lemma TravelSnoc(c: Card, s: nat, lens: seq<nat>, n: nat)
    requires c.hi <= |c.bad|
    ensures TravelAll(c, s, lens + [n]) ==
            match TravelAll(c, s, lens)
            case Blocked => Blocked
            case Reached(p, cr) => Travel(c, p, cr, n)
  {
    assert (lens + [n])[..|lens|] == lens;
  }

  /** One piece of at most one block. */
  lemma OnePiece(c: Card, g: Site, p: Pos, cr: seq<nat>, n: nat, e: Pos)
    requires Chip5(c, g) && 0 < n <= c.size && e == Enter(c, p) && e.k < 5 && e.r < c.size
    requires 131072 * e.k + e.r + n < 655360
    ensures Travel(c, p, cr, n) == Reached(After(c, e, n), if e.r + n <= c.size then cr else cr + [e.k + 1])
  {
    assert Room(c, e, n) by {
      assert e.k * c.size == 131072 * e.k && c.hi * c.size == 655360;
    }
    assert Travel(c, After(c, e, n), if e.r + n <= c.size then cr else cr + [e.k + 1], 0)
           == Reached(After(c, e, n), if e.r + n <= c.size then cr else cr + [e.k + 1]);
  }

  /** The second bulk write runs over the end of block 1, into the bad block 2. */
  lemma TableRoute(c: Card, g: Site)
    requires Chip5(c, g)
    ensures TravelAll(c, 1, [2048, BULK, 2048, BULK, 2048]) == Reached(Pos(3, 2048, true), [2])
  {
    var lens: seq<nat> := [];
    assert [2048, BULK, 2048, BULK, 2048] == [] + [2048] + [BULK] + [2048] + [BULK] + [2048];
    TravelSnoc(c, 1, [], 2048);
    TravelSnoc(c, 1, [] + [2048], BULK);
    TravelSnoc(c, 1, [] + [2048] + [BULK], 2048);
    TravelSnoc(c, 1, [] + [2048] + [BULK] + [2048], BULK);
    TravelSnoc(c, 1, [] + [2048] + [BULK] + [2048] + [BULK], 2048);
    OnePiece(c, g, Pos(1, 0, false), [], 2048, Pos(1, 0, true));
    OnePiece(c, g, Pos(1, 2048, true), [], BULK, Pos(1, 2048, true));
    OnePiece(c, g, Pos(1, 102400, true), [], 2048, Pos(1, 102400, true));
    OnePiece(c, g, Pos(1, 104448, true), [], BULK, Pos(1, 104448, true));
    assert NextGood(c.bad, 2, 5) == 3;
    OnePiece(c, g, Pos(2, 73728, false), [2], 2048, Pos(3, 0, true));
  }

  lemma SlotTwo()
    ensures Slot(1, 20) == 40 && Slot(2, 20) == 80 && Width(20) == 24
  {
    assert RoundUp(12, 8) == 16;
    assert RoundUp(20, 8) == 24;
    assert Slot(2, 20) == Slot(1, 20) + EntrySize(20);
  }

  lemma TableEnd(dumps: seq<Dump>)
    requires TwoDumps(dumps)
    ensures End(131072, dumps) == 335872 && Datas(dumps) == [dumps[0].data, dumps[1].data]
  {
    var x, y := dumps[0].data, dumps[1].data;
    assert Datas(dumps) == [] + [x] + [y];
    FlattenSnoc([], x);
    FlattenSnoc([] + [x], y);
  }

  /** The size checks pass, and what is lost is known before the run. */
  lemma TableFate(c: Card, g: Site, dumps: seq<Dump>)
    requires Chip5(c, g) && TwoDumps(dumps)
    ensures RunFate(c, g, dumps) == Way(Pos(3, 2048, true), false)
    ensures Completes(c, g, dumps, RunFate(c, g, dumps))
  {
    SlotTwo();
    TableEnd(dumps);
    var list := Fill(80, 0);
    var chunks := [dumps[0].data, dumps[1].data, list];
    assert chunks == Datas(dumps) + [list];
    LensRun(dumps, 20, list, chunks);
    CallLensOf(chunks, 2048);
    TableCalls(dumps[0].data, dumps[1].data, list);
    TableRoute(c, g);
    var cr: seq<nat> := [2];
    assert cr[0] == 2 && c.bad[2];
    assert RunRoute(c, g, dumps) == Reached(Pos(3, 2048, true), cr);
    assert Room(c, Pos(0, 0, true), 2048) by {
      assert 0 * c.size == 0 && c.hi * c.size == 655360;
    }
  }

  /** Whatever the dumps contain, and although the chip does not fail, the run reports
      success and leaves a container that cannot be read. */
  method LosesData(m: NandDump, dumps: seq<Dump>, ghost c: Card) returns (ok: bool)
    requires m.Ready(c) && Erased(c) && Chip5(c, m.g) && TwoDumps(dumps) && Storable(dumps, 20, c.size)
    modifies m, m.w, m.w.dev
    ensures |m.w.dev.blocks| == |c.bad|
    ensures m.w.dev.failures == old(m.w.dev.failures) ==>
      ok && HasMagic(ImageOf(m.w.dev.blocks, c, 0)) && Parse(ImageOf(m.w.dev.blocks, c, 0), 20) == None
  {
    TableFate(c, m.g, dumps);
    ok := Run(m, dumps, c);
  }
}
