/** How much of a NAND session a reader gets, from the bad blocks and the positions
    alone (check_and_write_crashdump_nand_flash in arch/arm/mach-ipq/cmd_crashdump.c). */
module NandHeld {
  import opened Common
  import opened Bytes
  import opened FlashCells
  import opened NandFlash
  import opened NandPlan
  import opened NandCut
  import opened NandRoute

  /** The number of bytes in the good blocks of [s, k). */
  function GoodLen(bad: seq<bool>, size: nat, s: nat, k: nat): nat
    requires k <= |bad|
  {
    if k <= s then 0 else GoodLen(bad, size, s, k - 1) + (if bad[k - 1] then 0 else size)
  }

  lemma {:induction false} GoodLenIs(blocks: seq<Block>, bad: seq<bool>, size: nat, s: nat, k: nat)
    requires |bad| == |blocks| && Uniform(blocks, size) && k <= |blocks|
    ensures |GoodBytes(blocks, bad, s, k)| == GoodLen(bad, size, s, k)
  {
    if s < k {
      GoodLenIs(blocks, bad, size, s, k - 1);
    }
  }

  lemma {:induction false} GoodLenSkip(bad: seq<bool>, size: nat, s: nat, k: nat, k': nat)
    requires s <= k <= k' <= |bad| && forall i :: k <= i < k' ==> bad[i]
    ensures GoodLen(bad, size, s, k') == GoodLen(bad, size, s, k)
  {
    if k < k' {
      GoodLenSkip(bad, size, s, k, k' - 1);
    }
  }

  /** The number of bytes that a reader gets up to a position. */
  function Held(c: Card, s: nat, p: Pos): nat
    requires p.k <= |c.bad|
  {
    GoodLen(c.bad, c.size, s, p.k) + (if p.k < |c.bad| && !c.bad[p.k] then p.r else 0)
  }

  lemma EnterHeld(c: Card, s: nat, p: Pos)
    requires c.hi <= |c.bad| && s <= p.k <= c.hi
    ensures s <= Enter(c, p).k <= c.hi && Held(c, s, Enter(c, p)) == Held(c, s, p)
  {
    GoodLenSkip(c.bad, c.size, s, p.k, NextGood(c.bad, p.k, c.hi));
  }

  /** Of the `n` bytes written a reader gets as many if every piece that ran over a block
      end landed in a good block, and otherwise at least a page less. */
  ghost predicate Lags(c: Card, s: nat, cr: seq<nat>, p: Pos, n: nat)
    requires CardOk(c)
  {
    && PosOk(c, p) && InSite(c, p) && s <= p.k
    && (if AllGood(c.bad, cr) then Held(c, s, p) == n else Held(c, s, p) + c.page <= n)
  }

  lemma EnterLags(c: Card, s: nat, cr: seq<nat>, p: Pos, n: nat, e: Pos)
    requires CardOk(c) && Lags(c, s, cr, p, n) && e == Enter(c, p) && e.k < c.hi
    ensures Lags(c, s, cr, e, n) && !c.bad[e.k]
  {
    EnterHeld(c, s, p);
    EnterGood(c, p);
  }

  lemma InsideLags(c: Card, s: nat, cr: seq<nat>, e: Pos, n: nat, m: nat, q: Pos)
    requires CardOk(c) && Lags(c, s, cr, e, n) && e.k < c.hi && !c.bad[e.k]
    requires 0 < m && e.r + m <= c.size && IsMultiple(e.r + m, c.page) && q == After(c, e, m)
    ensures Lags(c, s, cr, q, n + m)
  {
    assert GoodLen(c.bad, c.size, s, e.k + 1) == GoodLen(c.bad, c.size, s, e.k) + c.size;
  }

  lemma CrossLags(c: Card, s: nat, cr: seq<nat>, e: Pos, n: nat, m: nat, q: Pos, cr': seq<nat>)
    requires CardOk(c) && Lags(c, s, cr, e, n) && e.k + 1 < c.hi && !c.bad[e.k]
    requires m <= c.size < e.r + m && IsMultiple(e.r + m, c.page) && q == After(c, e, m) && cr' == cr + [e.k + 1]
    ensures Lags(c, s, cr', q, n + m)
  {
    var over := e.r + m - c.size;
    OverMultiple(e.r + m, c.size, c.page, over);
    AllGoodSnoc(c.bad, cr, e.k + 1);
    assert GoodLen(c.bad, c.size, s, e.k + 1) == GoodLen(c.bad, c.size, s, e.k) + c.size;
  }

  /** One call. */
  lemma {:induction false} CallLags(c: Card, s: nat, cr: seq<nat>, p: Pos, total: nat, n: nat, r: Route)
    requires CardOk(c) && Lags(c, s, cr, p, total) && IsMultiple(n, c.page)
    requires r == Travel(c, p, cr, n) && r.Reached?
    ensures Lags(c, s, r.crossings, r.pos, total + n)
    decreases n
  {
    if n > 0 {
      var e := Enter(c, p);
      var m := Len(c, e, n);
      var q, cr' := After(c, e, m), if e.r + m <= c.size then cr else cr + [e.k + 1];
      RoomInside(c, e, n);
      EnterLags(c, s, cr, p, total, e);
      LenMultiple(c, e, n);
      if e.r + m <= c.size {
        InsideLags(c, s, cr, e, total, m, q);
      } else {
        CrossLags(c, s, cr, e, total, m, q, cr');
      }
      CallLags(c, s, cr', q, total + m, n - m, r);
    }
  }

  // ----- a session -----

  /** Every call writes whole pages. */
  ghost predicate Paged(calls: seq<seq<byte>>, page: nat)
    requires 0 < page
  {
    forall i :: 0 <= i < |calls| ==> IsMultiple(|calls[i]|, page)
  }

  lemma AddPaged(b: Cut, x: seq<byte>, page: nat)
    requires 0 < page && |b.tail| < page && Paged(b.calls, page)
    ensures Paged(Add(b, x, page).calls, page)
  {
    if page <= |b.tail| + |x| {
      WholeMeaning(|x[page - |b.tail|..]|, page);
    }
  }

  lemma {:induction false} CutPaged(chunks: seq<seq<byte>>, page: nat)
    requires 0 < page
    ensures Paged(CutAll(chunks, page).calls, page)
  {
    if chunks != [] {
      var n := |chunks| - 1;
      CutPaged(chunks[..n], page);
      AddPaged(CutAll(chunks[..n], page), chunks[n], page);
    }
  }

  lemma FlushPaged(chunks: seq<seq<byte>>, page: nat)
    requires 0 < page
    ensures Paged(Flush(CutAll(chunks, page), page), page)
  {
    CutPaged(chunks, page);
  }

  lemma {:induction false} SessionLags(c: Card, s: nat, calls: seq<seq<byte>>, r: Route)
    requires CardOk(c) && s <= c.hi && Paged(calls, c.page)
    requires r == TravelAll(c, s, Lens(calls)) && r.Reached?
    ensures Lags(c, s, r.crossings, r.pos, |Flatten(calls)|)
  {
    if calls != [] {
      var n := |calls| - 1;
      assert Lens(calls)[..n] == Lens(calls[..n]) && Lens(calls)[n] == |calls[n]|;
      var before := TravelAll(c, s, Lens(calls[..n]));
      SessionLags(c, s, calls[..n], before);
      CallLags(c, s, before.crossings, before.pos, |Flatten(calls[..n])|, |calls[n]|, r);
    }
  }

  /** What a reader gets of a session on an erased partition: all of it, or at least a
      page less. */
  lemma PlanLags(c: Card, s: nat, chunks: seq<seq<byte>>, plan: Result, d: seq<byte>)
    requires CardOk(c) && Erased(c) && s <= c.hi && plan == Plan(c, s, chunks) && plan.Put?
    requires d == Flatten(Flush(CutAll(chunks, c.page), c.page))
    ensures InSite(c, plan.pos)
    ensures if plan.ok then Held(c, s, plan.pos) == |d| else Held(c, s, plan.pos) + c.page <= |d|
  {
    var calls := Flush(CutAll(chunks, c.page), c.page);
    FlushPaged(chunks, c.page);
    SessionMatches(c, s, calls);
    SessionLags(c, s, calls, TravelAll(c, s, Lens(calls)));
  }

  // ----- what lies behind -----

  /** Behind the position a reader finds erased cells only. */
  lemma {:induction false} BlankBehind(c: Card, blocks: seq<Block>, s: nat, p: Pos, hi: nat, i: nat)
    requires CardOk(c) && Erased(c) && Cells(c, s, blocks, p) && InSite(c, p)
    requires c.lo <= s <= p.k <= hi <= c.hi
    requires Held(c, s, p) <= i < |GoodBytes(blocks, c.bad, s, hi)|
    ensures GoodBytes(blocks, c.bad, s, hi)[i] == 0xFF
  {
    GoodLenIs(blocks, c.bad, c.size, s, hi);
    if p.k < hi {
      GoodLenIs(blocks, c.bad, c.size, s, hi - 1);
      var n := |GoodBytes(blocks, c.bad, s, hi - 1)|;
      if i < n {
        BlankBehind(c, blocks, s, p, hi - 1, i);
      } else {
        assert GoodBytes(blocks, c.bad, s, hi)[i] == blocks[hi - 1][i - n];
      }
    }
  }
}
