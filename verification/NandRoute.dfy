/** The way of a NAND session, from the bad blocks and the lengths of its calls alone:
    what can be checked before anything is written
    (check_and_write_crashdump_nand_flash in arch/arm/mach-ipq/cmd_crashdump.c). */
module NandRoute {
  import opened Common
  import opened Bytes
  import opened FlashCells
  import opened NandFlash
  import opened NandPlan
  import opened NandCut
  import opened Positions

  /** The final position, and the blocks into which a piece ran over. */
  datatype Route = Blocked | Reached(pos: Pos, crossings: seq<nat>)

  /** A call of `n` bytes. */
  function Travel(c: Card, p: Pos, cr: seq<nat>, n: nat): Route
    requires c.hi <= |c.bad|
    decreases n
  {
    if n == 0 then Reached(p, cr) else
    var e := Enter(c, p);
    if !Room(c, e, n) || c.size <= e.r then Blocked else
    var m := Len(c, e, n);
    Travel(c, After(c, e, m), if e.r + m <= c.size then cr else cr + [e.k + 1], n - m)
  }

  function TravelAll(c: Card, s: nat, lens: seq<nat>): Route
    requires c.hi <= |c.bad|
  {
    if lens == [] then Reached(Pos(s, 0, false), []) else
    match TravelAll(c, s, lens[..|lens| - 1])
    case Blocked => Blocked
    case Reached(p, cr) => Travel(c, p, cr, lens[|lens| - 1])
  }

  function Lens<T>(xs: seq<seq<T>>): (r: seq<nat>)
    ensures |r| == |xs|
  {
    seq(|xs|, i requires 0 <= i < |xs| => |xs[i]|)
  }

  predicate AllGood(bad: seq<bool>, blocks: seq<nat>) {
    forall i :: 0 <= i < |blocks| ==> blocks[i] < |bad| && !bad[blocks[i]]
  }

  /** The good blocks of the partition are erased. */
  ghost predicate Erased(c: Card)
    requires |c.base| == |c.bad| && Uniform(c.base, c.size)
  {
    forall i :: c.lo <= i < c.hi && i < |c.bad| && !c.bad[i] ==> Blank(c.base[i], 0, c.size)
  }

  lemma RoomInside(c: Card, e: Pos, n: nat)
    requires e.r < c.size && Room(c, e, n) && 0 < n
    ensures c.lo <= e.k < c.hi && (c.size < e.r + n && n <= c.size ==> e.k + 1 < c.hi)
  {
    var off, lo, hi := e.k * c.size + e.r, c.lo * c.size, c.hi * c.size;
    Below(off, e.k, e.r, lo, c.lo, c.size);
    Below(off, e.k, e.r, hi, c.hi, c.size);
    if c.size < e.r + n && n <= c.size {
      Advance(off, n, e.k, e.r, c.size);
      Below(off + n, e.k + 1, e.r + n - c.size, hi, c.hi, c.size);
    }
  }

  lemma EnterGood(c: Card, p: Pos)
    requires c.hi <= |c.bad|
    ensures Enter(c, p).k < c.hi ==> !c.bad[Enter(c, p).k]
    ensures p.r > 0 && p.k < c.hi && !c.bad[p.k] ==> Enter(c, p) == p
  {}

  // ----- one call -----

  /** What the lengths say of a session that is there. */
  ghost predicate Tells(c: Card, cr: seq<nat>, p: Pos, ok: bool, tidy: bool)
    requires CardOk(c)
  {
    && p.r < c.size && (tidy && p.r > 0 ==> p.clean)
    && (tidy <==> cr == []) && (tidy ==> ok)
    && (Erased(c) ==> (ok <==> AllGood(c.bad, cr)))
  }

  ghost predicate Matches(c: Card, r: Route, w: Result)
    requires CardOk(c)
  {
    match r
    case Blocked => w.NoRoom?
    case Reached(p, cr) => w.Put? && w.pos == p && Tells(c, cr, p, w.ok, w.tidy)
  }

  lemma CellsTakeIs(c: Card, k: nat, r: nat, clean: bool, x: seq<byte>)
    requires CardOk(c) && c.lo <= k < c.hi && r + |x| <= c.size
    ensures clean && !c.bad[k] ==> CellsTake(c, k, r, clean, x)
    ensures Erased(c) ==> (CellsTake(c, k, r, clean, x) <==> !c.bad[k])
  {
    if Erased(c) && !c.bad[k] {
      BlankTakesAll(c.base[k], r, x);
    }
  }

  lemma AllGoodSnoc(bad: seq<bool>, cr: seq<nat>, k: nat)
    ensures AllGood(bad, cr + [k]) <==> AllGood(bad, cr) && k < |bad| && !bad[k]
  {
    if AllGood(bad, cr + [k]) {
      assert (cr + [k])[|cr|] == k;
      assert forall i :: 0 <= i < |cr| ==> (cr + [k])[i] == cr[i];
    }
  }

  lemma CrossTells(c: Card, cr: seq<nat>, e: Pos, ok: bool, tidy: bool, x: seq<byte>, head: seq<byte>, over: seq<byte>,
                   q: Pos)
    requires CardOk(c) && Tells(c, cr, e, ok, tidy)
    requires |x| <= c.size < e.r + |x| && c.lo <= e.k && e.k + 1 < c.hi && !c.bad[e.k] && q == After(c, e, |x|)
    requires head == x[..c.size - e.r] && over == x[c.size - e.r..]
    ensures Tells(c, cr + [e.k + 1], q,
                  ok && CellsTake(c, e.k, e.r, e.clean, head) && CellsTake(c, e.k + 1, 0, false, over), false)
  {
    CellsTakeIs(c, e.k, e.r, e.clean, head);
    CellsTakeIs(c, e.k + 1, 0, false, over);
    AllGoodSnoc(c.bad, cr, e.k + 1);
  }

  lemma PieceTells(c: Card, cr: seq<nat>, e: Pos, ok: bool, tidy: bool, x: seq<byte>, cr': seq<nat>)
    requires CardOk(c) && Tells(c, cr, e, ok, tidy)
    requires x != [] && |x| <= c.size && (e.r == 0 ==> e.clean)
    requires c.lo <= e.k < c.hi && !c.bad[e.k] && (c.size < e.r + |x| ==> e.k + 1 < c.hi)
    requires cr' == if e.r + |x| <= c.size then cr else cr + [e.k + 1]
    ensures Tells(c, cr', After(c, e, |x|), ok && Taken(c, e, x), tidy && e.r + |x| <= c.size)
  {
    if e.r + |x| <= c.size {
      CellsTakeIs(c, e.k, e.r, e.clean, x);
    } else {
      var head, over := x[..c.size - e.r], x[c.size - e.r..];
      CrossTaken(c, e, x, head, over);
      CrossTells(c, cr, e, ok, tidy, x, head, over, After(c, e, |x|));
    }
  }

  /** The lengths decide whether there is room and where the session ends; on an erased
      partition they decide what reads back. */
  lemma {:induction false} CallMatches(c: Card, cr: seq<nat>, p: Pos, ok: bool, tidy: bool, x: seq<byte>)
    requires CardOk(c) && Tells(c, cr, p, ok, tidy)
    ensures Matches(c, Travel(c, p, cr, |x|), Write(c, p, ok, tidy, x))
    decreases |x|
  {
    var e := Enter(c, p);
    if x != [] && Room(c, e, |x|) {
      var n := Len(c, e, |x|);
      var head, rest, cr' := x[..n], x[n..], if e.r + n <= c.size then cr else cr + [e.k + 1];
      RoomInside(c, e, |x|);
      EnterGood(c, p);
      PieceTells(c, cr, e, ok, tidy, head, cr');
      CallMatches(c, cr', After(c, e, n), ok && Taken(c, e, head), tidy && e.r + n <= c.size, rest);
    }
  }

  // ----- a session -----

  lemma {:induction false} SessionMatches(c: Card, s: nat, calls: seq<seq<byte>>)
    requires CardOk(c)
    ensures Matches(c, TravelAll(c, s, Lens(calls)), WriteAll(c, s, calls))
  {
    if calls != [] {
      var n := |calls| - 1;
      SessionMatches(c, s, calls[..n]);
      assert Lens(calls)[..n] == Lens(calls[..n]);
      var w := WriteAll(c, s, calls[..n]);
      if w.Put? {
        CallMatches(c, TravelAll(c, s, Lens(calls)[..n]).crossings, w.pos, w.ok, w.tidy, calls[n]);
      }
    }
  }

  /** A position in the partition, or at its end. */
  predicate InSite(c: Card, p: Pos) {
    p.r < c.size && p.k <= c.hi && (p.r > 0 ==> p.k < c.hi)
  }

  lemma {:induction false} CallInSite(c: Card, p: Pos, cr: seq<nat>, n: nat)
    requires CardOk(c) && InSite(c, p) && Travel(c, p, cr, n).Reached?
    ensures InSite(c, Travel(c, p, cr, n).pos)
    decreases n
  {
    if n > 0 {
      var e := Enter(c, p);
      var m := Len(c, e, n);
      RoomInside(c, e, n);
      CallInSite(c, After(c, e, m), if e.r + m <= c.size then cr else cr + [e.k + 1], n - m);
    }
  }

  lemma {:induction false} SessionInSite(c: Card, s: nat, lens: seq<nat>)
    requires CardOk(c) && s <= c.hi && TravelAll(c, s, lens).Reached?
    ensures InSite(c, TravelAll(c, s, lens).pos)
  {
    if lens != [] {
      var n := |lens| - 1;
      SessionInSite(c, s, lens[..n]);
      var r := TravelAll(c, s, lens[..n]);
      CallInSite(c, r.pos, r.crossings, lens[n]);
    }
  }

  /** A write of `n` bytes at position `r` runs over no block end. */
  predicate Fits(r: nat, n: nat, size: nat) {
    r == 0 || size < n || r + n <= size
  }

  /** Exactly when one call runs over a block end. */
  lemma {:induction false} CallFits(c: Card, p: Pos, cr: seq<nat>, n: nat)
    requires CardOk(c) && p.r < c.size && (p.r > 0 ==> p.k < c.hi && !c.bad[p.k])
    requires Travel(c, p, cr, n).Reached?
    ensures Travel(c, p, cr, n).crossings == cr <==> Fits(p.r, n, c.size)
    ensures |cr| <= |Travel(c, p, cr, n).crossings|
    decreases n
  {
    var e := Enter(c, p);
    if n > 0 {
      var m := Len(c, e, n);
      RoomInside(c, e, n);
      EnterGood(c, p);
      if c.size < n {
        CallFits(c, After(c, e, m), cr, n - m);
      }
    }
  }

  // ----- the lengths of the chunks -----

  function Blanks(lens: seq<nat>): (r: seq<seq<byte>>)
    ensures |r| == |lens| && Lens(r) == lens
  {
    seq(|lens|, i requires 0 <= i < |lens| => Fill(lens[i], 0xFF))
  }

  /** The lengths of the calls that chunks of these lengths lead to. */
  function CallLens(lens: seq<nat>, page: nat): seq<nat>
    requires 0 < page
  {
    Lens(Flush(CutAll(Blanks(lens), page), page))
  }

  predicate SameLens(b: Cut, b': Cut) {
    Lens(b.calls) == Lens(b'.calls) && |b.tail| == |b'.tail|
  }

  lemma LensSnoc<T>(calls: seq<seq<T>>, x: seq<T>)
    ensures Lens(calls + [x]) == Lens(calls) + [|x|]
  {}

  lemma AddSame(b: Cut, b': Cut, x: seq<byte>, x': seq<byte>, page: nat)
    requires 0 < page && |b.tail| < page && SameLens(b, b') && |x| == |x'|
    ensures SameLens(Add(b, x, page), Add(b', x', page))
  {
    if page <= |b.tail| + |x| {
      var n := page - |b.tail|;
      LensSnoc(b.calls, b.tail + x[..n]);
      LensSnoc(b'.calls, b'.tail + x'[..n]);
      BulkSame(FillUp(b, x[..n]), FillUp(b', x'[..n]), x[n..], x'[n..], page);
    }
  }

  lemma BulkSame(b: Cut, b': Cut, x: seq<byte>, x': seq<byte>, page: nat)
    requires 0 < page && SameLens(b, b') && |x| == |x'|
    ensures SameLens(AddBulk(b, x, page), AddBulk(b', x', page))
  {
    var w := WholePart(|x|, page);
    LensSnoc(b.calls, x[..w]);
    LensSnoc(b'.calls, x'[..w]);
  }

  lemma {:induction false} CutSame(chunks: seq<seq<byte>>, chunks': seq<seq<byte>>, page: nat)
    requires 0 < page && |chunks| == |chunks'| && Lens(chunks) == Lens(chunks')
    ensures SameLens(CutAll(chunks, page), CutAll(chunks', page))
  {
    if chunks != [] {
      var n := |chunks| - 1;
      assert |chunks[n]| == Lens(chunks)[n] == Lens(chunks')[n];
      assert Lens(chunks[..n]) == Lens(chunks)[..n];
      assert Lens(chunks'[..n]) == Lens(chunks')[..n];
      CutSame(chunks[..n], chunks'[..n], page);
      AddSame(CutAll(chunks[..n], page), CutAll(chunks'[..n], page), chunks[n], chunks'[n], page);
    }
  }

  /** The contents of the chunks do not matter for the lengths of the calls. */
  lemma CallLensOf(chunks: seq<seq<byte>>, page: nat)
    requires 0 < page
    ensures Lens(Flush(CutAll(chunks, page), page)) == CallLens(Lens(chunks), page)
  {
    var chunks' := Blanks(Lens(chunks));
    CutSame(chunks, chunks', page);
    var b, b' := CutAll(chunks, page), CutAll(chunks', page);
    LensSnoc(b.calls, b.tail + Fill(page - |b.tail|, 0xFF));
    LensSnoc(b'.calls, b'.tail + Fill(page - |b'.tail|, 0xFF));
  }

  /** The way of a session, from the lengths of its chunks. */
  function RouteOf(c: Card, s: nat, lens: seq<nat>): Route
    requires c.hi <= |c.bad| && 0 < c.page
  {
    TravelAll(c, s, CallLens(lens, c.page))
  }

  /** What can be said of a session before it starts: whether there is room, where it
      ends, that it is tidy exactly if no piece runs over a block end, and on an erased
      partition that it reads back exactly if every piece that does lands in a good
      block. */
  lemma RouteTells(c: Card, s: nat, chunks: seq<seq<byte>>, lens: seq<nat>, r: Route, w: Result)
    requires CardOk(c) && lens == Lens(chunks) && r == RouteOf(c, s, lens) && w == Plan(c, s, chunks)
    ensures Matches(c, r, w)
  {
    CallLensOf(chunks, c.page);
    SessionMatches(c, s, Flush(CutAll(chunks, c.page), c.page));
  }
}
