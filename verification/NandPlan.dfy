/** What writing to a NAND partition leads to, as a function of the bad blocks, the
    prior contents and the data alone: the positions that the writer takes, whether it
    runs out of room, and whether a reader that skips bad blocks gets the data back
    (check_and_write_crashdump_nand_flash in arch/arm/mach-ipq/cmd_crashdump.c). */
module NandPlan {
  import opened Common
  import opened Bytes
  import opened FlashCells
  import opened NandFlash
  import opened Positions

  // ----- what a reader gets -----

  /** The contents of the good blocks in [s, k), in order: what a reader that
      skips bad blocks gets. */
  ghost function GoodBytes(blocks: seq<Block>, bad: seq<bool>, s: nat, k: nat): seq<byte>
    requires |bad| == |blocks| && k <= |blocks|
  {
    if k <= s then []
    else GoodBytes(blocks, bad, s, k - 1) + (if bad[k - 1] then [] else blocks[k - 1])
  }

  /** The same up to position `r` of block `k`. */
  ghost function Readable(blocks: seq<Block>, bad: seq<bool>, s: nat, k: nat, r: nat): seq<byte>
    requires |bad| == |blocks| && k <= |blocks| && (r > 0 ==> k < |blocks| && r <= |blocks[k]|)
  {
    GoodBytes(blocks, bad, s, k) + (if r > 0 && !bad[k] then blocks[k][..r] else [])
  }

  lemma {:induction false} GoodFrame(blocks: seq<Block>, blocks': seq<Block>, bad: seq<bool>, s: nat, k: nat)
    requires |bad| == |blocks| == |blocks'| && k <= |blocks|
    requires forall i :: s <= i < k ==> blocks[i] == blocks'[i]
    ensures GoodBytes(blocks, bad, s, k) == GoodBytes(blocks', bad, s, k)
  {
    if k > s {
      GoodFrame(blocks, blocks', bad, s, k - 1);
    }
  }

  lemma {:induction false} GoodSkip(blocks: seq<Block>, bad: seq<bool>, s: nat, k: nat, k': nat)
    requires |bad| == |blocks| && s <= k <= k' <= |blocks|
    requires forall i :: k <= i < k' ==> bad[i]
    ensures GoodBytes(blocks, bad, s, k') == GoodBytes(blocks, bad, s, k)
  {
    if k' > k {
      GoodSkip(blocks, bad, s, k, k' - 1);
    }
  }

  // ----- positions -----

  /** The chip before the session, and the partition as its blocks [lo, hi). */
  datatype Card = Card(base: seq<Block>, bad: seq<bool>, size: nat, page: nat, lo: nat, hi: nat)

  ghost predicate CardOk(c: Card) {
    && |c.base| == |c.bad| && Uniform(c.base, c.size) && c.hi <= |c.bad|
    && 0 < c.size && 0 < c.page && IsMultiple(c.size, c.page)
  }

  /** Position `r` of block `k`; `clean` says that the block was erased when it was entered. */
  datatype Pos = Pos(k: nat, r: nat, clean: bool)

  ghost predicate PosOk(c: Card, p: Pos)
    requires CardOk(c)
  {
    p.r < c.size && IsMultiple(p.r, c.page) && p.k <= |c.bad| && (p.r > 0 ==> p.k < |c.bad|)
  }

  /** The first good block from `k` on, `hi` at most. */
  function NextGood(bad: seq<bool>, k: nat, hi: nat): (j: nat)
    requires hi <= |bad|
    ensures k <= j && (k <= hi ==> j <= hi) && (hi <= k ==> j == k)
    ensures forall i :: k <= i < j ==> bad[i]
    ensures j < hi ==> !bad[j]
    decreases hi - k
  {
    if k < hi && bad[k] then NextGood(bad, k + 1, hi) else k
  }

  /** Past the bad blocks. */
  function Skip(c: Card, p: Pos): Pos
    requires c.hi <= |c.bad|
  {
    if p.k < c.hi && c.bad[p.k] then Pos(NextGood(c.bad, p.k, c.hi), 0, false) else p
  }

  /** Where the next piece is written: past the bad blocks, into an erased block if it
      is entered at its start. */
  function Enter(c: Card, p: Pos): Pos
    requires c.hi <= |c.bad|
  {
    var q := Skip(c, p);
    if q.r == 0 then Pos(q.k, 0, true) else q
  }

  /** The check against the partition bounds. */
  predicate Room(c: Card, e: Pos, n: nat) {
    c.lo * c.size <= e.k * c.size + e.r && e.k * c.size + e.r + n < c.hi * c.size
  }

  /** The length of the next piece: up to the block end, but the last one whole. */
  function Len(c: Card, e: Pos, n: nat): (m: nat)
    requires e.r < c.size
    ensures n > 0 ==> 0 < m <= n
    ensures m <= c.size && (c.size < e.r + m ==> m == n)
  {
    if n > c.size then c.size - e.r else n
  }

  function After(c: Card, e: Pos, n: nat): Pos {
    if e.r + n < c.size then Pos(e.k, e.r + n, e.clean)
    else if e.r + n == c.size then Pos(e.k + 1, 0, false)
    else Pos(e.k + 1, if e.r + n - c.size < c.size then e.r + n - c.size else 0, false)
  }

  /** Whether the cells at a position can hold `x`: as the erase left them, or as they
      were before. */
  ghost predicate CellsTake(c: Card, k: nat, r: nat, clean: bool, x: seq<byte>) {
    k < |c.base| && k < |c.bad| && !c.bad[k] && r + |x| <= |c.base[k]| && (clean || Takes(c.base[k], r, x))
  }

  /** A piece that runs over its block end continues in the next block, bad or not,
      without an erase. */
  ghost predicate Taken(c: Card, e: Pos, x: seq<byte>) {
    if e.r + |x| <= c.size then CellsTake(c, e.k, e.r, e.clean, x)
    else
      && e.r <= c.size
      && CellsTake(c, e.k, e.r, e.clean, x[..c.size - e.r])
      && CellsTake(c, e.k + 1, 0, false, x[c.size - e.r..])
  }

  /** How a write ends if the chip does not fail: `ok` says that everything so far reads
      back, `tidy` that no piece ran over a block end. */
  datatype Result = NoRoom(tidy: bool) | Put(pos: Pos, ok: bool, tidy: bool)

  ghost function Write(c: Card, p: Pos, ok: bool, tidy: bool, x: seq<byte>): Result
    requires c.hi <= |c.bad|
    decreases |x|
  {
    if x == [] then Put(p, ok, tidy) else
    var e := Enter(c, p);
    if !Room(c, e, |x|) || c.size <= e.r then NoRoom(tidy) else
    var n := Len(c, e, |x|);
    Write(c, After(c, e, n), ok && Taken(c, e, x[..n]), tidy && e.r + n <= c.size, x[n..])
  }

  lemma {:induction false} TidyStays(c: Card, p: Pos, ok: bool, tidy: bool, x: seq<byte>)
    requires c.hi <= |c.bad|
    ensures Write(c, p, ok, tidy, x).tidy ==> tidy
    decreases |x|
  {
    var e := Enter(c, p);
    if x != [] && Room(c, e, |x|) && e.r < c.size {
      var n := Len(c, e, |x|);
      TidyStays(c, After(c, e, n), ok && Taken(c, e, x[..n]), tidy && e.r + n <= c.size, x[n..]);
    }
  }

  /** The writes of a session that starts at block `s`. */
  ghost function WriteAll(c: Card, s: nat, calls: seq<seq<byte>>): Result
    requires c.hi <= |c.bad|
  {
    if calls == [] then Put(Pos(s, 0, false), true, true) else
    match WriteAll(c, s, calls[..|calls| - 1])
    case NoRoom(tidy) => NoRoom(tidy)
    case Put(p, ok, tidy) => Write(c, p, ok, tidy, calls[|calls| - 1])
  }

  // ----- what the cells hold -----

  /** Before block `s` and behind the position everything is as before the session, but
      for the erase of the block entered. */
  ghost predicate Cells(c: Card, s: nat, blocks: seq<Block>, p: Pos) {
    && |blocks| == |c.base| && Uniform(blocks, c.size)
    && (forall i :: 0 <= i < |blocks| && (i < s || p.k < i) ==> blocks[i] == c.base[i])
    && (p.k < |blocks| ==>
          && |blocks[p.k]| == |c.base[p.k]|
          && forall j :: p.r <= j < |blocks[p.k]| ==> blocks[p.k][j] == if p.clean then 0xFF else c.base[p.k][j])
  }

  ghost predicate ReadsBack(c: Card, s: nat, blocks: seq<Block>, p: Pos, ok: bool, d: seq<byte>)
    requires CardOk(c) && PosOk(c, p) && |blocks| == |c.base| && Uniform(blocks, c.size)
  {
    && |Readable(blocks, c.bad, s, p.k, p.r)| <= |d|
    && (ok <==> Readable(blocks, c.bad, s, p.k, p.r) == d)
  }

  /** The session has written `d` from block `s` to position `p`; it reads back exactly
      if `ok`. */
  ghost predicate Holds(c: Card, s: nat, blocks: seq<Block>, p: Pos, ok: bool, d: seq<byte>) {
    && CardOk(c) && PosOk(c, p) && s <= p.k
    && Cells(c, s, blocks, p)
    && ReadsBack(c, s, blocks, p, ok, d)
  }

  lemma SkipHolds(c: Card, s: nat, blocks: seq<Block>, p: Pos, ok: bool, d: seq<byte>)
    requires Holds(c, s, blocks, p, ok, d)
    ensures Holds(c, s, blocks, Skip(c, p), ok, d)
  {
    var q := Skip(c, p);
    if q != p {
      GoodSkip(blocks, c.bad, s, p.k, q.k);
    }
  }

  lemma EraseHolds(c: Card, s: nat, blocks: seq<Block>, now: seq<Block>, p: Pos, ok: bool, d: seq<byte>)
    requires Holds(c, s, blocks, p, ok, d) && p.r == 0
    requires SameOutside(blocks, now, p.k, p.k + 1) && Uniform(now, c.size) && p.k < |now| && Blank(now[p.k], 0, c.size)
    ensures Holds(c, s, now, Pos(p.k, 0, true), ok, d)
  {
    GoodFrame(blocks, now, c.bad, s, p.k);
  }

  /** More data reads back exactly if what was there did and the new data does. */
  lemma CancelShort<T>(r: seq<T>, y: seq<T>, d: seq<T>, x: seq<T>)
    requires |r| <= |d| && |y| <= |x|
    ensures r + y == d + x <==> r == d && y == x
  {
    if r + y == d + x {
      assert |r| == |d| && |y| == |x|;
      assert r == (r + y)[..|r|] && d == (d + x)[..|d|];
      assert y == (r + y)[|r|..] && x == (d + x)[|d|..];
    }
  }

  /** Programming cells stores the data exactly if they take it. */
  lemma ProgramStores(b: Block, r: nat, x: seq<byte>)
    requires r + |x| <= |b|
    ensures ProgramBlock(b, r, x)[..r] == b[..r]
    ensures ProgramBlock(b, r, x)[r..r + |x|] == x <==> Takes(b, r, x)
  {
    var p := ProgramBlock(b, r, x);
    var y := p[r..r + |x|];
    assert forall i :: 0 <= i < |x| ==> y[i] == AndByte(b[r + i], x[i]);
  }

  lemma ReadableGrows(blocks: seq<Block>, bad: seq<bool>, size: nat, s: nat, k: nat, r: nat, x: seq<byte>, b: Block)
    requires |bad| == |blocks| && Uniform(blocks, size) && s <= k < |blocks|
    requires !bad[k] && r < size && r + |x| <= size && x != []
    requires b == ProgramBlock(blocks[k], r, x)
    ensures var p := blocks[k := b];
            (if r + |x| < size then Readable(p, bad, s, k, r + |x|) else Readable(p, bad, s, k + 1, 0))
              == Readable(blocks, bad, s, k, r) + b[r..r + |x|]
  {
    var p := blocks[k := b];
    GoodFrame(blocks, p, bad, s, k);
    ProgramStores(blocks[k], r, x);
    assert b[..r + |x|] == blocks[k][..r] + b[r..r + |x|];
    assert r + |x| == size ==> b[..r + |x|] == b;
    Assoc(GoodBytes(blocks, bad, s, k), blocks[k][..r], b[r..r + |x|]);
    assert r == 0 ==> blocks[k][..r] == [];
  }

  lemma InsideCells(c: Card, s: nat, blocks: seq<Block>, e: Pos, x: seq<byte>, p: seq<Block>)
    requires CardOk(c) && PosOk(c, e) && Cells(c, s, blocks, e)
    requires s <= e.k < |blocks| && !c.bad[e.k] && e.r + |x| <= c.size && x != []
    requires p == blocks[e.k := ProgramBlock(blocks[e.k], e.r, x)] && IsMultiple(e.r + |x|, c.page)
    ensures Cells(c, s, p, After(c, e, |x|)) && PosOk(c, After(c, e, |x|))
  {}

  /** The same for what reads back, in terms of the bytes added. */
  lemma ReadsGrow<T>(r: seq<T>, y: seq<T>, d: seq<T>, x: seq<T>, ok: bool, takes: bool)
    requires |r| <= |d| && |y| == |x| && (ok <==> r == d) && (takes <==> y == x)
    ensures |r + y| <= |d + x| && (ok && takes <==> r + y == d + x)
  {
    CancelShort(r, y, d, x);
  }

  lemma AfterInside(c: Card, e: Pos, blocks: seq<Block>, s: nat, n: nat)
    requires CardOk(c) && |blocks| == |c.bad| && Uniform(blocks, c.size) && e.k < |blocks| && e.r + n <= c.size
    ensures var q := After(c, e, n);
            && (q.r > 0 ==> q.k < |blocks|) && q.k <= |blocks| && q.r < c.size
            && Readable(blocks, c.bad, s, q.k, q.r) ==
               (if e.r + n < c.size then Readable(blocks, c.bad, s, e.k, e.r + n)
                else Readable(blocks, c.bad, s, e.k + 1, 0))
  {}

  /** What a piece that stays in its block adds to what reads back. */
  lemma InsideAdds(c: Card, s: nat, blocks: seq<Block>, e: Pos, x: seq<byte>, b: Block, p: seq<Block>)
    requires CardOk(c) && |blocks| == |c.bad| && Uniform(blocks, c.size) && s <= e.k < |blocks|
    requires !c.bad[e.k] && e.r < c.size && e.r + |x| <= c.size && x != []
    requires b == ProgramBlock(blocks[e.k], e.r, x) && p == blocks[e.k := b] && Uniform(p, c.size)
    ensures var q := After(c, e, |x|);
            && (q.r > 0 ==> q.k < |p|) && q.k <= |p| && q.r < c.size
            && Readable(p, c.bad, s, q.k, q.r) == Readable(blocks, c.bad, s, e.k, e.r) + b[e.r..e.r + |x|]
  {
    ReadableGrows(blocks, c.bad, c.size, s, e.k, e.r, x, b);
    AfterInside(c, e, p, s, |x|);
  }

  /** The cells behind the position are those that CellsTake speaks of. */
  lemma CellsAgree(c: Card, s: nat, blocks: seq<Block>, e: Pos, was: Block, x: seq<byte>, take: bool)
    requires CardOk(c) && Cells(c, s, blocks, e) && e.k < |blocks| && !c.bad[e.k] && e.r + |x| <= c.size
    requires was == blocks[e.k] && take == CellsTake(c, e.k, e.r, e.clean, x)
    ensures e.r + |x| <= |was| && (take <==> Takes(was, e.r, x))
  {
    TakesIs(was, c.base[e.k], e.r, x, e.clean);
  }

  /** The cells take `x` if they are erased, and otherwise exactly if those before did. */
  lemma TakesIs(was: Block, base: Block, r: nat, x: seq<byte>, clean: bool)
    requires r + |x| <= |was| == |base|
    requires forall j :: r <= j < r + |x| ==> was[j] == if clean then 0xFF else base[j]
    ensures Takes(was, r, x) <==> clean || Takes(base, r, x)
  {
    if clean {
      BlankTakesAll(was, r, x);
    } else if Takes(was, r, x) {
      TakesSame(was, base, r, x);
    } else if Takes(base, r, x) {
      TakesSame(base, was, r, x);
    }
  }

  lemma TakesSame(a: Block, b: Block, r: nat, x: seq<byte>)
    requires r + |x| <= |a| == |b| && Takes(a, r, x)
    requires forall j :: r <= j < r + |x| ==> a[j] == b[j]
    ensures Takes(b, r, x)
  {
    forall i | 0 <= i < |x| ensures AndByte(b[r + i], x[i]) == x[i] {
      assert a[r + i] == b[r + i];
    }
  }

  lemma TakenThere(was: Block, r: nat, x: seq<byte>, b: Block, there: seq<byte>, take: bool)
    requires r + |x| <= |was| && b == ProgramBlock(was, r, x) && there == b[r..r + |x|]
    requires take <==> Takes(was, r, x)
    ensures there == x <==> take
  {
    ProgramStores(was, r, x);
  }

  lemma InsideReads(c: Card, s: nat, blocks: seq<Block>, e: Pos, ok: bool, d: seq<byte>, x: seq<byte>, b: Block,
                    p: seq<Block>, q: Pos, take: bool, there: seq<byte>)
    requires CardOk(c) && PosOk(c, e) && |blocks| == |c.bad| && Uniform(blocks, c.size)
    requires s <= e.k < |blocks| && !c.bad[e.k] && e.r + |x| <= c.size && x != []
    requires b == ProgramBlock(blocks[e.k], e.r, x) && p == blocks[e.k := b] && Uniform(p, c.size)
    requires ReadsBack(c, s, blocks, e, ok, d) && q == After(c, e, |x|) && PosOk(c, q)
    requires there == b[e.r..e.r + |x|] && (there == x <==> take)
    ensures ReadsBack(c, s, p, q, ok && take, d + x)
  {
    InsideAdds(c, s, blocks, e, x, b, p);
    ReadsGrow(Readable(blocks, c.bad, s, e.k, e.r), there, d, x, ok, take);
  }

  /** A piece that stays in its block. */
  lemma InsideHolds(c: Card, s: nat, blocks: seq<Block>, e: Pos, ok: bool, d: seq<byte>, x: seq<byte>,
                    now: seq<Block>, q: Pos, take: bool, ok': bool, d': seq<byte>)
    requires Holds(c, s, blocks, e, ok, d)
    requires e.k < |blocks| && !c.bad[e.k] && e.r + |x| <= c.size && x != [] && IsMultiple(e.r + |x|, c.page)
    requires now == Program(blocks, c.bad, c.size, e.k, e.r, x) && q == After(c, e, |x|)
    requires take == CellsTake(c, e.k, e.r, e.clean, x) && ok' == (ok && take) && d' == d + x
    ensures Holds(c, s, now, q, ok', d')
  {
    var was := blocks[e.k];
    var b := ProgramBlock(was, e.r, x);
    var there := b[e.r..e.r + |x|];
    ProgramInside(blocks, c.bad, c.size, e.k, e.r, x);
    InsideCells(c, s, blocks, e, x, now);
    CellsAgree(c, s, blocks, e, was, x, take);
    TakenThere(was, e.r, x, b, there, take);
    InsideReads(c, s, blocks, e, ok, d, x, b, now, q, take, there);
  }

  /** Data for a bad block is lost. */
  lemma LostHolds(c: Card, s: nat, blocks: seq<Block>, k: nat, ok: bool, d: seq<byte>, x: seq<byte>, d': seq<byte>)
    requires Holds(c, s, blocks, Pos(k, 0, false), ok, d)
    requires k < |blocks| && c.bad[k] && 0 < |x| < c.size && IsMultiple(|x|, c.page) && d' == d + x
    ensures Holds(c, s, blocks, Pos(k, |x|, false), false, d')
  {}

  /** What a piece leaves in the block after its own. */
  lemma OverHolds(c: Card, s: nat, one: seq<Block>, k: nat, ok: bool, d: seq<byte>, over: seq<byte>,
                  now: seq<Block>, take: bool, ok': bool, d': seq<byte>)
    requires Holds(c, s, one, Pos(k, 0, false), ok, d)
    requires k < |one| && 0 < |over| < c.size && IsMultiple(|over|, c.page)
    requires now == Program(one, c.bad, c.size, k, 0, over)
    requires take == CellsTake(c, k, 0, false, over) && ok' == (ok && take) && d' == d + over
    ensures Holds(c, s, now, Pos(k, |over|, false), ok', d')
  {
    if c.bad[k] {
      ProgramInside(one, c.bad, c.size, k, 0, over);
      LostHolds(c, s, one, k, ok, d, over, d');
    } else {
      InsideHolds(c, s, one, Pos(k, 0, false), ok, d, over, now, Pos(k, |over|, false), take, ok', d');
    }
  }

  /** A piece that runs over the end of its block. */
  lemma CrossHolds(c: Card, s: nat, blocks: seq<Block>, e: Pos, ok: bool, d: seq<byte>, head: seq<byte>,
                   over: seq<byte>, one: seq<Block>, now: seq<Block>, t1: bool, t2: bool, d1: seq<byte>, d2: seq<byte>)
    requires Holds(c, s, blocks, e, ok, d)
    requires e.k + 1 < |blocks| && !c.bad[e.k] && IsMultiple(|over|, c.page) && IsMultiple(c.size, c.page)
    requires head != [] && e.r + |head| == c.size && 0 < |over| < c.size
    requires one == Program(blocks, c.bad, c.size, e.k, e.r, head)
    requires now == Program(one, c.bad, c.size, e.k + 1, 0, over)
    requires t1 == CellsTake(c, e.k, e.r, e.clean, head) && t2 == CellsTake(c, e.k + 1, 0, false, over)
    requires d1 == d + head && d2 == d1 + over
    ensures Holds(c, s, now, Pos(e.k + 1, |over|, false), ok && t1 && t2, d2)
  {
    InsideHolds(c, s, blocks, e, ok, d, head, one, Pos(e.k + 1, 0, false), t1, ok && t1, d1);
    OverHolds(c, s, one, e.k + 1, ok && t1, d1, over, now, t2, ok && t1 && t2, d2);
  }

  /** The parts of such a piece. */
  lemma CrossParts(c: Card, blocks: seq<Block>, e: Pos, x: seq<byte>, head: seq<byte>, over: seq<byte>)
    requires Uniform(blocks, c.size) && |blocks| == |c.bad| && e.k + 1 < |blocks| && e.r < c.size
    requires |x| <= c.size < e.r + |x| && head == x[..c.size - e.r] && over == x[c.size - e.r..]
    ensures Program(blocks, c.bad, c.size, e.k, e.r, x) ==
            Program(Program(blocks, c.bad, c.size, e.k, e.r, head), c.bad, c.size, e.k + 1, 0, over)
  {
    ProgramSplit(blocks, c.bad, c.size, e.k, e.r, x);
  }

  lemma CrossTaken(c: Card, e: Pos, x: seq<byte>, head: seq<byte>, over: seq<byte>)
    requires e.r < c.size && |x| <= c.size < e.r + |x| && head == x[..c.size - e.r] && over == x[c.size - e.r..]
    ensures |over| == e.r + |x| - c.size && x == head + over && head != [] && e.r + |head| == c.size
    ensures After(c, e, |x|) == Pos(e.k + 1, |over|, false)
    ensures Taken(c, e, x) == (CellsTake(c, e.k, e.r, e.clean, head) && CellsTake(c, e.k + 1, 0, false, over))
  {}

  /** The next piece, at a position that has been entered: the new position, and what
      it keeps. */
  lemma PieceDone(c: Card, s: nat, blocks: seq<Block>, now: seq<Block>, p: Pos, q: Pos, ok: bool, ok': bool,
                  d: seq<byte>, x: seq<byte>, d': seq<byte>)
    requires Holds(c, s, blocks, p, ok, d) && Writable(c, s, p)
    requires x != [] && IsMultiple(p.r + |x|, c.page) && |x| <= c.size && (c.size < p.r + |x| ==> p.k + 1 < c.hi)
    requires now == Program(blocks, c.bad, c.size, p.k, p.r, x)
    requires q == After(c, p, |x|) && ok' == (ok && Taken(c, p, x)) && d' == d + x
    ensures Holds(c, s, now, q, ok', d')
  {
    if p.r + |x| <= c.size {
      InsideHolds(c, s, blocks, p, ok, d, x, now, q, CellsTake(c, p.k, p.r, p.clean, x), ok', d');
    } else {
      var head, over := x[..c.size - p.r], x[c.size - p.r..];
      CrossParts(c, blocks, p, x, head, over);
      CrossTaken(c, p, x, head, over);
      OverMultiple(p.r + |x|, c.size, c.page, |over|);
      Assoc(d, head, over);
      CrossHolds(c, s, blocks, p, ok, d, head, over, Program(blocks, c.bad, c.size, p.k, p.r, head), now,
                 CellsTake(c, p.k, p.r, p.clean, head), CellsTake(c, p.k + 1, 0, false, over), d + head, d');
    }
  }

  lemma AfterClean(c: Card, p: Pos, n: nat, q: Pos)
    requires q == After(c, p, n)
    ensures q.r > 0 || q.clean ==> p.r > 0 || p.clean || 0 < n
    ensures q.clean ==> p.clean
    ensures p.r + n <= c.size && q.r > 0 && (p.r > 0 ==> p.clean) && (p.r == 0 ==> p.clean) ==> q.clean
  {}

  /** Pieces are whole pages. */
  lemma LenMultiple(c: Card, e: Pos, n: nat)
    requires CardOk(c) && PosOk(c, e) && IsMultiple(n, c.page) && 0 < n
    ensures var m := Len(c, e, n);
            IsMultiple(m, c.page) && IsMultiple(e.r + m, c.page) && IsMultiple(n - m, c.page)
  {
    if c.size < n {
      RestMultiple(c.size, e.r, c.page);
      RestMultiple(n, c.size - e.r, c.page);
    } else {
      SumMultiple(e.r, n, c.page);
    }
  }

  /** The write from an entered position on, for which there is room. */
  ghost function WriteFrom(c: Card, e: Pos, ok: bool, tidy: bool, x: seq<byte>): Result
    requires c.hi <= |c.bad| && e.r < c.size && x != []
  {
    var n := Len(c, e, |x|);
    Write(c, After(c, e, n), ok && Taken(c, e, x[..n]), tidy && e.r + n <= c.size, x[n..])
  }

  /** The first round of a write. */
  lemma RoundPlan(c: Card, p: Pos, ok: bool, tidy: bool, x: seq<byte>, e: Pos, w: Result)
    requires c.hi <= |c.bad| && x != [] && e == Enter(c, p) && w == Write(c, p, ok, tidy, x)
    ensures w.tidy ==> tidy
    ensures Room(c, e, |x|) && e.r < c.size ==>
      w == WriteFrom(c, e, ok, tidy, x) && (w.tidy ==> e.r + Len(c, e, |x|) <= c.size)
    ensures !Room(c, e, |x|) ==> w.NoRoom?
  {
    TidyStays(c, p, ok, tidy, x);
    if Room(c, e, |x|) && e.r < c.size {
      var n := Len(c, e, |x|);
      TidyStays(c, After(c, e, n), ok && Taken(c, e, x[..n]), tidy && e.r + n <= c.size, x[n..]);
    }
  }

  /** The piece of a round: whole pages, and what is left to write. */
  lemma PiecePlan(c: Card, p: Pos, ok: bool, tidy: bool, data: seq<byte>, w: Result, n: nat, left: nat, x: seq<byte>,
                  rest: seq<byte>)
    requires CardOk(c) && PosOk(c, p) && data != []
    requires IsMultiple(|data|, c.page) && w == WriteFrom(c, p, ok, tidy, data)
    requires n == Len(c, p, |data|) && left == |data| - n && x == data[..n] && rest == data[n..]
    ensures |x| == n && IsMultiple(n, c.page) && IsMultiple(p.r + n, c.page) && IsMultiple(left, c.page)
    ensures w == Write(c, After(c, p, n), ok && Taken(c, p, x), tidy && p.r + n <= c.size, rest)
  {
    LenMultiple(c, p, |data|);
  }

  // ----- the states on the way -----

  function From(c: Card, s: nat): nat {
    if s < c.lo then c.lo else s
  }

  predicate InPartition(c: Card, op: Op) {
    match op
    case EraseOp(off, _, _) => c.lo * c.size <= off < c.hi * c.size
    case ProgramOp(off, len, _, _, _) => c.lo * c.size <= off && off + len < c.hi * c.size
  }

  /** The operation was not a program, or one of erased cells of one good block. */
  ghost predicate CleanOp(op: Op, blocks: seq<Block>, bad: seq<bool>) {
    op.ProgramOp? ==>
      && op.k < |blocks| && op.k < |bad| && !bad[op.k]
      && op.r + op.len <= |blocks[op.k]| && Blank(blocks[op.k], op.r, op.r + op.len)
  }

  /** Since `t0` a session from block `s` has stayed in the partition and, if `tidy`,
      programmed erased cells only. */
  ghost predicate Since(t: Trace, t0: Trace, c: Card, s: nat, tidy: bool) {
    || t == t0
    || (&& t.Next? && Since(t.before, t0, c, s, tidy)
        && InPartition(c, t.op) && (tidy ==> CleanOp(t.op, t.before.blocks, c.bad))
        && SameOutside(c.base, t.blocks, From(c, s), c.hi))
  }

  lemma {:induction false} SinceWeaken(t: Trace, t0: Trace, c: Card, s: nat, tidy: bool, tidy': bool)
    requires Since(t, t0, c, s, tidy) && (tidy' ==> tidy)
    ensures Since(t, t0, c, s, tidy')
  {
    if t != t0 {
      SinceWeaken(t.before, t0, c, s, tidy, tidy');
    }
  }

  lemma SinceNext(t: Trace, t0: Trace, c: Card, s: nat, tidy: bool, tidy': bool, op: Op, now: seq<Block>)
    requires Since(t, t0, c, s, tidy) && (tidy' ==> tidy)
    requires InPartition(c, op) && (tidy' ==> CleanOp(op, t.blocks, c.bad))
    requires SameOutside(c.base, now, From(c, s), c.hi)
    ensures Since(Next(t, op, now), t0, c, s, tidy')
  {
    SinceWeaken(t, t0, c, s, tidy, tidy');
  }

  /** What an operation at or just behind block `k` changes lies in the partition. */
  lemma TouchMore(c: Card, s: nat, was: seq<Block>, now: seq<Block>, k: nat, k': nat)
    requires SameOutside(c.base, was, From(c, s), c.hi) && SameOutside(was, now, k, k')
    requires From(c, s) <= k && k' <= c.hi
    ensures SameOutside(c.base, now, From(c, s), c.hi)
  {}

  /** The start of a block of the partition. */
  lemma EraseInPartition(c: Card, k: nat, off: nat)
    requires At(off, k, 0, c.size) && c.lo <= k < c.hi
    ensures InPartition(c, EraseOp(off, k, 0))
  {
    MulMonotone(c.lo, k, c.size);
    MulMonotone(k + 1, c.hi, c.size);
    assert (k + 1) * c.size == k * c.size + c.size;
  }

  /** A piece for which there is room. */
  lemma PieceInPartition(c: Card, p: Pos, off: nat, x: seq<byte>, d: seq<byte>)
    requires At(off, p.k, p.r, c.size) && Room(c, p, |x|)
    ensures InPartition(c, ProgramOp(off, |x|, p.k, p.r, d))
    ensures c.size < p.r + |x| ==> p.k + 1 < c.hi
  {
    if c.hi <= p.k + 1 {
      MulMonotone(c.hi, p.k + 1, c.size);
      assert (p.k + 1) * c.size == p.k * c.size + c.size;
    }
  }

  lemma PieceClean(c: Card, s: nat, blocks: seq<Block>, p: Pos, off: nat, x: seq<byte>, d: seq<byte>)
    requires |blocks| == |c.bad| && Uniform(blocks, c.size) && Cells(c, s, blocks, p)
    requires p.k < |blocks| && !c.bad[p.k] && p.clean && p.r + |x| <= c.size
    ensures CleanOp(ProgramOp(off, |x|, p.k, p.r, d), blocks, c.bad)
  {}

  lemma MulMonotone(x: nat, y: nat, m: nat)
    requires x <= y
    ensures x * m <= y * m
  {
    assert y * m == x * m + (y - x) * m;
  }

  /** The position is in a good block of the partition, erased if it is its start. */
  ghost predicate Writable(c: Card, s: nat, p: Pos)
  {
    s <= p.k && c.lo <= p.k < c.hi <= |c.bad| && !c.bad[p.k] && (p.r == 0 ==> p.clean)
  }

  /** Programming a piece keeps the session in the partition. */
  lemma PieceSince(c: Card, s: nat, t: Trace, t0: Trace, p: Pos, off: nat, x: seq<byte>, d: seq<byte>, now: seq<Block>,
                   tidy: bool, tidy': bool)
    requires Since(t, t0, c, s, tidy) && SameOutside(c.base, t.blocks, From(c, s), c.hi)
    requires |t.blocks| == |c.bad| && Uniform(t.blocks, c.size) && Cells(c, s, t.blocks, p)
    requires Writable(c, s, p) && (tidy && p.r > 0 ==> p.clean)
    requires At(off, p.k, p.r, c.size) && Room(c, p, |x|) && |x| <= c.size && |d| <= |x|
    requires now == Program(t.blocks, c.bad, c.size, p.k, p.r, d)
    requires tidy' == (tidy && p.r + |x| <= c.size)
    ensures c.size < p.r + |x| ==> p.k + 1 < c.hi
    ensures Since(Next(t, ProgramOp(off, |x|, p.k, p.r, d), now), t0, c, s, tidy')
    ensures SameOutside(c.base, now, From(c, s), c.hi)
  {
    PieceInPartition(c, p, off, x, d);
    ProgramTouches(t.blocks, c.bad, c.size, p.k, p.r, d);
    TouchMore(c, s, t.blocks, now, p.k, if c.size < p.r + |d| then p.k + 2 else p.k + 1);
    if tidy' {
      PieceClean(c, s, t.blocks, p, off, x, d);
    }
    SinceNext(t, t0, c, s, tidy, tidy', ProgramOp(off, |x|, p.k, p.r, d), now);
  }

  /** An offset on a page boundary. */
  lemma {:induction false} OffsetMultiple(k: nat, r: nat, size: nat, page: nat)
    requires 0 < page && IsMultiple(size, page) && IsMultiple(r, page)
    ensures IsMultiple(k * size + r, page)
  {
    if k > 0 {
      OffsetMultiple(k - 1, r, size, page);
      SumMultiple(size, (k - 1) * size + r, page);
      assert k * size == size + (k - 1) * size;
    }
  }

  /** The states that a write of `x` to the start of one good block goes through. */
  ghost predicate OneRound(t0: Trace, t: Trace, k: nat, x: seq<byte>) {
    || t == t0
    || (t.Next? && t.before == t0 && t.op.EraseOp? && t.op.k == k)
    || (&& t.Next? && t.before.Next? && t.before.before == t0
        && t.before.op.EraseOp? && t.before.op.k == k
        && k < |t.before.blocks| && Blank(t.before.blocks[k], 0, |t.before.blocks[k]|)
        && t.op.ProgramOp? && t.op.k == k && t.op.r == 0 && t.op.data <= x)
  }
}
