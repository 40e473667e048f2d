/** The page buffer of the NAND stream writer: which calls of the write function a
    sequence of chunks leads to (arch/arm/mach-ipq/cmd_crashdump.c). */
module NandCut {
  import opened Common
  import opened Bytes
  import opened NandPlan

  /** The calls so far, and what is left in the page buffer. */
  datatype Cut = Cut(calls: seq<seq<byte>>, tail: seq<byte>)

  /** A chunk first completes the page in the buffer; its whole pages are then one call. */
  function Add(b: Cut, x: seq<byte>, page: nat): (r: Cut)
    requires 0 < page && |b.tail| < page
    ensures |r.tail| < page
  {
    if |b.tail| + |x| < page then Cut(b.calls, b.tail + x)
    else AddBulk(FillUp(b, x[..page - |b.tail|]), x[page - |b.tail|..], page)
  }

  function FillUp(b: Cut, x: seq<byte>): Cut {
    Cut(b.calls + [b.tail + x], [])
  }

  function AddBulk(b: Cut, x: seq<byte>, page: nat): (r: Cut)
    requires 0 < page
    ensures |r.tail| < page
  {
    var w := WholePart(|x|, page);
    if w == 0 then Cut(b.calls, x) else Cut(b.calls + [x[..w]], x[w..])
  }

  function CutAll(chunks: seq<seq<byte>>, page: nat): (r: Cut)
    requires 0 < page
    ensures |r.tail| < page
  {
    if chunks == [] then Cut([], []) else Add(CutAll(chunks[..|chunks| - 1], page), chunks[|chunks| - 1], page)
  }

  /** The last page is filled up with 0xFF. */
  function Flush(b: Cut, page: nat): seq<seq<byte>>
    requires |b.tail| < page
  {
    if b.tail == [] then b.calls else b.calls + [b.tail + Fill(page - |b.tail|, 0xFF)]
  }

  // ----- nothing is lost -----

  /** The calls are whole pages and with the buffer make up `d`. */
  ghost predicate Carries(b: Cut, d: seq<byte>, page: nat) {
    && 0 < page && |b.tail| < page
    && IsMultiple(|Flatten(b.calls)|, page) && Flatten(b.calls) + b.tail == d
  }

  lemma AddCarries(b: Cut, d: seq<byte>, x: seq<byte>, page: nat)
    requires Carries(b, d, page)
    ensures Carries(Add(b, x, page), d + x, page)
  {
    if |b.tail| + |x| < page {
      Assoc(Flatten(b.calls), b.tail, x);
    } else {
      var n := page - |b.tail|;
      var first, rest := x[..n], x[n..];
      FlattenSnoc(b.calls, b.tail + first);
      Assoc(Flatten(b.calls), b.tail, first);
      SumMultiple(|Flatten(b.calls)|, page, page);
      assert x == first + rest;
      Assoc(d, first, rest);
      BulkCarries(FillUp(b, first), d + first, rest, page);
    }
  }

  lemma BulkCarries(b: Cut, d: seq<byte>, x: seq<byte>, page: nat)
    requires Carries(b, d, page) && b.tail == []
    ensures Carries(AddBulk(b, x, page), d + x, page)
  {
    var w := WholePart(|x|, page);
    assert Flatten(b.calls) + [] == Flatten(b.calls);
    if w > 0 {
      WholeMeaning(|x|, page);
      assert x == x[..w] + x[w..];
      CallCarries(b.calls, d, x[..w], x[w..], x, page);
    }
  }

  lemma CallCarries(calls: seq<seq<byte>>, d: seq<byte>, bulk: seq<byte>, rest: seq<byte>, x: seq<byte>, page: nat)
    requires 0 < page && IsMultiple(|Flatten(calls)|, page) && Flatten(calls) == d
    requires IsMultiple(|bulk|, page) && |rest| < page && x == bulk + rest
    ensures Carries(Cut(calls + [bulk], rest), d + x, page)
  {
    FlattenSnoc(calls, bulk);
    SumMultiple(|d|, |bulk|, page);
    Assoc(d, bulk, rest);
  }

  lemma {:induction false} CutCarries(chunks: seq<seq<byte>>, page: nat)
    requires 0 < page
    ensures Carries(CutAll(chunks, page), Flatten(chunks), page)
  {
    if chunks != [] {
      var n := |chunks| - 1;
      CutCarries(chunks[..n], page);
      AddCarries(CutAll(chunks[..n], page), Flatten(chunks[..n]), chunks[n], page);
    }
  }

  /** However the stream is cut into chunks, the calls write it padded to whole pages. */
  lemma FlushJoins(chunks: seq<seq<byte>>, page: nat)
    requires 0 < page
    ensures Flatten(Flush(CutAll(chunks, page), page)) == Join(Blocks(Flatten(chunks), page))
  {
    var b := CutAll(chunks, page);
    CutCarries(chunks, page);
    MultipleMeaning(|Flatten(b.calls)|, page);
    PaddedTail(Flatten(b.calls), b.tail, page);
    if b.tail != [] {
      FlattenSnoc(b.calls, b.tail + Fill(page - |b.tail|, 0xFF));
    }
  }

  /** A partly filled last page is padded on its own. */
  lemma PaddedTail(done: seq<byte>, tail: seq<byte>, page: nat)
    requires 0 < page && |done| % page == 0 && |tail| < page
    ensures Join(Blocks(done + tail, page)) == if tail == [] then done else done + (tail + Fill(page - |tail|, 0xFF))
  {
    var full := Blocks(done, page);
    JoinBlocks(done, page);
    BlocksAppend(full, tail, page);
    JoinAppend(full, Blocks(tail, page));
    if tail != [] {
      assert Join([tail + Fill(page - |tail|, 0xFF)]) == tail + Fill(page - |tail|, 0xFF) + Join([]);
    }
  }

  // ----- one call after the other -----

  /** What a session over `chunks` from block `s` leads to unless the chip fails. */
  ghost function Plan(c: Card, s: nat, chunks: seq<seq<byte>>): Result
    requires c.hi <= |c.bad| && 0 < c.page
  {
    WriteAll(c, s, Flush(CutAll(chunks, c.page), c.page))
  }

  lemma WriteNext(c: Card, s: nat, calls: seq<seq<byte>>, x: seq<byte>)
    requires c.hi <= |c.bad|
    ensures WriteAll(c, s, calls + [x]) ==
            match WriteAll(c, s, calls)
            case NoRoom(tidy) => NoRoom(tidy)
            case Put(p, ok, tidy) => Write(c, p, ok, tidy, x)
  {
    assert (calls + [x])[..|calls|] == calls;
  }

  /** Once a call found no room none of the later ones is made, and what ran over a
      block end stays so. */
  lemma {:induction false} WriteLater(c: Card, s: nat, calls: seq<seq<byte>>, all: seq<seq<byte>>)
    requires c.hi <= |c.bad| && calls <= all
    ensures WriteAll(c, s, calls).NoRoom? ==> WriteAll(c, s, all).NoRoom?
    ensures WriteAll(c, s, all).tidy ==> WriteAll(c, s, calls).tidy
  {
    if calls != all {
      var n := |all| - 1;
      WriteLater(c, s, calls, all[..n]);
      var w := WriteAll(c, s, all[..n]);
      if w.Put? {
        TidyStays(c, w.pos, w.ok, w.tidy, all[n]);
      }
    }
  }

  /** A chunk that fills the page: a failure to write that page decides the chunk. */
  lemma SpillPlan(c: Card, s: nat, b: Cut, x: seq<byte>, first: seq<byte>, rest: seq<byte>, fill: Cut, all: Cut)
    requires c.hi <= |c.bad| && 0 < c.page && |b.tail| < c.page <= |b.tail| + |x|
    requires first == x[..c.page - |b.tail|] && rest == x[c.page - |b.tail|..]
    requires fill == FillUp(b, first) && all == Add(b, x, c.page)
    ensures all == AddBulk(fill, rest, c.page)
    ensures WriteAll(c, s, fill.calls).NoRoom? ==> WriteAll(c, s, all.calls).NoRoom?
    ensures WriteAll(c, s, all.calls).tidy ==> WriteAll(c, s, fill.calls).tidy
  {
    WriteLater(c, s, fill.calls, all.calls);
  }

  lemma CutSnoc(chunks: seq<seq<byte>>, x: seq<byte>, page: nat)
    requires 0 < page
    ensures CutAll(chunks + [x], page) == Add(CutAll(chunks, page), x, page)
  {
    assert (chunks + [x])[..|chunks|] == chunks;
  }

  lemma AddGrows(b: Cut, x: seq<byte>, page: nat)
    requires 0 < page && |b.tail| < page
    ensures b.calls <= Add(b, x, page).calls
  {}

  lemma {:induction false} CutGrows(chunks: seq<seq<byte>>, page: nat, i: nat)
    requires 0 < page && i <= |chunks|
    ensures CutAll(chunks[..i], page).calls <= CutAll(chunks, page).calls
  {
    var n := |chunks| - 1;
    if i <= n {
      assert chunks[..n][..i] == chunks[..i];
      CutGrows(chunks[..n], page, i);
      AddGrows(CutAll(chunks[..n], page), chunks[n], page);
    } else {
      assert chunks[..i] == chunks;
    }
  }
}
