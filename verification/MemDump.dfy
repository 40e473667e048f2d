/** The crash dump into a reserved memory region (arch/arm/mach-ipq/cmd_crashdump.c):
    wipe, dumps, index list, and the header as the last step. */
module MemDump {
  import opened Common
  import opened Bytes
  import opened DumpContainer

  /** The memory from the start of the reserved region on. Every state of it is kept
      in `history`: a copy goes byte by byte, a store is one step. */
  class Ram {
    var bytes: seq<byte>
    ghost var history: seq<seq<byte>>

    constructor (bytes: seq<byte>)
      ensures this.bytes == bytes && history == []
    {
      this.bytes, history := bytes, [];
    }

    method Copy(at: nat, d: seq<byte>)
      modifies this
      ensures bytes == Splice(old(bytes), at, d)
      ensures Copied(old(bytes), at, d, old(history), history)
    {
      ghost var was := bytes;
      history := history + seq(|d|, k requires 0 <= k < |d| => Splice(was, at, d[..k + 1]));
      bytes := Splice(bytes, at, d);
    }

    method Store(at: nat, d: seq<byte>)
      modifies this
      ensures bytes == Splice(old(bytes), at, d) && history == old(history) + [bytes]
    {
      bytes := Splice(bytes, at, d);
      history := history + [bytes];
    }
  }

  /** The states of copying `d`: the first byte, then the first two, and so on. */
  ghost predicate Copied(was: seq<byte>, at: nat, d: seq<byte>, history: seq<seq<byte>>, history': seq<seq<byte>>) {
    && |history'| == |history| + |d| && history <= history'
    && forall k :: |history| <= k < |history'| ==> history'[k] == Splice(was, at, d[..k - |history| + 1])
  }

  predicate Wiped(s: seq<byte>) {
    |s| > 0 && s[0] == 0xFF
  }

  /** No state since `mark` shows the magic numbers. */
  ghost predicate Quiet(history: seq<seq<byte>>, mark: nat) {
    && mark <= |history|
    && forall i :: mark <= i < |history| ==> !HasMagic(history[i])
  }

  /** No state since `mark` but the last shows the magic numbers. */
  ghost predicate QuietBut(history: seq<seq<byte>>, mark: nat) {
    history != [] && Quiet(history[..|history| - 1], mark)
  }

  /** A copy that leaves the first byte wiped, or wipes it first, keeps quiet. */
  lemma CopyKeepsQuiet(was: seq<byte>, at: nat, d: seq<byte>, history: seq<seq<byte>>, history': seq<seq<byte>>,
                       mark: nat)
    requires Quiet(history, mark) && Copied(was, at, d, history, history') && |was| > 0
    requires if at == 0 then d != [] ==> d[0] == 0xFF else was[0] == 0xFF
    ensures Quiet(history', mark)
  {
    forall i | mark <= i < |history'| ensures !HasMagic(history'[i]) {
      if i >= |history| {
        assert history'[i][0] == 0xFF;
        WipedHasNoMagic(history'[i]);
      } else {
        assert history'[i] == history[i];
      }
    }
  }

  /** Such a copy. */
  method QuietCopy(ram: Ram, at: nat, d: seq<byte>, ghost mark: nat)
    requires Quiet(ram.history, mark) && |ram.bytes| > 0
    requires if at == 0 then d != [] ==> d[0] == 0xFF else ram.bytes[0] == 0xFF
    modifies ram
    ensures ram.bytes == Splice(old(ram.bytes), at, d) && Quiet(ram.history, mark)
  {
    ghost var was, history := ram.bytes, ram.history;
    ram.Copy(at, d);
    CopyKeepsQuiet(was, at, d, history, ram.history, mark);
  }

  // ----- where everything goes -----

  /** The address after the dumps. */
  function Next(rsvd: nat, align: nat, dumps: seq<Dump>): (a: nat)
    requires 0 < align
    ensures a >= rsvd + HEADER_SIZE && IsMultiple(a, align)
  {
    if dumps == [] then RoundUp(rsvd + HEADER_SIZE, align)
    else RoundUp(Next(rsvd, align, dumps[..|dumps| - 1]) + |dumps[|dumps| - 1].data|, align)
  }

  lemma {:induction false} NextGrows(rsvd: nat, align: nat, dumps: seq<Dump>, k: nat)
    requires 0 < align && k <= |dumps|
    ensures Next(rsvd, align, dumps[..k]) <= Next(rsvd, align, dumps)
  {
    if k == |dumps| {
      assert dumps[..k] == dumps;
    } else {
      var init := dumps[..|dumps| - 1];
      NextGrows(rsvd, align, init, k);
      assert init[..k] == dumps[..k];
    }
  }

  /** The total that the header records, in 32 bits. */
  function Total(rsvd: nat, curr: nat, n: nat, nameMax: nat): nat
    requires rsvd <= curr
  {
    (curr - rsvd + Slot(n, nameMax)) % 0x1_0000_0000
  }

  /** The region and the platform constants. */
  datatype Region = Region(
    rsvd: nat,    // dump2mem_rsvd_addr
    limit: nat,   // dump2mem_rsvd_limit
    align: nat,   // ARCH_DMA_MINALIGN
    nameMax: nat)    // the name field of a list record

  ghost predicate Configured(g: Region, bytes: seq<byte>) {
    && 0 < g.align && g.rsvd <= g.limit < 0x1_0000_0000_0000_0000
    && HEADER_SIZE <= |bytes| && g.limit - g.rsvd <= |bytes|
  }

  /** Beyond the region, or the header where the region is smaller, nothing changed. */
  ghost predicate Inside(g: Region, base: seq<byte>, bytes: seq<byte>)
    requires g.rsvd <= g.limit
  {
    |base| == |bytes| && SameOn(base, bytes, Max(HEADER_SIZE, g.limit - g.rsvd), |base|)
  }

  lemma InsideKept(g: Region, base: seq<byte>, s: seq<byte>, at: nat, d: seq<byte>)
    requires g.rsvd <= g.limit && Max(HEADER_SIZE, g.limit - g.rsvd) <= |s|
    requires Inside(g, base, s) && at + |d| <= Max(HEADER_SIZE, g.limit - g.rsvd)
    ensures Inside(g, base, Splice(s, at, d))
  {}

  function PlaceOf(g: Region): Place {
    Place(g.rsvd, HEADER_SIZE, g.align, g.nameMax)
  }

  /** No container, and nothing beyond the region has changed. */
  ghost predicate Safe(g: Region, base: seq<byte>, bytes: seq<byte>) {
    Configured(g, bytes) && Inside(g, base, bytes) && Wiped(bytes)
  }

  ghost predicate Reached(g: Region, curr: nat, log: Log) {
    0 < g.align && curr == Next(g.rsvd, g.align, DumpsOf(log)) && (log.Then? ==> curr <= g.limit)
  }

  /** No container yet; the dumps taken so far are in place up to `curr`. */
  ghost predicate Collecting(g: Region, base: seq<byte>, bytes: seq<byte>, list: seq<byte>, curr: nat, log: Log) {
    && Safe(g, base, bytes) && Reached(g, curr, log)
    && Collected(bytes, list, 0, PlaceOf(g), log, curr - g.rsvd)
  }

  lemma SafeKept(g: Region, base: seq<byte>, bytes: seq<byte>, at: nat, d: seq<byte>)
    requires Safe(g, base, bytes) && 0 < at && at + |d| <= g.limit - g.rsvd
    ensures Safe(g, base, Splice(bytes, at, d))
  {
    InsideKept(g, base, bytes, at, d);
  }

  lemma ReachedNext(g: Region, curr: nat, log: Log, e: Entry, d: Dump, next: nat)
    requires Reached(g, curr, log) && next == RoundUp(curr + |d.data|, g.align) <= g.limit
    ensures Reached(g, next, Then(log, e, d)) && IsMultiple(curr, g.align)
    ensures g.rsvd + HEADER_SIZE <= curr && curr + |d.data| <= next
  {
    var ds := DumpsOf(log);
    NextAfter(g, ds, d);
    assert DumpsOf(Then(log, e, d)) == ds + [d];
  }

  lemma DumpStep(g: Region, base: seq<byte>, bytes: seq<byte>, curr: nat, log: Log, e: Entry, d: Dump, next: nat,
                 bytes': seq<byte>, log': Log)
    requires Safe(g, base, bytes) && Reached(g, curr, log) && Placed(bytes, PlaceOf(g), log, curr - g.rsvd)
    requires e == Entry(d.name, curr - g.rsvd, |d.data|) && log' == Then(log, e, d)
    requires next == RoundUp(curr + |d.data|, g.align) <= g.limit && bytes' == Splice(bytes, e.offset, d.data)
    ensures Safe(g, base, bytes') && Reached(g, next, log') && Placed(bytes', PlaceOf(g), log', next - g.rsvd)
    ensures 0 < e.offset && (CName(d.name, g.nameMax) ==> Legal(e, g.nameMax))
    ensures DumpsOf(log') == DumpsOf(log) + [d]
  {
    ReachedNext(g, curr, log, e, d, next);
    SafeKept(g, base, bytes, e.offset, d.data);
    SpliceHolds(bytes, e.offset, d.data);
    PlacedNext(bytes, bytes', PlaceOf(g), log, e, d, next - g.rsvd);
  }

  lemma NextAfter(g: Region, dumps: seq<Dump>, d: Dump)
    requires 0 < g.align
    ensures Next(g.rsvd, g.align, dumps + [d]) == RoundUp(Next(g.rsvd, g.align, dumps) + |d.data|, g.align)
  {
    assert (dumps + [d])[..|dumps|] == dumps;
  }

  /** The size check at the end: the total, which already counts from the start of
      the region, is added to the address after the dumps. */
  predicate SizeOk(g: Region, curr: nat, n: nat)
    requires g.rsvd <= curr
  {
    curr + Total(g.rsvd, curr, n, g.nameMax) <= g.limit
  }

  /** The total fits in its 32 bits. */
  predicate Exact(g: Region, curr: nat, n: nat)
    requires g.rsvd <= curr
  {
    curr - g.rsvd + Slot(n, g.nameMax) < 0x1_0000_0000
  }

  /** What decides whether a dump of the table completes. */
  predicate Completes(g: Region, dumps: seq<Dump>)
    requires 0 < g.align
  {
    SizeOk(g, Next(g.rsvd, g.align, dumps), |dumps|)
  }

  predicate Narrow(g: Region, dumps: seq<Dump>)
    requires 0 < g.align
  {
    Exact(g, Next(g.rsvd, g.align, dumps), |dumps|)
  }

  /** The address after the dumps: each dump starts at the first aligned address behind
      the header or the dump before it. */
  lemma NextIsLeast(g: Region, dumps: seq<Dump>, d: Dump)
    requires 0 < g.align
    ensures var first := Next(g.rsvd, g.align, []);
            first % g.align == 0 && g.rsvd + 32 <= first < g.rsvd + 32 + g.align
    ensures var end, next := Next(g.rsvd, g.align, dumps) + |d.data|, Next(g.rsvd, g.align, dumps + [d]);
            next % g.align == 0 && end <= next < end + g.align
  {
    NextAfter(g, dumps, d);
    MultipleMeaning(Next(g.rsvd, g.align, []), g.align);
    MultipleMeaning(Next(g.rsvd, g.align, dumps + [d]), g.align);
  }

  /** What the size check is, in numbers: the dumps count twice, the list once, and whole
      multiples of 4 GiB of them not at all. */
  lemma CompletesMeans(g: Region, dumps: seq<Dump>, end: nat, size: nat, wraps: nat)
    requires 0 < g.align && end == Next(g.rsvd, g.align, dumps)
    requires size == end - g.rsvd + |dumps| * EntrySize(g.nameMax)
    requires wraps * 0x1_0000_0000 <= size < (wraps + 1) * 0x1_0000_0000
    ensures Completes(g, dumps) <==> end + size - wraps * 0x1_0000_0000 <= g.limit
    ensures Narrow(g, dumps) <==> wraps == 0
  {
    SlotIsProduct(|dumps|, g.nameMax);
  }

  lemma SizeCheck(g: Region, dumps: seq<Dump>, list: nat)
    requires 0 < g.align && list == |dumps| * EntrySize(g.nameMax)
    ensures var end := Next(g.rsvd, g.align, dumps);
            Completes(g, dumps) <==> end + (end - g.rsvd + list) % 0x1_0000_0000 <= g.limit
  {
    SlotIsProduct(|dumps|, g.nameMax);
  }

  lemma {:induction false} QuietIsSound(history: seq<seq<byte>>, mark: nat, p: Place, dumps: seq<Dump>)
    requires Quiet(history, mark) && 0 < p.align
    ensures Always(SoundBy(p, dumps), history, mark)
  {
    if mark < |history| {
      QuietIsSound(history[..|history| - 1], mark, p, dumps);
    }
  }

  /** The check counts the dumps twice: it also refuses tables that would fit. */
  lemma CheckIsStrict()
    ensures exists g: Region, dumps: seq<Dump> ::
              0 < g.align && Narrow(g, dumps)
              && Next(g.rsvd, g.align, dumps) + Slot(|dumps|, g.nameMax) <= g.limit && !Completes(g, dumps)
  {
    var g, ds := Region(0, 110, 32, 20), [Dump([], Fill(32, 0))];
    assert ds[..0] == [];
    assert Next(g.rsvd, g.align, []) == 32;
    assert Next(g.rsvd, g.align, ds) == 64;
    assert RoundUp(12, 8) == 16;
    assert Slot(1, 20) == 40;
    assert Narrow(g, ds) && !Completes(g, ds);
  }

  lemma {:induction false} RoundUpWhole(n: nat, b: nat)
    requires 0 < b && IsMultiple(n, b)
    ensures RoundUp(n, b) == n
  {
    if b < n {
      RoundUpWhole(n - b, b);
    }
  }

  /** The check passes for a table of more than 4 GiB. */
  lemma WideCompletes()
    ensures exists g: Region, dumps: seq<Dump> ::
              0 < g.align && |dumps| < 0x1_0000_0000 && Completes(g, dumps) && !Narrow(g, dumps)
  {
    var g, ds := Region(0, 0x1_0000_0100, 32, 20), [Dump([], Fill(0x1_0000_0000, 0))];
    assert ds[..0] == [];
    assert Next(g.rsvd, g.align, []) == 32;
    MultipleMeaning(0x1_0000_0020, 32);
    RoundUpWhole(0x1_0000_0020, 32);
    assert Next(g.rsvd, g.align, ds) == 0x1_0000_0020;
    assert RoundUp(12, 8) == 16;
    assert Slot(1, 20) == 40;
    assert Completes(g, ds) && !Narrow(g, ds);
  }

  lemma TotalIs(g: Region, curr: nat, n: nat, end: nat, total: nat)
    requires g.rsvd <= curr && end == curr - g.rsvd + Slot(n, g.nameMax) && total == Total(g.rsvd, curr, n, g.nameMax)
    ensures total < 0x1_0000_0000 && (total == end <==> Exact(g, curr, n))
  {
    Wraps(end, total);
  }

  lemma ListFits(g: Region, curr: nat, n: nat)
    requires g.rsvd <= curr && SizeOk(g, curr, n) && Exact(g, curr, n)
    ensures curr + Slot(n, g.nameMax) <= g.limit
    ensures Total(g.rsvd, curr, n, g.nameMax) == curr - g.rsvd + Slot(n, g.nameMax)
  {}

  /** The memory with the list at `lo` and the header in place. */
  function WithHeader(bytes: seq<byte>, lo: nat, list: seq<byte>, nos: nat, total: nat): seq<byte> {
    Splice(Splice(bytes, lo, list), 0, HeaderBytes(nos, total, lo))
  }

  lemma FinishStep(g: Region, base: seq<byte>, bytes: seq<byte>, list: seq<byte>, lo: nat, log: Log, total: nat)
    requires Configured(g, bytes) && Inside(g, base, bytes)
    requires Collected(bytes, list, 0, PlaceOf(g), log, lo)
    requires |list| == Slot(Count(log), g.nameMax) && HEADER_SIZE <= lo
    requires lo + |list| <= g.limit - g.rsvd && total == lo + |list| < 0x1_0000_0000
    ensures var t := WithHeader(bytes, lo, list, Count(log), total);
            Sound(t, PlaceOf(g), DumpsOf(log)) && HasMagic(t) && Inside(g, base, t)
  {
    var t, p := Splice(bytes, lo, list), PlaceOf(g);
    var h := HeaderBytes(Count(log), total, lo);
    SpliceHolds(bytes, lo, list);
    SpliceHolds(t, 0, h);
    CollectedMoved(bytes, t, list, 0, t, lo, p, log, lo, lo);
    CollectedMoved(t, Splice(t, 0, h), t, lo, Splice(t, 0, h), lo, p, log, lo, lo);
    ContainerReads(Splice(t, 0, h), lo, p, log, lo, total);
    InsideKept(g, base, bytes, lo, list);
    InsideKept(g, base, Splice(bytes, lo, list), 0, HeaderBytes(Count(log), total, lo));
  }

  /** What a run that succeeds leaves: the header, and the list behind the dumps, even
      where that is beyond the region; and the list leads to every dump. */
  ghost predicate Stored(g: Region, base: seq<byte>, bytes: seq<byte>, list: seq<byte>, lo: nat, total: nat,
                         dumps: seq<Dump>)
    requires g.rsvd <= g.limit
  {
    && |base| == |bytes| && |list| == Slot(|dumps|, g.nameMax)
    && WithHeader(bytes, lo, list, |dumps|, total) == bytes
    && SameOn(base, bytes, Max(Max(HEADER_SIZE, g.limit - g.rsvd), lo + |list|), |base|)
    && (lo + |list| <= |bytes| ==> ReadDumps(bytes, lo, g.nameMax, |dumps|) == Some(dumps))
  }

  lemma HeaderOver(bytes: seq<byte>, lo: nat, list: seq<byte>, nos: nat, total: nat, t: seq<byte>)
    requires HEADER_SIZE <= |bytes| && HEADER_SIZE <= lo && t == WithHeader(bytes, lo, list, nos, total)
    ensures |t| == |bytes| && HoldsAt(t, 0, HeaderBytes(nos, total, lo))
    ensures SameOn(bytes, t, HEADER_SIZE, Min(lo, |bytes|))
    ensures WithHeader(t, lo, list, nos, total) == t
    ensures lo + |list| <= |t| ==> SameOn(bytes, t, lo + |list|, |t|) && SameShifted(list, 0, t, lo, |list|)
  {
    SpliceHolds(Splice(bytes, lo, list), 0, HeaderBytes(nos, total, lo));
  }

  lemma StoredStep(g: Region, base: seq<byte>, bytes: seq<byte>, list: seq<byte>, lo: nat, log: Log, n: nat, total: nat,
                   t: seq<byte>)
    requires Configured(g, bytes) && Inside(g, base, bytes) && Collected(bytes, list, 0, PlaceOf(g), log, lo)
    requires n == Count(log) && |list| == Slot(n, g.nameMax) && HEADER_SIZE <= lo <= g.limit - g.rsvd
    requires t == WithHeader(bytes, lo, list, n, total)
    ensures Stored(g, base, t, list, lo, total, DumpsOf(log))
  {
    HeaderOver(bytes, lo, list, n, total, t);
    if lo + |list| <= |t| {
      CollectedMoved(bytes, t, list, 0, t, lo, PlaceOf(g), log, lo, lo);
      ListReads(t, lo, PlaceOf(g), log, lo);
    }
  }

  lemma HeaderIn(bytes: seq<byte>, lo: nat, list: seq<byte>, nos: nat, total: nat)
    requires HEADER_SIZE <= |bytes| && WithHeader(bytes, lo, list, nos, total) == bytes
    ensures HoldsAt(bytes, 0, HeaderBytes(nos, total, lo))
  {
    SpliceHolds(Splice(bytes, lo, list), 0, HeaderBytes(nos, total, lo));
  }

  /** The header leads to the list, and its total, in 32 bits, is where the list ends
      exactly if that is before 4 GiB. */
  lemma StoredTotal(g: Region, base: seq<byte>, bytes: seq<byte>, list: seq<byte>, lo: nat, end: nat, total: nat,
                    dumps: seq<Dump>)
    requires g.rsvd <= g.limit && Stored(g, base, bytes, list, lo, total, dumps) && HEADER_SIZE <= |bytes|
    requires end == lo + |list| && total == end % 0x1_0000_0000
    requires |dumps| < 0x1_0000_0000 && lo < 0x1_0000_0000_0000_0000
    ensures HasMagic(bytes) && FieldAt(bytes, 8, 4) == |dumps| && FieldAt(bytes, 16, 8) == lo
    ensures FieldAt(bytes, 12, 4) == FieldAt(bytes, 16, 8) + Slot(FieldAt(bytes, 8, 4), g.nameMax)
            <==> end < 0x1_0000_0000
    ensures 0x1_0000_0000 <= end ==> Parse(bytes, g.nameMax) == None
  {
    HeaderIn(bytes, lo, list, |dumps|, total);
    TotalRight(bytes, g.nameMax, |dumps|, lo, end, total);
  }

  /** The check passes for a table whose list does not end in the region. */
  lemma ListPastLimit()
    ensures exists g: Region, dumps: seq<Dump> ::
              0 < g.align && |dumps| < 0x1_0000_0000 && Completes(g, dumps)
              && Next(g.rsvd, g.align, dumps) <= g.limit < Next(g.rsvd, g.align, dumps) + Slot(|dumps|, g.nameMax)
  {
    var g, ds := Region(0, 0xFFFF_FFE8, 32, 20), [Dump([], Fill(0xFFFF_FFC0, 0))];
    assert ds[..0] == [];
    assert Next(g.rsvd, g.align, []) == 32;
    MultipleMeaning(0xFFFF_FFE0, 32);
    RoundUpWhole(0xFFFF_FFE0, 32);
    assert Next(g.rsvd, g.align, ds) == 0xFFFF_FFE0;
    assert RoundUp(12, 8) == 16;
    assert Slot(1, 20) == 40;
    assert Completes(g, ds);
  }

  /** A dump that would end beyond the limit decides the outcome. */
  lemma TooFar(g: Region, dumps: seq<Dump>, k: nat, curr: nat)
    requires 0 < g.align && k < |dumps| && curr == Next(g.rsvd, g.align, dumps[..k])
    requires g.limit < RoundUp(curr + |dumps[k].data|, g.align)
    ensures !Completes(g, dumps)
  {
    NextPrefix(dumps, k);
    NextAfter(g, dumps[..k], dumps[k]);
    NextGrows(g.rsvd, g.align, dumps, k + 1);
  }

  lemma NextPrefix<T>(s: seq<T>, i: nat)
    requires i < |s|
    ensures s[..i + 1] == s[..i] + [s[i]]
  {}

  /** The container is there, and no state before it had a part of it. */
  ghost predicate Complete(g: Region, base: seq<byte>, bytes: seq<byte>, history: seq<seq<byte>>, mark: nat,
                           dumps: seq<Dump>)
    requires g.rsvd <= g.limit && 0 < g.align
  {
    && HasMagic(bytes) && Sound(bytes, PlaceOf(g), dumps)
    && Inside(g, base, bytes)
    && Always(SoundBy(PlaceOf(g), dumps), history, mark)
  }

  lemma LastStep(g: Region, base: seq<byte>, bytes: seq<byte>, list: seq<byte>, lo: nat, log: Log, total: nat,
                 mark: nat, history: seq<seq<byte>>)
    requires Configured(g, bytes) && Inside(g, base, bytes)
    requires Collected(bytes, list, 0, PlaceOf(g), log, lo)
    requires |list| == Slot(Count(log), g.nameMax) && HEADER_SIZE <= lo
    requires lo + |list| <= g.limit - g.rsvd && total == lo + |list| < 0x1_0000_0000
    requires Quiet(history, mark)
    ensures var t := WithHeader(bytes, lo, list, Count(log), total);
            Complete(g, base, t, history + [t], mark, DumpsOf(log))
  {
    FinishStep(g, base, bytes, list, lo, log, total);
    var t := WithHeader(bytes, lo, list, Count(log), total);
    QuietIsSound(history, mark, PlaceOf(g), DumpsOf(log));
    AlwaysAdds(SoundBy(PlaceOf(g), DumpsOf(log)), history, mark, t, history + [t]);
  }

  class MemDump {
    const ram: Ram
    const g: Region
    var curr: nat        // dump2mem_curr_addr
    var nos: nat         // memdump_hdr.nos_memdumps
    var list: seq<byte>  // memdump_list
    ghost var log: Log
    ghost var mark: nat
    ghost var base: seq<byte>

    ghost predicate Valid()
      reads this, ram
    {
      && Collecting(g, base, ram.bytes, list, curr, log)
      && Quiet(ram.history, mark)
      && nos == Count(log)
    }

    constructor (ram: Ram, g: Region)
      ensures this.ram == ram && this.g == g
    {
      this.ram, this.g := ram, g;
    }

    /** Wipes the header and allocates the list for `n` dumps, with any contents. */
    method Begin(n: nat)
      requires Configured(g, ram.bytes)
      modifies this, ram
      ensures Valid() && DumpsOf(log) == [] && |list| == Slot(n, g.nameMax)
      ensures mark == |old(ram.history)| && base == old(ram.bytes)
      ensures ram.bytes == Splice(old(ram.bytes), 0, Fill(32, 0xFF))
    {
      mark, base := |ram.history|, ram.bytes;
      QuietCopy(ram, 0, Fill(HEADER_SIZE, 0xFF), mark);
      curr := RoundUp(g.rsvd + HEADER_SIZE, g.align);
      nos, log := 0, Start;
      assert |Fill(Slot(n, g.nameMax), 0)| == Slot(n, g.nameMax);
      var garbage: seq<byte> :| |garbage| == Slot(n, g.nameMax);
      list := garbage;
    }

    /** One entry of the dump table: its record is filled in, then its bytes are
        copied if they end inside the region. */
    method DumpOne(d: Dump) returns (ok: bool)
      requires Valid() && CName(d.name, g.nameMax) && Slot(nos + 1, g.nameMax) <= |list|
      modifies this, ram
      ensures ok <==> RoundUp(old(curr) + |d.data|, g.align) <= g.limit
      ensures ok ==> Valid() && DumpsOf(log) == DumpsOf(old(log)) + [d]
      ensures !ok ==> ram.bytes == old(ram.bytes) && ram.history == old(ram.history) && curr == old(curr)
      ensures mark == old(mark) && base == old(base) && |list| == |old(list)|
    {
      var next := RoundUp(curr + |d.data|, g.align);
      ghost var e := Entry(d.name, curr - g.rsvd, |d.data|);
      ghost var log', bytes' := Then(log, e, d), Splice(ram.bytes, e.offset, d.data);
      ok := next <= g.limit;
      if ok {
        DumpStep(g, base, ram.bytes, curr, log, e, d, next, bytes', log');
      }
      Record(d, e, log');
      if ok {
        CopyIn(d.data, next, bytes', log');
      }
    }

    /** The record of a dump. */
    method Record(d: Dump, ghost e: Entry, ghost log': Log)
      requires g.rsvd <= curr && nos == Count(log) && e == Entry(d.name, curr - g.rsvd, |d.data|)
      requires ListAt(list, 0, g.nameMax, log) && CName(d.name, g.nameMax) && Slot(nos + 1, g.nameMax) <= |list|
      requires log' == Then(log, e, d)
      modifies this`list, this`nos
      ensures |list| == |old(list)| && nos == Count(log')
      ensures Legal(e, g.nameMax) ==> ListAt(list, 0, g.nameMax, log')
    {
      if Legal(e, g.nameMax) {
        ListNext(list, g.nameMax, log, e, d, PutEntry(list, nos, g.nameMax, e));
      }
      list := PutEntry(list, nos, g.nameMax, Entry(d.name, curr - g.rsvd, |d.data|));
      nos := nos + 1;
    }

    /** The copy of one dump that fits, when its record is in the list; `bytes'` and `log'`
        are then the memory and the log. */
    method CopyIn(data: seq<byte>, next: nat, ghost bytes': seq<byte>, ghost log': Log)
      requires 0 < curr - g.rsvd && Wiped(ram.bytes) && bytes' == Splice(ram.bytes, curr - g.rsvd, data)
      requires Safe(g, base, bytes') && Reached(g, next, log') && Placed(bytes', PlaceOf(g), log', next - g.rsvd)
      requires Quiet(ram.history, mark) && nos == Count(log') && ListAt(list, 0, g.nameMax, log')
      modifies this`curr, this`log, ram
      ensures Valid() && log == log'
    {
      QuietCopy(ram, curr - g.rsvd, data, mark);
      curr := next;
      log := log';
    }

    /** The end of a run in which every dump was taken: the size check, the list,
        and the header as one step. */
    method Finish(ghost dumps: seq<Dump>, ghost data: seq<byte>) returns (ok: bool, lo: nat, total: nat)
      requires Valid() && |list| == Slot(nos, g.nameMax) && DumpsOf(log) == dumps && data == list
      modifies ram
      ensures ok <==> SizeOk(g, curr, nos)
      ensures lo == curr - g.rsvd && total == Total(g.rsvd, curr, nos, g.nameMax)
      ensures !ok ==> ram.bytes == old(ram.bytes) && ram.history == old(ram.history)
      ensures ok ==> HasMagic(ram.bytes) && QuietBut(ram.history, mark)
      ensures ok && Exact(g, curr, nos) ==> Complete(g, base, ram.bytes, ram.history, mark, dumps)
      ensures ok ==> Stored(g, base, ram.bytes, data, lo, total, dumps)
      ensures ok && !Exact(g, curr, nos) && nos < 0x1_0000_0000 ==> Parse(ram.bytes, g.nameMax) == None
    {
      lo, total := curr - g.rsvd, Total(g.rsvd, curr, nos, g.nameMax);
      TotalIs(g, curr, nos, lo + |data|, total);
      ok := curr + total <= g.limit;
      if ok {
        PutListAndHeader(total, lo, dumps, data);
        if Exact(g, curr, nos) {
          ListFits(g, curr, nos);
        }
      }
    }

    /** Copies the list in after the dumps, then the header. */
    method PutListAndHeader(total: nat, lo: nat, ghost dumps: seq<Dump>, ghost data: seq<byte>)
      requires Valid() && lo == curr - g.rsvd && curr <= g.limit && |list| == Slot(nos, g.nameMax)
      requires DumpsOf(log) == dumps && data == list && total < 0x1_0000_0000
      modifies ram
      ensures HasMagic(ram.bytes) && QuietBut(ram.history, mark)
      ensures lo + |data| <= g.limit - g.rsvd && total == lo + |data| ==>
        Complete(g, base, ram.bytes, ram.history, mark, dumps)
      ensures Stored(g, base, ram.bytes, data, lo, total, dumps)
      ensures nos < 0x1_0000_0000 && total != lo + |data| ==> Parse(ram.bytes, g.nameMax) == None
    {
      ghost var was := ram.bytes;
      QuietCopy(ram, lo, list, mark);
      ghost var history := ram.history;
      ram.Store(0, HeaderBytes(nos, total, lo));
      HeaderOver(was, lo, list, nos, total, ram.bytes);
      HeaderMagic(ram.bytes, nos, total, lo);
      assert ram.history[..|ram.history| - 1] == history;
      if lo + |list| <= g.limit - g.rsvd && total == lo + |list| {
        LastStep(g, base, was, list, lo, log, total, mark, history);
      }
      StoredStep(g, base, was, list, lo, log, nos, total, ram.bytes);
      if nos < 0x1_0000_0000 {
        HeaderReads(ram.bytes, nos, total, lo);
      }
    }
  }

  ghost predicate Storable(dumps: seq<Dump>, nameMax: nat) {
    forall i :: 0 <= i < |dumps| ==> CName(dumps[i].name, nameMax)
  }

  /** The loop over the dump table. */
  method TakeAll(m: MemDump, dumps: seq<Dump>) returns (ok: bool)
    requires Configured(m.g, m.ram.bytes) && Storable(dumps, m.g.nameMax)
    modifies m, m.ram
    ensures m.mark == |old(m.ram.history)| && m.base == old(m.ram.bytes)
    ensures ok ==> m.Valid() && DumpsOf(m.log) == dumps && |m.list| == Slot(m.nos, m.g.nameMax)
    ensures Quiet(m.ram.history, m.mark) && Wiped(m.ram.bytes) && Inside(m.g, m.base, m.ram.bytes)
    ensures !ok ==> !Completes(m.g, dumps)
  {
    m.Begin(|dumps|);
    var i := 0;
    while i < |dumps|
      invariant 0 <= i <= |dumps| && m.Valid() && DumpsOf(m.log) == dumps[..i]
      invariant m.mark == |old(m.ram.history)| && m.base == old(m.ram.bytes)
      invariant |m.list| == Slot(|dumps|, m.g.nameMax)
    {
      SlotGrows(i + 1, |dumps|, m.g.nameMax);
      ok := m.DumpOne(dumps[i]);
      if !ok {
        TooFar(m.g, dumps, i, m.curr);
        return;
      }
      NextPrefix(dumps, i);
      i := i + 1;
    }
    assert dumps[..i] == dumps;
    ok := true;
  }

  /** A whole run over a dump table. It succeeds exactly when the size check says so, and
      then leaves a header that leads to the list and to every dump; if not, nothing
      beyond the region has changed. No state but the last shows a header. If dumps and
      list are smaller than 4 GiB there is no container or all of it in every state, and
      nothing beyond the region changes. From 4 GiB on the recorded total is not where
      the list ends, and the list may have been copied to memory beyond the region. */
  method Run(m: MemDump, dumps: seq<Dump>) returns (ok: bool, ghost list: seq<byte>, ghost lo: nat, ghost total: nat)
    requires Configured(m.g, m.ram.bytes) && Storable(dumps, m.g.nameMax)
    modifies m, m.ram
    ensures ok <==> Completes(m.g, dumps)
    ensures var end := Next(m.g.rsvd, m.g.align, dumps);
            var size := end - m.g.rsvd + |dumps| * EntrySize(m.g.nameMax);
            ok <==> end + size % 0x1_0000_0000 <= m.g.limit
    ensures ok <==> HasMagic(m.ram.bytes)
    ensures if ok then QuietBut(m.ram.history, |old(m.ram.history)|) else Quiet(m.ram.history, |old(m.ram.history)|)
    ensures !ok || Narrow(m.g, dumps) ==>
      && Always(SoundBy(PlaceOf(m.g), dumps), m.ram.history, |old(m.ram.history)|)
      && Sound(m.ram.bytes, PlaceOf(m.g), dumps)
      && Inside(m.g, old(m.ram.bytes), m.ram.bytes)
    ensures ok ==> var curr := Next(m.g.rsvd, m.g.align, dumps);
                   lo == curr - m.g.rsvd && total == Total(m.g.rsvd, curr, |dumps|, m.g.nameMax)
    ensures ok ==> Stored(m.g, old(m.ram.bytes), m.ram.bytes, list, lo, total, dumps)
    ensures ok && !Narrow(m.g, dumps) && |dumps| < 0x1_0000_0000 ==> Parse(m.ram.bytes, m.g.nameMax) == None
  {
    SizeCheck(m.g, dumps, |dumps| * EntrySize(m.g.nameMax));
    ok := TakeAll(m, dumps);
    WipedHasNoMagic(m.ram.bytes);
    QuietIsSound(m.ram.history, m.mark, PlaceOf(m.g), dumps);
    list, lo, total := [], 0, 0;
    if ok {
      list := m.list;
      ok, lo, total := m.Finish(dumps, list);
    }
  }
}
