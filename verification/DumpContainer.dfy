/** The format that a memory or flash crash dump leaves behind: a header, the dumps,
    and an index list (arch/arm/mach-ipq/cmd_crashdump.c). */
module DumpContainer {
  import opened Common
  import opened Bytes

  const MAGIC1: nat := 0x4D494E49
  const MAGIC2: nat := 0x44554D50
  const HEADER_SIZE: nat := 32

  datatype Dump = Dump(name: seq<byte>, data: seq<byte>)

  /** One record of the index list, memdump_list_info_t. */
  datatype Entry = Entry(name: seq<byte>, offset: nat, size: nat)

  // ----- the header -----

  function MagicBytes(): (s: seq<byte>)
    ensures |s| == 8
  {
    Le(4, MAGIC1) + Le(4, MAGIC2)
  }

  function HeaderBytes(nos: nat, total: nat, listOffset: nat): (s: seq<byte>)
    ensures |s| == HEADER_SIZE
  {
    MagicBytes() + (Le(4, nos) + (Le(4, total) + (Le(8, listOffset) + Fill(8, 0))))
  }

  lemma MagicStarts()
    ensures MagicBytes()[0] == 0x49 && MagicBytes()[1] == 0x4E
  {}

  predicate HasMagic(s: seq<byte>) {
    |s| >= HEADER_SIZE && forall i :: 0 <= i < 8 ==> s[i] == MagicBytes()[i]
  }

  /** A first byte of 0xFF, as a wipe or an erase leaves it, is no magic. */
  lemma WipedHasNoMagic(s: seq<byte>)
    requires |s| > 0 && s[0] == 0xFF
    ensures !HasMagic(s)
  {
    assert MagicBytes()[0] == 0x49;
  }

  lemma HeaderMagic(s: seq<byte>, nos: nat, total: nat, listOffset: nat)
    requires HoldsAt(s, 0, HeaderBytes(nos, total, listOffset))
    ensures HasMagic(s)
  {
    HeldParts(s, 0, MagicBytes(), Le(4, nos) + (Le(4, total) + (Le(8, listOffset) + Fill(8, 0))));
    forall i | 0 <= i < 8 ensures s[i] == MagicBytes()[i] {
      assert s[0 + i] == MagicBytes()[i];
    }
  }

  lemma HeaderReads(s: seq<byte>, nos: nat, total: nat, listOffset: nat)
    requires HoldsAt(s, 0, HeaderBytes(nos, total, listOffset))
    requires nos < 0x1_0000_0000 && total < 0x1_0000_0000 && listOffset < 0x1_0000_0000_0000_0000
    ensures HasMagic(s)
    ensures FieldAt(s, 8, 4) == nos && FieldAt(s, 12, 4) == total && FieldAt(s, 16, 8) == listOffset
  {
    var d := Le(8, listOffset) + Fill(8, 0);
    var c := Le(4, total) + d;
    var b := Le(4, nos) + c;
    HeaderMagic(s, nos, total, listOffset);
    HeldParts(s, 0, MagicBytes(), b);
    HeldParts(s, 8, Le(4, nos), c);
    HeldParts(s, 12, Le(4, total), d);
    HeldParts(s, 16, Le(8, listOffset), Fill(8, 0));
    Pow256Values();
    FieldHeld(s, 8, 4, nos);
    FieldHeld(s, 12, 4, total);
    FieldHeld(s, 16, 8, listOffset);
  }

  // ----- the index list -----

  /** Where the integers of a record start: the name has `nameMax` bytes, and 64-bit
      integers are aligned. */
  function Width(nameMax: nat): (w: nat)
    ensures nameMax <= w < nameMax + 8 && w % 8 == 0
  {
    MultipleMeaning(RoundUp(nameMax, 8), 8);
    RoundUp(nameMax, 8)
  }

  /** The record size: the name field, two 64-bit integers. */
  function EntrySize(nameMax: nat): nat {
    Width(nameMax) + 16
  }

  /** A name that strlcpy stores whole in `nameMax` bytes. */
  predicate CName(name: seq<byte>, nameMax: nat) {
    |name| < nameMax && forall i :: 0 <= i < |name| ==> name[i] != 0
  }

  /** The bytes before the first NUL of a field of `n` bytes. */
  function CString(s: seq<byte>, at: nat, n: nat): seq<byte>
    decreases n
  {
    if n == 0 || |s| <= at || s[at] == 0 then [] else [s[at]] + CString(s, at + 1, n - 1)
  }

  lemma {:induction false} CStringHeld(s: seq<byte>, at: nat, n: nat, name: seq<byte>)
    requires CName(name, n) && HoldsAt(s, at, name + [0])
    ensures CString(s, at, n) == name
    decreases n
  {
    HeldParts(s, at, name, [0]);
    assert s[at + |name| + 0] == [0][0];
    if name != [] {
      assert s[at + 0] == name[0];
      assert name + [0] == [name[0]] + (name[1..] + [0]);
      HeldParts(s, at, [name[0]], name[1..] + [0]);
      CStringHeld(s, at + 1, n - 1, name[1..]);
    }
  }

  ghost predicate Legal(e: Entry, nameMax: nat) {
    CName(e.name, nameMax) && e.offset < 0x1_0000_0000_0000_0000 && e.size < 0x1_0000_0000_0000_0000
  }

  ghost predicate EntryHolds(s: seq<byte>, at: nat, nameMax: nat, e: Entry) {
    && Legal(e, nameMax)
    && HoldsAt(s, at, e.name + [0])
    && HoldsAt(s, at + Width(nameMax), Le(8, e.offset))
    && HoldsAt(s, at + Width(nameMax) + 8, Le(8, e.size))
  }

  function ReadEntry(s: seq<byte>, at: nat, nameMax: nat): Entry {
    Entry(CString(s, at, nameMax), FieldAt(s, at + Width(nameMax), 8), FieldAt(s, at + Width(nameMax) + 8, 8))
  }

  lemma EntryReads(s: seq<byte>, at: nat, nameMax: nat, e: Entry)
    requires EntryHolds(s, at, nameMax, e)
    ensures ReadEntry(s, at, nameMax) == e
  {
    Pow256Values();
    CStringHeld(s, at, nameMax, e.name);
    FieldHeld(s, at + Width(nameMax), 8, e.offset);
    FieldHeld(s, at + Width(nameMax) + 8, 8, e.size);
  }

  /** Where record number `n` starts. */
  function Slot(n: nat, nameMax: nat): nat {
    if n == 0 then 0 else Slot(n - 1, nameMax) + EntrySize(nameMax)
  }

  lemma {:induction false} SlotIsProduct(n: nat, nameMax: nat)
    ensures Slot(n, nameMax) == n * EntrySize(nameMax)
  {
    if n > 0 {
      SlotIsProduct(n - 1, nameMax);
    }
  }

  lemma {:induction false} SlotGrows(n: nat, m: nat, nameMax: nat)
    requires n <= m
    ensures Slot(n, nameMax) <= Slot(m, nameMax)
  {
    if n < m {
      SlotGrows(n, m - 1, nameMax);
    }
  }

  lemma {:induction false} SlotAtLeast(n: nat, nameMax: nat)
    ensures n <= Slot(n, nameMax)
  {
    if n > 0 {
      SlotAtLeast(n - 1, nameMax);
    }
  }

  lemma EntryMoved(s: seq<byte>, at: nat, t: seq<byte>, at': nat, lo: nat, lo': nat, len: nat, nameMax: nat, e: Entry)
    requires EntryHolds(s, at, nameMax, e) && SameShifted(s, lo, t, lo', len)
    requires lo <= at && at - lo == at' - lo' && at + EntrySize(nameMax) <= lo + len
    ensures EntryHolds(t, at', nameMax, e)
  {
    HeldMoved(s, at, t, at', lo, lo', len, e.name + [0]);
    HeldMoved(s, at + Width(nameMax), t, at' + Width(nameMax), lo, lo', len, Le(8, e.offset));
    HeldMoved(s, at + Width(nameMax) + 8, t, at' + Width(nameMax) + 8, lo, lo', len, Le(8, e.size));
  }

  /** Fills in record number `i`: the name with its NUL, the offset, the size. What
      the list held elsewhere stays. */
  function PutEntry(list: seq<byte>, i: nat, nameMax: nat, e: Entry): (r: seq<byte>)
    ensures |r| == |list|
  {
    PutAt(list, Slot(i, nameMax), nameMax, e)
  }

  function PutAt(list: seq<byte>, at: nat, nameMax: nat, e: Entry): seq<byte> {
    Splice(Splice(Splice(list, at, e.name + [0]), at + Width(nameMax), Le(8, e.offset)),
           at + Width(nameMax) + 8, Le(8, e.size))
  }

  lemma EntryPut(list: seq<byte>, at: nat, nameMax: nat, e: Entry)
    requires at + EntrySize(nameMax) <= |list| && Legal(e, nameMax)
    ensures EntryHolds(PutAt(list, at, nameMax, e), at, nameMax, e)
    ensures |PutAt(list, at, nameMax, e)| == |list| && SameShifted(list, 0, PutAt(list, at, nameMax, e), 0, at)
  {
    var a := Splice(list, at, e.name + [0]);
    var b := Splice(a, at + Width(nameMax), Le(8, e.offset));
    var c := Splice(b, at + Width(nameMax) + 8, Le(8, e.size));
    SpliceHolds(list, at, e.name + [0]);
    SpliceHolds(a, at + Width(nameMax), Le(8, e.offset));
    SpliceHolds(b, at + Width(nameMax) + 8, Le(8, e.size));
    HeldSame(a, b, 0, at + Width(nameMax), at, e.name + [0]);
    HeldSame(b, c, 0, at + Width(nameMax) + 8, at, e.name + [0]);
    HeldSame(b, c, 0, at + Width(nameMax) + 8, at + Width(nameMax), Le(8, e.offset));
  }

  // ----- dumps and list under construction -----

  /** The dumps taken so far with their records, the last one outermost. */
  datatype Log = Start | Then(before: Log, e: Entry, d: Dump)

  function Count(log: Log): nat {
    match log
    case Start => 0
    case Then(before, _, _) => Count(before) + 1
  }

  function DumpsOf(log: Log): (ds: seq<Dump>)
    ensures |ds| == Count(log)
  {
    match log
    case Start => []
    case Then(before, _, d) => DumpsOf(before) + [d]
  }

  function EntriesOf(log: Log): (es: seq<Entry>)
    ensures |es| == Count(log)
  {
    match log
    case Start => []
    case Then(before, e, _) => EntriesOf(before) + [e]
  }

  /** Where dumps may lie: from `start` on, at multiples of `align` counted from
      `-base`; names are stored in `nameMax` bytes. */
  datatype Place = Place(base: nat, start: nat, align: nat, nameMax: nat)

  /** A record names a dump, which lies where the record says. */
  ghost predicate Describes(s: seq<byte>, e: Entry, d: Dump) {
    e.name == d.name && e.size == |d.data| && HoldsAt(s, e.offset, d.data)
  }

  /** The dumps lie in `s`, one after the other and before `end`, each at an aligned
      address. */
  ghost predicate Placed(s: seq<byte>, p: Place, log: Log, end: nat)
    requires 0 < p.align
  {
    match log
    case Start => p.start <= end
    case Then(before, e, d) =>
      && Placed(s, p, before, e.offset)
      && Describes(s, e, d)
      && IsMultiple(p.base + e.offset, p.align)
      && e.offset + e.size <= end
  }

  /** The list that starts at `lo` has the records. */
  ghost predicate ListAt(list: seq<byte>, lo: nat, nameMax: nat, log: Log) {
    match log
    case Start => true
    case Then(before, e, _) =>
      && ListAt(list, lo, nameMax, before)
      && EntryHolds(list, lo + Slot(Count(before), nameMax), nameMax, e)
  }

  ghost predicate Collected(s: seq<byte>, list: seq<byte>, lo: nat, p: Place, log: Log, end: nat)
    requires 0 < p.align
  {
    Placed(s, p, log, end) && ListAt(list, lo, p.nameMax, log)
  }

  lemma {:induction false} StartsBefore(s: seq<byte>, p: Place, log: Log, end: nat)
    requires 0 < p.align && Placed(s, p, log, end)
    ensures p.start <= end
  {
    if log.Then? {
      StartsBefore(s, p, log.before, log.e.offset);
    }
  }

  lemma DumpMoved(s: seq<byte>, t: seq<byte>, lo: nat, hi: nat, e: Entry, d: Dump)
    requires Describes(s, e, d) && SameOn(s, t, lo, hi) && lo <= e.offset && e.offset + e.size <= hi
    ensures Describes(t, e, d)
  {
    HeldSame(s, t, lo, hi, e.offset, d.data);
  }

  /** Only the bytes of the dumps matter, */
  lemma {:induction false} PlacedMoved(s: seq<byte>, t: seq<byte>, p: Place, log: Log, end: nat, hi: nat)
    requires 0 < p.align && Placed(s, p, log, end) && end <= hi && SameOn(s, t, p.start, hi)
    ensures Placed(t, p, log, end)
  {
    if log.Then? {
      StartsBefore(s, p, log.before, log.e.offset);
      DumpMoved(s, t, p.start, hi, log.e, log.d);
      PlacedMoved(s, t, p, log.before, log.e.offset, hi);
    }
  }

  /** and those of the list. */
  lemma {:induction false} ListMoved(list: seq<byte>, lo: nat, list': seq<byte>, lo': nat, nameMax: nat, log: Log,
                                     n: nat)
    requires ListAt(list, lo, nameMax, log) && n == Count(log)
    requires SameShifted(list, lo, list', lo', Slot(n, nameMax))
    ensures ListAt(list', lo', nameMax, log)
  {
    if log.Then? {
      var at := Slot(n - 1, nameMax);
      ListMoved(list, lo, list', lo', nameMax, log.before, n - 1);
      LastMoved(list, lo, list', lo', nameMax, log, at);
    }
  }

  lemma LastMoved(list: seq<byte>, lo: nat, list': seq<byte>, lo': nat, nameMax: nat, log: Log, at: nat)
    requires log.Then? && ListAt(list, lo, nameMax, log) && at == Slot(Count(log.before), nameMax)
    requires SameShifted(list, lo, list', lo', at + EntrySize(nameMax)) && ListAt(list', lo', nameMax, log.before)
    ensures ListAt(list', lo', nameMax, log)
  {
    EntryMoved(list, lo + at, list', lo' + at, lo, lo', at + EntrySize(nameMax), nameMax, log.e);
  }

  lemma CollectedMoved(s: seq<byte>, t: seq<byte>, list: seq<byte>, lo: nat, list': seq<byte>, lo': nat,
                       p: Place, log: Log, end: nat, hi: nat)
    requires 0 < p.align && Collected(s, list, lo, p, log, end)
    requires end <= hi && SameOn(s, t, p.start, hi)
    requires SameShifted(list, lo, list', lo', Slot(Count(log), p.nameMax))
    ensures Collected(t, list', lo', p, log, end)
  {
    PlacedMoved(s, t, p, log, end, hi);
    ListMoved(list, lo, list', lo', p.nameMax, log, Count(log));
  }

  /** The next dump, */
  lemma PlacedNext(s: seq<byte>, t: seq<byte>, p: Place, log: Log, e: Entry, d: Dump, end: nat)
    requires 0 < p.align && Placed(s, p, log, e.offset) && SameOn(s, t, p.start, e.offset) && Describes(t, e, d)
    requires IsMultiple(p.base + e.offset, p.align) && e.offset + e.size <= end
    ensures Placed(t, p, Then(log, e, d), end)
  {
    PlacedMoved(s, t, p, log, e.offset, e.offset);
  }

  /** and its record. */
  lemma ListNext(list: seq<byte>, nameMax: nat, log: Log, e: Entry, d: Dump, list': seq<byte>)
    requires ListAt(list, 0, nameMax, log) && Legal(e, nameMax) && Slot(Count(log) + 1, nameMax) <= |list|
    requires list' == PutEntry(list, Count(log), nameMax, e)
    ensures ListAt(list', 0, nameMax, Then(log, e, d))
  {
    EntryPut(list, Slot(Count(log), nameMax), nameMax, e);
    ListMoved(list, 0, list', 0, nameMax, log, Count(log));
  }

  lemma CollectedNext(s: seq<byte>, t: seq<byte>, list: seq<byte>, p: Place, log: Log, e: Entry, d: Dump, end: nat)
    requires 0 < p.align && Collected(s, list, 0, p, log, e.offset)
    requires SameOn(s, t, p.start, e.offset) && Describes(t, e, d)
    requires Legal(e, p.nameMax) && Slot(Count(log) + 1, p.nameMax) <= |list|
    requires IsMultiple(p.base + e.offset, p.align) && e.offset + e.size <= end
    ensures Collected(t, PutEntry(list, Count(log), p.nameMax, e), 0, p, Then(log, e, d), end)
  {
    PlacedNext(s, t, p, log, e, d, end);
    ListNext(list, p.nameMax, log, e, d, PutEntry(list, Count(log), p.nameMax, e));
  }

  // ----- reading the container back -----

  /** The dump that the record at `at` names, if both are in bounds. */
  function ReadDump(s: seq<byte>, at: nat, nameMax: nat): Option<Dump> {
    if |s| < at + EntrySize(nameMax) then None else
    var e := ReadEntry(s, at, nameMax);
    if |s| < e.offset + e.size then None else Some(Dump(e.name, s[e.offset..e.offset + e.size]))
  }

  /** The dumps of the first `n` records. */
  function ReadDumps(s: seq<byte>, lo: nat, nameMax: nat, n: nat): Option<seq<Dump>> {
    if n == 0 then Some([]) else
    var ds, d := ReadDumps(s, lo, nameMax, n - 1), ReadDump(s, lo + Slot(n - 1, nameMax), nameMax);
    if ds.Some? && d.Some? then Some(ds.value + [d.value]) else None
  }

  /** What a reader finds: nothing without the magic numbers or if the total is not
      where the list ends, otherwise every dump that the index list names. */
  function Parse(s: seq<byte>, nameMax: nat): Option<seq<Dump>> {
    var nos, total, lo := FieldAt(s, 8, 4), FieldAt(s, 12, 4), FieldAt(s, 16, 8);
    if !HasMagic(s) || total != lo + Slot(nos, nameMax) then None else ReadDumps(s, lo, nameMax, nos)
  }

  lemma DumpReads(s: seq<byte>, at: nat, nameMax: nat, e: Entry, d: Dump)
    requires at + EntrySize(nameMax) <= |s| && EntryHolds(s, at, nameMax, e) && Describes(s, e, d)
    ensures ReadDump(s, at, nameMax) == Some(d)
  {
    EntryReads(s, at, nameMax, e);
    HeldSlice(s, e.offset, d.data);
  }

  lemma ReadNext(s: seq<byte>, lo: nat, nameMax: nat, n: nat, at: nat, xs: seq<Dump>, x: Dump)
    requires n > 0 && at == lo + Slot(n - 1, nameMax)
    requires ReadDumps(s, lo, nameMax, n - 1) == Some(xs) && ReadDump(s, at, nameMax) == Some(x)
    ensures ReadDumps(s, lo, nameMax, n) == Some(xs + [x])
  {}

  /** Every record of the list gives its dump. */
  ghost predicate Listed(s: seq<byte>, lo: nat, nameMax: nat, log: Log) {
    match log
    case Start => true
    case Then(before, _, d) =>
      && Listed(s, lo, nameMax, before)
      && ReadDump(s, lo + Slot(Count(before), nameMax), nameMax) == Some(d)
  }

  lemma {:induction false} CollectedListed(s: seq<byte>, lo: nat, p: Place, log: Log, end: nat, n: nat)
    requires 0 < p.align && Placed(s, p, log, end) && ListAt(s, lo, p.nameMax, log)
    requires n == Count(log) && lo + Slot(n, p.nameMax) <= |s|
    ensures Listed(s, lo, p.nameMax, log)
  {
    if log.Then? {
      var e, before, at := log.e, log.before, lo + Slot(n - 1, p.nameMax);
      PlacedLast(s, lo, p, log, e, before, end);
      CollectedListed(s, lo, p, before, e.offset, n - 1);
      LastReads(s, lo, p, log, end, at);
      ListedNext(s, lo, p.nameMax, log, before, n - 1, at);
    }
  }

  lemma ListedNext(s: seq<byte>, lo: nat, nameMax: nat, log: Log, before: Log, n: nat, at: nat)
    requires log.Then? && before == log.before && n == Count(before) && at == lo + Slot(n, nameMax)
    requires Listed(s, lo, nameMax, before) && ReadDump(s, at, nameMax) == Some(log.d)
    ensures Listed(s, lo, nameMax, log)
  {}

  lemma LastReads(s: seq<byte>, lo: nat, p: Place, log: Log, end: nat, at: nat)
    requires 0 < p.align && Placed(s, p, log, end) && ListAt(s, lo, p.nameMax, log)
    requires log.Then? && at == lo + Slot(Count(log.before), p.nameMax) && at + EntrySize(p.nameMax) <= |s|
    ensures ReadDump(s, at, p.nameMax) == Some(log.d)
  {
    DumpReads(s, at, p.nameMax, log.e, log.d);
  }

  lemma {:induction false} DumpsRead(s: seq<byte>, lo: nat, nameMax: nat, log: Log, n: nat)
    requires Listed(s, lo, nameMax, log) && n == Count(log)
    ensures ReadDumps(s, lo, nameMax, n) == Some(DumpsOf(log))
  {
    if log.Then? {
      var at := lo + Slot(n - 1, nameMax);
      ListedLast(s, lo, nameMax, log, n - 1, at);
      DumpsRead(s, lo, nameMax, log.before, n - 1);
      ReadNext(s, lo, nameMax, n, at, DumpsOf(log.before), log.d);
    }
  }

  lemma ListedLast(s: seq<byte>, lo: nat, nameMax: nat, log: Log, n: nat, at: nat)
    requires log.Then? && Listed(s, lo, nameMax, log) && n == Count(log.before) && at == lo + Slot(n, nameMax)
    ensures Listed(s, lo, nameMax, log.before) && ReadDump(s, at, nameMax) == Some(log.d)
  {}

  // ----- the regions that a reader finds -----

  /** The record that a reader finds at number `k`. */
  function Found(s: seq<byte>, lo: nat, nameMax: nat, k: nat): Entry {
    ReadEntry(s, lo + Slot(k, nameMax), nameMax)
  }

  /** The first `n` records name regions one behind the other and before `end`, each at
      an aligned address. */
  ghost predicate Regions(s: seq<byte>, lo: nat, p: Place, n: nat, end: nat)
    requires 0 < p.align
  {
    if n == 0 then p.start <= end else
    var e := Found(s, lo, p.nameMax, n - 1);
    Regions(s, lo, p, n - 1, e.offset) && IsMultiple(p.base + e.offset, p.align) && e.offset + e.size <= end
  }

  lemma {:induction false} PlacedRegions(s: seq<byte>, lo: nat, p: Place, log: Log, n: nat, end: nat)
    requires 0 < p.align && Placed(s, p, log, end) && ListAt(s, lo, p.nameMax, log) && n == Count(log)
    ensures Regions(s, lo, p, n, end)
  {
    if log.Then? {
      var e, before := log.e, log.before;
      PlacedLast(s, lo, p, log, e, before, end);
      PlacedRegions(s, lo, p, before, n - 1, e.offset);
      LastFound(s, lo, p.nameMax, log, n - 1);
      RegionsNext(s, lo, p, n, e, end);
    }
  }

  lemma PlacedLast(s: seq<byte>, lo: nat, p: Place, log: Log, e: Entry, before: Log, end: nat)
    requires 0 < p.align && Placed(s, p, log, end) && ListAt(s, lo, p.nameMax, log)
    requires log.Then? && e == log.e && before == log.before
    ensures Placed(s, p, before, e.offset) && ListAt(s, lo, p.nameMax, before)
    ensures IsMultiple(p.base + e.offset, p.align) && e.offset + e.size <= end
  {}

  lemma LastFound(s: seq<byte>, lo: nat, nameMax: nat, log: Log, n: nat)
    requires log.Then? && ListAt(s, lo, nameMax, log) && n == Count(log.before)
    ensures Found(s, lo, nameMax, n) == log.e
  {
    EntryReads(s, lo + Slot(n, nameMax), nameMax, log.e);
  }

  lemma RegionsNext(s: seq<byte>, lo: nat, p: Place, n: nat, e: Entry, end: nat)
    requires 0 < p.align && 0 < n && Found(s, lo, p.nameMax, n - 1) == e && Regions(s, lo, p, n - 1, e.offset)
    requires IsMultiple(p.base + e.offset, p.align) && e.offset + e.size <= end
    ensures Regions(s, lo, p, n, end)
  {}

  lemma {:induction false} RegionsStart(s: seq<byte>, lo: nat, p: Place, n: nat, end: nat)
    requires 0 < p.align && Regions(s, lo, p, n, end)
    ensures p.start <= end
  {
    if n > 0 {
      RegionsStart(s, lo, p, n - 1, Found(s, lo, p.nameMax, n - 1).offset);
    }
  }

  /** The regions that a reader finds are in bounds, aligned and pairwise disjoint. */
  lemma {:induction false} RegionsApart(s: seq<byte>, lo: nat, p: Place, n: nat, end: nat, j: nat, k: nat)
    requires 0 < p.align && Regions(s, lo, p, n, end) && j <= k < n
    ensures var a, b := Found(s, lo, p.nameMax, j), Found(s, lo, p.nameMax, k);
            && p.start <= b.offset && b.offset + b.size <= end
            && (p.base + b.offset) % p.align == 0
            && (j < k ==> a.offset + a.size <= b.offset)
  {
    var e := Found(s, lo, p.nameMax, n - 1);
    if k < n - 1 {
      RegionsApart(s, lo, p, n - 1, e.offset, j, k);
    } else {
      RegionsStart(s, lo, p, n - 1, e.offset);
      MultipleMeaning(p.base + e.offset, p.align);
      if j < n - 1 {
        RegionsApart(s, lo, p, n - 1, e.offset, j, j);
      }
    }
  }

  /** List and dumps in place. */
  lemma ListReads(s: seq<byte>, lo: nat, p: Place, log: Log, end: nat)
    requires 0 < p.align && Collected(s, s, lo, p, log, end) && lo + Slot(Count(log), p.nameMax) <= |s|
    ensures ReadDumps(s, lo, p.nameMax, Count(log)) == Some(DumpsOf(log))
  {
    CollectedListed(s, lo, p, log, end, Count(log));
    DumpsRead(s, lo, p.nameMax, log, Count(log));
  }

  /** Header, list and dumps in place: the reader gets back the same names and bytes
      in the same order, from regions that lie apart before the list. */
  lemma ContainerReads(s: seq<byte>, lo: nat, p: Place, log: Log, end: nat, total: nat)
    requires HoldsAt(s, 0, HeaderBytes(Count(log), total, lo))
    requires total == lo + Slot(Count(log), p.nameMax) < 0x1_0000_0000
    requires 0 < p.align && Collected(s, s, lo, p, log, end) && lo + Slot(Count(log), p.nameMax) <= |s|
    requires end <= lo
    ensures HasMagic(s) && Sound(s, p, DumpsOf(log))
  {
    SlotAtLeast(Count(log), p.nameMax);
    HeaderReads(s, Count(log), total, lo);
    ListReads(s, lo, p, log, end);
    PlacedRegions(s, lo, p, log, Count(log), end);
    RegionsWiden(s, lo, p, Count(log), end, lo);
  }

  lemma RegionsWiden(s: seq<byte>, lo: nat, p: Place, n: nat, end: nat, end': nat)
    requires 0 < p.align && Regions(s, lo, p, n, end) && end <= end'
    ensures Regions(s, lo, p, n, end')
  {}

  /** What a power cut may leave: no container, or all of it, with every dump in its
      place before the list. */
  ghost predicate Sound(s: seq<byte>, p: Place, dumps: seq<Dump>)
    requires 0 < p.align
  {
    HasMagic(s) ==>
      && Parse(s, p.nameMax) == Some(dumps)
      && Regions(s, FieldAt(s, 16, 8), p, |dumps|, FieldAt(s, 16, 8))
  }

  ghost function SoundBy(p: Place, dumps: seq<Dump>): seq<byte> -> bool
    requires 0 < p.align
  {
    s => Sound(s, p, dumps)
  }

  /** A list that ends in an erased cell, or behind the end, makes no container: the size
      in the last record has its highest byte there. */
  lemma ErasedRecord(s: seq<byte>, nameMax: nat, nos: nat, lo: nat, end: nat)
    requires |s| < 0x1_0000_0000 && 0 < nos && end == lo + Slot(nos, nameMax)
    requires FieldAt(s, 8, 4) == nos && FieldAt(s, 16, 8) == lo
    requires end <= |s| ==> s[end - 1] == 0xFF
    ensures Parse(s, nameMax) == None
  {
    var at := lo + Slot(nos - 1, nameMax);
    HugeSize(s, at, nameMax);
    assert ReadDumps(s, lo, nameMax, nos) == None;
  }

  lemma HugeSize(s: seq<byte>, at: nat, nameMax: nat)
    requires |s| < 0x1_0000_0000 && (at + EntrySize(nameMax) <= |s| ==> s[at + EntrySize(nameMax) - 1] == 0xFF)
    ensures ReadDump(s, at, nameMax) == None
  {
    if at + EntrySize(nameMax) <= |s| {
      TopByte(s, at + Width(nameMax) + 8, 8);
      Pow256Values();
    }
  }

  /** The total that the header records, in 32 bits, is where the list ends exactly if
      the list ends before 4 GiB. */
  lemma TotalRight(s: seq<byte>, nameMax: nat, nos: nat, lo: nat, end: nat, total: nat)
    requires HoldsAt(s, 0, HeaderBytes(nos, total, lo))
    requires end == lo + Slot(nos, nameMax) && total == end % 0x1_0000_0000
    requires nos < 0x1_0000_0000 && lo < 0x1_0000_0000_0000_0000
    ensures HasMagic(s) && FieldAt(s, 8, 4) == nos && FieldAt(s, 12, 4) == total && FieldAt(s, 16, 8) == lo
    ensures FieldAt(s, 12, 4) == FieldAt(s, 16, 8) + Slot(FieldAt(s, 8, 4), nameMax) <==> end < 0x1_0000_0000
  {
    Wraps(end, total);
    HeaderReads(s, nos, total, lo);
  }

  lemma Wraps(end: nat, total: nat)
    requires total == end % 0x1_0000_0000
    ensures total < 0x1_0000_0000 && (total == end <==> end < 0x1_0000_0000)
  {}
}
