/** The boot configuration record of the two-bank upgrade: the upgrade tool
    (tools/sysupgrade.c) and the boot loader (arch/arm/mach-ipq/common.c). */
module BootConfig {
  import opened Common
  import opened BitFold
  import opened CrcTable
  import opened Crc32

  // image_set_status and boot_set
  const DONT_USE_SET_A: bv32 := 1
  const DONT_USE_SET_B: bv32 := 2
  const DONT_USE_SET_AB: bv32 := 3
  const BOOT_SET_A: bv32 := 0
  const BOOT_SET_B: bv32 := 1
  const BOOT_SET_INVALID: bv32 := 0xFFFF

  /** struct flash_dual_boot_info. */
  datatype Record = Record(magic: bv32, status: bv32, owner: bv32, bootSet: bv32,
                           reserved1: bv32, reserved2: bv32, crc: bv32)

  /** A 32-bit field as it lies in the record, least significant byte first. */
  function FieldBytes(v: bv32): seq<bv8> {
    [(v & 0xFF) as bv8, ((v >> 8) & 0xFF) as bv8, ((v >> 16) & 0xFF) as bv8, ((v >> 24) & 0xFF) as bv8]
  }

  /** The bytes before the crc field, except the last four. */
  function HeadBytes(r: Record): seq<bv8> {
    FieldBytes(r.magic) + FieldBytes(r.status) + FieldBytes(r.owner) + FieldBytes(r.bootSet) + FieldBytes(r.reserved1)
  }

  function Sum(r: Record): bv32 {
    Crc(HeadBytes(r) + FieldBytes(r.reserved2))
  }

  /** The check of the upgrade tool. */
  predicate Matches(r: Record) {
    r.crc == Sum(r)
  }

  /** The check of the boot loader, is_valid_bootconfig. */
  predicate LoaderAccepts(r: Record) {
    r.crc != 0 && Sum(r) == r.crc
  }

  /** The bank that the boot loader chooses, ipq_get_rootfs_active_partition. */
  function Selected(r: Record, tryMode: bool): bv32 {
    if !LoaderAccepts(r) then BOOT_SET_A else
    var bank :=
      if r.status == DONT_USE_SET_AB then BOOT_SET_INVALID
      else if r.bootSet == BOOT_SET_A then
        if r.status == DONT_USE_SET_A then BOOT_SET_B else r.bootSet
      else if r.bootSet == BOOT_SET_B then
        if r.status == DONT_USE_SET_B then BOOT_SET_A else r.bootSet
      else 0;
    if r.status != DONT_USE_SET_AB && tryMode then (if bank == 0 then 1 else 0) else bank
  }

  // ----- the upgrade tool -----

  /** update_bootinfo with value 2: the other bank is about to be written. */
  function Begun(r: Record): Record {
    if r.bootSet == BOOT_SET_A && r.status == 0 then r.(status := DONT_USE_SET_B)
    else if r.bootSet == BOOT_SET_B && r.status == 0 then r.(status := DONT_USE_SET_A)
    else r
  }

  /** update_bootinfo with value 0: the other bank is complete. */
  function Committed(r: Record): Record {
    var r' := if r.bootSet == BOOT_SET_A && r.status == DONT_USE_SET_B then r.(bootSet := BOOT_SET_B)
              else if r.bootSet == BOOT_SET_B && r.status == DONT_USE_SET_A then r.(bootSet := BOOT_SET_A)
              else r;
    r'.(status := 0)
  }

  function Saved(r: Record): Record {
    r.(crc := Sum(r))
  }

  /** invalidate_bootconfig as a function of the record and the argument. */
  function Invalidated(r: Record, arg: int): Record {
    if !Matches(r) then r
    else if arg == 5 then Saved(Begun(r).(owner := 2))
    else if arg == 4 then Saved(r)
    else Saved(Committed(r))
  }

  /** The file that the tool edits. */
  class BootFile {
    var info: Record

    constructor (info: Record)
      ensures this.info == info
    {
      this.info := info;
    }

    method UpdateBootinfo(value: bv32)
      modifies this
      ensures info == if value == 2 then Begun(old(info)) else Committed(old(info))
    {
      if value == 2 {
        if info.bootSet == 0 && info.status == 0 {
          info := info.(status := 2);
        } else if info.bootSet == 1 && info.status == 0 {
          info := info.(status := 1);
        }
      } else {
        if info.bootSet == 0 && info.status == 2 {
          info := info.(bootSet := 1);
        } else if info.bootSet == 1 && info.status == 1 {
          info := info.(bootSet := 0);
        }
        info := info.(status := 0);
      }
    }

    /** The tool refuses a record whose crc does not match, and writes nothing then;
        what it writes passes its own next check. */
    method InvalidateBootconfig(arg: int) returns (ret: int)
      modifies this
      ensures info == Invalidated(old(info), arg)
      ensures ret == 0 <==> Matches(old(info))
      ensures ret == 0 ==> Matches(info)
    {
      var sum := CrcBe(HeadBytes(info) + FieldBytes(info.reserved2));
      if info.crc != sum {
        return 1;
      }
      if arg == 5 {
        UpdateBootinfo(2);
        info := info.(owner := 2);
      } else if arg != 4 {
        UpdateBootinfo(0);
      }
      sum := CrcBe(HeadBytes(info) + FieldBytes(info.reserved2));
      info := info.(crc := sum);
      ret := 0;
    }
  }

  // ----- what the crc protects -----

  lemma FieldsDiffer(v: bv32, w: bv32)
    requires v != w
    ensures FieldBytes(v) != FieldBytes(w)
  {
    assert v & 0xFF != w & 0xFF || (v >> 8) & 0xFF != (w >> 8) & 0xFF
           || (v >> 16) & 0xFF != (w >> 16) & 0xFF || (v >> 24) & 0xFF != (w >> 24) & 0xFF;
    SameByte(v & 0xFF, w & 0xFF);
    SameByte((v >> 8) & 0xFF, (w >> 8) & 0xFF);
    SameByte((v >> 16) & 0xFF, (w >> 16) & 0xFF);
    SameByte((v >> 24) & 0xFF, (w >> 24) & 0xFF);
  }

  lemma SameByte(x: bv32, y: bv32)
    requires x <= 0xFF && y <= 0xFF
    ensures x as bv8 == y as bv8 ==> x == y
  {}

  /** The fields before the crc. */
  function Fields(r: Record): (f: seq<bv32>)
    ensures |f| == 6
  {
    [r.magic, r.status, r.owner, r.bootSet, r.reserved1, r.reserved2]
  }

  function AllBytes(fields: seq<bv32>): seq<bv8> {
    if fields == [] then [] else AllBytes(fields[..|fields| - 1]) + FieldBytes(fields[|fields| - 1])
  }

  lemma AllBytesNext(fields: seq<bv32>, v: bv32)
    ensures AllBytes(fields + [v]) == AllBytes(fields) + FieldBytes(v)
  {
    assert (fields + [v])[..|fields|] == fields;
  }

  lemma {:induction false} AllBytesAppend(a: seq<bv32>, b: seq<bv32>)
    ensures AllBytes(a + b) == AllBytes(a) + AllBytes(b)
  {
    if b == [] {
      assert a + b == a;
    } else {
      var c, v := b[..|b| - 1], b[|b| - 1];
      AllBytesAppend(a, c);
      assert a + b == (a + c) + [v] && b == c + [v];
      AllBytesNext(a + c, v);
      AllBytesNext(c, v);
      Assoc(AllBytes(a), AllBytes(c), FieldBytes(v));
    }
  }

  lemma FirstTwo(m: bv32, t: bv32)
    ensures AllBytes([m, t]) == FieldBytes(m) + FieldBytes(t)
  {
    AllBytesNext([], m);
    AllBytesNext([m], t);
    assert [] + [m] == [m] && [m] + [t] == [m, t];
    assert AllBytes([]) + FieldBytes(m) == FieldBytes(m);
  }

  lemma FirstFour(m: bv32, t: bv32, o: bv32, b: bv32)
    ensures AllBytes([m, t, o, b]) == FieldBytes(m) + FieldBytes(t) + FieldBytes(o) + FieldBytes(b)
  {
    FirstTwo(m, t);
    AllBytesNext([m, t], o);
    AllBytesNext([m, t, o], b);
    assert [m, t] + [o] == [m, t, o] && [m, t, o] + [b] == [m, t, o, b];
  }

  lemma HeadIs(m: bv32, t: bv32, o: bv32, b: bv32, x: bv32)
    ensures AllBytes([m, t, o, b, x]) ==
            FieldBytes(m) + FieldBytes(t) + FieldBytes(o) + FieldBytes(b) + FieldBytes(x)
  {
    FirstFour(m, t, o, b);
    AllBytesNext([m, t, o, b], x);
    assert [m, t, o, b] + [x] == [m, t, o, b, x];
  }

  lemma SumIs(r: Record)
    ensures Sum(r) == Crc(AllBytes(Fields(r)))
  {
    var h := [r.magic, r.status, r.owner, r.bootSet, r.reserved1];
    HeadIs(r.magic, r.status, r.owner, r.bootSet, r.reserved1);
    AllBytesNext(h, r.reserved2);
    assert h + [r.reserved2] == Fields(r);
  }

  lemma FieldSplit(before: seq<bv32>, v: bv32, behind: seq<bv32>)
    ensures AllBytes(before + [v] + behind) == AllBytes(before) + FieldBytes(v) + AllBytes(behind)
  {
    AllBytesAppend(before + [v], behind);
    AllBytesNext(before, v);
  }

  /** One changed field changes the code. */
  lemma FieldDetected(f: seq<bv32>, g: seq<bv32>, k: nat, w: bv32)
    requires k < |f| && g == f[k := w] && f[k] != w
    ensures Crc(AllBytes(f)) != Crc(AllBytes(g))
  {
    assert f == f[..k] + [f[k]] + f[k + 1..] && g == f[..k] + [w] + f[k + 1..];
    FieldSplit(f[..k], f[k], f[k + 1..]);
    FieldSplit(f[..k], w, f[k + 1..]);
    FieldsDiffer(f[k], w);
    WordDetected(AllBytes(f[..k]), FieldBytes(f[k]), FieldBytes(w), AllBytes(f[k + 1..]));
  }

  lemma OtherSum(r: Record, s: Record, k: nat, w: bv32)
    requires k < 6 && Fields(s) == Fields(r)[k := w] && Fields(r)[k] != w
    ensures Sum(s) != Sum(r)
  {
    SumIs(r);
    SumIs(s);
    FieldDetected(Fields(r), Fields(s), k, w);
  }

  lemma NotAccepted(s: Record, was: bv32, sum: bv32)
    requires s.crc == was && was != sum && sum == Sum(s)
    ensures !Matches(s) && !LoaderAccepts(s)
  {}

  lemma ChangedIsRefused(r: Record, s: Record, k: nat, w: bv32)
    requires Matches(r) && k < 6 && Fields(s) == Fields(r)[k := w] && Fields(r)[k] != w && s.crc == r.crc
    ensures !Matches(s) && !LoaderAccepts(s)
  {
    OtherSum(r, s, k, w);
    NotAccepted(s, Sum(r), Sum(s));
  }

  lemma MagicProtected(r: Record, v: bv32)
    requires Matches(r) && v != r.magic
    ensures !Matches(r.(magic := v)) && !LoaderAccepts(r.(magic := v))
  {
    ChangedIsRefused(r, r.(magic := v), 0, v);
  }

  lemma StatusProtected(r: Record, v: bv32)
    requires Matches(r) && v != r.status
    ensures !Matches(r.(status := v)) && !LoaderAccepts(r.(status := v))
  {
    ChangedIsRefused(r, r.(status := v), 1, v);
  }

  lemma OwnerProtected(r: Record, v: bv32)
    requires Matches(r) && v != r.owner
    ensures !Matches(r.(owner := v)) && !LoaderAccepts(r.(owner := v))
  {
    ChangedIsRefused(r, r.(owner := v), 2, v);
  }

  lemma BootSetProtected(r: Record, v: bv32)
    requires Matches(r) && v != r.bootSet
    ensures !Matches(r.(bootSet := v)) && !LoaderAccepts(r.(bootSet := v))
  {
    ChangedIsRefused(r, r.(bootSet := v), 3, v);
  }

  lemma Reserved1Protected(r: Record, v: bv32)
    requires Matches(r) && v != r.reserved1
    ensures !Matches(r.(reserved1 := v)) && !LoaderAccepts(r.(reserved1 := v))
  {
    ChangedIsRefused(r, r.(reserved1 := v), 4, v);
  }

  lemma Reserved2Protected(r: Record, v: bv32)
    requires Matches(r) && v != r.reserved2
    ensures !Matches(r.(reserved2 := v)) && !LoaderAccepts(r.(reserved2 := v))
  {
    ChangedIsRefused(r, r.(reserved2 := v), 5, v);
  }

  /** Every field before the crc is protected by it: neither the tool nor the loader
      accepts a record that differs from a valid one in exactly one of them. */
  lemma CrcProtects(r: Record, v: bv32)
    requires Matches(r)
    ensures v != r.magic ==> !Matches(r.(magic := v)) && !LoaderAccepts(r.(magic := v))
    ensures v != r.status ==> !Matches(r.(status := v)) && !LoaderAccepts(r.(status := v))
    ensures v != r.owner ==> !Matches(r.(owner := v)) && !LoaderAccepts(r.(owner := v))
    ensures v != r.bootSet ==> !Matches(r.(bootSet := v)) && !LoaderAccepts(r.(bootSet := v))
    ensures v != r.reserved1 ==> !Matches(r.(reserved1 := v)) && !LoaderAccepts(r.(reserved1 := v))
    ensures v != r.reserved2 ==> !Matches(r.(reserved2 := v)) && !LoaderAccepts(r.(reserved2 := v))
  {
    if v != r.magic {
      MagicProtected(r, v);
    }
    if v != r.status {
      StatusProtected(r, v);
    }
    if v != r.owner {
      OwnerProtected(r, v);
    }
    if v != r.bootSet {
      BootSetProtected(r, v);
    }
    if v != r.reserved1 {
      Reserved1Protected(r, v);
    }
    if v != r.reserved2 {
      Reserved2Protected(r, v);
    }
  }

  /** The 32-bit number at a place of a file, least significant byte first. */
  function WordAt(file: seq<bv8>, at: nat): bv32
    requires at + 4 <= |file|
  {
    (file[at] as bv32) | ((file[at + 1] as bv32) << 8) | ((file[at + 2] as bv32) << 16) | ((file[at + 3] as bv32) << 24)
  }

  /** The record in a file of 28 bytes. */
  function RecordOf(file: seq<bv8>): Record
    requires |file| == 28
  {
    Record(WordAt(file, 0), WordAt(file, 4), WordAt(file, 8), WordAt(file, 12),
           WordAt(file, 16), WordAt(file, 20), WordAt(file, 24))
  }

  lemma WordBytes(a: bv8, b: bv8, c: bv8, d: bv8, v: bv32)
    requires v == (a as bv32) | ((b as bv32) << 8) | ((c as bv32) << 16) | ((d as bv32) << 24)
    ensures FieldBytes(v) == [a, b, c, d]
  {}

  lemma FieldAtIs(file: seq<bv8>, at: nat, v: bv32)
    requires at + 4 <= |file| && v == WordAt(file, at)
    ensures FieldBytes(v) == file[at..at + 4]
  {
    var a, b, c, d := file[at], file[at + 1], file[at + 2], file[at + 3];
    WordBytes(a, b, c, d, v);
    assert file[at..at + 4] == [a, b, c, d];
  }

  /** The crc of a record is the code of the first 24 bytes of its file. */
  lemma SumOfFile(file: seq<bv8>)
    requires |file| == 28
    ensures Sum(RecordOf(file)) == Crc(file[..24])
    ensures FieldBytes(RecordOf(file).crc) == file[24..]
  {
    var r := RecordOf(file);
    FieldAtIs(file, 0, r.magic);
    FieldAtIs(file, 4, r.status);
    FieldAtIs(file, 8, r.owner);
    FieldAtIs(file, 12, r.bootSet);
    FieldAtIs(file, 16, r.reserved1);
    FieldAtIs(file, 20, r.reserved2);
    FieldAtIs(file, 24, r.crc);
    assert file[..24] == file[0..4] + file[4..8] + file[8..12] + file[12..16] + file[16..20] + file[20..24];
  }

  // ----- what the loader and the tool do with every record -----

  /** The bank that the loader chooses, in numbers: without a valid record bank 0, in
      try mode the other bank. */
  lemma SelectedIs(r: Record, tryMode: bool)
    ensures var valid := r.crc != 0 && r.crc == Sum(r);
            var plain := if (r.bootSet == 1 && r.status != 2) || (r.bootSet == 0 && r.status == 1) then 1 else 0;
            Selected(r, tryMode) ==
              if !valid then 0 else if r.status == 3 then 0xFFFF else if tryMode then 1 - plain else plain
  {}

  /** Outside of try mode the loader stays off a bank that the record marks. */
  lemma MarkedIsAvoided(r: Record)
    requires LoaderAccepts(r) && (r.bootSet == 0 || r.bootSet == 1)
    ensures r.status == 1 ==> Selected(r, false) == 1
    ensures r.status == 2 ==> Selected(r, false) == 0
    ensures r.status == 3 ==> Selected(r, false) != 0 && Selected(r, false) != 1
    ensures r.status != 1 && r.status != 2 && r.status != 3 ==> Selected(r, false) == r.bootSet
  {}

  /** What the tool writes for a valid record: begin marks the other bank unless the record
      has a mark, and notes the owner; a query changes nothing; a commit moves to the bank
      that the mark keeps free and takes the mark away. */
  lemma ToolWrites(r: Record, arg: int)
    requires Matches(r)
    ensures var w := Invalidated(r, arg);
            && Matches(w) && w.magic == r.magic && w.reserved1 == r.reserved1 && w.reserved2 == r.reserved2
            && w.owner == (if arg == 5 then 2 else r.owner)
            && w.status == (if arg == 4 then r.status else if arg != 5 then 0 else if r.status != 0 then r.status
                            else if r.bootSet == 0 then 2 else if r.bootSet == 1 then 1 else 0)
            && w.bootSet == (if arg == 4 || arg == 5 then r.bootSet
                             else if r.bootSet == 0 && r.status == 2 then 1
                             else if r.bootSet == 1 && r.status == 1 then 0 else r.bootSet)
            && (arg == 4 ==> w == r)
  {
    var x := if arg == 5 then Begun(r).(owner := 2) else if arg == 4 then r else Committed(r);
    assert Invalidated(r, arg) == Saved(x);
    SavedKeeps(x, Saved(x), Sum(x));
    BegunIs(r, Begun(r));
    CommittedIs(r, Committed(r));
  }

  lemma SavedKeeps(x: Record, w: Record, sum: bv32)
    requires sum == Sum(x) && w == Saved(x)
    ensures Matches(w) && w == x.(crc := sum)
  {
    SumIgnoresCrc(x, sum);
  }

  lemma BegunIs(r: Record, b: Record)
    requires b == Begun(r)
    ensures b == r.(status := b.status)
    ensures b.status == if r.status != 0 then r.status else if r.bootSet == 0 then 2
                        else if r.bootSet == 1 then 1 else 0
  {}

  lemma CommittedIs(r: Record, c: Record)
    requires c == Committed(r)
    ensures c == r.(status := 0, bootSet := c.bootSet)
    ensures c.bootSet == if r.bootSet == 0 && r.status == 2 then 1 else if r.bootSet == 1 && r.status == 1 then 0
                         else r.bootSet
  {}

  // ----- a crc of zero -----

  lemma TopByte(r: bv32, x: bv8, y: bv32)
    requires x == ((r >> 24) & 0xFF) as bv8 && y == Word(x)
    ensures r ^ (y << 24) == r & 0x00FF_FFFF
  {}

  /** Appending the top byte of the register moves the rest up. */
  lemma ClearByte(r: bv32, x: bv8, y: bv32, low: bv32, s: bv32)
    requires x == ((r >> 24) & 0xFF) as bv8 && y == Word(x)
    requires low == r & 0x00FF_FFFF && s == r << 8
    ensures BitCrc(r, BitsOf(x)) == s
  {
    TopByte(r, x, y);
    MixedUp(r, x, y, low);
    RestShifts(r, low, s);
  }

  lemma CrcNext(m: seq<bv8>, x: bv8, r: bv32)
    requires Crc(m) == r
    ensures Crc(m + [x]) == BitCrc(r, BitsOf(x))
  {
    LastByte(m, x);
    FoldAppend(Shift, Mix, 0, MessageBits(m), BitsOf(x));
  }

  function ByteSwap(c: bv32): bv32 {
    ((c >> 24) & 0xFF) | ((c >> 8) & 0xFF00) | ((c << 8) & 0xFF_0000) | (c << 24)
  }

  function TopOf(r: bv32): bv8 {
    ((r >> 24) & 0xFF) as bv8
  }

  /** The bytes of the swapped word are the top bytes of the register as it is shifted out. */
  lemma SwappedTops(c: bv32, c1: bv32, c2: bv32, c3: bv32, v: bv32)
    requires v == ByteSwap(c) && c1 == c << 8 && c2 == c1 << 8 && c3 == c2 << 8
    ensures FieldBytes(v) == [TopOf(c), TopOf(c1), TopOf(c2), TopOf(c3)]
    ensures c3 << 8 == 0
  {}

  lemma Clear(m: seq<bv8>, r: bv32, x: bv8, s: bv32)
    requires Crc(m) == r && x == TopOf(r) && s == r << 8
    ensures Crc(m + [x]) == s
  {
    CrcNext(m, x, r);
    ClearByte(r, x, Word(x), r & 0x00FF_FFFF, s);
  }

  lemma ClearAll(m: seq<bv8>, c: bv32, c1: bv32, c2: bv32, c3: bv32, c4: bv32, x: bv8, x1: bv8, x2: bv8, x3: bv8)
    requires Crc(m) == c && c1 == c << 8 && c2 == c1 << 8 && c3 == c2 << 8 && c4 == c3 << 8
    requires x == TopOf(c) && x1 == TopOf(c1) && x2 == TopOf(c2) && x3 == TopOf(c3)
    ensures Crc(m + [x, x1, x2, x3]) == c4
  {
    Clear(m, c, x, c1);
    Clear(m + [x], c1, x1, c2);
    Clear(m + [x] + [x1], c2, x2, c3);
    Clear(m + [x] + [x1] + [x2], c3, x3, c4);
    assert m + [x, x1, x2, x3] == m + [x] + [x1] + [x2] + [x3];
  }

  /** A message followed by its own code, most significant byte first, has code zero. */
  lemma OwnCodeClears(m: seq<bv8>, c: bv32, v: bv32)
    requires c == Crc(m) && v == ByteSwap(c)
    ensures Crc(m + FieldBytes(v)) == 0
  {
    var c1 := c << 8;
    var c2 := c1 << 8;
    var c3 := c2 << 8;
    SwappedTops(c, c1, c2, c3, v);
    ClearAll(m, c, c1, c2, c3, c3 << 8, TopOf(c), TopOf(c1), TopOf(c2), TopOf(c3));
  }

  /** For every record there is a value of the last field that makes its crc zero: the
      tool saves such a record and accepts it, the boot loader does not. */
  lemma ZeroSumExists(r: Record)
    ensures exists v :: var z := Saved(r.(reserved2 := v)); Matches(z) && !LoaderAccepts(z)
  {
    var v := ByteSwap(Crc(HeadBytes(r)));
    OwnCodeClears(HeadBytes(r), Crc(HeadBytes(r)), v);
    var z := Saved(r.(reserved2 := v));
    assert HeadBytes(z) == HeadBytes(r);
    assert Matches(z) && !LoaderAccepts(z);
  }

  // ----- runs of the upgrade -----

  /** The stored record, and for each bank whether its contents are incomplete. */
  datatype State = State(record: Record, dirtyA: bool, dirtyB: bool)

  datatype Event =
    | Begin          // invalidate_bootconfig(5)
    | WriteSome      // the bank that is not to be used is being written
    | WriteAll       // and is complete
    | Commit         // invalidate_bootconfig(0), after the bank is complete
    | Query          // invalidate_bootconfig(4)
    | Restart        // reboot or power cut

  function Other(bank: bv32): bv32 {
    if bank == BOOT_SET_A then BOOT_SET_B else BOOT_SET_A
  }

  predicate Dirty(s: State, bank: bv32) {
    if bank == BOOT_SET_A then s.dirtyA else s.dirtyB
  }

  function SetDirty(s: State, bank: bv32, dirty: bool): State {
    if bank == BOOT_SET_A then s.(dirtyA := dirty) else s.(dirtyB := dirty)
  }

  /** The status that keeps the loader off the bank that is not active. */
  function Warning(bank: bv32): bv32 {
    if bank == BOOT_SET_A then DONT_USE_SET_B else DONT_USE_SET_A
  }

  function Next(s: State, e: Event): State {
    var other := Other(s.record.bootSet);
    match e
    case Begin => s.(record := Invalidated(s.record, 5))
    case WriteSome => if s.record.status == 0 then s else SetDirty(s, other, true)
    case WriteAll => if s.record.status == 0 then s else SetDirty(s, other, false)
    case Commit => if Dirty(s, other) then s else s.(record := Invalidated(s.record, 0))
    case Query => s.(record := Invalidated(s.record, 4))
    case Restart => s
  }

  function After(s: State, run: seq<Event>): State {
    if run == [] then s else Next(After(s, run[..|run| - 1]), run[|run| - 1])
  }

  predicate Clean(s: State) {
    && Matches(s.record) && s.record.status == 0
    && (s.record.bootSet == BOOT_SET_A || s.record.bootSet == BOOT_SET_B)
    && !s.dirtyA && !s.dirtyB
  }

  ghost predicate Inv(s: State) {
    && Matches(s.record)
    && (s.record.bootSet == BOOT_SET_A || s.record.bootSet == BOOT_SET_B)
    && (s.record.status == 0 || s.record.status == Warning(s.record.bootSet))
    && !Dirty(s, s.record.bootSet)
    && (Dirty(s, Other(s.record.bootSet)) ==> s.record.status == Warning(s.record.bootSet))
  }

  lemma NextKeepsInv(s: State, e: Event)
    requires Inv(s)
    ensures Inv(Next(s, e))
  {}

  lemma {:induction false} RunKeepsInv(s: State, run: seq<Event>)
    requires Clean(s)
    ensures Inv(After(s, run))
  {
    if run != [] {
      RunKeepsInv(s, run[..|run| - 1]);
      NextKeepsInv(After(s, run[..|run| - 1]), run[|run| - 1]);
    }
  }

  /** In every state of every run the loader stays off the bank that is incomplete,
      unless the record's crc is zero while bank B is the active one: then it falls
      back to bank A. */
  lemma SelectedIsComplete(s: State, run: seq<Event>)
    requires Clean(s)
    ensures var t := After(s, run);
            && Matches(t.record)
            && Selected(t.record, false) in {BOOT_SET_A, BOOT_SET_B}
            && (Dirty(t, Selected(t.record, false)) <==>
                  t.record.crc == 0 && t.record.bootSet == BOOT_SET_B && t.dirtyA)
            && (t.record.crc != 0 ==> Selected(t.record, false) == t.record.bootSet)
  {
    RunKeepsInv(s, run);
  }

  lemma TwoEvents(s: State, e: Event, f: Event)
    ensures After(s, [e, f]) == Next(Next(s, e), f)
  {
    assert [e, f][..1] == [e] && [e][..0] == [];
    assert After(s, [e]) == Next(After(s, []), e);
  }

  lemma BeginOnB(r: Record, b: Record)
    requires r.status == 0 && r.bootSet == BOOT_SET_B && b == r.(status := DONT_USE_SET_A, owner := 2)
    ensures Begun(r).(owner := 2) == b
  {}

  /** The exception is reached: whatever the other fields are, there is a value of the
      last field with which a clean record of bank B gets crc zero when the upgrade
      begins; with bank A half written the loader then selects bank A. */
  lemma DirtyBankSelected(magic: bv32, owner: bv32, reserved1: bv32) returns (s: State)
    ensures Clean(s) && s.record.bootSet == BOOT_SET_B
    ensures s.record.magic == magic && s.record.owner == owner && s.record.reserved1 == reserved1
    ensures var t := After(s, [Begin, WriteSome]);
            Matches(t.record) && t.record.crc == 0 && Selected(t.record, false) == BOOT_SET_A && t.dirtyA
  {
    var b := Record(magic, DONT_USE_SET_A, 2, BOOT_SET_B, reserved1, 0, 0);
    var v := ByteSwap(Crc(HeadBytes(b)));
    OwnCodeClears(HeadBytes(b), Crc(HeadBytes(b)), v);
    var r, b' := Record(magic, 0, owner, BOOT_SET_B, reserved1, v, 0), b.(reserved2 := v);
    assert HeadBytes(b') == HeadBytes(b);
    assert Sum(b') == 0;
    s := State(Saved(r), false, false);
    SavedMatches(r);
    var n := b'.(crc := s.record.crc);
    SumIgnoresCrc(b', s.record.crc);
    BeginOnB(s.record, n);
    assert Next(s, Begin).record == b';
    TwoEvents(s, Begin, WriteSome);
  }

  /** If writing the record is cut off and leaves one that the loader refuses, the
      loader boots bank A: harmful exactly if A is then incomplete, which needs B active. */
  lemma TornRecord(s: State, run: seq<Event>, torn: Record)
    requires Clean(s) && !LoaderAccepts(torn)
    ensures var t := After(s, run).(record := torn);
            && (Dirty(t, Selected(torn, false)) <==> t.dirtyA)
            && (t.dirtyA ==> After(s, run).record.bootSet == BOOT_SET_B)
  {
    RunKeepsInv(s, run);
  }

  lemma SumIgnoresCrc(r: Record, crc: bv32)
    ensures Sum(r.(crc := crc)) == Sum(r)
  {
    assert HeadBytes(r.(crc := crc)) == HeadBytes(r);
  }

  lemma SavedMatches(r: Record)
    ensures Matches(Saved(r)) && Saved(Saved(r)) == Saved(r)
  {
    SumIgnoresCrc(r, Sum(r));
  }

  lemma BegunIsBegun(r: Record, crc: bv32)
    ensures var b := Begun(r).(owner := 2, crc := crc); Begun(b).(owner := 2) == b
  {}

  /** Beginning again changes nothing. */
  lemma BeginTwice(r: Record)
    ensures Invalidated(Invalidated(r, 5), 5) == Invalidated(r, 5)
  {
    if Matches(r) {
      var b := Begun(r).(owner := 2);
      SavedMatches(b);
      BegunIsBegun(r, Sum(b));
    }
  }

  lemma CommitOnce(r: Record, b: Record, c: Record, crc: bv32, crc': bv32)
    requires r.status == 0 && (r.bootSet == BOOT_SET_A || r.bootSet == BOOT_SET_B)
    requires b == Begun(r).(owner := 2, crc := crc) && c == Committed(b).(crc := crc')
    ensures c.status == 0 && c.bootSet == Other(r.bootSet) && Committed(c) == c
  {}

  /** From a clean record, begin and commit flip the bank and leave a clean record; a
      second commit flips nothing. */
  lemma FlipsOnce(r: Record)
    requires Matches(r) && r.status == 0 && (r.bootSet == BOOT_SET_A || r.bootSet == BOOT_SET_B)
    ensures var once := Invalidated(Invalidated(r, 5), 0);
            && Matches(once) && once.status == 0 && once.bootSet == Other(r.bootSet)
            && Invalidated(once, 0) == once
  {
    var x := Begun(r).(owner := 2);
    SavedMatches(x);
    var y := Committed(Saved(x));
    SavedMatches(y);
    CommitOnce(r, Saved(x), Saved(y), Sum(x), Sum(y));
  }

  /** A commit that takes effect. */
  predicate Flip(s: State, e: Event) {
    e.Commit? && !Dirty(s, Other(s.record.bootSet)) && s.record.status != 0
  }

  /** How often a run flips the bank. */
  function Flips(s: State, run: seq<Event>): nat {
    if run == [] then 0 else
    Flips(s, run[..|run| - 1]) + (if Flip(After(s, run[..|run| - 1]), run[|run| - 1]) then 1 else 0)
  }

  lemma InvalidatedBank(r: Record, arg: int)
    requires Matches(r)
    ensures arg == 5 || arg == 4 ==> Invalidated(r, arg).bootSet == r.bootSet
    ensures arg != 5 && arg != 4 ==>
      Invalidated(r, arg).bootSet == Committed(r).bootSet && Invalidated(r, arg).status == 0
  {}

  lemma NextFlips(s: State, e: Event, bank: bv32, next: bv32)
    requires Inv(s) && bank == s.record.bootSet && next == Next(s, e).record.bootSet
    ensures next == if Flip(s, e) then Other(bank) else bank
  {
    match e
    case Begin => InvalidatedBank(s.record, 5);
    case Query => InvalidatedBank(s.record, 4);
    case Commit => InvalidatedBank(s.record, 0);
    case WriteSome =>
    case WriteAll =>
    case Restart =>
  }

  lemma Parity(start: bv32, bank: bv32, next: bv32, n: nat, m: nat, flip: bool)
    requires start == BOOT_SET_A || start == BOOT_SET_B
    requires bank == (if n % 2 == 0 then start else Other(start)) && m == n + (if flip then 1 else 0)
    requires next == if flip then Other(bank) else bank
    ensures next == if m % 2 == 0 then start else Other(start)
  {}

  lemma FlipsNext(s: State, run: seq<Event>, t: State, e: Event, n: nat)
    requires run != [] && t == After(s, run[..|run| - 1]) && e == run[|run| - 1] && n == Flips(s, run[..|run| - 1])
    ensures After(s, run) == Next(t, e)
    ensures Flips(s, run) == n + (if Flip(t, e) then 1 else 0)
  {}

  /** Only commits of a bank that was begun and is complete flip it, each exactly once. */
  lemma {:induction false} OnlyCommitsFlip(s: State, run: seq<Event>, bank: bv32)
    requires Clean(s) && bank == s.record.bootSet
    ensures After(s, run).record.bootSet == if Flips(s, run) % 2 == 0 then bank else Other(bank)
  {
    if run != [] {
      var init, e := run[..|run| - 1], run[|run| - 1];
      var t := After(s, init);
      RunKeepsInv(s, init);
      OnlyCommitsFlip(s, init, bank);
      var u := After(s, run);
      FlipsNext(s, run, t, e, Flips(s, init));
      NextFlips(t, e, t.record.bootSet, u.record.bootSet);
      Parity(bank, t.record.bootSet, u.record.bootSet, Flips(s, init), Flips(s, run), Flip(t, e));
    }
  }
}
