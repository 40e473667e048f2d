/** The walk over the type-length-value records that the crashed kernel left
    (wdt_extract_tlv_info, wdt_extract_tlv_data and wdt_extract_dump in
    arch/arm/mach-ipq/cmd_crashdump.c). */
module TlvWalk {
  import opened Common
  import opened Bytes
  import opened Bits

  const HEADER: nat := 3            // QTI_WDT_SCM_TLV_TYPE_LEN_SIZE
  const BUF: nat := 512             // buf

  // record types
  const INVALID: byte := 0
  const UNAME: byte := 1
  const DMESG: byte := 2
  const LEVEL1_PT: byte := 3
  const WLAN_MOD: byte := 4
  const WLAN_MOD_INFO: byte := 6
  const WLAN_MMU_INFO: byte := 7
  const TEXT_DATA_TAIL: byte := 8

  datatype Record = Record(kind: byte, data: seq<byte>)

  /** A record at a position of the buffer. */
  ghost predicate RecordAt(msg: seq<byte>, at: nat, r: Record) {
    && at + HEADER + |r.data| <= |msg| && |r.data| < 0x1_0000
    && msg[at] == r.kind && msg[at + 1] as int == |r.data| % 256 && msg[at + 2] as int == |r.data| / 256
    && msg[at + HEADER..at + HEADER + |r.data|] == r.data
  }

  /** The records `rs` one after the other, and after them an INVALID record. */
  ghost predicate Listed(msg: seq<byte>, at: nat, rs: seq<Record>)
    decreases |rs|
  {
    if rs == [] then at + HEADER < |msg| && msg[at] == INVALID
    else rs[0].kind != INVALID && RecordAt(msg, at, rs[0]) && Listed(msg, at + HEADER + |rs[0].data|, rs[1..])
  }

  lemma {:induction false} ListedRoom(msg: seq<byte>, at: nat, rs: seq<Record>)
    requires Listed(msg, at, rs)
    ensures at + HEADER < |msg|
    decreases |rs|
  {
    if rs != [] {
      ListedRoom(msg, at + HEADER + |rs[0].data|, rs[1..]);
    }
  }

  /** What a walk sees at a record: its kind and data are those of the next record of
      the list, and there is room behind it. */
  lemma ListedHead(msg: seq<byte>, at: nat, rs: seq<Record>)
    requires Listed(msg, at, rs)
    ensures at + HEADER < |msg| && (msg[at] == INVALID <==> rs == [])
    ensures rs != [] ==>
      var size := msg[at + 1] as int + 256 * msg[at + 2] as int;
      && at + HEADER + size < |msg| && rs[0] == Record(msg[at], msg[at + HEADER..at + HEADER + size])
      && Listed(msg, at + HEADER + size, rs[1..])
  {
    ListedRoom(msg, at, rs);
    if rs != [] {
      ListedRoom(msg, at + HEADER + |rs[0].data|, rs[1..]);
    }
  }

  lemma ListedKind(msg: seq<byte>, at: nat, rs: seq<Record>)
    requires Listed(msg, at, rs)
    ensures at + HEADER < |msg| && (msg[at] == INVALID <==> rs == [])
  {
    ListedHead(msg, at, rs);
  }

  /** The same for what has been read of the record. */
  lemma HeadRead(msg: seq<byte>, at: nat, rs: seq<Record>, kind: byte, size: nat, data: seq<byte>, r: Record,
                 next: seq<Record>)
    requires Listed(msg, at, rs) && rs != [] && r == rs[0] && next == rs[1..]
    requires kind == msg[at] && size == msg[at + 1] as int + 256 * msg[at + 2] as int
    requires at + HEADER + size < |msg| ==>
      |data| == size && forall i :: 0 <= i < size ==> data[i] == msg[at + HEADER + i]
    ensures at + HEADER + size < |msg| && r == Record(kind, data) && Listed(msg, at + HEADER + size, next)
  {
    ListedHead(msg, at, rs);
    assert data == msg[at + HEADER..at + HEADER + size];
  }

  /** wdt_dump_tlv_infos_t. */
  class Cursor {
    const msg: seq<byte>
    var cur: nat

    constructor (msg: seq<byte>)
      ensures this.msg == msg && cur == 0
    {
      this.msg, cur := msg, 0;
    }

    /** Type and size of the current record, if its header lies strictly inside. */
    method ExtractInfo() returns (ret: int, kind: byte, size: nat)
      ensures ret == 0 <==> cur + HEADER < |msg|
      ensures ret == 0 ==> kind == msg[cur] && size == msg[cur + 1] as int + 256 * msg[cur + 2] as int
    {
      if cur + HEADER >= |msg| {
        return -EINVAL, INVALID, 0;
      }
      return 0, msg[cur], msg[cur + 1] as int + 256 * msg[cur + 2] as int;
    }

    /** The data of a record of this size, if it ends strictly inside. */
    ghost function DataAt(size: nat): (d: seq<byte>)
      reads this
      ensures cur + HEADER + size < |msg| ==> |d| == size && forall i :: 0 <= i < size ==> d[i] == msg[cur + HEADER + i]
    {
      if cur + HEADER + size < |msg| then msg[cur + HEADER..cur + HEADER + size] else []
    }

    /** The data of the current record goes to `buf`, if it ends strictly inside; moves
        past it. `over` says that the copy ran over the end of the buffer. */
    method ExtractData(buf: array<byte>, size: nat) returns (ret: int, over: bool)
      modifies this, buf
      ensures ret == 0 <==> old(cur) + HEADER + size < |msg|
      ensures over <==> ret == 0 && buf.Length < size
      ensures ret == 0 ==> cur == old(cur) + HEADER + size
      ensures ret == 0 && !over ==>
        forall i :: 0 <= i < buf.Length ==> buf[i] == if i < size then msg[old(cur) + HEADER + i] else old(buf[i])
      ensures ret != 0 ==> cur == old(cur)
    {
      ret, over := -EINVAL, false;
      if cur + HEADER + size < |msg| {
        over := buf.Length < size;
        forall i | 0 <= i < Min(size, buf.Length) {
          buf[i] := msg[cur + HEADER + i];
        }
        cur := cur + size + HEADER;
        ret := 0;
      }
    }
  }

  /** A buffer that holds `data` and zeros behind it. */
  ghost predicate Padded(s: seq<byte>, data: seq<byte>) {
    && |data| <= |s|
    && forall i :: 0 <= i < |s| ==> s[i] == if i < |data| then data[i] else 0
  }

  lemma {:induction false} PaddedField(s: seq<byte>, data: seq<byte>, at: nat, n: nat)
    requires Padded(s, data)
    ensures FieldAt(s, at, n) == FieldAt(data, at, n)
    decreases n
  {
    if n > 0 && at < |s| {
      PaddedField(s, data, at + 1, n - 1);
      if |data| <= at {
        assert FieldAt(data, at + 1, n - 1) == 0;
      }
    }
  }

  /** A record that fits the buffer is read from it as it is. */
  lemma PaddedReads(s: seq<byte>, kind: byte, data: seq<byte>, mask: nat, mem: nat -> nat)
    requires Padded(s, data)
    ensures Wanted(Record(kind, s), mask) == Wanted(Record(kind, data), mask)
    ensures EntryOf(Record(kind, s), mem) == EntryOf(Record(kind, data), mem)
  {
    PaddedField(s, data, 0, 8);
    PaddedField(s, data, 8, 8);
    PaddedField(s, data, 16, 4);
  }

  // ----- the module records -----

  /** A dump table entry. `kind` decides its name together with `start`. */
  datatype Entry = Entry(kind: byte, start: nat, size: nat)

  /** Whether the walk for modules takes a record. What is missing of its data counts as
      zero. */
  predicate Wanted(r: Record, mask: nat) {
    && WLAN_MOD <= r.kind <= TEXT_DATA_TAIL
    && (r.kind == WLAN_MOD ==> And(FieldAt(r.data, 16, 4), mask) != 0)
  }

  /** Its entry; for two kinds the size is the word that the record points to. */
  function EntryOf(r: Record, mem: nat -> nat): Entry {
    var size := FieldAt(r.data, 8, 8);
    Entry(r.kind, FieldAt(r.data, 0, 8), if r.kind == WLAN_MOD_INFO || r.kind == WLAN_MMU_INFO then mem(size) else size)
  }

  /** A record of a start address, a size and a crash type: its entry, and when it is
      wanted. */
  lemma InfoReads(kind: byte, start: nat, size: nat, crash: nat, rest: seq<byte>, mask: nat, mem: nat -> nat)
    requires start < 0x1_0000_0000_0000_0000 && size < 0x1_0000_0000_0000_0000 && crash < 0x1_0000_0000
    ensures var r := Record(kind, Le(8, start) + (Le(8, size) + (Le(4, crash) + rest)));
            && EntryOf(r, mem) == Entry(kind, start, if kind == 6 || kind == 7 then mem(size) else size)
            && (Wanted(r, mask) <==> 4 <= kind <= 8 && (kind == 4 ==> And(crash, mask) != 0))
  {
    var c := Le(4, crash) + rest;
    var b := Le(8, size) + c;
    var data := Le(8, start) + b;
    HeldParts(data, 0, Le(8, start), b);
    HeldParts(data, 8, Le(8, size), c);
    HeldParts(data, 16, Le(4, crash), rest);
    Pow256Values();
    FieldHeld(data, 0, 8, start);
    FieldHeld(data, 8, 8, size);
    FieldHeld(data, 16, 4, crash);
  }

  function EntryIf(r: Record, mask: nat, mem: nat -> nat): seq<Entry> {
    if Wanted(r, mask) then [EntryOf(r, mem)] else []
  }

  function Entries(rs: seq<Record>, mask: nat, mem: nat -> nat): seq<Entry> {
    if rs == [] then [] else EntryIf(rs[0], mask, mem) + Entries(rs[1..], mask, mem)
  }

  /** Whether the walk for modules copies a record to a buffer that is too small. */
  predicate Long(r: Record) {
    WLAN_MOD <= r.kind <= TEXT_DATA_TAIL && BUF < |r.data|
  }

  /** Whether the walk comes to such a record before adding fails. */
  predicate Overruns(rs: seq<Record>, mask: nat, mem: nat -> nat, room: nat) {
    if rs == [] then false
    else if Long(rs[0]) then true
    else if Wanted(rs[0], mask) then 0 < room && Overruns(rs[1..], mask, mem, room - 1)
    else Overruns(rs[1..], mask, mem, room)
  }

  /** Record `i` is of a kind that the walk copies and has more than 512 bytes, and the
      wanted records before it do not exceed the room. */
  ghost predicate Reaches(rs: seq<Record>, mask: nat, mem: nat -> nat, room: nat, i: nat) {
    i < |rs| && 4 <= rs[i].kind <= 8 && 512 < |rs[i].data| && |Entries(rs[..i], mask, mem)| <= room
  }

  lemma ReachesNext(rs: seq<Record>, mask: nat, mem: nat -> nat, room: nat, i: nat, n: nat)
    requires 0 < i < |rs| && n == |EntryIf(rs[0], mask, mem)|
    ensures Reaches(rs, mask, mem, room, i) <==> n <= room && Reaches(rs[1..], mask, mem, room - n, i - 1)
  {
    var init, rest := rs[..i], rs[1..];
    assert init[1..] == rest[..i - 1] && init[0] == rs[0];
    assert Entries(init, mask, mem) == EntryIf(rs[0], mask, mem) + Entries(rest[..i - 1], mask, mem);
    assert rest[i - 1] == rs[i];
  }

  /** The walk overruns exactly if there is such a record. */
  lemma {:induction false} OverrunsIs(rs: seq<Record>, mask: nat, mem: nat -> nat, room: nat)
    ensures Overruns(rs, mask, mem, room) <==> exists i: nat :: Reaches(rs, mask, mem, room, i)
  {
    if rs != [] {
      var rest, n := rs[1..], |EntryIf(rs[0], mask, mem)|;
      assert Long(rs[0]) ==> Reaches(rs, mask, mem, room, 0);
      OverrunsNextIs(rs, mask, mem, room, n);
      if n <= room {
        var left: nat := room - n;
        OverrunsIs(rest, mask, mem, left);
        if exists i: nat :: Reaches(rest, mask, mem, left, i) {
          var i: nat :| Reaches(rest, mask, mem, left, i);
          ReachesNext(rs, mask, mem, room, i + 1, n);
        }
      }
      if exists i: nat :: Reaches(rs, mask, mem, room, i) {
        var i: nat :| Reaches(rs, mask, mem, room, i);
        if i > 0 {
          ReachesNext(rs, mask, mem, room, i, n);
        }
      }
    }
  }

  lemma OverrunsNextIs(rs: seq<Record>, mask: nat, mem: nat -> nat, room: nat, n: nat)
    requires rs != [] && n == |EntryIf(rs[0], mask, mem)|
    ensures Overruns(rs, mask, mem, room) <==> Long(rs[0]) || (n <= room && Overruns(rs[1..], mask, mem, room - n))
  {}

  lemma OverrunsNext(rs: seq<Record>, mask: nat, mem: nat -> nat, room: nat, found: seq<Entry>)
    requires rs != [] && !Long(rs[0]) && found == EntryIf(rs[0], mask, mem)
    ensures Overruns(rs, mask, mem, room) == (|found| <= room && Overruns(rs[1..], mask, mem, room - |found|))
  {}

  /** One record, with its size and data: the entry it gives, if any. It fails on a record
      that does not lie inside the buffer. Nothing is said about the entry when the copy
      ran over. */
  method ModuleStep(t: Cursor, mask: nat, mem: nat -> nat)
    returns (ret: int, kind: byte, found: seq<Entry>, over: bool, ghost size: nat, ghost data: seq<byte>)
    modifies t
    ensures |found| <= 1 && size < 0x1_0000
    ensures ret == 0 ==> old(t.cur) + HEADER < |t.msg| && t.cur == old(t.cur) + HEADER + size
    ensures old(t.cur) + HEADER < |t.msg| ==>
      && kind == t.msg[old(t.cur)] && size == t.msg[old(t.cur) + 1] as int + 256 * t.msg[old(t.cur) + 2] as int
      && data == old(t.DataAt(size))
    ensures ret != 0 ==>
      old(t.cur) + HEADER >= |t.msg| || (WLAN_MOD <= kind <= TEXT_DATA_TAIL && old(t.cur) + HEADER + size >= |t.msg|)
    ensures ret == 0 && !over ==> found == EntryIf(Record(kind, data), mask, mem)
    ensures over <==> ret == 0 && WLAN_MOD <= kind <= TEXT_DATA_TAIL && BUF < size
  {
    found, over, data := [], false, [];
    var n;
    ret, kind, n := t.ExtractInfo();
    size := n;
    if ret == 0 {
      data := t.DataAt(size);
      if WLAN_MOD <= kind <= TEXT_DATA_TAIL {
        ret, found, over := TakeModule(t, kind, n, mask, mem, data);
      } else {
        t.cur := t.cur + (n + HEADER);
      }
    } else {
      size := 0;
    }
  }

  /** A record of a kind that the walk for modules looks at. */
  method TakeModule(t: Cursor, kind: byte, size: nat, mask: nat, mem: nat -> nat, ghost data: seq<byte>)
    returns (ret: int, found: seq<Entry>, over: bool)
    requires data == t.DataAt(size)
    modifies t
    ensures |found| <= 1
    ensures ret == 0 <==> old(t.cur) + HEADER + size < |t.msg|
    ensures ret == 0 ==> t.cur == old(t.cur) + HEADER + size
    ensures over <==> ret == 0 && BUF < size
    ensures ret == 0 && !over ==> found == EntryIf(Record(kind, data), mask, mem)
  {
    var buf := new byte[BUF](_ => 0);
    found := [];
    ret, over := t.ExtractData(buf, size);
    if ret == 0 {
      if !over {
        PaddedReads(buf[..], kind, data, mask, mem);
      }
      if Wanted(Record(kind, buf[..]), mask) {
        found := [EntryOf(Record(kind, buf[..]), mem)];
      }
    }
  }

  /** The same on a record list. */
  method NextModule(t: Cursor, mask: nat, mem: nat -> nat, ghost rest: seq<Record>, ghost listed: bool)
    returns (ret: int, kind: byte, found: seq<Entry>, over: bool)
    requires listed == Listed(t.msg, t.cur, rest)
    modifies t
    ensures |found| <= 1 && (ret == 0 ==> old(t.cur) + HEADER <= t.cur <= |t.msg| + 0x2_0000)
    ensures listed ==> ret == 0 && (kind == INVALID <==> rest == [])
    ensures listed && rest == [] ==> found == [] && !over
    ensures listed && rest != [] ==>
      && (over <==> Long(rest[0])) && Listed(t.msg, t.cur, rest[1..])
      && (!over ==> found == EntryIf(rest[0], mask, mem))
  {
    ghost var at, size, data := t.cur, 0, [];
    if listed {
      ListedKind(t.msg, at, rest);
    }
    ret, kind, found, over, size, data := ModuleStep(t, mask, mem);
    if listed && rest != [] {
      HeadRead(t.msg, at, rest, kind, size, data, rest[0], rest[1..]);
    }
  }

  lemma EntriesNext(rs: seq<Record>, mask: nat, mem: nat -> nat, tried: seq<Entry>)
    requires rs != []
    ensures tried + Entries(rs, mask, mem) == (tried + EntryIf(rs[0], mask, mem)) + Entries(rs[1..], mask, mem)
  {}

  /** What a walk over the records `rs` has to end with. */
  ghost predicate Walked(all: seq<Entry>, room: nat, ret: int, tried: seq<Entry>) {
    && tried <= all
    && if |all| <= room then tried == all && ret == -EINVAL else |tried| == room + 1 && ret == -ENOMEM
  }

  lemma StopsFull(all: seq<Entry>, room: nat, tried: seq<Entry>, todo: seq<Entry>)
    requires all == tried + todo && |tried| == room + 1
    ensures Walked(all, room, -ENOMEM, tried)
  {}

  /** The walk for modules. `room` is how many entries can be added before adding fails;
      `tried` are the entries it tried to add. On a record list it runs over its buffer
      exactly if it comes to a record that is too long before adding fails. Otherwise it
      tries exactly the wanted records, in order, until adding fails, or ends at the
      INVALID record with -EINVAL. On any buffer it ends and reads only inside. */
  method WalkModules(t: Cursor, mask: nat, mem: nat -> nat, room: nat, ghost rs: seq<Record>)
    returns (ret: int, tried: seq<Entry>, over: bool)
    requires t.cur == 0
    modifies t
    ensures |tried| <= room + 1
    ensures Listed(t.msg, 0, rs) ==> (over <==> Overruns(rs, mask, mem, room))
    ensures Listed(t.msg, 0, rs) && !over ==> Walked(Entries(rs, mask, mem), room, ret, tried)
  {
    tried, ret, over := [], 0, false;
    ghost var rest, all, listed := rs, Entries(rs, mask, mem), Listed(t.msg, 0, rs);
    ghost var long := Overruns(rs, mask, mem, room);
    var kind, more := INVALID, true;
    while more
      invariant |tried| <= room && t.cur <= |t.msg| + 0x2_0000 && !over
      invariant listed ==>
        if more then Listed(t.msg, t.cur, rest) && all == tried + Entries(rest, mask, mem) else all == tried
      invariant listed ==> long == (more && Overruns(rest, mask, mem, room - |tried|))
      decreases |t.msg| + 0x2_0000 - t.cur, more
    {
      var found;
      ret, kind, found, over := NextModule(t, mask, mem, rest, Listed(t.msg, t.cur, rest));
      if ret != 0 || over {
        return;
      }
      if rest != [] {
        EntriesNext(rest, mask, mem, tried);
        if listed {
          OverrunsNext(rest, mask, mem, room - |tried|, found);
        }
        rest := rest[1..];
      }
      tried := tried + found;
      if |tried| > room {
        if listed {
          StopsFull(all, room, tried, Entries(rest, mask, mem));
        }
        return -ENOMEM, tried, false;
      }
      more := kind != INVALID;
    }
    ret := -EINVAL;
  }

  // ----- the first record of one kind -----

  function FirstOf(rs: seq<Record>, kind: byte): Option<Record> {
    if rs == [] then None else if rs[0].kind == kind then Some(rs[0]) else FirstOf(rs[1..], kind)
  }

  /** It is the first of its kind in the list, if there is one. */
  lemma {:induction false} FirstIs(rs: seq<Record>, kind: byte)
    ensures FirstOf(rs, kind) == None <==> forall i :: 0 <= i < |rs| ==> rs[i].kind != kind
    ensures FirstOf(rs, kind).Some? ==>
      exists i :: 0 <= i < |rs| && rs[i] == FirstOf(rs, kind).value && rs[i].kind == kind
                  && forall j :: 0 <= j < i ==> rs[j].kind != kind
  {
    if rs != [] && rs[0].kind != kind {
      var rest := rs[1..];
      FirstIs(rest, kind);
      assert forall i :: 0 <= i < |rest| ==> rest[i] == rs[i + 1];
      if FirstOf(rest, kind).Some? {
        var i :| 0 <= i < |rest| && rest[i] == FirstOf(rest, kind).value && rest[i].kind == kind
                 && forall j :: 0 <= j < i ==> rest[j].kind != kind;
        assert rs[i + 1] == rest[i];
      }
    }
  }

  /** What is dumped for a record: a copy of its data, or the area that it names. */
  datatype Source = Copy(bytes: seq<byte>) | Area(start: nat, size: nat)

  function SourceOf(r: Record, mem: nat -> nat): Source {
    if r.kind == UNAME then Copy(r.data)
    else Area(FieldAt(r.data, 0, 8), if r.kind == DMESG then mem(FieldAt(r.data, 8, 8)) else FieldAt(r.data, 8, 8))
  }

  /** What a record of a start address and a size names: for a kernel log, of kind 2, the
      size is read from memory, for a page table, of kind 3, it is the number itself. The
      system name, of kind 1, is the data of its record. */
  lemma SourceReads(kind: byte, start: nat, size: nat, rest: seq<byte>, mem: nat -> nat)
    requires start < 0x1_0000_0000_0000_0000 && size < 0x1_0000_0000_0000_0000
    ensures var r := Record(kind, Le(8, start) + (Le(8, size) + rest));
            && (kind == 1 ==> SourceOf(r, mem) == Copy(r.data))
            && (kind == 2 ==> SourceOf(r, mem) == Area(start, mem(size)))
            && (kind == 3 ==> SourceOf(r, mem) == Area(start, size))
  {
    var b := Le(8, size) + rest;
    var data := Le(8, start) + b;
    HeldParts(data, 0, Le(8, start), b);
    HeldParts(data, 8, Le(8, size), rest);
    Pow256Values();
    FieldHeld(data, 0, 8, start);
    FieldHeld(data, 8, 8, size);
  }

  /** `s` is what the record names. */
  ghost predicate Dumped(r: Record, mem: nat -> nat, s: Source) {
    && (r.kind == 1 ==> s == Copy(r.data))
    && forall start: nat, size: nat, rest ::
         (&& r.data == Le(8, start) + (Le(8, size) + rest)
          && start < 0x1_0000_0000_0000_0000 && size < 0x1_0000_0000_0000_0000) ==>
           (r.kind == 2 ==> s == Area(start, mem(size))) && (r.kind == 3 ==> s == Area(start, size))
  }

  lemma SourceDumped(r: Record, mem: nat -> nat)
    ensures Dumped(r, mem, SourceOf(r, mem))
  {
    forall start: nat, size: nat, rest | r.data == Le(8, start) + (Le(8, size) + rest)
      && start < 0x1_0000_0000_0000_0000 && size < 0x1_0000_0000_0000_0000
      ensures (r.kind == 2 ==> SourceOf(r, mem) == Area(start, mem(size)))
      ensures (r.kind == 3 ==> SourceOf(r, mem) == Area(start, size))
    {
      SourceReads(r.kind, start, size, rest, mem);
      assert r == Record(r.kind, Le(8, start) + (Le(8, size) + rest));
    }
  }

  /** The walk for a record of one kind: what the first one in the list names, and
      -EINVAL if there is none. It runs over its buffer exactly if that record is too
      long. */
  method WalkOne(t: Cursor, wanted: byte, mem: nat -> nat, ghost rs: seq<Record>)
    returns (ret: int, found: Option<Source>, over: bool)
    requires t.cur == 0 && UNAME <= wanted <= LEVEL1_PT
    modifies t
    ensures !over ==> (ret == 0 <==> found.Some?)
    ensures Listed(t.msg, 0, rs) ==>
      var first := FirstOf(rs, wanted);
      && (over <==> first.Some? && 512 < |first.value.data|)
      && (!over ==> found == if first.Some? then Some(SourceOf(first.value, mem)) else None)
      && (!over && first.Some? ==> Dumped(first.value, mem, found.value))
      && (ret == 0 || ret == -EINVAL)
  {
    found, ret, over := None, 0, false;
    ghost var rest, listed := rs, Listed(t.msg, 0, rs);
    var kind, size, more := INVALID, 0, true;
    while more
      invariant found == None && !over && t.cur <= |t.msg| + 0x2_0000
      invariant listed ==>
        if more then Listed(t.msg, t.cur, rest) && FirstOf(rs, wanted) == FirstOf(rest, wanted)
        else FirstOf(rs, wanted) == None
      decreases |t.msg| + 0x2_0000 - t.cur, more
    {
      ghost var data;
      ret, kind, size, data := ReadHead(t, rest, if rest == [] then [] else rest[1..], Listed(t.msg, t.cur, rest));
      if ret != 0 {
        return;
      }
      if kind == wanted {
        ret, found, over := TakeOne(t, kind, size, mem, data);
        SourceDumped(Record(kind, data), mem);
        return;
      }
      t.cur := t.cur + (size + HEADER);
      more := kind != INVALID;
      rest := if rest == [] then [] else rest[1..];
    }
    ret := -EINVAL;
  }

  /** The head of a record, on a record list that of the next record. */
  method ReadHead(t: Cursor, ghost rest: seq<Record>, ghost next: seq<Record>, ghost listed: bool)
    returns (ret: int, kind: byte, size: nat, ghost data: seq<byte>)
    requires listed == Listed(t.msg, t.cur, rest) && (rest != [] ==> next == rest[1..])
    ensures size < 0x1_0000 && data == t.DataAt(size) && (ret == 0 ==> t.cur + HEADER < |t.msg|)
    ensures listed ==> ret == 0 && (kind == INVALID <==> rest == [])
    ensures listed && rest != [] ==>
      && rest[0] == Record(kind, data) && t.cur + HEADER + size < |t.msg| && |data| == size
      && Listed(t.msg, t.cur + HEADER + size, next)
  {
    if listed {
      ListedKind(t.msg, t.cur, rest);
    }
    ret, kind, size := ReadInfo(t);
    data := t.DataAt(size);
    if listed {
      HeadIs(t.msg, t.cur, rest, kind, size, data, next);
    }
  }

  /** Type and size of the current record; no size if there is none. */
  method ReadInfo(t: Cursor) returns (ret: int, kind: byte, size: nat)
    ensures size < 0x1_0000 && (ret == 0 <==> t.cur + HEADER < |t.msg|)
    ensures ret == 0 ==> kind == t.msg[t.cur] && size == t.msg[t.cur + 1] as int + 256 * t.msg[t.cur + 2] as int
  {
    ret, kind, size := t.ExtractInfo();
    if ret != 0 {
      size := 0;
    }
  }

  lemma HeadIs(msg: seq<byte>, at: nat, rs: seq<Record>, kind: byte, size: nat, data: seq<byte>, next: seq<Record>)
    requires Listed(msg, at, rs) && at + HEADER < |msg| && (rs != [] ==> next == rs[1..])
    requires kind == msg[at] && size == msg[at + 1] as int + 256 * msg[at + 2] as int
    requires data == if at + HEADER + size < |msg| then msg[at + HEADER..at + HEADER + size] else []
    ensures rs != [] ==>
      && rs[0] == Record(kind, data) && at + HEADER + size < |msg| && |data| == size
      && Listed(msg, at + HEADER + size, next)
  {
    ListedHead(msg, at, rs);
  }

  method TakeOne(t: Cursor, kind: byte, size: nat, mem: nat -> nat, ghost data: seq<byte>)
    returns (ret: int, found: Option<Source>, over: bool)
    requires UNAME <= kind <= LEVEL1_PT
    requires data == t.DataAt(size)
    modifies t
    ensures ret == if old(t.cur) + HEADER + size < |t.msg| then 0 else -EINVAL
    ensures over <==> ret == 0 && BUF < size
    ensures !over ==> found == if ret == 0 then Some(SourceOf(Record(kind, data), mem)) else None
  {
    var buf := new byte[BUF](_ => 0);
    found := None;
    ret, over := t.ExtractData(buf, size);
    if ret != 0 {
      ret := -EINVAL;
    } else {
      if !over {
        PaddedSource(buf[..], kind, data, mem);
      }
      found := Some(if kind == UNAME then Copy(buf[..Min(size, BUF)]) else SourceOf(Record(kind, buf[..]), mem));
    }
  }

  lemma PaddedSource(s: seq<byte>, kind: byte, data: seq<byte>, mem: nat -> nat)
    requires Padded(s, data)
    ensures s[..|data|] == data
    ensures kind != UNAME ==> SourceOf(Record(kind, s), mem) == SourceOf(Record(kind, data), mem)
  {
    PaddedField(s, data, 0, 8);
    PaddedField(s, data, 8, 8);
  }
}
