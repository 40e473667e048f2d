/** The mtdparts string made from the partition table (arch/arm/mach-ipq/fdt_fixup.c),
    and a parser that reads it back. */
module MtdParts {
  import opened Common
  import opened Bits

  const SZ_1K: nat := 0x400
  const SZ_1M: nat := 0x10_0000
  const TILL_END: nat := 0xFFFF_FFFF

  /** A partition of the table, in blocks of `bsize` bytes. */
  datatype Part = Part(start: nat, size: nat, bsize: nat, name: string, nand: bool)

  /** The NAND device size, and the limits of the range check. */
  datatype Flash = Flash(mtdSize: nat, norLimit: nat, nandLimit: nat)

  function Offset(p: Part): nat {
    p.start * p.bsize
  }

  function Size(p: Part, f: Flash): int {
    if p.size == TILL_END then f.mtdSize - p.start * p.bsize else p.size * p.bsize
  }

  predicate InRange(p: Part, f: Flash) {
    Offset(p) + Size(p, f) <= if p.nand then f.nandLimit else f.norLimit
  }

  // ----- numbers -----

  function Digit(d: nat): char
    requires d < 16
  {
    "0123456789abcdef"[d]
  }

  function UnDigit(c: char): nat {
    if '0' <= c <= '9' then (c - '0') as nat
    else if 'a' <= c <= 'f' then 10 + (c - 'a') as nat
    else 0
  }

  function Base(hex: bool): nat {
    if hex then 16 else 10
  }

  function Quotient(n: nat, hex: bool): nat {
    if hex then n / 16 else n / 10
  }

  function Rest(n: nat, hex: bool): (r: nat)
    ensures r < Base(hex)
    ensures n == Quotient(n, hex) * Base(hex) + r
  {
    if hex then n % 16 else n % 10
  }

  /** %llu and %llx. */
  function Number(n: nat, hex: bool): (s: string)
    ensures s != [] && Plain(s)
    decreases n
  {
    if n < Base(hex) then [Digit(n)] else Number(Quotient(n, hex), hex) + [Digit(Rest(n, hex))]
  }

  function UnNumber(s: string, hex: bool): nat {
    if s == [] then 0 else UnNumber(s[..|s| - 1], hex) * Base(hex) + UnDigit(s[|s| - 1])
  }

  lemma DigitReads(d: nat)
    requires d < 16
    ensures UnDigit(Digit(d)) == d
  {}

  lemma UnNumberNext(s: string, c: char, hex: bool)
    ensures UnNumber(s + [c], hex) == UnNumber(s, hex) * Base(hex) + UnDigit(c)
  {
    assert (s + [c])[..|s|] == s;
  }

  lemma {:induction false} NumberReads(n: nat, hex: bool)
    ensures UnNumber(Number(n, hex), hex) == n
    decreases n
  {
    var d := if n < Base(hex) then n else Rest(n, hex);
    DigitReads(d);
    if n < Base(hex) {
      UnNumberNext([], Digit(d), hex);
      assert [] + [Digit(d)] == [Digit(d)];
    } else {
      var q := Quotient(n, hex);
      NumberReads(q, hex);
      UnNumberNext(Number(q, hex), Digit(d), hex);
    }
  }

  /** %lld. */
  function Signed(n: int): (s: string)
    ensures Plain(s)
  {
    if n < 0 then "-" + Number(-n, false) else Number(n, false)
  }

  function UnSigned(s: string): int {
    if s != [] && s[0] == '-' then 0 - UnNumber(s[1..], false) else UnNumber(s, false)
  }

  /** Digits and a sign. */
  predicate Plain(s: string) {
    forall i :: 0 <= i < |s| ==> s[i] == '-' || '0' <= s[i] <= '9' || 'a' <= s[i] <= 'f'
  }

  lemma {:induction false} NumberStart(n: nat, hex: bool)
    ensures Number(n, hex)[0] != '-'
    decreases n
  {
    if n >= Base(hex) {
      NumberStart(Quotient(n, hex), hex);
    }
  }

  lemma SignedReads(n: int)
    ensures UnSigned(Signed(n)) == n
  {
    if n < 0 {
      NegativeReads(-n, Number(-n, false));
    } else {
      NumberReads(n, false);
      NumberStart(n, false);
    }
  }

  lemma NegativeReads(n: nat, s: string)
    requires s == Number(n, false)
    ensures UnSigned("-" + s) == 0 - n
  {
    NumberReads(n, false);
    assert ("-" + s)[1..] == s;
  }

  // ----- one entry -----

  /** The size with its unit: mebibytes or kibibytes if it is a larger whole number of them. */
  function Scaled(n: int): string {
    if n > SZ_1M && And(n, SZ_1M - 1) == 0 then Signed(n / SZ_1M) + "M"
    else if n > SZ_1K && And(n, SZ_1K - 1) == 0 then Signed(n / SZ_1K) + "K"
    else Signed(n)
  }

  function UnScaled(s: string): int {
    if s == [] then 0
    else if s[|s| - 1] == 'M' then UnSigned(s[..|s| - 1]) * SZ_1M
    else if s[|s| - 1] == 'K' then UnSigned(s[..|s| - 1]) * SZ_1K
    else UnSigned(s)
  }

  lemma WholeUnits(n: int, k: nat, unit: nat)
    requires 0 < n && unit == Pow2(k) && And(n, unit - 1) == 0
    ensures n / unit * unit == n
  {
    AndMask(n, k);
  }

  lemma UnitReads(n: int, c: char)
    requires c == 'M' || c == 'K'
    ensures UnScaled(Signed(n) + [c]) == n * (if c == 'M' then SZ_1M else SZ_1K)
  {
    SignedReads(n);
    var s := Signed(n) + [c];
    assert s[..|s| - 1] == Signed(n);
  }

  /** Scaling loses nothing. */
  lemma ScaledReads(n: int)
    ensures UnScaled(Scaled(n)) == n
  {
    UnitsArePowers();
    if n > SZ_1M && And(n, SZ_1M - 1) == 0 {
      WholeUnits(n, 20, SZ_1M);
      UnitReads(n / SZ_1M, 'M');
    } else if n > SZ_1K && And(n, SZ_1K - 1) == 0 {
      WholeUnits(n, 10, SZ_1K);
      UnitReads(n / SZ_1K, 'K');
    } else {
      SignedReads(n);
    }
  }

  lemma UnitsArePowers()
    ensures Pow2(20) == SZ_1M && Pow2(10) == SZ_1K
  {
    assert Pow2(5) == 32;
    assert Pow2(10) == SZ_1K;
    assert Pow2(15) == 32 * SZ_1K;
  }

  /** A size larger than a mebibyte is printed in whole ones if that is exact, and
      likewise in kibibytes. */
  lemma UnitIs(n: int)
    ensures Scaled(n) ==
            if n > 1048576 && n % 1048576 == 0 then Signed(n / 1048576) + "M"
            else if n > 1024 && n % 1024 == 0 then Signed(n / 1024) + "K" else Signed(n)
  {
    UnitsArePowers();
    if n > 0 {
      AndMask(n, 20);
      AndMask(n, 10);
    }
  }

  /** The text of one partition, without the comma. */
  function EntryText(p: Part, f: Flash): string {
    Glued(Scaled(Size(p, f)), Number(Offset(p), true), p.name)
  }

  function Glued(size: string, hex: string, name: string): string {
    size + "@" + ("0x" + hex + "(" + (name + ")"))
  }

  // ----- parsing -----

  datatype Item = Item(device: string, size: int, offset: nat, name: string)

  function Before(s: string, c: char): string {
    if s == [] || s[0] == c then [] else [s[0]] + Before(s[1..], c)
  }

  /** What follows the first `c`; nothing if there is none. */
  function After(s: string, c: char): string {
    if s == [] then [] else if s[0] == c then s[1..] else After(s[1..], c)
  }

  function Split(s: string, c: char): (r: seq<string>)
    ensures r != []
  {
    if s == [] then [[]]
    else if s[0] == c then [[]] + Split(s[1..], c)
    else var r := Split(s[1..], c); [[s[0]] + r[0]] + r[1..]
  }

  function ParseEntry(device: string, s: string): Item {
    var right := After(s, '@');
    var offset := Before(right, '(');
    Item(device, UnScaled(Before(s, '@')),
         UnNumber(if |offset| < 2 then [] else offset[2..], true),
         Before(After(right, '('), ')'))
  }

  /** The entries of a device; empty ones do not count. */
  function ParseList(device: string, entries: seq<string>): seq<Item> {
    if entries == [] then []
    else (if entries[0] == [] then [] else [ParseEntry(device, entries[0])]) + ParseList(device, entries[1..])
  }

  function ParseDevice(s: string): seq<Item> {
    ParseList(Before(s, ':'), Split(After(s, ':'), ','))
  }

  function ParseDevices(devices: seq<string>): seq<Item> {
    if devices == [] then [] else ParseDevice(devices[0]) + ParseDevices(devices[1..])
  }

  function Parse(s: string): seq<Item> {
    ParseDevices(Split(s, ';'))
  }

  predicate Lacks(s: string, c: char) {
    forall i :: 0 <= i < |s| ==> s[i] != c
  }

  lemma {:induction false} Cut(a: string, c: char, b: string)
    requires Lacks(a, c)
    ensures Before(a + [c] + b, c) == a && After(a + [c] + b, c) == b
    ensures Split(a + [c] + b, c) == [a] + Split(b, c)
  {
    var s := a + [c] + b;
    if a != [] {
      assert s[1..] == a[1..] + [c] + b;
      Cut(a[1..], c, b);
      assert [a[0]] + a[1..] == a;
    } else {
      assert s[1..] == b;
    }
  }

  lemma {:induction false} NoCut(a: string, c: char)
    requires Lacks(a, c)
    ensures Before(a, c) == a && After(a, c) == [] && Split(a, c) == [a]
  {
    if a != [] {
      NoCut(a[1..], c);
    }
  }

  // ----- whole strings -----

  /** Names that cannot be mistaken for something else. */
  predicate PlainName(name: string) {
    Lacks(name, ',') && Lacks(name, ';') && Lacks(name, ')')
  }

  lemma PlainLacks(s: string, c: char)
    requires Plain(s) && c in {',', ';', ':', '@', '(', ')', 'M', 'K'}
    ensures Lacks(s, c)
  {}

  lemma ScaledLacks(n: int, c: char)
    requires c in {',', ';', ':', '@', '(', ')'}
    ensures Lacks(Scaled(n), c)
  {}

  function ItemOf(device: string, p: Part, f: Flash): Item {
    Item(device, Size(p, f), Offset(p), p.name)
  }

  /** One entry reads back with its exact size, offset and name. */
  lemma EntryReads(device: string, p: Part, f: Flash)
    requires PlainName(p.name)
    ensures ParseEntry(device, EntryText(p, f)) == ItemOf(device, p, f)
  {
    var size, hex := Scaled(Size(p, f)), "0x" + Number(Offset(p), true);
    var right := hex + "(" + (p.name + ")");
    ScaledLacks(Size(p, f), '@');
    Cut(size, '@', right);
    Cut(hex, '(', p.name + ")");
    assert p.name + ")" == p.name + [')'] + [];
    Cut(p.name, ')', []);
    ScaledReads(Size(p, f));
    assert hex[2..] == Number(Offset(p), true);
    NumberReads(Offset(p), true);
  }

  lemma EntryLacks(p: Part, f: Flash, c: char)
    requires PlainName(p.name) && c in {',', ';'}
    ensures Lacks(EntryText(p, f), c) && EntryText(p, f) != []
  {
    ScaledLacks(Size(p, f), c);
    PlainLacks(Number(Offset(p), true), c);
  }

  function EntryOrNone(p: Part, f: Flash): string {
    if InRange(p, f) then EntryText(p, f) + "," else []
  }

  /** The entries of the partitions that are in range, each with its comma. */
  function EntriesText(ps: seq<Part>, f: Flash): string {
    if ps == [] then []
    else EntryOrNone(ps[0], f) + EntriesText(ps[1..], f)
  }

  function Items(device: string, ps: seq<Part>, f: Flash): seq<Item> {
    if ps == [] then []
    else (if InRange(ps[0], f) then [ItemOf(device, ps[0], f)] else []) + Items(device, ps[1..], f)
  }

  ghost predicate PlainNames(ps: seq<Part>) {
    forall i :: 0 <= i < |ps| ==> PlainName(ps[i].name)
  }

  lemma ListCons(device: string, e: string, rest: seq<string>)
    requires e != []
    ensures ParseList(device, [e] + rest) == [ParseEntry(device, e)] + ParseList(device, rest)
  {
    assert ([e] + rest)[1..] == rest;
  }

  lemma EntryFirst(device: string, p: Part, f: Flash, e: string, rest: string)
    requires PlainName(p.name) && e == EntryText(p, f)
    ensures ParseList(device, Split(e + "," + rest, ',')) ==
            [ItemOf(device, p, f)] + ParseList(device, Split(rest, ','))
    ensures Lacks(rest, ';') ==> Lacks(e + "," + rest, ';')
  {
    EntryLacks(p, f, ',');
    EntryLacks(p, f, ';');
    Cut(e, ',', rest);
    EntryReads(device, p, f);
    ListCons(device, e, Split(rest, ','));
  }

  lemma {:induction false} EntriesRead(device: string, ps: seq<Part>, f: Flash)
    requires PlainNames(ps)
    ensures ParseList(device, Split(EntriesText(ps, f), ',')) == Items(device, ps, f)
    ensures Lacks(EntriesText(ps, f), ';')
  {
    if ps != [] {
      EntriesRead(device, ps[1..], f);
      if InRange(ps[0], f) {
        EntryFirst(device, ps[0], f, EntryText(ps[0], f), EntriesText(ps[1..], f));
      } else {
        assert EntriesText(ps, f) == EntriesText(ps[1..], f);
      }
    }
  }

  // ----- the last character -----

  lemma {:induction false} SplitLast(s: string, c: char)
    ensures Split(s + [c], c) == Split(s, c) + [[]]
  {
    if s == [] {
      assert (s + [c])[1..] == [];
    } else {
      SplitLast(s[1..], c);
      assert (s + [c])[1..] == s[1..] + [c];
    }
  }

  lemma {:induction false} EmptyLast(device: string, entries: seq<string>)
    ensures ParseList(device, entries + [[]]) == ParseList(device, entries)
  {
    var l := entries + [[]];
    if entries == [] {
      assert l[1..] == [];
    } else {
      EmptyLast(device, entries[1..]);
      assert l[1..] == entries[1..] + [[]];
    }
  }

  /** The entries end with a comma if there are any. */
  lemma {:induction false} EntriesEnd(ps: seq<Part>, f: Flash)
    ensures var t := EntriesText(ps, f);
            && (t != [] <==> exists k :: 0 <= k < |ps| && InRange(ps[k], f))
            && (t != [] ==> t[|t| - 1] == ',')
            && (t == [] ==> forall device :: Items(device, ps, f) == [])
  {
    if ps != [] {
      EntriesEnd(ps[1..], f);
      var rest := EntriesText(ps[1..], f);
      assert forall k :: 0 <= k < |ps| - 1 ==> ps[1..][k] == ps[k + 1];
      if InRange(ps[0], f) {
        assert EntriesText(ps, f) == EntryText(ps[0], f) + "," + rest;
      } else {
        assert EntriesText(ps, f) == rest;
        assert (exists k :: 0 <= k < |ps| && InRange(ps[k], f)) ==>
               exists k :: 0 <= k < |ps[1..]| && InRange(ps[1..][k], f);
      }
    }
  }

  function Trim(s: string): string {
    if s == [] then [] else s[..|s| - 1]
  }

  lemma TrimmedList(device: string, t: string)
    requires t != [] && t[|t| - 1] == ','
    ensures ParseList(device, Split(Trim(t), ',')) == ParseList(device, Split(t, ','))
  {
    assert t == Trim(t) + [','];
    SplitLast(Trim(t), ',');
    EmptyLast(device, Split(Trim(t), ','));
  }

  lemma BareDevice(device: string)
    requires Lacks(device, ':')
    ensures ParseDevice(device) == []
  {
    NoCut(device, ':');
    EmptyLast(device, []);
    assert Split([], ',') == [] + [[]];
  }

  lemma DeviceList(device: string, t: string)
    requires Lacks(device, ':')
    ensures ParseDevice(device + ":" + t) == ParseList(device, Split(t, ','))
  {
    Cut(device, ':', t);
  }

  /** A device's text reads back with and without its last character. */
  lemma DeviceReads(device: string, ps: seq<Part>, f: Flash, s: string)
    requires PlainNames(ps) && Lacks(device, ':') && Lacks(device, ';')
    requires s == device + ":" + EntriesText(ps, f)
    ensures ParseDevice(s) == Items(device, ps, f)
    ensures Lacks(s, ';')
  {
    EntriesRead(device, ps, f);
    DeviceList(device, EntriesText(ps, f));
  }

  lemma TrimmedReads(device: string, ps: seq<Part>, f: Flash, s: string)
    requires PlainNames(ps) && Lacks(device, ':') && Lacks(device, ';')
    requires s == device + ":" + EntriesText(ps, f)
    ensures ParseDevice(Trim(s)) == Items(device, ps, f)
    ensures Lacks(Trim(s), ';')
  {
    var t := EntriesText(ps, f);
    DeviceReads(device, ps, f, s);
    EntriesEnd(ps, f);
    if t == [] {
      assert Trim(s) == device;
      BareDevice(device);
    } else {
      assert Trim(s) == device + ":" + Trim(t);
      DeviceList(device, t);
      DeviceList(device, Trim(t));
      TrimmedList(device, t);
    }
  }

  // ----- the whole string -----

  /** What one pass of the loop appends. */
  function Piece(p: Part, f: Flash, init: bool): string {
    (if p.nand && !init then ";nand0:" else []) + EntryOrNone(p, f)
  }

  /** What the loop appends for `ps`, when the NAND header has been printed or not. */
  function Text(ps: seq<Part>, f: Flash, init: bool): string {
    if ps == [] then [] else Piece(ps[0], f, init) + Text(ps[1..], f, init || ps[0].nand)
  }

  method PrintSize(psize: int) returns (s: string)
    ensures s == Scaled(psize) + "@"
  {
    if psize > SZ_1M && And(psize, SZ_1M - 1) == 0 {
      s := Signed(psize / SZ_1M) + "M@";
    } else if psize > SZ_1K && And(psize, SZ_1K - 1) == 0 {
      s := Signed(psize / SZ_1K) + "K@";
    } else {
      s := Signed(psize) + "@";
    }
  }

  lemma Glue(size: string, hex: string, name: string)
    ensures size + "@" + "0x" + hex + "(" + name + ")," == Glued(size, hex, name) + ","
  {}

  /** ipq_smem_part_to_mtdparts, in a buffer that is large enough. */
  method ToMtdparts(id: string, ps: seq<Part>, f: Flash) returns (s: string)
    ensures s == if ps == [] then "" else Trim(id + ":" + Text(ps, f, false))
  {
    s := id + ":";
    var init := false;
    var i := 0;
    ghost var whole := s + Text(ps, f, false);
    while i < |ps|
      invariant 0 <= i <= |ps| && s + Text(ps[i..], f, init) == whole && s != []
    {
      ghost var before := s;
      var piece := PrintPiece(ps[i], f, init);
      s := s + piece;
      TextNext(ps, i, f, init);
      Assoc(before, piece, Text(ps[i + 1..], f, init || ps[i].nand));
      init := init || ps[i].nand;
      i := i + 1;
    }
    s := if |ps| == 0 then "" else s[..|s| - 1];
  }

  /** One pass of the loop. */
  method PrintPiece(p: Part, f: Flash, init: bool) returns (s: string)
    ensures s == Piece(p, f, init)
  {
    s := "";
    if p.nand && !init {
      s := ";nand0:";
    }
    var psize := if p.size == TILL_END then f.mtdSize - p.start * p.bsize else p.size * p.bsize;
    if p.start * p.bsize + psize <= if p.nand then f.nandLimit else f.norLimit {
      var size := PrintSize(psize);
      var hex := Number(p.start * p.bsize, true);
      Glue(Scaled(psize), hex, p.name);
      s := s + (size + "0x" + hex + "(" + p.name + "),");
    }
  }

  lemma TextNext(ps: seq<Part>, i: nat, f: Flash, init: bool)
    requires i < |ps|
    ensures Text(ps[i..], f, init) == Piece(ps[i], f, init) + Text(ps[i + 1..], f, init || ps[i].nand)
  {
    assert ps[i..][1..] == ps[i + 1..];
  }

  // ----- the round trip -----

  /** The partitions before the first NAND one. */
  function Lead(ps: seq<Part>): (k: nat)
    ensures k <= |ps|
  {
    if ps == [] || ps[0].nand then 0 else 1 + Lead(ps[1..])
  }

  lemma TextPlain(ps: seq<Part>, f: Flash, init: bool, e: string, rest: string)
    requires ps != [] && e == EntryOrNone(ps[0], f) && rest == Text(ps[1..], f, init || ps[0].nand)
    requires init || !ps[0].nand
    ensures Text(ps, f, init) == e + rest
  {
    PlainPiece(ps[0], f, init, e);
  }

  lemma PlainPiece(p: Part, f: Flash, init: bool, e: string)
    requires e == EntryOrNone(p, f) && (init || !p.nand)
    ensures Piece(p, f, init) == e
  {}

  lemma TextHeader(ps: seq<Part>, f: Flash, e: string, rest: string)
    requires ps != [] && e == EntryOrNone(ps[0], f) && rest == Text(ps[1..], f, true)
    requires ps[0].nand
    ensures Text(ps, f, false) == ";nand0:" + (e + rest)
  {}

  lemma EntriesCons(ps: seq<Part>, f: Flash, e: string, rest: string)
    requires ps != [] && e == EntryOrNone(ps[0], f) && rest == EntriesText(ps[1..], f)
    ensures EntriesText(ps, f) == e + rest
  {}

  lemma {:induction false} TextAfterHeader(ps: seq<Part>, f: Flash)
    ensures Text(ps, f, true) == EntriesText(ps, f)
  {
    if ps != [] {
      var e, rest := EntryOrNone(ps[0], f), EntriesText(ps[1..], f);
      TextAfterHeader(ps[1..], f);
      TextPlain(ps, f, true, e, rest);
      EntriesCons(ps, f, e, rest);
    }
  }

  /** What the partitions from the first NAND one on add. */
  function NandText(ps: seq<Part>, f: Flash): string {
    if ps == [] then [] else ";nand0:" + EntriesText(ps, f)
  }

  lemma {:induction false} TextIs(ps: seq<Part>, f: Flash)
    ensures var k := Lead(ps);
            Text(ps, f, false) == EntriesText(ps[..k], f) + NandText(ps[k..], f)
  {
    var k := Lead(ps);
    if ps == [] {
    } else if k == 0 {
      assert ps[k..] == ps;
      TextFromHeader(ps, f);
    } else {
      TextIs(ps[1..], f);
      assert ps[..k][1..] == ps[1..][..k - 1] && ps[k..] == ps[1..][k - 1..];
      TextGrows(ps, f, EntriesText(ps[1..][..k - 1], f), NandText(ps[k..], f), ps[..k]);
    }
  }

  lemma TextFromHeader(ps: seq<Part>, f: Flash)
    requires ps != [] && ps[0].nand
    ensures Text(ps, f, false) == NandText(ps, f)
  {
    var e, rest := EntryOrNone(ps[0], f), EntriesText(ps[1..], f);
    TextAfterHeader(ps[1..], f);
    TextHeader(ps, f, e, rest);
    EntriesCons(ps, f, e, rest);
  }

  lemma TextGrows(ps: seq<Part>, f: Flash, rest: string, nand: string, first: seq<Part>)
    requires ps != [] && !ps[0].nand && Text(ps[1..], f, false) == rest + nand
    requires first != [] && first[0] == ps[0] && EntriesText(first[1..], f) == rest
    ensures Text(ps, f, false) == EntriesText(first, f) + nand
  {
    var e := EntryOrNone(ps[0], f);
    TextPlain(ps, f, false, e, rest + nand);
    EntriesCons(first, f, e, rest);
    Assoc(e, rest, nand);
  }

  /** The partitions in range, in order; once a NAND partition has come, all of them
      under the NAND device. */
  function Expected(id: string, ps: seq<Part>, f: Flash, init: bool): seq<Item> {
    if ps == [] then [] else
    var nand := init || ps[0].nand;
    (if InRange(ps[0], f) then [ItemOf(if nand then "nand0" else id, ps[0], f)] else [])
    + Expected(id, ps[1..], f, nand)
  }

  lemma {:induction false} ExpectedAfterHeader(id: string, ps: seq<Part>, f: Flash)
    ensures Expected(id, ps, f, true) == Items("nand0", ps, f)
  {
    if ps != [] {
      ExpectedAfterHeader(id, ps[1..], f);
    }
  }

  lemma {:induction false} ExpectedIs(id: string, ps: seq<Part>, f: Flash)
    ensures var k := Lead(ps);
            Expected(id, ps, f, false) == Items(id, ps[..k], f) + Items("nand0", ps[k..], f)
  {
    var k := Lead(ps);
    if k == 0 {
      assert ps[k..] == ps;
      if ps != [] {
        ExpectedAfterHeader(id, ps[1..], f);
      }
    } else {
      ExpectedIs(id, ps[1..], f);
      assert ps[..k][1..] == ps[1..][..k - 1] && ps[k..] == ps[1..][k - 1..];
    }
  }

  /** The item is that of the partition, in numbers: a partition to the end of the device
      ends there, and every item ends within the limit of its own flash. */
  ghost predicate FromEntry(p: Part, f: Flash, x: Item) {
    && x.name == p.name && x.offset == p.start * p.bsize
    && x.offset + x.size == (if p.size == 0xFFFF_FFFF then f.mtdSize else p.start * p.bsize + p.size * p.bsize)
    && x.offset + x.size <= if p.nand then f.nandLimit else f.norLimit
  }

  /** The range check, in numbers. */
  lemma InRangeIs(p: Part, f: Flash, device: string)
    ensures FromEntry(p, f, ItemOf(device, p, f)) <==> InRange(p, f)
    ensures p.size == 0xFFFF_FFFF ==> (InRange(p, f) <==> f.mtdSize <= if p.nand then f.nandLimit else f.norLimit)
    ensures p.size != 0xFFFF_FFFF ==>
      (InRange(p, f) <==> p.start * p.bsize + p.size * p.bsize <= if p.nand then f.nandLimit else f.norLimit)
  {}

  /** Every item comes from a partition of the table, and every partition that ends within
      its limit gives one. */
  lemma {:induction false} ItemsAreEntries(id: string, ps: seq<Part>, f: Flash, init: bool)
    ensures forall x :: x in Expected(id, ps, f, init) ==> exists k :: 0 <= k < |ps| && FromEntry(ps[k], f, x)
    ensures forall k :: 0 <= k < |ps| && InRange(ps[k], f) ==>
      exists x :: x in Expected(id, ps, f, init) && FromEntry(ps[k], f, x)
  {
    if ps != [] {
      var nand, rest := init || ps[0].nand, ps[1..];
      var first := ItemOf(if nand then "nand0" else id, ps[0], f);
      InRangeIs(ps[0], f, first.device);
      ItemsAreEntries(id, rest, f, nand);
      forall x | x in Expected(id, ps, f, init) ensures exists k :: 0 <= k < |ps| && FromEntry(ps[k], f, x) {
        if x in Expected(id, rest, f, nand) {
          var k :| 0 <= k < |rest| && FromEntry(rest[k], f, x);
          assert ps[k + 1] == rest[k];
        } else {
          assert x == first && FromEntry(ps[0], f, x);
        }
      }
      forall k | 0 <= k < |ps| && InRange(ps[k], f)
        ensures exists x :: x in Expected(id, ps, f, init) && FromEntry(ps[k], f, x)
      {
        if k == 0 {
          assert first in Expected(id, ps, f, init);
        } else {
          assert rest[k - 1] == ps[k];
          var x :| x in Expected(id, rest, f, nand) && FromEntry(rest[k - 1], f, x);
          assert x in Expected(id, ps, f, init);
        }
      }
    }
  }

  /** What ToMtdparts returns. */
  function Printed(id: string, ps: seq<Part>, f: Flash): string {
    if ps == [] then "" else Trim(id + ":" + Text(ps, f, false))
  }

  lemma DevicesCons(device: string, rest: seq<string>)
    ensures ParseDevices([device] + rest) == ParseDevice(device) + ParseDevices(rest)
  {
    assert ([device] + rest)[1..] == rest;
  }

  lemma OneDevice(s: string)
    requires Lacks(s, ';')
    ensures Parse(s) == ParseDevice(s)
  {
    NoCut(s, ';');
    DevicesCons(s, []);
    assert [s] + [] == [s];
  }

  lemma TwoDevices(a: string, b: string)
    requires Lacks(a, ';') && Lacks(b, ';')
    ensures Parse(a + ";" + b) == ParseDevice(a) + ParseDevice(b)
  {
    Cut(a, ';', b);
    NoCut(b, ';');
    DevicesCons(a, [b]);
    DevicesCons(b, []);
    assert [b] + [] == [b];
  }

  lemma PlainParts(ps: seq<Part>, k: nat)
    requires PlainNames(ps) && k <= |ps|
    ensures PlainNames(ps[..k]) && PlainNames(ps[k..])
  {}

  lemma TextNoHeader(ps: seq<Part>, f: Flash)
    requires Lead(ps) == |ps|
    ensures Text(ps, f, false) == EntriesText(ps, f)
  {
    TextIs(ps, f);
    assert ps[..|ps|] == ps;
  }

  lemma NoHeader(id: string, ps: seq<Part>, f: Flash, s: string)
    requires PlainNames(ps) && Lacks(id, ':') && Lacks(id, ';')
    requires s == id + ":" + EntriesText(ps, f)
    ensures Parse(Trim(s)) == Items(id, ps, f)
  {
    TrimmedReads(id, ps, f, s);
    OneDevice(Trim(s));
  }

  lemma WithHeader(id: string, first: seq<Part>, second: seq<Part>, f: Flash, a: string, b: string, s: string)
    requires PlainNames(first) && PlainNames(second) && Lacks(id, ':') && Lacks(id, ';')
    requires a == id + ":" + EntriesText(first, f) && b == "nand0" + ":" + EntriesText(second, f)
    requires s == a + ";" + b && b != []
    ensures Parse(Trim(s)) == Items(id, first, f) + Items("nand0", second, f)
  {
    DeviceReads(id, first, f, a);
    TrimmedReads("nand0", second, f, b);
    TwoDevices(a, Trim(b));
    TrimSecond(a + ";", b);
  }

  /** Printing and parsing: exactly the partitions in range come back, in order, with
      exact size, offset and name. */
  lemma RoundTrip(id: string, ps: seq<Part>, f: Flash)
    requires PlainNames(ps) && Lacks(id, ':') && Lacks(id, ';')
    ensures Parse(Printed(id, ps, f)) == Expected(id, ps, f, false)
  {
    var k := Lead(ps);
    ExpectedIs(id, ps, f);
    if ps == [] {
      BareDevice("");
      OneDevice("");
    } else if k == |ps| {
      TextNoHeader(ps, f);
      NoHeader(id, ps, f, id + ":" + Text(ps, f, false));
      assert ps[..k] == ps && ps[k..] == [];
    } else {
      PlainParts(ps, k);
      TextIs(ps, f);
      var t1, t2 := EntriesText(ps[..k], f), EntriesText(ps[k..], f);
      Arrange(id, t1, t2);
      WithHeader(id, ps[..k], ps[k..], f, id + ":" + t1, "nand0" + ":" + t2, id + ":" + Text(ps, f, false));
    }
  }

  lemma TrimSecond(a: string, b: string)
    requires b != []
    ensures Trim(a + b) == a + Trim(b)
  {}

  lemma Arrange(id: string, t1: string, t2: string)
    ensures id + ":" + (t1 + (";nand0:" + t2)) == (id + ":" + t1) + ";" + ("nand0" + ":" + t2)
    ensures "nand0" + ":" + t2 != []
  {}

  /** The device of each entry, as the table has it. */
  function Actual(id: string, ps: seq<Part>, f: Flash): seq<Item> {
    if ps == [] then [] else
    (if InRange(ps[0], f) then [ItemOf(if ps[0].nand then "nand0" else id, ps[0], f)] else []) + Actual(id, ps[1..], f)
  }

  /** No partition in range that is not on NAND comes after one that is. */
  ghost predicate NandLast(ps: seq<Part>, f: Flash) {
    forall j, k :: 0 <= j < k < |ps| && ps[j].nand && InRange(ps[k], f) ==> ps[k].nand
  }

  lemma {:induction false} DevicesAfterHeader(id: string, ps: seq<Part>, f: Flash)
    requires id != "nand0"
    ensures Expected(id, ps, f, true) == Actual(id, ps, f) <==>
            forall k :: 0 <= k < |ps| && InRange(ps[k], f) ==> ps[k].nand
  {
    if ps != [] {
      DevicesAfterHeader(id, ps[1..], f);
      SameHead(id, ps, f, true);
      assert forall k :: 0 < k < |ps| ==> ps[k] == ps[1..][k - 1];
    }
  }

  /** Equality of both lists is equality of their first entries and of the rest. */
  lemma SameHead(id: string, ps: seq<Part>, f: Flash, init: bool)
    requires ps != [] && id != "nand0"
    ensures Expected(id, ps, f, init) == Actual(id, ps, f) <==>
      && (InRange(ps[0], f) && init ==> ps[0].nand)
      && Expected(id, ps[1..], f, init || ps[0].nand) == Actual(id, ps[1..], f)
  {
    var x, y := Expected(id, ps, f, init), Actual(id, ps, f);
    if InRange(ps[0], f) {
      assert x[1..] == Expected(id, ps[1..], f, init || ps[0].nand) && y[1..] == Actual(id, ps[1..], f);
      assert x == y <==> x[0] == y[0] && x[1..] == y[1..] by {
        assert x == [x[0]] + x[1..] && y == [y[0]] + y[1..];
      }
    } else {
      assert x == Expected(id, ps[1..], f, init || ps[0].nand) && y == Actual(id, ps[1..], f);
    }
  }

  /** The devices come back right exactly if NAND partitions come last. */
  lemma {:induction false} DevicesRight(id: string, ps: seq<Part>, f: Flash)
    requires id != "nand0"
    ensures Expected(id, ps, f, false) == Actual(id, ps, f) <==> NandLast(ps, f)
  {
    if ps != [] {
      var rest := ps[1..];
      SameHead(id, ps, f, false);
      assert forall k :: 0 < k < |ps| ==> ps[k] == rest[k - 1];
      if ps[0].nand {
        DevicesAfterHeader(id, rest, f);
      } else {
        DevicesRight(id, rest, f);
      }
    }
  }

  /** The character removed at the end is a comma exactly if the device printed last has
      an entry; otherwise it is the colon of that device. */
  lemma LastCharacter(id: string, ps: seq<Part>, f: Flash, last: seq<Part>)
    requires ps != [] && last == if Lead(ps) < |ps| then ps[Lead(ps)..] else ps
    ensures var s := id + ":" + Text(ps, f, false);
            s[|s| - 1] == if exists j :: 0 <= j < |last| && InRange(last[j], f) then ',' else ':'
  {
    var t := EntriesText(last, f);
    EntriesEnd(last, f);
    TextIs(ps, f);
    if Lead(ps) < |ps| {
      Arrange(id, EntriesText(ps[..Lead(ps)], f), t);
      EndsWith(id + ":" + EntriesText(ps[..Lead(ps)], f) + ";", "nand0" + ":", t);
    } else {
      TextNoHeader(ps, f);
      EndsWith(id, ":", t);
    }
  }

  lemma EndsWith(a: string, b: string, t: string)
    requires b != []
    ensures var s := a + (b + t); s[|s| - 1] == if t == [] then b[|b| - 1] else t[|t| - 1]
    ensures a + (b + t) == a + b + t
  {}
}
