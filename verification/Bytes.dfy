/** Byte strings shared by the flash and memory models: overwriting a range in
    place, padding to a block multiple, and little-endian fields. */
module Bytes {
  import opened Common

  newtype byte = x: int | 0 <= x < 256

  type Block = seq<byte>

  /** `s` with the bytes at [at, at + |d|) overwritten by `d`; what would fall
      past the end of `s` is dropped. */
  function Splice<T>(s: seq<T>, at: nat, d: seq<T>): (r: seq<T>)
    ensures |r| == |s|
    ensures forall i :: 0 <= i < |s| ==> r[i] == if at <= i < at + |d| then d[i - at] else s[i]
  {
    seq(|s|, i requires 0 <= i < |s| => if at <= i < at + |d| then d[i - at] else s[i])
  }

  /** Two adjacent overwrites are one overwrite with the concatenation. */
  lemma SpliceAppend<T>(s: seq<T>, at: nat, d: seq<T>, e: seq<T>)
    ensures Splice(Splice(s, at, d), at + |d|, e) == Splice(s, at, d + e)
  {}

  lemma SpliceSlice<T>(s: seq<T>, at: nat, d: seq<T>)
    requires at + |d| <= |s|
    ensures Splice(s, at, d)[at..at + |d|] == d
  {}

  /** `s` and `t` agree everywhere except possibly in [lo, hi). */
  ghost predicate SameOutside<T>(s: seq<T>, t: seq<T>, lo: int, hi: int) {
    && |s| == |t|
    && forall i :: 0 <= i < |s| && !(lo <= i < hi) ==> s[i] == t[i]
  }

  lemma SameOutsideTrans<T>(s: seq<T>, t: seq<T>, u: seq<T>, lo: int, hi: int, lo': int, hi': int)
    requires SameOutside(s, t, lo, hi) && SameOutside(t, u, lo', hi') && lo <= lo' && hi' <= hi
    ensures SameOutside(s, u, lo, hi)
  {}

  function Flatten<T>(chunks: seq<seq<T>>): seq<T> {
    if chunks == [] then [] else Flatten(chunks[..|chunks| - 1]) + chunks[|chunks| - 1]
  }

  lemma FlattenNext<T>(chunks: seq<seq<T>>, i: nat)
    requires i < |chunks|
    ensures Flatten(chunks[..i + 1]) == Flatten(chunks[..i]) + chunks[i]
  {
    assert chunks[..i + 1][..i] == chunks[..i];
  }

  lemma FlattenSnoc<T>(calls: seq<seq<T>>, x: seq<T>)
    ensures Flatten(calls + [x]) == Flatten(calls) + x
  {
    assert (calls + [x])[..|calls|] == calls;
  }

  lemma {:induction false} FlattenPrefix<T>(chunks: seq<seq<T>>, i: nat)
    requires i <= |chunks|
    ensures |Flatten(chunks[..i])| <= |Flatten(chunks)|
  {
    if i == |chunks| {
      assert chunks[..i] == chunks;
    } else {
      var init := chunks[..|chunks| - 1];
      FlattenPrefix(init, i);
      assert init[..i] == chunks[..i];
    }
  }

  function Fill(n: nat, b: byte): (r: seq<byte>)
    ensures |r| == n && forall i :: 0 <= i < n ==> r[i] == b
  {
    seq(n, _ => b)
  }

  /** The number of blocks of `b` bytes that hold `n` bytes. */
  function CeilDiv(n: nat, b: nat): nat
    requires 0 < b
    decreases n
  {
    if n == 0 then 0 else if n <= b then 1 else 1 + CeilDiv(n - b, b)
  }

  lemma {:induction false} CeilDivMeaning(n: nat, b: nat)
    requires 0 < b
    ensures CeilDiv(n, b) == (n + b - 1) / b
    ensures n <= CeilDiv(n, b) * b < n + b
    decreases n
  {
    var c := CeilDiv(n, b);
    if n > b {
      CeilDivMeaning(n - b, b);
      assert c * b == CeilDiv(n - b, b) * b + b;
    }
    QuotientUnique(n + b - 1, b, c);
  }

  lemma QuotientUnique(x: nat, b: nat, q: nat)
    requires 0 < b && q * b <= x < q * b + b
    ensures x / b == q
  {
    var d := x / b - q;
    assert d * b == (x / b) * b - q * b;
    MulAtLeast(d, b);
    MulAtLeast(-d, b);
  }

  lemma MulNonNeg(x: nat, y: nat)
    ensures 0 <= x * y
  {}

  lemma WholeBlocks(n: nat, b: nat)
    requires 0 < b
    ensures 0 <= n / b * b <= n < n / b * b + b && (n / b * b) % b == 0
  {
    MulNonNeg(n / b, b);
    QuotientUnique(n / b * b, b, n / b);
  }

  lemma WholeSum(n: nat, m: nat, b: nat)
    requires 0 < b && n % b == 0 && m % b == 0
    ensures (n + m) % b == 0
  {
    assert (n / b + m / b) * b == n / b * b + m / b * b;
    QuotientUnique(n + m, b, n / b + m / b);
  }

  /** A remainder on top of a whole number of blocks. */
  lemma RestMod(n: nat, r: nat, b: nat)
    requires 0 < b && n % b == 0 && r < b
    ensures (n + r) % b == r
  {
    QuotientUnique(n + r, b, n / b);
  }

  lemma {:induction false} CeilDivMonotone(n: nat, m: nat, b: nat)
    requires 0 < b && n <= m
    ensures CeilDiv(n, b) <= CeilDiv(m, b)
    decreases n
  {
    if b < n {
      CeilDivMonotone(n - b, m - b, b);
    }
  }

  predicate IsMultiple(x: nat, b: nat)
    requires 0 < b
  {
    x == 0 || (b <= x && IsMultiple(x - b, b))
  }

  lemma {:induction false} MultipleMeaning(x: nat, b: nat)
    requires 0 < b
    ensures IsMultiple(x, b) <==> x % b == 0
  {
    if b <= x {
      MultipleMeaning(x - b, b);
      ModMinus(x, b);
    }
  }

  lemma {:induction false} RestMultiple(x: nat, y: nat, b: nat)
    requires 0 < b && IsMultiple(x, b) && IsMultiple(y, b) && y <= x
    ensures IsMultiple(x - y, b)
    decreases y
  {
    if y > 0 {
      RestMultiple(x - b, y - b, b);
    }
  }

  lemma OverMultiple(x: nat, y: nat, b: nat, over: nat)
    requires 0 < b && IsMultiple(x, b) && IsMultiple(y, b) && x == y + over
    ensures IsMultiple(over, b)
  {
    RestMultiple(x, y, b);
  }

  lemma {:induction false} SumMultiple(x: nat, y: nat, b: nat)
    requires 0 < b && IsMultiple(x, b) && IsMultiple(y, b)
    ensures IsMultiple(x + y, b)
    decreases x
  {
    if x > 0 {
      SumMultiple(x - b, y, b);
    }
  }

  /** The largest multiple of `b` in `n`. */
  function WholePart(n: nat, b: nat): (r: nat)
    requires 0 < b
    ensures r <= n < r + b
  {
    if n < b then 0 else b + WholePart(n - b, b)
  }

  lemma {:induction false} WholeMeaning(n: nat, b: nat)
    requires 0 < b
    ensures WholePart(n, b) == n / b * b && IsMultiple(WholePart(n, b), b)
  {
    if n < b {
      QuotientUnique(n, b, 0);
    } else {
      var q := (n - b) / b;
      WholeMeaning(n - b, b);
      assert (q + 1) * b == q * b + b;
      QuotientUnique(n, b, q + 1);
    }
  }

  /** roundup. */
  function RoundUp(n: nat, b: nat): (r: nat)
    requires 0 < b
    ensures n <= r < n + b && IsMultiple(r, b)
  {
    if n == 0 then 0 else if n <= b then b else b + RoundUp(n - b, b)
  }

  // ----- byte strings as blocks of equal length -----

  /** The consecutive `b`-byte blocks of `d`; a shorter rest is filled up with 0xFF. */
  function Blocks(d: seq<byte>, b: nat): (r: seq<seq<byte>>)
    requires 0 < b
    ensures |r| == CeilDiv(|d|, b)
    ensures forall i :: 0 <= i < |r| ==> |r[i]| == b
  {
    if d == [] then []
    else if |d| <= b then [d + Fill(b - |d|, 0xFF)]
    else [d[..b]] + Blocks(d[b..], b)
  }

  /** All the bytes of a sequence of blocks. */
  function Join(blocks: seq<seq<byte>>): seq<byte> {
    if blocks == [] then [] else blocks[0] + Join(blocks[1..])
  }

  lemma JoinCons(b: seq<byte>, rest: seq<seq<byte>>)
    ensures Join([b] + rest) == b + Join(rest)
  {
    assert ([b] + rest)[1..] == rest;
  }

  lemma {:induction false} JoinAppend(x: seq<seq<byte>>, y: seq<seq<byte>>)
    ensures Join(x + y) == Join(x) + Join(y)
  {
    if x == [] {
      assert x + y == y;
    } else {
      JoinAppend(x[1..], y);
      JoinFirst(x[0], x[1..], y, x, Join(x[1..]), Join(y));
    }
  }

  lemma JoinFirst(b: seq<byte>, rest: seq<seq<byte>>, y: seq<seq<byte>>, x: seq<seq<byte>>, r: seq<byte>, s: seq<byte>)
    requires x == [b] + rest && Join(rest + y) == r + s && Join(rest) == r
    ensures Join(x + y) == Join(x) + s
  {
    JoinCons(b, rest);
    JoinCons(b, rest + y);
    Assoc([b], rest, y);
    Assoc(b, r, s);
  }

  lemma {:induction false} WholeLength(blocks: seq<Block>, b: nat)
    requires forall i :: 0 <= i < |blocks| ==> |blocks[i]| == b
    ensures |Join(blocks)| == |blocks| * b
  {
    if blocks != [] {
      WholeLength(blocks[1..], b);
      assert |blocks| * b == (|blocks| - 1) * b + b;
    }
  }

  /** Cutting into blocks loses nothing and adds only the 0xFF tail. */
  lemma JoinBlocks(d: seq<byte>, b: nat)
    requires 0 < b
    ensures d <= Join(Blocks(d, b)) && |Join(Blocks(d, b))| < |d| + b
    ensures forall i :: |d| <= i < |Join(Blocks(d, b))| ==> Join(Blocks(d, b))[i] == 0xFF
    ensures |d| % b == 0 ==> Join(Blocks(d, b)) == d
  {
    JoinPadded(d, b, Join(Blocks(d, b)));
    if |d| % b == 0 {
      JoinWhole(d, b);
    }
  }

  lemma {:induction false} JoinPadded(d: seq<byte>, b: nat, r: seq<byte>)
    requires 0 < b && r == Join(Blocks(d, b))
    ensures d <= r && |r| < |d| + b && forall i :: |d| <= i < |r| ==> r[i] == 0xFF
    decreases |d|
  {
    if b < |d| {
      var rest := Join(Blocks(d[b..], b));
      JoinPadded(d[b..], b, rest);
      JoinCons(d[..b], Blocks(d[b..], b));
      assert r == d[..b] + rest && d == d[..b] + d[b..];
    } else if d != [] {
      JoinCons(d + Fill(b - |d|, 0xFF), []);
    }
  }

  lemma {:induction false} JoinWhole(d: seq<byte>, b: nat)
    requires 0 < b && |d| % b == 0
    ensures Join(Blocks(d, b)) == d
    decreases |d|
  {
    if b < |d| {
      ModMinus(|d|, b);
      JoinWhole(d[b..], b);
      JoinCons(d[..b], Blocks(d[b..], b));
      assert d == d[..b] + d[b..];
    } else if d != [] {
      assert |d| == b;
      JoinCons(d, []);
    }
  }

  /** A whole number of blocks is cut into exactly that many and joins back. */
  lemma ExactBlocks(d: seq<byte>, cnt: nat, b: nat)
    requires 0 < b && |d| == cnt * b
    ensures |Blocks(d, b)| == cnt && Join(Blocks(d, b)) == d
  {
    CeilDivMeaning(|d|, b);
    QuotientUnique(|d|, b, cnt);
    var x := CeilDiv(|d|, b) - cnt;
    assert x * b == CeilDiv(|d|, b) * b - cnt * b;
    MulAtLeast(x, b);
    MulAtLeast(-x, b);
    JoinBlocks(d, b);
  }

  lemma ModMinus(n: nat, b: nat)
    requires 0 < b <= n
    ensures (n - b) % b == n % b
  {
    assert n - b == (n / b - 1) * b + n % b;
    QuotientUnique(n - b, b, n / b - 1);
  }

  /** Blocks of a string that starts with whole blocks. */
  lemma {:induction false} BlocksAppend(full: seq<seq<byte>>, d: seq<byte>, b: nat)
    requires 0 < b && forall i :: 0 <= i < |full| ==> |full[i]| == b
    ensures Blocks(Join(full) + d, b) == full + Blocks(d, b)
  {
    if full == [] {
      assert Join(full) + d == d;
    } else {
      BlocksAppend(full[1..], d, b);
      BlocksCons(full[0], Join(full[1..]) + d, b);
      assert Join(full) + d == full[0] + (Join(full[1..]) + d);
    }
  }

  lemma BlocksCons(x: seq<byte>, rest: seq<byte>, b: nat)
    requires 0 < b && |x| == b
    ensures Blocks(x + rest, b) == [x] + Blocks(rest, b)
  {
    if rest == [] {
      assert x + rest == x && x + Fill(0, 0xFF) == x;
    } else {
      assert (x + rest)[..b] == x && (x + rest)[b..] == rest;
    }
  }

  /** Whole blocks of data join the complete blocks, and the stream needs them. */
  lemma BlocksAppended(full: seq<seq<byte>>, d: seq<byte>, rest: seq<byte>, cnt: nat, b: nat)
    requires 0 < b && |d| == cnt * b && forall i :: 0 <= i < |full| ==> |full[i]| == b
    ensures Join(full + Blocks(d, b)) == Join(full) + d
    ensures |full| + cnt <= CeilDiv(|Join(full) + d + rest|, b)
  {
    ExactBlocks(d, cnt, b);
    JoinAppend(full, Blocks(d, b));
    BlocksAppend(full + Blocks(d, b), rest, b);
  }

  /** memcpy into a buffer. */
  method Memcpy(dst: array<byte>, at: nat, src: seq<byte>)
    requires at + |src| <= dst.Length
    modifies dst
    ensures dst[..] == old(dst[..at]) + src + old(dst[at + |src|..])
  {
    forall i | 0 <= i < |src| {
      dst[at + i] := src[i];
    }
  }

  // ----- little-endian integer fields -----

  function Pow256(n: nat): (r: nat)
    ensures 0 < r
  {
    if n == 0 then 1 else 256 * Pow256(n - 1)
  }

  /** The `n` low bytes of `v`, least significant first. */
  function Le(n: nat, v: nat): (r: seq<byte>)
    ensures |r| == n
    decreases n, v
  {
    if n == 0 then [] else [(v % 256) as byte] + Le(n - 1, v / 256)
  }

  /** The little-endian value of the `n` bytes at `at`; bytes past the end count as zero. */
  function FieldAt(s: seq<byte>, at: nat, n: nat): nat
    decreases n, at
  {
    if n == 0 || |s| <= at then 0 else s[at] as nat + 256 * FieldAt(s, at + 1, n - 1)
  }

  /** A field wide enough for its value reads back unchanged. */
  lemma {:induction false} FieldHeld(s: seq<byte>, at: nat, n: nat, v: nat)
    requires HoldsAt(s, at, Le(n, v)) && v < Pow256(n)
    ensures FieldAt(s, at, n) == v
    decreases n
  {
    if n > 0 {
      assert Le(n, v) == [(v % 256) as byte] + Le(n - 1, v / 256);
      HeldParts(s, at, [(v % 256) as byte], Le(n - 1, v / 256));
      assert s[at + 0] == [(v % 256) as byte][0];
      FieldHeld(s, at + 1, n - 1, v / 256);
    }
  }

  /** A field whose most significant byte is 0xFF. */
  lemma {:induction false} TopByte(s: seq<byte>, at: nat, n: nat)
    requires 0 < n && at + n <= |s| && s[at + n - 1] == 0xFF
    ensures FieldAt(s, at, n) >= 255 * Pow256(n - 1)
    decreases n
  {
    if n > 1 {
      TopByte(s, at + 1, n - 1);
    }
  }

  lemma Pow256Values()
    ensures Pow256(4) == 0x1_0000_0000 && Pow256(8) == 0x1_0000_0000_0000_0000
  {
    assert Pow256(2) == 0x1_0000;
  }

  // ----- strings of bytes at a position -----

  ghost predicate HoldsAt(s: seq<byte>, at: nat, d: seq<byte>) {
    && at + |d| <= |s|
    && forall j :: 0 <= j < |d| ==> s[at + j] == d[j]
  }

  lemma HeldSlice(s: seq<byte>, at: nat, d: seq<byte>)
    requires HoldsAt(s, at, d)
    ensures s[at..at + |d|] == d
  {}

  lemma HeldParts(s: seq<byte>, at: nat, d: seq<byte>, e: seq<byte>)
    requires HoldsAt(s, at, d + e)
    ensures HoldsAt(s, at, d) && HoldsAt(s, at + |d|, e)
  {
    forall j | 0 <= j < |d| ensures s[at + j] == d[j] {
      assert (d + e)[j] == d[j];
    }
    forall j | 0 <= j < |e| ensures s[at + |d| + j] == e[j] {
      assert (d + e)[|d| + j] == e[j];
    }
  }

  /** What two strings share on [lo, hi) they both hold there. */
  ghost predicate SameOn(s: seq<byte>, t: seq<byte>, lo: nat, hi: nat) {
    && hi <= |s| && hi <= |t|
    && forall i :: lo <= i < hi ==> s[i] == t[i]
  }

  lemma HeldSame(s: seq<byte>, t: seq<byte>, lo: nat, hi: nat, at: nat, d: seq<byte>)
    requires SameOn(s, t, lo, hi) && HoldsAt(s, at, d) && lo <= at && at + |d| <= hi
    ensures HoldsAt(t, at, d)
  {}

  /** The `len` bytes from `lo` on in `s` are those from `lo'` on in `t`. */
  ghost predicate SameShifted(s: seq<byte>, lo: nat, t: seq<byte>, lo': nat, len: nat) {
    && lo + len <= |s| && lo' + len <= |t|
    && forall i :: lo <= i < lo + len ==> s[i] == t[i - lo + lo']
  }

  lemma HeldMoved(s: seq<byte>, at: nat, t: seq<byte>, at': nat, lo: nat, lo': nat, len: nat, d: seq<byte>)
    requires HoldsAt(s, at, d) && SameShifted(s, lo, t, lo', len)
    requires lo <= at && at - lo == at' - lo' && at + |d| <= lo + len
    ensures HoldsAt(t, at', d)
  {
    forall j | 0 <= j < |d| ensures t[at' + j] == d[j] {
      assert s[at + j] == t[at + j - lo + lo'];
    }
  }

  lemma SpliceHolds(s: seq<byte>, at: nat, d: seq<byte>)
    requires at + |d| <= |s|
    ensures HoldsAt(Splice(s, at, d), at, d)
    ensures SameOn(s, Splice(s, at, d), 0, at)
    ensures SameOn(s, Splice(s, at, d), at + |d|, |s|)
  {}
}
