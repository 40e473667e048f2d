/** The FIFO mode of the GENI SPI controller driver (drivers/spi/spi-geni-qcom.c):
    bytes are packed into 32-bit FIFO words on the way out and unpacked on the way in,
    over any number of polls. */
module GeniSpi {
  import opened Common
  import opened Bytes

  /** A FIFO word as the bytes it holds in memory order. */
  type Word = w: seq<byte> | |w| == 4 witness [0, 0, 0, 0]

  /** The words that carry the first `n` bytes of `d`; the last is filled up with zero
      bytes. */
  function Words(d: seq<byte>, n: nat): (ws: seq<Word>)
    requires n <= |d|
    ensures |ws| == (n + 3) / 4
  {
    seq((n + 3) / 4, k requires 0 <= k < (n + 3) / 4 => WordAt(d, n, k))
  }

  function WordAt(d: seq<byte>, n: nat, k: nat): Word
    requires n <= |d|
  {
    seq(4, j requires 0 <= j < 4 => if 4 * k + j < n then d[4 * k + j] else 0)
  }

  /** The first `n` bytes carried by `ws`. */
  function Decoded(ws: seq<Word>, n: nat): (d: seq<byte>)
    requires n <= 4 * |ws|
    ensures |d| == n
  {
    seq(n, i requires 0 <= i < n => ws[i / 4][i % 4])
  }

  lemma DecodedWord(ws: seq<Word>, n: nat, d: seq<byte>, i: nat, k: nat, c: nat)
    requires n <= 4 * |ws| && d == Decoded(ws, n) && i == 4 * k && i + c <= n && c <= 4
    ensures c > 0 ==> k < |ws| && forall j :: i <= j < i + c ==> d[j] == ws[k][j - i]
  {}

  /** What is packed unpacks to the same bytes. */
  lemma PackUnpack(d: seq<byte>)
    ensures |d| <= 4 * |Words(d, |d|)| && Decoded(Words(d, |d|), |d|) == d
  {
    forall i | 0 <= i < |d| ensures Decoded(Words(d, |d|), |d|)[i] == d[i] {
      assert 4 * (i / 4) + i % 4 == i;
    }
  }

  /** One more word: full, or the last one of the buffer. */
  lemma WordsNext(d: seq<byte>, m: nat, c: nat, w: Word, n: nat)
    requires m == 4 * n && 1 <= c <= 4 && m + c <= |d|
    requires forall j :: 0 <= j < 4 ==> w[j] == if j < c then d[m + j] else 0
    ensures Words(d, m + c) == Words(d, m) + [w]
  {
    var a, b := Words(d, m + c), Words(d, m);
    assert WordAt(d, m + c, n) == w;
    forall k | 0 <= k < n ensures WordAt(d, m + c, k) == WordAt(d, m, k) {
    }
    assert forall k :: 0 <= k < |b| ==> a[k] == WordAt(d, m + c, k) && b[k] == WordAt(d, m, k);
  }

  /** The bytes that count of the first words of a line: `valid[k]` of word k. */
  function Carried(line: seq<Word>, valid: seq<nat>): seq<byte>
    requires |valid| <= |line|
    requires forall k :: 0 <= k < |valid| ==> valid[k] <= 4
  {
    if valid == [] then [] else
    var n := |valid| - 1;
    Carried(line, valid[..n]) + line[n][..valid[n]]
  }

  /** Words that come in later do not matter. */
  lemma {:induction false} CarriedStays(line: seq<Word>, line': seq<Word>, valid: seq<nat>)
    requires |valid| <= |line| && line <= line' && forall k :: 0 <= k < |valid| ==> valid[k] <= 4
    ensures Carried(line, valid) == Carried(line', valid)
  {
    if valid != [] {
      CarriedStays(line, line', valid[..|valid| - 1]);
    }
  }

  /** How many bytes count of word number `j` of `words` in the FIFO. */
  function ValidOf(words: nat, last: nat, j: nat): (v: nat)
    ensures 1 <= v <= 4
  {
    if j + 1 == words && 1 <= last < 4 then last else 4
  }

  /** Of the first `w` words of the FIFO. */
  function ValidsOf(words: nat, last: nat, w: nat): (v: seq<nat>)
    ensures |v| == w && forall k :: 0 <= k < w ==> v[k] == ValidOf(words, last, k)
  {
    seq(w, j requires 0 <= j < w => ValidOf(words, last, j))
  }

  lemma ValidsNext(valid: seq<nat>, words: nat, last: nat, k: nat)
    requires k < words
    ensures valid + ValidsOf(words, last, k + 1) == valid + ValidsOf(words, last, k) + [ValidOf(words - k, last, 0)]
  {}

  /** The bytes that count of the first `w` words. */
  function Bytes4(words: nat, last: nat, w: nat): (n: nat)
    ensures n <= 4 * w
  {
    if w == 0 then 0 else 4 * (w - 1) + ValidOf(words, last, w - 1)
  }

  /** The next `w` words of the line. */
  lemma {:induction false} CarriedMore(line: seq<Word>, valid: seq<nat>, fifo: seq<Word>, last: nat, w: nat)
    requires |valid| <= |line| && fifo == line[|valid|..] && w <= |fifo|
    requires forall k :: 0 <= k < |valid| ==> valid[k] <= 4
    ensures Carried(line, valid + ValidsOf(|fifo|, last, w)) ==
            Carried(line, valid) + Decoded(fifo, Bytes4(|fifo|, last, w))
  {
    var v := ValidsOf(|fifo|, last, w);
    if w == 0 {
      assert valid + v == valid;
    } else {
      var before := ValidsOf(|fifo|, last, w - 1);
      CarriedMore(line, valid, fifo, last, w - 1);
      assert (valid + v)[..|valid + v| - 1] == valid + before;
      var c := ValidOf(|fifo|, last, w - 1);
      DecodedNext(fifo, w - 1, c, Bytes4(|fifo|, last, w - 1));
      assert line[|valid| + w - 1] == fifo[w - 1];
      Assoc(Carried(line, valid), Decoded(fifo, 4 * (w - 1)), fifo[w - 1][..c]);
    }
  }

  lemma DecodedNext(fifo: seq<Word>, k: nat, c: nat, n: nat)
    requires k < |fifo| && c <= 4 && n == 4 * k
    ensures Decoded(fifo, n + c) == Decoded(fifo, n) + fifo[k][..c]
  {
    var a, b := Decoded(fifo, n + c), Decoded(fifo, n) + fifo[k][..c];
    forall i | 0 <= i < n + c ensures a[i] == b[i] {
      if i >= n {
        assert i / 4 == k && i % 4 == i - n;
      }
    }
  }

  /** The interrupt causes of one poll. */
  datatype Irq = Irq(error: bool, rxWatermark: bool, rxLast: bool, txWatermark: bool, done: bool)

  datatype Stat = InProgress | Complete | Err

  /** What a poll sees: the causes, and what is in the receive FIFO. */
  datatype Sight = Sight(irq: Irq, words: nat, last: nat)

  predicate RxReady(irq: Irq) {
    irq.rxWatermark || irq.rxLast
  }

  /** No poll raised an error or a completion. */
  ghost predicate Quiet(seen: seq<Sight>) {
    forall i :: 0 <= i < |seen| ==> !seen[i].irq.error && !seen[i].irq.done
  }

  /** The polls of a transfer and how it ends: the first poll that raises an error or a
      completion ends it, and a completion counts if nothing remains; without one all
      polls are used up. */
  ghost predicate Ends(seen: seq<Sight>, polls: nat, rem: bool, stat: Stat) {
    && 0 < |seen| <= polls + 1
    && Quiet(seen[..|seen| - 1])
    && (var last := seen[|seen| - 1].irq;
        && (stat == Complete <==> last.done && !rem)
        && (stat == Err <==> (last.done && rem) || (last.error && !last.done))
        && (stat == InProgress ==> |seen| == polls + 1))
  }

  /** The bytes in a receive FIFO. */
  function FifoBytes(s: Sight): nat {
    if s.words > 0 && 1 <= s.last < 4 then 4 * (s.words - 1) + s.last else 4 * s.words
  }

  /** How much of `len` bytes is still wanted after polls: every poll that finds the
      receive FIFO ready takes all that is in it. */
  function RxLeft(len: nat, seen: seq<Sight>): (r: nat)
    ensures r <= len
  {
    if seen == [] then len else
    var r, s := RxLeft(len, seen[..|seen| - 1]), seen[|seen| - 1];
    if RxReady(s.irq) then r - Min(FifoBytes(s), r) else r
  }

  /** How much of `len` bytes is still to be sent: every poll that finds room sends all
      but a word of the depth of the FIFO. */
  function TxLeft(len: nat, depth: nat, seen: seq<Sight>): (r: nat)
    requires 0 < depth
    ensures r <= len
  {
    if seen == [] then len - Min(len, 4 * (depth - 1)) else
    var r := TxLeft(len, depth, seen[..|seen| - 1]);
    if seen[|seen| - 1].irq.txWatermark then r - Min(r, 4 * (depth - 1)) else r
  }

  function RxTotal(seen: seq<Sight>): nat {
    if seen == [] then 0 else
    RxTotal(seen[..|seen| - 1]) + (if RxReady(seen[|seen| - 1].irq) then FifoBytes(seen[|seen| - 1]) else 0)
  }

  function TxCount(seen: seq<Sight>): nat {
    if seen == [] then 0 else TxCount(seen[..|seen| - 1]) + (if seen[|seen| - 1].irq.txWatermark then 1 else 0)
  }

  /** Everything wanted has come exactly if the polls that were ready saw as much. */
  lemma {:induction false} RxLeftIs(len: nat, seen: seq<Sight>)
    ensures RxLeft(len, seen) == if len <= RxTotal(seen) then 0 else len - RxTotal(seen)
  {
    if seen != [] {
      RxLeftIs(len, seen[..|seen| - 1]);
    }
  }

  /** Everything is sent exactly if there were enough calls, the first one included. */
  lemma {:induction false} TxLeftIs(len: nat, depth: nat, seen: seq<Sight>, sent: nat)
    requires 0 < depth && sent == 4 * (depth - 1) * (TxCount(seen) + 1)
    ensures TxLeft(len, depth, seen) == if len <= sent then 0 else len - sent
  {
    if seen != [] {
      var n := TxCount(seen[..|seen| - 1]);
      var before := 4 * (depth - 1) * (n + 1);
      assert 4 * (depth - 1) * (n + 2) == before + 4 * (depth - 1);
      MulNonNeg(4 * (depth - 1), n + 1);
      TxLeftIs(len, depth, seen[..|seen| - 1], before);
    }
  }

  const ULONG_MAX: nat := 0xFFFF_FFFF_FFFF_FFFF
  const ETIMEDOUT: int := 110

  /** The FIFOs and the wire. `out` is every word written, of which `shifted` have left
      the FIFO; `line` is every word that came in, of which `taken` have been read. A
      looped wire brings back what went out, in order, and flags the last word if it is
      partial. */
  class Wire {
    const depth: nat          // tx_fifo_depth
    const loop: bool
    const len: nat
    var out: seq<Word>
    var shifted: nat
    var line: seq<Word>
    var taken: nat
    var fifo: seq<Word>
    var last: nat             // RX_LAST_BYTE_VALID, 0 without RX_LAST
    ghost var valid: seq<nat> // of each word taken, the bytes that counted
    ghost var film: seq<Sight> // what every poll has seen

    ghost predicate Valid()
      reads this
    {
      && 0 < depth && shifted <= |out| <= shifted + depth
      && taken <= |line| && fifo == line[taken..]
      && (last != 0 ==> fifo != [])
      && |valid| == taken && (forall k :: 0 <= k < taken ==> 1 <= valid[k] <= 4)
      && (loop ==> line <= out)
      && (loop && 1 <= last < 4 ==> |line| == (len + 3) / 4 && last == len % 4)
    }

    constructor (depth: nat, loop: bool, len: nat)
      requires 0 < depth
      ensures Valid() && out == [] && shifted == 0 && line == [] && taken == 0 && valid == [] && film == []
      ensures this.depth == depth && this.loop == loop && this.len == len
    {
      this.depth, this.loop, this.len := depth, loop, len;
      out, shifted, line, taken, fifo, last, valid, film := [], 0, [], 0, [], 0, [], [];
    }

    /** A write to a FIFO that has room. */
    method WriteWord(w: Word)
      requires Valid() && |out| < shifted + depth
      modifies this`out
      ensures Valid() && out == old(out) + [w]
    {
      out := out + [w];
    }

    method ReadWord() returns (w: Word)
      requires Valid() && fifo != []
      modifies this`fifo, this`last, this`taken, this`valid
      ensures Valid() && w == old(fifo)[0] && fifo == old(fifo)[1..] && taken == old(taken) + 1
      ensures valid == old(valid) + [ValidOf(|old(fifo)|, old(last), 0)]
      ensures fifo != [] ==> last == old(last)
    {
      valid := valid + [ValidOf(|fifo|, last, 0)];
      w := fifo[0];
      fifo := fifo[1..];
      taken := taken + 1;
      if fifo == [] {
        last := 0;
      }
    }

    /** Between two polls words leave, words come in, and interrupts are raised; the
        transmit watermark only when at most one word is left in the FIFO. */
    method Step() returns (irq: Irq)
      requires Valid()
      modifies this
      ensures Valid() && out == old(out) && taken == old(taken) && valid == old(valid) && old(line) <= line
      ensures irq.txWatermark ==> |out| <= shifted + 1
      ensures film == old(film) + [Sight(irq, |fifo|, last)]
    {
      var more: seq<Word> :| loop ==> line + more <= out;
      line := line + more;
      fifo := fifo + more;
      var gone: nat :| gone <= |out| <= gone + depth;
      shifted := gone;
      var valid: nat :| (valid != 0 ==> fifo != [])
                        && (loop && 1 <= valid < 4 ==> |line| == (len + 3) / 4 && valid == len % 4);
      last := valid;
      irq := *;
      if |out| > shifted + 1 {
        irq := irq.(txWatermark := false);
      }
      film := film + [Sight(irq, |fifo|, last)];
    }
  }

  /** The bytes that handle_rx finds in the FIFO: all of every word, but of a flagged
      last word only its valid bytes. */
  function Available(words: nat, last: nat): (n: nat)
    requires last != 0 ==> 0 < words
    ensures (n + 3) / 4 == words
  {
    if 1 <= last < 4 then 4 * words - (4 - last) else 4 * words
  }

  /** The next `n` bytes of the FIFO, all that are available or all that are wanted. */
  lemma GotMore(line: seq<Word>, valid: seq<nat>, fifo: seq<Word>, last: nat, got: seq<byte>, rem: nat, n: nat,
                dec: seq<byte>, valid': seq<nat>)
    requires |valid| <= |line| && fifo == line[|valid|..] && (last != 0 ==> fifo != [])
    requires forall k :: 0 <= k < |valid| ==> valid[k] <= 4
    requires n == Min(Available(|fifo|, last), rem) && dec == Decoded(fifo, n)
    requires got <= Carried(line, valid) && (|got| == |Carried(line, valid)| || rem == 0)
    requires valid' == valid + ValidsOf(|fifo|, last, (n + 3) / 4)
    ensures got + dec <= Carried(line, valid') && (|got + dec| == |Carried(line, valid')| || rem == n)
  {
    var w := (n + 3) / 4;
    var m := Bytes4(|fifo|, last, w);
    CarriedMore(line, valid, fifo, last, w);
    WholeWords(|fifo|, last, rem, n, m);
    DecodedPrefix(fifo, n, m);
    PrefixMore(got, Carried(line, valid), dec, Decoded(fifo, m), rem);
  }

  lemma DecodedPrefix(fifo: seq<Word>, n: nat, m: nat)
    requires n <= m <= 4 * |fifo|
    ensures Decoded(fifo, n) <= Decoded(fifo, m)
  {}

  lemma WholeWords(words: nat, last: nat, rem: nat, n: nat, m: nat)
    requires last != 0 ==> 0 < words
    requires n == Min(Available(words, last), rem) && m == Bytes4(words, last, (n + 3) / 4)
    ensures n <= m && (n < m ==> rem == n)
  {}

  lemma PrefixMore<T>(got: seq<T>, all: seq<T>, dec: seq<T>, more: seq<T>, rem: nat)
    requires got <= all && (|got| == |all| || rem == 0)
    requires dec <= more && |dec| <= rem && (|dec| < |more| ==> rem == |dec|)
    ensures got + dec <= all + more && (|got + dec| == |all + more| || rem == |dec|)
  {
    if rem == 0 {
      assert got + dec == got;
    } else {
      assert got == all;
    }
  }

  class Transfer {
    const dev: Wire
    const hasTx: bool
    const tx: seq<byte>        // tx_buf
    const rx: array?<byte>     // rx_buf
    const len: nat
    var txRem: nat
    var rxRem: nat
    var stat: Stat
    ghost var got: seq<byte>

    /** The words written so far carry the bytes sent so far. */
    ghost predicate Sent()
      reads `txRem, dev`out
    {
      && txRem <= len == |tx| && (len - txRem == 4 * |dev.out| || txRem == 0)
      && dev.out == Words(tx, len - txRem)
    }

    /** The buffer holds the bytes decoded so far. */
    ghost predicate Received()
      reads `rxRem, `got, rx
    {
      rx != null ==>
        && rxRem <= len == rx.Length && |got| == len - rxRem
        && forall i :: 0 <= i < |got| ==> rx[i] == got[i]
    }

    /** With the wire looped, what was decoded is what was to be sent. */
    ghost predicate Looped()
      reads `got, `rxRem, dev
    {
      dev.loop && hasTx && rx != null ==>
        && |got| <= len == |tx| && (|got| == 4 * dev.taken || rxRem == 0)
        && forall i :: 0 <= i < |got| ==> got[i] == tx[i]
    }

    /** What was decoded are the bytes that counted of the words read, up to those
        wanted. */
    ghost predicate Decoding()
      reads `got, `rxRem, dev
      requires dev.Valid()
    {
      rx != null ==>
        && got <= Carried(dev.line, dev.valid)
        && (|got| == |Carried(dev.line, dev.valid)| || rxRem == 0)
    }

    ghost predicate Incoming()
      reads `rxRem, `got, dev, rx
      requires dev.Valid()
    {
      Received() && Looped() && Decoding() && (rx == null ==> rxRem == 0)
    }

    ghost predicate Valid()
      reads `txRem, `rxRem, `got, dev, rx
    {
      && dev.Valid() && dev.len == len
      && (if hasTx then Sent() else txRem == 0 && dev.out == [])
      && Incoming()
    }

    constructor (dev: Wire, hasTx: bool, tx: seq<byte>, rx: array?<byte>, len: nat)
      ensures this.dev == dev && this.hasTx == hasTx && this.tx == tx && this.rx == rx && this.len == len
    {
      this.dev, this.hasTx, this.tx, this.rx, this.len := dev, hasTx, tx, rx, len;
      txRem, rxRem, stat, got := 0, 0, InProgress, [];
    }

    /** Up to four bytes of the transmit buffer in one word. */
    method PackWord(at: nat, c: nat) returns (word: Word)
      requires 1 <= c <= 4 && at + c <= |tx|
      ensures forall k :: 0 <= k < 4 ==> word[k] == if k < c then tx[at + k] else 0
    {
      word := [0, 0, 0, 0];
      var j := 0;
      while j < c
        invariant 0 <= j <= c
        invariant forall k :: 0 <= k < 4 ==> word[k] == if k < j then tx[at + k] else 0
      {
        word := word[j := tx[at + j]];
        j := j + 1;
      }
    }

    /** geni_spi_handle_tx: as many words as are sure to have room. */
    method HandleTx()
      requires Valid() && |dev.out| <= dev.shifted + 1
      modifies this`txRem, dev`out
      ensures Valid() && txRem == old(txRem) - Min(old(txRem), 4 * (dev.depth - 1))
    {
      var maxBytes := Min(txRem, 4 * (dev.depth - 1));
      var at := len - txRem;
      ghost var n := |dev.out|;
      var i := 0;
      while i < maxBytes
        modifies dev`out
        invariant 0 <= i <= maxBytes && dev.Valid()
        invariant i == 4 * (|dev.out| - n) || i == maxBytes == txRem
        invariant dev.out == if hasTx then Words(tx, at + i) else []
      {
        var c := Min(4, maxBytes - i);
        var word := PackWord(at + i, c);
        WordsNext(tx, at + i, c, word, |dev.out|);
        dev.WriteWord(word);
        i := i + c;
      }
      txRem := txRem - maxBytes;
    }

    /** The bytes of one word that count. */
    method UnpackWord(word: Word, at: nat, c: nat)
      requires rx != null && c <= 4 && at + c <= rx.Length
      modifies rx
      ensures forall x :: 0 <= x < rx.Length ==> rx[x] == if at <= x < at + c then word[x - at] else old(rx[x])
    {
      var j := 0;
      while j < c
        invariant 0 <= j <= c
        invariant forall x :: 0 <= x < rx.Length ==> rx[x] == if at <= x < at + j then word[x - at] else old(rx[x])
      {
        rx[at + j] := word[j];
        j := j + 1;
      }
    }

    /** The reading loop of geni_spi_handle_rx. */
    method ReadWords(at: nat, n: nat, ghost dec: seq<byte>)
      requires dev.Valid() && rx != null && at + n <= rx.Length && n <= 4 * |dev.fifo| && dec == Decoded(dev.fifo, n)
      modifies rx, dev`fifo, dev`last, dev`taken, dev`valid
      ensures dev.Valid() && dev.taken == old(dev.taken) + (n + 3) / 4
      ensures dev.valid == old(dev.valid) + ValidsOf(|old(dev.fifo)|, old(dev.last), (n + 3) / 4)
      ensures forall x :: 0 <= x < rx.Length ==> rx[x] == if at <= x < at + n then dec[x - at] else old(rx[x])
    {
      ghost var f, t, was := dev.fifo, dev.taken, rx[..];
      ghost var v, last := dev.valid, dev.last;
      var i := 0;
      assert v + ValidsOf(|f|, last, 0) == v;
      while i < n
        invariant 0 <= i <= n && dev.Valid() && t <= dev.taken
        invariant dev.valid == v + ValidsOf(|f|, last, dev.taken - t) && (dev.fifo != [] ==> dev.last == last)
        invariant i == 4 * (dev.taken - t) || i == n
        invariant dev.taken == t + (i + 3) / 4
        invariant forall x :: 0 <= x < rx.Length ==> rx[x] == if at <= x < at + i then dec[x - at] else was[x]
      {
        var c := Min(4, n - i);
        ghost var k := dev.taken - t;
        ValidsNext(v, |f|, last, k);
        var word := dev.ReadWord();
        assert word == dev.line[t + k] == f[k];
        DecodedWord(f, n, dec, i, k, c);
        UnpackWord(word, at + i, c);
        i := i + c;
      }
    }

    /** geni_spi_handle_rx without a buffer: every word is read and dropped. */
    method Drain()
      requires dev.Valid()
      modifies dev`fifo, dev`last, dev`taken, dev`valid
      ensures dev.Valid() && dev.fifo == []
    {
      var words := (Available(|dev.fifo|, dev.last) + 3) / 4;
      var i := 0;
      while i < words
        invariant 0 <= i <= words && dev.Valid() && |dev.fifo| == words - i
      {
        var word := dev.ReadWord();
        i := i + 1;
      }
    }

    /** geni_spi_handle_rx: the bytes available, but no more than are still wanted, go
        to the buffer behind those already there. */
    method HandleRx()
      requires Valid()
      modifies this`rxRem, this`got, rx, dev`fifo, dev`last, dev`taken, dev`valid
      ensures Valid()
      ensures rx == null ==> rxRem == 0 && dev.fifo == [] && got == old(got)
      ensures rxRem == 0 || dev.fifo == []
      ensures rx != null ==>
        var n := Min(old(Available(|dev.fifo|, dev.last)), old(rxRem));
        rxRem == old(rxRem) - n && got == old(got) + Decoded(old(dev.fifo), n)
    {
      var rxBytes := Available(|dev.fifo|, dev.last);
      if rx == null {
        Drain();
      } else {
        TakeBytes(Min(rxBytes, rxRem), Decoded(dev.fifo, Min(rxBytes, rxRem)));
      }
    }

    /** The next `n` bytes go to the buffer. */
    method TakeBytes(n: nat, ghost dec: seq<byte>)
      requires Valid() && rx != null
      requires n == Min(Available(|dev.fifo|, dev.last), rxRem) && dec == Decoded(dev.fifo, n)
      modifies this`rxRem, this`got, rx, dev`fifo, dev`last, dev`taken, dev`valid
      ensures Valid() && rxRem == old(rxRem) - n && got == old(got) + dec
      ensures rxRem == 0 || dev.fifo == []
    {
      if dev.loop && hasTx {
        LoopStep(n, dec);
      }
      StoreBytes(n, dec);
    }

    method StoreBytes(n: nat, ghost dec: seq<byte>)
      requires dev.Valid() && Incoming() && rx != null
      requires n == Min(Available(|dev.fifo|, dev.last), rxRem) && dec == Decoded(dev.fifo, n)
      requires dev.loop && hasTx ==>
        && (forall m :: 0 <= m < n ==> dec[m] == tx[|got| + m])
        && (|got| + n == 4 * (dev.taken + (n + 3) / 4) || rxRem == n)
      modifies this`rxRem, this`got, rx, dev`fifo, dev`last, dev`taken, dev`valid
      ensures dev.Valid() && Incoming() && rxRem == old(rxRem) - n && got == old(got) + dec
      ensures rxRem == 0 || dev.fifo == []
    {
      ghost var valid' := dev.valid + ValidsOf(|dev.fifo|, dev.last, (n + 3) / 4);
      GotMore(dev.line, dev.valid, dev.fifo, dev.last, got, rxRem, n, dec, valid');
      ReadWords(len - rxRem, n, dec);
      got := got + dec;
      rxRem := rxRem - n;
    }

    /** What the next bytes of a looped wire are. */
    lemma LoopStep(n: nat, dec: seq<byte>)
      requires Valid() && dev.loop && hasTx && rx != null
      requires n == Min(Available(|dev.fifo|, dev.last), rxRem) && dec == Decoded(dev.fifo, n)
      ensures forall m :: 0 <= m < n ==> dec[m] == tx[|got| + m]
      ensures |got| + n == 4 * (dev.taken + (n + 3) / 4) || rxRem == n
    {
      var a := len - txRem;
      forall m | 0 <= m < n ensures dec[m] == tx[|got| + m] {
        var k := dev.taken + m / 4;
        assert dev.fifo[m / 4] == dev.line[k] == dev.out[k] == WordAt(tx, a, k);
        assert 4 * k + m % 4 == |got| + m;
      }
    }

    /** geni_spi_isr. A poll that finds the receive FIFO ready takes what is in it, as far
        as it is wanted; one that finds room sends. A completion overwrites an error found
        in the same poll. */
    method Isr(irq: Irq)
      requires Valid() && (irq.txWatermark ==> |dev.out| <= dev.shifted + 1)
      modifies this`txRem, this`rxRem, this`stat, this`got, rx, dev`out, dev`fifo, dev`last, dev`taken, dev`valid
      ensures Valid()
      ensures (irq.rxWatermark || irq.rxLast) && rx != null ==>
        var n := Min(old(Available(|dev.fifo|, dev.last)), old(rxRem));
        rxRem == old(rxRem) - n && got == old(got) + Decoded(old(dev.fifo), n)
      ensures !((irq.rxWatermark || irq.rxLast) && rx != null) ==> rxRem == old(rxRem) && got == old(got)
      ensures (irq.rxWatermark || irq.rxLast) ==> rxRem == 0 || dev.fifo == []
      ensures (irq.rxWatermark || irq.rxLast) && rx == null ==> dev.fifo == []
      ensures !(irq.rxWatermark || irq.rxLast) ==> dev.fifo == old(dev.fifo)
      ensures txRem == old(txRem) - (if irq.txWatermark then Min(old(txRem), 4 * (dev.depth - 1)) else 0)
      ensures !irq.txWatermark ==> dev.out == old(dev.out)
      ensures stat == if irq.done then (if txRem == 0 && rxRem == 0 then Complete else Err)
                      else if irq.error then Err else old(stat)
    {
      if irq.error {
        stat := Err;
      }
      Serve(irq.rxWatermark || irq.rxLast, irq.txWatermark);
      if irq.done {
        stat := if txRem != 0 || rxRem != 0 then Err else Complete;
      }
    }

    method Serve(rxReady: bool, txReady: bool)
      requires Valid() && (txReady ==> |dev.out| <= dev.shifted + 1)
      modifies this`txRem, this`rxRem, this`got, rx, dev`out, dev`fifo, dev`last, dev`taken, dev`valid
      ensures Valid()
      ensures rxReady && rx != null ==>
        var n := Min(old(Available(|dev.fifo|, dev.last)), old(rxRem));
        rxRem == old(rxRem) - n && got == old(got) + Decoded(old(dev.fifo), n)
      ensures !(rxReady && rx != null) ==> rxRem == old(rxRem) && got == old(got)
      ensures rxReady ==> rxRem == 0 || dev.fifo == []
      ensures rxReady && rx == null ==> dev.fifo == []
      ensures !rxReady ==> dev.fifo == old(dev.fifo)
      ensures txRem == old(txRem) - (if txReady then Min(old(txRem), 4 * (dev.depth - 1)) else 0)
      ensures !txReady ==> dev.out == old(dev.out)
    {
      if rxReady {
        HandleRx();
      }
      if txReady {
        HandleTx();
      }
    }

    /** What remains is what the polls `seen` leave. */
    ghost predicate Tracks(seen: seq<Sight>)
      reads `txRem, `rxRem
      requires 0 < dev.depth
    {
      && txRem == (if hasTx then TxLeft(len, dev.depth, seen) else 0)
      && rxRem == (if rx != null then RxLeft(len, seen) else 0)
    }

    /** do_spi_xfer in FIFO mode, for at most `polls` + 1 polls. Whatever happens on the
        way, what has been sent and received so far is right, and what is left follows
        from what the polls saw; `seen` is that. They decide how the transfer ends. A
        clean completion means that all has been sent and received: the words written
        carry the transmit buffer, the receive buffer has the bytes that counted of the
        words read, in order, and over a looped wire the buffers are equal. A transfer
        that has used up its polls is not reported: the counter has wrapped around when it
        is compared with zero. */
    method Run(polls: nat) returns (ret: int, ghost seen: seq<Sight>)
      requires dev.Valid() && dev.len == len && dev.out == dev.line == [] && dev.shifted == dev.taken == 0
      requires (hasTx ==> |tx| == len) && (rx != null ==> rx.Length == len)
      modifies this, rx, dev
      ensures Valid() && dev.film == old(dev.film) + seen && Tracks(seen)
      ensures var rem := (hasTx && TxLeft(len, dev.depth, seen) != 0) || (rx != null && RxLeft(len, seen) != 0);
              Ends(seen, polls, rem, stat)
      ensures RxReady(seen[|seen| - 1].irq) ==> rxRem == 0 || dev.fifo == []
      ensures ret == if stat == Err then -EIO else 0
      ensures stat == Complete && hasTx ==> dev.out == Words(tx, len)
      ensures rx != null ==> rxRem <= len && rx[..len - rxRem] <= Carried(dev.line, dev.valid)
      ensures stat == Complete && rx != null ==> rx[..] <= Carried(dev.line, dev.valid)
      ensures stat == Complete && dev.loop && hasTx && rx != null ==> rx[..] == tx
    {
      Begin();
      stat, seen := InProgress, [];
      var count: nat, stop := polls, false;
      while !stop
        invariant Valid() && dev.film == old(dev.film) + seen && Tracks(seen)
        invariant if stop then Ends(seen, polls, txRem != 0 || rxRem != 0, stat)
                  else stat == InProgress && count + |seen| == polls && Quiet(seen)
        invariant stop ==> RxReady(seen[|seen| - 1].irq) ==> rxRem == 0 || dev.fifo == []
        invariant stop && stat == InProgress ==> count == ULONG_MAX
        decreases !stop, count
      {
        ghost var s;
        stop, count, s := Poll(seen, polls, count);
        seen := seen + [s];
      }
      ret := 0;
      if stat == InProgress && count == 0 {
        ret := -ETIMEDOUT;
      }
      if stat == Err {
        ret := -EIO;
      }
    }

    /** One poll, and the condition of the loop. */
    method Poll(ghost seen: seq<Sight>, ghost polls: nat, count: nat) returns (stop: bool, count': nat, ghost s: Sight)
      requires Valid() && Tracks(seen) && stat == InProgress && Quiet(seen) && |seen| + count == polls
      modifies this`txRem, this`rxRem, this`stat, this`got, rx, dev
      ensures Valid() && dev.film == old(dev.film) + [s] && Tracks(seen + [s])
      ensures if stop then Ends(seen + [s], polls, txRem != 0 || rxRem != 0, stat)
              else stat == InProgress && count' + 1 == count && Quiet(seen + [s])
      ensures RxReady(s.irq) ==> rxRem == 0 || dev.fifo == []
      ensures stop && stat == InProgress ==> count' == ULONG_MAX
    {
      ghost var line := dev.line;
      var irq := dev.Step();
      CarriedStays(line, dev.line, dev.valid);
      s := Sight(irq, |dev.fifo|, dev.last);
      LeftNext(seen, s, len, dev.depth);
      Isr(irq);
      stop := stat != InProgress || count == 0;
      count' := if stat != InProgress then count else if count == 0 then ULONG_MAX else count - 1;
    }

    /** What is done before the first poll. */
    method Begin()
      requires dev.Valid() && dev.len == len && dev.out == dev.line == [] && dev.shifted == dev.taken == 0
      requires (hasTx ==> |tx| == len) && (rx != null ==> rx.Length == len)
      modifies this`txRem, this`rxRem, this`got, dev`out
      ensures Valid() && Tracks([])
    {
      txRem, rxRem, got := 0, 0, [];
      if hasTx {
        txRem := len;
      }
      if rx != null {
        rxRem := len;
      }
      assert hasTx ==> dev.out == Words(tx, 0);
      if hasTx {
        HandleTx();
      }
    }
  }

  /** One more poll. */
  lemma LeftNext(seen: seq<Sight>, s: Sight, len: nat, depth: nat)
    requires 0 < depth
    ensures var r := RxLeft(len, seen);
            RxLeft(len, seen + [s]) == if RxReady(s.irq) then r - Min(FifoBytes(s), r) else r
    ensures var r := TxLeft(len, depth, seen);
            TxLeft(len, depth, seen + [s]) == if s.irq.txWatermark then r - Min(r, 4 * (depth - 1)) else r
  {
    assert (seen + [s])[..|seen|] == seen;
  }
}
