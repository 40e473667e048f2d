/** The BAM DMA descriptor ring: the driver splits a buffer into descriptors,
    writes them into a circular FIFO and advances an event register; the engine
    reads descriptors up to that register whenever it likes
    (drivers/dma/bam.c, drivers/dma/bam_dma.c). */
module BamRing {
  import opened Common
  import opened Bytes
  import opened Positions
  import Bits

  const DESC_SIZE: nat := 8
  const EOT_FLAG: bv8 := 0x40
  const CMD_FLAG: bv8 := 0x08
  const LOCK_FLAG: bv8 := 0x04
  const UNLOCK_FLAG: bv8 := 0x02

  datatype Desc = Desc(addr: nat, size: nat, flags: bv8)

  predicate LegalFlags(flags: bv8) {
    !(flags & LOCK_FLAG != 0 && flags & UNLOCK_FLAG != 0) && !(flags & EOT_FLAG != 0 && flags & CMD_FLAG != 0)
  }

  /** A flags byte is refused exactly if it has both the lock bits, 2 and 4, or both the
      bits of a command and of the end of a transfer, 8 and 0x40. */
  lemma FlagsRefused(flags: bv8)
    ensures LegalFlags(flags) <==> flags & 0x06 != 0x06 && flags & 0x48 != 0x48
  {}

  /** A flag on its own is accepted, and so are some of any flags that are. */
  lemma FewerFlags(flags: bv8, fewer: bv8)
    ensures LegalFlags(flags) && fewer & flags == fewer ==> LegalFlags(fewer)
    ensures fewer & (fewer - 1) == 0 ==> LegalFlags(fewer)
  {}

  /** The combinations that the NAND driver uses: a command that unlocks, one that locks,
      and a transfer that locks and ends. */
  lemma FlagsInUse()
    ensures LegalFlags(0x0A) && LegalFlags(0x0C) && LegalFlags(0x44)
  {}

  /** Ring positions less than two turns on. */
  function Wrap(i: nat, size: nat): (w: nat)
    requires i < 2 * size
    ensures w < size
  {
    if i < size then i else i - size
  }

  /** The descriptors that a transfer is cut into; only the last carries flags. */
  function Split(ptr: nat, len: nat, max: nat, flags: bv8): seq<Desc>
    requires 0 < max
    decreases len
  {
    if len == 0 then []
    else if len <= max then [Desc(ptr, len, flags)]
    else [Desc(ptr, max, 0)] + Split(ptr + max, len - max, max, flags)
  }

  /** The first descriptor of a buffer. */
  function Head(ptr: nat, len: nat, max: nat, flags: bv8): Desc {
    if len > max then Desc(ptr, max, 0) else Desc(ptr, len, flags)
  }

  lemma SplitNext(ptr: nat, len: nat, max: nat, flags: bv8, next: Desc, sofar: seq<Desc>, before: seq<Desc>)
    requires 0 < max && 0 < len && next == Head(ptr, len, max, flags)
    ensures sofar + Split(ptr, len, max, flags) == (sofar + [next]) + Split(ptr + max, len - Min(len, max), max, flags)
    ensures CeilDiv(len, max) == 1 + CeilDiv(len - Min(len, max), max)
    ensures before + sofar + [next] == before + (sofar + [next])
  {
    var rest := Split(ptr + max, len - Min(len, max), max, flags);
    assert Split(ptr, len, max, flags) == [next] + rest;
    Assoc(sofar, [next], rest);
    Assoc(before, sofar, [next]);
  }

  /** The address ranges are not empty, at most `max` long, adjacent, and together exactly
      [ptr, ptr + len); only the last has flags. */
  ghost predicate Tiles(s: seq<Desc>, ptr: nat, len: nat, max: nat, flags: bv8) {
    && (forall i :: 0 <= i < |s| ==> 0 < s[i].size <= max && (i + 1 < |s| ==> s[i].flags == 0))
    && (forall i :: 0 <= i < |s| - 1 ==> s[i].addr + s[i].size == s[i + 1].addr)
    && (if s == [] then len == 0
        else s[0].addr == ptr && s[|s| - 1].addr + s[|s| - 1].size == ptr + len && s[|s| - 1].flags == flags)
  }

  lemma TilesCons(s: seq<Desc>, d: Desc, rest: seq<Desc>, ptr: nat, len: nat, max: nat, flags: bv8)
    requires Tiles(rest, ptr + d.size, len, max, flags) && rest != [] && s == [d] + rest
    requires d.addr == ptr && 0 < d.size <= max && d.flags == 0
    ensures Tiles(s, ptr, d.size + len, max, flags)
  {
    forall i | 0 <= i < |s| - 1 ensures s[i].addr + s[i].size == s[i + 1].addr {
      assert s[i + 1] == rest[i];
      if i > 0 {
        assert s[i] == rest[i - 1];
      }
    }
  }

  lemma {:induction false} SplitTiles(s: seq<Desc>, ptr: nat, len: nat, max: nat, flags: bv8)
    requires 0 < max && s == Split(ptr, len, max, flags)
    ensures |s| == CeilDiv(len, max) && Tiles(s, ptr, len, max, flags)
    decreases len
  {
    if len > max {
      var d, rest, left := Desc(ptr, max, 0), Split(ptr + max, len - max, max, flags), len - max;
      SplitFirst(s, ptr, max, flags, d, rest, left);
      SplitTiles(rest, ptr + max, left, max, flags);
      TilesCons(s, d, rest, ptr, left, max, flags);
    }
  }

  lemma SplitFirst(s: seq<Desc>, ptr: nat, max: nat, flags: bv8, d: Desc, rest: seq<Desc>, left: nat)
    requires 0 < max && 0 < left && s == Split(ptr, max + left, max, flags)
    requires d == Desc(ptr, max, 0) && rest == Split(ptr + max, left, max, flags)
    ensures s == [d] + rest && rest != [] && CeilDiv(max + left, max) == 1 + CeilDiv(left, max)
  {}

  /** The unread descriptors sit in the ring in order, from the engine's position on. */
  ghost predicate InRing(ring: seq<Desc>, h: nat, live: seq<Desc>) {
    && h < |ring| && |live| <= |ring|
    && forall j :: 0 <= j < |live| ==> ring[Wrap(h + j, |ring|)] == live[j]
  }

  class BamPipe {
    const size: nat          // fifo.size
    const maxLen: nat        // max_desc_len
    var ring: array<Desc>    // fifo.head
    var current: nat         // index of fifo.current
    var initialized: bool
    var event: nat           // BAM_P_EVNT_REG
    var hw: nat              // the engine's read offset, in bytes
    ghost var e: nat         // event and hw counted in descriptors
    ghost var h: nat
    // what has happened since the pipe was set up
    ghost var added: nat
    ghost var notified: nat
    ghost var turnsA: nat
    ghost var turnsN: nat
    ghost var consumed: seq<Desc>
    ghost var live: seq<Desc>
    ghost var ready: nat
    ghost var sound: bool    // no call so far went beyond what the ring can carry

    /** The write pointer and the event register count descriptors modulo the ring
        size, whatever was asked for. */
    ghost predicate Indexed()
      reads this
    {
      && 0 < size && Bits.IsPow2(size) && Bits.IsPow2(8 * size) && 0 < maxLen
      && ring.Length == size
      && event == 8 * e && hw == 8 * h && h < size
      && At(added, turnsA, current, size)
      && At(notified, turnsN, e, size)
    }

    /** As long as it is sound, the engine has consumed a prefix of what was
        produced and the rest is in the ring, of which it may read `ready`. */
    ghost predicate Valid()
      reads this, ring
    {
      && Indexed()
      && (sound ==>
            && InRing(ring[..], h, live)
            && ready <= |live| && ready < size
            && current == Wrap(h + |live|, size)
            && e == Wrap(h + ready, size))
    }

    ghost function Produced(): seq<Desc>
      reads this
    {
      consumed + live
    }

    /** bam_pipe_fifo_init, after the pipe reset has cleared the engine's registers. */
    constructor (size: nat, maxLen: nat)
      requires 0 < size && Bits.IsPow2(size) && 0 < maxLen
      ensures Valid() && fresh(ring) && this.size == size && this.maxLen == maxLen
      ensures initialized && sound && Produced() == [] && current == event == hw == 0 && added == notified == ready == 0
    {
      this.size, this.maxLen := size, maxLen;
      ring := new Desc[size](_ => Desc(0, 0, 0));
      current, event, hw, initialized := 0, 0, 0, true;
      e, h, added, notified, turnsA, turnsN := 0, 0, 0, 0, 0, 0;
      consumed, live, ready, sound := [], [], 0, true;
      EightTimes(size);
    }

    /** One step of the engine: it reads the next descriptor unless its offset has
        reached the event register. */
    method EngineStep() returns (moved: bool)
      requires Valid()
      modifies this`hw, this`h, this`consumed, this`live, this`ready
      ensures Valid() && (moved <==> old(hw) != event) && h == if moved then Wrap(old(h) + 1, size) else old(h)
      ensures sound ==> Produced() == old(Produced()) && (moved <==> old(ready) > 0)
      ensures sound ==>
        |live| == |old(live)| - (if moved then 1 else 0) && ready == old(ready) - (if moved then 1 else 0)
    {
      moved := hw != event;
      if moved {
        ghost var d := ring[h];
        if sound {
          assert live[0] == d;
          assert consumed + live == (consumed + [d]) + live[1..];
          RingAdvance(ring[..], h, live);
          live, ready := live[1..], ready - 1;
        }
        consumed := consumed + [d];
        hw := if hw + DESC_SIZE == 8 * size then 0 else hw + DESC_SIZE;
        h := Wrap(h + 1, size);
      }
    }

    /** Any number of engine steps, as may happen between two driver steps. */
    method EngineRuns()
      requires Valid()
      modifies this`hw, this`h, this`consumed, this`live, this`ready
      ensures Valid()
      ensures sound ==>
        Produced() == old(Produced()) && |live| - ready == |old(live)| - old(ready) && ready <= old(ready)
    {
      var steps: nat := *;
      while steps > 0
        invariant Valid()
        invariant sound ==>
          Produced() == old(Produced()) && |live| - ready == |old(live)| - old(ready) && ready <= old(ready)
        decreases steps
      {
        var _ := EngineStep();
        steps := steps - 1;
      }
    }

    /** q_bam_add_one_desc. With the ring full of unread descriptors the new one takes the
        place of the next that the engine would read. */
    method AddOne(ptr: nat, len: nat, flags: bv8) returns (ret: int)
      requires Valid()
      modifies this`current, this`added, this`turnsA, this`live, this`sound, ring
      ensures Valid()
      ensures ret == 0 <==> ptr != 0 && len != 0 && initialized && LegalFlags(flags) && len <= maxLen
      ensures LegalFlags(flags) <==> flags & 0x06 != 0x06 && flags & 0x48 != 0x48
      ensures ret != 0 ==> added == old(added) && live == old(live) && sound == old(sound)
      ensures ret == 0 ==> added == old(added) + 1
      ensures ret == 0 ==> sound == (old(sound) && |old(live)| < size)
      ensures ret == 0 && sound ==> live == old(live) + [Desc(ptr, len, flags)]
      ensures ret == 0 && old(sound) && |old(live)| == size ==> ring[h] == Desc(ptr, len, flags)
    {
      FlagsRefused(flags);
      if ptr == 0 || len == 0 || !initialized || !LegalFlags(flags) || len > maxLen {
        return 1;
      }
      Store(Desc(ptr, len, flags));
      ret := 0;
    }

    /** Writes a descriptor at the write pointer and moves it on. */
    method Store(d: Desc)
      requires Valid()
      modifies this`current, this`added, this`turnsA, this`live, this`sound, ring
      ensures Valid() && added == old(added) + 1
      ensures sound == (old(sound) && |old(live)| < size)
      ensures sound ==> live == old(live) + [d]
      ensures old(sound) && |old(live)| == size ==> ring[h] == d
    {
      ghost var was := ring[..];
      ring[current] := d;
      if sound && |live| < size {
        assert ring[..] == was[current := d];
        RingAppend(was, h, live, d);
        live := live + [d];
      } else {
        sound := false;
      }
      MoveOn();
    }

    /** The write pointer moves on. */
    method MoveOn()
      requires Indexed()
      modifies this`current, this`added, this`turnsA
      ensures Indexed() && added == old(added) + 1 && current == Wrap(old(current) + 1, size)
    {
      ghost var turn := current == size - 1;
      assert At(added + 1, if turn then turnsA + 1 else turnsA, if turn then 0 else current + 1, size) by {
        Advance(added, 1, turnsA, current, size);
      }
      turnsA := if turn then turnsA + 1 else turnsA;
      current := if current == size - 1 then 0 else current + 1;
      added := added + 1;
    }

    /** q_bam_sys_gen_event. A batch as long as the ring is refused; what was written
        for it is then not part of the stream. If the batch fills the ring together with
        what was unread before, the event register meets the engine, which then sees
        nothing to read. */
    method GenEvent(n: nat)
      requires Valid()
      requires sound ==> n == |live| - ready
      modifies this`event, this`e, this`notified, this`turnsN, this`live, this`ready, this`sound
      ensures Valid()
      ensures notified == old(notified) + (if n < size then n else 0)
      ensures n < size ==> sound == (old(sound) && |live| < size) && live == old(live)
      ensures n < size && sound ==> ready == |live|
      ensures n < size && old(sound) && |live| == size ==> event == hw
      ensures size <= n ==> sound == old(sound) && (sound ==> live == [] && ready == 0)
    {
      if n < size {
        MoveEvent(n);
        sound := sound && |live| < size;
        ready := if sound then |live| else ready;
      } else if sound {
        live, ready := [], 0;
      }
    }

    /** The event register moves on. */
    method MoveEvent(n: nat)
      requires Indexed() && n < size
      modifies this`event, this`e, this`notified, this`turnsN
      ensures Indexed() && notified == old(notified) + n && e == Wrap(old(e) + n, size)
    {
      event := NextEvent(n);
      assert At(notified + n, if e + n < size then turnsN else turnsN + 1, Wrap(e + n, size), size) by {
        Advance(notified, n, turnsN, e, size);
      }
      notified := notified + n;
      turnsN := if e + n < size then turnsN else turnsN + 1;
      e := Wrap(e + n, size);
    }

    /** The value for the event register. */
    method NextEvent(n: nat) returns (next: nat)
      requires Indexed() && n < size
      ensures next == 8 * Wrap(e + n, size)
    {
      var val := event + n * DESC_SIZE;
      EventMask(e, n, size);
      next := Bits.LowBits(val, size * DESC_SIZE);
    }

    /** Nothing written is still to be announced. */
    ghost predicate Settled()
      reads this
    {
      sound && ready == |live|
    }

    /** One round of the splitting loop, with the engine running alongside. A
        descriptor that is refused is counted by the caller all the same. */
    method AddNext(ptr: nat, len: nat, flags: bv8)
      requires Valid() && ptr != 0 && 0 < len <= maxLen
      modifies this, ring
      ensures Valid() && unchanged(`event, `e, `notified, `turnsN, `initialized, `ring)
      ensures var ok := initialized && LegalFlags(flags);
              && added == old(added) + (if ok then 1 else 0)
              && (sound ==> old(sound) && ok && |live| - ready == |old(live)| - old(ready) + 1 && ready <= old(ready))
              && (sound ==> Produced() == old(Produced()) + [Desc(ptr, len, flags)])
              && (old(sound) && ok && |old(live)| < size ==> sound)
    {
      EngineRuns();
      ghost var p, l := Produced(), live;
      var r := AddOne(ptr, len, flags);
      if r != 0 {
        sound := false;
      }
      if sound {
        assert consumed + (l + [Desc(ptr, len, flags)]) == p + [Desc(ptr, len, flags)];
      }
    }

    /** One pass of the splitting loop. */
    method AddPiece(p: nat, rest: nat, flags: bv8) returns (descLen: nat)
      requires Valid() && p != 0 && 0 < rest
      modifies this, ring
      ensures Valid() && unchanged(`event, `e, `notified, `turnsN, `initialized, `ring)
      ensures descLen == Min(rest, maxLen)
      ensures var ok := initialized && (descLen < rest || LegalFlags(flags));
              && added == old(added) + (if ok then 1 else 0)
              && (sound ==> old(sound) && ok && |live| - ready == |old(live)| - old(ready) + 1 && ready <= old(ready))
              && (sound ==> Produced() == old(Produced()) + [Head(p, rest, maxLen, flags)])
              && (old(sound) && ok && |old(live)| < size ==> sound)
    {
      var descFlags;
      if rest > maxLen {
        descLen, descFlags := maxLen, 0;
      } else {
        descLen, descFlags := rest, flags;
      }
      AddNext(p, descLen, descFlags);
    }

    /** The splitting loop. */
    method AddAll(ptr: nat, len: nat, flags: bv8) returns (n: nat)
      requires Valid() && ptr != 0 && 0 < len
      modifies this, ring
      ensures Valid() && unchanged(`event, `e, `notified, `turnsN, `initialized, `ring)
      ensures n == CeilDiv(len, maxLen)
      ensures added == old(added) + (if !initialized then 0 else if LegalFlags(flags) then n else n - 1)
      ensures sound ==> old(sound) && initialized && LegalFlags(flags)
      ensures sound ==> |live| - ready == |old(live)| - old(ready) + n && ready <= old(ready)
      ensures sound ==> Produced() == old(Produced()) + Split(ptr, len, maxLen, flags)
      ensures old(sound) && initialized && LegalFlags(flags) && |old(live)| + n <= size ==> sound
    {
      n := 0;
      var rest: nat, p: nat := len, ptr;
      ghost var goal, sofar := Split(ptr, len, maxLen, flags), [];
      ghost var legal := LegalFlags(flags);
      ghost var good := sound && initialized && legal && |live| + CeilDiv(len, maxLen) <= size;
      ghost var was, added0, sound0, ready0, fresh0 := Produced(), added, sound, ready, |live| - ready;
      while rest > 0
        invariant Valid() && unchanged(`event, `e, `notified, `turnsN, `initialized, `ring) && p != 0
        invariant n + CeilDiv(rest, maxLen) == CeilDiv(len, maxLen)
        invariant sofar + Split(p, rest, maxLen, flags) == goal
        invariant added == added0 + (if !initialized then 0 else if rest > 0 || legal then n else n - 1)
        invariant sound ==> sound0 && (n > 0 ==> initialized) && (rest == 0 ==> legal)
        invariant sound ==> |live| - ready == fresh0 + n && ready <= ready0
        invariant sound ==> Produced() == was + sofar
        invariant rest == 0 ==> n > 0
        invariant good ==> sound
        decreases rest
      {
        ghost var next := Head(p, rest, maxLen, flags);
        SplitNext(p, rest, maxLen, flags, next, sofar, was);
        var descLen := AddPiece(p, rest, flags);
        rest := rest - descLen;
        sofar := sofar + [next];
        p := p + maxLen;
        n := n + 1;
      }
      assert goal == sofar;
    }

    /** The event after the loop, with the engine running before and after it. */
    method Announce(n: nat, ghost was: seq<Desc>, ghost desc: seq<Desc>)
      requires Valid() && n == |desc|
      requires sound ==> n == |live| - ready && Produced() == was + desc
      modifies this`event, this`e, this`notified, this`turnsN
      modifies this`hw, this`h, this`consumed, this`live, this`ready, this`sound
      ensures Valid() && (sound ==> old(sound))
      ensures notified == old(notified) + (if n < size then n else 0)
      ensures old(sound) && |old(live)| < size && n < size ==> Settled() && Produced() == was + desc
      ensures old(sound) && size <= n ==> Settled() && Produced() == was
    {
      EngineRuns();
      if sound && size <= n {
        assert |live| == n && consumed == (consumed + live)[..|consumed|] == was;
      }
      GenEvent(n);
      assert sound && size <= n ==> consumed + [] == was;
      EngineRuns();
    }

    /** bam_add_desc: splits the buffer, writes the descriptors and announces them.
        Success does not mean that they were announced: a batch as long as the
        ring is not, and it is lost. */
    method AddDesc(ptr: nat, len: nat, flags: bv8) returns (ret: int)
      requires Valid()
      modifies this, ring
      ensures Valid() && initialized == old(initialized) && ring == old(ring)
      ensures ret == 0 <==> ptr != 0 && len != 0 && len <= size * maxLen
      ensures ret != 0 ==> unchanged(this)
      ensures ret == 0 ==>
        && var n := CeilDiv(len, maxLen);
        && n <= size
        && notified == old(notified) + (if n < size then n else 0)
        && added == old(added) + (if !initialized then 0 else if LegalFlags(flags) then n else n - 1)
        && (sound ==> initialized && LegalFlags(flags))
        && (old(Settled()) && initialized && LegalFlags(flags) && |old(live)| + n < size ==>
              Settled() && Produced() == old(Produced()) + Split(ptr, len, maxLen, flags))
        && (old(Settled()) && initialized && LegalFlags(flags) && |old(live)| == 0 && n == size ==>
              Settled() && Produced() == old(Produced()))
    {
      if ptr == 0 || len == 0 {
        return 1;
      }
      if len > size * maxLen {
        return 1;
      }
      BatchFits(len, size, maxLen);
      if ready != |live| {
        sound := false;
      }
      ghost var was, desc := Produced(), Split(ptr, len, maxLen, flags);
      SplitTiles(desc, ptr, len, maxLen, flags);
      var n := AddAll(ptr, len, flags);
      Announce(n, was, desc);
      ret := 0;
    }

    /** At any time, whatever calls were made, the write pointer is the event
        register plus what was added and not announced, modulo the ring size. */
    lemma IndexAgreement()
      requires Indexed()
      ensures (event + 8 * (added - notified)) % (8 * size) == 8 * current
    {
      var x, q := event + 8 * (added - notified), turnsA - turnsN;
      assert q * (8 * size) == 8 * (turnsA * size) - 8 * (turnsN * size);
      assert x == q * (8 * size) + 8 * current;
      Bits.ModUnique(x, 8 * size, q, 8 * current);
    }

    /** The number of steps until the engine reaches the event register. */
    ghost function Distance(): nat
      reads this
      requires Indexed()
    {
      if h <= e then e - h else size - h + e
    }

    /** Waiting until the engine has caught up with the event register. It does, whatever
        was asked for; it has then read all that was produced. */
    method Drain()
      requires Valid()
      modifies this`hw, this`h, this`consumed, this`live, this`ready
      ensures Valid() && hw == event
      ensures old(Settled()) ==> Settled() && live == [] && consumed == old(Produced())
    {
      var moved := true;
      while moved
        invariant Valid() && (!moved ==> hw == event)
        invariant old(Settled()) ==> Settled() && Produced() == old(Produced()) && (!moved ==> ready == 0)
        decreases Distance(), moved
      {
        moved := EngineStep();
      }
      assert consumed + [] == consumed;
    }

    /** A wait that ends when the engine has caught up, or earlier. */
    method Await() returns (done: bool)
      requires Valid()
      modifies this`hw, this`h, this`consumed, this`live, this`ready
      ensures Valid() && (done ==> hw == event)
      ensures old(Settled()) ==> Settled() && Produced() == old(Produced()) && (done ==> live == [])
    {
      done := *;
      if done {
        Drain();
        assert consumed + [] == consumed;
      } else {
        EngineRuns();
      }
    }
  }

  lemma BatchFits(len: nat, size: nat, max: nat)
    requires 0 < max && len <= size * max
    ensures CeilDiv(len, max) <= size
  {
    CeilDivMeaning(len, max);
    var d := CeilDiv(len, max) - size;
    assert d * max == CeilDiv(len, max) * max - size * max;
    MulAtLeast(d, max);
  }

  /** Masking the event register wraps the descriptor count. */
  lemma EventMask(e: nat, n: nat, size: nat)
    requires 0 < size && e < size && n < size
    ensures (8 * e + 8 * n) % (8 * size) == 8 * Wrap(e + n, size)
  {
    Bits.ModUnique(8 * e + 8 * n, 8 * size, if e + n < size then 0 else 1, 8 * Wrap(e + n, size));
  }

  lemma EightTimes(size: nat)
    requires Bits.IsPow2(size)
    ensures Bits.IsPow2(8 * size)
  {
    var k: nat :| size == Bits.Pow2(k);
    assert 2 * size == Bits.Pow2(k + 1);
    assert 4 * size == Bits.Pow2(k + 2);
    assert 8 * size == Bits.Pow2(k + 3);
  }

  /** The engine moves on by one descriptor. */
  lemma RingAdvance(ring: seq<Desc>, h: nat, live: seq<Desc>)
    requires InRing(ring, h, live) && live != []
    ensures InRing(ring, Wrap(h + 1, |ring|), live[1..]) && ring[h] == live[0]
  {
    assert ring[Wrap(h + 0, |ring|)] == live[0];
    forall j | 0 <= j < |live| - 1
      ensures ring[Wrap(Wrap(h + 1, |ring|) + j, |ring|)] == live[1..][j]
    {
      assert ring[Wrap(h + (j + 1), |ring|)] == live[j + 1];
    }
  }

  /** The driver writes one more descriptor behind the unread ones. */
  lemma RingAppend(ring: seq<Desc>, h: nat, live: seq<Desc>, d: Desc)
    requires InRing(ring, h, live) && |live| < |ring|
    ensures InRing(ring[Wrap(h + |live|, |ring|) := d], h, live + [d])
  {}

  // ----- the life of a channel -----

  datatype Event = Requested | Freed | Enabled | Disabled

  /** A DMA channel of drivers/dma/bam_dma.c: the number of rings allocated for it, the
      last of which fifo.head points to, the one that fifo.current points into, and the
      life-cycle flags. */
  datatype Life = Life(inUse: bool, enabled: bool, head: nat, based: nat)

  const FRESH: Life := Life(false, false, 0, 0)

  /** A ring size that the enabling accepts. */
  ghost predicate LegalSize(fifoSize: nat) {
    fifoSize <= 0x7FFF && (fifoSize == 0 || Bits.IsPow2(fifoSize))
  }

  /** The result of a call. */
  function Answer(c: Life, legal: bool, event: Event): int {
    match event
    case Requested => if c.inUse then -EBUSY else 0
    case Freed => if c.inUse then 0 else -EBUSY
    case Enabled => if !c.inUse then -EBUSY else if c.enabled || !legal then -EINVAL else 0
    case Disabled => if !c.inUse then -EBUSY else if c.enabled then 0 else -EINVAL
  }

  function Next(c: Life, legal: bool, event: Event): Life {
    if Answer(c, legal, event) != 0 then c else
    match event
    case Requested => c.(inUse := true, head := c.head + 1)
    case Freed => c.(inUse := false)
    case Enabled => c.(enabled := true, based := c.head)
    case Disabled => c.(enabled := false)
  }

  function After(legal: bool, events: seq<Event>): Life {
    if events == [] then FRESH else Next(After(legal, events[..|events| - 1]), legal, events[|events| - 1])
  }

  /** Somebody requested the channel and nobody freed it since. */
  predicate Held(events: seq<Event>) {
    exists i :: 0 <= i < |events| && events[i].Requested? && !Later(events, i, Freed)
  }

  /** A call after number `i`. */
  predicate Later(events: seq<Event>, i: nat, e: Event) {
    exists j :: i < j < |events| && events[j] == e
  }

  /** A holder enabled it, and no holder disabled it since. */
  predicate Running(legal: bool, events: seq<Event>) {
    legal && exists i :: 0 <= i < |events| && EnabledAt(events, i)
  }

  predicate EnabledAt(events: seq<Event>, i: nat)
    requires i < |events|
  {
    && events[i].Enabled? && Held(events[..i])
    && forall j :: i < j < |events| && events[j].Disabled? ==> !Held(events[..j])
  }

  lemma LaterNext(events: seq<Event>, e: Event, i: nat, f: Event)
    requires i < |events|
    ensures Later(events + [e], i, f) <==> Later(events, i, f) || e == f
  {
    var all := events + [e];
    if Later(events, i, f) {
      var j :| i < j < |events| && events[j] == f;
      assert all[j] == f;
    }
    if e == f {
      assert all[|events|] == f;
    }
  }

  lemma HeldNext(events: seq<Event>, e: Event)
    ensures Held(events + [e]) <==> e.Requested? || (Held(events) && !e.Freed?)
  {
    var all := events + [e];
    if e.Requested? {
      assert all[|events|].Requested? && !Later(all, |events|, Freed);
    }
    if Held(events) && !e.Freed? {
      var i :| 0 <= i < |events| && events[i].Requested? && !Later(events, i, Freed);
      LaterNext(events, e, i, Freed);
      assert all[i].Requested?;
    }
    if Held(all) && !e.Requested? {
      var i :| 0 <= i < |all| && all[i].Requested? && !Later(all, i, Freed);
      LaterNext(events, e, i, Freed);
      assert events[i].Requested?;
    }
  }

  lemma EnabledAtNext(events: seq<Event>, e: Event, i: nat)
    requires i < |events|
    ensures EnabledAt(events + [e], i) <==> EnabledAt(events, i) && !(e.Disabled? && Held(events))
  {
    var all := events + [e];
    assert all[..i] == events[..i] && all[..|events|] == events;
    assert forall j :: i < j < |events| ==> all[..j] == events[..j];
  }

  lemma RunningNext(legal: bool, events: seq<Event>, e: Event)
    ensures Running(legal, events + [e]) <==>
            (legal && Held(events) && e.Enabled?) || (Running(legal, events) && !(e.Disabled? && Held(events)))
  {
    var all, n := events + [e], |events|;
    assert all[..n] == events;
    if legal && Held(events) && e.Enabled? {
      assert EnabledAt(all, n);
    }
    if Running(legal, events) {
      var i :| 0 <= i < |events| && EnabledAt(events, i);
      EnabledAtNext(events, e, i);
    }
    if Running(legal, all) {
      var i :| 0 <= i < |all| && EnabledAt(all, i);
      if i < n {
        EnabledAtNext(events, e, i);
      }
    }
  }

  /** The state of a channel after any calls. */
  lemma {:induction false} StateIs(legal: bool, events: seq<Event>)
    ensures After(legal, events).inUse == Held(events) && After(legal, events).enabled == Running(legal, events)
  {
    if events != [] {
      var n := |events| - 1;
      StateIs(legal, events[..n]);
      assert events == events[..n] + [events[n]];
      HeldNext(events[..n], events[n]);
      RunningNext(legal, events[..n], events[n]);
    }
  }

  /** The result of every call, from the calls before it alone. */
  lemma CallAnswers(legal: bool, events: seq<Event>)
    ensures Answer(After(legal, events), legal, Requested) == if Held(events) then -16 else 0
    ensures Answer(After(legal, events), legal, Freed) == if Held(events) then 0 else -16
    ensures Answer(After(legal, events), legal, Enabled) ==
            if !Held(events) then -16 else if legal && !Running(legal, events) then 0 else -22
    ensures Answer(After(legal, events), legal, Disabled) ==
            if !Held(events) then -16 else if Running(legal, events) then 0 else -22
  {
    StateIs(legal, events);
  }

  /** While enabled, the write pointer moves in the ring that fifo.head names. */
  predicate Coherent(c: Life) {
    c.enabled ==> c.based == c.head
  }

  /** Some request succeeded while the channel was enabled, and it has not been disabled
      since. */
  predicate Torn(legal: bool, events: seq<Event>) {
    if events == [] then false else
    var n := |events| - 1;
    var c := After(legal, events[..n]);
    match events[n]
    case Requested => Torn(legal, events[..n]) || (!c.inUse && c.enabled)
    case Disabled => Torn(legal, events[..n]) && !(c.inUse && c.enabled)
    case _ => Torn(legal, events[..n])
  }

  /** After any calls at all, the channel is incoherent exactly if it was freed without
      being disabled, requested again, and not disabled since. */
  lemma {:induction false} TornIsIncoherent(legal: bool, events: seq<Event>)
    ensures Coherent(After(legal, events)) <==> !Torn(legal, events)
    ensures After(legal, events).based <= After(legal, events).head
    ensures Torn(legal, events) ==> After(legal, events).enabled
  {
    if events != [] {
      TornIsIncoherent(legal, events[..|events| - 1]);
    }
  }

  class DmaChannel {
    const id: nat
    const nPipes: nat
    const fifoSize: nat
    const maxLen: nat
    const toDevice: bool     // dir == SYS2BAM
    var inUse: bool
    var enabled: bool
    var head: nat            // the allocation that fifo.head points to
    var based: nat           // the allocation that fifo.current points into
    ghost var past: seq<Event>
    var pipe: BamPipe?       // null for a ring of no descriptors

    ghost function State(): Life
      reads `inUse, `enabled, `head, `based
    {
      Life(inUse, enabled, head, based)
    }

    /** The state is that of the calls made, on a channel that the controller has. */
    ghost predicate Valid()
      reads `inUse, `enabled, `head, `based, `past
    {
      State() == After(LegalSize(fifoSize), past)
    }

    /** One more call with its result; on a channel that the controller does not have
        every call is refused. */
    twostate predicate Did(event: Event, ret: int)
      reads this
    {
      if id >= nPipes then ret == -EINVAL && State() == old(State()) && past == old(past)
      else
        && past == old(past) + [event] && ret == Answer(old(State()), LegalSize(fifoSize), event)
        && State() == Next(old(State()), LegalSize(fifoSize), event)
    }

    constructor (id: nat, nPipes: nat, fifoSize: nat, maxLen: nat, toDevice: bool)
      ensures Valid() && State() == FRESH && past == [] && pipe == null
      ensures this.id == id && this.nPipes == nPipes && this.fifoSize == fifoSize
      ensures this.maxLen == maxLen && this.toDevice == toDevice
    {
      this.id, this.nPipes, this.fifoSize, this.maxLen, this.toDevice := id, nPipes, fifoSize, maxLen, toDevice;
      inUse, enabled, head, based, past, pipe := false, false, 0, 0, [], null;
    }

    /** The call becomes part of the past. */
    ghost method Note(event: Event)
      modifies `past
      ensures past == old(past) + [event]
      ensures After(LegalSize(fifoSize), past) ==
              Next(After(LegalSize(fifoSize), old(past)), LegalSize(fifoSize), event)
    {
      assert (past + [event])[..|past|] == past;
      past := past + [event];
    }

    method Request() returns (ret: int)
      requires Valid()
      modifies this`inUse, this`head, this`past
      ensures Valid() && Did(Requested, ret)
    {
      if id >= nPipes {
        return -EINVAL;
      }
      Note(Requested);
      ret := -EBUSY;
      if !inUse {
        head := head + 1;
        inUse := true;
        ret := 0;
      }
    }

    method Free() returns (ret: int)
      requires Valid()
      modifies this`inUse, this`past
      ensures Valid() && Did(Freed, ret)
    {
      if id >= nPipes {
        return -EINVAL;
      }
      Note(Freed);
      ret := if inUse then 0 else -EBUSY;
      inUse := false;
    }

    /** Sets up the ring from scratch, unless it is already set up. */
    method Enable() returns (ret: int)
      requires Valid() && 0 < maxLen && fifoSize < 0x1_0000_0000
      modifies this`enabled, this`based, this`pipe, this`past
      ensures Valid() && Did(Enabled, ret)
      ensures ret == 0 <==>
        id < nPipes && old(inUse) && !old(enabled) && fifoSize <= 32767 && (fifoSize == 0 || Bits.IsPow2(fifoSize))
      ensures ret != 0 ==> pipe == old(pipe)
      ensures ret == 0 ==> (pipe == null <==> fifoSize == 0)
      ensures ret == 0 && pipe != null ==>
        && fresh(pipe) && fresh(pipe.ring) && pipe.Valid() && pipe.Settled()
        && pipe.initialized && pipe.Produced() == [] && pipe.size == fifoSize && pipe.maxLen == maxLen
    {
      if id >= nPipes {
        return -EINVAL;
      }
      Note(Enabled);
      Bits.Ispow2Accepts(fifoSize);
      if !inUse {
        ret := -EBUSY;
      } else if enabled || fifoSize > 0x7FFF || !Bits.Ispow2(fifoSize) {
        ret := -EINVAL;
      } else {
        pipe := null;
        if fifoSize > 0 {
          pipe := new BamPipe(fifoSize, maxLen);
        }
        based, enabled := head, true;
        ret := 0;
      }
    }

    method Disable() returns (ret: int)
      requires Valid()
      modifies this`enabled, this`past
      ensures Valid() && Did(Disabled, ret)
    {
      if id >= nPipes {
        return -EINVAL;
      }
      Note(Disabled);
      ret := -EBUSY;
      if inUse {
        ret := if enabled then 0 else -EINVAL;
        enabled := false;
      }
    }

    /** The ring that an enabled channel was given. */
    ghost predicate Ready()
      reads this, pipe, if pipe == null then {} else {pipe.ring}
    {
      pipe != null && pipe.Valid() && pipe.initialized && pipe.size == fifoSize && pipe.maxLen == maxLen
    }

    /** bam_dma_send. The wait may end before the engine has caught up, which is not
        reported; `done` says whether it has. On a coherent channel the stream of what
        the engine has read or will read grows by the descriptors of the buffer, if
        there is room for them; a buffer that needs as many as the ring has is accepted
        and not sent. With flags that are refused there is one descriptor less in the
        ring than is announced. On an incoherent channel the driver writes to another
        ring than the one that fifo.head names. */
    method Send(src: nat, len: nat, metadata: Option<bv8>) returns (ret: int, done: bool)
      requires enabled && 0 < fifoSize && Coherent(State()) ==> Ready()
      modifies pipe, if pipe == null then {} else {pipe.ring}
      ensures ret == if id >= nPipes || src == 0 || metadata.None? || !toDevice then -EINVAL else if !inUse then -EBUSY
                     else if !enabled || len == 0 || len > fifoSize * maxLen then -EINVAL else 0
      ensures ret != 0 ==> !done && (pipe != null ==> unchanged(pipe))
      ensures ret == 0 && Coherent(State()) ==>
        && Ready() && (done ==> pipe.hw == pipe.event)
        && var n := CeilDiv(len, maxLen);
        && pipe.notified == old(pipe.notified) + (if n < fifoSize then n else 0)
        && pipe.added == old(pipe.added) + (if LegalFlags(metadata.value) then n else n - 1)
      ensures ret == 0 && Coherent(State()) && LegalFlags(metadata.value) && old(pipe.Settled()) ==>
        var n, had := CeilDiv(len, maxLen), |old(pipe.live)|;
        && (had + n < fifoSize ==>
              pipe.Settled() && pipe.Produced() == old(pipe.Produced()) + Split(src, len, maxLen, metadata.value))
        && (had == 0 && n == fifoSize ==> pipe.Settled() && pipe.Produced() == old(pipe.Produced()))
        && (pipe.Settled() && done ==> pipe.live == [] && pipe.consumed == pipe.Produced())
    {
      done := false;
      if id >= nPipes || src == 0 || metadata.None? || !toDevice {
        ret := -EINVAL;
      } else if !inUse {
        ret := -EBUSY;
      } else if !enabled || len == 0 || len > fifoSize * maxLen {
        ret := -EINVAL;
      } else {
        ret := 0;
        if based == head {
          var _ := pipe.AddDesc(src, len, metadata.value);
          done := pipe.Await();
        }
      }
    }
  }
}
