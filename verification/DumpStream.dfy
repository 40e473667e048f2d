/** The dumps and the index list as one stream behind the first block of a partition,
    as both flash back ends write them (arch/arm/mach-ipq/cmd_crashdump.c). */
module DumpStream {
  import opened Common
  import opened Bytes
  import opened DumpContainer

  /** The partition as a reader addresses it, with the first block left blank. */
  function Image(b: nat, stream: seq<byte>): (s: seq<byte>)
    ensures |s| == b + |stream|
  {
    Fill(b, 0xFF) + stream
  }

  function PlaceOf(b: nat, nameMax: nat): Place {
    Place(0, b, 1, nameMax)
  }

  lemma {:induction false} MultipleOfOne(x: nat)
    ensures IsMultiple(x, 1)
  {
    if x > 0 {
      MultipleOfOne(x - 1);
    }
  }

  /** The chunks of the dumps. */
  function Datas(dumps: seq<Dump>): (r: seq<seq<byte>>)
    ensures |r| == |dumps|
  {
    seq(|dumps|, i requires 0 <= i < |dumps| => dumps[i].data)
  }

  lemma DatasNext(dumps: seq<Dump>, d: Dump)
    ensures Datas(dumps + [d]) == Datas(dumps) + [d.data]
    ensures Flatten(Datas(dumps + [d])) == Flatten(Datas(dumps)) + d.data
  {
    assert (Datas(dumps) + [d.data])[..|dumps|] == Datas(dumps);
  }

  /** The stream holds the dumps taken so far, the list their records. */
  ghost predicate Gathered(b: nat, nameMax: nat, stream: seq<byte>, list: seq<byte>, curr: nat, log: Log) {
    && Collected(Image(b, stream), list, 0, PlaceOf(b, nameMax), log, curr)
    && stream == Flatten(Datas(DumpsOf(log))) && curr == b + |stream|
  }

  lemma GatherStart(b: nat, nameMax: nat, list: seq<byte>)
    ensures Datas(DumpsOf(Start)) == [] && Gathered(b, nameMax, [], list, b, Start)
  {}

  /** The offset after the dumps. */
  function End(b: nat, dumps: seq<Dump>): (a: nat)
    ensures b <= a
  {
    b + |Flatten(Datas(dumps))|
  }

  lemma EndGrows(b: nat, dumps: seq<Dump>, k: nat)
    requires k <= |dumps|
    ensures End(b, dumps[..k]) <= End(b, dumps)
  {
    assert Datas(dumps)[..k] == Datas(dumps[..k]);
    FlattenPrefix(Datas(dumps), k);
  }

  lemma GatherStep(b: nat, nameMax: nat, stream: seq<byte>, list: seq<byte>, curr: nat, log: Log, e: Entry, d: Dump)
    requires Gathered(b, nameMax, stream, list, curr, log)
    requires e == Entry(d.name, curr, |d.data|) && Legal(e, nameMax) && Slot(Count(log) + 1, nameMax) <= |list|
    ensures Gathered(b, nameMax, stream + d.data, PutEntry(list, Count(log), nameMax, e), curr + |d.data|,
                     Then(log, e, d))
  {
    var s, t := Image(b, stream), Image(b, stream + d.data);
    MultipleOfOne(curr);
    assert SameOn(s, t, b, curr);
    assert HoldsAt(t, curr, d.data);
    CollectedNext(s, t, list, PlaceOf(b, nameMax), log, e, d, curr + |d.data|);
    DatasNext(DumpsOf(log), d);
  }

  /** The header block makes the stream a container. */
  lemma HeaderCommits(s: seq<byte>, h: Block, b: nat, nameMax: nat, stream: seq<byte>, list: seq<byte>, curr: nat,
                      log: Log, total: nat)
    requires HEADER_SIZE < b == |h| && HoldsAt(h, 0, HeaderBytes(Count(log), total, curr))
    requires Gathered(b, nameMax, stream, list, curr, log) && |list| == Slot(Count(log), nameMax)
    requires h + (stream + list) <= s
    requires total == curr + |list| < 0x1_0000_0000
    ensures HasMagic(s) && Sound(s, PlaceOf(b, nameMax), DumpsOf(log))
  {
    var p, hdr := PlaceOf(b, nameMax), HeaderBytes(Count(log), total, curr);
    ImageSame(s, h, b, stream, list);
    GatherMoved(b, nameMax, stream, list, curr, log, s, p);
    HeldSame(h, s, 0, HEADER_SIZE, 0, hdr);
    ContainerReads(s, curr, p, log, curr, total);
  }

  lemma GatherMoved(b: nat, nameMax: nat, stream: seq<byte>, list: seq<byte>, curr: nat, log: Log, s: seq<byte>,
                    p: Place)
    requires Gathered(b, nameMax, stream, list, curr, log)
    requires |list| == Slot(Count(log), nameMax) && p == PlaceOf(b, nameMax)
    requires SameOn(Image(b, stream), s, b, curr) && SameShifted(list, 0, s, curr, |list|)
    ensures Collected(s, s, curr, p, log, curr)
  {
    CollectedMoved(Image(b, stream), s, list, 0, s, curr, p, log, curr, curr);
  }

  lemma ImageSame(s: seq<byte>, h: Block, b: nat, stream: seq<byte>, list: seq<byte>)
    requires |h| == b && h + (stream + list) <= s
    ensures SameOn(Image(b, stream), s, b, b + |stream|) && SameOn(h, s, 0, b)
    ensures SameShifted(list, 0, s, b + |stream|, |list|)
  {
    forall i | b <= i < b + |stream| ensures Image(b, stream)[i] == s[i] {
      assert s[i] == (h + (stream + list))[i] == stream[i - b];
    }
    forall i | 0 <= i < |list| ensures list[i] == s[i + (b + |stream|)] {
      assert s[i + (b + |stream|)] == (h + (stream + list))[i + (b + |stream|)];
    }
  }

  /** The sizes that the source's 32-bit integers carry. */
  ghost predicate Storable(dumps: seq<Dump>, nameMax: nat, b: nat) {
    && (forall i :: 0 <= i < |dumps| ==> CName(dumps[i].name, nameMax) && b + |dumps[i].data| < 0x1_0000_0000)
    && End(b, dumps) + Slot(|dumps|, nameMax) < 0x1_0000_0000
  }

  lemma EndNext(b: nat, dumps: seq<Dump>, i: nat)
    requires i < |dumps|
    ensures End(b, dumps[..i]) + |dumps[i].data| <= End(b, dumps)
    ensures dumps[..i + 1] == dumps[..i] + [dumps[i]]
  {
    assert dumps[..i + 1] == dumps[..i] + [dumps[i]];
    DatasNext(dumps[..i], dumps[i]);
    EndGrows(b, dumps, i + 1);
  }
}
