/** Splitting a memory region into numbered dumps (split_bin_dump in
    arch/arm/mach-ipq/cmd_crashdump.c). */
module SplitDump {
  import opened Common
  import opened Bytes

  /** An entry of the dump table; the number, eight bits wide, ends up in its name. */
  datatype Piece = Piece(number: nat, start: nat, size: nat)

  /** The number of pieces, as the code computes it for the first name. */
  function Count(size: nat, split: nat): nat
    requires 0 < split
  {
    CeilDiv(size, split)
  }

  /** From the end of the region downwards, numbered down to `base`. */
  function Pieces(start: nat, size: nat, split: nat, base: nat): (r: seq<Piece>)
    requires 0 < split
    ensures |r| == Count(size, split)
    decreases size
  {
    if size == 0 then []
    else
      var n := if size > split then split else size;
      [Piece((base + Count(size, split) - 1) % 256, start + size - n, n)] + Pieces(start, size - n, split, base)
  }

  /** The number of the first name. */
  function FirstFileNo(size: nat, split: nat, base: nat): (r: nat)
    requires 0 < split && base < 256
    ensures size > 0 ==> r == (base + Count(size, split) - 1) % 256
  {
    FirstNumber(size, split);
    (size / split + base - (if size % split != 0 then 0 else 1)) % 256
  }

  /** file_no--, in eight bits. */
  function Down(number: nat): (r: nat)
    ensures forall x: nat :: number == (x + 1) % 256 ==> r == x % 256
  {
    if number == 0 then 255 else number - 1
  }

  /** split_bin_dump. `room` is how many entries can be added before adding fails. */
  method SplitBinDump(start: nat, size: nat, split: nat, base: nat, room: nat) returns (ret: int, added: seq<Piece>)
    requires 0 < split && base < 256
    ensures added <= Pieces(start, size, split, base)
    ensures |added| == (if Count(size, split) <= room then Count(size, split) else room)
    ensures ret == 0 <==> Count(size, split) <= room
  {
    ret, added := 0, [];
    var left: nat, end := size, start + size;
    var number := FirstFileNo(size, split, base);
    while left > 0
      invariant ret == 0 && end == start + left && |added| <= room
      invariant added + Pieces(start, left, split, base) == Pieces(start, size, split, base)
      invariant |added| + Count(left, split) == Count(size, split)
      invariant left > 0 ==> number == (base + Count(left, split) - 1) % 256
      decreases left
    {
      var n := if left > split then split else left;
      var piece := Piece(number, end - n, n);
      PiecesNext(start, left, split, base, added, n, piece);
      number := Down(number);
      end := end - n;
      left := left - n;
      if |added| == room {
        ret := -ENOMEM;
        return;
      }
      added := added + [piece];
    }
  }

  lemma FirstNumber(size: nat, split: nat)
    requires 0 < split
    ensures size > 0 ==> Count(size, split) - 1 == size / split - (if size % split != 0 then 0 else 1)
  {
    CeilDivMeaning(size, split);
    var q := size / split;
    if size > 0 {
      WholeBlocks(size, split);
      CountIs(size, split, q);
    }
  }

  lemma {:induction false} CountIs(size: nat, split: nat, q: nat)
    requires 0 < split && q == size / split
    ensures Count(size, split) == if size % split != 0 then q + 1 else q
    decreases size
  {
    if split <= size {
      ModMinus(size, split);
      QuotientUnique(size - split, split, q - 1);
      CountIs(size - split, split, q - 1);
    } else {
      QuotientUnique(size, split, 0);
    }
  }

  lemma PiecesNext(start: nat, left: nat, split: nat, base: nat, added: seq<Piece>, n: nat, piece: Piece)
    requires 0 < split && 0 < left && n == if left > split then split else left
    requires piece == Piece((base + Count(left, split) - 1) % 256, start + left - n, n)
    ensures added + Pieces(start, left, split, base) == (added + [piece]) + Pieces(start, left - n, split, base)
    ensures Count(left - n, split) == Count(left, split) - 1
  {
    var rest := Pieces(start, left - n, split, base);
    assert Pieces(start, left, split, base) == [piece] + rest;
    Assoc(added, [piece], rest);
  }

  /** The pieces come in descending order without gap or overlap, all but the last of
      length `split` and none longer or empty; their numbers descend, modulo 256, to
      `base`. */
  lemma {:induction false} PiecesTile(start: nat, size: nat, split: nat, base: nat, j: nat)
    requires 0 < split && j < Count(size, split)
    ensures var ps := Pieces(start, size, split, base);
            && 0 < ps[j].size <= split && (j < |ps| - 1 ==> ps[j].size == split)
            && ps[j].start + ps[j].size == (if j == 0 then start + size else ps[j - 1].start)
            && (j == |ps| - 1 ==> ps[j].start == start)
            && ps[j].number == (base + (Count(size, split) - 1 - j)) % 256
    decreases size
  {
    var n := if size > split then split else size;
    var ps := Pieces(start, size, split, base);
    var rest := Pieces(start, size - n, split, base);
    PiecesNext(start, size, split, base, [], n, ps[0]);
    assert ps == [ps[0]] + rest;
    if j > 0 {
      PiecesTile(start, size - n, split, base, j - 1);
      assert ps[j] == rest[j - 1];
    }
  }

  /** There are as many pieces as it takes. */
  lemma PiecesCount(start: nat, size: nat, split: nat, base: nat)
    requires 0 < split
    ensures |Pieces(start, size, split, base)| == (size + split - 1) / split
  {
    CeilDivMeaning(size, split);
  }

  /** The bytes of the pieces, the last one first. */
  function Gather(mem: seq<byte>, ps: seq<Piece>): seq<byte> {
    if ps == [] then []
    else Gather(mem, ps[1..])
         + (if ps[0].start + ps[0].size <= |mem| then mem[ps[0].start..ps[0].start + ps[0].size] else [])
  }

  /** Put together again, the pieces are the region. */
  lemma {:induction false} PiecesRestore(mem: seq<byte>, start: nat, size: nat, split: nat, base: nat)
    requires 0 < split && start + size <= |mem|
    ensures Gather(mem, Pieces(start, size, split, base)) == mem[start..start + size]
    decreases size
  {
    if size > 0 {
      var n := if size > split then split else size;
      var ps := Pieces(start, size, split, base);
      PiecesRestore(mem, start, size - n, split, base);
      assert ps[1..] == Pieces(start, size - n, split, base);
      assert mem[start..start + size] == mem[start..start + size - n] + mem[start + size - n..start + size];
    }
  }

  /** The numbers tell the pieces apart exactly if there are no more than 256. */
  lemma NumbersDistinct(start: nat, size: nat, split: nat, base: nat)
    requires 0 < split
    ensures var ps := Pieces(start, size, split, base);
            (forall j, k :: 0 <= j < k < |ps| ==> ps[j].number != ps[k].number) <==> |ps| <= 256
  {
    var ps := Pieces(start, size, split, base);
    if |ps| <= 256 {
      forall j, k | 0 <= j < k < |ps| ensures ps[j].number != ps[k].number {
        PiecesTile(start, size, split, base, j);
        PiecesTile(start, size, split, base, k);
        NumbersApart(base + |ps| - 1 - j, base + |ps| - 1 - k);
      }
    } else {
      PiecesTile(start, size, split, base, 0);
      PiecesTile(start, size, split, base, 256);
      NumbersMeet(base + |ps| - 1, base + |ps| - 257);
      assert ps[0].number == ps[256].number;
    }
  }

  lemma NumbersApart(x: nat, y: nat)
    requires y < x < y + 256
    ensures x % 256 != y % 256
  {}

  lemma NumbersMeet(x: nat, y: nat)
    requires x == y + 256
    ensures x % 256 == y % 256
  {}
}
