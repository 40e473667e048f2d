/** The table-driven CRC of the boot configuration record
    (arch/arm/mach-ipq/common.c, tools/sysupgrade.c): the generator 0x04C11DB7
    of clause 3.2.9 of IEEE 802.3, most significant bit first, initial value 0. */
module Crc32 {
  import opened Common
  import opened BitFold
  import opened CrcTable

  // ----- bit-serial division -----

  function BitValue(b: bool): bv32 {
    if b then 0x8000_0000 else 0
  }

  function Mix(r: bv32, b: bool): bv32 {
    r ^ BitValue(b)
  }

  /** The register after a bit string: each bit is added at the top, then the
      register is shifted. */
  function BitCrc(r: bv32, bits: seq<bool>): bv32 {
    Fold(Shift, Mix, r, bits)
  }

  function BitsOf(x: bv8): seq<bool> {
    [x & 0x80 != 0, x & 0x40 != 0, x & 0x20 != 0, x & 0x10 != 0,
     x & 0x08 != 0, x & 0x04 != 0, x & 0x02 != 0, x & 0x01 != 0]
  }

  /** The bits of a message in the order they are processed. */
  function MessageBits(m: seq<bv8>): (bits: seq<bool>)
    ensures |bits| == 8 * |m|
  {
    if m == [] then [] else MessageBits(m[..|m| - 1]) + BitsOf(m[|m| - 1])
  }

  // ----- the shift register is linear and loses nothing -----

  function XorWord(x: bv32, y: bv32): bv32 {
    x ^ y
  }

  lemma ShiftLinear(x: bv32, y: bv32)
    ensures Shift(x ^ y) == Shift(x) ^ Shift(y)
  {
    TopXor(x, y);
    DoubleXor(x, y);
    TopIsBit(x);
    TopIsBit(y);
    if x & 0x8000_0000 != 0 && y & 0x8000_0000 != 0 {
      PolyCancels(x << 1, y << 1);
    } else if x & 0x8000_0000 != 0 {
      PolyMoves(x << 1, y << 1);
    } else if y & 0x8000_0000 != 0 {
      PolyMoves(y << 1, x << 1);
    }
  }

  lemma TopXor(x: bv32, y: bv32)
    ensures (x ^ y) & 0x8000_0000 == (x & 0x8000_0000) ^ (y & 0x8000_0000)
  {}

  lemma DoubleXor(x: bv32, y: bv32)
    ensures (x ^ y) << 1 == (x << 1) ^ (y << 1)
  {}

  lemma TopIsBit(x: bv32)
    ensures x & 0x8000_0000 == 0 || x & 0x8000_0000 == 0x8000_0000
  {}

  lemma PolyCancels(x: bv32, y: bv32)
    ensures (x ^ 0x04C11DB7) ^ (y ^ 0x04C11DB7) == x ^ y
  {}

  lemma PolyMoves(x: bv32, y: bv32)
    ensures (x ^ 0x04C11DB7) ^ y == (x ^ y) ^ 0x04C11DB7
    ensures y ^ (x ^ 0x04C11DB7) == (y ^ x) ^ 0x04C11DB7
  {}

  /** Only the zero register shifts to zero. */
  lemma ShiftNonZero(x: bv32)
    ensures Shift(x) == 0 <==> x == 0
  {
    DoubleEven(x);
    DoubleTop(x);
  }

  lemma DoubleEven(x: bv32)
    ensures ((x << 1) ^ 0x04C11DB7) & 1 == 1
  {}

  lemma DoubleTop(x: bv32)
    ensures x << 1 == 0 && x & 0x8000_0000 == 0 ==> x == 0
  {}

  /** The step backwards. */
  function Unshift(r: bv32): bv32 {
    if r & 1 != 0 then ((r ^ 0x04C11DB7) >> 1) | 0x8000_0000 else r >> 1
  }

  lemma ShiftInjective(x: bv32, y: bv32)
    ensures Shift(x) == Shift(y) <==> x == y
  {
    ShiftLinear(x, y);
    ShiftNonZero(x ^ y);
    XorZero(x, y);
    XorZero(Shift(x), Shift(y));
  }

  /** Each step is a bijection on the register. */
  lemma UnshiftShift(x: bv32)
    ensures Unshift(Shift(x)) == x
  {
    ShiftUnshift(Shift(x));
    ShiftInjective(Unshift(Shift(x)), x);
  }

  lemma ShiftUnshift(x: bv32)
    ensures Shift(Unshift(x)) == x
  {
    LowIsBit(x);
    if x & 1 != 0 {
      var y := (x ^ 0x04C11DB7) >> 1;
      OddMinusPoly(x);
      SetTop(y);
      DoubleHalf(x ^ 0x04C11DB7);
      Cancel(x);
    } else {
      HalfTop(x);
      DoubleHalf(x);
    }
  }

  lemma Cancel(x: bv32)
    ensures (x ^ 0x04C11DB7) ^ 0x04C11DB7 == x
  {}

  lemma LowIsBit(x: bv32)
    ensures x & 1 == 0 || x & 1 == 1
  {}

  lemma OddMinusPoly(x: bv32)
    ensures x & 1 == 1 ==> (x ^ 0x04C11DB7) & 1 == 0
  {}

  lemma SetTop(y: bv32)
    ensures (y | 0x8000_0000) & 0x8000_0000 == 0x8000_0000
    ensures (y | 0x8000_0000) << 1 == y << 1
  {}

  lemma HalfTop(x: bv32)
    ensures (x >> 1) & 0x8000_0000 == 0
  {}

  lemma DoubleHalf(x: bv32)
    ensures x & 1 == 0 ==> (x >> 1) << 1 == x
  {}

  lemma XorZero(x: bv32, y: bv32)
    ensures x ^ y == 0 <==> x == y
  {}

  lemma XorSwap(a: bv32, b: bv32, c: bv32, d: bv32)
    ensures (a ^ b) ^ (c ^ d) == (a ^ c) ^ (b ^ d)
  {}

  // ----- whole bit strings -----

  lemma MixLinear(x: bv32, y: bv32, a: bool, b: bool)
    ensures Mix(x ^ y, a != b) == Mix(x, a) ^ Mix(y, b)
  {
    XorSwap(x, y, BitValue(a), BitValue(b));
  }

  lemma MixTwice(x: bv32, b: bool)
    ensures Mix(Mix(x, b), b) == x
  {}

  lemma ShiftIsLinear()
    ensures LinearShift(Shift, XorWord)
  {
    forall x, y ensures Shift(XorWord(x, y)) == XorWord(Shift(x), Shift(y)) {
      ShiftLinear(x, y);
    }
  }

  lemma MixIsLinear()
    ensures LinearMix(Mix, XorWord)
  {
    forall x, y, a, b ensures Mix(XorWord(x, y), a != b) == XorWord(Mix(x, a), Mix(y, b)) {
      MixLinear(x, y, a, b);
    }
  }

  lemma StepsAreInvertible()
    ensures Invertible(Shift, Unshift, Mix)
  {
    forall x ensures Unshift(Shift(x)) == x && Shift(Unshift(x)) == x {
      UnshiftShift(x);
      ShiftUnshift(x);
    }
    forall x, b ensures Mix(Mix(x, b), b) == x {
      MixTwice(x, b);
    }
  }

  /** The low `n` bits are zero. */
  predicate LowZero(x: bv32, n: nat) {
    n == 0 || (x & 1 == 0 && LowZero(x >> 1, n - 1))
  }

  lemma LowZeroTop()
    ensures LowZero(0x8000_0000, 31)
  {
    assert LowZero(0x2, 1); assert LowZero(0x8, 3); assert LowZero(0x20, 5); assert LowZero(0x80, 7);
    assert LowZero(0x200, 9); assert LowZero(0x800, 11); assert LowZero(0x2000, 13); assert LowZero(0x8000, 15);
    assert LowZero(0x20000, 17); assert LowZero(0x80000, 19);
    assert LowZero(0x200000, 21); assert LowZero(0x800000, 23);
    assert LowZero(0x2000000, 25); assert LowZero(0x8000000, 27);
    assert LowZero(0x20000000, 29); assert LowZero(0x80000000, 31);
  }

  lemma {:induction false} LowZeroFewer(x: bv32, n: nat, m: nat)
    requires LowZero(x, n) && m <= n
    ensures LowZero(x, m)
  {
    if m > 0 {
      LowZeroFewer(x >> 1, n - 1, m - 1);
    }
  }

  lemma {:induction false} LowZeroXor(x: bv32, y: bv32, n: nat)
    requires LowZero(x, n) && LowZero(y, n)
    ensures LowZero(x ^ y, n)
  {
    if n > 0 {
      LowXor(x, y);
      LowZeroXor(x >> 1, y >> 1, n - 1);
    }
  }

  lemma LowXor(x: bv32, y: bv32)
    ensures x & 1 == 0 && y & 1 == 0 ==> (x ^ y) & 1 == 0
    ensures (x ^ y) >> 1 == (x >> 1) ^ (y >> 1)
  {}

  lemma {:induction false} LowZeroOfZero(n: nat)
    ensures LowZero(0, n)
  {
    if n > 0 {
      LowZeroOfZero(n - 1);
    }
  }

  lemma UnshiftEven(u: bv32)
    requires u & 1 == 0
    ensures Unshift(u) == u >> 1 && (u >> 1) & 0x8000_0000 == 0 && (u >> 1 == 0 <==> u == 0)
  {
    HalfTop(u);
    DoubleHalf(u);
  }

  lemma TopMix(h: bv32, b: bool)
    requires h & 0x8000_0000 == 0
    ensures Mix(h, b) == 0 <==> h == 0 && !b
  {
    XorZero(h, BitValue(b));
  }

  lemma LowZeroMix(h: bv32, b: bool, n: nat)
    requires n <= 31 && LowZero(h, n)
    ensures LowZero(Mix(h, b), n)
  {
    LowZeroOfZero(n);
    LowZeroTop();
    LowZeroFewer(0x8000_0000, 31, n);
    LowZeroXor(h, BitValue(b), n);
  }

  /** Undoing one more bit of a string of at most 32 from a register whose used
      bits are all at the top. */
  lemma UndoOne(u: bv32, b: bool, n: nat)
    requires n <= 31 && LowZero(u, n + 1)
    ensures LowZero(Mix(Unshift(u), b), n)
    ensures Mix(Unshift(u), b) == 0 <==> u == 0 && !b
  {
    UnshiftEven(u);
    TopMix(u >> 1, b);
    LowZeroMix(u >> 1, b, n);
  }

  /** A string of at most 32 bits takes the register from a non-zero value to zero
      unless all its bits are zero. */
  lemma {:induction false} UndoFromZero(bits: seq<bool>)
    requires |bits| <= 32
    ensures LowZero(Undo(Unshift, Mix, 0, bits), 32 - |bits|)
    ensures Undo(Unshift, Mix, 0, bits) == 0 <==> (forall i :: 0 <= i < |bits| ==> !bits[i])
    decreases |bits|
  {
    if bits == [] {
      LowZeroOfZero(32);
    } else {
      var rest := bits[1..];
      UndoFromZero(rest);
      UndoOne(Undo(Unshift, Mix, 0, rest), bits[0], 32 - |bits|);
      assert forall i :: 0 < i < |bits| ==> bits[i] == rest[i - 1];
    }
  }

  // ----- a byte at a time -----

  lemma StepsAreNeutral()
    ensures Neutral(Mix, XorWord, 0)
  {
    forall x ensures XorWord(x, 0) == x && Mix(x, false) == x {
      XorIdentity(x);
    }
  }

  lemma XorIdentity(x: bv32)
    ensures x ^ 0 == x
  {}

  lemma MixAllUpFront(r: bv32, bits: seq<bool>)
    ensures BitCrc(r, bits) == BitCrc(r ^ Undo(Unshift, Mix, 0, bits), Zeros(|bits|))
  {
    ShiftIsLinear();
    MixIsLinear();
    StepsAreInvertible();
    StepsAreNeutral();
    MixUpFront(Shift, Unshift, Mix, XorWord, 0 as bv32, r, bits);
  }

  lemma ZerosShift(x: bv32)
    ensures BitCrc(x, Zeros(8)) == Shift8(x)
  {
    StepsAreNeutral();
    FoldZeros(Shift, Mix, x, 8);
    EightTimes(Shift, x);
  }

  lemma EightTimes<S>(shift: S -> S, x: S)
    ensures Times(shift, 8, x) == shift(shift(shift(shift(shift(shift(shift(shift(x))))))))
  {
    assert Times(shift, 8, x) == Times(shift, 4, shift(shift(shift(shift(x)))));
  }

  // ----- the byte step -----

  function Word(x: bv8): bv32 {
    x as bv32
  }

  lemma BitsWiden(x: bv8)
    ensures BitsOf(x) == [Word(x) & 0x80 != 0, Word(x) & 0x40 != 0, Word(x) & 0x20 != 0, Word(x) & 0x10 != 0,
                          Word(x) & 0x08 != 0, Word(x) & 0x04 != 0, Word(x) & 0x02 != 0, Word(x) & 0x01 != 0]
    ensures Word(x) & 0xFF == Word(x)
  {
  }

  /** Undoing a byte, least significant bit first, collects it at the top. */
  lemma UndoByte(x: bv8, y: bv32, b: seq<bool>)
    requires y == Word(x) && b == BitsOf(x)
    ensures Undo(Unshift, Mix, 0, b) == y << 24
  {
    UndoLowHalf(x, y, b);
    UndoAt3(x, y, b, y << 28, y << 27);
    UndoAt2(x, y, b, y << 27, y << 26);
    UndoAt1(x, y, b, y << 26, y << 25);
    UndoAt0(x, y, b, y << 25, y << 24);
  }

  lemma UndoAt3(x: bv8, y: bv32, b: seq<bool>, u: bv32, v: bv32)
    requires y == Word(x) && b == BitsOf(x) && u == y << 28 && v == y << 27
    requires Undo(Unshift, Mix, 0, b[4..]) == u
    ensures Undo(Unshift, Mix, 0, b[3..]) == v
  {
    BitsWiden(x);
    Collect5(y, u, v, b[3]);
    UndoNext(b[3..], b[4..], u);
  }

  lemma UndoAt2(x: bv8, y: bv32, b: seq<bool>, u: bv32, v: bv32)
    requires y == Word(x) && b == BitsOf(x) && u == y << 27 && v == y << 26
    requires Undo(Unshift, Mix, 0, b[3..]) == u
    ensures Undo(Unshift, Mix, 0, b[2..]) == v
  {
    BitsWiden(x);
    Collect6(y, u, v, b[2]);
    UndoNext(b[2..], b[3..], u);
  }

  lemma UndoAt1(x: bv8, y: bv32, b: seq<bool>, u: bv32, v: bv32)
    requires y == Word(x) && b == BitsOf(x) && u == y << 26 && v == y << 25
    requires Undo(Unshift, Mix, 0, b[2..]) == u
    ensures Undo(Unshift, Mix, 0, b[1..]) == v
  {
    BitsWiden(x);
    Collect7(y, u, v, b[1]);
    UndoNext(b[1..], b[2..], u);
  }

  lemma UndoAt0(x: bv8, y: bv32, b: seq<bool>, u: bv32, v: bv32)
    requires y == Word(x) && b == BitsOf(x) && u == y << 25 && v == y << 24
    requires Undo(Unshift, Mix, 0, b[1..]) == u
    ensures Undo(Unshift, Mix, 0, b) == v
  {
    BitsWiden(x);
    Collect8(y, u, v, b[0]);
    UndoNext(b, b[1..], u);
  }

  lemma UndoLowHalf(x: bv8, y: bv32, b: seq<bool>)
    requires y == Word(x) && b == BitsOf(x)
    ensures Undo(Unshift, Mix, 0, b[4..]) == y << 28
  {
    BitsWiden(x);
    Collect1(y);
    Collect2(y);
    Collect3(y);
    Collect4(y);
    UndoLast(b[7..], y << 31);
    UndoNext(b[6..], b[7..], y << 31);
    UndoNext(b[5..], b[6..], y << 30);
    UndoNext(b[4..], b[5..], y << 29);
  }

  lemma UndoLast(b: seq<bool>, u: bv32)
    requires |b| == 1
    ensures Undo(Unshift, Mix, 0, b) == BitValue(b[0])
  {
    assert b[1..] == [];
    XorSwap(0, 0, BitValue(b[0]), 0);
  }

  lemma UndoNext(b: seq<bool>, rest: seq<bool>, u: bv32)
    requires |b| > 0 && rest == b[1..]
    requires Undo(Unshift, Mix, 0, rest) == u && u & 1 == 0
    ensures Undo(Unshift, Mix, 0, b) == (u >> 1) ^ BitValue(b[0])
  {}

  lemma Collect1(y: bv32)
    ensures BitValue(y & 0x01 != 0) == y << 31 && (y << 31) & 1 == 0
  {}

  lemma Collect2(y: bv32)
    ensures ((y << 31) >> 1) ^ BitValue(y & 0x02 != 0) == y << 30 && (y << 30) & 1 == 0
  {}

  lemma Collect3(y: bv32)
    ensures ((y << 30) >> 1) ^ BitValue(y & 0x04 != 0) == y << 29 && (y << 29) & 1 == 0
  {}

  lemma Collect4(y: bv32)
    ensures ((y << 29) >> 1) ^ BitValue(y & 0x08 != 0) == y << 28 && (y << 28) & 1 == 0
  {}

  lemma Collect5(y: bv32, u: bv32, v: bv32, b: bool)
    requires u == y << 28 && v == y << 27 && b == (y & 0x10 != 0)
    ensures (u >> 1) ^ BitValue(b) == v && u & 1 == 0
  {}

  lemma Collect6(y: bv32, u: bv32, v: bv32, b: bool)
    requires u == y << 27 && v == y << 26 && b == (y & 0x20 != 0)
    ensures (u >> 1) ^ BitValue(b) == v && u & 1 == 0
  {}

  lemma Collect7(y: bv32, u: bv32, v: bv32, b: bool)
    requires u == y << 26 && v == y << 25 && b == (y & 0x40 != 0)
    ensures (u >> 1) ^ BitValue(b) == v && u & 1 == 0
  {}

  lemma Collect8(y: bv32, u: bv32, v: bv32, b: bool)
    requires u == y << 25 && v == y << 24 && b == (y & 0x80 != 0)
    ensures (u >> 1) ^ BitValue(b) == v && u & 1 == 0
  {}

  /** With eight zero bits at the top nothing is fed back. */
  lemma Shift8Low(x: bv32)
    requires x & 0xFF00_0000 == 0
    ensures Shift8(x) == x << 8
  {}

  /** The register with one byte mixed in: the byte looked up, and the rest. */
  lemma SplitRegister(r: bv32, y: bv32)
    requires y & 0xFF == y
    ensures r ^ (y << 24) == ((((r >> 24) ^ y) & 255) << 24) ^ (r & 0x00FF_FFFF)
  {
  }

  lemma LowPart(r: bv32)
    ensures (r & 0x00FF_FFFF) & 0xFF00_0000 == 0
    ensures (r & 0x00FF_FFFF) << 8 == r << 8
  {}

  /** Entry i of a table is the register after byte i. */
  ghost predicate IsTable(tab: bv32 -> bv32) {
    forall i :: i <= 255 ==> tab(i) == BitCrc(i << 24, Zeros(8))
  }

  lemma TableIsTable()
    ensures IsTable(Table)
  {
    forall i: bv32 | i <= 255 ensures Table(i) == BitCrc(i << 24, Zeros(8)) {
      TableIsShift8(i);
      ZerosShift(i << 24);
    }
  }

  lemma ZerosLinear(x: bv32, y: bv32)
    ensures BitCrc(x ^ y, Zeros(8)) == BitCrc(x, Zeros(8)) ^ BitCrc(y, Zeros(8))
  {
    ShiftIsLinear();
    MixIsLinear();
    assert XorBits(Zeros(8), Zeros(8)) == Zeros(8);
    FoldLinear(Shift, Mix, XorWord, x, y, Zeros(8), Zeros(8));
  }

  // The parts of one byte step, with every intermediate word named.

  lemma MixedUp(r: bv32, x: bv8, y: bv32, up: bv32)
    requires y == Word(x) && up == r ^ (y << 24)
    ensures BitCrc(r, BitsOf(x)) == BitCrc(up, Zeros(8))
  {
    MixAllUpFront(r, BitsOf(x));
    UndoByte(x, Word(x), BitsOf(x));
  }

  lemma LookedUp(tab: bv32 -> bv32, i: bv32, t: bv32, e: bv32)
    requires IsTable(tab) && i <= 255 && t == tab(i) && e == i << 24
    ensures t == BitCrc(e, Zeros(8))
  {}

  lemma RestShifts(r: bv32, low: bv32, s: bv32)
    requires low == r & 0x00FF_FFFF && s == r << 8
    ensures s == BitCrc(low, Zeros(8))
  {
    LowPart(r);
    Shift8Low(low);
    ZerosShift(low);
  }

  lemma SumOfTwo(t: bv32, e: bv32, s: bv32, low: bv32)
    requires t == BitCrc(e, Zeros(8)) && s == BitCrc(low, Zeros(8))
    ensures t ^ s == BitCrc(e ^ low, Zeros(8))
  {
    ZerosLinear(e, low);
  }

  lemma SplitUp(r: bv32, y: bv32, i: bv32, e: bv32, low: bv32, up: bv32)
    requires y & 0xFF == y && i == ((r >> 24) ^ y) & 255
    requires e == i << 24 && low == r & 0x00FF_FFFF && up == r ^ (y << 24)
    ensures up == e ^ low && i <= 255
  {
    SplitRegister(r, y);
  }

  lemma WordIsByte(x: bv8, y: bv32)
    requires y == Word(x)
    ensures y & 0xFF == y
  {}

  /** One table lookup is eight bit steps. */
  lemma ByteStep(tab: bv32 -> bv32, r: bv32, x: bv8, y: bv32, i: bv32, t: bv32, s: bv32, next: bv32)
    requires IsTable(tab)
    requires y == Word(x) && i == ((r >> 24) ^ y) & 255
    requires t == tab(i) && s == r << 8 && next == t ^ s
    ensures next == BitCrc(r, BitsOf(x))
  {
    var e, low, up := i << 24, r & 0x00FF_FFFF, r ^ (y << 24);
    WordIsByte(x, y);
    SplitUp(r, y, i, e, low, up);
    MixedUp(r, x, y, up);
    LookedUp(tab, i, t, e);
    RestShifts(r, low, s);
    SumOfTwo(t, e, s, low);
  }

  /** crc32_be: the table-driven loop computes the bit-serial division. */
  method CrcBe(m: seq<bv8>) returns (crc: bv32)
    ensures crc == Crc(m)
  {
    TableIsTable();
    crc := CrcLoop(Table, m);
  }

  method CrcLoop(tab: bv32 -> bv32, m: seq<bv8>) returns (crc: bv32)
    requires IsTable(tab)
    ensures crc == Crc(m)
  {
    crc := 0;
    var i := 0;
    while i < |m|
      invariant 0 <= i <= |m|
      invariant crc == BitCrc(0, MessageBits(m[..i]))
    {
      MessageStep(m, i);
      FoldAppend(Shift, Mix, 0, MessageBits(m[..i]), BitsOf(m[i]));
      crc := DoCrcBe(tab, crc, m[i]);
      i := i + 1;
    }
    assert m[..i] == m;
  }

  function Crc(m: seq<bv8>): bv32 {
    BitCrc(0, MessageBits(m))
  }

  method DoCrcBe(tab: bv32 -> bv32, r: bv32, x: bv8) returns (next: bv32)
    requires IsTable(tab)
    ensures next == BitCrc(r, BitsOf(x))
  {
    var y := Word(x);
    var i := ((r >> 24) ^ y) & 255;
    var t := tab(i);
    next := t ^ (r << 8);
    ByteStep(tab, r, x, y, i, t, r << 8, next);
  }

  lemma MessageStep(m: seq<bv8>, i: nat)
    requires i < |m|
    ensures MessageBits(m[..i + 1]) == MessageBits(m[..i]) + BitsOf(m[i])
  {
    assert m[..i + 1] == m[..i] + [m[i]];
    LastByte(m[..i], m[i]);
  }

  // ----- what the code detects -----

  /** Each byte step is a bijection on the register: it can be undone, and distinct
      registers stay distinct. */
  lemma ByteStepBijection(r: bv32, q: bv32, x: bv8)
    ensures BitCrc(r, BitsOf(x)) == BitCrc(q, BitsOf(x)) <==> r == q
    ensures exists p :: BitCrc(p, BitsOf(x)) == r
  {
    var b := BitsOf(x);
    StepsAreInvertible();
    FoldBijection(Shift, Unshift, Mix, r, b);
    FoldBijection(Shift, Unshift, Mix, q, b);
    assert BitCrc(Undo(Unshift, Mix, r, b), b) == r;
  }

  /** The code is linear over exclusive or on messages of equal length. */
  lemma CrcLinear(a: seq<bool>, b: seq<bool>)
    requires |a| == |b|
    ensures BitCrc(0, XorBits(a, b)) == BitCrc(0, a) ^ BitCrc(0, b)
  {
    ShiftIsLinear();
    MixIsLinear();
    XorSwap(0, 0, 0, 0);
    FoldLinear(Shift, Mix, XorWord, 0 as bv32, 0 as bv32, a, b);
  }

  /** Some bit at or after `from` and before `from + 32` differs, and none outside. */
  ghost predicate Burst(a: seq<bool>, b: seq<bool>, from: nat)
    requires |a| == |b|
  {
    && (exists i :: from <= i < |a| && a[i] != b[i])
    && (forall i :: 0 <= i < |a| && (i < from || i >= from + 32) ==> a[i] == b[i])
  }

  lemma ZerosKeep(r: bv32, n: nat)
    ensures BitCrc(0, Zeros(n)) == 0
    ensures BitCrc(r, Zeros(n)) == 0 <==> r == 0
  {
    StepsAreNeutral();
    FoldZeros(Shift, Mix, 0 as bv32, n);
    ShiftNonZero(0);
    ZeroStays(Shift, 0 as bv32, n);
    StepsAreInvertible();
    FoldBijection(Shift, Unshift, Mix, 0, Zeros(n));
    FoldBijection(Shift, Unshift, Mix, r, Zeros(n));
  }

  /** At most 32 bits, not all zero, take the zero register to a non-zero one. */
  lemma ShortNonZero(w: seq<bool>)
    requires |w| <= 32 && exists i :: 0 <= i < |w| && w[i]
    ensures BitCrc(0, w) != 0
  {
    UndoFromZero(w);
    StepsAreInvertible();
    FoldBijection(Shift, Unshift, Mix, 0, w);
  }

  lemma ThreeParts(a: seq<bool>, w: seq<bool>, z: seq<bool>)
    ensures BitCrc(0, a + w + z) == BitCrc(BitCrc(BitCrc(0, a), w), z)
  {
    FoldAppend(Shift, Mix, 0, a + w, z);
    FoldAppend(Shift, Mix, 0, a, w);
  }

  /** Any error burst of at most 32 bits changes the code, wherever it lies. */
  lemma BurstDetected(a: seq<bool>, b: seq<bool>, from: nat)
    requires |a| == |b| && Burst(a, b, from)
    ensures BitCrc(0, a) != BitCrc(0, b)
  {
    var c := XorBits(a, b);
    var to := if from + 32 <= |a| then from + 32 else |a|;
    CrcLinear(a, b);
    XorZero(BitCrc(0, a), BitCrc(0, b));
    assert c == Zeros(from) + c[from..to] + Zeros(|a| - to);
    ThreeParts(Zeros(from), c[from..to], Zeros(|a| - to));
    ZerosKeep(0, from);
    var i :| from <= i < |a| && a[i] != b[i];
    assert c[from..to][i - from];
    ShortNonZero(c[from..to]);
    ZerosKeep(BitCrc(0, c[from..to]), |a| - to);
  }

  // ----- the same for byte messages -----

  function XorBytes(a: seq<bv8>, b: seq<bv8>): (c: seq<bv8>)
    requires |a| == |b|
  {
    if a == [] then [] else XorBytes(a[..|a| - 1], b[..|b| - 1]) + [a[|a| - 1] ^ b[|b| - 1]]
  }

  lemma BitsXor(x: bv8, y: bv8, z: bv8)
    requires z == x ^ y
    ensures BitsOf(z) == XorBits(BitsOf(x), BitsOf(y))
  {
    forall k: nat | k < 8 ensures BitsOf(z)[k] == (BitsOf(x)[k] != BitsOf(y)[k]) {
      BitXorAt(x, y, z, k);
    }
    IsXorBits(BitsOf(x), BitsOf(y), BitsOf(z));
  }

  lemma IsXorBits(a: seq<bool>, b: seq<bool>, c: seq<bool>)
    requires |a| == |b| == |c| == 8
    requires forall k: nat :: k < 8 ==> c[k] == (a[k] != b[k])
    ensures c == XorBits(a, b)
  {}

  function MaskOf(k: nat): (m: bv8)
    requires k < 8
  {
    if k == 0 then 0x80 else if k == 1 then 0x40 else if k == 2 then 0x20 else if k == 3 then 0x10
    else if k == 4 then 0x08 else if k == 5 then 0x04 else if k == 6 then 0x02 else 0x01
  }

  lemma BitIs(x: bv8, k: nat, m: bv8, b: seq<bool>)
    requires k < 8 && m == MaskOf(k) && b == BitsOf(x)
    ensures b[k] <==> x & m != 0
  {}

  lemma BitXorAt(x: bv8, y: bv8, z: bv8, k: nat)
    requires z == x ^ y && k < 8
    ensures BitsOf(z)[k] == (BitsOf(x)[k] != BitsOf(y)[k])
  {
    var m := MaskOf(k);
    BitIs(x, k, m, BitsOf(x));
    BitIs(y, k, m, BitsOf(y));
    BitIs(z, k, m, BitsOf(z));
    BitXor(x, y, z, m);
  }

  lemma BitXor(x: bv8, y: bv8, z: bv8, k: bv8)
    requires z == x ^ y
    requires k == 0x80 || k == 0x40 || k == 0x20 || k == 0x10 || k == 0x08 || k == 0x04 || k == 0x02 || k == 0x01
    ensures z & k != 0 <==> (x & k != 0) != (y & k != 0)
  {}

  lemma XorBitsAppend(a: seq<bool>, b: seq<bool>, c: seq<bool>, d: seq<bool>)
    requires |a| == |c| && |b| == |d|
    ensures XorBits(a + b, c + d) == XorBits(a, c) + XorBits(b, d)
  {}

  lemma {:induction false} MessageXor(a: seq<bv8>, b: seq<bv8>)
    requires |a| == |b|
    ensures |XorBytes(a, b)| == |a|
    ensures MessageBits(XorBytes(a, b)) == XorBits(MessageBits(a), MessageBits(b))
  {
    if a != [] {
      var n := |a| - 1;
      var x, y := a[n], b[n];
      var z, before := x ^ y, XorBytes(a[..n], b[..n]);
      MessageXor(a[..n], b[..n]);
      BitsXor(x, y, z);
      XorBitsAppend(MessageBits(a[..n]), BitsOf(x), MessageBits(b[..n]), BitsOf(y));
      assert XorBytes(a, b) == before + [z];
      LastByte(before, z);
    }
  }

  lemma LastByte(m: seq<bv8>, x: bv8)
    ensures MessageBits(m + [x]) == MessageBits(m) + BitsOf(x)
  {
    assert (m + [x])[..|m|] == m;
  }

  lemma CrcXor(a: seq<bv8>, b: seq<bv8>)
    requires |a| == |b|
    ensures Crc(XorBytes(a, b)) == Crc(a) ^ Crc(b)
  {
    MessageXor(a, b);
    CrcLinear(MessageBits(a), MessageBits(b));
  }

  /** Two messages of one length that differ only inside 32 consecutive bits have
      different codes. */
  lemma CrcDetectsBurst(a: seq<bv8>, b: seq<bv8>, from: nat)
    requires |a| == |b| && Burst(MessageBits(a), MessageBits(b), from)
    ensures Crc(a) != Crc(b)
  {
    BurstDetected(MessageBits(a), MessageBits(b), from);
  }

  // ----- a changed word -----

  lemma {:induction false} MessageAppend(a: seq<bv8>, b: seq<bv8>)
    ensures MessageBits(a + b) == MessageBits(a) + MessageBits(b)
  {
    if b == [] {
      assert a + b == a;
    } else {
      var c, x := b[..|b| - 1], b[|b| - 1];
      MessageAppend(a, c);
      assert a + b == (a + c) + [x] && b == c + [x];
      LastByte(a + c, x);
      LastByte(c, x);
      Assoc(MessageBits(a), MessageBits(c), BitsOf(x));
    }
  }

  lemma BitsDiffer(x: bv8, y: bv8)
    requires x != y
    ensures BitsOf(x) != BitsOf(y)
  {
    var k := FirstBit(x, y);
    BitIs(x, k, MaskOf(k), BitsOf(x));
    BitIs(y, k, MaskOf(k), BitsOf(y));
  }

  lemma FirstBit(x: bv8, y: bv8) returns (k: nat)
    requires x != y
    ensures k < 8 && (x & MaskOf(k) != 0) != (y & MaskOf(k) != 0)
  {
    k := if x & 0x80 != y & 0x80 then 0 else if x & 0x40 != y & 0x40 then 1
         else if x & 0x20 != y & 0x20 then 2 else if x & 0x10 != y & 0x10 then 3
         else if x & 0x08 != y & 0x08 then 4 else if x & 0x04 != y & 0x04 then 5
         else if x & 0x02 != y & 0x02 then 6 else 7;
  }

  lemma {:induction false} MessagesDiffer(a: seq<bv8>, b: seq<bv8>)
    requires |a| == |b| && a != b
    ensures MessageBits(a) != MessageBits(b)
  {
    var n := |a| - 1;
    var x, y := MessageBits(a), MessageBits(b);
    assert a == a[..n] + [a[n]] && b == b[..n] + [b[n]];
    assert x[..8 * n] == MessageBits(a[..n]) && x[8 * n..] == BitsOf(a[n]);
    assert y[..8 * n] == MessageBits(b[..n]) && y[8 * n..] == BitsOf(b[n]);
    if a[n] != b[n] {
      BitsDiffer(a[n], b[n]);
    } else {
      MessagesDiffer(a[..n], b[..n]);
    }
  }

  lemma BurstBetween(p: seq<bool>, x: seq<bool>, y: seq<bool>, q: seq<bool>)
    requires |x| == |y| <= 32 && x != y
    ensures Burst(p + x + q, p + y + q, |p|)
  {
    var i :| 0 <= i < |x| && x[i] != y[i];
    assert (p + x + q)[|p| + i] == x[i] && (p + y + q)[|p| + i] == y[i];
  }

  /** Messages that differ in at most four consecutive bytes have different codes. */
  lemma WordDetected(p: seq<bv8>, x: seq<bv8>, y: seq<bv8>, q: seq<bv8>)
    requires |x| == |y| <= 4 && x != y
    ensures Crc(p + x + q) != Crc(p + y + q)
  {
    MessageAppend(p, x);
    MessageAppend(p, y);
    MessageAppend(p + x, q);
    MessageAppend(p + y, q);
    MessagesDiffer(x, y);
    BurstBetween(MessageBits(p), MessageBits(x), MessageBits(y), MessageBits(q));
    CrcDetectsBurst(p + x + q, p + y + q, 8 * |p|);
  }
}
