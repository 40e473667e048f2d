/** Folding a bit string into a register that mixes each bit in and then shifts,
    for any register type: what linearity and invertibility of the two steps
    give for whole strings. */
module BitFold {
  function Fold<S>(shift: S -> S, mix: (S, bool) -> S, r: S, bits: seq<bool>): S
    decreases |bits|
  {
    if bits == [] then r else Fold(shift, mix, shift(mix(r, bits[0])), bits[1..])
  }

  lemma {:induction false} FoldAppend<S>(shift: S -> S, mix: (S, bool) -> S, r: S, a: seq<bool>, b: seq<bool>)
    ensures Fold(shift, mix, r, a + b) == Fold(shift, mix, Fold(shift, mix, r, a), b)
    decreases |a|
  {
    if a == [] {
      assert a + b == b;
    } else {
      assert (a + b)[0] == a[0] && (a + b)[1..] == a[1..] + b;
      FoldAppend(shift, mix, shift(mix(r, a[0])), a[1..], b);
    }
  }

  function XorBits(a: seq<bool>, b: seq<bool>): (c: seq<bool>)
    requires |a| == |b|
    ensures |c| == |a| && forall i :: 0 <= i < |c| ==> c[i] == (a[i] != b[i])
  {
    seq(|a|, i requires 0 <= i < |a| => a[i] != b[i])
  }

  ghost predicate LinearShift<S(!new)>(shift: S -> S, xor: (S, S) -> S) {
    forall x, y :: shift(xor(x, y)) == xor(shift(x), shift(y))
  }

  ghost predicate LinearMix<S(!new)>(mix: (S, bool) -> S, xor: (S, S) -> S) {
    forall x, y, a, b :: mix(xor(x, y), a != b) == xor(mix(x, a), mix(y, b))
  }

  /** If the steps are linear, so is folding strings of equal length. */
  lemma {:induction false} FoldLinear<S(!new)>(shift: S -> S, mix: (S, bool) -> S, xor: (S, S) -> S,
                                               r: S, q: S, a: seq<bool>, b: seq<bool>)
    requires LinearShift(shift, xor) && LinearMix(mix, xor) && |a| == |b|
    ensures Fold(shift, mix, xor(r, q), XorBits(a, b)) == xor(Fold(shift, mix, r, a), Fold(shift, mix, q, b))
    decreases |a|
  {
    if a != [] {
      var c := XorBits(a, b);
      assert c[1..] == XorBits(a[1..], b[1..]);
      assert mix(xor(r, q), a[0] != b[0]) == xor(mix(r, a[0]), mix(q, b[0]));
      FoldLinear(shift, mix, xor, shift(mix(r, a[0])), shift(mix(q, b[0])), a[1..], b[1..]);
    }
  }

  /** The register before the string, from the register after it. */
  function Undo<S>(back: S -> S, mix: (S, bool) -> S, r: S, bits: seq<bool>): S
    decreases |bits|
  {
    if bits == [] then r else mix(back(Undo(back, mix, r, bits[1..])), bits[0])
  }

  ghost predicate Invertible<S(!new)>(shift: S -> S, back: S -> S, mix: (S, bool) -> S) {
    && (forall x :: back(shift(x)) == x)
    && (forall x :: shift(back(x)) == x)
    && (forall x, b :: mix(mix(x, b), b) == x)
  }

  /** If the steps can be undone, a string is a bijection on the register. */
  lemma {:induction false} FoldBijection<S(!new)>(shift: S -> S, back: S -> S, mix: (S, bool) -> S, r: S,
                                                  bits: seq<bool>)
    requires Invertible(shift, back, mix)
    ensures Undo(back, mix, Fold(shift, mix, r, bits), bits) == r
    ensures Fold(shift, mix, Undo(back, mix, r, bits), bits) == r
    decreases |bits|
  {
    if bits != [] {
      var b, rest := bits[0], bits[1..];
      var m := mix(r, b);
      FoldBijection(shift, back, mix, shift(m), rest);
      assert back(shift(m)) == m && mix(m, b) == r;
      var u := Undo(back, mix, r, rest);
      FoldBijection(shift, back, mix, r, rest);
      assert mix(mix(back(u), b), b) == back(u) && shift(back(u)) == u;
    }
  }

  function Zeros(n: nat): (z: seq<bool>)
    ensures |z| == n && forall i :: 0 <= i < n ==> !z[i]
  {
    seq(n, _ => false)
  }

  ghost predicate Neutral<S(!new)>(mix: (S, bool) -> S, xor: (S, S) -> S, zero: S) {
    && (forall x :: xor(x, zero) == x)
    && (forall x :: mix(x, false) == x)
  }

  /** Mixing a string in as it goes is mixing all of it in up front. */
  lemma MixUpFront<S(!new)>(shift: S -> S, back: S -> S, mix: (S, bool) -> S, xor: (S, S) -> S, zero: S,
                            r: S, bits: seq<bool>)
    requires LinearShift(shift, xor) && LinearMix(mix, xor)
    requires Invertible(shift, back, mix) && Neutral(mix, xor, zero)
    ensures Fold(shift, mix, r, bits) == Fold(shift, mix, xor(r, Undo(back, mix, zero, bits)), Zeros(|bits|))
  {
    var u := Undo(back, mix, zero, bits);
    assert XorBits(bits, bits) == Zeros(|bits|);
    FoldBijection(shift, back, mix, zero, bits);
    FoldLinear(shift, mix, xor, r, u, bits, bits);
    assert xor(Fold(shift, mix, r, bits), zero) == Fold(shift, mix, r, bits);
  }

  function Times<S>(shift: S -> S, n: nat, r: S): S {
    if n == 0 then r else Times(shift, n - 1, shift(r))
  }

  /** A string of zeros only shifts. */
  lemma {:induction false} FoldZeros<S(!new)>(shift: S -> S, mix: (S, bool) -> S, r: S, n: nat)
    requires forall x :: mix(x, false) == x
    ensures Fold(shift, mix, r, Zeros(n)) == Times(shift, n, r)
  {
    if n > 0 {
      assert Zeros(n)[1..] == Zeros(n - 1);
      assert mix(r, false) == r;
      FoldZeros(shift, mix, shift(r), n - 1);
    }
  }

  /** Zeros keep the neutral register. */
  lemma {:induction false} ZeroStays<S(!new)>(shift: S -> S, zero: S, n: nat)
    requires shift(zero) == zero
    ensures Times(shift, n, zero) == zero
  {
    if n > 0 {
      ZeroStays(shift, zero, n - 1);
    }
  }
}
