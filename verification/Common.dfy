/** What several components share: the error numbers, options, and small facts. */
module Common {
  const EIO: int := 5
  const ENOMEM: int := 12
  const EBUSY: int := 16
  const EINVAL: int := 22

  datatype Option<T> = None | Some(value: T)

  function Min(x: nat, y: nat): nat {
    if x < y then x else y
  }

  function Max(x: int, y: int): int {
    if x < y then y else x
  }

  lemma MulAtLeast(d: int, m: nat)
    ensures d >= 1 ==> d * m >= m
  {}

  lemma Assoc<T>(s: seq<T>, x: seq<T>, y: seq<T>)
    ensures s + x + y == s + (x + y)
  {}

  // ----- what holds in every state of a run -----

  /** Every state recorded since `mark` is `good`. */
  ghost predicate Always<S(!new)>(good: S -> bool, history: seq<S>, mark: nat) {
    |history| <= mark ||
    (var n := |history| - 1; Always(good, history[..n], mark) && good(history[n]))
  }

  lemma {:induction false} AlwaysMeaning<S(!new)>(good: S -> bool, history: seq<S>, mark: nat, i: nat)
    requires Always(good, history, mark) && mark <= i < |history|
    ensures good(history[i])
  {
    if i < |history| - 1 {
      AlwaysMeaning(good, history[..|history| - 1], mark, i);
    }
  }

  lemma AlwaysAdds<S(!new)>(good: S -> bool, history: seq<S>, mark: nat, s: S, history': seq<S>)
    requires Always(good, history, mark) && good(s)
    requires history' == history || history' == history + [s]
    ensures Always(good, history', mark)
  {
    assert (history + [s])[..|history|] == history;
  }
}
