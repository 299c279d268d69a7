/** Small shared vocabulary: an optional value, and the order in which a hash map is visited. */
module Prelude {

  datatype Option<+T> = None | Some(value: T)

  /** `order` visits every key of `m` exactly once. Rust's `HashMap` promises no more than that,
      so every result about a loop over such a map holds for all of these orders. */
  ghost predicate IsIteration<K(!new), V>(order: seq<K>, m: map<K, V>) {
    && (forall k :: k in order <==> k in m)
    && Distinct(order)
  }

  ghost predicate Distinct<T>(s: seq<T>) {
    forall i, j :: 0 <= i < j < |s| ==> s[i] != s[j]
  }

  /** How many of the first `k` flags are set. */
  function Rank(keep: seq<bool>, k: nat): nat
    requires k <= |keep|
  {
    if k == 0 then 0 else Rank(keep, k - 1) + if keep[k - 1] then 1 else 0
  }

  /** `picked` are the elements of `xs` whose flag is set, each once and in order: the one at `k` comes after as many
      others as have their flag set before `k`. */
  ghost predicate Selects<T>(xs: seq<T>, keep: seq<bool>, picked: seq<T>)
    requires |xs| <= |keep|
  {
    && |picked| == Rank(keep, |xs|)
    && forall k: nat :: k < |xs| && keep[k] ==> Rank(keep, k) < |picked| && picked[Rank(keep, k)] == xs[k]
  }

  lemma SelectsNext<T>(xs: seq<T>, keep: seq<bool>, picked: seq<T>, x: T)
    requires |xs| < |keep| && Selects(xs, keep, picked)
    ensures Selects(xs + [x], keep, if keep[|xs|] then picked + [x] else picked)
  {
  }

  lemma DisplaysGrow<T>(a: T, b: T, c: T, d: T)
    ensures [] + [a] == [a] && [a] + [b] == [a, b] && [a, b] + [c] == [a, b, c]
    ensures [a, b, c] + [d] == [a, b, c, d]
  {
  }

  /** Division by a positive number that truncates toward zero, as Rust's `/` does. */
  function TruncDiv(a: int, b: int): int
    requires b > 0
  {
    if a >= 0 then a / b else -((-a) / b)
  }
}
