/**
 Left folds over sequences and per-key accumulation in maps.

 A fold whose step function exchanges its inputs depends only on the multiset of
 inputs, and summing a map of per-key accumulators gives back the grand total.
 */
module Folding {

  function Fold<A, T>(step: (A, T) -> A, a: A, s: seq<T>): A {
    if s == [] then a else step(Fold(step, a, s[..|s| - 1]), s[|s| - 1])
  }

  /** Consuming `x` then `y` has the same effect as consuming `y` then `x`. */
  ghost predicate Exchanges<A(!new), T(!new)>(step: (A, T) -> A) {
    forall a, x, y :: step(step(a, x), y) == step(step(a, y), x)
  }

  lemma {:induction false} FoldExtend<A, T>(step: (A, T) -> A, a: A, s: seq<T>, x: T)
    ensures Fold(step, a, s + [x]) == step(Fold(step, a, s), x)
  {
    assert (s + [x])[..|s|] == s;
  }

  lemma {:induction false} FoldConcat<A, T>(step: (A, T) -> A, a: A, s: seq<T>, t: seq<T>)
    ensures Fold(step, a, s + t) == Fold(step, Fold(step, a, s), t)
  {
    if t == [] {
      assert s + t == s;
    } else {
      FoldConcat(step, a, s, t[..|t| - 1]);
      assert (s + t)[..|s + t| - 1] == s + t[..|t| - 1];
    }
  }

  function Without<T>(s: seq<T>, k: nat): seq<T>
    requires k < |s|
  {
    s[..k] + s[k + 1..]
  }

  lemma {:induction false} FoldPullsOut<A(!new), T(!new)>(step: (A, T) -> A, a: A, s: seq<T>, k: nat)
    requires Exchanges(step)
    requires k < |s|
    ensures Fold(step, a, s) == step(Fold(step, a, Without(s, k)), s[k])
  {
    hide Without;
    var last := |s| - 1;
    WithoutLast(s, k);
    if k < last {
      FoldPullsOut(step, a, s[..last], k);
      FoldExtend(step, a, Without(s[..last], k), s[last]);
    }
  }

  lemma WithoutLast<T>(s: seq<T>, k: nat)
    requires k < |s|
    ensures Without(s, k) == if k == |s| - 1 then s[..k] else Without(s[..|s| - 1], k) + [s[|s| - 1]]
  {
  }

  lemma {:induction false} WithoutMultiset<T>(s: seq<T>, k: nat)
    requires k < |s|
    ensures multiset(Without(s, k)) == multiset(s) - multiset{s[k]}
  {
    assert s == s[..k] + [s[k]] + s[k + 1..];
  }

  lemma {:induction false} FoldPermutation<A(!new), T(!new)>(step: (A, T) -> A, a: A, s: seq<T>, t: seq<T>)
    requires Exchanges(step)
    requires multiset(s) == multiset(t)
    ensures Fold(step, a, s) == Fold(step, a, t)
    decreases |s|
  {
    assert |s| == |multiset(s)| == |multiset(t)| == |t|;
    if s != [] {
      var last := |s| - 1;
      assert s[last] in multiset(t);
      var k :| 0 <= k < |t| && t[k] == s[last];
      WithoutMultiset(t, k);
      assert s == s[..last] + [s[last]];
      FoldPermutation(step, a, s[..last], Without(t, k));
      FoldPullsOut(step, a, t, k);
    }
  }

  /**
   `op` accumulates from `zero`: commutative and associative, and `zero` absorbs
   itself.  `zero` need not be an identity: token counters are normalised by the
   first addition.
   */
  ghost predicate Accumulates<A(!new)>(op: (A, A) -> A, zero: A) {
    && (forall a, b :: op(a, b) == op(b, a))
    && (forall a, b, c :: op(op(a, b), c) == op(a, op(b, c)))
    && op(zero, zero) == zero
  }

  lemma AccumulatesExchanges<A(!new)>(op: (A, A) -> A, zero: A)
    requires Accumulates(op, zero)
    ensures Exchanges(op)
  {
    forall a, x, y ensures op(op(a, x), y) == op(op(a, y), x) {
      assert op(op(a, x), y) == op(a, op(x, y)) == op(a, op(y, x)) == op(op(a, y), x);
    }
  }

  /** Adds up all values of a map, in an arbitrary but fixed order. */
  ghost function MapSum<K, A>(op: (A, A) -> A, zero: A, m: map<K, A>): A
    decreases |m|
  {
    if m == map[] then
      zero
    else
      var k :| k in m;
      assert |(m - {k}).Keys| < |m.Keys| by { assert (m - {k}).Keys == m.Keys - {k}; }
      op(MapSum(op, zero, m - {k}), m[k])
  }

  lemma {:induction false} MapSumPullsOut<K(!new), A(!new)>(op: (A, A) -> A, zero: A, m: map<K, A>, k: K)
    requires Exchanges(op)
    requires k in m
    ensures MapSum(op, zero, m) == op(MapSum(op, zero, m - {k}), m[k])
    decreases |m|
  {
    var j :| j in m && MapSum(op, zero, m) == op(MapSum(op, zero, m - {j}), m[j]);
    if j != k {
      assert (m - {j}).Keys == m.Keys - {j} && (m - {k}).Keys == m.Keys - {k};
      assert |m.Keys - {j}| < |m.Keys| && |m.Keys - {k}| < |m.Keys|;
      MapSumPullsOut(op, zero, m - {j}, k);
      MapSumPullsOut(op, zero, m - {k}, j);
      assert m - {j} - {k} == m - {k} - {j};
    }
  }

  lemma {:induction false} MapSumAbsorbsZero<K(!new), A(!new)>(op: (A, A) -> A, zero: A, m: map<K, A>)
    requires Accumulates(op, zero)
    ensures op(MapSum(op, zero, m), zero) == MapSum(op, zero, m)
    decreases |m|
  {
    if m != map[] {
      AccumulatesExchanges(op, zero);
      var k :| k in m;
      assert (m - {k}).Keys == m.Keys - {k} && |m.Keys - {k}| < |m.Keys|;
      MapSumPullsOut(op, zero, m, k);
      MapSumAbsorbsZero(op, zero, m - {k});
    }
  }

  /** A `BTreeMap` entry with `or_default`, then accumulated into. */
  function Bump<K, A>(op: (A, A) -> A, zero: A, m: map<K, A>, k: K, v: A): map<K, A> {
    m[k := op(if k in m then m[k] else zero, v)]
  }

  /** Accumulating under any key moves the sum over all keys by exactly that amount. */
  lemma {:induction false} MapSumBump<K(!new), A(!new)>(op: (A, A) -> A, zero: A, m: map<K, A>, k: K, v: A)
    requires Accumulates(op, zero)
    ensures MapSum(op, zero, Bump(op, zero, m, k, v)) == op(MapSum(op, zero, m), v)
  {
    AccumulatesExchanges(op, zero);
    var bumped := Bump(op, zero, m, k, v);
    assert bumped - {k} == m - {k};
    MapSumPullsOut(op, zero, bumped, k);
    var rest := MapSum(op, zero, m - {k});
    if k in m {
      MapSumPullsOut(op, zero, m, k);
    } else {
      assert m - {k} == m;
      MapSumAbsorbsZero(op, zero, m);
      assert op(rest, op(zero, v)) == op(op(rest, zero), v);
    }
  }

  /** An entry that only has to exist (`entry(..).or_default()` without an addition). */
  function Touch<K, A>(zero: A, m: map<K, A>, k: K): map<K, A> {
    if k in m then m else m[k := zero]
  }

  lemma {:induction false} MapSumTouch<K(!new), A(!new)>(op: (A, A) -> A, zero: A, m: map<K, A>, k: K)
    requires Accumulates(op, zero)
    ensures MapSum(op, zero, Touch(zero, m, k)) == MapSum(op, zero, m)
  {
    AccumulatesExchanges(op, zero);
    if k !in m {
      assert m[k := zero] - {k} == m;
      MapSumPullsOut(op, zero, m[k := zero], k);
      MapSumAbsorbsZero(op, zero, m);
    }
  }
}
