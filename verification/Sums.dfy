/** Sums over sequences and over finite key sets, how the two relate, and the size of a part of a set. */
module Sums {

  /** The sum of w(x) over the elements of xs. */
  function Sum<T>(xs: seq<T>, w: T -> int): int {
    if xs == [] then 0 else Sum(xs[..|xs| - 1], w) + w(xs[|xs| - 1])
  }

  /** The sum of f(k) over a finite set of keys. */
  ghost function SumOver<K>(keys: set<K>, f: K -> int): int {
    if keys == {} then 0
    else
      var k :| k in keys;
      f(k) + SumOver(keys - {k}, f)
  }

  /** amt(x) for the elements whose key is k, and 0 for all others. */
  function Only<T, K(==)>(key: T -> K, amt: T -> int, k: K): T -> int {
    (x: T) => if key(x) == k then amt(x) else 0
  }

  /** The sum of the entries of xs under key k, as a function of k. */
  function PerKey<T, K(==)>(xs: seq<T>, key: T -> K, amt: T -> int): K -> int {
    (k: K) => Sum(xs, Only(key, amt, k))
  }

  lemma SumSnoc<T>(xs: seq<T>, x: T, w: T -> int)
    ensures Sum(xs + [x], w) == Sum(xs, w) + w(x)
  {
    assert (xs + [x])[..|xs|] == xs;
  }

  lemma {:induction false} SumConcat<T>(xs: seq<T>, ys: seq<T>, w: T -> int)
    ensures Sum(xs + ys, w) == Sum(xs, w) + Sum(ys, w)
  {
    if ys == [] {
      assert xs + ys == xs;
    } else {
      var n := |ys| - 1;
      SumConcat(xs, ys[..n], w);
      assert (xs + ys)[..|xs + ys| - 1] == xs + ys[..n];
    }
  }

  lemma {:induction false} SumZero<T>(xs: seq<T>, w: T -> int)
    requires forall x :: x in xs ==> w(x) == 0
    ensures Sum(xs, w) == 0
  {
    if xs != [] {
      SumZero(xs[..|xs| - 1], w);
    }
  }

  /** A sum does not depend on the order of its terms. */
  lemma {:induction false} SumPermutation<T>(xs: seq<T>, ys: seq<T>, w: T -> int)
    requires multiset(xs) == multiset(ys)
    ensures Sum(xs, w) == Sum(ys, w)
    decreases |xs|
  {
    assert |xs| == |multiset(xs)| == |ys|;
    if xs != [] {
      var n := |xs| - 1;
      var x := xs[n];
      assert x in multiset(ys);
      var i :| 0 <= i < |ys| && ys[i] == x;
      var rest := ys[..i] + ys[i + 1..];
      assert ys == ys[..i] + [x] + ys[i + 1..];
      assert xs == xs[..n] + [x];
      assert multiset(xs[..n]) == multiset(xs) - multiset{x} == multiset(rest);
      SumPermutation(xs[..n], rest, w);
      SumConcat(ys[..i] + [x], ys[i + 1..], w);
      SumSnoc(ys[..i], x, w);
      SumConcat(ys[..i], ys[i + 1..], w);
    }
  }

  /** Any key may be taken out first. */
  lemma {:induction false} SumOverRemove<K>(keys: set<K>, f: K -> int, k: K)
    requires k in keys
    ensures SumOver(keys, f) == f(k) + SumOver(keys - {k}, f)
  {
    var j :| j in keys && SumOver(keys, f) == f(j) + SumOver(keys - {j}, f);
    if j != k {
      SumOverRemove(keys - {j}, f, k);
      SumOverRemove(keys - {k}, f, j);
      assert keys - {j} - {k} == keys - {k} - {j};
    }
  }

  lemma {:induction false} SumOverAgree<K>(keys: set<K>, f: K -> int, g: K -> int)
    requires forall k :: k in keys ==> f(k) == g(k)
    ensures SumOver(keys, f) == SumOver(keys, g)
  {
    if keys != {} {
      var k :| k in keys;
      SumOverRemove(keys, f, k);
      SumOverRemove(keys, g, k);
      SumOverAgree(keys - {k}, f, g);
    }
  }

  lemma {:induction false} SumOverAdd<K>(keys: set<K>, f: K -> int, g: K -> int, h: K -> int)
    requires forall k :: k in keys ==> h(k) == f(k) + g(k)
    ensures SumOver(keys, h) == SumOver(keys, f) + SumOver(keys, g)
  {
    if keys != {} {
      var k :| k in keys;
      SumOverRemove(keys, f, k);
      SumOverRemove(keys, g, k);
      SumOverRemove(keys, h, k);
      SumOverAdd(keys - {k}, f, g, h);
    }
  }

  /** A sum of non-negative terms is zero exactly when every term is. */
  lemma {:induction false} SumOverZeroIff<K>(keys: set<K>, f: K -> int)
    requires forall k :: k in keys ==> 0 <= f(k)
    ensures 0 <= SumOver(keys, f)
    ensures SumOver(keys, f) == 0 <==> forall k :: k in keys ==> f(k) == 0
  {
    if keys != {} {
      var k :| k in keys;
      SumOverRemove(keys, f, k);
      SumOverZeroIff(keys - {k}, f);
    }
  }

  lemma {:induction false} SumOverOnly<K>(keys: set<K>, k: K, n: int, f: K -> int)
    requires k in keys
    requires forall j :: j in keys ==> f(j) == if j == k then n else 0
    ensures SumOver(keys, f) == n
  {
    SumOverRemove(keys, f, k);
    SumOverZeroIff(keys - {k}, f);
  }

  /** Grouping the entries of xs by key and adding up the groups loses nothing. */
  lemma {:induction false} GroupingKeepsTotal<T, K>(xs: seq<T>, key: T -> K, amt: T -> int, keys: set<K>)
    requires forall x :: x in xs ==> key(x) in keys
    ensures SumOver(keys, PerKey(xs, key, amt)) == Sum(xs, amt)
  {
    if xs == [] {
      SumOverZeroIff(keys, PerKey(xs, key, amt));
    } else {
      var n := |xs| - 1;
      var last := (k: K) => if k == key(xs[n]) then amt(xs[n]) else 0;
      GroupingKeepsTotal(xs[..n], key, amt, keys);
      SumOverOnly(keys, key(xs[n]), amt(xs[n]), last);
      SumOverAdd(keys, PerKey(xs[..n], key, amt), last, PerKey(xs, key, amt));
    }
  }

  /** A part of a finite set is no larger. */
  lemma {:induction false} SubsetSize<T>(a: set<T>, b: set<T>)
    requires a <= b
    ensures |a| <= |b|
  {
    if a != {} {
      var x :| x in a;
      SubsetSize(a - {x}, b - {x});
    }
  }
}
