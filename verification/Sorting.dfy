/** Sorting as the library calls promise it: the integers of a set in rising order, and a list by a caller's order. */
module Sorting {

  ghost predicate Least(s: set<nat>, m: nat) {
    m in s && forall x | x in s :: m <= x
  }

  ghost predicate Rising(r: seq<nat>) {
    forall i, j | 0 <= i < j < |r| :: r[i] < r[j]
  }

  /** The elements of a set, each once, in rising order. */
  ghost predicate Lists(r: seq<nat>, s: set<nat>) {
    Rising(r) && forall x :: x in r <==> x in s
  }

  method LeastOf(s: set<nat>) returns (m: nat)
    requires s != {}
    ensures Least(s, m)
  {
    m :| m in s;
    var rest := s - {m};
    while rest != {}
      invariant m in s && rest <= s
      invariant forall x | x in s && x !in rest :: m <= x
      decreases |rest|
    {
      var x :| x in rest;
      rest := rest - {x};
      if x < m { m := x; }
    }
  }

  method SortedInts(s: set<nat>) returns (r: seq<nat>)
    ensures Lists(r, s)
  {
    r := [];
    var rest := s;
    while rest != {}
      invariant rest <= s && Rising(r)
      invariant forall x :: x in r <==> x in s && x !in rest
      invariant forall x, y | x in r && y in rest :: x < y
      decreases |rest|
    {
      var m := LeastOf(rest);
      forall i | 0 <= i < |r| ensures r[i] < m { assert r[i] in r; }
      r := r + [m];
      rest := rest - {m};
    }
  }

  // ---------------------------------------------------------------------------------------------
  // Sorting by a caller's order.

  ghost predicate Transitive<T(!new)>(less: (T, T) -> bool) {
    forall a, b, c :: less(a, b) && less(b, c) ==> less(a, c)
  }

  ghost predicate Ascending<T>(less: (T, T) -> bool, xs: seq<T>) {
    forall i, j | 0 <= i < j < |xs| :: less(xs[i], xs[j])
  }

  /** Any two elements are ordered one way or the other. */
  ghost predicate Comparable<T>(less: (T, T) -> bool, xs: seq<T>) {
    forall i, j | 0 <= i < j < |xs| :: less(xs[i], xs[j]) || less(xs[j], xs[i])
  }

  ghost predicate Splits<T>(less: (T, T) -> bool, xs: seq<T>, x: T, n: nat) {
    && n <= |xs|
    && (forall i | 0 <= i < n :: less(xs[i], x))
    && (forall i | n <= i < |xs| :: less(x, xs[i]))
  }

  method Position<T(!new)>(less: (T, T) -> bool, xs: seq<T>, x: T) returns (n: nat)
    requires Transitive(less) && Ascending(less, xs) && forall i | 0 <= i < |xs| :: less(xs[i], x) || less(x, xs[i])
    ensures n <= |xs| && Splits(less, xs, x, n)
  {
    n := |xs|;
    while n > 0 && less(x, xs[n - 1])
      invariant n <= |xs| && forall i | n <= i < |xs| :: less(x, xs[i])
    {
      n := n - 1;
    }
    forall i | 0 <= i < n ensures less(xs[i], x) {
      if i < n - 1 { assert less(xs[i], xs[n - 1]) && less(xs[n - 1], x); }
    }
  }

  lemma Inserted<T>(less: (T, T) -> bool, xs: seq<T>, x: T, n: nat)
    requires Ascending(less, xs) && Splits(less, xs, x, n)
    ensures Ascending(less, xs[..n] + [x] + xs[n..])
    ensures multiset(xs[..n] + [x] + xs[n..]) == multiset(xs) + multiset{x}
  {
    assert xs == xs[..n] + xs[n..];
  }

  lemma StillComparable<T>(less: (T, T) -> bool, xs: seq<T>, k: nat, out: seq<T>, i: nat)
    requires Comparable(less, xs) && k < |xs| && multiset(out) == multiset(xs[..k]) && i < |out|
    ensures less(out[i], xs[k]) || less(xs[k], out[i])
  {
    assert out[i] in multiset(out);
    assert out[i] in xs[..k];
  }

  /** The elements, each as often as before, in strictly ascending order. */
  method SortBy<T(!new, ==)>(less: (T, T) -> bool, xs: seq<T>) returns (out: seq<T>)
    requires Transitive(less) && Comparable(less, xs)
    ensures Ascending(less, out) && multiset(out) == multiset(xs) && |out| == |xs|
  {
    hide Splits, Comparable;
    out := [];
    for k := 0 to |xs|
      invariant Ascending(less, out) && multiset(out) == multiset(xs[..k]) && |out| == k
    {
      forall i | 0 <= i < |out| ensures less(out[i], xs[k]) || less(xs[k], out[i]) {
        StillComparable(less, xs, k, out, i);
      }
      var n := Position(less, out, xs[k]);
      Inserted(less, out, xs[k], n);
      out := out[..n] + [xs[k]] + out[n..];
      assert xs[..k + 1] == xs[..k] + [xs[k]];
    }
    assert xs[..|xs|] == xs;
  }
}
