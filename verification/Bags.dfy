/** Sequences as bags: what permutation arguments by induction share. */
module Bags {
  function Without<T>(xs: seq<T>, i: nat): seq<T>
    requires i < |xs|
  {
    xs[..i] + xs[i + 1..]
  }

  lemma Removed<T>(xs: seq<T>, i: nat)
    requires i < |xs|
    ensures multiset(Without(xs, i)) == multiset(xs) - multiset{xs[i]}
  {
    assert xs == xs[..i] + [xs[i]] + xs[i + 1..];
  }

  /** The last element of one list, found and taken out of a permutation of it. */
  lemma LastFound<T>(xs: seq<T>, ys: seq<T>) returns (i: nat)
    requires multiset(xs) == multiset(ys) && xs != []
    ensures i < |ys| && ys[i] == xs[|xs| - 1]
    ensures multiset(xs[..|xs| - 1]) == multiset(Without(ys, i))
  {
    var n := |xs| - 1;
    assert xs[n] in multiset(ys);
    i :| 0 <= i < |ys| && ys[i] == xs[n];
    Removed(xs, n);
    Removed(ys, i);
    assert Without(xs, n) == xs[..n];
  }

  lemma SameLength<T>(xs: seq<T>, ys: seq<T>)
    requires multiset(xs) == multiset(ys)
    ensures |xs| == |ys|
  {
    assert |multiset(xs)| == |xs| && |multiset(ys)| == |ys|;
  }

  /** The bags that f gives for the elements of a list, together. */
  function Gather<T, E>(xs: seq<T>, f: T -> multiset<E>): multiset<E>
  {
    if xs == [] then multiset{} else Gather(xs[..|xs| - 1], f) + f(xs[|xs| - 1])
  }

  lemma Swap<E>(rest: multiset<E>, a: multiset<E>, b: multiset<E>)
    ensures rest + a + b == rest + b + a
  {
  }

  lemma {:induction false} GatherWithout<T, E>(xs: seq<T>, i: nat, f: T -> multiset<E>)
    requires i < |xs|
    ensures Gather(xs, f) == Gather(Without(xs, i), f) + f(xs[i])
  {
    var n, rest := |xs| - 1, Without(xs, i);
    if i < n {
      GatherWithout(xs[..n], i, f);
      assert rest[..n - 1] == Without(xs[..n], i) && rest[n - 1] == xs[n];
      Swap(Gather(rest[..n - 1], f), f(xs[i]), f(xs[n]));
    } else {
      assert rest == xs[..n];
    }
  }

  lemma {:induction false} GatherReordered<T, E>(xs: seq<T>, ys: seq<T>, f: T -> multiset<E>)
    requires multiset(xs) == multiset(ys)
    ensures Gather(xs, f) == Gather(ys, f)
    decreases |xs|
  {
    SameLength(xs, ys);
    if xs != [] {
      var i := LastFound(xs, ys);
      GatherReordered(xs[..|xs| - 1], Without(ys, i), f);
      GatherWithout(ys, i, f);
    }
  }
}
