/** Sorting by a strict total order. What a map iteration leaves in an arbitrary order comes out in the only one there
    is. */
module Ordering {
  import opened Bags

  ghost predicate StrictOrder<T(!new)>(before: (T, T) -> bool)
  {
    && (forall a, b :: a == b || before(a, b) || before(b, a))
    && (forall a, b :: before(a, b) ==> a != b && !before(b, a))
    && (forall a, b, c :: before(a, b) && before(b, c) ==> before(a, c))
  }

  predicate Ascending<T>(xs: seq<T>, before: (T, T) -> bool)
  {
    forall i, j :: 0 <= i < j < |xs| ==> before(xs[i], xs[j])
  }

  lemma EmptyTogether<T>(xs: seq<T>, ys: seq<T>)
    requires forall x :: x in xs <==> x in ys
    ensures xs == [] <==> ys == []
  {
    assert ys != [] ==> ys[0] in ys;
    assert xs != [] ==> xs[0] in xs;
  }

  /** An ascending list is determined by its members. */
  lemma {:induction false} AscendingUnique<T(!new)>(xs: seq<T>, ys: seq<T>, before: (T, T) -> bool)
    requires StrictOrder(before) && Ascending(xs, before) && Ascending(ys, before)
    requires forall x :: x in xs <==> x in ys
    ensures xs == ys
  {
    EmptyTogether(xs, ys);
    if xs != [] {
      assert xs[0] in ys && ys[0] in xs;
      forall x | x in xs[1..]
        ensures x in ys[1..]
      {
        assert x in ys && before(xs[0], x);
      }
      forall x | x in ys[1..]
        ensures x in xs[1..]
      {
        assert x in xs && before(ys[0], x);
      }
      AscendingUnique(xs[1..], ys[1..], before);
    }
  }

  lemma Inserted<T(!new)>(xs: seq<T>, x: T, i: nat, r: seq<T>, before: (T, T) -> bool)
    requires StrictOrder(before) && Ascending(xs, before) && x !in xs && i <= |xs|
    requires forall j :: 0 <= j < i ==> before(xs[j], x)
    requires i < |xs| ==> !before(xs[i], x)
    requires r == xs[..i] + [x] + xs[i..]
    ensures Ascending(r, before) && forall y :: y in r <==> y in xs || y == x
  {
    assert forall k :: 0 <= k < |r| ==> r[k] == if k < i then xs[k] else if k == i then x else xs[k - 1];
    forall j | i <= j < |xs|
      ensures before(x, xs[j])
    {
      assert xs[i] in xs;
      assert before(x, xs[i]) && (i == j || before(xs[i], xs[j]));
    }
    assert xs == xs[..i] + xs[i..];
  }

  method Insert<T(!new)>(xs: seq<T>, x: T, before: (T, T) -> bool) returns (r: seq<T>)
    requires StrictOrder(before) && Ascending(xs, before) && x !in xs
    ensures Ascending(r, before) && forall y :: y in r <==> y in xs || y == x
    ensures |r| == |xs| + 1
  {
    var i := 0;
    while i < |xs| && before(xs[i], x)
      invariant 0 <= i <= |xs|
      invariant forall j :: 0 <= j < i ==> before(xs[j], x)
    {
      i := i + 1;
    }
    r := xs[..i] + [x] + xs[i..];
    Inserted(xs, x, i, r, before);
  }

  /** Walks a set in any order and sorts what it finds. */
  method Sorted<T(!new)>(items: set<T>, before: (T, T) -> bool) returns (out: seq<T>)
    requires StrictOrder(before)
    ensures Ascending(out, before) && forall x :: x in out <==> x in items
    ensures |out| == |items|
  {
    out := [];
    var rest := items;
    while rest != {}
      invariant rest <= items && |out| + |rest| == |items|
      invariant Ascending(out, before) && forall x :: x in out <==> x in items && x !in rest
    {
      var x :| x in rest;
      out := Insert(out, x, before);
      rest := rest - {x};
    }
  }

  // ----- Lists with repetitions -----

  predicate InOrder<T>(xs: seq<T>, before: (T, T) -> bool)
  {
    forall i, j :: 0 <= i < j < |xs| ==> !before(xs[j], xs[i])
  }

  /** What is not before x is followed by nothing that is. */
  lemma NoneBefore<T(!new)>(xs: seq<T>, x: T, i: nat, j: nat, before: (T, T) -> bool)
    requires StrictOrder(before) && InOrder(xs, before) && i <= j < |xs| && !before(xs[i], x)
    ensures !before(xs[j], x)
  {
    assert i < j ==> !before(xs[j], xs[i]);
    assert xs[i] == xs[j] || before(xs[i], xs[j]);
  }

  lemma InsertedInOrder<T(!new)>(xs: seq<T>, x: T, i: nat, r: seq<T>, before: (T, T) -> bool)
    requires StrictOrder(before) && InOrder(xs, before) && i <= |xs|
    requires forall j :: 0 <= j < i ==> before(xs[j], x)
    requires i < |xs| ==> !before(xs[i], x)
    requires r == xs[..i] + [x] + xs[i..]
    ensures InOrder(r, before)
  {
    forall p, q | 0 <= p < q < |r|
      ensures !before(r[q], r[p])
    {
      if p == i {
        NoneBefore(xs, x, i, q - 1, before);
      } else {
        assert r[p] == xs[if p < i then p else p - 1];
        if q == i {
          assert before(xs[p], x);
        } else {
          assert r[q] == xs[if q < i then q else q - 1];
        }
      }
    }
  }

  lemma InsertedBag<T>(xs: seq<T>, x: T, i: nat)
    requires i <= |xs|
    ensures multiset(xs[..i] + [x] + xs[i..]) == multiset(xs) + multiset{x}
  {
    assert xs == xs[..i] + xs[i..];
  }

  method SortedList<T(!new)>(items: seq<T>, before: (T, T) -> bool) returns (out: seq<T>)
    requires StrictOrder(before)
    ensures InOrder(out, before) && multiset(out) == multiset(items)
  {
    out := [];
    for n := 0 to |items|
      invariant InOrder(out, before) && multiset(out) == multiset(items[..n])
    {
      var x, i := items[n], 0;
      while i < |out| && before(out[i], x)
        invariant 0 <= i <= |out|
        invariant forall j :: 0 <= j < i ==> before(out[j], x)
      {
        i := i + 1;
      }
      InsertedInOrder(out, x, i, out[..i] + [x] + out[i..], before);
      InsertedBag(out, x, i);
      assert items[..n + 1] == items[..n] + [x];
      out := out[..i] + [x] + out[i..];
    }
    assert items[..|items|] == items;
  }

  /** Every list can be put in order. */
  lemma {:induction false} SortedExists<T(!new)>(items: seq<T>, before: (T, T) -> bool) returns (out: seq<T>)
    requires StrictOrder(before)
    ensures InOrder(out, before) && multiset(out) == multiset(items)
  {
    out := [];
    if items != [] {
      var front, x := items[..|items| - 1], items[|items| - 1];
      var rest := SortedExists(front, before);
      var i := PlaceFor(rest, x, before);
      out := rest[..i] + [x] + rest[i..];
      InsertedInOrder(rest, x, i, out, before);
      InsertedBag(rest, x, i);
      assert items == front + [x];
    }
  }

  lemma {:induction false} PlaceFor<T(!new)>(xs: seq<T>, x: T, before: (T, T) -> bool) returns (i: nat)
    ensures i <= |xs| && (forall j :: 0 <= j < i ==> before(xs[j], x)) && (i < |xs| ==> !before(xs[i], x))
  {
    i := 0;
    while i < |xs| && before(xs[i], x)
      invariant 0 <= i <= |xs| && forall j :: 0 <= j < i ==> before(xs[j], x)
    {
      i := i + 1;
    }
  }

  lemma HeadNotAfter<T(!new)>(xs: seq<T>, x: T, before: (T, T) -> bool)
    requires StrictOrder(before) && InOrder(xs, before) && x in xs
    ensures !before(x, xs[0])
  {
    var i :| 0 <= i < |xs| && xs[i] == x;
    assert i > 0 ==> !before(xs[i], xs[0]);
  }

  lemma TailBag<T>(xs: seq<T>)
    requires xs != []
    ensures xs[0] in multiset(xs) && multiset(xs[1..]) == multiset(xs) - multiset{xs[0]}
  {
    assert xs == [xs[0]] + xs[1..];
  }

  /** A list in order is determined by how often each element occurs. */
  lemma {:induction false} InOrderUnique<T(!new)>(xs: seq<T>, ys: seq<T>, before: (T, T) -> bool)
    requires StrictOrder(before) && InOrder(xs, before) && InOrder(ys, before)
    requires multiset(xs) == multiset(ys)
    ensures xs == ys
    decreases |xs|
  {
    SameLength(xs, ys);
    if xs != [] {
      TailBag(xs);
      TailBag(ys);
      HeadNotAfter(xs, ys[0], before);
      HeadNotAfter(ys, xs[0], before);
      InOrderUnique(xs[1..], ys[1..], before);
      assert xs == [xs[0]] + xs[1..] && ys == [ys[0]] + ys[1..];
    }
  }

  /** Two lists without repetitions and with the same members hold each of them once. */
  lemma {:induction false} DistinctBags<T>(xs: seq<T>, ys: seq<T>)
    requires Distinct(xs) && Distinct(ys) && forall x :: x in xs <==> x in ys
    ensures multiset(xs) == multiset(ys)
  {
    forall x
      ensures multiset(xs)[x] == multiset(ys)[x]
    {
      OnceEach(xs, x);
      OnceEach(ys, x);
    }
  }

  ghost predicate Distinct<T>(xs: seq<T>)
  {
    forall i, j :: 0 <= i < j < |xs| ==> xs[i] != xs[j]
  }

  lemma {:induction false} OnceEach<T>(xs: seq<T>, x: T)
    requires Distinct(xs)
    ensures multiset(xs)[x] == if x in xs then 1 else 0
  {
    if xs != [] {
      var front, last := xs[..|xs| - 1], xs[|xs| - 1];
      OnceEach(front, x);
      assert xs == front + [last];
      assert forall i :: 0 <= i < |front| ==> front[i] == xs[i] != last;
    }
  }
}
