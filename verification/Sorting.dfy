/** Sorting by ID, as the completer and the report batches do before locking rows. */
module Sorting {
  import opened Tables
  import opened Folds

  predicate SortedBy<T>(key: T -> Id, xs: seq<T>)
  {
    forall i, j | 0 <= i < j < |xs| :: key(xs[i]) <= key(xs[j])
  }

  method Insert<T>(key: T -> Id, xs: seq<T>, x: T) returns (ys: seq<T>)
    requires SortedBy(key, xs)
    ensures SortedBy(key, ys) && multiset(ys) == multiset(xs) + multiset{x}
  {
    var i := |xs|;
    while i > 0 && key(xs[i - 1]) > key(x)
      invariant 0 <= i <= |xs|
      invariant forall j | i <= j < |xs| :: key(xs[j]) > key(x)
    {
      i := i - 1;
    }
    ys := xs[..i] + [x] + xs[i..];
    InsertedInOrder(key, xs, x, i);
    InsertedOnce(xs, x, i);
  }

  lemma InsertedInOrder<T>(key: T -> Id, xs: seq<T>, x: T, i: nat)
    requires SortedBy(key, xs) && i <= |xs|
    requires i > 0 ==> key(xs[i - 1]) <= key(x)
    requires forall j | i <= j < |xs| :: key(xs[j]) > key(x)
    ensures SortedBy(key, xs[..i] + [x] + xs[i..])
  {
    var ys := xs[..i] + [x] + xs[i..];
    forall a, b | 0 <= a < b < |ys| ensures key(ys[a]) <= key(ys[b]) {
      assert a < i ==> ys[a] == xs[a] && key(xs[a]) <= key(xs[i - 1]);
      assert b > i ==> ys[b] == xs[b - 1];
    }
  }

  lemma InsertedOnce<T>(xs: seq<T>, x: T, i: nat)
    requires i <= |xs|
    ensures multiset(xs[..i] + [x] + xs[i..]) == multiset(xs) + multiset{x}
  {
    assert xs == xs[..i] + xs[i..];
  }

  method SortById<T>(key: T -> Id, xs: seq<T>) returns (ys: seq<T>)
    ensures SortedBy(key, ys) && multiset(ys) == multiset(xs)
  {
    ys := [];
    for i := 0 to |xs|
      invariant SortedBy(key, ys) && multiset(ys) == multiset(xs[..i])
    {
      assert xs[..i + 1] == xs[..i] + [xs[i]];
      ys := Insert(key, ys, xs[i]);
    }
    assert xs[..|xs|] == xs;
  }

  /** The elements of a set in ascending order. */
  method SortedIds(ids: set<Id>) returns (order: seq<Id>)
    ensures SortedBy(x => x, order)
    ensures forall x :: x in order <==> x in ids
    ensures forall i, j | 0 <= i < j < |order| :: order[i] != order[j]
  {
    var rest, found: seq<Id> := ids, [];
    while rest != {}
      invariant forall x :: x in ids <==> x in rest || x in found
      invariant forall x | x in found :: x !in rest
      invariant forall i, j | 0 <= i < j < |found| :: found[i] != found[j]
      decreases rest
    {
      var x :| x in rest;
      rest, found := rest - {x}, found + [x];
    }
    order := SortById(x => x, found);
    SameElements(order, found);
    DistinctPermutation(x => x, found, order);
  }
}
