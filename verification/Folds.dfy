/**
 Left folds over sequences: "apply these one at a time, in this order".
 The permutation theorem says when the order does not matter.
 */
module Folds {

  function Fold<S, T>(f: (S, T) -> S, s: S, xs: seq<T>): S
  {
    if xs == [] then s else f(Fold(f, s, xs[..|xs| - 1]), xs[|xs| - 1])
  }

  lemma {:induction false} FoldConcat<S, T>(f: (S, T) -> S, s: S, xs: seq<T>, ys: seq<T>)
    ensures Fold(f, s, xs + ys) == Fold(f, Fold(f, s, xs), ys)
  {
    if ys == [] {
      assert xs + ys == xs;
    } else {
      var init := ys[..|ys| - 1];
      assert (xs + ys)[..|xs + ys| - 1] == xs + init;
      FoldConcat(f, s, xs, init);
    }
  }

  lemma FoldOne<S, T>(f: (S, T) -> S, s: S, x: T)
    ensures Fold(f, s, [x]) == f(s, x)
  {
    assert [x][..0] == [];
    assert Fold(f, s, [x][..0]) == s;
  }

  lemma FoldSnoc<S, T>(f: (S, T) -> S, s: S, xs: seq<T>, k: nat)
    requires k < |xs|
    ensures Fold(f, s, xs[..k + 1]) == f(Fold(f, s, xs[..k]), xs[k])
  {
    assert xs[..k + 1][..k] == xs[..k];
  }

  /** What every element keeps, the fold keeps. */
  lemma {:induction false} FoldKeeps<S(!new), T(!new)>(f: (S, T) -> S, s: S, xs: seq<T>, p: S -> bool)
    requires p(s) && forall t: S, x: T | x in xs && p(t) :: p(f(t, x))
    ensures p(Fold(f, s, xs))
  {
    if xs != [] {
      FoldKeeps(f, s, xs[..|xs| - 1], p);
    }
  }

  /** Any two elements may be applied in either order, from every state. */
  ghost predicate Commuting<S(!new), T>(f: (S, T) -> S, xs: seq<T>)
  {
    forall s: S, a: T, b: T | a in xs && b in xs :: f(f(s, a), b) == f(f(s, b), a)
  }

  lemma {:induction false} MoveToEnd<S(!new), T>(f: (S, T) -> S, s: S, xs: seq<T>, i: nat)
    requires i < |xs| && Commuting(f, xs)
    ensures Fold(f, s, xs) == f(Fold(f, s, xs[..i] + xs[i + 1..]), xs[i])
    decreases |xs|
  {
    var n := |xs| - 1;
    var init, last := xs[..n], xs[n];
    if i == n {
      assert xs[..i] + xs[i + 1..] == init;
    } else {
      assert forall x | x in init :: x in xs;
      MoveToEnd(f, s, init, i);
      var rest := init[..i] + init[i + 1..];
      var whole := xs[..i] + xs[i + 1..];
      assert whole == rest + [last];
      assert whole[..|whole| - 1] == rest;
      assert f(f(Fold(f, s, rest), xs[i]), last) == f(f(Fold(f, s, rest), last), xs[i]);
    }
  }

  /** A fold of commuting elements depends only on their multiset. */
  lemma {:induction false} FoldPermutation<S(!new), T>(f: (S, T) -> S, s: S, xs: seq<T>, ys: seq<T>)
    requires Commuting(f, xs) && multiset(xs) == multiset(ys)
    ensures Fold(f, s, xs) == Fold(f, s, ys)
    decreases |ys|
  {
    if ys == [] {
      assert |multiset(xs)| == 0;
    } else {
      var n := |ys| - 1;
      var i := Find(xs, ys, n);
      MoveToEnd(f, s, xs, i);
      var rest := xs[..i] + xs[i + 1..];
      assert multiset(rest) == multiset(ys[..n]) by {
        WithoutOne(xs, i);
        WithoutOne(ys, n);
        assert ys[..n] + ys[n + 1..] == ys[..n];
      }
      assert forall x | x in rest :: x in xs;
      FoldPermutation(f, s, rest, ys[..n]);
    }
  }

  lemma Find<T>(xs: seq<T>, ys: seq<T>, n: nat) returns (i: nat)
    requires multiset(xs) == multiset(ys) && n < |ys|
    ensures i < |xs| && xs[i] == ys[n]
  {
    assert ys[n] in multiset(xs);
    i :| 0 <= i < |xs| && xs[i] == ys[n];
  }

  lemma WithoutOne<T>(xs: seq<T>, i: nat)
    requires i < |xs|
    ensures multiset(xs[..i] + xs[i + 1..]) == multiset(xs) - multiset{xs[i]}
  {
    assert xs == xs[..i] + ([xs[i]] + xs[i + 1..]);
    assert multiset(xs) == multiset(xs[..i]) + (multiset{xs[i]} + multiset(xs[i + 1..]));
  }

  // ---------------------------------------------------------------------------
  // Filters

  function Filter<T>(p: T -> bool, xs: seq<T>): seq<T>
  {
    if xs == [] then []
    else Filter(p, xs[..|xs| - 1]) + (if p(xs[|xs| - 1]) then [xs[|xs| - 1]] else [])
  }

  lemma FilterSnoc<T>(p: T -> bool, xs: seq<T>, k: nat)
    requires k < |xs|
    ensures Filter(p, xs[..k + 1]) == Filter(p, xs[..k]) + (if p(xs[k]) then [xs[k]] else [])
  {
    assert xs[..k + 1][..k] == xs[..k];
  }

  lemma {:induction false} FilterConcat<T>(p: T -> bool, xs: seq<T>, ys: seq<T>)
    ensures Filter(p, xs + ys) == Filter(p, xs) + Filter(p, ys)
  {
    if ys == [] {
      assert xs + ys == xs;
    } else {
      assert (xs + ys)[..|xs + ys| - 1] == xs + ys[..|ys| - 1];
      FilterConcat(p, xs, ys[..|ys| - 1]);
    }
  }

  lemma {:induction false} FilterAgrees<T>(p: T -> bool, q: T -> bool, xs: seq<T>)
    requires forall x | x in xs :: p(x) == q(x)
    ensures Filter(p, xs) == Filter(q, xs)
  {
    if xs != [] {
      FilterAgrees(p, q, xs[..|xs| - 1]);
    }
  }

  lemma {:induction false} FilterElement<T>(p: T -> bool, xs: seq<T>, x: T)
    ensures x in Filter(p, xs) <==> x in xs && p(x)
  {
    if xs != [] {
      FilterElement(p, xs[..|xs| - 1], x);
      assert xs == xs[..|xs| - 1] + [xs[|xs| - 1]];
    }
  }

  lemma {:induction false} FilterCounts<T>(p: T -> bool, xs: seq<T>, x: T)
    ensures multiset(Filter(p, xs))[x] == if p(x) then multiset(xs)[x] else 0
  {
    if xs != [] {
      FilterCounts(p, xs[..|xs| - 1], x);
      assert xs == xs[..|xs| - 1] + [xs[|xs| - 1]];
    }
  }

  lemma FilterPermutation<T(!new)>(p: T -> bool, xs: seq<T>, ys: seq<T>)
    requires multiset(xs) == multiset(ys)
    ensures multiset(Filter(p, xs)) == multiset(Filter(p, ys))
  {
    forall x ensures multiset(Filter(p, xs))[x] == multiset(Filter(p, ys))[x] {
      FilterCounts(p, xs, x);
      FilterCounts(p, ys, x);
    }
  }

  // ---------------------------------------------------------------------------
  // Distinct keys

  predicate DistinctBy<T, K(==)>(key: T -> K, xs: seq<T>)
  {
    forall i, j | 0 <= i < j < |xs| :: key(xs[i]) != key(xs[j])
  }

  lemma {:induction false} CountOfDistinct<T>(xs: seq<T>, x: T)
    requires forall i, j | 0 <= i < j < |xs| :: xs[i] != xs[j]
    ensures multiset(xs)[x] <= 1
  {
    if xs != [] {
      var n := |xs| - 1;
      CountOfDistinct(xs[..n], x);
      assert xs == xs[..n] + [xs[n]];
      if x == xs[n] {
        assert x !in xs[..n];
        assert x !in multiset(xs[..n]);
      }
    }
  }

  lemma CountOfRepeated<T>(xs: seq<T>, i: nat, j: nat)
    requires i < j < |xs| && xs[i] == xs[j]
    ensures multiset(xs)[xs[i]] >= 2
  {
    assert xs == xs[..i] + [xs[i]] + xs[i + 1..j] + [xs[j]] + xs[j + 1..];
  }

  lemma SameElements<T>(xs: seq<T>, ys: seq<T>)
    requires multiset(xs) == multiset(ys)
    ensures forall x :: x in xs <==> x in ys
  {
    forall x ensures x in xs <==> x in ys {
      assert x in multiset(xs) <==> x in multiset(ys);
    }
  }

  /** Reordering keeps keys distinct. */
  lemma DistinctPermutation<T, K>(key: T -> K, xs: seq<T>, ys: seq<T>)
    requires DistinctBy(key, xs) && multiset(xs) == multiset(ys)
    ensures DistinctBy(key, ys)
  {
    SameElements(xs, ys);
    forall i, j | 0 <= i < j < |ys| ensures key(ys[i]) != key(ys[j]) {
      CountOfDistinct(xs, ys[i]);
      if ys[i] == ys[j] {
        CountOfRepeated(ys, i, j);
      } else {
        assert ys[i] in xs && ys[j] in xs;
        var a :| 0 <= a < |xs| && xs[a] == ys[i];
        var b :| 0 <= b < |xs| && xs[b] == ys[j];
        assert key(xs[a]) != key(xs[b]);
      }
    }
  }

  lemma {:induction false} FilterDistinct<T, K>(key: T -> K, p: T -> bool, xs: seq<T>)
    requires DistinctBy(key, xs)
    ensures DistinctBy(key, Filter(p, xs))
  {
    if xs != [] {
      var n := |xs| - 1;
      FilterDistinct(key, p, xs[..n]);
      var init := Filter(p, xs[..n]);
      forall i | 0 <= i < |init| ensures key(init[i]) != key(xs[n]) {
        var x := init[i];
        FilterElement(p, xs[..n], x);
        var a :| 0 <= a < n && xs[a] == x;
        assert key(xs[a]) != key(xs[n]);
      }
    }
  }
}
