/**
 Message listing by key (internal/message/query.go). A snapshot is the set of
 ids that the customer and the filters select when a page is read; an id stands
 for the number its bytes spell, which has the same order. Rows come and go
 between pages.
 */
module Paging {
  import opened Tables
  import Ids

  type Key = nat

  ghost function Largest(rows: set<Key>): (m: Key)
    requires rows != {}
    ensures m in rows && forall k | k in rows :: k <= m
  {
    var x :| x in rows;
    var rest := rows - {x};
    assert forall k | k in rows :: k == x || k in rest;
    if rest == {} then
      assert rows == {x};
      x
    else
      var m := Largest(rest);
      if m < x then x else m
  }

  /** The first n rows in descending order. */
  ghost function Top(rows: set<Key>, n: nat): seq<Key>
  {
    if n == 0 || rows == {} then [] else [Largest(rows)] + Top(rows - {Largest(rows)}, n - 1)
  }

  /** The rows a page may list: those below the cursor. */
  function Eligible(rows: set<Key>, after: Option<Key>): set<Key>
  {
    set k | k in rows && (after.Some? ==> k < after.value)
  }

  /** One page: one row more than the limit is read, to see whether more follow. */
  ghost function List(rows: set<Key>, after: Option<Key>, limit: nat): (seq<Key>, bool)
  {
    var list := Top(Eligible(rows, after), limit + 1);
    if |list| > limit then (list[..limit], true) else (list, false)
  }

  predicate Descending(ks: seq<Key>) { forall i, j | 0 <= i < j < |ks| :: ks[i] > ks[j] }

  lemma {:induction false} TopIn(rows: set<Key>, n: nat)
    ensures forall k | k in Top(rows, n) :: k in rows
    ensures |Top(rows, n)| <= n
  {
    if n > 0 && rows != {} {
      TopIn(rows - {Largest(rows)}, n - 1);
    }
  }

  lemma {:induction false} TopDescends(rows: set<Key>, n: nat)
    ensures Descending(Top(rows, n))
  {
    if n > 0 && rows != {} {
      var m := Largest(rows);
      var top := Top(rows - {m}, n - 1);
      TopDescends(rows - {m}, n - 1);
      TopIn(rows - {m}, n - 1);
      forall i | 0 <= i < |top| ensures top[i] < m {
        assert top[i] in top;
      }
    }
  }

  lemma {:induction false} TopIsLargest(rows: set<Key>, n: nat, k: Key)
    requires k in rows && k !in Top(rows, n)
    ensures |Top(rows, n)| == n && forall t | t in Top(rows, n) :: k < t
  {
    if n > 0 {
      var m := Largest(rows);
      assert k != m;
      TopIsLargest(rows - {m}, n - 1, k);
    }
  }

  lemma TopIs(rows: set<Key>, n: nat)
    ensures Descending(Top(rows, n)) && |Top(rows, n)| <= n
    ensures forall k | k in Top(rows, n) :: k in rows
    ensures |Top(rows, n)| == n || forall k | k in rows :: k in Top(rows, n)
    ensures forall k, t | k in rows && k !in Top(rows, n) && t in Top(rows, n) :: k < t
  {
    TopIn(rows, n);
    TopDescends(rows, n);
    forall k | k in rows && k !in Top(rows, n) ensures |Top(rows, n)| == n && forall t | t in Top(rows, n) :: k < t {
      TopIsLargest(rows, n, k);
    }
  }

  /**
   What a page holds, for every table: the rows below the cursor, largest first,
   up to the limit; `more` says exactly whether a row below the cursor is missing,
   and any such row is below the whole page.
   */
  lemma PageIs(rows: set<Key>, after: Option<Key>, limit: nat)
    ensures var (list, more) := List(rows, after, limit);
            && Descending(list) && |list| <= limit && (more ==> |list| == limit)
            && (forall k | k in list :: k in Eligible(rows, after))
            && (more <==> exists k :: k in Eligible(rows, after) && k !in list)
            && (forall k, t | k in Eligible(rows, after) && k !in list && t in list :: k < t)
  {
    var all := Eligible(rows, after);
    var top := Top(all, limit + 1);
    TopIs(all, limit + 1);
    if |top| > limit {
      var list := top[..limit];
      assert top[limit] in all && forall i | 0 <= i < limit :: list[i] == top[i];
      assert top[limit] !in list;
      forall k, t | k in all && k !in list && t in list ensures k < t {
        var i :| 0 <= i < limit && top[i] == t;
        assert t in top;
        if k in top {
          var j :| 0 <= j < |top| && top[j] == k;
          assert j < limit ==> list[j] == k;
        }
      }
    }
  }

  // ---------------------------------------------------------------------------
  // Reading page after page

  /** The rows listed by following the cursor, page by page, and whether the last page was reached. */
  ghost function Walk(snapshots: seq<set<Key>>, after: Option<Key>, limit: nat): (seq<Key>, bool)
    requires limit > 0
  {
    if snapshots == [] then ([], false)
    else
      var (list, more) := List(snapshots[0], after, limit);
      PageIs(snapshots[0], after, limit);
      if !more then (list, true)
      else
        var (rest, done) := Walk(snapshots[1..], Some(list[|list| - 1]), limit);
        (list + rest, done)
  }

  predicate Under(k: Key, after: Option<Key>) { after.Some? ==> k < after.value }

  lemma DescendingConcat(a: seq<Key>, b: seq<Key>)
    requires Descending(a) && Descending(b) && a != [] && forall k | k in b :: k < a[|a| - 1]
    ensures Descending(a + b)
    ensures forall i, k | 0 <= i < |a| && k in b :: k < a[i]
  {
    forall i, j | 0 <= i < j < |a + b| ensures (a + b)[i] > (a + b)[j] {
      if i < |a| <= j {
        assert b[j - |a|] in b;
      }
    }
  }

  /** No row is listed twice, and the whole listing is newest first, whatever happens to the table in between. */
  lemma {:induction false} WalkDescends(snapshots: seq<set<Key>>, after: Option<Key>, limit: nat)
    requires limit > 0
    ensures Descending(Walk(snapshots, after, limit).0)
    ensures forall k | k in Walk(snapshots, after, limit).0 :: Under(k, after)
  {
    if snapshots != [] {
      var (list, more) := List(snapshots[0], after, limit);
      PageIs(snapshots[0], after, limit);
      if more {
        var last := list[|list| - 1];
        WalkDescends(snapshots[1..], Some(last), limit);
        var rest := Walk(snapshots[1..], Some(last), limit).0;
        assert last in list;
        forall k | k in rest ensures k < last {
          assert Under(k, Some(last));
        }
        DescendingConcat(list, rest);
      }
    }
  }

  /** A row that is there whenever a page is read is listed by the time the last page is reached. */
  lemma {:induction false} NothingSkipped(snapshots: seq<set<Key>>, after: Option<Key>, limit: nat, k: Key)
    requires limit > 0 && Walk(snapshots, after, limit).1
    requires Under(k, after) && forall rows | rows in snapshots :: k in rows
    ensures k in Walk(snapshots, after, limit).0
  {
    var (list, more) := List(snapshots[0], after, limit);
    PageIs(snapshots[0], after, limit);
    assert snapshots[0] in snapshots && k in Eligible(snapshots[0], after);
    if more && k !in list {
      assert list[|list| - 1] in list;
      NothingSkipped(snapshots[1..], Some(list[|list| - 1]), limit, k);
    }
  }

  /** Every listed row was there when some page was read. */
  lemma {:induction false} NothingInvented(snapshots: seq<set<Key>>, after: Option<Key>, limit: nat, k: Key)
    requires limit > 0 && k in Walk(snapshots, after, limit).0
    ensures exists rows :: rows in snapshots && k in rows
  {
    var (list, more) := List(snapshots[0], after, limit);
    PageIs(snapshots[0], after, limit);
    if k in list {
      assert snapshots[0] in snapshots;
    } else {
      NothingInvented(snapshots[1..], Some(list[|list| - 1]), limit, k);
    }
  }

  /** While only newer messages arrive, the listing is exactly the table as it was at the first page. */
  lemma ExactWhenOnlyNewerArrive(snapshots: seq<set<Key>>, limit: nat, k: Key)
    requires limit > 0 && snapshots != [] && Walk(snapshots, None, limit).1
    requires forall rows | rows in snapshots :: snapshots[0] <= rows
    requires forall rows, n, o | rows in snapshots && n in rows && n !in snapshots[0] && o in snapshots[0] :: n > o
    ensures k in Walk(snapshots, None, limit).0 <==> k in snapshots[0]
  {
    if k in snapshots[0] {
      NothingSkipped(snapshots, None, limit, k);
    }
    if k in Walk(snapshots, None, limit).0 {
      var (list, more) := List(snapshots[0], None, limit);
      PageIs(snapshots[0], None, limit);
      if k !in list {
        var last := list[|list| - 1];
        WalkDescends(snapshots[1..], Some(last), limit);
        assert Under(k, Some(last)) && last in list;
        NothingInvented(snapshots[1..], Some(last), limit, k);
        var rows :| rows in snapshots[1..] && k in rows;
        assert rows in snapshots && last in snapshots[0];
      }
    }
  }

  // ---------------------------------------------------------------------------
  // Reaching the last page

  function Listed(list: seq<Key>): set<Key> { set k | k in list }

  lemma {:induction false} ListedSize(list: seq<Key>)
    requires Descending(list)
    ensures |Listed(list)| == |list|
  {
    if list != [] {
      var n := |list| - 1;
      ListedSize(list[..n]);
      assert Listed(list) == Listed(list[..n]) + {list[n]};
    }
  }

  /** All later rows hold the base, and whatever they add is newer. */
  ghost predicate OnlyNewer(base: set<Key>, rows: set<Key>)
  {
    base <= rows && forall n, o | n in rows && n !in base && o in base :: n > o
  }

  /** Below a row of the base nothing has been added. */
  lemma SameBelow(base: set<Key>, rows: set<Key>, last: Key)
    requires OnlyNewer(base, rows) && last in base
    ensures Eligible(rows, Some(last)) == Eligible(base, Some(last))
  {
  }

  /** A full page leaves its limit fewer rows to list. */
  lemma PageTakesLimit(base: set<Key>, after: Option<Key>, limit: nat)
    requires limit > 0 && List(base, after, limit).1
    ensures var list := List(base, after, limit).0;
            && |list| == limit && list[limit - 1] in Eligible(base, after)
            && |Eligible(base, Some(list[limit - 1]))| == |Eligible(base, after)| - limit
  {
    var list := List(base, after, limit).0;
    PageIs(base, after, limit);
    var last := list[limit - 1];
    assert last in list;
    ListedSize(list);
    assert Listed(list) <= Eligible(base, after);
    assert Eligible(base, Some(last)) == Eligible(base, after) - Listed(list) by {
      forall k | k in Listed(list) ensures k >= last {
        var i :| 0 <= i < limit && list[i] == k;
      }
    }
  }

  /** With enough pages the walk reaches the last one while only newer rows arrive. */
  lemma {:induction false} WalkReachesTheEnd(base: set<Key>, snapshots: seq<set<Key>>, after: Option<Key>, limit: nat)
    requires limit > 0 && snapshots != [] && forall rows | rows in snapshots :: OnlyNewer(base, rows)
    requires if after.Some? then after.value in base else snapshots[0] == base
    requires |Eligible(base, after)| <= |snapshots| * limit
    ensures Walk(snapshots, after, limit).1
    decreases |snapshots|
  {
    assert snapshots[0] in snapshots;
    if after.Some? {
      SameBelow(base, snapshots[0], after.value);
    }
    assert Eligible(snapshots[0], after) == Eligible(base, after);
    var (list, more) := List(snapshots[0], after, limit);
    PageIs(snapshots[0], after, limit);
    if more {
      PageTakesLimit(base, after, limit);
      assert |snapshots| * limit == (|snapshots| - 1) * limit + limit;
      assert |snapshots| > 1 by {
        assert |Eligible(base, after)| > limit by { MoreMeansMore(base, after, limit); }
      }
      WalkReachesTheEnd(base, snapshots[1..], Some(list[|list| - 1]), limit);
    }
  }

  lemma MoreMeansMore(base: set<Key>, after: Option<Key>, limit: nat)
    requires List(base, after, limit).1
    ensures |Eligible(base, after)| > limit
  {
    var top := Top(Eligible(base, after), limit + 1);
    TopIs(Eligible(base, after), limit + 1);
    ListedSize(top);
    assert Listed(top) <= Eligible(base, after);
    assert Eligible(base, after) == Listed(top) + (Eligible(base, after) - Listed(top));
  }

  // ---------------------------------------------------------------------------
  // Listing a time window

  /** The keys that the time filters select. */
  ghost function Selected(rows: set<Ids.Uuid>, since: Time, until: Time): set<Key>
  {
    set id | id in rows && Ids.Version7(id) && Ids.AtMost(Ids.LowerBound(since), id)
             && Ids.Less(id, Ids.LowerBound(until)) :: Ids.Value(id)
  }

  /** What each page of a query for [since, until) reads. */
  ghost function Snapshots(tables: seq<set<Ids.Uuid>>, since: Time, until: Time): (ss: seq<set<Key>>)
    ensures |ss| == |tables| && forall i | 0 <= i < |ss| :: ss[i] == Selected(tables[i], since, until)
  {
    seq(|tables|, i requires 0 <= i < |tables| => Selected(tables[i], since, until))
  }

  lemma SelectedIs(rows: set<Ids.Uuid>, since: Time, until: Time, id: Ids.Uuid)
    requires Ids.Version7(id)
    requires 0 <= Ids.UnixMilli(since) < Ids.TWO_48 && 0 <= Ids.UnixMilli(until) < Ids.TWO_48
    ensures Ids.Value(id) in Selected(rows, since, until) <==>
            id in rows && Ids.UnixMilli(since) <= Ids.Timestamp(id) < Ids.UnixMilli(until)
  {
    Ids.TimeWindow(id, since, until);
    forall x | x in rows && Ids.Version7(x) && Ids.Value(x) == Ids.Value(id) ensures x == id {
      Ids.LessIsSmaller(x, id);
    }
  }

  /** The later table holds the first one, and every ID it adds is larger. */
  ghost predicate Follows(first: set<Ids.Uuid>, rows: set<Ids.Uuid>)
  {
    && first <= rows
    && forall n, o | n in rows && n !in first && o in first && Ids.Version7(n) && Ids.Version7(o) :: Ids.Less(o, n)
  }

  lemma WindowOnlyNewer(first: set<Ids.Uuid>, rows: set<Ids.Uuid>, since: Time, until: Time)
    requires Follows(first, rows)
    ensures OnlyNewer(Selected(first, since, until), Selected(rows, since, until))
  {
    var base, all := Selected(first, since, until), Selected(rows, since, until);
    forall n, o | n in all && n !in base && o in base ensures n > o {
      var x :| x in rows && Ids.Version7(x) && Ids.AtMost(Ids.LowerBound(since), x) && Ids.Less(x, Ids.LowerBound(until))
               && Ids.Value(x) == n;
      var y :| y in first && Ids.Version7(y) && Ids.Value(y) == o;
      assert x !in first;
      Ids.LessIsSmaller(y, x);
    }
  }

  /**
   Following the cursors of a query for [since, until), with as many pages as the
   window needs and only newer messages arriving meanwhile: the walk reaches the
   last page, lists no row twice, in descending order, and lists exactly the IDs
   of the first page's table whose timestamps are in the window.
   */
  lemma WindowIsListed(tables: seq<set<Ids.Uuid>>, since: Time, until: Time, limit: nat, id: Ids.Uuid)
    requires limit > 0 && tables != [] && Ids.Version7(id)
    requires 0 <= Ids.UnixMilli(since) < Ids.TWO_48 && 0 <= Ids.UnixMilli(until) < Ids.TWO_48
    requires forall rows | rows in tables :: Follows(tables[0], rows)
    requires |Selected(tables[0], since, until)| <= |tables| * limit
    ensures var (list, done) := Walk(Snapshots(tables, since, until), None, limit);
            && done && Descending(list)
            && (Ids.Value(id) in list <==>
                id in tables[0] && Ids.UnixMilli(since) <= Ids.Timestamp(id) < Ids.UnixMilli(until))
  {
    var ss := Snapshots(tables, since, until);
    forall rows | rows in ss ensures OnlyNewer(ss[0], rows) {
      var i :| 0 <= i < |ss| && ss[i] == rows;
      assert tables[i] in tables && tables[0] in tables;
      WindowOnlyNewer(tables[0], tables[i], since, until);
    }
    assert Eligible(ss[0], None) == ss[0];
    WalkReachesTheEnd(ss[0], ss, None, limit);
    WalkDescends(ss, None, limit);
    ExactWhenOnlyNewerArrive(ss, limit, Ids.Value(id));
    SelectedIs(tables[0], since, until, id);
  }
}
