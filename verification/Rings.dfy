/** The bounded stores of the fake provider (internal/fakeprovider/dedup.go, recent.go). */
module Rings {
  import opened Tables
  import opened Remainders

  /** The last `n` elements, or all of them. */
  function Last<T>(xs: seq<T>, n: nat): seq<T> { if |xs| <= n then xs else xs[|xs| - n..] }

  /** A ring read from its oldest element on. */
  function Unrolled<T>(ring: seq<T>, next: nat): seq<T>
    requires next <= |ring|
  {
    ring[next..] + ring[..next]
  }

  lemma Wrap(next: nat, n: nat)
    requires next < n
    ensures (next + 1) % n == if next + 1 == n then 0 else next + 1
  {
    SmallRemainder(next + 1, n);
  }

  /** Overwriting the oldest slot drops the oldest element and adds the new one at the end. */
  lemma OverwriteOldest<T>(ring: seq<T>, next: nat, x: T, next': nat)
    requires next < |ring| && next' == if next + 1 == |ring| then 0 else next + 1
    ensures Unrolled(ring[next := x], next') == Unrolled(ring, next)[1..] + [x]
  {
    var ring' := ring[next := x];
    if next + 1 < |ring| {
      assert ring'[next + 1..] == ring[next + 1..];
      assert ring'[..next + 1] == ring[..next] + [x];
      assert Unrolled(ring, next)[1..] == ring[next + 1..] + ring[..next];
    } else {
      assert ring' == ring[..next] + [x];
      assert Unrolled(ring, next) == [ring[next]] + ring[..next];
    }
  }

  lemma LastSnoc<T>(xs: seq<T>, x: T, n: nat)
    requires n > 0
    ensures Last(xs + [x], n) == if |xs| < n then Last(xs, n) + [x] else Last(xs, n)[1..] + [x]
  {
  }

  // ---------------------------------------------------------------------------
  // Recent records

  /** The latest records in a ring. */
  class RecentLog<T> {
    const capacity: nat
    var records: seq<T>
    var next: nat

    ghost predicate Valid()
      reads this
    {
      capacity > 0 && |records| <= capacity && next < capacity && (|records| < capacity ==> next == 0)
    }

    /** The records kept, oldest first. */
    ghost function Kept(): seq<T>
      reads this
      requires Valid()
    {
      if |records| < capacity then records else Unrolled(records, next)
    }

    constructor (capacity: nat)
      requires capacity > 0
      ensures Valid() && this.capacity == capacity && Kept() == []
    {
      this.capacity, records, next := capacity, [], 0;
    }

    method Add(r: T)
      requires Valid()
      modifies this
      ensures Valid()
      ensures Kept() == Last(old(Kept()) + [r], capacity)
    {
      LastSnoc(Kept(), r, capacity);
      if |records| < capacity {
        records := records + [r];
        return;
      }
      Wrap(next, capacity);
      OverwriteOldest(records, next, r, (next + 1) % capacity);
      records := records[next := r];
      next := (next + 1) % |records|;
    }

    /** Up to `limit` records, newest first, across the wrap. */
    method Latest(limit: nat) returns (out: seq<T>)
      requires Valid()
      ensures |out| == if limit < |Kept()| then limit else |Kept()|
      ensures forall i | 0 <= i < |out| :: out[i] == Kept()[|Kept()| - 1 - i]
    {
      var size := |records|;
      var n := if limit < size then limit else size;
      out := [];
      var newest := size - 1;
      if size == capacity {
        newest := (next - 1 + size) % size;
      }
      for i := 0 to n
        invariant |out| == i
        invariant forall j | 0 <= j < i :: out[j] == Kept()[size - 1 - j]
      {
        var r := NewestBut(newest, i);
        out := out + [r];
      }
    }

    /** The record with i newer ones. */
    method NewestBut(newest: int, i: nat) returns (r: T)
      requires Valid() && i < |records|
      requires newest == if |records| == capacity then (next - 1 + |records|) % |records| else |records| - 1
      ensures r == Kept()[|records| - 1 - i]
    {
      NthNewest(records, next, i);
      r := records[(newest - i + |records|) % |records|];
    }
  }

  /** The i-th newest element of a ring, by its index; a ring that has not wrapped has next 0. */
  lemma NthNewest<T>(ring: seq<T>, next: nat, i: nat)
    requires next < |ring| && i < |ring|
    ensures var newest := (next - 1 + |ring|) % |ring|;
            && (next == 0 ==> newest == |ring| - 1)
            && 0 <= (newest - i + |ring|) % |ring| < |ring|
            && ring[(newest - i + |ring|) % |ring|] == Unrolled(ring, next)[|ring| - 1 - i]
  {
    var n := |ring|;
    var newest := (next - 1 + n) % n;
    SmallRemainder(next - 1 + n, n);
    assert newest == if next == 0 then n - 1 else next - 1;
    SmallRemainder(newest - i + n, n);
  }

  /** A log filled from empty holds the last records of everything added, whatever the capacity. */
  function AfterAdds<T>(capacity: nat, history: seq<T>): seq<T>
  {
    if history == [] then []
    else Last(AfterAdds(capacity, history[..|history| - 1]) + [history[|history| - 1]], capacity)
  }

  lemma LastOfLast<T>(xs: seq<T>, x: T, n: nat)
    requires n > 0
    ensures Last(Last(xs, n) + [x], n) == Last(xs + [x], n)
  {
    LastSnoc(xs, x, n);
    LastSnoc(Last(xs, n), x, n);
  }

  lemma {:induction false} KeepsTheLatest<T>(capacity: nat, history: seq<T>)
    requires capacity > 0
    ensures AfterAdds(capacity, history) == Last(history, capacity)
  {
    if history != [] {
      var n := |history| - 1;
      KeepsTheLatest(capacity, history[..n]);
      assert history == history[..n] + [history[n]];
      LastOfLast(history[..n], history[n], capacity);
    }
  }

  // ---------------------------------------------------------------------------
  // Deduplication

  datatype Entry<A> = Entry(id: string, acceptance: A)

  predicate Holds<A>(entries: seq<Entry<A>>, id: string) { exists i :: 0 <= i < |entries| && entries[i].id == id }

  /** The acceptances the store took, one for each call of `add` that added, in order. */
  function Additions<A>(capacity: nat, calls: seq<Entry<A>>): seq<Entry<A>>
  {
    if calls == [] then []
    else
      var before := Additions(capacity, calls[..|calls| - 1]);
      var call := calls[|calls| - 1];
      if Holds(Last(before, capacity), call.id) then before else before + [call]
  }

  /** What the store should remember: the last `capacity` additions. */
  function Window<A>(capacity: nat, calls: seq<Entry<A>>): seq<Entry<A>>
  {
    Last(Additions(capacity, calls), capacity)
  }

  lemma WindowSnoc<A>(capacity: nat, calls: seq<Entry<A>>, e: Entry<A>)
    requires capacity > 0
    ensures var w := Window(capacity, calls);
            Window(capacity, calls + [e]) ==
            if Holds(w, e.id) then w else if |w| < capacity then w + [e] else w[1..] + [e]
    ensures !Holds(Window(capacity, calls), e.id) ==> e in Window(capacity, calls + [e])
  {
    assert (calls + [e])[..|calls|] == calls;
    LastSnoc(Additions(capacity, calls), e, capacity);
  }

  ghost predicate DistinctIds<A>(entries: seq<Entry<A>>)
  {
    forall i, j | 0 <= i < j < |entries| :: entries[i].id != entries[j].id
  }

  function Ids<A>(entries: seq<Entry<A>>): (ids: seq<string>)
    ensures |ids| == |entries| && forall i | 0 <= i < |ids| :: ids[i] == entries[i].id
  {
    seq(|entries|, i requires 0 <= i < |entries| => entries[i].id)
  }

  /** The store's map holds exactly the entries `w`, and its ring their ids, oldest first. */
  ghost predicate Remembers<A>(entries: map<string, A>, ids: seq<string>, w: seq<Entry<A>>)
  {
    && ids == Ids(w) && DistinctIds(w)
    && (forall id :: id in entries <==> Holds(w, id))
    && (forall i | 0 <= i < |w| :: w[i].id in entries && entries[w[i].id] == w[i].acceptance)
  }

  lemma RememberOneMore<A>(entries: map<string, A>, ids: seq<string>, w: seq<Entry<A>>, e: Entry<A>)
    requires Remembers(entries, ids, w) && e.id !in entries
    ensures Remembers(entries[e.id := e.acceptance], ids + [e.id], w + [e])
  {
    var w', entries' := w + [e], entries[e.id := e.acceptance];
    assert !Holds(w, e.id);
    assert w'[|w|].id == e.id;
    forall id ensures id in entries' <==> Holds(w', id) {
      if Holds(w, id) {
        var i :| 0 <= i < |w| && w[i].id == id;
        assert w'[i].id == id;
      }
      if Holds(w', id) && id != e.id {
        var i :| 0 <= i < |w'| && w'[i].id == id;
        assert w[i].id == id;
      }
    }
    forall i | 0 <= i < |w'| ensures w'[i].id in entries' && entries'[w'[i].id] == w'[i].acceptance {
      assert i < |w| ==> w[i].id != e.id;
    }
  }

  lemma ForgetOldest<A>(entries: map<string, A>, ids: seq<string>, w: seq<Entry<A>>)
    requires Remembers(entries, ids, w) && w != []
    ensures Remembers(entries - {ids[0]}, ids[1..], w[1..])
  {
    var w', entries' := w[1..], entries - {ids[0]};
    forall id ensures id in entries' <==> Holds(w', id) {
      if id in entries' {
        var i :| 0 <= i < |w| && w[i].id == id;
        assert w'[i - 1].id == id;
      }
      if Holds(w', id) {
        var i :| 0 <= i < |w'| && w'[i].id == id;
        assert w[i + 1].id == id && w[0].id != w[i + 1].id;
      }
    }
  }

  lemma HeldEntry<A>(entries: map<string, A>, ids: seq<string>, w: seq<Entry<A>>, id: string)
    requires Remembers(entries, ids, w) && id in entries
    ensures Entry(id, entries[id]) in w
  {
    var i :| 0 <= i < |w| && w[i].id == id;
    assert w[i] == Entry(id, entries[id]);
  }

  class DedupStore<A> {
    const capacity: nat
    var entries: map<string, A>
    var order: seq<string>
    var next: nat

    ghost predicate Valid()
      reads this
    {
      capacity > 0 && |order| <= capacity && next < capacity && (|order| < capacity ==> next == 0)
    }

    /** The ids, oldest first. */
    ghost function Ring(): seq<string>
      reads this
      requires Valid()
    {
      if |order| < capacity then order else Unrolled(order, next)
    }

    /** The store is what the calls so far make it. */
    ghost predicate Reflects(calls: seq<Entry<A>>)
      reads this
    {
      && Valid()
      && Remembers(entries, Ring(), Window(capacity, calls))
    }

    constructor (capacity: nat)
      requires capacity > 0
      ensures this.capacity == capacity && Reflects([])
    {
      this.capacity, entries, order, next := capacity, map[], [], 0;
    }

    /** The stored acceptance of id: the one among the last `capacity` additions. */
    method Get(id: string, ghost calls: seq<Entry<A>>) returns (a: Option<A>)
      requires Reflects(calls)
      ensures a.Some? <==> Holds(Window(capacity, calls), id)
      ensures a.Some? ==> Entry(id, a.value) in Window(capacity, calls)
    {
      a := if id in entries then Some(entries[id]) else None;
      if id in entries {
        HeldEntry(entries, Ring(), Window(capacity, calls), id);
      }
    }

    /** Adds unless present; the reply is the acceptance among the last `capacity` additions afterwards. */
    method Add(id: string, a: A, ghost calls: seq<Entry<A>>) returns (stored: A, added: bool)
      requires Reflects(calls)
      modifies this
      ensures Reflects(calls + [Entry(id, a)])
      ensures added <==> !Holds(Window(capacity, calls), id)
      ensures Entry(id, stored) in Window(capacity, calls + [Entry(id, a)])
      ensures added ==> stored == a
    {
      ghost var w := Window(capacity, calls);
      WindowSnoc(capacity, calls, Entry(id, a));
      if id in entries {
        HeldEntry(entries, Ring(), w, id);
        return entries[id], false;
      }
      Insert(id, a, w);
      return a, true;
    }

    method Insert(id: string, a: A, ghost w: seq<Entry<A>>)
      requires Valid() && Remembers(entries, Ring(), w) && id !in entries
      modifies this
      ensures Valid()
      ensures Remembers(entries, Ring(), if |w| < capacity then w + [Entry(id, a)] else w[1..] + [Entry(id, a)])
    {
      if |order| < capacity {
        RememberOneMore(entries, order, w, Entry(id, a));
        order := order + [id];
        assert Ring() == order;
      } else {
        ReplaceOldest(Entry(id, a), id, w);
      }
      entries := entries[id := a];
    }

    /** The full ring: the oldest id makes room. */
    method ReplaceOldest(ghost e: Entry<A>, id: string, ghost w: seq<Entry<A>>)
      requires Valid() && |order| == capacity && Remembers(entries, Ring(), w) && id == e.id && id !in entries
      modifies this
      ensures Valid() && |order| == capacity
      ensures Remembers(entries[id := e.acceptance], Ring(), w[1..] + [e])
    {
      OldestReplaced(entries, order, next, w, e);
      Wrap(next, capacity);
      entries := entries - {order[next]};
      order := order[next := id];
      next := (next + 1) % capacity;
    }
  }

  /** Overwriting the oldest id and forgetting its entry keeps map and ring in step. */
  lemma OldestReplaced<A>(entries: map<string, A>, order: seq<string>, next: nat, w: seq<Entry<A>>, e: Entry<A>)
    requires next < |order| && Remembers(entries, Unrolled(order, next), w) && e.id !in entries
    ensures var next' := if next + 1 == |order| then 0 else next + 1;
            Remembers((entries - {order[next]})[e.id := e.acceptance], Unrolled(order[next := e.id], next'), w[1..] + [e])
  {
    var ids := Unrolled(order, next);
    assert ids[0] == order[next];
    ForgetOldest(entries, ids, w);
    RememberOneMore(entries - {order[next]}, ids[1..], w[1..], e);
    OverwriteOldest(order, next, e.id, if next + 1 == |order| then 0 else next + 1);
  }

  // ---------------------------------------------------------------------------
  // Repeated sends agree

  lemma {:induction false} AdditionsGrow<A>(capacity: nat, calls: seq<Entry<A>>, more: seq<Entry<A>>)
    ensures Additions(capacity, calls) <= Additions(capacity, calls + more)
  {
    if more == [] {
      assert calls + more == calls;
    } else {
      var n := |more| - 1;
      AdditionsGrow(capacity, calls, more[..n]);
      assert (calls + more)[..|calls + more| - 1] == calls + more[..n];
    }
  }

  /** The store never remembers two acceptances of one id. */
  lemma {:induction false} WindowIsDistinct<A>(capacity: nat, calls: seq<Entry<A>>)
    requires capacity > 0
    ensures DistinctIds(Window(capacity, calls))
  {
    if calls != [] {
      var n := |calls| - 1;
      WindowIsDistinct(capacity, calls[..n]);
      assert calls == calls[..n] + [calls[n]];
      WindowSnoc(capacity, calls[..n], calls[n]);
      var w := Window(capacity, calls[..n]);
      if !Holds(w, calls[n].id) {
        DistinctSnoc(w, calls[n]);
      }
    }
  }

  lemma DistinctSnoc<A>(w: seq<Entry<A>>, e: Entry<A>)
    requires DistinctIds(w) && !Holds(w, e.id)
    ensures DistinctIds(w + [e]) && (w != [] ==> DistinctIds(w[1..] + [e]))
  {
  }

  /**
   Once an acceptance of an id is added, every later send of that id gets that
   acceptance until `capacity` more additions have been made, whatever else is
   sent in between.
   */
  lemma SendsAgree<A>(capacity: nat, calls: seq<Entry<A>>, first: Entry<A>, later: seq<Entry<A>>)
    requires capacity > 0 && !Holds(Window(capacity, calls), first.id)
    requires |Additions(capacity, calls + [first] + later)| <= |Additions(capacity, calls)| + capacity
    ensures first in Window(capacity, calls + [first] + later)
    ensures forall e | e in Window(capacity, calls + [first] + later) && e.id == first.id :: e == first
  {
    var all := Additions(capacity, calls + [first] + later);
    var q := |Additions(capacity, calls)|;
    assert q < |all| && all[q] == first by {
      assert (calls + [first])[..|calls|] == calls;
      AdditionsGrow(capacity, calls + [first], later);
    }
    InLast(all, capacity, q);
    WindowIsDistinct(capacity, calls + [first] + later);
    OnlyOfItsId(Window(capacity, calls + [first] + later), first);
  }

  lemma InLast<T>(xs: seq<T>, n: nat, q: nat)
    requires q < |xs| <= q + n
    ensures xs[q] in Last(xs, n)
  {
    if |xs| > n {
      assert Last(xs, n)[q - (|xs| - n)] == xs[q];
    }
  }

  lemma OnlyOfItsId<A>(w: seq<Entry<A>>, e: Entry<A>)
    requires DistinctIds(w) && e in w
    ensures forall x | x in w && x.id == e.id :: x == e
  {
  }
}
