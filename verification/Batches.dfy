/** Batches of outcomes: table by table, fenced, and in groups. */
module Batches {
  import opened Tables
  import opened Folds
  import opened Billing
  import opened Completion

  // ---------------------------------------------------------------------------
  // A batch taken apart: all messages, then all refunds, then all queue rows

  predicate DistinctMessages(os: seq<Outcome>) { DistinctBy(MessageOf, os) }

  function MessageOf(o: Outcome): Id { o.job.id }

  predicate AllOwned(db: Db, w: WorkerId, os: seq<Outcome>)
  {
    forall o | o in os :: Owned(db, w, o)
  }

  function MessagesAll(ms: map<Id, Message>, now: Time, slaMs: int, os: seq<Outcome>): map<Id, Message>
  {
    if os == [] then ms
    else MessagesOne(MessagesAll(ms, now, slaMs, os[..|os| - 1]), now, slaMs, os[|os| - 1])
  }

  function QueueAll(q: map<Id, QueueRow>, ms: map<Id, Message>, now: Time, os: seq<Outcome>): map<Id, QueueRow>
  {
    if os == [] then q
    else QueueOne(QueueAll(q, ms, now, os[..|os| - 1]), now, os[|os| - 1], Applies(ms, os[|os| - 1]))
  }

  function RefundsFor(ms: map<Id, Message>, os: seq<Outcome>): seq<Refund>
  {
    if os == [] then [] else RefundsFor(ms, os[..|os| - 1]) + RefundFor(ms, os[|os| - 1])
  }

  /** The outcomes whose rows the batch changes. */
  function Taken(ms: map<Id, Message>, os: seq<Outcome>): seq<Outcome> { Filter(TakenBy(ms), os) }

  function TakenBy(ms: map<Id, Message>): Outcome -> bool { (o: Outcome) => Takes(ms, o) }

  predicate Takes(ms: map<Id, Message>, o: Outcome) { o.kind.OutcomeDeferred? || Applies(ms, o) }

  lemma {:induction false} MessagesAllFrame(ms: map<Id, Message>, now: Time, slaMs: int, os: seq<Outcome>, id: Id)
    requires forall o | o in os :: o.job.id != id
    ensures Lookup(MessagesAll(ms, now, slaMs, os), id) == Lookup(ms, id)
  {
    if os != [] {
      MessagesAllFrame(ms, now, slaMs, os[..|os| - 1], id);
    }
  }

  lemma {:induction false} QueueAllFrame(q: map<Id, QueueRow>, ms: map<Id, Message>, now: Time, os: seq<Outcome>, id: Id)
    requires forall o | o in os :: o.job.id != id
    ensures Lookup(QueueAll(q, ms, now, os), id) == Lookup(q, id)
  {
    if os != [] {
      QueueAllFrame(q, ms, now, os[..|os| - 1], id);
    }
  }

  lemma LastIsFresh(os: seq<Outcome>)
    requires os != [] && DistinctMessages(os)
    ensures DistinctMessages(os[..|os| - 1])
    ensures forall o | o in os[..|os| - 1] :: o.job.id != os[|os| - 1].job.id
  {
  }

  /** Committing owned outcomes one at a time is the same as table by table. */
  lemma {:induction false} TableByTable(db: Db, now: Time, slaMs: int, w: WorkerId, os: seq<Outcome>)
    requires DistinctMessages(os) && AllOwned(db, w, os)
    ensures CompleteAll(db, now, slaMs, w, os) ==
            RefundAll(db, now, RefundsFor(db.messages, os)).(
              messages := MessagesAll(db.messages, now, slaMs, os),
              queue := QueueAll(db.queue, db.messages, now, os))
  {
    if os != [] {
      var init, o := os[..|os| - 1], os[|os| - 1];
      LastIsFresh(os);
      TableByTable(db, now, slaMs, w, init);
      TableByTableNext(db, now, slaMs, w, init, o);
    }
  }

  lemma TableByTableNext(db: Db, now: Time, slaMs: int, w: WorkerId, init: seq<Outcome>, o: Outcome)
    requires Owned(db, w, o) && forall p | p in init :: p.job.id != o.job.id
    ensures CompleteOne(
              RefundAll(db, now, RefundsFor(db.messages, init)).(
                messages := MessagesAll(db.messages, now, slaMs, init),
                queue := QueueAll(db.queue, db.messages, now, init)), now, slaMs, w, o) ==
            RefundAll(db, now, RefundsFor(db.messages, init) + RefundFor(db.messages, o)).(
              messages := MessagesOne(MessagesAll(db.messages, now, slaMs, init), now, slaMs, o),
              queue := QueueOne(QueueAll(db.queue, db.messages, now, init), now, o, Applies(db.messages, o)))
  {
    var ledger := RefundAll(db, now, RefundsFor(db.messages, init));
    var mid := ledger.(messages := MessagesAll(db.messages, now, slaMs, init),
                       queue := QueueAll(db.queue, db.messages, now, init));
    MessagesAllFrame(db.messages, now, slaMs, init, o.job.id);
    QueueAllFrame(db.queue, db.messages, now, init, o.job.id);
    assert Owned(mid, w, o) by { assert Lookup(mid.queue, o.job.id) == Lookup(db.queue, o.job.id); }
    assert Applies(mid.messages, o) == Applies(db.messages, o);
    CompleteOneParts(mid, now, slaMs, w, o);
    FoldConcat(Refunding(now), db, RefundsFor(db.messages, init), RefundFor(db.messages, o));
    RefundAllFrame(db, now, RefundsFor(db.messages, init));
    if EndsMessage(o) && Applies(db.messages, o) {
      FoldOne(Refunding(now), ledger, RefundFor(db.messages, o)[0]);
    }
  }

  // ---------------------------------------------------------------------------
  // Recognising the result of statements that do not run in batch order

  ghost function Targets(os: seq<Outcome>): set<Id> { set o | o in os :: o.job.id }

  lemma {:induction false} QueueAllAt(q: map<Id, QueueRow>, ms: map<Id, Message>, now: Time, os: seq<Outcome>, i: nat)
    requires DistinctMessages(os) && i < |os|
    ensures Lookup(QueueAll(q, ms, now, os), os[i].job.id) ==
            Lookup(QueueOne(q, now, os[i], Applies(ms, os[i])), os[i].job.id)
  {
    var n := |os| - 1;
    LastIsFresh(os);
    if i == n {
      QueueAllFrame(q, ms, now, os[..n], os[n].job.id);
    } else {
      QueueAllAt(q, ms, now, os[..n], i);
    }
  }

  lemma QueueAllIs(q: map<Id, QueueRow>, ms: map<Id, Message>, now: Time, os: seq<Outcome>, q': map<Id, QueueRow>)
    requires DistinctMessages(os)
    requires forall o | o in os :: Lookup(q', o.job.id) == Lookup(QueueOne(q, now, o, Applies(ms, o)), o.job.id)
    requires forall id | id !in Targets(os) :: Lookup(q', id) == Lookup(q, id)
    ensures q' == QueueAll(q, ms, now, os)
  {
    var r := QueueAll(q, ms, now, os);
    forall id ensures Lookup(q', id) == Lookup(r, id) {
      if id in Targets(os) {
        var i :| 0 <= i < |os| && os[i].job.id == id;
        QueueAllAt(q, ms, now, os, i);
      } else {
        QueueAllFrame(q, ms, now, os, id);
      }
    }
    SameLookups(q', r);
  }

  function Among(ids: set<Id>): Outcome -> bool { (o: Outcome) => o.job.id in ids }

  /** The outcomes of a batch that pass the fence. */
  function OwnedOnly(db: Db, w: WorkerId, os: seq<Outcome>): seq<Outcome> { Filter(OwnedBy(db, w), os) }

  function OwnedBy(db: Db, w: WorkerId): Outcome -> bool { (o: Outcome) => Owned(db, w, o) }

  function AmountOf(rs: seq<Refund>): int
  {
    if rs == [] then 0 else AmountOf(rs[..|rs| - 1]) + rs[|rs| - 1].amount
  }

  ghost predicate Released(before: map<Id, QueueRow>, after: map<Id, QueueRow>, w: WorkerId, now: Time,
                           os: seq<Outcome>, which: set<Id>)
  {
    && (forall o | o in os && o.job.id in which && o.job.id in before ::
          Lookup(after, o.job.id) ==
          Some(before[o.job.id].(owner := None, nextAttemptAt := now + o.delayMs * MILLISECOND)))
    && (forall id | id !in Targets(os) || id !in which :: Lookup(after, id) == Lookup(before, id))
  }

  lemma AllListed(os: seq<Outcome>, ids: seq<Id>)
    requires |ids| == |os| && forall i | 0 <= i < |ids| :: ids[i] == os[i].job.id
    ensures forall o | o in os :: o.job.id in ids
  {
    forall o | o in os ensures o.job.id in ids {
      var i :| 0 <= i < |os| && os[i] == o;
      assert ids[i] in ids;
    }
  }

  lemma {:induction false} NoRefunds(ms: map<Id, Message>, os: seq<Outcome>)
    requires forall o | o in os :: !EndsMessage(o)
    ensures RefundsFor(ms, os) == []
  {
    if os != [] {
      NoRefunds(ms, os[..|os| - 1]);
    }
  }

  lemma {:induction false} NothingApplies(ms: map<Id, Message>, now: Time, slaMs: int, os: seq<Outcome>)
    requires forall o | o in os :: o.kind.OutcomeDeferred?
    ensures MessagesAll(ms, now, slaMs, os) == ms
  {
    if os != [] {
      NothingApplies(ms, now, slaMs, os[..|os| - 1]);
    }
  }

  /** No completion changes who pays, or how much. */
  lemma {:induction false} MessagesAllKeepsBill(ms: map<Id, Message>, now: Time, slaMs: int, os: seq<Outcome>)
    ensures MessagesAll(ms, now, slaMs, os).Keys == ms.Keys
    ensures forall id | id in ms :: MessagesAll(ms, now, slaMs, os)[id].customer == ms[id].customer
                                 && MessagesAll(ms, now, slaMs, os)[id].cost == ms[id].cost
  {
    if os != [] {
      MessagesAllKeepsBill(ms, now, slaMs, os[..|os| - 1]);
    }
  }

  lemma {:induction false} RefundsAreLinked(db: Db, os: seq<Outcome>)
    requires ForeignKeys(db)
    ensures RefundsLinked(db, RefundsFor(db.messages, os))
  {
    if os != [] {
      RefundsAreLinked(db, os[..|os| - 1]);
    }
  }

  // ---------------------------------------------------------------------------
  // Credits given back by a batch

  function GivingBack(ms: map<Id, Message>): (int, Outcome) -> int
  {
    (n: int, o: Outcome) => n + if EndsMessage(o) && Applies(ms, o) then ms[o.job.id].cost else 0
  }

  /** The cost of every message the batch ends. */
  function GivenBack(ms: map<Id, Message>, os: seq<Outcome>): int { Fold(GivingBack(ms), 0, os) }

  lemma {:induction false} AmountOfConcat(xs: seq<Refund>, ys: seq<Refund>)
    ensures AmountOf(xs + ys) == AmountOf(xs) + AmountOf(ys)
  {
    if ys == [] {
      assert xs + ys == xs;
    } else {
      assert (xs + ys)[..|xs + ys| - 1] == xs + ys[..|ys| - 1];
      AmountOfConcat(xs, ys[..|ys| - 1]);
    }
  }

  lemma {:induction false} AmountIsGivenBack(ms: map<Id, Message>, os: seq<Outcome>)
    ensures AmountOf(RefundsFor(ms, os)) == GivenBack(ms, os)
  {
    if os != [] {
      AmountIsGivenBack(ms, os[..|os| - 1]);
      AmountOfConcat(RefundsFor(ms, os[..|os| - 1]), RefundFor(ms, os[|os| - 1]));
      assert RefundFor(ms, os[|os| - 1])[..0] == [];
    }
  }

  lemma GivenBackOrder(ms: map<Id, Message>, os: seq<Outcome>, os': seq<Outcome>)
    requires multiset(os) == multiset(os')
    ensures GivenBack(ms, os) == GivenBack(ms, os')
  {
    FoldPermutation(GivingBack(ms), 0, os, os');
  }

  // ---------------------------------------------------------------------------
  // The fence

  lemma {:induction false} CompleteAllKeepsFence(db: Db, now: Time, slaMs: int, w: WorkerId, os: seq<Outcome>, o: Outcome)
    requires forall p | p in os :: KeyOf(p.job) != KeyOf(o.job)
    ensures Owned(CompleteAll(db, now, slaMs, w, os), w, o) == Owned(db, w, o)
  {
    if os != [] {
      CompleteAllKeepsFence(db, now, slaMs, w, os[..|os| - 1], o);
      CompleteOneKeepsFence(CompleteAll(db, now, slaMs, w, os[..|os| - 1]), now, slaMs, w, os[|os| - 1], o);
    }
  }

  /** Outcomes that fail the fence change nothing, wherever they stand in the batch. */
  lemma {:induction false} FencedOutcomesChangeNothing(db: Db, now: Time, slaMs: int, w: WorkerId, os: seq<Outcome>)
    requires DistinctJobs(os)
    ensures CompleteAll(db, now, slaMs, w, os) == CompleteAll(db, now, slaMs, w, OwnedOnly(db, w, os))
  {
    if os != [] {
      var init, o := os[..|os| - 1], os[|os| - 1];
      FencedOutcomesChangeNothing(db, now, slaMs, w, init);
      forall p | p in init ensures KeyOf(p.job) != KeyOf(o.job) {
        var i :| 0 <= i < |init| && os[i] == p;
        assert JobOf(os[i]) != JobOf(os[|os| - 1]);
      }
      CompleteAllKeepsFence(db, now, slaMs, w, init, o);
      var kept := OwnedOnly(db, w, init);
      assert CompleteAll(db, now, slaMs, w, os) ==
             CompleteOne(CompleteAll(db, now, slaMs, w, init), now, slaMs, w, o);
      assert OwnedOnly(db, w, os) == kept + (if Owned(db, w, o) then [o] else []);
      if Owned(db, w, o) {
        FoldConcat(Completing(now, slaMs, w), db, kept, [o]);
        FoldOne(Completing(now, slaMs, w), CompleteAll(db, now, slaMs, w, kept), o);
      } else {
        assert kept + [] == kept;
      }
    }
  }

  /** Owned outcomes of distinct jobs are for distinct messages. */
  lemma OwnedAreDistinct(db: Db, w: WorkerId, os: seq<Outcome>)
    requires DistinctJobs(os)
    ensures DistinctMessages(OwnedOnly(db, w, os)) && AllOwned(db, w, OwnedOnly(db, w, os))
  {
    FilterDistinct(JobOf, OwnedBy(db, w), os);
    var owned := OwnedOnly(db, w, os);
    forall o | o in owned ensures Owned(db, w, o) {
      FilterElement(OwnedBy(db, w), os, o);
    }
    forall i, j | 0 <= i < j < |owned| ensures MessageOf(owned[i]) != MessageOf(owned[j]) {
      assert JobOf(owned[i]) != JobOf(owned[j]);
      assert Owned(db, w, owned[i]) && Owned(db, w, owned[j]);
    }
  }

  // ---------------------------------------------------------------------------
  // One group after another

  lemma CompleteOneKeepsForeignKeys(db: Db, now: Time, slaMs: int, w: WorkerId, o: Outcome)
    requires ForeignKeys(db)
    ensures ForeignKeys(CompleteOne(db, now, slaMs, w, o))
  {
    if Owned(db, w, o) {
      CompleteOneParts(db, now, slaMs, w, o);
    }
  }

  lemma {:induction false} CompleteAllKeepsForeignKeys(db: Db, now: Time, slaMs: int, w: WorkerId, os: seq<Outcome>)
    requires ForeignKeys(db)
    ensures ForeignKeys(CompleteAll(db, now, slaMs, w, os))
  {
    if os != [] {
      CompleteAllKeepsForeignKeys(db, now, slaMs, w, os[..|os| - 1]);
      CompleteOneKeepsForeignKeys(CompleteAll(db, now, slaMs, w, os[..|os| - 1]), now, slaMs, w, os[|os| - 1]);
    }
  }

  lemma {:induction false} CompleteAllFrame(db: Db, now: Time, slaMs: int, w: WorkerId, os: seq<Outcome>, id: Id)
    requires forall o | o in os :: o.job.id != id
    ensures Lookup(CompleteAll(db, now, slaMs, w, os).messages, id) == Lookup(db.messages, id)
  {
    if os != [] {
      CompleteAllFrame(db, now, slaMs, w, os[..|os| - 1], id);
      CompleteOneFrame(CompleteAll(db, now, slaMs, w, os[..|os| - 1]), now, slaMs, w, os[|os| - 1]);
    }
  }

  lemma ApartFrom(done: seq<Outcome>, next: seq<Outcome>, o: Outcome)
    requires DistinctMessages(done + next) && o in next
    ensures forall p | p in done :: p.job.id != o.job.id
  {
    var j :| 0 <= j < |next| && next[j] == o;
    forall p | p in done ensures p.job.id != o.job.id {
      var i :| 0 <= i < |done| && done[i] == p;
      assert MessageOf((done + next)[i]) != MessageOf((done + next)[|done| + j]);
    }
  }

  /** After some outcomes, the others are still owned and see the messages they saw before. */
  lemma NextGroup(db: Db, now: Time, slaMs: int, w: WorkerId, done: seq<Outcome>, next: seq<Outcome>)
    requires DistinctMessages(done + next) && AllOwned(db, w, next)
    ensures DistinctMessages(next) && AllOwned(CompleteAll(db, now, slaMs, w, done), w, next)
    ensures forall o | o in next ::
              Lookup(CompleteAll(db, now, slaMs, w, done).messages, o.job.id) == Lookup(db.messages, o.job.id)
  {
    forall i, j | 0 <= i < j < |next| ensures MessageOf(next[i]) != MessageOf(next[j]) {
      assert MessageOf((done + next)[|done| + i]) != MessageOf((done + next)[|done| + j]);
    }
    forall o | o in next
      ensures Owned(CompleteAll(db, now, slaMs, w, done), w, o)
      ensures Lookup(CompleteAll(db, now, slaMs, w, done).messages, o.job.id) == Lookup(db.messages, o.job.id)
    {
      ApartFrom(done, next, o);
      CompleteAllKeepsFence(db, now, slaMs, w, done, o);
      CompleteAllFrame(db, now, slaMs, w, done, o.job.id);
    }
  }

  lemma SameRowSameEffect(ms: map<Id, Message>, ms': map<Id, Message>, o: Outcome)
    requires Lookup(ms, o.job.id) == Lookup(ms', o.job.id)
    ensures Applies(ms, o) == Applies(ms', o) && RefundFor(ms, o) == RefundFor(ms', o)
  {
  }

  lemma {:induction false} SameRowsSameEffect(ms: map<Id, Message>, ms': map<Id, Message>, os: seq<Outcome>)
    requires forall o | o in os :: Lookup(ms, o.job.id) == Lookup(ms', o.job.id)
    ensures Taken(ms, os) == Taken(ms', os) && RefundsFor(ms, os) == RefundsFor(ms', os)
  {
    if os != [] {
      SameRowsSameEffect(ms, ms', os[..|os| - 1]);
      SameRowSameEffect(ms, ms', os[|os| - 1]);
    }
  }

  lemma {:induction false} RefundsForConcat(ms: map<Id, Message>, xs: seq<Outcome>, ys: seq<Outcome>)
    ensures RefundsFor(ms, xs + ys) == RefundsFor(ms, xs) + RefundsFor(ms, ys)
  {
    if ys == [] {
      assert xs + ys == xs;
    } else {
      assert (xs + ys)[..|xs + ys| - 1] == xs + ys[..|ys| - 1];
      RefundsForConcat(ms, xs, ys[..|ys| - 1]);
    }
  }

  /** The effects of a group add to those of the groups before it. */
  lemma GroupsAdd(db: Db, now: Time, slaMs: int, w: WorkerId, done: seq<Outcome>, next: seq<Outcome>)
    requires DistinctMessages(done + next) && AllOwned(db, w, next)
    ensures var mid := CompleteAll(db, now, slaMs, w, done);
            && CompleteAll(mid, now, slaMs, w, next) == CompleteAll(db, now, slaMs, w, done + next)
            && Taken(db.messages, done + next) == Taken(db.messages, done) + Taken(mid.messages, next)
            && RefundsFor(db.messages, done + next) == RefundsFor(db.messages, done) + RefundsFor(mid.messages, next)
  {
    FoldConcat(Completing(now, slaMs, w), db, done, next);
    NextGroup(db, now, slaMs, w, done, next);
    SameRowsSameEffect(CompleteAll(db, now, slaMs, w, done).messages, db.messages, next);
    FilterConcat(TakenBy(db.messages), done, next);
    RefundsForConcat(db.messages, done, next);
  }
}
