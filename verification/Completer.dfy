/** The completer: batches of outcomes committed group by group (internal/dispatch/completer.go). */
module Completers {
  import opened Tables
  import opened Folds
  import opened Billing
  import opened Completion
  import opened Batches
  import Sorting

  class Completer {
    const id: WorkerId
    const slaMs: int
    var refunded: int
    var applied: seq<Outcome>

    constructor (id: WorkerId, slaMs: int)
      ensures this.id == id && this.slaMs == slaMs && refunded == 0 && applied == []
    {
      this.id, this.slaMs, refunded, applied := id, slaMs, 0, [];
    }

    /** One UPDATE of messages over a group: every row is read as it was before the statement.
        Returns the IDs of the rows that changed. */
    method UpdateMessages(tx: Session, outcomes: seq<Outcome>) returns (changed: seq<Id>)
      requires DistinctMessages(outcomes)
      modifies tx
      ensures tx.db == old(tx.db).(messages := MessagesAll(old(tx.db).messages, tx.now, slaMs, outcomes))
      ensures forall o | o in outcomes :: o.job.id in changed <==> Applies(old(tx.db).messages, o)
      ensures forall id | id in changed :: id in Targets(outcomes)
    {
      var before := tx.db.messages;
      changed := [];
      for i := 0 to |outcomes|
        invariant tx.db == old(tx.db).(messages := MessagesAll(before, tx.now, slaMs, outcomes[..i]))
        invariant forall o | o in outcomes[..i] :: o.job.id in changed <==> Applies(before, o)
        invariant forall id | id in changed :: id in Targets(outcomes[..i])
      {
        var o := outcomes[i];
        assert outcomes[..i + 1][..i] == outcomes[..i];
        assert Lookup(tx.db.messages, o.job.id) == Lookup(before, o.job.id) by {
          assert forall p | p in outcomes[..i] :: p.job.id != o.job.id;
          MessagesAllFrame(before, tx.now, slaMs, outcomes[..i], o.job.id);
        }
        if Applies(before, o) {
          tx.db := tx.db.(messages :=
            tx.db.messages[o.job.id := CompletedMessage(before[o.job.id], tx.now, slaMs, o)]);
          changed := changed + [o.job.id];
        }
      }
      assert outcomes[..|outcomes|] == outcomes;
    }

    method DeleteQueueRows(tx: Session, ids: seq<Id>)
      modifies tx
      ensures tx.db == old(tx.db).(queue := tx.db.queue)
      ensures forall k :: Lookup(tx.db.queue, k) ==
                if k in ids && k in old(tx.db).queue && old(tx.db).queue[k].owner == Some(id) then None
                else Lookup(old(tx.db).queue, k)
    {
      var gone := set k | k in tx.db.queue && k in ids && tx.db.queue[k].owner == Some(id);
      tx.db := tx.db.(queue := tx.db.queue - gone);
    }

    /** Keeps the outcomes whose rows the transaction changed. */
    method RecordApplied(outcomes: seq<Outcome>, ids: seq<Id>)
      requires DistinctMessages(outcomes)
      modifies this`applied
      ensures applied == old(applied) + Filter(Among(set k | k in ids), outcomes)
    {
      var all := set k | k in ids;
      var changed := all;
      for i := 0 to |outcomes|
        invariant applied == old(applied) + Filter(Among(all), outcomes[..i])
        invariant forall j | i <= j < |outcomes| :: outcomes[j].job.id in changed <==> outcomes[j].job.id in all
      {
        FilterSnoc(Among(all), outcomes, i);
        if outcomes[i].job.id in changed {
          applied := applied + [outcomes[i]];
          changed := changed - {outcomes[i].job.id};
        }
      }
      assert outcomes[..|outcomes|] == outcomes;
    }

    method CommitSent(tx: Session, outcomes: seq<Outcome>)
      requires DistinctMessages(outcomes) && AllOwned(tx.db, id, outcomes)
      requires forall o | o in outcomes :: o.kind.OutcomeSent?
      modifies this, tx
      ensures tx.db == CompleteAll(old(tx.db), tx.now, slaMs, id, outcomes)
      ensures applied == old(applied) + Taken(old(tx.db).messages, outcomes) && refunded == old(refunded)
    {
      ghost var db0 := tx.db;
      var changed := UpdateMessages(tx, outcomes);
      RecordApplied(outcomes, changed);
      FilterAgrees(Among(set k | k in changed), TakenBy(db0.messages), outcomes);
      var ids := seq(|outcomes|, i requires 0 <= i < |outcomes| => outcomes[i].job.id);
      DeleteQueueRows(tx, ids);
      Dequeued(db0, tx.now, outcomes, ids, tx.db.queue);
      NoRefunds(db0.messages, outcomes);
      TableByTable(db0, tx.now, slaMs, id, outcomes);
    }

    lemma Dequeued(db: Db, now: Time, outcomes: seq<Outcome>, ids: seq<Id>, after: map<Id, QueueRow>)
      requires DistinctMessages(outcomes) && AllOwned(db, id, outcomes)
      requires forall o | o in outcomes :: o.kind.OutcomeSent? || EndsMessage(o)
      requires |ids| == |outcomes| && forall i | 0 <= i < |ids| :: ids[i] == outcomes[i].job.id
      requires forall k :: Lookup(after, k) ==
                 if k in ids && k in db.queue && db.queue[k].owner == Some(id) then None else Lookup(db.queue, k)
      ensures after == QueueAll(db.queue, db.messages, now, outcomes)
    {
      forall o | o in outcomes
        ensures Lookup(after, o.job.id) == Lookup(QueueOne(db.queue, now, o, Applies(db.messages, o)), o.job.id)
      {
        var i :| 0 <= i < |outcomes| && outcomes[i] == o;
        assert ids[i] in ids;
      }
      QueueAllIs(db.queue, db.messages, now, outcomes, after);
    }

    method CommitRetry(tx: Session, outcomes: seq<Outcome>)
      requires DistinctMessages(outcomes) && AllOwned(tx.db, id, outcomes)
      requires forall o | o in outcomes :: o.kind.OutcomeRetry?
      modifies this, tx
      ensures tx.db == CompleteAll(old(tx.db), tx.now, slaMs, id, outcomes)
      ensures applied == old(applied) + Taken(old(tx.db).messages, outcomes) && refunded == old(refunded)
    {
      ghost var db0 := tx.db;
      var pending := UpdateMessages(tx, outcomes);
      RecordApplied(outcomes, pending);
      FilterAgrees(Among(set k | k in pending), TakenBy(db0.messages), outcomes);
      ReleaseRows(tx, outcomes, set k | k in pending);
      ghost var released := tx.db.queue;
      var finished := Finished(outcomes, pending);
      DeleteQueueRows(tx, finished);
      Retried(db0, tx.now, outcomes, pending, finished, released, tx.db.queue);
      NoRefunds(db0.messages, outcomes);
      TableByTable(db0, tx.now, slaMs, id, outcomes);
    }

    /** The messages of a retry group that are no longer pending. */
    method Finished(outcomes: seq<Outcome>, pending: seq<Id>) returns (finished: seq<Id>)
      ensures forall k :: k in finished <==> k in Targets(outcomes) && k !in pending
    {
      finished := [];
      for i := 0 to |outcomes|
        invariant forall k :: k in finished <==> k in Targets(outcomes[..i]) && k !in pending
      {
        if outcomes[i].job.id !in pending {
          finished := finished + [outcomes[i].job.id];
        }
      }
      assert outcomes[..|outcomes|] == outcomes;
    }

    lemma Retried(db: Db, now: Time, outcomes: seq<Outcome>, pending: seq<Id>, finished: seq<Id>,
                  released: map<Id, QueueRow>, after: map<Id, QueueRow>)
      requires DistinctMessages(outcomes) && AllOwned(db, id, outcomes)
      requires forall o | o in outcomes :: o.kind.OutcomeRetry?
      requires forall o | o in outcomes :: o.job.id in pending <==> Applies(db.messages, o)
      requires forall k :: k in finished <==> k in Targets(outcomes) && k !in pending
      requires Released(db.queue, released, id, now, outcomes, set k | k in pending)
      requires forall k :: Lookup(after, k) ==
                 if k in finished && k in released && released[k].owner == Some(id) then None else Lookup(released, k)
      ensures after == QueueAll(db.queue, db.messages, now, outcomes)
    {
      forall o | o in outcomes
        ensures Lookup(after, o.job.id) == Lookup(QueueOne(db.queue, now, o, Applies(db.messages, o)), o.job.id)
      {
        assert Owned(db, id, o);
        if !Applies(db.messages, o) {
          assert Lookup(released, o.job.id) == Lookup(db.queue, o.job.id);
        }
      }
      QueueAllIs(db.queue, db.messages, now, outcomes, after);
    }

    method CommitDeferred(tx: Session, outcomes: seq<Outcome>)
      requires DistinctMessages(outcomes) && AllOwned(tx.db, id, outcomes)
      requires forall o | o in outcomes :: o.kind.OutcomeDeferred?
      modifies this, tx
      ensures tx.db == CompleteAll(old(tx.db), tx.now, slaMs, id, outcomes)
      ensures applied == old(applied) + Taken(old(tx.db).messages, outcomes) && refunded == old(refunded)
    {
      ghost var db0 := tx.db;
      var ids := seq(|outcomes|, i requires 0 <= i < |outcomes| => outcomes[i].job.id);
      AllListed(outcomes, ids);
      ReleaseRows(tx, outcomes, set k | k in ids);
      RecordApplied(outcomes, ids);
      FilterAgrees(Among(set k | k in ids), TakenBy(db0.messages), outcomes);
      Deferred(db0, tx.now, outcomes, (set k | k in ids), tx.db.queue);
    }

    lemma Deferred(db: Db, now: Time, outcomes: seq<Outcome>, which: set<Id>, after: map<Id, QueueRow>)
      requires DistinctMessages(outcomes) && AllOwned(db, id, outcomes)
      requires forall o | o in outcomes :: o.kind.OutcomeDeferred? && o.job.id in which
      requires Released(db.queue, after, id, now, outcomes, which)
      ensures db.(queue := after) == CompleteAll(db, now, slaMs, id, outcomes)
    {
      assert after == QueueAll(db.queue, db.messages, now, outcomes) by {
        QueueAllIs(db.queue, db.messages, now, outcomes, after);
      }
      NothingApplies(db.messages, now, slaMs, outcomes);
      NoRefunds(db.messages, outcomes);
      TableByTable(db, now, slaMs, id, outcomes);
    }

    /** UPDATE queue SET lease_owner = NULL, next_attempt_at = now() + delay, for the rows in `which`. */
    method ReleaseRows(tx: Session, outcomes: seq<Outcome>, which: set<Id>)
      requires DistinctMessages(outcomes)
      requires AllOwned(tx.db, id, outcomes)
      modifies tx
      ensures tx.db == old(tx.db).(queue := tx.db.queue)
      ensures Released(old(tx.db).queue, tx.db.queue, id, tx.now, outcomes, which)
    {
      for i := 0 to |outcomes|
        invariant tx.db == old(tx.db).(queue := tx.db.queue)
        invariant Released(old(tx.db).queue, tx.db.queue, id, tx.now, outcomes[..i], which)
      {
        var o := outcomes[i];
        assert Owned(old(tx.db), id, o);
        assert o.job.id !in Targets(outcomes[..i]);
        assert Lookup(tx.db.queue, o.job.id) == Lookup(old(tx.db).queue, o.job.id);
        if o.job.id in which && o.job.id in tx.db.queue && tx.db.queue[o.job.id].owner == Some(id) {
          tx.db := tx.db.(queue := tx.db.queue[o.job.id :=
            tx.db.queue[o.job.id].(owner := None, nextAttemptAt := tx.now + o.delayMs * MILLISECOND)]);
        }
      }
      assert outcomes[..|outcomes|] == outcomes;
    }

    /** The rows returned by the UPDATE that ends messages. */
    method ReturnedRefunds(ghost before: map<Id, Message>, ghost now: Time, after: map<Id, Message>,
                           outcomes: seq<Outcome>, changed: seq<Id>) returns (refunds: seq<Refund>)
      requires after == MessagesAll(before, now, slaMs, outcomes)
      requires forall o | o in outcomes :: EndsMessage(o)
      requires forall o | o in outcomes :: o.job.id in changed <==> Applies(before, o)
      ensures refunds == RefundsFor(before, outcomes)
    {
      MessagesAllKeepsBill(before, now, slaMs, outcomes);
      refunds := [];
      for i := 0 to |outcomes|
        invariant refunds == RefundsFor(before, outcomes[..i])
      {
        assert outcomes[..i + 1][..i] == outcomes[..i];
        var o := outcomes[i];
        assert o in outcomes;
        if o.job.id in changed {
          refunds := refunds + [Refund(after[o.job.id].customer, o.job.id, after[o.job.id].cost)];
        }
      }
      assert outcomes[..|outcomes|] == outcomes;
    }

    /** Ends the messages still accepted and refunds exactly those. */
    method EndAndRefund(tx: Session, outcomes: seq<Outcome>) returns (changed: seq<Id>, refunds: seq<Refund>)
      requires DistinctMessages(outcomes) && ForeignKeys(tx.db)
      requires forall o | o in outcomes :: EndsMessage(o)
      modifies tx
      ensures refunds == RefundsFor(old(tx.db).messages, outcomes)
      ensures tx.db == RefundAll(old(tx.db), tx.now, refunds).(
                         messages := MessagesAll(old(tx.db).messages, tx.now, slaMs, outcomes))
      ensures tx.db.queue == old(tx.db).queue
      ensures forall o | o in outcomes :: o.job.id in changed <==> Applies(old(tx.db).messages, o)
    {
      ghost var db0 := tx.db;
      changed := UpdateMessages(tx, outcomes);
      refunds := ReturnedRefunds(db0.messages, tx.now, tx.db.messages, outcomes, changed);
      ghost var updated := tx.db;
      MessagesAllKeepsBill(db0.messages, tx.now, slaMs, outcomes);
      RefundsAreLinked(db0, outcomes);
      ApplyRefunds(tx, refunds);
      RefundAllOnTables(db0, updated, tx.now, refunds);
      RefundAllFrame(db0, tx.now, refunds);
    }

    method CountRefunds(refunds: seq<Refund>)
      modifies this`refunded
      ensures refunded == old(refunded) + AmountOf(refunds)
    {
      for i := 0 to |refunds|
        invariant refunded == old(refunded) + AmountOf(refunds[..i])
      {
        assert refunds[..i + 1][..i] == refunds[..i];
        refunded := refunded + refunds[i].amount;
      }
      assert refunds[..|refunds|] == refunds;
    }

    method CommitTerminal(tx: Session, outcomes: seq<Outcome>)
      requires DistinctMessages(outcomes) && AllOwned(tx.db, id, outcomes) && ForeignKeys(tx.db)
      requires forall o | o in outcomes :: EndsMessage(o)
      modifies this, tx
      ensures tx.db == CompleteAll(old(tx.db), tx.now, slaMs, id, outcomes)
      ensures applied == old(applied) + Taken(old(tx.db).messages, outcomes)
      ensures refunded == old(refunded) + AmountOf(RefundsFor(old(tx.db).messages, outcomes))
    {
      ghost var db0 := tx.db;
      var changed, refunds := EndAndRefund(tx, outcomes);
      CountRefunds(refunds);
      RecordApplied(outcomes, changed);
      FilterAgrees(Among(set k | k in changed), TakenBy(db0.messages), outcomes);
      var ids := seq(|outcomes|, i requires 0 <= i < |outcomes| => outcomes[i].job.id);
      DeleteQueueRows(tx, ids);
      Dequeued(db0, tx.now, outcomes, ids, tx.db.queue);
      TableByTable(db0, tx.now, slaMs, id, outcomes);
    }

    /** Locks the queue rows whose owner and generation still match, and keeps their outcomes. */
    method LockOwned(tx: Session, batch: seq<Outcome>) returns (owned: seq<Outcome>)
      ensures owned == OwnedOnly(tx.db, id, batch)
    {
      var current: map<Id, int> := map[];
      for i := 0 to |batch|
        invariant forall k | k in current :: k in tx.db.queue && tx.db.queue[k].owner == Some(id)
                                          && tx.db.queue[k].version == current[k]
        invariant forall o | o in batch[..i] && Owned(tx.db, id, o) :: o.job.id in current
      {
        var o := batch[i];
        if o.job.id in tx.db.queue && tx.db.queue[o.job.id].version == o.job.version
           && tx.db.queue[o.job.id].owner == Some(id) {
          current := current[o.job.id := tx.db.queue[o.job.id].version];
        }
      }
      owned := [];
      for i := 0 to |batch|
        invariant owned == OwnedOnly(tx.db, id, batch[..i])
      {
        FilterSnoc(OwnedBy(tx.db, id), batch, i);
        var o := batch[i];
        assert o in batch[..|batch|];
        if o.job.id in current && current[o.job.id] == o.job.version {
          owned := owned + [o];
        }
      }
      assert batch[..|batch|] == batch;
    }

    method Group(owned: seq<Outcome>)
      returns (sent: seq<Outcome>, retry: seq<Outcome>, deferred: seq<Outcome>, terminal: seq<Outcome>)
      ensures multiset(sent + retry + deferred + terminal) == multiset(owned)
      ensures (forall o | o in sent :: o.kind.OutcomeSent?) && (forall o | o in retry :: o.kind.OutcomeRetry?)
      ensures (forall o | o in deferred :: o.kind.OutcomeDeferred?) && (forall o | o in terminal :: EndsMessage(o))
    {
      sent, retry, deferred, terminal := [], [], [], [];
      for i := 0 to |owned|
        invariant sent == Filter(IsSent, owned[..i]) && retry == Filter(IsRetry, owned[..i])
        invariant deferred == Filter(IsDeferred, owned[..i]) && terminal == Filter(EndsMessage, owned[..i])
      {
        var o := owned[i];
        assert owned[..i + 1][..i] == owned[..i];
        match o.kind {
          case OutcomeSent => sent := sent + [o];
          case OutcomeRetry => retry := retry + [o];
          case OutcomeDeferred => deferred := deferred + [o];
          case _ => terminal := terminal + [o];
        }
      }
      assert owned[..|owned|] == owned;
      KindsPartition(owned);
      OfKind(IsSent, owned);
      OfKind(IsRetry, owned);
      OfKind(IsDeferred, owned);
      OfKind(EndsMessage, owned);
    }

    /** The groups of a batch, in the order they are committed. */
    method CommitGroups(tx: Session, sent: seq<Outcome>, retry: seq<Outcome>, deferred: seq<Outcome>,
                        terminal: seq<Outcome>)
      requires DistinctMessages(sent + retry + deferred + terminal) && ForeignKeys(tx.db)
      requires AllOwned(tx.db, id, sent + retry + deferred + terminal)
      requires (forall o | o in sent :: o.kind.OutcomeSent?) && (forall o | o in retry :: o.kind.OutcomeRetry?)
      requires (forall o | o in deferred :: o.kind.OutcomeDeferred?) && (forall o | o in terminal :: EndsMessage(o))
      modifies this, tx
      ensures tx.db == CompleteAll(old(tx.db), tx.now, slaMs, id, sent + retry + deferred + terminal)
      ensures applied == old(applied) + Taken(old(tx.db).messages, sent + retry + deferred + terminal)
      ensures refunded == old(refunded) + GivenBack(old(tx.db).messages, sent + retry + deferred + terminal)
    {
      ghost var db0 := tx.db;
      ghost var early := sent + retry + deferred;
      EarlyGroups(db0, sent, retry, deferred, terminal);
      CommitUncounted(tx, sent, retry, deferred);
      CommitLast(tx, db0, early, terminal);
    }

    /** The terminal outcomes, after the groups before them. */
    method CommitLast(tx: Session, ghost db0: Db, ghost early: seq<Outcome>, terminal: seq<Outcome>)
      requires DistinctMessages(early + terminal) && ForeignKeys(db0) && AllOwned(db0, id, terminal)
      requires (forall o | o in early :: !EndsMessage(o)) && (forall o | o in terminal :: EndsMessage(o))
      requires tx.db == CompleteAll(db0, tx.now, slaMs, id, early)
      modifies this, tx
      ensures tx.db == CompleteAll(db0, tx.now, slaMs, id, early + terminal)
      ensures applied == old(applied) + Taken(old(tx.db).messages, terminal)
      ensures Taken(db0.messages, early + terminal) == Taken(db0.messages, early) + Taken(old(tx.db).messages, terminal)
      ensures refunded == old(refunded) + GivenBack(db0.messages, early + terminal)
    {
      LastGroup(db0, tx.now, early, terminal);
      if terminal != [] {
        CommitTerminal(tx, terminal);
      }
    }

    lemma EarlyGroups(db: Db, sent: seq<Outcome>, retry: seq<Outcome>, deferred: seq<Outcome>, terminal: seq<Outcome>)
      requires DistinctMessages(sent + retry + deferred + terminal)
      requires AllOwned(db, id, sent + retry + deferred + terminal)
      requires (forall o | o in sent :: o.kind.OutcomeSent?) && (forall o | o in retry :: o.kind.OutcomeRetry?)
      requires forall o | o in deferred :: o.kind.OutcomeDeferred?
      ensures DistinctMessages(sent + retry + deferred) && AllOwned(db, id, sent + retry + deferred)
      ensures AllOwned(db, id, terminal)
      ensures forall o | o in sent + retry + deferred :: !EndsMessage(o)
    {
      DistinctPrefix(sent + retry + deferred, terminal);
    }

    lemma LastGroup(db: Db, now: Time, early: seq<Outcome>, terminal: seq<Outcome>)
      requires DistinctMessages(early + terminal) && ForeignKeys(db) && AllOwned(db, id, terminal)
      requires forall o | o in early :: !EndsMessage(o)
      ensures var mid := CompleteAll(db, now, slaMs, id, early);
              && ForeignKeys(mid) && DistinctMessages(terminal) && AllOwned(mid, id, terminal)
              && CompleteAll(mid, now, slaMs, id, terminal) == CompleteAll(db, now, slaMs, id, early + terminal)
              && Taken(db.messages, early + terminal) == Taken(db.messages, early) + Taken(mid.messages, terminal)
              && GivenBack(db.messages, early + terminal) == AmountOf(RefundsFor(mid.messages, terminal))
    {
      NextGroup(db, now, slaMs, id, early, terminal);
      GroupsAdd(db, now, slaMs, id, early, terminal);
      CompleteAllKeepsForeignKeys(db, now, slaMs, id, early);
      NoRefunds(db.messages, early);
      AmountIsGivenBack(db.messages, early + terminal);
      var mid := CompleteAll(db, now, slaMs, id, early);
      assert RefundsFor(db.messages, early + terminal) == RefundsFor(mid.messages, terminal);
    }

    method CommitUncounted(tx: Session, sent: seq<Outcome>, retry: seq<Outcome>, deferred: seq<Outcome>)
      requires DistinctMessages(sent + retry + deferred) && AllOwned(tx.db, id, sent + retry + deferred)
      requires (forall o | o in sent :: o.kind.OutcomeSent?) && (forall o | o in retry :: o.kind.OutcomeRetry?)
      requires forall o | o in deferred :: o.kind.OutcomeDeferred?
      modifies this, tx
      ensures tx.db == CompleteAll(old(tx.db), tx.now, slaMs, id, sent + retry + deferred)
      ensures applied == old(applied) + Taken(old(tx.db).messages, sent + retry + deferred)
      ensures refunded == old(refunded)
    {
      ghost var db0 := tx.db;
      DistinctPrefix(sent + retry, deferred);
      CommitSentAndRetry(tx, sent, retry);
      NextGroup(db0, tx.now, slaMs, id, sent + retry, deferred);
      GroupsAdd(db0, tx.now, slaMs, id, sent + retry, deferred);
      if deferred != [] {
        CommitDeferred(tx, deferred);
      }
    }

    method CommitSentAndRetry(tx: Session, sent: seq<Outcome>, retry: seq<Outcome>)
      requires DistinctMessages(sent + retry) && AllOwned(tx.db, id, sent + retry)
      requires (forall o | o in sent :: o.kind.OutcomeSent?) && (forall o | o in retry :: o.kind.OutcomeRetry?)
      modifies this, tx
      ensures tx.db == CompleteAll(old(tx.db), tx.now, slaMs, id, sent + retry)
      ensures applied == old(applied) + Taken(old(tx.db).messages, sent + retry)
      ensures refunded == old(refunded)
    {
      ghost var db0 := tx.db;
      DistinctPrefix(sent, retry);
      if sent != [] {
        CommitSent(tx, sent);
      }
      NextGroup(db0, tx.now, slaMs, id, sent, retry);
      GroupsAdd(db0, tx.now, slaMs, id, sent, retry);
      if retry != [] {
        CommitRetry(tx, retry);
      }
    }

    /**
     Commits a batch: sorts it, fences it, and applies it group by group. The
     tables end as if its outcomes had been committed one at a time, in the
     order of the batch (and so, by CompletionOrder, in any order). `applied`
     holds the outcomes whose rows changed and `refunded` grows by the costs
     of the messages the batch ended.
     */
    method Commit(tx: Session, batch: seq<Outcome>)
      requires DistinctJobs(batch) && ForeignKeys(tx.db)
      modifies this, tx
      ensures tx.db == CompleteAll(old(tx.db), tx.now, slaMs, id, batch)
      ensures multiset(applied) == multiset(Taken(old(tx.db).messages, OwnedOnly(old(tx.db), id, batch)))
      ensures refunded == old(refunded) + GivenBack(old(tx.db).messages, OwnedOnly(old(tx.db), id, batch))
    {
      ghost var db0 := tx.db;
      applied := [];
      var sorted := Sorting.SortById((o: Outcome) => o.job.id, batch);
      var owned := LockOwned(tx, sorted);
      var sent, retry, deferred, terminal := Group(owned);
      GroupsFit(db0, batch, sorted, sent + retry + deferred + terminal);
      CommitGroups(tx, sent, retry, deferred, terminal);
      GroupsMatch(db0, tx.now, batch, sorted, sent + retry + deferred + terminal);
    }

    lemma GroupsFit(db: Db, batch: seq<Outcome>, sorted: seq<Outcome>, groups: seq<Outcome>)
      requires DistinctJobs(batch) && multiset(sorted) == multiset(batch)
      requires multiset(groups) == multiset(OwnedOnly(db, id, sorted))
      ensures DistinctJobs(sorted) && DistinctMessages(groups) && AllOwned(db, id, groups)
    {
      DistinctPermutation(JobOf, batch, sorted);
      OwnedAreDistinct(db, id, sorted);
      DistinctPermutation(MessageOf, OwnedOnly(db, id, sorted), groups);
      SameElements(groups, OwnedOnly(db, id, sorted));
    }

    lemma GroupsMatch(db: Db, now: Time, batch: seq<Outcome>, sorted: seq<Outcome>, groups: seq<Outcome>)
      requires DistinctJobs(batch) && multiset(sorted) == multiset(batch)
      requires multiset(groups) == multiset(OwnedOnly(db, id, sorted))
      ensures CompleteAll(db, now, slaMs, id, groups) == CompleteAll(db, now, slaMs, id, batch)
      ensures multiset(Taken(db.messages, groups)) == multiset(Taken(db.messages, OwnedOnly(db, id, batch)))
      ensures GivenBack(db.messages, groups) == GivenBack(db.messages, OwnedOnly(db, id, batch))
    {
      var owned := OwnedOnly(db, id, sorted);
      DistinctPermutation(JobOf, batch, sorted);
      FilterDistinct(JobOf, OwnedBy(db, id), sorted);
      CompletionOrder(db, now, slaMs, id, owned, groups);
      FencedOutcomesChangeNothing(db, now, slaMs, id, sorted);
      CompletionOrder(db, now, slaMs, id, batch, sorted);
      FilterPermutation(OwnedBy(db, id), sorted, batch);
      FilterPermutation(TakenBy(db.messages), groups, OwnedOnly(db, id, batch));
      GivenBackOrder(db.messages, groups, OwnedOnly(db, id, batch));
    }
  }

  predicate IsSent(o: Outcome) { o.kind.OutcomeSent? }

  predicate IsRetry(o: Outcome) { o.kind.OutcomeRetry? }

  predicate IsDeferred(o: Outcome) { o.kind.OutcomeDeferred? }

  /** Every outcome is of exactly one group. */
  lemma KindsPartition(os: seq<Outcome>)
    ensures multiset(Filter(IsSent, os) + Filter(IsRetry, os) + Filter(IsDeferred, os) + Filter(EndsMessage, os))
         == multiset(os)
  {
    var parts := Filter(IsSent, os) + Filter(IsRetry, os) + Filter(IsDeferred, os) + Filter(EndsMessage, os);
    forall o ensures multiset(parts)[o] == multiset(os)[o] {
      FilterCounts(IsSent, os, o);
      FilterCounts(IsRetry, os, o);
      FilterCounts(IsDeferred, os, o);
      FilterCounts(EndsMessage, os, o);
    }
  }

  lemma {:induction false} OfKind(p: Outcome -> bool, os: seq<Outcome>)
    ensures forall o | o in Filter(p, os) :: p(o)
  {
    if os != [] {
      OfKind(p, os[..|os| - 1]);
    }
  }

  lemma DistinctPrefix(xs: seq<Outcome>, ys: seq<Outcome>)
    requires DistinctMessages(xs + ys)
    ensures DistinctMessages(xs)
  {
    forall i, j | 0 <= i < j < |xs| ensures MessageOf(xs[i]) != MessageOf(xs[j]) {
      assert MessageOf((xs + ys)[i]) != MessageOf((xs + ys)[j]);
    }
  }
}
