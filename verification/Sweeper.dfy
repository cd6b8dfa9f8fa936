/** Background tasks over the queue (internal/sweeper/tasks.go). */
module Sweeping {
  import opened Tables
  import opened Folds
  import opened Billing
  import Accepting

  /** No worker is sending: the row is not leased, or its lease has run out. */
  predicate Unleased(r: QueueRow, now: Time) { r.owner.None? || r.nextAttemptAt <= now }

  predicate Due(db: Db, now: Time, id: Id)
  {
    id in db.queue && db.queue[id].expiresAt <= now && Unleased(db.queue[id], now)
  }

  predicate StillAccepted(ms: map<Id, Message>, id: Id) { id in ms && ms[id].status.Accepted? }

  function ExpiredMessage(m: Message, now: Time): Message
  {
    m.(status := Expired, reason := Some(TtlPassed), completedAt := Some(now),
       slaBreached := m.slaBreached || m.service.Express?, updatedAt := now)
  }

  function RefundOfExpired(ms: map<Id, Message>, id: Id): seq<Refund>
  {
    if StillAccepted(ms, id) then [Refund(ms[id].customer, id, ms[id].cost)] else []
  }

  /** One message expired on its own: ended, refunded and dequeued. */
  function ExpireOne(db: Db, now: Time, id: Id): Db
  {
    if Due(db, now, id) && StillAccepted(db.messages, id) then
      RefundOne(db, now, Refund(db.messages[id].customer, id, db.messages[id].cost)).(
        messages := db.messages[id := ExpiredMessage(db.messages[id], now)],
        queue := db.queue - {id})
    else db
  }

  function Expiring(now: Time): (Db, Id) -> Db { (db: Db, id: Id) => ExpireOne(db, now, id) }

  /** An Express message still waiting beyond the SLA. */
  predicate Overdue(db: Db, now: Time, slaMs: int, id: Id)
  {
    && id in db.queue && db.queue[id].lane.ExpressLane?
    && StillAccepted(db.messages, id) && !db.messages[id].slaBreached
    && db.messages[id].acceptedAt < now - slaMs * MILLISECOND
  }

  function FlagOne(db: Db, now: Time, slaMs: int, id: Id): Db
  {
    if Overdue(db, now, slaMs, id)
    then db.(messages := db.messages[id := db.messages[id].(slaBreached := true, updatedAt := now)])
    else db
  }

  function Flagging(now: Time, slaMs: int): (Db, Id) -> Db { (db: Db, id: Id) => FlagOne(db, now, slaMs, id) }

  /** A row whose message a delivery report has finished while no worker held it. */
  predicate Orphaned(db: Db, now: Time, id: Id)
  {
    id in db.queue && id in db.messages && !db.messages[id].status.Accepted? && Unleased(db.queue[id], now)
  }

  function OrphanOne(db: Db, now: Time, id: Id): Db
  {
    if Orphaned(db, now, id) then db.(queue := db.queue - {id}) else db
  }

  function Orphaning(now: Time): (Db, Id) -> Db { (db: Db, id: Id) => OrphanOne(db, now, id) }

  /** A row in a normal lane that no longer exists. */
  predicate Stranded(db: Db, lanes: nat, id: Id)
  {
    id in db.queue && id in db.messages && db.queue[id].lane.NormalLane? && db.queue[id].lane.index >= lanes
  }

  function ReassignOne(db: Db, lanes: nat, laneHash: Id -> nat, id: Id): Db
    requires lanes > 0
  {
    if Stranded(db, lanes, id)
    then db.(queue := db.queue[id :=
               db.queue[id].(lane := Accepting.LaneFor(Normal, db.messages[id].customer, lanes, laneHash))])
    else db
  }

  function Reassigning(lanes: nat, laneHash: Id -> nat): (Db, Id) -> Db
    requires lanes > 0
  {
    (db: Db, id: Id) => ReassignOne(db, lanes, laneHash, id)
  }

  // ---------------------------------------------------------------------------
  // Expiring, table by table

  function ExpiredAll(ms: map<Id, Message>, now: Time, ids: seq<Id>): map<Id, Message>
  {
    if ids == [] then ms
    else
      var rest, id := ExpiredAll(ms, now, ids[..|ids| - 1]), ids[|ids| - 1];
      if StillAccepted(ms, id) && id in rest then rest[id := ExpiredMessage(ms[id], now)] else rest
  }

  function RefundsOfExpired(ms: map<Id, Message>, ids: seq<Id>): seq<Refund>
  {
    if ids == [] then [] else RefundsOfExpired(ms, ids[..|ids| - 1]) + RefundOfExpired(ms, ids[|ids| - 1])
  }

  function Ended(ms: map<Id, Message>, ids: seq<Id>): set<Id> { set id | id in ids && StillAccepted(ms, id) }

  predicate Picked(ids: seq<Id>) { forall i, j | 0 <= i < j < |ids| :: ids[i] != ids[j] }

  lemma {:induction false} ExpiredAllFrame(ms: map<Id, Message>, now: Time, ids: seq<Id>)
    ensures ExpiredAll(ms, now, ids).Keys == ms.Keys
    ensures forall id | id in ms ::
              && ExpiredAll(ms, now, ids)[id].customer == ms[id].customer
              && ExpiredAll(ms, now, ids)[id].cost == ms[id].cost
              && (id !in ids ==> ExpiredAll(ms, now, ids)[id] == ms[id])
  {
    if ids != [] {
      ExpiredAllFrame(ms, now, ids[..|ids| - 1]);
    }
  }

  /** The tables after one UPDATE of messages, the refunds, and one DELETE from the queue. */
  function ExpiredTables(db: Db, now: Time, ids: seq<Id>): Db
  {
    RefundAll(db, now, RefundsOfExpired(db.messages, ids)).(
      messages := ExpiredAll(db.messages, now, ids),
      queue := db.queue - Ended(db.messages, ids))
  }

  lemma {:induction false} ExpireTableByTable(db: Db, now: Time, ids: seq<Id>)
    requires Picked(ids) && forall id | id in ids :: Due(db, now, id)
    ensures Fold(Expiring(now), db, ids) == ExpiredTables(db, now, ids)
  {
    if ids == [] {
      assert db.queue - Ended(db.messages, ids) == db.queue;
    } else {
      var init, id := ids[..|ids| - 1], ids[|ids| - 1];
      ExpireTableByTable(db, now, init);
      ExpireNext(db, now, ids);
      assert Fold(Expiring(now), db, ids) == ExpireOne(Fold(Expiring(now), db, init), now, id);
    }
  }

  lemma EndedNext(ms: map<Id, Message>, ids: seq<Id>)
    requires ids != []
    ensures Ended(ms, ids) ==
            Ended(ms, ids[..|ids| - 1]) + (if StillAccepted(ms, ids[|ids| - 1]) then {ids[|ids| - 1]} else {})
  {
    assert ids == ids[..|ids| - 1] + [ids[|ids| - 1]];
  }

  lemma ExpireNext(db: Db, now: Time, ids: seq<Id>)
    requires ids != [] && Picked(ids) && Due(db, now, ids[|ids| - 1])
    ensures ExpireOne(ExpiredTables(db, now, ids[..|ids| - 1]), now, ids[|ids| - 1]) == ExpiredTables(db, now, ids)
  {
    var init, id := ids[..|ids| - 1], ids[|ids| - 1];
    var ledger := RefundAll(db, now, RefundsOfExpired(db.messages, init));
    ExpiredAllFrame(db.messages, now, init);
    EndedNext(db.messages, ids);
    FoldConcat(Refunding(now), db, RefundsOfExpired(db.messages, init), RefundOfExpired(db.messages, id));
    if StillAccepted(db.messages, id) {
      FoldOne(Refunding(now), ledger, RefundOfExpired(db.messages, id)[0]);
      assert db.queue - (Ended(db.messages, init) + {id}) == db.queue - Ended(db.messages, init) - {id};
    } else {
      assert RefundsOfExpired(db.messages, ids) == RefundsOfExpired(db.messages, init);
      assert Ended(db.messages, ids) == Ended(db.messages, init);
    }
  }

  // ---------------------------------------------------------------------------
  // The tasks. `picked` is what the task's locking SELECT returned.

  datatype ExpiredRecord = ExpiredRecord(service: Class, acceptedAt: Time, cost: int)

  /** A record of every message that expires, in the order picked. */
  function RecordsOf(ms: map<Id, Message>, ids: seq<Id>): seq<ExpiredRecord>
  {
    if ids == [] then []
    else
      var id := ids[|ids| - 1];
      RecordsOf(ms, ids[..|ids| - 1])
      + if StillAccepted(ms, id) then [ExpiredRecord(ms[id].service, ms[id].acceptedAt, ms[id].cost)] else []
  }

  class Sweeper {
    var expired: seq<ExpiredRecord>

    constructor ()
      ensures expired == []
    {
      expired := [];
    }

    /** The UPDATE that ends messages; appends what it changed to `expired`. */
    method EndExpired(tx: Session, picked: seq<Id>) returns (refunds: seq<Refund>)
      requires Picked(picked)
      modifies this, tx
      ensures tx.db == old(tx.db).(messages := ExpiredAll(old(tx.db).messages, tx.now, picked))
      ensures refunds == RefundsOfExpired(old(tx.db).messages, picked)
      ensures expired == old(expired) + RecordsOf(old(tx.db).messages, picked)
    {
      var before := tx.db.messages;
      refunds := [];
      for i := 0 to |picked|
        invariant tx.db == old(tx.db).(messages := ExpiredAll(before, tx.now, picked[..i]))
        invariant refunds == RefundsOfExpired(before, picked[..i])
        invariant expired == old(expired) + RecordsOf(before, picked[..i])
      {
        var id := picked[i];
        assert picked[..i + 1][..i] == picked[..i];
        ExpiredAllFrame(before, tx.now, picked[..i]);
        if StillAccepted(before, id) {
          var m := before[id];
          tx.db := tx.db.(messages := tx.db.messages[id := ExpiredMessage(m, tx.now)]);
          refunds := refunds + [Refund(m.customer, id, m.cost)];
          expired := expired + [ExpiredRecord(m.service, m.acceptedAt, m.cost)];
        }
      }
      assert picked[..|picked|] == picked;
    }

    /** Ends, refunds and dequeues due messages, as if one at a time. */
    method Expire(tx: Session, picked: seq<Id>) returns (n: nat)
      requires Picked(picked) && ForeignKeys(tx.db) && forall id | id in picked :: Due(tx.db, tx.now, id)
      modifies this, tx
      ensures tx.db == Fold(Expiring(tx.now), old(tx.db), picked)
      ensures n == |RefundsOfExpired(old(tx.db).messages, picked)|
      ensures expired == old(expired) + RecordsOf(old(tx.db).messages, picked)
    {
      ghost var db0 := tx.db;
      var refunds := EndExpired(tx, picked);
      ghost var ended := tx.db;
      ExpiredAllFrame(db0.messages, tx.now, picked);
      RefundsLink(db0, picked);
      ApplyRefunds(tx, refunds);
      RefundAllOnTables(db0, ended, tx.now, refunds);
      RefundAllFrame(db0, tx.now, refunds);
      var ids := set r: Refund | r in refunds :: r.message;
      RefundedIds(db0.messages, picked);
      tx.db := tx.db.(queue := tx.db.queue - ids);
      ExpireTableByTable(db0, tx.now, picked);
      return |refunds|;
    }

    /** Flags every picked message in one UPDATE. */
    method FlagSLA(tx: Session, slaMs: int, picked: seq<Id>)
      requires forall id | id in picked :: Overdue(tx.db, tx.now, slaMs, id)
      modifies tx
      ensures tx.db == Fold(Flagging(tx.now, slaMs), old(tx.db), picked)
    {
      FlagTogether(tx.db, tx.now, slaMs, picked);
      tx.db := tx.db.(messages := Flagged(tx.db.messages, tx.now, picked));
    }

    /** Deletes every picked row in one DELETE. */
    method RemoveOrphans(tx: Session, picked: seq<Id>)
      requires forall id | id in picked :: Orphaned(tx.db, tx.now, id)
      modifies tx
      ensures tx.db == Fold(Orphaning(tx.now), old(tx.db), picked)
    {
      OrphanTogether(tx.db, tx.now, picked);
      tx.db := tx.db.(queue := tx.db.queue - set id | id in picked);
    }

    /** Moves every picked row to the lane its customer now hashes to, in one UPDATE. */
    method ReassignLanes(tx: Session, lanes: nat, laneHash: Id -> nat, picked: seq<Id>)
      requires lanes > 0 && forall id | id in picked :: Stranded(tx.db, lanes, id)
      modifies tx
      ensures tx.db == Fold(Reassigning(lanes, laneHash), old(tx.db), picked)
    {
      ReassignTogether(tx.db, lanes, laneHash, picked);
      tx.db := tx.db.(queue := Reassigned(tx.db, lanes, laneHash, picked));
    }
  }

  // ---------------------------------------------------------------------------
  // One statement over many rows is the rows one at a time

  function Flagged(ms: map<Id, Message>, now: Time, ids: seq<Id>): map<Id, Message>
  {
    map id | id in ms :: if id in ids then ms[id].(slaBreached := true, updatedAt := now) else ms[id]
  }

  lemma {:induction false} FlagTogether(db: Db, now: Time, slaMs: int, ids: seq<Id>)
    requires forall id | id in ids :: Overdue(db, now, slaMs, id)
    ensures Fold(Flagging(now, slaMs), db, ids) == db.(messages := Flagged(db.messages, now, ids))
  {
    if ids == [] {
      assert Flagged(db.messages, now, ids) == db.messages;
    } else {
      var init, id := ids[..|ids| - 1], ids[|ids| - 1];
      FlagTogether(db, now, slaMs, init);
      var mid := db.(messages := Flagged(db.messages, now, init));
      assert Overdue(db, now, slaMs, id);
      assert FlagOne(mid, now, slaMs, id).messages == Flagged(db.messages, now, ids);
    }
  }

  lemma {:induction false} OrphanTogether(db: Db, now: Time, ids: seq<Id>)
    requires forall id | id in ids :: Orphaned(db, now, id)
    ensures Fold(Orphaning(now), db, ids) == db.(queue := db.queue - set id | id in ids)
  {
    if ids == [] {
      assert db.queue - (set id | id in ids) == db.queue;
    } else {
      var init, id := ids[..|ids| - 1], ids[|ids| - 1];
      OrphanTogether(db, now, init);
      var mid := db.(queue := db.queue - set id | id in init);
      assert Orphaned(db, now, id);
      assert OrphanOne(mid, now, id).queue == db.queue - set id | id in ids;
    }
  }

  function Reassigned(db: Db, lanes: nat, laneHash: Id -> nat, ids: seq<Id>): map<Id, QueueRow>
    requires lanes > 0 && forall id | id in ids :: Stranded(db, lanes, id)
  {
    map id | id in db.queue ::
      if id in ids && id in db.messages
      then db.queue[id].(lane := Accepting.LaneFor(Normal, db.messages[id].customer, lanes, laneHash))
      else db.queue[id]
  }

  lemma {:induction false} ReassignTogether(db: Db, lanes: nat, laneHash: Id -> nat, ids: seq<Id>)
    requires lanes > 0 && forall id | id in ids :: Stranded(db, lanes, id)
    ensures Fold(Reassigning(lanes, laneHash), db, ids) == db.(queue := Reassigned(db, lanes, laneHash, ids))
  {
    if ids == [] {
      assert Reassigned(db, lanes, laneHash, ids) == db.queue;
    } else {
      var init, id := ids[..|ids| - 1], ids[|ids| - 1];
      ReassignTogether(db, lanes, laneHash, init);
      assert Stranded(db, lanes, id);
      ReassignNext(db, lanes, laneHash, init, id);
      assert init + [id] == ids;
    }
  }

  lemma ReassignNext(db: Db, lanes: nat, laneHash: Id -> nat, init: seq<Id>, id: Id)
    requires lanes > 0 && Stranded(db, lanes, id) && forall x | x in init :: Stranded(db, lanes, x)
    ensures ReassignOne(db.(queue := Reassigned(db, lanes, laneHash, init)), lanes, laneHash, id).queue ==
            Reassigned(db, lanes, laneHash, init + [id])
  {
    LaneExists(db.messages[id].customer, lanes, laneHash);
  }

  lemma LaneExists(c: Id, lanes: nat, laneHash: Id -> nat)
    requires lanes > 0
    ensures var lane := Accepting.LaneFor(Normal, c, lanes, laneHash); lane.NormalLane? && lane.index < lanes
  {
  }

  lemma {:induction false} RefundsLink(db: Db, ids: seq<Id>)
    requires ForeignKeys(db)
    ensures RefundsLinked(db, RefundsOfExpired(db.messages, ids))
  {
    if ids != [] {
      RefundsLink(db, ids[..|ids| - 1]);
    }
  }

  lemma {:induction false} RefundedIds(ms: map<Id, Message>, ids: seq<Id>)
    ensures (set r: Refund | r in RefundsOfExpired(ms, ids) :: r.message) == Ended(ms, ids)
  {
    if ids != [] {
      RefundedIds(ms, ids[..|ids| - 1]);
      EndedNext(ms, ids);
      var init, last := RefundsOfExpired(ms, ids[..|ids| - 1]), RefundOfExpired(ms, ids[|ids| - 1]);
      assert (set r: Refund | r in init + last :: r.message)
          == (set r: Refund | r in init :: r.message) + (set r: Refund | r in last :: r.message);
    }
  }
}
