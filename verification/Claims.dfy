/** Claiming queue rows under a lease (internal/dispatch/claim.go). */
module Claims {
  import opened Tables
  import opened Folds
  import opened Billing

  /** The row is ready in its lane, or its lease has run out, and its message is still accepted. */
  predicate Claimable(db: Db, now: Time, lane: Lane, id: Id)
  {
    && id in db.queue && id in db.messages
    && db.queue[id].lane == lane && db.queue[id].nextAttemptAt <= now
    && db.messages[id].status.Accepted?
  }

  function LeaseDeadline(now: Time, leaseMs: int): Time { now + leaseMs * MILLISECOND }

  function ClaimedRow(r: QueueRow, now: Time, w: WorkerId, leaseMs: int): QueueRow
  {
    r.(owner := Some(w), version := r.version + 1, nextAttemptAt := LeaseDeadline(now, leaseMs))
  }

  function ClaimedJob(db: Db, now: Time, w: WorkerId, lane: Lane, leaseMs: int, id: Id): Job
    requires Claimable(db, now, lane, id)
  {
    var m := db.messages[id];
    Job(id, w, if lane.ExpressLane? then Express else Normal, m.service, m.attempts, m.acceptedAt, m.expiresAt,
        db.queue[id].version + 1, now, LeaseDeadline(now, leaseMs))
  }

  /** One row claimed on its own. */
  function ClaimOne(db: Db, now: Time, w: WorkerId, lane: Lane, leaseMs: int, id: Id): Db
  {
    if Claimable(db, now, lane, id) then db.(queue := db.queue[id := ClaimedRow(db.queue[id], now, w, leaseMs)]) else db
  }

  function Claiming(now: Time, w: WorkerId, lane: Lane, leaseMs: int): (Db, Id) -> Db
  {
    (db: Db, id: Id) => ClaimOne(db, now, w, lane, leaseMs, id)
  }

  function ClaimAll(db: Db, now: Time, w: WorkerId, lane: Lane, leaseMs: int, ids: seq<Id>): Db
  {
    Fold(Claiming(now, w, lane, leaseMs), db, ids)
  }

  // ---------------------------------------------------------------------------
  // The claim transaction

  /** A row of the lane, not locked elsewhere, whose time has come and whose message is accepted. */
  ghost predicate Waiting(db: Db, now: Time, lane: Lane, locked: set<Id>, id: Id)
  {
    && id in db.queue && id in db.messages && id !in locked
    && db.queue[id].lane == lane && db.queue[id].nextAttemptAt <= now && db.messages[id].status.Accepted?
  }

  /** The waiting rows in the order of their time, at most `limit`, and all of them unless that is too many. */
  ghost predicate Selected(db: Db, now: Time, lane: Lane, locked: set<Id>, limit: nat, picked: seq<Id>)
  {
    && |picked| <= limit && Distinct(picked)
    && (forall i | 0 <= i < |picked| :: Waiting(db, now, lane, locked, picked[i]))
    && (forall i, j | 0 <= i < j < |picked| :: db.queue[picked[i]].nextAttemptAt <= db.queue[picked[j]].nextAttemptAt)
    && (forall id | Waiting(db, now, lane, locked, id) && id !in picked ::
          |picked| == limit && forall p | p in picked :: db.queue[p].nextAttemptAt <= db.queue[id].nextAttemptAt)
  }

  predicate Distinct(ids: seq<Id>) { forall i, j | 0 <= i < j < |ids| :: ids[i] != ids[j] }

  /** The row of a nonempty set whose time comes first. */
  method Earliest(queue: map<Id, QueueRow>, ids: set<Id>) returns (first: Id)
    requires ids != {} && ids <= queue.Keys
    ensures first in ids && forall id | id in ids :: queue[first].nextAttemptAt <= queue[id].nextAttemptAt
  {
    first :| first in ids;
    var rest := ids - {first};
    while rest != {}
      invariant first in ids && rest <= ids
      invariant forall id | id in ids - rest :: queue[first].nextAttemptAt <= queue[id].nextAttemptAt
    {
      var id :| id in rest;
      if queue[id].nextAttemptAt < queue[first].nextAttemptAt {
        first := id;
      }
      rest := rest - {id};
    }
  }

  /** SELECT ... ORDER BY next_attempt_at LIMIT limit FOR UPDATE SKIP LOCKED. */
  method Select(tx: Session, lane: Lane, limit: nat, locked: set<Id>) returns (picked: seq<Id>)
    ensures Selected(tx.db, tx.now, lane, locked, limit, picked)
  {
    var ready := set id | id in tx.db.queue && Claimable(tx.db, tx.now, lane, id) && id !in locked;
    picked := [];
    while |picked| < limit && ready != {}
      invariant |picked| <= limit && ready <= tx.db.queue.Keys
      invariant forall id | id in picked :: id in tx.db.queue && id !in ready
      invariant forall id | id in tx.db.queue :: id in ready || id in picked <==> Waiting(tx.db, tx.now, lane, locked, id)
      invariant forall p, id | p in picked && id in ready ::
                  tx.db.queue[p].nextAttemptAt <= tx.db.queue[id].nextAttemptAt
      invariant Distinct(picked)
      invariant forall i, j | 0 <= i < j < |picked| ::
                  tx.db.queue[picked[i]].nextAttemptAt <= tx.db.queue[picked[j]].nextAttemptAt
      decreases ready
    {
      var id := Earliest(tx.db.queue, ready);
      picked, ready := picked + [id], ready - {id};
    }
  }

  /** The row of the job has this owner, the next generation and the deadline, and the job has the stored values. */
  ghost predicate Leased(before: Db, after: Db, now: Time, w: WorkerId, lane: Lane, leaseMs: int, j: Job)
  {
    && j.id in before.queue && j.id in before.messages
    && var m, r, deadline := before.messages[j.id], before.queue[j.id], now + leaseMs * MILLISECOND;
       && j == Job(j.id, w, if lane.ExpressLane? then Express else Normal, m.service, m.attempts, m.acceptedAt, m.expiresAt,
                   r.version + 1, now, deadline)
       && Lookup(after.queue, j.id) == Some(r.(owner := Some(w), version := r.version + 1, nextAttemptAt := deadline))
  }

  function JobIds(jobs: seq<Job>): (ids: seq<Id>)
    ensures |ids| == |jobs| && forall i | 0 <= i < |jobs| :: ids[i] == jobs[i].id
  {
    seq(|jobs|, i requires 0 <= i < |jobs| => jobs[i].id)
  }

  /**
   Leases waiting rows of one lane, the earliest first and at most as many as
   asked for; rows that another transaction holds are skipped.
   */
  method Claim(tx: Session, w: WorkerId, lane: Lane, leaseMs: int, limit: nat, locked: set<Id>)
    returns (jobs: seq<Job>)
    modifies tx
    ensures Selected(old(tx.db), tx.now, lane, locked, limit, JobIds(jobs))
    ensures forall j | j in jobs :: Leased(old(tx.db), tx.db, tx.now, w, lane, leaseMs, j)
    ensures tx.db == ClaimAll(old(tx.db), tx.now, w, lane, leaseMs, JobIds(jobs))
  {
    ghost var db0 := tx.db;
    var picked := Select(tx, lane, limit, locked);
    jobs := [];
    for i := 0 to |picked|
      invariant tx.db == ClaimAll(db0, tx.now, w, lane, leaseMs, picked[..i])
      invariant ClaimedSoFar(db0, tx.db, tx.now, w, lane, leaseMs, picked, i, jobs)
    {
      var id := picked[i];
      FoldSnoc(Claiming(tx.now, w, lane, leaseMs), db0, picked, i);
      ClaimNext(db0, tx.db, tx.now, w, lane, leaseMs, picked, i, jobs);
      jobs := jobs + [ClaimedJob(tx.db, tx.now, w, lane, leaseMs, id)];
      tx.db := tx.db.(queue := tx.db.queue[id := ClaimedRow(tx.db.queue[id], tx.now, w, leaseMs)]);
    }
    assert JobIds(jobs) == picked == picked[..|picked|];
  }

  /** The first i picked rows are leased, and the others are as they were. */
  ghost predicate ClaimedSoFar(before: Db, db: Db, now: Time, w: WorkerId, lane: Lane, leaseMs: int,
                               picked: seq<Id>, i: nat, jobs: seq<Job>)
  {
    && i <= |picked| && |jobs| == i && db == before.(queue := db.queue)
    && (forall k | i <= k < |picked| :: Lookup(db.queue, picked[k]) == Lookup(before.queue, picked[k]))
    && (forall k | 0 <= k < i :: jobs[k].id == picked[k] && Leased(before, db, now, w, lane, leaseMs, jobs[k]))
  }

  lemma ClaimNext(before: Db, db: Db, now: Time, w: WorkerId, lane: Lane, leaseMs: int,
                  picked: seq<Id>, i: nat, jobs: seq<Job>)
    requires i < |picked| && Distinct(picked) && Waiting(before, now, lane, {}, picked[i])
    requires ClaimedSoFar(before, db, now, w, lane, leaseMs, picked, i, jobs)
    ensures Claimable(db, now, lane, picked[i])
    ensures ClaimedSoFar(before, ClaimOne(db, now, w, lane, leaseMs, picked[i]), now, w, lane, leaseMs, picked, i + 1,
                         jobs + [ClaimedJob(db, now, w, lane, leaseMs, picked[i])])
  {
    assert Lookup(db.queue, picked[i]) == Lookup(before.queue, picked[i]);
  }
}
