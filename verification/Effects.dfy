/** What each transaction does to the rows it is about, in every reachable state. */
module Effects {
  import opened Tables
  import opened Folds
  import opened Completion
  import opened Cells
  import opened Gateway
  import opened Runs
  import Accepting
  import Claims
  import Reports
  import Sweeping
  import Leases
  import Lifecycle
  import opened RowSteps

  // ---------------------------------------------------------------------------
  // Outcomes

  /** Committing one outcome. */
  ghost function AfterCommit(cfg: Config, s: Sys, w: WorkerId, o: Outcome): Sys { Next(cfg, s, Commit(w, [o])) }

  lemma CommitOne(cfg: Config, s: Sys, w: WorkerId, o: Outcome)
    requires InAir(s, w, o)
    ensures AfterCommit(cfg, s, w, o) == s.(db := CompleteOne(s.db, s.now, cfg.slaMs, w, o))
  {
    FoldOne(CompleteRow(cfg, w), s, o);
  }

  /** What an owned row says about its message: not sent, not refunded, at the snapshot's attempts. */
  lemma OwnedMessage(cfg: Config, s: Sys, w: WorkerId, o: Outcome)
    requires Inv(cfg, s) && InAir(s, w, o) && Owned(s.db, w, o)
    ensures o.job.id in s.db.messages
    ensures var m := s.db.messages[o.job.id];
            && m.sentAt.None? && !Refunded(m.status) && m.attempts == o.job.attempts && m.customer in s.db.customers
            && (!m.status.Accepted? ==> m.provider.Some? && m.providerRef.Some?)
    ensures RefundOf(o.job.id) !in s.db.txs
  {
    assert CellOk(cfg, s.now, CellOf(s.db, o.job.id));
    assert JobOk(s.now, Some(o), CellOf(s.db, o.job.id), o.job);
  }

  /** What a sent outcome leaves of a message and its row. */
  ghost predicate Recorded(db: Db, t: Db, now: Time, slaMs: int, o: Outcome)
  {
    && o.job.id in db.messages && o.job.id in t.messages && o.job.id !in t.queue
    && var m, m' := db.messages[o.job.id], t.messages[o.job.id];
       && SameOrigin(m, m') && m'.lastError == m.lastError && m'.reason == m.reason && m'.completedAt == m.completedAt
       && m'.sentAt == Some(now) && m'.attempts == m.attempts + 1 && m'.updatedAt == now
       && (m'.slaBreached <==> m.slaBreached || (m.service.Express? && now - m.acceptedAt > slaMs * MILLISECOND))
       && if m.status.Accepted?
          then m'.status.Sent? && m'.provider == Some(o.provider) && m'.providerRef == Some(o.providerRef)
          else m'.status == m.status && m'.provider == m.provider != None && m'.providerRef == m.providerRef != None
  }

  lemma SentOne(db: Db, now: Time, slaMs: int, w: WorkerId, o: Outcome)
    requires o.kind.OutcomeSent? && Owned(db, w, o) && o.job.id in db.messages
    requires var m := db.messages[o.job.id];
             && m.sentAt.None? && !Refunded(m.status) && m.attempts == o.job.attempts
             && (!m.status.Accepted? ==> m.provider.Some? && m.providerRef.Some?)
    ensures var t := CompleteOne(db, now, slaMs, w, o);
            Recorded(db, t, now, slaMs, o) && t.txs == db.txs && t.customers == db.customers
  {
    RefundForCases(db, now, o);
  }

  /**
   An owned sent outcome always takes effect: the message has its sending time
   and one more attempt, and leaves the queue. A message that a report finished
   first keeps its status and the report's provider details, and its attempt is
   counted all the same. An Express message beyond its SLA is flagged. Nothing
   else about the message changes, and no credit moves.
   */
  lemma SentIsRecorded(cfg: Config, start: Time, es: seq<Event>, w: WorkerId, o: Outcome)
    requires ValidConfig(cfg) && o.kind.OutcomeSent?
    requires var s := Run(cfg, Init(start), es); InAir(s, w, o) && Owned(s.db, w, o)
    ensures var s := Run(cfg, Init(start), es);
            var t := AfterCommit(cfg, s, w, o);
            Recorded(s.db, t.db, s.now, cfg.slaMs, o) && t.db.txs == s.db.txs && t.db.customers == s.db.customers
  {
    var s := Run(cfg, Init(start), es);
    assert Inv(cfg, s) by { Always(cfg, start, es); }
    OwnedMessage(cfg, s, w, o);
    CommitOne(cfg, s, w, o);
    SentOne(s.db, s.now, cfg.slaMs, w, o);
  }

  /** What a retry leaves of a message and its row. */
  ghost predicate Rescheduled(db: Db, t: Db, now: Time, o: Outcome)
  {
    && o.job.id in db.messages && o.job.id in db.queue && o.job.id in t.messages
    && var m, m' := db.messages[o.job.id], t.messages[o.job.id];
       if m.status.Accepted? then
         && m' == m.(attempts := m.attempts + 1, provider := Some(o.provider), lastError := Some(o.err), updatedAt := now)
         && Lookup(t.queue, o.job.id) ==
            Some(db.queue[o.job.id].(owner := None, nextAttemptAt := now + o.delayMs * MILLISECOND))
       else m' == m && o.job.id !in t.queue
  }

  lemma RetryOne(db: Db, now: Time, slaMs: int, w: WorkerId, o: Outcome)
    requires o.kind.OutcomeRetry? && Owned(db, w, o)
    requires o.job.id in db.messages && db.messages[o.job.id].attempts == o.job.attempts
    ensures var t := CompleteOne(db, now, slaMs, w, o);
            Rescheduled(db, t, now, o) && t.txs == db.txs && t.customers == db.customers
  {
    RefundForCases(db, now, o);
  }

  /**
   An owned retry of an accepted message counts the attempt and puts the row back
   for the delay, with no owner and at the same generation; of a message that a
   report finished, it only removes the row.
   */
  lemma RetryIsScheduled(cfg: Config, start: Time, es: seq<Event>, w: WorkerId, o: Outcome)
    requires ValidConfig(cfg) && o.kind.OutcomeRetry?
    requires var s := Run(cfg, Init(start), es); InAir(s, w, o) && Owned(s.db, w, o)
    ensures var s := Run(cfg, Init(start), es);
            var t := AfterCommit(cfg, s, w, o);
            Rescheduled(s.db, t.db, s.now, o) && t.db.txs == s.db.txs && t.db.customers == s.db.customers
  {
    var s := Run(cfg, Init(start), es);
    Always(cfg, start, es);
    OwnedMessage(cfg, s, w, o);
    CommitOne(cfg, s, w, o);
    RetryOne(s.db, s.now, cfg.slaMs, w, o);
  }

  /** The cost of a message went back to its customer, in one new ledger row. */
  ghost predicate PaidBack(db: Db, t: Db, now: Time, id: Id)
  {
    && id in db.messages
    && var m := db.messages[id];
       && RefundOf(id) !in db.txs && t.txs == db.txs[RefundOf(id) := Tx(m.customer, m.cost, now)]
       && m.customer in db.customers
       && t.customers == db.customers[m.customer := Customer(db.customers[m.customer].balance + m.cost, now)]
  }

  /** What a failure or an expiry leaves of a message, its row and the ledger. */
  ghost predicate Concluded(db: Db, t: Db, now: Time, o: Outcome)
  {
    && o.job.id in db.messages && o.job.id in t.messages && o.job.id !in t.queue
    && var m, m' := db.messages[o.job.id], t.messages[o.job.id];
       if m.status.Accepted? then
         && m'.status == (if o.kind.OutcomeExpired? then Expired else Failed) && m'.reason == o.reason
         && m'.completedAt == Some(now) && m'.attempts == m.attempts + (if o.attempted then 1 else 0)
         && SameOrigin(m, m') && m'.sentAt == m.sentAt && m'.providerRef == m.providerRef && m'.updatedAt == now
         && m'.provider == (if o.provider != "" then Some(o.provider) else m.provider)
         && m'.lastError == (if o.err != "" then Some(o.err) else m.lastError)
         && (m'.slaBreached <==> m.slaBreached || m.service.Express?)
         && PaidBack(db, t, now, o.job.id)
       else m' == m && t.txs == db.txs && t.customers == db.customers
  }

  lemma EndOne(db: Db, now: Time, slaMs: int, w: WorkerId, o: Outcome)
    requires EndsMessage(o) && Owned(db, w, o) && o.job.id in db.messages && RefundOf(o.job.id) !in db.txs
    requires db.messages[o.job.id].customer in db.customers
    ensures Concluded(db, CompleteOne(db, now, slaMs, w, o), now, o)
  {
    RefundForCases(db, now, o);
  }

  /**
   An owned failure or expiry of an accepted message ends it with its reason and
   gives its cost back to its customer and to no one else, in one new ledger row;
   of a message that a report finished, it only removes the row.
   */
  lemma EndingRefunds(cfg: Config, start: Time, es: seq<Event>, w: WorkerId, o: Outcome)
    requires ValidConfig(cfg) && EndsMessage(o)
    requires var s := Run(cfg, Init(start), es); InAir(s, w, o) && Owned(s.db, w, o)
    ensures var s := Run(cfg, Init(start), es); Concluded(s.db, AfterCommit(cfg, s, w, o).db, s.now, o)
  {
    var s := Run(cfg, Init(start), es);
    assert Inv(cfg, s) by { Always(cfg, start, es); }
    OwnedMessage(cfg, s, w, o);
    CommitOne(cfg, s, w, o);
    EndOne(s.db, s.now, cfg.slaMs, w, o);
  }

  /** A report that arrives between sending and committing does not hide the attempt. */
  lemma EarlyReportStillCounts(cfg: Config, start: Time, es: seq<Event>, w: WorkerId, o: Outcome, r: Reports.Report)
    requires ValidConfig(cfg) && o.kind.OutcomeSent?
    requires (r.status.Delivered? || r.status.Undelivered?) && r.message == o.job.id
    requires var s := Run(cfg, Init(start), es);
             InAir(s, w, o) && Owned(s.db, w, o) && o.job.id in s.db.messages && s.db.messages[o.job.id].status.Accepted?
    ensures var s := Run(cfg, Init(start), es);
            var u := AfterCommit(cfg, Next(cfg, s, Report([r])), w, o);
            && o.job.id in u.db.messages
            && var m, m' := s.db.messages[o.job.id], u.db.messages[o.job.id];
               m'.status == r.status && m'.sentAt == Some(s.now) && m'.attempts == m.attempts + 1
  {
    var s := Run(cfg, Init(start), es);
    var t := Next(cfg, s, Report([r]));
    assert t == s.(db := s.db.(messages := Reports.ReportOne(s.db.messages, s.now, r))) by {
      FoldOne(ReportRow(), s, r);
    }
    assert (es + [Report([r])])[..|es|] == es;
    assert t == Run(cfg, Init(start), es + [Report([r])]);
    SentIsRecorded(cfg, start, es + [Report([r])], w, o);
  }

  // ---------------------------------------------------------------------------
  // Expiry

  /** Expiring a due message ends it and gives its cost back, whoever had claimed it before. */
  lemma ExpiryRefunds(cfg: Config, start: Time, es: seq<Event>, id: Id)
    requires ValidConfig(cfg)
    requires var s := Run(cfg, Init(start), es);
             && id in s.db.queue && id in s.db.messages && s.db.messages[id].status.Accepted?
             && s.db.queue[id].expiresAt <= s.now
             && (s.db.queue[id].owner.None? || s.db.queue[id].nextAttemptAt <= s.now)
    ensures var s := Run(cfg, Init(start), es);
            var t := Next(cfg, s, Expire([id]));
            && id in t.db.messages && id !in t.db.queue && PaidBack(s.db, t.db, s.now, id)
            && var m, m' := s.db.messages[id], t.db.messages[id];
               m' == m.(status := Expired, reason := Some(TtlPassed), completedAt := Some(s.now),
                        slaBreached := m.slaBreached || m.service.Express?, updatedAt := s.now)
  {
    var s := Run(cfg, Init(start), es);
    Always(cfg, start, es);
    assert CellOk(cfg, s.now, CellOf(s.db, id));
    FoldOne(ExpireRow(), s, id);
  }

  // ---------------------------------------------------------------------------
  // Whole batches of outcomes

  /** A message is left alone by outcomes of other messages and by those that fail the fence. */
  lemma {:induction false} CellFrame(db: Db, now: Time, slaMs: int, w: WorkerId, os: seq<Outcome>, id: Id)
    requires forall p | p in os && p.job.id == id :: !Owned(db, w, p)
    ensures CellOf(CompleteAll(db, now, slaMs, w, os), id) == CellOf(db, id)
  {
    if os != [] {
      var init, p := os[..|os| - 1], os[|os| - 1];
      CellFrame(db, now, slaMs, w, init, id);
      CompleteOneFrame(CompleteAll(db, now, slaMs, w, init), now, slaMs, w, p);
      SameCellSameFence(db, CompleteAll(db, now, slaMs, w, init), w, p);
    }
  }

  /** The fence reads only the message's own row. */
  lemma SameCellSameFence(db: Db, db': Db, w: WorkerId, p: Outcome)
    ensures CellOf(db', p.job.id) == CellOf(db, p.job.id) ==> (Owned(db', w, p) <==> Owned(db, w, p))
  {
    assert Lookup(db.queue, p.job.id) == CellOf(db, p.job.id).row;
    assert Lookup(db'.queue, p.job.id) == CellOf(db', p.job.id).row;
  }

  /** What an owned outcome leaves of its message, given what was there. */
  lemma OwnedCell(db: Db, db': Db, now: Time, slaMs: int, w: WorkerId, o: Outcome)
    requires Owned(db, w, o) && o.job.id in db.messages && CellOf(db', o.job.id) == CellOf(db, o.job.id)
    ensures CellOf(CompleteOne(db', now, slaMs, w, o), o.job.id) == CellOf(CompleteOne(db, now, slaMs, w, o), o.job.id)
    ensures forall p: Outcome | p.job.id == o.job.id && p.job.version != o.job.version ::
              !Owned(CompleteOne(db', now, slaMs, w, o), w, p)
  {
    SameCellSameFence(db, db', w, o);
    assert Lookup(db'.messages, o.job.id) == CellOf(db', o.job.id).msg;
    assert Lookup(db.messages, o.job.id) == CellOf(db, o.job.id).msg;
    CompleteOneCell(db, now, slaMs, w, o);
    CompleteOneCell(db', now, slaMs, w, o);
  }

  lemma ActsAlone(db: Db, now: Time, slaMs: int, w: WorkerId, os: seq<Outcome>, i: nat)
    requires DistinctJobs(os) && i < |os| && Owned(db, w, os[i]) && os[i].job.id in db.messages
    ensures CellOf(CompleteAll(db, now, slaMs, w, os), os[i].job.id) ==
            CellOf(CompleteOne(db, now, slaMs, w, os[i]), os[i].job.id)
  {
    var o, before, after := os[i], os[..i], os[i + 1..];
    var id := o.job.id;
    forall p | p in before && p.job.id == id ensures !Owned(db, w, p) {
      var j :| 0 <= j < i && os[j] == p;
      assert JobOf(os[j]) != JobOf(os[i]);
    }
    CellFrame(db, now, slaMs, w, before, id);
    var mid := CompleteAll(db, now, slaMs, w, before);
    OwnedCell(db, mid, now, slaMs, w, o);
    var done := CompleteOne(mid, now, slaMs, w, o);
    forall p | p in after && p.job.id == id ensures !Owned(done, w, p) {
      var j :| i < j < |os| && os[j] == p;
      assert JobOf(os[i]) != JobOf(os[j]);
    }
    CellFrame(done, now, slaMs, w, after, id);
    assert CompleteAll(db, now, slaMs, w, os) == CompleteAll(done, now, slaMs, w, after) by {
      assert os == before + [o] + after;
      FoldConcat(Completing(now, slaMs, w), db, before + [o], after);
      FoldConcat(Completing(now, slaMs, w), db, before, [o]);
      FoldOne(Completing(now, slaMs, w), mid, o);
    }
  }

  /**
   In a batch every owned outcome does to its message, row and refund what it
   would do alone, and nothing else happens: messages without an owned outcome
   stay as they are.
   */
  lemma EachOutcomeActsAlone(cfg: Config, start: Time, es: seq<Event>, w: WorkerId, batch: seq<Outcome>)
    requires ValidConfig(cfg) && DistinctJobs(batch)
    requires forall o | o in batch :: InAir(Run(cfg, Init(start), es), w, o)
    ensures var s := Run(cfg, Init(start), es);
            var t := Next(cfg, s, Commit(w, batch));
            && (forall i | 0 <= i < |batch| && Owned(s.db, w, batch[i]) ::
                  CellOf(t.db, batch[i].job.id) == CellOf(AfterCommit(cfg, s, w, batch[i]).db, batch[i].job.id))
            && (forall id: Id | forall o | o in batch && o.job.id == id :: !Owned(s.db, w, o) ::
                  CellOf(t.db, id) == CellOf(s.db, id))
  {
    var s := Run(cfg, Init(start), es);
    Leases.CommitIsTransaction(cfg, s, w, batch);
    forall i | 0 <= i < |batch| && Owned(s.db, w, batch[i])
      ensures CellOf(Next(cfg, s, Commit(w, batch)).db, batch[i].job.id)
           == CellOf(AfterCommit(cfg, s, w, batch[i]).db, batch[i].job.id)
    {
      assert Inv(cfg, s) by { Always(cfg, start, es); }
      OwnedMessage(cfg, s, w, batch[i]);
      ActsAlone(s.db, s.now, cfg.slaMs, w, batch, i);
      CommitOne(cfg, s, w, batch[i]);
    }
    forall id: Id | forall o | o in batch && o.job.id == id :: !Owned(s.db, w, o)
      ensures CellOf(Next(cfg, s, Commit(w, batch)).db, id) == CellOf(s.db, id)
    {
      CellFrame(s.db, s.now, cfg.slaMs, w, batch, id);
    }
  }

  /** In a batch an owned deferral puts its row back for the delay and leaves its message alone. */
  lemma DeferralReleases(cfg: Config, start: Time, es: seq<Event>, w: WorkerId, batch: seq<Outcome>, i: nat)
    requires ValidConfig(cfg) && DistinctJobs(batch) && i < |batch| && batch[i].kind.OutcomeDeferred?
    requires forall o | o in batch :: InAir(Run(cfg, Init(start), es), w, o)
    requires Owned(Run(cfg, Init(start), es).db, w, batch[i])
    ensures var s := Run(cfg, Init(start), es);
            var id, r := batch[i].job.id, s.db.queue[batch[i].job.id];
            CellOf(Next(cfg, s, Commit(w, batch)).db, id) ==
            CellOf(s.db, id).(row := Some(r.(owner := None, nextAttemptAt := s.now + batch[i].delayMs * MILLISECOND)))
  {
    var s := Run(cfg, Init(start), es);
    assert batch[i].job.id in s.db.messages by {
      Always(cfg, start, es);
      OwnedMessage(cfg, s, w, batch[i]);
    }
    Leases.CommitIsTransaction(cfg, s, w, batch);
    ActsAlone(s.db, s.now, cfg.slaMs, w, batch, i);
    DeferOne(s.db, s.now, cfg.slaMs, w, batch[i]);
  }

  lemma DeferOne(db: Db, now: Time, slaMs: int, w: WorkerId, o: Outcome)
    requires o.kind.OutcomeDeferred? && Owned(db, w, o)
    ensures CellOf(CompleteOne(db, now, slaMs, w, o), o.job.id) ==
            CellOf(db, o.job.id).(
              row := Some(db.queue[o.job.id].(owner := None, nextAttemptAt := now + o.delayMs * MILLISECOND)))
  {
    RefundForCases(db, now, o);
  }

  // ---------------------------------------------------------------------------
  // Sweeps

  /** The row as its claim left it: owned, at this generation, until this deadline. */
  predicate Leased(s: Sys, k: JobKey, owner: WorkerId, deadline: Time)
  {
    && k.id in s.db.queue && deadline > s.now
    && s.db.queue[k.id].owner == Some(owner) && s.db.queue[k.id].version == k.version
    && s.db.queue[k.id].nextAttemptAt == deadline
  }

  function KeepsLease(k: JobKey, owner: WorkerId, deadline: Time): Sys -> bool
  {
    (s: Sys) => Leased(s, k, owner, deadline)
  }

  /**
   No sweep takes a row from a worker that is still sending, in any reachable
   state and whatever rows it picks: an undecided lease keeps its owner, its
   generation and its deadline.
   */
  lemma SweepsSpareLiveLeases(cfg: Config, start: Time, es: seq<Event>, e: Event, k: JobKey)
    requires ValidConfig(cfg) && (e.Expire? || e.RemoveOrphans? || e.FlagSLA? || e.ReassignLanes?)
    requires var s := Run(cfg, Init(start), es);
             k in s.jobs && k !in s.outcomes && s.jobs[k].deadline > s.now && k.id in s.db.messages
    ensures var s := Run(cfg, Init(start), es);
            Leased(s, k, s.jobs[k].worker, s.jobs[k].deadline)
            && Leased(Next(cfg, s, e), k, s.jobs[k].worker, s.jobs[k].deadline)
  {
    var s := Run(cfg, Init(start), es);
    assert Leased(s, k, s.jobs[k].worker, s.jobs[k].deadline) by {
      Always(cfg, start, es);
      assert JobOk(s.now, None, CellOf(s.db, k.id), s.jobs[k]);
    }
    SweepKeepsLease(cfg, s, e, k, s.jobs[k].worker, s.jobs[k].deadline);
  }

  lemma SweepKeepsLease(cfg: Config, s: Sys, e: Event, k: JobKey, owner: WorkerId, deadline: Time)
    requires Leased(s, k, owner, deadline) && (e.Expire? || e.RemoveOrphans? || e.FlagSLA? || e.ReassignLanes?)
    ensures Leased(Next(cfg, s, e), k, owner, deadline)
  {
    var p := KeepsLease(k, owner, deadline);
    match e
    case Expire(ids) => FoldKeeps(ExpireRow(), s, ids, p);
    case RemoveOrphans(ids) => FoldKeeps(OrphanRow(), s, ids, p);
    case FlagSLA(ids) => FoldKeeps(FlagRow(cfg), s, ids, p);
    case ReassignLanes(lanes, laneHash, ids) => if lanes > 0 { FoldKeeps(ReassignRow(lanes, laneHash), s, ids, p); }
  }

  // ---------------------------------------------------------------------------
  // Whole claims

  /** A picked row of the lane whose time has come, new, released or left by a dead worker, of an accepted message. */
  ghost predicate Picked(s: Sys, lane: Lane, ids: seq<Id>, id: Id)
  {
    && id in ids && id in s.db.queue && id in s.db.messages
    && s.db.queue[id].lane == lane && s.db.queue[id].nextAttemptAt <= s.now && s.db.messages[id].status.Accepted?
  }

  /**
   A claim, whatever rows it picks and however often: each ready row gets this
   owner, the next generation and the deadline, once, and a job with the stored
   values that was never in the air before; every other row and table stays as it
   is, and no claimed row can be claimed again before the deadline.
   */
  lemma ClaimLeases(cfg: Config, start: Time, es: seq<Event>, w: WorkerId, lane: Lane, leaseMs: int, ids: seq<Id>)
    requires ValidConfig(cfg) && leaseMs > 0
    ensures var s := Run(cfg, Init(start), es);
            var t := Next(cfg, s, Claim(w, lane, leaseMs, ids));
            && t == s.(db := s.db.(queue := t.db.queue), jobs := t.jobs)
            && (forall id: Id :: RowAfterClaim(s, t, w, lane, leaseMs, ids, id))
            && (forall k: JobKey :: JobAfterClaim(s, t, w, lane, leaseMs, ids, k))
            && (forall id, later, lane' | Picked(s, lane, ids, id) && later < s.now + leaseMs * MILLISECOND ::
                  !Claims.Claimable(t.db, later, lane', id))
            && (forall id | Picked(s, lane, ids, id) :: JobKey(id, s.db.queue[id].version + 1) !in s.jobs)
  {
    var s := Run(cfg, Init(start), es);
    var t := Fold(ClaimRow(w, lane, leaseMs), s, ids);
    ClaimRows(cfg, s, w, lane, leaseMs, ids);
    forall id, later, lane' | Picked(s, lane, ids, id) && later < s.now + leaseMs * MILLISECOND
      ensures !Claims.Claimable(t.db, later, lane', id)
    {
      assert RowAfterClaim(s, t, w, lane, leaseMs, ids, id);
    }
    forall id | Picked(s, lane, ids, id) ensures JobKey(id, s.db.queue[id].version + 1) !in s.jobs {
      NextGenerationIsNew(cfg, start, es, id);
    }
  }

  lemma NextGenerationIsNew(cfg: Config, start: Time, es: seq<Event>, id: Id)
    requires ValidConfig(cfg) && id in Run(cfg, Init(start), es).db.queue
    ensures var s := Run(cfg, Init(start), es); JobKey(id, s.db.queue[id].version + 1) !in s.jobs
  {
    var s := Run(cfg, Init(start), es);
    Always(cfg, start, es);
    forall k | k in s.jobs && k.id == id ensures k.version <= s.db.queue[id].version {
      assert JobOk(s.now, Lookup(s.outcomes, k), CellOf(s.db, id), s.jobs[k]);
    }
  }

  ghost predicate RowAfterClaim(s: Sys, t: Sys, w: WorkerId, lane: Lane, leaseMs: int, ids: seq<Id>, id: Id)
  {
    Lookup(t.db.queue, id) ==
    if Picked(s, lane, ids, id) then
      var r := s.db.queue[id];
      Some(r.(owner := Some(w), version := r.version + 1, nextAttemptAt := s.now + leaseMs * MILLISECOND))
    else Lookup(s.db.queue, id)
  }

  ghost predicate JobAfterClaim(s: Sys, t: Sys, w: WorkerId, lane: Lane, leaseMs: int, ids: seq<Id>, k: JobKey)
  {
    if Picked(s, lane, ids, k.id) && k.version == s.db.queue[k.id].version + 1 then
      var m := s.db.messages[k.id];
      Lookup(t.jobs, k) ==
      Some(Job(k.id, w, if lane.ExpressLane? then Express else Normal, m.service, m.attempts, m.acceptedAt, m.expiresAt,
               k.version, s.now, s.now + leaseMs * MILLISECOND))
    else Lookup(t.jobs, k) == Lookup(s.jobs, k)
  }

  /** Picking one row adds its next job exactly when the row is ready and its message is still accepted. */
  lemma ClaimedIffReady(cfg: Config, start: Time, es: seq<Event>, w: WorkerId, lane: Lane, leaseMs: int, id: Id)
    requires ValidConfig(cfg) && leaseMs > 0 && id in Run(cfg, Init(start), es).db.queue
    ensures var s := Run(cfg, Init(start), es);
            var r := s.db.queue[id];
            && id in s.db.messages
            && (JobKey(id, r.version + 1) in Next(cfg, s, Claim(w, lane, leaseMs, [id])).jobs <==>
                r.lane == lane && r.nextAttemptAt <= s.now && s.db.messages[id].status.Accepted?)
  {
    var s := Run(cfg, Init(start), es);
    var k := JobKey(id, s.db.queue[id].version + 1);
    ClaimRows(cfg, s, w, lane, leaseMs, [id]);
    assert JobAfterClaim(s, Fold(ClaimRow(w, lane, leaseMs), s, [id]), w, lane, leaseMs, [id], k);
    NextGenerationIsNew(cfg, start, es, id);
    assert id in s.db.messages by {
      Always(cfg, start, es);
      assert CellOk(cfg, s.now, CellOf(s.db, id));
    }
  }

  /**
   A message whose worker crashed is not lost: once the lease of an unfinished job
   has run out, any worker that picks the row gets the next generation, for as long
   as the message is accepted and no one else has claimed it.
   */
  lemma ExpiredLeaseIsClaimedAgain(cfg: Config, start: Time, es: seq<Event>, k: JobKey, w: WorkerId, leaseMs: int)
    requires ValidConfig(cfg) && leaseMs > 0
    requires var s := Run(cfg, Init(start), es);
             && k in s.jobs && s.jobs[k].deadline <= s.now
             && k.id in s.db.messages && s.db.messages[k.id].status.Accepted?
    ensures var s := Run(cfg, Init(start), es);
            && k.id in s.db.queue
            && (s.db.queue[k.id].version == k.version && (k !in s.outcomes || s.db.queue[k.id].owner.Some?) ==>
                  JobKey(k.id, k.version + 1) in Next(cfg, s, Claim(w, s.db.queue[k.id].lane, leaseMs, [k.id])).jobs)
  {
    var s := Run(cfg, Init(start), es);
    assert k == KeyOf(s.jobs[k]) && k.id in s.db.queue
           && JobOk(s.now, Lookup(s.outcomes, k), CellOf(s.db, k.id), s.jobs[k]) by {
      Always(cfg, start, es);
      assert CellOk(cfg, s.now, CellOf(s.db, k.id));
    }
    ClaimedIffReady(cfg, start, es, w, s.db.queue[k.id].lane, leaseMs, k.id);
  }

  lemma {:induction false} ClaimRows(cfg: Config, s: Sys, w: WorkerId, lane: Lane, leaseMs: int, ids: seq<Id>)
    requires leaseMs > 0
    ensures var t := Fold(ClaimRow(w, lane, leaseMs), s, ids);
            && t == s.(db := s.db.(queue := t.db.queue), jobs := t.jobs)
            && (forall id: Id :: RowAfterClaim(s, t, w, lane, leaseMs, ids, id))
            && (forall k: JobKey :: JobAfterClaim(s, t, w, lane, leaseMs, ids, k))
  {
    if ids != [] {
      var init, x := ids[..|ids| - 1], ids[|ids| - 1];
      var t := Fold(ClaimRow(w, lane, leaseMs), s, init);
      ClaimRows(cfg, s, w, lane, leaseMs, init);
      assert ids == init + [x];
      assert RowAfterClaim(s, t, w, lane, leaseMs, init, x);
      assert Claims.Claimable(t.db, t.now, lane, x) <==> Picked(s, lane, ids, x) && !Picked(s, lane, init, x);
      var t' := ClaimRow(w, lane, leaseMs)(t, x);
      forall id: Id ensures RowAfterClaim(s, t', w, lane, leaseMs, ids, id) {
        assert RowAfterClaim(s, t, w, lane, leaseMs, init, id);
      }
      forall k: JobKey ensures JobAfterClaim(s, t', w, lane, leaseMs, ids, k) {
        assert JobAfterClaim(s, t, w, lane, leaseMs, init, k);
      }
    }
  }

  // ---------------------------------------------------------------------------
  // Whole report batches

  /**
   A batch of reports finishes exactly the accepted and sent messages it names,
   each as its first report says, and fills in missing provider details; nothing
   else changes.
   */
  lemma ReportFinishes(cfg: Config, s: Sys, rs: seq<Reports.Report>, id: Id)
    requires forall r | r in rs :: r.status.Delivered? || r.status.Undelivered?
    ensures var t := Next(cfg, s, Report(rs));
            && t == s.(db := s.db.(messages := t.db.messages))
            && if id in s.db.messages && !Terminal(s.db.messages[id].status) && Reports.Mentioned(rs, id) then
                 && id in t.db.messages
                 && var m, m', r := s.db.messages[id], t.db.messages[id], rs[Reports.First(rs, id)];
                    && m'.status == r.status && m'.completedAt == Some(s.now)
                    && m'.provider == Some(if m.provider.Some? then m.provider.value else r.provider)
                    && m'.providerRef == Some(if m.providerRef.Some? then m.providerRef.value else r.providerRef)
                    && m'.sentAt == m.sentAt && m'.attempts == m.attempts && SameOrigin(m, m')
               else Lookup(t.db.messages, id) == Lookup(s.db.messages, id)
  {
    Lifecycle.ReportIsTransaction(cfg, s, rs);
    Reports.ReportAllAt(s.db.messages, s.now, rs, id);
    assert Lookup(Next(cfg, s, Report(rs)).db.messages, id) == Lookup(Reports.ReportAll(s.db.messages, s.now, rs), id);
  }

  // ---------------------------------------------------------------------------
  // Acceptance

  /** The messages, ledger rows and queue rows of an accepted submission. */
  lemma {:induction false} AcceptedRows(db: Db, accept: Accepting.AcceptConfig, now: Time, c: Id,
                                        ps: seq<Accepting.Placed>, i: nat)
    requires accept.normalLanes > 0 && DistinctBy(Accepting.IdOf, ps) && i < |ps|
    ensures var t, id, it := Accepting.AcceptAll(db, accept, now, c, ps), ps[i].id, ps[i].item;
            && Lookup(t.messages, id) == Some(Accepting.NewMessage(accept, c, now, it))
            && Lookup(t.queue, id) == Some(Accepting.NewRow(accept, c, now, it))
            && Lookup(t.txs, DebitOf(id)) == Some(Tx(c, -it.cost, now))
  {
    var n := |ps| - 1;
    if i < n {
      AcceptedRows(db, accept, now, c, ps[..n], i);
      assert ps[..n][i] == ps[i];
    }
  }

  /** Express items go to the express lane, others to an existing normal lane. */
  lemma LaneOfItem(accept: Accepting.AcceptConfig, c: Id, service: Class)
    requires accept.normalLanes > 0
    ensures var lane := Accepting.LaneFor(service, c, accept.normalLanes, accept.laneHash);
            && (lane.ExpressLane? <==> service.Express?)
            && (lane.NormalLane? ==> lane.index < accept.normalLanes)
  {
  }

  /** The message and queue row describe the item. */
  ghost predicate Records(db: Db, now: Time, accept: Accepting.AcceptConfig, c: Id, id: Id, it: Accepting.Item)
  {
    && id in db.messages && id in db.queue
    && var m, r := db.messages[id], db.queue[id];
       && m.customer == c && m.service == it.service && m.recipient == it.to && m.body == it.text
       && m.encoding == it.encoding && m.segments == it.segments && m.cost == it.cost
       && m.status.Accepted? && m.attempts == 0 && m.acceptedAt == m.updatedAt == now && !m.slaBreached
       && m.clientRef == (if it.ref == "" then None else Some(it.ref))
       && m.provider == m.providerRef == m.lastError == None && m.reason == None && m.sentAt == m.completedAt == None
       && m.expiresAt == r.expiresAt
          == now + (if it.service.Express? then accept.expressTtlMs else accept.normalTtlMs) * MILLISECOND
       && r.owner == None && r.version == 0 && r.nextAttemptAt == now
       && (r.lane.ExpressLane? <==> it.service.Express?)
       && (r.lane.NormalLane? ==> r.lane.index < accept.normalLanes)
  }

  lemma RowsDescribe(t: Db, accept: Accepting.AcceptConfig, now: Time, c: Id, id: Id, it: Accepting.Item)
    requires accept.normalLanes > 0
    requires Lookup(t.messages, id) == Some(Accepting.NewMessage(accept, c, now, it))
    requires Lookup(t.queue, id) == Some(Accepting.NewRow(accept, c, now, it))
    ensures Records(t, now, accept, c, id, it)
  {
    LaneOfItem(accept, c, it.service);
  }

  lemma CustomerPays(db: Db, accept: Accepting.AcceptConfig, now: Time, c: Id, ps: seq<Accepting.Placed>)
    requires accept.normalLanes > 0 && ps != [] && c in db.customers
    ensures Accepting.AcceptAll(db, accept, now, c, ps).customers ==
            db.customers[c := Customer(db.customers[c].balance - Accepting.TotalCost(ps), now)]
  {
    Accepting.AcceptedTableByTable(db, accept, now, c, ps);
  }

  /**
   An accepted submission records every item as described, debited at its cost,
   queued in its customer's lane and ready now, expiring after its class's time
   to live; the customer pays the total and no other customer changes.
   */
  lemma AcceptanceRecords(db: Db, accept: Accepting.AcceptConfig, now: Time, c: Id, ps: seq<Accepting.Placed>, i: nat)
    requires accept.normalLanes > 0 && DistinctBy(Accepting.IdOf, ps) && i < |ps|
    requires Accepting.InsertDecision(db, c, ps) == Accepting.Inserted
    ensures var t := Accepting.AfterInsert(db, accept, now, c, ps);
            && Records(t, now, accept, c, ps[i].id, ps[i].item)
            && Lookup(t.txs, DebitOf(ps[i].id)) == Some(Tx(c, -ps[i].item.cost, now))
            && t.customers == db.customers[c := Customer(db.customers[c].balance - Accepting.TotalCost(ps), now)]
  {
    AcceptedRows(db, accept, now, c, ps, i);
    RowsDescribe(Accepting.AcceptAll(db, accept, now, c, ps), accept, now, c, ps[i].id, ps[i].item);
    CustomerPays(db, accept, now, c, ps);
  }
}
