/** The life of a message over whole runs: statuses, attempts and SLA flags. */
module Lifecycle {
  import opened Tables
  import opened Folds
  import opened Cells
  import opened Gateway
  import opened Runs
  import Reports
  import Sweeping

  /** Between any two points of a run, a message only moves forward and keeps its origin. */
  lemma StatusesOnlyMoveForward(cfg: Config, start: Time, before: seq<Event>, after: seq<Event>, id: Id)
    requires ValidConfig(cfg)
    requires var s := Run(cfg, Init(start), before);
             id in s.db.messages && id in Run(cfg, s, after).db.messages
    ensures var s := Run(cfg, Init(start), before);
            var m, m' := s.db.messages[id], Run(cfg, s, after).db.messages[id];
            && SameOrigin(m, m')
            && (Terminal(m.status) ==> m'.status == m.status && m'.reason == m.reason && m'.completedAt == m.completedAt)
            && (m.status.Sent? ==> m'.status.Sent? || m'.status.Delivered? || m'.status.Undelivered?)
            && (m'.status.Accepted? ==> m.status.Accepted?)
            && (m.sentAt.Some? ==> m'.sentAt == m.sentAt)
            && m.attempts <= m'.attempts
  {
    var s := Run(cfg, Init(start), before);
    Always(cfg, start, before);
    RunKeeps(cfg, s, after);
    assert id in s.issued;
    assert CellEvolves(CellOf(s.db, id), CellOf(Run(cfg, s, after).db, id));
  }

  /** A message that left the accepted status, by a report or otherwise, is never claimed again. */
  lemma FinishedMessagesAreNotClaimed(cfg: Config, start: Time, before: seq<Event>, after: seq<Event>, k: JobKey)
    requires ValidConfig(cfg)
    requires var s := Run(cfg, Init(start), before);
             k.id in s.db.messages && !s.db.messages[k.id].status.Accepted? && k in Run(cfg, s, after).jobs
    ensures k in Run(cfg, Init(start), before).jobs
  {
    var s := Run(cfg, Init(start), before);
    Always(cfg, start, before);
    RunKeeps(cfg, s, after);
    NotClaimedSince(s, Run(cfg, s, after), k);
  }

  lemma NotClaimedSince(s: Sys, t: Sys, k: JobKey)
    requires Linked(s) && Evolves(s, t) && k in t.jobs
    requires k.id in s.db.messages && !s.db.messages[k.id].status.Accepted?
    ensures k in s.jobs
  {
    assert k.id in s.issued;
    assert CellOf(s.db, k.id).msg == Some(s.db.messages[k.id]);
  }

  /** A message, its queue row or its customer, once gone, is gone for good. */
  lemma NothingComesBack(cfg: Config, start: Time, before: seq<Event>, after: seq<Event>, id: Id)
    requires ValidConfig(cfg) && id in Run(cfg, Init(start), before).issued
    ensures var s := Run(cfg, Init(start), before);
            var t := Run(cfg, s, after);
            && (id in t.db.messages ==> id in s.db.messages)
            && (id in t.db.queue ==> id in s.db.queue)
            && (id in t.db.customers ==> id in s.db.customers)
  {
    var s := Run(cfg, Init(start), before);
    Always(cfg, start, before);
    RunKeeps(cfg, s, after);
    assert CellEvolves(CellOf(s.db, id), CellOf(Run(cfg, s, after).db, id));
  }

  /** Attempts stay within the class maximum, and exhaustion means the maximum was used. */
  lemma AttemptsAreBounded(cfg: Config, start: Time, es: seq<Event>, id: Id)
    requires ValidConfig(cfg) && id in Run(cfg, Init(start), es).db.messages
    ensures var m := Run(cfg, Init(start), es).db.messages[id];
            var most := if m.service.Express? then cfg.express.maxAttempts else cfg.normal.maxAttempts;
            && 0 <= m.attempts <= most
            && (m.status.Accepted? ==> m.attempts < most)
            && (m.reason == Some(AttemptsExhausted) ==> m.status.Failed? && m.attempts == most)
  {
    var s := Run(cfg, Init(start), es);
    Always(cfg, start, es);
    assert CellOk(cfg, s.now, CellOf(s.db, id));
  }

  /**
   Only Express messages are flagged. Every Express message that failed, expired
   or was sent beyond the SLA is; any other one is flagged only beyond the SLA.
   */
  lemma SlaFlags(cfg: Config, start: Time, es: seq<Event>, id: Id)
    requires ValidConfig(cfg) && id in Run(cfg, Init(start), es).db.messages
    ensures var s := Run(cfg, Init(start), es);
            var m := s.db.messages[id];
            && (m.service.Normal? ==> !m.slaBreached)
            && (m.service.Express? && (m.status.Failed? || m.status.Expired?) ==> m.slaBreached)
            && (m.service.Express? && m.sentAt.Some? && m.sentAt.value - m.acceptedAt > cfg.slaMs * MILLISECOND ==>
                  m.slaBreached)
            && (m.slaBreached && m.status != Failed && m.status != Expired ==>
                  s.now - m.acceptedAt > cfg.slaMs * MILLISECOND)
  {
    var s := Run(cfg, Init(start), es);
    Always(cfg, start, es);
    assert CellOk(cfg, s.now, CellOf(s.db, id));
  }

  /** A refunded message was never recorded as sent, and a queued message is still to be sent. */
  lemma RefundedMessagesWereNotSent(cfg: Config, start: Time, es: seq<Event>, id: Id)
    requires ValidConfig(cfg) && id in Run(cfg, Init(start), es).db.messages
    ensures var db := Run(cfg, Init(start), es).db;
            && (Refunded(db.messages[id].status) ==> db.messages[id].sentAt.None? && id !in db.queue)
            && (id in db.queue ==> db.messages[id].sentAt.None?
                                   && (db.queue[id].lane.ExpressLane? <==> db.messages[id].service.Express?))
  {
    var s := Run(cfg, Init(start), es);
    Always(cfg, start, es);
    assert CellOk(cfg, s.now, CellOf(s.db, id));
  }

  // ---------------------------------------------------------------------------
  // The events are the transactions

  /** The report event is the report transaction. */
  lemma ReportIsTransaction(cfg: Config, s: Sys, rs: seq<Reports.Report>)
    requires forall r | r in rs :: Reports.WellFormed(r)
    ensures Next(cfg, s, Report(rs)) == s.(db := s.db.(messages := Reports.ReportAll(s.db.messages, s.now, rs)))
  {
    ReportFolds(s, rs);
  }

  lemma {:induction false} ReportFolds(s: Sys, rs: seq<Reports.Report>)
    requires forall r | r in rs :: Reports.WellFormed(r)
    ensures Fold(ReportRow(), s, rs) == s.(db := s.db.(messages := Reports.ReportAll(s.db.messages, s.now, rs)))
  {
    if rs != [] {
      ReportFolds(s, rs[..|rs| - 1]);
    }
  }

  /** Each sweep event is its task's transaction. */
  lemma SweepsAreTransactions(cfg: Config, s: Sys, ids: seq<Id>, lanes: nat, laneHash: Id -> nat)
    requires lanes > 0
    ensures Next(cfg, s, Expire(ids)) == s.(db := Fold(Sweeping.Expiring(s.now), s.db, ids))
    ensures Next(cfg, s, FlagSLA(ids)) == s.(db := Fold(Sweeping.Flagging(s.now, cfg.slaMs), s.db, ids))
    ensures Next(cfg, s, RemoveOrphans(ids)) == s.(db := Fold(Sweeping.Orphaning(s.now), s.db, ids))
    ensures Next(cfg, s, ReassignLanes(lanes, laneHash, ids)) ==
            s.(db := Fold(Sweeping.Reassigning(lanes, laneHash), s.db, ids))
  {
    SweepFolds(cfg, s, ids, lanes, laneHash);
  }

  lemma {:induction false} SweepFolds(cfg: Config, s: Sys, ids: seq<Id>, lanes: nat, laneHash: Id -> nat)
    requires lanes > 0
    ensures Fold(ExpireRow(), s, ids) == s.(db := Fold(Sweeping.Expiring(s.now), s.db, ids))
    ensures Fold(FlagRow(cfg), s, ids) == s.(db := Fold(Sweeping.Flagging(s.now, cfg.slaMs), s.db, ids))
    ensures Fold(OrphanRow(), s, ids) == s.(db := Fold(Sweeping.Orphaning(s.now), s.db, ids))
    ensures Fold(ReassignRow(lanes, laneHash), s, ids) == s.(db := Fold(Sweeping.Reassigning(lanes, laneHash), s.db, ids))
  {
    if ids != [] {
      SweepFolds(cfg, s, ids[..|ids| - 1], lanes, laneHash);
    }
  }
}
