/** Every event keeps the invariant and changes the state only as a run may. */
module Invariance {
  import opened Tables
  import opened Billing
  import opened Cells
  import opened Gateway
  import opened RowSteps
  import Accepting
  import Claims
  import Completion
  import Reports
  import Sums
  import Sweeping

  // ---------------------------------------------------------------------------
  // A step that touches one message

  ghost predicate OnlyCell(db: Db, db': Db, id: Id)
  {
    && (forall x: Id | x != id :: CellOf(db', x) == CellOf(db, x))
    && (forall k: TxKey | k.ChargeOf? :: Lookup(db'.txs, k) == Lookup(db.txs, k))
    && db'.customers.Keys == db.customers.Keys
  }

  lemma SameCells(db: Db, db': Db, id: Id)
    requires OnlyCell(db, db', id)
    ensures forall x: Id | x != id :: Lookup(db'.messages, x) == Lookup(db.messages, x)
  {
    forall x: Id | x != id ensures Lookup(db'.messages, x) == Lookup(db.messages, x) {
      assert CellOf(db', x) == CellOf(db, x);
    }
  }

  lemma CellsStayOk(cfg: Config, s: Sys, s': Sys, id: Id)
    requires CellsOk(cfg, s) && s'.now == s.now && OnlyCell(s.db, s'.db, id)
    requires CellOk(cfg, s.now, CellOf(s'.db, id))
    ensures CellsOk(cfg, s')
  {
    forall x: Id ensures CellOk(cfg, s'.now, CellOf(s'.db, x)) {
      assert CellOk(cfg, s.now, CellOf(s.db, x));
    }
  }

  /** The message keeps its customer and its client_ref. */
  ghost predicate SameMessage(db: Db, db': Db, id: Id)
  {
    && (id in db.messages <==> id in db'.messages)
    && (id in db.messages ==> SameOrigin(db.messages[id], db'.messages[id]))
  }

  lemma LinksStay(s: Sys, s': Sys, id: Id)
    requires Linked(s) && s'.issued == s.issued && OnlyCell(s.db, s'.db, id) && SameMessage(s.db, s'.db, id)
    ensures Linked(s')
  {
    SameCells(s.db, s'.db, id);
    forall x | x in s'.db.messages ensures s'.db.messages[x].customer in s'.db.customers && x in s'.issued {
      assert x != id ==> Lookup(s'.db.messages, x) == Lookup(s.db.messages, x);
      assert x in s.db.messages;
    }
    forall k | k in s'.db.txs && k.ChargeOf?
      ensures s'.db.txs[k].customer == k.customer && k.customer in s'.db.customers && s'.db.txs[k].amount > 0
    {
      assert Lookup(s'.db.txs, k) == Lookup(s.db.txs, k);
    }
  }

  lemma RefsStayUnique(db: Db, db': Db, id: Id)
    requires Accepting.UniqueRefs(db.messages) && OnlyCell(db, db', id) && SameMessage(db, db', id)
    ensures Accepting.UniqueRefs(db'.messages)
  {
    SameCells(db, db', id);
    forall x | x in db'.messages
      ensures x in db.messages && db'.messages[x].customer == db.messages[x].customer
              && db'.messages[x].clientRef == db.messages[x].clientRef
    {
      assert x != id ==> Lookup(db'.messages, x) == Lookup(db.messages, x);
    }
  }

  lemma JobsStayOk(s: Sys, s': Sys, id: Id)
    requires JobsOk(s) && s' == s.(db := s'.db) && OnlyCell(s.db, s'.db, id)
    requires forall k | k in s.jobs && k.id == id :: JobOk(s.now, Lookup(s.outcomes, k), CellOf(s'.db, id), s.jobs[k])
    ensures JobsOk(s')
  {
    forall k | k in s'.jobs
      ensures k == KeyOf(s'.jobs[k]) && k.id in s'.issued
              && JobOk(s'.now, Lookup(s'.outcomes, k), CellOf(s'.db, k.id), s'.jobs[k])
    {
      assert k.id != id ==> CellOf(s'.db, k.id) == CellOf(s.db, k.id);
    }
  }

  lemma OneCellEvolves(cfg: Config, s: Sys, s': Sys, id: Id)
    requires CellsOk(cfg, s) && s' == s.(db := s'.db, jobs := s'.jobs) && OnlyCell(s.db, s'.db, id)
    requires CellEvolves(CellOf(s.db, id), CellOf(s'.db, id)) && (id in s.db.messages ==> id in s'.db.messages)
    requires forall k | k in s.jobs :: k in s'.jobs && s'.jobs[k] == s.jobs[k]
    requires forall k | k in s'.jobs && k !in s.jobs :: k.id == id && ClaimableFrom(CellOf(s.db, id), k.version)
    ensures Evolves(s, s')
  {
    forall x: Id | x in s.issued ensures CellEvolves(CellOf(s.db, x), CellOf(s'.db, x)) {
      assert CellOk(cfg, s.now, CellOf(s.db, x));
    }
    SameCells(s.db, s'.db, id);
    forall x | x in s.db.messages ensures x in s'.db.messages {
      assert x != id ==> Lookup(s'.db.messages, x) == Lookup(s.db.messages, x);
    }
    forall k | k in s.db.txs && k.ChargeOf? ensures k in s'.db.txs && s'.db.txs[k] == s.db.txs[k] {
      assert Lookup(s'.db.txs, k) == Lookup(s.db.txs, k);
    }
  }

  /** A row operation keeps the invariant if it keeps its message's cell, jobs and ledger right. */
  lemma RowStep(cfg: Config, s: Sys, s': Sys, id: Id)
    requires Inv(cfg, s) && s' == s.(db := s'.db) && OnlyCell(s.db, s'.db, id) && Balanced(s'.db)
    requires CellOk(cfg, s.now, CellOf(s'.db, id)) && CellEvolves(CellOf(s.db, id), CellOf(s'.db, id))
    requires SameMessage(s.db, s'.db, id)
    requires forall k | k in s.jobs && k.id == id :: JobOk(s.now, Lookup(s.outcomes, k), CellOf(s'.db, id), s.jobs[k])
    ensures Inv(cfg, s') && Evolves(s, s')
  {
    CellsStayOk(cfg, s, s', id);
    LinksStay(s, s', id);
    RefsStayUnique(s.db, s'.db, id);
    JobsStayOk(s, s', id);
    OneCellEvolves(cfg, s, s', id);
  }

  // ---------------------------------------------------------------------------
  // The ledger

  /** A refund adds to the balance exactly what it adds to the transactions. */
  lemma RefundBalances(db: Db, now: Time, r: Refund)
    requires Balanced(db) && RefundOf(r.message) !in db.txs && r.amount >= 0
    ensures Balanced(RefundOne(db, now, r))
  {
    var db' := RefundOne(db, now, r);
    forall c | c in db'.customers
      ensures db'.customers[c].balance == Sums.Total(db'.txs, CreditTo(c)) >= 0
    {
      Sums.TotalAdd(db.txs, CreditTo(c), RefundOf(r.message), Tx(r.customer, r.amount, now));
      assert c in db.customers;
    }
  }

  lemma EvolvesFromItself(cfg: Config, s: Sys)
    requires CellsOk(cfg, s)
    ensures Evolves(s, s)
  {
    forall id: Id | id in s.issued ensures CellEvolves(CellOf(s.db, id), CellOf(s.db, id)) {
      assert CellOk(cfg, s.now, CellOf(s.db, id));
    }
  }

  // ---------------------------------------------------------------------------
  // Completion

  lemma CompleteRowKeeps(cfg: Config, s: Sys, w: WorkerId, o: Outcome)
    requires Inv(cfg, s)
    ensures Inv(cfg, CompleteRow(cfg, w)(s, o)) && Evolves(s, CompleteRow(cfg, w)(s, o))
  {
    var s' := CompleteRow(cfg, w)(s, o);
    if InAir(s, w, o) && Completion.Owned(s.db, w, o) {
      var id := o.job.id;
      CompletedCellFits(cfg, s, w, o);
      CompletionBalances(cfg, s, w, o);
      CompletionFrames(s.db, s.now, cfg.slaMs, w, o);
      RowStep(cfg, s, s', id);
    } else {
      assert s' == s;
      EvolvesFromItself(cfg, s);
    }
  }

  lemma CompletionFrames(db: Db, now: Time, slaMs: int, w: WorkerId, o: Outcome)
    ensures OnlyCell(db, Completion.CompleteOne(db, now, slaMs, w, o), o.job.id)
  {
    Completion.CompleteOneFrame(db, now, slaMs, w, o);
  }

  lemma CompletedCellFits(cfg: Config, s: Sys, w: WorkerId, o: Outcome)
    requires Inv(cfg, s) && InAir(s, w, o) && Completion.Owned(s.db, w, o)
    ensures var db' := Completion.CompleteOne(s.db, s.now, cfg.slaMs, w, o);
            && CellOk(cfg, s.now, CellOf(db', o.job.id))
            && CellEvolves(CellOf(s.db, o.job.id), CellOf(db', o.job.id))
            && SameMessage(s.db, db', o.job.id)
            && forall k | k in s.jobs && k.id == o.job.id ::
                 JobOk(s.now, Lookup(s.outcomes, k), CellOf(db', o.job.id), s.jobs[k])
  {
    var id := o.job.id;
    var c := CellOf(s.db, id);
    assert CellOk(cfg, s.now, c);
    assert KeyOf(o.job) in s.jobs && s.jobs[KeyOf(o.job)] == o.job;
    CompleteOneCell(s.db, s.now, cfg.slaMs, w, o);
    CompletedCellOk(cfg, s.now, c, o);
    forall k | k in s.jobs && k.id == id
      ensures JobOk(s.now, Lookup(s.outcomes, k), CompletedCell(c, s.now, cfg.slaMs, o), s.jobs[k])
    {
      assert k == KeyOf(s.jobs[k]);
      CompletedCellJob(cfg, s.now, c, o, s.jobs[k], Lookup(s.outcomes, k));
    }
    assert CellOf(Completion.CompleteOne(s.db, s.now, cfg.slaMs, w, o), id).msg.Some?;
  }

  lemma CompletionBalances(cfg: Config, s: Sys, w: WorkerId, o: Outcome)
    requires Inv(cfg, s) && Completion.Owned(s.db, w, o)
    ensures Balanced(Completion.CompleteOne(s.db, s.now, cfg.slaMs, w, o))
  {
    var db, id := s.db, o.job.id;
    Completion.CompleteOneParts(db, s.now, cfg.slaMs, w, o);
    if Completion.EndsMessage(o) && Completion.Applies(db.messages, o) {
      assert CellOk(cfg, s.now, CellOf(db, id));
      var r := Refund(db.messages[id].customer, id, db.messages[id].cost);
      RefundBalances(db, s.now, r);
      SameLedgerBalances(RefundOne(db, s.now, r), Completion.CompleteOne(db, s.now, cfg.slaMs, w, o));
    } else {
      SameLedgerBalances(db, Completion.CompleteOne(db, s.now, cfg.slaMs, w, o));
    }
  }

  lemma SameLedgerBalances(db: Db, db': Db)
    requires Balanced(db) && db'.txs == db.txs && db'.customers == db.customers
    ensures Balanced(db')
  {
  }

  // ---------------------------------------------------------------------------
  // Reports, claims and sweeps

  lemma ReportRowKeeps(cfg: Config, s: Sys, r: Reports.Report)
    requires Inv(cfg, s)
    ensures Inv(cfg, ReportRow()(s, r)) && Evolves(s, ReportRow()(s, r))
  {
    var s' := ReportRow()(s, r);
    if Reports.WellFormed(r) {
      var id := r.message;
      var c := CellOf(s.db, id);
      assert CellOk(cfg, s.now, c);
      ReportOneCell(s.db, s.now, r);
      forall k | k in s.jobs && k.id == id ensures JobOk(s.now, Lookup(s.outcomes, k), ReportedCell(c, s.now, r), s.jobs[k]) {
        ReportedCellOk(cfg, s.now, c, r, s.jobs[k], Lookup(s.outcomes, k));
      }
      ReportedCellOk(cfg, s.now, c, r, AnyJob(), None);
      SameLedgerBalances(s.db, s'.db);
      RowStep(cfg, s, s', id);
    } else {
      EvolvesFromItself(cfg, s);
    }
  }

  function AnyJob(): Job { Job(0, "", Normal, Normal, 0, 0, 0, 0, 0, 0) }

  lemma ExpireRowKeeps(cfg: Config, s: Sys, id: Id)
    requires Inv(cfg, s)
    ensures Inv(cfg, ExpireRow()(s, id)) && Evolves(s, ExpireRow()(s, id))
  {
    var s' := ExpireRow()(s, id);
    if Sweeping.Due(s.db, s.now, id) && Sweeping.StillAccepted(s.db.messages, id) {
      var c := CellOf(s.db, id);
      assert CellOk(cfg, s.now, c);
      forall k | k in s.jobs && k.id == id ensures JobOk(s.now, Lookup(s.outcomes, k), CellOf(s'.db, id), s.jobs[k]) {
        ExpireOneCell(cfg, s.db, s.now, id, s.jobs[k], Lookup(s.outcomes, k));
      }
      ExpireOneCell(cfg, s.db, s.now, id, AnyJob(), None);
      var r := Refund(s.db.messages[id].customer, id, s.db.messages[id].cost);
      RefundBalances(s.db, s.now, r);
      SameLedgerBalances(RefundOne(s.db, s.now, r), s'.db);
      RowStep(cfg, s, s', id);
    } else {
      EvolvesFromItself(cfg, s);
    }
  }

  lemma FlagRowKeeps(cfg: Config, s: Sys, id: Id)
    requires Inv(cfg, s)
    ensures Inv(cfg, FlagRow(cfg)(s, id)) && Evolves(s, FlagRow(cfg)(s, id))
  {
    var s' := FlagRow(cfg)(s, id);
    if Sweeping.Overdue(s.db, s.now, cfg.slaMs, id) {
      assert CellOk(cfg, s.now, CellOf(s.db, id));
      forall k | k in s.jobs && k.id == id ensures JobOk(s.now, Lookup(s.outcomes, k), CellOf(s'.db, id), s.jobs[k]) {
        FlagOneCell(cfg, s.db, s.now, id, s.jobs[k], Lookup(s.outcomes, k));
      }
      FlagOneCell(cfg, s.db, s.now, id, AnyJob(), None);
      SameLedgerBalances(s.db, s'.db);
      RowStep(cfg, s, s', id);
    } else {
      EvolvesFromItself(cfg, s);
    }
  }

  lemma OrphanRowKeeps(cfg: Config, s: Sys, id: Id)
    requires Inv(cfg, s)
    ensures Inv(cfg, OrphanRow()(s, id)) && Evolves(s, OrphanRow()(s, id))
  {
    var s' := OrphanRow()(s, id);
    if Sweeping.Orphaned(s.db, s.now, id) {
      assert CellOk(cfg, s.now, CellOf(s.db, id));
      forall k | k in s.jobs && k.id == id ensures JobOk(s.now, Lookup(s.outcomes, k), CellOf(s'.db, id), s.jobs[k]) {
        OrphanOneCell(cfg, s.db, s.now, id, s.jobs[k], Lookup(s.outcomes, k));
      }
      OrphanOneCell(cfg, s.db, s.now, id, AnyJob(), None);
      SameLedgerBalances(s.db, s'.db);
      RowStep(cfg, s, s', id);
    } else {
      EvolvesFromItself(cfg, s);
    }
  }

  lemma ReassignRowKeeps(cfg: Config, s: Sys, lanes: nat, laneHash: Id -> nat, id: Id)
    requires Inv(cfg, s) && lanes > 0
    ensures Inv(cfg, ReassignRow(lanes, laneHash)(s, id)) && Evolves(s, ReassignRow(lanes, laneHash)(s, id))
  {
    var s' := ReassignRow(lanes, laneHash)(s, id);
    if Sweeping.Stranded(s.db, lanes, id) {
      assert CellOk(cfg, s.now, CellOf(s.db, id));
      forall k | k in s.jobs && k.id == id ensures JobOk(s.now, Lookup(s.outcomes, k), CellOf(s'.db, id), s.jobs[k]) {
        ReassignOneCell(cfg, s.db, s.now, lanes, laneHash, id, s.jobs[k], Lookup(s.outcomes, k));
      }
      ReassignOneCell(cfg, s.db, s.now, lanes, laneHash, id, AnyJob(), None);
      SameLedgerBalances(s.db, s'.db);
      RowStep(cfg, s, s', id);
    } else {
      EvolvesFromItself(cfg, s);
    }
  }

  lemma ClaimRowKeeps(cfg: Config, s: Sys, w: WorkerId, lane: Lane, leaseMs: int, id: Id)
    requires Inv(cfg, s) && leaseMs > 0
    ensures Inv(cfg, ClaimRow(w, lane, leaseMs)(s, id)) && Evolves(s, ClaimRow(w, lane, leaseMs)(s, id))
  {
    var s' := ClaimRow(w, lane, leaseMs)(s, id);
    if Claims.Claimable(s.db, s.now, lane, id) {
      var j := Claims.ClaimedJob(s.db, s.now, w, lane, leaseMs, id);
      ClaimedRowKeeps(cfg, s, w, lane, leaseMs, id);
      NewJobFits(cfg, s.(db := s'.db), j);
      ClaimEvolves(cfg, s, w, lane, leaseMs, id);
    } else {
      EvolvesFromItself(cfg, s);
    }
  }

  /** The row's new lease, before its job joins the jobs in the air. */
  lemma ClaimedRowKeeps(cfg: Config, s: Sys, w: WorkerId, lane: Lane, leaseMs: int, id: Id)
    requires Inv(cfg, s) && leaseMs > 0 && Claims.Claimable(s.db, s.now, lane, id)
    ensures var mid := s.(db := Claims.ClaimOne(s.db, s.now, w, lane, leaseMs, id));
            var j := Claims.ClaimedJob(s.db, s.now, w, lane, leaseMs, id);
            && Inv(cfg, mid) && JobOk(s.now, None, CellOf(mid.db, id), j)
            && forall k | k in s.jobs && k.id == id ::
                 k.version < j.version && (GivesUp(Lookup(s.outcomes, k)) || s.jobs[k].deadline <= s.now)
  {
    var mid := s.(db := Claims.ClaimOne(s.db, s.now, w, lane, leaseMs, id));
    assert CellOk(cfg, s.now, CellOf(s.db, id));
    ClaimOneCell(cfg, s.db, s.now, w, lane, leaseMs, id);
    forall k | k in s.jobs && k.id == id
      ensures JobOk(s.now, Lookup(s.outcomes, k), CellOf(mid.db, id), s.jobs[k])
      ensures k.version < s.db.queue[id].version + 1 && (GivesUp(Lookup(s.outcomes, k)) || s.jobs[k].deadline <= s.now)
    {
      ClaimOneJob(s.db, s.now, w, lane, leaseMs, id, s.jobs[k], Lookup(s.outcomes, k));
    }
    SameLedgerBalances(s.db, mid.db);
    RowStep(cfg, s, mid, id);
  }

  lemma ClaimEvolves(cfg: Config, s: Sys, w: WorkerId, lane: Lane, leaseMs: int, id: Id)
    requires Inv(cfg, s) && leaseMs > 0 && Claims.Claimable(s.db, s.now, lane, id)
    ensures Evolves(s, ClaimRow(w, lane, leaseMs)(s, id))
  {
    var s' := ClaimRow(w, lane, leaseMs)(s, id);
    assert CellOk(cfg, s.now, CellOf(s.db, id));
    ClaimOneCell(cfg, s.db, s.now, w, lane, leaseMs, id);
    forall k | k in s.jobs ensures s'.jobs[k] == s.jobs[k] {
      if k.id == id {
        ClaimOneJob(s.db, s.now, w, lane, leaseMs, id, s.jobs[k], Lookup(s.outcomes, k));
      }
    }
    OneCellEvolves(cfg, s, s', id);
  }

  /** A newly claimed job joins the others. */
  lemma NewJobFits(cfg: Config, s: Sys, j: Job)
    requires Inv(cfg, s) && j.id in s.issued && JobOk(s.now, None, CellOf(s.db, j.id), j) && j.dbNow == s.now
    requires forall k | k in s.jobs && k.id == j.id ::
               k.version < j.version && (GivesUp(Lookup(s.outcomes, k)) || s.jobs[k].deadline <= s.now)
    ensures Inv(cfg, s.(jobs := s.jobs[KeyOf(j) := j]))
  {
    assert KeyOf(j) !in s.jobs;
    assert KeyOf(j) !in s.outcomes;
  }
}
