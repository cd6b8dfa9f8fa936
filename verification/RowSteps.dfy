/** Each row operation keeps what is true of the message it touches. */
module RowSteps {
  import opened Tables
  import opened Decisions
  import opened Cells
  import Claims
  import opened Completion
  import opened Reports
  import opened Sweeping

  // ---------------------------------------------------------------------------
  // Completing an outcome

  /** The cell after an owned outcome. */
  function CompletedCell(c: Cell, now: Time, slaMs: int, o: Outcome): Cell
    requires c.msg.Some? && c.row.Some?
  {
    var ms := map[o.job.id := c.msg.value];
    var applies := Applies(ms, o);
    var m := c.msg.value;
    Cell(Some(if applies then CompletedMessage(m, now, slaMs, o) else m),
         Lookup(QueueOne(map[o.job.id := c.row.value], now, o, applies), o.job.id),
         c.debit,
         if EndsMessage(o) && applies && c.refund.None? then Some(Tx(m.customer, m.cost, now)) else c.refund)
  }

  lemma CompleteOneCell(db: Db, now: Time, slaMs: int, w: WorkerId, o: Outcome)
    requires Owned(db, w, o) && o.job.id in db.messages
    ensures CellOf(CompleteOne(db, now, slaMs, w, o), o.job.id) == CompletedCell(CellOf(db, o.job.id), now, slaMs, o)
  {
    CompleteOneParts(db, now, slaMs, w, o);
  }

  lemma CompletedCellOk(cfg: Config, now: Time, c: Cell, o: Outcome)
    requires CellOk(cfg, now, c) && c.row.Some? && c.row.value.owner == Some(o.job.worker)
    requires c.row.value.version == o.job.version && JobOk(now, Some(o), c, o.job)
    requires Decides(PolicyFor(cfg, o.job.pool), o)
    ensures CellOk(cfg, now, CompletedCell(c, now, cfg.slaMs, o))
    ensures CellEvolves(c, CompletedCell(c, now, cfg.slaMs, o))
  {
  }

  /** The jobs of the message: the outcome's own generation is over, and no other one was current. */
  lemma CompletedCellJob(cfg: Config, now: Time, c: Cell, o: Outcome, j: Job, decided: Option<Outcome>)
    requires CellOk(cfg, now, c) && c.row.Some? && c.row.value.owner == Some(o.job.worker)
    requires c.row.value.version == o.job.version
    requires JobOk(now, decided, c, j) && (j.version == o.job.version ==> decided == Some(o))
    ensures JobOk(now, decided, CompletedCell(c, now, cfg.slaMs, o), j)
  {
  }

  // ---------------------------------------------------------------------------
  // Delivery reports

  function ReportedCell(c: Cell, now: Time, r: Report): Cell
  {
    if c.msg.Some? && (c.msg.value.status.Accepted? || c.msg.value.status.Sent?)
    then c.(msg := Some(ReportedMessage(c.msg.value, now, r)))
    else c
  }

  lemma ReportOneCell(db: Db, now: Time, r: Report)
    ensures CellOf(db.(messages := ReportOne(db.messages, now, r)), r.message) ==
            ReportedCell(CellOf(db, r.message), now, r)
  {
  }

  lemma ReportedCellOk(cfg: Config, now: Time, c: Cell, r: Report, j: Job, decided: Option<Outcome>)
    requires CellOk(cfg, now, c) && WellFormed(r)
    ensures CellOk(cfg, now, ReportedCell(c, now, r)) && CellEvolves(c, ReportedCell(c, now, r))
    ensures JobOk(now, decided, c, j) ==> JobOk(now, decided, ReportedCell(c, now, r), j)
  {
  }

  // ---------------------------------------------------------------------------
  // Claims

  lemma ClaimOneCell(cfg: Config, db: Db, now: Time, w: WorkerId, lane: Lane, leaseMs: int, id: Id)
    requires Claims.Claimable(db, now, lane, id) && CellOk(cfg, now, CellOf(db, id)) && leaseMs > 0
    ensures var c, c' := CellOf(db, id), CellOf(Claims.ClaimOne(db, now, w, lane, leaseMs, id), id);
            && c' == c.(row := Some(Claims.ClaimedRow(c.row.value, now, w, leaseMs)))
            && CellOk(cfg, now, c') && CellEvolves(c, c')
            && JobOk(now, None, c', Claims.ClaimedJob(db, now, w, lane, leaseMs, id))
  {
  }

  /** An earlier job of the message gave its lease up or the lease has run out, so it stays that way. */
  lemma ClaimOneJob(db: Db, now: Time, w: WorkerId, lane: Lane, leaseMs: int, id: Id, j: Job, decided: Option<Outcome>)
    requires Claims.Claimable(db, now, lane, id) && JobOk(now, decided, CellOf(db, id), j)
    ensures JobOk(now, decided, CellOf(Claims.ClaimOne(db, now, w, lane, leaseMs, id), id), j)
    ensures GivesUp(decided) || j.deadline <= now
    ensures j.version < db.queue[id].version + 1
  {
  }

  // ---------------------------------------------------------------------------
  // Sweeps

  function ExpiredCell(c: Cell, now: Time): Cell
    requires c.msg.Some?
  {
    var m := c.msg.value;
    Cell(Some(ExpiredMessage(m, now)), None, c.debit,
         if c.refund.None? then Some(Tx(m.customer, m.cost, now)) else c.refund)
  }

  lemma ExpireOneCell(cfg: Config, db: Db, now: Time, id: Id, j: Job, decided: Option<Outcome>)
    requires Due(db, now, id) && StillAccepted(db.messages, id) && CellOk(cfg, now, CellOf(db, id))
    ensures var c, c' := CellOf(db, id), CellOf(ExpireOne(db, now, id), id);
            && c' == ExpiredCell(c, now) && CellOk(cfg, now, c') && CellEvolves(c, c')
            && (JobOk(now, decided, c, j) ==> JobOk(now, decided, c', j))
  {
  }

  lemma FlagOneCell(cfg: Config, db: Db, now: Time, id: Id, j: Job, decided: Option<Outcome>)
    requires Overdue(db, now, cfg.slaMs, id) && CellOk(cfg, now, CellOf(db, id))
    ensures var c, c' := CellOf(db, id), CellOf(FlagOne(db, now, cfg.slaMs, id), id);
            && CellOk(cfg, now, c') && CellEvolves(c, c')
            && (JobOk(now, decided, c, j) ==> JobOk(now, decided, c', j))
  {
  }

  lemma OrphanOneCell(cfg: Config, db: Db, now: Time, id: Id, j: Job, decided: Option<Outcome>)
    requires Orphaned(db, now, id) && CellOk(cfg, now, CellOf(db, id))
    ensures var c, c' := CellOf(db, id), CellOf(OrphanOne(db, now, id), id);
            && CellOk(cfg, now, c') && CellEvolves(c, c')
            && (JobOk(now, decided, c, j) ==> JobOk(now, decided, c', j))
  {
  }

  lemma ReassignOneCell(cfg: Config, db: Db, now: Time, lanes: nat, laneHash: Id -> nat, id: Id, j: Job, decided: Option<Outcome>)
    requires lanes > 0 && Stranded(db, lanes, id) && CellOk(cfg, now, CellOf(db, id))
    ensures var c, c' := CellOf(db, id), CellOf(ReassignOne(db, lanes, laneHash, id), id);
            && CellOk(cfg, now, c') && CellEvolves(c, c')
            && (JobOk(now, decided, c, j) ==> JobOk(now, decided, c', j))
  {
  }
}
