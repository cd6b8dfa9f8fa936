/**
 The gateway as a state machine: the tables, the database clock, the IDs drawn
 so far, and the jobs and outcomes in the air. Every transaction is one step, and
 any process may take its next step at any time.
 */
module Gateway {
  import opened Tables
  import opened Folds
  import opened Billing
  import opened Decisions
  import opened Cells
  import Accepting
  import Claims
  import Completion
  import Customers
  import Reports
  import Sweeping
  import Sums

  /** Jobs and outcomes stay in the air for good: an outcome may be committed late, again, or never. */
  datatype Sys = Sys(
    db: Db,
    now: Time,
    issued: set<Id>,
    jobs: map<JobKey, Job>,
    outcomes: map<JobKey, Outcome>)

  datatype Event =
    | Tick(elapsed: nat)
    | Create(c: Id, credits: int, ref: string)
    | Delete(c: Id)
    | Charge(c: Id, amount: int, ref: string)
    | Submit(accept: Accepting.AcceptConfig, c: Id, placed: seq<Accepting.Placed>)
    | Claim(w: WorkerId, lane: Lane, leaseMs: int, picked: seq<Id>)
    | Decide(outcome: Outcome)
    | Commit(w: WorkerId, batch: seq<Outcome>)
    | Report(reports: seq<Reports.Report>)
    | Expire(picked: seq<Id>)
    | FlagSLA(picked: seq<Id>)
    | RemoveOrphans(picked: seq<Id>)
    | ReassignLanes(lanes: nat, laneHash: Id -> nat, picked: seq<Id>)

  function Init(now: Time): Sys { Sys(EMPTY_DB, now, {}, map[], map[]) }

  // ---------------------------------------------------------------------------
  // One row at a time

  /** The outcome is in the air and belongs to a job of worker `w`. */
  predicate InAir(s: Sys, w: WorkerId, o: Outcome)
  {
    KeyOf(o.job) in s.outcomes && s.outcomes[KeyOf(o.job)] == o && o.job.worker == w
  }

  function CompleteRow(cfg: Config, w: WorkerId): (Sys, Outcome) -> Sys
  {
    (s: Sys, o: Outcome) =>
      if InAir(s, w, o) then s.(db := Completion.CompleteOne(s.db, s.now, cfg.slaMs, w, o)) else s
  }

  function ReportRow(): (Sys, Reports.Report) -> Sys
  {
    (s: Sys, r: Reports.Report) =>
      if Reports.WellFormed(r) then s.(db := s.db.(messages := Reports.ReportOne(s.db.messages, s.now, r))) else s
  }

  function ClaimRow(w: WorkerId, lane: Lane, leaseMs: int): (Sys, Id) -> Sys
  {
    (s: Sys, id: Id) =>
      if Claims.Claimable(s.db, s.now, lane, id) then
        var j := Claims.ClaimedJob(s.db, s.now, w, lane, leaseMs, id);
        s.(db := Claims.ClaimOne(s.db, s.now, w, lane, leaseMs, id), jobs := s.jobs[KeyOf(j) := j])
      else s
  }

  function ExpireRow(): (Sys, Id) -> Sys { (s: Sys, id: Id) => s.(db := Sweeping.ExpireOne(s.db, s.now, id)) }

  function FlagRow(cfg: Config): (Sys, Id) -> Sys
  {
    (s: Sys, id: Id) => s.(db := Sweeping.FlagOne(s.db, s.now, cfg.slaMs, id))
  }

  function OrphanRow(): (Sys, Id) -> Sys { (s: Sys, id: Id) => s.(db := Sweeping.OrphanOne(s.db, s.now, id)) }

  function ReassignRow(lanes: nat, laneHash: Id -> nat): (Sys, Id) -> Sys
    requires lanes > 0
  {
    (s: Sys, id: Id) => s.(db := Sweeping.ReassignOne(s.db, lanes, laneHash, id))
  }

  // ---------------------------------------------------------------------------
  // Transactions

  /** A submission carries newly drawn IDs and what validation guarantees. */
  ghost predicate Submittable(s: Sys, accept: Accepting.AcceptConfig, ps: seq<Accepting.Placed>)
  {
    && accept.normalLanes > 0 && ps != [] && Accepting.DistinctRefs(ps) && DistinctBy(Accepting.IdOf, ps)
    && (forall p | p in ps :: p.id !in s.issued && Accepting.Priced(p.item))
  }

  ghost predicate Decidable(cfg: Config, s: Sys, o: Outcome)
  {
    && KeyOf(o.job) in s.jobs && s.jobs[KeyOf(o.job)] == o.job && KeyOf(o.job) !in s.outcomes
    && Decides(PolicyFor(cfg, o.job.pool), o)
  }

  /** The next state. An event that is not possible changes nothing, as a failed transaction does. */
  ghost function Next(cfg: Config, s: Sys, e: Event): Sys
  {
    match e
    case Tick(elapsed) => s.(now := s.now + elapsed)
    case Create(c, credits, ref) =>
      if c in s.issued then s
      else s.(db := Customers.AfterCreate(s.db, s.now, c, credits, ref), issued := s.issued + {c})
    case Delete(c) => s.(db := Customers.AfterDelete(s.db, c))
    case Charge(c, amount, ref) => s.(db := ChargeOnce(s.db, s.now, c, amount, ref).1)
    case Submit(accept, c, placed) =>
      if Submittable(s, accept, placed)
      then s.(db := Accepting.AfterInsert(s.db, accept, s.now, c, placed),
              issued := s.issued + set p | p in placed :: p.id)
      else s
    case Claim(w, lane, leaseMs, picked) => if leaseMs > 0 then Fold(ClaimRow(w, lane, leaseMs), s, picked) else s
    case Decide(o) => if Decidable(cfg, s, o) then s.(outcomes := s.outcomes[KeyOf(o.job) := o]) else s
    case Commit(w, batch) => Fold(CompleteRow(cfg, w), s, batch)
    case Report(reports) => Fold(ReportRow(), s, reports)
    case Expire(picked) => Fold(ExpireRow(), s, picked)
    case FlagSLA(picked) => Fold(FlagRow(cfg), s, picked)
    case RemoveOrphans(picked) => Fold(OrphanRow(), s, picked)
    case ReassignLanes(lanes, laneHash, picked) =>
      if lanes > 0 then Fold(ReassignRow(lanes, laneHash), s, picked) else s
  }

  /** The state after a sequence of events. */
  ghost function Run(cfg: Config, s: Sys, es: seq<Event>): Sys
  {
    if es == [] then s else Next(cfg, Run(cfg, s, es[..|es| - 1]), es[|es| - 1])
  }

  // ---------------------------------------------------------------------------
  // The invariant

  ghost predicate CellsOk(cfg: Config, s: Sys)
  {
    forall id: Id :: CellOk(cfg, s.now, CellOf(s.db, id))
  }

  /** Every balance is the sum of the customer's transactions, and never negative. */
  ghost predicate Balanced(db: Db)
  {
    forall c | c in db.customers :: db.customers[c].balance == Sums.Total(db.txs, CreditTo(c)) >= 0
  }

  ghost predicate Linked(s: Sys)
  {
    && (forall id | id in s.db.messages :: s.db.messages[id].customer in s.db.customers)
    && (forall k | k in s.db.txs && k.ChargeOf? ::
          s.db.txs[k].customer == k.customer && k.customer in s.db.customers && s.db.txs[k].amount > 0)
    && (forall c | c in s.db.customers :: c in s.issued)
    && (forall id | id in s.db.messages :: id in s.issued)
  }

  ghost predicate JobsOk(s: Sys)
  {
    forall k | k in s.jobs ::
      k == KeyOf(s.jobs[k]) && k.id in s.issued && JobOk(s.now, Lookup(s.outcomes, k), CellOf(s.db, k.id), s.jobs[k])
  }

  ghost predicate OutcomesOk(cfg: Config, s: Sys)
  {
    forall k | k in s.outcomes ::
      k in s.jobs && s.outcomes[k].job == s.jobs[k] && Decides(PolicyFor(cfg, s.jobs[k].pool), s.outcomes[k])
  }

  /** A message's next lease starts after the last one ended, unless the last one was given up. */
  ghost predicate LeasesApart(s: Sys)
  {
    forall a, b | a in s.jobs && b in s.jobs && a.id == b.id && a.version < b.version ::
      GivesUp(Lookup(s.outcomes, a)) || s.jobs[a].deadline <= s.jobs[b].dbNow
  }

  ghost predicate Inv(cfg: Config, s: Sys)
  {
    && ValidConfig(cfg) && CellsOk(cfg, s) && Balanced(s.db) && Linked(s) && Accepting.UniqueRefs(s.db.messages)
    && JobsOk(s) && OutcomesOk(cfg, s) && LeasesApart(s)
  }

  // ---------------------------------------------------------------------------
  // What a run may do to a state

  /** Only an accepted message is claimed, and only for a generation above its row's. */
  predicate ClaimableFrom(c: Cell, version: int)
  {
    c.msg.Some? && c.msg.value.status.Accepted? && c.row.Some? && c.row.value.version < version
  }

  ghost predicate Evolves(s: Sys, s': Sys)
  {
    && s.now <= s'.now && s.issued <= s'.issued
    && (forall id | id in s.issued :: CellEvolves(CellOf(s.db, id), CellOf(s'.db, id)))
    && (forall c | c in s.issued && c in s'.db.customers :: c in s.db.customers)
    && (forall id | id in s.db.messages && s.db.messages[id].customer in s'.db.customers :: id in s'.db.messages)
    && (forall k | k in s.jobs :: k in s'.jobs && s'.jobs[k] == s.jobs[k])
    && (forall k | k in s'.jobs && k !in s.jobs && k.id in s.issued :: ClaimableFrom(CellOf(s.db, k.id), k.version))
    && (forall k | k in s.outcomes :: k in s'.outcomes && s'.outcomes[k] == s.outcomes[k])
    && (forall k | k in s.db.txs && k.ChargeOf? && k.customer in s'.db.customers ::
          k in s'.db.txs && s'.db.txs[k] == s.db.txs[k])
  }
}
