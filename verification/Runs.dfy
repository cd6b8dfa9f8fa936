/** What holds after, and between, any two points of any run. */
module Runs {
  import opened Tables
  import opened Folds
  import opened Cells
  import opened Gateway
  import opened Invariance
  import opened InvarianceOfAccounts
  import Accepting
  import Reports

  ghost function KeptFrom(cfg: Config, s: Sys): Sys -> bool { (t: Sys) => Inv(cfg, t) && Evolves(s, t) }

  lemma FoldStep(cfg: Config, s: Sys, t: Sys, t': Sys)
    requires Inv(cfg, s) && KeptFrom(cfg, s)(t) && Inv(cfg, t') && Evolves(t, t')
    ensures KeptFrom(cfg, s)(t')
  {
    EvolvesTransitive(cfg, s, t, t');
  }

  lemma CommitKeeps(cfg: Config, s: Sys, w: WorkerId, batch: seq<Outcome>)
    requires Inv(cfg, s)
    ensures KeptFrom(cfg, s)(Fold(CompleteRow(cfg, w), s, batch))
  {
    var f, p := CompleteRow(cfg, w), KeptFrom(cfg, s);
    EvolvesFromItself(cfg, s);
    forall t: Sys, o: Outcome | o in batch && p(t) ensures p(f(t, o)) {
      CompleteRowKeeps(cfg, t, w, o);
      FoldStep(cfg, s, t, f(t, o));
    }
    FoldKeeps(f, s, batch, p);
  }

  lemma ReportKeeps(cfg: Config, s: Sys, reports: seq<Reports.Report>)
    requires Inv(cfg, s)
    ensures KeptFrom(cfg, s)(Fold(ReportRow(), s, reports))
  {
    var f, p := ReportRow(), KeptFrom(cfg, s);
    EvolvesFromItself(cfg, s);
    forall t: Sys, r: Reports.Report | r in reports && p(t) ensures p(f(t, r)) {
      ReportRowKeeps(cfg, t, r);
      FoldStep(cfg, s, t, f(t, r));
    }
    FoldKeeps(f, s, reports, p);
  }

  lemma ClaimKeeps(cfg: Config, s: Sys, w: WorkerId, lane: Lane, leaseMs: int, ids: seq<Id>)
    requires Inv(cfg, s) && leaseMs > 0
    ensures KeptFrom(cfg, s)(Fold(ClaimRow(w, lane, leaseMs), s, ids))
  {
    var f, p := ClaimRow(w, lane, leaseMs), KeptFrom(cfg, s);
    EvolvesFromItself(cfg, s);
    forall t: Sys, id: Id | id in ids && p(t) ensures p(f(t, id)) {
      ClaimRowKeeps(cfg, t, w, lane, leaseMs, id);
      FoldStep(cfg, s, t, f(t, id));
    }
    FoldKeeps(f, s, ids, p);
  }

  lemma ExpireKeeps(cfg: Config, s: Sys, ids: seq<Id>)
    requires Inv(cfg, s)
    ensures KeptFrom(cfg, s)(Fold(ExpireRow(), s, ids))
  {
    var f, p := ExpireRow(), KeptFrom(cfg, s);
    EvolvesFromItself(cfg, s);
    forall t: Sys, id: Id | id in ids && p(t) ensures p(f(t, id)) {
      ExpireRowKeeps(cfg, t, id);
      FoldStep(cfg, s, t, f(t, id));
    }
    FoldKeeps(f, s, ids, p);
  }

  lemma FlagKeeps(cfg: Config, s: Sys, ids: seq<Id>)
    requires Inv(cfg, s)
    ensures KeptFrom(cfg, s)(Fold(FlagRow(cfg), s, ids))
  {
    var f, p := FlagRow(cfg), KeptFrom(cfg, s);
    EvolvesFromItself(cfg, s);
    forall t: Sys, id: Id | id in ids && p(t) ensures p(f(t, id)) {
      FlagRowKeeps(cfg, t, id);
      FoldStep(cfg, s, t, f(t, id));
    }
    FoldKeeps(f, s, ids, p);
  }

  lemma OrphanKeeps(cfg: Config, s: Sys, ids: seq<Id>)
    requires Inv(cfg, s)
    ensures KeptFrom(cfg, s)(Fold(OrphanRow(), s, ids))
  {
    var f, p := OrphanRow(), KeptFrom(cfg, s);
    EvolvesFromItself(cfg, s);
    forall t: Sys, id: Id | id in ids && p(t) ensures p(f(t, id)) {
      OrphanRowKeeps(cfg, t, id);
      FoldStep(cfg, s, t, f(t, id));
    }
    FoldKeeps(f, s, ids, p);
  }

  lemma ReassignKeeps(cfg: Config, s: Sys, lanes: nat, laneHash: Id -> nat, ids: seq<Id>)
    requires Inv(cfg, s) && lanes > 0
    ensures KeptFrom(cfg, s)(Fold(ReassignRow(lanes, laneHash), s, ids))
  {
    var f, p := ReassignRow(lanes, laneHash), KeptFrom(cfg, s);
    EvolvesFromItself(cfg, s);
    forall t: Sys, id: Id | id in ids && p(t) ensures p(f(t, id)) {
      ReassignRowKeeps(cfg, t, lanes, laneHash, id);
      FoldStep(cfg, s, t, f(t, id));
    }
    FoldKeeps(f, s, ids, p);
  }

  lemma SubmissionKeeps(cfg: Config, s: Sys, accept: Accepting.AcceptConfig, c: Id, ps: seq<Accepting.Placed>)
    requires Inv(cfg, s) && Submittable(s, accept, ps)
    ensures var s' := s.(db := Accepting.AfterInsert(s.db, accept, s.now, c, ps), issued := s.issued + set p | p in ps :: p.id);
            Inv(cfg, s') && Evolves(s, s')
  {
    if Accepting.InsertDecision(s.db, c, ps) == Accepting.Inserted {
      SubmitKeeps(cfg, s, accept, c, ps);
    } else {
      IdsOnly(cfg, s, set p | p in ps :: p.id);
    }
  }

  /** A refused submission has drawn its IDs. */
  lemma IdsOnly(cfg: Config, s: Sys, ids: set<Id>)
    requires Inv(cfg, s)
    ensures Inv(cfg, s.(issued := s.issued + ids)) && Evolves(s, s.(issued := s.issued + ids))
  {
    SameCellsKeep(cfg, s, s.(issued := s.issued + ids));
  }

  lemma NextForCustomers(cfg: Config, s: Sys, e: Event)
    requires Inv(cfg, s) && (e.Create? || e.Delete? || e.Charge? || e.Submit?)
    ensures KeptFrom(cfg, s)(Next(cfg, s, e))
  {
    EvolvesFromItself(cfg, s);
    match e
    case Create(c, credits, ref) => if c !in s.issued { CreateKeeps(cfg, s, c, credits, ref); }
    case Delete(c) => DeleteKeeps(cfg, s, c);
    case Charge(c, amount, ref) => ChargeKeeps(cfg, s, c, amount, ref);
    case Submit(accept, c, ps) => if Submittable(s, accept, ps) { SubmissionKeeps(cfg, s, accept, c, ps); }
  }

  lemma NextForTicks(cfg: Config, s: Sys, elapsed: nat)
    requires Inv(cfg, s)
    ensures KeptFrom(cfg, s)(Next(cfg, s, Tick(elapsed)))
  {
    ClockKept(cfg, s, Next(cfg, s, Tick(elapsed)), elapsed);
  }

  lemma ClockKept(cfg: Config, s: Sys, t: Sys, elapsed: nat)
    requires Inv(cfg, s) && t == s.(now := s.now + elapsed)
    ensures KeptFrom(cfg, s)(t)
  {
    TickKeeps(cfg, s, elapsed);
  }

  lemma NextForClaims(cfg: Config, s: Sys, e: Event)
    requires Inv(cfg, s) && e.Claim?
    ensures KeptFrom(cfg, s)(Next(cfg, s, e))
  {
    var Claim(w, lane, leaseMs, ids) := e;
    if leaseMs > 0 {
      ClaimKeeps(cfg, s, w, lane, leaseMs, ids);
    } else {
      EvolvesFromItself(cfg, s);
    }
  }

  lemma NextForDecisions(cfg: Config, s: Sys, o: Outcome)
    requires Inv(cfg, s)
    ensures KeptFrom(cfg, s)(Next(cfg, s, Decide(o)))
  {
    if Decidable(cfg, s, o) {
      DecideKeeps(cfg, s, o);
    } else {
      EvolvesFromItself(cfg, s);
    }
  }

  lemma NextForResults(cfg: Config, s: Sys, e: Event)
    requires Inv(cfg, s) && (e.Commit? || e.Report?)
    ensures KeptFrom(cfg, s)(Next(cfg, s, e))
  {
    match e
    case Commit(w, batch) => CommitKeeps(cfg, s, w, batch);
    case Report(reports) => ReportKeeps(cfg, s, reports);
  }

  lemma NextForSweeps(cfg: Config, s: Sys, e: Event)
    requires Inv(cfg, s) && (e.Expire? || e.FlagSLA? || e.RemoveOrphans? || e.ReassignLanes?)
    ensures KeptFrom(cfg, s)(Next(cfg, s, e))
  {
    EvolvesFromItself(cfg, s);
    match e
    case Expire(ids) => ExpireKeeps(cfg, s, ids);
    case FlagSLA(ids) => FlagKeeps(cfg, s, ids);
    case RemoveOrphans(ids) => OrphanKeeps(cfg, s, ids);
    case ReassignLanes(lanes, laneHash, ids) => if lanes > 0 { ReassignKeeps(cfg, s, lanes, laneHash, ids); }
  }

  /** Every event keeps the invariant. */
  lemma NextKeeps(cfg: Config, s: Sys, e: Event)
    requires Inv(cfg, s)
    ensures KeptFrom(cfg, s)(Next(cfg, s, e))
  {
    if e.Create? || e.Delete? || e.Charge? || e.Submit? {
      NextForCustomers(cfg, s, e);
    } else if e.Tick? {
      NextForTicks(cfg, s, e.elapsed);
    } else if e.Claim? {
      NextForClaims(cfg, s, e);
    } else if e.Decide? {
      NextForDecisions(cfg, s, e.outcome);
    } else if e.Commit? || e.Report? {
      NextForResults(cfg, s, e);
    } else {
      NextForSweeps(cfg, s, e);
    }
  }

  lemma {:induction false} RunKeeps(cfg: Config, s: Sys, es: seq<Event>)
    requires Inv(cfg, s)
    ensures Inv(cfg, Run(cfg, s, es)) && Evolves(s, Run(cfg, s, es))
  {
    if es == [] {
      EvolvesFromItself(cfg, s);
    } else {
      var t := Run(cfg, s, es[..|es| - 1]);
      RunKeeps(cfg, s, es[..|es| - 1]);
      NextKeeps(cfg, t, es[|es| - 1]);
      FoldStep(cfg, s, t, Run(cfg, s, es));
    }
  }

  lemma InitHolds(cfg: Config, start: Time)
    requires ValidConfig(cfg)
    ensures Inv(cfg, Init(start))
  {
    forall id: Id ensures CellOk(cfg, start, CellOf(EMPTY_DB, id)) {
    }
  }

  /** The invariant holds after every run. */
  lemma Always(cfg: Config, start: Time, es: seq<Event>)
    requires ValidConfig(cfg)
    ensures Inv(cfg, Run(cfg, Init(start), es))
  {
    InitHolds(cfg, start);
    RunKeeps(cfg, Init(start), es);
  }
}
