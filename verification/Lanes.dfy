/** All normal messages of a customer wait in one lane (internal/message/lane.go). */
module Lanes {
  import opened Tables
  import opened Folds
  import opened Cells
  import opened Gateway
  import Accepting
  import Completion
  import Sweeping

  /** How the processes of a run agree to choose lanes. */
  datatype Layout = Layout(lanes: nat, laneHash: Id -> nat)

  /** Every queue row has its message and is in the lane of the message's class and customer. */
  ghost predicate InLane(db: Db, lay: Layout)
    requires lay.lanes > 0
  {
    forall id | id in db.queue ::
      && id in db.messages
      && db.queue[id].lane ==
         if db.messages[id].service.Express? then ExpressLane
         else NormalLane(lay.laneHash(db.messages[id].customer) % lay.lanes)
  }

  ghost predicate SameHash(a: Id -> nat, b: Id -> nat) { forall c: Id :: a(c) == b(c) }

  /** The event uses the agreed number of lanes and the agreed hash. */
  ghost predicate Follows(lay: Layout, e: Event)
  {
    match e
    case Submit(accept, c, placed) => accept.normalLanes == lay.lanes && SameHash(accept.laneHash, lay.laneHash)
    case ReassignLanes(lanes, laneHash, picked) => lanes == lay.lanes && SameHash(laneHash, lay.laneHash)
    case _ => true
  }

  /** The step adds no row, moves none, and keeps every message's class and customer. */
  ghost predicate LanesKept(db: Db, db': Db)
  {
    && (forall id | id in db'.queue :: id in db.queue && db'.queue[id].lane == db.queue[id].lane)
    && (forall id | id in db.messages && id in db'.queue ::
          id in db'.messages && db'.messages[id].service == db.messages[id].service
          && db'.messages[id].customer == db.messages[id].customer)
  }

  ghost function StaysInLane(lay: Layout): Sys -> bool
    requires lay.lanes > 0
  {
    (s: Sys) => InLane(s.db, lay)
  }

  lemma CompleteKeepsLanes(db: Db, now: Time, slaMs: int, w: WorkerId, o: Outcome)
    ensures LanesKept(db, Completion.CompleteOne(db, now, slaMs, w, o))
  {
    if Completion.Owned(db, w, o) {
      Completion.CompleteOneParts(db, now, slaMs, w, o);
    }
  }

  lemma {:induction false} AcceptPlaces(db: Db, accept: Accepting.AcceptConfig, now: Time, c: Id,
                                        ps: seq<Accepting.Placed>, lay: Layout)
    requires lay.lanes > 0 && InLane(db, lay) && accept.normalLanes == lay.lanes && SameHash(accept.laneHash, lay.laneHash)
    ensures InLane(Accepting.AcceptAll(db, accept, now, c, ps), lay)
  {
    if ps != [] {
      AcceptPlaces(db, accept, now, c, ps[..|ps| - 1], lay);
      assert accept.laneHash(c) == lay.laneHash(c);
    }
  }

  lemma ReassignPlaces(s: Sys, lanes: nat, laneHash: Id -> nat, id: Id, lay: Layout)
    requires lay.lanes > 0 && InLane(s.db, lay) && lanes == lay.lanes
    ensures InLane(ReassignRow(lanes, laneHash)(s, id).db, lay)
  {
    assert !Sweeping.Stranded(s.db, lanes, id);
  }

  lemma WorkersKeepLanes(cfg: Config, s: Sys, e: Event, lay: Layout)
    requires lay.lanes > 0 && InLane(s.db, lay) && (e.Commit? || e.Claim? || e.Report?)
    ensures InLane(Next(cfg, s, e).db, lay)
  {
    var p := StaysInLane(lay);
    match e
    case Commit(w, batch) =>
      forall t: Sys, o: Outcome | p(t) ensures p(CompleteRow(cfg, w)(t, o)) {
        CompleteKeepsLanes(t.db, t.now, cfg.slaMs, w, o);
      }
      FoldKeeps(CompleteRow(cfg, w), s, batch, p);
    case Claim(w, lane, leaseMs, picked) =>
      if leaseMs > 0 {
        FoldKeeps(ClaimRow(w, lane, leaseMs), s, picked, p);
      }
    case Report(reports) =>
      FoldKeeps(ReportRow(), s, reports, p);
  }

  lemma SweepsKeepLanes(cfg: Config, s: Sys, e: Event, lay: Layout)
    requires lay.lanes > 0 && InLane(s.db, lay) && Follows(lay, e)
    requires e.Expire? || e.FlagSLA? || e.RemoveOrphans? || e.ReassignLanes?
    ensures InLane(Next(cfg, s, e).db, lay)
  {
    var p := StaysInLane(lay);
    match e
    case Expire(picked) => FoldKeeps(ExpireRow(), s, picked, p);
    case FlagSLA(picked) => FoldKeeps(FlagRow(cfg), s, picked, p);
    case RemoveOrphans(picked) => FoldKeeps(OrphanRow(), s, picked, p);
    case ReassignLanes(lanes, laneHash, picked) =>
      forall t: Sys, id: Id | p(t) ensures p(ReassignRow(lanes, laneHash)(t, id)) {
        ReassignPlaces(t, lanes, laneHash, id, lay);
      }
      FoldKeeps(ReassignRow(lanes, laneHash), s, picked, p);
  }

  lemma AccountsKeepLanes(cfg: Config, s: Sys, e: Event, lay: Layout)
    requires lay.lanes > 0 && InLane(s.db, lay) && Follows(lay, e)
    requires e.Tick? || e.Create? || e.Delete? || e.Charge? || e.Submit? || e.Decide?
    ensures InLane(Next(cfg, s, e).db, lay)
  {
    if e.Submit? && e.accept.normalLanes > 0 {
      AcceptPlaces(s.db, e.accept, s.now, e.c, e.placed, lay);
    }
  }

  /**
   While all processes agree on the number of lanes and the hash, every waiting
   message is in the express lane or in the one normal lane of its customer, so a
   customer's backlog stays within that lane.
   */
  lemma {:induction false} OneLanePerCustomer(cfg: Config, start: Time, es: seq<Event>, lay: Layout)
    requires lay.lanes > 0 && forall e | e in es :: Follows(lay, e)
    ensures InLane(Run(cfg, Init(start), es).db, lay)
  {
    if es != [] {
      var init, e := es[..|es| - 1], es[|es| - 1];
      OneLanePerCustomer(cfg, start, init, lay);
      var s := Run(cfg, Init(start), init);
      if e.Commit? || e.Claim? || e.Report? {
        WorkersKeepLanes(cfg, s, e, lay);
      } else if e.Expire? || e.FlagSLA? || e.RemoveOrphans? || e.ReassignLanes? {
        SweepsKeepLanes(cfg, s, e, lay);
      } else {
        AccountsKeepLanes(cfg, s, e, lay);
      }
    }
  }
}
