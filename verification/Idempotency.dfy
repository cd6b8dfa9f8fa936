/** Retried submissions and charges over whole runs. */
module Idempotency {
  import opened Tables
  import opened Folds
  import opened Billing
  import opened Cells
  import opened Gateway
  import opened Runs
  import opened Accepting

  /**
   A submission whose insert found a client_ref taken settles: if the existing
   messages are gone by the time they are looked up, then the customer is gone,
   and every later insert says so. So the accept loop never runs out of tries.
   */
  lemma AcceptSettles(cfg: Config, start: Time, before: seq<Event>, between: seq<Event>, after: seq<Event>,
                      c: Id, ps: seq<Placed>, r: Resolution)
    requires ValidConfig(cfg)
    requires var s := Run(cfg, Init(start), before);
             InsertDecision(s.db, c, ps) == ClientRefTaken
    requires Resolves(Run(cfg, Run(cfg, Init(start), before), between).db, c, Items(ps), r) && r.NotFound?
    ensures InsertDecision(Run(cfg, Run(cfg, Run(cfg, Init(start), before), between), after).db, c, ps) == CustomerGone
  {
    var s := Run(cfg, Init(start), before);
    var t := Run(cfg, s, between);
    Always(cfg, start, before);
    RunKeeps(cfg, s, between);
    assert c in s.issued && c !in t.db.customers by { VanishedRefMeansVanishedCustomer(s, t, c, ps); }
    CustomerStaysGone(cfg, s, t, after, c);
  }

  lemma CustomerStaysGone(cfg: Config, s: Sys, t: Sys, after: seq<Event>, c: Id)
    requires Inv(cfg, t) && Evolves(s, t) && c in s.issued && c !in t.db.customers
    ensures c !in Run(cfg, t, after).db.customers
  {
    RunKeeps(cfg, t, after);
  }

  function Items(ps: seq<Placed>): (items: seq<Item>)
    ensures |items| == |ps| && forall i | 0 <= i < |ps| :: items[i] == ps[i].item
  {
    seq(|ps|, i requires 0 <= i < |ps| => ps[i].item)
  }

  /** A message of a remaining customer remains, with its ref. */
  lemma MessageRemains(s: Sys, t: Sys, id: Id)
    requires Evolves(s, t) && id in s.db.messages && id in s.issued && s.db.messages[id].customer in t.db.customers
    ensures id in t.db.messages
    ensures t.db.messages[id].customer == s.db.messages[id].customer
    ensures t.db.messages[id].clientRef == s.db.messages[id].clientRef
  {
    assert CellEvolves(CellOf(s.db, id), CellOf(t.db, id));
    assert CellOf(s.db, id).msg == Some(s.db.messages[id]) && CellOf(t.db, id).msg == Some(t.db.messages[id]);
  }

  /** Messages disappear only with their customer. */
  lemma VanishedRefMeansVanishedCustomer(s: Sys, t: Sys, c: Id, ps: seq<Placed>)
    requires Linked(s) && Evolves(s, t) && SomeRefUsed(s.db, c, ps)
    requires forall i | 0 <= i < |ps| :: !Known(t.db, c, ps[i].item)
    ensures c in s.issued && c !in t.db.customers
  {
    var p :| p in ps && p.item.ref != "" && RefUsed(s.db, c, p.item.ref);
    var id :| id in s.db.messages && s.db.messages[id].customer == c && s.db.messages[id].clientRef == Some(p.item.ref);
    var i :| 0 <= i < |ps| && ps[i] == p;
    assert c in s.db.customers;
    assert !Answers(t.db, c, ps[i].item, id);
    if c in t.db.customers {
      MessageRemains(s, t, id);
    }
  }

  // ---------------------------------------------------------------------------
  // Repeating an accepted submission

  /** The submission's messages are there, as it described them. */
  ghost predicate Holds(db: Db, c: Id, ps: seq<Placed>)
  {
    forall i | 0 <= i < |ps| :: HoldsOne(db, c, ps[i])
  }

  ghost predicate HoldsOne(db: Db, c: Id, p: Placed)
  {
    && p.id in db.messages
    && var m := db.messages[p.id];
       && m.customer == c && m.clientRef == NullString(p.item.ref) && m.cost == p.item.cost
       && m.recipient == p.item.to && m.body == p.item.text && m.service == p.item.service
  }

  lemma {:induction false} AcceptAllHolds(db: Db, accept: AcceptConfig, now: Time, c: Id, ps: seq<Placed>)
    requires accept.normalLanes > 0 && DistinctBy(IdOf, ps)
    ensures Holds(AcceptAll(db, accept, now, c, ps), c, ps)
  {
    if ps != [] {
      var n := |ps| - 1;
      AcceptAllHolds(db, accept, now, c, ps[..n]);
      forall i | 0 <= i < |ps| ensures HoldsOne(AcceptAll(db, accept, now, c, ps), c, ps[i]) {
        if i < n {
          assert HoldsOne(AcceptAll(db, accept, now, c, ps[..n]), c, ps[..n][i]);
          assert IdOf(ps[i]) != IdOf(ps[n]);
        }
      }
    }
  }

  lemma HoldsStays(cfg: Config, s: Sys, t: Sys, c: Id, ps: seq<Placed>)
    requires Inv(cfg, s) && Evolves(s, t) && Holds(s.db, c, ps) && c in t.db.customers
    ensures Holds(t.db, c, ps)
  {
    forall i | 0 <= i < |ps| ensures HoldsOne(t.db, c, ps[i]) {
      assert HoldsOne(s.db, c, ps[i]);
      assert CellEvolves(CellOf(s.db, ps[i].id), CellOf(t.db, ps[i].id));
    }
  }

  lemma {:induction false} CostsAdd(db: Db, c: Id, ps: seq<Placed>, ids: seq<Id>)
    requires Holds(db, c, ps) && |ids| == |ps| && forall i | 0 <= i < |ps| :: ids[i] == ps[i].id
    ensures forall id | id in ids :: id in db.messages
    ensures CostOf(db, ids) == TotalCost(ps)
  {
    forall i | 0 <= i < |ids| ensures ids[i] in db.messages {
      assert HoldsOne(db, c, ps[i]);
    }
    if ps != [] {
      var n := |ps| - 1;
      assert HoldsOne(db, c, ps[n]);
      forall i | 0 <= i < n ensures HoldsOne(db, c, ps[..n][i]) {
        assert HoldsOne(db, c, ps[i]);
      }
      CostsAdd(db, c, ps[..n], ids[..n]);
    }
  }

  /** What a repetition must have in common with the original; prices and encodings may have changed since. */
  predicate SameAsk(a: Item, b: Item) { a.to == b.to && a.text == b.text && a.service == b.service && a.ref == b.ref }

  predicate Repeats(ps: seq<Placed>, again: seq<Placed>)
  {
    |again| == |ps| && forall i | 0 <= i < |ps| :: SameAsk(ps[i].item, again[i].item)
  }

  /** Where a submission's messages are there, repeating it replays them. */
  lemma {:induction false} HeldSubmissionReplays(db: Db, c: Id, ps: seq<Placed>, again: seq<Placed>, r: Resolution)
    requires UniqueRefs(db.messages) && Holds(db, c, ps) && ps != [] && c in db.customers
    requires forall i | 0 <= i < |ps| :: ps[i].item.ref != ""
    requires Repeats(ps, again) && Resolves(db, c, Items(again), r)
    ensures InsertDecision(db, c, again) == ClientRefTaken
    ensures r.Replay? && |r.messages| == |ps| && r.totalCost == TotalCost(ps)
    ensures forall i | 0 <= i < |ps| :: r.messages[i] == ps[i].id
  {
    forall i | 0 <= i < |ps|
      ensures Answers(db, c, Items(again)[i], ps[i].id) && Accepting.Repeated(db, c, Items(again)[i])
    {
      assert HoldsOne(db, c, ps[i]) && SameAsk(ps[i].item, again[i].item);
    }
    forall i | 0 <= i < |ps| ensures r.messages[i] == ps[i].id {
      assert Answers(db, c, Items(again)[i], r.messages[i]);
    }
    CostsAdd(db, c, ps, r.messages);
    assert again[0] in again && again[0].item == Items(again)[0];
    assert RefUsed(db, c, again[0].item.ref);
  }

  /**
   Once a submission whose items all carry a client_ref is accepted, repeating it
   at any later time, with new IDs and whatever it would cost by then, records and
   charges nothing: the insert is refused and the lookup returns the original
   messages in order, at their original cost, for as long as the customer exists.
   */
  lemma AcceptedSubmissionReplays(cfg: Config, start: Time, before: seq<Event>, accept: AcceptConfig, c: Id,
                                  ps: seq<Placed>, after: seq<Event>, accept': AcceptConfig, again: seq<Placed>,
                                  r: Resolution)
    requires ValidConfig(cfg) && accept'.normalLanes > 0 && forall i | 0 <= i < |ps| :: ps[i].item.ref != ""
    requires var s := Run(cfg, Init(start), before);
             Submittable(s, accept, ps) && InsertDecision(s.db, c, ps) == Inserted
    requires var u := Run(cfg, Next(cfg, Run(cfg, Init(start), before), Submit(accept, c, ps)), after);
             c in u.db.customers && Repeats(ps, again) && Resolves(u.db, c, Items(again), r)
    ensures var u := Run(cfg, Next(cfg, Run(cfg, Init(start), before), Submit(accept, c, ps)), after);
            && InsertDecision(u.db, c, again) == ClientRefTaken
            && AfterInsert(u.db, accept', u.now, c, again) == u.db
            && r == Replay(Ids(ps), TotalCost(ps))
  {
    var s := Run(cfg, Init(start), before);
    Always(cfg, start, before);
    SubmissionHolds(cfg, s, accept, c, ps);
    HeldAfterEvent(cfg, s, Submit(accept, c, ps), after, c, ps, again, r);
    assert r.messages == Ids(ps);
  }

  lemma HeldAfterEvent(cfg: Config, s: Sys, e: Event, after: seq<Event>, c: Id, ps: seq<Placed>,
                       again: seq<Placed>, r: Resolution)
    requires Inv(cfg, s) && Holds(Next(cfg, s, e).db, c, ps) && ps != [] && forall i | 0 <= i < |ps| :: ps[i].item.ref != ""
    requires var u := Run(cfg, Next(cfg, s, e), after);
             c in u.db.customers && Repeats(ps, again) && Resolves(u.db, c, Items(again), r)
    ensures InsertDecision(Run(cfg, Next(cfg, s, e), after).db, c, again) == ClientRefTaken
    ensures r.Replay? && |r.messages| == |ps| && r.totalCost == TotalCost(ps)
    ensures forall i | 0 <= i < |ps| :: r.messages[i] == ps[i].id
  {
    NextKeeps(cfg, s, e);
    HeldSubmissionStays(cfg, Next(cfg, s, e), after, c, ps, again, r);
  }

  lemma HeldSubmissionStays(cfg: Config, t: Sys, after: seq<Event>, c: Id, ps: seq<Placed>,
                            again: seq<Placed>, r: Resolution)
    requires Inv(cfg, t) && Holds(t.db, c, ps) && ps != [] && forall i | 0 <= i < |ps| :: ps[i].item.ref != ""
    requires var u := Run(cfg, t, after);
             c in u.db.customers && Repeats(ps, again) && Resolves(u.db, c, Items(again), r)
    ensures InsertDecision(Run(cfg, t, after).db, c, again) == ClientRefTaken
    ensures r.Replay? && |r.messages| == |ps| && r.totalCost == TotalCost(ps)
    ensures forall i | 0 <= i < |ps| :: r.messages[i] == ps[i].id
  {
    RunKeeps(cfg, t, after);
    HoldsStays(cfg, t, Run(cfg, t, after), c, ps);
    HeldSubmissionReplays(Run(cfg, t, after).db, c, ps, again, r);
  }

  // ---------------------------------------------------------------------------
  // Reusing a client_ref for something else

  /** Item `n` reuses the client_ref of item `k` with another recipient, text or type. */
  predicate Reuses(ps: seq<Placed>, k: nat, again: seq<Placed>, n: nat)
  {
    && k < |ps| && n < |again| && ps[k].item.ref != "" && again[n].item.ref == ps[k].item.ref
    && var a, b := ps[k].item, again[n].item; b.to != a.to || b.text != a.text || b.service != a.service
  }

  lemma HeldSubmissionConflicts(db: Db, c: Id, ps: seq<Placed>, k: nat, again: seq<Placed>, n: nat, r: Resolution)
    requires UniqueRefs(db.messages) && Holds(db, c, ps) && c in db.customers
    requires Reuses(ps, k, again, n) && Resolves(db, c, Items(again), r)
    ensures InsertDecision(db, c, again) == ClientRefTaken
    ensures r.Conflicts? && Conflict(n, true) in r.fields
  {
    assert HoldsOne(db, c, ps[k]);
    assert Answers(db, c, Items(again)[n], ps[k].id);
    assert again[n] in again && RefUsed(db, c, again[n].item.ref);
    assert Known(db, c, Items(again)[n]) && !Accepting.Repeated(db, c, Items(again)[n]);
    assert Listed(r.fields, n);
    var f :| f in r.fields && f.index == n;
    assert f == Conflict(n, true);
  }

  lemma ConflictStays(cfg: Config, t: Sys, after: seq<Event>, c: Id, ps: seq<Placed>, k: nat,
                      again: seq<Placed>, n: nat, r: Resolution)
    requires Inv(cfg, t) && Holds(t.db, c, ps)
    requires var u := Run(cfg, t, after);
             c in u.db.customers && Reuses(ps, k, again, n) && Resolves(u.db, c, Items(again), r)
    ensures InsertDecision(Run(cfg, t, after).db, c, again) == ClientRefTaken
    ensures r.Conflicts? && Conflict(n, true) in r.fields
  {
    RunKeeps(cfg, t, after);
    HoldsStays(cfg, t, Run(cfg, t, after), c, ps);
    HeldSubmissionConflicts(Run(cfg, t, after).db, c, ps, k, again, n, r);
  }

  /**
   Once a submission is accepted, using one of its client_refs for another
   recipient, text or type is refused at every later time while the customer
   exists: nothing is recorded or charged, and the answer names the item and says
   that it differs.
   */
  lemma ReusedRefConflicts(cfg: Config, start: Time, before: seq<Event>, accept: AcceptConfig, c: Id, ps: seq<Placed>,
                           k: nat, after: seq<Event>, accept': AcceptConfig, again: seq<Placed>, n: nat, r: Resolution)
    requires ValidConfig(cfg) && accept'.normalLanes > 0
    requires var s := Run(cfg, Init(start), before);
             Submittable(s, accept, ps) && InsertDecision(s.db, c, ps) == Inserted
    requires var u := Run(cfg, Next(cfg, Run(cfg, Init(start), before), Submit(accept, c, ps)), after);
             c in u.db.customers && Reuses(ps, k, again, n) && Resolves(u.db, c, Items(again), r)
    ensures var u := Run(cfg, Next(cfg, Run(cfg, Init(start), before), Submit(accept, c, ps)), after);
            AfterInsert(u.db, accept', u.now, c, again) == u.db && r.Conflicts? && Conflict(n, true) in r.fields
  {
    var s := Run(cfg, Init(start), before);
    var t := Next(cfg, s, Submit(accept, c, ps));
    assert Inv(cfg, t) by {
      Always(cfg, start, before);
      NextKeeps(cfg, s, Submit(accept, c, ps));
    }
    SubmissionHolds(cfg, s, accept, c, ps);
    ConflictStays(cfg, t, after, c, ps, k, again, n, r);
  }

  function Ids(ps: seq<Placed>): (ids: seq<Id>)
    ensures |ids| == |ps| && forall i | 0 <= i < |ps| :: ids[i] == ps[i].id
  {
    seq(|ps|, i requires 0 <= i < |ps| => ps[i].id)
  }

  lemma SubmissionHolds(cfg: Config, s: Sys, accept: AcceptConfig, c: Id, ps: seq<Placed>)
    requires Submittable(s, accept, ps) && InsertDecision(s.db, c, ps) == Inserted
    ensures Holds(Next(cfg, s, Submit(accept, c, ps)).db, c, ps)
  {
    AcceptAllHolds(s.db, accept, s.now, c, ps);
  }

  // ---------------------------------------------------------------------------
  // Repeating a charge

  /** Once a charge is made, every repetition at any later time replays it or conflicts, and adds nothing. */
  lemma {:induction false} ChargeIsMadeOnce(cfg: Config, start: Time, before: seq<Event>, c: Id, amount: int, ref: string,
                         after: seq<Event>, again: int)
    requires ValidConfig(cfg)
    requires var s := Run(cfg, Init(start), before); ChargeOnce(s.db, s.now, c, amount, ref).0.Charged?
    requires c in Run(cfg, Next(cfg, Run(cfg, Init(start), before), Charge(c, amount, ref)), after).db.customers
    ensures var s := Run(cfg, Init(start), before);
            var u := Run(cfg, Next(cfg, s, Charge(c, amount, ref)), after);
            var repeat := ChargeOnce(u.db, u.now, c, again, ref);
            && repeat.1 == u.db
            && (again == amount ==> repeat.0 == Replayed(Tx(c, amount, s.now), u.db.customers[c].balance))
            && (0 < again != amount ==> repeat.0 == ChargeConflict)
  {
    var s := Run(cfg, Init(start), before);
    assert Inv(cfg, s) by { Always(cfg, start, before); }
    ChargeRecorded(cfg, s, c, amount, ref);
    ChargeStays(cfg, s, Charge(c, amount, ref), after, c, ref);
    var u := Run(cfg, Next(cfg, s, Charge(c, amount, ref)), after);
    KnownCharge(u.db, u.now, c, amount, ref, s.now, again);
  }

  lemma ChargeRecorded(cfg: Config, s: Sys, c: Id, amount: int, ref: string)
    requires ChargeOnce(s.db, s.now, c, amount, ref).0.Charged?
    ensures amount > 0
    ensures Lookup(Next(cfg, s, Charge(c, amount, ref)).db.txs, ChargeOf(c, ref)) == Some(Tx(c, amount, s.now))
  {
  }

  lemma KnownCharge(db: Db, now: Time, c: Id, amount: int, ref: string, at: Time, again: int)
    requires Lookup(db.txs, ChargeOf(c, ref)) == Some(Tx(c, amount, at)) && c in db.customers && amount > 0
    ensures ChargeOnce(db, now, c, again, ref).1 == db
    ensures again == amount ==> ChargeOnce(db, now, c, again, ref).0 == Replayed(Tx(c, amount, at), db.customers[c].balance)
    ensures 0 < again != amount ==> ChargeOnce(db, now, c, again, ref).0 == ChargeConflict
  {
  }

  /** A charge stays as it is while its customer exists. */
  lemma ChargeStays(cfg: Config, s: Sys, e: Event, after: seq<Event>, c: Id, ref: string)
    requires Inv(cfg, s) && ChargeOf(c, ref) in Next(cfg, s, e).db.txs
    requires c in Run(cfg, Next(cfg, s, e), after).db.customers
    ensures Lookup(Run(cfg, Next(cfg, s, e), after).db.txs, ChargeOf(c, ref)) ==
            Lookup(Next(cfg, s, e).db.txs, ChargeOf(c, ref))
  {
    NextKeeps(cfg, s, e);
    RunKeeps(cfg, Next(cfg, s, e), after);
  }
}
