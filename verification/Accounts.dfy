/** What creating, charging, debiting and deleting a customer leave in the tables, in every reachable state. */
module Accounts {
  import opened Tables
  import opened Folds
  import opened Cells
  import opened Gateway
  import opened Runs
  import Accepting

  /** A new customer has its positive initial credits, recorded as one charge, or nothing. */
  lemma CreatedWithCredits(cfg: Config, start: Time, es: seq<Event>, c: Id, credits: int, ref: string)
    requires ValidConfig(cfg) && c !in Run(cfg, Init(start), es).issued
    ensures var s := Run(cfg, Init(start), es);
            var t := Next(cfg, s, Create(c, credits, ref));
            if credits > 0 then
              t.db == s.db.(customers := s.db.customers[c := Customer(credits, s.now)],
                            txs := s.db.txs[ChargeOf(c, ref) := Tx(c, credits, s.now)])
            else t.db == s.db.(customers := s.db.customers[c := Customer(0, s.now)])
  {
    var s := Run(cfg, Init(start), es);
    assert c !in s.db.customers && ChargeOf(c, ref) !in s.db.txs by { Always(cfg, start, es); }
  }

  /** A positive charge of an existing customer under a new client_ref is always made; any other moves nothing. */
  lemma ChargeIsMade(cfg: Config, s: Sys, c: Id, amount: int, ref: string)
    ensures var t := Next(cfg, s, Charge(c, amount, ref));
            if amount > 0 && c in s.db.customers && ChargeOf(c, ref) !in s.db.txs then
              t == s.(db := s.db.(customers := s.db.customers[c := Customer(s.db.customers[c].balance + amount, s.now)],
                                  txs := s.db.txs[ChargeOf(c, ref) := Tx(c, amount, s.now)]))
            else t == s
  {
  }

  /** The customer has a message with the client_ref of one of the items. */
  ghost predicate SomeRefTaken(db: Db, c: Id, ps: seq<Accepting.Placed>)
  {
    exists id: Id, i :: id in db.messages && 0 <= i < |ps| && ps[i].item.ref != "" && db.messages[id].customer == c
                        && db.messages[id].clientRef == Some(ps[i].item.ref)
  }

  /** The submission was recorded and paid for, exactly if it can be; otherwise nothing changed. */
  ghost predicate PaidForOrRefused(db: Db, t: Db, now: Time, c: Id, ps: seq<Accepting.Placed>)
  {
    if c in db.customers && !SomeRefTaken(db, c, ps) && Accepting.TotalCost(ps) <= db.customers[c].balance then
      && (forall i | 0 <= i < |ps| :: ps[i].id in t.messages)
      && t.customers == db.customers[c := Customer(db.customers[c].balance - Accepting.TotalCost(ps), now)]
    else t == db && forall i | 0 <= i < |ps| :: ps[i].id !in t.messages
  }

  lemma InsertPays(db: Db, accept: Accepting.AcceptConfig, now: Time, c: Id, ps: seq<Accepting.Placed>)
    requires accept.normalLanes > 0 && ps != [] && DistinctBy(Accepting.IdOf, ps)
    requires forall i | 0 <= i < |ps| :: ps[i].id !in db.messages
    ensures PaidForOrRefused(db, Accepting.AfterInsert(db, accept, now, c, ps), now, c, ps)
  {
    TakenIsUsed(db, c, ps);
    if c in db.customers {
      Accepting.AcceptedTableByTable(db, accept, now, c, ps);
      forall i | 0 <= i < |ps| ensures ps[i].id in Accepting.MessagesOf(db.messages, accept, now, c, ps) {
        Accepting.MessagesOfAt(db.messages, accept, now, c, ps, i);
      }
    }
  }

  /**
   A submission is recorded and paid for exactly when its customer exists, has
   used none of its client_refs and can pay the total, to the last credit;
   otherwise it changes nothing.
   */
  lemma SubmissionIsPaidFor(cfg: Config, start: Time, es: seq<Event>, accept: Accepting.AcceptConfig, c: Id,
                            ps: seq<Accepting.Placed>)
    requires ValidConfig(cfg) && Submittable(Run(cfg, Init(start), es), accept, ps)
    ensures var s := Run(cfg, Init(start), es);
            PaidForOrRefused(s.db, Next(cfg, s, Submit(accept, c, ps)).db, s.now, c, ps)
  {
    var s := Run(cfg, Init(start), es);
    forall i | 0 <= i < |ps| ensures ps[i].id !in s.db.messages {
      assert ps[i] in ps;
      assert Linked(s) by { Always(cfg, start, es); }
    }
    InsertPays(s.db, accept, s.now, c, ps);
  }

  lemma TakenIsUsed(db: Db, c: Id, ps: seq<Accepting.Placed>)
    ensures SomeRefTaken(db, c, ps) <==> Accepting.SomeRefUsed(db, c, ps)
  {
    if p :| p in ps && p.item.ref != "" && Accepting.RefUsed(db, c, p.item.ref) {
      var i :| 0 <= i < |ps| && ps[i] == p;
      var id :| id in db.messages && db.messages[id].customer == c && db.messages[id].clientRef == Some(p.item.ref);
      assert ps[i].item.ref == p.item.ref;
    }
    if id: Id, i :| id in db.messages && 0 <= i < |ps| && ps[i].item.ref != "" && db.messages[id].customer == c
                    && db.messages[id].clientRef == Some(ps[i].item.ref) {
      assert ps[i] in ps && Accepting.RefUsed(db, c, ps[i].item.ref);
    }
  }

  /** Deleting a customer removes it, its messages with their queue rows, and its ledger, and nothing of anyone else. */
  lemma DeleteRemovesExactly(cfg: Config, start: Time, es: seq<Event>, c: Id)
    requires ValidConfig(cfg)
    ensures var s := Run(cfg, Init(start), es);
            var t := Next(cfg, s, Delete(c));
            && (forall x: Id :: Lookup(t.db.customers, x) == if x == c then None else Lookup(s.db.customers, x))
            && (forall id: Id :: RemovedWith(s.db, t.db, c, id))
            && (forall k: TxKey :: Lookup(t.db.txs, k) ==
                                   if k in s.db.txs && s.db.txs[k].customer == c then None else Lookup(s.db.txs, k))
  {
    var s := Run(cfg, Init(start), es);
    var t := Next(cfg, s, Delete(c));
    forall k | k in s.db.txs && !k.ChargeOf?
      ensures k.message in s.db.messages && s.db.txs[k].customer == s.db.messages[k.message].customer
    {
      Always(cfg, start, es);
      assert CellOk(cfg, s.now, CellOf(s.db, k.message));
      assert CellOf(s.db, k.message).debit == Lookup(s.db.txs, DebitOf(k.message));
      assert CellOf(s.db, k.message).refund == Lookup(s.db.txs, RefundOf(k.message));
    }
    forall id | id in s.db.queue ensures id in s.db.messages {
      Always(cfg, start, es);
      assert CellOk(cfg, s.now, CellOf(s.db, id));
    }
  }

  ghost predicate RemovedWith(db: Db, t: Db, c: Id, id: Id)
  {
    if id in db.messages && db.messages[id].customer == c then id !in t.messages && id !in t.queue
    else Lookup(t.messages, id) == Lookup(db.messages, id) && Lookup(t.queue, id) == Lookup(db.queue, id)
  }
}
