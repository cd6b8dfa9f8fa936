/** Customers, charges, submissions and the clock keep the invariant. */
module InvarianceOfAccounts {
  import opened Tables
  import opened Folds
  import opened Billing
  import opened Cells
  import opened Gateway
  import opened Invariance
  import opened Accepting
  import Customers
  import Sums

  /** The invariant implies the schema's foreign keys. */
  lemma ForeignKeysHold(cfg: Config, s: Sys)
    requires CellsOk(cfg, s) && Linked(s)
    ensures ForeignKeys(s.db)
  {
    forall id | id in s.db.queue ensures id in s.db.messages {
      assert CellOk(cfg, s.now, CellOf(s.db, id));
    }
    forall k | k in s.db.txs
      ensures s.db.txs[k].customer in s.db.customers && (!k.ChargeOf? ==> k.message in s.db.messages)
    {
      if !k.ChargeOf? {
        assert CellOk(cfg, s.now, CellOf(s.db, k.message));
      }
    }
  }

  // ---------------------------------------------------------------------------
  // The clock and decisions

  /** A run's changes add up. */
  lemma EvolvesTransitive(cfg: Config, a: Sys, b: Sys, c: Sys)
    requires Evolves(a, b) && Evolves(b, c) && Linked(a) && CellsOk(cfg, c)
    ensures Evolves(a, c)
  {
    forall id: Id | id in a.issued ensures CellEvolves(CellOf(a.db, id), CellOf(c.db, id)) {
      assert CellOk(cfg, c.now, CellOf(c.db, id));
      CellEvolvesTransitive(CellOf(a.db, id), CellOf(b.db, id), CellOf(c.db, id));
    }
    forall id | id in a.db.messages && a.db.messages[id].customer in c.db.customers ensures id in c.db.messages {
      MessagesRemain(a, b, c, id);
    }
    forall k | k in c.jobs && k !in a.jobs && k.id in a.issued ensures ClaimableFrom(CellOf(a.db, k.id), k.version) {
      ClaimedLater(a, b, c, k);
    }
  }

  lemma MessagesRemain(a: Sys, b: Sys, c: Sys, id: Id)
    requires Evolves(a, b) && Evolves(b, c) && Linked(a)
    requires id in a.db.messages && a.db.messages[id].customer in c.db.customers
    ensures id in c.db.messages
  {
    assert a.db.messages[id].customer in a.issued;
    assert a.db.messages[id].customer in b.db.customers;
    assert CellEvolves(CellOf(a.db, id), CellOf(b.db, id));
    assert CellOf(a.db, id).msg == Some(a.db.messages[id]) && CellOf(b.db, id).msg == Some(b.db.messages[id]);
  }

  lemma ClaimedLater(a: Sys, b: Sys, c: Sys, k: JobKey)
    requires Evolves(a, b) && Evolves(b, c) && k in c.jobs && k !in a.jobs && k.id in a.issued
    ensures ClaimableFrom(CellOf(a.db, k.id), k.version)
  {
    assert CellEvolves(CellOf(a.db, k.id), CellOf(b.db, k.id));
    if k !in b.jobs {
      assert ClaimableFrom(CellOf(b.db, k.id), k.version);
    }
  }

  lemma TickKeeps(cfg: Config, s: Sys, elapsed: nat)
    requires Inv(cfg, s)
    ensures Inv(cfg, s.(now := s.now + elapsed)) && Evolves(s, s.(now := s.now + elapsed))
  {
    var s' := s.(now := s.now + elapsed);
    forall id: Id ensures CellOk(cfg, s'.now, CellOf(s'.db, id)) {
      assert CellOk(cfg, s.now, CellOf(s.db, id));
    }
    EvolvesFromItself(cfg, s);
  }

  lemma DecidedJobsOk(s: Sys, k: JobKey, o: Outcome)
    requires JobsOk(s) && k !in s.outcomes
    ensures JobsOk(s.(outcomes := s.outcomes[k := o]))
  {
  }

  lemma DecideKeeps(cfg: Config, s: Sys, o: Outcome)
    requires Inv(cfg, s) && Decidable(cfg, s, o)
    ensures Inv(cfg, s.(outcomes := s.outcomes[KeyOf(o.job) := o]))
    ensures Evolves(s, s.(outcomes := s.outcomes[KeyOf(o.job) := o]))
  {
    DecideEvolves(cfg, s, o);
    DecideHolds(cfg, s, o);
  }

  lemma DecideEvolves(cfg: Config, s: Sys, o: Outcome)
    requires Inv(cfg, s) && Decidable(cfg, s, o)
    ensures Evolves(s, s.(outcomes := s.outcomes[KeyOf(o.job) := o]))
  {
    EvolvesFromItself(cfg, s);
  }

  lemma DecideHolds(cfg: Config, s: Sys, o: Outcome)
    requires Inv(cfg, s) && Decidable(cfg, s, o)
    ensures Inv(cfg, s.(outcomes := s.outcomes[KeyOf(o.job) := o]))
  {
    DecidedJobsOk(s, KeyOf(o.job), o);
    var s' := s.(outcomes := s.outcomes[KeyOf(o.job) := o]);
    assert CellsOk(cfg, s') by {
      forall id: Id ensures CellOk(cfg, s'.now, CellOf(s'.db, id)) {
        assert CellOk(cfg, s.now, CellOf(s.db, id));
      }
    }
  }

  // ---------------------------------------------------------------------------
  // Accounts that appear, grow and disappear

  /** Steps that leave every message alone. */
  lemma SameCellsKeep(cfg: Config, s: Sys, s': Sys)
    requires Inv(cfg, s) && s' == s.(db := s'.db, issued := s'.issued) && s.issued <= s'.issued
    requires s'.db.messages == s.db.messages && s'.db.queue == s.db.queue
    requires forall k: TxKey | !k.ChargeOf? :: Lookup(s'.db.txs, k) == Lookup(s.db.txs, k)
    requires forall k | k in s.db.txs :: k in s'.db.txs && s'.db.txs[k] == s.db.txs[k]
    requires forall c | c in s.issued && c in s'.db.customers :: c in s.db.customers
    requires Linked(s') && Balanced(s'.db)
    ensures Inv(cfg, s') && Evolves(s, s')
  {
    forall id: Id
      ensures CellOf(s'.db, id) == CellOf(s.db, id) && CellOk(cfg, s'.now, CellOf(s'.db, id))
    {
      assert CellOk(cfg, s.now, CellOf(s.db, id));
      assert Lookup(s'.db.txs, DebitOf(id)) == Lookup(s.db.txs, DebitOf(id));
      assert Lookup(s'.db.txs, RefundOf(id)) == Lookup(s.db.txs, RefundOf(id));
    }
    EvolvesFromItself(cfg, s);
  }

  lemma ChargeBalances(db: Db, now: Time, c: Id, amount: int, ref: string)
    requires Balanced(db) && ChargeOnce(db, now, c, amount, ref).0.Charged?
    ensures Balanced(ChargeOnce(db, now, c, amount, ref).1)
  {
    var db' := ChargeOnce(db, now, c, amount, ref).1;
    forall x | x in db'.customers ensures db'.customers[x].balance == Sums.Total(db'.txs, CreditTo(x)) >= 0 {
      Sums.TotalAdd(db.txs, CreditTo(x), ChargeOf(c, ref), Tx(c, amount, now));
      assert x in db.customers;
    }
  }

  lemma ChargeKeeps(cfg: Config, s: Sys, c: Id, amount: int, ref: string)
    requires Inv(cfg, s)
    ensures Inv(cfg, s.(db := ChargeOnce(s.db, s.now, c, amount, ref).1))
    ensures Evolves(s, s.(db := ChargeOnce(s.db, s.now, c, amount, ref).1))
  {
    var s' := s.(db := ChargeOnce(s.db, s.now, c, amount, ref).1);
    if ChargeOnce(s.db, s.now, c, amount, ref).0.Charged? {
      ChargeBalances(s.db, s.now, c, amount, ref);
      SameCellsKeep(cfg, s, s');
    } else {
      assert s' == s;
      EvolvesFromItself(cfg, s);
    }
  }

  lemma NewCustomerBalances(cfg: Config, s: Sys, c: Id)
    requires Inv(cfg, s) && c !in s.db.customers
    ensures Balanced(s.db.(customers := s.db.customers[c := Customer(0, s.now)]))
  {
    ForeignKeysHold(cfg, s);
    Sums.TotalDropZeros(s.db.txs, CreditTo(c), s.db.txs.Keys);
    assert s.db.txs - s.db.txs.Keys == map[];
  }

  lemma NewCustomerKeeps(cfg: Config, s: Sys, c: Id)
    requires Inv(cfg, s) && c !in s.issued
    ensures var s' := s.(db := s.db.(customers := s.db.customers[c := Customer(0, s.now)]), issued := s.issued + {c});
            Inv(cfg, s') && Evolves(s, s')
  {
    NewCustomerBalances(cfg, s, c);
    SameCellsKeep(cfg, s, s.(db := s.db.(customers := s.db.customers[c := Customer(0, s.now)]), issued := s.issued + {c}));
  }

  lemma CreateKeeps(cfg: Config, s: Sys, c: Id, credits: int, ref: string)
    requires Inv(cfg, s) && c !in s.issued
    ensures var s' := s.(db := Customers.AfterCreate(s.db, s.now, c, credits, ref), issued := s.issued + {c});
            Inv(cfg, s') && Evolves(s, s')
  {
    var created := s.(db := s.db.(customers := s.db.customers[c := Customer(0, s.now)]), issued := s.issued + {c});
    NewCustomerKeeps(cfg, s, c);
    if credits > 0 {
      ChargeKeeps(cfg, created, c, credits, ref);
      EvolvesTransitive(cfg, s, created, created.(db := ChargeOnce(created.db, s.now, c, credits, ref).1));
    }
  }

  // ---------------------------------------------------------------------------
  // Deletion

  lemma DeletedCells(cfg: Config, s: Sys, c: Id, id: Id)
    requires Inv(cfg, s)
    ensures CellOf(Customers.AfterDelete(s.db, c), id) ==
            if id in s.db.messages && s.db.messages[id].customer != c then CellOf(s.db, id) else Cell(None, None, None, None)
  {
    assert CellOk(cfg, s.now, CellOf(s.db, id));
  }

  lemma DeleteBalances(cfg: Config, s: Sys, c: Id)
    requires Inv(cfg, s)
    ensures Balanced(Customers.AfterDelete(s.db, c))
  {
    var db' := Customers.AfterDelete(s.db, c);
    var gone := Customers.TxsOfCustomer(s.db, c);
    forall k | k in gone ensures s.db.txs[k].customer == c {
      if !k.ChargeOf? {
        assert CellOk(cfg, s.now, CellOf(s.db, k.message));
      }
    }
    forall x | x in db'.customers ensures db'.customers[x].balance == Sums.Total(db'.txs, CreditTo(x)) >= 0 {
      Sums.TotalDropZeros(s.db.txs, CreditTo(x), gone);
    }
  }

  lemma DeleteKeeps(cfg: Config, s: Sys, c: Id)
    requires Inv(cfg, s)
    ensures Inv(cfg, s.(db := Customers.AfterDelete(s.db, c)))
    ensures Evolves(s, s.(db := Customers.AfterDelete(s.db, c)))
  {
    DeleteHolds(cfg, s, c);
    DeleteEvolves(cfg, s, c);
  }

  lemma DeleteHolds(cfg: Config, s: Sys, c: Id)
    requires Inv(cfg, s)
    ensures Inv(cfg, s.(db := Customers.AfterDelete(s.db, c)))
  {
    var s' := s.(db := Customers.AfterDelete(s.db, c));
    DeleteBalances(cfg, s, c);
    forall id: Id ensures CellOk(cfg, s'.now, CellOf(s'.db, id)) {
      assert CellOk(cfg, s.now, CellOf(s.db, id));
      DeletedCells(cfg, s, c, id);
    }
    DeleteJobs(cfg, s, c);
  }

  lemma DeleteEvolves(cfg: Config, s: Sys, c: Id)
    requires Inv(cfg, s)
    ensures Evolves(s, s.(db := Customers.AfterDelete(s.db, c)))
  {
    var s' := s.(db := Customers.AfterDelete(s.db, c));
    forall id: Id ensures CellEvolves(CellOf(s.db, id), CellOf(s'.db, id)) {
      assert CellOk(cfg, s.now, CellOf(s.db, id));
      DeletedCells(cfg, s, c, id);
    }
  }

  lemma DeleteJobs(cfg: Config, s: Sys, c: Id)
    requires Inv(cfg, s)
    ensures JobsOk(s.(db := Customers.AfterDelete(s.db, c)))
  {
    var s' := s.(db := Customers.AfterDelete(s.db, c));
    forall k | k in s'.jobs
      ensures k == KeyOf(s'.jobs[k]) && k.id in s'.issued
              && JobOk(s'.now, Lookup(s'.outcomes, k), CellOf(s'.db, k.id), s'.jobs[k])
    {
      DeletedCells(cfg, s, c, k.id);
    }
  }

  // ---------------------------------------------------------------------------
  // Submissions

  /** One accepted message, with its ID drawn. */
  function Accepted1(s: Sys, accept: AcceptConfig, c: Id, p: Placed): Sys
    requires accept.normalLanes > 0
  {
    s.(db := AcceptOne(s.db, accept, s.now, c, p), issued := s.issued + {p.id})
  }

  lemma AcceptedCells(cfg: Config, s: Sys, accept: AcceptConfig, c: Id, p: Placed)
    requires Inv(cfg, s) && accept.normalLanes > 0 && p.id !in s.issued && Priced(p.item)
    ensures CellsOk(cfg, Accepted1(s, accept, c, p))
    ensures forall id: Id | id != p.id :: CellOf(AcceptOne(s.db, accept, s.now, c, p), id) == CellOf(s.db, id)
  {
    var s' := Accepted1(s, accept, c, p);
    forall id: Id
      ensures CellOk(cfg, s'.now, CellOf(s'.db, id)) && (id != p.id ==> CellOf(s'.db, id) == CellOf(s.db, id))
    {
      assert CellOk(cfg, s.now, CellOf(s.db, id));
    }
  }

  lemma AcceptBalances(cfg: Config, s: Sys, accept: AcceptConfig, c: Id, p: Placed)
    requires Inv(cfg, s) && accept.normalLanes > 0 && p.id !in s.issued
    requires c in s.db.customers && s.db.customers[c].balance >= p.item.cost
    ensures Balanced(AcceptOne(s.db, accept, s.now, c, p))
  {
    var db' := AcceptOne(s.db, accept, s.now, c, p);
    assert CellOk(cfg, s.now, CellOf(s.db, p.id));
    forall x | x in db'.customers ensures db'.customers[x].balance == Sums.Total(db'.txs, CreditTo(x)) >= 0 {
      Sums.TotalAdd(s.db.txs, CreditTo(x), DebitOf(p.id), Tx(c, -p.item.cost, s.now));
      assert x in s.db.customers;
    }
  }

  lemma AcceptKeepsRefs(db: Db, accept: AcceptConfig, now: Time, c: Id, p: Placed)
    requires accept.normalLanes > 0 && UniqueRefs(db.messages) && p.id !in db.messages
    requires p.item.ref != "" ==> !RefUsed(db, c, p.item.ref)
    ensures UniqueRefs(AcceptOne(db, accept, now, c, p).messages)
  {
  }

  lemma AcceptOneKeeps(cfg: Config, s: Sys, accept: AcceptConfig, c: Id, p: Placed)
    requires Inv(cfg, s) && accept.normalLanes > 0 && p.id !in s.issued && Priced(p.item)
    requires c in s.db.customers && s.db.customers[c].balance >= p.item.cost
    requires p.item.ref != "" ==> !RefUsed(s.db, c, p.item.ref)
    ensures Inv(cfg, Accepted1(s, accept, c, p)) && Evolves(s, Accepted1(s, accept, c, p))
  {
    var s' := Accepted1(s, accept, c, p);
    AcceptedCells(cfg, s, accept, c, p);
    AcceptBalances(cfg, s, accept, c, p);
    AcceptKeepsRefs(s.db, accept, s.now, c, p);
    AcceptKeepsJobs(cfg, s, accept, c, p);
    AcceptKeepsLinks(s, accept, c, p);
    AcceptEvolves(cfg, s, accept, c, p);
  }

  lemma AcceptKeepsJobs(cfg: Config, s: Sys, accept: AcceptConfig, c: Id, p: Placed)
    requires Inv(cfg, s) && accept.normalLanes > 0 && p.id !in s.issued && Priced(p.item)
    ensures JobsOk(Accepted1(s, accept, c, p))
  {
    var s' := Accepted1(s, accept, c, p);
    AcceptedCells(cfg, s, accept, c, p);
    forall k | k in s'.jobs
      ensures k == KeyOf(s'.jobs[k]) && k.id in s'.issued
              && JobOk(s'.now, Lookup(s'.outcomes, k), CellOf(s'.db, k.id), s'.jobs[k])
    {
      assert CellOf(s'.db, k.id) == CellOf(s.db, k.id);
    }
  }

  lemma AcceptKeepsLinks(s: Sys, accept: AcceptConfig, c: Id, p: Placed)
    requires Linked(s) && accept.normalLanes > 0 && c in s.db.customers
    ensures Linked(Accepted1(s, accept, c, p))
  {
  }

  lemma AcceptEvolves(cfg: Config, s: Sys, accept: AcceptConfig, c: Id, p: Placed)
    requires Inv(cfg, s) && accept.normalLanes > 0 && p.id !in s.issued && Priced(p.item)
    ensures Evolves(s, Accepted1(s, accept, c, p))
  {
    var s' := Accepted1(s, accept, c, p);
    AcceptedCells(cfg, s, accept, c, p);
    forall id: Id | id in s.issued ensures CellEvolves(CellOf(s.db, id), CellOf(s'.db, id)) {
      assert CellOk(cfg, s.now, CellOf(s.db, id));
    }
  }

  /** The state after the first messages of a submission. */
  function AcceptedSome(s: Sys, accept: AcceptConfig, c: Id, ps: seq<Placed>): Sys
    requires accept.normalLanes > 0
  {
    s.(db := AcceptAll(s.db, accept, s.now, c, ps), issued := s.issued + set p | p in ps :: p.id)
  }

  lemma {:induction false} TotalCostPositive(ps: seq<Placed>)
    requires forall p | p in ps :: Priced(p.item)
    ensures TotalCost(ps) >= 0
  {
    if ps != [] {
      TotalCostPositive(ps[..|ps| - 1]);
    }
  }

  lemma {:induction false} AcceptAllBalance(db: Db, accept: AcceptConfig, now: Time, c: Id, ps: seq<Placed>)
    requires accept.normalLanes > 0 && c in db.customers
    ensures c in AcceptAll(db, accept, now, c, ps).customers
    ensures AcceptAll(db, accept, now, c, ps).customers[c].balance == db.customers[c].balance - TotalCost(ps)
  {
    if ps != [] {
      AcceptAllBalance(db, accept, now, c, ps[..|ps| - 1]);
    }
  }

  lemma {:induction false} AcceptAllRefs(db: Db, accept: AcceptConfig, now: Time, c: Id, ps: seq<Placed>)
    requires accept.normalLanes > 0 && forall p | p in ps :: p.id !in db.messages
    ensures RefsAfter(db, AcceptAll(db, accept, now, c, ps), c, ps, |ps|)
  {
    if ps != [] {
      var n := |ps| - 1;
      AcceptAllRefs(db, accept, now, c, ps[..n]);
      LongerOwnRefs(ps, n);
    }
  }

  lemma LongerOwnRefs(ps: seq<Placed>, n: nat)
    requires n < |ps|
    ensures forall ref | OwnRef(ps[..n], n, ref) :: OwnRef(ps, n, ref) && OwnRef(ps, |ps|, ref)
    ensures OwnRef(ps, |ps|, ps[n].item.ref)
  {
    forall ref | OwnRef(ps[..n], n, ref) ensures OwnRef(ps, n, ref) && OwnRef(ps, |ps|, ref) {
      var k :| 0 <= k < n && ps[..n][k].item.ref == ref;
      assert ps[k].item.ref == ref;
    }
  }

  lemma AcceptedNext(s: Sys, accept: AcceptConfig, c: Id, ps: seq<Placed>)
    requires accept.normalLanes > 0 && ps != []
    ensures Accepted1(AcceptedSome(s, accept, c, ps[..|ps| - 1]), accept, c, ps[|ps| - 1]) == AcceptedSome(s, accept, c, ps)
  {
    assert ps == ps[..|ps| - 1] + [ps[|ps| - 1]];
  }

  /** The submission would be inserted. */
  ghost predicate Payable(s: Sys, c: Id, ps: seq<Placed>)
  {
    && DistinctRefs(ps) && DistinctBy(IdOf, ps)
    && (forall p | p in ps :: p.id !in s.issued && Priced(p.item))
    && c in s.db.customers && !SomeRefUsed(s.db, c, ps) && s.db.customers[c].balance >= TotalCost(ps)
  }

  lemma PayablePrefix(s: Sys, c: Id, ps: seq<Placed>)
    requires ps != [] && Payable(s, c, ps)
    ensures Payable(s, c, ps[..|ps| - 1])
  {
    var init, p := ps[..|ps| - 1], ps[|ps| - 1];
    assert p in ps;
    assert forall q | q in init :: q in ps;
  }

  /** The last message of a submission. */
  lemma SubmitLast(cfg: Config, s: Sys, accept: AcceptConfig, c: Id, ps: seq<Placed>)
    requires accept.normalLanes > 0 && ps != [] && Payable(s, c, ps) && Linked(s)
    requires Inv(cfg, AcceptedSome(s, accept, c, ps[..|ps| - 1]))
    ensures Inv(cfg, AcceptedSome(s, accept, c, ps))
    ensures Evolves(AcceptedSome(s, accept, c, ps[..|ps| - 1]), AcceptedSome(s, accept, c, ps))
  {
    var n := |ps| - 1;
    var mid := AcceptedSome(s, accept, c, ps[..n]);
    assert ps[n] in ps && forall p | p in ps[..n] :: p in ps;
    AcceptAllBalance(s.db, accept, s.now, c, ps[..n]);
    AcceptAllRefs(s.db, accept, s.now, c, ps[..n]);
    SubmitNext(s, mid, c, ps);
    AcceptOneKeeps(cfg, mid, accept, c, ps[n]);
    AcceptedNext(s, accept, c, ps);
  }

  /** A submission that is paid for keeps the invariant message by message. */
  lemma {:induction false} SubmitKeeps(cfg: Config, s: Sys, accept: AcceptConfig, c: Id, ps: seq<Placed>)
    requires Inv(cfg, s) && accept.normalLanes > 0 && Payable(s, c, ps)
    ensures Inv(cfg, AcceptedSome(s, accept, c, ps)) && Evolves(s, AcceptedSome(s, accept, c, ps))
  {
    if ps == [] {
      assert AcceptedSome(s, accept, c, ps) == s;
      EvolvesFromItself(cfg, s);
    } else {
      PayablePrefix(s, c, ps);
      SubmitKeeps(cfg, s, accept, c, ps[..|ps| - 1]);
      SubmitLast(cfg, s, accept, c, ps);
      EvolvesTransitive(cfg, s, AcceptedSome(s, accept, c, ps[..|ps| - 1]), AcceptedSome(s, accept, c, ps));
    }
  }

  lemma SubmitNext(s: Sys, mid: Sys, c: Id, ps: seq<Placed>)
    requires ps != [] && DistinctRefs(ps) && DistinctBy(IdOf, ps) && !SomeRefUsed(s.db, c, ps)
    requires ps[|ps| - 1].id !in s.issued
    requires mid.issued == s.issued + set p | p in ps[..|ps| - 1] :: p.id
    requires RefsAfter(s.db, mid.db, c, ps[..|ps| - 1], |ps| - 1)
    ensures ps[|ps| - 1].id !in mid.issued
    ensures ps[|ps| - 1].item.ref != "" ==> !RefUsed(mid.db, c, ps[|ps| - 1].item.ref)
  {
    var n := |ps| - 1;
    forall p | p in ps[..n] ensures p.id != ps[n].id {
      var i :| 0 <= i < n && ps[i] == p;
      assert IdOf(ps[i]) != IdOf(ps[n]);
    }
    LongerOwnRefs(ps, n);
    RefUsedBetween(s.db, mid.db, c, ps, n);
    assert ps[n] in ps;
  }
}
