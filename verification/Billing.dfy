/** Credit movements: internal/billing/ledger.go. */
module Billing {
  import opened Tables
  import opened Folds
  import Sorting

  /** The tables as one transaction sees and changes them. */
  class Session {
    var db: Db
    const now: Time

    constructor (db: Db, now: Time)
      ensures this.db == db && this.now == now
    {
      this.db, this.now := db, now;
    }
  }

  // ---------------------------------------------------------------------------
  // The credits of a customer

  ghost function CreditTo(c: Id): (TxKey, Tx) -> int { (k: TxKey, t: Tx) => if t.customer == c then t.amount else 0 }

  ghost function ChargeTo(c: Id): (TxKey, Tx) -> int
  {
    (k: TxKey, t: Tx) => if k.ChargeOf? && t.customer == c then t.amount else 0
  }

  /** What a customer's message still costs. */
  ghost function LiveCost(c: Id): (Id, Message) -> int
  {
    (id: Id, m: Message) => if m.customer == c && !Refunded(m.status) then m.cost else 0
  }

  // ---------------------------------------------------------------------------
  // Refunds

  datatype Refund = Refund(customer: Id, message: Id, amount: int)

  function AddToBalance(customers: map<Id, Customer>, c: Id, amount: int, now: Time): map<Id, Customer>
  {
    if c in customers then customers[c := Customer(customers[c].balance + amount, now)] else customers
  }

  /** One refund, on its own: a transaction and the credit, unless the message has its refund already. */
  function RefundOne(db: Db, now: Time, r: Refund): Db
  {
    if RefundOf(r.message) in db.txs then db
    else db.(txs := db.txs[RefundOf(r.message) := Tx(r.customer, r.amount, now)],
             customers := AddToBalance(db.customers, r.customer, r.amount, now))
  }

  function Refunding(now: Time): (Db, Refund) -> Db { (db, r) => RefundOne(db, now, r) }

  function RefundAll(db: Db, now: Time, rs: seq<Refund>): Db { Fold(Refunding(now), db, rs) }

  /** No refund row would break a foreign key. */
  ghost predicate RefundsLinked(db: Db, rs: seq<Refund>)
  {
    forall r | r in rs :: r.message in db.messages && r.customer in db.customers
  }

  lemma RefundAllNext(db: Db, now: Time, rs: seq<Refund>, k: nat)
    requires k < |rs|
    ensures RefundAll(db, now, rs[..k + 1]) == RefundOne(RefundAll(db, now, rs[..k]), now, rs[k])
  {
    FoldSnoc(Refunding(now), db, rs, k);
  }

  /** Refunds read and write only the ledger. */
  lemma {:induction false} RefundAllFrame(db: Db, now: Time, rs: seq<Refund>)
    ensures RefundAll(db, now, rs).messages == db.messages && RefundAll(db, now, rs).queue == db.queue
    ensures RefundAll(db, now, rs).customers.Keys == db.customers.Keys
  {
    if rs != [] {
      RefundAllFrame(db, now, rs[..|rs| - 1]);
    }
  }

  lemma {:induction false} RefundAllOnTables(db: Db, db': Db, now: Time, rs: seq<Refund>)
    requires db'.txs == db.txs && db'.customers == db.customers
    ensures RefundAll(db', now, rs) == RefundAll(db, now, rs).(messages := db'.messages, queue := db'.queue)
  {
    if rs != [] {
      RefundAllOnTables(db, db', now, rs[..|rs| - 1]);
    }
  }

  /** The balances after some refunds, given each customer's total. */
  ghost predicate Credited(before: map<Id, Customer>, after: map<Id, Customer>, totals: map<Id, int>, now: Time)
  {
    && totals.Keys <= before.Keys
    && after.Keys == before.Keys
    && forall c | c in before :: after[c] ==
         if c in totals then Customer(before[c].balance + totals[c], now) else before[c]
  }

  /**
   Records the refunds in one statement, adds up what each customer gets back,
   and credits each customer once, in ascending order. The result is the same
   as refunding the messages one at a time.
   */
  method ApplyRefunds(tx: Session, refunds: seq<Refund>)
    requires RefundsLinked(tx.db, refunds)
    modifies tx
    ensures tx.db == RefundAll(old(tx.db), tx.now, refunds)
  {
    ghost var db0 := tx.db;
    var totals: map<Id, int> := map[];
    for i := 0 to |refunds|
      invariant tx.db == db0.(txs := RefundAll(db0, tx.now, refunds[..i]).txs)
      invariant RefundAll(db0, tx.now, refunds[..i]).(txs := db0.txs, customers := db0.customers) == db0
      invariant Credited(db0.customers, RefundAll(db0, tx.now, refunds[..i]).customers, totals, tx.now)
    {
      RefundAllNext(db0, tx.now, refunds, i);
      var r := refunds[i];
      if RefundOf(r.message) !in tx.db.txs {
        tx.db := tx.db.(txs := tx.db.txs[RefundOf(r.message) := Tx(r.customer, r.amount, tx.now)]);
        totals := totals[r.customer := (if r.customer in totals then totals[r.customer] else 0) + r.amount];
      }
    }
    assert refunds[..|refunds|] == refunds;
    var order := Sorting.SortedIds(totals.Keys);
    CreditInOrder(tx, totals, order);
    assert tx.db.customers == RefundAll(db0, tx.now, refunds).customers;
  }

  method CreditInOrder(tx: Session, totals: map<Id, int>, order: seq<Id>)
    requires totals.Keys <= tx.db.customers.Keys
    requires forall c :: c in order <==> c in totals
    requires forall i, j | 0 <= i < j < |order| :: order[i] != order[j]
    modifies tx
    ensures tx.db == old(tx.db).(customers := tx.db.customers)
    ensures Credited(old(tx.db).customers, tx.db.customers, totals, tx.now)
  {
    ghost var before := tx.db.customers;
    for i := 0 to |order|
      invariant tx.db == old(tx.db).(customers := tx.db.customers)
      invariant tx.db.customers.Keys == before.Keys
      invariant forall c | c in before :: tx.db.customers[c] ==
                  if c in order[..i] then Customer(before[c].balance + totals[c], tx.now) else before[c]
    {
      assert order[i] !in order[..i];
      tx.db := tx.db.(customers := AddToBalance(tx.db.customers, order[i], totals[order[i]], tx.now));
    }
    assert order[..|order|] == order;
  }

  // ---------------------------------------------------------------------------
  // Debits

  /** Takes `amount` from the balance if the balance covers it. */
  method DebitBalance(tx: Session, c: Id, amount: int) returns (balance: Option<int>)
    modifies tx
    ensures balance.Some? <==> c in old(tx.db).customers && old(tx.db).customers[c].balance >= amount
    ensures balance.None? ==> tx.db == old(tx.db)
    ensures balance.Some? ==>
              && tx.db == old(tx.db).(customers := AddToBalance(old(tx.db).customers, c, -amount, tx.now))
              && balance.value == tx.db.customers[c].balance
  {
    if c in tx.db.customers && tx.db.customers[c].balance >= amount {
      tx.db := tx.db.(customers := tx.db.customers[c := Customer(tx.db.customers[c].balance - amount, tx.now)]);
      return Some(tx.db.customers[c].balance);
    }
    return None;
  }

  // ---------------------------------------------------------------------------
  // Charges

  datatype ChargeResult =
    | Charged(balance: int)
    | Replayed(original: Tx, balance: int)
    | ChargeConflict
    | CustomerNotFound
    | AmountRejected      // transactions_amount_sign_check

  /** Adds credits once per customer and client_ref. */
  method Charge(tx: Session, c: Id, amount: int, ref: string) returns (r: ChargeResult)
    requires ForeignKeys(tx.db)
    modifies tx
    ensures (r, tx.db) == ChargeOnce(old(tx.db), tx.now, c, amount, ref)
  {
    if amount <= 0 {
      return AmountRejected;
    }
    var key := ChargeOf(c, ref);
    if key in tx.db.txs {
      r := ReplayCharge(tx, c, amount, ref);
      return;
    }
    if c !in tx.db.customers {
      return CustomerNotFound;
    }
    tx.db := tx.db.(txs := tx.db.txs[key := Tx(c, amount, tx.now)]);
    tx.db := tx.db.(customers := AddToBalance(tx.db.customers, c, amount, tx.now));
    return Charged(tx.db.customers[c].balance);
  }

  method ReplayCharge(tx: Session, c: Id, amount: int, ref: string) returns (r: ChargeResult)
    requires ChargeOf(c, ref) in tx.db.txs
    ensures r == if tx.db.txs[ChargeOf(c, ref)].amount != amount then ChargeConflict
                 else if c !in tx.db.customers then CustomerNotFound
                 else Replayed(tx.db.txs[ChargeOf(c, ref)], tx.db.customers[c].balance)
  {
    var original := tx.db.txs[ChargeOf(c, ref)];
    if original.amount != amount {
      return ChargeConflict;
    }
    if c !in tx.db.customers {
      return CustomerNotFound;
    }
    return Replayed(original, tx.db.customers[c].balance);
  }

  /** The result of a charge and the tables after it. */
  function ChargeOnce(db: Db, now: Time, c: Id, amount: int, ref: string): (ChargeResult, Db)
  {
    var key := ChargeOf(c, ref);
    if amount <= 0 then (AmountRejected, db)
    else if key in db.txs then
      (if db.txs[key].amount != amount then ChargeConflict
       else if c !in db.customers then CustomerNotFound
       else Replayed(db.txs[key], db.customers[c].balance), db)
    else if c !in db.customers then (CustomerNotFound, db)
    else
      var balance := db.customers[c].balance + amount;
      (Charged(balance),
       db.(txs := db.txs[key := Tx(c, amount, now)], customers := db.customers[c := Customer(balance, now)]))
  }

  /** The original charge decides every repetition: the same amount replays it, another conflicts,
      and neither moves a credit. */
  lemma ChargeAgain(db: Db, now: Time, c: Id, amount: int, ref: string, later: Time, again: int)
    requires ChargeOnce(db, now, c, amount, ref).0.Charged?
    ensures var after := ChargeOnce(db, now, c, amount, ref).1;
            var repeat := ChargeOnce(after, later, c, again, ref);
            && after.customers[c].balance == db.customers[c].balance + amount
            && repeat.1 == after
            && (again == amount ==> repeat.0 == Replayed(Tx(c, amount, now), after.customers[c].balance))
            && (0 < again != amount ==> repeat.0 == ChargeConflict)
  {
  }
}
