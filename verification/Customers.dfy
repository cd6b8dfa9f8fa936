/** Customers: creation with initial credits, and deletion with everything they own (internal/customer/customer.go). */
module Customers {
  import opened Tables
  import opened Billing

  /** Inserts the customer and, for positive initial credits, a charge. `ref` is newly drawn. */
  function AfterCreate(db: Db, now: Time, c: Id, credits: int, ref: string): Db
  {
    var created := db.(customers := db.customers[c := Customer(0, now)]);
    if credits > 0 then ChargeOnce(created, now, c, credits, ref).1 else created
  }

  method Create(tx: Session, c: Id, credits: int, ref: string) returns (balance: int)
    requires ForeignKeys(tx.db) && c !in tx.db.customers && ChargeOf(c, ref) !in tx.db.txs
    modifies tx
    ensures tx.db == AfterCreate(old(tx.db), tx.now, c, credits, ref)
    ensures c in tx.db.customers && balance == tx.db.customers[c].balance == if credits > 0 then credits else 0
  {
    tx.db := tx.db.(customers := tx.db.customers[c := Customer(0, tx.now)]);
    balance := 0;
    if credits > 0 {
      var r := Charge(tx, c, credits, ref);
      balance := tx.db.customers[c].balance;
    }
  }

  function MessagesOfCustomer(db: Db, c: Id): set<Id> { set id | id in db.messages && db.messages[id].customer == c }

  function TxsOfCustomer(db: Db, c: Id): set<TxKey>
  {
    set k | k in db.txs && (db.txs[k].customer == c || (!k.ChargeOf? && k.message in MessagesOfCustomer(db, c)))
  }

  /** ON DELETE CASCADE: the customer, its messages, and every row that refers to either. */
  function AfterDelete(db: Db, c: Id): Db
  {
    Db(db.customers - {c}, db.messages - MessagesOfCustomer(db, c), db.txs - TxsOfCustomer(db, c),
       db.queue - MessagesOfCustomer(db, c))
  }

  /** The cascade leaves no dangling reference. */
  lemma DeleteKeepsForeignKeys(db: Db, c: Id)
    requires ForeignKeys(db)
    ensures ForeignKeys(AfterDelete(db, c))
  {
  }
}
