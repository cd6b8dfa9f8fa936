/** The guarantees of the gateway, over every run. */
module Theorems {
  import opened Tables
  import opened Billing
  import opened Cells
  import opened Gateway
  import opened Runs
  import opened InvarianceOfAccounts
  import Sums

  // ---------------------------------------------------------------------------
  // The repository's own consistency checks (internal/invariant/invariant.go)

  ghost predicate BalanceMatchesTransactions(db: Db)
  {
    forall c | c in db.customers :: db.customers[c].balance == Sums.Total(db.txs, CreditTo(c))
  }

  ghost predicate OneDebitPerMessage(db: Db)
  {
    forall id | id in db.messages :: DebitOf(id) in db.txs && db.txs[DebitOf(id)].amount == -db.messages[id].cost
  }

  ghost predicate RefundIffFailedOrExpired(db: Db)
  {
    forall id | id in db.messages ::
      && (Refunded(db.messages[id].status) <==> RefundOf(id) in db.txs)
      && (RefundOf(id) in db.txs ==> db.txs[RefundOf(id)].amount == db.messages[id].cost)
  }

  ghost predicate AcceptedMessagesAreQueued(db: Db)
  {
    forall id | id in db.messages && db.messages[id].status.Accepted? :: id in db.queue
  }

  ghost predicate TimestampsConsistent(db: Db)
  {
    forall id | id in db.messages ::
      var m := db.messages[id];
      && !(m.status.Sent? && m.sentAt.None?)
      && !((m.status.Delivered? || m.status.Undelivered? || m.status.Failed? || m.status.Expired?) && m.completedAt.None?)
      && !(m.sentAt.Some? && m.sentAt.value < m.acceptedAt)
      && !(m.completedAt.Some? && m.completedAt.value < m.acceptedAt)
  }

  /** Every check passes after every run, whatever the interleaving. */
  lemma AlwaysConsistent(cfg: Config, start: Time, es: seq<Event>)
    requires ValidConfig(cfg)
    ensures var db := Run(cfg, Init(start), es).db;
            && BalanceMatchesTransactions(db) && OneDebitPerMessage(db) && RefundIffFailedOrExpired(db)
            && AcceptedMessagesAreQueued(db) && TimestampsConsistent(db) && ForeignKeys(db)
  {
    var s := Run(cfg, Init(start), es);
    Always(cfg, start, es);
    ForeignKeysHold(cfg, s);
    forall id: Id ensures CellOk(cfg, s.now, CellOf(s.db, id)) {
    }
    CellsPassChecks(cfg, s);
  }

  lemma CellsPassChecks(cfg: Config, s: Sys)
    requires CellsOk(cfg, s)
    ensures OneDebitPerMessage(s.db) && RefundIffFailedOrExpired(s.db)
    ensures AcceptedMessagesAreQueued(s.db) && TimestampsConsistent(s.db)
  {
    forall id | id in s.db.messages ensures CellOf(s.db, id).msg.Some? && CellOk(cfg, s.now, CellOf(s.db, id)) {
    }
  }

  // ---------------------------------------------------------------------------
  // Credits

  /** The rows of the ledger that belong to messages. */
  ghost predicate LedgerOf(txs: map<TxKey, Tx>, ms: map<Id, Message>)
  {
    && (forall id | id in ms :: DebitOf(id) in txs && txs[DebitOf(id)].customer == ms[id].customer
                                && txs[DebitOf(id)].amount == -ms[id].cost)
    && (forall id | id in ms :: RefundOf(id) in txs <==> Refunded(ms[id].status))
    && (forall id | id in ms && RefundOf(id) in txs ::
          txs[RefundOf(id)].customer == ms[id].customer && txs[RefundOf(id)].amount == ms[id].cost)
    && (forall k | k in txs && !k.ChargeOf? :: k.message in ms)
  }

  lemma {:induction false} CreditsExplained(txs: map<TxKey, Tx>, ms: map<Id, Message>, c: Id)
    requires LedgerOf(txs, ms)
    ensures Sums.Total(txs, CreditTo(c)) == Sums.Total(txs, ChargeTo(c)) - Sums.Total(ms, LiveCost(c))
    decreases |ms|
  {
    if id :| id in ms {
      var rest := txs - {DebitOf(id), RefundOf(id)};
      LedgerWithout(txs, ms, id);
      CreditsExplained(rest, ms - {id}, c);
      Sums.TotalSplit(ms, LiveCost(c), id);
      TakeOut(txs, CreditTo(c), id);
      TakeOut(txs, ChargeTo(c), id);
    } else {
      assert ms == map[];
      Sums.TotalAgrees(txs, CreditTo(c), ChargeTo(c));
    }
  }

  lemma LedgerWithout(txs: map<TxKey, Tx>, ms: map<Id, Message>, id: Id)
    requires LedgerOf(txs, ms) && id in ms
    ensures LedgerOf(txs - {DebitOf(id), RefundOf(id)}, ms - {id})
  {
  }

  /** Taking a message's debit and refund out of a total. */
  lemma TakeOut(txs: map<TxKey, Tx>, weight: (TxKey, Tx) -> int, id: Id)
    requires DebitOf(id) in txs
    ensures Sums.Total(txs, weight) ==
            Sums.Total(txs - {DebitOf(id), RefundOf(id)}, weight) + weight(DebitOf(id), txs[DebitOf(id)])
            + if RefundOf(id) in txs then weight(RefundOf(id), txs[RefundOf(id)]) else 0
  {
    Sums.TotalSplit(txs, weight, DebitOf(id));
    var mid := txs - {DebitOf(id)};
    if RefundOf(id) in txs {
      Sums.TotalSplit(mid, weight, RefundOf(id));
      assert mid - {RefundOf(id)} == txs - {DebitOf(id), RefundOf(id)};
    } else {
      assert mid == txs - {DebitOf(id), RefundOf(id)};
    }
  }

  /**
   Conservation: after every run each balance is what was charged minus the
   costs of the customer's messages that neither failed nor expired, and it is
   never negative.
   */
  lemma Conservation(cfg: Config, start: Time, es: seq<Event>, c: Id)
    requires ValidConfig(cfg) && c in Run(cfg, Init(start), es).db.customers
    ensures var db := Run(cfg, Init(start), es).db;
            && db.customers[c].balance == Sums.Total(db.txs, ChargeTo(c)) - Sums.Total(db.messages, LiveCost(c))
            && db.customers[c].balance >= 0
  {
    var s := Run(cfg, Init(start), es);
    Always(cfg, start, es);
    LedgerMatches(cfg, s);
    CreditsExplained(s.db.txs, s.db.messages, c);
  }

  lemma LedgerMatches(cfg: Config, s: Sys)
    requires CellsOk(cfg, s)
    ensures LedgerOf(s.db.txs, s.db.messages)
  {
    forall id | id in s.db.messages ensures CellOf(s.db, id).msg.Some? && CellOk(cfg, s.now, CellOf(s.db, id)) {
    }
    forall k | k in s.db.txs && !k.ChargeOf? ensures k.message in s.db.messages {
      assert CellOk(cfg, s.now, CellOf(s.db, k.message));
    }
  }
}
