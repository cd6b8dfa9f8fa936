/**
 The database tables as values, with the jobs and outcomes that refer to them.

 A table is a map from its primary key. The transactions table is keyed by
 what its two unique indexes make unique: one debit and one refund per message,
 one charge per customer and client_ref.
 */
module Tables {

  datatype Option<+T> = None | Some(value: T)

  type Id = nat           // a UUID, as the 128-bit number its bytes spell
  type Time = int         // microseconds on the database clock
  type WorkerId = string

  const MILLISECOND: int := 1000

  datatype Class = Normal | Express

  datatype Status = Accepted | Sent | Delivered | Undelivered | Failed | Expired

  datatype FailureReason = Rejected | AttemptsExhausted | TtlPassed

  /** "express" or "normal-<index>". */
  datatype Lane = ExpressLane | NormalLane(index: nat)

  datatype Encoding = Gsm7 | Ucs2

  datatype Customer = Customer(balance: int, updatedAt: Time)

  datatype Message = Message(
    customer: Id,
    service: Class,
    recipient: string,
    body: string,
    encoding: Encoding,
    segments: int,
    cost: int,
    status: Status,
    attempts: int,
    provider: Option<string>,
    providerRef: Option<string>,
    lastError: Option<string>,
    reason: Option<FailureReason>,
    slaBreached: bool,
    clientRef: Option<string>,
    acceptedAt: Time,
    expiresAt: Time,
    sentAt: Option<Time>,
    completedAt: Option<Time>,
    updatedAt: Time)

  datatype QueueRow = QueueRow(
    lane: Lane,
    nextAttemptAt: Time,
    owner: Option<WorkerId>,
    version: int,
    expiresAt: Time)

  datatype TxKey =
    | ChargeOf(customer: Id, ref: string)
    | DebitOf(message: Id)
    | RefundOf(message: Id)

  datatype Tx = Tx(customer: Id, amount: int, createdAt: Time)

  datatype Db = Db(
    customers: map<Id, Customer>,
    messages: map<Id, Message>,
    txs: map<TxKey, Tx>,
    queue: map<Id, QueueRow>)

  const EMPTY_DB := Db(map[], map[], map[], map[])

  // ---------------------------------------------------------------------------
  // Claimed jobs and the outcomes of dispatching them

  /** A claimed message. `pool` is the class of the pool that claimed it and
      `deadline` is the end of its lease. */
  datatype Job = Job(
    id: Id,
    worker: WorkerId,
    pool: Class,
    service: Class,
    attempts: int,
    acceptedAt: Time,
    expiresAt: Time,
    version: int,
    dbNow: Time,
    deadline: Time)

  datatype JobKey = JobKey(id: Id, version: int)

  function KeyOf(j: Job): JobKey { JobKey(j.id, j.version) }

  datatype OutcomeKind = OutcomeSent | OutcomeRetry | OutcomeDeferred | OutcomeFailed | OutcomeExpired

  /** `provider` and `err` are empty when there is none, as in the source. */
  datatype Outcome = Outcome(
    kind: OutcomeKind,
    job: Job,
    provider: string,
    providerRef: string,
    err: string,
    delayMs: int,
    reason: Option<FailureReason>,
    attempted: bool)

  predicate Terminal(s: Status) { s.Delivered? || s.Undelivered? || s.Failed? || s.Expired? }

  /** The statuses that give the cost back. */
  predicate Refunded(s: Status) { s.Failed? || s.Expired? }

  function NullString(s: string): Option<string> { if s == "" then None else Some(s) }

  function Coalesce<T>(a: Option<T>, b: Option<T>): Option<T> { if a.Some? then a else b }

  // ---------------------------------------------------------------------------
  // Everything the tables hold about one message

  datatype Cell = Cell(
    msg: Option<Message>,
    row: Option<QueueRow>,
    debit: Option<Tx>,
    refund: Option<Tx>)

  function Lookup<K, V>(m: map<K, V>, k: K): Option<V> { if k in m then Some(m[k]) else None }

  function CellOf(db: Db, id: Id): Cell
  {
    Cell(Lookup(db.messages, id), Lookup(db.queue, id),
         Lookup(db.txs, DebitOf(id)), Lookup(db.txs, RefundOf(id)))
  }

  /** Tables are equal when every lookup is. */
  lemma SameLookups<K, V>(a: map<K, V>, b: map<K, V>)
    requires forall k :: Lookup(a, k) == Lookup(b, k)
    ensures a == b
  {
    forall k ensures k in a <==> k in b {
      assert Lookup(a, k) == Lookup(b, k);
    }
    forall k | k in a ensures a[k] == b[k] {
      assert Lookup(a, k) == Lookup(b, k);
    }
  }

  /** The schema's foreign keys. */
  ghost predicate ForeignKeys(db: Db)
  {
    && (forall id | id in db.messages :: db.messages[id].customer in db.customers)
    && (forall id | id in db.queue :: id in db.messages)
    && (forall k | k in db.txs :: db.txs[k].customer in db.customers && (!k.ChargeOf? ==> k.message in db.messages))
  }
}
