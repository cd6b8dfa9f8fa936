/** What committing one dispatch outcome does, and why the order of a batch does not matter. */
module Completion {
  import opened Tables
  import opened Folds
  import opened Billing

  /** The lease fence: the outcome's claim is still the current one. */
  predicate Owned(db: Db, w: WorkerId, o: Outcome)
  {
    && o.job.id in db.queue
    && db.queue[o.job.id].owner == Some(w)
    && db.queue[o.job.id].version == o.job.version
  }

  predicate EndsMessage(o: Outcome) { o.kind.OutcomeFailed? || o.kind.OutcomeExpired? }

  /** The outcome's UPDATE matches the message's row. */
  predicate Applies(messages: map<Id, Message>, o: Outcome)
  {
    && o.job.id in messages
    && var m := messages[o.job.id];
       match o.kind
       case OutcomeSent => !Refunded(m.status) && m.sentAt.None?
       case OutcomeDeferred => false
       case _ => m.status.Accepted?
  }

  function Counted(m: Message, snapshot: int): int { m.attempts + if m.attempts == snapshot then 1 else 0 }

  function SentMessage(m: Message, now: Time, slaMs: int, o: Outcome): Message
  {
    var first := m.status.Accepted?;
    m.(status := if first then Sent else m.status,
       sentAt := Coalesce(m.sentAt, Some(now)),
       provider := if first then Some(o.provider) else m.provider,
       providerRef := if first then Some(o.providerRef) else m.providerRef,
       attempts := Counted(m, o.job.attempts),
       slaBreached := m.slaBreached || (m.service.Express? && now - m.acceptedAt > slaMs * MILLISECOND),
       updatedAt := now)
  }

  function RetriedMessage(m: Message, now: Time, o: Outcome): Message
  {
    m.(attempts := Counted(m, o.job.attempts), provider := Some(o.provider), lastError := Some(o.err), updatedAt := now)
  }

  function EndedMessage(m: Message, now: Time, o: Outcome): Message
  {
    m.(status := if o.kind.OutcomeExpired? then Expired else Failed,
       reason := o.reason,
       completedAt := Some(now),
       attempts := m.attempts + (if o.attempted then 1 else 0),
       provider := Coalesce(NullString(o.provider), m.provider),
       lastError := Coalesce(NullString(o.err), m.lastError),
       slaBreached := m.slaBreached || m.service.Express?,
       updatedAt := now)
  }

  function CompletedMessage(m: Message, now: Time, slaMs: int, o: Outcome): Message
  {
    match o.kind
    case OutcomeSent => SentMessage(m, now, slaMs, o)
    case OutcomeRetry => RetriedMessage(m, now, o)
    case OutcomeDeferred => m
    case _ => EndedMessage(m, now, o)
  }

  /** However often an outcome is committed, its attempt is counted once. */
  lemma CountedOnce(m: Message, now: Time, later: Time, slaMs: int, o: Outcome)
    requires o.kind.OutcomeSent? || o.kind.OutcomeRetry?
    ensures var m' := CompletedMessage(m, now, slaMs, o);
            && m'.attempts == (if m.attempts == o.job.attempts then m.attempts + 1 else m.attempts)
            && CompletedMessage(m', later, slaMs, o).attempts == m'.attempts
  {
  }

  function MessagesOne(messages: map<Id, Message>, now: Time, slaMs: int, o: Outcome): map<Id, Message>
  {
    if Applies(messages, o) then messages[o.job.id := CompletedMessage(messages[o.job.id], now, slaMs, o)]
    else messages
  }

  /** A retry of a pending message and a deferral keep the queue row and give up its lease. */
  function QueueOne(queue: map<Id, QueueRow>, now: Time, o: Outcome, applies: bool): map<Id, QueueRow>
  {
    if o.job.id in queue && (o.kind.OutcomeDeferred? || (o.kind.OutcomeRetry? && applies)) then
      queue[o.job.id := queue[o.job.id].(owner := None, nextAttemptAt := now + o.delayMs * MILLISECOND)]
    else queue - {o.job.id}
  }

  function RefundFor(messages: map<Id, Message>, o: Outcome): seq<Refund>
  {
    if EndsMessage(o) && Applies(messages, o)
    then [Refund(messages[o.job.id].customer, o.job.id, messages[o.job.id].cost)]
    else []
  }

  /** One outcome committed on its own. */
  function CompleteOne(db: Db, now: Time, slaMs: int, w: WorkerId, o: Outcome): Db
  {
    if !Owned(db, w, o) then db
    else
      RefundAll(db, now, RefundFor(db.messages, o)).(
        messages := MessagesOne(db.messages, now, slaMs, o),
        queue := QueueOne(db.queue, now, o, Applies(db.messages, o)))
  }

  function Completing(now: Time, slaMs: int, w: WorkerId): (Db, Outcome) -> Db
  {
    (db: Db, o: Outcome) => CompleteOne(db, now, slaMs, w, o)
  }

  /** Outcomes committed one at a time, in order. */
  function CompleteAll(db: Db, now: Time, slaMs: int, w: WorkerId, os: seq<Outcome>): Db
  {
    Fold(Completing(now, slaMs, w), db, os)
  }

  /** At most one outcome per claimed job. */
  predicate DistinctJobs(os: seq<Outcome>) { DistinctBy(JobOf, os) }

  function JobOf(o: Outcome): JobKey { KeyOf(o.job) }

  // ---------------------------------------------------------------------------
  // Order does not matter

  lemma RefundForCases(db: Db, now: Time, o: Outcome)
    ensures RefundAll(db, now, RefundFor(db.messages, o)) ==
            if EndsMessage(o) && Applies(db.messages, o)
            then RefundOne(db, now, Refund(db.messages[o.job.id].customer, o.job.id, db.messages[o.job.id].cost))
            else db
  {
    if EndsMessage(o) && Applies(db.messages, o) {
      FoldOne(Refunding(now), db, RefundFor(db.messages, o)[0]);
    }
  }

  /** An outcome for another message sees the same rows before and after. */
  lemma CompleteOneFrame(db: Db, now: Time, slaMs: int, w: WorkerId, o: Outcome)
    ensures var after := CompleteOne(db, now, slaMs, w, o);
            && (forall id | id != o.job.id :: Lookup(after.messages, id) == Lookup(db.messages, id))
            && (forall id | id != o.job.id :: Lookup(after.queue, id) == Lookup(db.queue, id))
            && (forall k | k != RefundOf(o.job.id) :: Lookup(after.txs, k) == Lookup(db.txs, k))
            && after.customers.Keys == db.customers.Keys
  {
    RefundForCases(db, now, o);
  }

  lemma MessagesCommute(ms: map<Id, Message>, now: Time, slaMs: int, a: Outcome, b: Outcome)
    requires a.job.id != b.job.id
    ensures Applies(MessagesOne(ms, now, slaMs, a), b) == Applies(ms, b)
    ensures MessagesOne(MessagesOne(ms, now, slaMs, a), now, slaMs, b) ==
            MessagesOne(MessagesOne(ms, now, slaMs, b), now, slaMs, a)
  {
  }

  lemma QueueCommutes(q: map<Id, QueueRow>, now: Time, a: Outcome, b: Outcome, ap: bool, bp: bool)
    requires a.job.id != b.job.id
    ensures QueueOne(QueueOne(q, now, a, ap), now, b, bp) == QueueOne(QueueOne(q, now, b, bp), now, a, ap)
  {
  }

  lemma BalancesCommute(cs: map<Id, Customer>, now: Time, a: Id, x: int, b: Id, y: int)
    ensures AddToBalance(AddToBalance(cs, a, x, now), b, y, now) == AddToBalance(AddToBalance(cs, b, y, now), a, x, now)
  {
    if a in cs && b in cs && a != b {
      assert cs[a := Customer(cs[a].balance + x, now)][b := Customer(cs[b].balance + y, now)] ==
             cs[b := Customer(cs[b].balance + y, now)][a := Customer(cs[a].balance + x, now)];
    }
  }

  /** Refunds of different messages may be applied in either order. */
  lemma RefundsCommute(db: Db, now: Time, a: Refund, b: Refund)
    requires a.message != b.message
    ensures RefundOne(RefundOne(db, now, a), now, b) == RefundOne(RefundOne(db, now, b), now, a)
  {
    if RefundOf(a.message) !in db.txs && RefundOf(b.message) !in db.txs {
      BalancesCommute(db.customers, now, a.customer, a.amount, b.customer, b.amount);
      var ta, tb := Tx(a.customer, a.amount, now), Tx(b.customer, b.amount, now);
      assert db.txs[RefundOf(a.message) := ta][RefundOf(b.message) := tb] ==
             db.txs[RefundOf(b.message) := tb][RefundOf(a.message) := ta];
    }
  }

  /** The ledger after the refund of an outcome, whatever the other tables hold. */
  function LedgerOne(db: Db, now: Time, messages: map<Id, Message>, o: Outcome): Db
  {
    if EndsMessage(o) && Applies(messages, o)
    then RefundOne(db, now, Refund(messages[o.job.id].customer, o.job.id, messages[o.job.id].cost))
    else db
  }

  lemma CompleteOneParts(db: Db, now: Time, slaMs: int, w: WorkerId, o: Outcome)
    requires Owned(db, w, o)
    ensures CompleteOne(db, now, slaMs, w, o) ==
            LedgerOne(db, now, db.messages, o).(messages := MessagesOne(db.messages, now, slaMs, o),
                                                queue := QueueOne(db.queue, now, o, Applies(db.messages, o)))
  {
    RefundForCases(db, now, o);
  }

  /** Two owned outcomes for different messages, part by part. */
  lemma CompleteTwo(db: Db, now: Time, slaMs: int, w: WorkerId, a: Outcome, b: Outcome)
    requires a.job.id != b.job.id && Owned(db, w, a) && Owned(db, w, b)
    ensures CompleteOne(CompleteOne(db, now, slaMs, w, a), now, slaMs, w, b) ==
            LedgerOne(LedgerOne(db, now, db.messages, a), now, db.messages, b).(
              messages := MessagesOne(MessagesOne(db.messages, now, slaMs, a), now, slaMs, b),
              queue := QueueOne(QueueOne(db.queue, now, a, Applies(db.messages, a)), now, b, Applies(db.messages, b)))
  {
    var mid := CompleteOne(db, now, slaMs, w, a);
    CompleteOneParts(db, now, slaMs, w, a);
    assert Owned(mid, w, b);
    CompleteOneParts(mid, now, slaMs, w, b);
    MessagesCommute(db.messages, now, slaMs, a, b);
  }

  lemma LedgerCommutes(db: Db, now: Time, a: Outcome, b: Outcome)
    requires a.job.id != b.job.id
    ensures LedgerOne(LedgerOne(db, now, db.messages, a), now, db.messages, b) ==
            LedgerOne(LedgerOne(db, now, db.messages, b), now, db.messages, a)
  {
    if EndsMessage(a) && Applies(db.messages, a) && EndsMessage(b) && Applies(db.messages, b) {
      RefundsCommute(db, now, Refund(db.messages[a.job.id].customer, a.job.id, db.messages[a.job.id].cost),
                     Refund(db.messages[b.job.id].customer, b.job.id, db.messages[b.job.id].cost));
    }
  }

  lemma CompleteOneKeepsFence(db: Db, now: Time, slaMs: int, w: WorkerId, a: Outcome, b: Outcome)
    requires KeyOf(a.job) != KeyOf(b.job)
    ensures Owned(CompleteOne(db, now, slaMs, w, a), w, b) == Owned(db, w, b)
  {
    CompleteOneFrame(db, now, slaMs, w, a);
    if Owned(db, w, a) {
      CompleteOneParts(db, now, slaMs, w, a);
    }
  }

  lemma CompleteOneCommutes(db: Db, now: Time, slaMs: int, w: WorkerId, a: Outcome, b: Outcome)
    requires KeyOf(a.job) != KeyOf(b.job)
    ensures CompleteOne(CompleteOne(db, now, slaMs, w, a), now, slaMs, w, b) ==
            CompleteOne(CompleteOne(db, now, slaMs, w, b), now, slaMs, w, a)
  {
    CompleteOneKeepsFence(db, now, slaMs, w, a, b);
    CompleteOneKeepsFence(db, now, slaMs, w, b, a);
    if Owned(db, w, a) && Owned(db, w, b) {
      CompleteTwo(db, now, slaMs, w, a, b);
      CompleteTwo(db, now, slaMs, w, b, a);
      LedgerCommutes(db, now, a, b);
      MessagesCommute(db.messages, now, slaMs, a, b);
      QueueCommutes(db.queue, now, a, b, Applies(db.messages, a), Applies(db.messages, b));
    }
  }

  lemma DistinctJobsCommute(now: Time, slaMs: int, w: WorkerId, os: seq<Outcome>)
    requires DistinctJobs(os)
    ensures Commuting(Completing(now, slaMs, w), os)
  {
    var f := Completing(now, slaMs, w);
    forall db: Db, a, b | a in os && b in os ensures f(f(db, a), b) == f(f(db, b), a) {
      if a != b {
        var i :| 0 <= i < |os| && os[i] == a;
        var j :| 0 <= j < |os| && os[j] == b;
        assert JobOf(os[i]) != JobOf(os[j]);
        CompleteOneCommutes(db, now, slaMs, w, a, b);
      }
    }
  }

  /** A batch commits to the same tables in every order. */
  lemma CompletionOrder(db: Db, now: Time, slaMs: int, w: WorkerId, os: seq<Outcome>, os': seq<Outcome>)
    requires DistinctJobs(os) && multiset(os) == multiset(os')
    ensures CompleteAll(db, now, slaMs, w, os) == CompleteAll(db, now, slaMs, w, os')
  {
    DistinctJobsCommute(now, slaMs, w, os);
    FoldPermutation(Completing(now, slaMs, w), db, os, os');
  }
}
