/**
 What the tables may say about one message, and how that may change. Everything
 here is about a single message, so the facts about all messages are these facts
 at every ID.
 */
module Cells {
  import opened Tables
  import opened Decisions

  /** The policies are fixed; everything else may differ from process to process. */
  datatype Config = Config(normal: Policy, express: Policy, slaMs: int)

  predicate ValidConfig(cfg: Config) { cfg.normal.maxAttempts >= 1 && cfg.express.maxAttempts >= 1 }

  function PolicyFor(cfg: Config, c: Class): Policy { if c.Express? then cfg.express else cfg.normal }

  function MaxAttempts(cfg: Config, c: Class): int { PolicyFor(cfg, c).maxAttempts }

  predicate Timestamps(m: Message)
  {
    && (m.status.Sent? ==> m.sentAt.Some?)
    && (Terminal(m.status) ==> m.completedAt.Some?)
    && (m.sentAt.Some? ==> m.acceptedAt <= m.sentAt.value)
    && (m.completedAt.Some? ==> m.acceptedAt <= m.completedAt.value)
  }

  predicate MessageOk(cfg: Config, now: Time, m: Message)
  {
    && m.cost > 0 && m.acceptedAt <= now && Timestamps(m)
    && 0 <= m.attempts <= MaxAttempts(cfg, m.service)
    && (m.status.Accepted? ==> m.sentAt.None? && m.completedAt.None? && m.attempts < MaxAttempts(cfg, m.service))
    && (m.status.Sent? || m.status.Delivered? || m.status.Undelivered? ==> m.provider.Some? && m.providerRef.Some?)
    && (Refunded(m.status) <==> m.reason.Some?)
    && (Refunded(m.status) ==> m.sentAt.None?)
    && (m.status.Expired? <==> m.reason == Some(TtlPassed))
    && (m.reason == Some(AttemptsExhausted) ==> m.attempts == MaxAttempts(cfg, m.service))
    && (m.slaBreached ==> m.service.Express?)
    && (Refunded(m.status) && m.service.Express? ==> m.slaBreached)
    && SlaOk(cfg, now, m)
  }

  /** An Express message sent beyond the SLA is flagged, and no unfinished or sent one is flagged before it. */
  predicate SlaOk(cfg: Config, now: Time, m: Message)
  {
    && (m.service.Express? && m.sentAt.Some? && m.sentAt.value - m.acceptedAt > cfg.slaMs * MILLISECOND ==> m.slaBreached)
    && (m.slaBreached && !Refunded(m.status) ==> now - m.acceptedAt > cfg.slaMs * MILLISECOND)
  }

  predicate RowOk(cfg: Config, m: Message, r: QueueRow)
  {
    && (m.status.Accepted? || m.status.Delivered? || m.status.Undelivered?)
    && m.sentAt.None? && m.attempts < MaxAttempts(cfg, m.service)
    && (r.lane.ExpressLane? <==> m.service.Express?)
    && r.version >= 0 && r.expiresAt == m.expiresAt
  }

  /** A message has its debit, its queue row while accepted, and its refund exactly when it failed or expired. */
  predicate CellOk(cfg: Config, now: Time, c: Cell)
  {
    match c.msg
    case None => c == Cell(None, None, None, None)
    case Some(m) =>
      && MessageOk(cfg, now, m)
      && (c.row.Some? ==> RowOk(cfg, m, c.row.value))
      && (m.status.Accepted? ==> c.row.Some?)
      && c.debit.Some? && c.debit.value.customer == m.customer && c.debit.value.amount == -m.cost
      && (c.refund.Some? <==> Refunded(m.status))
      && (c.refund.Some? ==> c.refund.value.customer == m.customer && c.refund.value.amount == m.cost)
  }

  // ---------------------------------------------------------------------------
  // Jobs

  /** The job's outcome gives its lease up: the message goes back to the queue. */
  predicate GivesUp(decided: Option<Outcome>)
  {
    decided.Some? && (decided.value.kind.OutcomeRetry? || decided.value.kind.OutcomeDeferred?)
  }

  /**
   A claim in the air, and the outcome its dispatch has decided on, if any. A row
   moves on to the next generation only when the lease was given up or has run out.
   */
  predicate JobOk(now: Time, decided: Option<Outcome>, c: Cell, j: Job)
  {
    && j.version >= 1 && j.dbNow <= now && j.pool == j.service
    && (c.msg.Some? ==> j.service == c.msg.value.service)
    && (c.row.Some? ==> j.version <= c.row.value.version)
    && (c.row.Some? && c.msg.Some? && c.row.value.version == j.version ==> CurrentLease(decided, c.msg.value, c.row.value, j))
    && (c.row.Some? && j.version < c.row.value.version ==> GivesUp(decided) || j.deadline <= now)
    && (decided.None? && j.deadline > now && c.msg.Some? ==> c.row.Some? && c.row.value.version == j.version)
  }

  /** The row still carries the job's generation: given up by its outcome, or held as the claim left it. */
  predicate CurrentLease(decided: Option<Outcome>, m: Message, r: QueueRow, j: Job)
  {
    if r.owner.None? then GivesUp(decided)
    else r.owner == Some(j.worker) && r.nextAttemptAt == j.deadline && m.attempts == j.attempts
  }

  // ---------------------------------------------------------------------------
  // How a message may change

  /** Nothing about a message's origin ever changes. */
  predicate SameOrigin(m: Message, m': Message)
  {
    && m'.customer == m.customer && m'.service == m.service && m'.recipient == m.recipient && m'.body == m.body
    && m'.encoding == m.encoding && m'.segments == m.segments && m'.cost == m.cost && m'.clientRef == m.clientRef
    && m'.acceptedAt == m.acceptedAt && m'.expiresAt == m.expiresAt
  }

  predicate MessageEvolves(m: Message, m': Message)
  {
    && SameOrigin(m, m')
    && (Terminal(m.status) ==> m'.status == m.status && m'.reason == m.reason && m'.completedAt == m.completedAt)
    && (m'.status.Accepted? ==> m.status.Accepted?)
    && (m.status.Sent? ==> !Refunded(m'.status))
    && (m.sentAt.Some? ==> m'.sentAt == m.sentAt)
    && m.attempts <= m'.attempts
    && (m.slaBreached ==> m'.slaBreached)
  }

  /** Generations only grow, only while the message is accepted, and a generation given up is never taken again. */
  predicate RowEvolves(m: Message, r: QueueRow, r': QueueRow)
  {
    && r.version <= r'.version
    && (r'.version == r.version ==> r'.owner == r.owner || r'.owner.None?)
    && (!m.status.Accepted? ==> r'.version == r.version)
  }

  /** A message or queue row that is gone never comes back. */
  predicate CellEvolves(c: Cell, c': Cell)
  {
    && (c'.msg.Some? ==> c.msg.Some?)
    && (c'.row.Some? ==> c.row.Some? && c.msg.Some?)
    && (c'.msg.Some? ==> MessageEvolves(c.msg.value, c'.msg.value))
    && (c'.row.Some? ==> RowEvolves(c.msg.value, c.row.value, c'.row.value))
  }

  lemma CellEvolvesTransitive(a: Cell, b: Cell, c: Cell)
    requires CellEvolves(a, b) && CellEvolves(b, c) && (c.row.Some? ==> c.msg.Some?)
    ensures CellEvolves(a, c)
  {
  }
}
