/** Lease fencing over whole runs. */
module Leases {
  import opened Tables
  import opened Folds
  import opened Cells
  import opened Gateway
  import opened Runs
  import opened Invariance
  import Claims
  import opened Completion

  /** The lease has not run out, and its outcome, if there is one, does not give it up. */
  ghost predicate Live(s: Sys, k: JobKey) { k in s.jobs && s.jobs[k].deadline > s.now && !GivesUp(Lookup(s.outcomes, k)) }

  /** At no time do two live leases exist for one message, whoever holds them. */
  lemma OneLiveLease(cfg: Config, start: Time, es: seq<Event>, a: JobKey, b: JobKey)
    requires ValidConfig(cfg) && a.id == b.id
    requires Live(Run(cfg, Init(start), es), a) && Live(Run(cfg, Init(start), es), b)
    ensures a == b
  {
    var s := Run(cfg, Init(start), es);
    Always(cfg, start, es);
    assert s.jobs[a].dbNow <= s.now && s.jobs[b].dbNow <= s.now;
  }

  /** A message was claimed again before its lease ended only if that lease's outcome is a retry or a deferral. */
  lemma EarlyClaimMeansGivenUp(cfg: Config, start: Time, es: seq<Event>, a: JobKey, b: JobKey)
    requires ValidConfig(cfg) && a.id == b.id && a.version < b.version
    requires var s := Run(cfg, Init(start), es); a in s.jobs && b in s.jobs && s.jobs[b].dbNow < s.jobs[a].deadline
    ensures var s := Run(cfg, Init(start), es);
            a in s.outcomes && (s.outcomes[a].kind.OutcomeRetry? || s.outcomes[a].kind.OutcomeDeferred?)
  {
    Always(cfg, start, es);
  }

  /**
   A claimed row can be claimed again only after its lease ended, decided or not,
   or after a commit released it: the row then has no owner, and its outcome is a
   retry or a deferral.
   */
  lemma ClaimableIsReleasedOrExpired(cfg: Config, start: Time, es: seq<Event>, lane: Lane, k: JobKey)
    requires ValidConfig(cfg)
    requires var s := Run(cfg, Init(start), es);
             Claims.Claimable(s.db, s.now, lane, k.id) && k in s.jobs && s.db.queue[k.id].version == k.version
    ensures var s := Run(cfg, Init(start), es);
            if s.db.queue[k.id].owner.None? then GivesUp(Lookup(s.outcomes, k)) else s.jobs[k].deadline <= s.now
  {
    var s := Run(cfg, Init(start), es);
    Always(cfg, start, es);
    assert JobOk(s.now, Lookup(s.outcomes, k), CellOf(s.db, k.id), s.jobs[k]);
  }

  /** Every later claim of a message has a higher generation than every earlier one. */
  lemma GenerationsGrow(cfg: Config, start: Time, before: seq<Event>, after: seq<Event>, a: JobKey, b: JobKey)
    requires ValidConfig(cfg) && a.id == b.id
    requires var s := Run(cfg, Init(start), before);
             a in s.jobs && b !in s.jobs && b in Run(cfg, s, after).jobs
    ensures a.version < b.version
  {
    var s := Run(cfg, Init(start), before);
    Always(cfg, start, before);
    RunKeeps(cfg, s, after);
    assert ClaimableFrom(CellOf(s.db, b.id), b.version);
    assert JobOk(s.now, Lookup(s.outcomes, a), CellOf(s.db, a.id), s.jobs[a]);
  }

  /** An outcome whose message was claimed again changes nothing, also when the same worker claimed it. */
  lemma ReclaimedLeaseRejectsLateOutcome(cfg: Config, start: Time, es: seq<Event>, w: WorkerId, o: Outcome, again: JobKey)
    requires ValidConfig(cfg)
    requires again in Run(cfg, Init(start), es).jobs && again.id == o.job.id && again.version > o.job.version
    ensures Next(cfg, Run(cfg, Init(start), es), Commit(w, [o])) == Run(cfg, Init(start), es)
  {
    var s := Run(cfg, Init(start), es);
    Always(cfg, start, es);
    assert JobOk(s.now, Lookup(s.outcomes, again), CellOf(s.db, again.id), s.jobs[again]);
    FoldOne(CompleteRow(cfg, w), s, o);
  }

  /** An owned outcome's snapshot is the stored attempt count, taken by the pool of the message's class. */
  lemma OwnedSnapshotIsCurrent(cfg: Config, start: Time, es: seq<Event>, w: WorkerId, o: Outcome)
    requires ValidConfig(cfg)
    requires var s := Run(cfg, Init(start), es); InAir(s, w, o) && Owned(s.db, w, o)
    ensures var s := Run(cfg, Init(start), es);
            && o.job.id in s.db.messages && s.db.messages[o.job.id].attempts == o.job.attempts
            && s.db.messages[o.job.id].service == o.job.pool
  {
    var s := Run(cfg, Init(start), es);
    Always(cfg, start, es);
    assert CellOk(cfg, s.now, CellOf(s.db, o.job.id));
    assert JobOk(s.now, Some(o), CellOf(s.db, o.job.id), s.jobs[KeyOf(o.job)]);
  }

  // ---------------------------------------------------------------------------
  // Each generation is applied at most once

  /** No outcome of this generation can pass the fence any more. */
  predicate Spent(c: Cell, version: int)
  {
    c.row.Some? ==> c.row.value.version > version || (c.row.value.version == version && c.row.value.owner.None?)
  }

  lemma SpentStays(s: Sys, t: Sys, k: JobKey)
    requires Evolves(s, t) && k.id in s.issued && Spent(CellOf(s.db, k.id), k.version)
    ensures Spent(CellOf(t.db, k.id), k.version)
  {
    assert CellEvolves(CellOf(s.db, k.id), CellOf(t.db, k.id));
  }

  lemma SpentMeansFenced(db: Db, k: JobKey, w: WorkerId, o: Outcome)
    requires Spent(CellOf(db, k.id), k.version) && KeyOf(o.job) == k
    ensures !Owned(db, w, o)
  {
    assert CellOf(db, k.id).row == Lookup(db.queue, k.id);
  }

  lemma OwnedThenSpent(db: Db, now: Time, slaMs: int, w: WorkerId, o: Outcome)
    requires Owned(db, w, o)
    ensures Spent(CellOf(CompleteOne(db, now, slaMs, w, o), o.job.id), o.job.version)
  {
    CompleteOneParts(db, now, slaMs, w, o);
  }

  /** Committing an outcome spends its generation, whether or not it still passes the fence. */
  lemma CommitSpends(cfg: Config, s: Sys, t: Sys, w: WorkerId, o: Outcome)
    requires Evolves(s, t) && o.job.id in s.issued && InAir(s, w, o) && Owned(s.db, w, o)
    ensures Spent(CellOf(CompleteRow(cfg, w)(t, o).db, o.job.id), o.job.version)
  {
    assert CellEvolves(CellOf(s.db, o.job.id), CellOf(t.db, o.job.id));
    assert InAir(t, w, o);
    if Owned(t.db, w, o) {
      OwnedThenSpent(t.db, t.now, cfg.slaMs, w, o);
    }
  }

  lemma SpentThroughBatch(cfg: Config, s: Sys, w: WorkerId, batch: seq<Outcome>, k: JobKey)
    requires Inv(cfg, s) && k.id in s.issued && Spent(CellOf(s.db, k.id), k.version)
    ensures Spent(CellOf(Fold(CompleteRow(cfg, w), s, batch).db, k.id), k.version)
  {
    CommitKeeps(cfg, s, w, batch);
    SpentStays(s, Fold(CompleteRow(cfg, w), s, batch), k);
  }

  /** One outcome of a batch, from the state the earlier ones left. */
  lemma SpentFromThere(cfg: Config, s: Sys, t: Sys, w: WorkerId, o: Outcome, after: seq<Outcome>)
    requires Inv(cfg, t) && Evolves(s, t) && o.job.id in s.issued && InAir(s, w, o) && Owned(s.db, w, o)
    ensures Spent(CellOf(Fold(CompleteRow(cfg, w), CompleteRow(cfg, w)(t, o), after).db, o.job.id), o.job.version)
  {
    CommitSpends(cfg, s, t, w, o);
    CompleteRowKeeps(cfg, t, w, o);
    SpentThroughBatch(cfg, CompleteRow(cfg, w)(t, o), w, after, KeyOf(o.job));
  }

  lemma FoldAround<S, T>(f: (S, T) -> S, s: S, xs: seq<T>, i: nat)
    requires i < |xs|
    ensures Fold(f, s, xs) == Fold(f, f(Fold(f, s, xs[..i]), xs[i]), xs[i + 1..])
  {
    assert xs == xs[..i + 1] + xs[i + 1..];
    FoldConcat(f, s, xs[..i + 1], xs[i + 1..]);
    FoldSnoc(f, s, xs, i);
  }

  lemma BatchSpends(cfg: Config, s: Sys, w: WorkerId, batch: seq<Outcome>, i: nat)
    requires Inv(cfg, s) && i < |batch| && InAir(s, w, batch[i]) && Owned(s.db, w, batch[i])
    ensures Spent(CellOf(Fold(CompleteRow(cfg, w), s, batch).db, batch[i].job.id), batch[i].job.version)
  {
    FoldAround(CompleteRow(cfg, w), s, batch, i);
    CommitKeeps(cfg, s, w, batch[..i]);
    assert KeyOf(batch[i].job) in s.jobs;
    SpentFromThere(cfg, s, Fold(CompleteRow(cfg, w), s, batch[..i]), w, batch[i], batch[i + 1..]);
  }

  lemma SpentForever(cfg: Config, s: Sys, es: seq<Event>, k: JobKey, w: WorkerId, o: Outcome)
    requires Inv(cfg, s) && k.id in s.issued && Spent(CellOf(s.db, k.id), k.version) && KeyOf(o.job) == k
    ensures !Owned(Run(cfg, s, es).db, w, o)
  {
    RunKeeps(cfg, s, es);
    SpentStays(s, Run(cfg, s, es), k);
    SpentMeansFenced(Run(cfg, s, es).db, k, w, o);
  }

  lemma CommittedIsSpent(cfg: Config, s: Sys, w: WorkerId, batch: seq<Outcome>, i: nat)
    requires Inv(cfg, s) && i < |batch| && InAir(s, w, batch[i]) && Owned(s.db, w, batch[i])
    ensures var t, k := Fold(CompleteRow(cfg, w), s, batch), KeyOf(batch[i].job);
            Inv(cfg, t) && k.id in t.issued && Spent(CellOf(t.db, k.id), k.version)
  {
    BatchSpends(cfg, s, w, batch, i);
    CommitKeeps(cfg, s, w, batch);
    assert KeyOf(batch[i].job) in s.jobs;
  }

  /** Once an owned outcome is committed, no outcome of its generation is ever owned again, by any worker. */
  lemma GenerationAppliedOnce(cfg: Config, start: Time, before: seq<Event>, w: WorkerId, batch: seq<Outcome>, i: nat,
                              after: seq<Event>, w': WorkerId, o': Outcome)
    requires ValidConfig(cfg) && i < |batch| && KeyOf(o'.job) == KeyOf(batch[i].job)
    requires var s := Run(cfg, Init(start), before); InAir(s, w, batch[i]) && Owned(s.db, w, batch[i])
    ensures !Owned(Run(cfg, Next(cfg, Run(cfg, Init(start), before), Commit(w, batch)), after).db, w', o')
  {
    var s := Run(cfg, Init(start), before);
    assert Inv(cfg, s) by { Always(cfg, start, before); }
    AppliedOnceFrom(cfg, s, w, batch, i, after, w', o');
  }

  lemma AppliedOnceFrom(cfg: Config, s: Sys, w: WorkerId, batch: seq<Outcome>, i: nat, after: seq<Event>,
                        w': WorkerId, o': Outcome)
    requires Inv(cfg, s) && i < |batch| && InAir(s, w, batch[i]) && Owned(s.db, w, batch[i])
    requires KeyOf(o'.job) == KeyOf(batch[i].job)
    ensures !Owned(Run(cfg, Fold(CompleteRow(cfg, w), s, batch), after).db, w', o')
  {
    CommittedIsSpent(cfg, s, w, batch, i);
    SpentForever(cfg, Fold(CompleteRow(cfg, w), s, batch), after, KeyOf(batch[i].job), w', o');
  }

  // ---------------------------------------------------------------------------
  // The events are the transactions

  lemma {:induction false} CommitFolds(cfg: Config, s: Sys, w: WorkerId, batch: seq<Outcome>)
    requires forall o | o in batch :: InAir(s, w, o)
    ensures Fold(CompleteRow(cfg, w), s, batch) == s.(db := CompleteAll(s.db, s.now, cfg.slaMs, w, batch))
  {
    if batch != [] {
      var init, o := batch[..|batch| - 1], batch[|batch| - 1];
      CommitFolds(cfg, s, w, init);
      assert InAir(s, w, o);
      assert InAir(Fold(CompleteRow(cfg, w), s, init), w, o);
    }
  }

  /** The commit event is the completer's transaction. */
  lemma CommitIsTransaction(cfg: Config, s: Sys, w: WorkerId, batch: seq<Outcome>)
    requires forall o | o in batch :: InAir(s, w, o)
    ensures Next(cfg, s, Commit(w, batch)) == s.(db := CompleteAll(s.db, s.now, cfg.slaMs, w, batch))
  {
    CommitFolds(cfg, s, w, batch);
  }

  /** The claim event changes the tables as the claim transaction does. */
  lemma {:induction false} ClaimIsTransaction(cfg: Config, s: Sys, w: WorkerId, lane: Lane, leaseMs: int, ids: seq<Id>)
    requires leaseMs > 0
    ensures var t := Next(cfg, s, Claim(w, lane, leaseMs, ids));
            t.db == Claims.ClaimAll(s.db, s.now, w, lane, leaseMs, ids) && t.now == s.now
  {
    if ids != [] {
      ClaimIsTransaction(cfg, s, w, lane, leaseMs, ids[..|ids| - 1]);
    }
  }
}
