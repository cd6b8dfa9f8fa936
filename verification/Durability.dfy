/** What the message table shows of the answers that the batcher gave (internal/dlr/batcher.go, internal/dlr/apply.go). */
module Durability {
  import opened Tables
  import opened Reports
  import opened Batchers
  import Cells
  import Gateway
  import Lifecycle
  import Runs

  /** Other transactions leave finished messages in their status. */
  ghost predicate KeepsFinished(ms: map<Id, Message>, ms': map<Id, Message>)
  {
    forall id | id in ms && Terminal(ms[id].status) :: id in ms' && ms'[id].status == ms[id].status
  }

  /** Between any two points of a run of the gateway that deletes no customer, finished messages keep their status. */
  lemma GatewayKeepsFinished(cfg: Cells.Config, start: Time, before: seq<Gateway.Event>, after: seq<Gateway.Event>)
    requires Cells.ValidConfig(cfg)
    requires var s := Gateway.Run(cfg, Gateway.Init(start), before);
             forall c | c in s.db.customers :: c in Gateway.Run(cfg, s, after).db.customers
    ensures var s := Gateway.Run(cfg, Gateway.Init(start), before);
            KeepsFinished(s.db.messages, Gateway.Run(cfg, s, after).db.messages)
  {
    var s := Gateway.Run(cfg, Gateway.Init(start), before);
    var t := Gateway.Run(cfg, s, after);
    Runs.Always(cfg, start, before);
    Runs.RunKeeps(cfg, s, after);
    forall id | id in s.db.messages && Terminal(s.db.messages[id].status)
      ensures id in t.db.messages && t.db.messages[id].status == s.db.messages[id].status
    {
      Lifecycle.StatusesOnlyMoveForward(cfg, start, before, after, id);
    }
  }

  ghost predicate OrderlyStep(s: State, a: Action)
  {
    && (a.Enqueue? ==> a.report.status.Delivered? || a.report.status.Undelivered?)
    && (a.OtherTransaction? ==> KeepsFinished(s.messages, a.messages))
  }

  /** A run in which only delivered and undelivered are reported, and finished messages stay finished. */
  ghost predicate Orderly(size: nat, messages: map<Id, Message>, run: seq<Action>)
  {
    forall n | 0 <= n < |run| :: OrderlyStep(After(size, messages, run[..n]), run[n])
  }

  lemma OrderlyPrefix(size: nat, messages: map<Id, Message>, run: seq<Action>, n: nat)
    requires Orderly(size, messages, run) && n <= |run|
    ensures Orderly(size, messages, run[..n])
  {
    forall k | 0 <= k < n ensures OrderlyStep(After(size, messages, run[..n][..k]), run[..n][k]) {
      assert run[..n][..k] == run[..k];
    }
  }

  // ---------------------------------------------------------------------------
  // One call of Apply

  ghost predicate AllWellFormed(ps: seq<Pending>) { forall p | p in ps :: WellFormed(p.report) }

  /** Only a call of Apply adds to the commits, and only it or another transaction writes the table. */
  lemma StepCommits(size: nat, s: State, a: Action)
    ensures var s' := Step(size, s, a);
            if a.Apply? && s.phase.Flushing? then
              && s'.commits == s.commits + [Commit(s.batch, s.messages, a.now, a.ok)]
              && s'.messages == if a.ok then ReportAll(s.messages, a.now, ReportsOf(s.batch)) else s.messages
            else
              && s'.commits == s.commits
              && s'.messages == if a.OtherTransaction? then a.messages else s.messages
  {
  }

  lemma StepQueues(size: nat, s: State, a: Action)
    ensures var s' := Step(size, s, a);
            s'.queued == s.queued || (a.Enqueue? && s'.queued == s.queued + [Pending(a.caller, a.report)])
  {
  }

  lemma {:induction false} QueuedAreWellFormed(size: nat, messages: map<Id, Message>, run: seq<Action>)
    requires Orderly(size, messages, run)
    ensures AllWellFormed(After(size, messages, run).queued)
  {
    if run != [] {
      var n := |run| - 1;
      OrderlyPrefix(size, messages, run, n);
      QueuedAreWellFormed(size, messages, run[..n]);
      assert OrderlyStep(After(size, messages, run[..n]), run[n]);
      StepQueues(size, After(size, messages, run[..n]), run[n]);
    }
  }

  lemma BatchIsQueued(s: State)
    requires InOrder(s) && s.phase.Flushing? && AllWellFormed(s.queued)
    ensures AllWellFormed(s.batch) && forall r | r in ReportsOf(s.batch) :: WellFormed(r)
  {
    forall p | p in s.batch ensures p in s.queued {
      assert p in Committed(s.commits) + Uncommitted(s) + s.inbox;
    }
    forall r | r in ReportsOf(s.batch) ensures WellFormed(r) {
      var i :| 0 <= i < |s.batch| && ReportsOf(s.batch)[i] == r;
      assert s.batch[i] in s.batch;
    }
  }

  /** Report `i` is the batch's first one about message `id`. */
  ghost predicate FirstAbout(batch: seq<Pending>, id: Id, i: nat)
  {
    i < |batch| && batch[i].report.message == id && forall j | 0 <= j < i :: batch[j].report.message != id
  }

  /** What a call of Apply leaves of a message: what the batch's first report about it says, or what was there. */
  ghost predicate Written(s: State, s': State, now: Time, ok: bool, id: Id)
  {
    && (forall i: nat | ok && FirstAbout(s.batch, id, i) && id in s.messages && !Terminal(s.messages[id].status) ::
          var m, r := s.messages[id], s.batch[i].report;
          Lookup(s'.messages, id) ==
          Some(m.(status := r.status, completedAt := Some(now), updatedAt := now,
                  provider := if m.provider.Some? then m.provider else Some(r.provider),
                  providerRef := if m.providerRef.Some? then m.providerRef else Some(r.providerRef))))
    && (!ok || id !in s.messages || Terminal(s.messages[id].status)
        || (forall i | 0 <= i < |s.batch| :: s.batch[i].report.message != id) ==>
          Lookup(s'.messages, id) == Lookup(s.messages, id))
  }

  /**
   A call of Apply that commits writes every accepted or sent message the batch
   names, as its first report says and with missing provider details filled in,
   and no other row; one that fails writes nothing.
   */
  lemma ApplyWrites(size: nat, messages: map<Id, Message>, run: seq<Action>, now: Time, ok: bool, id: Id)
    requires Orderly(size, messages, run) && After(size, messages, run).phase.Flushing?
    ensures Written(After(size, messages, run), After(size, messages, run + [Apply(now, ok)]), now, ok, id)
  {
    var s := After(size, messages, run);
    assert AllWellFormed(s.queued) && InOrder(s) by {
      QueuedAreWellFormed(size, messages, run);
      Batchers.Always(size, messages, run);
    }
    BatchIsQueued(s);
    AfterSnoc(size, messages, run, Apply(now, ok));
    StepCommits(size, s, Apply(now, ok));
    BatchWrites(s.messages, now, s.batch, id);
  }

  lemma BatchWrites(ms: map<Id, Message>, now: Time, batch: seq<Pending>, id: Id)
    requires forall r | r in ReportsOf(batch) :: WellFormed(r)
    ensures forall i: nat | FirstAbout(batch, id, i) && id in ms && !Terminal(ms[id].status) ::
              Lookup(ReportAll(ms, now, ReportsOf(batch)), id) == Some(ReportedMessage(ms[id], now, batch[i].report))
    ensures id !in ms || Terminal(ms[id].status) || (forall i | 0 <= i < |batch| :: batch[i].report.message != id) ==>
              Lookup(ReportAll(ms, now, ReportsOf(batch)), id) == Lookup(ms, id)
  {
    var rs := ReportsOf(batch);
    ReportAllAt(ms, now, rs, id);
    forall i: nat | FirstAbout(batch, id, i) ensures Mentioned(rs, id) && First(rs, id) == i {
      assert rs[i].message == id;
      assert forall j | 0 <= j < i :: rs[j] == batch[j].report;
    }
  }

  // ---------------------------------------------------------------------------
  // Answers over whole runs

  /** The call of Apply committed and answered Applied to its i-th report. */
  predicate AnsweredApplied(c: Commit, i: nat)
  {
    i < |c.batch| && c.ok && LabelInBatch(c.before, c.now, ReportsOf(c.batch), i) == Applied
  }

  /** The table shows what the report said. */
  predicate Shows(ms: map<Id, Message>, r: Report)
  {
    WellFormed(r) && r.message in ms && ms[r.message].status == r.status
  }

  ghost predicate AppliedShow(s: State)
  {
    forall k: nat, i: nat | k < |s.commits| && AnsweredApplied(s.commits[k], i) ::
      Shows(s.messages, s.commits[k].batch[i].report)
  }

  ghost predicate AppliedOnce(s: State)
  {
    forall k: nat, i: nat, k': nat, i': nat
      | k < |s.commits| && AnsweredApplied(s.commits[k], i) && k' < |s.commits| && AnsweredApplied(s.commits[k'], i')
        && s.commits[k].batch[i].report.message == s.commits[k'].batch[i'].report.message ::
      k == k' && i == i'
  }

  /** A new Applied answer is about a message that was unfinished, and the table shows it. */
  lemma NewAnswer(c: Commit, i: nat)
    requires AnsweredApplied(c, i) && AllWellFormed(c.batch)
    ensures var id := c.batch[i].report.message;
            && id in c.before && !Terminal(c.before[id].status) && FirstAbout(c.batch, id, i)
            && Shows(ReportAll(c.before, c.now, ReportsOf(c.batch)), c.batch[i].report)
  {
    var rs := ReportsOf(c.batch);
    forall r | r in rs ensures WellFormed(r) {
      var j :| 0 <= j < |c.batch| && rs[j] == r;
      assert c.batch[j] in c.batch;
    }
    assert rs[i] in rs;
    OneAppliedPerChange(c.before, c.now, rs, i);
    assert forall j | 0 <= j < i :: rs[j] == c.batch[j].report;
  }

  /** A finished message is not written again. */
  lemma StillShown(ms: map<Id, Message>, now: Time, batch: seq<Pending>, r: Report)
    requires (forall x | x in ReportsOf(batch) :: WellFormed(x)) && Shows(ms, r)
    ensures Shows(ReportAll(ms, now, ReportsOf(batch)), r)
  {
    BatchWrites(ms, now, batch, r.message);
  }

  lemma ApplyShows(s: State, s': State, now: Time, ok: bool)
    requires AppliedShow(s) && AllWellFormed(s.batch) && forall x | x in ReportsOf(s.batch) :: WellFormed(x)
    requires s'.commits == s.commits + [Commit(s.batch, s.messages, now, ok)]
    requires s'.messages == if ok then ReportAll(s.messages, now, ReportsOf(s.batch)) else s.messages
    ensures AppliedShow(s')
  {
    forall k: nat, i: nat | k < |s'.commits| && AnsweredApplied(s'.commits[k], i)
      ensures Shows(s'.messages, s'.commits[k].batch[i].report)
    {
      if k < |s.commits| {
        assert s'.commits[k] == s.commits[k];
        if ok {
          StillShown(s.messages, now, s.batch, s.commits[k].batch[i].report);
        }
      } else {
        NewAnswer(s'.commits[k], i);
      }
    }
  }

  lemma ApplyOnce(s: State, s': State, c: Commit)
    requires AppliedShow(s) && AppliedOnce(s) && AllWellFormed(c.batch) && c.before == s.messages
    requires s'.commits == s.commits + [c]
    ensures AppliedOnce(s')
  {
    var n := |s.commits|;
    forall k: nat, i: nat | k < n && AnsweredApplied(s'.commits[k], i)
      ensures s'.commits[k] == s.commits[k] && Shows(s.messages, s'.commits[k].batch[i].report)
    {
      assert s'.commits[k] == s.commits[k];
    }
    forall i: nat | AnsweredApplied(c, i)
      ensures var id := c.batch[i].report.message;
              id in s.messages && !Terminal(s.messages[id].status) && FirstAbout(c.batch, id, i)
    {
      NewAnswer(c, i);
    }
  }

  ghost predicate Faithful(s: State) { AppliedShow(s) && AppliedOnce(s) }

  lemma StepFaithful(size: nat, s: State, a: Action)
    requires Batchers.Inv(s) && AllWellFormed(s.queued) && Faithful(s) && OrderlyStep(s, a)
    ensures Faithful(Step(size, s, a))
  {
    StepCommits(size, s, a);
    TablesFaithful(s, Step(size, s, a), a);
  }

  lemma TablesFaithful(s: State, s': State, a: Action)
    requires InOrder(s) && AllWellFormed(s.queued) && Faithful(s) && OrderlyStep(s, a)
    requires if a.Apply? && s.phase.Flushing? then
               && s'.commits == s.commits + [Commit(s.batch, s.messages, a.now, a.ok)]
               && s'.messages == if a.ok then ReportAll(s.messages, a.now, ReportsOf(s.batch)) else s.messages
             else
               s'.commits == s.commits && s'.messages == if a.OtherTransaction? then a.messages else s.messages
    ensures Faithful(s')
  {
    if a.Apply? && s.phase.Flushing? {
      BatchIsQueued(s);
      ApplyShows(s, s', a.now, a.ok);
      ApplyOnce(s, s', Commit(s.batch, s.messages, a.now, a.ok));
    }
  }

  lemma {:induction false} AlwaysFaithful(size: nat, messages: map<Id, Message>, run: seq<Action>)
    requires Orderly(size, messages, run)
    ensures Faithful(After(size, messages, run))
  {
    if run != [] {
      var n := |run| - 1;
      OrderlyPrefix(size, messages, run, n);
      AlwaysFaithful(size, messages, run[..n]);
      Batchers.Always(size, messages, run[..n]);
      QueuedAreWellFormed(size, messages, run[..n]);
      StepFaithful(size, After(size, messages, run[..n]), run[n]);
    }
  }

  // ---------------------------------------------------------------------------
  // What callers can rely on

  predicate GotApplied(s: State, c: Caller) { Is(s, c, Returned(Got(Answer(Applied)))) }

  /** Finds the answer behind a caller's Applied. */
  lemma AnswerOf(size: nat, messages: map<Id, Message>, run: seq<Action>, p: Pending) returns (k: nat, i: nat)
    requires var s := After(size, messages, run); p in s.queued && GotApplied(s, p.caller)
    ensures var s := After(size, messages, run);
            k < |s.commits| && AnsweredApplied(s.commits[k], i) && s.commits[k].batch[i] == p
  {
    var s := After(size, messages, run);
    k, i := AnswerIsDurable(size, messages, run, p.caller);
    assert s.commits[k].batch[i] == p by {
      Batchers.Always(size, messages, run);
      OnePending(s, k, i, p);
    }
  }

  /** A caller's report in a call of Apply is the one it queued. */
  lemma OnePending(s: State, k: nat, i: nat, p: Pending)
    requires InOrder(s) && OnePlaceEach(s) && AppliedAt(s.commits, p.caller, k, i) && p in s.queued
    ensures s.commits[k].batch[i] == p
  {
    PositionOf(s.commits, k, i);
    var at := |Committed(s.commits[..k])| + i;
    assert s.queued[at] == Committed(s.commits)[at];
    var q :| 0 <= q < |s.queued| && s.queued[q] == p;
  }

  /** No two callers are told that their report was applied to the same message. */
  lemma OneAppliedAnswer(size: nat, messages: map<Id, Message>, run: seq<Action>, p: Pending, q: Pending)
    requires Orderly(size, messages, run)
    requires var s := After(size, messages, run);
             p in s.queued && q in s.queued && GotApplied(s, p.caller) && GotApplied(s, q.caller)
    requires p.report.message == q.report.message
    ensures p == q
  {
    AlwaysFaithful(size, messages, run);
    var k, i := AnswerOf(size, messages, run, p);
    var k', i' := AnswerOf(size, messages, run, q);
  }

  lemma {:induction false} CommitsGrow(size: nat, messages: map<Id, Message>, run: seq<Action>, more: seq<Action>)
    ensures After(size, messages, run).commits <= After(size, messages, run + more).commits
  {
    if more == [] {
      assert run + more == run;
    } else {
      var init, a := run + more[..|more| - 1], more[|more| - 1];
      CommitsGrow(size, messages, run, more[..|more| - 1]);
      assert run + more == init + [a];
      AfterSnoc(size, messages, init, a);
      StepCommits(size, After(size, messages, init), a);
    }
  }

  /** A caller who was told Applied finds its report's status on the message, then and at every later time. */
  lemma AppliedStaysVisible(size: nat, messages: map<Id, Message>, run: seq<Action>, more: seq<Action>, p: Pending)
    requires Orderly(size, messages, run + more)
    requires var s := After(size, messages, run); p in s.queued && GotApplied(s, p.caller)
    ensures var ms := After(size, messages, run + more).messages;
            p.report.message in ms && ms[p.report.message].status == p.report.status
  {
    var k, i := AnswerOf(size, messages, run, p);
    CommitsGrow(size, messages, run, more);
    AlwaysFaithful(size, messages, run + more);
    assert AnsweredApplied(After(size, messages, run + more).commits[k], i);
  }
}
