/** No accepted message is stuck: in every reachable state it can be sent again, and it can be ended. */
module Progress {
  import opened Tables
  import opened Decisions
  import opened Cells
  import opened Gateway
  import opened Runs
  import Completion
  import Effects

  /** The queue row of an accepted message. */
  lemma AcceptedIsQueued(cfg: Config, start: Time, es: seq<Event>, id: Id)
    requires ValidConfig(cfg)
    requires var s := Run(cfg, Init(start), es); id in s.db.messages && s.db.messages[id].status.Accepted?
    ensures id in Run(cfg, Init(start), es).db.queue
  {
    var s := Run(cfg, Init(start), es);
    Always(cfg, start, es);
    assert CellOk(cfg, s.now, CellOf(s.db, id));
  }

  lemma RunSnoc(cfg: Config, s: Sys, es: seq<Event>, e: Event)
    ensures Run(cfg, s, es + [e]) == Next(cfg, Run(cfg, s, es), e)
  {
    assert (es + [e])[..|es|] == es;
  }

  /** How long to wait until a moment has come. */
  function Until(now: Time, moment: Time): nat { if moment > now then moment - now else 0 }

  /**
   Whatever happened to its workers, an accepted message can be claimed again after
   a while by any worker, in the lane it is in and under the next generation.
   */
  lemma EveryMessageCanBeClaimed(cfg: Config, start: Time, es: seq<Event>, id: Id, w: WorkerId, leaseMs: int)
    returns (wait: nat)
    requires ValidConfig(cfg) && leaseMs > 0
    requires var s := Run(cfg, Init(start), es); id in s.db.messages && s.db.messages[id].status.Accepted?
    ensures var s := Run(cfg, Init(start), es);
            && id in s.db.queue
            && var claim := Claim(w, s.db.queue[id].lane, leaseMs, [id]);
               JobKey(id, s.db.queue[id].version + 1) in Run(cfg, Init(start), es + [Tick(wait)] + [claim]).jobs
  {
    var s := Run(cfg, Init(start), es);
    AcceptedIsQueued(cfg, start, es, id);
    var r := s.db.queue[id];
    wait := Until(s.now, r.nextAttemptAt);
    RunSnoc(cfg, Init(start), es, Tick(wait));
    RunSnoc(cfg, Init(start), es + [Tick(wait)], Claim(w, r.lane, leaseMs, [id]));
    Effects.ClaimedIffReady(cfg, start, es + [Tick(wait)], w, r.lane, leaseMs, id);
  }

  /**
   Even if no worker ever claims it, an accepted message ends: once its time to live
   and any lease have passed, the sweeper expires it and gives its cost back.
   */
  lemma EveryMessageCanEnd(cfg: Config, start: Time, es: seq<Event>, id: Id) returns (wait: nat)
    requires ValidConfig(cfg)
    requires var s := Run(cfg, Init(start), es); id in s.db.messages && s.db.messages[id].status.Accepted?
    ensures var s := Run(cfg, Init(start), es);
            var t := Run(cfg, Init(start), es + [Tick(wait)] + [Expire([id])]);
            && id in t.db.messages && t.db.messages[id].status.Expired? && id !in t.db.queue
            && Effects.PaidBack(s.db, t.db, s.now + wait, id)
  {
    var s := Run(cfg, Init(start), es);
    AcceptedIsQueued(cfg, start, es, id);
    var r := s.db.queue[id];
    wait := Until(s.now, r.nextAttemptAt) + Until(s.now, r.expiresAt);
    RunSnoc(cfg, Init(start), es, Tick(wait));
    RunSnoc(cfg, Init(start), es + [Tick(wait)], Expire([id]));
    Effects.ExpiryRefunds(cfg, start, es + [Tick(wait)], id);
  }

  /**
   Any outcome a dispatch may decide on can be committed: it goes into the air
   once, and while the lease runs and the message exists it passes the fence.
   */
  lemma EveryDecisionCanBeCommitted(cfg: Config, start: Time, es: seq<Event>, o: Outcome)
    requires ValidConfig(cfg) && Decides(PolicyFor(cfg, o.job.pool), o)
    requires var s := Run(cfg, Init(start), es);
             KeyOf(o.job) in s.jobs && s.jobs[KeyOf(o.job)] == o.job && KeyOf(o.job) !in s.outcomes
    ensures var s := Run(cfg, Init(start), es);
            var t := Next(cfg, s, Decide(o));
            && t == s.(outcomes := s.outcomes[KeyOf(o.job) := o]) && InAir(t, o.job.worker, o)
            && (o.job.deadline > s.now && o.job.id in s.db.messages ==> Completion.Owned(t.db, o.job.worker, o))
  {
    var s := Run(cfg, Init(start), es);
    assert JobOk(s.now, None, CellOf(s.db, o.job.id), o.job) by { Always(cfg, start, es); }
  }
}
