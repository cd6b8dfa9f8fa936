/** Sending one job: provider choice, the outcome, and the breaker's bookkeeping (internal/dispatch/send.go). */
module Dispatching {
  import opened Tables
  import opened Decisions
  import opened Circuit
  import opened Remainders
  import Backoffs

  const NANOS_PER_TICK: int := 1000
  const NANOS_PER_MS: int := 1_000_000

  /** What a provider answers: 200 with a reference, or an error classified as in classify.go. */
  datatype SendResult = Taken(ref: string) | Refused(permanent: bool, providerFault: bool, text: string)

  /**
   The surroundings of one dispatch: the estimated database time before picking,
   before sending and after a failed send; the breaker clock; whether the budget
   wait and the send outlived shutdown; the provider's answer; the random draw.
   */
  datatype Surroundings = Surroundings(
    dbAtStart: Time,
    pickedAt: Time,
    budgetOk: bool,
    dbBeforeSend: Time,
    result: SendResult,
    cancelled: bool,
    recordedAt: Time,
    dbAfterFailure: Time,
    draw: real)

  datatype BreakerCall = Grant(p: nat) | Report(p: nat, success: bool, counted: bool)

  /** The breakers after the calls a dispatch made. */
  function Replay(cfg: Settings, bs: seq<Breaker>, env: Surroundings, calls: seq<BreakerCall>): (r: seq<Breaker>)
    requires forall c | c in calls :: c.p < |bs|
    ensures |r| == |bs|
  {
    if calls == [] then bs
    else
      var rest, c := Replay(cfg, bs, env, calls[..|calls| - 1]), calls[|calls| - 1];
      if c.Grant? then rest[c.p := Allow(cfg, rest[c.p], env.pickedAt).1]
      else rest[c.p := Record(cfg, rest[c.p], env.recordedAt, c.success, c.counted)]
  }

  /** Where the rotation starts: a policy that rotates begins each attempt at the next provider. */
  function Start(pol: Policy, attempts: nat, n: nat): (start: nat)
    requires n > 0
    ensures start < n
  {
    if pol.rotate then attempts % n else 0
  }

  /**
   The first attempt starts at the primary. Under a policy that rotates, every
   retry starts at the provider after the last one, so at another one if there is
   another; otherwise every attempt starts at the primary.
   */
  lemma RetriesMoveOn(pol: Policy, attempts: nat, n: nat)
    requires n > 0
    ensures Start(pol, 0, n) == 0
    ensures !pol.rotate ==> Start(pol, attempts, n) == 0
    ensures pol.rotate ==>
              var start := Start(pol, attempts, n);
              Start(pol, attempts + 1, n) == (if start + 1 == n then 0 else start + 1)
              && (n > 1 ==> Start(pol, attempts + 1, n) != start)
  {
    SmallRemainder(0, n);
    NextResidue(attempts, n);
    SmallRemainder(attempts % n + 1, n);
  }

  /** The i-th provider of the rotation that starts at `start`. */
  function Turn(n: nat, start: nat, i: nat): (p: nat)
    requires start < n && i < n
    ensures p < n
  {
    if start + i < n then start + i else start + i - n
  }

  method Rotated(n: nat, start: nat, i: nat) returns (p: nat)
    requires start < n && i < n
    ensures p == Turn(n, start, i)
  {
    SmallRemainder(start + i, n);
    p := (start + i) % n;
  }

  /** Provider `p` is the first usable one in the rotation that starts at `start`. */
  ghost predicate FirstUsable(cfg: Settings, bs: seq<Breaker>, start: nat, now: Time, p: nat)
    requires start < |bs|
  {
    exists i: nat :: i < |bs| && p == Turn(|bs|, start, i) && Usable(cfg, bs[p], now) && SkippedBefore(cfg, bs, start, now, i)
  }

  ghost predicate SkippedBefore(cfg: Settings, bs: seq<Breaker>, start: nat, now: Time, i: nat)
    requires start < |bs| && i <= |bs|
  {
    forall k: nat | k < i :: !Usable(cfg, bs[Turn(|bs|, start, k)], now)
  }

  lemma RotationReaches(n: nat, start: nat, p: nat) returns (i: nat)
    requires p < n && start < n
    ensures i < n && Turn(n, start, i) == p
  {
    i := if p >= start then p - start else p + n - start;
  }

  /** The states of some breakers. */
  function Views(bs: seq<CircuitBreaker>): (views: seq<Breaker>)
    reads bs
  {
    seq(|bs|, i requires 0 <= i < |bs| reads bs => bs[i].View())
  }

  class Worker {
    const cfg: Settings
    const names: seq<string>
    const openForMs: int
    const breakers: seq<CircuitBreaker>

    constructor (cfg: Settings, names: seq<string>, openForMs: int)
      requires cfg.threshold >= 1
      ensures this.cfg == cfg && this.names == names && this.openForMs == openForMs
      ensures Valid() && fresh(breakers) && forall b | b in Views(breakers) :: b == NEW_BREAKER
    {
      var bs: seq<CircuitBreaker> := [];
      for i := 0 to |names|
        invariant |bs| == i && fresh(bs) && forall j, k | 0 <= j < k < i :: bs[j] != bs[k]
        invariant forall j | 0 <= j < i :: bs[j].cfg == cfg && bs[j].View() == NEW_BREAKER
      {
        var b := new CircuitBreaker(cfg);
        bs := bs + [b];
      }
      this.cfg, this.names, this.openForMs, this.breakers := cfg, names, openForMs, bs;
    }

    ghost predicate Valid()
      reads this, breakers
    {
      && |breakers| == |names| && (forall j, k | 0 <= j < k < |breakers| :: breakers[j] != breakers[k])
      && forall i | 0 <= i < |breakers| :: breakers[i].cfg == cfg && Sound(cfg, breakers[i].View())
    }

    /** Picks the first usable provider of the rotation, or none exactly when none is usable; takes one admission. */
    method Pick(pol: Policy, attempts: nat, now: Time) returns (p: Option<nat>)
      requires Valid() && names != []
      modifies breakers
      ensures Valid()
      ensures p.None? <==> forall b | b in old(Views(breakers)) :: !Usable(cfg, b, now)
      ensures p.None? ==> Views(breakers) == old(Views(breakers))
      ensures p.Some? ==>
                && p.value < |breakers|
                && FirstUsable(cfg, old(Views(breakers)), Start(pol, attempts, |names|), now, p.value)
                && Views(breakers) == old(Views(breakers))[p.value := Allow(cfg, old(Views(breakers))[p.value], now).1]
    {
      p := PickFrom(Start(pol, attempts, |names|), now);
    }

    method PickFrom(start: nat, now: Time) returns (p: Option<nat>)
      requires Valid() && start < |names|
      modifies breakers
      ensures Valid()
      ensures p.None? <==> forall b | b in old(Views(breakers)) :: !Usable(cfg, b, now)
      ensures p.None? ==> Views(breakers) == old(Views(breakers))
      ensures p.Some? ==>
                && p.value < |breakers| && FirstUsable(cfg, old(Views(breakers)), start, now, p.value)
                && Views(breakers) == old(Views(breakers))[p.value := Allow(cfg, old(Views(breakers))[p.value], now).1]
    {
      var n := |breakers|;
      for i := 0 to n
        invariant Valid() && Views(breakers) == old(Views(breakers))
        invariant SkippedBefore(cfg, old(Views(breakers)), start, now, i)
      {
        var k := Rotated(n, start, i);
        var ok := TryProvider(k, now);
        if ok {
          return Some(k);
        }
      }
      ghost var views := old(Views(breakers));
      forall b | b in views ensures !Usable(cfg, b, now) {
        var q :| 0 <= q < n && views[q] == b;
        var i := RotationReaches(n, start, q);
      }
      return None;
    }

    /**
     Whether some provider is usable: exactly when Pick would find one at that
     time. Asking only lets open circuits turn half-open.
     */
    method AnyUsable(now: Time) returns (ok: bool)
      requires Valid()
      modifies breakers
      ensures Valid()
      ensures ok <==> exists b | b in old(Views(breakers)) :: Usable(cfg, b, now)
      ensures forall i | 0 <= i < |breakers| ::
                var b := old(Views(breakers))[i];
                Views(breakers)[i] == b || Views(breakers)[i] == Current(cfg, b, now)
    {
      ghost var views := Views(breakers);
      for i := 0 to |breakers|
        invariant Valid() && forall k | 0 <= k < i :: !Usable(cfg, views[k], now)
        invariant forall k | 0 <= k < i :: breakers[k].View() == Current(cfg, views[k], now)
        invariant forall k | i <= k < |breakers| :: breakers[k].View() == views[k]
      {
        var usable := breakers[i].IsUsable(now);
        assert forall k | 0 <= k < |breakers| && k != i :: breakers[k] != breakers[i];
        if usable {
          assert views[i] in views;
          return true;
        }
      }
      return false;
    }

    /** allow on one provider's breaker; a refusal leaves the breaker as it was. */
    method TryProvider(k: nat, now: Time) returns (ok: bool)
      requires Valid() && k < |breakers|
      modifies breakers
      ensures Valid() && ok == Usable(cfg, old(Views(breakers))[k], now)
      ensures Views(breakers) ==
              if ok then old(Views(breakers))[k := Allow(cfg, old(Views(breakers))[k], now).1] else old(Views(breakers))
    {
      UsablePredictsAllow(cfg, breakers[k].View(), now);
      ok := breakers[k].TryAllow(now);
      assert forall i | 0 <= i < |breakers| && i != k :: breakers[i].View() == old(breakers[i].View());
    }

    method RecordAs(p: nat, env: Surroundings, success: bool, counted: bool, calls: seq<BreakerCall>)
      returns (more: seq<BreakerCall>)
      requires Valid() && p < |breakers|
      modifies breakers
      ensures Valid() && more == calls + [Report(p, success, counted)]
      ensures Views(breakers) ==
              old(Views(breakers))[p := Record(cfg, old(Views(breakers))[p], env.recordedAt, success, counted)]
    {
      breakers[p].RecordResult(env.recordedAt, success, counted);
      assert forall i | 0 <= i < |breakers| && i != p :: breakers[i].View() == old(breakers[i].View());
      more := calls + [Report(p, success, counted)];
    }

    /**
     Sends one job and decides its outcome; `ok` is false when shutdown cut the
     send off. Every admission is matched by one result, except when the lease
     ran out between the admission and the send. The result is a success exactly
     when the provider took the message, and a counted failure exactly when the
     failure was the provider's. An attempt names the provider that was admitted,
     with its reference or its error.
     */
    method Dispatch(pol: Policy, j: Job, env: Surroundings) returns (o: Outcome, ok: bool, calls: seq<BreakerCall>)
      requires Valid() && names != [] && j.attempts >= 0
      modifies breakers
      ensures Valid()
      ensures ok ==> o.job == j && Decides(pol, o)
      ensures calls == [] <==>
              j.expiresAt <= env.dbAtStart || forall b | b in old(Views(breakers)) :: !Usable(cfg, b, env.pickedAt)
      ensures calls != [] ==> calls[0].Grant? && calls[0].p < |breakers|
      ensures calls != [] ==>
                FirstUsable(cfg, old(Views(breakers)), Start(pol, j.attempts, |names|), env.pickedAt, calls[0].p)
      ensures |calls| == 1 <==> calls != [] && env.budgetOk && env.dbBeforeSend >= j.deadline
      ensures |calls| != 0 && |calls| != 1 ==> |calls| == 2 && calls[1].Report? && calls[1].p == calls[0].p
      ensures |calls| == 2 ==>
                && (calls[1].success <==> env.budgetOk && env.result.Taken?)
                && (calls[1].counted <==>
                      env.budgetOk && env.result.Refused? && env.result.providerFault && !env.cancelled)
      ensures Views(breakers) == Replay(cfg, old(Views(breakers)), env, calls)
      ensures |calls| == 2 ==>
                var b, b' := old(Views(breakers))[calls[0].p], Views(breakers)[calls[0].p];
                && (env.budgetOk && env.result.Taken? ==> b'.state.Closed? && b'.failures == 0)
                && (!env.budgetOk || (env.result.Refused? && (env.cancelled || !env.result.providerFault)) ==>
                      b'.failures == b.failures && b'.openedAt == b.openedAt)
      ensures !ok <==> |calls| == 2 && (!env.budgetOk || (env.result.Refused? && env.cancelled))
      ensures calls == [] ==>
                if j.expiresAt <= env.dbAtStart then o.kind.OutcomeExpired?
                else o.kind.OutcomeDeferred? && o.delayMs == openForMs
      ensures |calls| == 1 ==> ok && o.kind.OutcomeDeferred? && o.delayMs == 0
      ensures ok && o.kind.OutcomeSent? <==> |calls| == 2 && env.budgetOk && env.result.Taken?
      ensures ok ==> (o.attempted <==> |calls| == 2)
      ensures ok && |calls| == 2 ==> o.provider == names[calls[0].p] && Answered(pol, o, env)
      ensures ok && |calls| != 2 ==> o.provider == "" && o.providerRef == "" && o.err == ""
    {
      o := Outcome(OutcomeDeferred, j, "", "", "", 0, None, false);
      calls := [];
      if j.expiresAt <= env.dbAtStart {
        return o.(kind := OutcomeExpired, reason := Some(TtlPassed)), true, calls;
      }
      var picked := Pick(pol, j.attempts, env.pickedAt);
      if picked.None? {
        return o.(delayMs := openForMs), true, calls;
      }
      var p := picked.value;
      calls := [Grant(p)];
      GrantReplays(cfg, old(Views(breakers)), env, p);
      if env.budgetOk && env.dbBeforeSend >= j.deadline {
        return o, true, calls;
      }
      o, ok, calls := Send(pol, o, p, env);
      ReportReplays(cfg, old(Views(breakers)), env, p, calls[1].success, calls[1].counted);
      ResultShows(cfg, old(Views(breakers))[p], env.pickedAt, env.recordedAt, calls[1].success, calls[1].counted);
    }

    /** The outcome carries what the provider answered. */
    ghost predicate Answered(pol: Policy, o: Outcome, env: Surroundings)
      reads this
    {
      match env.result
      case Taken(ref) => o.providerRef == ref && o.err == ""
      case Refused(permanent, fault, text) =>
        && o.providerRef == "" && o.err == "provider " + o.provider + ": " + text
        && FollowsFailure(pol, o, permanent, env)
    }

    /** The budget wait and the send, with the result recorded on the provider's breaker. */
    method Send(pol: Policy, start: Outcome, p: nat, env: Surroundings)
      returns (o: Outcome, ok: bool, calls: seq<BreakerCall>)
      requires Valid() && p < |breakers| && start.job.attempts >= 0
      requires start == Outcome(OutcomeDeferred, start.job, "", "", "", 0, None, false)
      modifies breakers
      ensures Valid() && |calls| == 2 && calls[0] == Grant(p) && calls[1].Report? && calls[1].p == p
      ensures calls == [Grant(p)] + [Report(p, calls[1].success, calls[1].counted)]
      ensures calls[1].success <==> env.budgetOk && env.result.Taken?
      ensures calls[1].counted <==>
                env.budgetOk && env.result.Refused? && env.result.providerFault && !env.cancelled
      ensures !ok <==> !env.budgetOk || (env.result.Refused? && env.cancelled)
      ensures Views(breakers) ==
              old(Views(breakers))[p := Record(cfg, old(Views(breakers))[p], env.recordedAt, calls[1].success, calls[1].counted)]
      ensures ok ==> o.job == start.job && Decides(pol, o) && o.attempted && o.provider == names[p] && Answered(pol, o, env)
      ensures ok && o.kind.OutcomeSent? <==> env.budgetOk && env.result.Taken?
    {
      o, calls := start, [Grant(p)];
      if !env.budgetOk {
        calls := RecordAs(p, env, false, false, calls);
        return o, false, calls;
      }
      o := o.(provider := names[p], attempted := true);
      match env.result {
        case Taken(ref) =>
          calls := RecordAs(p, env, true, false, calls);
          return o.(kind := OutcomeSent, providerRef := ref), true, calls;
        case Refused(permanent, fault, text) =>
          calls := RecordAs(p, env, false, !env.cancelled && fault, calls);
          o := FailedOutcome(pol, o.(err := "provider " + names[p] + ": " + text), permanent, env);
          return o, !env.cancelled, calls;
      }
    }

    /** The outcome of a failed attempt. */
    method FailedOutcome(pol: Policy, o: Outcome, permanent: bool, env: Surroundings) returns (r: Outcome)
      requires o.job.attempts >= 0 && o.attempted && o.reason.None?
      ensures r == o.(kind := r.kind, reason := r.reason, delayMs := r.delayMs)
      ensures Decides(pol, r) && FollowsFailure(pol, r, permanent, env)
    {
      var attempts := o.job.attempts + 1;
      if permanent {
        return o.(kind := OutcomeFailed, reason := Some(Rejected));
      }
      if attempts >= pol.maxAttempts {
        return o.(kind := OutcomeFailed, reason := Some(AttemptsExhausted));
      }
      var delay := Backoffs.Backoff(pol.backoffBase, pol.backoffMax, attempts, env.draw);
      if env.dbAfterFailure * NANOS_PER_TICK + delay >= o.job.expiresAt * NANOS_PER_TICK {
        return o.(kind := OutcomeExpired, reason := Some(TtlPassed), delayMs := delay / NANOS_PER_MS);
      }
      return o.(kind := OutcomeRetry, delayMs := delay / NANOS_PER_MS);
    }
  }

  /** The time of the next attempt, in nanoseconds: the backoff after this attempt. */
  function NextAttempt(pol: Policy, o: Outcome, env: Surroundings): int
    requires o.job.attempts >= 0
  {
    env.dbAfterFailure * NANOS_PER_TICK
    + Backoffs.Backoff(pol.backoffBase, pol.backoffMax, o.job.attempts + 1, env.draw)
  }

  /**
   What a failed attempt leads to: rejection exactly for a permanent error,
   exhaustion exactly at the last attempt, a retry exactly when the next attempt
   still falls before the expiry, with its delay, and expiry otherwise.
   */
  ghost predicate FollowsFailure(pol: Policy, r: Outcome, permanent: bool, env: Surroundings)
  {
    && !r.kind.OutcomeSent? && !r.kind.OutcomeDeferred?
    && (r.reason == Some(Rejected) <==> permanent)
    && (r.reason == Some(AttemptsExhausted) <==> !permanent && r.job.attempts + 1 >= pol.maxAttempts)
    && (r.kind.OutcomeFailed? <==> r.reason == Some(Rejected) || r.reason == Some(AttemptsExhausted))
    && r.job.attempts >= 0
    && (r.kind.OutcomeRetry? <==>
          !permanent && r.job.attempts + 1 < pol.maxAttempts
          && NextAttempt(pol, r, env) < r.job.expiresAt * NANOS_PER_TICK)
    && (r.kind.OutcomeRetry? ==>
          r.delayMs == (NextAttempt(pol, r, env) - env.dbAfterFailure * NANOS_PER_TICK) / NANOS_PER_MS)
  }

  /** In ticks of the database clock, a retry waits for its backoff, less than a millisecond short of it. */
  lemma RetryWaitsItsBackoff(delay: int)
    ensures var ticks := delay / NANOS_PER_MS * MILLISECOND;
            delay - NANOS_PER_MS < ticks * NANOS_PER_TICK <= delay
  {
  }

  /** What an admitted request's result leaves of the breaker. */
  lemma ResultShows(cfg: Settings, b: Breaker, picked: Time, recorded: Time, success: bool, counted: bool)
    ensures var b' := Record(cfg, Allow(cfg, b, picked).1, recorded, success, counted);
            && (success ==> b'.state.Closed? && b'.failures == 0)
            && (!success && !counted ==> b'.failures == b.failures && b'.openedAt == b.openedAt)
  {
  }

  lemma GrantReplays(cfg: Settings, bs: seq<Breaker>, env: Surroundings, p: nat)
    requires p < |bs|
    ensures Replay(cfg, bs, env, [Grant(p)]) == bs[p := Allow(cfg, bs[p], env.pickedAt).1]
  {
    assert [Grant(p)][..0] == [];
  }

  lemma ReportReplays(cfg: Settings, bs: seq<Breaker>, env: Surroundings, p: nat, success: bool, counted: bool)
    requires p < |bs|
    ensures var granted := bs[p := Allow(cfg, bs[p], env.pickedAt).1];
            Replay(cfg, bs, env, [Grant(p)] + [Report(p, success, counted)]) ==
            granted[p := Record(cfg, granted[p], env.recordedAt, success, counted)]
  {
    GrantReplays(cfg, bs, env, p);
    assert ([Grant(p)] + [Report(p, success, counted)])[..1] == [Grant(p)];
  }

  /**
   The lease-expired return keeps the admission it took. If that admission was a
   half-open probe, the provider refuses every later request, however long it
   waits, until some other result is recorded.
   */
  lemma ExpiredLeaseStrandsProbe(cfg: Settings, bs: seq<Breaker>, env: Surroundings, p: nat, later: seq<Call>, i: nat)
    requires p < |bs| && Allow(cfg, bs[p], env.pickedAt).0 && Current(cfg, bs[p], env.pickedAt).state.HalfOpen?
    requires i < |later| && forall k | 0 <= k < i :: !later[k].RecordAt?
    ensures var after := Replay(cfg, bs, env, [Grant(p)]);
            ProbeOut(after[p]) && !Granted(cfg, after[p], later, i)
  {
    GrantReplays(cfg, bs, env, p);
    UnreportedProbeBlocksForever(cfg, bs[p := Allow(cfg, bs[p], env.pickedAt).1][p], later, i);
  }
}
