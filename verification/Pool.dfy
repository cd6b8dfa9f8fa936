/**
 The dispatch pool (internal/dispatch/pool.go) as a step system: the claim loop
 and the sends it started take their steps in any order.
 */
module Pools {
  import opened Tables
  import opened Remainders

  datatype Settings = Settings(concurrency: nat, lanes: nat)

  /** Where the claim loop is. `spare` slots are still to be given back; `jobs` are still to be started. */
  datatype Pc =
    | Top
    | WaitingForSlot
    | Sizing
    | Taking(taken: nat, want: nat)
    | Claiming(asked: nat)
    | Releasing(spare: nat, failed: bool, jobs: seq<JobKey>)
    | Starting(waiting: seq<JobKey>)
    | Stopped

  datatype ClaimResult = Empty | Failed | Jobs

  /** What the loop has done: a claim of a lane, or an idle wait. */
  datatype Entry = Claimed(lane: nat, result: ClaimResult) | Idled

  datatype State = State(
    slots: nat,
    sending: set<JobKey>,
    next: nat,
    emptyLanes: nat,
    pc: Pc,
    log: seq<Entry>,
    seen: set<JobKey>,
    outcomes: seq<JobKey>)

  datatype Action =
    | Proceed(usable: bool, cancelled: bool)
    | Acquire(cancelled: bool)
    | Size(want: int)
    | TakeMore
    | ClaimReturns(jobs: seq<JobKey>, failed: bool)
    | Release
    | StartNext
    | FinishSend(job: JobKey, submits: bool)

  function Init(): State { State(0, {}, 0, 0, Top, [], {}, []) }

  predicate Distinct<T(==)>(xs: seq<T>) { forall i, j | 0 <= i < j < |xs| :: xs[i] != xs[j] }

  /** A claim returns at most what was asked for; every job it returns is a new generation. */
  predicate Returnable(s: State, jobs: seq<JobKey>, failed: bool)
  {
    s.pc.Claiming? && |jobs| <= s.pc.asked && Distinct(jobs) && (forall j | j in jobs :: j !in s.seen)
    && (failed ==> jobs == [])
  }

  function ResultOf(jobs: seq<JobKey>, failed: bool): ClaimResult
  {
    if failed then ClaimResult.Failed else if jobs == [] then Empty else Jobs
  }

  /** The loop's decision once the unused slots are given back. */
  function Decide(cfg: Settings, s: State): State
    requires s.pc.Releasing?
  {
    if s.pc.failed then s.(pc := Top)
    else if s.pc.jobs == [] then
      (if s.emptyLanes + 1 >= cfg.lanes then s.(emptyLanes := 0, log := s.log + [Idled], pc := Top)
       else s.(emptyLanes := s.emptyLanes + 1, pc := Top))
    else s.(emptyLanes := 0, pc := Starting(s.pc.jobs))
  }

  /** One step; an action that is not possible changes nothing. */
  function Step(cfg: Settings, s: State, a: Action): State
  {
    match a
    case Proceed(usable, cancelled) =>
      if !s.pc.Top? then s
      else if cancelled then s.(pc := Stopped)
      else if usable then s.(pc := WaitingForSlot) else s
    case Acquire(cancelled) =>
      if !s.pc.WaitingForSlot? then s
      else if cancelled then s.(pc := Stopped)
      else if s.slots < cfg.concurrency then s.(slots := s.slots + 1, pc := Sizing) else s
    case Size(want) =>
      if !s.pc.Sizing? then s
      else if want < 1 then s.(slots := if s.slots > 0 then s.slots - 1 else 0, pc := Top)
      else s.(pc := Taking(1, want))
    case TakeMore =>
      if !s.pc.Taking? then s
      else if s.pc.taken < s.pc.want && s.slots < cfg.concurrency
      then s.(slots := s.slots + 1, pc := Taking(s.pc.taken + 1, s.pc.want))
      else s.(pc := Claiming(s.pc.taken))
    case ClaimReturns(jobs, failed) =>
      if !Returnable(s, jobs, failed) || cfg.lanes == 0 then s
      else s.(next := (s.next + 1) % cfg.lanes,
              log := s.log + [Claimed(s.next, ResultOf(jobs, failed))],
              seen := s.seen + (set j | j in jobs),
              pc := Releasing(s.pc.asked - |jobs|, failed, jobs))
    case Release =>
      if !s.pc.Releasing? then s
      else if s.pc.spare > 0
      then s.(slots := if s.slots > 0 then s.slots - 1 else 0, pc := s.pc.(spare := s.pc.spare - 1))
      else Decide(cfg, s)
    case StartNext =>
      if !s.pc.Starting? then s
      else if s.pc.waiting == [] then s.(pc := Top)
      else s.(sending := s.sending + {s.pc.waiting[0]}, pc := Starting(s.pc.waiting[1..]))
    case FinishSend(job, submits) =>
      if job !in s.sending then s
      else s.(sending := s.sending - {job},
              slots := if s.slots > 0 then s.slots - 1 else 0,
              outcomes := if submits then s.outcomes + [job] else s.outcomes)
  }

  function After(cfg: Settings, run: seq<Action>): State
  {
    if run == [] then Init() else Step(cfg, After(cfg, run[..|run| - 1]), run[|run| - 1])
  }

  // ---------------------------------------------------------------------------
  // Slots

  /** The slots held by the claim under way. */
  function Reserved(pc: Pc): nat
  {
    match pc
    case Sizing => 1
    case Taking(taken, want) => taken
    case Claiming(asked) => asked
    case Releasing(spare, failed, jobs) => spare + |jobs|
    case Starting(waiting) => |waiting|
    case _ => 0
  }

  /** Every token in the channel is a send in progress or held by the claim under way. */
  predicate SlotsAccounted(cfg: Settings, s: State)
  {
    && s.slots == |s.sending| + Reserved(s.pc) <= cfg.concurrency
    && (s.pc.Releasing? && s.pc.failed ==> s.pc.jobs == [])
  }

  /** The claimed jobs whose send has not started. */
  function Unstarted(pc: Pc): seq<JobKey>
  {
    if pc.Releasing? then pc.jobs else if pc.Starting? then pc.waiting else []
  }

  /** A job is waiting, being sent, or done, and only once. */
  ghost predicate JobsOnce(s: State)
  {
    && Distinct(Unstarted(s.pc)) && Distinct(s.outcomes)
    && (forall j | j in Unstarted(s.pc) :: j in s.seen && j !in s.sending && j !in s.outcomes)
    && (forall j | j in s.sending :: j in s.seen && j !in s.outcomes)
    && (forall j | j in s.outcomes :: j in s.seen)
  }

  lemma StartKeepsSlots(cfg: Settings, s: State)
    requires SlotsAccounted(cfg, s) && JobsOnce(s)
    ensures SlotsAccounted(cfg, Step(cfg, s, StartNext))
  {
    if s.pc.Starting? && s.pc.waiting != [] {
      assert s.pc.waiting[0] in Unstarted(s.pc);
      assert |s.sending + {s.pc.waiting[0]}| == |s.sending| + 1;
    }
  }

  lemma FinishKeepsSlots(cfg: Settings, s: State, job: JobKey, submits: bool)
    requires SlotsAccounted(cfg, s)
    ensures SlotsAccounted(cfg, Step(cfg, s, FinishSend(job, submits)))
  {
    if job in s.sending {
      assert |s.sending - {job}| == |s.sending| - 1;
    }
  }

  lemma StepKeepsSlots(cfg: Settings, s: State, a: Action)
    requires SlotsAccounted(cfg, s) && JobsOnce(s)
    ensures SlotsAccounted(cfg, Step(cfg, s, a))
  {
    if a.StartNext? {
      StartKeepsSlots(cfg, s);
    } else if a.FinishSend? {
      FinishKeepsSlots(cfg, s, a.job, a.submits);
    } else {
      assert Step(cfg, s, a).sending == s.sending;
    }
  }

  lemma StepKeepsJobsOnce(cfg: Settings, s: State, a: Action)
    requires JobsOnce(s)
    ensures JobsOnce(Step(cfg, s, a))
  {
    var s' := Step(cfg, s, a);
    if a.StartNext? && s.pc.Starting? && s.pc.waiting != [] {
      var j := s.pc.waiting[0];
      assert j in Unstarted(s.pc);
      assert forall k | k in s.pc.waiting[1..] :: k in s.pc.waiting && k != j;
    }
  }

  /**
   In every run: slot tokens equal the sends in progress plus the slots of the
   claim under way and never exceed the concurrency, so none leaks on an empty,
   short or failed claim; and no job produces two outcomes.
   */
  lemma {:induction false} SlotsAndOutcomes(cfg: Settings, run: seq<Action>)
    ensures SlotsAccounted(cfg, After(cfg, run)) && JobsOnce(After(cfg, run))
  {
    if run != [] {
      SlotsAndOutcomes(cfg, run[..|run| - 1]);
      StepKeepsSlots(cfg, After(cfg, run[..|run| - 1]), run[|run| - 1]);
      StepKeepsJobsOnce(cfg, After(cfg, run[..|run| - 1]), run[|run| - 1]);
    }
  }

  /** Outcomes are only added, each by the end of the send of its job. */
  lemma StepOutcomes(cfg: Settings, s: State, a: Action)
    ensures Step(cfg, s, a).outcomes ==
            s.outcomes + (if a.FinishSend? && a.submits && a.job in s.sending then [a.job] else [])
  {
  }

  lemma {:induction false} OutcomesStay(cfg: Settings, run: seq<Action>, more: seq<Action>)
    ensures After(cfg, run).outcomes <= After(cfg, run + more).outcomes
  {
    if more == [] {
      assert run + more == run;
    } else {
      var n := |more| - 1;
      OutcomesStay(cfg, run, more[..n]);
      assert run + more == run + more[..n] + [more[n]];
      AfterSnoc(cfg, run + more[..n], more[n]);
      StepOutcomes(cfg, After(cfg, run + more[..n]), more[n]);
    }
  }

  /** The outcome of a send that ends is handed over, at once and for good, unless shutdown cut the send off. */
  lemma FinishedSendIsSubmitted(cfg: Settings, run: seq<Action>, job: JobKey, submits: bool, more: seq<Action>)
    requires job in After(cfg, run).sending
    ensures job !in After(cfg, run).outcomes
    ensures submits ==> job in After(cfg, run + [FinishSend(job, submits)] + more).outcomes
    ensures !submits ==> After(cfg, run + [FinishSend(job, submits)]).outcomes == After(cfg, run).outcomes
  {
    SlotsAndOutcomes(cfg, run);
    AfterSnoc(cfg, run, FinishSend(job, submits));
    StepOutcomes(cfg, After(cfg, run), FinishSend(job, submits));
    OutcomesStay(cfg, run + [FinishSend(job, submits)], more);
    assert submits ==> After(cfg, run + [FinishSend(job, submits)]).outcomes[|After(cfg, run).outcomes|] == job;
  }

  /** The send of the job has ended. */
  ghost predicate Ended(cfg: Settings, run: seq<Action>, job: JobKey)
  {
    exists k :: 0 <= k < |run| && run[k].FinishSend? && run[k].job == job && job in After(cfg, run[..k]).sending
  }

  lemma EndedStays(cfg: Settings, run: seq<Action>, a: Action, job: JobKey)
    requires Ended(cfg, run, job)
    ensures Ended(cfg, run + [a], job)
  {
    var k :| 0 <= k < |run| && run[k].FinishSend? && run[k].job == job && job in After(cfg, run[..k]).sending;
    assert (run + [a])[k] == run[k] && (run + [a])[..k] == run[..k];
  }

  /** Where a claimed job can be after one more step. */
  lemma StepMovesJobs(cfg: Settings, s: State, a: Action, job: JobKey)
    requires JobsOnce(s) && (job in s.seen ==> job in Unstarted(s.pc) || job in s.sending)
    requires s.pc.Releasing? && s.pc.failed ==> s.pc.jobs == []
    ensures var s' := Step(cfg, s, a);
            job in s'.seen ==>
              job in Unstarted(s'.pc) || job in s'.sending || (a.FinishSend? && a.job == job && job in s.sending)
  {
    if a.ClaimReturns? && Returnable(s, a.jobs, a.failed) && cfg.lanes > 0 {
      assert Unstarted(s.pc) == [];
    } else if a.StartNext? && s.pc.Starting? && s.pc.waiting != [] {
      assert s.pc.waiting == [s.pc.waiting[0]] + s.pc.waiting[1..];
    }
  }

  /** No claimed job is lost: it waits for its send, is being sent, or its send has ended. */
  lemma {:induction false} NoJobIsDropped(cfg: Settings, run: seq<Action>, job: JobKey)
    ensures job in After(cfg, run).seen ==>
              job in Unstarted(After(cfg, run).pc) || job in After(cfg, run).sending || Ended(cfg, run, job)
  {
    if run != [] {
      var init, a := run[..|run| - 1], run[|run| - 1];
      NoJobIsDropped(cfg, init, job);
      assert run == init + [a];
      if Ended(cfg, init, job) {
        EndedStays(cfg, init, a, job);
      } else {
        SlotsAndOutcomes(cfg, init);
        StepMovesJobs(cfg, After(cfg, init), a, job);
        assert run[..|run| - 1] == init;
      }
    }
  }

  // ---------------------------------------------------------------------------
  // Before a claim

  /** The loop is on its way from the top to a claim. */
  predicate Preparing(pc: Pc) { pc.WaitingForSlot? || pc.Sizing? || pc.Taking? || pc.Claiming? }

  /** At step k the loop stood at the top and was told that a provider is usable, and it has not been there since. */
  ghost predicate Checked(cfg: Settings, run: seq<Action>, k: nat)
  {
    && k < |run| && run[k] == Proceed(true, false) && After(cfg, run[..k]).pc.Top?
    && forall j | k < j <= |run| :: !After(cfg, run[..j]).pc.Top?
  }

  /** The pool prepares a claim only after a check in the same round that found a usable provider. */
  lemma {:induction false} ClaimsFollowTheCheck(cfg: Settings, run: seq<Action>) returns (k: nat)
    requires Preparing(After(cfg, run).pc)
    ensures Checked(cfg, run, k)
  {
    var n := |run| - 1;
    var init, a := run[..n], run[n];
    StepPrepares(cfg, After(cfg, init), a);
    assert run[..n + 1] == run;
    if After(cfg, init).pc.Top? {
      k := n;
    } else {
      k := ClaimsFollowTheCheck(cfg, init);
      forall j | k < j <= n ensures !After(cfg, run[..j]).pc.Top? {
        assert init[..j] == run[..j];
      }
      assert init[..k] == run[..k];
    }
  }

  lemma StepPrepares(cfg: Settings, s: State, a: Action)
    ensures Preparing(Step(cfg, s, a).pc) ==> Preparing(s.pc) || (s.pc.Top? && a == Proceed(true, false))
  {
  }

  /**
   The loop goes from taking slots to its claim exactly when it has what it wants
   or no slot is free, and asks for what it took.
   */
  lemma ClaimsAskForFreeSlots(cfg: Settings, run: seq<Action>)
    requires After(cfg, run).pc.Taking?
    ensures var s := After(cfg, run);
            && 1 <= s.pc.taken <= s.pc.want
            && var s' := Step(cfg, s, TakeMore);
               if s.pc.taken == s.pc.want || s.slots == cfg.concurrency then s' == s.(pc := Claiming(s.pc.taken))
               else s' == s.(slots := s.slots + 1, pc := Taking(s.pc.taken + 1, s.pc.want))
  {
    SlotsAndOutcomes(cfg, run);
    TakingWithinWant(cfg, run);
  }

  lemma {:induction false} TakingWithinWant(cfg: Settings, run: seq<Action>)
    ensures var pc := After(cfg, run).pc; pc.Taking? ==> 1 <= pc.taken <= pc.want
  {
    if run != [] {
      TakingWithinWant(cfg, run[..|run| - 1]);
    }
  }

  /** Told to stop, at the top or while waiting for a slot, the pool claims nothing more, whatever happens. */
  lemma {:induction false} StoppedPoolClaimsNothing(cfg: Settings, run: seq<Action>, stop: Action, more: seq<Action>)
    requires var pc := After(cfg, run).pc;
             (pc.Top? && stop.Proceed? && stop.cancelled) || (pc.WaitingForSlot? && stop.Acquire? && stop.cancelled)
    ensures var s := After(cfg, run + [stop] + more);
            s.pc.Stopped? && s.log == After(cfg, run).log && s.seen == After(cfg, run).seen
  {
    if more == [] {
      assert run + [stop] + more == run + [stop];
      AfterSnoc(cfg, run, stop);
    } else {
      var n := |more| - 1;
      StoppedPoolClaimsNothing(cfg, run, stop, more[..n]);
      assert run + [stop] + more == run + [stop] + more[..n] + [more[n]];
      AfterSnoc(cfg, run + [stop] + more[..n], more[n]);
    }
  }

  // ---------------------------------------------------------------------------
  // Rotation

  /** The lanes claimed so far, in order. */
  function LanesClaimed(log: seq<Entry>): seq<nat>
  {
    if log == [] then []
    else LanesClaimed(log[..|log| - 1]) + (if log[|log| - 1].Claimed? then [log[|log| - 1].lane] else [])
  }

  /** The k-th claim is of lane k modulo n, and the next one follows on. */
  ghost predicate Rotates(n: nat, next: nat, log: seq<Entry>)
  {
    && n > 0 && next == |LanesClaimed(log)| % n
    && forall k | 0 <= k < |LanesClaimed(log)| :: LanesClaimed(log)[k] == k % n
  }

  ghost predicate RoundRobin(cfg: Settings, s: State) { Rotates(cfg.lanes, s.next, s.log) }

  lemma LogSnoc(log: seq<Entry>, e: Entry)
    ensures LanesClaimed(log + [e]) == LanesClaimed(log) + (if e.Claimed? then [e.lane] else [])
  {
    assert (log + [e])[..|log|] == log;
  }

  /** A claim of the lane at `next` extends the rotation. */
  lemma ClaimKeepsRotation(n: nat, next: nat, log: seq<Entry>, result: ClaimResult)
    requires Rotates(n, next, log)
    ensures Rotates(n, (next + 1) % n, log + [Claimed(next, result)])
  {
    var lanes := LanesClaimed(log);
    LogSnoc(log, Claimed(next, result));
    NextResidue(|lanes|, n);
    forall k | 0 <= k < |lanes| + 1 ensures (lanes + [next])[k] == k % n {
    }
  }

  /** What a step adds to the log: nothing, an idle wait, or a claim of the next lane. */
  lemma StepLogs(cfg: Settings, s: State, a: Action)
    ensures var s' := Step(cfg, s, a);
            || (s'.log == s.log && s'.next == s.next)
            || (s'.log == s.log + [Idled] && s'.next == s.next)
            || (a.ClaimReturns? && cfg.lanes > 0 && s'.next == (s.next + 1) % cfg.lanes
                && s'.log == s.log + [Claimed(s.next, ResultOf(a.jobs, a.failed))])
  {
  }

  lemma StepKeepsRotation(cfg: Settings, s: State, a: Action)
    requires RoundRobin(cfg, s)
    ensures RoundRobin(cfg, Step(cfg, s, a))
  {
    StepLogs(cfg, s, a);
    LogSnoc(s.log, Idled);
    if a.ClaimReturns? {
      ClaimKeepsRotation(cfg.lanes, s.next, s.log, ResultOf(a.jobs, a.failed));
    }
  }

  lemma {:induction false} RoundRobinHolds(cfg: Settings, run: seq<Action>)
    requires cfg.lanes > 0
    ensures RoundRobin(cfg, After(cfg, run))
  {
    if run != [] {
      RoundRobinHolds(cfg, run[..|run| - 1]);
      StepKeepsRotation(cfg, After(cfg, run[..|run| - 1]), run[|run| - 1]);
    }
  }

  lemma DistinctResidues(a: nat, i: nat, j: nat, n: nat)
    requires i < j < n
    ensures (a + i) % n != (a + j) % n
  {
    ResidueOf(a, i, n);
    ResidueOf(a, j, n);
  }

  lemma ResidueReached(a: nat, l: nat, n: nat) returns (i: nat)
    requires l < n
    ensures i < n && (a + i) % n == l
  {
    var r := a % n;
    i := if l >= r then l - r else l + n - r;
    ResidueOf(a, i, n);
  }

  /**
   Between two successive claims of a lane, every other lane is claimed exactly
   once, whatever the claims returned.
   */
  lemma EveryOtherLaneOnce(cfg: Settings, run: seq<Action>, i: nat, l: nat) returns (k: nat)
    requires cfg.lanes > 0 && l < cfg.lanes
    requires i + cfg.lanes < |LanesClaimed(After(cfg, run).log)|
    requires l != LanesClaimed(After(cfg, run).log)[i]
    ensures LanesClaimed(After(cfg, run).log)[i + cfg.lanes] == LanesClaimed(After(cfg, run).log)[i]
    ensures i < k < i + cfg.lanes && LanesClaimed(After(cfg, run).log)[k] == l
    ensures forall j | i <= j < i + cfg.lanes && j != k :: LanesClaimed(After(cfg, run).log)[j] != l
  {
    RoundRobinHolds(cfg, run);
    var d := ResidueReached(i, l, cfg.lanes);
    k := i + d;
    ResidueOf(i, cfg.lanes, cfg.lanes);
    assert i + 0 == i;
    forall j | i <= j < i + cfg.lanes && j != k ensures LanesClaimed(After(cfg, run).log)[j] != l {
      if j < k {
        DistinctResidues(i, j - i, d, cfg.lanes);
      } else {
        DistinctResidues(i, d, j - i, cfg.lanes);
      }
    }
  }

  // ---------------------------------------------------------------------------
  // Idling

  /** A non-empty claim or an idle wait starts the count of empty lanes afresh. */
  predicate Resets(e: Entry) { e.Idled? || e.result.Jobs? }

  /** The lanes that came back empty since the last reset. */
  function Empties(log: seq<Entry>): seq<nat>
  {
    if log == [] then []
    else
      var e := log[|log| - 1];
      if Resets(e) then []
      else Empties(log[..|log| - 1]) + (if e.result.Empty? then [e.lane] else [])
  }

  /** The lanes whose claim failed since the last reset. */
  function Failures(log: seq<Entry>): seq<nat>
  {
    if log == [] then []
    else
      var e := log[|log| - 1];
      if Resets(e) then []
      else Failures(log[..|log| - 1]) + (if e.result.Failed? then [e.lane] else [])
  }

  predicate EmptyCount(cfg: Settings, s: State)
  {
    && s.emptyLanes < cfg.lanes
    && match s.pc
       case Releasing(spare, failed, jobs) =>
         if failed then s.emptyLanes == |Empties(s.log)|
         else if jobs == [] then s.emptyLanes + 1 == |Empties(s.log)|
         else true
       case _ => s.emptyLanes == |Empties(s.log)|
  }

  lemma EmptiesSnoc(log: seq<Entry>, e: Entry)
    ensures Empties(log + [e]) == if Resets(e) then [] else Empties(log) + (if e.result.Empty? then [e.lane] else [])
    ensures Failures(log + [e]) == if Resets(e) then [] else Failures(log) + (if e.result.Failed? then [e.lane] else [])
  {
    assert (log + [e])[..|log|] == log;
  }

  /** The loop resets its own count exactly where the log does. */
  lemma StepKeepsEmptyCount(cfg: Settings, s: State, a: Action)
    requires EmptyCount(cfg, s) && (s.pc.Releasing? && s.pc.jobs != [] && !s.pc.failed ==> Empties(s.log) == [])
    ensures EmptyCount(cfg, Step(cfg, s, a))
    ensures var s' := Step(cfg, s, a);
            s'.pc.Releasing? && s'.pc.jobs != [] && !s'.pc.failed ==> Empties(s'.log) == []
  {
    if a.ClaimReturns? && Returnable(s, a.jobs, a.failed) && cfg.lanes > 0 {
      EmptiesSnoc(s.log, Claimed(s.next, ResultOf(a.jobs, a.failed)));
    } else if a.Release? && s.pc.Releasing? && s.pc.spare == 0 {
      EmptiesSnoc(s.log, Idled);
    }
  }

  lemma {:induction false} EmptyCountHolds(cfg: Settings, run: seq<Action>)
    requires cfg.lanes > 0
    ensures EmptyCount(cfg, After(cfg, run))
    ensures var s := After(cfg, run);
            s.pc.Releasing? && s.pc.jobs != [] && !s.pc.failed ==> Empties(s.log) == []
  {
    if run != [] {
      EmptyCountHolds(cfg, run[..|run| - 1]);
      StepKeepsEmptyCount(cfg, After(cfg, run[..|run| - 1]), run[|run| - 1]);
    }
  }

  /** Every claim since the last reset came back empty or failed. */
  lemma {:induction false} EmptyOrFailed(log: seq<Entry>)
    ensures |Empties(log)| + |Failures(log)| <= |LanesClaimed(log)|
    ensures forall k | |LanesClaimed(log)| - |Empties(log)| - |Failures(log)| <= k < |LanesClaimed(log)| ::
              LanesClaimed(log)[k] in Empties(log) || LanesClaimed(log)[k] in Failures(log)
  {
    if log != [] && !Resets(log[|log| - 1]) {
      var init, e := log[..|log| - 1], log[|log| - 1];
      assert log == init + [e];
      EmptyOrFailed(init);
      LogSnoc(init, e);
      EmptiesSnoc(init, e);
    }
  }

  /** As many claims as lanes reach every lane, so each lane came back empty or failed. */
  lemma EveryLaneEmptyOrFailed(n: nat, next: nat, log: seq<Entry>, lane: nat)
    requires Rotates(n, next, log) && lane < n <= |Empties(log)|
    ensures lane in Empties(log) || lane in Failures(log)
  {
    EmptyOrFailed(log);
    var d := ResidueReached(|LanesClaimed(log)| - n, lane, n);
    var k := |LanesClaimed(log)| - n + d;
    assert LanesClaimed(log)[k] == k % n == lane;
  }

  /**
   The pool idles exactly when as many claims as there are lanes came back empty
   since the last reset. Every lane is then among them exactly when every lane
   whose claim failed in between also came back empty; in particular when no
   claim failed.
   */
  lemma IdleMeansAllLanesEmpty(cfg: Settings, run: seq<Action>)
    requires cfg.lanes > 0
    requires var s := After(cfg, run); s.pc.Releasing? && s.pc.spare == 0 && !s.pc.failed && s.pc.jobs == []
    ensures var s := After(cfg, run);
            && (Step(cfg, s, Release).log == s.log + [Idled] <==> |Empties(s.log)| == cfg.lanes)
            && (|Empties(s.log)| == cfg.lanes ==>
                  ((forall l: nat | l < cfg.lanes :: l in Empties(s.log)) <==>
                   (forall l | l in Failures(s.log) :: l in Empties(s.log))))
  {
    var s := After(cfg, run);
    EmptyCountHolds(cfg, run);
    RoundRobinHolds(cfg, run);
    LanesInRangeHolds(cfg, run);
    FailuresAreLanes(cfg.lanes, s.log);
    if |Empties(s.log)| == cfg.lanes {
      forall l: nat | l < cfg.lanes ensures l in Empties(s.log) || l in Failures(s.log) {
        EveryLaneEmptyOrFailed(cfg.lanes, s.next, s.log, l);
      }
    }
  }

  lemma {:induction false} FailuresAreLanes(n: nat, log: seq<Entry>)
    requires forall e | e in log && e.Claimed? :: e.lane < n
    ensures forall l | l in Failures(log) :: l < n
  {
    if log != [] {
      FailuresAreLanes(n, log[..|log| - 1]);
    }
  }

  ghost predicate LanesInRange(cfg: Settings, s: State)
  {
    s.next < cfg.lanes && forall e | e in s.log && e.Claimed? :: e.lane < cfg.lanes
  }

  lemma {:induction false} LanesInRangeHolds(cfg: Settings, run: seq<Action>)
    requires cfg.lanes > 0
    ensures LanesInRange(cfg, After(cfg, run))
  {
    if run != [] {
      LanesInRangeHolds(cfg, run[..|run| - 1]);
      StepLogs(cfg, After(cfg, run[..|run| - 1]), run[|run| - 1]);
    }
  }

  lemma AfterSnoc(cfg: Settings, run: seq<Action>, a: Action)
    ensures After(cfg, run + [a]) == Step(cfg, After(cfg, run), a)
  {
    assert (run + [a])[..|run|] == run;
  }

  /** One pass of the loop that claims one slot's worth and gets no job, up to its decision. */
  lemma EmptyPass(cfg: Settings, run: seq<Action>, failed: bool) returns (longer: seq<Action>)
    requires var s := After(cfg, run); s.pc.Top? && s.slots < cfg.concurrency && cfg.lanes > 0
    ensures var s := After(cfg, run);
            After(cfg, longer) == s.(next := (s.next + 1) % cfg.lanes,
                                     log := s.log + [Claimed(s.next, ResultOf([], failed))],
                                     pc := Releasing(0, failed, []))
  {
    var s := After(cfg, run);
    var r4 := ReadyToClaim(cfg, run);
    AfterSnoc(cfg, r4, ClaimReturns([], failed));
    var r5 := r4 + [ClaimReturns([], failed)];
    assert s.seen + (set j: JobKey | j in []) == s.seen;
    AfterSnoc(cfg, r5, Release);
    longer := r5 + [Release];
  }

  /** A pass up to its claim, for one slot. */
  lemma ReadyToClaim(cfg: Settings, run: seq<Action>) returns (longer: seq<Action>)
    requires var s := After(cfg, run); s.pc.Top? && s.slots < cfg.concurrency
    ensures var s := After(cfg, run); After(cfg, longer) == s.(slots := s.slots + 1, pc := Claiming(1))
  {
    AfterSnoc(cfg, run, Proceed(true, false));
    var r1 := run + [Proceed(true, false)];
    AfterSnoc(cfg, r1, Acquire(false));
    var r2 := r1 + [Acquire(false)];
    AfterSnoc(cfg, r2, Size(1));
    var r3 := r2 + [Size(1)];
    AfterSnoc(cfg, r3, TakeMore);
    longer := r3 + [TakeMore];
  }

  /** The same pass with its decision, when that is not to idle. */
  lemma EmptyPassDecided(cfg: Settings, run: seq<Action>, failed: bool) returns (longer: seq<Action>)
    requires var s := After(cfg, run);
             s.pc.Top? && s.slots < cfg.concurrency && (failed || s.emptyLanes + 1 < cfg.lanes) && cfg.lanes > 0
    ensures var s := After(cfg, run);
            After(cfg, longer) == s.(next := (s.next + 1) % cfg.lanes,
                                     log := s.log + [Claimed(s.next, ResultOf([], failed))],
                                     emptyLanes := if failed then s.emptyLanes else s.emptyLanes + 1)
  {
    var r := EmptyPass(cfg, run, failed);
    AfterSnoc(cfg, r, Release);
    longer := r + [Release];
  }

  /**
   A failed claim can hide a lane: with two lanes, a run in which lane 0 comes
   back empty, lane 1 fails and lane 0 comes back empty again idles without
   lane 1 having come back empty.
   */
  lemma FailedClaimHidesLane() returns (run: seq<Action>)
    ensures var s := After(Settings(1, 2), run);
            && s.pc.Releasing? && s.pc.spare == 0 && !s.pc.failed && s.pc.jobs == []
            && Step(Settings(1, 2), s, Release).log == s.log + [Idled]
            && 1 !in Empties(s.log)
  {
    var cfg := Settings(1, 2);
    var e, f := Claimed(0, Empty), Claimed(1, ClaimResult.Failed);
    var r0 := EmptyPassDecided(cfg, [], false);
    assert After(cfg, r0) == State(0, {}, 1, 1, Top, [] + [e], {}, []);
    var r1 := EmptyPassDecided(cfg, r0, true);
    assert After(cfg, r1) == State(0, {}, 0, 1, Top, [] + [e] + [f], {}, []);
    run := EmptyPass(cfg, r1, false);
    var log := [] + [e] + [f] + [e];
    assert After(cfg, run) == State(0, {}, 1, 1, Releasing(0, false, []), log, {}, []);
    LaneHidden(e, f);
  }

  lemma LaneHidden(e: Entry, f: Entry)
    requires e == Claimed(0, Empty) && f == Claimed(1, ClaimResult.Failed)
    ensures Empties([] + [e] + [f] + [e]) == [0, 0]
  {
    EmptiesSnoc([], e);
    EmptiesSnoc([] + [e], f);
    EmptiesSnoc([] + [e] + [f], e);
  }
}
