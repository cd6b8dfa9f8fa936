/**
 How large a batch of delivery reports can get (internal/dlr/batcher.go): at most
 the configured size before shutdown, and exactly when also after it.
 */
module Drains {
  import opened Tables
  import opened Reports
  import opened Batchers

  // ---------------------------------------------------------------------------
  // Before shutdown

  predicate Within(size: nat, cs: seq<Commit>) { forall c | c in cs :: |c.batch| <= size }

  /** Every batch holds at most `size` reports until shutdown begins. */
  predicate SizesOk(size: nat, s: State)
  {
    Stopped(s.phase) || (Within(size, s.commits) && |s.batch| <= size && (s.phase.Collecting? ==> |s.batch| < size))
  }

  lemma StepKeepsSizes(size: nat, s: State, a: Action)
    requires size > 0 && SizesOk(size, s)
    ensures SizesOk(size, Step(size, s, a))
    ensures !Stopped(s.phase) && Stopped(Step(size, s, a).phase) ==>
              s.phase.Collecting? && a.Shutdown? && Step(size, s, a) == s.(phase := Draining)
  {
  }

  /** The documented bound on a batch holds of every commit made before shutdown began. */
  lemma {:induction false} BatchesAreBounded(size: nat, messages: map<Id, Message>, run: seq<Action>)
    requires size > 0
    ensures SizesOk(size, After(size, messages, run))
  {
    if run != [] {
      BatchesAreBounded(size, messages, run[..|run| - 1]);
      StepKeepsSizes(size, After(size, messages, run[..|run| - 1]), run[|run| - 1]);
    }
  }

  // ---------------------------------------------------------------------------
  // The drain

  /** The reports that Run holds or will find waiting. */
  function Load(s: State): nat { |s.batch| + |s.inbox| }

  /** The callers past the first check that have not yet queued their report. */
  function Undecided(s: State): set<Caller> { set c | c in s.clients && s.clients[c].Checked? }

  /** The reports queued since `a`. */
  function Joined(a: State, t: State): int { |t.queued| - |a.queued| }

  /** `t` is a state of the drain that shutdown began in `a`. */
  predicate Drains(a: State, t: State)
  {
    && t.phase.Draining? && t.commits == a.commits
    && Load(t) == Load(a) + Joined(a, t)
    && Joined(a, t) + |Undecided(t)| <= |Undecided(a)|
  }

  /** Run has gone past the drain, which ended in `d`: what was drained is the final batch, if anything was. */
  predicate PastDrain(a: State, d: State, u: State)
  {
    match u.phase
    case Flushing(final) => final && u.batch == d.batch != [] && u.commits == a.commits
    case Delivering(final, _) => final && d.batch != [] && Flushed(a, d, u)
    case Finished => if d.batch == [] then u.commits == a.commits else Flushed(a, d, u)
    case _ => false
  }

  /** The final batch was given to Apply. */
  predicate Flushed(a: State, d: State, u: State)
  {
    |u.commits| == |a.commits| + 1 && u.commits[..|a.commits|] == a.commits && u.commits[|a.commits|].batch == d.batch
  }

  lemma UndecidedLess(s: State, c: Caller, k: Client)
    requires !k.Checked?
    ensures Undecided(s.(clients := s.clients[c := k])) == Undecided(s) - {c}
    ensures |Undecided(s) - {c}| == |Undecided(s)| - (if Is(s, c, Checked) then 1 else 0)
  {
    var s' := s.(clients := s.clients[c := k]);
    assert forall d :: d in Undecided(s') <==> d in Undecided(s) - {c};
    if !Is(s, c, Checked) {
      assert Undecided(s) - {c} == Undecided(s);
    }
  }

  /** While Run drains, a caller can only move on: queue its report or return. */
  lemma CallersDuringDrain(size: nat, s: State, op: Action)
    requires s.phase.Draining?
    ensures var s' := CallerStep(size, s, op);
            && s'.phase == s.phase && s'.commits == s.commits && s'.batch == s.batch && |s'.queued| >= |s.queued|
            && |s'.inbox| == |s.inbox| + |s'.queued| - |s.queued|
            && |s'.queued| - |s.queued| + |Undecided(s')| <= |Undecided(s)|
  {
    var s' := CallerStep(size, s, op);
    if s' != s {
      var c := op.caller;
      UndecidedLess(s, c, s'.clients[c]);
      assert s'.clients == s.clients[c := s'.clients[c]];
      assert Undecided(s') == Undecided(s.(clients := s'.clients));
    }
  }

  lemma DrainStep(size: nat, a: State, t: State, op: Action)
    requires Drains(a, t)
    ensures var t' := Step(size, t, op);
            if t'.phase.Draining? then Drains(a, t') else op.Receive? && t.inbox == [] && PastDrain(a, t, t')
  {
    var t' := Step(size, t, op);
    if op.OtherTransaction? {
      assert Undecided(t') == Undecided(t);
    } else if op.Receive? || op.Tick? || op.Shutdown? || op.Apply? || op.Deliver? {
      assert t'.clients == t.clients && t'.queued == t.queued;
      assert Undecided(t') == Undecided(t);
    } else {
      CallersDuringDrain(size, t, op);
    }
  }

  lemma PastDrainStep(size: nat, a: State, d: State, u: State, op: Action)
    requires PastDrain(a, d, u)
    ensures PastDrain(a, d, Step(size, u, op))
  {
    var u' := Step(size, u, op);
    if op.Apply? && u.phase.Flushing? {
      assert u'.commits[..|a.commits|] == a.commits;
    } else {
      assert u'.commits == u.commits;
    }
  }

  /** The run in which shutdown begins after `before`. */
  function Ending(before: seq<Action>, more: seq<Action>): seq<Action> { before + [Shutdown] + more }

  lemma EndingSnoc(size: nat, messages: map<Id, Message>, before: seq<Action>, more: seq<Action>)
    requires more != []
    ensures After(size, messages, Ending(before, more)) ==
            Step(size, After(size, messages, Ending(before, more[..|more| - 1])), more[|more| - 1])
  {
    var run := Ending(before, more);
    assert run[..|run| - 1] == Ending(before, more[..|more| - 1]);
  }

  /**
   After shutdown Run drains until it finds its inbox empty, at call j; what it
   held when shutdown began and what callers queued since is then its final batch.
   */
  lemma {:induction false} DrainOf(size: nat, messages: map<Id, Message>, before: seq<Action>, more: seq<Action>)
    returns (j: nat)
    requires After(size, messages, before).phase.Collecting?
    ensures var a, u := After(size, messages, before), After(size, messages, Ending(before, more));
            if u.phase.Draining? then Drains(a, u)
            else && j < |more| && more[j].Receive?
                 && var d := After(size, messages, Ending(before, more[..j]));
                    Drains(a, d) && d.inbox == [] && PastDrain(a, d, u)
  {
    var a := After(size, messages, before);
    if more == [] {
      assert Ending(before, more) == before + [Shutdown];
      AfterSnoc(size, messages, before, Shutdown);
      assert Undecided(a.(phase := Draining)) == Undecided(a);
      j := 0;
    } else {
      var n := |more| - 1;
      EndingSnoc(size, messages, before, more);
      j := DrainOf(size, messages, before, more[..n]);
      var p := After(size, messages, Ending(before, more[..n]));
      if p.phase.Draining? {
        DrainStep(size, a, p, more[n]);
        j := n;
      } else {
        assert more[..n][..j] == more[..j];
        PastDrainStep(size, a, After(size, messages, Ending(before, more[..j])), p, more[n]);
      }
    }
  }

  /**
   The final batch holds exactly what Run held when shutdown began plus the
   reports queued until the drain found the inbox empty, so it exceeds the
   configured size exactly when that sum does. Every other batch is within it.
   */
  lemma FinalBatchSize(size: nat, messages: map<Id, Message>, before: seq<Action>, more: seq<Action>)
    returns (j: nat)
    requires size > 0 && After(size, messages, before).phase.Collecting?
    requires !After(size, messages, Ending(before, more)).phase.Draining?
    ensures j < |more|
    ensures var a, u := After(size, messages, before), After(size, messages, Ending(before, more));
            var d := After(size, messages, Ending(before, more[..j]));
            && Within(size, a.commits) && |d.batch| == Load(a) + Joined(a, d)
            && (u.commits == a.commits || (Flushed(a, d, u) && (Within(size, u.commits) <==> Load(a) + Joined(a, d) <= size)))
            && (u.phase.Finished? && d.batch != [] ==> Flushed(a, d, u))
  {
    var a, u := After(size, messages, before), After(size, messages, Ending(before, more));
    BatchesAreBounded(size, messages, before);
    j := DrainOf(size, messages, before, more);
    DrainedSize(size, a, After(size, messages, Ending(before, more[..j])), u);
  }

  lemma DrainedSize(size: nat, a: State, d: State, u: State)
    requires Within(size, a.commits) && Drains(a, d) && d.inbox == [] && PastDrain(a, d, u)
    ensures |d.batch| == Load(a) + Joined(a, d)
    ensures u.commits == a.commits || (Flushed(a, d, u) && (Within(size, u.commits) <==> Load(a) + Joined(a, d) <= size))
    ensures u.phase.Finished? && d.batch != [] ==> Flushed(a, d, u)
  {
    if u.commits != a.commits {
      LastDecides(size, a.commits, u.commits);
    }
  }

  lemma LastDecides(size: nat, cs: seq<Commit>, longer: seq<Commit>)
    requires |longer| == |cs| + 1 && longer[..|cs|] == cs && Within(size, cs)
    ensures Within(size, longer) <==> |longer[|cs|].batch| <= size
  {
    assert longer == longer[..|cs|] + [longer[|cs|]];
  }

  // ---------------------------------------------------------------------------
  // What can be checked when shutdown begins

  /** A drain in which every undecided caller queues its report and Run takes it. */
  lemma {:induction false} EveryoneJoins(size: nat, messages: map<Id, Message>, run: seq<Action>, r: Report)
    returns (longer: seq<Action>)
    requires size > 0 && After(size, messages, run).phase.Draining?
    ensures run <= longer
    ensures var t, t' := After(size, messages, run), After(size, messages, longer);
            t'.phase.Draining? && t'.inbox == [] && |t'.batch| == Load(t) + |Undecided(t)|
    decreases |Undecided(After(size, messages, run))|, |After(size, messages, run).inbox|
  {
    var t := After(size, messages, run);
    if t.inbox != [] {
      AfterSnoc(size, messages, run, Receive);
      assert Undecided(Step(size, t, Receive)) == Undecided(t);
      longer := EveryoneJoins(size, messages, run + [Receive], r);
    } else if c :| c in Undecided(t) {
      AfterSnoc(size, messages, run, Enqueue(c, r));
      UndecidedLess(t, c, Waiting);
      assert Undecided(Step(size, t, Enqueue(c, r))) == Undecided(t.(clients := t.clients[c := Waiting]));
      longer := EveryoneJoins(size, messages, run + [Enqueue(c, r)], r);
    } else {
      longer := run;
      assert Undecided(t) == {};
    }
  }

  /** The drain flushes what it took. */
  lemma DrainEnds(size: nat, messages: map<Id, Message>, run: seq<Action>) returns (longer: seq<Action>)
    requires var t := After(size, messages, run); t.phase.Draining? && t.inbox == [] && t.batch != []
    ensures run <= longer
    ensures var t, u := After(size, messages, run), After(size, messages, longer);
            u.commits == t.commits + [Commit(t.batch, t.messages, 0, true)]
  {
    AfterSnoc(size, messages, run, Receive);
    var flushing := run + [Receive];
    AfterSnoc(size, messages, flushing, Apply(0, true));
    longer := flushing + [Apply(0, true)];
  }

  /** Whatever happens after shutdown, no batch exceeds the configured size. */
  ghost predicate StaysWithin(size: nat, messages: map<Id, Message>, before: seq<Action>)
  {
    forall more :: Within(size, After(size, messages, Ending(before, more)).commits)
  }

  lemma SmallShutdownStaysWithin(size: nat, messages: map<Id, Message>, before: seq<Action>, more: seq<Action>)
    requires size > 0 && After(size, messages, before).phase.Collecting?
    requires var a := After(size, messages, before); Load(a) + |Undecided(a)| <= size
    ensures Within(size, After(size, messages, Ending(before, more)).commits)
  {
    var a, u := After(size, messages, before), After(size, messages, Ending(before, more));
    assert Within(size, a.commits) by { BatchesAreBounded(size, messages, before); }
    var j := DrainOf(size, messages, before, more);
    if !u.phase.Draining? {
      DrainedSize(size, a, After(size, messages, Ending(before, more[..j])), u);
    }
  }

  /** If the callers past the check could overfill the batch, some continuation does. */
  lemma LargeShutdownCanExceed(size: nat, messages: map<Id, Message>, before: seq<Action>, r: Report)
    returns (more: seq<Action>)
    requires size > 0 && After(size, messages, before).phase.Collecting?
    requires var a := After(size, messages, before); Load(a) + |Undecided(a)| > size
    ensures !Within(size, After(size, messages, Ending(before, more)).commits)
  {
    var a := After(size, messages, before);
    var run := Ending(before, []);
    assert run == before + [Shutdown];
    AfterSnoc(size, messages, before, Shutdown);
    assert Undecided(After(size, messages, run)) == Undecided(a);
    var full := EveryoneJoins(size, messages, run, r);
    var longer := DrainEnds(size, messages, full);
    more := longer[|run|..];
    assert longer == Ending(before, more);
    var u := After(size, messages, longer);
    assert u.commits[|u.commits| - 1] in u.commits;
  }

  /**
   The exact condition, which can be checked when shutdown begins: no batch ever
   exceeds the configured size iff what Run holds, what waits in its inbox and the
   callers past the first check together do not.
   */
  lemma StaysWithinIff(size: nat, messages: map<Id, Message>, before: seq<Action>, r: Report)
    requires size > 0 && After(size, messages, before).phase.Collecting?
    ensures var a := After(size, messages, before);
            StaysWithin(size, messages, before) <==> Load(a) + |Undecided(a)| <= size
  {
    var a := After(size, messages, before);
    if Load(a) + |Undecided(a)| <= size {
      forall more ensures Within(size, After(size, messages, Ending(before, more)).commits) {
        SmallShutdownStaysWithin(size, messages, before, more);
      }
    } else {
      var more := LargeShutdownCanExceed(size, messages, before, r);
    }
  }

  /** Two callers past the check are enough for size 1. */
  lemma FinalBatchCanExceedSize(messages: map<Id, Message>, r: Report)
    ensures !StaysWithin(1, messages, [Begin(0), Begin(1)])
  {
    var b0, b1 := [Begin(0)], [Begin(0), Begin(1)];
    AfterSnoc(1, messages, [], Begin(0));
    assert [] + [Begin(0)] == b0;
    AfterSnoc(1, messages, b0, Begin(1));
    assert b0 + [Begin(1)] == b1;
    var a := After(1, messages, b1);
    assert Undecided(a) == {0, 1};
    StaysWithinIff(1, messages, b1, r);
  }
}
