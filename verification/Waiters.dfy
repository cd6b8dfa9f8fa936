/** When the callers of the report batcher return (internal/dlr/batcher.go). */
module Waiters {
  import opened Tables
  import opened Batchers

  // ---------------------------------------------------------------------------
  // Shutdown

  lemma StoppedStays(size: nat, s: State, a: Action)
    requires Stopped(s.phase)
    ensures Stopped(Step(size, s, a).phase)
  {
  }

  lemma StepStops(size: nat, s: State, a: Action, c: Caller)
    requires Is(Step(size, s, a), c, Returned(ErrStopped))
    ensures Is(s, c, Returned(ErrStopped)) || Stopped(s.phase)
  {
  }

  /** Submit says ErrStopped only once shutdown has begun. */
  lemma {:induction false} ErrStoppedMeansShutdown(size: nat, messages: map<Id, Message>, run: seq<Action>, c: Caller)
    requires Is(After(size, messages, run), c, Returned(ErrStopped))
    ensures Stopped(After(size, messages, run).phase) && Shutdown in run
  {
    var n := |run| - 1;
    var s := After(size, messages, run[..n]);
    StepStops(size, s, run[n], c);
    if Is(s, c, Returned(ErrStopped)) {
      ErrStoppedMeansShutdown(size, messages, run[..n], c);
    } else {
      StoppedNeedsShutdown(size, messages, run[..n]);
    }
    StoppedStays(size, s, run[n]);
    assert run[..n] + [run[n]] == run;
  }

  lemma {:induction false} StoppedNeedsShutdown(size: nat, messages: map<Id, Message>, run: seq<Action>)
    requires Stopped(After(size, messages, run).phase)
    ensures Shutdown in run
  {
    var n := |run| - 1;
    assert run == run[..n] + [run[n]];
    if Stopped(After(size, messages, run[..n]).phase) {
      StoppedNeedsShutdown(size, messages, run[..n]);
    } else {
      NotYetStopped(size, After(size, messages, run[..n]), run[n]);
    }
  }

  lemma NotYetStopped(size: nat, s: State, a: Action)
    requires !Stopped(s.phase) && Stopped(Step(size, s, a).phase)
    ensures a == Shutdown
  {
  }

  /** No more reports wait in the channel than it holds. */
  lemma {:induction false} InboxIsBounded(size: nat, messages: map<Id, Message>, run: seq<Action>)
    ensures |After(size, messages, run).inbox| <= size
  {
    if run != [] {
      InboxIsBounded(size, messages, run[..|run| - 1]);
      StepInbox(size, After(size, messages, run[..|run| - 1]), run[|run| - 1]);
    }
  }

  lemma StepInbox(size: nat, s: State, a: Action)
    requires |s.inbox| <= size
    ensures |Step(size, s, a).inbox| <= size
  {
  }

  // ---------------------------------------------------------------------------
  // Every caller can return

  /** A caller may give up at any time; its report stays where it is. */
  lemma CallerCanGiveUp(size: nat, s: State, c: Caller)
    requires Is(s, c, Checked) || Is(s, c, Waiting)
    ensures Step(size, s, GiveUpCancelled(c)) == s.(clients := s.clients[c := Returned(Cancelled)])
  {
  }

  /** The step that takes Run on. */
  function Onward(s: State): Action
  {
    match s.phase
    case Collecting => if s.inbox != [] then Receive else Tick
    case Flushing(_) => Apply(0, true)
    case Delivering(_, _) => Deliver
    case _ => Receive
  }

  /** How many steps Run is away from having handed out a result for every report at hand, at most. */
  function LeftToDo(s: State): nat
  {
    10 * |s.inbox|
    + match s.phase
      case Collecting => if s.batch == [] then 0 else 2 * |s.batch| + 3
      case Draining => if s.batch == [] then 1 else 2 * |s.batch| + 4
      case Flushing(_) => 2 * |s.batch| + 2
      case Delivering(_, next) => if next <= |s.batch| then 2 * (|s.batch| - next) + 1 else 1
      case Finished => 0
  }

  ghost predicate TakesOn(s: State, s': State)
  {
    s'.clients == s.clients && LeftToDo(s') < LeftToDo(s) && (Stopped(s'.phase) ==> Stopped(s.phase))
  }

  lemma ReceivingTakesOn(size: nat, s: State)
    requires (s.phase.Collecting? && s.inbox != []) || s.phase.Draining?
    ensures TakesOn(s, RunStep(size, s, Receive))
  {
  }

  lemma FlushingTakesOn(size: nat, s: State)
    requires Handing(s)
    requires s.phase.Flushing? || s.phase.Delivering? || (s.phase.Collecting? && s.inbox == [] && s.batch != [])
    ensures TakesOn(s, RunStep(size, s, Onward(s)))
  {
  }

  /** The step takes Run on and leaves the callers alone. */
  lemma OnwardWorks(size: nat, s: State)
    requires Handing(s) && !s.phase.Finished? && (s.phase.Collecting? ==> s.inbox != [] || s.batch != [])
    ensures TakesOn(s, Step(size, s, Onward(s)))
  {
    if (s.phase.Collecting? && s.inbox != []) || s.phase.Draining? {
      ReceivingTakesOn(size, s);
    } else {
      FlushingTakesOn(size, s);
    }
  }

  /** A waiting caller without a result has its report in the batch or in the channel. */
  lemma WaiterIsAhead(s: State, c: Caller)
    requires Inv(s) && Is(s, c, Waiting) && c !in s.results && s.phase.Collecting?
    ensures s.inbox != [] || s.batch != []
  {
    assert HasPlace(s.queued, c);
    var at :| 0 <= at < |s.queued| && s.queued[at].caller == c;
    assert PlaceOk(s, at);
  }

  lemma LastStepReturns(size: nat, s: State, c: Caller, last: Action)
    requires Is(s, c, Waiting)
    requires if c in s.results then last == TakeResult(c) else last == ObserveDone(c) && s.phase.Finished?
    ensures var t := Step(size, s, last);
            && c in t.clients && t.clients[c].Returned? && t.clients[c].value != Cancelled
            && (!Stopped(s.phase) ==> t.clients[c].value.Got?)
  {
  }

  /** The caller's own last step, or a step of Run. */
  predicate Serves(c: Caller, a: Action)
  {
    a.Receive? || a.Tick? || a.Apply? || a.Deliver? || a == TakeResult(c) || a == ObserveDone(c)
  }

  /**
   No caller waits in vain: from every reachable state, steps of Run and the
   caller's own take a waiting Submit to its return, with a result unless shutdown
   has begun, and without any other caller or another report.
   */
  lemma {:induction false} EveryWaiterCanReturn(size: nat, messages: map<Id, Message>, run: seq<Action>, c: Caller)
    returns (more: seq<Action>)
    requires Is(After(size, messages, run), c, Waiting)
    ensures forall a | a in more :: Serves(c, a)
    ensures var s, t := After(size, messages, run), After(size, messages, run + more);
            && c in t.clients && t.clients[c].Returned? && t.clients[c].value != Cancelled
            && (!Stopped(s.phase) ==> t.clients[c].value.Got?)
    decreases LeftToDo(After(size, messages, run))
  {
    var s := After(size, messages, run);
    Batchers.Always(size, messages, run);
    if c in s.results || s.phase.Finished? {
      var last := if c in s.results then TakeResult(c) else ObserveDone(c);
      more := [last];
      AfterSnoc(size, messages, run, last);
      LastStepReturns(size, s, c, last);
    } else {
      if s.phase.Collecting? {
        WaiterIsAhead(s, c);
      }
      OnwardWorks(size, s);
      AfterSnoc(size, messages, run, Onward(s));
      var rest := EveryWaiterCanReturn(size, messages, run + [Onward(s)], c);
      more := [Onward(s)] + rest;
      assert run + more == run + [Onward(s)] + rest;
    }
  }
}
