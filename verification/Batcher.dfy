/**
 Group commit of delivery reports (internal/dlr/batcher.go) as a step system:
 the callers of Submit and the goroutine in Run take their steps in any order,
 while other transactions change the message table between commits.
 */
module Batchers {
  import opened Tables
  import opened Reports

  type Caller = nat

  datatype Pending = Pending(caller: Caller, report: Report)

  /** What Apply gave for one report: its label, or the batch's error. */
  datatype Reply = Answer(answer: Label) | ApplyFailed

  datatype Returns = Got(reply: Reply) | ErrStopped | Cancelled

  /** A call of Submit: past its first check, waiting for its result, or returned. */
  datatype Client = Checked | Waiting | Returned(value: Returns)

  /** One call of Apply: the message table it saw, and whether it committed. */
  datatype Commit = Commit(batch: seq<Pending>, before: map<Id, Message>, now: Time, ok: bool)

  /** Where Run is; `final` marks the flush after the drain, `next` the result to hand out next. */
  datatype Phase = Collecting | Flushing(final: bool) | Delivering(final: bool, next: nat) | Draining | Finished

  datatype State = State(
    messages: map<Id, Message>,
    clients: map<Caller, Client>,
    results: map<Caller, Reply>,
    inbox: seq<Pending>,
    batch: seq<Pending>,
    phase: Phase,
    commits: seq<Commit>,
    queued: seq<Pending>)

  datatype Action =
    | Begin(caller: Caller)
    | Enqueue(caller: Caller, report: Report)
    | GiveUpStopped(caller: Caller)
    | GiveUpCancelled(caller: Caller)
    | TakeResult(caller: Caller)
    | ObserveDone(caller: Caller)
    | Receive
    | Tick
    | Shutdown
    | Apply(now: Time, ok: bool)
    | Deliver
    | OtherTransaction(messages: map<Id, Message>)

  function Init(messages: map<Id, Message>): State { State(messages, map[], map[], [], [], Collecting, [], []) }

  function ReportsOf(batch: seq<Pending>): (rs: seq<Report>)
    ensures |rs| == |batch| && forall i | 0 <= i < |rs| :: rs[i] == batch[i].report
  {
    seq(|batch|, i requires 0 <= i < |batch| => batch[i].report)
  }

  function ReplyTo(c: Commit, i: nat): Reply
    requires i < |c.batch|
  {
    if c.ok then Answer(LabelInBatch(c.before, c.now, ReportsOf(c.batch), i)) else ApplyFailed
  }

  /** The stopped channel is closed when shutdown begins. */
  predicate Stopped(p: Phase)
  {
    p.Draining? || p.Finished? || ((p.Flushing? || p.Delivering?) && p.final)
  }

  predicate Is(s: State, c: Caller, k: Client) { c in s.clients && s.clients[c] == k }

  function CallerStep(size: nat, s: State, a: Action): State
  {
    match a
    case Begin(c) =>
      if c in s.clients then s
      else s.(clients := s.clients[c := if Stopped(s.phase) then Returned(ErrStopped) else Checked])
    case Enqueue(c, r) =>
      if !Is(s, c, Checked) || |s.inbox| >= size then s
      else s.(clients := s.clients[c := Waiting],
              inbox := s.inbox + [Pending(c, r)],
              queued := s.queued + [Pending(c, r)])
    case GiveUpStopped(c) =>
      if Is(s, c, Checked) && Stopped(s.phase) then s.(clients := s.clients[c := Returned(ErrStopped)]) else s
    case GiveUpCancelled(c) =>
      if Is(s, c, Checked) || Is(s, c, Waiting) then s.(clients := s.clients[c := Returned(Cancelled)]) else s
    case TakeResult(c) =>
      if Is(s, c, Waiting) && c in s.results
      then s.(clients := s.clients[c := Returned(Got(s.results[c]))], results := s.results - {c}) else s
    case ObserveDone(c) =>
      if !Is(s, c, Waiting) || !s.phase.Finished? then s
      else if c in s.results
      then s.(clients := s.clients[c := Returned(Got(s.results[c]))], results := s.results - {c})
      else s.(clients := s.clients[c := Returned(ErrStopped)])
    case _ => s
  }

  /** What follows a flush: more collecting, or the end. */
  function Flushed(final: bool): Phase { if final then Finished else Collecting }

  function RunStep(size: nat, s: State, a: Action): State
  {
    match a
    case Receive =>
      if s.phase.Collecting? && s.inbox != [] then
        s.(inbox := s.inbox[1..], batch := s.batch + [s.inbox[0]],
           phase := if |s.batch| + 1 >= size then Flushing(false) else Collecting)
      else if s.phase.Draining? && s.inbox != [] then
        s.(inbox := s.inbox[1..], batch := s.batch + [s.inbox[0]])
      else if s.phase.Draining? then
        s.(phase := if s.batch == [] then Finished else Flushing(true))
      else s
    case Tick => if s.phase.Collecting? && s.batch != [] then s.(phase := Flushing(false)) else s
    case Shutdown => if s.phase.Collecting? then s.(phase := Draining) else s
    case Apply(now, ok) =>
      if !s.phase.Flushing? then s
      else s.(messages := if ok then ReportAll(s.messages, now, ReportsOf(s.batch)) else s.messages,
              commits := s.commits + [Commit(s.batch, s.messages, now, ok)],
              phase := Delivering(s.phase.final, 0))
    case Deliver =>
      if !s.phase.Delivering? then s
      else if s.phase.next >= |s.batch| || s.commits == [] || s.phase.next >= |s.commits[|s.commits| - 1].batch|
      then s.(batch := [], phase := Flushed(s.phase.final))
      else s.(results := s.results[s.batch[s.phase.next].caller := ReplyTo(s.commits[|s.commits| - 1], s.phase.next)],
              phase := Delivering(s.phase.final, s.phase.next + 1))
    case _ => s
  }

  /** One step; an action that is not possible changes nothing. */
  function Step(size: nat, s: State, a: Action): State
  {
    if a.OtherTransaction? then s.(messages := a.messages)
    else if a.Receive? || a.Tick? || a.Shutdown? || a.Apply? || a.Deliver? then RunStep(size, s, a)
    else CallerStep(size, s, a)
  }

  function After(size: nat, messages: map<Id, Message>, run: seq<Action>): State
  {
    if run == [] then Init(messages)
    else Step(size, After(size, messages, run[..|run| - 1]), run[|run| - 1])
  }

  // ---------------------------------------------------------------------------
  // What every run keeps

  /** The reports given to Apply, in order. */
  function Committed(cs: seq<Commit>): seq<Pending>
  {
    if cs == [] then [] else Committed(cs[..|cs| - 1]) + cs[|cs| - 1].batch
  }

  /** The reply to the report at position `i` of Committed. */
  function ReplyAt(cs: seq<Commit>, i: nat): Reply
    requires i < |Committed(cs)|
  {
    var n := |cs| - 1;
    if i < |Committed(cs[..n])| then ReplyAt(cs[..n], i) else ReplyTo(cs[n], i - |Committed(cs[..n])|)
  }

  lemma CommittedSnoc(cs: seq<Commit>, c: Commit)
    ensures Committed(cs + [c]) == Committed(cs) + c.batch
  {
    assert (cs + [c])[..|cs|] == cs;
  }

  lemma ReplySnoc(cs: seq<Commit>, c: Commit, i: nat)
    requires i < |Committed(cs + [c])| == |Committed(cs)| + |c.batch|
    ensures ReplyAt(cs + [c], i) ==
            if i < |Committed(cs)| then ReplyAt(cs, i) else ReplyTo(c, i - |Committed(cs)|)
  {
    assert (cs + [c])[..|cs|] == cs;
  }

  /** The reports that are in a batch but not yet given to Apply. */
  function Uncommitted(s: State): seq<Pending> { if s.phase.Delivering? then [] else s.batch }

  /** Reports are given to Apply in the order they were queued, none lost and none repeated. */
  predicate InOrder(s: State) { Committed(s.commits) + Uncommitted(s) + s.inbox == s.queued }

  ghost predicate OnePlaceEach(s: State)
  {
    forall i, j | 0 <= i < j < |s.queued| :: s.queued[i].caller != s.queued[j].caller
  }

  /** While results are handed out, the batch is the last one committed. */
  predicate Handing(s: State)
  {
    && (s.phase.Delivering? ==> s.commits != [] && s.commits[|s.commits| - 1].batch == s.batch && s.phase.next <= |s.batch|)
    && (s.phase.Finished? ==> s.batch == [])
  }

  /** How many results have been handed out. */
  function Delivered(s: State): int
  {
    |Committed(s.commits)| - (if s.phase.Delivering? then |s.batch| - s.phase.next else 0)
  }

  /** The caller whose report was queued at position i. */
  predicate PlaceOk(s: State, i: nat)
    requires i < |s.queued|
  {
    var c := s.queued[i].caller;
    && c in s.clients && !s.clients[c].Checked?
    && (c in s.results ==> i < Delivered(s) <= |Committed(s.commits)| && s.results[c] == ReplyAt(s.commits, i))
    && (s.clients[c].Waiting? && i < Delivered(s) ==> c in s.results)
    && match s.clients[c]
       case Returned(Got(reply)) =>
         i < Delivered(s) <= |Committed(s.commits)| && c !in s.results && reply == ReplyAt(s.commits, i)
       case Returned(ErrStopped) => s.phase.Finished? && i >= |Committed(s.commits)|
       case _ => true
  }

  ghost predicate PlacesOk(s: State) { forall i | 0 <= i < |s.queued| :: PlaceOk(s, i) }

  ghost predicate HasPlace(queued: seq<Pending>, c: Caller) { exists i :: 0 <= i < |queued| && queued[i].caller == c }

  /** Only a queued report has a caller waiting or a result. */
  ghost predicate OnlyQueued(s: State)
  {
    && (forall c | c in s.results :: HasPlace(s.queued, c))
    && (forall c | c in s.clients && (s.clients[c].Waiting? || (s.clients[c].Returned? && s.clients[c].value.Got?)) ::
          HasPlace(s.queued, c))
  }

  ghost predicate Inv(s: State) { InOrder(s) && OnePlaceEach(s) && Handing(s) && PlacesOk(s) && OnlyQueued(s) }

  // ---------------------------------------------------------------------------
  // Callers

  /** A caller's own step that queues nothing changes only that caller. */
  lemma {:induction false} ReturnKeeps(s: State, c: Caller, k: Client, take: bool)
    requires Inv(s) && (k.Returned? || (k.Checked? && c !in s.clients))
    requires c in s.clients ==> s.clients[c].Checked? || s.clients[c].Waiting?
    requires k.Returned? && k.value.Got? <==> take
    requires take ==> Is(s, c, Waiting) && c in s.results && k.value.reply == s.results[c]
    requires k == Returned(ErrStopped) && Is(s, c, Waiting) ==> s.phase.Finished? && c !in s.results
    ensures Inv(s.(clients := s.clients[c := k], results := if take then s.results - {c} else s.results))
  {
    var s' := s.(clients := s.clients[c := k], results := if take then s.results - {c} else s.results);
    forall i | 0 <= i < |s'.queued| ensures PlaceOk(s', i) {
      assert PlaceOk(s, i);
    }
    if take {
      assert HasPlace(s.queued, c);
    }
  }

  lemma NotYetQueued(s: State, c: Caller)
    requires PlacesOk(s) && Is(s, c, Checked)
    ensures forall i | 0 <= i < |s.queued| :: s.queued[i].caller != c
  {
    forall i | 0 <= i < |s.queued| ensures s.queued[i].caller != c {
      assert PlaceOk(s, i);
    }
  }

  ghost function Enqueued(s: State, c: Caller, r: Report): State
  {
    s.(clients := s.clients[c := Waiting], inbox := s.inbox + [Pending(c, r)], queued := s.queued + [Pending(c, r)])
  }

  lemma EnqueueKeepsPlaces(s: State, c: Caller, r: Report)
    requires PlacesOk(s) && OnlyQueued(s) && Is(s, c, Checked) && Delivered(s) <= |s.queued|
    ensures PlacesOk(Enqueued(s, c, r))
  {
    var s' := Enqueued(s, c, r);
    NotYetQueued(s, c);
    assert !HasPlace(s.queued, c);
    forall i | 0 <= i < |s'.queued| ensures PlaceOk(s', i) {
      if i < |s.queued| {
        assert PlaceOk(s, i) && s'.queued[i] == s.queued[i];
      }
    }
  }

  lemma EnqueueKeepsQueued(s: State, c: Caller, r: Report)
    requires OnlyQueued(s)
    ensures OnlyQueued(Enqueued(s, c, r))
  {
    var q, q' := s.queued, s.queued + [Pending(c, r)];
    forall d | HasPlace(q, d) ensures HasPlace(q', d) {
      var i :| 0 <= i < |q| && q[i].caller == d;
      assert q'[i].caller == d;
    }
    assert q'[|q|].caller == c;
  }

  lemma EnqueueKeepsOrder(s: State, c: Caller, r: Report)
    requires InOrder(s)
    ensures InOrder(Enqueued(s, c, r))
  {
    assert Committed(s.commits) + Uncommitted(s) + (s.inbox + [Pending(c, r)])
        == Committed(s.commits) + Uncommitted(s) + s.inbox + [Pending(c, r)];
  }

  lemma {:induction false} EnqueueKeeps(s: State, c: Caller, r: Report)
    requires Inv(s) && Is(s, c, Checked)
    ensures Inv(Enqueued(s, c, r))
  {
    assert Delivered(s) <= |Committed(s.commits)| <= |s.queued|;
    EnqueueKeepsOrder(s, c, r);
    EnqueueKeepsPlaces(s, c, r);
    EnqueueKeepsQueued(s, c, r);
    NotYetQueued(s, c);
  }

  lemma {:induction false} CallerStepKeeps(size: nat, s: State, a: Action)
    requires Inv(s)
    ensures Inv(CallerStep(size, s, a))
  {
    match a
    case Begin(c) =>
      if c !in s.clients {
        ReturnKeeps(s, c, if Stopped(s.phase) then Returned(ErrStopped) else Checked, false);
      }
    case Enqueue(c, r) =>
      if Is(s, c, Checked) {
        EnqueueKeeps(s, c, r);
      }
    case GiveUpStopped(c) =>
      if Is(s, c, Checked) {
        ReturnKeeps(s, c, Returned(ErrStopped), false);
      }
    case GiveUpCancelled(c) =>
      if Is(s, c, Checked) || Is(s, c, Waiting) {
        ReturnKeeps(s, c, Returned(Cancelled), false);
      }
    case TakeResult(c) =>
      if Is(s, c, Waiting) && c in s.results {
        ReturnKeeps(s, c, Returned(Got(s.results[c])), true);
      }
    case ObserveDone(c) =>
      if Is(s, c, Waiting) && s.phase.Finished? {
        if c in s.results {
          ReturnKeeps(s, c, Returned(Got(s.results[c])), true);
        } else {
          ReturnKeeps(s, c, Returned(ErrStopped), false);
        }
      }
    case _ =>
  }

  // ---------------------------------------------------------------------------
  // Run

  /** Moving between phases without committing or delivering. */
  lemma {:induction false} MoveKeeps(s: State, s': State)
    requires Inv(s) && !s.phase.Delivering? && !s.phase.Finished? && !s'.phase.Delivering? && InOrder(s') && Handing(s')
    requires s' == s.(inbox := s'.inbox, batch := s'.batch, phase := s'.phase)
    ensures Inv(s')
  {
    forall i | 0 <= i < |s'.queued| ensures PlaceOk(s', i) {
      assert PlaceOk(s, i);
    }
  }

  lemma {:induction false} ReceiveKeeps(size: nat, s: State)
    requires Inv(s)
    ensures Inv(RunStep(size, s, Receive))
  {
    if (s.phase.Collecting? || s.phase.Draining?) && s.inbox != [] {
      assert s.batch + [s.inbox[0]] + s.inbox[1..] == s.batch + s.inbox;
      assert Committed(s.commits) + (s.batch + [s.inbox[0]]) + s.inbox[1..]
          == Committed(s.commits) + (s.batch + [s.inbox[0]] + s.inbox[1..]);
      assert Committed(s.commits) + s.batch + s.inbox == Committed(s.commits) + (s.batch + s.inbox);
      MoveKeeps(s, RunStep(size, s, Receive));
    } else if s.phase.Draining? {
      MoveKeeps(s, RunStep(size, s, Receive));
    }
  }

  lemma ApplyKeepsPlaces(s: State, s': State, c: Commit)
    requires PlacesOk(s) && s.phase.Flushing? && c.batch == s.batch
    requires s' == s.(messages := s'.messages, commits := s.commits + [c], phase := Delivering(s.phase.final, 0))
    ensures PlacesOk(s')
  {
    CommittedSnoc(s.commits, c);
    forall i | 0 <= i < |s'.queued| ensures PlaceOk(s', i) {
      assert PlaceOk(s, i);
      if i < |Committed(s.commits)| {
        ReplySnoc(s.commits, c, i);
      }
    }
  }

  lemma {:induction false} ApplyKeeps(size: nat, s: State, now: Time, ok: bool)
    requires Inv(s) && s.phase.Flushing?
    ensures Inv(RunStep(size, s, Apply(now, ok)))
  {
    var s' := RunStep(size, s, Apply(now, ok));
    var c := Commit(s.batch, s.messages, now, ok);
    ApplyKeepsPlaces(s, s', c);
    assert InOrder(s') by {
      CommittedSnoc(s.commits, c);
      assert Committed(s.commits) + s.batch + [] == Committed(s.commits) + s.batch;
    }
  }

  /** The next result goes to the caller at position Delivered. */
  lemma NextInLine(s: State)
    requires Inv(s) && s.phase.Delivering? && s.phase.next < |s.batch|
    ensures 0 <= Delivered(s) < |Committed(s.commits)| <= |s.queued|
    ensures s.queued[Delivered(s)] == s.batch[s.phase.next]
    ensures ReplyAt(s.commits, Delivered(s)) == ReplyTo(s.commits[|s.commits| - 1], s.phase.next)
  {
    var n := |s.commits| - 1;
    assert s.commits == s.commits[..n] + [s.commits[n]];
    CommittedSnoc(s.commits[..n], s.commits[n]);
    ReplySnoc(s.commits[..n], s.commits[n], Delivered(s));
    assert s.queued[Delivered(s)] == Committed(s.commits)[Delivered(s)];
  }

  lemma {:induction false} DeliverKeeps(size: nat, s: State)
    requires Inv(s) && s.phase.Delivering? && s.phase.next < |s.batch|
    ensures Inv(RunStep(size, s, Deliver))
  {
    var s' := RunStep(size, s, Deliver);
    NextInLine(s);
    DeliverKeepsPlaces(s, s', Delivered(s));
    assert HasPlace(s'.queued, s.queued[Delivered(s)].caller);
  }

  lemma DeliverKeepsPlaces(s: State, s': State, d: nat)
    requires PlacesOk(s) && OnePlaceEach(s) && s.phase.Delivering? && s.phase.next < |s.batch|
    requires d == Delivered(s) < |Committed(s.commits)| && d < |s.queued|
    requires s' == s.(results := s.results[s.queued[d].caller := ReplyAt(s.commits, d)],
                      phase := Delivering(s.phase.final, s.phase.next + 1))
    ensures PlacesOk(s')
  {
    forall i | 0 <= i < |s'.queued| ensures PlaceOk(s', i) {
      assert PlaceOk(s, i);
      assert i != d ==> s.queued[i].caller != s.queued[d].caller;
    }
  }

  lemma {:induction false} DeliveredAllKeeps(size: nat, s: State)
    requires Inv(s) && s.phase.Delivering? && s.phase.next == |s.batch|
    ensures Inv(RunStep(size, s, Deliver))
  {
    var s' := RunStep(size, s, Deliver);
    assert Committed(s.commits) + [] == Committed(s.commits);
    forall i | 0 <= i < |s'.queued| ensures PlaceOk(s', i) {
      assert PlaceOk(s, i);
    }
  }

  lemma {:induction false} StepKeeps(size: nat, s: State, a: Action)
    requires Inv(s)
    ensures Inv(Step(size, s, a))
  {
    if a.Receive? {
      ReceiveKeeps(size, s);
    } else if a.Apply? && s.phase.Flushing? {
      ApplyKeeps(size, s, a.now, a.ok);
    } else if a.Deliver? && s.phase.Delivering? {
      if s.phase.next < |s.batch| {
        DeliverKeeps(size, s);
      } else {
        DeliveredAllKeeps(size, s);
      }
    } else if (a.Tick? || a.Shutdown?) && s.phase.Collecting? {
      MoveKeeps(s, RunStep(size, s, a));
    } else if a.OtherTransaction? {
      TableKeeps(s, a.messages);
    } else {
      CallerStepKeeps(size, s, a);
    }
  }

  lemma {:induction false} TableKeeps(s: State, messages: map<Id, Message>)
    requires Inv(s)
    ensures Inv(s.(messages := messages))
  {
    var s' := s.(messages := messages);
    forall i | 0 <= i < |s'.queued| ensures PlaceOk(s', i) {
      assert PlaceOk(s, i);
    }
  }

  lemma {:induction false} Always(size: nat, messages: map<Id, Message>, run: seq<Action>)
    ensures Inv(After(size, messages, run))
  {
    if run != [] {
      Always(size, messages, run[..|run| - 1]);
      StepKeeps(size, After(size, messages, run[..|run| - 1]), run[|run| - 1]);
    }
  }

  // ---------------------------------------------------------------------------
  // What Submit promises

  /** Caller c's report is the i-th report of the k-th call of Apply. */
  predicate AppliedAt(cs: seq<Commit>, c: Caller, k: nat, i: nat)
  {
    k < |cs| && i < |cs[k].batch| && cs[k].batch[i].caller == c
  }

  /** Finds the call of Apply behind a position of Committed. */
  lemma {:induction false} Locate(cs: seq<Commit>, at: nat) returns (k: nat, i: nat)
    requires at < |Committed(cs)|
    ensures AppliedAt(cs, Committed(cs)[at].caller, k, i) && ReplyAt(cs, at) == ReplyTo(cs[k], i)
  {
    var n := |cs| - 1;
    if at < |Committed(cs[..n])| {
      k, i := Locate(cs[..n], at);
    } else {
      k, i := n, at - |Committed(cs[..n])|;
    }
  }

  /** The position of the i-th report of the k-th call; later calls have later positions. */
  lemma {:induction false} PositionOf(cs: seq<Commit>, k: nat, i: nat)
    requires k < |cs| && i < |cs[k].batch|
    ensures |Committed(cs[..k])| + i < |Committed(cs)|
    ensures Committed(cs)[|Committed(cs[..k])| + i] == cs[k].batch[i]
    ensures |Committed(cs[..k])| + |cs[k].batch| <= |Committed(cs)|
  {
    var n := |cs| - 1;
    if k < n {
      PositionOf(cs[..n], k, i);
      assert cs[..n][..k] == cs[..k];
    }
  }

  lemma OneApplication(s: State, c: Caller, k: nat, i: nat, k': nat, i': nat)
    requires Inv(s) && AppliedAt(s.commits, c, k, i) && AppliedAt(s.commits, c, k', i')
    ensures k == k' && i == i'
  {
    var cs := s.commits;
    PositionOf(cs, k, i);
    PositionOf(cs, k', i');
    var p, p' := |Committed(cs[..k])| + i, |Committed(cs[..k'])| + i';
    assert s.queued[p] == Committed(cs)[p] && s.queued[p'] == Committed(cs)[p'];
    assert p == p';
    if k < k' {
      Later(cs, k, i, k');
    } else if k' < k {
      Later(cs, k', i', k);
    }
  }

  lemma Later(cs: seq<Commit>, k: nat, i: nat, k': nat)
    requires k < k' < |cs| && i < |cs[k].batch|
    ensures |Committed(cs[..k])| + i < |Committed(cs[..k'])|
  {
    PositionOf(cs[..k'], k, i);
    assert cs[..k'][..k] == cs[..k];
  }

  /**
   Submit returns a label only after a committed Apply that held its report, in
   exactly one call and at one place, and the label is the one Apply gave there.
   */
  lemma AnswerIsDurable(size: nat, messages: map<Id, Message>, run: seq<Action>, c: Caller)
    returns (k: nat, i: nat)
    requires var s := After(size, messages, run);
             c in s.clients && s.clients[c].Returned? && s.clients[c].value.Got? && s.clients[c].value.reply.Answer?
    ensures var s := After(size, messages, run);
            && AppliedAt(s.commits, c, k, i) && s.commits[k].ok
            && s.clients[c].value.reply.answer
               == LabelInBatch(s.commits[k].before, s.commits[k].now, ReportsOf(s.commits[k].batch), i)
            && forall k': nat, i': nat | AppliedAt(s.commits, c, k', i') :: k' == k && i' == i
  {
    var s := After(size, messages, run);
    Always(size, messages, run);
    assert HasPlace(s.queued, c);
    var at :| 0 <= at < |s.queued| && s.queued[at].caller == c;
    assert PlaceOk(s, at);
    assert s.queued[at] == Committed(s.commits)[at];
    k, i := Locate(s.commits, at);
    forall k': nat, i': nat | AppliedAt(s.commits, c, k', i') ensures k' == k && i' == i {
      OneApplication(s, c, k, i, k', i');
    }
  }

  /** A Submit that returned ErrStopped had its report in no call of Apply, now or later. */
  lemma StoppedMeansNotApplied(size: nat, messages: map<Id, Message>, run: seq<Action>, c: Caller)
    requires Is(After(size, messages, run), c, Returned(ErrStopped))
    ensures forall k: nat, i: nat :: !AppliedAt(After(size, messages, run).commits, c, k, i)
  {
    var s := After(size, messages, run);
    Always(size, messages, run);
    forall p | 0 <= p < |Committed(s.commits)| ensures Committed(s.commits)[p].caller != c {
      assert s.queued[p] == Committed(s.commits)[p];
      assert PlaceOk(s, p);
    }
    forall k: nat, i: nat ensures !AppliedAt(s.commits, c, k, i) {
      if k < |s.commits| && i < |s.commits[k].batch| {
        PositionOf(s.commits, k, i);
      }
    }
  }

  /** Once Run has returned, every waiting Submit can return: with its own reply exactly when Apply held its report. */
  lemma EveryWaiterReturns(size: nat, messages: map<Id, Message>, run: seq<Action>, c: Caller)
    requires var s := After(size, messages, run); Is(s, c, Waiting) && s.phase.Finished?
    ensures var s := After(size, messages, run);
            var s' := Step(size, s, ObserveDone(c));
            && s'.clients[c].Returned?
            && (s'.clients[c].value.Got? <==> exists k: nat, i: nat :: AppliedAt(s.commits, c, k, i))
            && (!s'.clients[c].value.Got? ==> s'.clients[c].value.ErrStopped?)
  {
    var s := After(size, messages, run);
    Always(size, messages, run);
    assert HasPlace(s.queued, c);
    var at :| 0 <= at < |s.queued| && s.queued[at].caller == c;
    assert PlaceOk(s, at);
    if c in s.results {
      assert s.queued[at] == Committed(s.commits)[at];
      var k, i := Locate(s.commits, at);
    } else {
      AfterSnoc(size, messages, run, ObserveDone(c));
      StoppedMeansNotApplied(size, messages, run + [ObserveDone(c)], c);
    }
  }

  lemma AfterSnoc(size: nat, messages: map<Id, Message>, run: seq<Action>, a: Action)
    ensures After(size, messages, run + [a]) == Step(size, After(size, messages, run), a)
  {
    assert (run + [a])[..|run|] == run;
  }

  /** Run never blocks handing out a result: the channel of the next caller, which holds one, is empty. */
  lemma ResultChannelIsFree(size: nat, messages: map<Id, Message>, run: seq<Action>)
    requires var s := After(size, messages, run); s.phase.Delivering? && s.phase.next < |s.batch|
    ensures var s := After(size, messages, run); s.batch[s.phase.next].caller !in s.results
  {
    var s := After(size, messages, run);
    Always(size, messages, run);
    NextInLine(s);
    assert PlaceOk(s, Delivered(s));
  }

  /** Reports reach Apply in the order they were queued, each once. */
  lemma {:induction false} AppliedInOrder(size: nat, messages: map<Id, Message>, run: seq<Action>)
    ensures var s := After(size, messages, run);
            && Committed(s.commits) <= s.queued
            && (forall i, j | 0 <= i < j < |s.queued| :: s.queued[i].caller != s.queued[j].caller)
            && (s.phase.Finished? ==> s.queued == Committed(s.commits) + s.inbox)
  {
    Always(size, messages, run);
    CommittedFirst(After(size, messages, run));
  }

  lemma CommittedFirst(s: State)
    requires InOrder(s) && Handing(s)
    ensures Committed(s.commits) <= s.queued
    ensures s.phase.Finished? ==> s.queued == Committed(s.commits) + s.inbox
  {
    assert s.queued == Committed(s.commits) + (Uncommitted(s) + s.inbox);
  }
}
