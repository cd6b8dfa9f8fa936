/**
 "Exactly one probe" in the half-open state (internal/dispatch/circuit.go), over
 runs in which many requests overlap. A probe is in flight until its own request
 records a result.
 */
module Probes {
  import opened Tables
  import opened Circuit

  /** Call k records the result of the request that made call i. */
  predicate Reports(ops: seq<Call>, i: nat, k: nat)
    requires i < |ops| && k < |ops| && ops[i].AllowAt?
  {
    ops[k].RecordAt? && ops[k].request == ops[i].request
  }

  /** Call k records the result of another request than the one that made call i. */
  predicate Foreign(ops: seq<Call>, i: nat, k: nat)
    requires i < |ops| && k < |ops| && ops[i].AllowAt?
  {
    ops[k].RecordAt? && ops[k].request != ops[i].request
  }

  /** Call i was granted as a probe, and its request has recorded nothing before call j. */
  ghost predicate InFlight(cfg: Settings, ops: seq<Call>, i: nat, j: nat)
  {
    i < j <= |ops| && GrantedProbe(cfg, NEW_BREAKER, ops, i) && forall k | i < k < j :: !Reports(ops, i, k)
  }

  /** Time goes on, a request asks once, and it records once, after it was admitted. */
  ghost predicate CanFollow(cfg: Settings, ops: seq<Call>, op: Call)
  {
    && (forall o | o in ops :: o.now <= op.now)
    && match op
       case AllowAt(_, request) => forall o | o in ops && o.AllowAt? :: o.request != request
       case RecordAt(_, request, _, _) =>
         (forall o | o in ops && o.RecordAt? :: o.request != request) && Admitted(cfg, ops, request)
       case _ => true
  }

  /** Some call admitted the request. */
  ghost predicate Admitted(cfg: Settings, ops: seq<Call>, request: nat)
  {
    exists i :: 0 <= i < |ops| && Granted(cfg, NEW_BREAKER, ops, i) && ops[i].request == request
  }

  /** A run of honest requests: every call can follow those before it. */
  ghost predicate Plausible(cfg: Settings, ops: seq<Call>)
  {
    ops == [] || (Plausible(cfg, ops[..|ops| - 1]) && CanFollow(cfg, ops[..|ops| - 1], ops[|ops| - 1]))
  }

  // ---------------------------------------------------------------------------
  // A second probe needs another request's failure

  /** While no failure is recorded, the probe stays out or the circuit is closed. */
  lemma {:induction false} ProbeOrClosed(cfg: Settings, b: Breaker, ops: seq<Call>, i: nat, j: nat)
    requires i <= j <= |ops| && ProbeOut(After(cfg, b, ops[..i]))
    requires forall k | i <= k < j :: ops[k].RecordAt? ==> ops[k].success
    ensures ProbeOut(After(cfg, b, ops[..j])) || After(cfg, b, ops[..j]).state.Closed?
    decreases j
  {
    if i < j {
      ProbeOrClosed(cfg, b, ops, i, j - 1);
      AfterNext(cfg, b, ops, j - 1);
    }
  }

  /**
   In every run, a second probe granted while one is in flight means that
   another request recorded a failure in between. So while only the probe's own
   request reports, there is exactly one probe.
   */
  lemma SecondProbeNeedsForeignFailure(cfg: Settings, ops: seq<Call>, i: nat, j: nat)
    requires j < |ops| && InFlight(cfg, ops, i, j) && GrantedProbe(cfg, NEW_BREAKER, ops, j)
    ensures exists k :: i < k < j && Foreign(ops, i, k) && !ops[k].success
  {
    AfterNext(cfg, NEW_BREAKER, ops, i);
    if forall k | i < k < j :: !(Foreign(ops, i, k) && !ops[k].success) {
      forall k | i < k < j && ops[k].RecordAt? ensures ops[k].success {
        assert !Reports(ops, i, k);
        assert Foreign(ops, i, k);
      }
      ProbeOrClosed(cfg, NEW_BREAKER, ops, i + 1, j);
    }
  }

  // ---------------------------------------------------------------------------
  // Every result of another request can lead to a second probe

  /**
   What a result of another request does to a probe in flight: at any later time
   the next caller gets a second probe exactly when that result was a failure
   and, if it counted, the open time has passed.
   */
  lemma LateResultAdmitsSecondProbe(cfg: Settings, b: Breaker, now: Time, success: bool, counted: bool, later: Time)
    requires ProbeOut(b) && now <= later
    ensures var late := Record(cfg, b, now, success, counted);
            Allow(cfg, late, later).0 && Current(cfg, late, later).state.HalfOpen? <==>
            !success && (counted ==> later >= now + cfg.openFor)
  {
  }

  /** All calls are before or at `now` and of requests below `unused`. */
  ghost predicate Within(ops: seq<Call>, now: Time, unused: nat)
  {
    forall op | op in ops :: op.now <= now && (op.AllowAt? || op.RecordAt? ==> op.request < unused)
  }

  lemma GrantInPrefix(cfg: Settings, ops: seq<Call>, longer: seq<Call>, i: nat)
    requires ops <= longer && i < |ops|
    ensures Granted(cfg, NEW_BREAKER, longer, i) == Granted(cfg, NEW_BREAKER, ops, i)
    ensures GrantedProbe(cfg, NEW_BREAKER, longer, i) == GrantedProbe(cfg, NEW_BREAKER, ops, i)
  {
    assert longer[..i] == ops[..i];
  }

  lemma PlausibleSnoc(cfg: Settings, ops: seq<Call>, op: Call)
    requires Plausible(cfg, ops) && CanFollow(cfg, ops, op)
    ensures Plausible(cfg, ops + [op])
  {
    assert (ops + [op])[..|ops|] == ops;
  }

  /** A new request asks. */
  lemma Ask(cfg: Settings, ops: seq<Call>, now: Time, unused: nat)
    requires Plausible(cfg, ops) && Within(ops, now, unused)
    ensures Plausible(cfg, ops + [AllowAt(now, unused)]) && Within(ops + [AllowAt(now, unused)], now, unused + 1)
  {
    PlausibleSnoc(cfg, ops, AllowAt(now, unused));
  }

  /** The request that was admitted last records its result. */
  lemma Answer(cfg: Settings, ops: seq<Call>, now: Time, request: nat, success: bool, counted: bool)
    requires Plausible(cfg, ops + [AllowAt(now, request)]) && Within(ops, now, request)
    requires Allow(cfg, After(cfg, NEW_BREAKER, ops), now).0
    ensures var longer := ops + [AllowAt(now, request)] + [RecordAt(now, request, success, counted)];
            Plausible(cfg, longer) && Within(longer, now, request + 1)
  {
    var asked := ops + [AllowAt(now, request)];
    assert asked[..|ops|] == ops;
    assert Granted(cfg, NEW_BREAKER, asked, |ops|);
    forall o | o in asked && o.RecordAt? ensures o.request != request {
      assert o in ops;
    }
    PlausibleSnoc(cfg, asked, RecordAt(now, request, success, counted));
  }

  lemma AfterSnoc(cfg: Settings, ops: seq<Call>, op: Call)
    ensures After(cfg, NEW_BREAKER, ops + [op]) == Step(cfg, After(cfg, NEW_BREAKER, ops), op)
  {
    assert (ops + [op])[..|ops|] == ops;
  }

  /** `longer` goes on from `ops` with calls of new requests only. */
  ghost predicate Continues(ops: seq<Call>, longer: seq<Call>, unused: nat)
  {
    ops <= longer && forall k | |ops| <= k < |longer| :: longer[k].RecordAt? ==> longer[k].request >= unused
  }

  /** One new request is admitted by a closed circuit and fails. */
  lemma OneMoreFailure(cfg: Settings, ops: seq<Call>, now: Time, unused: nat) returns (longer: seq<Call>)
    requires Plausible(cfg, ops) && Within(ops, now, unused) && After(cfg, NEW_BREAKER, ops).state.Closed?
    ensures Plausible(cfg, longer) && Within(longer, now, unused + 1) && Continues(ops, longer, unused)
    ensures After(cfg, NEW_BREAKER, longer) == Record(cfg, After(cfg, NEW_BREAKER, ops), now, false, true)
  {
    var asked := ops + [AllowAt(now, unused)];
    Ask(cfg, ops, now, unused);
    Answer(cfg, ops, now, unused, false, true);
    longer := asked + [RecordAt(now, unused, false, true)];
    AfterSnoc(cfg, ops, AllowAt(now, unused));
    AfterSnoc(cfg, asked, RecordAt(now, unused, false, true));
  }

  /** New requests that fail open a closed circuit. */
  lemma {:induction false} TripOpen(cfg: Settings, ops: seq<Call>, now: Time, unused: nat)
    returns (longer: seq<Call>, unused': nat)
    requires cfg.threshold >= 1 && Plausible(cfg, ops) && Within(ops, now, unused)
    requires After(cfg, NEW_BREAKER, ops).state.Closed?
    ensures Plausible(cfg, longer) && unused <= unused' && Within(longer, now, unused') && Continues(ops, longer, unused)
    ensures After(cfg, NEW_BREAKER, longer).state.Open? && After(cfg, NEW_BREAKER, longer).openedAt == now
    decreases cfg.threshold - After(cfg, NEW_BREAKER, ops).failures
  {
    AlwaysSound(cfg, ops);
    var more := OneMoreFailure(cfg, ops, now, unused);
    if After(cfg, NEW_BREAKER, more).state.Open? {
      longer, unused' := more, unused + 1;
    } else {
      longer, unused' := TripOpen(cfg, more, now, unused + 1);
    }
  }

  /** A circuit with no probe out can be brought to grant one, by new requests only. */
  lemma LeadsToProbe(cfg: Settings, ops: seq<Call>, now: Time, unused: nat) returns (longer: seq<Call>)
    requires cfg.threshold >= 1 && cfg.openFor >= 0 && Plausible(cfg, ops) && Within(ops, now, unused)
    requires var b := After(cfg, NEW_BREAKER, ops); !b.probing && (!b.state.Closed? ==> b.openedAt <= now)
    ensures Plausible(cfg, longer) && Continues(ops, longer, unused) && |ops| < |longer|
    ensures GrantedProbe(cfg, NEW_BREAKER, longer, |longer| - 1)
  {
    var open, unused' := ops, unused;
    if After(cfg, NEW_BREAKER, ops).state.Closed? {
      open, unused' := TripOpen(cfg, ops, now, unused);
    }
    assert !After(cfg, NEW_BREAKER, open).probing by { AlwaysSound(cfg, open); }
    longer := ProbeAfterWaiting(cfg, open, now, unused');
    ContinuesFurther(ops, open, longer, unused);
  }

  lemma ContinuesFurther(ops: seq<Call>, mid: seq<Call>, longer: seq<Call>, unused: nat)
    requires Continues(ops, mid, unused) && mid <= longer && |longer| == |mid| + 1 && !longer[|mid|].RecordAt?
    ensures Continues(ops, longer, unused) && |ops| < |longer|
  {
    forall k | |ops| <= k < |longer| && longer[k].RecordAt? ensures longer[k].request >= unused {
      assert longer[k] == mid[k];
    }
  }

  /** An open circuit grants a probe once the open time has passed. */
  lemma ProbeAfterWaiting(cfg: Settings, ops: seq<Call>, now: Time, unused: nat) returns (longer: seq<Call>)
    requires cfg.openFor >= 0 && Plausible(cfg, ops) && Within(ops, now, unused)
    requires var b := After(cfg, NEW_BREAKER, ops); !b.probing && !b.state.Closed? && b.openedAt <= now
    ensures Plausible(cfg, longer) && ops <= longer && |longer| == |ops| + 1 && !longer[|ops|].RecordAt?
    ensures GrantedProbe(cfg, NEW_BREAKER, longer, |longer| - 1)
  {
    var later := now + cfg.openFor;
    assert Within(ops, later, unused);
    Ask(cfg, ops, later, unused);
    longer := ops + [AllowAt(later, unused)];
    assert longer[..|ops|] == ops;
  }

  /** The circuit never opened in the future. */
  lemma {:induction false} OpenedInThePast(cfg: Settings, ops: seq<Call>, now: Time)
    requires forall op | op in ops :: op.now <= now
    ensures !After(cfg, NEW_BREAKER, ops).state.Closed? ==> After(cfg, NEW_BREAKER, ops).openedAt <= now
  {
    if ops != [] {
      OpenedInThePast(cfg, ops[..|ops| - 1], now);
      assert ops[|ops| - 1] in ops;
    }
  }

  function Bound(ops: seq<Call>): (n: nat)
    ensures forall op | op in ops && (op.AllowAt? || op.RecordAt?) :: op.request < n
  {
    if ops == [] then 0
    else
      var n, op := Bound(ops[..|ops| - 1]), ops[|ops| - 1];
      if (op.AllowAt? || op.RecordAt?) && op.request >= n then op.request + 1 else n
  }

  /**
   The converse: whenever another request records a result while a probe is in
   flight, some continuation by new requests grants a second probe while the
   first is still in flight.
   */
  lemma ForeignResultCanAdmitSecondProbe(cfg: Settings, ops: seq<Call>, i: nat) returns (longer: seq<Call>)
    requires cfg.threshold >= 1 && cfg.openFor >= 0 && Plausible(cfg, ops) && |ops| > 0
    requires InFlight(cfg, ops, i, |ops|) && Foreign(ops, i, |ops| - 1)
    ensures ops <= longer && |ops| < |longer| && Plausible(cfg, longer)
    ensures InFlight(cfg, longer, i, |longer| - 1) && GrantedProbe(cfg, NEW_BREAKER, longer, |longer| - 1)
  {
    var now, unused := ops[|ops| - 1].now, Bound(ops);
    ReadyForProbe(cfg, ops, i);
    longer := LeadsToProbe(cfg, ops, now, unused);
    assert InFlight(cfg, longer, i, |longer| - 1) by { StillInFlight(cfg, ops, longer, i, unused); }
  }

  lemma ReadyForProbe(cfg: Settings, ops: seq<Call>, i: nat)
    requires Plausible(cfg, ops) && i < |ops| && ops[i].AllowAt? && ops[|ops| - 1].RecordAt?
    ensures Within(ops, ops[|ops| - 1].now, Bound(ops)) && ops[i].request < Bound(ops)
    ensures var b := After(cfg, NEW_BREAKER, ops);
            !b.probing && (!b.state.Closed? ==> b.openedAt <= ops[|ops| - 1].now)
  {
    WithinBound(cfg, ops, i);
    OpenedInThePast(cfg, ops, ops[|ops| - 1].now);
    RecordEndsProbing(cfg, ops);
  }

  lemma WithinBound(cfg: Settings, ops: seq<Call>, i: nat)
    requires Plausible(cfg, ops) && i < |ops| && ops[i].AllowAt?
    ensures Within(ops, ops[|ops| - 1].now, Bound(ops)) && ops[i].request < Bound(ops)
  {
    var n := |ops| - 1;
    forall op | op in ops ensures op.now <= ops[n].now {
      assert op in ops[..n] || op == ops[n];
    }
    assert ops[i] in ops;
  }

  lemma RecordEndsProbing(cfg: Settings, ops: seq<Call>)
    requires ops != [] && ops[|ops| - 1].RecordAt?
    ensures !After(cfg, NEW_BREAKER, ops).probing
  {
  }

  lemma StillInFlight(cfg: Settings, ops: seq<Call>, longer: seq<Call>, i: nat, unused: nat)
    requires InFlight(cfg, ops, i, |ops|) && Continues(ops, longer, unused) && |ops| < |longer| && ops[i].request < unused
    ensures InFlight(cfg, longer, i, |longer| - 1)
  {
    GrantInPrefix(cfg, ops, longer, i);
    forall k | i < k < |longer| - 1 ensures !Reports(longer, i, k) {
      if k < |ops| {
        assert !Reports(ops, i, k);
      }
    }
  }

  /**
   A run with two probes in flight. Requests 1 and 2 are admitted, 1 fails and
   opens the circuit, 3 becomes the probe, the late failure of 2 opens the circuit
   again, and 4 becomes a second probe while 3 has reported nothing.
   */
  lemma TwoProbesOut()
    ensures var cfg := Settings(1, 10);
            var ops := [AllowAt(0, 1), AllowAt(0, 2), RecordAt(1, 1, false, true), AllowAt(11, 3),
                        RecordAt(12, 2, false, true), AllowAt(22, 4)];
            Plausible(cfg, ops) && InFlight(cfg, ops, 3, 5) && GrantedProbe(cfg, NEW_BREAKER, ops, 5)
  {
    var cfg := Settings(1, 10);
    var ops := [AllowAt(0, 1), AllowAt(0, 2), RecordAt(1, 1, false, true), AllowAt(11, 3),
                RecordAt(12, 2, false, true), AllowAt(22, 4)];
    StatesOfTwoProbes(cfg, ops);
    assert Plausible(cfg, ops) by { RequestsOfTwoProbes(cfg, ops); }
  }

  lemma StatesOfTwoProbes(cfg: Settings, ops: seq<Call>)
    requires cfg == Settings(1, 10)
    requires ops == [AllowAt(0, 1), AllowAt(0, 2), RecordAt(1, 1, false, true), AllowAt(11, 3),
                     RecordAt(12, 2, false, true), AllowAt(22, 4)]
    ensures Granted(cfg, NEW_BREAKER, ops, 0) && Granted(cfg, NEW_BREAKER, ops, 1)
    ensures GrantedProbe(cfg, NEW_BREAKER, ops, 3) && GrantedProbe(cfg, NEW_BREAKER, ops, 5)
  {
    assert ops[..0] == [];
    AfterNext(cfg, NEW_BREAKER, ops, 0);
    AfterNext(cfg, NEW_BREAKER, ops, 1);
    AfterNext(cfg, NEW_BREAKER, ops, 2);
    AfterNext(cfg, NEW_BREAKER, ops, 3);
    AfterNext(cfg, NEW_BREAKER, ops, 4);
  }

  lemma RequestsOfTwoProbes(cfg: Settings, ops: seq<Call>)
    requires ops == [AllowAt(0, 1), AllowAt(0, 2), RecordAt(1, 1, false, true), AllowAt(11, 3),
                     RecordAt(12, 2, false, true), AllowAt(22, 4)]
    requires Granted(cfg, NEW_BREAKER, ops, 0) && Granted(cfg, NEW_BREAKER, ops, 1)
    ensures Plausible(cfg, ops)
  {
    var p3 := OpeningRequests(cfg, ops);
    var p4 := p3 + [AllowAt(11, 3)];
    assert Within(p3, 11, 3);
    Ask(cfg, p3, 11, 3);
    var p5 := p4 + [RecordAt(12, 2, false, true)];
    AnswerAdmitted(cfg, p4, ops, 1, RecordAt(12, 2, false, true), 4);
    assert Within(p5, 22, 4);
    Ask(cfg, p5, 22, 4);
    assert p5 + [AllowAt(22, 4)] == ops;
  }

  lemma OpeningRequests(cfg: Settings, ops: seq<Call>) returns (p3: seq<Call>)
    requires |ops| > 3 && ops[..3] == [AllowAt(0, 1), AllowAt(0, 2), RecordAt(1, 1, false, true)]
    requires Granted(cfg, NEW_BREAKER, ops, 0)
    ensures p3 == [AllowAt(0, 1), AllowAt(0, 2), RecordAt(1, 1, false, true)] && Plausible(cfg, p3) && Within(p3, 1, 3)
  {
    var p1 := [] + [AllowAt(0, 1)];
    Ask(cfg, [], 0, 1);
    var p2 := p1 + [AllowAt(0, 2)];
    Ask(cfg, p1, 0, 2);
    assert p2 <= ops by { assert p2 == ops[..3][..2]; }
    assert ops[0] == ops[..3][0];
    AnswerAdmitted(cfg, p2, ops, 0, RecordAt(1, 1, false, true), 3);
    p3 := p2 + [RecordAt(1, 1, false, true)];
  }

  /** A request that was admitted at call i of a longer run records its first result. */
  lemma AnswerAdmitted(cfg: Settings, ops: seq<Call>, longer: seq<Call>, i: nat, op: Call, unused: nat)
    requires Plausible(cfg, ops) && ops <= longer && i < |ops| && Granted(cfg, NEW_BREAKER, longer, i)
    requires op.RecordAt? && longer[i].request == op.request < unused && Within(ops, op.now, unused)
    requires forall o | o in ops && o.RecordAt? :: o.request != op.request
    ensures Plausible(cfg, ops + [op]) && Within(ops + [op], op.now, unused)
  {
    GrantInPrefix(cfg, ops, longer, i);
    PlausibleSnoc(cfg, ops, op);
  }
}
