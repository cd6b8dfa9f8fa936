/** The circuit breaker (internal/dispatch/circuit.go) over any run of calls. */
module Circuit {
  import opened Tables

  datatype CircuitState = Closed | HalfOpen | Open

  datatype Settings = Settings(threshold: int, openFor: int)

  datatype Breaker = Breaker(state: CircuitState, failures: int, openedAt: Time, probing: bool)

  const NEW_BREAKER := Breaker(Closed, 0, 0, false)

  /** The state as seen at `now`: an open circuit turns half-open once openFor has passed. */
  function Current(cfg: Settings, b: Breaker, now: Time): Breaker
  {
    if b.state.Open? && now >= b.openedAt + cfg.openFor then b.(state := HalfOpen) else b
  }

  function Allow(cfg: Settings, b: Breaker, now: Time): (bool, Breaker)
  {
    var c := Current(cfg, b, now);
    match c.state
    case Closed => (true, c)
    case HalfOpen => if c.probing then (false, c) else (true, c.(probing := true))
    case Open => (false, c)
  }

  function Usable(cfg: Settings, b: Breaker, now: Time): bool
  {
    var c := Current(cfg, b, now);
    c.state.Closed? || (c.state.HalfOpen? && !c.probing)
  }

  function Record(cfg: Settings, b: Breaker, now: Time, success: bool, counted: bool): Breaker
  {
    var c := b.(probing := false);
    if success then c.(state := Closed, failures := 0)
    else if b.probing && counted then c.(state := Open, openedAt := now)
    else if counted then
      (if b.failures + 1 >= cfg.threshold then c.(state := Open, openedAt := now, failures := 0)
       else c.(failures := b.failures + 1))
    else c
  }

  // ---------------------------------------------------------------------------
  // The object

  class CircuitBreaker {
    const cfg: Settings
    var state: CircuitState
    var failures: int
    var openedAt: Time
    var probing: bool

    constructor (cfg: Settings)
      ensures this.cfg == cfg && View() == NEW_BREAKER
    {
      this.cfg := cfg;
      state, failures, openedAt, probing := Closed, 0, 0, false;
    }

    function View(): Breaker
      reads this
    {
      Breaker(state, failures, openedAt, probing)
    }

    method CurrentLocked(now: Time) returns (s: CircuitState)
      modifies this`state
      ensures View() == Current(cfg, old(View()), now) && s == state
    {
      if state == Open && !(now < openedAt + cfg.openFor) {
        state := HalfOpen;
      }
      s := state;
    }

    method TryAllow(now: Time) returns (ok: bool)
      modifies this
      ensures (ok, View()) == Allow(cfg, old(View()), now)
    {
      var s := CurrentLocked(now);
      match s {
        case Closed => return true;
        case HalfOpen =>
          if probing {
            return false;
          }
          probing := true;
          return true;
        case Open => return false;
      }
    }

    method IsUsable(now: Time) returns (ok: bool)
      modifies this`state
      ensures ok == Usable(cfg, old(View()), now) && View() == Current(cfg, old(View()), now)
    {
      var s := CurrentLocked(now);
      match s {
        case Closed => return true;
        case HalfOpen => return !probing;
        case Open => return false;
      }
    }

    method RecordResult(now: Time, success: bool, counted: bool)
      modifies this
      ensures View() == Record(cfg, old(View()), now, success, counted)
    {
      var wasProbe := probing;
      probing := false;
      if success {
        state, failures := Closed, 0;
      } else if wasProbe && counted {
        state, openedAt := Open, now;
      } else if counted {
        failures := failures + 1;
        if failures >= cfg.threshold {
          state, openedAt, failures := Open, now, 0;
        }
      }
    }
  }

  // ---------------------------------------------------------------------------
  // Runs of calls

  /** The calls of many requests: each request asks for admission and, once admitted, records its result. */
  datatype Call =
    | AllowAt(now: Time, request: nat)
    | UsableAt(now: Time)
    | StateAt(now: Time)
    | RecordAt(now: Time, request: nat, success: bool, counted: bool)

  function Step(cfg: Settings, b: Breaker, op: Call): Breaker
  {
    match op
    case AllowAt(now, _) => Allow(cfg, b, now).1
    case UsableAt(now) => Current(cfg, b, now)
    case StateAt(now) => Current(cfg, b, now)
    case RecordAt(now, _, success, counted) => Record(cfg, b, now, success, counted)
  }

  function After(cfg: Settings, b: Breaker, ops: seq<Call>): Breaker
  {
    if ops == [] then b else Step(cfg, After(cfg, b, ops[..|ops| - 1]), ops[|ops| - 1])
  }

  /** Call i was a grant. */
  predicate Granted(cfg: Settings, b: Breaker, ops: seq<Call>, i: nat)
    requires i < |ops|
  {
    ops[i].AllowAt? && Allow(cfg, After(cfg, b, ops[..i]), ops[i].now).0
  }

  /** Call i granted the probe of a half-open circuit. */
  predicate GrantedProbe(cfg: Settings, b: Breaker, ops: seq<Call>, i: nat)
    requires i < |ops|
  {
    Granted(cfg, b, ops, i) && Current(cfg, After(cfg, b, ops[..i]), ops[i].now).state.HalfOpen?
  }

  predicate Monotone(ops: seq<Call>) { forall i, j | 0 <= i < j < |ops| :: ops[i].now <= ops[j].now }

  lemma AfterNext(cfg: Settings, b: Breaker, ops: seq<Call>, i: nat)
    requires i < |ops|
    ensures After(cfg, b, ops[..i + 1]) == Step(cfg, After(cfg, b, ops[..i]), ops[i])
  {
    assert ops[..i + 1][..i] == ops[..i];
  }

  // ---------------------------------------------------------------------------
  // Invariants

  predicate Sound(cfg: Settings, b: Breaker)
  {
    (b.probing ==> b.state.HalfOpen?) && 0 <= b.failures < cfg.threshold
  }

  /** In every run, a probe is out only in the half-open state and the failure count stays below the threshold. */
  lemma {:induction false} AlwaysSound(cfg: Settings, ops: seq<Call>)
    requires cfg.threshold >= 1
    ensures Sound(cfg, After(cfg, NEW_BREAKER, ops))
  {
    if ops != [] {
      AlwaysSound(cfg, ops[..|ops| - 1]);
    }
  }

  // ---------------------------------------------------------------------------
  // When a circuit opens and closes

  predicate CountedFailure(op: Call) { op.RecordAt? && !op.success && op.counted }

  function CountedFailures(ops: seq<Call>): nat
  {
    if ops == [] then 0
    else CountedFailures(ops[..|ops| - 1]) + if CountedFailure(ops[|ops| - 1]) then 1 else 0
  }

  /**
   A closed circuit opens at exactly the threshold-th counted failure since the
   last success, whatever other calls and uncounted failures come in between.
   */
  lemma {:induction false} OpensAtThreshold(cfg: Settings, b: Breaker, ops: seq<Call>)
    requires Sound(cfg, b) && b.state.Closed? && forall op | op in ops :: !(op.RecordAt? && op.success)
    ensures b.failures + CountedFailures(ops) < cfg.threshold ==>
              After(cfg, b, ops) == b.(failures := b.failures + CountedFailures(ops))
    ensures ops != [] && CountedFailure(ops[|ops| - 1]) && b.failures + CountedFailures(ops) == cfg.threshold ==>
              After(cfg, b, ops) == Breaker(Open, 0, ops[|ops| - 1].now, false)
  {
    if ops != [] {
      OpensAtThreshold(cfg, b, ops[..|ops| - 1]);
    }
  }

  /**
   A probe's result decides: a success closes the circuit with a clean count, a
   counted failure opens it again from now on, any other failure leaves the next
   caller the probe.
   */
  lemma ProbeDecides(cfg: Settings, b: Breaker, now: Time, counted: bool)
    requires Sound(cfg, b) && b.probing && cfg.openFor > 0
    ensures Record(cfg, b, now, true, counted) == Breaker(Closed, 0, b.openedAt, false)
    ensures Record(cfg, b, now, false, true) == Breaker(Open, b.failures, now, false)
    ensures forall later | now <= later < now + cfg.openFor :: !Allow(cfg, Record(cfg, b, now, false, true), later).0
    ensures Record(cfg, b, now, false, false) == b.(probing := false)
    ensures Allow(cfg, Record(cfg, b, now, false, false), now).0
  {
  }

  /** usable predicts allow at the same instant, and a refusal changes nothing. */
  lemma UsablePredictsAllow(cfg: Settings, b: Breaker, now: Time)
    ensures Usable(cfg, b, now) <==> Allow(cfg, b, now).0
    ensures Sound(cfg, b) && !Allow(cfg, b, now).0 ==> Allow(cfg, b, now).1 == b
  {
  }

  // ---------------------------------------------------------------------------
  // Observing changes nothing

  predicate Observer(op: Call) { op.UsableAt? || op.StateAt? }

  /** The answers to the allow calls, in order. */
  function Answers(cfg: Settings, b: Breaker, ops: seq<Call>): seq<bool>
    decreases |ops|
  {
    if ops == [] then []
    else (if ops[0].AllowAt? then [Allow(cfg, b, ops[0].now).0] else []) + Answers(cfg, Step(cfg, b, ops[0]), ops[1..])
  }

  function WithoutObservers(ops: seq<Call>): seq<Call>
  {
    if ops == [] then [] else (if Observer(ops[0]) then [] else [ops[0]]) + WithoutObservers(ops[1..])
  }

  /** Two breakers that look the same at `now`, and hence ever after. */
  predicate Alike(cfg: Settings, a: Breaker, b: Breaker, now: Time) { Current(cfg, a, now) == Current(cfg, b, now) }

  lemma AlikeStep(cfg: Settings, a: Breaker, b: Breaker, op: Call, since: Time)
    requires Alike(cfg, a, b, since) && since <= op.now
    ensures Alike(cfg, Step(cfg, a, op), Step(cfg, b, op), op.now)
    ensures Allow(cfg, a, op.now).0 == Allow(cfg, b, op.now).0
    ensures Observer(op) ==> Alike(cfg, Step(cfg, a, op), b, op.now)
  {
  }

  lemma {:induction false} AlikeAnswers(cfg: Settings, a: Breaker, b: Breaker, ops: seq<Call>, since: Time)
    requires Alike(cfg, a, b, since) && Monotone(ops) && (ops != [] ==> since <= ops[0].now)
    ensures Answers(cfg, a, ops) == Answers(cfg, b, WithoutObservers(ops))
    decreases |ops|
  {
    if ops != [] {
      var op, rest := ops[0], ops[1..];
      AlikeStep(cfg, a, b, op, since);
      if Observer(op) {
        AlikeAnswers(cfg, Step(cfg, a, op), b, rest, op.now);
        assert WithoutObservers(ops) == WithoutObservers(rest);
      } else {
        AlikeAnswers(cfg, Step(cfg, a, op), Step(cfg, b, op), rest, op.now);
        assert WithoutObservers(ops)[0] == op && WithoutObservers(ops)[1..] == WithoutObservers(rest);
      }
    }
  }

  /** Calls to State and usable never change a later answer. */
  lemma ObservingChangesNothing(cfg: Settings, b: Breaker, ops: seq<Call>)
    requires Monotone(ops)
    ensures Answers(cfg, b, ops) == Answers(cfg, b, WithoutObservers(ops))
  {
    if ops != [] {
      AlikeAnswers(cfg, b, b, ops, ops[0].now);
    }
  }

  // ---------------------------------------------------------------------------
  // An open circuit stays shut

  /** Not closed since an opening at `tripped`; half-open only once openFor has passed since the last opening. */
  predicate ShutSince(cfg: Settings, b: Breaker, tripped: Time, now: Time)
  {
    !b.state.Closed? && tripped <= b.openedAt && (b.state.HalfOpen? ==> b.openedAt + cfg.openFor <= now)
  }

  lemma ShutStep(cfg: Settings, b: Breaker, op: Call, tripped: Time, since: Time)
    requires ShutSince(cfg, b, tripped, since) && tripped <= since <= op.now
    requires !(op.RecordAt? && op.success)
    ensures ShutSince(cfg, Step(cfg, b, op), tripped, op.now)
    ensures op.AllowAt? && Allow(cfg, b, op.now).0 ==> op.now >= tripped + cfg.openFor
  {
  }

  lemma {:induction false} ShutThrough(cfg: Settings, b: Breaker, ops: seq<Call>, i: nat, j: nat)
    requires i < j <= |ops| && Monotone(ops) && cfg.openFor >= 0
    requires ShutSince(cfg, After(cfg, b, ops[..i + 1]), ops[i].now, ops[i].now)
    requires forall k | i < k < j :: !(ops[k].RecordAt? && ops[k].success)
    ensures ShutSince(cfg, After(cfg, b, ops[..j]), ops[i].now, ops[j - 1].now)
    decreases j
  {
    if i + 1 < j {
      ShutThrough(cfg, b, ops, i, j - 1);
      AfterNext(cfg, b, ops, j - 1);
      ShutStep(cfg, After(cfg, b, ops[..j - 1]), ops[j - 1], ops[i].now, ops[j - 2].now);
    }
  }

  /** Call i opened the circuit. */
  predicate Opens(cfg: Settings, b: Breaker, ops: seq<Call>, i: nat)
    requires i < |ops|
  {
    && ops[i].RecordAt?
    && After(cfg, b, ops[..i + 1]).state.Open? && After(cfg, b, ops[..i + 1]).openedAt == ops[i].now
  }

  /** No request is granted within openFor of an opening, unless a success was recorded in between. */
  lemma NoGrantWhileOpen(cfg: Settings, b: Breaker, ops: seq<Call>, i: nat, j: nat)
    requires i < j < |ops| && Monotone(ops) && cfg.openFor >= 0 && Opens(cfg, b, ops, i) && Granted(cfg, b, ops, j)
    requires forall k | i < k < j :: !(ops[k].RecordAt? && ops[k].success)
    ensures ops[j].now >= ops[i].now + cfg.openFor
  {
    ShutThrough(cfg, b, ops, i, j);
    ShutStep(cfg, After(cfg, b, ops[..j]), ops[j], ops[i].now, ops[j - 1].now);
  }

  // ---------------------------------------------------------------------------
  // Probes

  predicate ProbeOut(b: Breaker) { b.state.HalfOpen? && b.probing }

  lemma {:induction false} ProbeStaysOut(cfg: Settings, b: Breaker, ops: seq<Call>, i: nat, j: nat)
    requires i <= j <= |ops| && ProbeOut(After(cfg, b, ops[..i]))
    requires forall k | i <= k < j :: !ops[k].RecordAt?
    ensures ProbeOut(After(cfg, b, ops[..j]))
    decreases j
  {
    if i < j {
      ProbeStaysOut(cfg, b, ops, i, j - 1);
      AfterNext(cfg, b, ops, j - 1);
    }
  }

  /** A probe that is never reported on: every later request is refused, however long it waits. */
  lemma UnreportedProbeBlocksForever(cfg: Settings, b: Breaker, ops: seq<Call>, i: nat)
    requires ProbeOut(b) && i < |ops| && forall k | 0 <= k < i :: !ops[k].RecordAt?
    ensures !Granted(cfg, b, ops, i)
  {
    assert ops[..0] == [];
    ProbeStaysOut(cfg, b, ops, 0, i);
  }

  /** Between two probes some result was recorded. */
  lemma RecordBetweenProbes(cfg: Settings, b: Breaker, ops: seq<Call>, i: nat, j: nat)
    requires i < j < |ops| && GrantedProbe(cfg, b, ops, i) && Granted(cfg, b, ops, j)
    ensures exists k :: i < k < j && ops[k].RecordAt?
  {
    AfterNext(cfg, b, ops, i);
    if forall k | i < k < j :: !ops[k].RecordAt? {
      ProbeStaysOut(cfg, b, ops, i + 1, j);
    }
  }
}
