/** The outcomes a dispatch may decide on, as a relation (internal/dispatch/send.go). */
module Decisions {
  import opened Tables

  /** Durations in nanoseconds. */
  datatype Policy = Policy(service: Class, maxAttempts: int, backoffBase: int, backoffMax: int, rotate: bool)

  /** `o` is a possible outcome of dispatching its job under `pol`. */
  predicate Decides(pol: Policy, o: Outcome)
  {
    var attempts := o.job.attempts + 1;
    match o.kind
    case OutcomeSent => o.attempted && o.reason.None?
    case OutcomeRetry => o.attempted && o.reason.None? && attempts < pol.maxAttempts
    case OutcomeDeferred => !o.attempted && o.reason.None?
    case OutcomeFailed =>
      o.attempted && (o.reason == Some(Rejected) || (o.reason == Some(AttemptsExhausted) && attempts >= pol.maxAttempts))
    case OutcomeExpired => o.reason == Some(TtlPassed) && (o.attempted ==> attempts < pol.maxAttempts)
  }
}
