/**
 Calling the suite's task function with timeout and transport retries
 (packages/evaluation-core/src/proofstep_core/runner.py).
 */
module Invoke {
  import opened Common
  import opened Journal

  /** How one call of the function ends. */
  datatype Attempt<T> = Returned(output: T) | Expired | Raised(transport: bool)

  /** Timeouts and transport failures are worth another attempt; nothing else is. */
  predicate Transient<T>(a: Attempt<T>) {
    a.Expired? || (a.Raised? && a.transport)
  }

  function StatusOf<T>(a: Attempt<T>): Status {
    match a
    case Returned(_) => Ok
    case Expired => TimedOut
    case Raised(_) => Failed
  }

  /** The first attempt that settles the matter, or the last one allowed. */
  method Run<T>(
    attempts: nat -> Attempt<T>, retries: int) returns (status: Status, output: Option<T>, count: int, calls: nat)
    ensures retries < 0 ==> status == Failed && output == None && count == retries && calls == 0
    ensures retries >= 0 ==> 0 <= count <= retries && calls == count + 1
    ensures retries >= 0 ==> (count == retries || !Transient(attempts(count)))
    ensures retries >= 0 ==> forall k: nat :: k < count ==> Transient(attempts(k))
    ensures retries >= 0 ==> status == StatusOf(attempts(count))
    ensures retries >= 0 ==> output == if attempts(count).Returned? then Some(attempts(count).output) else None
  {
    calls := 0;
    var attempt := 0;
    while attempt < retries + 1
      invariant 0 <= attempt == calls
      invariant if retries < 0 then attempt == 0 else attempt <= retries
      invariant forall k: nat :: k < attempt ==> Transient(attempts(k))
    {
      var outcome := attempts(attempt);
      calls := calls + 1;
      match outcome {
        case Returned(value) =>
          return Ok, Some(value), attempt, calls;
        case Expired =>
          if attempt >= retries { return TimedOut, None, attempt, calls; }
        case Raised(transport) =>
          if !transport || attempt >= retries { return Failed, None, attempt, calls; }
      }
      attempt := attempt + 1;
    }
    return Failed, None, retries, calls;
  }
}
