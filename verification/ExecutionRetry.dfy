/** Local retries of a handler (src/ojs/worker/execution_retry.py:93-133). */
module ExecutionRetry {
  import opened Numbers

  datatype Answer<T, E> = Returned(value: T) | Failed(error: E) | Cancelled

  /** How the sleep before a retry ends: rested, out of lease, or cancelled. */
  datatype Nap = Rested | NoLease | Interrupted

  datatype End<T, E> = Value(value: T) | Raised(error: E) | LeaseLost | Stopped

  /** `run`: the handler is called again after a failure that was slept off, and after nothing
      else. */
  method Run<T, E>(maxRetries: nat, answers: seq<Answer<T, E>>, naps: seq<Nap>) returns (r: End<T, E>, calls: nat)
    requires |answers| > maxRetries && |naps| >= maxRetries
    ensures 1 <= calls <= maxRetries + 1
    ensures forall k | 0 <= k < calls - 1 :: answers[k].Failed? && naps[k].Rested?
    ensures answers[calls - 1].Failed? && calls <= maxRetries ==> !naps[calls - 1].Rested?
    ensures r == match answers[calls - 1]
                 case Returned(v) => Value(v)
                 case Cancelled => Stopped
                 case Failed(e) =>
                   if calls - 1 >= maxRetries then Raised(e)
                   else if naps[calls - 1] == NoLease then LeaseLost else Stopped
  {
    var attempt := 0;
    while true
      invariant attempt <= maxRetries
      invariant forall k | 0 <= k < attempt :: answers[k].Failed? && naps[k].Rested?
      decreases maxRetries - attempt
    {
      calls := attempt + 1;
      match answers[attempt] {
        case Returned(v) => return Value(v), calls;
        case Cancelled => return Stopped, calls;
        case Failed(e) =>
          if attempt >= maxRetries { return Raised(e), calls; }
          match naps[attempt] {
            case NoLease => return LeaseLost, calls;
            case Interrupted => return Stopped, calls;
            case Rested =>
          }
      }
      attempt := attempt + 1;
    }
  }

  // --------------------------------------------------------------------------- the delays

  function Doubled(delay: real, times: nat): real {
    if times == 0 then delay else 2.0 * Doubled(delay, times - 1)
  }

  function Backoff(baseDelay: real, maxDelay: real, attempt: nat): real {
    Least(Doubled(baseDelay, attempt), maxDelay)
  }

  function Jittered(delay: real, random: real): real {
    Times(delay, 0.5 + random * 0.5)
  }

  /** `_delay`, with the random value in [0, 1). */
  function Delay(baseDelay: real, maxDelay: real, jitter: bool, attempt: nat, random: real): real {
    if jitter then Jittered(Backoff(baseDelay, maxDelay, attempt), random) else Backoff(baseDelay, maxDelay, attempt)
  }

  lemma {:induction false} DoubledGrows(delay: real, times: nat)
    requires delay >= 0.0
    ensures delay <= Doubled(delay, times) <= Doubled(delay, times + 1)
  {
    if times > 0 { DoubledGrows(delay, times - 1); }
  }

  lemma JitterBetween(delay: real, random: real)
    requires delay >= 0.0 && 0.0 <= random < 1.0
    ensures delay / 2.0 <= Jittered(delay, random) <= delay
  {
    Monotone(delay, 0.5, 0.5 + random * 0.5);
    Monotone(delay, 0.5 + random * 0.5, 1.0);
  }

  /** A retry waits at most the capped delay and at least half of it, never less than
      nothing, and the capped delay does not shrink from one attempt to the next. */
  lemma DelayWithin(baseDelay: real, maxDelay: real, jitter: bool, attempt: nat, random: real)
    requires baseDelay >= 0.0 && maxDelay >= 0.0 && 0.0 <= random < 1.0
    ensures 0.0 <= Backoff(baseDelay, maxDelay, attempt) / 2.0 <= Delay(baseDelay, maxDelay, jitter, attempt, random)
    ensures Delay(baseDelay, maxDelay, jitter, attempt, random) <= Backoff(baseDelay, maxDelay, attempt) <= maxDelay
    ensures Backoff(baseDelay, maxDelay, attempt) <= Backoff(baseDelay, maxDelay, attempt + 1)
  {
    DoubledGrows(baseDelay, attempt);
    JitterBetween(Backoff(baseDelay, maxDelay, attempt), random);
  }

  /** The capped delay starts at the base delay and doubles from each attempt to the next, up
      to the cap. */
  lemma BackoffDoubles(baseDelay: real, maxDelay: real, attempt: nat)
    requires baseDelay >= 0.0 && maxDelay >= 0.0
    ensures Backoff(baseDelay, maxDelay, 0) == Least(baseDelay, maxDelay)
    ensures var delay := Backoff(baseDelay, maxDelay, attempt);
      Backoff(baseDelay, maxDelay, attempt + 1) == Least(delay + delay, maxDelay)
  {
    DoubledGrows(baseDelay, attempt);
  }

  /** Jitter gives half the delay for 0, and every delay from there up to the whole for some
      random value. */
  lemma JitterCovers(delay: real, wait: real) returns (random: real)
    requires delay > 0.0 && Times(delay, 0.5) <= wait < delay
    ensures 0.0 <= random < 1.0 && Jittered(delay, random) == wait
    ensures Jittered(delay, 0.0) == Times(delay, 0.5)
  {
    var share := Ratio(wait, delay);
    Between(delay, share, 0.5, 1.0);
    random := 2.0 * share - 1.0;
    assert 0.5 + random * 0.5 == share;
  }
}
