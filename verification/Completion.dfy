/** One terminal outcome per execution, and its delivery
    (src/ojs/worker/completion_reporter.py, src/ojs/worker/runtime.py:249-338). */
module Completion {
  import opened Wrappers
  import opened JsonValue

  datatype Outcome = Completed(result: Json) | Failed(code: string, message: string, retryable: bool)

  datatype Call = Ack(jobId: string, result: Json) | Nack(jobId: string, code: string, message: string, retryable: bool)

  function CallFor(jobId: string, outcome: Outcome): Call {
    match outcome
    case Completed(result) => Ack(jobId, result)
    case Failed(code, message, retryable) => Nack(jobId, code, message, retryable)
  }

  datatype DeliveryError = Connection | Timeout | Api(retryable: bool) | Unexpected(name: string)

  predicate RetryableDelivery(error: DeliveryError) {
    error.Connection? || error.Timeout? || (error.Api? && error.retryable)
  }

  datatype Answer = Accepted | Raised(error: DeliveryError) | Cancelled

  /** The transport's answer to one call, and whether the sleep after it is cancelled. */
  datatype Try = Try(answer: Answer, sleepCancelled: bool)

  predicate Retried(answer: Answer) {
    answer.Raised? && RetryableDelivery(answer.error)
  }

  datatype Delivery = Delivery(call: Call, answer: Answer)

  /** Identical calls, at most `most` of them, and only a retryable failure is followed by
      another call. */
  predicate OneOutcome(calls: seq<Delivery>, call: Call, most: nat) {
    && |calls| <= most
    && (forall k | 0 <= k < |calls| :: calls[k].call == call)
    && (forall k | 0 <= k < |calls| - 1 :: Retried(calls[k].answer))
  }

  /** The last call was cancelled, or the sleep after it was. */
  predicate CutShort(calls: seq<Delivery>, most: nat) {
    && calls != []
    && (calls[|calls| - 1].answer == Cancelled || (|calls| < most && Retried(calls[|calls| - 1].answer)))
  }

  /** How delivering ends; None is a normal return. */
  datatype Failure = Error(error: DeliveryError) | Cancellation

  class CompletionReporter {
    const jobId: string
    const maxAttempts: nat
    var outcome: Option<Outcome>
    var calls: seq<Delivery>

    /** Every call made so far delivers the one outcome claimed. */
    ghost predicate Valid()
      reads this
    {
      match outcome
      case None => calls == []
      case Some(o) => OneOutcome(calls, CallFor(jobId, o), maxAttempts)
    }

    constructor (jobId: string, maxAttempts: nat)
      ensures Valid() && this.jobId == jobId && this.maxAttempts == maxAttempts && outcome == None && calls == []
    {
      this.jobId, this.maxAttempts, outcome, calls := jobId, maxAttempts, None, [];
    }

    /** The part of `report` under the lock: the first outcome wins for good. */
    method Claim(o: Outcome) returns (won: bool)
      requires Valid()
      modifies this`outcome
      ensures Valid() && won == old(outcome).None?
      ensures outcome == if won then Some(o) else old(outcome)
    {
      won := outcome.None?;
      if won { outcome := Some(o); }
    }

    /** `_deliver`, by the report that won the claim. It returns normally exactly when a
        call was accepted or none is allowed, and otherwise with what the last call or the
        sleep after it raised. A connection error, a timeout and a retryable answer are
        followed by another call while one is left; every other error ends it at once. */
    method Deliver(o: Outcome, tries: seq<Try>) returns (failure: Option<Failure>)
      requires Valid() && outcome == Some(o) && calls == [] && |tries| >= maxAttempts
      modifies this`calls
      ensures Valid() && (maxAttempts > 0 ==> calls != [])
      ensures forall k | 0 <= k < |calls| :: calls[k].answer == tries[k].answer
      ensures failure.None? <==> calls == [] || calls[|calls| - 1].answer == Accepted
      ensures failure.Some? ==>
                failure.value == if CutShort(calls, maxAttempts) then Cancellation
                                 else Error(calls[|calls| - 1].answer.error)
      ensures failure.Some? && |calls| < maxAttempts && Retried(calls[|calls| - 1].answer) ==>
              tries[|calls| - 1].sleepCancelled
      ensures forall k | 0 <= k < |calls| ::
                calls[k].call == if o.Completed? then Ack(jobId, o.result)
                                 else Nack(jobId, o.code, o.message, o.retryable)
      ensures |calls| <= maxAttempts && forall k | 0 <= k < |calls| - 1 ::
                calls[k].answer in {Raised(Connection), Raised(Timeout), Raised(Api(true))}
      ensures failure == Some(Cancellation) <==>
                && calls != []
                && var last := calls[|calls| - 1].answer;
                   || last == Cancelled
                   || (|calls| < maxAttempts && last in {Raised(Connection), Raised(Timeout), Raised(Api(true))})
      ensures failure.Some? && failure.value.Error? && |calls| < maxAttempts ==>
                failure.value.error == Api(false) || failure.value.error.Unexpected?
    {
      for attempt := 0 to maxAttempts
        invariant |calls| == attempt && Valid()
        invariant forall k | 0 <= k < attempt :: calls[k].answer == tries[k].answer
        invariant forall k | 0 <= k < attempt :: Retried(calls[k].answer)
        invariant forall k | 0 <= k < attempt ::
                    calls[k].answer in {Raised(Connection), Raised(Timeout), Raised(Api(true))}
        invariant forall k | 0 <= k < attempt ::
                    calls[k].call == if o.Completed? then Ack(jobId, o.result)
                                     else Nack(jobId, o.code, o.message, o.retryable)
        invariant attempt == maxAttempts ==> maxAttempts == 0
      {
        var call := if o.Completed? then Ack(jobId, o.result) else Nack(jobId, o.code, o.message, o.retryable);
        var t := tries[attempt];
        calls := calls + [Delivery(call, t.answer)];
        match t.answer {
          case Accepted => return None;
          case Cancelled => return Some(Cancellation);
          case Raised(error) =>
            if attempt >= maxAttempts - 1 || !RetryableDelivery(error) { return Some(Error(error)); }
            if t.sleepCancelled { return Some(Cancellation); }
        }
      }
      return None;
    }

    /** `report`: true when this outcome won and was delivered, false when another won. */
    method Report(o: Outcome, tries: seq<Try>) returns (r: Result<bool, Failure>)
      requires Valid() && |tries| >= maxAttempts
      modifies this
      ensures Valid()
      ensures old(outcome).Some? ==> r == Ok(false) && outcome == old(outcome) && calls == old(calls)
      ensures old(outcome).None? ==> outcome == Some(o) && (r.Ok? ==> r.value)
      ensures old(outcome).None? && maxAttempts > 0 ==>
                && calls != [] && (r.Ok? <==> calls[|calls| - 1].answer == Accepted)
                && (r == Err(Cancellation) <==> CutShort(calls, maxAttempts))
    {
      var won := Claim(o);
      if !won { return Ok(false); }
      var failure := Deliver(o, tries);
      match failure {
        case None => return Ok(true);
        case Some(f) => return Err(f);
      }
    }
  }

  // ---------------------------------------------------------------------- one job's process

  /** What running the handler inside its middleware comes to. */
  datatype Handled = NoHandler(jobType: string) | Returned(result: Json) | Threw(message: string) | Stopped

  function OutcomeOf(h: Handled): Outcome {
    match h
    case NoHandler(jobType) => Failed("unknown_job_type", "No handler registered for job type: " + jobType, false)
    case Returned(result) => Completed(result)
    case Threw(message) => Failed("handler_error", message, true)
    case Stopped => Failed("cancelled", "Job cancelled during shutdown", true)
  }

  /** How `_process_job` leaves: normally, with a delivery error, or cancelled. */
  datatype Leave = Normally | With(error: DeliveryError) | AsCancelled

  function Attempts(): nat { 3 }

  /** `_process_job`. The job gets the one outcome its handler came to, in at most three
      identical calls. A delivery error leaves only when no handler was found or the job was
      cancelled; a cancellation always leaves. */
  method ProcessJob(jobId: string, handled: Handled, tries: seq<Try>)
    returns (leave: Leave, reporter: CompletionReporter)
    requires |tries| >= Attempts()
    ensures fresh(reporter) && reporter.Valid() && reporter.outcome == Some(OutcomeOf(handled))
    ensures OneOutcome(reporter.calls, CallFor(jobId, OutcomeOf(handled)), 3) && reporter.calls != []
    ensures forall k | 0 <= k < |reporter.calls| ::
              reporter.calls[k].call == match handled
                case Returned(result) => Ack(jobId, result)
                case NoHandler(jobType) =>
                  Nack(jobId, "unknown_job_type", "No handler registered for job type: " + jobType, false)
                case Threw(message) => Nack(jobId, "handler_error", message, true)
                case Stopped => Nack(jobId, "cancelled", "Job cancelled during shutdown", true)
    ensures leave.With? ==> handled.NoHandler? || handled.Stopped?
    ensures handled.Stopped? ==> leave != Normally
    ensures leave == Normally && handled.NoHandler? ==> reporter.calls[|reporter.calls| - 1].answer == Accepted
    ensures CutShort(reporter.calls, 3) ==> leave == AsCancelled
    ensures leave == AsCancelled ==> handled.Stopped? || CutShort(reporter.calls, 3)
  {
    reporter := new CompletionReporter(jobId, Attempts());
    match handled {
      case NoHandler(jobType) =>
        var unknown := Failed("unknown_job_type", "No handler registered for job type: " + jobType, false);
        var r := reporter.Report(unknown, tries);
        leave := if r.Ok? then Normally else Left(r.error);
      case Stopped =>
        var r := reporter.Report(Failed("cancelled", "Job cancelled during shutdown", true), tries);
        leave := if r.Ok? then AsCancelled else Left(r.error);
      case Threw(message) =>
        var r := reporter.Report(Failed("handler_error", message, true), tries);
        leave := if r == Err(Cancellation) then AsCancelled else Normally;
      case Returned(result) =>
        var r := reporter.Report(Completed(result), tries);
        leave := if r == Err(Cancellation) then AsCancelled else Normally;
    }
  }

  function Left(f: Failure): Leave {
    match f
    case Error(error) => With(error)
    case Cancellation => AsCancelled
  }
}
