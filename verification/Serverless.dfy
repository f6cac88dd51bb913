/** One serverless invocation, and the SQS batch that asks for redelivery
    (src/ojs/serverless/invocation_bridge.py, src/ojs/serverless/error_response.py,
    src/ojs/serverless/aws_lambda.py). */
module Serverless {
  import opened Wrappers
  import opened JsonValue
  import opened Completion

  /** Why an execution failed; `name` is the exception's type name. */
  datatype Fault =
    | InvalidEvent(name: string)
    | HandlerMissing(name: string)
    | NotSerializable(name: string)
    | Other(name: string)

  /** What executing the handler and checking its result comes to. */
  datatype Executed = Ran(result: Json) | Broke(fault: Fault) | Abandoned

  datatype Invocation = Invocation(completed: bool, jobId: string, error: Option<Outcome>, requiresRedelivery: bool)

  function FailureOf(fault: Fault): Outcome {
    match fault
    case InvalidEvent(name) => Failed("invalid_request", name, false)
    case HandlerMissing(name) => Failed("unknown_job_type", name, false)
    case NotSerializable(name) => Failed("invalid_result", name, false)
    case Other(name) => Failed("handler_error", name, true)
  }

  /** A failed execution is retryable exactly when the handler itself broke; each kind of fault
      has its own code, and the exception's type name is the message. */
  lemma FaultsTell(fault: Fault)
    ensures FailureOf(fault).Failed? && FailureOf(fault).message == fault.name
    ensures FailureOf(fault).retryable <==> fault.Other?
    ensures FailureOf(fault).code == "invalid_request" <==> fault.InvalidEvent?
    ensures FailureOf(fault).code == "unknown_job_type" <==> fault.HandlerMissing?
    ensures FailureOf(fault).code == "invalid_result" <==> fault.NotSerializable?
    ensures FailureOf(fault).code == "handler_error" <==> fault.Other?
  {
    assert "invalid_request"[8] == 'r' && "unknown_job_type"[0] == 'u' && "invalid_result"[8] == 'r';
    assert "invalid_request"[10] == 'q' && "invalid_result"[10] == 's' && "handler_error"[0] == 'h';
    assert "invalid_request"[0] == "invalid_result"[0] == 'i';
  }

  /** What the backend is told about an execution. */
  function Told(e: Executed): Outcome
    requires !e.Abandoned?
  {
    match e
    case Ran(result) => Completed(result)
    case Broke(fault) => FailureOf(fault)
  }

  /** Some ack or nack returned normally. */
  predicate Answered(calls: seq<Delivery>) {
    exists k | 0 <= k < |calls| :: calls[k].answer == Accepted
  }

  /** `invoke`; None is a cancellation. */
  method Invoke(jobId: string, reportCompletion: bool, transport: bool, executed: Executed, tries: seq<Try>,
                errorName: string)
    returns (r: Option<Invocation>, calls: seq<Delivery>)
    requires |tries| >= 3
    ensures calls != [] <==> reportCompletion && transport && !executed.Abandoned?
    ensures calls != [] ==> OneOutcome(calls, CallFor(jobId, Told(executed)), 3)
    ensures r.None? <==> executed.Abandoned? || CutShort(calls, 3)
    ensures r.Some? ==>
              r.value.requiresRedelivery
              == (reportCompletion && if transport then !Answered(calls) else executed.Broke?)
    ensures r.Some? ==>
              && r.value.jobId == jobId
              && (r.value.completed <==> executed.Ran? && !r.value.requiresRedelivery)
              && (r.value.error.None? <==> r.value.completed)
    ensures r.Some? && r.value.error.Some? ==>
              r.value.error.value == if calls != [] && !Answered(calls)
                                     then Failed("completion_callback_error", errorName, true)
                                     else FailureOf(executed.fault)
  {
    calls := [];
    match executed {
      case Abandoned => return None, [];
      case Broke(fault) =>
        var outcome := FailureOf(fault);
        if reportCompletion {
          if !transport { return Some(Invocation(false, jobId, Some(outcome), true)), []; }
          var reporter := new CompletionReporter(jobId, 3);
          var report := reporter.Report(outcome, tries);
          calls := reporter.calls;
          LastAnswers(calls, CallFor(jobId, outcome));
          if report == Err(Cancellation) { return None, calls; }
          if report.Err? { return Some(CallbackFailed(jobId, errorName)), calls; }
        }
        return Some(Invocation(false, jobId, Some(outcome), false)), calls;
      case Ran(result) =>
        if reportCompletion && transport {
          var reporter := new CompletionReporter(jobId, 3);
          var report := reporter.Report(Completed(result), tries);
          calls := reporter.calls;
          LastAnswers(calls, CallFor(jobId, Completed(result)));
          if report == Err(Cancellation) { return None, calls; }
          if report.Err? { return Some(CallbackFailed(jobId, errorName)), calls; }
        }
        return Some(Invocation(true, jobId, None, false)), calls;
    }
  }

  function CallbackFailed(jobId: string, errorName: string): Invocation {
    Invocation(false, jobId, Some(Failed("completion_callback_error", errorName, true)), true)
  }

  /** Only the last call can have been accepted. */
  lemma LastAnswers(calls: seq<Delivery>, call: Call)
    requires OneOutcome(calls, call, 3) && calls != []
    ensures Answered(calls) <==> calls[|calls| - 1].answer == Accepted
  {
    if k :| 0 <= k < |calls| && calls[k].answer == Accepted {
      assert k < |calls| - 1 ==> Retried(calls[k].answer);
    }
  }

  // ------------------------------------------------------------------------ the SQS batch

  /** What the environment does for one record: what its body parses to, how its handler
      runs and how its ack or nack is answered. */
  datatype Fate = Fate(job: Option<string>, executed: Executed, tries: seq<Try>, errorName: string)

  function MessageId(record: Json): string {
    if record.Obj? && "messageId" in record.fields && record.fields["messageId"].Str?
    then record.fields["messageId"].text else "unknown"
  }

  function Records(event: map<string, Json>): seq<Json> {
    if "Records" in event && event["Records"].Arr? then event["Records"].items else []
  }

  /** An object whose body parses to a job. */
  predicate WellFormed(record: Json, fate: Fate) {
    record.Obj? && fate.job.Some?
  }

  /** With a transport, a record fails when no call for it was accepted; without one, when
      it is malformed or its handler broke. */
  predicate Fails(transport: bool, record: Json, fate: Fate, calls: seq<Delivery>) {
    if transport then !Answered(calls) else !WellFormed(record, fate) || fate.executed.Broke?
  }

  /** What failing means, case by case. */
  lemma FailsExactly(transport: bool, record: Json, fate: Fate, calls: seq<Delivery>)
    ensures transport ==> (Fails(transport, record, fate, calls) <==>
                             forall k | 0 <= k < |calls| :: calls[k].answer != Accepted)
    ensures !transport ==> (Fails(transport, record, fate, calls) <==>
                              !record.Obj? || fate.job.None? || fate.executed.Broke?)
  {
  }

  /** The message ids of the failed ones among the first k records, in record order. */
  function FailedIds(transport: bool, records: seq<Json>, fates: seq<Fate>, log: seq<seq<Delivery>>,
                     k: nat): seq<string>
    requires k <= |records| <= |fates| && k <= |log|
  {
    if k == 0 then [] else
      FailedIds(transport, records, fates, log, k - 1)
      + if Fails(transport, records[k - 1], fates[k - 1], log[k - 1]) then [MessageId(records[k - 1])] else []
  }

  lemma {:induction false} LogGrows(transport: bool, records: seq<Json>, fates: seq<Fate>, log: seq<seq<Delivery>>,
                                    more: seq<seq<Delivery>>, k: nat)
    requires k <= |records| <= |fates| && k <= |log|
    ensures FailedIds(transport, records, fates, log + more, k) == FailedIds(transport, records, fates, log, k)
  {
    if k > 0 { LogGrows(transport, records, fates, log, more, k - 1); }
  }

  /** Calls are made only for well-formed records, and deliver what the handler came to. */
  ghost predicate CallsFit(transport: bool, record: Json, fate: Fate, calls: seq<Delivery>) {
    calls != [] ==>
      && transport && WellFormed(record, fate) && !fate.executed.Abandoned?
      && OneOutcome(calls, CallFor(fate.job.value, Told(fate.executed)), 3)
  }

  /** One turn of the loop over records. */
  method HandleRecord(transport: bool, record: Json, fate: Fate)
    returns (cancelled: bool, failed: bool, messageId: string, calls: seq<Delivery>)
    requires |fate.tries| >= 3
    ensures CallsFit(transport, record, fate, calls) && messageId == MessageId(record)
    ensures record.Obj? && "messageId" in record.fields && record.fields["messageId"].Str? ==>
              messageId == record.fields["messageId"].text
    ensures !record.Obj? || "messageId" !in record.fields || !record.fields["messageId"].Str? ==> messageId == "unknown"
    ensures !cancelled ==> failed == Fails(transport, record, fate, calls)
    ensures cancelled ==> fate.executed.Abandoned? || CutShort(calls, 3)
  {
    cancelled, failed, messageId, calls := false, true, "unknown", [];
    if record.Obj? {
      var raw := if "messageId" in record.fields then record.fields["messageId"] else Str("unknown");
      if raw.Str? { messageId := raw.text; }
      if fate.job.Some? {
        var outcome;
        outcome, calls := Invoke(fate.job.value, true, transport, fate.executed, fate.tries, fate.errorName);
        cancelled := outcome.None?;
        failed := outcome.Some? && outcome.value.requiresRedelivery;
      }
    }
  }

  /** `handle_sqs`; None is a cancellation. Every record of the list is handled, unless a
      cancellation ends it before. */
  method HandleSqs(event: map<string, Json>, transport: bool, fates: seq<Fate>)
    returns (r: Option<seq<string>>, log: seq<seq<Delivery>>)
    requires |fates| >= |Records(event)| && forall k | 0 <= k < |fates| :: |fates[k].tries| >= 3
    ensures |log| <= |Records(event)|
    ensures forall k | 0 <= k < |log| :: CallsFit(transport, Records(event)[k], fates[k], log[k])
    ensures r.Some? && "Records" in event && event["Records"].Arr? ==>
              |log| == |event["Records"].items| && Records(event) == event["Records"].items
    ensures "Records" !in event || !event["Records"].Arr? ==> r == Some([]) && log == []
    ensures r.Some? ==> |log| == |Records(event)| && r.value == FailedIds(transport, Records(event), fates, log, |log|)
    ensures r.None? ==> log != [] && (fates[|log| - 1].executed.Abandoned? || CutShort(log[|log| - 1], 3))
  {
    var failures: seq<string> := [];
    log := [];
    var records := Records(event);
    if records == [] { return Some([]), []; }
    for k := 0 to |records|
      invariant |log| == k && failures == FailedIds(transport, records, fates, log, k)
      invariant forall j | 0 <= j < k :: CallsFit(transport, records[j], fates[j], log[j])
    {
      var cancelled, failed, messageId, calls := HandleRecord(transport, records[k], fates[k]);
      LogGrows(transport, records, fates, log, [calls], k);
      log := log + [calls];
      if cancelled { return None, log; }
      if failed { failures := failures + [messageId]; }
    }
    return Some(failures), log;
  }

  /** How many of the first k records failed. */
  function FailedBefore(transport: bool, records: seq<Json>, fates: seq<Fate>, log: seq<seq<Delivery>>, k: nat): nat
    requires k <= |records| <= |fates| && |records| == |log|
  {
    if k == 0 then 0 else
      FailedBefore(transport, records, fates, log, k - 1)
      + if Fails(transport, records[k - 1], fates[k - 1], log[k - 1]) then 1 else 0
  }

  lemma {:induction false} FailedIdsPrefix(transport: bool, records: seq<Json>, fates: seq<Fate>,
                                           log: seq<seq<Delivery>>, j: nat, k: nat)
    requires j <= k <= |records| <= |fates| && |records| == |log|
    ensures |FailedIds(transport, records, fates, log, j)| == FailedBefore(transport, records, fates, log, j)
    ensures FailedIds(transport, records, fates, log, j) <= FailedIds(transport, records, fates, log, k)
  {
    if j < k {
      FailedIdsPrefix(transport, records, fates, log, j, k - 1);
    } else if j > 0 {
      FailedIdsPrefix(transport, records, fates, log, j - 1, k - 1);
    }
  }

  /** Each failed record's id is at the place given by the failed records before it, and
      nothing else is reported. */
  lemma FailedIdsInOrder(transport: bool, records: seq<Json>, fates: seq<Fate>, log: seq<seq<Delivery>>, k: nat)
    requires k < |records| <= |fates| && |records| == |log|
    ensures var ids := FailedIds(transport, records, fates, log, |log|);
      && |ids| == FailedBefore(transport, records, fates, log, |records|)
      && (Fails(transport, records[k], fates[k], log[k]) ==>
            var at := FailedBefore(transport, records, fates, log, k);
            at < |ids| && ids[at] == MessageId(records[k]))
  {
    FailedIdsPrefix(transport, records, fates, log, |records|, |records|);
    FailedIdsPrefix(transport, records, fates, log, k, k);
    FailedIdsPrefix(transport, records, fates, log, k + 1, |records|);
  }
}
