/** What a chain gets that calls its batch terminal again
    (src/ojs/client/enqueue_pipeline.py:169-201). */
module TerminalReentry {
  import opened Wrappers
  import opened EnqueueChain

  /** A chain calls its terminal for the first time. */
  predicate FirstCall<C>(code: Code<C>, before: Local<C>) {
    before.Running? && !before.reached && before.failure.None? && code.act(before.state).Dispatch?
  }

  /** The error a terminal raises at its first call, and where the chain goes on: its own
      validation failed, or it parked and was answered with an error. */
  ghost predicate FirstRaises<C>(code: Code<C>, before: Local<C>, error: Error, after: Local<C>)
    requires FirstCall(code, before)
  {
    match Validate(code.act(before.state).candidate)
    case Err(e) => error == e && after == Advance(code, before)
    case Ok(_) => after == Resumed(Advance(code, before), Raised(error))
  }

  /** What the terminal raises when it is called again. */
  function RaisedAgain<C>(l: Local<C>): Error
    requires l.Running? && l.reached
  {
    if l.failure.Some? then l.failure.value else TerminalReinvoked
  }

  /** Every later call raises the first call's error again exactly when that error came
      from the terminal's own validation; after a failed push it raises the generic one. */
  lemma OriginalRaisedAgain<C>(code: Code<C>, before: Local<C>, error: Error, after: Local<C>, n: nat)
    requires FirstCall(code, before) && FirstRaises(code, before, error, after)
    requires var l := Iterate(code, after, n); l.Running? && code.act(l.state).Dispatch?
    ensures var l := Iterate(code, after, n);
      && l.reached
      && Advance(code, l) == Running(code.act(l.state).resume(Raised(RaisedAgain(l))), true, l.failure)
      && (error != TerminalReinvoked ==>
            (RaisedAgain(l) == error <==> Validate(code.act(before.state).candidate).Err?))
  {
    StaysPast(code, after, after.failure, n);
  }

  // -------------------------------------------------------------- a chain that retries

  datatype Retry = First(request: Request) | Second(request: Request, answer: Outcome) | End(answer: Outcome)

  /** Calls next, and calls it once more with the same request when that raised. */
  function Retrying(): Code<Retry> {
    Code(request => First(request), RetryAct)
  }

  function RetryAct(s: Retry): Action<Retry> {
    match s
    case First(request) => Dispatch(request, answer => Second(request, answer))
    case Second(request, answer) =>
      if answer.Raised? then Dispatch(request, again => End(again)) else Settle(answer)
    case End(answer) => Settle(answer)
  }

  /** The push of a valid request fails; the retry is told something else than the push's
      error, against the comment at that branch. */
  lemma PushErrorIsLost(request: Request, error: Error)
    requires Validate(request).Ok? && error != TerminalReinvoked
    ensures var before := Running(First(request), false, None);
      && FirstCall(Retrying(), before)
      && Advance(Retrying(), before).Parked?
      && Evaluates(Retrying(), Resumed(Advance(Retrying(), before), Raised(error)), Over(Raised(TerminalReinvoked)))
  {
    var code := Retrying();
    var l0 := Resumed(Advance(code, Running(First(request), false, None)), Raised(error));
    var l1, l2 := Advance(code, l0), Advance(code, Advance(code, l0));
    assert l0 == Running(Second(request, Raised(error)), true, None);
    assert l1 == Running(End(Raised(TerminalReinvoked)), true, None);
    ReachesSelf(code, l0);
    ReachesNext(code, l0, l0);
    ReachesNext(code, l0, l1);
    assert l2 == Over(Raised(TerminalReinvoked));
  }
}
