/** When a list of middlewares makes progress, so that a batch over it always ends
    (src/ojs/middleware/__init__.py, src/ojs/client/enqueue_pipeline.py). */
module MiddlewareProgress {
  import opened Wrappers
  import opened EnqueueChain
  import opened EnqueueBatch
  import EnqueueSchedules
  import opened MiddlewareChain
  import TerminalReentry

  // ------------------------------------------------- driven with a terminal's answers

  function Repeat(answer: Outcome, n: nat): (r: seq<Outcome>)
    ensures |r| == n && forall i | 0 <= i < n :: r[i] == answer
  {
    seq(n, i => answer)
  }

  /** Driven with one first answer and then the same answer again and again, the coroutine
      settles. */
  ghost predicate SettlesOn<C>(code: Code<C>, state: C, first: Outcome, later: Outcome) {
    exists more: nat, n: nat :: SettlesIn(code, state, first, later, more, n)
  }

  ghost predicate SettlesIn<C>(code: Code<C>, state: C, first: Outcome, later: Outcome, more: nat, n: nat) {
    code.act(After(code, Drive(state, [first] + Repeat(later, more), []), n).state).Settle?
  }

  /** A batch terminal answers later calls with its validation error, or the generic one. */
  function Later(failure: Option<Error>): Outcome {
    Raised(if failure.Some? then failure.value else TerminalReinvoked)
  }

  lemma {:induction false} PastHalts<C>(code: Code<C>, d: Drive<C>, n: nat, failure: Option<Error>)
    requires code.act(After(code, d, n).state).Settle?
    requires forall i | 0 <= i < |d.answers| :: d.answers[i] == Later(failure)
    ensures Halts(code, Running(d.state, true, failure))
    decreases n
  {
    var l: Local<C> := Running(d.state, true, failure);
    if code.act(d.state).Settle? {
      OverHalts(code, l);
    } else if n == 0 {
      assert false;
    } else if code.act(d.state).Dispatch? && d.answers == [] {
      StuckForever(code, d, n);
      assert false;
    } else {
      PastHalts(code, Next(code, d), n - 1, failure);
      assert Advance(code, l) == Running(Next(code, d).state, true, failure);
      HaltsNext(code, l);
    }
  }

  lemma OverHalts<C>(code: Code<C>, l: Local<C>)
    requires Stopped(Advance(code, l))
    ensures Halts(code, l)
  {
    assert RestsAt(code, Advance(code, l), 0);
    HaltsNext(code, l);
  }

  lemma PauseSettles<C>(code: Code<C>, state: C, first: Outcome, later: Outcome)
    requires code.act(state).Pause? && SettlesOn(code, state, first, later)
    ensures SettlesOn(code, code.act(state).next, first, later)
  {
    var more: nat, n: nat :| SettlesIn(code, state, first, later, more, n);
    assert SettlesIn(code, code.act(state).next, first, later, more, n - 1);
  }

  lemma DispatchSettles<C>(code: Code<C>, state: C, first: Outcome, later: Outcome) returns (more: nat, n: nat)
    requires code.act(state).Dispatch? && SettlesOn(code, state, first, later)
    ensures var called := Drive(code.act(state).resume(first), Repeat(later, more), [code.act(state).candidate]);
      code.act(After(code, called, n).state).Settle?
  {
    var k: nat;
    more, k :| SettlesIn(code, state, first, later, more, k);
    n := k - 1;
    assert ([first] + Repeat(later, more))[1..] == Repeat(later, more);
    assert Next(code, Drive(state, [first] + Repeat(later, more), []))
        == Drive(code.act(state).resume(first), Repeat(later, more), [code.act(state).candidate]);
  }

  /** Settles whatever a batch terminal can answer: the same validation error each time, or
      any first answer and then the generic error. */
  ghost predicate Settling<C(!new)>(code: Code<C>, state: C) {
    && (forall e :: SettlesOn(code, state, Raised(Invalid(e)), Raised(Invalid(e))))
    && (forall answer | EnqueueSchedules.TerminalAnswer(answer) :: SettlesOn(code, state, answer, Later(None)))
  }

  lemma PauseSettling<C(!new)>(code: Code<C>, state: C)
    requires code.act(state).Pause? && Settling(code, state)
    ensures Settling(code, code.act(state).next)
  {
    forall e ensures SettlesOn(code, code.act(state).next, Raised(Invalid(e)), Raised(Invalid(e))) {
      PauseSettles(code, state, Raised(Invalid(e)), Raised(Invalid(e)));
    }
    forall answer | EnqueueSchedules.TerminalAnswer(answer)
      ensures SettlesOn(code, code.act(state).next, answer, Later(None))
    {
      PauseSettles(code, state, answer, Later(None));
    }
  }

  /** The terminal refused the first candidate: the chain runs on to its end. */
  lemma RefusedHalts<C(!new)>(code: Code<C>, state: C)
    requires code.act(state).Dispatch? && Settling(code, state) && Validate(code.act(state).candidate).Err?
    ensures Halts(code, Running(state, false, None))
  {
    var l: Local<C>, e := Running(state, false, None), Validate(code.act(state).candidate).error;
    var more, n := DispatchSettles(code, state, Raised(e), Raised(e));
    var called := Drive(code.act(state).resume(Raised(e)), Repeat(Raised(e), more), [code.act(state).candidate]);
    PastHalts(code, called, n, Some(e));
    HaltsNext(code, l);
  }

  /** Before its terminal a chain comes to rest, at the terminal or past it. */
  lemma {:induction false} RunningHalts<C(!new)>(code: Code<C>, state: C, more: nat, n: nat)
    requires Settling(code, state) && SettlesIn(code, state, Later(None), Later(None), more, n)
    ensures Halts(code, Running(state, false, None))
    decreases n
  {
    var l: Local<C> := Running(state, false, None);
    match code.act(state) {
      case Settle(outcome) => OverHalts(code, l);
      case Pause(next) =>
        PauseSettling(code, state);
        assert SettlesIn(code, next, Later(None), Later(None), more, n - 1);
        RunningHalts(code, next, more, n - 1);
        HaltsNext(code, l);
      case Dispatch(candidate, resume) =>
        if Validate(candidate).Ok? { OverHalts(code, l); } else { RefusedHalts(code, state); }
    }
  }

  /** Parked at its terminal and answered, it comes to rest again. */
  lemma {:induction false} ParkedHalts<C(!new)>(code: Code<C>, state: C, k: nat, stop: Local<C>, answer: Outcome)
    requires Settling(code, state) && Iterate(code, Running(state, false, None), k) == stop && stop.Parked?
    requires EnqueueSchedules.TerminalAnswer(answer)
    ensures Halts(code, Resumed(stop, answer))
    decreases k
  {
    var l: Local<C> := Running(state, false, None);
    IterateFromNext(code, l, k - 1);
    match code.act(state) {
      case Settle(outcome) =>
        StopsForever(code, Advance(code, l), 0, k - 1);
        assert false;
      case Pause(next) =>
        PauseSettling(code, state);
        ParkedHalts(code, next, k - 1, stop, answer);
      case Dispatch(candidate, resume) =>
        if Validate(candidate).Err? {
          StaysPast(code, Advance(code, l), Some(Validate(candidate).error), k - 1);
          assert false;
        } else {
          StopsForever(code, Advance(code, l), 0, k - 1);
          var more, n := DispatchSettles(code, state, answer, Later(None));
          PastHalts(code, Drive(resume(answer), Repeat(Later(None), more), [candidate]), n, None);
        }
    }
  }

  /** A coroutine that settles on everything a batch terminal answers makes progress. */
  lemma SettlingProgresses<C(!new)>(code: Code<C>, request: Request)
    requires Settling(code, code.enter(request))
    ensures EnqueueSchedules.Progresses(code, request)
  {
    var l, state := Fresh(request), code.enter(request);
    if Validate(request).Err? {
      OverHalts(code, l);
    } else {
      assert SettlesOn(code, state, Later(None), Later(None));
      var more: nat, n: nat :| SettlesIn(code, state, Later(None), Later(None), more, n);
      RunningHalts(code, state, more, n);
      HaltsNext(code, l);
    }
    forall stop: Local<C> | Evaluates(code, l, stop) ensures EnqueueSchedules.GoesOn(code, stop) {
      if stop.Parked? { FreshGoesOn(code, request, stop); }
    }
  }

  lemma FreshGoesOn<C(!new)>(code: Code<C>, request: Request, stop: Local<C>)
    requires Settling(code, code.enter(request)) && Evaluates(code, Fresh(request), stop) && stop.Parked?
    ensures EnqueueSchedules.GoesOn(code, stop)
  {
    var k: nat :| Iterate(code, Fresh(request), k) == stop;
    IterateFromNext(code, Fresh(request), k - 1);
    if Validate(request).Err? {
      StopsForever(code, Advance(code, Fresh(request)), 0, k - 1);
      assert false;
    } else {
      forall answer | EnqueueSchedules.TerminalAnswer(answer) ensures Halts(code, Resumed(stop, answer)) {
        ParkedHalts(code, code.enter(request), k - 1, stop, answer);
      }
    }
  }

  // ------------------------------------------------------------- a list of middlewares

  /** The recursion over the list comes to an end on these answers. */
  ghost predicate EndsOn<S>(ms: seq<Code<S>>, request: Request, first: Outcome, later: Outcome) {
    exists more: nat, run: Run :: Executes(ms, request, [first] + Repeat(later, more), run)
  }

  /** Driving the composed list and running the recursion come to an end on the same
      answers. */
  lemma SettlesExactly<S>(ms: seq<Code<S>>, request: Request, first: Outcome, later: Outcome)
    ensures SettlesOn(Composed(ms), Composed(ms).enter(request), first, later) <==> EndsOn(ms, request, first, later)
  {
    var code := Composed(ms);
    if EndsOn(ms, request, first, later) {
      var more: nat, run: Run :| Executes(ms, request, [first] + Repeat(later, more), run);
      var answers := [first] + Repeat(later, more);
      ComposedExecutes(ms, request, answers, run);
      var n: nat :| After(code, Drive(code.enter(request), answers, []), n)
                 == Drive(Stack([], Returning(run.outcome)), run.left, run.calls);
      assert SettlesIn(code, code.enter(request), first, later, more, n);
    }
    if SettlesOn(code, code.enter(request), first, later) {
      var more: nat, n: nat :| SettlesIn(code, code.enter(request), first, later, more, n);
      var answers := [first] + Repeat(later, more);
      var d := After(code, Drive(code.enter(request), answers, []), n);
      SettledIsReturned(ms, d.state);
      var run := Run(d.state.top.outcome, d.calls, d.answers);
      assert d == Drive(Stack([], Returning(run.outcome)), run.left, run.calls);
      assert Settles(ms, request, answers, run);
      ComposedExecutes(ms, request, answers, run);
    }
  }

  lemma SettledIsReturned<S>(ms: seq<Code<S>>, stack: Stack<S>)
    requires Composed(ms).act(stack).Settle?
    ensures stack.top.Returning? && stack.waiting == []
  {
    assert Composed(ms).act(stack) == Act(ms, stack);
  }

  /** The recursion ends on every answer a batch terminal can give. */
  ghost predicate Ends<S(!new)>(ms: seq<Code<S>>, request: Request) {
    && (forall e :: EndsOn(ms, request, Raised(Invalid(e)), Raised(Invalid(e))))
    && (forall answer | EnqueueSchedules.TerminalAnswer(answer) :: EndsOn(ms, request, answer, Later(None)))
  }

  /** So a batch over the list makes progress on every request the recursion ends on. */
  lemma EndsProgresses<S(!new)>(ms: seq<Code<S>>, request: Request)
    requires Ends(ms, request)
    ensures EnqueueSchedules.Progresses(Composed(ms), request)
  {
    var code := Composed(ms);
    forall e ensures SettlesOn(code, code.enter(request), Raised(Invalid(e)), Raised(Invalid(e))) {
      SettlesExactly(ms, request, Raised(Invalid(e)), Raised(Invalid(e)));
    }
    forall answer | EnqueueSchedules.TerminalAnswer(answer)
      ensures SettlesOn(code, code.enter(request), answer, Later(None))
    {
      SettlesExactly(ms, request, answer, Later(None));
    }
    SettlingProgresses(code, request);
  }

  // ------------------------------------------------- middlewares whose work runs out

  lemma {:induction false} ExecuteMore<S>(ms: seq<Code<S>>, request: Request, answers: seq<Outcome>, more: seq<Outcome>,
                                          fuel: nat, fuel': nat)
    requires fuel <= fuel' && Execute(ms, request, answers, fuel).Some?
    ensures var run := Execute(ms, request, answers, fuel).value;
      Execute(ms, request, answers + more, fuel') == Some(run.(left := run.left + more))
    decreases fuel
  {
    if ms != [] {
      InsideMore(ms, ms[0].enter(request), answers, more, fuel - 1, fuel' - 1);
    } else {
      assert (answers + more)[1..] == answers[1..] + more;
    }
  }

  lemma {:induction false} InsideMore<S>(ms: seq<Code<S>>, state: S, answers: seq<Outcome>, more: seq<Outcome>,
                                         fuel: nat, fuel': nat)
    requires ms != [] && fuel <= fuel' && Inside(ms, state, answers, fuel).Some?
    ensures var run := Inside(ms, state, answers, fuel).value;
      Inside(ms, state, answers + more, fuel') == Some(run.(left := run.left + more))
    decreases fuel
  {
    match ms[0].act(state) {
      case Settle(outcome) =>
      case Pause(next) => InsideMore(ms, next, answers, more, fuel - 1, fuel' - 1);
      case Dispatch(request, resume) =>
        ExecuteMore(ms[1..], request, answers, more, fuel - 1, fuel' - 1);
        var inner := Execute(ms[1..], request, answers, fuel - 1).value;
        InsideMore(ms, resume(inner.outcome), inner.left, more, fuel - 1, fuel' - 1);
    }
  }

  /** The answers number `from` to `from + n` of an endless supply. */
  function Supply(answers: nat -> Outcome, from: nat, n: nat): seq<Outcome> {
    seq(n, i requires 0 <= i < n => answers(from + i))
  }

  lemma SupplyJoins(answers: nat -> Outcome, from: nat, n: nat, m: nat)
    ensures Supply(answers, from, n) + Supply(answers, from + n, m) == Supply(answers, from, n + m)
  {
  }

  /** At every state one await less is left, whatever is answered. */
  ghost predicate Ranked<S(!new)>(m: Code<S>, rank: S -> nat) {
    forall state :: RankedAt(m, rank, state)
  }

  ghost predicate RankedAt<S(!new)>(m: Code<S>, rank: S -> nat, state: S) {
    match m.act(state)
    case Settle(_) => true
    case Pause(next) => rank(next) < rank(state)
    case Dispatch(_, resume) => forall answer :: rank(resume(answer)) < rank(state)
  }

  ghost predicate AllRanked<S(!new)>(ms: seq<Code<S>>, ranks: seq<S -> nat>) {
    |ms| == |ranks| && forall i | 0 <= i < |ms| :: Ranked(ms[i], ranks[i])
  }

  /** The recursion ends, and has used exactly the first n answers of the supply. */
  ghost predicate Uses<S>(ms: seq<Code<S>>, request: Request, answers: nat -> Outcome, from: nat, n: nat, fuel: nat) {
    Execute(ms, request, Supply(answers, from, n), fuel).Some?
    && Execute(ms, request, Supply(answers, from, n), fuel).value.left == []
  }

  lemma {:induction false} RankedExecutes<S(!new)>(ms: seq<Code<S>>, ranks: seq<S -> nat>, request: Request,
                                                   answers: nat -> Outcome, from: nat) returns (n: nat, fuel: nat)
    requires AllRanked(ms, ranks)
    ensures Uses(ms, request, answers, from, n, fuel)
    decreases |ms|, 1, 0
  {
    if ms == [] {
      n, fuel := 1, 1;
    } else {
      n, fuel := RankedInside(ms, ranks, ms[0].enter(request), answers, from);
      fuel := fuel + 1;
    }
  }

  lemma {:induction false} RankedInside<S(!new)>(ms: seq<Code<S>>, ranks: seq<S -> nat>, state: S,
                                                 answers: nat -> Outcome, from: nat) returns (n: nat, fuel: nat)
    requires AllRanked(ms, ranks) && ms != []
    ensures Inside(ms, state, Supply(answers, from, n), fuel).Some?
    ensures Inside(ms, state, Supply(answers, from, n), fuel).value.left == []
    decreases |ms|, 0, ranks[0](state)
  {
    assert RankedAt(ms[0], ranks[0], state);
    match ms[0].act(state) {
      case Settle(outcome) =>
        n, fuel := 0, 1;
      case Pause(next) =>
        n, fuel := RankedInside(ms, ranks, next, answers, from);
        fuel := fuel + 1;
      case Dispatch(request, resume) =>
        var used, f := RankedExecutes(ms[1..], ranks[1..], request, answers, from);
        var inner := Execute(ms[1..], request, Supply(answers, from, used), f).value;
        var more, g := RankedInside(ms, ranks, resume(inner.outcome), answers, from + used);
        n, fuel := used + more, f + g + 1;
        CallThenRest(ms, state, request, Supply(answers, from, used), f, Supply(answers, from + used, more), g);
        SupplyJoins(answers, from, used, more);
    }
  }

  /** An inner run that uses up its answers, then the rest of the middleware on later ones. */
  lemma CallThenRest<S>(ms: seq<Code<S>>, state: S, request: Request, a: seq<Outcome>, f: nat, b: seq<Outcome>, g: nat)
    requires ms != [] && ms[0].act(state).Dispatch? && ms[0].act(state).candidate == request
    requires Execute(ms[1..], request, a, f).Some? && Execute(ms[1..], request, a, f).value.left == []
    requires var resumed := ms[0].act(state).resume(Execute(ms[1..], request, a, f).value.outcome);
      Inside(ms, resumed, b, g).Some? && Inside(ms, resumed, b, g).value.left == []
    ensures Inside(ms, state, a + b, f + g + 1).Some? && Inside(ms, state, a + b, f + g + 1).value.left == []
  {
    var inner := Execute(ms[1..], request, a, f).value;
    ExecuteMore(ms[1..], request, a, b, f, f + g);
    assert inner.left + b == b;
    InsideMore(ms, ms[0].act(state).resume(inner.outcome), b, [], g, f + g);
    assert b + [] == b;
  }

  lemma RankedEndsOn<S(!new)>(ms: seq<Code<S>>, ranks: seq<S -> nat>, request: Request, first: Outcome, later: Outcome)
    requires AllRanked(ms, ranks)
    ensures EndsOn(ms, request, first, later)
  {
    var answers := (i: nat) => if i == 0 then first else later;
    var n, fuel := RankedExecutes(ms, ranks, request, answers, 0);
    var supply := Supply(answers, 0, n);
    if n == 0 {
      ExecuteMore(ms, request, supply, [first], fuel, fuel);
      assert supply + [first] == [first] + Repeat(later, 0);
    } else {
      assert supply == [first] + Repeat(later, n - 1);
      assert supply + [] == supply;
    }
    var more: nat := if n == 0 then 0 else n - 1;
    var used := Execute(ms, request, [first] + Repeat(later, more), fuel);
    assert used.Some? && Executes(ms, request, [first] + Repeat(later, more), used.value);
  }

  /** A batch over middlewares whose awaits run out always ends, in the sequential result:
      whatever the requests, the transport and the schedule. */
  lemma RankedBatchFinishes<S(!new)>(ms: seq<Code<S>>, ranks: seq<S -> nat>, requests: seq<Request>, sink: Sink,
                                     run: nat -> Batch<Stack<S>>) returns (m: nat)
    requires AllRanked(ms, ranks) && EnqueueSchedules.Endless(Composed(ms), requests, sink, run)
    ensures run(m).main.Done? && Sequential(Composed(ms), requests, sink, run(m).pushes, run(m).main.result)
  {
    forall i | 0 <= i < |requests| ensures EnqueueSchedules.Progresses(Composed(ms), requests[i]) {
      forall e ensures EndsOn(ms, requests[i], Raised(Invalid(e)), Raised(Invalid(e))) {
        RankedEndsOn(ms, ranks, requests[i], Raised(Invalid(e)), Raised(Invalid(e)));
      }
      forall answer | EnqueueSchedules.TerminalAnswer(answer) ensures EndsOn(ms, requests[i], answer, Later(None)) {
        RankedEndsOn(ms, ranks, requests[i], answer, Later(None));
      }
      EndsProgresses(ms, requests[i]);
    }
    m := EnqueueSchedules.EveryScheduleFinishes(Composed(ms), requests, sink, run);
  }

  function RetryRank(s: TerminalReentry.Retry): nat {
    match s
    case First(_) => 2
    case Second(_, _) => 1
    case End(_) => 0
  }

  /** For example any number of middlewares that each retry once, none included. */
  lemma RetryingBatchFinishes(n: nat, requests: seq<Request>, sink: Sink,
                              run: nat -> Batch<Stack<TerminalReentry.Retry>>)
    returns (m: nat)
    requires EnqueueSchedules.Endless(Composed(seq(n, i => TerminalReentry.Retrying())), requests, sink, run)
    ensures run(m).main.Done?
  {
    var ms := seq(n, i => TerminalReentry.Retrying());
    var ranks: seq<TerminalReentry.Retry -> nat> := seq(n, i => RetryRank);
    forall state ensures RankedAt(TerminalReentry.Retrying(), RetryRank, state) {
    }
    m := RankedBatchFinishes(ms, ranks, requests, sink, run);
  }
}
