/** A list of middlewares around a terminal (src/ojs/middleware/__init__.py).

    Each middleware is a coroutine whose Dispatch is a call of its `next`. The source nests
    them by recursion over the list; Composed runs them on a stack as the one coroutine a
    batch schedules. The two agree. */
module MiddlewareChain {
  import opened Wrappers
  import opened EnqueueChain

  datatype Top<!S> = Calling(request: Request) | Active(state: S) | Returning(outcome: Outcome)

  /** The suspended callers, outermost first, and what happens inside the last `next`. */
  datatype Stack<!S> = Stack(waiting: seq<Outcome -> S>, top: Top<S>)

  function Act<S>(ms: seq<Code<S>>, stack: Stack<S>): Action<Stack<S>> {
    var depth := |stack.waiting|;
    match stack.top
    case Calling(request) =>
      if depth < |ms| then Pause(Stack(stack.waiting, Active(ms[depth].enter(request))))
      else Dispatch(request, outcome => Stack(stack.waiting, Returning(outcome)))
    case Active(state) =>
      if depth >= |ms| then Pause(stack) else
        (match ms[depth].act(state)
         case Settle(outcome) => Pause(Stack(stack.waiting, Returning(outcome)))
         case Pause(next) => Pause(Stack(stack.waiting, Active(next)))
         case Dispatch(request, resume) => Pause(Stack(stack.waiting + [resume], Calling(request))))
    case Returning(outcome) =>
      if depth == 0 then Settle(outcome)
      else Pause(Stack(stack.waiting[..depth - 1], Active(stack.waiting[depth - 1](outcome))))
  }

  /** The whole list as one coroutine. */
  function Composed<S>(ms: seq<Code<S>>): Code<Stack<S>> {
    Code(request => Stack([], Calling(request)), stack => Act(ms, stack))
  }

  // -------------------------------------------------------------- the recursion of execute

  /** The result, the requests the terminal was called with, and the answers left over. */
  datatype Run = Run(outcome: Outcome, calls: seq<Request>, left: seq<Outcome>)

  /** `_build_chain`: the terminal at the end of the list, otherwise the first middleware
      with the rest as its `next`. `answers` is what the terminal answers, call by call. None
      when it is called once more than that, or the fuel is used up. */
  function Execute<S>(ms: seq<Code<S>>, request: Request, answers: seq<Outcome>, fuel: nat): Option<Run>
    decreases fuel
  {
    if fuel == 0 then None
    else if ms != [] then Inside(ms, ms[0].enter(request), answers, fuel - 1)
    else if answers == [] then None
    else Some(Run(answers[0], [request], answers[1..]))
  }

  /** The first middleware from one of its states on. */
  function Inside<S>(ms: seq<Code<S>>, state: S, answers: seq<Outcome>, fuel: nat): Option<Run>
    requires ms != []
    decreases fuel
  {
    if fuel == 0 then None else
      match ms[0].act(state)
      case Settle(outcome) => Some(Run(outcome, [], answers))
      case Pause(next) => Inside(ms, next, answers, fuel - 1)
      case Dispatch(request, resume) =>
        match Execute(ms[1..], request, answers, fuel - 1)
        case None => None
        case Some(inner) =>
          match Inside(ms, resume(inner.outcome), inner.left, fuel - 1)
          case None => None
          case Some(outer) => Some(Run(outer.outcome, inner.calls + outer.calls, outer.left))
  }

  // -------------------------------------------------------------------- driving a coroutine

  /** A coroutine driven alone, with the terminal's answers still to come and the requests
      it was called with. */
  datatype Drive<!C> = Drive(state: C, answers: seq<Outcome>, calls: seq<Request>)

  function Next<C>(code: Code<C>, d: Drive<C>): Drive<C> {
    match code.act(d.state)
    case Settle(_) => d
    case Pause(next) => d.(state := next)
    case Dispatch(request, resume) =>
      if d.answers == [] then d
      else Drive(resume(d.answers[0]), d.answers[1..], d.calls + [request])
  }

  function After<C>(code: Code<C>, d: Drive<C>, n: nat): Drive<C>
    decreases n
  {
    if n == 0 then d else After(code, Next(code, d), n - 1)
  }

  lemma {:induction false} AfterAfter<C>(code: Code<C>, d: Drive<C>, n: nat, m: nat)
    ensures After(code, After(code, d, n), m) == After(code, d, n + m)
    decreases n
  {
    if n > 0 { AfterAfter(code, Next(code, d), n - 1, m); }
  }

  /** Still inside the call that began with `waiting` suspended. */
  ghost predicate Within<S>(waiting: seq<Outcome -> S>, s: Stack<S>) {
    waiting <= s.waiting && !(s.waiting == waiting && s.top.Returning?)
  }

  /** After n steps, and not before, the call that began with `waiting` suspended returns. */
  ghost predicate ReturnsAfter<S>(ms: seq<Code<S>>, d: Drive<Stack<S>>, n: nat, waiting: seq<Outcome -> S>, run: Run) {
    && After(Composed(ms), d, n) == Drive(Stack(waiting, Returning(run.outcome)), run.left, d.calls + run.calls)
    && forall k: nat | k < n :: Within(waiting, After(Composed(ms), d, k).state)
  }

  lemma StepFirst<S>(ms: seq<Code<S>>, d: Drive<Stack<S>>, n: nat, waiting: seq<Outcome -> S>, run: Run)
    requires Within(waiting, d.state) && Next(Composed(ms), d).calls == d.calls
    requires ReturnsAfter(ms, Next(Composed(ms), d), n, waiting, run)
    ensures ReturnsAfter(ms, d, n + 1, waiting, run)
  {
    forall k: nat | k < n + 1 ensures Within(waiting, After(Composed(ms), d, k).state) {
      if k > 0 { assert After(Composed(ms), d, k) == After(Composed(ms), Next(Composed(ms), d), k - 1); }
    }
  }

  /** A nested call, then the rest of its caller. */
  lemma InnerThenOuter<S>(ms: seq<Code<S>>, d: Drive<Stack<S>>, waiting: seq<Outcome -> S>, resume: Outcome -> S,
                          n: nat, inner: Run, m: nat, outer: Run)
    requires ReturnsAfter(ms, d, n, waiting + [resume], inner)
    requires ReturnsAfter(ms, Drive(Stack(waiting, Active(resume(inner.outcome))), inner.left, d.calls + inner.calls),
      m, waiting, outer)
    ensures ReturnsAfter(ms, d, n + 1 + m, waiting, Run(outer.outcome, inner.calls + outer.calls, outer.left))
  {
    var code, returned := Composed(ms), After(Composed(ms), d, n);
    var resumed := Drive(Stack(waiting, Active(resume(inner.outcome))), inner.left, d.calls + inner.calls);
    assert (waiting + [resume])[..|waiting|] == waiting;
    assert Next(code, returned) == resumed;
    assert After(code, returned, 1) == After(code, resumed, 0);
    AfterAfter(code, d, n, 1);
    AfterAfter(code, d, n + 1, m);
    assert d.calls + inner.calls + outer.calls == d.calls + (inner.calls + outer.calls);
    forall k: nat | k < n + 1 + m ensures Within(waiting, After(code, d, k).state) {
      if k < n {
        assert Within(waiting + [resume], After(code, d, k).state);
      } else if k > n {
        AfterAfter(code, d, n + 1, k - n - 1);
      }
    }
  }

  // --------------------------------------------------------- the stack follows the recursion

  lemma {:induction false} ExecuteDrives<S>(ms: seq<Code<S>>, waiting: seq<Outcome -> S>, request: Request,
                                            answers: seq<Outcome>, calls: seq<Request>, fuel: nat) returns (n: nat)
    requires |waiting| <= |ms| && Execute(ms[|waiting|..], request, answers, fuel).Some?
    ensures ReturnsAfter(ms, Drive(Stack(waiting, Calling(request)), answers, calls), n, waiting,
                         Execute(ms[|waiting|..], request, answers, fuel).value)
    decreases fuel
  {
    var d := Drive(Stack(waiting, Calling(request)), answers, calls);
    var run := Execute(ms[|waiting|..], request, answers, fuel).value;
    if |waiting| < |ms| {
      var m := InsideDrives(ms, waiting, ms[|waiting|].enter(request), answers, calls, fuel - 1);
      StepFirst(ms, d, m, waiting, run);
      n := m + 1;
    } else {
      n := 1;
      assert After(Composed(ms), d, 1) == After(Composed(ms), Next(Composed(ms), d), 0);
    }
  }

  lemma {:induction false} InsideDrives<S>(ms: seq<Code<S>>, waiting: seq<Outcome -> S>, state: S,
                                           answers: seq<Outcome>, calls: seq<Request>, fuel: nat) returns (n: nat)
    requires |waiting| < |ms| && Inside(ms[|waiting|..], state, answers, fuel).Some?
    ensures ReturnsAfter(ms, Drive(Stack(waiting, Active(state)), answers, calls), n, waiting,
                         Inside(ms[|waiting|..], state, answers, fuel).value)
    decreases fuel
  {
    var d := Drive(Stack(waiting, Active(state)), answers, calls);
    var run := Inside(ms[|waiting|..], state, answers, fuel).value;
    match ms[|waiting|].act(state) {
      case Settle(outcome) =>
        n := 1;
        assert After(Composed(ms), d, 1) == After(Composed(ms), Next(Composed(ms), d), 0);
      case Pause(next) =>
        var m := InsideDrives(ms, waiting, next, answers, calls, fuel - 1);
        StepFirst(ms, d, m, waiting, run);
        n := m + 1;
      case Dispatch(request, resume) =>
        assert ms[|waiting|..][1..] == ms[|waiting| + 1..];
        var inner := Execute(ms[|waiting| + 1..], request, answers, fuel - 1).value;
        var j := ExecuteDrives(ms, waiting + [resume], request, answers, calls, fuel - 1);
        var m := InsideDrives(ms, waiting, resume(inner.outcome), inner.left, calls + inner.calls, fuel - 1);
        var outer := Inside(ms[|waiting|..], resume(inner.outcome), inner.left, fuel - 1).value;
        var pushed := Drive(Stack(waiting + [resume], Calling(request)), answers, calls);
        InnerThenOuter(ms, pushed, waiting, resume, j, inner, m, outer);
        StepFirst(ms, d, j + 1 + m, waiting, run);
        n := j + 1 + m + 1;
    }
  }

  // ------------------------------------------------- and finishes only when the recursion does

  ghost predicate StaysWithin<S>(ms: seq<Code<S>>, d: Drive<Stack<S>>, n: nat, waiting: seq<Outcome -> S>) {
    forall k: nat | k <= n :: Within(waiting, After(Composed(ms), d, k).state)
  }

  lemma StayFirst<S>(ms: seq<Code<S>>, d: Drive<Stack<S>>, n: nat, waiting: seq<Outcome -> S>)
    requires Within(waiting, d.state) && StaysWithin(ms, Next(Composed(ms), d), n, waiting)
    ensures StaysWithin(ms, d, n + 1, waiting)
  {
    forall k: nat | k <= n + 1 ensures Within(waiting, After(Composed(ms), d, k).state) {
      if k > 0 { assert After(Composed(ms), d, k) == After(Composed(ms), Next(Composed(ms), d), k - 1); }
    }
  }

  lemma StayInner<S>(ms: seq<Code<S>>, d: Drive<Stack<S>>, n: nat, waiting: seq<Outcome -> S>, resume: Outcome -> S)
    requires StaysWithin(ms, d, n, waiting + [resume])
    ensures StaysWithin(ms, d, n, waiting)
  {
    forall k: nat | k <= n ensures Within(waiting, After(Composed(ms), d, k).state) {
      assert Within(waiting + [resume], After(Composed(ms), d, k).state);
    }
  }

  /** The nested call returned, and its caller then goes on for n more steps. */
  lemma StayOuter<S>(ms: seq<Code<S>>, d: Drive<Stack<S>>, waiting: seq<Outcome -> S>, resume: Outcome -> S,
                     j: nat, inner: Run, n: nat)
    requires ReturnsAfter(ms, d, j, waiting + [resume], inner)
    requires StaysWithin(ms, Drive(Stack(waiting, Active(resume(inner.outcome))), inner.left, d.calls + inner.calls),
      n, waiting)
    ensures StaysWithin(ms, d, n, waiting)
  {
    var code, returned := Composed(ms), After(Composed(ms), d, j);
    var resumed := Drive(Stack(waiting, Active(resume(inner.outcome))), inner.left, d.calls + inner.calls);
    assert (waiting + [resume])[..|waiting|] == waiting;
    assert Next(code, returned) == resumed;
    assert After(code, returned, 1) == After(code, resumed, 0);
    AfterAfter(code, d, j, 1);
    forall k: nat | k <= n ensures Within(waiting, After(code, d, k).state) {
      if k < j {
        assert Within(waiting + [resume], After(code, d, k).state);
      } else if k > j {
        AfterAfter(code, d, j + 1, k - j - 1);
      }
    }
  }

  lemma {:induction false} StuckForever<C>(code: Code<C>, d: Drive<C>, n: nat)
    requires Next(code, d) == d
    ensures After(code, d, n) == d
    decreases n
  {
    if n > 0 { StuckForever(code, d, n - 1); }
  }

  lemma {:induction false} ExecuteStays<S>(ms: seq<Code<S>>, waiting: seq<Outcome -> S>, request: Request,
                                           answers: seq<Outcome>, calls: seq<Request>, fuel: nat)
    requires |waiting| <= |ms| && Execute(ms[|waiting|..], request, answers, fuel).None?
    ensures StaysWithin(ms, Drive(Stack(waiting, Calling(request)), answers, calls), fuel, waiting)
    decreases fuel
  {
    var d := Drive(Stack(waiting, Calling(request)), answers, calls);
    if fuel > 0 && |waiting| < |ms| {
      InsideStays(ms, waiting, ms[|waiting|].enter(request), answers, calls, fuel - 1);
      StayFirst(ms, d, fuel - 1, waiting);
    } else if fuel > 0 {
      forall k: nat | k <= fuel ensures Within(waiting, After(Composed(ms), d, k).state) {
        StuckForever(Composed(ms), d, k);
      }
    }
  }

  lemma {:induction false} InsideStays<S>(ms: seq<Code<S>>, waiting: seq<Outcome -> S>, state: S,
                                          answers: seq<Outcome>, calls: seq<Request>, fuel: nat)
    requires |waiting| < |ms| && Inside(ms[|waiting|..], state, answers, fuel).None?
    ensures StaysWithin(ms, Drive(Stack(waiting, Active(state)), answers, calls), fuel, waiting)
    decreases fuel
  {
    var d := Drive(Stack(waiting, Active(state)), answers, calls);
    if fuel > 0 {
      match ms[|waiting|].act(state) {
        case Settle(outcome) =>
        case Pause(next) =>
          InsideStays(ms, waiting, next, answers, calls, fuel - 1);
          StayFirst(ms, d, fuel - 1, waiting);
        case Dispatch(request, resume) =>
          assert ms[|waiting|..][1..] == ms[|waiting| + 1..];
          var pushed := Drive(Stack(waiting + [resume], Calling(request)), answers, calls);
          var inner := Execute(ms[|waiting| + 1..], request, answers, fuel - 1);
          if inner.None? {
            ExecuteStays(ms, waiting + [resume], request, answers, calls, fuel - 1);
            StayInner(ms, pushed, fuel - 1, waiting, resume);
          } else {
            var j := ExecuteDrives(ms, waiting + [resume], request, answers, calls, fuel - 1);
            InsideStays(ms, waiting, resume(inner.value.outcome), inner.value.left, calls + inner.value.calls,
                fuel - 1);
            StayOuter(ms, pushed, waiting, resume, j, inner.value, fuel - 1);
          }
          StayFirst(ms, d, fuel - 1, waiting);
      }
    }
  }

  // ---------------------------------------------------------------------------- the theorem

  ghost predicate Executes<S>(ms: seq<Code<S>>, request: Request, answers: seq<Outcome>, run: Run) {
    exists fuel: nat :: Execute(ms, request, answers, fuel) == Some(run)
  }

  ghost predicate Settles<S>(ms: seq<Code<S>>, request: Request, answers: seq<Outcome>, run: Run) {
    exists n: nat :: After(Composed(ms), Drive(Composed(ms).enter(request), answers, []), n)
                  == Drive(Stack([], Returning(run.outcome)), run.left, run.calls)
  }

  /** The composed coroutine settles with exactly the outcome of the nested middlewares, with
      the terminal called on exactly the same requests in the same order. */
  lemma ComposedExecutes<S>(ms: seq<Code<S>>, request: Request, answers: seq<Outcome>, run: Run)
    ensures Settles(ms, request, answers, run) <==> Executes(ms, request, answers, run)
  {
    if Executes(ms, request, answers, run) {
      var fuel: nat :| Execute(ms, request, answers, fuel) == Some(run);
      assert ms[0..] == ms;
      var n := ExecuteDrives(ms, [], request, answers, [], fuel);
      var d := Drive(Composed(ms).enter(request), answers, []);
      assert d.calls + run.calls == run.calls;
      assert After(Composed(ms), d, n) == Drive(Stack([], Returning(run.outcome)), run.left, run.calls);
    }
    if Settles(ms, request, answers, run) {
      var d := Drive(Composed(ms).enter(request), answers, []);
      var n: nat :| After(Composed(ms), d, n) == Drive(Stack([], Returning(run.outcome)), run.left, run.calls);
      SettlesExecutes(ms, request, answers, run, n);
      assert Executes(ms, request, answers, run);
    }
  }

  lemma SettlesExecutes<S>(ms: seq<Code<S>>, request: Request, answers: seq<Outcome>, run: Run, n: nat)
    requires After(Composed(ms), Drive(Stack([], Calling(request)), answers, []), n)
          == Drive(Stack([], Returning(run.outcome)), run.left, run.calls)
    ensures Execute(ms, request, answers, n) == Some(run)
  {
    var d, code := Drive(Stack([], Calling(request)), answers, []), Composed(ms);
    assert ms[0..] == ms;
    if Execute(ms, request, answers, n).None? {
      ExecuteStays(ms, [], request, answers, [], n);
      assert false;
    }
    var m := ExecuteDrives(ms, [], request, answers, [], n);
    var at := Execute(ms, request, answers, n).value;
    assert [] + at.calls == at.calls;
    assert !Within([], After(code, d, n).state);
    assert n >= m;
    AfterAfter(code, d, m, n - m);
    StuckForever(code, After(code, d, m), n - m);
  }
}
