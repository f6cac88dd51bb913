/** One middleware chain of a batch enqueue, as a coroutine.

    A chain is arbitrary code over its own local state `C`: between two awaits it
    settles, pauses, or calls the terminal with a candidate request. Advance is one
    such step of `run_chain` together with the terminal `dispatch`
    (src/ojs/client/enqueue_pipeline.py). */
module EnqueueChain {
  import opened Wrappers
  import opened JsonValue
  import opened Names

  datatype Request = Request(jobType: string, queue: string, args: Json)

  datatype Job = Job(id: string, args: Json)

  datatype Error =
    | Invalid(name: NameError)
    | RejectedItem(index: nat)
    | TerminalReinvoked
    | CountMismatch(received: nat, expected: nat)
    | Foreign(code: int)

  /** How an awaited call ends: a value, an exception, or asyncio's cancellation,
      which `except Exception` does not catch. */
  datatype Outcome = Returned(job: Option<Job>) | Raised(error: Error) | Cancelled

  datatype Action<!C> =
    | Settle(outcome: Outcome)
    | Pause(next: C)
    | Dispatch(candidate: Request, resume: Outcome -> C)

  datatype Code<!C> = Code(enter: Request -> C, act: C -> Action<C>)

  /** Where a chain stands. `reached` and `failure` are the terminal's own variables. */
  datatype Local<!C> =
    | Fresh(request: Request)
    | Running(state: C, reached: bool, failure: Option<Error>)
    | Parked(candidate: Request, resume: Outcome -> C)
    | Over(outcome: Outcome)

  function Validate(request: Request): Result<(), Error> {
    match ValidateRequest(request.jobType, request.queue)
    case Ok(_) => Ok(())
    case Err(e) => Err(Invalid(e))
  }

  /** A terminal entered again answers at once, with the validation error it raised
      before or with a generic one; it never parks a second time. */
  function Advance<C>(code: Code<C>, l: Local<C>): Local<C> {
    match l
    case Fresh(request) =>
      (match Validate(request)
       case Err(e) => Over(Raised(e))
       case Ok(_) => Running(code.enter(request), false, None))
    case Running(state, reached, failure) =>
      (match code.act(state)
       case Settle(outcome) => Over(outcome)
       case Pause(next) => Running(next, reached, failure)
       case Dispatch(candidate, resume) =>
         if reached then
           Running(resume(Raised(if failure.Some? then failure.value else TerminalReinvoked)), true, failure)
         else
           match Validate(candidate)
           case Err(e) => Running(resume(Raised(e)), true, Some(e))
           case Ok(_) => Parked(candidate, resume))
    case Parked(_, _) => l
    case Over(_) => l
  }

  /** The chain continues after its terminal's future was resolved. */
  function Resumed<C>(l: Local<C>, answer: Outcome): Local<C>
    requires l.Parked?
  {
    Running(l.resume(answer), true, None)
  }

  predicate Stopped<C>(l: Local<C>) {
    l.Parked? || l.Over?
  }

  /** Past its terminal a chain can only run or be over. */
  predicate PastTerminal<C>(l: Local<C>) {
    (l.Running? && l.reached) || l.Over?
  }

  ghost function Iterate<C>(code: Code<C>, l: Local<C>, n: nat): Local<C> {
    if n == 0 then l else Advance(code, Iterate(code, l, n - 1))
  }

  ghost predicate Reaches<C>(code: Code<C>, from: Local<C>, to: Local<C>) {
    exists n: nat :: Iterate(code, from, n) == to
  }

  /** Running the chain alone from `from` comes to rest at `stop`. */
  ghost predicate Evaluates<C>(code: Code<C>, from: Local<C>, stop: Local<C>) {
    Stopped(stop) && Reaches(code, from, stop)
  }

  lemma ReachesSelf<C>(code: Code<C>, l: Local<C>)
    ensures Reaches(code, l, l)
  {
    assert Iterate(code, l, 0) == l;
  }

  lemma ReachesNext<C>(code: Code<C>, from: Local<C>, to: Local<C>)
    requires Reaches(code, from, to)
    ensures Reaches(code, from, Advance(code, to))
  {
    var n: nat :| Iterate(code, from, n) == to;
    assert Iterate(code, from, n + 1) == Advance(code, to);
  }

  lemma {:induction false} StopsForever<C>(code: Code<C>, l: Local<C>, n: nat, m: nat)
    requires n <= m && Stopped(Iterate(code, l, n))
    ensures Iterate(code, l, m) == Iterate(code, l, n)
  {
    if n < m {
      StopsForever(code, l, n, m - 1);
    }
  }

  /** A chain run alone has at most one place to rest. */
  lemma EvaluatesOnce<C>(code: Code<C>, from: Local<C>, a: Local<C>, b: Local<C>)
    requires Evaluates(code, from, a) && Evaluates(code, from, b)
    ensures a == b
  {
    var n: nat :| Iterate(code, from, n) == a;
    var m: nat :| Iterate(code, from, m) == b;
    if n <= m { StopsForever(code, from, n, m); } else { StopsForever(code, from, m, n); }
  }

  /** Past the terminal, with what the terminal remembers. */
  predicate PastWith<C>(l: Local<C>, failure: Option<Error>) {
    l.Over? || (l.Running? && l.reached && l.failure == failure)
  }

  /** Past its terminal a chain never parks again, and the terminal's memory is settled. */
  lemma {:induction false} StaysPast<C>(code: Code<C>, from: Local<C>, failure: Option<Error>, n: nat)
    requires PastWith(from, failure)
    ensures PastWith(Iterate(code, from, n), failure)
  {
    if n > 0 {
      StaysPast(code, from, failure, n - 1);
    }
  }

  // ------------------------------------------------------------------ termination

  ghost predicate RestsAt<C>(code: Code<C>, l: Local<C>, n: nat) {
    Stopped(Iterate(code, l, n))
  }

  ghost predicate Halts<C>(code: Code<C>, l: Local<C>) {
    exists n: nat :: RestsAt(code, l, n)
  }

  /** `n` steps are needed, and enough, for the chain to rest. */
  ghost predicate IsCost<C>(code: Code<C>, l: Local<C>, n: nat) {
    RestsAt(code, l, n) && forall m: nat | m < n :: !RestsAt(code, l, m)
  }

  lemma {:induction false} LeastRest<C>(code: Code<C>, l: Local<C>, n: nat) returns (least: nat)
    requires RestsAt(code, l, n)
    ensures IsCost(code, l, least)
  {
    if m: nat :| m < n && RestsAt(code, l, m) {
      least := LeastRest(code, l, m);
    } else {
      least := n;
    }
  }

  lemma CostExists<C>(code: Code<C>, l: Local<C>)
    requires Halts(code, l)
    ensures exists n: nat :: IsCost(code, l, n)
  {
    var n: nat :| RestsAt(code, l, n);
    var least := LeastRest(code, l, n);
  }

  ghost function Cost<C>(code: Code<C>, l: Local<C>): (n: nat)
    requires Halts(code, l)
    ensures IsCost(code, l, n)
  {
    CostExists(code, l);
    var n: nat :| IsCost(code, l, n);
    n
  }

  lemma {:induction false} IterateFromNext<C>(code: Code<C>, l: Local<C>, n: nat)
    ensures Iterate(code, Advance(code, l), n) == Iterate(code, l, n + 1)
  {
    if n > 0 {
      IterateFromNext(code, l, n - 1);
    } else {
      assert Iterate(code, l, 1) == Advance(code, Iterate(code, l, 0));
    }
  }

  /** What comes to rest still does one step on. */
  lemma HaltsNext<C>(code: Code<C>, l: Local<C>)
    ensures Halts(code, l) <==> Halts(code, Advance(code, l))
  {
    if n: nat :| RestsAt(code, Advance(code, l), n) {
      RestsOneLater(code, l, n);
    }
    if n: nat :| RestsAt(code, l, n) {
      if n > 0 { RestsOneLater(code, l, n - 1); } else { assert RestsAt(code, Advance(code, l), 0); }
    }
  }

  lemma RestsOneLater<C>(code: Code<C>, l: Local<C>, n: nat)
    ensures RestsAt(code, Advance(code, l), n) <==> RestsAt(code, l, n + 1)
  {
    IterateFromNext(code, l, n);
  }

  /** Each step of a chain that has not come to rest brings it one step closer. */
  lemma CostDecreases<C>(code: Code<C>, l: Local<C>)
    requires !Stopped(l) && Halts(code, l) && Halts(code, Advance(code, l))
    ensures Cost(code, l) == Cost(code, Advance(code, l)) + 1
  {
    var n, m := Cost(code, l), Cost(code, Advance(code, l));
    assert !RestsAt(code, l, 0);
    RestsOneLater(code, l, m);
    RestsOneLater(code, l, n - 1);
  }
}
