/** `enqueue_batch`: chains driven concurrently up to a barrier, one push, post-phases.

    The machine schedules chains in any order; Sequential is the same batch done
    without concurrency. Every schedule ends in the sequential result
    (src/ojs/client/enqueue_pipeline.py). */
module EnqueueBatch {
  import opened Wrappers
  import opened EnqueueChain

  // ------------------------------------------------------------------------ state

  /** What the batch keeps about one item: the entry of each of its lists. */
  datatype Cell<!C> = Cell(
    local: Local<C>,
    decided: bool,
    terminal: Option<Request>,
    future: Option<Outcome>,
    result: Option<Job>,
    error: Option<Error>)

  datatype End = Abort(error: Error) | PushFailed(error: Error) | Settled

  /** Where `enqueue_batch` itself is waiting. */
  datatype Main =
    | Gathering
    | Pushing(batch: seq<Request>)
    | Joining(end: End)
    | Done(result: Result<seq<Job>, Error>)

  datatype Batch<!C> = Batch(cells: seq<Cell<C>>, main: Main, pushes: seq<seq<Request>>)

  /** The transport's answer to a pushed list. */
  type Sink = seq<Request> -> Result<seq<Job>, Error>

  // ------------------------------------------------------------------ cell updates

  function JobOf(outcome: Outcome): Option<Job> {
    if outcome.Returned? then outcome.job else None
  }

  function ErrorOf(outcome: Outcome): Option<Error> {
    if outcome.Raised? then Some(outcome.error) else None
  }

  predicate Enabled<C>(cell: Cell<C>) {
    cell.local.Fresh? || cell.local.Running? || (cell.local.Parked? && cell.future.Some?)
  }

  /** The chain has left neither a result nor an error so far. */
  predicate NothingYet<C>(cell: Cell<C>) {
    cell.result.None? && cell.error.None?
  }

  /** One scheduling of the item's task. */
  function StepCell<C>(code: Code<C>, cell: Cell<C>): Cell<C>
    requires Enabled(cell)
  {
    if cell.local.Parked? then
      cell.(local := Resumed(cell.local, cell.future.value))
    else
      var next := Advance(code, cell.local);
      match next
      case Parked(candidate, _) => cell.(local := next, decided := true, terminal := Some(candidate))
      case Over(outcome) =>
        cell.(local := next, decided := true, result := JobOf(outcome), error := ErrorOf(outcome))
      case _ => cell.(local := next)
  }

  /** A chain over without its terminal, without error and without result was rejected. */
  function Mark<C>(cell: Cell<C>, i: nat): Cell<C> {
    if cell.terminal.None? && cell.error.None? && cell.result.None?
    then cell.(error := Some(RejectedItem(i))) else cell
  }

  function Fail<C>(cell: Cell<C>, e: Error): Cell<C> {
    if cell.terminal.Some? && cell.future.None? then cell.(future := Some(Raised(e))) else cell
  }

  function MarkAll<C>(cells: seq<Cell<C>>): (r: seq<Cell<C>>)
    ensures |r| == |cells|
  {
    seq(|cells|, i requires 0 <= i < |cells| => Mark(cells[i], i))
  }

  function FailAll<C>(cells: seq<Cell<C>>, e: Error): (r: seq<Cell<C>>)
    ensures |r| == |cells|
  {
    seq(|cells|, i requires 0 <= i < |cells| => Fail(cells[i], e))
  }

  /** The number of terminals before item `i`: its place in the pushed list. */
  function Rank<C>(cells: seq<Cell<C>>, i: nat): nat
    requires i <= |cells|
  {
    if i == 0 then 0 else Rank(cells, i - 1) + (if cells[i - 1].terminal.Some? then 1 else 0)
  }

  lemma {:induction false} RankMonotone<C>(cells: seq<Cell<C>>, i: nat, j: nat)
    requires i <= j <= |cells|
    ensures Rank(cells, i) <= Rank(cells, j)
  {
    if i < j { RankMonotone(cells, i, j - 1); }
  }

  function Answer<C>(cells: seq<Cell<C>>, jobs: seq<Job>, i: nat): Cell<C>
    requires i < |cells| && Rank(cells, |cells|) == |jobs|
  {
    RankMonotone(cells, i + 1, |cells|);
    if cells[i].terminal.Some? && cells[i].future.None?
    then cells[i].(future := Some(Returned(Some(jobs[Rank(cells, i)])))) else cells[i]
  }

  function AnswerAll<C>(cells: seq<Cell<C>>, jobs: seq<Job>): (r: seq<Cell<C>>)
    requires Rank(cells, |cells|) == |jobs|
    ensures |r| == |cells|
  {
    seq(|cells|, i requires 0 <= i < |cells| => Answer(cells, jobs, i))
  }

  /** The requests that reached their terminal, in item order. */
  function Pending<C>(cells: seq<Cell<C>>): (r: seq<Request>)
    ensures |r| == Rank(cells, |cells|)
    decreases |cells|
  {
    if cells == [] then [] else
      var init := cells[..|cells| - 1];
      RankOfPrefix(cells, |cells| - 1, |cells| - 1);
      Pending(init) + (if cells[|cells| - 1].terminal.Some? then [cells[|cells| - 1].terminal.value] else [])
  }

  lemma {:induction false} RankOfPrefix<C>(cells: seq<Cell<C>>, n: nat, i: nat)
    requires i <= n <= |cells|
    ensures Rank(cells[..n], i) == Rank(cells, i)
  {
    if i > 0 { RankOfPrefix(cells, n, i - 1); }
  }

  function FirstError<C>(cells: seq<Cell<C>>): Option<Error>
  {
    if cells == [] then None
    else if cells[0].error.Some? then cells[0].error
    else FirstError(cells[1..])
  }

  /** The results that are not None, in item order. */
  function Kept<C>(cells: seq<Cell<C>>): seq<Job> {
    if cells == [] then []
    else Kept(cells[..|cells| - 1])
         + (if cells[|cells| - 1].result.Some? then [cells[|cells| - 1].result.value] else [])
  }

  // ------------------------------------------------------------------------- steps

  function Start<C>(requests: seq<Request>): Batch<C> {
    var cells := seq(|requests|, i requires 0 <= i < |requests| =>
                       Cell(Fresh(requests[i]), false, None, None, None, None));
    Batch(cells, if requests == [] then Done(Ok([])) else Gathering, [])
  }

  function PassBarrier<C>(b: Batch<C>): Batch<C> {
    var marked := MarkAll(b.cells);
    var failure := FirstError(marked);
    if failure.Some? then
      b.(cells := FailAll(marked, failure.value), main := Joining(Abort(failure.value)))
    else
      var batch := Pending(marked);
      if batch == [] then b.(cells := marked, main := Joining(Settled))
      else b.(cells := marked, main := Pushing(batch), pushes := b.pushes + [batch])
  }

  function Received(reply: Result<seq<Job>, Error>, expected: nat): Result<seq<Job>, Error> {
    if reply.Ok? && |reply.value| != expected
    then Err(CountMismatch(|reply.value|, expected)) else reply
  }

  function TakeReply<C>(b: Batch<C>, reply: Result<seq<Job>, Error>): Batch<C>
    requires b.main.Pushing? && |b.main.batch| == Rank(b.cells, |b.cells|)
  {
    match Received(reply, |b.main.batch|)
    case Err(e) => b.(cells := FailAll(b.cells, e), main := Joining(PushFailed(e)))
    case Ok(jobs) => b.(cells := AnswerAll(b.cells, jobs), main := Joining(Settled))
  }

  function Conclude<C>(cells: seq<Cell<C>>, end: End): Result<seq<Job>, Error> {
    if end.Settled? then
      var e := FirstError(cells);
      if e.Some? then Err(e.value) else Ok(Kept(cells))
    else Err(end.error)
  }

  predicate AllDecided<C>(cells: seq<Cell<C>>) {
    forall i | 0 <= i < |cells| :: cells[i].decided
  }

  predicate AllOver<C>(cells: seq<Cell<C>>) {
    forall i | 0 <= i < |cells| :: cells[i].local.Over?
  }

  ghost predicate ChainStep<C>(code: Code<C>, b: Batch<C>, b': Batch<C>, i: int) {
    && !b.main.Done?
    && 0 <= i < |b.cells| && Enabled(b.cells[i])
    && b' == b.(cells := b.cells[i := StepCell(code, b.cells[i])])
  }

  ghost predicate MainStep<C>(sink: Sink, b: Batch<C>, b': Batch<C>) {
    match b.main
    case Gathering => AllDecided(b.cells) && b' == PassBarrier(b)
    case Pushing(batch) => |batch| == Rank(b.cells, |b.cells|) && b' == TakeReply(b, sink(batch))
    case Joining(end) => AllOver(b.cells) && b' == b.(main := Done(Conclude(b.cells, end)))
    case Done(_) => false
  }

  ghost predicate Step<C>(code: Code<C>, sink: Sink, b: Batch<C>, b': Batch<C>) {
    MainStep(sink, b, b') || exists i :: ChainStep(code, b, b', i)
  }

  // ------------------------------------------------------- the sequential meaning

  ghost predicate RunsAlone<C(!new)>(code: Code<C>, requests: seq<Request>, stops: seq<Local<C>>) {
    && |stops| == |requests|
    && forall i | 0 <= i < |requests| :: Evaluates(code, Fresh(requests[i]), stops[i])
  }

  /** The item's cell once its pre-phase came to rest at `stop`. */
  ghost function AtRest<C>(stop: Local<C>): Cell<C>
    requires Stopped(stop)
  {
    match stop
    case Parked(candidate, _) => Cell(stop, true, Some(candidate), None, None, None)
    case Over(outcome) => Cell(stop, true, None, None, JobOf(outcome), ErrorOf(outcome))
  }

  ghost function Rested<C>(stops: seq<Local<C>>): (r: seq<Cell<C>>)
    requires forall i | 0 <= i < |stops| :: Stopped(stops[i])
    ensures |r| == |stops| && forall i | 0 <= i < |stops| :: r[i] == AtRest(stops[i])
  {
    seq(|stops|, i requires 0 <= i < |stops| => AtRest(stops[i]))
  }

  /** The item's post-phase alone, once its terminal was answered: `cell` is how it ends. */
  ghost predicate FinishesAlone<C(!new)>(code: Code<C>, stop: Local<C>, answered: Cell<C>, cell: Cell<C>)
    requires Stopped(stop)
  {
    if stop.Over? then cell == answered
    else
      && answered.future.Some?
      && cell.local.Over?
      && Evaluates(code, Resumed(stop, answered.future.value), cell.local)
      && cell == answered.(local := cell.local,
                           result := JobOf(cell.local.outcome), error := ErrorOf(cell.local.outcome))
  }

  ghost predicate AllFinishAlone<C(!new)>(code: Code<C>, stops: seq<Local<C>>, answered: seq<Cell<C>>,
                                          ends: seq<Cell<C>>)
  {
    && |answered| == |ends| == |stops|
    && forall i | 0 <= i < |stops| :: Stopped(stops[i]) && FinishesAlone(code, stops[i], answered[i], ends[i])
  }

  /** The batch without concurrency: run every pre-phase; if any failed or was
      rejected, raise the error of the lowest index; else push the candidates in
      order, run every post-phase on the job of its own rank, and raise the lowest
      error or return the jobs that are left. */
  ghost predicate Sequential<C(!new)>(code: Code<C>, requests: seq<Request>, sink: Sink,
                                pushes: seq<seq<Request>>, result: Result<seq<Job>, Error>)
  {
    exists stops: seq<Local<C>> | RunsAlone(code, requests, stops) ::
      SequentialFrom(code, stops, sink, pushes, result)
  }

  ghost predicate SequentialFrom<C(!new)>(code: Code<C>, stops: seq<Local<C>>, sink: Sink,
                                    pushes: seq<seq<Request>>, result: Result<seq<Job>, Error>)
    requires forall i | 0 <= i < |stops| :: Stopped(stops[i])
  {
    var cells := Rested(stops);
    var failure := FirstError(MarkAll(cells));
    var batch := Pending(cells);
    if failure.Some? then pushes == [] && result == Err(failure.value)
    else if batch == [] then pushes == [] && result == Ok(Kept(cells))
    else
      && pushes == [batch]
      && match Received(sink(batch), |batch|)
         case Err(e) => result == Err(e)
         case Ok(jobs) =>
           exists ends: seq<Cell<C>> | AllFinishAlone(code, stops, AnswerAll(cells, jobs), ends) ::
             result == Conclude(ends, Settled)
  }

  // ---------------------------------------------------- what the list functions say

  /** FirstError is the error of the lowest index that has one. */
  lemma {:induction false} FirstErrorIsLowest<C>(cells: seq<Cell<C>>)
    ensures FirstError(cells).None? <==> forall i | 0 <= i < |cells| :: cells[i].error.None?
    ensures FirstError(cells).Some? ==>
              exists i | 0 <= i < |cells| ::
                && cells[i].error == FirstError(cells)
                && forall j | 0 <= j < i :: cells[j].error.None?
  {
    if cells != [] && cells[0].error.None? {
      FirstErrorIsLowest(cells[1..]);
      if FirstError(cells).Some? {
        var i :| 0 <= i < |cells| - 1 && cells[1..][i].error == FirstError(cells)
                 && forall j | 0 <= j < i :: cells[1..][j].error.None?;
        assert forall j | 0 < j < i + 1 :: cells[j] == cells[1..][j - 1];
        assert cells[i + 1].error == FirstError(cells);
      } else {
        assert forall j | 0 < j < |cells| :: cells[j] == cells[1..][j - 1];
      }
    }
  }

  /** Every reached request is pushed, at its own rank, and nothing else is. */
  lemma {:induction false} PendingAtRank<C>(cells: seq<Cell<C>>, i: nat)
    requires i < |cells| && cells[i].terminal.Some?
    ensures Rank(cells, i) < |Pending(cells)|
    ensures Pending(cells)[Rank(cells, i)] == cells[i].terminal.value
    decreases |cells|
  {
    var n := |cells| - 1;
    RankOfPrefix(cells, n, i);
    RankOfPrefix(cells, n, n);
    if i < n { PendingAtRank(cells[..n], i); }
  }

  lemma NoneReached<C>(cells: seq<Cell<C>>)
    requires Pending(cells) == []
    ensures forall i | 0 <= i < |cells| :: cells[i].terminal.None?
  {
    forall i | 0 <= i < |cells| ensures cells[i].terminal.None? {
      if cells[i].terminal.Some? {
        PendingAtRank(cells, i);
        assert false;
      }
    }
  }

  function WithResult<C>(cells: seq<Cell<C>>): set<nat> {
    set i: nat | i < |cells| && cells[i].result.Some?
  }

  /** Kept results are in item order, those of the first `n` items first, and there are as
      many as items with a result. */
  lemma {:induction false} KeptInOrder<C>(cells: seq<Cell<C>>, n: nat)
    requires n <= |cells|
    ensures |Kept(cells)| == |WithResult(cells)|
    ensures Kept(cells[..n]) <= Kept(cells)
    ensures n < |cells| && cells[n].result.Some? ==>
              && |Kept(cells[..n])| < |Kept(cells)|
              && Kept(cells)[|Kept(cells[..n])|] == cells[n].result.value
    decreases |cells|
  {
    KeptCounted(cells);
    var m := |cells| - 1;
    if n == |cells| {
      assert cells[..n] == cells;
    } else if n < m {
      KeptInOrder(cells[..m], n);
      assert cells[..m][..n] == cells[..n];
    }
  }

  lemma {:induction false} KeptCounted<C>(cells: seq<Cell<C>>)
    ensures |Kept(cells)| == |WithResult(cells)|
    decreases |cells|
  {
    if cells == [] {
      assert WithResult(cells) == {};
    } else {
      var m := |cells| - 1;
      KeptCounted(cells[..m]);
      assert WithResult(cells) == WithResult(cells[..m]) + if cells[m].result.Some? then {m} else {};
    }
  }

  // --------------------------------------------------------------------- invariant

  ghost predicate Gather<C(!new)>(code: Code<C>, request: Request, cell: Cell<C>) {
    && Reaches(code, Fresh(request), cell.local)
    && cell == if Stopped(cell.local) then AtRest(cell.local)
               else Cell(cell.local, false, None, None, None, None)
  }

  /** A cell after the answers are out: untouched, or some way into its post-phase. */
  ghost predicate Late<C(!new)>(code: Code<C>, stop: Local<C>, answered: Cell<C>, cell: Cell<C>) {
    && answered.local == stop && answered.decided
    && (stop.Over? ==> cell == answered)
    && (stop.Parked? ==>
          && answered.terminal.Some? && answered.future.Some? && answered.result.None? && answered.error.None?
          && (|| cell == answered
              || (&& PastTerminal(cell.local)
                  && Reaches(code, Resumed(stop, answered.future.value), cell.local)
                  && cell == answered.(
                       local := cell.local,
                       result := if cell.local.Over? then JobOf(cell.local.outcome) else None,
                       error := if cell.local.Over? then ErrorOf(cell.local.outcome) else None))))
  }

  ghost predicate AllLate<C(!new)>(code: Code<C>, stops: seq<Local<C>>, answered: seq<Cell<C>>, cells: seq<Cell<C>>) {
    && |answered| == |cells| == |stops|
    && forall i | 0 <= i < |stops| :: Late(code, stops[i], answered[i], cells[i])
  }

  /** Which answers were handed out, and how many pushes that took. */
  ghost predicate AnsweredBy<C>(sink: Sink, stops: seq<Local<C>>, end: End, answered: seq<Cell<C>>,
                                pushes: seq<seq<Request>>)
    requires forall i | 0 <= i < |stops| :: Stopped(stops[i])
  {
    var cells := Rested(stops);
    var failure := FirstError(MarkAll(cells));
    var batch := Pending(cells);
    if end.Abort? then
      failure == Some(end.error) && pushes == [] && answered == FailAll(MarkAll(cells), end.error)
    else if failure.Some? then false
    else if batch == [] then end.Settled? && pushes == [] && answered == cells
    else
      && pushes == [batch]
      && match Received(sink(batch), |batch|)
         case Err(e) => end == PushFailed(e) && answered == FailAll(cells, e)
         case Ok(jobs) => end.Settled? && answered == AnswerAll(cells, jobs)
  }

  ghost predicate InPush<C(!new)>(code: Code<C>, requests: seq<Request>, b: Batch<C>, stops: seq<Local<C>>)
    requires b.main.Pushing?
  {
    && RunsAlone(code, requests, stops)
    && b.cells == Rested(stops)
    && FirstError(MarkAll(b.cells)).None?
    && b.main.batch == Pending(b.cells) && b.main.batch != []
    && b.pushes == [b.main.batch]
  }

  ghost predicate InJoin<C(!new)>(code: Code<C>, requests: seq<Request>, sink: Sink, b: Batch<C>,
                                  stops: seq<Local<C>>, answered: seq<Cell<C>>)
    requires b.main.Joining?
  {
    && RunsAlone(code, requests, stops)
    && AllLate(code, stops, answered, b.cells)
    && AnsweredBy(sink, stops, b.main.end, answered, b.pushes)
  }

  ghost predicate Inv<C(!new)>(code: Code<C>, requests: seq<Request>, sink: Sink, b: Batch<C>) {
    && |b.cells| == |requests|
    && match b.main
       case Gathering => b.pushes == [] && forall i | 0 <= i < |requests| :: Gather(code, requests[i], b.cells[i])
       case Pushing(_) => exists stops :: InPush(code, requests, b, stops)
       case Joining(_) => exists stops, answered :: InJoin(code, requests, sink, b, stops, answered)
       case Done(result) => Sequential(code, requests, sink, b.pushes, result)
  }

  lemma InitInv<C(!new)>(code: Code<C>, requests: seq<Request>, sink: Sink)
    ensures Inv(code, requests, sink, Start<C>(requests))
  {
    var b := Start<C>(requests);
    if requests == [] {
      var stops: seq<Local<C>> := [];
      assert RunsAlone(code, requests, stops);
      assert SequentialFrom(code, stops, sink, [], Ok([]));
    } else {
      forall i | 0 <= i < |requests| ensures Gather(code, requests[i], b.cells[i]) {
        ReachesSelf(code, Fresh(requests[i]));
      }
    }
  }

  lemma GatherStep<C(!new)>(code: Code<C>, request: Request, cell: Cell<C>)
    requires Gather(code, request, cell) && Enabled(cell)
    ensures Gather(code, request, StepCell(code, cell))
  {
    ReachesNext(code, Fresh(request), cell.local);
  }

  lemma LateStep<C(!new)>(code: Code<C>, stop: Local<C>, answered: Cell<C>, cell: Cell<C>)
    requires Stopped(stop) && Late(code, stop, answered, cell) && Enabled(cell)
    ensures Late(code, stop, answered, StepCell(code, cell))
  {
    if cell.local.Parked? {
      ReachesSelf(code, Resumed(stop, answered.future.value));
    } else {
      ReachesNext(code, Resumed(stop, answered.future.value), cell.local);
    }
  }

  lemma NothingMarked<C>(cells: seq<Cell<C>>)
    requires FirstError(MarkAll(cells)).None?
    ensures MarkAll(cells) == cells && FirstError(cells).None?
  {
    FirstErrorIsLowest(MarkAll(cells));
    forall i | 0 <= i < |cells| ensures MarkAll(cells)[i] == cells[i] && cells[i].error.None? {
      assert MarkAll(cells)[i].error.None?;
    }
    FirstErrorIsLowest(cells);
  }

  /** At the barrier every chain rests where it does alone. */
  lemma AllGathered<C(!new)>(code: Code<C>, requests: seq<Request>, sink: Sink, b: Batch<C>)
    returns (stops: seq<Local<C>>)
    requires Inv(code, requests, sink, b) && b.main.Gathering? && AllDecided(b.cells)
    ensures RunsAlone(code, requests, stops) && b.cells == Rested(stops)
  {
    stops := seq(|requests|, i requires 0 <= i < |requests| => b.cells[i].local);
    forall i | 0 <= i < |requests|
      ensures b.cells[i] == AtRest(stops[i]) && Evaluates(code, Fresh(requests[i]), stops[i])
    {
      assert Gather(code, requests[i], b.cells[i]);
    }
  }

  lemma BarrierInv<C(!new)>(code: Code<C>, requests: seq<Request>, sink: Sink, b: Batch<C>)
    requires Inv(code, requests, sink, b) && b.main.Gathering? && AllDecided(b.cells)
    ensures Inv(code, requests, sink, PassBarrier(b))
  {
    var stops := AllGathered(code, requests, sink, b);
    var b' := PassBarrier(b);
    if FirstError(MarkAll(b.cells)).None? { NothingMarked(b.cells); }
    if b'.main.Joining? {
      AbortOrNoneInv(code, requests, sink, b, stops);
    } else {
      assert InPush(code, requests, b', stops);
    }
  }

  lemma AbortOrNoneInv<C(!new)>(code: Code<C>, requests: seq<Request>, sink: Sink, b: Batch<C>, stops: seq<Local<C>>)
    requires RunsAlone(code, requests, stops) && b.cells == Rested(stops) && b.main.Gathering? && b.pushes == []
    requires PassBarrier(b).main.Joining?
    ensures var b' := PassBarrier(b); InJoin(code, requests, sink, b', stops, b'.cells)
  {
    var b' := PassBarrier(b);
    if FirstError(MarkAll(b.cells)).None? {
      NothingMarked(b.cells);
      if Pending(b.cells) == [] { NoneReached(b.cells); }
    }
    assert AllLate(code, stops, b'.cells, b'.cells);
  }

  lemma ReplyInv<C(!new)>(code: Code<C>, requests: seq<Request>, sink: Sink, b: Batch<C>, stops: seq<Local<C>>)
    requires b.main.Pushing? && |b.cells| == |requests| && InPush(code, requests, b, stops)
    ensures Inv(code, requests, sink, TakeReply(b, sink(b.main.batch)))
  {
    var b' := TakeReply(b, sink(b.main.batch));
    assert AllLate(code, stops, b'.cells, b'.cells);
    assert InJoin(code, requests, sink, b', stops, b'.cells);
  }

  lemma JoinInv<C(!new)>(code: Code<C>, requests: seq<Request>, sink: Sink, b: Batch<C>,
                         stops: seq<Local<C>>, answered: seq<Cell<C>>)
    requires b.main.Joining? && |b.cells| == |requests|
    requires InJoin(code, requests, sink, b, stops, answered) && AllOver(b.cells)
    ensures Sequential(code, requests, sink, b.pushes, Conclude(b.cells, b.main.end))
  {
    var cells := Rested(stops);
    if b.main.end.Settled? {
      NothingMarked(cells);
      forall i | 0 <= i < |stops| ensures FinishesAlone(code, stops[i], answered[i], b.cells[i]) {
        assert Late(code, stops[i], answered[i], b.cells[i]);
      }
      assert AllFinishAlone(code, stops, answered, b.cells);
      if Pending(cells) == [] {
        NoneReached(cells);
        assert b.cells == cells;
      }
    }
    assert SequentialFrom(code, stops, sink, b.pushes, Conclude(b.cells, b.main.end));
  }

  lemma ChainStepInv<C(!new)>(code: Code<C>, requests: seq<Request>, sink: Sink, b: Batch<C>, b': Batch<C>, i: int)
    requires Inv(code, requests, sink, b) && ChainStep(code, b, b', i)
    ensures Inv(code, requests, sink, b')
  {
    match b.main
    case Gathering => GatherStep(code, requests[i], b.cells[i]);
    case Pushing(_) =>
      assert false;
    case Joining(_) =>
      var stops: seq<Local<C>>, answered: seq<Cell<C>> :| InJoin(code, requests, sink, b, stops, answered);
      LateChainInv(code, requests, sink, b, b', i, stops, answered);
    case Done(_) =>
  }

  lemma LateChainInv<C(!new)>(code: Code<C>, requests: seq<Request>, sink: Sink, b: Batch<C>, b': Batch<C>, i: int,
                              stops: seq<Local<C>>, answered: seq<Cell<C>>)
    requires b.main.Joining? && ChainStep(code, b, b', i) && InJoin(code, requests, sink, b, stops, answered)
    ensures InJoin(code, requests, sink, b', stops, answered)
  {
    LateStep(code, stops[i], answered[i], b.cells[i]);
    assert AllLate(code, stops, answered, b'.cells);
  }

  lemma StepInv<C(!new)>(code: Code<C>, requests: seq<Request>, sink: Sink, b: Batch<C>, b': Batch<C>)
    requires Inv(code, requests, sink, b) && Step(code, sink, b, b')
    ensures Inv(code, requests, sink, b')
  {
    if MainStep(sink, b, b') {
      match b.main
      case Gathering => BarrierInv(code, requests, sink, b);
      case Pushing(_) =>
        var stops :| InPush(code, requests, b, stops);
        ReplyInv(code, requests, sink, b, stops);
      case Joining(_) =>
        var stops: seq<Local<C>>, answered: seq<Cell<C>> :| InJoin(code, requests, sink, b, stops, answered);
        JoinInv(code, requests, sink, b, stops, answered);
    } else {
      var i :| ChainStep(code, b, b', i);
      ChainStepInv(code, requests, sink, b, b', i);
    }
  }
}
