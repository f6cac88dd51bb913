/** What every schedule of a batch enqueue has in common: the sequential result, at
    most one push, one answer per terminal, and an end. */
module EnqueueSchedules {
  import opened Wrappers
  import opened EnqueueChain
  import opened EnqueueBatch

  /** A schedule: any interleaving of the chains and of `enqueue_batch` itself. */
  ghost predicate IsRun<C(!new)>(code: Code<C>, requests: seq<Request>, sink: Sink, run: seq<Batch<C>>) {
    && run != [] && run[0] == Start(requests)
    && forall k | 0 <= k < |run| - 1 :: Step(code, sink, run[k], run[k + 1])
  }

  lemma {:induction false} RunInv<C(!new)>(code: Code<C>, requests: seq<Request>, sink: Sink, run: seq<Batch<C>>)
    requires IsRun(code, requests, sink, run)
    ensures Inv(code, requests, sink, run[|run| - 1])
  {
    var n := |run| - 1;
    if n == 0 {
      InitInv(code, requests, sink);
    } else {
      var before := run[..n];
      RunInv(code, requests, sink, before);
      assert Step(code, sink, run[n - 1], run[n - 1 + 1]);
      StepInv(code, requests, sink, run[n - 1], run[n]);
    }
  }

  // --------------------------------------------------------- schedule independence

  lemma StopsUnique<C(!new)>(code: Code<C>, requests: seq<Request>, a: seq<Local<C>>, b: seq<Local<C>>)
    requires RunsAlone(code, requests, a) && RunsAlone(code, requests, b)
    ensures a == b
  {
    forall i | 0 <= i < |requests| ensures a[i] == b[i] {
      EvaluatesOnce(code, Fresh(requests[i]), a[i], b[i]);
    }
  }

  lemma EndsUnique<C(!new)>(code: Code<C>, stops: seq<Local<C>>, answered: seq<Cell<C>>,
                            a: seq<Cell<C>>, b: seq<Cell<C>>)
    requires AllFinishAlone(code, stops, answered, a) && AllFinishAlone(code, stops, answered, b)
    ensures a == b
  {
    forall i | 0 <= i < |stops| ensures a[i] == b[i] {
      assert FinishesAlone(code, stops[i], answered[i], a[i]) && FinishesAlone(code, stops[i], answered[i], b[i]);
      if stops[i].Parked? {
        EvaluatesOnce(code, Resumed(stops[i], answered[i].future.value), a[i].local, b[i].local);
      }
    }
  }

  /** The sequential meaning of a batch is one pushed list and one result. */
  lemma SequentialOnce<C(!new)>(code: Code<C>, requests: seq<Request>, sink: Sink,
                                pushes: seq<seq<Request>>, result: Result<seq<Job>, Error>,
                                pushes': seq<seq<Request>>, result': Result<seq<Job>, Error>)
    requires Sequential(code, requests, sink, pushes, result)
    requires Sequential(code, requests, sink, pushes', result')
    ensures pushes == pushes' && result == result'
  {
    var a: seq<Local<C>> :| RunsAlone(code, requests, a) && SequentialFrom(code, a, sink, pushes, result);
    var b: seq<Local<C>> :| RunsAlone(code, requests, b) && SequentialFrom(code, b, sink, pushes', result');
    StopsUnique(code, requests, a, b);
    SequentialFromOnce(code, a, sink, pushes, result, pushes', result');
  }

  lemma SequentialFromOnce<C(!new)>(code: Code<C>, a: seq<Local<C>>, sink: Sink,
                                    pushes: seq<seq<Request>>, result: Result<seq<Job>, Error>,
                                    pushes': seq<seq<Request>>, result': Result<seq<Job>, Error>)
    requires forall i | 0 <= i < |a| :: Stopped(a[i])
    requires SequentialFrom(code, a, sink, pushes, result) && SequentialFrom(code, a, sink, pushes', result')
    ensures pushes == pushes' && result == result'
  {
    var cells := Rested(a);
    var batch := Pending(cells);
    if FirstError(MarkAll(cells)).None? && batch != [] && Received(sink(batch), |batch|).Ok? {
      var answered := AnswerAll(cells, Received(sink(batch), |batch|).value);
      var ends: seq<Cell<C>> :| AllFinishAlone(code, a, answered, ends) && result == Conclude(ends, Settled);
      var ends': seq<Cell<C>> :| AllFinishAlone(code, a, answered, ends') && result' == Conclude(ends', Settled);
      EndsUnique(code, a, answered, ends, ends');
    }
  }

  /** Every schedule that finishes has pushed and returned (or raised) what the batch
      does without concurrency. */
  lemma EveryScheduleIsSequential<C(!new)>(code: Code<C>, requests: seq<Request>, sink: Sink, run: seq<Batch<C>>)
    requires IsRun(code, requests, sink, run) && run[|run| - 1].main.Done?
    ensures Sequential(code, requests, sink, run[|run| - 1].pushes, run[|run| - 1].main.result)
  {
    RunInv(code, requests, sink, run);
  }

  lemma SchedulesAgree<C(!new)>(code: Code<C>, requests: seq<Request>, sink: Sink,
                                run: seq<Batch<C>>, run': seq<Batch<C>>)
    requires IsRun(code, requests, sink, run) && run[|run| - 1].main.Done?
    requires IsRun(code, requests, sink, run') && run'[|run'| - 1].main.Done?
    ensures run[|run| - 1].pushes == run'[|run'| - 1].pushes
    ensures run[|run| - 1].main.result == run'[|run'| - 1].main.result
  {
    EveryScheduleIsSequential(code, requests, sink, run);
    EveryScheduleIsSequential(code, requests, sink, run');
    SequentialOnce(code, requests, sink,
                   run[|run| - 1].pushes, run[|run| - 1].main.result,
                   run'[|run'| - 1].pushes, run'[|run'| - 1].main.result);
  }

  // ---------------------------------------------------------------- barrier safety

  lemma AllStopped<C(!new)>(code: Code<C>, requests: seq<Request>, stops: seq<Local<C>>)
    requires RunsAlone(code, requests, stops)
    ensures forall i | 0 <= i < |stops| :: Stopped(stops[i])
  {
    forall i | 0 <= i < |stops| ensures Stopped(stops[i]) {
      assert Evaluates(code, Fresh(requests[i]), stops[i]);
    }
  }

  /** `pushes` is the one list that a batch without pre-phase failures sends. */
  ghost predicate PushedFrom<C(!new)>(code: Code<C>, requests: seq<Request>, stops: seq<Local<C>>,
                               pushes: seq<seq<Request>>) {
    && RunsAlone(code, requests, stops)
    && FirstError(MarkAll(Rested(stops))).None?
    && pushes == [Pending(Rested(stops))]
  }

  lemma PushesCome<C(!new)>(code: Code<C>, requests: seq<Request>, sink: Sink, b: Batch<C>)
    returns (stops: seq<Local<C>>)
    requires Inv(code, requests, sink, b) && b.pushes != []
    ensures PushedFrom(code, requests, stops, b.pushes)
  {
    match b.main
    case Pushing(_) => stops :| InPush(code, requests, b, stops);
    case Joining(_) =>
      var answered: seq<Cell<C>>;
      stops, answered :| InJoin(code, requests, sink, b, stops, answered);
    case Done(result) =>
      stops :| RunsAlone(code, requests, stops) && SequentialFrom(code, stops, sink, b.pushes, result);
  }

  /** At most one push, and none unless every pre-phase went through: each item either
      reached its terminal or was replaced by a result of its middleware. */
  lemma PushedAtMostOnce<C(!new)>(code: Code<C>, requests: seq<Request>, sink: Sink, b: Batch<C>)
    returns (stops: seq<Local<C>>)
    requires Inv(code, requests, sink, b) && b.pushes != []
    ensures RunsAlone(code, requests, stops) && b.pushes == [Pending(Rested(stops))]
    ensures forall i | 0 <= i < |stops| ::
              stops[i].Over? ==> stops[i].outcome.Returned? && stops[i].outcome.job.Some?
  {
    stops := PushesCome(code, requests, sink, b);
    var marked := MarkAll(Rested(stops));
    FirstErrorIsLowest(marked);
    forall i | 0 <= i < |stops| && stops[i].Over?
      ensures stops[i].outcome.Returned? && stops[i].outcome.job.Some?
    {
      assert marked[i].error.None?;
      assert Stopped(stops[i]) && marked[i] == Mark(AtRest(stops[i]), i);
    }
  }

  /** A terminal's future is resolved once: no step changes an answer given. */
  lemma AnsweredOnce<C(!new)>(code: Code<C>, sink: Sink, b: Batch<C>, b': Batch<C>, i: nat)
    requires Step(code, sink, b, b') && i < |b.cells| && b.cells[i].future.Some?
    ensures |b'.cells| == |b.cells| && b'.cells[i].future == b.cells[i].future
  {
    if MainStep(sink, b, b') {
      assert b.main.Gathering? ==> MarkAll(b.cells)[i].future == b.cells[i].future;
    }
  }

  lemma {:induction false} SameTerminalsSameRank<C>(a: seq<Cell<C>>, b: seq<Cell<C>>, n: nat)
    requires n <= |a| == |b| && forall i | 0 <= i < |a| :: a[i].terminal == b[i].terminal
    ensures Rank(a, n) == Rank(b, n)
  {
    if n > 0 { SameTerminalsSameRank(a, b, n - 1); }
  }

  lemma LateKeepsAnswers<C(!new)>(code: Code<C>, stops: seq<Local<C>>, answered: seq<Cell<C>>, cells: seq<Cell<C>>,
                                  n: nat)
    requires AllLate(code, stops, answered, cells) && n <= |cells|
    requires forall j | 0 <= j < |stops| :: Stopped(stops[j])
    ensures forall j | 0 <= j < |cells| ::
              cells[j].terminal == answered[j].terminal && cells[j].future == answered[j].future
    ensures Rank(cells, n) == Rank(answered, n)
  {
    forall j | 0 <= j < |cells|
      ensures cells[j].terminal == answered[j].terminal && cells[j].future == answered[j].future
    {
      assert Late(code, stops[j], answered[j], cells[j]);
    }
    SameTerminalsSameRank(cells, answered, n);
  }

  lemma AnswersMatch<C>(sink: Sink, stops: seq<Local<C>>, end: End, answered: seq<Cell<C>>, pushes: seq<seq<Request>>,
                        i: nat)
    requires (forall j | 0 <= j < |stops| :: Stopped(stops[j])) && AnsweredBy(sink, stops, end, answered, pushes)
    requires i < |answered| == |stops| && answered[i].terminal.Some?
    ensures !end.Settled? ==> answered[i].future == Some(Raised(end.error))
    ensures end.Settled? ==>
              && |pushes| == 1 && sink(pushes[0]).Ok?
              && var rank := Rank(answered, i);
                 && rank < |pushes[0]| == |sink(pushes[0]).value|
                 && pushes[0][rank] == answered[i].terminal.value
                 && answered[i].future == Some(Returned(Some(sink(pushes[0]).value[rank])))
  {
    var cells := Rested(stops);
    forall j | 0 <= j < |stops| ensures answered[j].terminal == cells[j].terminal {
      assert MarkAll(cells)[j].terminal == cells[j].terminal;
    }
    SameTerminalsSameRank(answered, cells, i);
    PendingAtRank(cells, i);
  }

  /** Once the batch joins its chains, every reached terminal has its answer: the
      shared failure, or the job the transport returned for its own request. */
  lemma AnsweredWithOwnJob<C(!new)>(code: Code<C>, requests: seq<Request>, sink: Sink, b: Batch<C>, i: nat)
    requires Inv(code, requests, sink, b) && b.main.Joining?
    requires i < |b.cells| && b.cells[i].terminal.Some?
    ensures !b.main.end.Settled? ==> b.cells[i].future == Some(Raised(b.main.end.error))
    ensures b.main.end.Settled? ==>
              && |b.pushes| == 1 && sink(b.pushes[0]).Ok?
              && var rank := Rank(b.cells, i);
                 && rank < |b.pushes[0]| == |sink(b.pushes[0]).value|
                 && b.pushes[0][rank] == b.cells[i].terminal.value
                 && b.cells[i].future == Some(Returned(Some(sink(b.pushes[0]).value[rank])))
  {
    var stops: seq<Local<C>>, answered: seq<Cell<C>> :| InJoin(code, requests, sink, b, stops, answered);
    AllStopped(code, requests, stops);
    LateKeepsAnswers(code, stops, answered, b.cells, i);
    AnswersMatch(sink, stops, b.main.end, answered, b.pushes, i);
  }

  // ---------------------------------------------------------------------- progress

  lemma GatheredDecided<C(!new)>(code: Code<C>, request: Request, cell: Cell<C>)
    requires Gather(code, request, cell) && !Enabled(cell)
    ensures cell.decided
  {
  }

  lemma LateOver<C(!new)>(code: Code<C>, stop: Local<C>, answered: Cell<C>, cell: Cell<C>)
    requires Late(code, stop, answered, cell) && Stopped(stop) && !Enabled(cell)
    ensures cell.local.Over?
  {
  }

  lemma JoinedOver<C(!new)>(code: Code<C>, requests: seq<Request>, sink: Sink, b: Batch<C>,
                            stops: seq<Local<C>>, answered: seq<Cell<C>>)
    requires b.main.Joining? && InJoin(code, requests, sink, b, stops, answered)
    requires forall i | 0 <= i < |b.cells| :: !Enabled(b.cells[i])
    ensures AllOver(b.cells)
  {
    forall i | 0 <= i < |b.cells| ensures b.cells[i].local.Over? {
      LateOver(code, stops[i], answered[i], b.cells[i]);
    }
  }

  /** No schedule gets stuck: short of the end, some step can be taken. */
  lemma NeverStuck<C(!new)>(code: Code<C>, requests: seq<Request>, sink: Sink, b: Batch<C>) returns (b': Batch<C>)
    requires Inv(code, requests, sink, b) && !b.main.Done?
    ensures Step(code, sink, b, b')
  {
    if i :| 0 <= i < |b.cells| && Enabled(b.cells[i]) {
      b' := b.(cells := b.cells[i := StepCell(code, b.cells[i])]);
      assert ChainStep(code, b, b', i);
    } else {
      match b.main
      case Gathering =>
        forall i | 0 <= i < |b.cells| ensures b.cells[i].decided {
          GatheredDecided(code, requests[i], b.cells[i]);
        }
        b' := PassBarrier(b);
      case Pushing(batch) =>
        b' := TakeReply(b, sink(batch));
      case Joining(end) =>
        var stops: seq<Local<C>>, answered: seq<Cell<C>> :| InJoin(code, requests, sink, b, stops, answered);
        JoinedOver(code, requests, sink, b, stops, answered);
        b' := b.(main := Done(Conclude(b.cells, end)));
    }
  }

  function MainRank(main: Main): nat {
    match main
    case Gathering => 3
    case Pushing(_) => 2
    case Joining(_) => 1
    case Done(_) => 0
  }

  /** Before its terminal, at it, past it. */
  function Stage<C>(cell: Cell<C>): nat {
    match cell.local
    case Parked(_, _) => 1
    case Over(_) => 0
    case _ => if cell.terminal.None? then 2 else 0
  }

  ghost function Sum(s: seq<nat>): nat {
    if s == [] then 0 else s[0] + Sum(s[1..])
  }

  lemma {:induction false} SumUpdate(s: seq<nat>, i: nat, x: nat)
    requires i < |s|
    ensures Sum(s[i := x]) + s[i] == Sum(s) + x
  {
    if i == 0 {
      assert s[i := x][1..] == s[1..];
    } else {
      SumUpdate(s[1..], i - 1, x);
      assert s[i := x][1..] == s[1..][i - 1 := x];
    }
  }

  ghost function Stages<C>(cells: seq<Cell<C>>): seq<nat> {
    seq(|cells|, i requires 0 <= i < |cells| => Stage(cells[i]))
  }

  /** What a terminal can be answered: a job, or the batch's shared failure. */
  predicate TerminalAnswer(answer: Outcome) {
    answer.Raised? || (answer.Returned? && answer.job.Some?)
  }

  ghost predicate GoesOn<C(!new)>(code: Code<C>, stop: Local<C>) {
    stop.Parked? ==> forall answer | TerminalAnswer(answer) :: Halts(code, Resumed(stop, answer))
  }

  /** The middleware makes progress on a request: its chain comes to rest, and past its
      terminal it comes to rest again, whatever the terminal is answered. */
  ghost predicate Progresses<C(!new)>(code: Code<C>, request: Request) {
    && Halts(code, Fresh(request))
    && forall stop: Local<C> | Evaluates(code, Fresh(request), stop) :: GoesOn(code, stop)
  }

  ghost predicate AllProgress<C(!new)>(code: Code<C>, requests: seq<Request>) {
    forall i | 0 <= i < |requests| :: Progresses(code, requests[i])
  }

  ghost predicate AllHalt<C(!new)>(code: Code<C>, cells: seq<Cell<C>>) {
    forall i | 0 <= i < |cells| :: Halts(code, cells[i].local)
  }

  ghost function Costs<C(!new)>(code: Code<C>, cells: seq<Cell<C>>): seq<nat>
    requires AllHalt(code, cells)
  {
    seq(|cells|, i requires 0 <= i < |cells| => Cost(code, cells[i].local))
  }

  /** A running chain whose terminal was recorded is past it. */
  predicate InPlace<C>(cell: Cell<C>) {
    && (cell.terminal.Some? ==> cell.local.Parked? || PastTerminal(cell.local))
    && (cell.local.Parked? ==> cell.terminal.Some?)
  }

  lemma LateInPlace<C(!new)>(code: Code<C>, stop: Local<C>, answered: Cell<C>, cell: Cell<C>)
    requires Stopped(stop) && Late(code, stop, answered, cell)
    ensures InPlace(cell)
  {
  }

  /** A chain that can be scheduled has left nothing in the lists of results and errors. */
  lemma EnabledHasNothing<C(!new)>(code: Code<C>, requests: seq<Request>, sink: Sink, b: Batch<C>, i: int)
    requires Inv(code, requests, sink, b) && !b.main.Done? && 0 <= i < |b.cells| && Enabled(b.cells[i])
    ensures NothingYet(b.cells[i])
  {
    match b.main
    case Gathering => assert Gather(code, requests[i], b.cells[i]);
    case Pushing(_) =>
    case Joining(_) =>
      var stops: seq<Local<C>>, answered: seq<Cell<C>> :| InJoin(code, requests, sink, b, stops, answered);
      AllStopped(code, requests, stops);
      LateHasNothing(code, stops[i], answered[i], b.cells[i]);
  }

  lemma LateHasNothing<C(!new)>(code: Code<C>, stop: Local<C>, answered: Cell<C>, cell: Cell<C>)
    requires Stopped(stop) && Late(code, stop, answered, cell) && Enabled(cell)
    ensures NothingYet(cell)
  {
  }

  lemma InPlaceInv<C(!new)>(code: Code<C>, requests: seq<Request>, sink: Sink, b: Batch<C>, i: int)
    requires Inv(code, requests, sink, b) && !b.main.Done? && 0 <= i < |b.cells|
    ensures InPlace(b.cells[i])
  {
    match b.main
    case Gathering => assert Gather(code, requests[i], b.cells[i]);
    case Pushing(_) =>
    case Joining(_) =>
      var stops: seq<Local<C>>, answered: seq<Cell<C>> :| InJoin(code, requests, sink, b, stops, answered);
      AllStopped(code, requests, stops);
      LateInPlace(code, stops[i], answered[i], b.cells[i]);
  }

  lemma StepCellDescends<C(!new)>(code: Code<C>, cell: Cell<C>)
    requires Enabled(cell) && InPlace(cell)
    requires Halts(code, cell.local) && Halts(code, StepCell(code, cell).local)
    ensures || Stage(StepCell(code, cell)) < Stage(cell)
            || (&& Stage(StepCell(code, cell)) == Stage(cell)
                && Cost(code, StepCell(code, cell).local) < Cost(code, cell.local))
  {
    if !cell.local.Parked? { CostDecreases(code, cell.local); }
  }

  ghost predicate Descends<C(!new)>(code: Code<C>, b: Batch<C>, b': Batch<C>)
    requires AllHalt(code, b.cells) && AllHalt(code, b'.cells)
  {
    || MainRank(b'.main) < MainRank(b.main)
    || (&& MainRank(b'.main) == MainRank(b.main)
        && (|| Sum(Stages(b'.cells)) < Sum(Stages(b.cells))
            || (Sum(Stages(b'.cells)) == Sum(Stages(b.cells))
                && Sum(Costs(code, b'.cells)) < Sum(Costs(code, b.cells)))))
  }

  lemma ChainStepDescends<C(!new)>(code: Code<C>, b: Batch<C>, b': Batch<C>, i: int)
    requires AllHalt(code, b.cells) && AllHalt(code, b'.cells)
    requires ChainStep(code, b, b', i) && InPlace(b.cells[i])
    ensures Descends(code, b, b')
  {
    var cell, cell' := b.cells[i], b'.cells[i];
    StepCellDescends(code, cell);
    SumUpdate(Stages(b.cells), i, Stage(cell'));
    assert Stages(b'.cells) == Stages(b.cells)[i := Stage(cell')];
    SumUpdate(Costs(code, b.cells), i, Cost(code, cell'.local));
    assert Costs(code, b'.cells) == Costs(code, b.cells)[i := Cost(code, cell'.local)];
  }

  lemma LateParked<C(!new)>(code: Code<C>, stop: Local<C>, answered: Cell<C>, cell: Cell<C>)
    requires Late(code, stop, answered, cell) && Stopped(stop) && cell.local.Parked?
    ensures cell == answered && cell.local == stop
  {
  }

  lemma GoesOnHalts<C(!new)>(code: Code<C>, request: Request, stop: Local<C>, answer: Outcome)
    requires Progresses(code, request) && Evaluates(code, Fresh(request), stop)
    requires stop.Parked? && TerminalAnswer(answer)
    ensures Halts(code, Resumed(stop, answer))
  {
    assert GoesOn(code, stop);
  }

  /** A chain about to leave its terminal will come to rest again. */
  lemma ResumedHalts<C(!new)>(code: Code<C>, requests: seq<Request>, sink: Sink, b: Batch<C>, i: int,
                              stops: seq<Local<C>>, answered: seq<Cell<C>>)
    requires |b.cells| == |requests| && 0 <= i < |b.cells| && Progresses(code, requests[i])
    requires b.main.Joining? && InJoin(code, requests, sink, b, stops, answered)
    requires Enabled(b.cells[i]) && b.cells[i].local.Parked?
    ensures Halts(code, Resumed(b.cells[i].local, b.cells[i].future.value))
  {
    AllStopped(code, requests, stops);
    LateParked(code, stops[i], answered[i], b.cells[i]);
    AnswersMatch(sink, stops, b.main.end, answered, b.pushes, i);
    GoesOnHalts(code, requests[i], stops[i], answered[i].future.value);
  }

  lemma OnlyJoiningResumes<C(!new)>(code: Code<C>, requests: seq<Request>, sink: Sink, b: Batch<C>, i: int)
    requires Inv(code, requests, sink, b) && !b.main.Done? && 0 <= i < |b.cells|
    requires Enabled(b.cells[i]) && b.cells[i].local.Parked?
    ensures b.main.Joining?
  {
    assert b.main.Gathering? ==> Gather(code, requests[i], b.cells[i]);
  }

  lemma StepCellHalts<C(!new)>(code: Code<C>, requests: seq<Request>, sink: Sink, b: Batch<C>, i: int)
    requires AllProgress(code, requests) && Inv(code, requests, sink, b) && !b.main.Done?
    requires 0 <= i < |b.cells| && Enabled(b.cells[i]) && Halts(code, b.cells[i].local)
    ensures Halts(code, StepCell(code, b.cells[i]).local)
  {
    if b.cells[i].local.Parked? {
      ParkedCellHalts(code, requests, sink, b, i);
    } else {
      HaltsNext(code, b.cells[i].local);
    }
  }

  lemma ParkedCellHalts<C(!new)>(code: Code<C>, requests: seq<Request>, sink: Sink, b: Batch<C>, i: int)
    requires AllProgress(code, requests) && Inv(code, requests, sink, b) && !b.main.Done?
    requires 0 <= i < |b.cells| && Enabled(b.cells[i]) && b.cells[i].local.Parked?
    ensures Halts(code, Resumed(b.cells[i].local, b.cells[i].future.value))
  {
    OnlyJoiningResumes(code, requests, sink, b, i);
    var stops: seq<Local<C>>, answered: seq<Cell<C>> :| InJoin(code, requests, sink, b, stops, answered);
    ResumedHalts(code, requests, sink, b, i, stops, answered);
  }

  lemma MainKeepsLocals<C(!new)>(sink: Sink, b: Batch<C>, b': Batch<C>)
    requires MainStep(sink, b, b')
    ensures |b'.cells| == |b.cells| && forall i | 0 <= i < |b.cells| :: b'.cells[i].local == b.cells[i].local
  {
  }

  lemma StepHalts<C(!new)>(code: Code<C>, requests: seq<Request>, sink: Sink, b: Batch<C>, b': Batch<C>)
    requires AllProgress(code, requests) && Inv(code, requests, sink, b) && Step(code, sink, b, b')
    requires AllHalt(code, b.cells)
    ensures AllHalt(code, b'.cells)
  {
    if MainStep(sink, b, b') {
      MainKeepsLocals(sink, b, b');
    } else {
      var i :| ChainStep(code, b, b', i);
      StepCellHalts(code, requests, sink, b, i);
    }
  }

  lemma StepDescends<C(!new)>(code: Code<C>, requests: seq<Request>, sink: Sink, b: Batch<C>, b': Batch<C>)
    requires Inv(code, requests, sink, b) && Step(code, sink, b, b')
    requires AllHalt(code, b.cells) && AllHalt(code, b'.cells)
    ensures Descends(code, b, b')
  {
    if MainStep(sink, b, b') {
      MainDescends(sink, b, b');
    } else {
      var i :| ChainStep(code, b, b', i);
      InPlaceInv(code, requests, sink, b, i);
      ChainStepDescends(code, b, b', i);
    }
  }

  lemma MainDescends<C(!new)>(sink: Sink, b: Batch<C>, b': Batch<C>)
    requires MainStep(sink, b, b')
    ensures MainRank(b'.main) < MainRank(b.main)
  {
  }

  /** An endless schedule: a step for ever, or a finished batch left alone. */
  ghost predicate Endless<C(!new)>(code: Code<C>, requests: seq<Request>, sink: Sink, run: nat -> Batch<C>) {
    && run(0) == Start(requests)
    && forall k: nat :: StepsOn(code, sink, run, k)
  }

  ghost predicate StepsOn<C>(code: Code<C>, sink: Sink, run: nat -> Batch<C>, k: nat) {
    Step(code, sink, run(k), run(k + 1)) || (run(k).main.Done? && run(k + 1) == run(k))
  }

  lemma {:induction false} FinishesFrom<C(!new)>(code: Code<C>, requests: seq<Request>, sink: Sink,
                                                 run: nat -> Batch<C>, k: nat) returns (m: nat)
    requires AllProgress(code, requests) && Endless(code, requests, sink, run)
    requires Inv(code, requests, sink, run(k)) && AllHalt(code, run(k).cells)
    ensures run(m).main.Done? && Inv(code, requests, sink, run(m))
    decreases MainRank(run(k).main), Sum(Stages(run(k).cells)), Sum(Costs(code, run(k).cells))
  {
    if run(k).main.Done? {
      m := k;
    } else {
      assert StepsOn(code, sink, run, k);
      StepInv(code, requests, sink, run(k), run(k + 1));
      StepHalts(code, requests, sink, run(k), run(k + 1));
      StepDescends(code, requests, sink, run(k), run(k + 1));
      m := FinishesFrom(code, requests, sink, run, k + 1);
    }
  }

  /** Where the middleware makes progress on every request, every schedule ends, however
      chains are picked, and it ends in the sequential result. */
  lemma EveryScheduleFinishes<C(!new)>(code: Code<C>, requests: seq<Request>, sink: Sink, run: nat -> Batch<C>)
    returns (m: nat)
    requires AllProgress(code, requests) && Endless(code, requests, sink, run)
    ensures run(m).main.Done? && Sequential(code, requests, sink, run(m).pushes, run(m).main.result)
  {
    InitInv(code, requests, sink);
    assert AllHalt(code, run(0).cells) by {
      forall i | 0 <= i < |requests| ensures Halts(code, run(0).cells[i].local) {
        assert Progresses(code, requests[i]);
      }
    }
    m := FinishesFrom(code, requests, sink, run, 0);
  }
}
