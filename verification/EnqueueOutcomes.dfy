/** What a batch enqueue pushes and returns, said of the chains run alone: who fails, who is
    pushed, who is answered with which job, and what is returned or raised
    (src/ojs/client/enqueue_pipeline.py:215-278). */
module EnqueueOutcomes {
  import opened Wrappers
  import opened EnqueueChain
  import opened EnqueueBatch
  import opened EnqueueSchedules

  // -------------------------------------------------------------------------- the outcome

  predicate RaisedBy<C>(l: Local<C>) {
    l.Over? && l.outcome.Raised?
  }

  predicate HasJob<C>(l: Local<C>) {
    l.Over? && l.outcome.Returned? && l.outcome.job.Some?
  }

  predicate AtTerminal<C>(l: Local<C>) {
    l.Parked?
  }

  /** A pre-phase that aborts the batch: it raised, or came to its end without a job. */
  predicate Aborts<C>(stop: Local<C>) {
    stop.Over? && !HasJob(stop)
  }

  function AbortError<C>(stop: Local<C>, i: nat): Error
    requires Aborts(stop)
  {
    if stop.outcome.Raised? then stop.outcome.error else RejectedItem(i)
  }

  /** The items that are wanted, each once, in item order. */
  predicate Enumerates<C>(items: seq<nat>, ls: seq<Local<C>>, wanted: Local<C> -> bool) {
    && (forall k, m | 0 <= k < m < |items| :: items[k] < items[m])
    && (forall k | 0 <= k < |items| :: items[k] < |ls| && wanted(ls[items[k]]))
    && (forall i: nat | i < |ls| && wanted(ls[i]) :: i in items)
  }

  /** Item i is the lowest of its kind. */
  predicate Lowest<C>(i: nat, ls: seq<Local<C>>, wanted: Local<C> -> bool) {
    i < |ls| && wanted(ls[i]) && forall j | 0 <= j < i :: !wanted(ls[j])
  }

  /** `jobs` are those the chains returned, in item order. */
  ghost predicate ReturnedJobs<C>(ends: seq<Local<C>>, jobs: seq<Job>) {
    exists items :: Enumerates(items, ends, HasJob) && JobsAt(ends, items, jobs)
  }

  predicate JobsAt<C>(ends: seq<Local<C>>, items: seq<nat>, jobs: seq<Job>) {
    |jobs| == |items| && forall k | 0 <= k < |items| ::
      items[k] < |ends| && HasJob(ends[items[k]]) && jobs[k] == ends[items[k]].outcome.job.value
  }

  /** The error of the lowest item that raised, else the jobs that were returned. */
  ghost predicate ResultOf<C>(ends: seq<Local<C>>, result: Result<seq<Job>, Error>) {
    && (forall i: nat | Lowest(i, ends, RaisedBy) :: result == Err(ends[i].outcome.error))
    && ((forall i | 0 <= i < |ends| :: !RaisedBy(ends[i])) ==> result.Ok? && ReturnedJobs(ends, result.value))
  }

  /** `batch` is what the chains at their terminals want pushed, in item order. */
  predicate Candidates<C>(stops: seq<Local<C>>, items: seq<nat>, batch: seq<Request>) {
    && Enumerates(items, stops, AtTerminal) && |batch| == |items|
    && forall k | 0 <= k < |items| :: batch[k] == stops[items[k]].candidate
  }

  /** Each chain at its terminal goes on with the job at its own place, to its end; the others
      are at their end. */
  ghost predicate GoesOnWith<C(!new)>(code: Code<C>, stops: seq<Local<C>>, items: seq<nat>, jobs: seq<Job>,
                                      ends: seq<Local<C>>)
    requires Enumerates(items, stops, AtTerminal) && |jobs| == |items|
  {
    && |ends| == |stops|
    && (forall i | 0 <= i < |stops| && stops[i].Over? :: ends[i] == stops[i])
    && (forall k | 0 <= k < |items| ::
          ends[items[k]].Over? && Evaluates(code, Resumed(stops[items[k]], Returned(Some(jobs[k]))), ends[items[k]]))
  }

  /** No chain aborts: the candidates are pushed, and the answer decides. */
  ghost predicate PushMeans<C(!new)>(code: Code<C>, stops: seq<Local<C>>, sink: Sink, pushes: seq<seq<Request>>,
                                     result: Result<seq<Job>, Error>)
  {
    exists items, batch ::
      Candidates(stops, items, batch) && AnswerMeans(code, stops, items, batch, sink, pushes, result)
  }

  ghost predicate AnswerMeans<C(!new)>(code: Code<C>, stops: seq<Local<C>>, items: seq<nat>, batch: seq<Request>,
                                       sink: Sink, pushes: seq<seq<Request>>, result: Result<seq<Job>, Error>)
    requires Enumerates(items, stops, AtTerminal) && |batch| == |items|
  {
    if batch == [] then pushes == [] && ResultOf(stops, result)
    else
      && pushes == [batch]
      && match sink(batch)
         case Err(e) => result == Err(e)
         case Ok(jobs) =>
           if |jobs| != |batch| then result == Err(CountMismatch(|jobs|, |batch|))
           else exists ends :: GoesOnWith(code, stops, items, jobs, ends) && ResultOf(ends, result)
  }

  /** What a finished batch is, from what its chains do alone. */
  ghost predicate Means<C(!new)>(code: Code<C>, stops: seq<Local<C>>, sink: Sink, pushes: seq<seq<Request>>,
                                 result: Result<seq<Job>, Error>)
  {
    && (forall i: nat | Lowest(i, stops, Aborts) :: pushes == [] && result == Err(AbortError(stops[i], i)))
    && ((forall i | 0 <= i < |stops| :: !Aborts(stops[i])) ==> PushMeans(code, stops, sink, pushes, result))
  }

  // ------------------------------------------------------------------------ enumerating

  function Items<C>(ls: seq<Local<C>>, wanted: Local<C> -> bool): seq<nat> {
    if ls == [] then []
    else
      var n := |ls| - 1;
      Items(ls[..n], wanted) + if wanted(ls[n]) then [n] else []
  }

  lemma {:induction false} ItemsEnumerate<C>(ls: seq<Local<C>>, wanted: Local<C> -> bool)
    ensures Enumerates(Items(ls, wanted), ls, wanted)
  {
    if ls != [] {
      ItemsEnumerate(ls[..|ls| - 1], wanted);
      OneMoreItem(ls, |ls| - 1, wanted, Items(ls[..|ls| - 1], wanted));
    }
  }

  lemma OneMoreItem<C>(ls: seq<Local<C>>, n: nat, wanted: Local<C> -> bool, before: seq<nat>)
    requires n + 1 == |ls| && Enumerates(before, ls[..n], wanted)
    ensures Enumerates(before + if wanted(ls[n]) then [n] else [], ls, wanted)
  {
    var items := before + if wanted(ls[n]) then [n] else [];
    forall k | 0 <= k < |items| ensures items[k] < |ls| && wanted(ls[items[k]]) && (k < |before| ==> items[k] < n) {
      if k < |before| { assert ls[..n][before[k]] == ls[before[k]]; }
    }
    forall i: nat | i < |ls| && wanted(ls[i]) ensures i in items {
      if i < n { assert ls[..n][i] == ls[i] && i in before; } else { assert items[|before|] == n; }
    }
  }

  predicate AllStop<C>(stops: seq<Local<C>>) {
    forall i | 0 <= i < |stops| :: Stopped(stops[i])
  }

  /** The pushed list holds the candidates, and a terminal's rank is its place in it. */
  lemma {:induction false} PendingEnumerates<C>(stops: seq<Local<C>>)
    requires AllStop(stops)
    ensures var items, batch := Items(stops, AtTerminal), Pending(Rested(stops));
      && |batch| == |items| == Rank(Rested(stops), |stops|)
      && forall k | 0 <= k < |items| ::
           items[k] < |stops| && stops[items[k]].Parked? && batch[k] == stops[items[k]].candidate
           && Rank(Rested(stops), items[k]) == k
  {
    if stops != [] {
      var n := |stops| - 1;
      var init, cells := stops[..n], Rested(stops);
      PendingEnumerates(init);
      assert cells[..n] == Rested(init);
      var before, items := Items(init, AtTerminal), Items(stops, AtTerminal);
      RankOfPrefix(cells, n, n);
      forall k | 0 <= k < |before|
        ensures items[k] < n && stops[items[k]].Parked? && Pending(cells)[k] == stops[items[k]].candidate
        ensures Rank(cells, items[k]) == k
      {
        assert items[k] == before[k] && init[before[k]] == stops[before[k]];
        RankOfPrefix(cells, n, before[k]);
      }
      LastRank(stops, cells, n);
    }
  }

  lemma LastRank<C>(stops: seq<Local<C>>, cells: seq<Cell<C>>, n: nat)
    requires AllStop(stops) && cells == Rested(stops) && n + 1 == |stops|
    ensures Pending(cells) == Pending(cells[..n]) + if stops[n].Parked? then [stops[n].candidate] else []
    ensures Rank(cells, n + 1) == Rank(cells, n) + if stops[n].Parked? then 1 else 0
  {
    assert cells[n] == AtRest(stops[n]);
  }

  // ------------------------------------------------------------------------------- ends

  /** The cells at the end tell what the chains came to. */
  predicate Tells<C>(cells: seq<Cell<C>>, ends: seq<Local<C>>) {
    |cells| == |ends| && forall i | 0 <= i < |cells| ::
      cells[i].error == (if RaisedBy(ends[i]) then Some(ends[i].outcome.error) else None)
      && cells[i].result == (if HasJob(ends[i]) then ends[i].outcome.job else None)
  }

  lemma {:induction false} KeptTells<C>(cells: seq<Cell<C>>, ends: seq<Local<C>>)
    requires Tells(cells, ends)
    ensures JobsAt(ends, Items(ends, HasJob), Kept(cells))
    decreases |cells|
  {
    if cells != [] {
      var n := |cells| - 1;
      KeptTells(cells[..n], ends[..n]);
      assert forall k | 0 <= k < |Items(ends[..n], HasJob)| ::
          ends[..n][Items(ends[..n], HasJob)[k]] == ends[Items(ends[..n], HasJob)[k]];
    }
  }

  lemma KeptReturned<C>(cells: seq<Cell<C>>, ends: seq<Local<C>>)
    requires Tells(cells, ends)
    ensures ReturnedJobs(ends, Kept(cells))
  {
    KeptTells(cells, ends);
    ItemsEnumerate(ends, HasJob);
  }

  /** What the batch concludes from those cells. */
  lemma ConcludeTells<C>(cells: seq<Cell<C>>, ends: seq<Local<C>>)
    requires Tells(cells, ends)
    ensures ResultOf(ends, Conclude(cells, Settled))
  {
    FirstErrorIsLowest(cells);
    KeptReturned(cells, ends);
    forall i: nat | Lowest(i, ends, RaisedBy) ensures Conclude(cells, Settled) == Err(ends[i].outcome.error) {
      assert cells[i].error.Some? && forall j | 0 <= j < i :: cells[j].error.None?;
      var first :| 0 <= first < |cells| && cells[first].error == FirstError(cells)
                   && forall j | 0 <= j < first :: cells[j].error.None?;
      assert first == i;
    }
  }

  function Locals<C>(cells: seq<Cell<C>>): (r: seq<Local<C>>)
    ensures |r| == |cells| && forall i | 0 <= i < |cells| :: r[i] == cells[i].local
  {
    seq(|cells|, i requires 0 <= i < |cells| => cells[i].local)
  }

  lemma EndsTell<C(!new)>(code: Code<C>, stops: seq<Local<C>>, jobs: seq<Job>, ends: seq<Cell<C>>)
    requires AllStop(stops) && |jobs| == |Pending(Rested(stops))|
    requires AllFinishAlone(code, stops, AnswerAll(Rested(stops), jobs), ends)
    ensures Tells(ends, Locals(ends))
  {
    var answered := AnswerAll(Rested(stops), jobs);
    forall i | 0 <= i < |ends|
      ensures ends[i].error == (if RaisedBy(ends[i].local) then Some(ends[i].local.outcome.error) else None)
      ensures ends[i].result == (if HasJob(ends[i].local) then ends[i].local.outcome.job else None)
    {
      assert FinishesAlone(code, stops[i], answered[i], ends[i]);
      if stops[i].Over? { assert answered[i] == AtRest(stops[i]); }
    }
  }

  lemma EndsGoOn<C(!new)>(code: Code<C>, stops: seq<Local<C>>, jobs: seq<Job>, ends: seq<Cell<C>>)
    requires AllStop(stops) && |jobs| == |Pending(Rested(stops))|
    requires AllFinishAlone(code, stops, AnswerAll(Rested(stops), jobs), ends)
    requires Enumerates(Items(stops, AtTerminal), stops, AtTerminal) && |jobs| == |Items(stops, AtTerminal)|
    ensures GoesOnWith(code, stops, Items(stops, AtTerminal), jobs, Locals(ends))
  {
    var answered, items := AnswerAll(Rested(stops), jobs), Items(stops, AtTerminal);
    PendingEnumerates(stops);
    forall i | 0 <= i < |stops| && stops[i].Over? ensures ends[i].local == stops[i] {
      assert FinishesAlone(code, stops[i], answered[i], ends[i]);
    }
    forall k | 0 <= k < |items|
      ensures ends[items[k]].local.Over?
      ensures Evaluates(code, Resumed(stops[items[k]], Returned(Some(jobs[k]))), ends[items[k]].local)
    {
      assert FinishesAlone(code, stops[items[k]], answered[items[k]], ends[items[k]]);
      assert answered[items[k]] == Answer(Rested(stops), jobs, items[k]);
    }
  }

  // -------------------------------------------------------------------------- the theorem

  lemma AbortTells<C>(stops: seq<Local<C>>, i: nat)
    requires AllStop(stops) && i < |stops|
    ensures MarkAll(Rested(stops))[i].error
         == if Aborts(stops[i]) then Some(AbortError(stops[i], i)) else None
  {
    assert MarkAll(Rested(stops))[i] == Mark(AtRest(stops[i]), i);
  }

  lemma FirstAbort<C>(stops: seq<Local<C>>)
    requires AllStop(stops)
    ensures FirstError(MarkAll(Rested(stops))).None? <==> forall i | 0 <= i < |stops| :: !Aborts(stops[i])
    ensures forall i: nat | Lowest(i, stops, Aborts) ::
              FirstError(MarkAll(Rested(stops))) == Some(AbortError(stops[i], i))
  {
    var marked := MarkAll(Rested(stops));
    FirstErrorIsLowest(marked);
    forall i: nat | i < |stops|
      ensures marked[i].error == if Aborts(stops[i]) then Some(AbortError(stops[i], i)) else None
    {
      AbortTells(stops, i);
    }
    forall i: nat | Lowest(i, stops, Aborts) ensures FirstError(marked) == Some(AbortError(stops[i], i)) {
      assert marked[i].error.Some? && forall j | 0 <= j < i :: marked[j].error.None?;
      var first :| 0 <= first < |marked| && marked[first].error == FirstError(marked)
                   && forall j | 0 <= j < first :: marked[j].error.None?;
      assert first == i;
    }
  }

  lemma CandidatesPending<C>(stops: seq<Local<C>>)
    requires AllStop(stops)
    ensures Candidates(stops, Items(stops, AtTerminal), Pending(Rested(stops)))
  {
    PendingEnumerates(stops);
    ItemsEnumerate(stops, AtTerminal);
  }

  /** Nobody is at a terminal: the jobs the middlewares made up. */
  lemma NothingPushed<C>(stops: seq<Local<C>>)
    requires AllStop(stops) && (forall i | 0 <= i < |stops| :: !Aborts(stops[i])) && Pending(Rested(stops)) == []
    ensures ResultOf(stops, Ok(Kept(Rested(stops))))
  {
    NoneReached(Rested(stops));
    forall i | 0 <= i < |stops|
      ensures stops[i].Over? && !RaisedBy(stops[i])
    {
      assert Rested(stops)[i] == AtRest(stops[i]);
    }
    KeptReturned(Rested(stops), stops);
  }

  lemma SequentialPush<C(!new)>(code: Code<C>, stops: seq<Local<C>>, sink: Sink, pushes: seq<seq<Request>>,
                                result: Result<seq<Job>, Error>)
    requires AllStop(stops) && SequentialFrom(code, stops, sink, pushes, result)
    requires forall i | 0 <= i < |stops| :: !Aborts(stops[i])
    ensures Candidates(stops, Items(stops, AtTerminal), Pending(Rested(stops)))
    ensures AnswerMeans(code, stops, Items(stops, AtTerminal), Pending(Rested(stops)), sink, pushes, result)
  {
    FirstAbort(stops);
    CandidatesPending(stops);
    var cells, items, batch := Rested(stops), Items(stops, AtTerminal), Pending(Rested(stops));
    if batch == [] {
      NothingPushed(stops);
    } else if sink(batch).Ok? && |sink(batch).value| == |batch| {
      var jobs := sink(batch).value;
      var ends: seq<Cell<C>> :| AllFinishAlone(code, stops, AnswerAll(cells, jobs), ends)
                                && result == Conclude(ends, Settled);
      EndsTell(code, stops, jobs, ends);
      EndsGoOn(code, stops, jobs, ends);
      ConcludeTells(ends, Locals(ends));
    }
  }

  lemma SequentialMeans<C(!new)>(code: Code<C>, stops: seq<Local<C>>, sink: Sink, pushes: seq<seq<Request>>,
                                 result: Result<seq<Job>, Error>)
    requires AllStop(stops) && SequentialFrom(code, stops, sink, pushes, result)
    ensures Means(code, stops, sink, pushes, result)
  {
    FirstAbort(stops);
    if forall i | 0 <= i < |stops| :: !Aborts(stops[i]) {
      SequentialPush(code, stops, sink, pushes, result);
      CandidatesPending(stops);
    }
  }

  /** Every schedule that finishes: where each chain comes to rest alone decides whether the
      batch aborts, and with whose error; else what is pushed; else, with the transport's
      answer, where each chain ends; and that decides what is raised or returned. */
  lemma EveryScheduleMeans<C(!new)>(code: Code<C>, requests: seq<Request>, sink: Sink, run: seq<Batch<C>>)
    returns (stops: seq<Local<C>>)
    requires IsRun(code, requests, sink, run) && run[|run| - 1].main.Done?
    ensures RunsAlone(code, requests, stops)
    ensures Means(code, stops, sink, run[|run| - 1].pushes, run[|run| - 1].main.result)
  {
    var last := run[|run| - 1];
    EveryScheduleIsSequential(code, requests, sink, run);
    stops :| RunsAlone(code, requests, stops) && SequentialFrom(code, stops, sink, last.pushes, last.main.result);
    AllStopped(code, requests, stops);
    SequentialMeans(code, stops, sink, last.pushes, last.main.result);
  }

  /** The step that finishes a batch whose push went through: what it returns or raises is
      decided by where the chains stand then. */
  lemma FinishMeans<C(!new)>(code: Code<C>, requests: seq<Request>, sink: Sink, b: Batch<C>, b': Batch<C>)
    requires Inv(code, requests, sink, b) && MainStep(sink, b, b')
    requires b.main.Joining? && b.main.end.Settled?
    ensures b'.main.Done? && b'.cells == b.cells && ResultOf(Locals(b.cells), b'.main.result)
  {
    var stops: seq<Local<C>>, answered: seq<Cell<C>> :| InJoin(code, requests, sink, b, stops, answered);
    AllStopped(code, requests, stops);
    LateTells(code, sink, stops, answered, b.pushes, b.cells);
    ConcludeTells(b.cells, Locals(b.cells));
  }

  lemma LateTells<C(!new)>(code: Code<C>, sink: Sink, stops: seq<Local<C>>, answered: seq<Cell<C>>,
                           pushes: seq<seq<Request>>, cells: seq<Cell<C>>)
    requires AllStop(stops) && AllLate(code, stops, answered, cells) && AllOver(cells)
    requires AnsweredBy(sink, stops, Settled, answered, pushes)
    ensures Tells(cells, Locals(cells))
  {
    forall i | 0 <= i < |cells|
      ensures cells[i].error == (if RaisedBy(cells[i].local) then Some(cells[i].local.outcome.error) else None)
      ensures cells[i].result == (if HasJob(cells[i].local) then cells[i].local.outcome.job else None)
    {
      assert Late(code, stops[i], answered[i], cells[i]);
      if stops[i].Over? { assert answered[i] == AtRest(stops[i]); }
    }
  }

  // ------------------------------------------------------------------ what is ever pushed

  /** A chain comes to its terminal only with a valid request, and only from a valid one. */
  lemma {:induction false} ParksValid<C>(code: Code<C>, request: Request, n: nat)
    ensures var l := Iterate(code, Fresh(request), n);
      && (l.Parked? ==> Validate(l.candidate).Ok?)
      && (n > 0 && Validate(request).Err? ==> l == Over(Raised(Validate(request).error)))
  {
    if n > 0 { ParksValid(code, request, n - 1); }
  }

  lemma StopsValid<C(!new)>(code: Code<C>, request: Request, stop: Local<C>)
    requires Evaluates(code, Fresh(request), stop)
    ensures stop.Parked? ==> Validate(stop.candidate).Ok?
    ensures Validate(request).Err? ==> stop == Over(Raised(Validate(request).error))
  {
    var n: nat :| Iterate(code, Fresh(request), n) == stop;
    ParksValid(code, request, n);
  }

  /** In every reachable state: whatever was pushed is valid, and so is every request of a
      batch that pushed anything. */
  lemma PushedAreValid<C(!new)>(code: Code<C>, requests: seq<Request>, sink: Sink, b: Batch<C>)
    requires Inv(code, requests, sink, b) && b.pushes != []
    ensures |b.pushes| == 1 && forall k | 0 <= k < |b.pushes[0]| :: Validate(b.pushes[0][k]).Ok?
    ensures forall i | 0 <= i < |requests| :: Validate(requests[i]).Ok?
  {
    var stops := PushedAtMostOnce(code, requests, sink, b);
    AllStopped(code, requests, stops);
    CandidatesPending(stops);
    var items := Items(stops, AtTerminal);
    forall k | 0 <= k < |b.pushes[0]| ensures Validate(b.pushes[0][k]).Ok? {
      StopsValid(code, requests[items[k]], stops[items[k]]);
    }
    forall i | 0 <= i < |requests| ensures Validate(requests[i]).Ok? {
      StopsValid(code, requests[i], stops[i]);
    }
  }
}
