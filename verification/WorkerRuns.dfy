/** What holds in every run of the worker protocol, whatever the schedule. */
module WorkerRuns {
  import opened Wrappers
  import opened LeaseAdmission
  import opened ExecutionRegistry
  import opened WorkerProtocol

  ghost predicate IsRun(run: seq<Worker>, concurrency: nat) {
    && run != [] && run[0] == New(concurrency)
    && forall k: nat | k < |run| - 1 :: StepsAt(run, k)
  }

  ghost predicate StepsAt(run: seq<Worker>, k: nat)
    requires k < |run| - 1
  {
    Step(run[k], run[k + 1])
  }

  lemma {:induction false} RunInv(run: seq<Worker>, concurrency: nat, k: nat)
    requires IsRun(run, concurrency) && k < |run|
    ensures Inv(run[k], concurrency)
  {
    if k == 0 {
      InitInv(concurrency);
    } else {
      RunInv(run, concurrency, k - 1);
      assert StepsAt(run, k - 1);
      StepInv(run[k - 1], run[k], concurrency);
    }
  }

  lemma PhasedAt(run: seq<Worker>, k: nat, concurrency: nat)
    requires IsRun(run, concurrency) && k < |run|
    ensures Phased(run[k])
  {
    RunInv(run, concurrency, k);
  }

  // -------------------------------------------------------------------- conservation

  lemma {:induction false} DistinctCount(tokens: seq<Token>)
    requires Distinct(tokens)
    ensures |Elements(tokens)| == |tokens|
  {
    if tokens != [] {
      var rest := tokens[1..];
      DistinctCount(rest);
      assert tokens == [tokens[0]] + rest;
      assert Elements(tokens) == {tokens[0]} + Elements(rest);
      assert tokens[0] !in rest;
    }
  }

  /** In every reachable state the free slots, the permits of the fetch iteration and
      those of the running executions add up to the concurrency: never more jobs run
      than that, and the bounded semaphore is never released beyond its bound. */
  lemma CapacityConserved(run: seq<Worker>, concurrency: nat)
    requires IsRun(run, concurrency)
    ensures var w := run[|run| - 1];
      && 0 <= w.pool.semaphore <= concurrency
      && w.pool.semaphore + |Held(w.fetch)| + |w.executions.jobs.Keys| == concurrency
      && |w.tasks.Keys| <= concurrency
  {
    var w := run[|run| - 1];
    RunInv(run, concurrency, |run| - 1);
    DistinctCount(Held(w.fetch));
    assert |w.pool.permits| == |Elements(Held(w.fetch))| + |w.executions.jobs.Keys|;
  }

  /** In every reachable state `_empty` is set exactly when nothing is registered, each
      registered execution has its task and no task is left without one, and the state
      TERMINATE is only published together with the shutdown event. */
  lemma RegistryTells(run: seq<Worker>, concurrency: nat)
    requires IsRun(run, concurrency)
    ensures var w := run[|run| - 1];
      && (w.executions.emptySet <==> w.executions.jobs == map[])
      && w.tasks.Keys == w.executions.jobs.Keys
      && (w.state == TERMINATE ==> w.shutdown)
      && (w.coordinator.Idle? ==> w.state == IDLE && w.tasks == map[])
  {
    RunInv(run, concurrency, |run| - 1);
  }

  /** The converse fails: when the coordinator itself ends a run (a cancelled `start()`, or
      a loop that raised), shutdown is set while the state still reads RUNNING. */
  lemma ShutdownWithoutTerminate(concurrency: nat) returns (run: seq<Worker>)
    ensures IsRun(run, concurrency)
    ensures run[|run| - 1].shutdown && run[|run| - 1].state == RUNNING
  {
    var idle := New(concurrency);
    var started := Worker(Empty(concurrency, 0), NONE, map[], false, RUNNING, Top, false, Checking, false, Watching);
    var ended := started.(shutdown := true, coordinator := Joining, fetchCancelled := true, heartbeatCancelled := true);
    assert StartRun(idle, started) && StopWatching(started, ended);
    run := [idle, started, ended];
  }

  /** Reserving never waits on the semaphore: the fetch loop can always take its turn. */
  lemma ReserveNeverBlocks(w: Worker, concurrency: nat) returns (w': Worker)
    requires Inv(w, concurrency) && w.fetch.Top?
    ensures FetchTop(w, w')
  {
    Reserving(w.pool, w.executions.jobs.Keys);
    var n := Available(w.pool);
    w' := if w.shutdown then w.(fetch := FetchEnded)
          else if w.state == QUIET then w.(fetch := Pausing)
          else w.(pool := Reserve(w.pool, n), fetch := if n == 0 then Pausing else Fetching(Tokens(w.pool.minted, n)));
  }

  /** Whatever the backend returns, surplus leases included, it can be taken in: no
      token is registered twice. */
  lemma AnyReplyIsTakenIn(w: Worker, jobs: seq<string>, concurrency: nat) returns (w': Worker)
    requires Inv(w, concurrency) && w.fetch.Fetching?
    ensures FetchReply(w, w', jobs)
  {
    var held := w.fetch.held;
    forall i | 0 <= i < |held| ensures held[i] !in w.executions.jobs {
      assert held[i] in Elements(held);
    }
    var admitted := Admitted(w, jobs);
    w' := if |jobs| > |held| then admitted.(fetch := Rejecting(admitted.fetch.held, |jobs| - |held|))
          else GiveBack(admitted, if jobs == [] then Pausing else Top);
  }

  /** A finished task's permit is still out, so releasing it is the one release it gets. */
  lemma CompletionReleasesOnce(w: Worker, w': Worker, token: Token, concurrency: nat)
    requires Inv(w, concurrency) && TaskEnd(w, w', token)
    ensures token in w.pool.permits && token !in w'.pool.permits
    ensures w'.pool.semaphore == w.pool.semaphore + 1 <= concurrency
    ensures |w'.executions.jobs.Keys| == |w.executions.jobs.Keys| - 1
  {
    assert w'.executions.jobs.Keys == w.executions.jobs.Keys - {token};
    assert |w.pool.permits - {token}| == |w.pool.permits| - 1;
  }

  // ---------------------------------------------------------------------- public state

  lemma StateStepAfterShutdown(w: Worker, w': Worker)
    requires Step(w, w') && w.shutdown && !w.coordinator.Idle? && !w'.coordinator.Idle?
    ensures w'.shutdown && (w'.state == w.state || w'.state == TERMINATE)
  {
    if FetchStep(w, w') {
      FetchFrame(w, w');
    } else if HeartbeatStep(w, w') {
      HeartbeatFrame(w, w');
    } else if TaskStep(w, w') {
      TaskFrame(w, w');
    } else if CoordinatorStep(w, w') {
      CoordinatorFrame(w, w');
    }
  }

  // ------------------------------------------------ when shutdown and TERMINATE agree

  predicate Agrees(w: Worker) {
    w.shutdown <==> w.state == TERMINATE
  }

  /** `stop()`, a signal, or the server's terminate directive. */
  ghost predicate Terminates(w: Worker, w': Worker) {
    Stop(w, w') || HeartbeatReply(w, w', Some(TERMINATE))
  }

  lemma HeartbeatAgrees(w: Worker, w': Worker)
    requires HeartbeatStep(w, w')
    ensures w'.state != w.state || w'.shutdown != w.shutdown ==>
              || HeartbeatReply(w, w', Some(TERMINATE))
              || (!w.shutdown && !w'.shutdown && w.heartbeat.Sending? && (w'.state == RUNNING || w'.state == QUIET))
  {
    if directive :| HeartbeatReply(w, w', directive) {
      ReplyAgrees(w, w', directive);
    } else {
      HeartbeatMoves(w, w');
    }
  }

  lemma ReplyAgrees(w: Worker, w': Worker, directive: Option<State>)
    requires HeartbeatReply(w, w', directive)
    ensures w'.state != w.state || w'.shutdown != w.shutdown ==>
              || directive == Some(TERMINATE)
              || (!w.shutdown && !w'.shutdown && (w'.state == RUNNING || w'.state == QUIET))
  {
  }

  /** While the coordinator watches the loops, nothing sets one without the other. */
  lemma WatchingStep(w: Worker, w': Worker)
    requires Step(w, w') && w.coordinator.Watching? && w'.coordinator.Watching? && Agrees(w)
    ensures Agrees(w')
  {
    if FetchStep(w, w') {
      FetchFrame(w, w');
    } else if HeartbeatStep(w, w') {
      HeartbeatAgrees(w, w');
    } else if TaskStep(w, w') {
      TaskFrame(w, w');
    }
  }

  lemma OnlyStartWatches(w: Worker, w': Worker)
    requires Step(w, w') && !w.coordinator.Watching? && w'.coordinator.Watching?
    ensures StartRun(w, w')
  {
    if FetchStep(w, w') {
      FetchFrame(w, w');
    } else if HeartbeatStep(w, w') {
      HeartbeatFrame(w, w');
    } else if TaskStep(w, w') {
      TaskFrame(w, w');
    }
  }

  /** As long as the coordinator watches the loops, shutdown is set exactly when the state
      is TERMINATE, in every run. */
  lemma {:induction false} WatchingAgrees(run: seq<Worker>, concurrency: nat, k: nat)
    requires IsRun(run, concurrency) && k < |run| && run[k].coordinator.Watching?
    ensures Agrees(run[k])
  {
    if k > 0 {
      assert StepsAt(run, k - 1);
      if run[k - 1].coordinator.Watching? {
        WatchingAgrees(run, concurrency, k - 1);
        WatchingStep(run[k - 1], run[k]);
      } else {
        OnlyStartWatches(run[k - 1], run[k]);
      }
    }
  }

  lemma TerminatedBy(w: Worker, w': Worker)
    requires Step(w, w') && w.shutdown && !w.coordinator.Idle? && !w'.coordinator.Idle?
    ensures w'.state == TERMINATE <==> w.state == TERMINATE || Terminates(w, w')
  {
    StateStepAfterShutdown(w, w');
    if FetchStep(w, w') {
      FetchFrame(w, w');
    } else if HeartbeatStep(w, w') {
      HeartbeatAgrees(w, w');
    } else if TaskStep(w, w') {
      TaskFrame(w, w');
    } else if CoordinatorStep(w, w') {
      CoordinatorFrame(w, w');
    }
  }

  ghost predicate TerminatesAt(run: seq<Worker>, k: nat) {
    k + 1 < |run| && Terminates(run[k], run[k + 1])
  }

  /** Once the coordinator ended the watch at step `from`, the two agree exactly when they
      did before, or a stop or a terminate directive has come since. */
  lemma {:induction false} AgreesExactly(run: seq<Worker>, concurrency: nat, from: nat, to: nat)
    requires IsRun(run, concurrency) && from < to < |run| && StopWatching(run[from], run[from + 1])
    requires forall k | from <= k <= to :: !run[k].coordinator.Idle?
    ensures run[to].shutdown
    ensures Agrees(run[to]) <==>
              run[from].state == TERMINATE || exists k: nat :: from < k < to && TerminatesAt(run, k)
  {
    if to > from + 1 {
      AgreesExactly(run, concurrency, from, to - 1);
      assert StepsAt(run, to - 1);
      StateStepAfterShutdown(run[to - 1], run[to]);
      TerminatedBy(run[to - 1], run[to]);
      assert TerminatesAt(run, to - 1) <==> Terminates(run[to - 1], run[to]);
    }
  }

  /** Once shutdown is set, and until the run is left, no schedule publishes RUNNING or
      QUIET again: the state stays what it was or becomes TERMINATE. A heartbeat that
      was in flight changes nothing. */
  lemma {:induction false} ShutdownIsOneWay(run: seq<Worker>, from: nat, to: nat, concurrency: nat)
    requires IsRun(run, concurrency) && from <= to < |run|
    requires run[from].shutdown
    requires forall k | from <= k <= to :: !run[k].coordinator.Idle?
    ensures run[to].shutdown && (run[to].state == run[from].state || run[to].state == TERMINATE)
  {
    if from < to {
      ShutdownIsOneWay(run, from, to - 1, concurrency);
      assert StepsAt(run, to - 1);
      StateStepAfterShutdown(run[to - 1], run[to]);
    }
  }

  // --------------------------------------------------------------------------- drain

  predicate InDrain(w: Worker) {
    w.coordinator.Draining? || w.coordinator.Cancelling? || w.coordinator.Emptying?
  }

  lemma DrainKeepsShrinking(w: Worker, w': Worker)
    requires Phased(w) && Step(w, w') && InDrain(w)
    ensures w'.executions.jobs.Keys <= w.executions.jobs.Keys
    ensures w'.tasks.Keys <= w.tasks.Keys
    ensures InDrain(w') || w'.coordinator.Idle?
  {
    if FetchStep(w, w') {
      FetchFrame(w, w');
    } else if HeartbeatStep(w, w') {
      HeartbeatFrame(w, w');
    } else if TaskStep(w, w') {
      TaskFrame(w, w');
    } else if CoordinatorStep(w, w') {
      CoordinatorFrame(w, w');
    }
  }

  /** Once both loops are gathered the registry only shrinks, to the end of the run. */
  lemma {:induction false} RegistryOnlyShrinks(run: seq<Worker>, from: nat, to: nat, concurrency: nat)
    requires IsRun(run, concurrency) && from <= to < |run|
    requires InDrain(run[from]) && forall k | from <= k < to :: !run[k].coordinator.Idle?
    ensures run[to].executions.jobs.Keys <= run[from].executions.jobs.Keys
    ensures run[to].tasks.Keys <= run[from].tasks.Keys
    ensures InDrain(run[to]) || run[to].coordinator.Idle?
  {
    if from < to {
      RegistryOnlyShrinks(run, from, to - 1, concurrency);
      assert StepsAt(run, to - 1);
      PhasedAt(run, to - 1, concurrency);
      DrainKeepsShrinking(run[to - 1], run[to]);
    }
  }

  lemma OnlyLeaveEndsTheRun(w: Worker, w': Worker)
    requires Step(w, w') && !w.coordinator.Idle? && w'.coordinator.Idle?
    ensures Leave(w, w')
  {
    if FetchStep(w, w') {
      FetchFrame(w, w');
    } else if HeartbeatStep(w, w') {
      HeartbeatFrame(w, w');
    } else if TaskStep(w, w') {
      TaskFrame(w, w');
    } else if CoordinatorStep(w, w') {
      CoordinatorFrame(w, w');
    }
  }

  /** `start()` leaves only with nothing running and all capacity returned. */
  lemma LeavesClean(w: Worker, w': Worker, concurrency: nat)
    requires Inv(w, concurrency) && Step(w, w') && !w.coordinator.Idle? && w'.coordinator.Idle?
    ensures w'.tasks == map[] && w'.executions == NONE
    ensures w'.pool.permits == {} && w'.pool.semaphore == concurrency
    ensures w'.state == IDLE && LoopsEnded(w')
  {
    OnlyLeaveEndsTheRun(w, w');
    StepInv(w, w', concurrency);
    assert Elements([]) == {};
    assert w'.tasks.Keys == {};
  }
}
