/** What the fetch loop takes and starts, and that a quiet worker takes nothing
    (src/ojs/worker/runtime.py:182-217, src/ojs/worker/runtime.py:361-376). */
module WorkerFetching {
  import opened Numbers
  import opened Wrappers
  import opened LeaseAdmission
  import opened ExecutionRegistry
  import opened WorkerProtocol
  import opened WorkerRuns

  // ---------------------------------------------------------------------- one turn, one reply

  /** A turn of a worker that is neither shut down nor quiet takes every free slot, under new
      permits, and pauses when there is none. */
  lemma TurnTakesAll(w: Worker, w': Worker, concurrency: nat)
    requires Inv(w, concurrency) && FetchTop(w, w') && !w.shutdown && w.state != QUIET
    ensures w'.pool.semaphore == 0 && |Held(w'.fetch)| == w.pool.semaphore
    ensures if w.pool.semaphore > 0 then w'.fetch.Fetching? else w'.fetch.Pausing?
    ensures Elements(Held(w'.fetch)) !! w.pool.permits
    ensures w'.pool.permits == w.pool.permits + Elements(Held(w'.fetch))
    ensures w'.executions == w.executions && w'.tasks == w.tasks
  {
    Reserving(w.pool, w.executions.jobs.Keys);
    ReserveAllConserves(w.pool);
    ReserveConserves(w.pool, w.pool.semaphore);
    assert Elements([]) == {};
  }

  /** Every job runs under its own token, and nothing else changed among the executions. */
  ghost predicate Starts(w: Worker, w': Worker, tokens: seq<Token>, jobs: seq<string>) {
    && |tokens| == |jobs|
    && (forall i | 0 <= i < |tokens| :: StartsAt(w', tokens[i], jobs[i]))
    && (forall t | t !in tokens :: SameAt(w, w', t))
  }

  predicate StartsAt(w: Worker, token: Token, job: string) {
    && token in w.executions.jobs && w.executions.jobs[token] == job
    && token in w.tasks && w.tasks[token].Created?
  }

  predicate SameAt(w: Worker, w': Worker, token: Token) {
    && (token in w'.executions.jobs <==> token in w.executions.jobs) && (token in w'.tasks <==> token in w.tasks)
    && (token in w.executions.jobs ==> w'.executions.jobs[token] == w.executions.jobs[token])
    && (token in w.tasks ==> w'.tasks[token] == w.tasks[token])
  }

  lemma {:induction false} StartedInOrder(w: Worker, tokens: seq<Token>, jobs: seq<string>)
    requires |tokens| == |jobs| && Distinct(tokens)
    ensures Starts(w, StartAll(w, tokens, jobs), tokens, jobs)
    decreases |tokens|
  {
    if tokens != [] {
      var next := w.(executions := Registered(w.executions, tokens[0], jobs[0]),
                     tasks := w.tasks[tokens[0] := Created]);
      var s := StartAll(next, tokens[1..], jobs[1..]);
      StartedInOrder(next, tokens[1..], jobs[1..]);
      assert tokens[0] !in tokens[1..] && SameAt(next, s, tokens[0]);
      forall i | 0 <= i < |tokens| ensures StartsAt(s, tokens[i], jobs[i]) {
        if i > 0 { assert tokens[i] == tokens[1..][i - 1] && jobs[i] == jobs[1..][i - 1]; }
      }
      forall t | t !in tokens ensures SameAt(w, s, t) {
        assert t !in tokens[1..] && t != tokens[0] && SameAt(next, s, t);
      }
    }
  }

  /** A reply: the i-th job runs under the i-th permit, as far as there are both, and nothing
      else changes among the executions. Jobs without a permit are rejected one by one; permits
      without a job are given back; only an empty reply makes the loop pause. */
  lemma ReplyStartsInOrder(w: Worker, w': Worker, jobs: seq<string>, concurrency: nat)
    requires Inv(w, concurrency) && FetchReply(w, w', jobs)
    ensures var held, used := w.fetch.held, Min(|jobs|, |w.fetch.held|);
      && Starts(w, w', held[..used], jobs[..used])
      && w'.pool.permits == w.pool.permits - Elements(held[used..])
      && (if |jobs| > |held| then w'.fetch == Rejecting([], |jobs| - |held|)
          else if jobs == [] then w'.fetch == Pausing else w'.fetch == Top)
  {
    var held, used := w.fetch.held, Min(|jobs|, |w.fetch.held|);
    StartedInOrder(w, held[..used], jobs[..used]);
    SameExecutions(w, Admitted(w, jobs), w', held[..used], jobs[..used]);
    UnusedGivenBack(w, w', jobs);
  }

  lemma SameExecutions(w: Worker, a: Worker, w': Worker, tokens: seq<Token>, jobs: seq<string>)
    requires Starts(w, a, tokens, jobs) && w'.executions == a.executions && w'.tasks == a.tasks
    ensures Starts(w, w', tokens, jobs)
  {
    forall i | 0 <= i < |tokens| ensures StartsAt(w', tokens[i], jobs[i]) {
      assert StartsAt(a, tokens[i], jobs[i]);
    }
    forall t | t !in tokens ensures SameAt(w, w', t) {
      assert SameAt(w, a, t);
    }
  }

  lemma UnusedGivenBack(w: Worker, w': Worker, jobs: seq<string>)
    requires Conserved(w.pool) && FetchReply(w, w', jobs)
    requires Distinct(w.fetch.held) && Elements(w.fetch.held) <= w.pool.permits
    ensures var held, used := w.fetch.held, Min(|jobs|, |w.fetch.held|);
      w'.pool.permits == w.pool.permits - Elements(held[used..])
      && (if |jobs| > |held| then w'.fetch == Rejecting([], |jobs| - |held|)
          else if jobs == [] then w'.fetch == Pausing else w'.fetch == Top)
  {
    var held, used := w.fetch.held, Min(|jobs|, |w.fetch.held|);
    AdmittedFrame(w, jobs);
    assert Admitted(w, jobs).pool == w.pool && Admitted(w, jobs).fetch == Fetching(held[used..]);
    if |jobs| > |held| {
      NothingUnused(w.pool.permits, held);
    } else {
      UnusedReleased(w.pool, held, used);
    }
  }

  lemma NothingUnused(permits: set<Token>, held: seq<Token>)
    ensures held[|held|..] == [] && permits - Elements(held[|held|..]) == permits
  {
  }

  lemma UnusedReleased(pool: Pool, held: seq<Token>, used: nat)
    requires Conserved(pool) && Distinct(held) && Elements(held) <= pool.permits && used <= |held|
    ensures ReleaseAll(pool, held[used..]).permits == pool.permits - Elements(held[used..])
  {
    SplitHeld(held, used);
    ReleaseAllConserves(pool, held[used..]);
  }

  /** A request that failed starts nothing, gives everything back and is followed by a pause. */
  lemma FailureStartsNothing(w: Worker, w': Worker, concurrency: nat)
    requires Inv(w, concurrency) && FetchFail(w, w')
    ensures w'.fetch == Pausing && w'.executions == w.executions && w'.tasks == w.tasks
    ensures w'.pool.permits == w.pool.permits - Elements(w.fetch.held)
  {
    ReleaseAllConserves(w.pool, w.fetch.held);
  }

  ghost predicate RejectsAt(steps: seq<Worker>, k: nat)
    requires k + 1 < |steps|
  {
    FetchRejected(steps[k], steps[k + 1])
  }

  /** Each surplus lease is rejected, one by one, before the loop's next turn. */
  lemma {:induction false} SurplusRejected(steps: seq<Worker>, k: nat)
    requires k < |steps| && steps[0].fetch.Rejecting? && steps[0].fetch.surplus > 0
    requires forall m: nat | m < k :: RejectsAt(steps, m)
    ensures k <= steps[0].fetch.surplus
    ensures if k < steps[0].fetch.surplus
            then steps[k].fetch.Rejecting? && steps[k].fetch.surplus == steps[0].fetch.surplus - k
            else steps[k].fetch.Top?
  {
    if k > 0 {
      SurplusRejected(steps, k - 1);
      assert RejectsAt(steps, k - 1);
    }
  }

  // -------------------------------------------------------------------------------- quiet

  lemma {:induction false} ReleasingMintsNothing(p: Pool, tokens: seq<Token>)
    ensures ReleaseAll(p, tokens).minted == p.minted
    decreases |tokens|
  {
    if tokens != [] { ReleasingMintsNothing(Release(p, tokens[0]), tokens[1..]); }
  }

  /** The permits of a request in flight. */
  function InFlight(w: Worker): set<Token> {
    if w.fetch.Fetching? then Elements(w.fetch.held) else {}
  }

  lemma QuietReply(w: Worker, w': Worker, jobs: seq<string>)
    requires FetchReply(w, w', jobs)
    ensures w'.pool.minted == w.pool.minted && !w'.fetch.Fetching?
    ensures w'.executions.jobs.Keys <= w.executions.jobs.Keys + InFlight(w)
  {
    AdmittedFrame(w, jobs);
    ReleasingMintsNothing(w.pool, Admitted(w, jobs).fetch.held);
  }

  lemma QuietFetch(w: Worker, w': Worker)
    requires FetchStep(w, w') && w.state == QUIET
    ensures w'.pool.minted == w.pool.minted && (w'.fetch.Fetching? ==> w'.fetch == w.fetch)
    ensures w'.executions.jobs.Keys <= w.executions.jobs.Keys + InFlight(w)
  {
    if jobs: seq<string> :| FetchReply(w, w', jobs) {
      QuietReply(w, w', jobs);
    } else {
      ReleasingMintsNothing(w.pool, Held(w.fetch));
    }
  }

  /** No step that begins in state QUIET takes a permit or sends a request for jobs, and it
      registers only jobs of a request that was in flight. */
  lemma QuietStep(w: Worker, w': Worker)
    requires Step(w, w') && w.state == QUIET && !w.coordinator.Idle?
    ensures w'.pool.minted == w.pool.minted
    ensures w'.fetch.Fetching? ==> w'.fetch == w.fetch
    ensures w'.executions.jobs.Keys <= w.executions.jobs.Keys + InFlight(w)
  {
    if FetchStep(w, w') {
      QuietFetch(w, w');
    } else if HeartbeatStep(w, w') {
      HeartbeatFrame(w, w');
    } else if TaskStep(w, w') {
      TaskFrame(w, w');
    } else if CoordinatorStep(w, w') {
      CoordinatorFrame(w, w');
    }
  }

  ghost predicate Quiet(run: seq<Worker>, from: nat, to: nat)
    requires to < |run|
  {
    forall k | from <= k < to :: run[k].state == QUIET
  }

  /** As long as the state stays QUIET no permit is taken, no request for jobs is sent, and
      nothing is registered except by a request that was in flight when it began. */
  lemma {:induction false} QuietTakesNothing(run: seq<Worker>, concurrency: nat, from: nat, to: nat)
    requires IsRun(run, concurrency) && from <= to < |run| && Quiet(run, from, to)
    ensures run[to].pool.minted == run[from].pool.minted
    ensures run[to].fetch.Fetching? ==> run[to].fetch == run[from].fetch
    ensures run[to].executions.jobs.Keys <= run[from].executions.jobs.Keys + InFlight(run[from])
  {
    if from < to {
      QuietTakesNothing(run, concurrency, from, to - 1);
      QuietStepAt(run, concurrency, to);
    }
  }

  lemma QuietStepAt(run: seq<Worker>, concurrency: nat, k: nat)
    requires IsRun(run, concurrency) && 0 < k < |run| && run[k - 1].state == QUIET
    ensures run[k].pool.minted == run[k - 1].pool.minted
    ensures run[k].fetch.Fetching? ==> run[k].fetch == run[k - 1].fetch
    ensures run[k].executions.jobs.Keys <= run[k - 1].executions.jobs.Keys + InFlight(run[k - 1])
  {
    PhasedAt(run, k - 1, concurrency);
    assert StepsAt(run, k - 1);
    QuietStep(run[k - 1], run[k]);
  }

  // --------------------------------------------------------------------------- directives

  /** What can change the public state: the start and the end of a run, a stop request, and a
      directive of the server, which publishes itself, QUIET and RUNNING only before
      shutdown. */
  lemma StateMoves(w: Worker, w': Worker)
    requires Step(w, w') && w'.state != w.state
    ensures || (StartRun(w, w') && w'.state == RUNNING)
            || (Stop(w, w') && w'.state == TERMINATE)
            || (Leave(w, w') && w'.state == IDLE)
            || (HeartbeatReply(w, w', Some(w'.state))
                && (w'.state == TERMINATE || (!w.shutdown && (w'.state == QUIET || w'.state == RUNNING))))
  {
    if FetchStep(w, w') {
      FetchFrame(w, w');
    } else if HeartbeatStep(w, w') {
      if directive :| HeartbeatReply(w, w', directive) {
        ReplyAgrees(w, w', directive);
      } else {
        HeartbeatMoves(w, w');
      }
    } else if TaskStep(w, w') {
      TaskFrame(w, w');
    } else if CoordinatorStep(w, w') {
      CoordinatorFrame(w, w');
    }
  }

  /** A QUIET or RUNNING directive that arrives before shutdown leaves exactly that state; one
      that arrives later changes nothing that anyone else sees. */
  lemma DirectiveTaken(w: Worker, w': Worker, directive: State)
    requires HeartbeatReply(w, w', Some(directive)) && (directive == QUIET || directive == RUNNING)
    ensures w'.state == (if w.shutdown then w.state else directive) && w'.shutdown == w.shutdown
    ensures w'.pool == w.pool && w'.executions == w.executions && w'.tasks == w.tasks && w'.fetch == w.fetch
  {
  }

  /** The step leaves a quiet worker quiet: no RUNNING or TERMINATE directive, no stop request,
      and not the end of the run. */
  ghost predicate Undirected(run: seq<Worker>, k: nat)
    requires k + 1 < |run|
  {
    && !HeartbeatReply(run[k], run[k + 1], Some(RUNNING)) && !HeartbeatReply(run[k], run[k + 1], Some(TERMINATE))
    && !Stop(run[k], run[k + 1]) && !Leave(run[k], run[k + 1])
  }

  lemma {:induction false} QuietLasts(run: seq<Worker>, concurrency: nat, from: nat, to: nat)
    requires IsRun(run, concurrency) && from <= to < |run| && run[from].state == QUIET
    requires forall k: nat | from <= k < to :: Undirected(run, k)
    ensures run[to].state == QUIET
  {
    if from < to {
      QuietLasts(run, concurrency, from, to - 1);
      PhasedAt(run, to - 1, concurrency);
      assert StepsAt(run, to - 1) && Undirected(run, to - 1);
      if run[to].state != QUIET { StateMoves(run[to - 1], run[to]); }
    }
  }

  /** From a QUIET directive that arrives before shutdown until the next directive or stop
      request, the worker takes no permit and asks for no jobs, whatever else happens. */
  lemma QuietWorkerFetchesNothing(run: seq<Worker>, concurrency: nat, from: nat, to: nat)
    requires IsRun(run, concurrency) && from + 1 <= to < |run|
    requires HeartbeatReply(run[from], run[from + 1], Some(QUIET)) && !run[from].shutdown
    requires forall k: nat | from + 1 <= k < to :: Undirected(run, k)
    ensures run[to].state == QUIET && run[to].pool.minted == run[from].pool.minted
    ensures run[to].fetch.Fetching? ==> run[to].fetch == run[from].fetch
    ensures run[to].executions.jobs.Keys <= run[from].executions.jobs.Keys + InFlight(run[from])
  {
    DirectiveTaken(run[from], run[from + 1], QUIET);
    forall k | from + 1 <= k <= to ensures run[k].state == QUIET {
      QuietLasts(run, concurrency, from + 1, k);
    }
    QuietTakesNothing(run, concurrency, from + 1, to);
  }
}
