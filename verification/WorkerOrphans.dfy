/** Why job tasks must take their first step before the drain cancels them
    (src/ojs/worker/runtime.py:219-247, src/ojs/worker/shutdown_coordinator.py:59-73). */
module WorkerOrphans {
  import opened Numbers
  import opened LeaseAdmission
  import opened ExecutionRegistry
  import opened WorkerProtocol

  // --------------------------------------------------- tasks started in no order at all

  /** The grace period is over, however many tasks have not started yet. */
  ghost predicate EarlyGrace(w: Worker, w': Worker) {
    w.coordinator.Draining? && w' == w.(coordinator := Cancelling(w.executions.jobs.Keys))
  }

  /** A cancelled task that has not started ends without running any of its code. */
  ghost predicate DiesUnstarted(w: Worker, w': Worker, token: Token) {
    && w.coordinator.Cancelling? && token in w.coordinator.tasks
    && token in w.tasks && w.tasks[token].Created? && w' == w.(tasks := w.tasks - {token})
  }

  /** The protocol without the assumption that tasks start in FIFO order. */
  ghost predicate UnorderedStep(w: Worker, w': Worker) {
    Step(w, w') || EarlyGrace(w, w') || exists token :: DiesUnstarted(w, w', token)
  }

  ghost predicate IsUnorderedRun(run: seq<Worker>, concurrency: nat) {
    && run != [] && run[0] == New(concurrency)
    && forall k: nat | k < |run| - 1 :: StepsAt(run, k)
  }

  ghost predicate StepsAt(run: seq<Worker>, k: nat)
    requires k < |run| - 1
  {
    UnorderedStep(run[k], run[k + 1])
  }

  /** An execution whose task was cancelled before its first step: its `finally` never runs. */
  predicate Orphan(w: Worker, token: Token) {
    && token in w.executions.jobs && token !in w.tasks
    && token !in Held(w.fetch) && token < w.pool.minted
    && !w.executions.emptySet && !w.coordinator.Idle?
  }

  lemma OrphanStaysOnReply(w: Worker, w': Worker, token: Token, jobs: seq<string>)
    requires Orphan(w, token) && FetchReply(w, w', jobs)
    ensures Orphan(w', token)
  {
    OrphanStaysAdmitted(w, token, jobs);
    ReleaseAllMinted(w.pool, Held(Admitted(w, jobs).fetch));
  }

  lemma OrphanStaysAdmitted(w: Worker, token: Token, jobs: seq<string>)
    requires Orphan(w, token) && w.fetch.Fetching?
    ensures Orphan(Admitted(w, jobs), token) && Admitted(w, jobs).pool == w.pool
  {
    AdmittedFrame(w, jobs);
    var held, used := w.fetch.held, Min(|jobs|, |w.fetch.held|);
    assert forall t | t in held[..used] :: t in held;
    assert forall t | t in held[used..] :: t in held;
    assert token in Admitted(w, jobs).executions.jobs.Keys && token !in Admitted(w, jobs).tasks.Keys;
  }

  lemma OrphanStaysOnTop(w: Worker, w': Worker, token: Token)
    requires Orphan(w, token) && FetchTop(w, w')
    ensures Orphan(w', token)
  {
  }

  lemma OrphanStays(w: Worker, w': Worker, token: Token)
    requires Orphan(w, token) && FetchStep(w, w')
    ensures Orphan(w', token)
  {
    ReleaseAllMinted(w.pool, Held(w.fetch));
    if FetchTop(w, w') {
      OrphanStaysOnTop(w, w', token);
    } else if jobs: seq<string> :| FetchReply(w, w', jobs) {
      OrphanStaysOnReply(w, w', token, jobs);
    }
  }

  lemma {:induction false} ReleaseAllMinted(p: Pool, tokens: seq<Token>)
    ensures ReleaseAll(p, tokens).minted == p.minted
    decreases |tokens|
  {
    if tokens != [] { ReleaseAllMinted(Release(p, tokens[0]), tokens[1..]); }
  }

  lemma OrphanStaysInProtocol(w: Worker, w': Worker, token: Token)
    requires Orphan(w, token) && Step(w, w')
    ensures Orphan(w', token)
  {
    if FetchStep(w, w') {
      OrphanStays(w, w', token);
    } else if HeartbeatStep(w, w') {
      HeartbeatFrame(w, w');
    } else if TaskStep(w, w') {
      TaskFrame(w, w');
      var t :| TaskStart(w, w', t) || TaskEnd(w, w', t);
      assert t != token;
      assert token in w'.executions.jobs;
    } else if CoordinatorStep(w, w') {
      CoordinatorFrame(w, w');
    }
  }

  lemma OrphanStaysUnordered(w: Worker, w': Worker, token: Token)
    requires Orphan(w, token) && UnorderedStep(w, w')
    ensures Orphan(w', token)
  {
    if Step(w, w') { OrphanStaysInProtocol(w, w', token); }
  }

  lemma RunStep(run: seq<Worker>, concurrency: nat, k: nat)
    requires IsUnorderedRun(run, concurrency) && k + 1 < |run|
    ensures UnorderedStep(run[k], run[k + 1])
  {
    assert StepsAt(run, k);
  }

  /** With one such execution the run is never left: the drain waits on the registry for
      ever. */
  lemma {:induction false} OrphanBlocksLeaving(run: seq<Worker>, concurrency: nat, token: Token, from: nat, to: nat)
    requires IsUnorderedRun(run, concurrency) && from <= to < |run| && Orphan(run[from], token)
    ensures Orphan(run[to], token) && !run[to].coordinator.Idle?
  {
    if from < to {
      OrphanBlocksLeaving(run, concurrency, token, from, to - 1);
      RunStep(run, concurrency, to - 1);
      OrphanStaysUnordered(run[to - 1], run[to], token);
    }
  }

  // ------------------------------------------------------------ and such a run exists

  /** The state of a one-slot worker whose one job was just admitted. */
  function OneJob(shutdown: bool, fetch: Fetch, heartbeat: Heartbeat, coordinator: Coordinator,
                  tasks: map<Token, Task>): Worker
  {
    Worker(Pool(1, 0, {0}, 1), Executions(map[0 := "job"], false), tasks, shutdown, RUNNING,
           fetch, coordinator != Watching, heartbeat, coordinator != Watching, coordinator)
  }

  lemma JobAdmitted(w: Worker)
    requires w == Worker(Pool(1, 0, {0}, 1), NONE, map[], false, RUNNING,
                         Fetching([0]), false, Checking, false, Watching)
    ensures FetchReply(w, OneJob(false, Top, Checking, Watching, map[0 := Created]), ["job"])
  {
    assert w.fetch.held[..1] == [0] && ["job"][..1] == ["job"] && w.fetch.held[1..] == [];
    var one := StartAll(w, [0], ["job"]);
    assert one.tasks == map[0 := Created] && one.executions == Executions(map[0 := "job"], false);
    assert Admitted(w, ["job"]) == one.(fetch := Fetching([]));
  }

  lemma LoopsStop(w3: Worker, w4: Worker, w5: Worker, w6: Worker, w7: Worker, tasks: map<Token, Task>)
    requires w3 == OneJob(false, Top, Checking, Watching, tasks) && w4 == OneJob(true, Top, Checking, Joining, tasks)
    requires w5 == OneJob(true, FetchEnded, Checking, Joining, tasks)
    requires w6 == OneJob(true, FetchEnded, HeartbeatEnded, Joining, tasks)
    requires w7 == OneJob(true, FetchEnded, HeartbeatEnded, Draining, tasks)
    ensures StopWatching(w3, w4) && FetchTop(w4, w5) && HeartbeatTop(w5, w6) && LoopsJoined(w6, w7)
  {
  }

  lemma TaskDies(w7: Worker, w8: Worker, w9: Worker, tasks: map<Token, Task>)
    requires tasks == map[0 := Created]
    requires w7 == OneJob(true, FetchEnded, HeartbeatEnded, Draining, tasks)
    requires w8 == OneJob(true, FetchEnded, HeartbeatEnded, Cancelling({0}), tasks)
    requires w9 == OneJob(true, FetchEnded, HeartbeatEnded, Cancelling({0}), map[])
    ensures EarlyGrace(w7, w8) && DiesUnstarted(w8, w9, 0) && Orphan(w9, 0)
  {
    assert w7.executions.jobs.Keys == {0} && tasks - {0} == map[];
  }

  lemma JobStarts(w0: Worker, w1: Worker, w2: Worker, w3: Worker)
    requires w0 == New(1)
    requires w1 == Worker(Empty(1, 0), NONE, map[], false, RUNNING, Top, false, Checking, false, Watching)
    requires w2 == w1.(pool := Pool(1, 0, {0}, 1), fetch := Fetching([0]))
    requires w3 == OneJob(false, Top, Checking, Watching, map[0 := Created])
    ensures UnorderedStep(w0, w1) && UnorderedStep(w1, w2) && UnorderedStep(w2, w3)
  {
    ReservedOne(w1, w2);
    JobAdmitted(w2);
    assert StartRun(w0, w1);
  }

  /** One job is admitted, the run is stopped at once, and its task is cancelled before it
      starts. */
  lemma OrphanArises() returns (run: seq<Worker>)
    ensures IsUnorderedRun(run, 1) && Orphan(run[|run| - 1], 0)
  {
    var tasks: map<Token, Task> := map[0 := Created];
    var w0 := New(1);
    var w1 := Worker(Empty(1, 0), NONE, map[], false, RUNNING, Top, false, Checking, false, Watching);
    var w2 := w1.(pool := Pool(1, 0, {0}, 1), fetch := Fetching([0]));
    var w3 := OneJob(false, Top, Checking, Watching, tasks);
    var w4 := OneJob(true, Top, Checking, Joining, tasks);
    var w5 := OneJob(true, FetchEnded, Checking, Joining, tasks);
    var w6 := OneJob(true, FetchEnded, HeartbeatEnded, Joining, tasks);
    var w7 := OneJob(true, FetchEnded, HeartbeatEnded, Draining, tasks);
    var w8 := OneJob(true, FetchEnded, HeartbeatEnded, Cancelling({0}), tasks);
    var w9 := OneJob(true, FetchEnded, HeartbeatEnded, Cancelling({0}), map[]);
    JobStarts(w0, w1, w2, w3);
    LoopsStop(w3, w4, w5, w6, w7, tasks);
    TaskDies(w7, w8, w9, tasks);
    LoopSteps(w3, w4, w5, w6, w7);
    TaskSteps(w7, w8, w9);
    run := [w0];
    run := LongerRun(run, w1);
    run := LongerRun(run, w2);
    run := LongerRun(run, w3);
    run := LongerRun(run, w4);
    run := LongerRun(run, w5);
    run := LongerRun(run, w6);
    run := LongerRun(run, w7);
    run := LongerRun(run, w8);
    run := LongerRun(run, w9);
  }

  lemma LongerRun(run: seq<Worker>, next: Worker) returns (longer: seq<Worker>)
    requires IsUnorderedRun(run, 1) && UnorderedStep(run[|run| - 1], next)
    ensures IsUnorderedRun(longer, 1) && longer[|longer| - 1] == next
  {
    longer := run + [next];
    forall k: nat | k < |longer| - 1 ensures StepsAt(longer, k) {
      if k < |run| - 1 {
        assert StepsAt(run, k) && longer[k] == run[k] && longer[k + 1] == run[k + 1];
      }
    }
  }

  lemma LoopSteps(w3: Worker, w4: Worker, w5: Worker, w6: Worker, w7: Worker)
    requires StopWatching(w3, w4) && FetchTop(w4, w5) && HeartbeatTop(w5, w6) && LoopsJoined(w6, w7)
    ensures UnorderedStep(w3, w4) && UnorderedStep(w4, w5) && UnorderedStep(w5, w6) && UnorderedStep(w6, w7)
  {
  }

  lemma TaskSteps(w7: Worker, w8: Worker, w9: Worker)
    requires EarlyGrace(w7, w8) && DiesUnstarted(w8, w9, 0)
    ensures UnorderedStep(w7, w8) && UnorderedStep(w8, w9)
  {
  }

  lemma ReservedOne(w: Worker, w': Worker)
    requires w == Worker(Empty(1, 0), NONE, map[], false, RUNNING, Top, false, Checking, false, Watching)
    requires w' == w.(pool := Pool(1, 0, {0}, 1), fetch := Fetching([0]))
    ensures FetchTop(w, w')
  {
    assert Reserve(w.pool, 1) == Take(Reserve(w.pool, 0));
    assert Tokens(0, 1) == [0];
  }
}
