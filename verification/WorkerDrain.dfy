/** Shutdown comes to an end: once it is requested, every schedule leaves the run. */
module WorkerDrain {
  import opened LeaseAdmission
  import opened ExecutionRegistry
  import opened WorkerProtocol
  import opened WorkerRuns

  // Each component has a rank that its own steps bring down once shutdown is set.

  function CoordinatorRank(c: Coordinator): nat {
    match c
    case Watching => 5
    case Joining => 4
    case Draining => 3
    case Cancelling(_) => 2
    case Emptying => 1
    case Idle => 0
  }

  function FetchRank(f: Fetch): nat {
    match f
    case Fetching(_) => 4
    case Rejecting(_, _) => 3
    case Pausing => 2
    case Top => 1
    case FetchEnded => 0
  }

  function Surplus(f: Fetch): nat {
    if f.Rejecting? then f.surplus else 0
  }

  function HeartbeatRank(h: Heartbeat): nat {
    match h
    case Sending => 3
    case Waiting => 2
    case Checking => 1
    case HeartbeatEnded => 0
  }

  function Unstarted(tasks: map<Token, Task>): set<Token> {
    set t | t in tasks && tasks[t].Created?
  }

  function StateRank(s: State): nat {
    if s == TERMINATE then 0 else 1
  }

  /** The lexicographic order in which shutdown makes progress. */
  predicate Descends(w: Worker, w': Worker) {
    || CoordinatorRank(w'.coordinator) < CoordinatorRank(w.coordinator)
    || (&& CoordinatorRank(w'.coordinator) == CoordinatorRank(w.coordinator)
        && (|| LoopsDescend(w, w')
            || (w'.fetch == w.fetch && w'.heartbeat == w.heartbeat && TasksDescend(w, w'))))
  }

  predicate LoopsDescend(w: Worker, w': Worker) {
    || FetchRank(w'.fetch) < FetchRank(w.fetch)
    || (FetchRank(w'.fetch) == FetchRank(w.fetch) && Surplus(w'.fetch) < Surplus(w.fetch))
    || (w'.fetch == w.fetch && HeartbeatRank(w'.heartbeat) < HeartbeatRank(w.heartbeat))
  }

  predicate TasksDescend(w: Worker, w': Worker) {
    || |w'.tasks.Keys| < |w.tasks.Keys|
    || (w'.tasks.Keys == w.tasks.Keys && |Unstarted(w'.tasks)| < |Unstarted(w.tasks)|)
    || (w'.tasks == w.tasks && StateRank(w'.state) < StateRank(w.state))
  }

  lemma FetchDescends(w: Worker, w': Worker)
    requires w.shutdown && FetchStep(w, w') && w' != w
    ensures LoopsDescend(w, w')
  {
    if jobs: seq<string> :| FetchReply(w, w', jobs) {
    } else {
    }
  }

  lemma HeartbeatDescends(w: Worker, w': Worker)
    requires w.shutdown && HeartbeatStep(w, w')
    ensures LoopsDescend(w, w')
  {
  }

  lemma StartDescends(tasks: map<Token, Task>, token: Token)
    requires token in tasks && tasks[token].Created?
    ensures tasks[token := Started].Keys == tasks.Keys
    ensures |Unstarted(tasks[token := Started])| < |Unstarted(tasks)|
  {
    assert Unstarted(tasks[token := Started]) == Unstarted(tasks) - {token};
  }

  lemma EndDescends(tasks: map<Token, Task>, token: Token)
    requires token in tasks
    ensures |(tasks - {token}).Keys| < |tasks.Keys|
  {
    assert (tasks - {token}).Keys == tasks.Keys - {token};
  }

  lemma TaskDescends(w: Worker, w': Worker)
    requires TaskStep(w, w')
    ensures TasksDescend(w, w')
  {
    var token :| TaskStart(w, w', token) || TaskEnd(w, w', token);
    if TaskStart(w, w', token) {
      StartDescends(w.tasks, token);
    } else {
      EndDescends(w.tasks, token);
    }
  }

  lemma CoordinatorDescends(w: Worker, w': Worker)
    requires CoordinatorStep(w, w')
    ensures CoordinatorRank(w'.coordinator) < CoordinatorRank(w.coordinator)
  {
  }

  /** After shutdown every step that changes anything brings the end closer. */
  lemma ShutdownDescends(w: Worker, w': Worker)
    requires w.shutdown && !w.coordinator.Idle? && Step(w, w') && w' != w
    ensures Descends(w, w')
  {
    if FetchStep(w, w') {
      FetchFrame(w, w');
      FetchDescends(w, w');
    } else if HeartbeatStep(w, w') {
      HeartbeatFrame(w, w');
      HeartbeatDescends(w, w');
    } else if TaskStep(w, w') {
      TaskFrame(w, w');
      TaskDescends(w, w');
    } else if CoordinatorStep(w, w') {
      CoordinatorDescends(w, w');
    }
  }

  /** An endless schedule in which every step changes something. */
  ghost predicate Endless(run: nat -> Worker, concurrency: nat) {
    && run(0) == New(concurrency)
    && forall k: nat :: StepsAt(run, k)
  }

  ghost predicate StepsAt(run: nat -> Worker, k: nat) {
    Step(run(k), run(k + 1)) && run(k) != run(k + 1)
  }

  lemma EndlessStep(run: nat -> Worker, concurrency: nat, k: nat)
    requires Endless(run, concurrency)
    ensures Step(run(k), run(k + 1)) && run(k) != run(k + 1)
  {
    assert StepsAt(run, k);
  }

  lemma {:induction false} EndlessInv(run: nat -> Worker, concurrency: nat, k: nat)
    requires Endless(run, concurrency)
    ensures Inv(run(k), concurrency)
  {
    if k == 0 {
      InitInv(concurrency);
    } else {
      EndlessInv(run, concurrency, k - 1);
      EndlessStep(run, concurrency, k - 1);
      StepInv(run(k - 1), run(k - 1 + 1), concurrency);
    }
  }

  lemma NextDescends(run: nat -> Worker, concurrency: nat, k: nat)
    requires Endless(run, concurrency) && run(k).shutdown && !run(k).coordinator.Idle?
    requires !run(k + 1).coordinator.Idle?
    ensures run(k + 1).shutdown && Descends(run(k), run(k + 1))
  {
    EndlessStep(run, concurrency, k);
    StateStepAfterShutdown(run(k), run(k + 1));
    ShutdownDescends(run(k), run(k + 1));
  }

  lemma {:induction false} LeavesFrom(run: nat -> Worker, concurrency: nat, k: nat) returns (m: nat)
    requires Endless(run, concurrency) && run(k).shutdown && !run(k).coordinator.Idle?
    ensures k <= m && !run(m).coordinator.Idle? && run(m + 1).coordinator.Idle?
    decreases CoordinatorRank(run(k).coordinator), FetchRank(run(k).fetch), Surplus(run(k).fetch),
              HeartbeatRank(run(k).heartbeat), |run(k).tasks.Keys|, |Unstarted(run(k).tasks)|, StateRank(run(k).state)
  {
    if run(k + 1).coordinator.Idle? {
      m := k;
    } else {
      NextDescends(run, concurrency, k);
      m := LeavesFrom(run, concurrency, k + 1);
    }
  }

  /** Whatever the schedule, a run that was asked to shut down is left, with nothing
      running and all capacity returned. */
  lemma ShutdownLeaves(run: nat -> Worker, concurrency: nat, k: nat) returns (m: nat)
    requires Endless(run, concurrency) && run(k).shutdown && !run(k).coordinator.Idle?
    ensures k < m && run(m).coordinator.Idle? && run(m).state == IDLE
    ensures run(m).tasks == map[] && run(m).executions == NONE
    ensures run(m).pool.permits == {} && run(m).pool.semaphore == concurrency
  {
    var j := LeavesFrom(run, concurrency, k);
    m := j + 1;
    EndlessStep(run, concurrency, j);
    EndlessInv(run, concurrency, j);
    LeavesClean(run(j), run(m), concurrency);
  }

  // ------------------------------------------------------------------- never stuck

  lemma FetchCanMove(w: Worker) returns (w': Worker)
    requires w.shutdown && !w.fetch.FetchEnded?
    ensures FetchStep(w, w') && w' != w
  {
    match w.fetch
    case Top => w' := w.(fetch := FetchEnded); assert FetchTop(w, w');
    case Pausing => w' := w.(fetch := Top); assert FetchWake(w, w');
    case Fetching(_) => w' := GiveBack(w, Pausing); assert FetchFail(w, w');
    case Rejecting(_, _) => w' := GiveBack(w, Top); assert FetchRejectFail(w, w');
  }

  lemma HeartbeatCanMove(w: Worker) returns (w': Worker)
    requires w.shutdown && !w.heartbeat.HeartbeatEnded?
    ensures HeartbeatStep(w, w') && w' != w
  {
    match w.heartbeat
    case Checking => w' := w.(heartbeat := HeartbeatEnded); assert HeartbeatTop(w, w');
    case Sending => w' := w.(heartbeat := Waiting); assert HeartbeatFail(w, w');
    case Waiting => w' := w.(heartbeat := Checking); assert HeartbeatWake(w, w');
  }

  lemma TaskCanMove(w: Worker, token: Token) returns (w': Worker)
    requires token in w.tasks
    ensures TaskStep(w, w') && w' != w
  {
    if w.tasks[token].Created? {
      w' := w.(tasks := w.tasks[token := Started]);
      assert TaskStart(w, w', token);
      assert w'.tasks[token] != w.tasks[token];
    } else {
      w' := w.(tasks := w.tasks - {token}, executions := Completed(w.executions, token),
               pool := if token in w.executions.jobs then Release(w.pool, token) else w.pool);
      assert TaskEnd(w, w', token);
      assert token !in w'.tasks;
    }
  }

  lemma DrainCanMove(w: Worker) returns (w': Worker)
    requires InDrain(w) && Phased(w) && EventTells(w.executions)
    requires w.tasks.Keys == w.executions.jobs.Keys
    ensures (TaskStep(w, w') || CoordinatorStep(w, w')) && w' != w
  {
    if token :| token in w.tasks && (w.tasks[token].Created? || w.coordinator.Cancelling?) {
      w' := TaskCanMove(w, token);
    } else if w.coordinator.Cancelling? {
      w' := w.(coordinator := Emptying);
      assert TasksJoined(w, w');
    } else if w.executions.emptySet {
      w' := w.(coordinator := Idle, state := IDLE);
      assert Leave(w, w');
    } else {
      assert w.coordinator.Emptying? ==> w.tasks.Keys == {};
      w' := w.(coordinator := Cancelling(w.executions.jobs.Keys));
      assert GraceOver(w, w');
    }
  }

  /** Until the run is left somebody can move: a loop, a job task or the coordinator.
      The only waiting is for a request to be answered or a task to finish. */
  lemma ShutdownNeverStuck(w: Worker, concurrency: nat) returns (w': Worker)
    requires Inv(w, concurrency) && w.shutdown && !w.coordinator.Idle?
    ensures FetchStep(w, w') || HeartbeatStep(w, w') || TaskStep(w, w') || CoordinatorStep(w, w')
    ensures w' != w
  {
    if w.coordinator.Watching? {
      w' := w.(shutdown := true, coordinator := Joining,
               fetchCancelled := !w.fetch.FetchEnded?, heartbeatCancelled := !w.heartbeat.HeartbeatEnded?);
      assert StopWatching(w, w');
    } else if InDrain(w) {
      w' := DrainCanMove(w);
    } else if !w.fetch.FetchEnded? {
      w' := FetchCanMove(w);
    } else if !w.heartbeat.HeartbeatEnded? {
      w' := HeartbeatCanMove(w);
    } else {
      w' := w.(coordinator := Draining);
      assert LoopsJoined(w, w');
    }
  }
}
