/** One worker's run protocol: a fetch loop, a heartbeat loop, job tasks, a shutdown
    coordinator and outside stop requests over one permit pool, one registry, one
    shutdown event and one public state (src/ojs/worker/runtime.py and the modules it
    uses). Everything between two awaits is one step; any component may move next. */
module WorkerProtocol {
  import opened Numbers
  import opened Wrappers
  import opened LeaseAdmission
  import opened ExecutionRegistry

  datatype State = IDLE | RUNNING | QUIET | TERMINATE

  datatype Fetch =
    | Top
    | Pausing
    | Fetching(held: seq<Token>)
    | Rejecting(unused: seq<Token>, surplus: nat)
    | FetchEnded

  datatype Heartbeat = Checking | Sending | Waiting | HeartbeatEnded

  datatype Coordinator =
    | Idle
    | Watching
    | Joining
    | Draining
    | Cancelling(tasks: set<Token>)
    | Emptying

  datatype Task = Created | Started

  datatype Worker = Worker(
    pool: Pool,
    executions: Executions,
    tasks: map<Token, Task>,
    shutdown: bool,
    state: State,
    fetch: Fetch,
    fetchCancelled: bool,
    heartbeat: Heartbeat,
    heartbeatCancelled: bool,
    coordinator: Coordinator)

  function New(concurrency: nat): Worker {
    Worker(Empty(concurrency, 0), NONE, map[], true, IDLE, FetchEnded, false, HeartbeatEnded, false, Idle)
  }

  // -------------------------------------------------------------- start and stop

  /** `start()` makes a fresh run state; old tokens are not minted again. */
  ghost predicate StartRun(w: Worker, w': Worker) {
    && w.coordinator.Idle?
    && w' == Worker(Empty(w.pool.capacity, w.pool.minted), NONE, map[], false, RUNNING,
                    Top, false, Checking, false, Watching)
  }

  function Terminated(w: Worker): Worker {
    w.(state := TERMINATE, shutdown := true)
  }

  /** `stop()` or a signal, at any time during a run. */
  ghost predicate Stop(w: Worker, w': Worker) {
    !w.coordinator.Idle? && w' == Terminated(w)
  }

  // ------------------------------------------------------------------- fetch loop

  function Held(fetch: Fetch): seq<Token> {
    match fetch
    case Fetching(held) => held
    case Rejecting(unused, _) => unused
    case _ => []
  }

  /** Leaving the `try` of one iteration by any way gives back the unused permits. */
  function GiveBack(w: Worker, next: Fetch): Worker {
    w.(pool := ReleaseAll(w.pool, Held(w.fetch)), fetch := next)
  }

  ghost predicate FetchTop(w: Worker, w': Worker) {
    && w.fetch.Top?
    && if w.shutdown then w' == w.(fetch := FetchEnded)
       else if w.state == QUIET then w' == w.(fetch := Pausing)
       else
         var n := Available(w.pool);
         && 0 <= n <= w.pool.semaphore
         && w' == w.(pool := Reserve(w.pool, n),
                     fetch := if n == 0 then Pausing else Fetching(Tokens(w.pool.minted, n)))
  }

  ghost predicate FetchWake(w: Worker, w': Worker) {
    w.fetch.Pausing? && w' == w.(fetch := Top)
  }

  /** `_start_execution` for each admitted job, in order. */
  function StartAll(w: Worker, tokens: seq<Token>, jobs: seq<string>): Worker
    requires |tokens| == |jobs|
    decreases |tokens|
  {
    if tokens == [] then w
    else StartAll(w.(executions := Registered(w.executions, tokens[0], jobs[0]),
                     tasks := w.tasks[tokens[0] := Created]), tokens[1..], jobs[1..])
  }

  /** The admitted jobs are running; the iteration holds the permits left over. */
  function Admitted(w: Worker, jobs: seq<string>): Worker
    requires w.fetch.Fetching?
  {
    var used := Min(|jobs|, |w.fetch.held|);
    StartAll(w, w.fetch.held[..used], jobs[..used]).(fetch := Fetching(w.fetch.held[used..]))
  }

  ghost predicate FetchReply(w: Worker, w': Worker, jobs: seq<string>) {
    && w.fetch.Fetching?
    && var held := w.fetch.held;
       var admitted := Admitted(w, jobs);
       // registering a token twice would raise
       && (forall i | 0 <= i < Min(|jobs|, |held|) :: held[i] !in w.executions.jobs)
       && w' == if |jobs| > |held| then admitted.(fetch := Rejecting(admitted.fetch.held, |jobs| - |held|))
                else GiveBack(admitted, if jobs == [] then Pausing else Top)
  }

  /** The fetch request raised; jobs stays empty. */
  ghost predicate FetchFail(w: Worker, w': Worker) {
    w.fetch.Fetching? && w' == GiveBack(w, Pausing)
  }

  /** One surplus lease was rejected; after the last one the iteration is over. */
  ghost predicate FetchRejected(w: Worker, w': Worker) {
    && w.fetch.Rejecting?
    && w' == if w.fetch.surplus > 1 then w.(fetch := w.fetch.(surplus := w.fetch.surplus - 1))
             else GiveBack(w, Top)
  }

  /** Rejecting raised; the remaining surplus leases are dropped. */
  ghost predicate FetchRejectFail(w: Worker, w': Worker) {
    w.fetch.Rejecting? && w' == GiveBack(w, Top)
  }

  /** The cancellation requested by the coordinator arrives. */
  ghost predicate FetchCancel(w: Worker, w': Worker) {
    w.fetchCancelled && !w.fetch.FetchEnded? && w' == GiveBack(w, FetchEnded)
  }

  ghost predicate FetchStep(w: Worker, w': Worker) {
    || FetchTop(w, w') || FetchWake(w, w') || FetchFail(w, w') || FetchRejected(w, w')
    || FetchRejectFail(w, w') || FetchCancel(w, w')
    || exists jobs: seq<string> :: FetchReply(w, w', jobs)
  }

  // --------------------------------------------------------------- heartbeat loop

  ghost predicate HeartbeatTop(w: Worker, w': Worker) {
    w.heartbeat.Checking? && w' == w.(heartbeat := if w.shutdown then HeartbeatEnded else Sending)
  }

  /** What the server asked for; a quiet or running directive is ignored once shutdown is set. */
  function Directed(w: Worker, directive: Option<State>): Worker {
    if directive == Some(TERMINATE) then Terminated(w).(heartbeat := HeartbeatEnded)
    else if !w.shutdown && (directive == Some(QUIET) || directive == Some(RUNNING))
    then w.(state := directive.value, heartbeat := Waiting)
    else w.(heartbeat := Waiting)
  }

  ghost predicate HeartbeatReply(w: Worker, w': Worker, directive: Option<State>) {
    w.heartbeat.Sending? && w' == Directed(w, directive)
  }

  ghost predicate HeartbeatFail(w: Worker, w': Worker) {
    w.heartbeat.Sending? && w' == w.(heartbeat := Waiting)
  }

  /** The wait was cut short by shutdown, or timed out. */
  ghost predicate HeartbeatWake(w: Worker, w': Worker) {
    && w.heartbeat.Waiting?
    && (w' == w.(heartbeat := Checking) || (w.shutdown && w' == w.(heartbeat := HeartbeatEnded)))
  }

  ghost predicate HeartbeatCancel(w: Worker, w': Worker) {
    w.heartbeatCancelled && !w.heartbeat.HeartbeatEnded? && w' == w.(heartbeat := HeartbeatEnded)
  }

  ghost predicate HeartbeatStep(w: Worker, w': Worker) {
    || HeartbeatTop(w, w') || HeartbeatFail(w, w') || HeartbeatWake(w, w') || HeartbeatCancel(w, w')
    || exists directive :: HeartbeatReply(w, w', directive)
  }

  // -------------------------------------------------------------------- job tasks

  ghost predicate TaskStart(w: Worker, w': Worker, token: Token) {
    token in w.tasks && w.tasks[token].Created? && w' == w.(tasks := w.tasks[token := Started])
  }

  /** The handler returned, raised or was cancelled: the `finally` completes the execution. */
  ghost predicate TaskEnd(w: Worker, w': Worker, token: Token) {
    && token in w.tasks && w.tasks[token].Started?
    && w' == w.(tasks := w.tasks - {token},
                executions := Completed(w.executions, token),
                pool := if token in w.executions.jobs then Release(w.pool, token) else w.pool)
  }

  ghost predicate TaskStep(w: Worker, w': Worker) {
    exists token :: TaskStart(w, w', token) || TaskEnd(w, w', token)
  }

  // ------------------------------------------------------------------ coordinator

  predicate AllStarted(w: Worker) {
    forall token | token in w.tasks :: w.tasks[token].Started?
  }

  /** A loop ended, shutdown was requested, or `start()` was cancelled. */
  ghost predicate StopWatching(w: Worker, w': Worker) {
    && w.coordinator.Watching?
    && w' == w.(shutdown := true, coordinator := Joining,
                fetchCancelled := !w.fetch.FetchEnded?,
                heartbeatCancelled := !w.heartbeat.HeartbeatEnded?)
  }

  ghost predicate LoopsJoined(w: Worker, w': Worker) {
    && w.coordinator.Joining? && w.fetch.FetchEnded? && w.heartbeat.HeartbeatEnded?
    && w' == w.(coordinator := Draining)
  }

  /** `start()` returns: the registry was seen empty. */
  ghost predicate Leave(w: Worker, w': Worker) {
    && (w.coordinator.Draining? || w.coordinator.Emptying?) && w.executions.emptySet
    && w' == w.(coordinator := Idle, state := IDLE)
  }

  /** The grace period is over. Tasks start in FIFO order, so each has started by now. */
  ghost predicate GraceOver(w: Worker, w': Worker) {
    && w.coordinator.Draining? && AllStarted(w)
    && w' == w.(coordinator := Cancelling(w.executions.jobs.Keys))
  }

  ghost predicate TasksJoined(w: Worker, w': Worker) {
    && w.coordinator.Cancelling? && w.coordinator.tasks !! w.tasks.Keys
    && w' == w.(coordinator := Emptying)
  }

  ghost predicate CoordinatorStep(w: Worker, w': Worker) {
    StopWatching(w, w') || LoopsJoined(w, w') || Leave(w, w') || GraceOver(w, w') || TasksJoined(w, w')
  }

  ghost predicate Step(w: Worker, w': Worker) {
    || StartRun(w, w') || Stop(w, w')
    || FetchStep(w, w') || HeartbeatStep(w, w') || TaskStep(w, w') || CoordinatorStep(w, w')
  }

  // ------------------------------------------------- what each component leaves alone

  lemma {:induction false} StartAllDoes(w: Worker, tokens: seq<Token>, jobs: seq<string>)
    requires |tokens| == |jobs|
    ensures var s := StartAll(w, tokens, jobs);
      && s == w.(executions := s.executions, tasks := s.tasks)
      && s.executions.jobs.Keys == w.executions.jobs.Keys + Elements(tokens)
      && s.tasks.Keys == w.tasks.Keys + Elements(tokens)
      && s.executions.emptySet == (w.executions.emptySet && tokens == [])
    decreases |tokens|
  {
    if tokens == [] {
    } else {
      var next := w.(executions := Registered(w.executions, tokens[0], jobs[0]),
                     tasks := w.tasks[tokens[0] := Created]);
      StartAllDoes(next, tokens[1..], jobs[1..]);
      assert tokens == [tokens[0]] + tokens[1..];
      assert Elements(tokens) == {tokens[0]} + Elements(tokens[1..]);
    }
  }

  lemma AdmittedFrame(w: Worker, jobs: seq<string>)
    requires w.fetch.Fetching?
    ensures var a, used := Admitted(w, jobs), Min(|jobs|, |w.fetch.held|);
      && a == w.(executions := a.executions, tasks := a.tasks, fetch := Fetching(w.fetch.held[used..]))
      && a.executions.jobs.Keys == w.executions.jobs.Keys + Elements(w.fetch.held[..used])
      && a.tasks.Keys == w.tasks.Keys + Elements(w.fetch.held[..used])
      && a.executions.emptySet == (w.executions.emptySet && used == 0)
  {
    var used := Min(|jobs|, |w.fetch.held|);
    StartAllDoes(w, w.fetch.held[..used], jobs[..used]);
  }

  lemma FetchFrame(w: Worker, w': Worker)
    requires FetchStep(w, w')
    ensures !w.fetch.FetchEnded?
    ensures w'.shutdown == w.shutdown && w'.state == w.state && w'.coordinator == w.coordinator
    ensures w'.heartbeat == w.heartbeat
  {
    if jobs: seq<string> :| FetchReply(w, w', jobs) {
      AdmittedFrame(w, jobs);
    }
  }

  lemma HeartbeatFrame(w: Worker, w': Worker)
    requires HeartbeatStep(w, w')
    ensures !w.heartbeat.HeartbeatEnded?
    ensures w'.pool == w.pool && w'.executions == w.executions && w'.tasks == w.tasks
    ensures w'.fetch == w.fetch && w'.coordinator == w.coordinator
    ensures w.shutdown ==> w'.shutdown && (w'.state == w.state || w'.state == TERMINATE)
  {
  }

  lemma TaskFrame(w: Worker, w': Worker)
    requires TaskStep(w, w')
    ensures w'.shutdown == w.shutdown && w'.state == w.state && w'.coordinator == w.coordinator
    ensures w'.fetch == w.fetch && w'.heartbeat == w.heartbeat
    ensures w'.executions.jobs.Keys <= w.executions.jobs.Keys && w'.tasks.Keys <= w.tasks.Keys
  {
  }

  lemma CoordinatorFrame(w: Worker, w': Worker)
    requires CoordinatorStep(w, w')
    ensures w'.pool == w.pool && w'.executions == w.executions && w'.tasks == w.tasks
    ensures w'.fetch == w.fetch && w'.heartbeat == w.heartbeat
    ensures w.shutdown ==> w'.shutdown
    ensures if w'.coordinator.Idle? then Leave(w, w') else w'.state == w.state
  {
  }

  // -------------------------------------------------------------------- invariant

  /** Every permit is held by the fetch iteration or by one registered execution. */
  ghost predicate Accounted(pool: Pool, held: seq<Token>, running: set<Token>) {
    && Conserved(pool)
    && Distinct(held)
    && Elements(held) !! running
    && pool.permits == Elements(held) + running
  }

  predicate LoopsEnded(w: Worker) {
    w.fetch.FetchEnded? && w.heartbeat.HeartbeatEnded?
  }

  ghost predicate Phased(w: Worker) {
    match w.coordinator
    case Idle => LoopsEnded(w) && w.executions.jobs == map[] && w.state == IDLE
    case Watching => w.state != IDLE
    case Joining => w.shutdown && w.state != IDLE
    case Draining => w.shutdown && w.state != IDLE && LoopsEnded(w)
    case Cancelling(tasks) => w.shutdown && w.state != IDLE && LoopsEnded(w) && w.tasks.Keys <= tasks
    case Emptying => w.shutdown && w.state != IDLE && LoopsEnded(w) && w.tasks == map[]
  }

  ghost predicate Inv(w: Worker, concurrency: nat) {
    && w.pool.capacity == concurrency
    && Accounted(w.pool, Held(w.fetch), w.executions.jobs.Keys)
    && EventTells(w.executions)
    && w.tasks.Keys == w.executions.jobs.Keys
    && (w.state == TERMINATE ==> w.shutdown)
    && Phased(w)
  }

  lemma InitInv(concurrency: nat)
    ensures Inv(New(concurrency), concurrency)
  {
  }

  lemma GaveBack(pool: Pool, held: seq<Token>, running: set<Token>)
    requires Accounted(pool, held, running)
    ensures Accounted(ReleaseAll(pool, held), [], running)
    ensures ReleaseAll(pool, held).capacity == pool.capacity
  {
    ReleaseAllConserves(pool, held);
    assert Elements([]) == {};
  }

  lemma SplitHeld(held: seq<Token>, used: nat)
    requires used <= |held| && Distinct(held)
    ensures Distinct(held[used..]) && Elements(held[..used]) !! Elements(held[used..])
    ensures Elements(held) == Elements(held[..used]) + Elements(held[used..])
  {
    assert held == held[..used] + held[used..];
  }

  lemma Registering(pool: Pool, held: seq<Token>, running: set<Token>, used: nat)
    requires Accounted(pool, held, running) && used <= |held|
    ensures Accounted(pool, held[used..], running + Elements(held[..used]))
  {
    SplitHeld(held, used);
    var a, b := Elements(held[..used]), Elements(held[used..]);
    assert (a + b) + running == b + (running + a);
  }

  lemma AdmittedInv(w: Worker, jobs: seq<string>, concurrency: nat)
    requires Inv(w, concurrency) && w.fetch.Fetching?
    ensures Inv(Admitted(w, jobs), concurrency)
  {
    var held, a := w.fetch.held, Admitted(w, jobs);
    var used := Min(|jobs|, |held|);
    AdmittedFrame(w, jobs);
    Registering(w.pool, held, w.executions.jobs.Keys, used);
    if used > 0 { assert held[..used][0] in Elements(held[..used]); }
    StartedInv(w, a, concurrency);
  }

  lemma StartedInv(w: Worker, started: Worker, concurrency: nat)
    requires w.pool.capacity == concurrency && w.fetch.Fetching? && Phased(w) && (w.state == TERMINATE ==> w.shutdown)
    requires started == w.(executions := started.executions, tasks := started.tasks, fetch := started.fetch)
    requires started.fetch.Fetching?
    requires Accounted(w.pool, started.fetch.held, started.executions.jobs.Keys)
    requires started.tasks.Keys == started.executions.jobs.Keys && EventTells(started.executions)
    ensures Inv(started, concurrency)
  {
  }

  lemma FetchReplyInv(w: Worker, w': Worker, jobs: seq<string>, concurrency: nat)
    requires Inv(w, concurrency) && FetchReply(w, w', jobs)
    ensures Inv(w', concurrency)
  {
    AdmittedInv(w, jobs, concurrency);
    if |jobs| <= |w.fetch.held| {
      GiveBackStepInv(Admitted(w, jobs), if jobs == [] then Pausing else Top, concurrency);
    }
  }

  lemma GiveBackStepInv(w: Worker, next: Fetch, concurrency: nat)
    requires Inv(w, concurrency) && !w.fetch.FetchEnded?
    requires next.Top? || next.Pausing? || next.FetchEnded?
    ensures Inv(GiveBack(w, next), concurrency)
  {
    GaveBack(w.pool, Held(w.fetch), w.executions.jobs.Keys);
  }

  lemma Reserving(pool: Pool, running: set<Token>)
    requires Accounted(pool, [], running)
    ensures Available(pool) == pool.semaphore
    ensures Accounted(Reserve(pool, pool.semaphore), Tokens(pool.minted, pool.semaphore), running)
    ensures Reserve(pool, pool.semaphore).capacity == pool.capacity
  {
    ReserveAllConserves(pool);
    ReserveConserves(pool, pool.semaphore);
    assert Elements([]) == {};
  }

  lemma FetchReserveInv(w: Worker, w': Worker, concurrency: nat)
    requires Inv(w, concurrency) && FetchTop(w, w') && !w.shutdown && w.state != QUIET
    ensures Inv(w', concurrency)
  {
    Reserving(w.pool, w.executions.jobs.Keys);
    if w.pool.semaphore == 0 { assert Tokens(w.pool.minted, 0) == []; }
  }

  lemma FetchTopInv(w: Worker, w': Worker, concurrency: nat)
    requires Inv(w, concurrency) && FetchTop(w, w')
    ensures Inv(w', concurrency)
  {
    if !w.shutdown && w.state != QUIET { FetchReserveInv(w, w', concurrency); }
  }

  lemma FetchRejectedInv(w: Worker, w': Worker, concurrency: nat)
    requires Inv(w, concurrency) && FetchRejected(w, w')
    ensures Inv(w', concurrency)
  {
    if w.fetch.surplus <= 1 { GiveBackStepInv(w, Top, concurrency); }
  }

  lemma FetchWakeInv(w: Worker, w': Worker, concurrency: nat)
    requires Inv(w, concurrency) && FetchWake(w, w')
    ensures Inv(w', concurrency)
  {
  }

  lemma FetchGivesUpInv(w: Worker, w': Worker, concurrency: nat)
    requires Inv(w, concurrency) && (FetchFail(w, w') || FetchRejectFail(w, w') || FetchCancel(w, w'))
    ensures Inv(w', concurrency)
  {
    GiveBackStepInv(w, w'.fetch, concurrency);
  }

  lemma FetchInv(w: Worker, w': Worker, concurrency: nat)
    requires Inv(w, concurrency) && FetchStep(w, w')
    ensures Inv(w', concurrency)
  {
    if FetchTop(w, w') {
      FetchTopInv(w, w', concurrency);
    } else if FetchWake(w, w') {
      FetchWakeInv(w, w', concurrency);
    } else if FetchRejected(w, w') {
      FetchRejectedInv(w, w', concurrency);
    } else if FetchFail(w, w') || FetchRejectFail(w, w') || FetchCancel(w, w') {
      FetchGivesUpInv(w, w', concurrency);
    } else {
      var jobs: seq<string> :| FetchReply(w, w', jobs);
      FetchReplyInv(w, w', jobs, concurrency);
    }
  }

  lemma Completing(pool: Pool, held: seq<Token>, running: set<Token>, token: Token)
    requires Accounted(pool, held, running) && token in running
    ensures Accounted(Release(pool, token), held, running - {token})
  {
    assert token in pool.permits;
    assert Elements(held) + running - {token} == Elements(held) + (running - {token});
  }

  lemma TaskEndInv(w: Worker, w': Worker, token: Token, concurrency: nat)
    requires Inv(w, concurrency) && TaskEnd(w, w', token)
    ensures Inv(w', concurrency)
  {
    Completing(w.pool, Held(w.fetch), w.executions.jobs.Keys, token);
    assert w'.executions.jobs.Keys == w.executions.jobs.Keys - {token};
    assert w'.tasks.Keys == w.tasks.Keys - {token};
  }

  lemma TaskInv(w: Worker, w': Worker, concurrency: nat)
    requires Inv(w, concurrency) && TaskStep(w, w')
    ensures Inv(w', concurrency)
  {
    var token :| TaskStart(w, w', token) || TaskEnd(w, w', token);
    if TaskEnd(w, w', token) {
      TaskEndInv(w, w', token, concurrency);
    } else {
      assert w'.tasks.Keys == w.tasks.Keys;
    }
  }

  /** Publishing a state and moving the heartbeat keeps the invariant. */
  lemma PublishInv(w: Worker, state: State, shutdown: bool, heartbeat: Heartbeat, concurrency: nat)
    requires Inv(w, concurrency) && !w.heartbeat.HeartbeatEnded?
    requires state != IDLE && (w.shutdown ==> shutdown) && (state == TERMINATE ==> shutdown)
    ensures Inv(w.(state := state, shutdown := shutdown, heartbeat := heartbeat), concurrency)
  {
  }

  lemma HeartbeatReplyInv(w: Worker, directive: Option<State>, concurrency: nat)
    requires Inv(w, concurrency) && w.heartbeat.Sending?
    ensures Inv(Directed(w, directive), concurrency)
  {
    if directive == Some(TERMINATE) {
      PublishInv(w, TERMINATE, true, HeartbeatEnded, concurrency);
    } else if !w.shutdown && (directive == Some(QUIET) || directive == Some(RUNNING)) {
      PublishInv(w, directive.value, w.shutdown, Waiting, concurrency);
    } else {
      PublishInv(w, w.state, w.shutdown, Waiting, concurrency);
    }
  }

  lemma HeartbeatMoves(w: Worker, w': Worker)
    requires HeartbeatTop(w, w') || HeartbeatFail(w, w') || HeartbeatWake(w, w') || HeartbeatCancel(w, w')
    ensures !w.heartbeat.HeartbeatEnded? && w' == w.(heartbeat := w'.heartbeat)
  {
  }

  lemma HeartbeatInv(w: Worker, w': Worker, concurrency: nat)
    requires Inv(w, concurrency) && HeartbeatStep(w, w')
    ensures Inv(w', concurrency)
  {
    if HeartbeatTop(w, w') || HeartbeatFail(w, w') || HeartbeatWake(w, w') || HeartbeatCancel(w, w') {
      HeartbeatMoves(w, w');
      PublishInv(w, w.state, w.shutdown, w'.heartbeat, concurrency);
    } else {
      var directive :| HeartbeatReply(w, w', directive);
      HeartbeatReplyInv(w, directive, concurrency);
    }
  }

  lemma CoordinatorInv(w: Worker, w': Worker, concurrency: nat)
    requires Inv(w, concurrency) && CoordinatorStep(w, w')
    ensures Inv(w', concurrency)
  {
    assert w'.tasks == w.tasks;
  }

  lemma StepInv(w: Worker, w': Worker, concurrency: nat)
    requires Inv(w, concurrency) && Step(w, w')
    ensures Inv(w', concurrency)
  {
    if FetchStep(w, w') {
      FetchInv(w, w', concurrency);
    } else if HeartbeatStep(w, w') {
      HeartbeatInv(w, w', concurrency);
    } else if TaskStep(w, w') {
      TaskInv(w, w', concurrency);
    } else if CoordinatorStep(w, w') {
      CoordinatorInv(w, w', concurrency);
    }
  }
}
