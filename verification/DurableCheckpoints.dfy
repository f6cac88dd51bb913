/** What later checkpoints and later attempts keep of an earlier checkpoint
    (src/ojs/durable/context.py:131-189).

    The log holds the very lists and objects the handler is given, and a checkpoint writes
    the log as it then stands. So a value that the handler changes in place after it has been
    checkpointed is written changed by the next checkpoint. */
module DurableCheckpoints {
  import opened JsonValue
  import opened ReplayLog
  import opened DurableContext
  import opened DurableRuns

  /** No value of the last checkpoint stands changed. */
  predicate Intact(j: Job) {
    j.saved <= j.ctx.entries
  }

  /** That is: as far as the handler has been given its values, they are as it holds them. */
  lemma IntactAsHeld(h: Handler, j: Job)
    requires Inv(h, j)
    ensures Intact(j) <==> Agree(j.saved, Left(h, j.history))
  {
    var left := Left(h, j.history);
    if Agree(j.saved, left) {
      forall n | 0 <= n < |j.saved| ensures j.saved[n] == j.ctx.entries[n] {
        if n < |left| { assert left[n] == j.ctx.entries[n]; }
      }
    }
    if Intact(j) {
      forall n: nat | n < |j.saved| && n < |left| ensures j.saved[n] == left[n] {
        assert left[n] == j.ctx.entries[n];
      }
    }
  }

  /** The handler is about to change a value of the last checkpoint. */
  predicate Disturbs(h: Handler, j: Job) {
    && h(j.history).Change?
    && var at := h(j.history).at;
       at < |j.saved| && at < Seen(j.ctx) && InPlace(j.ctx.entries[at], h(j.history).value)
       && j.ctx.entries[at].result != h(j.history).value
  }

  lemma AlterAt(entries: seq<Entry>, n: nat, at: nat, value: Json, saved: seq<Entry>)
    requires saved <= entries && n <= |entries|
    ensures var altered := Altered(entries[..n], at, value) + entries[n..];
      saved <= altered <==>
        !(at < |saved| && at < n && InPlace(entries[at], value) && entries[at].result != value)
  {
    var altered := Altered(entries[..n], at, value) + entries[n..];
    assert forall m | 0 <= m < |entries| && m != at :: altered[m] == entries[m];
    if at < |saved| && at < n && InPlace(entries[at], value) && entries[at].result != value {
      assert altered[at].result == value != saved[at].result;
    } else {
      assert forall m | 0 <= m < |saved| :: altered[m] == entries[m];
    }
  }

  /** A step leaves the checkpointed values as they are unless it changes one of them. */
  lemma StepIntact(h: Handler, j: Job, j': Job)
    requires Inv(h, j) && Step(h, j, j') && Intact(j)
    ensures Intact(j') <==> !(Move(h, j, j') && Disturbs(h, j))
  {
    if Alter(h, j, j') {
      AlterAt(j.ctx.entries, Seen(j.ctx), h(j.history).at, h(j.history).value, j.saved);
    } else {
      OtherIntact(h, j, j');
    }
  }

  lemma OtherIntact(h: Handler, j: Job, j': Job)
    requires Inv(h, j) && Step(h, j, j') && Intact(j) && !Alter(h, j, j')
    ensures Intact(j') && !(Move(h, j, j') && Disturbs(h, j))
  {
    if outside :| Effect(h, j, j', outside) {
      EffectIntact(h, j, j', outside);
    } else if !Move(h, j, j') {
      RestartIs(j, j');
    }
  }

  lemma EffectIntact(h: Handler, j: Job, j': Job, outside: Json)
    requires Inv(h, j) && Effect(h, j, j', outside) && Intact(j)
    ensures Intact(j')
  {
    EffectDoes(h, j, j', outside);
    if j'.history != j.history + [Refused] {
      assert j.saved <= j'.ctx.entries[..|j.ctx.entries|];
    }
  }

  // ---------------------------------------------------------- checkpoints one by another

  lemma StepExtends(h: Handler, j: Job, j': Job)
    requires Inv(h, j) && Step(h, j, j')
    ensures j.saved <= j'.saved <==> (Store(h, j, j') ==> Intact(j))
    ensures !Store(h, j, j') ==> j'.saved == j.saved
  {
    if outside :| Effect(h, j, j', outside) { EffectDoes(h, j, j', outside); }
  }

  lemma RunExtends(h: Handler, run: seq<Job>, k: nat)
    requires IsRun(h, run) && k + 1 < |run|
    ensures run[k].saved <= run[k + 1].saved <==> IntactIfStored(h, run, k)
  {
    RunInv(h, run, k);
    assert StepsAt(h, run, k);
    StepExtends(h, run[k], run[k + 1]);
  }

  /** Whenever the log is stored, from state i to state k, no value of the checkpoint before
      stands changed. */
  ghost predicate IntactStores(h: Handler, run: seq<Job>, i: nat, k: nat)
    requires k < |run|
  {
    forall t: nat | i <= t < k :: IntactIfStored(h, run, t)
  }

  ghost predicate IntactIfStored(h: Handler, run: seq<Job>, t: nat)
    requires t + 1 < |run|
  {
    Store(h, run[t], run[t + 1]) ==> Intact(run[t])
  }

  /** Each checkpointed log extends all the ones before it, from state i to state k. */
  predicate Extending(run: seq<Job>, i: nat, k: nat)
    requires k < |run|
  {
    forall m: nat, n: nat | i <= m <= n <= k :: run[m].saved <= run[n].saved
  }

  /** Across any crashes, checkpointed logs extend one another exactly when no checkpointed
      value stands changed where the next checkpoint is taken. */
  lemma {:induction false} ExtendExactly(h: Handler, run: seq<Job>, i: nat, k: nat)
    requires IsRun(h, run) && i <= k < |run|
    ensures Extending(run, i, k) <==> IntactStores(h, run, i, k)
    decreases k
  {
    if i < k {
      ExtendExactly(h, run, i, k - 1);
      RunExtends(h, run, k - 1);
      ExtendingLonger(run, i, k);
      IntactLonger(h, run, i, k);
    }
  }

  lemma ExtendingLonger(run: seq<Job>, i: nat, k: nat)
    requires i < k < |run|
    ensures Extending(run, i, k) <==> Extending(run, i, k - 1) && run[k - 1].saved <= run[k].saved
  {
    if Extending(run, i, k - 1) && run[k - 1].saved <= run[k].saved {
      forall m: nat, n: nat | i <= m <= n <= k ensures run[m].saved <= run[n].saved {
        if m < n == k { assert run[m].saved <= run[k - 1].saved; }
      }
    }
  }

  lemma IntactLonger(h: Handler, run: seq<Job>, i: nat, k: nat)
    requires i < k < |run|
    ensures IntactStores(h, run, i, k) <==>
            IntactStores(h, run, i, k - 1) && IntactIfStored(h, run, k - 1)
  {
  }

  /** The handler never changes a checkpointed value up to state k. */
  predicate Spared(h: Handler, run: seq<Job>, k: nat)
    requires k < |run|
  {
    forall t | 0 <= t < k :: !Disturbs(h, run[t])
  }

  lemma {:induction false} SparedIsIntact(h: Handler, run: seq<Job>, k: nat)
    requires IsRun(h, run) && k < |run| && Spared(h, run, k)
    ensures Intact(run[k])
  {
    if k > 0 {
      SparedIsIntact(h, run, k - 1);
      RunIntact(h, run, k - 1);
    }
  }

  lemma RunIntact(h: Handler, run: seq<Job>, k: nat)
    requires IsRun(h, run) && k + 1 < |run| && Intact(run[k]) && !Disturbs(h, run[k])
    ensures Intact(run[k + 1])
  {
    RunInv(h, run, k);
    assert StepsAt(h, run, k);
    StepIntact(h, run[k], run[k + 1]);
  }

  /** So checkpointed logs extend one another in every run in which the handler changes no
      checkpointed value, whatever it changes otherwise. */
  lemma SparedExtends(h: Handler, run: seq<Job>, i: nat, k: nat)
    requires IsRun(h, run) && i <= k < |run| && Spared(h, run, k)
    ensures run[i].saved <= run[k].saved
  {
    forall t: nat | i <= t < k ensures IntactIfStored(h, run, t) {
      SparedIsIntact(h, run, t);
    }
    ExtendExactly(h, run, i, k);
    assert Extending(run, i, k);
  }

  // --------------------------------------------------------------- what later attempts see

  lemma GivenOfStep(h: Handler, j: Job, j': Job, n: nat)
    requires Inv(h, j) && Move(h, j, j') && n < |Given(h, j'.history)|
    ensures n < |Given(h, j.history)| ==> Given(h, j'.history)[n] == Given(h, j.history)[n]
    ensures n >= |Given(h, j.history)| && n < |j.saved| ==> Given(h, j'.history)[n] == j.saved[n]
  {
    var reply := OneReply(h, j, j');
    GivenOfReply(h, j.history, reply);
    if reply.Value? {
      var outside :| Effect(h, j, j', outside);
      NewlyGiven(h, j, j', outside);
    }
  }

  lemma OneReply(h: Handler, j: Job, j': Job) returns (reply: Reply)
    requires Move(h, j, j')
    ensures j'.history == j.history + [reply]
    ensures reply.Value? ==> exists outside :: Effect(h, j, j', outside)
  {
    reply := j'.history[|j.history|];
  }

  /** What is given while replaying is what is at the server still. */
  lemma NewlyGiven(h: Handler, j: Job, j': Job, outside: Json)
    requires Inv(h, j) && Effect(h, j, j', outside) && |j'.history| > 0 && j'.history[|j'.history| - 1].Value?
    ensures var i := |Given(h, j.history)|;
      i < |Given(h, j'.history)| && (i < |j.saved| ==> Given(h, j'.history)[i] == j.saved[i])
  {
    var reply := j'.history[|j.history|];
    GivenOfReply(h, j.history, reply);
    if Replays(j.ctx) {
      ReplayDoes(h, j, j', outside);
      SuitedIsMade(j.ctx.entries, j.ctx.cursor, h(j.history).op);
    } else {
      RecordDoes(h, j, j', outside);
    }
  }

  /** In every run, the values a handler is given after a restart are those checkpointed
      last, as far as they go. */
  lemma SeesLastSaved(h: Handler, run: seq<Job>, i: nat, k: nat, n: nat)
    requires IsRun(h, run) && i < k < |run| && run[i + 1] == Restarted(run[i])
    requires NoRestart(h, run, i + 1, k)
    requires n < |run[i].saved| && n < |Given(h, run[k].history)|
    ensures Given(h, run[k].history)[n] == run[i].saved[n]
  {
    SameLoaded(h, run, i + 1, k);
    RunInv(h, run, k);
  }

  ghost predicate NoRestart(h: Handler, run: seq<Job>, i: nat, k: nat)
    requires k < |run|
  {
    forall t: nat | i <= t < k :: MovesAt(h, run, t)
  }

  lemma {:induction false} SameLoaded(h: Handler, run: seq<Job>, i: nat, k: nat)
    requires IsRun(h, run) && i <= k < |run| && NoRestart(h, run, i, k)
    ensures run[k].loaded == run[i].loaded
  {
    if i < k {
      SameLoaded(h, run, i, k - 1);
      RunInv(h, run, k - 1);
      assert MovesAt(h, run, k - 1);
      MoveInv(h, run[k - 1], run[k]);
    }
  }

  /** Where the handler was given the checkpointed value, and no checkpointed value stands
      changed where a later checkpoint is taken, every later attempt gives it that value. */
  lemma {:induction false} SeesFirstRecorded(h: Handler, run: seq<Job>, i: nat, k: nat, n: nat)
    requires IsRun(h, run) && i <= k < |run| && IntactStores(h, run, i, k)
    requires n < |run[i].saved|
    requires n < |Given(h, run[i].history)| ==> Given(h, run[i].history)[n] == run[i].saved[n]
    requires n < |Given(h, run[k].history)|
    ensures Given(h, run[k].history)[n] == run[i].saved[n]
    decreases k
  {
    if i < k {
      RunGives(h, run, k - 1, n);
      StillExtends(h, run, i, k, n);
      if n < |Given(h, run[k - 1].history)| { SeesFirstRecorded(h, run, i, k - 1, n); }
    }
  }

  lemma RunGives(h: Handler, run: seq<Job>, k: nat, n: nat)
    requires IsRun(h, run) && k + 1 < |run| && n < |Given(h, run[k + 1].history)|
    ensures n < |Given(h, run[k].history)| ==> Given(h, run[k + 1].history)[n] == Given(h, run[k].history)[n]
    ensures n >= |Given(h, run[k].history)| && n < |run[k].saved| ==>
              Given(h, run[k + 1].history)[n] == run[k].saved[n]
  {
    assert StepsAt(h, run, k);
    RunInv(h, run, k);
    GivenOfStep(h, run[k], run[k + 1], n);
  }

  lemma StillExtends(h: Handler, run: seq<Job>, i: nat, k: nat, n: nat)
    requires IsRun(h, run) && i < k < |run| && IntactStores(h, run, i, k) && n < |run[i].saved|
    ensures IntactStores(h, run, i, k - 1) && n < |run[k - 1].saved| && run[k - 1].saved[n] == run[i].saved[n]
  {
    IntactLonger(h, run, i, k);
    ExtendExactly(h, run, i, k - 1);
  }

  // ------------------------------------------------------- a handler that changes its data

  /** Fetches a list, checkpoints, takes everything out of the list, checkpoints again. */
  function Emptying(story: seq<Reply>): Action {
    match |story|
    case 0 => Do(Call("a"))
    case 1 => Save
    case 2 => Change(0, Arr([]))
    case 3 => Save
    case _ => Finish
  }

  /** What it has after the first n steps, a crash after the fourth among them. */
  function EmptiedAt(item: Json, n: nat): Job {
    var full, bare := EntryOf(0, Call("a"), Arr([item])), EntryOf(0, Call("a"), Arr([]));
    var history := [Value(Arr([item])), Saved, Changed, Saved];
    match n
    case 0 => Fresh()
    case 1 => Job(Ctx([full], 0, false), history[..1], [], [], [0])
    case 2 => Job(Ctx([full], 0, false), history[..2], [], [full], [0])
    case 3 => Job(Ctx([bare], 0, false), history[..3], [], [full], [0])
    case 4 => Job(Ctx([bare], 0, false), history, [], [bare], [0])
    case 5 => Job(Ctx([bare], 0, true), [], [bare], [bare], [0])
    case _ => Job(Ctx([bare], 1, false), [Value(Arr([]))], [bare], [bare], [0])
  }

  lemma FetchesAndSaves(item: Json)
    ensures Step(Emptying, EmptiedAt(item, 0), EmptiedAt(item, 1))
    ensures Step(Emptying, EmptiedAt(item, 1), EmptiedAt(item, 2))
  {
    assert Effect(Emptying, Fresh(), EmptiedAt(item, 1), Arr([item]));
    assert EmptiedAt(item, 1).history + [Saved] == EmptiedAt(item, 2).history;
    assert Store(Emptying, EmptiedAt(item, 1), EmptiedAt(item, 2));
  }

  lemma EmptiesAndSaves(item: Json)
    ensures Step(Emptying, EmptiedAt(item, 2), EmptiedAt(item, 3))
    ensures Step(Emptying, EmptiedAt(item, 3), EmptiedAt(item, 4))
  {
    var first, changed := EmptiedAt(item, 2), EmptiedAt(item, 3);
    assert first.ctx.entries[..1] == first.ctx.entries && first.ctx.entries[1..] == [];
    assert first.history + [Changed] == changed.history && changed.history + [Saved] == EmptiedAt(item, 4).history;
    assert Alter(Emptying, first, changed) && Store(Emptying, changed, EmptiedAt(item, 4));
  }

  lemma Restarting(item: Json)
    ensures Step(Emptying, EmptiedAt(item, 4), EmptiedAt(item, 5))
  {
    OneMade(Call("a"), Arr([]));
    RestartCan(EmptiedAt(item, 4));
    assert Restarted(EmptiedAt(item, 4)) == EmptiedAt(item, 5);
  }

  lemma Rereads(item: Json)
    ensures Step(Emptying, EmptiedAt(item, 5), EmptiedAt(item, 6))
  {
    assert Effect(Emptying, EmptiedAt(item, 5), EmptiedAt(item, 6), Null);
  }

  lemma EmptyingStep(item: Json, n: nat)
    requires n < 6
    ensures Step(Emptying, EmptiedAt(item, n), EmptiedAt(item, n + 1))
  {
    match n
    case 0 => FetchesAndSaves(item);
    case 1 => FetchesAndSaves(item);
    case 4 => Restarting(item);
    case 5 => Rereads(item);
    case _ => EmptiesAndSaves(item);
  }

  lemma {:induction false} EmptyingRun(item: Json, n: nat) returns (run: seq<Job>)
    requires n <= 6
    ensures IsRun(Emptying, run) && |run| == n + 1
    ensures forall m: nat | m <= n :: run[m] == EmptiedAt(item, m)
  {
    if n == 0 {
      run := [Fresh()];
    } else {
      run := EmptyingRun(item, n - 1);
      EmptyingStep(item, n - 1);
      RunLonger(Emptying, run, EmptiedAt(item, n));
      run := run + [EmptiedAt(item, n)];
    }
  }

  /** The second checkpoint does not extend the first, and after a crash the handler is given
      the empty list instead of the one that was fetched. */
  lemma AlteredIsSaved(item: Json) returns (run: seq<Job>)
    ensures IsRun(Emptying, run) && |run| == 7
    ensures !(run[2].saved <= run[4].saved) && !Intact(run[3]) && Disturbs(Emptying, run[2])
    ensures run[1].history == [Value(Arr([item]))] && run[6].history == [Value(Arr([]))]
  {
    run := EmptyingRun(item, 6);
    assert EmptiedAt(item, 2).saved[0].result != EmptiedAt(item, 3).ctx.entries[0].result;
    assert run[2] == EmptiedAt(item, 2) && run[3] == EmptiedAt(item, 3) && run[4] == EmptiedAt(item, 4);
  }
}
