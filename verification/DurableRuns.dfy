/** A durable handler across crashes and restarts from its last checkpoint
    (src/ojs/durable/context.py, src/ojs/durable/replay_loader.py).

    The handler is deterministic: what it does next depends only on the replies it has
    had in this attempt, and its operations are neither nested nor concurrent. It may
    catch whatever an operation or a checkpoint raises and go on, and it may change a
    list or an object it was given: that is the very object the log holds. */
module DurableRuns {
  import opened Wrappers
  import opened JsonValue
  import opened ReplayLog
  import opened ReplayLoading
  import opened DurableContext

  /** Threw: the function of a side effect raised, and nothing was recorded. Refused: the
      replay was refused. SaveFailed: the request of a checkpoint raised. */
  datatype Reply = Value(value: Json) | Threw | Refused | Saved | SaveFailed | Changed

  /** Change: the handler turns the value it was given by its operation number `at` into
      `value`, in place. */
  datatype Action = Do(op: Op) | Save | Change(at: nat, value: Json) | Finish

  type Handler = seq<Reply> -> Action

  /** `loaded` is the log this attempt started from, `saved` the one at the server; `ran`
      lists, over all attempts, the log positions whose effect was run outside. */
  datatype Job = Job(ctx: Ctx, history: seq<Reply>, loaded: seq<Entry>, saved: seq<Entry>, ran: seq<nat>)

  function Fresh(): Job {
    Job(Open(None), [], [], [], [])
  }

  /** How much of the log the handler has been given. */
  function Seen(c: Ctx): (n: nat)
    ensures n <= |c.entries|
  {
    if Replays(c) then c.cursor else |c.entries|
  }

  /** What can change in place: lists and objects, as side effects give them. */
  predicate InPlace(e: Entry, value: Json) {
    e.kind == "call" && ((e.result.Arr? && value.Arr?) || (e.result.Obj? && value.Obj?))
  }

  function Altered(entries: seq<Entry>, at: nat, value: Json): seq<Entry> {
    if at < |entries| && InPlace(entries[at], value) then entries[at := entries[at].(result := value)] else entries
  }

  ghost predicate Effect(h: Handler, j: Job, j': Job, outside: Json) {
    && h(j.history).Do? && Fits(h(j.history).op, outside)
    && var (ctx, r) := Perform(j.ctx, h(j.history).op, outside);
       match r
       case Err(_) => j' == j.(ctx := ctx, history := j.history + [Refused])
       case Ok(p) => j' == j.(ctx := ctx, history := j.history + [Value(p.value)],
                              ran := if p.ran then j.ran + [|j.ctx.entries|] else j.ran)
  }

  /** A side effect that is run and raises. */
  ghost predicate Throw(h: Handler, j: Job, j': Job) {
    && h(j.history).Do? && h(j.history).op.Call? && !Replays(j.ctx)
    && j' == j.(ctx := j.ctx.(replaying := false), history := j.history + [Threw], ran := j.ran + [|j.ctx.entries|])
  }

  ghost predicate Alter(h: Handler, j: Job, j': Job) {
    && h(j.history).Change?
    && var seen := Altered(j.ctx.entries[..Seen(j.ctx)], h(j.history).at, h(j.history).value);
       j' == j.(ctx := j.ctx.(entries := seen + j.ctx.entries[Seen(j.ctx)..]), history := j.history + [Changed])
  }

  /** The log as it stands reaches the server. A request that raises may have been stored
      all the same. */
  ghost predicate Store(h: Handler, j: Job, j': Job) {
    && h(j.history).Save?
    && (|| j' == j.(saved := j.ctx.entries, history := j.history + [Saved])
        || j' == j.(saved := j.ctx.entries, history := j.history + [SaveFailed]))
  }

  ghost predicate Lose(h: Handler, j: Job, j': Job) {
    h(j.history).Save? && j' == j.(history := j.history + [SaveFailed])
  }

  /** What the server can answer about the log that is stored: none, if nothing was, or the
      body of the checkpoint, whose log text reads back as it was written. */
  ghost predicate Serves(saved: seq<Entry>, fetched: Fetched, loads: Loads) {
    || (saved == [] && SaysNone(fetched))
    || exists state, step, attempt, dumps :: ServesBody(saved, fetched, loads, state, step, attempt, dumps)
  }

  ghost predicate ServesBody(saved: seq<Entry>, fetched: Fetched, loads: Loads,
                             state: Json, step: int, attempt: string, dumps: Dumps) {
    && loads("") == None && loads(dumps(Wire(saved))) == Some(Wire(saved))
    && fetched == Body(ResumeBody(CheckpointBody(saved, state, step, attempt, dumps)))
  }

  /** The attempt is lost at any point; the next one opens with what the loader makes of the
      server's answer. */
  ghost predicate Restarts(j: Job, j': Job) {
    exists fetched, loads :: Serves(j.saved, fetched, loads) && RestartsFrom(j, j', fetched, loads)
  }

  ghost predicate RestartsFrom(j: Job, j': Job, fetched: Fetched, loads: Loads) {
    && LoadLog(fetched, loads).Ok?
    && var ctx := Open(LoadLog(fetched, loads).value);
       j' == j.(ctx := ctx, history := [], loaded := ctx.entries)
  }

  /** What a restart comes to, as shown below. */
  function Restarted(j: Job): Job {
    j.(ctx := Open(Some(j.saved)), history := [], loaded := j.saved)
  }

  /** A step inside one attempt. */
  ghost predicate Move(h: Handler, j: Job, j': Job) {
    || Store(h, j, j') || Lose(h, j, j') || Throw(h, j, j') || Alter(h, j, j')
    || exists outside :: Effect(h, j, j', outside)
  }

  ghost predicate Step(h: Handler, j: Job, j': Job) {
    Move(h, j, j') || Restarts(j, j')
  }

  // ------------------------------------------------------------------ what a log tells

  /** A reply the handler can have to what it does. */
  predicate Answers(action: Action, reply: Reply) {
    match action
    case Do(op) => (reply.Value? && Fits(op, reply.value)) || (reply.Threw? && op.Call?) || reply.Refused?
    case Save => reply.Saved? || reply.SaveFailed?
    case Change(_, _) => reply.Changed?
    case Finish => false
  }

  /** A reply history the handler can have had. */
  predicate Follows(h: Handler, story: seq<Reply>) {
    forall i: nat | i < |story| :: AnsweredAt(h, story, i)
  }

  predicate AnsweredAt(h: Handler, story: seq<Reply>, i: nat)
    requires i < |story|
  {
    Answers(h(story[..i]), story[i])
  }

  function EntryOf(at: nat, op: Op, value: Json): Entry {
    Entry(at, Kind(op), value, Key(op))
  }

  function Grown(log: seq<Entry>, action: Action, reply: Reply): seq<Entry> {
    if action.Do? && reply.Value? then log + [EntryOf(|log|, action.op, reply.value)] else log
  }

  /** What the handler has been given, as it was given. */
  function Given(h: Handler, story: seq<Reply>): seq<Entry> {
    if story == [] then []
    else
      var before := story[..|story| - 1];
      Grown(Given(h, before), h(before), story[|story| - 1])
  }

  /** What the handler has been given, as the handler has left it. */
  function Left(h: Handler, story: seq<Reply>): seq<Entry> {
    if story == [] then []
    else
      var before := story[..|story| - 1];
      var log := Grown(Left(h, before), h(before), story[|story| - 1]);
      if h(before).Change? && story[|story| - 1].Changed? then Altered(log, h(before).at, h(before).value) else log
  }

  lemma {:induction false} GivenGrows(h: Handler, story: seq<Reply>, i: nat)
    requires i <= |story|
    ensures Given(h, story[..i]) <= Given(h, story)
  {
    if i == |story| {
      assert story[..i] == story;
    } else {
      GivenGrows(h, story[..|story| - 1], i);
      assert story[..|story| - 1][..i] == story[..i];
    }
  }

  lemma {:induction false} LeftLength(h: Handler, story: seq<Reply>)
    ensures |Left(h, story)| == |Given(h, story)|
  {
    if story != [] { LeftLength(h, story[..|story| - 1]); }
  }

  /** What one more reply adds. */
  lemma GivenOfReply(h: Handler, story: seq<Reply>, reply: Reply)
    ensures Given(h, story + [reply]) == Grown(Given(h, story), h(story), reply)
  {
    assert (story + [reply])[..|story|] == story;
  }

  lemma LeftOfReply(h: Handler, story: seq<Reply>, reply: Reply)
    ensures Left(h, story + [reply]) ==
            if h(story).Change? && reply.Changed? then Altered(Left(h, story), h(story).at, h(story).value)
            else Grown(Left(h, story), h(story), reply)
  {
    assert (story + [reply])[..|story|] == story;
  }

  lemma FollowsLonger(h: Handler, story: seq<Reply>, reply: Reply)
    requires Follows(h, story) && Answers(h(story), reply)
    ensures Follows(h, story + [reply])
  {
    var longer := story + [reply];
    forall i: nat | i < |longer| ensures AnsweredAt(h, longer, i) {
      if i < |story| {
        assert AnsweredAt(h, story, i) && longer[..i] == story[..i];
      } else {
        assert longer[..i] == story;
      }
    }
  }

  // -------------------------------------------------------------------------- invariant

  /** Entries as a context records them. */
  ghost predicate WellMade(entries: seq<Entry>) {
    forall i: nat | i < |entries| :: MadeAt(entries, i)
  }

  ghost predicate MadeAt(entries: seq<Entry>, i: nat)
    requires i < |entries|
  {
    entries[i].seqNo == i && exists op :: Made(entries[i], op)
  }

  predicate Made(e: Entry, op: Op) {
    e.kind == Kind(op) && e.key == Key(op) && Fits(op, e.result)
  }

  /** The recorded entry answers the operation. */
  predicate Suits(op: Op, e: Entry) {
    e.kind == Kind(op) && (op.Call? ==> e.key == op.key)
  }

  lemma SuitedIsMade(entries: seq<Entry>, i: nat, op: Op)
    requires WellMade(entries) && i < |entries| && Suits(op, entries[i])
    ensures Fits(op, entries[i].result) && entries[i] == EntryOf(i, op, entries[i].result)
  {
    assert MadeAt(entries, i);
    var made :| Made(entries[i], made);
    KindsApart(made, op);
  }

  lemma KindsApart(a: Op, b: Op)
    ensures Kind(a) == Kind(b) ==> a.Time? == b.Time? && a.Random? == b.Random?
  {
    assert |"time"| == |"call"| == 4 && "time"[0] == 't' && "call"[0] == 'c' && |"random"| == 6;
  }

  predicate Unthrown(story: seq<Reply>) {
    forall i | 0 <= i < |story| :: !story[i].Threw?
  }

  predicate Agree(a: seq<Entry>, b: seq<Entry>) {
    forall n: nat | n < |a| && n < |b| :: a[n] == b[n]
  }

  /** While an attempt replays, nothing has been thrown at its handler, and what is still to
      come is in the log and at the server as it was when the attempt started. */
  predicate Replaying(j: Job) {
    && Replays(j.ctx) && Unthrown(j.history)
    && |j.loaded| == |j.saved| == |j.ctx.entries|
    && forall n | j.ctx.cursor <= n < |j.loaded| :: j.ctx.entries[n] == j.saved[n] == j.loaded[n]
  }

  /** The log is what the handler has left of what it was given, and then what is still to
      be replayed; and what it was given is what the attempt started from, as far as that
      goes. */
  ghost predicate Inv(h: Handler, j: Job) {
    && WellMade(j.ctx.entries) && WellMade(j.saved)
    && |j.loaded| <= |j.saved| <= |j.ctx.entries|
    && (j.ctx.replaying ==> Replaying(j))
    && Follows(h, j.history)
    && Left(h, j.history) == j.ctx.entries[..Seen(j.ctx)]
    && Agree(Given(h, j.history), j.loaded)
  }

  lemma FreshInv(h: Handler)
    ensures Inv(h, Fresh())
  {
  }

  /** Whatever the handler does, an operation gives it the value in the log at its place,
      without running anything; or runs and records it at the end; or is refused and changes
      nothing. */
  lemma EffectDoes(h: Handler, j: Job, j': Job, outside: Json)
    requires Inv(h, j) && Effect(h, j, j', outside)
    ensures Inv(h, j') && j'.saved == j.saved && j'.loaded == j.loaded
    ensures var i := |Given(h, j.history)|;
      if j'.history == j.history + [Refused] then
        i < |j.loaded| && !Suits(h(j.history).op, j.loaded[i]) && j' == j.(history := j'.history)
      else
        && j'.ctx.entries[..|j.ctx.entries|] == j.ctx.entries && i < |j'.ctx.entries|
        && j'.history == j.history + [Value(j'.ctx.entries[i].result)]
        && j'.ran == (if i < |j.ctx.entries| then j.ran else j.ran + [i])
  {
    LeftLength(h, j.history);
    if Replays(j.ctx) {
      ReplayDoes(h, j, j', outside);
    } else {
      RecordDoes(h, j, j', outside);
    }
  }

  lemma RecordDoes(h: Handler, j: Job, j': Job, outside: Json)
    requires Inv(h, j) && Effect(h, j, j', outside) && !Replays(j.ctx)
    ensures Inv(h, j') && |Given(h, j.history)| == |j.ctx.entries|
    ensures var i := |j.ctx.entries|;
      j' == j.(ctx := Recorded(j.ctx, h(j.history).op, outside),
               history := j.history + [Value(outside)], ran := j.ran + [i])
  {
    LeftLength(h, j.history);
    GivenOfReply(h, j.history, Value(outside));
    LeftOfReply(h, j.history, Value(outside));
    FollowsLonger(h, j.history, Value(outside));
    MadeLonger(j.ctx.entries, h(j.history).op, outside);
  }

  lemma MadeLonger(entries: seq<Entry>, op: Op, value: Json)
    requires WellMade(entries) && Fits(op, value)
    ensures WellMade(entries + [EntryOf(|entries|, op, value)])
  {
    assert Made(EntryOf(|entries|, op, value), op);
    var longer := entries + [EntryOf(|entries|, op, value)];
    forall i: nat | i < |longer| ensures MadeAt(longer, i) {
      if i < |entries| { assert MadeAt(entries, i) && longer[i] == entries[i]; }
    }
  }

  lemma OneMade(op: Op, value: Json)
    requires Fits(op, value)
    ensures WellMade([EntryOf(0, op, value)])
  {
    MadeLonger([], op, value);
    assert [] + [EntryOf(0, op, value)] == [EntryOf(0, op, value)];
  }

  lemma ReplayDoes(h: Handler, j: Job, j': Job, outside: Json)
    requires Inv(h, j) && Effect(h, j, j', outside) && Replays(j.ctx)
    ensures Inv(h, j') && |Given(h, j.history)| == j.ctx.cursor < |j.loaded|
    ensures var i := j.ctx.cursor;
      if Suits(h(j.history).op, j.loaded[i]) then
        j' == j.(ctx := Consumed(j.ctx), history := j.history + [Value(j.ctx.entries[i].result)])
      else j' == j.(history := j.history + [Refused])
  {
    LeftLength(h, j.history);
    var op, e := h(j.history).op, j.ctx.entries[j.ctx.cursor];
    if Suits(op, e) {
      SuitedIsMade(j.ctx.entries, j.ctx.cursor, op);
      ConsumeInv(h, j, j');
    } else {
      QuietReply(h, j.history, Refused);
    }
  }

  lemma ConsumeInv(h: Handler, j: Job, j': Job)
    requires Inv(h, j) && Replays(j.ctx) && h(j.history).Do?
    requires var e := j.ctx.entries[j.ctx.cursor]; var op := h(j.history).op;
      Fits(op, e.result) && e == EntryOf(j.ctx.cursor, op, e.result)
      && j' == j.(ctx := Consumed(j.ctx), history := j.history + [Value(e.result)])
    ensures Inv(h, j')
  {
    var c, e := j.ctx.cursor, j.ctx.entries[j.ctx.cursor];
    assert j.ctx.entries[..c + 1] == j.ctx.entries[..c] + [e];
    LeftLength(h, j.history);
    GivenOfReply(h, j.history, Value(e.result));
    LeftOfReply(h, j.history, Value(e.result));
    FollowsLonger(h, j.history, Value(e.result));
  }

  /** A reply that gives no value and changes none. */
  lemma QuietReply(h: Handler, story: seq<Reply>, reply: Reply)
    requires Follows(h, story) && Answers(h(story), reply) && !reply.Value? && !reply.Changed?
    ensures Follows(h, story + [reply])
    ensures Given(h, story + [reply]) == Given(h, story) && Left(h, story + [reply]) == Left(h, story)
  {
    GivenOfReply(h, story, reply);
    LeftOfReply(h, story, reply);
    FollowsLonger(h, story, reply);
  }

  lemma ThrowInv(h: Handler, j: Job, j': Job)
    requires Inv(h, j) && Throw(h, j, j')
    ensures Inv(h, j')
  {
    QuietReply(h, j.history, Threw);
  }

  lemma StoreInv(h: Handler, j: Job, j': Job)
    requires Inv(h, j) && Store(h, j, j')
    ensures Inv(h, j')
  {
    QuietReply(h, j.history, j'.history[|j.history|]);
  }

  lemma LoseInv(h: Handler, j: Job, j': Job)
    requires Inv(h, j) && Lose(h, j, j')
    ensures Inv(h, j')
  {
    QuietReply(h, j.history, SaveFailed);
  }

  lemma AlteredMade(entries: seq<Entry>, n: nat, at: nat, value: Json)
    requires WellMade(entries) && n <= |entries|
    ensures WellMade(Altered(entries[..n], at, value) + entries[n..])
  {
    var altered := Altered(entries[..n], at, value) + entries[n..];
    forall i: nat | i < |altered| ensures MadeAt(altered, i) {
      assert MadeAt(entries, i);
      if altered[i] != entries[i] { assert Made(altered[i], Call(altered[i].key)); }
    }
  }

  lemma AlterInv(h: Handler, j: Job, j': Job)
    requires Inv(h, j) && Alter(h, j, j')
    ensures Inv(h, j')
  {
    GivenOfReply(h, j.history, Changed);
    LeftOfReply(h, j.history, Changed);
    FollowsLonger(h, j.history, Changed);
    AlteredMade(j.ctx.entries, Seen(j.ctx), h(j.history).at, h(j.history).value);
  }

  lemma MadeNumbered(entries: seq<Entry>)
    requires WellMade(entries)
    ensures Numbered(entries)
  {
    forall i | 0 <= i < |entries| ensures entries[i].seqNo == i && entries[i].kind in KINDS {
      assert MadeAt(entries, i);
      var op :| Made(entries[i], op);
    }
  }

  lemma ServedLoads(saved: seq<Entry>, fetched: Fetched, loads: Loads)
    requires WellMade(saved) && Serves(saved, fetched, loads)
    ensures LoadLog(fetched, loads).Ok? && Open(LoadLog(fetched, loads).value) == Open(Some(saved))
  {
    MadeNumbered(saved);
    if saved == [] && SaysNone(fetched) {
      LoadsExactly(fetched, loads);
    } else {
      var state, step, attempt, dumps :| ServesBody(saved, fetched, loads, state, step, attempt, dumps);
      SavedLogLoads(saved, state, step, attempt, dumps, loads);
    }
  }

  /** Whatever the server answers about the stored log, a restart opens with exactly that
      log. */
  lemma RestartIs(j: Job, j': Job)
    requires WellMade(j.saved) && Restarts(j, j')
    ensures j' == Restarted(j)
  {
    var fetched, loads :| Serves(j.saved, fetched, loads) && RestartsFrom(j, j', fetched, loads);
    ServedLoads(j.saved, fetched, loads);
  }

  /** And a restart is always possible. */
  lemma RestartCan(j: Job)
    requires WellMade(j.saved)
    ensures Restarts(j, Restarted(j))
  {
    var log := Wire(j.saved);
    var loads: Loads := text => if text == "log" then Some(log) else None;
    var dumps: Dumps := _ => "log";
    var fetched := Body(ResumeBody(CheckpointBody(j.saved, Null, 0, "1", dumps)));
    assert ServesBody(j.saved, fetched, loads, Null, 0, "1", dumps);
    ServedLoads(j.saved, fetched, loads);
    assert RestartsFrom(j, Restarted(j), fetched, loads);
  }

  lemma RestartedInv(h: Handler, j: Job)
    requires Inv(h, j)
    ensures Inv(h, Restarted(j))
  {
  }

  lemma MoveInv(h: Handler, j: Job, j': Job)
    requires Inv(h, j) && Move(h, j, j')
    ensures Inv(h, j') && j'.loaded == j.loaded
  {
    if Store(h, j, j') {
      StoreInv(h, j, j');
    } else if Lose(h, j, j') {
      LoseInv(h, j, j');
    } else if Throw(h, j, j') {
      ThrowInv(h, j, j');
    } else if Alter(h, j, j') {
      AlterInv(h, j, j');
    } else {
      var outside :| Effect(h, j, j', outside);
      EffectDoes(h, j, j', outside);
    }
  }

  lemma StepInv(h: Handler, j: Job, j': Job)
    requires Inv(h, j) && Step(h, j, j')
    ensures Inv(h, j')
  {
    if Move(h, j, j') {
      MoveInv(h, j, j');
    } else {
      RestartIs(j, j');
      RestartedInv(h, j);
    }
  }

  // ------------------------------------------------------------------------ whole runs

  ghost predicate IsRun(h: Handler, run: seq<Job>) {
    run != [] && run[0] == Fresh() && forall k: nat | k + 1 < |run| :: StepsAt(h, run, k)
  }

  ghost predicate StepsAt(h: Handler, run: seq<Job>, k: nat)
    requires k + 1 < |run|
  {
    Step(h, run[k], run[k + 1])
  }

  ghost predicate MovesAt(h: Handler, run: seq<Job>, k: nat)
    requires k + 1 < |run|
  {
    Move(h, run[k], run[k + 1])
  }

  lemma RunLonger(h: Handler, run: seq<Job>, next: Job)
    requires IsRun(h, run) && Step(h, run[|run| - 1], next)
    ensures IsRun(h, run + [next])
  {
    var longer := run + [next];
    forall k: nat | k + 1 < |longer| ensures StepsAt(h, longer, k) {
      if k + 1 < |run| { assert StepsAt(h, run, k); }
    }
  }

  lemma {:induction false} RunInv(h: Handler, run: seq<Job>, k: nat)
    requires IsRun(h, run) && k < |run|
    ensures Inv(h, run[k])
  {
    if k == 0 {
      FreshInv(h);
    } else {
      RunInv(h, run, k - 1);
      assert StepsAt(h, run, k - 1);
      StepInv(h, run[k - 1], run[k]);
    }
  }

  /** Both logs are numbered by position and hold known kinds only, in every run. */
  lemma LogsNumbered(h: Handler, run: seq<Job>, k: nat)
    requires IsRun(h, run) && k < |run|
    ensures Numbered(run[k].ctx.entries) && Numbered(run[k].saved)
  {
    RunInv(h, run, k);
    MadeNumbered(run[k].ctx.entries);
    MadeNumbered(run[k].saved);
  }

  /** So whatever was checkpointed last, the next attempt starts from exactly that log. */
  lemma SavedLogRestarts(h: Handler, run: seq<Job>, k: nat, state: Json, step: int, attempt: string, dumps: Dumps,
                         loads: Loads)
    requires IsRun(h, run) && k < |run|
    requires loads("") == None && loads(dumps(Wire(run[k].saved))) == Some(Wire(run[k].saved))
    ensures var body := ResumeBody(CheckpointBody(run[k].saved, state, step, attempt, dumps));
      LoadLog(Body(body), loads) == Ok(Some(run[k].saved))
  {
    LogsNumbered(h, run, k);
    SavedLogLoads(run[k].saved, state, step, attempt, dumps, loads);
  }

  lemma StepKeeps(h: Handler, before: Job, after: Job)
    requires Inv(h, before) && Step(h, before, after)
    ensures |before.saved| <= |after.saved| && before.ran <= after.ran
    ensures forall m | |before.ran| <= m < |after.ran| :: after.ran[m] >= |before.saved|
  {
    if outside :| Effect(h, before, after, outside) {
      EffectDoes(h, before, after, outside);
    }
  }

  lemma RunKeeps(h: Handler, run: seq<Job>, k: nat)
    requires IsRun(h, run) && 0 < k < |run|
    ensures |run[k - 1].saved| <= |run[k].saved| && run[k - 1].ran <= run[k].ran
    ensures forall m | |run[k - 1].ran| <= m < |run[k].ran| :: run[k].ran[m] >= |run[k - 1].saved|
  {
    RunInv(h, run, k - 1);
    assert StepsAt(h, run, k - 1);
    StepKeeps(h, run[k - 1], run[k]);
  }

  /** After a checkpoint no effect in it is ever run again: all effects run later are at
      positions beyond it. */
  lemma {:induction false} EffectsNeverRerun(h: Handler, run: seq<Job>, i: nat, k: nat)
    requires IsRun(h, run) && i <= k < |run|
    ensures run[i].ran <= run[k].ran && |run[i].saved| <= |run[k].saved|
    ensures forall m | |run[i].ran| <= m < |run[k].ran| :: run[k].ran[m] >= |run[i].saved|
  {
    if i < k {
      EffectsNeverRerun(h, run, i, k - 1);
      RunKeeps(h, run, k);
      LaterEffects(run[i], run[k - 1], run[k]);
    }
  }

  lemma LaterEffects(first: Job, before: Job, after: Job)
    requires first.ran <= before.ran <= after.ran && |first.saved| <= |before.saved|
    requires forall m | |first.ran| <= m < |before.ran| :: before.ran[m] >= |first.saved|
    requires forall m | |before.ran| <= m < |after.ran| :: after.ran[m] >= |before.saved|
    ensures forall m | |first.ran| <= m < |after.ran| :: after.ran[m] >= |first.saved|
  {
    forall m | |first.ran| <= m < |after.ran| ensures after.ran[m] >= |first.saved| {
      if m < |before.ran| { assert after.ran[m] == before.ran[m]; }
    }
  }
}
