/** Handlers that are never refused a replay, and two that are
    (src/ojs/durable/context.py:131-189, src/ojs/durable/context.py:208-230). */
module DurableHandlers {
  import opened JsonValue
  import opened ReplayLog
  import opened DurableContext
  import opened DurableRuns
  import opened DurableRefusals

  // ------------------------------------------------------------- handlers that forget

  function Stripped(story: seq<Reply>): seq<Reply> {
    if story == [] then []
    else Stripped(story[..|story| - 1]) + if Good(story[|story| - 1]) then [story[|story| - 1]] else []
  }

  /** Does again whatever raised, and otherwise what g does when nothing raises. */
  function Retrying(g: Handler): Handler {
    story => g(Stripped(story))
  }

  lemma {:induction false} StrippedPlain(story: seq<Reply>)
    requires Plain(story)
    ensures Stripped(story) == story
  {
    if story != [] {
      assert Good(story[|story| - 1]);
      StrippedPlain(story[..|story| - 1]);
    }
  }

  lemma {:induction false} CalmedIsStripped(g: Handler, story: seq<Reply>)
    ensures Calmed(Retrying(g), story) == Stripped(story)
  {
    if story != [] {
      var before := story[..|story| - 1];
      CalmedIsStripped(g, before);
      CalmedPlain(Retrying(g), before);
      StrippedPlain(Stripped(before));
      if !Good(story[|story| - 1]) {
        assert Stripped(story) == Stripped(before) + [] == Stripped(before);
        assert Retrying(g)(story) == g(Stripped(story)) && Retrying(g)(Stripped(before)) == g(Stripped(before));
      }
    }
  }

  lemma RetryingForgets(g: Handler)
    ensures Forgets(Retrying(g))
  {
    forall story ensures ForgetsAt(Retrying(g), story) {
      CalmedIsStripped(g, story);
      CalmedPlain(Retrying(g), story);
      StrippedPlain(Stripped(story));
    }
  }

  /** Ends on any exception. */
  ghost predicate EndsOnExceptions(h: Handler) {
    forall story :: Plain(story) || h(story).Finish?
  }

  lemma EndingForgets(h: Handler)
    requires EndsOnExceptions(h)
    ensures Forgets(h)
  {
    forall story ensures ForgetsAt(h, story) {
      CalmedPlain(h, story);
      assert Plain(story) || h(story).Finish?;
    }
  }

  /** Fetches a list, checkpoints, takes everything out of the list and ends; ends on any
      exception. */
  function Consuming(story: seq<Reply>): Action {
    if !Plain(story) then Finish
    else
      match |story|
      case 0 => Do(Call("a"))
      case 1 => Save
      case 2 => Change(0, Arr([]))
      case _ => Finish
  }

  /** It is never refused: it changes the list only after its last checkpoint. */
  lemma ConsumingNeverRefused(run: seq<Job>, k: nat)
    requires IsRun(Consuming, run) && k < |run|
    ensures Refused !in run[k].history
  {
    forall t: nat | t < k ensures FaithfulAt(Consuming, run, t) {
      if Store(Consuming, run[t], run[t + 1]) { LeftOfOne(Consuming, run[t].history); }
    }
    EndingForgets(Consuming);
    NeverRefused(Consuming, run, k);
  }

  lemma LeftOfOne(h: Handler, story: seq<Reply>)
    requires |story| == 1 && !h([]).Change?
    ensures Left(h, story) == Given(h, story)
  {
    assert story == [] + [story[0]];
    LeftOfReply(h, [], story[0]);
    GivenOfReply(h, [], story[0]);
  }

  // ----------------------------------------------------------- a handler that is refused

  /** Tries "a"; when that raises, does "b" instead, and checkpoints. */
  function Falling(story: seq<Reply>): Action {
    if story == [] then Do(Call("a"))
    else if story == [Threw] then Do(Call("b"))
    else if |story| == 2 && story[0].Threw? then Save
    else Finish
  }

  /** What it has after the first n steps: "a" raises, "b" is done and saved, and then a
      crash. */
  function FellAt(value: Json, n: nat): Job {
    var b := EntryOf(0, Call("b"), value);
    var history := [Threw, Value(value), Saved];
    match n
    case 0 => Fresh()
    case 1 => Job(Ctx([], 0, false), history[..1], [], [], [0])
    case 2 => Job(Ctx([b], 0, false), history[..2], [], [], [0, 0])
    case 3 => Job(Ctx([b], 0, false), history, [], [b], [0, 0])
    case 4 => Job(Ctx([b], 0, true), [], [b], [b], [0, 0])
    case _ => Job(Ctx([b], 0, true), [Refused], [b], [b], [0, 0])
  }

  lemma FallsBack(value: Json)
    ensures Step(Falling, FellAt(value, 0), FellAt(value, 1)) && Step(Falling, FellAt(value, 1), FellAt(value, 2))
  {
    assert FellAt(value, 1).history + [Value(value)] == FellAt(value, 2).history;
    assert Throw(Falling, FellAt(value, 0), FellAt(value, 1));
    assert Effect(Falling, FellAt(value, 1), FellAt(value, 2), value);
  }

  lemma SavesFallback(value: Json)
    ensures Step(Falling, FellAt(value, 2), FellAt(value, 3)) && Step(Falling, FellAt(value, 3), FellAt(value, 4))
  {
    assert FellAt(value, 2).history + [Saved] == FellAt(value, 3).history;
    assert Store(Falling, FellAt(value, 2), FellAt(value, 3));
    OneMade(Call("b"), value);
    RestartCan(FellAt(value, 3));
    assert Restarted(FellAt(value, 3)) == FellAt(value, 4);
  }

  lemma FindsOther(value: Json)
    ensures Step(Falling, FellAt(value, 4), FellAt(value, 5))
  {
    assert "a" != "b";
    assert [] + [Refused] == [Refused];
    assert Effect(Falling, FellAt(value, 4), FellAt(value, 5), value);
  }

  lemma {:induction false} FallingRun(value: Json, n: nat) returns (run: seq<Job>)
    requires n <= 5
    ensures IsRun(Falling, run) && run[|run| - 1] == FellAt(value, n)
  {
    if n == 0 {
      run := [Fresh()];
    } else {
      run := FallingRun(value, n - 1);
      if n <= 2 { FallsBack(value); } else if n <= 4 { SavesFallback(value); } else { FindsOther(value); }
      RunLonger(Falling, run, FellAt(value, n));
      run := run + [FellAt(value, n)];
    }
  }

  /** "a" raises and is caught, "b" is recorded and checkpointed; after a crash "a" is asked
      for and finds the entry of "b". */
  lemma CaughtIsRefused(value: Json) returns (run: seq<Job>)
    ensures IsRun(Falling, run) && Faithful(Falling, run, |run| - 1) && run[|run| - 1].history == [Refused]
    ensures !Forgets(Falling)
  {
    run := FallingRun(value, 5);
    NeverChanging(Falling, run, |run| - 1);
    assert !ForgetsAt(Falling, [Threw]);
  }

  /** Fetches a list; does "b" when there is something in it, takes it out and checkpoints;
      does "c" when there is nothing. */
  function Wavering(story: seq<Reply>): Action {
    match |story|
    case 0 => Do(Call("a"))
    case 1 => if story[0] == Value(Arr([])) then Do(Call("c")) else Do(Call("b"))
    case 2 => Change(0, Arr([]))
    case 3 => Save
    case _ => Finish
  }

  function ListOf(items: seq<Json>): Entry {
    EntryOf(0, Call("a"), Arr(items))
  }

  /** Its first attempt: what it has after the first n steps. */
  function Wavered(item: Json, b: Json, n: nat): Job {
    var list, second := ListOf([item]), EntryOf(1, Call("b"), b);
    var history := [Value(Arr([item])), Value(b), Changed, Saved];
    match n
    case 0 => Fresh()
    case 1 => Job(Ctx([list], 0, false), history[..1], [], [], [0])
    case 2 => Job(Ctx([list, second], 0, false), history[..2], [], [], [0, 1])
    case 3 => Job(Ctx([ListOf([]), second], 0, false), history[..3], [], [], [0, 1])
    case _ => Job(Ctx([ListOf([]), second], 0, false), history, [], [ListOf([]), second], [0, 1])
  }

  /** The attempt that finds the emptied list at the server. */
  function Emptied(b: Json): Job {
    var log := [ListOf([]), EntryOf(1, Call("b"), b)];
    Job(Ctx(log, 0, true), [], log, log, [0, 1])
  }

  lemma Fetches(item: Json, b: Json)
    ensures Step(Wavering, Wavered(item, b, 0), Wavered(item, b, 1))
    ensures Step(Wavering, Wavered(item, b, 1), Wavered(item, b, 2))
  {
    var given, both := Wavered(item, b, 1), Wavered(item, b, 2);
    assert [] + [Value(Arr([item]))] == given.history && given.history + [Value(b)] == both.history;
    assert [ListOf([item])] + [EntryOf(1, Call("b"), b)] == both.ctx.entries;
    assert Effect(Wavering, Fresh(), given, Arr([item])) && Effect(Wavering, given, both, b);
  }

  lemma TakesOut(item: Json, b: Json)
    ensures Step(Wavering, Wavered(item, b, 2), Wavered(item, b, 3))
  {
    var both, emptied := Wavered(item, b, 2), Wavered(item, b, 3);
    var c := both.ctx.entries;
    assert both.history + [Changed] == emptied.history;
    assert c[..2] == c && Altered(c[..2], 0, Arr([])) + c[2..] == emptied.ctx.entries;
    assert Alter(Wavering, both, emptied);
  }

  lemma StoresEmpty(item: Json, b: Json)
    ensures Step(Wavering, Wavered(item, b, 3), Wavered(item, b, 4))
    ensures Step(Wavering, Wavered(item, b, 4), Emptied(b))
  {
    assert Wavered(item, b, 3).history + [Saved] == Wavered(item, b, 4).history;
    assert Store(Wavering, Wavered(item, b, 3), Wavered(item, b, 4));
    OneMade(Call("a"), Arr([]));
    MadeLonger([ListOf([])], Call("b"), b);
    assert [ListOf([])] + [EntryOf(1, Call("b"), b)] == Wavered(item, b, 4).saved;
    RestartCan(Wavered(item, b, 4));
  }

  lemma FindsNothing(b: Json) returns (seen: Job, refused: Job)
    ensures Step(Wavering, Emptied(b), seen) && Step(Wavering, seen, refused)
    ensures seen.history == [Value(Arr([]))] && refused.history == [Value(Arr([])), Refused]
  {
    seen := Emptied(b).(ctx := Ctx(Emptied(b).ctx.entries, 1, true), history := [Value(Arr([]))]);
    refused := seen.(history := [Value(Arr([])), Refused]);
    assert "c" != "b";
    assert [] + [Value(Arr([]))] == seen.history && seen.history + [Refused] == refused.history;
    assert Effect(Wavering, Emptied(b), seen, Null) && Effect(Wavering, seen, refused, Null);
  }

  /** A run in which nothing is raised. */
  ghost predicate Unraising(h: Handler, run: seq<Job>) {
    IsRun(h, run) && forall k | 0 <= k < |run| :: Unraised(run[k].history)
  }

  lemma UnraisingLonger(h: Handler, run: seq<Job>, next: Job)
    requires Unraising(h, run) && Step(h, run[|run| - 1], next) && Unraised(next.history)
    ensures Unraising(h, run + [next])
  {
    RunLonger(h, run, next);
  }

  lemma WaversOn(item: Json, b: Json, n: nat)
    requires n < 4
    ensures Step(Wavering, Wavered(item, b, n), Wavered(item, b, n + 1)) && Unraised(Wavered(item, b, n).history)
  {
    match n
    case 2 => TakesOut(item, b);
    case 3 => StoresEmpty(item, b);
    case _ => Fetches(item, b);
  }

  lemma {:induction false} WaversFrom(item: Json, b: Json, n: nat) returns (run: seq<Job>)
    requires n <= 4
    ensures Unraising(Wavering, run) && run[|run| - 1] == Wavered(item, b, n)
  {
    if n == 0 {
      run := [Fresh()];
    } else {
      run := WaversFrom(item, b, n - 1);
      WaversOn(item, b, n - 1);
      UnraisingLonger(Wavering, run, Wavered(item, b, n));
      run := run + [Wavered(item, b, n)];
    }
  }

  /** Nothing is raised, but what is stored stands otherwise than it was given; after a crash
      "c" is asked for and finds the entry of "b". */
  lemma ChangedIsRefused(item: Json, b: Json) returns (run: seq<Job>)
    ensures Unraising(Wavering, run) && run[|run| - 1].history == [Value(Arr([])), Refused]
  {
    run := WaversFrom(item, b, 4);
    StoresEmpty(item, b);
    UnraisingLonger(Wavering, run, Emptied(b));
    run := run + [Emptied(b)];
    var seen, refused := FindsNothing(b);
    UnraisingLonger(Wavering, run, seen);
    run := run + [seen];
    UnraisingLonger(Wavering, run, refused);
    run := run + [refused];
  }

  /** What is stored stands as it was given if the handler changes nothing in place. */
  lemma NeverChanging(h: Handler, run: seq<Job>, k: nat)
    requires k < |run| && forall story :: !h(story).Change?
    ensures Faithful(h, run, k)
  {
    forall t: nat | t < k ensures FaithfulAt(h, run, t) {
      LeftIsGiven(h, run[t].history);
    }
  }

  lemma {:induction false} LeftIsGiven(h: Handler, story: seq<Reply>)
    requires forall story :: !h(story).Change?
    ensures Left(h, story) == Given(h, story)
  {
    if story != [] { LeftIsGiven(h, story[..|story| - 1]); }
  }
}
