/** When a replay is refused, and handlers that never are
    (src/ojs/durable/context.py:208-230). */
module DurableRefusals {
  import opened JsonValue
  import opened ReplayLog
  import opened DurableContext
  import opened DurableRuns

  // --------------------------------------------------------- exactly when it is refused

  /** Some way of retracing the log comes to an operation that the next entry does not
      answer. */
  ghost predicate Misfit(h: Handler, log: seq<Entry>) {
    exists story :: MisfitAt(h, log, story)
  }

  /** A replay so far: nothing was refused, and nothing thrown, as no effect is run. */
  predicate Retraced(story: seq<Reply>) {
    forall i | 0 <= i < |story| :: !story[i].Threw? && !story[i].Refused?
  }

  predicate MisfitAt(h: Handler, log: seq<Entry>, story: seq<Reply>) {
    && Retraced(story) && Follows(h, story)
    && Given(h, story) <= log && |Given(h, story)| < |log|
    && h(story).Do? && !Suits(h(story).op, log[|Given(h, story)|])
  }

  /** The first refusal of an attempt means that the log it started from has a misfit. */
  lemma RefusalIsMisfit(h: Handler, j: Job, j': Job)
    requires Inv(h, j) && Move(h, j, j') && Refused !in j.history && Refused in j'.history
    ensures MisfitAt(h, j.loaded, j.history) && j.ctx.replaying
  {
    var outside :| Effect(h, j, j', outside);
    EffectDoes(h, j, j', outside);
    LeftLength(h, j.history);
    forall i | 0 <= i < |j.history| ensures !j.history[i].Threw? && !j.history[i].Refused? {
      assert j.history[i] in j.history;
    }
  }

  /** The steps of one attempt. */
  ghost predicate Moves(h: Handler, path: seq<Job>) {
    path != [] && forall k: nat | k + 1 < |path| :: MovesAt(h, path, k)
  }

  /** One attempt, from one state to another. */
  ghost predicate Attempt(h: Handler, path: seq<Job>, from: Job, to: Job) {
    Moves(h, path) && path[0] == from && path[|path| - 1] == to
  }

  lemma AttemptLonger(h: Handler, path: seq<Job>, from: Job, to: Job, next: Job)
    requires Attempt(h, path, from, to) && Move(h, to, next)
    ensures Attempt(h, path + [next], from, next)
  {
    var longer := path + [next];
    forall k: nat | k + 1 < |longer| ensures MovesAt(h, longer, k) {
      if k + 1 < |path| { assert MovesAt(h, path, k); }
    }
  }

  /** An attempt started from the log has retraced the story. */
  predicate HasRetraced(h: Handler, j: Job, log: seq<Entry>, story: seq<Reply>) {
    && j.history == story && j.loaded == log && j.ctx.replaying
    && j.ctx.cursor == |Given(h, story)| < |log| == |j.ctx.entries|
    && j.ctx.entries[|Given(h, story)|..] == log[|Given(h, story)|..]
  }

  lemma RetraceStep(h: Handler, j: Job, log: seq<Entry>, story: seq<Reply>, reply: Reply) returns (next: Job)
    requires HasRetraced(h, j, log, story)
    requires WellMade(log) && Retraced(story + [reply]) && Follows(h, story + [reply])
    requires Given(h, story + [reply]) <= log && |Given(h, story + [reply])| < |log|
    ensures Move(h, j, next) && HasRetraced(h, next, log, story + [reply])
  {
    var longer := story + [reply];
    assert longer[..|story|] == story && AnsweredAt(h, longer, |story|);
    assert !longer[|story|].Threw? && !longer[|story|].Refused?;
    GivenOfReply(h, story, reply);
    var c := |Given(h, story)|;
    match h(story) {
      case Do(op) =>
        assert Given(h, longer)[c] == EntryOf(c, op, reply.value) == log[c] == j.ctx.entries[c];
        next := j.(ctx := Consumed(j.ctx), history := longer);
        assert Effect(h, j, next, reply.value);
      case Save =>
        next := if reply.Saved? then j.(saved := j.ctx.entries, history := longer) else j.(history := longer);
        assert Store(h, j, next) || Lose(h, j, next);
      case Change(at, value) =>
        var seen := Altered(j.ctx.entries[..c], at, value);
        next := j.(ctx := j.ctx.(entries := seen + j.ctx.entries[c..]), history := longer);
        assert Alter(h, j, next);
    }
  }

  lemma FollowsPrefix(h: Handler, story: seq<Reply>, n: nat)
    requires n <= |story| && Follows(h, story)
    ensures Follows(h, story[..n])
  {
    forall i: nat | i < n ensures AnsweredAt(h, story[..n], i) {
      assert AnsweredAt(h, story, i) && story[..n][..i] == story[..i];
    }
  }

  lemma PrefixRetraced(h: Handler, story: seq<Reply>, n: nat)
    requires n <= |story| && Retraced(story) && Follows(h, story)
    ensures Retraced(story[..n]) && Follows(h, story[..n]) && Given(h, story[..n]) <= Given(h, story)
  {
    GivenGrows(h, story, n);
    FollowsPrefix(h, story, n);
  }

  lemma {:induction false} Retrace(h: Handler, j: Job, story: seq<Reply>) returns (path: seq<Job>, at: Job)
    requires WellMade(j.saved) && Retraced(story) && Follows(h, story)
    requires Given(h, story) <= j.saved && |Given(h, story)| < |j.saved|
    ensures Attempt(h, path, Restarted(j), at) && HasRetraced(h, at, j.saved, story)
    decreases |story|
  {
    if story == [] {
      path, at := [Restarted(j)], Restarted(j);
    } else {
      var n := |story| - 1;
      PrefixRetraced(h, story, n);
      assert story == story[..n] + [story[n]];
      var before;
      path, before := Retrace(h, j, story[..n]);
      at := RetraceStep(h, before, j.saved, story[..n], story[n]);
      AttemptLonger(h, path, Restarted(j), before, at);
      path := path + [at];
    }
  }

  lemma MovesInv(h: Handler, path: seq<Job>, k: nat)
    requires 0 < k < |path| && Moves(h, path) && Inv(h, path[k - 1])
    ensures Inv(h, path[k]) && path[k].loaded == path[k - 1].loaded
  {
    assert MovesAt(h, path, k - 1);
    MoveInv(h, path[k - 1], path[k]);
  }

  lemma {:induction false} AttemptInv(h: Handler, path: seq<Job>, k: nat)
    requires Moves(h, path) && Inv(h, path[0]) && k < |path|
    ensures Inv(h, path[k]) && path[k].loaded == path[0].loaded
    decreases k
  {
    if k > 0 {
      AttemptInv(h, path, k - 1);
      MovesInv(h, path, k);
    }
  }

  lemma {:induction false} FirstRefusal(h: Handler, path: seq<Job>, k: nat)
    requires Moves(h, path) && Inv(h, path[0]) && path[0].history == []
    requires k < |path| && Refused in path[k].history
    ensures Misfit(h, path[0].loaded)
    decreases k
  {
    assert k > 0;
    AttemptInv(h, path, k - 1);
    assert MovesAt(h, path, k - 1);
    if Refused in path[k - 1].history {
      FirstRefusal(h, path, k - 1);
    } else {
      RefusalIsMisfit(h, path[k - 1], path[k]);
    }
  }

  /** An attempt started from a checkpointed log can be refused exactly when the log has a
      misfit. */
  lemma RefusedExactly(h: Handler, j: Job)
    requires Inv(h, j)
    ensures Misfit(h, j.saved) <==>
              exists path, at :: Attempt(h, path, Restarted(j), at) && Refused in at.history
  {
    if Misfit(h, j.saved) {
      var story :| MisfitAt(h, j.saved, story);
      var path, at := Retrace(h, j, story);
      var refused := at.(history := story + [Refused]);
      assert at.ctx.entries[at.ctx.cursor] == at.ctx.entries[at.ctx.cursor..][0] == j.saved[at.ctx.cursor];
      assert Effect(h, at, refused, Str(""));
      AttemptLonger(h, path, Restarted(j), at, refused);
      assert refused.history[|story|] == Refused;
    }
    if path, at :| Attempt(h, path, Restarted(j), at) && Refused in at.history {
      RestartedInv(h, j);
      FirstRefusal(h, path, |path| - 1);
    }
  }

  // ------------------------------------------------------------- handlers never refused

  /** A history without exceptions. */
  predicate Plain(story: seq<Reply>) {
    forall i | 0 <= i < |story| :: Good(story[i])
  }

  predicate Good(reply: Reply) {
    !reply.Threw? && !reply.Refused? && !reply.SaveFailed?
  }

  /** The log of some history without exceptions. */
  ghost predicate Replayable(h: Handler, log: seq<Entry>) {
    exists story :: Plain(story) && Follows(h, story) && Given(h, story) == log
  }

  /** Two histories without exceptions whose logs agree run along each other. */
  lemma {:induction false} RunsAlong(h: Handler, a: seq<Reply>, b: seq<Reply>, n: nat)
    requires n <= |a| && n <= |b| && Plain(a) && Plain(b) && Follows(h, a) && Follows(h, b)
    requires Given(h, a) <= Given(h, b)
    ensures a[..n] == b[..n]
  {
    if n > 0 {
      RunsAlong(h, a, b, n - 1);
      SameNext(h, a, b, n - 1);
    }
  }

  lemma SameNext(h: Handler, a: seq<Reply>, b: seq<Reply>, n: nat)
    requires n < |a| && n < |b| && Plain(a) && Plain(b) && Follows(h, a) && Follows(h, b)
    requires Given(h, a) <= Given(h, b) && a[..n] == b[..n]
    ensures a[..n + 1] == b[..n + 1]
  {
    GoodNext(h, a, a[..n]);
    GoodNext(h, b, a[..n]);
    SameReply(h, a[..n], a[n], b[n], Given(h, b));
  }

  lemma GoodNext(h: Handler, whole: seq<Reply>, story: seq<Reply>)
    requires Plain(whole) && Follows(h, whole) && |story| < |whole| && whole[..|story|] == story
    ensures Good(whole[|story|]) && Answers(h(story), whole[|story|])
    ensures Given(h, story + [whole[|story|]]) <= Given(h, whole)
    ensures whole[..|story| + 1] == story + [whole[|story|]]
  {
    NextOfWhole(h, whole, story);
    OneLonger(whole, story);
  }

  /** Two replies that one log tells of are the same. */
  lemma SameReply(h: Handler, before: seq<Reply>, x: Reply, y: Reply, log: seq<Entry>)
    requires Good(x) && Good(y) && Answers(h(before), x) && Answers(h(before), y)
    requires Given(h, before + [x]) <= log && Given(h, before + [y]) <= log
    ensures x == y
  {
    GivenOfReply(h, before, x);
    GivenOfReply(h, before, y);
    if h(before).Do? {
      var c := |Given(h, before)|;
      assert Given(h, before + [x])[c] == log[c] == Given(h, before + [y])[c];
    }
  }

  /** Retraced without exceptions, such a log answers every operation. */
  lemma RetracedFits(h: Handler, whole: seq<Reply>, story: seq<Reply>)
    requires Plain(whole) && Follows(h, whole) && Plain(story) && Follows(h, story)
    requires Given(h, story) <= Given(h, whole) && |Given(h, story)| < |Given(h, whole)| && h(story).Do?
    ensures Suits(h(story).op, Given(h, whole)[|Given(h, story)|])
  {
    RetracedShorter(h, whole, story);
    var n := |story|;
    RunsAlong(h, story, whole, n);
    assert story[..n] == story;
    NextOfWhole(h, whole, story);
    NextSuits(h, story, whole[n], Given(h, whole));
  }

  lemma NextOfWhole(h: Handler, whole: seq<Reply>, story: seq<Reply>)
    requires Follows(h, whole) && |story| < |whole| && whole[..|story|] == story
    ensures Answers(h(story), whole[|story|]) && Given(h, story + [whole[|story|]]) <= Given(h, whole)
  {
    GivenGrows(h, whole, |story| + 1);
    OneLonger(whole, story);
    AnswerAt(h, whole, |story|);
  }

  lemma OneLonger(whole: seq<Reply>, story: seq<Reply>)
    requires |story| < |whole| && whole[..|story|] == story
    ensures whole[..|story| + 1] == story + [whole[|story|]]
  {
  }

  lemma AnswerAt(h: Handler, whole: seq<Reply>, n: nat)
    requires Follows(h, whole) && n < |whole|
    ensures Answers(h(whole[..n]), whole[n])
  {
    assert AnsweredAt(h, whole, n);
  }

  lemma NextSuits(h: Handler, story: seq<Reply>, reply: Reply, log: seq<Entry>)
    requires h(story).Do? && reply.Value? && Given(h, story + [reply]) <= log
    ensures |Given(h, story)| < |log| && Suits(h(story).op, log[|Given(h, story)|])
  {
    GivenOfReply(h, story, reply);
    var c := |Given(h, story)|;
    assert log[c] == Given(h, story + [reply])[c] == EntryOf(c, h(story).op, reply.value);
  }

  lemma RetracedShorter(h: Handler, whole: seq<Reply>, story: seq<Reply>)
    requires Plain(whole) && Follows(h, whole) && Plain(story) && Follows(h, story)
    requires Given(h, story) <= Given(h, whole) && |Given(h, story)| < |Given(h, whole)|
    ensures |story| < |whole|
  {
    assert whole[..|whole|] == whole;
    if |story| >= |whole| {
      GivenGrows(h, story, |whole|);
      RunsAlong(h, story, whole, |whole|);
      assert false;
    }
  }

  /** The history with the exceptions left out: what failed was done again, or a failed
      checkpoint was taken for saved. */
  function Calmed(h: Handler, story: seq<Reply>): seq<Reply> {
    if story == [] then []
    else
      var before, last := Calmed(h, story[..|story| - 1]), story[|story| - 1];
      if last.Threw? || last.Refused? then before
      else if last.SaveFailed? then (if h(story) == h(before) then before else before + [Saved])
      else before + [last]
  }

  /** After an exception the handler ends, or goes on as if nothing had been thrown. */
  ghost predicate Forgets(h: Handler) {
    forall story :: Refused !in story ==> ForgetsAt(h, story)
  }

  predicate ForgetsAt(h: Handler, story: seq<Reply>) {
    h(story).Finish? || h(story) == h(Calmed(h, story))
  }

  lemma {:induction false} CalmedPlain(h: Handler, story: seq<Reply>)
    ensures Plain(Calmed(h, story)) && (Plain(story) ==> Calmed(h, story) == story)
  {
    if story != [] {
      CalmedPlain(h, story[..|story| - 1]);
      assert story == story[..|story| - 1] + [story[|story| - 1]];
    }
  }

  /** Leaving out the exceptions leaves a history of the handler, with the same values. */
  lemma {:induction false} CalmedFollows(h: Handler, story: seq<Reply>)
    requires Forgets(h) && Follows(h, story) && Refused !in story
    ensures Follows(h, Calmed(h, story)) && Given(h, Calmed(h, story)) == Given(h, story)
  {
    if story != [] {
      var before, last := story[..|story| - 1], story[|story| - 1];
      FollowsShorter(h, before, last, story);
      CalmedFollows(h, before);
      assert ForgetsAt(h, before);
      CalmedReply(h, before, Calmed(h, before), last);
    }
  }

  lemma FollowsShorter(h: Handler, before: seq<Reply>, last: Reply, story: seq<Reply>)
    requires Follows(h, story) && story == before + [last]
    ensures Follows(h, before) && Answers(h(before), last)
  {
    assert story[..|before|] == before && AnsweredAt(h, story, |before|);
    FollowsPrefix(h, story, |before|);
  }

  /** One more reply to a history and to the same history with the exceptions left out. */
  lemma CalmedReply(h: Handler, before: seq<Reply>, calm: seq<Reply>, last: Reply)
    requires Follows(h, calm) && Given(h, calm) == Given(h, before) && h(calm) == h(before)
    requires Answers(h(before), last)
    ensures last.Threw? || last.SaveFailed? ==> Given(h, before + [last]) == Given(h, calm)
    ensures !last.Threw? && !last.SaveFailed? ==>
              Follows(h, calm + [last]) && Given(h, calm + [last]) == Given(h, before + [last])
    ensures last.SaveFailed? ==> Follows(h, calm + [Saved]) && Given(h, calm + [Saved]) == Given(h, calm)
  {
    GivenOfReply(h, before, last);
    GivenOfReply(h, calm, last);
    GivenOfReply(h, calm, Saved);
    if last.SaveFailed? {
      FollowsLonger(h, calm, Saved);
    } else if !last.Threw? {
      FollowsLonger(h, calm, last);
    }
  }

  /** Neither a side effect nor a checkpoint raised. */
  predicate Unraised(story: seq<Reply>) {
    forall i | 0 <= i < |story| :: !story[i].Threw? && !story[i].SaveFailed?
  }

  lemma UnraisedIsPlain(story: seq<Reply>)
    requires Unraised(story) && Refused !in story
    ensures Plain(story)
  {
    forall i | 0 <= i < |story| ensures Good(story[i]) {
      assert story[i] in story;
    }
  }

  /** If the log is stored in this step, no value in it stands otherwise than it was given. */
  ghost predicate FaithfulAt(h: Handler, run: seq<Job>, t: nat)
    requires t + 1 < |run|
  {
    Store(h, run[t], run[t + 1]) ==> Left(h, run[t].history) == Given(h, run[t].history)
  }

  /** If the log is stored in this step, or still being replayed, nothing has been raised in
      this attempt. */
  ghost predicate CalmAt(h: Handler, run: seq<Job>, t: nat)
    requires t + 1 < |run|
  {
    Store(h, run[t], run[t + 1]) || run[t].ctx.replaying ==> Unraised(run[t].history)
  }

  ghost predicate Faithful(h: Handler, run: seq<Job>, k: nat)
    requires k < |run|
  {
    forall t: nat | t < k :: FaithfulAt(h, run, t)
  }

  ghost predicate Calm(h: Handler, run: seq<Job>, k: nat)
    requires k < |run|
  {
    forall t: nat | t < k :: CalmAt(h, run, t)
  }

  /** The history as one without exceptions. */
  lemma Calming(h: Handler, story: seq<Reply>) returns (calm: seq<Reply>)
    requires Follows(h, story) && Refused !in story && (Forgets(h) || Unraised(story))
    ensures Plain(calm) && Follows(h, calm) && Given(h, calm) == Given(h, story)
    ensures h(story).Do? ==> h(calm) == h(story)
  {
    if Unraised(story) {
      UnraisedIsPlain(story);
      calm := story;
    } else {
      calm := Calmed(h, story);
      CalmedPlain(h, story);
      CalmedFollows(h, story);
      assert ForgetsAt(h, story);
    }
  }

  /** No operation is refused that replays the log of a history without exceptions. */
  lemma NotRefused(h: Handler, j: Job, j': Job)
    requires Inv(h, j) && Move(h, j, j') && Refused !in j.history
    requires Replayable(h, j.loaded) && (Forgets(h) || (j.ctx.replaying ==> Unraised(j.history)))
    ensures Refused !in j'.history
  {
    if Refused in j'.history {
      RefusalIsMisfit(h, j, j');
      var whole :| Plain(whole) && Follows(h, whole) && Given(h, whole) == j.loaded;
      var calm := Calming(h, j.history);
      RetracedFits(h, whole, calm);
      assert false;
    }
  }

  /** What is stored is then the log of a history without exceptions again. */
  lemma StoredReplayable(h: Handler, j: Job, j': Job)
    requires Inv(h, j) && Store(h, j, j') && Refused !in j.history && Left(h, j.history) == Given(h, j.history)
    requires Replayable(h, j.loaded) && (Forgets(h) || Unraised(j.history))
    ensures Replayable(h, j'.saved)
  {
    if j.ctx.replaying {
      LeftLength(h, j.history);
      assert j.ctx.entries == j.loaded;
    } else {
      var calm := Calming(h, j.history);
      assert j.ctx.entries[..|j.ctx.entries|] == j.ctx.entries;
      assert Given(h, calm) == j'.saved;
    }
  }

  lemma StepStores(h: Handler, j: Job, j': Job)
    requires Inv(h, j) && Step(h, j, j') && !Store(h, j, j')
    ensures j'.saved == j.saved && (j'.loaded == j.loaded || j'.loaded == j.saved)
  {
    if outside :| Effect(h, j, j', outside) {
      EffectDoes(h, j, j', outside);
    } else if !Move(h, j, j') {
      RestartIs(j, j');
    }
  }

  ghost predicate Unrefused(h: Handler, j: Job) {
    Refused !in j.history && Replayable(h, j.saved) && Replayable(h, j.loaded)
  }

  lemma RunStepUnrefused(h: Handler, run: seq<Job>, k: nat)
    requires IsRun(h, run) && k + 1 < |run| && Unrefused(h, run[k])
    requires FaithfulAt(h, run, k) && (Forgets(h) || CalmAt(h, run, k))
    ensures Unrefused(h, run[k + 1])
  {
    var j, j' := run[k], run[k + 1];
    RunInv(h, run, k);
    assert StepsAt(h, run, k);
    if Move(h, j, j') { NotRefused(h, j, j'); }
    if Store(h, j, j') { StoredReplayable(h, j, j'); } else { StepStores(h, j, j'); }
  }

  lemma {:induction false} RunUnrefused(h: Handler, run: seq<Job>, k: nat)
    requires IsRun(h, run) && k < |run| && Faithful(h, run, k) && (Forgets(h) || Calm(h, run, k))
    ensures Unrefused(h, run[k])
    decreases k
  {
    if k == 0 {
      assert Plain([]) && Follows(h, []) && Given(h, []) == [];
    } else {
      RunUnrefused(h, run, k - 1);
      assert FaithfulAt(h, run, k - 1);
      assert Forgets(h) || CalmAt(h, run, k - 1);
      RunStepUnrefused(h, run, k - 1);
    }
  }

  /** As long as whatever is stored stands as it was given, a handler that forgets exceptions
      is never refused a replay; nor is any handler as long as, besides, nothing is raised
      before a checkpoint of the same attempt or while replaying. */
  lemma NeverRefused(h: Handler, run: seq<Job>, k: nat)
    requires IsRun(h, run) && k < |run| && Faithful(h, run, k) && (Forgets(h) || Calm(h, run, k))
    ensures Refused !in run[k].history
  {
    RunUnrefused(h, run, k);
  }
}
