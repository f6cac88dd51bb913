/** The lease of one execution and the retries that sleep inside it
    (src/ojs/worker/execution_retry.py, src/ojs/worker/execution_registry.py:69-77).

    Time passes between any two readings of the clock; how much is up to the environment. */
module ExecutionLease {
  import opened Numbers
  import opened Wrappers

  class Clock {
    var now: real

    constructor (now: real)
      ensures this.now == now
    {
      this.now := now;
    }

    method Pass(time: real)
      requires time >= 0.0
      modifies this
      ensures now == old(now) + time
    {
      now := now + time;
    }
  }

  /** A heartbeat answer that arrives `after` the one before it, and its milliseconds if
      it names any. */
  datatype Extension = Extension(after: real, milliseconds: Option<int>)

  /** One turn of the sleep: time between the two readings at the top, the extensions that
      arrive while it waits, whether the waiter on the event finished first, how late the
      wait ends, and the time between the two readings at the bottom. */
  datatype Turn = Turn(drift: real, extensions: seq<Extension>, noticed: bool, late: real, lag: real)

  predicate Forward(t: Turn) {
    t.drift >= 0.0 && t.late >= 0.0 && t.lag >= 0.0
    && forall k | 0 <= k < |t.extensions| :: t.extensions[k].after >= 0.0
  }

  function ExtensionsIn(turns: seq<Turn>): nat {
    if turns == [] then 0 else ExtensionsIn(turns[..|turns| - 1]) + |turns[|turns| - 1].extensions|
  }

  /** Waiting: the turns given are used up and the sleep is still going on. */
  datatype SleepEnd = Slept | Exhausted | Waiting

  // ------------------------------------------------------------------------ the sleep

  /** The clock and the deadline. */
  datatype Ticks = Ticks(now: real, deadline: real)

  function Extended(s: Ticks, visibility: real, milliseconds: Option<int>): Ticks {
    var duration := match milliseconds case None => visibility case Some(ms) => ms as real / 1000.0;
    s.(deadline := Greatest(s.deadline, s.now + duration))
  }

  function Arrived(s: Ticks, visibility: real, extensions: seq<Extension>): Ticks {
    if extensions == [] then s else
      var e := extensions[|extensions| - 1];
      var before := Arrived(s, visibility, extensions[..|extensions| - 1]);
      Extended(before.(now := before.now + e.after), visibility, e.milliseconds)
  }

  predicate Noticed(t: Turn) {
    t.noticed && t.extensions != []
  }

  /** One wait for the timer or an extension. The timer never ends it early. */
  function Waited(s: Ticks, visibility: real, time: real, t: Turn): Ticks {
    var a := Arrived(s, visibility, t.extensions);
    a.(now := (if Noticed(t) then a.now else Greatest(a.now, s.now + time)) + t.late)
  }

  /** What one turn comes to: the sleep goes on, or it gives up, `gap` after the reading
      `before`, at the top of the turn or at its bottom. */
  datatype Outcome = GoesOn(s: Ticks) | GivesUp(left: Ticks, before: real, gap: real, atTop: bool)

  /** One turn of the loop that begins before the goal. */
  function TakeTurn(s: Ticks, visibility: real, goal: real, t: Turn): Outcome {
    var drifted := s.(now := s.now + t.drift);
    if drifted.deadline <= drifted.now then GivesUp(drifted, s.now, t.drift, true)
    else
      var woken := Waited(drifted, visibility, Least(goal - s.now, drifted.deadline - drifted.now), t);
      if Noticed(t) || woken.now >= goal then GoesOn(woken)
      else
        var lagged := woken.(now := woken.now + t.lag);
        if lagged.deadline <= lagged.now then GivesUp(lagged, woken.now, t.lag, false) else GoesOn(lagged)
  }

  /** How a sleep ends, the turns it used, the clock and deadline it leaves, the reading of
      the clock before the last one, and the time between those two. */
  datatype Night = Night(end: SleepEnd, used: nat, left: Ticks, before: real, gap: real)

  /** `sleep_for_retry` from turn k on. */
  function Sleep(s: Ticks, visibility: real, goal: real, turns: seq<Turn>, k: nat): Night
    requires k <= |turns|
    decreases |turns| - k
  {
    if goal - s.now <= 0.0 then Night(Slept, k, s, s.now, 0.0)
    else if k == |turns| then Night(Waiting, k, s, s.now, 0.0)
    else
      match TakeTurn(s, visibility, goal, turns[k])
      case GivesUp(left, before, gap, atTop) => Night(Exhausted, if atTop then k else k + 1, left, before, gap)
      case GoesOn(next) => Sleep(next, visibility, goal, turns, k + 1)
  }

  lemma {:induction false} ArrivedForward(s: Ticks, visibility: real, extensions: seq<Extension>)
    requires forall k | 0 <= k < |extensions| :: extensions[k].after >= 0.0
    ensures Arrived(s, visibility, extensions).now >= s.now
    ensures Arrived(s, visibility, extensions).deadline >= s.deadline
  {
    if extensions != [] { ArrivedForward(s, visibility, extensions[..|extensions| - 1]); }
  }

  lemma TurnSafe(s: Ticks, visibility: real, goal: real, t: Turn)
    requires Forward(t) && s.now < goal
    ensures match TakeTurn(s, visibility, goal, t)
            case GoesOn(next) =>
              next.now >= s.now && next.deadline >= s.deadline && (t.extensions == [] ==> next.now >= goal)
            case GivesUp(left, before, gap, atTop) =>
              && left.now >= s.now && left.deadline >= s.deadline && left.deadline <= left.now
              && s.now <= before < goal && left.now == before + gap && gap == (if atTop then t.drift else t.lag)
  {
    var drifted := s.(now := s.now + t.drift);
    ArrivedForward(drifted, visibility, t.extensions);
  }

  /** The time between the two readings was the drift of the turn that was not used, or the
      lag of the last one used. */
  predicate ReadApart(turns: seq<Turn>, night: Night) {
    || (night.used < |turns| && night.gap == turns[night.used].drift)
    || (0 < night.used <= |turns| && night.gap == turns[night.used - 1].lag)
  }

  predicate AllForward(turns: seq<Turn>) {
    forall j | 0 <= j < |turns| :: Forward(turns[j])
  }

  /** It returns only at or after the goal; it gives up only when a reading before the goal
      is followed by one with no lease left, a drift or a lag later; neither the clock nor
      the deadline moves back. */
  lemma {:induction false} SleepSafe(s: Ticks, visibility: real, goal: real, turns: seq<Turn>, k: nat)
    requires k <= |turns| && AllForward(turns)
    ensures var night := Sleep(s, visibility, goal, turns, k);
      && night.left.now >= s.now && night.left.deadline >= s.deadline && k <= night.used <= |turns|
      && (night.end == Slept ==> night.left.now >= goal)
      && (night.end == Exhausted ==>
            && s.now <= night.before < goal && night.left.deadline <= night.left.now
            && night.left.now == night.before + night.gap && ReadApart(turns, night))
      && (night.end == Waiting ==> night.used == |turns| && night.left.now < goal)
    decreases |turns| - k
  {
    if s.now < goal && k < |turns| {
      TurnSafe(s, visibility, goal, turns[k]);
      match TakeTurn(s, visibility, goal, turns[k]) {
        case GoesOn(next) => SleepSafe(next, visibility, goal, turns, k + 1);
        case GivesUp(_, _, _, _) =>
      }
    }
  }

  /** However long the waits themselves take, no more than g passes between two readings of
      the clock that follow each other directly. */
  predicate GapsWithin(turns: seq<Turn>, g: real) {
    AllForward(turns) && forall j | 0 <= j < |turns| :: turns[j].drift <= g && turns[j].lag <= g
  }

  predicate Abandons(s: Ticks, visibility: real, goal: real, turns: seq<Turn>) {
    Sleep(s, visibility, goal, turns, 0).end == Exhausted
  }

  /** It gives up although the goal has passed. */
  predicate Late(s: Ticks, visibility: real, goal: real, turns: seq<Turn>) {
    Abandons(s, visibility, goal, turns) && Sleep(s, visibility, goal, turns, 0).left.now >= goal
  }

  /** A sleep that gives up does so less than g after its goal, and had a lease that ran out
      before that; with no lease to begin with it gives up at most g after its start. */
  lemma GivesUpWithin(s: Ticks, visibility: real, goal: real, turns: seq<Turn>, g: real)
    requires GapsWithin(turns, g) && Abandons(s, visibility, goal, turns)
    ensures var left := Sleep(s, visibility, goal, turns, 0).left;
      left.now < goal + g && s.deadline < goal + g && (s.deadline <= s.now ==> left.now <= s.now + g)
  {
    SleepSafe(s, visibility, goal, turns, 0);
    if s.deadline <= s.now { assert Sleep(s, visibility, goal, turns, 0).left.now == s.now + turns[0].drift; }
  }

  /** A heartbeat answer that extends nothing ends the wait just before the goal, and the
      time to the next reading carries the clock over it. */
  function CarriedOver(s: Ticks, goal: real, g: real): seq<Turn> {
    var short := Least(goal - s.now, goal + g - s.deadline);
    [Turn(0.0, [Extension(goal - s.now - short, Some(0))], true, 0.0, 0.0), Turn(g, [], false, 0.0, 0.0)]
  }

  lemma CarriedOverLate(s: Ticks, visibility: real, goal: real, g: real)
    requires g > 0.0 && s.now < goal <= s.deadline < goal + g
    ensures GapsWithin(CarriedOver(s, goal, g), g) && Late(s, visibility, goal, CarriedOver(s, goal, g))
  {
    var turns := CarriedOver(s, goal, g);
    var short := Least(goal - s.now, goal + g - s.deadline);
    var woken := Ticks(goal - short, s.deadline);
    assert Arrived(s, visibility, turns[0].extensions[..0]) == s;
    assert Arrived(s, visibility, turns[0].extensions) == woken;
    assert TakeTurn(s, visibility, goal, turns[0]) == GoesOn(woken);
    assert Sleep(s, visibility, goal, turns, 0) == Sleep(woken, visibility, goal, turns, 1);
  }

  /** The wait ends when the lease does, or so late that the next reading is at the goal. */
  lemma WaitedOverLate(s: Ticks, visibility: real, goal: real, g: real)
    requires g > 0.0 && s.now < s.deadline < goal
    ensures exists turns :: GapsWithin(turns, g) && Late(s, visibility, goal, turns)
  {
    var late := Greatest(0.0, goal - s.deadline - g);
    var turns := [Turn(0.0, [], false, late, g)];
    assert TakeTurn(s, visibility, goal, turns[0]) ==
           GivesUp(Ticks(s.deadline + late + g, s.deadline), s.deadline + late, g, false);
    assert GapsWithin(turns, g) && Late(s, visibility, goal, turns);
  }

  /** With at most g between two readings, a sleep can give up exactly when its lease, as it
      is at the start, does not last until g after the goal. */
  lemma GivesUpExactly(s: Ticks, visibility: real, goal: real, g: real)
    requires g >= 0.0 && s.now < goal
    ensures (exists turns :: GapsWithin(turns, g) && Abandons(s, visibility, goal, turns)) <==> s.deadline < goal + g
  {
    if s.deadline < goal {
      var turns := [Turn(0.0, [], false, 0.0, 0.0)];
      assert GapsWithin(turns, g) && Abandons(s, visibility, goal, turns);
    } else if s.deadline < goal + g {
      CarriedOverLate(s, visibility, goal, g);
    }
    if turns :| GapsWithin(turns, g) && Abandons(s, visibility, goal, turns) {
      GivesUpWithin(s, visibility, goal, turns, g);
    }
  }

  /** It can give up after the goal exactly when, besides, some time may pass between two
      readings, and there is a lease at the start or that time reaches from there over the
      goal. */
  lemma LateExactly(s: Ticks, visibility: real, goal: real, g: real)
    requires g >= 0.0 && s.now < goal
    ensures (exists turns :: GapsWithin(turns, g) && Late(s, visibility, goal, turns)) <==>
            g > 0.0 && s.deadline < goal + g && (s.now < s.deadline || goal <= s.now + g)
  {
    if g > 0.0 && goal <= s.deadline < goal + g {
      CarriedOverLate(s, visibility, goal, g);
    } else if g > 0.0 && s.now < s.deadline < goal {
      WaitedOverLate(s, visibility, goal, g);
    } else if g > 0.0 && s.deadline <= s.now && goal <= s.now + g {
      var turns := [Turn(g, [], false, 0.0, 0.0)];
      assert GapsWithin(turns, g) && Late(s, visibility, goal, turns);
    }
    if turns :| GapsWithin(turns, g) && Late(s, visibility, goal, turns) {
      GivesUpWithin(s, visibility, goal, turns, g);
    }
  }

  /** So it is never late, wherever it starts, exactly when no time passes between two
      readings. */
  lemma NeverLateExactly(visibility: real, g: real)
    requires g >= 0.0
    ensures (forall s, goal, turns | GapsWithin(turns, g) :: !Late(s, visibility, goal, turns)) <==> g == 0.0
  {
    forall s, goal, turns | g == 0.0 && GapsWithin(turns, g) ensures !Late(s, visibility, goal, turns) {
      if Late(s, visibility, goal, turns) { GivesUpWithin(s, visibility, goal, turns, g); }
    }
    if g > 0.0 { LateExactly(Ticks(0.0, g), visibility, g, g); }
  }

  /** A second's lease and a sleep of 0.9 seconds: two seconds pass between the two readings
      at the top, and it gives up although the goal has passed. */
  lemma LateGiveUp()
    ensures var night := Sleep(Ticks(0.0, 1.0), 1.0, 0.9, [Turn(2.0, [], false, 0.0, 0.0)], 0);
      night == Night(Exhausted, 0, Ticks(2.0, 1.0), 0.0, 2.0) && night.left.now > 0.9
  {
  }

  /** The sleep uses at most one turn more than the extensions that arrive in its turns, so
      it ends as soon as it has been given that many. */
  lemma {:induction false} TurnsBounded(s: Ticks, visibility: real, goal: real, turns: seq<Turn>, k: nat)
    requires k <= |turns| && AllForward(turns)
    ensures var night := Sleep(s, visibility, goal, turns, k);
      && k <= night.used <= |turns|
      && night.used - k <= ExtensionsIn(turns[k..night.used]) + (if night.end == Waiting || s.now >= goal then 0 else 1)
    decreases |turns| - k
  {
    if s.now < goal && k < |turns| {
      TurnSafe(s, visibility, goal, turns[k]);
      var used := Sleep(s, visibility, goal, turns, k).used;
      match TakeTurn(s, visibility, goal, turns[k]) {
        case GoesOn(next) =>
          TurnsBounded(next, visibility, goal, turns, k + 1);
          ExtensionsFirst(turns[k..used]);
          assert turns[k..used][1..] == turns[k + 1..used];
        case GivesUp(_, _, _, _) =>
      }
    }
  }

  lemma {:induction false} ExtensionsFirst(turns: seq<Turn>)
    requires turns != []
    ensures ExtensionsIn(turns) == |turns[0].extensions| + ExtensionsIn(turns[1..])
  {
    if |turns| > 1 {
      ExtensionsFirst(turns[..|turns| - 1]);
      assert turns[..|turns| - 1][1..] == turns[1..][..|turns| - 2];
    }
  }

  /** A sleep that nothing delays or extends: it ends exactly at its goal when the lease lasts
      until then, and otherwise gives up exactly when the lease ends, or at once without one. */
  lemma UndisturbedSleep(s: Ticks, visibility: real, goal: real, noticed: bool)
    requires s.now < goal
    ensures var night := Sleep(s, visibility, goal, [Turn(0.0, [], noticed, 0.0, 0.0)], 0);
      && night.left.deadline == s.deadline
      && night.end == (if s.deadline < goal then Exhausted else Slept)
      && night.left.now == (if s.deadline <= s.now then s.now else Least(goal, s.deadline))
  {
    var t := Turn(0.0, [], noticed, 0.0, 0.0);
    assert s.(now := s.now + 0.0) == s;
    if s.now < s.deadline {
      assert Waited(s, visibility, Least(goal - s.now, s.deadline - s.now), t) == s.(now := Least(goal, s.deadline));
    }
  }

  /** After an extension the lease lasts at least that many milliseconds more, or the default
      time, and exactly that much if it lasted less before; it is never shortened. */
  lemma ExtensionMeans(s: Ticks, visibility: real, milliseconds: Option<int>)
    ensures var left := Extended(s, visibility, milliseconds).deadline - s.now;
      && Extended(s, visibility, milliseconds).now == s.now
      && (milliseconds.None? ==> left == Greatest(s.deadline - s.now, visibility))
      && (milliseconds.Some? ==> left * 1000.0 == Greatest((s.deadline - s.now) * 1000.0, milliseconds.value as real))
  {
  }

  class Lease {
    const clock: Clock
    const visibility: real
    var deadline: real
    var extended: bool

    constructor (visibilityMs: int, clock: Clock)
      requires visibilityMs >= 1
      ensures this.clock == clock && visibility == visibilityMs as real / 1000.0
      ensures deadline == clock.now + visibility && !extended
    {
      this.clock := clock;
      visibility := visibilityMs as real / 1000.0;
      deadline := clock.now + visibilityMs as real / 1000.0;
      extended := false;
    }

    function Remaining(): (left: real)
      reads this, clock
      ensures left >= 0.0 && (left == 0.0 <==> deadline <= clock.now)
    {
      Greatest(0.0, deadline - clock.now)
    }

    ghost function View(): Ticks
      reads this, clock
    {
      Ticks(clock.now, deadline)
    }

    method Extend(milliseconds: Option<int>)
      modifies this
      ensures extended && View() == Extended(old(View()), visibility, milliseconds)
      ensures deadline >= old(deadline)
    {
      var duration := if milliseconds.None? then visibility else milliseconds.value as real / 1000.0;
      deadline := Greatest(deadline, clock.now + duration);
      extended := true;
    }

    /** The heartbeat's work while this sleep waits. */
    method Arrive(extensions: seq<Extension>)
      requires forall k | 0 <= k < |extensions| :: extensions[k].after >= 0.0
      modifies this, clock
      ensures View() == Arrived(old(View()), visibility, extensions)
      ensures extended == (old(extended) || extensions != [])
    {
      assert extensions[..0] == [];
      for k := 0 to |extensions|
        invariant View() == Arrived(old(View()), visibility, extensions[..k])
        invariant extended == (old(extended) || k > 0)
      {
        assert extensions[..k + 1][..k] == extensions[..k];
        clock.Pass(extensions[k].after);
        Extend(extensions[k].milliseconds);
      }
      assert extensions[..|extensions|] == extensions;
    }

    method Wait(time: real, t: Turn) returns (noticed: bool)
      requires Forward(t) && time >= 0.0
      modifies this, clock
      ensures noticed == Noticed(t) && View() == Waited(old(View()), visibility, time, t)
    {
      extended := false;
      var start := clock.now;
      ArrivedForward(View(), visibility, t.extensions);
      Arrive(t.extensions);
      noticed := t.noticed && extended;
      if !noticed { clock.Pass(Greatest(0.0, start + time - clock.now)); }
      clock.Pass(t.late);
    }

    /** One turn of the loop; true when it gives up. */
    method TryTurn(target: real, t: Turn) returns (gaveUp: bool)
      requires Forward(t) && clock.now < target
      modifies this, clock
      ensures match TakeTurn(old(View()), visibility, target, t)
              case GoesOn(next) => !gaveUp && View() == next
              case GivesUp(left, _, _, _) => gaveUp && View() == left
    {
      var remainingDelay := target - clock.now;
      clock.Pass(t.drift);
      var remainingLease := Remaining();
      if remainingLease <= 0.0 { return true; }
      var noticed := Wait(Least(remainingDelay, remainingLease), t);
      if !noticed && clock.now < target {
        clock.Pass(t.lag);
        if Remaining() <= 0.0 { return true; }
      }
      return false;
    }

    /** `sleep_for_retry`; None where a negative delay raises. */
    method SleepForRetry(delay: real, turns: seq<Turn>) returns (end: Option<SleepEnd>)
      requires AllForward(turns)
      modifies this, clock
      ensures end.None? <==> delay < 0.0
      ensures delay < 0.0 ==> View() == old(View())
      ensures delay >= 0.0 ==>
                var night := Sleep(old(View()), visibility, old(clock.now) + delay, turns, 0);
                end == Some(night.end) && View() == night.left
    {
      if delay < 0.0 { return None; }
      var target := clock.now + delay;
      ghost var night := Sleep(View(), visibility, target, turns, 0);
      for k := 0 to |turns|
        invariant Sleep(View(), visibility, target, turns, k) == night
      {
        if target - clock.now <= 0.0 { return Some(Slept); }
        var gaveUp := TryTurn(target, turns[k]);
        if gaveUp { return Some(Exhausted); }
      }
      return Some(if target - clock.now <= 0.0 then Slept else Waiting);
    }
  }

  // ------------------------------------------------------------------- heartbeat extensions

  datatype Running = Running(jobId: string, lease: Lease)

  /** The deadline an extension by that many milliseconds would set. */
  function After(lease: Lease, milliseconds: int): real
    reads lease.clock
  {
    lease.clock.now + milliseconds as real / 1000.0
  }

  /** `extend_leases`: the leases of the named jobs, or of all, and no others. */
  method ExtendLeases(executions: seq<Running>, milliseconds: int, jobIds: Option<set<string>>)
    requires forall i, j | 0 <= i < j < |executions| :: executions[i].lease != executions[j].lease
    modifies set k | 0 <= k < |executions| :: executions[k].lease
    ensures forall e | e in executions ::
              e.lease.deadline ==
              if jobIds.None? || e.jobId in jobIds.value
              then Greatest(old(e.lease.deadline), After(e.lease, milliseconds)) else old(e.lease.deadline)
  {
    for i := 0 to |executions|
      invariant forall k | i <= k < |executions| :: executions[k].lease.deadline == old(executions[k].lease.deadline)
      invariant forall k | 0 <= k < i ::
                  var e := executions[k];
                  e.lease.deadline ==
                  if jobIds.None? || e.jobId in jobIds.value
                  then Greatest(old(e.lease.deadline), After(e.lease, milliseconds)) else old(e.lease.deadline)
    {
      if jobIds.None? || executions[i].jobId in jobIds.value {
        executions[i].lease.Extend(Some(milliseconds));
      }
    }
  }
}
