/** How many seconds a duration text stands for (src/ojs/retry.py:12-42). */
module DurationValues {
  import opened Wrappers
  import opened Durations
  import opened RetryDurations

  /** The text of a duration: each unit that is not zero, and the seconds. */
  function IsoText(days: nat, hours: nat, minutes: nat, t: SecondsText): string {
    "P" + UnitPart(days, 'D') + "T" + (UnitPart(hours, 'H') + (UnitPart(minutes, 'M') + SecondsPart(t)))
  }

  lemma DayRead(days: nat, rest: string)
    requires rest == "" || rest[0] == 'T'
    ensures Unit(UnitPart(days, 'D') + rest, 'D') == (days, rest)
  {
    if days == 0 {
      assert UnitPart(days, 'D') + rest == rest;
      assert LeadingDigits(rest) == 0;
    } else {
      UnitRead(days, 'D', rest);
    }
  }

  lemma DaysBefore(days: nat, body: string, text: string)
    requires text == "P" + UnitPart(days, 'D') + "T" + body
    ensures var (hours, minutes, coefficient, scale, rest) := ParseTime(body);
      rest == "" ==> ParseIso(text) == Some(Iso(days, hours, minutes, coefficient, scale))
  {
    TextAfterP(days, body, text);
    DayRead(days, "T" + body);
    assert ("T" + body)[1..] == body;
  }

  lemma TextAfterP(days: nat, body: string, text: string)
    requires text == "P" + UnitPart(days, 'D') + "T" + body
    ensures text != "" && text[0] == 'P' && text[1..] == UnitPart(days, 'D') + ("T" + body)
  {
  }

  /** Days, hours, minutes and seconds text read back as they were printed. */
  lemma AllUnitsRead(days: nat, hours: nat, minutes: nat, t: SecondsText)
    requires ValidSeconds(t)
    ensures var r := SecondsUnit(SecondsPart(t));
      ParseIso(IsoText(days, hours, minutes, t)) == Some(Iso(days, hours, minutes, r.0, r.1))
  {
    var body := UnitPart(hours, 'H') + (UnitPart(minutes, 'M') + SecondsPart(t));
    HoursRead(hours, minutes, t);
    DaysBefore(days, body, IsoText(days, hours, minutes, t));
  }

  /** Days alone need no "T". */
  lemma DaysRead(days: nat, text: string)
    requires text == "P" + UnitPart(days, 'D')
    ensures ParseIso(text) == Some(Iso(days, 0, 0, 0, 0))
  {
    assert text[1..] == UnitPart(days, 'D') && UnitPart(days, 'D') + "" == UnitPart(days, 'D');
    DayRead(days, "");
  }

  /** A day is 24 hours, an hour 60 minutes and a minute 60 seconds. */
  function SecondsIn(days: nat, hours: nat, minutes: nat, seconds: nat): nat {
    ((days * 24 + hours) * 60 + minutes) * 60 + seconds
  }

  lemma WholeIs(days: nat, hours: nat, minutes: nat, seconds: nat)
    ensures WholeSeconds(Iso(days, hours, minutes, seconds, 0)) + seconds == SecondsIn(days, hours, minutes, seconds)
  {
  }

  lemma SumIs(a: nat, b: nat)
    ensures a as real + RealFrom(b as real, 0) == (a + b) as real
  {
  }

  lemma WholeMeans(text: string, days: nat, hours: nat, minutes: nat, seconds: nat)
    requires ParseIso(text) == Some(Iso(days, hours, minutes, seconds, 0))
    ensures ParseRetryDuration(text) == Some(SecondsIn(days, hours, minutes, seconds) as real)
  {
    IsoSeconds(days, hours, minutes, seconds);
    ReadsSeconds(text, Iso(days, hours, minutes, seconds, 0), SecondsIn(days, hours, minutes, seconds) as real);
  }

  lemma IsoSeconds(days: nat, hours: nat, minutes: nat, seconds: nat)
    ensures Seconds(Iso(days, hours, minutes, seconds, 0)) == SecondsIn(days, hours, minutes, seconds) as real
  {
    WholeIs(days, hours, minutes, seconds);
    SumIs(WholeSeconds(Iso(days, hours, minutes, seconds, 0)), seconds);
  }

  lemma ReadsSeconds(text: string, i: Iso, value: real)
    requires ParseIso(text) == Some(i) && Seconds(i) == value
    ensures ParseRetryDuration(text) == Some(value)
  {
    ParsersAgree(text);
  }

  /** What a text with whole seconds stands for, as the retry policy reads it. */
  lemma IsoMeans(days: nat, hours: nat, minutes: nat, seconds: nat, text: string)
    requires text == IsoText(days, hours, minutes, Whole(seconds))
    ensures ParseRetryDuration(text) == Some(SecondsIn(days, hours, minutes, seconds) as real)
  {
    AllUnitsRead(days, hours, minutes, Whole(seconds));
    SecondsRead(Whole(seconds));
    WholeMeans(text, days, hours, minutes, seconds);
  }

  /** So does a text of days alone. */
  lemma DaysMean(days: nat, text: string)
    requires text == "P" + UnitPart(days, 'D')
    ensures ParseRetryDuration(text) == Some(SecondsIn(days, 0, 0, 0) as real)
  {
    DaysRead(days, text);
    WholeMeans(text, days, 0, 0, 0);
  }

  /** A fraction of seconds counts by its place: one digit less is ten times as much. */
  lemma {:induction false} FractionMeans(x: real, k: nat)
    ensures RealFrom(x, 0) == x && RealFrom(x, k + 1) * 10.0 == RealFrom(x, k)
    decreases k
  {
    if k > 0 { FractionMeans(x / 10.0, k - 1); }
  }
}
