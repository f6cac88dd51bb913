/** What a retry policy keeps on its way to a gRPC server and back, and the delays it
    then gives (src/ojs/retry.py:90-117). */
module RetryRoundTrip {
  import opened Numbers
  import opened Wrappers
  import opened JsonValue
  import opened Decimals
  import opened Durations
  import opened RetryDurations
  import opened RetryProjection

  // ------------------------------------------------------------------- field by field

  lemma TextsBack(names: seq<string>)
    ensures AllTexts(Texts(names)) && Names(Texts(names)) == names
  {
  }

  predicate Converts(convert: Duration, p: RetryPolicy) {
    convert(p.initialInterval).Ok? && convert(p.maxInterval).Ok?
  }

  function WithIntervals(p: RetryPolicy, convert: Duration): RetryPolicy
    requires Converts(convert, p)
  {
    p.(initialInterval := convert(p.initialInterval).value, maxInterval := convert(p.maxInterval).value)
  }

  lemma SentFields(toProto: Duration, p: RetryPolicy)
    requires Converts(toProto, p)
    ensures SentRetry(toProto, ToDict(p)) == Ok(ToDict(WithIntervals(p, toProto)))
  {
    var sent, d := Converted(Sending(toProto), ToDict(p)), ToDict(WithIntervals(p, toProto));
    forall field ensures Lookup(sent, field) == Lookup(d, field) {
      assert Lookup(sent, field) == Entry(Sending(toProto), ToDict(p), field);
    }
    SameLookup(sent, d);
  }

  /** A value as the codec delivers it: zeros are gone. */
  function Delivered(codec: Codec, p: RetryPolicy): Fields {
    Carried(codec, ToDict(p))
  }

  lemma ReceivedFields(toIso: Duration, codec: Codec, p: RetryPolicy)
    requires Converts(toIso, p)
    ensures ReceivedRetry(toIso, Delivered(codec, p)) == Ok(Delivered(codec, WithIntervals(p, toIso)))
  {
    var d, back := Delivered(codec, p), Delivered(codec, WithIntervals(p, toIso));
    forall field ensures Lookup(Converted(Receiving(toIso), d), field) == Lookup(back, field) {
      assert Lookup(Converted(Receiving(toIso), d), field) == Entry(Receiving(toIso), d, field);
    }
    SameLookup(Converted(Receiving(toIso), d), back);
  }

  /** What the defaults put in place of the zeros that were not written. */
  function Restored(codec: Codec, p: RetryPolicy): RetryPolicy {
    p.(maxAttempts := if codec == DropZeros && p.maxAttempts == 0 then 3 else p.maxAttempts,
       backoff := if codec == DropZeros && p.backoff == 0.0 then 2.0 else p.backoff,
       jitter := p.jitter || codec == DropZeros)
  }

  lemma DictRestored(codec: Codec, p: RetryPolicy)
    ensures FromDict(Delivered(codec, p)) == Some(Restored(codec, p))
  {
    TextsBack(p.nonRetryable);
    TextsBack([]);
    assert Texts([]) == [];
  }

  lemma RoundTripIs(toProto: Duration, toIso: Duration, codec: Codec, p: RetryPolicy)
    requires Converts(toProto, p) && Converts(toIso, WithIntervals(p, toProto))
    ensures var back := WithIntervals(WithIntervals(p, toProto), toIso);
      RoundTrip(toProto, toIso, codec, p) == Some(Restored(codec, back))
  {
    SentFields(toProto, p);
    ReceivedFields(toIso, codec, WithIntervals(p, toProto));
    DictRestored(codec, WithIntervals(WithIntervals(p, toProto), toIso));
  }

  lemma RefusedEither(toProto: Duration, toIso: Duration, codec: Codec, p: RetryPolicy)
    ensures RoundTrip(toProto, toIso, codec, p).Some?
            <==> Converts(toProto, p) && Converts(toIso, WithIntervals(p, toProto))
  {
    if Converts(toProto, p) {
      if Converts(toIso, WithIntervals(p, toProto)) {
        RoundTripIs(toProto, toIso, codec, p);
      } else {
        SentFields(toProto, p);
        RefusedBack(toIso, codec, WithIntervals(p, toProto));
      }
    }
  }

  lemma RefusedBack(toIso: Duration, codec: Codec, p: RetryPolicy)
    requires !Converts(toIso, p)
    ensures ReceivedRetry(toIso, Delivered(codec, p)).Err?
  {
    assert Delivered(codec, p)[InitialInterval] == Str(p.initialInterval);
    assert Delivered(codec, p)[MaxInterval] == Str(p.maxInterval);
  }

  // --------------------------------------------------------------------- with the durations

  /** Both intervals are ISO durations without more than nine fraction digits. */
  predicate Sendable(p: RetryPolicy) {
    && ParseIso(p.initialInterval).Some? && FitsProto(ParseIso(p.initialInterval).value)
    && ParseIso(p.maxInterval).Some? && FitsProto(ParseIso(p.maxInterval).value)
  }

  function Returned(codec: Codec, p: RetryPolicy): Option<RetryPolicy> {
    RoundTrip(IsoToProto, ProtoToIso, codec, p)
  }

  lemma IntervalRead(text: string)
    ensures IsoToProto(text).Ok? && ProtoToIso(IsoToProto(text).value).Ok?
            <==> ParseIso(text).Some? && FitsProto(ParseIso(text).value)
  {
    if ParseIso(text).Some? { IsoProtoRead(text, ParseIso(text).value); }
  }

  lemma SendableExactly(p: RetryPolicy)
    ensures Sendable(p) <==> Converts(IsoToProto, p) && Converts(ProtoToIso, WithIntervals(p, IsoToProto))
  {
    IntervalRead(p.initialInterval);
    IntervalRead(p.maxInterval);
  }

  /** The trip ends in a policy exactly when both durations can be sent. */
  lemma ReturnsExactly(codec: Codec, p: RetryPolicy)
    ensures Returned(codec, p).Some? <==> Sendable(p)
  {
    SendableExactly(p);
    RefusedEither(IsoToProto, ProtoToIso, codec, p);
  }

  predicate SameInterval(a: string, b: string) {
    ParseRetryDuration(a) == ParseRetryDuration(b)
  }

  /** The same policy, but for how the intervals are spelled. */
  predicate SamePolicy(p: RetryPolicy, q: RetryPolicy) {
    && q == p.(initialInterval := q.initialInterval, maxInterval := q.maxInterval)
    && SameInterval(p.initialInterval, q.initialInterval)
    && SameInterval(p.maxInterval, q.maxInterval)
  }

  predicate WholeMillisInterval(text: string)
    requires ParseIso(text).Some?
  {
    WholeMillis(Seconds(ParseIso(text).value))
  }

  lemma IntervalKept(text: string)
    requires ParseIso(text).Some? && FitsProto(ParseIso(text).value)
    ensures IsoToProto(text).Ok? && ProtoToIso(IsoToProto(text).value).Ok?
    ensures SameInterval(text, ProtoToIso(IsoToProto(text).value).value) <==> WholeMillisInterval(text)
  {
    var back := IsoProtoIsoExact(text, ParseIso(text).value);
    ParsersAgree(text);
    ParsersAgree(ProtoToIso(IsoToProto(text).value).value);
  }

  /** What the codec must not have dropped. */
  predicate Undropped(codec: Codec, p: RetryPolicy) {
    codec == KeepAll || (p.jitter && p.maxAttempts != 0 && p.backoff != 0.0)
  }

  predicate WholeMillisIntervals(p: RetryPolicy) {
    Sendable(p) && WholeMillisInterval(p.initialInterval) && WholeMillisInterval(p.maxInterval)
  }

  /** A policy comes back the same exactly when its intervals are whole milliseconds and
      the codec drops nothing whose default differs. */
  lemma PolicyKeptExactly(codec: Codec, p: RetryPolicy)
    ensures (Returned(codec, p).Some? && SamePolicy(p, Returned(codec, p).value))
            <==> WholeMillisIntervals(p) && Undropped(codec, p)
  {
    if Sendable(p) {
      SendableKept(codec, p);
    } else {
      ReturnsExactly(codec, p);
    }
  }

  /** The default policy, but for its jitter. */
  const STEADY := RetryPolicy(3, "PT1S", 2.0, "PT5M", false, [])

  /** A codec that drops zeros delivers it without `jitter`, which the default then switches
      on. */
  lemma JitterComesBack(p: RetryPolicy)
    requires p == STEADY
    ensures Returned(DropZeros, p).Some? && Returned(DropZeros, p).value.jitter && !p.jitter
    ensures Returned(KeepAll, p).Some? && SamePolicy(p, Returned(KeepAll, p).value)
  {
    OneSecond();
    FiveMinutes();
    WholeIntervals(p, Iso(0, 0, 0, 1, 0), Iso(0, 0, 5, 0, 0));
    SendableExactly(p);
    RoundTripIs(IsoToProto, ProtoToIso, DropZeros, p);
    PolicyKeptExactly(KeepAll, p);
  }

  lemma WholeIntervals(p: RetryPolicy, initial: Iso, most: Iso)
    requires ParseIso(p.initialInterval) == Some(initial) && ParseIso(p.maxInterval) == Some(most)
    requires initial.scale == most.scale == 0
    ensures WholeMillisIntervals(p)
  {
    WholeFits(initial);
    WholeFits(most);
  }

  lemma FiveMinutes()
    ensures ParseIso("PT5M") == Some(Iso(0, 0, 5, 0, 0))
  {
    TimeRead(0, 5, Absent);
    assert Digits(5) == "5";
    assert "PT5M" == "PT" + (UnitPart(0, 'H') + (UnitPart(5, 'M') + SecondsPart(Absent)));
  }

  lemma WholeFits(i: Iso)
    requires i.scale == 0
    ensures FitsProto(i) && WholeMillis(Seconds(i))
  {
    var zeros := NormalizedKeeps(Total(i));
    var n := WholeSeconds(i) + i.coefficient;
    NoScale(WholeSeconds(i), i.coefficient);
    Thousand(n, Seconds(i));
  }

  lemma NoScale(a: nat, b: nat)
    ensures a as real + RealFrom(b as real, 0) == (a + b) as real
  {
  }

  lemma Thousand(n: nat, x: real)
    requires x == n as real
    ensures WholeMillis(x)
  {
    assert x * 1000.0 == (n * 1000) as real;
  }

  lemma SendableKept(codec: Codec, p: RetryPolicy)
    requires Sendable(p)
    ensures Returned(codec, p).Some?
    ensures SamePolicy(p, Returned(codec, p).value) <==> WholeMillisIntervals(p) && Undropped(codec, p)
  {
    SendableExactly(p);
    RoundTripIs(IsoToProto, ProtoToIso, codec, p);
    IntervalKept(p.initialInterval);
    IntervalKept(p.maxInterval);
  }

  // ------------------------------------------------------------------------------- delays

  function Power(b: real, e: nat): real {
    if e == 0 then 1.0 else Times(Power(b, e - 1), b)
  }

  /** b ** e; None is Python's ZeroDivisionError. */
  function Raised(b: real, e: int): Option<real> {
    if e >= 0 then Some(Power(b, e))
    else if Power(b, -e) == 0.0 then None
    else Some(1.0 / Power(b, -e))
  }

  function Capped(delay: real, factor: real, longest: real): real {
    Least(Times(delay, factor), longest)
  }

  /** How a policy waits, with its intervals read. */
  datatype Waits = Waits(initial: Option<real>, longest: Option<real>, backoff: real, jitter: bool)

  function WaitsOf(p: RetryPolicy): Waits {
    Waits(ParseRetryDuration(p.initialInterval), ParseRetryDuration(p.maxInterval), p.backoff, p.jitter)
  }

  /** The capped exponential delay before jitter; None is an exception. */
  function BaseDelay(w: Waits, attempt: int): Option<real> {
    var factor := Raised(w.backoff, attempt - 1);
    if w.initial.None? || w.longest.None? || factor.None? then None
    else Some(Capped(w.initial.value, factor.value, w.longest.value))
  }

  /** `draw` is the random factor, used only with jitter. */
  function Delay(w: Waits, attempt: int, draw: real): Option<real> {
    match BaseDelay(w, attempt)
    case None => None
    case Some(delay) => Some(if w.jitter then Capped(delay, draw, w.longest.value) else delay)
  }

  method DelayForAttempt(p: RetryPolicy, attempt: int, draw: real) returns (r: Option<real>)
    ensures r == Delay(WaitsOf(p), attempt, draw)
  {
    var waits := WaitsOf(p);
    r := DelayRead(waits, attempt, draw);
  }

  method DelayRead(waits: Waits, attempt: int, draw: real) returns (r: Option<real>)
    ensures r == Delay(waits, attempt, draw)
  {
    if waits.initial.None? || waits.longest.None? { return None; }
    var factor := Raised(waits.backoff, attempt - 1);
    if factor.None? { return None; }
    var delay := Times(waits.initial.value, factor.value);
    delay := Least(delay, waits.longest.value);
    if waits.jitter {
      delay := Times(delay, draw);
      delay := Least(delay, waits.longest.value);
    }
    return Some(delay);
  }

  lemma SamePolicyWaits(p: RetryPolicy, q: RetryPolicy)
    requires SameInterval(p.initialInterval, q.initialInterval) && SameInterval(p.maxInterval, q.maxInterval)
    requires p.backoff == q.backoff
    ensures WaitsOf(p) == WaitsOf(q).(jitter := p.jitter)
  {
  }

  lemma WaitsKept(codec: Codec, p: RetryPolicy)
    requires WholeMillisIntervals(p) && (codec == DropZeros ==> p.backoff != 0.0)
    ensures Returned(codec, p).Some? && WaitsOf(p) == WaitsOf(Returned(codec, p).value).(jitter := p.jitter)
  {
    SendableExactly(p);
    RoundTripIs(IsoToProto, ProtoToIso, codec, p);
    IntervalKept(p.initialInterval);
    IntervalKept(p.maxInterval);
    SamePolicyWaits(p, Returned(codec, p).value);
  }

  /** A policy whose intervals are whole milliseconds gives the same delay before jitter
      for every attempt on both sides, unless the codec turned a zero coefficient into 2. */
  lemma DelaysKept(codec: Codec, p: RetryPolicy, attempt: int)
    requires WholeMillisIntervals(p) && (codec == DropZeros ==> p.backoff != 0.0)
    ensures Returned(codec, p).Some?
    ensures BaseDelay(WaitsOf(Returned(codec, p).value), attempt) == BaseDelay(WaitsOf(p), attempt)
  {
    WaitsKept(codec, p);
    JitterLast(WaitsOf(p), WaitsOf(Returned(codec, p).value), attempt);
  }

  lemma JitterLast(w: Waits, v: Waits, attempt: int)
    requires w == v.(jitter := w.jitter)
    ensures BaseDelay(w, attempt) == BaseDelay(v, attempt)
  {
  }

  lemma NoNegativeDuration(text: string)
    requires ParseRetryDuration(text).Some?
    ensures ParseRetryDuration(text).value >= 0.0
  {
    SecondsNonNegative(ParseIso(WithoutFinalNewline(text)).value);
  }

  predicate NotNegative(w: Waits) {
    (w.initial.Some? ==> w.initial.value >= 0.0) && (w.longest.Some? ==> w.longest.value >= 0.0)
  }

  /** Every policy reads as delays that are not negative. */
  lemma NoNegativeWait(p: RetryPolicy)
    ensures NotNegative(WaitsOf(p))
  {
    if ParseRetryDuration(p.initialInterval).Some? { NoNegativeDuration(p.initialInterval); }
    if ParseRetryDuration(p.maxInterval).Some? { NoNegativeDuration(p.maxInterval); }
  }

  lemma {:induction false} PowerGrows(b: real, e: nat)
    requires b >= 1.0
    ensures 1.0 <= Power(b, e) <= Power(b, e + 1)
  {
    if e > 0 { PowerGrows(b, e - 1); }
    Monotone(Power(b, e), 1.0, b);
  }

  /** With a coefficient of at least one, later attempts of a policy never wait less; jitter
      moves a delay by at most half of it, and nothing waits longer than the cap. */
  lemma DelaysGrow(p: RetryPolicy, w: Waits, attempt: nat, draw: real)
    requires w == WaitsOf(p) && attempt >= 1 && p.backoff >= 1.0 && 0.5 <= draw <= 1.5 && BaseDelay(w, attempt).Some?
    ensures BaseDelay(w, 1) == Some(Least(w.initial.value, w.longest.value)) && BaseDelay(w, attempt + 1).Some?
    ensures 0.0 <= BaseDelay(w, attempt).value <= BaseDelay(w, attempt + 1).value
    ensures Delay(w, attempt, draw).Some? && Delay(w, attempt, draw).value <= w.longest.value
    ensures BaseDelay(w, attempt).value * 0.5 <= Delay(w, attempt, draw).value <= BaseDelay(w, attempt).value * 1.5
  {
    NoNegativeWait(p);
    WaitsGrow(w, attempt, draw);
  }

  lemma WaitsGrow(w: Waits, attempt: nat, draw: real)
    requires attempt >= 1 && w.backoff >= 1.0 && 0.5 <= draw <= 1.5 && NotNegative(w) && BaseDelay(w, attempt).Some?
    ensures BaseDelay(w, 1) == Some(Least(w.initial.value, w.longest.value)) && BaseDelay(w, attempt + 1).Some?
    ensures 0.0 <= BaseDelay(w, attempt).value <= BaseDelay(w, attempt + 1).value
    ensures Delay(w, attempt, draw).Some? && Delay(w, attempt, draw).value <= w.longest.value
    ensures BaseDelay(w, attempt).value * 0.5 <= Delay(w, attempt, draw).value <= BaseDelay(w, attempt).value * 1.5
  {
    PowerGrows(w.backoff, attempt - 1);
    var f, g := Power(w.backoff, attempt - 1), Power(w.backoff, attempt);
    assert Raised(w.backoff, attempt - 1) == Some(f) && Raised(w.backoff, attempt) == Some(g);
    CappedGrows(w.initial.value, f, g, w.longest.value);
    CappedOnce(w.initial.value, w.longest.value);
    CappedBetween(BaseDelay(w, attempt).value, draw, w.longest.value);
  }

  lemma CappedGrows(x: real, f: real, g: real, longest: real)
    requires x >= 0.0 && longest >= 0.0 && 0.0 <= f <= g
    ensures 0.0 <= Capped(x, f, longest) <= Capped(x, g, longest) && Capped(x, f, longest) <= longest
  {
    Product(x, f);
    Monotone(x, f, g);
  }

  lemma CappedOnce(x: real, longest: real)
    ensures Capped(x, 1.0, longest) == Least(x, longest)
  {
  }

  lemma CappedBetween(delay: real, draw: real, longest: real)
    requires 0.0 <= delay <= longest && 0.5 <= draw <= 1.5
    ensures Times(delay, 0.5) <= Capped(delay, draw, longest) <= Times(delay, 1.5)
    ensures Capped(delay, draw, longest) <= longest
  {
    Monotone(delay, 0.5, draw);
    Monotone(delay, draw, 1.5);
  }
}
