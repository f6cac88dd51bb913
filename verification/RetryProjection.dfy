/** Retry policies on the gRPC wire (src/ojs/retry.py,
    src/ojs/transport/grpc/enqueue_projection.py, src/ojs/transport/grpc/job_projection.py,
    src/ojs/transport/grpc/protobuf_codec.py). */
module RetryProjection {
  import opened Wrappers
  import opened JsonValue
  import opened Durations

  /** The keys of a retry policy dictionary. */
  datatype Field =
    | MaxAttempts | InitialInterval | BackoffCoefficient | MaxInterval | Jitter
    | NonRetryableErrors | OnExhaustion | Other(name: string)

  type Fields = map<Field, Json>

  datatype RetryPolicy = RetryPolicy(
    maxAttempts: int,
    initialInterval: string,
    backoff: real,
    maxInterval: string,
    jitter: bool,
    nonRetryable: seq<string>)

  function Texts(names: seq<string>): seq<Json> {
    seq(|names|, i requires 0 <= i < |names| => Str(names[i]))
  }

  function ToDict(p: RetryPolicy): Fields {
    var d := map[
      MaxAttempts := Int(p.maxAttempts), InitialInterval := Str(p.initialInterval),
      BackoffCoefficient := Real(p.backoff), MaxInterval := Str(p.maxInterval), Jitter := Bool(p.jitter)];
    if p.nonRetryable == [] then d else d[NonRetryableErrors := Arr(Texts(p.nonRetryable))]
  }

  function Get(d: Fields, field: Field, default: Json): Json {
    if field in d then d[field] else default
  }

  predicate AllTexts(items: seq<Json>) {
    forall i | 0 <= i < |items| :: items[i].Str?
  }

  function Names(items: seq<Json>): seq<string>
    requires AllTexts(items)
  {
    seq(|items|, i requires 0 <= i < |items| => items[i].text)
  }

  /** None: a value of another type than the policy declares. */
  function FromDict(d: Fields): Option<RetryPolicy> {
    var attempts, initial := Get(d, MaxAttempts, Int(3)), Get(d, InitialInterval, Str("PT1S"));
    var backoff, longest := Get(d, BackoffCoefficient, Real(2.0)), Get(d, MaxInterval, Str("PT5M"));
    var jitter, errors := Get(d, Jitter, Bool(true)), Get(d, NonRetryableErrors, Arr([]));
    if && attempts.Int? && initial.Str? && backoff.Real? && longest.Str? && jitter.Bool?
       && errors.Arr? && AllTexts(errors.items)
    then Some(RetryPolicy(attempts.whole, initial.text, backoff.number, longest.text, jitter.flag, Names(errors.items)))
    else None
  }

  /** What an empty dictionary stands for. */
  lemma DefaultPolicy()
    ensures FromDict(map[]) == Some(RetryPolicy(3, "PT1S", 2.0, "PT5M", true, []))
  {
    assert Names([]) == [];
  }

  // ---------------------------------------------------- filling a dictionary key by key

  /** What is written for one entry; None leaves it out. */
  type Conversion = (Field, Json) -> Option<Json>

  function Lookup(d: Fields, field: Field): Option<Json> {
    if field in d then Some(d[field]) else None
  }

  function Entry(f: Conversion, d: Fields, field: Field): Option<Json> {
    if field in d then f(field, d[field]) else None
  }

  /** The entries for the fields in `done` are in place, and no others. */
  ghost predicate Filled(f: Conversion, projected: Fields, retry: Fields, done: set<Field>) {
    && (forall field | field in projected :: field in done)
    && (forall field | field in done :: Entry(f, retry, field) == Lookup(projected, field))
  }

  lemma FillNext(f: Conversion, projected: Fields, next: Fields, retry: Fields, done: set<Field>, field: Field)
    requires Filled(f, projected, retry, done) && field !in done
    requires next == match Entry(f, retry, field) case Some(v) => projected[field := v] case None => projected
    ensures Filled(f, next, retry, done + {field})
  {
    forall other | other in done + {field} ensures Entry(f, retry, other) == Lookup(next, other) {
      if other != field { assert Lookup(next, other) == Lookup(projected, other); }
    }
  }

  /** Every field of the dictionary converted. */
  function Converted(f: Conversion, d: Fields): Fields {
    map field | field in d && f(field, d[field]).Some? :: f(field, d[field]).value
  }

  lemma AllFilled(f: Conversion, projected: Fields, retry: Fields, done: set<Field>)
    requires Filled(f, projected, retry, done)
    requires forall field | field in retry :: field in done || f(field, retry[field]).None?
    ensures projected == Converted(f, retry)
  {
    forall field ensures Lookup(projected, field) == Lookup(Converted(f, retry), field) {
      assert Lookup(Converted(f, retry), field) == Entry(f, retry, field);
      if field in done { assert Entry(f, retry, field) == Lookup(projected, field); }
    }
    SameLookup(projected, Converted(f, retry));
  }

  lemma SameLookup(d: Fields, e: Fields)
    requires forall field :: Lookup(d, field) == Lookup(e, field)
    ensures d == e
  {
    forall field ensures field in d <==> field in e
      ensures field in d ==> d[field] == e[field]
    {
      assert Lookup(d, field) == Lookup(e, field);
    }
  }

  // --------------------------------------------------------------- out: enqueue_projection

  /** A conversion of duration texts. */
  type Duration = string -> Result<string, DurationError>

  predicate Refuses(convert: Duration, d: Fields, field: Field) {
    field in d && d[field].Str? && convert(d[field].text).Err?
  }

  predicate IsInterval(field: Field) {
    field == InitialInterval || field == MaxInterval
  }

  /** What enqueueing sends. Python counts True and False as integers. */
  function Sent(toProto: Duration, field: Field, value: Json): Option<Json> {
    match field
    case MaxAttempts => if value.Int? || value.Bool? then Some(value) else None
    case BackoffCoefficient => if value.Int? || value.Real? || value.Bool? then Some(value) else None
    case Jitter => if value.Bool? then Some(value) else None
    case NonRetryableErrors => if value.Arr? then Some(value) else None
    case OnExhaustion => if value.Str? then Some(value) else None
    case Other(_) => None
    case _ => if value.Str? && toProto(value.text).Ok? then Some(Str(toProto(value.text).value)) else None
  }

  function Sending(toProto: Duration): Conversion {
    (field, value) => Sent(toProto, field, value)
  }

  function SentRetry(toProto: Duration, d: Fields): Result<Fields, DurationError> {
    if Refuses(toProto, d, InitialInterval) || Refuses(toProto, d, MaxInterval) then Err(InvalidIso)
    else Ok(Converted(Sending(toProto), d))
  }

  lemma IntervalSent(toProto: Duration, name: Field, text: string, sent: string)
    requires IsInterval(name) && toProto(text) == Ok(sent)
    ensures Sending(toProto)(name, Str(text)) == Some(Str(sent))
  {
  }

  /** One interval of the loop over field names. */
  method ProjectInterval(retry: Fields, name: Field, projected: Fields, ghost done: set<Field>)
    returns (r: Result<Fields, DurationError>)
    requires IsInterval(name) && Filled(Sending(IsoToProto), projected, retry, done) && name !in done
    ensures r.Err? <==> Refuses(IsoToProto, retry, name)
    ensures r.Err? ==> r.error == InvalidIso
    ensures r.Ok? ==> Filled(Sending(IsoToProto), r.value, retry, done + {name})
  {
    var next := projected;
    if name in retry && retry[name].Str? {
      var value := IsoToProto(retry[name].text);
      if value.Err? { return Err(value.error); }
      next := projected[name := Str(value.value)];
      IntervalSent(IsoToProto, name, retry[name].text, value.value);
    }
    FillNext(Sending(IsoToProto), projected, next, retry, done, name);
    return Ok(next);
  }

  /** `enqueue_projection._project_retry`, key by key. */
  method ProjectToProto(retry: Fields) returns (r: Result<Fields, DurationError>)
    ensures r == SentRetry(IsoToProto, retry)
  {
    var projected: Fields := map[];
    if MaxAttempts in retry && (retry[MaxAttempts].Int? || retry[MaxAttempts].Bool?) {
      projected := projected[MaxAttempts := retry[MaxAttempts]];
    }
    FillNext(Sending(IsoToProto), map[], projected, retry, {}, MaxAttempts);
    ghost var done := {MaxAttempts};
    var names := [InitialInterval, MaxInterval];
    for k := 0 to |names|
      invariant done == {MaxAttempts} + set j | 0 <= j < k :: names[j]
      invariant Filled(Sending(IsoToProto), projected, retry, done)
      invariant forall j | 0 <= j < k :: !Refuses(IsoToProto, retry, names[j])
    {
      var next := ProjectInterval(retry, names[k], projected, done);
      if next.Err? { return Err(next.error); }
      projected, done := next.value, done + {names[k]};
    }
    assert names[0] == InitialInterval && names[1] == MaxInterval;
    assert done == {MaxAttempts, InitialInterval, MaxInterval};
    r := ProjectRest(retry, projected);
  }

  method ProjectRest(retry: Fields, intervals: Fields) returns (r: Result<Fields, DurationError>)
    requires Filled(Sending(IsoToProto), intervals, retry, {MaxAttempts, InitialInterval, MaxInterval})
    requires !Refuses(IsoToProto, retry, InitialInterval) && !Refuses(IsoToProto, retry, MaxInterval)
    ensures r == SentRetry(IsoToProto, retry)
  {
    ghost var done := {MaxAttempts, InitialInterval, MaxInterval};
    var projected := intervals;
    ghost var before := intervals;
    if BackoffCoefficient in retry {
      var coefficient := retry[BackoffCoefficient];
      if coefficient.Int? || coefficient.Real? || coefficient.Bool? {
        projected := projected[BackoffCoefficient := coefficient];
      }
    }
    FillNext(Sending(IsoToProto), before, projected, retry, done, BackoffCoefficient);
    done, before := done + {BackoffCoefficient}, projected;
    if Jitter in retry && retry[Jitter].Bool? { projected := projected[Jitter := retry[Jitter]]; }
    FillNext(Sending(IsoToProto), before, projected, retry, done, Jitter);
    done, before := done + {Jitter}, projected;
    if NonRetryableErrors in retry && retry[NonRetryableErrors].Arr? {
      projected := projected[NonRetryableErrors := retry[NonRetryableErrors]];
    }
    FillNext(Sending(IsoToProto), before, projected, retry, done, NonRetryableErrors);
    done, before := done + {NonRetryableErrors}, projected;
    if OnExhaustion in retry && retry[OnExhaustion].Str? {
      projected := projected[OnExhaustion := retry[OnExhaustion]];
    }
    FillNext(Sending(IsoToProto), before, projected, retry, done, OnExhaustion);
    SentAll(projected, retry, done + {OnExhaustion});
    return Ok(projected);
  }

  /** No other field is sent. */
  lemma SentAll(projected: Fields, retry: Fields, done: set<Field>)
    requires {MaxAttempts, InitialInterval, MaxInterval, BackoffCoefficient, Jitter, NonRetryableErrors, OnExhaustion}
             <= done
    requires Filled(Sending(IsoToProto), projected, retry, done)
    ensures projected == Converted(Sending(IsoToProto), retry)
  {
    forall field | field in retry ensures field in done || Sent(IsoToProto, field, retry[field]).None? {
    }
    AllFilled(Sending(IsoToProto), projected, retry, done);
  }

  /** What the wire declares for the fields that are sent as they are. */
  predicate Typed(field: Field, value: Json) {
    match field
    case MaxAttempts => value.Int? || value.Bool?
    case BackoffCoefficient => value.Int? || value.Real? || value.Bool?
    case Jitter => value.Bool?
    case NonRetryableErrors => value.Arr?
    case OnExhaustion => value.Str?
    case _ => false
  }

  /** A field that is no interval is sent exactly when it is there with its type, and then
      unchanged. */
  lemma PlainFieldsSent(d: Fields, field: Field)
    requires SentRetry(IsoToProto, d).Ok? && !IsInterval(field)
    ensures var sent := SentRetry(IsoToProto, d).value;
      if field in d && Typed(field, d[field]) then field in sent && sent[field] == d[field] else field !in sent
  {
  }

  /** An interval is sent exactly when it is text, as the duration it reads as. */
  lemma IntervalsSent(d: Fields, field: Field)
    requires SentRetry(IsoToProto, d).Ok? && IsInterval(field)
    ensures var sent := SentRetry(IsoToProto, d).value;
      if field in d && d[field].Str?
      then field in sent && IsoToProto(d[field].text).Ok? && sent[field] == Str(IsoToProto(d[field].text).value)
      else field !in sent
  {
  }

  // ------------------------------------------------------------------- back: job_projection

  function Received(toIso: Duration, field: Field, value: Json): Option<Json> {
    match field
    case MaxAttempts => Some(value)
    case BackoffCoefficient => Some(value)
    case Jitter => Some(value)
    case NonRetryableErrors => if value.Arr? && value.items != [] then Some(value) else None
    case OnExhaustion => None
    case Other(_) => None
    case _ => if value.Str? && toIso(value.text).Ok? then Some(Str(toIso(value.text).value)) else None
  }

  function Receiving(toIso: Duration): Conversion {
    (field, value) => Received(toIso, field, value)
  }

  function ReceivedRetry(toIso: Duration, d: Fields): Result<Fields, DurationError> {
    if Refuses(toIso, d, InitialInterval) || Refuses(toIso, d, MaxInterval) then Err(InvalidProto)
    else Ok(Converted(Receiving(toIso), d))
  }

  const PLAIN := [MaxAttempts, BackoffCoefficient, Jitter]

  /** The loop over the fields that are copied as they are. */
  method CopyPlain(retry: Fields) returns (projected: Fields)
    ensures Filled(Receiving(ProtoToIso), projected, retry, {MaxAttempts, BackoffCoefficient, Jitter})
  {
    projected := map[];
    ghost var done: set<Field> := {};
    for k := 0 to 3
      invariant done == set j | 0 <= j < k :: PLAIN[j]
      invariant Filled(Receiving(ProtoToIso), projected, retry, done)
    {
      ghost var before := projected;
      if PLAIN[k] in retry { projected := projected[PLAIN[k] := retry[PLAIN[k]]]; }
      FillNext(Receiving(ProtoToIso), before, projected, retry, done, PLAIN[k]);
      done := done + {PLAIN[k]};
    }
    assert PLAIN[0] == MaxAttempts && PLAIN[1] == BackoffCoefficient && PLAIN[2] == Jitter;
    assert done == {MaxAttempts, BackoffCoefficient, Jitter};
  }

  method ReadInterval(retry: Fields, name: Field, projected: Fields, ghost done: set<Field>)
    returns (r: Result<Fields, DurationError>)
    requires IsInterval(name) && Filled(Receiving(ProtoToIso), projected, retry, done) && name !in done
    ensures r.Err? <==> Refuses(ProtoToIso, retry, name)
    ensures r.Err? ==> r.error == InvalidProto
    ensures r.Ok? ==> Filled(Receiving(ProtoToIso), r.value, retry, done + {name})
  {
    var next := projected;
    if name in retry && retry[name].Str? {
      var value := ProtoToIso(retry[name].text);
      if value.Err? { return Err(value.error); }
      next := projected[name := Str(value.value)];
    }
    FillNext(Receiving(ProtoToIso), projected, next, retry, done, name);
    return Ok(next);
  }

  /** `job_projection._project_retry`. */
  method ProjectFromProto(retry: Fields) returns (r: Result<Fields, DurationError>)
    ensures r == ReceivedRetry(ProtoToIso, retry)
  {
    var projected := CopyPlain(retry);
    ghost var plain := {MaxAttempts, BackoffCoefficient, Jitter};
    var first := ReadInterval(retry, InitialInterval, projected, plain);
    if first.Err? { return Err(first.error); }
    var both := ReadInterval(retry, MaxInterval, first.value, plain + {InitialInterval});
    if both.Err? { return Err(both.error); }
    projected := both.value;
    ghost var done := plain + {InitialInterval} + {MaxInterval};
    if NonRetryableErrors in retry && retry[NonRetryableErrors].Arr? && retry[NonRetryableErrors].items != [] {
      projected := projected[NonRetryableErrors := retry[NonRetryableErrors]];
    }
    FillNext(Receiving(ProtoToIso), both.value, projected, retry, done, NonRetryableErrors);
    AllFilled(Receiving(ProtoToIso), projected, retry, done + {NonRetryableErrors});
    return Ok(projected);
  }

  // --------------------------------------------------------------------------- the codecs

  /** KeepAll carries every present field; DropZeros is proto3 JSON without field presence,
      where a scalar or a list at its zero value is not written. Durations are messages and
      are always written. */
  datatype Codec = KeepAll | DropZeros

  predicate IsZero(field: Field, value: Json) {
    match field
    case MaxAttempts => value == Int(0)
    case BackoffCoefficient => value == Real(0.0) || value == Int(0)
    case Jitter => value == Bool(false)
    case NonRetryableErrors => value == Arr([])
    case OnExhaustion => value == Str("")
    case _ => false
  }

  function Carried(codec: Codec, d: Fields): Fields {
    if codec == KeepAll then d else map field | field in d && !IsZero(field, d[field]) :: d[field]
  }

  /** To the wire, across it and back; None when a duration is refused. */
  function RoundTrip(toProto: Duration, toIso: Duration, codec: Codec, p: RetryPolicy): Option<RetryPolicy> {
    var sent := SentRetry(toProto, ToDict(p));
    if sent.Err? then None else
      var received := ReceivedRetry(toIso, Carried(codec, sent.value));
      if received.Err? then None else FromDict(received.value)
  }
}
