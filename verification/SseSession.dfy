/** The reconnecting subscription: one session over many streams
    (src/ojs/sse/subscription_session.py). */
module SseSession {
  import opened Wrappers
  import opened SseParser

  datatype RequestError = ConnectionError | TimeoutError

  /** How a stream of lines stops: end of file, or a dropped connection. */
  datatype StreamEnd = Eof | Dropped(error: RequestError)

  /** What the network does when the session opens stream number n. */
  datatype Connection =
    | Refused(error: RequestError)
    | ErrorStatus(status: nat)
    | NoContent
    | Stream(lines: seq<string>, end: StreamEnd)

  type Network = nat -> Connection

  datatype Policy = Policy(reconnect: bool, maxReconnects: nat)

  /** How reading one stream ended. */
  datatype Ended = Clean | Terminated | Retryable(error: RequestError) | Fatal

  datatype Ending = Returned | Raised(error: RequestError) | RaisedFatal

  // ----------------------------------------------------------------- one stream of lines

  datatype Parsed = Parsed(events: seq<Event>, state: State, malformed: bool)

  /** Feeding lines one by one, until the data of a frame is refused. */
  function Parse(cfg: Config, s: State, lines: seq<string>): Parsed
    decreases |lines|
  {
    if lines == [] then Parsed([], s, false)
    else match Output(cfg, s, lines[0])
      case Malformed => Parsed([], Next(s, lines[0]), true)
      case Emitted(event) =>
        var rest := Parse(cfg, Next(s, lines[0]), lines[1..]);
        rest.(events := [event] + rest.events)
      case Nothing => Parse(cfg, Next(s, lines[0]), lines[1..])
  }

  function Seeded(id: string): State {
    State("", id, [])
  }

  function LastYielded(events: seq<Event>, before: string): string {
    if events == [] then before else events[|events| - 1].id
  }

  function Consume(cfg: Config, c: Connection, lastId: string): (seq<Event>, Ended) {
    match c
    case Refused(error) => ([], Retryable(error))
    case ErrorStatus(_) => ([], Fatal)
    case NoContent => ([], Terminated)
    case Stream(lines, end) =>
      var parsed := Parse(cfg, Seeded(lastId), lines);
      (parsed.events,
       if parsed.malformed then Fatal else if end.Eof? then Clean else Retryable(end.error))
  }

  // -------------------------------------------------------------------------- the session

  /** `headers[n]` is the Last-Event-ID sent when stream n was opened, `batches[n]` the
      events it yielded. */
  datatype Trace = Trace(headers: seq<Option<string>>, batches: seq<seq<Event>>, ending: Ending)

  function Header(lastId: string): Option<string> {
    if lastId == "" then None else Some(lastId)
  }

  predicate CanReconnect(policy: Policy, reconnects: nat) {
    policy.reconnect && reconnects < policy.maxReconnects
  }

  /** How a session ends on a stream it does not follow with another. */
  function EndingOf(ended: Ended): Ending {
    match ended
    case Terminated => Returned
    case Fatal => RaisedFatal
    case Clean => Returned
    case Retryable(error) => Raised(error)
  }

  function Session(cfg: Config, policy: Policy, net: Network, reconnects: nat, lastId: string): Trace
    decreases policy.maxReconnects - reconnects
  {
    var (events, ended) := Consume(cfg, net(reconnects), lastId);
    if ended.Terminated? || ended.Fatal? || !CanReconnect(policy, reconnects) then
      Trace([Header(lastId)], [events], EndingOf(ended))
    else
      var rest := Session(cfg, policy, net, reconnects + 1, LastYielded(events, lastId));
      Trace([Header(lastId)] + rest.headers, [events] + rest.batches, rest.ending)
  }

  function Flatten<T>(parts: seq<seq<T>>): seq<T> {
    if parts == [] then [] else parts[0] + Flatten(parts[1..])
  }

  /** `_consume_once`: one parser, seeded with the sticky id, fed line by line. */
  method ConsumeOnce(cfg: Config, c: Connection, lastId: string) returns (events: seq<Event>, ended: Ended)
    ensures (events, ended) == Consume(cfg, c, lastId)
  {
    events := [];
    match c
    case Refused(error) => return [], Retryable(error);
    case ErrorStatus(_) => return [], Fatal;
    case NoContent => return [], Terminated;
    case Stream(lines, end) =>
      var parser := new FrameParser(cfg, lastId);
      for i := 0 to |lines|
        invariant parser.cfg == cfg
        invariant Parse(cfg, Seeded(lastId), lines)
               == var rest := Parse(cfg, parser.View(), lines[i..]); rest.(events := events + rest.events)
      {
        assert lines[i..][0] == lines[i] && lines[i..][1..] == lines[i + 1..];
        var fed := parser.Feed(lines[i]);
        match fed
        case Malformed =>
          assert events + [] == events;
          return events, Fatal;
        case Emitted(event) => events := events + [event];
        case Nothing =>
      }
      assert lines[|lines|..] == [];
      assert events + [] == events;
      parser.Finish();
      return events, if end.Eof? then Clean else Retryable(end.error);
  }

  /** What was seen on the first streams, and then the rest. */
  function After(headers: seq<Option<string>>, batches: seq<seq<Event>>, rest: Trace): Trace {
    Trace(headers + rest.headers, batches + rest.batches, rest.ending)
  }

  lemma AfterOneMore(headers: seq<Option<string>>, batches: seq<seq<Event>>, h: Option<string>, b: seq<Event>,
                     rest: Trace)
    ensures After(headers, batches, Trace([h] + rest.headers, [b] + rest.batches, rest.ending))
         == After(headers + [h], batches + [b], rest)
  {
    assert headers + ([h] + rest.headers) == headers + [h] + rest.headers;
    assert batches + ([b] + rest.batches) == batches + [b] + rest.batches;
  }

  /** The session after one stream, given what that stream came to. */
  lemma SessionGoesOn(cfg: Config, policy: Policy, net: Network, reconnects: nat, lastId: string, events: seq<Event>,
                      ended: Ended)
    requires (events, ended) == Consume(cfg, net(reconnects), lastId) && CanReconnect(policy, reconnects)
    requires ended.Clean? || ended.Retryable?
    ensures var rest := Session(cfg, policy, net, reconnects + 1, LastYielded(events, lastId));
      Session(cfg, policy, net, reconnects, lastId)
      == Trace([Header(lastId)] + rest.headers, [events] + rest.batches, rest.ending)
  {
  }

  lemma SessionStops(cfg: Config, policy: Policy, net: Network, reconnects: nat, lastId: string, events: seq<Event>,
                     ended: Ended)
    requires (events, ended) == Consume(cfg, net(reconnects), lastId)
    requires ended.Terminated? || ended.Fatal? || !CanReconnect(policy, reconnects)
    ensures Session(cfg, policy, net, reconnects, lastId) == Trace([Header(lastId)], [events], EndingOf(ended))
  {
  }

  /** `events()`: read a stream, and reconnect while the policy allows it. */
  method Events(cfg: Config, policy: Policy, net: Network) returns (trace: Trace)
    ensures trace == Session(cfg, policy, net, 0, "")
    ensures |trace.headers| == |trace.batches| <= policy.maxReconnects + 1
  {
    var reconnects: nat, lastId := 0, "";
    var headers: seq<Option<string>>, batches: seq<seq<Event>> := [], [];
    while true
      invariant |headers| == |batches| == reconnects
      invariant reconnects <= policy.maxReconnects
      invariant Session(cfg, policy, net, 0, "")
             == After(headers, batches, Session(cfg, policy, net, reconnects, lastId))
      decreases policy.maxReconnects - reconnects
    {
      headers := headers + [Header(lastId)];
      var events, ended := ConsumeOnce(cfg, net(reconnects), lastId);
      batches := batches + [events];
      if ended.Terminated? || ended.Fatal? || !CanReconnect(policy, reconnects) {
        SessionStops(cfg, policy, net, reconnects, lastId, events, ended);
      } else {
        SessionGoesOn(cfg, policy, net, reconnects, lastId, events, ended);
      }
      if events != [] { lastId := events[|events| - 1].id; }
      match ended {
        case Terminated => return Trace(headers, batches, Returned);
        case Fatal => return Trace(headers, batches, RaisedFatal);
        case Retryable(error) =>
          if !CanReconnect(policy, reconnects) { return Trace(headers, batches, Raised(error)); }
        case Clean =>
          if !CanReconnect(policy, reconnects) { return Trace(headers, batches, Returned); }
      }
      AfterOneMore(headers[..reconnects], batches[..reconnects], headers[reconnects], events,
                   Session(cfg, policy, net, reconnects + 1, lastId));
      assert headers == headers[..reconnects] + [headers[reconnects]];
      assert batches == batches[..reconnects] + [events];
      reconnects := reconnects + 1;
    }
  }

  // ------------------------------------------------------------------- what a session does

  /** At most one stream more than the reconnects allowed, and only one without them. */
  lemma {:induction false} StreamsBounded(cfg: Config, policy: Policy, net: Network, reconnects: nat, lastId: string)
    requires reconnects <= policy.maxReconnects
    ensures var t := Session(cfg, policy, net, reconnects, lastId);
      && 1 <= |t.headers| == |t.batches| <= policy.maxReconnects - reconnects + 1
      && (!policy.reconnect ==> |t.headers| == 1)
    decreases policy.maxReconnects - reconnects
  {
    var (events, ended) := Consume(cfg, net(reconnects), lastId);
    if CanReconnect(policy, reconnects) {
      StreamsBounded(cfg, policy, net, reconnects + 1, LastYielded(events, lastId));
    }
  }

  /** Every stream is opened with the id of the event yielded last, by whichever stream,
      and without the header when there is none or that id is empty. */
  lemma {:induction false} HeaderIsLastYielded(cfg: Config, policy: Policy, net: Network, reconnects: nat,
                                               lastId: string, n: nat)
    requires reconnects <= policy.maxReconnects
    requires n < |Session(cfg, policy, net, reconnects, lastId).headers|
    ensures var t := Session(cfg, policy, net, reconnects, lastId);
      && |t.batches| == |t.headers|
      && var id := LastYielded(Flatten(t.batches[..n]), lastId);
         t.headers[n] == if id == "" then None else Some(id)
    decreases n
  {
    StreamsBounded(cfg, policy, net, reconnects, lastId);
    if n > 0 {
      var (events, ended) := Consume(cfg, net(reconnects), lastId);
      var rest := Session(cfg, policy, net, reconnects + 1, LastYielded(events, lastId));
      HeaderIsLastYielded(cfg, policy, net, reconnects + 1, LastYielded(events, lastId), n - 1);
      SessionGoesOn(cfg, policy, net, reconnects, lastId, events, ended);
      HeaderOfRest(Session(cfg, policy, net, reconnects, lastId), rest, events, lastId, n);
    }
  }

  lemma HeaderOfRest(t: Trace, rest: Trace, events: seq<Event>, lastId: string, n: nat)
    requires t.headers == [Header(lastId)] + rest.headers && t.batches == [events] + rest.batches
    requires 0 < n <= |rest.headers| == |rest.batches|
    requires rest.headers[n - 1] == Header(LastYielded(Flatten(rest.batches[..n - 1]), LastYielded(events, lastId)))
    ensures t.headers[n] == Header(LastYielded(Flatten(t.batches[..n]), lastId))
  {
    assert t.batches[..n] == [events] + rest.batches[..n - 1];
    AddsUp(events, rest.batches[..n - 1], t.batches[..n]);
  }

  // --------------------------------------------------------------------- cutting a stream

  /** Parsing two pieces is parsing the first and going on from where it left the parser. */
  lemma {:induction false} ParseConcat(cfg: Config, s: State, a: seq<string>, b: seq<string>)
    decreases |a|
    ensures var first := Parse(cfg, s, a);
      Parse(cfg, s, a + b) ==
        if first.malformed then first
        else var rest := Parse(cfg, first.state, b); rest.(events := first.events + rest.events)
  {
    if a == [] {
      assert a + b == b;
    } else {
      assert (a + b)[0] == a[0] && (a + b)[1..] == a[1..] + b;
      ParseConcat(cfg, Next(s, a[0]), a[1..], b);
    }
  }

  /** Parser states that only differ in how they say "message". */
  predicate Alike(a: State, b: State) {
    Kind(a.kind) == Kind(b.kind) && a.lastId == b.lastId && a.data == b.data
  }

  lemma {:induction false} AlikeParse(cfg: Config, a: State, b: State, lines: seq<string>)
    requires Alike(a, b)
    ensures Parse(cfg, a, lines).events == Parse(cfg, b, lines).events
    ensures Parse(cfg, a, lines).malformed == Parse(cfg, b, lines).malformed
    ensures Alike(Parse(cfg, a, lines).state, Parse(cfg, b, lines).state)
    decreases |lines|
  {
    if lines != [] {
      AlikeParse(cfg, Next(a, lines[0]), Next(b, lines[0]), lines[1..]);
    }
  }

  /** A new parser, seeded with the last yielded id, would go on as this one does. */
  predicate CleanCut(parsed: Parsed, seed: string) {
    Alike(parsed.state, Seeded(LastYielded(parsed.events, seed)))
  }

  /** The streams opened from number `reconnects` on carry the pieces. */
  predicate AllStreams(net: Network, reconnects: nat, pieces: seq<seq<string>>)
    decreases |pieces|
  {
    pieces == []
    || (&& net(reconnects).Stream? && net(reconnects).lines == pieces[0]
        && AllStreams(net, reconnects + 1, pieces[1..]))
  }

  /** Every cut but the end of the last piece leaves nothing pending. */
  predicate CutCleanly(cfg: Config, seed: string, pieces: seq<seq<string>>)
    decreases |pieces|
  {
    if |pieces| <= 1 then true
    else
      var first := Parse(cfg, Seeded(seed), pieces[0]);
      first.malformed || (CleanCut(first, seed) && CutCleanly(cfg, LastYielded(first.events, seed), pieces[1..]))
  }

  /** After a clean cut a fresh parser with the sticky id finds what the old one would. */
  lemma WholeGoesOn(cfg: Config, seed: string, piece: seq<string>, rest: seq<string>, id: string)
    requires var first := Parse(cfg, Seeded(seed), piece);
      !first.malformed && CleanCut(first, seed) && id == LastYielded(first.events, seed)
    ensures var whole, later := Parse(cfg, Seeded(seed), piece + rest), Parse(cfg, Seeded(id), rest);
      whole.events == Parse(cfg, Seeded(seed), piece).events + later.events && whole.malformed == later.malformed
  {
    ParseConcat(cfg, Seeded(seed), piece, rest);
    AlikeParse(cfg, Parse(cfg, Seeded(seed), piece).state, Seeded(id), rest);
  }

  /** The session yields the events of the whole; what the streams after its n pieces
      yield comes after that. */
  ghost predicate Transparent(policy: Policy, net: Network, reconnects: nat, n: nat, whole: Parsed, t: Trace) {
    && whole.events <= Flatten(t.batches)
    && (whole.malformed ==> t.ending == RaisedFatal && whole.events == Flatten(t.batches))
    && (reconnects + n == policy.maxReconnects + 1 ==> whole.events == Flatten(t.batches))
    && (reconnects + n <= policy.maxReconnects && net(reconnects + n).NoContent? ==> whole.events == Flatten(t.batches))
  }

  /** Reconnecting is invisible: a stream of lines cut cleanly into pieces, each read on
      its own connection, yields the events of one parser reading it whole. */
  lemma {:induction false} ReconnectTransparent(cfg: Config, policy: Policy, net: Network, reconnects: nat,
                                                seed: string, pieces: seq<seq<string>>)
    requires policy.reconnect && 0 < |pieces| && reconnects + |pieces| <= policy.maxReconnects + 1
    requires AllStreams(net, reconnects, pieces) && CutCleanly(cfg, seed, pieces)
    ensures Transparent(policy, net, reconnects, |pieces|, Parse(cfg, Seeded(seed), Flatten(pieces)),
                        Session(cfg, policy, net, reconnects, seed))
    decreases |pieces|
  {
    var first := Parse(cfg, Seeded(seed), pieces[0]);
    assert Flatten(pieces) == pieces[0] + Flatten(pieces[1..]);
    if first.malformed {
      MalformedPiece(cfg, policy, net, reconnects, seed, pieces[0], Flatten(pieces[1..]), |pieces|);
    } else if |pieces| > 1 {
      var id := LastYielded(first.events, seed);
      ReconnectTransparent(cfg, policy, net, reconnects + 1, id, pieces[1..]);
      WholeGoesOn(cfg, seed, pieces[0], Flatten(pieces[1..]), id);
      CleanPiece(cfg, policy, net, reconnects, seed, pieces[0]);
      FirstThenRest(policy, net, reconnects, |pieces|, first.events,
                    Parse(cfg, Seeded(seed), Flatten(pieces)), Session(cfg, policy, net, reconnects, seed),
                    Parse(cfg, Seeded(id), Flatten(pieces[1..])), Session(cfg, policy, net, reconnects + 1, id));
    } else {
      assert Flatten(pieces) == pieces[0];
      LastPiece(cfg, policy, net, reconnects, seed, first.events);
    }
  }

  lemma MalformedPiece(cfg: Config, policy: Policy, net: Network, reconnects: nat, seed: string, piece: seq<string>,
                       rest: seq<string>, n: nat)
    requires net(reconnects).Stream? && net(reconnects).lines == piece && Parse(cfg, Seeded(seed), piece).malformed
    ensures Transparent(policy, net, reconnects, n, Parse(cfg, Seeded(seed), piece + rest),
                        Session(cfg, policy, net, reconnects, seed))
  {
    ParseConcat(cfg, Seeded(seed), piece, rest);
    var events := Parse(cfg, Seeded(seed), piece).events;
    SessionStops(cfg, policy, net, reconnects, seed, events, Fatal);
    AddsUp(events, [], [events]);
    assert [events] + [] == [events] && events + Flatten([]) == events;
  }

  /** A piece that is not malformed is followed by the next stream. */
  lemma CleanPiece(cfg: Config, policy: Policy, net: Network, reconnects: nat, seed: string, piece: seq<string>)
    requires net(reconnects).Stream? && net(reconnects).lines == piece && !Parse(cfg, Seeded(seed), piece).malformed
    requires policy.reconnect && reconnects < policy.maxReconnects
    ensures var events := Parse(cfg, Seeded(seed), piece).events;
            var rest := Session(cfg, policy, net, reconnects + 1, LastYielded(events, seed));
      Session(cfg, policy, net, reconnects, seed)
      == Trace([Header(seed)] + rest.headers, [events] + rest.batches, rest.ending)
  {
    var (events, ended) := Consume(cfg, net(reconnects), seed);
    SessionGoesOn(cfg, policy, net, reconnects, seed, events, ended);
  }

  lemma FirstThenRest(policy: Policy, net: Network, reconnects: nat, n: nat, events: seq<Event>, whole: Parsed,
                      t: Trace, later: Parsed, rest: Trace)
    requires n > 1 && Transparent(policy, net, reconnects + 1, n - 1, later, rest)
    requires whole.events == events + later.events && whole.malformed == later.malformed
    requires t.batches == [events] + rest.batches && t.ending == rest.ending
    ensures Transparent(policy, net, reconnects, n, whole, t)
  {
    AddsUp(events, rest.batches, t.batches);
  }

  lemma AddsUp(events: seq<Event>, rest: seq<seq<Event>>, batches: seq<seq<Event>>)
    requires batches == [events] + rest
    ensures Flatten(batches) == events + Flatten(rest)
  {
    assert batches[1..] == rest;
  }

  lemma LastPiece(cfg: Config, policy: Policy, net: Network, reconnects: nat, seed: string, events: seq<Event>)
    requires reconnects <= policy.maxReconnects && policy.reconnect && net(reconnects).Stream?
    requires Consume(cfg, net(reconnects), seed).0 == events && !Consume(cfg, net(reconnects), seed).1.Fatal?
    ensures var t := Session(cfg, policy, net, reconnects, seed);
      && events <= Flatten(t.batches)
      && (reconnects == policy.maxReconnects || net(reconnects + 1).NoContent? ==> events == Flatten(t.batches))
  {
    var t := Session(cfg, policy, net, reconnects, seed);
    if reconnects < policy.maxReconnects {
      var rest := Session(cfg, policy, net, reconnects + 1, LastYielded(events, seed));
      assert t.batches == [events] + rest.batches;
      if net(reconnects + 1).NoContent? {
        assert rest.batches == [[]];
        assert Flatten(rest.batches) == [] + Flatten([]);
      }
    } else {
      assert t.batches == [events];
      assert Flatten(t.batches) == events + Flatten([]);
    }
  }

  // -------------------------------------------------------------- which cuts are invisible

  ghost predicate InvisibleCut(cfg: Config, seed: string, piece: seq<string>) {
    var first := Parse(cfg, Seeded(seed), piece);
    forall rest ::
      Parse(cfg, first.state, rest).events == Parse(cfg, Seeded(LastYielded(first.events, seed)), rest).events
  }

  lemma JoinedProbe(data: seq<string>)
    ensures Joined(data + ["{}"]) != ""
    ensures Joined(data + ["{}"]) == "{}" ==> data == []
  {
    if data != [] { assert (data + ["{}"])[..|data|] == data; }
  }

  /** The JSON decoder accepts the empty object, or nothing is refused. */
  predicate ReadsObjects(cfg: Config) {
    cfg.decode("{}").Payload? || !cfg.raiseMalformed
  }

  /** A cut is invisible for every continuation exactly when it leaves no data pending, no
      event type other than "message" pending, and an id buffer equal to the id of the
      last yielded event. */
  lemma CutInvisibleExactly(cfg: Config, seed: string, piece: seq<string>)
    requires ReadsObjects(cfg)
    ensures InvisibleCut(cfg, seed, piece) <==> CleanCut(Parse(cfg, Seeded(seed), piece), seed)
  {
    var first := Parse(cfg, Seeded(seed), piece);
    var fresh' := Seeded(LastYielded(first.events, seed));
    if CleanCut(first, seed) {
      forall rest ensures Parse(cfg, first.state, rest).events == Parse(cfg, fresh', rest).events {
        AlikeParse(cfg, first.state, fresh', rest);
      }
    }
    if InvisibleCut(cfg, seed, piece) {
      assert Parse(cfg, first.state, PROBE).events == Parse(cfg, fresh', PROBE).events;
      ProbedAlike(cfg, first.state, fresh');
    }
  }

  const PROBE := ["data:{}", ""]

  /** One more frame tells apart a parser with something pending from a new one. */
  lemma ProbedAlike(cfg: Config, s: State, fresh': State)
    requires ReadsObjects(cfg) && fresh'.kind == "" && fresh'.data == []
    requires Parse(cfg, s, PROBE).events == Parse(cfg, fresh', PROBE).events
    ensures Alike(s, fresh')
  {
    Probe(cfg, s);
    Probe(cfg, fresh');
    JoinedProbe(s.data);
    assert [] + ["{}"] == ["{}"] && Joined(["{}"]) == "{}";
    assert Dispatch(cfg, fresh'.(data := fresh'.data + ["{}"])).Emitted?;
    assert Dispatch(cfg, s.(data := s.data + ["{}"])) == Dispatch(cfg, fresh'.(data := fresh'.data + ["{}"]));
  }

  /** What the two probe lines bring out of a parser state. */
  lemma Probe(cfg: Config, s: State)
    ensures Parse(cfg, s, PROBE).events ==
            match Dispatch(cfg, s.(data := s.data + ["{}"])) case Emitted(e) => [e] case _ => []
  {
    ProbeLine();
    var next := Next(s, PROBE[0]);
    assert next == s.(data := s.data + ["{}"]);
    assert PROBE[1..] == [""] && [""][1..] == [];
    assert Parse(cfg, s, PROBE) == Parse(cfg, next, [""]);
    assert Parse(cfg, Next(next, ""), []).events == [];
  }

  lemma ProbeLine()
    ensures var line := "data:{}";
      Sets(line, "data") && FieldValue(line) == "{}" && !Sets(line, "event") && !SetsId(line)
  {
    var line := "data:{}";
    var k := Colon(line);
    assert line[4] == ':';
    assert k == 4;
    assert line[..4] == "data" && line[5..] == "{}";
  }

  /** An id in a frame that yields no event is lost at a reconnect: the next event keeps
      it when the stream is not cut, and has the empty id when it is. */
  lemma EventlessIdIsLost(cfg: Config)
    requires ReadsObjects(cfg)
    ensures var piece := ["id:7", ""];
      && Parse(cfg, Seeded(""), piece).events == []
      && Parse(cfg, Seeded(""), piece).state == State("", "7", [])
      && !InvisibleCut(cfg, "", piece)
  {
    var piece := ["id:7", ""];
    var line := "id:7";
    var k := Colon(line);
    assert line[2] == ':';
    assert k == 2;
    assert line[..2] == "id" && line[3..] == "7";
    assert FieldValue(line) == "7" && SetsId(line);
    assert piece[1..] == [""] && piece[1..][1..] == [];
    var s := Next(Seeded(""), piece[0]);
    assert s == State("", "7", []);
    assert Parse(cfg, s, [""]) == Parse(cfg, Next(s, ""), []);
    CutInvisibleExactly(cfg, "", piece);
  }
}
