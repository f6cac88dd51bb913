/** Which streams a subscription opens, what each yields, and how it ends
    (src/ojs/sse/subscription_session.py:121-209). */
module SseEndings {
  import opened SseParser
  import opened SseSession

  /** How a session ends on this stream whatever the policy: nothing more to come, an error
      status, or data that is refused. */
  predicate EndsIt(cfg: Config, c: Connection, lastId: string) {
    c.NoContent? || c.ErrorStatus? || (c.Stream? && Parse(cfg, Seeded(lastId), c.lines).malformed)
  }

  /** The events of one stream, opened with that id. */
  predicate Yields(cfg: Config, c: Connection, lastId: string, events: seq<Event>) {
    events == if c.Stream? then Parse(cfg, Seeded(lastId), c.lines).events else []
  }

  /** The session goes on after stream m, opened with `id`. */
  predicate Follows(cfg: Config, policy: Policy, net: Network, m: nat, id: string) {
    !EndsIt(cfg, net(m), id) && policy.reconnect && m < policy.maxReconnects
  }

  /** The last stream decides how the session ends: without an error after "no content" or at
      the end of a stream that may not be reopened, with the connection's own error when it may
      not be reopened, and for good after an error status or refused data. */
  function EndedBy(cfg: Config, c: Connection, id: string): Ending {
    match c
    case NoContent => Returned
    case ErrorStatus(_) => RaisedFatal
    case Refused(error) => Raised(error)
    case Stream(lines, end) =>
      if Parse(cfg, Seeded(id), lines).malformed then RaisedFatal
      else match end
        case Eof => Returned
        case Dropped(error) => Raised(error)
  }

  /** Stream m of the trace was opened with that id. */
  function IdAt(t: Trace, m: nat, lastId: string): string
    requires m <= |t.batches|
  {
    LastYielded(Flatten(t.batches[..m]), lastId)
  }

  ghost predicate StreamAt(cfg: Config, policy: Policy, net: Network, first: nat, t: Trace, lastId: string, m: nat)
    requires m < |t.batches|
  {
    && Yields(cfg, net(first + m), IdAt(t, m, lastId), t.batches[m])
    && (Follows(cfg, policy, net, first + m, IdAt(t, m, lastId)) <==> m + 1 < |t.batches|)
  }

  lemma ConsumeYields(cfg: Config, c: Connection, lastId: string)
    ensures Yields(cfg, c, lastId, Consume(cfg, c, lastId).0)
    ensures var ended := Consume(cfg, c, lastId).1;
      && (EndsIt(cfg, c, lastId) <==> ended.Terminated? || ended.Fatal?)
      && EndingOf(ended) == EndedBy(cfg, c, lastId)
  {
  }

  lemma IdOfRest(t: Trace, rest: Trace, events: seq<Event>, lastId: string, m: nat)
    requires t.batches == [events] + rest.batches && 0 < m <= |t.batches|
    ensures IdAt(t, m, lastId) == IdAt(rest, m - 1, LastYielded(events, lastId))
  {
    assert t.batches[..m] == [events] + rest.batches[..m - 1];
    AddsUp(events, rest.batches[..m - 1], t.batches[..m]);
  }

  lemma IdOfFirst(t: Trace, lastId: string)
    ensures IdAt(t, 0, lastId) == lastId
  {
    assert t.batches[..0] == [];
  }

  /** What a session does: each of its streams, and its end. */
  ghost predicate Does(cfg: Config, policy: Policy, net: Network, first: nat, lastId: string, t: Trace) {
    && |t.batches| > 0
    && (forall m: nat | m < |t.batches| :: StreamAt(cfg, policy, net, first, t, lastId, m))
    && t.ending == EndedBy(cfg, net(first + |t.batches| - 1), IdAt(t, |t.batches| - 1, lastId))
  }

  lemma DoesFirst(cfg: Config, policy: Policy, net: Network, first: nat, lastId: string, events: seq<Event>, t: Trace,
                  rest: Trace)
    requires Yields(cfg, net(first), lastId, events) && Follows(cfg, policy, net, first, lastId)
    requires Does(cfg, policy, net, first + 1, LastYielded(events, lastId), rest)
    requires t.batches == [events] + rest.batches && t.ending == rest.ending
    ensures Does(cfg, policy, net, first, lastId, t)
  {
    var next := LastYielded(events, lastId);
    IdOfFirst(t, lastId);
    forall m: nat | m < |t.batches| ensures StreamAt(cfg, policy, net, first, t, lastId, m) {
      if m > 0 {
        IdOfRest(t, rest, events, lastId, m);
        assert StreamAt(cfg, policy, net, first + 1, rest, next, m - 1);
        assert first + 1 + (m - 1) == first + m && t.batches[m] == rest.batches[m - 1];
      }
    }
    IdOfRest(t, rest, events, lastId, |t.batches| - 1);
    assert first + 1 + |rest.batches| - 1 == first + |t.batches| - 1;
  }

  lemma DoesLast(cfg: Config, policy: Policy, net: Network, first: nat, lastId: string, events: seq<Event>, t: Trace)
    requires Yields(cfg, net(first), lastId, events) && !Follows(cfg, policy, net, first, lastId)
    requires t.batches == [events] && t.ending == EndedBy(cfg, net(first), lastId)
    ensures Does(cfg, policy, net, first, lastId, t)
  {
    IdOfFirst(t, lastId);
  }

  /** Every stream yields the events of its own lines; it is followed by another exactly when it
      does not end the session and the policy allows it; and the last one decides the ending. */
  lemma {:induction false} SessionDoes(cfg: Config, policy: Policy, net: Network, first: nat, lastId: string)
    requires first <= policy.maxReconnects
    ensures Does(cfg, policy, net, first, lastId, Session(cfg, policy, net, first, lastId))
    decreases policy.maxReconnects - first
  {
    var t := Session(cfg, policy, net, first, lastId);
    var (events, ended) := Consume(cfg, net(first), lastId);
    ConsumeYields(cfg, net(first), lastId);
    if Follows(cfg, policy, net, first, lastId) {
      var next := LastYielded(events, lastId);
      SessionGoesOn(cfg, policy, net, first, lastId, events, ended);
      SessionDoes(cfg, policy, net, first + 1, next);
      DoesFirst(cfg, policy, net, first, lastId, events, t, Session(cfg, policy, net, first + 1, next));
    } else {
      SessionStops(cfg, policy, net, first, lastId, events, ended);
      DoesLast(cfg, policy, net, first, lastId, events, t);
    }
  }
}
