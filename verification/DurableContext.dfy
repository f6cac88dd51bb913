/** The durable execution context: record on first execution, replay after a restart
    (src/ojs/durable/context.py). */
module DurableContext {
  import opened Wrappers
  import opened JsonValue
  import opened ReplayLog

  datatype Op = Time | Random | Call(key: string)

  datatype Ctx = Ctx(entries: seq<Entry>, cursor: nat, replaying: bool)

  datatype OpError = WrongKind(cursor: nat) | WrongKey(cursor: nat) | NotAString | EffectRaised

  /** `value` is what the handler gets; `ran` says that the outside was asked for it. */
  datatype Performed = Performed(value: Json, ran: bool)

  function Kind(op: Op): string {
    match op
    case Time => "time"
    case Random => "random"
    case Call(_) => "call"
  }

  function Key(op: Op): string {
    match op
    case Time => "now"
    case Random => ""
    case Call(key) => key
  }

  /** What an operation done outside gives: clock and random text, or any JSON value. */
  predicate Fits(op: Op, value: Json) {
    op.Call? || value.Str?
  }

  predicate Replays(c: Ctx) {
    c.replaying && c.cursor < |c.entries|
  }

  /** `create`: a log found at the server is replayed unless it is empty. */
  function Open(loaded: Option<seq<Entry>>): Ctx {
    if loaded.Some? && loaded.value != [] then Ctx(loaded.value, 0, true) else Ctx([], 0, false)
  }

  function Consumed(c: Ctx): Ctx
    requires Replays(c)
  {
    Ctx(c.entries, c.cursor + 1, c.cursor + 1 < |c.entries|)
  }

  function Recorded(c: Ctx, op: Op, value: Json): Ctx {
    Ctx(c.entries + [Entry(|c.entries|, Kind(op), value, Key(op))], c.cursor, false)
  }

  /** One operation; `outside` is what the outside gives if it is asked. */
  function Perform(c: Ctx, op: Op, outside: Json): (Ctx, Result<Performed, OpError>) {
    if !Replays(c) then (Recorded(c, op, outside), Ok(Performed(outside, true)))
    else
      var entry := c.entries[c.cursor];
      if entry.kind != Kind(op) then (c, Err(WrongKind(c.cursor)))
      else if op.Call? && entry.key != op.key then (c, Err(WrongKey(c.cursor)))
      else if !Fits(op, entry.result) then (Consumed(c), Err(NotAString))
      else (Consumed(c), Ok(Performed(entry.result, false)))
  }

  class Durable {
    var entries: seq<Entry>
    var cursor: nat
    var replaying: bool

    ghost function View(): Ctx
      reads this
    {
      Ctx(entries, cursor, replaying)
    }

    constructor (loaded: Option<seq<Entry>>)
      ensures View() == Open(loaded)
    {
      entries := [];
      cursor := 0;
      replaying := false;
      if loaded.Some? && loaded.value != [] {
        entries := loaded.value;
        replaying := true;
      }
    }

    /** `_replay_entry`: the next recorded entry, or none when recording. */
    method ReplayEntry(kind: string, key: string) returns (r: Result<Option<Entry>, OpError>)
      modifies this
      ensures !Replays(old(View())) ==> r == Ok(None) && View() == old(View()).(replaying := false)
      ensures Replays(old(View())) && r.Err? ==> View() == old(View())
      ensures Replays(old(View())) && r.Ok? ==>
                r.value == Some(old(entries)[old(cursor)]) && View() == Consumed(old(View()))
      ensures Replays(old(View())) ==>
                var entry := old(entries)[old(cursor)];
                r == if entry.kind != kind then Err(WrongKind(old(cursor)))
                     else if kind == "call" && entry.key != key then Err(WrongKey(old(cursor)))
                     else Ok(Some(entry))
    {
      if !replaying { return Ok(None); }
      if cursor >= |entries| {
        replaying := false;
        return Ok(None);
      }
      var entry := entries[cursor];
      if entry.kind != kind { return Err(WrongKind(cursor)); }
      if kind == "call" && entry.key != key { return Err(WrongKey(cursor)); }
      cursor := cursor + 1;
      if cursor >= |entries| { replaying := false; }
      return Ok(Some(entry));
    }

    method Append(kind: string, value: Json, key: string)
      modifies this`entries
      ensures entries == old(entries) + [Entry(|old(entries)|, kind, value, key)]
    {
      entries := entries + [Entry(|entries|, kind, value, key)];
    }

    /** `now()`; `clock` is the current time in ISO form. */
    method Now(clock: string) returns (r: Result<Performed, OpError>)
      modifies this
      ensures (View(), r) == Perform(old(View()), Time, Str(clock))
    {
      var found := ReplayEntry("time", "now");
      match found
      case Err(e) => return Err(e);
      case Ok(Some(entry)) =>
        if !entry.result.Str? { return Err(NotAString); }
        return Ok(Performed(entry.result, false));
      case Ok(None) =>
        Append("time", Str(clock), "now");
        replaying := false;
        return Ok(Performed(Str(clock), true));
    }

    /** `random(n)`; `token` is the random hex text. */
    method RandomHex(token: string) returns (r: Result<Performed, OpError>)
      modifies this
      ensures (View(), r) == Perform(old(View()), Random, Str(token))
    {
      var found := ReplayEntry("random", "");
      match found
      case Err(e) => return Err(e);
      case Ok(Some(entry)) =>
        if !entry.result.Str? { return Err(NotAString); }
        return Ok(Performed(entry.result, false));
      case Ok(None) =>
        Append("random", Str(token), "");
        replaying := false;
        return Ok(Performed(Str(token), true));
    }

    /** `side_effect(key, fn)`; `outcome` is what fn returns, or None when it raises. */
    method SideEffect(key: string, outcome: Option<Json>) returns (r: Result<Performed, OpError>)
      modifies this
      ensures outcome.Some? || Replays(old(View())) ==>
                (View(), r) == Perform(old(View()), Call(key), if outcome.Some? then outcome.value else Null)
      ensures outcome.None? && !Replays(old(View())) ==>
                r == Err(EffectRaised) && View() == old(View()).(replaying := false)
    {
      var found := ReplayEntry("call", key);
      match found
      case Err(e) => return Err(e);
      case Ok(Some(entry)) => return Ok(Performed(entry.result, false));
      case Ok(None) =>
        replaying := false;
        if outcome.None? { return Err(EffectRaised); }
        Append("call", outcome.value, key);
        return Ok(Performed(outcome.value, true));
    }

    /** `checkpoint`: posts the whole log and changes nothing here. */
    method Checkpoint(step: int, state: Json, attempt: string, dumps: Dumps) returns (body: Json)
      ensures body == CheckpointBody(entries, state, step, attempt, dumps)
    {
      var log: seq<Json> := [];
      for i := 0 to |entries|
        invariant log == Wire(entries[..i]).items
      {
        log := log + [Obj(ToDict(entries[i]))];
        assert entries[..i + 1][..i] == entries[..i];
      }
      assert entries[..|entries|] == entries;
      return Obj(map["state" := state, "step_index" := Int(step),
                     "metadata" := Obj(map["_replay_log" := Str(dumps(Arr(log))), "attempt" := Str(attempt)])]);
    }
  }
}
