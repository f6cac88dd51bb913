/** Replay log entries, their wire form, and the fail-closed loader
    (src/ojs/durable/replay_loader.py). */
module ReplayLog {
  import opened Wrappers
  import opened JsonValue

  datatype Entry = Entry(seqNo: int, kind: string, result: Json, key: string)

  const KINDS: set<string> := {"time", "random", "call"}

  datatype ReplayError =
    | SeqNotInteger | UnhashableType | InvalidType(seqNo: int) | MissingResult(seqNo: int) | KeyNotString(seqNo: int)
    | NotAnObject | NoHasCheckpoint | NoCheckpoint | NoMetadata | NoLog | InvalidJson | LogNotArray
    | EntryNotObject(index: nat) | SeqMismatch(expected: nat, found: int)

  function ToDict(e: Entry): map<string, Json> {
    map["seq" := Int(e.seqNo), "type" := Str(e.kind), "result" := e.result]
    + (if e.key != "" then map["key" := Str(e.key)] else map[])
  }

  function Get(data: map<string, Json>, name: string): Json {
    if name in data then data[name] else Null
  }

  function FromDict(data: map<string, Json>): Result<Entry, ReplayError> {
    var seqNo := Get(data, "seq");
    var kind := Get(data, "type");
    if !seqNo.Int? then Err(SeqNotInteger)
    else if kind.Arr? || kind.Obj? then Err(UnhashableType)
    else if !kind.Str? || kind.text !in KINDS then Err(InvalidType(seqNo.whole))
    else if "result" !in data then Err(MissingResult(seqNo.whole))
    else
      var key := if "key" in data then data["key"] else Str("");
      if !key.Str? then Err(KeyNotString(seqNo.whole))
      else Ok(Entry(seqNo.whole, kind.text, data["result"], key.text))
  }

  /** Reading back what was written. */
  lemma EntryRoundTrip(e: Entry)
    requires e.kind in KINDS
    ensures FromDict(ToDict(e)) == Ok(e)
  {
    var data := ToDict(e);
    assert data["seq"] == Int(e.seqNo) && data["type"] == Str(e.kind) && data["result"] == e.result;
    if e.key != "" { assert data["key"] == Str(e.key); } else { assert "key" !in data; }
  }

  /** An entry is accepted only if writing it again gives the fields it was read from. */
  lemma AcceptedEntryIsFaithful(data: map<string, Json>)
    requires FromDict(data).Ok?
    ensures FromDict(data).value.kind in KINDS
    ensures var again := ToDict(FromDict(data).value);
      forall name | name in again :: name in data && data[name] == again[name]
  {
    var e := FromDict(data).value;
    assert ToDict(e).Keys <= {"seq", "type", "result", "key"};
  }

  /** What the resume endpoint gave: nothing for this job, or a body. */
  datatype Fetched = NotFound | Body(body: Json)

  type Loads = string -> Option<Json>
  type Dumps = Json -> string

  function LogText(body: Json): Result<Option<string>, ReplayError> {
    if !body.Obj? then Err(NotAnObject)
    else if Get(body.fields, "has_checkpoint") == Bool(false) then Ok(None)
    else if Get(body.fields, "has_checkpoint") != Bool(true) then Err(NoHasCheckpoint)
    else
      var checkpoint := Get(body.fields, "checkpoint");
      if !checkpoint.Obj? then Err(NoCheckpoint)
      else
        var metadata := Get(checkpoint.fields, "metadata");
        if !metadata.Obj? then Err(NoMetadata)
        else
          var text := Get(metadata.fields, "_replay_log");
          if !text.Str? || text.text == "" then Err(NoLog) else Ok(Some(text.text))
  }

  function DecodeEntry(raw: Json, index: nat): Result<Entry, ReplayError> {
    if !raw.Obj? then Err(EntryNotObject(index))
    else match FromDict(raw.fields)
      case Err(e) => Err(e)
      case Ok(entry) => if entry.seqNo != index then Err(SeqMismatch(index, entry.seqNo)) else Ok(entry)
  }

  /** The entries before the first one that cannot be accepted, or that error. */
  function DecodeEntries(items: seq<Json>): Result<seq<Entry>, ReplayError> {
    if items == [] then Ok([])
    else
      var last := |items| - 1;
      match DecodeEntries(items[..last])
      case Err(e) => Err(e)
      case Ok(before) =>
        match DecodeEntry(items[last], last)
        case Err(e) => Err(e)
        case Ok(entry) => Ok(before + [entry])
  }

  function LoadLog(fetched: Fetched, loads: Loads): Result<Option<seq<Entry>>, ReplayError> {
    if fetched.NotFound? then Ok(None)
    else match LogText(fetched.body)
      case Err(e) => Err(e)
      case Ok(None) => Ok(None)
      case Ok(Some(text)) =>
        match loads(text)
        case None => Err(InvalidJson)
        case Some(decoded) =>
          if !decoded.Arr? then Err(LogNotArray)
          else match DecodeEntries(decoded.items)
            case Err(e) => Err(e)
            case Ok(entries) => Ok(Some(entries))
  }

  /** The checked loop of `load_replay_log` over the decoded array. */
  method CheckEntries(items: seq<Json>) returns (r: Result<seq<Entry>, ReplayError>)
    ensures r == DecodeEntries(items)
    ensures r.Ok? ==> |r.value| == |items| && forall i | 0 <= i < |r.value| :: r.value[i].seqNo == i
  {
    var entries: seq<Entry> := [];
    for i := 0 to |items|
      invariant DecodeEntries(items[..i]) == Ok(entries)
      invariant |entries| == i && forall k | 0 <= k < i :: entries[k].seqNo == k
    {
      assert items[..i + 1][..i] == items[..i];
      match DecodeEntry(items[i], i)
      case Err(e) =>
        DecodeFails(items, i);
        return Err(e);
      case Ok(entry) =>
        entries := entries + [entry];
    }
    assert items[..|items|] == items;
    return Ok(entries);
  }

  lemma {:induction false} DecodeFails(items: seq<Json>, i: nat)
    requires i < |items| && DecodeEntries(items[..i]).Ok? && DecodeEntry(items[i], i).Err?
    ensures DecodeEntries(items) == Err(DecodeEntry(items[i], i).error)
  {
    var last := |items| - 1;
    if i < last {
      assert items[..last][..i] == items[..i];
      DecodeFails(items[..last], i);
    }
  }

  /** Every accepted log is numbered by position and holds known kinds only. */
  lemma {:induction false} DecodedIsNumbered(items: seq<Json>)
    requires DecodeEntries(items).Ok?
    ensures |DecodeEntries(items).value| == |items|
    ensures forall i | 0 <= i < |items| ::
              DecodeEntries(items).value[i].seqNo == i && DecodeEntries(items).value[i].kind in KINDS
  {
    if items != [] {
      DecodedIsNumbered(items[..|items| - 1]);
    }
  }

  // -------------------------------------------------------------- saving and loading

  function Wire(entries: seq<Entry>): Json {
    Arr(seq(|entries|, i requires 0 <= i < |entries| => Obj(ToDict(entries[i]))))
  }

  /** The request body of `checkpoint`. */
  function CheckpointBody(entries: seq<Entry>, state: Json, step: int, attempt: string, dumps: Dumps): Json {
    Obj(map["state" := state, "step_index" := Int(step),
            "metadata" := Obj(map["_replay_log" := Str(dumps(Wire(entries))), "attempt" := Str(attempt)])])
  }

  /** The server's answer about a stored checkpoint: the stored body, unchanged. */
  function ResumeBody(checkpoint: Json): Json {
    Obj(map["has_checkpoint" := Bool(true), "checkpoint" := checkpoint])
  }

  predicate Numbered(entries: seq<Entry>) {
    forall i | 0 <= i < |entries| :: entries[i].seqNo == i && entries[i].kind in KINDS
  }

  lemma {:induction false} WireDecodes(entries: seq<Entry>)
    requires Numbered(entries)
    ensures DecodeEntries(Wire(entries).items) == Ok(entries)
  {
    if entries != [] {
      var last := |entries| - 1;
      WireDecodes(entries[..last]);
      assert Wire(entries).items[..last] == Wire(entries[..last]).items;
      EntryRoundTrip(entries[last]);
      assert entries == entries[..last] + [entries[last]];
    }
  }

  /** Loading a saved log gives back the same entries, as long as JSON text does. */
  lemma SavedLogLoads(entries: seq<Entry>, state: Json, step: int, attempt: string, dumps: Dumps, loads: Loads)
    requires Numbered(entries)
    requires loads("") == None && loads(dumps(Wire(entries))) == Some(Wire(entries))
    ensures LoadLog(Body(ResumeBody(CheckpointBody(entries, state, step, attempt, dumps))), loads) == Ok(Some(entries))
  {
    WireDecodes(entries);
    assert dumps(Wire(entries)) != "";
  }
}
