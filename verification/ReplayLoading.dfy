/** Exactly what the loader of replay logs accepts, and that it refuses everything else
    (src/ojs/durable/replay_loader.py:38-99). */
module ReplayLoading {
  import opened Wrappers
  import opened JsonValue
  import opened ReplayLog

  // ------------------------------------------------------------------------- one entry

  /** The fields say this entry. */
  predicate ReadsAs(data: map<string, Json>, e: Entry) {
    && "seq" in data && data["seq"] == Int(e.seqNo)
    && "type" in data && data["type"] == Str(e.kind) && e.kind in {"time", "random", "call"}
    && "result" in data && data["result"] == e.result
    && (if "key" in data then data["key"] == Str(e.key) else e.key == "")
  }

  lemma EntryReadExactly(data: map<string, Json>, e: Entry)
    ensures FromDict(data) == Ok(e) <==> ReadsAs(data, e)
  {
  }

  // --------------------------------------------------------------------------- the log

  predicate EntryAt(raw: Json, e: Entry, i: nat) {
    raw.Obj? && ReadsAs(raw.fields, e) && e.seqNo == i
  }

  lemma EntryAtExactly(raw: Json, e: Entry, i: nat)
    ensures DecodeEntry(raw, i) == Ok(e) <==> EntryAt(raw, e, i)
  {
    if raw.Obj? { EntryReadExactly(raw.fields, e); }
  }

  /** Every item is an object that reads as the entry numbered by its place. */
  predicate LogReadsAs(items: seq<Json>, entries: seq<Entry>) {
    |items| == |entries| && forall i | 0 <= i < |items| :: EntryAt(items[i], entries[i], i)
  }

  lemma {:induction false} LogReadExactly(items: seq<Json>, entries: seq<Entry>)
    ensures DecodeEntries(items) == Ok(entries) <==> LogReadsAs(items, entries)
    decreases |items|
  {
    if items != [] {
      var last := |items| - 1;
      if entries != [] {
        LogReadExactly(items[..last], entries[..|entries| - 1]);
        EntryAtExactly(items[last], entries[|entries| - 1], last);
        if |entries| == |items| { LogOfLast(items, entries, last); }
      }
      if DecodeEntries(items) == Ok(entries) {
        assert entries[..|entries| - 1] == DecodeEntries(items[..last]).value;
      }
    }
  }

  lemma LogOfLast(items: seq<Json>, entries: seq<Entry>, last: nat)
    requires |items| == |entries| == last + 1
    ensures LogReadsAs(items, entries) <==>
              LogReadsAs(items[..last], entries[..last]) && EntryAt(items[last], entries[last], last)
    ensures entries == entries[..last] + [entries[last]]
  {
    if LogReadsAs(items[..last], entries[..last]) && EntryAt(items[last], entries[last], last) {
      forall i | 0 <= i < |items| ensures EntryAt(items[i], entries[i], i) {
        if i < last { assert EntryAt(items[..last][i], entries[..last][i], i); }
      }
    }
    if LogReadsAs(items, entries) {
      forall i | 0 <= i < last ensures EntryAt(items[..last][i], entries[..last][i], i) {
        assert EntryAt(items[i], entries[i], i);
      }
    }
  }

  predicate Unreadable(items: seq<Json>, i: nat)
    requires i < |items|
  {
    DecodeEntry(items[i], i).Err?
  }

  /** A log is refused exactly when some item cannot be read, with the error of the lowest. */
  lemma {:induction false} FirstUnreadable(items: seq<Json>)
    ensures DecodeEntries(items).Err? <==> exists i: nat :: i < |items| && Unreadable(items, i)
    ensures forall i: nat | i < |items| && Unreadable(items, i) && (forall j: nat | j < i :: !Unreadable(items, j)) ::
              DecodeEntries(items) == Err(DecodeEntry(items[i], i).error)
  {
    if items != [] {
      var last := |items| - 1;
      FirstUnreadable(items[..last]);
      forall i: nat | i < last ensures Unreadable(items[..last], i) == Unreadable(items, i) {
      }
      if DecodeEntries(items[..last]).Err? {
        var bad: nat :| bad < last && Unreadable(items[..last], bad);
        assert Unreadable(items, bad);
      } else {
        assert forall i: nat | i < last :: !Unreadable(items, i);
        assert Unreadable(items, last) <==> DecodeEntries(items).Err?;
      }
      forall i: nat | i < |items| && Unreadable(items, i) && (forall j: nat | j < i :: !Unreadable(items, j))
        ensures DecodeEntries(items) == Err(DecodeEntry(items[i], i).error)
      {
        if i < last {
          assert Unreadable(items[..last], i) && items[..last][i] == items[i];
          assert forall j: nat | j < i :: !Unreadable(items[..last], j);
        }
      }
    }
  }

  // ----------------------------------------------------------------- the server's answer

  /** The server has no checkpoint for the job. */
  predicate SaysNone(fetched: Fetched) {
    match fetched
    case NotFound => true
    case Body(body) => body.Obj? && "has_checkpoint" in body.fields && body.fields["has_checkpoint"] == Bool(false)
  }

  predicate Holds(fields: map<string, Json>, name: string) {
    name in fields && fields[name].Obj?
  }

  /** The body holds a checkpoint with that text as its log. */
  predicate HoldsText(body: Json, text: string) {
    && body.Obj? && "has_checkpoint" in body.fields && body.fields["has_checkpoint"] == Bool(true)
    && Holds(body.fields, "checkpoint")
    && var checkpoint := body.fields["checkpoint"].fields;
       && Holds(checkpoint, "metadata")
       && var metadata := checkpoint["metadata"].fields;
          "_replay_log" in metadata && metadata["_replay_log"] == Str(text) && text != ""
  }

  lemma TextReadExactly(body: Json)
    ensures LogText(body) == Ok(None) <==> SaysNone(Body(body))
    ensures forall text :: LogText(body) == Ok(Some(text)) <==> HoldsText(body, text)
  {
  }

  predicate TextReadsAs(loads: Loads, text: string, entries: seq<Entry>) {
    && loads(text).Some? && loads(text).value.Arr?
    && LogReadsAs(loads(text).value.items, entries)
  }

  /** A log is loaded exactly when the answer holds a text that decodes to an array of such
      objects; without one, exactly when the server says that there is none. Every other
      answer is an error: nothing is ever taken for an empty log. */
  lemma LoadsExactly(fetched: Fetched, loads: Loads)
    ensures LoadLog(fetched, loads) == Ok(None) <==> SaysNone(fetched)
    ensures forall entries :: LoadLog(fetched, loads) == Ok(Some(entries)) <==>
              fetched.Body? && exists text :: HoldsText(fetched.body, text) && TextReadsAs(loads, text, entries)
  {
    if fetched.Body? {
      TextReadExactly(fetched.body);
      forall entries ensures LoadLog(fetched, loads) == Ok(Some(entries)) <==>
                             exists text :: HoldsText(fetched.body, text) && TextReadsAs(loads, text, entries)
      {
        LoadedIs(fetched.body, loads, entries);
      }
    }
  }

  lemma LoadedIs(body: Json, loads: Loads, entries: seq<Entry>)
    ensures LoadLog(Body(body), loads) == Ok(Some(entries)) <==>
              exists text :: HoldsText(body, text) && TextReadsAs(loads, text, entries)
  {
    TextReadExactly(body);
    if LogText(body).Ok? && LogText(body).value.Some? {
      var text := LogText(body).value.value;
      assert HoldsText(body, text);
      if loads(text).Some? && loads(text).value.Arr? { LogReadExactly(loads(text).value.items, entries); }
    }
  }
}
