/** The incremental Server-Sent Events parser and what a line list means
    (src/ojs/sse/frame_parser.py). */
module SseParser {
  import opened Wrappers
  import opened JsonValue

  datatype Event = Event(id: string, kind: string, data: Option<Json>, raw: string)

  /** What json.loads makes of the joined data: its decoding is taken as given. */
  datatype Payload = NotJson | NotAnObject | Payload(value: Json)

  datatype Config = Config(decode: string -> Payload, raiseMalformed: bool)

  datatype Fed = Nothing | Emitted(event: Event) | Malformed

  datatype State = State(kind: string, lastId: string, data: seq<string>)

  // --------------------------------------------------------------------------- fields

  /** The position of the first colon, or the length of the line. */
  function Colon(line: string): (k: nat)
    ensures k <= |line| && (forall i | 0 <= i < k :: line[i] != ':') && (k < |line| ==> line[k] == ':')
  {
    if line == "" then 0 else if line[0] == ':' then 0 else 1 + Colon(line[1..])
  }

  function Field(line: string): string {
    line[..Colon(line)]
  }

  function FieldValue(line: string): string {
    var k := Colon(line);
    if k == |line| then ""
    else if k + 1 < |line| && line[k + 1] == ' ' then line[k + 2..] else line[k + 1..]
  }

  predicate IsComment(line: string) {
    line != "" && line[0] == ':'
  }

  predicate Sets(line: string, name: string) {
    !IsComment(line) && Field(line) == name
  }

  predicate SetsId(line: string) {
    Sets(line, "id") && '\0' !in FieldValue(line)
  }

  function Joined(lines: seq<string>): string {
    if lines == [] then ""
    else if |lines| == 1 then lines[0]
    else Joined(lines[..|lines| - 1]) + "\n" + lines[|lines| - 1]
  }

  // --------------------------------------------------------------------------- parser

  function Kind(kind: string): string {
    if kind == "" then "message" else kind
  }

  function Dispatch(cfg: Config, s: State): Fed {
    var raw := Joined(s.data);
    if raw == "" then Nothing
    else match cfg.decode(raw)
      case Payload(value) => Emitted(Event(s.lastId, Kind(s.kind), Some(value), raw))
      case _ => if cfg.raiseMalformed then Malformed else Emitted(Event(s.lastId, Kind(s.kind), None, raw))
  }

  function Output(cfg: Config, s: State, line: string): Fed {
    if line == "" then Dispatch(cfg, s) else Nothing
  }

  function Next(s: State, line: string): State {
    if line == "" then s.(kind := "", data := [])
    else if Sets(line, "event") then s.(kind := FieldValue(line))
    else if SetsId(line) then s.(lastId := FieldValue(line))
    else if Sets(line, "data") then s.(data := s.data + [FieldValue(line)])
    else s
  }

  class FrameParser {
    const cfg: Config
    var eventKind: string
    var lastEventId: string
    var dataLines: seq<string>

    ghost function View(): State
      reads this
    {
      State(eventKind, lastEventId, dataLines)
    }

    constructor (cfg: Config, initialEventId: string)
      ensures this.cfg == cfg && View() == State("", initialEventId, [])
    {
      this.cfg := cfg;
      eventKind := "";
      lastEventId := initialEventId;
      dataLines := [];
    }

    method Feed(line: string) returns (fed: Fed)
      modifies this
      ensures fed == Output(cfg, old(View()), line) && View() == Next(old(View()), line)
    {
      if line == "" {
        fed := DispatchFrame();
        return;
      }
      if line[0] == ':' { return Nothing; }
      var k := Colon(line);
      var field := line[..k];
      var value := if k < |line| then line[k + 1..] else "";
      if k < |line| && value != "" && value[0] == ' ' { value := value[1..]; }
      assert value == FieldValue(line);
      if field == "event" {
        eventKind := value;
      } else if field == "id" && '\0' !in value {
        lastEventId := value;
      } else if field == "data" {
        dataLines := dataLines + [value];
      }
      return Nothing;
    }

    method DispatchFrame() returns (fed: Fed)
      modifies this`eventKind, this`dataLines
      ensures fed == Dispatch(cfg, old(View())) && View() == old(View()).(kind := "", data := [])
    {
      var raw, kind, id := Joined(dataLines), if eventKind == "" then "message" else eventKind, lastEventId;
      eventKind := "";
      dataLines := [];
      if raw == "" { return Nothing; }
      match cfg.decode(raw)
      case Payload(value) => return Emitted(Event(id, kind, Some(value), raw));
      case _ =>
        if !cfg.raiseMalformed { return Emitted(Event(id, kind, None, raw)); }
        return Malformed;
    }

    /** A truncated frame is discarded; the id buffer stays. */
    method Finish()
      modifies this`eventKind, this`dataLines
      ensures View() == State("", old(lastEventId), [])
    {
      eventKind := "";
      dataLines := [];
    }
  }

  // ------------------------------------------------------------- what a line list means

  function After(s: State, lines: seq<string>): State {
    if lines == [] then s else Next(After(s, lines[..|lines| - 1]), lines[|lines| - 1])
  }

  /** The frame still open after the lines: those since the last blank line. */
  function OpenFrame(lines: seq<string>): seq<string> {
    if lines == [] || lines[|lines| - 1] == "" then []
    else OpenFrame(lines[..|lines| - 1]) + [lines[|lines| - 1]]
  }

  function DataOf(frame: seq<string>): seq<string> {
    if frame == [] then []
    else
      var last := frame[|frame| - 1];
      DataOf(frame[..|frame| - 1]) + (if Sets(last, "data") then [FieldValue(last)] else [])
  }

  /** The last event field of the frame, if it has one. */
  function KindOf(frame: seq<string>): string {
    if frame == [] then ""
    else
      var last := frame[|frame| - 1];
      if Sets(last, "event") then FieldValue(last) else KindOf(frame[..|frame| - 1])
  }

  /** The last NUL-free id field of all lines so far, else the seed. */
  function IdAfter(lines: seq<string>, seed: string): string {
    if lines == [] then seed
    else
      var last := lines[|lines| - 1];
      if SetsId(last) then FieldValue(last) else IdAfter(lines[..|lines| - 1], seed)
  }

  lemma {:induction false} OpenFrameIs(lines: seq<string>, k: nat)
    requires k <= |lines| && (k == 0 || lines[k - 1] == "")
    requires forall i | k <= i < |lines| :: lines[i] != ""
    ensures OpenFrame(lines) == lines[k..]
  {
    if k < |lines| {
      OpenFrameIs(lines[..|lines| - 1], k);
      assert lines[k..] == lines[..|lines| - 1][k..] + [lines[|lines| - 1]];
    }
  }

  lemma {:induction false} IdAfterIs(lines: seq<string>, seed: string, k: nat)
    requires k <= |lines| && (k > 0 ==> SetsId(lines[k - 1]))
    requires forall i | k <= i < |lines| :: !SetsId(lines[i])
    ensures IdAfter(lines, seed) == if k == 0 then seed else FieldValue(lines[k - 1])
  {
    if k < |lines| {
      IdAfterIs(lines[..|lines| - 1], seed, k);
    }
  }

  lemma {:induction false} KindOfIs(frame: seq<string>, k: nat)
    requires k <= |frame| && (k > 0 ==> Sets(frame[k - 1], "event"))
    requires forall i | k <= i < |frame| :: !Sets(frame[i], "event")
    ensures KindOf(frame) == if k == 0 then "" else FieldValue(frame[k - 1])
  {
    if k < |frame| {
      KindOfIs(frame[..|frame| - 1], k);
    }
  }

  /** The parser's buffers hold the meaning of the lines fed so far. */
  lemma {:induction false} BuffersHold(seed: string, lines: seq<string>)
    ensures After(State("", seed, []), lines)
         == State(KindOf(OpenFrame(lines)), IdAfter(lines, seed), DataOf(OpenFrame(lines)))
  {
    if lines != [] {
      var before, last := lines[..|lines| - 1], lines[|lines| - 1];
      BuffersHold(seed, before);
      var frame := OpenFrame(before);
      if last == "" {
        assert OpenFrame(lines) == [] && !SetsId(last);
      } else {
        assert (frame + [last])[..|frame|] == frame;
        FieldIsOne(last);
      }
    }
  }

  lemma FieldIsOne(line: string)
    ensures Sets(line, "event") ==> !Sets(line, "id") && !Sets(line, "data")
    ensures Sets(line, "id") ==> !Sets(line, "data")
  {
  }

  lemma JoinedIsEmpty(lines: seq<string>)
    ensures Joined(lines) == "" <==> lines == [] || lines == [""]
  {
    if |lines| > 1 { assert |Joined(lines)| >= 1; }
  }

  /** For every prefix of a line list, what the next line emits is decided by the frame
      it completes: nothing unless it is blank and the frame has data other than one
      empty line; then an event with the frame's last type (or "message"), its data
      lines joined, and the last NUL-free id of all lines so far (or the seed). */
  lemma OutputMeans(cfg: Config, seed: string, lines: seq<string>, line: string)
    ensures var fed := Output(cfg, After(State("", seed, []), lines), line);
      var frame := OpenFrame(lines);
      var raw := Joined(DataOf(frame));
      && (fed.Nothing? <==> line != "" || DataOf(frame) == [] || DataOf(frame) == [""])
      && (fed.Malformed? ==> cfg.raiseMalformed && !cfg.decode(raw).Payload?)
      && (fed.Emitted? ==>
            && fed.event.id == IdAfter(lines, seed)
            && fed.event.kind == Kind(KindOf(frame))
            && fed.event.raw == raw
            && fed.event.data == (if cfg.decode(raw).Payload? then Some(cfg.decode(raw).value) else None)
            && (cfg.raiseMalformed ==> cfg.decode(raw).Payload?))
  {
    BuffersHold(seed, lines);
    JoinedIsEmpty(DataOf(OpenFrame(lines)));
  }
}
