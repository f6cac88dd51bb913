/** What lines of fields mean: the value of a field is what was written, and a frame yields an
    event with exactly the texts of its fields (src/ojs/sse/frame_parser.py:54-113). */
module SseFrames {
  import opened Wrappers
  import opened SseParser

  // -------------------------------------------------------------------------------- lines

  /** A field as it is written: with a colon and a value, after a space or not, or the name
      alone. */
  datatype Written = Valued(name: string, value: string, spaced: bool) | Bare(name: string)

  function Line(f: Written): string {
    match f
    case Valued(name, value, spaced) => name + (if spaced then ": " else ":") + value
    case Bare(name) => name
  }

  /** A value written without a space in front does not begin with one. */
  predicate WellWritten(f: Written) {
    && f.name != "" && ':' !in f.name
    && (f.Valued? && !f.spaced && f.value != "" ==> f.value[0] != ' ')
  }

  function Text(f: Written): string {
    match f
    case Valued(_, value, _) => value
    case Bare(_) => ""
  }

  lemma {:induction false} ColonAfter(name: string, rest: string)
    requires ':' !in name && (rest == "" || rest[0] == ':')
    ensures Colon(name + rest) == |name|
  {
    if name == "" {
      assert name + rest == rest;
    } else {
      assert (name + rest)[1..] == name[1..] + rest && name[0] in name;
      ColonAfter(name[1..], rest);
    }
  }

  /** The name and the value of a field are what was written. */
  lemma LineReads(f: Written)
    requires WellWritten(f)
    ensures Line(f) != "" && !IsComment(Line(f))
    ensures Field(Line(f)) == f.name && FieldValue(Line(f)) == Text(f)
  {
    var line := Line(f);
    assert f.name[0] in f.name && line[0] == f.name[0];
    match f {
      case Bare(name) =>
        ColonAfter(name, "");
        assert name + "" == name;
      case Valued(name, value, spaced) =>
        var rest := (if spaced then ": " else ":") + value;
        assert line == name + rest;
        ColonAfter(name, rest);
        assert line[|name| + 1..] == if spaced then " " + value else value;
        if spaced { assert line[|name| + 2..] == value; }
    }
  }

  /** Every line that is neither blank nor a comment is such a field. */
  lemma EveryLineIsField(line: string) returns (f: Written)
    requires line != "" && line[0] != ':'
    ensures WellWritten(f) && Line(f) == line
  {
    var k := Colon(line);
    if k == |line| {
      f := Bare(line);
    } else if k + 1 < |line| && line[k + 1] == ' ' {
      f := Valued(line[..k], line[k + 2..], true);
      assert line == line[..k] + ": " + line[k + 2..];
    } else {
      f := Valued(line[..k], line[k + 1..], false);
      assert line == line[..k] + ":" + line[k + 1..];
    }
  }

  // ------------------------------------------------------------------------- joined lines

  /** The text before and after the last line break. */
  function LastBreak(text: string): (k: nat)
    requires '\n' in text
    ensures k < |text| && text[k] == '\n' && forall i | k < i < |text| :: text[i] != '\n'
  {
    var n := |text| - 1;
    if text[n] == '\n' then n
    else
      assert text == text[..n] + [text[n]];
      LastBreak(text[..n])
  }

  function SplitLines(text: string): seq<string>
    decreases |text|
  {
    if '\n' !in text then [text] else SplitLines(text[..LastBreak(text)]) + [text[LastBreak(text) + 1..]]
  }

  /** Splitting the joined data at its line breaks gives the data lines back. */
  lemma {:induction false} JoinedSplits(lines: seq<string>)
    requires lines != [] && forall i | 0 <= i < |lines| :: '\n' !in lines[i]
    ensures SplitLines(Joined(lines)) == lines
  {
    var n := |lines| - 1;
    if n > 0 {
      JoinedSplits(lines[..n]);
      BreaksHere(Joined(lines), Joined(lines[..n]), lines[n]);
      assert lines == lines[..n] + [lines[n]];
    }
  }

  lemma BreaksHere(text: string, before: string, last: string)
    requires text == before + "\n" + last && '\n' !in last
    ensures '\n' in text && LastBreak(text) == |before|
    ensures text[..|before|] == before && text[|before| + 1..] == last
  {
    assert text[|before|] == '\n';
    forall i | |before| < i < |text| ensures text[i] != '\n' {
      assert text[i] == last[i - |before| - 1];
    }
  }

  // -------------------------------------------------------------------------------- frames

  /** The texts of the fields of that name, in order. */
  function Texts(fs: seq<Written>, name: string): seq<string> {
    if fs == [] then []
    else Texts(fs[..|fs| - 1], name) + if fs[|fs| - 1].name == name then [Text(fs[|fs| - 1])] else []
  }

  function LastOr(texts: seq<string>, default: string): string {
    if texts == [] then default else texts[|texts| - 1]
  }

  /** The id fields that count: those without a NUL. */
  function Ids(fs: seq<Written>): seq<string> {
    if fs == [] then []
    else
      var last := fs[|fs| - 1];
      Ids(fs[..|fs| - 1]) + if last.name == "id" && '\0' !in Text(last) then [Text(last)] else []
  }

  predicate AllWritten(fs: seq<Written>) {
    forall i | 0 <= i < |fs| :: WellWritten(fs[i])
  }

  function Lines(fs: seq<Written>): (r: seq<string>)
    ensures |r| == |fs| && forall i | 0 <= i < |fs| :: r[i] == Line(fs[i])
  {
    seq(|fs|, i requires 0 <= i < |fs| => Line(fs[i]))
  }

  /** The buffers after such fields, from a state between frames. */
  function Buffers(s: State, fs: seq<Written>): State {
    State(LastOr(Texts(fs, "event"), ""), LastOr(Ids(fs), s.lastId), Texts(fs, "data"))
  }

  lemma OneMoreField(s: State, fs: seq<Written>, n: nat)
    requires n + 1 == |fs|
    ensures Buffers(s, fs).kind == if fs[n].name == "event" then Text(fs[n]) else Buffers(s, fs[..n]).kind
    ensures Buffers(s, fs).lastId ==
            if fs[n].name == "id" && '\0' !in Text(fs[n]) then Text(fs[n]) else Buffers(s, fs[..n]).lastId
    ensures Buffers(s, fs).data == Buffers(s, fs[..n]).data + if fs[n].name == "data" then [Text(fs[n])] else []
  {
  }

  /** What the parser's buffers hold in the middle of a frame. */
  lemma {:induction false} BuffersOf(s: State, fs: seq<Written>)
    requires AllWritten(fs) && s.kind == "" && s.data == []
    ensures After(s, Lines(fs)) == Buffers(s, fs)
  {
    if fs != [] {
      var n := |fs| - 1;
      BuffersOf(s, fs[..n]);
      OneMoreLine(s, fs, n);
      OneMoreField(s, fs, n);
      NextReads(Buffers(s, fs[..n]), fs[n]);
    }
  }

  lemma OneMoreLine(s: State, fs: seq<Written>, n: nat)
    requires n + 1 == |fs|
    ensures After(s, Lines(fs)) == Next(After(s, Lines(fs[..n])), Line(fs[n]))
  {
    assert Lines(fs)[..n] == Lines(fs[..n]);
  }

  lemma NextReads(s: State, f: Written)
    requires WellWritten(f)
    ensures Next(s, Line(f)) == s.(kind := if f.name == "event" then Text(f) else s.kind,
                                   lastId := if f.name == "id" && '\0' !in Text(f) then Text(f) else s.lastId,
                                   data := if f.name == "data" then s.data + [Text(f)] else s.data)
  {
    LineReads(f);
    assert |"event"| == 5 && |"id"| == 2 && |"data"| == 4;
  }

  lemma {:induction false} AfterConcat(s: State, a: seq<string>, b: seq<string>)
    ensures After(s, a + b) == After(After(s, a), b)
    decreases |b|
  {
    if b == [] {
      assert a + b == a;
    } else {
      var n := |b| - 1;
      AfterConcat(s, a, b[..n]);
      assert (a + b)[..|a| + n] == a + b[..n];
    }
  }

  /** A frame of such fields, after any complete frames, and the blank line that ends it:
      nothing without data, and else an event with the last id without a NUL, here or earlier,
      the last event type or "message", and the data lines joined. */
  lemma FrameYields(cfg: Config, s: State, earlier: seq<string>, fs: seq<Written>)
    requires AllWritten(fs) && After(s, earlier).kind == "" && After(s, earlier).data == []
    ensures var data, raw := Texts(fs, "data"), Joined(Texts(fs, "data"));
      var id := LastOr(Ids(fs), After(s, earlier).lastId);
      var kind := if LastOr(Texts(fs, "event"), "") == "" then "message" else LastOr(Texts(fs, "event"), "");
      Output(cfg, After(s, earlier + Lines(fs)), "") ==
        if data == [] || data == [""] then Nothing
        else match cfg.decode(raw)
          case Payload(value) => Emitted(Event(id, kind, Some(value), raw))
          case _ => if cfg.raiseMalformed then Malformed else Emitted(Event(id, kind, None, raw))
  {
    AfterConcat(s, earlier, Lines(fs));
    BuffersOf(After(s, earlier), fs);
    JoinedIsEmpty(Texts(fs, "data"));
  }

  /** The lines "event: ...", "id: ...", "data: ..." and a blank one yield exactly that
      event. */
  lemma EventReads(cfg: Config, seed: string, kind: string, id: string, data: string)
    requires kind != "" && data != "" && '\0' !in id && cfg.decode(data).Payload?
    ensures Output(cfg, After(State("", seed, []), ["event: " + kind, "id: " + id, "data: " + data]), "")
         == Emitted(Event(id, kind, Some(cfg.decode(data).value), data))
  {
    var fs := [Valued("event", kind, true), Valued("id", id, true), Valued("data", data, true)];
    assert "event" + ": " == "event: " && "id" + ": " == "id: " && "data" + ": " == "data: ";
    assert Lines(fs) == ["event: " + kind, "id: " + id, "data: " + data];
    assert [] + Lines(fs) == Lines(fs);
    ThreeTexts(fs, kind, id, data);
    ThreeYield(cfg, State("", seed, []), fs, kind, id, data);
  }

  lemma ThreeYield(cfg: Config, s: State, fs: seq<Written>, kind: string, id: string, data: string)
    requires AllWritten(fs) && s.kind == "" && s.data == []
    requires Texts(fs, "event") == [kind] && Ids(fs) == [id] && Texts(fs, "data") == [data]
    requires kind != "" && data != "" && cfg.decode(data).Payload?
    ensures Output(cfg, After(s, Lines(fs)), "") == Emitted(Event(id, kind, Some(cfg.decode(data).value), data))
  {
    FrameYields(cfg, s, [], fs);
    assert [] + Lines(fs) == Lines(fs);
  }

  lemma ThreeTexts(fs: seq<Written>, kind: string, id: string, data: string)
    requires fs == [Valued("event", kind, true), Valued("id", id, true), Valued("data", data, true)]
    requires '\0' !in id
    ensures Texts(fs, "event") == [kind] && Ids(fs) == [id] && Texts(fs, "data") == [data]
  {
    assert fs[..2][..1] == fs[..1] && fs[..1][..0] == [] && fs[..2] == [fs[0], fs[1]] && fs[..1] == [fs[0]];
    assert "event" != "id" && "event" != "data" && "id" != "data";
    assert Texts(fs[..1], "event") == [kind] && Texts(fs[..1], "data") == [] && Ids(fs[..1]) == [];
    assert Texts(fs[..2], "event") == [kind] && Texts(fs[..2], "data") == [] && Ids(fs[..2]) == [id];
  }
}
