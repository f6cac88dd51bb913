/** The values of printed durations: what survives a round trip
    (src/ojs/retry.py, src/ojs/transport/grpc/protobuf_time.py). */
module RetryDurations {
  import opened Wrappers
  import opened Decimals
  import opened Durations

  // ------------------------------------------------------------- digits as real numbers

  lemma {:induction false} RealAdd(x: real, y: real, k: nat)
    ensures RealFrom(x + y, k) == RealFrom(x, k) + RealFrom(y, k)
    decreases k
  {
    if k > 0 {
      assert (x + y) / 10.0 == x / 10.0 + y / 10.0;
      RealAdd(x / 10.0, y / 10.0, k - 1);
    }
  }

  lemma {:induction false} RealThousand(x: real, k: nat)
    ensures RealFrom(x, k) * 1000.0 == RealFrom(x * 1000.0, k)
    decreases k
  {
    if k > 0 {
      assert x * 1000.0 / 10.0 == x / 10.0 * 1000.0;
      RealThousand(x / 10.0, k - 1);
    }
  }

  /** Zeros after the last digit do not change the value. */
  lemma {:induction false} RealOfScaled(n: nat, zeros: nat, k: nat)
    ensures RealFrom(Scaled(n, zeros) as real, k + zeros) == RealFrom(n as real, k)
  {
    if zeros > 0 {
      assert Scaled(n, zeros) as real / 10.0 == Scaled(n, zeros - 1) as real;
      RealOfScaled(n, zeros - 1, k);
    }
  }

  lemma FloorTenth(x: real)
    requires x >= 0.0
    ensures (x / 10.0).Floor == x.Floor / 10
  {
    var q := x.Floor / 10;
    assert 10 * q <= x.Floor < 10 * q + 10;
    assert q as real <= x / 10.0 < q as real + 1.0;
  }

  lemma {:induction false} FloorShift(x: real, k: nat)
    requires x >= 0.0
    ensures RealFrom(x, k).Floor == Shifted(x.Floor, k)
    decreases k
  {
    if k > 0 {
      FloorTenth(x);
      FloorShift(x / 10.0, k - 1);
    }
  }

  lemma ScaledThree(c: nat)
    ensures Scaled(c, 3) == 1000 * c
    ensures Scaled(c, 3) as real == c as real * 1000.0
  {
    assert Scaled(c, 1) == 10 * c;
    assert Scaled(c, 2) == 100 * c;
  }

  /** Millis cuts the value down to thousandths. */
  lemma MillisFloor(c: nat, k: nat)
    ensures (RealFrom(c as real, k) * 1000.0).Floor == Millis(c, k)
  {
    RealThousand(c as real, k);
    ScaledThree(c);
    if k <= 3 {
      ScaledTwice(c, 3 - k, k);
      RealOfScaled(Scaled(c, 3 - k), k, 0);
    } else {
      RealOfScaled(c, 3, k - 3);
      FloorShift(c as real, k - 3);
    }
  }

  lemma SecondsOfTotal(i: Iso)
    ensures Seconds(i) == RealFrom(Total(i).coefficient as real, i.scale)
  {
    RealAdd(Scaled(WholeSeconds(i), i.scale) as real, i.coefficient as real, i.scale);
    RealOfScaled(WholeSeconds(i), i.scale, 0);
  }

  /** The value cut down to whole milliseconds. */
  function CutToMillis(x: real): real {
    (x * 1000.0).Floor as real / 1000.0
  }

  // ----------------------------------------------------- ISO to protobuf and back again

  /** A protobuf duration holds at most nine fraction digits. */
  predicate FitsProto(i: Iso) {
    Normalized(Total(i)).exponent >= -9
  }

  lemma TotalMillis(i: Iso)
    ensures MillisOf(Normalized(Total(i))) == (Seconds(i) * 1000.0).Floor
  {
    NormalizedMillis(Total(i).coefficient, i.scale);
    SecondsOfTotal(i);
    MillisFloor(Total(i).coefficient, i.scale);
  }

  lemma DecimalDurationReads(d: Decimal)
    requires Normalized(d).exponent >= -9
    ensures DurationToMillis(DecimalDuration(d)) == Ok(MillisOf(Normalized(d)))
  {
    NothingToStrip(d);
    PlainReads(Normalized(d));
  }

  lemma ProtoOfIso(text: string, i: Iso)
    requires ParseIso(text) == Some(i) && FitsProto(i)
    ensures IsoToProto(text) == Ok(DecimalDuration(Total(i)))
    ensures DurationToMillis(DecimalDuration(Total(i))) == Ok((Seconds(i) * 1000.0).Floor)
  {
    DecimalDurationReads(Total(i));
    TotalMillis(i);
  }

  function RealOf(d: Decimal): real {
    if d.exponent >= 0 then Scaled(d.coefficient, d.exponent) as real
    else RealFrom(d.coefficient as real, -d.exponent)
  }

  lemma ThousandthsReal(ms: nat)
    ensures RealFrom(ms as real, 3) == ms as real / 1000.0
  {
    var x := ms as real;
    assert RealFrom(x, 3) == RealFrom(x / 10.0, 2) == RealFrom(x / 10.0 / 10.0, 1);
  }

  lemma NormalizedReal(ms: nat)
    ensures RealOf(Normalized(Decimal(ms, -3))) == ms as real / 1000.0
  {
    var zeros := NormalizedKeeps(Decimal(ms, -3));
    var n := Normalized(Decimal(ms, -3));
    ThousandthsReal(ms);
    if ms > 0 && n.exponent < 0 {
      RealOfScaled(n.coefficient, zeros, -n.exponent);
    } else if ms > 0 {
      ScaledTwice(n.coefficient, n.exponent, 3);
      RealOfScaled(Scaled(n.coefficient, n.exponent), 3, 0);
    }
  }

  /** The decimal whose plain text `protobuf_duration_to_iso` prints. */
  function Shown(ms: nat): Decimal {
    if ms % 1000 == 0 then Decimal(ms / 1000, 0) else Normalized(Decimal(ms, -3))
  }

  lemma ShownReal(ms: nat)
    ensures RealOf(Shown(ms)) == ms as real / 1000.0
  {
    NormalizedReal(ms);
  }

  lemma ShownText(ms: nat)
    ensures MillisToIso(ms) == "PT" + Plain(Shown(ms)) + "S"
  {
    assert "PT" + "" + Plain(Shown(ms)) == "PT" + Plain(Shown(ms));
  }

  lemma PlainIsoSeconds(d: Decimal) returns (i: Iso)
    ensures ParseIso("PT" + Plain(d) + "S") == Some(i) && Seconds(i) == RealOf(d)
  {
    PlainIsoReads(d);
    i := ParseIso("PT" + Plain(d) + "S").value;
    PlainSeconds(d, i);
  }

  lemma PlainSeconds(d: Decimal, i: Iso)
    requires WholeSeconds(i) == 0
    requires d.exponent >= 0 ==> i.coefficient == Scaled(d.coefficient, d.exponent) && i.scale == 0
    requires d.exponent < 0 ==> i.coefficient == d.coefficient && i.scale == -d.exponent
    ensures Seconds(i) == RealOf(d)
  {
  }

  lemma IsoOfMillis(ms: nat) returns (i: Iso)
    ensures ParseIso(MillisToIso(ms)) == Some(i) && Seconds(i) == ms as real / 1000.0
  {
    ShownText(ms);
    ShownReal(ms);
    i := PlainIsoSeconds(Shown(ms));
  }

  /** An ISO duration sent as a protobuf duration and turned back keeps its value, cut
      down to whole milliseconds. */
  lemma IsoProtoIso(text: string, i: Iso) returns (back: Iso)
    requires ParseIso(text) == Some(i) && FitsProto(i)
    ensures IsoToProto(text).Ok? && ProtoToIso(IsoToProto(text).value).Ok?
    ensures ParseIso(ProtoToIso(IsoToProto(text).value).value) == Some(back)
    ensures Seconds(back) == CutToMillis(Seconds(i))
  {
    ProtoOfIso(text, i);
    SecondsNonNegative(i);
    back := IsoOfMillis((Seconds(i) * 1000.0).Floor);
  }

  lemma SecondsNonNegative(i: Iso)
    ensures Seconds(i) >= 0.0
  {
    RealNonNegative(i.coefficient as real, i.scale);
  }

  /** So it is kept exactly when it is a whole number of milliseconds. */
  lemma IsoProtoIsoExact(text: string, i: Iso) returns (back: Iso)
    requires ParseIso(text) == Some(i) && FitsProto(i)
    ensures IsoToProto(text).Ok? && ProtoToIso(IsoToProto(text).value).Ok?
    ensures ParseIso(ProtoToIso(IsoToProto(text).value).value) == Some(back)
    ensures Seconds(back) == Seconds(i) <==> WholeMillis(Seconds(i))
  {
    back := IsoProtoIso(text, i);
  }

  lemma LongFractionRefused(whole: nat, fraction: string, body: string)
    requires AllDigits(fraction) && |fraction| > 9 && body == Digits(whole) + "." + fraction
    ensures DurationToMillis(body + "s") == Err(InvalidProto)
  {
    SplitAfterDigits(Digits(whole), '.', fraction);
    assert body == Digits(whole) + ['.'] + fraction && (body + "s")[..|body|] == body;
    assert body[0] == Digits(whole)[0] != '-';
  }

  /** A duration finer than a nanosecond is sent, but the answer to it cannot be read. */
  lemma IsoProtoRead(text: string, i: Iso)
    requires ParseIso(text) == Some(i)
    ensures IsoToProto(text).Ok? && (ProtoToIso(IsoToProto(text).value).Ok? <==> FitsProto(i))
  {
    if FitsProto(i) {
      var back := IsoProtoIso(text, i);
    } else {
      NothingToStrip(Total(i));
      var n := Normalized(Total(i));
      LongFractionRefused(Shifted(n.coefficient, -n.exponent), Padded(n.coefficient, -n.exponent), Plain(n));
    }
  }

  lemma {:induction false} RealNonNegative(x: real, k: nat)
    requires x >= 0.0
    ensures RealFrom(x, k) >= 0.0
    decreases k
  {
    if k > 0 { RealNonNegative(x / 10.0, k - 1); }
  }

  // ------------------------------------------------- the two parsers on the same text

  function Last(s: string): char {
    if s == "" then 'P' else s[|s| - 1]
  }

  lemma UnitEnds(s: string, u: char)
    requires u != '\n' && Last(Unit(s, u).1) != '\n'
    ensures Last(s) != '\n'
  {
    var rest := Unit(s, u).1;
    if rest != "" { assert Last(s) == Last(rest); }
  }

  lemma SecondsEnds(s: string)
    requires Last(SecondsUnit(s).2) != '\n'
    ensures Last(s) != '\n'
  {
    var rest := SecondsUnit(s).2;
    var k := LeadingDigits(s);
    if 0 < k < |s| && s[k] == '.' && rest != s {
      var tail := s[k + 1..];
      assert Last(s) == Last(tail);
      if rest != "" { assert Last(tail) == Last(rest); }
    } else if rest != "" {
      assert Last(s) == Last(rest);
    }
  }

  lemma TimeEnds(s: string)
    requires ParseTime(s).4 == ""
    ensures Last(s) != '\n'
  {
    var s1 := Unit(s, 'H').1;
    var s2 := Unit(s1, 'M').1;
    SecondsEnds(s2);
    UnitEnds(s1, 'M');
    UnitEnds(s, 'H');
  }

  lemma IsoEnds(text: string)
    requires ParseIso(text).Some?
    ensures Last(text) != '\n'
  {
    var s := Unit(text[1..], 'D').1;
    if s != "" {
      TimeEnds(s[1..]);
      LastOfRest(s);
    }
    UnitEnds(text[1..], 'D');
    LastOfRest(text);
  }

  lemma LastOfRest(s: string)
    requires s != "" && s[0] != '\n' && Last(s[1..]) != '\n'
    ensures Last(s) != '\n'
  {
  }

  /** Where the protobuf projection reads a duration, the retry policy reads the same one. */
  lemma ParsersAgree(text: string)
    requires ParseIso(text).Some?
    ensures ParseRetryDuration(text) == Some(Seconds(ParseIso(text).value))
  {
    IsoEnds(text);
    assert WithoutFinalNewline(text) == text;
  }

  predicate EndsLine(text: string) {
    text != "" && text[|text| - 1] == '\n'
  }

  /** The retry policy accepts what the projection accepts, and that with one newline at the
      end; the two disagree on exactly those texts. */
  lemma RetryParserAcceptsExactly(text: string)
    ensures ParseRetryDuration(text).Some?
            <==> ParseIso(text).Some? || (EndsLine(text) && ParseIso(text[..|text| - 1]).Some?)
    ensures ParseRetryDuration(text).Some? && ParseIso(text).None?
            <==> EndsLine(text) && ParseIso(text[..|text| - 1]).Some?
  {
    if ParseIso(text).Some? { IsoEnds(text); }
  }

  lemma OneSecond()
    ensures ParseIso("PT1S") == Some(Iso(0, 0, 0, 1, 0))
  {
    assert Digits(1) == "1" && "PT1S" == "PT" + SecondsPart(Whole(1));
    OnlySecondsRead(Whole(1), "PT1S");
    SecondsRead(Whole(1));
  }

  /** A text the retry policy reads and the projection refuses. */
  lemma NewlineAccepted(text: string)
    requires text == "PT1S" + "\n"
    ensures ParseRetryDuration(text).Some? && ParseIso(text).None?
  {
    OneSecond();
    NewlineDropped(text, "PT1S");
  }

  lemma NewlineDropped(text: string, line: string)
    requires text == line + "\n" && ParseIso(line).Some?
    ensures ParseRetryDuration(text) == Some(Seconds(ParseIso(line).value)) && ParseIso(text).None?
  {
    assert text[..|text| - 1] == line;
    if ParseIso(text).Some? { IsoEnds(text); }
  }

  // ---------------------------------------------------------------- seconds as ISO text

  /** The whole number nearest to x, ties to even: what ".3f" does to thousandths. */
  function Nearest(x: real): (n: int)
    ensures -0.5 <= n as real - x <= 0.5
  {
    var n := x.Floor;
    if x - n as real < 0.5 || (x - n as real == 0.5 && n % 2 == 0) then n else n + 1
  }

  predicate WholeMillis(x: real) {
    (x * 1000.0).Floor as real == x * 1000.0
  }

  lemma ThreeDigits(t: nat)
    ensures RealFrom(Scaled(Shifted(t, 3), 3) as real + Number(Padded(t, 3)) as real, 3) == t as real / 1000.0
  {
    SplitReads(t, 3);
    ThousandthsReal(t);
  }

  lemma NearestWhole(n: int, x: real)
    requires x == n as real
    ensures Nearest(x) as real == x
  {
  }

  lemma KeepsWholeMillis(seconds: real, hours: nat, minutes: nat, remaining: real)
    requires remaining == seconds - hours as real * 3600.0 - minutes as real * 60.0
    ensures WholeMillis(seconds) ==> Nearest(remaining * 1000.0) as real == remaining * 1000.0
  {
    if WholeMillis(seconds) {
      NearestWhole((seconds * 1000.0).Floor - hours * 3600000 - minutes * 60000, remaining * 1000.0);
    }
  }

  /** What the seconds part of a text is worth. */
  function ValueOf(t: SecondsText): real
    requires ValidSeconds(t)
  {
    match t
    case Absent => 0.0
    case Whole(n) => n as real
    case Fractional(whole, fraction) =>
      RealFrom(Scaled(whole, |fraction|) as real + Number(fraction) as real, |fraction|)
  }

  function Written(hours: nat, minutes: nat, t: SecondsText): string {
    "PT" + (UnitPart(hours, 'H') + (UnitPart(minutes, 'M') + SecondsPart(t)))
  }

  lemma LastOfUnit(n: nat, u: char)
    requires u != '\n'
    ensures n > 0 ==> UnitPart(n, u) != "" && UnitPart(n, u)[|UnitPart(n, u)| - 1] != '\n'
  {
  }

  lemma LastOfSeconds(t: SecondsText)
    ensures t != Absent ==> SecondsPart(t) != "" && SecondsPart(t)[|SecondsPart(t)| - 1] != '\n'
  {
  }

  lemma NoNewline(hours: nat, minutes: nat, t: SecondsText)
    ensures WithoutFinalNewline(Written(hours, minutes, t)) == Written(hours, minutes, t)
  {
    LastOfUnit(hours, 'H');
    LastOfUnit(minutes, 'M');
    LastOfSeconds(t);
    LastOfJoined(UnitPart(hours, 'H'), UnitPart(minutes, 'M'), SecondsPart(t));
  }

  lemma LastOfJoined(a: string, b: string, c: string)
    requires a != "" ==> a[|a| - 1] != '\n'
    requires b != "" ==> b[|b| - 1] != '\n'
    requires c != "" ==> c[|c| - 1] != '\n'
    ensures var s := "PT" + (a + (b + c)); s[|s| - 1] != '\n'
  {
  }

  lemma WrittenIso(hours: nat, minutes: nat, t: SecondsText) returns (iso: Iso)
    requires ValidSeconds(t)
    ensures ParseIso(Written(hours, minutes, t)) == Some(iso)
    ensures Seconds(iso) == (hours * 3600 + minutes * 60) as real + ValueOf(t)
  {
    var r := SecondsUnit(SecondsPart(t));
    iso := Iso(0, hours, minutes, r.0, r.1);
    TimeRead(hours, minutes, t);
    SecondsRead(t);
    SecondsWorth(t, iso);
  }

  lemma ReadsAs(hours: nat, minutes: nat, t: SecondsText, value: real)
    requires ValidSeconds(t) && value == (hours * 3600 + minutes * 60) as real + ValueOf(t)
    ensures ParseRetryDuration(Written(hours, minutes, t)) == Some(value)
  {
    var iso := WrittenIso(hours, minutes, t);
    NoNewline(hours, minutes, t);
    ReadOnce(Written(hours, minutes, t), iso, value);
  }

  lemma ReadOnce(text: string, iso: Iso, value: real)
    requires ParseIso(text) == Some(iso) && WithoutFinalNewline(text) == text && Seconds(iso) == value
    ensures ParseRetryDuration(text) == Some(value)
  {
  }

  lemma SecondsWorth(t: SecondsText, iso: Iso)
    requires ValidSeconds(t)
    requires (iso.coefficient, iso.scale, "") == SecondsUnit(SecondsPart(t))
    ensures Seconds(iso) == WholeSeconds(iso) as real + ValueOf(t)
  {
    SecondsRead(t);
  }

  function Joined(parts: seq<string>): string {
    if parts == [] then "" else Joined(parts[..|parts| - 1]) + parts[|parts| - 1]
  }

  lemma JoinedMore(parts: seq<string>, part: string)
    ensures Joined(parts + [part]) == Joined(parts) + part
  {
    assert (parts + [part])[..|parts|] == parts;
  }

  lemma JoinedParts(hours: nat, minutes: nat, t: SecondsText)
    ensures Joined(PartsOf(hours, minutes, t)) == Written(hours, minutes, t)
  {
    var p0: seq<string> := ["PT"];
    var p1 := p0 + UnitParts(hours, 'H');
    var p2 := p1 + UnitParts(minutes, 'M');
    JoinedOne("PT");
    UnitJoined(p0, hours, 'H');
    UnitJoined(p1, minutes, 'M');
    SecondsJoined(p2, t);
    Reassociate("PT", UnitPart(hours, 'H'), UnitPart(minutes, 'M'), SecondsPart(t));
  }

  lemma Reassociate(a: string, b: string, c: string, d: string)
    ensures a + b + c + d == a + (b + (c + d))
  {
  }

  lemma JoinedOne(part: string)
    ensures Joined([part]) == part
  {
    assert Joined([]) + part == part;
  }

  lemma SecondsJoined(parts: seq<string>, t: SecondsText)
    ensures Joined(parts + if t == Absent then [] else [SecondsPart(t)]) == Joined(parts) + SecondsPart(t)
  {
    if t == Absent { assert parts + [] == parts; } else { JoinedMore(parts, SecondsPart(t)); }
  }

  lemma UnitJoined(parts: seq<string>, n: nat, u: char)
    ensures Joined(parts + UnitParts(n, u)) == Joined(parts) + UnitPart(n, u)
  {
    if n == 0 { assert parts + [] == parts; } else { JoinedMore(parts, UnitPart(n, u)); }
  }

  function UnitParts(n: nat, u: char): seq<string> {
    if n == 0 then [] else [Digits(n) + [u]]
  }

  function PartsOf(hours: nat, minutes: nat, t: SecondsText): seq<string> {
    ["PT"] + UnitParts(hours, 'H') + UnitParts(minutes, 'M') + if t == Absent then [] else [SecondsPart(t)]
  }

  /** The text reads back as the seconds to within half a millisecond, and exactly when
      they are a whole number of milliseconds. Nothing is negative. */
  ghost predicate ReadsNear(text: string, seconds: real) {
    exists value | ParseRetryDuration(text) == Some(value) ::
      && (seconds <= 0.0 ==> value == 0.0)
      && (seconds > 0.0 ==> -0.0005 <= value - seconds <= 0.0005)
      && (seconds > 0.0 && WholeMillis(seconds) ==> value == seconds)
  }

  lemma NothingReads()
    ensures ReadsNear("PT0S", 0.0)
  {
    assert Written(0, 0, Whole(0)) == "PT0S";
    ReadsAs(0, 0, Whole(0), 0.0);
  }

  /** The seconds part for what remains after hours and minutes. */
  predicate ShowsRemaining(t: SecondsText, remaining: real)
    requires remaining >= 0.0
  {
    match t
    case Absent => remaining == 0.0
    case Whole(n) => n as real == remaining
    case Fractional(whole, fraction) =>
      var thousandths := Nearest(remaining * 1000.0);
      thousandths >= 0 && whole == Shifted(thousandths, 3) && fraction == Padded(thousandths, 3)
  }

  lemma RemainingValue(t: SecondsText, seconds: real, hours: nat, minutes: nat, remaining: real)
    requires remaining == seconds - hours as real * 3600.0 - minutes as real * 60.0 >= 0.0
    requires ShowsRemaining(t, remaining)
    ensures ValidSeconds(t)
    ensures var value := (hours * 3600 + minutes * 60) as real + ValueOf(t);
      -0.0005 <= value - seconds <= 0.0005 && (WholeMillis(seconds) ==> value == seconds)
  {
    if t.Fractional? { ThreeDigits(Nearest(remaining * 1000.0)); }
    KeepsWholeMillis(seconds, hours, minutes, remaining);
  }

  lemma PartsRead(parts: seq<string>, t: SecondsText, seconds: real, hours: nat, minutes: nat, remaining: real)
    requires parts == PartsOf(hours, minutes, t)
    requires seconds > 0.0 && remaining == seconds - hours as real * 3600.0 - minutes as real * 60.0 >= 0.0
    requires ShowsRemaining(t, remaining)
    ensures ReadsNear(Joined(parts), seconds)
  {
    JoinedParts(hours, minutes, t);
    RemainingValue(t, seconds, hours, minutes, remaining);
    ReadsAs(hours, minutes, t, (hours * 3600 + minutes * 60) as real + ValueOf(t));
  }

  /** `_seconds_to_iso8601`. */
  method SecondsToIso8601(seconds: real) returns (text: string)
    ensures ReadsNear(text, seconds)
  {
    if seconds <= 0.0 {
      NothingReads();
      return "PT0S";
    }
    var parts, remaining := ["PT"], seconds;
    var hours: nat := (remaining / 3600.0).Floor;
    if hours != 0 {
      parts := parts + [Digits(hours) + "H"];
      remaining := remaining - hours as real * 3600.0;
    }
    var minutes: nat := (remaining / 60.0).Floor;
    if minutes != 0 {
      parts := parts + [Digits(minutes) + "M"];
      remaining := remaining - minutes as real * 60.0;
    }
    ghost var t := Absent;
    if remaining > 0.0 || |parts| == 1 {
      if remaining == remaining.Floor as real {
        parts := parts + [Digits(remaining.Floor) + "S"];
        t := Whole(remaining.Floor);
      } else {
        var thousandths: nat := Nearest(remaining * 1000.0);
        parts := parts + [Digits(Shifted(thousandths, 3)) + "." + Padded(thousandths, 3) + "S"];
        t := Fractional(Shifted(thousandths, 3), Padded(thousandths, 3));
      }
    }
    PartsRead(parts, t, seconds, hours, minutes, remaining);
    text := Joined(parts);
  }
}
