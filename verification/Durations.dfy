/** ISO 8601 and protobuf durations as text
    (src/ojs/transport/grpc/protobuf_time.py, src/ojs/retry.py). */
module Durations {
  import opened Wrappers
  import opened Decimals

  datatype DurationError = NegativeMillis | InvalidProto | InvalidIso

  function LeadingDigits(s: string): (k: nat)
    ensures k <= |s| && AllDigits(s[..k]) && (k < |s| ==> !IsDigit(s[k]))
  {
    if s == "" || !IsDigit(s[0]) then 0 else
      var k := 1 + LeadingDigits(s[1..]);
      assert s[..k] == [s[0]] + s[1..][..k - 1];
      k
  }

  lemma {:induction false} LeadingOf(digits: string, rest: string)
    requires AllDigits(digits) && (rest == "" || !IsDigit(rest[0]))
    ensures LeadingDigits(digits + rest) == |digits|
  {
    if digits == "" {
      assert digits + rest == rest;
    } else {
      LeadingOf(digits[1..], rest);
      assert (digits + rest)[1..] == digits[1..] + rest;
    }
  }

  /** Digits, one other character, and the rest. */
  lemma SplitAfterDigits(digits: string, c: char, rest: string)
    requires AllDigits(digits) && !IsDigit(c)
    ensures var s := digits + [c] + rest;
      LeadingDigits(s) == |digits| < |s| && s[..|digits|] == digits && s[|digits|] == c && s[|digits| + 1..] == rest
  {
    LeadingOf(digits, [c] + rest);
    assert digits + [c] + rest == digits + ([c] + rest);
  }

  // --------------------------------------------------------------- protobuf durations

  function StripRight(s: string, c: char): string {
    if s != "" && s[|s| - 1] == c then StripRight(s[..|s| - 1], c) else s
  }

  function DecimalDuration(seconds: Decimal): string {
    var normalized := Plain(Normalized(seconds));
    var stripped := if '.' in normalized then StripRight(StripRight(normalized, '0'), '.') else normalized;
    (if stripped == "" then "0" else stripped) + "s"
  }

  function MillisToDuration(ms: int): Result<string, DurationError> {
    if ms < 0 then Err(NegativeMillis) else Ok(DecimalDuration(Decimal(ms, -3)))
  }

  /** The signed whole part plus the unsigned fraction, in thousandths, cut toward zero. */
  function SignedMillis(negative: bool, whole: nat, fraction: nat, scale: nat): int {
    if !negative then Millis(Scaled(whole, scale) + fraction, scale)
    else if Scaled(whole, scale) <= fraction then Millis(fraction - Scaled(whole, scale), scale)
    else 0 - Millis(Scaled(whole, scale) - fraction, scale)
  }

  /** digits, then at most nine fraction digits: whole part, fraction and its length. */
  function SplitFraction(s: string): Option<(nat, nat, nat)> {
    var k := LeadingDigits(s);
    if k == 0 then None
    else if k == |s| then Some((Number(s[..k]), 0, 0))
    else
      var fraction := s[k + 1..];
      if s[k] == '.' && 1 <= |fraction| <= 9 && AllDigits(fraction)
      then Some((Number(s[..k]), Number(fraction), |fraction|)) else None
  }

  /** The text matches -?digits, then at most nine fraction digits, then "s". */
  function DurationToMillis(text: string): Result<int, DurationError> {
    if text == "" || text[|text| - 1] != 's' then Err(InvalidProto) else
      var body := text[..|text| - 1];
      var negative := body != "" && body[0] == '-';
      match SplitFraction(if negative then body[1..] else body)
      case None => Err(InvalidProto)
      case Some((whole, fraction, scale)) => Ok(SignedMillis(negative, whole, fraction, scale))
  }

  lemma {:induction false} LastDigitOfPadded(n: nat, w: nat)
    requires w > 0 && n % 10 != 0
    ensures Padded(n, w)[w - 1] != '0'
  {
  }

  /** After normalizing there is nothing left to strip. */
  lemma NothingToStrip(d: Decimal)
    ensures DecimalDuration(d) == Plain(Normalized(d)) + "s"
  {
    var zeros := NormalizedKeeps(d);
    var n := Normalized(d);
    var s := Plain(n);
    if n.exponent < 0 {
      LastDigitOfPadded(n.coefficient, -n.exponent);
      assert s[|s| - 1] == Padded(n.coefficient, -n.exponent)[-n.exponent - 1];
      assert IsDigit(s[|s| - 1]);
      assert StripRight(s, '0') == s && StripRight(s, '.') == s;
    } else {
      assert AllDigits(s);
    }
  }

  function MillisOf(d: Decimal): nat {
    if d.exponent >= 0 then Millis(Scaled(d.coefficient, d.exponent), 0) else Millis(d.coefficient, -d.exponent)
  }

  /** Thousandths of n * 10^up, seen as a coefficient with `scale` more zeros. */
  lemma ZerosCancel(n: nat, up: nat, scale: nat)
    ensures Millis(Scaled(n, up + scale), scale) == Millis(Scaled(n, up), 0)
  {
    ScaledTwice(n, up, scale);
    MillisOfScaled(Scaled(n, up), 0, scale);
  }

  lemma MovedZeros(n: nat, exponent: int, zeros: nat, scale: nat)
    requires exponent + scale == zeros
    ensures MillisOf(Decimal(n, exponent)) == Millis(Scaled(n, zeros), scale)
  {
    if exponent < 0 {
      MillisOfScaled(n, -exponent, zeros);
    } else {
      ZerosCancel(n, exponent, scale);
    }
  }

  lemma NormalizedMillis(c: nat, scale: nat)
    ensures MillisOf(Normalized(Decimal(c, 0 - scale))) == Millis(c, scale)
  {
    var d := Decimal(c, 0 - scale);
    var zeros := NormalizedKeeps(d);
    if c == 0 {
      ScaledZero(scale);
      MovedZeros(0, 0, scale, scale);
    } else {
      MovedZeros(Normalized(d).coefficient, Normalized(d).exponent, zeros, scale);
    }
  }

  lemma {:induction false} ScaledZero(k: nat)
    ensures Scaled(0, k) == 0
  {
    if k > 0 { ScaledZero(k - 1); }
  }

  lemma BodyReads(body: string, whole: nat, fraction: nat, scale: nat)
    requires body != "" && body[0] != '-' && SplitFraction(body) == Some((whole, fraction, scale))
    ensures DurationToMillis(body + "s") == Ok(Millis(Scaled(whole, scale) + fraction, scale))
  {
    assert (body + "s")[..|body|] == body;
  }

  lemma WholeTextReads(n: nat)
    ensures DurationToMillis(Digits(n) + "s") == Ok(Millis(n, 0))
  {
    var digits := Digits(n);
    LeadingOf(digits, "");
    assert digits + "" == digits && digits[..|digits|] == digits && digits[0] != '-';
    DigitsRead(n);
    BodyReads(digits, n, 0, 0);
  }

  lemma FractionSplits(whole: nat, fraction: string, body: string)
    requires AllDigits(fraction) && 1 <= |fraction| <= 9 && body == Digits(whole) + "." + fraction
    ensures SplitFraction(body) == Some((whole, Number(fraction), |fraction|))
    ensures body != "" && body[0] != '-'
  {
    SplitAfterDigits(Digits(whole), '.', fraction);
    assert body == Digits(whole) + ['.'] + fraction && body[0] == Digits(whole)[0];
    DigitsRead(whole);
  }

  lemma PointSplits(c: nat, scale: nat, body: string) returns (whole: nat, fraction: nat)
    requires 1 <= scale <= 9 && body == Digits(Shifted(c, scale)) + "." + Padded(c, scale)
    ensures body != "" && body[0] != '-' && SplitFraction(body) == Some((whole, fraction, scale))
    ensures Scaled(whole, scale) + fraction == c
  {
    whole, fraction := Shifted(c, scale), Number(Padded(c, scale));
    FractionSplits(Shifted(c, scale), Padded(c, scale), body);
    SplitReads(c, scale);
  }

  lemma PointReads(c: nat, scale: nat, body: string)
    requires 1 <= scale <= 9 && body == Digits(Shifted(c, scale)) + "." + Padded(c, scale)
    ensures DurationToMillis(body + "s") == Ok(Millis(c, scale))
  {
    var whole, fraction := PointSplits(c, scale, body);
    BodyReads(body, whole, fraction, scale);
  }

  lemma PlainPoint(c: nat, scale: nat)
    requires scale >= 1
    ensures Plain(Decimal(c, 0 - scale)) == Digits(Shifted(c, scale)) + "." + Padded(c, scale)
  {
  }

  /** Plain decimal text with at most nine fraction digits reads as its thousandths. */
  lemma PlainReads(d: Decimal)
    requires d.exponent >= -9
    ensures DurationToMillis(Plain(d) + "s") == Ok(MillisOf(d))
  {
    if d.exponent >= 0 {
      WholeTextReads(Scaled(d.coefficient, d.exponent));
    } else {
      PlainPoint(d.coefficient, -d.exponent);
      PointReads(d.coefficient, -d.exponent, Plain(d));
    }
  }

  /** Reading back a printed duration gives the milliseconds it was printed from. */
  lemma MillisRoundTrip(ms: nat)
    ensures DurationToMillis(MillisToDuration(ms).value) == Ok(ms)
  {
    var d := Decimal(ms, -3);
    var zeros := NormalizedKeeps(d);
    NothingToStrip(d);
    PlainReads(Normalized(d));
    NormalizedMillis(ms, 3);
  }

  // --------------------------------------------------------------------- ISO durations

  /** PnDTnHnMnS; the seconds are coefficient * 10^-scale. */
  datatype Iso = Iso(days: nat, hours: nat, minutes: nat, coefficient: nat, scale: nat)

  /** An optional group of digits and its unit letter. */
  function Unit(s: string, u: char): (nat, string) {
    var k := LeadingDigits(s);
    if 0 < k < |s| && s[k] == u then (Number(s[..k]), s[k + 1..]) else (0, s)
  }

  /** The digits after the point and the "S". */
  function FractionUnit(whole: nat, tail: string): Option<(nat, nat, string)> {
    var j := LeadingDigits(tail);
    if 0 < j < |tail| && tail[j] == 'S' then Some((Scaled(whole, j) + Number(tail[..j]), j, tail[j + 1..])) else None
  }

  function SecondsUnit(s: string): (nat, nat, string) {
    var k := LeadingDigits(s);
    if !(0 < k < |s|) then (0, 0, s)
    else if s[k] == 'S' then (Number(s[..k]), 0, s[k + 1..])
    else if s[k] != '.' || FractionUnit(Number(s[..k]), s[k + 1..]).None? then (0, 0, s)
    else FractionUnit(Number(s[..k]), s[k + 1..]).value
  }

  function ParseTime(s: string): (nat, nat, nat, nat, string) {
    var (hours, s1) := Unit(s, 'H');
    var (minutes, s2) := Unit(s1, 'M');
    var (coefficient, scale, s3) := SecondsUnit(s2);
    (hours, minutes, coefficient, scale, s3)
  }

  /** The duration pattern on the whole text. */
  function ParseIso(text: string): Option<Iso> {
    if text == "" || text[0] != 'P' then None else
      var (days, s) := Unit(text[1..], 'D');
      if s == "" then Some(Iso(days, 0, 0, 0, 0))
      else if s[0] != 'T' then None else
        var (hours, minutes, coefficient, scale, rest) := ParseTime(s[1..]);
        if rest == "" then Some(Iso(days, hours, minutes, coefficient, scale)) else None
  }

  function WithoutFinalNewline(s: string): string {
    if s != "" && s[|s| - 1] == '\n' then s[..|s| - 1] else s
  }

  /** `_parse_iso8601_duration` uses match with "$", which also accepts a final newline. */
  function ParseRetryDuration(text: string): Option<real> {
    match ParseIso(WithoutFinalNewline(text))
    case None => None
    case Some(iso) => Some(Seconds(iso))
  }

  function Seconds(i: Iso): real {
    WholeSeconds(i) as real + RealFrom(i.coefficient as real, i.scale)
  }

  function WholeSeconds(i: Iso): nat {
    i.days * 86400 + i.hours * 3600 + i.minutes * 60
  }

  /** x * 10^-k */
  function RealFrom(x: real, k: nat): real
    decreases k
  {
    if k == 0 then x else RealFrom(x / 10.0, k - 1)
  }

  function Total(i: Iso): Decimal {
    Decimal(Scaled(WholeSeconds(i), i.scale) + i.coefficient, 0 - i.scale)
  }

  function IsoToProto(text: string): Result<string, DurationError> {
    match ParseIso(text)
    case None => Err(InvalidIso)
    case Some(iso) => Ok(DecimalDuration(Total(iso)))
  }

  function MillisToIso(ms: int): string {
    var sign, size: nat := if ms < 0 then "-" else "", if ms < 0 then -ms else ms;
    if size % 1000 == 0 then "PT" + sign + Digits(size / 1000) + "S"
    else "PT" + sign + Plain(Normalized(Decimal(size, -3))) + "S"
  }

  function ProtoToIso(text: string): Result<string, DurationError> {
    match DurationToMillis(text)
    case Err(e) => Err(e)
    case Ok(ms) => Ok(MillisToIso(ms))
  }

  // ------------------------------------------------------------------ reading printed ISO

  /** Seconds text: nothing, whole seconds, or seconds with a fraction. */
  datatype SecondsText = Absent | Whole(n: nat) | Fractional(whole: nat, fraction: string)

  predicate ValidSeconds(t: SecondsText) {
    t.Fractional? ==> t.fraction != "" && AllDigits(t.fraction)
  }

  function SecondsPart(t: SecondsText): string {
    match t
    case Absent => ""
    case Whole(n) => Digits(n) + "S"
    case Fractional(whole, fraction) => Digits(whole) + "." + fraction + "S"
  }

  function UnitPart(n: nat, u: char): string {
    if n == 0 then "" else Digits(n) + [u]
  }

  lemma UnitRead(n: nat, u: char, rest: string)
    requires !IsDigit(u) && n > 0
    ensures Unit(UnitPart(n, u) + rest, u) == (n, rest)
  {
    SplitAfterDigits(Digits(n), u, rest);
    DigitsRead(n);
  }

  lemma OtherUnit(n: nat, v: char, rest: string, u: char)
    requires !IsDigit(v) && v != u
    ensures Unit(Digits(n) + [v] + rest, u) == (0, Digits(n) + [v] + rest)
  {
    SplitAfterDigits(Digits(n), v, rest);
  }

  lemma SecondsNoUnit(t: SecondsText, u: char)
    requires u == 'H' || u == 'M'
    ensures Unit(SecondsPart(t), u) == (0, SecondsPart(t))
  {
    match t
    case Absent =>
    case Whole(n) => OtherUnit(n, 'S', "", u);
      assert Digits(n) + ['S'] + "" == SecondsPart(t);
    case Fractional(whole, fraction) => OtherUnit(whole, '.', fraction + "S", u);
      assert Digits(whole) + ['.'] + (fraction + "S") == SecondsPart(t);
  }

  lemma WholeSecondsRead(n: nat)
    ensures SecondsUnit(Digits(n) + "S") == (n, 0, "")
  {
    SplitAfterDigits(Digits(n), 'S', "");
    assert Digits(n) + ['S'] + "" == Digits(n) + "S";
    DigitsRead(n);
  }

  lemma FractionUnitRead(whole: nat, fraction: string)
    requires fraction != "" && AllDigits(fraction)
    ensures FractionUnit(whole, fraction + "S")
         == Some((Scaled(whole, |fraction|) + Number(fraction), |fraction|, ""))
  {
    SplitAfterDigits(fraction, 'S', "");
    assert fraction + ['S'] + "" == fraction + "S";
  }

  lemma PointRead(whole: nat, tail: string)
    ensures var s := Digits(whole) + ['.'] + tail;
      SecondsUnit(s) == match FractionUnit(whole, tail) case None => (0, 0, s) case Some(r) => r
  {
    SplitAfterDigits(Digits(whole), '.', tail);
    DigitsRead(whole);
  }

  lemma FractionalSecondsRead(whole: nat, fraction: string)
    requires fraction != "" && AllDigits(fraction)
    ensures SecondsUnit(Digits(whole) + ['.'] + (fraction + "S"))
         == (Scaled(whole, |fraction|) + Number(fraction), |fraction|, "")
  {
    FractionUnitRead(whole, fraction);
    PointRead(whole, fraction + "S");
  }

  lemma SecondsRead(t: SecondsText)
    requires ValidSeconds(t)
    ensures SecondsUnit(SecondsPart(t)) ==
            match t
            case Absent => (0, 0, "")
            case Whole(n) => (n, 0, "")
            case Fractional(whole, fraction) => (Scaled(whole, |fraction|) + Number(fraction), |fraction|, "")
  {
    match t
    case Absent =>
    case Whole(n) => WholeSecondsRead(n);
    case Fractional(whole, fraction) => FractionalPartRead(whole, fraction, SecondsPart(t));
  }

  lemma FractionalPartRead(whole: nat, fraction: string, part: string)
    requires fraction != "" && AllDigits(fraction) && part == Digits(whole) + "." + fraction + "S"
    ensures SecondsUnit(part) == (Scaled(whole, |fraction|) + Number(fraction), |fraction|, "")
  {
    FractionalSecondsRead(whole, fraction);
    assert Digits(whole) + ['.'] + (fraction + "S") == part;
  }

  lemma MinutesRead(minutes: nat, t: SecondsText)
    ensures Unit(UnitPart(minutes, 'M') + SecondsPart(t), 'M') == (minutes, SecondsPart(t))
    ensures Unit(UnitPart(minutes, 'M') + SecondsPart(t), 'H') == (0, UnitPart(minutes, 'M') + SecondsPart(t))
  {
    if minutes == 0 {
      assert UnitPart(minutes, 'M') + SecondsPart(t) == SecondsPart(t);
      SecondsNoUnit(t, 'M');
      SecondsNoUnit(t, 'H');
    } else {
      UnitRead(minutes, 'M', SecondsPart(t));
      OtherUnit(minutes, 'M', SecondsPart(t), 'H');
    }
  }

  lemma HoursRead(hours: nat, minutes: nat, t: SecondsText)
    requires ValidSeconds(t)
    ensures var r := SecondsUnit(SecondsPart(t));
      ParseTime(UnitPart(hours, 'H') + (UnitPart(minutes, 'M') + SecondsPart(t))) == (hours, minutes, r.0, r.1, "")
  {
    var tail := UnitPart(minutes, 'M') + SecondsPart(t);
    MinutesRead(minutes, t);
    SecondsRead(t);
    if hours == 0 { assert UnitPart(hours, 'H') + tail == tail; } else { UnitRead(hours, 'H', tail); }
  }

  lemma PrefixRead(body: string, hours: nat, minutes: nat, coefficient: nat, scale: nat)
    requires ParseTime(body) == (hours, minutes, coefficient, scale, "")
    ensures ParseIso("PT" + body) == Some(Iso(0, hours, minutes, coefficient, scale))
  {
    var text := "PT" + body;
    assert text[1..] == ['T'] + body && text[1..][1..] == body;
    assert LeadingDigits(text[1..]) == 0;
  }

  /** Hours, minutes and seconds text read back as they were printed. */
  lemma TimeRead(hours: nat, minutes: nat, t: SecondsText)
    requires ValidSeconds(t)
    ensures var r := SecondsUnit(SecondsPart(t));
      ParseIso("PT" + (UnitPart(hours, 'H') + (UnitPart(minutes, 'M') + SecondsPart(t))))
      == Some(Iso(0, hours, minutes, r.0, r.1))
  {
    var r := SecondsUnit(SecondsPart(t));
    HoursRead(hours, minutes, t);
    PrefixRead(UnitPart(hours, 'H') + (UnitPart(minutes, 'M') + SecondsPart(t)), hours, minutes, r.0, r.1);
  }

  lemma OnlySecondsRead(t: SecondsText, text: string)
    requires ValidSeconds(t) && text == "PT" + SecondsPart(t)
    ensures var r := SecondsUnit(SecondsPart(t)); ParseIso(text) == Some(Iso(0, 0, 0, r.0, r.1))
  {
    var r := SecondsUnit(SecondsPart(t));
    HoursRead(0, 0, t);
    NoUnits(SecondsPart(t));
    PrefixRead(SecondsPart(t), 0, 0, r.0, r.1);
  }

  lemma NoUnits(rest: string)
    ensures UnitPart(0, 'H') + (UnitPart(0, 'M') + rest) == rest
  {
  }

  lemma PlainIsoReads(d: Decimal)
    ensures var i := ParseIso("PT" + Plain(d) + "S");
      && i.Some? && WholeSeconds(i.value) == 0
      && (d.exponent >= 0 ==> i.value.coefficient == Scaled(d.coefficient, d.exponent) && i.value.scale == 0)
      && (d.exponent < 0 ==> i.value.coefficient == d.coefficient && i.value.scale == -d.exponent)
  {
    if d.exponent >= 0 {
      OnlySecondsRead(Whole(Scaled(d.coefficient, d.exponent)), "PT" + Plain(d) + "S");
      SecondsRead(Whole(Scaled(d.coefficient, d.exponent)));
    } else {
      var t := Fractional(Shifted(d.coefficient, -d.exponent), Padded(d.coefficient, -d.exponent));
      OnlySecondsRead(t, "PT" + Plain(d) + "S");
      SecondsRead(t);
      SplitReads(d.coefficient, -d.exponent);
    }
  }
}
