/** Which accepted ISO durations are durations of Appendix A of RFC 3339
    (src/ojs/retry.py:30, src/ojs/transport/grpc/protobuf_time.py:9-13). */
module Rfc3339 {
  import opened Wrappers
  import opened Regex
  import opened Decimals
  import opened Durations
  import opened DurationGrammar

  // -------------------------------------------------------------- the grammar of the RFC

  const DUR_SECOND := UnitRe('S')
  const DUR_MINUTE := Cat(UnitRe('M'), Opt(DUR_SECOND))
  const DUR_HOUR := Cat(UnitRe('H'), Opt(DUR_MINUTE))
  const DUR_UNITS := Alt(DUR_HOUR, Alt(DUR_MINUTE, DUR_SECOND))
  const DUR_TIME := Cat(Class({'T'}), DUR_UNITS)
  const DUR_DAY := UnitRe('D')
  const DUR_WEEK := UnitRe('W')
  const DUR_MONTH := Cat(UnitRe('M'), Opt(DUR_DAY))
  const DUR_YEAR := Cat(UnitRe('Y'), Opt(DUR_MONTH))
  const DUR_DATE := Cat(Alt(DUR_DAY, Alt(DUR_MONTH, DUR_YEAR)), Opt(DUR_TIME))
  const DURATION := Cat(Class({'P'}), Alt(DUR_DATE, Alt(DUR_TIME, DUR_WEEK)))

  // --------------------------------------------------------- the pieces of accepted text

  predicate Piece(u: char, s: string) {
    s == "" || IsUnit(u, s)
  }

  /** Digits, a point, digits and "S". */
  predicate Fractional(s: string) {
    var k := LeadingDigits(s);
    Leads(s, '.') && Leads(s[k + 1..], 'S') && |s| == k + LeadingDigits(s[k + 1..]) + 2
  }

  predicate SecondsPiece(s: string) {
    Piece('S', s) || Fractional(s)
  }

  datatype Pieces = Pieces(days: string, timed: bool, hours: string, minutes: string, seconds: string)

  predicate Valid(p: Pieces) {
    Piece('D', p.days) && Piece('H', p.hours) && Piece('M', p.minutes) && SecondsPiece(p.seconds)
  }

  function TimeOf(p: Pieces): string {
    p.hours + (p.minutes + p.seconds)
  }

  function Spelled(p: Pieces): string {
    "P" + (p.days + if p.timed then "T" + TimeOf(p) else "")
  }

  function UnitText(s: string, u: char): string {
    if Leads(s, u) then s[..LeadingDigits(s) + 1] else ""
  }

  lemma UnitCut(s: string, u: char)
    requires !IsDigit(u)
    ensures Piece(u, UnitText(s, u)) && s == UnitText(s, u) + Unit(s, u).1
  {
    if Leads(s, u) { assert s[..LeadingDigits(s) + 1][..LeadingDigits(s)] == s[..LeadingDigits(s)]; }
  }

  lemma SecondsCut(s: string)
    requires SecondsUnit(s).2 == ""
    ensures SecondsPiece(s)
  {
    if s != "" && s[LeadingDigits(s)] == 'S' { assert s[..|s| - 1] == s[..LeadingDigits(s)]; }
  }

  function Cut(text: string): Pieces
    requires ParseIso(text).Some?
  {
    var days, s := UnitText(text[1..], 'D'), Unit(text[1..], 'D').1;
    if s == "" then Pieces(days, false, "", "", "")
    else
      var t := s[1..];
      var t1 := Unit(t, 'H').1;
      Pieces(days, true, UnitText(t, 'H'), UnitText(t1, 'M'), Unit(t1, 'M').1)
  }

  lemma TimeCut(t: string)
    requires ParseTime(t).4 == ""
    ensures var t1 := Unit(t, 'H').1;
      SecondsPiece(Unit(t1, 'M').1) && t == UnitText(t, 'H') + (UnitText(t1, 'M') + Unit(t1, 'M').1)
  {
    var t1 := Unit(t, 'H').1;
    UnitCut(t, 'H');
    UnitCut(t1, 'M');
    SecondsCut(Unit(t1, 'M').1);
  }

  lemma CutSpells(text: string)
    requires ParseIso(text).Some?
    ensures Valid(Cut(text)) && Spelled(Cut(text)) == text
  {
    var s := Unit(text[1..], 'D').1;
    UnitCut(text[1..], 'D');
    Assembled(text, UnitText(text[1..], 'D'), s);
    if s != "" {
      TimeCut(s[1..]);
      PiecesOfTime(s[1..]);
      CutTime(text, s[1..]);
    }
  }

  lemma CutTime(text: string, t: string)
    requires ParseIso(text).Some? && Unit(text[1..], 'D').1 != "" && t == Unit(text[1..], 'D').1[1..]
    requires var t1 := Unit(t, 'H').1; t == UnitText(t, 'H') + (UnitText(t1, 'M') + Unit(t1, 'M').1)
    ensures Cut(text).timed && TimeOf(Cut(text)) == t
  {
  }

  lemma Assembled(text: string, days: string, s: string)
    requires text != "" && text[0] == 'P' && text[1..] == days + s && (s != "" ==> s[0] == 'T')
    ensures text == "P" + (days + if s != "" then "T" + s[1..] else "")
  {
    assert text == "P" + text[1..];
    if s != "" { assert s == "T" + s[1..]; }
  }

  lemma PiecesOfTime(t: string)
    ensures Piece('H', UnitText(t, 'H')) && Piece('M', UnitText(Unit(t, 'H').1, 'M'))
  {
    UnitCut(t, 'H');
    UnitCut(Unit(t, 'H').1, 'M');
  }

  // --------------------------------------------------------- the grammar on the pieces

  /** A piece in front shows its letter. */
  lemma PieceLeads(u: char, piece: string, rest: string, v: char)
    requires !IsDigit(u) && IsUnit(u, piece)
    ensures Leads(piece + rest, v) <==> v == u
    ensures LeadingDigits(piece + rest) + 1 == |piece|
    ensures (piece + rest)[LeadingDigits(piece + rest) + 1..] == rest
  {
    var d := piece[..|piece| - 1];
    UnitInFront(u, d, rest);
    assert piece + rest == d + [u] + rest;
  }

  lemma SecondsLead(s: string, v: char)
    requires SecondsPiece(s) && v != 'S' && v != '.'
    ensures !Leads(s, v)
  {
    if IsUnit('S', s) {
      PieceLeads('S', s, "", v);
      assert s + "" == s;
    }
  }

  predicate WholeSecondsPiece(s: string) {
    s == "" || IsUnit('S', s)
  }

  lemma MinuteMeans(minutes: string, seconds: string)
    requires Piece('M', minutes) && SecondsPiece(seconds)
    ensures Matches(DUR_MINUTE, minutes + seconds) <==> minutes != "" && WholeSecondsPiece(seconds)
  {
    UnitThen('M', Opt(DUR_SECOND), minutes + seconds);
    UnitReMeans('S', seconds);
    if minutes == "" {
      assert minutes + seconds == seconds;
      SecondsLead(seconds, 'M');
    } else {
      PieceLeads('M', minutes, seconds, 'M');
    }
  }

  lemma SecondMeans(minutes: string, seconds: string)
    requires Piece('M', minutes) && SecondsPiece(seconds)
    ensures Matches(DUR_SECOND, minutes + seconds) <==> minutes == "" && IsUnit('S', seconds)
  {
    UnitMatches('S', minutes + seconds);
    UnitReMeans('S', seconds);
    if minutes == "" { assert minutes + seconds == seconds; } else { PieceLeads('M', minutes, seconds, 'S'); }
  }

  predicate UnitsInRfc(p: Pieces) {
    && WholeSecondsPiece(p.seconds)
    && (p.hours != "" || p.minutes != "" || p.seconds != "")
    && !(p.hours != "" && p.minutes == "" && p.seconds != "")
  }

  lemma UnitsMean(p: Pieces)
    requires Valid(p)
    ensures Matches(DUR_UNITS, TimeOf(p)) <==> UnitsInRfc(p)
  {
    OneOfThree(DUR_HOUR, DUR_MINUTE, DUR_SECOND, TimeOf(p));
    if p.hours == "" {
      assert TimeOf(p) == p.minutes + p.seconds;
      HourlessMean(p.minutes, p.seconds);
    } else {
      HoursMean(p.hours, p.minutes, p.seconds);
    }
  }

  lemma HourlessMean(minutes: string, seconds: string)
    requires Piece('M', minutes) && SecondsPiece(seconds)
    ensures !Matches(DUR_HOUR, minutes + seconds)
    ensures Matches(DUR_MINUTE, minutes + seconds) || Matches(DUR_SECOND, minutes + seconds)
            <==> WholeSecondsPiece(seconds) && (minutes != "" || seconds != "")
  {
    NoHours(minutes, seconds);
    UnitThen('H', Opt(DUR_MINUTE), minutes + seconds);
    MinuteMeans(minutes, seconds);
    SecondMeans(minutes, seconds);
  }

  lemma HoursMean(hours: string, minutes: string, seconds: string)
    requires IsUnit('H', hours) && Piece('M', minutes) && SecondsPiece(seconds)
    ensures var s := hours + (minutes + seconds);
      && !Matches(DUR_MINUTE, s) && !Matches(DUR_SECOND, s)
      && (Matches(DUR_HOUR, s) <==> WholeSecondsPiece(seconds) && (minutes != "" || seconds == ""))
  {
    var rest := minutes + seconds;
    OnlyHours(hours, rest);
    PieceLeads('H', hours, rest, 'H');
    UnitThen('H', Opt(DUR_MINUTE), hours + rest);
    MinuteMeans(minutes, seconds);
  }

  lemma NoHours(minutes: string, seconds: string)
    requires Piece('M', minutes) && SecondsPiece(seconds)
    ensures !Leads(minutes + seconds, 'H')
  {
    if minutes == "" {
      assert minutes + seconds == seconds;
      SecondsLead(seconds, 'H');
    } else {
      PieceLeads('M', minutes, seconds, 'H');
    }
  }

  lemma OnlyHours(hours: string, rest: string)
    requires IsUnit('H', hours)
    ensures !Matches(DUR_MINUTE, hours + rest) && !Matches(DUR_SECOND, hours + rest)
  {
    PieceLeads('H', hours, rest, 'M');
    PieceLeads('H', hours, rest, 'S');
    UnitThen('M', Opt(DUR_SECOND), hours + rest);
    UnitMatches('S', hours + rest);
  }

  lemma TimeMeans(s: string)
    ensures Matches(DUR_TIME, s) <==> s != "" && s[0] == 'T' && Matches(DUR_UNITS, s[1..])
  {
    CharThen('T', DUR_UNITS, s);
  }

  /** Months, years and weeks begin with digits and their own letters. */
  lemma LongUnits(s: string)
    ensures Matches(DUR_MONTH, s) ==> Leads(s, 'M')
    ensures Matches(DUR_YEAR, s) ==> Leads(s, 'Y')
    ensures Matches(DUR_WEEK, s) ==> Leads(s, 'W')
  {
    UnitThen('M', Opt(DUR_DAY), s);
    UnitThen('Y', Opt(DUR_MONTH), s);
    UnitMatches('W', s);
  }

  lemma LeadsLonger(a: string, b: string, u: char)
    requires !IsDigit(u) && Leads(a, u)
    ensures Leads(a + b, u)
  {
    var k := LeadingDigits(a);
    LeadingOf(a[..k], a[k..] + b);
    assert a + b == a[..k] + (a[k..] + b);
  }

  /** On text that does not begin with months or years a date is days and perhaps a time. */
  lemma DateMeans(s: string)
    requires !Leads(s, 'M') && !Leads(s, 'Y')
    ensures Matches(DUR_DATE, s) <==> Leads(s, 'D') && Matches(Opt(DUR_TIME), s[LeadingDigits(s) + 1..])
  {
    UnitThen('D', Opt(DUR_TIME), s);
    if Matches(DUR_DATE, s) {
      var j :| 0 <= j <= |s| && Matches(Alt(DUR_DAY, Alt(DUR_MONTH, DUR_YEAR)), s[..j])
          && Matches(Opt(DUR_TIME), s[j..]);
      LongUnits(s[..j]);
      assert s[..j] + s[j..] == s;
      if Leads(s[..j], 'M') { LeadsLonger(s[..j], s[j..], 'M'); }
      if Leads(s[..j], 'Y') { LeadsLonger(s[..j], s[j..], 'Y'); }
      OneOfThree(DUR_DAY, DUR_MONTH, DUR_YEAR, s[..j]);
      Concatenated(DUR_DAY, Opt(DUR_TIME), s, j);
    }
    if Leads(s, 'D') && Matches(Opt(DUR_TIME), s[LeadingDigits(s) + 1..]) {
      var j :| 0 <= j <= |s| && Matches(DUR_DAY, s[..j]) && Matches(Opt(DUR_TIME), s[j..]);
      OneOfThree(DUR_DAY, DUR_MONTH, DUR_YEAR, s[..j]);
      Concatenated(Alt(DUR_DAY, Alt(DUR_MONTH, DUR_YEAR)), Opt(DUR_TIME), s, j);
    }
  }

  predicate PiecesInRfc(p: Pieces) {
    (p.days != "" || p.timed) && (p.timed ==> UnitsInRfc(p))
  }

  lemma PiecesMean(p: Pieces)
    requires Valid(p)
    ensures Matches(DURATION, Spelled(p)) <==> PiecesInRfc(p)
  {
    var time := if p.timed then "T" + TimeOf(p) else "";
    var s := p.days + time;
    CharThen('P', Alt(DUR_DATE, Alt(DUR_TIME, DUR_WEEK)), Spelled(p));
    assert Spelled(p)[1..] == s;
    TimeMeans(time);
    if p.timed {
      assert time[1..] == TimeOf(p);
      UnitsMean(p);
    }
    if p.days == "" { DaylessMeans(s, time); } else { DaysMean(p.days, time); }
  }

  lemma DaylessMeans(s: string, time: string)
    requires s == "" + time && (time == "" || time[0] == 'T')
    ensures Matches(Alt(DUR_DATE, Alt(DUR_TIME, DUR_WEEK)), s) <==> Matches(DUR_TIME, time)
  {
    assert s == time && LeadingDigits(s) == 0;
    DateMeans(s);
    LongUnits(s);
  }

  lemma DaysMean(days: string, time: string)
    requires IsUnit('D', days)
    ensures Matches(Alt(DUR_DATE, Alt(DUR_TIME, DUR_WEEK)), days + time) <==> time == "" || Matches(DUR_TIME, time)
  {
    var s := days + time;
    PieceLeads('D', days, time, 'D');
    PieceLeads('D', days, time, 'M');
    PieceLeads('D', days, time, 'Y');
    PieceLeads('D', days, time, 'W');
    DateMeans(s);
    LongUnits(s);
    TimeMeans(s);
    assert s[0] == days[0] && IsDigit(days[..|days| - 1][0]);
  }

  // ------------------------------------------------------------- by the letters of a text

  /** No fraction, at least one unit after "P" and after "T", and no hours that seconds
      follow without minutes. */
  predicate InRfc(text: string) {
    && '.' !in text
    && |text| > 1 && text[|text| - 1] != 'T'
    && !('H' in text && 'S' in text && 'M' !in text)
  }

  lemma PieceLetters(u: char, s: string, c: char)
    requires Piece(u, s) && !IsDigit(c)
    ensures c in s <==> s != "" && c == u
  {
    if s != "" {
      assert s == s[..|s| - 1] + [u];
      InEither(s[..|s| - 1], [u], c);
    }
  }

  lemma SecondsLetters(s: string, c: char)
    requires SecondsPiece(s) && !IsDigit(c)
    ensures c in s <==> s != "" && (c == 'S' || (c == '.' && Fractional(s)))
  {
    if Fractional(s) {
      var k := LeadingDigits(s);
      var tail := s[k + 1..];
      assert s == s[..k] + ['.'] + tail && tail == tail[..|tail| - 1] + ['S'];
      assert tail[..|tail| - 1] == tail[..LeadingDigits(tail)];
    } else {
      PieceLetters('S', s, c);
    }
  }

  lemma NotBoth(s: string)
    ensures !(Fractional(s) && WholeSecondsPiece(s))
  {
    if IsUnit('S', s) {
      PieceLeads('S', s, "", '.');
      assert s + "" == s;
    }
  }

  lemma TextLetters(p: Pieces, c: char)
    requires Valid(p) && (p.timed || TimeOf(p) == "") && !IsDigit(c) && c != 'P' && c != 'D' && c != 'T'
    ensures c in Spelled(p) <==>
              || (c == 'H' && p.hours != "") || (c == 'M' && p.minutes != "")
              || (c == 'S' && p.seconds != "") || (c == '.' && Fractional(p.seconds))
  {
    PieceLetters('D', p.days, c);
    PieceLetters('H', p.hours, c);
    PieceLetters('M', p.minutes, c);
    SecondsLetters(p.seconds, c);
    InJoined(p, c);
  }

  lemma InJoined(p: Pieces, c: char)
    requires c != 'P' && c != 'T' && (p.timed || TimeOf(p) == "")
    ensures c in Spelled(p) <==> c in p.days || c in p.hours || c in p.minutes || c in p.seconds
  {
    InEither(p.minutes, p.seconds, c);
    InEither(p.hours, p.minutes + p.seconds, c);
    var time := if p.timed then "T" + TimeOf(p) else "";
    InEither("T", TimeOf(p), c);
    InEither(p.days, time, c);
    InEither("P", p.days + time, c);
  }

  lemma InEither(a: string, b: string, c: char)
    ensures c in a + b <==> c in a || c in b
  {
  }

  lemma LastLetter(p: Pieces)
    requires Valid(p) && (p.timed || TimeOf(p) == "")
    ensures var s := Spelled(p); s[|s| - 1] == 'T' <==> p.timed && TimeOf(p) == ""
  {
    var t := TimeOf(p);
    if p.timed && t != "" {
      assert Spelled(p)[|Spelled(p)| - 1] == t[|t| - 1];
      TimeEndsApart(p);
    } else if !p.timed && p.days != "" {
      assert Spelled(p)[|Spelled(p)| - 1] == p.days[|p.days| - 1];
    }
  }

  lemma TimeEndsApart(p: Pieces)
    requires Valid(p) && TimeOf(p) != ""
    ensures TimeOf(p)[|TimeOf(p)| - 1] != 'T'
  {
    var t := TimeOf(p);
    if p.seconds != "" {
      SecondsLetters(p.seconds, 'T');
      assert t[|t| - 1] == p.seconds[|p.seconds| - 1];
    } else if p.minutes != "" {
      assert t[|t| - 1] == p.minutes[|p.minutes| - 1];
    } else {
      assert t[|t| - 1] == p.hours[|p.hours| - 1];
    }
  }

  /** An accepted duration is one of RFC 3339, Appendix A, exactly when it has no fraction,
      a unit after "P" and after "T", and no hours directly followed by seconds. */
  lemma InRfcExactly(text: string)
    requires Matches(ISO_PATTERN, text)
    ensures Matches(DURATION, text) <==> InRfc(text)
  {
    IsoPatternAcceptsExactly(text);
    var p := Cut(text);
    CutSpells(text);
    PiecesMean(p);
    PiecesByLetters(p);
  }

  lemma PiecesByLetters(p: Pieces)
    requires Valid(p) && (p.timed || TimeOf(p) == "")
    ensures PiecesInRfc(p) <==> InRfc(Spelled(p))
  {
    TextLetters(p, '.');
    TextLetters(p, 'H');
    TextLetters(p, 'M');
    TextLetters(p, 'S');
    LastLetter(p);
    NotBoth(p.seconds);
    assert |Spelled(p)| > 1 <==> p.days != "" || p.timed;
  }

  // ------------------------------------------------------------------------- witnesses

  /** Three accepted texts outside the RFC, one for each reason, and the two empty ones. */
  lemma OutsideRfc()
    ensures forall text | text in {"PT1H5S", "PT1.5S", "P1DT", "P", "PT"} ::
              Matches(ISO_PATTERN, text) && !Matches(DURATION, text)
  {
    forall text | text in {"PT1H5S", "PT1.5S", "P1DT", "P", "PT"}
      ensures Matches(ISO_PATTERN, text) && !Matches(DURATION, text)
    {
      Accepted(text);
      IsoPatternAcceptsExactly(text);
      InRfcExactly(text);
      Letters();
    }
  }

  lemma Letters()
    ensures !InRfc("PT1H5S") && !InRfc("PT1.5S") && !InRfc("P1DT") && !InRfc("P") && !InRfc("PT")
  {
    assert "PT1H5S"[3] == 'H' && "PT1H5S"[5] == 'S' && "PT1.5S"[3] == '.' && "P1DT"[3] == 'T' && "PT"[1] == 'T';
  }

  lemma Accepted(text: string)
    requires text in {"PT1H5S", "PT1.5S", "P1DT", "P", "PT"}
    ensures ParseIso(text).Some?
  {
    HoursAndSecondsAccepted();
    FractionAccepted();
    DaysAndNothingAccepted();
    NothingAccepted();
  }

  lemma HoursAndSecondsAccepted()
    ensures ParseIso("PT1H5S") == Some(Iso(0, 1, 0, 5, 0))
  {
    TimeRead(1, 0, Whole(5));
    SecondsRead(Whole(5));
    assert Digits(1) == "1" && Digits(5) == "5";
    assert "PT1H5S" == "PT" + (UnitPart(1, 'H') + (UnitPart(0, 'M') + SecondsPart(Whole(5))));
  }

  lemma FractionAccepted()
    ensures ParseIso("PT1.5S").Some?
  {
    assert Digits(1) == "1" && "PT1.5S" == "PT" + SecondsPart(Durations.Fractional(1, "5"));
    OnlySecondsRead(Durations.Fractional(1, "5"), "PT1.5S");
  }

  lemma DaysAndNothingAccepted()
    ensures ParseIso("P1DT").Some?
  {
    UnitInFront('D', "1", "T");
    assert "P1DT"[1..] == "1" + ['D'] + "T" && "T"[1..] == "";
  }

  lemma NothingAccepted()
    ensures ParseIso("P").Some? && ParseIso("PT").Some?
  {
    assert "PT"[1..] == "T" && "T"[1..] == "";
  }
}
