/** The duration patterns as regular expressions, and the durations of RFC 3339
    (src/ojs/transport/grpc/protobuf_time.py:9-14, src/ojs/retry.py:30). */
module DurationGrammar {
  import opened Regex
  import opened Decimals
  import opened Durations

  const DIGITS: set<char> := set c: char | '0' <= c <= '9'

  /** Digits and a unit letter. */
  function UnitRe(u: char): Re {
    Cat(Plus(Class(DIGITS)), Class({u}))
  }

  // (\d+(?:\.\d+)?)S
  const FRACTION := Cat(Class({'.'}), Plus(Class(DIGITS)))
  const SECONDS := Cat(Plus(Class(DIGITS)), Cat(Opt(FRACTION), Class({'S'})))
  const TIME := Cat(Opt(UnitRe('H')), Cat(Opt(UnitRe('M')), Opt(SECONDS)))

  // ^P(?:(\d+)D)?(?:T(?:(\d+)H)?(?:(\d+)M)?(?:(\d+(?:\.\d+)?)S)?)?$
  const ISO_PATTERN := Cat(Class({'P'}), Cat(Opt(UnitRe('D')), Opt(Cat(Class({'T'}), TIME))))

  /** \d{1,n} */
  function UpTo(n: nat): Re
    requires n > 0
  {
    if n == 1 then Class(DIGITS) else Cat(Class(DIGITS), Opt(UpTo(n - 1)))
  }

  // ^(-?\d+)(\.\d{1,9})?s$
  const PROTO_FRACTION := Cat(Class({'.'}), UpTo(9))
  const PROTO_BODY := Cat(Plus(Class(DIGITS)), Cat(Opt(PROTO_FRACTION), Class({'s'})))
  const PROTO_PATTERN := Cat(Opt(Class({'-'})), PROTO_BODY)

  // ------------------------------------------------------------------ digits and units

  lemma DigitsMatch(s: string)
    ensures Matches(Plus(Class(DIGITS)), s) <==> s != "" && AllDigits(s)
  {
    PlusOfClass(DIGITS, s);
  }

  /** Digits first, then the rest, where the rest does not begin with one. */
  lemma DigitsThen(rest: Re, s: string)
    requires forall t :: Matches(rest, t) ==> t != "" && !IsDigit(t[0])
    ensures Matches(Cat(Plus(Class(DIGITS)), rest), s)
            <==> LeadingDigits(s) > 0 && Matches(rest, s[LeadingDigits(s)..])
  {
    var k := LeadingDigits(s);
    if Matches(Cat(Plus(Class(DIGITS)), rest), s) {
      var j :| 0 <= j <= |s| && Matches(Plus(Class(DIGITS)), s[..j]) && Matches(rest, s[j..]);
      DigitsMatch(s[..j]);
      LeadingOf(s[..j], s[j..]);
      assert s == s[..j] + s[j..];
    }
    if k > 0 && Matches(rest, s[k..]) {
      DigitsMatch(s[..k]);
      Concatenated(Plus(Class(DIGITS)), rest, s, k);
    }
  }

  /** The digits in front are followed by the letter. */
  predicate Leads(s: string, u: char) {
    0 < LeadingDigits(s) < |s| && s[LeadingDigits(s)] == u
  }

  lemma UnitMatches(u: char, s: string)
    requires !IsDigit(u)
    ensures Matches(UnitRe(u), s) <==> Leads(s, u) && |s| == LeadingDigits(s) + 1
  {
    DigitsThen(Class({u}), s);
  }

  /** Digits, the letter, and nothing else. */
  predicate IsUnit(u: char, s: string) {
    |s| >= 2 && AllDigits(s[..|s| - 1]) && s[|s| - 1] == u
  }

  lemma UnitReMeans(u: char, s: string)
    requires !IsDigit(u)
    ensures Matches(UnitRe(u), s) <==> IsUnit(u, s)
  {
    UnitMatches(u, s);
    if IsUnit(u, s) {
      LeadingOf(s[..|s| - 1], [u]);
      assert s == s[..|s| - 1] + [u];
    }
  }

  lemma UnitInFront(u: char, d: string, rest: string)
    requires !IsDigit(u) && d != "" && AllDigits(d)
    ensures var s := d + [u] + rest; Leads(s, u) && LeadingDigits(s) == |d| && s[|d| + 1..] == rest
  {
    SplitAfterDigits(d, u, rest);
  }

  lemma UnitThen(u: char, rest: Re, s: string)
    requires !IsDigit(u)
    ensures Matches(Cat(UnitRe(u), rest), s) <==> Leads(s, u) && Matches(rest, s[LeadingDigits(s) + 1..])
  {
    if Matches(Cat(UnitRe(u), rest), s) {
      var j :| 0 <= j <= |s| && Matches(UnitRe(u), s[..j]) && Matches(rest, s[j..]);
      UnitReMeans(u, s[..j]);
      UnitInFront(u, s[..j][..j - 1], s[j..]);
      assert s[..j] == s[..j][..j - 1] + [u];
      assert s == s[..j] + s[j..];
    }
    if Leads(s, u) && Matches(rest, s[LeadingDigits(s) + 1..]) { UnitJoins(u, rest, s); }
  }

  lemma UnitJoins(u: char, rest: Re, s: string)
    requires !IsDigit(u) && Leads(s, u) && Matches(rest, s[LeadingDigits(s) + 1..])
    ensures Matches(Cat(UnitRe(u), rest), s)
  {
    var k := LeadingDigits(s);
    UnitMatches(u, s[..k + 1]);
    LeadingOf(s[..k], [u]);
    assert s[..k + 1] == s[..k] + [u];
    Concatenated(UnitRe(u), rest, s, k + 1);
  }

  /** An optional unit, then the rest, where the rest does not begin with that unit: the
      scanner's greedy reading is the pattern's only one. */
  lemma OptUnitThen(u: char, rest: Re, s: string)
    requires !IsDigit(u) && (Matches(rest, s) ==> !Leads(s, u))
    ensures Matches(Cat(Opt(UnitRe(u)), rest), s) <==> Matches(rest, Unit(s, u).1)
  {
    UnitThen(u, rest, s);
    if Matches(Cat(Opt(UnitRe(u)), rest), s) {
      var j :| 0 <= j <= |s| && Matches(Opt(UnitRe(u)), s[..j]) && Matches(rest, s[j..]);
      if j == 0 { assert s[0..] == s; } else { Concatenated(UnitRe(u), rest, s, j); }
    }
    if Matches(rest, Unit(s, u).1) {
      if Leads(s, u) {
        var j :| 0 <= j <= |s| && Matches(UnitRe(u), s[..j]) && Matches(rest, s[j..]);
        Concatenated(Opt(UnitRe(u)), rest, s, j);
      } else {
        assert s[..0] == "" && s[0..] == s;
        Concatenated(Opt(UnitRe(u)), rest, s, 0);
      }
    }
  }

  // -------------------------------------------------------------------- the ISO pattern

  lemma FractionMatches(s: string)
    ensures Matches(FRACTION, s) <==> |s| > 1 && s[0] == '.' && AllDigits(s[1..])
  {
    CharThen('.', Plus(Class(DIGITS)), s);
    if s != "" { DigitsMatch(s[1..]); }
  }

  /** An optional fraction and the letter: what follows the digits of the seconds. */
  predicate IsSecondsTail(s: string) {
    s == "S" || (|s| > 1 && s[0] == '.' && Leads(s[1..], 'S') && |s| == LeadingDigits(s[1..]) + 2)
  }

  lemma SecondsTailMatches(s: string)
    ensures Matches(Cat(Opt(FRACTION), Class({'S'})), s) <==> IsSecondsTail(s)
  {
    if Matches(Cat(Opt(FRACTION), Class({'S'})), s) { MatchedTail(s); }
    if IsSecondsTail(s) { TailMatched(s); }
  }

  lemma AfterPoint(s: string, fraction: string)
    requires s == fraction + "S" && fraction != "" && AllDigits(fraction[1..])
    ensures LeadingDigits(s[1..]) == |fraction| - 1 && s[|fraction|] == 'S'
  {
    LeadingOf(fraction[1..], "S");
    assert s[1..] == fraction[1..] + "S";
  }

  lemma MatchedTail(s: string)
    requires Matches(Cat(Opt(FRACTION), Class({'S'})), s)
    ensures IsSecondsTail(s)
  {
    var j :| 0 <= j <= |s| && Matches(Opt(FRACTION), s[..j]) && Matches(Class({'S'}), s[j..]);
    if j == 0 {
      assert s == s[0..];
    } else {
      FractionMatches(s[..j]);
      assert s[j..] == "S" && s == s[..j] + s[j..];
      AfterPoint(s, s[..j]);
    }
  }

  lemma TailMatched(s: string)
    requires IsSecondsTail(s)
    ensures Matches(Cat(Opt(FRACTION), Class({'S'})), s)
  {
    if s == "S" {
      assert s[..0] == "" && s[0..] == s;
      Concatenated(Opt(FRACTION), Class({'S'}), s, 0);
    } else {
      var j := |s| - 1;
      FractionMatches(s[..j]);
      assert s[..j][1..] == s[1..][..LeadingDigits(s[1..])];
      Concatenated(Opt(FRACTION), Class({'S'}), s, j);
    }
  }

  lemma SecondsMatch(s: string)
    ensures Matches(Opt(SECONDS), s) <==> SecondsUnit(s).2 == ""
    ensures Matches(Opt(SECONDS), s) ==> s == "" || Leads(s, 'S') || Leads(s, '.')
  {
    forall t | Matches(Cat(Opt(FRACTION), Class({'S'})), t) ensures t != "" && !IsDigit(t[0]) {
      SecondsTailMatches(t);
    }
    DigitsThen(Cat(Opt(FRACTION), Class({'S'})), s);
    var k := LeadingDigits(s);
    SecondsTailMatches(s[k..]);
    if k < |s| { assert s[k..][1..] == s[k + 1..]; }
  }

  lemma MinutesMatch(s: string)
    ensures Matches(Cat(Opt(UnitRe('M')), Opt(SECONDS)), s) <==> SecondsUnit(Unit(s, 'M').1).2 == ""
    ensures Matches(Cat(Opt(UnitRe('M')), Opt(SECONDS)), s) ==>
            s == "" || Leads(s, 'M') || Leads(s, 'S') || Leads(s, '.')
  {
    SecondsMatch(s);
    OptUnitThen('M', Opt(SECONDS), s);
    SecondsMatch(Unit(s, 'M').1);
  }

  lemma TimeMatches(s: string)
    ensures Matches(TIME, s) <==> ParseTime(s).4 == ""
  {
    MinutesMatch(s);
    OptUnitThen('H', Cat(Opt(UnitRe('M')), Opt(SECONDS)), s);
    MinutesMatch(Unit(s, 'H').1);
  }

  lemma TimePartMatches(s: string)
    ensures Matches(Opt(Cat(Class({'T'}), TIME)), s) <==> s == "" || (s[0] == 'T' && ParseTime(s[1..]).4 == "")
  {
    CharThen('T', TIME, s);
    if s != "" { TimeMatches(s[1..]); }
  }

  /** The scanner accepts exactly what the ISO pattern matches. */
  lemma IsoPatternAcceptsExactly(s: string)
    ensures Matches(ISO_PATTERN, s) <==> ParseIso(s).Some?
  {
    var rest := Opt(Cat(Class({'T'}), TIME));
    CharThen('P', Cat(Opt(UnitRe('D')), rest), s);
    if s != "" {
      TimePartMatches(s[1..]);
      OptUnitThen('D', rest, s[1..]);
      TimePartMatches(Unit(s[1..], 'D').1);
    }
  }

  // --------------------------------------------------------------- the protobuf pattern

  lemma {:induction false} UpToMatches(n: nat, s: string)
    requires n > 0
    ensures Matches(UpTo(n), s) <==> 1 <= |s| <= n && AllDigits(s)
  {
    if n > 1 {
      if Matches(UpTo(n), s) {
        var k :| 0 <= k <= |s| && Matches(Class(DIGITS), s[..k]) && Matches(Opt(UpTo(n - 1)), s[k..]);
        UpToMatches(n - 1, s[k..]);
        assert s == s[..k] + s[k..];
      }
      if 1 <= |s| <= n && AllDigits(s) {
        UpToMatches(n - 1, s[1..]);
        assert Matches(Class(DIGITS), s[..1]);
        Concatenated(Class(DIGITS), Opt(UpTo(n - 1)), s, 1);
      }
    }
  }

  /** What follows the digits of the whole seconds. */
  predicate IsProtoTail(s: string) {
    s == "s" || (3 <= |s| <= 11 && s[0] == '.' && AllDigits(s[1..|s| - 1]) && s[|s| - 1] == 's')
  }

  lemma ProtoTailMatches(s: string)
    ensures Matches(Cat(Opt(PROTO_FRACTION), Class({'s'})), s) <==> IsProtoTail(s)
  {
    if Matches(Cat(Opt(PROTO_FRACTION), Class({'s'})), s) {
      var j :| 0 <= j <= |s| && Matches(Opt(PROTO_FRACTION), s[..j]) && Matches(Class({'s'}), s[j..]);
      if j == 0 {
        assert s == s[0..];
      } else {
        CharThen('.', UpTo(9), s[..j]);
        UpToMatches(9, s[..j][1..]);
        assert s[..j][1..] == s[1..|s| - 1];
      }
    }
    if s == "s" {
      assert s[..0] == "" && s[0..] == s;
      Concatenated(Opt(PROTO_FRACTION), Class({'s'}), s, 0);
    } else if IsProtoTail(s) {
      var j := |s| - 1;
      assert s[..j][1..] == s[1..j];
      UpToMatches(9, s[1..j]);
      CharThen('.', UpTo(9), s[..j]);
      Concatenated(Opt(PROTO_FRACTION), Class({'s'}), s, j);
    }
  }

  lemma ProtoBodyMatches(s: string)
    ensures Matches(PROTO_BODY, s) <==> LeadingDigits(s) > 0 && IsProtoTail(s[LeadingDigits(s)..])
  {
    forall t | Matches(Cat(Opt(PROTO_FRACTION), Class({'s'})), t) ensures t != "" && !IsDigit(t[0]) {
      ProtoTailMatches(t);
    }
    DigitsThen(Cat(Opt(PROTO_FRACTION), Class({'s'})), s);
    ProtoTailMatches(s[LeadingDigits(s)..]);
  }

  lemma LeadingInFront(body: string, u: char)
    requires !IsDigit(u)
    ensures LeadingDigits(body + [u]) == LeadingDigits(body)
  {
    var k := LeadingDigits(body);
    assert body + [u] == body[..k] + (body[k..] + [u]);
    LeadingOf(body[..k], body[k..] + [u]);
  }

  lemma NoDigitsSplit(body: string)
    requires LeadingDigits(body) == 0
    ensures SplitFraction(body).None?
  {
  }

  lemma OnlyDigitsSplit(body: string)
    requires 0 < LeadingDigits(body) == |body|
    ensures SplitFraction(body).Some?
  {
  }

  lemma PointSplit(body: string, k: nat)
    requires 0 < k == LeadingDigits(body) < |body|
    ensures SplitFraction(body).Some? <==> body[k] == '.' && 1 <= |body| - k - 1 <= 9 && AllDigits(body[k + 1..])
  {
  }

  lemma LongProtoTail(tail: string, rest: string)
    requires rest != "" && tail == rest + "s"
    ensures IsProtoTail(tail) <==> rest[0] == '.' && 1 <= |rest| - 1 <= 9 && AllDigits(rest[1..])
  {
    assert tail[1..|tail| - 1] == rest[1..];
  }

  lemma BodySplits(body: string, k: nat)
    requires k == LeadingDigits(body)
    ensures SplitFraction(body).Some? <==> k > 0 && IsProtoTail(body[k..] + "s")
  {
    if k == 0 {
      NoDigitsSplit(body);
    } else if k == |body| {
      OnlyDigitsSplit(body);
      assert body[k..] + "s" == "s";
    } else {
      PointSplit(body, k);
      LongProtoTail(body[k..] + "s", body[k..]);
      assert body[k..][1..] == body[k + 1..];
    }
  }

  lemma TailOf(s: string, body: string, k: nat)
    requires s == body + "s" && k <= |body|
    ensures s[k..] == body[k..] + "s"
  {
  }

  lemma BodyAndTail(s: string, body: string)
    requires s == body + "s"
    ensures SplitFraction(body).Some? <==> LeadingDigits(s) > 0 && IsProtoTail(s[LeadingDigits(s)..])
  {
    LeadingInFront(body, 's');
    BodySplits(body, LeadingDigits(body));
    TailOf(s, body, LeadingDigits(body));
  }

  lemma TailEnds(s: string)
    requires IsProtoTail(s[LeadingDigits(s)..])
    ensures s != "" && s[|s| - 1] == 's'
  {
  }

  /** The unsigned text, without a sign in front. */
  lemma UnsignedMatches(s: string)
    ensures Matches(PROTO_BODY, s) <==> s != "" && s[|s| - 1] == 's' && SplitFraction(s[..|s| - 1]).Some?
  {
    ProtoBodyMatches(s);
    if s != "" && s[|s| - 1] == 's' {
      LastIsS(s);
      BodyAndTail(s, s[..|s| - 1]);
    } else if Matches(PROTO_BODY, s) {
      TailEnds(s);
    }
  }

  lemma LastIsS(s: string)
    requires s != "" && s[|s| - 1] == 's'
    ensures s == s[..|s| - 1] + "s"
  {
  }

  lemma SignOrNot(s: string)
    ensures Matches(PROTO_PATTERN, s) <==>
              Matches(PROTO_BODY, s) || (s != "" && s[0] == '-' && Matches(PROTO_BODY, s[1..]))
  {
    OptCharThen('-', PROTO_BODY, s);
  }

  /** The reading of protobuf durations accepts exactly what the pattern matches. */
  lemma ProtoPatternAcceptsExactly(s: string)
    ensures Matches(PROTO_PATTERN, s) <==> DurationToMillis(s).Ok?
  {
    SignOrNot(s);
    UnsignedMatches(s);
    if s != "" && s[0] == '-' {
      UnsignedMatches(s[1..]);
      SignedText(s);
    } else {
      UnsignedText(s);
    }
  }

  lemma UnsignedText(s: string)
    requires s == "" || s[0] != '-'
    ensures DurationToMillis(s).Ok? <==> s != "" && s[|s| - 1] == 's' && SplitFraction(s[..|s| - 1]).Some?
  {
    if |s| > 1 { assert s[..|s| - 1][0] == s[0]; }
  }

  lemma SignedText(s: string)
    requires s != "" && s[0] == '-'
    ensures s[|s| - 1] == 's' ==> SplitFraction(s[..|s| - 1]).None?
    ensures DurationToMillis(s).Ok? <==> |s| > 1 && s[|s| - 1] == 's' && SplitFraction(s[1..][..|s| - 2]).Some?
  {
    if |s| > 1 {
      assert s[..|s| - 1][0] == s[0];
      assert s[..|s| - 1][1..] == s[1..][..|s| - 2];
    }
  }
}
