/** How a signed protobuf duration is read (src/ojs/transport/grpc/protobuf_time.py:24-30): the
    sign belongs to the whole part alone, and the fraction is added. */
module NegativeDurations {
  import opened Wrappers
  import opened Decimals
  import opened Durations
  import opened RetryDurations

  /** A duration without a sign: digits, and at most nine digits after a point. */
  function Unsigned(whole: string, fraction: string): string {
    whole + (if fraction == "" then "" else "." + fraction)
  }

  predicate IsUnsigned(whole: string, fraction: string) {
    whole != "" && AllDigits(whole) && AllDigits(fraction) && |fraction| <= 9
  }

  lemma UnsignedSplits(whole: string, fraction: string)
    requires IsUnsigned(whole, fraction)
    ensures SplitFraction(Unsigned(whole, fraction)) == Some((Number(whole), Number(fraction), |fraction|))
  {
    if fraction == "" {
      LeadingOf(whole, "");
      assert Unsigned(whole, fraction) == whole && whole + "" == whole && whole[..|whole|] == whole;
    } else {
      SplitAfterDigits(whole, '.', fraction);
      assert Unsigned(whole, fraction) == whole + ['.'] + fraction;
    }
  }

  lemma UnsignedReads(whole: string, fraction: string)
    requires IsUnsigned(whole, fraction)
    ensures DurationToMillis(Unsigned(whole, fraction) + "s") ==
            Ok(SignedMillis(false, Number(whole), Number(fraction), |fraction|))
  {
    var body := Unsigned(whole, fraction);
    UnsignedSplits(whole, fraction);
    assert (body + "s")[..|body + "s"| - 1] == body;
    assert body[0] == whole[0] && IsDigit(whole[0]);
  }

  lemma SignedReads(whole: string, fraction: string)
    requires IsUnsigned(whole, fraction)
    ensures DurationToMillis("-" + Unsigned(whole, fraction) + "s") ==
            Ok(SignedMillis(true, Number(whole), Number(fraction), |fraction|))
  {
    var body := "-" + Unsigned(whole, fraction);
    UnsignedSplits(whole, fraction);
    assert (body + "s")[..|body + "s"| - 1] == body;
    assert body[1..] == Unsigned(whole, fraction);
  }

  /** Cutting toward zero. */
  function TowardZero(x: real): int {
    if x >= 0.0 then x.Floor else -(-x).Floor
  }

  /** What a minus sign does: the whole seconds are taken from the fraction. */
  lemma SignedMeans(whole: string, fraction: string)
    requires IsUnsigned(whole, fraction)
    ensures var value := RealFrom(Number(fraction) as real, |fraction|) - Number(whole) as real;
      DurationToMillis("-" + Unsigned(whole, fraction) + "s") == Ok(TowardZero(value * 1000.0))
  {
    SignedReads(whole, fraction);
    SignedValue(Number(whole), Number(fraction), |fraction|);
  }

  lemma SignedValue(whole: nat, fraction: nat, scale: nat)
    ensures SignedMillis(true, whole, fraction, scale) ==
            TowardZero((RealFrom(fraction as real, scale) - whole as real) * 1000.0)
  {
    var up := Scaled(whole, scale);
    RealOfScaled(whole, scale, 0);
    if up <= fraction {
      DifferenceMillis(fraction, up, scale);
    } else {
      DifferenceMillis(up, fraction, scale);
    }
  }

  lemma DifferenceMillis(a: nat, b: nat, scale: nat)
    requires b <= a
    ensures ((RealFrom(a as real, scale) - RealFrom(b as real, scale)) * 1000.0).Floor == Millis(a - b, scale)
    ensures RealFrom(b as real, scale) <= RealFrom(a as real, scale)
    ensures a > b ==> RealFrom(b as real, scale) < RealFrom(a as real, scale)
  {
    assert a as real == (a - b) as real + b as real;
    RealAdd((a - b) as real, b as real, scale);
    MillisFloor(a - b, scale);
    RealSign((a - b) as real, scale);
  }

  lemma {:induction false} RealSign(x: real, k: nat)
    requires x >= 0.0
    ensures RealFrom(x, k) >= 0.0 && (x > 0.0 ==> RealFrom(x, k) > 0.0)
    decreases k
  {
    if k > 0 { RealSign(x / 10.0, k - 1); }
  }

  lemma {:induction false} ZeroDigits(digits: string)
    requires AllDigits(digits)
    ensures Number(digits) == 0 <==> forall k | 0 <= k < |digits| :: digits[k] == '0'
  {
    if digits != "" { ZeroDigits(digits[..|digits| - 1]); }
  }

  /** The sign negates the duration exactly when its fraction is zero or the duration counts
      less than a millisecond. */
  lemma NegatedExactly(whole: string, fraction: string, m: int)
    requires IsUnsigned(whole, fraction) && DurationToMillis(Unsigned(whole, fraction) + "s") == Ok(m)
    ensures DurationToMillis("-" + Unsigned(whole, fraction) + "s") == Ok(-m)
            <==> (m == 0 || forall k | 0 <= k < |fraction| :: fraction[k] == '0')
  {
    UnsignedReads(whole, fraction);
    SignedReads(whole, fraction);
    ZeroDigits(fraction);
    NegatedNumbers(Number(whole), Number(fraction), |fraction|);
  }

  lemma {:induction false} ScaledOrder(a: nat, b: nat, k: nat)
    ensures Scaled(a, k) < Scaled(b, k) <==> a < b
  {
    if k > 0 { ScaledOrder(a, b, k - 1); }
  }

  lemma {:induction false} ShiftedOrder(a: nat, n: nat, k: nat)
    ensures Shifted(a, k) < n <==> a < Scaled(n, k)
  {
    if k > 0 { ShiftedOrder(a / 10, n, k - 1); }
  }

  lemma MillisBelow(a: nat, whole: nat, scale: nat)
    ensures Millis(a, scale) < 1000 * whole <==> a < Scaled(whole, scale)
  {
    ScaledThree(whole);
    if scale <= 3 {
      ScaledTwice(whole, scale, 3 - scale);
      ScaledOrder(a, Scaled(whole, scale), 3 - scale);
    } else {
      ScaledTwice(whole, 3, scale - 3);
      ShiftedOrder(a, Scaled(whole, 3), scale - 3);
    }
  }

  lemma {:induction false} ZeroStays(k: nat)
    ensures Scaled(0, k) == 0 == Shifted(0, k)
  {
    if k > 0 { ZeroStays(k - 1); }
  }

  lemma NegatedNumbers(whole: nat, fraction: nat, scale: nat)
    ensures var m := SignedMillis(false, whole, fraction, scale);
      SignedMillis(true, whole, fraction, scale) == -m <==> m == 0 || fraction == 0
  {
    var up := Scaled(whole, scale);
    ScaledOrder(0, whole, scale);
    ZeroStays(scale);
    ZeroStays(if scale <= 3 then 3 - scale else scale - 3);
    MillisBelow(up + fraction, whole, scale);
    if up > fraction { MillisBelow(up - fraction, whole, scale); }
  }

  /** "-1.5s" is read as half a second less than nothing. */
  lemma HalfIsRead()
    ensures DurationToMillis("1.5s") == Ok(1500) && DurationToMillis("-1.5s") == Ok(-500)
  {
    assert Number("1") == 1 && Number("5") == 5;
    assert Scaled(1, 1) == 10 && Scaled(15, 2) == 1500 && Scaled(5, 2) == 500;
    assert Unsigned("1", "5") + "s" == "1.5s" && "-" + Unsigned("1", "5") + "s" == "-1.5s";
    UnsignedReads("1", "5");
    SignedReads("1", "5");
  }
}
