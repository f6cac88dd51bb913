/** The delays of a retry policy from one attempt to the next
    (src/ojs/retry.py:90-117). */
module RetryDelays {
  import opened Numbers
  import opened Wrappers
  import opened RetryProjection
  import opened RetryRoundTrip

  // ------------------------------------------------------------------------------- powers

  lemma Associates(x: real, y: real, z: real)
    ensures Times(Times(x, y), z) == Times(x, Times(y, z))
  {
  }

  /** b ** 0 is 1, b ** 1 is b, and exponents add up. */
  lemma {:induction false} PowersMultiply(b: real, m: nat, n: nat)
    ensures Power(b, 0) == 1.0 && Power(b, 1) == b
    ensures Power(b, m + n) == Times(Power(b, m), Power(b, n))
  {
    if n > 0 {
      PowersMultiply(b, m, n - 1);
      Associates(Power(b, m), Power(b, n - 1), b);
    }
  }

  lemma {:induction false} PowerOfZero(b: real, e: nat)
    ensures Power(b, e) == 0.0 <==> b == 0.0 && e > 0
  {
    if e > 0 {
      PowerOfZero(b, e - 1);
      NoZeroProduct(Power(b, e - 1), b);
    }
  }

  lemma NoZeroProduct(x: real, y: real)
    ensures Times(x, y) == 0.0 <==> x == 0.0 || y == 0.0
  {
  }

  /** A negative exponent gives the inverse, and raises exactly for a coefficient of 0. */
  lemma NegativePowers(b: real, e: nat)
    requires e > 0
    ensures Raised(b, 0 - e).None? <==> b == 0.0
    ensures b != 0.0 ==> Times(Raised(b, 0 - e).value, Power(b, e)) == 1.0
  {
    PowerOfZero(b, e);
  }

  // ------------------------------------------------------------------------------- delays

  /** With a coefficient of at least one: the first delay is the initial interval, capped, and
      each later one is the one before times the coefficient, capped. */
  lemma DelaysMultiply(p: RetryPolicy, w: Waits, attempt: nat)
    requires w == WaitsOf(p) && attempt >= 1 && p.backoff >= 1.0 && w.initial.Some? && w.longest.Some?
    ensures BaseDelay(w, 1) == Some(Least(w.initial.value, w.longest.value))
    ensures BaseDelay(w, attempt).Some?
    ensures BaseDelay(w, attempt + 1) == Some(Least(Times(BaseDelay(w, attempt).value, w.backoff), w.longest.value))
  {
    NoNegativeWait(p);
    WaitsMultiply(w, attempt - 1);
  }

  lemma WaitsMultiply(w: Waits, e: nat)
    requires NotNegative(w) && w.initial.Some? && w.longest.Some? && w.backoff >= 1.0
    ensures BaseDelay(w, 1) == Some(Least(w.initial.value, w.longest.value))
    ensures BaseDelay(w, e + 1) == Some(Capped(w.initial.value, Power(w.backoff, e), w.longest.value))
    ensures BaseDelay(w, e + 2) == Some(Least(Times(BaseDelay(w, e + 1).value, w.backoff), w.longest.value))
  {
    PowerGrows(w.backoff, e);
    CappedOnce(w.initial.value, w.longest.value);
    assert Raised(w.backoff, 0) == Some(1.0) && Raised(w.backoff, e) == Some(Power(w.backoff, e));
    assert Raised(w.backoff, e + 1) == Some(Times(Power(w.backoff, e), w.backoff));
    CappedTwice(w.initial.value, Power(w.backoff, e), w.backoff, w.longest.value);
  }

  /** Capping before multiplying by a factor of at least one makes no difference. */
  lemma CappedTwice(x: real, f: real, b: real, longest: real)
    requires x >= 0.0 && f >= 0.0 && b >= 1.0 && longest >= 0.0
    ensures Capped(x, Times(f, b), longest) == Least(Times(Capped(x, f, longest), b), longest)
  {
    Associates(x, f, b);
    Product(x, f);
    Monotone(longest, 1.0, b);
    if Times(x, f) > longest { Larger(longest, Times(x, f), b); }
  }

  lemma Larger(x: real, y: real, b: real)
    requires x <= y && b >= 0.0
    ensures Times(x, b) <= Times(y, b)
  {
    Monotone(b, x, y);
  }

  /** Without jitter the delay is the capped one. */
  lemma NoJitter(w: Waits, attempt: int, draw: real)
    requires !w.jitter
    ensures Delay(w, attempt, draw) == BaseDelay(w, attempt)
  {
  }

  /** With jitter every delay from half the capped one to one and a half of it, as far as the cap
      goes, comes from some draw, and a draw of one changes nothing. */
  lemma JitterCovers(w: Waits, attempt: int, wait: real) returns (draw: real)
    requires w.jitter && BaseDelay(w, attempt).Some? && w.longest.Some?
    requires var base := BaseDelay(w, attempt).value;
      base > 0.0 && Times(base, 0.5) <= wait <= Times(base, 1.5) && wait <= w.longest.value
    ensures 0.5 <= draw <= 1.5 && Delay(w, attempt, draw) == Some(wait)
    ensures Delay(w, attempt, 1.0) == BaseDelay(w, attempt)
  {
    var base := BaseDelay(w, attempt).value;
    draw := Ratio(wait, base);
    Between(base, draw, 0.5, 1.5);
    assert Times(base, 1.0) == base <= w.longest.value;
  }
}
