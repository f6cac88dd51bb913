/** Decimal digit strings and the plain formatting of non-negative decimals. */
module Decimals {

  predicate IsDigit(c: char) {
    '0' <= c <= '9'
  }

  predicate AllDigits(s: string) {
    forall i | 0 <= i < |s| :: IsDigit(s[i])
  }

  function DigitChar(d: nat): (c: char)
    requires d < 10
    ensures IsDigit(c)
  {
    '0' + d as char
  }

  function DigitValue(c: char): (d: nat)
    requires IsDigit(c)
    ensures d < 10
  {
    (c - '0') as nat
  }

  function Digits(n: nat): (s: string)
    ensures s != "" && AllDigits(s)
  {
    if n < 10 then [DigitChar(n)] else Digits(n / 10) + [DigitChar(n % 10)]
  }

  /** The last `w` digits of `n`, with leading zeros. */
  function Padded(n: nat, w: nat): (s: string)
    ensures |s| == w && AllDigits(s)
  {
    if w == 0 then "" else Padded(n / 10, w - 1) + [DigitChar(n % 10)]
  }

  function Number(s: string): nat
    requires AllDigits(s)
  {
    if s == "" then 0 else 10 * Number(s[..|s| - 1]) + DigitValue(s[|s| - 1])
  }

  /** n * 10^k */
  function Scaled(n: nat, k: nat): nat {
    if k == 0 then n else 10 * Scaled(n, k - 1)
  }

  /** n / 10^k: all but the last k digits. */
  function Shifted(n: nat, k: nat): nat {
    if k == 0 then n else Shifted(n / 10, k - 1)
  }

  /** Digits read back as the number they were printed from. */
  lemma {:induction false} DigitsRead(n: nat)
    ensures Number(Digits(n)) == n
  {
    if n < 10 {
      assert Digits(n)[..0] == "";
    } else {
      DigitsRead(n / 10);
      assert Digits(n)[..|Digits(n)| - 1] == Digits(n / 10);
    }
  }

  /** A number is its leading digits and its last `w`, read separately. */
  lemma {:induction false} SplitReads(n: nat, w: nat)
    ensures Scaled(Shifted(n, w), w) + Number(Padded(n, w)) == n
    ensures Number(Padded(n, w)) < Scaled(1, w)
  {
    if w > 0 {
      SplitReads(n / 10, w - 1);
      assert Padded(n, w)[..w - 1] == Padded(n / 10, w - 1);
    }
  }

  lemma {:induction false} ScaledTwice(n: nat, j: nat, k: nat)
    ensures Scaled(Scaled(n, j), k) == Scaled(n, j + k)
  {
    if k > 0 { ScaledTwice(n, j, k - 1); }
  }

  lemma {:induction false} ShiftScaled(n: nat, k: nat)
    ensures Shifted(Scaled(n, k), k) == n
  {
    if k > 0 { ShiftScaled(n, k - 1); }
  }

  lemma {:induction false} ShiftTwice(n: nat, j: nat, k: nat)
    ensures Shifted(Shifted(n, j), k) == Shifted(n, j + k)
  {
    if j > 0 { ShiftTwice(n / 10, j - 1, k); }
  }

  // ------------------------------------------------------------------- Python's Decimal

  /** coefficient * 10^exponent, not negative. Exact: the 28-digit context is left out. */
  datatype Decimal = Decimal(coefficient: nat, exponent: int)

  /** Decimal.normalize: no trailing zeros in the coefficient, and zero is 0E0. */
  function Normalized(d: Decimal): Decimal
    decreases d.coefficient
  {
    if d.coefficient == 0 then Decimal(0, 0)
    else if d.coefficient % 10 == 0 then Normalized(Decimal(d.coefficient / 10, d.exponent + 1))
    else d
  }

  /** format(d, "f"). */
  function Plain(d: Decimal): string {
    if d.exponent >= 0 then Digits(Scaled(d.coefficient, d.exponent))
    else Digits(Shifted(d.coefficient, -d.exponent)) + "." + Padded(d.coefficient, -d.exponent)
  }

  /** Normalizing keeps the value and moves only zeros. */
  lemma {:induction false} NormalizedKeeps(d: Decimal) returns (zeros: nat)
    ensures var n := Normalized(d);
      && (d.coefficient == 0 ==> n == Decimal(0, 0))
      && (d.coefficient > 0 ==>
            && n.coefficient % 10 != 0 && n.exponent == d.exponent + zeros
            && d.coefficient == Scaled(n.coefficient, zeros))
    decreases d.coefficient
  {
    if d.coefficient > 0 && d.coefficient % 10 == 0 {
      var more := NormalizedKeeps(Decimal(d.coefficient / 10, d.exponent + 1));
      zeros := more + 1;
    } else {
      zeros := 0;
    }
  }

  /** The whole thousandths in coefficient * 10^-scale. */
  function Millis(coefficient: nat, scale: nat): nat {
    if scale <= 3 then Scaled(coefficient, 3 - scale) else Shifted(coefficient, scale - 3)
  }

  /** Zeros after the last digit do not change the thousandths. */
  lemma MillisOfScaled(n: nat, scale: nat, zeros: nat)
    ensures Millis(Scaled(n, zeros), scale + zeros) == Millis(n, scale)
  {
    if scale + zeros <= 3 {
      ScaledTwice(n, zeros, 3 - scale - zeros);
    } else if scale <= 3 {
      // zeros = (3 - scale) + rest: shift the rest away again
      var rest: nat := scale + zeros - 3;
      ScaledTwice(n, 3 - scale, rest);
      ShiftScaled(Scaled(n, 3 - scale), rest);
    } else {
      ShiftTwice(Scaled(n, zeros), zeros, scale - 3);
      ShiftScaled(n, zeros);
    }
  }
}
