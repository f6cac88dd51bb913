/** Small facts about numbers that several modules use. */
module Numbers {

  function Min(a: nat, b: nat): nat {
    if a < b then a else b
  }

  function Least(a: real, b: real): real {
    if b < a then b else a
  }

  function Greatest(a: real, b: real): real {
    if b > a then b else a
  }

  function Times(x: real, f: real): real {
    x * f
  }

  lemma Product(x: real, f: real)
    requires x >= 0.0 && f >= 0.0
    ensures Times(x, f) >= 0.0
  {
  }

  lemma Distributes(x: real, f: real, g: real)
    ensures Times(x, g - f) == Times(x, g) - Times(x, f)
  {
  }

  lemma Positive(x: real, f: real)
    requires x > 0.0 && f > 0.0
    ensures Times(x, f) > 0.0
  {
  }

  lemma Strictly(x: real, f: real, g: real)
    requires x > 0.0 && f < g
    ensures Times(x, f) < Times(x, g)
  {
    Distributes(x, f, g);
    Positive(x, g - f);
  }

  /** The factor that makes x into y. */
  function Ratio(y: real, x: real): (f: real)
    requires x > 0.0
    ensures Times(x, f) == y
  {
    y / x
  }

  /** A product between two others with the same first factor. */
  lemma Between(x: real, f: real, low: real, high: real)
    requires x > 0.0
    ensures Times(x, low) <= Times(x, f) ==> low <= f
    ensures Times(x, f) < Times(x, high) ==> f < high
    ensures Times(x, f) <= Times(x, high) ==> f <= high
  {
    if f < low { Strictly(x, f, low); }
    if high < f { Strictly(x, high, f); }
  }

  /** A larger factor does not make a product smaller. */
  lemma Monotone(x: real, f: real, g: real)
    requires x >= 0.0 && f <= g
    ensures Times(x, f) <= Times(x, g)
  {
    Product(x, g - f);
    Distributes(x, f, g);
  }
}
