/** `toFixed` over exact reals: round to a number of decimals, halves away from zero. */
module Decimals {

  /** How many decimals are kept: two or three. */
  datatype Places = Two | Three {

    function ToUnits(x: real): real {
      if Two? then x * 100.0 else x * 1000.0
    }

    function FromUnits(n: int): real {
      if Two? then n as real / 100.0 else n as real / 1000.0
    }
  }

  function Nearest(units: real): int {
    if units >= 0.0 then (units + 0.5).Floor else -(0.5 - units).Floor
  }

  function Fixed(x: real, p: Places): real {
    p.FromUnits(Nearest(p.ToUnits(x)))
  }

  lemma NearestNear(u: real)
    ensures -0.5 <= Nearest(u) as real - u <= 0.5
  {
  }

  lemma NearestExact(n: int)
    ensures Nearest(n as real) == n
  {
    assert (n as real + 0.5).Floor == n && (0.5 - n as real).Floor == -n;
  }

  lemma NearestMonotone(u: real, v: real)
    requires u <= v
    ensures Nearest(u) <= Nearest(v)
  {
  }

  /** Rounding moves a number by at most half a unit of the last decimal kept. */
  lemma FixedNear(x: real, p: Places)
    ensures -0.5 <= p.ToUnits(Fixed(x, p)) - p.ToUnits(x) <= 0.5
  {
    NearestNear(p.ToUnits(x));
  }

  /** A number with that few decimals is left alone. */
  lemma FixedExact(n: int, p: Places)
    ensures Fixed(p.FromUnits(n), p) == p.FromUnits(n)
  {
    NearestExact(n);
    assert p.ToUnits(p.FromUnits(n)) == n as real;
  }

  /** Rounding twice is rounding once. */
  lemma FixedTwice(x: real, p: Places)
    ensures Fixed(Fixed(x, p), p) == Fixed(x, p)
  {
    FixedExact(Nearest(p.ToUnits(x)), p);
  }

  /** Rounding keeps order. */
  lemma FixedMonotone(x: real, y: real, p: Places)
    requires x <= y
    ensures Fixed(x, p) <= Fixed(y, p)
  {
    NearestMonotone(p.ToUnits(x), p.ToUnits(y));
  }
}
