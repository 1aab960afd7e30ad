/** Choosing the binary unit a byte count is printed in. */
module ByteUnits {
  import opened Common

  const UNIT: nat := 1024

  /** 1024 to the k. */
  function Power(k: nat): (p: nat)
    ensures p > 0
  {
    if k == 0 then 1 else UNIT * Power(k - 1)
  }

  lemma Powers()
    ensures Power(1) == 1024 && Power(2) == 1048576 && Power(3) == 1073741824
    ensures Power(4) == 1099511627776 && Power(5) == 1125899906842624
  {
    assert Power(0) == 1;
  }

  lemma Regroup(d: nat, u: nat, q: nat, r': nat, r: nat)
    ensures d * (u * q + r') + r == (d * u) * q + (d * r' + r)
  {
    assert d * (u * q + r') == d * (u * q) + d * r';
    assert d * (u * q) == (d * u) * q;
  }

  lemma RemainderBound(d: nat, u: nat, r': nat, r: nat)
    requires r < d && r' < u
    ensures d * r' + r < d * u
  {
    assert d * r' <= d * (u - 1);
    assert d * (u - 1) == d * u - d;
  }

  /** Dividing by d and then by u is dividing by their product. */
  lemma DivideAgain(n: nat, d: nat, u: nat)
    requires d > 0 && u > 0 && d * u > 0
    ensures n / d / u == n / (d * u)
  {
    var q, r := n / d, n % d;
    var q', r' := q / u, q % u;
    DivMod(n, d);
    DivMod(q, u);
    Regroup(d, u, q', r', r);
    RemainderBound(d, u, r', r);
    QuotientUnique(n, d * u, q', d * r' + r);
  }

  /** The unit a count is printed in: below 1024 of it, unless it is the largest. */
  predicate Fits(n: u64, exp: nat) {
    && exp <= 4
    && n / Power(exp + 1) >= 1
    && (exp < 4 ==> n / Power(exp + 1) < UNIT)
  }

  /** The scaling loop of Bytes, for counts of a unit or more. The divisor never
      leaves 64 bits, is the matching power of 1024, and scales the count to at
      least 1 and, short of the largest unit, below 1024. */
  method Scale(n: u64) returns (div: u64, exp: nat)
    requires n >= UNIT
    ensures div == Power(exp + 1) && Fits(n, exp)
    ensures exp == 4 ==> n / Power(5) < 16384
  {
    Powers();
    div, exp := UNIT, 0;
    var size := n / UNIT;
    while size >= UNIT && exp < 4
      invariant exp <= 4
      invariant div == Power(exp + 1)
      invariant size == n / div
      invariant size >= 1
      decreases 4 - exp
    {
      DivideAgain(n, div, UNIT);
      assert Power(exp + 2) == UNIT * Power(exp + 1);
      assert exp + 2 == 2 || exp + 2 == 3 || exp + 2 == 4 || exp + 2 == 5;
      div := div * UNIT;
      exp := exp + 1;
      size := size / UNIT;
    }
  }

  /** Only one unit fits, so the loop's choice is forced. */
  lemma FitsOnce(n: u64, e: nat, f: nat)
    requires Fits(n, e) && Fits(n, f)
    ensures e == f
  {
    if e < f {
      FitsOrder(n, e, f);
    } else if f < e {
      FitsOrder(n, f, e);
    }
  }

  lemma FitsOrder(n: u64, e: nat, f: nat)
    requires e < f <= 4 && n / Power(e + 1) < UNIT
    ensures n / Power(f + 1) < 1
  {
    Powers();
  }

  /** A larger count never gets a smaller unit. */
  lemma LargerCountLargerUnit(n: u64, m: u64, e: nat, f: nat)
    requires n <= m && Fits(n, e) && Fits(m, f)
    ensures e <= f
  {
    Powers();
  }
}
