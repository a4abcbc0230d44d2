/** Multiplication and division by something unknown, in small steps. */
module Arith {

  lemma MulMonotone(a: int, b: int, s: int)
    requires a <= b && s >= 0
    ensures a * s <= b * s
  {
  }

  lemma MulAtLeast(d: int, c: int)
    requires d >= 0 && c > 0
    ensures d * c >= d
  {
  }

  lemma NextMultiple(k: int, step: int)
    ensures (k + 1) * step == k * step + step
  {
  }

  lemma Distribute(c: int, e: int, f: int)
    ensures c * (e + f) == e * c + f * c
  {
  }

  lemma DivMod(a: int, d: int)
    requires d > 0
    ensures a == a / d * d + a % d && 0 <= a % d < d
  {
  }

  lemma RemainderBound(a: nat, d: int)
    requires d > 0
    ensures 0 <= a % d < d && a % d <= a && a / d >= 0
  {
    DivMod(a, d);
    var q := a / d;
    if q < 0 { MulMonotone(q, -1, d); }
    MulMonotone(0, q, d);
  }

  // The quotient and the remainder are the only ones of their kind.
  lemma QuotientIs(a: int, d: int, q: int, r: int)
    requires d > 0 && a == q * d + r && 0 <= r < d
    ensures a / d == q && a % d == r
  {
    DivMod(a, d);
    var e := a / d;
    NextMultiple(e, d);
    NextMultiple(q, d);
    if e < q {
      MulMonotone(e + 1, q, d);
    } else if e > q {
      MulMonotone(q + 1, e, d);
    }
  }
}
