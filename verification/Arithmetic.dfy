/** Quotients and remainders, one nonlinear step at a time. */
module Arithmetic {
  lemma Multiple(k: int, d: int)
    requires k >= 1 && d >= 0
    ensures k * d >= d
  {}

  lemma Rejoin(x: int, d: int)
    requires d > 0
    ensures x == x / d * d + x % d && 0 <= x % d < d
  {}

  lemma QuotientUnique(d: int, q: int, r: int, q': int, r': int)
    requires q * d + r == q' * d + r' && 0 <= r < d && 0 <= r' < d
    ensures q == q' && r == r'
  {
    assert (q' - q) * d == q' * d - q * d;
    if q' > q {
      Multiple(q' - q, d);
    } else if q' < q {
      Multiple(q - q', d);
    }
  }

  lemma DivMod(q: int, d: int, r: int)
    requires 0 <= r < d
    ensures (q * d + r) / d == q && (q * d + r) % d == r
  {
    var x := q * d + r;
    Rejoin(x, d);
    QuotientUnique(d, q, r, x / d, x % d);
  }

  /** Cutting off the remainder leaves a multiple. */
  lemma CutOffRemainder(x: int, d: int)
    requires d > 0
    ensures (x - x % d) % d == 0
  {
    Rejoin(x, d);
    DivMod(x / d, d, 0);
  }
}
