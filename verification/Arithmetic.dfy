/** Integer maxima and truncating division, and facts about products the solver does not find alone. */
module Arithmetic {
  function MinInt(a: int, b: int): int {
    if a <= b then a else b
  }

  function MaxInt(a: int, b: int): int {
    if a >= b then a else b
  }

  /** Rust's integer `/` by a positive divisor: it truncates toward zero. */
  function Quot(a: int, b: int): int
    requires b > 0
  {
    if a >= 0 then a / b else -((-a) / b)
  }

  lemma MulMono(a: int, b: int, v: int)
    requires a <= b && v >= 0
    ensures a * v <= b * v
  {
  }

  lemma DiffTimes(a: int, b: int, v: int)
    ensures (a - b) * v == a * v - b * v
  {
  }

  lemma Cancel(a: int, b: int, v: int)
    requires v > 0 && a * v == b * v
    ensures a == b
  {
    DiffTimes(a, b, v);
    if a > b { MulMono(1, a - b, v); }
    if a < b { MulMono(a - b, -1, v); }
  }

  /** Quotient and remainder are determined by the remainder's range. */
  lemma DivisionUnique(a: int, v: int, q: int, r: int)
    requires v > 0 && a == q * v + r && 0 <= r < v
    ensures a / v == q && a % v == r
  {
    var q', r' := a / v, a % v;
    assert a == q' * v + r';
    DiffTimes(q, q', v);
    if q - q' >= 1 { MulMono(1, q - q', v); }
    if q - q' <= -1 { MulMono(q - q', -1, v); }
  }

  lemma MultipleDivides(a: int, v: int)
    requires v > 0
    ensures a * v / v == a && a * v % v == 0
  {
    DivisionUnique(a * v, v, a, 0);
  }
}
