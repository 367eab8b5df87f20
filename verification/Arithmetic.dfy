/** Products and quotients of natural numbers. */
module Arithmetic {

  lemma MulMono(a: nat, b: nat, c: nat)
    requires a <= b
    ensures a * c <= b * c
  {
  }

  /** n units from i on end no later than unit j begins. */
  lemma SpanBefore(i: nat, n: nat, j: nat, unit: nat)
    requires i + n <= j
    ensures i * unit + n * unit <= j * unit
  {
    assert (i + n) * unit == i * unit + n * unit;
    MulMono(i + n, j, unit);
  }

  /** Unit c of a stretch of units, behind the first few. */
  lemma UnitInside(first: nat, c: nat, n: nat, unit: nat)
    requires first <= c < n
    ensures first * unit <= c * unit && c * unit + unit <= n * unit
  {
    SpanBefore(c, 1, n, unit);
    MulMono(first, c, unit);
  }

  lemma DivMod(x: nat, d: nat) returns (q: nat, r: nat)
    requires d > 0
    ensures q == x / d && r == x % d
    ensures x == q * d + r && r < d
  {
    q, r := x / d, x % d;
  }

  lemma DivModUnique(x: nat, d: nat, q: nat, r: nat)
    requires r < d && x == q * d + r
    ensures x / d == q && x % d == r
  {
    var p, s := DivMod(x, d);
    Quotients(p, q, d, s, r);
  }

  lemma Quotients(p: nat, q: nat, d: nat, s: nat, r: nat)
    requires r < d && s < d && p * d + s == q * d + r
    ensures p == q && s == r
  {
    if p < q {
      SpanBefore(p, 1, q, d);
    } else if q < p {
      SpanBefore(q, 1, p, d);
    }
  }

  /** Rounding a division up covers the dividend, and not by a whole unit. */
  lemma RoundUp(x: nat, d: nat)
    requires d > 0
    ensures x <= (x / d + if x % d != 0 then 1 else 0) * d < x + d
    ensures x > 0 ==> x / d + (if x % d != 0 then 1 else 0) >= 1
  {
    var q, r := DivMod(x, d);
    assert (q + 1) * d == q * d + d;
    if q == 0 {
      assert x == r;
    }
  }

  /** Only one multiple of a unit covers x without a whole unit to spare. */
  lemma LeastMultiple(m: nat, n: nat, unit: nat, x: nat)
    requires x <= m * unit < x + unit && x <= n * unit < x + unit
    ensures m == n
  {
    if m < n {
      SpanBefore(m, 1, n, unit);
    } else if n < m {
      SpanBefore(n, 1, m, unit);
    }
  }

  function Quotient(x: nat, d: nat): nat
    requires d > 0
  {
    x / d
  }

  function Remainder(x: nat, d: nat): nat
    requires d > 0
  {
    x % d
  }
}
