/** Facts about products and floor division of integers. */
module FloorDivision {

  function Quotient(n: nat, d: nat): nat
    requires d > 0
  {
    n / d
  }

  function Remainder(n: nat, d: nat): nat
    requires d > 0
  {
    n % d
  }

  lemma MulMonotone(a: int, b: int, c: int)
    requires a <= b && c >= 0
    ensures a * c <= b * c
  {
  }

  lemma Distribute(a: int, b: int, c: int)
    ensures (a - b) * c == a * c - b * c && c * (a - b) == c * a - c * b
  {
  }

  lemma QuotientAndRemainder(n: nat, d: nat)
    requires d > 0
    ensures Quotient(n, d) * d + Remainder(n, d) == n && Remainder(n, d) < d
  {
  }

  /** The floor quotient is the only integer whose multiple of `d` lies in (n - d, n]. */
  lemma FloorBounds(n: int, d: int)
    requires d > 0
    ensures (n / d) * d <= n < (n / d) * d + d
  {
  }

  lemma AtMostFloor(q: int, n: int, d: int)
    requires d > 0 && q * d <= n
    ensures q <= n / d
  {
    FloorBounds(n, d);
    if q >= n / d + 1 { MulMonotone(n / d + 1, q, d); }
  }

  lemma FloorAtMost(n: int, d: int, q: int)
    requires d > 0 && n < q * d + d
    ensures n / d <= q
  {
    FloorBounds(n, d);
    if n / d >= q + 1 { MulMonotone(q + 1, n / d, d); }
  }

  lemma FloorIs(n: int, d: int, q: int)
    requires d > 0 && q * d <= n < q * d + d
    ensures n / d == q
  {
    AtMostFloor(q, n, d);
    FloorAtMost(n, d, q);
  }

  lemma CancelFactor(a: int, b: int, c: int)
    requires c > 0 && a * c <= b * c
    ensures a <= b
  {
    if a >= b + 1 { MulMonotone(b + 1, a, c); }
  }
}
