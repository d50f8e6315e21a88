/** Products, powers and floor division on naturals: the few nonlinear facts that the rounding
    proofs rest on. */
module Floors {

  lemma FloorBounds(x: nat, d: nat)
    requires d > 0
    ensures x / d * d <= x < x / d * d + d
  {
  }

  lemma MulLe(x: nat, y: nat, k: nat)
    requires x <= y
    ensures x * k <= y * k
    ensures k * x <= k * y
  {
  }

  lemma MulCommutes(x: int, y: int)
    ensures x * y == y * x
  {
  }

  lemma MulAdd(k: int, x: int, y: int)
    ensures k * (x + y) == k * x + k * y
  {
  }

  /** A product with a difference that is at least -y is at least the negated product with y. */
  lemma MulAtLeast(k: nat, x: int, y: int)
    requires x + y >= 0
    ensures k * x + k * y >= 0
  {
    MulAdd(k, x, y);
    MulLe(0, x + y, k);
  }

  lemma MulLt(x: nat, y: nat, k: nat)
    requires x < y && 0 < k
    ensures x * k < y * k
  {
  }

  /** The quotient is the largest q with q * d <= x. */
  lemma FloorAtLeast(q: nat, x: nat, d: nat)
    requires d > 0 && q * d <= x
    ensures q <= x / d
  {
    FloorBounds(x, d);
    assert (x / d + 1) * d == x / d * d + d;
    if q > x / d {
      MulLe(x / d + 1, q, d);
    }
  }

  lemma FloorBelow(q: nat, x: nat, d: nat)
    requires d > 0 && x < q * d
    ensures x / d < q
  {
    FloorBounds(x, d);
    if q <= x / d {
      MulLe(q, x / d, d);
    }
  }

  lemma FloorMonotone(x: nat, y: nat, d: nat)
    requires d > 0 && x <= y
    ensures x / d <= y / d
  {
    FloorBounds(x, d);
    FloorAtLeast(x / d, y, d);
  }

  /** A larger divisor gives a smaller quotient. */
  lemma FloorAntitone(x: nat, d: nat, e: nat)
    requires 0 < d <= e
    ensures x / e <= x / d
  {
    FloorBounds(x, e);
    MulLe(d, e, x / e);
    FloorAtLeast(x / e, x, d);
  }

  lemma FloorOfMultiple(x: nat, d: nat)
    requires d > 0
    ensures x * d / d == x
  {
    FloorBounds(x * d, d);
    FloorAtLeast(x, x * d, d);
    FloorBelow(x + 1, x * d, d);
  }

  lemma MulReorder(a: int, b: int, c: int)
    ensures a * (b * c) == a * c * b
  {
    assert b * c == c * b;
  }

  lemma MulAssociates(a: int, b: int, c: int)
    ensures a * (b * c) == a * b * c
  {
  }

  lemma NestedBounds(x: nat, d: nat, e: nat, m: nat, q: nat)
    requires m * d <= x < m * d + d
    requires q * e <= m < q * e + e
    ensures q * (d * e) <= x < (q + 1) * (d * e)
  {
    MulReorder(q, d, e);
    MulReorder(q + 1, d, e);
    MulLe(q * e, m, d);
    MulLe(m + 1, (q + 1) * e, d);
  }

  /** Rounding twice is rounding once. */
  lemma FloorOfFloor(x: nat, d: nat, e: nat)
    requires d > 0 && e > 0
    ensures d * e > 0
    ensures x / d / e == x / (d * e)
  {
    var m := x / d;
    var q := m / e;
    FloorBounds(x, d);
    FloorBounds(m, e);
    NestedBounds(x, d, e, m, q);
    FloorAtLeast(q, x, d * e);
    FloorBelow(q + 1, x, d * e);
  }

  /** Splitting a sum never gains. */
  lemma FloorSuperadditive(x: nat, y: nat, d: nat)
    requires d > 0
    ensures x / d + y / d <= (x + y) / d
  {
    FloorBounds(x, d);
    FloorBounds(y, d);
    assert (x / d + y / d) * d == x / d * d + y / d * d;
    FloorAtLeast(x / d + y / d, x + y, d);
  }

  function Pow(base: nat, n: nat): (power: nat)
    ensures base > 0 ==> power > 0
  {
    if n == 0 then 1 else base * Pow(base, n - 1)
  }

  lemma {:induction false} PowAdds(base: nat, m: nat, n: nat)
    ensures Pow(base, m + n) == Pow(base, m) * Pow(base, n)
  {
    if m > 0 {
      PowAdds(base, m - 1, n);
      MulAssociates(base, Pow(base, m - 1), Pow(base, n));
    }
  }

  lemma PowerOfSum(base: nat, m: nat, x: nat, n: nat, y: nat)
    requires Pow(base, m) == x && Pow(base, n) == y
    ensures Pow(base, m + n) == x * y
  {
    PowAdds(base, m, n);
  }

  lemma PowMonotone(base: nat, m: nat, n: nat)
    requires base > 0 && m <= n
    ensures Pow(base, m) <= Pow(base, n)
  {
    PowAdds(base, m, n - m);
    MulLe(1, Pow(base, n - m), Pow(base, m));
  }
}
