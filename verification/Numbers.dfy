/** Facts about products, quotients and remainders that the solver needs one at a time. */
module Numbers {

  function Max(a: int, b: int): (r: int)
    ensures a <= r && b <= r && (r == a || r == b)
  {
    if a < b then b else a
  }

  function Min(a: int, b: int): (r: int)
    ensures r <= a && r <= b && (r == a || r == b)
  {
    if a < b then a else b
  }

  lemma QuotientRemainder(a: nat, b: nat)
    requires 0 < b
    ensures a == b * (a / b) + a % b && 0 <= a % b < b && 0 <= a / b
  {
  }

  lemma ProductGrows(b: nat, q: nat)
    requires 1 <= b
    ensures q <= b * q
  {
  }

  lemma QuotientAtMost(a: nat, b: nat)
    requires 0 < b
    ensures a / b <= a
  {
    QuotientRemainder(a, b);
    ProductGrows(b, a / b);
  }

  lemma ProductMonotone(a: nat, x: int, y: int)
    requires x <= y
    ensures a * x <= a * y
  {
  }

  function Pow2(k: nat): (r: nat)
    ensures r > 0
  {
    if k == 0 then 1 else 2 * Pow2(k - 1)
  }

  lemma {:induction false} Pow2Add(a: nat, b: nat)
    ensures Pow2(a + b) == Pow2(a) * Pow2(b)
  {
    if b > 0 {
      Pow2Add(a, b - 1);
      Regroup(Pow2(a), Pow2(b - 1));
    }
  }

  lemma Regroup(x: nat, y: nat)
    ensures 2 * (x * y) == x * (2 * y)
  {
  }

  lemma {:induction false} Pow2Monotone(a: nat, b: nat)
    requires a <= b
    ensures Pow2(a) <= Pow2(b)
  {
    if a < b {
      Pow2Monotone(a, b - 1);
    }
  }

  // Quotient and remainder are the only pair that fits.
  lemma SmallPowers()
    ensures Pow2(0) == 1 && Pow2(8) == 0x100 && Pow2(9) == 0x200 && Pow2(10) == 0x400 && Pow2(15) == 0x8000
    ensures Pow2(16) == 0x1_0000 && Pow2(24) == 0x100_0000
  {
    assert Pow2(2) == 4 && Pow2(4) == 16 && Pow2(6) == 64 && Pow2(8) == 0x100 && Pow2(10) == 0x400 && Pow2(12) == 0x1000;
    assert Pow2(14) == 0x4000 && Pow2(16) == 0x1_0000 && Pow2(18) == 0x4_0000 && Pow2(20) == 0x10_0000 && Pow2(22) == 0x40_0000;
  }

  // The binary digits of a number.
  function BitLength(n: nat): nat {
    if n == 0 then 0 else 1 + BitLength(n / 2)
  }

  lemma DivisionUnique(x: int, m: nat, q: int, r: int)
    requires 0 < m && x == q * m + r && 0 <= r < m
    ensures x / m == q && x % m == r
  {
    assert (x / m) * m + x % m == x;
    assert (x / m - q) * m == r - x % m;
    ProductAtLeast(x / m - q, m);
  }

  lemma ProductAtLeast(d: int, m: nat)
    ensures d >= 1 ==> d * m >= m
    ensures d <= -1 ==> d * m <= -(m as int)
  {
  }

  // Multiples of the modulus do not matter.
  lemma ModuloMultiple(x: int, m: nat, k: int)
    requires 0 < m
    ensures (x + k * m) % m == x % m
  {
    assert x == (x / m) * m + x % m;
    assert x + k * m == (x / m + k) * m + x % m;
    DivisionUnique(x + k * m, m, x / m + k, x % m);
  }

  lemma ModuloSum(x: int, y: int, m: nat)
    requires 0 < m
    ensures (x % m + y) % m == (x + y) % m
  {
    assert x == (x / m) * m + x % m;
    ModuloMultiple(x % m + y, m, x / m);
  }

  lemma QuotientOfQuotient(x: nat, a: nat, b: nat)
    requires 0 < a && 0 < b
    ensures a * b > 0 && x / (a * b) == x / a / b
  {
    var q := x / a;
    NestedDivision(x, a, b, q, x % a, q / b, q % b);
    DivisionUnique(x, a * b, q / b, (q % b) * a + x % a);
  }

  lemma NestedDivision(x: nat, a: nat, b: nat, q: nat, r: nat, q2: nat, r2: nat)
    requires x == q * a + r && q == q2 * b + r2 && r < a && r2 < b
    ensures a * b > 0 && x == q2 * (a * b) + (r2 * a + r) && r2 * a + r < a * b
  {
    Distribute(q2, b, r2, a);
    ProductMonotone(a, r2 + 1, b);
  }

  lemma Distribute(q: nat, b: nat, r: nat, a: nat)
    ensures (q * b + r) * a == q * (a * b) + r * a
  {
    assert (q * b + r) * a == q * b * a + r * a;
    assert q * b * a == q * (b * a);
  }
}
