/** Exponentiation on naturals and the few facts about products, quotients and
    remainders that the limb and digit algorithms rest on. */
module Powers {

  function Pow(b: nat, e: nat): (r: nat)
    ensures b > 0 ==> r > 0
  {
    if e == 0 then 1 else b * Pow(b, e - 1)
  }

  lemma {:induction false} PowAdd(b: nat, m: nat, n: nat)
    ensures Pow(b, m + n) == Pow(b, m) * Pow(b, n)
    decreases m
  {
    if m > 0 {
      PowAdd(b, m - 1, n);
      MulAssoc(b, Pow(b, m - 1), Pow(b, n));
    }
  }

  lemma {:induction false} PowMul(b: nat, m: nat, n: nat)
    ensures Pow(Pow(b, m), n) == Pow(b, m * n)
    decreases n
  {
    if n > 0 {
      PowMul(b, m, n - 1);
      assert m * n == m + m * (n - 1);
      PowAdd(b, m, m * (n - 1));
    }
  }

  lemma {:induction false} PowMono(b: nat, m: nat, n: nat)
    requires b > 0 && m <= n
    ensures Pow(b, m) <= Pow(b, n)
  {
    PowAdd(b, m, n - m);
    MulMono(1, Pow(b, n - m), Pow(b, m));
  }

  /** Powers of a larger base are larger. */
  lemma {:induction false} PowBaseMono(a: nat, b: nat, e: nat)
    requires a <= b
    ensures Pow(a, e) <= Pow(b, e)
  {
    if e > 0 {
      PowBaseMono(a, b, e - 1);
      MulMono(Pow(a, e - 1), Pow(b, e - 1), a);
      MulMono(a, b, Pow(b, e - 1));
    }
  }

  lemma MulAssoc(a: int, b: int, c: int)
    ensures a * (b * c) == a * b * c
  {
  }

  lemma MulMono(a: int, b: int, c: int)
    requires a <= b && 0 <= c
    ensures a * c <= b * c
  {
  }

  lemma DistributeRight(a: int, b: int, c: int)
    ensures (a + b) * c == a * c + b * c
  {
  }

  /** A number is determined by its quotient and remainder. */
  lemma DivModUnique(n: int, d: int, q: int, r: int)
    requires 0 <= r < d && n == q * d + r
    ensures n / d == q && n % d == r
  {
    var q', r' := n / d, n % d;
    assert n == q' * d + r';
    assert (q - q') * d == r' - r;
    if q > q' {
      MulMono(1, q - q', d);
    } else if q < q' {
      assert (q' - q) * d == r - r';
      MulMono(1, q' - q, d);
    }
  }

  lemma ModOfMultiple(q: int, d: int)
    requires d > 0
    ensures (q * d) % d == 0 && (q * d) / d == q
  {
    DivModUnique(q * d, d, q, 0);
  }

  /** Adding a multiple of the modulus changes nothing. */
  lemma ModAddMultiple(n: int, k: int, d: int)
    requires d > 0
    ensures (n + k * d) % d == n % d
  {
    var q, r := n / d, n % d;
    DistributeRight(q, k, d);
    DivModUnique(n + k * d, d, q + k, r);
  }

  /** A common factor moves out of a remainder. */
  lemma ModScale(n: int, d: int, k: int)
    requires d > 0 && k > 0
    ensures k * d > 0 && (k * n) % (k * d) == k * (n % d)
  {
    var q, r := n / d, n % d;
    ModScaleArith(n, d, k, q, r);
    DivModUnique(k * n, k * d, q, k * r);
  }

  lemma ModScaleArith(n: int, d: int, k: int, q: int, r: int)
    requires 0 <= r < d && k > 0 && n == q * d + r
    ensures k * n == q * (k * d) + k * r && 0 <= k * r < k * d
  {
    MulAssoc(q, k, d);
    MulAssoc(k, q, d);
    assert k * n == k * (q * d) + k * r;
    MulMono(r + 1, d, k);
  }

  /** Dividing twice is dividing by the product. */
  lemma DivDiv(n: int, a: int, b: int)
    requires a > 0 && b > 0
    ensures a * b > 0 && n / (a * b) == (n / a) / b
  {
    var q, u := n / a, n % a;
    var p, v := q / b, q % b;
    DivDivSplit(n, a, b, q, u, p, v);
    DivModUnique(n, a * b, p, v * a + u);
  }

  lemma DivDivSplit(n: int, a: int, b: int, q: int, u: int, p: int, v: int)
    requires n == q * a + u && 0 <= u < a && q == p * b + v && 0 <= v < b
    ensures n == p * (a * b) + (v * a + u)
    ensures 0 <= v * a + u < a * b
  {
    DistributeRight(p * b, v, a);
    MulAssoc(p, b, a);
    MulMono(v + 1, b, a);
    DistributeRight(v, 1, a);
  }

  /** A digit on top of a smaller number stays below the next power. */
  lemma TopDigit(low: int, digit: int, p: int, base: int)
    requires 0 <= low < p && digit < base
    ensures low + digit * p < base * p
  {
    DistributeRight(digit, 1, p);
    MulMono(digit + 1, base, p);
  }

  /** A multiple of d below k*d leaves room for anything below d. */
  lemma RoundedBelow(x: int, d: int, k: int)
    requires d > 0 && x % d == 0 && x < k * d
    ensures x + d <= k * d
  {
    var q := x / d;
    if q >= k {
      MulMono(k, q, d);
    }
    MulMono(q + 1, k, d);
    DistributeRight(q, 1, d);
  }
}
