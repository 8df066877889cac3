/** The compact form of amounts: a bijection on the naturals, computed with 64-bit numbers. */
module Compressor {
  import opened Powers

  const COIN: nat := 100_000_000
  const MAX_MONEY: nat := 21_000_000 * COIN
  const WORD: nat := 0x1_0000_0000_0000_0000

  /** Trailing zeros taken off, at most nine in all. */
  function Strip(n: nat, e: nat): (r: (nat, nat))
    requires n > 0 && e <= 9
    ensures r.0 > 0 && e <= r.1 <= 9 && (r.1 < 9 ==> r.0 % 10 != 0) && r.0 <= n
    decreases n
  {
    if n % 10 == 0 && e < 9 then Strip(n / 10, e + 1) else (n, e)
  }

  function Compress(n: nat): nat {
    if n == 0 then 0 else
      var (m, e) := Strip(n, 0);
      if e < 9 then 1 + (m / 10 * 9 + m % 10 - 1) * 10 + e else 1 + (m - 1) * 10 + 9
  }

  /** n * 10^e. */
  function Scale(n: nat, e: nat): nat {
    if e == 0 then n else Scale(n, e - 1) * 10
  }

  function Decompress(x: nat): nat {
    if x == 0 then 0 else
      var e, y := (x - 1) % 10, (x - 1) / 10;
      Scale(if e < 9 then y / 9 * 10 + y % 9 + 1 else y + 1, e)
  }

  lemma {:induction false} ScaleFirst(n: nat, e: nat)
    ensures Scale(n * 10, e) == Scale(n, e) * 10
  {
    if e > 0 { ScaleFirst(n, e - 1); }
  }

  /** What is stripped can be put back. */
  lemma {:induction false} StripScale(n: nat, e: nat)
    requires n > 0 && e <= 9
    ensures var (m, f) := Strip(n, e); Scale(m, f - e) == n
    decreases n
  {
    if n % 10 == 0 && e < 9 {
      StripScale(n / 10, e + 1);
    }
  }

  /** A number without trailing zeros, or scaled by 10^9, is found again. */
  lemma {:induction false} ScaleStrip(m: nat, k: nat, j: nat)
    requires m > 0 && j <= k <= 9 && (m % 10 != 0 || k == 9)
    ensures Scale(m, j) > 0 && Strip(Scale(m, j), k - j) == (m, k)
    decreases j
  {
    if j > 0 { ScaleStrip(m, k, j - 1); }
  }

  lemma DecompressCompress(n: nat)
    ensures Decompress(Compress(n)) == n
  {
    if n > 0 {
      var (m, e) := Strip(n, 0);
      StripScale(n, 0);
      if e < 9 {
        Unpack(m / 10 * 9 + m % 10 - 1, e);
        NineSplit(m / 10, m % 10 - 1);
      } else {
        Unpack(m - 1, 9);
      }
    }
  }

  lemma Unpack(y: nat, e: nat)
    requires e < 10
    ensures (y * 10 + e) % 10 == e && (y * 10 + e) / 10 == y
  {
  }

  lemma NineSplit(q: nat, r: nat)
    requires r < 9
    ensures (q * 9 + r) / 9 == q && (q * 9 + r) % 9 == r
  {
  }

  lemma CompressDecompress(x: nat)
    ensures Compress(Decompress(x)) == x
  {
    if x > 0 {
      var e, y := (x - 1) % 10, (x - 1) / 10;
      var m := if e < 9 then y / 9 * 10 + y % 9 + 1 else y + 1;
      ScaleStrip(m, e, e);
      Stripped(Scale(m, e), m, e);
      if e < 9 { Unpack(y / 9, y % 9 + 1); }
    }
  }

  /** Every number is the compact form of exactly one amount. */
  lemma Bijective(x: nat)
    ensures Compress(Decompress(x)) == x && forall n {:trigger Compress(n)} :: Compress(n) == x ==> n == Decompress(x)
  {
    CompressDecompress(x);
    forall n | Compress(n) == x ensures n == Decompress(x) { DecompressCompress(n); }
  }

  lemma {:induction false} ScaleIsPower(n: nat, e: nat)
    ensures Scale(n, e) == n * Pow(10, e)
  {
    if e > 0 {
      ScaleIsPower(n, e - 1);
      MulAssoc(n, Pow(10, e - 1), 10);
    }
  }

  /** The format: an amount (10q + d) * 10^e with last digit d other than 0 and e below 9 is written as
      1 + 10 * (9q + d - 1) + e, and a multiple k * 10^9 as 10k. */
  lemma CompactForm(q: nat, d: nat, e: nat)
    requires 1 <= d <= 9 && e < 9
    ensures Compress((10 * q + d) * Pow(10, e)) == 1 + 10 * (9 * q + d - 1) + e
  {
    var m := 10 * q + d;
    ScaleIsPower(m, e);
    Unpack(q, d);
    ScaleStrip(m, e, e);
    Stripped(Scale(m, e), m, e);
  }

  lemma CompactRound(k: nat, nine: nat)
    requires k > 0 && nine == 9
    ensures Compress(k * Pow(10, nine)) == 10 * k
  {
    ScaleIsPower(k, nine);
    ScaleStrip(k, nine, nine);
    Stripped(Scale(k, nine), k, nine);
  }

  lemma Stripped(n: nat, m: nat, e: nat)
    requires n > 0 && e <= 9 && Strip(n, 0) == (m, e)
    ensures Compress(n) == if e < 9 then 1 + (m / 10 * 9 + m % 10 - 1) * 10 + e else 1 + (m - 1) * 10 + 9
  {
  }

  // ----- on 64-bit numbers -----

  function Wrap(x: int): (r: nat)
    ensures r < WORD && (0 <= x < WORD ==> r == x)
  {
    x % 0x1_0000_0000_0000_0000
  }

  predicate Fits(x: int) { 0 <= x < WORD }

  /** `CompressAmount`: the compact form, modulo 2^64; exact says that no value on the way wrapped. */
  method CompressAmount(amount: nat) returns (x: nat, ghost exact: bool)
    requires amount < WORD
    ensures x == Wrap(Compress(amount)) && (exact <==> Compress(amount) < WORD)
  {
    if amount == 0 {
      return 0, true;
    }
    var n, e := StripZeros(amount);
    if e < 9 {
      var d := n % 10;
      assert 1 <= d <= 9;
      n := n / 10;
      x, exact := Pack(n, d, e);
    } else {
      x := Wrap(1 + Wrap((n - 1) * 10) + 9);
      exact := Fits((n - 1) * 10) && Fits(1 + Wrap((n - 1) * 10) + 9);
      WrapChain(n - 1, 9);
    }
  }

  method StripZeros(amount: nat) returns (n: nat, e: nat)
    requires amount > 0
    ensures (n, e) == Strip(amount, 0)
  {
    n, e := amount, 0;
    while n % 10 == 0 && e < 9
      invariant n > 0 && e <= 9 && Strip(n, e) == Strip(amount, 0)
      decreases n
    {
      n := n / 10;
      e := e + 1;
    }
  }

  method Pack(n: nat, d: nat, e: nat) returns (x: nat, ghost exact: bool)
    requires 10 * n < WORD && 1 <= d <= 9 && e < 9
    ensures x == Wrap(1 + (n * 9 + d - 1) * 10 + e) && (exact <==> Fits(1 + (n * 9 + d - 1) * 10 + e))
  {
    var y := Wrap(Wrap(Wrap(n * 9) + d) - 1);
    assert y == n * 9 + d - 1;
    x := Wrap(1 + Wrap(y * 10) + e);
    exact := Fits(n * 9) && Fits(Wrap(n * 9) + d) && Fits(Wrap(Wrap(n * 9) + d) - 1) && Fits(y * 10) &&
    Fits(1 + Wrap(y * 10) + e);
    WrapChain(y, e);
  }

  /** Only the last product can exceed a word, and wrapping it wraps the result. */
  lemma WrapChain(y: nat, e: nat)
    ensures Wrap(1 + Wrap(y * 10) + e) == Wrap(1 + y * 10 + e)
    ensures Fits(y * 10) && Fits(1 + Wrap(y * 10) + e) <==> Fits(1 + y * 10 + e)
  {
  }

  /** `DecompressAmount`: the amount, modulo 2^64; exact says that no value on the way wrapped. */
  method DecompressAmount(compact: nat) returns (amount: nat, ghost exact: bool)
    requires compact < WORD
    ensures amount == Wrap(Decompress(compact)) && (exact <==> Decompress(compact) < WORD)
  {
    if compact == 0 {
      return 0, true;
    }
    var x := compact - 1;
    var e := x % 10;
    x := x / 10;
    var n;
    if e < 9 {
      var d := x % 9 + 1;
      x := x / 9;
      n := Wrap(Wrap(x * 10) + d);
      exact := Fits(x * 10) && Fits(Wrap(x * 10) + d);
      assert n == x * 10 + d;
    } else {
      n := Wrap(x + 1);
      exact := Fits(x + 1);
    }
    ghost var scaled;
    amount, scaled := Multiply(n, e);
    exact := exact && scaled;
  }

  method Multiply(m: nat, f: nat) returns (n: nat, ghost exact: bool)
    requires m < WORD
    ensures n == Wrap(Scale(m, f)) && (exact <==> Fits(Scale(m, f)))
  {
    n, exact := m, true;
    var e := f;
    while e != 0
      invariant 0 <= e <= f && n == Wrap(Scale(m, f - e)) && (exact <==> Fits(Scale(m, f - e)))
    {
      WrapProduct(Scale(m, f - e));
      exact := exact && Fits(n * 10);
      n := Wrap(n * 10);
      e := e - 1;
    }
  }

  lemma WrapProduct(y: nat)
    ensures Wrap(Wrap(y) * 10) == Wrap(y * 10)
  {
    var q := y / 0x1_0000_0000_0000_0000;
    assert y == q * 0x1_0000_0000_0000_0000 + Wrap(y);
  }

  lemma CompactBound(n: nat)
    ensures Compress(n) <= 9 * n + 10
  {
  }

  /** Amounts up to the money cap: nothing wraps in either direction, and the machine versions are inverse. */
  method AmountRoundTrip(amount: nat) returns (compact: nat, back: nat, ghost exact: bool)
    requires amount <= MAX_MONEY
    ensures compact == Compress(amount) && back == amount && exact
  {
    CompactBound(amount);
    compact, exact := CompressAmount(amount);
    DecompressCompress(amount);
    ghost var exactBack;
    back, exactBack := DecompressAmount(compact);
    exact := exact && exactBack;
  }
}
