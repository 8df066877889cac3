/** Paying amounts with coins whose values divide one another: greedy payment from a bounded
    supply pays the most possible, and with the fewest coins. */
module CoinChains {
  import opened Powers

  /** Value i is smaller than the next and divides it. */
  ghost predicate Step(d: seq<int>, i: int)
    requires 0 <= i < |d| - 1
  {
    0 < d[i] < d[i + 1] && d[i + 1] % d[i] == 0
  }

  /** Strictly increasing values, each dividing the next. */
  ghost predicate Chain(d: seq<int>) {
    |d| > 0 && d[0] > 0 && forall i {:trigger Step(d, i)} :: 0 <= i < |d| - 1 ==> Step(d, i)
  }

  lemma ChainPositive(d: seq<int>, i: nat)
    requires Chain(d) && i < |d|
    ensures d[i] > 0
  {
    if i > 0 { assert Step(d, i - 1); }
  }

  /** Values increase along the chain. */
  lemma {:induction false} ChainIncreasing(d: seq<int>, i: nat, j: nat)
    requires Chain(d) && i < j < |d|
    ensures 0 < d[i] < d[j]
  {
    assert Step(d, j - 1);
    if i < j - 1 { ChainIncreasing(d, i, j - 1); }
  }

  /** How many coins of each value; only the first n entries matter. */
  type Counts = seq<int>

  function Value(d: seq<int>, x: Counts, n: nat): int
    requires n <= |d| && n <= |x|
  {
    if n == 0 then 0 else Value(d, x, n - 1) + x[n - 1] * d[n - 1]
  }

  function Number(x: Counts, n: nat): int
    requires n <= |x|
  {
    if n == 0 then 0 else Number(x, n - 1) + x[n - 1]
  }

  /** x takes no more than y has. */
  ghost predicate Within(x: Counts, y: Counts, n: nat) {
    n <= |x| && n <= |y| && forall i :: 0 <= i < n ==> 0 <= x[i] <= y[i]
  }

  ghost predicate NonNeg(x: Counts) {
    forall i :: 0 <= i < |x| ==> x[i] >= 0
  }

  // ----- greedy payment -----

  /** Coins of one value taken towards t when h are held. */
  function Take(t: int, v: int, h: int): (k: int)
    requires v > 0
  {
    if t < v || h <= 0 then 0 else if t / v < h then t / v else h
  }

  lemma TakeFacts(t: int, v: int, h: int)
    requires v > 0 && h >= 0
    ensures var k := Take(t, v, h);
            0 <= k <= h && (t >= 0 ==> k * v <= t) && (t < 0 ==> k == 0) && (k < h ==> t - k * v < v)
  {
    if t >= v && h > 0 {
      var q, r := t / v, t % v;
      assert t == q * v + r;
      MulMono(1, q, v);
      MulMono(Take(t, v, h), q, v);
    }
  }

  /** Anything that fits is at most what is taken. */
  lemma TakeMost(t: int, v: int, h: int, a: int)
    requires v > 0 && 0 <= a <= h && a * v <= t
    ensures a <= Take(t, v, h)
  {
    if a > 0 {
      MulMono(1, a, v);
      var q, r := t / v, t % v;
      assert t == q * v + r;
      if a > q {
        MulMono(q + 1, a, v);
        DistributeRight(q, 1, v);
      }
    }
  }

  /** Greedy payment of t from the held coins, largest value first. */
  function Pick(d: seq<int>, held: Counts, n: nat, t: int): (r: Counts)
    requires Chain(d) && n <= |d| && n <= |held|
    ensures |r| == n
  {
    if n == 0 then [] else
      ChainPositive(d, n - 1);
      var k := Take(t, d[n - 1], held[n - 1]);
      Pick(d, held, n - 1, t - k * d[n - 1]) + [k]
  }

  /** The value of a vector only depends on the entries counted. */
  lemma {:induction false} Agree(d: seq<int>, x: Counts, y: Counts, n: nat)
    requires n <= |d| && n <= |x| && n <= |y| && forall i :: 0 <= i < n ==> x[i] == y[i]
    ensures Value(d, x, n) == Value(d, y, n) && Number(x, n) == Number(y, n)
  {
    if n > 0 { Agree(d, x, y, n - 1); }
  }

  /** The last entry of a greedy payment, and what remains for the others. */
  lemma PickSplit(d: seq<int>, held: Counts, n: nat, t: int)
    requires Chain(d) && 0 < n <= |d| && n <= |held|
    ensures d[n - 1] > 0
    ensures var v := d[n - 1];
            var k := Take(t, v, held[n - 1]);
            var p := Pick(d, held, n, t);
            var q := Pick(d, held, n - 1, t - k * v);
            p == q + [k] && Value(d, p, n) == Value(d, q, n - 1) + k * v && Number(p, n) == Number(q, n - 1) + k
  {
    ChainPositive(d, n - 1);
    var k := Take(t, d[n - 1], held[n - 1]);
    Agree(d, Pick(d, held, n, t), Pick(d, held, n - 1, t - k * d[n - 1]), n - 1);
  }

  /** A payment takes only held coins, and no more than the amount. */
  lemma {:induction false} PickWithin(d: seq<int>, held: Counts, n: nat, t: int)
    requires Chain(d) && n <= |d| && n <= |held| && NonNeg(held)
    ensures Within(Pick(d, held, n, t), held, n)
    ensures 0 <= Value(d, Pick(d, held, n, t), n) <= if t < 0 then 0 else t
  {
    if n > 0 {
      PickSplit(d, held, n, t);
      TakeFacts(t, d[n - 1], held[n - 1]);
      var k := Take(t, d[n - 1], held[n - 1]);
      PickWithin(d, held, n - 1, t - k * d[n - 1]);
      MulMono(0, k, d[n - 1]);
    }
  }

  lemma {:induction false} ValueNonNeg(d: seq<int>, x: Counts, n: nat)
    requires Chain(d) && n <= |d| && n <= |x| && forall i :: 0 <= i < n ==> x[i] >= 0
    ensures Value(d, x, n) >= 0 && Number(x, n) >= 0
  {
    if n > 0 {
      ValueNonNeg(d, x, n - 1);
      ChainPositive(d, n - 1);
      MulMono(0, x[n - 1], d[n - 1]);
    }
  }

  // ----- the exchange argument -----

  lemma DividesSum(t: int, v: int, w: int, k: int)
    requires w > 0 && v > 0 && t % v == 0 && v % w == 0
    ensures (t - k * v) % w == 0
  {
    var a, b := t / v, v / w;
    assert t == a * v && v == b * w;
    DivideProduct(t, v, w, k, a, b);
    ModOfMultiple((a - k) * b, w);
  }

  lemma DivideProduct(t: int, v: int, w: int, k: int, a: int, b: int)
    requires t == a * v && v == b * w
    ensures t - k * v == (a - k) * b * w
  {
    DistributeRight(a - k, k, v);
    MulAssoc(a - k, b, w);
  }

  /** Towards a multiple of v either everything is paid or every coin is taken. */
  lemma TakeOfMultiple(t: int, v: int, h: int, k: int)
    requires v > 0 && h >= 0 && t >= 0 && t % v == 0 && k == Take(t, v, h)
    ensures 0 <= t - k * v && (t - k * v == 0 || k == h)
  {
    TakeFacts(t, v, h);
    if k < h {
      ModAddMultiple(t, -k, v);
      assert -k * v == -(k * v);
      SmallMultiple(t - k * v, v);
    }
  }

  /** Coins worth at least t, a multiple of the largest of their values, contain a payment of exactly t. */
  lemma {:induction false} PayExactly(d: seq<int>, x: Counts, n: nat, t: int)
    requires Chain(d) && n <= |d| && n <= |x| && NonNeg(x)
    requires 0 <= t <= Value(d, x, n) && (n > 0 ==> d[n - 1] > 0 && t % d[n - 1] == 0)
    ensures Value(d, Pick(d, x, n, t), n) == t
  {
    if n > 0 {
      var v := d[n - 1];
      PickSplit(d, x, n, t);
      var k := Take(t, v, x[n - 1]);
      TakeOfMultiple(t, v, x[n - 1], k);
      var rest := t - k * v;
      LowerDivides(d, n, t, k);
      ValueNonNeg(d, x, n - 1);
      PayExactly(d, x, n - 1, rest);
    }
  }

  lemma LowerDivides(d: seq<int>, n: nat, t: int, k: int)
    requires Chain(d) && 0 < n <= |d| && d[n - 1] > 0 && t % d[n - 1] == 0
    ensures n > 1 ==> d[n - 2] > 0 && (t - k * d[n - 1]) % d[n - 2] == 0
  {
    if n > 1 {
      var j := n - 2;
      assert Step(d, j);
      DividesSum(t, d[n - 1], d[j], k);
    }
  }

  lemma SmallMultiple(x: int, v: int)
    requires v > 0 && 0 <= x < v && x % v == 0
    ensures x == 0
  {
    DivModUnique(x, v, 0, x);
  }

  /** No coin is worth more than v: an amount of k * v takes at least k coins. */
  lemma {:induction false} AtLeast(d: seq<int>, y: Counts, n: nat, v: int)
    requires Chain(d) && n <= |d| && n <= |y| && (forall i :: 0 <= i < n ==> y[i] >= 0 && d[i] <= v)
    ensures Value(d, y, n) <= Number(y, n) * v
  {
    if n > 0 {
      AtLeast(d, y, n - 1, v);
      MulOrder(y[n - 1], d[n - 1], v);
      DistributeRight(Number(y, n - 1), y[n - 1], v);
    }
  }

  lemma MulOrder(a: int, b: int, c: int)
    requires a >= 0 && b <= c
    ensures a * b <= a * c
  {
    MulMono(b, c, a);
  }

  lemma CancelFactor(a: int, b: int, v: int)
    requires v > 0 && a * v <= b * v
    ensures a <= b
  {
    if a > b { MulMono(b + 1, a, v); DistributeRight(b, 1, v); }
  }

  lemma MinusRight(a: int, b: int, c: int)
    ensures (a - b) * c == a * c - b * c
  {
  }

  function Minus(x: Counts, y: Counts): (r: Counts)
    requires |y| <= |x|
    ensures |r| == |y|
  {
    seq(|y|, i requires 0 <= i < |y| => x[i] - y[i])
  }

  lemma {:induction false} MinusValue(d: seq<int>, x: Counts, y: Counts, n: nat)
    requires n <= |y| <= |x| && n <= |d|
    ensures Value(d, Minus(x, y), n) == Value(d, x, n) - Value(d, y, n)
    ensures Number(Minus(x, y), n) == Number(x, n) - Number(y, n)
  {
    if n > 0 {
      MinusValue(d, x, y, n - 1);
      var a, b, v := x[n - 1], y[n - 1], d[n - 1];
      assert Minus(x, y)[n - 1] == a - b;
      MinusRight(a, b, v);
    }
  }

  /** Whatever else pays at most t pays no more than the greedy choice, and if it pays as much
      it takes at least as many coins. */
  lemma {:induction false} GreedyBest(d: seq<int>, held: Counts, n: nat, t: int, x: Counts)
    requires Chain(d) && n <= |d| && n <= |held| && NonNeg(held)
    requires Within(x, held, n) && Value(d, x, n) <= t
    ensures Value(d, x, n) <= Value(d, Pick(d, held, n, t), n)
    ensures Value(d, x, n) == Value(d, Pick(d, held, n, t), n) ==> Number(Pick(d, held, n, t), n) <= Number(x, n)
  {
    if n > 0 {
      var v, a := d[n - 1], x[n - 1];
      ChainPositive(d, n - 1);
      var u := Take(t, v, held[n - 1]);
      PickSplit(d, held, n, t);
      assert a <= u by {
        ValueNonNeg(d, x, n - 1);
        TakeMost(t, v, held[n - 1], a);
      }
      var rest := t - u * v;
      if CanExchange(d, x, n, u) {
        var z := Exchange(d, held, n, x, u);
        GreedyBest(d, held, n - 1, rest, z);
      } else {
        WorthLess(d, x, n, u);
        PickWithin(d, held, n - 1, rest);
      }
    }
  }

  /** The smaller coins of x are worth as many of the largest value as x lacks towards u. */
  predicate CanExchange(d: seq<int>, x: Counts, n: nat, u: int)
    requires 0 < n <= |d| && n <= |x|
  {
    (u - x[n - 1]) * d[n - 1] <= Value(d, x, n - 1)
  }

  lemma WorthLess(d: seq<int>, x: Counts, n: nat, u: int)
    requires 0 < n <= |d| && n <= |x| && !CanExchange(d, x, n, u)
    ensures Value(d, x, n) < u * d[n - 1]
  {
    DistributeRight(u - x[n - 1], x[n - 1], d[n - 1]);
  }

  /** Smaller coins worth k of the largest value are replaced by k coins of it: same value, no more coins. */
  lemma Exchange(d: seq<int>, held: Counts, n: nat, x: Counts, u: int) returns (z: Counts)
    requires Chain(d) && 0 < n <= |d| && n <= |held| && Within(x, held, n)
    requires x[n - 1] <= u && CanExchange(d, x, n, u)
    ensures Within(z, held, n - 1)
    ensures Value(d, z, n - 1) + u * d[n - 1] == Value(d, x, n)
    ensures Number(z, n - 1) + u <= Number(x, n)
  {
    var v, k := d[n - 1], u - x[n - 1];
    ChainPositive(d, n - 1);
    MulMono(0, k, v);
    var low := x[..n - 1];
    Agree(d, x, low, n - 1);
    if n > 1 {
      ModOfMultiple(k, v);
      LowerDivides(d, n, k * v, 0);
    }
    PayExactly(d, low, n - 1, k * v);
    PickWithin(d, low, n - 1, k * v);
    var y := Pick(d, low, n - 1, k * v);
    assert k <= Number(y, n - 1) by {
      forall i | 0 <= i < n - 1 ensures y[i] >= 0 && d[i] <= v { ChainIncreasing(d, i, n - 1); }
      AtLeast(d, y, n - 1, v);
      CancelFactor(k, Number(y, n - 1), v);
    }
    z := Minus(low, y);
    MinusValue(d, low, y, n - 1);
    DistributeRight(k, x[n - 1], v);
    assert Within(z, held, n - 1) by {
      forall i | 0 <= i < n - 1 ensures 0 <= z[i] <= held[i] { assert 0 <= y[i] <= low[i] && 0 <= x[i] <= held[i]; }
    }
  }

  /** An amount is paid exactly whenever any choice of the held coins pays it, and then with
      the fewest coins. */
  lemma GreedyComplete(d: seq<int>, held: Counts, t: int, x: Counts)
    requires Chain(d) && |held| == |d| && NonNeg(held) && Within(x, held, |d|) && Value(d, x, |d|) == t
    ensures Value(d, Pick(d, held, |d|, t), |d|) == t
    ensures Number(Pick(d, held, |d|, t), |d|) <= Number(x, |d|)
  {
    ValueNonNeg(d, x, |d|);
    GreedyBest(d, held, |d|, t, x);
    PickWithin(d, held, |d|, t);
  }

  // ----- change, from an unlimited supply -----

  /** Coins of one value in t. */
  function Share(t: int, v: int): int
    requires v > 0
  {
    if t < v then 0 else t / v
  }

  function Change(d: seq<int>, n: nat, t: int): (r: Counts)
    requires Chain(d) && n <= |d|
    ensures |r| == n
  {
    if n == 0 then [] else
      ChainPositive(d, n - 1);
      var k := Share(t, d[n - 1]);
      Change(d, n - 1, t - k * d[n - 1]) + [k]
  }

  /** Holding h of everything, with h at least t, is as good as an unlimited supply. */
  lemma {:induction false} ChangeIsPick(d: seq<int>, n: nat, t: int, held: Counts)
    requires Chain(d) && n <= |d| && n <= |held| && (forall i :: 0 <= i < n ==> held[i] >= 0 && held[i] >= t)
    ensures Change(d, n, t) == Pick(d, held, n, t)
  {
    if n > 0 {
      var v := d[n - 1];
      ChainPositive(d, n - 1);
      var k := Share(t, v);
      AllOf(t, v, k);
      assert k == Take(t, v, held[n - 1]);
      ChangeIsPick(d, n - 1, t - k * v, held);
    }
  }

  lemma AllOf(t: int, v: int, k: int)
    requires v > 0 && k == Share(t, v)
    ensures 0 <= k && t - k * v <= t && t - k * v < v && (t >= 0 ==> k <= t && 0 <= t - k * v) && (t >= v ==> k > 0)
  {
    if t >= v {
      assert t == k * v + t % v;
      if k <= 0 { MulMono(k, 0, v); }
      MulOrder(k, 1, v);
      MulMono(0, k, v);
    }
  }

  /** Change leaves less than the smallest value, and takes the fewest coins for what it pays. */
  lemma ChangeBest(d: seq<int>, t: int, x: Counts)
    requires Chain(d) && t >= 0 && |x| == |d| && NonNeg(x) && Value(d, x, |d|) <= t
    ensures var c := Change(d, |d|, t);
            NonNeg(c) && Value(d, x, |d|) <= Value(d, c, |d|) <= t &&
            (Value(d, x, |d|) == Value(d, c, |d|) ==> Number(c, |d|) <= Number(x, |d|))
  {
    var n := |d|;
    var held: Counts := seq(n, i requires 0 <= i < n => if x[i] > t then x[i] else t);
    ChangeIsPick(d, n, t, held);
    PickWithin(d, held, n, t);
    GreedyBest(d, held, n, t, x);
  }

  lemma ChangeSplit(d: seq<int>, n: nat, t: int, k: int)
    requires Chain(d) && 0 < n <= |d| && d[n - 1] > 0 && k == Share(t, d[n - 1])
    ensures var c, low := Change(d, n, t), Change(d, n - 1, t - k * d[n - 1]);
            c == low + [k] && Value(d, c, n) == Value(d, low, n - 1) + k * d[n - 1] &&
            Number(c, n) == Number(low, n - 1) + k
  {
    Agree(d, Change(d, n, t), Change(d, n - 1, t - k * d[n - 1]), n - 1);
  }

  lemma ChangeStep(d: seq<int>, n: nat, t: int, k: int, rest: int)
    requires Chain(d) && 0 < n <= |d| && d[n - 1] > 0 && k == Share(t, d[n - 1]) && rest == t - k * d[n - 1]
    ensures Change(d, n, t) == Change(d, n - 1, rest) + [k]
  {
  }

  /** What change leaves over is below the smallest value. */
  lemma {:induction false} ChangeRest(d: seq<int>, n: nat, t: int)
    requires Chain(d) && 0 < n <= |d| && t >= 0
    ensures 0 <= t - Value(d, Change(d, n, t), n) < d[0] && NonNeg(Change(d, n, t))
  {
    var v := d[n - 1];
    ChainPositive(d, n - 1);
    var k := Share(t, v);
    AllOf(t, v, k);
    ChangeSplit(d, n, t, k);
    if n > 1 { ChangeRest(d, n - 1, t - k * v); }
  }

  /** No change for an amount below the smallest value, in particular for a negative one. */
  lemma {:induction false} ChangeNone(d: seq<int>, n: nat, t: int)
    requires Chain(d) && n <= |d|
    ensures t < d[0] ==> Number(Change(d, n, t), n) == 0
    ensures t >= d[0] && n > 0 ==> Number(Change(d, n, t), n) > 0
    ensures NonNeg(Change(d, n, t)) && Number(Change(d, n, t), n) >= 0
  {
    if n > 0 {
      var v := d[n - 1];
      ChainPositive(d, n - 1);
      if n > 1 { ChainIncreasing(d, 0, n - 1); }
      var k := Share(t, v);
      AllOf(t, v, k);
      ChangeNone(d, n - 1, t - k * v);
      ChangeSplit(d, n, t, k);
    }
  }

  // ----- multiples of the smallest value -----

  lemma {:induction false} SmallestDivides(d: seq<int>, i: nat)
    requires Chain(d) && i < |d|
    ensures d[0] > 0 && d[i] % d[0] == 0
  {
    if i > 0 {
      SmallestDivides(d, i - 1);
      assert Step(d, i - 1);
      DividesSum(0, d[i - 1], d[0], 0);
      MultipleOfMultiple(d[i], d[i - 1], d[0]);
    }
  }

  lemma MultipleOfMultiple(a: int, b: int, c: int)
    requires b > 0 && c > 0 && a % b == 0 && b % c == 0
    ensures a % c == 0
  {
    var p, q := a / b, b / c;
    assert a == p * b && b == q * c;
    MulAssoc(p, q, c);
    ModOfMultiple(p * q, c);
  }

  /** Whatever coins pay is a multiple of the smallest value. */
  lemma {:induction false} ValueMultiple(d: seq<int>, x: Counts, n: nat)
    requires Chain(d) && n <= |d| && n <= |x|
    ensures Value(d, x, n) % d[0] == 0
  {
    if n > 0 {
      ValueMultiple(d, x, n - 1);
      SmallestDivides(d, n - 1);
      SumMultiple(Value(d, x, n - 1), x[n - 1], d[n - 1], d[0]);
    } else {
      SmallestDivides(d, 0);
      ModOfMultiple(0, d[0]);
    }
  }

  lemma SumMultiple(a: int, k: int, v: int, c: int)
    requires c > 0 && a % c == 0 && v % c == 0
    ensures (a + k * v) % c == 0
  {
    var p, q := a / c, v / c;
    assert a == p * c && v == q * c;
    MulAssoc(k, q, c);
    DistributeRight(p, k * q, c);
    ModOfMultiple(p + k * q, c);
  }

  /** Multiples that differ differ by at least the modulus. */
  lemma MultiplesApart(a: int, b: int, c: int)
    requires c > 0 && a % c == 0 && b % c == 0 && a < b
    ensures b - a >= c
  {
    var p, q := a / c, b / c;
    assert a == p * c && b == q * c;
    if q <= p { MulMono(q, p, c); }
    MulMono(p + 1, q, c);
    DistributeRight(p, 1, c);
  }

  lemma {:induction false} ValueMono(d: seq<int>, x: Counts, y: Counts, n: nat)
    requires Chain(d) && n <= |d| && Within(x, y, n)
    ensures Value(d, x, n) <= Value(d, y, n)
  {
    if n > 0 {
      ValueMono(d, x, y, n - 1);
      ChainPositive(d, n - 1);
      MulMono(x[n - 1], y[n - 1], d[n - 1]);
    }
  }
}
