/** Choosing zerocoin mints for a spend: exact payment, change minimisation and the final list. */
module MintSelection {
  import opened Folding
  import opened Powers
  import opened CoinChains

  const COIN: int := 100_000_000

  /** The zerocoin denominations as amounts. */
  const DENOMINATIONS: seq<int> :=
    [COIN, 5 * COIN, 10 * COIN, 50 * COIN, 100 * COIN, 500 * COIN, 1000 * COIN, 5000 * COIN]

  lemma DenominationsChain()
    ensures Chain(DENOMINATIONS)
  {
  }

  /** An account is a count of coins for every denomination. */
  ghost predicate Account(d: seq<int>, x: Counts) {
    Chain(d) && |x| == |d| && NonNeg(x)
  }

  function Zeros(n: nat): (r: Counts)
    ensures |r| == n
  {
    seq(n, _ => 0)
  }

  // ----- taking coins one at a time -----

  lemma TakeMore(t: int, v: int, h: int)
    requires v > 0 && h >= 0 && t - Take(t, v, h) * v >= v
    ensures Take(t, v, h) == h && Take(t, v, h + 1) == h + 1
  {
    TakeFacts(t, v, h);
    DistributeRight(h, 1, v);
    TakeMost(t, v, h + 1, h + 1);
    TakeFacts(t, v, h + 1);
  }

  lemma TakeEnough(t: int, v: int, h: int, g: int)
    requires v > 0 && 0 <= h <= g && t - Take(t, v, h) * v < v
    ensures Take(t, v, g) == Take(t, v, h)
  {
    var k, l := Take(t, v, h), Take(t, v, g);
    TakeFacts(t, v, h);
    TakeFacts(t, v, g);
    if t >= 0 {
      TakeMost(t, v, g, k);
      if k < l {
        MulMono(k + 1, l, v);
        DistributeRight(k, 1, v);
      }
    }
  }

  lemma TakeNone(t: int, v: int)
    requires v > 0
    ensures Take(t, v, 0) == 0
  {
  }

  /** The loop that takes coins of one value while the remaining amount allows and some are held. */
  method TakeCoins(v: int, h: int, t: int) returns (k: int, rest: int)
    requires v > 0 && h >= 0
    ensures k == Take(t, v, h) && rest == t - k * v
  {
    k, rest := 0, t;
    while rest >= v && k < h
      invariant 0 <= k <= h && k == Take(t, v, k) && rest == t - k * v
      decreases h - k
    {
      TakeMore(t, v, k);
      DistributeRight(k, 1, v);
      k := k + 1;
      rest := rest - v;
    }
    if k < h {
      TakeEnough(t, v, k, h);
    }
  }

  /** `getNumberOfCoinsUsed`. */
  method CountCoins(x: Counts) returns (n: int)
    ensures n == Number(x, |x|)
  {
    n := 0;
    for i := 0 to |x|
      invariant n == Number(x, i)
    {
      n := n + x[i];
    }
  }

  /** `getSpendCoins`. */
  method GetSpendCoins(d: seq<int>, target: int, held: Counts) returns (used: Counts)
    requires Account(d, held)
    ensures used == Pick(d, held, |d|, target)
  {
    used := Zeros(|d|);
    var rest := target;
    var i := |d|;
    while i > 0
      invariant 0 <= i <= |d| == |used| && Pick(d, held, |d|, target) == Pick(d, held, i, rest) + used[i..]
    {
      i := i - 1;
      var k;
      k, rest := TakeHeld(d, held, i, rest);
      ghost var tail := used[i + 1..];
      used := used[i := k];
      assert used[i..] == [k] + tail;
    }
  }

  method TakeHeld(d: seq<int>, held: Counts, i: nat, t: int) returns (k: int, rest: int)
    requires Account(d, held) && i < |d|
    ensures Pick(d, held, i + 1, t) == Pick(d, held, i, rest) + [k]
  {
    ChainPositive(d, i);
    k, rest := TakeCoins(d[i], held[i], t);
    PickSplit(d, held, i + 1, t);
  }

  /** `getChange`. */
  method GetChange(d: seq<int>, target: int) returns (change: Counts)
    requires Chain(d)
    ensures change == Change(d, |d|, target)
  {
    change := Zeros(|d|);
    var rest := target;
    var i := |d|;
    while i > 0
      invariant 0 <= i <= |d| == |change| && Change(d, |d|, target) == Change(d, i, rest) + change[i..]
    {
      i := i - 1;
      var k;
      k, rest := TakeShare(d, i, rest);
      ghost var tail := change[i + 1..];
      change := change[i := k];
      assert change[i..] == [k] + tail;
    }
  }

  method TakeShare(d: seq<int>, i: nat, t: int) returns (k: int, rest: int)
    requires Chain(d) && i < |d|
    ensures Change(d, i + 1, t) == Change(d, i, rest) + [k]
  {
    ChainPositive(d, i);
    k, rest := TakeAll(d[i], t);
    ChangeStep(d, i + 1, t, k, rest);
  }

  method TakeAll(v: int, t: int) returns (k: int, rest: int)
    requires v > 0
    ensures k == Share(t, v) && rest == t - k * v
  {
    k, rest := 0, t;
    while rest >= v
      invariant k >= 0 && rest == t - k * v && (rest >= 0 || k == 0)
      decreases rest
    {
      DistributeRight(k, 1, v);
      k := k + 1;
      rest := rest - v;
    }
    if t >= v {
      assert k > 0;
      DivModUnique(t, v, k, rest);
    }
  }

  // ----- mints -----

  /** A mint; its denomination is an index into the list, or -1 for none of them. */
  datatype Mint = Mint(id: nat, denom: int, isUsed: bool)

  /** Unused mints of denomination i among the first k. */
  function Unused(mints: seq<Mint>, k: nat, i: int): nat
    requires k <= |mints|
  {
    if k == 0 then 0 else
      Unused(mints, k - 1, i) + if !mints[k - 1].isUsed && mints[k - 1].denom == i then 1 else 0
  }

  /** Unused mints per denomination. */
  function Available(n: nat, mints: seq<Mint>): (r: Counts)
    ensures |r| == n && NonNeg(r)
  {
    seq(n, i requires 0 <= i < n => Unused(mints, |mints|, i))
  }

  lemma {:induction false} UnusedGrows(mints: seq<Mint>, k: nat, l: nat, i: int)
    requires k <= l <= |mints|
    ensures Unused(mints, k, i) <= Unused(mints, l, i)
  {
    if k < l { UnusedGrows(mints, k, l - 1, i); }
  }

  /** The inner loop of `getIdealSpends`: mints of one denomination are taken until less than its value remains. */
  method TakeMints(v: int, mints: seq<Mint>, coin: int, t: int) returns (k: int, rest: int)
    requires v > 0
    ensures k == Take(t, v, Unused(mints, |mints|, coin)) && rest == t - k * v
  {
    k, rest := 0, t;
    TakeNone(t, v);
    var p := 0;
    while p < |mints|
      invariant 0 <= p <= |mints| && k == Take(t, v, Unused(mints, p, coin)) && rest == t - k * v
    {
      var mint := mints[p];
      ghost var h := Unused(mints, p, coin);
      p := p + 1;
      if mint.isUsed {
        continue;
      }
      if rest >= v && coin == mint.denom {
        TakeMore(t, v, h);
        DistributeRight(k, 1, v);
        k := k + 1;
        rest := rest - v;
        assert k == Take(t, v, h + 1);
      } else if coin == mint.denom {
        TakeEnough(t, v, h, h + 1);
      }
      if rest < v {
        UnusedGrows(mints, p, |mints|, coin);
        TakeEnough(t, v, Unused(mints, p, coin), Unused(mints, |mints|, coin));
        break;
      }
    }
  }

  /** `getIdealSpends`. */
  method GetIdealSpends(d: seq<int>, target: int, mints: seq<Mint>) returns (exact: bool, used: Counts)
    requires Chain(d)
    ensures used == Pick(d, Available(|d|, mints), |d|, target)
    ensures exact <==> Value(d, used, |d|) == target
  {
    ghost var held := Available(|d|, mints);
    used := Zeros(|d|);
    var rest := target;
    var i := |d|;
    while i > 0
      invariant 0 <= i <= |d| && PickedFrom(d, held, target, i, rest, used)
    {
      i := i - 1;
      var k, left := TakeUnused(d, mints, i, rest, held);
      PickedMore(d, held, target, i, rest, used, k, left);
      used, rest := used[i := k], left;
    }
    exact := rest == 0;
  }

  /** The greedy choice with the denominations from i on decided. */
  ghost predicate PickedFrom(d: seq<int>, held: Counts, target: int, i: nat, rest: int, used: Counts)
    requires Chain(d) && |held| == |d| && i <= |d|
  {
    var whole := Pick(d, held, |d|, target);
    |used| == |d| && whole == Pick(d, held, i, rest) + used[i..] &&
    Value(d, whole, |d|) == Value(d, Pick(d, held, i, rest), i) + target - rest
  }

  lemma PickedMore(d: seq<int>, held: Counts, target: int, i: nat, rest: int, used: Counts, k: int, left: int)
    requires Chain(d) && |held| == |d| && i < |d| && PickedFrom(d, held, target, i + 1, rest, used)
    requires Pick(d, held, i + 1, rest) == Pick(d, held, i, left) + [k]
    requires Value(d, Pick(d, held, i + 1, rest), i + 1) == Value(d, Pick(d, held, i, left), i) + rest - left
    ensures PickedFrom(d, held, target, i, left, used[i := k])
  {
    assert used[i := k][i..] == [k] + used[i + 1..];
  }

  method TakeUnused(d: seq<int>, mints: seq<Mint>, i: nat, t: int, ghost held: Counts) returns (k: int, rest: int)
    requires Chain(d) && i < |d| && held == Available(|d|, mints)
    ensures Pick(d, held, i + 1, t) == Pick(d, held, i, rest) + [k]
    ensures Value(d, Pick(d, held, i + 1, t), i + 1) == Value(d, Pick(d, held, i, rest), i) + t - rest
  {
    ChainPositive(d, i);
    k, rest := TakeMints(d[i], mints, i, t);
    PickSplit(d, held, i + 1, t);
  }

  // ----- selections of mints -----

  /** A choice of unused mints, one flag for each. */
  ghost predicate Selection(n: nat, mints: seq<Mint>, sel: seq<bool>) {
    |sel| == |mints| && forall p :: 0 <= p < |sel| && sel[p] ==> !mints[p].isUsed && 0 <= mints[p].denom < n
  }

  /** Selected mints of denomination i among the first k. */
  function Tally(mints: seq<Mint>, sel: seq<bool>, k: nat, i: int): nat
    requires k <= |mints| && k <= |sel|
  {
    if k == 0 then 0 else Tally(mints, sel, k - 1, i) + if sel[k - 1] && mints[k - 1].denom == i then 1 else 0
  }

  function Tallies(n: nat, mints: seq<Mint>, sel: seq<bool>, k: nat): (r: Counts)
    requires k <= |mints| && k <= |sel|
    ensures |r| == n
  {
    seq(n, i requires 0 <= i < n => Tally(mints, sel, k, i))
  }

  /** Value and number of the selected mints among the first k. */
  ghost function Total(d: seq<int>, mints: seq<Mint>, sel: seq<bool>, k: nat): int
    requires Selection(|d|, mints, sel) && k <= |mints|
  {
    if k == 0 then 0 else Total(d, mints, sel, k - 1) + if sel[k - 1] then d[mints[k - 1].denom] else 0
  }

  function Chosen(sel: seq<bool>, k: nat): int
    requires k <= |sel|
  {
    if k == 0 then 0 else Chosen(sel, k - 1) + if sel[k - 1] then 1 else 0
  }

  /** One more coin of denomination j. */
  lemma {:induction false} Bump(d: seq<int>, x: Counts, j: nat, n: nat)
    requires n <= |d| && n <= |x| && j < |x|
    ensures Value(d, x[j := x[j] + 1], n) == Value(d, x, n) + if j < n then d[j] else 0
    ensures Number(x[j := x[j] + 1], n) == Number(x, n) + if j < n then 1 else 0
  {
    if n > 0 {
      Bump(d, x, j, n - 1);
      if j == n - 1 { DistributeRight(x[j], 1, d[j]); }
    }
  }

  lemma {:induction false} ZeroValue(d: seq<int>, x: Counts, n: nat)
    requires n <= |d| && n <= |x| && forall i :: 0 <= i < n ==> x[i] == 0
    ensures Value(d, x, n) == 0 && Number(x, n) == 0
  {
    if n > 0 { ZeroValue(d, x, n - 1); }
  }

  lemma {:induction false} TalliesValue(d: seq<int>, mints: seq<Mint>, sel: seq<bool>, k: nat)
    requires Selection(|d|, mints, sel) && k <= |mints|
    ensures Value(d, Tallies(|d|, mints, sel, k), |d|) == Total(d, mints, sel, k)
    ensures Number(Tallies(|d|, mints, sel, k), |d|) == Chosen(sel, k)
  {
    var x := Tallies(|d|, mints, sel, k);
    if k == 0 {
      ZeroValue(d, x, |d|);
    } else {
      TalliesValue(d, mints, sel, k - 1);
      var y := Tallies(|d|, mints, sel, k - 1);
      if sel[k - 1] {
        var j := mints[k - 1].denom;
        Bump(d, y, j, |d|);
        assert x == y[j := y[j] + 1];
      } else {
        assert x == y;
      }
    }
  }

  lemma {:induction false} TallyUnused(n: nat, mints: seq<Mint>, sel: seq<bool>, k: nat, i: int)
    requires Selection(n, mints, sel) && k <= |mints|
    ensures Tally(mints, sel, k, i) <= Unused(mints, k, i)
  {
    if k > 0 { TallyUnused(n, mints, sel, k - 1, i); }
  }

  function Min(a: int, b: int): int { if a < b then a else b }

  /** Any counts within those available are the counts of some selection. */
  lemma {:induction false} SelectionFor(n: nat, mints: seq<Mint>, x: Counts, k: nat) returns (sel: seq<bool>)
    requires |x| == n && NonNeg(x) && k <= |mints|
    ensures |sel| == k && forall p :: 0 <= p < k && sel[p] ==> !mints[p].isUsed && 0 <= mints[p].denom < n
    ensures forall i :: 0 <= i < n ==> Tally(mints, sel, k, i) == Min(x[i], Unused(mints, k, i))
  {
    if k == 0 {
      sel := [];
    } else {
      var s := SelectionFor(n, mints, x, k - 1);
      var m := mints[k - 1];
      var take := !m.isUsed && 0 <= m.denom < n && Tally(mints, s, k - 1, m.denom) < x[m.denom];
      sel := s + [take];
      forall i | 0 <= i < n ensures Tally(mints, sel, k, i) == Min(x[i], Unused(mints, k, i)) {
        TallyPrefix(mints, s, sel, k - 1, i);
      }
    }
  }

  lemma {:induction false} TallyPrefix(mints: seq<Mint>, s: seq<bool>, sel: seq<bool>, k: nat, i: int)
    requires k <= |mints| && k <= |s| && s <= sel
    ensures Tally(mints, sel, k, i) == Tally(mints, s, k, i)
  {
    if k > 0 { TallyPrefix(mints, s, sel, k - 1, i); }
  }

  /** Exact payment is found exactly when some selection of unused mints is worth the target. */
  lemma IdealIff(d: seq<int>, mints: seq<Mint>, target: int)
    requires Chain(d)
    ensures Value(d, Pick(d, Available(|d|, mints), |d|, target), |d|) == target
            <==> exists sel :: Selection(|d|, mints, sel) && Total(d, mints, sel, |mints|) == target
  {
    var held := Available(|d|, mints);
    var x := Pick(d, held, |d|, target);
    PickWithin(d, held, |d|, target);
    if Value(d, x, |d|) == target {
      var sel := SelectionFor(|d|, mints, x, |mints|);
      TalliesValue(d, mints, sel, |mints|);
      assert Tallies(|d|, mints, sel, |mints|) == x;
      assert Selection(|d|, mints, sel) && Total(d, mints, sel, |mints|) == target;
    }
    forall sel | Selection(|d|, mints, sel) && Total(d, mints, sel, |mints|) == target
      ensures Value(d, x, |d|) == target
    {
      IdealFewest(d, mints, target, sel);
    }
  }

  /** No selection worth the target has fewer mints. */
  lemma IdealFewest(d: seq<int>, mints: seq<Mint>, target: int, sel: seq<bool>)
    requires Chain(d) && Selection(|d|, mints, sel) && Total(d, mints, sel, |mints|) == target
    ensures var x := Pick(d, Available(|d|, mints), |d|, target);
            Value(d, x, |d|) == target && Number(x, |d|) <= Chosen(sel, |mints|)
  {
    var y := Tallies(|d|, mints, sel, |mints|);
    TalliesValue(d, mints, sel, |mints|);
    forall i | 0 <= i < |d| ensures 0 <= y[i] <= Available(|d|, mints)[i] {
      TallyUnused(|d|, mints, sel, |mints|, i);
    }
    GreedyComplete(d, Available(|d|, mints), target, y);
  }

  /** Some selection of unused mints is worth the target, within a limit on their number unless it is negative. */
  ghost predicate Payable(d: seq<int>, mints: seq<Mint>, target: int, limit: int) {
    exists sel :: Selection(|d|, mints, sel) && Total(d, mints, sel, |mints|) == target &&
                  (limit < 0 || Chosen(sel, |mints|) <= limit)
  }

  /** The greedy choice decides that. */
  lemma PayableIff(d: seq<int>, mints: seq<Mint>, target: int, limit: int)
    requires Chain(d)
    ensures var x := Pick(d, Available(|d|, mints), |d|, target);
            Payable(d, mints, target, limit) <==>
            Value(d, x, |d|) == target && (limit < 0 || Number(x, |d|) <= limit)
  {
    var held := Available(|d|, mints);
    var x := Pick(d, held, |d|, target);
    PickWithin(d, held, |d|, target);
    if Value(d, x, |d|) == target {
      var sel := SelectionFor(|d|, mints, x, |mints|);
      TalliesValue(d, mints, sel, |mints|);
      assert Tallies(|d|, mints, sel, |mints|) == x;
      assert Selection(|d|, mints, sel) && Total(d, mints, sel, |mints|) == target;
    }
    forall sel | Selection(|d|, mints, sel) && Total(d, mints, sel, |mints|) == target
      ensures Value(d, x, |d|) == target && Number(x, |d|) <= Chosen(sel, |mints|)
    {
      IdealFewest(d, mints, target, sel);
    }
  }

  // ----- listing the mints -----

  /** r lists the mints at the given positions: unused ones, none twice. */
  ghost predicate Lists(mints: seq<Mint>, picks: seq<nat>, r: seq<Mint>) {
    |picks| == |r| &&
    (forall k :: 0 <= k < |r| ==> picks[k] < |mints| && r[k] == mints[picks[k]] && !r[k].isUsed) &&
    (forall k, l :: 0 <= k < l < |r| ==> picks[k] != picks[l])
  }

  function WorthOf(d: seq<int>, r: seq<Mint>): int {
    if r == [] then 0 else
      WorthOf(d, r[..|r| - 1]) + if 0 <= r[|r| - 1].denom < |d| then d[r[|r| - 1].denom] else 0
  }

  lemma {:induction false} WorthAppend(d: seq<int>, r: seq<Mint>, q: seq<Mint>)
    ensures WorthOf(d, r + q) == WorthOf(d, r) + WorthOf(d, q)
  {
    if q == [] {
      assert r + q == r;
    } else {
      WorthAppend(d, r, q[..|q| - 1]);
      assert (r + q)[..|r + q| - 1] == r + q[..|q| - 1];
    }
  }

  /** All in r have denomination i. */
  ghost predicate Uniform(r: seq<Mint>, i: int) {
    forall k :: 0 <= k < |r| ==> r[k].denom == i
  }

  lemma {:induction false} UniformWorth(d: seq<int>, r: seq<Mint>, i: int)
    requires Uniform(r, i) && 0 <= i < |d|
    ensures WorthOf(d, r) == |r| * d[i]
  {
    if r != [] {
      UniformWorth(d, r[..|r| - 1], i);
      DistributeRight(|r| - 1, 1, d[i]);
    }
  }

  /** One pass of `getSpends` over the list for one denomination. */
  method PassOver(mints: seq<Mint>, coin: int, wanted: int) returns (r: seq<Mint>, left: int, ghost picks: seq<nat>)
    requires wanted >= 0
    ensures Lists(mints, picks, r) && Uniform(r, coin)
    ensures |r| == Min(wanted, Unused(mints, |mints|, coin)) && left == wanted - |r|
  {
    r, left, picks := [], wanted, [];
    for p := 0 to |mints|
      invariant Lists(mints, picks, r) && Uniform(r, coin) && forall k :: 0 <= k < |picks| ==> picks[k] < p
      invariant |r| == Min(wanted, Unused(mints, p, coin)) && left == wanted - |r|
    {
      var mint := mints[p];
      if mint.isUsed {
        continue;
      }
      if coin == mint.denom && left != 0 {
        r := r + [mint];
        picks := picks + [p];
        left := left - 1;
      }
    }
  }

  /** `getSpends`. With as many unused mints as are wanted, one pass per denomination is enough. */
  method GetSpends(d: seq<int>, mints: seq<Mint>, wanted: Counts)
    returns (r: seq<Mint>, value: int, ghost picks: seq<nat>)
    requires Account(d, wanted) && Within(wanted, Available(|d|, mints), |d|)
    ensures Lists(mints, picks, r) && |r| == Number(wanted, |d|)
    ensures value == WorthOf(d, r) == Value(d, wanted, |d|)
  {
    r, value, picks := [], 0, [];
    var i := |d|;
    while i > 0
      invariant 0 <= i <= |d| && ListedFrom(d, mints, wanted, i, picks, r, value)
    {
      i := i - 1;
      var got, at := SpendsOf(mints, i, wanted[i]);
      ListedMore(d, mints, wanted, i, picks, r, value, at, got);
      r, picks := r + got, picks + at;
      value := value + |got| * d[i];
    }
  }

  /** The mints wanted of the denominations from i on are listed, with their value. */
  ghost predicate ListedFrom(d: seq<int>, mints: seq<Mint>, wanted: Counts, i: nat, picks: seq<nat>, r: seq<Mint>,
                             value: int)
    requires i <= |d| == |wanted|
  {
    Lists(mints, picks, r) && (forall k :: 0 <= k < |r| ==> r[k].denom >= i) &&
    |r| + Number(wanted, i) == Number(wanted, |d|) &&
    value == WorthOf(d, r) && value + Value(d, wanted, i) == Value(d, wanted, |d|)
  }

  lemma ListedMore(d: seq<int>, mints: seq<Mint>, wanted: Counts, i: nat, picks: seq<nat>, r: seq<Mint>, value: int,
                   at: seq<nat>, got: seq<Mint>)
    requires i < |d| == |wanted| && ListedFrom(d, mints, wanted, i + 1, picks, r, value)
    requires Lists(mints, at, got) && Uniform(got, i) && |got| == wanted[i]
    ensures ListedFrom(d, mints, wanted, i, picks + at, r + got, value + |got| * d[i])
  {
    UniformWorth(d, got, i);
    WorthAppend(d, r, got);
    Joined(mints, picks, r, at, got, i);
  }

  /** The passes over the list for one denomination: one is enough. */
  method SpendsOf(mints: seq<Mint>, i: int, wanted: int) returns (got: seq<Mint>, ghost at: seq<nat>)
    requires 0 <= wanted <= Unused(mints, |mints|, i)
    ensures Lists(mints, at, got) && Uniform(got, i) && |got| == wanted
  {
    var left, again := wanted, true;
    got, at := [], [];
    while again
      invariant again ==> left == wanted && got == []
      invariant !again ==> left == 0 && |got| == wanted && Lists(mints, at, got) && Uniform(got, i)
      decreases again
    {
      var more, left', at' := PassOver(mints, i, left);
      got, left, at := got + more, left', at';
      again := left != 0;
    }
  }

  lemma Joined(mints: seq<Mint>, p: seq<nat>, r: seq<Mint>, q: seq<nat>, s: seq<Mint>, i: int)
    requires Lists(mints, p, r) && Lists(mints, q, s) && Uniform(s, i) && forall k :: 0 <= k < |r| ==> r[k].denom > i
    ensures Lists(mints, p + q, r + s)
  {
    forall k, l | 0 <= k < l < |r + s| ensures (p + q)[k] != (p + q)[l] {
      if k < |r| <= l {
        assert r[k] == mints[p[k]] && s[l - |r|] == mints[q[l - |r|]];
      }
    }
  }

  // ----- change minimisation -----

  /** The held coins of the denominations up to `next`. */
  function Masked(held: Counts, next: int): (r: Counts)
    ensures |r| == |held|
  {
    seq(|held|, i requires 0 <= i < |held| => if i <= next then held[i] else 0)
  }

  /** The first stage: what pays most while staying below the target. */
  function Below(d: seq<int>, held: Counts, next: int, target: int): (r: Counts)
    requires Account(d, held)
    ensures |r| == |d|
  {
    Pick(d, Masked(held, next), |d|, target - 1)
  }

  predicate Room(d: seq<int>, held: Counts, used: Counts, rest: int, i: nat)
    requires i < |d| && i < |held| && i < |used|
  {
    d[i] > rest && used[i] < held[i]
  }

  /** The second stage, from denomination i up: coins larger than what remains, until nothing does. */
  function TopUp(d: seq<int>, held: Counts, used: Counts, rest: int, i: nat): (r: Counts)
    requires i <= |d| == |held| == |used|
    ensures |r| == |d|
    decreases |d| - i
  {
    if i == |d| then used
    else if Room(d, held, used, rest, i) then used[i := used[i] + 1]
    else if rest < 0 then used
    else TopUp(d, held, used, rest, i + 1)
  }

  /** The second stage adds at most one coin: the smallest larger than what remains. */
  lemma {:induction false} TopUpOne(d: seq<int>, held: Counts, used: Counts, rest: int, i: nat)
    requires i <= |d| == |held| == |used| && rest >= 0
    ensures TopUp(d, held, used, rest, i) == used ||
            exists j :: i <= j < |d| && Room(d, held, used, rest, j) &&
              (forall l :: i <= l < j ==> !Room(d, held, used, rest, l)) &&
                        TopUp(d, held, used, rest, i) == used[j := used[j] + 1]
    decreases |d| - i
  {
    if i < |d| && !Room(d, held, used, rest, i) {
      TopUpOne(d, held, used, rest, i + 1);
    }
  }

  lemma {:induction false} TopUpWithin(d: seq<int>, held: Counts, used: Counts, rest: int, i: nat)
    requires Account(d, held) && i <= |d| && Within(used, held, |d|) && |used| == |d|
    ensures Within(TopUp(d, held, used, rest, i), held, |d|)
    decreases |d| - i
  {
    if i < |d| && !Room(d, held, used, rest, i) && rest >= 0 {
      TopUpWithin(d, held, used, rest, i + 1);
    }
  }

  /** Coins that would come straight back as change are not spent. */
  function Cancel(used: Counts, change: Counts): (r: Counts)
    requires |used| == |change|
    ensures |r| == |used|
  {
    seq(|used|, i requires 0 <= i < |used| => used[i] - Max(0, Min(used[i], change[i])))
  }

  function Max(a: int, b: int): int { if a > b then a else b }

  /** The coins after all three stages. */
  function Alternative(d: seq<int>, held: Counts, next: int, target: int): (r: Counts)
    requires Account(d, held)
    ensures |r| == |d|
  {
    var below := Below(d, held, next, target);
    Cancelled(d, held, below, target - Value(d, below, |d|), target)
  }

  /** The second and third stages after the first. */
  function Cancelled(d: seq<int>, held: Counts, below: Counts, rest: int, target: int): (r: Counts)
    requires Account(d, held) && |below| == |d|
    ensures |r| == |d|
  {
    var over := TopUp(d, held, below, rest, 0);
    Cancel(over, Change(d, |d|, Value(d, over, |d|) - target))
  }

  lemma BelowWithin(d: seq<int>, held: Counts, next: int, target: int)
    requires Account(d, held)
    ensures Within(Below(d, held, next, target), held, |d|)
    ensures target > 0 ==> Value(d, Below(d, held, next, target), |d|) < target
  {
    PickWithin(d, Masked(held, next), |d|, target - 1);
    var r := Below(d, held, next, target);
    forall i | 0 <= i < |d| ensures 0 <= r[i] <= held[i] {
      assert 0 <= r[i] <= Masked(held, next)[i];
    }
  }

  lemma AlternativeWithin(d: seq<int>, held: Counts, next: int, target: int)
    requires Account(d, held)
    ensures Within(Alternative(d, held, next, target), held, |d|)
  {
    var below := Below(d, held, next, target);
    BelowWithin(d, held, next, target);
    TopUpWithin(d, held, below, target - Value(d, below, |d|), 0);
  }

  /** `minimizeChange`: the alternative if it gives less change with few enough coins, else what was given. */
  function Minimized(d: seq<int>, maxSpends: int, count: int, next: int, target: int, held: Counts, used: Counts)
    : (r: (int, Counts))
    requires Account(d, held) && |used| == |d|
    ensures |r.1| == |d|
  {
    var amount := Value(d, Alternative(d, held, next, target), |d|);
    var best := Pick(d, held, |d|, amount);
    var change := Number(Change(d, |d|, amount - target), |d|);
    if change < count && Number(best, |d|) <= maxSpends then (change, best) else (count, used)
  }

  /** The alternative is paid exactly, with the fewest coins possible. */
  lemma AlternativePaid(d: seq<int>, held: Counts, next: int, target: int)
    requires Account(d, held)
    ensures var amount := Value(d, Alternative(d, held, next, target), |d|);
            var best := Pick(d, held, |d|, amount);
            Value(d, best, |d|) == amount && Within(best, held, |d|) &&
            Number(best, |d|) <= Number(Alternative(d, held, next, target), |d|)
  {
    AlternativeWithin(d, held, next, target);
    var x := Alternative(d, held, next, target);
    GreedyComplete(d, held, Value(d, x, |d|), x);
    PickWithin(d, held, |d|, Value(d, x, |d|));
  }

  /** `Covers`, kept folded. */
  ghost predicate Pays(d: seq<int>, held: Counts, target: int, count: int, used: Counts) {
    forall z {:trigger Inside(z)} :: Inside(z) ==> Covers(d, held, target, count, used)
  }

  lemma OpenPays(d: seq<int>, held: Counts, target: int, count: int, used: Counts)
    requires Pays(d, held, target, count, used)
    ensures Covers(d, held, target, count, used)
  {
    assert Inside(0);
  }

  /** Held coins worth more than the target, and the number of coins in the change they give. */
  ghost predicate Covers(d: seq<int>, held: Counts, target: int, count: int, used: Counts) {
    Account(d, held) && |used| == |d| && Within(used, held, |d|) && Value(d, used, |d|) > target &&
    count == Number(Change(d, |d|, Value(d, used, |d|) - target), |d|)
  }

  lemma MinimizedPays(d: seq<int>, maxSpends: int, count: int, next: int, target: int, held: Counts, used: Counts,
                      r: int, u: Counts)
    requires Account(d, held) && |used| == |d| && (count != 0 ==> Pays(d, held, target, count, used))
    requires (r, u) == Minimized(d, maxSpends, count, next, target, held, used)
    ensures r != 0 ==> Pays(d, held, target, r, u)
    ensures r <= count && (r < count ==> Number(u, |d|) <= maxSpends)
  {
    var amount := Value(d, Alternative(d, held, next, target), |d|);
    AlternativePays(d, held, next, target, amount, Pick(d, held, |d|, amount));
  }

  lemma AlternativePays(d: seq<int>, held: Counts, next: int, target: int, amount: int, best: Counts)
    requires Account(d, held) && amount == Value(d, Alternative(d, held, next, target), |d|) &&
             best == Pick(d, held, |d|, amount)
    ensures var r := Number(Change(d, |d|, amount - target), |d|);
            r != 0 ==> Pays(d, held, target, r, best)
  {
    AlternativePaid(d, held, next, target);
    ChangeNone(d, |d|, amount - target);
    assert amount > target ==> Covers(d, held, target, Number(Change(d, |d|, amount - target), |d|), best);
  }

  /** The loop that takes coins of one value while more than that value remains. */
  method TakeStrictly(v: int, h: int, t: int) returns (k: int, rest: int)
    requires v > 0 && h >= 0
    ensures k == Take(t - 1, v, h) && rest == t - k * v
  {
    k, rest := 0, t;
    while rest > v && k < h
      invariant 0 <= k <= h && k == Take(t - 1, v, k) && rest == t - k * v
      decreases h - k
    {
      TakeMore(t - 1, v, k);
      DistributeRight(k, 1, v);
      k := k + 1;
      rest := rest - v;
    }
    if k < h {
      TakeEnough(t - 1, v, k, h);
    }
  }

  /** The first stage of `minimizeChange`. */
  method FillBelow(d: seq<int>, next: int, target: int, held: Counts) returns (used: Counts, rest: int)
    requires Account(d, held)
    ensures used == Below(d, held, next, target) && rest == target - Value(d, used, |d|)
  {
    ghost var all := Below(d, held, next, target);
    ghost var mask := Masked(held, next);
    used := Zeros(|d|);
    rest := target;
    var i := |d|;
    while i > 0
      invariant 0 <= i <= |d| == |used| && all == Pick(d, mask, i, rest - 1) + used[i..]
      invariant Value(d, all, |d|) == Value(d, Pick(d, mask, i, rest - 1), i) + target - rest
    {
      i := i - 1;
      var k;
      k, rest := FillOne(d, next, held, i, rest);
      ghost var tail := used[i + 1..];
      used := used[i := k];
      assert used[i..] == [k] + tail;
    }
  }

  method FillOne(d: seq<int>, next: int, held: Counts, i: nat, t: int) returns (k: int, rest: int)
    requires Account(d, held) && i < |d|
    ensures Pick(d, Masked(held, next), i + 1, t - 1) == Pick(d, Masked(held, next), i, rest - 1) + [k]
    ensures Value(d, Pick(d, Masked(held, next), i + 1, t - 1), i + 1) ==
            Value(d, Pick(d, Masked(held, next), i, rest - 1), i) + t - rest
  {
    ChainPositive(d, i);
    if i <= next {
      k, rest := TakeStrictly(d[i], held[i], t);
    } else {
      k, rest := 0, t;
    }
    PickSplit(d, Masked(held, next), i + 1, t - 1);
    assert t - 1 - k * d[i] == rest - 1;
  }

  /** The second stage of `minimizeChange`. */
  method AddOver(d: seq<int>, held: Counts, below: Counts, remaining: int) returns (used: Counts)
    requires Account(d, held) && |below| == |d|
    ensures used == TopUp(d, held, below, remaining, 0)
  {
    used := below;
    var rest := remaining;
    var i := 0;
    while i < |d|
      invariant 0 <= i <= |d| == |used| && TopUp(d, held, used, rest, i) == TopUp(d, held, below, remaining, 0)
    {
      if d[i] > rest && used[i] < held[i] {
        used := used[i := used[i] + 1];
        rest := rest - d[i];
      }
      i := i + 1;
      if rest < 0 {
        break;
      }
    }
  }

  /** The overlap between spent coins and change is removed. */
  method RemoveOverlap(used: Counts, change: Counts) returns (r: Counts)
    requires |used| == |change| && NonNeg(used) && NonNeg(change)
    ensures r == Cancel(used, change)
  {
    r := used;
    var c := change;
    for i := 0 to |used|
      invariant |r| == |used| == |c| && NonNeg(r) && NonNeg(c)
      invariant forall j :: 0 <= j < i ==> r[j] == Cancel(used, change)[j]
      invariant forall j :: i <= j < |used| ==> r[j] == used[j] && c[j] == change[j]
    {
      while c[i] != 0 && r[i] != 0
        invariant |r| == |used| == |c| && NonNeg(r) && NonNeg(c) && used[i] - r[i] == change[i] - c[i] >= 0
        invariant forall j :: 0 <= j < i ==> r[j] == Cancel(used, change)[j]
        invariant forall j :: i < j < |used| ==> r[j] == used[j] && c[j] == change[j]
        decreases r[i]
      {
        r := r[i := r[i] - 1];
        c := c[i := c[i] - 1];
      }
    }
  }

  method Worth(d: seq<int>, x: Counts) returns (v: int)
    requires |x| == |d|
    ensures v == Value(d, x, |d|)
  {
    v := 0;
    for i := 0 to |d|
      invariant v == Value(d, x, i)
    {
      v := v + x[i] * d[i];
    }
  }

  /** `minimizeChange`. */
  method MinimizeChange(d: seq<int>, maxSpends: int, count: int, next: int, target: int, held: Counts, saved: Counts)
    returns (r: int, used: Counts)
    requires Account(d, held) && |saved| == |d|
    ensures (r, used) == Minimized(d, maxSpends, count, next, target, held, saved)
  {
    var amount := AlternativeAmount(d, next, target, held);
    used := GetSpendCoins(d, amount, held);
    var coins := CountCoins(used);
    var alt := GetChange(d, amount - target);
    r := CountCoins(alt);
    if !(r < count && coins <= maxSpends) {
      r, used := count, saved;
    }
  }

  method AlternativeAmount(d: seq<int>, next: int, target: int, held: Counts) returns (amount: int)
    requires Account(d, held)
    ensures amount == Value(d, Alternative(d, held, next, target), |d|)
  {
    var used, rest := FillBelow(d, next, target, held);
    BelowWithin(d, held, next, target);
    TopUpWithin(d, held, used, rest, 0);
    used := AddOver(d, held, used, rest);
    used := WithoutOverlap(d, target, used);
    amount := Worth(d, used);
  }

  method WithoutOverlap(d: seq<int>, target: int, over: Counts) returns (used: Counts)
    requires Account(d, over)
    ensures used == Cancel(over, Change(d, |d|, Value(d, over, |d|) - target))
  {
    var amount := Worth(d, over);
    var change := GetChange(d, amount - target);
    ChangeNone(d, |d|, amount - target);
    used := RemoveOverlap(over, change);
  }

  // ----- change -----

  /** The smallest held denomination above the target, or |d|. */
  function FirstOver(d: seq<int>, held: Counts, target: int, i: nat): (r: nat)
    requires i <= |d| == |held|
    ensures i <= r <= |d| && (r < |d| ==> target < d[r] && held[r] != 0)
    ensures forall j :: i <= j < r ==> !(target < d[j] && held[j] != 0)
    decreases |d| - i
  {
    if i == |d| || (target < d[i] && held[i] != 0) then i else FirstOver(d, held, target, i + 1)
  }

  /** The largest held denomination below i, or -1. */
  function LastHeld(held: Counts, i: nat): (r: int)
    requires i <= |held|
    ensures -1 <= r < i && (r >= 0 ==> held[r] != 0) && forall j :: r < j < i ==> held[j] == 0
  {
    if i == 0 then -1 else if held[i - 1] != 0 then i - 1 else LastHeld(held, i - 1)
  }

  /** Coins taken largest first until the target is reached. */
  function Cover(d: seq<int>, held: Counts, n: nat, t: int): (r: Counts)
    requires Chain(d) && n <= |d| && n <= |held|
    ensures |r| == n
  {
    if n == 0 then [] else
      ChainPositive(d, n - 1);
      var k := Take(t + d[n - 1] - 1, d[n - 1], held[n - 1]);
      Cover(d, held, n - 1, t - k * d[n - 1]) + [k]
  }

  lemma {:induction false} CoverWithin(d: seq<int>, held: Counts, n: nat, t: int)
    requires Chain(d) && n <= |d| && n <= |held| && NonNeg(held)
    ensures Within(Cover(d, held, n, t), held, n)
  {
    if n > 0 {
      var v := d[n - 1];
      ChainPositive(d, n - 1);
      TakeFacts(t + v - 1, v, held[n - 1]);
      CoverWithin(d, held, n - 1, t - Take(t + v - 1, v, held[n - 1]) * v);
    }
  }

  function Single(n: nat, i: nat): (r: Counts)
    requires i < n
    ensures |r| == n
  {
    Zeros(n)[i := 1]
  }

  /** `calculateChange`: the number of coins in the change, 0 on failure, and the coins to spend. */
  function Calculated(d: seq<int>, maxSpends: int, minimize: bool, target: int, held: Counts): (r: (int, Counts))
    requires Account(d, held)
    ensures |r.1| == |d|
  {
    var over := FirstOver(d, held, target, 0);
    if over < |d| then WithSingle(d, maxSpends, minimize, target, held, over)
    else WithCover(d, maxSpends, minimize, target, held)
  }

  /** With a held coin above the target. */
  function WithSingle(d: seq<int>, maxSpends: int, minimize: bool, target: int, held: Counts, over: nat)
    : (r: (int, Counts))
    requires Account(d, held) && over < |d|
    ensures |r.1| == |d|
  {
    var n := |d|;
    var count := Number(Change(d, n, d[over] - target), n);
    if minimize then
      var alt := Minimized(d, maxSpends, count, LastHeld(held, over), target, held, Single(n, over));
      if alt.0 < count then alt else (count, Single(n, over))
    else (count, Single(n, over))
  }

  /** Without one. */
  function WithCover(d: seq<int>, maxSpends: int, minimize: bool, target: int, held: Counts): (r: (int, Counts))
    requires Account(d, held)
    ensures |r.1| == |d|
  {
    var used := Cover(d, held, |d|, target);
    var count := Number(Change(d, |d|, Value(d, used, |d|) - target), |d|);
    var alt := Minimized(d, maxSpends, count, LastHeld(held, |d|), target, held, used);
    if !minimize && Number(used, |d|) < Number(alt.1, |d|) then (count, used) else alt
  }

  lemma SingleValue(d: seq<int>, i: nat)
    requires i < |d|
    ensures Value(d, Single(|d|, i), |d|) == d[i] && Number(Single(|d|, i), |d|) == 1
  {
    ZeroValue(d, Zeros(|d|), |d|);
    Bump(d, Zeros(|d|), i, |d|);
  }

  /** Whenever change is announced, the coins are held, they are worth more than the target, and
      the change is that on the excess. */
  lemma CalculatedPays(d: seq<int>, maxSpends: int, minimize: bool, target: int, held: Counts)
    requires Account(d, held)
    ensures var (r, used) := Calculated(d, maxSpends, minimize, target, held);
            r != 0 ==> Pays(d, held, target, r, used)
  {
    var over := FirstOver(d, held, target, 0);
    if over < |d| {
      WithSinglePays(d, maxSpends, minimize, target, held, over);
    } else {
      WithCoverPays(d, maxSpends, minimize, target, held);
    }
  }

  lemma WithSinglePays(d: seq<int>, maxSpends: int, minimize: bool, target: int, held: Counts, over: nat)
    requires Account(d, held) && over < |d| && target < d[over] && held[over] != 0
    ensures var r := WithSingle(d, maxSpends, minimize, target, held, over);
            r.0 != 0 ==> Pays(d, held, target, r.0, r.1)
  {
    var n := |d|;
    var count := Number(Change(d, n, d[over] - target), n);
    SinglePays(d, held, target, over);
    var alt := Minimized(d, maxSpends, count, LastHeld(held, over), target, held, Single(n, over));
    MinimizedPays(d, maxSpends, count, LastHeld(held, over), target, held, Single(n, over), alt.0, alt.1);
  }

  lemma WithCoverPays(d: seq<int>, maxSpends: int, minimize: bool, target: int, held: Counts)
    requires Account(d, held)
    ensures var r := WithCover(d, maxSpends, minimize, target, held);
            r.0 != 0 ==> Pays(d, held, target, r.0, r.1)
  {
    var n := |d|;
    var used := Cover(d, held, n, target);
    var count := Number(Change(d, n, Value(d, used, n) - target), n);
    CoverPays(d, held, target, used);
    var alt := Minimized(d, maxSpends, count, LastHeld(held, n), target, held, used);
    MinimizedPays(d, maxSpends, count, LastHeld(held, n), target, held, used, alt.0, alt.1);
  }

  /** One held coin above the target. */
  lemma SinglePays(d: seq<int>, held: Counts, target: int, over: nat)
    requires Account(d, held) && over < |d| && target < d[over] && held[over] != 0
    ensures Pays(d, held, target, Number(Change(d, |d|, d[over] - target), |d|), Single(|d|, over))
  {
    SingleValue(d, over);
  }

  lemma CoverPays(d: seq<int>, held: Counts, target: int, used: Counts)
    requires Account(d, held) && used == Cover(d, held, |d|, target)
    ensures var count := Number(Change(d, |d|, Value(d, used, |d|) - target), |d|);
            count != 0 ==> Pays(d, held, target, count, used)
  {
    CoverWithin(d, held, |d|, target);
    ChangeNone(d, |d|, Value(d, used, |d|) - target);
  }

  /** `calculateChange`. */
  method CalculateChange(d: seq<int>, maxSpends: int, minimize: bool, target: int, held: Counts)
    returns (r: int, used: Counts)
    requires Account(d, held)
    ensures (r, used) == Calculated(d, maxSpends, minimize, target, held)
    ensures r != 0 ==> Pays(d, held, target, r, used)
  {
    CalculatedPays(d, maxSpends, minimize, target, held);
    var n := |d|;
    var over := 0;
    while over < n && !(target < d[over] && held[over] != 0)
      invariant over <= n && FirstOver(d, held, target, over) == FirstOver(d, held, target, 0)
    {
      over := over + 1;
    }
    if over < n {
      r, used := SpendSingle(d, maxSpends, minimize, target, held, over);
    } else {
      r, used := SpendCover(d, maxSpends, minimize, target, held);
    }
  }

  /** The branch with a held coin above the target. */
  method SpendSingle(d: seq<int>, maxSpends: int, minimize: bool, target: int, held: Counts, over: nat)
    returns (r: int, used: Counts)
    requires Account(d, held) && over < |d|
    ensures (r, used) == WithSingle(d, maxSpends, minimize, target, held, over)
  {
    used := Zeros(|d|)[over := 1];
    var change := GetChange(d, d[over] - target);
    r := CountCoins(change);
    if minimize {
      var next := NextLowerHeld(held, over);
      var count, alt := MinimizeChange(d, maxSpends, r, next, target, held, used);
      if count < r {
        r, used := count, alt;
      }
    }
  }

  /** The branch without one. */
  method SpendCover(d: seq<int>, maxSpends: int, minimize: bool, target: int, held: Counts)
    returns (r: int, used: Counts)
    requires Account(d, held)
    ensures (r, used) == WithCover(d, maxSpends, minimize, target, held)
  {
    used := CoverTarget(d, target, held);
    var coins := CountCoins(used);
    var amount := Worth(d, used);
    var change := GetChange(d, amount - target);
    r := CountCoins(change);
    var next := NextLowerHeld(held, |d|);
    var count, alt := MinimizeChange(d, maxSpends, r, next, target, held, used);
    var spends := CountCoins(alt);
    if !(!minimize && coins < spends) {
      r, used := count, alt;
    }
  }

  /** `getNextLowerDenomHeld`, and `getMaxDenomHeld` when i is past the last. */
  method NextLowerHeld(held: Counts, i: nat) returns (r: int)
    requires i <= |held|
    ensures r == LastHeld(held, i)
  {
    r := i - 1;
    while r >= 0 && held[r] == 0
      invariant -1 <= r < i && LastHeld(held, r + 1) == LastHeld(held, i)
    {
      r := r - 1;
    }
  }

  /** The fallback of `calculateChange`. */
  method CoverTarget(d: seq<int>, target: int, held: Counts) returns (used: Counts)
    requires Account(d, held)
    ensures used == Cover(d, held, |d|, target)
  {
    used := Zeros(|d|);
    var rest := target;
    var i := |d|;
    while i > 0
      invariant 0 <= i <= |d| == |used| && Cover(d, held, |d|, target) == Cover(d, held, i, rest) + used[i..]
    {
      i := i - 1;
      var k;
      k, rest := CoverOne(d, held, i, rest);
      ghost var tail := used[i + 1..];
      used := used[i := k];
      assert used[i..] == [k] + tail;
    }
  }

  method CoverOne(d: seq<int>, held: Counts, i: nat, t: int) returns (k: int, rest: int)
    requires Account(d, held) && i < |d|
    ensures Cover(d, held, i + 1, t) == Cover(d, held, i, rest) + [k]
  {
    ChainPositive(d, i);
    k, rest := TakeUpTo(d[i], held[i], t);
    assert rest == t - k * d[i];
  }

  /** The loop that takes coins of one value while something remains to be paid. */
  method TakeUpTo(v: int, h: int, t: int) returns (k: int, rest: int)
    requires v > 0 && h >= 0
    ensures k == Take(t + v - 1, v, h) && rest == t - k * v
  {
    k, rest := 0, t;
    while rest > 0 && k < h
      invariant 0 <= k <= h && k == Take(t + v - 1, v, k) && rest == t - k * v
      decreases h - k
    {
      TakeMore(t + v - 1, v, k);
      DistributeRight(k, 1, v);
      k := k + 1;
      rest := rest - v;
    }
    if k < h {
      TakeEnough(t + v - 1, v, k, h);
    }
  }

  // ----- when change can be found -----

  lemma CoverSplit(d: seq<int>, held: Counts, n: nat, t: int, k: int)
    requires Chain(d) && 0 < n <= |d| && n <= |held| && d[n - 1] > 0 &&
             k == Take(t + d[n - 1] - 1, d[n - 1], held[n - 1])
    ensures Value(d, Cover(d, held, n, t), n) == Value(d, Cover(d, held, n - 1, t - k * d[n - 1]), n - 1) + k * d[n - 1]
  {
    Agree(d, Cover(d, held, n, t), Cover(d, held, n - 1, t - k * d[n - 1]), n - 1);
  }

  /** The fallback reaches every target the held coins are worth. */
  lemma {:induction false} CoverReaches(d: seq<int>, held: Counts, n: nat, t: int)
    requires Chain(d) && n <= |d| && n <= |held| && NonNeg(held) && Value(d, held, n) >= t
    ensures Value(d, Cover(d, held, n, t), n) >= t
  {
    CoverWithin(d, held, n, t);
    if t <= 0 {
      ValueNonNeg(d, Cover(d, held, n, t), n);
    } else if n > 0 {
      var v, h := d[n - 1], held[n - 1];
      ChainPositive(d, n - 1);
      var k := Take(t + v - 1, v, h);
      CoverSplit(d, held, n, t, k);
      TakeFacts(t + v - 1, v, h);
      var rest := t - k * v;
      if k < h {
        CoverWithin(d, held, n - 1, rest);
        ValueNonNeg(d, Cover(d, held, n - 1, rest), n - 1);
      } else {
        CoverReaches(d, held, n - 1, rest);
      }
    }
  }

  /** Cancelling gives back no more than the change is worth. */
  lemma {:induction false} CancelValue(d: seq<int>, used: Counts, change: Counts, n: nat)
    requires Chain(d) && |used| == |change| && n <= |d| && n <= |used| && NonNeg(used) && NonNeg(change)
    ensures Value(d, Cancel(used, change), n) >= Value(d, used, n) - Value(d, change, n)
  {
    if n > 0 {
      CancelValue(d, used, change, n - 1);
      ChainPositive(d, n - 1);
      var a, b, v := used[n - 1], change[n - 1], d[n - 1];
      MulMono(a - b, Cancel(used, change)[n - 1], v);
      MinusRight(a, b, v);
    }
  }

  /** With room somewhere the second stage goes over what remains. */
  lemma {:induction false} TopUpOver(d: seq<int>, held: Counts, used: Counts, rest: int, i: nat, j: nat)
    requires i <= j < |d| == |held| == |used| && rest >= 0 && Room(d, held, used, rest, j)
    ensures Value(d, TopUp(d, held, used, rest, i), |d|) > Value(d, used, |d|) + rest
    decreases |d| - i
  {
    if Room(d, held, used, rest, i) {
      Bump(d, used, i, |d|);
    } else {
      TopUpOver(d, held, used, rest, i + 1, j);
    }
  }

  /** Given room, the alternative is worth at least the target. */
  lemma AlternativeReaches(d: seq<int>, held: Counts, next: int, target: int, j: nat)
    requires Account(d, held) && target > 0 && j < |d|
    requires var below := Below(d, held, next, target); Room(d, held, below, target - Value(d, below, |d|), j)
    ensures Value(d, Alternative(d, held, next, target), |d|) >= target
  {
    var below := Below(d, held, next, target);
    BelowWithin(d, held, next, target);
    CancelledReaches(d, held, below, target - Value(d, below, |d|), target, j);
  }

  lemma CancelledReaches(d: seq<int>, held: Counts, below: Counts, rest: int, target: int, j: nat)
    requires Account(d, held) && j < |d| == |below| && Within(below, held, |d|) && Room(d, held, below, rest, j)
    requires rest == target - Value(d, below, |d|) && rest >= 0
    ensures Value(d, Cancelled(d, held, below, rest, target), |d|) >= target
  {
    var over := TopUp(d, held, below, rest, 0);
    assert NonNeg(over) && Value(d, over, |d|) >= target by { TopUpReaches(d, held, below, rest, target, j); }
    CancelReaches(d, over, target, Cancelled(d, held, below, rest, target));
  }

  lemma TopUpReaches(d: seq<int>, held: Counts, below: Counts, rest: int, target: int, j: nat)
    requires Account(d, held) && j < |d| == |below| && Within(below, held, |d|) && Room(d, held, below, rest, j)
    requires rest == target - Value(d, below, |d|) && rest >= 0
    ensures NonNeg(TopUp(d, held, below, rest, 0)) && Value(d, TopUp(d, held, below, rest, 0), |d|) >= target
  {
    TopUpOver(d, held, below, rest, 0, j);
    TopUpWithin(d, held, below, rest, 0);
  }

  lemma CancelReaches(d: seq<int>, over: Counts, target: int, left: Counts)
    requires Chain(d) && |d| > 0 && |over| == |d| && NonNeg(over) && Value(d, over, |d|) >= target
    requires left == Cancel(over, Change(d, |d|, Value(d, over, |d|) - target))
    ensures Value(d, left, |d|) >= target
  {
    var excess := Value(d, over, |d|) - target;
    ChangeRest(d, |d|, excess);
    CancelValue(d, over, Change(d, |d|, excess), |d|);
  }

  /** No choice of held coins is worth exactly the target. */
  ghost predicate NoExact(d: seq<int>, held: Counts, target: int) {
    forall x :: |x| == |d| && Within(x, held, |d|) ==> Value(d, x, |d|) != target
  }

  /** Coins worth more than a multiple of the smallest value give at least one coin of change. */
  lemma SomeChange(d: seq<int>, target: int, used: Counts)
    requires Chain(d) && |d| > 0 && |used| == |d| && target % SmallestOf(d) == 0 && Value(d, used, |d|) > target
    ensures Number(Change(d, |d|, Value(d, used, |d|) - target), |d|) > 0
  {
    var amount := Value(d, used, |d|);
    ValueMultiple(d, used, |d|);
    MultiplesApart(target, amount, d[0]);
    ChangeNone(d, |d|, amount - target);
  }

  /** No exact payment within the limit: either there is none, or the one with the fewest coins has too many. */
  predicate Missed(d: seq<int>, held: Counts, target: int, maxSpends: int)
    requires Chain(d) && |held| == |d|
  {
    var best := Pick(d, held, |d|, target);
    Value(d, best, |d|) == target ==> Number(best, |d|) > maxSpends
  }

  function SmallestOf(d: seq<int>): (v: int)
    requires Chain(d)
    ensures v > 0
  {
    d[0]
  }

  /** In the alternative, with a larger coin at hand. */
  lemma RoomAbove(d: seq<int>, held: Counts, target: int, over: nat, next: int)
    requires Account(d, held) && target > 0 && over < |d| && d[over] > target && held[over] != 0 && next < over
    ensures var below := Below(d, held, next, target); Room(d, held, below, target - Value(d, below, |d|), over)
  {
    var mask := Masked(held, next);
    PickWithin(d, mask, |d|, target - 1);
    assert 0 <= Below(d, held, next, target)[over] <= mask[over] == 0;
  }

  ghost predicate SomeRoom(d: seq<int>, held: Counts, used: Counts, rest: int, n: nat)
    requires n <= |d| && n <= |held| && n <= |used|
  {
    exists j :: 0 <= j < n && Room(d, held, used, rest, j)
  }

  /** The most that stays below the target leaves a larger coin, or the fallback meets the target. */
  lemma {:induction false} CoverOrRoom(d: seq<int>, held: Counts, n: nat, t: int)
    requires Chain(d) && n <= |d| == |held| && NonNeg(held) && t > 0 && Value(d, held, n) >= t
    ensures var b := Pick(d, held, n, t - 1);
            Value(d, Cover(d, held, n, t), n) == t || SomeRoom(d, held, b, t - Value(d, b, n), n)
    decreases n
  {
    if n > 0 {
      var v, h := d[n - 1], held[n - 1];
      ChainPositive(d, n - 1);
      var k, c := Take(t - 1, v, h), Take(t + v - 1, v, h);
      TakeBoth(t, v, h, k, c);
      PickSplit(d, held, n, t - 1);
      var b, low := Pick(d, held, n, t - 1), Pick(d, held, n - 1, t - 1 - k * v);
      if k == h {
        var rest := t - k * v;
        CoverSplit(d, held, n, t, c);
        CoverOrRoom(d, held, n - 1, rest);
        LowerRoom(d, held, n, rest - Value(d, low, n - 1), b, low, k);
        assert t - Value(d, b, n) == rest - Value(d, low, n - 1);
      } else {
        PickWithin(d, held, n - 1, t - 1 - k * v);
        TopRoom(d, held, n, t, k, c, b, Value(d, low, n - 1));
      }
    }
  }

  /** Room among the lower coins is room. */
  lemma LowerRoom(d: seq<int>, held: Counts, n: nat, rest: int, b: Counts, low: Counts, k: int)
    requires 0 < n <= |d| && n <= |held| && |low| == n - 1 && b == low + [k]
    ensures SomeRoom(d, held, low, rest, n - 1) ==> SomeRoom(d, held, b, rest, n)
  {
    if j :| 0 <= j < n - 1 && Room(d, held, low, rest, j) {
      assert Room(d, held, b, rest, j);
    }
  }

  /** With a coin of the largest value left over there is room for it, or the fallback takes it and is done. */
  lemma TopRoom(d: seq<int>, held: Counts, n: nat, t: int, k: int, c: int, b: Counts, low: int)
    requires Chain(d) && 0 < n <= |d| == |held| && |b| == n && d[n - 1] > 0 && low >= 0
    requires c == Take(t + d[n - 1] - 1, d[n - 1], held[n - 1]) && b[n - 1] == k < held[n - 1] && c == k + 1
    requires t - k * d[n - 1] <= d[n - 1] && Value(d, b, n) == low + k * d[n - 1]
    ensures Value(d, Cover(d, held, n, t), n) == t || SomeRoom(d, held, b, t - Value(d, b, n), n)
  {
    var v := d[n - 1];
    DistributeRight(k, 1, v);
    if t - k * v == v && low == 0 {
      CoverSplit(d, held, n, t, c);
      CoverNothing(d, held, n - 1, t - c * v);
    } else {
      assert Room(d, held, b, t - Value(d, b, n), n - 1);
    }
  }

  /** Rounding down the target less one, and rounding the target up. */
  lemma TakeBoth(t: int, v: int, h: int, k: int, c: int)
    requires t > 0 && v > 0 && h >= 0 && k == Take(t - 1, v, h) && c == Take(t + v - 1, v, h)
    ensures k * v <= t - 1 && (k == h ==> c == h)
    ensures k != h ==> 0 <= k < h && c == k + 1 && t - k * v <= v
  {
    TakeFacts(t - 1, v, h);
    TakeFacts(t + v - 1, v, h);
    if c <= k {
      MulMono(c, k, v);
    } else if c > k + 1 {
      MulMono(k + 2, c, v);
      DistributeRight(k, 2, v);
    }
  }

  /** The fallback takes no coin too many: without the smallest one it takes it falls short of the target. */
  lemma {:induction false} CoverTight(d: seq<int>, held: Counts, n: nat, t: int, j: nat)
    requires Chain(d) && n <= |d| && n <= |held| && NonNeg(held) && t > 0 && j < n
    requires Cover(d, held, n, t)[j] > 0 && forall i :: 0 <= i < j ==> Cover(d, held, n, t)[i] == 0
    ensures Value(d, Cover(d, held, n, t), n) - d[j] < t
    decreases n
  {
    var v, h := d[n - 1], held[n - 1];
    ChainPositive(d, n - 1);
    var k := Take(t + v - 1, v, h);
    TakeFacts(t + v - 1, v, h);
    CoverSplit(d, held, n, t, k);
    var rest := t - k * v;
    var low := Cover(d, held, n - 1, rest);
    assert Cover(d, held, n, t) == low + [k];
    forall i | 0 <= i < n - 1 ensures low[i] == Cover(d, held, n, t)[i] {}
    if j < n - 1 {
      if rest <= 0 { CoverZero(d, held, n - 1, rest, j); }
      CoverTight(d, held, n - 1, rest, j);
    } else {
      ZeroValue(d, low, n - 1);
    }
  }

  lemma {:induction false} CoverZero(d: seq<int>, held: Counts, n: nat, t: int, j: nat)
    requires Chain(d) && n <= |d| && n <= |held| && t <= 0 && j < n
    ensures Cover(d, held, n, t)[j] == 0
    decreases n
  {
    ChainPositive(d, n - 1);
    if j < n - 1 { CoverZero(d, held, n - 1, t, j); }
  }

  /** Nothing is taken for nothing. */
  lemma {:induction false} CoverNothing(d: seq<int>, held: Counts, n: nat, t: int)
    requires Chain(d) && n <= |d| && n <= |held| && t <= 0
    ensures Value(d, Cover(d, held, n, t), n) == 0
    decreases n
  {
    if n > 0 {
      ChainPositive(d, n - 1);
      CoverSplit(d, held, n, t, 0);
      CoverNothing(d, held, n - 1, t);
    }
  }

  /** Change minimisation keeps some change when the alternative reaches the target. */
  lemma MinimizedSome(d: seq<int>, maxSpends: int, count: int, next: int, target: int, held: Counts, used: Counts)
    requires Account(d, held) && |d| > 0 && |used| == |d| && count > 0 && target % SmallestOf(d) == 0
    requires Missed(d, held, target, maxSpends) && Value(d, Alternative(d, held, next, target), |d|) >= target
    ensures Minimized(d, maxSpends, count, next, target, held, used).0 > 0
  {
    var x := Alternative(d, held, next, target);
    AlternativeWithin(d, held, next, target);
    SomeOrMissed(d, maxSpends, target, held, x);
    MinimizedIs(d, maxSpends, count, next, target, held, used, Value(d, x, |d|));
  }

  /** A held payment of at least the target gives change, or has too many coins. */
  lemma SomeOrMissed(d: seq<int>, maxSpends: int, target: int, held: Counts, x: Counts)
    requires Account(d, held) && |d| > 0 && target % SmallestOf(d) == 0 && Missed(d, held, target, maxSpends)
    requires |x| == |d| && Within(x, held, |d|) && Value(d, x, |d|) >= target
    ensures var amount := Value(d, x, |d|);
            Number(Change(d, |d|, amount - target), |d|) > 0 || Number(Pick(d, held, |d|, amount), |d|) > maxSpends
  {
    if Value(d, x, |d|) == target {
      GreedyComplete(d, held, target, x);
    } else {
      SomeChange(d, target, x);
    }
  }

  lemma MinimizedIs(d: seq<int>, maxSpends: int, count: int, next: int, target: int, held: Counts, used: Counts,
                    amount: int)
    requires Account(d, held) && |used| == |d| && amount == Value(d, Alternative(d, held, next, target), |d|)
    ensures var change := Number(Change(d, |d|, amount - target), |d|);
            Minimized(d, maxSpends, count, next, target, held, used).0 ==
            if change < count && Number(Pick(d, held, |d|, amount), |d|) <= maxSpends then change else count
  {
  }

  /** Some held coin is larger than the target, or coins taken largest first go over it. */
  predicate Exceeds(d: seq<int>, held: Counts, target: int)
    requires Chain(d) && |held| == |d|
  {
    (exists i :: 0 <= i < |d| && target < d[i] && held[i] != 0) || Value(d, Cover(d, held, |d|, target), |d|) > target
  }

  /** Without an exact payment within the limit, the calculation finds change exactly when a held coin is larger
      than the target or the fallback goes over it. */
  lemma CalculatedIff(d: seq<int>, maxSpends: int, minimize: bool, target: int, held: Counts)
    requires Account(d, held) && target > 0 && target % SmallestOf(d) == 0 && Missed(d, held, target, maxSpends)
    ensures Calculated(d, maxSpends, minimize, target, held).0 > 0 <==> Exceeds(d, held, target)
    ensures Calculated(d, maxSpends, minimize, target, held).0 >= 0
  {
    var n, over := |d|, FirstOver(d, held, target, 0);
    if over < n {
      SingleSucceeds(d, maxSpends, minimize, target, held, over);
    } else {
      FallbackIff(d, maxSpends, minimize, target, held, Cover(d, held, n, target));
    }
  }

  lemma SingleSucceeds(d: seq<int>, maxSpends: int, minimize: bool, target: int, held: Counts, over: nat)
    requires Account(d, held) && target > 0 && target % SmallestOf(d) == 0 && Missed(d, held, target, maxSpends)
    requires over < |d| && target < d[over] && held[over] != 0
    ensures WithSingle(d, maxSpends, minimize, target, held, over).0 > 0
  {
    var n, next := |d|, LastHeld(held, over);
    var used := Single(n, over);
    SingleValue(d, over);
    SomeChange(d, target, used);
    var count := Number(Change(d, n, d[over] - target), n);
    assert count > 0;
    RoomAbove(d, held, target, over, next);
    AlternativeReaches(d, held, next, target, over);
    MinimizedSome(d, maxSpends, count, next, target, held, used);
  }

  lemma FallbackIff(d: seq<int>, maxSpends: int, minimize: bool, target: int, held: Counts, used: Counts)
    requires Account(d, held) && target > 0 && target % SmallestOf(d) == 0 && Missed(d, held, target, maxSpends)
    requires used == Cover(d, held, |d|, target) && |d| > 0
    ensures WithCover(d, maxSpends, minimize, target, held).0 > 0 <==> Value(d, used, |d|) > target
    ensures WithCover(d, maxSpends, minimize, target, held).0 >= 0
  {
    var count := Number(Change(d, |d|, Value(d, used, |d|) - target), |d|);
    if Value(d, used, |d|) > target {
      SomeChange(d, target, used);
      CoverAlternative(d, target, held, used);
      MinimizedSome(d, maxSpends, count, LastHeld(held, |d|), target, held, used);
      ChosenSome(d, maxSpends, minimize, target, held, used, count);
    } else {
      ChangeNone(d, |d|, Value(d, used, |d|) - target);
      ChosenNone(d, maxSpends, minimize, target, held, used);
    }
  }

  lemma ChosenSome(d: seq<int>, maxSpends: int, minimize: bool, target: int, held: Counts, used: Counts, count: int)
    requires Account(d, held) && used == Cover(d, held, |d|, target) && count > 0
    requires count == Number(Change(d, |d|, Value(d, used, |d|) - target), |d|)
    requires Minimized(d, maxSpends, count, LastHeld(held, |d|), target, held, used).0 > 0
    ensures WithCover(d, maxSpends, minimize, target, held).0 > 0
  {
  }

  lemma ChosenNone(d: seq<int>, maxSpends: int, minimize: bool, target: int, held: Counts, used: Counts)
    requires Account(d, held) && used == Cover(d, held, |d|, target)
    requires Number(Change(d, |d|, Value(d, used, |d|) - target), |d|) == 0
    ensures WithCover(d, maxSpends, minimize, target, held).0 == 0
  {
    var amount := Value(d, Alternative(d, held, LastHeld(held, |d|), target), |d|);
    ChangeNone(d, |d|, amount - target);
  }

  /** When the fallback goes over the target, so does the alternative or it meets it. */
  lemma CoverAlternative(d: seq<int>, target: int, held: Counts, used: Counts)
    requires Account(d, held) && target > 0 && used == Cover(d, held, |d|, target) && Value(d, used, |d|) > target
    ensures Value(d, Alternative(d, held, LastHeld(held, |d|), target), |d|) >= target
  {
    var next := LastHeld(held, |d|);
    assert Masked(held, next) == held;
    CoverWithin(d, held, |d|, target);
    ValueMono(d, used, held, |d|);
    CoverOrRoom(d, held, |d|, target);
    var below := Below(d, held, next, target);
    var j :| 0 <= j < |d| && Room(d, held, below, target - Value(d, below, |d|), j);
    AlternativeReaches(d, held, next, target, j);
  }

  /** A target that is a multiple of the smallest value and cannot be met exactly is always covered with
      change when the held coins are worth it, whatever the limit on spends. */
  lemma CalculatedSucceeds(d: seq<int>, maxSpends: int, minimize: bool, target: int, held: Counts)
    requires Account(d, held) && target > 0 && target % SmallestOf(d) == 0 && NoExact(d, held, target)
    requires Value(d, held, |d|) >= target
    ensures Calculated(d, maxSpends, minimize, target, held).0 > 0
  {
    PickWithin(d, held, |d|, target);
    assert Value(d, Pick(d, held, |d|, target), |d|) != target;
    CoverReaches(d, held, |d|, target);
    CoverWithin(d, held, |d|, target);
    CalculatedIff(d, maxSpends, minimize, target, held);
  }

  // ----- what the calculation chooses -----

  /** The stages of the alternative, each by itself: the first pays the most below the target that the coins up to
      the given denomination can. */
  lemma BelowBest(d: seq<int>, held: Counts, next: int, target: int, x: Counts)
    requires Account(d, held) && target > 0 && |x| == |d| && Within(x, held, |d|) && Value(d, x, |d|) < target
    requires forall i :: 0 <= i < |d| && i > next ==> x[i] == 0
    ensures Value(d, x, |d|) <= Value(d, Below(d, held, next, target), |d|) < target
  {
    var mask := Masked(held, next);
    forall i | 0 <= i < |d| ensures 0 <= x[i] <= mask[i] && mask[i] >= 0 {
      assert 0 <= x[i] <= held[i];
    }
    MaskedBest(d, mask, target - 1, x);
    BelowWithin(d, held, next, target);
  }

  lemma MaskedBest(d: seq<int>, mask: Counts, t: int, x: Counts)
    requires Chain(d) && |mask| == |x| == |d| && NonNeg(mask) && Within(x, mask, |d|) && Value(d, x, |d|) <= t && t >= 0
    ensures Value(d, x, |d|) <= Value(d, Pick(d, mask, |d|, t), |d|)
  {
    GreedyBest(d, mask, |d|, t, x);
  }

  /** The second adds the smallest held coin larger than what remains if there is one, and nothing otherwise. */
  lemma {:induction false} TopUpIff(d: seq<int>, held: Counts, used: Counts, rest: int, i: nat, j: nat)
    requires i <= j <= |d| == |held| == |used| && rest >= 0
    requires forall l :: i <= l < j ==> !Room(d, held, used, rest, l)
    requires j < |d| ==> Room(d, held, used, rest, j)
    ensures TopUp(d, held, used, rest, i) == if j < |d| then used[j := used[j] + 1] else used
    decreases |d| - i
  {
    if i < j {
      assert !Room(d, held, used, rest, i);
      TopUpIff(d, held, used, rest, i + 1, j);
    }
  }

  /** The third takes the same coins out of payment and change, until no denomination is in both. */
  lemma CancelDisjoint(used: Counts, change: Counts, i: nat)
    requires |used| == |change| && NonNeg(used) && NonNeg(change) && i < |used|
    ensures var gone := used[i] - Cancel(used, change)[i];
            gone >= 0 && Cancel(used, change)[i] >= 0 && change[i] - gone >= 0 &&
            (Cancel(used, change)[i] == 0 || change[i] - gone == 0)
  {
  }

  /** What is spent at first: the smallest held coin above the target, or coins taken largest first. */
  function FirstChoice(d: seq<int>, held: Counts, target: int): (r: Counts)
    requires Account(d, held)
    ensures |r| == |d|
  {
    var over := FirstOver(d, held, target, 0);
    if over < |d| then Single(|d|, over) else Cover(d, held, |d|, target)
  }

  /** The alternative, with the fewest coins. */
  function SecondChoice(d: seq<int>, held: Counts, target: int): (r: Counts)
    requires Account(d, held)
    ensures |r| == |d|
  {
    Pick(d, held, |d|, Value(d, Alternative(d, held, LastHeld(held, FirstOver(d, held, target, 0)), target), |d|))
  }

  /** The number of coins in the change. */
  function ChangeCount(d: seq<int>, coins: Counts, target: int): int
    requires Chain(d) && |coins| == |d|
  {
    Number(Change(d, |d|, Value(d, coins, |d|) - target), |d|)
  }

  /** The first choice is the smallest held coin above the target, if there is one. */
  lemma FirstChoiceSmallest(d: seq<int>, held: Counts, target: int, i: nat)
    requires Account(d, held) && i < |d| && target < d[i] && held[i] != 0
    ensures target < Value(d, FirstChoice(d, held, target), |d|) <= d[i]
    ensures Number(FirstChoice(d, held, target), |d|) == 1
  {
    var over := FirstOver(d, held, target, 0);
    SingleValue(d, over);
    if over < i { ChainIncreasing(d, over, i); }
  }

  /** The result is one of the two choices, with its number of coins in the change. Minimising, it has no more
      coins in the change than the first choice, nor than the second if that is within the limit. Not minimising,
      a single coin is taken if there is one, and otherwise no more coins are spent than by the first choice. */
  lemma CalculatedBest(d: seq<int>, maxSpends: int, minimize: bool, target: int, held: Counts)
    requires Account(d, held)
    ensures var r := Calculated(d, maxSpends, minimize, target, held);
            var a, b := FirstChoice(d, held, target), SecondChoice(d, held, target);
            (r.1 == a || (r.1 == b && Number(b, |d|) <= maxSpends)) && r.0 == ChangeCount(d, r.1, target) &&
            (minimize ==> r.0 <= ChangeCount(d, a, target) &&
                          (Number(b, |d|) <= maxSpends ==> r.0 <= ChangeCount(d, b, target))) &&
            (!minimize && FirstOver(d, held, target, 0) < |d| ==> r.1 == a) &&
            (!minimize && FirstOver(d, held, target, 0) == |d| ==>
               Number(r.1, |d|) <= Number(a, |d|) &&
               (Number(b, |d|) <= maxSpends && Number(b, |d|) <= Number(a, |d|) ==> r.0 <= ChangeCount(d, b, target)))
  {
    var over := FirstOver(d, held, target, 0);
    var a, b := FirstChoice(d, held, target), SecondChoice(d, held, target);
    var next := LastHeld(held, over);
    AlternativePaid(d, held, next, target);
    MinimizedBest(d, maxSpends, ChangeCount(d, a, target), next, target, held, a, b);
    if over < |d| { SingleValue(d, over); }
  }

  lemma MinimizedBest(d: seq<int>, maxSpends: int, count: int, next: int, target: int, held: Counts, used: Counts,
                      best: Counts)
    requires Account(d, held) && |used| == |best| == |d| && count == ChangeCount(d, used, target)
    requires best == Pick(d, held, |d|, Value(d, Alternative(d, held, next, target), |d|))
    requires Value(d, best, |d|) == Value(d, Alternative(d, held, next, target), |d|)
    ensures Minimized(d, maxSpends, count, next, target, held, used) ==
            if ChangeCount(d, best, target) < count && Number(best, |d|) <= maxSpends
            then (ChangeCount(d, best, target), best) else (count, used)
  {
  }

  // ----- the whole selection -----

  /** `SelectMintsFromList`, with the held coins counting the unused mints. A negative limit, cast
      to an unsigned number, is no limit on exact payments. On failure the selected value is left
      as it was. */
  method SelectMintsFromList(d: seq<int>, target: int, selectedIn: int, maxSpends: int, minimize: bool,
                             mints: seq<Mint>, held: Counts)
    returns (r: seq<Mint>, selected: int, coinsReturned: int, needed: int, ghost picks: seq<nat>)
    requires Chain(d) && held == Available(|d|, mints)
    ensures Lists(mints, picks, r)
    ensures r != [] ==> selected == WorthOf(d, r) >= target
    ensures r != [] && coinsReturned == 0 ==> selected == target
    ensures r != [] && coinsReturned != 0 ==>
              selected > target && coinsReturned == Number(Change(d, |d|, selected - target), |d|)
    ensures Payable(d, mints, target, maxSpends) ==>
              WorthOf(d, r) == target && coinsReturned == 0 && needed == 0 && (maxSpends < 0 || |r| <= maxSpends)
    ensures target > 0 && target % SmallestOf(d) == 0 && !Payable(d, mints, target, -1) ==>
              (r != [] <==> Value(d, held, |d|) >= target)
    ensures target > 0 && target % SmallestOf(d) == 0 && !Payable(d, mints, target, maxSpends) ==>
              (r != [] <==> Exceeds(d, held, target))
    ensures minimize && !Payable(d, mints, target, maxSpends) ==>
              var a, b := FirstChoice(d, held, target), SecondChoice(d, held, target);
              coinsReturned <= ChangeCount(d, a, target) &&
              (Number(b, |d|) <= maxSpends ==> coinsReturned <= ChangeCount(d, b, target))
    ensures !minimize && r != [] && !Payable(d, mints, target, maxSpends) ==>
              |r| <= Number(FirstChoice(d, held, target), |d|)
  {
    selected := selectedIn;
    needed := 0;
    var exact, used := GetIdealSpends(d, target, mints);
    PickWithin(d, held, |d|, target);
    PayableIff(d, mints, target, maxSpends);
    PayableIff(d, mints, target, -1);
    if exact {
      coinsReturned := 0;
      r, selected, picks := GetSpends(d, mints, used);
      if maxSpends < 0 || |r| <= maxSpends {
        return;
      }
      needed := |r|;
    }
    r, selected, coinsReturned, picks := SelectWithChange(d, target, selected, maxSpends, minimize, mints, held);
  }

  /** The second half: coins with change. */
  method SelectWithChange(d: seq<int>, target: int, selectedIn: int, maxSpends: int, minimize: bool, mints: seq<Mint>,
                          held: Counts)
    returns (r: seq<Mint>, selected: int, coinsReturned: int, ghost picks: seq<nat>)
    requires Chain(d) && held == Available(|d|, mints) && NonNeg(held) && Missed(d, held, target, maxSpends)
    ensures Lists(mints, picks, r)
    ensures coinsReturned == 0 ==> r == [] && selected == selectedIn
    ensures coinsReturned != 0 ==> target < selected == WorthOf(d, r) <= Value(d, held, |d|)
    ensures coinsReturned != 0 ==> coinsReturned == Number(Change(d, |d|, selected - target), |d|)
    ensures target > 0 && target % SmallestOf(d) == 0 ==> (coinsReturned != 0 <==> Exceeds(d, held, target))
    ensures target > 0 && target % SmallestOf(d) == 0 && Value(d, held, |d|) >= target &&
            Value(d, Pick(d, held, |d|, target), |d|) != target ==>
              coinsReturned != 0
    ensures minimize ==>
              var a, b := FirstChoice(d, held, target), SecondChoice(d, held, target);
              coinsReturned <= ChangeCount(d, a, target) &&
              (Number(b, |d|) <= maxSpends ==> coinsReturned <= ChangeCount(d, b, target))
    ensures !minimize && coinsReturned != 0 ==> |r| <= Number(FirstChoice(d, held, target), |d|)
  {
    ChangeFound(d, maxSpends, minimize, target, held);
    CalculatedBest(d, maxSpends, minimize, target, held);
    var used;
    coinsReturned, used := CalculateChange(d, maxSpends, minimize, target, held);
    if coinsReturned == 0 {
      r, selected, picks := [], selectedIn, [];
    } else {
      OpenPays(d, held, target, coinsReturned, used);
      ValueMono(d, used, held, |d|);
      r, selected, picks := GetSpends(d, mints, used);
    }
  }

  /** Without an exact payment within the limit, when change is found. */
  lemma ChangeFound(d: seq<int>, maxSpends: int, minimize: bool, target: int, held: Counts)
    requires Account(d, held) && Missed(d, held, target, maxSpends)
    ensures target > 0 && target % SmallestOf(d) == 0 ==>
              (Calculated(d, maxSpends, minimize, target, held).0 != 0 <==> Exceeds(d, held, target))
    ensures target > 0 && target % SmallestOf(d) == 0 && Value(d, held, |d|) >= target &&
            Value(d, Pick(d, held, |d|, target), |d|) != target ==>
              Calculated(d, maxSpends, minimize, target, held).0 != 0
  {
    if target > 0 && target % SmallestOf(d) == 0 {
      CalculatedIff(d, maxSpends, minimize, target, held);
      if Value(d, Pick(d, held, |d|, target), |d|) != target && Value(d, held, |d|) >= target {
        forall x | |x| == |d| && Within(x, held, |d|) ensures Value(d, x, |d|) != target {
          if Value(d, x, |d|) == target { GreedyComplete(d, held, target, x); }
        }
        CalculatedSucceeds(d, maxSpends, minimize, target, held);
      }
    }
  }
}
