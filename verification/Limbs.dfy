/** Little-endian numbers in base 2^32: their value, and what word-by-word carries,
    shifts and comparisons do to it. */
module Limbs {
  import opened Powers

  const BASE: nat := 0x1_0000_0000

  ghost predicate Words(s: seq<nat>) {
    forall i :: 0 <= i < |s| ==> s[i] < BASE
  }

  /** The number a word sequence denotes; word i weighs 2^(32*i). */
  ghost function Val(s: seq<nat>): nat {
    if s == [] then 0 else Val(s[..|s| - 1]) + s[|s| - 1] * Pow(BASE, |s| - 1)
  }

  /** 2^BITS for the given number of words. */
  ghost function Modulus(width: nat): (m: nat)
    ensures m > 0
  {
    Pow(BASE, width)
  }

  lemma ValStep(s: seq<nat>, i: nat)
    requires i < |s|
    ensures Val(s[..i + 1]) == Val(s[..i]) + s[i] * Pow(BASE, i)
  {
    assert s[..i + 1][..i] == s[..i];
  }

  lemma {:induction false} ValBound(s: seq<nat>)
    requires Words(s)
    ensures Val(s) < Pow(BASE, |s|)
  {
    if s != [] {
      var n := |s| - 1;
      ValBound(s[..n]);
      TopDigit(Val(s[..n]), s[n], Pow(BASE, n), BASE);
    }
  }

  lemma {:induction false} ValZeros(s: seq<nat>)
    requires forall i :: 0 <= i < |s| ==> s[i] == 0
    ensures Val(s) == 0
  {
    if s != [] {
      ValZeros(s[..|s| - 1]);
    }
  }

  /** Splitting at word k splits the value into remainder and quotient by 2^(32*k). */
  lemma {:induction false} ValSplit(s: seq<nat>, k: nat)
    requires k <= |s|
    ensures Val(s) == Val(s[..k]) + Val(s[k..]) * Pow(BASE, k)
    decreases |s|
  {
    if k == |s| {
      assert s[..k] == s;
    } else {
      var n := |s| - 1;
      var t := s[..n];
      ValSplit(t, k);
      assert t[..k] == s[..k];
      assert s[k..][..n - k] == t[k..];
      PowAdd(BASE, n - k, k);
      MulAssoc(s[n], Pow(BASE, n - k), Pow(BASE, k));
      DistributeRight(Val(t[k..]), s[n] * Pow(BASE, n - k), Pow(BASE, k));
    }
  }

  lemma ValDivMod(s: seq<nat>, k: nat)
    requires Words(s) && k <= |s|
    ensures Val(s) % Pow(BASE, k) == Val(s[..k])
    ensures Val(s) / Pow(BASE, k) == Val(s[k..])
  {
    ValSplit(s, k);
    ValBound(s[..k]);
    DivModUnique(Val(s), Pow(BASE, k), Val(s[k..]), Val(s[..k]));
  }

  /** Storing the low word and carrying the high one preserves the weighted total. */
  lemma CarrySplit(n: int, p: int)
    ensures (n % BASE) * p + (n / BASE) * (BASE * p) == n * p
  {
    var q, r := n / BASE, n % BASE;
    MulAssoc(q, BASE, p);
    DistributeRight(q * BASE, r, p);
  }

  /** A total that ends in `low + carry * 2^BITS` is `low` modulo 2^BITS. */
  lemma LowPart(total: int, low: int, carry: int, m: int)
    requires 0 <= low < m && total == low + carry * m
    ensures total % m == low
  {
    DivModUnique(total, m, carry, low);
  }

  /** The value determines the words. */
  lemma {:induction false} ValInjective(s: seq<nat>, t: seq<nat>)
    requires Words(s) && Words(t) && |s| == |t| && Val(s) == Val(t)
    ensures s == t
  {
    if s != [] {
      var n := |s| - 1;
      ValBound(s[..n]);
      ValBound(t[..n]);
      var p := Pow(BASE, n);
      DivModUnique(Val(s), p, s[n], Val(s[..n]));
      DivModUnique(Val(t), p, t[n], Val(t[..n]));
      ValInjective(s[..n], t[..n]);
      assert s == s[..n] + [s[n]];
      assert t == t[..n] + [t[n]];
    }
  }

  /** The most significant differing word decides the comparison. */
  lemma ValLess(s: seq<nat>, t: seq<nat>, i: nat)
    requires Words(s) && Words(t) && |s| == |t| && i < |s|
    requires s[i + 1..] == t[i + 1..] && s[i] < t[i]
    ensures Val(s) < Val(t)
  {
    ValSplit(s, i + 1);
    ValSplit(t, i + 1);
    ValStep(s, i);
    ValStep(t, i);
    ValBound(s[..i]);
    TopDigit(Val(s[..i]), s[i], Pow(BASE, i), t[i]);
  }

  /** Bitwise or on naturals. */
  function Or(x: nat, y: nat): nat
    decreases x + y
  {
    if x == 0 && y == 0 then 0
    else (if x % 2 == 1 || y % 2 == 1 then 1 else 0) + 2 * Or(x / 2, y / 2)
  }

  lemma {:induction false} OrZero(y: nat)
    ensures Or(0, y) == y && Or(y, 0) == y
  {
    if y > 0 {
      OrZero(y / 2);
    }
  }

  /** Or-ing numbers whose set bits are separated by position k is adding them. */
  lemma {:induction false} OrDisjoint(x: nat, y: nat, k: nat)
    requires y < Pow(2, k) && x % Pow(2, k) == 0
    ensures Or(x, y) == x + y && Or(y, x) == x + y
    decreases k
  {
    if k == 0 {
      OrZero(x);
    } else if x == 0 && y == 0 {
    } else {
      var p := Pow(2, k - 1);
      var q := x / Pow(2, k);
      assert x == q * (2 * p);
      assert x == 2 * (q * p);
      ModOfMultiple(q, p);
      OrDisjoint(x / 2, y / 2, k - 1);
    }
  }

  /** The bits word w keeps in a right shift by s bits. */
  function ShrKeep(w: nat, s: nat): nat
  {
    w / Pow(2, s)
  }

  /** What the word below j contributes to word j in a left shift by s bits. */
  ghost function ShlCarry(a: seq<nat>, s: nat, j: nat): nat
    requires s < 32 && j <= |a|
  {
    if j == 0 then 0 else ShrKeep(a[j - 1], 32 - s)
  }

  /** The bits word w keeps in a left shift by s bits. */
  function ShlKeep(w: nat, s: nat): nat
  {
    (w * Pow(2, s)) % BASE
  }

  /** Word j of a number shifted left by s < 32 bits. */
  ghost function ShlWord(a: seq<nat>, s: nat, j: nat): nat
    requires s < 32 && j < |a|
  {
    ShlKeep(a[j], s) + ShlCarry(a, s, j)
  }

  lemma PowTwo32()
    ensures Pow(2, 32) == BASE
  {
    assert Pow(2, 4) == 16;
    PowAdd(2, 4, 4);
    PowAdd(2, 8, 8);
    PowAdd(2, 16, 16);
  }

  /** Splitting a word at a bit position whose two sides multiply to the word size. */
  lemma ScaleSplit(w: int, hi: int, lo: int)
    requires hi > 0 && lo > 0 && hi * lo == BASE && 0 <= w < BASE
    ensures w * lo == (w % hi) * lo + (w / hi) * BASE
    ensures (w * lo) % BASE == (w % hi) * lo
    ensures ((w * lo) % BASE) % lo == 0
    ensures w / hi < lo
  {
    var q, r := w / hi, w % hi;
    ScaleProduct(w, hi, lo, q, r);
    DivModUnique(w * lo, BASE, q, r * lo);
    ModOfMultiple(r, lo);
    if q >= lo {
      MulMono(lo, q, hi);
    }
  }

  lemma ScaleProduct(w: int, hi: int, lo: int, q: int, r: int)
    requires hi * lo == BASE && w == q * hi + r && 0 <= r < hi && lo > 0
    ensures w * lo == q * BASE + r * lo && 0 <= r * lo < BASE
  {
    DistributeRight(q * hi, r, lo);
    MulAssoc(q, hi, lo);
    MulMono(r + 1, hi, lo);
    DistributeRight(r, 1, lo);
  }

  lemma BitSplit(s: nat)
    requires s <= 32
    ensures Pow(2, 32 - s) * Pow(2, s) == BASE
  {
    PowTwo32();
    PowAdd(2, 32 - s, s);
  }

  /** The bits a left shift pushes out of a word, and the ones it keeps. */
  lemma ShlSplit(w: nat, s: nat)
    requires w < BASE && s < 32
    ensures w * Pow(2, s) == ShlKeep(w, s) + ShrKeep(w, 32 - s) * BASE
    ensures ShrKeep(w, 32 - s) < Pow(2, s)
    ensures ShlKeep(w, s) % Pow(2, s) == 0
  {
    BitSplit(s);
    ScaleSplit(w, Pow(2, 32 - s), Pow(2, s));
  }

  lemma ShlWordBound(a: seq<nat>, s: nat, j: nat)
    requires Words(a) && s < 32 && j < |a|
    ensures ShlWord(a, s, j) < BASE
    ensures ShlWord(a, s, j) == Or(ShlCarry(a, s, j), ShlKeep(a[j], s))
  {
    ShlSplit(a[j], s);
    if j > 0 {
      ShlSplit(a[j - 1], s);
    }
    JoinHalves(ShlKeep(a[j], s), ShlCarry(a, s, j), s);
  }

  /** A word assembled from bits at and above position k and bits below it. */
  lemma JoinHalves(high: nat, low: nat, k: nat)
    requires k <= 32 && high < BASE && high % Pow(2, k) == 0 && low < Pow(2, k)
    ensures Or(high, low) == Or(low, high) == high + low < BASE
  {
    OrDisjoint(high, low, k);
    BitSplit(k);
    RoundedBelow(high, Pow(2, k), Pow(2, 32 - k));
  }

  /** The shifted words of a prefix, plus what falls off its end, are the shifted value. */
  lemma {:induction false} ShlValue(a: seq<nat>, s: nat, w: seq<nat>)
    requires Words(a) && s < 32 && |w| <= |a|
    requires forall j :: 0 <= j < |w| ==> w[j] == ShlWord(a, s, j)
    ensures Val(a[..|w|]) * Pow(2, s) == Val(w) + ShlCarry(a, s, |w|) * Pow(BASE, |w|)
  {
    if w != [] {
      var n := |w| - 1;
      ShlValue(a, s, w[..n]);
      ValStep(a, n);
      ShlSplit(a[n], s);
      ShlStep(Val(a[..n]), a[n], Val(w[..n]), ShlCarry(a, s, n), ShlKeep(a[n], s), ShlCarry(a, s, n + 1),
              Pow(2, s), Pow(BASE, n));
    } else {
      assert a[..0] == [];
    }
  }

  lemma ShlStep(u: int, x: int, v: int, carry: int, kept: int, out: int, lo: int, p: int)
    requires u * lo == v + carry * p
    requires x * lo == kept + out * BASE
    ensures (u + x * p) * lo == v + (kept + carry) * p + out * (BASE * p)
  {
    DistributeRight(u, x * p, lo);
    MulAssoc(x, p, lo);
    MulAssoc(x, lo, p);
    assert x * p * lo == x * lo * p;
    DistributeRight(kept, out * BASE, p);
    MulAssoc(out, BASE, p);
    DistributeRight(kept, carry, p);
  }

  /** What a shift of whole words leaves in each word. */
  lemma WholeWordShift(a: seq<nat>, j: nat)
    requires Words(a) && j <= |a|
    ensures ShlCarry(a, 0, j) == 0 && ShrCarry(a, 0, j) == 0
  {
    PowTwo32();
    if j > 0 {
      DivModUnique(a[j - 1], BASE, 0, a[j - 1]);
    }
    if j < |a| {
      ModOfMultiple(a[j], BASE);
    }
  }

  /** What the word above j - 1 contributes to word j - 1 in a right shift by s bits. */
  ghost function ShrCarry(a: seq<nat>, s: nat, j: nat): nat
    requires s < 32 && j <= |a|
  {
    if j == |a| then 0 else ShlKeep(a[j], 32 - s)
  }

  /** Word j of a number shifted right by s < 32 bits. */
  ghost function ShrWord(a: seq<nat>, s: nat, j: nat): nat
    requires s < 32 && j < |a|
  {
    ShrKeep(a[j], s) + ShrCarry(a, s, j + 1)
  }

  /** The low bits of word j, those a right shift moves out of it. */
  ghost function ShrLost(a: seq<nat>, s: nat, j: nat): nat
    requires s < 32 && j <= |a|
  {
    if j == |a| then 0 else a[j] % Pow(2, s)
  }

  /** The bits a right shift pushes out of a word reappear at the top of the next one. */
  lemma ShrSplit(w: nat, s: nat)
    requires w < BASE && s < 32
    ensures ShlKeep(w, 32 - s) == (w % Pow(2, s)) * Pow(2, 32 - s)
    ensures ShrKeep(w, s) < Pow(2, 32 - s)
    ensures ShlKeep(w, 32 - s) % Pow(2, 32 - s) == 0
  {
    BitSplit(32 - s);
    ScaleSplit(w, Pow(2, s), Pow(2, 32 - s));
  }

  lemma ShrCarryHigh(a: seq<nat>, s: nat, j: nat)
    requires Words(a) && s < 32 && j <= |a|
    ensures ShrCarry(a, s, j) < BASE && ShrCarry(a, s, j) % Pow(2, 32 - s) == 0
  {
    if j < |a| {
      ShrSplit(a[j], s);
    } else {
      ModOfMultiple(0, Pow(2, 32 - s));
    }
  }

  lemma ShrWordBound(a: seq<nat>, s: nat, j: nat)
    requires Words(a) && s < 32 && j < |a|
    ensures ShrWord(a, s, j) < BASE
    ensures ShrWord(a, s, j) == Or(ShrKeep(a[j], s), ShrCarry(a, s, j + 1))
  {
    ShrSplit(a[j], s);
    ShrCarryHigh(a, s, j + 1);
    JoinHalves(ShrCarry(a, s, j + 1), ShrKeep(a[j], s), 32 - s);
  }

  /** The right-shifted words, scaled back up, miss only the bits shifted out of word 0. */
  lemma {:induction false} ShrPrefix(a: seq<nat>, s: nat, w: seq<nat>)
    requires Words(a) && s < 32 && |w| <= |a| && a != []
    requires forall j :: 0 <= j < |w| ==> w[j] == ShrWord(a, s, j)
    ensures Val(w) * Pow(2, s) + ShrLost(a, s, 0) == Val(a[..|w|]) + ShrLost(a, s, |w|) * Pow(BASE, |w|)
  {
    if w != [] {
      var n := |w| - 1;
      ShrPrefix(a, s, w[..n]);
      ValStep(a, n);
      ShrLink(a, s, n);
      ShrSum(Val(w[..n]), w[n], ShrLost(a, s, 0), Val(a[..n]), a[n], ShrLost(a, s, n), ShrLost(a, s, n + 1),
             Pow(2, s), Pow(BASE, n));
    } else {
      assert a[..0] == [];
    }
  }

  /** One word of a right shift: what it keeps, gains and loses. */
  lemma ShrLink(a: seq<nat>, s: nat, j: nat)
    requires Words(a) && s < 32 && j < |a|
    ensures ShrWord(a, s, j) * Pow(2, s) + ShrLost(a, s, j) == a[j] + ShrLost(a, s, j + 1) * BASE
  {
    BitSplit(s);
    if j + 1 < |a| {
      ShrSplit(a[j + 1], s);
    }
    ShrLinkArith(a[j], ShrLost(a, s, j + 1), Pow(2, s), Pow(2, 32 - s));
  }

  lemma ShrLinkArith(x: int, next: int, lo: int, hi: int)
    requires lo > 0 && hi * lo == BASE
    ensures (x / lo + next * hi) * lo + x % lo == x + next * BASE
  {
    DistributeRight(x / lo, next * hi, lo);
    MulAssoc(next, hi, lo);
  }

  lemma ShrSum(v: int, word: int, first: int, u: int, x: int, lost: int, next: int, lo: int, p: int)
    requires v * lo + first == u + lost * p
    requires word * lo + lost == x + next * BASE
    ensures (v + word * p) * lo + first == u + x * p + next * (BASE * p)
  {
    DistributeRight(v, word * p, lo);
    MulAssoc(word, p, lo);
    MulAssoc(word, lo, p);
    assert word * p * lo == word * lo * p;
    DistributeRight(word * lo, lost, p);
    DistributeRight(x, next * BASE, p);
    MulAssoc(next, BASE, p);
  }

  lemma ShrValue(a: seq<nat>, s: nat, w: seq<nat>)
    requires Words(a) && s < 32 && |w| == |a|
    requires forall j :: 0 <= j < |w| ==> w[j] == ShrWord(a, s, j)
    ensures Val(w) == Val(a) / Pow(2, s)
  {
    if a != [] {
      ShrPrefix(a, s, w);
      assert a[..|w|] == a;
      assert ShrLost(a, s, 0) < Pow(2, s);
      DivModUnique(Val(a), Pow(2, s), Val(w), a[0] % Pow(2, s));
    } else {
      DivModUnique(0, Pow(2, s), 0, 0);
    }
  }

  /** Rearranging a product so that the word shift comes first. */
  lemma ShlFactor(v: nat, k: nat, s: nat)
    ensures v * Pow(2, 32 * k + s) == Pow(BASE, k) * (v * Pow(2, s))
  {
    PowTwo32();
    PowMul(2, 32, k);
    PowAdd(2, 32 * k, s);
    var pk, lo := Pow(BASE, k), Pow(2, s);
    MulAssoc(pk, v, lo);
    MulAssoc(v, pk, lo);
  }

  /** Shifting by at least the width clears the number. */
  lemma ShlGone(x: nat, k: nat, width: nat)
    requires k >= width
    ensures (Pow(BASE, k) * x) % Modulus(width) == 0
  {
    var p, m := Pow(BASE, k - width), Modulus(width);
    PowAdd(BASE, k - width, width);
    MulAssoc(p, m, x);
    MulAssoc(p, x, m);
    assert Pow(BASE, k) * x == (p * x) * m;
    ModOfMultiple(p * x, m);
  }

  /** Words above the kept prefix do not matter modulo its size. */
  lemma ShlPrefix(a: seq<nat>, m: nat, lo: nat)
    requires m <= |a|
    ensures (Val(a) * lo) % Pow(BASE, m) == (Val(a[..m]) * lo) % Pow(BASE, m)
  {
    ValSplit(a, m);
    ScaledPrefix(Val(a), Val(a[..m]), Val(a[m..]), Pow(BASE, m), lo);
  }

  lemma ScaledPrefix(v: int, low: int, above: int, p: int, lo: int)
    requires p > 0 && v == low + above * p
    ensures (v * lo) % p == (low * lo) % p
  {
    DistributeRight(low, above * p, lo);
    MulAssoc(above, p, lo);
    MulAssoc(above, lo, p);
    ModAddMultiple(low * lo, above * lo, p);
  }

  /** Word j of the result after the first i words of a were shifted left by k words and s bits. */
  ghost function ShlPartial(a: seq<nat>, k: nat, s: nat, i: nat, j: nat): nat
    requires s < 32 && i <= |a| && j < |a|
  {
    if j < k || j - k > i then 0
    else if j - k < i then ShlWord(a, s, j - k)
    else ShlCarry(a, s, i)
  }

  /** Word j of the result after the first i words of a were shifted right by k words and s bits. */
  ghost function ShrPartial(a: seq<nat>, k: nat, s: nat, i: nat, j: nat): nat
    requires s < 32 && i <= |a| && j < |a|
  {
    if j + k + 1 < i then ShrWord(a, s, j + k)
    else if j + k + 1 == i then ShrKeep(a[j + k], s)
    else 0
  }

  /** Left shift by whole words and bits, truncated to the width. */
  lemma ShlTotal(a: seq<nat>, k: nat, s: nat, out: seq<nat>)
    requires Words(a) && s < 32 && |out| == |a|
    requires forall j :: 0 <= j < |out| ==> out[j] == if j < k then 0 else ShlWord(a, s, j - k)
    ensures Val(out) == (Val(a) * Pow(2, 32 * k + s)) % Modulus(|a|)
  {
    var lo := Pow(2, s);
    ShlFactor(Val(a), k, s);
    if k >= |a| {
      ValZeros(out);
      ShlGone(Val(a) * lo, k, |a|);
    } else {
      var m := |a| - k;
      var w := out[k..];
      ShlKept(a, s, w);
      ValZeros(out[..k]);
      ValSplit(out, k);
      ShlPrefix(a, m, lo);
      ShlAssemble(Val(a) * lo, Val(w), Val(out), k, m);
    }
  }

  lemma ShlAssemble(x: int, kept: int, v: int, k: nat, m: nat)
    requires kept == x % Pow(BASE, m) && v == kept * Pow(BASE, k)
    ensures v == (Pow(BASE, k) * x) % Modulus(k + m)
  {
    PowAdd(BASE, k, m);
    ModScale(x, Pow(BASE, m), Pow(BASE, k));
  }

  lemma ShlKept(a: seq<nat>, s: nat, w: seq<nat>)
    requires Words(a) && s < 32 && 0 < |w| <= |a|
    requires forall j :: 0 <= j < |w| ==> w[j] == ShlWord(a, s, j)
    ensures Val(w) == (Val(a[..|w|]) * Pow(2, s)) % Pow(BASE, |w|)
  {
    assert Val(w) < Pow(BASE, |w|) by {
      forall j | 0 <= j < |w| ensures w[j] < BASE {
        ShlWordBound(a, s, j);
      }
      ValBound(w);
    }
    ShlValue(a, s, w);
    LowPart(Val(a[..|w|]) * Pow(2, s), Val(w), ShlCarry(a, s, |w|), Pow(BASE, |w|));
  }

  /** Right shift by whole words and bits. */
  lemma ShrTotal(a: seq<nat>, k: nat, s: nat, out: seq<nat>)
    requires Words(a) && s < 32 && |out| == |a|
    requires forall j :: 0 <= j < |out| ==>
               out[j] == if j + k < |a| then ShrWord(a, s, j + k) else 0
    ensures Val(out) == Val(a) / Pow(2, 32 * k + s)
  {
    PowTwo32();
    PowMul(2, 32, k);
    PowAdd(2, 32 * k, s);
    DivDiv(Val(a), Pow(BASE, k), Pow(2, s));
    if k >= |a| {
      ValZeros(out);
      ValBound(a);
      PowMono(BASE, |a|, k);
      DivModUnique(Val(a), Pow(BASE, k), 0, Val(a));
      DivModUnique(0, Pow(2, s), 0, 0);
    } else {
      var b, w := a[k..], out[..|a| - k];
      ValDivMod(a, k);
      forall j | 0 <= j < |w| ensures w[j] == ShrWord(b, s, j) {
        assert b[j] == a[j + k];
      }
      ShrValue(b, s, w);
      ValSplit(out, |w|);
      ValZeros(out[|w|..]);
    }
  }
}
