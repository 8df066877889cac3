/** `base_uint1<BITS>`: fixed-width unsigned integers on an array of 32-bit words, for
    any number of words. Every operator is specified on the number the words denote. */
module ArithUint {
  import opened Powers
  import opened Limbs

  const UINT64: nat := 0x1_0000_0000_0000_0000

  // ----- one step of each carry loop, on plain numbers -----

  lemma AddStep(low: int, carry: int, u: int, v: int, x: int, y: int, p: int)
    requires low + carry * p == u + v
    ensures var n := carry + x + y;
            low + (n % BASE) * p + (n / BASE) * (BASE * p) == u + x * p + (v + y * p)
  {
    var n := carry + x + y;
    CarrySplit(n, p);
    DistributeRight(carry + x, y, p);
    DistributeRight(carry, x, p);
  }

  lemma AddPrefixStep(low: seq<nat>, carry: nat, x: seq<nat>, y: seq<nat>, i: nat)
    requires i < |x| && i < |y| && |low| == i
    requires Val(low) + carry * Pow(BASE, i) == Val(x[..i]) + Val(y[..i])
    ensures var n := carry + x[i] + y[i];
            Val(low + [n % BASE]) + (n / BASE) * Pow(BASE, i + 1) == Val(x[..i + 1]) + Val(y[..i + 1])
  {
    var n := carry + x[i] + y[i];
    AddStep(Val(low), carry, Val(x[..i]), Val(y[..i]), x[i], y[i], Pow(BASE, i));
    ValStep(x, i);
    ValStep(y, i);
    ValAppend(low, n % BASE);
  }

  lemma ValAppend(s: seq<nat>, w: nat)
    ensures Val(s + [w]) == Val(s) + w * Pow(BASE, |s|)
  {
    assert (s + [w])[..|s|] == s;
  }

  lemma MulWordPrefixStep(low: seq<nat>, carry: nat, x: seq<nat>, k: nat, i: nat)
    requires i < |x| && |low| == i
    requires Val(low) + carry * Pow(BASE, i) == Val(x[..i]) * k
    ensures var n: int := carry + k * x[i];
            n >= 0 && Val(low + [n % BASE]) + (n / BASE) * Pow(BASE, i + 1) == Val(x[..i + 1]) * k
  {
    var n := carry + k * x[i];
    MulMono(0, k, x[i]);
    MulWordStep(Val(low), carry, Val(x[..i]), x[i], k, Pow(BASE, i));
    ValStep(x, i);
    ValAppend(low, n % BASE);
  }

  lemma MulWordStep(low: int, carry: int, u: int, x: int, k: int, p: int)
    requires low + carry * p == u * k
    ensures var n := carry + k * x;
            low + (n % BASE) * p + (n / BASE) * (BASE * p) == (u + x * p) * k
  {
    var n := carry + k * x;
    CarrySplit(n, p);
    DistributeRight(carry, k * x, p);
    DistributeRight(u, x * p, k);
    MulAssoc(k, x, p);
  }

  /** Inner loop of the schoolbook product: p = 2^(32*(i+j)) = pi * pj. */
  lemma MulStep(low: int, carry: int, v: int, u: int, x: int, k: int, y: int, pi: int, pj: int)
    requires low + carry * (pi * pj) == v + k * u * pj
    ensures var n := carry + x + k * y;
            var p := pi * pj;
            low + (n % BASE) * p + (n / BASE) * (BASE * p) == v + x * p + k * (u + y * pi) * pj
  {
    var n := carry + x + k * y;
    var p := pi * pj;
    CarrySplit(n, p);
    DistributeRight(carry + x, k * y, p);
    DistributeRight(carry, x, p);
    MulAssoc(k * y, pi, pj);
    MulAssoc(k, y, pi);
    assert k * (u + y * pi) == k * u + k * y * pi;
    DistributeRight(k * u, k * y * pi, pj);
  }

  /** The words below i + j and the carry account for i cells of a row. */
  ghost predicate RowHolds(low: seq<nat>, carry: int, x: seq<nat>, y: seq<nat>, k: nat, i: nat, j: nat)
    requires i + j <= |x| && i <= |y|
  {
    |low| == i + j &&
    Val(low) + carry * (Pow(BASE, i) * Pow(BASE, j)) == Val(x[..i + j]) + k * Val(y[..i]) * Pow(BASE, j)
  }

  lemma MulRowStep(low: seq<nat>, carry: nat, x: seq<nat>, y: seq<nat>, k: nat, i: nat, j: nat, n: int, m: nat)
    requires i + j < |x| && i < |y| && m == i + 1 && n == carry + x[i + j] + k * y[i]
    requires RowHolds(low, carry, x, y, k, i, j)
    ensures n >= 0 && RowHolds(low + [n % BASE], n / BASE, x, y, k, m, j)
  {
    MulMono(0, k, y[i]);
    var pi, pj := Pow(BASE, i), Pow(BASE, j);
    MulStep(Val(low), carry, Val(x[..i + j]), Val(y[..i]), x[i + j], k, y[i], pi, pj);
    PowAdd(BASE, i, j);
    MulAssoc(BASE, pi, pj);
    ValStep(x, i + j);
    ValStep(y, i);
    ValAppend(low, n % BASE);
  }

  /** The first i + j words, and the carry, after i cells of the row that adds k times y at word j. */
  ghost function Row(x: seq<nat>, y: seq<nat>, k: nat, i: nat, j: nat): (seq<nat>, nat)
    requires i + j <= |x| && i <= |y|
  {
    if i == 0 then (x[..j], 0) else
      var (w, c) := Row(x, y, k, i - 1, j);
      var n := c + x[i - 1 + j] + k * y[i - 1];
      (w + [n % BASE], n / BASE)
  }

  lemma {:induction false} RowValue(x: seq<nat>, y: seq<nat>, k: nat, i: nat, j: nat)
    requires i + j <= |x| && i <= |y|
    ensures RowHolds(Row(x, y, k, i, j).0, Row(x, y, k, i, j).1, x, y, k, i, j)
  {
    if i == 0 {
      assert y[..0] == [];
    } else {
      RowValue(x, y, k, i - 1, j);
      var (w, c) := Row(x, y, k, i - 1, j);
      var n := c + x[i - 1 + j] + k * y[i - 1];
      MulRowStep(w, c, x, y, k, i - 1, j, n, i);
      assert Row(x, y, k, i, j) == (w + [n % BASE], n / BASE);
    }
  }

  /** i cells of a row are done; shared says that both numbers are one array, which is then all zero. */
  ghost predicate RowState(w: seq<nat>, c: nat, x: seq<nat>, y: seq<nat>, k: nat, i: nat, j: nat, shared: bool) {
    i + j <= |x| && |w| == |x| == |y| && Words(w) && c < BASE && w[i + j..] == x[i + j..] &&
    (w[..i + j], c) == Row(x, y, k, i, j) &&
    (shared ==> c == 0 && forall h :: 0 <= h < |w| ==> w[h] == 0 && y[h] == 0)
  }

  lemma RowStart(x: seq<nat>, y: seq<nat>, k: nat, j: nat, shared: bool)
    requires j <= |x| == |y| && Words(x) && (shared ==> forall h :: 0 <= h < |x| ==> x[h] == 0 && y[h] == 0)
    ensures RowState(x, 0, x, y, k, 0, j, shared)
  {
  }

  lemma RowNext(w: seq<nat>, c: nat, x: seq<nat>, y: seq<nat>, k: nat, i: nat, j: nat, shared: bool, m: nat)
    requires RowState(w, c, x, y, k, i, j, shared) && i + j < |x| && Words(y) && k < BASE && m == i + 1
    ensures w[i + j] == x[i + j]
    ensures var n := c + x[i + j] + k * y[i];
            n >= 0 && (n / BASE < BASE ==> RowState(w[i + j := n % BASE], n / BASE, x, y, k, m, j, shared)) &&
            (shared ==> w[i + j := n % BASE] == w)
  {
    var at := i + j;
    var n := c + x[at] + k * y[i];
    MulMono(0, k, y[i]);
    assert w[at] == w[at..][0] == x[at..][0] == x[at];
    var v := w[at := n % BASE];
    assert v[..at + 1] == w[..at] + [n % BASE];
    assert v[at + 1..] == w[at..][1..] == x[at..][1..] == x[at + 1..];
    if shared {
      assert k * y[i] == 0;
      assert v == w;
    }
  }

  lemma RowEnd(w: seq<nat>, c: nat, x: seq<nat>, y: seq<nat>, k: nat, j: nat, shared: bool)
    requires j <= |x| && RowState(w, c, x, y, k, |x| - j, j, shared)
    ensures (w, c) == Row(x, y, k, |x| - j, j)
  {
    assert w[..|w|] == w;
  }

  lemma RowTotal(x: seq<nat>, y: seq<nat>, k: nat, j: nat, w: seq<nat>, c: nat)
    requires j < |x| == |y| && (w, c) == Row(x, y, k, |x| - j, j)
    ensures Val(w) + c * Modulus(|x|) == Val(x) + k * Val(y[..|x| - j]) * Pow(BASE, j)
  {
    RowValue(x, y, k, |x| - j, j);
    PowAdd(BASE, |x| - j, j);
    assert x[..|x|] == x;
  }

  /** A product of two words plus two words fits in 64 bits. */
  lemma ProductFits(a: int, b: int)
    requires 0 <= a < BASE && 0 <= b < BASE
    ensures 0 <= a * b <= (BASE - 1) * (BASE - 1)
  {
    MulMono(0, a, b);
    MulMono(a, BASE - 1, b);
    MulMono(b, BASE - 1, BASE - 1);
  }

  /** Outer loop of the schoolbook product: the words of b that overflow the width only
      add a multiple of the modulus. */
  lemma MulOuter(v': int, v: int, q: int, carry: int, k: int, u: int, b: int, bLow: int, bHigh: int,
                 pj: int, pRest: int, m: int)
    requires m == pRest * pj && b == bLow + bHigh * pRest
    requires v' + carry * m == v + k * bLow * pj
    requires v + q * m == u * b
    ensures v' + (q + carry + k * bHigh) * m == (u + k * pj) * b
  {
    DistributeRight(q + carry, k * bHigh, m);
    DistributeRight(q, carry, m);
    DistributeRight(u, k * pj, b);
    assert k * b == k * bLow + k * (bHigh * pRest);
    MulAssoc(k, bHigh, pRest);
    DistributeRight(k * bLow, k * bHigh * pRest, pj);
    MulAssoc(k * bHigh, pRest, pj);
    assert k * pj * b == k * b * pj by { MulAssoc(k, pj, b); MulAssoc(k, b, pj); }
  }

  lemma MulOuterStep(after: seq<nat>, before: seq<nat>, q: int, carry: int, a: seq<nat>, y: seq<nat>, j: nat)
    requires j < |a| == |y|
    requires Val(before) + q * Modulus(|a|) == Val(a[..j]) * Val(y)
    requires Val(after) + carry * Modulus(|a|) == Val(before) + a[j] * Val(y[..|a| - j]) * Pow(BASE, j)
    ensures Val(after) + (q + carry + a[j] * Val(y[|a| - j..])) * Modulus(|a|) == Val(a[..j + 1]) * Val(y)
  {
    var rest := |a| - j;
    ValSplit(y, rest);
    PowAdd(BASE, rest, j);
    ValStep(a, j);
    MulOuter(Val(after), Val(before), q, carry, a[j], Val(a[..j]), Val(y), Val(y[..rest]), Val(y[rest..]),
             Pow(BASE, j), Pow(BASE, rest), Modulus(|a|));
  }

  lemma {:induction false} ValOnes(s: seq<nat>)
    requires forall i :: 0 <= i < |s| ==> s[i] == BASE - 1
    ensures Val(s) == Pow(BASE, |s|) - 1
  {
    if s != [] {
      ValOnes(s[..|s| - 1]);
      DistributeRight(BASE - 1, 1, Pow(BASE, |s| - 1));
    }
  }

  lemma {:induction false} ValComplement(s: seq<nat>, t: seq<nat>)
    requires |s| == |t| && forall i :: 0 <= i < |s| ==> t[i] == BASE - 1 - s[i]
    ensures Val(s) + Val(t) == Pow(BASE, |s|) - 1
  {
    if s != [] {
      var n := |s| - 1;
      var p := Pow(BASE, n);
      ValComplement(s[..n], t[..n]);
      DistributeRight(s[n], t[n], p);
      DistributeRight(BASE - 1, 1, p);
    }
  }

  /** Raising one word raises the value by that much at the word's weight. */
  lemma ValRaise(s: seq<nat>, i: nat, d: nat, t: seq<nat>)
    requires i < |s| && t == s[i := s[i] + d]
    ensures Val(t) == Val(s) + d * Pow(BASE, i)
  {
    ValSplit(s, i + 1);
    ValSplit(t, i + 1);
    assert t[i + 1..] == s[i + 1..];
    ValStep(s, i);
    ValStep(t, i);
    assert t[..i] == s[..i];
    RaiseArith(Val(s), Val(t), Val(s[..i + 1]), Val(t[..i + 1]), Val(s[..i]), Val(s[i + 1..]) * Pow(BASE, i + 1),
               s[i], t[i], d, Pow(BASE, i));
  }

  lemma RaiseArith(v: int, v': int, low: int, low': int, u: int, top: int, x: int, y: int, d: int, p: int)
    requires v == low + top && v' == low' + top && low == u + x * p && low' == u + y * p && y == x + d
    ensures v' == v + d * p
  {
    DistributeRight(x, d, p);
  }

  lemma BitWeight(i: nat, e: nat, t: nat)
    requires t == 32 * i + e
    ensures Pow(2, e) * Pow(BASE, i) == Pow(2, t)
  {
    PowTwo32();
    PowMul(2, 32, i);
    PowAdd(2, e, 32 * i);
  }

  class BaseUint {
    const pn: array<nat>

    ghost predicate Valid()
      reads pn
    {
      Words(pn[..])
    }

    /** The number the words denote. */
    ghost function Value(): nat
      reads pn
    {
      Val(pn[..])
    }

    constructor Zero(width: nat)
      ensures fresh(pn) && pn.Length == width && Valid() && Value() == 0
    {
      pn := new nat[width](_ => 0);
      new;
      ValZeros(pn[..]);
    }

    constructor Copy(b: BaseUint)
      requires b.Valid()
      ensures fresh(pn) && pn.Length == b.pn.Length && Valid() && pn[..] == b.pn[..]
    {
      pn := new nat[b.pn.Length](i requires 0 <= i < b.pn.Length reads b.pn => b.pn[i]);
    }

    method Clear()
      modifies pn
      ensures Valid() && Value() == 0 && forall i :: 0 <= i < pn.Length ==> pn[i] == 0
    {
      for i := 0 to pn.Length
        invariant forall j :: 0 <= j < i ==> pn[j] == 0
      {
        pn[i] := 0;
      }
      ValZeros(pn[..]);
    }

    /** `operator+=`; b may be the same object. */
    method AddAssign(b: BaseUint)
      requires Valid() && b.Valid() && b.pn.Length == pn.Length
      modifies pn
      ensures Valid()
      ensures Value() == (old(Value()) + old(b.Value())) % Modulus(pn.Length)
    {
      ghost var x, y := pn[..], b.pn[..];
      var carry: nat := 0;
      for i := 0 to pn.Length
        invariant forall j :: i <= j < pn.Length ==> pn[j] == x[j] && b.pn[j] == y[j]
        invariant Words(pn[..]) && carry <= 1
        invariant Val(pn[..i]) + carry * Pow(BASE, i) == Val(x[..i]) + Val(y[..i])
      {
        var n := carry + pn[i] + b.pn[i];
        ghost var before := pn[..i];
        AddPrefixStep(before, carry, x, y, i);
        pn[i] := n % BASE;
        carry := n / BASE;
        assert pn[..i + 1] == before + [n % BASE];
      }
      assert pn[..pn.Length] == pn[..] && x[..pn.Length] == x && y[..pn.Length] == y;
      ValBound(pn[..]);
      LowPart(old(Value()) + old(b.Value()), Val(pn[..]), carry, Modulus(pn.Length));
    }

    /** Prefix `operator++`. */
    method Increment()
      requires Valid()
      modifies pn
      ensures Valid()
      ensures Value() == (old(Value()) + 1) % Modulus(pn.Length)
    {
      ghost var x := pn[..];
      var i := 0;
      while i < pn.Length
        invariant 0 <= i <= pn.Length
        invariant forall j :: 0 <= j < i ==> x[j] == BASE - 1 && pn[j] == 0
        invariant forall j :: i <= j < pn.Length ==> pn[j] == x[j]
      {
        pn[i] := (pn[i] + 1) % BASE;
        if pn[i] != 0 {
          break;
        }
        i := i + 1;
      }
      IncrementValue(x, pn[..], i);
    }

    /** Prefix `operator--`. */
    method Decrement()
      requires Valid()
      modifies pn
      ensures Valid()
      ensures Value() == if old(Value()) == 0 then Modulus(pn.Length) - 1 else old(Value()) - 1
    {
      ghost var x := pn[..];
      var i := 0;
      while i < pn.Length
        invariant 0 <= i <= pn.Length
        invariant forall j :: 0 <= j < i ==> x[j] == 0 && pn[j] == BASE - 1
        invariant forall j :: i <= j < pn.Length ==> pn[j] == x[j]
      {
        pn[i] := (pn[i] - 1) % BASE;
        if pn[i] != BASE - 1 {
          break;
        }
        i := i + 1;
      }
      if i < pn.Length {
        IncrementValue(pn[..], x, i);
        ValBound(x);
        ValBound(pn[..]);
        SmallSuccessor(Val(pn[..]), Val(x), x[i] * Pow(BASE, i), Modulus(pn.Length));
        ValAtLeast(x, i);
      } else {
        ValZeros(x);
        ValOnes(pn[..]);
      }
    }

    /** Unary `operator-`: complement every word, then add one. */
    method Negated() returns (r: BaseUint)
      requires Valid()
      ensures fresh(r) && fresh(r.pn) && r.Valid() && r.pn.Length == pn.Length
      ensures r.Value() == (Modulus(pn.Length) - Value()) % Modulus(pn.Length)
    {
      r := new BaseUint.Zero(pn.Length);
      for i := 0 to pn.Length
        invariant forall j :: 0 <= j < i ==> r.pn[j] == BASE - 1 - pn[j]
        invariant Words(r.pn[..])
        invariant unchanged(pn)
      {
        r.pn[i] := BASE - 1 - pn[i];
      }
      ValComplement(pn[..], r.pn[..]);
      r.Increment();
    }

    /** `operator-=`: adds the two's complement; b may be the same object. */
    method SubAssign(b: BaseUint)
      requires Valid() && b.Valid() && b.pn.Length == pn.Length
      modifies pn
      ensures Valid()
      ensures Value() == (old(Value()) - old(b.Value())) % Modulus(pn.Length)
      ensures old(Value()) >= old(b.Value()) ==> Value() == old(Value()) - old(b.Value())
    {
      assert Value() < Modulus(pn.Length) && b.Value() < Modulus(pn.Length) by {
        ValBound(pn[..]);
        ValBound(b.pn[..]);
      }
      SubtractMod(Value(), b.Value(), Modulus(pn.Length));
      var neg := b.Negated();
      AddAssign(neg);
    }

    /** `operator*=(uint32_t)`. */
    method MulWordAssign(k: nat)
      requires Valid() && k < BASE
      modifies pn
      ensures Valid()
      ensures Value() == (old(Value()) * k) % Modulus(pn.Length)
    {
      ghost var x := pn[..];
      var carry: nat := 0;
      for i := 0 to pn.Length
        invariant forall j :: i <= j < pn.Length ==> pn[j] == x[j]
        invariant Words(pn[..]) && carry < BASE
        invariant Val(pn[..i]) + carry * Pow(BASE, i) == Val(x[..i]) * k
      {
        ProductFits(k, x[i]);
        var n := carry + k * pn[i];
        assert 0 <= n < UINT64;
        ghost var before := pn[..i];
        MulWordPrefixStep(before, carry, x, k, i);
        pn[i] := n % BASE;
        carry := n / BASE;
        assert pn[..i + 1] == before + [n % BASE];
      }
      assert pn[..pn.Length] == pn[..] && x[..pn.Length] == x;
      ValBound(pn[..]);
      LowPart(old(Value()) * k, Val(pn[..]), carry, Modulus(pn.Length));
    }

    /** `operator*=(const base_uint1&)`. The left operand is copied and then cleared before
        b is read, so multiplying an object by itself in place yields zero. */
    method MulAssign(b: BaseUint)
      requires Valid() && b.Valid() && b.pn.Length == pn.Length
      modifies pn
      ensures Valid()
      ensures b.pn != pn ==> Value() == (old(Value()) * old(b.Value())) % Modulus(pn.Length)
      ensures b.pn == pn ==> Value() == 0
    {
      var width := pn.Length;
      var a := pn[..];
      Clear();
      ghost var y := b.pn[..];
      ghost var q := 0;
      assert a[..0] == [];
      for j := 0 to width
        invariant Words(pn[..]) && b.pn[..] == y
        invariant b.pn == pn ==> forall i :: 0 <= i < width ==> pn[i] == 0
        invariant Val(pn[..]) + q * Modulus(width) == Val(a[..j]) * Val(y)
      {
        ghost var before := pn[..];
        var carry := MulRow(b, a[j], j, before, y);
        MulOuterStep(pn[..], before, q, carry, a, y, j);
        q := q + carry + a[j] * Val(y[width - j..]);
      }
      assert a[..width] == a;
      ValBound(pn[..]);
      LowPart(Val(a) * Val(y), Val(pn[..]), q, Modulus(width));
      if b.pn == pn {
        ValZeros(pn[..]);
      }
    }

    /** One word of the product; the sum always fits in 64 bits. */
    method MulCell(b: BaseUint, k: nat, i: nat, j: nat, carry: nat) returns (out: nat)
      requires Valid() && b.Valid() && b.pn.Length == pn.Length && k < BASE && carry < BASE && i + j < pn.Length
      modifies pn
      ensures var n: int := carry + old(pn[i + j]) + k * old(b.pn[i]);
              0 <= n < UINT64 && out == n / BASE < BASE && pn[..] == old(pn[..])[i + j := n % BASE]
      ensures Valid()
    {
      ProductFits(k, b.pn[i]);
      var n: int := carry + pn[i + j] + k * b.pn[i];
      pn[i + j] := n % BASE;
      out := n / BASE;
    }

    /** The inner loop of the product: adds k times b, shifted by j words. */
    method MulRow(b: BaseUint, k: nat, j: nat, ghost x: seq<nat>, ghost y: seq<nat>) returns (carry: nat)
      requires Valid() && b.Valid() && b.pn.Length == pn.Length && k < BASE && j < pn.Length
      requires pn[..] == x && b.pn[..] == y
      requires b.pn == pn ==> forall i :: 0 <= i < pn.Length ==> pn[i] == 0
      modifies pn
      ensures Valid() && b.pn[..] == y
      ensures Val(pn[..]) + carry * Modulus(|x|) == Val(x) + k * Val(y[..|x| - j]) * Pow(BASE, j)
    {
      carry := MulCells(b, k, j, x, y);
      RowTotal(x, y, k, j, pn[..], carry);
    }

    method MulCells(b: BaseUint, k: nat, j: nat, ghost x: seq<nat>, ghost y: seq<nat>) returns (carry: nat)
      requires Valid() && b.Valid() && b.pn.Length == pn.Length && k < BASE && j < pn.Length
      requires pn[..] == x && b.pn[..] == y
      requires b.pn == pn ==> forall i :: 0 <= i < pn.Length ==> pn[i] == 0
      modifies pn
      ensures Valid() && b.pn[..] == y && |x| == |y| == pn.Length
      ensures (pn[..], carry) == Row(x, y, k, |x| - j, j)
    {
      carry := 0;
      RowStart(x, y, k, j, b.pn == pn);
      for i := 0 to pn.Length - j
        invariant b.pn[..] == y && RowState(pn[..], carry, x, y, k, i, j, b.pn == pn)
      {
        RowNext(pn[..], carry, x, y, k, i, j, b.pn == pn, i + 1);
        carry := MulCell(b, k, i, j, carry);
      }
      RowEnd(pn[..], carry, x, y, k, j, b.pn == pn);
    }

    /** `operator<<=` for a shift of any size. */
    method ShiftLeftAssign(shift: nat)
      requires Valid()
      modifies pn
      ensures Valid()
      ensures Value() == (old(Value()) * Pow(2, shift)) % Modulus(pn.Length)
    {
      var a := pn[..];
      Clear();
      var k, s := shift / 32, shift % 32;
      for i := 0 to pn.Length
        invariant forall j :: 0 <= j < pn.Length ==> pn[j] == ShlPartial(a, k, s, i, j)
      {
        ghost var w := pn[..];
        ShlBodyStep(w, a, k, s, i);
        if i + k + 1 < pn.Length && s != 0 {
          pn[i + k + 1] := Or(pn[i + k + 1], ShrKeep(a[i], 32 - s));
        }
        if i + k < pn.Length {
          pn[i + k] := Or(pn[i + k], ShlKeep(a[i], s));
        }
        assert pn[..] == ShlBody(w, a, k, s, i);
      }
      ShlFinish(a, k, s, pn[..]);
    }

    /** `operator>>=` for a shift of any size. */
    method ShiftRightAssign(shift: nat)
      requires Valid()
      modifies pn
      ensures Valid()
      ensures Value() == old(Value()) / Pow(2, shift)
    {
      var a := pn[..];
      Clear();
      var k, s := shift / 32, shift % 32;
      for i := 0 to pn.Length
        invariant ShrUpTo(a, k, s, i, pn[..])
      {
        ShiftRightWord(a, k, s, i);
      }
      ShrFinish(a, k, s, pn[..]);
    }

    /** Word i of a contributes to the words k and k + 1 below it. */
    method ShiftRightWord(a: seq<nat>, k: nat, s: nat, i: nat)
      requires Words(a) && |a| == pn.Length && i < pn.Length && s < 32 && ShrUpTo(a, k, s, i, pn[..])
      modifies pn
      ensures ShrUpTo(a, k, s, i + 1, pn[..])
    {
      if s == 0 {
        WholeWordShift(a, i);
      }
      if i - k - 1 >= 0 {
        ShrWordBound(a, s, i - 1);
      }
      if i - k - 1 >= 0 && s != 0 {
        pn[i - k - 1] := Or(pn[i - k - 1], ShlKeep(a[i], 32 - s));
      }
      if i - k >= 0 {
        OrZero(ShrKeep(a[i], s));
        pn[i - k] := Or(pn[i - k], ShrKeep(a[i], s));
      }
    }

    /** `CompareTo`: from the most significant word down. */
    method CompareTo(b: BaseUint) returns (c: int)
      requires Valid() && b.Valid() && b.pn.Length == pn.Length
      ensures c < 0 <==> Value() < b.Value()
      ensures c == 0 <==> Value() == b.Value()
      ensures c > 0 <==> Value() > b.Value()
    {
      for i := pn.Length downto 0
        invariant pn[i..] == b.pn[i..]
      {
        if pn[i] < b.pn[i] {
          ValLess(pn[..], b.pn[..], i);
          return -1;
        }
        if pn[i] > b.pn[i] {
          ValLess(b.pn[..], pn[..], i);
          return 1;
        }
      }
      assert pn[0..] == pn[..] && b.pn[0..] == b.pn[..];
      return 0;
    }

    /** `bits`: the position of the highest set bit plus one, or zero. */
    method Bits() returns (n: nat)
      requires Valid()
      ensures IsBitLength(Value(), n) && n <= 32 * pn.Length
    {
      for pos := pn.Length downto 0
        invariant forall j :: pos <= j < pn.Length ==> pn[j] == 0
      {
        if pn[pos] != 0 {
          var nbits := 31;
          PowTwo32();
          while nbits > 0
            invariant 0 <= nbits <= 31
            invariant pn[pos] < Pow(2, nbits + 1)
          {
            BitTest(pn[pos], nbits);
            if (pn[pos] / Pow(2, nbits)) % 2 == 1 {
              TopWordBits(pn[..], pos, nbits);
              return 32 * pos + nbits + 1;
            }
            nbits := nbits - 1;
          }
          TopWordBits(pn[..], pos, 0);
          return 32 * pos + 1;
        }
      }
      ValZeros(pn[..]);
      return 0;
    }

    /** `operator/=`: shift-and-subtract long division. The remainder is left in the scratch
        copy of the dividend. A zero divisor is an error, raised after the quotient was cleared. */
    method DivAssign(b: BaseUint) returns (ok: bool, num: BaseUint)
      requires Valid() && b.Valid() && b.pn.Length == pn.Length
      modifies pn
      ensures Valid() && num.Valid()
      ensures ok <==> old(b.Value()) != 0
      ensures ok ==> Value() == old(Value()) / old(b.Value()) && num.Value() == old(Value()) % old(b.Value())
      ensures !ok ==> Value() == 0
    {
      ghost var N, D := Value(), b.Value();
      var div := new BaseUint.Copy(b);
      num := new BaseUint.Copy(this);
      Clear();
      var numBits := num.Bits();
      var divBits := div.Bits();
      if divBits == 0 {
        return false, num;
      }
      if divBits > numBits {
        QuotientZero(N, D, numBits, divBits);
        return true, num;
      }
      var shift := numBits - divBits;
      div.ShiftLeftAssign(shift);
      AlignDivisor(N, D, numBits, divBits, pn.Length);
      LowBitsClearZeros(pn[..], shift + 1);
      assert DivHolds(N, D, Value(), num.Value(), div.Value(), shift);
      DivLoop(num, div, shift, N, D);
      ok := true;
    }

    /** The division loop: from the aligned divisor down to bit zero. */
    method DivLoop(num: BaseUint, div: BaseUint, start: nat, ghost N: nat, ghost D: nat)
      requires Valid() && num.Valid() && div.Valid() && num.pn.Length == div.pn.Length == pn.Length
      requires pn != num.pn && pn != div.pn && num.pn != div.pn && start < 32 * pn.Length
      requires DivHolds(N, D, Value(), num.Value(), div.Value(), start) && LowBitsClear(pn[..], start + 1)
      modifies pn, num.pn, div.pn
      ensures Valid() && num.Valid()
      ensures Value() == N / D && num.Value() == N % D
    {
      var shift: int := start;
      while shift >= 0
        invariant -1 <= shift < 32 * pn.Length
        invariant Valid() && num.Valid() && div.Valid()
        invariant DivHolds(N, D, Value(), num.Value(), div.Value(), shift)
        invariant LowBitsClear(pn[..], shift + 1)
      {
        DivBit(num, div, shift, N, D);
        shift := shift - 1;
      }
      DivDone(N, D, Value(), num.Value(), div.Value());
    }

    /** One iteration of the division loop: decides quotient bit `shift`. */
    method DivBit(num: BaseUint, div: BaseUint, shift: nat, ghost N: nat, ghost D: nat)
      requires Valid() && num.Valid() && div.Valid() && num.pn.Length == div.pn.Length == pn.Length
      requires pn != num.pn && pn != div.pn && num.pn != div.pn && shift < 32 * pn.Length
      requires DivHolds(N, D, Value(), num.Value(), div.Value(), shift) && LowBitsClear(pn[..], shift + 1)
      modifies pn, num.pn, div.pn
      ensures Valid() && num.Valid() && div.Valid()
      ensures DivHolds(N, D, Value(), num.Value(), div.Value(), shift - 1) && LowBitsClear(pn[..], shift)
    {
      DivStep(N, D, Value(), num.Value(), div.Value(), shift);
      LowerBitClear(pn[..], shift);
      assert Pow(2, 1) == 2;
      var c := num.CompareTo(div);
      if c >= 0 {
        num.SubAssign(div);
        SetBit(shift);
      }
      div.ShiftRightAssign(1);
    }

    /** Sets one bit of the quotient; or-ing into a word whose lower bits are clear adds. */
    method SetBit(t: nat)
      requires Valid() && t < 32 * pn.Length && LowBitsClear(pn[..], t + 1)
      modifies pn
      ensures Valid() && LowBitsClear(pn[..], t)
      ensures Value() == old(Value()) + Pow(2, t)
    {
      ghost var w := pn[..];
      var bit := Pow(2, t % 32);
      assert Or(w[t / 32], bit) == w[t / 32] + bit < BASE by {
        BitClear(w, t);
        SetBitWord(w[t / 32], t % 32);
      }
      pn[t / 32] := Or(pn[t / 32], bit);
      assert pn[..] == w[t / 32 := w[t / 32] + bit];
      assert LowBitsClear(pn[..], t) by {
        SetBitKeepsClear(w, t, pn[..]);
      }
      assert Val(pn[..]) == Val(w) + Pow(2, t) by {
        ValRaise(w, t / 32, bit, pn[..]);
        BitWeight(t / 32, t % 32, t);
      }
    }
  }

  /** Before the step for bit `shift`: the quotient bits above it are decided, and what is
      left of the dividend is below twice the aligned divisor. */
  ghost predicate DivHolds(N: nat, D: nat, q: nat, r: nat, div: nat, shift: int)
    requires shift >= -1
  {
    D > 0 && N == q * D + r && r < D * Pow(2, shift + 1) && (shift >= 0 ==> div == D * Pow(2, shift))
  }

  lemma DivDone(N: nat, D: nat, q: nat, r: nat, div: nat)
    requires DivHolds(N, D, q, r, div, -1)
    ensures D > 0 && q == N / D && r == N % D
  {
    DivModUnique(N, D, q, r);
  }

  lemma DivStep(N: nat, D: nat, q: nat, r: nat, div: nat, shift: nat)
    requires DivHolds(N, D, q, r, div, shift)
    ensures r >= div ==> DivHolds(N, D, q + Pow(2, shift), r - div, div / 2, shift - 1)
    ensures r < div ==> DivHolds(N, D, q, r, div / 2, shift - 1)
  {
    MulAssoc(D, 2, Pow(2, shift));
    DistributeRight(q, Pow(2, shift), D);
    if shift > 0 {
      HalfOfProduct(D, Pow(2, shift - 1));
    }
  }

  lemma HalfOfProduct(d: int, p: int)
    ensures (d * (2 * p)) / 2 == d * p
  {
    assert d * (2 * p) == 2 * (d * p);
  }

  lemma QuotientZero(N: nat, D: nat, n: nat, d: nat)
    requires IsBitLength(N, n) && IsBitLength(D, d) && d > n
    ensures N / D == 0 && N % D == N
  {
    PowMono(2, n, d - 1);
    DivModUnique(N, D, 0, N);
  }

  /** The aligned divisor does not overflow and exceeds half the dividend. */
  lemma AlignDivisor(N: nat, D: nat, n: nat, d: nat, width: nat)
    requires IsBitLength(N, n) && IsBitLength(D, d) && 0 < d <= n <= 32 * width
    ensures DivHolds(N, D, 0, N, (D * Pow(2, n - d)) % Modulus(width), n - d)
  {
    var p := Pow(2, n - d);
    PowAdd(2, d, n - d);
    MulMono(D, Pow(2, d), p);
    if p > 0 { MulMono(D + 1, Pow(2, d), p); DistributeRight(D, 1, p); }
    PowTwo32();
    PowMul(2, 32, width);
    PowMono(2, n, 32 * width);
    MulMono(0, D, p);
    DivModUnique(D * p, Modulus(width), 0, D * p);
    PowAdd(2, d - 1, n - d + 1);
    MulMono(Pow(2, d - 1), D, Pow(2, n - d + 1));
  }

  /** Bits below position t are clear. */
  ghost predicate LowBitsClear(s: seq<nat>, t: nat) {
    (forall j :: 0 <= j < |s| && j < t / 32 ==> s[j] == 0) &&
    (t / 32 < |s| ==> s[t / 32] % Pow(2, t % 32) == 0)
  }

  lemma LowBitsClearZeros(s: seq<nat>, t: nat)
    requires forall j :: 0 <= j < |s| ==> s[j] == 0
    ensures LowBitsClear(s, t)
  {
    ModOfMultiple(0, Pow(2, t % 32));
  }

  /** Clear below t + 1 means the word holding bit t is a multiple of twice that bit. */
  lemma BitClear(s: seq<nat>, t: nat)
    requires t < 32 * |s| && LowBitsClear(s, t + 1)
    ensures s[t / 32] % Pow(2, t % 32 + 1) == 0
  {
    var i, e := t / 32, t % 32;
    if e < 31 {
      assert (t + 1) / 32 == i && (t + 1) % 32 == e + 1;
    } else {
      assert (t + 1) / 32 == i + 1;
      ModOfMultiple(0, Pow(2, 32));
    }
  }

  lemma LowerBitClear(s: seq<nat>, t: nat)
    requires t < 32 * |s| && LowBitsClear(s, t + 1)
    ensures LowBitsClear(s, t)
  {
    BitClear(s, t);
    EvenMultiple(s[t / 32], Pow(2, t % 32));
    assert (t + 1) / 32 >= t / 32;
  }

  /** Setting the next lower bit keeps the bits below it clear. */
  lemma SetBitKeepsClear(s: seq<nat>, t: nat, s': seq<nat>)
    requires t < 32 * |s| && LowBitsClear(s, t + 1)
    requires s' == s[t / 32 := s[t / 32] + Pow(2, t % 32)]
    ensures LowBitsClear(s', t)
  {
    BitClear(s, t);
    EvenMultiple(s[t / 32], Pow(2, t % 32));
    assert (t + 1) / 32 >= t / 32;
  }

  lemma EvenMultiple(w: int, p: int)
    requires p > 0 && w % (2 * p) == 0
    ensures w % p == 0 && (w + p) % p == 0
  {
    var q := w / (2 * p);
    MulAssoc(q, 2, p);
    DivModUnique(w, p, q * 2, 0);
    DistributeRight(q * 2, 1, p);
    DivModUnique(w + p, p, q * 2 + 1, 0);
  }

  lemma SetBitWord(w: nat, e: nat)
    requires e < 32 && w < BASE && w % Pow(2, e + 1) == 0
    ensures Or(w, Pow(2, e)) == w + Pow(2, e) < BASE
  {
    JoinHalves(w, Pow(2, e), e + 1);
  }

  /** n is the number of significant bits of v. */
  ghost predicate IsBitLength(v: nat, n: nat) {
    v < Pow(2, n) && (n > 0 ==> Pow(2, n - 1) <= v)
  }

  lemma BitTest(w: nat, n: nat)
    requires w < Pow(2, n + 1)
    ensures (w / Pow(2, n)) % 2 == 1 <==> Pow(2, n) <= w
  {
    var p := Pow(2, n);
    if w < p {
      DivModUnique(w, p, 0, w);
    } else {
      DivModUnique(w, p, 1, w - p);
    }
  }

  lemma TopWordBits(s: seq<nat>, pos: nat, nbits: nat)
    requires Words(s) && pos < |s| && nbits < 32
    requires forall j :: pos < j < |s| ==> s[j] == 0
    requires Pow(2, nbits) <= s[pos] < Pow(2, nbits + 1)
    ensures IsBitLength(Val(s), 32 * pos + nbits + 1)
  {
    ValSplit(s, pos + 1);
    ValZeros(s[pos + 1..]);
    ValStep(s, pos);
    ValBound(s[..pos]);
    PowTwo32();
    PowMul(2, 32, pos);
    PowAdd(2, nbits, 32 * pos);
    PowAdd(2, nbits + 1, 32 * pos);
    var p := Pow(BASE, pos);
    MulMono(Pow(2, nbits), s[pos], p);
    TopDigit(Val(s[..pos]), s[pos], p, Pow(2, nbits + 1));
  }

  /** One iteration of the left-shift loop. */
  ghost function ShlBody(w: seq<nat>, a: seq<nat>, k: nat, s: nat, i: nat): seq<nat>
    requires |w| == |a| && i < |a| && s < 32
  {
    var w' := if i + k + 1 < |w| && s != 0
              then w[i + k + 1 := Or(w[i + k + 1], ShrKeep(a[i], 32 - s))] else w;
    if i + k < |w| then w'[i + k := Or(w'[i + k], ShlKeep(a[i], s))] else w'
  }

  lemma ShlBodyStep(w: seq<nat>, a: seq<nat>, k: nat, s: nat, i: nat)
    requires |w| == |a| && i < |a| && s < 32 && Words(a)
    requires forall j :: 0 <= j < |a| ==> w[j] == ShlPartial(a, k, s, i, j)
    ensures forall j :: 0 <= j < |a| ==> ShlBody(w, a, k, s, i)[j] == ShlPartial(a, k, s, i + 1, j)
  {
    if s == 0 {
      WholeWordShift(a, i);
      WholeWordShift(a, i + 1);
    }
    ShlWordBound(a, s, i);
    OrZero(ShrKeep(a[i], 32 - s));
  }

  lemma ShlFinish(a: seq<nat>, k: nat, s: nat, out: seq<nat>)
    requires Words(a) && s < 32 && |out| == |a|
    requires forall j :: 0 <= j < |a| ==> out[j] == ShlPartial(a, k, s, |a|, j)
    ensures Words(out) && Val(out) == (Val(a) * Pow(2, 32 * k + s)) % Modulus(|a|)
  {
    forall j | 0 <= j < |a|
      ensures out[j] < BASE && out[j] == if j < k then 0 else ShlWord(a, s, j - k)
    {
      if j >= k {
        ShlWordBound(a, s, j - k);
      }
    }
    ShlTotal(a, k, s, out);
  }

  /** The words after the first i words of a have been shifted. */
  ghost predicate ShrUpTo(a: seq<nat>, k: nat, s: nat, i: nat, out: seq<nat>)
    requires Words(a) && s < 32 && i <= |a|
  {
    |out| == |a| && forall j :: 0 <= j < |a| ==> out[j] == ShrPartial(a, k, s, i, j)
  }

  lemma ShrFinish(a: seq<nat>, k: nat, s: nat, out: seq<nat>)
    requires Words(a) && s < 32 && ShrUpTo(a, k, s, |a|, out)
    ensures Words(out) && Val(out) == Val(a) / Pow(2, 32 * k + s)
  {
    forall j | 0 <= j < |a|
      ensures out[j] < BASE && out[j] == if j + k < |a| then ShrWord(a, s, j + k) else 0
    {
      if j + k < |a| {
        ShrWordBound(a, s, j + k);
      }
    }
    ShrTotal(a, k, s, out);
  }

  lemma IncrementValue(x: seq<nat>, y: seq<nat>, i: nat)
    requires Words(x) && |x| == |y| && i <= |x|
    requires forall j :: 0 <= j < i ==> x[j] == BASE - 1 && y[j] == 0
    requires i < |x| ==> y[i] == x[i] + 1 < BASE && forall j :: i < j < |x| ==> y[j] == x[j]
    ensures Words(y)
    ensures Val(y) == (Val(x) + 1) % Modulus(|x|)
    ensures i < |x| ==> Val(y) == Val(x) + 1
  {
    if i < |x| {
      IncrementInside(x, y, i);
      ValBound(y);
      DivModUnique(Val(y), Modulus(|x|), 0, Val(y));
    } else {
      ValOnes(x);
      ValZeros(y);
      DivModUnique(Modulus(|x|), Modulus(|x|), 1, 0);
    }
  }

  lemma IncrementInside(x: seq<nat>, y: seq<nat>, i: nat)
    requires i < |x| == |y|
    requires forall j :: 0 <= j < i ==> x[j] == BASE - 1 && y[j] == 0
    requires y[i] == x[i] + 1 && forall j :: i < j < |x| ==> y[j] == x[j]
    ensures Val(y) == Val(x) + 1
  {
    IncrementPrefix(x, y, i);
    ValSplit(x, i + 1);
    ValSplit(y, i + 1);
    assert x[i + 1..] == y[i + 1..];
  }

  lemma IncrementPrefix(x: seq<nat>, y: seq<nat>, i: nat)
    requires i < |x| == |y| && y[i] == x[i] + 1
    requires forall j :: 0 <= j < i ==> x[j] == BASE - 1 && y[j] == 0
    ensures Val(y[..i + 1]) == Val(x[..i + 1]) + 1
  {
    ValOnes(x[..i]);
    ValZeros(y[..i]);
    ValStep(x, i);
    ValStep(y, i);
    DistributeRight(x[i], 1, Pow(BASE, i));
  }

  lemma ValAtLeast(s: seq<nat>, i: nat)
    requires i < |s| && s[i] > 0
    ensures Val(s) > 0
  {
    ValSplit(s, i + 1);
    ValStep(s, i);
    MulMono(1, s[i], Pow(BASE, i));
    MulMono(0, Val(s[i + 1..]), Pow(BASE, i + 1));
  }

  lemma SmallSuccessor(v: int, w: int, top: int, m: int)
    requires 0 <= v < m && 0 <= w < m && w == (v + 1) % m
    ensures w == 0 || w == v + 1
  {
    if v + 1 == m {
      DivModUnique(m, m, 1, 0);
    } else {
      DivModUnique(v + 1, m, 0, v + 1);
    }
  }

  lemma SubtractMod(a: int, b: int, m: int)
    requires 0 <= a < m && 0 <= b < m
    ensures (a + (m - b) % m) % m == (a - b) % m
    ensures a >= b ==> (a - b) % m == a - b
  {
    if b == 0 {
      DivModUnique(m, m, 1, 0);
    } else {
      DivModUnique(m - b, m, 0, m - b);
      ModAddMultiple(a - b, 1, m);
    }
    if a >= b {
      DivModUnique(a - b, m, 0, a - b);
    }
  }
}
