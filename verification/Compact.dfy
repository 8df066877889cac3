/** The compact target format: one exponent byte, a sign bit and 23 mantissa bits. */
module Compact {
  import opened Powers
  import opened Limbs
  import opened ArithUint

  const WIDTH: nat := 8
  const MANTISSA: nat := 0x80_0000
  const EXPONENT: nat := 0x100_0000

  function Mantissa(c: nat): nat { c % MANTISSA }

  function Exponent(c: nat): nat { c / EXPONENT }

  predicate SignBit(c: nat) { (c / MANTISSA) % 2 == 1 }

  /** mantissa * 256^(exponent - 3), rounded down when the exponent is below 3. */
  function Scaled(m: nat, e: nat): nat {
    if e <= 3 then m / Pow(256, 3 - e) else m * Pow(256, e - 3)
  }

  /** The number a compact encoding stands for, before truncation to 256 bits. */
  function Target(c: nat): nat {
    Scaled(Mantissa(c), Exponent(c))
  }

  /** The spacing of representable numbers at an exponent. */
  function Unit(e: nat): nat {
    if e <= 3 then 1 else Pow(256, e - 3)
  }

  /** v occupies exactly n bytes. */
  ghost predicate ByteLength(v: nat, n: nat) {
    v < Pow(256, n) && (n > 0 ==> Pow(256, n - 1) <= v)
  }

  function AppendBytes(v: nat, k: nat): nat {
    v * Pow(256, k)
  }

  function CutBytes(v: nat, k: nat): nat {
    v / Pow(256, k)
  }

  /** The leading three bytes of a number of n bytes. */
  function Leading(v: nat, n: nat): nat {
    if n <= 3 then AppendBytes(v, 3 - n) else CutBytes(v, n - 3)
  }

  /** The encoding of a number of n bytes: a set sign bit is avoided by one more exponent step. */
  function Encode(v: nat, n: nat): nat {
    if Leading(v, n) >= MANTISSA
    then Leading(v, n) / 256 + (n + 1) * EXPONENT
    else Leading(v, n) + n * EXPONENT
  }

  lemma BytesOfBits(v: nat, bits: nat)
    requires IsBitLength(v, bits)
    ensures ByteLength(v, (bits + 7) / 8)
  {
    var n := (bits + 7) / 8;
    assert Pow(2, 8) == 256;
    PowMul(2, 8, n);
    PowMono(2, bits, 8 * n);
    if n > 0 {
      PowMul(2, 8, n - 1);
      PowMono(2, 8 * (n - 1), bits - 1);
    }
  }

  lemma ByteLengthUnique(v: nat, m: nat, n: nat)
    requires ByteLength(v, m) && ByteLength(v, n)
    ensures m == n
  {
    if m < n {
      PowMono(256, m, n - 1);
    } else if n < m {
      PowMono(256, n, m - 1);
    }
  }

  /** Three leading bytes: the first of them is not zero. */
  lemma LeadingRange(v: nat, n: nat)
    requires ByteLength(v, n)
    ensures Leading(v, n) < EXPONENT && (v > 0 ==> n > 0 && 0x1_0000 <= Leading(v, n))
  {
    assert Pow(256, 2) == 0x1_0000 && Pow(256, 3) == EXPONENT;
    if n > 3 {
      var p := Pow(256, n - 3);
      PowAdd(256, 3, n - 3);
      PowAdd(256, 2, n - 3);
      DivBounds(v, p, 0x1_0000, EXPONENT);
    } else {
      var p := Pow(256, 3 - n);
      PowAdd(256, n, 3 - n);
      MulMono(v + 1, Pow(256, n), p);
      DistributeRight(v, 1, p);
      if n > 0 {
        PowAdd(256, n - 1, 3 - n);
        MulMono(Pow(256, n - 1), v, p);
      }
    }
  }

  lemma DivBounds(v: int, p: int, lo: int, hi: int)
    requires p > 0 && lo * p <= v < hi * p
    ensures lo <= v / p < hi
  {
    var q, r := v / p, v % p;
    assert v == q * p + r;
    if q < lo {
      MulMono(q + 1, lo, p);
      DistributeRight(q, 1, p);
    }
    if q >= hi {
      MulMono(hi, q, p);
    }
  }

  lemma EncodeFields(v: nat, n: nat)
    requires ByteLength(v, n)
    ensures !SignBit(Encode(v, n))
    ensures if Leading(v, n) >= MANTISSA
            then Mantissa(Encode(v, n)) == Leading(v, n) / 256 && Exponent(Encode(v, n)) == n + 1
            else Mantissa(Encode(v, n)) == Leading(v, n) && Exponent(Encode(v, n)) == n
  {
    LeadingRange(v, n);
    if Leading(v, n) >= MANTISSA {
      PackedFields(Leading(v, n) / 256, n + 1);
    } else {
      PackedFields(Leading(v, n), n);
    }
  }

  lemma PackedFields(m: nat, e: nat)
    requires m < MANTISSA
    ensures var c := m + e * EXPONENT; Mantissa(c) == m && Exponent(c) == e && !SignBit(c)
  {
    var c := m + e * EXPONENT;
    DivModUnique(c, EXPONENT, e, m);
    DivModUnique(c, MANTISSA, 2 * e, m);
  }

  /** Decoding an encoding rounds down by less than one unit, and encodes to the same bits. */
  lemma RoundTrip(v: nat, n: nat)
    requires ByteLength(v, n)
    ensures Target(Encode(v, n)) <= v < Target(Encode(v, n)) + Unit(Exponent(Encode(v, n)))
    ensures ByteLength(Target(Encode(v, n)), n)
    ensures Encode(Target(Encode(v, n)), n) == Encode(v, n)
  {
    EncodeFields(v, n);
    LeadingRange(v, n);
    var m := Leading(v, n);
    if m < MANTISSA {
      if n <= 3 {
        ModOfMultiple(v, Pow(256, 3 - n));
      } else {
        Rounded(v, n, Pow(256, n - 3), n - 3);
      }
    } else if n <= 2 {
      assert Pow(256, 3 - n) == 256 * Pow(256, 2 - n);
      MulAssoc(v, Pow(256, 2 - n), 256);
      ModOfMultiple(v, Pow(256, 2 - n));
      ModOfMultiple(v * Pow(256, 2 - n), 256);
    } else {
      assert m / 256 == v / Pow(256, n - 2) by {
        if n == 3 {
          assert Pow(256, 0) == 1 && Pow(256, 1) == 256;
        } else {
          DivDiv(v, Pow(256, n - 3), 256);
        }
      }
      Rounded(v, n, Pow(256, n - 2), n - 2);
      LeadingOfRounded(v, n);
    }
  }

  /** Rounding down to a multiple of 256^k, k < n, keeps the number of bytes. */
  lemma Rounded(v: nat, n: nat, p: nat, k: nat)
    requires ByteLength(v, n) && k < n && p == Pow(256, k)
    ensures (v / p) * p <= v < (v / p) * p + p
    ensures ByteLength((v / p) * p, n)
    ensures ((v / p) * p) / p == v / p
  {
    var q := v / p;
    assert v == q * p + v % p;
    ModOfMultiple(q, p);
    var lead := Pow(256, n - 1 - k);
    PowAdd(256, n - 1 - k, k);
    if q < lead {
      MulMono(q + 1, lead, p);
      DistributeRight(q, 1, p);
    }
    MulMono(lead, q, p);
  }

  /** Clearing the third leading byte leaves the sign position set. */
  lemma LeadingOfRounded(v: nat, n: nat)
    requires n >= 3 && ByteLength(v, n) && Leading(v, n) >= MANTISSA
    ensures var y: int := (v / Pow(256, n - 2)) * Pow(256, n - 2);
            y >= 0 && Leading(y, n) >= MANTISSA && Leading(y, n) / 256 == Leading(v, n) / 256
  {
    var p := Pow(256, n - 3);
    var q := v / (256 * p);
    assert q >= 0;
    DivDiv(v, p, 256);
    MulAssoc(q, 256, p);
    assert v / Pow(256, n - 2) == q;
    ModOfMultiple(q * 256, p);
    if n == 3 {
      assert p == 1;
    }
    assert Leading(v, n) == v / p;
    assert q == (v / p) / 256;
  }

  lemma Modulus256()
    ensures Modulus(WIDTH) == Pow(256, 32)
  {
    assert Pow(256, 4) == BASE;
    PowMul(256, 4, 8);
  }

  /** The overflow test of `SetCompact` says exactly that the target needs more than 256 bits. */
  lemma OverflowExact(m: nat, e: nat)
    requires m < MANTISSA
    ensures (m != 0 && (e > 34 || (m > 0xff && e > 33) || (m > 0xffff && e > 32)))
       <==> e > 3 && m * Pow(256, e - 3) >= Modulus(WIDTH)
  {
    Modulus256();
    if e > 34 {
      HighExponent(m, e - 3, Pow(256, 32));
    } else if e > 31 {
      MiddleExponent(m, e, Pow(256, 32));
    } else if e > 3 {
      PowPositiveBelow(m, e);
    }
  }

  lemma HighExponent(m: nat, n: nat, top: nat)
    requires n >= 32 && top == Pow(256, 32)
    ensures m * Pow(256, n) >= top <==> m > 0
  {
    PowMono(256, 32, n);
    if m > 0 { MulMono(1, m, Pow(256, n)); }
  }

  lemma MiddleExponent(m: nat, e: nat, top: nat)
    requires 31 < e <= 34 && top == Pow(256, 32)
    ensures m * Pow(256, e - 3) >= top <==> m >= (if e == 34 then 0x100 else if e == 33 then 0x1_0000 else EXPONENT)
  {
    var k, p := Pow(256, 35 - e), Pow(256, e - 3);
    PowAdd(256, 35 - e, e - 3);
    assert k == (if e == 34 then 0x100 else if e == 33 then 0x1_0000 else EXPONENT) by {
      assert Pow(256, 0) == 1 && Pow(256, 1) == 256 && Pow(256, 2) == 0x1_0000 && Pow(256, 3) == EXPONENT;
    }
    Threshold(m, k, p);
  }

  lemma Threshold(m: int, k: int, p: int)
    requires p > 0
    ensures m * p >= k * p <==> m >= k
  {
    if m >= k {
      MulMono(k, m, p);
    } else {
      MulMono(m + 1, k, p);
      DistributeRight(m, 1, p);
    }
  }

  lemma PowPositiveBelow(m: nat, e: nat)
    requires m < MANTISSA && 3 < e <= 31
    ensures m * Pow(256, e - 3) < Pow(256, 32)
  {
    assert Pow(256, 3) == EXPONENT;
    PowAdd(256, 3, e - 3);
    PowMono(256, e, 32);
    MulMono(m + 1, EXPONENT, Pow(256, e - 3));
    DistributeRight(m, 1, Pow(256, e - 3));
  }

  lemma PowBytes(k: nat)
    ensures Pow(2, 8 * k) == Pow(256, k)
  {
    assert Pow(2, 8) == 256;
    PowMul(2, 8, k);
  }

  /** Assignment from a 32-bit word. */
  method AssignWord(x: BaseUint, w: nat)
    requires x.pn.Length == WIDTH && w < BASE
    modifies x.pn
    ensures x.Valid() && x.Value() == w
  {
    x.Clear();
    ghost var z := x.pn[..];
    x.pn[0] := w;
    assert x.pn[..] == z[0 := z[0] + w];
    ValRaise(z, 0, w, x.pn[..]);
    assert Pow(BASE, 0) == 1;
  }

  /** `SetCompact`: the value is the target modulo 2^256, and overflow means it did not fit. */
  method SetCompact(x: BaseUint, c: nat) returns (negative: bool, overflow: bool)
    requires x.pn.Length == WIDTH && c < BASE
    modifies x.pn
    ensures x.Valid() && x.Value() == Target(c) % Modulus(WIDTH)
    ensures overflow <==> Target(c) >= Modulus(WIDTH)
    ensures negative <==> SignBit(c) && (if Exponent(c) <= 3 then Target(c) else Mantissa(c)) != 0
  {
    var size := c / EXPONENT;
    var word: nat := c % MANTISSA;
    Modulus256();
    assert Pow(256, 4) == BASE;
    PowMono(256, 4, 32);
    if size <= 3 {
      word := Scaled(word, size);
      DivShrinks(c % MANTISSA, Pow(256, 3 - size));
      AssignWord(x, word);
      DivModUnique(word, Modulus(WIDTH), 0, word);
    } else {
      AssignWord(x, word);
      x.ShiftLeftAssign(8 * (size - 3));
      PowBytes(size - 3);
    }
    negative := word != 0 && (c / MANTISSA) % 2 == 1;
    overflow := word != 0 && (size > 34 || (word > 0xff && size > 33) || (word > 0xffff && size > 32));
    OverflowExact(word, size);
  }

  lemma DivShrinks(v: nat, p: nat)
    requires p > 0
    ensures 0 <= v / p <= v
  {
    var q := v / p;
    assert v == q * p + v % p;
    MulMono(1, p, q);
  }

  /** `GetLow64` of a number below 2^64 is the number. */
  method GetLow64(x: BaseUint) returns (r: nat)
    requires x.Valid() && x.pn.Length >= 2
    ensures r == x.Value() % UINT64
    ensures x.Value() < UINT64 ==> r == x.Value()
  {
    PowTwo32();
    ModOfMultiple(x.pn[1], BASE);
    OrDisjoint(x.pn[1] * BASE, x.pn[0], 32);
    r := Or(x.pn[0], x.pn[1] * BASE);
    LowTwoWords(x.pn[..]);
  }

  lemma LowTwoWords(s: seq<nat>)
    requires Words(s) && |s| >= 2
    ensures s[0] + s[1] * BASE == Val(s) % UINT64 && (Val(s) < UINT64 ==> s[0] + s[1] * BASE == Val(s))
  {
    ValDivMod(s, 2);
    assert Pow(BASE, 2) == UINT64 && Pow(BASE, 0) == 1 && Pow(BASE, 1) == BASE;
    ValStep(s, 1);
    ValStep(s, 0);
    assert s[..0] == [];
  }

  /** The low 64 bits after dropping k bytes. */
  method DropBytes(x: BaseUint, k: nat) returns (w: nat)
    requires x.Valid() && x.pn.Length == WIDTH
    ensures CutBytes(x.Value(), k) < UINT64 ==> w == CutBytes(x.Value(), k)
  {
    var bn := new BaseUint.Copy(x);
    bn.ShiftRightAssign(8 * k);
    PowBytes(k);
    w := GetLow64(bn);
  }

  /** The leading three bytes of a value of `size` bytes, by shifting left or right. */
  method LeadingWord(x: BaseUint, size: nat) returns (w: nat)
    requires x.Valid() && x.pn.Length == WIDTH && ByteLength(x.Value(), size)
    ensures w == Leading(x.Value(), size)
  {
    LeadingRange(x.Value(), size);
    if size <= 3 {
      var low := GetLow64(x);
      SmallValue(x.Value(), size);
      w := AppendBytes(low, 3 - size);
    } else {
      w := DropBytes(x, size - 3);
    }
  }

  lemma SmallValue(v: nat, n: nat)
    requires v < Pow(256, n) && n <= 3
    ensures v < EXPONENT
  {
    PowMono(256, n, 3);
    assert Pow(256, 3) == EXPONENT;
  }

  /** `GetCompact`: the encoding of the value for the number of bytes it occupies, with the
      sign bit added on request when the mantissa is not zero. */
  method GetCompact(x: BaseUint, negative: bool) returns (c: nat, ghost bytes: nat)
    requires x.Valid() && x.pn.Length == WIDTH
    ensures ByteLength(x.Value(), bytes) && c < BASE
    ensures var e := Encode(x.Value(), bytes);
            c == if negative && Mantissa(e) != 0 then e + MANTISSA else e
  {
    var bits := x.Bits();
    var size := (bits + 7) / 8;
    bytes := size;
    BytesOfBits(x.Value(), bits);
    LeadingRange(x.Value(), size);
    c := LeadingWord(x, size);
    c := Pack(c, size, negative);
  }

  /** The tail of `GetCompact`: keeps the sign position clear, then packs exponent and sign. */
  method Pack(w: nat, n: nat, negative: bool) returns (c: nat)
    requires w < EXPONENT && n <= 32
    ensures c < BASE
    ensures var e := if w >= MANTISSA then w / 256 + (n + 1) * EXPONENT else w + n * EXPONENT;
            c == if negative && Mantissa(e) != 0 then e + MANTISSA else e
  {
    c := w;
    var size := n;
    if (c / MANTISSA) % 2 == 1 {
      c := c / 256;
      size := size + 1;
    }
    assert c < MANTISSA && size < 256;
    PackedFields(c, size);
    c := c + size * EXPONENT;
    if negative && c % MANTISSA != 0 {
      c := c + MANTISSA;
    }
  }

  /** Encoding a target and reading it back, for every 256-bit number: never above it, less
      than one unit below it, and a fixed point of a second round. */
  method CompactRoundTrip(x: BaseUint) returns (c: nat, y: BaseUint, c': nat)
    requires x.Valid() && x.pn.Length == WIDTH
    ensures y.Valid() && y.Value() == Target(c)
    ensures y.Value() <= x.Value() < y.Value() + Unit(Exponent(c))
    ensures c' == c && !SignBit(c)
  {
    ghost var n, n';
    c, n := GetCompact(x, false);
    RoundTrip(x.Value(), n);
    EncodeFields(x.Value(), n);
    y := new BaseUint.Zero(WIDTH);
    var negative, overflow := SetCompact(y, c);
    ValBound(x.pn[..]);
    DivModUnique(Target(c), Modulus(WIDTH), 0, Target(c));
    c', n' := GetCompact(y, false);
    ByteLengthUnique(y.Value(), n, n');
  }
}
