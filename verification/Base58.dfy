/** Base 58 text for byte strings, with and without a checksum. */
module Base58 {
  import opened Powers

  // ----- big-endian digits -----

  ghost predicate Digits(b: nat, s: seq<nat>) {
    forall i :: 0 <= i < |s| ==> s[i] < b
  }

  /** The number denoted, most significant digit first. */
  ghost function Num(b: nat, s: seq<nat>): nat {
    if s == [] then 0 else Num(b, s[..|s| - 1]) * b + s[|s| - 1]
  }

  lemma NumAppend(b: nat, s: seq<nat>, x: nat)
    ensures Num(b, s + [x]) == Num(b, s) * b + x
  {
    assert (s + [x])[..|s|] == s;
  }

  /** The first digit weighs most. */
  lemma {:induction false} NumCons(b: nat, x: nat, s: seq<nat>)
    ensures Num(b, [x] + s) == x * Pow(b, |s|) + Num(b, s)
  {
    if s == [] {
      assert [x] + s == [x];
      NumAppend(b, [], x);
    } else {
      var t, y := s[..|s| - 1], s[|s| - 1];
      NumCons(b, x, t);
      assert [x] + s == ([x] + t) + [y];
      NumAppend(b, [x] + t, y);
      Carried(x, Pow(b, |t|), Num(b, t), b);
    }
  }

  lemma Carried(x: int, p: int, v: int, b: int)
    ensures (x * p + v) * b == x * (b * p) + v * b
  {
    DistributeRight(x * p, v, b);
    MulAssoc(x, p, b);
    assert p * b == b * p;
  }

  lemma {:induction false} NumBound(b: nat, s: seq<nat>)
    requires Digits(b, s)
    ensures Num(b, s) < Pow(b, |s|)
  {
    if s != [] {
      var v, x, p := Num(b, s[..|s| - 1]), s[|s| - 1], Pow(b, |s| - 1);
      NumBound(b, s[..|s| - 1]);
      BelowNext(v, x, p, b);
    }
  }

  lemma BelowNext(v: int, x: int, p: int, b: int)
    requires v < p && x < b && b >= 0
    ensures v * b + x < b * p
  {
    MulMono(v + 1, p, b);
    DistributeRight(v, 1, b);
  }

  function LeadingZeros(s: seq<nat>): (z: nat)
    ensures z <= |s| && (forall i :: 0 <= i < z ==> s[i] == 0) && (z < |s| ==> s[z] != 0)
  {
    if s == [] || s[0] != 0 then 0 else 1 + LeadingZeros(s[1..])
  }

  lemma {:induction false} NumZeros(b: nat, s: seq<nat>, k: nat)
    requires k <= |s| && forall i :: 0 <= i < k ==> s[i] == 0
    ensures Num(b, s) == Num(b, s[k..])
    decreases k
  {
    if k > 0 {
      NumCons(b, s[0], s[1..]);
      assert s == [s[0]] + s[1..];
      NumZeros(b, s[1..], k - 1);
      assert s[1..][k - 1..] == s[k..];
    } else {
      assert s[0..] == s;
    }
  }

  /** A number without leading zeros is at least the weight of its first digit. */
  lemma NumLarge(b: nat, s: seq<nat>)
    requires s != [] && s[0] != 0
    ensures Num(b, s) >= Pow(b, |s| - 1)
  {
    NumCons(b, s[0], s[1..]);
    assert s == [s[0]] + s[1..];
    MulMono(1, s[0], Pow(b, |s| - 1));
  }

  lemma {:induction false} NumInjective(b: nat, s: seq<nat>, t: seq<nat>)
    requires Digits(b, s) && Digits(b, t) && |s| == |t| && Num(b, s) == Num(b, t)
    ensures s == t
  {
    if s != [] {
      var n := |s| - 1;
      DivModUnique(Num(b, s), b, Num(b, s[..n]), s[n]);
      DivModUnique(Num(b, t), b, Num(b, t[..n]), t[n]);
      NumInjective(b, s[..n], t[..n]);
      assert s == s[..n] + [s[n]] && t == t[..n] + [t[n]];
    }
  }

  /** Numbers without leading zeros are determined by their value. */
  lemma MinimalUnique(b: nat, s: seq<nat>, t: seq<nat>)
    requires b > 0 && Digits(b, s) && Digits(b, t) && Num(b, s) == Num(b, t)
    requires (s == [] || s[0] != 0) && (t == [] || t[0] != 0)
    ensures s == t
  {
    if |s| < |t| {
      MinimalShorter(b, s, t);
    } else if |t| < |s| {
      MinimalShorter(b, t, s);
    } else {
      NumInjective(b, s, t);
    }
  }

  lemma MinimalShorter(b: nat, s: seq<nat>, t: seq<nat>)
    requires b > 0 && Digits(b, s) && |s| < |t| && t[0] != 0
    ensures Num(b, s) < Num(b, t)
  {
    NumBound(b, s);
    NumLarge(b, t);
    PowMono(b, |s|, |t| - 1);
  }

  /** Same leading zeros and same number, perhaps in different bases. */
  ghost predicate SameNumber(b: nat, s: seq<nat>, c: nat, t: seq<nat>) {
    LeadingZeros(s) == LeadingZeros(t) && Num(b, s) == Num(c, t)
  }

  /** Leading zeros and value determine the digits. */
  lemma SameUnique(b: nat, s: seq<nat>, t: seq<nat>)
    requires b > 0 && Digits(b, s) && Digits(b, t) && SameNumber(b, s, b, t)
    ensures s == t
  {
    var z := LeadingZeros(s);
    NumZeros(b, s, z);
    NumZeros(b, t, z);
    MinimalUnique(b, s[z..], t[z..]);
    assert s[..z] == t[..z];
    assert s == s[..z] + s[z..] && t == t[..z] + t[z..];
  }

  // ----- buffer sizes -----

  lemma SmallPowers58()
    ensures Pow(58, 1) == 58 && Pow(58, 2) == 3364 && Pow(58, 3) == 195112 && Pow(58, 4) == 11316496
    ensures Pow(58, 5) == 656356768 && Pow(58, 6) == 38068692544 && Pow(58, 7) == 2207984167552
    ensures Pow(58, 8) == 128063081718016
  {
  }

  lemma SmallPowers256()
    ensures Pow(256, 0) == 1 && Pow(256, 1) == 256 && Pow(256, 2) == 65536 && Pow(256, 3) == 16777216 &&
            Pow(256, 4) == 4294967296
  {
  }

  lemma Powers256()
    ensures Pow(256, 5) == 0x100_0000_0000 && Pow(256, 6) == 0x1_0000_0000_0000 && Pow(256, 7) == 0x100_0000_0000_0000
    ensures Pow(256, 8) == 0x1_0000_0000_0000_0000 && Pow(256, 9) == 0x100_0000_0000_0000_0000
    ensures Pow(256, 10) == 0x1_0000_0000_0000_0000_0000 && Pow(256, 11) == 0x100_0000_0000_0000_0000_0000
  {
    SmallPowers256();
    PowAdd(256, 4, 1);
    PowAdd(256, 4, 2);
    PowAdd(256, 4, 3);
    PowAdd(256, 4, 4);
    PowAdd(256, 8, 1);
    PowAdd(256, 8, 2);
    PowAdd(256, 8, 3);
  }

  /** 58^r fits the bytes set aside for r characters, for small r. */
  lemma FewCharacters(r: nat)
    requires r < 15
    ensures Pow(58, r) <= Pow(256, r * 733 / 1000 + 1)
  {
    SmallPowers58();
    SmallPowers256();
    Powers256();
    if r >= 8 { PowAdd(58, 8, r - 8); }
  }

  lemma FewBytes(r: nat)
    requires r < 8
    ensures Pow(256, r) <= Pow(58, r * 138 / 100 + 1)
  {
    SmallPowers58();
    SmallPowers256();
    Powers256();
    PowAdd(58, 8, 1);
    PowAdd(58, 8, 2);
  }

  lemma ShortRatio() returns (k: nat, l: nat)
    ensures k == 15 && l == 11 && Pow(58, k) <= Pow(256, l)
  {
    k, l := 15, 11;
    SmallPowers58();
    Powers256();
    PowAdd(58, 8, 7);
  }

  lemma BytesRatio() returns (k: nat, l: nat)
    ensures k == 8 && l == 11 && Pow(256, k) <= Pow(58, l)
  {
    k, l := 8, 11;
    SmallPowers58();
    Powers256();
    PowAdd(58, 8, 3);
  }

  /** 58^71 <= 256^52. */
  lemma LongRatio() returns (k: nat, l: nat)
    ensures k == 71 && l == 52 && Pow(58, k) <= Pow(256, l)
  {
    SmallPowers58();
    SmallPowers256();
    Powers256();
    PowAdd(58, 8, 8);
    assert Pow(58, 16) == 16400152899115243850138976256;
    PowAdd(58, 16, 16);
    assert Pow(58, 32) == 268965015114358137726910587140455987105619365599731777536;
    PowAdd(58, 32, 32);
    PowAdd(58, 64, 7);
    PowAdd(256, 8, 8);
    PowAdd(256, 16, 16);
    PowAdd(256, 32, 16);
    PowAdd(256, 48, 4);
    k, l := 71, 52;
  }

  lemma Scaled(b: nat, k: nat, m: nat, e: nat)
    requires e == k + m
    ensures Pow(b, e) == Pow(b, k) * Pow(b, m)
  {
    PowAdd(b, k, m);
  }

  lemma Products(x: int, y: int, u: int, v: int)
    requires 0 <= x <= y && 0 <= u <= v
    ensures x * u <= y * v
  {
    MulMono(x, y, u);
    MulMono(u, v, y);
  }

  /** If k characters fit l bytes, another k characters fit another l bytes. */
  lemma GrowText(k: nat, l: nat, m: nat, g: nat, e: nat, h: nat)
    requires Pow(58, k) <= Pow(256, l) && Pow(58, m) <= Pow(256, g) && e == k + m && h == l + g
    ensures Pow(58, e) <= Pow(256, h)
  {
    Scaled(58, k, m, e);
    Scaled(256, l, g, h);
    Products(Pow(58, k), Pow(256, l), Pow(58, m), Pow(256, g));
  }

  lemma GrowBytes(k: nat, l: nat, n: nat, g: nat, e: nat, h: nat)
    requires Pow(256, k) <= Pow(58, l) && Pow(256, n) <= Pow(58, g) && e == k + n && h == l + g
    ensures Pow(256, e) <= Pow(58, h)
  {
    Scaled(256, k, n, e);
    Scaled(58, l, g, h);
    Products(Pow(256, k), Pow(58, l), Pow(256, n), Pow(58, g));
  }

  /** Bytes set aside for m characters. */
  function RoomFor(m: nat): nat { m * 733 / 1000 + 1 }

  lemma {:induction false} Fifteens(q: nat, s: nat, j: nat, r: nat, h: nat)
    requires Pow(58, s) <= Pow(256, j) && r == 15 * q + s && h == 11 * q + j
    ensures Pow(58, r) <= Pow(256, h)
    decreases q
  {
    if q > 0 {
      Fifteens(q - 1, s, j, r - 15, h - 11);
      var k, l := ShortRatio();
      GrowText(k, l, r - 15, h - 11, r, h);
    }
  }

  lemma RoomSmall(r: nat, q: nat, s: nat)
    requires r < 71 && r == 15 * q + s && s < 15
    ensures s == 0 ==> 11 * q <= RoomFor(r)
    ensures s > 0 ==> 11 * q + RoomFor(s) <= RoomFor(r)
  {
    assert q == 0 || q == 1 || q == 2 || q == 3 || q == 4;
  }

  lemma ShortText(r: nat)
    requires r < 71
    ensures Pow(58, r) <= Pow(256, RoomFor(r))
  {
    var q, s := r / 15, r % 15;
    RoomSmall(r, q, s);
    var j := if s == 0 then 0 else RoomFor(s);
    var h := 11 * q + j;
    assert Pow(58, s) <= Pow(256, j) by { FewCharacters(s); }
    Fifteens(q, s, j, r, h);
    PowMono(256, h, RoomFor(r));
  }

  lemma RoomStep(m: nat)
    requires m >= 71
    ensures 52 + RoomFor(m - 71) <= RoomFor(m)
  {
  }

  /** The buffer of `DecodeBase58` is large enough for m characters. */
  lemma {:induction false} DecodeRoom(m: nat)
    ensures Pow(58, m) <= Pow(256, RoomFor(m))
  {
    if m < 71 {
      ShortText(m);
    } else {
      var g := RoomFor(m - 71);
      var h := 52 + g;
      DecodeRoom(m - 71);
      MoreText(m - 71, g, m, h);
      RoomStep(m);
      PowMono(256, h, RoomFor(m));
    }
  }

  lemma MoreText(n: nat, g: nat, m: nat, h: nat)
    requires Pow(58, n) <= Pow(256, g) && m == 71 + n && h == 52 + g
    ensures Pow(58, m) <= Pow(256, h)
  {
    var k, l := LongRatio();
    GrowText(k, l, n, g, m, h);
  }

  /** Characters set aside for n bytes. */
  function SpaceFor(n: nat): nat { n * 138 / 100 + 1 }

  /** The buffer of `EncodeBase58` is large enough for n bytes. */
  lemma {:induction false} EncodeRoom(n: nat)
    ensures Pow(256, n) <= Pow(58, SpaceFor(n))
  {
    if n < 8 {
      FewBytes(n);
    } else {
      var g := SpaceFor(n - 8);
      var h := 11 + g;
      EncodeRoom(n - 8);
      var k, l := BytesRatio();
      GrowBytes(k, l, n - 8, g, n, h);
      PowMono(58, h, SpaceFor(n));
    }
  }

  // ----- multiplying a buffer -----

  /** "buffer = buffer * f + c" from the last digit to the first; what does not fit is the carry. */
  method Accumulate(a: array<nat>, b: nat, f: nat, c: nat) returns (carry: nat)
    requires b > 0 && Digits(b, a[..])
    modifies a
    ensures Digits(b, a[..])
    ensures Num(b, a[..]) + carry * Pow(b, a.Length) == f * Num(b, old(a[..])) + c
  {
    ghost var s := a[..];
    carry := c;
    var i := a.Length;
    assert a[i..] == [] && s[i..] == [];
    while i > 0
      invariant 0 <= i <= a.Length && Digits(b, a[..]) && a[..i] == s[..i]
      invariant Num(b, a[i..]) + carry * Pow(b, a.Length - i) == f * Num(b, s[i..]) + c
    {
      i := i - 1;
      ghost var low := a[i + 1..];
      assert a[i] == s[..i + 1][i] == s[i];
      ghost var before := carry;
      var digit;
      digit, carry := DivMod(carry + f * a[i], b);
      a[i] := digit;
      assert a[i..] == [digit] + low && s[i..] == [s[i]] + s[i + 1..];
      assert a[..i] == s[..i];
      AccumulateStep(b, f, c, digit, low, before, carry, s[i], s[i + 1..]);
    }
    assert a[0..] == a[..] && s[0..] == s;
  }

  method DivMod(total: nat, b: nat) returns (digit: nat, carry: nat)
    requires b > 0
    ensures digit < b && total == carry * b + digit
  {
    digit, carry := total % b, total / b;
  }

  lemma AccumulateStep(b: nat, f: nat, c: nat, digit: nat, low: seq<nat>, before: nat, carry: nat, x: nat,
                       rest: seq<nat>)
    requires |low| == |rest| && Num(b, low) + before * Pow(b, |low|) == f * Num(b, rest) + c
    requires before + f * x == carry * b + digit
    ensures Num(b, [digit] + low) + carry * Pow(b, |low| + 1) == f * Num(b, [x] + rest) + c
  {
    NumCons(b, digit, low);
    NumCons(b, x, rest);
    StepUp(Num(b, low), before, Pow(b, |low|), f, x, Num(b, rest), c, b, digit, carry);
  }

  lemma StepUp(low: int, before: int, p: int, f: int, x: int, rest: int, c: int, b: int, digit: int, carry: int)
    requires low + before * p == f * rest + c
    requires before + f * x == carry * b + digit
    ensures digit * p + low + carry * (b * p) == f * (x * p + rest) + c
  {
    DistributeRight(carry * b, digit, p);
    DistributeRight(before, f * x, p);
    MulAssoc(carry, b, p);
    MulAssoc(f, x, p);
    assert f * (x * p + rest) == f * (x * p) + f * rest;
  }

  /** A value below the capacity leaves no carry: the assertions in both directions. */
  lemma NoCarry(v: int, carry: int, p: int, total: int)
    requires v >= 0 && carry >= 0 && p > 0 && v + carry * p == total && total < p
    ensures carry == 0
  {
    if carry > 0 { MulMono(1, carry, p); }
  }

  // ----- characters -----

  /** Digit d as a character: the ranges of the alphabet, which leaves out 0, I, O and l. */
  function CharOf(d: nat): char
    requires d < 58
  {
    if d < 9 then '1' + d as char
    else if d < 17 then 'A' + (d - 9) as char
    else if d < 22 then 'J' + (d - 17) as char
    else if d < 33 then 'P' + (d - 22) as char
    else if d < 44 then 'a' + (d - 33) as char
    else 'm' + (d - 44) as char
  }

  /** The digit a character stands for, or -1. */
  function ValueOf(c: char): (v: int)
    ensures -1 <= v < 58
  {
    if '1' <= c <= '9' then c as int - '1' as int
    else if 'A' <= c <= 'H' then c as int - 'A' as int + 9
    else if 'J' <= c <= 'N' then c as int - 'J' as int + 17
    else if 'P' <= c <= 'Z' then c as int - 'P' as int + 22
    else if 'a' <= c <= 'k' then c as int - 'a' as int + 33
    else if 'm' <= c <= 'z' then c as int - 'm' as int + 44
    else -1
  }

  lemma CharBack(d: nat)
    requires d < 58
    ensures ValueOf(CharOf(d)) == d && !IsSpace(CharOf(d))
  {
  }

  lemma ValueBack(c: char)
    requires ValueOf(c) >= 0
    ensures CharOf(ValueOf(c)) == c && !IsSpace(c)
  {
  }

  /** `isspace` in the C locale. */
  predicate IsSpace(c: char) {
    c == ' ' || (9 <= c as int <= 13)
  }

  /** The alphabet: digits and letters except 0, I, O and l, in the order of their codes. */
  lemma AlphabetIs(c: char, d: char)
    ensures ValueOf(c) >= 0 <==>
            ('0' <= c <= '9' || 'A' <= c <= 'Z' || 'a' <= c <= 'z') && c != '0' && c != 'I' && c != 'O' && c != 'l'
    ensures ValueOf(c) >= 0 && ValueOf(d) >= 0 ==> (ValueOf(c) < ValueOf(d) <==> c < d)
  {
  }

  ghost predicate Alphabetic(s: string) {
    forall i :: 0 <= i < |s| ==> ValueOf(s[i]) >= 0
  }

  ghost function Values(s: string): (r: seq<nat>)
    requires Alphabetic(s)
    ensures |r| == |s| && Digits(58, r)
  {
    seq(|s|, i requires 0 <= i < |s| => ValueOf(s[i]))
  }

  /** Text is determined by its digits. */
  lemma ValuesInjective(s: string, t: string)
    requires Alphabetic(s) && Alphabetic(t) && Values(s) == Values(t)
    ensures s == t
  {
    assert |s| == |Values(s)| == |Values(t)| == |t|;
    forall i | 0 <= i < |s| ensures s[i] == t[i] {
      assert Values(s)[i] == Values(t)[i];
      ValueBack(s[i]);
      ValueBack(t[i]);
    }
  }

  // ----- encoding -----

  method CountZeros(s: seq<nat>) returns (z: nat)
    ensures z == LeadingZeros(s)
  {
    z := 0;
    while z < |s| && s[z] == 0
      invariant z <= |s| && LeadingZeros(s) == z + LeadingZeros(s[z..])
    {
      assert s[z..][1..] == s[z + 1..];
      z := z + 1;
    }
  }

  /** A prefix of zeros and a rest that does not start with one. */
  lemma {:induction false} ZerosThen(z: nat, s: seq<nat>, t: seq<nat>)
    requires t == seq(z, _ => 0) + s && (s == [] || s[0] != 0)
    ensures LeadingZeros(t) == z
  {
    if z > 0 {
      assert t[1..] == seq(z - 1, _ => 0) + s;
      ZerosThen(z - 1, s, t[1..]);
    } else {
      assert t == s;
    }
  }

  /** Digits of a number in another base, leading zeros dropped. */
  method Convert(digits: seq<nat>, from: nat, base: nat, size: nat) returns (r: seq<nat>)
    requires from > 0 && base > 0 && Digits(from, digits) && Pow(from, |digits|) <= Pow(base, size)
    ensures Digits(base, r) && Num(base, r) == Num(from, digits) && (r == [] || r[0] != 0)
  {
    var buffer := new nat[size](_ => 0);
    NumZeros(base, buffer[..], size);
    assert buffer[..][size..] == [];
    assert digits[..0] == [];
    for p := 0 to |digits|
      invariant Digits(base, buffer[..]) && Num(base, buffer[..]) == Num(from, digits[..p])
    {
      ghost var before := Num(base, buffer[..]);
      var carry := Accumulate(buffer, base, from, digits[p]);
      assert digits[..p + 1] == digits[..p] + [digits[p]];
      NumAppend(from, digits[..p], digits[p]);
      CarryFree(digits, from, base, size, p + 1, Num(base, buffer[..]), carry);
      assert carry == 0;
    }
    assert digits[..|digits|] == digits;
    var z := CountZeros(buffer[..]);
    NumZeros(base, buffer[..], z);
    r := buffer[z..];
    assert r == buffer[..][z..];
  }

  lemma CarryFree(digits: seq<nat>, from: nat, base: nat, size: nat, p: nat, v: nat, carry: nat)
    requires from > 0 && base > 0 && Digits(from, digits) && Pow(from, |digits|) <= Pow(base, size) && p <= |digits|
    requires v + carry * Pow(base, size) == Num(from, digits[..p])
    ensures carry == 0
  {
    NumBound(from, digits[..p]);
    PowMono(from, p, |digits|);
    NoCarry(v, carry, Pow(base, size), Num(from, digits[..p]));
  }

  /** `EncodeBase58`. */
  method EncodeBase58(bytes: seq<nat>) returns (str: string)
    requires Digits(256, bytes)
    ensures Alphabetic(str) && SameNumber(256, bytes, 58, Values(str))
  {
    var zeroes := CountZeros(bytes);
    var rest := bytes[zeroes..];
    EncodeRoom(|rest|);
    var digits := Convert(rest, 256, 58, |rest| * 138 / 100 + 1);
    str := Spell(zeroes, digits);
    Padded(256, bytes, zeroes, 58, digits, Values(str));
  }

  /** The characters of a number of zeros and the given digits. */
  method Spell(zeroes: nat, digits: seq<nat>) returns (str: string)
    requires Digits(58, digits)
    ensures Alphabetic(str) && Values(str) == seq(zeroes, _ => 0) + digits
  {
    str := seq(zeroes, _ => '1');
    ghost var zeros := seq(zeroes, _ => 0);
    for i := 0 to |digits|
      invariant Alphabetic(str) && Values(str) == zeros + digits[..i]
    {
      SpellMore(str, digits[i], digits, i, zeros);
      str := str + [CharOf(digits[i])];
    }
    assert digits[..|digits|] == digits;
  }

  lemma SpellMore(str: string, x: nat, digits: seq<nat>, i: nat, zeros: seq<nat>)
    requires Alphabetic(str) && i < |digits| && x == digits[i] && x < 58 && Values(str) == zeros + digits[..i]
    ensures Alphabetic(str + [CharOf(x)]) && Values(str + [CharOf(x)]) == zeros + digits[..i + 1]
  {
    CharBack(x);
    assert Values(str + [CharOf(x)]) == Values(str) + [x];
    assert digits[..i + 1] == digits[..i] + [x];
  }

  /** Zeros in front do not change the number. */
  lemma Padded(b: nat, s: seq<nat>, z: nat, c: nat, digits: seq<nat>, t: seq<nat>)
    requires z == LeadingZeros(s) && Num(c, digits) == Num(b, s[z..]) && (digits == [] || digits[0] != 0)
    requires t == seq(z, _ => 0) + digits
    ensures SameNumber(b, s, c, t)
  {
    ZerosThen(z, digits, t);
    NumZeros(b, s, z);
    NumZeros(c, t, z);
    assert t[z..] == digits;
  }

  // ----- decoding -----

  /** First position from i on that is (not) a space. */
  function FirstFrom(s: string, i: nat, space: bool): (j: nat)
    requires i <= |s|
    ensures i <= j <= |s| && (j < |s| ==> IsSpace(s[j]) == space) && forall k :: i <= k < j ==> IsSpace(s[k]) != space
    decreases |s| - i
  {
    if i == |s| || IsSpace(s[i]) == space then i else FirstFrom(s, i + 1, space)
  }

  function Start(s: string): nat { FirstFrom(s, 0, false) }

  function Stop(s: string): (r: nat)
    ensures Start(s) <= r <= |s|
  {
    FirstFrom(s, Start(s), true)
  }

  /** The text without spaces around it. */
  function Core(s: string): string {
    s[Start(s)..Stop(s)]
  }

  /** Alphabet characters, with nothing but spaces around them. */
  ghost predicate Valid(s: string) {
    Alphabetic(Core(s)) && forall k :: Stop(s) <= k < |s| ==> IsSpace(s[k])
  }

  method Scan(s: string, from: nat, space: bool) returns (j: nat)
    requires from <= |s|
    ensures j == FirstFrom(s, from, space)
  {
    j := from;
    while j < |s| && IsSpace(s[j]) != space
      invariant from <= j <= |s| && FirstFrom(s, j, space) == FirstFrom(s, from, space)
    {
      j := j + 1;
    }
  }

  /** Reads the characters up to the next space as digits; fails on any other character. */
  method ReadDigits(s: string, from: nat) returns (ok: bool, digits: seq<nat>)
    requires from <= |s|
    ensures ok <==> Alphabetic(s[from..FirstFrom(s, from, true)])
    ensures ok ==> digits == Values(s[from..FirstFrom(s, from, true)])
  {
    ghost var stop := FirstFrom(s, from, true);
    digits := [];
    var j := from;
    while j < |s| && !IsSpace(s[j])
      invariant from <= j <= stop && Alphabetic(s[from..j]) && digits == Values(s[from..j])
    {
      if ValueOf(s[j]) < 0 {
        assert s[from..stop][j - from] == s[j];
        return false, digits;
      }
      assert s[from..j + 1] == s[from..j] + [s[j]];
      digits := digits + [ValueOf(s[j])];
      j := j + 1;
    }
    ok := true;
  }

  /** `DecodeBase58` on a C string. */
  method DecodeBase58(psz: string) returns (ok: bool, bytes: seq<nat>)
    ensures ok <==> Valid(psz)
    ensures ok ==> Digits(256, bytes) && SameNumber(58, Values(Core(psz)), 256, bytes)
    ensures !ok ==> bytes == []
  {
    bytes := [];
    var from := Scan(psz, 0, false);
    var digits;
    ok, digits := ReadDigits(psz, from);
    if !ok {
      return;
    }
    var stop := Scan(psz, from, true);
    var end := Scan(psz, stop, false);
    if end != |psz| {
      assert Stop(psz) <= end && !IsSpace(psz[end]);
      return false, bytes;
    }
    bytes := ToBytes(digits, |psz| - from);
  }

  /** Characters to bytes, in a buffer sized for the rest of the string. */
  method ToBytes(digits: seq<nat>, length: nat) returns (bytes: seq<nat>)
    requires Digits(58, digits) && |digits| <= length
    ensures Digits(256, bytes) && SameNumber(58, digits, 256, bytes)
  {
    var zeroes := CountZeros(digits);
    var rest := digits[zeroes..];
    EnoughRoom(|rest|, length - zeroes);
    var number := Convert(rest, 58, 256, (length - zeroes) * 733 / 1000 + 1);
    bytes := seq(zeroes, _ => 0) + number;
    Padded(58, digits, zeroes, 256, number, bytes);
  }

  lemma EnoughRoom(m: nat, length: nat)
    requires m <= length
    ensures Pow(58, m) <= Pow(256, length * 733 / 1000 + 1)
  {
    DecodeRoom(m);
    PowMono(256, RoomFor(m), RoomFor(length));
  }

  // ----- round trips -----

  lemma CoreOfText(s: string)
    requires Alphabetic(s)
    ensures Valid(s) && Core(s) == s
  {
    forall i | 0 <= i < |s| ensures !IsSpace(s[i]) { ValueBack(s[i]); }
    assert Start(s) == 0 && Stop(s) == |s|;
  }

  /** Decoding what was encoded gives the bytes back, whatever they are. */
  method EncodeThenDecode(bytes: seq<nat>) returns (str: string, ok: bool, back: seq<nat>)
    requires Digits(256, bytes)
    ensures ok && back == bytes
  {
    str := EncodeBase58(bytes);
    CoreOfText(str);
    ok, back := DecodeBase58(str);
    SameUnique(256, bytes, back);
  }

  /** Encoding what was decoded gives the text back, without the spaces around it. */
  method DecodeThenEncode(text: string) returns (ok: bool, bytes: seq<nat>, back: string)
    ensures ok <==> Valid(text)
    ensures ok ==> back == Core(text)
  {
    back := "";
    ok, bytes := DecodeBase58(text);
    if ok {
      back := EncodeBase58(bytes);
      SameUnique(58, Values(Core(text)), Values(back));
      ValuesInjective(Core(text), back);
    }
  }

  // ----- with a checksum -----

  /** A hash of byte strings, as bytes; at least four of them. */
  ghost predicate IsHash(hash: seq<nat> -> seq<nat>) {
    forall s :: |hash(s)| >= 4 && Digits(256, hash(s))
  }

  /** `EncodeBase58Check`. */
  method EncodeBase58Check(data: seq<nat>, hash: seq<nat> -> seq<nat>) returns (str: string)
    requires Digits(256, data) && IsHash(hash)
    ensures Alphabetic(str) && SameNumber(256, data + hash(data)[..4], 58, Values(str))
  {
    str := EncodeBase58(data + hash(data)[..4]);
  }

  /** `DecodeBase58Check`. */
  method DecodeBase58Check(psz: string, hash: seq<nat> -> seq<nat>) returns (ok: bool, data: seq<nat>)
    requires IsHash(hash)
    ensures ok ==> Valid(psz) && Digits(256, data) && SameNumber(256, data + hash(data)[..4], 58, Values(Core(psz)))
    ensures !ok ==> data == []
    ensures forall d :: Carries(psz, hash, d) ==> ok && data == d
  {
    ok, data := DecodeBase58(psz);
    if ok {
      forall d | Carries(psz, hash, d)
        ensures |data| >= 4 && d == data[..|data| - 4] && hash(d)[..4] == data[|data| - 4..]
      {
        OnlyData(psz, hash, data, d);
      }
    }
    if !ok || |data| < 4 {
      return false, [];
    }
    var n := |data| - 4;
    if hash(data[..n])[..4] != data[n..] {
      return false, [];
    }
    assert data == data[..n] + hash(data[..n])[..4];
    data := data[..n];
  }

  /** The text is that of data followed by its own checksum. */
  ghost predicate Carries(psz: string, hash: seq<nat> -> seq<nat>, d: seq<nat>)
    requires IsHash(hash)
  {
    Digits(256, d) && Valid(psz) && SameNumber(256, d + hash(d)[..4], 58, Values(Core(psz)))
  }

  /** Text can hold no other data with a checksum than its bytes without the last four. */
  lemma OnlyData(psz: string, hash: seq<nat> -> seq<nat>, bytes: seq<nat>, d: seq<nat>)
    requires IsHash(hash) && Valid(psz) && Digits(256, bytes) && Digits(256, d)
    requires SameNumber(256, bytes, 58, Values(Core(psz)))
    requires SameNumber(256, d + hash(d)[..4], 58, Values(Core(psz)))
    ensures |bytes| >= 4 && d == bytes[..|bytes| - 4] && hash(d)[..4] == bytes[|bytes| - 4..]
  {
    SameUnique(256, bytes, d + hash(d)[..4]);
    assert bytes == d + hash(d)[..4];
  }

  /** Checked text decodes to the data it was made from. */
  method CheckRoundTrip(data: seq<nat>, hash: seq<nat> -> seq<nat>) returns (str: string, ok: bool, back: seq<nat>)
    requires Digits(256, data) && IsHash(hash)
    ensures ok && back == data
  {
    str := EncodeBase58Check(data, hash);
    CoreOfText(str);
    assert Carries(str, hash, data);
    ok, back := DecodeBase58Check(str, hash);
  }
}
