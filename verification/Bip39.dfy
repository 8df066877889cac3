/** Mnemonic sentences (BIP 39, "Generating the mnemonic"): data and checksum bits as words, and
    the check that undoes it. */
module Bip39 {
  import opened Bytes
  import opened Folding
  import opened Powers

  // ----- bits of bytes -----

  /** Bit k of a byte, the most significant first. */
  predicate TopBit(x: bv8, k: nat)
    requires k < 8
  {
    x & Bit(7 - k) != 0
  }

  /** Bit k of a byte string. */
  predicate BitAt(s: seq<bv8>, k: nat)
    requires k < 8 * |s|
  {
    TopBit(s[k / 8], k % 8)
  }

  ghost function BitsOf(s: seq<bv8>): (r: seq<bool>)
    ensures |r| == 8 * |s|
  {
    seq(8 * |s|, k requires 0 <= k < 8 * |s| => BitAt(s, k))
  }

  /** The leading c bits of two bytes agree. */
  ghost predicate SameTop(x: bv8, y: bv8, c: nat)
    requires c <= 8
  {
    forall k :: 0 <= k < c ==> (TopBit(x, k) <==> TopBit(y, k))
  }

  lemma Masks(x: bv8, y: bv8)
    ensures (x & 0xF0) == (y & 0xF0) <==> SameTop(x, y, 4)
    ensures (x & 0xFC) == (y & 0xFC) <==> SameTop(x, y, 6)
    ensures x == y <==> SameTop(x, y, 8)
  {
    TopBits(x);
    TopBits(y);
    MaskedBits(x, y);
    TopFour(x, y);
    TopSix(x, y);
    TopEight(x, y);
  }

  lemma TopFour(x: bv8, y: bv8)
    ensures SameTop(x, y, 4) <==> (TopBit(x, 0) <==> TopBit(y, 0)) && (TopBit(x, 1) <==> TopBit(y, 1)) &&
                                  (TopBit(x, 2) <==> TopBit(y, 2)) && (TopBit(x, 3) <==> TopBit(y, 3))
  {
  }

  lemma TopSix(x: bv8, y: bv8)
    ensures SameTop(x, y, 6) <==> (TopBit(x, 0) <==> TopBit(y, 0)) && (TopBit(x, 1) <==> TopBit(y, 1)) &&
                                  (TopBit(x, 2) <==> TopBit(y, 2)) && (TopBit(x, 3) <==> TopBit(y, 3)) &&
                                  (TopBit(x, 4) <==> TopBit(y, 4)) && (TopBit(x, 5) <==> TopBit(y, 5))
  {
  }

  lemma TopEight(x: bv8, y: bv8)
    ensures SameTop(x, y, 8) <==> (TopBit(x, 0) <==> TopBit(y, 0)) && (TopBit(x, 1) <==> TopBit(y, 1)) &&
                                  (TopBit(x, 2) <==> TopBit(y, 2)) && (TopBit(x, 3) <==> TopBit(y, 3)) &&
                                  (TopBit(x, 4) <==> TopBit(y, 4)) && (TopBit(x, 5) <==> TopBit(y, 5)) &&
                                  (TopBit(x, 6) <==> TopBit(y, 6)) && (TopBit(x, 7) <==> TopBit(y, 7))
  {
  }

  lemma TopBits(x: bv8)
    ensures TopBit(x, 0) == (x & 128 != 0) && TopBit(x, 1) == (x & 64 != 0) && TopBit(x, 2) == (x & 32 != 0)
    ensures TopBit(x, 3) == (x & 16 != 0) && TopBit(x, 4) == (x & 8 != 0) && TopBit(x, 5) == (x & 4 != 0)
    ensures TopBit(x, 6) == (x & 2 != 0) && TopBit(x, 7) == (x & 1 != 0)
  {
  }

  predicate Both(x: bv8, y: bv8, b: bv8) { (x & b != 0) == (y & b != 0) }

  lemma MaskedBits(x: bv8, y: bv8)
    ensures (x & 0xF0) == (y & 0xF0) <==> Both(x, y, 128) && Both(x, y, 64) && Both(x, y, 32) && Both(x, y, 16)
    ensures (x & 0xFC) == (y & 0xFC) <==> (x & 0xF0) == (y & 0xF0) && Both(x, y, 8) && Both(x, y, 4)
    ensures x == y <==> (x & 0xFC) == (y & 0xFC) && Both(x, y, 2) && Both(x, y, 1)
  {
  }

  /** Bytes are determined by their bits. */
  lemma BytesEqual(s: seq<bv8>, t: seq<bv8>)
    requires BitsOf(s) == BitsOf(t)
    ensures s == t
  {
    assert |BitsOf(s)| == 8 * |s| && |BitsOf(t)| == 8 * |t|;
    forall q | 0 <= q < |s| ensures s[q] == t[q] {
      forall p | 0 <= p < 8 ensures TopBit(s[q], p) <==> TopBit(t[q], p) {
        var k := 8 * q + p;
        assert k / 8 == q && k % 8 == p;
        assert BitsOf(s)[k] == BitAt(s, k) && BitsOf(t)[k] == BitAt(t, k);
      }
      Masks(s[q], t[q]);
    }
  }

  /** Setting one bit. */
  lemma SetBit(s: seq<bv8>, k: nat)
    requires k < 8 * |s|
    ensures BitsOf(s[k / 8 := s[k / 8] | Bit(7 - k % 8)]) == BitsOf(s)[k := true]
  {
    var t := s[k / 8 := s[k / 8] | Bit(7 - k % 8)];
    forall j | 0 <= j < 8 * |s| ensures BitAt(t, j) == BitsOf(s)[k := true][j] {
      SetBitAt(s, k, t, j);
    }
  }

  lemma SetBitAt(s: seq<bv8>, k: nat, t: seq<bv8>, j: nat)
    requires k < 8 * |s| && j < 8 * |s| && t == s[k / 8 := s[k / 8] | Bit(7 - k % 8)]
    ensures BitAt(t, j) <==> j == k || BitAt(s, j)
  {
    SameSpot(j, k);
    if j / 8 == k / 8 {
      AddBit(s[k / 8], k % 8, j % 8);
    }
  }

  lemma SameSpot(j: nat, k: nat)
    ensures j == k <==> j / 8 == k / 8 && j % 8 == k % 8
  {
  }

  lemma AddBit(x: bv8, p: nat, q: nat)
    requires p < 8 && q < 8
    ensures TopBit(x | Bit(7 - p), q) <==> q == p || TopBit(x, q)
  {
    BitAlone(x, 7 - q, 7 - p);
  }

  // ----- numbers of a few bits -----

  ghost function Value(b: seq<bool>): nat {
    if b == [] then 0 else 2 * Value(b[..|b| - 1]) + if b[|b| - 1] then 1 else 0
  }

  ghost function Expand(v: nat, n: nat): (r: seq<bool>)
    ensures |r| == n
  {
    if n == 0 then [] else Expand(v / 2, n - 1) + [v % 2 == 1]
  }

  lemma {:induction false} ExpandValue(b: seq<bool>)
    ensures Expand(Value(b), |b|) == b && Value(b) < Pow(2, |b|)
  {
    if b != [] {
      var c := b[..|b| - 1];
      ExpandValue(c);
      assert Value(b) / 2 == Value(c);
      assert b == c + [b[|b| - 1]];
    }
  }

  lemma {:induction false} ValueExpand(v: nat, n: nat)
    requires v < Pow(2, n)
    ensures Value(Expand(v, n)) == v
  {
    if n > 0 {
      ValueExpand(v / 2, n - 1);
      assert Expand(v, n)[..n - 1] == Expand(v / 2, n - 1);
    }
  }

  /** Bit k of an n-bit number is what masking with 1 << (n - 1 - k) tests. */
  lemma {:induction false} ExpandAt(v: nat, n: nat, k: nat)
    requires k < n
    ensures Expand(v, n)[k] <==> (v / Pow(2, n - 1 - k)) % 2 == 1
  {
    if k < n - 1 {
      ExpandAt(v / 2, n - 1, k);
      DivDiv(v, 2, Pow(2, n - 2 - k));
    }
  }

  // ----- sentences -----

  /** The word list: 2048 different words without spaces, of one to nine characters. */
  ghost predicate IsWordList(w: seq<string>) {
    |w| == 2048 && (forall i :: 0 <= i < |w| ==> 1 <= |w[i]| <= 9 && ' ' !in w[i]) &&
    (forall i, j :: 0 <= i < j < |w| ==> w[i] != w[j])
  }

  function Join(ws: seq<string>): string
    requires |ws| > 0
  {
    if |ws| == 1 then ws[0] else ws[0] + " " + Join(ws[1..])
  }

  function FirstSpace(m: string, i: nat): (j: nat)
    requires i <= |m|
    ensures i <= j <= |m| && (j < |m| ==> m[j] == ' ') && forall k :: i <= k < j ==> m[k] != ' '
    decreases |m| - i
  {
    if i == |m| || m[i] == ' ' then i else FirstSpace(m, i + 1)
  }

  function Split(m: string): (r: seq<string>)
    ensures |r| > 0
    decreases |m|
  {
    var j := FirstSpace(m, 0);
    if j == |m| then [m] else [m[..j]] + Split(m[j + 1..])
  }

  lemma FirstSpaceIs(m: string, j: nat)
    requires j <= |m| && (j < |m| ==> m[j] == ' ') && forall k :: 0 <= k < j ==> m[k] != ' '
    ensures FirstSpace(m, 0) == j
  {
  }

  lemma {:induction false} SplitJoin(ws: seq<string>)
    requires |ws| > 0 && forall i :: 0 <= i < |ws| ==> ' ' !in ws[i]
    ensures Split(Join(ws)) == ws
  {
    var m := Join(ws);
    FirstSpaceIs(m, |ws[0]|);
    if |ws| == 1 {
      assert ws == [ws[0]];
    } else {
      SplitJoin(ws[1..]);
      assert m[..|ws[0]|] == ws[0] && m[|ws[0]| + 1..] == Join(ws[1..]);
    }
  }

  lemma {:induction false} JoinSplit(m: string)
    ensures Join(Split(m)) == m
    decreases |m|
  {
    var j := FirstSpace(m, 0);
    if j < |m| {
      JoinSplit(m[j + 1..]);
      assert Split(m)[1..] == Split(m[j + 1..]);
      assert m == m[..j] + " " + m[j + 1..];
    }
  }

  // ----- generating -----

  /** The i-th group of eleven bits. */
  ghost function Group(bits: seq<bool>, i: nat): (r: seq<bool>)
    requires 11 * i + 11 <= |bits|
    ensures |r| == 11
  {
    bits[11 * i..11 * i + 11]
  }

  /** Eleven bits at a time. */
  ghost function Indices(bits: seq<bool>, n: nat): (r: seq<nat>)
    requires 11 * n <= |bits|
    ensures |r| == n && forall i :: 0 <= i < n ==> r[i] < 2048
  {
    IndexBound(bits, n);
    seq(n, i requires 0 <= i < n => Value(Group(bits, i)))
  }

  lemma IndexBound(bits: seq<bool>, n: nat)
    requires 11 * n <= |bits|
    ensures forall i :: 0 <= i < n ==> Value(Group(bits, i)) < 2048
  {
    forall i | 0 <= i < n ensures Value(Group(bits, i)) < 2048 {
      ExpandValue(Group(bits, i));
      TwoToEleven();
    }
  }

  lemma GroupsJoin(bits: seq<bool>, n: nat)
    requires 11 * n + 11 <= |bits|
    ensures bits[..11 * (n + 1)] == bits[..11 * n] + Group(bits, n)
    ensures Indices(bits, n + 1) == Indices(bits, n) + [Value(Group(bits, n))]
  {
  }

  lemma TwoToEleven()
    ensures Pow(2, 11) == 2048
  {
    assert Pow(2, 4) == 16;
    PowAdd(2, 4, 4);
    assert Pow(2, 3) == 8;
    PowAdd(2, 8, 3);
  }

  ghost function Words(w: seq<string>, idx: seq<nat>): (r: seq<string>)
    requires forall i :: 0 <= i < |idx| ==> idx[i] < |w|
    ensures |r| == |idx|
  {
    seq(|idx|, i requires 0 <= i < |idx| => w[idx[i]])
  }

  ghost predicate IsHash(hash: seq<bv8> -> seq<bv8>) {
    forall s :: |hash(s)| == 32
  }

  predicate GoodLength(len: int) {
    len % 4 == 0 && 16 <= len <= 32
  }

  ghost function Sentence(w: seq<string>, hash: seq<bv8> -> seq<bv8>, data: seq<bv8>): string
    requires IsWordList(w) && IsHash(hash) && GoodLength(|data|)
  {
    Join(Words(w, Indices(BitsOf(data + [hash(data)[0]]), |data| * 3 / 4)))
  }

  /** `FromData`. */
  method FromData(w: seq<string>, hash: seq<bv8> -> seq<bv8>, data: seq<bv8>, len: int) returns (m: string)
    requires IsWordList(w) && IsHash(hash) && len <= |data|
    ensures if GoodLength(len) then m == Sentence(w, hash, data[..len]) else m == ""
  {
    if len % 4 != 0 || len < 16 || len > 32 {
      return "";
    }
    var checksum := hash(data[..len]);
    m := Spell(w, data[..len] + [checksum[0]], len * 3 / 4);
  }

  /** The words for n groups of eleven bits. */
  method Spell(w: seq<string>, bits: seq<bv8>, n: nat) returns (m: string)
    requires IsWordList(w) && 0 < n && 11 * n <= 8 * |bits|
    ensures m == Join(Words(w, Indices(BitsOf(bits), n)))
  {
    ghost var ws := Words(w, Indices(BitsOf(bits), n));
    m := "";
    assert ws[0..] == ws;
    for i := 0 to n
      invariant if i < n then Join(ws) == m + Join(ws[i..]) else Join(ws) == m
    {
      var x := ReadIndex(bits, i, n);
      assert ws[i] == w[x];
      assert ws[i..][1..] == ws[i + 1..];
      m := m + w[x];
      if i < n - 1 {
        m := m + " ";
      }
    }
  }

  method ReadIndex(bits: seq<bv8>, i: nat, n: nat) returns (x: nat)
    requires i < n && 11 * n <= 8 * |bits|
    ensures x == Indices(BitsOf(bits), n)[i]
  {
    ghost var b := Group(BitsOf(bits), i);
    x := 0;
    for j := 0 to 11
      invariant x == Value(b[..j])
    {
      assert b[..j + 1][..j] == b[..j];
      assert b[j] == BitAt(bits, 11 * i + j);
      x := 2 * x;
      if BitAt(bits, i * 11 + j) {
        x := x + 1;
      }
    }
    assert b[..11] == b;
  }

  // ----- checking -----

  ghost predicate Accepts(w: seq<string>, hash: seq<bv8> -> seq<bv8>, m: string)
    requires IsWordList(w) && IsHash(hash)
  {
    exists data :: MadeFrom(w, hash, m, data)
  }

  ghost predicate MadeFrom(w: seq<string>, hash: seq<bv8> -> seq<bv8>, m: string, data: seq<bv8>)
    requires IsWordList(w) && IsHash(hash)
  {
    (|data| == 16 || |data| == 24 || |data| == 32) && m == Sentence(w, hash, data)
  }

  /** The bits of a list of word indices. */
  ghost function AllBits(idx: seq<nat>): (r: seq<bool>)
    ensures |r| == 11 * |idx|
  {
    if idx == [] then [] else AllBits(idx[..|idx| - 1]) + Expand(idx[|idx| - 1], 11)
  }

  lemma {:induction false} AllBitsIndices(bits: seq<bool>, n: nat)
    requires 11 * n <= |bits|
    ensures AllBits(Indices(bits, n)) == bits[..11 * n]
  {
    if n > 0 {
      AllBitsIndices(bits, n - 1);
      GroupsJoin(bits, n - 1);
      ExpandValue(Group(bits, n - 1));
      assert Indices(bits, n)[..n - 1] == Indices(bits, n - 1);
    }
  }

  lemma PrefixOf(a: seq<bool>, b: seq<bool>, s: seq<bool>)
    requires a + b <= s
    ensures a <= s && |a| + |b| <= |s| && s[|a|..|a| + |b|] == b
  {
    assert s[..|a| + |b|] == a + b;
    assert s[..|a|] == (a + b)[..|a|] == a;
    assert s[|a|..|a| + |b|] == (a + b)[|a|..] == b;
  }

  lemma {:induction false} IndicesAllBits(idx: seq<nat>, bits: seq<bool>)
    requires (forall i :: 0 <= i < |idx| ==> idx[i] < 2048) && AllBits(idx) <= bits
    ensures Indices(bits, |idx|) == idx
  {
    var n := |idx|;
    if n > 0 {
      var low, last := idx[..n - 1], idx[n - 1];
      PrefixOf(AllBits(low), Expand(last, 11), bits);
      IndicesAllBits(low, bits);
      TwoToEleven();
      ValueExpand(last, 11);
      GroupsJoin(bits, n - 1);
      assert idx == low + [last];
    }
  }

  /** Words determine their indices. */
  lemma WordsInjective(w: seq<string>, a: seq<nat>, b: seq<nat>)
    requires IsWordList(w) && (forall i :: 0 <= i < |a| ==> a[i] < 2048) && (forall i :: 0 <= i < |b| ==> b[i] < 2048)
    requires Words(w, a) == Words(w, b)
    ensures a == b
  {
    assert |a| == |Words(w, a)| == |Words(w, b)| == |b|;
    forall i | 0 <= i < |a| ensures a[i] == b[i] {
      assert w[a[i]] == Words(w, a)[i] == Words(w, b)[i] == w[b[i]];
    }
  }

  /** A sentence splits into its words. */
  lemma SentenceSplits(w: seq<string>, hash: seq<bv8> -> seq<bv8>, data: seq<bv8>)
    requires IsWordList(w) && IsHash(hash) && GoodLength(|data|)
    ensures Split(Sentence(w, hash, data)) == Words(w, Indices(BitsOf(data + [hash(data)[0]]), |data| * 3 / 4))
  {
    SplitJoin(Words(w, Indices(BitsOf(data + [hash(data)[0]]), |data| * 3 / 4)));
  }

  lemma BitsPrefix(s: seq<bv8>, t: seq<bv8>)
    requires s <= t
    ensures BitsOf(s) == BitsOf(t)[..8 * |s|]
  {
    forall k | 0 <= k < 8 * |s| ensures BitsOf(s)[k] == BitsOf(t)[k] {
      assert s[k / 8] == t[k / 8];
    }
  }

  /** Agreeing on the first 8 * len + c bits is agreeing on len bytes and the top of the next. */
  lemma BitsAgree(s: seq<bv8>, t: seq<bv8>, len: nat, c: nat)
    requires len < |s| && len < |t| && c <= 8
    ensures BitsOf(s)[..8 * len + c] == BitsOf(t)[..8 * len + c] <==> s[..len] == t[..len] && SameTop(s[len], t[len], c)
  {
    BitsPrefix(s[..len], s);
    BitsPrefix(t[..len], t);
    if BitsOf(s)[..8 * len + c] == BitsOf(t)[..8 * len + c] {
      assert BitsOf(s)[..8 * len + c][..8 * len] == BitsOf(s)[..8 * len];
      assert BitsOf(t)[..8 * len + c][..8 * len] == BitsOf(t)[..8 * len];
      BytesEqual(s[..len], t[..len]);
      forall k | 0 <= k < c ensures TopBit(s[len], k) <==> TopBit(t[len], k) {
        BitInByte(s, len, k);
        BitInByte(t, len, k);
        assert BitsOf(s)[..8 * len + c][8 * len + k] == BitsOf(t)[..8 * len + c][8 * len + k];
      }
    }
    if s[..len] == t[..len] && SameTop(s[len], t[len], c) {
      forall k | 0 <= k < 8 * len + c ensures BitsOf(s)[k] == BitsOf(t)[k] {
        if k < 8 * len {
          assert BitsOf(s)[..8 * len][k] == BitsOf(t)[..8 * len][k];
        } else {
          BitInByte(s, len, k - 8 * len);
          BitInByte(t, len, k - 8 * len);
        }
      }
    }
  }

  lemma BitInByte(s: seq<bv8>, q: nat, k: nat)
    requires q < |s| && k < 8
    ensures BitsOf(s)[8 * q + k] == TopBit(s[q], k)
  {
    assert (8 * q + k) / 8 == q && (8 * q + k) % 8 == k;
  }

  /** The rebuilt buffer: data followed by the checksum bits of the sentence. */
  ghost predicate Rebuilt(w: seq<string>, m: string, idx: seq<nat>, buf: seq<bv8>)
    requires IsWordList(w)
  {
    (forall i :: 0 <= i < |idx| ==> idx[i] < 2048) && Split(m) == Words(w, idx) && |buf| == 33 &&
    11 * |idx| <= 264 && BitsOf(buf)[..11 * |idx|] == AllBits(idx)
  }

  /** A buffer with a matching checksum comes from the sentence of its data. */
  lemma MatchAccepted(w: seq<string>, hash: seq<bv8> -> seq<bv8>, m: string, idx: seq<nat>, buf: seq<bv8>, n: nat,
                      len: nat, c: nat)
    requires IsWordList(w) && IsHash(hash) && Rebuilt(w, m, idx, buf) && n == |idx|
    requires (n == 12 && len == 16 && c == 4) || (n == 18 && len == 24 && c == 6) || (n == 24 && len == 32 && c == 8)
    requires SameTop(hash(buf[..len])[0], buf[len], c)
    ensures m == Sentence(w, hash, buf[..len])
  {
    var data := buf[..len];
    var full := data + [hash(data)[0]];
    assert full[..len] == data && full[len] == hash(data)[0];
    BitsAgree(full, buf, len, c);
    assert 11 * n == 8 * len + c;
    AllBitsPrefix(idx, BitsOf(full), 11 * n);
    IndicesAllBits(idx, BitsOf(full));
    JoinSplit(m);
  }

  lemma AllBitsPrefix(idx: seq<nat>, bits: seq<bool>, k: nat)
    requires k == 11 * |idx| <= |bits| && bits[..k] == AllBits(idx)
    ensures AllBits(idx) <= bits
  {
  }

  /** A sentence made from data rebuilds that data, and its checksum matches. */
  lemma SentenceMatches(w: seq<string>, hash: seq<bv8> -> seq<bv8>, m: string, idx: seq<nat>, buf: seq<bv8>,
                        data: seq<bv8>, len: nat, c: nat)
    requires IsWordList(w) && IsHash(hash) && Rebuilt(w, m, idx, buf) && len == |data|
    requires (len == 16 && c == 4) || (len == 24 && c == 6) || (len == 32 && c == 8)
    requires m == Sentence(w, hash, data)
    ensures |idx| == len * 3 / 4 && buf[..len] == data && SameTop(hash(data)[0], buf[len], c)
  {
    var full := data + [hash(data)[0]];
    var n := len * 3 / 4;
    SentenceIndices(w, hash, m, idx, data, full, n);
    assert full[..len] == data && full[len] == hash(data)[0];
    SameBits(full, idx, n, buf, len, c);
  }

  lemma SentenceIndices(w: seq<string>, hash: seq<bv8> -> seq<bv8>, m: string, idx: seq<nat>, data: seq<bv8>,
                        full: seq<bv8>, n: nat)
    requires IsWordList(w) && IsHash(hash) && GoodLength(|data|) && m == Sentence(w, hash, data)
    requires (forall i :: 0 <= i < |idx| ==> idx[i] < 2048) && Split(m) == Words(w, idx)
    requires full == data + [hash(data)[0]] && n == |data| * 3 / 4
    ensures 11 * n <= |BitsOf(full)| && idx == Indices(BitsOf(full), n)
  {
    SentenceSplits(w, hash, data);
    WordsInjective(w, idx, Indices(BitsOf(full), n));
  }

  lemma SameBits(full: seq<bv8>, idx: seq<nat>, n: nat, buf: seq<bv8>, len: nat, c: nat)
    requires |buf| == 33 && |full| == len + 1 <= 33 && c <= 8 && 11 * n == 8 * len + c && 11 * n <= |BitsOf(full)|
    requires idx == Indices(BitsOf(full), n) && BitsOf(buf)[..11 * n] == AllBits(idx)
    ensures buf[..len] == full[..len] && SameTop(full[len], buf[len], c)
  {
    AllBitsIndices(BitsOf(full), n);
    BitsAgree(full, buf, len, c);
  }

  /** The number of words is one more than the number of spaces. */
  lemma {:induction false} WordCount(m: string)
    ensures |Split(m)| == Spaces(m, |m|) + 1
    decreases |m|
  {
    var j := FirstSpace(m, 0);
    SpacesNone(m, j);
    if j < |m| {
      WordCount(m[j + 1..]);
      SpacesShift(m, j + 1, |m|);
    }
  }

  function Spaces(m: string, i: nat): nat
    requires i <= |m|
  {
    if i == 0 then 0 else Spaces(m, i - 1) + if m[i - 1] == ' ' then 1 else 0
  }

  lemma {:induction false} SpacesNone(m: string, i: nat)
    requires i <= |m| && forall k :: 0 <= k < i ==> m[k] != ' '
    ensures Spaces(m, i) == 0
  {
    if i > 0 { SpacesNone(m, i - 1); }
  }

  lemma {:induction false} SpacesShift(m: string, j: nat, i: nat)
    requires j <= i <= |m|
    ensures Spaces(m, i) == Spaces(m, j) + Spaces(m[j..], i - j)
    decreases i
  {
    if j < i {
      SpacesShift(m, j, i - 1);
      assert m[j..][i - j - 1] == m[i - 1];
    }
  }

  method CountWords(m: string) returns (n: nat)
    ensures n == |Split(m)|
  {
    n := 0;
    for i := 0 to |m|
      invariant n == Spaces(m, i)
    {
      if m[i] == ' ' {
        n := n + 1;
      }
    }
    n := n + 1;
    WordCount(m);
  }

  /** Reads a word, of nine characters at most. */
  method ReadWord(m: string, i: nat) returns (ok: bool, word: string)
    requires i <= |m|
    ensures ok <==> FirstSpace(m, i) - i <= 9
    ensures ok ==> word == m[i..FirstSpace(m, i)]
  {
    word := "";
    ghost var stop := FirstSpace(m, i);
    while i + |word| < |m| && m[i + |word|] != ' '
      invariant i + |word| <= stop && word == m[i..i + |word|] && |word| <= 9
      decreases |m| - |word|
    {
      if |word| >= 9 {
        return false, word;
      }
      word := word + [m[i + |word|]];
    }
    ok := true;
  }

  method FindWord(w: seq<string>, word: string) returns (found: bool, x: nat)
    ensures found <==> word in w
    ensures found ==> x < |w| && w[x] == word
  {
    for k := 0 to |w|
      invariant forall j :: 0 <= j < k ==> w[j] != word
    {
      if word == w[k] {
        return true, k;
      }
    }
    return false, 0;
  }

  /** Nothing is set from bit k on. */
  ghost predicate ClearFrom(s: seq<bv8>, k: nat) {
    forall i :: k <= i < 8 * |s| ==> !BitsOf(s)[i]
  }

  method WriteBit(bits: array<bv8>, at: nat, yes: bool)
    requires at < 8 * bits.Length && ClearFrom(bits[..], at)
    modifies bits
    ensures BitsOf(bits[..])[..at + 1] == old(BitsOf(bits[..]))[..at] + [yes] && ClearFrom(bits[..], at + 1)
  {
    ghost var s := bits[..];
    if yes {
      SetBit(s, at);
      bits[at / 8] := bits[at / 8] | Bit(7 - at % 8);
      assert bits[..] == s[at / 8 := s[at / 8] | Bit(7 - at % 8)];
    }
  }

  /** Appends the eleven bits of a word index to the buffer. */
  method WriteIndex(bits: array<bv8>, count: nat, x: nat)
    requires count + 11 <= 8 * bits.Length && ClearFrom(bits[..], count)
    modifies bits
    ensures BitsOf(bits[..])[..count + 11] == old(BitsOf(bits[..]))[..count] + Expand(x, 11) &&
            ClearFrom(bits[..], count + 11)
  {
    ghost var was := BitsOf(bits[..])[..count];
    ghost var e := Expand(x, 11);
    assert e[..0] == [];
    for j := 0 to 11
      invariant BitsOf(bits[..])[..count + j] == was + e[..j] && ClearFrom(bits[..], count + j)
    {
      ExpandAt(x, 11, j);
      assert e[..j + 1] == e[..j] + [e[j]];
      WriteBit(bits, count + j, (x / Pow(2, 10 - j)) % 2 == 1);
    }
    assert e[..11] == e;
  }

  /** The buffer holds the bits of the given indices and nothing else. */
  ghost predicate Filled(idx: seq<nat>, buf: seq<bv8>) {
    |buf| == 33 && 11 * |idx| <= 264 && BitsOf(buf)[..11 * |idx|] == AllBits(idx) && ClearFrom(buf, 11 * |idx|)
  }

  /** The words before position i are those of the given indices; past the last word i is |m| + 1. */
  ghost predicate Read(w: seq<string>, m: string, i: nat, idx: seq<nat>)
    requires IsWordList(w)
  {
    i <= |m| + 1 && (forall k :: 0 <= k < |idx| ==> idx[k] < 2048) &&
    Split(m) == Words(w, idx) + (if i <= |m| then Split(m[i..]) else [])
  }

  /** What has been read and written when position i is reached, kept folded. */
  ghost predicate Progress(w: seq<string>, m: string, i: nat, idx: seq<nat>, buf: seq<bv8>)
    requires IsWordList(w)
  {
    forall z {:trigger Inside(z)} :: Inside(z) ==> Read(w, m, i, idx) && Filled(idx, buf)
  }

  lemma OpenProgress(w: seq<string>, m: string, i: nat, idx: seq<nat>, buf: seq<bv8>)
    requires IsWordList(w) && Progress(w, m, i, idx, buf)
    ensures Read(w, m, i, idx) && Filled(idx, buf)
  {
    assert Inside(0);
  }

  /** Splitting off the word at position i. */
  lemma SplitNext(m: string, i: nat)
    requires i <= |m|
    ensures var j := FirstSpace(m, i);
            Split(m[i..]) == [m[i..j]] + if j < |m| then Split(m[j + 1..]) else []
  {
    var j, t := FirstSpace(m, i), m[i..];
    FirstSpaceIs(t, j - i);
    assert t[..j - i] == m[i..j];
    if j < |m| {
      assert t[j - i + 1..] == m[j + 1..];
    } else {
      assert t == m[i..j] && Split(t) == [t];
    }
  }

  lemma WordsAppend(w: seq<string>, idx: seq<nat>, x: nat)
    requires (forall k :: 0 <= k < |idx| ==> idx[k] < |w|) && x < |w|
    ensures Words(w, idx + [x]) == Words(w, idx) + [w[x]]
  {
  }

  lemma ProgressStep(w: seq<string>, m: string, i: nat, idx: seq<nat>, buf: seq<bv8>, x: nat, j: nat, buf': seq<bv8>)
    requires IsWordList(w) && i < |m| && Progress(w, m, i, idx, buf)
    requires x < 2048 && w[x] == m[i..FirstSpace(m, i)] && j == FirstSpace(m, i) + 1 && Filled(idx + [x], buf')
    ensures Progress(w, m, j, idx + [x], buf')
  {
    assert Read(w, m, i, idx) by { OpenProgress(w, m, i, idx, buf); }
    WordRead(w, m, i, idx, x);
  }

  lemma FilledStep(idx: seq<nat>, buf: seq<bv8>, x: nat, count: nat, buf': seq<bv8>)
    requires Filled(idx, buf) && |buf'| == 33 && count == 11 * |idx| && count + 11 <= 264
    requires BitsOf(buf')[..count + 11] == BitsOf(buf)[..count] + Expand(x, 11) && ClearFrom(buf', count + 11)
    ensures Filled(idx + [x], buf')
  {
    assert (idx + [x])[..|idx|] == idx;
  }

  lemma WordRead(w: seq<string>, m: string, i: nat, idx: seq<nat>, x: nat)
    requires i < |m| && (forall k :: 0 <= k < |idx| ==> idx[k] < |w|) && x < |w| && w[x] == m[i..FirstSpace(m, i)]
    requires Split(m) == Words(w, idx) + Split(m[i..])
    ensures var j := FirstSpace(m, i);
            Split(m) == Words(w, idx + [x]) + if j < |m| then Split(m[j + 1..]) else []
  {
    var j := FirstSpace(m, i);
    SplitNext(m, i);
    WordsAppend(w, idx, x);
    Regroup(Words(w, idx), w[x], if j < |m| then Split(m[j + 1..]) else []);
  }

  lemma Regroup(a: seq<string>, b: string, c: seq<string>)
    ensures a + ([b] + c) == (a + [b]) + c
  {
  }

  /** Room is left for another word. */
  lemma RoomLeft(w: seq<string>, m: string, i: nat, idx: seq<nat>, buf: seq<bv8>)
    requires IsWordList(w) && i < |m| && Progress(w, m, i, idx, buf) && |Split(m)| <= 24
    ensures 11 * |idx| + 11 <= 264 && Filled(idx, buf)
  {
    OpenProgress(w, m, i, idx, buf);
    assert |Split(m)| == |Words(w, idx)| + |Split(m[i..])|;
  }

  /** Reads one word at position i and appends its bits. */
  method TakeWord(w: seq<string>, m: string, i: nat, bits: array<bv8>, count: nat, ghost idx: seq<nat>)
    returns (ok: bool, next: nat, ghost x: nat)
    requires IsWordList(w) && i < |m| && bits.Length == 33 && count == 11 * |idx| && Progress(w, m, i, idx, bits[..])
    requires |Split(m)| <= 24
    modifies bits
    ensures ok ==> next == FirstSpace(m, i) + 1 && Progress(w, m, next, idx + [x], bits[..])
    ensures !ok ==> m[i..FirstSpace(m, i)] !in w
  {
    next, x := 0, 0;
    var word;
    ok, word := ReadWord(m, i);
    if !ok {
      return;
    }
    next := i + |word| + 1;
    var found, k := FindWord(w, word);
    if !found {
      return false, next, x;
    }
    x := k;
    ghost var buf := bits[..];
    Store(bits, count, k, w, m, i, idx);
    ProgressStep(w, m, i, idx, buf, k, next, bits[..]);
  }

  method Store(bits: array<bv8>, count: nat, k: nat, ghost w: seq<string>, ghost m: string, ghost i: nat,
               ghost idx: seq<nat>)
    requires IsWordList(w) && i < |m| && bits.Length == 33 && count == 11 * |idx| && Progress(w, m, i, idx, bits[..])
    requires |Split(m)| <= 24
    modifies bits
    ensures Filled(idx + [k], bits[..])
  {
    RoomLeft(w, m, i, idx, bits[..]);
    ghost var buf := bits[..];
    WriteIndex(bits, count, k);
    FilledStep(idx, buf, k, count, bits[..]);
  }

  /** Sentences with a word that is not in the list are not accepted. */
  lemma UnknownWord(w: seq<string>, hash: seq<bv8> -> seq<bv8>, m: string, word: string)
    requires IsWordList(w) && IsHash(hash) && word in Split(m) && word !in w
    ensures !Accepts(w, hash, m)
  {
    forall data | MadeFrom(w, hash, m, data) ensures false {
      SentenceSplits(w, hash, data);
    }
  }

  /** Sentences of another length are not accepted. */
  lemma WrongLength(w: seq<string>, hash: seq<bv8> -> seq<bv8>, m: string)
    requires IsWordList(w) && IsHash(hash) && |Split(m)| != 12 && |Split(m)| != 18 && |Split(m)| != 24
    ensures !Accepts(w, hash, m)
  {
    forall data | MadeFrom(w, hash, m, data) ensures false {
      SentenceSplits(w, hash, data);
    }
  }

  /** The checksum comparison decides. */
  lemma ChecksumDecides(w: seq<string>, hash: seq<bv8> -> seq<bv8>, m: string, idx: seq<nat>, buf: seq<bv8>, n: nat,
                        len: nat, c: nat)
    requires IsWordList(w) && IsHash(hash) && Rebuilt(w, m, idx, buf) && n == |idx|
    requires (n == 12 && len == 16 && c == 4) || (n == 18 && len == 24 && c == 6) || (n == 24 && len == 32 && c == 8)
    ensures SameTop(hash(buf[..len])[0], buf[len], c) <==> Accepts(w, hash, m)
    ensures Accepts(w, hash, m) ==> MadeFrom(w, hash, m, buf[..len])
  {
    if SameTop(hash(buf[..len])[0], buf[len], c) {
      MatchAccepted(w, hash, m, idx, buf, n, len, c);
      assert MadeFrom(w, hash, m, buf[..len]);
    }
    if Accepts(w, hash, m) {
      var data :| MadeFrom(w, hash, m, data);
      SentenceSplits(w, hash, data);
      assert |data| == len;
      SentenceMatches(w, hash, m, idx, buf, data, len, c);
    }
  }

  /** The rebuilt buffer is the data a sentence was made from, followed by the checksum bits kept. */
  ghost predicate Holds(w: seq<string>, hash: seq<bv8> -> seq<bv8>, m: string, buffer: seq<bv8>)
    requires IsWordList(w) && IsHash(hash)
  {
    var len := |Split(m)| * 4 / 3;
    |buffer| == 33 && len <= 32 && MadeFrom(w, hash, m, buffer[..len]) &&
    SameTop(hash(buffer[..len])[0], buffer[len], len / 4)
  }

  /** `Check`: accepts exactly the sentences made from 16, 24 or 32 bytes. */
  method Check(w: seq<string>, hash: seq<bv8> -> seq<bv8>, m: string) returns (r: bool, ghost buffer: seq<bv8>)
    requires IsWordList(w) && IsHash(hash)
    ensures r <==> Accepts(w, hash, m)
    ensures r ==> Holds(w, hash, m, buffer)
  {
    buffer := [];
    var n := CountWords(m);
    if m == "" || (n != 12 && n != 18 && n != 24) {
      if m == "" { assert Split(m) == [m]; }
      WrongLength(w, hash, m);
      return false, buffer;
    }
    var bits := new bv8[33](_ => 0);
    ghost var idx: seq<nat> := [];
    var count, i := 0, 0;
    assert m[0..] == m;
    while i < |m|
      invariant Progress(w, m, i, idx, bits[..]) && count == 11 * |idx|
      decreases |m| + 1 - i
    {
      ghost var was, at := idx, i;
      assert Read(w, m, i, idx) by { OpenProgress(w, m, i, idx, bits[..]); }
      ghost var x;
      var ok;
      ok, i, x := TakeWord(w, m, i, bits, count, idx);
      if !ok {
        NotAWord(w, hash, m, at, was);
        return false, buffer;
      }
      idx := idx + [x];
      count := count + 11;
    }
    if count != n * 11 {
      EmptyLast(w, hash, m, i, idx, bits[..]);
      return false, buffer;
    }
    buffer := bits[..];
    OpenProgress(w, m, i, idx, buffer);
    r := Compare(w, hash, m, n, bits[..], idx);
  }

  lemma NotAWord(w: seq<string>, hash: seq<bv8> -> seq<bv8>, m: string, i: nat, idx: seq<nat>)
    requires IsWordList(w) && IsHash(hash) && i < |m| && Read(w, m, i, idx) && m[i..FirstSpace(m, i)] !in w
    ensures !Accepts(w, hash, m)
  {
    SplitNext(m, i);
    assert m[i..FirstSpace(m, i)] in Split(m[i..]);
    UnknownWord(w, hash, m, m[i..FirstSpace(m, i)]);
  }

  /** A sentence that ends in a space has an empty last word. */
  lemma EmptyLast(w: seq<string>, hash: seq<bv8> -> seq<bv8>, m: string, i: nat, idx: seq<nat>, buf: seq<bv8>)
    requires IsWordList(w) && IsHash(hash) && Progress(w, m, i, idx, buf) && i >= |m| && |idx| != |Split(m)|
    ensures !Accepts(w, hash, m)
  {
    OpenProgress(w, m, i, idx, buf);
    assert i == |m| && m[i..] == "";
    assert Split("") == [""];
    assert "" in Split(m);
    UnknownWord(w, hash, m, "");
  }

  /** The end of `Check`: the hash of the rebuilt data against the checksum bits after it. */
  method Compare(w: seq<string>, hash: seq<bv8> -> seq<bv8>, m: string, n: nat, bits: seq<bv8>, ghost idx: seq<nat>)
    returns (r: bool)
    requires IsWordList(w) && IsHash(hash) && Rebuilt(w, m, idx, bits) && n == |idx| && (n == 12 || n == 18 || n == 24)
    ensures r <==> Accepts(w, hash, m)
    ensures r ==> Holds(w, hash, m, bits)
  {
    var len := n * 4 / 3;
    var last := bits[len];
    var h := hash(bits[..len])[0];
    Masks(h, last);
    ChecksumDecides(w, hash, m, idx, bits, n, len, n / 3);
    if n == 12 {
      r := (h & 0xF0) == (last & 0xF0);
    } else if n == 18 {
      r := (h & 0xFC) == (last & 0xFC);
    } else {
      r := h == last;
    }
  }

  /** Any 16, 24 or 32 bytes: the generated sentence is accepted, and the buffer the check rebuilds
      starts with those bytes. For 20 and 28 bytes a sentence is made that the check rejects. */
  method GenerateThenCheck(w: seq<string>, hash: seq<bv8> -> seq<bv8>, data: seq<bv8>)
    returns (m: string, ok: bool, ghost buffer: seq<bv8>)
    requires IsWordList(w) && IsHash(hash) && GoodLength(|data|)
    ensures ok <==> |data| == 16 || |data| == 24 || |data| == 32
    ensures ok ==> |buffer| == 33 && buffer[..|data|] == data && SameTop(hash(data)[0], buffer[|data|], |data| / 4)
  {
    m := FromData(w, hash, data, |data|);
    assert data[..|data|] == data;
    assert |data| != 20 && |data| != 28 ==> MadeFrom(w, hash, m, data);
    ok, buffer := Check(w, hash, m);
    SentenceSplits(w, hash, data);
    if |data| == 20 || |data| == 28 {
      WrongLength(w, hash, m);
    } else {
      SentenceInjective(w, hash, data, buffer[..|data|]);
    }
  }

  /** Different data give different sentences. */
  lemma SentenceInjective(w: seq<string>, hash: seq<bv8> -> seq<bv8>, a: seq<bv8>, b: seq<bv8>)
    requires IsWordList(w) && IsHash(hash) && GoodLength(|a|) && GoodLength(|b|)
    requires Sentence(w, hash, a) == Sentence(w, hash, b)
    ensures a == b
  {
    var s, t := a + [hash(a)[0]], b + [hash(b)[0]];
    var n := |a| * 3 / 4;
    SentenceSplits(w, hash, a);
    SentenceSplits(w, hash, b);
    assert |a| == |b|;
    SentenceIndices(w, hash, Sentence(w, hash, b), Indices(BitsOf(s), n), b, t, n);
    SameIndices(s, t, n, |a|);
    assert s[..|a|] == a && t[..|a|] == b;
  }

  lemma SameIndices(s: seq<bv8>, t: seq<bv8>, n: nat, len: nat)
    requires |s| == |t| && len <= |s| && 8 * len <= 11 * n <= 8 * |s| && Indices(BitsOf(s), n) == Indices(BitsOf(t), n)
    ensures s[..len] == t[..len]
  {
    AllBitsIndices(BitsOf(s), n);
    AllBitsIndices(BitsOf(t), n);
    BitsPrefix(s[..len], s);
    BitsPrefix(t[..len], t);
    assert BitsOf(s)[..11 * n][..8 * len] == BitsOf(s)[..8 * len];
    assert BitsOf(t)[..11 * n][..8 * len] == BitsOf(t)[..8 * len];
    BytesEqual(s[..len], t[..len]);
  }
}
