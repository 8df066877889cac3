/** The compact form of a `CCoins` record: a header code, a spentness bitmask and the unspent
    outputs. Variable-length integers and compressed outputs are single tokens of the stream. */
module CoinsCodec {
  import opened Bytes
  import opened Coins

  datatype Token = Num(n: int) | Byte(b: bv8) | Out(o: TxOut)

  datatype Read<T> = Failed | Done(value: T, rest: seq<Token>)

  predicate Avail(vout: seq<TxOut>, i: nat) {
    i < |vout| && !vout[i].IsNull()
  }

  // ----- the bitmask -----

  /** The output that bit p of mask byte b stands for is unspent. */
  predicate AvailBit(vout: seq<TxOut>, b: nat, p: nat) {
    Avail(vout, 2 + b * 8 + p)
  }

  /** Some output covered by mask byte b is unspent. */
  predicate NonZero(vout: seq<TxOut>, b: nat) {
    exists i :: 0 <= i < 8 && AvailBit(vout, b, i)
  }

  /** Non-zero mask bytes from b up to n. */
  function Count(vout: seq<TxOut>, b: nat, n: nat): nat
    requires b <= n
    decreases n - b
  {
    if b == n then 0 else (if NonZero(vout, b) then 1 else 0) + Count(vout, b + 1, n)
  }

  lemma {:induction false} CountLast(vout: seq<TxOut>, b: nat, n: nat)
    requires b <= n
    ensures Count(vout, b, n + 1) == Count(vout, b, n) + if NonZero(vout, n) then 1 else 0
    decreases n - b
  {
    if b < n { CountLast(vout, b + 1, n); }
  }

  /** No byte from b up to n counts. */
  lemma {:induction false} CountNone(vout: seq<TxOut>, b: nat, m: nat, n: nat)
    requires b <= m <= n && forall k :: m <= k < n ==> !NonZero(vout, k)
    ensures Count(vout, b, n) == Count(vout, b, m)
    decreases n - m
  {
    if m < n {
      CountNone(vout, b, m, n - 1);
      CountLast(vout, b, n - 1);
    }
  }

  /** The number of bytes up to the last non-zero one. */
  ghost predicate IsMaskSize(vout: seq<TxOut>, n: nat) {
    (n > 0 ==> NonZero(vout, n - 1)) && forall b {:trigger NonZero(vout, b)} :: b >= n ==> !NonZero(vout, b)
  }

  lemma MaskSizeUnique(vout: seq<TxOut>, m: nat, n: nat)
    requires IsMaskSize(vout, m) && IsMaskSize(vout, n)
    ensures m == n
  {
  }

  lemma BeyondEnd(vout: seq<TxOut>)
    ensures forall b {:trigger NonZero(vout, b)} :: 2 + b * 8 >= |vout| ==> !NonZero(vout, b)
  {
  }

  function MaskSizeBelow(vout: seq<TxOut>, n: nat): (r: nat)
    ensures r <= n && (r > 0 ==> NonZero(vout, r - 1)) &&
            forall b {:trigger NonZero(vout, b)} :: r <= b < n ==> !NonZero(vout, b)
  {
    if n == 0 then 0 else if NonZero(vout, n - 1) then n else MaskSizeBelow(vout, n - 1)
  }

  function MaskSize(vout: seq<TxOut>): (r: nat)
    ensures IsMaskSize(vout, r)
  {
    BeyondEnd(vout);
    MaskSizeBelow(vout, |vout|)
  }

  /** `CalcMaskSize`. */
  method CalcMaskSize(c: Coins) returns (bytes: nat, nonzero: nat)
    ensures IsMaskSize(c.vout, bytes) && nonzero == Count(c.vout, 0, bytes)
  {
    var lastUsed := 0;
    nonzero := 0;
    var b := 0;
    while 2 + b * 8 < |c.vout|
      invariant lastUsed <= b && nonzero == Count(c.vout, 0, lastUsed)
      invariant lastUsed > 0 ==> NonZero(c.vout, lastUsed - 1)
      invariant forall k :: lastUsed <= k < b ==> !NonZero(c.vout, k)
    {
      var zero := true;
      var i := 0;
      while i < 8 && 2 + b * 8 + i < |c.vout|
        invariant 0 <= i <= 8
        invariant zero <==> forall j :: 0 <= j < i ==> !AvailBit(c.vout, b, j)
      {
        assert AvailBit(c.vout, b, i) <==> !c.vout[2 + b * 8 + i].IsNull();
        if !c.vout[2 + b * 8 + i].IsNull() {
          zero := false;
        }
        i := i + 1;
      }
      assert forall j :: i <= j < 8 ==> !AvailBit(c.vout, b, j);
      assert zero <==> !NonZero(c.vout, b);
      if !zero {
        CountNone(c.vout, 0, lastUsed, b);
        CountLast(c.vout, 0, b);
        lastUsed := b + 1;
        nonzero := nonzero + 1;
      }
      b := b + 1;
    }
    BeyondEnd(c.vout);
    bytes := lastUsed;
  }

  /** The first n bits of mask byte b. */
  function MaskBits(vout: seq<TxOut>, b: nat, n: nat): bv8
    requires n <= 8
  {
    if n == 0 then 0 else MaskBits(vout, b, n - 1) | if AvailBit(vout, b, n - 1) then Bit(n - 1) else 0
  }

  function MaskByte(vout: seq<TxOut>, b: nat): bv8 {
    MaskBits(vout, b, 8)
  }

  lemma {:induction false} MaskBitsAt(vout: seq<TxOut>, b: nat, n: nat, p: nat)
    requires n <= 8 && p < 8
    ensures (MaskBits(vout, b, n) & Bit(p) != 0) <==> p < n && AvailBit(vout, b, p)
  {
    if n > 0 {
      MaskBitsAt(vout, b, n - 1, p);
      BitAlone(MaskBits(vout, b, n - 1), p, n - 1);
    }
  }

  lemma MaskByteFacts(vout: seq<TxOut>, b: nat)
    ensures MaskByte(vout, b) != 0 <==> NonZero(vout, b)
    ensures forall p :: 0 <= p < 8 ==> ((MaskByte(vout, b) & Bit(p) != 0) <==> AvailBit(vout, b, p))
  {
    forall p | 0 <= p < 8 ensures (MaskByte(vout, b) & Bit(p) != 0) <==> AvailBit(vout, b, p) {
      MaskBitsAt(vout, b, 8, p);
    }
    ZeroByte(MaskByte(vout, b));
  }

  // ----- writing -----

  /** Mask bytes b up to n. */
  function MaskBytes(vout: seq<TxOut>, b: nat, n: nat): seq<Token>
    requires b <= n
    decreases n - b
  {
    if b == n then [] else [Byte(MaskByte(vout, b))] + MaskBytes(vout, b + 1, n)
  }

  lemma {:induction false} MaskBytesLast(vout: seq<TxOut>, b: nat, n: nat)
    requires b <= n
    ensures MaskBytes(vout, b, n + 1) == MaskBytes(vout, b, n) + [Byte(MaskByte(vout, n))]
    decreases n - b
  {
    if b < n { MaskBytesLast(vout, b + 1, n); }
  }

  /** The unspent outputs from i on. */
  function Outs(vout: seq<TxOut>, i: nat): seq<Token>
    requires i <= |vout|
    decreases |vout| - i
  {
    if i == |vout| then [] else (if vout[i].IsNull() then [] else [Out(vout[i])]) + Outs(vout, i + 1)
  }

  function Flag(b: bool, weight: nat): nat { if b then weight else 0 }

  function HeaderCode(c: Coins): int {
    var first, second := Avail(c.vout, 0), Avail(c.vout, 1);
    16 * (Count(c.vout, 0, MaskSize(c.vout)) - if first || second then 0 else 1) +
    Flag(c.coinBase, 1) + Flag(c.coinStake, 2) + Flag(first, 4) + Flag(second, 8)
  }

  function Encoded(c: Coins): seq<Token> {
    [Num(c.version), Num(HeaderCode(c))] + MaskBytes(c.vout, 0, MaskSize(c.vout)) + Outs(c.vout, 0) + [Num(c.height)]
  }

  /** The assertion of `Serialize`: something is unspent. */
  lemma SomethingAvailable(c: Coins)
    ensures (Avail(c.vout, 0) || Avail(c.vout, 1) || Count(c.vout, 0, MaskSize(c.vout)) > 0) <==> !IsPruned(c)
  {
    var n := MaskSize(c.vout);
    if n > 0 {
      CountLast(c.vout, 0, n - 1);
      assert NonZero(c.vout, n - 1);
    } else {
      PastMask(c.vout, 0);
    }
  }

  /** `Serialize`; a pruned record may not be serialized. */
  method Serialize(c: Coins) returns (s: seq<Token>)
    requires !IsPruned(c)
    ensures s == Encoded(c)
  {
    var maskSize, maskCode := CalcMaskSize(c);
    MaskSizeUnique(c.vout, maskSize, MaskSize(c.vout));
    var first := |c.vout| > 0 && !c.vout[0].IsNull();
    var second := |c.vout| > 1 && !c.vout[1].IsNull();
    SomethingAvailable(c);
    assert first || second || maskCode > 0;
    var code := 16 * (maskCode - if first || second then 0 else 1) +
                Flag(c.coinBase, 1) + Flag(c.coinStake, 2) + Flag(first, 4) + Flag(second, 8);
    s := [Num(c.version), Num(code)];
    var mask := WriteMask(c.vout, maskSize);
    var outs := WriteOuts(c.vout);
    s := s + mask + outs + [Num(c.height)];
  }

  method WriteMask(vout: seq<TxOut>, maskSize: nat) returns (mask: seq<Token>)
    ensures mask == MaskBytes(vout, 0, maskSize)
  {
    mask := [];
    for b := 0 to maskSize
      invariant mask == MaskBytes(vout, 0, b)
    {
      var avail: bv8 := 0;
      var i := 0;
      while i < 8 && 2 + b * 8 + i < |vout|
        invariant 0 <= i <= 8 && avail == MaskBits(vout, b, i)
      {
        assert AvailBit(vout, b, i) <==> !vout[2 + b * 8 + i].IsNull();
        if !vout[2 + b * 8 + i].IsNull() {
          avail := avail | Bit(i);
        }
        i := i + 1;
      }
      MaskBitsShort(vout, b, i, 8);
      MaskBytesLast(vout, 0, b);
      mask := mask + [Byte(avail)];
    }
  }

  method WriteOuts(vout: seq<TxOut>) returns (outs: seq<Token>)
    ensures outs == Outs(vout, 0)
  {
    outs := [];
    for i := 0 to |vout|
      invariant outs + Outs(vout, i) == Outs(vout, 0)
    {
      if !vout[i].IsNull() {
        assert Outs(vout, i) == [Out(vout[i])] + Outs(vout, i + 1);
        outs := outs + [Out(vout[i])];
      }
    }
  }

  /** Bits past the last output are clear. */
  lemma {:induction false} MaskBitsShort(vout: seq<TxOut>, b: nat, m: nat, n: nat)
    requires m <= n <= 8 && (m == 8 || 2 + b * 8 + m >= |vout|)
    ensures MaskBits(vout, b, n) == MaskBits(vout, b, m)
    decreases n - m
  {
    if m < n { MaskBitsShort(vout, b, m, n - 1); }
  }

  // ----- reading -----

  function Bits(x: bv8): (r: seq<bool>)
    ensures |r| == 8
  {
    seq(8, p requires 0 <= p < 8 => x & Bit(p) != 0)
  }

  /** Mask bytes are read until enough non-zero ones have come. */
  function ReadMask(s: seq<Token>, need: nat, avail: seq<bool>): Read<seq<bool>> {
    if need == 0 then Done(avail, s)
    else if s == [] || !s[0].Byte? then Failed
    else ReadMask(s[1..], if s[0].b != 0 then need - 1 else need, avail + Bits(s[0].b))
  }

  function ReadOuts(s: seq<Token>, avail: seq<bool>, i: nat, vout: seq<TxOut>): Read<seq<TxOut>>
    requires i <= |avail|
    decreases |avail| - i
  {
    if i == |avail| then Done(vout, s)
    else if !avail[i] then ReadOuts(s, avail, i + 1, vout + [NullOut])
    else if s == [] || !s[0].Out? then Failed
    else ReadOuts(s[1..], avail, i + 1, vout + [s[0].o])
  }

  predicate CodeBit(code: nat, weight: nat)
    requires weight > 0
  {
    (code / weight) % 2 == 1
  }

  function NeededBytes(code: nat): nat {
    code / 16 + if CodeBit(code, 4) || CodeBit(code, 8) then 0 else 1
  }

  function Decoded(s: seq<Token>): Read<Coins> {
    if |s| < 2 || !s[0].Num? || !s[1].Num? || s[1].n < 0 then Failed else
      var code := s[1].n;
      match ReadMask(s[2..], NeededBytes(code), [CodeBit(code, 4), CodeBit(code, 8)])
      case Failed => Failed
      case Done(avail, s') =>
        match ReadOuts(s', avail, 0, [])
        case Failed => Failed
        case Done(vout, s'') =>
          if s'' == [] || !s''[0].Num? then Failed
          else Done(Cleaned(Coins(CodeBit(code, 1), CodeBit(code, 2), vout, s''[0].n, s[0].n)), s''[1..])
  }

  /** `Unserialize`; it fails when the stream ends early or holds something else. */
  method Unserialize(s: seq<Token>) returns (r: Read<Coins>)
    ensures r == Decoded(s)
  {
    if |s| < 2 || !s[0].Num? || !s[1].Num? || s[1].n < 0 {
      return Failed;
    }
    var code := s[1].n;
    var avail := [CodeBit(code, 4), CodeBit(code, 8)];
    var maskCode: nat := code / 16 + if CodeBit(code, 4) || CodeBit(code, 8) then 0 else 1;
    var rest := s[2..];
    ghost var mask := ReadMask(rest, maskCode, avail);
    while maskCode > 0
      invariant ReadMask(rest, maskCode, avail) == mask
      decreases |rest|
    {
      if rest == [] || !rest[0].Byte? {
        return Failed;
      }
      var ch := rest[0].b;
      var more := ReadByte(ch);
      avail := avail + more;
      if ch != 0 {
        maskCode := maskCode - 1;
      }
      rest := rest[1..];
    }
    var vout: seq<TxOut> := [];
    ghost var outs := ReadOuts(rest, avail, 0, []);
    for i := 0 to |avail|
      invariant ReadOuts(rest, avail, i, vout) == outs
    {
      if avail[i] {
        if rest == [] || !rest[0].Out? {
          return Failed;
        }
        vout := vout + [rest[0].o];
        rest := rest[1..];
      } else {
        vout := vout + [NullOut];
      }
    }
    if rest == [] || !rest[0].Num? {
      return Failed;
    }
    var c := Cleanup(Coins(CodeBit(code, 1), CodeBit(code, 2), vout, rest[0].n, s[0].n));
    r := Done(c, rest[1..]);
  }

  method ReadByte(ch: bv8) returns (avail: seq<bool>)
    ensures avail == Bits(ch)
  {
    avail := [];
    for p := 0 to 8
      invariant |avail| == p && forall q :: 0 <= q < p ==> avail[q] == Bits(ch)[q]
    {
      avail := avail + [ch & Bit(p) != 0];
    }
  }

  // ----- the round trip -----

  ghost predicate Describes(vout: seq<TxOut>, avail: seq<bool>) {
    forall i {:trigger avail[i]} :: 0 <= i < |avail| ==> avail[i] == Avail(vout, i)
  }

  lemma DescribesByte(vout: seq<TxOut>, avail: seq<bool>, b: nat)
    requires Describes(vout, avail) && |avail| == 2 + 8 * b
    ensures Describes(vout, avail + Bits(MaskByte(vout, b)))
  {
    MaskByteFacts(vout, b);
    var all := avail + Bits(MaskByte(vout, b));
    forall i | 0 <= i < |all| ensures all[i] == Avail(vout, i) {
      if i >= |avail| {
        var p := i - |avail|;
        assert all[i] == Bits(MaskByte(vout, b))[p];
        assert AvailBit(vout, b, p) == Avail(vout, i);
      }
    }
  }

  /** Reading stops exactly after the last mask byte, with every output described. */
  lemma {:induction false} ReadMaskBack(vout: seq<TxOut>, b: nat, n: nat, avail: seq<bool>, rest: seq<Token>)
    returns (all: seq<bool>)
    requires b <= n && IsMaskSize(vout, n) && Describes(vout, avail) && |avail| == 2 + 8 * b
    ensures |all| == 2 + 8 * n && Describes(vout, all)
    ensures ReadMask(MaskBytes(vout, b, n) + rest, Count(vout, b, n), avail) == Done(all, rest)
    decreases n - b
  {
    if b == n {
      all := avail;
      assert MaskBytes(vout, b, n) + rest == rest;
    } else {
      var x := MaskByte(vout, b);
      MaskByteFacts(vout, b);
      DescribesByte(vout, avail, b);
      all := ReadMaskBack(vout, b + 1, n, avail + Bits(x), rest);
      CountLast(vout, b, n - 1);
      var s := MaskBytes(vout, b, n) + rest;
      assert s[0] == Byte(x) && s[1..] == MaskBytes(vout, b + 1, n) + rest;
    }
  }

  /** The outputs with every spent one cleared. */
  function Nulled(vout: seq<TxOut>): (r: seq<TxOut>)
    ensures |r| == |vout|
  {
    seq(|vout|, i requires 0 <= i < |vout| => if vout[i].IsNull() then NullOut else vout[i])
  }

  function At(vout: seq<TxOut>, i: nat): TxOut {
    if Avail(vout, i) then vout[i] else NullOut
  }

  lemma {:induction false} OutsNone(vout: seq<TxOut>, i: nat)
    requires i <= |vout| && forall k :: i <= k < |vout| ==> vout[k].IsNull()
    ensures Outs(vout, i) == []
    decreases |vout| - i
  {
    if i < |vout| { OutsNone(vout, i + 1); }
  }

  function OutsFrom(vout: seq<TxOut>, i: nat): seq<Token> {
    if i <= |vout| then Outs(vout, i) else []
  }

  lemma {:induction false} ReadOutsBack(vout: seq<TxOut>, avail: seq<bool>, i: nat, got: seq<TxOut>, rest: seq<Token>)
    returns (all: seq<TxOut>)
    requires i <= |avail| && Describes(vout, avail) && forall k :: |avail| <= k < |vout| ==> vout[k].IsNull()
    requires |got| == i && forall k :: 0 <= k < i ==> got[k] == At(vout, k)
    ensures |all| == |avail| && forall k :: 0 <= k < |all| ==> all[k] == At(vout, k)
    ensures ReadOuts(OutsFrom(vout, i) + rest, avail, i, got) == Done(all, rest)
    decreases |avail| - i
  {
    if i == |avail| {
      all := got;
      if i <= |vout| { OutsNone(vout, i); }
      assert OutsFrom(vout, i) + rest == rest;
    } else {
      var more := got + [At(vout, i)];
      all := ReadOutsBack(vout, avail, i + 1, more, rest);
      ReadOutsNext(vout, avail, i, got, more, rest);
    }
  }

  /** Reading one output, or passing one that is spent. */
  lemma ReadOutsNext(vout: seq<TxOut>, avail: seq<bool>, i: nat, got: seq<TxOut>, more: seq<TxOut>, rest: seq<Token>)
    requires i < |avail| && Describes(vout, avail) && more == got + [At(vout, i)]
    ensures ReadOuts(OutsFrom(vout, i) + rest, avail, i, got) ==
            ReadOuts(OutsFrom(vout, i + 1) + rest, avail, i + 1, more)
  {
    assert avail[i] == Avail(vout, i);
    if avail[i] {
      var s := OutsFrom(vout, i) + rest;
      assert s[0] == Out(vout[i]) && s[1..] == OutsFrom(vout, i + 1) + rest;
    } else {
      assert OutsFrom(vout, i) == OutsFrom(vout, i + 1);
    }
  }

  /** Outputs past the mask are all spent. */
  lemma PastMask(vout: seq<TxOut>, n: nat)
    requires IsMaskSize(vout, n)
    ensures forall k :: 2 + 8 * n <= k < |vout| ==> vout[k].IsNull()
  {
    forall k | 2 + 8 * n <= k < |vout| ensures vout[k].IsNull() {
      var b := (k - 2) / 8;
      assert !NonZero(vout, b);
      assert !AvailBit(vout, b, (k - 2) % 8);
    }
  }

  lemma HeaderBack(c: Coins)
    requires !IsPruned(c)
    ensures var code := HeaderCode(c);
            code >= 0 && (CodeBit(code, 1) <==> c.coinBase) && (CodeBit(code, 2) <==> c.coinStake) &&
            (CodeBit(code, 4) <==> Avail(c.vout, 0)) && (CodeBit(code, 8) <==> Avail(c.vout, 1)) &&
            NeededBytes(code) == Count(c.vout, 0, MaskSize(c.vout))
  {
    SomethingAvailable(c);
    HeaderFormat(c);
  }

  /** The header: the coinbase and coinstake flags, whether the first two outputs are unspent, and from the fifth
      bit on the number of mask bytes that are not zero, less one if neither of the first two is unspent. */
  lemma HeaderFormat(c: Coins)
    requires !IsPruned(c)
    ensures var code, mask := HeaderCode(c), Count(c.vout, 0, MaskSize(c.vout));
            (code % 2 == 1 <==> c.coinBase) && (code / 2 % 2 == 1 <==> c.coinStake) &&
            (code / 4 % 2 == 1 <==> Avail(c.vout, 0)) && (code / 8 % 2 == 1 <==> Avail(c.vout, 1)) &&
            code / 16 == if Avail(c.vout, 0) || Avail(c.vout, 1) then mask else mask - 1
  {
    SomethingAvailable(c);
    var k := Count(c.vout, 0, MaskSize(c.vout)) - if Avail(c.vout, 0) || Avail(c.vout, 1) then 0 else 1;
    FlagBits(HeaderCode(c), k, Flag(c.coinBase, 1), Flag(c.coinStake, 2), Flag(Avail(c.vout, 0), 4),
             Flag(Avail(c.vout, 1), 8));
  }

  lemma FlagBits(code: int, k: nat, a: nat, b: nat, c: nat, d: nat)
    requires a in {0, 1} && b in {0, 2} && c in {0, 4} && d in {0, 8} && code == 16 * k + a + b + c + d
    ensures code % 2 == a && code / 2 % 2 == b / 2 && code / 4 % 2 == c / 4 && code / 8 % 2 == d / 8 && code / 16 == k
  {
    HeaderBits(code, k, a + b + c + d);
    FourFlags(a, b, c, d);
  }

  lemma FourFlags(a: nat, b: nat, c: nat, d: nat)
    requires a in {0, 1} && b in {0, 2} && c in {0, 4} && d in {0, 8}
    ensures var flags := a + b + c + d;
            flags % 2 == a && flags / 2 % 2 == b / 2 && flags / 4 % 2 == c / 4 && flags / 8 % 2 == d / 8 && flags < 16
  {
  }

  lemma HeaderBits(code: int, k: nat, flags: nat)
    requires flags < 16 && code == 16 * k + flags
    ensures code / 16 == k && code % 2 == flags % 2
    ensures (code / 2) % 2 == (flags / 2) % 2
    ensures (code / 4) % 2 == (flags / 4) % 2
    ensures (code / 8) % 2 == (flags / 8) % 2
  {
    HalfCode(code, 8 * k, flags, 2);
    HalfCode(code, 4 * k, flags, 4);
    HalfCode(code, 2 * k, flags, 8);
  }

  lemma HalfCode(code: int, m: nat, flags: nat, weight: nat)
    requires weight == 2 || weight == 4 || weight == 8
    requires m % 2 == 0 && code == weight * m + flags
    ensures (code / weight) % 2 == (flags / weight) % 2
  {
    assert code / weight == m + flags / weight;
  }

  /** What a record becomes by being written and read: spent outputs are cleared, those at the end dropped. */
  function Normal(c: Coins): Coins {
    Cleaned(c.(vout := Nulled(c.vout)))
  }

  lemma TrimSame(vout: seq<TxOut>, all: seq<TxOut>)
    requires forall k :: 0 <= k < |all| ==> all[k] == At(vout, k)
    requires forall k :: |all| <= k < |vout| ==> vout[k].IsNull()
    ensures Trim(all) == Trim(Nulled(vout))
  {
    var nulled := Nulled(vout);
    forall k | 0 <= k < |all| ensures if k < |nulled| then nulled[k] == all[k] else all[k].IsNull() {
      assert all[k] == At(vout, k);
    }
    forall k | |all| <= k < |nulled| ensures nulled[k].IsNull() {
      assert vout[k].IsNull();
    }
    TrimAgree(all, nulled);
  }

  /** Sequences that differ only in trailing nulls are trimmed to the same. */
  lemma TrimAgree(a: seq<TxOut>, b: seq<TxOut>)
    requires forall k :: 0 <= k < |a| ==> if k < |b| then b[k] == a[k] else a[k].IsNull()
    requires forall k :: |a| <= k < |b| ==> b[k].IsNull()
    ensures Trim(a) == Trim(b)
  {
    var r := Trim(a);
    TrimFacts(a);
    assert forall k :: 0 <= k < |r| ==> r[k] == a[k];
    assert |r| <= |b|;
    PrefixTrim(b, r);
  }

  lemma PrefixTrim(v: seq<TxOut>, r: seq<TxOut>)
    requires |r| <= |v| && (forall k :: 0 <= k < |r| ==> r[k] == v[k]) && (r == [] || !r[|r| - 1].IsNull())
    requires forall k :: |r| <= k < |v| ==> v[k].IsNull()
    ensures r == Trim(v)
  {
    assert r == v[..|r|];
    TrimUnique(v, r);
  }

  /** Reading back what was written, whatever follows in the stream. */
  lemma RoundTrip(c: Coins, rest: seq<Token>)
    requires !IsPruned(c)
    ensures Decoded(Encoded(c) + rest) == Done(Normal(c), rest)
  {
    var n, code := MaskSize(c.vout), HeaderCode(c);
    var tail := [Num(c.height)] + rest;
    HeaderBack(c);
    var avail := ReadMaskBack(c.vout, 0, n, [Avail(c.vout, 0), Avail(c.vout, 1)], Outs(c.vout, 0) + tail);
    PastMask(c.vout, n);
    var all := ReadOutsBack(c.vout, avail, 0, [], tail);
    TrimSame(c.vout, all);
    var s := Encoded(c) + rest;
    EncodedParts(c, rest, s, n, tail);
    DecodedParts(s, code, avail, Outs(c.vout, 0) + tail, all, tail);
    assert tail[1..] == rest;
  }

  lemma EncodedParts(c: Coins, rest: seq<Token>, s: seq<Token>, n: nat, tail: seq<Token>)
    requires !IsPruned(c) && s == Encoded(c) + rest && n == MaskSize(c.vout) && tail == [Num(c.height)] + rest
    ensures |s| >= 2 && s[0] == Num(c.version) && s[1] == Num(HeaderCode(c))
    ensures s[2..] == MaskBytes(c.vout, 0, n) + (Outs(c.vout, 0) + tail)
  {
  }

  lemma DecodedParts(s: seq<Token>, code: nat, avail: seq<bool>, s1: seq<Token>, vout: seq<TxOut>, s2: seq<Token>)
    requires |s| >= 2 && s[0].Num? && s[1] == Num(code) && s2 != [] && s2[0].Num?
    requires ReadMask(s[2..], NeededBytes(code), [CodeBit(code, 4), CodeBit(code, 8)]) == Done(avail, s1)
    requires ReadOuts(s1, avail, 0, []) == Done(vout, s2)
    ensures Decoded(s) == Done(Cleaned(Coins(CodeBit(code, 1), CodeBit(code, 2), vout, s2[0].n, s[0].n)), s2[1..])
  {
  }

  /** The record itself comes back exactly when it is clean and its spent outputs are cleared. */
  lemma NormalIff(c: Coins)
    ensures Normal(c) == c <==>
            IsClean(c) && forall i :: 0 <= i < |c.vout| && c.vout[i].IsNull() ==> c.vout[i] == NullOut
  {
    TrimFacts(Nulled(c.vout));
    var r := Trim(Nulled(c.vout));
    if Normal(c) == c {
      assert r == c.vout && |r| == |Nulled(c.vout)|;
      forall i | 0 <= i < |c.vout| && c.vout[i].IsNull() ensures c.vout[i] == NullOut {
        assert Nulled(c.vout)[i] == r[i];
      }
    }
    if IsClean(c) && forall i :: 0 <= i < |c.vout| && c.vout[i].IsNull() ==> c.vout[i] == NullOut {
      assert Nulled(c.vout) == c.vout;
    }
  }

  /** A record read from any stream is clean. */
  lemma ReadIsNormal(s: seq<Token>)
    ensures Decoded(s).Done? ==> IsClean(Decoded(s).value)
  {
    if Decoded(s).Done? {
      var code := s[1].n;
      var mask := ReadMask(s[2..], NeededBytes(code), [CodeBit(code, 4), CodeBit(code, 8)]);
      TrimFacts(ReadOuts(mask.rest, mask.value, 0, []).value);
    }
  }
}
