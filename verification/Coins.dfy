/** `CCoins`: the unspent outputs of one transaction. */
module Coins {

  type Script = seq<nat>

  datatype TxOut = TxOut(value: int, script: Script) {
    predicate IsNull() { value == -1 }
  }

  /** What `SetNull` and the default constructor of an output leave. */
  const NullOut: TxOut := TxOut(-1, [])

  datatype Coins = Coins(coinBase: bool, coinStake: bool, vout: seq<TxOut>, height: int, version: int)

  /** The cleared record. */
  const Empty: Coins := Coins(false, false, [], 0, 0)

  predicate IsPruned(c: Coins) {
    forall i :: 0 <= i < |c.vout| ==> c.vout[i].IsNull()
  }

  /** No spent output at the end. */
  predicate IsClean(c: Coins) {
    c.vout == [] || !c.vout[|c.vout| - 1].IsNull()
  }

  function Trim(vout: seq<TxOut>): seq<TxOut> {
    if vout != [] && vout[|vout| - 1].IsNull() then Trim(vout[..|vout| - 1]) else vout
  }

  function Cleaned(c: Coins): Coins {
    c.(vout := Trim(c.vout))
  }

  /** Trimming keeps the outputs up to the last unspent one: the shortest prefix after which
      everything is null. */
  lemma {:induction false} TrimFacts(vout: seq<TxOut>)
    ensures Trim(vout) <= vout
    ensures forall i :: |Trim(vout)| <= i < |vout| ==> vout[i].IsNull()
    ensures Trim(vout) == [] || !Trim(vout)[|Trim(vout)| - 1].IsNull()
  {
    if vout != [] && vout[|vout| - 1].IsNull() {
      TrimFacts(vout[..|vout| - 1]);
    }
  }

  /** The three facts determine the result. */
  lemma TrimUnique(vout: seq<TxOut>, r: seq<TxOut>)
    requires r <= vout && (r == [] || !r[|r| - 1].IsNull())
    requires forall i :: |r| <= i < |vout| ==> vout[i].IsNull()
    ensures r == Trim(vout)
  {
    TrimFacts(vout);
    var q := Trim(vout);
    assert forall i :: 0 <= i < |r| ==> r[i] == vout[i];
    assert forall i :: 0 <= i < |q| ==> q[i] == vout[i];
  }

  /** A cleaned record is pruned only when it has no outputs left. */
  lemma CleanedFacts(c: Coins)
    ensures IsClean(Cleaned(c)) && (IsPruned(Cleaned(c)) <==> IsPruned(c))
    ensures IsClean(c) ==> (IsPruned(c) <==> c.vout == [])
    ensures IsClean(c) ==> Cleaned(c) == c
  {
    TrimFacts(c.vout);
    var q := Trim(c.vout);
    assert forall i :: 0 <= i < |q| ==> q[i] == c.vout[i];
  }

  method Cleanup(c: Coins) returns (r: Coins)
    ensures r == Cleaned(c)
  {
    var vout := c.vout;
    while |vout| > 0 && vout[|vout| - 1].IsNull()
      invariant Trim(vout) == Trim(c.vout)
    {
      vout := vout[..|vout| - 1];
    }
    r := c.(vout := vout);
  }

  method TestPruned(c: Coins) returns (r: bool)
    ensures r <==> IsPruned(c)
  {
    for i := 0 to |c.vout|
      invariant forall j :: 0 <= j < i ==> c.vout[j].IsNull()
    {
      if !c.vout[i].IsNull() {
        return false;
      }
    }
    return true;
  }
}
