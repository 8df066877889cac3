/** Spending outputs with undo data, and what disconnecting a block restores. */
module CoinsUndo {
  import opened Coins
  import opened CoinsStack
  import opened CoinsView

  datatype OutPoint = OutPoint(hash: Txid, n: nat)

  /** `CTxInUndo`: the output, and the record's data when its last output was spent. */
  datatype Undo = Undo(out: TxOut, coinBase: bool, coinStake: bool, height: int, version: int)

  /** `IsUnspendable`: the script starts with `OP_RETURN`. */
  predicate Unspendable(script: Script) {
    script != [] && script[0] == 0x6a
  }

  predicate ZerocoinMint(script: Script) {
    script != [] && script[0] == 0xc1
  }

  /** The output is there and unspent. */
  predicate Avail(c: Coins, n: nat) {
    n < |c.vout| && !c.vout[n].IsNull()
  }

  /** `IsAvailable`, which does not count zerocoin mints. */
  predicate IsAvailable(c: Coins, n: nat) {
    Avail(c, n) && !ZerocoinMint(c.vout[n].script)
  }

  function SpendRecord(c: Coins, n: nat): Coins
    requires Avail(c, n)
  {
    Cleaned(c.(vout := c.vout[n := NullOut]))
  }

  function UndoOf(c: Coins, n: nat): Undo
    requires Avail(c, n)
  {
    if SpendRecord(c, n).vout == [] then Undo(c.vout[n], c.coinBase, c.coinStake, c.height, c.version)
    else Undo(c.vout[n], false, false, 0, 0)
  }

  /** `CCoins::Spend`. */
  method Spend(c: Coins, n: nat) returns (ok: bool, r: Coins, undo: Undo)
    ensures ok <==> Avail(c, n)
    ensures if ok then r == SpendRecord(c, n) && undo == UndoOf(c, n) else r == c
  {
    undo := Undo(NullOut, false, false, 0, 0);
    r := c;
    if n >= |c.vout| {
      return false, r, undo;
    }
    if c.vout[n].IsNull() {
      return false, r, undo;
    }
    undo := undo.(out := c.vout[n]);
    r := r.(vout := r.vout[n := NullOut]);
    r := Cleanup(r);
    if |r.vout| == 0 {
      undo := undo.(height := r.height, coinBase := r.coinBase, coinStake := r.coinStake, version := r.version);
    }
    ok := true;
  }

  function Resize(vout: seq<TxOut>, len: nat): (r: seq<TxOut>)
    ensures |r| == if |vout| < len then len else |vout|
  {
    if |vout| < len then vout + seq(len - |vout|, _ => NullOut) else vout
  }

  /** Restoring an output, as disconnecting a block does: the coinstake flag is not put back. */
  function UndoRecord(o: Option<Coins>, n: nat, u: Undo): Coins {
    var c := if u.height != 0 then Coins(u.coinBase, false, [], u.height, u.version)
             else if o.Some? then o.value else Empty;
    c.(vout := Resize(c.vout, n + 1)[n := u.out])
  }

  /** The consistency tests for one restored output: a record is there exactly when the undo data names no
      height, and the output is not there yet. */
  predicate UndoClean(o: Option<Coins>, n: nat, u: Undo) {
    if u.height != 0 then o.None? else o.Some? && !IsAvailable(o.value, n)
  }

  // ----- one record -----

  /** Clean, with spent outputs cleared. */
  ghost predicate Tidy(c: Coins) {
    IsClean(c) && forall i :: 0 <= i < |c.vout| && c.vout[i].IsNull() ==> c.vout[i] == NullOut
  }

  function Forget(c: Coins, yes: bool): Coins {
    if yes then c.(coinStake := false) else c
  }

  lemma SpentOutputs(c: Coins, n: nat)
    requires Tidy(c) && Avail(c, n)
    ensures var r := SpendRecord(c, n);
            Tidy(r) && |r.vout| <= |c.vout| && (n + 1 < |c.vout| ==> r.vout == c.vout[n := NullOut]) && !Avail(r, n) &&
            Resize(r.vout, n + 1)[n := c.vout[n]] == c.vout
  {
    var v := c.vout[n := NullOut];
    TrimFacts(v);
    var r := Trim(v);
    assert forall i :: 0 <= i < |r| ==> r[i] == v[i];
    if n + 1 < |c.vout| {
      assert v[|v| - 1] == c.vout[|c.vout| - 1];
      assert r == v;
    }
    ResizeBack(c.vout, n, r);
  }

  /** The output put back completes the outputs again. */
  lemma ResizeBack(vout: seq<TxOut>, n: nat, r: seq<TxOut>)
    requires n < |vout| && r <= vout[n := NullOut] && (n + 1 < |vout| ==> |r| == |vout|)
    requires forall i :: |r| <= i < |vout| && i != n ==> vout[i] == NullOut
    ensures Resize(r, n + 1)[n := vout[n]] == vout
  {
    var v := vout[n := NullOut];
    assert forall i :: 0 <= i < |r| ==> r[i] == v[i];
  }

  /** Undoing a spend gives the record back, without its coinstake flag if the spend used it up. The consistency
      tests pass, except for a used-up record of height 0, which undo data cannot mark. */
  lemma RecordUndone(c: Coins, n: nat, yes: bool)
    requires Tidy(c) && Avail(c, n)
    ensures var r := SpendRecord(c, n);
            var o := if IsPruned(r) then None else Some(Forget(r, yes));
            (UndoClean(o, n, UndoOf(c, n)) <==> !IsPruned(r) || c.height != 0) &&
            (UndoClean(o, n, UndoOf(c, n)) ==>
             Cleaned(UndoRecord(o, n, UndoOf(c, n))) == Forget(c, yes || IsPruned(r)))
  {
    var r := SpendRecord(c, n);
    SpentOutputs(c, n);
    CleanedFacts(r);
    if IsPruned(r) {
      CleanedFacts(Forget(c, true));
    } else {
      CleanedFacts(Forget(c, yes));
    }
  }

  // ----- the inputs of a transaction -----

  type Coinmap = map<Txid, Coins>

  predicate CanSpend(m: Coinmap, p: OutPoint) {
    p.hash in m && Avail(m[p.hash], p.n)
  }

  function SpendOne(m: Coinmap, p: OutPoint): Coinmap
    requires CanSpend(m, p)
  {
    Set(m, p.hash, SpendRecord(m[p.hash], p.n))
  }

  function UndoOne(m: Coinmap, p: OutPoint, u: Undo): Coinmap {
    Set(m, p.hash, Cleaned(UndoRecord(Lookup(m, p.hash), p.n, u)))
  }

  /** The assertion of `UpdateCoins` holds for every input. */
  predicate Spendable(m: Coinmap, ins: seq<OutPoint>) {
    ins == [] || (CanSpend(m, ins[0]) && Spendable(SpendOne(m, ins[0]), ins[1..]))
  }

  function Spent(m: Coinmap, ins: seq<OutPoint>): Coinmap
    requires Spendable(m, ins)
  {
    if ins == [] then m else Spent(SpendOne(m, ins[0]), ins[1..])
  }

  function Undos(m: Coinmap, ins: seq<OutPoint>): (r: seq<Undo>)
    requires Spendable(m, ins)
    ensures |r| == |ins|
  {
    if ins == [] then [] else [UndoOf(m[ins[0].hash], ins[0].n)] + Undos(SpendOne(m, ins[0]), ins[1..])
  }

  /** Undoing from the last input to the first. */
  function Restore(m: Coinmap, ins: seq<OutPoint>, undos: seq<Undo>): Coinmap
    requires |undos| == |ins|
  {
    if ins == [] then m else UndoOne(Restore(m, ins[1..], undos[1..]), ins[0], undos[0])
  }

  /** The consistency tests pass for every input, from the last to the first. */
  predicate RestoreClean(m: Coinmap, ins: seq<OutPoint>, undos: seq<Undo>)
    requires |undos| == |ins|
  {
    ins == [] ||
    (RestoreClean(m, ins[1..], undos[1..]) &&
     UndoClean(Lookup(Restore(m, ins[1..], undos[1..]), ins[0].hash), ins[0].n, undos[0]))
  }

  /** Whenever undo data names no height, the record it completes is there. */
  ghost predicate Restorable(m: Coinmap, ins: seq<OutPoint>, undos: seq<Undo>)
    requires |undos| == |ins|
  {
    ins == [] ||
    (Restorable(m, ins[1..], undos[1..]) &&
     (undos[0].height != 0 || ins[0].hash in Restore(m, ins[1..], undos[1..])))
  }

  lemma {:induction false} CleanRestorable(m: Coinmap, ins: seq<OutPoint>, undos: seq<Undo>)
    requires |undos| == |ins| && RestoreClean(m, ins, undos)
    ensures Restorable(m, ins, undos)
  {
    if ins != [] { CleanRestorable(m, ins[1..], undos[1..]); }
  }

  /** Records used up on the way. */
  function UsedUp(m: Coinmap, ins: seq<OutPoint>): set<Txid>
    requires Spendable(m, ins)
  {
    if ins == [] then {} else
      UsedUp(SpendOne(m, ins[0]), ins[1..]) + if ins[0].hash in SpendOne(m, ins[0]) then {} else {ins[0].hash}
  }

  /** Records are tidy and unspent, and none is from the genesis block, whose transactions are never connected. */
  ghost predicate TidyMap(m: Coinmap) {
    forall t {:trigger m[t]} :: t in m ==> Tidy(m[t]) && m[t].height != 0 && !IsPruned(m[t])
  }

  /** r is m, except that the records in x have lost their coinstake flag. */
  ghost predicate Forgetful(m: Coinmap, x: set<Txid>, r: Coinmap) {
    forall t {:trigger Lookup(r, t)} :: Lookup(r, t) == if t in m then Some(Forget(m[t], t in x)) else None
  }

  lemma SpendOneTidy(m: Coinmap, p: OutPoint)
    requires TidyMap(m) && CanSpend(m, p)
    ensures TidyMap(SpendOne(m, p))
  {
    assert Tidy(m[p.hash]);
    SpentOutputs(m[p.hash], p.n);
  }

  lemma OneUndone(m: Coinmap, p: OutPoint, y: set<Txid>, r: Coinmap)
    requires TidyMap(m) && CanSpend(m, p) && Forgetful(SpendOne(m, p), y, r)
    ensures UndoClean(Lookup(r, p.hash), p.n, UndoOf(m[p.hash], p.n))
    ensures Forgetful(m, y + (if p.hash in SpendOne(m, p) then {} else {p.hash}),
                      UndoOne(r, p, UndoOf(m[p.hash], p.n)))
  {
    var c, m1 := m[p.hash], SpendOne(m, p);
    assert Tidy(c);
    assert Lookup(r, p.hash) == if p.hash in m1 then Some(Forget(m1[p.hash], p.hash in y)) else None;
    RecordUndone(c, p.n, p.hash in y);
    var d := Cleaned(UndoRecord(Lookup(r, p.hash), p.n, UndoOf(c, p.n)));
    assert d == Forget(c, p.hash in y || p.hash !in m1);
    assert !IsPruned(d) by { assert !d.vout[p.n].IsNull(); }
    SetForgetful(m, p.hash, m1, y, r, d);
  }

  /** Putting one record back, the others being as they were. */
  lemma SetForgetful(m: Coinmap, hash: Txid, m1: Coinmap, y: set<Txid>, r: Coinmap, d: Coins)
    requires hash in m && Forgetful(m1, y, r) && forall t :: t != hash ==> Lookup(m1, t) == Lookup(m, t)
    requires !IsPruned(d) && d == Forget(m[hash], hash in y || hash !in m1)
    ensures Forgetful(m, y + (if hash in m1 then {} else {hash}), Set(r, hash, d))
  {
    var x := y + if hash in m1 then {} else {hash};
    forall t: Txid ensures Lookup(Set(r, hash, d), t) == if t in m then Some(Forget(m[t], t in x)) else None {
      if t != hash {
        assert Lookup(r, t) == if t in m1 then Some(Forget(m1[t], t in y)) else None;
        assert Lookup(m1, t) == Lookup(m, t);
      }
    }
  }

  /** Undoing the inputs of a transaction restores every record up to flags, with all tests passed. */
  lemma {:induction false} InputsUndone(m: Coinmap, ins: seq<OutPoint>, y: set<Txid>, r: Coinmap)
    requires TidyMap(m) && Spendable(m, ins) && Forgetful(Spent(m, ins), y, r)
    ensures RestoreClean(r, ins, Undos(m, ins))
    ensures Forgetful(m, y + UsedUp(m, ins), Restore(r, ins, Undos(m, ins)))
  {
    if ins == [] {
      assert y + {} == y;
    } else {
      var p, tail := ins[0], ins[1..];
      var m1 := SpendOne(m, p);
      SpendOneTidy(m, p);
      InputsUndone(m1, tail, y, r);
      OneUndone(m, p, y + UsedUp(m1, tail), Restore(r, tail, Undos(m1, tail)));
      FirstInput(m, ins, y, r, p, tail, m1);
    }
  }

  /** How the first input enters what is undone. */
  lemma FirstInput(m: Coinmap, ins: seq<OutPoint>, y: set<Txid>, r: Coinmap, p: OutPoint, tail: seq<OutPoint>,
                   m1: Coinmap)
    requires ins != [] && Spendable(m, ins) && p == ins[0] && tail == ins[1..] && m1 == SpendOne(m, p)
    ensures Spendable(m1, tail) && CanSpend(m, p)
    ensures y + UsedUp(m, ins) == y + UsedUp(m1, tail) + if p.hash in m1 then {} else {p.hash}
    ensures var rest := Restore(r, tail, Undos(m1, tail));
            var u := UndoOf(m[p.hash], p.n);
            Restore(r, ins, Undos(m, ins)) == UndoOne(rest, p, u) &&
            (RestoreClean(r, ins, Undos(m, ins)) <==>
             RestoreClean(r, tail, Undos(m1, tail)) && UndoClean(Lookup(rest, p.hash), p.n, u))
  {
    assert Undos(m, ins)[1..] == Undos(m1, tail);
  }

  lemma {:induction false} SpentTidy(m: Coinmap, ins: seq<OutPoint>)
    requires TidyMap(m) && Spendable(m, ins)
    ensures TidyMap(Spent(m, ins)) && forall t :: t in Spent(m, ins) ==> t in m
  {
    if ins != [] {
      SpendOneTidy(m, ins[0]);
      SpentTidy(SpendOne(m, ins[0]), ins[1..]);
    }
  }

  /** Spending takes away exactly the output spent. */
  lemma SpentOutput(c: Coins, n: nat)
    requires Avail(c, n)
    ensures forall k: nat :: Avail(SpendRecord(c, n), k) <==> Avail(c, k) && k != n
  {
    var v := c.vout[n := NullOut];
    var r := Trim(v);
    TrimFacts(v);
    forall k: nat ensures Avail(SpendRecord(c, n), k) <==> Avail(c, k) && k != n {
      if k < |r| { assert r[k] == v[k]; } else if k < |v| { assert v[k].IsNull(); }
    }
  }

  /** A record is used up exactly when inputs name every output it has left; otherwise it keeps the others. */
  lemma {:induction false} UsedUpIff(m: Coinmap, ins: seq<OutPoint>, t: Txid)
    requires TidyMap(m) && Spendable(m, ins) && t in m
    ensures t in UsedUp(m, ins) <==> forall n: nat :: Avail(m[t], n) ==> OutPoint(t, n) in ins
    ensures t in Spent(m, ins) <==> t !in UsedUp(m, ins)
    ensures t in Spent(m, ins) ==>
              Spent(m, ins)[t].coinStake == m[t].coinStake &&
              forall n: nat :: Avail(Spent(m, ins)[t], n) <==> Avail(m[t], n) && OutPoint(t, n) !in ins
    decreases |ins|
  {
    if ins == [] {
      var n :| 0 <= n < |m[t].vout| && !m[t].vout[n].IsNull();
      assert Avail(m[t], n);
    } else {
      var p, tail := ins[0], ins[1..];
      var m1 := SpendOne(m, p);
      SpendOneTidy(m, p);
      assert forall n: nat :: OutPoint(t, n) in ins <==> OutPoint(t, n) == p || OutPoint(t, n) in tail;
      SpentOutput(m[p.hash], p.n);
      if t in m1 {
        UsedUpIff(m1, tail, t);
      } else {
        NeverUsedUp(m1, tail, t);
        forall n: nat | Avail(m[t], n) ensures OutPoint(t, n) in ins {
          assert Avail(SpendRecord(m[t], p.n), n) <==> n != p.n;
        }
      }
    }
  }

  lemma {:induction false} NeverUsedUp(m: Coinmap, ins: seq<OutPoint>, t: Txid)
    requires Spendable(m, ins) && t !in m
    ensures t !in UsedUp(m, ins) && t !in Spent(m, ins)
    decreases |ins|
  {
    if ins != [] { NeverUsedUp(SpendOne(m, ins[0]), ins[1..], t); }
  }

  // ----- transactions -----

  datatype TxIn = TxIn(prevout: OutPoint, scriptSig: Script) {
    /** The null outpoint a coinbase has. */
    predicate IsNull() { prevout == OutPoint(0, 0xffff_ffff) }

    predicate IsZerocoinSpend() { scriptSig != [] && scriptSig[0] == 0xc2 }
  }

  /** A transaction at the height of its block. */
  datatype Tx = Tx(id: Txid, vin: seq<TxIn>, vout: seq<TxOut>, height: int, version: int) {
    predicate IsZerocoinSpend() {
      vin != [] && vin[0].prevout.hash == 0 && vin[0].IsZerocoinSpend()
    }

    predicate IsZerocoinMint() {
      exists i :: 0 <= i < |vout| && ZerocoinMint(vout[i].script)
    }

    predicate IsCoinBase() {
      |vin| == 1 && vin[0].IsNull() && !IsZerocoinSpend() && !IsZerocoinMint()
    }

    /** Marked by an empty first output. */
    predicate IsCoinStake() {
      vin != [] && (!vin[0].IsNull() || vin[0].IsZerocoinSpend()) && |vout| >= 2 && vout[0] == Marker
    }
  }

  /** The empty output. */
  const Marker: TxOut := TxOut(0, [])

  function Prevouts(vin: seq<TxIn>): (r: seq<OutPoint>)
    ensures |r| == |vin|
  {
    seq(|vin|, i requires 0 <= i < |vin| => vin[i].prevout)
  }

  /** A coinbase or a zerocoin spend has no outputs as inputs. */
  function Inputs(tx: Tx): seq<OutPoint> {
    if tx.IsCoinBase() || tx.IsZerocoinSpend() then [] else Prevouts(tx.vin)
  }

  /** Outputs with unspendable ones cleared. */
  function Spendables(vout: seq<TxOut>): (r: seq<TxOut>)
    ensures |r| == |vout|
  {
    seq(|vout|, i requires 0 <= i < |vout| => if Unspendable(vout[i].script) then NullOut else vout[i])
  }

  /** `ClearUnspendable`. */
  function Cleared(c: Coins): Coins {
    Cleaned(c.(vout := Spendables(c.vout)))
  }

  /** The record of a transaction with all its outputs. */
  function Whole(tx: Tx): Coins {
    Coins(tx.IsCoinBase(), tx.IsCoinStake(), tx.vout, tx.height, tx.version)
  }

  /** `FromTx`. */
  function FromTx(tx: Tx): Coins {
    Cleared(Whole(tx))
  }

  /** No output looks spent from the start, and the block is not the genesis block. */
  ghost predicate Regular(tx: Tx) {
    tx.height != 0 && forall i :: 0 <= i < |tx.vout| ==> tx.vout[i].value != -1
  }

  lemma FromTxTidy(tx: Tx)
    requires Regular(tx)
    ensures Tidy(FromTx(tx))
  {
    var v := Spendables(tx.vout);
    TrimFacts(v);
    assert forall i :: 0 <= i < |Trim(v)| ==> Trim(v)[i] == v[i];
  }

  /** Clearing a second time changes nothing. */
  lemma ClearedTwice(c: Coins, yes: bool)
    ensures var d := Forget(Cleared(c), yes);
            Cleared(d) == d
  {
    var v := Spendables(c.vout);
    TrimFacts(v);
    var w := Trim(v);
    forall i | 0 <= i < |w| ensures Spendables(w)[i] == w[i] { assert w[i] == v[i]; }
    assert Spendables(w) == w;
    CleanedFacts(c.(vout := v));
    CleanedFacts(Cleared(c));
  }

  /** `UpdateCoins`. */
  function Connect(m: Coinmap, tx: Tx): Coinmap
    requires Spendable(m, Inputs(tx))
  {
    Set(Spent(m, Inputs(tx)), tx.id, FromTx(tx))
  }

  function Disconnect(m: Coinmap, tx: Tx, undos: seq<Undo>): Coinmap
    requires |undos| == |Inputs(tx)|
  {
    Restore(m - {tx.id}, Inputs(tx), undos)
  }

  /** Equality of records: empty ones are always equal. */
  predicate SameCoins(a: Coins, b: Coins) {
    (IsPruned(a) && IsPruned(b)) || a == b
  }

  /** The test that the transaction's outputs are those of the block; a negative version is not compared. */
  predicate OutsMatch(c: Coins, tx: Tx) {
    var d := Cleared(c);
    SameCoins(if tx.version < 0 then d.(version := tx.version) else d, FromTx(tx))
  }

  /** The verdict on one transaction: its outputs match, and every input passes its tests. */
  predicate DisconnectClean(m: Coinmap, tx: Tx, undos: seq<Undo>)
    requires |undos| == |Inputs(tx)|
  {
    OutsMatch(if tx.id in m then m[tx.id] else Empty, tx) &&
    RestoreClean(m - {tx.id}, Inputs(tx), undos)
  }

  /** The outputs match unless the record is there and its coinstake flag is lost. */
  lemma OutsMatchIff(tx: Tx, yes: bool)
    ensures var c := FromTx(tx);
            OutsMatch(if IsPruned(c) then Empty else Forget(c, yes), tx)
            <==> IsPruned(c) || !(tx.IsCoinStake() && yes)
  {
    var c := FromTx(tx);
    ClearedTwice(Whole(tx), yes);
    if IsPruned(c) {
      assert Spendables([]) == [];
    }
  }

  /** Undoing one transaction: the view comes back up to flags, and the verdict is clean exactly when the
      transaction is no coinstake whose record has lost its flag. */
  lemma TxUndone(m: Coinmap, tx: Tx, y: set<Txid>, r: Coinmap)
    requires TidyMap(m) && Spendable(m, Inputs(tx)) && tx.id !in m
    requires Forgetful(Connect(m, tx), y, r)
    ensures Forgetful(m, y + UsedUp(m, Inputs(tx)), Disconnect(r, tx, Undos(m, Inputs(tx))))
    ensures RestoreClean(r - {tx.id}, Inputs(tx), Undos(m, Inputs(tx)))
    ensures DisconnectClean(r, tx, Undos(m, Inputs(tx))) <==> StakeKept(m, tx, y)
  {
    var s, u := Spent(m, Inputs(tx)), Connect(m, tx);
    SpentTidy(m, Inputs(tx));
    forall t: Txid ensures Lookup(r - {tx.id}, t) == if t in s then Some(Forget(s[t], t in y)) else None {
      if t != tx.id {
        assert Lookup(r, t) == if t in u then Some(Forget(u[t], t in y)) else None;
      }
    }
    InputsUndone(m, Inputs(tx), y, r - {tx.id});
    assert Lookup(r, tx.id) == if tx.id in u then Some(Forget(u[tx.id], tx.id in y)) else None;
    OutsMatchIff(tx, tx.id in y);
  }

  /** Not a coinstake whose record is among those that lost their flag. */
  predicate StakeKept(m: Coinmap, tx: Tx, y: set<Txid>)
    requires Spendable(m, Inputs(tx))
  {
    tx.IsCoinStake() && tx.id in Connect(m, tx) ==> tx.id !in y
  }

  lemma ConnectTidy(m: Coinmap, tx: Tx)
    requires TidyMap(m) && Spendable(m, Inputs(tx)) && Regular(tx)
    ensures TidyMap(Connect(m, tx))
  {
    SpentTidy(m, Inputs(tx));
    FromTxTidy(tx);
  }

  // ----- what connecting does to the outputs -----

  /** The unspent output at a place, if there is one. */
  function OutputAt(m: Coinmap, p: OutPoint): Option<TxOut> {
    if CanSpend(m, p) then Some(m[p.hash].vout[p.n]) else None
  }

  /** The record of a transaction holds each of its outputs that is neither null nor unspendable, unchanged and in
      its place, and nothing else; the rest is the transaction's own. */
  lemma FromTxHolds(tx: Tx, n: nat)
    ensures Avail(FromTx(tx), n) <==>
            n < |tx.vout| && !tx.vout[n].IsNull() && !Unspendable(tx.vout[n].script)
    ensures Avail(FromTx(tx), n) ==> FromTx(tx).vout[n] == tx.vout[n]
    ensures var c := FromTx(tx);
            c.coinBase == tx.IsCoinBase() && c.coinStake == tx.IsCoinStake() && c.height == tx.height &&
            c.version == tx.version
  {
    var v := Spendables(tx.vout);
    TrimFacts(v);
    if n < |Trim(v)| { assert Trim(v)[n] == v[n]; } else if n < |v| { assert v[n].IsNull(); }
  }

  /** The inputs are the outputs named, in order, except that a coinbase and a zerocoin spend have none. */
  lemma InputsNamed(tx: Tx)
    ensures tx.IsCoinBase() || tx.IsZerocoinSpend() ==> Inputs(tx) == []
    ensures !tx.IsCoinBase() && !tx.IsZerocoinSpend() ==>
              |Inputs(tx)| == |tx.vin| && forall i :: 0 <= i < |tx.vin| ==> Inputs(tx)[i] == tx.vin[i].prevout
  {
  }

  /** Outputs that match a transaction with something to spend are those of its record, with its flags and height,
      and its version unless that is negative; then the version makes no difference. */
  lemma MatchMeans(c: Coins, tx: Tx, version: int)
    ensures OutsMatch(c, tx) && !IsPruned(FromTx(tx)) ==>
              Cleared(c).vout == FromTx(tx).vout && c.coinBase == tx.IsCoinBase() && c.coinStake == tx.IsCoinStake() &&
              c.height == tx.height && (tx.version >= 0 ==> c.version == tx.version)
    ensures tx.version < 0 ==> (OutsMatch(c, tx) <==> OutsMatch(c.(version := version), tx))
    ensures IsPruned(FromTx(tx)) ==> (OutsMatch(c, tx) <==> IsPruned(Cleared(c)))
  {
  }

  /** The tests on a restored output: with a height in the undo data, no record may be there; without one, a record
      must be, and at the place in it nothing unspent but a zerocoin mint. */
  lemma CleanMeans(o: Option<Coins>, n: nat, u: Undo)
    ensures u.height != 0 ==> (UndoClean(o, n, u) <==> o == None)
    ensures u.height == 0 ==>
              (UndoClean(o, n, u) <==>
               o.Some? && (Avail(o.value, n) ==> o.value.vout[n].script != [] && o.value.vout[n].script[0] == 0xc1))
  {
  }

  /** A transaction is not both a coinbase and a coinstake. */
  lemma KindsApart(tx: Tx)
    ensures !(tx.IsCoinBase() && tx.IsCoinStake())
  {
  }

  /** Spending removes the outputs named and leaves every other one, with the data of its record. */
  lemma {:induction false} SpentExactly(m: Coinmap, ins: seq<OutPoint>, p: OutPoint)
    requires Spendable(m, ins)
    ensures OutputAt(Spent(m, ins), p) == if p in ins then None else OutputAt(m, p)
    ensures p.hash in Spent(m, ins) ==>
              p.hash in m && Spent(m, ins)[p.hash] == m[p.hash].(vout := Spent(m, ins)[p.hash].vout)
    decreases |ins|
  {
    if ins != [] {
      var q, tail := ins[0], ins[1..];
      SpentExactly(SpendOne(m, q), tail, p);
      SpendOneExactly(m, q, p);
      assert p in ins <==> p == q || p in tail;
    }
  }

  lemma SpendOneExactly(m: Coinmap, q: OutPoint, p: OutPoint)
    requires CanSpend(m, q)
    ensures OutputAt(SpendOne(m, q), p) == if p == q then None else OutputAt(m, p)
    ensures p.hash in SpendOne(m, q) ==>
              p.hash in m && SpendOne(m, q)[p.hash] == m[p.hash].(vout := SpendOne(m, q)[p.hash].vout)
  {
    if p.hash == q.hash {
      var c, v := m[q.hash], m[q.hash].vout[q.n := NullOut];
      SpentOutput(c, q.n);
      TrimFacts(v);
      var r := SpendRecord(c, q.n);
      assert Avail(r, p.n) <==> Avail(c, p.n) && p.n != q.n;
      if Avail(r, p.n) { assert r.vout[p.n] == v[p.n]; }
    }
  }

  /** The output at a place after a transaction: one of its own, none where it spends, or what was there. */
  function OutputAfter(m: Coinmap, tx: Tx, p: OutPoint): Option<TxOut> {
    if p.hash == tx.id then
      (if p.n < |tx.vout| && !tx.vout[p.n].IsNull() && !Unspendable(tx.vout[p.n].script) then Some(tx.vout[p.n])
       else None)
    else if p in Inputs(tx) then None
    else OutputAt(m, p)
  }

  /** Connecting a transaction: its inputs go, its spendable outputs come, and every other output stays as it is. */
  lemma ConnectExactly(m: Coinmap, tx: Tx, p: OutPoint)
    requires Spendable(m, Inputs(tx))
    ensures OutputAt(Connect(m, tx), p) == OutputAfter(m, tx, p)
    ensures p.hash in Connect(m, tx) && p.hash != tx.id ==>
              p.hash in m && Connect(m, tx)[p.hash] == m[p.hash].(vout := Connect(m, tx)[p.hash].vout)
  {
    FromTxHolds(tx, p.n);
    SpentExactly(m, Inputs(tx), p);
    if p.hash == tx.id && !IsPruned(FromTx(tx)) { assert Connect(m, tx)[p.hash] == FromTx(tx); }
  }

  // ----- transactions of one or several blocks in a row -----

  /** Every transaction finds its inputs and makes an id not in the view. */
  ghost predicate Connectable(m: Coinmap, txs: seq<Tx>)
    decreases |txs|
  {
    txs == [] ||
    (Spendable(m, Inputs(txs[0])) && txs[0].id !in m && Regular(txs[0]) &&
     Connectable(Connect(m, txs[0]), txs[1..]))
  }

  ghost function ConnectAll(m: Coinmap, txs: seq<Tx>): Coinmap
    requires Connectable(m, txs)
    decreases |txs|
  {
    if txs == [] then m else ConnectAll(Connect(m, txs[0]), txs[1..])
  }

  ghost predicate UndosFor(txs: seq<Tx>, undos: seq<seq<Undo>>) {
    |undos| == |txs| && forall i :: 0 <= i < |txs| ==> |undos[i]| == |Inputs(txs[i])|
  }

  ghost function BlockUndos(m: Coinmap, txs: seq<Tx>): (r: seq<seq<Undo>>)
    requires Connectable(m, txs)
    ensures UndosFor(txs, r)
    decreases |txs|
  {
    if txs == [] then [] else
      var first, rest := Undos(m, Inputs(txs[0])), BlockUndos(Connect(m, txs[0]), txs[1..]);
      UndosCons(txs, first, rest);
      [first] + rest
  }

  lemma UndosCons(txs: seq<Tx>, first: seq<Undo>, rest: seq<seq<Undo>>)
    requires txs != [] && |first| == |Inputs(txs[0])| && UndosFor(txs[1..], rest)
    ensures UndosFor(txs, [first] + rest)
  {
    forall i | 0 <= i < |txs| ensures |([first] + rest)[i]| == |Inputs(txs[i])| {
      if i > 0 { assert txs[1..][i - 1] == txs[i]; }
    }
  }

  /** Disconnecting from the last transaction to the first. */
  ghost function DisconnectAll(m: Coinmap, txs: seq<Tx>, undos: seq<seq<Undo>>): Coinmap
    requires UndosFor(txs, undos)
  {
    if txs == [] then m else Disconnect(DisconnectAll(m, txs[1..], undos[1..]), txs[0], undos[0])
  }

  /** Every verdict on the way is clean. */
  ghost predicate AllClean(m: Coinmap, txs: seq<Tx>, undos: seq<seq<Undo>>)
    requires UndosFor(txs, undos)
  {
    txs == [] ||
    (AllClean(m, txs[1..], undos[1..]) &&
     DisconnectClean(DisconnectAll(m, txs[1..], undos[1..]), txs[0], undos[0]))
  }

  /** Undo data can be applied all the way. */
  ghost predicate AllRestorable(m: Coinmap, txs: seq<Tx>, undos: seq<seq<Undo>>)
    requires UndosFor(txs, undos)
  {
    txs == [] ||
    (AllRestorable(m, txs[1..], undos[1..]) &&
     Restorable(DisconnectAll(m, txs[1..], undos[1..]) - {txs[0].id}, Inputs(txs[0]), undos[0]))
  }

  lemma {:induction false} AllCleanRestorable(m: Coinmap, txs: seq<Tx>, undos: seq<seq<Undo>>)
    requires UndosFor(txs, undos) && AllClean(m, txs, undos)
    ensures AllRestorable(m, txs, undos)
  {
    if txs != [] {
      AllCleanRestorable(m, txs[1..], undos[1..]);
      CleanRestorable(DisconnectAll(m, txs[1..], undos[1..]) - {txs[0].id}, Inputs(txs[0]), undos[0]);
    }
  }

  ghost function BlockUsesUp(m: Coinmap, txs: seq<Tx>): set<Txid>
    requires Connectable(m, txs)
    decreases |txs|
  {
    if txs == [] then {} else
      BlockUsesUp(Connect(m, txs[0]), txs[1..]) + UsedUp(m, Inputs(txs[0]))
  }

  /** No coinstake transaction has its record used up by a later transaction, or is in y. */
  ghost predicate StakesKept(m: Coinmap, txs: seq<Tx>, y: set<Txid>)
    requires Connectable(m, txs)
    decreases |txs|
  {
    txs == [] ||
    (var m1 := Connect(m, txs[0]);
     StakesKept(m1, txs[1..], y) &&
     StakeKept(m, txs[0], y + BlockUsesUp(m1, txs[1..])))
  }

  /** Disconnecting restores the view up to the flags of used-up records, and is clean exactly when no
      coinstake record made on the way was used up on the way. */
  lemma {:induction false} BlockUndone(m: Coinmap, txs: seq<Tx>, y: set<Txid>,
                                       r: Coinmap)
    requires TidyMap(m) && Connectable(m, txs)
    requires Forgetful(ConnectAll(m, txs), y, r)
    ensures var undos := BlockUndos(m, txs);
            Forgetful(m, y + BlockUsesUp(m, txs), DisconnectAll(r, txs, undos)) &&
            AllRestorable(r, txs, undos) &&
            (AllClean(r, txs, undos) <==> StakesKept(m, txs, y))
    decreases |txs|
  {
    if txs == [] {
      assert y + {} == y;
    } else {
      var tx, tail := txs[0], txs[1..];
      var m1 := Connect(m, tx);
      ConnectTidy(m, tx);
      BlockUndone(m1, tail, y, r);
      var rest := BlockUsesUp(m1, tail);
      var back := DisconnectAll(r, tail, BlockUndos(m1, tail));
      TxUndone(m, tx, y + rest, back);
      CleanRestorable(back - {tx.id}, Inputs(tx), Undos(m, Inputs(tx)));
      FirstTx(m, txs, y, r, tx, tail, m1);
    }
  }

  /** How the first transaction enters what is undone. */
  lemma FirstTx(m: Coinmap, txs: seq<Tx>, y: set<Txid>, r: Coinmap, tx: Tx,
                tail: seq<Tx>, m1: Coinmap)
    requires txs != [] && tx == txs[0] && tail == txs[1..] && Connectable(m, txs)
    requires m1 == Connect(m, tx)
    ensures var undos, rest := BlockUndos(m, txs), BlockUndos(m1, tail);
            var back, first := DisconnectAll(r, tail, rest), Undos(m, Inputs(tx));
            DisconnectAll(r, txs, undos) == Disconnect(back, tx, first) &&
            (AllRestorable(r, txs, undos) <==>
             AllRestorable(r, tail, rest) && Restorable(back - {tx.id}, Inputs(tx), first)) &&
            (AllClean(r, txs, undos) <==>
             AllClean(r, tail, rest) && DisconnectClean(back, tx, first))
    ensures y + BlockUsesUp(m, txs) == y + BlockUsesUp(m1, tail) + UsedUp(m, Inputs(tx))
    ensures StakesKept(m, txs, y) <==>
            StakesKept(m1, tail, y) &&
            StakeKept(m, tx, y + BlockUsesUp(m1, tail))
  {
    assert BlockUndos(m, txs)[1..] == BlockUndos(m1, tail);
  }

  /** Disconnecting restores the view exactly when no coinstake record of the view was used up, and is clean
      exactly when no coinstake record made on the way was. */
  lemma BlockUndoneIff(m: Coinmap, txs: seq<Tx>)
    requires TidyMap(m) && Connectable(m, txs)
    ensures var s, undos := ConnectAll(m, txs), BlockUndos(m, txs);
            AllRestorable(s, txs, undos) &&
            (DisconnectAll(s, txs, undos) == m <==> NoStakeIn(m, BlockUsesUp(m, txs))) &&
            (AllClean(s, txs, undos) <==> StakesKept(m, txs, {}))
  {
    var x := BlockUsesUp(m, txs);
    var s := ConnectAll(m, txs);
    assert Forgetful(s, {}, s);
    BlockUndone(m, txs, {}, s);
    assert {} + x == x;
    SameUpToFlags(m, x, DisconnectAll(s, txs, BlockUndos(m, txs)));
  }

  /** None of the records in x is a coinstake's. */
  ghost predicate NoStakeIn(m: Coinmap, x: set<Txid>) {
    forall t :: t in x && t in m ==> !m[t].coinStake
  }

  lemma SameUpToFlags(m: Coinmap, x: set<Txid>, r: Coinmap)
    requires Forgetful(m, x, r)
    ensures r == m <==> NoStakeIn(m, x)
  {
    if NoStakeIn(m, x) {
      forall t ensures t in r <==> t in m {
        assert Lookup(r, t) == if t in m then Some(Forget(m[t], t in x)) else None;
      }
      forall t | t in m ensures r[t] == m[t] {
        assert Lookup(r, t) == if t in m then Some(Forget(m[t], t in x)) else None;
      }
      assert r == m;
    }
    if r == m {
      forall t | t in x && t in m ensures !m[t].coinStake { assert Lookup(r, t) == Some(Forget(m[t], true)); }
    }
  }

  /** Every view reached from the empty one by connecting is tidy. */
  lemma {:induction false} AlwaysTidy(m: Coinmap, txs: seq<Tx>)
    requires TidyMap(m) && Connectable(m, txs)
    ensures TidyMap(ConnectAll(m, txs))
    decreases |txs|
  {
    if txs != [] {
      ConnectTidy(m, txs[0]);
      AlwaysTidy(Connect(m, txs[0]), txs[1..]);
    }
  }

  /** Two blocks disconnected one after the other: the later one is clean exactly when it keeps its own stakes,
      the earlier one when in addition the later one used up none of its coinstake records. */
  lemma TwoBlocks(m: Coinmap, a: seq<Tx>, b: seq<Tx>)
    requires TidyMap(m) && Connectable(m, a)
    requires Connectable(ConnectAll(m, a), b)
    ensures var m1 := ConnectAll(m, a);
            var m2, undos := ConnectAll(m1, b), BlockUndos(m1, b);
            (AllClean(m2, b, undos) <==> StakesKept(m1, b, {})) &&
            (AllClean(DisconnectAll(m2, b, undos), a, BlockUndos(m, a))
             <==> StakesKept(m, a, BlockUsesUp(m1, b)))
  {
    var m1 := ConnectAll(m, a);
    var m2 := ConnectAll(m1, b);
    AlwaysTidy(m, a);
    assert Forgetful(m2, {}, m2);
    BlockUndone(m1, b, {}, m2);
    var x := BlockUsesUp(m1, b);
    assert {} + x == x;
    BlockUndone(m, a, x, DisconnectAll(m2, b, BlockUndos(m1, b)));
  }

  // ----- coinstakes whose marker is left alone -----

  /** Every coinstake record still has its marker, the empty first output. */
  ghost predicate Marked(m: Coinmap) {
    forall t {:trigger m[t]} :: t in m && m[t].coinStake ==> Avail(m[t], 0)
  }

  /** The ids in stakes include those of all coinstakes, in the view and among the transactions. */
  ghost predicate Covers(stakes: set<Txid>, m: Coinmap, txs: seq<Tx>) {
    (forall t {:trigger m[t]} :: t in m && m[t].coinStake ==> t in stakes) &&
    forall k :: 0 <= k < |txs| && txs[k].IsCoinStake() ==> txs[k].id in stakes
  }

  /** No input names the first output of a coinstake. */
  ghost predicate Spares(stakes: set<Txid>, txs: seq<Tx>) {
    forall k, i :: 0 <= k < |txs| && 0 <= i < |Inputs(txs[k])| && Inputs(txs[k])[i].n == 0 ==>
      Inputs(txs[k])[i].hash !in stakes
  }

  lemma StakeMarked(tx: Tx)
    requires tx.IsCoinStake()
    ensures Avail(FromTx(tx), 0) && FromTx(tx).coinStake && !IsPruned(FromTx(tx))
  {
    var v := Spendables(tx.vout);
    assert v[0] == Marker;
    TrimFacts(v);
    assert Trim(v) != [];
    assert Trim(v)[0] == v[0];
  }

  /** The markers survive a transaction that spares them. */
  lemma ConnectMarked(m: Coinmap, tx: Tx)
    requires TidyMap(m) && Marked(m) && Spendable(m, Inputs(tx)) && tx.id !in m
    requires forall t :: t in m && m[t].coinStake ==> OutPoint(t, 0) !in Inputs(tx)
    ensures Marked(Connect(m, tx))
    ensures forall t :: t in m && m[t].coinStake ==>
              t !in UsedUp(m, Inputs(tx)) && t in Connect(m, tx) && Connect(m, tx)[t].coinStake
  {
    var s, u := Spent(m, Inputs(tx)), Connect(m, tx);
    SpentTidy(m, Inputs(tx));
    forall t | t in m ensures t in s ==> s[t].coinStake == m[t].coinStake && (m[t].coinStake ==> Avail(s[t], 0))
      ensures m[t].coinStake ==> t !in UsedUp(m, Inputs(tx)) && t in s
    {
      UsedUpIff(m, Inputs(tx), t);
      if m[t].coinStake { assert Avail(m[t], 0); }
    }
    if tx.IsCoinStake() { StakeMarked(tx); }
  }

  /** While the markers are spared, no coinstake record is used up. */
  lemma {:induction false} NoneUsedUp(m: Coinmap, txs: seq<Tx>, stakes: set<Txid>)
    requires TidyMap(m) && Marked(m) && Connectable(m, txs) && Covers(stakes, m, txs) && Spares(stakes, txs)
    ensures Marked(ConnectAll(m, txs)) && NoStakeIn(m, BlockUsesUp(m, txs)) && StakesKept(m, txs, {})
    decreases |txs|
  {
    if txs != [] {
      var tx, tail := txs[0], txs[1..];
      var m1 := Connect(m, tx);
      ConnectTidy(m, tx);
      SparedInputs(m, txs, stakes);
      ConnectMarked(m, tx);
      CoversNext(m, txs, stakes, tx, tail, m1);
      NoneUsedUp(m1, tail, stakes);
      var rest := BlockUsesUp(m1, tail);
      assert {} + rest == rest;
      if tx.IsCoinStake() {
        StakeMarked(tx);
        assert tx.id in m1 && m1[tx.id].coinStake;
      }
    }
  }

  lemma SparedInputs(m: Coinmap, txs: seq<Tx>, stakes: set<Txid>)
    requires txs != [] && Covers(stakes, m, txs) && Spares(stakes, txs)
    ensures forall t :: t in m && m[t].coinStake ==> OutPoint(t, 0) !in Inputs(txs[0])
  {
    forall t | t in m && m[t].coinStake ensures OutPoint(t, 0) !in Inputs(txs[0]) {
      assert t in stakes;
    }
  }

  lemma CoversNext(m: Coinmap, txs: seq<Tx>, stakes: set<Txid>, tx: Tx, tail: seq<Tx>, m1: Coinmap)
    requires txs != [] && tx == txs[0] && tail == txs[1..] && TidyMap(m) && Spendable(m, Inputs(tx))
    requires m1 == Connect(m, tx) && Covers(stakes, m, txs) && Spares(stakes, txs)
    ensures Covers(stakes, m1, tail) && Spares(stakes, tail)
  {
    SpentTidy(m, Inputs(tx));
    forall t | t in m1 && m1[t].coinStake ensures t in stakes {
      if t != tx.id || t !in m1 || IsPruned(FromTx(tx)) {
        UsedUpIff(m, Inputs(tx), t);
        assert m[t].coinStake;
      } else {
        assert txs[0].IsCoinStake();
      }
    }
    forall k | 0 <= k < |tail| && tail[k].IsCoinStake() ensures tail[k].id in stakes {
      assert tail[k] == txs[k + 1];
    }
    forall k, i | 0 <= k < |tail| && 0 <= i < |Inputs(tail[k])| && Inputs(tail[k])[i].n == 0
      ensures Inputs(tail[k])[i].hash !in stakes
    {
      assert tail[k] == txs[k + 1];
    }
  }

  /** As long as no input names the empty first output of a coinstake, disconnecting restores the view and is
      clean. */
  lemma MarkersSpared(m: Coinmap, txs: seq<Tx>, stakes: set<Txid>)
    requires TidyMap(m) && Marked(m) && Connectable(m, txs) && Covers(stakes, m, txs) && Spares(stakes, txs)
    ensures var s, undos := ConnectAll(m, txs), BlockUndos(m, txs);
            Marked(s) && DisconnectAll(s, txs, undos) == m && AllClean(s, txs, undos)
  {
    NoneUsedUp(m, txs, stakes);
    BlockUndoneIff(m, txs);
  }

  /** A coinstake record of which both the marker and the reward are spent does not survive undoing that. */
  lemma CoinstakeForgotten(pay: Script)
    requires pay != [] && !Unspendable(pay)
    ensures var m: Coinmap := map[1 := Coins(false, true, [Marker, TxOut(5 * COIN, pay)], 207, 1)];
            var ins := [OutPoint(1, 0), OutPoint(1, 1)];
            Spendable(m, ins) && Restore(Spent(m, ins), ins, Undos(m, ins)) != m
  {
    var c := Coins(false, true, [Marker, TxOut(5 * COIN, pay)], 207, 1);
    var m: Coinmap := map[1 := c];
    var ins := [OutPoint(1, 0), OutPoint(1, 1)];
    assert !c.vout[1].IsNull();
    BothSpent(m, ins, c);
    var s := Spent(m, ins);
    assert Forgetful(s, {}, s);
    InputsUndone(m, ins, {}, s);
    var r := Restore(s, ins, Undos(m, ins));
    UsedUpIff(m, ins, 1);
    assert Lookup(r, 1) == Some(Forget(c, true));
  }

  /** Both outputs can be spent, and that uses the record up. */
  lemma BothSpent(m: Coinmap, ins: seq<OutPoint>, c: Coins)
    requires ins == [OutPoint(1, 0), OutPoint(1, 1)] && 1 in m && m[1] == c && TidyMap(m)
    requires |c.vout| == 2 && !c.vout[0].IsNull() && !c.vout[1].IsNull()
    ensures Spendable(m, ins) && 1 in UsedUp(m, ins)
  {
    SpentOutput(c, 0);
    var r := SpendRecord(c, 0);
    assert Avail(r, 1);
    assert ins[1..] == [OutPoint(1, 1)] && ins[1..][1..] == [];
    var m1 := SpendOne(m, ins[0]);
    assert m1[1] == r;
    assert Spendable(SpendOne(m1, ins[1]), []);
    UsedUpIff(m, ins, 1);
    forall n: nat | Avail(c, n) ensures OutPoint(1, n) in ins {
      assert ins[n] == OutPoint(1, n);
    }
  }

  /** A block of one transaction. */
  lemma OneTx(m: Coinmap, tx: Tx)
    requires Spendable(m, Inputs(tx)) && tx.id !in m && Regular(tx)
    ensures Connectable(m, [tx]) && ConnectAll(m, [tx]) == Connect(m, tx)
    ensures BlockUsesUp(m, [tx]) == UsedUp(m, Inputs(tx))
    ensures forall y :: StakesKept(m, [tx], y) <==> StakeKept(m, tx, y)
  {
    var txs, m1 := [tx], Connect(m, tx);
    assert txs[0] == tx && txs[1..] == [];
    assert Connectable(m1, txs[1..]) && ConnectAll(m1, txs[1..]) == m1;
    assert BlockUsesUp(m1, txs[1..]) == {};
    forall y ensures StakesKept(m, txs, y) <==> StakeKept(m, tx, y) {
      assert y + {} == y;
      assert StakesKept(m1, txs[1..], y);
    }
  }

  const MATURITY: int := 30
  const COIN: int := 100_000_000
  const MAX_MONEY: int := 21_000_000 * COIN

  /** What `CheckTransaction` demands of a transaction without zerocoins. */
  ghost predicate Checked(tx: Tx) {
    tx.vin != [] && tx.vout != [] && !tx.IsZerocoinSpend() && !tx.IsZerocoinMint() &&
    (forall i :: 0 <= i < |tx.vout| ==>
      0 <= tx.vout[i].value <= MAX_MONEY && (tx.vout[i] == Marker ==> tx.IsCoinBase() || tx.IsCoinStake())) &&
    (forall i, j :: 0 <= i < j < |tx.vin| ==> tx.vin[i].prevout != tx.vin[j].prevout)
  }

  /** A coinstake, and later a mature transaction that spends both its marker and its reward: disconnecting both,
      the block of the coinstake is reported as mismatched although nothing was damaged. Transactions and blocks
      in between make no difference. */
  lemma StakeReported(pay: Script, m: Coinmap, stake: Tx, spender: Tx)
    requires pay != [] && !Unspendable(pay) && !ZerocoinMint(pay)
    requires m == map[9 := Coins(false, false, [TxOut(200 * COIN, pay)], 3, 1)]
    requires stake == Tx(1, [TxIn(OutPoint(9, 0), [])], [Marker, TxOut(205 * COIN, pay)], 207, 1)
    requires spender == Tx(2, [TxIn(OutPoint(1, 0), [0x51]), TxIn(OutPoint(1, 1), [])], [TxOut(205 * COIN, pay)],
                           207 + MATURITY, 1)
    ensures TidyMap(m) && Marked(m) && Checked(stake) && stake.IsCoinStake() && Checked(spender)
    ensures Connectable(m, [stake])
    ensures var m1 := ConnectAll(m, [stake]);
            Connectable(m1, [spender]) &&
            var m2, undos := ConnectAll(m1, [spender]), BlockUndos(m1, [spender]);
            AllClean(m2, [spender], undos) &&
            !AllClean(DisconnectAll(m2, [spender], undos), [stake], BlockUndos(m, [stake]))
  {
    var c := FromTx(stake);
    StakeFacts(pay, stake, spender, c);
    assert !c.vout[0].IsNull();
    assert Inputs(stake) == [OutPoint(9, 0)] && Inputs(stake)[1..] == [];
    assert Tidy(m[9]) && !m[9].vout[0].IsNull();
    OneInput(m, OutPoint(9, 0));
    var m1 := Connected(m, stake, c);
    assert Inputs(spender) == [OutPoint(1, 0), OutPoint(1, 1)];
    BothSpent(m1, Inputs(spender), c);
    StakeUsedUp(m, stake, spender);
  }

  lemma OneInput(m: Coinmap, p: OutPoint)
    requires CanSpend(m, p)
    ensures Spendable(m, [p])
  {
    assert [p][1..] == [];
    assert Spendable(SpendOne(m, p), []);
  }

  lemma Connected(m: Coinmap, tx: Tx, c: Coins) returns (m1: Coinmap)
    requires TidyMap(m) && Spendable(m, Inputs(tx)) && Regular(tx) && c == FromTx(tx) && !IsPruned(c)
    ensures m1 == Connect(m, tx) && TidyMap(m1) && tx.id in m1 && m1[tx.id] == c
    ensures forall t :: t in m1 ==> t in m || t == tx.id
  {
    m1 := Connect(m, tx);
    ConnectTidy(m, tx);
    SpentTidy(m, Inputs(tx));
  }

  /** A coinstake whose record a transaction of a later block uses up. */
  lemma StakeUsedUp(m: Coinmap, stake: Tx, spender: Tx)
    requires TidyMap(m) && Spendable(m, Inputs(stake)) && stake.id !in m && Regular(stake) && stake.IsCoinStake()
    requires var m1 := Connect(m, stake);
             Spendable(m1, Inputs(spender)) && spender.id !in m1 && stake.id in UsedUp(m1, Inputs(spender))
    requires Regular(spender) && !spender.IsCoinStake()
    ensures Connectable(m, [stake])
    ensures var m1 := ConnectAll(m, [stake]);
            Connectable(m1, [spender]) &&
            var m2, undos := ConnectAll(m1, [spender]), BlockUndos(m1, [spender]);
            AllClean(m2, [spender], undos) &&
            !AllClean(DisconnectAll(m2, [spender], undos), [stake], BlockUndos(m, [stake]))
  {
    StakeMarked(stake);
    OneTx(m, stake);
    OneTx(Connect(m, stake), spender);
    TwoBlocks(m, [stake], [spender]);
  }

  lemma StakeFacts(pay: Script, stake: Tx, spender: Tx, c: Coins)
    requires pay != [] && !Unspendable(pay) && !ZerocoinMint(pay) && c == FromTx(stake)
    requires stake == Tx(1, [TxIn(OutPoint(9, 0), [])], [Marker, TxOut(205 * COIN, pay)], 207, 1)
    requires spender == Tx(2, [TxIn(OutPoint(1, 0), [0x51]), TxIn(OutPoint(1, 1), [])], [TxOut(205 * COIN, pay)],
                           207 + MATURITY, 1)
    ensures Checked(stake) && stake.IsCoinStake() && Checked(spender) && !spender.IsCoinStake()
    ensures c == Coins(false, true, [Marker, TxOut(205 * COIN, pay)], 207, 1)
  {
    assert Spendables(stake.vout) == stake.vout;
    CleanedFacts(Whole(stake));
  }

  // ----- on real caches -----

  /** The maps with the last one replaced. */
  ghost function WithTop(ms: seq<Coinmap>, m: Coinmap): (r: seq<Coinmap>)
    requires ms != []
    ensures |r| == |ms| && r[|r| - 1] == m
  {
    ms[|ms| - 1 := m]
  }

  lemma TopTwice(ms: seq<Coinmap>, m: Coinmap, now: Coinmap)
    requires ms != []
    ensures WithTop(WithTop(ms, m), now) == WithTop(ms, now)
  {
    var a, b := WithTop(WithTop(ms, m), now), WithTop(ms, now);
    forall i | 0 <= i < |ms| ensures a[i] == b[i] {}
  }

  /** Releasing a modifier with a given record in it. */
  lemma ReleaseMatches(s: Stack, ms: seq<Coinmap>, t: Txid, c: Coins)
    requires CoinsStack.Inv(s) && s.Layer? && Matches(s, ms)
    ensures var u := Released(Opened(s, t), t, c);
            CoinsStack.Inv(u) && Matches(u, WithTop(ms, Set(ms[|ms| - 1], t, Cleaned(c))))
  {
    ModifiedMatches(s, ms, t, _ => c);
  }

  /** A modifier for a record of the top cache, and the record in it. */
  method OpenRecord(db: Database, caches: seq<Cache>, t: Txid, ghost ms: seq<Coinmap>) returns (c: Coins)
    requires Running(db, caches, ms)
    modifies caches[|caches| - 1].chain
    ensures Opening(db, caches, old(caches[|caches| - 1].Abs()), t, ms)
    ensures Visible(c) == Lookup(ms[|ms| - 1], t)
  {
    var top := caches[|caches| - 1];
    ghost var s := top.Abs();
    assert View(s, t) == Lookup(ms[|ms| - 1], t);
    OpenedKeeps(s, t);
    top.ModifyCoins(t);
    c := top.cacheCoins[t].coins;
  }

  /** A modifier for record t is held on the top cache of a stack that was in state s. */
  ghost predicate Opening(db: Database, caches: seq<Cache>, s: Stack, t: Txid, ms: seq<Coinmap>)
    reads db, if caches != [] then caches[|caches| - 1].chain else {}
  {
    Stacked(db, caches) && |ms| == |caches| + 1 && s.Layer? && CoinsStack.Inv(s) && Matches(s, ms) &&
    var top := caches[|caches| - 1];
    top.hasModifier && (forall c :: c in top.chain && c != top ==> !c.hasModifier) && top.Abs() == Opened(s, t)
  }

  /** The modifier released with a record in it. */
  method CloseRecord(db: Database, caches: seq<Cache>, t: Txid, c: Coins, ghost s: Stack, ghost ms: seq<Coinmap>)
    requires Opening(db, caches, s, t, ms)
    modifies caches[|caches| - 1].chain
    ensures Running(db, caches, WithTop(ms, Set(ms[|ms| - 1], t, Cleaned(c))))
  {
    var top := caches[|caches| - 1];
    ReleaseMatches(s, ms, t, c);
    top.Release(t, c);
  }

  /** One input spent through a modifier; the assertion that it could be spent holds. */
  method SpendInput(db: Database, caches: seq<Cache>, p: OutPoint, ghost ms: seq<Coinmap>) returns (undo: Undo)
    requires Running(db, caches, ms) && CanSpend(ms[|ms| - 1], p)
    modifies caches[|caches| - 1].chain
    ensures Running(db, caches, WithTop(ms, SpendOne(ms[|ms| - 1], p)))
    ensures undo == UndoOf(ms[|ms| - 1][p.hash], p.n)
  {
    ghost var s := caches[|caches| - 1].Abs();
    var c := OpenRecord(db, caches, p.hash, ms);
    var ok, r, u := Spend(c, p.n);
    assert ok;
    undo := u;
    SpendTwice(c, p.n);
    CloseRecord(db, caches, p.hash, r, s, ms);
  }

  lemma SpendTwice(c: Coins, n: nat)
    requires Avail(c, n)
    ensures Cleaned(SpendRecord(c, n)) == SpendRecord(c, n)
  {
    CleanedFacts(c.(vout := c.vout[n := NullOut]));
    CleanedFacts(SpendRecord(c, n));
  }

  /** The outputs of m1 are those of m without the inputs of tx and with its outputs. */
  ghost predicate Outputs(m: Coinmap, tx: Tx, m1: Coinmap) {
    forall p {:trigger OutputAt(m1, p)} :: OutputAt(m1, p) == OutputAfter(m, tx, p)
  }

  lemma OutputsConnected(m: Coinmap, tx: Tx)
    requires Spendable(m, Inputs(tx))
    ensures Outputs(m, tx, Connect(m, tx))
  {
    forall p {:trigger OutputAt(Connect(m, tx), p)} ensures OutputAt(Connect(m, tx), p) == OutputAfter(m, tx, p) {
      ConnectExactly(m, tx, p);
    }
  }

  /** `UpdateCoins` on the top cache of a stack. */
  method UpdateCoins(db: Database, caches: seq<Cache>, tx: Tx, ghost ms: seq<Coinmap>)
    returns (undos: seq<Undo>)
    requires Running(db, caches, ms) && Spendable(ms[|ms| - 1], Inputs(tx))
    modifies caches[|caches| - 1].chain
    ensures Running(db, caches, WithTop(ms, Connect(ms[|ms| - 1], tx)))
    ensures undos == Undos(ms[|ms| - 1], Inputs(tx))
    ensures Outputs(ms[|ms| - 1], tx, Connect(ms[|ms| - 1], tx))
  {
    OutputsConnected(ms[|ms| - 1], tx);
    undos := SpendInputs(db, caches, Inputs(tx), ms);
    ghost var m := Spent(ms[|ms| - 1], Inputs(tx));
    Change(db, caches, tx.id, _ => FromTx(tx), WithTop(ms, m));
    ClearedTwice(Whole(tx), false);
    CleanedFacts(Whole(tx).(vout := Spendables(tx.vout)));
    CleanedFacts(FromTx(tx));
    assert PlainStep(WithTop(ms, m), Op.Modify(tx.id, _ => FromTx(tx))) ==
           WithTop(ms, Connect(ms[|ms| - 1], tx));
  }

  method SpendInputs(db: Database, caches: seq<Cache>, ins: seq<OutPoint>, ghost ms: seq<Coinmap>)
    returns (undos: seq<Undo>)
    requires Running(db, caches, ms) && Spendable(ms[|ms| - 1], ins)
    modifies caches[|caches| - 1].chain
    ensures Running(db, caches, WithTop(ms, Spent(ms[|ms| - 1], ins))) && undos == Undos(ms[|ms| - 1], ins)
  {
    ghost var m := ms[|ms| - 1];
    ghost var cur := m;
    undos := [];
    assert WithTop(ms, cur) == ms;
    assert ins[0..] == ins;
    for j := 0 to |ins|
      invariant Running(db, caches, WithTop(ms, cur)) && Spendable(cur, ins[j..])
      invariant Spent(cur, ins[j..]) == Spent(m, ins) && undos + Undos(cur, ins[j..]) == Undos(m, ins)
    {
      assert ins[j..][0] == ins[j] && ins[j..][1..] == ins[j + 1..];
      var u := SpendInput(db, caches, ins[j], WithTop(ms, cur));
      assert Undos(cur, ins[j..]) == [u] + Undos(SpendOne(cur, ins[j]), ins[j + 1..]);
      undos := undos + [u];
      assert WithTop(WithTop(ms, cur), SpendOne(cur, ins[j])) == WithTop(ms, SpendOne(cur, ins[j]));
      cur := SpendOne(cur, ins[j]);
    }
  }

  /** One output put back into the record a modifier holds, with the tests. */
  method ApplyUndo(c: Coins, n: nat, u: Undo) returns (clean: bool, d: Coins)
    ensures clean <==> UndoClean(Visible(c), n, u)
    ensures d == UndoRecord(Some(c), n, u)
  {
    clean, d := true, c;
    var pruned := TestPruned(c);
    if u.height != 0 {
      if !pruned { clean := false; }
      d := Empty.(coinBase := u.coinBase, height := u.height, version := u.version);
    } else {
      if pruned { clean := false; }
    }
    if IsAvailable(d, n) {
      clean := false;
    }
    if |d.vout| < n + 1 {
      d := d.(vout := Resize(d.vout, n + 1));
    }
    d := d.(vout := d.vout[n := u.out]);
  }

  /** One output restored through a modifier. Without the record it should complete, what the cache still holds
      of a spent record is completed instead. */
  method UndoInput(db: Database, caches: seq<Cache>, p: OutPoint, u: Undo, ghost ms: seq<Coinmap>)
    returns (clean: bool, ghost now: Coinmap)
    requires Running(db, caches, ms)
    modifies caches[|caches| - 1].chain
    ensures Running(db, caches, WithTop(ms, now))
    ensures clean <==> UndoClean(Lookup(ms[|ms| - 1], p.hash), p.n, u)
    ensures u.height != 0 || p.hash in ms[|ms| - 1] ==> now == UndoOne(ms[|ms| - 1], p, u)
  {
    ghost var s := caches[|caches| - 1].Abs();
    var c := OpenRecord(db, caches, p.hash, ms);
    var d;
    clean, d := ApplyUndo(c, p.n, u);
    now := Set(ms[|ms| - 1], p.hash, Cleaned(d));
    CloseRecord(db, caches, p.hash, d, s, ms);
  }

  /** The part of `DisconnectBlock` for one transaction: its outputs are compared and go, its inputs come back,
      last first. */
  method DisconnectTx(db: Database, caches: seq<Cache>, tx: Tx, undos: seq<Undo>,
                      ghost ms: seq<Coinmap>)
    returns (clean: bool, ghost now: Coinmap)
    requires Running(db, caches, ms) && |undos| == |Inputs(tx)|
    modifies caches[|caches| - 1].chain
    ensures Running(db, caches, WithTop(ms, now))
    ensures clean <==> DisconnectClean(ms[|ms| - 1], tx, undos)
    ensures Restorable(ms[|ms| - 1] - {tx.id}, Inputs(tx), undos) ==> now == Disconnect(ms[|ms| - 1], tx, undos)
  {
    ghost var m := ms[|ms| - 1] - {tx.id};
    var matches := RemoveOutputs(db, caches, tx, ms);
    var restored, after := RestoreInputs(db, caches, Inputs(tx), undos, WithTop(ms, m));
    clean, now := matches && restored, after;
    assert WithTop(WithTop(ms, m), now) == WithTop(ms, now);
  }

  /** The outputs compared with the block and removed. */
  method RemoveOutputs(db: Database, caches: seq<Cache>, tx: Tx, ghost ms: seq<Coinmap>)
    returns (matches: bool)
    requires Running(db, caches, ms)
    modifies caches[|caches| - 1].chain
    ensures Running(db, caches, WithTop(ms, ms[|ms| - 1] - {tx.id}))
    ensures matches <==> OutsMatch(if tx.id in ms[|ms| - 1] then ms[|ms| - 1][tx.id] else Empty, tx)
  {
    ghost var s := caches[|caches| - 1].Abs();
    var outs := OpenRecord(db, caches, tx.id, ms);
    matches := OutsMatch(outs, tx);
    PrunedAlike(outs, tx);
    CloseRecord(db, caches, tx.id, Empty, s, ms);
  }

  /** What is left of a spent record compares as the empty one. */
  lemma PrunedAlike(c: Coins, tx: Tx)
    ensures IsPruned(c) ==> (OutsMatch(c, tx) <==> OutsMatch(Empty, tx))
  {
    if IsPruned(c) {
      PrunedMatch(c, tx);
      PrunedMatch(Empty, tx);
    }
  }

  lemma PrunedMatch(c: Coins, tx: Tx)
    requires IsPruned(c)
    ensures OutsMatch(c, tx) <==> IsPruned(FromTx(tx))
  {
    var v := Spendables(c.vout);
    assert IsPruned(c.(vout := v));
    CleanedFacts(c.(vout := v));
  }

  method RestoreInputs(db: Database, caches: seq<Cache>, ins: seq<OutPoint>, undos: seq<Undo>, ghost ms: seq<Coinmap>)
    returns (clean: bool, ghost now: Coinmap)
    requires Running(db, caches, ms) && |undos| == |ins|
    modifies caches[|caches| - 1].chain
    ensures Running(db, caches, WithTop(ms, now))
    ensures clean <==> RestoreClean(ms[|ms| - 1], ins, undos)
    ensures Restorable(ms[|ms| - 1], ins, undos) ==> now == Restore(ms[|ms| - 1], ins, undos)
  {
    ghost var m := ms[|ms| - 1];
    var j := |ins|;
    clean, now := true, m;
    assert WithTop(ms, m) == ms;
    while j > 0
      invariant 0 <= j <= |ins| && Running(db, caches, WithTop(ms, now))
      invariant clean <==> RestoreClean(m, ins[j..], undos[j..])
      invariant Restorable(m, ins[j..], undos[j..]) ==> now == Restore(m, ins[j..], undos[j..])
    {
      j := j - 1;
      assert ins[j..][1..] == ins[j + 1..] && undos[j..][1..] == undos[j + 1..];
      if clean { CleanRestorable(m, ins[j + 1..], undos[j + 1..]); }
      ghost var was := now;
      var ok;
      ok, now := UndoInput(db, caches, ins[j], undos[j], WithTop(ms, was));
      clean := clean && ok;
      assert WithTop(WithTop(ms, was), now) == WithTop(ms, now);
    }
    assert ins[0..] == ins && undos[0..] == undos;
  }

  /** `DisconnectBlock`, from the last transaction to the first. */
  method DisconnectBlock(db: Database, caches: seq<Cache>, txs: seq<Tx>, undos: seq<seq<Undo>>, ghost ms: seq<Coinmap>)
    returns (clean: bool, ghost now: Coinmap)
    requires Running(db, caches, ms) && UndosFor(txs, undos)
    modifies caches[|caches| - 1].chain
    ensures Running(db, caches, WithTop(ms, now))
    ensures clean <==> AllClean(ms[|ms| - 1], txs, undos)
    ensures AllRestorable(ms[|ms| - 1], txs, undos) ==> now == DisconnectAll(ms[|ms| - 1], txs, undos)
  {
    ghost var m := ms[|ms| - 1];
    var j := |txs|;
    clean, now := true, m;
    assert WithTop(ms, m) == ms;
    while j > 0
      invariant 0 <= j <= |txs| && Running(db, caches, WithTop(ms, now)) && UndosFor(txs[j..], undos[j..])
      invariant clean <==> AllClean(m, txs[j..], undos[j..])
      invariant AllRestorable(m, txs[j..], undos[j..]) ==> now == DisconnectAll(m, txs[j..], undos[j..])
    {
      if clean { AllCleanRestorable(m, txs[j..], undos[j..]); }
      j := j - 1;
      assert txs[j..][1..] == txs[j + 1..] && undos[j..][1..] == undos[j + 1..];
      ghost var was := now;
      var ok;
      ok, now := DisconnectTx(db, caches, txs[j], undos[j], WithTop(ms, was));
      clean := clean && ok;
      assert WithTop(WithTop(ms, was), now) == WithTop(ms, now);
    }
    assert txs[0..] == txs && undos[0..] == undos;
  }

  /** Connecting the transactions, as `ConnectBlock` does. */
  method ConnectBlock(db: Database, caches: seq<Cache>, txs: seq<Tx>,
                      ghost ms: seq<Coinmap>)
    returns (undos: seq<seq<Undo>>)
    requires Running(db, caches, ms) && Connectable(ms[|ms| - 1], txs)
    modifies caches[|caches| - 1].chain
    ensures Running(db, caches, WithTop(ms, ConnectAll(ms[|ms| - 1], txs)))
    ensures undos == BlockUndos(ms[|ms| - 1], txs)
  {
    ghost var m := ms[|ms| - 1];
    ghost var cur := m;
    undos := [];
    assert WithTop(ms, cur) == ms;
    assert txs[0..] == txs;
    for j := 0 to |txs|
      invariant Running(db, caches, WithTop(ms, cur)) && Connectable(cur, txs[j..])
      invariant ConnectAll(cur, txs[j..]) == ConnectAll(m, txs)
      invariant undos + BlockUndos(cur, txs[j..]) == BlockUndos(m, txs)
    {
      FirstSpendable(cur, txs, j);
      var u := UpdateCoins(db, caches, txs[j], WithTop(ms, cur));
      ghost var next := Connect(cur, txs[j]);
      NextTx(cur, txs, j, undos, u, next);
      undos := undos + [u];
      TopTwice(ms, cur, next);
      cur := next;
    }
  }

  /** One more transaction connected. */
  lemma NextTx(cur: Coinmap, txs: seq<Tx>, j: nat, undos: seq<seq<Undo>>, u: seq<Undo>,
               next: Coinmap)
    requires j < |txs| && Connectable(cur, txs[j..])
    requires next == Connect(cur, txs[j]) && u == Undos(cur, Inputs(txs[j]))
    ensures Connectable(next, txs[j + 1..])
    ensures ConnectAll(next, txs[j + 1..]) == ConnectAll(cur, txs[j..])
    ensures undos + [u] + BlockUndos(next, txs[j + 1..]) == undos + BlockUndos(cur, txs[j..])
  {
    var list := txs[j..];
    assert list[0] == txs[j] && list[1..] == txs[j + 1..];
    FirstConnected(cur, list);
  }

  lemma FirstSpendable(m: Coinmap, txs: seq<Tx>, j: nat)
    requires j < |txs| && Connectable(m, txs[j..])
    ensures Spendable(m, Inputs(txs[j]))
  {
    assert txs[j..][0] == txs[j];
  }

  lemma FirstConnected(m: Coinmap, txs: seq<Tx>)
    requires txs != [] && Connectable(m, txs)
    ensures var m1 := Connect(m, txs[0]);
            Connectable(m1, txs[1..]) && ConnectAll(m, txs) == ConnectAll(m1, txs[1..]) &&
            BlockUndos(m, txs) == [Undos(m, Inputs(txs[0]))] + BlockUndos(m1, txs[1..])
  {
  }

  /** Transactions connected and disconnected again on real caches. */
  method ConnectThenDisconnect(db: Database, caches: seq<Cache>, txs: seq<Tx>,
                               ghost ms: seq<Coinmap>)
    returns (clean: bool, ghost now: Coinmap)
    requires Running(db, caches, ms) && TidyMap(ms[|ms| - 1]) && Connectable(ms[|ms| - 1], txs)
    modifies caches[|caches| - 1].chain
    ensures Running(db, caches, WithTop(ms, now))
    ensures clean <==> StakesKept(ms[|ms| - 1], txs, {})
    ensures now == ms[|ms| - 1] <==> NoStakeIn(ms[|ms| - 1], BlockUsesUp(ms[|ms| - 1], txs))
  {
    BlockUndoneIff(ms[|ms| - 1], txs);
    var undos := ConnectBlock(db, caches, txs, ms);
    ghost var mid := WithTop(ms, ConnectAll(ms[|ms| - 1], txs));
    clean, now := DisconnectBlock(db, caches, txs, undos, mid);
    assert WithTop(mid, now) == WithTop(ms, now);
  }
}
