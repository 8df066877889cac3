/** `CChain`: the active chain as a vector indexed by height, over a tree of block index entries. */
module ChainIndex {
  import opened Folding
  import opened Powers

  /** The links of `CBlockIndex` that never change once an entry is in the tree. */
  class Block {
    const pprev: Block?
    const nHeight: nat
    const hash: nat

    constructor (pprev: Block?, hash: nat)
      ensures this.pprev == pprev && this.hash == hash && nHeight == if pprev == null then 0 else pprev.nHeight + 1
    {
      this.pprev := pprev;
      this.hash := hash;
      this.nHeight := if pprev == null then 0 else pprev.nHeight + 1;
    }

    /** Parents down to a block of height 0, one height at a time. */
    ghost predicate Linked()
      decreases nHeight
    {
      if pprev == null then nHeight == 0 else nHeight == pprev.nHeight + 1 && pprev.Linked()
    }
  }

  /** The ancestor at a given height. */
  ghost function Ancestor(b: Block, h: nat): (r: Block)
    requires b.Linked() && h <= b.nHeight
    ensures r.Linked() && r.nHeight == h
    decreases b.nHeight
  {
    if h == b.nHeight then b else Ancestor(b.pprev, h)
  }

  lemma {:induction false} AncestorOfAncestor(b: Block, h: nat, k: nat)
    requires b.Linked() && k <= h <= b.nHeight
    ensures Ancestor(Ancestor(b, h), k) == Ancestor(b, k)
    decreases b.nHeight
  {
    if h < b.nHeight { AncestorOfAncestor(b.pprev, h, k); }
  }

  /** `GetAncestor`, by the parent links. */
  method GetAncestor(b: Block, h: int) returns (r: Block?)
    requires b.Linked()
    ensures h < 0 || h > b.nHeight ==> r == null
    ensures 0 <= h <= b.nHeight ==> r == Ancestor(b, h)
  {
    if h < 0 || h > b.nHeight {
      return null;
    }
    var w: Block := b;
    while w.nHeight > h
      invariant w.Linked() && h <= w.nHeight <= b.nHeight && Ancestor(w, h) == Ancestor(b, h)
      decreases w.nHeight
    {
      w := w.pprev;
    }
    r := w;
  }

  /** Entry h is the block at height h below the last entry. */
  ghost predicate IsPath(v: seq<Block?>) {
    forall h {:trigger v[h]} :: 0 <= h < |v| ==>
      v[h] != null && v[h].Linked() && v[h].nHeight == h &&
      forall k {:trigger v[k]} :: 0 <= k <= h ==> v[k] == Ancestor(v[h], k)
  }

  ghost predicate PathTo(v: seq<Block?>, tip: Block) {
    tip.Linked() && |v| == tip.nHeight + 1 && forall h :: 0 <= h < |v| ==> v[h] == Ancestor(tip, h)
  }

  lemma PathIsPath(v: seq<Block?>, tip: Block)
    requires PathTo(v, tip)
    ensures IsPath(v)
  {
    forall h, k | 0 <= k <= h < |v| ensures v[k] == Ancestor(Ancestor(tip, h), k) {
      AncestorOfAncestor(tip, h, k);
    }
  }

  class Chain {
    var vChain: seq<Block?>

    ghost predicate Valid()
      reads this
    {
      IsPath(vChain)
    }

    constructor ()
      ensures Valid() && vChain == []
    {
      vChain := [];
    }

    function At(h: int): (r: Block?)
      reads this
    {
      if h < 0 || h >= |vChain| then null else vChain[h]
    }

    function Contains(b: Block): bool
      reads this
    {
      At(b.nHeight) == b
    }

    function Height(): int
      reads this
    {
      |vChain| - 1
    }

    /** `SetTip`: rewriting stops at the first block already in place, and still every entry is
        the new tip's ancestor at its height. */
    method SetTip(tip: Block?)
      requires Valid() && (tip != null ==> tip.Linked())
      modifies this
      ensures Valid() && if tip == null then vChain == [] else PathTo(vChain, tip)
    {
      if tip == null {
        vChain := [];
        return;
      }
      ghost var was := vChain;
      var n := tip.nHeight + 1;
      vChain := if |vChain| >= n then vChain[..n] else vChain + seq(n - |vChain|, _ => null);
      ghost var resized := vChain;
      var w: Block? := tip;
      ghost var done := n;
      while w != null && vChain[w.nHeight] != w
        invariant |vChain| == n && 0 <= done <= n
        invariant w == null ==> done == 0
        invariant w != null ==> w.Linked() && w.nHeight == done - 1 && w == Ancestor(tip, done - 1)
        invariant forall h :: done <= h < n ==> vChain[h] == Ancestor(tip, h)
        invariant forall h :: 0 <= h < done ==> vChain[h] == resized[h]
        decreases done
      {
        vChain := vChain[w.nHeight := w];
        if w.pprev != null { NextDown(tip, w); }
        w := w.pprev;
        done := done - 1;
      }
      if w != null {
        assert resized[w.nHeight] == w;
        forall h | 0 <= h < done ensures vChain[h] == Ancestor(tip, h) {
          assert was[done - 1] == w;
          assert was[h] == Ancestor(w, h);
          AncestorOfAncestor(tip, done - 1, h);
        }
      }
      PathIsPath(vChain, tip);
    }

    /** `FindFork`: the highest block both in this chain and on the given block's path. */
    method FindFork(b: Block?) returns (r: Block?)
      requires Valid() && (b != null ==> b.Linked())
      ensures b == null ==> r == null
      ensures b != null && r != null ==>
              r.Linked() && Contains(r) && r.nHeight <= b.nHeight && r == Ancestor(b, r.nHeight)
      ensures b != null ==> forall h :: (if r == null then 0 else r.nHeight + 1) <= h <= b.nHeight ==>
              !Contains(Ancestor(b, h))
    {
      if b == null {
        return null;
      }
      r := b;
      if b.nHeight > Height() {
        r := GetAncestor(b, Height());
      }
      while r != null && !Contains(r)
        invariant r != null ==> r.Linked() && r.nHeight <= b.nHeight && r == Ancestor(b, r.nHeight)
        invariant forall h :: (if r == null then 0 else r.nHeight + 1) <= h <= b.nHeight ==> !Contains(Ancestor(b, h))
        decreases if r == null then 0 else r.nHeight + 1
      {
        if r.pprev != null { NextDown(b, r); }
        r := r.pprev;
      }
    }

    method Next(b: Block) returns (r: Block?)
      requires Valid() && b.Linked()
      ensures r != null ==> Contains(b) && Contains(r) && r.pprev == b
      ensures r == null ==> !Contains(b) || b.nHeight == Height()
    {
      if Contains(b) {
        r := At(b.nHeight + 1);
        if r != null {
          assert vChain[b.nHeight + 1] == r;
          assert vChain[b.nHeight] == Ancestor(r, b.nHeight);
          assert Ancestor(r, b.nHeight) == Ancestor(r.pprev, b.nHeight) == r.pprev;
        }
      } else {
        r := null;
      }
    }

    /** The next locator entry: the ancestor at height h, by the index if possible. */
    method Back(b: Block, h: nat) returns (r: Block)
      requires Valid() && b.Linked() && h <= b.nHeight
      ensures r == Ancestor(b, h)
    {
      if Contains(b) {
        assert vChain[b.nHeight] == b;
        r := At(h);
        assert vChain[h] == Ancestor(b, h);
      } else {
        r := GetAncestor(b, h);
      }
    }

    /** `GetLocator`: hashes of ancestors, strictly descending, from the given block (or the tip)
        to height 0, in number logarithmic in the height. */
    method GetLocator(b: Block?) returns (have: seq<nat>, ghost blocks: seq<Block>)
      requires Valid() && (b != null ==> b.Linked())
      ensures var start := if b == null then At(Height()) else b;
              if start == null then have == [] && vChain == []
              else start.Linked() && have == LocatorHashes(start, 0) && Locates(start, have, blocks)
    {
      var start := if b == null then At(Height()) else b;
      if start == null {
        return [], [];
      }
      assert b == null ==> vChain[Height()] == start;
      have, blocks := LocatorFrom(start);
    }

    /** The ancestor a number of blocks back, at most back to height 0. */
    method BackBy(w: Block, step: nat) returns (next: Block)
      requires Valid() && w.Linked()
      ensures next == Ancestor(w, Max0(w.nHeight - step))
    {
      var h: nat := if w.nHeight > step then w.nHeight - step else 0;
      next := Back(w, h);
    }

    method LocatorFrom(start: Block) returns (have: seq<nat>, ghost blocks: seq<Block>)
      requires Valid() && start.Linked()
      ensures have == LocatorHashes(start, 0) && Locates(start, have, blocks)
    {
      have, blocks := [], [];
      var w: Block := start;
      var step := 1;
      LocatingStart(start);
      while w.nHeight != 0
        invariant w.Linked() && step >= 0 && Locating(start, have, blocks, w, step)
        decreases w.nHeight
      {
        var next := BackBy(w, step);
        ghost var have', blocks', step' := have, blocks, step;
        have, blocks := have + [w.hash], blocks + [w];
        if |have| > 10 {
          step := step * 2;
        }
        LocatingStep(start, have', blocks', w, step', next, have, blocks, step);
        w := next;
      }
      LocatingEnd(start, have, blocks, w, step);
      have, blocks := have + [w.hash], blocks + [w];
    }
  }

  /** The entries so far lead to the whole list; kept folded. */
  ghost predicate Locating(start: Block, have: seq<nat>, blocks: seq<Block>, w: Block, step: int)
    requires w.Linked() && start.Linked()
  {
    forall z {:trigger Inside(z)} :: Inside(z) ==>
      Walk(start, have, blocks, w) && step == StepAt(|have| + 1) &&
      have + LocatorHashes(w, |have|) == LocatorHashes(start, 0)
  }

  lemma LocatingStart(start: Block)
    requires start.Linked()
    ensures Locating(start, [], [], start, 1)
  {
    assert start == Ancestor(start, start.nHeight);
  }

  lemma LocatingStep(start: Block, have: seq<nat>, blocks: seq<Block>, w: Block, step: nat, next: Block,
                     more: seq<nat>, passed: seq<Block>, further: nat)
    requires start.Linked() && w.Linked() && w.nHeight != 0 && Locating(start, have, blocks, w, step)
    requires next == Ancestor(w, Max0(w.nHeight - step)) && more == have + [w.hash] && passed == blocks + [w]
    requires further == if |more| > 10 then step * 2 else step
    ensures next.Linked() && next.nHeight < w.nHeight && Locating(start, more, passed, next, further)
  {
    assert Inside(0);
    StepDoubles(|have| + 1);
    WalkStep(start, have, blocks, w, next);
    HashesStep(have, w, next);
  }

  lemma LocatingEnd(start: Block, have: seq<nat>, blocks: seq<Block>, w: Block, step: int)
    requires start.Linked() && w.Linked() && w.nHeight == 0 && Locating(start, have, blocks, w, step)
    ensures have + [w.hash] == LocatorHashes(start, 0) && Locates(start, have + [w.hash], blocks + [w])
  {
    assert Inside(0);
    WalkEnds(start, have, blocks, w);
  }

  /** Entries so far, and the block to come next. */
  ghost predicate Walk(start: Block, have: seq<nat>, blocks: seq<Block>, w: Block) {
    start.Linked() && w.Linked() && Sofar(start, have, blocks) && w.nHeight <= start.nHeight &&
    w == Ancestor(start, w.nHeight) &&
    w.nHeight == Max0(start.nHeight - Distance(|have|)) && (blocks == [] ==> w == start) &&
    (|blocks| > 0 ==> w.nHeight < blocks[|blocks| - 1].nHeight && Distance(|have| - 1) < start.nHeight)
  }

  lemma WalkStep(start: Block, have: seq<nat>, blocks: seq<Block>, w: Block, next: Block)
    requires Walk(start, have, blocks, w) && w.nHeight != 0
    requires next == Ancestor(w, Max0(w.nHeight - StepAt(|have| + 1)))
    ensures Walk(start, have + [w.hash], blocks + [w], next)
  {
    AncestorOfAncestor(start, w.nHeight, next.nHeight);
    StepDoubles(|have| + 1);
    SofarStep(start, have, blocks, w);
  }

  lemma SofarStep(start: Block, have: seq<nat>, blocks: seq<Block>, w: Block)
    requires start.Linked() && Sofar(start, have, blocks) && w.Linked() && w.nHeight <= start.nHeight
    requires w == Ancestor(start, w.nHeight) && (blocks == [] ==> w == start)
    requires |blocks| > 0 ==> w.nHeight < blocks[|blocks| - 1].nHeight
    ensures Sofar(start, have + [w.hash], blocks + [w])
  {
    var more := blocks + [w];
    forall i, j | 0 <= i < j < |more| ensures more[j].nHeight < more[i].nHeight {
      if j == |blocks| && i < |blocks| - 1 { assert blocks[|blocks| - 1].nHeight < blocks[i].nHeight; }
    }
  }

  lemma WalkEnds(start: Block, have: seq<nat>, blocks: seq<Block>, w: Block)
    requires Walk(start, have, blocks, w) && w.nHeight == 0
    ensures Locates(start, have + [w.hash], blocks + [w])
  {
    SofarStep(start, have, blocks, w);
    LocatorLength(start.nHeight, |have| + 1);
  }

  lemma NextDown(tip: Block, w: Block)
    requires tip.Linked() && w.Linked() && w.nHeight <= tip.nHeight && w == Ancestor(tip, w.nHeight) && w.pprev != null
    ensures w.pprev.Linked() && w.pprev == Ancestor(tip, w.pprev.nHeight) && w.pprev.nHeight == w.nHeight - 1
  {
    AncestorOfAncestor(tip, w.nHeight, w.nHeight - 1);
    assert Ancestor(w.pprev, w.nHeight - 1) == w.pprev;
  }

  // ----- locators -----

  function Max0(x: int): nat { if x < 0 then 0 else x }

  /** How far the entry of the given number goes back. */
  function StepAt(s: nat): nat { if s <= 11 then 1 else Pow(2, s - 11) }

  function Distance(n: nat): nat { if n == 0 then 0 else Distance(n - 1) + StepAt(n) }

  /** Steps are positive and double from the eleventh on. */
  lemma StepDoubles(s: nat)
    ensures StepAt(s) > 0 && StepAt(s + 1) == if s > 10 then StepAt(s) * 2 else StepAt(s)
  {
    if s == 11 {
      assert Pow(2, 1) == 2 * Pow(2, 0);
    } else if s > 11 {
      var e: nat := s - 11;
      assert Pow(2, e + 1) == 2 * Pow(2, e);
    }
  }

  lemma {:induction false} DistanceLarge(n: nat)
    requires n >= 11
    ensures Distance(n) == Pow(2, n - 10) + 9
  {
    if n == 11 {
      assert Distance(0) == 0 && Distance(1) == 1 && Distance(2) == 2 && Distance(3) == 3 && Distance(4) == 4 &&
             Distance(5) == 5 && Distance(6) == 6 && Distance(7) == 7 && Distance(8) == 8 && Distance(9) == 9 &&
             Distance(10) == 10;
    } else {
      DistanceLarge(n - 1);
    }
  }

  /** The hashes from the (n+1)-st entry on, each step as long as its place says. */
  ghost function LocatorHashes(w: Block, n: nat): seq<nat>
    requires w.Linked()
    decreases w.nHeight
  {
    StepDoubles(n + 1);
    [w.hash] + if w.nHeight == 0 then [] else LocatorHashes(Ancestor(w, Max0(w.nHeight - StepAt(n + 1))), n + 1)
  }

  lemma HashesStep(have: seq<nat>, w: Block, next: Block)
    requires w.Linked() && w.nHeight != 0 && next == Ancestor(w, Max0(w.nHeight - StepAt(|have| + 1)))
    ensures have + LocatorHashes(w, |have|) == (have + [w.hash]) + LocatorHashes(next, |have| + 1)
  {
  }

  lemma LocatorLength(height: nat, length: nat)
    requires length >= 2 ==> Distance(length - 2) < height
    ensures length <= 12 || Pow(2, length - 12) < height
  {
    if length > 12 { DistanceLarge(length - 2); }
  }

  /** Entries so far: ancestors of the start, strictly descending, none of height 0. */
  ghost predicate Sofar(start: Block, have: seq<nat>, blocks: seq<Block>)
    requires start.Linked()
  {
    |have| == |blocks| && (|blocks| > 0 ==> blocks[0] == start) &&
    (forall i {:trigger blocks[i]} :: 0 <= i < |blocks| ==>
      have[i] == blocks[i].hash && blocks[i].nHeight <= start.nHeight &&
      blocks[i] == Ancestor(start, blocks[i].nHeight)) &&
    (forall i, j :: 0 <= i < j < |blocks| ==> blocks[j].nHeight < blocks[i].nHeight)
  }

  ghost predicate Locates(start: Block, have: seq<nat>, blocks: seq<Block>) {
    start.Linked() && Sofar(start, have, blocks) && |blocks| > 0 && blocks[|blocks| - 1].nHeight == 0 &&
    (|have| <= 12 || Pow(2, |have| - 12) < start.nHeight)
  }
}
