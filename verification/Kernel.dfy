/** The stake modifier: bits of blocks selected round by round from time-sorted candidates. */
module Kernel {
  import opened Folding
  import opened Powers
  import opened Ordering

  const MODIFIER_INTERVAL: nat := 60
  const MODIFIER_INTERVAL_RATIO: nat := 3
  const ROUNDS: nat := 64

  type Hash = nat

  /** The block index entry of a candidate. */
  datatype Block = Block(time: int, height: nat, isStake: bool, entropyBit: bool)

  /** A candidate as it is sorted: time, then hash. */
  datatype Item = Item(time: int, hash: Hash)

  /** What selection depends on: the index, the height from which hashes are used for every
      block, the previous modifier and the hash function. */
  datatype Setting = Setting(index: map<Hash, Block>, upgrade: nat, previous: nat, hash: (nat, nat) -> nat)

  /** `GetStakeModifierSelectionIntervalSection`. */
  function Section(n: nat): nat
    requires n < ROUNDS
  {
    MODIFIER_INTERVAL * 63 / (63 + (63 - n) * (MODIFIER_INTERVAL_RATIO - 1))
  }

  /** Sections grow from a third of the interval to the whole of it. */
  lemma SectionsGrow(m: nat, n: nat)
    requires m <= n < ROUNDS
    ensures 20 <= Section(m) <= Section(n) <= 60 && Section(0) == 20 && Section(63) == 60
  {
    assert MODIFIER_INTERVAL * 63 == 3780;
    var a, b := 189 - 2 * m, 189 - 2 * n;
    Antitone(3780, a, b);
    Antitone(3780, 189, a);
    Antitone(3780, b, 63);
  }

  /** The section of round n is 60 * 63 / (63 + 2 * (63 - n)), rounded down. */
  lemma SectionExact(n: nat)
    requires n < ROUNDS
    ensures Section(n) * (189 - 2 * n) <= 3780 < (Section(n) + 1) * (189 - 2 * n)
  {
    var b := 189 - 2 * n;
    assert 3780 == Section(n) * b + 3780 % b;
    DistributeRight(Section(n), 1, b);
  }

  lemma Antitone(x: int, a: int, b: int)
    requires x >= 0 && 0 < b <= a
    ensures x / a <= x / b
  {
    var q, r := x / a, x % a;
    assert x == q * a + r;
    if x / b < q {
      var p, s := x / b, x % b;
      assert x == p * b + s;
      MulMono(p + 1, q, b);
      DistributeRight(p, 1, b);
      if q >= 0 { MulMono(b, a, q); }
    }
  }

  /** The end of the selection interval in a round. */
  function StopOf(start: int, round: nat): int
    requires round < ROUNDS
  {
    (if round == 0 then start else StopOf(start, round - 1)) + Section(round)
  }

  /** The interval grows by one section each round. */
  lemma StopsGrow(start: int, round: nat)
    requires round < ROUNDS
    ensures StopOf(start, round) >= start + 20 * (round + 1)
    ensures StopOf(start, round) == (if round == 0 then start else StopOf(start, round - 1)) + Section(round)
  {
    SectionsGrow(round, round);
    if round > 0 { StopsGrow(start, round - 1); }
  }

  /** Different candidates sorted by time, with the times their index entries have. */
  ghost predicate Candidates(s: Setting, c: seq<Item>) {
    (forall i :: 0 <= i < |c| && c[i].hash in s.index ==> s.index[c[i].hash].time == c[i].time) &&
    (forall i, j :: 0 <= i < j < |c| ==> c[i].time <= c[j].time) &&
    (forall i, j :: 0 <= i < j < |c| ==> c[i].hash != c[j].hash)
  }

  /** Earlier ones first, and of the same time the smaller hash first. */
  ghost predicate InOrder(c: seq<Item>) {
    forall i, j :: 0 <= i < j < |c| ==>
      c[i].time < c[j].time || (c[i].time == c[j].time && c[i].hash < c[j].hash)
  }

  ghost predicate AllIndexed(s: Setting, c: seq<Item>) {
    forall i :: 0 <= i < |c| ==> c[i].hash in s.index
  }

  /** The lowest candidate decides which hash is used. */
  function UsesHash(s: Setting, c: seq<Item>): bool {
    |c| > 0 && c[0].hash in s.index && s.index[c[0].hash].height >= s.upgrade
  }

  /** The selection hash; staked blocks are favoured by dividing it by 2^32. */
  function SelectionHash(s: Setting, v2: bool, h: Hash, b: Block): nat {
    var proof := if v2 then h else if b.isStake then 0 else h;
    if b.isStake then s.hash(proof, s.previous) / 0x1_0000_0000 else s.hash(proof, s.previous)
  }

  function Score(s: Setting, c: seq<Item>, i: nat): nat
    requires i < |c|
  {
    if c[i].hash in s.index then SelectionHash(s, UsesHash(s, c), c[i].hash, s.index[c[i].hash]) else 0
  }

  /** Candidate i beats candidate j: smaller hash, or the same and earlier. */
  predicate Beats(s: Setting, c: seq<Item>, i: nat, j: nat)
    requires i < |c| && j < |c|
  {
    Score(s, c, i) < Score(s, c, j) || (Score(s, c, i) == Score(s, c, j) && i <= j)
  }

  ghost predicate Free(c: seq<Item>, taken: set<Hash>, i: int) {
    0 <= i < |c| && c[i].hash !in taken
  }

  /** The right choice: the best free candidate within the interval, or the first free one if there is none. */
  ghost predicate RightChoice(s: Setting, c: seq<Item>, taken: set<Hash>, stop: int, k: int) {
    Free(c, taken, k) &&
    if c[k].time <= stop then forall j :: Free(c, taken, j) && c[j].time <= stop ==> Beats(s, c, k, j)
    else forall j {:trigger Free(c, taken, j)} :: Free(c, taken, j) ==> k <= j && c[j].time > stop
  }

  /** There is only one right choice. */
  lemma ChoiceUnique(s: Setting, c: seq<Item>, taken: set<Hash>, stop: int, k: int, l: int)
    requires RightChoice(s, c, taken, stop, k) && RightChoice(s, c, taken, stop, l)
    ensures k == l
  {
    assert Free(c, taken, k) && Free(c, taken, l);
  }

  // ----- what the choice favours -----

  const SHIFT: nat := 0x1_0000_0000

  ghost predicate Staked(s: Setting, c: seq<Item>, i: int) {
    0 <= i < |c| && c[i].hash in s.index && s.index[c[i].hash].isStake
  }

  ghost predicate Mined(s: Setting, c: seq<Item>, i: int) {
    0 <= i < |c| && c[i].hash in s.index && !s.index[c[i].hash].isStake
  }

  /** The earliest candidate is at the upgrade height or above. */
  ghost predicate Upgraded(s: Setting, c: seq<Item>) {
    c != [] && c[0].hash in s.index && s.index[c[0].hash].height >= s.upgrade
  }

  /** A mined block scores the hash of its block hash and the previous modifier; a staked one the high part of
      such a hash, of its block hash from the upgrade on and of zero before it. */
  lemma Scores(s: Setting, c: seq<Item>, i: int)
    ensures Mined(s, c, i) ==> Score(s, c, i) == s.hash(c[i].hash, s.previous)
    ensures Staked(s, c, i) ==>
              var full := s.hash(if Upgraded(s, c) then c[i].hash else 0, s.previous);
              Score(s, c, i) * SHIFT <= full < Score(s, c, i) * SHIFT + SHIFT
  {
  }

  /** When hashes are below top * 2^32, staked blocks score below top. */
  lemma StakedLow(s: Setting, c: seq<Item>, i: int, top: nat)
    requires Staked(s, c, i) && forall x, y :: s.hash(x, y) < top * SHIFT
    ensures Score(s, c, i) < top
  {
    Scores(s, c, i);
  }

  /** A mined block is chosen over a free staked one within the interval only if its hash is smaller by 2^32. So
      with hashes below top * 2^32 the choice is staked, or mined with a hash below top. */
  lemma StakeFavoured(s: Setting, c: seq<Item>, taken: set<Hash>, stop: int, k: int, i: int, top: nat)
    requires RightChoice(s, c, taken, stop, k) && Free(c, taken, i) && Staked(s, c, i) && c[i].time <= stop
    ensures Mined(s, c, k) ==>
              s.hash(c[k].hash, s.previous) * SHIFT <= s.hash(if Upgraded(s, c) then c[i].hash else 0, s.previous)
    ensures Mined(s, c, k) && (forall x, y :: s.hash(x, y) < top * SHIFT) ==> s.hash(c[k].hash, s.previous) < top
  {
    assert c[k].time <= stop by { assert Free(c, taken, i); }
    assert Beats(s, c, k, i);
    Scores(s, c, k);
    Scores(s, c, i);
  }

  /** Before the upgrade staked blocks all score the same, so that the earliest free one within the interval is the
      one that can be chosen. */
  lemma EarliestStaked(s: Setting, c: seq<Item>, taken: set<Hash>, stop: int, k: int, i: int)
    requires RightChoice(s, c, taken, stop, k) && Staked(s, c, k) && c[k].time <= stop && !Upgraded(s, c)
    requires Free(c, taken, i) && Staked(s, c, i) && c[i].time <= stop
    ensures Score(s, c, i) == Score(s, c, k) && k <= i
  {
    assert Beats(s, c, k, i);
  }

  datatype Selection = NotIndexed | NothingLeft | Chosen(k: nat)

  /** Candidate `at` is the best of the free ones before i; all of these but the first are within the interval. */
  ghost predicate SoFar(s: Setting, c: seq<Item>, taken: set<Hash>, stop: int, i: nat, at: nat, first: nat)
    requires i <= |c|
  {
    at < i && Free(c, taken, at) && Free(c, taken, first) &&
    (forall j {:trigger Free(c, taken, j)} :: Free(c, taken, j) ==> first <= j) &&
    (forall j {:trigger Free(c, taken, j)} :: Free(c, taken, j) && j < i ==>
      Beats(s, c, at, j) && (j == first || c[j].time <= stop))
  }

  /** Nothing from i on is within the interval. */
  lemma Settled(s: Setting, c: seq<Item>, taken: set<Hash>, stop: int, i: nat, at: nat, first: nat)
    requires Candidates(s, c) && i <= |c| && SoFar(s, c, taken, stop, i, at, first)
    requires forall j :: i <= j < |c| ==> c[j].time > stop
    ensures RightChoice(s, c, taken, stop, at)
  {
    assert Free(c, taken, at);
    if c[at].time > stop {
      assert at == first;
    }
  }

  /** `SelectBlockFromCandidates`. */
  method SelectBlockFromCandidates(s: Setting, c: seq<Item>, taken: set<Hash>, stop: int) returns (r: Selection)
    requires Candidates(s, c)
    ensures r.NotIndexed? ==> !AllIndexed(s, c)
    ensures r.NothingLeft? ==> forall i :: !Free(c, taken, i)
    ensures r.Chosen? ==> RightChoice(s, c, taken, stop, r.k) && c[r.k].hash in s.index
  {
    var v2, firstRun, selected := false, true, false;
    var best, at := 0, 0;
    ghost var first := 0;
    var i := 0;
    while i < |c|
      invariant 0 <= i <= |c| && firstRun == (i == 0) && (i > 0 ==> v2 == UsesHash(s, c))
      invariant forall j :: 0 <= j < i ==> c[j].hash in s.index
      invariant !selected ==> forall j :: Free(c, taken, j) ==> j >= i
      invariant selected ==> SoFar(s, c, taken, stop, i, at, first) && best == Score(s, c, at)
    {
      var item := c[i];
      if item.hash !in s.index {
        return NotIndexed;
      }
      var b := s.index[item.hash];
      if selected && b.time > stop {
        Settled(s, c, taken, stop, i, at, first);
        return Chosen(at);
      }
      if firstRun {
        v2 := b.height >= s.upgrade;
        firstRun := false;
      }
      i := i + 1;
      if item.hash in taken {
        continue;
      }
      var score := SelectionHash(s, v2, item.hash, b);
      assert score == Score(s, c, i - 1) && Free(c, taken, i - 1);
      if selected && score < best {
        best, at := score, i - 1;
      } else if !selected {
        selected, best, at := true, score, i - 1;
        first := i - 1;
      }
    }
    if selected {
      Settled(s, c, taken, stop, i, at, first);
      r := Chosen(at);
    } else {
      r := NothingLeft;
    }
  }

  // ----- the rounds -----

  ghost function HashesOf(c: seq<Item>, picks: seq<nat>): (r: set<Hash>)
    requires forall i :: 0 <= i < |picks| ==> picks[i] < |c|
  {
    set i | 0 <= i < |picks| :: c[picks[i]].hash
  }

  /** Every round made the right choice, given those before it. */
  ghost predicate Picked(s: Setting, c: seq<Item>, start: int, picks: seq<nat>) {
    |picks| <= ROUNDS && (forall i :: 0 <= i < |picks| ==> picks[i] < |c|) &&
    forall r {:trigger picks[r]} :: 0 <= r < |picks| ==>
      RightChoice(s, c, HashesOf(c, picks[..r]), StopOf(start, r), picks[r])
  }

  /** A bit in place r. */
  function BitWeight(bit: bool, r: nat): nat { if bit then Pow(2, r) else 0 }

  /** The modifier: bit r is the entropy bit of the block picked in round r. */
  ghost function Modifier(s: Setting, c: seq<Item>, picks: seq<nat>): nat
    requires forall i :: 0 <= i < |picks| ==> picks[i] < |c| && c[picks[i]].hash in s.index
  {
    if picks == [] then 0 else
      var r := |picks| - 1;
      Modifier(s, c, picks[..r]) + BitWeight(s.index[c[picks[r]].hash].entropyBit, r)
  }

  /** Bit r of the modifier is the entropy bit of the block picked in round r, and there are no others. */
  lemma {:induction false} ModifierBits(s: Setting, c: seq<Item>, picks: seq<nat>, r: nat)
    requires r < |picks| && forall i :: 0 <= i < |picks| ==> picks[i] < |c| && c[picks[i]].hash in s.index
    ensures (Modifier(s, c, picks) / Pow(2, r)) % 2 == 1 <==> s.index[c[picks[r]].hash].entropyBit
    ensures Modifier(s, c, picks) < Pow(2, |picks|)
    decreases |picks|
  {
    var n := |picks| - 1;
    var low, bit := picks[..n], s.index[c[picks[n]].hash].entropyBit;
    ModifierBelow(s, c, low);
    var m, w := Modifier(s, c, low), if bit then 1 else 0;
    assert Modifier(s, c, picks) == m + w * Pow(2, n);
    if r == n {
      DivModUnique(m + w * Pow(2, n), Pow(2, n), w, m);
    } else {
      ModifierBits(s, c, low, r);
      PowAdd(2, n - 1 - r, r);
      HighBit(m, w, Pow(2, r), Pow(2, n - 1 - r), Pow(2, n));
    }
  }

  lemma {:induction false} ModifierBelow(s: Setting, c: seq<Item>, picks: seq<nat>)
    requires forall i :: 0 <= i < |picks| ==> picks[i] < |c| && c[picks[i]].hash in s.index
    ensures Modifier(s, c, picks) < Pow(2, |picks|)
    decreases |picks|
  {
    if picks != [] { ModifierBelow(s, c, picks[..|picks| - 1]); }
  }

  /** A higher bit does not show in a lower place. */
  lemma HighBit(m: nat, w: nat, p: nat, q: nat, top: nat)
    requires p > 0 && top == 2 * (q * p)
    ensures ((m + w * top) / p) % 2 == (m / p) % 2
  {
    var a, b := m / p, m % p;
    assert m == a * p + b;
    MulAssoc(w, 2 * q, p);
    MulAssoc(2, q, p);
    DistributeRight(a, w * (2 * q), p);
    DivModUnique(m + w * top, p, a + w * (2 * q), b);
    MulAssoc(w, 2, q);
    assert w * (2 * q) == 2 * (w * q);
  }

  /** So in every round: while a staked block within its interval is free, the pick is staked, or mined with a hash
      below top. */
  lemma RoundFavours(s: Setting, c: seq<Item>, start: int, picks: seq<nat>, r: nat, i: int, top: nat)
    requires Picked(s, c, start, picks) && r < |picks| && forall x, y :: s.hash(x, y) < top * SHIFT
    requires Free(c, HashesOf(c, picks[..r]), i) && Staked(s, c, i) && c[i].time <= StopOf(start, r)
    ensures Mined(s, c, picks[r]) ==> s.hash(c[picks[r]].hash, s.previous) < top
  {
    assert RightChoice(s, c, HashesOf(c, picks[..r]), StopOf(start, r), picks[r]);
    StakeFavoured(s, c, HashesOf(c, picks[..r]), StopOf(start, r), picks[r], i, top);
  }

  lemma PicksDistinct(s: Setting, c: seq<Item>, start: int, picks: seq<nat>)
    requires Picked(s, c, start, picks)
    ensures forall i, j :: 0 <= i < j < |picks| ==> picks[i] != picks[j]
  {
    forall i, j | 0 <= i < j < |picks| ensures picks[i] != picks[j] {
      assert Free(c, HashesOf(c, picks[..j]), picks[j]);
      assert picks[..j][i] == picks[i];
      assert c[picks[i]].hash in HashesOf(c, picks[..j]);
    }
  }

  /** While fewer rounds than candidates have passed, one is free. */
  lemma {:induction false} SomeFree(c: seq<Item>, picks: seq<nat>)
    requires (forall i :: 0 <= i < |picks| ==> picks[i] < |c|) && |picks| < |c|
    requires forall i, j :: 0 <= i < j < |c| ==> c[i].hash != c[j].hash
    ensures exists i :: Free(c, HashesOf(c, picks), i)
  {
    var all := IndexRange(|c|);
    var used := set i | 0 <= i < |picks| :: picks[i];
    UsedSize(picks, |picks|);
    assert |used| <= |picks|;
    assert exists i :: i in all && i !in used by {
      if forall i :: i in all ==> i in used {
        assert all <= used;
        SubsetCount(all, used);
      }
    }
    var i :| i in all && i !in used;
    assert Free(c, HashesOf(c, picks), i) by {
      if c[i].hash in HashesOf(c, picks) {
        var k :| 0 <= k < |picks| && c[picks[k]].hash == c[i].hash;
        assert picks[k] in used;
      }
    }
  }

  lemma {:induction false} IndexRange(n: nat) returns (r: set<nat>)
    ensures |r| == n && forall i :: i in r <==> 0 <= i < n
  {
    if n == 0 {
      r := {};
    } else {
      r := IndexRange(n - 1);
      r := r + {n - 1};
    }
  }

  lemma {:induction false} UsedSize(picks: seq<nat>, n: nat)
    requires n <= |picks|
    ensures |set i | 0 <= i < n :: picks[i]| <= n
  {
    if n > 0 {
      UsedSize(picks, n - 1);
      var low := set i | 0 <= i < n - 1 :: picks[i];
      assert (set i | 0 <= i < n :: picks[i]) == low + {picks[n - 1]};
    }
  }

  lemma SubsetCount(a: set<nat>, b: set<nat>)
    requires a <= b
    ensures |a| <= |b|
  {
    assert b == a + (b - a);
  }

  function Earlier(): (Item, Item) -> bool {
    (a: Item, b: Item) => a.time < b.time || (a.time == b.time && a.hash < b.hash)
  }

  /** The selection loop of `ComputeNextStakeModifier`: sorted candidates, min(64, n) rounds, each
      with the right choice and a different block; it fails only when a candidate is not indexed. */
  method ComputeModifier(s: Setting, found: seq<Item>, start: int)
    returns (ok: bool, modifier: nat, ghost c: seq<Item>, ghost picks: seq<nat>)
    requires forall i :: 0 <= i < |found| && found[i].hash in s.index ==> s.index[found[i].hash].time == found[i].time
    requires forall i, j :: 0 <= i < j < |found| ==> found[i].hash != found[j].hash
    ensures multiset(c) == multiset(found) && Candidates(s, c) && InOrder(c)
    ensures AllIndexed(s, c) ==> ok
    ensures ok ==> |picks| == (if |found| < ROUNDS then |found| else ROUNDS) && Done(s, c, start, picks, modifier)
  {
    var sorted := Sort(found, Earlier());
    SortedCandidates(s, found, sorted);
    c := sorted;
    ghost var taken;
    ok, modifier, picks, taken := RunRounds(s, sorted, start);
    if ok { RoundsOver(s, c, start, picks, modifier, taken); }
  }

  /** After some rounds: the picks and the modifier they give. */
  ghost predicate Done(s: Setting, c: seq<Item>, start: int, picks: seq<nat>, modifier: nat) {
    Picked(s, c, start, picks) && (forall i :: 0 <= i < |picks| ==> c[picks[i]].hash in s.index) &&
    modifier == Modifier(s, c, picks)
  }

  /** The same with the hashes taken, kept folded. */
  ghost predicate Rounds(s: Setting, c: seq<Item>, start: int, picks: seq<nat>, modifier: nat, taken: set<Hash>) {
    forall z {:trigger Inside(z)} :: Inside(z) ==> Done(s, c, start, picks, modifier) && taken == HashesOf(c, picks)
  }

  lemma FreeLeft(s: Setting, c: seq<Item>, start: int, picks: seq<nat>, modifier: nat, taken: set<Hash>)
    requires Rounds(s, c, start, picks, modifier, taken) && |picks| < |c| && Given(s, c)
    ensures exists i :: Free(c, taken, i)
  {
    assert Inside(0);
    SomeFree(c, picks);
  }

  /** `Candidates`, kept folded. */
  ghost predicate Given(s: Setting, c: seq<Item>) {
    forall z {:trigger Inside(z)} :: Inside(z) ==> Candidates(s, c)
  }

  /** So many rounds are done, and the selection interval ended there; kept folded. */
  ghost predicate Reached(s: Setting, c: seq<Item>, start: int, round: nat, picks: seq<nat>, modifier: nat,
                          taken: set<Hash>, stop: int) {
    forall z {:trigger Inside(z)} :: Inside(z) ==>
      |picks| == round <= ROUNDS && Rounds(s, c, start, picks, modifier, taken) &&
      stop == if round == 0 then start else StopOf(start, round - 1)
  }

  method RunRounds(s: Setting, c: seq<Item>, start: int)
    returns (ok: bool, modifier: nat, ghost picks: seq<nat>, ghost chosen: set<Hash>)
    requires Given(s, c)
    ensures AllIndexed(s, c) ==> ok
    ensures ok ==> |picks| == (if |c| < ROUNDS then |c| else ROUNDS) && Rounds(s, c, start, picks, modifier, chosen)
  {
    picks, chosen := [], {};
    modifier := 0;
    var stop := start;
    var taken: set<Hash> := {};
    var rounds := if |c| < 64 then |c| else 64;
    RoundsStart(s, c, start);
    for round := 0 to rounds
      invariant Reached(s, c, start, round, picks, modifier, taken, stop)
    {
      ok, modifier, taken, stop, picks := RunRound(s, c, start, round, picks, modifier, taken, stop, round + 1);
      if !ok {
        return false, 0, picks, taken;
      }
    }
    ok, chosen := true, taken;
    RoundsReached(s, c, start, rounds, picks, modifier, taken, stop);
  }

  /** One round; a candidate is always left. */
  method RunRound(s: Setting, c: seq<Item>, ghost start: int, round: nat, ghost before: seq<nat>, sofar: nat,
                  chosen: set<Hash>, last: int, ghost next: nat)
    returns (good: bool, modifier: nat, taken: set<Hash>, stop: int, ghost picks: seq<nat>)
    requires Given(s, c) && Reached(s, c, start, round, before, sofar, chosen, last)
    requires round < ROUNDS && round < |c| && next == round + 1
    ensures AllIndexed(s, c) ==> good
    ensures good ==> Reached(s, c, start, next, picks, modifier, taken, stop)
  {
    stop := last + Section(round);
    RoundsReached(s, c, start, round, before, sofar, chosen, last);
    assert stop == StopOf(start, round) by { assert Inside(0); }
    var sel := Select(s, c, chosen, stop);
    assert !sel.NothingLeft? by { FreeLeft(s, c, start, before, sofar, chosen); }
    if !sel.Chosen? {
      return false, 0, {}, stop, [];
    }
    var h := c[sel.k].hash;
    modifier := sofar + BitWeight(s.index[h].entropyBit, round);
    taken := chosen + {h};
    picks := before + [sel.k];
    RoundDone(s, c, start, before, sofar, chosen, sel.k);
    good := true;
  }

  method Select(s: Setting, c: seq<Item>, taken: set<Hash>, stop: int) returns (r: Selection)
    requires Given(s, c)
    ensures r.NotIndexed? ==> !AllIndexed(s, c)
    ensures r.NothingLeft? ==> forall i :: !Free(c, taken, i)
    ensures r.Chosen? ==> RightChoice(s, c, taken, stop, r.k) && r.k < |c| && c[r.k].hash in s.index
  {
    assert Inside(0);
    r := SelectBlockFromCandidates(s, c, taken, stop);
  }

  lemma RoundsStart(s: Setting, c: seq<Item>, start: int)
    ensures Reached(s, c, start, 0, [], 0, {}, start)
  {
  }

  lemma RoundsReached(s: Setting, c: seq<Item>, start: int, round: nat, picks: seq<nat>, modifier: nat,
                      taken: set<Hash>, stop: int)
    requires Reached(s, c, start, round, picks, modifier, taken, stop)
    ensures |picks| == round && Rounds(s, c, start, picks, modifier, taken)
  {
    assert Inside(0);
  }

  lemma RoundsOver(s: Setting, c: seq<Item>, start: int, picks: seq<nat>, modifier: nat, taken: set<Hash>)
    requires Rounds(s, c, start, picks, modifier, taken)
    ensures Done(s, c, start, picks, modifier)
  {
    assert Inside(0);
  }

  lemma RoundDone(s: Setting, c: seq<Item>, start: int, picks: seq<nat>, modifier: nat, taken: set<Hash>, k: nat)
    requires Rounds(s, c, start, picks, modifier, taken) && |picks| < ROUNDS && k < |c| && c[k].hash in s.index
    requires RightChoice(s, c, taken, StopOf(start, |picks|), k)
    ensures Rounds(s, c, start, picks + [k], modifier + BitWeight(s.index[c[k].hash].entropyBit, |picks|),
                   taken + {c[k].hash})
  {
    assert Inside(0);
    PickMore(s, c, start, picks, k);
    ModifierMore(s, c, picks, k);
  }

  lemma ModifierMore(s: Setting, c: seq<Item>, picks: seq<nat>, k: nat)
    requires (forall i :: 0 <= i < |picks| ==> picks[i] < |c| && c[picks[i]].hash in s.index) && k < |c| &&
             c[k].hash in s.index
    ensures forall i :: 0 <= i < |picks + [k]| ==> (picks + [k])[i] < |c| && c[(picks + [k])[i]].hash in s.index
    ensures Modifier(s, c, picks + [k]) == Modifier(s, c, picks) + BitWeight(s.index[c[k].hash].entropyBit, |picks|)
  {
    assert (picks + [k])[..|picks|] == picks;
  }

  lemma PickMore(s: Setting, c: seq<Item>, start: int, picks: seq<nat>, k: nat)
    requires Picked(s, c, start, picks) && |picks| < ROUNDS && k < |c|
    requires RightChoice(s, c, HashesOf(c, picks), StopOf(start, |picks|), k)
    ensures Picked(s, c, start, picks + [k]) && HashesOf(c, picks + [k]) == HashesOf(c, picks) + {c[k].hash}
  {
    var more := picks + [k];
    forall r | 0 <= r < |more| ensures RightChoice(s, c, HashesOf(c, more[..r]), StopOf(start, r), more[r]) {
      if r < |picks| { assert more[..r] == picks[..r]; } else { assert more[..r] == picks; }
    }
    forall h ensures h in HashesOf(c, more) <==> h in HashesOf(c, picks) || h == c[k].hash {
      if h in HashesOf(c, picks) {
        var i :| 0 <= i < |picks| && c[picks[i]].hash == h;
        assert c[more[i]].hash == h;
      }
      assert c[more[|picks|]].hash == c[k].hash;
    }
  }

  lemma SortedCandidates(s: Setting, found: seq<Item>, sorted: seq<Item>)
    requires forall i :: 0 <= i < |found| && found[i].hash in s.index ==> s.index[found[i].hash].time == found[i].time
    requires forall i, j :: 0 <= i < j < |found| ==> found[i].hash != found[j].hash
    requires multiset(sorted) == multiset(found) && Sorted(sorted, Earlier())
    ensures Candidates(s, sorted) && InOrder(sorted) && |sorted| == |found|
  {
    assert |sorted| == |multiset(sorted)| == |multiset(found)| == |found|;
    DifferentKept(found, sorted);
    forall i | 0 <= i < |sorted| ensures exists a :: 0 <= a < |found| && found[a] == sorted[i] {
      assert sorted[i] in multiset(found);
    }
    forall i, j | 0 <= i < j < |sorted|
      ensures sorted[i].hash != sorted[j].hash && sorted[i].time <= sorted[j].time
      ensures sorted[i].time == sorted[j].time ==> sorted[i].hash < sorted[j].hash
    {
      var a :| 0 <= a < |found| && found[a] == sorted[i];
      var b :| 0 <= b < |found| && found[b] == sorted[j];
      assert a != b && !Earlier()(sorted[j], sorted[i]);
    }
  }
}
