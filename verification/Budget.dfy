/** Sorting by a comparison: any algorithm, one result when no two elements tie. */
module Ordering {

  /** A strict weak order, as sorting requires. */
  ghost predicate WeakOrder<T(!new)>(less: (T, T) -> bool) {
    (forall a :: !less(a, a)) &&
    (forall a, b, c :: less(a, b) && less(b, c) ==> less(a, c)) &&
    (forall a, b, c :: !less(a, b) && !less(b, c) ==> !less(a, c))
  }

  ghost predicate Sorted<T(!new)>(s: seq<T>, less: (T, T) -> bool) {
    forall i, j :: 0 <= i < j < |s| ==> !less(s[j], s[i])
  }

  /** No two different elements tie. */
  ghost predicate NoTies<T(!new)>(s: seq<T>, less: (T, T) -> bool) {
    (forall i, j :: 0 <= i < j < |s| ==> s[i] != s[j]) &&
    (forall i, j :: 0 <= i < |s| && 0 <= j < |s| && s[i] != s[j] ==> less(s[i], s[j]) || less(s[j], s[i]))
  }

  /** Insertion into a sorted sequence, after everything not greater. */
  method Insert<T(!new)>(s: seq<T>, x: T, less: (T, T) -> bool) returns (r: seq<T>)
    requires WeakOrder(less) && Sorted(s, less)
    ensures Sorted(r, less) && multiset(r) == multiset(s) + multiset{x}
  {
    var i := |s|;
    while i > 0 && less(x, s[i - 1])
      invariant 0 <= i <= |s| && forall k :: i <= k < |s| ==> less(x, s[k])
    {
      i := i - 1;
    }
    r := s[..i] + [x] + s[i..];
    assert s == s[..i] + s[i..];
    forall k | 0 <= k < i ensures !less(x, s[k]) {
      if k < i - 1 { assert !less(s[i - 1], s[k]); }
    }
    forall a, b | 0 <= a < b < |r| ensures !less(r[b], r[a]) {
      InsertOrdered(s, x, less, i, a, b);
    }
  }

  lemma InsertOrdered<T(!new)>(s: seq<T>, x: T, less: (T, T) -> bool, i: nat, a: nat, b: nat)
    requires WeakOrder(less) && Sorted(s, less) && i <= |s| && a < b <= |s|
    requires forall k :: i <= k < |s| ==> less(x, s[k])
    requires forall k :: 0 <= k < i ==> !less(x, s[k])
    ensures var r := s[..i] + [x] + s[i..]; !less(r[b], r[a])
  {
    if a == i {
      assert less(x, s[b - 1]) && (less(s[b - 1], x) ==> less(x, x));
    }
  }

  /** Stands for `std::sort`. */
  method Sort<T(!new)>(s: seq<T>, less: (T, T) -> bool) returns (r: seq<T>)
    requires WeakOrder(less)
    ensures Sorted(r, less) && multiset(r) == multiset(s)
  {
    r := [];
    for n := 0 to |s|
      invariant Sorted(r, less) && multiset(r) == multiset(s[..n])
    {
      assert s[..n + 1] == s[..n] + [s[n]];
      r := Insert(r, s[n], less);
    }
    assert s[..|s|] == s;
  }

  /** Without ties there is only one sorted arrangement. */
  lemma {:induction false} SortedUnique<T(!new)>(s: seq<T>, t: seq<T>, less: (T, T) -> bool)
    requires WeakOrder(less) && Sorted(s, less) && Sorted(t, less) && NoTies(s, less) && multiset(s) == multiset(t)
    ensures s == t
  {
    assert |s| == |multiset(s)| == |multiset(t)| == |t|;
    if s != [] {
      FirstUnique(s, t, less);
      SortedTail(s, less);
      SortedTail(t, less);
      SortedUnique(s[1..], t[1..], less);
      assert s == [s[0]] + s[1..] && t == [t[0]] + t[1..];
    }
  }

  lemma FirstUnique<T(!new)>(s: seq<T>, t: seq<T>, less: (T, T) -> bool)
    requires WeakOrder(less) && Sorted(s, less) && Sorted(t, less) && NoTies(s, less)
    requires multiset(s) == multiset(t) && |s| == |t| > 0
    ensures s[0] == t[0]
  {
    assert t[0] in multiset(t) && s[0] in multiset(s);
    var i :| 0 <= i < |s| && s[i] == t[0];
    var j :| 0 <= j < |t| && t[j] == s[0];
    assert !less(s[i], s[0]);
    assert !less(t[j], t[0]);
  }

  lemma SortedTail<T(!new)>(s: seq<T>, less: (T, T) -> bool)
    requires Sorted(s, less) && s != []
    ensures Sorted(s[1..], less) && (NoTies(s, less) ==> NoTies(s[1..], less))
    ensures multiset(s[1..]) == multiset(s) - multiset{s[0]}
  {
    assert s == [s[0]] + s[1..];
  }

  ghost predicate Different<T(!new)>(s: seq<T>) {
    forall i, j :: 0 <= i < j < |s| ==> s[i] != s[j]
  }

  lemma Once<T(!new)>(s: seq<T>, a: nat)
    requires Different(s) && a < |s|
    ensures multiset(s)[s[a]] == 1
  {
    assert s == s[..a] + [s[a]] + s[a + 1..];
    assert s[a] !in s[..a] && s[a] !in s[a + 1..];
  }

  /** Sequences without repetitions and with the same elements are rearrangements of each other. */
  lemma SameElements<T(!new)>(r: seq<T>, s: seq<T>)
    requires Different(r) && Different(s) && forall x :: x in r <==> x in s
    ensures multiset(r) == multiset(s)
  {
    forall x ensures multiset(r)[x] == multiset(s)[x] {
      if x in r {
        var a :| 0 <= a < |r| && r[a] == x;
        Once(r, a);
        assert x in s;
        var b :| 0 <= b < |s| && s[b] == x;
        Once(s, b);
      } else {
        assert x !in s;
        assert x !in multiset(r) && x !in multiset(s);
      }
    }
  }

  lemma Twice<T(!new)>(t: seq<T>, i: nat, j: nat)
    requires i < j < |t|
    ensures t[i] == t[j] ==> multiset(t)[t[i]] >= 2
  {
    assert t == t[..j] + t[j..];
    assert t[i] in t[..j] && t[j] in t[j..];
  }

  /** Rearranging makes no repetitions. */
  lemma DifferentKept<T(!new)>(s: seq<T>, t: seq<T>)
    requires Different(s) && multiset(t) == multiset(s)
    ensures Different(t)
  {
    forall i, j | 0 <= i < j < |t| ensures t[i] != t[j] {
      assert t[i] in multiset(s);
      var a :| 0 <= a < |s| && s[a] == t[i];
      Twice(t, i, j);
      Once(s, a);
    }
  }
}

/** Choosing the proposals a budget pays for, and agreeing on them. */
module Budget {
  import opened Ordering

  type Hash = nat
  type Payee = nat

  /** A proposal with its vote totals and whether it is old enough. */
  datatype Proposal = Proposal(hash: Hash, payee: Payee, amount: int, blockStart: int, blockEnd: int,
                               yeas: int, nays: int, valid: bool, established: bool, feeHash: Hash)

  /** The period, the number of masternodes and the sum that may be paid out. */
  datatype Cycle = Cycle(start: int, end: int, masternodes: nat, total: int)

  datatype Payment = Payment(proposal: Hash, payee: Payee, amount: int)

  /** More votes first, then the greater fee transaction hash. */
  function Better(): (Proposal, Proposal) -> bool {
    (p: Proposal, q: Proposal) =>
      if p.yeas - p.nays != q.yeas - q.nays then p.yeas - p.nays > q.yeas - q.nays else p.feeHash > q.feeHash
  }

  lemma BetterIsOrder()
    ensures WeakOrder(Better())
  {
  }

  /** `IsPassing`. */
  predicate IsPassing(p: Proposal, c: Cycle) {
    p.valid && p.blockStart <= c.start && p.blockEnd >= c.end && p.yeas - p.nays > c.masternodes / 10 && p.established
  }

  function Sum(ps: seq<Proposal>): int {
    if ps == [] then 0 else Sum(ps[..|ps| - 1]) + ps[|ps| - 1].amount
  }

  /** The proposals paid for among the first n of a ranking. */
  function Paid(rank: seq<Proposal>, c: Cycle, n: nat): seq<Proposal>
    requires n <= |rank|
  {
    if n == 0 then [] else
      var before := Paid(rank, c, n - 1);
      if Fits(rank, c, n - 1, before) then before + [rank[n - 1]] else before
  }

  predicate Fits(rank: seq<Proposal>, c: Cycle, k: nat, before: seq<Proposal>)
    requires k < |rank|
  {
    IsPassing(rank[k], c) && rank[k].amount + Sum(before) <= c.total
  }

  ghost predicate Distinct(ps: seq<Proposal>) {
    forall i, j :: 0 <= i < j < |ps| ==> ps[i].hash != ps[j].hash
  }

  // ----- what is paid -----

  /** The total stays within the budget. */
  lemma {:induction false} PaidWithin(rank: seq<Proposal>, c: Cycle, n: nat)
    requires n <= |rank|
    ensures Paid(rank, c, n) == [] || Sum(Paid(rank, c, n)) <= c.total
  {
    if n > 0 {
      PaidWithin(rank, c, n - 1);
      var before := Paid(rank, c, n - 1);
      assert (before + [rank[n - 1]])[..|before|] == before;
    }
  }

  /** What is paid keeps the order of the ranking, and each paid proposal passes. */
  lemma {:induction false} PaidInOrder(rank: seq<Proposal>, c: Cycle, n: nat) returns (at: seq<nat>)
    requires n <= |rank|
    ensures Positions(rank, c, n, Paid(rank, c, n), at)
  {
    if n == 0 {
      at := [];
    } else {
      at := PaidInOrder(rank, c, n - 1);
      var before := Paid(rank, c, n - 1);
      if Fits(rank, c, n - 1, before) {
        PositionsMore(rank, c, n - 1, before, at, n);
        at := at + [n - 1];
      } else {
        assert Positions(rank, c, n, before, at);
      }
    }
  }

  /** Ascending positions, below n, of passing proposals in a ranking. */
  ghost predicate Positions(rank: seq<Proposal>, c: Cycle, n: nat, paid: seq<Proposal>, at: seq<nat>)
    requires n <= |rank|
  {
    |at| == |paid| &&
    (forall i {:trigger at[i]} {:trigger paid[i]} :: 0 <= i < |at| ==>
      at[i] < n && paid[i] == rank[at[i]] && IsPassing(rank[at[i]], c)) &&
    (forall i, j :: 0 <= i < j < |at| ==> at[i] < at[j])
  }

  lemma PositionsMore(rank: seq<Proposal>, c: Cycle, k: nat, paid: seq<Proposal>, at: seq<nat>, n: nat)
    requires n == k + 1 <= |rank| && Positions(rank, c, k, paid, at) && IsPassing(rank[k], c)
    ensures Positions(rank, c, n, paid + [rank[k]], at + [k])
  {
  }

  lemma {:induction false} PaidPrefix(rank: seq<Proposal>, c: Cycle, m: nat, n: nat)
    requires m <= n <= |rank|
    ensures Paid(rank, c, m) <= Paid(rank, c, n)
  {
    if m < n { PaidPrefix(rank, c, m, n - 1); }
  }

  /** A passing proposal is left out exactly when it does not fit with those paid before it. */
  lemma PaidExactly(rank: seq<Proposal>, c: Cycle, k: nat)
    requires Distinct(rank) && k < |rank|
    ensures rank[k] in Paid(rank, c, |rank|) <==>
            IsPassing(rank[k], c) && rank[k].amount + Sum(Paid(rank, c, k)) <= c.total
  {
    PaidPrefix(rank, c, k + 1, |rank|);
    PaidPrefix(rank, c, k, |rank|);
    if Fits(rank, c, k, Paid(rank, c, k)) {
      assert Paid(rank, c, k + 1)[|Paid(rank, c, k)|] == rank[k];
    } else {
      PaidOnlyFits(rank, c, |rank|, k);
    }
  }

  lemma {:induction false} PaidOnlyFits(rank: seq<Proposal>, c: Cycle, n: nat, k: nat)
    requires Distinct(rank) && k < |rank| && n <= |rank| && !Fits(rank, c, k, Paid(rank, c, k))
    ensures rank[k] !in Paid(rank, c, n)
  {
    if n > 0 {
      PaidOnlyFits(rank, c, n - 1, k);
      if n - 1 != k { assert rank[n - 1].hash != rank[k].hash; }
    }
  }

  // ----- the manager -----

  /** A ranking of the proposals in a map. */
  ghost predicate Ranks(m: map<Hash, Proposal>, rank: seq<Proposal>) {
    Sorted(rank, Better()) && Distinct(rank) &&
    (forall i :: 0 <= i < |rank| ==> rank[i].hash in m && m[rank[i].hash] == rank[i]) &&
    (forall h :: h in m ==> m[h] in rank)
  }

  ghost predicate KeyedByHash(m: map<Hash, Proposal>) {
    forall h :: h in m ==> m[h].hash == h
  }

  /** `CBudgetManager`, as far as budgets go; allotments are kept beside the proposals. */
  class Manager {
    var mapProposals: map<Hash, Proposal>
    var allotted: map<Hash, int>

    constructor (proposals: map<Hash, Proposal>)
      ensures mapProposals == proposals && allotted == map[]
    {
      mapProposals, allotted := proposals, map[];
    }

    method ListProposals() returns (list: seq<Proposal>)
      requires KeyedByHash(mapProposals)
      ensures Distinct(list) && forall p :: p in list <==> p.hash in mapProposals && mapProposals[p.hash] == p
    {
      list := [];
      var rest := mapProposals.Keys;
      while rest != {}
        invariant rest <= mapProposals.Keys && Distinct(list)
        invariant forall p :: p in list <==> p.hash in mapProposals && mapProposals[p.hash] == p && p.hash !in rest
        decreases |rest|
      {
        var h :| h in rest;
        assert mapProposals[h] !in list;
        forall i | 0 <= i < |list| ensures list[i].hash != h { assert list[i] in list; }
        list := list + [mapProposals[h]];
        rest := rest - {h};
      }
    }

    /** `GetBudget`: proposals in rank order are allotted their full amount while it fits. */
    method GetBudget(c: Cycle) returns (paid: seq<Proposal>, ghost rank: seq<Proposal>)
      requires KeyedByHash(mapProposals)
      modifies `allotted
      ensures Ranks(mapProposals, rank) && paid == Paid(rank, c, |rank|)
      ensures allotted == Allot(rank, c, |rank|, old(allotted))
    {
      var list := ListProposals();
      BetterIsOrder();
      var sorted := Sort(list, Better());
      rank := sorted;
      RankOf(mapProposals, list, sorted);
      paid := Allocate(sorted, c);
    }

    /** The second half of `GetBudget`. */
    method Allocate(sorted: seq<Proposal>, c: Cycle) returns (paid: seq<Proposal>)
      modifies `allotted
      ensures paid == Paid(sorted, c, |sorted|) && allotted == Allot(sorted, c, |sorted|, old(allotted))
    {
      paid := [];
      var spent := 0;
      for n := 0 to |sorted|
        invariant paid == Paid(sorted, c, n) && spent == Sum(paid) && allotted == Allot(sorted, c, n, old(allotted))
      {
        var p := sorted[n];
        if IsPassing(p, c) {
          if p.amount + spent <= c.total {
            allotted := allotted[p.hash := p.amount];
            spent := spent + p.amount;
            assert (paid + [p])[..|paid|] == paid;
            paid := paid + [p];
          } else {
            allotted := allotted[p.hash := 0];
          }
        }
      }
    }
  }

  /** Allotments after the first n of a ranking; proposals that do not pass keep what they had. */
  function Allot(rank: seq<Proposal>, c: Cycle, n: nat, m: map<Hash, int>): map<Hash, int>
    requires n <= |rank|
  {
    if n == 0 then m else
      var before := Allot(rank, c, n - 1, m);
      var p := rank[n - 1];
      if !IsPassing(p, c) then before
      else before[p.hash := if Fits(rank, c, n - 1, Paid(rank, c, n - 1)) then p.amount else 0]
  }

  /** A passing proposal is allotted its amount if it is paid and nothing otherwise. */
  lemma {:induction false} AllotExactly(rank: seq<Proposal>, c: Cycle, n: nat, m: map<Hash, int>, k: nat)
    requires Distinct(rank) && k < n <= |rank|
    ensures IsPassing(rank[k], c) ==>
              rank[k].hash in Allot(rank, c, n, m) &&
              Allot(rank, c, n, m)[rank[k].hash] == if rank[k] in Paid(rank, c, |rank|) then rank[k].amount else 0
  {
    if k < n - 1 {
      AllotExactly(rank, c, n - 1, m, k);
      assert rank[k].hash != rank[n - 1].hash;
    } else {
      PaidExactly(rank, c, k);
    }
  }

  lemma RankOf(m: map<Hash, Proposal>, list: seq<Proposal>, sorted: seq<Proposal>)
    requires KeyedByHash(m) && Distinct(list) && multiset(sorted) == multiset(list) && Sorted(sorted, Better())
    requires forall p :: p in list <==> p.hash in m && m[p.hash] == p
    ensures Ranks(m, sorted)
  {
    forall p ensures p in sorted <==> p in list { assert p in multiset(sorted) <==> p in multiset(list); }
    DistinctKept(list, sorted);
    forall h | h in m ensures m[h] in sorted { assert m[h] in list; }
  }

  /** Rearranging keeps hashes distinct. */
  lemma DistinctKept(s: seq<Proposal>, t: seq<Proposal>)
    requires Distinct(s) && multiset(t) == multiset(s)
    ensures Distinct(t)
  {
    DifferentKept(s, t);
    forall i, j | 0 <= i < j < |t| ensures t[i].hash != t[j].hash {
      assert t[i] in multiset(s) && t[j] in multiset(s);
      var a :| 0 <= a < |s| && s[a] == t[i];
      var b :| 0 <= b < |s| && s[b] == t[j];
      assert a != b;
    }
  }

  // ----- agreement between nodes -----

  /** Nobody has the same votes and the same fee transaction as another. */
  ghost predicate NoVoteTies(m: map<Hash, Proposal>) {
    forall g, h :: g in m && h in m && g != h ==> Better()(m[g], m[h]) || Better()(m[h], m[g])
  }

  /** Without ties the ranking, and so the budget, does not depend on how it was sorted. */
  lemma RankingUnique(m: map<Hash, Proposal>, r: seq<Proposal>, s: seq<Proposal>)
    requires KeyedByHash(m) && NoVoteTies(m) && Ranks(m, r) && Ranks(m, s)
    ensures r == s
  {
    BetterIsOrder();
    SameElements(r, s);
    forall i, j | 0 <= i < |r| && 0 <= j < |r| && r[i] != r[j] ensures Better()(r[i], r[j]) || Better()(r[j], r[i]) {
      assert m[r[i].hash] == r[i] && m[r[j].hash] == r[j];
    }
    SortedUnique(r, s, Better());
  }

  /** Two tied proposals of a ranking can change places. */
  lemma TieSwap(m: map<Hash, Proposal>, r: seq<Proposal>, i: nat, j: nat) returns (s: seq<Proposal>)
    requires Ranks(m, r) && i < j < |r| && !Better()(r[i], r[j])
    ensures Ranks(m, s) && s != r && s == r[i := r[j]][j := r[i]]
  {
    s := r[i := r[j]][j := r[i]];
    assert r[i].hash != r[j].hash && s[i] != r[i];
    SwapSorted(r, i, j, s);
    assert Distinct(s) by { SwapDistinct(r, i, j, s); }
    forall h | h in m ensures m[h] in s {
      assert m[h] in r;
      SwapMembers(r, i, j, s, m[h]);
    }
  }

  lemma SwapSorted(r: seq<Proposal>, i: nat, j: nat, s: seq<Proposal>)
    requires Sorted(r, Better()) && i < j < |r| && !Better()(r[i], r[j]) && s == r[i := r[j]][j := r[i]]
    ensures Sorted(s, Better())
  {
    BetterIsOrder();
    var less := Better();
    forall a, b | 0 <= a < b < |s| ensures !less(s[b], s[a]) {
      SwapOrdered(r, less, i, j, a, b);
    }
  }

  lemma SwapDistinct(r: seq<Proposal>, i: nat, j: nat, s: seq<Proposal>)
    requires Distinct(r) && i < j < |r| && s == r[i := r[j]][j := r[i]]
    ensures Distinct(s)
  {
    forall a, b | 0 <= a < b < |s| ensures s[a].hash != s[b].hash {
      var x, y := Swapped(i, j, a), Swapped(i, j, b);
      assert s[a] == r[x] && s[b] == r[y] && x != y;
      assert x < y ==> r[x].hash != r[y].hash;
      assert y < x ==> r[y].hash != r[x].hash;
    }
  }

  lemma SwapMembers(r: seq<Proposal>, i: nat, j: nat, s: seq<Proposal>, p: Proposal)
    requires i < j < |r| && s == r[i := r[j]][j := r[i]] && p in r
    ensures p in s
  {
    var k :| 0 <= k < |r| && r[k] == p;
    assert s[Swapped(i, j, k)] == p;
  }

  function Swapped(i: nat, j: nat, k: nat): nat { if k == i then j else if k == j then i else k }

  lemma SwapOrdered(r: seq<Proposal>, less: (Proposal, Proposal) -> bool, i: nat, j: nat, a: nat, b: nat)
    requires WeakOrder(less) && Sorted(r, less) && i < j < |r| && !less(r[i], r[j]) && a < b < |r|
    ensures var s := r[i := r[j]][j := r[i]]; !less(s[b], s[a])
  {
    var s := r[i := r[j]][j := r[i]];
    assert !less(r[j], r[i]);
    if a == i && b == j {
    } else if a == i && b < j {
      assert !less(r[b], r[i]) && !less(r[i], r[j]);
    } else if a == i {
      assert !less(r[b], r[j]);
    } else if a == j {
      assert !less(r[b], r[j]) && !less(r[j], r[i]);
    } else if b == i {
      assert !less(r[j], r[i]) && !less(r[i], r[a]);
    } else if b == j && a < i {
      assert !less(r[i], r[a]);
    } else if b == j {
      assert !less(r[i], r[j]) && !less(r[j], r[a]);
    }
  }

  /** The ranking is determined exactly when nobody ties. */
  lemma RankingUniqueIff(m: map<Hash, Proposal>, r: seq<Proposal>)
    requires KeyedByHash(m) && Ranks(m, r)
    ensures (forall s :: Ranks(m, s) ==> s == r) <==> NoVoteTies(m)
  {
    if NoVoteTies(m) {
      forall s | Ranks(m, s) ensures s == r { RankingUnique(m, s, r); }
    } else {
      var g, h :| g in m && h in m && g != h && !Better()(m[g], m[h]) && !Better()(m[h], m[g]);
      assert m[g] in r && m[h] in r;
      var i :| 0 <= i < |r| && r[i] == m[g];
      var j :| 0 <= j < |r| && r[j] == m[h];
      var s := TieSwap(m, r, if i < j then i else j, if i < j then j else i);
    }
  }

  const COIN: int := 100_000_000

  /** With a tie two rankings of the same proposals can pay for different ones: two proposals of 5000 coins in a
      cycle of the test network, where 7300 may be paid out. */
  lemma TiesMatter()
    ensures var p := Proposal(1, 1, 5000 * COIN, 1440, 1583, 5, 0, true, true, 3);
            var q := Proposal(2, 2, 5000 * COIN, 1440, 1583, 5, 0, true, true, 3);
            var m := map[1 := p, 2 := q];
            var c := Cycle(1440, 1583, 40, 7300 * COIN);
            Ranks(m, [p, q]) && Ranks(m, [q, p]) && multiset(Paid([p, q], c, 2)) != multiset(Paid([q, p], c, 2))
  {
    var p := Proposal(1, 1, 5000 * COIN, 1440, 1583, 5, 0, true, true, 3);
    var q := Proposal(2, 2, 5000 * COIN, 1440, 1583, 5, 0, true, true, 3);
    var c := Cycle(1440, 1583, 40, 7300 * COIN);
    OnlyFirst(p, q, c);
    OnlyFirst(q, p, c);
    assert p in [p, q] && q in [p, q] && p in [q, p] && q in [q, p];
    assert Sorted([p, q], Better()) && Sorted([q, p], Better());
    assert p in multiset([p]) && p !in multiset([q]);
  }

  /** The first of two passing proposals leaves no room for the second. */
  lemma OnlyFirst(p: Proposal, q: Proposal, c: Cycle)
    requires IsPassing(p, c) && p.amount <= c.total < p.amount + q.amount
    ensures Paid([p, q], c, 2) == [p]
  {
    assert Paid([p, q], c, 0) == [] && Sum([]) == 0;
    assert Paid([p, q], c, 1) == [p];
    assert [p][..0] == [] && Sum([p]) == p.amount;
  }

  // ----- what the votes decide -----

  function Net(p: Proposal): int { p.yeas - p.nays }

  /** More votes rank first, and on equal votes the greater fee transaction hash. */
  lemma RankedByVotes(m: map<Hash, Proposal>, rank: seq<Proposal>, i: nat, j: nat)
    requires Ranks(m, rank) && i < j < |rank|
    ensures Net(rank[i]) >= Net(rank[j])
    ensures Net(rank[i]) == Net(rank[j]) ==> rank[i].feeHash >= rank[j].feeHash
  {
    assert !Better()(rank[j], rank[i]);
  }

  /** A proposal is paid exactly when it is valid and established, covers the cycle, has more net votes than a tenth
      of the masternodes, and fits with those paid before it, all of which have at least as many votes. */
  lemma PaidMeans(m: map<Hash, Proposal>, rank: seq<Proposal>, c: Cycle, k: nat)
    requires Ranks(m, rank) && k < |rank|
    ensures var p := rank[k];
            p in Paid(rank, c, |rank|) <==>
            p.valid && p.established && p.blockStart <= c.start && c.end <= p.blockEnd &&
            Net(p) > c.masternodes / 10 && Sum(Paid(rank, c, k)) + p.amount <= c.total
    ensures forall q :: q in Paid(rank, c, k) ==> q in Paid(rank, c, |rank|) && Net(q) >= Net(rank[k])
  {
    PaidExactly(rank, c, k);
    PaidPrefix(rank, c, k, |rank|);
    var at := PaidInOrder(rank, c, k);
    var paid := Paid(rank, c, k);
    forall q | q in paid ensures q in Paid(rank, c, |rank|) && Net(q) >= Net(rank[k]) {
      var i :| 0 <= i < |paid| && paid[i] == q;
      assert paid[i] == rank[at[i]] && Paid(rank, c, |rank|)[i] == q;
      RankedByVotes(m, rank, at[i], k);
    }
  }

  /** Those with at least so many net votes. */
  function AtLeast(ps: seq<Proposal>, votes: int): seq<Proposal> {
    if ps == [] then [] else
      var p := ps[|ps| - 1];
      AtLeast(ps[..|ps| - 1], votes) + if Net(p) >= votes then [p] else []
  }

  /** A passing proposal that is left out does not fit together with the paid ones of at least as many votes. */
  lemma LeftOut(m: map<Hash, Proposal>, rank: seq<Proposal>, c: Cycle, k: nat)
    requires Ranks(m, rank) && k < |rank| && IsPassing(rank[k], c) && rank[k] !in Paid(rank, c, |rank|)
    requires forall i :: 0 <= i < |rank| && IsPassing(rank[i], c) ==> rank[i].amount >= 0
    ensures Sum(AtLeast(Paid(rank, c, |rank|), Net(rank[k]))) + rank[k].amount > c.total
  {
    PaidMeans(m, rank, c, k);
    PaidPrefix(rank, c, k, |rank|);
    var before, all := Paid(rank, c, k), Paid(rank, c, |rank|);
    var at := PaidInOrder(rank, c, |rank|);
    forall i | 0 <= i < |all| ensures all[i].amount >= 0 { assert all[i] == rank[at[i]]; }
    AtLeastSum(all, |before|, Net(rank[k]));
    assert all[..|before|] == before;
  }

  /** With no negative amounts, a beginning all of which qualifies is worth no more than all that qualify. */
  lemma {:induction false} AtLeastSum(ps: seq<Proposal>, n: nat, votes: int)
    requires n <= |ps| && (forall i :: 0 <= i < |ps| ==> ps[i].amount >= 0)
    requires forall i :: 0 <= i < n ==> Net(ps[i]) >= votes
    ensures Sum(AtLeast(ps, votes)) >= Sum(ps[..n])
    decreases |ps|
  {
    if ps != [] {
      var front, p := ps[..|ps| - 1], ps[|ps| - 1];
      AtLeastSum(front, if n < |ps| then n else n - 1, votes);
      assert n < |ps| ==> front[..n] == ps[..n];
      var low := AtLeast(front, votes);
      assert (low + [p])[..|low|] == low;
      if n == |ps| { assert ps[..n] == ps && front[..n - 1] == front; }
      if Net(p) < votes { assert low + [] == low; }
    }
  }

  function PaymentOf(p: Proposal): Payment { Payment(p.hash, p.payee, p.amount) }

  /** The payments `SubmitFinalBudget` assembles. */
  function Payments(paid: seq<Proposal>): (r: seq<Payment>)
    ensures |r| == |paid|
  {
    seq(|paid|, i requires 0 <= i < |paid| => PaymentOf(paid[i]))
  }

  /** The amounts paid are the allotted ones; where these are the full amounts, so are the payments. */
  method Assemble(paid: seq<Proposal>, allotted: map<Hash, int>) returns (payments: seq<Payment>)
    requires forall i :: 0 <= i < |paid| ==> paid[i].hash in allotted
    ensures |payments| == |paid|
    ensures forall k :: 0 <= k < |paid| ==> payments[k] == Payment(paid[k].hash, paid[k].payee, allotted[paid[k].hash])
    ensures payments == Payments(paid) <==> forall k :: 0 <= k < |paid| ==> allotted[paid[k].hash] == paid[k].amount
  {
    payments := [];
    for i := 0 to |paid|
      invariant |payments| == i
      invariant forall k :: 0 <= k < i ==> payments[k] == Payment(paid[k].hash, paid[k].payee, allotted[paid[k].hash])
    {
      payments := payments + [Payment(paid[i].hash, paid[i].payee, allotted[paid[i].hash])];
    }
    assert forall k :: 0 <= k < |paid| ==> Payments(paid)[k] == PaymentOf(paid[k]);
  }

  /** Every paid proposal is allotted its full amount. */
  lemma PaidAllotted(rank: seq<Proposal>, c: Cycle, m: map<Hash, int>)
    requires Distinct(rank)
    ensures forall p :: p in Paid(rank, c, |rank|) ==>
              p.hash in Allot(rank, c, |rank|, m) && Allot(rank, c, |rank|, m)[p.hash] == p.amount
  {
    var at := PaidInOrder(rank, c, |rank|);
    var paid := Paid(rank, c, |rank|);
    forall p | p in paid ensures p.hash in Allot(rank, c, |rank|, m) && Allot(rank, c, |rank|, m)[p.hash] == p.amount {
      var i :| 0 <= i < |paid| && paid[i] == p;
      assert at[i] < |rank| && p == rank[at[i]];
      AllotExactly(rank, c, |rank|, m, at[i]);
    }
  }

  function TotalOf(payments: seq<Payment>): int {
    if payments == [] then 0 else TotalOf(payments[..|payments| - 1]) + payments[|payments| - 1].amount
  }

  /** `GetTotalPayout`. */
  method GetTotalPayout(payments: seq<Payment>) returns (total: int)
    ensures total == TotalOf(payments)
  {
    total := 0;
    for i := 0 to |payments|
      invariant total == TotalOf(payments[..i])
    {
      assert payments[..i + 1][..i] == payments[..i];
      total := total + payments[i].amount;
    }
    assert payments[..|payments|] == payments;
  }

  lemma {:induction false} TotalIsSum(paid: seq<Proposal>)
    ensures TotalOf(Payments(paid)) == Sum(paid)
  {
    if paid != [] {
      TotalIsSum(paid[..|paid| - 1]);
      assert Payments(paid)[..|paid| - 1] == Payments(paid[..|paid| - 1]);
    }
  }

  /** A budget assembled from what is paid meets the payout cap. */
  lemma PayoutWithin(rank: seq<Proposal>, c: Cycle)
    ensures var paid := Paid(rank, c, |rank|);
            paid == [] || TotalOf(Payments(paid)) <= c.total
  {
    PaidWithin(rank, c, |rank|);
    TotalIsSum(Paid(rank, c, |rank|));
  }

  function ByHash(): (Payment, Payment) -> bool { (p: Payment, q: Payment) => p.proposal < q.proposal }

  function ByProposalHash(): (Proposal, Proposal) -> bool { (p: Proposal, q: Proposal) => p.hash < q.hash }

  /** The comparison in `CheckAndVote`: both lists sorted by hash, then entry by entry. */
  method Agrees(payments: seq<Payment>, own: seq<Proposal>) returns (ok: bool)
    requires Distinct(own)
    ensures ok <==> own != [] && multiset(payments) == multiset(Payments(own))
  {
    var ps := Sort(own, ByProposalHash());
    var qs := Sort(payments, ByHash());
    SortedPayments(own, ps, payments, qs);
    assert |ps| == |multiset(ps)| == |multiset(own)| == |own|;
    if |ps| == 0 {
      return false;
    }
    if |ps| != |qs| {
      assert |qs| == |multiset(payments)| && |Payments(ps)| == |ps|;
      return false;
    }
    for i := 0 to |qs|
      invariant forall k :: 0 <= k < i ==> qs[k] == PaymentOf(ps[k])
    {
      if qs[i].proposal != ps[i].hash || qs[i].payee != ps[i].payee || qs[i].amount != ps[i].amount {
        assert Payments(ps)[i] != qs[i];
        return false;
      }
    }
    assert qs == Payments(ps);
    return true;
  }

  /** Sorted by hash, payments are those of the sorted proposals exactly when they are the same payments. */
  lemma SortedPayments(own: seq<Proposal>, ps: seq<Proposal>, payments: seq<Payment>, qs: seq<Payment>)
    requires Distinct(own) && multiset(ps) == multiset(own) && Sorted(ps, ByProposalHash())
    requires multiset(qs) == multiset(payments) && Sorted(qs, ByHash())
    ensures multiset(payments) == multiset(Payments(own)) <==> qs == Payments(ps)
  {
    DistinctKept(own, ps);
    PaymentsKept(own, ps);
    var rs := Payments(ps);
    assert Sorted(rs, ByHash());
    assert NoTies(rs, ByHash()) by {
      forall i, j | 0 <= i < j < |rs| ensures rs[i] != rs[j] { assert ps[i].hash != ps[j].hash; }
    }
    if multiset(qs) == multiset(rs) {
      SortedUnique(rs, qs, ByHash());
    }
  }

  /** Rearranged proposals have rearranged payments. */
  lemma PaymentsKept(s: seq<Proposal>, t: seq<Proposal>)
    requires Distinct(s) && Distinct(t) && multiset(s) == multiset(t)
    ensures multiset(Payments(s)) == multiset(Payments(t))
  {
    PaymentsCovered(s, t);
    PaymentsCovered(t, s);
    SameElements(Payments(s), Payments(t));
  }

  lemma PaymentsCovered(s: seq<Proposal>, t: seq<Proposal>)
    requires multiset(s) == multiset(t) && Distinct(s)
    ensures Different(Payments(s)) && forall x :: x in Payments(s) ==> x in Payments(t)
  {
    forall i, j | 0 <= i < j < |s| ensures Payments(s)[i] != Payments(s)[j] { assert s[i].hash != s[j].hash; }
    forall x | x in Payments(s) ensures x in Payments(t) {
      var i :| 0 <= i < |s| && Payments(s)[i] == x;
      assert s[i] in multiset(t);
      var j :| 0 <= j < |t| && t[j] == s[i];
      assert Payments(t)[j] == x;
    }
  }
}
