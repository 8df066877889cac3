/** When every node pays for the same proposals, however ties are broken. */
module BudgetTies {
  import opened Ordering
  import opened Budget

  /** Same votes and same fee transaction. */
  predicate Tied(p: Proposal, q: Proposal) {
    !Better()(p, q) && !Better()(q, p)
  }

  /** Where the class of p begins, looking back from position i. */
  function StartFrom(rank: seq<Proposal>, p: Proposal, i: nat): (b: nat)
    requires i <= |rank|
    ensures b <= i
  {
    if i == 0 || Better()(rank[i - 1], p) then i else StartFrom(rank, p, i - 1)
  }

  /** What is left of the budget once those ranked strictly above position k are paid. */
  function Left(rank: seq<Proposal>, c: Cycle, k: nat): int
    requires k < |rank|
  {
    c.total - Sum(Paid(rank, c, StartFrom(rank, rank[k], k)))
  }

  /** A passing proposal of p's class whose amount alone is within the limit. */
  predicate Hopeful(q: Proposal, c: Cycle, p: Proposal, limit: int) {
    Tied(q, p) && IsPassing(q, c) && q.amount <= limit
  }

  function Crowd(rank: seq<Proposal>, c: Cycle, p: Proposal, limit: int, n: nat): seq<Proposal>
    requires n <= |rank|
  {
    if n == 0 then [] else
      Crowd(rank, c, p, limit, n - 1) + if Hopeful(rank[n - 1], c, p, limit) then [rank[n - 1]] else []
  }

  /** In every class, the passing proposals that fit one by one also fit together. */
  predicate TiesFit(rank: seq<Proposal>, c: Cycle) {
    forall k :: 0 <= k < |rank| && Hopeful(rank[k], c, rank[k], Left(rank, c, k)) ==>
                  Sum(Crowd(rank, c, rank[k], Left(rank, c, k), |rank|)) <= Left(rank, c, k)
  }

  /** Passing proposals do not ask for negative amounts. */
  ghost predicate NonNegative(m: map<Hash, Proposal>, c: Cycle) {
    forall h :: h in m && IsPassing(m[h], c) ==> m[h].amount >= 0
  }

  ghost predicate PassingNonNegative(rank: seq<Proposal>, c: Cycle) {
    forall i :: 0 <= i < |rank| && IsPassing(rank[i], c) ==> rank[i].amount >= 0
  }

  // ----- sums -----

  lemma SumAppend(s: seq<Proposal>, p: Proposal)
    ensures Sum(s + [p]) == Sum(s) + p.amount
  {
    assert (s + [p])[..|s|] == s;
  }

  lemma {:induction false} SumJoin(s: seq<Proposal>, t: seq<Proposal>)
    ensures Sum(s + t) == Sum(s) + Sum(t)
  {
    if t == [] {
      assert s + t == s;
    } else {
      var u, p := t[..|t| - 1], t[|t| - 1];
      SumJoin(s, u);
      assert s + t == (s + u) + [p];
      SumAppend(s + u, p);
    }
  }

  lemma DropBoth(s: seq<Proposal>, t: seq<Proposal>, u: seq<Proposal>, p: Proposal, a: seq<Proposal>, b: seq<Proposal>)
    requires s == u + [p] && t == a + [p] + b && multiset(s) == multiset(t)
    ensures multiset(u) == multiset(a + b)
  {
    assert multiset(s) == multiset(u) + multiset{p};
    assert multiset(t) == multiset(a) + multiset{p} + multiset(b);
    assert multiset(a + b) == multiset(a) + multiset(b);
    assert multiset(u) == multiset(s) - multiset{p};
  }

  /** Sums do not depend on the order. */
  lemma {:induction false} SumSame(s: seq<Proposal>, t: seq<Proposal>)
    requires multiset(s) == multiset(t)
    ensures Sum(s) == Sum(t)
    decreases |s|
  {
    assert |s| == |multiset(s)| == |multiset(t)| == |t|;
    if s != [] {
      var u, p := s[..|s| - 1], s[|s| - 1];
      assert s == u + [p];
      assert p in multiset(t);
      var j :| 0 <= j < |t| && t[j] == p;
      var a, b := t[..j], t[j + 1..];
      assert t == a + [p] + b;
      DropBoth(s, t, u, p, a, b);
      SumSame(u, a + b);
      SumJoin(a, b);
      SumJoin(a + [p], b);
      SumAppend(a, p);
    }
  }

  /** The amount paid never shrinks along a ranking. */
  lemma {:induction false} PaidGrows(rank: seq<Proposal>, c: Cycle, m: nat, n: nat)
    requires m <= n <= |rank| && PassingNonNegative(rank, c)
    ensures Sum(Paid(rank, c, m)) <= Sum(Paid(rank, c, n))
  {
    if m < n {
      PaidGrows(rank, c, m, n - 1);
      if Fits(rank, c, n - 1, Paid(rank, c, n - 1)) {
        SumAppend(Paid(rank, c, n - 1), rank[n - 1]);
      }
    }
  }

  lemma {:induction false} CrowdGrows(rank: seq<Proposal>, c: Cycle, p: Proposal, limit: int, m: nat, n: nat)
    requires m <= n <= |rank| && PassingNonNegative(rank, c)
    ensures Sum(Crowd(rank, c, p, limit, m)) <= Sum(Crowd(rank, c, p, limit, n))
  {
    if m < n {
      CrowdGrows(rank, c, p, limit, m, n - 1);
      CrowdStep(rank, c, p, limit, n - 1);
    }
  }

  lemma CrowdStep(rank: seq<Proposal>, c: Cycle, p: Proposal, limit: int, n: nat)
    requires n < |rank|
    ensures Sum(Crowd(rank, c, p, limit, n + 1)) ==
            Sum(Crowd(rank, c, p, limit, n)) + if Hopeful(rank[n], c, p, limit) then rank[n].amount else 0
  {
    var before := Crowd(rank, c, p, limit, n);
    if Hopeful(rank[n], c, p, limit) { SumAppend(before, rank[n]); } else { assert before + [] == before; }
  }

  lemma {:induction false} CrowdMembers(rank: seq<Proposal>, c: Cycle, p: Proposal, limit: int, n: nat)
    requires n <= |rank| && Distinct(rank)
    ensures forall q :: q in Crowd(rank, c, p, limit, n) <==> q in rank[..n] && Hopeful(q, c, p, limit)
    ensures Distinct(Crowd(rank, c, p, limit, n))
  {
    if n > 0 {
      CrowdMembers(rank, c, p, limit, n - 1);
      var before, last := Crowd(rank, c, p, limit, n - 1), rank[n - 1];
      assert rank[..n] == rank[..n - 1] + [last];
      forall q | q in before ensures q.hash != last.hash {
        assert q in rank[..n - 1];
        var i :| 0 <= i < n - 1 && rank[i] == q;
      }
    }
  }

  // ----- classes -----

  /** Everything before the class is better, nothing from its start to p is. */
  lemma {:induction false} StartFacts(rank: seq<Proposal>, p: Proposal, i: nat)
    requires i <= |rank| && Sorted(rank, Better())
    ensures forall j :: 0 <= j < StartFrom(rank, p, i) ==> Better()(rank[j], p)
    ensures forall j :: StartFrom(rank, p, i) <= j < i ==> !Better()(rank[j], p)
  {
    BetterIsOrder();
    if i > 0 {
      if Better()(rank[i - 1], p) {
        var less := Better();
        forall j | 0 <= j < i ensures less(rank[j], p) {
          if j < i - 1 { assert !less(rank[i - 1], rank[j]); }
        }
      } else {
        StartFacts(rank, p, i - 1);
      }
    }
  }

  /** From the start of its class to p itself all are tied with p. */
  lemma ClassTied(rank: seq<Proposal>, k: nat, j: nat)
    requires k < |rank| && Sorted(rank, Better()) && StartFrom(rank, rank[k], k) <= j <= k
    ensures Tied(rank[j], rank[k])
  {
    StartFacts(rank, rank[k], k);
    BetterIsOrder();
    if j < k { assert !Better()(rank[k], rank[j]); }
  }

  /** The tied ones come at or after the start of the class. */
  lemma TiedAfterStart(rank: seq<Proposal>, k: nat, j: nat)
    requires k < |rank| && j < |rank| && Sorted(rank, Better()) && Tied(rank[j], rank[k])
    ensures StartFrom(rank, rank[k], k) <= j
  {
    StartFacts(rank, rank[k], k);
  }

  // ----- when the hopeful fit together, all of them are paid -----

  lemma {:induction false} PaidByCrowd(rank: seq<Proposal>, c: Cycle, k: nat, n: nat, limit: int)
    requires k < |rank| && Sorted(rank, Better()) && PassingNonNegative(rank, c)
    requires StartFrom(rank, rank[k], k) <= n <= k && limit == Left(rank, c, k)
    ensures Sum(Paid(rank, c, n)) <= c.total - limit + Sum(Crowd(rank, c, rank[k], limit, n))
    decreases n
  {
    var b, p := StartFrom(rank, rank[k], k), rank[k];
    if n == b {
      CrowdGrows(rank, c, p, limit, 0, n);
    } else {
      PaidByCrowd(rank, c, k, n - 1, limit);
      PaidGrows(rank, c, b, n - 1);
      ClassTied(rank, k, n - 1);
      PaidStep(rank, c, p, n - 1, n, limit);
    }
  }

  /** The paid sum grows at most as much as that of the hopeful. */
  lemma PaidStep(r: seq<Proposal>, c: Cycle, p: Proposal, m: nat, n: nat, limit: int)
    requires n == m + 1 && n <= |r| && PassingNonNegative(r, c) && Tied(r[m], p)
    requires c.total - limit <= Sum(Paid(r, c, m))
    ensures Sum(Paid(r, c, n)) - Sum(Paid(r, c, m)) <= Sum(Crowd(r, c, p, limit, n)) - Sum(Crowd(r, c, p, limit, m))
  {
    CrowdStep(r, c, p, limit, m);
    if Fits(r, c, m, Paid(r, c, m)) {
      SumAppend(Paid(r, c, m), r[m]);
    }
  }

  /** A hopeful proposal is paid, given that its class fits together. */
  lemma HopefulPaid(rank: seq<Proposal>, c: Cycle, k: nat, limit: int)
    requires k < |rank| && Sorted(rank, Better()) && Distinct(rank) && PassingNonNegative(rank, c)
    requires limit == Left(rank, c, k) && Hopeful(rank[k], c, rank[k], limit)
    requires Sum(Crowd(rank, c, rank[k], limit, |rank|)) <= limit
    ensures rank[k] in Paid(rank, c, |rank|)
  {
    PaidByCrowd(rank, c, k, k, limit);
    CrowdStep(rank, c, rank[k], limit, k);
    CrowdGrows(rank, c, rank[k], limit, k + 1, |rank|);
    PaidExactly(rank, c, k);
  }

  /** Only hopeful proposals are paid. */
  lemma PaidHopeful(rank: seq<Proposal>, c: Cycle, k: nat)
    requires k < |rank| && Sorted(rank, Better()) && Distinct(rank) && PassingNonNegative(rank, c)
    requires rank[k] in Paid(rank, c, |rank|)
    ensures Hopeful(rank[k], c, rank[k], Left(rank, c, k))
  {
    PaidExactly(rank, c, k);
    PaidGrows(rank, c, StartFrom(rank, rank[k], k), k);
    BetterIsOrder();
  }

  // ----- two rankings -----

  lemma RankMembers(m: map<Hash, Proposal>, r: seq<Proposal>, p: Proposal)
    requires KeyedByHash(m) && Ranks(m, r)
    ensures p in r <==> p.hash in m && m[p.hash] == p
  {
    if p in r { var i :| 0 <= i < |r| && r[i] == p; }
  }

  lemma RankNonNegative(m: map<Hash, Proposal>, c: Cycle, r: seq<Proposal>)
    requires Ranks(m, r) && NonNegative(m, c)
    ensures PassingNonNegative(r, c)
  {
    forall i | 0 <= i < |r| && IsPassing(r[i], c) ensures r[i].amount >= 0 {
      assert m[r[i].hash] == r[i];
    }
  }

  /** What is paid before the class of r[k]: the paid proposals better than it. */
  lemma PaidAbove(r: seq<Proposal>, c: Cycle, k: nat, q: Proposal)
    requires k < |r| && Sorted(r, Better()) && Distinct(r)
    ensures q in Paid(r, c, StartFrom(r, r[k], k)) <==> q in Paid(r, c, |r|) && Better()(q, r[k])
  {
    var b := StartFrom(r, r[k], k);
    StartFacts(r, r[k], k);
    PaidPrefix(r, c, b, |r|);
    var low := PaidInOrder(r, c, b);
    if q in Paid(r, c, b) {
      var i :| 0 <= i < |Paid(r, c, b)| && Paid(r, c, b)[i] == q;
      assert q == r[low[i]] && low[i] < b;
      assert Paid(r, c, |r|)[i] == q;
    }
    if q in Paid(r, c, |r|) && Better()(q, r[k]) {
      var at := PaidInOrder(r, c, |r|);
      var i :| 0 <= i < |Paid(r, c, |r|)| && Paid(r, c, |r|)[i] == q;
      BetterBefore(r, k, at[i]);
      PaidSooner(r, c, at[i], b);
    }
  }

  /** Better ones come before the class. */
  lemma BetterBefore(r: seq<Proposal>, k: nat, j: nat)
    requires k < |r| && j < |r| && Sorted(r, Better()) && Better()(r[j], r[k])
    ensures j < StartFrom(r, r[k], k)
  {
    BetterIsOrder();
    StartFacts(r, r[k], k);
  }

  /** Whether a proposal is paid is settled when its turn comes. */
  lemma PaidSooner(r: seq<Proposal>, c: Cycle, j: nat, b: nat)
    requires Distinct(r) && j < b <= |r| && r[j] in Paid(r, c, |r|)
    ensures r[j] in Paid(r, c, b)
  {
    PaidExactly(r, c, j);
    PaidPrefix(r, c, j + 1, b);
    assert Paid(r, c, j + 1)[|Paid(r, c, j)|] == r[j];
  }

  lemma PaidPartDistinct(r: seq<Proposal>, c: Cycle, n: nat)
    requires Distinct(r) && n <= |r|
    ensures Distinct(Paid(r, c, n)) && Different(Paid(r, c, n))
  {
    var at := PaidInOrder(r, c, n);
    var paid := Paid(r, c, n);
    forall i, j | 0 <= i < j < |paid| ensures paid[i].hash != paid[j].hash {
      assert at[i] < at[j] && paid[i] == r[at[i]] && paid[j] == r[at[j]];
    }
  }

  /** Rankings that pay the same above p leave the same for its class. */
  lemma LeftSame(r: seq<Proposal>, s: seq<Proposal>, c: Cycle, k: nat, l: nat)
    requires k < |r| && l < |s| && r[k] == s[l] && Distinct(r) && Distinct(s)
    requires Sorted(r, Better()) && Sorted(s, Better())
    requires forall q :: Better()(q, r[k]) ==> (q in Paid(r, c, |r|) <==> q in Paid(s, c, |s|))
    ensures Left(r, c, k) == Left(s, c, l)
  {
    var b, d := StartFrom(r, r[k], k), StartFrom(s, s[l], l);
    forall q ensures q in Paid(r, c, b) <==> q in Paid(s, c, d) {
      PaidAbove(r, c, k, q);
      PaidAbove(s, c, l, q);
    }
    PaidPartDistinct(r, c, b);
    PaidPartDistinct(s, c, d);
    SameElements(Paid(r, c, b), Paid(s, c, d));
    SumSame(Paid(r, c, b), Paid(s, c, d));
  }

  lemma CrowdSame(m: map<Hash, Proposal>, r: seq<Proposal>, s: seq<Proposal>, c: Cycle, p: Proposal, limit: int)
    requires KeyedByHash(m) && Ranks(m, r) && Ranks(m, s)
    ensures Sum(Crowd(r, c, p, limit, |r|)) == Sum(Crowd(s, c, p, limit, |s|))
  {
    CrowdMembers(r, c, p, limit, |r|);
    CrowdMembers(s, c, p, limit, |s|);
    assert r[..|r|] == r && s[..|s|] == s;
    var a, b := Crowd(r, c, p, limit, |r|), Crowd(s, c, p, limit, |s|);
    forall q ensures q in a <==> q in b {
      RankMembers(m, r, q);
      RankMembers(m, s, q);
    }
    SameElements(a, b);
    SumSame(a, b);
  }

  /** If ties fit in one ranking, every other pays for exactly the same proposals. */
  lemma {:induction false} SamePaid(m: map<Hash, Proposal>, c: Cycle, r: seq<Proposal>, s: seq<Proposal>, k: nat)
    requires KeyedByHash(m) && NonNegative(m, c) && Ranks(m, r) && Ranks(m, s) && TiesFit(r, c) && k < |r|
    ensures r[k] in Paid(r, c, |r|) <==> r[k] in Paid(s, c, |s|)
    decreases k
  {
    RankMembers(m, r, r[k]);
    RankMembers(m, s, r[k]);
    var l :| 0 <= l < |s| && s[l] == r[k];
    forall q | Better()(q, r[k]) ensures q in Paid(r, c, |r|) <==> q in Paid(s, c, |s|) {
      SamePaidAbove(m, c, r, s, k, q);
    }
    LeftSame(r, s, c, k, l);
    RankNonNegative(m, c, r);
    RankNonNegative(m, c, s);
    var limit := Left(r, c, k);
    CrowdSame(m, r, s, c, r[k], limit);
    if Hopeful(r[k], c, r[k], limit) {
      HopefulPaid(r, c, k, limit);
      HopefulPaid(s, c, l, limit);
    } else {
      if r[k] in Paid(r, c, |r|) { PaidHopeful(r, c, k); }
      if s[l] in Paid(s, c, |s|) { PaidHopeful(s, c, l); }
    }
  }

  lemma {:induction false} SamePaidAbove(m: map<Hash, Proposal>, c: Cycle, r: seq<Proposal>, s: seq<Proposal>, k: nat,
                                         q: Proposal)
    requires KeyedByHash(m) && NonNegative(m, c) && Ranks(m, r) && Ranks(m, s) && TiesFit(r, c) && k < |r|
    requires Better()(q, r[k])
    ensures q in Paid(r, c, |r|) <==> q in Paid(s, c, |s|)
    decreases k, 0
  {
    RankMembers(m, r, q);
    RankMembers(m, s, q);
    if q in r {
      var j :| 0 <= j < |r| && r[j] == q;
      BetterBefore(r, k, j);
      SamePaid(m, c, r, s, j);
    } else {
      NotPaid(r, c, q);
      NotPaid(s, c, q);
    }
  }

  lemma NotPaid(r: seq<Proposal>, c: Cycle, q: Proposal)
    requires q !in r
    ensures q !in Paid(r, c, |r|)
  {
    var at := PaidInOrder(r, c, |r|);
    var paid := Paid(r, c, |r|);
    forall i | 0 <= i < |paid| ensures paid[i] != q { assert paid[i] == r[at[i]]; }
  }

  // ----- when they do not fit, the order decides -----

  /** If every hopeful proposal of a class were paid, the paid sum would grow with that of the class. */
  lemma {:induction false} CrowdPaid(r: seq<Proposal>, c: Cycle, p: Proposal, b: nat, n: nat, limit: int)
    requires b <= n <= |r| && Distinct(r) && PassingNonNegative(r, c)
    requires forall j :: 0 <= j < |r| && Hopeful(r[j], c, p, limit) ==> r[j] in Paid(r, c, |r|)
    ensures Sum(Crowd(r, c, p, limit, n)) - Sum(Crowd(r, c, p, limit, b)) <= Sum(Paid(r, c, n)) - Sum(Paid(r, c, b))
    decreases n
  {
    if b < n {
      CrowdPaid(r, c, p, b, n - 1, limit);
      CrowdPaidStep(r, c, p, n - 1, n, limit);
    }
  }

  /** The paid sum grows at least as much as that of the hopeful. */
  lemma CrowdPaidStep(r: seq<Proposal>, c: Cycle, p: Proposal, m: nat, n: nat, limit: int)
    requires n == m + 1 && n <= |r| && Distinct(r) && PassingNonNegative(r, c)
    requires Hopeful(r[m], c, p, limit) ==> r[m] in Paid(r, c, |r|)
    ensures Sum(Crowd(r, c, p, limit, n)) - Sum(Crowd(r, c, p, limit, m)) <= Sum(Paid(r, c, n)) - Sum(Paid(r, c, m))
  {
    CrowdStep(r, c, p, limit, m);
    PaidGrows(r, c, m, n);
    if Hopeful(r[m], c, p, limit) {
      PaidExactly(r, c, m);
      SumAppend(Paid(r, c, m), r[m]);
    }
  }

  lemma {:induction false} NoCrowdAbove(r: seq<Proposal>, c: Cycle, k: nat, n: nat, limit: int)
    requires k < |r| && Sorted(r, Better()) && n <= StartFrom(r, r[k], k)
    ensures Crowd(r, c, r[k], limit, n) == []
  {
    StartFacts(r, r[k], k);
    if n > 0 { NoCrowdAbove(r, c, k, n - 1, limit); }
  }

  /** A class too large to fit has a hopeful proposal that is left out. */
  lemma SomeLeftOut(r: seq<Proposal>, c: Cycle, k: nat, limit: int) returns (j: nat)
    requires k < |r| && Sorted(r, Better()) && Distinct(r) && PassingNonNegative(r, c)
    requires limit == Left(r, c, k) && Hopeful(r[k], c, r[k], limit)
    requires Sum(Crowd(r, c, r[k], limit, |r|)) > limit
    ensures j < |r| && Hopeful(r[j], c, r[k], limit) && r[j] !in Paid(r, c, |r|)
  {
    if forall j :: 0 <= j < |r| && Hopeful(r[j], c, r[k], limit) ==> r[j] in Paid(r, c, |r|) {
      var b := StartFrom(r, r[k], k);
      CrowdPaid(r, c, r[k], b, |r|, limit);
      NoCrowdAbove(r, c, k, b, limit);
      PaidWithin(r, c, |r|);
      assert false;
    }
    j :| 0 <= j < |r| && Hopeful(r[j], c, r[k], limit) && r[j] !in Paid(r, c, |r|);
  }

  lemma {:induction false} PaidPart(r: seq<Proposal>, s: seq<Proposal>, c: Cycle, n: nat)
    requires n <= |r| && n <= |s| && r[..n] == s[..n]
    ensures Paid(r, c, n) == Paid(s, c, n)
  {
    if n > 0 {
      assert r[n - 1] == r[..n][n - 1] == s[..n][n - 1] == s[n - 1];
      assert r[..n - 1] == r[..n][..n - 1] && s[..n - 1] == s[..n][..n - 1];
      PaidPart(r, s, c, n - 1);
    }
  }

  /** The one left out is paid in a ranking that puts it first in its class. */
  lemma OtherRanking(m: map<Hash, Proposal>, c: Cycle, r: seq<Proposal>) returns (s: seq<Proposal>, q: Proposal)
    requires KeyedByHash(m) && NonNegative(m, c) && Ranks(m, r) && !TiesFit(r, c)
    ensures Ranks(m, s) && q in Paid(s, c, |s|) && q !in Paid(r, c, |r|)
  {
    RankNonNegative(m, c, r);
    var k :| 0 <= k < |r| && Hopeful(r[k], c, r[k], Left(r, c, k)) &&
             Sum(Crowd(r, c, r[k], Left(r, c, k), |r|)) > Left(r, c, k);
    var j := SomeLeftOut(r, c, k, Left(r, c, k));
    q := r[j];
    s := PutFirst(m, c, r, k, j);
  }

  lemma PutFirst(m: map<Hash, Proposal>, c: Cycle, r: seq<Proposal>, k: nat, j: nat) returns (s: seq<Proposal>)
    requires Ranks(m, r) && k < |r| && j < |r| && Hopeful(r[j], c, r[k], Left(r, c, k)) && r[j] !in Paid(r, c, |r|)
    ensures Ranks(m, s) && r[j] in Paid(s, c, |s|)
  {
    var b := StartFrom(r, r[k], k);
    TiedAfterStart(r, k, j);
    assert b < j by { PaidExactly(r, c, j); }
    ClassTied(r, k, b);
    TiedThrough(r[b], r[k], r[j]);
    s := SwapTied(m, r, b, j);
    FirstPaid(r, s, c, b, Left(r, c, k));
  }

  /** After the same beginning, a hopeful proposal that comes next is paid. */
  lemma FirstPaid(r: seq<Proposal>, s: seq<Proposal>, c: Cycle, b: nat, limit: int)
    requires b < |r| == |s| && Distinct(s) && s[..b] == r[..b]
    requires limit == c.total - Sum(Paid(r, c, b)) && IsPassing(s[b], c) && s[b].amount <= limit
    ensures s[b] in Paid(s, c, |s|)
  {
    PaidPart(r, s, c, b);
    PaidExactly(s, c, b);
  }

  lemma TiedThrough(p: Proposal, q: Proposal, r: Proposal)
    requires Tied(p, q) && Tied(r, q)
    ensures Tied(p, r)
  {
    BetterIsOrder();
  }

  lemma SwapTied(m: map<Hash, Proposal>, r: seq<Proposal>, i: nat, j: nat) returns (s: seq<Proposal>)
    requires Ranks(m, r) && i < j < |r| && Tied(r[i], r[j])
    ensures Ranks(m, s) && s == r[i := r[j]][j := r[i]]
  {
    s := TieSwap(m, r, i, j);
  }

  // ----- agreement -----

  /** All rankings of the proposals pay for the same ones. */
  ghost predicate AllAgree(m: map<Hash, Proposal>, c: Cycle) {
    forall r, s :: Ranks(m, r) && Ranks(m, s) ==> multiset(Paid(r, c, |r|)) == multiset(Paid(s, c, |s|))
  }

  /** The proposals paid for are determined exactly when, in each class of ties, those that fit one
      by one into what the better ones leave also fit together; any ranking will do to find out. */
  lemma AgreeIff(m: map<Hash, Proposal>, c: Cycle, r: seq<Proposal>)
    requires KeyedByHash(m) && NonNegative(m, c) && Ranks(m, r)
    ensures AllAgree(m, c) <==> TiesFit(r, c)
  {
    if TiesFit(r, c) {
      forall s | Ranks(m, s) ensures multiset(Paid(r, c, |r|)) == multiset(Paid(s, c, |s|)) {
        SamePayments(m, c, r, s);
      }
    } else {
      var s, q := OtherRanking(m, c, r);
      assert q in multiset(Paid(s, c, |s|)) && q !in multiset(Paid(r, c, |r|));
    }
  }

  lemma SamePayments(m: map<Hash, Proposal>, c: Cycle, r: seq<Proposal>, s: seq<Proposal>)
    requires KeyedByHash(m) && NonNegative(m, c) && Ranks(m, r) && Ranks(m, s) && TiesFit(r, c)
    ensures multiset(Paid(r, c, |r|)) == multiset(Paid(s, c, |s|))
  {
    forall q ensures q in Paid(r, c, |r|) <==> q in Paid(s, c, |s|) {
      RankMembers(m, r, q);
      RankMembers(m, s, q);
      if q in r {
        var k :| 0 <= k < |r| && r[k] == q;
        SamePaid(m, c, r, s, k);
      } else {
        NotPaid(r, c, q);
        NotPaid(s, c, q);
      }
    }
    PaidPartDistinct(r, c, |r|);
    PaidPartDistinct(s, c, |s|);
    SameElements(Paid(r, c, |r|), Paid(s, c, |s|));
  }

  // ----- nodes -----

  /** The same payments come out of every ranking. */
  ghost predicate PaymentsAgree(m: map<Hash, Proposal>, c: Cycle) {
    forall r, s :: Ranks(m, r) && Ranks(m, s) ==>
                     multiset(Payments(Paid(r, c, |r|))) == multiset(Payments(Paid(s, c, |s|)))
  }

  lemma PaymentOfPaid(paid: seq<Proposal>, p: Proposal)
    requires p in paid
    ensures PaymentOf(p) in Payments(paid)
  {
    var i :| 0 <= i < |paid| && paid[i] == p;
    assert Payments(paid)[i] == PaymentOf(p);
  }

  lemma PaidOfPayment(paid: seq<Proposal>, x: Payment) returns (p: Proposal)
    requires x in Payments(paid)
    ensures p in paid && PaymentOf(p) == x
  {
    var i :| 0 <= i < |paid| && Payments(paid)[i] == x;
    p := paid[i];
  }

  /** Nodes with the same proposals, votes and cycle accept each other's budgets, however each breaks
      its ties, exactly when the tied proposals that fit one by one fit together. */
  lemma NodesAgreeIff(m: map<Hash, Proposal>, c: Cycle, r: seq<Proposal>)
    requires KeyedByHash(m) && NonNegative(m, c) && Ranks(m, r)
    ensures PaymentsAgree(m, c) <==> TiesFit(r, c)
  {
    if TiesFit(r, c) {
      forall s, t | Ranks(m, s) && Ranks(m, t)
        ensures multiset(Payments(Paid(s, c, |s|))) == multiset(Payments(Paid(t, c, |t|)))
      {
        SamePayments(m, c, r, s);
        SamePayments(m, c, r, t);
        PaidPartDistinct(s, c, |s|);
        PaidPartDistinct(t, c, |t|);
        PaymentsKept(Paid(s, c, |s|), Paid(t, c, |t|));
      }
    } else {
      var s, q := OtherRanking(m, c, r);
      var a, b := Payments(Paid(s, c, |s|)), Payments(Paid(r, c, |r|));
      PaymentOfPaid(Paid(s, c, |s|), q);
      assert PaymentOf(q) !in b by {
        if PaymentOf(q) in b { OnlyPayment(m, c, r, s, q); }
      }
      assert PaymentOf(q) in multiset(a) && PaymentOf(q) !in multiset(b);
    }
  }

  lemma OnlyPayment(m: map<Hash, Proposal>, c: Cycle, r: seq<Proposal>, s: seq<Proposal>, q: Proposal)
    requires KeyedByHash(m) && Ranks(m, r) && Ranks(m, s) && q in Paid(s, c, |s|)
    requires PaymentOf(q) in Payments(Paid(r, c, |r|))
    ensures q in Paid(r, c, |r|)
  {
    var p := PaidOfPayment(Paid(r, c, |r|), PaymentOf(q));
    PaidRanked(m, r, c, p);
    PaidRanked(m, s, c, q);
  }

  lemma PaidRanked(m: map<Hash, Proposal>, r: seq<Proposal>, c: Cycle, p: Proposal)
    requires KeyedByHash(m) && Ranks(m, r) && p in Paid(r, c, |r|)
    ensures p.hash in m && m[p.hash] == p
  {
    if p !in r { NotPaid(r, c, p); }
    RankMembers(m, r, p);
  }

  /** The condition, from the proposals alone. */
  ghost predicate TiesHarmless(m: map<Hash, Proposal>, c: Cycle) {
    forall r :: Ranks(m, r) ==> TiesFit(r, c)
  }

  /** A node can find out beforehand, from any ranking of its own. */
  method CheckTies(proposals: map<Hash, Proposal>, c: Cycle) returns (ok: bool)
    requires KeyedByHash(proposals) && NonNegative(proposals, c)
    ensures ok <==> TiesHarmless(proposals, c)
    ensures ok <==> PaymentsAgree(proposals, c)
  {
    var node := new Manager(proposals);
    var list := node.ListProposals();
    BetterIsOrder();
    var rank := Sort(list, Better());
    RankOf(proposals, list, rank);
    ok := TiesFit(rank, c);
    NodesAgreeIff(proposals, c, rank);
    forall r | Ranks(proposals, r) ensures TiesFit(r, c) <==> TiesFit(rank, c) {
      NodesAgreeIff(proposals, c, r);
    }
  }

  /** What one node finalizes another with the same proposals, votes and cycle votes for, unless ties
      keep them from agreeing; the payout stays within the budget in any case. */
  method FinalizeAndVote(proposals: map<Hash, Proposal>, c: Cycle)
    returns (payments: seq<Payment>, total: int, vote: bool)
    requires KeyedByHash(proposals)
    ensures total == TotalOf(payments) && (payments != [] ==> total <= c.total)
    ensures NonNegative(proposals, c) && TiesHarmless(proposals, c) ==> (vote <==> payments != [])
    ensures vote ==> payments != []
  {
    ghost var rank, rank2;
    payments, rank := Finalize(proposals, c);
    total := GetTotalPayout(payments);
    PayoutWithin(rank, c);
    vote, rank2 := VoteOn(proposals, c, payments);
    if NonNegative(proposals, c) && TiesHarmless(proposals, c) {
      NodesAgreeIff(proposals, c, rank);
      SamePaymentCount(payments, Paid(rank2, c, |rank2|));
    }
  }

  /** One node assembles its budget. */
  method Finalize(proposals: map<Hash, Proposal>, c: Cycle) returns (payments: seq<Payment>, ghost rank: seq<Proposal>)
    requires KeyedByHash(proposals)
    ensures Ranks(proposals, rank) && payments == Payments(Paid(rank, c, |rank|))
  {
    var node := new Manager(proposals);
    var paid;
    paid, rank := node.GetBudget(c);
    PaidAllotted(rank, c, map[]);
    payments := Assemble(paid, node.allotted);
  }

  /** Another compares it with its own. */
  method VoteOn(proposals: map<Hash, Proposal>, c: Cycle, payments: seq<Payment>)
    returns (vote: bool, ghost rank: seq<Proposal>)
    requires KeyedByHash(proposals)
    ensures Ranks(proposals, rank)
    ensures vote <==> payments != [] && multiset(payments) == multiset(Payments(Paid(rank, c, |rank|)))
  {
    var node := new Manager(proposals);
    var own;
    own, rank := node.GetBudget(c);
    PaidPartDistinct(rank, c, |rank|);
    vote := Agrees(payments, own);
    SamePaymentCount(payments, own);
  }

  lemma SamePaymentCount(payments: seq<Payment>, own: seq<Proposal>)
    ensures multiset(payments) == multiset(Payments(own)) ==> |payments| == |own|
  {
    assert |payments| == |multiset(payments)| && |Payments(own)| == |multiset(Payments(own))|;
  }
}
