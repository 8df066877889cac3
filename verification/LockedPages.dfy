/** `LockedPageManagerBase`: a lock count per memory page, so that page locks stack. */
module LockedPages {
  import opened Folding
  import opened Powers

  /** The number of addresses: `size_t` has 64 bits. */
  const SPACE: nat := 0x1_0000_0000_0000_0000

  datatype Range = Range(base: nat, size: nat)

  /** The page size is a power of two: it divides the address space. */
  predicate PageSize(pageSize: nat) {
    pageSize > 0 && 0x1_0000_0000_0000_0000 % pageSize == 0
  }

  /** The range lies in the address space. */
  predicate InSpace(r: Range) {
    r.base + r.size <= SPACE
  }

  /** The last page touched is not the last of the address space. */
  predicate Ends(r: Range, pageSize: nat)
    requires pageSize > 0
  {
    r.size == 0 || PageOf(r.base + r.size - 1, pageSize) + pageSize < SPACE
  }

  /** The page an address lies in. */
  function PageOf(address: nat, pageSize: nat): nat
    requires pageSize > 0
  {
    address - address % pageSize
  }

  /** A non-empty range touches the pages from its first to its last byte. */
  predicate Touches(r: Range, page: nat, pageSize: nat)
    requires pageSize > 0
  {
    r.size > 0 && page % pageSize == 0 && PageOf(r.base, pageSize) <= page <= PageOf(r.base + r.size - 1, pageSize)
  }

  /** A range touches a page exactly when the two have an address in common. */
  lemma TouchesIff(r: Range, page: nat, pageSize: nat)
    requires pageSize > 0
    ensures Touches(r, page, pageSize) <==>
            page % pageSize == 0 && r.size > 0 && page < r.base + r.size && r.base < page + pageSize
  {
    if page % pageSize == 0 && r.size > 0 {
      PageBounds(r.base, pageSize, page);
      PageBounds(r.base + r.size - 1, pageSize, page);
    }
  }

  /** A page starts no later than the page of an address exactly when it starts no later than the address, and ends
      after the address exactly when it starts no earlier than its page. */
  lemma PageBounds(a: nat, pageSize: nat, page: nat)
    requires pageSize > 0 && page % pageSize == 0
    ensures page <= PageOf(a, pageSize) <==> page <= a
    ensures PageOf(a, pageSize) <= page <==> a < page + pageSize
  {
    var p, q := page / pageSize, a / pageSize;
    assert page == p * pageSize && a == q * pageSize + a % pageSize && PageOf(a, pageSize) == q * pageSize;
    if p <= q { MulMono(p, q, pageSize); } else { MulMono(q + 1, p, pageSize); DistributeRight(q, 1, pageSize); }
    if q <= p { MulMono(q, p, pageSize); } else { MulMono(p + 1, q, pageSize); DistributeRight(p, 1, pageSize); }
  }

  /** How many live ranges touch a page. */
  function Users(live: seq<Range>, page: nat, pageSize: nat): nat
    requires pageSize > 0
  {
    if live == [] then 0 else
      Users(live[..|live| - 1], page, pageSize) + if Touches(live[|live| - 1], page, pageSize) then 1 else 0
  }

  function Without(live: seq<Range>, i: nat): seq<Range>
    requires i < |live|
  {
    live[..i] + live[i + 1..]
  }

  lemma {:induction false} UsersWithout(live: seq<Range>, i: nat, page: nat, pageSize: nat)
    requires pageSize > 0 && i < |live|
    ensures Users(Without(live, i), page, pageSize) + (if Touches(live[i], page, pageSize) then 1 else 0) ==
            Users(live, page, pageSize)
  {
    var n := |live| - 1;
    if i == n {
      assert Without(live, i) == live[..n];
    } else {
      UsersWithout(live[..n], i, page, pageSize);
      assert Without(live, i)[..n - 1] == Without(live[..n], i);
    }
  }

  /** A page in use has a user. */
  lemma {:induction false} SomeUser(live: seq<Range>, page: nat, pageSize: nat)
    requires pageSize > 0
    ensures Users(live, page, pageSize) > 0 <==> exists i :: 0 <= i < |live| && Touches(live[i], page, pageSize)
  {
    if live != [] {
      var n := |live| - 1;
      SomeUser(live[..n], page, pageSize);
      if i :| 0 <= i < |live| && Touches(live[i], page, pageSize) {
        if i < n { assert live[..n][i] == live[i]; }
      }
      if exists i :: 0 <= i < |live[..n]| && Touches(live[..n][i], page, pageSize) {
        var i :| 0 <= i < |live[..n]| && Touches(live[..n][i], page, pageSize);
        assert Touches(live[i], page, pageSize);
      }
    }
  }

  function CountOf(histogram: map<nat, int>, page: nat): int {
    if page in histogram then histogram[page] else 0
  }

  class Manager {
    const pageSize: nat
    var histogram: map<nat, int>
    var locked: set<nat>          // the pages the operating system keeps locked
    ghost var live: seq<Range>    // ranges locked and not yet unlocked

    /** Counts are positive, and the pages counted are those locked. */
    ghost predicate Tidy()
      reads this
    {
      PageSize(pageSize) && locked == histogram.Keys &&
      forall page {:trigger histogram[page]} :: page in histogram ==> histogram[page] > 0
    }

    /** Each page's count is the number of live ranges that touch it. */
    ghost predicate Valid()
      reads this
    {
      Tidy() && (forall i :: 0 <= i < |live| ==> InSpace(live[i]) && Ends(live[i], pageSize)) &&
      forall page {:trigger CountOf(histogram, page)} :: CountOf(histogram, page) == Users(live, page, pageSize)
    }

    constructor (pageSize: nat)
      requires PageSize(pageSize)
      ensures Valid() && this.pageSize == pageSize && live == [] && locked == {}
    {
      this.pageSize := pageSize;
      histogram, locked, live := map[], {}, [];
    }

    /** One more lock on a page. */
    method LockPage(page: nat)
      requires Tidy()
      modifies `histogram, `locked
      ensures Tidy() && forall p: nat ::
              CountOf(histogram, p) == CountOf(old(histogram), p) + if p == page then 1 else 0
    {
      if page !in histogram {
        locked := locked + {page};
        histogram := histogram[page := 1];
      } else {
        histogram := histogram[page := histogram[page] + 1];
      }
    }

    /** One lock less; the page must have one. */
    method UnlockPage(page: nat)
      requires Tidy() && CountOf(histogram, page) > 0
      modifies `histogram, `locked
      ensures Tidy() && forall p: nat ::
              CountOf(histogram, p) == CountOf(old(histogram), p) - if p == page then 1 else 0
    {
      assert page in histogram;
      histogram := histogram[page := histogram[page] - 1];
      if histogram[page] == 0 {
        locked := locked - {page};
        histogram := histogram - {page};
      }
    }

    /** `LockRange`. The loop ends exactly when the last page touched is not the last of the address
        space; otherwise the page number wraps to 0 and the loop goes round for ever, which is reported here. */
    method LockRange(base: nat, size: nat) returns (ends: bool)
      requires Valid() && InSpace(Range(base, size))
      modifies this
      ensures ends <==> Ends(Range(base, size), pageSize)
      ensures ends ==> Valid() && live == old(live) + [Range(base, size)]
    {
      ghost var r := Range(base, size);
      ends := true;
      if size != 0 {
        var start := PageOf(base, pageSize);
        var end := PageOf(base + size - 1, pageSize);
        Aligned(base, pageSize);
        Aligned(base + size - 1, pageSize);
        PageOrder(base, base + size - 1, pageSize);
        ends := LockPages(start, end, r);
      }
      if ends {
        live := live + [r];
        UsersAdded(old(live), r, pageSize);
      }
    }

    method LockPages(start: nat, end: nat, ghost r: Range) returns (ends: bool)
      requires Tidy() && start % pageSize == 0 && end % pageSize == 0 && start <= end < SPACE
      requires r.size > 0 && start == PageOf(r.base, pageSize) && end == PageOf(r.base + r.size - 1, pageSize)
      modifies `histogram, `locked
      ensures Tidy() && (ends <==> end + pageSize < SPACE)
      ensures ends ==> Shifted(old(histogram), histogram, r, pageSize, end + pageSize, 1)
    {
      ghost var before := histogram;
      var page := start;
      ShiftedStart(before, r, pageSize, start, 1);
      while page <= end
        invariant Tidy() && page % pageSize == 0 && start <= page && (page <= end || end + pageSize < SPACE)
        invariant ShiftedFolded(before, histogram, r, pageSize, page, 1)
        decreases end + pageSize - page
      {
        ghost var was := histogram;
        LastPage(page, end, pageSize);
        LockPage(page);
        ShiftedStep(before, was, histogram, r, pageSize, page, 1);
        page := NextPageNumber(page, pageSize);
        if page == 0 {
          return false;
        }
      }
      ShiftedDone(before, histogram, r, pageSize, page, end, 1);
      ends := true;
    }

    /** `UnlockRange` of a live range; its assertion that every page has a count holds, and its loop ends. */
    method UnlockRange(base: nat, size: nat, ghost i: nat)
      requires Valid() && i < |live| && live[i] == Range(base, size)
      modifies this
      ensures Valid() && live == Without(old(live), i)
    {
      ghost var r := Range(base, size);
      UsersRemoved(live, i, pageSize);
      if size != 0 {
        var start := PageOf(base, pageSize);
        var end := PageOf(base + size - 1, pageSize);
        Aligned(base, pageSize);
        Aligned(base + size - 1, pageSize);
        PageOrder(base, base + size - 1, pageSize);
        UnlockPages(start, end, r);
      }
      live := Without(live, i);
    }

    method UnlockPages(start: nat, end: nat, ghost r: Range)
      requires Tidy() && start % pageSize == 0 && end % pageSize == 0 && start <= end && end + pageSize < SPACE
      requires r.size > 0 && start == PageOf(r.base, pageSize) && end == PageOf(r.base + r.size - 1, pageSize)
      requires forall p: nat :: Touches(r, p, pageSize) ==> CountOf(histogram, p) > 0
      modifies `histogram, `locked
      ensures Tidy() && Shifted(old(histogram), histogram, r, pageSize, end + pageSize, -1)
    {
      ghost var before := histogram;
      var page := start;
      ShiftedStart(before, r, pageSize, start, -1);
      while page <= end
        invariant Tidy() && page % pageSize == 0 && start <= page
        invariant ShiftedFolded(before, histogram, r, pageSize, page, -1)
        decreases end + pageSize - page
      {
        ghost var was := histogram;
        LastPage(page, end, pageSize);
        StillCounted(before, histogram, r, pageSize, page);
        UnlockPage(page);
        ShiftedStep(before, was, histogram, r, pageSize, page, -1);
        page := NextPageNumber(page, pageSize);
      }
      ShiftedDone(before, histogram, r, pageSize, page, end, -1);
    }
  }

  /** Adding the page size on 64 bits. */
  function NextPageNumber(page: nat, pageSize: nat): (next: nat)
    ensures page + pageSize < SPACE ==> next == page + pageSize
    ensures page + pageSize == SPACE ==> next == 0
  {
    (page + pageSize) % 0x1_0000_0000_0000_0000
  }

  /** The counts of the touched pages below a bound have changed by one, all others not. */
  ghost predicate Shifted(before: map<nat, int>, now: map<nat, int>, r: Range, pageSize: nat, bound: nat, delta: int)
    requires pageSize > 0
  {
    forall p: nat {:trigger CountOf(now, p)} ::
      CountOf(now, p) == CountOf(before, p) + if Touches(r, p, pageSize) && p < bound then delta else 0
  }

  ghost predicate ShiftedFolded(before: map<nat, int>, now: map<nat, int>, r: Range, pageSize: nat, bound: nat,
                                delta: int)
    requires pageSize > 0
  {
    forall z {:trigger Inside(z)} :: Inside(z) ==> Shifted(before, now, r, pageSize, bound, delta)
  }

  /** Below the first page nothing is touched. */
  lemma ShiftedStart(before: map<nat, int>, r: Range, pageSize: nat, start: nat, delta: int)
    requires pageSize > 0 && start == PageOf(r.base, pageSize)
    ensures ShiftedFolded(before, before, r, pageSize, start, delta)
  {
    forall p: nat ensures !(Touches(r, p, pageSize) && p < start) {}
    assert Shifted(before, before, r, pageSize, start, delta);
  }

  lemma ShiftedStep(before: map<nat, int>, was: map<nat, int>, now: map<nat, int>, r: Range, pageSize: nat, page: nat,
                    delta: int)
    requires pageSize > 0 && page % pageSize == 0 && ShiftedFolded(before, was, r, pageSize, page, delta)
    requires Touches(r, page, pageSize)
    requires forall p: nat :: CountOf(now, p) == CountOf(was, p) + if p == page then delta else 0
    ensures ShiftedFolded(before, now, r, pageSize, page + pageSize, delta)
  {
    assert Inside(0);
    NextPage(r, page, pageSize);
    forall p: nat
      ensures CountOf(now, p) ==
              CountOf(before, p) + if Touches(r, p, pageSize) && p < page + pageSize then delta else 0
    {
      assert CountOf(was, p) == CountOf(before, p) + if Touches(r, p, pageSize) && p < page then delta else 0;
    }
  }

  /** Past the last page everything touched has changed. */
  lemma ShiftedDone(before: map<nat, int>, now: map<nat, int>, r: Range, pageSize: nat, page: nat, end: nat, delta: int)
    requires pageSize > 0 && r.size > 0 && end == PageOf(r.base + r.size - 1, pageSize) && end < page
    requires ShiftedFolded(before, now, r, pageSize, page, delta)
    ensures Shifted(before, now, r, pageSize, end + pageSize, delta)
  {
    assert Inside(0);
  }

  lemma StillCounted(before: map<nat, int>, now: map<nat, int>, r: Range, pageSize: nat, page: nat)
    requires pageSize > 0 && Touches(r, page, pageSize) && ShiftedFolded(before, now, r, pageSize, page, -1)
    requires forall p: nat :: Touches(r, p, pageSize) ==> CountOf(before, p) > 0
    ensures CountOf(now, page) > 0
  {
    assert Inside(0);
    assert CountOf(now, page) == CountOf(before, page);
  }

  /** The page number after k rounds of the loop. */
  function PageAfter(start: nat, pageSize: nat, k: nat): nat {
    (start + k * pageSize) % 0x1_0000_0000_0000_0000
  }

  /** The loop from page start leaves the last page end behind exactly when end is not the last page there is. */
  lemma LoopEndsIff(start: nat, end: nat, pageSize: nat)
    requires PageSize(pageSize) && start % pageSize == 0 && end % pageSize == 0 && start <= end < SPACE
    ensures (exists k :: PageAfter(start, pageSize, k) > end) <==> end + pageSize < SPACE
  {
    if end + pageSize < SPACE {
      var p, q := start / pageSize, end / pageSize;
      assert start == p * pageSize && end == q * pageSize;
      if q < p { MulMono(q + 1, p, pageSize); DistributeRight(q, 1, pageSize); }
      var k: nat := q - p + 1;
      DistributeRight(p, k, pageSize);
      DistributeRight(q, 1, pageSize);
      assert PageAfter(start, pageSize, k) == end + pageSize;
    } else {
      forall k: nat ensures PageAfter(start, pageSize, k) <= end { NeverPast(start, end, pageSize, k); }
    }
  }

  lemma NeverPast(start: nat, end: nat, pageSize: nat, k: nat)
    requires PageSize(pageSize) && start % pageSize == 0 && end % pageSize == 0 && end < SPACE <= end + pageSize
    ensures PageAfter(start, pageSize, k) <= end
  {
    var x := PageAfter(start, pageSize, k);
    var total := start + k * pageSize;
    ModAddMultiple(start, k, pageSize);
    var n := total / 0x1_0000_0000_0000_0000;
    assert x == total - n * 0x1_0000_0000_0000_0000;
    MultipleLess(total, n, 0x1_0000_0000_0000_0000, pageSize);
    if x > end { BetweenPages(end, x, pageSize); }
  }

  lemma MultipleLess(a: int, n: int, space: int, d: int)
    requires d > 0 && a % d == 0 && space % d == 0
    ensures (a - n * space) % d == 0
  {
    var p, q := a / d, space / d;
    assert a == p * d && space == q * d;
    MulAssoc(n, q, d);
    DistributeRight(p - n * q, n * q, d);
    ModOfMultiple(p - n * q, d);
  }

  lemma BetweenPages(a: int, b: int, d: int)
    requires d > 0 && a % d == 0 && b % d == 0 && a < b
    ensures a + d <= b
  {
    var q := b / d;
    assert b == q * d;
    RoundedBelow(a, d, q);
  }

  /** From a page no later than the last one touched, the next page is one further on, or 0. */
  lemma LastPage(page: nat, end: nat, pageSize: nat)
    requires PageSize(pageSize) && page % pageSize == 0 && end % pageSize == 0 && page <= end < SPACE
    ensures page + pageSize <= SPACE && (page + pageSize) % pageSize == 0
    ensures page < end ==> page + pageSize <= end
    ensures page + pageSize == SPACE <==> page == end && end + pageSize == SPACE
  {
    BetweenPages(page, SPACE, pageSize);
    NextPage(Range(0, 0), page, pageSize);
    if page < end { BetweenPages(page, end, pageSize); }
  }

  lemma PageOrder(a: nat, b: nat, pageSize: nat)
    requires pageSize > 0 && a <= b < SPACE
    ensures PageOf(a, pageSize) <= PageOf(b, pageSize) < SPACE
  {
    var p, q := a / pageSize, b / pageSize;
    assert PageOf(a, pageSize) == p * pageSize && PageOf(b, pageSize) == q * pageSize;
    assert a == p * pageSize + a % pageSize && b == q * pageSize + b % pageSize;
    if q < p { MulMono(q + 1, p, pageSize); DistributeRight(q, 1, pageSize); }
    MulMono(p, q, pageSize);
  }

  lemma Aligned(a: nat, pageSize: nat)
    requires pageSize > 0
    ensures PageOf(a, pageSize) % pageSize == 0
  {
    var q := a / pageSize;
    assert PageOf(a, pageSize) == q * pageSize;
    ModOfMultiple(q, pageSize);
  }

  /** After a page comes the next: no page lies between. */
  lemma NextPage(r: Range, page: nat, pageSize: nat)
    requires pageSize > 0 && page % pageSize == 0
    ensures (page + pageSize) % pageSize == 0
    ensures forall p: nat {:trigger Touches(r, p, pageSize)} :: Touches(r, p, pageSize) ==>
            (p < page + pageSize <==> p <= page)
  {
    var k := page / pageSize;
    assert page == k * pageSize;
    DistributeRight(k, 1, pageSize);
    ModOfMultiple(k + 1, pageSize);
    forall p: nat | Touches(r, p, pageSize) && p < page + pageSize ensures p <= page {
      RoundedBelow(p, pageSize, k + 1);
    }
  }

  lemma UsersAdded(live: seq<Range>, r: Range, pageSize: nat)
    requires pageSize > 0
    ensures forall p {:trigger Users(live + [r], p, pageSize)} ::
              Users(live + [r], p, pageSize) == Users(live, p, pageSize) + if Touches(r, p, pageSize) then 1 else 0
  {
    assert (live + [r])[..|live|] == live;
  }

  lemma UsersRemoved(live: seq<Range>, i: nat, pageSize: nat)
    requires pageSize > 0 && i < |live|
    ensures forall p {:trigger Users(Without(live, i), p, pageSize)} {:trigger Users(live, p, pageSize)} ::
              Users(Without(live, i), p, pageSize) + (if Touches(live[i], p, pageSize) then 1 else 0) ==
              Users(live, p, pageSize)
  {
    forall p: nat
      ensures Users(Without(live, i), p, pageSize) + (if Touches(live[i], p, pageSize) then 1 else 0) ==
              Users(live, p, pageSize)
    {
      UsersWithout(live, i, p, pageSize);
    }
  }

  // ----- runs -----

  datatype Op = Lock(r: Range) | Unlock(i: nat)

  /** The live ranges after the first n operations; unlocking names a live range by its place. */
  function LiveAfter(ops: seq<Op>, n: nat): seq<Range>
    requires n <= |ops|
  {
    if n == 0 then [] else
      var before := LiveAfter(ops, n - 1);
      match ops[n - 1]
      case Lock(r) => before + [r]
      case Unlock(i) => if i < |before| then Without(before, i) else before
  }

  /** Every range that is locked lies in the address space, and the loop on it ends. */
  ghost predicate AllEnd(ops: seq<Op>, n: nat, pageSize: nat)
    requires n <= |ops| && pageSize > 0
  {
    forall k :: 0 <= k < n && ops[k].Lock? ==> Ends(ops[k].r, pageSize)
  }

  /** Any run: it gets stuck exactly at a range that reaches the last page, and otherwise the operating
      system keeps locked exactly the pages some live range touches. */
  method RunOps(pageSize: nat, ops: seq<Op>) returns (ended: bool, locked: set<nat>)
    requires PageSize(pageSize) && forall k :: 0 <= k < |ops| && ops[k].Lock? ==> InSpace(ops[k].r)
    ensures ended <==> AllEnd(ops, |ops|, pageSize)
    ensures ended ==> var live := LiveAfter(ops, |ops|);
                      forall page :: page in locked <==> exists i :: 0 <= i < |live| && Touches(live[i], page, pageSize)
  {
    var m := new Manager(pageSize);
    var live: seq<Range> := [];
    for n := 0 to |ops|
      invariant fresh(m) && m.Valid() && m.pageSize == pageSize && m.live == live == LiveAfter(ops, n)
      invariant AllEnd(ops, n, pageSize)
    {
      match ops[n] {
        case Lock(r) =>
          var ends := m.LockRange(r.base, r.size);
          if !ends {
            return false, {};
          }
          live := live + [r];
        case Unlock(i) =>
          if i < |live| {
            m.UnlockRange(live[i].base, live[i].size, i);
            live := Without(live, i);
          }
      }
    }
    ended, locked := true, m.locked;
    forall page: nat ensures page in locked <==> exists i :: 0 <= i < |live| && Touches(live[i], page, pageSize) {
      SomeUser(live, page, pageSize);
      assert CountOf(m.histogram, page) == Users(live, page, pageSize);
    }
  }
}
