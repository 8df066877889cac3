/** Saving the address manager to peers.dat and loading it into a fresh one. Ids are not
    stored: entries are renumbered, the tried table and the random order are rebuilt. */
module AddrSerialize {
  import opened Folding
  import opened AddrState
  import opened AddrLoad
  import opened AddrManager
  import AddrCheck

  // ----- writing -----

  /** Referenced ids below n, ascending: the order in which `mapInfo` is walked. */
  ghost function NewBelow(s: State, n: nat): seq<int> {
    if n == 0 then [] else
      NewBelow(s, n - 1) + if n - 1 in s.info && s.info[n - 1].refCount != 0 then [n - 1] else []
  }

  ghost function TriedBelow(s: State, n: nat): seq<int> {
    if n == 0 then [] else
      TriedBelow(s, n - 1) + if n - 1 in s.info && s.info[n - 1].inTried then [n - 1] else []
  }

  /** The number an id is given in the stream. */
  ghost function Index(s: State, id: nat): nat {
    |NewBelow(s, id)|
  }

  /** The indices of the occupants of the first i positions of a bucket. */
  ghost function BucketBelow(s: State, b: nat, i: nat): seq<int>
  {
    if i == 0 then [] else
      BucketBelow(s, b, i - 1) +
      if Slot(b, i - 1) in s.news && s.news[Slot(b, i - 1)] >= 0 then [Index(s, s.news[Slot(b, i - 1)])] else []
  }

  ghost function StoredAll(s: State, ids: seq<int>): seq<Stored>
    requires forall i :: 0 <= i < |ids| ==> ids[i] in s.info
  {
    seq(|ids|, i requires 0 <= i < |ids| => ToStored(s.info[ids[i]]))
  }

  lemma {:induction false} BelowListed(s: State, n: nat)
    ensures forall i :: 0 <= i < |NewBelow(s, n)| ==>
              var id := NewBelow(s, n)[i]; 0 <= id < n && id in s.info && s.info[id].refCount != 0 && Index(s, id) == i
    ensures forall i :: 0 <= i < |TriedBelow(s, n)| ==>
              var id := TriedBelow(s, n)[i];
              0 <= id < n && id in s.info && s.info[id].inTried && |TriedBelow(s, id)| == i
  {
    if n > 0 {
      BelowListed(s, n - 1);
    }
  }

  /** Every referenced id below n is listed, at its index. */
  lemma {:induction false} NewListed(s: State, n: nat, id: nat)
    requires id < n && id in s.info && s.info[id].refCount != 0
    ensures Index(s, id) < |NewBelow(s, n)| && NewBelow(s, n)[Index(s, id)] == id
  {
    if id < n - 1 {
      NewListed(s, n - 1, id);
    }
  }

  lemma {:induction false} TriedListed(s: State, n: nat, id: nat)
    requires id < n && id in s.info && s.info[id].inTried
    ensures |TriedBelow(s, id)| < |TriedBelow(s, n)| && TriedBelow(s, n)[|TriedBelow(s, id)|] == id
  {
    if id < n - 1 {
      TriedListed(s, n - 1, id);
    }
  }

  /** The lists below n are as long as there are ids of their kind below n. */
  lemma {:induction false} BelowCount(s: State, n: nat) returns (news: set<int>, trieds: set<int>)
    ensures |news| == |NewBelow(s, n)| &&
            forall id :: id in news <==> 0 <= id < n && id in s.info && s.info[id].refCount != 0
    ensures |trieds| == |TriedBelow(s, n)| &&
            forall id :: id in trieds <==> 0 <= id < n && id in s.info && s.info[id].inTried
  {
    if n == 0 {
      news, trieds := {}, {};
    } else {
      news, trieds := BelowCount(s, n - 1);
      if n - 1 in s.info && s.info[n - 1].refCount != 0 {
        news := news + {n - 1};
      }
      if n - 1 in s.info && s.info[n - 1].inTried {
        trieds := trieds + {n - 1};
      }
    }
  }

  /** The counters are the lengths of the complete lists, and exceed those of partial lists
      that still miss an id: the assertions of `Serialize`. */
  lemma ListLengths(h: Hashes, s: State)
    requires Inv(h, s)
    ensures s.idCount >= 0 && |NewBelow(s, s.idCount)| == s.nNew && |TriedBelow(s, s.idCount)| == s.nTried
    ensures forall id {:trigger s.info[id].refCount} :: id in s.info ==>
            0 <= id < s.idCount && (s.info[id].inTried <==> s.info[id].refCount == 0)
  {
    OpenCore(h, s, 0, 0, {});
    forall id | id in s.info ensures 0 <= id < s.idCount && (s.info[id].inTried <==> s.info[id].refCount == 0) {
      assert s.info[id].refCount == |Refs(s.news, id)|;
      if s.info[id].inTried { AddrCheck.TriedUnreferenced(h, s, id); }
    }
    var news, trieds := BelowCount(s, s.idCount);
    forall id ensures id in news <==> id in NewIds(s) {}
    forall id ensures id in trieds <==> id in TriedIds(s) {}
    assert news == NewIds(s) && trieds == TriedIds(s);
  }

  lemma {:induction false} BelowMonotone(s: State, m: nat, n: nat)
    requires m <= n
    ensures NewBelow(s, m) <= NewBelow(s, n) && TriedBelow(s, m) <= TriedBelow(s, n)
  {
    if m < n {
      BelowMonotone(s, m, n - 1);
    }
  }

  /** What `Serialize` writes. */
  ghost function Saved(h: Hashes, s: State): Peers
    requires Inv(h, s)
  {
    ListLengths(h, s);
    BelowListed(s, s.idCount);
    Peers(1, KEY_SIZE, s.key, s.nNew, s.nTried, NEW_BUCKET_COUNT + BUCKETS_FLAG,
          StoredAll(s, NewBelow(s, s.idCount)), StoredAll(s, TriedBelow(s, s.idCount)),
          seq(NEW_BUCKET_COUNT, b requires 0 <= b < NEW_BUCKET_COUNT => BucketBelow(s, b, BUCKET_SIZE)))
  }

  // ----- loading what was saved -----

  /** The first n entries of `order` are in place: position i holds entry order[i] under id i,
      and those from `cut` on are tried. */
  ghost predicate Placed(t: State, order: seq<int>, cut: int, n: nat, u: State)
    requires n <= |order| && forall i :: 0 <= i < |order| ==> order[i] in t.info
  {
    u.key == t.key && |u.random| == n &&
    (forall i {:trigger u.random[i]} :: 0 <= i < n ==> u.random[i] == i) &&
    (forall j {:trigger j in u.info} :: j in u.info <==> 0 <= j < n) &&
    (forall i {:trigger u.info[i]} :: 0 <= i < n ==> Copied(t.info[order[i]], u.info[i], i, i >= cut)) &&
    (forall i {:trigger order[i]} :: 0 <= i < n ==>
      t.info[order[i]].addr.service.ip in u.byAddr && u.byAddr[t.info[order[i]].addr.service.ip] == i) &&
    (forall ip {:trigger u.byAddr[ip]} :: ip in u.byAddr ==>
      0 <= u.byAddr[ip] < n && t.info[order[u.byAddr[ip]]].addr.service.ip == ip)
  }

  /** The loaded copy of an entry, up to its reference count. */
  ghost predicate Copied(a: Info, b: Info, pos: int, inTried: bool) {
    b == a.(lastTry := 0, randomPos := pos, inTried := inTried, refCount := b.refCount)
  }

  /** Distinct entries have distinct network addresses. */
  ghost predicate Distinct(t: State, order: seq<int>) {
    (forall i :: 0 <= i < |order| ==> order[i] in t.info) &&
    (forall i, j :: 0 <= i < j < |order| ==> t.info[order[i]].addr.service.ip != t.info[order[j]].addr.service.ip)
  }

  lemma AppendPlaces(t: State, order: seq<int>, cut: int, n: nat, u: State, i: Info, v: State)
    requires n < |order| && Distinct(t, order) && Placed(t, order, cut, n, u)
    requires i == FromStored(ToStored(t.info[order[n]])).(inTried := n >= cut) && v == Append(u, n, i)
    ensures Placed(t, order, cut, n + 1, v)
  {
    var ip := i.addr.service.ip;
    assert ip == t.info[order[n]].addr.service.ip;
    forall k | 0 <= k < n + 1
      ensures t.info[order[k]].addr.service.ip in v.byAddr && v.byAddr[t.info[order[k]].addr.service.ip] == k
    {
      if k < n { assert t.info[order[k]].addr.service.ip in u.byAddr; }
    }
    forall x | x in v.byAddr ensures 0 <= v.byAddr[x] < n + 1 && t.info[order[v.byAddr[x]]].addr.service.ip == x {
      if x != ip { assert 0 <= u.byAddr[x] < n; }
    }
    forall k | 0 <= k < n + 1 ensures Copied(t.info[order[k]], v.info[k], k, k >= cut) {
      if k < n { assert Copied(t.info[order[k]], u.info[k], k, k >= cut); }
    }
  }

  /** The tried entries placed so far sit in their slots, and nothing else does. */
  ghost predicate Seats(h: Hashes, t: State, order: seq<int>, cut: nat, n: nat, u: State)
    requires n <= |order| && forall i :: 0 <= i < |order| ==> order[i] in t.info
  {
    (forall sl {:trigger u.tried[sl]} :: sl in u.tried ==>
      cut <= u.tried[sl] < n && sl == TriedSlot(h, t.key, t.info[order[u.tried[sl]]].addr.service)) &&
    (forall i {:trigger order[i]} :: cut <= i < n ==>
      TriedSlot(h, t.key, t.info[order[i]].addr.service) in u.tried &&
      u.tried[TriedSlot(h, t.key, t.info[order[i]].addr.service)] == i)
  }

  lemma SeatsStep(h: Hashes, t: State, order: seq<int>, cut: nat, n: nat, u: State, v: State)
    requires cut <= n < |order| && Distinct(t, order) && Seats(h, t, order, cut, n, u) && TriedOk(h, t)
    requires forall i :: cut <= i < |order| ==> t.info[order[i]].inTried
    requires v.tried == u.tried[TriedSlot(h, t.key, t.info[order[n]].addr.service) := n]
    ensures TriedSlot(h, t.key, t.info[order[n]].addr.service) !in u.tried
    ensures Seats(h, t, order, cut, n + 1, v)
  {
    var sl := TriedSlot(h, t.key, t.info[order[n]].addr.service);
    forall k | cut <= k < n ensures TriedSlot(h, t.key, t.info[order[k]].addr.service) != sl {
      var a, b := order[k], order[n];
      assert t.info[a].inTried && t.info[b].inTried;
      assert t.tried[TriedSlot(h, t.key, t.info[a].addr.service)] == a;
      assert t.tried[TriedSlot(h, t.key, t.info[b].addr.service)] == b;
      assert t.info[a].addr.service.ip != t.info[b].addr.service.ip;
    }
    forall x | x in u.tried ensures x != sl {
      assert cut <= u.tried[x] < n;
    }
    forall x | x in v.tried
      ensures cut <= v.tried[x] < n + 1 && x == TriedSlot(h, t.key, t.info[order[v.tried[x]]].addr.service)
    {
      if x != sl { assert cut <= u.tried[x] < n; }
    }
    forall i | cut <= i < n + 1
      ensures TriedSlot(h, t.key, t.info[order[i]].addr.service) in v.tried &&
              v.tried[TriedSlot(h, t.key, t.info[order[i]].addr.service)] == i
    {
      if i < n { assert TriedSlot(h, t.key, t.info[order[i]].addr.service) in u.tried; }
    }
  }

  /** The entries in the order they are stored: referenced ones, then tried ones. */
  ghost function Order(h: Hashes, t: State): seq<int>
    requires Inv(h, t)
  {
    ListLengths(h, t);
    NewBelow(t, t.idCount) + TriedBelow(t, t.idCount)
  }

  lemma OrderFacts(h: Hashes, t: State)
    requires Inv(h, t)
    ensures |Order(h, t)| == t.nNew + t.nTried && t.nNew >= 0 && t.nTried >= 0
    ensures Distinct(t, Order(h, t))
    ensures forall i :: 0 <= i < |Order(h, t)| ==> (t.info[Order(h, t)[i]].inTried <==> i >= t.nNew)
  {
    ListLengths(h, t);
    BelowListed(t, t.idCount);
    var order, news, trieds := Order(h, t), NewBelow(t, t.idCount), TriedBelow(t, t.idCount);
    forall i | 0 <= i < |order| ensures order[i] in t.info && (t.info[order[i]].inTried <==> i >= t.nNew) {
      if i < |news| {
        assert order[i] == news[i];
        assert t.info[news[i]].refCount != 0;
      } else {
        assert order[i] == trieds[i - |news|];
      }
    }
    OpenCore(h, t, 0, 0, {});
    forall i, j | 0 <= i < j < |order| ensures t.info[order[i]].addr.service.ip != t.info[order[j]].addr.service.ip {
      assert order[i] != order[j] by {
        if j < |news| {
          assert Index(t, news[i]) == i && Index(t, news[j]) == j;
        } else if i >= |news| {
          assert |TriedBelow(t, trieds[i - |news|])| == i - |news| && |TriedBelow(t, trieds[j - |news|])| == j - |news|;
        } else {
          assert !t.info[order[i]].inTried && t.info[order[j]].inTried;
        }
      }
      assert t.byAddr[t.info[order[i]].addr.service.ip] == order[i];
      assert t.byAddr[t.info[order[j]].addr.service.ip] == order[j];
    }
  }

  /** A saved manager: t, its entries in stored order, and the stream. */
  ghost predicate Source(h: Hashes, t: State, order: seq<int>, p: Peers) {
    0 <= t.nNew <= |order| == t.nNew + t.nTried && Distinct(t, order) && TriedOk(h, t) &&
    (forall i :: t.nNew <= i < |order| ==> t.info[order[i]].inTried) &&
    p.key == t.key && p.nNew == t.nNew && p.nTried == t.nTried && Usable(p) &&
    |p.news| == t.nNew && |p.trieds| == t.nTried &&
    (forall i :: 0 <= i < t.nNew ==> p.news[i] == ToStored(t.info[order[i]])) &&
    (forall i :: 0 <= i < t.nTried ==> p.trieds[i] == ToStored(t.info[order[t.nNew + i]]))
  }

  lemma SavedSource(h: Hashes, t: State)
    requires Inv(h, t)
    ensures Source(h, t, Order(h, t), Saved(h, t))
    ensures BucketCount(Saved(h, t)) == NEW_BUCKET_COUNT
  {
    OrderFacts(h, t);
    ListLengths(h, t);
    assert TriedOk(h, t) by { OpenCore(h, t, 0, 0, {}); }
    assert (NEW_BUCKET_COUNT + BUCKETS_FLAG) / BUCKETS_FLAG == 1;
    var order, p := Order(h, t), Saved(h, t);
    forall i | 0 <= i < t.nTried ensures p.trieds[i] == ToStored(t.info[order[t.nNew + i]]) {
      assert order[t.nNew + i] == TriedBelow(t, t.idCount)[i];
    }
  }

  /** The first n entries are in place, and nothing is in either table. */
  ghost predicate Early(t: State, order: seq<int>, n: nat, u: State)
    requires n <= |order| && forall i :: 0 <= i < |order| ==> order[i] in t.info
  {
    Placed(t, order, t.nNew, n, u) && u.tried == map[] && u.news == map[] &&
    u.nNew == t.nNew && u.nTried == t.nTried &&
    forall i {:trigger u.info[i]} :: 0 <= i < n ==> u.info[i].refCount == 0
  }

  lemma EarlyStep(h: Hashes, t: State, order: seq<int>, n: nat, u: State, e: Stored)
    requires n < t.nNew <= |order| && Distinct(t, order) && Early(t, order, n, u)
    requires e == ToStored(t.info[order[n]])
    ensures Early(t, order, n + 1, LoadNew(h, u, n, e, true))
  {
    AppendPlaces(t, order, t.nNew, n, u, FromStored(e), Append(u, n, FromStored(e)));
    var v := LoadNew(h, u, n, e, true);
    forall i | 0 <= i < n + 1 ensures v.info[i].refCount == 0 {
      if i < n { assert u.info[i].refCount == 0; }
    }
  }

  lemma EarlyStart(t: State, order: seq<int>, p: Peers)
    requires p.key == t.key && p.nNew == t.nNew && p.nTried == t.nTried && Distinct(t, order)
    ensures Early(t, order, 0, Header(p))
  {
  }

  lemma {:induction false} LoadNewsPlaces(h: Hashes, t: State, order: seq<int>, p: Peers, n: nat)
    requires Source(h, t, order, p) && n <= t.nNew
    ensures Early(t, order, n, LoadNews(h, Header(p), p, n))
  {
    if n == 0 {
      EarlyStart(t, order, p);
    } else {
      LoadNewsPlaces(h, t, order, p, n - 1);
      var u := LoadNews(h, Header(p), p, n - 1);
      assert p.news[n - 1] == ToStored(t.info[order[n - 1]]);
      EarlyStep(h, t, order, n - 1, u, p.news[n - 1]);
    }
  }

  /** The first m entries are in place and no reference is yet. */
  ghost predicate Stage(h: Hashes, t: State, order: seq<int>, m: nat, u: State)
    requires 0 <= t.nNew && m <= |order| && forall i :: 0 <= i < |order| ==> order[i] in t.info
  {
    Placed(t, order, t.nNew, m, u) && Seats(h, t, order, t.nNew, m, u) &&
    u.news == map[] && u.nNew == t.nNew && u.nTried == t.nTried && u.idCount == m &&
    forall i {:trigger u.info[i]} :: 0 <= i < m ==> u.info[i].refCount == 0
  }

  /** `Stage`, kept folded. */
  ghost predicate Staged(h: Hashes, t: State, order: seq<int>, m: nat, u: State)
    requires 0 <= t.nNew && m <= |order| && forall i :: 0 <= i < |order| ==> order[i] in t.info
  {
    forall z {:trigger Inside(z)} :: Inside(z) ==> Stage(h, t, order, m, u)
  }

  lemma {:induction false} LoadTriedsPlaces(h: Hashes, t: State, order: seq<int>, p: Peers, u0: State, n: nat, m: nat)
    requires Source(h, t, order, p) && n <= t.nTried && m == t.nNew + n
    requires u0 == LoadNews(h, Header(p), p, t.nNew).(idCount := t.nNew)
    ensures Staged(h, t, order, m, LoadTrieds(h, u0, p, n))
  {
    if n == 0 {
      StageStart(h, t, order, p, m);
    } else {
      var k, l := n - 1, m - 1;
      LoadTriedsPlaces(h, t, order, p, u0, k, l);
      assert p.trieds[k] == ToStored(t.info[order[t.nNew + k]]);
      StageStep(h, t, order, l, LoadTrieds(h, u0, p, k), p.trieds[k], m);
      assert LoadTrieds(h, u0, p, n) == LoadTried(h, LoadTrieds(h, u0, p, k), p.trieds[k]);
    }
  }

  lemma StageStart(h: Hashes, t: State, order: seq<int>, p: Peers, m: nat)
    requires Source(h, t, order, p) && m == t.nNew
    ensures Staged(h, t, order, m, LoadNews(h, Header(p), p, t.nNew).(idCount := t.nNew))
  {
    LoadNewsPlaces(h, t, order, p, t.nNew);
  }

  lemma StageStep(h: Hashes, t: State, order: seq<int>, l: nat, u: State, e: Stored, m: nat)
    requires 0 <= t.nNew <= l < |order| && Distinct(t, order) && TriedOk(h, t) && m == l + 1
    requires forall i :: t.nNew <= i < |order| ==> t.info[order[i]].inTried
    requires Staged(h, t, order, l, u) && e == ToStored(t.info[order[l]])
    ensures Staged(h, t, order, m, LoadTried(h, u, e))
  {
    assert Inside(0);
    LoadTriedStep(h, t, order, l, u, e);
    var v := LoadTried(h, u, e);
    forall i | 0 <= i < m ensures v.info[i].refCount == 0 {
      if i < l { assert u.info[i].refCount == 0; }
    }
  }

  lemma LoadTriedStep(h: Hashes, t: State, order: seq<int>, m: nat, u: State, e: Stored)
    requires 0 <= t.nNew <= m < |order| && Distinct(t, order) && TriedOk(h, t)
    requires forall i :: t.nNew <= i < |order| ==> t.info[order[i]].inTried
    requires Placed(t, order, t.nNew, m, u) && Seats(h, t, order, t.nNew, m, u) && u.idCount == m
    requires e == ToStored(t.info[order[m]])
    ensures var v := LoadTried(h, u, e);
            Placed(t, order, t.nNew, m + 1, v) && Seats(h, t, order, t.nNew, m + 1, v) &&
            v.news == u.news && v.nNew == u.nNew && v.nTried == u.nTried && v.idCount == m + 1 &&
            v.info == u.info[m := FromStored(e).(inTried := true, randomPos := |u.random|)]
  {
    var sl := TriedSlot(h, t.key, t.info[order[m]].addr.service);
    var i := FromStored(e).(inTried := true);
    var w := u.(tried := u.tried[sl := m]);
    SeatsStep(h, t, order, t.nNew, m, u, w);
    AppendPlaces(t, order, t.nNew, m, u, i, Append(u, m, i));
    var v := LoadTried(h, u, e);
    assert v.tried == w.tried;
    assert v == Append(u, m, i).(tried := v.tried, idCount := m + 1);
  }

  /** The part of the new table before cell (b, k) is back, under the new ids. */
  ghost predicate Refilled(t: State, b: int, k: int, u: State) {
    (forall sl {:trigger u.news[sl]} {:trigger t.news[sl]} :: sl in u.news <==>
      sl in t.news && AddrCheck.Before(sl, b, k)) &&
    (forall sl {:trigger u.news[sl]} :: sl in u.news ==>
      sl in t.news && t.news[sl] >= 0 && u.news[sl] == Index(t, t.news[sl])) &&
    (forall i {:trigger u.info[i].refCount} :: i in u.info ==> u.info[i].refCount == |Refs(u.news, i)|)
  }

  /** References of index i in the reloaded table are references of the entry it stands for. */
  lemma RefsFewer(h: Hashes, t: State, b: int, k: int, u: State, id: int, sl: Slot)
    requires Inv(h, t) && Refilled(t, b, k, u) && id in t.info && id >= 0 && t.info[id].refCount != 0
    requires sl in t.news && t.news[sl] == id && !AddrCheck.Before(sl, b, k)
    ensures |Refs(u.news, Index(t, id))| < t.info[id].refCount <= NEW_BUCKETS_PER_ADDRESS
  {
    OpenCore(h, t, 0, 0, {});
    ListLengths(h, t);
    forall x | x in Refs(u.news, Index(t, id)) ensures x in Refs(t.news, id) - {sl} {
      assert x in u.news && u.news[x] == Index(t, t.news[x]);
      SameIndex(h, t, t.news[x], id, x);
    }
    AddrCheck.SubsetSize(Refs(u.news, Index(t, id)), Refs(t.news, id) - {sl});
    assert sl in Refs(t.news, id);
    assert t.info[id].refCount == |Refs(t.news, id)|;
    assert !t.info[id].inTried;
  }

  /** Referenced ids with the same index are the same. */
  lemma SameIndex(h: Hashes, t: State, a: int, b: int, sl: Slot)
    requires Inv(h, t) && b in t.info && b >= 0 && t.info[b].refCount != 0
    requires sl in t.news && t.news[sl] == a && a >= 0 && Index(t, a) == Index(t, b)
    ensures a == b
  {
    OpenCore(h, t, 0, 0, {});
    assert FreshSlotOk(h, t, sl, a);
    assert sl in Refs(t.news, a);
    assert t.info[a].refCount == |Refs(t.news, a)|;
    ListLengths(h, t);
    NewListed(t, t.idCount, a);
    NewListed(t, t.idCount, b);
  }

  /** All entries are in place, and so are the references before cell (b, k). */
  ghost predicate Rebuilt(h: Hashes, t: State, order: seq<int>, b: int, k: int, u: State) {
    0 <= t.nNew <= |order| && Distinct(t, order) &&
    Placed(t, order, t.nNew, |order|, u) && Seats(h, t, order, t.nNew, |order|, u) && Refilled(t, b, k, u) &&
    u.nNew == t.nNew && u.nTried == t.nTried && u.idCount == |order|
  }

  /** `Rebuilt`, kept folded. */
  ghost predicate Rebuild(h: Hashes, t: State, order: seq<int>, b: int, k: int, u: State) {
    forall z {:trigger Inside(z)} :: Inside(z) ==> Rebuilt(h, t, order, b, k, u)
  }

  lemma RebuildStart(h: Hashes, t: State, order: seq<int>, u: State)
    requires Inv(h, t) && order == Order(h, t) && 0 <= t.nNew <= |order| && Distinct(t, order)
    requires Staged(h, t, order, |order|, u)
    ensures Rebuild(h, t, order, 0, 0, u)
  {
    assert Inside(0);
    assert Refilled(t, 0, 0, u) by {
      forall sl | sl in t.news ensures !AddrCheck.Before(sl, 0, 0) {
        assert FreshSlotOk(h, t, sl, t.news[sl]) by { OpenCore(h, t, 0, 0, {}); }
      }
      forall i | i in u.info ensures u.info[i].refCount == |Refs(u.news, i)| {
        assert Refs(u.news, i) == {};
      }
    }
  }

  /** The next bucket starts where this one ends. */
  lemma RebuildRow(h: Hashes, t: State, order: seq<int>, b: nat, c: nat, u: State)
    requires Inv(h, t) && Rebuild(h, t, order, b, BUCKET_SIZE, u) && c == b + 1
    ensures Rebuild(h, t, order, c, 0, u)
  {
    OpenCore(h, t, 0, 0, {});
    assert Inside(0);
    forall sl | sl in t.news ensures AddrCheck.Before(sl, b, BUCKET_SIZE) <==> AddrCheck.Before(sl, c, 0) {
      assert FreshSlotOk(h, t, sl, t.news[sl]);
    }
    assert Refilled(t, c, 0, u);
  }

  lemma RebuildSkip(h: Hashes, t: State, order: seq<int>, b: nat, k: nat, l: nat, u: State)
    requires Rebuild(h, t, order, b, k, u) && Slot(b, k) !in t.news && l == k + 1
    ensures Rebuild(h, t, order, b, l, u)
  {
    assert Inside(0);
    forall sl | sl in t.news ensures AddrCheck.Before(sl, b, k) <==> AddrCheck.Before(sl, b, l) {
      assert sl != Slot(b, k);
    }
    assert Refilled(t, b, l, u);
  }

  /** What an occupied cell of the saved table says about its index. */
  lemma CellFacts(h: Hashes, t: State, order: seq<int>, sl: Slot)
    requires Inv(h, t) && order == Order(h, t) && sl in t.news
    ensures var id := t.news[sl];
            sl.bucket >= 0 && id >= 0 && id in t.info && t.info[id].refCount != 0 &&
            0 <= Index(t, id) < t.nNew <= |order| &&
            order[Index(t, id)] == id && sl.pos == Position(h, t.key, true, sl.bucket, t.info[id].addr.service)
  {
    OpenCore(h, t, 0, 0, {});
    var id := t.news[sl];
    assert FreshSlotOk(h, t, sl, id);
    ListLengths(h, t);
    assert t.info[id].refCount >= 1;
    NewListed(t, t.idCount, id);
  }

  lemma RebuildCell(h: Hashes, t: State, order: seq<int>, b: nat, k: nat, l: nat, u: State)
    requires Inv(h, t) && order == Order(h, t) && Rebuild(h, t, order, b, k, u) && Slot(b, k) in t.news && l == k + 1
    requires t.news[Slot(b, k)] >= 0
    ensures Rebuild(h, t, order, b, l, LoadRef(h, u, b, Index(t, t.news[Slot(b, k)]), true))
  {
    var sl := Slot(b, k);
    var id := t.news[sl];
    var i := Index(t, id);
    CellFacts(h, t, order, sl);
    assert i in u.info && u.info[i].addr == t.info[id].addr && u.info[i].refCount < NEW_BUCKETS_PER_ADDRESS &&
           u.key == t.key && u.nNew == t.nNew && sl !in u.news by {
      assert Inside(0);
      assert Copied(t.info[order[i]], u.info[i], i, i >= t.nNew);
      RefsFewer(h, t, b, k, u, id, sl);
    }
    var v := AddRef(u, i, sl);
    assert v == LoadRef(h, u, b, i, true);
    RebuildAdd(h, t, order, b, k, l, u, i, v);
  }

  lemma RebuildAdd(h: Hashes, t: State, order: seq<int>, b: nat, k: nat, l: nat, u: State, i: int, v: State)
    requires Rebuild(h, t, order, b, k, u) && Slot(b, k) in t.news && l == k + 1
    requires t.news[Slot(b, k)] >= 0 && i == Index(t, t.news[Slot(b, k)]) && i in u.info &&
             v == AddRef(u, i, Slot(b, k))
    ensures Rebuild(h, t, order, b, l, v)
  {
    assert Inside(0);
    RefillAdd(t, b, k, l, u, i, v);
    assert Placed(t, order, t.nNew, |order|, v) by { PlacedAdd(t, order, u, i, Slot(b, k), v); }
    assert Seats(h, t, order, t.nNew, |order|, v);
  }

  lemma PlacedAdd(t: State, order: seq<int>, u: State, i: int, sl: Slot, v: State)
    requires Distinct(t, order) && Placed(t, order, t.nNew, |order|, u) && i in u.info && v == AddRef(u, i, sl)
    ensures Placed(t, order, t.nNew, |order|, v)
  {
    forall j | 0 <= j < |order| ensures Copied(t.info[order[j]], v.info[j], j, j >= t.nNew) {
      assert Copied(t.info[order[j]], u.info[j], j, j >= t.nNew);
    }
  }

  lemma RefillAdd(t: State, b: nat, k: nat, l: nat, u: State, i: int, v: State)
    requires Refilled(t, b, k, u) && Slot(b, k) in t.news && l == k + 1
    requires t.news[Slot(b, k)] >= 0 && i == Index(t, t.news[Slot(b, k)]) && i in u.info &&
             v == AddRef(u, i, Slot(b, k))
    ensures Refilled(t, b, l, v)
  {
    var sl := Slot(b, k);
    assert sl !in u.news;
    forall x ensures x in v.news <==> x in t.news && AddrCheck.Before(x, b, l) {
      assert x == sl || (AddrCheck.Before(x, b, k) <==> AddrCheck.Before(x, b, l));
    }
    forall x | x in v.news ensures x in t.news && t.news[x] >= 0 && v.news[x] == Index(t, t.news[x]) {
      if x != sl { assert x in u.news && u.news[x] == Index(t, t.news[x]); }
    }
    forall j | j in v.info ensures v.info[j].refCount == |Refs(v.news, j)| {
      assert u.info[j].refCount == |Refs(u.news, j)|;
      if j == i {
        assert Refs(v.news, j) == Refs(u.news, j) + {sl};
      } else {
        assert Refs(v.news, j) == Refs(u.news, j);
      }
    }
  }

  /** Reading one bucket back. */
  lemma {:induction false} LoadRefsRebuild(h: Hashes, t: State, order: seq<int>, b: nat, k: nat, u: State)
    requires Inv(h, t) && order == Order(h, t) && Rebuild(h, t, order, b, 0, u)
    ensures Rebuild(h, t, order, b, k, LoadRefs(h, u, b, BucketBelow(t, b, k), true))
    decreases k
  {
    if k > 0 {
      var j := k - 1;
      LoadRefsRebuild(h, t, order, b, j, u);
      var list := BucketBelow(t, b, j);
      if Slot(b, j) in t.news {
        CellFacts(h, t, order, Slot(b, j));
        var x: int := Index(t, t.news[Slot(b, j)]);
        RebuildCell(h, t, order, b, j, k, LoadRefs(h, u, b, list, true));
        assert BucketBelow(t, b, k) == list + [x];
        assert (list + [x])[..|list + [x]| - 1] == list;
      } else {
        RebuildSkip(h, t, order, b, j, k, LoadRefs(h, u, b, list, true));
        assert BucketBelow(t, b, k) == list;
      }
    }
  }

  lemma BucketRebuild(h: Hashes, t: State, order: seq<int>, c: nat, b: nat, list: seq<int>, v: State)
    requires Inv(h, t) && order == Order(h, t) && Rebuild(h, t, order, c, 0, v) && b == c + 1
    requires list == BucketBelow(t, c, BUCKET_SIZE)
    ensures Rebuild(h, t, order, b, 0, LoadRefs(h, v, c, list, true))
  {
    LoadRefsRebuild(h, t, order, c, BUCKET_SIZE, v);
    RebuildRow(h, t, order, c, b, LoadRefs(h, v, c, list, true));
  }

  /** The buckets of the stream are those of t; kept folded. */
  ghost predicate StoredBuckets(t: State, p: Peers) {
    forall z {:trigger Inside(z)} :: Inside(z) ==>
      |p.buckets| == NEW_BUCKET_COUNT &&
      forall i :: 0 <= i < NEW_BUCKET_COUNT ==> p.buckets[i] == BucketBelow(t, i, BUCKET_SIZE)
  }

  lemma {:induction false} LoadBucketsRebuild(h: Hashes, t: State, order: seq<int>, p: Peers, b: nat, u: State)
    requires Inv(h, t) && order == Order(h, t) && Rebuild(h, t, order, 0, 0, u) && Usable(p)
    requires b <= NEW_BUCKET_COUNT == |p.buckets| && StoredBuckets(t, p)
    ensures Rebuild(h, t, order, b, 0, LoadBuckets(h, u, p, b))
    decreases b
  {
    if b > 0 {
      var c := b - 1;
      LoadBucketsRebuild(h, t, order, p, c, u);
      var v, list := LoadBuckets(h, u, p, c), p.buckets[c];
      assert list == BucketBelow(t, c, BUCKET_SIZE) by { assert Inside(0); }
      BucketRebuild(h, t, order, c, b, list, v);
      assert LoadBuckets(h, u, p, b) == LoadRefs(h, v, c, list, true);
    }
  }

  /** u is t with entry order[i] renumbered i: same entries, same slots of both tables, same
      reference counts, counters and key. Only the time of the last try is not kept. */
  ghost predicate Renamed(t: State, order: seq<int>, u: State) {
    (forall i :: 0 <= i < |order| ==> order[i] in t.info) &&
    (forall id :: id in t.info ==> id in order) &&
    (forall i, j :: 0 <= i < j < |order| ==> order[i] != order[j]) &&
    u.key == t.key && u.nNew == t.nNew && u.nTried == t.nTried && u.idCount == |order| &&
    (forall i :: i in u.info <==> 0 <= i < |order|) &&
    (forall i :: 0 <= i < |order| ==> u.info[i] == t.info[order[i]].(lastTry := 0, randomPos := i)) &&
    u.random == seq(|order|, i => i) &&
    SameTable(t.tried, u.tried, order) && SameTable(t.news, u.news, order) && SameTable(t.byAddr, u.byAddr, order)
  }

  ghost predicate SameTable<K(!new)>(a: map<K, int>, b: map<K, int>, order: seq<int>) {
    (forall k :: k in a <==> k in b) && forall k :: k in b ==> 0 <= b[k] < |order| && order[b[k]] == a[k]
  }

  lemma OrderComplete(h: Hashes, t: State, id: int)
    requires Inv(h, t) && id in t.info
    ensures id in Order(h, t)
  {
    ListLengths(h, t);
    if t.info[id].inTried {
      TriedListed(t, t.idCount, id);
    } else {
      NewListed(t, t.idCount, id);
    }
  }

  lemma TriedBack(h: Hashes, t: State, order: seq<int>, u: State)
    requires Inv(h, t) && order == Order(h, t) && Rebuild(h, t, order, NEW_BUCKET_COUNT, 0, u)
    ensures SameTable(t.tried, u.tried, order)
  {
    assert Inside(0);
    OrderFacts(h, t);
    forall sl | sl in u.tried ensures 0 <= u.tried[sl] < |order| && sl in t.tried && order[u.tried[sl]] == t.tried[sl] {
      var id := order[u.tried[sl]];
      assert TriedOk(h, t) by { OpenCore(h, t, 0, 0, {}); }
      assert id in t.info && t.info[id].inTried;
    }
    forall sl | sl in t.tried ensures sl in u.tried {
      var id := t.tried[sl];
      OrderComplete(h, t, id);
      var i :| 0 <= i < |order| && order[i] == id;
      assert sl == TriedSlot(h, t.key, t.info[order[i]].addr.service);
    }
  }

  lemma NewsBack(h: Hashes, t: State, order: seq<int>, u: State)
    requires Inv(h, t) && order == Order(h, t) && Rebuild(h, t, order, NEW_BUCKET_COUNT, 0, u)
    ensures SameTable(t.news, u.news, order)
  {
    assert Rebuilt(h, t, order, NEW_BUCKET_COUNT, 0, u) by { assert Inside(0); }
    forall sl | sl in t.news ensures sl in u.news && 0 <= u.news[sl] < |order| && order[u.news[sl]] == t.news[sl] {
      CellFacts(h, t, order, sl);
      assert sl.bucket < NEW_BUCKET_COUNT by { OpenCore(h, t, 0, 0, {}); assert FreshSlotOk(h, t, sl, t.news[sl]); }
      assert AddrCheck.Before(sl, NEW_BUCKET_COUNT, 0);
    }
  }

  lemma IndexBack(h: Hashes, t: State, order: seq<int>, u: State)
    requires Inv(h, t) && order == Order(h, t) && Rebuild(h, t, order, NEW_BUCKET_COUNT, 0, u)
    ensures SameTable(t.byAddr, u.byAddr, order)
  {
    assert Rebuilt(h, t, order, NEW_BUCKET_COUNT, 0, u) by { assert Inside(0); }
    assert AddrOk(t) by { OpenCore(h, t, 0, 0, {}); }
    forall ip | ip in u.byAddr
      ensures ip in t.byAddr && 0 <= u.byAddr[ip] < |order| && order[u.byAddr[ip]] == t.byAddr[ip]
    {
      var id := order[u.byAddr[ip]];
      assert id in t.info && t.info[id].addr.service.ip == ip;
    }
    forall ip | ip in t.byAddr ensures ip in u.byAddr {
      OrderComplete(h, t, t.byAddr[ip]);
      var i :| 0 <= i < |order| && order[i] == t.byAddr[ip];
      assert t.info[order[i]].addr.service.ip == ip;
    }
  }

  /** Slots naming an entry are slots naming its index. */
  lemma SameRefs(t: State, order: seq<int>, u: State, i: int)
    requires SameTable(t.news, u.news, order) && 0 <= i < |order|
    requires forall i, j :: 0 <= i < j < |order| ==> order[i] != order[j]
    ensures Refs(u.news, i) == Refs(t.news, order[i])
  {
    forall sl ensures sl in Refs(u.news, i) <==> sl in Refs(t.news, order[i]) {
      if sl in u.news { assert order[u.news[sl]] == t.news[sl]; }
    }
  }

  lemma EntriesBack(h: Hashes, t: State, order: seq<int>, u: State)
    requires Inv(h, t) && order == Order(h, t) && Rebuild(h, t, order, NEW_BUCKET_COUNT, 0, u)
    requires SameTable(t.news, u.news, order)
    ensures Distinct(t, order)
    ensures forall i {:trigger u.info[i]} :: 0 <= i < |order| ==>
              i in u.info && u.info[i] == t.info[order[i]].(lastTry := 0, randomPos := i)
  {
    OrderFacts(h, t);
    assert Rebuilt(h, t, order, NEW_BUCKET_COUNT, 0, u) by { assert Inside(0); }
    assert RefOk(t) by { OpenCore(h, t, 0, 0, {}); }
    forall i | 0 <= i < |order| ensures i in u.info && u.info[i] == t.info[order[i]].(lastTry := 0, randomPos := i) {
      SameRefs(t, order, u, i);
      assert Copied(t.info[order[i]], u.info[i], i, i >= t.nNew);
      assert u.info[i].refCount == |Refs(u.news, i)|;
      assert t.info[order[i]].refCount == |Refs(t.news, order[i])|;
    }
  }

  lemma RebuiltRenames(h: Hashes, t: State, order: seq<int>, u: State)
    requires Inv(h, t) && order == Order(h, t) && Rebuild(h, t, order, NEW_BUCKET_COUNT, 0, u)
    ensures Renamed(t, order, u)
  {
    TriedBack(h, t, order, u);
    NewsBack(h, t, order, u);
    IndexBack(h, t, order, u);
    EntriesBack(h, t, order, u);
    forall id | id in t.info ensures id in order {
      OrderComplete(h, t, id);
    }
    RebuiltRest(h, t, order, u);
  }

  lemma RebuiltRest(h: Hashes, t: State, order: seq<int>, u: State)
    requires Rebuild(h, t, order, NEW_BUCKET_COUNT, 0, u)
    ensures u.key == t.key && u.nNew == t.nNew && u.nTried == t.nTried && u.idCount == |order|
    ensures (forall i :: i in u.info <==> 0 <= i < |order|) && u.random == seq(|order|, i => i)
  {
    assert Inside(0);
  }

  /** Loading what was saved, up to the pruning step. */
  lemma ReloadRenames(h: Hashes, t: State)
    requires Inv(h, t)
    ensures var p := Saved(h, t);
            Max0(p.nNew) <= |p.news| && Max0(p.nTried) <= |p.trieds| && Max0(BucketCount(p)) <= |p.buckets| &&
            Renamed(t, Order(h, t), Loaded(h, p))
  {
    var p, order := Saved(h, t), Order(h, t);
    SavedSource(h, t);
    var a := LoadNews(h, Header(p), p, t.nNew).(idCount := t.nNew);
    var b := LoadTrieds(h, a, p, t.nTried);
    EntriesStaged(h, t, order, p, a, b);
    assert Rebuild(h, t, order, NEW_BUCKET_COUNT, 0, LoadBuckets(h, b, p, NEW_BUCKET_COUNT)) by {
      LoadBucketsRebuild(h, t, order, p, NEW_BUCKET_COUNT, b);
    }
    RebuiltRenames(h, t, order, Loaded(h, p));
  }

  /** All entries are in place before the references are read. */
  lemma EntriesStaged(h: Hashes, t: State, order: seq<int>, p: Peers, a: State, b: State)
    requires Inv(h, t) && order == Order(h, t) && Source(h, t, order, p)
    requires a == LoadNews(h, Header(p), p, t.nNew).(idCount := t.nNew) && b == LoadTrieds(h, a, p, t.nTried)
    ensures Rebuild(h, t, order, 0, 0, b)
  {
    LoadTriedsPlaces(h, t, order, p, a, t.nTried, |order|);
    RebuildStart(h, t, order, b);
  }

  /** A renaming satisfies the invariant again. */
  lemma RenamedInv(h: Hashes, t: State, order: seq<int>, u: State)
    requires Inv(h, t) && Renamed(t, order, u)
    ensures Inv(h, u)
  {
    OpenCore(h, t, 0, 0, {});
    RenamedTables(h, t, order, u);
    RenamedRefs(h, t, order, u);
    RenamedCounts(t, order, u);
    assert TimesOk(u) by {
      forall i | i in u.info
        ensures u.info[i].lastTry >= 0 && u.info[i].lastSuccess >= 0 &&
                (u.info[i].inTried ==> u.info[i].lastSuccess != 0)
      {
        assert t.info[order[i]].lastSuccess >= 0;
      }
    }
    CloseCore(h, u, 0, 0, {});
  }

  lemma RenamedTables(h: Hashes, t: State, order: seq<int>, u: State)
    requires AddrOk(t) && TriedOk(h, t) && FreshOk(h, t) && Renamed(t, order, u)
    ensures IdsOk(u) && AddrOk(u) && RandomOk(u) && TriedOk(h, u) && FreshOk(h, u)
  {
    assert AddrOk(u) by {
      forall i | i in u.info ensures u.info[i].addr.service.ip in u.byAddr && u.byAddr[u.info[i].addr.service.ip] == i {
        var id := order[i];
        assert t.info[id].addr.service.ip in t.byAddr;
      }
      forall ip | ip in u.byAddr ensures u.byAddr[ip] in u.info && u.info[u.byAddr[ip]].addr.service.ip == ip {
        assert t.byAddr[ip] in t.info;
      }
    }
    assert TriedOk(h, u) by { RenamedTried(h, t, order, u); }
    assert FreshOk(h, u) by {
      forall sl | sl in u.news ensures FreshSlotOk(h, u, sl, u.news[sl]) {
        assert FreshSlotOk(h, t, sl, t.news[sl]);
      }
    }
  }

  lemma RenamedTried(h: Hashes, t: State, order: seq<int>, u: State)
    requires TriedOk(h, t) && Renamed(t, order, u)
    ensures TriedOk(h, u)
  {
    forall sl | sl in u.tried
      ensures u.tried[sl] in u.info && u.info[u.tried[sl]].inTried &&
              sl == TriedSlot(h, u.key, u.info[u.tried[sl]].addr.service)
    {
      assert t.tried[sl] in t.info;
    }
    forall i | i in u.info && u.info[i].inTried
      ensures TriedSlot(h, u.key, u.info[i].addr.service) in u.tried &&
              u.tried[TriedSlot(h, u.key, u.info[i].addr.service)] == i
    {
      var id := order[i];
      assert t.info[id].inTried;
      assert TriedSlot(h, t.key, t.info[id].addr.service) in t.tried;
    }
  }

  lemma RenamedRefs(h: Hashes, t: State, order: seq<int>, u: State)
    requires RefOk(t) && RangeOk(t, {}) && Renamed(t, order, u)
    ensures RefOk(u) && RangeOk(u, {})
  {
    forall i | i in u.info
      ensures u.info[i].refCount == |Refs(u.news, i)|
      ensures !u.info[i].inTried ==> 1 <= u.info[i].refCount <= NEW_BUCKETS_PER_ADDRESS
    {
      assert t.info[order[i]].refCount == |Refs(t.news, order[i])|;
      SameRefs(t, order, u, i);
    }
  }

  /** Distinct entries under a set of indices are as many as the indices. */
  lemma {:induction false} ImageSize(order: seq<int>, js: set<int>, ids: set<int>)
    requires forall j :: j in js ==> 0 <= j < |order|
    requires forall i, j :: 0 <= i < j < |order| ==> order[i] != order[j]
    requires (forall j :: j in js ==> order[j] in ids) &&
             forall id :: id in ids ==> exists j :: j in js && order[j] == id
    ensures |ids| == |js|
    decreases js
  {
    if j :| j in js {
      forall id | id in ids - {order[j]} ensures exists i :: i in js - {j} && order[i] == id {
        var i :| i in js && order[i] == id;
        assert i in js - {j};
      }
      forall i | i in js - {j} ensures order[i] in ids - {order[j]} {
        assert order[if i < j then i else j] != order[if i < j then j else i];
      }
      ImageSize(order, js - {j}, ids - {order[j]});
    } else {
      NoElement(js);
      NoElement(ids);
    }
  }

  lemma NoElement(s: set<int>)
    requires forall x :: x !in s
    ensures |s| == 0
  {
    forall x: int ensures x !in s {}
    assert s == {};
  }

  lemma RenamedCounts(t: State, order: seq<int>, u: State)
    requires CountOk(t, 0, 0) && Renamed(t, order, u)
    ensures CountOk(u, 0, 0)
  {
    KindKept(t, order, u, NewIds(t), NewIds(u), false);
    KindKept(t, order, u, TriedIds(t), TriedIds(u), true);
  }

  lemma KindKept(t: State, order: seq<int>, u: State, ids: set<int>, js: set<int>, inTried: bool)
    requires Renamed(t, order, u)
    requires forall id :: id in ids <==> id in t.info && t.info[id].inTried == inTried
    requires forall j :: j in js <==> j in u.info && u.info[j].inTried == inTried
    ensures |ids| == |js|
  {
    forall id | id in ids ensures exists j :: j in js && order[j] == id {
      var j :| 0 <= j < |order| && order[j] == id;
      assert j in js;
    }
    forall j | j in js ensures 0 <= j < |order| && order[j] in ids {
      assert j in u.info;
      var id := order[j];
      assert id in t.info && u.info[j].inTried == t.info[id].inTried;
    }
    ImageSize(order, js, ids);
  }

  // ----- partial loads -----

  /** Ids are below a bound, and the random order is sound: true of every partial load. */
  ghost predicate Sound(u: State, bound: int) {
    forall z {:trigger Inside(z)} :: Inside(z) ==> RandomOk(u) && forall id :: id in u.info ==> id < bound
  }

  lemma SoundOrder(u: State, bound: int)
    requires Sound(u, bound)
    ensures RandomOk(u)
  {
    assert Inside(0);
  }

  lemma AppendSound(u: State, id: int, i: Info)
    requires Sound(u, id)
    ensures Sound(Append(u, id, i), id + 1)
  {
    assert Inside(0);
    var v := Append(u, id, i);
    assert id !in u.info;
    forall k | 0 <= k < |v.random| ensures v.random[k] in v.info && v.info[v.random[k]].randomPos == k {
      if k < |u.random| { assert u.random[k] in u.info; }
    }
  }

  lemma ReplaceSound(u: State, id: int, i: Info, bound: int)
    requires Sound(u, bound) && id in u.info && i.randomPos == u.info[id].randomPos
    ensures Sound(SetInfo(u, id, i), bound)
  {
    assert Inside(0);
    var v := SetInfo(u, id, i);
    forall k | 0 <= k < |v.random| ensures v.random[k] in v.info && v.info[v.random[k]].randomPos == k {
      assert u.random[k] in u.info;
    }
  }

  // ----- the methods -----

  /** A list holds the stored form of the listed entries. */
  ghost predicate Written(s: State, ids: seq<int>, list: seq<Stored>) {
    |list| == |ids| && forall i :: 0 <= i < |ids| ==> ids[i] in s.info && list[i] == ToStored(s.info[ids[i]])
  }

  /** `Serialize`; its two assertions on the counters hold. */
  method Serialize(m: AddrMan) returns (p: Peers)
    requires m.Valid()
    ensures p == Saved(m.hash, m.Abs())
  {
    ghost var s := m.Abs();
    var news, unkIds := SerializeNew(m);
    var trieds := SerializeTried(m);
    var buckets: seq<seq<int>> := [];
    for b := 0 to NEW_BUCKET_COUNT
      invariant |buckets| == b && forall c :: 0 <= c < b ==> buckets[c] == BucketBelow(s, c, BUCKET_SIZE)
    {
      var list := SerializeBucket(m, b, unkIds);
      buckets := buckets + [list];
    }
    p := Peers(1, KEY_SIZE, m.nKey, m.nNew, m.nTried, NEW_BUCKET_COUNT + BUCKETS_FLAG, news, trieds, buckets);
    ListLengths(m.hash, s);
    assert p.news == Saved(m.hash, s).news;
    assert p.trieds == Saved(m.hash, s).trieds;
    assert p.buckets == Saved(m.hash, s).buckets;
  }

  /** The numbering covers the ids below n. */
  ghost predicate Numbered(s: State, n: int, unkIds: map<int, int>) {
    forall id :: id in s.info && 0 <= id < n ==> id in unkIds && unkIds[id] == Index(s, id)
  }

  method SerializeNew(m: AddrMan) returns (news: seq<Stored>, unkIds: map<int, int>)
    requires m.Valid()
    ensures m.nIdCount >= 0 && Written(m.Abs(), NewBelow(m.Abs(), m.nIdCount), news)
    ensures Numbered(m.Abs(), m.nIdCount, unkIds)
  {
    ghost var s := m.Abs();
    ListLengths(m.hash, s);
    unkIds := map[];
    news := [];
    for n := 0 to m.nIdCount
      invariant Written(s, NewBelow(s, n), news) && Numbered(s, n, unkIds)
    {
      BelowMonotone(s, n + 1, s.idCount);
      if n in m.mapInfo {
        unkIds := unkIds[n := |news|];
        if m.mapInfo[n].refCount != 0 {
          assert |news| != m.nNew;
          news := news + [ToStored(m.mapInfo[n])];
        }
      }
    }
  }

  method SerializeTried(m: AddrMan) returns (trieds: seq<Stored>)
    requires m.Valid()
    ensures m.nIdCount >= 0 && Written(m.Abs(), TriedBelow(m.Abs(), m.nIdCount), trieds)
  {
    ghost var s := m.Abs();
    ListLengths(m.hash, s);
    trieds := [];
    for n := 0 to m.nIdCount
      invariant Written(s, TriedBelow(s, n), trieds)
    {
      BelowMonotone(s, n + 1, s.idCount);
      if n in m.mapInfo && m.mapInfo[n].inTried {
        assert |trieds| != m.nTried;
        trieds := trieds + [ToStored(m.mapInfo[n])];
      }
    }
  }

  method SerializeBucket(m: AddrMan, b: nat, unkIds: map<int, int>) returns (list: seq<int>)
    requires m.Valid() && b < NEW_BUCKET_COUNT && Numbered(m.Abs(), m.nIdCount, unkIds)
    ensures list == BucketBelow(m.Abs(), b, BUCKET_SIZE)
  {
    ghost var s := m.Abs();
    list := [];
    for i := 0 to BUCKET_SIZE
      invariant list == BucketBelow(s, b, i)
    {
      assert m.vvNew[b, i] == Cell(s.news, Slot(b, i));
      if m.vvNew[b, i] != -1 {
        CellNumbered(m.hash, s, Slot(b, i), unkIds);
        list := list + [unkIds[m.vvNew[b, i]]];
      }
    }
  }

  /** The occupant of a slot has been numbered. */
  lemma CellNumbered(h: Hashes, s: State, sl: Slot, unkIds: map<int, int>)
    requires Inv(h, s) && sl in s.news && Numbered(s, s.idCount, unkIds)
    ensures s.news[sl] >= 0 && s.news[sl] in unkIds && unkIds[s.news[sl]] == Index(s, s.news[sl])
  {
    CellFacts(h, s, Order(h, s), sl);
    ListLengths(h, s);
    assert s.info[s.news[sl]].refCount != 0;
  }

  ghost predicate Listed(ids: set<int>, n: int) {
    forall i :: 0 <= i < n ==> i in ids
  }

  /** The new entries read so far. */
  ghost predicate HalfNew(h: Hashes, p: Peers, n: nat, v: State) {
    n <= |p.news| && v == LoadNews(h, Header(p), p, n) && Sound(v, n) &&
    v.nNew == p.nNew && v.nTried == p.nTried && Listed(v.info.Keys, n) && (n == 0 ==> v.info == map[] && v.random == [])
  }

  /** `HalfNew`, kept folded. */
  ghost predicate HalfNewFolded(h: Hashes, p: Peers, n: nat, v: State) {
    forall z {:trigger Inside(z)} :: Inside(z) ==> HalfNew(h, p, n, v)
  }

  lemma HalfNewOpen(h: Hashes, p: Peers, n: nat, v: State)
    requires HalfNewFolded(h, p, n, v)
    ensures HalfNew(h, p, n, v)
  {
    assert Inside(0);
  }

  lemma HalfNewStep(h: Hashes, p: Peers, n: nat, v: State, m: nat, w: State)
    requires HalfNewFolded(h, p, n, v) && n < |p.news| && m == n + 1
    requires w == LoadNew(h, v, n, p.news[n], Usable(p)) && Sound(w, m) && w.info.Keys == v.info.Keys + {n}
    ensures HalfNewFolded(h, p, m, w)
  {
    assert Inside(0);
  }

  lemma HalfNewStart(h: Hashes, p: Peers, v: State)
    requires v == Header(p)
    ensures HalfNewFolded(h, p, 0, v)
  {
  }

  /** Reading the entries of the new table. */
  method ReadNew(m: AddrMan, p: Peers) returns (ok: bool)
    requires m.Shape() && m.Abs() == Header(p)
    modifies m, m.vvNew
    ensures m.Shape() && (ok <==> Max0(p.nNew) <= |p.news|)
    ensures ok ==> HalfNewFolded(m.hash, p, Max0(p.nNew), m.Abs())
  {
    var n := 0;
    HalfNewStart(m.hash, p, m.Abs());
    while n < p.nNew
      invariant m.Shape() && 0 <= n <= Max0(p.nNew) && n <= |p.news| && HalfNewFolded(m.hash, p, n, m.Abs())
    {
      if n >= |p.news| {
        return false;
      }
      ReadNewNext(m, p, n, n + 1);
      n := n + 1;
    }
    assert n == Max0(p.nNew);
    ok := true;
  }

  method ReadNewNext(m: AddrMan, p: Peers, n: nat, ghost n': nat)
    requires m.Shape() && n < |p.news| && HalfNewFolded(m.hash, p, n, m.Abs()) && n' == n + 1
    modifies m, m.vvNew
    ensures m.Shape() && HalfNewFolded(m.hash, p, n', m.Abs())
  {
    ghost var v := m.Abs();
    assert Sound(v, n) by { HalfNewOpen(m.hash, p, n, v); }
    ReadNewEntry(m, n, p.news[n], p.version == 1 && BucketCount(p) == NEW_BUCKET_COUNT);
    HalfNewStep(m.hash, p, n, v, n', m.Abs());
  }

  method ReadNewEntry(m: AddrMan, n: nat, e: Stored, usable: bool)
    requires m.Shape() && Sound(m.Abs(), n)
    modifies m, m.vvNew
    ensures m.Shape() && m.Abs() == LoadNew(m.hash, old(m.Abs()), n, e, usable) && Sound(m.Abs(), n + 1)
    ensures m.nNew == old(m.nNew) && m.nTried == old(m.nTried) && m.mapInfo.Keys == old(m.mapInfo.Keys) + {n}
  {
    AppendSound(m.Abs(), n, FromStored(e));
    ghost var v := Append(m.Abs(), n, FromStored(e));
    m.mapInfo := m.mapInfo[n := FromStored(e)];
    m.mapAddr := m.mapAddr[e.addr.service.ip := n];
    m.mapInfo := m.mapInfo[n := m.mapInfo[n].(randomPos := |m.vRandom|)];
    m.vRandom := m.vRandom + [n];
    assert m.Abs() == v;
    if !usable {
      var b := NewBucket(m.hash, m.nKey, e.addr.service, e.source);
      var i := Position(m.hash, m.nKey, true, b, e.addr.service);
      if m.vvNew[b, i] == -1 {
        m.StoreNew(b, i, n);
        ReplaceSound(m.Abs(), n, v.info[n].(refCount := 1), n + 1);
        m.mapInfo := m.mapInfo[n := m.mapInfo[n].(refCount := m.mapInfo[n].refCount + 1)];
      }
    }
  }

  /** The tried entries read so far, apart from the correction of the counter. */
  ghost predicate HalfTried(h: Hashes, u: State, p: Peers, n: nat, lost: int, v: State) {
    v.nTried == u.nTried && n <= |p.trieds| && v == LoadTrieds(h, u, p, n).(nTried := u.nTried) &&
    Sound(v, v.idCount) &&
    LoadTrieds(h, u, p, n).nTried == u.nTried - lost
  }

  /** Reading the entries of the tried table. */
  method ReadTried(m: AddrMan, p: Peers) returns (ok: bool)
    requires m.Shape() && m.nTried == p.nTried && Sound(m.Abs(), m.nIdCount)
    modifies m, m.vvTried
    ensures m.Shape() && (ok <==> Max0(p.nTried) <= |p.trieds|)
    ensures ok ==> m.Abs() == LoadTrieds(m.hash, old(m.Abs()), p, Max0(p.nTried)) && Sound(m.Abs(), m.nIdCount)
    ensures m.nNew == old(m.nNew) && m.mapInfo.Keys >= old(m.mapInfo.Keys) && m.nIdCount >= old(m.nIdCount)
  {
    ghost var u := m.Abs();
    var lost;
    ok, lost := ReadTriedLoop(m, p);
    if ok {
      SoundCount(m.Abs(), m.nIdCount, m.nTried - lost);
      m.nTried := m.nTried - lost;
      assert m.Abs() == LoadTrieds(m.hash, u, p, Max0(p.nTried));
    }
  }

  method ReadTriedLoop(m: AddrMan, p: Peers) returns (ok: bool, lost: int)
    requires m.Shape() && m.nTried == p.nTried && Sound(m.Abs(), m.nIdCount)
    modifies m, m.vvTried
    ensures m.Shape() && (ok <==> Max0(p.nTried) <= |p.trieds|)
    ensures ok ==> HalfTried(m.hash, old(m.Abs()), p, Max0(p.nTried), lost, m.Abs())
    ensures m.nNew == old(m.nNew) && m.mapInfo.Keys >= old(m.mapInfo.Keys) && m.nIdCount >= old(m.nIdCount)
  {
    ghost var u := m.Abs();
    lost := 0;
    var n := 0;
    while n < p.nTried
      invariant m.Shape() && 0 <= n <= Max0(p.nTried) && HalfTried(m.hash, u, p, n, lost, m.Abs())
      invariant m.nNew == u.nNew && m.mapInfo.Keys >= u.info.Keys && m.nIdCount >= u.idCount
    {
      if n >= |p.trieds| {
        return false, lost;
      }
      ghost var v := m.Abs();
      var seated := ReadTriedEntry(m, p.trieds[n]);
      ghost var n', lost' := n, lost;
      if !seated {
        lost := lost + 1;
      }
      n := n + 1;
      HalfStep(m.hash, u, p, n', lost', v, n, lost, m.Abs());
    }
    ok := true;
  }

  lemma HalfStep(h: Hashes, u: State, p: Peers, n: nat, lost: int, v: State, n': nat, lost': int, w: State)
    requires HalfTried(h, u, p, n, lost, v) && n < |p.trieds| && n' == n + 1
    requires w == LoadTried(h, v, p.trieds[n]).(nTried := v.nTried) && Sound(w, w.idCount)
    requires LoadTried(h, v, p.trieds[n]).nTried == v.nTried - (lost' - lost)
    ensures HalfTried(h, u, p, n', lost', w)
  {
    LoadTriedCount(h, LoadTrieds(h, u, p, n), p.trieds[n], u.nTried);
  }

  lemma SoundTried(u: State, bound: int, tried: map<Slot, int>)
    requires Sound(u, bound)
    ensures Sound(u.(tried := tried, idCount := bound), bound)
  {
    assert Inside(0);
  }

  lemma SoundIds(u: State, n: int)
    requires Sound(u, Max0(n)) && (n <= 0 ==> u.info == map[] && u.random == [])
    ensures Sound(u.(idCount := n), n)
  {
    assert Inside(0);
  }

  lemma SoundCount(u: State, bound: int, k: int)
    requires Sound(u, bound)
    ensures Sound(u.(nTried := k), bound)
  {
    assert Inside(0);
  }

  /** How often entries were lost before has no influence on the next. */
  lemma LoadTriedCount(h: Hashes, u: State, e: Stored, k: int)
    ensures var v, w := LoadTried(h, u, e), LoadTried(h, u.(nTried := k), e);
            v == w.(nTried := v.nTried) && v.nTried == w.nTried + u.nTried - k
  {
  }

  method ReadTriedEntry(m: AddrMan, e: Stored) returns (seated: bool)
    requires m.Shape() && Sound(m.Abs(), m.nIdCount)
    modifies m, m.vvTried
    ensures m.Shape() && Sound(m.Abs(), m.nIdCount) && m.nNew == old(m.nNew) && m.nTried == old(m.nTried)
    ensures m.mapInfo.Keys >= old(m.mapInfo.Keys) && m.nIdCount >= old(m.nIdCount)
    ensures m.Abs() == LoadTried(m.hash, old(m.Abs()), e).(nTried := m.nTried)
    ensures LoadTried(m.hash, old(m.Abs()), e).nTried == m.nTried - if seated then 0 else 1
  {
    ghost var u := m.Abs();
    var b := TriedBucket(m.hash, m.nKey, e.addr.service);
    var i := Position(m.hash, m.nKey, false, b, e.addr.service);
    seated := m.vvTried[b, i] == -1;
    if seated {
      ghost var v := Append(u, m.nIdCount, FromStored(e).(inTried := true));
      AppendSound(u, m.nIdCount, FromStored(e).(inTried := true));
      m.mapInfo := m.mapInfo[m.nIdCount := FromStored(e).(randomPos := |m.vRandom|, inTried := true)];
      m.vRandom := m.vRandom + [m.nIdCount];
      m.mapAddr := m.mapAddr[e.addr.service.ip := m.nIdCount];
      assert m.Abs() == v;
      m.StoreTried(b, i, m.nIdCount);
      m.nIdCount := m.nIdCount + 1;
      SoundTried(v, m.nIdCount, m.tried);
    }
  }

  /** Reading the references of one bucket. */
  method ReadBucket(m: AddrMan, b: nat, list: seq<int>, usable: bool)
    requires m.Shape() && Sound(m.Abs(), m.nIdCount) && (usable ==> b < NEW_BUCKET_COUNT)
    requires Listed(m.mapInfo.Keys, m.nNew)
    modifies m, m.vvNew
    ensures m.Shape() && Sound(m.Abs(), m.nIdCount) && m.nNew == old(m.nNew) && m.nIdCount == old(m.nIdCount)
    ensures m.mapInfo.Keys == old(m.mapInfo.Keys)
    ensures m.Abs() == LoadRefs(m.hash, old(m.Abs()), b, list, usable)
  {
    ghost var u := m.Abs();
    for n := 0 to |list|
      invariant m.Shape() && Sound(m.Abs(), m.nIdCount) && m.nNew == u.nNew && m.nIdCount == u.idCount
      invariant m.mapInfo.Keys == u.info.Keys
      invariant m.Abs() == LoadRefs(m.hash, u, b, list[..n], usable)
    {
      assert list[..n + 1][..n] == list[..n];
      ReadIndex(m, b, list[n], usable);
    }
    assert list[..|list|] == list;
  }

  method ReadIndex(m: AddrMan, b: nat, index: int, usable: bool)
    requires m.Shape() && Sound(m.Abs(), m.nIdCount) && (usable ==> b < NEW_BUCKET_COUNT)
    requires Listed(m.mapInfo.Keys, m.nNew)
    modifies m, m.vvNew
    ensures m.Shape() && Sound(m.Abs(), m.nIdCount) && m.nNew == old(m.nNew) && m.nIdCount == old(m.nIdCount)
    ensures m.mapInfo.Keys == old(m.mapInfo.Keys)
    ensures m.Abs() == LoadRef(m.hash, old(m.Abs()), b, index, usable)
  {
    if 0 <= index < m.nNew {
      assert index in m.mapInfo.Keys;
      var info := m.mapInfo[index];
      var pos := Position(m.hash, m.nKey, true, b, info.addr.service);
      if usable && m.vvNew[b, pos] == -1 && info.refCount < NEW_BUCKETS_PER_ADDRESS {
        m.StoreNew(b, pos, index);
        ReplaceSound(m.Abs(), index, info.(refCount := info.refCount + 1), m.nIdCount);
        m.mapInfo := m.mapInfo[index := info.(refCount := info.refCount + 1)];
      }
    }
  }

  /** The final loop of `Unserialize`, over the ids from lo on. */
  method PruneAll(m: AddrMan, lo: int)
    requires m.Shape() && RandomOk(m.Abs()) && lo <= m.nIdCount
    modifies m
    ensures m.Shape() && old(RandomOk(m.Abs())) && m.Abs() == Prune(old(m.Abs()), lo, old(m.nIdCount))
  {
    ghost var u := m.Abs();
    for id := lo to m.nIdCount
      invariant m.Shape() && m.nIdCount == u.idCount && m.Abs() == Prune(u, lo, id)
    {
      PruneNext(u, lo, id, id + 1, m.Abs());
      PruneOne(m, id);
    }
  }

  lemma PruneNext(u: State, lo: int, id: int, next: int, v: State)
    requires RandomOk(u) && lo <= id && next == id + 1 && v == Prune(u, lo, id)
    ensures RandomOk(v) && Prune(u, lo, next) == Pruned(v, id)
  {
  }

  method PruneOne(m: AddrMan, id: int)
    requires m.Shape() && RandomOk(m.Abs())
    modifies m
    ensures m.Shape() && old(RandomOk(m.Abs())) && m.nIdCount == old(m.nIdCount)
    ensures m.Abs() == Pruned(old(m.Abs()), id)
  {
    if id in m.mapInfo && !m.mapInfo[id].inTried && m.mapInfo[id].refCount == 0 {
      m.Delete(id);
    }
  }

  /** `Unserialize` into a fresh manager; it fails exactly on a wrong key size or a short stream. */
  method Unserialize(m: AddrMan, p: Peers) returns (ok: bool)
    requires m.Shape() && m.Abs() == State(m.nKey, 0, map[], map[], [], 0, map[], 0, map[])
    modifies m, m.vvNew, m.vvTried
    ensures m.Shape()
    ensures ok <==> p.keySize == KEY_SIZE && Complete(p)
    ensures ok ==> var u := Loaded(m.hash, p);
                   RandomOk(u) && Lowest(p) <= u.idCount && m.Abs() == Prune(u, Lowest(p), u.idCount)
    ensures ok ==> (m.Valid() <==> Sane(m.hash, p))
  {
    if p.keySize != KEY_SIZE {
      return false;
    }
    m.nKey, m.nNew, m.nTried := p.key, p.nNew, p.nTried;
    ok := ReadNew(m, p);
    if !ok {
      return;
    }
    HalfNewOpen(m.hash, p, Max0(p.nNew), m.Abs());
    SoundIds(m.Abs(), p.nNew);
    m.nIdCount := p.nNew;
    ok := ReadTried(m, p);
    if !ok {
      return;
    }
    ok := ReadBuckets(m, p);
    if !ok {
      return;
    }
    SoundOrder(m.Abs(), m.nIdCount);
    ghost var u := m.Abs();
    PruneAll(m, Lowest(p));
    LoadedInvIff(m.hash, p, u, m.Abs());
  }

  /** Then the check made at the end of loading passes. */
  lemma SanePassesCheck(h: Hashes, p: Peers, u: State, r: State)
    requires Complete(p) && u == Loaded(h, p) && RandomOk(u) && Lowest(p) <= u.idCount
    requires r == Prune(u, Lowest(p), u.idCount) && Sane(h, p)
    ensures AddrCheck.CheckOk(h, r)
  {
    LoadedInvIff(h, p, u, r);
    AddrCheck.InvPassesCheck(h, r);
  }

  method ReadBuckets(m: AddrMan, p: Peers) returns (ok: bool)
    requires m.Shape() && Sound(m.Abs(), m.nIdCount) && m.nNew == p.nNew
    requires Listed(m.mapInfo.Keys, m.nNew)
    modifies m, m.vvNew
    ensures m.Shape() && Sound(m.Abs(), m.nIdCount) && m.nIdCount == old(m.nIdCount)
    ensures ok <==> Max0(BucketCount(p)) <= |p.buckets|
    ensures ok ==> m.Abs() == LoadBuckets(m.hash, old(m.Abs()), p, Max0(BucketCount(p)))
  {
    ghost var u := m.Abs();
    var b := 0;
    while b < BucketCount(p)
      invariant m.Shape() && Sound(m.Abs(), m.nIdCount) && m.nNew == u.nNew && m.nIdCount == u.idCount
      invariant 0 <= b <= Max0(BucketCount(p)) && b <= |p.buckets| && m.mapInfo.Keys == u.info.Keys
      invariant m.Abs() == LoadBuckets(m.hash, u, p, b)
    {
      if b >= |p.buckets| {
        return false;
      }
      ReadBucket(m, b, p.buckets[b], Usable(p));
      b := b + 1;
    }
    ok := true;
  }

  /** Saving and loading into a fresh manager loses nothing: every entry comes back under the
      number the stream gave it, in the same slots of both tables. */
  method SaveAndLoad(m: AddrMan, key: Key) returns (r: AddrMan)
    requires m.Valid()
    ensures fresh(r) && r.hash == m.hash && r.Valid() && Renamed(m.Abs(), Order(m.hash, m.Abs()), r.Abs())
  {
    ghost var t := m.Abs();
    var p := Serialize(m);
    r := new AddrMan(m.hash, key);
    var ok := Unserialize(r, p);
    NothingLost(m.hash, t);
  }

  /** The reloaded state needs no pruning and satisfies the invariant. */
  lemma NothingLost(h: Hashes, t: State)
    requires Inv(h, t)
    ensures var p := Saved(h, t);
            Complete(p) && p.keySize == KEY_SIZE && p.nNew >= 0 &&
            var u := Loaded(h, p);
            Renamed(t, Order(h, t), u) && Inv(h, u) && RandomOk(u) && 0 <= u.idCount && Prune(u, 0, u.idCount) == u
  {
    ReloadRenames(h, t);
    OrderFacts(h, t);
    var u := Loaded(h, Saved(h, t));
    RenamedInv(h, t, Order(h, t), u);
    assert RandomOk(u) && forall id :: id in u.info ==> !Prunable(u, id) by {
      OpenCore(h, u, 0, 0, {});
    }
    PruneNothing(u, 0, u.idCount);
  }
}
