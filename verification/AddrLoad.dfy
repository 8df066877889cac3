/** Loading a stored address manager, whatever the stream holds, and when the result is consistent. */
module AddrLoad {
  import opened Folding
  import opened AddrState

  const KEY_SIZE: int := 32
  const BUCKETS_FLAG: int := 0x4000_0000

  /** The fields of a `CAddrInfo` that are written. */
  datatype Stored = Stored(addr: Address, source: NetAddr, lastSuccess: int, attempts: int)

  /** The stream, as the values it holds in order; a list shorter than its count is a stream
      that ends early. */
  datatype Peers = Peers(version: nat, keySize: int, key: Key, nNew: int, nTried: int, nUBuckets: int,
                         news: seq<Stored>, trieds: seq<Stored>, buckets: seq<seq<int>>)

  function ToStored(i: Info): Stored {
    Stored(i.addr, i.source, i.lastSuccess, i.attempts)
  }

  function FromStored(e: Stored): Info {
    Info(e.addr, e.source, 0, e.lastSuccess, e.attempts, 0, false, -1)
  }

  // ----- reading -----

  /** Exclusive or with 2^30. */
  function FlipFlag(x: int): int {
    if (x / BUCKETS_FLAG) % 2 == 0 then x + BUCKETS_FLAG else x - BUCKETS_FLAG
  }

  /** The flag is flipped: set if it was not, cleared if it was, and nothing else. */
  lemma FlagFlipped(x: int)
    ensures FlipFlag(FlipFlag(x)) == x && (FlipFlag(x) == x + BUCKETS_FLAG || FlipFlag(x) == x - BUCKETS_FLAG)
    ensures 0 <= x < BUCKETS_FLAG ==> FlipFlag(x) == x + BUCKETS_FLAG
  {
  }

  function BucketCount(p: Peers): int {
    if p.version != 0 then FlipFlag(p.nUBuckets) else p.nUBuckets
  }

  /** Whether the stored bucket positions can be used. */
  predicate Usable(p: Peers) {
    p.version == 1 && BucketCount(p) == NEW_BUCKET_COUNT
  }

  function Put(m: map<Slot, int>, sl: Slot, v: int): map<Slot, int> {
    if v == -1 then m - {sl} else m[sl := v]
  }

  /** Appends an entry under a given id. */
  function Append(u: State, id: int, i: Info): State {
    u.(info := u.info[id := i.(randomPos := |u.random|)], byAddr := u.byAddr[i.addr.service.ip := id],
       random := u.random + [id])
  }

  /** Loading one entry of the new table; without usable positions it gets a reference at the
      slot of its own source, if that is free. */
  function LoadNew(h: Hashes, u: State, n: int, e: Stored, usable: bool): State {
    var v := Append(u, n, FromStored(e));
    var sl := NewSlot(h, u.key, e.addr.service, e.source);
    if usable || sl in v.news then v
    else v.(news := Put(v.news, sl, n), info := v.info[n := v.info[n].(refCount := 1)])
  }

  /** Loading one entry of the tried table; an entry whose slot is taken is lost. */
  function LoadTried(h: Hashes, u: State, e: Stored): State {
    var sl := TriedSlot(h, u.key, e.addr.service);
    if sl in u.tried then u.(nTried := u.nTried - 1) else
      var v := Append(u, u.idCount, FromStored(e).(inTried := true));
      v.(tried := Put(v.tried, sl, u.idCount), idCount := u.idCount + 1)
  }

  /** Loading one stored reference. */
  function LoadRef(h: Hashes, u: State, bucket: nat, index: int, usable: bool): State {
    if 0 <= index < u.nNew && index in u.info && usable then
      var sl := Slot(bucket, Position(h, u.key, true, bucket, u.info[index].addr.service));
      if sl !in u.news && u.info[index].refCount < NEW_BUCKETS_PER_ADDRESS then AddRef(u, index, sl) else u
    else u
  }

  function LoadNews(h: Hashes, u: State, p: Peers, n: nat): State
    requires n <= |p.news|
  {
    if n == 0 then u else LoadNew(h, LoadNews(h, u, p, n - 1), n - 1, p.news[n - 1], Usable(p))
  }

  function LoadTrieds(h: Hashes, u: State, p: Peers, n: nat): State
    requires n <= |p.trieds|
  {
    if n == 0 then u else LoadTried(h, LoadTrieds(h, u, p, n - 1), p.trieds[n - 1])
  }

  function LoadRefs(h: Hashes, u: State, bucket: nat, list: seq<int>, usable: bool): State {
    if list == [] then u
    else LoadRef(h, LoadRefs(h, u, bucket, list[..|list| - 1], usable), bucket, list[|list| - 1], usable)
  }

  function LoadBuckets(h: Hashes, u: State, p: Peers, b: nat): State
    requires b <= |p.buckets|
  {
    if b == 0 then u else LoadRefs(h, LoadBuckets(h, u, p, b - 1), b - 1, p.buckets[b - 1], Usable(p))
  }

  function Max0(x: int): nat { if x < 0 then 0 else x }

  /** The header, after `Clear`. */
  function Header(p: Peers): State {
    State(p.key, 0, map[], map[], [], p.nTried, map[], p.nNew, map[])
  }

  /** The stream holds all it announces. */
  predicate Complete(p: Peers) {
    Max0(p.nNew) <= |p.news| && Max0(p.nTried) <= |p.trieds| && Max0(BucketCount(p)) <= |p.buckets|
  }

  /** Everything but the final pruning. */
  function Loaded(h: Hashes, p: Peers): State
    requires Complete(p)
  {
    var a := LoadNews(h, Header(p), p, Max0(p.nNew)).(idCount := p.nNew);
    var b := LoadTrieds(h, a, p, Max0(p.nTried));
    LoadBuckets(h, b, p, Max0(BucketCount(p)))
  }

  // ----- pruning -----

  lemma DeleteRandom(s: State, id: int)
    requires RandomOk(s) && id in s.info
    ensures RandomOk(Delete(s, id))
  {
    var pos, last := s.info[id].randomPos, |s.random| - 1;
    assert 0 <= pos <= last && s.random[pos] == id;
    SwappedLast(s, id, pos, last, SwapRandom(s, pos, last));
  }

  lemma SwappedLast(s: State, id: int, pos: int, last: int, u: State)
    requires RandomOk(s) && id in s.info && 0 <= pos <= last == |s.random| - 1 && s.random[pos] == id
    requires s.random[last] in s.info && u == SwapRandom(s, pos, last)
    ensures id in u.info && |u.random| > 0 && RandomOk(DropLast(u, id))
  {
    SwapRandomKeeps(s, pos, last);
    DropLastRandom(u, id, DropLast(u, id));
  }

  predicate Prunable(s: State, id: int) {
    id in s.info && !s.info[id].inTried && s.info[id].refCount == 0
  }

  /** Deletes the unreferenced new entries among the ids from lo up to n. */
  function Prune(u: State, lo: int, n: int): (r: State)
    requires RandomOk(u) && lo <= n
    ensures RandomOk(r)
    decreases n - lo
  {
    if n == lo then u else Pruned(Prune(u, lo, n - 1), n - 1)
  }

  function Pruned(u: State, id: int): (r: State)
    requires RandomOk(u)
    ensures RandomOk(r)
  {
    if Prunable(u, id) then DeleteRandom(u, id); Delete(u, id) else u
  }

  lemma {:induction false} PruneNothing(u: State, lo: int, n: int)
    requires RandomOk(u) && lo <= n && forall id :: id in u.info ==> !Prunable(u, id)
    ensures Prune(u, lo, n) == u
    decreases n - lo
  {
    if lo < n { PruneNothing(u, lo, n - 1); }
  }

  function Lowest(p: Peers): int { if p.nNew < 0 then p.nNew else 0 }

  // ----- what every load establishes -----

  /** Every address has an index entry, and index entries point at entries with their address. */
  ghost predicate Indexed(u: State) {
    (forall id {:trigger u.info[id].addr} :: id in u.info ==> u.info[id].addr.service.ip in u.byAddr) &&
    (forall ip {:trigger u.byAddr[ip]} :: ip in u.byAddr ==>
      u.byAddr[ip] in u.info && u.info[u.byAddr[ip]].addr.service.ip == ip)
  }

  /** The ids are those below n; those from cut on are tried. */
  ghost predicate Numbered(u: State, cut: int, n: int) {
    (forall id {:trigger id in u.info} :: id in u.info <==> 0 <= id < n) &&
    (forall id {:trigger u.info[id].inTried} :: id in u.info ==> (u.info[id].inTried <==> id >= cut))
  }

  ghost predicate Untried(u: State) {
    forall id {:trigger u.info[id].lastTry} :: id in u.info ==> u.info[id].lastTry == 0
  }

  /** All of the invariant that holds whatever was read. */
  ghost predicate Half(h: Hashes, u: State, cut: int, n: int) {
    RandomOk(u) && TriedOk(h, u) && FreshOk(h, u) && RefOk(u) && RangeOk(u, u.info.Keys) &&
    Indexed(u) && Numbered(u, cut, n) && Untried(u)
  }

  /** `Half`, kept folded. */
  ghost predicate Halfway(h: Hashes, u: State, cut: int, n: int) {
    forall z {:trigger Inside(z)} :: Inside(z) ==> Half(h, u, cut, n)
  }

  lemma HalfOpen(h: Hashes, u: State, cut: int, n: int)
    requires Halfway(h, u, cut, n)
    ensures Half(h, u, cut, n)
  {
    assert Inside(0);
  }

  lemma HalfClose(h: Hashes, u: State, cut: int, n: int)
    requires Half(h, u, cut, n)
    ensures Halfway(h, u, cut, n)
  {
  }

  lemma HalfFields(h: Hashes, u: State, cut: int, n: int, idCount: int, nTried: int, v: State)
    requires Halfway(h, u, cut, n) && v == u.(idCount := idCount, nTried := nTried)
    ensures Halfway(h, v, cut, n)
  {
    HalfOpen(h, u, cut, n);
    HalfClose(h, v, cut, n);
  }

  lemma AppendOrder(u: State, id: int, i: Info, v: State)
    requires RandomOk(u) && id !in u.info && v == Append(u, id, i)
    ensures RandomOk(v)
  {
    forall k | 0 <= k < |v.random| ensures v.random[k] in v.info && v.info[v.random[k]].randomPos == k {
      if k < |u.random| { assert u.random[k] in u.info; }
    }
  }

  lemma AppendIndexed(u: State, id: int, i: Info, v: State)
    requires Indexed(u) && id !in u.info && v == Append(u, id, i)
    ensures Indexed(v)
  {
    forall e | e in v.info ensures v.info[e].addr.service.ip in v.byAddr {
      if e != id { assert u.info[e].addr.service.ip in u.byAddr; }
    }
    forall ip | ip in v.byAddr ensures v.byAddr[ip] in v.info && v.info[v.byAddr[ip]].addr.service.ip == ip {
      if ip != i.addr.service.ip { assert u.byAddr[ip] in u.info; }
    }
  }

  /** An appended entry has no references yet. */
  lemma AppendRefs(h: Hashes, u: State, id: int, i: Info, v: State)
    requires FreshOk(h, u) && RefOk(u) && RangeOk(u, u.info.Keys) && id !in u.info && i.refCount == 0
    requires v == Append(u, id, i)
    ensures FreshOk(h, v) && RefOk(v) && RangeOk(v, v.info.Keys)
  {
    forall sl | sl in v.news ensures FreshSlotOk(h, v, sl, v.news[sl]) {
      assert FreshSlotOk(h, u, sl, u.news[sl]);
    }
    forall e | e in v.info ensures v.info[e].refCount == |Refs(v.news, e)| {
      if e == id {
        assert Refs(v.news, id) == {} by {
          forall sl | sl in v.news ensures v.news[sl] != id { assert FreshSlotOk(h, u, sl, u.news[sl]); }
        }
      } else {
        assert u.info[e].refCount == |Refs(u.news, e)|;
      }
    }
  }

  lemma AppendNew(h: Hashes, u: State, cut: int, n: nat, m: nat, i: Info, v: State)
    requires Halfway(h, u, cut, n) && n < cut && m == n + 1
    requires i.refCount == 0 && i.lastTry == 0 && !i.inTried && v == Append(u, n, i)
    ensures Halfway(h, v, cut, m) && n in v.info && v.info[n].refCount == 0
  {
    HalfOpen(h, u, cut, n);
    AppendOrder(u, n, i, v);
    AppendIndexed(u, n, i, v);
    AppendRefs(h, u, n, i, v);
    TriedUnchanged(h, u, n, i, v);
    NumberedAppend(u, cut, n, i, m, v);
    HalfClose(h, v, cut, m);
  }

  lemma TriedUnchanged(h: Hashes, u: State, id: int, i: Info, v: State)
    requires TriedOk(h, u) && id !in u.info && !i.inTried && v == Append(u, id, i)
    ensures TriedOk(h, v)
  {
    forall sl | sl in v.tried
      ensures v.tried[sl] in v.info && v.info[v.tried[sl]].inTried &&
              sl == TriedSlot(h, v.key, v.info[v.tried[sl]].addr.service)
    {
      assert u.tried[sl] in u.info;
    }
  }

  lemma NumberedAppend(u: State, cut: int, n: int, i: Info, m: int, v: State)
    requires Numbered(u, cut, n) && Untried(u) && 0 <= n && m == n + 1 && i.lastTry == 0 && (i.inTried <==> n >= cut)
    requires v.info == u.info[n := i.(randomPos := |u.random|)]
    ensures Numbered(v, cut, m) && Untried(v)
  {
    forall e ensures e in v.info <==> 0 <= e < m { assert e in u.info <==> 0 <= e < n; }
  }

  lemma AppendTried(h: Hashes, u: State, cut: int, n: nat, m: nat, i: Info, sl: Slot, w: State)
    requires Halfway(h, u, cut, n) && cut <= n && m == n + 1
    requires i.refCount == 0 && i.lastTry == 0 && i.inTried
    requires sl == TriedSlot(h, u.key, i.addr.service) && sl !in u.tried
    requires w == Append(u, n, i).(tried := u.tried[sl := n])
    ensures Halfway(h, w, cut, m)
  {
    var v := Append(u, n, i);
    assert n !in u.info && RandomOk(u) && Indexed(u) by { HalfOpen(h, u, cut, n); }
    assert RandomOk(w) by { AppendOrder(u, n, i, v); }
    assert Indexed(w) by { AppendIndexed(u, n, i, v); }
    assert TriedOk(h, w) by {
      HalfOpen(h, u, cut, n);
      SeatTried(h, u, n, i, sl, w);
    }
    assert FreshOk(h, w) && RefOk(w) && RangeOk(w, w.info.Keys) by {
      HalfOpen(h, u, cut, n);
      AppendRefs(h, u, n, i, v);
      SameNews(h, v, w);
    }
    assert Numbered(w, cut, m) && Untried(w) by {
      HalfOpen(h, u, cut, n);
      NumberedAppend(u, cut, n, i, m, w);
    }
    HalfClose(h, w, cut, m);
  }

  lemma SameNews(h: Hashes, v: State, w: State)
    requires FreshOk(h, v) && RefOk(v) && RangeOk(v, v.info.Keys) && w == v.(tried := w.tried)
    ensures FreshOk(h, w) && RefOk(w) && RangeOk(w, w.info.Keys)
  {
    forall x | x in w.news ensures FreshSlotOk(h, w, x, w.news[x]) { assert FreshSlotOk(h, v, x, v.news[x]); }
  }

  lemma SeatTried(h: Hashes, u: State, n: int, i: Info, sl: Slot, w: State)
    requires TriedOk(h, u) && n !in u.info && i.inTried
    requires sl == TriedSlot(h, u.key, i.addr.service) && sl !in u.tried
    requires w == Append(u, n, i).(tried := u.tried[sl := n])
    ensures TriedOk(h, w)
  {
    forall x | x in w.tried
      ensures w.tried[x] in w.info && w.info[w.tried[x]].inTried &&
              x == TriedSlot(h, w.key, w.info[w.tried[x]].addr.service)
    {
      if x != sl { assert u.tried[x] in u.info; }
    }
    forall e | e in w.info && w.info[e].inTried
      ensures TriedSlot(h, w.key, w.info[e].addr.service) in w.tried &&
              w.tried[TriedSlot(h, w.key, w.info[e].addr.service)] == e
    {
      if e != n { assert u.info[e].inTried; }
    }
  }

  lemma RefAdded(h: Hashes, u: State, cut: int, n: int, id: int, sl: Slot, v: State)
    requires Halfway(h, u, cut, n) && sl !in u.news && FreshSlotOk(h, u, sl, id)
    requires u.info[id].refCount < NEW_BUCKETS_PER_ADDRESS && v == AddRef(u, id, sl)
    ensures Halfway(h, v, cut, n)
  {
    assert SameShape(u, v) && RandomOk(v) && RefOk(v) && RangeOk(v, v.info.Keys) by {
      HalfOpen(h, u, cut, n);
      AddRefShape(u, id, sl, v, u.info.Keys);
    }
    assert TriedOk(h, v) && Indexed(v) by {
      HalfOpen(h, u, cut, n);
      ShapeTried(h, u, v);
      ShapeIndexed(u, v);
    }
    assert FreshOk(h, v) by {
      HalfOpen(h, u, cut, n);
      SlotAdded(h, u, id, sl, v);
    }
    assert Numbered(v, cut, n) && Untried(v) by {
      HalfOpen(h, u, cut, n);
      NumberedRef(u, cut, n, id, sl, v);
    }
    HalfClose(h, v, cut, n);
  }

  lemma NumberedRef(u: State, cut: int, n: int, id: int, sl: Slot, v: State)
    requires Numbered(u, cut, n) && Untried(u) && id in u.info && v == AddRef(u, id, sl)
    ensures Numbered(v, cut, n) && Untried(v)
  {
    forall e ensures e in v.info <==> 0 <= e < n { assert e in u.info <==> 0 <= e < n; }
    forall e | e in v.info ensures (v.info[e].inTried <==> e >= cut) && v.info[e].lastTry == 0 {
      assert u.info[e].inTried <==> e >= cut;
      assert u.info[e].lastTry == 0;
    }
  }

  lemma SlotAdded(h: Hashes, u: State, id: int, sl: Slot, v: State)
    requires FreshOk(h, u) && FreshSlotOk(h, u, sl, id) && v == AddRef(u, id, sl)
    ensures FreshOk(h, v)
  {
    forall x | x in v.news ensures FreshSlotOk(h, v, x, v.news[x]) {
      if x != sl { assert FreshSlotOk(h, u, x, u.news[x]); }
    }
  }

  lemma ShapeIndexed(u: State, v: State)
    requires Indexed(u) && SameShape(u, v)
    ensures Indexed(v)
  {
    forall e | e in v.info ensures v.info[e].addr.service.ip in v.byAddr {
      assert e in u.info && SamePlace(v.info[e], u.info[e]);
    }
    forall ip | ip in v.byAddr ensures v.byAddr[ip] in v.info && v.info[v.byAddr[ip]].addr.service.ip == ip {
      var e := u.byAddr[ip];
      assert e in u.info;
      assert SamePlace(v.info[e], u.info[e]);
    }
  }

  ghost predicate SameHeader(u: State, v: State) {
    v.key == u.key && v.nNew == u.nNew && v.nTried == u.nTried
  }

  lemma LoadNewHalf(h: Hashes, u: State, cut: int, n: nat, m: nat, e: Stored, usable: bool, v: State)
    requires Halfway(h, u, cut, n) && n < cut && m == n + 1 && v == LoadNew(h, u, n, e, usable)
    ensures Halfway(h, v, cut, m) && SameHeader(u, v)
  {
    var w := Append(u, n, FromStored(e));
    AppendNew(h, u, cut, n, m, FromStored(e), w);
    var sl := NewSlot(h, u.key, e.addr.service, e.source);
    if !usable && sl !in w.news {
      assert v == AddRef(w, n, sl);
      RefAdded(h, w, cut, m, n, sl, v);
    }
  }

  lemma {:induction false} LoadNewsHalf(h: Hashes, p: Peers, n: nat)
    requires n <= |p.news| && n <= p.nNew
    ensures NewsHalf(h, p, n)
    decreases n
  {
    if n > 0 {
      LoadNewsHalf(h, p, n - 1);
      NewsHalfNext(h, p, n - 1, n);
    } else {
      NewsHalfStart(h, p);
    }
  }

  lemma NewsHalfStart(h: Hashes, p: Peers)
    ensures NewsHalf(h, p, 0)
  {
    var u := LoadNews(h, Header(p), p, 0);
    assert u.info == map[] && u.news == map[] && u.tried == map[];
    HalfClose(h, u, p.nNew, 0);
  }

  /** The first n new entries are consistent. */
  ghost predicate NewsHalf(h: Hashes, p: Peers, n: nat)
    requires n <= |p.news|
  {
    forall z {:trigger Inside(z)} :: Inside(z) ==>
      Halfway(h, LoadNews(h, Header(p), p, n), p.nNew, n) && SameHeader(Header(p), LoadNews(h, Header(p), p, n))
  }

  lemma NewsHalfOpen(h: Hashes, p: Peers, n: nat, u: State)
    requires n <= |p.news| && NewsHalf(h, p, n) && u == LoadNews(h, Header(p), p, n)
    ensures Halfway(h, u, p.nNew, n) && u.key == p.key && u.nNew == p.nNew && u.nTried == p.nTried
  {
    assert Inside(0);
  }

  lemma NewsHalfNext(h: Hashes, p: Peers, n: nat, m: nat)
    requires n < |p.news| && n < p.nNew && m == n + 1 && NewsHalf(h, p, n)
    ensures NewsHalf(h, p, m)
  {
    var u, v := LoadNews(h, Header(p), p, n), LoadNews(h, Header(p), p, m);
    assert v == LoadNew(h, u, n, p.news[n], Usable(p));
    NewsHalfOpen(h, p, n, u);
    LoadNewHalf(h, u, p.nNew, n, m, p.news[n], Usable(p), v);
  }

  /** Entries so far are consistent, and the tried ones among the first k are counted. */
  ghost predicate Counting(h: Hashes, p: Peers, k: int, u: State) {
    Halfway(h, u, p.nNew, u.idCount) && u.idCount >= p.nNew >= 0 && u.key == p.key && u.nNew == p.nNew &&
    u.nTried == p.nTried - k + u.idCount - p.nNew
  }

  lemma LoadTriedHalf(h: Hashes, p: Peers, k: int, u: State, e: Stored, v: State, l: int)
    requires Counting(h, p, k, u) && v == LoadTried(h, u, e) && l == k + 1
    ensures Counting(h, p, l, v)
  {
    var sl := TriedSlot(h, u.key, e.addr.service);
    if sl in u.tried {
      HalfFields(h, u, p.nNew, u.idCount, u.idCount, v.nTried, v);
    } else {
      var i := FromStored(e).(inTried := true);
      var w := Append(u, u.idCount, i).(tried := u.tried[sl := u.idCount]);
      AppendTried(h, u, p.nNew, u.idCount, u.idCount + 1, i, sl, w);
      assert v == w.(idCount := u.idCount + 1);
      HalfFields(h, w, p.nNew, u.idCount + 1, u.idCount + 1, v.nTried, v);
    }
  }

  lemma {:induction false} LoadTriedsHalf(h: Hashes, u: State, p: Peers, k: nat)
    requires k <= |p.trieds| && Counting(h, p, 0, u)
    ensures TriedsHalf(h, u, p, k)
    decreases k
  {
    if k > 0 {
      LoadTriedsHalf(h, u, p, k - 1);
      TriedsHalfNext(h, u, p, k - 1, k);
    } else {
      assert LoadTrieds(h, u, p, 0) == u;
    }
  }

  /** The first k tried entries are counted; kept folded. */
  ghost predicate TriedsHalf(h: Hashes, u: State, p: Peers, k: nat)
    requires k <= |p.trieds|
  {
    forall z {:trigger Inside(z)} :: Inside(z) ==> Counting(h, p, k, LoadTrieds(h, u, p, k))
  }

  lemma TriedsHalfOpen(h: Hashes, u: State, p: Peers, k: nat)
    requires k <= |p.trieds| && TriedsHalf(h, u, p, k)
    ensures Counting(h, p, k, LoadTrieds(h, u, p, k))
  {
    assert Inside(0);
  }

  lemma TriedsHalfNext(h: Hashes, u: State, p: Peers, k: nat, l: nat)
    requires k < |p.trieds| && l == k + 1 && TriedsHalf(h, u, p, k)
    ensures TriedsHalf(h, u, p, l)
  {
    var a, b := LoadTrieds(h, u, p, k), LoadTrieds(h, u, p, l);
    TriedsHalfOpen(h, u, p, k);
    assert b == LoadTried(h, a, p.trieds[k]);
    LoadTriedHalf(h, p, k, a, p.trieds[k], b, l);
  }

  lemma LoadRefHalf(h: Hashes, p: Peers, k: int, u: State, bucket: nat, index: int, v: State)
    requires Counting(h, p, k, u) && v == LoadRef(h, u, bucket, index, Usable(p))
    requires Usable(p) ==> bucket < NEW_BUCKET_COUNT
    ensures Counting(h, p, k, v)
  {
    if v != u {
      var sl := Slot(bucket, Position(h, u.key, true, bucket, u.info[index].addr.service));
      assert !u.info[index].inTried by { HalfOpen(h, u, p.nNew, u.idCount); }
      assert FreshSlotOk(h, u, sl, index);
      RefAdded(h, u, p.nNew, u.idCount, index, sl, v);
    }
  }

  lemma {:induction false} LoadRefsHalf(h: Hashes, p: Peers, k: int, u: State, bucket: nat, list: seq<int>)
    requires Counting(h, p, k, u) && (Usable(p) ==> bucket < NEW_BUCKET_COUNT)
    ensures Counting(h, p, k, LoadRefs(h, u, bucket, list, Usable(p)))
    decreases |list|
  {
    if list != [] {
      var front := list[..|list| - 1];
      LoadRefsHalf(h, p, k, u, bucket, front);
      LoadRefHalf(h, p, k, LoadRefs(h, u, bucket, front, Usable(p)), bucket, list[|list| - 1],
                  LoadRefs(h, u, bucket, list, Usable(p)));
    }
  }

  lemma {:induction false} LoadBucketsHalf(h: Hashes, p: Peers, k: int, u: State, b: nat)
    requires Counting(h, p, k, u) && b <= |p.buckets| && (Usable(p) ==> b <= NEW_BUCKET_COUNT)
    ensures Counting(h, p, k, LoadBuckets(h, u, p, b))
    decreases b
  {
    if b > 0 {
      LoadBucketsHalf(h, p, k, u, b - 1);
      LoadRefsHalf(h, p, k, LoadBuckets(h, u, p, b - 1), b - 1, p.buckets[b - 1]);
    }
  }

  /** What was read is consistent up to the address index, and counted. */
  lemma LoadedHalf(h: Hashes, p: Peers)
    requires Complete(p) && p.nNew >= 0 && p.nTried >= 0
    ensures Counting(h, p, p.nTried, Loaded(h, p))
  {
    LoadNewsHalf(h, p, p.nNew);
    var a := LoadNews(h, Header(p), p, p.nNew);
    NewsHalfOpen(h, p, p.nNew, a);
    var b := a.(idCount := p.nNew);
    HalfFields(h, a, p.nNew, p.nNew, p.nNew, a.nTried, b);
    LoadTriedsHalf(h, b, p, p.nTried);
    TriedsHalfOpen(h, b, p, p.nTried);
    LoadBucketsHalf(h, p, p.nTried, LoadTrieds(h, b, p, p.nTried), Max0(BucketCount(p)));
  }

  // ----- when the result is consistent -----

  /** An address among those of the entries pruned below n. */
  ghost predicate Dropped(u: State, lo: int, n: int, ip: NetAddr) {
    exists id {:trigger Prunable(u, id)} :: lo <= id < n && Prunable(u, id) && u.info[id].addr.service.ip == ip
  }

  /** r is u without the prunable entries from lo up to n, and without the index entries of their addresses. */
  ghost predicate Thinned(u: State, lo: int, n: int, r: State) {
    r == u.(info := r.info, byAddr := r.byAddr, random := r.random, nNew := r.nNew) && RandomOk(r) &&
    (forall id {:trigger id in r.info} :: id in r.info <==> id in u.info && !(lo <= id < n && Prunable(u, id))) &&
    (forall id {:trigger r.info[id]} :: id in r.info ==> SameEntry(r.info[id], u.info[id])) &&
    (forall ip {:trigger ip in r.byAddr} :: ip in r.byAddr <==> ip in u.byAddr && !Dropped(u, lo, n, ip)) &&
    (forall ip {:trigger r.byAddr[ip]} :: ip in r.byAddr ==> r.byAddr[ip] == u.byAddr[ip])
  }

  lemma PrunedThins(u: State, lo: int, n: int, m: int, r: State, t: State)
    requires Thinned(u, lo, n, r) && lo <= n && m == n + 1 && t == Pruned(r, n)
    ensures Thinned(u, lo, m, t)
    ensures if Prunable(r, n) then NewIds(t) == NewIds(r) - {n} && n in NewIds(r) && t.nNew == r.nNew - 1 else t == r
  {
    assert Prunable(r, n) <==> Prunable(u, n) by {
      if n in r.info { assert SameEntry(r.info[n], u.info[n]); }
    }
    if Prunable(r, n) {
      assert SameEntry(r.info[n], u.info[n]);
      DeleteThins(u, lo, n, m, r, t);
    } else {
      forall ip ensures Dropped(u, lo, m, ip) <==> Dropped(u, lo, n, ip) {
        if Dropped(u, lo, m, ip) {
          var id :| lo <= id < m && Prunable(u, id) && u.info[id].addr.service.ip == ip;
          assert id < n;
        }
      }
    }
  }

  lemma DeleteThins(u: State, lo: int, n: int, m: int, r: State, t: State)
    requires Thinned(u, lo, n, r) && lo <= n && m == n + 1 && Prunable(r, n) && Prunable(u, n) && t == Delete(r, n)
    requires r.info[n].addr == u.info[n].addr
    ensures Thinned(u, lo, m, t) && NewIds(t) == NewIds(r) - {n} && n in NewIds(r) && t.nNew == r.nNew - 1
  {
    DeleteFrame(r, n, t);
    DeleteRandom(r, n);
    DeleteIndex(r, n, t);
    forall id ensures id in t.info <==> id in u.info && !(lo <= id < m && Prunable(u, id)) {
      assert id in t.info.Keys <==> id in r.info.Keys && id != n;
    }
    forall id | id in t.info ensures SameEntry(t.info[id], u.info[id]) {
      assert SameEntry(t.info[id], r.info[id]);
      assert SameEntry(r.info[id], u.info[id]);
    }
    forall id ensures id in NewIds(t) <==> id in NewIds(r) - {n} {
      assert id in t.info.Keys <==> id in r.info.Keys && id != n;
      if id in t.info { assert SameEntry(t.info[id], r.info[id]); }
    }
    IndexThins(u, lo, n, m, r, t);
  }

  /** What deletion leaves of the index. */
  lemma DeleteIndex(r: State, n: int, t: State)
    requires RandomOk(r) && n in r.info && t == Delete(r, n)
    ensures t.byAddr == r.byAddr - {r.info[n].addr.service.ip}
    ensures t == r.(info := t.info, byAddr := t.byAddr, random := t.random, nNew := r.nNew - 1)
  {
    SwapRandomKeeps(r, r.info[n].randomPos, |r.random| - 1);
  }

  lemma IndexThins(u: State, lo: int, n: int, m: int, r: State, t: State)
    requires lo <= n && m == n + 1 && Prunable(u, n) && t.byAddr == r.byAddr - {u.info[n].addr.service.ip}
    requires forall ip {:trigger ip in r.byAddr} :: ip in r.byAddr <==> ip in u.byAddr && !Dropped(u, lo, n, ip)
    ensures forall ip {:trigger ip in t.byAddr} :: ip in t.byAddr <==> ip in u.byAddr && !Dropped(u, lo, m, ip)
  {
    forall ip ensures ip in t.byAddr <==> ip in u.byAddr && !Dropped(u, lo, m, ip) {
      if Dropped(u, lo, m, ip) {
        var id :| lo <= id < m && Prunable(u, id) && u.info[id].addr.service.ip == ip;
        if id < n { assert Dropped(u, lo, n, ip); }
      } else {
        assert ip != u.info[n].addr.service.ip;
        assert !Dropped(u, lo, n, ip);
      }
    }
  }

  lemma {:induction false} PruneThins(u: State, lo: int, n: int)
    requires RandomOk(u) && lo <= n
    ensures Thinned(u, lo, n, Prune(u, lo, n))
    ensures Prune(u, lo, n).nNew - |NewIds(Prune(u, lo, n))| == u.nNew - |NewIds(u)| && Prune(u, lo, n).nNew <= u.nNew
    decreases n - lo
  {
    if lo < n {
      PruneThins(u, lo, n - 1);
      PrunedThins(u, lo, n - 1, n, Prune(u, lo, n - 1), Prune(u, lo, n));
    }
  }

  /** Entries that stay share their address with no other entry read. */
  ghost predicate Unshared(u: State) {
    forall id, j :: id in u.info && j in u.info && id != j && !Prunable(u, id) ==>
      u.info[id].addr.service.ip != u.info[j].addr.service.ip
  }

  /** Entries that stay have legal times. */
  ghost predicate LegalTimes(u: State) {
    forall id {:trigger u.info[id].lastSuccess} :: id in u.info && !Prunable(u, id) ==>
      u.info[id].lastSuccess >= 0 && (u.info[id].inTried ==> u.info[id].lastSuccess != 0)
  }

  lemma IndexIff(u: State, n: int, r: State)
    requires Indexed(u) && Thinned(u, 0, n, r) && forall id :: id in u.info ==> 0 <= id < n
    ensures AddrOk(r) <==> Unshared(u)
  {
    if Unshared(u) {
      UnsharedIndexed(u, n, r);
    }
    if AddrOk(r) {
      forall id, j | id in u.info && j in u.info && id != j && !Prunable(u, id)
        ensures u.info[id].addr.service.ip != u.info[j].addr.service.ip
      {
        SharedUnindexed(u, n, r, id, j);
      }
    }
  }

  lemma UnsharedIndexed(u: State, n: int, r: State)
    requires Indexed(u) && Thinned(u, 0, n, r) && (forall id :: id in u.info ==> 0 <= id < n) && Unshared(u)
    ensures AddrOk(r)
  {
    forall id | id in r.info
      ensures r.info[id].addr.service.ip in r.byAddr && r.byAddr[r.info[id].addr.service.ip] == id
    {
      assert SameEntry(r.info[id], u.info[id]) && !Prunable(u, id);
      var ip := u.info[id].addr.service.ip;
      assert ip in u.byAddr;
      var j := u.byAddr[ip];
      assert j in u.info && u.info[j].addr.service.ip == ip;
      assert !Dropped(u, 0, n, ip);
    }
    forall ip | ip in r.byAddr ensures r.byAddr[ip] in r.info && r.info[r.byAddr[ip]].addr.service.ip == ip {
      var j := u.byAddr[ip];
      assert j in u.info && u.info[j].addr.service.ip == ip && !Dropped(u, 0, n, ip);
      assert !Prunable(u, j);
      assert SameEntry(r.info[j], u.info[j]);
    }
  }

  lemma SharedUnindexed(u: State, n: int, r: State, id: int, j: int)
    requires Thinned(u, 0, n, r) && AddrOk(r) && 0 <= j < n
    requires id in u.info && j in u.info && id != j && !Prunable(u, id)
    ensures u.info[id].addr.service.ip != u.info[j].addr.service.ip
  {
    assert id in r.info && SameEntry(r.info[id], u.info[id]);
    var ip := u.info[id].addr.service.ip;
    assert ip == r.info[id].addr.service.ip && ip in r.byAddr && r.byAddr[ip] == id;
    assert !Dropped(u, 0, n, ip);
    if j in r.info {
      assert SameEntry(r.info[j], u.info[j]);
      assert r.byAddr[r.info[j].addr.service.ip] == j;
    } else {
      assert Prunable(u, j);
    }
  }

  /** The tables survive the pruning: no entry in a table is pruned. */
  lemma TablesThin(h: Hashes, u: State, cut: int, n: int, r: State)
    requires Half(h, u, cut, n) && Thinned(u, 0, n, r)
    ensures TriedOk(h, r) && FreshOk(h, r) && RefOk(r) && RangeOk(r, {}) && TriedIds(r) == TriedIds(u)
  {
    forall id | id in u.info && u.info[id].inTried ensures id in r.info && SameEntry(r.info[id], u.info[id]) {}
    assert TriedOk(h, r) by {
      forall sl | sl in r.tried
        ensures r.tried[sl] in r.info && r.info[r.tried[sl]].inTried &&
                sl == TriedSlot(h, r.key, r.info[r.tried[sl]].addr.service)
      {
        assert u.tried[sl] in u.info;
      }
      forall id | id in r.info && r.info[id].inTried
        ensures TriedSlot(h, r.key, r.info[id].addr.service) in r.tried &&
                r.tried[TriedSlot(h, r.key, r.info[id].addr.service)] == id
      {
        assert SameEntry(r.info[id], u.info[id]);
        assert u.info[id].inTried;
      }
    }
    forall id ensures id in TriedIds(r) <==> id in TriedIds(u) {
      if id in r.info { assert SameEntry(r.info[id], u.info[id]); }
    }
    RefsThin(h, u, n, r);
  }

  lemma RefsThin(h: Hashes, u: State, n: int, r: State)
    requires FreshOk(h, u) && RefOk(u) && RangeOk(u, u.info.Keys) && Thinned(u, 0, n, r)
    requires forall id :: id in u.info ==> 0 <= id < n
    ensures FreshOk(h, r) && RefOk(r) && RangeOk(r, {})
  {
    forall sl | sl in r.news ensures FreshSlotOk(h, r, sl, r.news[sl]) {
      var id := u.news[sl];
      assert FreshSlotOk(h, u, sl, id);
      assert sl in Refs(u.news, id);
      assert u.info[id].refCount == |Refs(u.news, id)|;
      assert id in r.info && SameEntry(r.info[id], u.info[id]);
    }
    forall id | id in r.info
      ensures r.info[id].refCount == |Refs(r.news, id)|
      ensures !r.info[id].inTried ==> 1 <= r.info[id].refCount <= NEW_BUCKETS_PER_ADDRESS
    {
      assert SameEntry(r.info[id], u.info[id]) && !Prunable(u, id);
      assert u.info[id].refCount == |Refs(u.news, id)|;
    }
  }

  lemma TimesThin(u: State, n: int, r: State)
    requires Untried(u) && Thinned(u, 0, n, r) && forall id :: id in u.info ==> 0 <= id < n
    ensures TimesOk(r) <==> LegalTimes(u)
  {
    forall id | id in r.info ensures SameEntry(r.info[id], u.info[id]) && !Prunable(u, id) {}
    if TimesOk(r) {
      forall id | id in u.info && !Prunable(u, id)
        ensures u.info[id].lastSuccess >= 0 && (u.info[id].inTried ==> u.info[id].lastSuccess != 0)
      {
        assert id in r.info && SameEntry(r.info[id], u.info[id]);
        assert r.info[id].lastSuccess >= 0;
      }
    }
    if LegalTimes(u) {
      forall id | id in r.info
        ensures r.info[id].lastTry >= 0 && r.info[id].lastSuccess >= 0 &&
                (r.info[id].inTried ==> r.info[id].lastSuccess != 0)
      {
        assert u.info[id].lastTry == 0 && u.info[id].lastSuccess >= 0;
      }
    }
  }

  /** Entries by kind, when the ids are the numbers below n and those from cut on are tried. */
  lemma KindCounts(u: State, cut: nat, n: nat)
    requires Numbered(u, cut, n) && cut <= n
    ensures |NewIds(u)| == cut && |TriedIds(u)| == n - cut
  {
    Interval(0, cut, NewIds(u));
    Interval(cut, n, TriedIds(u));
  }

  lemma {:induction false} Interval(a: int, b: int, s: set<int>)
    requires a <= b && forall x :: x in s <==> a <= x < b
    ensures |s| == b - a
    decreases b - a
  {
    if a == b {
      forall x: int ensures x !in s {}
      assert s == {};
    } else {
      assert b - 1 in s;
      Interval(a, b - 1, s - {b - 1});
    }
  }

  // ----- the same, read off the stream -----

  /** A stored tried entry finds its slot free exactly when no earlier one has the same slot. */
  predicate Seated(h: Hashes, p: Peers, k: nat)
    requires k < |p.trieds|
  {
    forall j :: 0 <= j < k ==>
      TriedSlot(h, p.key, p.trieds[j].addr.service) != TriedSlot(h, p.key, p.trieds[k].addr.service)
  }

  /** The entries that get an id, in order: all new ones, and the seated ones among the first k tried. */
  function Entries(h: Hashes, p: Peers, k: nat): seq<Stored>
    requires 0 <= p.nNew <= |p.news| && k <= |p.trieds|
  {
    if k == 0 then p.news[..p.nNew]
    else Entries(h, p, k - 1) + if Seated(h, p, k - 1) then [p.trieds[k - 1]] else []
  }

  /** Slots claimed by the first n new entries where each claims the slot of its own source. */
  function OwnClaims(h: Hashes, p: Peers, n: nat): map<Slot, int>
    requires n <= |p.news|
  {
    if n == 0 then map[] else
      var m, e := OwnClaims(h, p, n - 1), p.news[n - 1];
      var sl := NewSlot(h, p.key, e.addr.service, e.source);
      if sl in m then m else m[sl := n - 1]
  }

  /** A reference listed in a bucket claims its slot if that is free and the entry has fewer than eight. */
  ghost function Claim(h: Hashes, p: Peers, m: map<Slot, int>, bucket: nat, index: int): map<Slot, int>
    requires p.nNew <= |p.news|
  {
    if !(0 <= index < p.nNew) then m else
      var sl := Slot(bucket, Position(h, p.key, true, bucket, p.news[index].addr.service));
      if sl !in m && |Refs(m, index)| < NEW_BUCKETS_PER_ADDRESS then m[sl := index] else m
  }

  ghost function ListClaims(h: Hashes, p: Peers, m: map<Slot, int>, bucket: nat, list: seq<int>): map<Slot, int>
    requires p.nNew <= |p.news|
  {
    if list == [] then m
    else Claim(h, p, ListClaims(h, p, m, bucket, list[..|list| - 1]), bucket, list[|list| - 1])
  }

  ghost function BucketClaims(h: Hashes, p: Peers, b: nat): map<Slot, int>
    requires p.nNew <= |p.news| && b <= |p.buckets|
  {
    if b == 0 then map[] else ListClaims(h, p, BucketClaims(h, p, b - 1), b - 1, p.buckets[b - 1])
  }

  /** The references the stream gives: those listed, if they can be used, or one for each entry whose slot is free. */
  ghost function Claims(h: Hashes, p: Peers): map<Slot, int>
    requires Complete(p) && p.nNew >= 0
  {
    if Usable(p) then BucketClaims(h, p, Max0(BucketCount(p))) else OwnClaims(h, p, p.nNew)
  }

  /** An entry stays if it is tried or has a reference. */
  ghost predicate Stays(h: Hashes, p: Peers, i: int)
    requires Complete(p) && p.nNew >= 0
  {
    i >= p.nNew || i in Claims(h, p).Values
  }

  /** The stream can be loaded consistently: a key, sensible counts, and every entry that stays has a legal time
      and an address no other entry has. */
  ghost predicate Sane(h: Hashes, p: Peers)
    requires Complete(p)
  {
    p.key != 0 && p.nNew >= 0 && p.nTried >= 0 && SaneEntries(h, p, Entries(h, p, p.nTried))
  }

  ghost predicate SaneEntries(h: Hashes, p: Peers, list: seq<Stored>)
    requires Complete(p) && p.nNew >= 0
  {
    forall i :: 0 <= i < |list| && Stays(h, p, i) ==>
      list[i].lastSuccess >= 0 && (i >= p.nNew ==> list[i].lastSuccess != 0) &&
      forall j :: 0 <= j < |list| && j != i ==> list[j].addr.service.ip != list[i].addr.service.ip
  }

  /** The entries of u are those listed. */
  ghost predicate Reads(u: State, list: seq<Stored>) {
    forall i {:trigger u.info[i]} {:trigger list[i]} :: 0 <= i < |list| ==>
      i in u.info && u.info[i].addr == list[i].addr && u.info[i].lastSuccess == list[i].lastSuccess
  }

  lemma AppendReads(u: State, list: seq<Stored>, id: int, e: Stored, i: Info, v: State)
    requires Reads(u, list) && id == |list| && v.info == u.info[id := i]
    requires i.addr == e.addr && i.lastSuccess == e.lastSuccess
    ensures Reads(v, list + [e])
  {
    var more := list + [e];
    forall k | 0 <= k < |more|
      ensures k in v.info && v.info[k].addr == more[k].addr && v.info[k].lastSuccess == more[k].lastSuccess
    {
      if k < |list| { assert u.info[k].addr == list[k].addr; }
    }
  }

  lemma LoadNewReads(h: Hashes, u: State, list: seq<Stored>, e: Stored, usable: bool, v: State)
    requires Reads(u, list) && v == LoadNew(h, u, |list|, e, usable)
    ensures Reads(v, list + [e]) && v.tried == u.tried && v.key == u.key
    ensures var sl := NewSlot(h, u.key, e.addr.service, e.source);
            v.news == if usable || sl in u.news then u.news else u.news[sl := |list|]
  {
    AppendReads(u, list, |list|, e, v.info[|list|], v);
  }

  lemma {:induction false} NewsRead(h: Hashes, p: Peers, n: nat)
    requires n <= |p.news|
    ensures NewsReadTo(h, p, n, LoadNews(h, Header(p), p, n))
    decreases n
  {
    if n > 0 {
      NewsRead(h, p, n - 1);
      NewsReadNext(h, p, n - 1, n, LoadNews(h, Header(p), p, n - 1), LoadNews(h, Header(p), p, n));
    }
  }

  /** The first n new entries are read, with the slots they claim for themselves. */
  ghost predicate NewsReadTo(h: Hashes, p: Peers, n: nat, u: State)
    requires n <= |p.news|
  {
    Reads(u, p.news[..n]) && u.tried == map[] && u.key == p.key &&
    u.news == if Usable(p) then map[] else OwnClaims(h, p, n)
  }

  lemma NewsReadNext(h: Hashes, p: Peers, n: nat, m: nat, u: State, v: State)
    requires n < |p.news| && m == n + 1 && NewsReadTo(h, p, n, u) && v == LoadNew(h, u, n, p.news[n], Usable(p))
    ensures NewsReadTo(h, p, m, v)
  {
    var e := p.news[n];
    LoadNewReads(h, u, p.news[..n], e, Usable(p), v);
    assert p.news[..n] + [e] == p.news[..m];
    assert !Usable(p) ==> v.news == OwnClaims(h, p, m);
  }

  /** The tried table is taken by the first k stored entries. */
  ghost predicate Occupied(h: Hashes, p: Peers, k: nat, tried: map<Slot, int>)
    requires k <= |p.trieds|
  {
    forall sl {:trigger sl in tried} :: sl in tried <==>
      exists j {:trigger p.trieds[j]} :: 0 <= j < k && TriedSlot(h, p.key, p.trieds[j].addr.service) == sl
  }

  lemma OccupiedNext(h: Hashes, p: Peers, k: nat, tried: map<Slot, int>, id: int)
    requires k < |p.trieds| && Occupied(h, p, k, tried)
    ensures var sl := TriedSlot(h, p.key, p.trieds[k].addr.service);
            (sl in tried <==> !Seated(h, p, k)) &&
            Occupied(h, p, k + 1, if sl in tried then tried else tried[sl := id])
  {
    var sl := TriedSlot(h, p.key, p.trieds[k].addr.service);
    var more := if sl in tried then tried else tried[sl := id];
    forall x ensures x in more <==>
        exists j {:trigger p.trieds[j]} :: 0 <= j < k + 1 && TriedSlot(h, p.key, p.trieds[j].addr.service) == x
    {
      if x == sl {
        assert TriedSlot(h, p.key, p.trieds[k].addr.service) == x;
      } else {
        assert x in more <==> x in tried;
      }
    }
  }

  /** What the first k tried entries make of the state a. */
  ghost predicate TriedRead(h: Hashes, p: Peers, a: State, k: nat, u: State)
    requires 0 <= p.nNew <= |p.news| && k <= |p.trieds|
  {
    Reads(u, Entries(h, p, k)) && u.idCount == |Entries(h, p, k)| && u.news == a.news && u.key == p.key &&
    Occupied(h, p, k, u.tried)
  }

  lemma {:induction false} TriedsRead(h: Hashes, p: Peers, a: State, k: nat)
    requires 0 <= p.nNew <= |p.news| && k <= |p.trieds|
    requires Reads(a, p.news[..p.nNew]) && a.idCount == p.nNew && a.key == p.key && a.tried == map[]
    ensures TriedRead(h, p, a, k, LoadTrieds(h, a, p, k))
    decreases k
  {
    if k > 0 {
      TriedsRead(h, p, a, k - 1);
      var u, e := LoadTrieds(h, a, p, k - 1), p.trieds[k - 1];
      TriedReadNext(h, p, a, k - 1, u, e, LoadTried(h, u, e), k);
    }
  }

  lemma TriedReadNext(h: Hashes, p: Peers, a: State, k: nat, u: State, e: Stored, v: State, l: nat)
    requires 0 <= p.nNew <= |p.news| && k < |p.trieds| && e == p.trieds[k] && l == k + 1
    requires TriedRead(h, p, a, k, u) && v == LoadTried(h, u, e)
    ensures TriedRead(h, p, a, l, v)
  {
    OccupiedNext(h, p, k, u.tried, u.idCount);
    var list := Entries(h, p, k);
    if Seated(h, p, k) {
      AppendReads(u, list, u.idCount, e, v.info[u.idCount], v);
      assert Entries(h, p, l) == list + [e];
    } else {
      assert Entries(h, p, l) == list + [] == list;
      SameReads(u, v, list);
    }
  }

  lemma SameReads(u: State, v: State, list: seq<Stored>)
    requires Reads(u, list) && v.info == u.info
    ensures Reads(v, list)
  {
    forall k | 0 <= k < |list|
      ensures k in v.info && v.info[k].addr == list[k].addr && v.info[k].lastSuccess == list[k].lastSuccess
    {
      var e := list[k];
      assert k in u.info && u.info[k].addr == e.addr;
    }
  }

  /** References change neither addresses nor times. */
  ghost predicate Refers(h: Hashes, p: Peers, list: seq<Stored>, m: map<Slot, int>, u: State)
    requires p.nNew <= |p.news|
  {
    Reads(u, list) && 0 <= p.nNew <= |list| && list[..p.nNew] == p.news[..p.nNew] && u.news == m &&
    Halfway(h, u, p.nNew, u.idCount) && u.key == p.key && u.nNew == p.nNew
  }

  lemma LoadRefReads(h: Hashes, p: Peers, list: seq<Stored>, m: map<Slot, int>, u: State, bucket: nat, index: int,
                     v: State)
    requires p.nNew <= |p.news| && Refers(h, p, list, m, u) && bucket < NEW_BUCKET_COUNT
    requires v == LoadRef(h, u, bucket, index, true)
    ensures Refers(h, p, list, Claim(h, p, m, bucket, index), v)
  {
    if 0 <= index < p.nNew {
      assert index in u.info && u.info[index].addr == p.news[index].addr by {
        assert list[index] == list[..p.nNew][index] == p.news[..p.nNew][index] == p.news[index];
        assert u.info[index].addr == list[index].addr;
      }
      assert u.info[index].refCount == |Refs(m, index)| && !u.info[index].inTried by {
        HalfOpen(h, u, p.nNew, u.idCount);
      }
      var sl := Slot(bucket, Position(h, p.key, true, bucket, p.news[index].addr.service));
      if sl !in m && |Refs(m, index)| < NEW_BUCKETS_PER_ADDRESS {
        assert FreshSlotOk(h, u, sl, index);
        RefAdded(h, u, p.nNew, u.idCount, index, sl, v);
        RefReads(u, list, index, sl, v);
      }
    }
  }

  lemma RefReads(u: State, list: seq<Stored>, index: int, sl: Slot, v: State)
    requires Reads(u, list) && index in u.info && v == AddRef(u, index, sl)
    ensures Reads(v, list)
  {
    forall k | 0 <= k < |list|
      ensures k in v.info && v.info[k].addr == list[k].addr && v.info[k].lastSuccess == list[k].lastSuccess
    {
      var e := list[k];
      assert k in u.info && u.info[k].addr == e.addr;
    }
  }

  lemma {:induction false} LoadRefsRead(h: Hashes, p: Peers, list: seq<Stored>, m: map<Slot, int>, u: State,
                                        bucket: nat, refs: seq<int>)
    requires p.nNew <= |p.news| && Refers(h, p, list, m, u) && bucket < NEW_BUCKET_COUNT
    ensures Refers(h, p, list, ListClaims(h, p, m, bucket, refs), LoadRefs(h, u, bucket, refs, true))
    decreases |refs|
  {
    if refs != [] {
      var front, last := refs[..|refs| - 1], refs[|refs| - 1];
      LoadRefsRead(h, p, list, m, u, bucket, front);
      var v := LoadRefs(h, u, bucket, front, true);
      LoadRefReads(h, p, list, ListClaims(h, p, m, bucket, front), v, bucket, last, LoadRef(h, v, bucket, last, true));
    }
  }

  lemma {:induction false} LoadBucketsRead(h: Hashes, p: Peers, list: seq<Stored>, u: State, b: nat)
    requires p.nNew <= |p.news| && b <= |p.buckets| && b <= NEW_BUCKET_COUNT && Usable(p)
    requires Refers(h, p, list, map[], u)
    ensures Refers(h, p, list, BucketClaims(h, p, b), LoadBuckets(h, u, p, b))
    decreases b
  {
    if b > 0 {
      LoadBucketsRead(h, p, list, u, b - 1);
      LoadRefsRead(h, p, list, BucketClaims(h, p, b - 1), LoadBuckets(h, u, p, b - 1), b - 1, p.buckets[b - 1]);
    }
  }

  /** Without usable positions the lists of buckets are skipped. */
  lemma {:induction false} RefsSkipped(h: Hashes, u: State, bucket: nat, refs: seq<int>)
    ensures LoadRefs(h, u, bucket, refs, false) == u
    decreases |refs|
  {
    if refs != [] { RefsSkipped(h, u, bucket, refs[..|refs| - 1]); }
  }

  lemma {:induction false} BucketsSkipped(h: Hashes, p: Peers, u: State, b: nat)
    requires b <= |p.buckets| && !Usable(p)
    ensures LoadBuckets(h, u, p, b) == u
    decreases b
  {
    if b > 0 {
      BucketsSkipped(h, p, u, b - 1);
      RefsSkipped(h, u, b - 1, p.buckets[b - 1]);
    }
  }

  /** What is read: the entries of the stream, with the references the stream gives. */
  lemma LoadedReads(h: Hashes, p: Peers)
    requires Complete(p) && p.nNew >= 0 && p.nTried >= 0
    ensures var u, list := Loaded(h, p), Entries(h, p, p.nTried);
            Reads(u, list) && |list| == u.idCount && u.news == Claims(h, p)
  {
    var a0 := LoadNews(h, Header(p), p, p.nNew);
    var a := a0.(idCount := p.nNew);
    NewsRead(h, p, p.nNew);
    assert Reads(a, p.news[..p.nNew]);
    TriedsRead(h, p, a, p.nTried);
    var b, list := LoadTrieds(h, a, p, p.nTried), Entries(h, p, p.nTried);
    if Usable(p) {
      UsableRead(h, p, a0, a, b, list);
    } else {
      BucketsSkipped(h, p, b, Max0(BucketCount(p)));
    }
  }

  lemma UsableRead(h: Hashes, p: Peers, a0: State, a: State, b: State, list: seq<Stored>)
    requires Complete(p) && p.nNew >= 0 && p.nTried >= 0 && Usable(p) && a0 == LoadNews(h, Header(p), p, p.nNew)
    requires a == a0.(idCount := p.nNew) && b == LoadTrieds(h, a, p, p.nTried) && list == Entries(h, p, p.nTried)
    requires TriedRead(h, p, a, p.nTried, b) && a.news == map[]
    ensures var u := LoadBuckets(h, b, p, Max0(BucketCount(p)));
            Reads(u, list) && |list| == u.idCount && u.news == Claims(h, p)
  {
    LoadNewsHalf(h, p, p.nNew);
    NewsHalfOpen(h, p, p.nNew, a0);
    HalfFields(h, a0, p.nNew, p.nNew, p.nNew, a.nTried, a);
    LoadTriedsHalf(h, a, p, p.nTried);
    TriedsHalfOpen(h, a, p, p.nTried);
    EntriesStart(h, p, p.nTried);
    LoadBucketsRead(h, p, list, b, NEW_BUCKET_COUNT);
    LoadBucketsHalf(h, p, p.nTried, b, NEW_BUCKET_COUNT);
    BucketsIds(h, p, b, NEW_BUCKET_COUNT);
  }

  lemma {:induction false} RefsIds(h: Hashes, u: State, bucket: nat, refs: seq<int>, usable: bool)
    ensures LoadRefs(h, u, bucket, refs, usable).idCount == u.idCount
    decreases |refs|
  {
    if refs != [] { RefsIds(h, u, bucket, refs[..|refs| - 1], usable); }
  }

  lemma {:induction false} BucketsIds(h: Hashes, p: Peers, u: State, b: nat)
    requires b <= |p.buckets|
    ensures LoadBuckets(h, u, p, b).idCount == u.idCount
    decreases b
  {
    if b > 0 {
      BucketsIds(h, p, u, b - 1);
      RefsIds(h, LoadBuckets(h, u, p, b - 1), b - 1, p.buckets[b - 1], Usable(p));
    }
  }

  lemma {:induction false} EntriesStart(h: Hashes, p: Peers, k: nat)
    requires 0 <= p.nNew <= |p.news| && k <= |p.trieds|
    ensures p.nNew <= |Entries(h, p, k)| && Entries(h, p, k)[..p.nNew] == p.news[..p.nNew]
    decreases k
  {
    if k > 0 { EntriesStart(h, p, k - 1); }
  }

  /** Read off the stream or off the loaded entries, the conditions are the same. */
  lemma SaneIff(h: Hashes, p: Peers, u: State, list: seq<Stored>)
    requires Complete(p) && p.nNew >= 0 && p.nTried >= 0 && list == Entries(h, p, p.nTried)
    requires Reads(u, list) && |list| == u.idCount && u.news == Claims(h, p) && Half(h, u, p.nNew, u.idCount)
    ensures SaneEntries(h, p, list) <==> Unshared(u) && LegalTimes(u)
  {
    forall i | 0 <= i < |list| ensures i in u.info && (Prunable(u, i) <==> !Stays(h, p, i)) {
      assert u.info[i].addr == list[i].addr;
      StaysIff(h, p, u, i);
    }
    if SaneEntries(h, p, list) { SaneUnshared(h, p, u, list); }
    if Unshared(u) && LegalTimes(u) { UnsharedSane(h, p, u, list); }
  }

  lemma StaysIff(h: Hashes, p: Peers, u: State, i: int)
    requires Complete(p) && p.nNew >= 0 && i in u.info && u.news == Claims(h, p) && Half(h, u, p.nNew, u.idCount)
    ensures Prunable(u, i) <==> !Stays(h, p, i)
  {
    assert u.info[i].refCount == |Refs(u.news, i)|;
    if i in u.news.Values {
      var sl :| sl in u.news && u.news[sl] == i;
      assert sl in Refs(u.news, i);
    } else {
      forall sl ensures sl !in Refs(u.news, i) {}
      assert Refs(u.news, i) == {};
    }
  }

  lemma SaneUnshared(h: Hashes, p: Peers, u: State, list: seq<Stored>)
    requires Complete(p) && p.nNew >= 0 && Reads(u, list) && |list| == u.idCount && Half(h, u, p.nNew, u.idCount)
    requires forall i :: 0 <= i < |list| ==> i in u.info && (Prunable(u, i) <==> !Stays(h, p, i))
    requires SaneEntries(h, p, list)
    ensures Unshared(u) && LegalTimes(u)
  {
    forall id | id in u.info ensures 0 <= id < |list| && u.info[id].addr == list[id].addr {}
    forall id | id in u.info && !Prunable(u, id)
      ensures u.info[id].lastSuccess >= 0 && (u.info[id].inTried ==> u.info[id].lastSuccess != 0)
    {
      assert Stays(h, p, id) && u.info[id].lastSuccess == list[id].lastSuccess;
    }
    forall id, j | id in u.info && j in u.info && id != j && !Prunable(u, id)
      ensures u.info[id].addr.service.ip != u.info[j].addr.service.ip
    {
      assert Stays(h, p, id) && list[j].addr.service.ip != list[id].addr.service.ip;
    }
  }

  lemma UnsharedSane(h: Hashes, p: Peers, u: State, list: seq<Stored>)
    requires Complete(p) && p.nNew >= 0 && Reads(u, list) && |list| == u.idCount && Half(h, u, p.nNew, u.idCount)
    requires forall i :: 0 <= i < |list| ==> i in u.info && (Prunable(u, i) <==> !Stays(h, p, i))
    requires Unshared(u) && LegalTimes(u)
    ensures SaneEntries(h, p, list)
  {
    forall i | 0 <= i < |list| && Stays(h, p, i)
      ensures list[i].lastSuccess >= 0 && (i >= p.nNew ==> list[i].lastSuccess != 0)
      ensures forall j :: 0 <= j < |list| && j != i ==> list[j].addr.service.ip != list[i].addr.service.ip
    {
      assert !Prunable(u, i) && u.info[i].lastSuccess == list[i].lastSuccess;
      forall j | 0 <= j < |list| && j != i ensures list[j].addr.service.ip != list[i].addr.service.ip {
        assert u.info[j].addr == list[j].addr && u.info[i].addr == list[i].addr;
      }
    }
  }

  /** The loaded manager satisfies the invariant exactly for sane streams. */
  lemma LoadedInvIff(h: Hashes, p: Peers, u: State, r: State)
    requires Complete(p) && u == Loaded(h, p) && RandomOk(u) && Lowest(p) <= u.idCount
    requires r == Prune(u, Lowest(p), u.idCount)
    ensures Inv(h, r) <==> Sane(h, p)
  {
    if p.nNew < 0 || p.nTried < 0 {
      PruneThins(u, Lowest(p), u.idCount);
      LoadedCounts(h, p);
      assert !Inv(h, r) by { if Inv(h, r) { OpenCore(h, r, 0, 0, {}); } }
    } else {
      LoadedHalf(h, p);
      SaneInv(h, p, u, r);
      LoadedReads(h, p);
      HalfOpen(h, u, p.nNew, u.idCount);
      SaneIff(h, p, u, Entries(h, p, p.nTried));
    }
  }

  lemma SaneInv(h: Hashes, p: Peers, u: State, r: State)
    requires Complete(p) && u == Loaded(h, p) && p.nNew >= 0 && p.nTried >= 0 && Counting(h, p, p.nTried, u)
    requires RandomOk(u) && r == Prune(u, 0, u.idCount)
    ensures Inv(h, r) <==> p.key != 0 && Unshared(u) && LegalTimes(u)
  {
    var n := u.idCount;
    PruneThins(u, 0, n);
    assert TriedOk(h, r) && FreshOk(h, r) && RefOk(r) && RangeOk(r, {}) && IdsOk(r) && CountOk(r, 0, 0) by {
      HalfOpen(h, u, p.nNew, n);
      TablesThin(h, u, p.nNew, n, r);
      KindCounts(u, p.nNew, n);
    }
    assert (AddrOk(r) <==> Unshared(u)) && (TimesOk(r) <==> LegalTimes(u)) by {
      HalfOpen(h, u, p.nNew, n);
      IndexIff(u, n, r);
      TimesThin(u, n, r);
    }
    assert Core(h, r, 0, 0, {}) <==> AddrOk(r) by {
      if AddrOk(r) { CloseCore(h, r, 0, 0, {}); }
      if Core(h, r, 0, 0, {}) { OpenCore(h, r, 0, 0, {}); }
    }
  }

  /** Loading never raises a counter. */
  lemma LoadedCounts(h: Hashes, p: Peers)
    requires Complete(p)
    ensures Loaded(h, p).nNew == p.nNew && Loaded(h, p).nTried <= p.nTried
  {
    NewsCounts(h, Header(p), p, Max0(p.nNew));
    var a := LoadNews(h, Header(p), p, Max0(p.nNew)).(idCount := p.nNew);
    TriedsCounts(h, a, p, Max0(p.nTried));
    BucketsCounts(h, LoadTrieds(h, a, p, Max0(p.nTried)), p, Max0(BucketCount(p)));
  }

  lemma {:induction false} NewsCounts(h: Hashes, u: State, p: Peers, n: nat)
    requires n <= |p.news|
    ensures LoadNews(h, u, p, n).nNew == u.nNew && LoadNews(h, u, p, n).nTried == u.nTried
    decreases n
  {
    if n > 0 { NewsCounts(h, u, p, n - 1); }
  }

  lemma {:induction false} TriedsCounts(h: Hashes, u: State, p: Peers, n: nat)
    requires n <= |p.trieds|
    ensures LoadTrieds(h, u, p, n).nNew == u.nNew && LoadTrieds(h, u, p, n).nTried <= u.nTried
    decreases n
  {
    if n > 0 { TriedsCounts(h, u, p, n - 1); }
  }

  lemma {:induction false} RefsCounts(h: Hashes, u: State, bucket: nat, list: seq<int>, usable: bool)
    ensures var v := LoadRefs(h, u, bucket, list, usable); v.nNew == u.nNew && v.nTried == u.nTried
    decreases |list|
  {
    if list != [] { RefsCounts(h, u, bucket, list[..|list| - 1], usable); }
  }

  lemma {:induction false} BucketsCounts(h: Hashes, u: State, p: Peers, b: nat)
    requires b <= |p.buckets|
    ensures LoadBuckets(h, u, p, b).nNew == u.nNew && LoadBuckets(h, u, p, b).nTried == u.nTried
    decreases b
  {
    if b > 0 {
      BucketsCounts(h, u, p, b - 1);
      RefsCounts(h, LoadBuckets(h, u, p, b - 1), b - 1, p.buckets[b - 1], Usable(p));
    }
  }

  /** A stream that lists one entry twice: the copy finds the slot taken, and pruning it takes the index entry
      of the address away from the entry that stays. */
  lemma EntryTwice(h: Hashes, e: Stored, p: Peers)
    requires p == Peers(0, KEY_SIZE, 1, 2, 0, 0, [e, e], [], [])
    ensures Complete(p) && !Sane(h, p)
    ensures var u := Loaded(h, p);
            RandomOk(u) && u.idCount == 2 && !Prunable(u, 0) && Prunable(u, 1) &&
            0 in Prune(u, 0, 2).info && e.addr.service.ip !in Prune(u, 0, 2).byAddr
  {
    var i := FromStored(e);
    var sl := NewSlot(h, 1, e.addr.service, e.source);
    var first := LoadNew(h, Header(p), 0, e, false);
    assert LoadNews(h, Header(p), p, 0) == Header(p) && LoadNews(h, Header(p), p, 1) == first;
    assert first.info[0] == i.(randomPos := 0, refCount := 1) && sl in first.news;
    var u := LoadNew(h, first, 1, e, false).(idCount := 2);
    assert LoadNews(h, Header(p), p, 2) == LoadNew(h, first, 1, e, false);
    assert LoadTrieds(h, u, p, 0) == u && LoadBuckets(h, u, p, 0) == u;
    assert Loaded(h, p) == u;
    assert 1 in u.info && u.info[1].refCount == 0 && u.info[0].addr == u.info[1].addr == e.addr;
    assert !Prunable(u, 0) && Prunable(u, 1);
    LoadedHalf(h, p);
    HalfOpen(h, u, 2, 2);
    PruneThins(u, 0, 2);
    assert Dropped(u, 0, 2, e.addr.service.ip);
    TwiceNotSane(h, e, p);
  }

  lemma TwiceNotSane(h: Hashes, e: Stored, p: Peers)
    requires p == Peers(0, KEY_SIZE, 1, 2, 0, 0, [e, e], [], [])
    ensures Complete(p) && !Sane(h, p)
  {
    var sl := NewSlot(h, 1, e.addr.service, e.source);
    assert OwnClaims(h, p, 0) == map[] && OwnClaims(h, p, 1) == map[sl := 0] == OwnClaims(h, p, 2);
    assert 0 in Claims(h, p).Values by { assert Claims(h, p)[sl] == 0; }
    assert Entries(h, p, 0) == [e, e];
    assert Stays(h, p, 0) && Entries(h, p, 0)[1].addr == Entries(h, p, 0)[0].addr;
  }
}
