/** The address manager as a value: its tables, the elementary updates on them, and the
    consistency invariant every update keeps. */
module AddrState {
  import opened Folding

  const TRIED_BUCKET_COUNT: nat := 256
  const NEW_BUCKET_COUNT: nat := 1024
  const BUCKET_SIZE: nat := 64
  const NEW_BUCKETS_PER_ADDRESS: nat := 8
  const HORIZON_DAYS: int := 30
  const RETRIES: int := 3
  const MAX_FAILURES: int := 10
  const MIN_FAIL_DAYS: int := 7

  /** Conversion to an unsigned 32-bit number. */
  function U32(x: int): nat { x % 0x1_0000_0000 }

  type Key = nat
  type NetAddr = nat

  datatype Service = Service(ip: NetAddr, port: nat)

  /** `CAddress`: a service, the service bits it offers and when it was last seen. */
  datatype Address = Address(service: Service, services: set<nat>, time: nat)

  /** `CAddrInfo`. */
  datatype Info = Info(addr: Address, source: NetAddr, lastTry: int, lastSuccess: int,
                       attempts: int, refCount: int, inTried: bool, randomPos: int)

  datatype Slot = Slot(bucket: int, pos: int)

  /** The keyed hashes that place entries; nothing is assumed about them. */
  datatype Hashes = Hashes(tried: (Key, Service) -> nat,
                           news: (Key, Service, NetAddr) -> nat,
                           position: (Key, bool, nat, Service) -> nat)

  /** A table maps its occupied slots to ids; a slot holding -1 is absent. */
  datatype State = State(key: Key, idCount: int, info: map<int, Info>, byAddr: map<NetAddr, int>,
                         random: seq<int>, nTried: int, tried: map<Slot, int>,
                         nNew: int, news: map<Slot, int>)

  function TriedBucket(h: Hashes, key: Key, s: Service): nat {
    h.tried(key, s) % TRIED_BUCKET_COUNT
  }

  function NewBucket(h: Hashes, key: Key, s: Service, source: NetAddr): nat {
    h.news(key, s, source) % NEW_BUCKET_COUNT
  }

  function Position(h: Hashes, key: Key, isNew: bool, bucket: nat, s: Service): nat {
    h.position(key, isNew, bucket, s) % BUCKET_SIZE
  }

  function TriedSlot(h: Hashes, key: Key, s: Service): Slot {
    Slot(TriedBucket(h, key, s), Position(h, key, false, TriedBucket(h, key, s), s))
  }

  function NewSlot(h: Hashes, key: Key, s: Service, source: NetAddr): Slot {
    Slot(NewBucket(h, key, s, source), Position(h, key, true, NewBucket(h, key, s, source), s))
  }

  /** `IsTerrible`. */
  predicate IsTerrible(i: Info, now: int) {
    if i.lastTry != 0 && i.lastTry >= now - 60 then false
    else if i.addr.time > now + 10 * 60 then true
    else if i.addr.time == 0 || now - i.addr.time > HORIZON_DAYS * 24 * 60 * 60 then true
    else if i.lastSuccess == 0 && i.attempts >= RETRIES then true
    else now - i.lastSuccess > MIN_FAIL_DAYS * 24 * 60 * 60 && i.attempts >= MAX_FAILURES
  }

  // ----- the invariant -----

  /** Slots of the new table that hold id. */
  ghost function Refs(news: map<Slot, int>, id: int): set<Slot> {
    set sl | sl in news && news[sl] == id
  }

  ghost function TriedIds(s: State): set<int> {
    set id | id in s.info && s.info[id].inTried
  }

  ghost function NewIds(s: State): set<int> {
    set id | id in s.info && !s.info[id].inTried
  }

  ghost predicate IdsOk(s: State) {
    0 <= s.idCount && forall id :: id in s.info ==> 0 <= id < s.idCount
  }

  /** The address index and the entries point at each other. */
  ghost predicate AddrOk(s: State) {
    (forall id {:trigger s.info[id].addr.service.ip} :: id in s.info ==>
      s.info[id].addr.service.ip in s.byAddr && s.byAddr[s.info[id].addr.service.ip] == id) &&
    (forall ip {:trigger s.byAddr[ip]} :: ip in s.byAddr ==>
      s.byAddr[ip] in s.info && s.info[s.byAddr[ip]].addr.service.ip == ip)
  }

  /** `vRandom` lists every id once, and every entry knows where. */
  ghost predicate RandomOk(s: State) {
    (forall id {:trigger s.info[id].randomPos} :: id in s.info ==>
      0 <= s.info[id].randomPos < |s.random| && s.random[s.info[id].randomPos] == id) &&
    (forall k {:trigger s.random[k]} :: 0 <= k < |s.random| ==>
      s.random[k] in s.info && s.info[s.random[k]].randomPos == k)
  }

  /** The tried table holds exactly the tried entries, each in its own slot. */
  ghost predicate TriedOk(h: Hashes, s: State) {
    (forall sl {:trigger s.tried[sl]} :: sl in s.tried ==>
      s.tried[sl] in s.info && s.info[s.tried[sl]].inTried &&
      sl == TriedSlot(h, s.key, s.info[s.tried[sl]].addr.service)) &&
    (forall id {:trigger s.info[id].inTried} :: id in s.info && s.info[id].inTried ==>
      TriedSlot(h, s.key, s.info[id].addr.service) in s.tried &&
      s.tried[TriedSlot(h, s.key, s.info[id].addr.service)] == id)
  }

  /** Entry id may sit in this slot of the new table. */
  ghost predicate FreshSlotOk(h: Hashes, s: State, sl: Slot, id: int) {
    id in s.info && !s.info[id].inTried && 0 <= sl.bucket < NEW_BUCKET_COUNT &&
    sl.pos == Position(h, s.key, true, sl.bucket, s.info[id].addr.service)
  }

  ghost predicate FreshOk(h: Hashes, s: State) {
    forall sl {:trigger s.news[sl]} :: sl in s.news ==> FreshSlotOk(h, s, sl, s.news[sl])
  }

  /** Reference counts count the slots of the new table. */
  ghost predicate RefOk(s: State) {
    forall id {:trigger s.info[id].refCount} :: id in s.info ==> s.info[id].refCount == |Refs(s.news, id)|
  }

  /** Counters, off by the given amounts in the middle of an operation. */
  ghost predicate CountOk(s: State, newOff: int, triedOff: int) {
    s.nNew + newOff == |NewIds(s)| && s.nTried + triedOff == |TriedIds(s)|
  }

  ghost predicate TimesOk(s: State) {
    forall id {:trigger s.info[id].lastTry} {:trigger s.info[id].lastSuccess} :: id in s.info ==>
      s.info[id].lastTry >= 0 && s.info[id].lastSuccess >= 0 &&
      (s.info[id].inTried ==> s.info[id].lastSuccess != 0)
  }

  /** New entries have between one and eight references, except those listed, which may have none. */
  ghost predicate RangeOk(s: State, except: set<int>) {
    forall id {:trigger s.info[id].refCount} :: id in s.info && !s.info[id].inTried ==>
      s.info[id].refCount <= NEW_BUCKETS_PER_ADDRESS && (id in except || 1 <= s.info[id].refCount)
  }

  /** Everything at once, apart from the clock readings. */
  ghost predicate Consistent(h: Hashes, s: State, newOff: int, triedOff: int, except: set<int>) {
    IdsOk(s) && AddrOk(s) && RandomOk(s) && TriedOk(h, s) && FreshOk(h, s) && RefOk(s) &&
    CountOk(s, newOff, triedOff) && RangeOk(s, except)
  }

  /** `Consistent`, kept folded: proofs that only pass it on never see its parts. */
  ghost predicate Core(h: Hashes, s: State, newOff: int, triedOff: int, except: set<int>) {
    forall z {:trigger Inside(z)} :: Inside(z) ==> Consistent(h, s, newOff, triedOff, except)
  }

  lemma OpenCore(h: Hashes, s: State, newOff: int, triedOff: int, except: set<int>)
    requires Core(h, s, newOff, triedOff, except)
    ensures Consistent(h, s, newOff, triedOff, except)
  {
    assert Inside(0);
  }

  lemma CloseCore(h: Hashes, s: State, newOff: int, triedOff: int, except: set<int>)
    requires Consistent(h, s, newOff, triedOff, except)
    ensures Core(h, s, newOff, triedOff, except)
  {
  }

  /** The invariant between operations. */
  ghost predicate Inv(h: Hashes, s: State) {
    Core(h, s, 0, 0, {}) && TimesOk(s) && s.key != 0
  }

  /** Same entry, wherever it sits in the random order. */
  ghost predicate SameEntry(a: Info, b: Info) {
    a == b.(randomPos := a.randomPos)
  }

  /** Everything but the random order agrees. */
  ghost predicate SameButOrder(s: State, t: State) {
    t == s.(info := t.info, random := t.random) && t.info.Keys == s.info.Keys &&
    forall id :: id in s.info ==> SameEntry(t.info[id], s.info[id])
  }

  // ----- elementary updates -----

  /** `SwapRandom`. */
  function SwapRandom(s: State, i: int, j: int): State
    requires 0 <= i < |s.random| && 0 <= j < |s.random| && s.random[i] in s.info && s.random[j] in s.info
  {
    if i == j then s else
      var a, b := s.random[i], s.random[j];
      var info := s.info[a := s.info[a].(randomPos := j)];
      s.(info := info[b := info[b].(randomPos := i)], random := s.random[i := b][j := a])
  }

  lemma SwapRandomKeeps(s: State, i: int, j: int)
    requires 0 <= i < |s.random| && 0 <= j < |s.random| && RandomOk(s)
    ensures RandomOk(SwapRandom(s, i, j)) && SameButOrder(s, SwapRandom(s, i, j))
    ensures SwapRandom(s, i, j).random[j] == s.random[i] && SwapRandom(s, i, j).random[i] == s.random[j]
    ensures |SwapRandom(s, i, j).random| == |s.random|
  {
  }

  ghost predicate SamePlace(a: Info, b: Info) {
    a.addr.service == b.addr.service && a.inTried == b.inTried
  }

  /** Same ids, index, tried table, addresses and tried flags. */
  ghost predicate SameShape(s: State, t: State) {
    t.key == s.key && t.idCount == s.idCount && t.byAddr == s.byAddr && t.tried == s.tried &&
    t.info.Keys == s.info.Keys &&
    forall id :: id in s.info ==> SamePlace(t.info[id], s.info[id])
  }

  lemma ShapeIds(s: State, t: State)
    requires SameShape(s, t)
    ensures NewIds(t) == NewIds(s) && TriedIds(t) == TriedIds(s)
    ensures IdsOk(s) ==> IdsOk(t)
  {
    forall id | id in t.info ensures id in s.info && SamePlace(t.info[id], s.info[id]) {
      assert id in s.info;
    }
    forall id | id in s.info ensures id in t.info && SamePlace(t.info[id], s.info[id]) {
      assert id in t.info.Keys;
    }
  }

  lemma ShapeAddr(s: State, t: State)
    requires SameShape(s, t) && AddrOk(s)
    ensures AddrOk(t)
  {
    forall id | id in t.info
      ensures t.info[id].addr.service.ip in t.byAddr && t.byAddr[t.info[id].addr.service.ip] == id
    {
      assert id in s.info;
    }
  }

  lemma ShapeTried(h: Hashes, s: State, t: State)
    requires SameShape(s, t) && TriedOk(h, s)
    ensures TriedOk(h, t)
  {
    forall sl | sl in t.tried
      ensures t.tried[sl] in t.info && t.info[t.tried[sl]].inTried &&
              sl == TriedSlot(h, t.key, t.info[t.tried[sl]].addr.service)
    {
      var id := s.tried[sl];
      assert id in s.info;
      assert SamePlace(t.info[id], s.info[id]);
    }
    forall id | id in t.info && t.info[id].inTried
      ensures TriedSlot(h, t.key, t.info[id].addr.service) in t.tried &&
              t.tried[TriedSlot(h, t.key, t.info[id].addr.service)] == id
    {
      assert id in s.info;
      assert SamePlace(t.info[id], s.info[id]);
    }
  }

  lemma ShapeFresh(h: Hashes, s: State, t: State)
    requires SameShape(s, t) && FreshOk(h, s)
    requires forall sl :: sl in t.news ==> sl in s.news && t.news[sl] == s.news[sl]
    ensures FreshOk(h, t)
  {
    forall sl | sl in t.news ensures FreshSlotOk(h, t, sl, t.news[sl]) {
      assert FreshSlotOk(h, s, sl, s.news[sl]);
    }
  }

  /** The order-independent part of the invariant only sees entries up to their position. */
  lemma SameButOrderKeeps(h: Hashes, s: State, t: State, newOff: int, triedOff: int, except: set<int>)
    requires SameButOrder(s, t) && Core(h, s, newOff, triedOff, except) && RandomOk(t)
    ensures Core(h, t, newOff, triedOff, except)
  {
    OpenCore(h, s, newOff, triedOff, except);
    OrderShape(s, t);
    ShapeIds(s, t);
    ShapeAddr(s, t);
    ShapeTried(h, s, t);
    ShapeFresh(h, s, t);
  }

  lemma OrderShape(s: State, t: State)
    requires SameButOrder(s, t)
    ensures SameShape(s, t) && t.news == s.news && t.nNew == s.nNew && t.nTried == s.nTried
    ensures RefOk(s) ==> RefOk(t)
    ensures forall x :: RangeOk(s, x) ==> RangeOk(t, x)
  {
  }

  /** `Delete`: the entry must be neither tried nor referenced. */
  function Delete(s: State, id: int): State
    requires id in s.info && RandomOk(s)
  {
    DropLast(SwapRandom(s, s.info[id].randomPos, |s.random| - 1), id)
  }

  function DropLast(s: State, id: int): State
    requires id in s.info && |s.random| > 0
  {
    s.(random := s.random[..|s.random| - 1], byAddr := s.byAddr - {s.info[id].addr.service.ip},
       info := s.info - {id}, nNew := s.nNew - 1)
  }

  lemma DeleteKeeps(h: Hashes, s: State, id: int, t: State, newOff: int, triedOff: int, except: set<int>)
    requires Core(h, s, newOff, triedOff, except) && id in s.info
    requires !s.info[id].inTried && s.info[id].refCount == 0
    requires RandomOk(s) && t == Delete(s, id)
    ensures Core(h, t, newOff, triedOff, except - {id})
    ensures t.info.Keys == s.info.Keys - {id} && t.news == s.news && t.tried == s.tried && t.key == s.key
    ensures forall e :: e in t.info ==> SameEntry(t.info[e], s.info[e])
  {
    var pos, last := s.info[id].randomPos, |s.random| - 1;
    var u := SwapRandom(s, pos, last);
    assert t == DropLast(u, id);
    DeleteFrame(s, id, t);
    assert Core(h, u, newOff, triedOff, except) by {
      SwapRandomKeeps(s, pos, last);
      SameButOrderKeeps(h, s, u, newOff, triedOff, except);
    }
    assert id in u.info && !u.info[id].inTried && u.info[id].refCount == 0 && |u.random| > 0 && u.random[last] == id;
    DropLastKeeps(h, u, id, newOff, triedOff, except);
  }

  lemma DeleteFrame(s: State, id: int, t: State)
    requires id in s.info && RandomOk(s) && t == Delete(s, id)
    ensures t.info.Keys == s.info.Keys - {id} && t.news == s.news && t.tried == s.tried && t.key == s.key
    ensures forall e :: e in t.info ==> SameEntry(t.info[e], s.info[e])
  {
    var pos, last := s.info[id].randomPos, |s.random| - 1;
    var u := SwapRandom(s, pos, last);
    SwapRandomKeeps(s, pos, last);
    assert t.info == u.info - {id};
    forall e | e in t.info ensures SameEntry(t.info[e], s.info[e]) {
      assert e in u.info && t.info[e] == u.info[e];
      assert SameEntry(u.info[e], s.info[e]);
    }
  }

  /** Dropping an unreferenced new entry that is last in the random order. */
  lemma DropLastKeeps(h: Hashes, s: State, id: int, newOff: int, triedOff: int, except: set<int>)
    requires Core(h, s, newOff, triedOff, except) && id in s.info
    requires !s.info[id].inTried && s.info[id].refCount == 0 && |s.random| > 0 && s.random[|s.random| - 1] == id
    ensures Core(h, DropLast(s, id), newOff, triedOff, except - {id})
  {
    OpenCore(h, s, newOff, triedOff, except);
    var t := DropLast(s, id);
    DropLastRandom(s, id, t);
    DropLastLinks(h, s, id, t);
    DropLastRefs(h, s, id, t, except);
    DropLastCounts(s, id, t);
    assert IdsOk(t) && CountOk(t, newOff, triedOff);
    CloseCore(h, t, newOff, triedOff, except - {id});
  }

  lemma DropLastRandom(s: State, id: int, t: State)
    requires RandomOk(s) && id in s.info && |s.random| > 0 && s.random[|s.random| - 1] == id && t == DropLast(s, id)
    ensures RandomOk(t)
  {
    var last := |s.random| - 1;
    assert s.info[s.random[last]].randomPos == last;
    forall e | e in t.info ensures 0 <= t.info[e].randomPos < |t.random| && t.random[t.info[e].randomPos] == e {
      assert s.random[s.info[e].randomPos] == e;
    }
    forall k | 0 <= k < |t.random| ensures t.random[k] in t.info && t.info[t.random[k]].randomPos == k {
      assert s.random[k] in s.info && s.info[s.random[k]].randomPos == k;
    }
  }

  lemma DropLastLinks(h: Hashes, s: State, id: int, t: State)
    requires AddrOk(s) && TriedOk(h, s) && id in s.info && |s.random| > 0 && t == DropLast(s, id) && !s.info[id].inTried
    ensures AddrOk(t) && TriedOk(h, t)
  {
    forall e | e in t.info ensures t.info[e].addr.service.ip in t.byAddr && t.byAddr[t.info[e].addr.service.ip] == e {
      assert s.byAddr[s.info[e].addr.service.ip] == e && s.byAddr[s.info[id].addr.service.ip] == id;
    }
    forall ip | ip in t.byAddr ensures t.byAddr[ip] in t.info && t.info[t.byAddr[ip]].addr.service.ip == ip {
      assert s.byAddr[ip] in s.info;
    }
    forall sl | sl in t.tried
      ensures t.tried[sl] in t.info && t.info[t.tried[sl]].inTried &&
              sl == TriedSlot(h, t.key, t.info[t.tried[sl]].addr.service)
    {
      assert s.tried[sl] in s.info;
    }
    forall e | e in t.info && t.info[e].inTried
      ensures TriedSlot(h, t.key, t.info[e].addr.service) in t.tried &&
              t.tried[TriedSlot(h, t.key, t.info[e].addr.service)] == e
    {
      assert s.info[e].inTried;
    }
  }

  lemma DropLastRefs(h: Hashes, s: State, id: int, t: State, except: set<int>)
    requires FreshOk(h, s) && RefOk(s) && RangeOk(s, except) && id in s.info && |s.random| > 0
    requires s.info[id].refCount == 0 && t == DropLast(s, id)
    ensures FreshOk(h, t) && RefOk(t) && RangeOk(t, except - {id})
  {
    assert s.info[id].refCount == |Refs(s.news, id)|;
    forall sl | sl in t.news ensures FreshSlotOk(h, t, sl, t.news[sl]) {
      assert FreshSlotOk(h, s, sl, s.news[sl]);
      assert sl !in Refs(s.news, id);
    }
    forall e | e in t.info ensures t.info[e].refCount == |Refs(t.news, e)| {
      assert s.info[e].refCount == |Refs(s.news, e)|;
    }
  }

  lemma DropLastCounts(s: State, id: int, t: State)
    requires id in s.info && !s.info[id].inTried && |s.random| > 0 && t == DropLast(s, id)
    ensures |NewIds(t)| == |NewIds(s)| - 1 && TriedIds(t) == TriedIds(s)
  {
    forall e ensures e in NewIds(t) <==> e in NewIds(s) - {id} {}
    forall e ensures e in TriedIds(t) <==> e in TriedIds(s) {}
    assert NewIds(t) == NewIds(s) - {id};
  }

  /** Replacing entry id by one with the same address and tried flag. */
  function SetInfo(s: State, id: int, i: Info): State {
    s.(info := s.info[id := i])
  }

  /** Taking one reference away from an entry and its slot. */
  function DropRef(s: State, sl: Slot): State
    requires sl in s.news && s.news[sl] in s.info
  {
    var id := s.news[sl];
    s.(news := s.news - {sl}, info := s.info[id := s.info[id].(refCount := s.info[id].refCount - 1)])
  }

  lemma DropRefKeeps(h: Hashes, s: State, sl: Slot, t: State, newOff: int, triedOff: int, except: set<int>)
    requires Core(h, s, newOff, triedOff, except) && sl in s.news && s.news[sl] in s.info && t == DropRef(s, sl)
    ensures !s.info[s.news[sl]].inTried && s.info[s.news[sl]].refCount > 0
    ensures Core(h, t, newOff, triedOff, except + {s.news[sl]})
    ensures t.info[s.news[sl]].refCount > 0 ==> Core(h, t, newOff, triedOff, except)
    ensures RandomOk(t)
  {
    OpenCore(h, s, newOff, triedOff, except);
    var id := s.news[sl];
    assert FreshSlotOk(h, s, sl, id);
    DropRefCounts(s, sl, t);
    DropRefShape(s, sl, t, except);
    ShapeIds(s, t);
    ShapeAddr(s, t);
    ShapeTried(h, s, t);
    ShapeFresh(h, s, t);
    CloseCore(h, t, newOff, triedOff, except + {id});
    if t.info[id].refCount > 0 {
      CloseCore(h, t, newOff, triedOff, except);
    }
  }

  lemma DropRefShape(s: State, sl: Slot, t: State, except: set<int>)
    requires sl in s.news && s.news[sl] in s.info && t == DropRef(s, sl)
    requires RandomOk(s) && RangeOk(s, except)
    ensures SameShape(s, t) && RandomOk(t) && RangeOk(t, except + {s.news[sl]})
    ensures t.info[s.news[sl]].refCount > 0 ==> RangeOk(t, except)
    ensures t.nNew == s.nNew && t.nTried == s.nTried
  {
    var id := s.news[sl];
    var i := s.info[id];
    assert t.info == s.info[id := i.(refCount := i.refCount - 1)];
    assert t.info.Keys == s.info.Keys;
    assert t.random == s.random;
    forall k | 0 <= k < |t.random| ensures t.random[k] in t.info && t.info[t.random[k]].randomPos == k {
      assert s.random[k] in s.info;
    }
  }

  lemma DropRefCounts(s: State, sl: Slot, t: State)
    requires RefOk(s) && sl in s.news && s.news[sl] in s.info && t == DropRef(s, sl)
    ensures s.info[s.news[sl]].refCount > 0 && RefOk(t)
  {
    var id := s.news[sl];
    assert sl in Refs(s.news, id);
    assert Refs(t.news, id) == Refs(s.news, id) - {sl};
    forall e | e in t.info ensures t.info[e].refCount == |Refs(t.news, e)| {
      assert e in s.info && s.info[e].refCount == |Refs(s.news, e)|;
      if e != id { assert Refs(t.news, e) == Refs(s.news, e); }
    }
  }

  /** `ClearNew`: empties a slot of the new table, deleting an entry that loses its last reference. */
  function ClearNew(s: State, sl: Slot): State
    requires FreshLinked(s) && RandomOk(s)
  {
    if sl !in s.news then s else
      var t := DropRef(s, sl);
      if t.info[s.news[sl]].refCount == 0 then Delete(t, s.news[sl]) else t
  }

  ghost predicate FreshLinked(s: State) {
    forall sl :: sl in s.news ==> s.news[sl] in s.info
  }

  lemma ClearNewKeeps(h: Hashes, s: State, sl: Slot, t: State, newOff: int, triedOff: int, except: set<int>)
    requires Core(h, s, newOff, triedOff, except) && FreshLinked(s) && RandomOk(s) && t == ClearNew(s, sl)
    ensures Core(h, t, newOff, triedOff, except)
    ensures t.news == s.news - {sl} && t.tried == s.tried && t.key == s.key
    ensures t.info.Keys <= s.info.Keys
    ensures forall e :: e in s.info && (sl in s.news ==> s.news[sl] != e) ==>
              e in t.info && SameEntry(t.info[e], s.info[e])
  {
    if sl in s.news {
      var id := s.news[sl];
      var u := DropRef(s, sl);
      DropRefKeeps(h, s, sl, u, newOff, triedOff, except);
      if u.info[id].refCount == 0 {
        DeleteKeeps(h, u, id, t, newOff, triedOff, except + {id});
        WeakenExcept(h, t, newOff, triedOff, (except + {id}) - {id}, except);
      }
    } else {
      assert s.news - {sl} == s.news;
    }
  }

  lemma WeakenExcept(h: Hashes, s: State, newOff: int, triedOff: int, a: set<int>, b: set<int>)
    requires Core(h, s, newOff, triedOff, a) && forall id :: id in a && id in s.info ==> id in b
    ensures Core(h, s, newOff, triedOff, b)
  {
    OpenCore(h, s, newOff, triedOff, a);
  }

  /** The parts of the invariant the elementary updates rely on. */
  lemma CoreParts(h: Hashes, s: State, newOff: int, triedOff: int, except: set<int>)
    requires Core(h, s, newOff, triedOff, except)
    ensures RandomOk(s) && FreshLinked(s) && AddrOk(s) && s.idCount !in s.info
    ensures forall sl :: sl in s.tried ==> s.tried[sl] in s.info && s.info[s.tried[sl]].inTried
    ensures forall id {:trigger s.info[id].refCount} :: id in s.info && s.info[id].refCount == 0 ==>
            Refs(s.news, id) == {}
    ensures forall id :: id in s.info ==> s.info[id].refCount == |Refs(s.news, id)|
  {
    OpenCore(h, s, newOff, triedOff, except);
    forall sl | sl in s.news ensures s.news[sl] in s.info {
      assert FreshSlotOk(h, s, sl, s.news[sl]);
    }
  }

  /** `Create`: a new entry under the next id, last in the random order, not yet counted. */
  function Create(s: State, addr: Address, source: NetAddr): State {
    var id := s.idCount;
    s.(idCount := id + 1, info := s.info[id := Info(addr, source, 0, 0, 0, 0, false, |s.random|)],
       byAddr := s.byAddr[addr.service.ip := id], random := s.random + [id])
  }

  lemma CreateKeeps(h: Hashes, s: State, addr: Address, source: NetAddr, t: State,
                    newOff: int, triedOff: int, except: set<int>)
    requires Core(h, s, newOff, triedOff, except) && addr.service.ip !in s.byAddr
    requires t == Create(s, addr, source)
    ensures Core(h, t, newOff + 1, triedOff, except + {s.idCount})
  {
    var id := s.idCount;
    OpenCore(h, s, newOff, triedOff, except);
    CreateFrame(h, s, addr, source, t);
    assert id !in s.info;
    CreateCounts(s, addr, source, t, newOff, triedOff, except);
    CloseCore(h, t, newOff + 1, triedOff, except + {id});
  }

  lemma CreateCounts(s: State, addr: Address, source: NetAddr, t: State, newOff: int, triedOff: int,
                     except: set<int>)
    requires s.idCount !in s.info && t == Create(s, addr, source) && RangeOk(s, except)
    requires CountOk(s, newOff, triedOff)
    ensures CountOk(t, newOff + 1, triedOff) && RangeOk(t, except + {s.idCount})
  {
    CreateKinds(s, addr, source, t);
    forall e | e in t.info ensures e == s.idCount || (e in s.info && t.info[e] == s.info[e]) {}
  }

  lemma CreateKinds(s: State, addr: Address, source: NetAddr, t: State)
    requires s.idCount !in s.info && t == Create(s, addr, source)
    ensures |NewIds(t)| == |NewIds(s)| + 1 && |TriedIds(t)| == |TriedIds(s)|
  {
    var id := s.idCount;
    forall e: int ensures e in NewIds(t) <==> e in NewIds(s) + {id} {}
    forall e: int ensures e in TriedIds(t) <==> e in TriedIds(s) {}
    assert NewIds(t) == NewIds(s) + {id};
    assert TriedIds(t) == TriedIds(s);
  }

  lemma CreateFrame(h: Hashes, s: State, addr: Address, source: NetAddr, t: State)
    requires IdsOk(s) && addr.service.ip !in s.byAddr && t == Create(s, addr, source)
    requires AddrOk(s) && RandomOk(s) && TriedOk(h, s) && FreshOk(h, s) && RefOk(s)
    ensures IdsOk(t) && AddrOk(t) && RandomOk(t) && TriedOk(h, t) && FreshOk(h, t) && RefOk(t)
  {
    var id := s.idCount;
    assert forall e :: e in s.info ==> e != id && t.info[e] == s.info[e];
    assert AddrOk(t);
    assert RandomOk(t) by {
      forall k | 0 <= k < |t.random| ensures t.random[k] in t.info && t.info[t.random[k]].randomPos == k {
        if k < |s.random| { assert s.random[k] in s.info; }
      }
    }
    CreateRefs(h, s, addr, source, t);
  }

  lemma CreateRefs(h: Hashes, s: State, addr: Address, source: NetAddr, t: State)
    requires s.idCount !in s.info && t == Create(s, addr, source) && FreshOk(h, s) && RefOk(s)
    ensures FreshOk(h, t) && RefOk(t)
  {
    var id := s.idCount;
    assert FreshOk(h, t) by {
      forall sl | sl in t.news ensures FreshSlotOk(h, t, sl, t.news[sl]) {
        assert FreshSlotOk(h, s, sl, s.news[sl]);
      }
    }
    assert RefOk(t) by {
      assert Refs(t.news, id) == {} by {
        forall sl | sl in t.news ensures t.news[sl] != id { assert FreshSlotOk(h, s, sl, s.news[sl]); }
      }
      forall e | e in t.info ensures t.info[e].refCount == |Refs(t.news, e)| {
        if e != id { assert s.info[e].refCount == |Refs(s.news, e)|; }
      }
    }
  }

  /** Changing only statistics of an entry: times, attempts, services. */
  ghost predicate SameLinks(a: Info, b: Info) {
    SamePlace(a, b) && a.refCount == b.refCount && a.randomPos == b.randomPos
  }

  lemma TouchKeeps(h: Hashes, s: State, id: int, i: Info, t: State, newOff: int, triedOff: int, except: set<int>)
    requires Core(h, s, newOff, triedOff, except) && id in s.info && SameLinks(i, s.info[id])
    requires t == SetInfo(s, id, i)
    ensures Core(h, t, newOff, triedOff, except)
  {
    OpenCore(h, s, newOff, triedOff, except);
    TouchShape(s, id, i, t, except);
    ShapeIds(s, t);
    ShapeAddr(s, t);
    ShapeTried(h, s, t);
    ShapeFresh(h, s, t);
    CloseCore(h, t, newOff, triedOff, except);
  }

  lemma TouchShape(s: State, id: int, i: Info, t: State, except: set<int>)
    requires id in s.info && SameLinks(i, s.info[id]) && t == SetInfo(s, id, i)
    requires RandomOk(s) && RefOk(s) && RangeOk(s, except)
    ensures SameShape(s, t) && RandomOk(t) && RefOk(t) && RangeOk(t, except)
  {
    assert forall e :: e in s.info ==> SameLinks(t.info[e], s.info[e]);
    assert t.info.Keys == s.info.Keys;
    forall k | 0 <= k < |t.random| ensures t.random[k] in t.info && t.info[t.random[k]].randomPos == k {
      assert s.random[k] in s.info;
    }
  }

  /** One more reference: the entry enters a free slot of the new table. */
  function AddRef(s: State, id: int, sl: Slot): State
    requires id in s.info
  {
    s.(news := s.news[sl := id], info := s.info[id := s.info[id].(refCount := s.info[id].refCount + 1)])
  }

  lemma AddRefKeeps(h: Hashes, s: State, id: int, sl: Slot, t: State, newOff: int, triedOff: int, except: set<int>)
    requires Core(h, s, newOff, triedOff, except) && sl !in s.news && FreshSlotOk(h, s, sl, id)
    requires s.info[id].refCount < NEW_BUCKETS_PER_ADDRESS && t == AddRef(s, id, sl)
    ensures Core(h, t, newOff, triedOff, except - {id})
  {
    OpenCore(h, s, newOff, triedOff, except);
    AddRefShape(s, id, sl, t, except);
    ShapeIds(s, t);
    ShapeAddr(s, t);
    ShapeTried(h, s, t);
    assert FreshOk(h, t) by {
      forall u | u in t.news ensures FreshSlotOk(h, t, u, t.news[u]) {
        if u != sl { assert FreshSlotOk(h, s, u, s.news[u]); }
      }
    }
    CloseCore(h, t, newOff, triedOff, except - {id});
  }

  lemma AddRefShape(s: State, id: int, sl: Slot, t: State, except: set<int>)
    requires id in s.info && sl !in s.news && t == AddRef(s, id, sl)
    requires s.info[id].refCount < NEW_BUCKETS_PER_ADDRESS
    requires RandomOk(s) && RefOk(s) && RangeOk(s, except)
    ensures SameShape(s, t) && RandomOk(t) && RefOk(t) && RangeOk(t, except - {id})
  {
    assert t.info.Keys == s.info.Keys;
    assert s.info[id].refCount == |Refs(s.news, id)|;
    assert Refs(t.news, id) == Refs(s.news, id) + {sl};
    forall e | e in t.info ensures t.info[e].refCount == |Refs(t.news, e)| {
      if e != id {
        assert Refs(t.news, e) == Refs(s.news, e);
        assert s.info[e].refCount == |Refs(s.news, e)|;
      }
    }
    forall k | 0 <= k < |t.random| ensures t.random[k] in t.info && t.info[t.random[k]].randomPos == k {
      assert s.random[k] in s.info;
    }
  }

  /** Removing an entry from every slot of the new table; it is no longer counted as new. */
  ghost function Detach(s: State, id: int): State
    requires id in s.info
  {
    s.(news := s.news - Refs(s.news, id), info := s.info[id := s.info[id].(refCount := 0)], nNew := s.nNew - 1)
  }

  lemma DetachKeeps(h: Hashes, s: State, id: int, t: State, newOff: int, triedOff: int, except: set<int>)
    requires Core(h, s, newOff, triedOff, except) && id in s.info && t == Detach(s, id)
    ensures Core(h, t, newOff + 1, triedOff, except + {id})
  {
    OpenCore(h, s, newOff, triedOff, except);
    DetachShape(s, id, t, except);
    ShapeIds(s, t);
    ShapeAddr(s, t);
    ShapeTried(h, s, t);
    ShapeFresh(h, s, t);
    CloseCore(h, t, newOff + 1, triedOff, except + {id});
  }

  lemma DetachShape(s: State, id: int, t: State, except: set<int>)
    requires id in s.info && t == Detach(s, id)
    requires RandomOk(s) && RefOk(s) && RangeOk(s, except)
    ensures SameShape(s, t) && RandomOk(t) && RefOk(t) && RangeOk(t, except + {id})
  {
    assert t.info.Keys == s.info.Keys;
    assert Refs(t.news, id) == {};
    forall e | e in t.info ensures t.info[e].refCount == |Refs(t.news, e)| {
      if e != id {
        assert Refs(t.news, e) == Refs(s.news, e);
        assert s.info[e].refCount == |Refs(s.news, e)|;
      }
    }
    forall k | 0 <= k < |t.random| ensures t.random[k] in t.info && t.info[t.random[k]].randomPos == k {
      assert s.random[k] in s.info;
    }
  }
}
