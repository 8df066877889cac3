/** `Check_`: the manager's own consistency check. It returns zero exactly on the states
    described by `CheckOk`, and the invariant implies that description. */
module AddrCheck {
  import opened AddrState
  import opened AddrManager
  import Ops = AddrOps

  /** `mapAddr[info]`: a missing key reads as zero (and is inserted). */
  function Lookup(m: map<NetAddr, int>, ip: NetAddr): int {
    if ip in m then m[ip] else 0
  }

  ghost predicate EntryOk(s: State, byAddr: map<NetAddr, int>, n: int)
    requires n in s.info
  {
    var i := s.info[n];
    (if i.inTried then i.lastSuccess != 0 && i.refCount == 0 else 1 <= i.refCount <= NEW_BUCKETS_PER_ADDRESS) &&
    Lookup(byAddr, i.addr.service.ip) == n && 0 <= i.randomPos < |s.random| && s.random[i.randomPos] == n &&
    i.lastTry >= 0 && i.lastSuccess >= 0
  }

  ghost predicate TriedCellOk(h: Hashes, s: State, sl: Slot, id: int) {
    id in s.info && s.info[id].inTried && sl == TriedSlot(h, s.key, s.info[id].addr.service)
  }

  ghost predicate NewCellOk(h: Hashes, s: State, sl: Slot, id: int) {
    id in s.info && !s.info[id].inTried && 0 <= sl.bucket &&
    sl.pos == Position(h, s.key, true, sl.bucket, s.info[id].addr.service)
  }

  /** id sits in its tried slot. */
  ghost predicate Seated(h: Hashes, s: State, id: int)
    requires id in s.info
  {
    var sl := TriedSlot(h, s.key, s.info[id].addr.service);
    sl in s.tried && s.tried[sl] == id
  }

  /** The maps speak only of cells the tables have. */
  ghost predicate Framed(s: State) {
    (forall sl :: sl in s.tried ==> 0 <= sl.bucket < TRIED_BUCKET_COUNT && 0 <= sl.pos < BUCKET_SIZE) &&
    (forall sl :: sl in s.news ==> 0 <= sl.bucket < NEW_BUCKET_COUNT && 0 <= sl.pos < BUCKET_SIZE)
  }

  /** Both tables hold exactly the entries they should, where they should. */
  ghost predicate TablesOk(h: Hashes, s: State) {
    (forall sl {:trigger s.tried[sl]} :: sl in s.tried ==> TriedCellOk(h, s, sl, s.tried[sl])) &&
    (forall id {:trigger s.info[id]} :: id in s.info && s.info[id].inTried ==> Seated(h, s, id)) &&
    (forall sl {:trigger s.news[sl]} :: sl in s.news ==> NewCellOk(h, s, sl, s.news[sl])) &&
    (forall id {:trigger s.info[id]} :: id in s.info && !s.info[id].inTried ==>
      |Refs(s.news, id)| == s.info[id].refCount)
  }

  /** What `Check_` establishes when it returns zero. */
  ghost predicate CheckOk(h: Hashes, s: State) {
    |s.random| == s.nTried + s.nNew &&
    (forall n {:trigger s.info[n]} :: n in s.info ==> EntryOk(s, s.byAddr, n)) &&
    |TriedIds(s)| == s.nTried && |NewIds(s)| == s.nNew && TablesOk(h, s) && s.key != 0
  }

  /** The tables do not depend on the address index. */
  lemma OnlyIndex(h: Hashes, s: State, t: State)
    requires t == s.(byAddr := t.byAddr)
    ensures TablesOk(h, t) ==> TablesOk(h, s)
    ensures TablesOk(h, s) ==> TablesOk(h, t)
    ensures TriedIds(t) == TriedIds(s) && NewIds(t) == NewIds(s)
    ensures Framed(s) ==> Framed(t)
  {
    IndexOneWay(h, s, t);
    IndexOneWay(h, t, s);
  }

  lemma IndexOneWay(h: Hashes, s: State, t: State)
    requires t == s.(byAddr := t.byAddr)
    ensures TablesOk(h, s) ==> TablesOk(h, t)
  {
    if TablesOk(h, s) {
      forall sl | sl in t.tried ensures TriedCellOk(h, t, sl, t.tried[sl]) {
        assert TriedCellOk(h, s, sl, s.tried[sl]);
      }
      forall id | id in t.info && t.info[id].inTried ensures Seated(h, t, id) {
        assert Seated(h, s, id);
      }
      forall sl | sl in t.news ensures NewCellOk(h, t, sl, t.news[sl]) {
        assert NewCellOk(h, s, sl, s.news[sl]);
      }
    }
  }

  // ----- the scan order -----

  /** The slot comes before cell (n, i) in the row-by-row scan. */
  ghost predicate Before(sl: Slot, n: int, i: int) {
    sl.bucket < n || (sl.bucket == n && sl.pos < i)
  }

  ghost function SeenRefs(s: State, id: int, n: int, i: int): set<Slot> {
    set sl | sl in Refs(s.news, id) && Before(sl, n, i)
  }

  /** State of the tried scan: `rest` is `setTried`. */
  ghost predicate TriedSoFar(h: Hashes, s: State, n: int, i: int, rest: set<int>) {
    (forall sl {:trigger s.tried[sl]} :: sl in s.tried && Before(sl, n, i) ==> TriedCellOk(h, s, sl, s.tried[sl])) &&
    (forall id {:trigger id in rest} :: id in rest <==>
      id in s.info && s.info[id].inTried &&
      !(Seated(h, s, id) && Before(TriedSlot(h, s.key, s.info[id].addr.service), n, i)))
  }

  lemma TriedSkip(h: Hashes, s: State, n: int, i: int, rest: set<int>)
    requires TriedSoFar(h, s, n, i, rest) && Slot(n, i) !in s.tried
    ensures TriedSoFar(h, s, n, i + 1, rest)
  {
    forall sl | sl in s.tried && Before(sl, n, i + 1) ensures TriedCellOk(h, s, sl, s.tried[sl]) {
      assert sl == Slot(sl.bucket, sl.pos);
      assert Before(sl, n, i);
    }
    forall id | id in s.info && s.info[id].inTried
      ensures Seated(h, s, id) ==>
                (Before(TriedSlot(h, s.key, s.info[id].addr.service), n, i) <==>
                 Before(TriedSlot(h, s.key, s.info[id].addr.service), n, i + 1))
    {
      var sl := TriedSlot(h, s.key, s.info[id].addr.service);
      assert sl == Slot(sl.bucket, sl.pos);
    }
  }

  /** An occupant that is not waiting to be seen is misplaced. */
  lemma TriedMiss(h: Hashes, s: State, n: int, i: int, rest: set<int>)
    requires TriedSoFar(h, s, n, i, rest) && Slot(n, i) in s.tried && s.tried[Slot(n, i)] !in rest
    ensures !TriedCellOk(h, s, Slot(n, i), s.tried[Slot(n, i)])
  {
  }

  lemma TriedHit(h: Hashes, s: State, n: int, i: int, rest: set<int>)
    requires TriedSoFar(h, s, n, i, rest) && Slot(n, i) in s.tried
    requires TriedCellOk(h, s, Slot(n, i), s.tried[Slot(n, i)])
    ensures TriedSoFar(h, s, n, i + 1, rest - {s.tried[Slot(n, i)]})
  {
    var e := s.tried[Slot(n, i)];
    forall sl | sl in s.tried && Before(sl, n, i + 1) ensures TriedCellOk(h, s, sl, s.tried[sl]) {
      assert sl == Slot(sl.bucket, sl.pos);
      if sl != Slot(n, i) { assert Before(sl, n, i); }
    }
    forall id | id in s.info && s.info[id].inTried && id != e
      ensures Seated(h, s, id) ==>
                (Before(TriedSlot(h, s.key, s.info[id].addr.service), n, i) <==>
                 Before(TriedSlot(h, s.key, s.info[id].addr.service), n, i + 1))
    {
      var sl := TriedSlot(h, s.key, s.info[id].addr.service);
      assert sl == Slot(sl.bucket, sl.pos);
    }
  }

  lemma TriedRow(h: Hashes, s: State, n: int, rest: set<int>)
    requires TriedSoFar(h, s, n, BUCKET_SIZE, rest) && forall sl :: sl in s.tried ==> 0 <= sl.pos < BUCKET_SIZE
    ensures TriedSoFar(h, s, n + 1, 0, rest)
  {
    forall sl | sl in s.tried && Before(sl, n + 1, 0) ensures TriedCellOk(h, s, sl, s.tried[sl]) {
      assert Before(sl, n, BUCKET_SIZE);
    }
    forall id | id in s.info
      ensures Before(TriedSlot(h, s.key, s.info[id].addr.service), n, BUCKET_SIZE) <==>
              Before(TriedSlot(h, s.key, s.info[id].addr.service), n + 1, 0)
    {
    }
  }

  /** State of the new scan: `rest` is `mapNew`, the references still to be seen. */
  ghost predicate NewSoFar(h: Hashes, s: State, n: int, i: int, rest: map<int, int>) {
    (forall sl {:trigger s.news[sl]} :: sl in s.news && Before(sl, n, i) ==> NewCellOk(h, s, sl, s.news[sl])) &&
    (forall id {:trigger id in rest} :: id in rest ==> id in s.info && !s.info[id].inTried && rest[id] > 0) &&
    (forall id {:trigger SeenRefs(s, id, n, i)} :: id in s.info && !s.info[id].inTried ==>
      s.info[id].refCount == |SeenRefs(s, id, n, i)| + if id in rest then rest[id] else 0)
  }

  lemma NewSkip(h: Hashes, s: State, n: int, i: int, rest: map<int, int>)
    requires NewSoFar(h, s, n, i, rest) && Slot(n, i) !in s.news
    ensures NewSoFar(h, s, n, i + 1, rest)
  {
    forall sl | sl in s.news && Before(sl, n, i + 1) ensures NewCellOk(h, s, sl, s.news[sl]) {
      assert sl == Slot(sl.bucket, sl.pos);
      assert Before(sl, n, i);
    }
    forall id | id in s.info && !s.info[id].inTried
      ensures s.info[id].refCount == |SeenRefs(s, id, n, i + 1)| + if id in rest then rest[id] else 0
    {
      SeenSame(s, id, n, i);
    }
  }

  lemma SeenSame(s: State, id: int, n: int, i: int)
    requires Slot(n, i) in s.news ==> s.news[Slot(n, i)] != id
    ensures SeenRefs(s, id, n, i + 1) == SeenRefs(s, id, n, i)
  {
    forall sl | sl in SeenRefs(s, id, n, i + 1) ensures sl in SeenRefs(s, id, n, i) {
      assert sl == Slot(sl.bucket, sl.pos);
    }
  }

  lemma SeenMore(s: State, id: int, n: int, i: int)
    requires Slot(n, i) in s.news && s.news[Slot(n, i)] == id
    ensures |SeenRefs(s, id, n, i + 1)| == |SeenRefs(s, id, n, i)| + 1
    ensures |SeenRefs(s, id, n, i + 1)| <= |Refs(s.news, id)|
  {
    forall sl | sl in SeenRefs(s, id, n, i + 1) ensures sl in SeenRefs(s, id, n, i) + {Slot(n, i)} {
      assert sl == Slot(sl.bucket, sl.pos);
    }
    assert Slot(n, i) in Refs(s.news, id);
    assert SeenRefs(s, id, n, i + 1) == SeenRefs(s, id, n, i) + {Slot(n, i)};
    SubsetSize(SeenRefs(s, id, n, i + 1), Refs(s.news, id));
  }

  lemma SubsetSize<T>(a: set<T>, b: set<T>)
    requires a <= b
    ensures |a| <= |b| && (|a| == |b| ==> a == b)
  {
    assert b == a + (b - a);
  }

  /** An occupant with no reference left to be seen breaks its count. */
  lemma NewMiss(h: Hashes, s: State, n: int, i: int, rest: map<int, int>)
    requires NewSoFar(h, s, n, i, rest) && Slot(n, i) in s.news && s.news[Slot(n, i)] !in rest
    ensures var e := s.news[Slot(n, i)];
            !NewCellOk(h, s, Slot(n, i), e) || |Refs(s.news, e)| != s.info[e].refCount
  {
    var e := s.news[Slot(n, i)];
    if NewCellOk(h, s, Slot(n, i), e) {
      SeenMore(s, e, n, i);
      assert s.info[e].refCount == |SeenRefs(s, e, n, i)|;
    }
  }

  lemma NewHit(h: Hashes, s: State, n: int, i: int, rest: map<int, int>, rest': map<int, int>)
    requires NewSoFar(h, s, n, i, rest) && Slot(n, i) in s.news
    requires var e := s.news[Slot(n, i)];
             NewCellOk(h, s, Slot(n, i), e) && e in rest &&
             rest' == if rest[e] == 1 then rest - {e} else rest[e := rest[e] - 1]
    ensures NewSoFar(h, s, n, i + 1, rest')
  {
    var e := s.news[Slot(n, i)];
    forall sl | sl in s.news && Before(sl, n, i + 1) ensures NewCellOk(h, s, sl, s.news[sl]) {
      assert sl == Slot(sl.bucket, sl.pos);
      if sl != Slot(n, i) { assert Before(sl, n, i); }
    }
    forall id | id in rest' ensures id in s.info && !s.info[id].inTried && rest'[id] > 0 {
      assert id in rest;
    }
    forall id | id in s.info && !s.info[id].inTried
      ensures s.info[id].refCount == |SeenRefs(s, id, n, i + 1)| + if id in rest' then rest'[id] else 0
    {
      assert s.info[id].refCount == |SeenRefs(s, id, n, i)| + if id in rest then rest[id] else 0;
      if id == e {
        SeenMore(s, e, n, i);
      } else {
        SeenSame(s, id, n, i);
      }
    }
  }

  lemma NewRow(h: Hashes, s: State, n: int, rest: map<int, int>)
    requires NewSoFar(h, s, n, BUCKET_SIZE, rest) && forall sl :: sl in s.news ==> 0 <= sl.pos < BUCKET_SIZE
    ensures NewSoFar(h, s, n + 1, 0, rest)
  {
    forall sl | sl in s.news && Before(sl, n + 1, 0) ensures NewCellOk(h, s, sl, s.news[sl]) {
      assert Before(sl, n, BUCKET_SIZE);
    }
    forall id | id in s.info && !s.info[id].inTried
      ensures s.info[id].refCount == |SeenRefs(s, id, n + 1, 0)| + if id in rest then rest[id] else 0
    {
      assert SeenRefs(s, id, n + 1, 0) == SeenRefs(s, id, n, BUCKET_SIZE);
    }
  }

  /** The tests `Check_` makes on one entry; a missing index entry is inserted as zero. */
  method CheckEntry(m: AddrMan, n: int, ghost byAddr: map<NetAddr, int>) returns (code: int)
    requires n in m.mapInfo && forall ip :: Lookup(m.mapAddr, ip) == Lookup(byAddr, ip)
    modifies m`mapAddr
    ensures code == 0 <==> EntryOk(m.Abs(), byAddr, n)
    ensures forall ip :: Lookup(m.mapAddr, ip) == Lookup(byAddr, ip)
    ensures m.mapInfo[n].addr.service.ip in old(m.mapAddr) ==> m.mapAddr == old(m.mapAddr)
  {
    var info := m.mapInfo[n];
    if info.inTried {
      if info.lastSuccess == 0 {
        return -1;
      }
      if info.refCount != 0 {
        return -2;
      }
    } else {
      if info.refCount < 0 || info.refCount > NEW_BUCKETS_PER_ADDRESS {
        return -3;
      }
      if info.refCount == 0 {
        return -4;
      }
    }
    if info.addr.service.ip !in m.mapAddr {
      m.mapAddr := m.mapAddr[info.addr.service.ip := 0];
    }
    assert Lookup(m.mapAddr, info.addr.service.ip) == Lookup(byAddr, info.addr.service.ip);
    if m.mapAddr[info.addr.service.ip] != n {
      return -5;
    }
    if info.randomPos < 0 || info.randomPos >= |m.vRandom| || m.vRandom[info.randomPos] != n {
      return -14;
    }
    if info.lastTry < 0 {
      return -6;
    }
    if info.lastSuccess < 0 {
      return -8;
    }
    return 0;
  }

  /** The first loop of `Check_`, over all entries. */
  method CheckEntries(m: AddrMan) returns (code: int, setTried: set<int>, mapNew: map<int, int>)
    modifies m`mapAddr
    ensures code == 0 <==> forall n :: n in m.mapInfo ==> EntryOk(m.Abs(), old(m.mapAddr), n)
    ensures code == 0 ==> setTried == TriedIds(m.Abs()) && mapNew.Keys == NewIds(m.Abs()) &&
                          forall id :: id in mapNew ==> mapNew[id] == m.mapInfo[id].refCount
    ensures (forall n :: n in m.mapInfo ==> m.mapInfo[n].addr.service.ip in old(m.mapAddr)) ==>
              m.mapAddr == old(m.mapAddr)
  {
    setTried, mapNew := {}, map[];
    ghost var byAddr := m.mapAddr;
    var todo := m.mapInfo.Keys;
    while todo != {}
      invariant todo <= m.mapInfo.Keys
      invariant forall ip :: Lookup(m.mapAddr, ip) == Lookup(byAddr, ip)
      invariant (forall n :: n in m.mapInfo ==> m.mapInfo[n].addr.service.ip in byAddr) ==> m.mapAddr == byAddr
      invariant forall n :: n in m.mapInfo && n !in todo ==> EntryOk(m.Abs(), byAddr, n)
      invariant forall n :: n in setTried <==> n in m.mapInfo && n !in todo && m.mapInfo[n].inTried
      invariant forall n :: n in mapNew <==> n in m.mapInfo && n !in todo && !m.mapInfo[n].inTried
      invariant forall n :: n in mapNew ==> mapNew[n] == m.mapInfo[n].refCount
      decreases todo
    {
      Inhabited(todo);
      var n :| n in todo;
      todo := todo - {n};
      code := CheckEntry(m, n, byAddr);
      if code != 0 {
        return code, {}, map[];
      }
      if m.mapInfo[n].inTried {
        setTried := setTried + {n};
      } else {
        mapNew := mapNew[n := m.mapInfo[n].refCount];
      }
    }
    code := 0;
    forall id ensures id in setTried <==> id in TriedIds(m.Abs()) {}
    forall id ensures id in mapNew.Keys <==> id in NewIds(m.Abs()) {}
  }

  lemma Inhabited(s: set<int>)
    ensures s != {} ==> exists n :: n in s
  {
    if forall n :: n !in s {
      assert s == {};
    }
  }

  /** The scan of the tried table. */
  method CheckTried(m: AddrMan, setTried: set<int>) returns (code: int, rest: set<int>)
    requires m.Shape() && Framed(m.Abs()) && setTried == TriedIds(m.Abs())
    ensures code == 0 ==> TriedSoFar(m.hash, m.Abs(), TRIED_BUCKET_COUNT, 0, rest)
    ensures code != 0 ==> !TablesOk(m.hash, m.Abs())
  {
    ghost var s := m.Abs();
    rest := setTried;
    assert TriedSoFar(m.hash, s, 0, 0, rest);
    for n := 0 to TRIED_BUCKET_COUNT
      invariant TriedSoFar(m.hash, s, n, 0, rest)
    {
      for i := 0 to BUCKET_SIZE
        invariant TriedSoFar(m.hash, s, n, i, rest)
      {
        if m.vvTried[n, i] != -1 {
          var e := m.vvTried[n, i];
          assert Slot(n, i) in s.tried && s.tried[Slot(n, i)] == e;
          if e !in rest {
            TriedMiss(m.hash, s, n, i, rest);
            return -11, rest;
          }
          assert e in s.info;
          if TriedBucket(m.hash, m.nKey, m.mapInfo[e].addr.service) != n {
            return -17, rest;
          }
          if Position(m.hash, m.nKey, false, n, m.mapInfo[e].addr.service) != i {
            return -18, rest;
          }
          TriedHit(m.hash, s, n, i, rest);
          rest := rest - {e};
        } else {
          TriedSkip(m.hash, s, n, i, rest);
        }
      }
      TriedRow(m.hash, s, n, rest);
    }
    code := 0;
  }

  /** The scan of the new table. */
  method CheckNew(m: AddrMan, mapNew: map<int, int>) returns (code: int, rest: map<int, int>)
    requires m.Shape() && Framed(m.Abs()) && mapNew.Keys == NewIds(m.Abs())
    requires forall id :: id in mapNew ==> mapNew[id] == m.mapInfo[id].refCount && mapNew[id] > 0
    ensures code == 0 ==> NewSoFar(m.hash, m.Abs(), NEW_BUCKET_COUNT, 0, rest)
    ensures code != 0 ==> !TablesOk(m.hash, m.Abs())
  {
    ghost var s := m.Abs();
    rest := mapNew;
    NewScanStart(m.hash, s, rest);
    for n := 0 to NEW_BUCKET_COUNT
      invariant NewSoFar(m.hash, s, n, 0, rest)
    {
      for i := 0 to BUCKET_SIZE
        invariant NewSoFar(m.hash, s, n, i, rest)
      {
        if m.vvNew[n, i] != -1 {
          var e := m.vvNew[n, i];
          assert Slot(n, i) in s.news && s.news[Slot(n, i)] == e;
          if e !in rest {
            NewMiss(m.hash, s, n, i, rest);
            return -12, rest;
          }
          assert e in s.info && rest[e] > 0;
          if Position(m.hash, m.nKey, true, n, m.mapInfo[e].addr.service) != i {
            return -19, rest;
          }
          ghost var before := rest;
          rest := rest[e := rest[e] - 1];
          if rest[e] == 0 {
            rest := rest - {e};
          }
          NewStep(m.hash, s, n, i, before, rest);
        } else {
          NewSkip(m.hash, s, n, i, rest);
        }
      }
      NewRow(m.hash, s, n, rest);
    }
    code := 0;
  }

  lemma NewStep(h: Hashes, s: State, n: int, i: int, rest: map<int, int>, rest': map<int, int>)
    requires NewSoFar(h, s, n, i, rest) && Slot(n, i) in s.news
    requires var e := s.news[Slot(n, i)];
             NewCellOk(h, s, Slot(n, i), e) && e in rest &&
             rest' == if rest[e] - 1 == 0 then rest[e := rest[e] - 1] - {e} else rest[e := rest[e] - 1]
    ensures NewSoFar(h, s, n, i + 1, rest')
  {
    var e := s.news[Slot(n, i)];
    assert rest[e := rest[e] - 1] - {e} == rest - {e};
    NewHit(h, s, n, i, rest, rest');
  }

  lemma NewScanStart(h: Hashes, s: State, rest: map<int, int>)
    requires rest.Keys == NewIds(s) && forall sl :: sl in s.news ==> 0 <= sl.bucket && 0 <= sl.pos
    requires forall id :: id in rest ==> rest[id] == s.info[id].refCount && rest[id] > 0
    ensures NewSoFar(h, s, 0, 0, rest)
  {
    forall id | id in s.info && !s.info[id].inTried
      ensures s.info[id].refCount == |SeenRefs(s, id, 0, 0)| + if id in rest then rest[id] else 0
    {
      assert SeenRefs(s, id, 0, 0) == {};
      assert id in NewIds(s);
    }
  }

  /** At the end of the tried scan, what is left over was not seated. */
  lemma TriedDone(h: Hashes, s: State, rest: set<int>)
    requires TriedSoFar(h, s, TRIED_BUCKET_COUNT, 0, rest) && Framed(s)
    ensures forall sl {:trigger s.tried[sl]} :: sl in s.tried ==> TriedCellOk(h, s, sl, s.tried[sl])
    ensures rest == {} <==> forall id {:trigger s.info[id]} :: id in s.info && s.info[id].inTried ==> Seated(h, s, id)
  {
    forall id | id in s.info
      ensures Before(TriedSlot(h, s.key, s.info[id].addr.service), TRIED_BUCKET_COUNT, 0)
    {
    }
    if rest != {} {
      Inhabited(rest);
      var id :| id in rest;
      assert id in s.info && s.info[id].inTried && !Seated(h, s, id);
    } else {
      forall id | id in s.info && s.info[id].inTried ensures Seated(h, s, id) {
        assert id !in rest;
      }
    }
  }

  /** At the end of the new scan, what is left over has too few references. */
  lemma NewDone(h: Hashes, s: State, rest: map<int, int>)
    requires NewSoFar(h, s, NEW_BUCKET_COUNT, 0, rest) && Framed(s)
    ensures forall sl {:trigger s.news[sl]} :: sl in s.news ==> NewCellOk(h, s, sl, s.news[sl])
    ensures rest == map[] <==> forall id {:trigger s.info[id]} :: id in s.info && !s.info[id].inTried ==>
                                 |Refs(s.news, id)| == s.info[id].refCount
  {
    forall id | id in s.info && !s.info[id].inTried
      ensures s.info[id].refCount == |Refs(s.news, id)| + if id in rest then rest[id] else 0
    {
      assert SeenRefs(s, id, NEW_BUCKET_COUNT, 0) == Refs(s.news, id);
      assert s.info[id].refCount == |SeenRefs(s, id, NEW_BUCKET_COUNT, 0)| + if id in rest then rest[id] else 0;
    }
    if rest != map[] {
      assert rest.Keys != {};
      Inhabited(rest.Keys);
      var id :| id in rest.Keys;
      assert id in rest;
      assert |Refs(s.news, id)| != s.info[id].refCount;
    }
  }

  /** Both table scans of `Check_` and the tests that nothing is left over. */
  method CheckTables(m: AddrMan, setTried: set<int>, mapNew: map<int, int>) returns (code: int)
    requires m.Shape() && Framed(m.Abs()) && setTried == TriedIds(m.Abs()) && mapNew.Keys == NewIds(m.Abs())
    requires forall id :: id in mapNew ==> mapNew[id] == m.mapInfo[id].refCount && mapNew[id] > 0
    ensures code == 0 <==> TablesOk(m.hash, m.Abs())
  {
    var triedCode, triedRest := CheckTried(m, setTried);
    if triedCode != 0 {
      return triedCode;
    }
    var newCode, newRest := CheckNew(m, mapNew);
    if newCode != 0 {
      return newCode;
    }
    TriedDone(m.hash, m.Abs(), triedRest);
    NewDone(m.hash, m.Abs(), newRest);
    if |triedRest| != 0 {
      return -13;
    }
    if |newRest| != 0 {
      return -15;
    }
    return 0;
  }

  /** `Check_`. */
  method Check(m: AddrMan) returns (code: int)
    requires m.Shape() && Framed(m.Abs())
    modifies m`mapAddr
    ensures code == 0 <==> CheckOk(m.hash, old(m.Abs()))
    ensures AddrOk(old(m.Abs())) ==> m.Abs() == old(m.Abs())
  {
    ghost var s := m.Abs();
    if |m.vRandom| != m.nTried + m.nNew {
      return -7;
    }
    var entries, setTried, mapNew := CheckEntries(m);
    if entries != 0 {
      return entries;
    }
    assert forall n :: n in s.info ==> EntryOk(s, s.byAddr, n);
    if |setTried| != m.nTried {
      return -9;
    }
    if |mapNew| != m.nNew {
      return -10;
    }
    OnlyIndex(m.hash, s, m.Abs());
    code := CheckTables(m, setTried, mapNew);
    if code != 0 {
      return;
    }
    if m.nKey == 0 {
      return -16;
    }
  }

  // ----- the check and the invariant -----

  /** What `Check_` does not look at: ids below the counter, no stale index entry, and an
      index entry for id 0, whose absence reads as the right answer. */
  ghost predicate Unchecked(s: State) {
    IdsOk(s) &&
    (forall ip :: ip in s.byAddr ==> s.byAddr[ip] in s.info && s.info[s.byAddr[ip]].addr.service.ip == ip) &&
    (0 in s.info ==> s.info[0].addr.service.ip in s.byAddr)
  }

  lemma IdsPartition(s: State)
    ensures |s.info.Keys| == |TriedIds(s)| + |NewIds(s)|
  {
    forall id ensures id in s.info.Keys <==> id in TriedIds(s) + NewIds(s) {}
    assert s.info.Keys == TriedIds(s) + NewIds(s);
    assert TriedIds(s) !! NewIds(s);
  }

  lemma {:induction false} Range(n: nat) returns (r: set<int>)
    ensures |r| == n && forall k :: k in r <==> 0 <= k < n
  {
    if n == 0 {
      r := {};
    } else {
      r := Range(n - 1);
      r := r + {n - 1};
    }
  }

  /** Distinct entries sit at distinct positions. */
  lemma {:induction false} Positions(s: State, ids: set<int>) returns (ps: set<int>)
    requires forall id :: id in ids ==>
               id in s.info && 0 <= s.info[id].randomPos < |s.random| && s.random[s.info[id].randomPos] == id
    ensures |ps| == |ids|
    ensures forall p :: p in ps ==>
              0 <= p < |s.random| && s.random[p] in ids && s.random[p] in s.info && s.info[s.random[p]].randomPos == p
    decreases ids
  {
    if ids == {} {
      ps := {};
    } else {
      Inhabited(ids);
      var id :| id in ids;
      var rest := Positions(s, ids - {id});
      ps := rest + {s.info[id].randomPos};
    }
  }

  /** As many positions as entries, each entry at its own: then every position is taken. */
  lemma RandomFull(s: State)
    requires forall id :: id in s.info ==>
             0 <= s.info[id].randomPos < |s.random| && s.random[s.info[id].randomPos] == id
    ensures |s.info.Keys| == |s.random| <==>
            forall k :: 0 <= k < |s.random| ==> s.random[k] in s.info && s.info[s.random[k]].randomPos == k
  {
    var ps := Positions(s, s.info.Keys);
    var r := Range(|s.random|);
    forall p | p in ps ensures p in r {}
    SubsetSize(ps, r);
    if |s.info.Keys| == |s.random| {
      forall k | 0 <= k < |s.random| ensures s.random[k] in s.info && s.info[s.random[k]].randomPos == k {
        assert k in r && k in ps;
      }
    }
    if forall k :: 0 <= k < |s.random| ==> s.random[k] in s.info && s.info[s.random[k]].randomPos == k {
      var taken := AllTaken(s, |s.random|);
      SubsetSize(taken, s.info.Keys);
    }
  }

  lemma {:induction false} AllTaken(s: State, n: nat) returns (ids: set<int>)
    requires n <= |s.random|
    requires forall k :: 0 <= k < |s.random| ==> s.random[k] in s.info && s.info[s.random[k]].randomPos == k
    ensures |ids| == n && ids <= s.info.Keys && forall id :: id in ids ==> id in s.info && s.info[id].randomPos < n
  {
    if n == 0 {
      ids := {};
    } else {
      ids := AllTaken(s, n - 1);
      var last := s.random[n - 1];
      assert last in s.info && s.info[last].randomPos == n - 1;
      assert last !in ids;
      ids := ids + {last};
    }
  }

  /** The invariant implies everything `Check_` tests. */
  lemma InvPassesCheck(h: Hashes, s: State)
    requires Inv(h, s)
    ensures CheckOk(h, s) && Framed(s) && Unchecked(s)
  {
    OpenCore(h, s, 0, 0, {});
    IdsPartition(s);
    forall id | id in s.info ensures 0 <= s.info[id].randomPos < |s.random| && s.random[s.info[id].randomPos] == id {}
    RandomFull(s);
    forall n | n in s.info ensures EntryOk(s, s.byAddr, n) {
      assert s.info[n].lastTry >= 0 && s.info[n].randomPos >= 0 && s.info[n].addr.service.ip in s.byAddr;
      assert s.info[n].refCount == |Refs(s.news, n)|;
      if s.info[n].inTried {
        TriedUnreferenced(h, s, n);
      }
    }
    InvTables(h, s);
  }

  lemma TriedUnreferenced(h: Hashes, s: State, n: int)
    requires FreshOk(h, s) && n in s.info && s.info[n].inTried
    ensures Refs(s.news, n) == {}
  {
    forall sl | sl in s.news ensures s.news[sl] != n {
      assert FreshSlotOk(h, s, sl, s.news[sl]);
    }
  }

  lemma InvTables(h: Hashes, s: State)
    requires TriedOk(h, s) && FreshOk(h, s) && RefOk(s)
    ensures TablesOk(h, s) && Framed(s)
  {
    forall sl | sl in s.tried
      ensures TriedCellOk(h, s, sl, s.tried[sl]) && 0 <= sl.bucket < TRIED_BUCKET_COUNT && 0 <= sl.pos < BUCKET_SIZE
    {
      assert s.tried[sl] in s.info;
    }
    forall sl | sl in s.news
      ensures NewCellOk(h, s, sl, s.news[sl]) && 0 <= sl.bucket < NEW_BUCKET_COUNT && 0 <= sl.pos < BUCKET_SIZE
    {
      assert FreshSlotOk(h, s, sl, s.news[sl]);
    }
    forall id | id in s.info && s.info[id].inTried ensures Seated(h, s, id) {}
    forall id | id in s.info && !s.info[id].inTried ensures |Refs(s.news, id)| == s.info[id].refCount {
      assert s.info[id].refCount == |Refs(s.news, id)|;
    }
  }

  /** `Check_` together with what it takes for granted is the invariant. */
  lemma CheckIsInv(h: Hashes, s: State)
    requires Framed(s)
    ensures Inv(h, s) <==> CheckOk(h, s) && Unchecked(s)
  {
    if Inv(h, s) {
      InvPassesCheck(h, s);
    }
    if CheckOk(h, s) && Unchecked(s) {
      CheckEntriesGive(h, s);
      CheckTablesGive(h, s);
      assert CountOk(s, 0, 0);
      CloseCore(h, s, 0, 0, {});
    }
  }

  /** An index entry without its entry passes `Check_` although the invariant fails. */
  lemma CheckMisses(h: Hashes)
    ensures var s := State(1, 0, map[], map[5 := 7], [], 0, map[], 0, map[]);
            Framed(s) && CheckOk(h, s) && !Inv(h, s)
  {
    var s := State(1, 0, map[], map[5 := 7], [], 0, map[], 0, map[]);
    assert s.byAddr[5] == 7;
    CheckIsInv(h, s);
    assert NewIds(s) == {} && TriedIds(s) == {};
  }


  lemma CheckEntriesGive(h: Hashes, s: State)
    requires CheckOk(h, s) && Unchecked(s)
    ensures AddrOk(s) && RandomOk(s) && TimesOk(s) && RangeOk(s, {})
  {
    IdsPartition(s);
    forall id | id in s.info
      ensures 0 <= s.info[id].randomPos < |s.random| && s.random[s.info[id].randomPos] == id &&
              s.info[id].addr.service.ip in s.byAddr && s.byAddr[s.info[id].addr.service.ip] == id &&
              s.info[id].lastTry >= 0 && s.info[id].lastSuccess >= 0 &&
              (if s.info[id].inTried then s.info[id].lastSuccess != 0
               else 1 <= s.info[id].refCount <= NEW_BUCKETS_PER_ADDRESS)
    {
      assert EntryOk(s, s.byAddr, id);
    }
    RandomFull(s);
  }

  lemma CheckTablesGive(h: Hashes, s: State)
    requires TablesOk(h, s) && Framed(s)
    requires forall n {:trigger s.info[n]} :: n in s.info ==> EntryOk(s, s.byAddr, n)
    ensures TriedOk(h, s) && FreshOk(h, s) && RefOk(s)
  {
    forall sl | sl in s.tried
      ensures s.tried[sl] in s.info && s.info[s.tried[sl]].inTried &&
              sl == TriedSlot(h, s.key, s.info[s.tried[sl]].addr.service)
    {
      assert TriedCellOk(h, s, sl, s.tried[sl]);
    }
    forall id | id in s.info && s.info[id].inTried
      ensures TriedSlot(h, s.key, s.info[id].addr.service) in s.tried &&
              s.tried[TriedSlot(h, s.key, s.info[id].addr.service)] == id
    {
      assert Seated(h, s, id);
    }
    forall sl | sl in s.news ensures FreshSlotOk(h, s, sl, s.news[sl]) {
      assert NewCellOk(h, s, sl, s.news[sl]);
    }
    forall id | id in s.info ensures s.info[id].refCount == |Refs(s.news, id)| {
      assert EntryOk(s, s.byAddr, id);
      if s.info[id].inTried {
        TriedUnreferenced(h, s, id);
      }
    }
  }

  // ----- whole runs -----

  /** One public operation with the outside inputs it reads: clocks, draws, routability. */
  datatype Op =
    | OpAdd(addr: Address, source: NetAddr, penalty: int, routable: bool, now: int, roll: nat)
    | OpGood(service: Service, time: int, rnd: nat)
    | OpAttempt(service: Service, time: int)
    | OpConnected(service: Service, time: int)
    | OpGetAddr(clock: nat -> int, draw: nat -> nat)

  /** Times handed to `Good` are positive and to `Attempt` not negative, as a clock's are. */
  predicate TimeOk(op: Op) {
    (op.OpGood? ==> op.time > 0) && (op.OpAttempt? ==> op.time >= 0)
  }

  /** The state after an operation. */
  ghost function After(h: Hashes, s: State, op: Op): (r: State)
    requires Inv(h, s) && TimeOk(op)
    ensures Inv(h, r)
  {
    match op
    case OpAdd(addr, source, penalty, routable, now, roll) =>
      Ops.AddKeeps(h, s, addr, source, penalty, routable, now, roll);
      Ops.Add(h, s, addr, source, penalty, routable, now, roll)
    case OpGood(service, time, _) =>
      Ops.GoodKeeps(h, s, service, time);
      Ops.Good(h, s, service, time)
    case OpAttempt(service, time) =>
      Ops.AttemptKeeps(h, s, service, time);
      Ops.Attempt(s, service, time)
    case OpConnected(service, time) =>
      Ops.ConnectedKeeps(h, s, service, time);
      Ops.Connected(s, service, time)
    case OpGetAddr(now, draw) =>
      GetAddrsKeeps(h, s, now, draw);
      GetAddrs(s, now, draw).0
  }

  datatype Answer = Added(isNew: bool) | Listed(addrs: seq<Address>)

  ghost function Answers(s: State, op: Op): seq<Answer> {
    match op
    case OpAdd(addr, _, _, routable, _, _) => [Added(routable && addr.service.ip !in s.byAddr)]
    case OpGetAddr(now, draw) => [Listed(GetAddrs(s, now, draw).1)]
    case _ => []
  }

  ghost predicate Run(key: Key, ops: seq<Op>) {
    key != 0 && forall i :: 0 <= i < |ops| ==> TimeOk(ops[i])
  }

  /** The state after the first n operations on a fresh manager: the invariant holds in every state of every run. */
  ghost function Reached(h: Hashes, key: Key, ops: seq<Op>, n: nat): (s: State)
    requires Run(key, ops) && n <= |ops|
    ensures Inv(h, s)
  {
    if n == 0 then
      Ops.EmptyInv(h, key);
      State(key, 0, map[], map[], [], 0, map[], 0, map[])
    else After(h, Reached(h, key, ops, n - 1), ops[n - 1])
  }

  ghost function AllAnswers(h: Hashes, key: Key, ops: seq<Op>, n: nat): seq<Answer>
    requires Run(key, ops) && n <= |ops|
  {
    if n == 0 then []
    else AllAnswers(h, key, ops, n - 1) + Answers(Reached(h, key, ops, n - 1), ops[n - 1])
  }

  /** `Check_` accepts every state of every run. */
  lemma ReachedPasses(h: Hashes, key: Key, ops: seq<Op>, n: nat)
    requires Run(key, ops) && n <= |ops|
    ensures CheckOk(h, Reached(h, key, ops, n)) && Framed(Reached(h, key, ops, n))
  {
    InvPassesCheck(h, Reached(h, key, ops, n));
  }

  method Apply(m: AddrMan, op: Op) returns (answers: seq<Answer>)
    requires m.Valid() && TimeOk(op)
    modifies m, m.vvNew, m.vvTried
    ensures m.Valid() && old(Inv(m.hash, m.Abs())) && m.Abs() == After(m.hash, old(m.Abs()), op)
    ensures answers == Answers(old(m.Abs()), op)
  {
    answers := [];
    match op {
      case OpAdd(addr, source, penalty, routable, now, roll) =>
        var isNew := m.Add(addr, source, penalty, routable, now, roll);
        answers := [Added(isNew)];
      case OpGood(service, time, rnd) => m.Good(service, time, rnd);
      case OpAttempt(service, time) => m.Attempt(service, time);
      case OpConnected(service, time) => m.Connected(service, time);
      case OpGetAddr(now, draw) =>
        var addrs, seen := m.GetAddr(now, draw);
        answers := [Listed(addrs)];
    }
  }

  /** Every run on a real manager, whatever the hashes, the key, the addresses and the draws: it ends in the state
      of the run with the answers of the run, and passes `Check_`, which changes nothing. */
  method RunThenCheck(hash: Hashes, key: Key, ops: seq<Op>) returns (m: AddrMan, answers: seq<Answer>, code: int)
    requires Run(key, ops)
    ensures m.Valid() && m.hash == hash && m.Abs() == Reached(hash, key, ops, |ops|)
    ensures answers == AllAnswers(hash, key, ops, |ops|)
    ensures code == 0
  {
    m := new AddrMan(hash, key);
    answers := [];
    for i := 0 to |ops|
      invariant m.Shape() && m.hash == hash && m.Abs() == Reached(hash, key, ops, i)
      invariant answers == AllAnswers(hash, key, ops, i)
      invariant fresh(m) && fresh(m.vvNew) && fresh(m.vvTried)
    {
      var more := Apply(m, ops[i]);
      answers := answers + more;
    }
    ReachedPasses(hash, key, ops, |ops|);
    assert AddrOk(m.Abs()) by { OpenCore(hash, m.Abs(), 0, 0, {}); }
    code := Check(m);
  }
}
