/** `CAddrMan`: the in-place address manager, each method proved against its function on the state. */
module AddrManager {
  import opened Folding
  import opened AddrState
  import Ops = AddrOps

  const GETADDR_MAX_PCT: nat := 23
  const GETADDR_MAX: nat := 2500

  ghost function Cell(m: map<Slot, int>, sl: Slot): int {
    if sl in m then m[sl] else -1
  }

  /** A bucket table holds -1 in its free slots and the mapped id in the others. */
  ghost predicate Mirrors(a: array2<int>, m: map<Slot, int>)
    reads a
  {
    (forall b, i :: 0 <= b < a.Length0 && 0 <= i < a.Length1 ==> a[b, i] == Cell(m, Slot(b, i))) &&
    (forall sl :: sl in m ==> m[sl] != -1)
  }

  class AddrMan {
    const hash: Hashes
    var nKey: Key
    var nIdCount: int
    var mapInfo: map<int, Info>
    var mapAddr: map<NetAddr, int>
    var vRandom: seq<int>
    var nTried: int
    const vvTried: array2<int>
    var nNew: int
    const vvNew: array2<int>

    // what the two tables hold, without the free slots
    ghost var tried: map<Slot, int>
    ghost var news: map<Slot, int>

    /** The tables have their fixed dimensions and hold what the ghost maps say. */
    ghost predicate Shape()
      reads this, vvTried, vvNew
    {
      vvTried.Length0 == TRIED_BUCKET_COUNT && vvTried.Length1 == BUCKET_SIZE &&
      vvNew.Length0 == NEW_BUCKET_COUNT && vvNew.Length1 == BUCKET_SIZE && vvTried != vvNew &&
      Mirrors(vvTried, tried) && Mirrors(vvNew, news)
    }

    ghost function Abs(): State
      reads this
    {
      State(nKey, nIdCount, mapInfo, mapAddr, vRandom, nTried, tried, nNew, news)
    }

    ghost predicate Valid()
      reads this, vvTried, vvNew
    {
      Shape() && Inv(hash, Abs())
    }

    /** A fresh manager; `Clear` fills both tables with -1 and draws the key. */
    constructor (hash: Hashes, key: Key)
      ensures Shape() && fresh(vvTried) && fresh(vvNew) && this.hash == hash
      ensures Abs() == State(key, 0, map[], map[], [], 0, map[], 0, map[])
      ensures key != 0 ==> Valid()
    {
      this.hash := hash;
      nKey, nIdCount, mapInfo, mapAddr, vRandom, nTried, nNew := key, 0, map[], map[], [], 0, 0;
      vvTried := new int[TRIED_BUCKET_COUNT, BUCKET_SIZE]((_, _) => -1);
      vvNew := new int[NEW_BUCKET_COUNT, BUCKET_SIZE]((_, _) => -1);
      tried, news := map[], map[];
      new;
      ghost var s := Abs();
      assert NewIds(s) == {} && TriedIds(s) == {};
      CloseCore(hash, s, 0, 0, {});
    }

    method StoreNew(b: nat, i: nat, v: int)
      requires Shape() && b < NEW_BUCKET_COUNT && i < BUCKET_SIZE
      modifies vvNew, `news
      ensures Shape()
      ensures news == if v == -1 then old(news) - {Slot(b, i)} else old(news)[Slot(b, i) := v]
    {
      vvNew[b, i] := v;
      news := if v == -1 then news - {Slot(b, i)} else news[Slot(b, i) := v];
    }

    method StoreTried(b: nat, i: nat, v: int)
      requires Shape() && b < TRIED_BUCKET_COUNT && i < BUCKET_SIZE
      modifies vvTried, `tried
      ensures Shape()
      ensures tried == if v == -1 then old(tried) - {Slot(b, i)} else old(tried)[Slot(b, i) := v]
    {
      vvTried[b, i] := v;
      tried := if v == -1 then tried - {Slot(b, i)} else tried[Slot(b, i) := v];
    }

    method SwapRandom(i: nat, j: nat)
      requires i < |vRandom| && j < |vRandom| && RandomOk(Abs())
      modifies `mapInfo, `vRandom
      ensures old(RandomOk(Abs())) && Abs() == AddrState.SwapRandom(old(Abs()), i, j)
    {
      if i == j {
        return;
      }
      var id1, id2 := vRandom[i], vRandom[j];
      assert Abs().random[i] in mapInfo && Abs().random[j] in mapInfo;
      mapInfo := mapInfo[id1 := mapInfo[id1].(randomPos := j)];
      mapInfo := mapInfo[id2 := mapInfo[id2].(randomPos := i)];
      vRandom := vRandom[i := id2];
      vRandom := vRandom[j := id1];
    }

    method Delete(id: int)
      requires RandomOk(Abs()) && id in mapInfo && !mapInfo[id].inTried && mapInfo[id].refCount == 0
      modifies `mapInfo, `mapAddr, `vRandom, `nNew
      ensures Abs() == AddrState.Delete(old(Abs()), id)
    {
      var info := mapInfo[id];
      ghost var s := Abs();
      assert 0 <= s.info[id].randomPos < |s.random|;
      SwapRandom(info.randomPos, |vRandom| - 1);
      assert |vRandom| == |s.random| && id in mapInfo && mapInfo[id].addr == info.addr by {
        SwapRandomKeeps(s, info.randomPos, |s.random| - 1);
        assert SameEntry(Abs().info[id], s.info[id]);
      }
      vRandom := vRandom[..|vRandom| - 1];
      mapAddr := mapAddr - {info.addr.service.ip};
      mapInfo := mapInfo - {id};
      nNew := nNew - 1;
    }

    method ClearNew(b: nat, p: nat, ghost newOff: int, ghost triedOff: int, ghost except: set<int>)
      requires Shape() && b < NEW_BUCKET_COUNT && p < BUCKET_SIZE
      requires Core(hash, Abs(), newOff, triedOff, except)
      modifies `mapInfo, `mapAddr, `vRandom, `nNew, `news, vvNew
      ensures Shape()
      ensures old(RandomOk(Abs()) && FreshLinked(Abs())) && Abs() == AddrState.ClearNew(old(Abs()), Slot(b, p))
    {
      ghost var s := Abs();
      CoreParts(hash, s, newOff, triedOff, except);
      if vvNew[b, p] != -1 {
        var id := vvNew[b, p];
        assert Slot(b, p) in s.news && s.news[Slot(b, p)] == id;
        DropRefKeeps(hash, s, Slot(b, p), DropRef(s, Slot(b, p)), newOff, triedOff, except);
        assert mapInfo[id].refCount > 0;
        mapInfo := mapInfo[id := mapInfo[id].(refCount := mapInfo[id].refCount - 1)];
        StoreNew(b, p, -1);
        assert Abs() == DropRef(s, Slot(b, p));
        if mapInfo[id].refCount == 0 {
          Delete(id);
        }
      }
    }

    /** The loop of `MakeTried`: takes an entry out of every new bucket it is in. */
    method LeaveNew(id: int)
      requires Shape() && Core(hash, Abs(), 0, 0, {}) && id in mapInfo && id != -1
      modifies `mapInfo, `news, vvNew
      ensures Shape() && Abs().(nNew := nNew - 1) == Detach(old(Abs()), id)
    {
      ghost var s := Abs();
      RemainingStart(hash, s, id);
      var service := mapInfo[id].addr.service;
      for bucket := 0 to NEW_BUCKET_COUNT
        invariant Shape() && news == Remaining(s.news, id, bucket)
        invariant id in mapInfo && mapInfo[id].refCount == |Refs(news, id)|
        invariant mapInfo == s.info[id := s.info[id].(refCount := mapInfo[id].refCount)]
      {
        var pos := Position(hash, nKey, true, bucket, service);
        RemainingStep(hash, s, id, bucket, Slot(bucket, pos));
        if vvNew[bucket, pos] == id {
          RefsWithout(news, Slot(bucket, pos), id);
          StoreNew(bucket, pos, -1);
          mapInfo := mapInfo[id := mapInfo[id].(refCount := mapInfo[id].refCount - 1)];
        }
      }
      RemainingDone(hash, s, id);
    }

    /** The eviction in `MakeTried`: the occupant of a tried slot goes back to the new table. */
    method Evict(b: nat, p: nat, ghost id: int)
      requires Shape() && b < TRIED_BUCKET_COUNT && p < BUCKET_SIZE && vvTried[b, p] != -1
      requires Core(hash, Abs(), 1, 0, {id}) && id in mapInfo && !mapInfo[id].inTried && mapInfo[id].refCount == 0
      requires tried[Slot(b, p)] in mapInfo && mapInfo[tried[Slot(b, p)]].inTried
      modifies `mapInfo, `mapAddr, `vRandom, `nNew, `nTried, `news, `tried, vvNew, vvTried
      ensures Shape() && Abs() == Ops.Displace(hash, old(Abs()), Slot(b, p), id)
    {
      ghost var s := Abs();
      ghost var sl := Slot(b, p);
      var e := vvTried[b, p];
      assert s.tried[sl] == e;
      Ops.UnseatKeeps(hash, s, sl, Ops.Unseat(s, sl), 1, 0, {id});
      mapInfo := mapInfo[e := mapInfo[e].(inTried := false)];
      StoreTried(b, p, -1);
      nTried := nTried - 1;
      assert Abs() == Ops.Unseat(s, sl);
      assert e != -1 by { CoreParts(hash, Abs(), 2, 0, {id} + {e}); }
      var ub := NewBucket(hash, nKey, mapInfo[e].addr.service, mapInfo[e].source);
      var up := Position(hash, nKey, true, ub, mapInfo[e].addr.service);
      Return(e, ub, up, {id} + {e});
    }

    /** An entry without references gets one, in place of whatever is in the slot. */
    method Return(e: int, ub: nat, up: nat, ghost except: set<int>)
      requires Shape() && ub < NEW_BUCKET_COUNT && up < BUCKET_SIZE && Core(hash, Abs(), 2, 0, except)
      requires e in mapInfo && e != -1 && mapInfo[e].refCount == 0
      modifies `mapInfo, `mapAddr, `vRandom, `nNew, `news, vvNew
      ensures Shape() && old(RandomOk(Abs()) && FreshLinked(Abs()))
      ensures var v := AddrState.ClearNew(old(Abs()), Slot(ub, up));
              e in v.info && Abs() == AddRef(v, e, Slot(ub, up)).(nNew := v.nNew + 1)
    {
      ghost var u := Abs();
      ghost var home := Slot(ub, up);
      CoreParts(hash, u, 2, 0, except);
      ClearNew(ub, up, 2, 0, except);
      ghost var v := Abs();
      StillThere(hash, u, home, v, e, except);
      assert vvNew[ub, up] == -1;
      Refer(e, ub, up);
    }

    /** A first reference. */
    method Refer(e: int, ub: nat, up: nat)
      requires Shape() && ub < NEW_BUCKET_COUNT && up < BUCKET_SIZE
      requires e in mapInfo && e != -1 && mapInfo[e].refCount == 0
      modifies `mapInfo, `nNew, `news, vvNew
      ensures Shape() && Abs() == AddRef(old(Abs()), e, Slot(ub, up)).(nNew := old(nNew) + 1)
    {
      mapInfo := mapInfo[e := mapInfo[e].(refCount := 1)];
      StoreNew(ub, up, e);
      nNew := nNew + 1;
    }

    /** `MakeTried`. */
    method MakeTried(id: int)
      requires Shape() && Core(hash, Abs(), 0, 0, {}) && id in mapInfo && !mapInfo[id].inTried && id != -1
      modifies this, vvNew, vvTried
      ensures Shape() && Abs() == Ops.MakeTried(hash, old(Abs()), id)
    {
      ghost var s := Abs();
      ghost var a := Detach(s, id);
      assert Core(hash, a, 1, 0, {id}) by {
        DetachKeeps(hash, s, id, a, 0, 0, {});
        assert {} + {id} == {id};
      }
      CoreParts(hash, a, 1, 0, {id});
      LeaveNew(id);
      nNew := nNew - 1;
      assert Abs() == a;
      assert mapInfo[id].refCount == 0;
      var kb := TriedBucket(hash, nKey, mapInfo[id].addr.service);
      var kp := Position(hash, nKey, false, kb, mapInfo[id].addr.service);
      if vvTried[kb, kp] != -1 {
        Ops.DisplaceKeeps(hash, a, Slot(kb, kp), id, Ops.Displace(hash, a, Slot(kb, kp), id));
        Evict(kb, kp, id);
      }
      assert vvTried[kb, kp] == -1;
      Promote(id, kb, kp);
    }

    /** The last lines of `MakeTried`. */
    method Promote(id: int, kb: nat, kp: nat)
      requires Shape() && id in mapInfo && id != -1 && kb < TRIED_BUCKET_COUNT && kp < BUCKET_SIZE
      modifies `mapInfo, `nTried, `tried, vvTried
      ensures Shape() && Abs() == Ops.Seat(old(Abs()), id, Slot(kb, kp))
    {
      StoreTried(kb, kp, id);
      nTried := nTried + 1;
      mapInfo := mapInfo[id := mapInfo[id].(inTried := true)];
    }

    /** `Find`. */
    method Find(ip: NetAddr) returns (found: bool, id: int)
      ensures found <==> ip in mapAddr && mapAddr[ip] in mapInfo
      ensures found ==> id == mapAddr[ip]
    {
      if ip !in mapAddr {
        return false, 0;
      }
      return mapAddr[ip] in mapInfo, mapAddr[ip];
    }

    /** The search of `Good_` for a new bucket holding the entry, from a random bucket onwards;
        a referenced entry is always found, wherever the search starts. */
    method FindBucket(id: int, rnd: nat) returns (bucket: int)
      requires Shape() && Core(hash, Abs(), 0, 0, {}) && id in mapInfo && !mapInfo[id].inTried && id != -1
      ensures 0 <= bucket < NEW_BUCKET_COUNT
      ensures Slot(bucket, Position(hash, nKey, true, bucket, mapInfo[id].addr.service)) in Refs(news, id)
    {
      var service := mapInfo[id].addr.service;
      var n := 0;
      while n < NEW_BUCKET_COUNT
        invariant 0 <= n <= NEW_BUCKET_COUNT
        invariant forall m :: 0 <= m < n ==> !Holds(hash, Abs(), id, rnd, m)
      {
        var b := (n + rnd) % NEW_BUCKET_COUNT;
        var pos := Position(hash, nKey, true, b, service);
        if vvNew[b, pos] == id {
          return b;
        }
        assert !Holds(hash, Abs(), id, rnd, n);
        n := n + 1;
      }
      SomeBucket(hash, Abs(), id, rnd);
      assert false;
      bucket := 0;
    }

    /** `Good_`. The random starting bucket has no influence. */
    method Good(service: Service, time: int, rnd: nat)
      requires Valid()
      modifies this, vvNew, vvTried
      ensures Shape() && old(Inv(hash, Abs())) && Abs() == Ops.Good(hash, old(Abs()), service, time)
      ensures Valid() <==> !old(Ops.Matches(Abs(), service)) || time > 0
    {
      ghost var s := Abs();
      Ops.GoodKeeps(hash, s, service, time);
      var found, id := Find(service.ip);
      if !found || mapInfo[id].addr.service != service {
        return;
      }
      KnownId(hash, s, id);
      mapInfo := mapInfo[id := mapInfo[id].(lastSuccess := time, lastTry := time, attempts := 0)];
      TouchKeeps(hash, s, id, mapInfo[id], Abs(), 0, 0, {});
      if mapInfo[id].inTried {
        return;
      }
      var bucket := FindBucket(id, rnd);
      MakeTried(id);
    }

    /** `Attempt_`. */
    method Attempt(service: Service, time: int)
      requires Valid()
      modifies `mapInfo
      ensures Shape() && Abs() == Ops.Attempt(old(Abs()), service, time)
      ensures Valid() <==> !old(Ops.Matches(Abs(), service)) || time >= 0
    {
      ghost var s := Abs();
      Ops.AttemptKeeps(hash, s, service, time);
      RecordAttempt(service, time);
    }

    method RecordAttempt(service: Service, time: int)
      modifies `mapInfo
      ensures Abs() == Ops.Attempt(old(Abs()), service, time)
    {
      var found, id := Find(service.ip);
      if !found || mapInfo[id].addr.service != service {
        return;
      }
      var info := mapInfo[id];
      info := info.(lastTry := time, attempts := info.attempts + 1);
      mapInfo := mapInfo[id := info];
    }

    /** `Connected_`. */
    method Connected(service: Service, time: int)
      requires Valid()
      modifies `mapInfo
      ensures Valid() && Abs() == Ops.Connected(old(Abs()), service, time)
    {
      ghost var s := Abs();
      Ops.ConnectedKeeps(hash, s, service, time);
      var found, id := Find(service.ip);
      if !found || mapInfo[id].addr.service != service {
        return;
      }
      var info := mapInfo[id];
      if time - info.addr.time > 20 * 60 {
        info := info.(addr := info.addr.(time := U32(time)));
        assert info == Ops.Seen(s.info[id], time);
        mapInfo := mapInfo[id := info];
        assert Abs() == SetInfo(s, id, info);
      }
    }

    /** Clears a slot of the new table and gives it to an entry. */
    method Claim(id: int, b: nat, p: nat)
      requires Shape() && Core(hash, Abs(), 0, 0, {id}) && id in mapInfo && id != -1
      requires b < NEW_BUCKET_COUNT && p < BUCKET_SIZE && vvNew[b, p] != id
      modifies `mapInfo, `mapAddr, `vRandom, `nNew, `news, vvNew
      ensures Shape() && old(RandomOk(Abs()) && FreshLinked(Abs()))
      ensures id in AddrState.ClearNew(old(Abs()), Slot(b, p)).info
      ensures Abs() == AddRef(AddrState.ClearNew(old(Abs()), Slot(b, p)), id, Slot(b, p))
    {
      ghost var s := Abs();
      CoreParts(hash, s, 0, 0, {id});
      ClearNewKeeps(hash, s, Slot(b, p), AddrState.ClearNew(s, Slot(b, p)), 0, 0, {id});
      ClearNew(b, p, 0, 0, {id});
      mapInfo := mapInfo[id := mapInfo[id].(refCount := mapInfo[id].refCount + 1)];
      StoreNew(b, p, id);
    }

    /** The tail of `Add_`. */
    method Insert(id: int, source: NetAddr, now: int)
      requires Shape() && Core(hash, Abs(), 0, 0, {id}) && id in mapInfo && id != -1 && !mapInfo[id].inTried
      modifies `mapInfo, `mapAddr, `vRandom, `nNew, `news, vvNew
      ensures Shape()
      ensures Abs() == Ops.Insert(hash, old(Abs()), id, NewSlot(hash, nKey, old(mapInfo[id]).addr.service, source), now)
    {
      ghost var s := Abs();
      CoreParts(hash, s, 0, 0, {id});
      var service := mapInfo[id].addr.service;
      var ub := NewBucket(hash, nKey, service, source);
      var up := Position(hash, nKey, true, ub, service);
      if vvNew[ub, up] != id {
        var insert := vvNew[ub, up] == -1;
        if !insert {
          var existing := mapInfo[vvNew[ub, up]];
          if IsTerrible(existing, now) || (existing.refCount > 1 && mapInfo[id].refCount == 0) {
            insert := true;
          }
        }
        if insert {
          Claim(id, ub, up);
        } else {
          if mapInfo[id].refCount == 0 {
            Delete(id);
          }
        }
      }
    }

    /** `Add_` for an address already known: refreshes it, and may add a reference. */
    method AddKnown(id: int, addr: Address, source: NetAddr, penalty: int, now: int, roll: nat)
      requires Valid() && addr.service.ip in mapAddr && mapAddr[addr.service.ip] == id && id in mapInfo
      modifies `mapInfo, `mapAddr, `vRandom, `nNew, `news, vvNew
      ensures Shape() && old(Inv(hash, Abs()))
      ensures Abs() == Ops.Add(hash, old(Abs()), addr, source, penalty, true, now, roll)
    {
      ghost var s := Abs();
      KnownId(hash, s, id);
      var info := mapInfo[id];
      var online := now - addr.time < 24 * 60 * 60;
      var interval := if online then 60 * 60 else 24 * 60 * 60;
      if addr.time != 0 && (info.addr.time == 0 || info.addr.time < addr.time - interval - penalty) {
        info := info.(addr := info.addr.(time := U32(Ops.Max(0, addr.time - penalty))));
      }
      info := info.(addr := info.addr.(services := info.addr.services + addr.services));
      assert info == Ops.Refreshed(s.info[id], addr, penalty, now);
      mapInfo := mapInfo[id := info];
      Ops.RefreshKeeps(hash, s, id, info, Abs());
      if addr.time == 0 || (info.addr.time != 0 && addr.time <= info.addr.time) {
        return;
      }
      if info.inTried {
        return;
      }
      if info.refCount == NEW_BUCKETS_PER_ADDRESS {
        return;
      }
      Ops.RefBound(hash, Abs(), id);
      var factor := 1;
      for n := 0 to info.refCount
        invariant factor == Ops.Factor(n)
      {
        factor := factor * 2;
      }
      if factor > 1 && roll % factor != 0 {
        return;
      }
      Insert(id, source, now);
    }

    /** `Add_` for an unknown address: `Create`, then a first reference. */
    method AddUnknown(addr: Address, source: NetAddr, penalty: int, now: int, ghost roll: nat)
      requires Valid() && addr.service.ip !in mapAddr
      modifies `nIdCount, `mapInfo, `mapAddr, `vRandom, `nNew, `news, vvNew
      ensures Shape() && old(Inv(hash, Abs()))
      ensures Abs() == Ops.Add(hash, old(Abs()), addr, source, penalty, true, now, roll)
    {
      ghost var s := Abs();
      NextIdNonNegative(hash, s);
      Ops.CreatedKeeps(hash, s, addr, source, penalty, Ops.Created(s, addr, source, penalty));
      var id := nIdCount;
      nIdCount := nIdCount + 1;
      mapInfo := mapInfo[id := Info(addr, source, 0, 0, 0, 0, false, |vRandom|)];
      mapAddr := mapAddr[addr.service.ip := id];
      vRandom := vRandom + [id];
      mapInfo := mapInfo[id := mapInfo[id].(addr := addr.(time := U32(Ops.Max(0, addr.time - penalty))))];
      nNew := nNew + 1;
      assert Abs() == Ops.Created(s, addr, source, penalty);
      Insert(id, source, now);
    }

    /** `Add_`. */
    method Add(addr: Address, source: NetAddr, penalty: int, routable: bool, now: int, roll: nat) returns (isNew: bool)
      requires Valid()
      modifies this, vvNew
      ensures Valid() && old(Inv(hash, Abs()))
      ensures Abs() == Ops.Add(hash, old(Abs()), addr, source, penalty, routable, now, roll)
      ensures isNew <==> routable && addr.service.ip !in old(mapAddr)
      ensures isNew ==> (addr.service.ip in mapAddr <==> old(Ops.Welcome(hash, Abs(), addr, source, now)))
      ensures !isNew ==> (addr.service.ip in mapAddr <==> addr.service.ip in old(mapAddr))
    {
      Ops.AddKeeps(hash, Abs(), addr, source, penalty, routable, now, roll);
      Ops.AddKept(hash, Abs(), addr, source, penalty, routable, now, roll);
      CoreParts(hash, Abs(), 0, 0, {});
      if !routable {
        return false;
      }
      var found, id := Find(addr.service.ip);
      if found {
        AddKnown(id, addr, source, penalty, now, roll);
      } else {
        assert addr.service.ip !in Abs().byAddr;
        AddUnknown(addr, source, penalty, now, roll);
      }
      isNew := !found;
    }

    /** Brings the entry drawn for position n there; what was reported before is unaffected. */
    method SwapIn(n: nat, pos: nat, ghost s: State, ghost now: nat -> int)
      requires n <= pos < |vRandom| && Shuffled(s, Abs())
      modifies `mapInfo, `vRandom
      ensures Shuffled(s, Abs()) && |vRandom| == |old(vRandom)|
      ensures Decent(Abs(), n, now) == old(Decent(Abs(), n, now))
      ensures old(Drawable(Abs(), n, pos)) && Abs() == AddrState.SwapRandom(old(Abs()), n, pos)
    {
      ghost var t := Abs();
      assert Inside(0);
      SwapRandomKeeps(t, n, pos);
      SwapRandom(n, pos);
      DecentStable(t, Abs(), n, now);
      OrderChain(s, t, Abs());
    }

    /** `GetAddr_`: walks a random order drawn on the fly and reports decent addresses, up to
        23 percent of the entries and at most 2500. The clock is read anew for every entry. */
    method GetAddr(now: nat -> int, draw: nat -> nat) returns (addrs: seq<Address>, ghost seen: nat)
      requires Valid()
      modifies `mapInfo, `vRandom
      ensures Valid() && SameButOrder(old(Abs()), Abs()) && RandomOk(Abs()) && |vRandom| == |old(vRandom)|
      ensures seen <= |vRandom| && addrs == Decent(Abs(), seen, now)
      ensures var limit := if GETADDR_MAX_PCT * |vRandom| / 100 > GETADDR_MAX then GETADDR_MAX
                           else GETADDR_MAX_PCT * |vRandom| / 100;
              |addrs| <= limit && (|addrs| < limit ==> seen == |vRandom|)
      ensures (Abs(), addrs) == GetAddrs(old(Abs()), now, draw)
    {
      ghost var s := Abs();
      CoreParts(hash, s, 0, 0, {});
      SamePlaces(s);
      var nodes := GETADDR_MAX_PCT * |vRandom| / 100;
      if nodes > GETADDR_MAX {
        nodes := GETADDR_MAX;
      }
      ghost var goal := GetAddrs(s, now, draw);
      LeadsStart(s, nodes, now, draw, goal);
      WalkingClose(s, s, nodes, now, draw, 0, [], goal);
      addrs, seen := Gather(nodes, now, draw, s, goal);
      WalkingOpen(s, Abs(), nodes, now, draw, seen, addrs, goal);
      LeadsEnd(Abs(), nodes, now, draw, seen, addrs, goal);
      ShuffledKeeps(hash, s, Abs());
    }

    /** The walk, up to a number of addresses. */
    method Gather(nodes: int, now: nat -> int, draw: nat -> nat, ghost s: State, ghost goal: (State, seq<Address>))
      returns (addrs: seq<Address>, ghost seen: nat)
      requires nodes >= 0 && Walking(s, Abs(), nodes, now, draw, 0, [], goal)
      modifies `mapInfo, `vRandom
      ensures Walking(s, Abs(), nodes, now, draw, seen, addrs, goal) && (seen >= |vRandom| || |addrs| >= nodes)
    {
      addrs := [];
      var n := 0;
      while n < |vRandom| && |addrs| < nodes
        invariant Walking(s, Abs(), nodes, now, draw, n, addrs, goal)
        decreases |vRandom| - n
      {
        addrs := DrawNext(n, nodes, now, draw, addrs, s, n + 1, goal);
        n := n + 1;
      }
      seen := n;
    }

    /** One step of the walk. */
    method DrawNext(n: nat, ghost nodes: int, now: nat -> int, draw: nat -> nat, addrs: seq<Address>, ghost s: State,
                    ghost m: nat, ghost goal: (State, seq<Address>))
      returns (more: seq<Address>)
      requires Walking(s, Abs(), nodes, now, draw, n, addrs, goal) && n < |vRandom| && |addrs| < nodes && m == n + 1
      modifies `mapInfo, `vRandom
      ensures |vRandom| == |old(vRandom)| && Walking(s, Abs(), nodes, now, draw, m, more, goal)
    {
      ghost var u := Abs();
      WalkingOpen(s, u, nodes, now, draw, n, addrs, goal);
      var pos := Place(draw(n), n, |vRandom|);
      SwapIn(n, pos, s, now);
      var info := Drawn(n, s);
      more := Extended(addrs, info, now(n));
      LeadsNext(u, nodes, now, draw, n, addrs, pos, Abs(), m, more, goal);
      WalkingClose(s, Abs(), nodes, now, draw, m, more, goal);
    }

    /** The entry at a position of the random order. */
    method Drawn(n: nat, ghost s: State) returns (info: Info)
      requires n < |vRandom| && Shuffled(s, Abs())
      ensures vRandom[n] in mapInfo && info == mapInfo[vRandom[n]]
    {
      assert Inside(0);
      assert Abs().random[n] in mapInfo;
      info := mapInfo[vRandom[n]];
    }
  }

  /** A place from n on, drawn from a random number. */
  function Place(random: nat, n: nat, length: nat): (pos: nat)
    requires n < length
    ensures n <= pos < length
  {
    random % (length - n) + n
  }

  /** Every place from n on is drawn by some random number. */
  lemma PlaceReached(n: nat, length: nat, pos: nat)
    requires n <= pos < length
    ensures Place(pos - n, n, length) == pos
  {
  }

  /** Clearing a slot leaves an entry without references alone. */
  lemma StillThere(h: Hashes, u: State, home: Slot, v: State, e: int, except: set<int>)
    requires Core(h, u, 2, 0, except) && RandomOk(u) && FreshLinked(u) && v == AddrState.ClearNew(u, home)
    requires e in u.info && u.info[e].refCount == 0
    ensures e in v.info && v.info[e].refCount == 0
  {
    CoreParts(h, u, 2, 0, except);
    ClearNewKeeps(h, u, home, v, 2, 0, except);
    if home in u.news { assert home in Refs(u.news, u.news[home]); }
    assert SameEntry(v.info[e], u.info[e]);
  }

  predicate Drawable(s: State, n: nat, pos: nat) {
    n < |s.random| && pos < |s.random| && s.random[n] in s.info && s.random[pos] in s.info
  }

  function Extended(addrs: seq<Address>, i: Info, now: int): seq<Address> {
    if IsTerrible(i, now) then addrs else addrs + [i.addr]
  }

  /** The walk of `GetAddr_` from position n on, with the addresses so far. */
  function Gathered(s: State, nodes: int, now: nat -> int, draw: nat -> nat, n: nat, addrs: seq<Address>)
    : (r: (State, seq<Address>))
    decreases |s.random| - n
  {
    if n >= |s.random| || |addrs| >= nodes then (s, addrs) else
      var pos := Place(draw(n), n, |s.random|);
      if !Drawable(s, n, pos) then (s, addrs) else
        var t := SwapRandom(s, n, pos);
        Gathered(t, nodes, now, draw, n + 1, Extended(addrs, t.info[t.random[n]], now(n)))
  }

  /** `GetAddr_`: the state it leaves and the addresses it reports. */
  function GetAddrs(s: State, now: nat -> int, draw: nat -> nat): (State, seq<Address>) {
    var share := GETADDR_MAX_PCT * |s.random| / 100;
    Gathered(s, if share > GETADDR_MAX then GETADDR_MAX else share, now, draw, 0, [])
  }

  lemma GatheredNext(u: State, nodes: int, now: nat -> int, draw: nat -> nat, n: nat, addrs: seq<Address>, pos: nat,
                     t: State, m: nat, more: seq<Address>)
    requires n < |u.random| && |addrs| < nodes && pos == Place(draw(n), n, |u.random|) && Drawable(u, n, pos)
    requires t == SwapRandom(u, n, pos) && t.random[n] in t.info && m == n + 1
    requires more == Extended(addrs, t.info[t.random[n]], now(n))
    ensures Gathered(u, nodes, now, draw, n, addrs) == Gathered(t, nodes, now, draw, m, more)
  {
  }

  /** The walk from here on gives goal; kept folded. */
  ghost predicate Leads(u: State, nodes: int, now: nat -> int, draw: nat -> nat, n: nat, addrs: seq<Address>,
                        goal: (State, seq<Address>)) {
    forall z {:trigger Inside(z)} :: Inside(z) ==> Gathered(u, nodes, now, draw, n, addrs) == goal
  }

  /** The walk has reached position n and leads to goal; kept folded. */
  ghost predicate Walking(s: State, u: State, nodes: int, now: nat -> int, draw: nat -> nat, n: nat,
                          addrs: seq<Address>, goal: (State, seq<Address>)) {
    forall z {:trigger Inside(z)} :: Inside(z) ==>
      Shuffled(s, u) && Leads(u, nodes, now, draw, n, addrs, goal) && n <= |u.random| == |s.random| &&
      |addrs| <= nodes && addrs == Decent(u, n, now)
  }

  lemma WalkingOpen(s: State, u: State, nodes: int, now: nat -> int, draw: nat -> nat, n: nat, addrs: seq<Address>,
                    goal: (State, seq<Address>))
    requires Walking(s, u, nodes, now, draw, n, addrs, goal)
    ensures Shuffled(s, u) && Leads(u, nodes, now, draw, n, addrs, goal) && n <= |u.random| == |s.random|
    ensures |addrs| <= nodes && addrs == Decent(u, n, now)
  {
    assert Inside(0);
  }

  lemma WalkingClose(s: State, u: State, nodes: int, now: nat -> int, draw: nat -> nat, n: nat, addrs: seq<Address>,
                     goal: (State, seq<Address>))
    requires Shuffled(s, u) && Leads(u, nodes, now, draw, n, addrs, goal) && n <= |u.random| == |s.random|
    requires |addrs| <= nodes && addrs == Decent(u, n, now)
    ensures Walking(s, u, nodes, now, draw, n, addrs, goal)
  {
  }

  lemma LeadsStart(u: State, nodes: int, now: nat -> int, draw: nat -> nat, goal: (State, seq<Address>))
    requires goal == Gathered(u, nodes, now, draw, 0, [])
    ensures Leads(u, nodes, now, draw, 0, [], goal)
  {
  }

  lemma LeadsEnd(u: State, nodes: int, now: nat -> int, draw: nat -> nat, n: nat, addrs: seq<Address>,
                 goal: (State, seq<Address>))
    requires Leads(u, nodes, now, draw, n, addrs, goal) && (n >= |u.random| || |addrs| >= nodes)
    ensures goal == (u, addrs)
  {
    assert Inside(0);
  }

  lemma LeadsNext(u: State, nodes: int, now: nat -> int, draw: nat -> nat, n: nat, addrs: seq<Address>, pos: nat,
                  t: State, m: nat, more: seq<Address>, goal: (State, seq<Address>))
    requires n < |u.random| && |addrs| < nodes && pos == Place(draw(n), n, |u.random|) && Drawable(u, n, pos)
    requires t == SwapRandom(u, n, pos) && t.random[n] in t.info && m == n + 1
    requires more == Extended(addrs, t.info[t.random[n]], now(n)) && Leads(u, nodes, now, draw, n, addrs, goal)
    ensures Leads(t, nodes, now, draw, m, more, goal)
  {
    assert Inside(0);
    GatheredNext(u, nodes, now, draw, n, addrs, pos, t, m, more);
  }

  lemma {:induction false} GatheredShuffles(s: State, u: State, nodes: int, now: nat -> int, draw: nat -> nat, n: nat,
                                            addrs: seq<Address>)
    requires Shuffled(s, u)
    ensures Shuffled(s, Gathered(u, nodes, now, draw, n, addrs).0)
    decreases |u.random| - n
  {
    if n < |u.random| && |addrs| < nodes {
      var pos := Place(draw(n), n, |u.random|);
      if Drawable(u, n, pos) {
        var t := SwapRandom(u, n, pos);
        SwapShuffles(s, u, n, pos, t);
        var more := Extended(addrs, t.info[t.random[n]], now(n));
        GatheredNext(u, nodes, now, draw, n, addrs, pos, t, n + 1, more);
        GatheredShuffles(s, t, nodes, now, draw, n + 1, more);
      }
    }
  }

  lemma SwapShuffles(s: State, u: State, n: nat, pos: nat, t: State)
    requires Shuffled(s, u) && Drawable(u, n, pos) && t == SwapRandom(u, n, pos)
    ensures Shuffled(s, t) && t.random[n] in t.info && |t.random| == |u.random|
  {
    assert Inside(0);
    SwapRandomKeeps(u, n, pos);
    OrderChain(s, u, t);
    assert t.random[n] in t.info;
  }

  /** `GetAddr_` keeps the invariant. */
  lemma GetAddrsKeeps(h: Hashes, s: State, now: nat -> int, draw: nat -> nat)
    requires Inv(h, s)
    ensures Inv(h, GetAddrs(s, now, draw).0) && SameButOrder(s, GetAddrs(s, now, draw).0)
  {
    CoreParts(h, s, 0, 0, {});
    SamePlaces(s);
    var share := GETADDR_MAX_PCT * |s.random| / 100;
    GatheredShuffles(s, s, if share > GETADDR_MAX then GETADDR_MAX else share, now, draw, 0, []);
    ShuffledKeeps(h, s, GetAddrs(s, now, draw).0);
  }

  /** u is s in another sound random order; kept folded. */
  ghost predicate Shuffled(s: State, u: State) {
    forall z {:trigger Inside(z)} :: Inside(z) ==> RandomOk(u) && SameButOrder(s, u)
  }

  lemma SamePlaces(s: State)
    requires RandomOk(s)
    ensures Shuffled(s, s)
  {
  }

  lemma ShuffledKeeps(h: Hashes, s: State, u: State)
    requires Inv(h, s) && Shuffled(s, u)
    ensures Inv(h, u) && RandomOk(u) && SameButOrder(s, u)
  {
    assert Inside(0);
    SameButOrderKeeps(h, s, u, 0, 0, {});
    OrderTimes(s, u);
  }

  lemma OrderChain(s: State, t: State, u: State)
    requires SameButOrder(s, t) && SameButOrder(t, u)
    ensures SameButOrder(s, u)
  {
    forall id | id in s.info ensures SameEntry(u.info[id], s.info[id]) {
      assert id in t.info && SameEntry(t.info[id], s.info[id]);
    }
  }

  lemma OrderTimes(s: State, t: State)
    requires SameButOrder(s, t) && TimesOk(s)
    ensures TimesOk(t)
  {
    forall id | id in t.info
      ensures t.info[id].lastTry >= 0 && t.info[id].lastSuccess >= 0 &&
              (t.info[id].inTried ==> t.info[id].lastSuccess != 0)
    {
      assert id in s.info && SameEntry(t.info[id], s.info[id]);
      assert s.info[id].lastTry >= 0;
    }
  }

  /** The addresses of the first k entries in the random order that are not terrible at their turn. */
  ghost function Decent(s: State, k: nat, now: nat -> int): seq<Address>
    requires k <= |s.random|
  {
    if k == 0 then [] else
      var id := s.random[k - 1];
      Decent(s, k - 1, now) +
      if id !in s.info || IsTerrible(s.info[id], now(k - 1)) then [] else [s.info[id].addr]
  }

  /** Reordering from position k on does not affect what comes before. */
  lemma {:induction false} DecentStable(s: State, t: State, k: nat, now: nat -> int)
    requires k <= |s.random| && RandomOk(s) && RandomOk(t) && SameButOrder(s, t) && |t.random| == |s.random|
    requires forall n :: 0 <= n < k ==> t.random[n] == s.random[n]
    ensures Decent(t, k, now) == Decent(s, k, now)
  {
    if k > 0 {
      DecentStable(s, t, k - 1, now);
      var id := s.random[k - 1];
      assert id in s.info && SameEntry(t.info[id], s.info[id]);
    }
  }

  /** A complete pass reports every entry that is not terrible. */
  lemma {:induction false} DecentComplete(s: State, k: nat, now: nat -> int, id: int)
    requires k <= |s.random| && RandomOk(s) && id in s.info && 0 <= s.info[id].randomPos < k
    requires !IsTerrible(s.info[id], now(s.info[id].randomPos))
    ensures s.info[id].addr in Decent(s, k, now)
  {
    if s.info[id].randomPos < k - 1 {
      DecentComplete(s, k - 1, now, id);
    } else {
      assert s.random[s.info[id].randomPos] == id;
    }
  }

  /** No address is reported twice, and each is that of a known, decent entry. */
  lemma {:induction false} DecentDistinct(s: State, k: nat, now: nat -> int)
    requires k <= |s.random| && RandomOk(s) && AddrOk(s)
    ensures |Decent(s, k, now)| <= k
    ensures forall a :: a in Decent(s, k, now) ==>
              a.service.ip in s.byAddr && s.info[s.byAddr[a.service.ip]].addr == a &&
              0 <= s.info[s.byAddr[a.service.ip]].randomPos < k &&
              !IsTerrible(s.info[s.byAddr[a.service.ip]], now(s.info[s.byAddr[a.service.ip]].randomPos))
    ensures forall i, j :: 0 <= i < j < |Decent(s, k, now)| ==> Decent(s, k, now)[i] != Decent(s, k, now)[j]
  {
    if k > 0 {
      DecentDistinct(s, k - 1, now);
      var id := s.random[k - 1];
      assert id in s.info && s.info[id].randomPos == k - 1;
      assert s.info[id].addr.service.ip in s.byAddr;
      var prev := Decent(s, k - 1, now);
      assert s.info[id].addr !in prev;
      forall i, j | 0 <= i < j < |Decent(s, k, now)| ensures Decent(s, k, now)[i] != Decent(s, k, now)[j] {
        assert prev[i] in prev;
        if j < |prev| { assert prev[i] != prev[j]; }
      }
    }
  }

  /** The m-th bucket from a starting one holds id, at the position id has in it. */
  ghost predicate Holds(h: Hashes, s: State, id: int, start: nat, m: nat)
    requires id in s.info
  {
    var b := (m + start) % NEW_BUCKET_COUNT;
    Slot(b, Position(h, s.key, true, b, s.info[id].addr.service)) in Refs(s.news, id)
  }

  lemma SomeBucket(h: Hashes, s: State, id: int, rnd: nat)
    requires Core(h, s, 0, 0, {}) && id in s.info && !s.info[id].inTried
    ensures exists m :: 0 <= m < NEW_BUCKET_COUNT && Holds(h, s, id, rnd, m)
  {
    OpenCore(h, s, 0, 0, {});
    assert s.info[id].refCount >= 1;
    var sl :| sl in Refs(s.news, id);
    assert FreshSlotOk(h, s, sl, id);
    var m := (sl.bucket - rnd) % NEW_BUCKET_COUNT;
    assert (m + rnd) % NEW_BUCKET_COUNT == sl.bucket;
    assert Holds(h, s, id, rnd, m);
  }

  lemma KnownId(h: Hashes, s: State, id: int)
    requires Core(h, s, 0, 0, {}) && id in s.info
    ensures id >= 0
  {
    OpenCore(h, s, 0, 0, {});
  }

  lemma NextIdNonNegative(h: Hashes, s: State)
    requires Core(h, s, 0, 0, {})
    ensures s.idCount >= 0
  {
    OpenCore(h, s, 0, 0, {});
  }

  /** The new table once id has left the buckets below the given one. */
  ghost function Remaining(news: map<Slot, int>, id: int, bucket: int): map<Slot, int> {
    news - set sl | sl in Refs(news, id) && sl.bucket < bucket
  }

  lemma RefsWithout(news: map<Slot, int>, sl: Slot, id: int)
    requires sl in news && news[sl] == id
    ensures |Refs(news - {sl}, id)| == |Refs(news, id)| - 1
  {
    assert sl in Refs(news, id);
    assert Refs(news - {sl}, id) == Refs(news, id) - {sl};
  }

  lemma RemainingStart(h: Hashes, s: State, id: int)
    requires Core(h, s, 0, 0, {}) && id in s.info
    ensures Remaining(s.news, id, 0) == s.news && s.info[id].refCount == |Refs(s.news, id)|
  {
    OpenCore(h, s, 0, 0, {});
    forall u | u in s.news ensures 0 <= u.bucket {
      assert FreshSlotOk(h, s, u, s.news[u]);
    }
  }

  lemma RemainingStep(h: Hashes, s: State, id: int, bucket: nat, sl: Slot)
    requires Core(h, s, 0, 0, {}) && id in s.info
    requires sl == Slot(bucket, Position(h, s.key, true, bucket, s.info[id].addr.service))
    ensures var before := Remaining(s.news, id, bucket);
            Remaining(s.news, id, bucket + 1) == if sl in before && before[sl] == id then before - {sl} else before
  {
    assert forall u :: u in s.news && s.news[u] == id && u.bucket == bucket ==> u == sl by {
      OpenCore(h, s, 0, 0, {});
      forall u | u in s.news && s.news[u] == id && u.bucket == bucket ensures u == sl {
        assert FreshSlotOk(h, s, u, s.news[u]);
      }
    }
    OneBucketLess(s.news, id, bucket, bucket + 1, sl);
  }

  lemma OneBucketLess(news: map<Slot, int>, id: int, b: int, c: int, sl: Slot)
    requires sl.bucket == b && c == b + 1
    requires forall u :: u in news && news[u] == id && u.bucket == b ==> u == sl
    ensures var before := Remaining(news, id, b);
            Remaining(news, id, c) == if sl in before && before[sl] == id then before - {sl} else before
  {
    var x := set u | u in Refs(news, id) && u.bucket < b;
    var y := set u | u in Refs(news, id) && u.bucket < c;
    assert sl !in x;
    if sl in news && news[sl] == id {
      forall u ensures u in y <==> u in x + {sl} {}
      assert y == x + {sl};
      assert news - (x + {sl}) == news - x - {sl};
    } else {
      forall u ensures u in y <==> u in x {}
      assert y == x;
    }
  }

  lemma RemainingDone(h: Hashes, s: State, id: int)
    requires Core(h, s, 0, 0, {})
    ensures Remaining(s.news, id, NEW_BUCKET_COUNT) == s.news - Refs(s.news, id)
    ensures Refs(Remaining(s.news, id, NEW_BUCKET_COUNT), id) == {}
  {
    OpenCore(h, s, 0, 0, {});
    forall u | u in s.news ensures u.bucket < NEW_BUCKET_COUNT {
      assert FreshSlotOk(h, s, u, s.news[u]);
    }
    assert (set sl | sl in Refs(s.news, id) && sl.bucket < NEW_BUCKET_COUNT) == Refs(s.news, id);
  }
}
