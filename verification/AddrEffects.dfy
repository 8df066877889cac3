/** What each operation of the address manager does: to the statistics of entries, and to the two tables, which
    between them decide which entries there are. */
module AddrEffects {
  import opened Powers
  import opened AddrState
  import opened AddrOps

  // ----- the tables decide -----

  /** In a consistent manager the entries are exactly those in one of the tables, tried or new by the table they
      are in, and the new ones have as many references as slots. */
  lemma TablesTell(h: Hashes, s: State, id: int)
    requires Inv(h, s)
    ensures id in s.info <==> id in s.tried.Values || id in s.news.Values
    ensures id in s.info ==> (s.info[id].inTried <==> id in s.tried.Values) &&
                             (!s.info[id].inTried <==> id in s.news.Values) &&
                             s.info[id].refCount == |Refs(s.news, id)|
  {
    OpenCore(h, s, 0, 0, {});
    if id in s.tried.Values {
      var sl :| sl in s.tried && s.tried[sl] == id;
      assert s.tried[sl] in s.info;
    }
    if id in s.news.Values {
      var sl :| sl in s.news && s.news[sl] == id;
      assert FreshSlotOk(h, s, sl, s.news[sl]);
    }
    if id in s.info {
      assert s.info[id].refCount == |Refs(s.news, id)|;
      if s.info[id].inTried {
        assert s.tried[TriedSlot(h, s.key, s.info[id].addr.service)] == id;
      } else if sl :| sl in Refs(s.news, id) {
        assert s.news[sl] == id;
      } else {
        assert Refs(s.news, id) == {};
      }
    }
  }

  /** An entry has one tried slot, by the keyed hash of its service, and for each bucket one position, by another;
      the bucket of the new table goes by the source too. */
  lemma SlotsPlaced(h: Hashes, key: Key, service: Service, source: NetAddr)
    ensures var sl := TriedSlot(h, key, service);
            sl.bucket == h.tried(key, service) % 256 && sl.pos == h.position(key, false, sl.bucket, service) % 64
    ensures var sl := NewSlot(h, key, service, source);
            sl.bucket == h.news(key, service, source) % 1024 && sl.pos == h.position(key, true, sl.bucket, service) % 64
  {
  }

  // ----- statistics -----

  const MINUTE: int := 60
  const DAY: int := 24 * 60 * 60

  /** An entry tried within the last minute is never terrible. Otherwise one from the future, one not seen for
      thirty days or one never seen is. Among the rest, one that never worked is after three attempts, and one
      that did is after ten attempts and a week. */
  lemma TerribleCases(i: Info, now: int)
    ensures i.lastTry != 0 && now - i.lastTry <= MINUTE ==> !IsTerrible(i, now)
    ensures !(i.lastTry != 0 && now - i.lastTry <= MINUTE) ==>
              (i.addr.time - now > 10 * MINUTE || i.addr.time == 0 || now - i.addr.time > 30 * DAY ==>
                 IsTerrible(i, now)) &&
              (i.addr.time != 0 && now - 30 * DAY <= i.addr.time <= now + 10 * MINUTE ==>
                 (i.lastSuccess == 0 ==> (IsTerrible(i, now) <==> i.attempts >= 3)) &&
                 (i.lastSuccess != 0 ==>
                    (IsTerrible(i, now) <==> i.attempts >= 10 && now - i.lastSuccess > 7 * DAY)))
  {
  }

  /** Only entry id differs. */
  ghost predicate OnlyEntry(s: State, t: State, id: int) {
    id in s.info && id in t.info && t == s.(info := t.info) && t.info.Keys == s.info.Keys &&
    forall x :: x in s.info && x != id ==> t.info[x] == s.info[x]
  }

  /** `Attempt_` counts the attempt and notes its time, in the entry with that very port and nowhere else. */
  lemma AttemptDoes(s: State, service: Service, time: int)
    ensures var t := Attempt(s, service, time);
            if Matches(s, service) then
              var id := s.byAddr[service.ip];
              OnlyEntry(s, t, id) && t.info[id].attempts == s.info[id].attempts + 1 && t.info[id].lastTry == time &&
              t.info[id].lastSuccess == s.info[id].lastSuccess && SameLinks(t.info[id], s.info[id]) &&
              t.info[id].addr == s.info[id].addr && t.info[id].source == s.info[id].source
            else t == s
  {
  }

  /** `Connected_` refreshes the time last seen exactly when it is more than twenty minutes old. */
  lemma ConnectedDoes(s: State, service: Service, time: int)
    ensures var t := Connected(s, service, time);
            if Matches(s, service) then
              var id := s.byAddr[service.ip];
              var i, j := s.info[id], t.info[id];
              OnlyEntry(s, t, id) && j == i.(addr := j.addr) && j.addr == i.addr.(time := j.addr.time) &&
              j.addr.time == if i.addr.time + 20 * MINUTE < time then U32(time) else i.addr.time
            else t == s
  {
  }

  // ----- Good_ -----

  lemma DeleteIds(s: State, id: int)
    requires id in s.info && RandomOk(s)
    ensures Delete(s, id).idCount == s.idCount
  {
  }

  lemma ClearNewIds(s: State, sl: Slot)
    requires FreshLinked(s) && RandomOk(s)
    ensures ClearNew(s, sl).idCount == s.idCount
  {
  }

  /** The new table once id has left it, and an entry evicted from the tried table has come back. */
  ghost predicate Replaced(s: State, t: State, id: int, evicted: bool, e: int, back: Slot) {
    (forall sl {:trigger sl in t.news} :: sl in t.news <==>
      (evicted && sl == back) || (sl in s.news && s.news[sl] != id)) &&
    (forall sl {:trigger t.news[sl]} :: sl in t.news ==>
      t.news[sl] == if evicted && sl == back then e else s.news[sl])
  }

  /** `MakeTried`: the entry leaves every slot of the new table for its slot of the tried table; whoever sat
      there goes to the slot of the new table its own source selects, in place of its occupant. */
  lemma MakeTriedDoes(h: Hashes, s: State, id: int, t: State)
    requires Core(h, s, 0, 0, {}) && id in s.info && !s.info[id].inTried && t == MakeTried(h, s, id)
    ensures var home := TriedSlot(h, s.key, s.info[id].addr.service);
            t.tried == s.tried[home := id] && StatsKept(s, t, {id}) && t.idCount == s.idCount && t.key == s.key &&
            if home in s.tried then
              var e := s.tried[home];
              e in s.info && Replaced(s, t, id, true, e, NewSlot(h, s.key, s.info[e].addr.service, s.info[e].source))
            else Replaced(s, t, id, false, id, home)
  {
    var a, home := Detach(s, id), TriedSlot(h, s.key, s.info[id].addr.service);
    MakeTriedKeeps(h, s, id, t);
    DetachKeeps(h, s, id, a, 0, 0, {});
    assert {} + {id} == {id};
    CoreParts(h, a, 1, 0, {id});
    if home in a.tried {
      assert a.tried[home] in a.info && a.info[a.tried[home]].inTried;
      var e, b := a.tried[home], Displace(h, a, home, id);
      assert e != id;
      DisplaceDoes(h, a, home, id, b);
      Returned(s, a, b, id, e, NewSlot(h, s.key, s.info[e].addr.service, s.info[e].source));
    } else {
      Left(s, a, id, home);
    }
  }

  lemma Returned(s: State, a: State, b: State, id: int, e: int, back: Slot)
    requires id in s.info && a == Detach(s, id) && b.news == a.news[back := e]
    ensures Replaced(s, b, id, true, e, back)
  {
  }

  lemma Left(s: State, a: State, id: int, home: Slot)
    requires id in s.info && a == Detach(s, id)
    ensures Replaced(s, a, id, false, id, home)
  {
  }

  lemma DisplaceDoes(h: Hashes, s: State, sl: Slot, id: int, t: State)
    requires Core(h, s, 1, 0, {id}) && sl in s.tried && s.tried[sl] in s.info && t == Displace(h, s, sl, id)
    ensures var e := s.tried[sl];
            t.news == s.news[NewSlot(h, s.key, s.info[e].addr.service, s.info[e].source) := e]
    ensures t.idCount == s.idCount
  {
    var e, u := s.tried[sl], Unseat(s, sl);
    UnseatKeeps(h, s, sl, u, 1, 0, {id});
    CoreParts(h, u, 2, 0, {id} + {e});
    var home := NewSlot(h, s.key, u.info[e].addr.service, u.info[e].source);
    var v := ClearNew(u, home);
    ClearNewKeeps(h, u, home, v, 2, 0, {id} + {e});
    ClearNewIds(u, home);
    ReplaceKey(s.news, home, e);
  }

  /** The statistics of j in the place of i. */
  function Unmoved(j: Info, i: Info): Info {
    j.(refCount := i.refCount, inTried := i.inTried, randomPos := i.randomPos)
  }

  /** `Good_`: the entry with that very port notes the success and starts counting attempts anew; if it was new,
      it is made tried. */
  lemma GoodDoes(h: Hashes, s: State, service: Service, time: int)
    requires Inv(h, s)
    ensures var t := Good(h, s, service, time);
            if !Matches(s, service) then t == s else
              var id := s.byAddr[service.ip];
              var i := s.info[id];
              id in t.info && t.info[id].lastSuccess == t.info[id].lastTry == time && t.info[id].attempts == 0 &&
              t.info[id].addr == i.addr && t.info[id].source == i.source && t.info[id].inTried &&
              (forall x :: x in t.info && x != id ==> x in s.info && SameStats(t.info[x], s.info[x])) &&
              if i.inTried then OnlyEntry(s, t, id) else
                var u := SetInfo(s, id, Unmoved(t.info[id], i));
                Core(h, u, 0, 0, {}) && id in u.info && t == MakeTried(h, u, id)
  {
    GoodKeeps(h, s, service, time);
    if Matches(s, service) {
      var id := s.byAddr[service.ip];
      var i := s.info[id];
      var u := SetInfo(s, id, Praised(i, time));
      TouchKeeps(h, s, id, Praised(i, time), u, 0, 0, {});
      if !i.inTried {
        var t := Good(h, s, service, time);
        MakeTriedKeeps(h, u, id, t);
        assert SameStats(t.info[id], u.info[id]);
        assert u == SetInfo(s, id, Unmoved(t.info[id], i));
        forall x | x in t.info && x != id ensures x in s.info && SameStats(t.info[x], s.info[x]) {
          assert SameStats(t.info[x], u.info[x]);
        }
      }
    }
  }

  // ----- Add_ -----

  /** The slot is free, or its occupant is another entry that is terrible. */
  predicate Claimable(s: State, id: int, sl: Slot, now: int) {
    sl !in s.news || (s.news[sl] != id && s.news[sl] in s.info && IsTerrible(s.info[s.news[sl]], now))
  }

  /** The tail of `Add_`: the entry claims the slot, unless it has it already or the occupant is worth more. */
  lemma InsertDoes(h: Hashes, s: State, id: int, sl: Slot, now: int, t: State)
    requires Core(h, s, 0, 0, {id}) && FreshSlotOk(h, s, sl, id) && TimesOk(s)
    requires s.info[id].refCount < NEW_BUCKETS_PER_ADDRESS && t == Insert(h, s, id, sl, now)
    ensures sl in s.news ==> s.news[sl] in s.info
    ensures t.tried == s.tried && t.key == s.key && t.idCount == s.idCount && StatsKept(s, t, {})
    ensures t.news == if Claimable(s, id, sl, now) || (s.info[id].refCount == 0 && s.info[s.news[sl]].refCount > 1)
                      then s.news[sl := id] else s.news
  {
    CoreParts(h, s, 0, 0, {id});
    if sl in s.news && s.news[sl] == id {
      assert sl in Refs(s.news, id);
    } else if sl !in s.news || Worthless(s, s.news[sl], id, now) {
      var u := ClearNew(s, sl);
      ClearNewKeeps(h, s, sl, u, 0, 0, {id});
      ClearNewStats(h, s, sl, u, 0, 0, {id});
      ClearNewIds(s, sl);
      ReplaceKey(s.news, sl, id);
      StepStats(u, id, sl);
      assert StatsKept(u, t, {});
      StatsChain(s, u, t, {}, {});
    } else if s.info[id].refCount == 0 {
      DeleteKeeps(h, s, id, t, 0, 0, {id});
      DeleteFrame(s, id, t);
      DeleteIds(s, id);
    }
  }

  lemma {:induction false} FactorIsPower(n: nat)
    ensures Factor(n) == Pow(2, n)
  {
    if n > 0 { FactorIsPower(n - 1); }
  }

  /** The time an entry has after news of it: that of the news less the penalty, if the entry had none or one
      older by more than an hour (a day, if the node seems to be offline) and the penalty. */
  function NewsTime(had: nat, news: nat, penalty: int, now: int): nat {
    var interval := if now - news < DAY then 60 * MINUTE else DAY;
    if news != 0 && (had == 0 || had + interval + penalty < news) then
      (if news < penalty then 0 else U32(news - penalty))
    else had
  }

  /** The entry gets one more reference from this source: the news is newer than what is noted now, the entry is
      new with fewer than eight references, the draw with odds 1 to 2^references succeeds, and the slot is to be
      had. */
  predicate Referred(h: Hashes, s: State, id: int, addr: Address, source: NetAddr, time: nat, now: int, roll: nat)
    requires id in s.info && s.info[id].refCount >= 0
  {
    addr.time != 0 && (time == 0 || time < addr.time) && !s.info[id].inTried &&
    s.info[id].refCount < NEW_BUCKETS_PER_ADDRESS && roll % Pow(2, s.info[id].refCount) == 0 &&
    Claimable(s, id, NewSlot(h, s.key, s.info[id].addr.service, source), now)
  }

  /** t is s after news of the known entry id: the services are joined and the time refreshed; the entry gets a
      further reference exactly when it is referred, in place of whatever is in the slot; nothing else changes. */
  ghost predicate Told(h: Hashes, s: State, id: int, addr: Address, source: NetAddr, penalty: int, now: int, roll: nat,
                       t: State) {
    id in s.info && id in t.info && s.info[id].refCount >= 0 &&
    var i, j := s.info[id], t.info[id];
    var gets := Referred(h, s, id, addr, source, j.addr.time, now, roll);
    j.addr.services == i.addr.services + addr.services &&
    j.addr.time == NewsTime(i.addr.time, addr.time, penalty, now) &&
    j.addr.service == i.addr.service && j.source == i.source && j.inTried == i.inTried &&
    j.lastTry == i.lastTry && j.lastSuccess == i.lastSuccess && j.attempts == i.attempts &&
    j.refCount == i.refCount + (if gets then 1 else 0) &&
    t.tried == s.tried && t.idCount == s.idCount && t.key == s.key &&
    t.news == (if gets then s.news[NewSlot(h, s.key, i.addr.service, source) := id] else s.news) &&
    (!gets ==> OnlyEntry(s, t, id)) &&
    forall x :: x in t.info && x != id ==> x in s.info && SameStats(t.info[x], s.info[x])
  }

  /** `Add_` of an address already known. */
  lemma AddKnownDoes(h: Hashes, s: State, addr: Address, source: NetAddr, penalty: int, now: int, roll: nat)
    requires Inv(h, s) && addr.service.ip in s.byAddr
    ensures var id, t := s.byAddr[addr.service.ip], Add(h, s, addr, source, penalty, true, now, roll);
            Inv(h, t) && Told(h, s, id, addr, source, penalty, now, roll, t)
  {
    CoreParts(h, s, 0, 0, {});
    AddKeeps(h, s, addr, source, penalty, true, now, roll);
    var id := s.byAddr[addr.service.ip];
    KnownHere(h, s, addr.service.ip);
    var i := Refreshed(s.info[id], addr, penalty, now);
    var u, t := SetInfo(s, id, i), Add(h, s, addr, source, penalty, true, now, roll);
    FactorIsPower(i.refCount);
    if Eligible(i, addr, roll) {
      RefreshKeeps(h, s, id, i, u);
      RefBound(h, u, id);
      EligibleDoes(h, s, id, i, u, source, now, t);
      ToldEligible(h, s, id, addr, source, penalty, now, roll, i, t);
    } else {
      ToldOnly(h, s, id, addr, source, penalty, now, roll, i, u);
    }
  }

  lemma ToldOnly(h: Hashes, s: State, id: int, addr: Address, source: NetAddr, penalty: int, now: int, roll: nat,
                 i: Info, u: State)
    requires id in s.info && 0 <= s.info[id].refCount <= NEW_BUCKETS_PER_ADDRESS
    requires i.refCount >= 0 && Factor(i.refCount) == Pow(2, i.refCount)
    requires i == Refreshed(s.info[id], addr, penalty, now) && u == SetInfo(s, id, i) && !Eligible(i, addr, roll)
    ensures Told(h, s, id, addr, source, penalty, now, roll, u)
  {
  }

  lemma ToldEligible(h: Hashes, s: State, id: int, addr: Address, source: NetAddr, penalty: int, now: int, roll: nat,
                     i: Info, t: State)
    requires id in s.info && 0 <= s.info[id].refCount <= NEW_BUCKETS_PER_ADDRESS
    requires i.refCount >= 0 && Factor(i.refCount) == Pow(2, i.refCount)
    requires i == Refreshed(s.info[id], addr, penalty, now) && Eligible(i, addr, roll)
    requires var sl := NewSlot(h, s.key, i.addr.service, source);
             var gets := Claimable(s, id, sl, now);
             id in t.info && SameStats(t.info[id], i) && !t.info[id].inTried &&
             t.info[id].refCount == i.refCount + (if gets then 1 else 0) &&
             t.news == (if gets then s.news[sl := id] else s.news) && t.tried == s.tried && t.idCount == s.idCount &&
             t.key == s.key && (!gets ==> t == SetInfo(s, id, i)) &&
             forall x :: x in t.info && x != id ==> x in s.info && SameStats(t.info[x], s.info[x])
    ensures Told(h, s, id, addr, source, penalty, now, roll, t)
  {
  }

  lemma KnownHere(h: Hashes, s: State, ip: NetAddr)
    requires Inv(h, s) && ip in s.byAddr
    ensures s.byAddr[ip] in s.info
    ensures 0 <= s.info[s.byAddr[ip]].refCount <= NEW_BUCKETS_PER_ADDRESS
  {
    OpenCore(h, s, 0, 0, {});
    var id := s.byAddr[ip];
    assert s.info[id].refCount == |Refs(s.news, id)|;
    if s.info[id].inTried { TriedNoRefs(h, s, id); }
  }

  lemma TriedNoRefs(h: Hashes, s: State, id: int)
    requires FreshOk(h, s) && RefOk(s) && id in s.info && s.info[id].inTried
    ensures s.info[id].refCount == 0
  {
    assert s.info[id].refCount == |Refs(s.news, id)|;
    forall sl | sl in s.news ensures s.news[sl] != id { assert FreshSlotOk(h, s, sl, s.news[sl]); }
    assert Refs(s.news, id) == {};
  }

  /** What a known and eligible entry gets. */
  lemma EligibleDoes(h: Hashes, s: State, id: int, i: Info, u: State, source: NetAddr, now: int, t: State)
    requires Inv(h, s) && id in s.info && u == SetInfo(s, id, i) && Inv(h, u) && Core(h, u, 0, 0, {id})
    requires SamePlace(i, s.info[id]) && i.refCount == s.info[id].refCount && !i.inTried
    requires 1 <= i.refCount < NEW_BUCKETS_PER_ADDRESS
    requires t == Insert(h, u, id, NewSlot(h, s.key, i.addr.service, source), now)
    ensures var sl := NewSlot(h, s.key, i.addr.service, source);
            var gets := Claimable(s, id, sl, now);
            id in t.info && SameStats(t.info[id], i) && !t.info[id].inTried &&
            t.info[id].refCount == i.refCount + (if gets then 1 else 0) &&
            t.news == (if gets then s.news[sl := id] else s.news) && t.tried == s.tried && t.idCount == s.idCount &&
            t.key == s.key && (!gets ==> t == u) &&
            forall x :: x in t.info && x != id ==> x in s.info && SameStats(t.info[x], s.info[x])
  {
    var sl := NewSlot(h, s.key, i.addr.service, source);
    assert FreshSlotOk(h, u, sl, id);
    InsertDoes(h, u, id, sl, now, t);
    InsertKeeps(h, u, id, sl, now, t);
    InsertCounts(h, u, id, sl, now, t);
    forall x | x in t.info && x != id ensures x in s.info && SameStats(t.info[x], s.info[x]) {
      assert SameStats(t.info[x], u.info[x]);
    }
  }

  /** An entry with references keeps them, and gets one more with the slot. */
  lemma InsertCounts(h: Hashes, s: State, id: int, sl: Slot, now: int, t: State)
    requires Core(h, s, 0, 0, {id}) && FreshSlotOk(h, s, sl, id) && s.info[id].refCount > 0
    requires t == Insert(h, s, id, sl, now)
    ensures id in t.info && t.info[id].refCount == s.info[id].refCount + (if Claimable(s, id, sl, now) then 1 else 0)
    ensures SameStats(t.info[id], s.info[id]) && t.info[id].inTried == s.info[id].inTried
    ensures !Claimable(s, id, sl, now) ==> t == s
  {
    CoreParts(h, s, 0, 0, {id});
    if Claimable(s, id, sl, now) {
      ClearNewKeeps(h, s, sl, ClearNew(s, sl), 0, 0, {id});
      assert SameEntry(ClearNew(s, sl).info[id], s.info[id]);
    }
  }

  /** `Add_` of an address not known: if its slot welcomes it, it becomes an entry under the next id with the time
      less the penalty, never tried, with one reference in that slot; otherwise the tables stay as they were. */
  lemma AddUnknownDoes(h: Hashes, s: State, addr: Address, source: NetAddr, penalty: int, now: int, roll: nat)
    requires Inv(h, s) && addr.service.ip !in s.byAddr
    ensures var id, t := s.idCount, Add(h, s, addr, source, penalty, true, now, roll);
            var sl := NewSlot(h, s.key, addr.service, source);
            Inv(h, t) && t.tried == s.tried && t.idCount == s.idCount + 1 && t.key == s.key &&
            (forall x :: x in t.info && x != id ==> x in s.info && SameStats(t.info[x], s.info[x])) &&
            if Welcome(h, s, addr, source, now) then
              t.news == s.news[sl := id] && id in t.info && addr.service.ip in t.byAddr &&
              t.byAddr[addr.service.ip] == id &&
              var j := t.info[id];
              j == Info(addr.(time := j.addr.time), source, 0, 0, 0, 1, false, j.randomPos) &&
              j.addr.time == if addr.time < penalty then 0 else U32(addr.time - penalty)
            else t.news == s.news && id !in t.info
  {
    AddKeeps(h, s, addr, source, penalty, true, now, roll);
    AddKept(h, s, addr, source, penalty, true, now, roll);
    var id, t := s.idCount, Add(h, s, addr, source, penalty, true, now, roll);
    var sl := NewSlot(h, s.key, addr.service, source);
    var u := Created(s, addr, source, penalty);
    CreatedKeeps(h, s, addr, source, penalty, u);
    assert FreshSlotOk(h, u, sl, id);
    InsertDoes(h, u, id, sl, now, t);
    if sl in s.news { OccupantKept(h, s, addr, source, penalty, sl); }
    NextIdFree(h, s);
    forall x | x in t.info && x != id ensures x in s.info && SameStats(t.info[x], s.info[x]) {
      assert SameStats(t.info[x], u.info[x]);
    }
    if Welcome(h, s, addr, source, now) {
      NewcomerStays(h, t, id, sl);
      assert SameStats(t.info[id], u.info[id]);
    } else {
      GoneAgain(h, s, t, id);
    }
  }

  lemma NextIdFree(h: Hashes, s: State)
    requires Inv(h, s)
    ensures s.idCount !in s.info && forall sl :: sl in s.news ==> s.news[sl] != s.idCount
  {
    OpenCore(h, s, 0, 0, {});
    forall sl | sl in s.news ensures s.news[sl] != s.idCount { assert FreshSlotOk(h, s, sl, s.news[sl]); }
  }

  lemma NewcomerStays(h: Hashes, t: State, id: int, sl: Slot)
    requires Inv(h, t) && sl in t.news && t.news[sl] == id && (forall x :: x in t.news && x != sl ==> t.news[x] != id)
    ensures id in t.info && t.info[id].refCount == 1 && !t.info[id].inTried
    ensures t.info[id].addr.service.ip in t.byAddr && t.byAddr[t.info[id].addr.service.ip] == id
  {
    OpenCore(h, t, 0, 0, {});
    assert FreshSlotOk(h, t, sl, t.news[sl]);
    assert t.info[id].refCount == |Refs(t.news, id)|;
    assert Refs(t.news, id) == {sl};
  }

  lemma GoneAgain(h: Hashes, s: State, t: State, id: int)
    requires Inv(h, s) && Inv(h, t) && t.news == s.news && t.tried == s.tried && id !in s.info
    ensures id !in t.info
  {
    TablesTell(h, s, id);
    TablesTell(h, t, id);
  }
}
