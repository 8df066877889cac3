/** The address manager's operations as functions on its state, and the proof that each of
    them keeps the invariant. */
module AddrOps {
  import opened AddrState

  // ----- moving an entry from new to tried -----

  /** Takes the occupant of a tried slot out of the tried table. */
  function Unseat(s: State, sl: Slot): State
    requires sl in s.tried && s.tried[sl] in s.info
  {
    var e := s.tried[sl];
    s.(tried := s.tried - {sl}, info := s.info[e := s.info[e].(inTried := false)], nTried := s.nTried - 1)
  }

  lemma UnseatKeeps(h: Hashes, s: State, sl: Slot, t: State, newOff: int, triedOff: int, except: set<int>)
    requires Core(h, s, newOff, triedOff, except) && sl in s.tried && s.tried[sl] in s.info && t == Unseat(s, sl)
    ensures Core(h, t, newOff + 1, triedOff, except + {s.tried[sl]})
    ensures t.info[s.tried[sl]].refCount == 0
  {
    OpenCore(h, s, newOff, triedOff, except);
    var e := s.tried[sl];
    assert s.info[e].inTried;
    UnseatCounts(s, sl, t);
    UnseatTried(h, s, sl, t);
    UnseatFresh(h, s, sl, t);
    UnseatRest(s, sl, t, except);
    CloseCore(h, t, newOff + 1, triedOff, except + {e});
  }

  lemma UnseatCounts(s: State, sl: Slot, t: State)
    requires sl in s.tried && s.tried[sl] in s.info && s.info[s.tried[sl]].inTried && t == Unseat(s, sl)
    ensures NewIds(t) == NewIds(s) + {s.tried[sl]} && TriedIds(t) == TriedIds(s) - {s.tried[sl]}
    ensures |NewIds(t)| == |NewIds(s)| + 1 && |TriedIds(t)| == |TriedIds(s)| - 1
  {
    var e := s.tried[sl];
    forall id | id in t.info ensures id in s.info && (id != e ==> t.info[id] == s.info[id]) {}
    forall id | id in s.info ensures id in t.info && (id != e ==> t.info[id] == s.info[id]) {}
    assert e in TriedIds(s) && e !in NewIds(s);
  }

  lemma UnseatTried(h: Hashes, s: State, sl: Slot, t: State)
    requires sl in s.tried && s.tried[sl] in s.info && t == Unseat(s, sl) && TriedOk(h, s)
    ensures TriedOk(h, t)
  {
    var e := s.tried[sl];
    forall u | u in t.tried
      ensures t.tried[u] in t.info && t.info[t.tried[u]].inTried &&
              u == TriedSlot(h, t.key, t.info[t.tried[u]].addr.service)
    {
      assert s.tried[u] in s.info;
      assert s.tried[u] != e;
    }
    forall id | id in t.info && t.info[id].inTried
      ensures TriedSlot(h, t.key, t.info[id].addr.service) in t.tried &&
              t.tried[TriedSlot(h, t.key, t.info[id].addr.service)] == id
    {
      assert id != e && s.info[id].inTried;
    }
  }

  lemma UnseatFresh(h: Hashes, s: State, sl: Slot, t: State)
    requires sl in s.tried && s.tried[sl] in s.info && s.info[s.tried[sl]].inTried && t == Unseat(s, sl)
    requires FreshOk(h, s) && RefOk(s)
    ensures FreshOk(h, t) && RefOk(t) && t.info[s.tried[sl]].refCount == 0
  {
    var e := s.tried[sl];
    forall u | u in t.news ensures FreshSlotOk(h, t, u, t.news[u]) && t.news[u] != e {
      assert FreshSlotOk(h, s, u, s.news[u]);
    }
    assert Refs(s.news, e) == {};
    assert s.info[e].refCount == 0;
    forall id | id in t.info ensures t.info[id].refCount == |Refs(t.news, id)| {
      assert s.info[id].refCount == |Refs(s.news, id)|;
    }
  }

  lemma UnseatRest(s: State, sl: Slot, t: State, except: set<int>)
    requires sl in s.tried && s.tried[sl] in s.info && t == Unseat(s, sl) && s.info[s.tried[sl]].refCount == 0
    requires IdsOk(s) && AddrOk(s) && RandomOk(s) && RangeOk(s, except)
    ensures IdsOk(t) && AddrOk(t) && RandomOk(t) && RangeOk(t, except + {s.tried[sl]})
  {
    var e := s.tried[sl];
    forall id | id in t.info ensures id in s.info && (id != e ==> t.info[id] == s.info[id]) {}
    forall k | 0 <= k < |t.random| ensures t.random[k] in t.info && t.info[t.random[k]].randomPos == k {
      assert s.random[k] in s.info;
    }
    forall ip | ip in t.byAddr ensures t.byAddr[ip] in t.info && t.info[t.byAddr[ip]].addr.service.ip == ip {
      assert s.byAddr[ip] in s.info;
    }
  }

  /** Seats an unreferenced entry in a free tried slot. */
  function Seat(s: State, id: int, sl: Slot): State
    requires id in s.info
  {
    s.(tried := s.tried[sl := id], info := s.info[id := s.info[id].(inTried := true)], nTried := s.nTried + 1)
  }

  lemma SeatKeeps(h: Hashes, s: State, id: int, sl: Slot, t: State, newOff: int, triedOff: int, except: set<int>)
    requires Core(h, s, newOff, triedOff, except) && id in s.info && !s.info[id].inTried && s.info[id].refCount == 0
    requires sl !in s.tried && sl == TriedSlot(h, s.key, s.info[id].addr.service) && t == Seat(s, id, sl)
    ensures Core(h, t, newOff - 1, triedOff, except - {id})
  {
    OpenCore(h, s, newOff, triedOff, except);
    SeatCounts(s, id, sl, t);
    SeatTables(h, s, id, sl, t);
    SeatRest(s, id, sl, t, except);
    CloseCore(h, t, newOff - 1, triedOff, except - {id});
  }

  lemma SeatCounts(s: State, id: int, sl: Slot, t: State)
    requires id in s.info && !s.info[id].inTried && t == Seat(s, id, sl)
    ensures NewIds(t) == NewIds(s) - {id} && TriedIds(t) == TriedIds(s) + {id}
    ensures |NewIds(t)| == |NewIds(s)| - 1 && |TriedIds(t)| == |TriedIds(s)| + 1
  {
    forall e | e in t.info ensures e in s.info && (e != id ==> t.info[e] == s.info[e]) {}
    forall e | e in s.info ensures e in t.info && (e != id ==> t.info[e] == s.info[e]) {}
    assert id in NewIds(s) && id !in TriedIds(s);
  }

  lemma SeatTables(h: Hashes, s: State, id: int, sl: Slot, t: State)
    requires id in s.info && !s.info[id].inTried && s.info[id].refCount == 0 && sl !in s.tried
    requires sl == TriedSlot(h, s.key, s.info[id].addr.service) && t == Seat(s, id, sl)
    requires TriedOk(h, s) && FreshOk(h, s) && RefOk(s)
    ensures TriedOk(h, t) && FreshOk(h, t) && RefOk(t)
  {
    assert Refs(s.news, id) == {} by { assert s.info[id].refCount == |Refs(s.news, id)|; }
    forall u | u in t.news ensures FreshSlotOk(h, t, u, t.news[u]) {
      assert FreshSlotOk(h, s, u, s.news[u]);
      assert u !in Refs(s.news, id);
    }
    forall e | e in t.info ensures t.info[e].refCount == |Refs(t.news, e)| {
      assert s.info[e].refCount == |Refs(s.news, e)|;
    }
    forall u | u in t.tried
      ensures t.tried[u] in t.info && t.info[t.tried[u]].inTried &&
              u == TriedSlot(h, t.key, t.info[t.tried[u]].addr.service)
    {
      if u != sl { assert s.tried[u] in s.info; }
    }
    forall e | e in t.info && t.info[e].inTried
      ensures TriedSlot(h, t.key, t.info[e].addr.service) in t.tried &&
              t.tried[TriedSlot(h, t.key, t.info[e].addr.service)] == e
    {
      if e != id { assert s.info[e].inTried; }
    }
  }

  lemma SeatRest(s: State, id: int, sl: Slot, t: State, except: set<int>)
    requires id in s.info && t == Seat(s, id, sl)
    requires IdsOk(s) && AddrOk(s) && RandomOk(s) && RangeOk(s, except)
    ensures IdsOk(t) && AddrOk(t) && RandomOk(t) && RangeOk(t, except - {id})
  {
    forall e | e in t.info ensures e in s.info && (e != id ==> t.info[e] == s.info[e]) {}
    forall k | 0 <= k < |t.random| ensures t.random[k] in t.info && t.info[t.random[k]].randomPos == k {
      assert s.random[k] in s.info;
    }
    forall ip | ip in t.byAddr ensures t.byAddr[ip] in t.info && t.info[t.byAddr[ip]].addr.service.ip == ip {
      assert s.byAddr[ip] in s.info;
    }
  }

  /** The counter of new entries moves together with the amount it is off by. */
  lemma CountNew(h: Hashes, s: State, t: State, delta: int, newOff: int, triedOff: int, except: set<int>)
    requires Core(h, s, newOff, triedOff, except) && t == s.(nNew := s.nNew + delta)
    ensures Core(h, t, newOff - delta, triedOff, except)
  {
    OpenCore(h, s, newOff, triedOff, except);
    assert NewIds(t) == NewIds(s) && TriedIds(t) == TriedIds(s);
    ShapeAddr(s, t);
    ShapeTried(h, s, t);
    ShapeFresh(h, s, t);
    CloseCore(h, t, newOff - delta, triedOff, except);
  }

  /** Same clock readings, address and source. */
  ghost predicate SameStats(a: Info, b: Info) {
    a == b.(refCount := a.refCount, inTried := a.inTried, randomPos := a.randomPos)
  }

  /** Entries may disappear, but those left keep their statistics, and only the listed ones
      may have become tried. */
  ghost predicate StatsKept(s: State, t: State, promoted: set<int>) {
    forall x {:trigger t.info[x]} :: x in t.info ==>
      x in s.info && SameStats(t.info[x], s.info[x]) && (t.info[x].inTried ==> s.info[x].inTried || x in promoted)
  }

  lemma StatsChain(s: State, t: State, u: State, a: set<int>, b: set<int>)
    requires StatsKept(s, t, a) && StatsKept(t, u, b)
    ensures StatsKept(s, u, a + b)
  {
    forall x | x in u.info
      ensures x in s.info && SameStats(u.info[x], s.info[x]) && (u.info[x].inTried ==> s.info[x].inTried || x in a + b)
    {
      assert x in t.info && SameStats(t.info[x], s.info[x]);
    }
  }

  /** The elementary updates keep statistics. */
  lemma StepStats(s: State, id: int, sl: Slot)
    requires id in s.info
    ensures StatsKept(s, Detach(s, id), {})
    ensures StatsKept(s, AddRef(s, id, sl).(nNew := s.nNew + 1), {})
    ensures StatsKept(s, Seat(s, id, sl), {id})
  {
  }

  /** Evicts the occupant of a tried slot back into the new table, at the slot its own source
      selects, clearing whatever is there. */
  ghost function Displace(h: Hashes, s: State, sl: Slot, id: int): (t: State)
    requires Core(h, s, 1, 0, {id}) && sl in s.tried && s.tried[sl] in s.info
  {
    var e := s.tried[sl];
    var u := Unseat(s, sl);
    UnseatKeeps(h, s, sl, u, 1, 0, {id});
    CoreParts(h, u, 2, 0, {id} + {e});
    var home := NewSlot(h, s.key, u.info[e].addr.service, u.info[e].source);
    var v := ClearNew(u, home);
    ClearNewKeeps(h, u, home, v, 2, 0, {id} + {e});
    AddRef(v, e, home).(nNew := v.nNew + 1)
  }

  lemma ReplaceKey(m: map<Slot, int>, k: Slot, v: int)
    ensures (m - {k})[k := v] == m[k := v]
  {
  }

  /** The evicted entry re-enters the new table with one reference. */
  lemma Reenter(h: Hashes, v: State, e: int, home: Slot, id: int, t: State)
    requires Core(h, v, 2, 0, {id} + {e}) && home !in v.news && FreshSlotOk(h, v, home, e) && e != id
    requires v.info[e].refCount == 0 && t == AddRef(v, e, home).(nNew := v.nNew + 1)
    ensures Core(h, t, 1, 0, {id})
  {
    var w := AddRef(v, e, home);
    AddRefKeeps(h, v, e, home, w, 2, 0, {id} + {e});
    assert ({id} + {e}) - {e} == {id};
    CountNew(h, w, t, 1, 2, 0, {id});
  }

  lemma DisplaceKeeps(h: Hashes, s: State, sl: Slot, id: int, t: State)
    requires Core(h, s, 1, 0, {id}) && sl in s.tried && s.tried[sl] in s.info && s.info[s.tried[sl]].inTried
    requires id in s.info && !s.info[id].inTried && s.info[id].refCount == 0 && t == Displace(h, s, sl, id)
    ensures Core(h, t, 1, 0, {id}) && t.tried == s.tried - {sl} && t.key == s.key
    ensures id in t.info && SameEntry(t.info[id], s.info[id])
    ensures s.tried[sl] in t.info && !t.info[s.tried[sl]].inTried && t.info[s.tried[sl]].refCount == 1
    ensures StatsKept(s, t, {})
  {
    var e := s.tried[sl];
    var u := Unseat(s, sl);
    UnseatKeeps(h, s, sl, u, 1, 0, {id});
    CoreParts(h, u, 2, 0, {id} + {e});
    var home := NewSlot(h, s.key, u.info[e].addr.service, u.info[e].source);
    var v := ClearNew(u, home);
    assert u.info[e].refCount == 0 && u.info[id].refCount == 0;
    assert home in u.news ==> u.news[home] != e && u.news[home] != id by {
      if home in u.news { assert home in Refs(u.news, u.news[home]); }
    }
    ClearNewKeeps(h, u, home, v, 2, 0, {id} + {e});
    assert SameEntry(v.info[e], u.info[e]) && SameEntry(v.info[id], u.info[id]);
    assert FreshSlotOk(h, v, home, e);
    Reenter(h, v, e, home, id, t);
    ClearNewStats(h, u, home, v, 2, 0, {id} + {e});
    assert StatsKept(s, u, {});
    StepStats(v, e, home);
    StatsChain(s, u, v, {}, {});
    StatsChain(s, v, t, {}, {});
  }

  /** Clearing a slot changes no clock reading and no tried flag. */
  lemma ClearNewStats(h: Hashes, s: State, sl: Slot, t: State, newOff: int, triedOff: int, except: set<int>)
    requires Core(h, s, newOff, triedOff, except) && FreshLinked(s) && RandomOk(s) && t == ClearNew(s, sl)
    ensures StatsKept(s, t, {})
  {
    if sl in s.news {
      var id := s.news[sl];
      var u := DropRef(s, sl);
      DropRefKeeps(h, s, sl, u, newOff, triedOff, except);
      assert StatsKept(s, u, {});
      if u.info[id].refCount == 0 {
        DeleteFrame(u, id, t);
        assert StatsKept(u, t, {});
        StatsChain(s, u, t, {}, {});
      }
    }
  }

  /** `MakeTried`: out of every new bucket, then into the tried slot, displacing its occupant. */
  ghost function MakeTried(h: Hashes, s: State, id: int): State
    requires Core(h, s, 0, 0, {}) && id in s.info && !s.info[id].inTried
  {
    var a := Detach(s, id);
    DetachKeeps(h, s, id, a, 0, 0, {});
    assert {} + {id} == {id};
    CoreParts(h, a, 1, 0, {id});
    var home := TriedSlot(h, s.key, s.info[id].addr.service);
    if home in a.tried then
      var b := Displace(h, a, home, id);
      DisplaceKeeps(h, a, home, id, b);
      Seat(b, id, home)
    else Seat(a, id, home)
  }

  lemma MakeTriedKeeps(h: Hashes, s: State, id: int, t: State)
    requires Core(h, s, 0, 0, {}) && id in s.info && !s.info[id].inTried && t == MakeTried(h, s, id)
    ensures Core(h, t, 0, 0, {}) && t.key == s.key && id in t.info && t.info[id].inTried
    ensures StatsKept(s, t, {id})
    ensures t.tried == s.tried[TriedSlot(h, s.key, s.info[id].addr.service) := id]
  {
    var a := Detach(s, id);
    DetachKeeps(h, s, id, a, 0, 0, {});
    assert {} + {id} == {id};
    assert {id} - {id} == {};
    CoreParts(h, a, 1, 0, {id});
    StepStats(s, id, Slot(0, 0));
    var home := TriedSlot(h, s.key, s.info[id].addr.service);
    if home in a.tried {
      var b := Displace(h, a, home, id);
      DisplaceKeeps(h, a, home, id, b);
      SeatStep(h, s, id, b, home, t);
      ReplaceKey(s.tried, home, id);
      StatsChain(s, a, b, {}, {});
      StatsChain(s, b, t, {}, {id});
    } else {
      SeatStep(h, s, id, a, home, t);
      StatsChain(s, a, t, {}, {id});
    }
  }

  lemma SeatStep(h: Hashes, s: State, id: int, b: State, home: Slot, t: State)
    requires id in s.info && Core(h, b, 1, 0, {id}) && id in b.info && SamePlace(b.info[id], s.info[id])
    requires !s.info[id].inTried && b.info[id].refCount == 0 && b.key == s.key && home !in b.tried
    requires home == TriedSlot(h, s.key, s.info[id].addr.service) && t == Seat(b, id, home)
    ensures Core(h, t, 0, 0, {}) && StatsKept(b, t, {id}) && t.key == s.key
    ensures id in t.info && t.info[id].inTried && t.tried == b.tried[home := id]
  {
    SeatKeeps(h, b, id, home, t, 1, 0, {id});
    assert {id} - {id} == {};
    StepStats(b, id, home);
  }

  lemma TimesKept(s: State, t: State, promoted: set<int>)
    requires TimesOk(s) && StatsKept(s, t, promoted)
    requires forall x :: x in promoted && x in s.info ==> s.info[x].lastSuccess != 0
    ensures TimesOk(t)
  {
    forall x | x in t.info
      ensures t.info[x].lastTry >= 0 && t.info[x].lastSuccess >= 0 && (t.info[x].inTried ==> t.info[x].lastSuccess != 0)
    {
      assert SameStats(t.info[x], s.info[x]);
      assert s.info[x].lastTry >= 0;
    }
  }

  // ----- the public operations -----

  /** `Find` under the exact service: the address is known with this very port. */
  predicate Matches(s: State, service: Service) {
    service.ip in s.byAddr && s.byAddr[service.ip] in s.info && s.info[s.byAddr[service.ip]].addr.service == service
  }

  function Praised(i: Info, time: int): Info {
    i.(lastSuccess := time, lastTry := time, attempts := 0)
  }

  /** `Good_`: a successful connection moves the entry to the tried table. */
  ghost function Good(h: Hashes, s: State, service: Service, time: int): State
    requires Core(h, s, 0, 0, {})
  {
    if !Matches(s, service) then s else
      var id := s.byAddr[service.ip];
      var t := SetInfo(s, id, Praised(s.info[id], time));
      TouchKeeps(h, s, id, Praised(s.info[id], time), t, 0, 0, {});
      if s.info[id].inTried then t else MakeTried(h, t, id)
  }

  /** `Good_` keeps the links and counters always; the clock readings stay legal exactly when
      the entry is unknown or the given time is positive. */
  lemma GoodKeeps(h: Hashes, s: State, service: Service, time: int)
    requires Inv(h, s)
    ensures Core(h, Good(h, s, service, time), 0, 0, {})
    ensures Inv(h, Good(h, s, service, time)) <==> !Matches(s, service) || time > 0
    ensures Matches(s, service) ==>
              var t, id := Good(h, s, service, time), s.byAddr[service.ip];
              Matches(t, service) && t.byAddr[service.ip] == id && t.info[id].inTried &&
              t.tried == s.tried[TriedSlot(h, s.key, service) := id]
  {
    if Matches(s, service) {
      var id := s.byAddr[service.ip];
      var u := SetInfo(s, id, Praised(s.info[id], time));
      TouchKeeps(h, s, id, Praised(s.info[id], time), u, 0, 0, {});
      var t := Good(h, s, service, time);
      if s.info[id].inTried {
        TriedHome(h, s, id);
      } else {
        MakeTriedKeeps(h, u, id, t);
      }
      StillFound(h, t, id);
      assert t.info[id].lastSuccess == time by {
        if !s.info[id].inTried { assert SameStats(t.info[id], u.info[id]); }
      }
      if time > 0 {
        assert TimesOk(u) by {
          forall x | x in u.info
            ensures u.info[x].lastTry >= 0 && u.info[x].lastSuccess >= 0 &&
                    (u.info[x].inTried ==> u.info[x].lastSuccess != 0)
          {
            if x != id { assert s.info[x].lastTry >= 0; }
          }
        }
        if !s.info[id].inTried {
          TimesKept(u, t, {id});
        }
      }
    }
  }

  lemma TriedHome(h: Hashes, s: State, id: int)
    requires Core(h, s, 0, 0, {}) && id in s.info && s.info[id].inTried
    ensures s.tried == s.tried[TriedSlot(h, s.key, s.info[id].addr.service) := id]
  {
    OpenCore(h, s, 0, 0, {});
  }

  lemma StillFound(h: Hashes, t: State, id: int)
    requires Core(h, t, 0, 0, {}) && id in t.info
    ensures Matches(t, t.info[id].addr.service) && t.byAddr[t.info[id].addr.service.ip] == id
  {
    OpenCore(h, t, 0, 0, {});
  }

  function Attempted(i: Info, time: int): Info {
    i.(lastTry := time, attempts := i.attempts + 1)
  }

  /** `Attempt_`. */
  function Attempt(s: State, service: Service, time: int): State {
    if !Matches(s, service) then s else
      var id := s.byAddr[service.ip];
      SetInfo(s, id, Attempted(s.info[id], time))
  }

  lemma AttemptKeeps(h: Hashes, s: State, service: Service, time: int)
    requires Inv(h, s)
    ensures Inv(h, Attempt(s, service, time)) <==> !Matches(s, service) || time >= 0
  {
    if Matches(s, service) {
      var id := s.byAddr[service.ip];
      var t := Attempt(s, service, time);
      TouchKeeps(h, s, id, t.info[id], t, 0, 0, {});
      assert s.info[id].lastTry >= 0 && t.info[id].lastTry == time;
      if time >= 0 {
        forall x | x in t.info
          ensures t.info[x].lastTry >= 0 && t.info[x].lastSuccess >= 0 &&
                  (t.info[x].inTried ==> t.info[x].lastSuccess != 0)
        {
          assert s.info[x].lastTry >= 0;
        }
      }
    }
  }

  function Seen(i: Info, time: int): Info {
    i.(addr := i.addr.(time := U32(time)))
  }

  /** `Connected_`: refreshes the last-seen time, at most every twenty minutes. */
  function Connected(s: State, service: Service, time: int): State {
    if !Matches(s, service) then s else
      var id := s.byAddr[service.ip];
      var i := s.info[id];
      if time - i.addr.time > 20 * 60 then SetInfo(s, id, Seen(i, time)) else s
  }

  lemma ConnectedKeeps(h: Hashes, s: State, service: Service, time: int)
    requires Inv(h, s)
    ensures Inv(h, Connected(s, service, time))
  {
    if Matches(s, service) && Connected(s, service, time) != s {
      var id := s.byAddr[service.ip];
      var t := Connected(s, service, time);
      TouchKeeps(h, s, id, t.info[id], t, 0, 0, {});
      assert StatsSurvive(s, t, id);
    }
  }

  /** Only entry id changed, and not its clock readings or flag. */
  ghost predicate StatsSurvive(s: State, t: State, id: int)
    requires TimesOk(s)
    ensures StatsSurvive(s, t, id) ==> TimesOk(t)
  {
    t.info.Keys == s.info.Keys && id in s.info &&
    t.info[id].lastTry == s.info[id].lastTry && t.info[id].lastSuccess == s.info[id].lastSuccess &&
    t.info[id].inTried == s.info[id].inTried && forall x :: x in s.info && x != id ==> t.info[x] == s.info[x]
  }

  /** The tail of `Add_`: claims a slot of the new table for an entry, unless its occupant is
      worth more; an entry left without references is deleted. */
  ghost function Insert(h: Hashes, s: State, id: int, sl: Slot, now: int): State
    requires Core(h, s, 0, 0, {id}) && id in s.info
  {
    CoreParts(h, s, 0, 0, {id});
    if sl in s.news && s.news[sl] == id then s
    else if sl !in s.news || Worthless(s, s.news[sl], id, now) then
      ClearNewKeeps(h, s, sl, ClearNew(s, sl), 0, 0, {id});
      AddRef(ClearNew(s, sl), id, sl)
    else if s.info[id].refCount == 0 then Delete(s, id)
    else s
  }

  predicate Worthless(s: State, occupant: int, id: int, now: int)
    requires occupant in s.info && id in s.info
  {
    IsTerrible(s.info[occupant], now) || (s.info[occupant].refCount > 1 && s.info[id].refCount == 0)
  }

  lemma InsertKeeps(h: Hashes, s: State, id: int, sl: Slot, now: int, t: State)
    requires Core(h, s, 0, 0, {id}) && FreshSlotOk(h, s, sl, id) && TimesOk(s)
    requires s.info[id].refCount < NEW_BUCKETS_PER_ADDRESS && t == Insert(h, s, id, sl, now)
    ensures Core(h, t, 0, 0, {}) && TimesOk(t) && t.key == s.key
    ensures sl in t.news
    ensures t.news[sl] == id || t.news == s.news
  {
    CoreParts(h, s, 0, 0, {id});
    assert {id} - {id} == {};
    if sl in s.news && s.news[sl] == id {
      assert sl in Refs(s.news, id);
      DropExempt(h, s, id);
    } else if sl !in s.news || Worthless(s, s.news[sl], id, now) {
      var u := ClearNew(s, sl);
      ClearNewKeeps(h, s, sl, u, 0, 0, {id});
      ClearNewStats(h, s, sl, u, 0, 0, {id});
      TimesKept(s, u, {});
      assert SameEntry(u.info[id], s.info[id]);
      assert FreshSlotOk(h, u, sl, id);
      AddRefKeeps(h, u, id, sl, t, 0, 0, {id});
      assert StatsSurvive(u, t, id);
    } else if s.info[id].refCount == 0 {
      DeleteKeeps(h, s, id, t, 0, 0, {id});
      DeleteFrame(s, id, t);
      assert StatsKept(s, t, {});
      TimesKept(s, t, {});
    } else {
      DropExempt(h, s, id);
    }
  }

  /** An entry that has a reference needs no exemption. */
  lemma DropExempt(h: Hashes, s: State, id: int)
    requires Core(h, s, 0, 0, {id}) && id in s.info && s.info[id].refCount != 0
    ensures Core(h, s, 0, 0, {})
  {
    OpenCore(h, s, 0, 0, {id});
    assert RangeOk(s, {});
    CloseCore(h, s, 0, 0, {});
  }

  function Max(a: int, b: int): int { if a < b then b else a }

  /** The update `Add_` makes to an entry it already knows. */
  function Refreshed(i: Info, addr: Address, penalty: int, now: int): Info {
    var online := now - addr.time < 24 * 60 * 60;
    var interval := if online then 60 * 60 else 24 * 60 * 60;
    var time := if addr.time != 0 && (i.addr.time == 0 || i.addr.time < addr.time - interval - penalty)
                then U32(Max(0, addr.time - penalty)) else i.addr.time;
    i.(addr := i.addr.(time := time, services := i.addr.services + addr.services))
  }

  /** A known entry gets another reference only if the news is newer, it is not tried, it has
      fewer than eight references, and a draw with odds 2^-refCount succeeds. */
  predicate Eligible(i: Info, addr: Address, roll: nat) {
    addr.time != 0 && (i.addr.time == 0 || addr.time > i.addr.time) && !i.inTried &&
    i.refCount != NEW_BUCKETS_PER_ADDRESS && 0 <= i.refCount && roll % Factor(i.refCount) == 0
  }

  function Factor(n: nat): (r: nat)
    ensures r > 0
  {
    if n == 0 then 1 else 2 * Factor(n - 1)
  }

  function Created(s: State, addr: Address, source: NetAddr, penalty: int): State {
    var t := Create(s, addr, source);
    var i := t.info[s.idCount];
    SetInfo(t, s.idCount, i.(addr := i.addr.(time := U32(Max(0, addr.time - penalty))))).(nNew := t.nNew + 1)
  }

  /** `Add_`. */
  ghost function Add(h: Hashes, s: State, addr: Address, source: NetAddr, penalty: int,
                     routable: bool, now: int, roll: nat): State
    requires Inv(h, s)
  {
    CoreParts(h, s, 0, 0, {});
    if !routable then s
    else if addr.service.ip in s.byAddr then
      var id := s.byAddr[addr.service.ip];
      var i := Refreshed(s.info[id], addr, penalty, now);
      var t := SetInfo(s, id, i);
      if Eligible(i, addr, roll) then
        RefreshKeeps(h, s, id, i, t);
        Insert(h, t, id, NewSlot(h, s.key, i.addr.service, source), now)
      else t
    else
      var t := Created(s, addr, source, penalty);
      CreatedKeeps(h, s, addr, source, penalty, t);
      Insert(h, t, s.idCount, NewSlot(h, s.key, addr.service, source), now)
  }

  lemma RefreshKeeps(h: Hashes, s: State, id: int, i: Info, t: State)
    requires Inv(h, s) && id in s.info && SameLinks(i, s.info[id]) && t == SetInfo(s, id, i)
    requires i.lastTry == s.info[id].lastTry && i.lastSuccess == s.info[id].lastSuccess
    ensures Inv(h, t) && Core(h, t, 0, 0, {id})
  {
    TouchKeeps(h, s, id, i, t, 0, 0, {});
    assert StatsSurvive(s, t, id);
    WeakenExcept(h, t, 0, 0, {}, {id});
  }

  lemma CreatedKeeps(h: Hashes, s: State, addr: Address, source: NetAddr, penalty: int, t: State)
    requires Inv(h, s) && addr.service.ip !in s.byAddr && t == Created(s, addr, source, penalty)
    ensures Core(h, t, 0, 0, {s.idCount}) && TimesOk(t) && s.idCount in t.info
  {
    var id := s.idCount;
    var a := Create(s, addr, source);
    CreateKeeps(h, s, addr, source, a, 0, 0, {});
    assert {} + {id} == {id};
    var i := t.info[id];
    var b := SetInfo(a, id, i);
    TouchKeeps(h, a, id, i, b, 1, 0, {id});
    CountNew(h, b, t, 1, 1, 0, {id});
    forall x | x in t.info
      ensures t.info[x].lastTry >= 0 && t.info[x].lastSuccess >= 0 && (t.info[x].inTried ==> t.info[x].lastSuccess != 0)
    {
      if x != id { assert s.info[x].lastTry >= 0; }
    }
  }

  lemma AddKeeps(h: Hashes, s: State, addr: Address, source: NetAddr, penalty: int,
                 routable: bool, now: int, roll: nat)
    requires Inv(h, s)
    ensures Inv(h, Add(h, s, addr, source, penalty, routable, now, roll))
  {
    CoreParts(h, s, 0, 0, {});
    if routable {
      var u := Add(h, s, addr, source, penalty, routable, now, roll);
      if addr.service.ip in s.byAddr {
        var id := s.byAddr[addr.service.ip];
        var i := Refreshed(s.info[id], addr, penalty, now);
        var t := SetInfo(s, id, i);
        RefreshKeeps(h, s, id, i, t);
        if Eligible(i, addr, roll) {
          var sl := NewSlot(h, s.key, i.addr.service, source);
          assert FreshSlotOk(h, t, sl, id);
          RefBound(h, t, id);
          InsertKeeps(h, t, id, sl, now, u);
        }
      } else {
        var t := Created(s, addr, source, penalty);
        CreatedKeeps(h, s, addr, source, penalty, t);
        var sl := NewSlot(h, s.key, addr.service, source);
        assert FreshSlotOk(h, t, sl, s.idCount);
        InsertKeeps(h, t, s.idCount, sl, now, u);
      }
    }
  }

  lemma RefBound(h: Hashes, s: State, id: int)
    requires Core(h, s, 0, 0, {}) && id in s.info && !s.info[id].inTried
    ensures 1 <= s.info[id].refCount <= NEW_BUCKETS_PER_ADDRESS
  {
    OpenCore(h, s, 0, 0, {});
  }

  // ----- whether an added address stays -----

  /** The slot for a new address is free, or its occupant gives way. */
  predicate Welcome(h: Hashes, s: State, addr: Address, source: NetAddr, now: int) {
    var sl := NewSlot(h, s.key, addr.service, source);
    sl !in s.news || (s.news[sl] in s.info && (IsTerrible(s.info[s.news[sl]], now) || s.info[s.news[sl]].refCount > 1))
  }

  lemma DeleteIndex(s: State, id: int)
    requires id in s.info && RandomOk(s)
    ensures Delete(s, id).byAddr == s.byAddr - {s.info[id].addr.service.ip}
  {
    SwapRandomKeeps(s, s.info[id].randomPos, |s.random| - 1);
    assert SameEntry(SwapRandom(s, s.info[id].randomPos, |s.random| - 1).info[id], s.info[id]);
  }

  /** An inserted entry stays indexed exactly when it has a reference or gets the slot. */
  lemma InsertKept(h: Hashes, s: State, id: int, sl: Slot, now: int, t: State)
    requires Core(h, s, 0, 0, {id}) && FreshSlotOk(h, s, sl, id) && TimesOk(s)
    requires s.info[id].refCount < NEW_BUCKETS_PER_ADDRESS && t == Insert(h, s, id, sl, now)
    ensures sl in s.news ==> s.news[sl] in s.info
    ensures s.info[id].addr.service.ip in t.byAddr <==>
            s.info[id].refCount != 0 || sl !in s.news || Worthless(s, s.news[sl], id, now)
  {
    CoreParts(h, s, 0, 0, {id});
    InsertKeeps(h, s, id, sl, now, t);
    if sl in s.news && s.news[sl] == id {
      assert sl in Refs(s.news, id);
      Indexed(h, s, {id}, id);
    } else if sl !in s.news || Worthless(s, s.news[sl], id, now) {
      ClearNewKeeps(h, s, sl, ClearNew(s, sl), 0, 0, {id});
      assert SameEntry(ClearNew(s, sl).info[id], s.info[id]);
      Indexed(h, t, {}, id);
    } else if s.info[id].refCount == 0 {
      DeleteIndex(s, id);
    } else {
      Indexed(h, s, {id}, id);
    }
  }

  lemma Indexed(h: Hashes, s: State, except: set<int>, id: int)
    requires Core(h, s, 0, 0, except) && id in s.info
    ensures s.info[id].addr.service.ip in s.byAddr
  {
    OpenCore(h, s, 0, 0, except);
  }

  /** After `Add_` an address is known exactly when it was known before, or is routable and its slot
      welcomes it: an address reported as new may be gone again. */
  lemma AddKept(h: Hashes, s: State, addr: Address, source: NetAddr, penalty: int,
                routable: bool, now: int, roll: nat)
    requires Inv(h, s)
    ensures addr.service.ip in Add(h, s, addr, source, penalty, routable, now, roll).byAddr <==>
            addr.service.ip in s.byAddr || (routable && Welcome(h, s, addr, source, now))
  {
    CoreParts(h, s, 0, 0, {});
    if routable {
      var u := Add(h, s, addr, source, penalty, routable, now, roll);
      if addr.service.ip in s.byAddr {
        KnownKept(h, s, addr, source, penalty, now, roll, u);
      } else {
        var t := Created(s, addr, source, penalty);
        CreatedKeeps(h, s, addr, source, penalty, t);
        var sl := NewSlot(h, s.key, addr.service, source);
        assert FreshSlotOk(h, t, sl, s.idCount);
        InsertKept(h, t, s.idCount, sl, now, u);
        if sl in s.news { OccupantKept(h, s, addr, source, penalty, sl); }
      }
    }
  }

  lemma OccupantKept(h: Hashes, s: State, addr: Address, source: NetAddr, penalty: int, sl: Slot)
    requires Inv(h, s) && sl in s.news
    ensures s.news[sl] in s.info && Created(s, addr, source, penalty).info[s.news[sl]] == s.info[s.news[sl]]
  {
    OpenCore(h, s, 0, 0, {});
    assert FreshSlotOk(h, s, sl, s.news[sl]);
  }

  lemma KnownKept(h: Hashes, s: State, addr: Address, source: NetAddr, penalty: int, now: int, roll: nat, u: State)
    requires Inv(h, s) && addr.service.ip in s.byAddr && u == Add(h, s, addr, source, penalty, true, now, roll)
    ensures addr.service.ip in u.byAddr
  {
    CoreParts(h, s, 0, 0, {});
    OpenCore(h, s, 0, 0, {});
    var id := s.byAddr[addr.service.ip];
    var i := Refreshed(s.info[id], addr, penalty, now);
    var t := SetInfo(s, id, i);
    RefreshKeeps(h, s, id, i, t);
    if Eligible(i, addr, roll) {
      var sl := NewSlot(h, s.key, i.addr.service, source);
      assert FreshSlotOk(h, t, sl, id);
      RefBound(h, t, id);
      InsertKept(h, t, id, sl, now, u);
    }
  }

  /** Two addresses whose slots collide: the second is reported as new and is not kept. */
  lemma ReportedAndDropped(h: Hashes, key: Key, source: NetAddr, a: Address, b: Address, now: int)
    requires key != 0 && a.service.ip != b.service.ip && 0 < a.time <= now < 0x1_0000_0000 && now - a.time < 60 * 60
    requires NewSlot(h, key, a.service, source) == NewSlot(h, key, b.service, source)
    ensures var empty := State(key, 0, map[], map[], [], 0, map[], 0, map[]);
            Inv(h, empty) &&
            var s := Add(h, empty, a, source, 0, true, now, 0);
            Inv(h, s) && b.service.ip !in s.byAddr && b.service.ip !in Add(h, s, b, source, 0, true, now, 0).byAddr
  {
    var empty := State(key, 0, map[], map[], [], 0, map[], 0, map[]);
    EmptyInv(h, key);
    var s := Add(h, empty, a, source, 0, true, now, 0);
    AddKeeps(h, empty, a, source, 0, true, now, 0);
    FirstAdded(h, key, source, a, now);
    AddKept(h, s, b, source, 0, true, now, 0);
  }

  lemma EmptyInv(h: Hashes, key: Key)
    requires key != 0
    ensures Inv(h, State(key, 0, map[], map[], [], 0, map[], 0, map[]))
  {
    var s := State(key, 0, map[], map[], [], 0, map[], 0, map[]);
    assert NewIds(s) == {} && TriedIds(s) == {};
    CloseCore(h, s, 0, 0, {});
  }

  lemma FirstAdded(h: Hashes, key: Key, source: NetAddr, a: Address, now: int)
    requires key != 0 && 0 < a.time <= now < 0x1_0000_0000 && now - a.time < 60 * 60
    ensures var empty := State(key, 0, map[], map[], [], 0, map[], 0, map[]);
            Inv(h, empty) &&
            var s := Add(h, empty, a, source, 0, true, now, 0);
            s.key == key && s.byAddr == map[a.service.ip := 0] && 0 in s.info && s.info[0].refCount == 1 &&
            s.news == map[NewSlot(h, key, a.service, source) := 0] && !IsTerrible(s.info[0], now)
  {
    EmptyInv(h, key);
    var empty := State(key, 0, map[], map[], [], 0, map[], 0, map[]);
    var t := Created(empty, a, source, 0);
    CreatedKeeps(h, empty, a, source, 0, t);
    assert U32(Max(0, a.time - 0)) == a.time;
    assert t.info[0] == Info(a, source, 0, 0, 0, 0, false, 0);
  }
}
