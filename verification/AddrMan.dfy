// The address manager (src/addrman.cpp, src/addrman_impl.h). Randomness is a free choice, clocks are parameters.
module AddrMans {
  import opened Sets
  import opened AddrTables
  import opened AddrSteps

  const HORIZON := 30 * 24 * 3600
  const RETRIES := 3
  const MAX_FAILURES := 10
  const MIN_FAIL := 7 * 24 * 3600
  const REPLACEMENT := 4 * 3600
  const SET_TRIED_COLLISION_SIZE := 10
  const TEST_WINDOW := 40 * 60

  /** An address as peers announce it. */
  datatype Address = Address(service: Service, services: set<nat>, time: int)

  datatype Option<T> = None | Some(value: T)

  predicate IsTerrible(info: AddrInfo, now: int) {
    if now - info.lastTry <= 60 then false
    else
      || info.time > now + 600
      || now - info.time > HORIZON
      || (info.lastSuccess == 0 && info.attempts >= RETRIES)
      || (now - info.lastSuccess > MIN_FAIL && info.attempts >= MAX_FAILURES)
  }

  function Max(a: int, b: int): int { if a < b then b else a }

  function NewInfo(addr: Address, source: NetAddr, pos: nat): AddrInfo {
    AddrInfo(addr.service, addr.services, addr.time, source, 0, 0, 0, 0, 0, false, pos)
  }

  /** An attempt counts as a failure once after each success anywhere. */
  function Attempted(info: AddrInfo, time: int, countFailure: bool, lastGood: int): AddrInfo {
    if countFailure && info.lastCountAttempt < lastGood
    then info.(lastTry := time, lastCountAttempt := time, attempts := info.attempts + 1)
    else info.(lastTry := time)
  }

  function SeenAt(info: AddrInfo, time: int): AddrInfo {
    if time - info.time > 20 * 60 then info.(time := time) else info
  }

  function WithServices(info: AddrInfo, services: set<nat>): AddrInfo { info.(services := services) }

  lemma CollisionsKeep(k: Config, m: Infos, tried: Table, idCount: nat, m': Infos, tried': Table, idCount': nat, collisions: set<nat>)
    requires CollisionsOk(k, m, tried, collisions, idCount) && tried.Keys <= tried'.Keys && idCount <= idCount'
    requires forall id :: id in m' && id < idCount ==> id in m && m'[id].addr == m[id].addr
    ensures CollisionsOk(k, m', tried', collisions, idCount')
  {
    hide TriedSlot;
  }

  class AddrMan {
    const config: Config
    var nIdCount: nat
    var mapInfo: Infos
    var mapAddr: map<Service, nat>
    var vRandom: seq<nat>
    var nTried: int
    var vvTried: Table
    var nNew: int
    var vvNew: Table
    var lastGood: int
    var triedCollisions: set<nat>
    var networkCounts: map<nat, Counts>

    ghost function Snapshot(): State
      reads this
    {
      State(nIdCount, mapInfo, mapAddr, vRandom, vvTried, vvNew, Counts(nNew, nTried), networkCounts)
    }

    /** Everything CheckAddrman checks, and that pending collisions are with something. */
    ghost predicate Valid()
      reads this
    {
      Consistent(config, Snapshot(), {}, {}) && CollisionsOk(config, mapInfo, vvTried, triedCollisions, nIdCount)
    }

    constructor (config: Config)
      ensures Valid() && this.config == config && Snapshot() == EMPTY && triedCollisions == {}
    {
      this.config := config;
      nIdCount, mapInfo, mapAddr, vRandom := 0, map[], map[], [];
      nTried, vvTried, nNew, vvNew := 0, map[], 0, map[];
      lastGood, triedCollisions, networkCounts := 1, {}, map[];
      new;
      EmptyConsistent(config);
    }

    method Find(addr: Service) returns (found: bool, id: nat)
      ensures found <==> addr in mapAddr && mapAddr[addr] in mapInfo
      ensures found ==> id == mapAddr[addr]
    {
      found, id := false, 0;
      if addr in mapAddr {
        id := mapAddr[addr];
        found := id in mapInfo;
      }
    }

    method CountShift(net: nat, from: Kind, to: Kind)
      modifies this`nNew, this`nTried, this`networkCounts
      ensures Snapshot() == Shifted(old(Snapshot()), net, from, to)
    {
      hide CountOf, Delta;
      nNew, nTried := nNew + Delta(New, from, to), nTried + Delta(Tried, from, to);
      networkCounts := networkCounts[net := Shift(CountOf(networkCounts, net), from, to)];
    }

    /** A new entry, in no table yet. */
    method Create(addr: Address, source: NetAddr) returns (id: nat)
      modifies this
      ensures id == old(nIdCount) && Snapshot() == Created(old(Snapshot()), NewInfo(addr, source, |old(vRandom)|))
      ensures triedCollisions == old(triedCollisions) && lastGood == old(lastGood)
    {
      hide CountOf, Shift;
      id := nIdCount;
      nIdCount := nIdCount + 1;
      mapInfo := mapInfo[id := NewInfo(addr, source, |vRandom|)];
      mapAddr := mapAddr[addr.service := id];
      vRandom := vRandom + [id];
      CountShift(addr.service.ip.net, Nowhere, New);
    }

    method SwapRandom(i: nat, j: nat)
      requires i < |vRandom| && j < |vRandom| && vRandom[i] in mapInfo && vRandom[j] in mapInfo
      modifies this`mapInfo, this`vRandom
      ensures Snapshot() == Swapped(old(Snapshot()), i, j)
    {
      if i == j {
        return;
      }
      var a, b := vRandom[i], vRandom[j];
      mapInfo := mapInfo[a := mapInfo[a].(randomPos := j)];
      mapInfo := mapInfo[b := mapInfo[b].(randomPos := i)];
      vRandom := vRandom[i := b];
      vRandom := vRandom[j := a];
    }

    /** Removes an entry that is in no table. */
    method Delete(id: nat)
      requires CanDelete(Snapshot(), id) && !mapInfo[id].inTried && mapInfo[id].refCount == 0
      modifies this
      ensures Snapshot() == Deleted(old(Snapshot()), id)
      ensures triedCollisions == old(triedCollisions) && lastGood == old(lastGood)
    {
      hide Swapped, CountOf, Shift;
      var info := mapInfo[id];
      SwapRandom(info.randomPos, |vRandom| - 1);
      CountShift(info.addr.ip.net, New, Nowhere);
      vRandom := vRandom[..|vRandom| - 1];
      mapAddr := mapAddr - {info.addr};
      mapInfo := mapInfo - {id};
    }

    /** Empties a slot of the new table. */
    method ClearNew(slot: Slot)
      requires CanClear(Snapshot(), slot)
      modifies this
      ensures Snapshot() == Cleared(old(Snapshot()), slot)
      ensures triedCollisions == old(triedCollisions) && lastGood == old(lastGood)
    {
      hide Deleted, CanDelete;
      if slot in vvNew {
        var id := vvNew[slot];
        mapInfo := mapInfo[id := mapInfo[id].(refCount := mapInfo[id].refCount - 1)];
        vvNew := vvNew - {slot};
        if mapInfo[id].refCount == 0 {
          Delete(id);
        }
      }
    }

    /** Takes an entry out of all its slots of the new table, by a scan over the buckets that may stop early. */
    method RemoveFromNew(id: nat)
      requires Consistent(config, Snapshot(), {}, {}) && id in mapInfo && !mapInfo[id].inTried
      modifies this`vvNew, this`mapInfo
      ensures vvNew == WithoutId(old(vvNew), id) && mapInfo == old(mapInfo)[id := old(mapInfo)[id].(refCount := 0)]
    {
      hide Consistent, SlotsOf, NewBucket, Position, WithoutId;
      ghost var m, news := mapInfo, vvNew;
      var a := mapInfo[id].addr;
      var start := StartBucket(config, a, mapInfo[id].source);
      RefsNow(config, Snapshot(), {}, {}, id);
      var n := 0;
      while n < NEW_BUCKET_COUNT
        invariant 0 <= n <= NEW_BUCKET_COUNT
        invariant mapInfo == m[id := m[id].(refCount := |SlotsOf(vvNew, id)|)]
        invariant PartlyOut(news, vvNew, id, start, n)
      {
        var bucket := (start + n) % NEW_BUCKET_COUNT;
        var slot := Slot(bucket, Position(config, true, bucket, a));
        ScanStep(config, State(nIdCount, m, mapAddr, vRandom, vvTried, news, Counts(nNew, nTried), networkCounts), vvNew, id, start, n);
        if slot in vvNew && vvNew[slot] == id {
          vvNew := vvNew - {slot};
          mapInfo := mapInfo[id := mapInfo[id].(refCount := mapInfo[id].refCount - 1)];
          if mapInfo[id].refCount == 0 {
            AllOut(news, vvNew, id, start, n + 1);
            return;
          }
        }
        n := n + 1;
      }
      ScannedAll(config, State(nIdCount, m, mapAddr, vRandom, vvTried, news, Counts(nNew, nTried), networkCounts), vvNew, id, start);
      AllOut(news, vvNew, id, start, n);
    }

    method TakeOut(id: nat)
      requires Consistent(config, Snapshot(), {}, {}) && id in mapInfo && !mapInfo[id].inTried
      modifies this
      ensures Snapshot() == TakenOut(old(Snapshot()), id)
      ensures triedCollisions == old(triedCollisions) && lastGood == old(lastGood)
    {
      hide Consistent, CountOf, Shift, WithoutId;
      var info := mapInfo[id];
      RemoveFromNew(id);
      CountShift(info.addr.ip.net, New, Nowhere);
    }

    method LeaveTried(slot: Slot)
      requires slot in vvTried && vvTried[slot] in mapInfo
      modifies this
      ensures Snapshot() == LeftTried(old(Snapshot()), slot)
      ensures triedCollisions == old(triedCollisions) && lastGood == old(lastGood)
    {
      hide CountOf, Shift;
      var id := vvTried[slot];
      mapInfo := mapInfo[id := mapInfo[id].(inTried := false)];
      vvTried := vvTried - {slot};
      CountShift(mapInfo[id].addr.ip.net, Tried, Nowhere);
    }

    method Readmit(slot: Slot, id: nat)
      requires id in mapInfo
      modifies this
      ensures Snapshot() == Readmitted(old(Snapshot()), slot, id)
      ensures triedCollisions == old(triedCollisions) && lastGood == old(lastGood)
    {
      hide CountOf, Shift;
      mapInfo := mapInfo[id := mapInfo[id].(refCount := 1)];
      vvNew := vvNew[slot := id];
      CountShift(mapInfo[id].addr.ip.net, Nowhere, New);
    }

    method Settle(id: nat)
      requires id in mapInfo
      modifies this
      ensures Snapshot() == Settled(config, old(Snapshot()), id)
      ensures triedCollisions == old(triedCollisions) && lastGood == old(lastGood)
    {
      hide CountOf, Shift, TriedSlot;
      vvTried := vvTried[TriedSlot(config, mapInfo[id].addr) := id];
      mapInfo := mapInfo[id := mapInfo[id].(inTried := true)];
      CountShift(mapInfo[id].addr.ip.net, Nowhere, Tried);
    }

    /** Moves the entry in a tried slot to its slot of the new table, deleting whatever is there. */
    method EvictTried(slot: Slot, ghost id: nat)
      requires Consistent(config, Snapshot(), {id}, {id}) && slot in vvTried
      modifies this
      ensures Consistent(config, Snapshot(), {id}, {id}) && vvTried == old(vvTried) - {slot}
      ensures nIdCount == old(nIdCount) && triedCollisions == old(triedCollisions) && lastGood == old(lastGood)
      ensures old(vvTried)[slot] in old(mapInfo) && EvictionOf(config, old(Snapshot()), Snapshot(), slot, id)
    {
      hide Consistent, Cleared, CanClear, LeftTried, Readmitted, NewSlot, EvictionOf;
      ghost var s := Snapshot();
      EvictEffect(config, s, slot, id);
      var evicted := vvTried[slot];
      var newSlot := NewSlot(config, mapInfo[evicted].addr, mapInfo[evicted].source);
      LeaveTried(slot);
      ClearNew(newSlot);
      assert newSlot !in vvNew;
      Readmit(newSlot, evicted);
    }

    /** Moves an entry to the tried table. */
    method MakeTried(id: nat)
      requires Consistent(config, Snapshot(), {}, {}) && id in mapInfo && !mapInfo[id].inTried && mapInfo[id].lastSuccess > 0
      modifies this
      ensures Consistent(config, Snapshot(), {}, {})
      ensures vvTried == old(vvTried)[TriedSlot(config, old(mapInfo)[id].addr) := id]
      ensures nIdCount == old(nIdCount) && triedCollisions == old(triedCollisions) && lastGood == old(lastGood)
      ensures Promotion(config, old(Snapshot()), Snapshot(), id)
    {
      hide Consistent, TriedSlot, TakenOut, Settled, EvictionOf, Promotion;
      ghost var s := Snapshot();
      TakeOutKeeps(config, s, {}, {}, id);
      TakenOutParts(s, id);
      assert {} + {id} == {id};
      var slot := TriedSlot(config, mapInfo[id].addr);
      TakeOut(id);
      ghost var t := Snapshot();
      if slot in vvTried {
        EvictTried(slot, id);
        EvictKeepsId(config, t, Snapshot(), slot, id);
      }
      ghost var u := Snapshot();
      SettleKeeps(config, u, {id}, {id}, id);
      SettledParts(config, u, id);
      assert {id} - {id} == {};
      assert mapInfo[id].refCount == 0 && slot !in vvTried;
      Settle(id);
      PromotionEffect(config, s, t, u, Snapshot(), id);
    }

    // -------------------------------------------------------------- operations

    /** Changes statistics of an entry that no table depends on. */
    method SetInfo(id: nat, info: AddrInfo)
      requires Valid() && SameAddr(mapInfo, id, info) && Timely(info)
      requires info.refCount == mapInfo[id].refCount && info.inTried == mapInfo[id].inTried && info.randomPos == mapInfo[id].randomPos
      modifies this`mapInfo
      ensures Valid() && mapInfo == old(mapInfo)[id := info]
    {
      hide Consistent, CollisionsOk;
      SoftUpdate(config, Snapshot(), {}, {}, id, info);
      CollisionsKeep(config, mapInfo, vvTried, nIdCount, mapInfo[id := info], vvTried, nIdCount, triedCollisions);
      mapInfo := mapInfo[id := info];
    }

    /**
     * Adds one announced address to the new table. Only one slot, chosen by address and source, may change;
     * at most the entry that stood there with its last reference disappears.
     */
    method AddSingle(addr: Address, source: NetAddr, timePenalty: int, now: int) returns (inserted: bool)
      requires Valid()
      modifies this
      ensures Valid() && vvTried == old(vvTried) && triedCollisions == old(triedCollisions)
      ensures AddedOne(config, old(Snapshot()), Snapshot(), addr, source, timePenalty, now, inserted)
    {
      hide Consistent, CollisionsOk, NewSlot, AdditionKnown, AdditionNew;
      if !config.routable(addr.service) {
        return false;
      }
      var found, id := Find(addr.service);
      var penalty := Penalty(addr, source, timePenalty);
      if found {
        inserted := AddKnown(id, addr, source, penalty, now);
      } else {
        inserted := AddUnknown(addr, source, penalty, now);
      }
    }

    /** The address is known: its time and services are updated, and it may get another slot. */
    method AddKnown(id: nat, addr: Address, source: NetAddr, penalty: int, now: int) returns (inserted: bool)
      requires Valid() && addr.service in mapAddr && mapAddr[addr.service] == id && id in mapInfo
      modifies this
      ensures Valid() && triedCollisions == old(triedCollisions)
      ensures Addition(config, old(Snapshot()), Snapshot(), addr, source, penalty, now, inserted)
      ensures id in mapInfo && KeepsUp(old(mapInfo[id].time), mapInfo[id].time, addr, penalty, now)
    {
      hide Consistent, CollisionsOk, NewSlot, Addition, OneSlot, Timely, Room, KeepsUp;
      ghost var s := Snapshot();
      FoundIs(config, s, addr.service);
      RefsNow(config, s, {}, {}, id);
      var online := now - addr.time < 24 * 3600;
      var interval := if online then 3600 else 24 * 3600;
      var info := mapInfo[id];
      if info.time < addr.time - interval - penalty {
        info := info.(time := Max(0, addr.time - penalty));
      }
      info := info.(services := info.services + addr.services);
      SoftTimely(mapInfo[id], info);
      SetInfo(id, info);
      ghost var t := Snapshot();
      if addr.time <= info.time || info.inTried || info.refCount == NEW_BUCKETS_PER_ADDRESS {
        SoftAddition(config, s, t, addr, source, penalty, now);
        AnnouncementKeepsUp(config, s, t, addr, source, penalty, now, false);
        return false;
      }
      // with N references it is 2^N times harder to get another one
      var unlucky: bool := *;
      if info.refCount > 0 && unlucky {
        SoftAddition(config, s, t, addr, source, penalty, now);
        AnnouncementKeepsUp(config, s, t, addr, source, penalty, now, false);
        return false;
      }
      inserted := TryPlace(addr.service, source, id, now, {});
      KnownAddition(config, s, t, Snapshot(), addr, source, penalty, now, inserted);
      AnnouncementKeepsUp(config, s, Snapshot(), addr, source, penalty, now, inserted);
      OneSlotCollisions(config, t, Snapshot(), NewSlot(config, addr.service, source), inserted, id, triedCollisions);
    }

    /** The address is not known: an entry is created, and deleted again if it gets no slot. */
    method AddUnknown(addr: Address, source: NetAddr, penalty: int, now: int) returns (inserted: bool)
      requires Valid() && !(addr.service in mapAddr && mapAddr[addr.service] in mapInfo) && config.routable(addr.service)
      modifies this
      ensures Valid() && triedCollisions == old(triedCollisions)
      ensures Addition(config, old(Snapshot()), Snapshot(), addr, source, penalty, now, inserted)
    {
      hide Consistent, CollisionsOk, NewSlot, Addition, OneSlot, Created, Room;
      ghost var s := Snapshot();
      NotFoundIs(config, s, addr.service);
      CreateKeeps(config, s, {}, {}, NewInfo(addr, source, |vRandom|));
      CreatedParts(s, NewInfo(addr, source, |vRandom|));
      var id := Create(addr, source);
      var info := mapInfo[id];
      info := info.(time := Max(0, info.time - penalty));
      SoftUpdate(config, Snapshot(), {} + {id}, {}, id, info);
      assert {} + {id} == {id};
      mapInfo := mapInfo[id := info];
      ghost var t := Snapshot();
      inserted := TryPlace(addr.service, source, id, now, {id});
      SlotHolder(config, s, NewSlot(config, addr.service, source));
      UnknownAddition(config, s, t, Snapshot(), addr, source, penalty, now, inserted);
      NewCollisions(config, s, t, id, triedCollisions);
      OneSlotCollisions(config, t, Snapshot(), NewSlot(config, addr.service, source), inserted, id, triedCollisions);
    }

    /** Puts the entry into its slot if that is free or what stands there may be overwritten. */
    method TryPlace(a: Service, source: NetAddr, id: nat, now: int, ghost pending: set<nat>) returns (inserted: bool)
      requires Consistent(config, Snapshot(), pending, {}) && pending <= {id}
      requires id in mapInfo && mapInfo[id].addr == a && !mapInfo[id].inTried && mapInfo[id].refCount < NEW_BUCKETS_PER_ADDRESS
      modifies this
      ensures Consistent(config, Snapshot(), {}, {}) && triedCollisions == old(triedCollisions)
      ensures OneSlot(old(Snapshot()), Snapshot(), NewSlot(config, a, source), inserted, id)
      ensures id in mapInfo <==> inserted || id !in pending
      ensures inserted <==> Room(old(mapInfo), old(vvNew), NewSlot(config, a, source), id, old(mapInfo)[id].refCount, now)
    {
      hide Consistent, NewSlot, IsTerrible, Cleared, CanClear, Deleted, CanDelete, OneSlot;
      var slot := NewSlot(config, a, source);
      inserted := slot !in vvNew;
      ghost var s := Snapshot();
      RefsNow(config, s, pending, {}, id);
      if slot in vvNew && vvNew[slot] == id {
        PlacedNotPending(config, s, pending, slot);
        assert pending == {};
        SameSlot(s, s, slot, id);
        return;
      }
      if !inserted {
        PlacedNotPending(config, s, pending, slot);
        var existing := mapInfo[vvNew[slot]];
        if IsTerrible(existing, now) || (existing.refCount > 1 && mapInfo[id].refCount == 0) {
          inserted := true;
        }
      }
      if inserted {
        Overwrite(slot, id, pending, a, source);
      } else if mapInfo[id].refCount == 0 {
        NotPlacedPending(config, s, pending, id);
        DeleteKeeps(config, s, pending, {}, id);
        assert pending - {id} == {};
        DeletedParts(s, id);
        Delete(id);
        SameSlot(s, Snapshot(), slot, id);
      } else {
        PendingIsEmpty(config, s, pending, id);
        SameSlot(s, s, slot, id);
      }
    }

    method Overwrite(slot: Slot, id: nat, ghost pending: set<nat>, ghost a: Service, ghost source: NetAddr)
      requires Consistent(config, Snapshot(), pending, {}) && pending <= {id} && slot == NewSlot(config, a, source)
      requires id in mapInfo && mapInfo[id].addr == a && !mapInfo[id].inTried && mapInfo[id].refCount < NEW_BUCKETS_PER_ADDRESS
      requires slot in vvNew ==> vvNew[slot] != id
      modifies this
      ensures Consistent(config, Snapshot(), {}, {}) && triedCollisions == old(triedCollisions) && id in mapInfo
      ensures OneSlot(old(Snapshot()), Snapshot(), slot, true, id)
    {
      hide Consistent, NewSlot, Cleared, CanClear, OneSlot;
      ghost var s := Snapshot();
      ClearKeeps(config, s, pending, {}, slot);
      if slot in vvNew { PlacedNotPending(config, s, pending, slot); }
      ClearNew(slot);
      ghost var t := Snapshot();
      assert Untouched(s.infos, t.infos, id);
      NewSlotStands(config, t, id, a, source);
      PlaceKeeps(config, t, pending, {}, slot, id);
      assert pending - {id} == {};
      mapInfo := mapInfo[id := mapInfo[id].(refCount := mapInfo[id].refCount + 1)];
      vvNew := vvNew[slot := id];
      OverwriteIs(s, t, slot, id);
    }

    /** Each address in turn; the trace holds the states in between and what was inserted. */
    method Add(addrs: seq<Address>, source: NetAddr, timePenalty: int, now: int) returns (added: bool, ghost states: seq<State>, ghost inserted: seq<bool>)
      requires Valid()
      modifies this
      ensures Valid() && vvTried == old(vvTried) && triedCollisions == old(triedCollisions)
      ensures |states| == |addrs| + 1 && |inserted| == |addrs| && states[0] == old(Snapshot()) && states[|addrs|] == Snapshot()
      ensures forall i :: 0 <= i < |addrs| ==> AddedOne(config, states[i], states[i + 1], addrs[i], source, timePenalty, now, inserted[i])
      ensures added <==> true in inserted
    {
      hide Consistent, CollisionsOk, AddedOne;
      var count, i := 0, 0;
      states, inserted := [Snapshot()], [];
      while i < |addrs|
        invariant 0 <= i <= |addrs| && Valid() && vvTried == old(vvTried) && triedCollisions == old(triedCollisions)
        invariant |states| == i + 1 && |inserted| == i && states[0] == old(Snapshot()) && states[i] == Snapshot()
        invariant forall j :: 0 <= j < i ==> AddedOne(config, states[j], states[j + 1], addrs[j], source, timePenalty, now, inserted[j])
        invariant count >= 0 && (count > 0 <==> true in inserted)
      {
        var ok := AddSingle(addrs[i], source, timePenalty, now);
        if ok { count := count + 1; }
        states, inserted := states + [Snapshot()], inserted + [ok];
        i := i + 1;
      }
      added := count > 0;
    }

    /** A connection succeeded: the entry moves to the tried table, unless it would evict another one that is to be tested first. */
    method Good(addr: Service, testBeforeEvict: bool, time: int) returns (moved: bool)
      requires Valid() && time > 0
      modifies this
      ensures Valid() && lastGood == time && old(vvTried).Keys <= vvTried.Keys
      ensures addr !in old(mapAddr) ==> !moved && Snapshot() == old(Snapshot())
      ensures addr in old(mapAddr) ==> Promoted(config, old(Snapshot()), Snapshot(), old(mapAddr)[addr], addr, testBeforeEvict, time, moved)
      ensures triedCollisions == Collide(config, old(Snapshot()), addr, testBeforeEvict, old(triedCollisions))
      ensures forall id :: id in mapInfo ==> id in old(mapInfo) && mapInfo[id].addr == old(mapInfo)[id].addr
    {
      hide Consistent, CollisionsOk, Promotion, TriedSlot, SlotsOf;
      ghost var s := Snapshot();
      lastGood := time;
      var found, id := Find(addr);
      if !found {
        NotFoundIs(config, s, addr);
        return false;
      }
      FoundIs(config, s, addr);
      RefsNow(config, s, {}, {}, id);
      SetInfo(id, mapInfo[id].(lastSuccess := time, lastTry := time, attempts := 0));
      if mapInfo[id].inTried {
        return false;
      }
      if mapInfo[id].refCount <= 0 {
        return false;
      }
      var slot := TriedSlot(config, addr);
      if testBeforeEvict && slot in vvTried {
        IdsFor(config, Snapshot(), {}, {}, id);
        CollisionsAdd(config, mapInfo, vvTried, triedCollisions, nIdCount, id);
        if |triedCollisions| < SET_TRIED_COLLISION_SIZE {
          triedCollisions := triedCollisions + {id};
        }
        return false;
      }
      ghost var t := Snapshot();
      MakeTried(id);
      PromotionIds(config, t, Snapshot(), id);
      CollisionsKeep(config, t.infos, t.tried, t.idCount, mapInfo, vvTried, nIdCount, triedCollisions);
      moved := true;
    }

    method Attempt(addr: Service, countFailure: bool, time: int)
      requires Valid() && time >= 0
      modifies this`mapInfo
      ensures Valid() && triedCollisions == old(triedCollisions) && lastGood == old(lastGood)
      ensures mapInfo == if !Known(old(Snapshot()), addr) then old(mapInfo) else old(mapInfo)[mapAddr[addr] := Attempted(old(mapInfo)[mapAddr[addr]], time, countFailure, lastGood)]
    {
      hide Consistent, CollisionsOk;
      var found, id := Find(addr);
      if found {
        RefsNow(config, Snapshot(), {}, {}, id);
        var info := mapInfo[id].(lastTry := time);
        if countFailure && info.lastCountAttempt < lastGood {
          info := info.(lastCountAttempt := time, attempts := info.attempts + 1);
        }
        SetInfo(id, info);
      }
    }

    method Connected(addr: Service, time: int)
      requires Valid()
      modifies this`mapInfo
      ensures Valid() && triedCollisions == old(triedCollisions) && lastGood == old(lastGood)
      ensures mapInfo == if !Known(old(Snapshot()), addr) then old(mapInfo) else old(mapInfo)[mapAddr[addr] := SeenAt(old(mapInfo)[mapAddr[addr]], time)]
    {
      hide Consistent, CollisionsOk;
      var found, id := Find(addr);
      if found {
        RefsNow(config, Snapshot(), {}, {}, id);
        if time - mapInfo[id].time > 20 * 60 {
          SetInfo(id, mapInfo[id].(time := time));
        }
      }
    }

    method SetServices(addr: Service, services: set<nat>)
      requires Valid()
      modifies this`mapInfo
      ensures Valid() && triedCollisions == old(triedCollisions) && lastGood == old(lastGood)
      ensures mapInfo == if !Known(old(Snapshot()), addr) then old(mapInfo) else old(mapInfo)[mapAddr[addr] := WithServices(old(mapInfo)[mapAddr[addr]], services)]
    {
      hide Consistent, CollisionsOk;
      var found, id := Find(addr);
      if found {
        RefsNow(config, Snapshot(), {}, {}, id);
        SetInfo(id, mapInfo[id].(services := services));
      }
    }

    /**
     * Each pending collision is dropped, left for later, or decided in favour of the newer entry. The
     * trace holds the order they are handled in and the states in between.
     */
    method ResolveCollisions(now: int) returns (ghost order: seq<nat>, ghost states: seq<State>)
      requires Valid() && now > 0
      modifies this
      ensures Valid() && old(vvTried).Keys <= vvTried.Keys
      ensures |states| == |order| + 1 && states[0] == old(Snapshot()) && states[|order|] == Snapshot()
      ensures Elems(order) == old(triedCollisions) && triedCollisions <= old(triedCollisions)
      ensures Resolution(config, order, states, triedCollisions, now)
      ensures Protection(config, old(Snapshot()), Snapshot(), old(triedCollisions), old(triedCollisions), now)
      ensures forall c :: c in triedCollisions ==> MustWait(config, old(Snapshot()), c, now)
    {
      hide MustWait, Consistent, CollisionsOk, Protection, Resolution, ResolvedOne, Decide, Elems;
      var todo := triedCollisions;
      order, states := [], [Snapshot()];
      NothingResolved(config, Snapshot(), triedCollisions, now);
      NothingHandled(config, Snapshot(), triedCollisions, now);
      ghost var s, pending := Snapshot(), triedCollisions;
      while todo != {}
        invariant Valid() && todo <= triedCollisions <= old(triedCollisions) && old(vvTried).Keys <= vvTried.Keys
        invariant |states| == |order| + 1 && states[0] == old(Snapshot()) && states[|order|] == Snapshot()
        invariant Elems(order) == old(triedCollisions) - todo && Resolution(config, order, states, triedCollisions, now)
        invariant Protection(config, s, Snapshot(), Elems(order), pending, now)
        invariant forall c :: c in triedCollisions && c !in todo ==> MustWait(config, s, c, now)
        decreases |todo|
      {
        var id :| id in todo;
        ghost var was, t := triedCollisions, Snapshot();
        todo := todo - {id};
        var erase := ResolveOne(id, now);
        if erase {
          CollisionsDrop(config, mapInfo, vvTried, triedCollisions, nIdCount, id);
          triedCollisions := triedCollisions - {id};
        }
        HandleOne(config, s, t, Snapshot(), Elems(order), pending, id, now);
        DecideWaits(config, t, id, now);
        if !erase { WaitedBefore(config, s, t, Elems(order), pending, id, now); }
        OneMoreResolved(config, order, states, was, now, id, Snapshot(), triedCollisions);
        order, states := order + [id], states + [Snapshot()];
      }
    }

    method ResolveOne(id: nat, now: int) returns (erase: bool)
      requires Valid() && now > 0
      modifies this
      ensures Valid() && triedCollisions == old(triedCollisions) && old(vvTried).Keys <= vvTried.Keys
      ensures ResolvedOne(config, old(Snapshot()), Snapshot(), id, now)
      ensures erase <==> Decide(config, old(Snapshot()), id, now) != Wait
      ensures erase <==> !MustWait(config, old(Snapshot()), id, now)
      ensures Protection(config, old(Snapshot()), Snapshot(), {id}, {id}, now)
    {
      hide Consistent, CollisionsOk, ResolvedOne, Decide, MustWait, Protection;
      ghost var s := Snapshot();
      erase := Resolve(id, now);
      DecideWaits(config, s, id, now);
      NothingHandled(config, s, {id}, now);
      HandleOne(config, s, s, Snapshot(), {}, {id}, id, now);
      assert {} + {id} == {id};
    }

    method Resolve(id: nat, now: int) returns (erase: bool)
      requires Valid() && now > 0
      modifies this
      ensures Valid() && triedCollisions == old(triedCollisions) && old(vvTried).Keys <= vvTried.Keys
      ensures ResolvedOne(config, old(Snapshot()), Snapshot(), id, now)
      ensures erase <==> Decide(config, old(Snapshot()), id, now) != Wait
    {
      hide Consistent, CollisionsOk, TriedSlot, Promoted, Collide;
      if id !in mapInfo {
        return true;
      }
      var a := mapInfo[id].addr;
      var slot := TriedSlot(config, a);
      CollideNever(config, Snapshot(), a, triedCollisions);
      AddrsFind(config, Snapshot());
      if !config.valid(a) {
        return true;
      }
      if slot in vvTried {
        TriedIs(config, Snapshot(), slot);
        var other := mapInfo[vvTried[slot]];
        if now - other.lastSuccess < REPLACEMENT {
          return true;
        } else if now - other.lastTry < REPLACEMENT {
          if now - other.lastTry > 60 {
            var _ := Good(a, false, now);
            return true;
          }
        } else if now - mapInfo[id].lastSuccess > TEST_WINDOW {
          var _ := Good(a, false, now);
          return true;
        }
        erase := false;
      } else {
        var _ := Good(a, false, now);
        erase := true;
      }
    }

    /** Picks a pending collision and returns the tried entry that has to be tested for it; the slot it looks into is never empty. */
    method SelectTriedCollision() returns (r: Option<AddrInfo>)
      requires Valid()
      modifies this`triedCollisions
      ensures Valid()
      ensures old(triedCollisions) == {} ==> r == None && triedCollisions == {}
      ensures old(triedCollisions) != {} ==> exists id :: id in old(triedCollisions) && SelectedFor(config, Snapshot(), id, r, old(triedCollisions), triedCollisions)
    {
      hide Consistent, TriedSlot;
      if triedCollisions == {} {
        return None;
      }
      var id :| id in triedCollisions;
      if id !in mapInfo {
        triedCollisions := triedCollisions - {id};
        assert SelectedFor(config, Snapshot(), id, None, old(triedCollisions), triedCollisions);
        return None;
      }
      var slot := TriedSlot(config, mapInfo[id].addr);
      TriedIs(config, Snapshot(), slot);
      r := Some(mapInfo[vvTried[slot]]);
      assert SelectedFor(config, Snapshot(), id, r, old(triedCollisions), triedCollisions);
    }

    /** A random selection of known addresses; everything that qualifies if there are fewer than asked for. */
    method GetAddr(maxAddresses: nat, maxPct: nat, network: Option<nat>, filtered: bool, now: int) returns (addresses: seq<Address>)
      requires Valid()
      modifies this`mapInfo, this`vRandom
      ensures Valid() && SameButRandom(old(mapInfo), mapInfo)
      ensures |addresses| <= Limit(|vRandom|, maxAddresses, maxPct)
      ensures forall i, j :: 0 <= i < j < |addresses| ==> addresses[i].service != addresses[j].service
      ensures forall i :: 0 <= i < |addresses| ==> Announced(config, mapInfo, addresses[i], network, filtered, now)
      ensures |addresses| < Limit(|vRandom|, maxAddresses, maxPct) ==>
                forall id :: Qualifies(config, mapInfo, id, network, filtered, now) ==> Announce(mapInfo[id]) in addresses
    {
      hide Consistent, CollisionsOk, Limit, Qualifies, Picked, SameButRandom, Announced, RandomOk;
      var limit := Limit(|vRandom|, maxAddresses, maxPct);
      LimitIs(|vRandom|, maxAddresses, maxPct);
      addresses := [];
      var n := 0;
      ghost var m := mapInfo;
      SameRandom(m);
      AddrsFind(config, Snapshot());
      PickedNone(config, mapInfo, vRandom[..0], network, filtered, now);
      while n < |vRandom| && |addresses| < limit
        invariant 0 <= n <= |vRandom| == |old(vRandom)| && Valid() && SameButRandom(m, mapInfo)
        invariant RandomOk(mapInfo, vRandom) && |addresses| <= limit
        invariant addresses == Picked(config, mapInfo, vRandom[..n], network, filtered, now)
      {
        var j :| n <= j < |vRandom|;
        ghost var before := mapInfo;
        Shuffle(n, j, m);
        assert vRandom[..n + 1] == vRandom[..n] + [vRandom[n]];
        PickedNext(config, mapInfo, vRandom[..n], vRandom[n], network, filtered, now);
        PickedSame(config, before, mapInfo, vRandom[..n], network, filtered, now);
        RandomIn(mapInfo, vRandom, n);
        var info := mapInfo[vRandom[n]];
        n := n + 1;
        if network.Some? && config.netClass(info.addr) != network.value {
          continue;
        }
        if IsTerrible(info, now) && filtered {
          continue;
        }
        addresses := addresses + [Announce(info)];
      }
      AddrsFind(config, Snapshot());
      PickedIs(config, mapInfo, mapAddr, vRandom, n, network, filtered, now);
    }

    method Shuffle(n: nat, j: nat, ghost m: Infos)
      requires Valid() && n <= j < |vRandom| && SameButRandom(m, mapInfo)
      modifies this`mapInfo, this`vRandom
      ensures Valid() && SameButRandom(m, mapInfo) && SameButRandom(old(mapInfo), mapInfo)
      ensures RandomOk(mapInfo, vRandom) && |vRandom| == |old(vRandom)| && vRandom[..n] == old(vRandom)[..n]
    {
      hide Consistent, CollisionsOk, Swapped, SameButRandom;
      ghost var s := Snapshot();
      SwapKeeps(config, s, {}, {}, n, j);
      SwapPrefix(s, n, j);
      SwapRandom(n, j);
      ReorderTrans(m, s.infos, mapInfo);
      CollisionsKeep(config, s.infos, vvTried, nIdCount, mapInfo, vvTried, nIdCount, triedCollisions);
    }
  }

  lemma RandomIn(m: Infos, random: seq<nat>, n: nat)
    requires RandomOk(m, random) && n < |random|
    ensures random[n] in m
  {}

  lemma PickedNone(k: Config, m: Infos, ids: seq<nat>, network: Option<nat>, filtered: bool, now: int)
    requires ids == []
    ensures Picked(k, m, ids, network, filtered, now) == []
  {}

  lemma LimitIs(known: nat, maxAddresses: nat, maxPct: nat)
    ensures 0 <= Limit(known, maxAddresses, maxPct) <= known
  {
    var pct := Min(maxPct, 100);
    assert pct * known <= 100 * known;
  }

  function Announce(info: AddrInfo): Address { Address(info.addr, info.services, info.time) }

  function Min(a: int, b: int): int { if a < b then a else b }

  /** How many addresses are asked for. */
  function Limit(known: nat, maxAddresses: nat, maxPct: nat): int {
    var nodes := if maxPct != 0 then Min(maxPct, 100) * known / 100 else known;
    if maxAddresses != 0 then Min(nodes, maxAddresses) else nodes
  }

  predicate Qualifies(k: Config, m: Infos, id: nat, network: Option<nat>, filtered: bool, now: int) {
    id in m && (network.Some? ==> k.netClass(m[id].addr) == network.value) && !(IsTerrible(m[id], now) && filtered)
  }

  /** The qualifying addresses among some entries, in their order. */
  ghost function Picked(k: Config, m: Infos, ids: seq<nat>, network: Option<nat>, filtered: bool, now: int): seq<Address> {
    if ids == [] then []
    else
      var last := ids[|ids| - 1];
      Picked(k, m, ids[..|ids| - 1], network, filtered, now) + if Qualifies(k, m, last, network, filtered, now) then [Announce(m[last])] else []
  }

  lemma PickedNext(k: Config, m: Infos, ids: seq<nat>, id: nat, network: Option<nat>, filtered: bool, now: int)
    ensures Picked(k, m, ids + [id], network, filtered, now)
            == Picked(k, m, ids, network, filtered, now) + if Qualifies(k, m, id, network, filtered, now) then [Announce(m[id])] else []
    ensures Qualifies(k, m, id, network, filtered, now)
            <==> id in m && (network.Some? ==> k.netClass(m[id].addr) == network.value) && !(IsTerrible(m[id], now) && filtered)
  {
    hide IsTerrible;
    assert (ids + [id])[..|ids|] == ids;
  }

  lemma {:induction false} PickedSame(k: Config, m: Infos, m': Infos, ids: seq<nat>, network: Option<nat>, filtered: bool, now: int)
    requires SameButRandom(m, m')
    ensures Picked(k, m', ids, network, filtered, now) == Picked(k, m, ids, network, filtered, now)
  {
    if ids != [] {
      PickedSame(k, m, m', ids[..|ids| - 1], network, filtered, now);
    }
  }

  lemma SameRandom(m: Infos)
    ensures SameButRandom(m, m)
  {}

  lemma ReorderTrans(a: Infos, b: Infos, c: Infos)
    requires SameButRandom(a, b) && SameButRandom(b, c)
    ensures SameButRandom(a, c) && forall id :: id in c ==> id in b && c[id].addr == b[id].addr
  {}

  lemma SwapPrefix(s: State, n: nat, j: nat)
    requires n <= j < |s.random| && s.random[n] in s.infos && s.random[j] in s.infos
    ensures Swapped(s, n, j).random[..n] == s.random[..n]
  {}

  predicate FromEntry(k: Config, m: Infos, id: nat, a: Address, network: Option<nat>, filtered: bool, now: int) {
    Qualifies(k, m, id, network, filtered, now) && a == Announce(m[id])
  }

  /** The address of an entry that qualifies. */
  ghost predicate Announced(k: Config, m: Infos, a: Address, network: Option<nat>, filtered: bool, now: int) {
    exists id :: FromEntry(k, m, id, a, network, filtered, now)
  }

  lemma {:induction false} PickedFrom(k: Config, m: Infos, ids: seq<nat>, i: nat, network: Option<nat>, filtered: bool, now: int) returns (id: nat)
    requires i < |Picked(k, m, ids, network, filtered, now)|
    ensures id in ids && FromEntry(k, m, id, Picked(k, m, ids, network, filtered, now)[i], network, filtered, now)
  {
    hide Qualifies;
    var init := ids[..|ids| - 1];
    if i < |Picked(k, m, init, network, filtered, now)| {
      id := PickedFrom(k, m, init, i, network, filtered, now);
    } else {
      id := ids[|ids| - 1];
    }
  }

  lemma {:induction false} PickedHas(k: Config, m: Infos, ids: seq<nat>, id: nat, network: Option<nat>, filtered: bool, now: int)
    requires id in ids && Qualifies(k, m, id, network, filtered, now)
    ensures Announce(m[id]) in Picked(k, m, ids, network, filtered, now)
  {
    hide IsTerrible;
    var init := ids[..|ids| - 1];
    if id != ids[|ids| - 1] {
      assert id in init;
      PickedHas(k, m, init, id, network, filtered, now);
    } else {
      assert Picked(k, m, ids, network, filtered, now)[|Picked(k, m, init, network, filtered, now)|] == Announce(m[id]);
    }
  }

  lemma {:induction false} PickedDistinct(k: Config, m: Infos, ids: seq<nat>, i: nat, j: nat, network: Option<nat>, filtered: bool, now: int)
    requires forall p, q :: 0 <= p < q < |ids| ==> ids[p] != ids[q]
    requires forall p, q :: p in m && q in m && p != q ==> m[p].addr != m[q].addr
    requires i < j < |Picked(k, m, ids, network, filtered, now)|
    ensures Picked(k, m, ids, network, filtered, now)[i].service != Picked(k, m, ids, network, filtered, now)[j].service
  {
    hide IsTerrible;
    var init := ids[..|ids| - 1];
    if j < |Picked(k, m, init, network, filtered, now)| {
      PickedDistinct(k, m, init, i, j, network, filtered, now);
    } else {
      var id := PickedFrom(k, m, init, i, network, filtered, now);
      assert id != ids[|ids| - 1];
    }
  }

  lemma AddrsFind(k: Config, s: State)
    requires Consistent(k, s, {}, {})
    ensures RandomOk(s.infos, s.random) && forall id :: id in s.infos ==> s.infos[id].addr in s.addrs && s.addrs[s.infos[id].addr] == id
  {}

  lemma PickedIs(k: Config, m: Infos, addrs: map<Service, nat>, random: seq<nat>, n: nat, network: Option<nat>, filtered: bool, now: int)
    requires RandomOk(m, random) && n <= |random|
    requires (forall id :: id in m ==> m[id].addr in addrs && addrs[m[id].addr] == id)
    ensures var r := Picked(k, m, random[..n], network, filtered, now);
      && (forall i, j :: 0 <= i < j < |r| ==> r[i].service != r[j].service)
      && (forall i :: 0 <= i < |r| ==> Announced(k, m, r[i], network, filtered, now))
      && (n == |random| ==> forall id :: Qualifies(k, m, id, network, filtered, now) ==> Announce(m[id]) in r)
  {
    hide Picked, IsTerrible;
    var ids := random[..n];
    var r := Picked(k, m, ids, network, filtered, now);
    forall i, j | 0 <= i < j < n ensures random[i] != random[j] { assert m[random[i]].randomPos == i && m[random[j]].randomPos == j; }
    forall i, j | 0 <= i < j < |r| ensures r[i].service != r[j].service { PickedDistinct(k, m, ids, i, j, network, filtered, now); }
    forall i | 0 <= i < |r| ensures Announced(k, m, r[i], network, filtered, now) {
      var id := PickedFrom(k, m, ids, i, network, filtered, now);
    }
    if n == |random| {
      forall id | Qualifies(k, m, id, network, filtered, now) ensures Announce(m[id]) in r {
        assert random[m[id].randomPos] == id;
        PickedHas(k, m, ids, id, network, filtered, now);
      }
    }
  }

  /** What Good does to an address that is known: its statistics are updated, and it moves unless that has to be tested first. */
  ghost predicate Promoted(k: Config, s: State, s': State, id: nat, a: Service, testBeforeEvict: bool, time: int, moved: bool) {
    && id in s.infos && s.infos[id].addr == a
    && (moved <==> !s.infos[id].inTried && (!testBeforeEvict || TriedSlot(k, a) !in s.tried))
    && var t := s.(infos := s.infos[id := s.infos[id].(lastSuccess := time, lastTry := time, attempts := 0)]);
       if moved then Promotion(k, t, s', id) && s'.tried == s.tried[TriedSlot(k, a) := id] else s' == t
  }

  /** A collision whose entry is gone is dropped; for another one the entry in its tried slot is returned. */
  ghost predicate SelectedFor(k: Config, s: State, id: nat, r: Option<AddrInfo>, collisions: set<nat>, collisions': set<nat>) {
    if id !in s.infos then r == None && collisions' == collisions - {id}
    else
      && collisions' == collisions && r.Some?
      && exists other :: other in s.infos && r.value == s.infos[other] && r.value.inTried && TriedSlot(k, r.value.addr) == TriedSlot(k, s.infos[id].addr)
  }

  datatype Verdict = Drop | Wait | Promote

  /** What becomes of a pending collision. */
  function Decide(k: Config, s: State, id: nat, now: int): Verdict {
    if id !in s.infos || !k.valid(s.infos[id].addr) then Drop
    else
      var slot := TriedSlot(k, s.infos[id].addr);
      if slot !in s.tried || s.tried[slot] !in s.infos then Promote
      else
        var other := s.infos[s.tried[slot]];
        if now - other.lastSuccess < REPLACEMENT then Drop
        else if now - other.lastTry < REPLACEMENT then (if now - other.lastTry > 60 then Promote else Wait)
        else if now - s.infos[id].lastSuccess > TEST_WINDOW then Promote
        else Wait
  }

  /** The newer entry is promoted if that is the verdict, and nothing changes otherwise. */
  ghost predicate ResolvedOne(k: Config, s: State, s': State, id: nat, now: int) {
    if Decide(k, s, id, now) == Promote && id in s.infos
    then exists moved :: Promoted(k, s, s', id, s.infos[id].addr, false, now, moved)
    else s' == s
  }

  // ---------------------------------------------------------------- what a pending collision may do

  /**
   * A pending entry may take the slot of a tried one: that one has not succeeded for four hours, and either failed
   * more than a minute and less than four hours ago, or was not even tried for four hours while the pending entry
   * has been waiting for more than forty minutes.
   */
  ghost predicate MayReplace(k: Config, s: State, slot: Slot, c: nat, now: int) {
    && slot in s.tried && s.tried[slot] in s.infos && c in s.infos && c != s.tried[slot]
    && k.valid(s.infos[c].addr) && TriedSlot(k, s.infos[c].addr) == slot
    && var e := s.infos[s.tried[slot]];
       now - e.lastSuccess >= 4 * 3600 && (60 < now - e.lastTry < 4 * 3600 || (now - e.lastTry >= 4 * 3600 && now - s.infos[c].lastSuccess > 40 * 60))
  }

  /** An entry stays in its tried slot unless a pending one that was handled may replace it. */
  ghost predicate SlotKept(k: Config, s: State, s': State, handled: set<nat>, slot: Slot, now: int) {
    && slot in s.tried && slot in s'.tried
    && (s'.tried[slot] == s.tried[slot] || exists c :: c in handled && MayReplace(k, s, slot, c, now))
  }

  /** And it does leave, if that one still exists; only an entry that is pending itself may stay all the same. */
  ghost predicate SlotLeft(k: Config, s: State, s': State, pending: set<nat>, slot: Slot, c: nat, now: int) {
    MayReplace(k, s, slot, c, now) && c in s'.infos && s.tried[slot] !in pending ==> slot in s'.tried && s'.tried[slot] != s.tried[slot]
  }

  predicate SameTimes(x: AddrInfo, y: AddrInfo) { y.addr == x.addr && y.lastSuccess == x.lastSuccess && y.lastTry == x.lastTry }

  /** Entries that have not been handled keep their times, others may just have succeeded. */
  ghost predicate TimesKept(s: State, s': State, handled: set<nat>, q: nat, now: int) {
    && q in s.infos && q in s'.infos && s'.infos[q].addr == s.infos[q].addr
    && (SameTimes(s.infos[q], s'.infos[q]) || (q in handled && s'.infos[q].lastSuccess == now))
  }

  /** The holder of a tried slot is the one from the beginning, or has just succeeded. */
  ghost predicate HolderKept(s: State, s': State, slot: Slot, now: int) {
    && slot in s'.tried && s'.tried[slot] in s'.infos
    && ((slot in s.tried && s'.tried[slot] == s.tried[slot]) || s'.infos[s'.tried[slot]].lastSuccess == now)
  }

  /**
   * A collision has to wait: the tried entry has not succeeded for four hours, and is being tried right now, or has
   * not been tried for four hours but the pending entry succeeded within the last forty minutes.
   */
  ghost predicate MustWait(k: Config, s: State, c: nat, now: int) {
    && c in s.infos && k.valid(s.infos[c].addr)
    && var slot := TriedSlot(k, s.infos[c].addr);
    && slot in s.tried && s.tried[slot] in s.infos
    && var e := s.infos[s.tried[slot]];
       now - e.lastSuccess >= 4 * 3600 && (now - e.lastTry <= 60 || (now - e.lastTry >= 4 * 3600 && now - s.infos[c].lastSuccess <= 40 * 60))
  }

  lemma DecideWaits(k: Config, s: State, c: nat, now: int)
    ensures Decide(k, s, c, now) == Wait <==> MustWait(k, s, c, now)
  {
    hide TriedSlot;
  }

  /** What waits now had to wait from the beginning. */
  lemma WaitedBefore(k: Config, s: State, t: State, handled: set<nat>, pending: set<nat>, c: nat, now: int)
    requires Protection(k, s, t, handled, pending, now) && c !in handled && MustWait(k, t, c, now)
    ensures MustWait(k, s, c, now)
  {
    hide TriedSlot, SlotKept, SlotLeft;
    var slot := TriedSlot(k, t.infos[c].addr);
    assert HolderKept(s, t, slot, now);
    assert TimesKept(s, t, handled, c, now) && TimesKept(s, t, handled, t.tried[slot], now);
  }

  ghost predicate Protection(k: Config, s: State, s': State, handled: set<nat>, pending: set<nat>, now: int) {
    && (forall slot :: slot in s.tried ==> SlotKept(k, s, s', handled, slot, now))
    && (forall slot, c :: slot in s.tried && c in handled ==> SlotLeft(k, s, s', pending, slot, c, now))
    && (forall q :: q in s'.infos ==> TimesKept(s, s', handled, q, now))
    && (forall slot :: slot in s'.tried ==> HolderKept(s, s', slot, now))
  }

  lemma NothingHandled(k: Config, s: State, pending: set<nat>, now: int)
    requires Consistent(k, s, {}, {})
    ensures Protection(k, s, s, {}, pending, now)
  {
    hide MayReplace, TriedSlot, Consistent;
    forall slot | slot in s.tried ensures s.tried[slot] in s.infos { TriedIs(k, s, slot); }
  }

  /** Handling one more collision. */
  lemma HandleOne(k: Config, s: State, t: State, t': State, handled: set<nat>, pending: set<nat>, id: nat, now: int)
    requires Consistent(k, t, {}, {}) && Consistent(k, t', {}, {}) && Protection(k, s, t, handled, pending, now) && ResolvedOne(k, t, t', id, now)
    requires id !in handled && id in pending && handled <= pending
    ensures Protection(k, s, t', handled + {id}, pending, now)
  {
    hide Consistent, ResolvedOne, Decide, MayReplace, TriedSlot, SlotKept, SlotLeft, TimesKept, HolderKept, Promoted;
    var handled' := handled + {id};
    ResolvedTimes(k, t, t', id, now);
    forall slot | slot in s.tried ensures SlotKept(k, s, t', handled', slot, now) {
      assert SlotKept(k, s, t, handled, slot, now);
      KeptStill(k, s, t, t', handled, pending, id, now, slot);
    }
    forall slot, c | slot in s.tried && c in handled' ensures SlotLeft(k, s, t', pending, slot, c, now) {
      assert c in handled ==> SlotLeft(k, s, t, pending, slot, c, now);
      LeftStill(k, s, t, t', handled, pending, id, now, slot, c);
    }
    forall q | q in t'.infos ensures TimesKept(s, t', handled', q, now) {
      assert TimesKept(s, t, handled, q, now);
      TimesStill(s, t, t', handled, id, q, now);
    }
    forall slot | slot in t'.tried ensures HolderKept(s, t', slot, now) {
      assert slot in t.tried ==> HolderKept(s, t, slot, now);
      TriedIs(k, t', slot);
      HolderStill(k, s, t, t', id, slot, now);
    }
  }

  lemma HolderStill(k: Config, s: State, t: State, t': State, id: nat, slot: Slot, now: int)
    requires (slot in t.tried ==> HolderKept(s, t, slot, now)) && slot in t'.tried && t'.tried[slot] in t'.infos
    requires t'.tried == t.tried || (id in t'.infos && id in t.infos && t'.infos[id].lastSuccess == now && t'.tried == t.tried[TriedSlot(k, t.infos[id].addr) := id])
    requires forall q :: q in t'.infos ==> q in t.infos && (SameTimes(t.infos[q], t'.infos[q]) || (q == id && t'.infos[q].lastSuccess == now))
    ensures HolderKept(s, t', slot, now)
  {
    hide TriedSlot;
  }

  lemma TimesStill(s: State, t: State, t': State, handled: set<nat>, id: nat, q: nat, now: int)
    requires TimesKept(s, t, handled, q, now) && q in t'.infos && t'.infos[q].addr == t.infos[q].addr
    requires SameTimes(t.infos[q], t'.infos[q]) || (q == id && t'.infos[q].lastSuccess == now)
    ensures TimesKept(s, t', handled + {id}, q, now)
  {}

  /** One collision changes at most its own slot of the tried table, and at most its own times. */
  lemma ResolvedTimes(k: Config, t: State, t': State, id: nat, now: int)
    requires Consistent(k, t, {}, {}) && ResolvedOne(k, t, t', id, now)
    ensures forall q :: q in t'.infos ==> q in t.infos && t'.infos[q].addr == t.infos[q].addr
                                          && (SameTimes(t.infos[q], t'.infos[q]) || (q == id && t'.infos[q].lastSuccess == now))
    ensures t'.tried == t.tried || (id in t.infos && t'.tried == t.tried[TriedSlot(k, t.infos[id].addr) := id])
    ensures t'.tried != t.tried ==> Decide(k, t, id, now) == Promote && !t.infos[id].inTried && id in t'.infos && t'.infos[id].lastSuccess == now
    ensures Decide(k, t, id, now) == Promote && id in t.infos && !t.infos[id].inTried ==> t'.tried == t.tried[TriedSlot(k, t.infos[id].addr) := id]
  {
    hide Consistent, Decide, TriedSlot, Promotion;
    if Decide(k, t, id, now) == Promote && id in t.infos {
      var a := t.infos[id].addr;
      var moved :| Promoted(k, t, t', id, a, false, now, moved);
      var u := t.(infos := t.infos[id := t.infos[id].(lastSuccess := now, lastTry := now, attempts := 0)]);
      if moved {
        if TriedSlot(k, a) in t.tried { TriedIs(k, t, TriedSlot(k, a)); }
        PromotionTimes(k, u, t', id);
      }
    }
  }

  lemma PromotionTimes(k: Config, u: State, t': State, id: nat)
    requires id in u.infos && Promotion(k, u, t', id)
    requires var slot := TriedSlot(k, u.infos[id].addr); slot in u.tried ==> u.tried[slot] in u.infos
    ensures id in t'.infos && forall q :: q in t'.infos ==> q in u.infos && SameTimes(u.infos[q], t'.infos[q])
  {
    hide TriedSlot, NewSlot, SlotsOf, WithoutId;
    var slot := TriedSlot(k, u.infos[id].addr);
    forall q | q in t'.infos ensures q in u.infos && SameTimes(u.infos[q], t'.infos[q]) {
      assert q in u.infos;
      if q != id && slot !in u.tried { assert Untouched(u.infos, t'.infos, q); }
    }
  }

  lemma KeptStill(k: Config, s: State, t: State, t': State, handled: set<nat>, pending: set<nat>, id: nat, now: int, slot: Slot)
    requires Consistent(k, t, {}, {}) && SlotKept(k, s, t, handled, slot, now) && id !in handled
    requires forall q :: q in t.infos ==> TimesKept(s, t, handled, q, now)
    requires t'.tried == t.tried || (id in t.infos && t'.tried == t.tried[TriedSlot(k, t.infos[id].addr) := id])
    requires t'.tried != t.tried ==> Decide(k, t, id, now) == Promote && !t.infos[id].inTried
    ensures SlotKept(k, s, t', handled + {id}, slot, now)
  {
    hide Consistent, TriedSlot, MayReplace, TimesKept, Decide;
    if c :| c in handled && MayReplace(k, s, slot, c, now) {
      assert c in handled + {id};
    } else if t'.tried[slot] != t.tried[slot] {
      TriedIs(k, t, slot);
      assert TimesKept(s, t, handled, id, now) && TimesKept(s, t, handled, t.tried[slot], now);
      Replaces(k, s, t, handled, slot, id, now);
      assert id in handled + {id};
    }
  }

  /** A verdict against a tried entry rests on the times it had at the beginning. */
  lemma Replaces(k: Config, s: State, t: State, handled: set<nat>, slot: Slot, id: nat, now: int)
    requires slot in s.tried && slot in t.tried && t.tried[slot] == s.tried[slot] && t.tried[slot] in t.infos && t.infos[t.tried[slot]].inTried
    requires id in t.infos && !t.infos[id].inTried && TriedSlot(k, t.infos[id].addr) == slot && id !in handled
    requires TimesKept(s, t, handled, id, now) && TimesKept(s, t, handled, t.tried[slot], now) && Decide(k, t, id, now) == Promote
    ensures MayReplace(k, s, slot, id, now)
  {
    hide TriedSlot;
  }

  lemma LeftStill(k: Config, s: State, t: State, t': State, handled: set<nat>, pending: set<nat>, id: nat, now: int, slot: Slot, c: nat)
    requires Consistent(k, t, {}, {}) && slot in s.tried && SlotKept(k, s, t, handled, slot, now) && id !in handled && id in pending
    requires c in handled + {id} && (c in handled ==> SlotLeft(k, s, t, pending, slot, c, now)) && handled <= pending
    requires forall q :: q in t.infos ==> TimesKept(s, t, handled, q, now)
    requires forall q :: q in t'.infos ==> q in t.infos
    requires t'.tried == t.tried || (id in t.infos && t'.tried == t.tried[TriedSlot(k, t.infos[id].addr) := id])
    requires Decide(k, t, id, now) == Promote && id in t.infos && !t.infos[id].inTried ==> t'.tried == t.tried[TriedSlot(k, t.infos[id].addr) := id]
    ensures SlotLeft(k, s, t', pending, slot, c, now)
  {
    hide Consistent, TriedSlot, MayReplace, TimesKept, Decide;
    if MayReplace(k, s, slot, c, now) && c in t'.infos && s.tried[slot] !in pending && c == id && t.tried[slot] == s.tried[slot] {
      TriedIs(k, t, slot);
      assert TimesKept(s, t, handled, id, now) && TimesKept(s, t, handled, t.tried[slot], now);
      MustReplace(k, s, t, handled, slot, id, now);
    }
  }

  lemma MustReplace(k: Config, s: State, t: State, handled: set<nat>, slot: Slot, id: nat, now: int)
    requires Consistent(k, t, {}, {}) && MayReplace(k, s, slot, id, now) && slot in t.tried && t.tried[slot] == s.tried[slot] && t.tried[slot] in t.infos
    requires id in t.infos && id !in handled && s.tried[slot] !in handled
    requires TimesKept(s, t, handled, id, now) && TimesKept(s, t, handled, t.tried[slot], now)
    ensures Decide(k, t, id, now) == Promote && !t.infos[id].inTried && TriedSlot(k, t.infos[id].addr) == slot && id != s.tried[slot]
  {
    hide AddrOk, RandomOk, NewOk, RefsOk, TimesOk, IdsOk, CountsOk, Loose, TriedSlot;
  }

  /** Every collision was handled once, and those are left that have to wait. */
  ghost predicate Resolution(k: Config, order: seq<nat>, states: seq<State>, left: set<nat>, now: int) {
    && |states| == |order| + 1 && Distinct(order)
    && (forall i :: 0 <= i < |order| ==> ResolvedOne(k, states[i], states[i + 1], order[i], now))
    && (forall i :: 0 <= i < |order| ==> (order[i] in left <==> Decide(k, states[i], order[i], now) == Wait))
  }

  lemma NothingResolved(k: Config, s: State, left: set<nat>, now: int)
    ensures Resolution(k, [], [s], left, now) && Elems([]) == {}
  {}

  lemma OneMoreResolved(k: Config, order: seq<nat>, states: seq<State>, left: set<nat>, now: int, id: nat, s': State, left': set<nat>)
    requires Resolution(k, order, states, left, now) && id !in Elems(order) && id in left
    requires ResolvedOne(k, states[|order|], s', id, now)
    requires left' == if Decide(k, states[|order|], id, now) == Wait then left else left - {id}
    ensures Resolution(k, order + [id], states + [s'], left', now) && Elems(order + [id]) == Elems(order) + {id}
  {
    hide ResolvedOne, Decide;
    var order', states' := order + [id], states + [s'];
    forall i | 0 <= i < |order'| ensures ResolvedOne(k, states'[i], states'[i + 1], order'[i], now) && (order'[i] in left' <==> Decide(k, states'[i], order'[i], now) == Wait) {
      if i < |order| { assert order'[i] == order[i] && order[i] in order && states'[i] == states[i] && states'[i + 1] == states[i + 1]; }
    }
  }

  /** The collisions to test after a successful connection. */
  ghost function Collide(k: Config, s: State, a: Service, testBeforeEvict: bool, collisions: set<nat>): set<nat> {
    if testBeforeEvict && a in s.addrs && s.addrs[a] in s.infos && !s.infos[s.addrs[a]].inTried && TriedSlot(k, a) in s.tried && |collisions| < SET_TRIED_COLLISION_SIZE
    then collisions + {s.addrs[a]} else collisions
  }

  lemma CollideNever(k: Config, s: State, a: Service, collisions: set<nat>)
    ensures Collide(k, s, a, false, collisions) == collisions
  {}

  lemma IdsFor(k: Config, s: State, pending: set<nat>, limbo: set<nat>, id: nat)
    requires Consistent(k, s, pending, limbo) && id in s.infos
    ensures id < s.idCount
  {}

  lemma TriedIs(k: Config, s: State, slot: Slot)
    requires Consistent(k, s, {}, {}) && slot in s.tried
    ensures s.tried[slot] in s.infos && s.infos[s.tried[slot]].inTried && slot == TriedSlot(k, s.infos[s.tried[slot]].addr)
  {
    hide TriedSlot;
  }

  lemma CollisionsAdd(k: Config, m: Infos, tried: Table, collisions: set<nat>, idCount: nat, id: nat)
    requires CollisionsOk(k, m, tried, collisions, idCount) && id < idCount && (id in m ==> TriedSlot(k, m[id].addr) in tried)
    ensures CollisionsOk(k, m, tried, collisions + {id}, idCount)
  {}

  lemma CollisionsDrop(k: Config, m: Infos, tried: Table, collisions: set<nat>, idCount: nat, id: nat)
    requires CollisionsOk(k, m, tried, collisions, idCount)
    ensures CollisionsOk(k, m, tried, collisions - {id}, idCount)
  {}

  lemma PromotionIds(k: Config, s: State, s': State, id: nat)
    requires id in s.infos && Promotion(k, s, s', id)
    ensures id in s'.infos && s'.infos[id].inTried && SlotsOf(s'.news, id) == {}
    ensures forall q :: q in s'.infos ==> q in s.infos && s'.infos[q].addr == s.infos[q].addr
  {}

  /** An entry stays as it is, unless the slot it stood in was given to another one. */
  ghost predicate Survives(s: State, s': State, slot: Slot, inserted: bool, q: nat) {
    if inserted && slot in s.news && q == s.news[slot] then LostOne(s.infos, s'.infos, q) else Untouched(s.infos, s'.infos, q)
  }

  /** Nothing but one slot of the new table changes, and it changes exactly if it is given to id. */
  ghost predicate OneSlot(s: State, s': State, slot: Slot, inserted: bool, id: nat) {
    && s'.tried == s.tried && s'.idCount == s.idCount
    && s'.news == (if inserted then s.news[slot := id] else s.news)
    && id in s.infos && (inserted ==> id in s'.infos)
    && (id in s'.infos ==> Became(s'.infos, id, s.infos[id].(refCount := s.infos[id].refCount + if inserted then 1 else 0)))
    && (forall q :: q in s.infos && q != id ==> Survives(s, s', slot, inserted, q))
    && (forall q :: q in s'.infos ==> q in s.infos && s'.infos[q].addr == s.infos[q].addr)
  }

  /** The slot is free, or held by another entry that may be overwritten. */
  predicate Room(m: Infos, news: Table, slot: Slot, id: nat, refs: int, now: int) {
    slot in news ==> news[slot] != id && news[slot] in m && (IsTerrible(m[news[slot]], now) || (m[news[slot]].refCount > 1 && refs == 0))
  }

  predicate Known(s: State, a: Service) { a in s.addrs && s.addrs[a] in s.infos }

  function Penalty(addr: Address, source: NetAddr, timePenalty: int): int {
    if addr.service.ip == source then 0 else timePenalty
  }

  /** An entry with the time and services of an announcement. */
  function Refreshed(info: AddrInfo, addr: Address, penalty: int, now: int): AddrInfo {
    var interval := if now - addr.time < 24 * 3600 then 3600 else 24 * 3600;
    info.(time := if info.time < addr.time - interval - penalty then Max(0, addr.time - penalty) else info.time,
          services := info.services + addr.services)
  }

  /** The time of an entry after an announcement: it never goes back, and lags behind it by no more than the interval. */
  ghost predicate KeepsUp(before: int, after: int, addr: Address, penalty: int, now: int) {
    && before <= after && (after == before || after == Max(0, addr.time - penalty))
    && (now - addr.time < 24 * 3600 ==> after >= addr.time - 3600 - penalty)
    && after >= addr.time - 24 * 3600 - penalty
    && (after != before ==> before < addr.time - 3600 - penalty)
  }

  lemma AnnouncementKeepsUp(k: Config, s: State, s': State, addr: Address, source: NetAddr, penalty: int, now: int, inserted: bool)
    requires Addition(k, s, s', addr, source, penalty, now, inserted) && Known(s, addr.service)
    ensures var id := s.addrs[addr.service];
            && id in s'.infos && KeepsUp(s.infos[id].time, s'.infos[id].time, addr, penalty, now)
            && s'.infos[id].services == s.infos[id].services + addr.services
  {
    hide NewSlot, IsTerrible, Room, Survives;
  }

  function FirstInfo(addr: Address, source: NetAddr, penalty: int, pos: nat): AddrInfo {
    NewInfo(addr, source, pos).(time := Max(0, addr.time - penalty))
  }

  /**
   * What adding an address does: its slot is given to its entry, or the tables stay as they are. The
   * entry is refreshed or new, whatever stood in the slot loses a reference, and nothing else changes.
   */
  ghost predicate Addition(k: Config, s: State, s': State, addr: Address, source: NetAddr, penalty: int, now: int, inserted: bool) {
    var a, slot := addr.service, NewSlot(k, addr.service, source);
    && s'.tried == s.tried
    && (inserted ==> a in s'.addrs && s'.news == s.news[slot := s'.addrs[a]])
    && (!inserted ==> s'.news == s.news && s'.infos.Keys == s.infos.Keys)
    && (if Known(s, a) then AdditionKnown(s, s', addr, slot, penalty, now, inserted) else AdditionNew(s, s', addr, source, slot, penalty, now, inserted))
  }

  ghost predicate AddedOne(k: Config, s: State, s': State, addr: Address, source: NetAddr, timePenalty: int, now: int, inserted: bool) {
    if k.routable(addr.service) then Addition(k, s, s', addr, source, Penalty(addr, source, timePenalty), now, inserted)
    else !inserted && s' == s
  }

  ghost predicate AdditionKnown(s: State, s': State, addr: Address, slot: Slot, penalty: int, now: int, inserted: bool)
    requires Known(s, addr.service)
  {
    var id := s.addrs[addr.service];
    var x := Refreshed(s.infos[id], addr, penalty, now);
    && Became(s'.infos, id, x.(refCount := x.refCount + if inserted then 1 else 0))
    && (inserted ==> addr.service in s'.addrs && s'.addrs[addr.service] == id && x.time < addr.time && !x.inTried && x.refCount < NEW_BUCKETS_PER_ADDRESS && Room(s.infos, s.news, slot, id, x.refCount, now))
    && (forall q :: q in s.infos && q != id ==> Survives(s, s', slot, inserted, q))
    && (forall q :: q in s'.infos ==> q in s.infos)
  }

  ghost predicate AdditionNew(s: State, s': State, addr: Address, source: NetAddr, slot: Slot, penalty: int, now: int, inserted: bool) {
    && (inserted <==> Room(s.infos, s.news, slot, s.idCount, 0, now))
    && (inserted ==> addr.service in s'.addrs && Became(s'.infos, s'.addrs[addr.service], FirstInfo(addr, source, penalty, 0).(refCount := 1)))
    && (forall q :: q in s.infos ==> Survives(s, s', slot, inserted, q))
    && (forall q :: q in s'.infos ==> q in s.infos || (inserted && addr.service in s'.addrs && q == s'.addrs[addr.service]))
  }

  lemma SoftTimely(info: AddrInfo, info': AddrInfo)
    requires Timely(info) && info'.lastTry == info.lastTry && info'.lastSuccess == info.lastSuccess && info'.inTried == info.inTried
    ensures Timely(info')
  {}

  lemma SoftAddition(k: Config, s: State, t: State, addr: Address, source: NetAddr, penalty: int, now: int)
    requires Known(s, addr.service) && t == s.(infos := s.infos[s.addrs[addr.service] := Refreshed(s.infos[s.addrs[addr.service]], addr, penalty, now)])
    ensures Addition(k, s, t, addr, source, penalty, now, false)
  {
    hide Refreshed, NewSlot, IsTerrible;
  }

  lemma RefreshedKeeps(info: AddrInfo, addr: Address, penalty: int, now: int)
    ensures var x := Refreshed(info, addr, penalty, now); x == info.(time := x.time, services := x.services)
  {}

  lemma KnownAddition(k: Config, s: State, t: State, s': State, addr: Address, source: NetAddr, penalty: int, now: int, inserted: bool)
    requires Known(s, addr.service) && t == s.(infos := s.infos[s.addrs[addr.service] := Refreshed(s.infos[s.addrs[addr.service]], addr, penalty, now)])
    requires var slot, id := NewSlot(k, addr.service, source), s.addrs[addr.service];
      && OneSlot(t, s', slot, inserted, id) && id in s'.infos && s.infos[id].addr == addr.service && Consistent(k, s', {}, {})
      && t.infos[id].time < addr.time && !t.infos[id].inTried && t.infos[id].refCount < NEW_BUCKETS_PER_ADDRESS
      && (inserted ==> Room(t.infos, t.news, slot, id, t.infos[id].refCount, now))
    ensures Addition(k, s, s', addr, source, penalty, now, inserted)
  {
    hide RandomOk, TriedOk, NewOk, TimesOk, IdsOk, CountsOk, RefsOk, Loose, NewSlot, Refreshed, IsTerrible;
    var slot, id := NewSlot(k, addr.service, source), s.addrs[addr.service];
    RefreshedKeeps(s.infos[id], addr, penalty, now);
    forall q | q in s.infos && q != id ensures Survives(s, s', slot, inserted, q) { assert Survives(t, s', slot, inserted, q); }
    if !inserted {
      forall q | q in s.infos ensures q in s'.infos { if q != id { assert Survives(t, s', slot, inserted, q); } }
    }
  }

  lemma CreatedParts(s: State, info: AddrInfo)
    ensures var t := Created(s, info);
      && t.infos == s.infos[s.idCount := info] && t.tried == s.tried && t.news == s.news && t.idCount == s.idCount + 1
  {
    hide CountOf, Shift;
  }

  lemma UnknownAddition(k: Config, s: State, t: State, s': State, addr: Address, source: NetAddr, penalty: int, now: int, inserted: bool)
    requires !Known(s, addr.service) && s.idCount !in s.infos && t.tried == s.tried && t.news == s.news
    requires t.infos == s.infos[s.idCount := FirstInfo(addr, source, penalty, |s.random|)]
    requires var slot := NewSlot(k, addr.service, source);
      && OneSlot(t, s', slot, inserted, s.idCount) && (s.idCount in s'.infos <==> inserted) && Consistent(k, s', {}, {})
      && (inserted <==> Room(t.infos, t.news, slot, s.idCount, 0, now)) && (slot in s.news ==> s.news[slot] in s.infos)
    ensures Addition(k, s, s', addr, source, penalty, now, inserted)
  {
    hide RandomOk, TriedOk, NewOk, TimesOk, IdsOk, CountsOk, RefsOk, Loose, NewSlot, IsTerrible;
    var slot, id := NewSlot(k, addr.service, source), s.idCount;
    forall q | q in s.infos ensures Survives(s, s', slot, inserted, q) { assert Survives(t, s', slot, inserted, q); }
    assert slot in s.news ==> t.infos[t.news[slot]] == s.infos[s.news[slot]];
    if inserted {
      assert s'.infos[id].addr == addr.service;
      assert Became(s'.infos, id, t.infos[id].(refCount := 1));
    } else {
      forall q | q in s.infos ensures q in s'.infos { assert Survives(s, s', slot, inserted, q); }
    }
  }

  lemma SameSlot(s: State, s': State, slot: Slot, id: nat)
    requires s'.tried == s.tried && s'.idCount == s.idCount && s'.news == s.news && SameButRandom(if id in s'.infos then s.infos else s.infos - {id}, s'.infos)
    requires id in s.infos
    ensures OneSlot(s, s', slot, false, id)
  {}

  lemma OverwriteIs(s: State, t: State, slot: Slot, id: nat)
    requires t.tried == s.tried && t.idCount == s.idCount && t.news == s.news - {slot} && id in t.infos && (slot in s.news ==> s.news[slot] != id)
    requires forall q :: q in s.infos && (slot in s.news ==> q != s.news[slot]) ==> Untouched(s.infos, t.infos, q)
    requires forall q :: q in t.infos ==> q in s.infos && t.infos[q].addr == s.infos[q].addr
    requires slot in s.news ==> LostOne(s.infos, t.infos, s.news[slot])
    requires id in s.infos
    ensures OneSlot(s, Placed(t, slot, id), slot, true, id)
  {
    var s' := Placed(t, slot, id);
    assert s'.news == s.news[slot := id];
    forall q | q in s.infos && q != id ensures Survives(s, s', slot, true, q) {
      if slot in s.news ==> q != s.news[slot] { assert Untouched(s.infos, t.infos, q); }
    }
    assert Untouched(s.infos, t.infos, id);
  }

  lemma OneSlotCollisions(k: Config, s: State, s': State, slot: Slot, inserted: bool, id: nat, collisions: set<nat>)
    requires OneSlot(s, s', slot, inserted, id) && CollisionsOk(k, s.infos, s.tried, collisions, s.idCount)
    ensures CollisionsOk(k, s'.infos, s'.tried, collisions, s'.idCount)
  {
    hide CollisionsOk, Survives;
    CollisionsKeep(k, s.infos, s.tried, s.idCount, s'.infos, s'.tried, s'.idCount, collisions);
  }

  lemma NewCollisions(k: Config, s: State, t: State, id: nat, collisions: set<nat>)
    requires CollisionsOk(k, s.infos, s.tried, collisions, s.idCount) && id == s.idCount && t.idCount == id + 1 && t.tried == s.tried
    requires t.infos.Keys == s.infos.Keys + {id} && forall q :: q in s.infos && q != id ==> t.infos[q].addr == s.infos[q].addr
    ensures CollisionsOk(k, t.infos, t.tried, collisions, t.idCount)
  {
    hide CollisionsOk;
    CollisionsKeep(k, s.infos, s.tried, s.idCount, t.infos, t.tried, t.idCount, collisions);
  }

  lemma FoundIs(k: Config, s: State, a: Service)
    requires Consistent(k, s, {}, {}) && a in s.addrs
    ensures s.addrs[a] in s.infos && s.infos[s.addrs[a]].addr == a
  {}

  lemma NotFoundIs(k: Config, s: State, a: Service)
    requires Consistent(k, s, {}, {}) && !(a in s.addrs && s.addrs[a] in s.infos)
    ensures a !in s.addrs
  {}

  lemma SlotHolder(k: Config, s: State, slot: Slot)
    requires Consistent(k, s, {}, {})
    ensures slot in s.news ==> s.news[slot] in s.infos
  {
    hide AddrOk, RandomOk, TriedOk, TimesOk, IdsOk, CountsOk, RefsOk, Loose;
    if slot in s.news { NewFor(k, s.infos, s.news, slot); }
  }

  lemma PlacedNotPending(k: Config, s: State, pending: set<nat>, slot: Slot)
    requires Consistent(k, s, pending, {}) && slot in s.news
    ensures s.news[slot] in s.infos && s.news[slot] !in pending && s.infos[s.news[slot]].refCount > 0
  {
    hide Consistent;
    UnrefKeeps(k, s, pending, {}, slot);
  }

  lemma NotPlacedPending(k: Config, s: State, pending: set<nat>, id: nat)
    requires Consistent(k, s, pending, {}) && id in s.infos && !s.infos[id].inTried && s.infos[id].refCount == 0
    ensures id in pending
  {
    hide AddrOk, RandomOk, TriedOk, NewOk, TimesOk, IdsOk, CountsOk, Loose, SlotsOf;
    RefsFor(s.infos, s.news, pending, id);
  }

  lemma PendingIsEmpty(k: Config, s: State, pending: set<nat>, id: nat)
    requires Consistent(k, s, pending, {}) && pending <= {id} && id in s.infos && s.infos[id].refCount != 0
    ensures pending == {}
  {
    hide AddrOk, RandomOk, TriedOk, NewOk, TimesOk, IdsOk, CountsOk, RefsOk;
    LooseFor(s.infos, pending, id);
  }

  lemma NewSlotStands(k: Config, s: State, id: nat, a: Service, source: NetAddr)
    requires id in s.infos && s.infos[id].addr == a && !s.infos[id].inTried
    ensures StandsAt(k, s.infos, NewSlot(k, a, source), id)
  {
    hide Position;
  }

  /** The entry leaves the tried slot for its own slot of the new table; only what stood there may disappear. */
  ghost predicate EvictionOf(k: Config, s: State, s': State, slot: Slot, id: nat)
    requires slot in s.tried && s.tried[slot] in s.infos
  {
    var evicted := s.tried[slot];
    var newSlot := NewSlot(k, s.infos[evicted].addr, s.infos[evicted].source);
    && evicted != id && Became(s'.infos, evicted, s.infos[evicted].(inTried := false, refCount := 1))
    && s'.news == s.news[newSlot := evicted]
    && (forall q :: q in s'.infos ==> q in s.infos && s'.infos[q].addr == s.infos[q].addr)
    && (forall q :: q in s.infos && q != evicted && (newSlot in s.news ==> q != s.news[newSlot]) ==> Untouched(s.infos, s'.infos, q))
    && (newSlot in s.news ==> LostOne(s.infos, s'.infos, s.news[newSlot]))
  }

  /** After clearing its new slot, the evicted entry still exists and may stand there. */
  lemma EvictStill(k: Config, s: State, slot: Slot, id: nat, newSlot: Slot)
    requires Consistent(k, s, {id}, {id}) && slot in s.tried && s.tried[slot] in s.infos && CanClear(LeftTried(s, slot), newSlot)
    requires newSlot == NewSlot(k, s.infos[s.tried[slot]].addr, s.infos[s.tried[slot]].source)
    ensures var u := Cleared(LeftTried(s, slot), newSlot);
      newSlot !in u.news && s.tried[slot] in u.infos && StandsAt(k, u.infos, newSlot, s.tried[slot]) && u.infos[s.tried[slot]].refCount == 0
  {
    hide Consistent, Cleared, CanClear, CountOf, Shift, TriedSlot, Position;
    var evicted := s.tried[slot];
    LeaveTriedKeeps(k, s, {id}, {id}, slot);
    var t := LeftTried(s, slot);
    ClearKeeps(k, t, {id} + {evicted}, {id} + {evicted}, newSlot);
    PendingNotPlaced(k, t, {id} + {evicted}, {id} + {evicted}, evicted, newSlot);
    assert Untouched(t.infos, Cleared(t, newSlot).infos, evicted);
  }

  lemma PendingNotPlaced(k: Config, s: State, pending: set<nat>, limbo: set<nat>, id: nat, slot: Slot)
    requires Consistent(k, s, pending, limbo) && id in pending
    ensures id in s.infos && !s.infos[id].inTried && s.infos[id].refCount == 0 && (slot in s.news ==> s.news[slot] != id)
  {
    hide AddrOk, RandomOk, TriedOk, NewOk, TimesOk, IdsOk, CountsOk, RefsOk;
    NoSlotsLoose(s.infos, s.news, pending, id);
    assert slot in s.news && s.news[slot] == id ==> slot in SlotsOf(s.news, id);
  }

  lemma LeftTriedParts(s: State, slot: Slot)
    requires slot in s.tried && s.tried[slot] in s.infos
    ensures var t := LeftTried(s, slot);
      && t.infos == s.infos[s.tried[slot] := s.infos[s.tried[slot]].(inTried := false)]
      && t.tried == s.tried - {slot} && t.news == s.news && t.idCount == s.idCount
  {
    hide CountOf, Shift;
  }

  lemma ReadmittedParts(s: State, slot: Slot, id: nat)
    requires id in s.infos
    ensures var t := Readmitted(s, slot, id);
      && t.infos == s.infos[id := s.infos[id].(refCount := 1)]
      && t.tried == s.tried && t.news == s.news[slot := id] && t.idCount == s.idCount
  {
    hide CountOf, Shift;
  }

  lemma TakenOutParts(s: State, id: nat)
    requires id in s.infos
    ensures var t := TakenOut(s, id);
      && t.infos == s.infos[id := s.infos[id].(refCount := 0)]
      && t.tried == s.tried && t.news == WithoutId(s.news, id) && t.idCount == s.idCount
  {
    hide CountOf, Shift;
  }

  lemma SettledParts(k: Config, s: State, id: nat)
    requires id in s.infos
    ensures var t := Settled(k, s, id);
      && t.infos == s.infos[id := s.infos[id].(inTried := true)]
      && t.tried == s.tried[TriedSlot(k, s.infos[id].addr) := id] && t.news == s.news && t.idCount == s.idCount
  {
    hide CountOf, Shift, TriedSlot;
  }

  lemma EvictEffect(k: Config, s: State, slot: Slot, id: nat)
    requires Consistent(k, s, {id}, {id}) && slot in s.tried
    ensures s.tried[slot] in s.infos
    ensures var newSlot := NewSlot(k, s.infos[s.tried[slot]].addr, s.infos[s.tried[slot]].source);
      && CanClear(LeftTried(s, slot), newSlot) && s.tried[slot] in Cleared(LeftTried(s, slot), newSlot).infos
      && newSlot !in Cleared(LeftTried(s, slot), newSlot).news
      && var s' := Readmitted(Cleared(LeftTried(s, slot), newSlot), newSlot, s.tried[slot]);
      && Consistent(k, s', {id}, {id}) && EvictionOf(k, s, s', slot, id) && s'.tried == s.tried - {slot} && s'.idCount == s.idCount
  {
    hide Consistent, Cleared, CanClear, LeftTried, Readmitted, NewSlot, EvictionOf;
    var e := s.tried[slot];
    LeaveTriedKeeps(k, s, {id}, {id}, slot);
    LeftTriedParts(s, slot);
    var newSlot := NewSlot(k, s.infos[e].addr, s.infos[e].source);
    var t := LeftTried(s, slot);
    ClearKeeps(k, t, {id} + {e}, {id} + {e}, newSlot);
    EvictStill(k, s, slot, id, newSlot);
    var u := Cleared(t, newSlot);
    ReadmitKeeps(k, u, {id} + {e}, {id} + {e}, newSlot, e);
    assert {id} + {e} - {e} == {id};
    ReadmittedParts(u, newSlot, e);
    PendingNotPlaced(k, t, {id} + {e}, {id} + {e}, e, newSlot);
    EvictionIs(k, s, t, u, Readmitted(u, newSlot, e), slot, newSlot, id);
  }

  lemma EvictionIs(k: Config, s: State, t: State, u: State, v: State, slot: Slot, newSlot: Slot, id: nat)
    requires slot in s.tried && s.tried[slot] in s.infos && s.tried[slot] != id && newSlot == NewSlot(k, s.infos[s.tried[slot]].addr, s.infos[s.tried[slot]].source)
    requires t.infos == s.infos[s.tried[slot] := s.infos[s.tried[slot]].(inTried := false)] && t.news == s.news
    requires u.news == t.news - {newSlot}
    requires forall q :: q in t.infos && (newSlot in t.news ==> q != t.news[newSlot]) ==> Untouched(t.infos, u.infos, q)
    requires forall q :: q in u.infos ==> q in t.infos && u.infos[q].addr == t.infos[q].addr
    requires newSlot in t.news ==> LostOne(t.infos, u.infos, t.news[newSlot])
    requires s.tried[slot] in u.infos && (newSlot in s.news ==> s.news[newSlot] != s.tried[slot])
    requires v.infos == u.infos[s.tried[slot] := u.infos[s.tried[slot]].(refCount := 1)] && v.news == u.news[newSlot := s.tried[slot]]
    ensures EvictionOf(k, s, v, slot, id)
  {
    hide NewSlot;
    var e := s.tried[slot];
    assert v.news == s.news[newSlot := e];
    forall q | q in s.infos && q != e && (newSlot in s.news ==> q != s.news[newSlot]) ensures Untouched(s.infos, v.infos, q) {
      assert Untouched(t.infos, u.infos, q);
    }
  }

  /** The entry moves to its tried slot; what stood there goes back to the new table; at most one entry disappears. */
  ghost predicate Promotion(k: Config, s: State, s': State, id: nat)
    requires id in s.infos
  {
    var slot := TriedSlot(k, s.infos[id].addr);
    && Became(s'.infos, id, s.infos[id].(inTried := true, refCount := 0)) && SlotsOf(s'.news, id) == {}
    && (forall q :: q in s'.infos ==> q in s.infos && s'.infos[q].addr == s.infos[q].addr)
    && (slot !in s.tried ==> s'.news == WithoutId(s.news, id) && forall q :: q in s.infos && q != id ==> Untouched(s.infos, s'.infos, q))
    && (slot in s.tried && s.tried[slot] in s.infos ==>
          var evicted := s.tried[slot];
          var newSlot := NewSlot(k, s.infos[evicted].addr, s.infos[evicted].source);
          && Became(s'.infos, evicted, s.infos[evicted].(inTried := false, refCount := 1)) && s'.news == WithoutId(s.news, id)[newSlot := evicted]
          && (newSlot in s.news && s.news[newSlot] != id ==> LostOne(s.infos, s'.infos, s.news[newSlot]))
          && forall q :: q in s.infos && q != id && q != evicted && (newSlot in s.news ==> q != s.news[newSlot]) ==> Untouched(s.infos, s'.infos, q))
  }

  lemma EvictKeepsId(k: Config, s: State, s': State, slot: Slot, id: nat)
    requires Consistent(k, s, {id}, {id}) && slot in s.tried && s.tried[slot] in s.infos && EvictionOf(k, s, s', slot, id)
    ensures Untouched(s.infos, s'.infos, id)
  {
    hide Consistent, NewSlot;
    var evicted := s.tried[slot];
    PendingNotPlaced(k, s, {id}, {id}, id, NewSlot(k, s.infos[evicted].addr, s.infos[evicted].source));
  }

  lemma PromotionEffect(k: Config, s: State, t: State, u: State, s': State, id: nat)
    requires id in s.infos && t == TakenOut(s, id) && Untouched(t.infos, u.infos, id) && s' == Settled(k, u, id)
    requires var slot := TriedSlot(k, s.infos[id].addr);
      if slot in t.tried then t.tried[slot] in t.infos && EvictionOf(k, t, u, slot, id) else u == t
    ensures Promotion(k, s, s', id)
  {
    hide TriedSlot, NewSlot, SlotsOf, WithoutId, EvictionOf, TakenOut, Settled;
    var slot := TriedSlot(k, s.infos[id].addr);
    TakenOutParts(s, id);
    SettledParts(k, u, id);
    SlotsWithoutId(s.news, id, id);
    if slot in s.tried { PromotionEvicts(k, s, t, u, s', id); }
  }

  lemma PromotionEvicts(k: Config, s: State, t: State, u: State, s': State, id: nat)
    requires id in s.infos && Untouched(t.infos, u.infos, id)
    requires t.infos == s.infos[id := s.infos[id].(refCount := 0)] && t.tried == s.tried && t.news == WithoutId(s.news, id) && SlotsOf(t.news, id) == {}
    requires s'.infos == u.infos[id := u.infos[id].(inTried := true)] && s'.news == u.news
    requires var slot := TriedSlot(k, s.infos[id].addr); slot in t.tried && t.tried[slot] in t.infos && EvictionOf(k, t, u, slot, id)
    ensures Promotion(k, s, s', id)
  {
    hide TriedSlot, NewSlot, SlotsOf, WithoutId;
    var slot := TriedSlot(k, s.infos[id].addr);
    var e := s.tried[slot];
    var newSlot := NewSlot(k, s.infos[e].addr, s.infos[e].source);
    NotIn(u.news, t.news, newSlot, e, id);
    WithoutIdAt(s.news, id, newSlot);
    forall q | q in s.infos && q != id && q != e && (newSlot in s.news ==> q != s.news[newSlot]) ensures Untouched(s.infos, s'.infos, q) {
      assert Untouched(t.infos, u.infos, q);
    }
  }

  lemma WithoutIdAt(news: Table, id: nat, slot: Slot)
    ensures slot in WithoutId(news, id) <==> slot in news && news[slot] != id
    ensures slot in WithoutId(news, id) ==> WithoutId(news, id)[slot] == news[slot]
  {}

  lemma NotIn(news': Table, news: Table, slot: Slot, other: nat, id: nat)
    requires SlotsOf(news, id) == {} && news' == news[slot := other] && other != id
    ensures SlotsOf(news', id) == {}
  {
    forall s | s in news' ensures news'[s] != id { if s != slot { assert s !in SlotsOf(news, id); } }
  }

  function StartBucket(k: Config, a: Service, source: NetAddr): (b: nat)
    ensures b < NEW_BUCKET_COUNT
  {
    NewBucket(k, a, source)
  }

  /** How many buckets after the start a bucket comes, going round. */
  function Ahead(start: nat, bucket: nat): int { (bucket + NEW_BUCKET_COUNT - start) % NEW_BUCKET_COUNT }

  lemma AheadIs(start: nat, bucket: nat, n: nat)
    requires start < NEW_BUCKET_COUNT && bucket < NEW_BUCKET_COUNT && n < NEW_BUCKET_COUNT
    ensures 0 <= Ahead(start, bucket) < NEW_BUCKET_COUNT
    ensures Ahead(start, bucket) == n <==> bucket == (start + n) % NEW_BUCKET_COUNT
  {}

  /** Of the slots of id only those in buckets that are still ahead are left. */
  ghost predicate PartlyOut(news: Table, news': Table, id: nat, start: nat, n: nat) {
    && (forall s :: s in news' ==> s in news && news'[s] == news[s])
    && (forall s :: s in news && news[s] != id ==> s in news')
    && (forall s :: s in news' && news'[s] == id ==> Ahead(start, s.bucket) >= n)
  }

  lemma RefsNow(k: Config, s: State, pending: set<nat>, limbo: set<nat>, id: nat)
    requires Consistent(k, s, pending, limbo) && id in s.infos
    ensures s.infos[id].refCount == |SlotsOf(s.news, id)| && Timely(s.infos[id])
    ensures s.infos[id].inTried ==> SlotsOf(s.news, id) == {}
    ensures !s.infos[id].inTried ==> s.infos[id].refCount <= NEW_BUCKETS_PER_ADDRESS && (id !in pending ==> s.infos[id].refCount > 0)
  {
    hide AddrOk, RandomOk, TriedOk, NewOk, IdsOk, CountsOk, Loose, SlotsOf;
    RefsFor(s.infos, s.news, pending, id);
  }

  lemma ScanStep(k: Config, s: State, news': Table, id: nat, start: nat, n: nat)
    requires Consistent(k, s, {}, {}) && id in s.infos && PartlyOut(s.news, news', id, start, n) && start < NEW_BUCKET_COUNT && n < NEW_BUCKET_COUNT
    ensures var bucket := (start + n) % NEW_BUCKET_COUNT;
      var slot := Slot(bucket, Position(k, true, bucket, s.infos[id].addr));
      if slot in news' && news'[slot] == id
      then |SlotsOf(news' - {slot}, id)| == |SlotsOf(news', id)| - 1 && PartlyOut(s.news, news' - {slot}, id, start, n + 1)
      else PartlyOut(s.news, news', id, start, n + 1)
  {
    hide AddrOk, RandomOk, TriedOk, RefsOk, TimesOk, IdsOk, CountsOk, Loose, SlotsOf, Position, Ahead;
    var bucket := (start + n) % NEW_BUCKET_COUNT;
    var slot := Slot(bucket, Position(k, true, bucket, s.infos[id].addr));
    if slot in news' && news'[slot] == id { SlotsWithout(news', slot, id); }
    forall q | q in news' && news'[q] == id && q != slot ensures Ahead(start, q.bucket) >= n + 1 {
      assert StandsAt(k, s.infos, q, s.news[q]);
      AheadIs(start, q.bucket, n);
    }
  }

  lemma ScannedAll(k: Config, s: State, news': Table, id: nat, start: nat)
    requires Consistent(k, s, {}, {}) && PartlyOut(s.news, news', id, start, NEW_BUCKET_COUNT) && start < NEW_BUCKET_COUNT
    ensures SlotsOf(news', id) == {}
  {
    hide AddrOk, RandomOk, TriedOk, RefsOk, TimesOk, IdsOk, CountsOk, Loose, Position, Ahead;
    forall q | q in news' ensures news'[q] != id {
      assert StandsAt(k, s.infos, q, s.news[q]);
      AheadIs(start, q.bucket, 0);
    }
  }

  lemma AllOut(news: Table, news': Table, id: nat, start: nat, n: nat)
    requires PartlyOut(news, news', id, start, n) && |SlotsOf(news', id)| == 0
    ensures news' == WithoutId(news, id)
  {
    hide Ahead;
    assert SlotsOf(news', id) == {};
    forall q | q in news' ensures news'[q] != id { assert q !in SlotsOf(news', id); }
  }

  lemma EmptyConsistent(k: Config)
    ensures Consistent(k, EMPTY, {}, {})
  {
    hide TriedSlot, Position;
    assert OfKind(map[], {}, New) == {} && OfKind(map[], {}, Tried) == {};
    forall net ensures NetOk(map[], {}, map[], net) { assert OfNet(map[], {}, New, net) == {} && OfNet(map[], {}, Tried, net) == {}; }
  }
}
