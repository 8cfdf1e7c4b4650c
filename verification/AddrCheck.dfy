// The consistency check of the address manager (src/addrman.cpp, CheckAddrman): which states pass it,
// and that every run stays in them.
module AddrChecks {
  import opened Sets
  import opened AddrTables
  import opened AddrSteps
  import opened AddrMans

  // ---------------------------------------------------------------- what is checked

  /** One entry by itself. */
  ghost predicate EntryOk(man: AddrMan, id: nat)
    reads man
  {
    && id in man.mapInfo
    && var info := man.mapInfo[id];
       && Timely(info) && info.addr in man.mapAddr && man.mapAddr[info.addr] == id
       && 0 <= info.randomPos < |man.vRandom| && man.vRandom[info.randomPos] == id
       && (if info.inTried then info.refCount == 0 else 0 < info.refCount <= NEW_BUCKETS_PER_ADDRESS)
  }

  ghost predicate EntriesOk(man: AddrMan)
    reads man
  {
    forall id :: id in man.mapInfo ==> EntryOk(man, id)
  }

  ghost function NetsOf(m: Infos): set<nat> { set id | id in m :: m[id].addr.ip.net }

  /** The networks that are counted are counted right, and there are enough of them. */
  ghost predicate NetsChecked(m: Infos, counts: map<nat, Counts>) {
    |NetsOf(m)| <= |counts| && forall net :: net in counts ==> NetOk(m, {}, counts, net)
  }

  /** The states that pass. */
  ghost predicate Checked(man: AddrMan)
    reads man
  {
    && EntriesOk(man) && |man.vRandom| == man.nTried + man.nNew
    && man.nNew == |OfKind(man.mapInfo, {}, New)| && man.nTried == |OfKind(man.mapInfo, {}, Tried)|
    && TriedOk(man.config, man.mapInfo, man.vvTried)
    && NewOk(man.config, man.mapInfo, man.vvNew) && RefsOk(man.mapInfo, man.vvNew, {})
    && NetsChecked(man.mapInfo, man.networkCounts)
  }

  /** The tables have the size they are declared with. */
  ghost predicate Shaped(man: AddrMan)
    reads man
  {
    Within(man.vvTried, TRIED_BUCKET_COUNT) && Within(man.vvNew, NEW_BUCKET_COUNT)
  }

  // ---------------------------------------------------------------- the entries

  /** The entries that have been looked at. */
  ghost function Seen(m: Infos, todo: set<nat>): Infos { map id | id in m && id !in todo :: m[id] }

  /** What the scan of the entries has collected. */
  ghost predicate Collected(m: Infos, setTried: set<nat>, mapNew: map<nat, int>, local: map<nat, Counts>) {
    setTried == OfKind(m, {}, Tried) && References(m, mapNew) && NetsOk(m, {}, local) && local.Keys == NetsOf(m)
  }

  ghost predicate References(m: Infos, mapNew: map<nat, int>) {
    mapNew.Keys == OfKind(m, {}, New) && forall id :: id in mapNew ==> mapNew[id] == m[id].refCount
  }

  lemma CollectOne(m: Infos, id: nat, info: AddrInfo, setTried: set<nat>, mapNew: map<nat, int>, local: map<nat, Counts>)
    requires Collected(m, setTried, mapNew, local) && id !in m
    ensures var kind := if info.inTried then Tried else New;
      Collected(m[id := info], if info.inTried then setTried + {id} else setTried, if info.inTried then mapNew else mapNew[id := info.refCount],
                local[info.addr.ip.net := Shift(CountOf(local, info.addr.ip.net), Nowhere, kind)])
  {
    hide NetsOk, CountOf, Shift;
    var m', kind, own := m[id := info], if info.inTried then Tried else New, info.addr.ip.net;
    KindUpdate(m, {}, {}, id, info);
    assert OfKind(m', {}, Tried) == if info.inTried then OfKind(m, {}, Tried) + {id} else OfKind(m, {}, Tried);
    assert OfKind(m', {}, New) == if info.inTried then OfKind(m, {}, New) else OfKind(m, {}, New) + {id};
    var local' := local[own := Shift(CountOf(local, own), Nowhere, kind)];
    RecountNets(m, {}, local, m', {}, local', id, own);
    NetsMore(m, id, info);
  }

  lemma NetsMore(m: Infos, id: nat, info: AddrInfo)
    requires id !in m
    ensures NetsOf(m[id := info]) == NetsOf(m) + {info.addr.ip.net}
  {
    var m' := m[id := info];
    forall net | net in NetsOf(m) + {info.addr.ip.net} ensures net in NetsOf(m') {
      if net == info.addr.ip.net {
        assert id in m' && m'[id].addr.ip.net == net;
      } else {
        var q :| q in m && m[q].addr.ip.net == net;
        assert q in m' && m'[q].addr.ip.net == net;
      }
    }
  }

  lemma SeenOne(m: Infos, todo: set<nat>, id: nat)
    requires id in todo && id in m
    ensures id !in Seen(m, todo) && Seen(m, todo - {id}) == Seen(m, todo)[id := m[id]]
  {}

  /** The first part: every entry by itself. */
  method ScanEntries(man: AddrMan) returns (code: int, setTried: set<nat>, mapNew: map<nat, int>, local: map<nat, Counts>)
    ensures code == 0 <==> EntriesOk(man)
    ensures code == 0 ==> Collected(man.mapInfo, setTried, mapNew, local)
  {
    hide Collected, CountOf, Shift;
    setTried, mapNew, local := {}, map[], map[];
    var todo := man.mapInfo.Keys;
    CollectNone(Seen(man.mapInfo, todo));
    while todo != {}
      invariant todo <= man.mapInfo.Keys
      invariant forall id :: id in man.mapInfo && id !in todo ==> EntryOk(man, id)
      invariant Collected(Seen(man.mapInfo, todo), setTried, mapNew, local)
    {
      var n :| n in todo;
      var info := man.mapInfo[n];
      SeenOne(man.mapInfo, todo, n);
      CollectOne(Seen(man.mapInfo, todo), n, info, setTried, mapNew, local);
      todo := todo - {n};
      var net := info.addr.ip.net;
      if info.inTried {
        if info.lastSuccess == 0 { assert !EntryOk(man, n); return -1, setTried, mapNew, local; }
        if info.refCount != 0 { assert !EntryOk(man, n); return -2, setTried, mapNew, local; }
        setTried := setTried + {n};
        local := local[net := Shift(CountOf(local, net), Nowhere, Tried)];
      } else {
        if info.refCount < 0 || info.refCount > NEW_BUCKETS_PER_ADDRESS { assert !EntryOk(man, n); return -3, setTried, mapNew, local; }
        if info.refCount == 0 { assert !EntryOk(man, n); return -4, setTried, mapNew, local; }
        mapNew := mapNew[n := info.refCount];
        local := local[net := Shift(CountOf(local, net), Nowhere, New)];
      }
      if !(info.addr in man.mapAddr && man.mapAddr[info.addr] == n) { assert !EntryOk(man, n); return -5, setTried, mapNew, local; }
      if info.randomPos < 0 || info.randomPos >= |man.vRandom| || man.vRandom[info.randomPos] != n {
        assert !EntryOk(man, n);
        return -14, setTried, mapNew, local;
      }
      if info.lastTry < 0 { assert !EntryOk(man, n); return -6, setTried, mapNew, local; }
      if info.lastSuccess < 0 { assert !EntryOk(man, n); return -8, setTried, mapNew, local; }
      assert EntryOk(man, n);
    }
    assert Seen(man.mapInfo, todo) == man.mapInfo;
    code := 0;
  }

  lemma CollectNone(m: Infos)
    requires m == map[]
    ensures Collected(m, {}, map[], map[])
  {
    forall net ensures NetOk(m, {}, map[], net) { assert OfNet(m, {}, New, net) == {} && OfNet(m, {}, Tried, net) == {}; }
  }

  lemma EntryIs(man: AddrMan, id: nat)
    requires man.Valid() && id in man.mapInfo
    ensures EntryOk(man, id)
  {
    hide TriedOk, NewOk, IdsOk, CountsOk, CollisionsOk, SlotsOf;
    RefsFor(man.mapInfo, man.vvNew, {}, id);
  }

  // ---------------------------------------------------------------- the tried table

  /** Slots are visited bucket by bucket. */
  predicate Before(s: Slot, bucket: nat, pos: nat) { s.bucket < bucket || (s.bucket == bucket && s.pos < pos) }

  /** An entry that is in the tried table where it belongs. */
  ghost predicate InPlace(k: Config, m: Infos, tried: Table, s: Slot) {
    s in tried && tried[s] in m && m[tried[s]].inTried && s == TriedSlot(k, m[tried[s]].addr)
  }

  /** The visited slots are right, and exactly the tried entries not in left have been met, each in its slot. */
  ghost predicate TriedSeen(k: Config, m: Infos, tried: Table, left: set<nat>, n: nat, i: nat) {
    && left <= OfKind(m, {}, Tried)
    && (forall s :: s in tried && Before(s, n, i) ==> InPlace(k, m, tried, s) && tried[s] !in left)
    && (forall id :: id in OfKind(m, {}, Tried) && id !in left ==> Met(k, m, tried, id, n, i))
  }

  ghost predicate Met(k: Config, m: Infos, tried: Table, id: nat, n: nat, i: nat) {
    id in m && var s := TriedSlot(k, m[id].addr); s in tried && tried[s] == id && Before(s, n, i)
  }

  method ScanTried(man: AddrMan, setTried0: set<nat>) returns (code: int, setTried: set<nat>)
    requires setTried0 == OfKind(man.mapInfo, {}, Tried) && Within(man.vvTried, TRIED_BUCKET_COUNT)
    ensures code == 0 && setTried == {} <==> TriedOk(man.config, man.mapInfo, man.vvTried)
  {
    hide TriedSeen, TriedSlot, Position, OfKind, TriedOk, Within;
    ghost var k, m, tried := man.config, man.mapInfo, man.vvTried;
    setTried := setTried0;
    NoneMet(k, m, tried);
    var n: nat := 0;
    while n < TRIED_BUCKET_COUNT
      invariant n <= TRIED_BUCKET_COUNT && TriedSeen(k, m, tried, setTried, n, 0)
    {
      var i: nat := 0;
      while i < BUCKET_SIZE
        invariant i <= BUCKET_SIZE && TriedSeen(k, m, tried, setTried, n, i)
      {
        var slot := Slot(n, i);
        TriedVisit(k, m, tried, setTried, n, i);
        if slot in man.vvTried {
          var id := man.vvTried[slot];
          if id !in setTried { return -11, setTried; }
          if id !in man.mapInfo || TriedBucket(man.config, man.mapInfo[id].addr) != n { return -17, setTried; }
          if Position(man.config, false, n, man.mapInfo[id].addr) != i { return -18, setTried; }
          setTried := setTried - {id};
        }
        i := i + 1;
      }
      TriedRow(k, m, tried, setTried, n);
      n := n + 1;
    }
    TriedDone(k, m, tried, setTried);
    code := 0;
  }

  lemma NoneMet(k: Config, m: Infos, tried: Table)
    ensures TriedSeen(k, m, tried, OfKind(m, {}, Tried), 0, 0)
  {
    hide TriedSlot, OfKind;
  }

  /** What a visited slot must hold, and what is known after it. */
  lemma TriedVisit(k: Config, m: Infos, tried: Table, left: set<nat>, n: nat, i: nat)
    requires TriedSeen(k, m, tried, left, n, i)
    ensures var slot := Slot(n, i);
      if slot !in tried then TriedSeen(k, m, tried, left, n, i + 1)
      else
        var id := tried[slot];
        if id in left && id in m && TriedBucket(k, m[id].addr) == n && Position(k, false, n, m[id].addr) == i
        then TriedSeen(k, m, tried, left - {id}, n, i + 1)
        else !TriedOk(k, m, tried)
  {
    hide Position, TriedBucket;
    var slot := Slot(n, i);
    forall s | s in tried && Before(s, n, i + 1) && s != slot ensures InPlace(k, m, tried, s) && tried[s] !in left { assert Before(s, n, i); }
    forall id | id in OfKind(m, {}, Tried) && id !in left ensures Met(k, m, tried, id, n, i) && Met(k, m, tried, id, n, i + 1) && TriedSlot(k, m[id].addr) != slot {
      assert Met(k, m, tried, id, n, i);
    }
  }

  lemma TriedRow(k: Config, m: Infos, tried: Table, left: set<nat>, n: nat)
    requires TriedSeen(k, m, tried, left, n, BUCKET_SIZE) && Within(tried, TRIED_BUCKET_COUNT)
    ensures TriedSeen(k, m, tried, left, n + 1, 0)
  {
    hide TriedSlot, OfKind;
    forall s | s in tried && Before(s, n + 1, 0) ensures InPlace(k, m, tried, s) && tried[s] !in left { assert Before(s, n, BUCKET_SIZE); }
    forall id | id in OfKind(m, {}, Tried) && id !in left ensures Met(k, m, tried, id, n + 1, 0) { assert Met(k, m, tried, id, n, BUCKET_SIZE); }
  }

  lemma TriedDone(k: Config, m: Infos, tried: Table, left: set<nat>)
    requires TriedSeen(k, m, tried, left, TRIED_BUCKET_COUNT, 0) && Within(tried, TRIED_BUCKET_COUNT)
    ensures left == {} <==> TriedOk(k, m, tried)
  {
    hide TriedSlot;
    forall s | s in tried ensures InPlace(k, m, tried, s) && tried[s] !in left { assert Before(s, TRIED_BUCKET_COUNT, 0); }
    forall id | id in m && m[id].inTried && id !in left ensures Met(k, m, tried, id, TRIED_BUCKET_COUNT, 0) { assert id in OfKind(m, {}, Tried); }
  }

  // ---------------------------------------------------------------- the new table

  ghost function SlotsSeen(news: Table, id: nat, n: nat, i: nat): set<Slot> {
    set s | s in news && news[s] == id && Before(s, n, i)
  }

  /** What is left of the references of an entry after the slots that have been met. */
  ghost predicate Balanced(news: Table, refs: map<nat, int>, left: map<nat, int>, id: nat, n: nat, i: nat) {
    && id in refs && refs[id] > 0 && (id in left ==> left[id] > 0)
    && |SlotsSeen(news, id, n, i)| + (if id in left then left[id] else 0) == refs[id]
  }

  ghost predicate NewSeen(k: Config, m: Infos, news: Table, refs: map<nat, int>, left: map<nat, int>, n: nat, i: nat) {
    && left.Keys <= refs.Keys
    && (forall s :: s in news && Before(s, n, i) ==> StandsAt(k, m, s, news[s]))
    && (forall id :: id in refs ==> Balanced(news, refs, left, id, n, i))
  }

  function Spent(left: map<nat, int>, id: nat): map<nat, int>
    requires id in left
  {
    if left[id] - 1 == 0 then left - {id} else left[id := left[id] - 1]
  }

  ghost predicate RefsInRange(m: Infos) {
    forall id :: id in m ==> if m[id].inTried then m[id].refCount == 0 else 0 < m[id].refCount <= NEW_BUCKETS_PER_ADDRESS
  }

  method ScanNew(man: AddrMan, mapNew0: map<nat, int>) returns (code: int, mapNew: map<nat, int>)
    requires References(man.mapInfo, mapNew0) && RefsInRange(man.mapInfo) && Within(man.vvNew, NEW_BUCKET_COUNT)
    ensures code == 0 && mapNew == map[] <==> NewOk(man.config, man.mapInfo, man.vvNew) && RefsOk(man.mapInfo, man.vvNew, {})
  {
    hide NewSeen, Position, References, RefsInRange, NewOk, RefsOk, Within;
    ghost var k, m, news := man.config, man.mapInfo, man.vvNew;
    mapNew := mapNew0;
    NoneSeen(k, m, news, mapNew0);
    var n: nat := 0;
    while n < NEW_BUCKET_COUNT
      invariant n <= NEW_BUCKET_COUNT && NewSeen(k, m, news, mapNew0, mapNew, n, 0)
    {
      var i: nat := 0;
      while i < BUCKET_SIZE
        invariant i <= BUCKET_SIZE && NewSeen(k, m, news, mapNew0, mapNew, n, i)
      {
        var slot := Slot(n, i);
        NewVisit(k, m, news, mapNew0, mapNew, n, i);
        if slot in man.vvNew {
          var id := man.vvNew[slot];
          if id !in mapNew { return -12, mapNew; }
          if id !in man.mapInfo || Position(man.config, true, n, man.mapInfo[id].addr) != i { return -19, mapNew; }
          mapNew := Spent(mapNew, id);
        }
        i := i + 1;
      }
      NewRow(k, m, news, mapNew0, mapNew, n);
      n := n + 1;
    }
    NewDone(k, m, news, mapNew0, mapNew);
    code := 0;
  }

  lemma NoneSeen(k: Config, m: Infos, news: Table, refs: map<nat, int>)
    requires References(m, refs) && RefsInRange(m)
    ensures NewSeen(k, m, news, refs, refs, 0, 0)
  {
    hide StandsAt;
    forall id | id in refs ensures Balanced(news, refs, refs, id, 0, 0) {
      assert id in OfKind(m, {}, New);
      assert SlotsSeen(news, id, 0, 0) == {};
    }
  }

  lemma SeenStep(news: Table, id: nat, n: nat, i: nat)
    ensures var slot := Slot(n, i);
      SlotsSeen(news, id, n, i + 1) == if slot in news && news[slot] == id then SlotsSeen(news, id, n, i) + {slot} else SlotsSeen(news, id, n, i)
    ensures Slot(n, i) in news && news[Slot(n, i)] == id ==> |SlotsSeen(news, id, n, i + 1)| == |SlotsSeen(news, id, n, i)| + 1
  {
    var slot := Slot(n, i);
    assert SlotsSeen(news, id, n, i + 1) == if slot in news && news[slot] == id then SlotsSeen(news, id, n, i) + {slot} else SlotsSeen(news, id, n, i);
  }

  /** What a visited slot must hold, and what is known after it. */
  lemma NewVisit(k: Config, m: Infos, news: Table, refs: map<nat, int>, left: map<nat, int>, n: nat, i: nat)
    requires NewSeen(k, m, news, refs, left, n, i) && References(m, refs) && n < NEW_BUCKET_COUNT
    ensures var slot := Slot(n, i);
      if slot !in news then NewSeen(k, m, news, refs, left, n, i + 1)
      else
        var id := news[slot];
        if id in left && id in m && Position(k, true, n, m[id].addr) == i
        then NewSeen(k, m, news, refs, Spent(left, id), n, i + 1)
        else !(NewOk(k, m, news) && RefsOk(m, news, {}))
  {
    hide Position, NewOk, RefsOk, SlotsSeen, NewSeen;
    var slot := Slot(n, i);
    if slot !in news {
      SeenMore(k, m, news, refs, left, left, n, i);
    } else {
      var id := news[slot];
      if id in left && id in m && Position(k, true, n, m[id].addr) == i {
        LeftIsNew(k, m, news, refs, left, n, i, id);
        SeenMore(k, m, news, refs, left, Spent(left, id), n, i);
      } else if NewOk(k, m, news) && RefsOk(m, news, {}) {
        StillLeft(k, m, news, refs, left, n, i);
      }
    }
  }

  lemma LeftIsNew(k: Config, m: Infos, news: Table, refs: map<nat, int>, left: map<nat, int>, n: nat, i: nat, id: nat)
    requires NewSeen(k, m, news, refs, left, n, i) && References(m, refs) && id in left
    ensures id in refs && id in m && !m[id].inTried && left[id] > 0
  {
    hide SlotsSeen;
    assert id in OfKind(m, {}, New);
    assert Balanced(news, refs, left, id, n, i);
  }

  lemma SeenMore(k: Config, m: Infos, news: Table, refs: map<nat, int>, left: map<nat, int>, left': map<nat, int>, n: nat, i: nat)
    requires NewSeen(k, m, news, refs, left, n, i)
    requires var slot := Slot(n, i);
      if slot !in news then left' == left
      else StandsAt(k, m, slot, news[slot]) && news[slot] in refs && news[slot] in left && left[news[slot]] > 0 && left' == Spent(left, news[slot])
    ensures NewSeen(k, m, news, refs, left', n, i + 1)
  {
    hide SlotsSeen, StandsAt;
    var slot := Slot(n, i);
    forall s | s in news && Before(s, n, i + 1) && s != slot ensures StandsAt(k, m, s, news[s]) { assert Before(s, n, i); }
    forall id | id in refs ensures Balanced(news, refs, left', id, n, i + 1) {
      assert Balanced(news, refs, left, id, n, i);
      SeenStep(news, id, n, i);
    }
  }

  /** In a right table an entry still has a reference left when one of its slots is met. */
  lemma StillLeft(k: Config, m: Infos, news: Table, refs: map<nat, int>, left: map<nat, int>, n: nat, i: nat)
    requires NewSeen(k, m, news, refs, left, n, i) && References(m, refs) && NewOk(k, m, news) && RefsOk(m, news, {}) && Slot(n, i) in news
    ensures var id := news[Slot(n, i)]; id in left && id in m && Position(k, true, n, m[id].addr) == i
  {
    hide Position, RefsOk;
    var slot := Slot(n, i);
    var id := news[slot];
    assert StandsAt(k, m, slot, id);
    assert id in OfKind(m, {}, New) && id in refs;
    assert Balanced(news, refs, left, id, n, i);
    RefsFor(m, news, {}, id);
    var a, b := SlotsSeen(news, id, n, i), SlotsOf(news, id);
    assert slot in b && a <= b - {slot};
    SubsetSize(a, b - {slot});
    assert b == b - {slot} + {slot};
  }

  lemma NewRow(k: Config, m: Infos, news: Table, refs: map<nat, int>, left: map<nat, int>, n: nat)
    requires NewSeen(k, m, news, refs, left, n, BUCKET_SIZE) && Within(news, NEW_BUCKET_COUNT)
    ensures NewSeen(k, m, news, refs, left, n + 1, 0)
  {
    hide StandsAt;
    forall s | s in news && Before(s, n + 1, 0) ensures StandsAt(k, m, s, news[s]) { assert Before(s, n, BUCKET_SIZE); }
    forall id | id in refs ensures Balanced(news, refs, left, id, n + 1, 0) {
      assert Balanced(news, refs, left, id, n, BUCKET_SIZE);
      assert SlotsSeen(news, id, n + 1, 0) == SlotsSeen(news, id, n, BUCKET_SIZE);
    }
  }

  lemma NewDone(k: Config, m: Infos, news: Table, refs: map<nat, int>, left: map<nat, int>)
    requires NewSeen(k, m, news, refs, left, NEW_BUCKET_COUNT, 0) && Within(news, NEW_BUCKET_COUNT) && References(m, refs) && RefsInRange(m)
    ensures left == map[] <==> NewOk(k, m, news) && RefsOk(m, news, {})
  {
    hide StandsAt, SlotsOf, SlotsSeen;
    forall s | s in news ensures StandsAt(k, m, s, news[s]) { assert Before(s, NEW_BUCKET_COUNT, 0); }
    forall id | id in m ensures if m[id].inTried then SlotsOf(news, id) == {} else Balance(news, left, id, m[id].refCount) {
      if m[id].inTried {
        NoSlots(k, m, news, id);
      } else {
        assert id in OfKind(m, {}, New);
        assert Balanced(news, refs, left, id, NEW_BUCKET_COUNT, 0);
        AllSeen(news, id);
      }
    }
    forall id | id in left ensures id in m && !m[id].inTried { assert id in OfKind(m, {}, New); }
    if RefsOk(m, news, {}) {
      forall id | id in m && !m[id].inTried ensures id !in left { assert CountedRefs(m[id], |SlotsOf(news, id)|, false); }
    }
  }

  /** The references that were counted, and what is left. */
  ghost predicate Balance(news: Table, left: map<nat, int>, id: nat, refs: int) {
    (id in left ==> left[id] > 0) && |SlotsOf(news, id)| + (if id in left then left[id] else 0) == refs
  }

  lemma AllSeen(news: Table, id: nat)
    requires Within(news, NEW_BUCKET_COUNT)
    ensures SlotsSeen(news, id, NEW_BUCKET_COUNT, 0) == SlotsOf(news, id)
  {}

  // ---------------------------------------------------------------- the whole check

  /** The check passes exactly the states that are Checked. */
  method CheckAddrman(man: AddrMan) returns (code: int)
    requires Shaped(man)
    ensures code == 0 <==> Checked(man)
  {
    hide EntriesOk, Collected, CountOf, References, RefsInRange, OfKind, NetsOf, NetsOk, NetOk, TriedOk, NewOk, RefsOk, Within;
    if |man.vRandom| != man.nTried + man.nNew { return -7; }
    var setTried, mapNew, local;
    code, setTried, mapNew, local := ScanEntries(man);
    if code != 0 { return; }
    CollectedIs(man, setTried, mapNew, local);
    if |setTried| != man.nTried { return -9; }
    if |mapNew| != man.nNew { return -10; }
    var setTried', mapNew';
    code, setTried' := ScanTried(man, setTried);
    if code != 0 { return; }
    code, mapNew' := ScanNew(man, mapNew);
    if code != 0 { return; }
    if setTried' != {} { return -13; }
    if mapNew' != map[] { return -15; }
    if |man.networkCounts| < |local| { return -20; }
    var todo := man.networkCounts.Keys;
    while todo != {}
      invariant todo <= man.networkCounts.Keys
      invariant forall net :: net in man.networkCounts && net !in todo ==> NetOk(man.mapInfo, {}, man.networkCounts, net)
    {
      var net :| net in todo;
      NetIs(man.mapInfo, local, man.networkCounts, net);
      if CountOf(local, net) != man.networkCounts[net] { return -21; }
      todo := todo - {net};
    }
    code := 0;
  }

  lemma CollectedIs(man: AddrMan, setTried: set<nat>, mapNew: map<nat, int>, local: map<nat, Counts>)
    requires EntriesOk(man) && Collected(man.mapInfo, setTried, mapNew, local)
    ensures setTried == OfKind(man.mapInfo, {}, Tried) && References(man.mapInfo, mapNew) && NetsOk(man.mapInfo, {}, local)
    ensures |mapNew| == |OfKind(man.mapInfo, {}, New)| && |local| == |NetsOf(man.mapInfo)| && RefsInRange(man.mapInfo)
  {
    hide OfKind, NetsOk, NetsOf;
    assert |mapNew| == |mapNew.Keys| && |local| == |local.Keys|;
    forall id | id in man.mapInfo
      ensures if man.mapInfo[id].inTried then man.mapInfo[id].refCount == 0 else 0 < man.mapInfo[id].refCount <= NEW_BUCKETS_PER_ADDRESS
    {
      assert EntryOk(man, id);
    }
  }

  lemma NetIs(m: Infos, local: map<nat, Counts>, counts: map<nat, Counts>, net: nat)
    requires NetsOk(m, {}, local) && net in counts
    ensures CountOf(local, net) == counts[net] <==> NetOk(m, {}, counts, net)
  {
    hide OfNet;
    assert NetOk(m, {}, local, net);
  }

  // ---------------------------------------------------------------- what the check does not see

  /** What a consistent state has beyond what is checked. */
  ghost predicate Unchecked(man: AddrMan)
    reads man
  {
    && (forall a :: a in man.mapAddr ==> man.mapAddr[a] in man.mapInfo && man.mapInfo[man.mapAddr[a]].addr == a)
    && NetsOf(man.mapInfo) <= man.networkCounts.Keys && IdsOk(man.config, man.mapInfo, man.nIdCount)
  }

  /**
   * A state is consistent exactly if it passes the check and in addition no stray address is listed,
   * the network of every entry is counted, and ids and addresses are ones that were given out.
   */
  lemma CheckedIs(man: AddrMan)
    ensures Consistent(man.config, man.Snapshot(), {}, {}) <==> Checked(man) && Unchecked(man)
  {
    hide EntriesOk, CountOf, NetsOf, NetsChecked, TriedOk, NewOk, RefsOk, Within, Consistent, Checked, Unchecked;
    if Consistent(man.config, man.Snapshot(), {}, {}) { ConsistentIsChecked(man); }
    if Checked(man) && Unchecked(man) { CheckedIsConsistent(man); }
  }

  lemma ConsistentIsChecked(man: AddrMan)
    requires Consistent(man.config, man.Snapshot(), {}, {})
    ensures Checked(man) && Unchecked(man)
  {
    hide AddrOk, RandomOk, TriedOk, NewOk, RefsOk, TimesOk, NetsOk, OfKind, EntryOk, IdsOk, NetsOf;
    forall id | id in man.mapInfo ensures EntryOk(man, id) { EntryFor(man, id); }
    Sizes(man.mapInfo, man.vRandom);
    NetsListed(man.mapInfo, man.networkCounts);
    AddrsBoth(man.mapInfo, man.mapAddr);
  }

  lemma AddrsBoth(m: Infos, addrs: map<Service, nat>)
    requires AddrOk(m, addrs)
    ensures forall a :: a in addrs ==> addrs[a] in m && m[addrs[a]].addr == a
  {}

  lemma EntryFor(man: AddrMan, id: nat)
    requires Consistent(man.config, man.Snapshot(), {}, {}) && id in man.mapInfo
    ensures EntryOk(man, id)
  {
    hide TriedOk, NewOk, IdsOk, CountsOk, SlotsOf;
    RefsFor(man.mapInfo, man.vvNew, {}, id);
  }

  lemma NetsListed(m: Infos, counts: map<nat, Counts>)
    requires NetsOk(m, {}, counts)
    ensures NetsOf(m) <= counts.Keys && NetsChecked(m, counts)
  {
    forall net | net in NetsOf(m) ensures net in counts {
      var id :| id in m && m[id].addr.ip.net == net;
      assert NetOk(m, {}, counts, net);
      assert id in OfNet(m, {}, New, net) || id in OfNet(m, {}, Tried, net);
    }
    SubsetSize(NetsOf(m), counts.Keys);
    assert |counts| == |counts.Keys|;
  }

  lemma CheckedIsConsistent(man: AddrMan)
    requires Checked(man) && Unchecked(man)
    ensures Consistent(man.config, man.Snapshot(), {}, {})
  {
    hide TriedOk, NewOk, RefsOk, NetsOk, NetsChecked, OfKind, IdsOk, NetsOf, RandomOk;
    forall id | id in man.mapInfo ensures EntryOk(man, id) {}
    EveryPlace(man.mapInfo, man.vRandom);
    AllNets(man.mapInfo, man.networkCounts);
  }

  lemma AllNets(m: Infos, counts: map<nat, Counts>)
    requires NetsChecked(m, counts) && NetsOf(m) <= counts.Keys
    ensures NetsOk(m, {}, counts)
  {
    forall net ensures NetOk(m, {}, counts, net) {
      if net !in counts {
        assert net !in NetsOf(m);
        assert OfNet(m, {}, New, net) == {} && OfNet(m, {}, Tried, net) == {};
      }
    }
  }

  /** Entries that all have a place, as many as there are places, fill every place. */
  lemma EveryPlace(m: Infos, random: seq<nat>)
    requires forall id :: id in m ==> 0 <= m[id].randomPos < |random| && random[m[id].randomPos] == id
    requires |random| == |OfKind(m, {}, Tried)| + |OfKind(m, {}, New)|
    ensures RandomOk(m, random)
  {
    BothKinds(m);
    var ids := m.Keys;
    var places := Places(m, ids);
    PlacesSize(m, random, ids);
    BelowSize(|random|);
    assert places <= Below(|random|);
    SameSizeSubset(places, Below(|random|));
    forall i | 0 <= i < |random| ensures random[i] in m && m[random[i]].randomPos == i {
      assert i in Below(|random|) && i in places;
    }
  }

  ghost function Places(m: Infos, ids: set<nat>): set<nat> { set id | id in ids && id in m && m[id].randomPos >= 0 :: m[id].randomPos }

  lemma {:induction false} PlacesSize(m: Infos, random: seq<nat>, ids: set<nat>)
    requires ids <= m.Keys && forall id :: id in m ==> 0 <= m[id].randomPos < |random| && random[m[id].randomPos] == id
    ensures |Places(m, ids)| == |ids|
  {
    if ids == {} {
      assert Places(m, ids) == {};
    } else {
      var x :| x in ids;
      PlacesSize(m, random, ids - {x});
      assert Places(m, ids) == Places(m, ids - {x}) + {m[x].randomPos};
      assert m[x].randomPos !in Places(m, ids - {x});
    }
  }

  lemma BothKinds(m: Infos)
    ensures |OfKind(m, {}, New)| + |OfKind(m, {}, Tried)| == |m.Keys|
  {
    var a, b := OfKind(m, {}, New), OfKind(m, {}, Tried);
    assert a !! b && a + b == m.Keys;
  }

  /** The random order lists every entry once. */
  lemma Sizes(m: Infos, random: seq<nat>)
    requires RandomOk(m, random)
    ensures |random| == |OfKind(m, {}, New)| + |OfKind(m, {}, Tried)|
  {
    BothKinds(m);
    forall i, j | 0 <= i < j < |random| ensures random[i] != random[j] { assert m[random[i]].randomPos == i; }
    DistinctSize(random);
    forall id | id in m ensures id in random { assert random[m[id].randomPos] == id; }
    assert Elems(random) == m.Keys;
  }

  /** A valid manager passes. */
  lemma ValidIsChecked(man: AddrMan)
    requires man.Valid()
    ensures Checked(man) && Shaped(man)
  {
    hide Consistent, CollisionsOk, Checked, Unchecked, Within;
    CheckedIs(man);
    ValidIsShaped(man);
  }

  lemma ValidIsShaped(man: AddrMan)
    requires man.Valid()
    ensures Shaped(man)
  {
    hide AddrOk, RandomOk, RefsOk, TimesOk, IdsOk, CountsOk, CollisionsOk;
  }

  // ---------------------------------------------------------------- runs

  datatype Op =
    | AddOp(addrs: seq<Address>, source: NetAddr, penalty: int)
    | GoodOp(addr: Service)
    | AttemptOp(addr: Service, countFailure: bool)
    | ConnectedOp(addr: Service)
    | SetServicesOp(addr: Service, services: set<nat>)
    | GetAddrOp(maxAddresses: nat, maxPct: nat, network: Option<nat>, filtered: bool)
    | ResolveOp
    | SelectCollisionOp

  method Perform(man: AddrMan, op: Op, now: int)
    requires man.Valid() && now > 0
    modifies man
    ensures man.Valid() && old(man.vvTried).Keys <= man.vvTried.Keys
  {
    hide Consistent, CollisionsOk;
    match op
    case AddOp(addrs, source, penalty) => var _, _, _ := man.Add(addrs, source, penalty, now);
    case GoodOp(addr) => var _ := man.Good(addr, true, now);
    case AttemptOp(addr, countFailure) => man.Attempt(addr, countFailure, now);
    case ConnectedOp(addr) => man.Connected(addr, now);
    case SetServicesOp(addr, services) => man.SetServices(addr, services);
    case GetAddrOp(maxAddresses, maxPct, network, filtered) => var _ := man.GetAddr(maxAddresses, maxPct, network, filtered, now);
    case ResolveOp => var _, _ := man.ResolveCollisions(now);
    case SelectCollisionOp => var _ := man.SelectTriedCollision();
  }

  /** After every operation of every run at positive times the check finds nothing wrong, and occupied tried slots stay occupied. */
  method Run(man: AddrMan, ops: seq<Op>, times: seq<int>) returns (codes: seq<int>)
    requires man.Valid() && |times| == |ops| && forall i :: 0 <= i < |times| ==> times[i] > 0
    modifies man
    ensures man.Valid() && old(man.vvTried).Keys <= man.vvTried.Keys
    ensures |codes| == |ops| && forall i :: 0 <= i < |codes| ==> codes[i] == 0
  {
    hide AddrMan.Valid, Checked, Shaped;
    codes := [];
    var i := 0;
    while i < |ops|
      invariant 0 <= i <= |ops| && man.Valid() && old(man.vvTried).Keys <= man.vvTried.Keys
      invariant |codes| == i && forall j :: 0 <= j < i ==> codes[j] == 0
    {
      Perform(man, ops[i], times[i]);
      ValidIsChecked(man);
      var code := CheckAddrman(man);
      codes := codes + [code];
      i := i + 1;
    }
  }
}
