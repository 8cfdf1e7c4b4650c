// The elementary changes of the address manager's tables, as functions on their values, and what each keeps.
// While entries are being created or moved, some are pending (in no table) and some in limbo (not counted either).
module AddrSteps {
  import opened AddrTables

  datatype State = State(
    idCount: nat, infos: Infos, addrs: map<Service, nat>, random: seq<nat>, tried: Table, news: Table,
    total: Counts, counts: map<nat, Counts>)

  const EMPTY := State(0, map[], map[], [], map[], map[], Counts(0, 0), map[])

  ghost predicate Consistent(k: Config, s: State, pending: set<nat>, limbo: set<nat>) {
    && AddrOk(s.infos, s.addrs) && RandomOk(s.infos, s.random) && TriedOk(k, s.infos, s.tried) && NewOk(k, s.infos, s.news)
    && RefsOk(s.infos, s.news, pending) && TimesOk(s.infos) && IdsOk(k, s.infos, s.idCount)
    && CountsOk(s.infos, limbo, s.total, s.counts)
    && limbo <= pending && Loose(s.infos, pending)
  }

  /** Pending entries exist and are in no table. */
  ghost predicate Loose(m: Infos, pending: set<nat>) {
    forall id :: id in pending ==> id in m && !m[id].inTried && m[id].refCount == 0
  }

  // ---------------------------------------------------------------- the change of one entry

  /** What a change of one entry must leave alone for most of the tables. */
  predicate SameAddr(m: Infos, id: nat, x: AddrInfo) { id in m && x.addr == m[id].addr }

  lemma AddrUpdate(m: Infos, addrs: map<Service, nat>, id: nat, x: AddrInfo)
    requires AddrOk(m, addrs) && SameAddr(m, id, x)
    ensures AddrOk(m[id := x], addrs)
  {}

  lemma RandomUpdate(m: Infos, random: seq<nat>, id: nat, x: AddrInfo)
    requires RandomOk(m, random) && id in m && x.randomPos == m[id].randomPos
    ensures RandomOk(m[id := x], random)
  {}

  lemma TriedUpdate(k: Config, m: Infos, tried: Table, id: nat, x: AddrInfo)
    requires TriedOk(k, m, tried) && SameAddr(m, id, x) && x.inTried == m[id].inTried
    ensures TriedOk(k, m[id := x], tried)
  {}

  lemma NewUpdate(k: Config, m: Infos, news: Table, id: nat, x: AddrInfo)
    requires NewOk(k, m, news) && SameAddr(m, id, x) && x.inTried == m[id].inTried
    ensures NewOk(k, m[id := x], news)
  {
    hide Position;
  }

  lemma IdsUpdate(k: Config, m: Infos, idCount: nat, id: nat, x: AddrInfo)
    requires IdsOk(k, m, idCount) && SameAddr(m, id, x)
    ensures IdsOk(k, m[id := x], idCount)
  {}

  lemma TimesUpdate(m: Infos, id: nat, x: AddrInfo)
    requires TimesOk(m) && Timely(x)
    ensures TimesOk(m[id := x])
  {}

  /** The slots of the entry may change, those of others not. */
  lemma RefsUpdate(m: Infos, news: Table, pending: set<nat>, news': Table, pending': set<nat>, id: nat, x: AddrInfo)
    requires RefsOk(m, news, pending) && CountedRefs(x, |SlotsOf(news', id)|, id in pending')
    requires pending - {id} == pending' - {id}
    requires forall q :: q in m && q != id ==> SlotsOf(news', q) == SlotsOf(news, q)
    ensures RefsOk(m[id := x], news', pending')
  {
    hide CountedRefs, SlotsOf;
    forall q | q in m && q != id ensures CountedRefs(m[q], |SlotsOf(news', q)|, q in pending') {
      assert CountedRefs(m[q], |SlotsOf(news, q)|, q in pending);
      assert q in pending <==> q in pending - {id};
      assert q in pending' <==> q in pending' - {id};
    }
  }

  lemma LooseUpdate(m: Infos, pending: set<nat>, pending': set<nat>, id: nat, x: AddrInfo)
    requires Loose(m, pending) && pending' - {id} <= pending && (id in pending' ==> !x.inTried && x.refCount == 0)
    ensures Loose(m[id := x], pending')
  {
    forall q | q in pending' && q != id ensures q in pending { assert q in pending' - {id}; }
  }

  lemma KindUpdate(m: Infos, limbo: set<nat>, limbo': set<nat>, id: nat, x: AddrInfo)
    requires limbo - {id} == limbo' - {id}
    ensures OnlyKind(m, limbo, m[id := x], limbo', id)
  {
    forall q | q != id ensures q in limbo <==> q in limbo' {
      assert q in limbo <==> q in limbo - {id};
      assert q in limbo' <==> q in limbo' - {id};
    }
  }

  /** Statistics of an entry that no table depends on. */
  lemma SoftUpdate(k: Config, s: State, pending: set<nat>, limbo: set<nat>, id: nat, x: AddrInfo)
    requires Consistent(k, s, pending, limbo) && SameAddr(s.infos, id, x) && Timely(x)
    requires x.refCount == s.infos[id].refCount && x.inTried == s.infos[id].inTried && x.randomPos == s.infos[id].randomPos
    ensures Consistent(k, s.(infos := s.infos[id := x]), pending, limbo)
  {
    hide AddrOk, RandomOk, TriedOk, NewOk, RefsOk, TimesOk, IdsOk, CountsOk, Loose;
    AddrUpdate(s.infos, s.addrs, id, x);
    RandomUpdate(s.infos, s.random, id, x);
    TriedUpdate(k, s.infos, s.tried, id, x);
    NewUpdate(k, s.infos, s.news, id, x);
    IdsUpdate(k, s.infos, s.idCount, id, x);
    TimesUpdate(s.infos, id, x);
    RefsFor(s.infos, s.news, pending, id);
    RefsUpdate(s.infos, s.news, pending, s.news, pending, id, x);
    LooseFor(s.infos, pending, id);
    LooseUpdate(s.infos, pending, pending, id, x);
    SameCounts(s.infos, limbo, s.total, s.counts, s.infos[id := x]);
  }

  lemma RefsFor(m: Infos, news: Table, pending: set<nat>, id: nat)
    requires RefsOk(m, news, pending) && id in m
    ensures CountedRefs(m[id], |SlotsOf(news, id)|, id in pending)
  {}

  lemma LooseFor(m: Infos, pending: set<nat>, id: nat)
    requires Loose(m, pending)
    ensures id in pending ==> id in m && !m[id].inTried && m[id].refCount == 0
  {}

  // ---------------------------------------------------------------- creating an entry

  function Created(s: State, info: AddrInfo): State {
    s.(idCount := s.idCount + 1, infos := s.infos[s.idCount := info], addrs := s.addrs[info.addr := s.idCount], random := s.random + [s.idCount],
       total := Shift(s.total, Nowhere, New),
       counts := s.counts[info.addr.ip.net := Shift(CountOf(s.counts, info.addr.ip.net), Nowhere, New)])
  }

  lemma CreateKeeps(k: Config, s: State, pending: set<nat>, limbo: set<nat>, info: AddrInfo)
    requires Consistent(k, s, pending, limbo) && info.addr !in s.addrs && k.routable(info.addr) && Timely(info)
    requires info.refCount == 0 && !info.inTried && info.randomPos == |s.random|
    ensures s.idCount !in s.infos && Consistent(k, Created(s, info), pending + {s.idCount}, limbo)
  {
    hide AddrOk, RandomOk, TriedOk, NewOk, RefsOk, TimesOk, IdsOk, CountsOk, Loose, KindOf, CountOf, Shift, SlotsOf;
    var id, m := s.idCount, s.infos;
    NewId(k, s);
    CreateIndexes(m, s.addrs, s.random, id, info);
    CreateTables(k, m, s.tried, s.news, id, info);
    CreateIds(k, m, s.idCount, info);
    TimesUpdate(m, id, info);
    NoSlots(k, m, s.news, id);
    RefsUpdate(m, s.news, pending, s.news, pending + {id}, id, info);
    LooseUpdate(m, pending, pending + {id}, id, info);
    NotLoose(m, pending, id);
    KindUpdate(m, limbo, limbo, id, info);
    assert KindOf(m, limbo, id) == Nowhere && KindOf(m[id := info], limbo, id) == New by { CreateKind(m, limbo, id, info); }
    var s' := Created(s, info);
    Recount(m, limbo, s.total, s.counts, s'.infos, limbo, s'.total, s'.counts, id, info.addr.ip.net);
  }

  lemma NewId(k: Config, s: State)
    requires IdsOk(k, s.infos, s.idCount)
    ensures s.idCount !in s.infos
  {}

  lemma CreateIndexes(m: Infos, addrs: map<Service, nat>, random: seq<nat>, id: nat, info: AddrInfo)
    requires AddrOk(m, addrs) && RandomOk(m, random) && id !in m && info.addr !in addrs && info.randomPos == |random|
    ensures AddrOk(m[id := info], addrs[info.addr := id]) && RandomOk(m[id := info], random + [id])
  {}

  lemma CreateTables(k: Config, m: Infos, tried: Table, news: Table, id: nat, info: AddrInfo)
    requires TriedOk(k, m, tried) && NewOk(k, m, news) && id !in m && !info.inTried
    ensures TriedOk(k, m[id := info], tried) && NewOk(k, m[id := info], news)
  {
    hide Position, TriedSlot;
  }

  lemma CreateIds(k: Config, m: Infos, idCount: nat, info: AddrInfo)
    requires IdsOk(k, m, idCount) && k.routable(info.addr)
    ensures IdsOk(k, m[idCount := info], idCount + 1)
  {}

  lemma NoSlots(k: Config, m: Infos, news: Table, id: nat)
    requires NewOk(k, m, news) && (id in m ==> m[id].inTried)
    ensures SlotsOf(news, id) == {}
  {
    hide Position;
  }

  lemma NotLoose(m: Infos, pending: set<nat>, id: nat)
    requires Loose(m, pending) && id !in m
    ensures id !in pending
  {}

  lemma CreateKind(m: Infos, limbo: set<nat>, id: nat, info: AddrInfo)
    requires id !in m && id !in limbo && !info.inTried
    ensures KindOf(m, limbo, id) == Nowhere && KindOf(m[id := info], limbo, id) == New
  {}

  /** A new entry that is in the tried table at once. */
  function CreatedTried(k: Config, s: State, info: AddrInfo): State {
    s.(idCount := s.idCount + 1, infos := s.infos[s.idCount := info], addrs := s.addrs[info.addr := s.idCount], random := s.random + [s.idCount],
       tried := s.tried[TriedSlot(k, info.addr) := s.idCount], total := Shift(s.total, Nowhere, Tried),
       counts := s.counts[info.addr.ip.net := Shift(CountOf(s.counts, info.addr.ip.net), Nowhere, Tried)])
  }

  lemma CreateTriedKeeps(k: Config, s: State, pending: set<nat>, info: AddrInfo)
    requires Consistent(k, s, pending, {}) && info.addr !in s.addrs && k.routable(info.addr) && Timely(info)
    requires info.refCount == 0 && info.inTried && info.randomPos == |s.random| && TriedSlot(k, info.addr) !in s.tried
    ensures s.idCount !in s.infos && Consistent(k, CreatedTried(k, s, info), pending, {})
  {
    hide AddrOk, RandomOk, TriedOk, NewOk, RefsOk, TimesOk, IdsOk, CountsOk, Loose, KindOf, CountOf, Shift, SlotsOf, TriedSlot;
    var id, m := s.idCount, s.infos;
    NewId(k, s);
    CreateIndexes(m, s.addrs, s.random, id, info);
    CreateInTried(k, m, s.tried, s.news, id, info);
    CreateIds(k, m, s.idCount, info);
    TimesUpdate(m, id, info);
    NoSlots(k, m, s.news, id);
    NotLoose(m, pending, id);
    RefsUpdate(m, s.news, pending, s.news, pending, id, info);
    LooseUpdate(m, pending, pending, id, info);
    KindUpdate(m, {}, {}, id, info);
    assert KindOf(m, {}, id) == Nowhere && KindOf(m[id := info], {}, id) == Tried by { TriedKind(m, id, info); }
    var s' := CreatedTried(k, s, info);
    Recount(m, {}, s.total, s.counts, s'.infos, {}, s'.total, s'.counts, id, info.addr.ip.net);
  }

  lemma CreateInTried(k: Config, m: Infos, tried: Table, news: Table, id: nat, info: AddrInfo)
    requires TriedOk(k, m, tried) && NewOk(k, m, news) && id !in m && info.inTried && TriedSlot(k, info.addr) !in tried
    ensures TriedOk(k, m[id := info], tried[TriedSlot(k, info.addr) := id]) && NewOk(k, m[id := info], news)
  {
    hide Position, TriedSlot;
  }

  lemma TriedKind(m: Infos, id: nat, info: AddrInfo)
    requires id !in m && info.inTried
    ensures KindOf(m, {}, id) == Nowhere && KindOf(m[id := info], {}, id) == Tried
  {}

  // ---------------------------------------------------------------- the random order

  function Swapped(s: State, i: nat, j: nat): (t: State)
    requires i < |s.random| && j < |s.random| && s.random[i] in s.infos && s.random[j] in s.infos
    ensures |t.random| == |s.random| && t == s.(infos := t.infos, random := t.random)
  {
    if i == j then s
    else
      var a, b := s.random[i], s.random[j];
      var m := s.infos[a := s.infos[a].(randomPos := j)];
      s.(infos := m[b := m[b].(randomPos := i)], random := s.random[i := b][j := a])
  }

  /** Entries that differ at most in their place in the random order. */
  ghost predicate SameButRandom(m: Infos, m': Infos) {
    m'.Keys == m.Keys && forall id :: id in m ==> m'[id] == m[id].(randomPos := m'[id].randomPos)
  }

  lemma ReorderKeeps(k: Config, s: State, pending: set<nat>, limbo: set<nat>, m': Infos)
    requires Consistent(k, s, pending, limbo) && SameButRandom(s.infos, m')
    ensures AddrOk(m', s.addrs) && TriedOk(k, m', s.tried) && NewOk(k, m', s.news) && RefsOk(m', s.news, pending) && TimesOk(m')
    ensures IdsOk(k, m', s.idCount) && CountsOk(m', limbo, s.total, s.counts) && Loose(m', pending)
  {
    hide CountsOk, RefsOk, NewOk, TriedOk;
    SameCounts(s.infos, limbo, s.total, s.counts, m');
    ReorderRefs(s.infos, s.news, pending, m');
    ReorderTables(k, s.infos, s.tried, s.news, m');
  }

  lemma ReorderRefs(m: Infos, news: Table, pending: set<nat>, m': Infos)
    requires RefsOk(m, news, pending) && SameButRandom(m, m')
    ensures RefsOk(m', news, pending)
  {
    hide SlotsOf;
    forall id | id in m' ensures CountedRefs(m'[id], |SlotsOf(news, id)|, id in pending) {
      assert CountedRefs(m[id], |SlotsOf(news, id)|, id in pending);
    }
  }

  lemma ReorderTables(k: Config, m: Infos, tried: Table, news: Table, m': Infos)
    requires TriedOk(k, m, tried) && NewOk(k, m, news) && SameButRandom(m, m')
    ensures TriedOk(k, m', tried) && NewOk(k, m', news)
  {
    hide Position, TriedSlot;
  }

  lemma SwapKeeps(k: Config, s: State, pending: set<nat>, limbo: set<nat>, i: nat, j: nat)
    requires Consistent(k, s, pending, limbo) && i < |s.random| && j < |s.random|
    ensures s.random[i] in s.infos && s.random[j] in s.infos
    ensures Consistent(k, Swapped(s, i, j), pending, limbo) && SameButRandom(s.infos, Swapped(s, i, j).infos)
    ensures RandomOk(Swapped(s, i, j).infos, Swapped(s, i, j).random)
  {
    hide AddrOk, TriedOk, NewOk, RefsOk, TimesOk, IdsOk, CountsOk, Loose;
    assert s.random[i] in s.infos && s.random[j] in s.infos;
    var s' := Swapped(s, i, j);
    SwapRandomOk(s, i, j);
    ReorderKeeps(k, s, pending, limbo, s'.infos);
  }

  lemma SwapRandomOk(s: State, i: nat, j: nat)
    requires RandomOk(s.infos, s.random) && i < |s.random| && j < |s.random| && s.random[i] in s.infos && s.random[j] in s.infos
    ensures RandomOk(Swapped(s, i, j).infos, Swapped(s, i, j).random) && SameButRandom(s.infos, Swapped(s, i, j).infos)
  {
    var s' := Swapped(s, i, j);
    if i != j {
      assert s.random[i] != s.random[j];
      forall id | id in s'.infos ensures 0 <= s'.infos[id].randomPos < |s'.random| && s'.random[s'.infos[id].randomPos] == id {
        assert s.random[s.infos[id].randomPos] == id;
      }
      forall n | 0 <= n < |s'.random| ensures s'.random[n] in s'.infos && s'.infos[s'.random[n]].randomPos == n {
        assert s.random[n] in s.infos && s.infos[s.random[n]].randomPos == n;
      }
    }
  }

  // ---------------------------------------------------------------- deleting an entry

  predicate CanDelete(s: State, id: nat) {
    id in s.infos && 0 <= s.infos[id].randomPos < |s.random| && s.random[s.infos[id].randomPos] in s.infos && s.random[|s.random| - 1] in s.infos
  }

  function Deleted(s: State, id: nat): State
    requires CanDelete(s, id)
  {
    var s1 := Swapped(s, s.infos[id].randomPos, |s.random| - 1);
    var a := s.infos[id].addr;
    s1.(infos := s1.infos - {id}, addrs := s.addrs - {a}, random := s1.random[..|s.random| - 1],
        total := Shift(s.total, New, Nowhere), counts := s.counts[a.ip.net := Shift(CountOf(s.counts, a.ip.net), New, Nowhere)])
  }

  lemma DeleteKeeps(k: Config, s: State, pending: set<nat>, limbo: set<nat>, id: nat)
    requires Consistent(k, s, pending, limbo) && id in pending && id !in limbo
    ensures CanDelete(s, id)
    ensures Consistent(k, Deleted(s, id), pending - {id}, limbo)
    ensures SameButRandom(s.infos - {id}, Deleted(s, id).infos)
  {
    hide AddrOk, RandomOk, TriedOk, NewOk, RefsOk, TimesOk, IdsOk, CountsOk, Loose, KindOf, CountOf, Swapped;
    LooseFor(s.infos, pending, id);
    RandomFor(s.infos, s.random, id);
    var i, j := s.infos[id].randomPos, |s.random| - 1;
    var t := Swapped(s, i, j);
    SwapKeeps(k, s, pending, limbo, i, j);
    SwapLast(s, id);
    var m: Infos := t.infos;
    DropIndexes(m, t.addrs, t.random, id);
    NoSlotsLoose(s.infos, s.news, pending, id);
    DropTables(k, m, t.tried, t.news, id);
    DropRefs(k, m, t.news, pending, id);
    DropKind(m, limbo, id);
    var s' := Deleted(s, id);
    Recount(m, limbo, t.total, t.counts, m - {id}, limbo, s'.total, s'.counts, id, m[id].addr.ip.net);
  }

  lemma RandomFor(m: Infos, random: seq<nat>, id: nat)
    requires RandomOk(m, random) && id in m
    ensures 0 <= m[id].randomPos < |random| && random[m[id].randomPos] == id && random[|random| - 1] in m
  {}

  lemma SwapLast(s: State, id: nat)
    requires id in s.infos && RandomOk(s.infos, s.random)
    requires 0 <= s.infos[id].randomPos < |s.random| && s.random[s.infos[id].randomPos] == id && s.random[|s.random| - 1] in s.infos
    ensures var t := Swapped(s, s.infos[id].randomPos, |s.random| - 1);
      && |t.random| == |s.random| && t.random[|t.random| - 1] == id && id in t.infos
      && t == s.(infos := t.infos, random := t.random) && t.infos[id].addr == s.infos[id].addr && t.infos[id].refCount == s.infos[id].refCount
      && t.infos[id].inTried == s.infos[id].inTried
  {}

  lemma DropIndexes(m: Infos, addrs: map<Service, nat>, random: seq<nat>, id: nat)
    requires AddrOk(m, addrs) && RandomOk(m, random) && id in m && random != [] && random[|random| - 1] == id
    ensures AddrOk(m - {id}, addrs - {m[id].addr}) && RandomOk(m - {id}, random[..|random| - 1])
  {
    var rest := random[..|random| - 1];
    forall q | q in m - {id} ensures 0 <= m[q].randomPos < |rest| && rest[m[q].randomPos] == q {
      assert random[m[q].randomPos] == q;
    }
    forall i | 0 <= i < |rest| ensures rest[i] in m - {id} {
      assert m[random[i]].randomPos == i && m[random[|random| - 1]].randomPos == |random| - 1;
    }
  }

  lemma NoSlotsLoose(m: Infos, news: Table, pending: set<nat>, id: nat)
    requires RefsOk(m, news, pending) && Loose(m, pending) && id in pending
    ensures SlotsOf(news, id) == {}
  {
    assert CountedRefs(m[id], |SlotsOf(news, id)|, id in pending);
  }

  lemma DropTables(k: Config, m: Infos, tried: Table, news: Table, id: nat)
    requires TriedOk(k, m, tried) && NewOk(k, m, news) && id in m && !m[id].inTried && SlotsOf(news, id) == {}
    ensures TriedOk(k, m - {id}, tried) && NewOk(k, m - {id}, news)
  {
    hide Position, TriedSlot;
    forall s | s in news ensures StandsAt(k, m - {id}, s, news[s]) {
      assert s !in SlotsOf(news, id);
      assert StandsAt(k, m, s, news[s]);
    }
  }

  lemma DropRefs(k: Config, m: Infos, news: Table, pending: set<nat>, id: nat)
    requires RefsOk(m, news, pending) && TimesOk(m) && Loose(m, pending)
    ensures RefsOk(m - {id}, news, pending - {id}) && TimesOk(m - {id}) && Loose(m - {id}, pending - {id})
    ensures forall idCount: nat :: IdsOk(k, m, idCount) ==> IdsOk(k, m - {id}, idCount)
  {
    hide SlotsOf;
    forall q | q in m - {id} ensures CountedRefs(m[q], |SlotsOf(news, q)|, q in pending - {id}) {
      assert CountedRefs(m[q], |SlotsOf(news, q)|, q in pending);
    }
  }

  lemma DropKind(m: Infos, limbo: set<nat>, id: nat)
    requires id in m && !m[id].inTried && id !in limbo
    ensures OnlyKind(m, limbo, m - {id}, limbo, id) && KindOf(m, limbo, id) == New && KindOf(m - {id}, limbo, id) == Nowhere
  {}

  // ---------------------------------------------------------------- slots of the new table

  lemma SlotsWithout(news: Table, slot: Slot, q: nat)
    requires slot in news
    ensures SlotsOf(news - {slot}, q) == if q == news[slot] then SlotsOf(news, q) - {slot} else SlotsOf(news, q)
    ensures slot in SlotsOf(news, news[slot]) && |SlotsOf(news, news[slot])| > 0
    ensures |SlotsOf(news - {slot}, news[slot])| == |SlotsOf(news, news[slot])| - 1
  {
    assert slot in SlotsOf(news, news[slot]);
    assert SlotsOf(news - {slot}, q) == if q == news[slot] then SlotsOf(news, q) - {slot} else SlotsOf(news, q);
    assert SlotsOf(news - {slot}, news[slot]) == SlotsOf(news, news[slot]) - {slot};
  }

  lemma SlotsWith(news: Table, slot: Slot, id: nat, q: nat)
    requires slot !in news
    ensures SlotsOf(news[slot := id], q) == if q == id then SlotsOf(news, q) + {slot} else SlotsOf(news, q)
    ensures |SlotsOf(news[slot := id], id)| == |SlotsOf(news, id)| + 1
  {
    assert SlotsOf(news[slot := id], q) == if q == id then SlotsOf(news, q) + {slot} else SlotsOf(news, q);
    assert SlotsOf(news[slot := id], id) == SlotsOf(news, id) + {slot};
  }

  /** The entry in a slot loses this reference. */
  function Unref(s: State, slot: Slot): State
    requires slot in s.news && s.news[slot] in s.infos
  {
    var info := s.infos[s.news[slot]];
    s.(infos := s.infos[s.news[slot] := info.(refCount := info.refCount - 1)], news := s.news - {slot})
  }

  lemma UnrefKeeps(k: Config, s: State, pending: set<nat>, limbo: set<nat>, slot: Slot)
    requires Consistent(k, s, pending, limbo) && slot in s.news
    ensures s.news[slot] in s.infos && s.news[slot] !in pending && s.infos[s.news[slot]].refCount > 0
    ensures var id := s.news[slot]; Consistent(k, Unref(s, slot), if s.infos[id].refCount == 1 then pending + {id} else pending, limbo)
  {
    hide AddrOk, RandomOk, TriedOk, NewOk, RefsOk, TimesOk, IdsOk, CountsOk, Loose, SlotsOf;
    var id, m := s.news[slot], s.infos;
    NewFor(k, m, s.news, slot);
    RefsFor(m, s.news, pending, id);
    SlotsWithout(s.news, slot, id);
    LooseFor(m, pending, id);
    TimesFor(m, id);
    var x := m[id].(refCount := m[id].refCount - 1);
    var pending' := if m[id].refCount == 1 then pending + {id} else pending;
    AddrUpdate(m, s.addrs, id, x);
    RandomUpdate(m, s.random, id, x);
    TriedUpdate(k, m, s.tried, id, x);
    NewUpdate(k, m, s.news, id, x);
    NewFewer(k, m[id := x], s.news, slot);
    IdsUpdate(k, m, s.idCount, id, x);
    TimesUpdate(m, id, x);
    forall q | q in m && q != id ensures SlotsOf(s.news - {slot}, q) == SlotsOf(s.news, q) { SlotsWithout(s.news, slot, q); }
    RefsUpdate(m, s.news, pending, s.news - {slot}, pending', id, x);
    LooseUpdate(m, pending, pending', id, x);
    SameCounts(m, limbo, s.total, s.counts, m[id := x]);
  }

  lemma NewFor(k: Config, m: Infos, news: Table, slot: Slot)
    requires NewOk(k, m, news) && slot in news
    ensures news[slot] in m && !m[news[slot]].inTried
  {}

  lemma TimesFor(m: Infos, id: nat)
    requires TimesOk(m) && id in m
    ensures Timely(m[id])
  {}

  lemma NewFewer(k: Config, m: Infos, news: Table, slot: Slot)
    requires NewOk(k, m, news)
    ensures NewOk(k, m, news - {slot})
  {
    hide StandsAt;
  }

  predicate CanClear(s: State, slot: Slot) {
    slot in s.news ==>
      && s.news[slot] in s.infos && !s.infos[s.news[slot]].inTried && s.infos[s.news[slot]].refCount > 0
      && (s.infos[s.news[slot]].refCount == 1 ==> CanDelete(Unref(s, slot), s.news[slot]))
  }

  /** Empties a slot; an entry without any reference left disappears. */
  function Cleared(s: State, slot: Slot): State
    requires CanClear(s, slot)
  {
    if slot !in s.news then s
    else if s.infos[s.news[slot]].refCount == 1 then Deleted(Unref(s, slot), s.news[slot])
    else Unref(s, slot)
  }

  /** Only the entry in the slot is touched, and it only disappears with its last reference. */
  lemma ClearKeeps(k: Config, s: State, pending: set<nat>, limbo: set<nat>, slot: Slot)
    requires Consistent(k, s, pending, limbo)
    ensures CanClear(s, slot) && Consistent(k, Cleared(s, slot), pending, limbo)
    ensures Cleared(s, slot).news == s.news - {slot} && Cleared(s, slot).tried == s.tried && Cleared(s, slot).idCount == s.idCount
    ensures forall id :: id in s.infos && (slot in s.news ==> id != s.news[slot]) ==> Untouched(s.infos, Cleared(s, slot).infos, id)
    ensures forall id :: id in Cleared(s, slot).infos ==> id in s.infos && Cleared(s, slot).infos[id].addr == s.infos[id].addr
    ensures slot in s.news ==> LostOne(s.infos, Cleared(s, slot).infos, s.news[slot])
  {
    hide Consistent, Deleted, CanDelete;
    if slot in s.news {
      var id := s.news[slot];
      UnrefKeeps(k, s, pending, limbo, slot);
      var t := Unref(s, slot);
      InNewTable(k, s, pending, limbo, slot);
      if s.infos[id].refCount == 1 {
        LimboPending(k, s, pending, limbo);
        DeleteKeeps(k, t, pending + {id}, limbo, id);
        assert pending + {id} - {id} == pending;
        DeletedParts(t, id);
      }
    } else {
      assert s.news - {slot} == s.news;
    }
  }

  lemma InNewTable(k: Config, s: State, pending: set<nat>, limbo: set<nat>, slot: Slot)
    requires Consistent(k, s, pending, limbo) && slot in s.news
    ensures s.news[slot] in s.infos && !s.infos[s.news[slot]].inTried
  {
    NewFor(k, s.infos, s.news, slot);
  }

  lemma LimboPending(k: Config, s: State, pending: set<nat>, limbo: set<nat>)
    requires Consistent(k, s, pending, limbo)
    ensures limbo <= pending
  {}

  /** The entry is x but for its place in the random order. */
  predicate Became(m: Infos, id: nat, x: AddrInfo) {
    id in m && m[id] == x.(randomPos := m[id].randomPos)
  }

  predicate Untouched(m: Infos, m': Infos, id: nat) {
    id in m && Became(m', id, m[id])
  }

  /** An entry loses a reference, and with the last one it disappears. */
  predicate LostOne(m: Infos, m': Infos, id: nat) {
    id in m && if m[id].refCount == 1 then id !in m' else Became(m', id, m[id].(refCount := m[id].refCount - 1))
  }

  lemma DeletedParts(s: State, id: nat)
    requires CanDelete(s, id)
    ensures Deleted(s, id).tried == s.tried && Deleted(s, id).news == s.news && Deleted(s, id).idCount == s.idCount
  {
    hide Swapped, CountOf, Shift;
  }

  /** Gives an entry that is counted as new one more slot. */
  function Placed(s: State, slot: Slot, id: nat): State
    requires id in s.infos
  {
    s.(infos := s.infos[id := s.infos[id].(refCount := s.infos[id].refCount + 1)], news := s.news[slot := id])
  }

  lemma PlaceKeeps(k: Config, s: State, pending: set<nat>, limbo: set<nat>, slot: Slot, id: nat)
    requires Consistent(k, s, pending, limbo) && slot !in s.news && StandsAt(k, s.infos, slot, id)
    requires id !in limbo && s.infos[id].refCount < NEW_BUCKETS_PER_ADDRESS
    ensures Consistent(k, Placed(s, slot, id), pending - {id}, limbo)
  {
    hide AddrOk, RandomOk, TriedOk, NewOk, RefsOk, TimesOk, IdsOk, CountsOk, Loose, SlotsOf, Position;
    var m := s.infos;
    RefsFor(m, s.news, pending, id);
    SlotsWith(s.news, slot, id, id);
    TimesFor(m, id);
    var x := m[id].(refCount := m[id].refCount + 1);
    AddrUpdate(m, s.addrs, id, x);
    RandomUpdate(m, s.random, id, x);
    TriedUpdate(k, m, s.tried, id, x);
    NewUpdate(k, m, s.news, id, x);
    NewMore(k, m[id := x], s.news, slot, id);
    IdsUpdate(k, m, s.idCount, id, x);
    TimesUpdate(m, id, x);
    forall q | q in m && q != id ensures SlotsOf(s.news[slot := id], q) == SlotsOf(s.news, q) { SlotsWith(s.news, slot, id, q); }
    RefsUpdate(m, s.news, pending, s.news[slot := id], pending - {id}, id, x);
    LooseUpdate(m, pending, pending - {id}, id, x);
    SameCounts(m, limbo, s.total, s.counts, m[id := x]);
  }

  lemma NewMore(k: Config, m: Infos, news: Table, slot: Slot, id: nat)
    requires NewOk(k, m, news) && StandsAt(k, m, slot, id)
    ensures NewOk(k, m, news[slot := id])
  {
    hide StandsAt;
  }

  // ---------------------------------------------------------------- from new to tried and back

  ghost function WithoutId(news: Table, id: nat): Table {
    map s | s in news && news[s] != id :: news[s]
  }

  lemma SlotsWithoutId(news: Table, id: nat, q: nat)
    ensures SlotsOf(WithoutId(news, id), q) == if q == id then {} else SlotsOf(news, q)
  {}

  function Shifted(s: State, net: nat, from: Kind, to: Kind): State {
    s.(total := Shift(s.total, from, to), counts := s.counts[net := Shift(CountOf(s.counts, net), from, to)])
  }

  /** Takes an entry out of the new table; it is then counted nowhere. */
  ghost function TakenOut(s: State, id: nat): State
    requires id in s.infos
  {
    Shifted(s, s.infos[id].addr.ip.net, New, Nowhere).(infos := s.infos[id := s.infos[id].(refCount := 0)], news := WithoutId(s.news, id))
  }

  lemma TakeOutKeeps(k: Config, s: State, pending: set<nat>, limbo: set<nat>, id: nat)
    requires Consistent(k, s, pending, limbo) && id in s.infos && !s.infos[id].inTried && id !in limbo
    ensures Consistent(k, TakenOut(s, id), pending + {id}, limbo + {id})
  {
    hide AddrOk, RandomOk, TriedOk, NewOk, RefsOk, TimesOk, IdsOk, CountsOk, Loose, SlotsOf, Shift, CountOf;
    var m, news' := s.infos, WithoutId(s.news, id);
    var x := m[id].(refCount := 0);
    TimesFor(m, id);
    SlotsWithoutId(s.news, id, id);
    AddrUpdate(m, s.addrs, id, x);
    RandomUpdate(m, s.random, id, x);
    TriedUpdate(k, m, s.tried, id, x);
    NewUpdate(k, m, s.news, id, x);
    NewPart(k, m[id := x], s.news, news');
    IdsUpdate(k, m, s.idCount, id, x);
    TimesUpdate(m, id, x);
    forall q | q in m && q != id ensures SlotsOf(news', q) == SlotsOf(s.news, q) { SlotsWithoutId(s.news, id, q); }
    RefsUpdate(m, s.news, pending, news', pending + {id}, id, x);
    LooseUpdate(m, pending, pending + {id}, id, x);
    KindUpdate(m, limbo, limbo + {id}, id, x);
    var s' := TakenOut(s, id);
    Recount(m, limbo, s.total, s.counts, s'.infos, limbo + {id}, s'.total, s'.counts, id, m[id].addr.ip.net);
  }

  lemma NewPart(k: Config, m: Infos, news: Table, news': Table)
    requires NewOk(k, m, news) && forall s :: s in news' ==> s in news && news'[s] == news[s]
    ensures NewOk(k, m, news')
  {
    hide StandsAt;
  }

  /** Takes the entry in a tried slot out; it is then counted nowhere. */
  function LeftTried(s: State, slot: Slot): State
    requires slot in s.tried && s.tried[slot] in s.infos
  {
    var id := s.tried[slot];
    Shifted(s, s.infos[id].addr.ip.net, Tried, Nowhere).(infos := s.infos[id := s.infos[id].(inTried := false)], tried := s.tried - {slot})
  }

  lemma LeaveTriedKeeps(k: Config, s: State, pending: set<nat>, limbo: set<nat>, slot: Slot)
    requires Consistent(k, s, pending, limbo) && slot in s.tried
    ensures s.tried[slot] in s.infos && s.infos[s.tried[slot]].inTried && s.tried[slot] !in pending && s.infos[s.tried[slot]].refCount == 0
    ensures var id := s.tried[slot]; Consistent(k, LeftTried(s, slot), pending + {id}, limbo + {id})
  {
    hide AddrOk, RandomOk, NewOk, RefsOk, TimesOk, IdsOk, CountsOk, Loose, SlotsOf, Shift, CountOf, TriedOk, Position;
    var id, m := s.tried[slot], s.infos;
    TriedFor(k, m, s.tried, slot);
    LooseFor(m, pending, id);
    RefsFor(m, s.news, pending, id);
    TimesFor(m, id);
    NoSlots(k, m, s.news, id);
    var x := m[id].(inTried := false);
    AddrUpdate(m, s.addrs, id, x);
    RandomUpdate(m, s.random, id, x);
    TriedOut(k, m, s.tried, slot, x);
    NewOther(k, m, s.news, id, x);
    IdsUpdate(k, m, s.idCount, id, x);
    TimesUpdate(m, id, x);
    RefsUpdate(m, s.news, pending, s.news, pending + {id}, id, x);
    LooseUpdate(m, pending, pending + {id}, id, x);
    KindUpdate(m, limbo, limbo + {id}, id, x);
    var s' := LeftTried(s, slot);
    Recount(m, limbo, s.total, s.counts, s'.infos, limbo + {id}, s'.total, s'.counts, id, m[id].addr.ip.net);
  }

  lemma TriedFor(k: Config, m: Infos, tried: Table, slot: Slot)
    requires TriedOk(k, m, tried) && slot in tried
    ensures tried[slot] in m && m[tried[slot]].inTried && slot == TriedSlot(k, m[tried[slot]].addr)
  {}

  lemma TriedOut(k: Config, m: Infos, tried: Table, slot: Slot, x: AddrInfo)
    requires TriedOk(k, m, tried) && slot in tried && SameAddr(m, tried[slot], x) && !x.inTried
    ensures TriedOk(k, m[tried[slot] := x], tried - {slot})
  {
    hide TriedSlot;
  }

  /** An entry without slots may become anything. */
  lemma NewOther(k: Config, m: Infos, news: Table, id: nat, x: AddrInfo)
    requires NewOk(k, m, news) && SlotsOf(news, id) == {}
    ensures NewOk(k, m[id := x], news)
  {
    hide Position;
    forall s | s in news ensures StandsAt(k, m[id := x], s, news[s]) {
      assert s !in SlotsOf(news, id);
      assert StandsAt(k, m, s, news[s]);
    }
  }

  /** Enters an entry that is counted nowhere into the new table. */
  function Readmitted(s: State, slot: Slot, id: nat): State
    requires id in s.infos
  {
    Shifted(s, s.infos[id].addr.ip.net, Nowhere, New).(infos := s.infos[id := s.infos[id].(refCount := 1)], news := s.news[slot := id])
  }

  lemma ReadmitKeeps(k: Config, s: State, pending: set<nat>, limbo: set<nat>, slot: Slot, id: nat)
    requires Consistent(k, s, pending, limbo) && slot !in s.news && StandsAt(k, s.infos, slot, id) && id in limbo
    ensures Consistent(k, Readmitted(s, slot, id), pending - {id}, limbo - {id})
  {
    hide AddrOk, RandomOk, TriedOk, NewOk, RefsOk, TimesOk, IdsOk, CountsOk, Loose, SlotsOf, Position, Shift, CountOf;
    var m := s.infos;
    LooseFor(m, pending, id);
    NoSlotsLoose(m, s.news, pending, id);
    SlotsWith(s.news, slot, id, id);
    TimesFor(m, id);
    var x := m[id].(refCount := 1);
    AddrUpdate(m, s.addrs, id, x);
    RandomUpdate(m, s.random, id, x);
    TriedUpdate(k, m, s.tried, id, x);
    NewUpdate(k, m, s.news, id, x);
    NewMore(k, m[id := x], s.news, slot, id);
    IdsUpdate(k, m, s.idCount, id, x);
    TimesUpdate(m, id, x);
    forall q | q in m && q != id ensures SlotsOf(s.news[slot := id], q) == SlotsOf(s.news, q) { SlotsWith(s.news, slot, id, q); }
    RefsUpdate(m, s.news, pending, s.news[slot := id], pending - {id}, id, x);
    LooseUpdate(m, pending, pending - {id}, id, x);
    KindUpdate(m, limbo, limbo - {id}, id, x);
    var s' := Readmitted(s, slot, id);
    Recount(m, limbo, s.total, s.counts, s'.infos, limbo - {id}, s'.total, s'.counts, id, m[id].addr.ip.net);
  }

  /** Enters an entry that is counted nowhere into the tried table. */
  function Settled(k: Config, s: State, id: nat): State
    requires id in s.infos
  {
    Shifted(s, s.infos[id].addr.ip.net, Nowhere, Tried).(infos := s.infos[id := s.infos[id].(inTried := true)],
                                                          tried := s.tried[TriedSlot(k, s.infos[id].addr) := id])
  }

  lemma SettleKeeps(k: Config, s: State, pending: set<nat>, limbo: set<nat>, id: nat)
    requires Consistent(k, s, pending, limbo) && id in limbo && id in s.infos && s.infos[id].lastSuccess > 0
    requires TriedSlot(k, s.infos[id].addr) !in s.tried
    ensures Consistent(k, Settled(k, s, id), pending - {id}, limbo - {id})
  {
    hide AddrOk, RandomOk, TriedOk, NewOk, RefsOk, TimesOk, IdsOk, CountsOk, Loose, SlotsOf, TriedSlot, Shift, CountOf;
    var m := s.infos;
    LooseFor(m, pending, id);
    NoSlotsLoose(m, s.news, pending, id);
    TimesFor(m, id);
    var x := m[id].(inTried := true);
    AddrUpdate(m, s.addrs, id, x);
    RandomUpdate(m, s.random, id, x);
    TriedIn(k, m, s.tried, id, x);
    NewOther(k, m, s.news, id, x);
    IdsUpdate(k, m, s.idCount, id, x);
    TimesUpdate(m, id, x);
    RefsUpdate(m, s.news, pending, s.news, pending - {id}, id, x);
    LooseUpdate(m, pending, pending - {id}, id, x);
    KindUpdate(m, limbo, limbo - {id}, id, x);
    var s' := Settled(k, s, id);
    Recount(m, limbo, s.total, s.counts, s'.infos, limbo - {id}, s'.total, s'.counts, id, m[id].addr.ip.net);
  }

  lemma TriedIn(k: Config, m: Infos, tried: Table, id: nat, x: AddrInfo)
    requires TriedOk(k, m, tried) && SameAddr(m, id, x) && !m[id].inTried && x.inTried && TriedSlot(k, x.addr) !in tried
    ensures TriedOk(k, m[id := x], tried[TriedSlot(k, x.addr) := id])
  {
    hide TriedSlot;
  }
}
