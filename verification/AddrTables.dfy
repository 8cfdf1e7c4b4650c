// The tables of the address manager (src/addrman.cpp, src/addrman_impl.h) and what ties them together.
// Hashes are parameters. A table of buckets is a map from its occupied slots to ids.
module AddrTables {

  const TRIED_BUCKET_COUNT := 256
  const NEW_BUCKET_COUNT := 1024
  const BUCKET_SIZE := 64
  const NEW_BUCKETS_PER_ADDRESS := 8

  datatype NetAddr = NetAddr(net: nat, host: nat)

  datatype Service = Service(ip: NetAddr, port: nat)

  datatype Slot = Slot(bucket: nat, pos: nat)

  type Table = map<Slot, nat>

  type Infos = map<nat, AddrInfo>

  datatype Config = Config(
    triedHash: Service -> nat, newHash: (Service, NetAddr) -> nat, positionHash: (bool, nat, Service) -> nat,
    routable: Service -> bool, valid: Service -> bool, netClass: Service -> nat)

  function TriedBucket(k: Config, a: Service): nat { k.triedHash(a) % TRIED_BUCKET_COUNT }

  function NewBucket(k: Config, a: Service, source: NetAddr): nat { k.newHash(a, source) % NEW_BUCKET_COUNT }

  function Position(k: Config, isNew: bool, bucket: nat, a: Service): nat { k.positionHash(isNew, bucket, a) % BUCKET_SIZE }

  function TriedSlot(k: Config, a: Service): Slot {
    var bucket := TriedBucket(k, a);
    Slot(bucket, Position(k, false, bucket, a))
  }

  function NewSlot(k: Config, a: Service, source: NetAddr): Slot {
    var bucket := NewBucket(k, a, source);
    Slot(bucket, Position(k, true, bucket, a))
  }

  datatype AddrInfo = AddrInfo(
    addr: Service, services: set<nat>, time: int, source: NetAddr, lastTry: int, lastCountAttempt: int, lastSuccess: int,
    attempts: nat, refCount: int, inTried: bool, randomPos: int)

  // ---------------------------------------------------------------- one table at a time

  /** Addresses and ids find each other. */
  ghost predicate AddrOk(m: Infos, addrs: map<Service, nat>) {
    && (forall id :: id in m ==> m[id].addr in addrs && addrs[m[id].addr] == id)
    && (forall a :: a in addrs ==> addrs[a] in m && m[addrs[a]].addr == a)
  }

  /** The random order is a permutation of the ids, and every entry knows its place. */
  ghost predicate RandomOk(m: Infos, random: seq<nat>) {
    && (forall id :: id in m ==> 0 <= m[id].randomPos < |random| && random[m[id].randomPos] == id)
    && (forall i :: 0 <= i < |random| ==> random[i] in m && m[random[i]].randomPos == i)
  }

  /** Exactly the tried entries are in the tried table, each where its hash says. */
  ghost predicate TriedOk(k: Config, m: Infos, tried: Table) {
    && (forall s :: s in tried ==> tried[s] in m && m[tried[s]].inTried && s == TriedSlot(k, m[tried[s]].addr))
    && (forall id :: id in m && m[id].inTried ==> TriedSlot(k, m[id].addr) in tried && tried[TriedSlot(k, m[id].addr)] == id)
  }

  /** An entry that stands in a slot of the new table. */
  predicate StandsAt(k: Config, m: Infos, s: Slot, id: nat) {
    id in m && !m[id].inTried && s.bucket < NEW_BUCKET_COUNT && s.pos == Position(k, true, s.bucket, m[id].addr)
  }

  /** In the new table are entries that are not tried, each at the position its hash gives in that bucket. */
  ghost predicate NewOk(k: Config, m: Infos, news: Table) {
    forall s :: s in news ==> StandsAt(k, m, s, news[s])
  }

  /** A table has so many buckets. */
  ghost predicate Within(table: Table, buckets: nat) {
    forall s :: s in table ==> s.bucket < buckets && s.pos < BUCKET_SIZE
  }

  ghost function SlotsOf(news: Table, id: nat): set<Slot> {
    set s | s in news && news[s] == id
  }

  /** Reference counts are the numbers of slots; only entries under construction may have none and not be tried. */
  predicate CountedRefs(info: AddrInfo, slots: nat, pending: bool) {
    && info.refCount == slots
    && (if info.inTried then slots == 0 else slots <= NEW_BUCKETS_PER_ADDRESS && (slots == 0 ==> pending))
  }

  ghost predicate RefsOk(m: Infos, news: Table, pending: set<nat>) {
    forall id :: id in m ==> CountedRefs(m[id], |SlotsOf(news, id)|, id in pending)
  }

  predicate Timely(info: AddrInfo) {
    info.lastTry >= 0 && info.lastSuccess >= 0 && (info.inTried ==> info.lastSuccess > 0)
  }

  ghost predicate TimesOk(m: Infos) {
    forall id :: id in m ==> Timely(m[id])
  }

  ghost predicate IdsOk(k: Config, m: Infos, idCount: nat) {
    forall id :: id in m ==> id < idCount && k.routable(m[id].addr)
  }

  /** A pending collision that still exists collides with something. */
  ghost predicate CollisionsOk(k: Config, m: Infos, tried: Table, collisions: set<nat>, idCount: nat) {
    forall id :: id in collisions ==> id < idCount && (id in m ==> TriedSlot(k, m[id].addr) in tried)
  }

  // ---------------------------------------------------------------- counters

  datatype Kind = Nowhere | New | Tried

  datatype Counts = Counts(nNew: int, nTried: int)

  /** How an entry is counted; one that is being moved is not counted. */
  function KindOf(m: Infos, limbo: set<nat>, id: nat): Kind {
    if id !in m || id in limbo then Nowhere else if m[id].inTried then Tried else New
  }

  ghost function OfKind(m: Infos, limbo: set<nat>, kind: Kind): set<nat> {
    set id | id in m && KindOf(m, limbo, id) == kind
  }

  ghost function OfNet(m: Infos, limbo: set<nat>, kind: Kind, net: nat): set<nat> {
    set id | id in m && KindOf(m, limbo, id) == kind && m[id].addr.ip.net == net
  }

  function CountOf(counts: map<nat, Counts>, net: nat): Counts {
    if net in counts then counts[net] else Counts(0, 0)
  }

  ghost predicate NetOk(m: Infos, limbo: set<nat>, counts: map<nat, Counts>, net: nat) {
    CountOf(counts, net) == Counts(|OfNet(m, limbo, New, net)|, |OfNet(m, limbo, Tried, net)|)
  }

  ghost predicate CountsOk(m: Infos, limbo: set<nat>, total: Counts, counts: map<nat, Counts>) {
    total == Counts(|OfKind(m, limbo, New)|, |OfKind(m, limbo, Tried)|) && NetsOk(m, limbo, counts)
  }

  ghost predicate NetsOk(m: Infos, limbo: set<nat>, counts: map<nat, Counts>) {
    forall net :: NetOk(m, limbo, counts, net)
  }

  function Delta(kind: Kind, from: Kind, to: Kind): int {
    (if to == kind then 1 else 0) - (if from == kind then 1 else 0)
  }

  function Shift(c: Counts, from: Kind, to: Kind): Counts {
    Counts(c.nNew + Delta(New, from, to), c.nTried + Delta(Tried, from, to))
  }

  /** Nothing but the entry of id is counted differently. */
  ghost predicate OnlyKind(m: Infos, limbo: set<nat>, m': Infos, limbo': set<nat>, id: nat) {
    forall q :: q != id ==> KindOf(m', limbo', q) == KindOf(m, limbo, q) && (q in m <==> q in m') && (q in m ==> m'[q].addr == m[q].addr)
  }

  lemma SizeShift(a: set<nat>, b: set<nat>, id: nat)
    requires a - {id} == b - {id}
    ensures |b| - |a| == (if id in b then 1 else 0) - (if id in a then 1 else 0)
  {
    assert a == a - {id} + if id in a then {id} else {};
    assert b == b - {id} + if id in b then {id} else {};
  }

  lemma KindShift(m: Infos, limbo: set<nat>, m': Infos, limbo': set<nat>, id: nat, kind: Kind)
    requires OnlyKind(m, limbo, m', limbo', id) && kind != Nowhere
    ensures |OfKind(m', limbo', kind)| == |OfKind(m, limbo, kind)| + Delta(kind, KindOf(m, limbo, id), KindOf(m', limbo', id))
  {
    var a, b := OfKind(m, limbo, kind), OfKind(m', limbo', kind);
    forall q | q != id ensures q in a <==> q in b { assert KindOf(m', limbo', q) == KindOf(m, limbo, q); }
    SizeShift(a, b, id);
  }

  lemma NetShift(m: Infos, limbo: set<nat>, m': Infos, limbo': set<nat>, id: nat, kind: Kind, net: nat, own: nat)
    requires OnlyKind(m, limbo, m', limbo', id) && kind != Nowhere
    requires (id in m ==> m[id].addr.ip.net == own) && (id in m' ==> m'[id].addr.ip.net == own)
    ensures |OfNet(m', limbo', kind, net)| == |OfNet(m, limbo, kind, net)|
                                              + if net == own then Delta(kind, KindOf(m, limbo, id), KindOf(m', limbo', id)) else 0
  {
    var a, b := OfNet(m, limbo, kind, net), OfNet(m', limbo', kind, net);
    forall q | q != id ensures q in a <==> q in b { assert KindOf(m', limbo', q) == KindOf(m, limbo, q); }
    SizeShift(a, b, id);
  }

  /** The counters of one network. */
  lemma RecountNet(m: Infos, limbo: set<nat>, counts: map<nat, Counts>, m': Infos, limbo': set<nat>, counts': map<nat, Counts>,
                   id: nat, own: nat, net: nat)
    requires NetOk(m, limbo, counts, net) && OnlyKind(m, limbo, m', limbo', id)
    requires (id in m ==> m[id].addr.ip.net == own) && (id in m' ==> m'[id].addr.ip.net == own)
    requires CountOf(counts', net) == if net == own then Shift(CountOf(counts, net), KindOf(m, limbo, id), KindOf(m', limbo', id)) else CountOf(counts, net)
    ensures NetOk(m', limbo', counts', net)
  {
    hide OfNet, OnlyKind, KindOf, CountOf;
    NetShift(m, limbo, m', limbo', id, New, net, own);
    NetShift(m, limbo, m', limbo', id, Tried, net, own);
  }

  /** Counters stay right when they follow the one entry that is counted differently. */
  lemma Recount(m: Infos, limbo: set<nat>, total: Counts, counts: map<nat, Counts>,
                m': Infos, limbo': set<nat>, total': Counts, counts': map<nat, Counts>, id: nat, own: nat)
    requires CountsOk(m, limbo, total, counts) && OnlyKind(m, limbo, m', limbo', id)
    requires (id in m ==> m[id].addr.ip.net == own) && (id in m' ==> m'[id].addr.ip.net == own)
    requires total' == Shift(total, KindOf(m, limbo, id), KindOf(m', limbo', id))
    requires counts' == counts[own := Shift(CountOf(counts, own), KindOf(m, limbo, id), KindOf(m', limbo', id))]
    ensures CountsOk(m', limbo', total', counts')
  {
    hide OfKind, OfNet, OnlyKind, KindOf, NetsOk, CountOf;
    KindShift(m, limbo, m', limbo', id, New);
    KindShift(m, limbo, m', limbo', id, Tried);
    RecountNets(m, limbo, counts, m', limbo', counts', id, own);
  }

  lemma RecountNets(m: Infos, limbo: set<nat>, counts: map<nat, Counts>, m': Infos, limbo': set<nat>, counts': map<nat, Counts>, id: nat, own: nat)
    requires NetsOk(m, limbo, counts) && OnlyKind(m, limbo, m', limbo', id)
    requires (id in m ==> m[id].addr.ip.net == own) && (id in m' ==> m'[id].addr.ip.net == own)
    requires counts' == counts[own := Shift(CountOf(counts, own), KindOf(m, limbo, id), KindOf(m', limbo', id))]
    ensures NetsOk(m', limbo', counts')
  {
    hide OnlyKind, KindOf, NetOk, Shift;
    forall net ensures NetOk(m', limbo', counts', net) {
      assert NetOk(m, limbo, counts, net);
      RecountNet(m, limbo, counts, m', limbo', counts', id, own, net);
    }
  }

  /** Nothing is counted differently. */
  lemma SameCounts(m: Infos, limbo: set<nat>, total: Counts, counts: map<nat, Counts>, m': Infos)
    requires CountsOk(m, limbo, total, counts) && m'.Keys == m.Keys
    requires forall q :: q in m ==> m'[q].addr == m[q].addr && m'[q].inTried == m[q].inTried
    ensures CountsOk(m', limbo, total, counts)
  {
    assert OfKind(m', limbo, New) == OfKind(m, limbo, New) && OfKind(m', limbo, Tried) == OfKind(m, limbo, Tried);
    forall net ensures NetOk(m', limbo, counts, net) {
      assert NetOk(m, limbo, counts, net);
      assert OfNet(m', limbo, New, net) == OfNet(m, limbo, New, net) && OfNet(m', limbo, Tried, net) == OfNet(m, limbo, Tried, net);
    }
  }
}
