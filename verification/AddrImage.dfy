// What the address manager writes (src/addrman.cpp, Serialize), and when a state that is being read
// back matches what was written. A stream is a sequence of values, not of bytes.
module AddrImages {
  import opened Sets
  import opened AddrTables
  import opened AddrSteps

  /** What is kept of an entry. */
  datatype Entry = Entry(addr: Service, services: set<nat>, time: int, source: NetAddr, lastSuccess: int, attempts: nat)

  datatype Token = Byte(byte: nat) | Key(key: nat) | Number(number: int) | Record(entry: Entry) | Checksum(checksum: nat)

  const FILE_FORMAT := 4
  const INCOMPATIBILITY_BASE := 32
  const LOWEST_COMPATIBLE := 4

  function Persisted(info: AddrInfo): Entry {
    Entry(info.addr, info.services, info.time, info.source, info.lastSuccess, info.attempts)
  }

  function Restored(e: Entry, pos: nat, inTried: bool): AddrInfo {
    AddrInfo(e.addr, e.services, e.time, e.source, 0, 0, e.lastSuccess, e.attempts, 0, inTried, pos)
  }

  /** Flips bit 30. */
  function Flip30(n: int): int {
    if n / 0x4000_0000 % 2 == 1 then n - 0x4000_0000 else n + 0x4000_0000
  }

  lemma FlipTwice(n: int)
    ensures Flip30(Flip30(n)) == n
  {}

  // ---------------------------------------------------------------- what is written

  /** A state, and its ids in the order they are written: nNew new ones, then the tried ones. */
  datatype Image = Image(config: Config, state: State, ids: seq<nat>, nNew: nat)

  ghost predicate KindAt(o: Image, i: nat) {
    i < |o.ids| && o.ids[i] in o.state.infos && (o.state.infos[o.ids[i]].inTried <==> i >= o.nNew)
  }

  ghost predicate ImageOk(o: Image) {
    && Consistent(o.config, o.state, {}, {}) && o.nNew <= |o.ids| && Distinct(o.ids) && Elems(o.ids) == o.state.infos.Keys
    && forall i :: 0 <= i < |o.ids| ==> KindAt(o, i)
  }

  function IndexOf(ids: seq<nat>, id: nat): nat {
    if ids == [] || ids[0] == id then 0 else 1 + IndexOf(ids[1..], id)
  }

  lemma {:induction false} IndexIs(ids: seq<nat>, i: nat)
    requires Distinct(ids) && i < |ids|
    ensures IndexOf(ids, ids[i]) == i
  {
    if i > 0 { IndexIs(ids[1..], i - 1); }
  }

  /** The occupied slots of a bucket at positions below n. */
  function RowSlots(table: Table, bucket: nat, n: nat): seq<Slot> {
    if n == 0 then [] else RowSlots(table, bucket, n - 1) + if Slot(bucket, n - 1) in table then [Slot(bucket, n - 1)] else []
  }

  /** The occupied slots of the buckets below b. */
  ghost function AllSlots(table: Table, b: nat): seq<Slot> {
    if b == 0 then [] else AllSlots(table, b - 1) + RowSlots(table, b - 1, BUCKET_SIZE)
  }

  ghost function Index(o: Image, slot: Slot): nat {
    if slot in o.state.news then IndexOf(o.ids, o.state.news[slot]) else 0
  }

  ghost function Indexes(o: Image, slots: seq<Slot>): seq<Token> {
    seq(|slots|, i requires 0 <= i < |slots| => Number(Index(o, slots[i])))
  }

  /** The buckets from b on. */
  ghost function BucketTokens(o: Image, b: nat): seq<Token>
    decreases NEW_BUCKET_COUNT - b
  {
    if b >= NEW_BUCKET_COUNT then []
    else
      var row := RowSlots(o.state.news, b, BUCKET_SIZE);
      [Number(|row|)] + Indexes(o, row) + BucketTokens(o, b + 1)
  }

  ghost function Header(o: Image, key: nat): seq<Token> {
    [Byte(FILE_FORMAT), Byte(INCOMPATIBILITY_BASE + LOWEST_COMPATIBLE), Key(key),
     Number(o.nNew), Number(|o.ids| - o.nNew), Number(Flip30(NEW_BUCKET_COUNT))]
  }

  function Records(m: Infos, ids: seq<nat>): seq<Token> {
    seq(|ids|, i requires 0 <= i < |ids| => if ids[i] in m then Record(Persisted(m[ids[i]])) else Byte(0))
  }

  ghost function Written(o: Image, key: nat, asmap: nat): seq<Token> {
    Header(o, key) + Records(o.state.infos, o.ids) + BucketTokens(o, 0) + [Checksum(asmap)]
  }

  // ---------------------------------------------------------------- what is read back

  /** Entry i is the one written as number i; only its references may still be missing. */
  ghost predicate MatchAt(o: Image, m: Infos, i: nat) {
    && i < |o.ids| && o.ids[i] in o.state.infos && i in m
    && var info := o.state.infos[o.ids[i]];
       m[i] == Restored(Persisted(info), i, info.inTried).(refCount := m[i].refCount)
  }

  ghost predicate Matches(o: Image, m: Infos, n: nat) {
    m.Keys == Below(n) && forall i :: 0 <= i < n ==> MatchAt(o, m, i)
  }

  /** The first n entries have been read, and no bucket of the new table. */
  ghost predicate Loaded(o: Image, t: State, n: nat) {
    && n <= |o.ids| && Matches(o, t.infos, n) && t.idCount == |t.random| == n && t.news == map[]
    && Consistent(o.config, t, Below(if n < o.nNew then n else o.nNew), {})
  }

  /** The state with the next entry. */
  function WithEntry(k: Config, t: State, e: Entry, inTried: bool): State {
    var info := Restored(e, |t.random|, inTried);
    if inTried then CreatedTried(k, t, info) else Created(t, info)
  }

  lemma SourceEntry(o: Image, i: nat)
    requires ImageOk(o) && i < |o.ids|
    ensures o.ids[i] in o.state.infos
    ensures var info := o.state.infos[o.ids[i]];
      && (info.inTried <==> i >= o.nNew) && o.config.routable(info.addr) && Timely(info)
      && info.addr in o.state.addrs && o.state.addrs[info.addr] == o.ids[i]
      && (info.inTried ==> TriedSlot(o.config, info.addr) in o.state.tried && o.state.tried[TriedSlot(o.config, info.addr)] == o.ids[i])
  {
    hide RandomOk, NewOk, RefsOk, CountsOk, Loose, TriedSlot, Distinct;
    assert KindAt(o, i);
  }

  /** Neither the address nor the tried slot of the next entry is taken. */
  lemma NextIsFree(o: Image, t: State, n: nat)
    requires ImageOk(o) && Loaded(o, t, n) && n < |o.ids|
    ensures o.ids[n] in o.state.infos
    ensures var info := o.state.infos[o.ids[n]]; info.addr !in t.addrs && (info.inTried ==> TriedSlot(o.config, info.addr) !in t.tried)
  {
    hide Consistent, TriedSlot, ImageOk;
    SourceEntry(o, n);
    var info := o.state.infos[o.ids[n]];
    if info.addr in t.addrs {
      AddrsBack(o, t, n, info.addr);
      SourceEntry(o, t.addrs[info.addr]);
      OtherId(o, t.addrs[info.addr], n);
    }
    if info.inTried && TriedSlot(o.config, info.addr) in t.tried {
      var i := t.tried[TriedSlot(o.config, info.addr)];
      TriedBack(o, t, n, TriedSlot(o.config, info.addr));
      SourceEntry(o, i);
      OtherId(o, i, n);
    }
  }

  lemma OtherId(o: Image, i: nat, j: nat)
    requires ImageOk(o) && i < j < |o.ids|
    ensures o.ids[i] != o.ids[j]
  {}

  lemma AddrsBack(o: Image, t: State, n: nat, a: Service)
    requires Loaded(o, t, n) && a in t.addrs
    ensures var i := t.addrs[a]; i < n && o.ids[i] in o.state.infos && o.state.infos[o.ids[i]].addr == a
  {
    hide RandomOk, NewOk, TriedOk, RefsOk, CountsOk, Loose, TimesOk, IdsOk;
    var i := t.addrs[a];
    assert i in t.infos && i in Below(n);
    assert MatchAt(o, t.infos, i);
  }

  lemma TriedBack(o: Image, t: State, n: nat, s: Slot)
    requires Loaded(o, t, n) && s in t.tried
    ensures var i := t.tried[s]; i < n && o.ids[i] in o.state.infos
    ensures var info := o.state.infos[o.ids[t.tried[s]]]; info.inTried && s == TriedSlot(o.config, info.addr)
  {
    hide AddrOk, RandomOk, NewOk, RefsOk, CountsOk, Loose, TimesOk, IdsOk, TriedSlot;
    var i := t.tried[s];
    assert i in t.infos && i in Below(n);
    assert MatchAt(o, t.infos, i);
  }

  /** Reading one more entry. */
  lemma LoadStep(o: Image, t: State, n: nat)
    requires ImageOk(o) && Loaded(o, t, n) && n < |o.ids|
    ensures o.ids[n] in o.state.infos
    ensures var info := o.state.infos[o.ids[n]]; Loaded(o, WithEntry(o.config, t, Persisted(info), info.inTried), n + 1)
  {
    hide Consistent, ImageOk, TriedSlot, Shift, CountOf, Matches;
    SourceEntry(o, n);
    NextIsFree(o, t, n);
    var info := o.state.infos[o.ids[n]];
    var x := Restored(Persisted(info), n, info.inTried);
    var pending := Below(if n < o.nNew then n else o.nNew);
    assert t.idCount == n;
    if info.inTried {
      CreateTriedKeeps(o.config, t, pending, x);
    } else {
      CreateKeeps(o.config, t, pending, {}, x);
      assert pending + {n} == Below(n + 1);
    }
    MatchMore(o, t.infos, n, x);
  }

  lemma MatchMore(o: Image, m: Infos, n: nat, x: AddrInfo)
    requires Matches(o, m, n) && n < |o.ids| && o.ids[n] in o.state.infos
    requires var info := o.state.infos[o.ids[n]]; x == Restored(Persisted(info), n, info.inTried)
    ensures Matches(o, m[n := x], n + 1)
  {
    hide Restored, Persisted;
    assert Below(n) + {n} == Below(n + 1);
    var m' := m[n := x];
    forall i | 0 <= i < n + 1 ensures MatchAt(o, m', i) {
      if i < n { assert MatchAt(o, m, i); }
    }
  }

  // ---------------------------------------------------------------- the new table

  ghost predicate NewsAt(o: Image, news: Table, s: Slot) {
    s in news && s in o.state.news && news[s] < o.nNew && o.nNew <= |o.ids| && o.ids[news[s]] == o.state.news[s]
  }

  ghost predicate NewsOk(o: Image, news: Table) {
    forall s :: s in news ==> NewsAt(o, news, s)
  }

  /** All entries have been read, and the slots that are filled are filled as they were. */
  ghost predicate Filled(o: Image, t: State, pending: set<nat>) {
    && Matches(o, t.infos, |o.ids|) && Consistent(o.config, t, pending, {})
    && NewsOk(o, t.news)
  }

  lemma SourceSlot(o: Image, s: Slot)
    requires ImageOk(o) && s in o.state.news
    ensures StandsAt(o.config, o.state.infos, s, o.state.news[s]) && |SlotsOf(o.state.news, o.state.news[s])| <= NEW_BUCKETS_PER_ADDRESS
    ensures Index(o, s) < o.nNew && o.ids[Index(o, s)] == o.state.news[s]
  {
    hide AddrOk, RandomOk, TriedOk, CountsOk, Loose, TimesOk, IdsOk, Position, SlotsOf, Distinct;
    var id := o.state.news[s];
    assert StandsAt(o.config, o.state.infos, s, id);
    assert id in Elems(o.ids);
    var i :| 0 <= i < |o.ids| && o.ids[i] == id;
    assert KindAt(o, i);
    IndexIs(o.ids, i);
    RefsFor(o.state.infos, o.state.news, {}, id);
  }

  /** The entry that stood in a free slot can be put there again. */
  lemma CanFill(o: Image, t: State, pending: set<nat>, s: Slot)
    requires ImageOk(o) && Filled(o, t, pending) && s in o.state.news && s !in t.news
    ensures var i := Index(o, s); i < o.nNew && StandsAt(o.config, t.infos, s, i) && t.infos[i].refCount < NEW_BUCKETS_PER_ADDRESS
  {
    hide Consistent, ImageOk, Position, Index;
    SourceSlot(o, s);
    var i := Index(o, s);
    ImageSize(o);
    assert MatchAt(o, t.infos, i);
    FewerSlots(o, t.news, s, i);
    RefsOfFilled(o, t, pending, i);
  }

  lemma ImageSize(o: Image)
    requires ImageOk(o)
    ensures o.nNew <= |o.ids|
  {}

  lemma RefsOfFilled(o: Image, t: State, pending: set<nat>, i: nat)
    requires Consistent(o.config, t, pending, {}) && i in t.infos
    ensures CountedRefs(t.infos[i], |SlotsOf(t.news, i)|, i in pending)
  {
    RefsFor(t.infos, t.news, pending, i);
  }

  lemma FewerSlots(o: Image, news: Table, s: Slot, i: nat)
    requires ImageOk(o) && s in o.state.news && s !in news && i < o.nNew && o.ids[i] == o.state.news[s]
    requires NewsOk(o, news)
    ensures |SlotsOf(news, i)| < |SlotsOf(o.state.news, o.state.news[s])|
  {
    hide Consistent, Distinct;
    var a, b := SlotsOf(news, i), SlotsOf(o.state.news, o.state.news[s]);
    forall q | q in a ensures q in b - {s} { assert NewsAt(o, news, q); }
    SubsetSize(a, b - {s});
    assert s in b && b == b - {s} + {s};
  }

  lemma FillStep(o: Image, t: State, pending: set<nat>, s: Slot)
    requires ImageOk(o) && Filled(o, t, pending) && s in o.state.news && s !in t.news
    ensures Index(o, s) in t.infos && Filled(o, Placed(t, s, Index(o, s)), pending - {Index(o, s)})
  {
    hide Consistent, ImageOk, Position, Index, Matches, NewsOk;
    CanFill(o, t, pending, s);
    SourceSlot(o, s);
    ImageSize(o);
    var i := Index(o, s);
    PlaceKeeps(o.config, t, pending, {}, s, i);
    MatchRefs(o, t.infos, i, t.infos[i].refCount + 1);
    NewsMore(o, t.news, s, i);
  }

  lemma MatchRefs(o: Image, m: Infos, i: nat, refs: int)
    requires Matches(o, m, |o.ids|) && i in m
    ensures Matches(o, m[i := m[i].(refCount := refs)], |o.ids|)
  {
    hide Persisted;
    var m' := m[i := m[i].(refCount := refs)];
    forall j | 0 <= j < |o.ids| ensures MatchAt(o, m', j) { assert MatchAt(o, m, j); }
  }

  lemma NewsMore(o: Image, news: Table, s: Slot, i: nat)
    requires NewsOk(o, news) && s in o.state.news && i < o.nNew <= |o.ids| && o.ids[i] == o.state.news[s] && s !in news
    ensures NewsOk(o, news[s := i])
  {
    var news' := news[s := i];
    forall q | q in news' ensures NewsAt(o, news', q) {
      if q != s { assert NewsAt(o, news, q); }
    }
  }

  // ---------------------------------------------------------------- the whole state

  /** Two tables are the same but for the names of the entries. */
  ghost predicate SameTable(ids: seq<nat>, a: Table, b: Table) {
    a.Keys == b.Keys && forall s :: s in a ==> b[s] < |ids| && ids[b[s]] == a[s]
  }

  ghost predicate SameEntry(info: AddrInfo, x: AddrInfo) {
    Persisted(x) == Persisted(info) && x.inTried == info.inTried && x.refCount == info.refCount
  }

  /** t is s with the entry ids[i] called i: nothing is lost, nothing added, and every table and counter agrees. */
  ghost predicate SameUpToIds(ids: seq<nat>, s: State, t: State) {
    && Distinct(ids) && Elems(ids) == s.infos.Keys && t.infos.Keys == Below(|ids|)
    && (forall i :: 0 <= i < |ids| ==> ids[i] in s.infos && i in t.infos && SameEntry(s.infos[ids[i]], t.infos[i]))
    && SameTable(ids, s.tried, t.tried) && SameTable(ids, s.news, t.news)
    && t.total == s.total && forall net :: CountOf(t.counts, net) == CountOf(s.counts, net)
  }

  lemma FillDone(o: Image, t: State, pending: set<nat>)
    requires ImageOk(o) && Filled(o, t, pending) && t.news.Keys == o.state.news.Keys
    ensures Consistent(o.config, t, {}, {}) && SameUpToIds(o.ids, o.state, t)
  {
    hide Consistent, CountOf, OfKind, OfNet, TriedSlot, Position, SlotsOf, NewsOk;
    forall i | 0 <= i < |o.ids| ensures o.ids[i] in o.state.infos && i in t.infos && SameEntry(o.state.infos[o.ids[i]], t.infos[i]) && i !in pending {
      EntryRefs(o, t, pending, i);
    }
    PendingBelow(o, t, pending);
    assert pending == {};
    SameTried(o, t);
    SameNews(o, t.news);
    SameTotals(o, t);
  }

  lemma PendingBelow(o: Image, t: State, pending: set<nat>)
    requires Consistent(o.config, t, pending, {}) && t.infos.Keys == Below(|o.ids|)
    ensures pending <= Below(|o.ids|)
  {
    forall i | i in pending ensures i in Below(|o.ids|) { LooseFor(t.infos, pending, i); }
  }

  lemma EntryRefs(o: Image, t: State, pending: set<nat>, i: nat)
    requires ImageOk(o) && Filled(o, t, pending) && t.news.Keys == o.state.news.Keys && i < |o.ids|
    ensures o.ids[i] in o.state.infos && i in t.infos && SameEntry(o.state.infos[o.ids[i]], t.infos[i]) && i !in pending
  {
    hide AddrOk, RandomOk, TriedOk, NewOk, RefsOk, CountsOk, TimesOk, IdsOk, Loose, Distinct, SlotsOf, NewsOk;
    assert KindAt(o, i) && MatchAt(o, t.infos, i);
    RefsFor(t.infos, t.news, pending, i);
    RefsFor(o.state.infos, o.state.news, {}, o.ids[i]);
    LooseFor(t.infos, pending, i);
    SameSlots(o, t.news, i);
  }

  lemma SameSlots(o: Image, news: Table, i: nat)
    requires ImageOk(o) && news.Keys == o.state.news.Keys && i < |o.ids| && NewsOk(o, news)
    ensures SlotsOf(news, i) == SlotsOf(o.state.news, o.ids[i])
  {
    hide Consistent;
    forall s | s in news ensures news[s] == i <==> o.state.news[s] == o.ids[i] { assert NewsAt(o, news, s); }
  }

  lemma SameNews(o: Image, news: Table)
    requires news.Keys == o.state.news.Keys && NewsOk(o, news)
    ensures SameTable(o.ids, o.state.news, news)
  {
    forall s | s in news ensures news[s] < |o.ids| && o.ids[news[s]] == o.state.news[s] { assert NewsAt(o, news, s); }
  }

  lemma SameTried(o: Image, t: State)
    requires ImageOk(o) && Matches(o, t.infos, |o.ids|) && Consistent(o.config, t, {}, {})
    ensures SameTable(o.ids, o.state.tried, t.tried)
  {
    hide AddrOk, RandomOk, NewOk, RefsOk, CountsOk, TimesOk, IdsOk, Loose, Distinct, TriedSlot;
    forall s | s in t.tried ensures s in o.state.tried && t.tried[s] < |o.ids| && o.ids[t.tried[s]] == o.state.tried[s] {
      var i := t.tried[s];
      assert i in t.infos && i in Below(|o.ids|);
      assert MatchAt(o, t.infos, i);
    }
    forall s | s in o.state.tried ensures s in t.tried {
      var id := o.state.tried[s];
      assert id in Elems(o.ids);
      var i :| 0 <= i < |o.ids| && o.ids[i] == id;
      assert MatchAt(o, t.infos, i);
    }
  }

  // ---------------------------------------------------------------- counters

  ghost function Named(ids: seq<nat>, a: set<nat>): set<nat> { set i | i in a && i < |ids| :: ids[i] }

  lemma {:induction false} NamedSize(ids: seq<nat>, a: set<nat>)
    requires Distinct(ids) && a <= Below(|ids|)
    ensures |Named(ids, a)| == |a|
  {
    if a == {} {
      assert Named(ids, a) == {};
    } else {
      var i :| i in a;
      assert i in Below(|ids|);
      NamedSize(ids, a - {i});
      assert Named(ids, a) == Named(ids, a - {i}) + {ids[i]};
      assert ids[i] !in Named(ids, a - {i});
    }
  }

  /** A set of entries and the set of those they match have the same size. */
  lemma SameSize(o: Image, a: set<nat>, b: set<nat>)
    requires ImageOk(o) && a <= Below(|o.ids|) && b <= o.state.infos.Keys
    requires forall i :: 0 <= i < |o.ids| ==> (i in a <==> o.ids[i] in b)
    ensures |a| == |b|
  {
    hide Consistent, KindAt;
    forall id | id in b ensures id in Named(o.ids, a) {
      assert id in Elems(o.ids);
      var i :| 0 <= i < |o.ids| && o.ids[i] == id;
      assert i in a;
    }
    assert Named(o.ids, a) == b;
    NamedSize(o.ids, a);
  }

  lemma SameKind(o: Image, m: Infos, kind: Kind)
    requires ImageOk(o) && Matches(o, m, |o.ids|) && kind != Nowhere
    ensures |OfKind(m, {}, kind)| == |OfKind(o.state.infos, {}, kind)|
  {
    hide Consistent, Distinct, Elems, Restored, Persisted;
    var a, b := OfKind(m, {}, kind), OfKind(o.state.infos, {}, kind);
    forall i | 0 <= i < |o.ids| ensures i in a <==> o.ids[i] in b { MatchKind(o, m, i); }
    SameSize(o, a, b);
  }

  lemma SameNet(o: Image, m: Infos, kind: Kind, net: nat)
    requires ImageOk(o) && Matches(o, m, |o.ids|) && kind != Nowhere
    ensures |OfNet(m, {}, kind, net)| == |OfNet(o.state.infos, {}, kind, net)|
  {
    hide Consistent, Distinct, Elems, Restored, Persisted;
    var a, b := OfNet(m, {}, kind, net), OfNet(o.state.infos, {}, kind, net);
    forall i | 0 <= i < |o.ids| ensures i in a <==> o.ids[i] in b { MatchKind(o, m, i); }
    SameSize(o, a, b);
  }

  lemma MatchKind(o: Image, m: Infos, i: nat)
    requires Matches(o, m, |o.ids|) && i < |o.ids|
    ensures i in m && o.ids[i] in o.state.infos && m[i].addr == o.state.infos[o.ids[i]].addr && m[i].inTried == o.state.infos[o.ids[i]].inTried
  {
    assert MatchAt(o, m, i);
  }

  lemma SameTotals(o: Image, t: State)
    requires ImageOk(o) && Matches(o, t.infos, |o.ids|) && Consistent(o.config, t, {}, {})
    ensures t.total == o.state.total && forall net :: CountOf(t.counts, net) == CountOf(o.state.counts, net)
  {
    hide AddrOk, RandomOk, TriedOk, NewOk, RefsOk, TimesOk, IdsOk, Loose, Distinct, OfKind, OfNet, CountOf, Matches;
    SameKind(o, t.infos, New);
    SameKind(o, t.infos, Tried);
    forall net ensures CountOf(t.counts, net) == CountOf(o.state.counts, net) {
      SameNet(o, t.infos, New, net);
      SameNet(o, t.infos, Tried, net);
      assert NetOk(t.infos, {}, t.counts, net) && NetOk(o.state.infos, {}, o.state.counts, net);
    }
  }
}
