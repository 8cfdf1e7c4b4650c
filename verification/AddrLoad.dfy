// Reading the address manager back (src/addrman.cpp, Unserialize).
module AddrLoads {
  import opened Sets
  import opened AddrTables
  import opened AddrSteps
  import opened AddrMans
  import opened AddrChecks
  import opened AddrImages
  import opened AddrDisks

  datatype LoadError =
    | Fine
    | EndOfStream
    | CompatTooLow
    | UnsupportedVersion
    | BadNewCount
    | BadTriedCount
    | Inconsistent(code: int)

  datatype Preamble = Preamble(format: nat, key: nat, nNew: nat, nTried: nat, nUBuckets: int)

  /** What a header must be to be accepted. */
  ghost predicate HeaderOk(stream: seq<Token>) {
    && |stream| >= 6 && stream[0].Byte? && stream[1].Byte? && stream[2].Key? && stream[3].Number? && stream[4].Number? && stream[5].Number?
    && INCOMPATIBILITY_BASE <= stream[1].byte <= INCOMPATIBILITY_BASE + FILE_FORMAT
    && 0 <= stream[3].number <= NEW_BUCKET_COUNT * BUCKET_SIZE && 0 <= stream[4].number <= TRIED_BUCKET_COUNT * BUCKET_SIZE
  }

  method ReadHeader(stream: seq<Token>) returns (error: LoadError, h: Preamble)
    ensures !error.Inconsistent? && (error.Fine? <==> HeaderOk(stream))
    ensures error.Fine? ==> |stream| >= 6 && h == Preamble(stream[0].byte, stream[2].key, stream[3].number, stream[4].number,
                                          if stream[0].byte >= 1 then Flip30(stream[5].number) else stream[5].number)
    ensures error.UnsupportedVersion? ==> |stream| >= 2 && stream[1].Byte? && stream[1].byte > INCOMPATIBILITY_BASE + FILE_FORMAT
  {
    h := Preamble(0, 0, 0, 0, 0);
    if |stream| < 2 || !stream[0].Byte? || !stream[1].Byte? { return EndOfStream, h; }
    var compat := stream[1].byte;
    if compat < INCOMPATIBILITY_BASE { return CompatTooLow, h; }
    if compat - INCOMPATIBILITY_BASE > FILE_FORMAT { return UnsupportedVersion, h; }
    if |stream| < 6 || !stream[2].Key? || !stream[3].Number? || !stream[4].Number? || !stream[5].Number? { return EndOfStream, h; }
    var nNew, nTried := stream[3].number, stream[4].number;
    if nNew > NEW_BUCKET_COUNT * BUCKET_SIZE || nNew < 0 { return BadNewCount, h; }
    if nTried > TRIED_BUCKET_COUNT * BUCKET_SIZE || nTried < 0 { return BadTriedCount, h; }
    var nUBuckets := stream[5].number;
    if stream[0].byte >= 1 { nUBuckets := Flip30(nUBuckets); }
    return Fine, Preamble(stream[0].byte, stream[2].key, nNew, nTried, nUBuckets);
  }

  // ---------------------------------------------------------------- entries

  /** Addresses that may be added are valid ones. */
  ghost predicate RoutableValid(k: Config) { forall a :: k.routable(a) ==> k.valid(a) }

  /** What the manager is while n entries have been read, as far as the counters that are only set later go. */
  ghost function Reading(man: AddrMan, n: nat, total: Counts): State
    reads man
  {
    man.Snapshot().(idCount := n, total := total)
  }

  /** n entries of the image have been read, and the others follow. */
  ghost predicate Underway(o: Image, man: AddrMan, n: nat, rest: seq<Token>, tail: seq<Token>)
    reads man
  {
    && ImageOk(o) && o.config == man.config && RoutableValid(o.config) && n <= |o.ids|
    && Loaded(o, Reading(man, n, if n <= o.nNew then Counts(n, 0) else Counts(o.nNew, n - o.nNew)), n)
    && rest == Records(o.state.infos, o.ids[n..]) + tail
  }

  /** What holds of the entries whatever is read. */
  ghost predicate Listed(m: Infos, random: seq<nat>, n: nat) {
    RandomOk(m, random) && m.Keys == Below(n) && |random| == n
  }

  lemma NoneListed()
    ensures Listed(map[], [], 0)
  {}

  lemma ListMore(m: Infos, random: seq<nat>, n: nat, x: AddrInfo)
    requires Listed(m, random, n) && x.randomPos == |random|
    ensures Listed(m[n := x], random + [n], n + 1)
  {
    assert Below(n) + {n} == Below(n + 1);
    assert n !in m;
  }

  /** The next record is the one that was written there. */
  lemma NextRecord(o: Image, n: nat, rest: seq<Token>, tail: seq<Token>)
    requires ImageOk(o) && n < |o.ids| && rest == Records(o.state.infos, o.ids[n..]) + tail
    ensures o.ids[n] in o.state.infos && |rest| > 0 && rest[0] == Record(Persisted(o.state.infos[o.ids[n]]))
    ensures rest[1..] == Records(o.state.infos, o.ids[n + 1..]) + tail
    ensures o.config.routable(o.state.infos[o.ids[n]].addr) && (o.state.infos[o.ids[n]].inTried <==> n >= o.nNew)
  {
    hide ImageOk, TriedSlot;
    SourceEntry(o, n);
    assert o.ids[n..][0] == o.ids[n];
    assert Records(o.state.infos, o.ids[n..])[1..] == Records(o.state.infos, o.ids[n + 1..]);
  }

  /** Counters with one more entry. */
  lemma ShiftIn(c: Counts)
    ensures Shift(c, Nowhere, New) == Counts(c.nNew + 1, c.nTried) && Shift(c, Nowhere, Tried) == Counts(c.nNew, c.nTried + 1)
  {}

  lemma UnderwayStep(o: Image, man: AddrMan, n: nat, rest: seq<Token>, tail: seq<Token>)
    requires Underway(o, man, n, rest, tail) && n < |o.ids|
    ensures o.ids[n] in o.state.infos && |rest| > 0 && rest[0] == Record(Persisted(o.state.infos[o.ids[n]]))
    ensures var info := o.state.infos[o.ids[n]];
      && (info.inTried <==> n >= o.nNew) && o.config.valid(info.addr) && |man.vRandom| == n
      && (info.inTried ==> TriedSlot(o.config, info.addr) !in man.vvTried)
      && Loaded(o, WithEntry(o.config, Reading(man, n, if n <= o.nNew then Counts(n, 0) else Counts(o.nNew, n - o.nNew)), Persisted(info), info.inTried), n + 1)
    ensures rest[1..] == Records(o.state.infos, o.ids[n + 1..]) + tail
  {
    hide ImageOk, TriedSlot, Records, WithEntry, Consistent;
    NextRecord(o, n, rest, tail);
    var s := Reading(man, n, if n <= o.nNew then Counts(n, 0) else Counts(o.nNew, n - o.nNew));
    LoadStep(o, s, n);
    NextIsFree(o, s, n);
  }

  /** Records one new entry. */
  method AddNewEntry(man: AddrMan, n: nat, e: Entry, ghost c: Counts)
    requires Listed(man.mapInfo, man.vRandom, n)
    modifies man`mapInfo, man`mapAddr, man`vRandom, man`networkCounts
    ensures Listed(man.mapInfo, man.vRandom, n + 1)
    ensures Reading(man, n + 1, Counts(c.nNew + 1, c.nTried)) == WithEntry(man.config, old(Reading(man, n, c)), e, false)
  {
    hide Listed, Shift, CountOf;
    var info := Restored(e, |man.vRandom|, false);
    ListMore(man.mapInfo, man.vRandom, n, info);
    man.mapInfo := man.mapInfo[n := info];
    man.mapAddr := man.mapAddr[e.addr := n];
    man.vRandom := man.vRandom + [n];
    man.networkCounts := man.networkCounts[e.addr.ip.net := Shift(CountOf(man.networkCounts, e.addr.ip.net), Nowhere, New)];
    ShiftIn(c);
  }

  lemma TriedWithin(k: Config, tried: Table, a: Service, id: nat)
    requires Within(tried, TRIED_BUCKET_COUNT)
    ensures Within(tried[TriedSlot(k, a) := id], TRIED_BUCKET_COUNT)
  {}

  /** Records one tried entry. */
  method AddTriedEntry(man: AddrMan, e: Entry, ghost c: Counts)
    requires Listed(man.mapInfo, man.vRandom, man.nIdCount) && Within(man.vvTried, TRIED_BUCKET_COUNT)
    modifies man`nIdCount, man`mapInfo, man`mapAddr, man`vRandom, man`vvTried, man`networkCounts
    ensures Listed(man.mapInfo, man.vRandom, man.nIdCount) && man.nIdCount == old(man.nIdCount) + 1 && Within(man.vvTried, TRIED_BUCKET_COUNT)
    ensures Reading(man, man.nIdCount, Counts(c.nNew, c.nTried + 1)) == WithEntry(man.config, old(Reading(man, man.nIdCount, c)), e, true)
  {
    hide Listed, Shift, CountOf, TriedSlot, Within;
    TriedWithin(man.config, man.vvTried, e.addr, man.nIdCount);
    var info := Restored(e, |man.vRandom|, true);
    ListMore(man.mapInfo, man.vRandom, man.nIdCount, info);
    man.vRandom := man.vRandom + [man.nIdCount];
    man.mapInfo := man.mapInfo[man.nIdCount := info];
    man.mapAddr := man.mapAddr[e.addr := man.nIdCount];
    man.vvTried := man.vvTried[TriedSlot(man.config, e.addr) := man.nIdCount];
    man.nIdCount := man.nIdCount + 1;
    man.networkCounts := man.networkCounts[e.addr.ip.net := Shift(CountOf(man.networkCounts, e.addr.ip.net), Nowhere, Tried)];
    ShiftIn(c);
  }

  /** New entries, numbered from zero. */
  method LoadNew(man: AddrMan, stream: seq<Token>, ghost o: Image, ghost tail: seq<Token>) returns (ok: bool, rest: seq<Token>)
    requires man.mapInfo == map[] && man.vRandom == [] && man.nNew >= 0
    modifies man`nIdCount, man`mapInfo, man`mapAddr, man`vRandom, man`networkCounts
    ensures ok ==> Listed(man.mapInfo, man.vRandom, man.nIdCount) && man.nIdCount == man.nNew
    ensures old(Underway(o, man, 0, stream, tail)) && o.nNew == man.nNew ==> ok && Underway(o, man, o.nNew, rest, tail)
  {
    hide ImageOk, Loaded, RoutableValid, Records, Listed, WithEntry, Persisted;
    ghost var same := Underway(o, man, 0, stream, tail) && o.nNew == man.nNew;
    rest := stream;
    NoneListed();
    var n: nat := 0;
    while n < man.nNew
      invariant n <= man.nNew && Listed(man.mapInfo, man.vRandom, n)
      invariant same ==> Underway(o, man, n, rest, tail)
    {
      if same {
        ImageSize(o);
        UnderwayStep(o, man, n, rest, tail);
      }
      if rest == [] || !rest[0].Record? { return false, rest; }
      AddNewEntry(man, n, rest[0].entry, Counts(n, 0));
      rest := rest[1..];
      n := n + 1;
    }
    SetIdCount(man);
    ok := true;
  }

  method SetIdCount(man: AddrMan)
    requires man.nNew >= 0
    modifies man`nIdCount
    ensures man.nIdCount == man.nNew
    ensures forall n: nat, c :: Reading(man, n, c) == old(Reading(man, n, c))
  {
    man.nIdCount := man.nNew;
  }

  /** Tried entries; those that are invalid or whose slot is taken are lost. */
  method LoadTried(man: AddrMan, stream: seq<Token>, ghost o: Image, ghost tail: seq<Token>) returns (ok: bool, rest: seq<Token>)
    requires Listed(man.mapInfo, man.vRandom, man.nIdCount) && man.nTried >= 0 && Within(man.vvTried, TRIED_BUCKET_COUNT)
    modifies man`nIdCount, man`mapInfo, man`mapAddr, man`vRandom, man`networkCounts, man`vvTried, man`nTried
    ensures ok ==> Listed(man.mapInfo, man.vRandom, man.nIdCount) && man.nIdCount >= old(man.nIdCount) && Within(man.vvTried, TRIED_BUCKET_COUNT)
    ensures old(Underway(o, man, o.nNew, stream, tail)) && o.nNew == old(man.nIdCount) == man.nNew && |o.ids| - o.nNew == old(man.nTried) ==>
              ok && Filled(o, man.Snapshot(), Below(o.nNew)) && rest == tail && man.vvNew == map[]
  {
    hide ImageOk, Loaded, RoutableValid, Records, Listed, WithEntry, TriedSlot, Filled, Within;
    ghost var same := Underway(o, man, o.nNew, stream, tail) && o.nNew == man.nIdCount == man.nNew && |o.ids| - o.nNew == man.nTried;
    rest := stream;
    var nLost: nat := 0;
    var n: nat := 0;
    while n < man.nTried
      invariant n <= man.nTried && man.nIdCount >= old(man.nIdCount) && Listed(man.mapInfo, man.vRandom, man.nIdCount)
      invariant man.nTried == old(man.nTried) && Within(man.vvTried, TRIED_BUCKET_COUNT)
      invariant same ==> man.nIdCount == o.nNew + n && nLost == 0 && Underway(o, man, o.nNew + n, rest, tail)
    {
      if same { UnderwayStep(o, man, o.nNew + n, rest, tail); }
      if rest == [] || !rest[0].Record? { return false, rest; }
      var e := rest[0].entry;
      rest := rest[1..];
      if man.config.valid(e.addr) && TriedSlot(man.config, e.addr) !in man.vvTried {
        AddTriedEntry(man, e, Counts(o.nNew, n));
      } else {
        nLost := nLost + 1;
      }
      n := n + 1;
    }
    man.nTried := man.nTried - nLost;
    if same {
      assert Reading(man, man.nIdCount, Counts(man.nNew, man.nTried)) == man.Snapshot();
      AllLoaded(o, man.Snapshot());
      assert o.ids[|o.ids|..] == [];
      NoRecords(o.state.infos);
    }
    ok := true;
  }

  lemma NoRecords(m: Infos)
    ensures Records(m, []) == []
  {}

  lemma AllLoaded(o: Image, t: State)
    requires ImageOk(o) && Loaded(o, t, |o.ids|)
    ensures Filled(o, t, Below(o.nNew)) && t.news == map[]
  {
    hide Consistent, Matches;
  }

  // ---------------------------------------------------------------- buckets

  ghost function Pairs(o: Image, slots: seq<Slot>): seq<(nat, nat)> {
    seq(|slots|, i requires 0 <= i < |slots| => (slots[i].bucket, Index(o, slots[i])))
  }

  /** The entries of the buckets, those out of range left out. */
  method ReadBuckets(stream: seq<Token>, nUBuckets: int, nNew: nat, ghost o: Image, ghost tail: seq<Token>)
    returns (ok: bool, entries: seq<(nat, nat)>, rest: seq<Token>)
    ensures forall e :: e in entries ==> e.0 < nUBuckets && e.1 < nNew
    ensures ImageOk(o) && nNew == o.nNew && nUBuckets == NEW_BUCKET_COUNT && stream == BucketTokens(o, 0) + tail ==>
              ok && rest == tail && entries == Pairs(o, AllSlots(o.state.news, NEW_BUCKET_COUNT))
  {
    hide ImageOk, BucketTokens, AllSlots, Index, RowSlots;
    ghost var same := ImageOk(o) && nNew == o.nNew && nUBuckets == NEW_BUCKET_COUNT && stream == BucketTokens(o, 0) + tail;
    ok, entries, rest := true, [], stream;
    NoSlotsYet(o.state.news);
    var bucket: nat := 0;
    while bucket < nUBuckets
      invariant nUBuckets >= 0 ==> bucket <= nUBuckets
      invariant forall e :: e in entries ==> e.0 < nUBuckets && e.1 < nNew
      invariant same ==> rest == BucketTokens(o, bucket) + tail && entries == Pairs(o, AllSlots(o.state.news, bucket))
    {
      ghost var row := RowSlots(o.state.news, bucket, BUCKET_SIZE);
      if same {
        BucketStep(o, bucket);
        AllStep(o, bucket);
        FirstNumber(|row|, Indexes(o, row) + BucketTokens(o, bucket + 1), tail, rest);
      }
      if rest == [] || !rest[0].Number? { return false, entries, rest; }
      var numEntries := rest[0].number;
      rest := rest[1..];
      ghost var seen := AllSlots(o.state.news, bucket);
      ghost var tail' := BucketTokens(o, bucket + 1) + tail;
      if same {
        assert rest == Indexes(o, row[0..]) + tail' by { assert row[0..] == row; }
        assert seen + row[..0] == seen;
      }
      var n: nat := 0;
      while n < numEntries
        invariant numEntries >= 0 ==> n <= numEntries
        invariant forall e :: e in entries ==> e.0 < nUBuckets && e.1 < nNew
        invariant same ==> numEntries == |row| && rest == Indexes(o, row[n..]) + tail' && entries == Pairs(o, seen + row[..n])
      {
        if same { NextIndex(o, bucket, row, n, rest, tail', seen); }
        if rest == [] || !rest[0].Number? { return false, entries, rest; }
        var index := rest[0].number;
        rest := rest[1..];
        if 0 <= index < nNew {
          entries := entries + [(bucket, index)];
        }
        n := n + 1;
      }
      if same { RowDone(o, row, n, rest, tail'); }
      bucket := bucket + 1;
    }
    if same { LastBucket(o); }
  }

  lemma NoSlotsYet(table: Table)
    ensures AllSlots(table, 0) == []
  {}

  lemma AllStep(o: Image, b: nat)
    ensures AllSlots(o.state.news, b + 1) == AllSlots(o.state.news, b) + RowSlots(o.state.news, b, BUCKET_SIZE)
  {}

  lemma FirstNumber(x: int, a: seq<Token>, tail: seq<Token>, rest: seq<Token>)
    requires rest == [Number(x)] + a + tail
    ensures |rest| > 0 && rest[0] == Number(x) && rest[1..] == a + tail
  {}

  lemma RowDone(o: Image, row: seq<Slot>, n: nat, rest: seq<Token>, tail: seq<Token>)
    requires n == |row| && rest == Indexes(o, row[n..]) + tail
    ensures rest == tail && row[..n] == row
  {}

  lemma NextIndex(o: Image, bucket: nat, row: seq<Slot>, n: nat, rest: seq<Token>, tail: seq<Token>, seen: seq<Slot>)
    requires ImageOk(o) && n < |row| && row == RowSlots(o.state.news, bucket, BUCKET_SIZE) && rest == Indexes(o, row[n..]) + tail
    ensures |rest| > 0 && rest[0] == Number(Index(o, row[n])) && 0 <= Index(o, row[n]) < o.nNew
    ensures rest[1..] == Indexes(o, row[n + 1..]) + tail
    ensures Pairs(o, seen + row[..n + 1]) == Pairs(o, seen + row[..n]) + [(bucket, Index(o, row[n]))]
  {
    hide ImageOk, Index, RowSlots;
    RowIs(o.state.news, bucket, BUCKET_SIZE);
    assert row[n] in row;
    SourceSlot(o, row[n]);
    assert row[n..][0] == row[n];
    assert Indexes(o, row[n..])[1..] == Indexes(o, row[n + 1..]);
    assert seen + row[..n + 1] == seen + row[..n] + [row[n]];
  }

  /** Puts the entries back where they were, or where their source puts them. */
  method FillBuckets(man: AddrMan, entries: seq<(nat, nat)>, restore: bool, ghost o: Image) returns (ghost pending: set<nat>)
    requires RandomOk(man.mapInfo, man.vRandom) && forall e :: e in entries ==> e.1 in man.mapInfo
    requires Within(man.vvNew, NEW_BUCKET_COUNT) && (restore ==> forall e :: e in entries ==> e.0 < NEW_BUCKET_COUNT)
    modifies man`mapInfo, man`vvNew
    ensures RandomOk(man.mapInfo, man.vRandom) && Within(man.vvNew, NEW_BUCKET_COUNT)
    ensures old(ImageOk(o) && o.config == man.config && RoutableValid(o.config) && Filled(o, man.Snapshot(), Below(o.nNew)) && man.vvNew == map[])
            && entries == Pairs(o, AllSlots(o.state.news, NEW_BUCKET_COUNT)) && restore ==>
              Filled(o, man.Snapshot(), pending) && man.vvNew.Keys == o.state.news.Keys
  {
    hide ImageOk, Filled, RandomOk, Position, NewBucket, AllSlots, Index, RoutableValid, Within, NoRepeat;
    ghost var slots := AllSlots(o.state.news, NEW_BUCKET_COUNT);
    ghost var same := ImageOk(o) && o.config == man.config && RoutableValid(o.config) && Filled(o, man.Snapshot(), Below(o.nNew)) && man.vvNew == map[]
                      && entries == Pairs(o, slots) && restore;
    pending := Below(o.nNew);
    if same { SlotsAre(o); }
    for n := 0 to |entries|
      invariant RandomOk(man.mapInfo, man.vRandom) && man.mapInfo.Keys == old(man.mapInfo.Keys) && Within(man.vvNew, NEW_BUCKET_COUNT)
      invariant same ==> Filled(o, man.Snapshot(), pending) && (forall s :: s in man.vvNew <==> s in slots[..n])
    {
      var bucket, index := entries[n].0, entries[n].1;
      assert entries[n] in entries;
      var info := man.mapInfo[index];
      if same { CanRestore(o, man, pending, slots, n); }
      if man.config.valid(info.addr) && info.refCount < NEW_BUCKETS_PER_ADDRESS {
        var slot := Slot(bucket, Position(man.config, true, bucket, info.addr));
        if !(restore && slot !in man.vvNew) {
          slot := NewSlot(man.config, info.addr, info.source);
          BucketWithin(man.config, info.addr, info.source);
        }
        if slot !in man.vvNew {
          NewWithin(man.config, man.vvNew, slot, index, info.addr);
          RandomUpdate(man.mapInfo, man.vRandom, index, info.(refCount := info.refCount + 1));
          man.vvNew := man.vvNew[slot := index];
          man.mapInfo := man.mapInfo[index := info.(refCount := info.refCount + 1)];
          pending := pending - {index};
        }
      }
    }
    if same { assert slots[..|entries|] == slots; }
  }

  lemma NewWithin(k: Config, news: Table, slot: Slot, id: nat, a: Service)
    requires Within(news, NEW_BUCKET_COUNT) && slot.pos == Position(k, true, slot.bucket, a)
    ensures slot.bucket < NEW_BUCKET_COUNT ==> Within(news[slot := id], NEW_BUCKET_COUNT)
  {}

  lemma BucketWithin(k: Config, a: Service, source: NetAddr)
    ensures NewSlot(k, a, source).bucket < NEW_BUCKET_COUNT
  {}

  lemma SlotsAre(o: Image)
    requires ImageOk(o)
    ensures forall s :: s in AllSlots(o.state.news, NEW_BUCKET_COUNT) <==> s in o.state.news
    ensures NoRepeat(AllSlots(o.state.news, NEW_BUCKET_COUNT))
  {
    hide ImageOk, AllSlots, NoRepeat;
    TotalsAre(o);
    AllIs(o.state.news, NEW_BUCKET_COUNT);
  }

  /** The next entry goes back to its slot. */
  lemma CanRestore(o: Image, man: AddrMan, pending: set<nat>, slots: seq<Slot>, n: nat)
    requires ImageOk(o) && o.config == man.config && RoutableValid(o.config) && Filled(o, man.Snapshot(), pending)
    requires slots == AllSlots(o.state.news, NEW_BUCKET_COUNT) && n < |slots| && forall s :: s in man.vvNew <==> s in slots[..n]
    ensures slots[n] in o.state.news && slots[n] !in man.vvNew
    ensures var i := Index(o, slots[n]);
      && i in man.mapInfo && man.config.valid(man.mapInfo[i].addr) && man.mapInfo[i].refCount < NEW_BUCKETS_PER_ADDRESS
      && slots[n] == Slot(slots[n].bucket, Position(man.config, true, slots[n].bucket, man.mapInfo[i].addr))
      && Filled(o, Placed(man.Snapshot(), slots[n], i), pending - {i})
    ensures forall s :: s in slots[..n + 1] <==> s in slots[..n] || s == slots[n]
  {
    hide ImageOk, Filled, AllSlots, Index, Position;
    var s := slots[n];
    SlotsAre(o);
    assert s in slots;
    assert s !in slots[..n];
    CanFill(o, man.Snapshot(), pending, s);
    FillStep(o, man.Snapshot(), pending, s);
    FilledAddr(o, man.Snapshot(), pending, Index(o, s));
    assert slots[..n + 1] == slots[..n] + [s];
  }

  lemma FilledAddr(o: Image, t: State, pending: set<nat>, i: nat)
    requires Filled(o, t, pending) && i in t.infos
    ensures o.config.routable(t.infos[i].addr)
  {
    hide AddrOk, RandomOk, TriedOk, NewOk, RefsOk, TimesOk, CountsOk, Loose, Matches, NewsOk;
  }

  // ---------------------------------------------------------------- the whole

  /** Deletes entries that have no reference. */
  method Prune(man: AddrMan)
    requires RandomOk(man.mapInfo, man.vRandom)
    modifies man
    ensures man.triedCollisions == old(man.triedCollisions) && man.vvTried == old(man.vvTried) && man.vvNew == old(man.vvNew)
    ensures (forall id :: id in old(man.mapInfo) ==> old(man.mapInfo)[id].inTried || old(man.mapInfo)[id].refCount != 0) ==>
              man.Snapshot() == old(man.Snapshot()) && (old(man.Valid()) ==> man.Valid())
  {
    hide RandomOk, Deleted, Consistent, CollisionsOk;
    ghost var same := forall id :: id in man.mapInfo ==> man.mapInfo[id].inTried || man.mapInfo[id].refCount != 0;
    var todo := man.mapInfo.Keys;
    while todo != {}
      invariant RandomOk(man.mapInfo, man.vRandom) && todo <= man.mapInfo.Keys && man.triedCollisions == old(man.triedCollisions)
      invariant man.vvTried == old(man.vvTried) && man.vvNew == old(man.vvNew)
      invariant same ==> man.Snapshot() == old(man.Snapshot())
    {
      var id :| id in todo;
      todo := todo - {id};
      if !man.mapInfo[id].inTried && man.mapInfo[id].refCount == 0 {
        DeleteRandom(man.Snapshot(), id);
        DeletedParts(man.Snapshot(), id);
        man.Delete(id);
      }
    }
  }

  lemma DeleteRandom(s: State, id: nat)
    requires RandomOk(s.infos, s.random) && id in s.infos
    ensures CanDelete(s, id) && RandomOk(Deleted(s, id).infos, Deleted(s, id).random) && Deleted(s, id).infos.Keys == s.infos.Keys - {id}
  {
    hide RandomOk, Shift, CountOf, Swapped;
    RandomFor(s.infos, s.random, id);
    var i, j := s.infos[id].randomPos, |s.random| - 1;
    SwapRandomOk(s, i, j);
    SwapLast(s, id);
    DropRandom(Swapped(s, i, j).infos, Swapped(s, i, j).random, id);
  }

  lemma DropRandom(m: Infos, random: seq<nat>, id: nat)
    requires RandomOk(m, random) && id in m && random != [] && random[|random| - 1] == id
    ensures RandomOk(m - {id}, random[..|random| - 1])
  {
    var rest := random[..|random| - 1];
    forall q | q in m - {id} ensures 0 <= m[q].randomPos < |rest| && rest[m[q].randomPos] == q {
      assert random[m[q].randomPos] == q;
    }
    forall i | 0 <= i < |rest| ensures rest[i] in m - {id} {
      assert m[random[i]].randomPos == i && m[random[|random| - 1]].randomPos == |random| - 1;
    }
  }

  lemma NothingWithin()
    ensures Within(map[], TRIED_BUCKET_COUNT) && Within(map[], NEW_BUCKET_COUNT)
  {}

  lemma HeaderIs(o: Image, key: nat, asmap: nat, stream: seq<Token>)
    requires ImageOk(o) && stream == Written(o, key, asmap)
    ensures HeaderOk(stream) && stream[0].byte == FILE_FORMAT && stream[2].key == key && stream[3].number == o.nNew
    ensures stream[4].number == |o.ids| - o.nNew && Flip30(stream[5].number) == NEW_BUCKET_COUNT
    ensures stream[6..] == Records(o.state.infos, o.ids) + (BucketTokens(o, 0) + [Checksum(asmap)])
  {
    hide ImageOk, Records, BucketTokens, Within;
    TotalsAre(o);
    ImageSize(o);
    assert stream == Header(o, key) + (Records(o.state.infos, o.ids) + (BucketTokens(o, 0) + [Checksum(asmap)]));
    assert stream[..6] == Header(o, key);
    FlipTwice(NEW_BUCKET_COUNT);
    assert forall i :: 0 <= i < 6 ==> stream[i] == Header(o, key)[i];
  }

  lemma StartLoading(o: Image, man: AddrMan, rest: seq<Token>, tail: seq<Token>)
    requires ImageOk(o) && o.config == man.config && RoutableValid(o.config) && Reading(man, 0, Counts(0, 0)) == EMPTY
    requires rest == Records(o.state.infos, o.ids) + tail
    ensures Underway(o, man, 0, rest, tail)
  {
    hide ImageOk, Records, Consistent;
    EmptyConsistent(o.config);
    assert o.ids[0..] == o.ids;
  }

  lemma Complete(o: Image, man: AddrMan, pending: set<nat>)
    requires ImageOk(o) && o.config == man.config && Filled(o, man.Snapshot(), pending)
    requires man.vvNew.Keys == o.state.news.Keys && man.triedCollisions == {}
    ensures man.Valid() && SameUpToIds(o.ids, o.state, man.Snapshot())
    ensures forall id :: id in man.mapInfo ==> man.mapInfo[id].inTried || man.mapInfo[id].refCount != 0
  {
    hide ImageOk, Filled, SameUpToIds, Consistent;
    FillDone(o, man.Snapshot(), pending);
    assert man.Valid();
    forall id | id in man.mapInfo ensures man.mapInfo[id].inTried || man.mapInfo[id].refCount != 0 { EntryIs(man, id); }
  }

  /** The entries: new ones, then tried ones. */
  method LoadEntries(man: AddrMan, stream: seq<Token>, ghost o: Image, ghost tail: seq<Token>) returns (ok: bool, rest: seq<Token>)
    requires man.mapInfo == map[] && man.vRandom == [] && man.nNew >= 0 && man.nTried >= 0 && Within(man.vvTried, TRIED_BUCKET_COUNT)
    modifies man`nIdCount, man`mapInfo, man`mapAddr, man`vRandom, man`networkCounts, man`vvTried, man`nTried
    ensures ok ==> Listed(man.mapInfo, man.vRandom, man.nIdCount) && man.nIdCount >= man.nNew && Within(man.vvTried, TRIED_BUCKET_COUNT)
    ensures old(Underway(o, man, 0, stream, tail)) && o.nNew == man.nNew && |o.ids| - o.nNew == old(man.nTried) ==>
              ok && Filled(o, man.Snapshot(), Below(o.nNew)) && rest == tail && man.vvNew == map[]
  {
    hide Underway, Listed, Filled, Within;
    ok, rest := LoadNew(man, stream, o, tail);
    if ok { ok, rest := LoadTried(man, rest, o, tail); }
  }

  /** The new table, from the numbers of the entries in each bucket. */
  method LoadBuckets(man: AddrMan, header: Preamble, asmap: nat, stream: seq<Token>, ghost o: Image) returns (ok: bool)
    requires Listed(man.mapInfo, man.vRandom, man.nIdCount) && man.nIdCount >= header.nNew && man.vvNew == map[]
    modifies man`mapInfo, man`vvNew
    ensures RandomOk(man.mapInfo, man.vRandom) && Within(man.vvNew, NEW_BUCKET_COUNT)
    ensures old(ImageOk(o) && o.config == man.config && RoutableValid(o.config) && Filled(o, man.Snapshot(), Below(o.nNew)))
            && header.nNew == o.nNew && header.nUBuckets == NEW_BUCKET_COUNT && header.format == FILE_FORMAT
            && stream == BucketTokens(o, 0) + [Checksum(asmap)] && man.triedCollisions == {} ==>
              ok && man.Valid() && SameUpToIds(o.ids, o.state, man.Snapshot())
              && forall id :: id in man.mapInfo ==> man.mapInfo[id].inTried || man.mapInfo[id].refCount != 0
  {
    hide ImageOk, BucketTokens, Filled, AddrMan.Valid, RoutableValid, SameUpToIds, RandomOk, AllSlots, Pairs, Within;
    NothingWithin();
    ghost var same := ImageOk(o) && o.config == man.config && RoutableValid(o.config) && Filled(o, man.Snapshot(), Below(o.nNew))
                      && header.nNew == o.nNew && header.nUBuckets == NEW_BUCKET_COUNT && header.format == FILE_FORMAT
                      && stream == BucketTokens(o, 0) + [Checksum(asmap)] && man.triedCollisions == {};
    var entries, rest;
    ok, entries, rest := ReadBuckets(stream, header.nUBuckets, header.nNew, o, [Checksum(asmap)]);
    if !ok { return; }
    var checksum := 0;
    if header.format >= 2 {
      if rest == [] || !rest[0].Checksum? { return false; }
      checksum := rest[0].checksum;
    }
    ghost var pending := FillBuckets(man, entries, header.nUBuckets == NEW_BUCKET_COUNT && checksum == asmap, o);
    if same { Complete(o, man, pending); }
  }

  /**
   * Reads a manager. Whatever the stream holds, a manager that is accepted passes the consistency check. If the stream was written from a consistent state with the same key and the same
   * asmap, nothing is lost: the manager read is that state but for the names of the entries.
   */
  method Unserialize(keyed: nat -> Config, asmap: nat, stream: seq<Token>, ghost o: Image, ghost key: nat) returns (error: LoadError, man: AddrMan)
    ensures fresh(man)
    ensures error.Fine? ==> HeaderOk(stream) && Checked(man)
    ensures error.Inconsistent? ==> HeaderOk(stream) && !Checked(man)
    ensures ImageOk(o) && o.config == keyed(key) && RoutableValid(o.config) && stream == Written(o, key, asmap) ==>
              error.Fine? && man.config == o.config && man.Valid() && SameUpToIds(o.ids, o.state, man.Snapshot())
  {
    hide ImageOk, Records, BucketTokens, Filled, AddrMan.Valid, HeaderOk, RoutableValid, SameUpToIds, RandomOk, Listed, Written, Underway, Within, Checked;
    var header;
    error, header := ReadHeader(stream);
    man := new AddrMan(keyed(header.key));
    ghost var same := ImageOk(o) && o.config == keyed(key) && RoutableValid(o.config) && stream == Written(o, key, asmap);
    if same { HeaderIs(o, key, asmap, stream); }
    if !error.Fine? { return; }
    man.nNew, man.nTried := header.nNew, header.nTried;
    NothingWithin();
    ghost var tail := BucketTokens(o, 0) + [Checksum(asmap)];
    if same { StartLoading(o, man, stream[6..], tail); }
    var ok, rest := LoadEntries(man, stream[6..], o, tail);
    if !ok { return EndOfStream, man; }
    ok := LoadBuckets(man, header, asmap, rest, o);
    if !ok { return EndOfStream, man; }
    Prune(man);
    if same { ValidIsChecked(man); }
    var code := CheckAddrman(man);
    if code != 0 { error := Inconsistent(code); }
  }

  /** Writing a manager and reading it back: the copy is the manager but for the names of its entries. */
  method SaveAndLoad(man: AddrMan, keyed: nat -> Config, key: nat, asmap: nat) returns (error: LoadError, copy: AddrMan)
    requires man.Valid() && man.config == keyed(key) && RoutableValid(man.config)
    ensures error.Fine? && fresh(copy) && copy.config == man.config && copy.Valid()
    ensures exists ids :: SameUpToIds(ids, man.Snapshot(), copy.Snapshot())
  {
    hide AddrMan.Valid, ImageOk, Written, SameUpToIds, RoutableValid, HeaderOk;
    var stream := Serialize(man, key, asmap);
    ghost var o :| ImageOk(o) && o.config == man.config && o.state == man.Snapshot() && stream == Written(o, key, asmap);
    error, copy := Unserialize(keyed, asmap, stream, o, key);
    assert SameUpToIds(o.ids, man.Snapshot(), copy.Snapshot());
  }
}
