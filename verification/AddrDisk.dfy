// Writing the address manager and reading it back (src/addrman.cpp, Serialize and Unserialize).
module AddrDisks {
  import opened Sets
  import opened AddrTables
  import opened AddrSteps
  import opened AddrMans
  import opened AddrChecks
  import opened AddrImages

  // ---------------------------------------------------------------- the slots of a table in order

  lemma {:induction false} RowIs(table: Table, bucket: nat, n: nat)
    ensures forall s :: s in RowSlots(table, bucket, n) <==> s in table && s.bucket == bucket && s.pos < n
    ensures |RowSlots(table, bucket, n)| <= n
    ensures NoRepeat(RowSlots(table, bucket, n))
  {
    if n > 0 { RowIs(table, bucket, n - 1); }
  }

  ghost predicate NoRepeat(slots: seq<Slot>) {
    forall i, j :: 0 <= i < j < |slots| ==> slots[i] != slots[j]
  }

  lemma {:induction false} AllIs(table: Table, b: nat)
    ensures forall s :: s in AllSlots(table, b) <==> s in table && s.bucket < b && s.pos < BUCKET_SIZE
    ensures |AllSlots(table, b)| <= b * BUCKET_SIZE
    ensures NoRepeat(AllSlots(table, b))
  {
    if b > 0 {
      hide RowSlots;
      AllIs(table, b - 1);
      RowIs(table, b - 1, BUCKET_SIZE);
      var a, r := AllSlots(table, b - 1), RowSlots(table, b - 1, BUCKET_SIZE);
      forall i, j | 0 <= i < j < |a + r| ensures (a + r)[i] != (a + r)[j] {
        if i < |a| <= j { assert a[i] in a && r[j - |a|] in r; }
      }
    }
  }

  ghost function Holders(table: Table, slots: seq<Slot>): set<nat> { set s | s in slots && s in table :: table[s] }

  lemma {:induction false} HoldersSize(table: Table, slots: seq<Slot>)
    ensures |Holders(table, slots)| <= |slots|
  {
    if slots == [] {
      assert Holders(table, slots) == {};
    } else {
      var x, rest := slots[0], slots[1..];
      HoldersSize(table, rest);
      assert Holders(table, slots) == Holders(table, rest) + if x in table then {table[x]} else {};
    }
  }

  lemma TableHolds(table: Table, buckets: nat, ids: set<nat>)
    requires Within(table, buckets) && forall id :: id in ids ==> exists s :: s in table && table[s] == id
    ensures |ids| <= buckets * BUCKET_SIZE
  {
    hide AllSlots, NoRepeat;
    AllIs(table, buckets);
    var slots := AllSlots(table, buckets);
    HoldersSize(table, slots);
    forall id | id in ids ensures id in Holders(table, slots) {
      var s :| s in table && table[s] == id;
      assert s in slots;
    }
    SubsetSize(ids, Holders(table, slots));
  }

  /** The counters are what is written, and in range. */
  lemma TotalsAre(o: Image)
    requires ImageOk(o)
    ensures o.state.total == Counts(o.nNew, |o.ids| - o.nNew)
    ensures o.nNew <= NEW_BUCKET_COUNT * BUCKET_SIZE && |o.ids| - o.nNew <= TRIED_BUCKET_COUNT * BUCKET_SIZE
    ensures Within(o.state.news, NEW_BUCKET_COUNT) && Within(o.state.tried, TRIED_BUCKET_COUNT)
  {
    hide Consistent, Within;
    var a, b := o.ids[..o.nNew], o.ids[o.nNew..];
    KindsAre(o);
    DistinctSize(a);
    DistinctSize(b);
    Bounded(o);
    TableHolds(o.state.news, NEW_BUCKET_COUNT, Elems(a));
    TableHolds(o.state.tried, TRIED_BUCKET_COUNT, Elems(b));
    Totals(o);
  }

  lemma Totals(o: Image)
    requires ImageOk(o)
    ensures o.state.total == Counts(|OfKind(o.state.infos, {}, New)|, |OfKind(o.state.infos, {}, Tried)|)
  {
    hide AddrOk, RandomOk, TriedOk, NewOk, RefsOk, TimesOk, IdsOk, Loose, Distinct, OfKind, NetsOk, KindAt;
  }

  lemma KindsAre(o: Image)
    requires ImageOk(o)
    ensures Elems(o.ids[..o.nNew]) == OfKind(o.state.infos, {}, New) && Elems(o.ids[o.nNew..]) == OfKind(o.state.infos, {}, Tried)
  {
    hide Consistent, Distinct;
    var a, b := o.ids[..o.nNew], o.ids[o.nNew..];
    forall x | x in a ensures x in o.state.infos && !o.state.infos[x].inTried {
      var i :| 0 <= i < |a| && a[i] == x;
      assert KindAt(o, i);
    }
    forall x | x in b ensures x in o.state.infos && o.state.infos[x].inTried {
      var i :| 0 <= i < |b| && b[i] == x;
      assert KindAt(o, i + o.nNew);
    }
    forall x | x in o.state.infos ensures x in a || x in b {
      assert x in Elems(o.ids) && o.ids == a + b;
    }
  }

  lemma Bounded(o: Image)
    requires ImageOk(o)
    ensures Within(o.state.news, NEW_BUCKET_COUNT) && Within(o.state.tried, TRIED_BUCKET_COUNT)
    ensures forall id :: id in Elems(o.ids[..o.nNew]) ==> exists s :: s in o.state.news && o.state.news[s] == id
    ensures forall id :: id in Elems(o.ids[o.nNew..]) ==> exists s :: s in o.state.tried && o.state.tried[s] == id
  {
    hide AddrOk, RandomOk, CountsOk, TimesOk, IdsOk, Loose, RefsOk, Distinct;
    forall i | 0 <= i < o.nNew ensures exists s :: s in o.state.news && o.state.news[s] == o.ids[i] {
      assert KindAt(o, i);
      RefsFor(o.state.infos, o.state.news, {}, o.ids[i]);
      var s :| s in SlotsOf(o.state.news, o.ids[i]);
    }
    forall i | o.nNew <= i < |o.ids| ensures exists s :: s in o.state.tried && o.state.tried[s] == o.ids[i] {
      assert KindAt(o, i);
    }
  }

  // ---------------------------------------------------------------- writing

  /** The tried or the other entries among ids, in order. */
  function Select(m: Infos, ids: seq<nat>, tried: bool): seq<nat> {
    if ids == [] then []
    else
      var x := ids[|ids| - 1];
      Select(m, ids[..|ids| - 1], tried) + if x in m && m[x].inTried == tried then [x] else []
  }

  lemma {:induction false} SelectIs(m: Infos, ids: seq<nat>, tried: bool)
    ensures forall x :: x in Select(m, ids, tried) <==> x in ids && x in m && m[x].inTried == tried
    ensures Distinct(ids) ==> Distinct(Select(m, ids, tried))
  {
    if ids != [] {
      SelectIs(m, ids[..|ids| - 1], tried);
      assert ids == ids[..|ids| - 1] + [ids[|ids| - 1]];
    }
  }

  lemma {:induction false} SelectGrows(m: Infos, ids: seq<nat>, n: nat, tried: bool)
    requires n <= |ids|
    ensures |Select(m, ids[..n], tried)| <= |Select(m, ids, tried)|
  {
    if n < |ids| {
      SelectGrows(m, ids[..|ids| - 1], n, tried);
      assert ids[..|ids| - 1][..n] == ids[..n];
    } else {
      assert ids[..n] == ids;
    }
  }

  /** The entries in the order the hash map happens to give them. */
  method Enumerate(keys: set<nat>) returns (order: seq<nat>)
    ensures Distinct(order) && Elems(order) == keys
  {
    order := [];
    var todo := keys;
    while todo != {}
      invariant Distinct(order) && Elems(order) == keys - todo && todo <= keys
    {
      var id :| id in todo;
      assert id !in Elems(order);
      assert Elems(order + [id]) == Elems(order) + {id};
      order := order + [id];
      todo := todo - {id};
    }
  }

  ghost function ImageOf(man: AddrMan, order: seq<nat>): Image
    reads man
  {
    Image(man.config, man.Snapshot(), Select(man.mapInfo, order, false) + Select(man.mapInfo, order, true), |Select(man.mapInfo, order, false)|)
  }

  lemma ImageIsOk(man: AddrMan, order: seq<nat>)
    requires man.Valid() && Distinct(order) && Elems(order) == man.mapInfo.Keys
    ensures ImageOk(ImageOf(man, order))
  {
    hide Consistent, CollisionsOk, Select;
    var m := man.mapInfo;
    SelectIs(m, order, false);
    SelectIs(m, order, true);
    var a, b, o := Select(m, order, false), Select(m, order, true), ImageOf(man, order);
    forall i | 0 <= i < |o.ids| ensures KindAt(o, i) {
      if i < |a| { assert o.ids[i] == a[i] && a[i] in a; } else { assert o.ids[i] == b[i - |a|] && b[i - |a|] in b; }
    }
    forall i, j | 0 <= i < j < |o.ids| ensures o.ids[i] != o.ids[j] {
      if i < |a| <= j { assert a[i] in a && b[j - |a|] in b; }
    }
    forall id | id in m ensures id in o.ids { assert id in Elems(order); assert id in a || id in b; }
  }

  /** The first pass: new entries, and the number of each in the file. */
  method WriteNew(man: AddrMan, order: seq<nat>) returns (out: seq<Token>, unkIds: map<nat, nat>)
    requires man.Valid() && Distinct(order) && Elems(order) == man.mapInfo.Keys
    ensures out == Records(man.mapInfo, Select(man.mapInfo, order, false))
    ensures forall id :: id in Select(man.mapInfo, order, false) ==> id in unkIds && unkIds[id] == IndexOf(ImageOf(man, order).ids, id)
  {
    hide AddrMan.Valid, Select, IndexOf, Distinct, ImageOk;
    ghost var m, o := man.mapInfo, ImageOf(man, order);
    ImageIsOk(man, order);
    TotalsAre(o);
    SelectNone(m, order, false);
    out, unkIds := [], map[];
    var nIds := 0;
    for n := 0 to |order|
      invariant out == Records(m, Select(m, order[..n], false)) && nIds == |out|
      invariant forall id :: id in Select(m, order[..n], false) ==> id in unkIds && unkIds[id] == IndexOf(o.ids, id)
    {
      var id := order[n];
      assert id in Elems(order);
      EntryIs(man, id);
      SelectStep(m, order, n, false);
      SelectGrows(m, order, n + 1, false);
      SelectIs(m, order[..n], false);
      ghost var before := unkIds;
      unkIds := unkIds[id := nIds];
      OnlyOnce(order, n);
      if man.mapInfo[id].refCount != 0 {
        assert nIds != man.nNew;
        NumberIs(man, order, n);
        out := out + [Record(Persisted(man.mapInfo[id]))];
        nIds := nIds + 1;
      }
    }
    assert order[..|order|] == order;
  }

  lemma SelectNone(m: Infos, order: seq<nat>, tried: bool)
    ensures Select(m, order[..0], tried) == []
  {}

  lemma SelectStep(m: Infos, order: seq<nat>, n: nat, tried: bool)
    requires n < |order| && order[n] in m
    ensures Select(m, order[..n + 1], tried) == Select(m, order[..n], tried) + if m[order[n]].inTried == tried then [order[n]] else []
  {
    assert order[..n + 1][..n] == order[..n];
  }

  lemma OnlyOnce(order: seq<nat>, n: nat)
    requires Distinct(order) && n < |order|
    ensures order[n] !in order[..n]
  {}

  /** A new entry is number so and so among all that are written. */
  lemma NumberIs(man: AddrMan, order: seq<nat>, n: nat)
    requires man.Valid() && Distinct(order) && Elems(order) == man.mapInfo.Keys && n < |order| && order[n] in man.mapInfo && !man.mapInfo[order[n]].inTried
    ensures IndexOf(ImageOf(man, order).ids, order[n]) == |Select(man.mapInfo, order[..n], false)|
  {
    hide AddrMan.Valid, Select, Distinct, IndexOf;
    var m, o := man.mapInfo, ImageOf(man, order);
    ImageIsOk(man, order);
    var i := |Select(m, order[..n], false)|;
    SelectStep(m, order, n, false);
    SelectPrefix(m, order, n + 1, false);
    assert o.ids[i] == order[n];
    IndexIs(o.ids, i);
  }

  lemma {:induction false} SelectPrefix(m: Infos, ids: seq<nat>, n: nat, tried: bool)
    requires n <= |ids|
    ensures Select(m, ids[..n], tried) <= Select(m, ids, tried)
  {
    if n < |ids| {
      SelectPrefix(m, ids[..|ids| - 1], n, tried);
      assert ids[..|ids| - 1][..n] == ids[..n];
    } else {
      assert ids[..n] == ids;
    }
  }

  /** The second pass: tried entries. */
  method WriteTried(man: AddrMan, order: seq<nat>) returns (out: seq<Token>)
    requires man.Valid() && Distinct(order) && Elems(order) == man.mapInfo.Keys
    ensures out == Records(man.mapInfo, Select(man.mapInfo, order, true))
  {
    hide AddrMan.Valid, Select, Distinct, ImageOk;
    ghost var m := man.mapInfo;
    ImageIsOk(man, order);
    TotalsAre(ImageOf(man, order));
    SelectNone(m, order, true);
    out := [];
    var nIds := 0;
    for n := 0 to |order|
      invariant out == Records(m, Select(m, order[..n], true)) && nIds == |out|
    {
      var id := order[n];
      assert id in Elems(order);
      SelectStep(m, order, n, true);
      SelectGrows(m, order, n + 1, true);
      if man.mapInfo[id].inTried {
        assert nIds != man.nTried;
        out := out + [Record(Persisted(man.mapInfo[id]))];
        nIds := nIds + 1;
      }
    }
    assert order[..|order|] == order;
  }

  /** One bucket: the number of its entries and their numbers. */
  method WriteBucket(man: AddrMan, bucket: nat, unkIds: map<nat, nat>, ghost o: Image) returns (out: seq<Token>)
    requires ImageOk(o) && o.state == man.Snapshot() && bucket < NEW_BUCKET_COUNT
    requires forall id :: id in o.ids[..o.nNew] ==> id in unkIds && unkIds[id] == IndexOf(o.ids, id)
    ensures out == [Number(|RowSlots(man.vvNew, bucket, BUCKET_SIZE)|)] + Indexes(o, RowSlots(man.vvNew, bucket, BUCKET_SIZE))
  {
    hide ImageOk, IndexOf;
    var nSize := 0;
    for i := 0 to BUCKET_SIZE
      invariant nSize == |RowSlots(man.vvNew, bucket, i)|
    {
      if Slot(bucket, i) in man.vvNew { nSize := nSize + 1; }
    }
    out := [Number(nSize)];
    for i := 0 to BUCKET_SIZE
      invariant out == [Number(nSize)] + Indexes(o, RowSlots(man.vvNew, bucket, i))
    {
      var slot := Slot(bucket, i);
      if slot in man.vvNew {
        HasNumber(o, slot);
        out := out + [Number(unkIds[man.vvNew[slot]])];
      }
    }
  }

  lemma HasNumber(o: Image, slot: Slot)
    requires ImageOk(o) && slot in o.state.news
    ensures o.nNew <= |o.ids| && o.state.news[slot] in o.ids[..o.nNew]
  {
    hide Consistent, Index;
    SourceSlot(o, slot);
    assert o.ids[..o.nNew][Index(o, slot)] == o.state.news[slot];
  }

  /** The stream holds the state in some order of its entries. */
  ghost predicate Holds(stream: seq<Token>, k: Config, s: State, key: nat, asmap: nat) {
    exists o :: ImageOk(o) && o.config == k && o.state == s && stream == Written(o, key, asmap)
  }

  method Serialize(man: AddrMan, key: nat, asmap: nat) returns (stream: seq<Token>)
    requires man.Valid()
    ensures Holds(stream, man.config, man.Snapshot(), key, asmap)
  {
    hide AddrMan.Valid, ImageOk, Records, Select, BucketTokens, Indexes, RowSlots, IndexOf, Distinct, Elems;
    stream := [Byte(FILE_FORMAT), Byte(INCOMPATIBILITY_BASE + LOWEST_COMPATIBLE), Key(key), Number(man.nNew), Number(man.nTried), Number(Flip30(NEW_BUCKET_COUNT))];
    var order := Enumerate(man.mapInfo.Keys);
    ghost var o := ImageOf(man, order);
    ImageIsOk(man, order);
    TotalsAre(o);
    var news, unkIds := WriteNew(man, order);
    var trieds := WriteTried(man, order);
    stream := stream + news + trieds;
    RecordsJoin(man.mapInfo, Select(man.mapInfo, order, false), Select(man.mapInfo, order, true));
    assert o.ids[..o.nNew] == Select(man.mapInfo, order, false);
    var bucket: nat := 0;
    while bucket < NEW_BUCKET_COUNT
      invariant bucket <= NEW_BUCKET_COUNT
      invariant stream + BucketTokens(o, bucket) == Header(o, key) + Records(o.state.infos, o.ids) + BucketTokens(o, 0)
    {
      var out := WriteBucket(man, bucket, unkIds, o);
      BucketStep(o, bucket);
      assert stream + BucketTokens(o, bucket) == stream + out + BucketTokens(o, bucket + 1);
      stream := stream + out;
      bucket := bucket + 1;
    }
    LastBucket(o);
    assert stream == stream + [];
    stream := stream + [Checksum(asmap)];
    assert stream == Written(o, key, asmap);
  }

  lemma RecordsJoin(m: Infos, a: seq<nat>, b: seq<nat>)
    ensures Records(m, a) + Records(m, b) == Records(m, a + b)
  {}

  lemma BucketStep(o: Image, b: nat)
    requires b < NEW_BUCKET_COUNT
    ensures var row := RowSlots(o.state.news, b, BUCKET_SIZE);
      BucketTokens(o, b) == [Number(|row|)] + Indexes(o, row) + BucketTokens(o, b + 1)
  {
    hide RowSlots, Indexes;
  }

  lemma LastBucket(o: Image)
    ensures BucketTokens(o, NEW_BUCKET_COUNT) == []
  {}
}
