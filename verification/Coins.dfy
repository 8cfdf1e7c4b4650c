// Stacks of write-back coins caches over a coins database (src/coins.cpp, src/coins.h, src/txdb.cpp).
// A view is the map of unspent coins that a layer presents.
module Coins {
  import opened CoinTables
  import opened CoinViews

  const MAX_SCRIPT_SIZE := 10000
  const OP_RETURN := 0x6a

  predicate IsUnspendable(script: seq<nat>) {
    (|script| > 0 && script[0] == OP_RETURN) || |script| > MAX_SCRIPT_SIZE
  }

  // ---------------------------------------------------------------- the cursor

  /** Iterates over the flagged entries of a cache that is flushed (willErase) or synced. */
  datatype Cursor = Cursor(table: CoinTable, willErase: bool) {

    /** The first n of the listed entries have been passed; a sync has unflagged or erased them. */
    ghost predicate Passed(child: Cached, order: seq<OutPoint>, n: nat)
      reads table
    {
      && table.Valid() && Lists(order, child) && n <= |order|
      && (willErase ==> table.order == order && table.Contents() == child)
      && (!willErase ==> table.order == order[n..] && table.Contents() == Settled(child, order[..n]))
    }

    method Begin() returns (at: Link)
      requires table.Valid()
      ensures at == LinkAt(table.order, 0) && Passed(table.Contents(), table.order, 0)
    {
      at := table.Next(Sentinel);
      TableLists(table.entries, table.sentinel, table.order);
      assert table.order[0..] == table.order && table.order[..0] == [];
      SettledNone(table.Contents());
    }

    /** Steps past an entry; a sync erases it if it is spent and else clears its flags. */
    method NextAndMaybeErase(k: OutPoint, ghost child: Cached, ghost order: seq<OutPoint>, ghost n: nat) returns (next: Link)
      requires Passed(child, order, n) && n < |order| && k == order[n]
      modifies table
      ensures Passed(child, order, n + 1) && next == LinkAt(order, n + 1)
    {
      hide Wired, Settled, Data;
      Here(this, child, order, n);
      next := table.Next(Pair(k));
      ghost var c := table.Contents();
      if !willErase {
        assert order[n..][0] == k;
        assert Without(order[n..], 0) == order[n + 1..];
        SettledNext(child, order, n);
        if table.entries[k].info.coin.Spent? {
          table.Erase(k);
        } else {
          table.SetClean(k);
        }
      }
    }
  }

  lemma TableLists(e: map<OutPoint, Entry>, s: Links, order: seq<OutPoint>)
    requires Wired(e, s, order)
    ensures Lists(order, Data(e))
  {}

  lemma SettledNone(child: Cached)
    ensures Settled(child, []) == child
  {}

  /** One more entry is erased or unflagged. */
  lemma SettledNext(child: Cached, order: seq<OutPoint>, n: nat)
    requires Lists(order, child) && n < |order|
    ensures order[n] in child && order[n] in Settled(child, order[..n]) && Settled(child, order[..n])[order[n]] == child[order[n]]
    ensures Settled(child, order[..n + 1])
            == if child[order[n]].coin.Spent? then Settled(child, order[..n]) - {order[n]}
               else Settled(child, order[..n])[order[n] := Info(child[order[n]].coin, false, false)]
  {
    var k := order[n];
    assert k in order && k !in order[..n];
    assert forall q :: q in order[..n + 1] <==> q in order[..n] || q == k;
  }

  /** The entry a cursor stands on is as it was when the iteration began. */
  lemma Here(cursor: Cursor, child: Cached, order: seq<OutPoint>, n: nat)
    requires cursor.Passed(child, order, n) && n < |order|
    ensures order[n] in cursor.table.entries && order[n] in child && cursor.table.entries[order[n]].info == child[order[n]]
    ensures child[order[n]].Flagged()
  {
    hide Wired, Settled;
    assert order[n] in order;
    SettledNext(child, order, n);
    var c := cursor.table.Contents();
    assert order[n] in c && c[order[n]] == child[order[n]];
  }

  /** What an iteration leaves of the entries: a flush erases them afterwards, a sync has settled them all. */
  ghost predicate Drained(cursor: Cursor, child: Cached, order: seq<OutPoint>)
    reads cursor.table
  {
    && cursor.table.Valid()
    && (!cursor.willErase ==> cursor.table.order == [] && cursor.table.Contents() == Settled(child, order))
  }

  lemma PassedAll(cursor: Cursor, child: Cached, order: seq<OutPoint>)
    requires cursor.Passed(child, order, |order|)
    ensures Drained(cursor, child, order)
  {
    assert order[..|order|] == order;
  }

  lemma ListedPart(order: seq<OutPoint>, child: Cached, n: nat)
    requires Lists(order, child) && n <= |order|
    ensures forall k :: k in order[..n] ==> k in child
  {}

  // ---------------------------------------------------------------- the database

  /** The coins database; what is stored may be any coin, spent or not. */
  class CoinsDb {
    var coins: map<OutPoint, Coin>

    constructor ()
      ensures coins == map[]
    {
      coins := map[];
    }

    method GetCoin(k: OutPoint) returns (r: Option<Coin>)
      ensures r == if k in coins then Some(coins[k]) else None
    {
      r := if k in coins then Some(coins[k]) else None;
    }

    /** Takes over the dirty entries of a cache. */
    method BatchWrite(cursor: Cursor)
      requires cursor.table.Valid()
      modifies this, cursor.table
      ensures Drained(cursor, old(cursor.table.Contents()), old(cursor.table.order))
      ensures Lists(old(cursor.table.order), old(cursor.table.Contents()))
      ensures coins == Write(old(coins), old(cursor.table.Contents()), old(cursor.table.order))
    {
      hide Wired, Data, Settled;
      ghost var child, order, was := cursor.table.Contents(), cursor.table.order, coins;
      ghost var n: nat := 0;
      var at := cursor.Begin();
      while at != Sentinel
        invariant cursor.Passed(child, order, n) && at == LinkAt(order, n)
        invariant (forall k :: k in order[..n] ==> k in child) && coins == Write(was, child, order[..n])
        decreases |order| - n
      {
        var k := at.key;
        Here(cursor, child, order, n);
        ListedPart(order, child, n + 1);
        assert order[..n + 1][..n] == order[..n];
        var info := cursor.table.entries[k].info;
        if info.isDirty {
          coins := if info.coin.Spent? then coins - {k} else coins[k := info.coin];
        }
        at := cursor.NextAndMaybeErase(k, child, order, n);
        n := n + 1;
      }
      assert order[..n] == order;
      PassedAll(cursor, child, order);
    }
  }

  // ---------------------------------------------------------------- the cache

  datatype Base = Db(db: CoinsDb) | Cache(cache: CoinsCache)

  class CoinsCache {
    const base: Base
    const table: CoinTable
    ghost const depth: nat
    ghost const Repr: set<object>

    /** Layers do not share entries. */
    ghost predicate Shape()
      decreases depth
    {
      && (base.Cache? ==> base.cache.depth < depth && base.cache.Shape())
      && table !in BaseRepr() && Repr == {table} + BaseRepr()
    }

    ghost function BaseRepr(): set<object> {
      match base
      case Db(db) => {db}
      case Cache(cache) => cache.Repr
    }

    ghost function BaseView(): View
      requires Shape()
      reads BaseRepr()
      decreases depth, 0
    {
      match base
      case Db(db) => Unspents(db.coins)
      case Cache(cache) => cache.View()
    }

    ghost function View(): View
      requires Shape()
      reads Repr
      decreases depth, 1
    {
      Overlay(table.Contents(), BaseView())
    }

    /** Whether the layer below finds anything under k. */
    ghost predicate BaseHas(k: OutPoint)
      requires Shape()
      reads BaseRepr()
    {
      match base
      case Db(db) => k in db.coins
      case Cache(cache) => k in cache.View()
    }

    /** The views of all layers below this one, the database last. */
    ghost function BaseViews(): (views: seq<View>)
      requires Shape()
      reads BaseRepr()
      ensures views != []
      decreases depth, 0
    {
      match base
      case Db(db) => [Unspents(db.coins)]
      case Cache(cache) => cache.Views()
    }

    ghost function Views(): seq<View>
      requires Shape()
      reads Repr
      decreases depth, 1
    {
      [View()] + BaseViews()
    }

    /** In every layer the list holds exactly the flagged entries and the flags are right about the layer below. */
    ghost predicate Valid()
      reads Repr
      decreases depth
    {
      && Shape()
      && table.Valid()
      && Coherent(table.Contents(), BaseView())
      && (base.Cache? ==> base.cache.Valid())
    }

    lemma BaseFirst()
      requires Shape()
      ensures BaseViews()[0] == BaseView()
    {}

    lemma Unfold()
      requires Valid()
      ensures Shape() && table.Valid() && Coherent(table.Contents(), BaseView()) && (base.Cache? ==> base.cache.Valid())
      ensures table !in BaseRepr() && Repr == {table} + BaseRepr()
      ensures Views() == [View()] + BaseViews() && Views()[0] == View() && Views()[1..] == BaseViews()
      ensures View() == Overlay(table.Contents(), BaseView())
      ensures BaseViews()[0] == BaseView()
    {}

    lemma Fold()
      requires Shape() && table.Valid() && Coherent(table.Contents(), BaseView()) && (base.Cache? ==> base.cache.Valid())
      ensures Valid()
      ensures Views() == [View()] + BaseViews() && Views()[0] == View() && Views()[1..] == BaseViews()
      ensures View() == Overlay(table.Contents(), BaseView())
    {}

    /** An empty cache on top of another view shows what that view shows. */
    constructor (base: Base)
      requires base.Cache? ==> base.cache.Valid()
      ensures Valid() && this.base == base && fresh(Repr - BaseRepr())
      ensures View() == BaseView() && BaseViews() == if base.Db? then [Unspents(base.db.coins)] else base.cache.Views()
    {
      var t := new CoinTable();
      this.base := base;
      table := t;
      depth := if base.Cache? then base.cache.depth + 1 else 0;
      Repr := {t} + (if base.Cache? then base.cache.Repr else {base.db});
      new;
      assert Overlay(map[], BaseView()) == BaseView();
    }

    /** Looks an outpoint up, filling the caches on the way. */
    method FetchCoin(k: OutPoint) returns (found: bool)
      requires Valid()
      modifies Repr
      ensures Valid() && Views() == old(Views())
      ensures found == (k in table.entries) && (!found ==> k !in BaseView())
      ensures found <==> k in old(table.entries) || old(BaseHas(k))
      ensures k in old(table.entries) ==> table.Contents() == old(table.Contents())
      decreases depth, 1
    {
      hide Wired, Data, Coherent, Overlay, CoinsCache.Valid, Views, View, BaseViews, BaseView, BaseHas, Shape;
      Unfold();
      ghost var c, v := table.Contents(), BaseView();
      DataKeys(table.entries);
      var inserted := table.TryEmplace(k);
      found := true;
      if inserted {
        var coin := BaseGetCoin(k);
        BaseFirst();
        found := FillIn(k, coin);
        if found {
          FetchKeeps(c, v, k, coin.value);
          assert table.Contents() == c[k := Info(coin.value, false, coin.value.Spent?)];
        } else {
          assert table.Contents() == c;
        }
      }
      DataKeys(table.entries);
      Fold();
    }

    /** Completes the new entry of a fetch with what the layer below has, or erases it. */
    method FillIn(k: OutPoint, coin: Option<Coin>) returns (found: bool)
      requires table.Valid() && k in table.Contents() && table.Contents()[k] == Info(Spent, false, false)
      modifies table
      ensures table.Valid() && found == coin.Some?
      ensures found ==> table.Contents() == old(table.Contents())[k := Info(coin.value, false, coin.value.Spent?)]
      ensures !found ==> table.Contents() == old(table.Contents()) - {k}
    {
      hide Wired, Data;
      DataKeys(table.entries);
      found := coin.Some?;
      if found {
        table.SetCoin(k, coin.value);
        DataKeys(table.entries);
        if coin.value.Spent? {
          // The layer below only has an empty entry, so that this one can be considered fresh.
          table.AddFlags(false, true, k);
        }
      } else {
        table.Erase(k);
      }
    }

    method BaseGetCoin(k: OutPoint) returns (r: Option<Coin>)
      requires Shape() && (base.Cache? ==> base.cache.Valid())
      modifies BaseRepr()
      ensures BaseViews() == old(BaseViews()) && (base.Cache? ==> base.cache.Valid())
      ensures Lookup(BaseView(), k) == if r.Some? then AsOption(r.value) else None
      ensures r.Some? <==> old(BaseHas(k))
      decreases depth, 0
    {
      match base
      case Db(db) =>
        r := db.GetCoin(k);
      case Cache(cache) =>
        r := cache.GetCoin(k);
        assert cache.View() == cache.Views()[0] == old(cache.Views())[0] == old(cache.View());
    }

    /** Answers exactly as the view, and changes no view. */
    method GetCoin(k: OutPoint) returns (r: Option<Coin>)
      requires Valid()
      modifies Repr
      ensures Valid() && Views() == old(Views())
      ensures r == Lookup(View(), k) && (r.Some? ==> r.value.Unspent?)
      decreases depth, 2
    {
      hide Wired, Data, Coherent, Overlay;
      var found := FetchCoin(k);
      DataKeys(table.entries);
      OverlayAt(table.Contents(), BaseView(), k);
      if found && table.entries[k].info.coin.Unspent? {
        r := Some(table.entries[k].info.coin);
      } else {
        r := None;
      }
    }

    method HaveCoin(k: OutPoint) returns (have: bool)
      requires Valid()
      modifies Repr
      ensures Valid() && Views() == old(Views())
      ensures have == (k in View())
    {
      var r := GetCoin(k);
      have := r.Some?;
    }

    /**
     * Adds a coin. It may be marked FRESH only if there is no unspent coin below, which a caller that
     * does not pass possibleOverwrite must know: the flags stay right exactly if the coin is not found
     * below this cache without being in it.
     */
    method AddCoin(k: OutPoint, coin: Coin, possibleOverwrite: bool) returns (thrown: bool)
      requires Valid() && coin.Unspent?
      modifies table
      ensures thrown <==> !IsUnspendable(coin.out.scriptPubKey) && !possibleOverwrite
                          && k in old(table.Contents()) && old(table.Contents())[k].coin.Unspent?
      ensures View() == if thrown || IsUnspendable(coin.out.scriptPubKey) then old(View()) else old(View())[k := coin]
      ensures BaseViews() == old(BaseViews())
      ensures Valid() <==> IsUnspendable(coin.out.scriptPubKey) || possibleOverwrite || k in old(table.Contents()) || k !in old(View())
    {
      hide Wired, Data, Coherent, Overlay, CoinsCache.Valid, Views, View, BaseViews, BaseView, Shape;
      Unfold();
      thrown := false;
      if IsUnspendable(coin.out.scriptPubKey) {
        return;
      }
      ghost var c, v := table.Contents(), BaseView();
      DataKeys(table.entries);
      var inserted := table.TryEmplace(k);
      DataKeys(table.entries);
      var isFresh := false;
      if !possibleOverwrite {
        if table.entries[k].info.coin.Unspent? {
          thrown := true;
          Fold();
          return;
        }
        isFresh := !table.entries[k].info.isDirty;
      }
      SetDirty(k, coin, isFresh);
      AddKeeps(c, v, k, coin, possibleOverwrite);
      assert table.Contents() == c[k := AddedInfo(c, k, coin, possibleOverwrite)];
      Refold();
    }

    /** Stores a coin that the layer below does not have yet. */
    method SetDirty(k: OutPoint, coin: Coin, isFresh: bool)
      requires table.Valid() && k in table.Contents()
      modifies table
      ensures table.Valid()
      ensures table.Contents() == old(table.Contents())[k := Info(coin, true, old(table.Contents())[k].isFresh || isFresh)]
    {
      hide Wired, Data;
      DataKeys(table.entries);
      table.SetCoin(k, coin);
      DataKeys(table.entries);
      table.AddFlags(true, isFresh, k);
    }

    /** Spends a coin, and hands out what was there; a fresh entry disappears without a trace. */
    method SpendCoin(k: OutPoint) returns (ok: bool, moved: Coin)
      requires Valid()
      modifies Repr
      ensures Valid() && BaseViews() == old(BaseViews()) && View() == old(View()) - {k}
      ensures AsOption(moved) == Lookup(old(View()), k) && (k in old(View()) ==> ok)
      ensures ok <==> k in old(table.entries) || old(BaseHas(k))
    {
      hide Wired, Data, Coherent, Overlay, CoinsCache.Valid, Views, View, BaseViews, BaseView, BaseHas, Shape;
      Unfold();
      ok := FetchCoin(k);
      Unfold();
      ghost var c, v := table.Contents(), BaseView();
      DataKeys(table.entries);
      OverlayAt(c, v, k);
      moved := Spent;
      if !ok {
        return;
      }
      SpendKeeps(c, v, k);
      moved := table.entries[k].info.coin;
      if table.entries[k].info.isFresh {
        table.Erase(k);
      } else {
        SetDirty(k, Spent, false);
      }
      Fold();
    }

    /** Forgets an entry that has not been modified. */
    method Uncache(k: OutPoint)
      requires Valid()
      modifies table
      ensures Valid() && Views() == old(Views())
      ensures table.Contents() == if k in old(table.Contents()) && !old(table.Contents())[k].Flagged()
                                  then old(table.Contents()) - {k} else old(table.Contents())
    {
      hide Wired, Data, Coherent, Overlay, CoinsCache.Valid, Views, View, BaseViews, BaseView, Shape;
      Unfold();
      ghost var c, v := table.Contents(), BaseView();
      DataKeys(table.entries);
      if k in table.entries && !table.entries[k].info.isDirty && !table.entries[k].info.isFresh {
        UncacheKeeps(c, v, k);
        table.Erase(k);
        Fold();
      }
    }

    // -------------------------------------------------------------- writing to the layer below

    /** Takes over one dirty entry of a child. */
    method MergeEntry(k: OutPoint, e: Info) returns (thrown: bool)
      requires table.Valid() && e.isDirty
      modifies table
      ensures table.Valid() && (thrown <==> Misapplied(old(table.Contents()), k, e))
      ensures table.Contents() == if thrown then old(table.Contents()) else MergeOne(old(table.Contents()), k, e)
    {
      hide Wired, Data;
      DataKeys(table.entries);
      thrown := false;
      if k !in table.entries {
        if !(e.isFresh && e.coin.Spent?) {
          var _ := table.TryEmplace(k);
          SetDirty(k, e.coin, e.isFresh);
        }
      } else if e.isFresh && table.entries[k].info.coin.Unspent? {
        thrown := true;
      } else if table.entries[k].info.isFresh && e.coin.Spent? {
        table.Erase(k);
      } else {
        SetDirty(k, e.coin, false);
      }
    }

    /** Takes over the dirty entries of a child; throws exactly if one of them is misapplied. */
    method BatchWrite(cursor: Cursor) returns (thrown: bool)
      requires table.Valid() && cursor.table.Valid() && table != cursor.table
      modifies table, cursor.table
      ensures table.Valid() && cursor.table.Valid() && Lists(old(cursor.table.order), old(cursor.table.Contents()))
      ensures thrown <==> exists k :: k in old(cursor.table.Contents()) && Misapplied(old(table.Contents()), k, old(cursor.table.Contents())[k])
      ensures !thrown ==> Drained(cursor, old(cursor.table.Contents()), old(cursor.table.order))
      ensures !thrown ==> table.Contents() == Merge(old(table.Contents()), old(cursor.table.Contents()), old(cursor.table.order))
    {
      hide Wired, Data, Settled, MergeOne, Misapplied;
      ghost var c, child, order := table.Contents(), cursor.table.Contents(), cursor.table.order;
      ghost var n: nat := 0;
      thrown := false;
      var at := cursor.Begin();
      while at != Sentinel
        invariant table.Valid() && cursor.Passed(child, order, n) && at == LinkAt(order, n)
        invariant (forall k :: k in order[..n] ==> k in child) && table.Contents() == Merge(c, child, order[..n])
        invariant forall k :: k in order[..n] ==> !Misapplied(c, k, child[k])
        decreases |order| - n
      {
        var k := at.key;
        Here(cursor, child, order, n);
        ListedPart(order, child, n + 1);
        MergeHere(c, child, order, n);
        var info := cursor.table.entries[k].info;
        if info.isDirty {
          thrown := MergeEntry(k, info);
          if thrown {
            return;
          }
        }
        at := cursor.NextAndMaybeErase(k, child, order, n);
        n := n + 1;
      }
      assert order[..n] == order;
      PassedAll(cursor, child, order);
      NoneMisapplied(c, child, order);
    }

    /** Hands the flagged entries to the layer below, which then presents the view of this cache. */
    method BaseBatchWrite(willErase: bool) returns (thrown: bool)
      requires Valid()
      modifies Repr
      ensures !thrown && Shape() && (base.Cache? ==> base.cache.Valid())
      ensures BaseViews() == old(BaseViews())[0 := old(View())]
      ensures Lists(old(table.order), old(table.Contents())) && Coherent(old(table.Contents()), old(BaseView()))
      ensures Drained(Cursor(table, willErase), old(table.Contents()), old(table.order))
    {
      hide Wired, Data, Coherent, Overlay, CoinsCache.Valid, Views, View, Shape, Merge;
      Unfold();
      thrown := false;
      TableLists(table.entries, table.sentinel, table.order);
      ghost var child, order := table.Contents(), table.order;
      var cursor := Cursor(table, willErase);
      match base
      case Db(db) =>
        WriteIsOverlay(db.coins, child, order);
        db.BatchWrite(cursor);
      case Cache(cache) =>
        cache.Unfold();
        MergeIsOverlay(cache.table.Contents(), cache.BaseView(), child, order);
        thrown := cache.BatchWrite(cursor);
        cache.Fold();
    }

    /** Pushes all changes to the layer below and empties this cache. */
    method Flush() returns (thrown: bool)
      requires Valid()
      modifies Repr
      ensures !thrown && Valid() && table.entries == map[]
      ensures View() == old(View()) && BaseViews() == old(BaseViews())[0 := old(View())]
    {
      hide Wired, Data, Coherent, CoinsCache.Valid, Views, View, BaseViews, BaseView, Shape;
      Unfold();
      thrown := BaseBatchWrite(true);
      if !thrown {
        table.Clear();
      }
      BaseFirst();
      EmptyCoherent(BaseView());
      Fold();
    }

    /** Pushes all changes to the layer below and keeps exactly the unspent coins, now unmodified. */
    method Sync() returns (thrown: bool)
      requires Valid()
      modifies Repr
      ensures table.Contents() == Retained(old(table.Contents()))
      ensures !thrown && Valid() && forall k :: k in table.Contents() ==> !table.Contents()[k].Flagged()
      ensures View() == old(View()) && BaseViews() == old(BaseViews())[0 := old(View())]
    {
      hide Wired, Data, Coherent, CoinsCache.Valid, Views, View, BaseViews, BaseView, Shape, Overlay, Settled, Retained;
      Unfold();
      ghost var child, order, v := table.Contents(), table.order, BaseView();
      thrown := BaseBatchWrite(false);
      SettledKeeps(child, v, order);
      SettledIsRetained(child, v, order);
      TableLists(table.entries, table.sentinel, table.order);
      if !thrown {
        var first := table.Next(Sentinel);
        if first != Sentinel {
          // not all flagged entries were cleared
          thrown := true;
        }
      }
      BaseFirst();
      Fold();
    }

    /** With a well-formed list the check passes exactly if all flags are allowed, as they are in a valid cache. */
    method SanityCheck() returns (ok: bool)
      requires table.Valid()
      ensures ok <==> AllAllowed(table.Contents())
      ensures Valid() ==> ok
    {
      hide Wired, Data, Coherent, Overlay, CoinsCache.Valid, Views, View, BaseViews, BaseView, Shape;
      if Valid() {
        Unfold();
        CoherentAllowed(table.Contents(), BaseView());
      }
      DataKeys(table.entries);
      ghost var c, order := table.Contents(), table.order;
      TableLists(table.entries, table.sentinel, order);
      var todo, flagged, linked := table.entries.Keys, {}, 0;
      while todo != {}
        invariant todo <= table.entries.Keys && forall k :: k in c && k !in todo ==> Allowed(c[k])
        invariant forall k :: k in flagged <==> k in table.entries && k !in todo && table.entries[k].info.Flagged()
      {
        var k :| k in todo;
        var info := table.entries[k].info;
        var attr := (if info.isDirty then 1 else 0) + (if info.isFresh then 2 else 0) + (if info.coin.Spent? then 4 else 0);
        assert (attr == 2 || attr == 4 || attr == 7) <==> !Allowed(c[k]);
        if attr == 2 || attr == 4 || attr == 7 {
          return false;
        }
        if info.Flagged() {
          flagged := flagged + {k};
        }
        todo := todo - {k};
      }
      var at := table.Next(Sentinel);
      while at != Sentinel
        invariant 0 <= linked <= |order| && at == LinkAt(order, linked)
        decreases |order| - linked
      {
        assert order[linked] in order;
        WalksBothWays(table.entries, table.sentinel, order, linked);
        var here := table.entries[at.key].links;
        var back := if here.next.Pair? then table.entries[here.next.key].links.prev else table.sentinel.prev;
        var ahead := if here.prev.Pair? then table.entries[here.prev.key].links.next else table.sentinel.next;
        if back != at || ahead != at || !table.entries[at.key].info.Flagged() {
          return false;
        }
        linked := linked + 1;
        at := here.next;
      }
      Cardinality(order, flagged);
      ok := linked == |flagged|;
    }

    /** A lookup in one of the layers below changes no view. */
    method GetAt(layer: nat, k: OutPoint) returns (r: Option<Coin>)
      requires Valid() && layer < |Views()| - 1
      modifies Repr
      ensures Valid() && Views() == old(Views()) && r == Lookup(Views()[layer], k)
      decreases depth
    {
      hide Wired, Data, Coherent, Overlay;
      if layer == 0 {
        r := GetCoin(k);
      } else {
        Unfold();
        r := base.cache.GetAt(layer - 1, k);
        base.cache.Unfold();
        BaseFirst();
      }
    }

    method UncacheAt(layer: nat, k: OutPoint)
      requires Valid() && layer < |Views()| - 1
      modifies Repr
      ensures Valid() && Views() == old(Views())
      decreases depth
    {
      hide Wired, Data, Coherent, Overlay;
      if layer == 0 {
        Uncache(k);
      } else {
        Unfold();
        base.cache.UncacheAt(layer - 1, k);
        base.cache.Unfold();
        BaseFirst();
      }
    }

    /** All of Valid but the flags of the top layer. */
    lemma Refold()
      requires Shape() && table.Valid() && (base.Cache? ==> base.cache.Valid())
      ensures Valid() <==> Coherent(table.Contents(), BaseView())
      ensures View() == Overlay(table.Contents(), BaseView())
    {}
  }

  /** The entry that AddCoin leaves. */
  function AddedInfo(c: Cached, k: OutPoint, coin: Coin, possibleOverwrite: bool): Info {
    Info(coin, true, (!possibleOverwrite && (k in c ==> !c[k].isDirty)) || (k in c && c[k].isFresh))
  }

  lemma AddKeeps(c: Cached, v: View, k: OutPoint, coin: Coin, possibleOverwrite: bool)
    requires Coherent(c, v) && coin.Unspent? && (possibleOverwrite || k !in c || c[k].coin.Spent?)
    ensures Overlay(c[k := AddedInfo(c, k, coin, possibleOverwrite)], v) == Overlay(c, v)[k := coin]
    ensures Coherent(c[k := AddedInfo(c, k, coin, possibleOverwrite)], v) <==> possibleOverwrite || k in c || k !in Overlay(c, v)
  {
    hide Overlay;
    var e := AddedInfo(c, k, coin, possibleOverwrite);
    OverlayUpdate(c, v, k, e);
    OverlayAt(c, v, k);
    var c' := c[k := e];
    if possibleOverwrite || k in c || k !in v {
      forall q | q in c' ensures CoherentAt(c'[q], v, q) { if q in c { assert CoherentAt(c[q], v, q); } }
    } else {
      assert !CoherentAt(c'[k], v, k);
    }
  }

  lemma WalksBothWays(e: map<OutPoint, Entry>, s: Links, order: seq<OutPoint>, i: nat)
    requires Wired(e, s, order) && i < |order|
    ensures order[i] in e && e[order[i]].info.Flagged() && e[order[i]].links == Links(LinkAt(order, i - 1), LinkAt(order, i + 1))
    ensures i + 1 < |order| ==> order[i + 1] in e && e[order[i + 1]].links.prev == Pair(order[i])
    ensures i > 0 ==> order[i - 1] in e && e[order[i - 1]].links.next == Pair(order[i])
    ensures i == 0 ==> s.next == Pair(order[i])
    ensures i + 1 == |order| ==> s.prev == Pair(order[i])
  {
    hide Wired;
    ChainAt(e, s, order, i);
    NotListed(e, s, order, order[i]);
    Ends(e, s, order);
    if i > 0 { ChainAt(e, s, order, i - 1); }
    if i + 1 < |order| { ChainAt(e, s, order, i + 1); }
  }

  lemma {:induction false} Cardinality(order: seq<OutPoint>, keys: set<OutPoint>)
    requires Distinct(order) && forall k :: k in keys <==> k in order
    ensures |keys| == |order|
  {
    if order == [] {
      assert keys == {};
    } else {
      var n := |order| - 1;
      assert order[n] in order && order[n] !in order[..n];
      forall k ensures k in keys - {order[n]} <==> k in order[..n] { assert k in order <==> k in order[..n] || k == order[n]; }
      Cardinality(order[..n], keys - {order[n]});
    }
  }

  lemma SpendKeeps(c: Cached, v: View, k: OutPoint)
    requires Coherent(c, v) && k in c
    ensures c[k].isFresh ==> Coherent(c - {k}, v) && Overlay(c - {k}, v) == Overlay(c, v) - {k}
    ensures !c[k].isFresh ==> Coherent(c[k := Info(Spent, true, false)], v) && Overlay(c[k := Info(Spent, true, false)], v) == Overlay(c, v) - {k}
  {
    hide Overlay;
    assert CoherentAt(c[k], v, k);
    if c[k].isFresh {
      OverlayDrop(c, v, k, Spent);
    } else {
      OverlayUpdate(c, v, k, Info(Spent, true, false));
    }
  }

  lemma UncacheKeeps(c: Cached, v: View, k: OutPoint)
    requires Coherent(c, v) && k in c && !c[k].Flagged()
    ensures Coherent(c - {k}, v) && Overlay(c - {k}, v) == Overlay(c, v)
  {
    hide Overlay;
    assert CoherentAt(c[k], v, k);
    OverlayAt(c, v, k);
    OverlayDrop(c, v, k, c[k].coin);
    PutSame(Overlay(c, v), k, c[k].coin);
  }

  lemma EmptyCoherent(v: View)
    ensures Coherent(Data(map[]), v) && Overlay(Data(map[]), v) == v
  {}

  /** Whether an entry is misapplied does not depend on the entries merged before it. */
  lemma MergeHere(c: Cached, child: Cached, order: seq<OutPoint>, n: nat)
    requires Lists(order, child) && n < |order| && forall k :: k in order[..n + 1] ==> k in child
    ensures var k := order[n];
      && (forall q :: q in order[..n] ==> q in child)
      && Merge(c, child, order[..n + 1]) == MergeOne(Merge(c, child, order[..n]), k, child[k])
      && (Misapplied(Merge(c, child, order[..n]), k, child[k]) <==> Misapplied(c, k, child[k]))
      && (!child[k].isDirty ==> Merge(c, child, order[..n + 1]) == Merge(c, child, order[..n]) && !Misapplied(c, k, child[k]))
      && forall q :: q in order[..n + 1] ==> q in order[..n] || q == k
  {
    assert order[..n + 1][..n] == order[..n];
    ListedPart(order, child, n);
    MergeElsewhere(c, child, order[..n], order[n]);
  }

  lemma NoneMisapplied(c: Cached, child: Cached, order: seq<OutPoint>)
    requires Lists(order, child) && forall k :: k in order ==> k in child && !Misapplied(c, k, child[k])
    ensures forall k :: k in child ==> !Misapplied(c, k, child[k])
  {}

  lemma DataKeys(e: map<OutPoint, Entry>)
    ensures forall k :: k in Data(e) <==> k in e
    ensures forall k :: k in e ==> Data(e)[k] == e[k].info
  {}

  lemma FetchKeeps(c: Cached, v: View, k: OutPoint, coin: Coin)
    requires Coherent(c, v) && k !in c && Lookup(v, k) == AsOption(coin)
    ensures Coherent(c[k := Info(coin, false, coin.Spent?)], v)
    ensures Overlay(c[k := Info(coin, false, coin.Spent?)], v) == Overlay(c, v)
  {
    hide Overlay;
    OverlayAt(c, v, k);
    OverlayUpdate(c, v, k, Info(coin, false, coin.Spent?));
    PutSame(Overlay(c, v), k, coin);
  }

  // ---------------------------------------------------------------- adding the outputs of a transaction

  /** A view after the first n outputs of a transaction were added; unspendable outputs are not. */
  ghost function WithOutputs(v: View, txid: nat, outs: seq<TxOut>, height: nat, coinBase: bool, n: nat): View
    requires n <= |outs|
  {
    if n == 0 then v
    else
      var w := WithOutputs(v, txid, outs, height, coinBase, n - 1);
      if IsUnspendable(outs[n - 1].scriptPubKey) then w else w[OutPoint(txid, n - 1) := Unspent(outs[n - 1], height, coinBase)]
  }

  lemma {:induction false} OutputsElsewhere(v: View, txid: nat, outs: seq<TxOut>, height: nat, coinBase: bool, n: nat, i: nat)
    requires n <= i <= |outs|
    ensures OutPoint(txid, i) in WithOutputs(v, txid, outs, height, coinBase, n) <==> OutPoint(txid, i) in v
  {
    if n > 0 { OutputsElsewhere(v, txid, outs, height, coinBase, n - 1, i); }
  }

  /** Without a check only a coinbase may overwrite; the caller answers for it. */
  method AddCoins(cache: CoinsCache, txid: nat, outs: seq<TxOut>, height: nat, coinBase: bool, check: bool) returns (thrown: bool)
    requires cache.Valid()
    requires check || coinBase || forall i: nat :: i < |outs| ==> OutPoint(txid, i) !in cache.View()
    modifies cache.Repr
    ensures !thrown && cache.Valid() && cache.BaseViews() == old(cache.BaseViews())
    ensures cache.View() == WithOutputs(old(cache.View()), txid, outs, height, coinBase, |outs|)
  {
    hide Wired, Data, Coherent, Overlay, CoinsCache.Valid, CoinsCache.Views, CoinsCache.View, CoinsCache.BaseViews, CoinsCache.BaseView, CoinsCache.Shape;
    cache.Unfold();
    ghost var v := cache.View();
    thrown := false;
    var i: nat := 0;
    while i < |outs|
      invariant i <= |outs| && cache.Valid() && cache.BaseViews() == old(cache.BaseViews())
      invariant cache.View() == WithOutputs(v, txid, outs, height, coinBase, i)
    {
      cache.Unfold();
      var k := OutPoint(txid, i);
      OutputsElsewhere(v, txid, outs, height, coinBase, i, i);
      var overwrite := coinBase;
      if check {
        overwrite := cache.HaveCoin(k);
        cache.Unfold();
      }
      OverlayAt(cache.table.Contents(), cache.BaseView(), k);
      thrown := cache.AddCoin(k, Unspent(outs[i], height, coinBase), overwrite);
      if thrown {
        return;
      }
      i := i + 1;
    }
  }

  // ---------------------------------------------------------------- runs

  /** What can be done to a stack; layer 0 is its top. */
  datatype Op =
    | Get(layer: nat, k: OutPoint)
    | Uncaching(layer: nat, k: OutPoint)
    | Add(k: OutPoint, coin: Coin, possibleOverwrite: bool)
    | Spend(k: OutPoint)
    | FlushTop
    | SyncTop
    | Push
    | Pop

  /** What a caller must keep to: an add says whether it may overwrite, and only layers that exist are used. */
  predicate Legal(views: seq<View>, op: Op) {
    match op
    case Get(layer, _) => layer < |views| - 1
    case Uncaching(layer, _) => layer < |views| - 1
    case Add(k, coin, possibleOverwrite) => |views| > 0 && coin.Unspent? && (possibleOverwrite || k !in views[0])
    case Pop => |views| > 2
    case _ => |views| > 1
  }

  /** The effect on flat maps, one for each layer and one for the database. */
  function Effect(views: seq<View>, op: Op): seq<View>
    requires Legal(views, op)
  {
    match op
    case Get(_, _) => views
    case Uncaching(_, _) => views
    case Add(k, coin, _) => if IsUnspendable(coin.out.scriptPubKey) then views else views[0 := views[0][k := coin]]
    case Spend(k) => views[0 := views[0] - {k}]
    case FlushTop => views[1 := views[0]]
    case SyncTop => views[1 := views[0]]
    case Push => [views[0]] + views
    case Pop => views[1..]
  }

  function Answer(views: seq<View>, op: Op): seq<Option<Coin>>
    requires Legal(views, op)
  {
    match op
    case Get(layer, k) => [Lookup(views[layer], k)]
    case Spend(k) => [Lookup(views[0], k)]
    case _ => []
  }

  ghost predicate AllLegal(views: seq<View>, ops: seq<Op>)
    decreases |ops|
  {
    ops == [] || (Legal(views, ops[0]) && AllLegal(Effect(views, ops[0]), ops[1..]))
  }

  ghost function Effects(views: seq<View>, ops: seq<Op>): seq<View>
    requires AllLegal(views, ops)
    decreases |ops|
  {
    if ops == [] then views else Effects(Effect(views, ops[0]), ops[1..])
  }

  ghost function Answers(views: seq<View>, ops: seq<Op>): seq<Option<Coin>>
    requires AllLegal(views, ops)
    decreases |ops|
  {
    if ops == [] then [] else Answer(views, ops[0]) + Answers(Effect(views, ops[0]), ops[1..])
  }

  method Perform(top: CoinsCache, op: Op) returns (top': CoinsCache, answer: seq<Option<Coin>>, thrown: bool)
    requires top.Valid() && Legal(top.Views(), op)
    modifies top.Repr
    ensures !thrown && top'.Valid() && fresh(top'.Repr - top.Repr)
    ensures top'.Views() == Effect(old(top.Views()), op) && answer == Answer(old(top.Views()), op)
  {
    hide Wired, Data, Coherent, Overlay, CoinsCache.Valid, CoinsCache.Views, CoinsCache.View, CoinsCache.BaseViews, CoinsCache.BaseView, CoinsCache.Shape;
    top.Unfold();
    top', answer, thrown := top, [], false;
    match op
    case Get(layer, k) =>
      var r := top.GetAt(layer, k);
      answer := [r];
    case Uncaching(layer, k) =>
      top.UncacheAt(layer, k);
    case Add(k, coin, possibleOverwrite) =>
      OverlayAt(top.table.Contents(), top.BaseView(), k);
      thrown := top.AddCoin(k, coin, possibleOverwrite);
      top.Unfold();
    case Spend(k) =>
      var _, moved := top.SpendCoin(k);
      answer := [AsOption(moved)];
      top.Unfold();
    case FlushTop =>
      thrown := top.Flush();
      top.Unfold();
    case SyncTop =>
      thrown := top.Sync();
      top.Unfold();
    case Push =>
      top' := new CoinsCache(Cache(top));
      top'.Unfold();
    case Pop =>
      top' := Below(top);
  }

  method Below(top: CoinsCache) returns (cache: CoinsCache)
    requires top.Valid() && |top.Views()| > 2
    ensures top.base == Cache(cache) && cache.Valid() && cache.Views() == top.Views()[1..] && cache.Repr <= top.Repr
  {
    hide Wired, Data, Coherent, Overlay;
    top.Unfold();
    cache := top.base.cache;
  }

  /** Every run of a stack of caches answers as the flat maps do, and no exception is thrown. */
  method Run(top: CoinsCache, ops: seq<Op>) returns (top': CoinsCache, answers: seq<Option<Coin>>, thrown: bool)
    requires top.Valid() && AllLegal(top.Views(), ops)
    modifies top.Repr
    ensures !thrown && top'.Valid() && fresh(top'.Repr - top.Repr)
    ensures top'.Views() == Effects(old(top.Views()), ops) && answers == Answers(old(top.Views()), ops)
    decreases |ops|
  {
    hide Wired, Data, Coherent, Overlay, CoinsCache.Valid, CoinsCache.Views, CoinsCache.View, Legal, Effect, Answer;
    if ops == [] {
      return top, [], false;
    }
    var answer, rest;
    top', answer, thrown := Perform(top, ops[0]);
    top', rest, thrown := Run(top', ops[1..]);
    answers := answer + rest;
  }
}
