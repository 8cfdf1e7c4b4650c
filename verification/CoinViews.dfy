// What a coins cache says about the unspent outputs, given what lies below it, and when the flags of
// its entries tell the truth about the layer below (src/coins.h, src/coins.cpp).
module CoinViews {
  import opened CoinTables

  /** The unspent coins. */
  type View = map<OutPoint, Coin>

  type Cached = map<OutPoint, Info>

  function Unspents(coins: map<OutPoint, Coin>): View {
    map k | k in coins && coins[k].Unspent? :: coins[k]
  }

  function Lookup(v: View, k: OutPoint): Option<Coin> {
    if k in v then Some(v[k]) else None
  }

  function AsOption(coin: Coin): Option<Coin> {
    if coin.Unspent? then Some(coin) else None
  }

  /** One flat map after an add (an unspent coin) or a spend. */
  function Put(v: View, k: OutPoint, coin: Coin): View {
    if coin.Unspent? then v[k := coin] else v - {k}
  }

  /** The entries of a cache take precedence over the layer below. */
  function Overlay(c: Cached, below: View): View {
    map k | k in c.Keys + below.Keys && (k in c ==> c[k].coin.Unspent?) :: if k in c then c[k].coin else below[k]
  }

  /** Of the eight combinations of spent, DIRTY and FRESH only five occur. */
  predicate Allowed(e: Info) {
    && (e.isFresh && !e.isDirty ==> e.coin.Spent?)
    && (e.coin.Spent? ==> e.Flagged() && !(e.isDirty && e.isFresh))
  }

  /** FRESH: nothing unspent below. Not DIRTY: the same as below. */
  predicate CoherentAt(e: Info, below: View, k: OutPoint) {
    && Allowed(e)
    && (e.isFresh ==> k !in below)
    && (!e.isDirty ==> AsOption(e.coin) == Lookup(below, k))
  }

  ghost predicate Coherent(c: Cached, below: View) {
    forall k :: k in c ==> CoherentAt(c[k], below, k)
  }

  ghost predicate AllAllowed(c: Cached) {
    forall k :: k in c ==> Allowed(c[k])
  }

  lemma CoherentAllowed(c: Cached, below: View)
    requires Coherent(c, below)
    ensures AllAllowed(c)
  {
    forall k | k in c ensures Allowed(c[k]) { assert CoherentAt(c[k], below, k); }
  }

  lemma SameView(a: View, b: View)
    requires forall k :: Lookup(a, k) == Lookup(b, k)
    ensures a == b
  {
    forall k ensures k in a <==> k in b { assert Lookup(a, k) == Lookup(b, k); }
    forall k | k in a ensures a[k] == b[k] { assert Lookup(a, k) == Lookup(b, k); }
  }

  lemma OverlayAt(c: Cached, below: View, k: OutPoint)
    ensures Lookup(Overlay(c, below), k) == if k in c then AsOption(c[k].coin) else Lookup(below, k)
  {}

  lemma PutAt(v: View, k: OutPoint, coin: Coin, q: OutPoint)
    ensures Lookup(Put(v, k, coin), q) == if q == k then AsOption(coin) else Lookup(v, q)
  {}

  lemma OverlayUpdate(c: Cached, below: View, k: OutPoint, e: Info)
    ensures Overlay(c[k := e], below) == Put(Overlay(c, below), k, e.coin)
  {
    hide Overlay, Put, Lookup;
    forall q ensures Lookup(Overlay(c[k := e], below), q) == Lookup(Put(Overlay(c, below), k, e.coin), q) {
      OverlayAt(c[k := e], below, q);
      OverlayAt(c, below, q);
      PutAt(Overlay(c, below), k, e.coin, q);
    }
    SameView(Overlay(c[k := e], below), Put(Overlay(c, below), k, e.coin));
  }

  /** Without an entry the layer below shows through. */
  lemma OverlayDrop(c: Cached, below: View, k: OutPoint, coin: Coin)
    requires Lookup(below, k) == AsOption(coin)
    ensures Overlay(c - {k}, below) == Put(Overlay(c, below), k, coin)
  {
    hide Overlay, Put;
    forall q ensures Lookup(Overlay(c - {k}, below), q) == Lookup(Put(Overlay(c, below), k, coin), q) {
      OverlayAt(c - {k}, below, q);
      OverlayAt(c, below, q);
      PutAt(Overlay(c, below), k, coin, q);
    }
    SameView(Overlay(c - {k}, below), Put(Overlay(c, below), k, coin));
  }

  lemma PutSame(v: View, k: OutPoint, coin: Coin)
    requires Lookup(v, k) == AsOption(coin)
    ensures Put(v, k, coin) == v
  {}

  // ---------------------------------------------------------------- merging a child into its parent

  /** What one entry of a child does to the entries of the parent cache. */
  function MergeOne(c: Cached, k: OutPoint, e: Info): Cached {
    if !e.isDirty then c
    else if k !in c then (if e.isFresh && e.coin.Spent? then c else c[k := Info(e.coin, true, e.isFresh)])
    else if c[k].isFresh && e.coin.Spent? then c - {k}
    else c[k := Info(e.coin, true, c[k].isFresh)]
  }

  /** The entries of a child are handed over one by one, in the order of its list. */
  ghost function Merge(c: Cached, child: Cached, order: seq<OutPoint>): Cached
    requires forall k :: k in order ==> k in child
  {
    if order == [] then c
    else
      var n := |order| - 1;
      MergeOne(Merge(c, child, order[..n]), order[n], child[order[n]])
  }

  /** A child entry that is FRESH although the parent cache holds an unspent coin. */
  ghost predicate Misapplied(c: Cached, k: OutPoint, e: Info) {
    e.isDirty && e.isFresh && k in c && c[k].coin.Unspent?
  }

  /** An entry that tells the truth merges into a cache that tells the truth, and only its own key changes. */
  lemma MergeOneKeeps(c: Cached, below: View, k: OutPoint, e: Info)
    requires Coherent(c, below) && CoherentAt(e, Overlay(c, below), k)
    ensures !Misapplied(c, k, e)
    ensures Coherent(MergeOne(c, k, e), below) && Overlay(MergeOne(c, k, e), below) == Put(Overlay(c, below), k, e.coin)
  {
    hide Overlay, Put;
    OverlayAt(c, below, k);
    if !e.isDirty {
      MergeClean(c, below, k, e);
    } else if k !in c && e.isFresh && e.coin.Spent? {
      PutSame(Overlay(c, below), k, e.coin);
    } else if k in c && c[k].isFresh && e.coin.Spent? {
      assert CoherentAt(c[k], below, k);
      OverlayDrop(c, below, k, Spent);
    } else {
      var x := Info(e.coin, true, if k in c then c[k].isFresh else e.isFresh);
      OverlayUpdate(c, below, k, x);
      assert CoherentAt(x, below, k) by { if k in c { assert CoherentAt(c[k], below, k); } }
    }
  }

  lemma MergeClean(c: Cached, below: View, k: OutPoint, e: Info)
    requires Coherent(c, below) && CoherentAt(e, Overlay(c, below), k) && !e.isDirty
    ensures Put(Overlay(c, below), k, e.coin) == Overlay(c, below)
  {
    PutSame(Overlay(c, below), k, e.coin);
  }

  lemma MergeOneElsewhere(c: Cached, k: OutPoint, e: Info, q: OutPoint)
    requires q != k
    ensures q in MergeOne(c, k, e) <==> q in c
    ensures q in c ==> MergeOne(c, k, e)[q] == c[q]
  {}

  lemma {:induction false} MergeElsewhere(c: Cached, child: Cached, order: seq<OutPoint>, q: OutPoint)
    requires (forall k :: k in order ==> k in child) && q !in order
    ensures q in Merge(c, child, order) <==> q in c
    ensures q in c ==> Merge(c, child, order)[q] == c[q]
  {
    if order != [] {
      var n := |order| - 1;
      assert order[n] in order;
      MergeElsewhere(c, child, order[..n], q);
      MergeOneElsewhere(Merge(c, child, order[..n]), order[n], child[order[n]], q);
    }
  }

  /** After a part of the list the parent agrees with the child on that part, and is unchanged elsewhere. */
  lemma {:induction false} MergeKeeps(c: Cached, below: View, child: Cached, order: seq<OutPoint>)
    requires (forall k :: k in order ==> k in child) && Distinct(order)
    requires Coherent(c, below) && Coherent(child, Overlay(c, below))
    ensures Coherent(Merge(c, child, order), below)
    ensures forall q :: Lookup(Overlay(Merge(c, child, order), below), q)
                        == if q in order then AsOption(child[q].coin) else Lookup(Overlay(c, below), q)
  {
    hide Overlay, Put, Coherent;
    if order != [] {
      var n := |order| - 1;
      var k, part := order[n], order[..n];
      assert k in order && k !in part;
      MergeKeeps(c, below, child, part);
      var m := Merge(c, child, part);
      assert Lookup(Overlay(m, below), k) == Lookup(Overlay(c, below), k);
      assert CoherentAt(child[k], Overlay(m, below), k) by {
        CoherentFor(child, Overlay(c, below), k);
        CoherentMoves(child[k], Overlay(c, below), Overlay(m, below), k);
      }
      MergeOneKeeps(m, below, k, child[k]);
      forall q ensures Lookup(Overlay(Merge(c, child, order), below), q)
                       == if q in order then AsOption(child[q].coin) else Lookup(Overlay(c, below), q)
      {
        PutAt(Overlay(m, below), k, child[k].coin, q);
        assert q in order <==> q in part || q == k;
      }
    }
  }

  lemma CoherentFor(c: Cached, below: View, k: OutPoint)
    requires Coherent(c, below) && k in c
    ensures CoherentAt(c[k], below, k)
  {}

  lemma CoherentMoves(e: Info, a: View, b: View, k: OutPoint)
    requires CoherentAt(e, a, k) && Lookup(a, k) == Lookup(b, k)
    ensures CoherentAt(e, b, k)
  {}

  /** The flagged entries of a cache are what makes it differ from the layer below. */
  ghost predicate Lists(order: seq<OutPoint>, c: Cached) {
    Distinct(order) && forall k :: k in order <==> k in c && c[k].Flagged()
  }

  /** Merging all flagged entries gives the parent the view of the child, and its own flags stay true. */
  lemma MergeIsOverlay(c: Cached, below: View, child: Cached, order: seq<OutPoint>)
    requires Lists(order, child) && Coherent(c, below) && Coherent(child, Overlay(c, below))
    ensures forall k :: k in child ==> !Misapplied(c, k, child[k])
    ensures Coherent(Merge(c, child, order), below)
    ensures Overlay(Merge(c, child, order), below) == Overlay(child, Overlay(c, below))
  {
    hide Overlay, Coherent;
    var v := Overlay(c, below);
    MergeKeeps(c, below, child, order);
    forall q ensures Lookup(Overlay(Merge(c, child, order), below), q) == Lookup(Overlay(child, v), q) {
      OverlayAt(child, v, q);
      if q in child { CoherentFor(child, v, q); }
    }
    SameView(Overlay(Merge(c, child, order), below), Overlay(child, v));
    forall k | k in child ensures !Misapplied(c, k, child[k]) {
      CoherentFor(child, v, k);
      OverlayAt(c, below, k);
    }
  }

  /** A database takes over the dirty entries. */
  function WriteOne(coins: map<OutPoint, Coin>, k: OutPoint, e: Info): map<OutPoint, Coin> {
    if !e.isDirty then coins else if e.coin.Spent? then coins - {k} else coins[k := e.coin]
  }

  ghost function Write(coins: map<OutPoint, Coin>, child: Cached, order: seq<OutPoint>): map<OutPoint, Coin>
    requires forall k :: k in order ==> k in child
  {
    if order == [] then coins
    else
      var n := |order| - 1;
      WriteOne(Write(coins, child, order[..n]), order[n], child[order[n]])
  }

  lemma {:induction false} WriteKeeps(coins: map<OutPoint, Coin>, child: Cached, order: seq<OutPoint>)
    requires (forall k :: k in order ==> k in child) && Distinct(order) && Coherent(child, Unspents(coins))
    ensures forall q :: Lookup(Unspents(Write(coins, child, order)), q)
                        == if q in order then AsOption(child[q].coin) else Lookup(Unspents(coins), q)
  {
    if order != [] {
      var n := |order| - 1;
      var k, part := order[n], order[..n];
      assert k in order && k !in part;
      WriteKeeps(coins, child, part);
      var m := Write(coins, child, part);
      assert Lookup(Unspents(m), k) == Lookup(Unspents(coins), k);
      CoherentFor(child, Unspents(coins), k);
      forall q ensures Lookup(Unspents(Write(coins, child, order)), q)
                       == if q in order then AsOption(child[q].coin) else Lookup(Unspents(coins), q)
      {
        WriteOneAt(m, k, child[k], q);
        assert q in order <==> q in part || q == k;
      }
    }
  }

  lemma WriteOneAt(coins: map<OutPoint, Coin>, k: OutPoint, e: Info, q: OutPoint)
    ensures Lookup(Unspents(WriteOne(coins, k, e)), q)
            == if q == k && e.isDirty then AsOption(e.coin) else Lookup(Unspents(coins), q)
  {}

  lemma WriteIsOverlay(coins: map<OutPoint, Coin>, child: Cached, order: seq<OutPoint>)
    requires Lists(order, child) && Coherent(child, Unspents(coins))
    ensures Unspents(Write(coins, child, order)) == Overlay(child, Unspents(coins))
  {
    hide Overlay, Coherent, Unspents;
    var v := Unspents(coins);
    WriteKeeps(coins, child, order);
    forall q ensures Lookup(Unspents(Write(coins, child, order)), q) == Lookup(Overlay(child, v), q) {
      OverlayAt(child, v, q);
      if q in child { CoherentFor(child, v, q); }
    }
    SameView(Unspents(Write(coins, child, order)), Overlay(child, v));
  }

  // ---------------------------------------------------------------- after Sync

  /** What Sync leaves of a child: listed entries lose their flags, or are erased if they are spent. */
  ghost function Settled(child: Cached, done: seq<OutPoint>): Cached {
    map k | k in child && (k in done ==> child[k].coin.Unspent?) :: if k in done then Info(child[k].coin, false, false) else child[k]
  }

  lemma SettledKeeps(child: Cached, below: View, order: seq<OutPoint>)
    requires Lists(order, child) && Coherent(child, below)
    ensures Coherent(Settled(child, order), Overlay(child, below))
    ensures Overlay(Settled(child, order), Overlay(child, below)) == Overlay(child, below)
  {
    hide Overlay;
    var v := Overlay(child, below);
    var s := Settled(child, order);
    forall k | k in s ensures CoherentAt(s[k], v, k) {
      OverlayAt(child, below, k);
      assert CoherentAt(child[k], below, k);
    }
    forall q ensures Lookup(Overlay(s, v), q) == Lookup(v, q) {
      OverlayAt(s, v, q);
      if q in s { assert CoherentAt(s[q], v, q); }
    }
    SameView(Overlay(s, v), v);
  }

  /** The unspent coins of a cache, unmodified. */
  ghost function Retained(c: Cached): Cached {
    map k | k in c && c[k].coin.Unspent? :: Info(c[k].coin, false, false)
  }

  /** Settling all flagged entries leaves exactly the unspent coins. */
  lemma SettledIsRetained(child: Cached, below: View, order: seq<OutPoint>)
    requires Lists(order, child) && Coherent(child, below)
    ensures Settled(child, order) == Retained(child)
  {
    forall k | k in child ensures k in order || (child[k] == Info(child[k].coin, false, false) && child[k].coin.Unspent?) {
      assert CoherentAt(child[k], below, k);
    }
  }
}
