// The entries of one coins cache (src/coins.h): a map from outpoints to coins with the flags DIRTY and
// FRESH, and through it a circular doubly linked list of the flagged entries that starts at a sentinel.
module CoinTables {

  datatype OutPoint = OutPoint(txid: nat, n: nat)

  /** An output that is not null. */
  datatype TxOut = TxOut(value: nat, scriptPubKey: seq<nat>)

  /** A coin that is spent has been cleared, so all spent coins are equal. */
  datatype Coin = Spent | Unspent(out: TxOut, height: nat, coinBase: bool)

  datatype Option<T> = None | Some(value: T)

  /** What a cache entry says, apart from its links. */
  datatype Info = Info(coin: Coin, isDirty: bool, isFresh: bool) {
    predicate Flagged() { isDirty || isFresh }
  }

  /** A pointer to a pair of the map, to the sentinel, or to nothing. */
  datatype Link = Null | Sentinel | Pair(key: OutPoint)

  datatype Links = Links(prev: Link, next: Link)

  datatype Entry = Entry(info: Info, links: Links)

  // ---------------------------------------------------------------- the list

  ghost function LinkAt(order: seq<OutPoint>, i: int): Link {
    if 0 <= i < |order| then Pair(order[i]) else Sentinel
  }

  ghost predicate Distinct(order: seq<OutPoint>) {
    forall i, j :: 0 <= i < j < |order| ==> order[i] != order[j]
  }

  /** The list visits exactly the flagged entries, once each, in the given order, and can be walked both ways. */
  ghost predicate Wired(entries: map<OutPoint, Entry>, sentinel: Links, order: seq<OutPoint>) {
    Distinct(order) && Members(entries, order) && Unlinked(entries) && Chain(entries, sentinel, order)
  }

  ghost predicate Members(entries: map<OutPoint, Entry>, order: seq<OutPoint>) {
    forall k :: k in order <==> k in entries && entries[k].info.Flagged()
  }

  ghost predicate Unlinked(entries: map<OutPoint, Entry>) {
    forall k :: k in entries && !entries[k].info.Flagged() ==> entries[k].links == Links(Null, Null)
  }

  ghost predicate Chain(entries: map<OutPoint, Entry>, sentinel: Links, order: seq<OutPoint>) {
    && sentinel == Links(LinkAt(order, |order| - 1), LinkAt(order, 0))
    && forall i :: 0 <= i < |order| ==> order[i] in entries && entries[order[i]].links == Links(LinkAt(order, i - 1), LinkAt(order, i + 1))
  }

  ghost function Without(order: seq<OutPoint>, i: nat): seq<OutPoint>
    requires i < |order|
  {
    order[..i] + order[i + 1..]
  }

  lemma WithoutElems(order: seq<OutPoint>, i: nat)
    requires i < |order| && Distinct(order)
    ensures Distinct(Without(order, i))
    ensures forall k :: k in Without(order, i) <==> k in order && k != order[i]
  {
    var rest := Without(order, i);
    forall k | k in order && k != order[i] ensures k in rest {
      var j :| 0 <= j < |order| && order[j] == k;
      assert rest[if j < i then j else j - 1] == k;
    }
    forall k | k in rest ensures k in order && k != order[i] {
      var j :| 0 <= j < |rest| && rest[j] == k;
      assert order[if j < i then j else j + 1] == k;
    }
  }

  ghost function Data(entries: map<OutPoint, Entry>): map<OutPoint, Info> {
    map k | k in entries :: entries[k].info
  }

  /** The same infos and keys, except at k. */
  ghost predicate OnlyInfo(e: map<OutPoint, Entry>, e': map<OutPoint, Entry>, k: OutPoint) {
    e'.Keys == e.Keys && forall q :: q in e && q != k ==> e'[q].info == e[q].info
  }

  lemma DataUpdate(e: map<OutPoint, Entry>, e': map<OutPoint, Entry>, k: OutPoint)
    requires OnlyInfo(e, e', k) && k in e
    ensures k in Data(e) && Data(e)[k] == e[k].info && Data(e') == Data(e)[k := e'[k].info]
  {}

  /** Links k in before the sentinel. */
  lemma AppendWired(e: map<OutPoint, Entry>, s: Links, order: seq<OutPoint>, k: OutPoint, e': map<OutPoint, Entry>, s': Links)
    requires Wired(e, s, order) && k in e && !e[k].info.Flagged()
    requires OnlyInfo(e, e', k) && e'[k].info.Flagged() && e'[k].links == Links(s.prev, Sentinel)
    requires forall q :: q in e && q != k ==> e'[q].links == if s.prev == Pair(q) then e[q].links.(next := Pair(k)) else e[q].links
    requires s' == if s.prev.Sentinel? then Links(Pair(k), Pair(k)) else s.(prev := Pair(k))
    ensures Wired(e', s', order + [k])
  {
    hide Wired, OnlyInfo;
    var order' := order + [k];
    AppendMembers(e, s, order, k, e');
    Ends(e, s, order);
    assert Chain(e', s', order') by {
      forall i | 0 <= i < |order'| ensures order'[i] in e' && e'[order'[i]].links == Links(LinkAt(order', i - 1), LinkAt(order', i + 1)) {
        AppendOne(e, s, order, k, e', i);
      }
    }
    WiredFrom(e', s', order');
  }

  lemma AppendMembers(e: map<OutPoint, Entry>, s: Links, order: seq<OutPoint>, k: OutPoint, e': map<OutPoint, Entry>)
    requires Wired(e, s, order) && k in e && !e[k].info.Flagged() && OnlyInfo(e, e', k) && e'[k].info.Flagged()
    requires forall q :: q in e && q != k ==> e'[q].links == if s.prev == Pair(q) then e[q].links.(next := Pair(k)) else e[q].links
    ensures Distinct(order + [k]) && Members(e', order + [k]) && Unlinked(e')
  {
    hide Chain;
    Ends(e, s, order);
    assert forall q :: q in order + [k] <==> q in order || q == k;
    assert |order| > 0 ==> order[|order| - 1] in order;
  }

  lemma AppendOne(e: map<OutPoint, Entry>, s: Links, order: seq<OutPoint>, k: OutPoint, e': map<OutPoint, Entry>, i: nat)
    requires Wired(e, s, order) && k in e && !e[k].info.Flagged() && OnlyInfo(e, e', k) && i <= |order|
    requires e'[k].links == Links(s.prev, Sentinel)
    requires forall q :: q in e && q != k ==> e'[q].links == if s.prev == Pair(q) then e[q].links.(next := Pair(k)) else e[q].links
    ensures (order + [k])[i] in e' && e'[(order + [k])[i]].links == Links(LinkAt(order + [k], i - 1), LinkAt(order + [k], i + 1))
  {
    hide Members, Unlinked, Chain;
    Ends(e, s, order);
    if i < |order| {
      ChainAt(e, s, order, i);
      NotListed(e, s, order, k);
      assert order[i] in order;
      LinkIs(order, |order| - 1, i);
    }
  }

  lemma Ends(e: map<OutPoint, Entry>, s: Links, order: seq<OutPoint>)
    requires Wired(e, s, order)
    ensures s == Links(LinkAt(order, |order| - 1), LinkAt(order, 0))
  {}

  /** Lets the neighbours of order[i] point past it. */
  lemma UnlinkWired(e: map<OutPoint, Entry>, s: Links, order: seq<OutPoint>, i: nat, e': map<OutPoint, Entry>, s': Links)
    requires Wired(e, s, order) && i < |order|
    requires OnlyInfo(e, e', order[i]) && !e'[order[i]].info.Flagged() && e'[order[i]].links == Links(Null, Null)
    requires forall q :: q in e && q != order[i] ==> e'[q].links == Bypass(e[q].links, Pair(q), e[order[i]].links)
    requires s' == Bypass(s, Sentinel, e[order[i]].links)
    ensures Wired(e', s', Without(order, i))
  {
    hide Wired;
    var rest := Without(order, i);
    UnlinkMembers(e, s, order, i, e');
    assert Chain(e', s', rest) by {
      UnlinkEnds(e, s, order, i, s');
      forall j | 0 <= j < |rest| ensures rest[j] in e' && e'[rest[j]].links == Links(LinkAt(rest, j - 1), LinkAt(rest, j + 1)) {
        UnlinkOne(e, s, order, i, e', j);
      }
    }
    assert Wired(e', s', rest) by { WiredFrom(e', s', rest); }
  }

  lemma WiredFrom(e: map<OutPoint, Entry>, s: Links, order: seq<OutPoint>)
    requires Distinct(order) && Members(e, order) && Unlinked(e) && Chain(e, s, order)
    ensures Wired(e, s, order)
  {}

  /** The links of a node after the node with the given links was taken out. */
  ghost function Bypass(links: Links, self: Link, gone: Links): Links {
    Links(if gone.next == self then gone.prev else links.prev, if gone.prev == self then gone.next else links.next)
  }

  lemma UnlinkMembers(e: map<OutPoint, Entry>, s: Links, order: seq<OutPoint>, i: nat, e': map<OutPoint, Entry>)
    requires Wired(e, s, order) && i < |order|
    requires OnlyInfo(e, e', order[i]) && !e'[order[i]].info.Flagged() && e'[order[i]].links == Links(Null, Null)
    requires forall q :: q in e && q != order[i] ==> e'[q].links == Bypass(e[q].links, Pair(q), e[order[i]].links)
    ensures Distinct(Without(order, i)) && Members(e', Without(order, i)) && Unlinked(e')
  {
    hide Chain;
    WithoutElems(order, i);
    var gone := e[order[i]].links;
    assert gone == Links(LinkAt(order, i - 1), LinkAt(order, i + 1)) by { ChainAt(e, s, order, i); }
    forall q | q in e' && !e'[q].info.Flagged() ensures e'[q].links == Links(Null, Null) {
      if q != order[i] {
        assert !e[q].info.Flagged() && q !in order;
        assert gone.prev != Pair(q) && gone.next != Pair(q);
      }
    }
  }

  lemma ChainAt(e: map<OutPoint, Entry>, s: Links, order: seq<OutPoint>, i: nat)
    requires Wired(e, s, order) && i < |order|
    ensures order[i] in e && e[order[i]].links == Links(LinkAt(order, i - 1), LinkAt(order, i + 1))
  {}

  lemma UnlinkEnds(e: map<OutPoint, Entry>, s: Links, order: seq<OutPoint>, i: nat, s': Links)
    requires Wired(e, s, order) && i < |order| && s' == Bypass(s, Sentinel, e[order[i]].links)
    ensures s' == Links(LinkAt(Without(order, i), |order| - 2), LinkAt(Without(order, i), 0))
  {
    ChainAt(e, s, order, i);
  }

  lemma UnlinkOne(e: map<OutPoint, Entry>, s: Links, order: seq<OutPoint>, i: nat, e': map<OutPoint, Entry>, j: nat)
    requires Wired(e, s, order) && i < |order| && j < |order| - 1 && e'.Keys == e.Keys
    requires forall q :: q in e && q != order[i] ==> e'[q].links == Bypass(e[q].links, Pair(q), e[order[i]].links)
    ensures Without(order, i)[j] in e'
    ensures e'[Without(order, i)[j]].links == Links(LinkAt(Without(order, i), j - 1), LinkAt(Without(order, i), j + 1))
  {
    hide Members, Unlinked, Chain, Without, LinkAt;
    var p := if j < i then j else j + 1;
    WithoutAt(order, i, j - 1);
    WithoutAt(order, i, j);
    WithoutAt(order, i, j + 1);
    ChainAt(e, s, order, i);
    ChainAt(e, s, order, p);
    LinkIs(order, i - 1, p);
    LinkIs(order, i + 1, p);
  }

  lemma WithoutAt(order: seq<OutPoint>, i: nat, j: int)
    requires i < |order| && -1 <= j
    ensures LinkAt(Without(order, i), j) == LinkAt(order, if j < i then j else j + 1)
    ensures |Without(order, i)| == |order| - 1 && (0 <= j < |order| - 1 ==> Without(order, i)[j] == order[if j < i then j else j + 1])
  {}

  lemma LinkIs(order: seq<OutPoint>, i: int, p: nat)
    requires Distinct(order) && p < |order|
    ensures LinkAt(order, i) == Pair(order[p]) <==> i == p
  {}

  lemma SentinelPrev(e: map<OutPoint, Entry>, s: Links, order: seq<OutPoint>)
    requires Wired(e, s, order)
    ensures s.prev.Sentinel? || (s.prev.Pair? && s.prev.key in e && e[s.prev.key].info.Flagged())
    ensures s.prev.Sentinel? <==> s.next.Sentinel?
  {
    if order != [] { assert order[|order| - 1] in order; }
  }

  /** Changing the info of a flagged entry that stays flagged. */
  lemma SameWired(e: map<OutPoint, Entry>, s: Links, order: seq<OutPoint>, k: OutPoint, e': map<OutPoint, Entry>)
    requires Wired(e, s, order) && k in e && k in e' && e' == e[k := e'[k]]
    requires e'[k].links == e[k].links && e[k].info.Flagged() == e'[k].info.Flagged()
    ensures Wired(e', s, order)
  {
    forall i | 0 <= i < |order| ensures order[i] in e' && e'[order[i]].links == Links(LinkAt(order, i - 1), LinkAt(order, i + 1)) {
      ChainAt(e, s, order, i);
    }
  }

  lemma NotListed(e: map<OutPoint, Entry>, s: Links, order: seq<OutPoint>, k: OutPoint)
    requires Wired(e, s, order)
    ensures k in order <==> k in e && e[k].info.Flagged()
  {}

  lemma IndexOf(e: map<OutPoint, Entry>, s: Links, order: seq<OutPoint>, k: OutPoint) returns (i: nat)
    requires Wired(e, s, order) && k in e && e[k].info.Flagged()
    ensures i < |order| && order[i] == k && forall j :: 0 <= j < |order| && order[j] == k ==> j == i
  {
    i :| i < |order| && order[i] == k;
  }

  /** A link to the sentinel or to an entry other than k. */
  ghost predicate Points(e: map<OutPoint, Entry>, l: Link, k: OutPoint) {
    !l.Null? && (l.Pair? ==> l.key in e && l.key != k)
  }

  lemma Neighbours(e: map<OutPoint, Entry>, s: Links, order: seq<OutPoint>, i: nat)
    requires Wired(e, s, order) && i < |order| && order[i] in e
    ensures Points(e, e[order[i]].links.prev, order[i]) && Points(e, e[order[i]].links.next, order[i])
  {
    ChainAt(e, s, order, i);
    if i > 0 { ChainAt(e, s, order, i - 1); }
    if i + 1 < |order| { ChainAt(e, s, order, i + 1); }
  }

  lemma EraseWired(e: map<OutPoint, Entry>, s: Links, order: seq<OutPoint>, k: OutPoint)
    requires Wired(e, s, order) && k in e && !e[k].info.Flagged()
    ensures Wired(e - {k}, s, order)
  {
    forall i | 0 <= i < |order| ensures order[i] in e - {k} && (e - {k})[order[i]].links == Links(LinkAt(order, i - 1), LinkAt(order, i + 1)) {
      ChainAt(e, s, order, i);
      assert order[i] in order;
    }
  }

  /** The map together with its sentinel. */
  class CoinTable {
    var entries: map<OutPoint, Entry>
    var sentinel: Links
    ghost var order: seq<OutPoint>

    ghost predicate Valid()
      reads this
    {
      Wired(entries, sentinel, order)
    }

    ghost function Contents(): map<OutPoint, Info>
      reads this
    {
      Data(entries)
    }

    constructor ()
      ensures Valid() && entries == map[] && order == []
    {
      entries := map[];
      sentinel := Links(Sentinel, Sentinel);
      order := [];
    }

    method SetNext(at: Link, to: Link)
      requires at.Pair? ==> at.key in entries
      requires !at.Null?
      modifies this`entries, this`sentinel
      ensures at.Sentinel? ==> entries == old(entries) && sentinel == old(sentinel).(next := to)
      ensures at.Pair? ==> sentinel == old(sentinel)
                           && entries == old(entries)[at.key := old(entries)[at.key].(links := old(entries)[at.key].links.(next := to))]
    {
      if at.Sentinel? {
        sentinel := sentinel.(next := to);
      } else {
        var e := entries[at.key];
        entries := entries[at.key := e.(links := e.links.(next := to))];
      }
    }

    method SetPrev(at: Link, to: Link)
      requires at.Pair? ==> at.key in entries
      requires !at.Null?
      modifies this`entries, this`sentinel
      ensures at.Sentinel? ==> entries == old(entries) && sentinel == old(sentinel).(prev := to)
      ensures at.Pair? ==> sentinel == old(sentinel)
                           && entries == old(entries)[at.key := old(entries)[at.key].(links := old(entries)[at.key].links.(prev := to))]
    {
      if at.Sentinel? {
        sentinel := sentinel.(prev := to);
      } else {
        var e := entries[at.key];
        entries := entries[at.key := e.(links := e.links.(prev := to))];
      }
    }

    /** Inserts an empty entry unless there is one. */
    method TryEmplace(k: OutPoint) returns (inserted: bool)
      requires Valid()
      modifies this`entries
      ensures Valid() && inserted == (k !in old(entries))
      ensures Contents() == if inserted then old(Contents())[k := Info(Spent, false, false)] else old(Contents())
    {
      inserted := k !in entries;
      if inserted {
        entries := entries[k := Entry(Info(Spent, false, false), Links(Null, Null))];
      }
    }

    method SetCoin(k: OutPoint, coin: Coin)
      requires Valid() && k in entries
      modifies this`entries
      ensures Valid() && Contents() == old(Contents())[k := old(Contents())[k].(coin := coin)]
    {
      hide Wired, Data;
      ghost var e := entries;
      entries := entries[k := entries[k].(info := entries[k].info.(coin := coin))];
      SameWired(e, sentinel, order, k, entries);
      DataUpdate(e, entries, k);
    }

    /** Sets flags; an entry that had none is linked in before the sentinel. */
    method AddFlags(isDirty: bool, isFresh: bool, k: OutPoint)
      requires Valid() && k in entries && (isDirty || isFresh)
      modifies this
      ensures Valid()
      ensures Contents() == old(Contents())[k := Info(old(Contents())[k].coin, old(Contents())[k].isDirty || isDirty, old(Contents())[k].isFresh || isFresh)]
      ensures order == if old(entries)[k].info.Flagged() then old(order) else old(order) + [k]
    {
      hide Wired, Data;
      ghost var e, s := entries, sentinel;
      SentinelPrev(e, s, order);
      if !entries[k].info.Flagged() {
        var last := sentinel.prev;
        entries := entries[k := entries[k].(links := Links(last, Sentinel))];
        sentinel := sentinel.(prev := Pair(k));
        SetNext(last, Pair(k));
      }
      var info := entries[k].info;
      entries := entries[k := entries[k].(info := Info(info.coin, info.isDirty || isDirty, info.isFresh || isFresh))];
      DataUpdate(e, entries, k);
      if e[k].info.Flagged() {
        SameWired(e, s, order, k, entries);
      } else {
        AppendWired(e, s, order, k, entries, sentinel);
        order := order + [k];
      }
    }

    /** Clears the flags of an entry and takes it out of the list. */
    method SetClean(k: OutPoint)
      requires Valid() && k in entries
      modifies this
      ensures Valid()
      ensures Contents() == old(Contents())[k := Info(old(Contents())[k].coin, false, false)]
      ensures forall i :: 0 <= i < |old(order)| && old(order)[i] == k ==> order == Without(old(order), i)
      ensures k !in old(order) ==> order == old(order)
    {
      hide Wired, Data, Without;
      ghost var e, s := entries, sentinel;
      if !entries[k].info.Flagged() {
        DataUpdate(e, entries, k);
        NotListed(e, s, order, k);
        return;
      }
      ghost var i := IndexOf(e, s, order, k);
      Neighbours(e, s, order, i);
      var links := entries[k].links;
      SetPrev(links.next, links.prev);
      SetNext(links.prev, links.next);
      entries := entries[k := Entry(Info(entries[k].info.coin, false, false), Links(Null, Null))];
      UnlinkWired(e, s, order, i, entries, sentinel);
      DataUpdate(e, entries, k);
      order := Without(order, i);
    }

    /** Erasing an entry destroys it, which first takes it out of the list. */
    method Erase(k: OutPoint)
      requires Valid() && k in entries
      modifies this
      ensures Valid() && Contents() == old(Contents()) - {k}
      ensures forall i :: 0 <= i < |old(order)| && old(order)[i] == k ==> order == Without(old(order), i)
      ensures k !in old(order) ==> order == old(order)
    {
      hide Wired, Without;
      SetClean(k);
      assert k in Contents();
      EraseWired(entries, sentinel, order, k);
      ghost var c := Contents();
      entries := entries - {k};
      assert Contents() == c - {k};
    }

    method Clear()
      requires Valid()
      modifies this
      ensures Valid() && entries == map[] && order == []
    {
      while entries != map[]
        invariant Valid()
        decreases |Contents()|
      {
        var k :| k in entries;
        assert k in Contents();
        Erase(k);
      }
    }

    /** Where a cursor that stands on an entry or on the sentinel goes next. */
    method Next(at: Link) returns (next: Link)
      requires Valid() && (at.Pair? ==> at.key in entries && entries[at.key].info.Flagged()) && !at.Null?
      ensures at.Sentinel? ==> next == LinkAt(order, 0)
      ensures forall i :: 0 <= i < |order| && at == Pair(order[i]) ==> next == LinkAt(order, i + 1)
    {
      next := if at.Sentinel? then sentinel.next else entries[at.key].links.next;
    }
  }
}
