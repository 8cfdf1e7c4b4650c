// The cuckoo cache (src/cuckoocache.h), used by one thread at a time.
module CuckooCache {
  import opened Powers

  // ---------------------------------------------------------------- packed flags

  function Mask(k: nat): bv8
    requires k < 8
  {
    if k == 0 then 1 else if k == 1 then 2 else if k == 2 then 4 else if k == 3 then 8
    else if k == 4 then 16 else if k == 5 then 32 else if k == 6 then 64 else 128
  }

  function Test(b: bv8, k: nat): bool
    requires k < 8
  {
    b & Mask(k) != 0
  }

  lemma SetMask(b: bv8, k: nat, j: nat)
    requires k < 8 && j < 8
    ensures Test(b | Mask(k), j) == (j == k || Test(b, j))
  {}

  lemma UnsetMask(b: bv8, k: nat, j: nat)
    requires k < 8 && j < 8
    ensures Test(b & !Mask(k), j) == (j != k && Test(b, j))
  {}

  lemma FullMask(j: nat)
    requires j < 8
    ensures Test(0xff, j)
  {}

  /** One bit for each entry, eight to a byte; a set bit marks an entry that may be discarded. */
  class PackedFlags {
    const mem: array<bv8>
    const size: nat

    ghost predicate Valid() { mem.Length == (size + 7) / 8 }

    predicate IsSet(s: nat)
      requires Valid() && s < size
      reads mem
    {
      Test(mem[s / 8], s % 8)
    }

    ghost function Bits(): (b: seq<bool>)
      requires Valid()
      reads mem
      ensures |b| == size && forall i :: 0 <= i < size ==> b[i] == IsSet(i)
    {
      seq(size, i requires 0 <= i < size reads mem => IsSet(i))
    }

    constructor (size: nat)
      ensures Valid() && this.size == size && fresh(mem) && forall i :: 0 <= i < size ==> Bits()[i]
    {
      this.size := size;
      mem := new bv8[(size + 7) / 8](_ => ALL);
      new;
      forall i | 0 <= i < size ensures IsSet(i) { FullMask(i % 8); }
    }

    method BitSet(s: nat)
      requires Valid() && s < size
      modifies mem
      ensures Bits() == old(Bits())[s := true]
    {
      hide Test, Mask;
      ghost var before := mem[..];
      mem[s / 8] := mem[s / 8] | Mask(s % 8);
      forall i | 0 <= i < size ensures IsSet(i) == (i == s || old(IsSet(i))) {
        if i / 8 == s / 8 { SetMask(before[s / 8], s % 8, i % 8); }
      }
    }

    method BitUnset(s: nat)
      requires Valid() && s < size
      modifies mem
      ensures Bits() == old(Bits())[s := false]
    {
      hide Test, Mask;
      ghost var before := mem[..];
      mem[s / 8] := mem[s / 8] & !Mask(s % 8);
      forall i | 0 <= i < size ensures IsSet(i) == (i != s && old(IsSet(i))) {
        if i / 8 == s / 8 { UnsetMask(before[s / 8], s % 8, i % 8); }
      }
    }
  }

  const ALL: bv8 := 0xff

  // ---------------------------------------------------------------- where elements may stand

  const TWO_32 := 0x1_0000_0000

  /** Maps a 32-bit hash to [0, n). */
  function FastRange32(x: nat, n: nat): (r: nat)
    requires x < TWO_32 && n > 0
    ensures r < n
  {
    RangeBound(x, n);
    x * n / TWO_32
  }

  lemma RangeBound(x: nat, n: nat)
    requires x < TWO_32 && n > 0
    ensures 0 <= x * n / TWO_32 < n
  {
    ProductBelow(x, n);
  }

  lemma {:induction false} ProductBelow(x: nat, n: nat)
    requires x < TWO_32 && n > 0
    ensures 0 <= x * n < TWO_32 * n
  {
    if n > 1 {
      ProductBelow(x, n - 1);
      assert x * n == x * (n - 1) + x;
    }
  }

  /** The live elements of a table. */
  ghost function Live<E>(tab: seq<E>, dead: seq<bool>): multiset<E>
    requires |tab| == |dead|
  {
    if tab == [] then multiset{}
    else Live(tab[..|tab| - 1], dead[..|tab| - 1]) + One(tab[|tab| - 1], dead[|tab| - 1])
  }

  ghost function One<E>(e: E, dead: bool): multiset<E> { if dead then multiset{} else multiset{e} }

  lemma {:induction false} LiveWrite<E>(tab: seq<E>, dead: seq<bool>, i: nat, e: E, d: bool)
    requires |tab| == |dead| && i < |tab|
    ensures Live(tab[i := e], dead[i := d]) + One(tab[i], dead[i]) == Live(tab, dead) + One(e, d)
  {
    hide One;
    var n := |tab| - 1;
    var tab', dead' := tab[i := e], dead[i := d];
    if i == n {
      assert tab'[..n] == tab[..n] && dead'[..n] == dead[..n];
      Swap(Live(tab[..n], dead[..n]), One(e, d), One(tab[i], dead[i]));
    } else {
      assert tab'[..n] == tab[..n][i := e] && dead'[..n] == dead[..n][i := d];
      LiveWrite(tab[..n], dead[..n], i, e, d);
      Carry(Live(tab'[..n], dead'[..n]), One(tab[i], dead[i]), Live(tab[..n], dead[..n]), One(e, d), One(tab[n], dead[n]));
    }
  }

  lemma Swap<E>(a: multiset<E>, b: multiset<E>, c: multiset<E>)
    ensures a + b + c == a + c + b
  {}

  lemma Carry<E>(a: multiset<E>, b: multiset<E>, c: multiset<E>, d: multiset<E>, m: multiset<E>)
    requires a + b == c + d
    ensures (a + m) + b == (c + m) + d
  {
    assert (a + m) + b == (a + b) + m;
    assert (c + m) + d == (c + d) + m;
  }

  /** Elements together with whether they belong to the current epoch. */
  ghost function Zip<E>(tab: seq<E>, epochs: seq<bool>): (pairs: seq<(E, bool)>)
    requires |tab| == |epochs|
    ensures |pairs| == |tab|
  {
    seq(|tab|, i requires 0 <= i < |tab| => (tab[i], epochs[i]))
  }

  lemma ZipWrite<E>(tab: seq<E>, epochs: seq<bool>, i: nat, e: E, epoch: bool)
    requires |tab| == |epochs| && i < |tab|
    ensures Zip(tab[i := e], epochs[i := epoch]) == Zip(tab, epochs)[i := (e, epoch)] && Zip(tab, epochs)[i] == (tab[i], epochs[i])
  {}

  // ---------------------------------------------------------------- the epoch scan

  /** The live elements of the current epoch. */
  ghost function CountEpoch(epochs: seq<bool>, dead: seq<bool>): nat
    requires |epochs| == |dead|
  {
    if epochs == [] then 0
    else
      var n := |epochs| - 1;
      CountEpoch(epochs[..n], dead[..n]) + if epochs[n] && !dead[n] then 1 else 0
  }

  lemma CountNext(epochs: seq<bool>, dead: seq<bool>, i: nat)
    requires i < |epochs| == |dead|
    ensures CountEpoch(epochs[..i + 1], dead[..i + 1]) == CountEpoch(epochs[..i], dead[..i]) + if epochs[i] && !dead[i] then 1 else 0
  {
    assert epochs[..i + 1][..i] == epochs[..i] && dead[..i + 1][..i] == dead[..i];
  }

  /** Enough of the current epoch is in use, and it is time to look. */
  ghost predicate Ages(epochs: seq<bool>, dead: seq<bool>, counter: nat, epochSize: nat)
    requires |epochs| == |dead|
  {
    counter == 0 && CountEpoch(epochs, dead) >= epochSize
  }

  ghost function AgedDead(epochs: seq<bool>, dead: seq<bool>, ages: bool): (r: seq<bool>)
    requires |epochs| == |dead|
    ensures |r| == |dead|
  {
    seq(|dead|, i requires 0 <= i < |dead| => dead[i] || (ages && !epochs[i]))
  }

  ghost function AgedEpochs(epochs: seq<bool>, ages: bool): (r: seq<bool>)
    ensures |r| == |epochs|
  {
    seq(|epochs|, i requires 0 <= i < |epochs| => epochs[i] && !ages)
  }

  ghost function NextCounter(epochs: seq<bool>, dead: seq<bool>, counter: nat, epochSize: nat): nat
    requires |epochs| == |dead|
  {
    if counter != 0 then counter - 1
    else if Ages(epochs, dead, counter, epochSize) then epochSize
    else Max(1, Max(epochSize / 16, epochSize - CountEpoch(epochs, dead)))
  }

  /** Ageing keeps every live element of the current epoch, as one of the old epoch, and nothing else. */
  lemma {:induction false} AgeKeepsCurrent<E>(tab: seq<E>, epochs: seq<bool>, dead: seq<bool>)
    requires |tab| == |epochs| == |dead|
    ensures forall e :: Live(Zip(tab, AgedEpochs(epochs, true)), AgedDead(epochs, dead, true))[(e, false)] == Live(Zip(tab, epochs), dead)[(e, true)]
    ensures |Live(Zip(tab, AgedEpochs(epochs, true)), AgedDead(epochs, dead, true))| == CountEpoch(epochs, dead)
  {
    if tab != [] {
      hide Live, Zip, AgedDead, AgedEpochs;
      var n := |tab| - 1;
      AgeKeepsCurrent(tab[..n], epochs[..n], dead[..n]);
      LiveLast(tab, epochs, dead);
      LiveLast(tab, AgedEpochs(epochs, true), AgedDead(epochs, dead, true));
      AgedLast(epochs, dead);
    }
  }

  lemma LiveLast<E>(tab: seq<E>, epochs: seq<bool>, dead: seq<bool>)
    requires |tab| == |epochs| == |dead| && tab != []
    ensures var n := |tab| - 1;
      Live(Zip(tab, epochs), dead) == Live(Zip(tab[..n], epochs[..n]), dead[..n]) + One((tab[n], epochs[n]), dead[n])
  {
    var n := |tab| - 1;
    assert Zip(tab, epochs)[..n] == Zip(tab[..n], epochs[..n]) && Zip(tab, epochs)[n] == (tab[n], epochs[n]);
  }

  lemma AgedLast(epochs: seq<bool>, dead: seq<bool>)
    requires |epochs| == |dead| && epochs != []
    ensures var n := |epochs| - 1;
      && AgedEpochs(epochs, true)[..n] == AgedEpochs(epochs[..n], true) && !AgedEpochs(epochs, true)[n]
      && AgedDead(epochs, dead, true)[..n] == AgedDead(epochs[..n], dead[..n], true) && AgedDead(epochs, dead, true)[n] == (dead[n] || !epochs[n])
  {}

  // ---------------------------------------------------------------- hashing

  datatype Hashing<!E> = Hashing(hash: (E, nat) -> nat, size: nat, empty: E)

  ghost predicate Ranged<E(!new)>(h: Hashing<E>) { h.size > 0 && forall e, k :: h.hash(e, k) < TWO_32 }

  /** The eight places of an element. */
  function Locs<E(!new)>(h: Hashing<E>, e: E): (locs: seq<nat>)
    requires Ranged(h)
    ensures |locs| == 8 && forall k :: 0 <= k < 8 ==> locs[k] < h.size
  {
    seq(8, k requires 0 <= k < 8 => FastRange32(h.hash(e, k), h.size))
  }

  /** Every element that counts stands in one of its places. */
  ghost predicate Placed<E(!new)>(h: Hashing<E>, tab: seq<E>, dead: seq<bool>) {
    && Ranged(h) && |tab| == |dead| == h.size
    && forall i :: 0 <= i < |tab| && (tab[i] != h.empty || !dead[i]) ==> i in Locs(h, tab[i])
  }

  /** No element but the empty one stands in two places. */
  ghost predicate Unique<E>(tab: seq<E>, empty: E) {
    forall i, j :: 0 <= i < j < |tab| && tab[i] == tab[j] ==> tab[i] == empty
  }

  /** An element that is in no place, unless it is the empty one. */
  ghost predicate Absent<E>(tab: seq<E>, e: E, empty: E) {
    forall i :: 0 <= i < |tab| && tab[i] == e ==> e == empty
  }

  /** Writing an element that is absent into one of its places keeps the table in order. */
  lemma WriteKeeps<E(!new)>(h: Hashing<E>, tab: seq<E>, dead: seq<bool>, i: nat, e: E)
    requires Placed(h, tab, dead) && Unique(tab, h.empty) && i < |tab| && i in Locs(h, e) && Absent(tab, e, h.empty)
    ensures Placed(h, tab[i := e], dead[i := false]) && Unique(tab[i := e], h.empty)
    ensures tab[i] != e ==> Absent(tab[i := e], tab[i], h.empty)
  {
    hide Locs;
    var t := tab[i := e];
    forall a, b | 0 <= a < b < |t| && t[a] == t[b] ensures t[a] == h.empty {
      if a != i && b != i { assert tab[a] == tab[b]; } else { assert tab[if a == i then b else a] == e; }
    }
    if tab[i] != e {
      forall a | 0 <= a < |t| && t[a] == tab[i] ensures tab[i] == h.empty { assert a != i && tab[a] == tab[i]; }
    }
  }

  /** Giving up what is discardable, or keeping it again, where it stands in its place. */
  lemma MarkKeeps<E(!new)>(h: Hashing<E>, tab: seq<E>, dead: seq<bool>, dead': seq<bool>)
    requires Placed(h, tab, dead) && |dead'| == |dead|
    requires forall i :: 0 <= i < |tab| && dead[i] && !dead'[i] ==> i in Locs(h, tab[i])
    ensures Placed(h, tab, dead')
  {
    hide Locs;
  }

  // ---------------------------------------------------------------- chains of displacements

  /** None of the places of an element is discardable. */
  ghost predicate NoFree<E(!new)>(h: Hashing<E>, dead: seq<bool>, e: E)
    requires Ranged(h) && |dead| == h.size
  {
    forall k :: 0 <= k < 8 ==> !dead[Locs(h, e)[k]]
  }

  /** Where an element goes that was taken out of a place: the place of its own after that one. */
  function NextLoc<E(!new)>(h: Hashing<E>, e: E, last: int): (loc: nat)
    requires Ranged(h)
    ensures loc < h.size
  {
    Locs(h, e)[(1 + IndexIn(Locs(h, e), last)) % 8]
  }

  /** The table after the elements of chain were put into the slots of path, one after the other. */
  function Kicked<E>(tab: seq<E>, chain: seq<E>, path: seq<nat>): (r: seq<E>)
    requires |chain| == |path| && forall i :: 0 <= i < |path| ==> path[i] < |tab|
    ensures |r| == |tab|
  {
    if path == [] then tab else Kicked(tab, chain[..|path| - 1], path[..|path| - 1])[path[|path| - 1] := chain[|path| - 1]]
  }

  /** The i-th displacement: nothing was free, and what stood in the next place is taken out. */
  ghost predicate KickOk<E(!new)>(h: Hashing<E>, dead: seq<bool>, tab: seq<E>, chain: seq<E>, path: seq<nat>, i: nat)
    requires Ranged(h) && |dead| == |tab| == h.size && |chain| == |path| + 1 && i < |path| && forall j :: 0 <= j < |path| ==> path[j] < |tab|
  {
    && NoFree(h, dead, chain[i]) && path[i] == NextLoc(h, chain[i], if i == 0 then -1 else path[i - 1])
    && chain[i + 1] == Kicked(tab, chain[..i], path[..i])[path[i]]
  }

  /** A chain of displacements that starts with e. */
  ghost predicate KickRun<E(!new)>(h: Hashing<E>, dead: seq<bool>, tab: seq<E>, e: E, chain: seq<E>, path: seq<nat>) {
    && Ranged(h) && |dead| == |tab| == h.size && |chain| == |path| + 1 && chain[0] == e
    && (forall j :: 0 <= j < |path| ==> path[j] < |tab|)
    && forall i :: 0 <= i < |path| ==> KickOk(h, dead, tab, chain, path, i)
  }

  lemma KickMore<E(!new)>(h: Hashing<E>, dead: seq<bool>, tab: seq<E>, e: E, chain: seq<E>, path: seq<nat>, loc: nat, out: E)
    requires KickRun(h, dead, tab, e, chain, path) && NoFree(h, dead, chain[|path|])
    requires loc == NextLoc(h, chain[|path|], if path == [] then -1 else path[|path| - 1]) && out == Kicked(tab, chain[..|path|], path)[loc]
    ensures KickRun(h, dead, tab, e, chain + [out], path + [loc])
    ensures Kicked(tab, chain, path + [loc]) == Kicked(tab, chain[..|path|], path)[loc := chain[|path|]]
  {
    hide NoFree, NextLoc;
    var n, chain', path' := |path|, chain + [out], path + [loc];
    assert path'[..n] == path && chain'[..n] == chain[..n];
    forall i | 0 <= i < |path'| ensures KickOk(h, dead, tab, chain', path', i) {
      if i < n {
        assert KickOk(h, dead, tab, chain, path, i);
        assert chain'[..i] == chain[..i] && path'[..i] == path[..i];
      }
    }
  }

  /** How an insertion of an absent element ends: in a free place, or with the last element taken out being dropped. */
  ghost predicate Settles<E(!new)>(h: Hashing<E>, dead: seq<bool>, tab: seq<E>, e: E, chain: seq<E>, path: seq<nat>, limit: nat,
                                   tab': seq<E>, dropped: multiset<(E, bool)>) {
    && KickRun(h, dead, tab, e, chain, path) && |path| <= limit
    && var last, moved := chain[|path|], Kicked(tab, chain[..|path|], path);
       || (dropped == multiset{} && |path| < limit && exists k :: 0 <= k < 8 && dead[Locs(h, last)[k]] && tab' == moved[Locs(h, last)[k] := last])
       || (|path| == limit && tab' == moved && (dropped == multiset{(last, true)} || dropped == multiset{(last, false)}))
  }

  /** With a free place the element is stored at once. */
  lemma FreePlaceTaken<E(!new)>(h: Hashing<E>, dead: seq<bool>, tab: seq<E>, e: E, chain: seq<E>, path: seq<nat>, limit: nat,
                                tab': seq<E>, dropped: multiset<(E, bool)>)
    requires Settles(h, dead, tab, e, chain, path, limit, tab', dropped) && limit > 0 && !NoFree(h, dead, e)
    ensures path == [] && dropped == multiset{} && exists k :: 0 <= k < 8 && dead[Locs(h, e)[k]] && tab' == tab[Locs(h, e)[k] := e]
  {
    hide NoFree, Locs;
    assert path != [] ==> KickOk(h, dead, tab, chain, path, 0);
  }

  class Cache<E(==, !new)> {
    const hashing: Hashing<E>
    const table: array<E>
    const flags: PackedFlags
    const epochFlags: array<bool>
    const epochSize: nat
    const depthLimit: nat
    var epochHeuristicCounter: nat

    ghost predicate Shape() {
      && Ranged(hashing) && flags.Valid() && table.Length == flags.size == epochFlags.Length == hashing.size
      && flags.mem as object != table && flags.mem as object != epochFlags && table as object != epochFlags
      && depthLimit > 0
    }

    /** Every live slot holds an element that hashes to it, and each element but the empty one is in at most one slot. */
    ghost predicate Valid()
      reads this, table, flags.mem
    {
      Shape() && Placed(hashing, table[..], flags.Bits()) && Unique(table[..], hashing.empty)
    }

    /** The live elements, and whether they belong to the current epoch. */
    ghost function LiveNow(): multiset<(E, bool)>
      requires Shape()
      reads table, flags.mem, epochFlags
    {
      Live(Zip(table[..], epochFlags[..]), flags.Bits())
    }

    /** All slots are free. */
    constructor (newSize: nat, hash: (E, nat) -> nat, empty: E)
      requires forall e, k :: hash(e, k) < TWO_32
      ensures Valid() && LiveNow() == multiset{} && table.Length == if newSize < 2 then 2 else newSize
      ensures fresh(table) && fresh(flags.mem) && fresh(epochFlags)
      ensures Pow(2, depthLimit) <= table.Length < Pow(2, depthLimit + 1)
    {
      hide Placed, Unique, Live, Zip, Locs, Test, Mask, Log2, Pow;
      var size := if newSize < 2 then 2 else newSize;
      hashing := Hashing(hash, size, empty);
      table := new E[size](_ => empty);
      flags := new PackedFlags(size);
      epochFlags := new bool[size](_ => false);
      epochSize := if 45 * size / 100 < 1 then 1 else 45 * size / 100;
      depthLimit := Log2(size);
      epochHeuristicCounter := if 45 * size / 100 < 1 then 1 else 45 * size / 100;
      Log2Means(if newSize < 2 then 2 else newSize);
      new;
      EmptyTable(hashing, table[..], flags.Bits());
      NoneLive(Zip(table[..], epochFlags[..]), flags.Bits());
    }

    /** Ages the epochs when enough elements of the current one are in use: then everything older becomes discardable. */
    method EpochCheck()
      requires Valid()
      modifies this, flags.mem, epochFlags
      ensures Valid() && table[..] == old(table[..])
      ensures flags.Bits() == AgedDead(old(epochFlags[..]), old(flags.Bits()), old(Ages(epochFlags[..], flags.Bits(), epochHeuristicCounter, epochSize)))
      ensures epochFlags[..] == AgedEpochs(old(epochFlags[..]), old(Ages(epochFlags[..], flags.Bits(), epochHeuristicCounter, epochSize)))
      ensures epochHeuristicCounter == NextCounter(old(epochFlags[..]), old(flags.Bits()), old(epochHeuristicCounter), epochSize)
    {
      hide Placed, Unique, CountEpoch;
      ghost var tab, epochs, dead := table[..], epochFlags[..], flags.Bits();
      assert AgedDead(epochs, dead, false) == dead && AgedEpochs(epochs, false) == epochs;
      if epochHeuristicCounter != 0 {
        epochHeuristicCounter := epochHeuristicCounter - 1;
        return;
      }
      var count := CountUnused();
      if count >= epochSize {
        Age();
        MarkKeeps(hashing, tab, dead, flags.Bits());
        epochHeuristicCounter := epochSize;
      } else {
        epochHeuristicCounter := Max(1, Max(epochSize / 16, epochSize - count));
      }
    }

    /** Counts the elements of the current epoch that are in use. */
    method CountUnused() returns (count: nat)
      requires Shape()
      ensures count == CountEpoch(epochFlags[..], flags.Bits())
    {
      hide CountEpoch;
      ghost var epochs, dead := epochFlags[..], flags.Bits();
      NoneCounted(epochs, dead);
      count := 0;
      var i: nat := 0;
      while i < table.Length
        invariant i <= table.Length && count == CountEpoch(epochs[..i], dead[..i])
      {
        CountNext(epochs, dead, i);
        if epochFlags[i] && !flags.IsSet(i) {
          count := count + 1;
        }
        i := i + 1;
      }
      assert epochs[..i] == epochs && dead[..i] == dead;
    }

    /** Elements of the old epoch become discardable, those of the current one old. */
    method Age()
      requires Shape()
      modifies flags.mem, epochFlags
      ensures table[..] == old(table[..])
      ensures flags.Bits() == AgedDead(old(epochFlags[..]), old(flags.Bits()), true) && epochFlags[..] == AgedEpochs(old(epochFlags[..]), true)
    {
      ghost var tab, epochs, dead := table[..], epochFlags[..], flags.Bits();
      var i: nat := 0;
      while i < table.Length
        invariant i <= table.Length && table[..] == tab && epochFlags[i..] == epochs[i..]
        invariant forall j :: 0 <= j < i ==> !epochFlags[j]
        invariant forall j :: 0 <= j < table.Length ==> flags.Bits()[j] == (dead[j] || (j < i && !epochs[j]))
      {
        assert epochFlags[i] == epochs[i];
        if epochFlags[i] {
          epochFlags[i] := false;
        } else {
          flags.BitSet(i);
        }
        i := i + 1;
      }
    }

    /** Whether the element stands in one of its places; it may be marked as discardable. */
    method Contains(e: E, erase: bool) returns (found: bool)
      requires Valid()
      modifies flags.mem
      ensures Valid() && (found <==> exists k :: 0 <= k < 8 && table[Locs(hashing, e)[k]] == e)
      ensures e != hashing.empty ==> (found <==> e in table[..])
      ensures !erase || !found ==> flags.Bits() == old(flags.Bits())
      ensures erase && found ==> exists i :: 0 <= i < table.Length && table[i] == e && flags.Bits() == old(flags.Bits())[i := true]
    {
      hide Unique;
      var locs := Locs(hashing, e);
      var k := 0;
      while k < 8
        invariant 0 <= k <= 8 && forall j :: 0 <= j < k ==> table[locs[j]] != e
      {
        if table[locs[k]] == e {
          assert table[..][locs[k]] == e;
          if erase {
            ghost var dead := flags.Bits();
            MarkKeeps(hashing, table[..], dead, dead[locs[k] := true]);
            flags.BitSet(locs[k]);
          }
          return true;
        }
        k := k + 1;
      }
      if e != hashing.empty { NotThere(hashing, table[..], flags.Bits(), e); }
      found := false;
    }

    /** Gives an absent element a slot that is discardable, if one of its places is. */
    method TakeFree(e: E, locs: seq<nat>, epoch: bool) returns (taken: bool)
      requires Valid() && locs == Locs(hashing, e) && Absent(table[..], e, hashing.empty)
      modifies table, flags.mem, epochFlags
      ensures Valid() && (taken ==> LiveNow() == old(LiveNow()) + multiset{(e, epoch)} && e in table[..])
      ensures taken ==> exists k :: 0 <= k < 8 && old(flags.Bits())[locs[k]] && table[..] == old(table[..])[locs[k] := e]
      ensures !taken ==> table[..] == old(table[..]) && flags.Bits() == old(flags.Bits()) && LiveNow() == old(LiveNow()) && forall k :: 0 <= k < 8 ==> !flags.Bits()[locs[k]]
    {
      hide Placed, Unique, Absent, Locs, Live, Zip;
      var k := 0;
      while k < 8
        invariant 0 <= k <= 8 && forall j :: 0 <= j < k ==> !flags.Bits()[locs[j]]
      {
        var loc := locs[k];
        if flags.IsSet(loc) {
          ghost var tab, epochs, dead := table[..], epochFlags[..], flags.Bits();
          WriteKeeps(hashing, tab, dead, loc, e);
          ZipWrite(tab, epochs, loc, e, epoch);
          LiveWrite(Zip(tab, epochs), dead, loc, (e, epoch), false);
          table[loc] := e;
          assert table[..] == tab[loc := e];
          flags.BitUnset(loc);
          epochFlags[loc] := epoch;
          assert epochFlags[..] == epochs[loc := epoch];
          assert table[..][loc] == e;
          return true;
        }
        k := k + 1;
      }
      taken := false;
    }

    /** Puts an absent element into one of its live places and takes out what stood there. */
    method Displace(e: E, loc: nat, epoch: bool) returns (out: E, outEpoch: bool)
      requires Valid() && loc in Locs(hashing, e) && loc < table.Length && !flags.Bits()[loc] && Absent(table[..], e, hashing.empty)
      modifies table, epochFlags
      ensures Valid() && flags.Bits() == old(flags.Bits()) && out == old(table[..])[loc] && table[..] == old(table[..])[loc := e]
      ensures LiveNow() + multiset{(out, outEpoch)} == old(LiveNow()) + multiset{(e, epoch)} && Absent(table[..], out, hashing.empty)
    {
      hide Placed, Unique, Absent, Locs, Live, Zip;
      ghost var tab, epochs, dead := table[..], epochFlags[..], flags.Bits();
      WriteKeeps(hashing, tab, dead, loc, e);
      ZipWrite(tab, epochs, loc, e, epoch);
      LiveWrite(Zip(tab, epochs), dead, loc, (e, epoch), false);
      out := table[loc];
      table[loc] := e;
      assert table[..] == tab[loc := e] && dead[loc := false] == dead;
      outEpoch := epochFlags[loc];
      epochFlags[loc] := epoch;
      assert epochFlags[..] == epochs[loc := epoch];
      if out == e { SameAbsent(tab, loc, e, hashing.empty); }
    }

    /** What is live after the epoch check. */
    ghost function LiveAfterCheck(): multiset<(E, bool)>
      requires Shape()
      reads this, table, flags.mem, epochFlags
    {
      var epochs, dead := epochFlags[..], flags.Bits();
      var ages := Ages(epochs, dead, epochHeuristicCounter, epochSize);
      Live(Zip(table[..], AgedEpochs(epochs, ages)), AgedDead(epochs, dead, ages))
    }

    /** What is discardable after the epoch check. */
    ghost function DeadAfterCheck(): seq<bool>
      requires Shape()
      reads this, flags.mem, epochFlags
    {
      AgedDead(epochFlags[..], flags.Bits(), Ages(epochFlags[..], flags.Bits(), epochHeuristicCounter, epochSize))
    }

    /** The element stands in one of its places. */
    ghost predicate Holds(e: E)
      requires Shape()
      reads table
    {
      exists k :: 0 <= k < 8 && table[Locs(hashing, e)[k]] == e
    }

    /**
     * Inserts an element into the current epoch. Of what is live after the epoch check and the element
     * itself, at most one is dropped: nothing, the element as it stood before, or the last one displaced, and that
     * only after depthLimit displacements, none of which had a free place to go to.
     */
    method Insert(e: E) returns (ghost dropped: multiset<(E, bool)>, ghost chain: seq<E>, ghost path: seq<nat>)
      requires Valid()
      modifies this, table, flags.mem, epochFlags
      ensures Valid() && |dropped| <= 1
      ensures LiveNow() + dropped == old(LiveAfterCheck()) + multiset{(e, true)}
      ensures old(Holds(e)) ==> table[..] == old(table[..]) && dropped <= multiset{(e, true), (e, false)}
      ensures !old(Holds(e)) ==> Settles(hashing, old(DeadAfterCheck()), old(table[..]), e, chain, path, depthLimit, table[..], dropped)
      ensures !old(Holds(e)) && !NoFree(hashing, old(DeadAfterCheck()), e) ==> dropped == multiset{} && e in table[..]
    {
      hide Placed, Unique, Absent, Locs, Live, Zip, AgedDead, AgedEpochs, Ages, NoFree, NextLoc, KickRun, Kicked;
      ghost var kept, tab, dead := LiveAfterCheck(), table[..], DeadAfterCheck();
      chain, path := [e], [];
      EpochCheck();
      assert LiveNow() == kept && flags.Bits() == dead;
      var locs := Locs(hashing, e);
      var found;
      found, dropped := Refresh(e, locs, true);
      if found {
        return;
      }
      KickStart(hashing, dead, tab, e);
      var hand, lastEpoch, lastLoc: int := e, true, -1;
      var depth := 0;
      while depth < depthLimit
        invariant 0 <= depth <= depthLimit && Valid() && locs == Locs(hashing, hand) && Absent(table[..], hand, hashing.empty)
        invariant LiveNow() + multiset{(hand, lastEpoch)} == kept + multiset{(e, true)}
        invariant flags.Bits() == dead && KickRun(hashing, dead, tab, e, chain, path) && |path| == depth && |chain| == depth + 1
        invariant chain[depth] == hand && lastLoc == (if path == [] then -1 else path[|path| - 1])
        invariant (forall j :: 0 <= j < |path| ==> path[j] < |tab|) && table[..] == Kicked(tab, chain[..depth], path)
      {
        var taken := TakeFree(hand, locs, lastEpoch);
        if taken {
          Stored(hashing, dead, tab, e, chain, path, depthLimit, table[..]);
          return;
        }
        IsFull(hashing, dead, hand);
        var idx := IndexIn(locs, lastLoc);
        ghost var before := lastLoc;
        lastLoc := locs[(1 + idx) % 8];
        NextLocIs(hashing, hand, before);
        hand, lastEpoch := Displace(hand, lastLoc, lastEpoch);
        KickMore(hashing, dead, tab, e, chain, path, lastLoc, hand);
        chain, path := chain + [hand], path + [lastLoc];
        locs := Locs(hashing, hand);
        depth := depth + 1;
      }
      dropped := multiset{(hand, lastEpoch)};
      Overflowed(hashing, dead, tab, e, chain, path, depthLimit, table[..], hand, lastEpoch);
    }

    /** If the element is there already, makes sure that it does not get deleted. */
    method Refresh(e: E, locs: seq<nat>, epoch: bool) returns (found: bool, ghost before: multiset<(E, bool)>)
      requires Valid() && locs == Locs(hashing, e)
      modifies flags.mem, epochFlags
      ensures Valid() && table[..] == old(table[..]) && (found <==> Holds(e))
      ensures found ==> LiveNow() + before == old(LiveNow()) + multiset{(e, epoch)} && e in table[..]
      ensures before == multiset{} || (found && (before == multiset{(e, true)} || before == multiset{(e, false)}))
      ensures !found ==> flags.Bits() == old(flags.Bits()) && epochFlags[..] == old(epochFlags[..]) && Absent(table[..], e, hashing.empty)
    {
      hide Unique, Live, Locs, Zip;
      before := multiset{};
      var k := 0;
      while k < 8
        invariant 0 <= k <= 8 && forall j :: 0 <= j < k ==> table[locs[j]] != e
      {
        var loc := locs[k];
        if table[loc] == e {
          ghost var tab, epochs, dead := table[..], epochFlags[..], flags.Bits();
          assert tab[loc] == e;
          MarkKeeps(hashing, tab, dead, dead[loc := false]);
          ZipWrite(tab, epochs, loc, e, epoch);
          LiveWrite(Zip(tab, epochs), dead, loc, (e, epoch), false);
          assert tab[loc := e] == tab;
          before := if epochs[loc] then One((e, true), dead[loc]) else One((e, false), dead[loc]);
          flags.BitUnset(loc);
          epochFlags[loc] := epoch;
          assert epochFlags[..] == epochs[loc := epoch];
          found := true;
          return;
        }
        k := k + 1;
      }
      NotAnywhere(hashing, table[..], flags.Bits(), e);
      found := false;
    }
  }

  lemma NoneCounted(epochs: seq<bool>, dead: seq<bool>)
    requires |epochs| == |dead|
    ensures CountEpoch(epochs[..0], dead[..0]) == 0
  {}

  lemma NotAnywhere<E(!new)>(h: Hashing<E>, tab: seq<E>, dead: seq<bool>, e: E)
    requires Placed(h, tab, dead) && forall k :: 0 <= k < 8 ==> tab[Locs(h, e)[k]] != e
    ensures Absent(tab, e, h.empty)
  {}

  lemma NotThere<E(!new)>(h: Hashing<E>, tab: seq<E>, dead: seq<bool>, e: E)
    requires Placed(h, tab, dead) && e != h.empty && forall k :: 0 <= k < 8 ==> tab[Locs(h, e)[k]] != e
    ensures e !in tab
  {
    NotAnywhere(h, tab, dead, e);
  }

  lemma SameAbsent<E>(tab: seq<E>, i: nat, e: E, empty: E)
    requires i < |tab| && tab[i] == e && Absent(tab, e, empty)
    ensures Absent(tab[i := e], e, empty)
  {
    assert tab[i := e] == tab;
  }

  lemma {:induction false} NoneLive<E>(tab: seq<E>, dead: seq<bool>)
    requires |tab| == |dead| && forall i :: 0 <= i < |dead| ==> dead[i]
    ensures Live(tab, dead) == multiset{}
  {
    if tab != [] { NoneLive(tab[..|tab| - 1], dead[..|tab| - 1]); }
  }

  lemma EmptyTable<E(!new)>(h: Hashing<E>, tab: seq<E>, dead: seq<bool>)
    requires Ranged(h) && |tab| == |dead| == h.size
    requires (forall i :: 0 <= i < |tab| ==> tab[i] == h.empty) && forall i :: 0 <= i < |dead| ==> dead[i]
    ensures Placed(h, tab, dead) && Unique(tab, h.empty)
  {
    hide Locs;
  }

  function Max(a: nat, b: nat): nat { if a < b then b else a }

  lemma KickStart<E(!new)>(h: Hashing<E>, dead: seq<bool>, tab: seq<E>, e: E)
    requires Ranged(h) && |dead| == |tab| == h.size
    ensures KickRun(h, dead, tab, e, [e], []) && Kicked(tab, [e][..0], []) == tab
  {}

  lemma IsFull<E(!new)>(h: Hashing<E>, dead: seq<bool>, e: E)
    requires Ranged(h) && |dead| == h.size && forall k :: 0 <= k < 8 ==> !dead[Locs(h, e)[k]]
    ensures NoFree(h, dead, e)
  {}

  lemma NextLocIs<E(!new)>(h: Hashing<E>, e: E, last: int)
    requires Ranged(h)
    ensures NextLoc(h, e, last) == Locs(h, e)[(1 + IndexIn(Locs(h, e), last)) % 8] && NextLoc(h, e, last) in Locs(h, e)
  {}

  lemma Stored<E(!new)>(h: Hashing<E>, dead: seq<bool>, tab: seq<E>, e: E, chain: seq<E>, path: seq<nat>, limit: nat, tab': seq<E>)
    requires KickRun(h, dead, tab, e, chain, path) && |path| < limit
    requires exists k :: 0 <= k < 8 && dead[Locs(h, chain[|path|])[k]] && tab' == Kicked(tab, chain[..|path|], path)[Locs(h, chain[|path|])[k] := chain[|path|]]
    ensures Settles(h, dead, tab, e, chain, path, limit, tab', multiset{})
    ensures !NoFree(h, dead, e) ==> e in tab'
  {
    hide KickOk, Kicked, Locs, NoFree;
    if !NoFree(h, dead, e) {
      FreePlaceTaken(h, dead, tab, e, chain, path, limit, tab', multiset{});
      var k :| 0 <= k < 8 && dead[Locs(h, e)[k]] && tab' == tab[Locs(h, e)[k] := e];
      assert tab'[Locs(h, e)[k]] == e;
    }
  }

  lemma Overflowed<E(!new)>(h: Hashing<E>, dead: seq<bool>, tab: seq<E>, e: E, chain: seq<E>, path: seq<nat>, limit: nat, tab': seq<E>, hand: E, epoch: bool)
    requires KickRun(h, dead, tab, e, chain, path) && |path| == limit && limit > 0 && hand == chain[|path|] && tab' == Kicked(tab, chain[..|path|], path)
    ensures Settles(h, dead, tab, e, chain, path, limit, tab', multiset{(hand, epoch)}) && NoFree(h, dead, e)
  {
    hide Locs, NoFree;
    assert KickOk(h, dead, tab, chain, path, 0);
  }

  /** The integer part of the binary logarithm. */
  function Log2(n: nat): nat
    requires n > 0
  {
    if n == 1 then 0 else 1 + Log2(n / 2)
  }

  /** The first position of x, or the length. */
  function IndexIn(s: seq<nat>, x: int): (i: nat)
    ensures i <= |s|
  {
    if s == [] || s[0] == x then 0 else 1 + IndexIn(s[1..], x)
  }

  lemma {:induction false} Log2Means(n: nat)
    requires n > 0
    ensures Pow(2, Log2(n)) <= n < Pow(2, Log2(n) + 1) && (n > 1 ==> Log2(n) > 0)
  {
    if n > 1 { Log2Means(n / 2); }
  }
}
