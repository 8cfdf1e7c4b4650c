// Chunking of linearizations, prefix intersection, and merging of two linearizations.
module Chunkings {
  import opened Sets
  import opened FeeFracs
  import opened Diagrams
  import opened DepGraphs
  import opened GraphQueries

  /** A set of transactions with its combined fee and size. */
  datatype SetInfo = SetInfo(transactions: set<nat>, feerate: FeeFrac)

  ghost predicate IsInfo(f: seq<FeeFrac>, s: SetInfo) {
    s.feerate == SetRate(f, s.transactions)
  }

  ghost function ChunkInfo(f: seq<FeeFrac>, c: seq<nat>): SetInfo {
    SetInfo(Elems(c), SeqRate(f, c))
  }

  // ---------------------------------------------------------------- building chunks

  /** A chunking in progress: chunks cs, then the chunk cur that may still absorb the last of them. */
  ghost predicate Building(f: seq<FeeFrac>, l: seq<nat>, cs: seq<seq<nat>>, cur: seq<nat>) {
    && IsChunking(f, Flatten(cs), cs) && Tight(f, cur) && Flatten(cs) + cur == l
  }

  lemma StartChunk(f: seq<FeeFrac>, l: seq<nat>, cs: seq<seq<nat>>, x: nat)
    requires IsChunking(f, l, cs)
    ensures Building(f, l + [x], cs, [x])
    ensures SeqRate(f, [x]) == TxRate(f, x)
  {
    assert [x][1..] == [];
  }

  lemma InitChunks(f: seq<FeeFrac>, l: seq<nat>, cs: seq<seq<nat>>)
    requires IsChunking(f, l, cs) && cs != []
    ensures IsChunking(f, Flatten(cs[..|cs| - 1]), cs[..|cs| - 1])
    ensures Flatten(cs) == Flatten(cs[..|cs| - 1]) + cs[|cs| - 1]
    ensures Tight(f, cs[|cs| - 1])
  {
    hide Gain, SeqRate, Tight, Flatten;
    var n := |cs| - 1;
    FlattenInit(cs);
    forall i | 0 <= i < |cs[..n]| - 1
      ensures Gain(SeqRate(f, cs[..n][i + 1]), SeqRate(f, cs[..n][i])) <= 0
    {
      assert Gain(SeqRate(f, cs[i + 1]), SeqRate(f, cs[i])) <= 0;
    }
  }

  lemma FlattenInit(cs: seq<seq<nat>>)
    requires cs != []
    ensures Flatten(cs) == Flatten(cs[..|cs| - 1]) + cs[|cs| - 1]
  {
    hide Flatten;
    var n := |cs| - 1;
    assert cs == cs[..n] + [cs[n]];
    FlattenConcat(cs[..n], [cs[n]]);
    FlattenOne(cs[n]);
  }

  lemma FlattenOne(c: seq<nat>)
    ensures Flatten([c]) == c
  {
    assert Flatten([c][1..]) == [];
  }

  /** While the new chunk has a higher feerate than the last one, it absorbs it. */
  lemma AbsorbChunk(f: seq<FeeFrac>, l: seq<nat>, cs: seq<seq<nat>>, cur: seq<nat>)
    requires Building(f, l, cs, cur) && Positive(f, Elems(l)) && cs != []
    requires Gain(SeqRate(f, cur), SeqRate(f, cs[|cs| - 1])) > 0
    ensures Building(f, l, cs[..|cs| - 1], cs[|cs| - 1] + cur)
    ensures SeqRate(f, cs[|cs| - 1] + cur) == SeqRate(f, cs[|cs| - 1]).Plus(SeqRate(f, cur))
    ensures Elems(cs[|cs| - 1] + cur) == Elems(cs[|cs| - 1]) + Elems(cur)
  {
    hide Gain, SeqRate, Tight, IsChunking, Elems;
    var last := cs[|cs| - 1];
    InitChunks(f, Flatten(cs), cs);
    var init := Flatten(cs[..|cs| - 1]);
    Assoc(init, last, cur);
    ElemsConcat(last, cur);
    ElemsConcat(init, last + cur);
    assert Positive(f, Elems(last + cur));
    TightMerge(f, last, cur);
    SeqRateConcat(f, last, cur);
  }

  lemma PushChunk(f: seq<FeeFrac>, l: seq<nat>, cs: seq<seq<nat>>, cur: seq<nat>)
    requires Building(f, l, cs, cur)
    requires cs != [] ==> Gain(SeqRate(f, cur), SeqRate(f, cs[|cs| - 1])) <= 0
    ensures IsChunking(f, l, cs + [cur])
  {
    hide Gain, SeqRate;
    var ds := cs + [cur];
    FlattenConcat(cs, [cur]);
    FlattenOne(cur);
    forall i | 0 <= i < |ds| - 1 ensures Gain(SeqRate(f, ds[i + 1]), SeqRate(f, ds[i])) <= 0 {
      if i < |cs| - 1 { assert Gain(SeqRate(f, cs[i + 1]), SeqRate(f, cs[i])) <= 0; }
    }
  }

  /** Computes the feerates of the chunks of a linearization. */
  method ChunkLinearization(g: Graph, l: seq<nat>) returns (ret: seq<FeeFrac>)
    requires Positive(g.Rates(), Elems(l))
    ensures exists cs :: IsChunking(g.Rates(), l, cs) && ret == ChunkRates(g.Rates(), cs)
  {
    hide Gain, SeqRate, IsChunking, Building;
    var f := g.Rates();
    ghost var cs: seq<seq<nat>> := [];
    ret := [];
    NoChunks(f);
    for i := 0 to |l|
      invariant IsChunking(f, l[..i], cs) && ret == ChunkRates(f, cs)
    {
      assert l[..i + 1] == l[..i] + [l[i]];
      assert Elems(l[..i + 1]) <= Elems(l);
      StartChunk(f, l[..i], cs, l[i]);
      var newChunk := TxRate(f, l[i]);
      ghost var cur := [l[i]];
      while ret != [] && newChunk.Higher(ret[|ret| - 1])
        invariant ret == ChunkRates(f, cs) && newChunk == SeqRate(f, cur)
        invariant Building(f, l[..i + 1], cs, cur)
        decreases |ret|
      {
        BetterNotLower(newChunk, ret[|ret| - 1]);
        AbsorbChunk(f, l[..i + 1], cs, cur);
        newChunk := ret[|ret| - 1].Plus(newChunk);
        ret := ret[..|ret| - 1];
        cur, cs := cs[|cs| - 1] + cur, cs[..|cs| - 1];
      }
      if ret != [] { BetterNotLower(newChunk, ret[|ret| - 1]); }
      PushChunk(f, l[..i + 1], cs, cur);
      ret := ret + [newChunk];
      cs := cs + [cur];
    }
    assert l[..|l|] == l;
  }

  lemma NoChunks(f: seq<FeeFrac>)
    ensures IsChunking(f, [], []) && ChunkRates(f, []) == []
  {}

  // ---------------------------------------------------------------- chunkings that shrink

  class LinearizationChunking {
    const g: Graph
    /** The linearization started from, possibly with a removed prefix stripped. */
    var linearization: seq<nat>
    var chunks: seq<SetInfo>
    /** How large a prefix of chunks corresponds to removed transactions. */
    var chunksSkip: nat
    var todo: set<nat>
    /** The linearization given at construction. */
    ghost const orig: seq<nat>
    /** The transaction order inside each remaining chunk. */
    ghost var parts: seq<seq<nat>>

    ghost function Remaining(): seq<nat>
      reads this
    {
      Keep(orig, todo)
    }

    ghost predicate Base()
      reads this
    {
      && Distinct(orig) && Distinct(linearization) && todo <= Elems(orig) && Positive(g.Rates(), Elems(orig))
      && Keep(linearization, todo) == Remaining()
    }

    /** The chunks not skipped are the chunking of what remains. */
    ghost predicate Valid()
      reads this
    {
      && Base()
      && IsChunking(g.Rates(), Remaining(), parts)
      && chunksSkip + |parts| == |chunks|
      && forall i :: 0 <= i < |parts| ==> chunks[chunksSkip + i] == ChunkInfo(g.Rates(), parts[i])
    }

    constructor (g: Graph, lin: seq<nat>)
      requires Distinct(lin) && Positive(g.Rates(), Elems(lin))
      ensures Valid() && this.g == g && orig == lin && todo == Elems(lin) && Remaining() == lin
    {
      this.g, orig, linearization := g, lin, lin;
      chunks, chunksSkip, parts := [], 0, [];
      todo := set x | x in lin;
      new;
      KeepAll(lin, todo);
      BuildChunks();
    }

    /** Fills chunks from the remaining linearization. */
    method BuildChunks()
      requires Base() && chunks == [] && chunksSkip == 0
      modifies this
      ensures Valid() && todo == old(todo)
    {
      hide Keep, Gain, SeqRate, IsChunking, Building, Distinct, Elems;
      var lin, left := linearization, todo;
      ghost var f, start := g.Rates(), orig;
      while lin != [] && lin[0] !in left
        invariant Keep(lin, left) == Keep(linearization, left) && Distinct(lin)
        modifies {}
        decreases |lin|
      {
        DropDone(lin, left);
        lin := lin[1..];
      }
      var cks: seq<SetInfo> := [];
      ghost var cs: seq<seq<nat>> := [];
      NoChunks(f);
      assert Keep(lin[..0], left) == [] by { KeepEmpty(lin, left); }
      for i := 0 to |lin|
        invariant |cks| == |cs| && IsChunking(f, Keep(lin[..i], left), cs)
        invariant forall k :: 0 <= k < |cs| ==> cks[k] == ChunkInfo(f, cs[k])
        modifies {}
      {
        KeepStep(lin, i, left);
        if lin[i] in left {
          KeepPositive(f, lin, i + 1, left, start);
          cks, cs := AddTx(g, lin[i], cks, Keep(lin[..i], left), cs);
        } else {
          assert Keep(lin[..i], left) + [] == Keep(lin[..i], left);
        }
      }
      assert lin[..|lin|] == lin;
      linearization, chunks, parts := lin, cks, cs;
    }

    method NumChunksLeft() returns (n: nat)
      requires Valid()
      ensures n == |parts| && (n == 0 <==> todo == {})
    {
      n := |chunks| - chunksSkip;
      EmptyChunking(g.Rates(), Remaining(), parts);
      KeepProps(orig, todo);
      assert todo == Elems(orig) * todo;
      if todo == {} { KeepNone(orig, todo); }
    }

    method GetChunk(n: nat) returns (c: SetInfo)
      requires Valid() && n < |parts|
      ensures c == ChunkInfo(g.Rates(), parts[n])
    {
      c := chunks[n + chunksSkip];
    }

    /**
     * Removes a set of transactions. When it is exactly the first chunk the chunks are not rebuilt,
     * yet Valid still says that they are the chunking of what remains.
     */
    method MarkDone(subset: set<nat>)
      requires Valid() && subset != {} && subset <= todo
      modifies this
      ensures Valid() && todo == old(todo) - subset
    {
      hide Keep, Gain, SeqRate, IsChunking, Distinct, Elems, Positive;
      ghost var before := todo;
      SomethingLeft(g.Rates(), orig, todo, parts, subset);
      todo := todo - subset;
      StillRemaining(linearization, orig, before, todo);
      if chunks[chunksSkip].transactions == subset {
        ChunkSize(g.Rates(), orig, before, parts);
        SkipFirstChunk(g.Rates(), linearization, orig, before, parts, todo);
        chunksSkip := chunksSkip + 1;
        linearization := linearization[|subset|..];
        parts := parts[1..];
      } else {
        chunks, chunksSkip, parts := [], 0, [];
        BuildChunks();
      }
    }

    /**
     * The shortest intersection of subset with a prefix of the remaining chunks whose feerate is not
     * below that of subset, or subset itself.
     */
    method IntersectPrefixes(subset: SetInfo) returns (res: SetInfo)
      requires Valid() && subset.transactions <= todo && IsInfo(g.Rates(), subset)
      ensures IsInfo(g.Rates(), res)
      ensures exists j: nat :: j <= |parts| && res.transactions == subset.transactions * Elems(Flatten(parts[..j]))
      ensures subset.transactions != {} ==> res.transactions != {}
      ensures Gain(res.feerate, subset.feerate) >= 0
      ensures NoPrefixBetter(g.Rates(), parts, res.transactions)
    {
      hide Gain, SetRate, Keep, Elems, Flatten, NoPrefixBetter, IsChunking;
      ghost var f := g.Rates();
      var acc := SetInfo({}, EMPTY);
      StartIntersect(f, parts, subset.transactions);
      PositiveTodo();
      for i := 0 to |chunks| - chunksSkip
        invariant acc.transactions == subset.transactions * Elems(Flatten(parts[..i]))
        invariant IsInfo(f, acc)
        invariant forall j: nat :: j <= i ==> Gain(SetRate(f, subset.transactions * Elems(Flatten(parts[..j]))), subset.feerate) <= 0
      {
        var toAdd := chunks[chunksSkip + i].transactions * subset.transactions;
        NextIntersect(f, parts, subset.transactions, i);
        if toAdd != {} {
          DisjointChunk(f, orig, todo, parts, i);
          ghost var accRate := acc.feerate;
          acc := acc.(transactions := acc.transactions + toAdd);
          if acc.transactions == subset.transactions {
            WholeIntersect(f, parts, subset.transactions, i);
            return subset;
          }
          acc := acc.(feerate := acc.feerate.Plus(SetRate(g.Rates(), toAdd)));
          SetRateUnion(f, subset.transactions * Elems(Flatten(parts[..i])), toAdd);
          BetterNotLower(acc.feerate, subset.feerate);
          if !acc.feerate.Lower(subset.feerate) {
            ShortIntersect(f, parts, subset.transactions, i + 1);
            return acc;
          }
        }
      }
      NoIntersect(f, orig, todo, parts, subset.transactions);
      return subset;
    }

    lemma PositiveTodo()
      requires Valid()
      ensures Positive(g.Rates(), todo)
    {}
  }

  /** No intersection of s with a prefix of the chunks has a higher feerate than s. */
  ghost predicate NoPrefixBetter(f: seq<FeeFrac>, cs: seq<seq<nat>>, s: set<nat>) {
    forall j: nat :: j <= |cs| ==> Gain(SetRate(f, s * Elems(Flatten(cs[..j]))), SetRate(f, s)) <= 0
  }

  // ---------------------------------------------------------------- proofs about the shrinking chunking

  lemma DropDone(l: seq<nat>, todo: set<nat>)
    requires l != [] && l[0] !in todo && Distinct(l)
    ensures Keep(l, todo) == Keep(l[1..], todo) && Distinct(l[1..])
  {}

  lemma KeepEmpty(l: seq<nat>, todo: set<nat>)
    ensures Keep(l[..0], todo) == []
  {}

  lemma KeepStep(l: seq<nat>, i: nat, todo: set<nat>)
    requires i < |l|
    ensures Keep(l[..i + 1], todo) == Keep(l[..i], todo) + if l[i] in todo then [l[i]] else []
  {
    assert l[..i + 1] == l[..i] + [l[i]];
    KeepConcat(l[..i], [l[i]], todo);
    assert Keep([l[i]][1..], todo) == [];
  }

  lemma KeepPositive(f: seq<FeeFrac>, l: seq<nat>, i: nat, todo: set<nat>, orig: seq<nat>)
    requires i <= |l| && Distinct(l) && todo <= Elems(orig) && Positive(f, Elems(orig))
    ensures Positive(f, Elems(Keep(l[..i], todo))) && Distinct(Keep(l[..i], todo))
  {
    KeepProps(l[..i], todo);
  }

  /** One round of the chunking loop: transaction x joins the chunks, absorbing those it improves. */
  method AddTx(g: Graph, x: nat, cks: seq<SetInfo>, ghost l: seq<nat>, ghost cs: seq<seq<nat>>)
    returns (cks': seq<SetInfo>, ghost cs': seq<seq<nat>>)
    requires |cks| == |cs| && IsChunking(g.Rates(), l, cs) && Positive(g.Rates(), Elems(l + [x]))
    requires forall k :: 0 <= k < |cs| ==> cks[k] == ChunkInfo(g.Rates(), cs[k])
    ensures |cks'| == |cs'| && IsChunking(g.Rates(), l + [x], cs')
    ensures forall k :: 0 <= k < |cs'| ==> cks'[k] == ChunkInfo(g.Rates(), cs'[k])
  {
    hide Gain, SeqRate, IsChunking, Building, Elems;
    ghost var f := g.Rates();
    cks', cs' := cks, cs;
    StartChunk(f, l, cs', x);
    var add := SetInfo({x}, TxRate(g.Rates(), x));
    ghost var cur := [x];
    assert Elems(cur) == {x} by { ElemsOne(x); }
    while cks' != [] && add.feerate.Higher(cks'[|cks'| - 1].feerate)
      invariant |cks'| == |cs'| && Building(f, l + [x], cs', cur) && add == ChunkInfo(f, cur)
      invariant forall k :: 0 <= k < |cs'| ==> cks'[k] == ChunkInfo(f, cs'[k])
      decreases |cks'|
    {
      var back := cks'[|cks'| - 1];
      BetterNotLower(add.feerate, back.feerate);
      AbsorbChunk(f, l + [x], cs', cur);
      add := SetInfo(add.transactions + back.transactions, add.feerate.Plus(back.feerate));
      cks' := cks'[..|cks'| - 1];
      cur, cs' := cs'[|cs'| - 1] + cur, cs'[..|cs'| - 1];
    }
    if cks' != [] { BetterNotLower(add.feerate, cks'[|cks'| - 1].feerate); }
    PushChunk(f, l + [x], cs', cur);
    cks' := cks' + [add];
    cs' := cs' + [cur];
  }

  lemma ElemsOne(x: nat)
    ensures Elems([x]) == {x}
  {}

  lemma SomethingLeft(f: seq<FeeFrac>, orig: seq<nat>, todo: set<nat>, cs: seq<seq<nat>>, s: set<nat>)
    requires IsChunking(f, Keep(orig, todo), cs) && s != {} && s <= todo <= Elems(orig)
    ensures cs != []
  {
    KeepProps(orig, todo);
    EmptyChunking(f, Keep(orig, todo), cs);
    var x :| x in s;
    assert x in Elems(Keep(orig, todo));
  }

  lemma StillRemaining(l: seq<nat>, orig: seq<nat>, todo: set<nat>, todo': set<nat>)
    requires Keep(l, todo) == Keep(orig, todo) && todo' <= todo
    ensures Keep(l, todo') == Keep(orig, todo')
  {
    KeepKeep(l, todo, todo');
    KeepKeep(orig, todo, todo');
    assert todo * todo' == todo';
  }

  lemma ChunkSize(f: seq<FeeFrac>, orig: seq<nat>, todo: set<nat>, cs: seq<seq<nat>>)
    requires IsChunking(f, Keep(orig, todo), cs) && Distinct(orig) && cs != []
    ensures |Elems(cs[0])| == |cs[0]| && Distinct(cs[0])
  {
    KeepProps(orig, todo);
    assert Keep(orig, todo) == cs[0] + Flatten(cs[1..]);
    assert cs[0] == Keep(orig, todo)[..|cs[0]|];
    DistinctSize(cs[0]);
  }

  /** Removing exactly the first chunk leaves the other chunks, and nothing of todo before them in l. */
  lemma SkipFirstChunk(f: seq<FeeFrac>, l: seq<nat>, orig: seq<nat>, todo: set<nat>, cs: seq<seq<nat>>, todo': set<nat>)
    requires Distinct(orig) && Distinct(l) && Positive(f, Elems(orig)) && todo <= Elems(orig)
    requires Keep(l, todo) == Keep(orig, todo) && IsChunking(f, Keep(orig, todo), cs) && cs != []
    requires todo' == todo - Elems(cs[0])
    ensures |cs[0]| <= |l| && Distinct(l[|cs[0]|..])
    ensures Keep(l[|cs[0]|..], todo') == Keep(orig, todo')
    ensures IsChunking(f, Keep(orig, todo'), cs[1..])
  {
    hide Gain, SeqRate, Tight;
    var c := cs[0];
    var all := Keep(orig, todo);
    KeepProps(orig, todo);
    assert Positive(f, Elems(all));
    TailChunking(f, all, cs);
    var rest := all[|c|..];
    RestOfDistinct(all, c, rest);
    KeepKeep(orig, todo, todo');
    assert todo * todo' == todo';
    KeepConcat(c, rest, todo');
    KeepNone(c, todo');
    ElemsConcat(c, rest);
    assert Elems(rest) <= todo';
    KeepAll(rest, todo');
    assert Keep(orig, todo') == rest;
    KeepProps(l, todo);
    NothingBefore(l, todo, c, todo');
    KeepKeep(l, todo, todo');
  }

  lemma RestOfDistinct(all: seq<nat>, c: seq<nat>, rest: seq<nat>)
    requires Distinct(all) && all == c + rest
    ensures Elems(c) !! Elems(rest)
  {
    forall i, j | 0 <= i < |c| && 0 <= j < |rest| ensures c[i] != rest[j] {
      assert all[i] != all[|c| + j];
    }
  }

  lemma NothingBefore(l: seq<nat>, todo: set<nat>, c: seq<nat>, todo': set<nat>)
    requires |c| <= |l| && c <= Keep(l, todo) && todo' == todo - Elems(c)
    ensures Keep(l[|c|..], todo') == Keep(l, todo')
  {
    var n := |c|;
    assert l == l[..n] + l[n..];
    KeepConcat(l[..n], l[n..], todo);
    KeepConcat(l[..n], l[n..], todo');
    var k := Keep(l[..n], todo);
    KeepProps(l[..n], todo);
    assert |k| <= n;
    assert k == c[..|k|];
    assert Elems(k) <= Elems(c);
    KeepKeep(l[..n], todo, todo');
    assert todo * todo' == todo';
    KeepNone(k, todo');
  }

  // ---------------------------------------------------------------- proofs about prefix intersection

  lemma StartIntersect(f: seq<FeeFrac>, cs: seq<seq<nat>>, s: set<nat>)
    ensures s * Elems(Flatten(cs[..0])) == {} && SetRate(f, {}) == EMPTY
    ensures Gain(SetRate(f, s * Elems(Flatten(cs[..0]))), SetRate(f, s)) <= 0
  {
    SetRateSingleton(f, 0);
    GainSelf(SetRate(f, s));
  }

  lemma NextIntersect(f: seq<FeeFrac>, cs: seq<seq<nat>>, s: set<nat>, i: nat)
    requires i < |cs|
    ensures s * Elems(Flatten(cs[..i + 1])) == s * Elems(Flatten(cs[..i])) + Elems(cs[i]) * s
  {
    assert cs[..i + 1] == cs[..i] + [cs[i]];
    FlattenConcat(cs[..i], [cs[i]]);
    FlattenOne(cs[i]);
    ElemsConcat(Flatten(cs[..i]), cs[i]);
  }

  lemma DisjointChunk(f: seq<FeeFrac>, orig: seq<nat>, todo: set<nat>, cs: seq<seq<nat>>, i: nat)
    requires IsChunking(f, Keep(orig, todo), cs) && Distinct(orig) && i < |cs|
    ensures Elems(Flatten(cs[..i])) !! Elems(cs[i])
  {
    KeepProps(orig, todo);
    var all := Keep(orig, todo);
    assert cs == cs[..i] + ([cs[i]] + cs[i + 1..]);
    FlattenConcat(cs[..i], [cs[i]] + cs[i + 1..]);
    FlattenConcat([cs[i]], cs[i + 1..]);
    FlattenOne(cs[i]);
    var rest := cs[i] + Flatten(cs[i + 1..]);
    RestOfDistinct(all, Flatten(cs[..i]), rest);
    ElemsConcat(cs[i], Flatten(cs[i + 1..]));
  }

  lemma FlattenMono(cs: seq<seq<nat>>, i: nat, j: nat)
    requires i <= j <= |cs|
    ensures Elems(Flatten(cs[..i])) <= Elems(Flatten(cs[..j]))
  {
    assert cs[..j] == cs[..i] + cs[i..j];
    FlattenConcat(cs[..i], cs[i..j]);
    ElemsConcat(Flatten(cs[..i]), Flatten(cs[i..j]));
  }

  /** All of s lies in the first i + 1 chunks and no earlier intersection beats it. */
  lemma WholeIntersect(f: seq<FeeFrac>, cs: seq<seq<nat>>, s: set<nat>, i: nat)
    requires i < |cs| && s == s * Elems(Flatten(cs[..i + 1]))
    requires forall j: nat :: j <= i ==> Gain(SetRate(f, s * Elems(Flatten(cs[..j]))), SetRate(f, s)) <= 0
    ensures NoPrefixBetter(f, cs, s)
    ensures exists j: nat :: j <= |cs| && s == s * Elems(Flatten(cs[..j]))
    ensures Gain(SetRate(f, s), SetRate(f, s)) >= 0
  {
    hide Gain;
    GainSelf(SetRate(f, s));
    forall j: nat | j <= |cs| ensures Gain(SetRate(f, s * Elems(Flatten(cs[..j]))), SetRate(f, s)) <= 0 {
      if j > i {
        FlattenMono(cs, i + 1, j);
        assert s * Elems(Flatten(cs[..j])) == s;
      }
    }
  }

  /** The intersection with the first i chunks is at least as good as s, and none before it is. */
  lemma ShortIntersect(f: seq<FeeFrac>, cs: seq<seq<nat>>, s: set<nat>, i: nat)
    requires 0 < i <= |cs| && Positive(f, s) && s * Elems(Flatten(cs[..i])) != {}
    requires forall j: nat :: j < i ==> Gain(SetRate(f, s * Elems(Flatten(cs[..j]))), SetRate(f, s)) <= 0
    requires Gain(SetRate(f, s * Elems(Flatten(cs[..i]))), SetRate(f, s)) >= 0
    ensures NoPrefixBetter(f, cs, s * Elems(Flatten(cs[..i])))
  {
    hide Gain;
    var t := s * Elems(Flatten(cs[..i]));
    forall j: nat | j <= |cs| ensures Gain(SetRate(f, t * Elems(Flatten(cs[..j]))), SetRate(f, t)) <= 0 {
      if j >= i {
        FlattenMono(cs, i, j);
        assert t * Elems(Flatten(cs[..j])) == t;
        GainSelf(SetRate(f, t));
      } else {
        FlattenMono(cs, j, i);
        var u := s * Elems(Flatten(cs[..j]));
        assert t * Elems(Flatten(cs[..j])) == u;
        SmallerNotBetter(f, s, t, u);
      }
    }
  }

  lemma SmallerNotBetter(f: seq<FeeFrac>, s: set<nat>, t: set<nat>, u: set<nat>)
    requires Positive(f, s) && t <= s && u <= s && t != {}
    requires Gain(SetRate(f, u), SetRate(f, s)) <= 0 && Gain(SetRate(f, t), SetRate(f, s)) >= 0
    ensures Gain(SetRate(f, u), SetRate(f, t)) <= 0
  {
    hide Gain;
    var S, T, U := SetRate(f, s), SetRate(f, t), SetRate(f, u);
    SetRatePositive(f, s);
    SetRatePositive(f, t);
    SetRatePositive(f, u);
    if u == {} {
      SetRateSingleton(f, 0);
      GainSelf(T);
    } else {
      GainSwap(S, U);
      GainTransitive(T, S, U);
      GainSwap(T, U);
    }
  }

  /** After all chunks the whole of s has been covered. */
  lemma NoIntersect(f: seq<FeeFrac>, orig: seq<nat>, todo: set<nat>, cs: seq<seq<nat>>, s: set<nat>)
    requires IsChunking(f, Keep(orig, todo), cs) && s <= todo <= Elems(orig)
    requires forall j: nat :: j <= |cs| ==> Gain(SetRate(f, s * Elems(Flatten(cs[..j]))), SetRate(f, s)) <= 0
    ensures NoPrefixBetter(f, cs, s)
    ensures exists j: nat :: j <= |cs| && s == s * Elems(Flatten(cs[..j]))
    ensures Gain(SetRate(f, s), SetRate(f, s)) >= 0
  {
    GainSelf(SetRate(f, s));
    KeepProps(orig, todo);
    assert cs[..|cs|] == cs;
    assert s == s * Elems(Flatten(cs[..|cs|]));
  }
}
