// Building a linearization set by set, and MergeLinearizations.
module Merging {
  import opened Sets
  import opened FeeFracs
  import opened Diagrams
  import opened DepGraphs
  import opened GraphQueries
  import opened Chunkings

  /** ret lists, in topological order, everything outside todo, and nothing in ret depends on todo. */
  ghost predicate Partial(g: Graph, ret: seq<nat>, todo: set<nat>) {
    && todo <= g.used && Elems(ret) == g.used - todo && Distinct(ret) && TopoOrder(g, ret)
    && TopoSubset(g, g.used, Elems(ret))
  }

  lemma PartialStart(g: Graph)
    ensures Partial(g, [], g.used)
  {}

  lemma PartialStep(g: Graph, ret: seq<nat>, todo: set<nat>, s: set<nat>, t: seq<nat>)
    requires WellFormed(g) && Partial(g, ret, todo) && TopoSubset(g, todo, s)
    requires Elems(t) == s && Distinct(t) && TopoOrder(g, t)
    ensures Partial(g, ret + t, todo - s)
  {
    ElemsConcat(ret, t);
    assert Elems(ret + t) == g.used - (todo - s);
    forall x, y | x in ret && y in t ensures y !in g.Anc(x) {
      assert x in Elems(ret) && y in Elems(t);
    }
    TopoConcat(g, ret, t);
    DistinctConcat(ret, t);
    forall x, a | x in Elems(ret + t) && a in g.Anc(x) && a in g.used ensures a in Elems(ret + t) {
      if x in Elems(ret) { assert a in Elems(ret); } else { assert a in s || a in Elems(ret); }
    }
  }

  lemma DistinctConcat(a: seq<nat>, b: seq<nat>)
    requires Distinct(a) && Distinct(b) && Elems(a) !! Elems(b)
    ensures Distinct(a + b)
  {
    forall i, j | 0 <= i < j < |a + b| ensures (a + b)[i] != (a + b)[j] {
      if i < |a| && j >= |a| { assert a[i] in Elems(a) && b[j - |a|] in Elems(b); }
    }
  }

  lemma PartialDone(g: Graph, ret: seq<nat>)
    requires Partial(g, ret, {})
    ensures Linearization(g, ret)
  {}

  /** The output so far, followed by what remains of lin in its old order, is nowhere worse than lin. */
  ghost predicate Tracks(f: seq<FeeFrac>, lin: seq<nat>, ret: seq<nat>, todo: set<nat>) {
    NoWorse(f, ret + Keep(lin, todo), lin)
  }

  lemma TracksStart(f: seq<FeeFrac>, lin: seq<nat>, todo: set<nat>)
    requires Elems(lin) == todo
    ensures Tracks(f, lin, [], todo)
  {
    KeepAll(lin, todo);
    assert [] + lin == lin;
  }

  lemma TracksDone(f: seq<FeeFrac>, lin: seq<nat>, ret: seq<nat>)
    requires Tracks(f, lin, ret, {})
    ensures NoWorse(f, ret, lin)
  {
    KeepNone(lin, {});
    assert ret + [] == ret;
  }

  /** Appending a set that may be moved to the front keeps the output nowhere worse. */
  lemma TracksStep(f: seq<FeeFrac>, lin: seq<nat>, ret: seq<nat>, todo: set<nat>, cs: seq<seq<nat>>, s: set<nat>, t: seq<nat>)
    requires Tracks(f, lin, ret, todo) && Distinct(lin) && todo <= Elems(lin) && Positive(f, Elems(lin))
    requires IsChunking(f, Keep(lin, todo), cs) && Movable(f, cs, s)
    requires s != {} && s <= todo && Elems(t) == s && Distinct(t)
    ensures Tracks(f, lin, ret + t, todo - s)
  {
    hide NoWorse, IsChunking, Movable;
    var l := Keep(lin, todo);
    KeepProps(lin, todo);
    assert Elems(l) == todo;
    MoveToFront(f, l, cs, s, t);
    var l' := Keep(l, Elems(l) - s);
    KeepKeep(lin, todo, todo - s);
    assert todo * (todo - s) == todo - s;
    assert l' == Keep(lin, todo - s);
    NoWorseAfter(f, ret, t + l', l);
    NoWorseTrans(f, ret + (t + l'), ret + l, lin);
    Assoc(ret, t, l');
  }

  lemma {:induction false} KeepTopo(g: Graph, l: seq<nat>, s: set<nat>)
    requires TopoOrder(g, l)
    ensures TopoOrder(g, Keep(l, s))
  {
    if l != [] {
      assert TopoOrder(g, l[1..]);
      KeepTopo(g, l[1..], s);
      var k := Keep(l[1..], s);
      KeepProps(l[1..], s);
      if l[0] in s {
        forall x, y | x in [l[0]] && y in k ensures y !in g.Anc(x) {
          assert y in Elems(k);
          var j :| 0 <= j < |l[1..]| && l[1..][j] == y;
          assert l[j + 1] !in g.Anc(l[0]);
        }
        TopoConcat(g, [l[0]], k);
      }
    }
  }

  /** A prefix of the chunks of a topological order is a topologically valid set. */
  lemma ChunkPrefixTopo(g: Graph, lin: seq<nat>, todo: set<nat>, cs: seq<seq<nat>>, j: nat)
    requires TopoOrder(g, lin) && todo <= Elems(lin) && j <= |cs| && Flatten(cs) == Keep(lin, todo)
    ensures TopoSubset(g, todo, Elems(Flatten(cs[..j])))
  {
    var l := Keep(lin, todo);
    KeepTopo(g, lin, todo);
    KeepProps(lin, todo);
    assert Elems(l) == todo;
    assert cs == cs[..j] + cs[j..];
    FlattenConcat(cs[..j], cs[j..]);
    var p := Flatten(cs[..j]);
    assert l[..|p|] == p;
    PrefixTopo(g, l, |p|);
  }

  /** A subset of the first chunk that is at least as good as it may be moved to the front. */
  lemma PartOfFirstChunk(f: seq<FeeFrac>, cs: seq<seq<nat>>, s: set<nat>)
    requires cs != [] && s <= Elems(cs[0]) && Gain(SetRate(f, s), SeqRate(f, cs[0])) >= 0
    ensures Movable(f, cs, s)
  {
    hide Gain, SetRate;
    forall j: nat | j <= |cs| ensures Gain(SetRate(f, s * Elems(Flatten(cs[..j]))), SetRate(f, s)) <= 0 {
      GainSelf(SetRate(f, s));
      if j == 0 {
        StartIntersect(f, cs, s);
      } else {
        FlattenMono(cs, 1, j);
        assert cs[..1] == [cs[0]];
        FlattenOne(cs[0]);
        assert s * Elems(Flatten(cs[..j])) == s;
      }
    }
  }

  lemma IntersectionMovable(f: seq<FeeFrac>, cs: seq<seq<nat>>, s: set<nat>, better: FeeFrac)
    requires cs != [] && SetRate(f, s).size > 0 && better.size > 0 && SeqRate(f, cs[0]).size > 0
    requires NoPrefixBetter(f, cs, s) && Gain(SetRate(f, s), better) >= 0 && Gain(better, SeqRate(f, cs[0])) >= 0
    ensures Movable(f, cs, s)
  {
    hide Gain, SetRate;
    GainTransitive(SetRate(f, s), better, SeqRate(f, cs[0]));
  }

  /**
   * One round of merging: of the two first chunks take the one with the higher feerate, intersected
   * with the chunks of the other linearization. Other is the chunking it is intersected with.
   */
  lemma MergeRound(g: Graph, own: seq<nat>, other: seq<nat>, todo: set<nat>, cs: seq<seq<nat>>, ds: seq<seq<nat>>, s: set<nat>, j: nat)
    requires Cluster(g) && Linearization(g, own) && Linearization(g, other) && todo <= g.used && todo != {}
    requires IsChunking(g.Rates(), Keep(own, todo), cs) && IsChunking(g.Rates(), Keep(other, todo), ds)
    requires cs != [] && ds != [] && j <= |ds|
    requires s == Elems(cs[0]) * Elems(Flatten(ds[..j])) && s != {}
    requires NoPrefixBetter(g.Rates(), ds, s) && Gain(SetRate(g.Rates(), s), SeqRate(g.Rates(), cs[0])) >= 0
    requires Gain(SeqRate(g.Rates(), cs[0]), SeqRate(g.Rates(), ds[0])) >= 0
    ensures TopoSubset(g, todo, s)
    ensures Movable(g.Rates(), cs, s) && Movable(g.Rates(), ds, s)
  {
    hide Gain, SetRate, NoPrefixBetter, Movable, TopoOrder, WellFormed, Acyclic;
    var f := g.Rates();
    KeepProps(own, todo);
    KeepProps(other, todo);
    ChunkPrefixTopo(g, own, todo, cs, 1);
    ChunkPrefixTopo(g, other, todo, ds, j);
    assert cs[..1] == [cs[0]];
    FlattenOne(cs[0]);
    TopoUnion(g, todo, Elems(cs[0]), Elems(Flatten(ds[..j])));
    PartOfFirstChunk(f, cs, s);
    TailChunking(f, Keep(own, todo), cs);
    TailChunking(f, Keep(other, todo), ds);
    SetRatePositive(f, s);
    IntersectionMovable(f, ds, s, SeqRate(f, cs[0]));
  }

  /** Merges two linearizations into one that is nowhere worse than either. */
  method MergeLinearizations(g: Graph, lin1: seq<nat>, lin2: seq<nat>) returns (ret: seq<nat>)
    requires Cluster(g) && Linearization(g, lin1) && Linearization(g, lin2)
    ensures Linearization(g, ret)
    ensures NoWorse(g.Rates(), ret, lin1) && NoWorse(g.Rates(), ret, lin2)
  {
    hide Gain, SetRate, NoPrefixBetter, Movable, TopoOrder, WellFormed, Acyclic, Keep, Tracks, Partial, IsChunking, NoWorse, SeqRate, Flatten;
    ghost var f := g.Rates();
    var chunking1 := new LinearizationChunking(g, lin1);
    var chunking2 := new LinearizationChunking(g, lin2);
    ret := [];
    PartialStart(g);
    TracksStart(f, lin1, g.used);
    TracksStart(f, lin2, g.used);
    var left := chunking1.NumChunksLeft();
    while left != 0
      invariant fresh(chunking1) && fresh(chunking2) && chunking1 != chunking2
      invariant chunking1.Valid() && chunking2.Valid() && chunking1.g == chunking2.g == g
      invariant chunking1.orig == lin1 && chunking2.orig == lin2
      invariant left == |chunking1.parts| && (left == 0 <==> chunking1.todo == {})
      invariant left != 0 ==> chunking1.todo == chunking2.todo
      invariant Partial(g, ret, chunking1.todo)
      invariant Tracks(f, lin1, ret, chunking1.todo) && Tracks(f, lin2, ret, chunking1.todo)
      decreases chunking1.todo
    {
      ghost var todo := chunking1.todo;
      ghost var cs1, cs2 := chunking1.parts, chunking2.parts;
      var left2 := chunking2.NumChunksLeft();
      var first1 := chunking1.GetChunk(0);
      var first2 := chunking2.GetChunk(0);
      FirstChunkInfo(f, lin1, todo, cs1);
      FirstChunkInfo(f, lin2, todo, cs2);
      var best: SetInfo;
      BetterNotLower(first2.feerate, first1.feerate);
      GainSwap(first1.feerate, first2.feerate);
      PartialTodo(g, ret, todo);
      if first2.feerate.Higher(first1.feerate) {
        best := chunking1.IntersectPrefixes(first2);
        ghost var j: nat :| j <= |cs1| && best.transactions == Elems(cs2[0]) * Elems(Flatten(cs1[..j]));
        MergeRound(g, lin2, lin1, todo, cs2, cs1, best.transactions, j);
      } else {
        best := chunking2.IntersectPrefixes(first1);
        ghost var j: nat :| j <= |cs2| && best.transactions == Elems(cs1[0]) * Elems(Flatten(cs2[..j]));
        MergeRound(g, lin1, lin2, todo, cs1, cs2, best.transactions, j);
      }
      ghost var before := ret;
      ret := AppendTopo(g, ret, best.transactions);
      ghost var sorted := ret[|before|..];
      assert ret == before + sorted;
      PartialStep(g, before, todo, best.transactions, sorted);
      TracksStep(f, lin1, before, todo, cs1, best.transactions, sorted);
      TracksStep(f, lin2, before, todo, cs2, best.transactions, sorted);
      chunking1.MarkDone(best.transactions);
      left := chunking1.NumChunksLeft();
      if left != 0 {
        chunking2.MarkDone(best.transactions);
      }
    }
    PartialDone(g, ret);
    TracksDone(f, lin1, ret);
    TracksDone(f, lin2, ret);
  }

  lemma PartialTodo(g: Graph, ret: seq<nat>, todo: set<nat>)
    requires Partial(g, ret, todo)
    ensures todo <= g.used
  {}

  /** The first chunk is a set of remaining transactions with its own total as feerate. */
  lemma FirstChunkInfo(f: seq<FeeFrac>, lin: seq<nat>, todo: set<nat>, cs: seq<seq<nat>>)
    requires IsChunking(f, Keep(lin, todo), cs) && cs != [] && Distinct(lin) && todo <= Elems(lin) && Positive(f, Elems(lin))
    ensures Elems(cs[0]) <= todo && Elems(cs[0]) != {}
    ensures IsInfo(f, ChunkInfo(f, cs[0]))
    ensures SeqRate(f, cs[0]).size > 0
  {
    KeepProps(lin, todo);
    TailChunking(f, Keep(lin, todo), cs);
    ChunkSize(f, lin, todo, cs);
    SeqRateSet(f, cs[0]);
    assert Tight(f, cs[0]);
    assert cs[0][0] in Elems(cs[0]);
  }
}
