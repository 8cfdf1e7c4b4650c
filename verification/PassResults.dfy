// What a pass of PostLinearize guarantees of the linearization: connected chunks, the best linearization of
// tree-shaped clusters, and that moving a transaction to the end does no harm.
module PassResults {
  import opened Sets
  import opened FeeFracs
  import opened Diagrams
  import opened DepGraphs
  import opened GraphQueries
  import opened PostLinearizing
  import opened GroupShapes
  import opened LeafMoves

  // ---------------------------------------------------------------- between linearizations and passes

  lemma ToPass(g: Graph, rev: bool, l: seq<nat>)
    requires Cluster(g) && Linearization(g, l)
    ensures var m := if rev then Reverse(l) else l;
            Distinct(m) && Elems(m) == g.used && DepOrder(Deps(g, rev), m) && Positive(PassRates(g, rev), g.used)
  {
    hide WellFormed, Acyclic;
    ReverseProps(l);
    ReverseAt(l);
    AllInGraph(g);
    if rev {
      var m := Reverse(l);
      forall i, j | 0 <= i < j < |m| ensures m[j] !in DepsOf(Deps(g, rev), m[i]) {
        var x, y := l[|l| - 1 - i], l[|l| - 1 - j];
        assert x in Elems(l) && y in Elems(l);
        assert x !in g.Anc(y);
        AncDesc(g, y, x);
      }
    }
  }

  lemma AllInGraph(g: Graph)
    requires WellFormed(g)
    ensures forall i :: i in g.used ==> i < |g.entries|
  {}

  lemma FromPass(g: Graph, rev: bool, l: seq<nat>, out: seq<nat>)
    requires Cluster(g) && Linearization(g, l)
    requires Distinct(out) && Elems(out) == g.used && DepOrder(Deps(g, rev), out)
    requires NoWorse(PassRates(g, rev), out, if rev then Reverse(l) else l)
    ensures Linearization(g, if rev then Reverse(out) else out)
    ensures NoWorse(g.Rates(), if rev then Reverse(out) else out, l)
  {
    hide WellFormed, Acyclic, NoWorse;
    AllInGraph(g);
    ReverseProps(l);
    ReverseProps(out);
    ReverseAt(out);
    if rev {
      var res := Reverse(out);
      forall i, j | 0 <= i < j < |res| ensures res[j] !in g.Anc(res[i]) {
        var x, y := out[|out| - 1 - j], out[|out| - 1 - i];
        assert x in Elems(out) && y in Elems(out);
        assert y !in DepsOf(Deps(g, rev), x);
        AncDesc(g, y, x);
      }
      SeqRateSet(g.Rates(), out);
      SeqRateSet(g.Rates(), Reverse(l));
      ReverseNoWorse(g.Rates(), out, Reverse(l));
    } else {
      forall i, j | 0 <= i < j < |out| ensures out[j] !in g.Anc(out[i]) {
        assert out[i] in Elems(out);
        assert out[j] !in DepsOf(Deps(g, rev), out[i]);
      }
    }
  }

  // ---------------------------------------------------------------- connected chunks

  /** No part of s is unrelated to the rest of s. */
  ghost predicate Connected(g: Graph, s: set<nat>) {
    s != {} && forall c :: c <= s && c != {} && ClosedIn(g, s, c) ==> c == s
  }

  ghost predicate AllConnected(g: Graph, cs: seq<seq<nat>>) {
    forall k :: 0 <= k < |cs| ==> Connected(g, Elems(cs[k]))
  }

  ghost predicate ConnectedChunks(g: Graph, l: seq<nat>) {
    exists cs :: IsChunking(g.Rates(), l, cs) && AllConnected(g, cs)
  }

  lemma JoinedConnected(g: Graph, rev: bool, s: set<nat>)
    requires WellFormed(g) && s <= g.used && s != {} && Joined(Deps(g, rev), s)
    ensures Connected(g, s)
  {
    hide WellFormed;
    AllInGraph(g);
    forall c | c <= s && c != {} && ClosedIn(g, s, c) ensures c == s {
      var d := Deps(g, rev);
      forall x, y | x in c && y in s && (y in DepsOf(d, x) || x in DepsOf(d, y)) ensures y in c {
        AncDesc(g, x, y);
        AncDesc(g, y, x);
      }
      assert SelfContained(d, s, c);
    }
  }

  function ReverseGroups(groups: seq<seq<nat>>): seq<seq<nat>> {
    if groups == [] then [] else ReverseGroups(groups[1..]) + [Reverse(groups[0])]
  }

  lemma {:induction false} ReverseGroupsAt(groups: seq<seq<nat>>)
    ensures |ReverseGroups(groups)| == |groups|
    ensures forall k :: 0 <= k < |groups| ==> ReverseGroups(groups)[k] == Reverse(groups[|groups| - 1 - k])
  {
    hide Reverse;
    if groups != [] { ReverseGroupsAt(groups[1..]); }
  }

  lemma {:induction false} ReverseFlatten(groups: seq<seq<nat>>)
    ensures Flatten(ReverseGroups(groups)) == Reverse(Flatten(groups))
  {
    hide Reverse;
    if groups == [] {
      ReverseAt([]);
    } else {
      ReverseFlatten(groups[1..]);
      FlattenConcat(ReverseGroups(groups[1..]), [Reverse(groups[0])]);
      FlattenCons(Reverse(groups[0]), []);
      assert [Reverse(groups[0])] + [] == [Reverse(groups[0])];
      ReverseConcat(groups[0], Flatten(groups[1..]));
    }
  }

  lemma ReverseTight(f: seq<FeeFrac>, gp: seq<nat>)
    requires Tight(Negated(f), gp)
    ensures Tight(f, Reverse(gp))
  {
    hide Gain, SeqRate, Reverse;
    ReverseAt(gp);
    ReverseRate(f, gp);
    NegatedRate(f, gp);
    var C := SeqRate(f, gp);
    forall k: nat | 0 < k < |Reverse(gp)| ensures Gain(SeqRate(f, Reverse(gp)[..k]), SeqRate(f, Reverse(gp))) < 0 {
      ReversedPrefix(f, gp, k, C);
      GainSelf(C);
    }
  }

  lemma ReverseNotAbove(f: seq<FeeFrac>, a: seq<nat>, b: seq<nat>)
    requires NotAbove(Negated(f), a, b)
    ensures Gain(SeqRate(f, Reverse(b)), SeqRate(f, Reverse(a))) <= 0
  {
    hide Gain, SeqRate, Reverse, Negated;
    ReverseRate(f, a);
    ReverseRate(f, b);
    NegatedRate(f, a);
    NegatedRate(f, b);
    NegatedGain(SeqRate(f, a), SeqRate(f, b));
    GainSwap(SeqRate(f, b), SeqRate(f, a));
  }

  /** The groups a pass leaves are the chunks of its result. */
  lemma GroupsAreChunks(g: Graph, rev: bool, groups: seq<seq<nat>>)
    requires WellFormed(g) && GroupsOk(PassRates(g, rev), Deps(g, rev), groups) && Elems(Flatten(groups)) <= g.used
    requires Sorted(PassRates(g, rev), groups) && AllJoined(Deps(g, rev), groups)
    ensures ConnectedChunks(g, if rev then Reverse(Flatten(groups)) else Flatten(groups))
  {
    hide WellFormed, Gain, SeqRate, Reverse, GroupsOk, Joined, Connected, Flatten, Tight, NotAbove;
    var f, d := PassRates(g, rev), Deps(g, rev);
    var cs := if rev then ReverseGroups(groups) else groups;
    var n := |groups|;
    ReverseGroupsAt(groups);
    ReverseFlatten(groups);
    forall k | 0 <= k < n ensures Connected(g, Elems(cs[k])) && Tight(g.Rates(), cs[k]) {
      var j := if rev then n - 1 - k else k;
      GroupSize(f, d, groups, j);
      ReverseProps(groups[j]);
      assert groups[j][0] in Elems(groups[j]);
      JoinedConnected(g, rev, Elems(groups[j]));
      GroupTight(f, d, groups, j);
      if rev { ReverseTight(g.Rates(), groups[j]); }
    }
    forall k | 0 <= k < n - 1 ensures Gain(SeqRate(g.Rates(), cs[k + 1]), SeqRate(g.Rates(), cs[k])) <= 0 {
      if rev {
        assert NotAbove(f, groups[n - 1 - k], groups[n - 2 - k]);
        ReverseNotAbove(g.Rates(), groups[n - 1 - k], groups[n - 2 - k]);
      } else {
        assert NotAbove(f, groups[k + 1], groups[k]);
        NotAboveMeans(f, groups[k + 1], groups[k]);
      }
    }
    assert IsChunking(g.Rates(), Flatten(cs), cs) && AllConnected(g, cs);
  }

  lemma NotAboveMeans(f: seq<FeeFrac>, a: seq<nat>, b: seq<nat>)
    requires NotAbove(f, a, b)
    ensures Gain(SeqRate(f, a), SeqRate(f, b)) <= 0
  {}

  // ---------------------------------------------------------------- trees

  /** p is a parent of c, not only a more remote ancestor. */
  ghost predicate Parent(g: Graph, p: nat, c: nat) {
    Maximal(g, g.Anc(c) - {c}, p)
  }

  ghost predicate OneParent(g: Graph) {
    forall c, p, q :: c in g.used && Parent(g, p, c) && Parent(g, q, c) ==> p == q
  }

  ghost predicate OneChild(g: Graph) {
    forall p, a, b :: a in g.used && b in g.used && Parent(g, p, a) && Parent(g, p, b) ==> a == b
  }

  /** A proper ancestor of a is an ancestor of a parent of a. */
  lemma {:induction false} ParentTowards(g: Graph, x: nat, a: nat) returns (p: nat)
    requires WellFormed(g) && Acyclic(g) && a in g.used && x in g.Anc(a) && x != a
    ensures Parent(g, p, a) && x in g.Anc(p) && p in g.used
    decreases |g.Desc(x)|
  {
    hide WellFormed;
    AncUsed(g, a);
    AncUsed(g, x);
    if Parent(g, x, a) {
      p := x;
    } else {
      var q :| q in g.Anc(a) - {a} && x in g.Anc(q) && q != x;
      FewerDesc(g, x, q);
      p := ParentTowards(g, q, a);
      AncUsed(g, p);
      AncTrans(g, p, q, x);
    }
  }

  /** A proper ancestor p of a has a child that is an ancestor of a. */
  lemma {:induction false} ChildTowards(g: Graph, p: nat, a: nat) returns (c: nat)
    requires WellFormed(g) && Acyclic(g) && a in g.used && p in g.Anc(a) && p != a
    ensures Parent(g, p, c) && c in g.Anc(a) && c in g.used
    decreases |g.Anc(a)|
  {
    hide WellFormed;
    AncUsed(g, a);
    if Parent(g, p, a) {
      c := a;
    } else {
      var q :| q in g.Anc(a) - {a} && p in g.Anc(q) && q != p;
      FewerAnc(g, q, a);
      c := ChildTowards(g, p, q);
      AncTrans(g, a, q, c);
    }
  }

  lemma FewerAnc(g: Graph, q: nat, a: nat)
    requires WellFormed(g) && Acyclic(g) && a in g.used && q in g.Anc(a) && q != a
    ensures |g.Anc(q)| < |g.Anc(a)|
  {
    SubsetSize(g.Anc(q), g.Anc(a) - {a});
  }

  lemma FewerDesc(g: Graph, p: nat, q: nat)
    requires WellFormed(g) && Acyclic(g) && q in g.used && p in g.Anc(q) && p != q
    ensures |g.Desc(q)| < |g.Desc(p)|
  {
    forall x | x in g.Desc(q) ensures x in g.Desc(p) - {p} { assert q in g.Anc(x) && p in g.Anc(x); }
    assert p in g.Desc(p);
    SubsetSize(g.Desc(q), g.Desc(p) - {p});
  }

  /** With at most one parent each, the ancestors of a transaction are a chain. */
  lemma {:induction false} AncestorChain(g: Graph, x: nat, a: nat, b: nat)
    requires WellFormed(g) && Acyclic(g) && OneParent(g) && x in g.used && a in g.Anc(x) && b in g.Anc(x)
    ensures a in g.Anc(b) || b in g.Anc(a)
    decreases |g.Anc(x)|
  {
    hide WellFormed, Acyclic, Parent;
    if a != x && b != x {
      var p := ParentTowards(g, a, x);
      var q := ParentTowards(g, b, x);
      ParentOf(g, p, x);
      FewerAnc(g, p, x);
      AncestorChain(g, p, a, b);
    }
  }

  lemma ParentOf(g: Graph, p: nat, x: nat)
    requires Parent(g, p, x)
    ensures p in g.Anc(x) && p != x
  {}

  /** With at most one child each, the descendants of a transaction are a chain. */
  lemma {:induction false} DescendantChain(g: Graph, x: nat, a: nat, b: nat)
    requires WellFormed(g) && Acyclic(g) && OneChild(g) && x in g.used && a in g.used && b in g.used && x in g.Anc(a) && x in g.Anc(b)
    ensures a in g.Anc(b) || b in g.Anc(a)
    decreases |g.Desc(x)|
  {
    hide WellFormed, Acyclic, Parent;
    if a != x && b != x {
      var p := ChildTowards(g, x, a);
      var q := ChildTowards(g, x, b);
      ParentOf(g, x, p);
      FewerDesc(g, x, p);
      DescendantChain(g, p, a, b);
    }
  }

  lemma TreeShape(g: Graph, rev: bool)
    requires WellFormed(g) && Acyclic(g) && if rev then OneParent(g) else OneChild(g)
    ensures TreeDeps(Deps(g, rev), g.used)
  {
    hide Acyclic, OneParent, OneChild;
    var d, u := Deps(g, rev), g.used;
    forall x | x in u ensures x in DepsOf(d, x) { AncUsed(g, x); }
    forall x, y, z | x in u && y in u && z in u && y in DepsOf(d, x) && z in DepsOf(d, y) ensures z in DepsOf(d, x) {
      if rev { assert y in g.Anc(z) && x in g.Anc(y); }
    }
    forall p, a, b | p in u && a in u && b in u && p in DepsOf(d, a) && p in DepsOf(d, b) ensures a in DepsOf(d, b) || b in DepsOf(d, a) {
      if rev { AncestorChain(g, p, a, b); } else { DescendantChain(g, p, a, b); }
    }
  }

  ghost predicate BestLinearization(g: Graph, l: seq<nat>) {
    forall lin :: Linearization(g, lin) ==> NoWorse(g.Rates(), l, lin)
  }

  /** The result of a pass is the best linearization of a tree of its direction. */
  lemma TreesAreSolved(g: Graph, rev: bool, groups: seq<seq<nat>>)
    requires Cluster(g) && (if rev then OneParent(g) else OneChild(g)) && Elems(Flatten(groups)) == g.used
    requires GroupsOk(PassRates(g, rev), Deps(g, rev), groups) && Settled(PassRates(g, rev), Deps(g, rev), groups, g.used)
    ensures BestLinearization(g, if rev then Reverse(Flatten(groups)) else Flatten(groups))
  {
    hide WellFormed, Acyclic, Positive, OneParent, OneChild, Linearization, NoWorse, TreeDeps, AllBest, AllJoined, Sorted, Reverse, Flatten, DepOrder, Distinct, Tight;
    TreeShape(g, rev);
    var f, d := PassRates(g, rev), Deps(g, rev);
    forall lin | Linearization(g, lin) ensures NoWorse(g.Rates(), if rev then Reverse(Flatten(groups)) else Flatten(groups), lin) {
      ToPass(g, rev, lin);
      BestIsOptimal(f, d, groups, if rev then Reverse(lin) else lin);
      FromPass(g, rev, lin, Flatten(groups));
    }
  }

  // ---------------------------------------------------------------- moving a transaction to the end

  /** l is before with the transaction at k moved to the end. */
  ghost predicate MovedBack(before: seq<nat>, k: nat, l: seq<nat>) {
    k < |before| && l == before[..k] + before[k + 1..] + [before[k]]
  }

  ghost predicate HarmlessMove(g: Graph, l: seq<nat>, res: seq<nat>) {
    forall before, k :: Linearization(g, before) && MovedBack(before, k, l) ==> NoWorse(g.Rates(), res, before)
  }

  lemma ReversedMove(before: seq<nat>, k: nat, l: seq<nat>)
    requires MovedBack(before, k, l)
    ensures |Reverse(l)| == |before| && Moved(Reverse(l), |before| - k) == Reverse(before)
    ensures Reverse(l)[0] == before[k] && Reverse(l)[1..|before| - k] == Reverse(before[k + 1..])
  {
    hide Reverse;
    var a, t, b := before[..k], before[k], before[k + 1..];
    assert before == a + [t] + b;
    ReverseConcat(a + b, [t]);
    ReverseConcat(a, b);
    ReverseConcat(a + [t], b);
    ReverseConcat(a, [t]);
    ReverseAt([t]);
    assert Reverse([t]) == [t];
    ReverseAt(l);
    ReverseAt(a);
    ReverseAt(b);
  }

  lemma NothingBehindDepends(g: Graph, before: seq<nat>, k: nat)
    requires Cluster(g) && Linearization(g, before) && k < |before|
    ensures Independent(Deps(g, true), before[k], Reverse(before[k + 1..]))
  {
    hide WellFormed, Acyclic, Positive;
    var b := before[k + 1..];
    ReverseProps(b);
    AllInGraph(g);
    forall x | x in Reverse(b) ensures x != before[k] && before[k] !in DepsOf(Deps(g, true), x) {
      assert x in Elems(b);
      var i :| 0 <= i < |b| && b[i] == x;
      assert before[k + 1 + i] == x && x in Elems(before) && before[k] in Elems(before);
      AncDesc(g, before[k], x);
    }
  }

  /** The backward pass undoes whatever moving a transaction to the end has made worse. */
  lemma MovesAreHarmless(g: Graph, l: seq<nat>, groups: seq<seq<nat>>)
    requires Cluster(g) && Linearization(g, l) && Elems(Flatten(groups)) == g.used
    requires GroupsOk(PassRates(g, true), Deps(g, true), groups)
    requires |Reverse(l)| == |l| && MakesUp(PassRates(g, true), Deps(g, true), Flatten(groups), Reverse(l), |l|)
    ensures HarmlessMove(g, l, Reverse(Flatten(groups)))
  {
    hide Cluster, Linearization, NoWorse, Reverse, Flatten, DepOrder, Distinct, Tight, Positive, Independent, Moved;
    var out := Flatten(groups);
    forall before, k | Linearization(g, before) && MovedBack(before, k, l) ensures NoWorse(g.Rates(), Reverse(out), before) {
      ReversedMove(before, k, l);
      NothingBehindDepends(g, before, k);
      var m := Reverse(l);
      assert m[|m|..] == [] && out + [] == out;
      assert NoWorse(PassRates(g, true), out, Moved(m, |before| - k));
      FromPass(g, true, before, out);
    }
  }

  /** A linearization that is nowhere worse than another is so all the more if fees were lower before. */
  lemma RaisedFees(f: seq<FeeFrac>, f': seq<FeeFrac>, res: seq<nat>, before: seq<nat>, r: FeeFrac, k: nat)
    requires NoWorse(f', res, before) && |f'| == |f| && r.size > 0 && k <= |before|
    requires forall i :: 0 <= i < |f| ==> f'[i].size == f[i].size && f'[i].fee >= f[i].fee
    ensures Reaches(f', res, r, PrefixGain(f, before, k, r))
  {
    hide Gain, SeqRate;
    assert Reaches(f', res, r, PrefixGain(f', before, k, r));
    RaisedRate(f, f', before[..k]);
    RaisedGain(SeqRate(f, before[..k]), SeqRate(f', before[..k]), r);
  }

  lemma {:induction false} RaisedRate(f: seq<FeeFrac>, f': seq<FeeFrac>, l: seq<nat>)
    requires |f'| == |f| && forall i :: 0 <= i < |f| ==> f'[i].size == f[i].size && f'[i].fee >= f[i].fee
    ensures SeqRate(f', l).size == SeqRate(f, l).size && SeqRate(f', l).fee >= SeqRate(f, l).fee
  {
    if l != [] { RaisedRate(f, f', l[1..]); }
  }

  lemma RaisedGain(a: FeeFrac, b: FeeFrac, r: FeeFrac)
    requires b.size == a.size && b.fee >= a.fee && r.size > 0
    ensures Gain(b, r) >= Gain(a, r)
  {
    assert (b.fee - a.fee) * r.size >= 0;
    assert (b.fee - a.fee) * r.size == b.fee * r.size - a.fee * r.size;
  }
}
