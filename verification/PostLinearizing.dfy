// PostLinearize: two passes over a linearization that merge and swap groups of transactions.
//
// A pass works on an order, dependency sets and feerates that are those of the linearization in the
// forward pass, and the reversed order, descendants and negated fees in the backward pass.
module PostLinearizing {
  import opened Sets
  import opened FeeFracs
  import opened Diagrams
  import opened DepGraphs
  import opened GraphQueries
  import opened Merging

  // ---------------------------------------------------------------- swapping two groups

  lemma SwapNoWorse(f: seq<FeeFrac>, p: seq<nat>, c: seq<nat>, b: seq<nat>)
    requires Tight(f, p) && Tight(f, c) && Positive(f, Elems(p)) && Positive(f, Elems(c))
    requires Gain(SeqRate(f, c), SeqRate(f, p)) >= 0
    ensures NoWorse(f, c + p + b, p + c + b)
  {
    forall r: FeeFrac, k: nat | r.size > 0 && k <= |p + c + b|
      ensures Reaches(f, c + p + b, r, PrefixGain(f, p + c + b, k, r))
    {
      SwapReaches(f, p, c, b, r, k);
    }
  }

  lemma SwapReaches(f: seq<FeeFrac>, p: seq<nat>, c: seq<nat>, b: seq<nat>, r: FeeFrac, k: nat)
    requires Tight(f, p) && Tight(f, c) && Positive(f, Elems(p)) && Positive(f, Elems(c))
    requires Gain(SeqRate(f, c), SeqRate(f, p)) >= 0
    requires r.size > 0 && k <= |p + c + b|
    ensures Reaches(f, c + p + b, r, PrefixGain(f, p + c + b, k, r))
  {
    hide Gain, Tight, SeqRate;
    var new', old' := c + p + b, p + c + b;
    var gp, gc := Gain(SeqRate(f, p), r), Gain(SeqRate(f, c), r);
    TightFlat(f, p);
    TightFlat(f, c);
    SeqRatePositive(f, p);
    SeqRatePositive(f, c);
    GainTransitive(SeqRate(f, c), SeqRate(f, p), r);
    PrefixGainConcat(f, c, p, |p|, r);
    assert p[..|p|] == p && (c + p)[..|c + p|] == c + p && new'[..|c + p|] == c + p;
    assert PrefixGain(f, new', |c + p|, r) == gc + gp;
    if k <= |p| {
      assert old'[..k] == p[..k];
      FlatPrefix(f, p, k, r);
      if gp < 0 {
        assert new'[..0] == [];
        EmptyPrefix(f, new', r);
        assert PrefixGain(f, new', 0, r) >= PrefixGain(f, old', k, r);
      } else {
        assert PrefixGain(f, new', |c + p|, r) >= PrefixGain(f, old', k, r);
      }
    } else if k <= |p + c| {
      var j := k - |p|;
      assert old'[..k] == (p + c)[..k];
      PrefixGainConcat(f, p, c, j, r);
      FlatPrefix(f, c, j, r);
      if gp < 0 {
        assert new'[..j] == c[..j];
        assert PrefixGain(f, new', j, r) >= PrefixGain(f, old', k, r);
      } else {
        assert PrefixGain(f, new', |c + p|, r) >= PrefixGain(f, old', k, r);
      }
    } else {
      var j := k - |p + c|;
      PrefixGainConcat(f, p + c, b, j, r);
      PrefixGainConcat(f, c + p, b, j, r);
      SeqRateConcat(f, p, c);
      SeqRateConcat(f, c, p);
      assert SeqRate(f, p + c) == SeqRate(f, c + p);
      assert PrefixGain(f, new', k, r) >= PrefixGain(f, old', k, r);
    }
  }

  lemma EmptyPrefix(f: seq<FeeFrac>, l: seq<nat>, r: FeeFrac)
    ensures PrefixGain(f, l, 0, r) == 0
  {
    assert l[..0] == [];
    GainSelf(r);
  }

  // ---------------------------------------------------------------- reversing and negating

  function Reverse(l: seq<nat>): seq<nat> {
    if l == [] then [] else Reverse(l[1..]) + [l[0]]
  }

  function Negated(f: seq<FeeFrac>): (nf: seq<FeeFrac>)
    ensures |nf| == |f|
  {
    seq(|f|, i requires 0 <= i < |f| => f[i].Negate())
  }

  lemma {:induction false} ReverseAt(l: seq<nat>)
    ensures |Reverse(l)| == |l|
    ensures forall k :: 0 <= k < |l| ==> Reverse(l)[k] == l[|l| - 1 - k]
  {
    if l != [] { ReverseAt(l[1..]); }
  }

  lemma {:induction false} ReverseConcat(a: seq<nat>, b: seq<nat>)
    ensures Reverse(a + b) == Reverse(b) + Reverse(a)
  {
    if a == [] {
      assert a + b == b;
    } else {
      assert (a + b)[1..] == a[1..] + b;
      ReverseConcat(a[1..], b);
      Assoc(Reverse(b), Reverse(a[1..]), [a[0]]);
    }
  }

  lemma ReverseProps(l: seq<nat>)
    ensures Elems(Reverse(l)) == Elems(l)
    ensures Distinct(l) ==> Distinct(Reverse(l))
    ensures Reverse(Reverse(l)) == l
  {
    ReverseAt(l);
    ReverseAt(Reverse(l));
    var r := Reverse(l);
    forall x | x in l ensures x in r {
      var k :| 0 <= k < |l| && l[k] == x;
      assert r[|l| - 1 - k] == x;
    }
  }

  lemma {:induction false} NegatedRate(f: seq<FeeFrac>, l: seq<nat>)
    ensures SeqRate(Negated(f), l) == SeqRate(f, l).Negate()
  {
    hide FeeFrac.Plus, FeeFrac.Negate;
    if l == [] {
      NegatedPlus(EMPTY, EMPTY);
    } else {
      NegatedRate(f, l[1..]);
      NegatedTx(f, l[0]);
      NegatedPlus(TxRate(f, l[0]), SeqRate(f, l[1..]));
    }
  }

  lemma NegatedTx(f: seq<FeeFrac>, i: nat)
    ensures TxRate(Negated(f), i) == TxRate(f, i).Negate()
  {}

  lemma NegatedPlus(a: FeeFrac, b: FeeFrac)
    ensures a.Plus(b).Negate() == a.Negate().Plus(b.Negate())
    ensures EMPTY.Negate() == EMPTY
  {}

  lemma NegatedGain(a: FeeFrac, r: FeeFrac)
    ensures Gain(a.Negate(), r.Negate()) == -Gain(a, r)
  {}

  lemma {:induction false} ReverseRate(f: seq<FeeFrac>, l: seq<nat>)
    ensures SeqRate(f, Reverse(l)) == SeqRate(f, l)
  {
    if l != [] {
      ReverseRate(f, l[1..]);
      SeqRateConcat(f, Reverse(l[1..]), [l[0]]);
      assert SeqRate(f, [l[0]]) == TxRate(f, l[0]) by { assert [l[0]][1..] == []; }
    }
  }

  /** A prefix of the reversed order is what a prefix of the order leaves over. */
  lemma ReversedPrefix(f: seq<FeeFrac>, l: seq<nat>, k: nat, r: FeeFrac)
    requires k <= |l|
    ensures |Reverse(l)| == |l|
    ensures PrefixGain(f, Reverse(l), k, r) == Gain(SeqRate(f, l), r) + PrefixGain(Negated(f), l, |l| - k, r.Negate())
  {
    hide Gain;
    ReverseAt(l);
    var m := |l| - k;
    assert l == l[..m] + l[m..];
    ReverseConcat(l[..m], l[m..]);
    ReverseAt(l[m..]);
    assert Reverse(l)[..k] == Reverse(l[m..]);
    ReverseRate(f, l[m..]);
    SeqRateConcat(f, l[..m], l[m..]);
    GainPlus(SeqRate(f, l[..m]), SeqRate(f, l[m..]), r);
    NegatedRate(f, l[..m]);
    NegatedGain(SeqRate(f, l[..m]), r);
  }

  /** An improvement of the reversed order with negated fees is an improvement of the order. */
  lemma ReverseNoWorse(f: seq<FeeFrac>, a: seq<nat>, b: seq<nat>)
    requires NoWorse(Negated(f), a, b) && SeqRate(f, a) == SeqRate(f, b)
    ensures NoWorse(f, Reverse(a), Reverse(b))
  {
    hide Gain, SeqRate;
    var nf := Negated(f);
    ReverseAt(b);
    forall r: FeeFrac, k: nat | r.size > 0 && k <= |Reverse(b)|
      ensures Reaches(f, Reverse(a), r, PrefixGain(f, Reverse(b), k, r))
    {
      var v := PrefixGain(nf, b, |b| - k, r.Negate());
      assert Reaches(nf, a, r.Negate(), v);
      var m: nat :| m <= |a| && PrefixGain(nf, a, m, r.Negate()) >= v;
      ReversedPrefix(f, b, k, r);
      ReversedPrefix(f, a, |a| - m, r);
      assert PrefixGain(f, Reverse(a), |a| - m, r) >= PrefixGain(f, Reverse(b), k, r);
    }
  }

  // ---------------------------------------------------------------- a pass on groups

  /** Dependency sets of a pass: ancestors forward, descendants backward. */
  function Deps(g: Graph, rev: bool): seq<set<nat>> {
    seq(|g.entries|, i requires 0 <= i < |g.entries| => if rev then g.Desc(i) else g.Anc(i))
  }

  function PassRates(g: Graph, rev: bool): seq<FeeFrac> {
    if rev then Negated(g.Rates()) else g.Rates()
  }

  function DepsOf(d: seq<set<nat>>, i: nat): set<nat> { if i < |d| then d[i] else {} }

  /** Nothing is placed before something it depends on. */
  ghost predicate DepOrder(d: seq<set<nat>>, l: seq<nat>) {
    forall i, j :: 0 <= i < j < |l| ==> l[j] !in DepsOf(d, l[i])
  }

  ghost function GroupDeps(d: seq<set<nat>>, gp: seq<nat>): set<nat> {
    if gp == [] then {} else DepsOf(d, gp[0]) + GroupDeps(d, gp[1..])
  }

  lemma {:induction false} GroupDepsConcat(d: seq<set<nat>>, a: seq<nat>, b: seq<nat>)
    ensures GroupDeps(d, a + b) == GroupDeps(d, a) + GroupDeps(d, b)
  {
    if a == [] { assert a + b == b; } else {
      assert (a + b)[1..] == a[1..] + b;
      GroupDepsConcat(d, a[1..], b);
    }
  }

  lemma {:induction false} GroupDepsMember(d: seq<set<nat>>, gp: seq<nat>, x: nat)
    requires x in gp
    ensures DepsOf(d, x) <= GroupDeps(d, gp)
  {
    if gp[0] != x { GroupDepsMember(d, gp[1..], x); }
  }

  /** The groups of a pass: each keeps the chunk property, and their concatenation respects dependencies. */
  ghost predicate GroupsOk(f: seq<FeeFrac>, d: seq<set<nat>>, groups: seq<seq<nat>>) {
    && (forall k :: 0 <= k < |groups| ==> Tight(f, groups[k]))
    && Positive(f, Elems(Flatten(groups))) && Distinct(Flatten(groups)) && DepOrder(d, Flatten(groups))
  }

  function MergeAt(groups: seq<seq<nat>>, c: nat): seq<seq<nat>>
    requires 0 < c < |groups|
  {
    groups[..c - 1] + [groups[c - 1] + groups[c]] + groups[c + 1..]
  }

  lemma MergeLength(groups: seq<seq<nat>>, c: nat)
    requires 0 < c < |groups|
    ensures |MergeAt(groups, c)| == |groups| - 1
  {}

  lemma MergeIndex(groups: seq<seq<nat>>, c: nat, k: nat)
    requires 0 < c < |groups| && k < |MergeAt(groups, c)|
    ensures |MergeAt(groups, c)| == |groups| - 1
    ensures MergeAt(groups, c)[k] == if k < c - 1 then groups[k] else if k == c - 1 then groups[c - 1] + groups[c] else groups[k + 1]
  {}

  function SwapAt(groups: seq<seq<nat>>, c: nat): seq<seq<nat>>
    requires 0 < c < |groups|
  {
    groups[c - 1 := groups[c]][c := groups[c - 1]]
  }

  lemma FlattenAround(groups: seq<seq<nat>>, c: nat)
    requires 0 < c < |groups|
    ensures Flatten(groups) == Flatten(groups[..c - 1]) + (groups[c - 1] + groups[c] + Flatten(groups[c + 1..]))
    ensures Flatten(MergeAt(groups, c)) == Flatten(groups)
    ensures Flatten(SwapAt(groups, c)) == Flatten(groups[..c - 1]) + (groups[c] + groups[c - 1] + Flatten(groups[c + 1..]))
  {
    hide Flatten;
    var a, p, q, b := groups[..c - 1], groups[c - 1], groups[c], groups[c + 1..];
    SplitAround(groups, c);
    MergedAround(groups, c);
    SwappedAround(groups, c);
    FlattenPair(a, p, q, b);
    FlattenPair(a, q, p, b);
    FlattenConcat(a, [p + q] + b);
    FlattenCons(p + q, b);
  }

  lemma SplitAround(groups: seq<seq<nat>>, c: nat)
    requires 0 < c < |groups|
    ensures groups == groups[..c - 1] + ([groups[c - 1]] + ([groups[c]] + groups[c + 1..]))
  {}

  lemma MergedAround(groups: seq<seq<nat>>, c: nat)
    requires 0 < c < |groups|
    ensures MergeAt(groups, c) == groups[..c - 1] + ([groups[c - 1] + groups[c]] + groups[c + 1..])
  {}

  lemma SwappedAround(groups: seq<seq<nat>>, c: nat)
    requires 0 < c < |groups|
    ensures SwapAt(groups, c) == groups[..c - 1] + ([groups[c]] + ([groups[c - 1]] + groups[c + 1..]))
  {}

  lemma FlattenPair(a: seq<seq<nat>>, p: seq<nat>, q: seq<nat>, b: seq<seq<nat>>)
    ensures Flatten(a + ([p] + ([q] + b))) == Flatten(a) + (p + q + Flatten(b))
  {
    hide Flatten;
    FlattenConcat(a, [p] + ([q] + b));
    FlattenCons(p, [q] + b);
    FlattenCons(q, b);
    Assoc(p, q, Flatten(b));
  }

  lemma FlattenCons(p: seq<nat>, b: seq<seq<nat>>)
    ensures Flatten([p] + b) == p + Flatten(b)
  {
    assert ([p] + b)[1..] == b;
  }

  /** Merging does not change the order, and keeps the group invariant. */
  lemma MergeKeeps(f: seq<FeeFrac>, d: seq<set<nat>>, groups: seq<seq<nat>>, c: nat)
    requires GroupsOk(f, d, groups) && 0 < c < |groups|
    requires Gain(SeqRate(f, groups[c]), SeqRate(f, groups[c - 1])) > 0
    ensures GroupsOk(f, d, MergeAt(groups, c)) && Flatten(MergeAt(groups, c)) == Flatten(groups)
  {
    hide Gain, SeqRate, DepOrder, Distinct, Tight, Flatten;
    FlattenAround(groups, c);
    var p, q := groups[c - 1], groups[c];
    ElemsAround(groups, c);
    ElemsConcat(p, q);
    TightMerge(f, p, q);
  }

  lemma ElemsAround(groups: seq<seq<nat>>, c: nat)
    requires 0 < c < |groups|
    ensures Elems(groups[c - 1]) <= Elems(Flatten(groups)) && Elems(groups[c]) <= Elems(Flatten(groups))
  {
    FlattenAround(groups, c);
    var a, p, q, b := Flatten(groups[..c - 1]), groups[c - 1], groups[c], Flatten(groups[c + 1..]);
    ElemsConcat(a, p + q + b);
    ElemsConcat(p + q, b);
    ElemsConcat(p, q);
  }

  /** Swapping independent groups keeps the invariant, the elements, and makes the order nowhere worse. */
  lemma SwapKeeps(f: seq<FeeFrac>, d: seq<set<nat>>, groups: seq<seq<nat>>, c: nat, rest: seq<nat>)
    requires GroupsOk(f, d, groups) && 0 < c < |groups|
    requires Gain(SeqRate(f, groups[c]), SeqRate(f, groups[c - 1])) > 0
    requires GroupDeps(d, groups[c]) !! Elems(groups[c - 1])
    ensures GroupsOk(f, d, SwapAt(groups, c)) && Elems(Flatten(SwapAt(groups, c))) == Elems(Flatten(groups))
    ensures NoWorse(f, Flatten(SwapAt(groups, c)) + rest, Flatten(groups) + rest)
  {
    hide Gain, SeqRate, DepOrder, Tight, NoWorse, Flatten;
    FlattenAround(groups, c);
    var a, p, q, b := Flatten(groups[..c - 1]), groups[c - 1], groups[c], Flatten(groups[c + 1..]);
    var old', new' := a + (p + q + b), a + (q + p + b);
    ElemsAround(groups, c);
    ElemsConcat(a, p + q + b);
    ElemsConcat(p + q, b);
    ElemsConcat(p, q);
    ElemsConcat(a, q + p + b);
    ElemsConcat(q + p, b);
    ElemsConcat(q, p);
    assert Elems(new') == Elems(old');
    SwapDistinct(a, p, q, b);
    SwapDepOrder(d, a, p, q, b);
    SwapNoWorse(f, p, q, b + rest);
    NoWorseAfter(f, a, q + p + (b + rest), p + q + (b + rest));
    assert a + (q + p + (b + rest)) == new' + rest;
    assert a + (p + q + (b + rest)) == old' + rest;
  }

  lemma SwapDistinct(a: seq<nat>, p: seq<nat>, q: seq<nat>, b: seq<nat>)
    requires Distinct(a + (p + q + b))
    ensures Distinct(a + (q + p + b))
  {
    var m := multiset(a + (p + q + b));
    assert m == multiset(a) + multiset(p) + multiset(q) + multiset(b);
    assert multiset(a + (q + p + b)) == m;
    SameMultiset(a + (p + q + b), a + (q + p + b));
  }

  lemma SwapDepOrder(d: seq<set<nat>>, a: seq<nat>, p: seq<nat>, q: seq<nat>, b: seq<nat>)
    requires DepOrder(d, a + (p + q + b)) && GroupDeps(d, q) !! Elems(p)
    ensures DepOrder(d, a + (q + p + b))
  {
    var old', new' := a + (p + q + b), a + (q + p + b);
    forall i, j | 0 <= i < j < |new'| ensures new'[j] !in DepsOf(d, new'[i]) {
      var i' := OldIndex(|a|, |p|, |q|, i);
      var j' := OldIndex(|a|, |p|, |q|, j);
      assert new'[i] == old'[i'] && new'[j] == old'[j'];
      if i' > j' {
        assert new'[i] == q[i - |a|] && new'[j] == p[j - |a| - |q|];
        GroupDepsMember(d, q, new'[i]);
        assert new'[j] in Elems(p);
      }
    }
  }

  function OldIndex(a: nat, p: nat, q: nat, i: nat): nat {
    if a <= i < a + q then i + p else if a + q <= i < a + q + p then i - q else i
  }

  /** A new group with one transaction at the end. */
  lemma AppendKeeps(f: seq<FeeFrac>, d: seq<set<nat>>, groups: seq<seq<nat>>, x: nat)
    requires GroupsOk(f, d, groups) && Positive(f, {x}) && x !in Elems(Flatten(groups)) && DepOrder(d, Flatten(groups) + [x])
    ensures GroupsOk(f, d, groups + [[x]]) && Flatten(groups + [[x]]) == Flatten(groups) + [x]
  {
    FlattenConcat(groups, [[x]]);
    assert Flatten([[x]]) == [x] by { FlattenCons([x], []); assert [[x]] + [] == [[x]]; }
    ElemsConcat(Flatten(groups), [x]);
    assert Elems([x]) == {x};
    DistinctConcat(Flatten(groups), [x]);
  }
}
