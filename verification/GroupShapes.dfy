// What the merge/swap cycle of PostLinearize makes of its groups: their feerates never increase, every group is
// connected, and in tree-shaped clusters no group can be improved.
module GroupShapes {
  import opened Sets
  import opened FeeFracs
  import opened Diagrams
  import opened PostLinearizing

  // ---------------------------------------------------------------- feerates

  /** a does not have a higher feerate than b. */
  ghost predicate NotAbove(f: seq<FeeFrac>, a: seq<nat>, b: seq<nat>) {
    Gain(SeqRate(f, a), SeqRate(f, b)) <= 0
  }

  ghost predicate Sorted(f: seq<FeeFrac>, groups: seq<seq<nat>>) {
    forall i, j :: 0 <= i < j < |groups| ==> NotAbove(f, groups[j], groups[i])
  }

  /** Sorted but for group c, which no group behind it exceeds. */
  ghost predicate Moving(f: seq<FeeFrac>, groups: seq<seq<nat>>, c: nat) {
    && c < |groups|
    && (forall i, j :: 0 <= i < j < |groups| && i != c && j != c ==> NotAbove(f, groups[j], groups[i]))
    && (forall j :: c < j < |groups| ==> NotAbove(f, groups[j], groups[c]))
  }

  lemma GroupSize(f: seq<FeeFrac>, d: seq<set<nat>>, groups: seq<seq<nat>>, k: nat)
    requires GroupsOk(f, d, groups) && k < |groups|
    ensures groups[k] != [] && Positive(f, Elems(groups[k])) && Elems(groups[k]) <= Elems(Flatten(groups)) && Distinct(groups[k])
    ensures SeqRate(f, groups[k]).size > 0
  {
    hide SeqRate, Flatten, DepOrder;
    assert Tight(f, groups[k]);
    GroupWithin(groups, k);
    SeqRatePositive(f, groups[k]);
  }

  lemma GroupWithin(groups: seq<seq<nat>>, k: nat)
    requires k < |groups|
    ensures Elems(groups[k]) <= Elems(Flatten(groups))
    ensures Distinct(Flatten(groups)) ==> Distinct(groups[k])
  {
    hide Flatten, Distinct;
    var a, b := Flatten(groups[..k]), Flatten(groups[k + 1..]);
    assert groups == groups[..k] + ([groups[k]] + groups[k + 1..]);
    FlattenConcat(groups[..k], [groups[k]] + groups[k + 1..]);
    FlattenCons(groups[k], groups[k + 1..]);
    ElemsConcat(a, groups[k] + b);
    ElemsConcat(groups[k], b);
    if Distinct(Flatten(groups)) { InnerDistinct(a, groups[k], b); }
  }

  lemma InnerDistinct(a: seq<nat>, p: seq<nat>, b: seq<nat>)
    requires Distinct(a + (p + b))
    ensures Distinct(p)
  {
    var l := a + (p + b);
    forall i, j | 0 <= i < j < |p| ensures p[i] != p[j] { assert l[|a| + i] == p[i] && l[|a| + j] == p[j]; }
  }

  lemma NotAboveTrans(f: seq<FeeFrac>, a: seq<nat>, b: seq<nat>, c: seq<nat>)
    requires SeqRate(f, a).size > 0 && SeqRate(f, b).size > 0 && SeqRate(f, c).size > 0
    requires NotAbove(f, a, b) && NotAbove(f, b, c)
    ensures NotAbove(f, a, c)
  {
    hide Gain, SeqRate;
    var A, B, C := SeqRate(f, a), SeqRate(f, b), SeqRate(f, c);
    GainSwap(B, A);
    GainTransitive(B, A, C);
  }

  lemma HigherNotAbove(f: seq<FeeFrac>, a: seq<nat>, b: seq<nat>)
    requires Gain(SeqRate(f, b), SeqRate(f, a)) >= 0
    ensures NotAbove(f, a, b)
  {
    hide SeqRate;
    GainSwap(SeqRate(f, a), SeqRate(f, b));
  }

  lemma MovingStart(f: seq<FeeFrac>, groups: seq<seq<nat>>, x: nat)
    requires Sorted(f, groups)
    ensures Moving(f, groups + [[x]], |groups|)
  {
    hide NotAbove;
  }

  lemma MergedRate(f: seq<FeeFrac>, d: seq<set<nat>>, groups: seq<seq<nat>>, c: nat)
    requires GroupsOk(f, d, groups) && 0 < c < |groups| && Gain(SeqRate(f, groups[c]), SeqRate(f, groups[c - 1])) > 0
    ensures SeqRate(f, groups[c - 1] + groups[c]).size > 0 && NotAbove(f, groups[c - 1], groups[c - 1] + groups[c])
  {
    hide Gain, SeqRate, GroupsOk;
    var p, q := groups[c - 1], groups[c];
    GroupSize(f, d, groups, c - 1);
    GroupSize(f, d, groups, c);
    ElemsConcat(p, q);
    MergeRates(f, p, q);
    HigherNotAbove(f, p, p + q);
  }

  /** What follows the group absorbed is not above it, so not above the merged group either. */
  lemma MovingMerge(f: seq<FeeFrac>, d: seq<set<nat>>, groups: seq<seq<nat>>, c: nat)
    requires GroupsOk(f, d, groups) && Moving(f, groups, c) && 0 < c
    requires Gain(SeqRate(f, groups[c]), SeqRate(f, groups[c - 1])) > 0
    ensures Moving(f, MergeAt(groups, c), c - 1)
  {
    hide Gain, SeqRate, GroupsOk, NotAbove, MergeAt;
    var groups' := MergeAt(groups, c);
    MergedRate(f, d, groups, c);
    MergeLength(groups, c);
    forall i, j | 0 <= i < j < |groups'| && i != c - 1 && j != c - 1 ensures NotAbove(f, groups'[j], groups'[i]) {
      MergeIndex(groups, c, i);
      MergeIndex(groups, c, j);
    }
    forall j | c - 1 < j < |groups'| ensures NotAbove(f, groups'[j], groups'[c - 1]) {
      MergeIndex(groups, c, j);
      MergeIndex(groups, c, c - 1);
      GroupSize(f, d, groups, j + 1);
      GroupSize(f, d, groups, c - 1);
      NotAboveTrans(f, groups[j + 1], groups[c - 1], groups[c - 1] + groups[c]);
    }
  }

  lemma MovingSwap(f: seq<FeeFrac>, groups: seq<seq<nat>>, c: nat)
    requires Moving(f, groups, c) && 0 < c && Gain(SeqRate(f, groups[c]), SeqRate(f, groups[c - 1])) > 0
    ensures Moving(f, SwapAt(groups, c), c - 1)
  {
    hide NotAbove, SeqRate;
    HigherNotAbove(f, groups[c - 1], groups[c]);
    var groups' := SwapAt(groups, c);
    forall i, j | 0 <= i < j < |groups'| && i != c - 1 && j != c - 1 ensures NotAbove(f, groups'[j], groups'[i]) {
      var i' := if i == c then c - 1 else i;
      var j' := if j == c then c - 1 else j;
      assert groups'[i] == groups[i'] && groups'[j] == groups[j'];
    }
  }

  lemma MovingDone(f: seq<FeeFrac>, d: seq<set<nat>>, groups: seq<seq<nat>>, c: nat)
    requires GroupsOk(f, d, groups) && Moving(f, groups, c) && (c > 0 ==> NotAbove(f, groups[c], groups[c - 1]))
    ensures Sorted(f, groups)
  {
    hide NotAbove, GroupsOk, SeqRate;
    forall i, j | 0 <= i < j < |groups| ensures NotAbove(f, groups[j], groups[i]) {
      if j == c && i < c - 1 {
        GroupSize(f, d, groups, c);
        GroupSize(f, d, groups, c - 1);
        GroupSize(f, d, groups, i);
        NotAboveTrans(f, groups[c], groups[c - 1], groups[i]);
      }
    }
  }

  // ---------------------------------------------------------------- connectedness

  /** a contains all of s that depends on a member of a or that a member of a depends on. */
  ghost predicate SelfContained(d: seq<set<nat>>, s: set<nat>, a: set<nat>) {
    forall x, y :: x in a && y in s && (y in DepsOf(d, x) || x in DepsOf(d, y)) ==> y in a
  }

  ghost predicate Joined(d: seq<set<nat>>, s: set<nat>) {
    forall a :: a <= s && a != {} && SelfContained(d, s, a) ==> a == s
  }

  lemma JoinedOne(d: seq<set<nat>>, x: nat)
    ensures Elems([x]) == {x} && Joined(d, {x})
  {}

  /** Two connected sets with a dependency between them are connected. */
  lemma JoinedMerge(d: seq<set<nat>>, p: set<nat>, q: set<nat>, x: nat, y: nat)
    requires Joined(d, p) && Joined(d, q) && x in q && y in p && y in DepsOf(d, x)
    ensures Joined(d, p + q)
  {
    forall a | a <= p + q && a != {} && SelfContained(d, p + q, a) ensures a == p + q {
      assert SelfContained(d, p, a * p) && SelfContained(d, q, a * q);
      assert a == a * p + a * q;
      if x in a { assert y in a * p; }
      if y in a { assert x in a * q; }
    }
  }

  lemma {:induction false} GroupDepsFrom(d: seq<set<nat>>, gp: seq<nat>, y: nat) returns (x: nat)
    requires y in GroupDeps(d, gp)
    ensures x in gp && y in DepsOf(d, x)
  {
    if y in DepsOf(d, gp[0]) { x := gp[0]; } else { x := GroupDepsFrom(d, gp[1..], y); }
  }

  ghost predicate AllJoined(d: seq<set<nat>>, groups: seq<seq<nat>>) {
    forall k :: 0 <= k < |groups| ==> Joined(d, Elems(groups[k]))
  }

  // ---------------------------------------------------------------- trees

  /** Dependencies are reflexive and transitive, and what depends on the same transaction is a chain. */
  ghost predicate TreeDeps(d: seq<set<nat>>, u: set<nat>) {
    && (forall x :: x in u ==> x in DepsOf(d, x))
    && (forall x, y, z :: x in u && y in u && z in u && y in DepsOf(d, x) && z in DepsOf(d, y) ==> z in DepsOf(d, x))
    && (forall p, a, b :: p in u && a in u && b in u && p in DepsOf(d, a) && p in DepsOf(d, b) ==> a in DepsOf(d, b) || b in DepsOf(d, a))
  }

  function Last(gp: seq<nat>): nat
    requires gp != []
  {
    gp[|gp| - 1]
  }

  /** The last transaction of a group depends on all of it. */
  ghost predicate Rooted(d: seq<set<nat>>, gp: seq<nat>) {
    gp != [] && Elems(gp) <= DepsOf(d, Last(gp))
  }

  /** s has with every member its dependencies in gp. */
  ghost predicate LowerPart(d: seq<set<nat>>, gp: set<nat>, s: set<nat>) {
    s <= gp && forall x, y :: x in s && y in gp && y in DepsOf(d, x) ==> y in s
  }

  /** No part of a group that could be output before the rest has a higher feerate than the group. */
  ghost predicate Best(f: seq<FeeFrac>, d: seq<set<nat>>, gp: seq<nat>) {
    forall s :: LowerPart(d, Elems(gp), s) ==> Gain(SetRate(f, s), SeqRate(f, gp)) <= 0
  }

  /** No such part but the whole lies above r. */
  ghost predicate PartsBelow(f: seq<FeeFrac>, d: seq<set<nat>>, gp: seq<nat>, r: FeeFrac) {
    forall s :: LowerPart(d, Elems(gp), s) && s != Elems(gp) ==> Gain(SetRate(f, s), r) <= 0
  }

  lemma BestOne(f: seq<FeeFrac>, d: seq<set<nat>>, x: nat, r: FeeFrac)
    requires x in DepsOf(d, x)
    ensures Rooted(d, [x]) && Best(f, d, [x]) && PartsBelow(f, d, [x], r)
  {
    hide Gain, SetRate;
    SetRateSingleton(f, x);
    assert Elems([x]) == {x};
    assert SeqRate(f, [x]) == TxRate(f, x) by { assert [x][1..] == []; }
    GainSelf(r);
    GainSelf(TxRate(f, x));
    forall s | LowerPart(d, Elems([x]), s) ensures s == {} || s == {x} { if x in s { assert s == {x}; } }
  }

  /** Parts below a line are below every steeper line. */
  lemma PartsBelowSteeper(f: seq<FeeFrac>, d: seq<set<nat>>, gp: seq<nat>, r: FeeFrac, r': FeeFrac)
    requires PartsBelow(f, d, gp, r) && Positive(f, Elems(gp)) && r.size > 0 && r'.size > 0 && Gain(r', r) >= 0
    ensures PartsBelow(f, d, gp, r')
  {
    hide Gain, SetRate;
    forall s | LowerPart(d, Elems(gp), s) && s != Elems(gp) ensures Gain(SetRate(f, s), r') <= 0 {
      var S := SetRate(f, s);
      SetRatePositive(f, s);
      if s == {} {
        SetRateSingleton(f, 0);
        GainSelf(r');
      } else {
        GainSwap(S, r);
        GainSwap(S, r');
        GainTransitive(r', r, S);
      }
    }
  }

  /** In a tree the last transaction of the later group depends on all of the group it absorbs. */
  lemma RootedMerge(d: seq<set<nat>>, u: set<nat>, p: seq<nat>, q: seq<nat>, x: nat, y: nat)
    requires TreeDeps(d, u) && Rooted(d, p) && Rooted(d, q) && Elems(p) <= u && Elems(q) <= u
    requires x in Elems(q) && y in Elems(p) && y in DepsOf(d, x) && Last(q) !in DepsOf(d, Last(p))
    ensures Rooted(d, p + q)
  {
    var a, b := Last(p), Last(q);
    assert a in Elems(p) && b in Elems(q);
    assert y in DepsOf(d, b) && y in DepsOf(d, a);
    assert a in DepsOf(d, b);
    assert Last(p + q) == b;
    ElemsConcat(p, q);
  }

  /** If a group is absorbed by one whose other parts lie below its line, so do the parts of the merged group. */
  lemma BestMerge(f: seq<FeeFrac>, d: seq<set<nat>>, p: seq<nat>, q: seq<nat>)
    requires Rooted(d, p + q) && Best(f, d, p) && PartsBelow(f, d, q, SeqRate(f, p)) && p != [] && q != []
    requires Positive(f, Elems(p + q)) && Distinct(p + q) && Gain(SeqRate(f, q), SeqRate(f, p)) > 0
    ensures PartsBelow(f, d, p + q, SeqRate(f, p)) && Best(f, d, p + q)
  {
    hide Gain, SetRate, SeqRate, Best, PartsBelow, LowerPart, Rooted, Elems;
    ElemsConcat(p, q);
    DisjointParts(p, q);
    MergeRates(f, p, q);
    forall s | LowerPart(d, Elems(p + q), s) && s != Elems(p + q) ensures Gain(SetRate(f, s), SeqRate(f, p)) <= 0 {
      PartsOfMerge(d, p, q, s);
      PartOfBest(f, d, p, s * Elems(p));
      PartOfBelow(f, d, q, s * Elems(q), SeqRate(f, p));
      assert s == s * Elems(p) + s * Elems(q);
      SetRateUnion(f, s * Elems(p), s * Elems(q));
      GainPlus(SetRate(f, s * Elems(p)), SetRate(f, s * Elems(q)), SeqRate(f, p));
    }
    IsPartsBelow(f, d, p + q, SeqRate(f, p));
    PartsBelowSteeper(f, d, p + q, SeqRate(f, p), SeqRate(f, p + q));
    BelowOwnRate(f, d, p + q);
  }

  lemma DisjointParts(p: seq<nat>, q: seq<nat>)
    requires Distinct(p + q)
    ensures Elems(p) !! Elems(q)
  {
    forall x, y | x in p && y in q ensures x != y {
      var i :| 0 <= i < |p| && p[i] == x;
      var j :| 0 <= j < |q| && q[j] == y;
      assert (p + q)[i] != (p + q)[|p| + j];
    }
  }

  lemma IsPartsBelow(f: seq<FeeFrac>, d: seq<set<nat>>, gp: seq<nat>, r: FeeFrac)
    requires forall s :: LowerPart(d, Elems(gp), s) && s != Elems(gp) ==> Gain(SetRate(f, s), r) <= 0
    ensures PartsBelow(f, d, gp, r)
  {}

  lemma PartOfBest(f: seq<FeeFrac>, d: seq<set<nat>>, gp: seq<nat>, s: set<nat>)
    requires Best(f, d, gp) && LowerPart(d, Elems(gp), s)
    ensures Gain(SetRate(f, s), SeqRate(f, gp)) <= 0
  {}

  lemma PartOfBelow(f: seq<FeeFrac>, d: seq<set<nat>>, gp: seq<nat>, s: set<nat>, r: FeeFrac)
    requires PartsBelow(f, d, gp, r) && LowerPart(d, Elems(gp), s) && s != Elems(gp)
    ensures Gain(SetRate(f, s), r) <= 0
  {}

  /** A part that is not the whole does not have the last transaction. */
  lemma PartsOfMerge(d: seq<set<nat>>, p: seq<nat>, q: seq<nat>, s: set<nat>)
    requires Rooted(d, p + q) && q != [] && LowerPart(d, Elems(p + q), s) && s != Elems(p + q)
    ensures LowerPart(d, Elems(p), s * Elems(p)) && LowerPart(d, Elems(q), s * Elems(q)) && s * Elems(q) != Elems(q)
    ensures s <= Elems(p) + Elems(q)
  {
    ElemsConcat(p, q);
    var x := Last(q);
    assert x in Elems(q) && x == Last(p + q);
    assert x in s ==> Elems(p + q) <= s;
  }

  lemma BelowOwnRate(f: seq<FeeFrac>, d: seq<set<nat>>, gp: seq<nat>)
    requires PartsBelow(f, d, gp, SeqRate(f, gp)) && Distinct(gp)
    ensures Best(f, d, gp)
  {
    hide Gain, SeqRate, SetRate, LowerPart;
    SeqRateSet(f, gp);
    GainSelf(SeqRate(f, gp));
  }

  // ---------------------------------------------------------------- optimal groups

  /** Part of a group against a line: not above the group where the group is above, and below where it is below. */
  lemma PartGain(f: seq<FeeFrac>, gp: set<nat>, s: set<nat>, r: FeeFrac)
    requires s <= gp && Positive(f, gp) && gp != {} && r.size > 0 && Gain(SetRate(f, s), SetRate(f, gp)) <= 0
    ensures Gain(SetRate(f, gp), r) >= 0 ==> Gain(SetRate(f, s), r) <= Gain(SetRate(f, gp), r)
    ensures Gain(SetRate(f, gp), r) <= 0 ==> Gain(SetRate(f, s), r) <= 0
  {
    hide Gain, SetRate;
    var S, R, C := SetRate(f, s), SetRate(f, gp - s), SetRate(f, gp);
    assert gp == s + (gp - s);
    SetRateUnion(f, s, gp - s);
    SetRatePositive(f, s);
    SetRatePositive(f, gp - s);
    SetRatePositive(f, gp);
    GainPlus(S, R, r);
    GainPlus(S, R, C);
    GainSelf(C);
    GainSelf(r);
    SetRateSingleton(f, 0);
    if gp - s != {} { GainTransitive(R, C, r); }
    if s != {} { GainSwap(C, S); GainTransitive(C, S, r); }
  }

  /** Within every group, t does not have a higher feerate than the group. */
  ghost predicate Fits(f: seq<FeeFrac>, groups: seq<seq<nat>>, t: set<nat>) {
    forall k :: 0 <= k < |groups| ==> Gain(SetRate(f, t * Elems(groups[k])), SeqRate(f, groups[k])) <= 0
  }

  ghost predicate Separate(f: seq<FeeFrac>, groups: seq<seq<nat>>) {
    && Distinct(Flatten(groups)) && Positive(f, Elems(Flatten(groups)))
    && forall k :: 0 <= k < |groups| ==> groups[k] != []
  }

  lemma FirstGroup(f: seq<FeeFrac>, groups: seq<seq<nat>>, t: set<nat>, r: FeeFrac)
    requires Separate(f, groups) && groups != [] && Sorted(f, groups) && Fits(f, groups, t) && r.size > 0
    ensures Separate(f, groups[1..]) && Sorted(f, groups[1..]) && Fits(f, groups[1..], t)
    ensures Gain(SetRate(f, t * Elems(Flatten(groups))), r)
         == Gain(SetRate(f, t * Elems(groups[0])), r) + Gain(SetRate(f, t * Elems(Flatten(groups[1..]))), r)
    ensures Gain(SeqRate(f, groups[0]), r) >= 0 ==> Gain(SetRate(f, t * Elems(groups[0])), r) <= Gain(SeqRate(f, groups[0]), r)
    ensures Gain(SeqRate(f, groups[0]), r) <= 0 ==> Gain(SetRate(f, t * Elems(groups[0])), r) <= 0
  {
    hide Gain, SetRate, SeqRate, Sorted;
    var gp, rest := groups[0], Flatten(groups[1..]);
    assert Flatten(groups) == gp + rest;
    ElemsConcat(gp, rest);
    DisjointParts(gp, rest);
    GroupWithin(groups, 0);
    assert t * Elems(gp + rest) == t * Elems(gp) + t * Elems(rest);
    SetRateUnion(f, t * Elems(gp), t * Elems(rest));
    GainPlus(SetRate(f, t * Elems(gp)), SetRate(f, t * Elems(rest)), r);
    SeqRateSet(f, gp);
    assert gp[0] in Elems(gp);
    PartGain(f, Elems(gp), t * Elems(gp), r);
    TailSorted(f, groups);
    TailDistinct(gp, rest);
    assert forall k :: 0 <= k < |groups[1..]| ==> groups[1..][k] == groups[k + 1];
  }

  lemma TailSorted(f: seq<FeeFrac>, groups: seq<seq<nat>>)
    requires Sorted(f, groups) && groups != []
    ensures Sorted(f, groups[1..])
  {
    hide NotAbove;
  }

  lemma TailDistinct(a: seq<nat>, b: seq<nat>)
    requires Distinct(a + b)
    ensures Distinct(b)
  {
    forall i, j | 0 <= i < j < |b| ensures b[i] != b[j] { assert (a + b)[|a| + i] != (a + b)[|a| + j]; }
  }

  lemma {:induction false} NothingAbove(f: seq<FeeFrac>, groups: seq<seq<nat>>, t: set<nat>, r: FeeFrac)
    requires Separate(f, groups) && Sorted(f, groups) && Fits(f, groups, t) && r.size > 0
    requires groups != [] ==> Gain(SeqRate(f, groups[0]), r) <= 0
    ensures Gain(SetRate(f, t * Elems(Flatten(groups))), r) <= 0
    decreases |groups|
  {
    hide Gain, SetRate, SeqRate, Sorted, Fits, Separate, Elems;
    if groups == [] {
      assert Elems([]) == {} by { NoElems(); }
      assert t * {} == {};
      SetRateSingleton(f, 0);
      GainSelf(r);
    } else {
      FirstGroup(f, groups, t, r);
      if |groups| > 1 { SecondBelow(f, groups, r); }
      NothingAbove(f, groups[1..], t, r);
    }
  }

  lemma NoElems()
    ensures Elems([]) == {}
  {}

  lemma SecondBelow(f: seq<FeeFrac>, groups: seq<seq<nat>>, r: FeeFrac)
    requires Separate(f, groups) && Sorted(f, groups) && |groups| > 1 && r.size > 0 && Gain(SeqRate(f, groups[0]), r) <= 0
    ensures Gain(SeqRate(f, groups[1]), r) <= 0
  {
    hide Gain, SeqRate, Flatten;
    GroupWithin(groups, 0);
    GroupWithin(groups, 1);
    SeqRatePositive(f, groups[0]);
    SeqRatePositive(f, groups[1]);
    assert NotAbove(f, groups[1], groups[0]);
    GainSwap(SeqRate(f, groups[0]), SeqRate(f, groups[1]));
    GainTransitive(SeqRate(f, groups[0]), SeqRate(f, groups[1]), r);
  }

  /** Against every line, the groups above it have together at least what t has above it. */
  lemma {:induction false} Covered(f: seq<FeeFrac>, groups: seq<seq<nat>>, t: set<nat>, r: FeeFrac)
    requires Separate(f, groups) && Sorted(f, groups) && Fits(f, groups, t) && r.size > 0
    ensures Reaches(f, Flatten(groups), r, Gain(SetRate(f, t * Elems(Flatten(groups))), r))
    decreases |groups|
  {
    hide Gain, SetRate, SeqRate, Sorted, Fits, Separate, Elems;
    var v := Gain(SetRate(f, t * Elems(Flatten(groups))), r);
    if groups == [] || Gain(SeqRate(f, groups[0]), r) <= 0 {
      NothingAbove(f, groups, t, r);
      EmptyPrefix(f, Flatten(groups), r);
      assert PrefixGain(f, Flatten(groups), 0, r) >= v;
    } else {
      var gp, rest := groups[0], Flatten(groups[1..]);
      FirstGroup(f, groups, t, r);
      Covered(f, groups[1..], t, r);
      var w := Gain(SetRate(f, t * Elems(rest)), r);
      var n: nat :| n <= |rest| && PrefixGain(f, rest, n, r) >= w;
      assert Flatten(groups) == gp + rest;
      PrefixGainConcat(f, gp, rest, n, r);
      assert PrefixGain(f, Flatten(groups), |gp| + n, r) >= v;
    }
  }

  ghost predicate AllBest(f: seq<FeeFrac>, d: seq<set<nat>>, groups: seq<seq<nat>>) {
    forall k :: 0 <= k < |groups| ==> Rooted(d, groups[k]) && Best(f, d, groups[k])
  }

  /** If no group can be improved, the groups in order of their feerate are nowhere worse than any other order. */
  lemma BestIsOptimal(f: seq<FeeFrac>, d: seq<set<nat>>, groups: seq<seq<nat>>, m: seq<nat>)
    requires GroupsOk(f, d, groups) && Sorted(f, groups) && AllBest(f, d, groups)
    requires Distinct(m) && DepOrder(d, m) && Elems(m) == Elems(Flatten(groups))
    ensures NoWorse(f, Flatten(groups), m)
  {
    hide Gain, SetRate, SeqRate, Sorted, Best, LowerPart, Rooted, GroupsOk;
    AreSeparate(f, d, groups);
    forall r: FeeFrac, k: nat | r.size > 0 && k <= |m| ensures Reaches(f, Flatten(groups), r, PrefixGain(f, m, k, r)) {
      var t := Elems(m[..k]);
      forall i | 0 <= i < |groups| ensures Gain(SetRate(f, t * Elems(groups[i])), SeqRate(f, groups[i])) <= 0 {
        GroupWithin(groups, i);
        PrefixLower(d, m, k, Elems(groups[i]));
        PartOfBest(f, d, groups[i], t * Elems(groups[i]));
      }
      Covered(f, groups, t, r);
      assert t * Elems(Flatten(groups)) == t;
      assert Distinct(m[..k]);
      SeqRateSet(f, m[..k]);
    }
  }

  lemma AreSeparate(f: seq<FeeFrac>, d: seq<set<nat>>, groups: seq<seq<nat>>)
    requires GroupsOk(f, d, groups)
    ensures Separate(f, groups)
  {
    assert forall k :: 0 <= k < |groups| ==> Tight(f, groups[k]);
  }

  lemma DependsBackwards(d: seq<set<nat>>, m: seq<nat>, i: nat, j: nat)
    requires DepOrder(d, m) && i < |m| && j < |m| && m[j] in DepsOf(d, m[i])
    ensures j <= i
  {}

  lemma PrefixLower(d: seq<set<nat>>, m: seq<nat>, k: nat, gp: set<nat>)
    requires DepOrder(d, m) && k <= |m| && gp <= Elems(m)
    ensures LowerPart(d, gp, Elems(m[..k]) * gp)
  {
    var t := Elems(m[..k]);
    forall x, y | x in t * gp && y in gp && y in DepsOf(d, x) ensures y in t * gp {
      var i :| 0 <= i < k && m[i] == x;
      assert y in Elems(m);
      var j :| 0 <= j < |m| && m[j] == y;
      DependsBackwards(d, m, i, j);
      assert m[..k][j] == y;
    }
  }

  // ---------------------------------------------------------------- the cycle

  /** What the groups are between cycles. */
  ghost predicate Settled(f: seq<FeeFrac>, d: seq<set<nat>>, groups: seq<seq<nat>>, u: set<nat>) {
    Sorted(f, groups) && AllJoined(d, groups) && (TreeDeps(d, u) ==> AllBest(f, d, groups))
  }

  /** What they are while group c moves: its parts lie below all groups in front of it. */
  ghost predicate Settling(f: seq<FeeFrac>, d: seq<set<nat>>, groups: seq<seq<nat>>, c: nat, u: set<nat>) {
    && Moving(f, groups, c) && AllJoined(d, groups)
    && (TreeDeps(d, u) ==> AllBest(f, d, groups) && ClearsFront(f, d, groups, c))
  }

  ghost predicate ClearsFront(f: seq<FeeFrac>, d: seq<set<nat>>, groups: seq<seq<nat>>, c: nat)
    requires c < |groups|
  {
    forall i :: 0 <= i < c ==> PartsBelow(f, d, groups[c], SeqRate(f, groups[i]))
  }

  lemma SettleStart(f: seq<FeeFrac>, d: seq<set<nat>>, groups: seq<seq<nat>>, x: nat, u: set<nat>)
    requires Settled(f, d, groups, u) && x in u
    ensures Settling(f, d, groups + [[x]], |groups|, u)
  {
    hide Sorted, Moving, Joined, Rooted, Best, PartsBelow, SeqRate;
    MovingStart(f, groups, x);
    JoinedOne(d, x);
    if TreeDeps(d, u) {
      forall i | 0 <= i < |groups| ensures PartsBelow(f, d, [x], SeqRate(f, groups[i])) { BestOne(f, d, x, SeqRate(f, groups[i])); }
      BestOne(f, d, x, EMPTY);
    }
  }

  lemma SettleMerge(f: seq<FeeFrac>, d: seq<set<nat>>, groups: seq<seq<nat>>, c: nat, u: set<nat>)
    requires GroupsOk(f, d, groups) && Settling(f, d, groups, c, u) && 0 < c && Elems(Flatten(groups)) <= u
    requires Gain(SeqRate(f, groups[c]), SeqRate(f, groups[c - 1])) > 0
    requires GroupDeps(d, groups[c]) * Elems(groups[c - 1]) != {}
    ensures Settling(f, d, MergeAt(groups, c), c - 1, u)
  {
    hide Moving, Joined, TreeDeps, Rooted, Best, PartsBelow, SeqRate, Gain, GroupsOk, MergeAt, GroupDeps, Elems, Flatten;
    MovingInRange(f, groups, c);
    var p, q, groups' := groups[c - 1], groups[c], MergeAt(groups, c);
    MovingMerge(f, d, groups, c);
    var y :| y in GroupDeps(d, q) * Elems(p);
    var x := GroupDepsFrom(d, q, y);
    InElems(q, x);
    MergeLength(groups, c);
    ElemsConcat(p, q);
    JoinedMerge(d, Elems(p), Elems(q), x, y);
    forall k | 0 <= k < |groups'| ensures Joined(d, Elems(groups'[k])) { MergeIndex(groups, c, k); }
    if TreeDeps(d, u) {
      MergeTree(f, d, groups, c, u, x, y);
      forall k | 0 <= k < |groups'| ensures Rooted(d, groups'[k]) && Best(f, d, groups'[k]) { MergeIndex(groups, c, k); }
      MergeIndex(groups, c, c - 1);
      forall i | 0 <= i < c - 1 ensures PartsBelow(f, d, groups'[c - 1], SeqRate(f, groups'[i])) {
        MergeIndex(groups, c, i);
        FrontSteeper(f, d, groups, c, i);
      }
    }
  }

  lemma InElems(q: seq<nat>, x: nat)
    requires x in q
    ensures x in Elems(q)
  {}

  lemma MergeTree(f: seq<FeeFrac>, d: seq<set<nat>>, groups: seq<seq<nat>>, c: nat, u: set<nat>, x: nat, y: nat)
    requires GroupsOk(f, d, groups) && TreeDeps(d, u) && AllBest(f, d, groups) && 0 < c < |groups| && ClearsFront(f, d, groups, c)
    requires Elems(Flatten(groups)) <= u && Gain(SeqRate(f, groups[c]), SeqRate(f, groups[c - 1])) > 0
    requires x in Elems(groups[c]) && y in Elems(groups[c - 1]) && y in DepsOf(d, x)
    ensures var m := groups[c - 1] + groups[c];
            Rooted(d, m) && Best(f, d, m) && PartsBelow(f, d, m, SeqRate(f, groups[c - 1])) && Positive(f, Elems(m))
  {
    hide TreeDeps, Rooted, Best, PartsBelow, SeqRate, Gain, Elems, Flatten, Distinct, DepOrder;
    var p, q := groups[c - 1], groups[c];
    GroupSize(f, d, groups, c - 1);
    GroupSize(f, d, groups, c);
    AdjacentGroups(d, groups, c);
    RootedMerge(d, u, p, q, x, y);
    ElemsConcat(p, q);
    BestMerge(f, d, p, q);
  }

  lemma AdjacentGroups(d: seq<set<nat>>, groups: seq<seq<nat>>, c: nat)
    requires Distinct(Flatten(groups)) && DepOrder(d, Flatten(groups)) && 0 < c < |groups| && groups[c - 1] != [] && groups[c] != []
    ensures Distinct(groups[c - 1] + groups[c]) && Last(groups[c]) !in DepsOf(d, Last(groups[c - 1]))
  {
    hide Flatten, Distinct, DepOrder;
    FlattenAround(groups, c);
    AdjacentParts(d, Flatten(groups[..c - 1]), groups[c - 1], groups[c], Flatten(groups[c + 1..]));
  }

  lemma AdjacentParts(d: seq<set<nat>>, a: seq<nat>, p: seq<nat>, q: seq<nat>, b: seq<nat>)
    requires Distinct(a + (p + q + b)) && DepOrder(d, a + (p + q + b)) && p != [] && q != []
    ensures Distinct(p + q) && Last(q) !in DepsOf(d, Last(p))
  {
    var l := a + (p + q + b);
    forall i, j | 0 <= i < j < |p + q| ensures (p + q)[i] != (p + q)[j] {
      assert l[|a| + i] == (p + q)[i] && l[|a| + j] == (p + q)[j];
    }
    assert l[|a| + |p| - 1] == Last(p) && l[|a| + |p| + |q| - 1] == Last(q);
  }

  lemma FrontSteeper(f: seq<FeeFrac>, d: seq<set<nat>>, groups: seq<seq<nat>>, c: nat, i: nat)
    requires GroupsOk(f, d, groups) && Moving(f, groups, c) && i < c - 1
    requires Positive(f, Elems(groups[c - 1] + groups[c]))
    requires PartsBelow(f, d, groups[c - 1] + groups[c], SeqRate(f, groups[c - 1]))
    ensures PartsBelow(f, d, groups[c - 1] + groups[c], SeqRate(f, groups[i]))
  {
    hide PartsBelow, SeqRate, Gain, GroupsOk;
    GroupSize(f, d, groups, c - 1);
    GroupSize(f, d, groups, i);
    assert NotAbove(f, groups[c - 1], groups[i]);
    GainSwap(SeqRate(f, groups[i]), SeqRate(f, groups[c - 1]));
    PartsBelowSteeper(f, d, groups[c - 1] + groups[c], SeqRate(f, groups[c - 1]), SeqRate(f, groups[i]));
  }

  lemma SettleSwap(f: seq<FeeFrac>, d: seq<set<nat>>, groups: seq<seq<nat>>, c: nat, u: set<nat>)
    requires Settling(f, d, groups, c, u) && 0 < c && Gain(SeqRate(f, groups[c]), SeqRate(f, groups[c - 1])) > 0
    ensures Settling(f, d, SwapAt(groups, c), c - 1, u)
  {
    hide Moving, Joined, TreeDeps, Rooted, Best, PartsBelow, SeqRate, Gain;
    assert c < |groups| by { MovingInRange(f, groups, c); }
    MovingSwap(f, groups, c);
    var groups' := SwapAt(groups, c);
    forall k | 0 <= k < |groups'| ensures Joined(d, Elems(groups'[k])) {
      var k' := if k == c then c - 1 else if k == c - 1 then c else k;
      assert groups'[k] == groups[k'];
    }
    if TreeDeps(d, u) {
      forall k | 0 <= k < |groups'| ensures Rooted(d, groups'[k]) && Best(f, d, groups'[k]) {
        var k' := if k == c then c - 1 else if k == c - 1 then c else k;
        assert groups'[k] == groups[k'];
      }
    }
  }

  lemma MovingInRange(f: seq<FeeFrac>, groups: seq<seq<nat>>, c: nat)
    requires Moving(f, groups, c)
    ensures c < |groups|
  {}

  lemma SettleDone(f: seq<FeeFrac>, d: seq<set<nat>>, groups: seq<seq<nat>>, c: nat, u: set<nat>)
    requires GroupsOk(f, d, groups) && Settling(f, d, groups, c, u) && (c > 0 ==> NotAbove(f, groups[c], groups[c - 1]))
    ensures Settled(f, d, groups, u)
  {
    hide GroupsOk, Moving, Sorted, AllJoined, TreeDeps, AllBest, NotAbove;
    MovingDone(f, d, groups, c);
  }
}
