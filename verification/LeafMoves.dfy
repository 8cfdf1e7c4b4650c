// A transaction that was moved to the end of a linearization: the backward pass of PostLinearize, which sees it
// first, makes up for the move.
module LeafMoves {
  import opened Sets
  import opened FeeFracs
  import opened Diagrams
  import opened PostLinearizing
  import opened GroupShapes

  // ---------------------------------------------------------------- common suffixes

  /** Improving what precedes a common suffix improves the whole, if the totals agree. */
  lemma NoWorseBefore(f: seq<FeeFrac>, a: seq<nat>, b: seq<nat>, rest: seq<nat>)
    requires NoWorse(f, a, b) && SeqRate(f, a) == SeqRate(f, b)
    ensures NoWorse(f, a + rest, b + rest)
  {
    hide Gain, SeqRate, Reaches, PrefixGain;
    var a', b' := a + rest, b + rest;
    forall r: FeeFrac, k: nat | r.size > 0 && k <= |b'| ensures Reaches(f, a', r, PrefixGain(f, b', k, r)) {
      if k <= |b| { ReachesPart(f, a, b, rest, k, r); } else { ReachesAll(f, a, b, rest, k - |b|, r); }
    }
  }

  lemma ReachesPart(f: seq<FeeFrac>, a: seq<nat>, b: seq<nat>, rest: seq<nat>, k: nat, r: FeeFrac)
    requires NoWorse(f, a, b) && r.size > 0 && k <= |b|
    ensures Reaches(f, a + rest, r, PrefixGain(f, b + rest, k, r))
  {
    hide PrefixGain;
    var v := PrefixGain(f, b, k, r);
    assert Reaches(f, a, r, v);
    var n: nat :| n <= |a| && PrefixGain(f, a, n, r) >= v;
    PrefixOfPrefix(f, a, rest, n, r);
    PrefixOfPrefix(f, b, rest, k, r);
    assert PrefixGain(f, a + rest, n, r) >= v;
  }

  lemma PrefixOfPrefix(f: seq<FeeFrac>, a: seq<nat>, rest: seq<nat>, n: nat, r: FeeFrac)
    requires n <= |a|
    ensures PrefixGain(f, a + rest, n, r) == PrefixGain(f, a, n, r)
  {
    assert (a + rest)[..n] == a[..n];
  }

  lemma ReachesAll(f: seq<FeeFrac>, a: seq<nat>, b: seq<nat>, rest: seq<nat>, k: nat, r: FeeFrac)
    requires SeqRate(f, a) == SeqRate(f, b) && k <= |rest|
    ensures Reaches(f, a + rest, r, PrefixGain(f, b + rest, |b| + k, r))
  {
    hide Gain, SeqRate, PrefixGain;
    PrefixGainConcat(f, a, rest, k, r);
    PrefixGainConcat(f, b, rest, k, r);
    assert PrefixGain(f, a + rest, |a| + k, r) >= PrefixGain(f, b + rest, |b| + k, r);
  }

  lemma SameRate(f: seq<FeeFrac>, a: seq<nat>, b: seq<nat>)
    requires Distinct(a) && Distinct(b) && Elems(a) == Elems(b)
    ensures SeqRate(f, a) == SeqRate(f, b)
  {
    hide SeqRate, SetRate;
    SeqRateSet(f, a);
    SeqRateSet(f, b);
  }

  // ---------------------------------------------------------------- a transaction nothing depends on

  ghost predicate Independent(d: seq<set<nat>>, t: nat, w: seq<nat>) {
    forall x :: x in w ==> x != t && t !in DepsOf(d, x)
  }

  /** t is a group of its own, in which no other group has a part. */
  ghost predicate Alone(groups: seq<seq<nat>>, t: nat) {
    [t] in groups && forall gp :: gp in groups && t in gp ==> gp == [t]
  }

  /** t is alone, and without it the groups are nowhere worse than w. */
  ghost predicate Aside(f: seq<FeeFrac>, groups: seq<seq<nat>>, t: nat, w: seq<nat>) {
    Alone(groups, t) && NoWorse(f, Keep(Flatten(groups), Elems(w)), w)
  }

  /** The transactions in the groups are t and those of w. */
  ghost predicate Consists(groups: seq<seq<nat>>, t: nat, w: seq<nat>) {
    Elems(Flatten(groups)) == Elems(w) + {t} && Distinct(w) && t !in Elems(w)
  }

  lemma AsideStart(f: seq<FeeFrac>, t: nat)
    ensures Aside(f, [[t]], t, []) && Consists([[t]], t, [])
  {
    assert Flatten([[t]]) == [t] by { FlattenCons([t], []); assert [[t]] + [] == [[t]]; }
    KeepNone([t], {});
    NoWorseRefl(f, []);
    assert Elems([]) == {};
    assert Elems([t]) == {t};
  }

  lemma AsideAppend(f: seq<FeeFrac>, d: seq<set<nat>>, groups: seq<seq<nat>>, t: nat, w: seq<nat>, x: nat)
    requires GroupsOk(f, d, groups) && Aside(f, groups, t, w) && Consists(groups, t, w) && x !in Elems(Flatten(groups))
    ensures Aside(f, groups + [[x]], t, w + [x]) && Consists(groups + [[x]], t, w + [x])
  {
    hide NoWorse, GroupsOk, Flatten, Keep;
    var l := Flatten(groups);
    AppendConsists(groups, t, w, x);
    FlattenConcat(groups, [[x]]);
    assert Flatten([[x]]) == [x] by { FlattenCons([x], []); assert [[x]] + [] == [[x]]; NothingFlat(); }
    ElemsConcat(w, [x]);
    KeepConcat(l, [x], Elems(w + [x]));
    KeepAll([x], Elems(w + [x]));
    KeepSame(l, Elems(w), Elems(w + [x]));
    KeptRate(f, d, groups, t, w);
    NoWorseBefore(f, Keep(l, Elems(w)), w, [x]);
  }

  lemma NothingFlat()
    ensures Flatten([]) == []
  {}

  lemma {:induction false} KeepSame(l: seq<nat>, s: set<nat>, s': set<nat>)
    requires forall x :: x in l ==> (x in s <==> x in s')
    ensures Keep(l, s) == Keep(l, s')
  {
    if l != [] { KeepSame(l[1..], s, s'); }
  }

  lemma KeptRate(f: seq<FeeFrac>, d: seq<set<nat>>, groups: seq<seq<nat>>, t: nat, w: seq<nat>)
    requires GroupsOk(f, d, groups) && Consists(groups, t, w)
    ensures SeqRate(f, Keep(Flatten(groups), Elems(w))) == SeqRate(f, w)
  {
    hide SeqRate, Keep, Flatten;
    var l := Flatten(groups);
    KeepProps(l, Elems(w));
    assert Elems(l) * Elems(w) == Elems(w);
    SameRate(f, Keep(l, Elems(w)), w);
  }

  lemma AsideMerge(f: seq<FeeFrac>, d: seq<set<nat>>, groups: seq<seq<nat>>, c: nat, t: nat, w: seq<nat>)
    requires Aside(f, groups, t, w) && Consists(groups, t, w) && Independent(d, t, w) && 0 < c < |groups| && t !in groups[c]
    requires GroupDeps(d, groups[c]) * Elems(groups[c - 1]) != {}
    ensures Aside(f, MergeAt(groups, c), t, w) && t !in groups[c - 1] + groups[c]
  {
    hide NoWorse, Keep, Flatten;
    FlattenAround(groups, c);
    var y :| y in GroupDeps(d, groups[c]) * Elems(groups[c - 1]);
    var x := GroupDepsFrom(d, groups[c], y);
    GroupWithin(groups, c);
    assert x in Elems(groups[c]) && x in Elems(w);
    assert groups[c - 1] in groups;
    assert groups[c - 1] != [t];
    MergeAlone(groups, c, t);
  }

  lemma MergeAlone(groups: seq<seq<nat>>, c: nat, t: nat)
    requires Alone(groups, t) && 0 < c < |groups| && t !in groups[c - 1] && t !in groups[c]
    ensures Alone(MergeAt(groups, c), t)
  {
    hide MergeAt;
    MergeLength(groups, c);
    var groups' := MergeAt(groups, c);
    var k :| 0 <= k < |groups| && groups[k] == [t];
    var k' := if k < c - 1 then k else k - 1;
    MergeIndex(groups, c, k');
    assert groups'[k'] == [t];
    forall gp | gp in groups' && t in gp ensures gp == [t] {
      var i :| 0 <= i < |groups'| && groups'[i] == gp;
      MergeIndex(groups, c, i);
      assert i != c - 1;
      assert gp in groups;
    }
  }

  lemma AsideSwap(f: seq<FeeFrac>, d: seq<set<nat>>, groups: seq<seq<nat>>, c: nat, t: nat, w: seq<nat>)
    requires GroupsOk(f, d, groups) && Aside(f, groups, t, w) && Consists(groups, t, w) && 0 < c < |groups| && t !in groups[c]
    requires Gain(SeqRate(f, groups[c]), SeqRate(f, groups[c - 1])) > 0
    ensures Aside(f, SwapAt(groups, c), t, w)
  {
    hide NoWorse, Keep, Flatten, Gain, SeqRate, GroupsOk;
    SwapAlone(groups, c, t);
    FlattenAround(groups, c);
    var a, p, q, b := Flatten(groups[..c - 1]), groups[c - 1], groups[c], Flatten(groups[c + 1..]);
    var s := Elems(w);
    KeepAround(a, p, q, b, s);
    KeepAround(a, q, p, b, s);
    GroupSize(f, d, groups, c - 1);
    GroupSize(f, d, groups, c);
    assert Elems(q) <= s;
    KeepAll(q, s);
    if t in p {
      assert p in groups && p == [t];
      KeepNone([t], s);
      assert q + [] == [] + q;
    } else {
      assert Elems(p) <= s;
      KeepAll(p, s);
      GroupTight(f, d, groups, c - 1);
      GroupTight(f, d, groups, c);
      SwapNoWorse(f, p, q, Keep(b, s));
      NoWorseAfter(f, Keep(a, s), q + p + Keep(b, s), p + q + Keep(b, s));
      NoWorseTrans(f, Keep(Flatten(SwapAt(groups, c)), s), Keep(Flatten(groups), s), w);
    }
  }

  lemma GroupTight(f: seq<FeeFrac>, d: seq<set<nat>>, groups: seq<seq<nat>>, k: nat)
    requires GroupsOk(f, d, groups) && k < |groups|
    ensures Tight(f, groups[k])
  {}

  lemma KeepAround(a: seq<nat>, p: seq<nat>, q: seq<nat>, b: seq<nat>, s: set<nat>)
    ensures Keep(a + (p + q + b), s) == Keep(a, s) + (Keep(p, s) + Keep(q, s) + Keep(b, s))
  {
    hide Keep;
    KeepConcat(a, p + q + b, s);
    KeepConcat(p + q, b, s);
    KeepConcat(p, q, s);
  }

  lemma SwapAlone(groups: seq<seq<nat>>, c: nat, t: nat)
    requires Alone(groups, t) && 0 < c < |groups|
    ensures Alone(SwapAt(groups, c), t)
  {
    var groups' := SwapAt(groups, c);
    var k :| 0 <= k < |groups| && groups[k] == [t];
    var k' := if k == c then c - 1 else if k == c - 1 then c else k;
    assert groups'[k'] == [t];
    forall gp | gp in groups' ensures gp in groups {
      var i :| 0 <= i < |groups'| && groups'[i] == gp;
      var i' := if i == c then c - 1 else if i == c - 1 then c else i;
      assert groups[i'] == gp;
    }
  }

  // ---------------------------------------------------------------- putting it back

  /** A group may be moved in front of groups that do not have a higher feerate. */
  lemma {:induction false} MoveBefore(f: seq<FeeFrac>, q: seq<nat>, groups: seq<seq<nat>>)
    requires Tight(f, q) && Positive(f, Elems(q)) && Positive(f, Elems(Flatten(groups)))
    requires forall k :: 0 <= k < |groups| ==> Tight(f, groups[k]) && NotAbove(f, groups[k], q)
    ensures NoWorse(f, q + Flatten(groups), Flatten(groups) + q)
    decreases |groups|
  {
    hide NoWorse, Tight, NotAbove, Elems, SeqRate;
    if groups == [] {
      assert q + Flatten(groups) == q && Flatten(groups) + q == q;
      NoWorseRefl(f, q);
    } else {
      var p, rest := groups[0], Flatten(groups[1..]);
      assert Flatten(groups) == p + rest;
      ElemsConcat(p, rest);
      MoveBefore(f, q, groups[1..]);
      NoWorseAfter(f, p, q + rest, rest + q);
      FrontSwap(f, p, q, rest);
      Assoc(p, q, rest);
      Assoc(q, p, rest);
      Assoc(p, rest, q);
      NoWorseTrans(f, q + Flatten(groups), p + (q + rest), Flatten(groups) + q);
    }
  }

  lemma FrontSwap(f: seq<FeeFrac>, p: seq<nat>, q: seq<nat>, rest: seq<nat>)
    requires Tight(f, p) && Tight(f, q) && Positive(f, Elems(p)) && Positive(f, Elems(q)) && NotAbove(f, p, q)
    ensures NoWorse(f, q + p + rest, p + q + rest)
  {
    hide NoWorse, Tight, Elems, SeqRate;
    GainSwap(SeqRate(f, q), SeqRate(f, p));
    SwapNoWorse(f, p, q, rest);
  }

  /** The groups are nowhere worse than w with t behind it. */
  lemma MovedHere(f: seq<FeeFrac>, d: seq<set<nat>>, groups: seq<seq<nat>>, t: nat, w: seq<nat>)
    requires GroupsOk(f, d, groups) && Sorted(f, groups) && Aside(f, groups, t, w) && Consists(groups, t, w)
    ensures NoWorse(f, Flatten(groups), w + [t])
  {
    hide NoWorse, Keep, Flatten, SeqRate, GroupsOk, NotAbove;
    var k :| 0 <= k < |groups| && groups[k] == [t];
    var a, b, s := Flatten(groups[..k]), Flatten(groups[k + 1..]), Elems(w);
    SplitAtGroup(f, d, groups, k);
    assert Flatten(groups) == a + ([t] + b);
    KeptParts(groups, k, t, w);
    GroupTight(f, d, groups, k);
    var behind := groups[k + 1..];
    forall i | 0 <= i < |behind| ensures Tight(f, behind[i]) && NotAbove(f, behind[i], [t]) {
      GroupTight(f, d, groups, k + 1 + i);
      assert NotAbove(f, groups[k + 1 + i], groups[k]);
    }
    MoveBefore(f, [t], behind);
    NoWorseAfter(f, a, [t] + b, b + [t]);
    KeptRate(f, d, groups, t, w);
    NoWorseBefore(f, a + b, w, [t]);
    Assoc(a, b, [t]);
    NoWorseTrans(f, a + ([t] + b), a + (b + [t]), w + [t]);
  }

  lemma SplitAtGroup(f: seq<FeeFrac>, d: seq<set<nat>>, groups: seq<seq<nat>>, k: nat)
    requires k < |groups| && GroupsOk(f, d, groups)
    ensures Flatten(groups) == Flatten(groups[..k]) + (groups[k] + Flatten(groups[k + 1..]))
    ensures Positive(f, Elems(groups[k])) && Positive(f, Elems(Flatten(groups[k + 1..]))) && Distinct(Flatten(groups))
  {
    hide Flatten, Tight, DepOrder, Distinct;
    assert groups == groups[..k] + ([groups[k]] + groups[k + 1..]);
    FlattenConcat(groups[..k], [groups[k]] + groups[k + 1..]);
    FlattenCons(groups[k], groups[k + 1..]);
    ElemsConcat(Flatten(groups[..k]), groups[k] + Flatten(groups[k + 1..]));
    ElemsConcat(groups[k], Flatten(groups[k + 1..]));
  }

  lemma KeptParts(groups: seq<seq<nat>>, k: nat, t: nat, w: seq<nat>)
    requires k < |groups| && groups[k] == [t] && Consists(groups, t, w) && Distinct(Flatten(groups))
    requires Flatten(groups) == Flatten(groups[..k]) + ([t] + Flatten(groups[k + 1..]))
    ensures Keep(Flatten(groups), Elems(w)) == Flatten(groups[..k]) + Flatten(groups[k + 1..])
  {
    hide Keep, Flatten;
    var a, b, s := Flatten(groups[..k]), Flatten(groups[k + 1..]), Elems(w);
    DisjointParts(a, [t] + b);
    TailDistinct(a, [t] + b);
    DisjointParts([t], b);
    ElemsConcat(a, [t] + b);
    ElemsConcat([t], b);
    assert t in Elems([t]);
    KeepConcat(a, [t] + b, s);
    KeepConcat([t], b, s);
    assert Elems([t]) == {t};
    KeepNone([t], s);
    KeepAll(a, s);
    KeepAll(b, s);
    assert [] + b == b;
  }

  // ---------------------------------------------------------------- a whole pass

  /** m with its first transaction moved to position j - 1. */
  function Moved(m: seq<nat>, j: nat): seq<nat>
    requires 1 <= j <= |m|
  {
    m[1..j] + [m[0]] + m[j..]
  }

  /** After i transactions: nowhere worse than m with its first transaction moved behind others that do not depend on it. */
  ghost predicate MakesUp(f: seq<FeeFrac>, d: seq<set<nat>>, l: seq<nat>, m: seq<nat>, i: nat)
    requires i <= |m|
  {
    forall j: nat :: 1 <= j <= i && Independent(d, m[0], m[1..j]) ==> NoWorse(f, l + m[i..], Moved(m, j))
  }

  lemma MakesUpMore(f: seq<FeeFrac>, d: seq<set<nat>>, l: seq<nat>, l': seq<nat>, m: seq<nat>, i: nat)
    requires i < |m| && MakesUp(f, d, l, m, i) && NoWorse(f, l' + m[i + 1..], l + [m[i]] + m[i + 1..])
    requires SeqRate(f, l') == SeqRate(f, m[1..i + 1] + [m[0]])
    requires Independent(d, m[0], m[1..i + 1]) ==> NoWorse(f, l', m[1..i + 1] + [m[0]])
    ensures MakesUp(f, d, l', m, i + 1)
  {
    hide NoWorse, Independent, SeqRate;
    assert l + [m[i]] + m[i + 1..] == l + m[i..];
    forall j: nat | 1 <= j <= i + 1 && Independent(d, m[0], m[1..j]) ensures NoWorse(f, l' + m[i + 1..], Moved(m, j)) {
      if j <= i {
        NoWorseTrans(f, l' + m[i + 1..], l + m[i..], Moved(m, j));
      } else {
        NoWorseBefore(f, l', m[1..i + 1] + [m[0]], m[i + 1..]);
      }
    }
  }

  // ---------------------------------------------------------------- the cycle

  /** What the groups are while group c moves, with the transactions t and those of w, all in u. */
  ghost predicate Shaping(f: seq<FeeFrac>, d: seq<set<nat>>, groups: seq<seq<nat>>, c: nat, u: set<nat>, t: nat, w: seq<nat>) {
    && c < |groups| && Settling(f, d, groups, c, u) && Consists(groups, t, w) && Elems(Flatten(groups)) <= u
    && (Independent(d, t, w) ==> Aside(f, groups, t, w) && (c > 0 ==> t !in groups[c]))
  }

  /** What they are between cycles. */
  ghost predicate Shaped(f: seq<FeeFrac>, d: seq<set<nat>>, groups: seq<seq<nat>>, u: set<nat>, t: nat, w: seq<nat>) {
    && Settled(f, d, groups, u) && Consists(groups, t, w) && Elems(Flatten(groups)) <= u
    && (Independent(d, t, w) ==> Aside(f, groups, t, w))
  }

  lemma ShapeMerge(f: seq<FeeFrac>, d: seq<set<nat>>, groups: seq<seq<nat>>, c: nat, u: set<nat>, t: nat, w: seq<nat>)
    requires GroupsOk(f, d, groups) && Shaping(f, d, groups, c, u, t, w) && 0 < c
    requires Gain(SeqRate(f, groups[c]), SeqRate(f, groups[c - 1])) > 0
    requires GroupDeps(d, groups[c]) * Elems(groups[c - 1]) != {}
    ensures Shaping(f, d, MergeAt(groups, c), c - 1, u, t, w)
  {
    hide GroupsOk, Settling, Independent, Aside, MergeAt, GroupDeps, Gain, SeqRate, Flatten, Elems;
    SettleMerge(f, d, groups, c, u);
    FlattenAround(groups, c);
    MergeLength(groups, c);
    MergeIndex(groups, c, c - 1);
    if Independent(d, t, w) { AsideMerge(f, d, groups, c, t, w); }
  }

  lemma ShapeSwap(f: seq<FeeFrac>, d: seq<set<nat>>, groups: seq<seq<nat>>, c: nat, u: set<nat>, t: nat, w: seq<nat>)
    requires GroupsOk(f, d, groups) && Shaping(f, d, groups, c, u, t, w) && 0 < c
    requires Gain(SeqRate(f, groups[c]), SeqRate(f, groups[c - 1])) > 0 && Elems(Flatten(SwapAt(groups, c))) == Elems(Flatten(groups))
    ensures Shaping(f, d, SwapAt(groups, c), c - 1, u, t, w)
  {
    hide GroupsOk, Settling, Independent, Aside, Gain, SeqRate, Flatten, Elems;
    SettleSwap(f, d, groups, c, u);
    if Independent(d, t, w) { AsideSwap(f, d, groups, c, t, w); }
  }

  lemma ShapeDone(f: seq<FeeFrac>, d: seq<set<nat>>, groups: seq<seq<nat>>, c: nat, u: set<nat>, t: nat, w: seq<nat>)
    requires GroupsOk(f, d, groups) && Shaping(f, d, groups, c, u, t, w) && (c > 0 ==> NotAbove(f, groups[c], groups[c - 1]))
    ensures Shaped(f, d, groups, u, t, w)
  {
    hide GroupsOk, Settling, Settled, Independent, Aside, NotAbove, Flatten, Elems;
    SettleDone(f, d, groups, c, u);
  }

  lemma ShapeFirst(f: seq<FeeFrac>, d: seq<set<nat>>, u: set<nat>, t: nat)
    requires t in u
    ensures Shaping(f, d, [] + [[t]], 0, u, t, [])
  {
    hide Settling, Aside, Flatten;
    AsideStart(f, t);
    SettleStart(f, d, [], t, u);
    assert [] + [[t]] == [[t]];
  }

  lemma ShapeAppend(f: seq<FeeFrac>, d: seq<set<nat>>, groups: seq<seq<nat>>, u: set<nat>, t: nat, w: seq<nat>, x: nat)
    requires GroupsOk(f, d, groups) && Shaped(f, d, groups, u, t, w) && x in u && x !in Elems(Flatten(groups))
    ensures Shaping(f, d, groups + [[x]], |groups|, u, t, w + [x])
  {
    hide GroupsOk, Settling, Settled, Aside, Flatten;
    SettleStart(f, d, groups, x, u);
    AppendConsists(groups, t, w, x);
    if Independent(d, t, w + [x]) {
      assert forall y :: y in w ==> y in w + [x];
      AsideAppend(f, d, groups, t, w, x);
    }
  }

  lemma AppendConsists(groups: seq<seq<nat>>, t: nat, w: seq<nat>, x: nat)
    requires Consists(groups, t, w) && x !in Elems(Flatten(groups))
    ensures Consists(groups + [[x]], t, w + [x]) && Elems(Flatten(groups + [[x]])) == Elems(Flatten(groups)) + {x}
  {
    hide Flatten;
    FlattenConcat(groups, [[x]]);
    assert Flatten([[x]]) == [x] by { FlattenCons([x], []); assert [[x]] + [] == [[x]]; NothingFlat(); }
    ElemsConcat(Flatten(groups), [x]);
    ElemsConcat(w, [x]);
    assert Elems([x]) == {x};
  }
}
