// Queries on dependency graphs, remapping, and repair of linearizations.
module GraphQueries {
  import opened Sets
  import opened FeeFracs
  import opened Diagrams
  import opened DepGraphs

  // ---------------------------------------------------------------- reduced parents

  ghost predicate Maximal(g: Graph, a: set<nat>, p: nat) {
    p in a && forall q :: q in a && p in g.Anc(q) ==> q == p
  }

  /** Every member of a is an ancestor of some member of ps. */
  ghost predicate Covers(g: Graph, a: set<nat>, ps: set<nat>) {
    forall x :: x in a ==> exists q :: q in ps && x in g.Anc(q)
  }

  /** No member of ps is an ancestor of another member below n. */
  ghost predicate Unrelated(g: Graph, ps: set<nat>, n: nat) {
    forall x, y :: x in ps && y in ps && y < n && x != y ==> x !in g.Anc(y)
  }

  /**
   * The parents of i inferred from the ancestor sets: together they have all proper ancestors of i,
   * and none of them is an ancestor of another.
   */
  method GetReducedParents(g: Graph, i: nat) returns (parents: set<nat>)
    requires WellFormed(g) && i in g.used
    ensures parents <= g.Anc(i) - {i} && Covers(g, g.Anc(i) - {i}, parents) && Unrelated(g, parents, |g.entries|)
    ensures Acyclic(g) ==> forall p :: p in parents <==> Maximal(g, g.Anc(i) - {i}, p)
  {
    hide WellFormed, Acyclic, Maximal, Covers, Unrelated;
    parents := g.Anc(i) - {i};
    AncUsed(g, i);
    StartReducing(g, parents);
    for n := 0 to |g.entries|
      invariant parents <= g.Anc(i) - {i} && Covers(g, g.Anc(i) - {i}, parents) && Unrelated(g, parents, n)
    {
      KeepReducing(g, g.Anc(i) - {i}, parents, n);
      if n in parents {
        parents := parents - g.Anc(n);
        parents := parents + {n};
      }
    }
    if Acyclic(g) { ReducedAreMaximal(g, i, parents); }
  }

  lemma StartReducing(g: Graph, a: set<nat>)
    requires WellFormed(g) && a <= g.used
    ensures Covers(g, a, a) && Unrelated(g, a, 0)
  {
    forall x | x in a ensures exists q :: q in a && x in g.Anc(q) { assert x in g.Anc(x); }
  }

  lemma KeepReducing(g: Graph, a: set<nat>, ps: set<nat>, n: nat)
    requires WellFormed(g) && a <= g.used && ps <= a && Covers(g, a, ps) && Unrelated(g, ps, n)
    ensures n in ps ==> Covers(g, a, ps - g.Anc(n) + {n}) && Unrelated(g, ps - g.Anc(n) + {n}, n + 1)
    ensures n !in ps ==> Unrelated(g, ps, n + 1)
  {
    hide WellFormed, Covers;
    if n in ps { StillCovers(g, a, ps, n, ps - g.Anc(n) + {n}); }
  }

  lemma CoverOf(g: Graph, a: set<nat>, ps: set<nat>, x: nat) returns (q: nat)
    requires Covers(g, a, ps) && x in a
    ensures q in ps && x in g.Anc(q)
  {
    q :| q in ps && x in g.Anc(q);
  }

  lemma CoversBy(g: Graph, a: set<nat>, ps: set<nat>)
    requires forall x :: x in a ==> exists q :: q in ps && x in g.Anc(q)
    ensures Covers(g, a, ps)
  {}

  lemma StillCovers(g: Graph, a: set<nat>, ps: set<nat>, n: nat, qs: set<nat>)
    requires WellFormed(g) && a <= g.used && ps <= a && Covers(g, a, ps) && n in ps
    requires n in qs && forall q :: q in ps && q !in g.Anc(n) ==> q in qs
    ensures Covers(g, a, qs)
  {
    hide WellFormed, Covers;
    forall x | x in a ensures exists q :: q in qs && x in g.Anc(q) {
      var q := CoverOf(g, a, ps, x);
      if q in g.Anc(n) { AncTrans(g, n, q, x); } else { assert q in qs; }
    }
    CoversBy(g, a, qs);
  }

  lemma ReducedAreMaximal(g: Graph, i: nat, parents: set<nat>)
    requires WellFormed(g) && Acyclic(g) && i in g.used && parents <= g.Anc(i) - {i}
    requires Covers(g, g.Anc(i) - {i}, parents) && Unrelated(g, parents, |g.entries|)
    ensures forall p :: p in parents <==> Maximal(g, g.Anc(i) - {i}, p)
  {
    hide WellFormed, Covers;
    AncUsed(g, i);
    var a := g.Anc(i) - {i};
    forall p, q | p in parents && q in a && p in g.Anc(q)
      ensures q == p
    {
      var r := CoverOf(g, a, parents, q);
      AncTrans(g, r, q, p);
      AncUsed(g, r);
    }
    forall p | Maximal(g, a, p) ensures p in parents {
      var r := CoverOf(g, a, parents, p);
    }
  }

  /** A graph is acyclic exactly when no transaction is both ancestor and descendant of another. */
  method IsAcyclic(g: Graph) returns (acyclic: bool)
    requires WellFormed(g)
    ensures acyclic <==> Acyclic(g)
  {
    for i := 0 to |g.entries|
      invariant forall k, j :: 0 <= k < i && k in g.used && j in g.Anc(k) && k in g.Anc(j) ==> k == j
    {
      assert i in g.used ==> i in g.Anc(i) * g.Desc(i);
      assert i in g.used ==> forall j :: j in g.Anc(i) && i in g.Anc(j) ==> j in g.Anc(i) * g.Desc(i);
      if i in g.used && g.Anc(i) * g.Desc(i) != {i} {
        var j :| j in g.Anc(i) * g.Desc(i) && j != i;
        return false;
      }
    }
    return true;
  }

  // ---------------------------------------------------------------- connected components

  ghost predicate ClosedIn(g: Graph, todo: set<nat>, c: set<nat>) {
    forall a, b :: a in c && b in todo && (b in g.Anc(a) || b in g.Desc(a)) ==> b in c
  }

  /** Everything in todo that is related to a member of done is in ret. */
  ghost predicate Explored(g: Graph, todo: set<nat>, done: set<nat>, ret: set<nat>) {
    forall a, b :: a in done && b in todo && (b in g.Anc(a) || b in g.Desc(a)) ==> b in ret
  }

  /** s is in every closed set that contains tx. */
  ghost predicate Forced(g: Graph, todo: set<nat>, tx: nat, s: set<nat>) {
    forall c :: tx in c && ClosedIn(g, todo, c) ==> s <= c
  }

  /** all is ret with everything related to a member of toAdd. */
  ghost predicate Related(g: Graph, toAdd: set<nat>, ret: set<nat>, all: set<nat>) {
    forall x :: x in all <==> x in ret || exists a :: a in toAdd && (x in g.Anc(a) || x in g.Desc(a))
  }

  /** The least subset of todo that contains tx and is closed under being an ancestor or descendant. */
  method GetConnectedComponent(g: Graph, todo: set<nat>, tx: nat) returns (ret: set<nat>)
    requires WellFormed(g) && todo <= g.used && tx in todo
    ensures tx in ret && ret <= todo && ClosedIn(g, todo, ret)
    ensures forall c :: tx in c && ClosedIn(g, todo, c) ==> ret <= c
  {
    hide WellFormed, Explored, Forced, Related;
    var toAdd := {tx};
    ret := {};
    assert Explored(g, todo, ret - toAdd, ret) && Forced(g, todo, tx, ret + toAdd) by { StartExploring(g, todo, tx); }
    while toAdd != {}
      invariant ret <= todo && toAdd <= todo
      invariant ret == {} ==> toAdd == {tx}
      invariant ret != {} ==> tx in ret && toAdd <= ret
      invariant Explored(g, todo, ret - toAdd, ret)
      invariant Forced(g, todo, tx, ret + toAdd)
      decreases todo - ret, toAdd
    {
      var before := ret;
      InRange(g, toAdd);
      ret := Neighbours(g, toAdd, ret);
      KeepExploring(g, todo, tx, toAdd, before, ret);
      ret := ret * todo;
      toAdd := ret - before;
    }
    DoneExploring(g, todo, tx, ret);
  }

  lemma InRange(g: Graph, s: set<nat>)
    requires WellFormed(g) && s <= g.used
    ensures forall a :: a in s ==> a < |g.entries|
  {}

  lemma StartExploring(g: Graph, todo: set<nat>, tx: nat)
    ensures Explored(g, todo, {} - {tx}, {}) && Forced(g, todo, tx, {} + {tx})
  {}

  lemma KeepExploring(g: Graph, todo: set<nat>, tx: nat, toAdd: set<nat>, ret: set<nat>, all: set<nat>)
    requires WellFormed(g) && todo <= g.used && ret <= todo && toAdd <= todo && toAdd != {}
    requires ret == {} ==> toAdd == {tx}
    requires ret != {} ==> tx in ret && toAdd <= ret
    requires Explored(g, todo, ret - toAdd, ret) && Forced(g, todo, tx, ret + toAdd)
    requires Related(g, toAdd, ret, all)
    ensures var ret' := all * todo; var toAdd' := ret' - ret;
            && ret <= ret' && tx in ret'
            && Explored(g, todo, ret' - toAdd', ret') && Forced(g, todo, tx, ret' + toAdd')
  {
    hide WellFormed;
    var ret' := all * todo;
    var toAdd' := ret' - ret;
    if ret == {} { AncUsed(g, tx); }
    if ret == {} { assert tx in toAdd && tx in g.Anc(tx); }
    assert ret' - toAdd' == ret;
    forall a, b | a in ret && b in todo && (b in g.Anc(a) || b in g.Desc(a)) ensures b in ret' {
      if a in toAdd { assert b in all; }
    }
    forall c | tx in c && ClosedIn(g, todo, c) ensures ret' + toAdd' <= c {
      assert ret + toAdd <= c;
    }
  }

  lemma DoneExploring(g: Graph, todo: set<nat>, tx: nat, ret: set<nat>)
    requires Explored(g, todo, ret - {}, ret) && Forced(g, todo, tx, ret + {})
    ensures ClosedIn(g, todo, ret) && forall c :: tx in c && ClosedIn(g, todo, c) ==> ret <= c
  {
    assert ret - {} == ret && ret + {} == ret;
  }

  /** Adds to ret everything related to a member of toAdd. */
  method Neighbours(g: Graph, toAdd: set<nat>, ret: set<nat>) returns (all: set<nat>)
    requires forall a :: a in toAdd ==> a < |g.entries|
    ensures Related(g, toAdd, ret, all)
  {
    all := ret;
    for n := 0 to |g.entries|
      invariant forall x :: x in all <==> x in ret || exists a :: a in toAdd && a < n && (x in g.Anc(a) || x in g.Desc(a))
    {
      if n in toAdd {
        ghost var before := all;
        all := all + g.Desc(n) + g.Anc(n);
        forall x ensures x in all <==> x in ret || exists a :: a in toAdd && a < n + 1 && (x in g.Anc(a) || x in g.Desc(a)) {
          if x in all && x !in before { assert n in toAdd && n < n + 1; }
        }
      }
    }
  }

  /** A topologically valid set meets a component of todo in a topologically valid set. */
  lemma ComponentTopo(g: Graph, todo: set<nat>, c: set<nat>, s: set<nat>)
    requires WellFormed(g) && todo <= g.used && TopoSubset(g, todo, s) && c <= todo && ClosedIn(g, todo, c)
    ensures TopoSubset(g, todo, s * c) && TopoSubset(g, todo, s - c)
    ensures TopoSubset(g, todo, c) && TopoSubset(g, todo, todo - c)
  {}

  // ---------------------------------------------------------------- topological sorting

  /** The order AppendTopo sorts by: fewer ancestors first, then lower position. */
  predicate Before(g: Graph, a: nat, b: nat) {
    |g.Anc(a)| < |g.Anc(b)| || (|g.Anc(a)| == |g.Anc(b)| && a < b)
  }

  ghost predicate SortedTopo(g: Graph, l: seq<nat>) {
    forall i, j :: 0 <= i < j < |l| ==> Before(g, l[i], l[j])
  }

  lemma SortedIsTopological(g: Graph, l: seq<nat>)
    requires WellFormed(g) && Acyclic(g) && SortedTopo(g, l) && Elems(l) <= g.used
    ensures TopoOrder(g, l) && Distinct(l)
  {
    forall i, j | 0 <= i < j < |l|
      ensures l[j] !in g.Anc(l[i]) && l[i] != l[j]
    {
      assert Before(g, l[i], l[j]);
      var x, y := l[i], l[j];
      assert x in Elems(l) && y in Elems(l);
      if y in g.Anc(x) { AncestorsSmaller(g, x, y); }
    }
  }

  lemma AncestorsSmaller(g: Graph, x: nat, y: nat)
    requires WellFormed(g) && Acyclic(g) && x in g.used && y in g.Anc(x) && x != y
    ensures |g.Anc(y)| < |g.Anc(x)|
  {
    assert x !in g.Anc(y);
    assert g.Anc(y) <= g.Anc(x) - {x};
    SubsetSize(g.Anc(y), g.Anc(x) - {x});
  }

  /** Appends the members of select in a topologically valid order; the sort is an insertion sort here. */
  method AppendTopo(g: Graph, list: seq<nat>, select: set<nat>) returns (res: seq<nat>)
    requires WellFormed(g) && Acyclic(g) && select <= g.used
    ensures list <= res && Elems(res[|list|..]) == select
    ensures TopoOrder(g, res[|list|..]) && Distinct(res[|list|..])
    ensures SortedTopo(g, res[|list|..])
  {
    var tail := [];
    for n := 0 to |g.entries|
      invariant SortedTopo(g, tail)
      invariant forall x :: x in tail <==> x in select && x < n
    {
      if n in select { tail := Insert(g, tail, n); }
    }
    SortedIsTopological(g, tail);
    res := list + tail;
    assert res[|list|..] == tail;
  }

  method Insert(g: Graph, l: seq<nat>, x: nat) returns (res: seq<nat>)
    requires SortedTopo(g, l) && x !in l
    ensures SortedTopo(g, res)
    ensures forall y :: y in res <==> y in l || y == x
  {
    var k := 0;
    while k < |l| && Before(g, l[k], x)
      invariant k <= |l|
      invariant forall i :: 0 <= i < k ==> Before(g, l[i], x)
    {
      k := k + 1;
    }
    res := l[..k] + [x] + l[k..];
    forall i, j | 0 <= i < j < |res|
      ensures Before(g, res[i], res[j])
    {
      if i == k { assert res[j] == l[j - 1]; assert l[k] in l; }
    }
    assert l == l[..k] + l[k..];
  }

  // ---------------------------------------------------------------- repairing a linearization

  /** One past the last member of s that is an ancestor of e, or 0. */
  function AfterAncestors(g: Graph, s: seq<nat>, e: nat): (t: nat)
    ensures t <= |s|
    ensures forall i :: t <= i < |s| ==> s[i] !in g.Anc(e)
    ensures t > 0 ==> s[t - 1] in g.Anc(e)
  {
    if s == [] then 0
    else if s[|s| - 1] in g.Anc(e) then |s|
    else AfterAncestors(g, s[..|s| - 1], e)
  }

  function PlaceAfter(g: Graph, s: seq<nat>, e: nat): seq<nat> {
    var t := AfterAncestors(g, s, e);
    s[..t] + [e] + s[t..]
  }

  /** Every element moved back, from the last to the first, until it follows all its ancestors. */
  function Fixed(g: Graph, l: seq<nat>): seq<nat> {
    if l == [] then [] else PlaceAfter(g, Fixed(g, l[1..]), l[0])
  }

  lemma PlaceAfterTopological(g: Graph, s: seq<nat>, e: nat)
    requires WellFormed(g) && Acyclic(g) && TopoOrder(g, s) && e !in s && e in g.used && Elems(s) <= g.used
    ensures TopoOrder(g, PlaceAfter(g, s, e))
  {
    hide WellFormed;
    var t := AfterAncestors(g, s, e);
    var r := PlaceAfter(g, s, e);
    forall i, j | 0 <= i < j < |r|
      ensures r[j] !in g.Anc(r[i])
    {
      if j == t {
        assert r[i] == s[i] && r[j] == e && s[i] in Elems(s) && s[t - 1] in Elems(s);
        if e in g.Anc(s[i]) { AncTrans(g, s[i], e, s[t - 1]); }
      } else if i == t {
        assert r[j] == s[j - 1];
      } else {
        assert r[i] == s[if i < t then i else i - 1] && r[j] == s[if j < t then j else j - 1];
      }
    }
  }

  lemma PlaceAfterPermutes(g: Graph, s: seq<nat>, e: nat)
    ensures multiset(PlaceAfter(g, s, e)) == multiset(s) + multiset{e}
  {
    var t := AfterAncestors(g, s, e);
    assert s == s[..t] + s[t..];
  }

  lemma {:induction false} FixedPermutes(g: Graph, l: seq<nat>)
    ensures multiset(Fixed(g, l)) == multiset(l)
  {
    if l != [] {
      FixedPermutes(g, l[1..]);
      PlaceAfterPermutes(g, Fixed(g, l[1..]), l[0]);
      assert l == [l[0]] + l[1..];
    }
  }

  lemma SameMultiset(a: seq<nat>, b: seq<nat>)
    requires multiset(a) == multiset(b)
    ensures |a| == |b| && Elems(a) == Elems(b)
    ensures Distinct(a) ==> Distinct(b)
  {
    assert |a| == |multiset(a)| == |multiset(b)| == |b|;
    forall x ensures x in Elems(a) <==> x in Elems(b) {
      assert x in a <==> x in multiset(a);
      assert x in b <==> x in multiset(b);
    }
    if Distinct(a) {
      DistinctMultiset(a);
      MultisetDistinct(b);
    }
  }

  lemma {:induction false} DistinctMultiset(a: seq<nat>)
    requires Distinct(a)
    ensures forall x :: multiset(a)[x] <= 1
  {
    if a != [] {
      DistinctMultiset(a[1..]);
      assert a == [a[0]] + a[1..];
      assert a[0] !in multiset(a[1..]);
    }
  }

  lemma {:induction false} MultisetDistinct(a: seq<nat>)
    requires forall x :: multiset(a)[x] <= 1
    ensures Distinct(a)
  {
    forall i, j | 0 <= i < j < |a| ensures a[i] != a[j] {
      assert a == a[..i + 1] + a[i + 1..];
      assert a[..i + 1][i] == a[i] && a[i + 1..][j - i - 1] == a[j];
      assert a[i] in multiset(a[..i + 1]) && a[j] in multiset(a[i + 1..]);
      assert multiset(a)[a[i]] == multiset(a[..i + 1])[a[i]] + multiset(a[i + 1..])[a[i]];
    }
  }

  /** Any permutation becomes a topological one, and a topological one is left alone. */
  lemma {:induction false} FixedTopological(g: Graph, l: seq<nat>)
    requires WellFormed(g) && Acyclic(g) && Distinct(l) && Elems(l) <= g.used
    ensures TopoOrder(g, Fixed(g, l))
    ensures TopoOrder(g, l) ==> Fixed(g, l) == l
  {
    if l != [] {
      hide WellFormed, Acyclic;
      var rest, e := l[1..], l[0];
      assert e in Elems(l) && Elems(rest) <= Elems(l);
      assert e !in Elems(rest);
      FixedTopological(g, rest);
      FixedPermutes(g, rest);
      SameMultiset(rest, Fixed(g, rest));
      assert e !in Elems(Fixed(g, rest));
      PlaceAfterTopological(g, Fixed(g, rest), e);
      if TopoOrder(g, l) {
        assert TopoOrder(g, rest);
        FirstStaysPut(g, l);
      }
    }
  }

  lemma FirstStaysPut(g: Graph, l: seq<nat>)
    requires TopoOrder(g, l) && l != []
    ensures PlaceAfter(g, l[1..], l[0]) == l
  {
    var rest, e := l[1..], l[0];
    assert forall i :: 0 <= i < |rest| ==> rest[i] == l[i + 1];
    assert AfterAncestors(g, rest, e) == 0;
    assert l == [e] + rest;
  }

  /** The inner loop of FixLinearization: moves the element at m behind its ancestors in the sorted tail. */
  method MoveBehindAncestors(g: Graph, a: array<nat>, m: nat, done: set<nat>)
    requires m < a.Length && done == Elems(a[m + 1..]) && Distinct(a[m + 1..])
    modifies a
    ensures a[..m] == old(a[..m])
    ensures a[m..] == PlaceAfter(g, old(a[m + 1..]), old(a[m]))
  {
    hide Elems, Distinct, AfterAncestors, With, Later, PlaceAfter;
    var elem := a[m];
    ghost var pre, s := a[..m], a[m + 1..];
    ghost var after := AfterAncestors(g, s, elem);
    var j := m;
    var placeBefore := done * g.Anc(elem);
    LaterFirst(s, g.Anc(elem));
    WithFirst(a[..], m);
    while placeBefore != {}
      invariant m <= j <= m + after && a[..] == With(pre, s, a[j], j - m)
      invariant placeBefore == Later(s, j - m, g.Anc(elem))
      decreases a.Length - j
    {
      LaterAncestor(g, s, elem, j - m);
      DropFirst(s, j - m, g.Anc(elem));
      WithNext(pre, s, a[j], j - m);
      ghost var b := a[..];
      var toSwap := a[j + 1];
      placeBefore := placeBefore - {toSwap};
      a[j] := toSwap;
      assert a[..] == b[j := toSwap];
      j := j + 1;
    }
    NoLaterAncestor(g, s, elem, j - m);
    WithOther(pre, s, a[j], elem, j - m);
    PlacedIs(g, s, elem);
    ghost var b := a[..];
    a[j] := elem;
    assert a[..] == b[j := elem];
    assert a[..m] == a[..][..m] && a[m..] == a[..][m..];
  }

  /** The ancestors among the members of s from position t on. */
  ghost function Later(s: seq<nat>, t: nat, anc: set<nat>): set<nat>
    requires t <= |s|
  {
    Elems(s[t..]) * anc
  }

  lemma LaterFirst(s: seq<nat>, anc: set<nat>)
    ensures Later(s, 0, anc) == Elems(s) * anc
  {
    assert s[0..] == s;
  }

  lemma PlacedIs(g: Graph, s: seq<nat>, e: nat)
    ensures var t := AfterAncestors(g, s, e); PlaceAfter(g, s, e) == s[..t] + [e] + s[t..]
  {}

  /** s with x at position t, after pre. */
  ghost function With(pre: seq<nat>, s: seq<nat>, x: nat, t: nat): (b: seq<nat>)
    requires t <= |s|
    ensures |b| == |pre| + |s| + 1 && b[|pre| + t] == x
  {
    pre + (s[..t] + [x] + s[t..])
  }

  lemma WithFirst(b: seq<nat>, m: nat)
    requires m < |b|
    ensures b == With(b[..m], b[m + 1..], b[m], 0)
  {}

  lemma WithNext(pre: seq<nat>, s: seq<nat>, x: nat, t: nat)
    requires t < |s|
    ensures With(pre, s, x, t)[|pre| + t + 1] == s[t]
    ensures With(pre, s, x, t)[|pre| + t := s[t]] == With(pre, s, s[t], t + 1)
  {}

  lemma WithOther(pre: seq<nat>, s: seq<nat>, x: nat, y: nat, t: nat)
    requires t <= |s|
    ensures With(pre, s, x, t)[|pre| + t := y] == With(pre, s, y, t)
    ensures With(pre, s, y, t)[..|pre|] == pre && With(pre, s, y, t)[|pre|..] == s[..t] + [y] + s[t..]
  {}

  lemma DropFirst(s: seq<nat>, t: nat, anc: set<nat>)
    requires t < |s| && Distinct(s)
    ensures Later(s, t, anc) - {s[t]} == Later(s, t + 1, anc)
  {
    assert s[t..] == [s[t]] + s[t + 1..];
    ElemsConcat([s[t]], s[t + 1..]);
    assert Elems([s[t]]) == {s[t]};
    assert s[t] !in s[t + 1..];
  }

  lemma LaterAncestor(g: Graph, s: seq<nat>, e: nat, t: nat)
    requires t <= |s| && Later(s, t, g.Anc(e)) != {}
    ensures t < AfterAncestors(g, s, e)
  {
    var x :| x in Later(s, t, g.Anc(e));
    var i :| 0 <= i < |s[t..]| && s[t..][i] == x;
    assert s[t + i] == x;
  }

  lemma NoLaterAncestor(g: Graph, s: seq<nat>, e: nat, t: nat)
    requires t <= AfterAncestors(g, s, e) && Later(s, t, g.Anc(e)) == {}
    ensures t == AfterAncestors(g, s, e)
  {
    if t < AfterAncestors(g, s, e) { LastIsLater(g, s, e, t); }
  }

  lemma LastIsLater(g: Graph, s: seq<nat>, e: nat, t: nat)
    requires t < AfterAncestors(g, s, e)
    ensures s[AfterAncestors(g, s, e) - 1] in Elems(s[t..]) * g.Anc(e)
  {
    assert s[t..][AfterAncestors(g, s, e) - 1 - t] in s[t..];
  }

  /** Makes a linearization topological in place, keeping the order where possible. */
  method FixLinearization(g: Graph, linearization: array<nat>)
    requires WellFormed(g) && Acyclic(g)
    requires Distinct(linearization[..]) && Elems(linearization[..]) <= g.used
    modifies linearization
    ensures linearization[..] == Fixed(g, old(linearization[..]))
    ensures TopoOrder(g, linearization[..]) && multiset(linearization[..]) == multiset(old(linearization[..]))
    ensures old(TopoOrder(g, linearization[..])) ==> linearization[..] == old(linearization[..])
  {
    hide WellFormed, Acyclic, PlaceAfter;
    ghost var l := linearization[..];
    var done := {};
    var len := linearization.Length;
    for i := 0 to len
      invariant linearization[..len - i] == l[..len - i]
      invariant linearization[len - i..] == Fixed(g, l[len - i..])
      invariant done == Elems(l[len - i..])
    {
      var m := len - 1 - i;
      var elem := linearization[m];
      assert elem == linearization[..len - i][m] == l[m];
      FixedPermutes(g, l[m + 1..]);
      SameMultiset(l[m + 1..], linearization[m + 1..]);
      ghost var before := linearization[..m + 1];
      MoveBehindAncestors(g, linearization, m, done);
      assert l[m..] == [elem] + l[m + 1..];
      done := done + {elem};
      assert linearization[..m] == before[..m] == l[..m];
    }
    assert l[0..] == l && linearization[0..] == linearization[..];
    FixedPermutes(g, l);
    FixedTopological(g, l);
  }

  // ---------------------------------------------------------------- remapping

  function Image(mapping: seq<nat>, s: set<nat>): set<nat> {
    set i | i in s && i < |mapping| :: mapping[i]
  }

  /** mapping sends the used positions of g to different positions below posRange, one of them the last. */
  ghost predicate ValidMapping(g: Graph, mapping: seq<nat>, posRange: nat) {
    && |mapping| == |g.entries|
    && (forall i :: i in g.used && i < |mapping| ==> mapping[i] < posRange)
    && (forall i, j :: i in g.used && j in g.used && i < |mapping| && j < |mapping| && mapping[i] == mapping[j] ==> i == j)
    && (posRange == 0 || posRange - 1 in Image(mapping, g.used))
  }

  /** h is g with its positions renamed by mapping. */
  ghost predicate Isomorphic(g: Graph, mapping: seq<nat>, h: Graph) {
    && h.used == Image(mapping, g.used)
    && (forall i :: i in g.used && i < |mapping| ==> TxRate(h.Rates(), mapping[i]) == TxRate(g.Rates(), i))
    && (forall i, j :: i in g.used && j in g.used && i < |mapping| && j < |mapping| ==>
          (j in g.Anc(i) <==> mapping[j] in h.Anc(mapping[i])))
  }

  /** Every edge stems from an ancestor pair of g. */
  ghost predicate EdgesSound(g: Graph, mapping: seq<nat>, es: Edges) {
    forall e :: e in es ==> exists i, p :: i in g.used && p in g.Anc(i) && IsEdge(mapping, p, i, e)
  }

  ghost predicate IsEdge(mapping: seq<nat>, p: nat, i: nat, e: (nat, nat)) {
    p < |mapping| && i < |mapping| && e == (mapping[p], mapping[i])
  }

  /** Every maximal proper ancestor of a position below n has its edge. */
  ghost predicate EdgesComplete(g: Graph, mapping: seq<nat>, es: Edges, n: nat) {
    forall i: nat, p: nat :: i in g.used && i < n && i < |mapping| && p < |mapping| && Maximal(g, g.Anc(i) - {i}, p) ==>
      (mapping[p], mapping[i]) in es
  }

  /** The constructor that copies a graph to renamed positions, from the reduced parents only. */
  method Remap(g: Graph, mapping: seq<nat>, posRange: nat, capacity: nat) returns (d: DepGraph)
    requires WellFormed(g) && Acyclic(g) && ValidMapping(g, mapping, posRange) && posRange <= capacity
    ensures fresh(d) && d.Valid() && |d.entries| == posRange && Isomorphic(g, mapping, d.View())
  {
    hide WellFormed, Acyclic, EdgesSound, EdgesComplete, Isomorphic, IsClosure, AddsDependencies, Maximal;
    InRange(g, g.used);
    var rates := PlaceRates(g, mapping, posRange);
    var used := Image(mapping, g.used);
    d := new DepGraph.Unconnected(capacity, rates, used);
    NoEdges(g, mapping);
    for i := 0 to |g.entries|
      invariant fresh(d) && d.Valid() && d.pristine && d.used == used && |d.entries| == posRange
      invariant forall k :: 0 <= k < posRange ==> d.entries[k].feerate == rates[k]
      invariant EdgesSound(g, mapping, d.edges) && EdgesComplete(g, mapping, d.edges, i)
    {
      if i in g.used {
        var reduced := GetReducedParents(g, i);
        AncUsed(g, i);
        var parents := Image(mapping, reduced);
        assert parents <= used;
        assert mapping[i] in used;
        MoreEdges(g, mapping, d.edges, i, reduced);
        ghost var before := d.View();
        d.AddDependencies(parents, mapping[i]);
        FeeratesKept(before, parents, mapping[i], d.View());
      } else {
        SkipHole(g, mapping, d.edges, i);
      }
    }
    RemapIsomorphic(g, mapping, d.View(), d.edges, rates);
  }

  method PlaceRates(g: Graph, mapping: seq<nat>, posRange: nat) returns (rates: seq<FeeFrac>)
    requires ValidMapping(g, mapping, posRange) && forall i :: i in g.used ==> i < |g.entries|
    ensures |rates| == posRange
    ensures forall i :: i in g.used ==> rates[mapping[i]] == g.entries[i].feerate
  {
    rates := seq(posRange, _ => EMPTY);
    for i := 0 to |g.entries|
      invariant |rates| == posRange
      invariant forall k :: k in g.used && k < i ==> rates[mapping[k]] == g.entries[k].feerate
    {
      if i in g.used { rates := rates[mapping[i] := g.entries[i].feerate]; }
    }
  }

  lemma FeeratesKept(g: Graph, parents: set<nat>, child: nat, g': Graph)
    requires AddsDependencies(g, parents, child, g')
    ensures g'.used == g.used && |g'.entries| == |g.entries|
    ensures forall i :: 0 <= i < |g.entries| ==> g'.entries[i].feerate == g.entries[i].feerate
  {}

  lemma NoEdges(g: Graph, mapping: seq<nat>)
    ensures EdgesSound(g, mapping, {}) && EdgesComplete(g, mapping, {}, 0)
  {}

  lemma SkipHole(g: Graph, mapping: seq<nat>, es: Edges, n: nat)
    requires EdgesComplete(g, mapping, es, n) && n !in g.used
    ensures EdgesComplete(g, mapping, es, n + 1)
  {}

  lemma MoreEdges(g: Graph, mapping: seq<nat>, es: Edges, n: nat, reduced: set<nat>)
    requires n in g.used && n < |mapping| && reduced <= g.Anc(n) && forall p :: p in reduced ==> p < |mapping|
    requires forall p :: Maximal(g, g.Anc(n) - {n}, p) ==> p in reduced
    requires EdgesSound(g, mapping, es) && EdgesComplete(g, mapping, es, n)
    ensures EdgesSound(g, mapping, es + EdgesTo(Image(mapping, reduced), mapping[n]))
    ensures EdgesComplete(g, mapping, es + EdgesTo(Image(mapping, reduced), mapping[n]), n + 1)
  {
    var new' := EdgesTo(Image(mapping, reduced), mapping[n]);
    forall e | e in new' ensures exists i, p :: i in g.used && p in g.Anc(i) && IsEdge(mapping, p, i, e) {
      var p :| p in reduced && mapping[p] == e.0;
      assert IsEdge(mapping, p, n, e);
    }
    forall i: nat, p: nat | i in g.used && i < n + 1 && i < |mapping| && p < |mapping| && Maximal(g, g.Anc(i) - {i}, p)
      ensures (mapping[p], mapping[i]) in es + new'
    {
      if i == n { assert mapping[p] in Image(mapping, reduced); }
    }
  }

  lemma RemapIsomorphic(g: Graph, mapping: seq<nat>, h: Graph, es: Edges, rates: seq<FeeFrac>)
    requires WellFormed(g) && Acyclic(g) && ValidMapping(g, mapping, |rates|)
    requires IsClosure(h, es) && h.used == Image(mapping, g.used) && |h.entries| == |rates|
    requires EdgesSound(g, mapping, es) && EdgesComplete(g, mapping, es, |g.entries|)
    requires forall i :: i in g.used && i < |mapping| ==> rates[mapping[i]] == TxRate(g.Rates(), i)
    requires forall k :: 0 <= k < |rates| ==> h.entries[k].feerate == rates[k]
    ensures Isomorphic(g, mapping, h)
  {
    hide WellFormed, Acyclic, IsClosure, EdgesSound, EdgesComplete;
    forall i, j | i in g.used && j in g.used && i < |mapping| && j < |mapping|
      ensures j in g.Anc(i) <==> mapping[j] in h.Anc(mapping[i])
    {
      SameAncestry(g, mapping, h, es, |rates|, i, j);
    }
  }

  lemma SameAncestry(g: Graph, mapping: seq<nat>, h: Graph, es: Edges, posRange: nat, i: nat, j: nat)
    requires WellFormed(g) && Acyclic(g) && ValidMapping(g, mapping, posRange)
    requires IsClosure(h, es) && h.used == Image(mapping, g.used)
    requires EdgesSound(g, mapping, es) && EdgesComplete(g, mapping, es, |g.entries|)
    requires i in g.used && j in g.used && i < |mapping| && j < |mapping|
    ensures j in g.Anc(i) <==> mapping[j] in h.Anc(mapping[i])
  {
    hide WellFormed, Acyclic, EdgesSound, EdgesComplete;
    assert mapping[i] in h.used && mapping[j] in h.used;
    assert mapping[j] in h.Anc(mapping[i]) <==> Reach(es, mapping[j], mapping[i]);
    if j in g.Anc(i) {
      AncestorReached(g, mapping, es, i, j);
    } else if Reach(es, mapping[j], mapping[i]) {
      var p :| IsPath(es, p) && p[0] == mapping[j] && p[|p| - 1] == mapping[i];
      PathPulledBack(g, mapping, posRange, es, p, i, j);
    }
  }

  /** Every ancestor is reached along edges from maximal proper ancestors. */
  lemma {:induction false} AncestorReached(g: Graph, mapping: seq<nat>, es: Edges, i: nat, j: nat)
    requires WellFormed(g) && Acyclic(g) && |mapping| == |g.entries|
    requires EdgesComplete(g, mapping, es, |g.entries|)
    requires i in g.used && j in g.Anc(i)
    ensures i < |mapping| && j < |mapping| && Reach(es, mapping[j], mapping[i])
    decreases |g.Anc(i)|
  {
    hide WellFormed, Reach;
    AncUsed(g, i);
    AncUsed(g, j);
    if i == j {
      ReachSelf(es, mapping[i]);
    } else {
      var q := MaximalAbove(g, i, j);
      AncUsed(g, q);
      AncestorsSmaller(g, i, q);
      AncestorReached(g, mapping, es, q, j);
      ReachEdge(es, mapping[q], mapping[i]);
      ReachTrans(es, mapping[j], mapping[q], mapping[i]);
    }
  }

  lemma {:induction false} MaximalAbove(g: Graph, i: nat, j: nat) returns (q: nat)
    requires WellFormed(g) && Acyclic(g) && i in g.used && j in g.Anc(i) && j != i
    ensures Maximal(g, g.Anc(i) - {i}, q) && j in g.Anc(q)
    decreases |g.Anc(i)| - |g.Anc(j)|
  {
    hide WellFormed;
    AncUsed(g, i);
    AncUsed(g, j);
    if Maximal(g, g.Anc(i) - {i}, j) {
      q := j;
    } else {
      var k :| k in g.Anc(i) - {i} && j in g.Anc(k) && k != j;
      AncUsed(g, k);
      AncestorsSmaller(g, k, j);
      AncestorsSmaller(g, i, k);
      q := MaximalAbove(g, i, k);
      AncTrans(g, q, k, j);
    }
  }

  lemma {:induction false} PathPulledBack(g: Graph, mapping: seq<nat>, posRange: nat, es: Edges, p: seq<nat>, i: nat, j: nat)
    requires WellFormed(g) && ValidMapping(g, mapping, posRange) && EdgesSound(g, mapping, es)
    requires i in g.used && j in g.used && i < |mapping| && j < |mapping|
    requires IsPath(es, p) && p[0] == mapping[j] && p[|p| - 1] == mapping[i]
    ensures j in g.Anc(i)
    decreases |p|
  {
    hide WellFormed, EdgesSound;
    AncUsed(g, i);
    AncUsed(g, j);
    if |p| == 1 {
      assert i == j;
    } else {
      FirstEdge(es, p);
      var k, m := EdgeSource(g, mapping, es, (p[0], p[1]));
      AncUsed(g, k);
      assert m == j;
      var q := p[1..];
      forall n | 0 <= n < |q| - 1 ensures (q[n], q[n + 1]) in es {
        assert (p[n + 1], p[n + 1 + 1]) in es;
      }
      PathPulledBack(g, mapping, posRange, es, q, i, k);
      AncTrans(g, i, k, j);
    }
  }

  lemma EdgeSource(g: Graph, mapping: seq<nat>, es: Edges, e: (nat, nat)) returns (i: nat, p: nat)
    requires EdgesSound(g, mapping, es) && e in es
    ensures i in g.used && p in g.Anc(i) && p < |mapping| && i < |mapping| && e == (mapping[p], mapping[i])
  {
    i, p :| i in g.used && p in g.Anc(i) && IsEdge(mapping, p, i, e);
  }
}
