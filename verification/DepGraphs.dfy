// Dependency graphs of transactions: class DepGraph of src/cluster_linearize.h.
module DepGraphs {
  import opened Sets
  import opened FeeFracs
  import opened Diagrams

  datatype Entry = Entry(feerate: FeeFrac, ancestors: set<nat>, descendants: set<nat>)

  /** The value of a DepGraph. Positions outside `used` are holes whose entries mean nothing. */
  datatype Graph = Graph(entries: seq<Entry>, used: set<nat>) {
    function Anc(i: nat): set<nat> { if i < |entries| then entries[i].ancestors else {} }

    function Desc(i: nat): set<nat> { if i < |entries| then entries[i].descendants else {} }

    function Rates(): seq<FeeFrac> {
      seq(|entries|, i requires 0 <= i < |entries| => entries[i].feerate)
    }
  }

  /** Ancestors form a reflexive transitive relation on the used positions, with descendants as its inverse. */
  ghost predicate WellFormed(g: Graph) {
    && (forall i :: i in g.used ==> i < |g.entries|)
    && (forall i :: i in g.used ==> i in g.Anc(i) && g.Anc(i) <= g.used && g.Desc(i) <= g.used)
    && (forall i, j :: i in g.used && j in g.used ==> (j in g.Anc(i) <==> i in g.Desc(j)))
    && (forall i, j, k :: i in g.used && j in g.Anc(i) && k in g.Anc(j) ==> k in g.Anc(i))
    && (g.entries == [] || |g.entries| - 1 in g.used)
  }

  /** No two transactions depend on each other. */
  ghost predicate Acyclic(g: Graph) {
    forall i, j :: i in g.used && j in g.Anc(i) && i in g.Anc(j) ==> i == j
  }

  /** A graph whose transactions all have a positive size. */
  ghost predicate Cluster(g: Graph) {
    WellFormed(g) && Acyclic(g) && Positive(g.Rates(), g.used)
  }

  // The parts of WellFormed as separate facts, for proofs that hide it.

  lemma AncTrans(g: Graph, i: nat, j: nat, k: nat)
    requires WellFormed(g) && i in g.used && j in g.Anc(i) && k in g.Anc(j)
    ensures k in g.Anc(i)
  {}

  lemma AncUsed(g: Graph, i: nat)
    requires WellFormed(g) && i in g.used
    ensures i < |g.entries| && i in g.Anc(i) && g.Anc(i) <= g.used && g.Desc(i) <= g.used
  {}

  lemma AncDesc(g: Graph, i: nat, j: nat)
    requires WellFormed(g) && i in g.used && j in g.used
    ensures j in g.Anc(i) <==> i in g.Desc(j)
  {}

  // ---------------------------------------------------------------- topology

  /** s contains, with every member, all its ancestors that are in todo. */
  ghost predicate TopoSubset(g: Graph, todo: set<nat>, s: set<nat>) {
    s <= todo && forall x, a :: x in s && a in g.Anc(x) && a in todo ==> a in s
  }

  /** Nothing is placed before one of its ancestors. */
  ghost predicate TopoOrder(g: Graph, l: seq<nat>) {
    forall i, j :: 0 <= i < j < |l| ==> l[j] !in g.Anc(l[i])
  }

  /** l lists every transaction once, ancestors first. */
  ghost predicate Linearization(g: Graph, l: seq<nat>) {
    Distinct(l) && Elems(l) == g.used && TopoOrder(g, l)
  }

  lemma TopoUnion(g: Graph, todo: set<nat>, a: set<nat>, b: set<nat>)
    requires TopoSubset(g, todo, a) && TopoSubset(g, todo, b)
    ensures TopoSubset(g, todo, a + b) && TopoSubset(g, todo, a * b)
  {}

  /** A prefix of a topological order of todo is a topologically valid subset of todo. */
  lemma PrefixTopo(g: Graph, l: seq<nat>, k: nat)
    requires TopoOrder(g, l) && k <= |l|
    ensures TopoSubset(g, Elems(l), Elems(l[..k]))
  {
    forall x, a | x in Elems(l[..k]) && a in g.Anc(x) && a in Elems(l)
      ensures a in Elems(l[..k])
    {
      var i :| 0 <= i < k && l[i] == x;
      var j :| 0 <= j < |l| && l[j] == a;
      if k <= j { assert false; }
      assert l[..k][j] == a;
    }
  }

  /** The remaining ancestors of one transaction are a topologically valid set. */
  lemma AncestorsTopo(g: Graph, todo: set<nat>, x: nat)
    requires WellFormed(g) && todo <= g.used && x in todo
    ensures TopoSubset(g, todo, g.Anc(x) * todo) && x in g.Anc(x) * todo
  {}

  lemma TopoConcat(g: Graph, a: seq<nat>, b: seq<nat>)
    requires TopoOrder(g, a) && TopoOrder(g, b)
    requires forall x, y :: x in a && y in b ==> y !in g.Anc(x)
    ensures TopoOrder(g, a + b)
  {
    forall i, j | 0 <= i < j < |a + b|
      ensures (a + b)[j] !in g.Anc((a + b)[i])
    {
      if i < |a| && j >= |a| { assert a[i] in a && b[j - |a|] in b; }
    }
  }

  // ---------------------------------------------------------------- closure of the added edges

  type Edges = set<(nat, nat)>

  ghost predicate IsPath(es: Edges, p: seq<nat>) {
    p != [] && forall k :: 0 <= k < |p| - 1 ==> (p[k], p[k + 1]) in es
  }

  /** y can be reached from x along zero or more (parent, child) edges. */
  ghost predicate Reach(es: Edges, x: nat, y: nat) {
    exists p :: IsPath(es, p) && p[0] == x && p[|p| - 1] == y
  }

  ghost predicate IsClosure(g: Graph, es: Edges) {
    && (forall e :: e in es ==> e.0 in g.used && e.1 in g.used)
    && (forall x, y :: x in g.used && y in g.used ==> (x in g.Anc(y) <==> Reach(es, x, y)))
  }

  lemma ReachSelf(es: Edges, x: nat)
    ensures Reach(es, x, x)
  {
    assert IsPath(es, [x]);
  }

  lemma FirstEdge(es: Edges, p: seq<nat>)
    requires IsPath(es, p) && |p| > 1
    ensures (p[0], p[1]) in es
  {
    assert (p[0], p[0 + 1]) in es;
  }

  lemma ReachNoEdges(es: Edges, x: nat, y: nat)
    requires es == {} && Reach(es, x, y)
    ensures x == y
  {
    var p :| IsPath(es, p) && p[0] == x && p[|p| - 1] == y;
    if |p| > 1 { FirstEdge(es, p); }
  }

  lemma ReachEdge(es: Edges, x: nat, y: nat)
    requires (x, y) in es
    ensures Reach(es, x, y)
  {
    var p := [x, y];
    assert IsPath(es, p) && p[0] == x && p[|p| - 1] == y;
  }

  lemma ReachTrans(es: Edges, x: nat, y: nat, z: nat)
    requires Reach(es, x, y) && Reach(es, y, z)
    ensures Reach(es, x, z)
  {
    var p :| IsPath(es, p) && p[0] == x && p[|p| - 1] == y;
    var q :| IsPath(es, q) && q[0] == y && q[|q| - 1] == z;
    var r := p + q[1..];
    assert r[0] == x && r[|r| - 1] == z;
    forall k | 0 <= k < |r| - 1
      ensures (r[k], r[k + 1]) in es
    {
      if k < |p| - 1 {
        assert r[k] == p[k] && r[k + 1] == p[k + 1];
      } else {
        assert r[k] == q[k - |p| + 1] && r[k + 1] == q[k - |p| + 2];
      }
    }
    assert IsPath(es, r);
  }

  lemma ReachMono(es: Edges, fs: Edges, x: nat, y: nat)
    requires es <= fs && Reach(es, x, y)
    ensures Reach(fs, x, y)
  {
    var p :| IsPath(es, p) && p[0] == x && p[|p| - 1] == y;
    assert IsPath(fs, p);
  }

  /** A reflexive transitive relation that contains the edges contains everything reachable along them. */
  lemma {:induction false} PathInAnc(g: Graph, es: Edges, p: seq<nat>)
    requires WellFormed(g) && IsPath(es, p) && p[|p| - 1] in g.used
    requires forall e :: e in es ==> e.0 in g.used && e.1 in g.used && e.0 in g.Anc(e.1)
    ensures p[0] in g.Anc(p[|p| - 1])
    decreases |p|
  {
    if |p| > 1 {
      var q := p[..|p| - 1];
      assert (p[|p| - 2], p[|p| - 2 + 1]) in es;
      assert IsPath(es, q);
      PathInAnc(g, es, q);
    }
  }

  lemma ReachInAnc(g: Graph, es: Edges, x: nat, y: nat)
    requires WellFormed(g) && y in g.used && Reach(es, x, y)
    requires forall e :: e in es ==> e.0 in g.used && e.1 in g.used && e.0 in g.Anc(e.1)
    ensures x in g.Anc(y)
  {
    var p :| IsPath(es, p) && p[0] == x && p[|p| - 1] == y;
    PathInAnc(g, es, p);
  }

  /** What adding the parents of one child does to the ancestor relation. */
  ghost predicate AddsDependencies(g: Graph, parents: set<nat>, child: nat, g': Graph) {
    && g'.used == g.used && |g'.entries| == |g.entries|
    && (forall i :: 0 <= i < |g.entries| ==> g'.entries[i].feerate == g.entries[i].feerate)
    && (forall i, x :: i in g.used ==>
          (x in g'.Anc(i) <==> x in g.Anc(i) || (child in g.Anc(i) && exists p :: p in parents && x in g.Anc(p))))
    && (forall i :: i in g.used ==> g'.Desc(i) <= g.used)
    && (forall i, j :: i in g.used && j in g.used ==> (j in g'.Anc(i) <==> i in g'.Desc(j)))
  }

  lemma AddDependenciesWellFormed(g: Graph, parents: set<nat>, child: nat, g': Graph)
    requires WellFormed(g) && child in g.used && parents <= g.used && AddsDependencies(g, parents, child, g')
    ensures WellFormed(g')
  {
    forall i, j, k | i in g.used && j in g'.Anc(i) && k in g'.Anc(j)
      ensures k in g'.Anc(i)
    {
      if child in g.Anc(j) && j !in g.Anc(i) { assert child in g.Anc(i); }
    }
  }

  ghost function EdgesTo(parents: set<nat>, child: nat): Edges {
    set p | p in parents :: (p, child)
  }

  /** Adding dependencies keeps the relation the closure of all edges added so far. */
  lemma AddDependenciesClosure(g: Graph, es: Edges, parents: set<nat>, child: nat, g': Graph)
    requires WellFormed(g) && child in g.used && parents <= g.used && AddsDependencies(g, parents, child, g')
    requires IsClosure(g, es)
    ensures IsClosure(g', es + EdgesTo(parents, child))
  {
    var fs := es + EdgesTo(parents, child);
    forall e | e in fs
      ensures e.0 in g.used && e.1 in g.used && e.0 in g'.Anc(e.1)
    {
      if e in es { ReachEdge(es, e.0, e.1); } else { assert e.0 in parents && e.0 in g.Anc(e.0); }
    }
    forall x, y | x in g.used && y in g.used
      ensures x in g'.Anc(y) <==> Reach(fs, x, y)
    {
      if Reach(fs, x, y) {
        AddDependenciesWellFormed(g, parents, child, g');
        ReachInAnc(g', fs, x, y);
      }
      if x in g'.Anc(y) { AddedReach(g, es, parents, child, g', x, y); }
    }
  }

  lemma AddedReach(g: Graph, es: Edges, parents: set<nat>, child: nat, g': Graph, x: nat, y: nat)
    requires WellFormed(g) && child in g.used && parents <= g.used && AddsDependencies(g, parents, child, g')
    requires IsClosure(g, es) && x in g.used && y in g.used && x in g'.Anc(y)
    ensures Reach(es + EdgesTo(parents, child), x, y)
  {
    hide Reach;
    var fs := es + EdgesTo(parents, child);
    if x in g.Anc(y) {
      ReachMono(es, fs, x, y);
    } else {
      var p :| p in parents && x in g.Anc(p);
      ReachMono(es, fs, x, p);
      assert (p, child) in fs;
      ReachEdge(fs, p, child);
      ReachMono(es, fs, child, y);
      ReachTrans(fs, x, p, child);
      ReachTrans(fs, x, child, y);
    }
  }

  // ---------------------------------------------------------------- the graph object

  class DepGraph {
    /** Number of positions the underlying set type offers. */
    const capacity: nat
    var entries: seq<Entry>
    var used: set<nat>
    /** Edges added so far, and whether no transaction was ever removed. */
    ghost var edges: Edges
    ghost var pristine: bool

    function View(): Graph
      reads this
    {
      Graph(entries, used)
    }

    ghost predicate Valid()
      reads this
    {
      && WellFormed(View())
      && (pristine ==> IsClosure(View(), edges))
      && forall i :: i in used ==> i < capacity
    }

    constructor (capacity: nat)
      ensures Valid() && this.capacity == capacity && View() == Graph([], {}) && pristine && edges == {}
    {
      this.capacity := capacity;
      entries, used, edges, pristine := [], {}, {}, true;
    }

    /** A graph of unconnected transactions at given positions. */
    constructor Unconnected(capacity: nat, rates: seq<FeeFrac>, used: set<nat>)
      requires forall i :: i in used ==> i < |rates|
      requires |rates| <= capacity && (rates == [] || |rates| - 1 in used)
      ensures Valid() && this.capacity == capacity && this.used == used && pristine && edges == {}
      ensures |entries| == |rates| && forall i :: 0 <= i < |rates| ==> entries[i] == Entry(rates[i], {i}, {i})
    {
      this.capacity := capacity;
      this.used := used;
      entries := seq(|rates|, i requires 0 <= i < |rates| => Entry(rates[i], {i}, {i}));
      edges, pristine := {}, true;
      new;
      forall x, y | x in used && y in used
        ensures x in View().Anc(y) <==> Reach(edges, x, y)
      {
        ReachSelf(edges, x);
        if Reach(edges, x, y) { ReachNoEdges(edges, x, y); }
      }
    }

    /** Adds an unconnected transaction at the first free position. */
    method AddTransaction(feefrac: FeeFrac) returns (index: nat)
      requires Valid()
      requires exists i: nat :: i < capacity && i !in used
      modifies this
      ensures Valid() && edges == old(edges) && pristine == old(pristine)
      ensures index !in old(used) && index < capacity && forall i: nat :: i < index ==> i in old(used)
      ensures used == old(used) + {index} && index < |entries|
      ensures entries[index] == Entry(feefrac, {index}, {index})
      ensures forall i :: i in old(used) ==> i < |entries| && entries[i] == old(entries)[i]
    {
      index := 0;
      while index in used
        invariant forall i: nat :: i < index ==> i in used
        decreases capacity - index
      {
        index := index + 1;
      }
      ghost var g := View();
      assert |entries| !in used;
      hide WellFormed, IsClosure;
      if index == |entries| {
        entries := entries + [Entry(feefrac, {index}, {index})];
      } else {
        entries := entries[index := Entry(feefrac, {index}, {index})];
      }
      used := used + {index};
      NewWellFormed(g, index, View());
      if pristine { NewIsIsolated(g, edges, index, View()); }
    }

    /** Removes transactions; the rest keep exactly the ancestors among themselves. */
    method RemoveTransactions(del: set<nat>)
      requires Valid()
      modifies this
      ensures Valid() && !pristine
      ensures used == old(used) - del
      ensures forall i :: i in used ==> View().Anc(i) == old(View()).Anc(i) - del
      ensures forall i :: i in used ==> entries[i].feerate == old(entries)[i].feerate
    {
      ghost var g := View();
      used := used - del;
      var es := entries;
      while es != [] && |es| - 1 !in used
        invariant es <= g.entries
        invariant forall i :: i in used ==> i < |es|
      {
        es := es[..|es| - 1];
      }
      ghost var kept := es;
      for n := 0 to |es|
        invariant |es| == |kept|
        invariant forall i :: n <= i < |kept| ==> es[i] == kept[i]
        invariant forall i :: 0 <= i < n ==> es[i] == Entry(kept[i].feerate, kept[i].ancestors * used, kept[i].descendants * used)
      {
        es := es[n := Entry(es[n].feerate, es[n].ancestors * used, es[n].descendants * used)];
      }
      entries := es;
      pristine := false;
      RestrictionWellFormed(g, del, View());
    }

    /** Makes every transaction in parents a parent of child. */
    method AddDependencies(parents: set<nat>, child: nat)
      requires Valid() && child in used && parents <= used
      modifies this
      ensures Valid() && pristine == old(pristine)
      ensures AddsDependencies(old(View()), parents, child, View())
      ensures edges == old(edges) + EdgesTo(parents, child)
    {
      hide WellFormed, IsClosure, AddsDependencies, AreNewAncestors, EntriesConnected;
      var g := View();
      var parAnc := NewAncestors(g, parents, child);
      // With nothing to add the source returns here; the update below would change nothing.
      if parAnc != {} {
        entries := Connect(g, parAnc, child);
      } else {
        NothingToConnect(g, child);
      }
      edges := edges + EdgesTo(parents, child);
      AddDependenciesSpec(g, parents, child, parAnc, View());
      AddDependenciesWellFormed(g, parents, child, View());
      if pristine { AddDependenciesClosure(g, old(edges), parents, child, View()); }
    }
  }

  /** parAnc holds exactly the ancestors of the parents that the child does not have yet. */
  ghost predicate AreNewAncestors(g: Graph, parents: set<nat>, child: nat, parAnc: set<nat>) {
    && (forall x :: x in parAnc ==> x !in g.Anc(child) && exists q :: q in parents && x in g.Anc(q))
    && (forall x, q :: q in parents && q !in g.Anc(child) && x in g.Anc(q) && x !in g.Anc(child) ==> x in parAnc)
  }

  /** es is the entries of g with parAnc above child and all its descendants. */
  ghost predicate EntriesConnected(g: Graph, parAnc: set<nat>, child: nat, es: seq<Entry>) {
    && |es| == |g.entries|
    && forall i :: 0 <= i < |es| ==> es[i] == Entry(g.entries[i].feerate,
        if i in g.Desc(child) then g.Anc(i) + parAnc else g.Anc(i),
        if i in parAnc then g.Desc(i) + g.Desc(child) else g.Desc(i))
  }

  lemma NothingToConnect(g: Graph, child: nat)
    ensures EntriesConnected(g, {}, child, g.entries)
  {
    assert forall i :: 0 <= i < |g.entries| ==> g.Anc(i) + {} == g.Anc(i);
  }

  /** First loop of AddDependencies: the ancestors of the parents that child does not have yet. */
  method NewAncestors(g: Graph, parents: set<nat>, child: nat) returns (parAnc: set<nat>)
    requires WellFormed(g) && child in g.used && parents <= g.used
    ensures AreNewAncestors(g, parents, child, parAnc)
  {
    parAnc := {};
    for p := 0 to |g.entries|
      invariant forall x :: x in parAnc ==> exists q :: q in parents && x in g.Anc(q)
      invariant forall x, q :: 0 <= q < p && q in parents && q !in g.Anc(child) && x in g.Anc(q) ==> x in parAnc
    {
      if p in parents && p !in g.Anc(child) {
        assert forall x :: x in g.entries[p].ancestors ==> x in g.Anc(p);
        parAnc := parAnc + g.entries[p].ancestors;
      }
    }
    parAnc := parAnc - g.Anc(child);
  }

  /** Second and third loop of AddDependencies: connect the new ancestors with the descendants of child. */
  method Connect(g: Graph, parAnc: set<nat>, child: nat) returns (es: seq<Entry>)
    requires WellFormed(g) && child in g.used
    requires exists parents :: AreNewAncestors(g, parents, child, parAnc)
    ensures EntriesConnected(g, parAnc, child, es)
  {
    es := g.entries;
    assert child in g.Anc(child) && child !in parAnc;
    for n := 0 to |es|
      invariant |es| == |g.entries|
      invariant forall i :: n <= i < |es| ==> es[i] == g.entries[i]
      invariant forall i :: 0 <= i < n ==> es[i] == Entry(g.entries[i].feerate, g.Anc(i),
          if i in parAnc then g.Desc(i) + g.Desc(child) else g.Desc(i))
    {
      if n in parAnc {
        es := es[n := es[n].(descendants := es[n].descendants + es[child].descendants)];
      }
    }
    ghost var mid := es;
    for n := 0 to |es|
      invariant |es| == |mid|
      invariant forall i :: n <= i < |es| ==> es[i] == mid[i]
      invariant forall i :: 0 <= i < n ==> es[i] == Entry(mid[i].feerate,
          if i in g.Desc(child) then mid[i].ancestors + parAnc else mid[i].ancestors, mid[i].descendants)
    {
      if n in es[child].descendants {
        es := es[n := es[n].(ancestors := es[n].ancestors + parAnc)];
      }
    }
  }

  lemma RestrictionWellFormed(g: Graph, del: set<nat>, g': Graph)
    requires WellFormed(g)
    requires g'.used == g.used - del && |g'.entries| <= |g.entries|
    requires forall i :: i in g'.used ==> i < |g'.entries|
    requires g'.entries == [] || |g'.entries| - 1 in g'.used
    requires forall i :: 0 <= i < |g'.entries| ==> g'.entries[i].ancestors == g.entries[i].ancestors * g'.used
    requires forall i :: 0 <= i < |g'.entries| ==> g'.entries[i].descendants == g.entries[i].descendants * g'.used
    ensures WellFormed(g')
    ensures forall i :: i in g'.used ==> g'.Anc(i) == g.Anc(i) - del
  {
    assert forall i :: i in g'.used ==> g'.Anc(i) == g.Anc(i) * g'.used;
    assert forall i :: i in g'.used ==> g'.Desc(i) == g.Desc(i) * g'.used;
  }

  lemma AddDependenciesSpec(g: Graph, parents: set<nat>, child: nat, parAnc: set<nat>, g': Graph)
    requires WellFormed(g) && child in g.used && parents <= g.used
    requires AreNewAncestors(g, parents, child, parAnc) && EntriesConnected(g, parAnc, child, g'.entries)
    requires g'.used == g.used
    ensures AddsDependencies(g, parents, child, g')
  {
    forall i, x, p | i in g.used && child in g.Anc(i) && p in parents && x in g.Anc(p)
      ensures x in g.Anc(i) || x in parAnc
    {
      if p in g.Anc(child) { assert x in g.Anc(child); }
    }
    forall i | i in g.used
      ensures g'.Anc(i) == if child in g.Anc(i) then g.Anc(i) + parAnc else g.Anc(i)
      ensures g'.Desc(i) == if i in parAnc then g.Desc(i) + g.Desc(child) else g.Desc(i)
    {}
  }

  lemma NewWellFormed(g: Graph, n: nat, g': Graph)
    requires WellFormed(g) && n !in g.used && n < |g'.entries| && g'.used == g.used + {n}
    requires g'.Anc(n) == {n} && g'.Desc(n) == {n}
    requires |g'.entries| == if n == |g.entries| then n + 1 else |g.entries|
    requires forall i :: 0 <= i < |g.entries| && i != n ==> g'.entries[i] == g.entries[i]
    ensures WellFormed(g')
    ensures forall i :: i in g.used ==> g'.Anc(i) == g.Anc(i) <= g.used && g'.entries[i] == g.entries[i]
  {}

  lemma NewIsIsolated(g: Graph, es: Edges, n: nat, g': Graph)
    requires IsClosure(g, es) && n !in g.used && g'.used == g.used + {n} && g'.Anc(n) == {n}
    requires forall i :: i in g.used ==> g'.Anc(i) == g.Anc(i) <= g.used
    ensures IsClosure(g', es)
  {
    ReachSelf(es, n);
    forall p | IsPath(es, p) && |p| > 1
      ensures p[0] != n && p[|p| - 1] != n
    {
      assert (p[0], p[0 + 1]) in es;
      assert (p[|p| - 2], p[|p| - 2 + 1]) in es;
    }
  }
}
