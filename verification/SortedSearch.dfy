// The SearchCandidateFinder object: sorts the positions of a cluster by feerate and searches there.
module SortedSearch {
  import opened Sets
  import opened FeeFracs
  import opened Diagrams
  import opened DepGraphs
  import opened GraphQueries
  import opened Chunkings
  import opened AncestorFinding
  import opened Powers
  import opened WorkQueues
  import opened Search

  // ---------------------------------------------------------------- sorting by feerate

  /** Comparator of the sort: better feerate first, then lower position. */
  predicate SortsBefore(f: seq<FeeFrac>, a: nat, b: nat) {
    TxRate(f, a).Better(TxRate(f, b)) || (!TxRate(f, b).Better(TxRate(f, a)) && a < b)
  }

  ghost predicate SortedPositions(f: seq<FeeFrac>, l: seq<nat>) {
    forall i, j :: 0 <= i < j < |l| ==> SortsBefore(f, l[i], l[j])
  }

  lemma SortsTotal(f: seq<FeeFrac>, a: nat, b: nat)
    requires a != b && !SortsBefore(f, a, b)
    ensures SortsBefore(f, b, a)
  {}

  lemma SortsTrans(f: seq<FeeFrac>, a: nat, b: nat, c: nat)
    requires Positive(f, {a, b, c}) && SortsBefore(f, a, b) && SortsBefore(f, b, c)
    ensures SortsBefore(f, a, c)
  {
    var A, B, C := TxRate(f, a), TxRate(f, b), TxRate(f, c);
    SortsMeansGain(A, B);
    SortsMeansGain(B, C);
    SortsMeansGain(A, C);
    hide FeeFrac.Better, Gain;
    assert A.size > 0 && B.size > 0 && C.size > 0;
    GainSwap(A, B);
    GainSwap(B, C);
    GainSwap(A, C);
    GainTransitive(A, B, C);
    if Gain(A, B) == 0 && Gain(B, C) == 0 { GainTransitive(C, B, A); }
  }

  lemma SortsMeansGain(a: FeeFrac, b: FeeFrac)
    ensures a.Better(b) <==> Gain(a, b) > 0 || (Gain(a, b) == 0 && a.size < b.size)
    ensures b.Better(a) <==> Gain(a, b) < 0 || (Gain(a, b) == 0 && b.size < a.size)
  {}

  method InsertSorted(f: seq<FeeFrac>, l: seq<nat>, x: nat) returns (res: seq<nat>)
    requires SortedPositions(f, l) && x !in l && Positive(f, Elems(l) + {x})
    ensures SortedPositions(f, res)
    ensures forall y :: y in res <==> y in l || y == x
  {
    hide SortsBefore;
    var k := 0;
    while k < |l| && SortsBefore(f, l[k], x)
      invariant k <= |l|
      invariant forall i :: 0 <= i < k ==> SortsBefore(f, l[i], x)
    {
      k := k + 1;
    }
    res := l[..k] + [x] + l[k..];
    if k < |l| { SortsTotal(f, l[k], x); }
    forall j | k <= j < |l| ensures SortsBefore(f, x, l[j]) {
      if j > k {
        assert l[k] in Elems(l) && l[j] in Elems(l);
        SortsTrans(f, x, l[k], l[j]);
      }
    }
    forall i, j | 0 <= i < j < |res| ensures SortsBefore(f, res[i], res[j]) {
      if i == k { assert res[j] == l[j - 1]; }
    }
    assert l == l[..k] + l[k..];
  }

  /** The used positions in the order the search numbers them. */
  method SortPositions(g: Graph) returns (order: seq<nat>)
    requires WellFormed(g) && Positive(g.Rates(), g.used)
    ensures SortedPositions(g.Rates(), order) && Distinct(order) && Elems(order) == g.used
  {
    hide SortsBefore, WellFormed;
    order := [];
    AllInRange(g, g.used);
    for i := 0 to |g.entries|
      invariant SortedPositions(g.Rates(), order)
      invariant forall x :: x in order <==> x in g.used && x < i
    {
      if i in g.used { order := InsertSorted(g.Rates(), order, i); }
    }
    SortedDistinct(g.Rates(), order);
  }

  lemma SortedDistinct(f: seq<FeeFrac>, l: seq<nat>)
    requires SortedPositions(f, l)
    ensures Distinct(l)
  {
    forall i, j | 0 <= i < j < |l| ensures l[i] != l[j] {
      assert SortsBefore(f, l[i], l[j]);
      NotBetterThanSelf(TxRate(f, l[i]));
    }
  }

  /** Inverse of order on the positions it lists. */
  method Invert(order: seq<nat>, range: nat) returns (inv: seq<nat>)
    requires Distinct(order) && forall k :: 0 <= k < |order| ==> order[k] < range
    ensures |inv| == range && forall k :: 0 <= k < |order| ==> inv[order[k]] == k
  {
    inv := seq(range, _ => 0);
    for k := 0 to |order|
      invariant |inv| == range && forall i :: 0 <= i < k ==> inv[order[i]] == i
    {
      inv := inv[order[k] := k];
    }
  }

  // ---------------------------------------------------------------- renaming

  ghost predicate Injective(m: seq<nat>, s: set<nat>) {
    forall i, j :: i in s && j in s && i < |m| && j < |m| && m[i] == m[j] ==> i == j
  }

  /** Renaming keeps the total fee and size of a set. */
  lemma {:induction false} IsoRate(g: Graph, m: seq<nat>, h: Graph, s: set<nat>)
    requires Isomorphic(g, m, h) && Injective(m, g.used) && s <= g.used && forall i :: i in g.used ==> i < |m|
    ensures SetRate(h.Rates(), Image(m, s)) == SetRate(g.Rates(), s)
    decreases |s|
  {
    hide SetRate;
    if s == {} {
      assert Image(m, s) == {};
      SetRateSingleton(g.Rates(), 0);
      SetRateSingleton(h.Rates(), 0);
    } else {
      var x :| x in s;
      var rest := s - {x};
      IsoRate(g, m, h, rest);
      assert s == rest + {x};
      assert Image(m, s) == Image(m, rest) + {m[x]};
      assert m[x] !in Image(m, rest);
      SetRateUnion(g.Rates(), rest, {x});
      SetRateUnion(h.Rates(), Image(m, rest), {m[x]});
      SetRateSingleton(g.Rates(), x);
      SetRateSingleton(h.Rates(), m[x]);
    }
  }

  /** Renaming keeps topologically valid subsets. */
  lemma IsoTopo(g: Graph, m: seq<nat>, h: Graph, todo: set<nat>, s: set<nat>)
    requires Isomorphic(g, m, h) && todo <= g.used && (forall i :: i in g.used ==> i < |m|) && TopoSubset(g, todo, s)
    ensures TopoSubset(h, Image(m, todo), Image(m, s))
  {
    forall y, b | y in Image(m, s) && b in h.Anc(y) && b in Image(m, todo) ensures b in Image(m, s) {
      var x :| x in s && x < |m| && m[x] == y;
      var a :| a in todo && a < |m| && m[a] == b;
      assert a in g.Anc(x);
    }
  }

  lemma ImageInverse(m: seq<nat>, w: seq<nat>, s: set<nat>)
    requires forall i :: i in s ==> i < |m| && m[i] < |w| && w[m[i]] == i
    ensures Image(w, Image(m, s)) == s
  {
    forall i | i in s ensures i in Image(w, Image(m, s)) { assert m[i] in Image(m, s); }
  }

  lemma {:induction false} ImageSize(m: seq<nat>, s: set<nat>)
    requires Injective(m, s) && forall i :: i in s ==> i < |m|
    ensures |Image(m, s)| == |s|
    decreases |s|
  {
    if s == {} {
      assert Image(m, s) == {};
    } else {
      var x :| x in s;
      var rest := s - {x};
      ImageSize(m, rest);
      assert Image(m, s) == Image(m, rest) + {m[x]};
      assert m[x] !in Image(m, rest);
    }
  }

  // ---------------------------------------------------------------- the finder

  class SearchCandidateFinder {
    ghost const g: Graph
    const sortedToOriginal: seq<nat>
    const originalToSorted: seq<nat>
    const sorted: Graph
    /** What is left to do, in sorted positions. */
    var todo: set<nat>

    /** What is left to do, in original positions. */
    ghost function Left(): set<nat>
      reads this
    {
      Image(sortedToOriginal, todo)
    }

    /** The same set in sorted and in original positions. */
    ghost predicate Renamed(found: SetInfo, res: SetInfo) {
      res == SetInfo(Image(sortedToOriginal, found.transactions), found.feerate)
    }

    ghost predicate Renaming() {
      && Cluster(g)
      && (forall i :: i in g.used ==> i < |originalToSorted| && originalToSorted[i] < |sortedToOriginal| && sortedToOriginal[originalToSorted[i]] == i)
      && (forall k :: k in sorted.used ==> k < |sortedToOriginal| && sortedToOriginal[k] < |originalToSorted| && originalToSorted[sortedToOriginal[k]] == k)
      && Isomorphic(g, originalToSorted, sorted) && Isomorphic(sorted, sortedToOriginal, g)
    }

    ghost predicate Valid()
      reads this
    {
      Renaming() && Searchable(sorted, todo)
    }

    constructor (g: Graph)
      requires Cluster(g)
      ensures Valid() && this.g == g && Left() == g.used
    {
      hide WellFormed, Acyclic, Positive, Isomorphic, SortedPositions, ValidMapping, Searchable, IsClosure;
      var order := SortPositions(g);
      AllInRange(g, g.used);
      assert forall k :: 0 <= k < |order| ==> order[k] in Elems(order);
      var inv := Invert(order, |g.entries|);
      OrderIsMapping(g, order, inv);
      var d := Remap(g, inv, |order|, |order|);
      this.g := g;
      sortedToOriginal, originalToSorted, sorted, todo := order, inv, d.View(), d.used;
      new;
      SortedGraphOk(g, order, inv, sorted);
      SearchableUsed(sorted);
    }

    /**
     * Returns a non-empty topologically valid subset of what is left, at least as good as the one
     * given, and the number of splits performed. If that is below the limit, no topologically valid
     * subset has a higher feerate. It is always below the number of subsets of what is left.
     */
    method FindCandidateSet(maxIterations: nat, best: SetInfo) returns (res: SetInfo, iterations: nat)
      requires Valid() && todo != {} && IsInfo(g.Rates(), best)
      requires best.transactions != {} ==> Candidate(g, Left(), best.transactions)
      ensures BestOk(g, Left(), res) && iterations <= maxIterations
      ensures best.transactions != {} ==> !best.feerate.Better(res.feerate)
      ensures iterations < maxIterations ==> Optimal(g, Left(), res.feerate)
      ensures iterations < Pow(2, |Left()|)
      ensures exists found :: Renamed(found, res) && Searched(sorted, todo, found, iterations, iterations < maxIterations)
    {
      hide Cluster, Isomorphic, SetRate, Searchable, Optimal, FeeFrac.Better, Pow, Searched;
      UsedIsAll();
      ImageSize(sortedToOriginal, todo);
      var start := SetInfo(Image(originalToSorted, best.transactions), best.feerate);
      if best.transactions != {} { ToSorted(best.transactions); }
      assert best.transactions == {} ==> start.transactions == {};
      EmptyRates(g, sorted);
      var found, left := SearchSorted(sorted, todo, maxIterations, start);
      res := SetInfo(Image(sortedToOriginal, found.transactions), found.feerate);
      ToOriginal(found.transactions);
      iterations := maxIterations - left;
      assert Renamed(found, res);
      if left > 0 {
        OptimalTransfers(found.feerate);
      }
    }

    /** Removes transactions from what is left. */
    method MarkDone(done: set<nat>)
      requires Valid() && done <= Left()
      modifies this
      ensures Valid() && Left() == old(Left()) - done
    {
      hide Cluster, Isomorphic, Searchable;
      UsedIsAll();
      ghost var before := todo;
      todo := todo - Image(originalToSorted, done);
      LessTodo(sorted, before, todo);
    }

    lemma UsedIsAll()
      requires Valid()
      ensures todo <= sorted.used && Left() <= g.used
      ensures forall k :: k in todo ==> k < |sortedToOriginal| && sortedToOriginal[k] < |originalToSorted| && originalToSorted[sortedToOriginal[k]] == k
      ensures forall k :: k in Left() ==> k in g.used
    {}

    lemma ToSorted(t: set<nat>)
      requires Valid() && Candidate(g, Left(), t)
      ensures Candidate(sorted, todo, Image(originalToSorted, t))
      ensures SetRate(sorted.Rates(), Image(originalToSorted, t)) == SetRate(g.Rates(), t)
    {
      hide SetRate, WellFormed, Acyclic, Positive, SortedByRate;
      IsoTopo(g, originalToSorted, sorted, Left(), t);
      ImageInverse(sortedToOriginal, originalToSorted, todo);
      IsoRate(g, originalToSorted, sorted, t);
      var x :| x in t;
      assert originalToSorted[x] in Image(originalToSorted, t);
    }

    lemma ToOriginal(t: set<nat>)
      requires Valid() && Candidate(sorted, todo, t)
      ensures Candidate(g, Left(), Image(sortedToOriginal, t))
      ensures SetRate(g.Rates(), Image(sortedToOriginal, t)) == SetRate(sorted.Rates(), t)
    {
      hide SetRate, WellFormed, Acyclic, Positive, SortedByRate;
      IsoTopo(sorted, sortedToOriginal, g, todo, t);
      IsoRate(sorted, sortedToOriginal, g, t);
      var x :| x in t;
      assert sortedToOriginal[x] in Image(sortedToOriginal, t);
    }

    lemma OptimalTransfers(best: FeeFrac)
      requires Valid() && Optimal(sorted, todo, best)
      ensures Optimal(g, Left(), best)
    {
      hide SetRate, Valid, FeeFrac.Higher;
      forall t | Candidate(g, Left(), t) ensures !SetRate(g.Rates(), t).Higher(best) { ToSorted(t); }
    }
  }

  lemma SearchableUsed(h: Graph)
    requires Searchable(h, h.used)
    ensures forall k :: k in h.used ==> k < |h.entries|
  {}

  lemma EmptyRates(g: Graph, h: Graph)
    ensures SetRate(g.Rates(), {}) == SetRate(h.Rates(), {}) == EMPTY
  {
    SetRateSingleton(g.Rates(), 0);
    SetRateSingleton(h.Rates(), 0);
  }

  lemma LessTodo(g: Graph, todo: set<nat>, todo': set<nat>)
    requires Searchable(g, todo) && todo' <= todo
    ensures Searchable(g, todo')
  {}

  lemma OrderIsMapping(g: Graph, order: seq<nat>, inv: seq<nat>)
    requires WellFormed(g) && Distinct(order) && Elems(order) == g.used && |inv| == |g.entries|
    requires forall k :: 0 <= k < |order| ==> order[k] < |inv| && inv[order[k]] == k
    ensures ValidMapping(g, inv, |order|) && forall k: nat :: k in Image(inv, g.used) <==> k < |order|
    ensures forall i :: i in g.used ==> i < |inv| && inv[i] < |order| && order[inv[i]] == i
  {
    forall i | i in g.used ensures i < |inv| && inv[i] < |order| && order[inv[i]] == i {
      assert i in Elems(order);
      var k :| 0 <= k < |order| && order[k] == i;
    }
    forall k | 0 <= k < |order| ensures k in Image(inv, g.used) {
      assert order[k] in Elems(order) && inv[order[k]] == k;
    }
  }

  lemma SortedGraphOk(g: Graph, order: seq<nat>, inv: seq<nat>, h: Graph)
    requires Cluster(g) && WellFormed(h) && Isomorphic(g, inv, h) && |h.entries| == |order| && |inv| == |g.entries|
    requires SortedPositions(g.Rates(), order) && Elems(order) == g.used
    requires forall k: nat :: k in Image(inv, g.used) <==> k < |order|
    requires forall k :: 0 <= k < |order| ==> order[k] < |inv| && inv[order[k]] == k
    requires forall i :: i in g.used ==> i < |inv| && inv[i] < |order| && order[inv[i]] == i
    ensures Searchable(h, h.used) && Isomorphic(h, order, g) && Image(order, h.used) == g.used
    ensures forall k: nat :: k in h.used <==> k < |order|
  {
    hide WellFormed, SortsBefore;
    assert forall k: nat :: k in h.used <==> k < |order|;
    forall k | 0 <= k < |order| ensures order[k] in g.used && h.Rates()[k] == TxRate(g.Rates(), order[k]) {
      assert order[k] in Elems(order);
      assert TxRate(h.Rates(), inv[order[k]]) == TxRate(g.Rates(), order[k]);
    }
    forall i, j | 0 <= i <= j < |order| ensures Gain(h.Rates()[j], h.Rates()[i]) <= 0 {
      GainSelf(h.Rates()[i]);
      if i < j { SortedMeansNotAbove(g.Rates(), order[i], order[j]); }
    }
    forall i, j | i in h.used && j in h.used ensures j in h.Anc(i) <==> order[j] in g.Anc(order[i]) {
      assert inv[order[i]] == i && inv[order[j]] == j;
    }
    assert Image(order, h.used) == g.used by {
      forall i | i in g.used ensures i in Image(order, h.used) { assert inv[i] in h.used && order[inv[i]] == i; }
    }
    forall i, j | i in h.used && j in h.Anc(i) && i in h.Anc(j) ensures i == j {
      AncUsed(h, i);
      assert order[j] in g.Anc(order[i]) && order[i] in g.Anc(order[j]);
    }
  }

  lemma SortedMeansNotAbove(f: seq<FeeFrac>, a: nat, b: nat)
    requires SortsBefore(f, a, b)
    ensures Gain(TxRate(f, b), TxRate(f, a)) <= 0
  {
    SortsMeansGain(TxRate(f, a), TxRate(f, b));
    GainSwap(TxRate(f, a), TxRate(f, b));
  }
}
