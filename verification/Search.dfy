// SearchCandidateFinder: bounded branch-and-bound search for the highest-feerate topologically valid
// subset. The search runs on a graph whose positions are sorted by decreasing individual feerate.
module Search {
  import opened Sets
  import opened FeeFracs
  import opened Diagrams
  import opened DepGraphs
  import opened GraphQueries
  import opened Chunkings
  import opened AncestorFinding
  import opened Powers
  import opened WorkQueues

  /** Positions are in order of decreasing feerate. */
  ghost predicate SortedByRate(f: seq<FeeFrac>) {
    forall i, j :: 0 <= i <= j < |f| ==> Gain(f[j], f[i]) <= 0
  }

  /** t is a non-empty topologically valid subset of todo. */
  ghost predicate Candidate(g: Graph, todo: set<nat>, t: set<nat>) {
    t != {} && TopoSubset(g, todo, t)
  }

  /** From (inc, und) one can reach a candidate at least as good as t. */
  ghost predicate Hope(g: Graph, todo: set<nat>, inc: set<nat>, und: set<nat>, t: set<nat>) {
    exists x :: Compatible(inc, und, x) && Candidate(g, todo, x) && Gain(SetRate(g.Rates(), x), SetRate(g.Rates(), t)) >= 0
  }

  /** Some queued item can still lead to something at least as good as t. */
  ghost predicate Pending(g: Graph, todo: set<nat>, queue: seq<WorkItem>, t: set<nat>) {
    exists k :: 0 <= k < |queue| && Hope(g, todo, queue[k].inc.transactions, queue[k].und, t)
  }

  /** Everything better than best is still pending. */
  ghost predicate Complete(g: Graph, todo: set<nat>, queue: seq<WorkItem>, best: FeeFrac) {
    forall t :: Candidate(g, todo, t) && Gain(SetRate(g.Rates(), t), best) > 0 ==> Pending(g, todo, queue, t)
  }

  /** pot bounds the feerate of everything the item can lead to that beats best. */
  ghost predicate Bounded(f: seq<FeeFrac>, inc: set<nat>, und: set<nat>, pot: FeeFrac, best: FeeFrac) {
    forall x :: Compatible(inc, und, x) && Gain(SetRate(f, x), best) > 0 ==> Gain(SetRate(f, x), pot) <= 0
  }

  ghost predicate Shape(g: Graph, todo: set<nat>, inc: set<nat>, und: set<nat>) {
    && inc !! und && TopoSubset(g, todo, inc) && TopoSubset(g, todo, inc + und)
  }

  ghost predicate ItemOk(g: Graph, todo: set<nat>, item: WorkItem, best: FeeFrac) {
    && IsInfo(g.Rates(), item.inc) && item.und != {}
    && Shape(g, todo, item.inc.transactions, item.und)
    && (item.inc.transactions != {} ==>
          && item.pot.size > 0 && Gain(item.inc.feerate, best) <= 0
          && Bounded(g.Rates(), item.inc.transactions, item.und, item.pot, best))
  }

  ghost predicate QueueOk(g: Graph, todo: set<nat>, queue: seq<WorkItem>, best: FeeFrac) {
    forall k :: 0 <= k < |queue| ==> ItemOk(g, todo, queue[k], best)
  }

  ghost predicate BestOk(g: Graph, todo: set<nat>, best: SetInfo) {
    IsInfo(g.Rates(), best) && Candidate(g, todo, best.transactions)
  }

  /** imp holds the remaining transactions whose own feerate beats best. */
  ghost predicate ImpOk(f: seq<FeeFrac>, todo: set<nat>, imp: set<nat>, best: FeeFrac) {
    forall t :: t in imp <==> t in todo && Gain(TxRate(f, t), best) > 0
  }

  /** The part of a graph the search relies on. */
  ghost predicate Searchable(g: Graph, todo: set<nat>) {
    Cluster(g) && SortedByRate(g.Rates()) && todo <= g.used
  }

  // ---------------------------------------------------------------- sums of gains

  lemma {:induction false} GainUpTo(f: seq<FeeFrac>, s: set<nat>, n: nat, r: FeeFrac, sign: bool)
    requires forall t :: t in s ==> if sign then Gain(TxRate(f, t), r) >= 0 else Gain(TxRate(f, t), r) <= 0
    ensures if sign then Gain(RateUpTo(f, s, n), r) >= 0 else Gain(RateUpTo(f, s, n), r) <= 0
  {
    hide Gain;
    if n == 0 {
      GainSelf(r);
    } else {
      GainUpTo(f, s, n - 1, r, sign);
      if n - 1 in s { GainPlus(RateUpTo(f, s, n - 1), TxRate(f, n - 1), r); }
    }
  }

  /** If every member lies on or below the line, so does the set. */
  lemma SetNotAbove(f: seq<FeeFrac>, s: set<nat>, r: FeeFrac)
    requires forall t :: t in s ==> Gain(TxRate(f, t), r) <= 0
    ensures Gain(SetRate(f, s), r) <= 0
  {
    hide Gain;
    GainUpTo(f, s, |f|, r, false);
  }

  lemma SetNotBelow(f: seq<FeeFrac>, s: set<nat>, r: FeeFrac)
    requires forall t :: t in s ==> Gain(TxRate(f, t), r) >= 0
    ensures Gain(SetRate(f, s), r) >= 0
  {
    hide Gain;
    GainUpTo(f, s, |f|, r, true);
  }

  lemma SplitGain(f: seq<FeeFrac>, s: set<nat>, p: set<nat>, r: FeeFrac)
    ensures Gain(SetRate(f, s), r) == Gain(SetRate(f, s * p), r) + Gain(SetRate(f, s - p), r)
  {
    hide Gain, SetRate;
    SetRateSplit(f, s, p);
    GainPlus(SetRate(f, s * p), SetRate(f, s - p), r);
  }

  /** Taking exactly the undecided transactions above a line gets highest above it, topology ignored. */
  lemma GreedyBound(f: seq<FeeFrac>, inc: set<nat>, und: set<nat>, p: set<nat>, x: set<nat>, r: FeeFrac)
    requires Compatible(inc, und, p) && Compatible(inc, und, x)
    requires forall t :: t in und && t !in p ==> Gain(TxRate(f, t), r) <= 0
    requires forall t :: t in p && t !in inc ==> Gain(TxRate(f, t), r) >= 0
    ensures Gain(SetRate(f, x), r) <= Gain(SetRate(f, p), r)
  {
    hide Gain, SetRate;
    SplitGain(f, x, p, r);
    SplitGain(f, p, x, r);
    assert x * p == p * x;
    SetNotAbove(f, x - p, r);
    SetNotBelow(f, p - x, r);
  }

  // ---------------------------------------------------------------- the potential set

  /** pot is inc with the improving undecided transactions below position n. */
  ghost predicate PotUpTo(inc: set<nat>, und: set<nat>, imp: set<nat>, n: nat, pot: set<nat>) {
    forall t :: t in pot <==> t in inc || (t in imp && t in und && t < n)
  }

  /** What holds of the potential set while it grows. */
  ghost predicate PotOk(f: seq<FeeFrac>, inc: set<nat>, und: set<nat>, imp: set<nat>, n: nat, pot: SetInfo, best: FeeFrac) {
    && PotUpTo(inc, und, imp, n, pot.transactions) && IsInfo(f, pot)
    && (forall t :: t in pot.transactions && t !in inc ==> Gain(TxRate(f, t), pot.feerate) >= 0)
    && (forall t, x :: t in pot.transactions && t !in inc && Compatible(inc, und, x) && Gain(SetRate(f, x), best) > 0 ==>
          Gain(TxRate(f, t), SetRate(f, x)) >= 0)
  }

  lemma PotStart(f: seq<FeeFrac>, inc: SetInfo, und: set<nat>, imp: set<nat>, best: FeeFrac)
    requires IsInfo(f, inc)
    ensures PotOk(f, inc.transactions, und, imp, 0, inc, best)
  {}

  lemma PotSkip(f: seq<FeeFrac>, inc: set<nat>, und: set<nat>, imp: set<nat>, n: nat, pot: SetInfo, best: FeeFrac)
    requires PotOk(f, inc, und, imp, n, pot, best) && !(n in imp && n in und)
    ensures PotOk(f, inc, und, imp, n + 1, pot, best)
  {}

  /** The next improving transaction joins the potential set. */
  lemma PotGrow(g: Graph, todo: set<nat>, inc: set<nat>, und: set<nat>, imp: set<nat>, n: nat, pot: SetInfo, best: FeeFrac)
    requires Searchable(g, todo) && Shape(g, todo, inc, und) && inc != {} && best.size > 0
    requires ImpOk(g.Rates(), todo, imp, best) && PotOk(g.Rates(), inc, und, imp, n, pot, best)
    requires n in imp && n in und && Gain(TxRate(g.Rates(), n), pot.feerate) > 0
    ensures PotOk(g.Rates(), inc, und, imp, n + 1,
                  SetInfo(pot.transactions + {n}, pot.feerate.Plus(TxRate(g.Rates(), n))), best)
  {
    hide Gain, SetRate, WellFormed, Acyclic, SortedByRate;
    var f := g.Rates();
    var rn := TxRate(f, n);
    var p := pot.transactions;
    var p' := p + {n};
    var pot' := SetInfo(p', pot.feerate.Plus(rn));
    Sizes(g, todo, n);
    SubsetSizes(g, todo, inc, und, p);
    SetRateUnion(f, p, {n});
    SetRateSingleton(f, n);
    GainPlus(pot.feerate, rn, rn);
    GainSelf(rn);
    GainSwap(rn, pot.feerate);
    GainSwap(rn, pot'.feerate);
    forall t | t in p' && t !in inc ensures Gain(TxRate(f, t), pot'.feerate) >= 0 {
      if t != n {
        Sizes(g, todo, t);
        RateOrder(f, t, n);
        GainTransitive(TxRate(f, t), rn, pot'.feerate);
      }
    }
    forall t, x | t in p' && t !in inc && Compatible(inc, und, x) && Gain(SetRate(f, x), best) > 0
      ensures Gain(TxRate(f, t), SetRate(f, x)) >= 0
    {
      if t == n { NextNotBelow(g, todo, inc, und, imp, n, pot, best, x); }
    }
  }

  lemma Sizes(g: Graph, todo: set<nat>, t: nat)
    requires Searchable(g, todo) && t in todo
    ensures t < |g.Rates()| && TxRate(g.Rates(), t).size > 0
  {}

  lemma SubsetSizes(g: Graph, todo: set<nat>, inc: set<nat>, und: set<nat>, x: set<nat>)
    requires Searchable(g, todo) && Shape(g, todo, inc, und) && inc != {} && Compatible(inc, und, x)
    ensures SetRate(g.Rates(), x).size > 0 && Positive(g.Rates(), x)
  {
    var y :| y in inc;
    assert y in x;
    SetRatePositive(g.Rates(), x);
  }

  lemma RateOrder(f: seq<FeeFrac>, i: nat, j: nat)
    requires SortedByRate(f) && i <= j < |f|
    ensures Gain(TxRate(f, i), TxRate(f, j)) >= 0
  {
    GainSwap(f[i], f[j]);
  }

  /** The transaction that improves pot is not below any compatible set that beats best. */
  lemma NextNotBelow(g: Graph, todo: set<nat>, inc: set<nat>, und: set<nat>, imp: set<nat>, n: nat, pot: SetInfo, best: FeeFrac, x: set<nat>)
    requires Searchable(g, todo) && Shape(g, todo, inc, und) && inc != {} && best.size > 0
    requires ImpOk(g.Rates(), todo, imp, best) && PotUpTo(inc, und, imp, n, pot.transactions) && IsInfo(g.Rates(), pot)
    requires n in imp && n in und && Gain(TxRate(g.Rates(), n), pot.feerate) > 0
    requires Compatible(inc, und, x)
    ensures Gain(TxRate(g.Rates(), n), SetRate(g.Rates(), x)) >= 0
  {
    hide Gain, SetRate, WellFormed, Acyclic, SortedByRate;
    var f := g.Rates();
    var rn := TxRate(f, n);
    forall t | t in und && t !in pot.transactions ensures Gain(TxRate(f, t), rn) <= 0 {
      Sizes(g, todo, t);
      Sizes(g, todo, n);
      if t in imp {
        RateOrder(f, n, t);
        GainSwap(rn, TxRate(f, t));
      } else {
        NotAboveBest(TxRate(f, t), best, rn);
      }
    }
    forall t | t in pot.transactions && t !in inc ensures Gain(TxRate(f, t), rn) >= 0 {
      Sizes(g, todo, n);
      RateOrder(f, t, n);
    }
    GreedyBound(f, inc, und, pot.transactions, x, rn);
    GainSwap(rn, pot.feerate);
    GainSwap(rn, SetRate(f, x));
  }

  /** a is not above b and c is above b, so a is below c. */
  lemma NotAboveBest(a: FeeFrac, b: FeeFrac, c: FeeFrac)
    requires a.size > 0 && b.size > 0 && c.size > 0 && Gain(a, b) <= 0 && Gain(c, b) >= 0
    ensures Gain(a, c) <= 0
  {
    hide Gain;
    GainSwap(a, b);
    GainTransitive(c, b, a);
    GainSwap(a, c);
  }

  /** Once no further transaction improves pot, its feerate bounds every compatible set that beats best. */
  lemma PotBounds(g: Graph, todo: set<nat>, inc: set<nat>, und: set<nat>, imp: set<nat>, n: nat, pot: SetInfo, best: FeeFrac)
    requires Searchable(g, todo) && Shape(g, todo, inc, und) && inc != {} && best.size > 0
    requires ImpOk(g.Rates(), todo, imp, best) && PotOk(g.Rates(), inc, und, imp, n, pot, best)
    requires n >= |g.entries| || (n in imp && n in und && Gain(TxRate(g.Rates(), n), pot.feerate) <= 0)
    ensures Bounded(g.Rates(), inc, und, pot.feerate, best) && pot.feerate.size > 0
  {
    hide Gain, SetRate, WellFormed, Acyclic, SortedByRate;
    var f := g.Rates();
    SubsetSizes(g, todo, inc, und, pot.transactions);
    forall x | Compatible(inc, und, x) && Gain(SetRate(f, x), best) > 0
      ensures Gain(SetRate(f, x), pot.feerate) <= 0
    {
      GainSelf(pot.feerate);
      if Gain(pot.feerate, best) >= 0 {
        forall t | t in und && t !in pot.transactions ensures Gain(TxRate(f, t), pot.feerate) <= 0 {
          LeftOutNotAbove(g, todo, inc, und, imp, n, pot, best, t);
        }
        GreedyBound(f, inc, und, pot.transactions, x, pot.feerate);
      } else {
        AllImproving(g, todo, inc, und, imp, n, pot, best);
        GreedyBound(f, inc, und, pot.transactions, x, best);
      }
    }
  }

  lemma LeftOutNotAbove(g: Graph, todo: set<nat>, inc: set<nat>, und: set<nat>, imp: set<nat>, n: nat, pot: SetInfo, best: FeeFrac, t: nat)
    requires Searchable(g, todo) && Shape(g, todo, inc, und) && inc != {} && best.size > 0 && pot.feerate.size > 0
    requires ImpOk(g.Rates(), todo, imp, best) && PotUpTo(inc, und, imp, n, pot.transactions)
    requires n >= |g.entries| || (n in imp && n in und && Gain(TxRate(g.Rates(), n), pot.feerate) <= 0)
    requires Gain(pot.feerate, best) >= 0 && t in und && t !in pot.transactions
    ensures Gain(TxRate(g.Rates(), t), pot.feerate) <= 0
  {
    hide Gain, SetRate, WellFormed, Acyclic, SortedByRate;
    var f := g.Rates();
    Sizes(g, todo, t);
    if t in imp {
      Sizes(g, todo, n);
      RateOrder(f, n, t);
      GainTransitive(TxRate(f, n), TxRate(f, t), pot.feerate);
    } else {
      NotAboveBest(TxRate(f, t), best, pot.feerate);
    }
  }

  /** When pot stays below best, it already holds every improving transaction. */
  lemma AllImproving(g: Graph, todo: set<nat>, inc: set<nat>, und: set<nat>, imp: set<nat>, n: nat, pot: SetInfo, best: FeeFrac)
    requires Searchable(g, todo) && Shape(g, todo, inc, und) && best.size > 0 && pot.feerate.size > 0
    requires ImpOk(g.Rates(), todo, imp, best) && PotUpTo(inc, und, imp, n, pot.transactions)
    requires n >= |g.entries| || (n in imp && n in und && Gain(TxRate(g.Rates(), n), pot.feerate) <= 0)
    requires Gain(pot.feerate, best) < 0
    ensures forall t :: t in und && t !in pot.transactions ==> Gain(TxRate(g.Rates(), t), best) <= 0
    ensures forall t :: t in pot.transactions && t !in inc ==> Gain(TxRate(g.Rates(), t), best) >= 0
  {
    hide Gain, SetRate, WellFormed, Acyclic, SortedByRate;
    var f := g.Rates();
    if n < |g.entries| {
      Sizes(g, todo, n);
      GainSwap(pot.feerate, TxRate(f, n));
      GainTransitive(pot.feerate, TxRate(f, n), best);
    }
    forall t | t in und && t !in pot.transactions ensures Gain(TxRate(f, t), best) <= 0 {
      Sizes(g, todo, t);
    }
  }

  // ---------------------------------------------------------------- growing pot, jumping ahead, shrinking imp

  /** Adds to pot, ignoring topology, the improving undecided transactions as long as they raise its feerate. */
  method Potential(g: Graph, todo: set<nat>, inc: SetInfo, und: set<nat>, imp: set<nat>, ghost best: FeeFrac) returns (pot: SetInfo)
    requires Searchable(g, todo) && Shape(g, todo, inc.transactions, und) && IsInfo(g.Rates(), inc)
    requires inc.transactions != {} && best.size > 0 && ImpOk(g.Rates(), todo, imp, best)
    ensures IsInfo(g.Rates(), pot) && Compatible(inc.transactions, und, pot.transactions)
    ensures exists n: nat :: PotOk(g.Rates(), inc.transactions, und, imp, n, pot, best)
    ensures Bounded(g.Rates(), inc.transactions, und, pot.feerate, best) && pot.feerate.size > 0
  {
    hide Gain, SetRate, WellFormed, Acyclic, SortedByRate, ImpOk, PotOk, Bounded, Shape;
    ghost var f := g.Rates();
    pot := inc;
    PotStart(f, inc, und, imp, best);
    var n := 0;
    while n < |g.entries|
      invariant PotOk(f, inc.transactions, und, imp, n, pot, best)
    {
      if n in imp && n in und {
        BetterNotLower(TxRate(g.Rates(), n), pot.feerate);
        if !TxRate(g.Rates(), n).Higher(pot.feerate) { break; }
        PotGrow(g, todo, inc.transactions, und, imp, n, pot, best);
        pot := SetInfo(pot.transactions + {n}, pot.feerate.Plus(TxRate(g.Rates(), n)));
      } else {
        PotSkip(f, inc.transactions, und, imp, n, pot, best);
      }
      n := n + 1;
    }
    PotBounds(g, todo, inc.transactions, und, imp, n, pot, best);
    PotCompatible(f, inc.transactions, und, imp, n, pot, best);
  }

  lemma PotCompatible(f: seq<FeeFrac>, inc: set<nat>, und: set<nat>, imp: set<nat>, n: nat, pot: SetInfo, best: FeeFrac)
    requires PotOk(f, inc, und, imp, n, pot, best)
    ensures Compatible(inc, und, pot.transactions) && IsInfo(f, pot)
  {}

  /** Adds to inc every transaction of pot whose remaining ancestors all lie in pot. */
  method JumpAhead(g: Graph, todo: set<nat>, inc: set<nat>, pot: set<nat>) returns (res: set<nat>)
    requires Searchable(g, todo) && TopoSubset(g, todo, inc) && inc <= pot <= todo
    ensures inc <= res <= pot && TopoSubset(g, todo, res)
    ensures forall x :: x in pot && g.Anc(x) * todo <= pot ==> x in res
  {
    hide WellFormed, Acyclic, SortedByRate;
    res := inc;
    for pos := 0 to |g.entries|
      invariant inc <= res <= pot && TopoSubset(g, todo, res)
      invariant forall x :: x in pot && x < pos && g.Anc(x) * todo <= pot ==> x in res
    {
      if pos in pot - inc {
        AncestorsTopo(g, todo, pos);
        var ancTodo := g.Anc(pos) * todo;
        if ancTodo <= pot {
          TopoUnion(g, todo, res, ancTodo);
          res := res + ancTodo;
        }
      }
    }
    AllInRange(g, todo);
  }

  /** Adding what jumping ahead added never loses a better set. */
  lemma JumpKeepsHope(g: Graph, todo: set<nat>, inc: set<nat>, und: set<nat>, imp: set<nat>, n: nat, pot: SetInfo, best: FeeFrac, inc': set<nat>, t: set<nat>)
    requires Searchable(g, todo) && Shape(g, todo, inc, und) && inc != {} && best.size > 0
    requires PotOk(g.Rates(), inc, und, imp, n, pot, best)
    requires inc <= inc' <= pot.transactions && TopoSubset(g, todo, inc')
    requires Candidate(g, todo, t) && Gain(SetRate(g.Rates(), t), best) > 0 && Hope(g, todo, inc, und, t)
    ensures Hope(g, todo, inc', und - inc', t)
  {
    hide Gain, SetRate, WellFormed, Acyclic, SortedByRate;
    var f := g.Rates();
    var x :| Compatible(inc, und, x) && Candidate(g, todo, x) && Gain(SetRate(f, x), SetRate(f, t)) >= 0;
    CandidateSizes(g, todo, x);
    CandidateSizes(g, todo, t);
    GainTransitive(SetRate(f, x), SetRate(f, t), best);
    var y := x + inc';
    TopoUnion(g, todo, x, inc');
    SetNotBelow(f, inc' - x, SetRate(f, x));
    assert y * x == x && y - x == inc' - x;
    SplitGain(f, y, x, SetRate(f, x));
    GainSelf(SetRate(f, x));
    CandidateSizes(g, todo, y);
    GainTransitive(SetRate(f, y), SetRate(f, x), SetRate(f, t));
    assert Compatible(inc', und - inc', y);
  }

  lemma CandidateSizes(g: Graph, todo: set<nat>, x: set<nat>)
    requires Searchable(g, todo) && Candidate(g, todo, x)
    ensures SetRate(g.Rates(), x).size > 0
  {
    SetRatePositive(g.Rates(), x);
  }

  /** The greatest member of a non-empty set. */
  method Last(s: set<nat>, bound: nat) returns (m: nat)
    requires s != {} && forall x :: x in s ==> x < bound
    ensures m in s && forall x :: x in s ==> x <= m
  {
    m := bound - 1;
    ghost var y :| y in s;
    while m !in s
      invariant y <= m < bound && forall x :: x in s ==> x <= m
      decreases m
    {
      m := m - 1;
    }
  }

  /** Drops from the end of imp the transactions that no longer beat best. */
  method ShrinkImp(g: Graph, todo: set<nat>, imp: set<nat>, best: FeeFrac) returns (res: set<nat>)
    requires Searchable(g, todo) && imp <= todo && best.size > 0
    requires forall t :: t in todo && Gain(TxRate(g.Rates(), t), best) > 0 ==> t in imp
    ensures ImpOk(g.Rates(), todo, res, best)
  {
    hide Gain, WellFormed, Acyclic, SortedByRate;
    res := imp;
    AllInRange(g, todo);
    while res != {}
      invariant res <= todo
      invariant forall t :: t in todo && Gain(TxRate(g.Rates(), t), best) > 0 ==> t in res
      decreases res
    {
      var check := Last(res, |g.entries|);
      BetterNotLower(TxRate(g.Rates(), check), best);
      if TxRate(g.Rates(), check).Higher(best) {
        forall t | t in res ensures Gain(TxRate(g.Rates(), t), best) > 0 {
          Sizes(g, todo, t);
          Sizes(g, todo, check);
          RateOrder(g.Rates(), t, check);
          GainTransitive(TxRate(g.Rates(), t), TxRate(g.Rates(), check), best);
        }
        return;
      }
      res := res - {check};
    }
  }

  // ---------------------------------------------------------------- best only improves

  lemma ItemMono(g: Graph, todo: set<nat>, item: WorkItem, best: FeeFrac, best': FeeFrac)
    requires Searchable(g, todo) && ItemOk(g, todo, item, best) && best.size > 0 && best'.size > 0 && Gain(best', best) >= 0
    ensures ItemOk(g, todo, item, best')
  {
    hide Gain, SetRate, WellFormed, Acyclic, SortedByRate;
    if item.inc.transactions != {} {
      var f := g.Rates();
      SubsetSizes(g, todo, item.inc.transactions, item.und, item.inc.transactions);
      NotAboveBest(item.inc.feerate, best, best');
      forall x | Compatible(item.inc.transactions, item.und, x) && Gain(SetRate(f, x), best') > 0
        ensures Gain(SetRate(f, x), item.pot) <= 0
      {
        SubsetSizes(g, todo, item.inc.transactions, item.und, x);
        GainTransitive(SetRate(f, x), best', best);
      }
    }
  }

  lemma QueueMono(g: Graph, todo: set<nat>, queue: seq<WorkItem>, best: FeeFrac, best': FeeFrac)
    requires Searchable(g, todo) && QueueOk(g, todo, queue, best) && best.size > 0 && best'.size > 0 && Gain(best', best) >= 0
    ensures QueueOk(g, todo, queue, best')
  {
    hide ItemOk;
    forall k | 0 <= k < |queue| ensures ItemOk(g, todo, queue[k], best') {
      ItemMono(g, todo, queue[k], best, best');
    }
  }

  lemma ImpMono(g: Graph, todo: set<nat>, imp: set<nat>, best: FeeFrac, best': FeeFrac)
    requires Searchable(g, todo) && ImpOk(g.Rates(), todo, imp, best) && best.size > 0 && best'.size > 0 && Gain(best', best) >= 0
    ensures imp <= todo && forall t :: t in todo && Gain(TxRate(g.Rates(), t), best') > 0 ==> t in imp
  {
    hide Gain, WellFormed, Acyclic, SortedByRate;
    forall t | t in todo && Gain(TxRate(g.Rates(), t), best') > 0 ensures t in imp {
      Sizes(g, todo, t);
      GainTransitive(TxRate(g.Rates(), t), best', best);
    }
  }

  // ---------------------------------------------------------------- adding a work item

  /** What a call of add_fn does to the search state. */
  ghost predicate Added(g: Graph, todo: set<nat>, inc: set<nat>, und: set<nat>, queue: seq<WorkItem>, queue': seq<WorkItem>, best': FeeFrac) {
    && queue <= queue' && |queue'| <= |queue| + 1
    && forall t :: Candidate(g, todo, t) && Gain(SetRate(g.Rates(), t), best') > 0 && Hope(g, todo, inc, und, t) ==> Pending(g, todo, queue', t)
  }

  /**
   * Queues the work item (inc, und) if it can still lead to anything, after extending inc by
   * everything that is certain to be in its best outcome, and updates best and imp.
   */
  method AddItem(g: Graph, todo: set<nat>, inc: SetInfo, und: set<nat>, best: SetInfo, imp: set<nat>, queue: seq<WorkItem>)
    returns (best': SetInfo, imp': set<nat>, queue': seq<WorkItem>)
    requires Searchable(g, todo) && Shape(g, todo, inc.transactions, und) && IsInfo(g.Rates(), inc)
    requires BestOk(g, todo, best) && ImpOk(g.Rates(), todo, imp, best.feerate) && QueueOk(g, todo, queue, best.feerate)
    ensures BestOk(g, todo, best') && !best.feerate.Better(best'.feerate) && Gain(best'.feerate, best.feerate) >= 0
    ensures ImpOk(g.Rates(), todo, imp', best'.feerate) && QueueOk(g, todo, queue', best'.feerate)
    ensures Added(g, todo, inc.transactions, und, queue, queue', best'.feerate) && queue <= queue'
    ensures Queued(inc.transactions, und, queue, queue')
  {
    hide Gain, SetRate, WellFormed, Acyclic, SortedByRate, ImpOk, PotOk, Bounded, Shape, QueueOk, ItemOk, Added, FeeFrac.Better;
    best', imp', queue' := best, imp, queue;
    NotBetterThanSelf(best.feerate);
    GainSelf(best.feerate);
    CandidateSizes(g, todo, best.transactions);
    if inc.transactions != {} {
      var pot := Potential(g, todo, inc, und, imp, best.feerate);
      ghost var n: nat :| PotOk(g.Rates(), inc.transactions, und, imp, n, pot, best.feerate);
      ShapeFacts(g, todo, inc.transactions, und);
      var newInc := JumpAhead(g, todo, inc.transactions, pot.transactions);
      var newUnd := und - newInc;
      var info := SetInfo(newInc, inc.feerate.Plus(SetRate(g.Rates(), newInc - inc.transactions)));
      SetRateSplit(g.Rates(), newInc, inc.transactions);
      assert newInc * inc.transactions == inc.transactions;
      CandidateSizes(g, todo, newInc);
      BetterNotLower(info.feerate, best.feerate);
      if info.feerate.Better(best.feerate) {
        best' := info;
        BetterAsym(info.feerate, best.feerate);
        ImpMono(g, todo, imp, best.feerate, best'.feerate);
        imp' := ShrinkImp(g, todo, imp, best'.feerate);
        QueueMono(g, todo, queue, best.feerate, best'.feerate);
        GainSelf(info.feerate);
      }
      SamePotential(g, todo, newInc, pot);
      if pot.feerate.size == info.feerate.size {
        NothingToGain(g, todo, inc.transactions, und, pot, best.feerate, best'.feerate, queue);
      } else {
        var item := WorkItem(info, newUnd, pot.feerate);
        NewItem(g, todo, inc.transactions, und, imp, n, pot, best.feerate, item, best'.feerate);
        ItemUndecided(g, todo, item, best'.feerate);
        queue' := queue + [item];
        PushItem(g, todo, inc.transactions, und, queue, item, best'.feerate);
      }
    } else if und == {} {
      NothingLeft(g, todo, queue, best.feerate);
    } else {
      var item := WorkItem(inc, und, EMPTY);
      EmptyItem(g, todo, item, best.feerate);
      queue' := queue + [item];
      PushItem(g, todo, {}, und, queue, item, best.feerate);
    }
  }

  lemma BetterAsym(a: FeeFrac, b: FeeFrac)
    requires a.Better(b)
    ensures !b.Better(a)
  {}

  lemma ShapeFacts(g: Graph, todo: set<nat>, inc: set<nat>, und: set<nat>)
    requires Shape(g, todo, inc, und)
    ensures TopoSubset(g, todo, inc) && inc + und <= todo
  {}

  /** Sizes are positive, so a subset of pot with the same size is all of pot. */
  lemma SamePotential(g: Graph, todo: set<nat>, newInc: set<nat>, pot: SetInfo)
    requires Searchable(g, todo) && newInc <= pot.transactions <= todo && IsInfo(g.Rates(), pot)
    ensures SetRate(g.Rates(), newInc).size == pot.feerate.size <==> newInc == pot.transactions
  {
    SetRateSplit(g.Rates(), pot.transactions, newInc);
    assert pot.transactions * newInc == newInc;
    assert pot.transactions == newInc + (pot.transactions - newInc);
    SetRatePositive(g.Rates(), pot.transactions - newInc);
  }

  lemma NothingToGain(g: Graph, todo: set<nat>, inc: set<nat>, und: set<nat>, pot: SetInfo, best: FeeFrac, best': FeeFrac, queue: seq<WorkItem>)
    requires Searchable(g, todo) && Shape(g, todo, inc, und) && inc != {} && best.size > 0 && best'.size > 0
    requires Bounded(g.Rates(), inc, und, pot.feerate, best) && pot.feerate.size > 0
    requires Gain(best', best) >= 0 && Gain(pot.feerate, best') <= 0
    ensures Added(g, todo, inc, und, queue, queue, best')
  {
    hide Gain, SetRate, Searchable, Bounded, Hope;
    forall t | Candidate(g, todo, t) ensures !(Gain(SetRate(g.Rates(), t), best') > 0 && Hope(g, todo, inc, und, t)) {
      NoHopeAbove(g, todo, inc, und, pot, best, best', t);
    }
  }

  lemma NoHopeAbove(g: Graph, todo: set<nat>, inc: set<nat>, und: set<nat>, pot: SetInfo, best: FeeFrac, best': FeeFrac, t: set<nat>)
    requires Searchable(g, todo) && Shape(g, todo, inc, und) && inc != {} && best.size > 0 && best'.size > 0
    requires Bounded(g.Rates(), inc, und, pot.feerate, best) && pot.feerate.size > 0
    requires Gain(best', best) >= 0 && Gain(pot.feerate, best') <= 0 && Candidate(g, todo, t)
    ensures !(Gain(SetRate(g.Rates(), t), best') > 0 && Hope(g, todo, inc, und, t))
  {
    hide Gain, SetRate, WellFormed, Acyclic, SortedByRate;
    var f := g.Rates();
    if Gain(SetRate(f, t), best') > 0 && Hope(g, todo, inc, und, t) {
      var x :| Compatible(inc, und, x) && Candidate(g, todo, x) && Gain(SetRate(f, x), SetRate(f, t)) >= 0;
      CandidateSizes(g, todo, x);
      CandidateSizes(g, todo, t);
      GainTransitive(SetRate(f, x), SetRate(f, t), best');
      GainTransitive(SetRate(f, x), best', best);
      NotBoth(SetRate(f, x), pot.feerate, best');
    }
  }

  /** Nothing is above best', not above pot, and pot not above best'. */
  lemma NotBoth(x: FeeFrac, pot: FeeFrac, best': FeeFrac)
    requires x.size > 0 && pot.size > 0 && best'.size > 0 && Gain(pot, best') <= 0
    ensures !(Gain(x, best') > 0 && Gain(x, pot) <= 0)
  {
    hide Gain;
    if Gain(x, pot) <= 0 {
      GainSwap(x, pot);
      GainTransitive(pot, x, best');
    }
  }

  lemma NewItem(g: Graph, todo: set<nat>, inc: set<nat>, und: set<nat>, imp: set<nat>, n: nat, pot: SetInfo, best: FeeFrac, item: WorkItem, best': FeeFrac)
    requires Searchable(g, todo) && Shape(g, todo, inc, und) && inc != {} && best.size > 0 && best'.size > 0
    requires PotOk(g.Rates(), inc, und, imp, n, pot, best) && Bounded(g.Rates(), inc, und, pot.feerate, best) && pot.feerate.size > 0
    requires inc <= item.inc.transactions <= pot.transactions && item.inc.transactions != pot.transactions
    requires TopoSubset(g, todo, item.inc.transactions) && IsInfo(g.Rates(), item.inc)
    requires item.und == und - item.inc.transactions && item.pot == pot.feerate
    requires Gain(best', best) >= 0 && Gain(item.inc.feerate, best') <= 0
    ensures ItemOk(g, todo, item, best')
    ensures forall t :: Candidate(g, todo, t) && Gain(SetRate(g.Rates(), t), best') > 0 && Hope(g, todo, inc, und, t) ==>
              Hope(g, todo, item.inc.transactions, item.und, t)
  {
    hide Gain, SetRate, WellFormed, Acyclic, SortedByRate, PotOk, Hope;
    var f := g.Rates();
    var newInc := item.inc.transactions;
    PotCompatible(f, inc, und, imp, n, pot, best);
    assert pot.transactions == newInc + (pot.transactions - newInc);
    var y :| y in pot.transactions - newInc;
    assert y in item.und;
    assert newInc + item.und == inc + und;
    forall x | Compatible(newInc, item.und, x) && Gain(SetRate(f, x), best') > 0 ensures Gain(SetRate(f, x), pot.feerate) <= 0 {
      SubsetSizes(g, todo, inc, und, x);
      GainTransitive(SetRate(f, x), best', best);
    }
    forall t | Candidate(g, todo, t) && Gain(SetRate(f, t), best') > 0 && Hope(g, todo, inc, und, t)
      ensures Hope(g, todo, newInc, item.und, t)
    {
      CandidateSizes(g, todo, t);
      GainTransitive(SetRate(f, t), best', best);
      JumpKeepsHope(g, todo, inc, und, imp, n, pot, best, newInc, t);
    }
  }

  lemma PushItem(g: Graph, todo: set<nat>, inc: set<nat>, und: set<nat>, queue: seq<WorkItem>, item: WorkItem, best: FeeFrac)
    requires QueueOk(g, todo, queue, best) && ItemOk(g, todo, item, best)
    requires forall t :: Candidate(g, todo, t) && Gain(SetRate(g.Rates(), t), best) > 0 && Hope(g, todo, inc, und, t) ==>
               Hope(g, todo, item.inc.transactions, item.und, t)
    ensures QueueOk(g, todo, queue + [item], best) && Added(g, todo, inc, und, queue, queue + [item], best)
  {
    hide Gain, SetRate, Hope, ItemOk;
    var queue' := queue + [item];
    forall t | Candidate(g, todo, t) && Gain(SetRate(g.Rates(), t), best) > 0 && Hope(g, todo, inc, und, t) ensures Pending(g, todo, queue', t) {
      assert queue'[|queue|] == item;
    }
  }

  lemma NothingLeft(g: Graph, todo: set<nat>, queue: seq<WorkItem>, best: FeeFrac)
    ensures Added(g, todo, {}, {}, queue, queue, best)
  {
    assert forall t :: !Hope(g, todo, {}, {}, t);
  }

  lemma EmptyItem(g: Graph, todo: set<nat>, item: WorkItem, best: FeeFrac)
    requires item.inc.transactions == {} && item.und != {} && IsInfo(g.Rates(), item.inc) && Shape(g, todo, {}, item.und)
    ensures ItemOk(g, todo, item, best)
  {}

  // ---------------------------------------------------------------- splitting a work item

  /** Everything better than best is pending in elem or in the queue. */
  ghost predicate CompleteWith(g: Graph, todo: set<nat>, elem: WorkItem, queue: seq<WorkItem>, best: FeeFrac) {
    forall t :: Candidate(g, todo, t) && Gain(SetRate(g.Rates(), t), best) > 0 ==>
      Hope(g, todo, elem.inc.transactions, elem.und, t) || Pending(g, todo, queue, t)
  }

  lemma DropHopeless(g: Graph, todo: set<nat>, elem: WorkItem, queue: seq<WorkItem>, best: FeeFrac)
    requires Searchable(g, todo) && CompleteWith(g, todo, elem, queue, best) && Hopeless(g, elem, best) && best.size > 0
    ensures Complete(g, todo, queue, best)
  {
    hide Gain, SetRate, Searchable, Hopeless, Hope;
    forall t | Candidate(g, todo, t) ensures !(Gain(SetRate(g.Rates(), t), best) > 0 && Hope(g, todo, elem.inc.transactions, elem.und, t)) {
      HopelessAt(g, todo, elem, best, t);
    }
  }

  lemma HopelessAt(g: Graph, todo: set<nat>, elem: WorkItem, best: FeeFrac, t: set<nat>)
    requires Searchable(g, todo) && Hopeless(g, elem, best) && best.size > 0 && Candidate(g, todo, t)
    ensures !(Gain(SetRate(g.Rates(), t), best) > 0 && Hope(g, todo, elem.inc.transactions, elem.und, t))
  {
    hide Gain, SetRate, WellFormed, Acyclic, SortedByRate;
    var f := g.Rates();
    if Gain(SetRate(f, t), best) > 0 && Hope(g, todo, elem.inc.transactions, elem.und, t) {
      var x :| Compatible(elem.inc.transactions, elem.und, x) && Candidate(g, todo, x) && Gain(SetRate(f, x), SetRate(f, t)) >= 0;
      CandidateSizes(g, todo, x);
      CandidateSizes(g, todo, t);
      GainTransitive(SetRate(f, x), SetRate(f, t), best);
    }
  }

  /** No undecided transaction beats best on its own. */
  lemma NoImproving(g: Graph, todo: set<nat>, elem: WorkItem, imp: set<nat>, best: FeeFrac)
    requires ItemOk(g, todo, elem, best) && elem.inc.transactions != {} && ImpOk(g.Rates(), todo, imp, best) && elem.und !! imp
    ensures Hopeless(g, elem, best)
  {
    hide Gain, SetRate;
    forall x | Compatible(elem.inc.transactions, elem.und, x) && x != {} ensures Gain(SetRate(g.Rates(), x), best) <= 0 {
      var inc := elem.inc.transactions;
      SplitGain(g.Rates(), x, inc, best);
      assert x * inc == inc;
      forall t | t in x - inc ensures Gain(TxRate(g.Rates(), t), best) <= 0 { assert t in elem.und && t in todo; }
      SetNotAbove(g.Rates(), x - inc, best);
    }
  }

  /** The bound of the item does not exceed best. */
  lemma LowPotential(g: Graph, todo: set<nat>, elem: WorkItem, best: FeeFrac)
    requires Searchable(g, todo) && ItemOk(g, todo, elem, best) && elem.inc.transactions != {} && best.size > 0 && Gain(elem.pot, best) <= 0
    ensures Hopeless(g, elem, best)
  {
    hide Gain, SetRate, WellFormed, Acyclic, SortedByRate;
    forall x | Compatible(elem.inc.transactions, elem.und, x) && x != {} ensures Gain(SetRate(g.Rates(), x), best) <= 0 {
      SubsetSizes(g, todo, elem.inc.transactions, elem.und, x);
      NotBoth(SetRate(g.Rates(), x), elem.pot, best);
    }
  }

  /** Nothing is included yet and even the best undecided transaction does not beat best. */
  lemma LowFirst(g: Graph, todo: set<nat>, elem: WorkItem, first: nat, best: FeeFrac)
    requires Searchable(g, todo) && ItemOk(g, todo, elem, best) && elem.inc.transactions == {} && best.size > 0
    requires first in elem.und && (forall t :: t in elem.und ==> first <= t) && Gain(TxRate(g.Rates(), first), best) <= 0
    ensures Hopeless(g, elem, best)
  {
    hide Gain, SetRate, WellFormed, Acyclic, SortedByRate;
    forall x | Compatible(elem.inc.transactions, elem.und, x) && x != {} ensures Gain(SetRate(g.Rates(), x), best) <= 0 {
      forall t | t in x ensures Gain(TxRate(g.Rates(), t), best) <= 0 {
        assert t in elem.und;
        Sizes(g, todo, t);
        Sizes(g, todo, first);
        RateOrder(g.Rates(), first, t);
        GainTransitive(TxRate(g.Rates(), first), TxRate(g.Rates(), t), best);
      }
      SetNotAbove(g.Rates(), x, best);
    }
  }

  /** The transaction among select whose inclusion and exclusion leave the least search space. */
  method ChooseSplit(g: Graph, und: set<nat>, select: set<nat>) returns (split: nat)
    requires select != {} && forall t :: t in select ==> t < |g.entries|
    ensures split in select
    ensures forall t :: t in select ==> !LessCounts(SplitCounts(g, und, t), SplitCounts(g, und, split))
  {
    var found := false;
    split := 0;
    for t := 0 to |g.entries|
      invariant found ==> split in select
      invariant !found ==> forall k :: k in select ==> k >= t
      invariant found ==> forall k :: k in select && k < t ==> !LessCounts(SplitCounts(g, und, k), SplitCounts(g, und, split))
    {
      if t in select && (!found || LessCounts(SplitCounts(g, und, t), SplitCounts(g, und, split))) {
        split, found := t, true;
      }
    }
    ghost var x :| x in select;
    assert found;
  }

  /** Sizes of the undecided set after including and after excluding t, the larger first. */
  function SplitCounts(g: Graph, und: set<nat>, t: nat): (nat, nat) {
    var a, b := |und - g.Anc(t)|, |und - g.Desc(t)|;
    if a < b then (b, a) else (a, b)
  }

  predicate LessCounts(a: (nat, nat), b: (nat, nat)) {
    a.0 < b.0 || (a.0 == b.0 && a.1 < b.1)
  }

  lemma ExcludedShape(g: Graph, todo: set<nat>, inc: set<nat>, und: set<nat>, split: nat)
    requires Searchable(g, todo) && Shape(g, todo, inc, und) && split in und
    ensures Shape(g, todo, inc, und - g.Desc(split))
  {
    hide WellFormed, Acyclic, SortedByRate;
    var all := inc + (und - g.Desc(split));
    forall x, a | x in all && a in g.Anc(x) && a in todo ensures a in all {
      assert a in inc + und;
      if a in g.Desc(split) && a !in inc {
        AncUsed(g, split);
        AncDesc(g, a, split);
        AncTrans(g, x, a, split);
        AncDesc(g, x, split);
      }
    }
  }

  lemma IncludedShape(g: Graph, todo: set<nat>, inc: set<nat>, und: set<nat>, split: nat)
    requires Searchable(g, todo) && Shape(g, todo, inc, und) && split in und
    ensures Shape(g, todo, inc + g.Anc(split) * todo, und - g.Anc(split) * todo)
  {
    hide WellFormed, Acyclic, SortedByRate;
    var anc := g.Anc(split) * todo;
    AncestorsTopo(g, todo, split);
    TopoUnion(g, todo, inc, anc);
    assert anc <= inc + und;
    assert inc + anc + (und - anc) == inc + und;
  }

  /** A compatible set either leaves the split transaction out or takes it with all its ancestors. */
  lemma SplitHope(g: Graph, todo: set<nat>, inc: set<nat>, und: set<nat>, split: nat, t: set<nat>)
    requires Searchable(g, todo) && Shape(g, todo, inc, und) && split in und && Hope(g, todo, inc, und, t)
    ensures Hope(g, todo, inc, und - g.Desc(split), t) || Hope(g, todo, inc + g.Anc(split) * todo, und - g.Anc(split) * todo, t)
  {
    hide Gain, SetRate, WellFormed, Acyclic, SortedByRate;
    var f := g.Rates();
    var x :| Compatible(inc, und, x) && Candidate(g, todo, x) && Gain(SetRate(f, x), SetRate(f, t)) >= 0;
    if split in x {
      assert Compatible(inc + g.Anc(split) * todo, und - g.Anc(split) * todo, x);
    } else {
      forall d | d in x ensures d !in g.Desc(split) { AncDesc(g, d, split); }
      assert Compatible(inc, und - g.Desc(split), x);
    }
  }

  lemma PendingPrefix(g: Graph, todo: set<nat>, queue: seq<WorkItem>, queue': seq<WorkItem>, t: set<nat>)
    requires queue <= queue' && Pending(g, todo, queue, t)
    ensures Pending(g, todo, queue', t)
  {
    hide Hope;
    var k :| 0 <= k < |queue| && Hope(g, todo, queue[k].inc.transactions, queue[k].und, t);
    assert queue'[k] == queue[k];
  }

  lemma SplitComplete(g: Graph, todo: set<nat>, elem: WorkItem, split: nat, queue: seq<WorkItem>, best: FeeFrac,
                      q1: seq<WorkItem>, b1: FeeFrac, q2: seq<WorkItem>, b2: FeeFrac)
    requires Searchable(g, todo) && Shape(g, todo, elem.inc.transactions, elem.und) && split in elem.und
    requires CompleteWith(g, todo, elem, queue, best)
    requires Added(g, todo, elem.inc.transactions, elem.und - g.Desc(split), queue, q1, b1)
    requires Added(g, todo, elem.inc.transactions + g.Anc(split) * todo, elem.und - g.Anc(split) * todo, q1, q2, b2)
    requires best.size > 0 && b1.size > 0 && b2.size > 0 && Gain(b1, best) >= 0 && Gain(b2, b1) >= 0
    ensures Complete(g, todo, q2, b2)
  {
    hide Gain, SetRate, WellFormed, Acyclic, SortedByRate, Hope, Pending;
    var f := g.Rates();
    forall t | Candidate(g, todo, t) && Gain(SetRate(f, t), b2) > 0 ensures Pending(g, todo, q2, t) {
      CandidateSizes(g, todo, t);
      GainTransitive(SetRate(f, t), b2, b1);
      GainTransitive(SetRate(f, t), b1, best);
      if Pending(g, todo, queue, t) {
        PendingPrefix(g, todo, queue, q2, t);
      } else {
        SplitHope(g, todo, elem.inc.transactions, elem.und, split, t);
        if Hope(g, todo, elem.inc.transactions, elem.und - g.Desc(split), t) { PendingPrefix(g, todo, q1, q2, t); }
      }
    }
  }

  /** The checks at the head of split_fn: true when nothing elem leads to can beat best. */
  method CanDrop(g: Graph, todo: set<nat>, elem: WorkItem, best: SetInfo, imp: set<nat>, first: nat) returns (drop: bool)
    requires Searchable(g, todo) && ItemOk(g, todo, elem, best.feerate) && best.feerate.size > 0
    requires ImpOk(g.Rates(), todo, imp, best.feerate) && first in elem.und && forall t :: t in elem.und ==> first <= t
    ensures drop ==> Hopeless(g, elem, best.feerate)
  {
    hide Gain, SetRate, Searchable, ImpOk, ItemOk, FeeFrac.Better, Hopeless;
    ItemFacts(g, todo, elem, best.feerate);
    if !elem.inc.feerate.IsEmpty() {
      if elem.und !! imp {
        NoImproving(g, todo, elem, imp, best.feerate);
        return true;
      }
      BetterNotLower(elem.pot, best.feerate);
      if !elem.pot.Better(best.feerate) {
        LowPotential(g, todo, elem, best.feerate);
        return true;
      }
    } else {
      BetterNotLower(TxRate(g.Rates(), first), best.feerate);
      if !TxRate(g.Rates(), first).Better(best.feerate) {
        LowFirst(g, todo, elem, first, best.feerate);
        return true;
      }
    }
    return false;
  }

  /** Adds the two items for leaving out and for taking the split transaction. */
  method Branch(g: Graph, todo: set<nat>, elem: WorkItem, split: nat, best: SetInfo, imp: set<nat>, queue: seq<WorkItem>)
    returns (best': SetInfo, imp': set<nat>, queue': seq<WorkItem>)
    requires Searchable(g, todo) && ItemOk(g, todo, elem, best.feerate) && CompleteWith(g, todo, elem, queue, best.feerate)
    requires split in elem.und
    requires BestOk(g, todo, best) && ImpOk(g.Rates(), todo, imp, best.feerate) && QueueOk(g, todo, queue, best.feerate)
    ensures BestOk(g, todo, best') && !best.feerate.Better(best'.feerate)
    ensures ImpOk(g.Rates(), todo, imp', best'.feerate) && QueueOk(g, todo, queue', best'.feerate)
    ensures Complete(g, todo, queue', best'.feerate) && queue <= queue'
    ensures SplitInto(g, todo, elem, split, queue, queue')
  {
    hide Queued, Gain, SetRate, Searchable, ImpOk, Shape, QueueOk, ItemOk, Added, FeeFrac.Better, Complete, CompleteWith, Candidate;
    ItemFacts(g, todo, elem, best.feerate);
    OwnAncestor(g, todo, split);
    ExcludedShape(g, todo, elem.inc.transactions, elem.und, split);
    IncludedShape(g, todo, elem.inc.transactions, elem.und, split);
    best', imp', queue' := AddItem(g, todo, elem.inc, elem.und - g.Desc(split), best, imp, queue);
    ghost var b1, q1 := best', queue';
    var anc := g.Anc(split) * todo;
    var inc := SetInfo(elem.inc.transactions + anc, elem.inc.feerate.Plus(SetRate(g.Rates(), anc - elem.inc.transactions)));
    SetRateUnion(g.Rates(), elem.inc.transactions, anc - elem.inc.transactions);
    assert elem.inc.transactions + (anc - elem.inc.transactions) == inc.transactions;
    best', imp', queue' := AddItem(g, todo, inc, elem.und - anc, best', imp', queue');
    assert Queued(elem.inc.transactions, elem.und - g.Desc(split), queue, q1) && Queued(elem.inc.transactions + anc, elem.und - anc, q1, queue');
    CandidateSizes(g, todo, best.transactions);
    CandidateSizes(g, todo, b1.transactions);
    CandidateSizes(g, todo, best'.transactions);
    SplitComplete(g, todo, elem, split, queue, best.feerate, q1, b1.feerate, queue', best'.feerate);
    NotBetterTrans(best.feerate, b1.feerate, best'.feerate);
  }

  /**
   * Processes one work item: it is dropped when nothing it leads to can beat best, and otherwise
   * split into one item without and one item with a chosen transaction.
   */
  method SplitItem(g: Graph, todo: set<nat>, elem: WorkItem, best: SetInfo, imp: set<nat>, queue: seq<WorkItem>)
    returns (best': SetInfo, imp': set<nat>, queue': seq<WorkItem>, performed: bool, ghost split: nat)
    requires Searchable(g, todo) && ItemOk(g, todo, elem, best.feerate) && CompleteWith(g, todo, elem, queue, best.feerate)
    requires BestOk(g, todo, best) && ImpOk(g.Rates(), todo, imp, best.feerate) && QueueOk(g, todo, queue, best.feerate)
    ensures BestOk(g, todo, best') && !best.feerate.Better(best'.feerate)
    ensures ImpOk(g.Rates(), todo, imp', best'.feerate) && QueueOk(g, todo, queue', best'.feerate)
    ensures Complete(g, todo, queue', best'.feerate) && queue <= queue'
    ensures performed ==> SplitInto(g, todo, elem, split, queue, queue')
    ensures !performed ==> queue' == queue && best' == best && Hopeless(g, elem, best.feerate)
  {
    hide SplitInto, Gain, SetRate, Searchable, ImpOk, QueueOk, ItemOk, FeeFrac.Better, Complete, CompleteWith, Hopeless, Candidate;
    NotBetterThanSelf(best.feerate);
    CandidateSizes(g, todo, best.transactions);
    ItemFacts(g, todo, elem, best.feerate);
    var first := Least(elem.und);
    var drop := CanDrop(g, todo, elem, best, imp, first);
    if drop {
      DropHopeless(g, todo, elem, queue, best.feerate);
      return best, imp, queue, false, 0;
    }
    OwnAncestor(g, todo, first);
    var select := elem.und * g.Anc(first);
    assert first in select;
    var tx := ChooseSplit(g, elem.und, select);
    best', imp', queue' := Branch(g, todo, elem, tx, best, imp, queue);
    split := tx;
    performed := true;
  }

  lemma OwnAncestor(g: Graph, todo: set<nat>, x: nat)
    requires Searchable(g, todo) && x in todo
    ensures x in g.Anc(x) && x in g.Desc(x)
  {}

  lemma NotBetterTrans(a: FeeFrac, b: FeeFrac, c: FeeFrac)
    requires a.size > 0 && b.size > 0 && c.size > 0 && !a.Better(b) && !b.Better(c)
    ensures !a.Better(c)
  {
    BetterMeansGain(a, b);
    BetterMeansGain(b, c);
    BetterMeansGain(a, c);
    hide FeeFrac.Better, Gain;
    GainSwap(a, b);
    GainSwap(b, c);
    GainSwap(a, c);
    GainTransitive(c, b, a);
    if Gain(a, b) == 0 { GainTransitive(a, b, c); }
  }

  lemma ItemFacts(g: Graph, todo: set<nat>, elem: WorkItem, best: FeeFrac)
    requires Searchable(g, todo) && ItemOk(g, todo, elem, best)
    ensures elem.und != {} && elem.und <= todo && elem.inc.transactions <= todo && IsInfo(g.Rates(), elem.inc)
    ensures Shape(g, todo, elem.inc.transactions, elem.und)
    ensures elem.inc.feerate.IsEmpty() <==> elem.inc.transactions == {}
    ensures forall t :: t in elem.und ==> t < |g.entries|
  {
    SetRatePositive(g.Rates(), elem.inc.transactions);
  }

  /** The least member of a non-empty set. */
  method Least(s: set<nat>) returns (m: nat)
    requires s != {}
    ensures m in s && forall x :: x in s ==> m <= x
  {
    ghost var y :| y in s;
    m := 0;
    while m !in s
      invariant m <= y && forall x :: x in s ==> m <= x
      decreases y - m
    {
      m := m + 1;
    }
  }

  // ---------------------------------------------------------------- initial items: connected components

  /** Of a set and its complement within x, one is at least as good as x. */
  lemma HalfAsGood(f: seq<FeeFrac>, x: set<nat>, c: set<nat>)
    requires x != {}
    ensures (x * c != {} && Gain(SetRate(f, x * c), SetRate(f, x)) >= 0) || (x - c != {} && Gain(SetRate(f, x - c), SetRate(f, x)) >= 0)
  {
    hide Gain, SetRate;
    GainSelf(SetRate(f, x));
    SplitGain(f, x, c, SetRate(f, x));
    var p, q := x * c, x - c;
    assert x == p + q;
    if p == {} { assert p + q == q; }
    if q == {} { assert p + q == p; }
  }

  lemma CoverComponent(g: Graph, todo: set<nat>, left: set<nat>, c: set<nat>, t: set<nat>)
    requires Searchable(g, todo) && left <= todo && ClosedIn(g, todo, left) && c <= left && ClosedIn(g, left, c)
    requires Candidate(g, todo, t) && Hope(g, todo, {}, left, t)
    ensures Hope(g, todo, {}, c, t) || Hope(g, todo, {}, left - c, t)
  {
    hide Gain, SetRate, WellFormed, Acyclic, SortedByRate;
    var f := g.Rates();
    var x :| Compatible({}, left, x) && Candidate(g, todo, x) && Gain(SetRate(f, x), SetRate(f, t)) >= 0;
    HalfAsGood(f, x, c);
    ComponentClosed(g, todo, left, c);
    ComponentTopo(g, todo, c, x);
    CandidateSizes(g, todo, x);
    CandidateSizes(g, todo, t);
    if x * c != {} && Gain(SetRate(f, x * c), SetRate(f, x)) >= 0 {
      CandidateSizes(g, todo, x * c);
      GainTransitive(SetRate(f, x * c), SetRate(f, x), SetRate(f, t));
      assert Compatible({}, c, x * c);
    } else {
      CandidateSizes(g, todo, x - c);
      GainTransitive(SetRate(f, x - c), SetRate(f, x), SetRate(f, t));
      assert Compatible({}, left - c, x - c);
    }
  }

  lemma ComponentClosed(g: Graph, todo: set<nat>, left: set<nat>, c: set<nat>)
    requires WellFormed(g) && todo <= g.used && left <= todo && ClosedIn(g, todo, left) && c <= left && ClosedIn(g, left, c)
    ensures ClosedIn(g, todo, c) && ClosedIn(g, todo, left - c)
  {
    hide WellFormed;
    forall a, b | a in c && b in todo && (b in g.Anc(a) || b in g.Desc(a)) ensures b in c { assert b in left; }
    forall a, b | a in left - c && b in todo && (b in g.Anc(a) || b in g.Desc(a)) ensures b in left - c {
      assert b in left;
      AncDesc(g, a, b);
      AncDesc(g, b, a);
    }
  }

  /** Everything is pending in the queue or in what is still to be covered. */
  ghost predicate Covering(g: Graph, todo: set<nat>, queue: seq<WorkItem>, left: set<nat>) {
    forall t :: Candidate(g, todo, t) ==> Pending(g, todo, queue, t) || Hope(g, todo, {}, left, t)
  }

  lemma CoverStart(g: Graph, todo: set<nat>)
    ensures Covering(g, todo, [], todo) && ClosedIn(g, todo, todo)
  {
    forall t | Candidate(g, todo, t) ensures Hope(g, todo, {}, todo, t) {
      GainSelf(SetRate(g.Rates(), t));
      assert Compatible({}, todo, t);
    }
  }

  lemma CoverStep(g: Graph, todo: set<nat>, queue: seq<WorkItem>, left: set<nat>, c: set<nat>, item: WorkItem)
    requires Searchable(g, todo) && left <= todo && ClosedIn(g, todo, left) && c <= left && ClosedIn(g, left, c)
    requires Covering(g, todo, queue, left) && item.inc.transactions == {} && item.und == c
    ensures Covering(g, todo, queue + [item], left - c)
  {
    hide Hope, Searchable;
    var queue' := queue + [item];
    forall t | Candidate(g, todo, t) ensures Pending(g, todo, queue', t) || Hope(g, todo, {}, left - c, t) {
      if Pending(g, todo, queue, t) {
        PendingPrefix(g, todo, queue, queue', t);
      } else {
        CoverComponent(g, todo, left, c, t);
        assert queue'[|queue|] == item;
      }
    }
  }

  lemma CoverDone(g: Graph, todo: set<nat>, queue: seq<WorkItem>, best: FeeFrac)
    requires Covering(g, todo, queue, {})
    ensures Complete(g, todo, queue, best)
  {
    assert forall t :: !Hope(g, todo, {}, {}, t);
  }

  /** One empty work item per connected component, and the first component as best if none is given. */
  method InitialQueue(g: Graph, todo: set<nat>, start: SetInfo) returns (queue: seq<WorkItem>, best: SetInfo)
    requires Searchable(g, todo) && todo != {} && IsInfo(g.Rates(), start)
    requires start.transactions != {} ==> Candidate(g, todo, start.transactions)
    ensures BestOk(g, todo, best) && (start.transactions != {} ==> best == start)
    ensures Complete(g, todo, queue, best.feerate) && QueueOk(g, todo, queue, best.feerate)
    ensures Weight(queue) < Pow(2, |todo|) && Roomy(queue, |todo|)
  {
    hide Weight, Pow, Roomy, Gain, SetRate, WellFormed, Acyclic, SortedByRate, Complete, Covering, ItemOk, Positive;
    queue, best := [], start;
    var left := todo;
    CoverStart(g, todo);
    SetRateSingleton(g.Rates(), 0);
    NoWeight();
    assert Roomy(queue, |todo|) by { NoItems(|todo|); }
    while left != {}
      invariant left <= todo && ClosedIn(g, todo, left) && Covering(g, todo, queue, left)
      invariant left == {} ==> BestOk(g, todo, best)
      invariant Weight(queue) + Pow(2, |left|) <= Pow(2, |todo|)
      invariant |queue| + |left| <= |todo| && Roomy(queue, |todo|)
      invariant IsInfo(g.Rates(), best)
      invariant best.transactions != {} ==> Candidate(g, todo, best.transactions)
      invariant start.transactions != {} ==> best == start
      invariant forall k, b :: 0 <= k < |queue| ==> ItemOk(g, todo, queue[k], b)
      decreases left
    {
      var tx := Least(left);
      var component := GetConnectedComponent(g, left, tx);
      var item := WorkItem(SetInfo({}, EMPTY), component, EMPTY);
      CoverStep(g, todo, queue, left, component, item);
      ComponentClosed(g, todo, left, component);
      ComponentWeight(queue, item, left, Pow(2, |todo|));
      ComponentRoom(queue, item, left, |todo|);
      NewComponent(g, todo, component, item, best);
      left := left - component;
      if best.feerate.IsEmpty() { best := SetInfo(component, SetRate(g.Rates(), component)); }
      queue := queue + [item];
    }
    CoverDone(g, todo, queue, best.feerate);
  }

  lemma NoItems(cap: nat)
    ensures Roomy([], cap)
  {}

  lemma ComponentRoom(queue: seq<WorkItem>, item: WorkItem, left: set<nat>, cap: nat)
    requires {} < item.und <= left && |queue| + |left| <= cap && Roomy(queue, cap)
    ensures Roomy(queue + [item], cap) && |queue + [item]| + |left - item.und| <= cap
  {
    SubsetSize(item.und, left);
    assert left == item.und + (left - item.und);
  }

  lemma NoWeight()
    ensures Weight([]) == 0 && Pow(2, 0) == 1
  {}

  lemma NewComponent(g: Graph, todo: set<nat>, c: set<nat>, item: WorkItem, best: SetInfo)
    requires Searchable(g, todo) && c <= todo && c != {} && ClosedIn(g, todo, c)
    requires item == WorkItem(SetInfo({}, EMPTY), c, EMPTY) && IsInfo(g.Rates(), best) && best.transactions <= todo
    ensures Candidate(g, todo, c)
    ensures forall b :: ItemOk(g, todo, item, b)
    ensures best.feerate.IsEmpty() <==> best.transactions == {}
  {
    assert TopoSubset(g, todo, todo);
    ComponentTopo(g, todo, c, todo);
    assert {} + c == c;
    SetRateSingleton(g.Rates(), 0);
    SetRatePositive(g.Rates(), best.transactions);
  }

  // ---------------------------------------------------------------- the search loop

  /** No non-empty topologically valid subset of todo has a higher feerate. */
  ghost predicate Optimal(g: Graph, todo: set<nat>, best: FeeFrac) {
    forall t :: Candidate(g, todo, t) ==> !SetRate(g.Rates(), t).Higher(best)
  }

  lemma QueueEmpty(g: Graph, todo: set<nat>, best: FeeFrac)
    requires Complete(g, todo, [], best)
    ensures Optimal(g, todo, best)
  {
    hide SetRate;
    forall t | Candidate(g, todo, t) ensures !SetRate(g.Rates(), t).Higher(best) {
      BetterNotLower(SetRate(g.Rates(), t), best);
      assert Gain(SetRate(g.Rates(), t), best) > 0 ==> Pending(g, todo, [], t);
    }
  }

  lemma TakeItem(g: Graph, todo: set<nat>, queue: seq<WorkItem>, k: nat, best: FeeFrac)
    requires k < |queue| && Complete(g, todo, queue, best) && QueueOk(g, todo, queue, best)
    ensures CompleteWith(g, todo, queue[k], queue[..k] + queue[k + 1..], best)
    ensures ItemOk(g, todo, queue[k], best) && QueueOk(g, todo, queue[..k] + queue[k + 1..], best)
  {
    hide Gain, SetRate, Hope, ItemOk;
    var rest := queue[..k] + queue[k + 1..];
    forall t | Candidate(g, todo, t) && Gain(SetRate(g.Rates(), t), best) > 0
      ensures Hope(g, todo, queue[k].inc.transactions, queue[k].und, t) || Pending(g, todo, rest, t)
    {
      var m :| 0 <= m < |queue| && Hope(g, todo, queue[m].inc.transactions, queue[m].und, t);
      if m < k { assert rest[m] == queue[m]; } else if m > k { assert rest[m - 1] == queue[m]; }
    }
  }

  lemma SwapItems(g: Graph, todo: set<nat>, queue: seq<WorkItem>, best: FeeFrac)
    requires |queue| > 1 && Complete(g, todo, queue, best) && QueueOk(g, todo, queue, best)
    ensures Complete(g, todo, queue[0 := queue[1]][1 := queue[0]], best)
    ensures QueueOk(g, todo, queue[0 := queue[1]][1 := queue[0]], best)
  {
    hide Gain, SetRate, Hope, ItemOk;
    var q := queue[0 := queue[1]][1 := queue[0]];
    forall t | Candidate(g, todo, t) && Gain(SetRate(g.Rates(), t), best) > 0 ensures Pending(g, todo, q, t) {
      var m :| 0 <= m < |queue| && Hope(g, todo, queue[m].inc.transactions, queue[m].und, t);
      assert q[if m == 0 then 1 else if m == 1 then 0 else m] == queue[m];
    }
  }

  lemma ItemUndecided(g: Graph, todo: set<nat>, item: WorkItem, best: FeeFrac)
    requires ItemOk(g, todo, item, best)
    ensures item.und != {}
  {}

  lemma SmallItem(g: Graph, todo: set<nat>, item: WorkItem, best: FeeFrac)
    requires ItemOk(g, todo, item, best)
    ensures |item.und| <= |todo|
  {
    assert item.und <= todo;
    SubsetSize(item.und, todo);
  }

  /** A run of so many splits, from one work item per component to the current state. */
  ghost predicate Tracing(g: Graph, todo: set<nat>, states: seq<SearchState>, moves: seq<Move>, best: SetInfo, queue: seq<WorkItem>, splits: int) {
    && IsRun(g, todo, states, moves) && Splits(moves) == splits && Weight(states[0].queue) < Pow(2, |todo|)
    && states[|moves|] == SearchState(best, queue) && InCapacity(states, Capacity(|todo|))
  }

  /** The queue never gets longer than what was reserved for it. */
  ghost predicate InCapacity(states: seq<SearchState>, cap: nat) {
    forall i :: 0 <= i < |states| ==> |states[i].queue| <= cap
  }

  /** The result of such a run; if finished, it has emptied the queue. */
  ghost predicate Searched(g: Graph, todo: set<nat>, best: SetInfo, splits: int, finished: bool) {
    exists states, moves, queue :: Tracing(g, todo, states, moves, best, queue, splits) && (finished ==> queue == [])
  }

  /** No run takes more splits than there are non-empty sets of transactions. */
  lemma SearchBounded(g: Graph, todo: set<nat>, best: SetInfo, splits: int, finished: bool)
    requires Searched(g, todo, best, splits, finished)
    ensures splits < Pow(2, |todo|)
  {
    hide IsRun, Weight, Pow;
    var states, moves, queue :| Tracing(g, todo, states, moves, best, queue, splits) && (finished ==> queue == []);
    RunBounded(g, todo, states, moves);
  }

  lemma TraceStart(g: Graph, todo: set<nat>, best: SetInfo, queue: seq<WorkItem>)
    requires Weight(queue) < Pow(2, |todo|) && |queue| <= Capacity(|todo|)
    ensures Tracing(g, todo, [SearchState(best, queue)], [], best, queue, 0)
  {}

  lemma TraceMore(g: Graph, todo: set<nat>, states: seq<SearchState>, moves: seq<Move>, best: SetInfo, queue: seq<WorkItem>, splits: int,
                  m: Move, best': SetInfo, queue': seq<WorkItem>)
    requires Tracing(g, todo, states, moves, best, queue, splits) && MoveOk(g, todo, SearchState(best, queue), m, SearchState(best', queue'))
    requires |queue'| <= Capacity(|todo|)
    ensures Tracing(g, todo, states + [SearchState(best', queue')], moves + [m], best', queue', splits + if m.Split? then 1 else 0)
  {
    hide MoveOk, IsRun, Splits, Weight, Pow;
    RunMore(g, todo, states, moves, m, SearchState(best', queue'));
    assert |states| == |moves| + 1 by { RunLength(g, todo, states, moves); }
  }

  lemma RunLength(g: Graph, todo: set<nat>, states: seq<SearchState>, moves: seq<Move>)
    requires IsRun(g, todo, states, moves)
    ensures |states| == |moves| + 1
  {}

  /**
   * The search on sorted positions, as a run of moves: it returns a candidate at least as good as the one given after
   * as many splits as iterations are gone, and only stops when these are used up or the queue is empty. Then the
   * result is the highest-feerate candidate of all. The queue stays within its capacity.
   */
  method SearchSorted(g: Graph, todo: set<nat>, maxIterations: nat, start: SetInfo) returns (best: SetInfo, iterationsLeft: nat)
    requires Searchable(g, todo) && todo != {} && IsInfo(g.Rates(), start)
    requires start.transactions != {} ==> Candidate(g, todo, start.transactions)
    ensures BestOk(g, todo, best) && iterationsLeft <= maxIterations
    ensures start.transactions != {} ==> !start.feerate.Better(best.feerate)
    ensures iterationsLeft > 0 ==> Optimal(g, todo, best.feerate)
    ensures Searched(g, todo, best, maxIterations - iterationsLeft, iterationsLeft > 0)
    ensures maxIterations - iterationsLeft < Pow(2, |todo|)
  {
    hide Gain, SetRate, Searchable, ImpOk, Complete, CompleteWith, QueueOk, ItemOk, FeeFrac.Better, Optimal, BestOk, Tracing, MoveOk, Pow, Weight, Roomy, Capacity;
    var queue: seq<WorkItem>;
    queue, best := InitialQueue(g, todo, start);
    NotBetterThanSelf(start.feerate);
    if start.transactions != {} { CandidateSizes(g, todo, start.transactions); }
    iterationsLeft := maxIterations;
    var capacity := Capacity(|todo|);
    StartRoom(todo, queue);
    AllCandidates(g, todo, best);
    var imp := ShrinkImp(g, todo, todo, best.feerate);
    ghost var states, moves := [SearchState(best, queue)], [];
    TraceStart(g, todo, best, queue);
    while queue != []
      invariant BestOk(g, todo, best) && ImpOk(g.Rates(), todo, imp, best.feerate)
      invariant QueueOk(g, todo, queue, best.feerate) && Complete(g, todo, queue, best.feerate) && Roomy(queue, capacity)
      invariant iterationsLeft <= maxIterations && Tracing(g, todo, states, moves, best, queue, maxIterations - iterationsLeft)
      invariant start.transactions != {} ==> !start.feerate.Better(best.feerate)
      decreases iterationsLeft, |queue|
    {
      // The source swaps the first two items at random.
      var swap: bool := *;
      if |queue| > 1 && swap {
        SwapItems(g, todo, queue, best.feerate);
        FirstOk(g, todo, queue, best.feerate);
        SmallItem(g, todo, queue[0], best.feerate);
        CapacityMore(|todo|);
        RoomySwap(queue, capacity);
        RoomyLength(queue, capacity);
        queue, states, moves := Swapping(g, todo, queue, best, states, moves, maxIterations - iterationsLeft);
      }
      ghost var left, size := iterationsLeft, |queue|;
      // Depth first while processing the front could overflow the queue.
      while |queue| - 1 + |queue[0].und| > capacity && iterationsLeft > 0
        invariant queue != [] && BestOk(g, todo, best) && ImpOk(g.Rates(), todo, imp, best.feerate)
        invariant QueueOk(g, todo, queue, best.feerate) && Complete(g, todo, queue, best.feerate) && Roomy(queue, capacity)
        invariant iterationsLeft < left || (iterationsLeft == left && |queue| <= size)
        invariant Tracing(g, todo, states, moves, best, queue, maxIterations - iterationsLeft)
        invariant start.transactions != {} ==> !start.feerate.Better(best.feerate)
        decreases iterationsLeft, |queue|
      {
        FirstOk(g, todo, queue, best.feerate);
        SmallItem(g, todo, queue[0], best.feerate);
        CapacityMore(|todo|);
        assert |queue| > 1;
        best, imp, queue, iterationsLeft, states, moves := Process(g, todo, queue, |queue| - 1, best, imp, iterationsLeft, start, maxIterations, states, moves);
      }
      if iterationsLeft == 0 { break; }
      best, imp, queue, iterationsLeft, states, moves := Process(g, todo, queue, 0, best, imp, iterationsLeft, start, maxIterations, states, moves);
    }
    if iterationsLeft > 0 { QueueEmpty(g, todo, best.feerate); }
    assert Searched(g, todo, best, maxIterations - iterationsLeft, iterationsLeft > 0);
    SearchBounded(g, todo, best, maxIterations - iterationsLeft, iterationsLeft > 0);
  }

  /** Exchanges the first two items. */
  method Swapping(ghost g: Graph, ghost todo: set<nat>, queue: seq<WorkItem>, ghost best: SetInfo, ghost states: seq<SearchState>, ghost moves: seq<Move>, ghost splits: int)
    returns (queue': seq<WorkItem>, ghost states': seq<SearchState>, ghost moves': seq<Move>)
    requires |queue| > 1 && Tracing(g, todo, states, moves, best, queue, splits) && |queue| <= Capacity(|todo|)
    ensures queue' == queue[0 := queue[1]][1 := queue[0]] && Tracing(g, todo, states', moves', best, queue', splits)
  {
    hide Tracing;
    queue' := queue[0 := queue[1]][1 := queue[0]];
    TraceMore(g, todo, states, moves, best, queue, splits, Swap, best, queue');
    states', moves' := states + [SearchState(best, queue')], moves + [Swap];
  }

  lemma FirstOk(g: Graph, todo: set<nat>, queue: seq<WorkItem>, best: FeeFrac)
    requires queue != [] && QueueOk(g, todo, queue, best)
    ensures ItemOk(g, todo, queue[0], best)
  {}

  lemma AllCandidates(g: Graph, todo: set<nat>, best: SetInfo)
    requires Searchable(g, todo) && BestOk(g, todo, best)
    ensures best.feerate.size > 0
    ensures forall t :: t in todo && Gain(TxRate(g.Rates(), t), best.feerate) > 0 ==> t in todo
  {
    CandidateSizes(g, todo, best.transactions);
  }

  /** Takes the item at k off the queue and processes it; that is one more move of the run. */
  method Process(g: Graph, todo: set<nat>, queue: seq<WorkItem>, k: nat, best: SetInfo, imp: set<nat>, iterationsLeft: nat, ghost start: SetInfo,
                 ghost maxIterations: nat, ghost states: seq<SearchState>, ghost moves: seq<Move>)
    returns (best': SetInfo, imp': set<nat>, queue': seq<WorkItem>, iterationsLeft': nat, ghost states': seq<SearchState>, ghost moves': seq<Move>)
    requires Searchable(g, todo) && k < |queue| && iterationsLeft > 0
    requires BestOk(g, todo, best) && ImpOk(g.Rates(), todo, imp, best.feerate)
    requires QueueOk(g, todo, queue, best.feerate) && Complete(g, todo, queue, best.feerate)
    requires start.transactions != {} ==> start.feerate.size > 0 && !start.feerate.Better(best.feerate)
    requires Tracing(g, todo, states, moves, best, queue, maxIterations - iterationsLeft) && Roomy(queue, Capacity(|todo|))
    requires k == |queue| - 1 || |queue| - 1 + |queue[k].und| <= Capacity(|todo|)
    ensures BestOk(g, todo, best') && ImpOk(g.Rates(), todo, imp', best'.feerate)
    ensures QueueOk(g, todo, queue', best'.feerate) && Complete(g, todo, queue', best'.feerate)
    ensures iterationsLeft' == iterationsLeft - 1 || (iterationsLeft' == iterationsLeft && |queue'| == |queue| - 1)
    ensures |queue'| >= |queue| - 1
    ensures start.transactions != {} ==> !start.feerate.Better(best'.feerate)
    ensures Tracing(g, todo, states', moves', best', queue', maxIterations - iterationsLeft') && Roomy(queue', Capacity(|todo|))
  {
    hide Roomy, Capacity, Gain, SetRate, Searchable, ImpOk, Complete, CompleteWith, QueueOk, ItemOk, FeeFrac.Better, Tracing, SplitInto, Hopeless;
    TakeItem(g, todo, queue, k, best.feerate);
    ItemFacts(g, todo, queue[k], best.feerate);
    var performed;
    ghost var split;
    best', imp', queue', performed, split := SplitItem(g, todo, queue[k], best, imp, queue[..k] + queue[k + 1..]);
    iterationsLeft' := if performed then iterationsLeft - 1 else iterationsLeft;
    CandidateSizes(g, todo, best.transactions);
    CandidateSizes(g, todo, best'.transactions);
    if start.transactions != {} { NotBetterTrans(start.feerate, best.feerate, best'.feerate); }
    ghost var m := if performed then Split(k, split) else Drop(k);
    StillRoomy(g, todo, queue, k, split, queue', performed);
    TraceMore(g, todo, states, moves, best, queue, maxIterations - iterationsLeft, m, best', queue');
    states', moves' := states + [SearchState(best', queue')], moves + [m];
  }

  lemma StillRoomy(g: Graph, todo: set<nat>, queue: seq<WorkItem>, k: nat, split: nat, queue': seq<WorkItem>, performed: bool)
    requires k < |queue| && Roomy(queue, Capacity(|todo|)) && (k == |queue| - 1 || |queue| - 1 + |queue[k].und| <= Capacity(|todo|))
    requires performed ==> SplitInto(g, todo, queue[k], split, Without(queue, k), queue')
    requires !performed ==> queue' == Without(queue, k)
    ensures Roomy(queue', Capacity(|todo|)) && |queue'| <= Capacity(|todo|)
  {
    hide SplitInto, Capacity;
    var cap := Capacity(|todo|);
    if performed { RoomySplit(g, todo, queue, k, split, queue', cap); } else { RoomyWithout(queue, k, cap); }
    RoomyLength(queue', cap);
  }

  lemma CapacityMore(n: nat)
    ensures n < Capacity(n)
  {}

  lemma StartRoom(todo: set<nat>, queue: seq<WorkItem>)
    requires Roomy(queue, |todo|)
    ensures Roomy(queue, Capacity(|todo|)) && |queue| <= Capacity(|todo|)
  {
    RoomyLength(queue, |todo|);
  }
}
