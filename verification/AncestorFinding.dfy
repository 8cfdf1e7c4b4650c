// AncestorCandidateFinder: the best remaining ancestor set.
module AncestorFinding {
  import opened Sets
  import opened FeeFracs
  import opened Diagrams
  import opened DepGraphs
  import opened GraphQueries
  import opened Chunkings

  lemma BetterTrans(a: FeeFrac, b: FeeFrac, c: FeeFrac)
    requires a.size > 0 && b.size > 0 && c.size > 0 && a.Better(b) && b.Better(c)
    ensures a.Better(c)
  {
    BetterMeansGain(a, b);
    BetterMeansGain(b, c);
    BetterMeansGain(a, c);
    hide FeeFrac.Better, Gain;
    GainTransitive(a, b, c);
    GainSwap(a, b);
    GainSwap(b, c);
    GainSwap(a, c);
    if Gain(b, c) == 0 { GainTransitive(c, b, a); }
  }

  lemma BetterMeansGain(a: FeeFrac, b: FeeFrac)
    ensures a.Better(b) <==> Gain(a, b) > 0 || (Gain(a, b) == 0 && a.size < b.size)
  {}

  class AncestorCandidateFinder {
    const g: Graph
    var todo: set<nat>
    /** Feerates of the remaining ancestor sets; only meaningful for positions in todo. */
    var ancestorRates: seq<FeeFrac>

    ghost predicate Valid()
      reads this
    {
      && Cluster(g) && todo <= g.used && |ancestorRates| == |g.entries|
      && forall i :: i in todo ==> i < |ancestorRates| && ancestorRates[i] == SetRate(g.Rates(), g.Anc(i) * todo)
    }

    constructor (g: Graph)
      requires Cluster(g)
      ensures Valid() && this.g == g && todo == g.used
    {
      var rates := AncestorSetRates(g);
      this.g, todo, ancestorRates := g, g.used, rates;
      AncestorsRemain(g);
    }

    /** Removes transactions, taking their feerates out of the ancestor sets of their descendants. */
    method MarkDone(select: set<nat>)
      requires Valid() && select != {} && select <= todo
      modifies this
      ensures Valid() && todo == old(todo) - select
    {
      hide WellFormed, Acyclic, SetRate;
      var left := todo - select;
      var rates := ancestorRates;
      AllInRange(g, todo);
      FromStep(select, 0);
      assert todo == left + select;
      for i := 0 to |g.entries|
        invariant |rates| == |g.entries|
        invariant forall j :: j in left ==> rates[j] == SetRate(g.Rates(), g.Anc(j) * (left + From(select, i)))
        modifies {}
      {
        FromStep(select, i);
        if i in select {
          rates := Subtract(g, rates, left, select, i);
        }
      }
      assert forall j :: j in left ==> g.Anc(j) * (left + From(select, |g.entries|)) == g.Anc(j) * left by { FromNone(g, select); }
      todo, ancestorRates := left, rates;
    }

    /** The highest-feerate (smallest on ties) set made of a remaining transaction and its remaining ancestors. */
    method FindCandidateSet() returns (res: SetInfo)
      requires Valid() && todo != {}
      ensures IsInfo(g.Rates(), res) && res.transactions != {} && TopoSubset(g, todo, res.transactions)
      ensures exists b :: b in todo && res.transactions == g.Anc(b) * todo
      ensures forall i :: i in todo ==> !SetRate(g.Rates(), g.Anc(i) * todo).Better(res.feerate)
    {
      hide WellFormed, Acyclic, SetRate, FeeFrac.Better;
      var best, found := 0, false;
      for i := 0 to |g.entries|
        invariant found ==> best in todo && best < i
        invariant !found ==> forall k :: k in todo ==> k >= i
        invariant found ==> forall k :: k in todo && k < i ==> !ancestorRates[k].Better(ancestorRates[best])
      {
        if i in todo {
          NotBetterThanSelf(ancestorRates[i]);
          if !found {
            best, found := i, true;
          } else if ancestorRates[i].Better(ancestorRates[best]) {
            forall k | k in todo && k < i ensures !ancestorRates[k].Better(ancestorRates[i]) {
              AncestorSizes(g, todo, k);
              AncestorSizes(g, todo, i);
              AncestorSizes(g, todo, best);
              if ancestorRates[k].Better(ancestorRates[i]) {
                BetterTrans(ancestorRates[k], ancestorRates[i], ancestorRates[best]);
              }
            }
            best := i;
          }
        }
      }
      AllInRange(g, todo);
      ghost var x :| x in todo;
      assert found;
      AncestorsTopo(g, todo, best);
      res := SetInfo(g.Anc(best) * todo, ancestorRates[best]);
    }
  }

  /** Feerates of all ancestor sets, reusing the sum of the first ancestor where it comes earlier. */
  method AncestorSetRates(g: Graph) returns (rates: seq<FeeFrac>)
    requires Cluster(g)
    ensures |rates| == |g.entries|
    ensures forall k :: 0 <= k < |rates| && k in g.used ==> rates[k] == SetRate(g.Rates(), g.Anc(k))
  {
    hide WellFormed, Acyclic, SetRate;
    rates := seq(|g.entries|, _ => EMPTY);
    for i := 0 to |g.entries|
      invariant |rates| == |g.entries|
      invariant forall k :: 0 <= k < i && k in g.used ==> rates[k] == SetRate(g.Rates(), g.Anc(k))
    {
      if i in g.used {
        var rate := AncestorSetRate(g, rates, i);
        rates := rates[i := rate];
      }
    }
  }

  method AncestorSetRate(g: Graph, rates: seq<FeeFrac>, i: nat) returns (rate: FeeFrac)
    requires Cluster(g) && i in g.used && |rates| == |g.entries|
    requires forall k :: 0 <= k < i && k in g.used && k < |rates| ==> rates[k] == SetRate(g.Rates(), g.Anc(k))
    ensures rate == SetRate(g.Rates(), g.Anc(i))
  {
    hide WellFormed, Acyclic, SetRate, FeeFrac.Plus;
    var toAdd := g.Anc(i);
    rate := EMPTY;
    AncUsed(g, i);
    var first := First(toAdd, i);
    AncestorSum(g, i, first);
    if first < i {
      rate := rates[first];
      toAdd := toAdd - g.Anc(first);
    }
    rate := rate.Plus(SetRate(g.Rates(), toAdd));
  }

  lemma NotBetterThanSelf(a: FeeFrac)
    ensures !a.Better(a)
  {}

  lemma AncestorSizes(g: Graph, todo: set<nat>, k: nat)
    requires Cluster(g) && todo <= g.used && k in todo
    ensures SetRate(g.Rates(), g.Anc(k) * todo).size > 0
  {
    AncUsed(g, k);
    assert k in g.Anc(k) * todo;
    SetRatePositive(g.Rates(), g.Anc(k) * todo);
  }

  lemma AllInRange(g: Graph, todo: set<nat>)
    requires WellFormed(g) && todo <= g.used
    ensures forall i :: i in todo ==> i < |g.entries|
  {}

  lemma AncestorsRemain(g: Graph)
    requires WellFormed(g)
    ensures forall i :: i in g.used ==> i < |g.entries| && g.Anc(i) * g.used == g.Anc(i)
  {
    forall i | i in g.used ensures g.Anc(i) * g.used == g.Anc(i) { AncUsed(g, i); }
  }

  /** The least member of a set that has a member up to bound. */
  method First(s: set<nat>, bound: nat) returns (m: nat)
    requires bound in s
    ensures m in s && forall x :: x in s ==> m <= x
  {
    m := 0;
    while m !in s
      invariant m <= bound && forall x :: x in s ==> m <= x
      decreases bound - m
    {
      m := m + 1;
    }
  }

  lemma AncestorSum(g: Graph, i: nat, first: nat)
    requires WellFormed(g) && i in g.used && first in g.Anc(i)
    ensures SetRate(g.Rates(), g.Anc(i)) == SetRate(g.Rates(), g.Anc(first)).Plus(SetRate(g.Rates(), g.Anc(i) - g.Anc(first)))
    ensures SetRate(g.Rates(), g.Anc(i)) == EMPTY.Plus(SetRate(g.Rates(), g.Anc(i)))
    ensures first in g.used
  {
    hide SetRate;
    AncUsed(g, i);
    forall x | x in g.Anc(first) ensures x in g.Anc(i) { AncTrans(g, i, first, x); }
    assert g.Anc(i) * g.Anc(first) == g.Anc(first);
    SetRateSplit(g.Rates(), g.Anc(i), g.Anc(first));
  }

  ghost function From(s: set<nat>, i: nat): set<nat> { set x | x in s && x >= i }

  lemma FromStep(s: set<nat>, i: nat)
    ensures From(s, 0) == s
    ensures i in s ==> From(s, i) == From(s, i + 1) + {i}
    ensures i !in s ==> From(s, i) == From(s, i + 1)
    ensures i !in From(s, i + 1)
  {}

  lemma FromNone(g: Graph, s: set<nat>)
    requires forall x :: x in s ==> x < |g.entries|
    ensures From(s, |g.entries|) == {}
  {}

  method Subtract(g: Graph, rates: seq<FeeFrac>, left: set<nat>, ghost select: set<nat>, i: nat) returns (res: seq<FeeFrac>)
    requires Cluster(g) && left <= g.used && select <= g.used && left !! select && i in select && |rates| == |g.entries|
    requires forall j :: j in left ==> j < |rates| && rates[j] == SetRate(g.Rates(), g.Anc(j) * (left + From(select, i)))
    ensures |res| == |rates|
    ensures forall j :: j in left ==> j < |res| && res[j] == SetRate(g.Rates(), g.Anc(j) * (left + From(select, i + 1)))
  {
    hide WellFormed, Acyclic, SetRate;
    res := rates;
    AncUsed(g, i);
    var rate := TxRate(g.Rates(), i);
    forall j | j in left
      ensures SetRate(g.Rates(), g.Anc(j) * (left + From(select, i + 1))) ==
              if i in g.Anc(j) then rates[j].Minus(rate) else rates[j]
    {
      OneLess(g, left, select, i, j);
    }
    for j := 0 to |res|
      invariant |res| == |rates|
      invariant forall k :: k in left && k < |rates| ==>
        res[k] == if k < j && i in g.Anc(k) then rates[k].Minus(rate) else rates[k]
    {
      if j in left { AncDesc(g, j, i); }
      if j in g.Desc(i) * left { res := res[j := res[j].Minus(rate)]; }
    }
  }

  lemma OneLess(g: Graph, left: set<nat>, select: set<nat>, i: nat, j: nat)
    requires i in select && left !! select
    ensures SetRate(g.Rates(), g.Anc(j) * (left + From(select, i + 1))) ==
            if i in g.Anc(j) then SetRate(g.Rates(), g.Anc(j) * (left + From(select, i))).Minus(TxRate(g.Rates(), i))
            else SetRate(g.Rates(), g.Anc(j) * (left + From(select, i)))
  {
    hide SetRate;
    FromStep(select, i);
    var small := g.Anc(j) * (left + From(select, i + 1));
    var large := g.Anc(j) * (left + From(select, i));
    if i in g.Anc(j) {
      assert large == small + {i};
      SetRateUnion(g.Rates(), small, {i});
      SetRateSingleton(g.Rates(), i);
    } else {
      assert large == small;
    }
  }
}
