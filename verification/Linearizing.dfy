// Linearize: finds or improves a linearization of a cluster.
module Linearizing {
  import opened Sets
  import opened FeeFracs
  import opened Diagrams
  import opened DepGraphs
  import opened GraphQueries
  import opened Chunkings
  import opened Merging
  import opened AncestorFinding
  import opened Powers
  import opened Search
  import opened SortedSearch

  // ---------------------------------------------------------------- every linearization has a chunking

  lemma {:induction false} Absorb(f: seq<FeeFrac>, l: seq<nat>, cs: seq<seq<nat>>, cur: seq<nat>) returns (ds: seq<seq<nat>>)
    requires Building(f, l, cs, cur) && Positive(f, Elems(l))
    ensures IsChunking(f, l, ds)
    decreases |cs|
  {
    hide Gain, SeqRate, Building, IsChunking, Elems;
    if cs != [] && Gain(SeqRate(f, cur), SeqRate(f, cs[|cs| - 1])) > 0 {
      AbsorbChunk(f, l, cs, cur);
      ds := Absorb(f, l, cs[..|cs| - 1], cs[|cs| - 1] + cur);
    } else {
      PushChunk(f, l, cs, cur);
      ds := cs + [cur];
    }
  }

  lemma {:induction false} ChunkingExists(f: seq<FeeFrac>, l: seq<nat>) returns (cs: seq<seq<nat>>)
    requires Positive(f, Elems(l))
    ensures IsChunking(f, l, cs)
  {
    if l == [] {
      cs := [];
    } else {
      var init := l[..|l| - 1];
      assert l == init + [l[|l| - 1]];
      ElemsConcat(init, [l[|l| - 1]]);
      cs := ChunkingExists(f, init);
      StartChunk(f, init, cs, l[|l| - 1]);
      cs := Absorb(f, l, cs, [l[|l| - 1]]);
    }
  }

  // ---------------------------------------------------------------- what one round may output

  /** A highest-feerate candidate may be moved to the front of every linearization. */
  lemma OptimalMovable(g: Graph, lin: seq<nat>, todo: set<nat>, cs: seq<seq<nat>>, s: SetInfo)
    requires Cluster(g) && Linearization(g, lin) && todo <= g.used && IsChunking(g.Rates(), Keep(lin, todo), cs) && cs != []
    requires BestOk(g, todo, s) && Optimal(g, todo, s.feerate)
    ensures Movable(g.Rates(), cs, s.transactions)
  {
    hide Gain, SetRate, WellFormed, Acyclic, TopoOrder, FeeFrac.Higher, SeqRate, Flatten;
    var f := g.Rates();
    FirstChunkInfo(f, lin, todo, cs);
    forall j: nat | j <= |cs| ensures Gain(SetRate(f, s.transactions * Elems(Flatten(cs[..j]))), SetRate(f, s.transactions)) <= 0 {
      ChunkPrefixTopo(g, lin, todo, cs, j);
      var p := Elems(Flatten(cs[..j]));
      TopoUnion(g, todo, s.transactions, p);
      if s.transactions * p == {} {
        SetRateSingleton(f, 0);
        GainSelf(s.feerate);
      } else {
        BetterNotLower(SetRate(f, s.transactions * p), s.feerate);
        assert Candidate(g, todo, s.transactions * p);
      }
    }
    ChunkPrefixTopo(g, lin, todo, cs, 1);
    assert cs[..1] == [cs[0]];
    FlattenOne(cs[0]);
    BetterNotLower(SetRate(f, Elems(cs[0])), s.feerate);
    assert Candidate(g, todo, Elems(cs[0]));
    GainSwap(s.feerate, SeqRate(f, cs[0]));
  }

  /** The intersection of a good candidate with the chunks of the old linearization may be moved to its front. */
  lemma IntersectedMovable(g: Graph, lin: seq<nat>, todo: set<nat>, cs: seq<seq<nat>>, best: SetInfo, s: set<nat>, j: nat)
    requires Cluster(g) && Linearization(g, lin) && todo <= g.used && IsChunking(g.Rates(), Keep(lin, todo), cs) && cs != []
    requires BestOk(g, todo, best) && Gain(best.feerate, SeqRate(g.Rates(), cs[0])) >= 0
    requires j <= |cs| && s == best.transactions * Elems(Flatten(cs[..j])) && s != {}
    requires NoPrefixBetter(g.Rates(), cs, s) && Gain(SetRate(g.Rates(), s), best.feerate) >= 0
    ensures Movable(g.Rates(), cs, s) && Candidate(g, todo, s)
  {
    hide Gain, SetRate, WellFormed, Acyclic, TopoOrder, NoPrefixBetter, Movable, SeqRate;
    var f := g.Rates();
    FirstChunkInfo(f, lin, todo, cs);
    ChunkPrefixTopo(g, lin, todo, cs, j);
    TopoUnion(g, todo, best.transactions, Elems(Flatten(cs[..j])));
    SetRatePositive(f, best.transactions);
    SetRatePositive(f, s);
    IntersectionMovable(f, cs, s, best.feerate);
  }

  /** Every linearization of the cluster is tracked. */
  ghost predicate TracksAll(g: Graph, ret: seq<nat>, todo: set<nat>) {
    forall lin :: Linearization(g, lin) ==> Tracks(g.Rates(), lin, ret, todo)
  }

  lemma TracksAllStart(g: Graph)
    ensures TracksAll(g, [], g.used)
  {
    forall lin | Linearization(g, lin) ensures Tracks(g.Rates(), lin, [], g.used) { TracksStart(g.Rates(), lin, g.used); }
  }

  lemma TracksAllStep(g: Graph, ret: seq<nat>, todo: set<nat>, s: SetInfo, t: seq<nat>)
    requires Cluster(g) && TracksAll(g, ret, todo) && todo <= g.used && BestOk(g, todo, s) && Optimal(g, todo, s.feerate)
    requires Elems(t) == s.transactions && Distinct(t)
    ensures TracksAll(g, ret + t, todo - s.transactions)
  {
    hide Tracks, Movable, IsChunking, WellFormed, Acyclic, TopoOrder, Optimal;
    var f := g.Rates();
    forall lin | Linearization(g, lin) ensures Tracks(f, lin, ret + t, todo - s.transactions) {
      KeepProps(lin, todo);
      var cs := ChunkingExists(f, Keep(lin, todo));
      SomethingLeft(f, lin, todo, cs, s.transactions);
      OptimalMovable(g, lin, todo, cs, s);
      TracksStep(f, lin, ret, todo, cs, s.transactions, t);
    }
  }

  lemma TracksAllDone(g: Graph, ret: seq<nat>)
    requires TracksAll(g, ret, {})
    ensures forall lin :: Linearization(g, lin) ==> NoWorse(g.Rates(), ret, lin)
  {
    forall lin | Linearization(g, lin) ensures NoWorse(g.Rates(), ret, lin) { TracksDone(g.Rates(), lin, ret); }
  }

  // ---------------------------------------------------------------- how many iterations are enough

  /** Iterations with which the search finishes in this round and in every later one, with n transactions left. */
  function Need(n: nat): nat { Pow(2, n + 1) + n * n }

  lemma NeedHere(n: nat, iterations: nat)
    requires n > 0 && iterations >= Need(n)
    ensures iterations > (n + 3) / 4 && (iterations - (n + 3) / 4 + 1) / 2 >= Pow(2, n)
    ensures iterations - (n + 3) / 4 - Pow(2, n) + 1 >= Need(n - 1)
  {
    PowPositive(2, n);
    assert Pow(2, n + 1) == 2 * Pow(2, n);
    assert n * n >= n;
    assert (n - 1) * (n - 1) == n * n - 2 * n + 1;
  }

  lemma NeedMono(m: nat, n: nat)
    requires m <= n
    ensures Need(m) <= Need(n)
  {
    PowGrows(2, m + 1, n + 1);
    ProductMono(m, m, n);
  }

  lemma NeedMeans(n: nat)
    ensures Need(n) + n * n == Pow(2, n + 1) + 2 * n * n
  {}

  /** What sets up the search is paid for as well. */
  lemma NeedAtStart(n: nat, iterations: nat)
    requires n > 0 && iterations >= Need(n) + n * n
    ensures iterations > (n * n + 63) / 64 && iterations - (n * n + 63) / 64 >= Need(n)
  {
    PowPositive(2, n + 1);
    MulPositive(n, n);
  }

  // ---------------------------------------------------------------- one round

  /** The candidate to start a round from: the best ancestor set or the first old chunk. */
  method StartCandidate(anc: AncestorCandidateFinder, old': LinearizationChunking) returns (best: SetInfo)
    requires anc.Valid() && anc.todo != {} && old'.Valid() && old'.g == anc.g
    requires old'.parts != [] ==> Linearization(anc.g, old'.orig) && old'.todo == anc.todo
    ensures BestOk(anc.g, anc.todo, best)
    ensures old'.parts != [] ==> Gain(best.feerate, SeqRate(anc.g.Rates(), old'.parts[0])) >= 0
  {
    hide Gain, SetRate, SeqRate, WellFormed, Acyclic, FeeFrac.Better, TopoOrder, IsChunking;
    best := anc.FindCandidateSet();
    var left := old'.NumChunksLeft();
    if left > 0 {
      ghost var f, cs := anc.g.Rates(), old'.parts;
      var bestPrefix := old'.GetChunk(0);
      FirstChunkInfo(f, old'.orig, old'.todo, cs);
      PrefixCandidate(anc.g, old'.orig, old'.todo, cs);
      BetterNotLower(best.feerate, bestPrefix.feerate);
      if !bestPrefix.feerate.IsEmpty() && !best.feerate.Better(bestPrefix.feerate) { best := bestPrefix; }
      GainSelf(bestPrefix.feerate);
    }
  }

  lemma PrefixCandidate(g: Graph, lin: seq<nat>, todo: set<nat>, cs: seq<seq<nat>>)
    requires Linearization(g, lin) && todo <= g.used && IsChunking(g.Rates(), Keep(lin, todo), cs) && cs != []
    ensures TopoSubset(g, todo, Elems(cs[0]))
  {
    ChunkPrefixTopo(g, lin, todo, cs, 1);
    assert cs[..1] == [cs[0]];
    FlattenOne(cs[0]);
  }

  /** The state the finders share between rounds: all agree on what is left. */
  ghost predicate Aligned(g: Graph, anc: AncestorCandidateFinder, src: SearchCandidateFinder?, old': LinearizationChunking, oldLin: seq<nat>)
    reads anc, old', src
  {
    && anc.Valid() && old'.Valid() && anc.g == old'.g == g && old'.orig == oldLin
    && (src != null ==> src.g == g && src.Valid() && src.Left() == anc.todo)
    && (oldLin != [] ==> Linearization(g, oldLin) && old'.todo == anc.todo)
    && (oldLin == [] ==> old'.todo == {})
  }

  /** The bounded search of a round, from the start candidate, with at most half of the iterations left. */
  method Improve(g: Graph, src: SearchCandidateFinder, ghost todo: set<nat>, count: nat, iterations: nat, start: SetInfo)
    returns (best: SetInfo, iterationsLeft: nat, exact: bool)
    requires Cluster(g) && src.g == g && src.Valid() && src.Left() == todo && todo != {} && count == |todo| && BestOk(g, todo, start)
    ensures BestOk(g, todo, best) && !start.feerate.Better(best.feerate)
    ensures exact ==> Optimal(g, todo, best.feerate)
    ensures iterationsLeft <= iterations
    ensures iterations >= Need(count) ==> exact && iterationsLeft >= Need(count - 1)
  {
    hide SetRate, FeeFrac.Better, Cluster, Searchable, Optimal, Need, Pow, Searched;
    if iterations >= Need(count) { NeedHere(count, iterations); }
    iterationsLeft := iterations;
    best := start;
    NotBetterThanSelf(start.feerate);
    var doneNow, maxNow := 0, 0;
    var baseIterations := (count + 3) / 4;
    if iterationsLeft > baseIterations {
      iterationsLeft := iterationsLeft - baseIterations;
      maxNow := (iterationsLeft + 1) / 2;
      NonEmptyLeft(src, todo);
      best, doneNow := src.FindCandidateSet(maxNow, best);
      iterationsLeft := iterationsLeft - doneNow;
    }
    exact := doneNow != maxNow;
  }

  /**
   * Chooses the set a round outputs: the start candidate, improved by the bounded search, and
   * intersected with the old chunks unless the search found a highest-feerate set.
   */
  method ChooseSet(g: Graph, anc: AncestorCandidateFinder, src: SearchCandidateFinder?, old': LinearizationChunking,
                   iterations: nat, ghost oldLin: seq<nat>)
    returns (best: SetInfo, iterationsLeft: nat, exact: bool)
    requires Cluster(g) && Aligned(g, anc, src, old', oldLin) && anc.todo != {}
    ensures BestOk(g, anc.todo, best)
    ensures oldLin != [] ==> old'.parts != [] && Movable(g.Rates(), old'.parts, best.transactions)
    ensures exact ==> Optimal(g, anc.todo, best.feerate)
    ensures iterationsLeft <= iterations
    ensures src != null && iterations >= Need(|anc.todo|) ==> exact && iterationsLeft >= Need(|anc.todo| - 1)
  {
    hide Gain, SetRate, SeqRate, WellFormed, Acyclic, Positive, FeeFrac.Better, TopoOrder, IsChunking, Movable, Optimal, Flatten,
         NoPrefixBetter, Keep, Candidate, IsInfo, Need, Searchable, Cluster;
    iterationsLeft := iterations;
    ghost var f, todo, cs := g.Rates(), anc.todo, old'.parts;
    var left := old'.NumChunksLeft();
    best := StartCandidate(anc, old');
    CandidateInfo(g, todo, best);
    exact := false;
    if src != null {
      ghost var before := best;
      best, iterationsLeft, exact := Improve(g, src, todo, |anc.todo|, iterations, best);
      CandidateInfo(g, todo, best);
      if left > 0 { StillNotBelow(f, oldLin, todo, cs, before.feerate, best.feerate); }
    }
    if !exact {
      if left > 0 {
        ghost var found := best;
        best := old'.IntersectPrefixes(best);
        ghost var j: nat :| j <= |cs| && best.transactions == found.transactions * Elems(Flatten(cs[..j]));
        InfoRate(f, best);
        IntersectedMovable(g, oldLin, todo, cs, found, best.transactions, j);
      }
    } else if left > 0 {
      OptimalMovable(g, oldLin, todo, cs, best);
    }
  }

  lemma InfoRate(f: seq<FeeFrac>, s: SetInfo)
    requires IsInfo(f, s)
    ensures s.feerate == SetRate(f, s.transactions)
  {}

  /** What holds of the output between rounds. */
  ghost predicate Progress(g: Graph, oldLin: seq<nat>, ret: seq<nat>, todo: set<nat>, optimal: bool) {
    && Partial(g, ret, todo)
    && (oldLin != [] ==> Tracks(g.Rates(), oldLin, ret, todo))
    && (optimal ==> TracksAll(g, ret, todo))
  }

  lemma FewerLeft(todo: set<nat>, s: set<nat>)
    requires s <= todo && s != {}
    ensures Need(|todo - s|) <= Need(|todo| - 1)
  {
    hide Need;
    assert todo == todo - s + s;
    NeedMono(|todo - s|, |todo| - 1);
  }

  /** Removes what was output from what is left, in all finders. */
  method Advance(ghost g: Graph, anc: AncestorCandidateFinder, src: SearchCandidateFinder?, old': LinearizationChunking, oldLin: seq<nat>, done: set<nat>)
    requires Cluster(g) && Aligned(g, anc, src, old', oldLin) && done != {} && done <= anc.todo
    modifies anc, src, old'
    ensures Aligned(g, anc, src, old', oldLin) && anc.todo == old(anc.todo) - done
  {
    hide WellFormed, Acyclic, Positive, TopoOrder, IsChunking, Keep, Linearization, SetRate, Image, Searchable, SearchCandidateFinder.Renaming;
    anc.MarkDone(done);
    // The source stops here once nothing remains; the two calls below are then of no consequence.
    if src != null { src.MarkDone(done); }
    if oldLin != [] { old'.MarkDone(done); }
  }

  /** One round of Linearize: a set is chosen, output, and removed from what is left. */
  method Round(g: Graph, anc: AncestorCandidateFinder, src: SearchCandidateFinder?, old': LinearizationChunking,
               iterations: nat, oldLin: seq<nat>, linearization: seq<nat>, optimal: bool)
    returns (ret: seq<nat>, iterationsLeft: nat, optimal': bool)
    requires Cluster(g) && Aligned(g, anc, src, old', oldLin) && anc.todo != {}
    requires Progress(g, oldLin, linearization, anc.todo, optimal)
    modifies anc, src, old'
    ensures Aligned(g, anc, src, old', oldLin) && anc.todo < old(anc.todo)
    ensures Progress(g, oldLin, ret, anc.todo, optimal') && (optimal' ==> optimal)
    ensures iterationsLeft <= iterations
    ensures src != null && iterations >= Need(|old(anc.todo)|) ==> optimal' == optimal && iterationsLeft >= Need(|anc.todo|)
  {
    hide WellFormed, Acyclic, Positive, TopoOrder, IsChunking, Tracks, TracksAll, Partial, Movable, Optimal, Keep, Linearization,
         SetRate, Image, Need, Searchable, Candidate, IsInfo, SearchCandidateFinder.Renaming;
    ghost var todo, cs := anc.todo, old'.parts;
    var best, exact;
    best, iterationsLeft, exact := ChooseSet(g, anc, src, old', iterations, oldLin);
    optimal' := optimal && exact;
    CandidateInfo(g, todo, best);
    FewerLeft(todo, best.transactions);
    ret := AppendTopo(g, linearization, best.transactions);
    ghost var sorted := ret[|linearization|..];
    assert ret == linearization + sorted;
    RoundDone(g, oldLin, linearization, todo, cs, best, sorted, optimal');
    Advance(g, anc, src, old', oldLin, best.transactions);
  }

  /**
   * Finds or improves a linearization. The result is a linearization of the cluster, nowhere worse
   * than the old one, and nowhere worse than any other if optimal is returned. With a limit of
   * 2^(n+1) + 2 n^2 iterations for n transactions optimal is always returned.
   */
  method Linearize(g: Graph, maxIterations: nat, oldLinearization: seq<nat>) returns (linearization: seq<nat>, optimal: bool)
    requires Cluster(g) && (oldLinearization != [] ==> Linearization(g, oldLinearization))
    ensures Linearization(g, linearization)
    ensures oldLinearization != [] ==> NoWorse(g.Rates(), linearization, oldLinearization)
    ensures optimal ==> forall lin :: Linearization(g, lin) ==> NoWorse(g.Rates(), linearization, lin)
    ensures maxIterations >= Pow(2, |g.used| + 1) + 2 * |g.used| * |g.used| ==> optimal
  {
    hide Need, Pow, Searchable, SearchCandidateFinder.Renaming, WellFormed, Acyclic, Positive, Tracks, TracksAll, Partial, NoWorse, Linearization, Keep, IsChunking, Image;
    ghost var f := g.Rates();
    linearization, optimal := [], true;
    PartialStart(g);
    TracksAllStart(g);
    if g.used == {} {
      PartialDone(g, []);
      TracksAllDone(g, []);
      return;
    }
    ghost var enough := maxIterations >= Need(|g.used|) + |g.used| * |g.used|;
    if enough { NeedAtStart(|g.used|, maxIterations); }
    NeedMeans(|g.used|);
    var iterationsLeft: nat := maxIterations;
    var anc := new AncestorCandidateFinder(g);
    var src: SearchCandidateFinder? := null;
    var startIterations := (|g.used| * |g.used| + 63) / 64;
    if iterationsLeft > startIterations {
      iterationsLeft := iterationsLeft - startIterations;
      src := new SearchCandidateFinder(g);
    }
    PositiveEmpty(g, oldLinearization);
    var oldChunking := new LinearizationChunking(g, oldLinearization);
    if oldLinearization != [] { TracksStart(f, oldLinearization, g.used); }
    while anc.todo != {}
      invariant fresh(anc) && fresh(oldChunking) && (src != null ==> fresh(src))
      invariant Aligned(g, anc, src, oldChunking, oldLinearization)
      invariant Progress(g, oldLinearization, linearization, anc.todo, optimal) && iterationsLeft <= maxIterations
      invariant enough ==> src != null && optimal && iterationsLeft >= Need(|anc.todo|)
      decreases anc.todo
    {
      linearization, iterationsLeft, optimal :=
        Round(g, anc, src, oldChunking, iterationsLeft, oldLinearization, linearization, optimal);
    }
    PartialDone(g, linearization);
    if oldLinearization != [] { TracksDone(f, oldLinearization, linearization); }
    if optimal { TracksAllDone(g, linearization); }
  }

  lemma RoundDone(g: Graph, oldLin: seq<nat>, ret: seq<nat>, todo: set<nat>, cs: seq<seq<nat>>, best: SetInfo, sorted: seq<nat>, optimal: bool)
    requires Cluster(g) && Partial(g, ret, todo) && BestOk(g, todo, best)
    requires Elems(sorted) == best.transactions && Distinct(sorted) && TopoOrder(g, sorted)
    requires oldLin != [] ==> Linearization(g, oldLin) && Tracks(g.Rates(), oldLin, ret, todo) && cs != []
    requires oldLin != [] ==> IsChunking(g.Rates(), Keep(oldLin, todo), cs) && Movable(g.Rates(), cs, best.transactions)
    requires optimal ==> TracksAll(g, ret, todo) && Optimal(g, todo, best.feerate)
    ensures Partial(g, ret + sorted, todo - best.transactions)
    ensures oldLin != [] ==> Tracks(g.Rates(), oldLin, ret + sorted, todo - best.transactions)
    ensures optimal ==> TracksAll(g, ret + sorted, todo - best.transactions)
  {
    hide Tracks, TracksAll, Movable, IsChunking, WellFormed, Acyclic, TopoOrder, Optimal, Partial, SetRate, Keep;
    PartialTodo(g, ret, todo);
    CandidateInfo(g, todo, best);
    PartialStep(g, ret, todo, best.transactions, sorted);
    if optimal { TracksAllStep(g, ret, todo, best, sorted); }
    if oldLin != [] { TracksStep(g.Rates(), oldLin, ret, todo, cs, best.transactions, sorted); }
  }

  lemma PositiveEmpty(g: Graph, lin: seq<nat>)
    requires Cluster(g) && (lin != [] ==> Linearization(g, lin))
    ensures Distinct(lin) && Positive(g.Rates(), Elems(lin))
    ensures lin != [] ==> Elems(lin) == g.used
    ensures lin == [] ==> Elems(lin) == {}
  {}

  lemma CandidateInfo(g: Graph, todo: set<nat>, best: SetInfo)
    requires Cluster(g) && todo <= g.used && BestOk(g, todo, best)
    ensures best.feerate.size > 0 && best.transactions != {} && best.transactions <= todo && TopoSubset(g, todo, best.transactions)
  {
    SetRatePositive(g.Rates(), best.transactions);
  }

  lemma NonEmptyLeft(src: SearchCandidateFinder, todo: set<nat>)
    requires src.Left() == todo && todo != {}
    ensures src.todo != {}
  {}

  lemma StillNotBelow(f: seq<FeeFrac>, lin: seq<nat>, todo: set<nat>, cs: seq<seq<nat>>, before: FeeFrac, best: FeeFrac)
    requires IsChunking(f, Keep(lin, todo), cs) && cs != [] && Distinct(lin) && todo <= Elems(lin) && Positive(f, Elems(lin))
    requires before.size > 0 && best.size > 0 && !before.Better(best) && Gain(before, SeqRate(f, cs[0])) >= 0
    ensures Gain(best, SeqRate(f, cs[0])) >= 0
  {
    FirstChunkInfo(f, lin, todo, cs);
    BetterNotLower(before, best);
    hide Gain, FeeFrac.Better;
    GainSwap(before, best);
    GainTransitive(best, before, SeqRate(f, cs[0]));
  }
}
