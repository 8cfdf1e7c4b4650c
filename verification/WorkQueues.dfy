// Runs of the branch-and-bound search as sequences of moves on its queue of work items, and how long they can be.
module WorkQueues {
  import opened Sets
  import opened FeeFracs
  import opened Diagrams
  import opened DepGraphs
  import opened Chunkings
  import opened Powers

  /** A work item: transactions decided to be in, transactions undecided, and a bound on what can be reached. */
  datatype WorkItem = WorkItem(inc: SetInfo, und: set<nat>, pot: FeeFrac)

  /** The sets a work item can still lead to. */
  ghost predicate Compatible(inc: set<nat>, und: set<nat>, x: set<nat>) {
    inc <= x <= inc + und
  }

  /** Nothing elem can lead to beats best. */
  ghost predicate Hopeless(g: Graph, elem: WorkItem, best: FeeFrac) {
    forall x :: Compatible(elem.inc.transactions, elem.und, x) && x != {} ==> Gain(SetRate(g.Rates(), x), best) <= 0
  }

  // ---------------------------------------------------------------- moves

  datatype SearchState = SearchState(best: SetInfo, queue: seq<WorkItem>)

  datatype Move = Swap | Drop(k: nat) | Split(k: nat, tx: nat)

  function Without(queue: seq<WorkItem>, k: nat): seq<WorkItem>
    requires k < |queue|
  {
    queue[..k] + queue[k + 1..]
  }

  /** At most one item is queued, which has decided at least inc and leaves at most und undecided. */
  predicate Queued(inc: set<nat>, und: set<nat>, queue: seq<WorkItem>, queue': seq<WorkItem>) {
    || queue' == queue
    || (|queue'| == |queue| + 1 && queue <= queue' && inc <= queue'[|queue|].inc.transactions && {} < queue'[|queue|].und <= und)
  }

  /** An item is replaced by one without tx and its descendants and one with tx and its ancestors. */
  ghost predicate SplitInto(g: Graph, todo: set<nat>, elem: WorkItem, tx: nat, queue: seq<WorkItem>, queue': seq<WorkItem>) {
    && tx in elem.und && tx in g.Anc(tx) && tx in g.Desc(tx) && elem.und <= todo
    && exists mid ::
         && Queued(elem.inc.transactions, elem.und - g.Desc(tx), queue, mid)
         && Queued(elem.inc.transactions + g.Anc(tx) * todo, elem.und - g.Anc(tx) * todo, mid, queue')
  }

  ghost predicate MoveOk(g: Graph, todo: set<nat>, s: SearchState, m: Move, s': SearchState) {
    match m
    case Swap => |s.queue| > 1 && s' == s.(queue := s.queue[0 := s.queue[1]][1 := s.queue[0]])
    case Drop(k) => k < |s.queue| && s.queue[k].und != {} && Hopeless(g, s.queue[k], s.best.feerate) && s' == s.(queue := Without(s.queue, k))
    case Split(k, tx) => k < |s.queue| && SplitInto(g, todo, s.queue[k], tx, Without(s.queue, k), s'.queue) && !s.best.feerate.Better(s'.best.feerate)
  }

  ghost predicate IsRun(g: Graph, todo: set<nat>, states: seq<SearchState>, moves: seq<Move>) {
    |states| == |moves| + 1 && forall i :: 0 <= i < |moves| ==> MoveOk(g, todo, states[i], moves[i], states[i + 1])
  }

  ghost function Splits(moves: seq<Move>): nat {
    if moves == [] then 0 else Splits(moves[..|moves| - 1]) + if moves[|moves| - 1].Split? then 1 else 0
  }

  lemma RunMore(g: Graph, todo: set<nat>, states: seq<SearchState>, moves: seq<Move>, m: Move, s: SearchState)
    requires IsRun(g, todo, states, moves) && MoveOk(g, todo, states[|moves|], m, s)
    ensures IsRun(g, todo, states + [s], moves + [m]) && Splits(moves + [m]) == Splits(moves) + if m.Split? then 1 else 0
  {
    hide MoveOk;
    var states', moves' := states + [s], moves + [m];
    assert moves'[..|moves|] == moves;
    forall i | 0 <= i < |moves'| ensures MoveOk(g, todo, states'[i], moves'[i], states'[i + 1]) {
      if i < |moves| { assert states'[i] == states[i] && states'[i + 1] == states[i + 1]; }
    }
  }

  // ---------------------------------------------------------------- search space

  /** How many non-empty sets can be made of the undecided transactions. */
  ghost function Space(item: WorkItem): (n: nat)
    ensures item.und != {} ==> n > 0
  {
    PowPositive(2, |item.und|);
    assert item.und != {} ==> Pow(2, |item.und|) == 2 * Pow(2, |item.und| - 1);
    Pow(2, |item.und|) - 1
  }

  ghost function Weight(queue: seq<WorkItem>): nat {
    if queue == [] then 0 else Weight(queue[..|queue| - 1]) + Space(queue[|queue| - 1])
  }

  lemma WeightAdd(queue: seq<WorkItem>, item: WorkItem)
    ensures Weight(queue + [item]) == Weight(queue) + Space(item)
  {
    assert (queue + [item])[..|queue|] == queue;
  }

  lemma {:induction false} WeightJoin(a: seq<WorkItem>, b: seq<WorkItem>)
    ensures Weight(a + b) == Weight(a) + Weight(b)
  {
    hide Space;
    if b == [] {
      assert a + b == a;
    } else {
      var n := |b| - 1;
      WeightJoin(a, b[..n]);
      assert (a + b)[..|a| + n] == a + b[..n];
    }
  }

  lemma WeightWithout(queue: seq<WorkItem>, k: nat)
    requires k < |queue|
    ensures Weight(queue) == Weight(Without(queue, k)) + Space(queue[k])
  {
    hide Space, Weight;
    assert queue == queue[..k] + [queue[k]] + queue[k + 1..];
    WeightJoin(queue[..k] + [queue[k]], queue[k + 1..]);
    WeightAdd(queue[..k], queue[k]);
    WeightJoin(queue[..k], queue[k + 1..]);
  }

  lemma WeightSwap(queue: seq<WorkItem>)
    requires |queue| > 1
    ensures Weight(queue[0 := queue[1]][1 := queue[0]]) == Weight(queue)
  {
    hide Space, Weight;
    var q := queue[0 := queue[1]][1 := queue[0]];
    WeightWithout(queue, 0);
    WeightWithout(Without(queue, 0), 0);
    WeightWithout(q, 0);
    WeightWithout(Without(q, 0), 0);
    assert Without(Without(q, 0), 0) == Without(Without(queue, 0), 0);
  }

  lemma SpaceMono(item: WorkItem, n: nat)
    requires |item.und| <= n
    ensures Space(item) <= Pow(2, n) - 1
  {
    PowGrows(2, |item.und|, n);
  }

  lemma QueuedWeight(inc: set<nat>, und: set<nat>, n: nat, queue: seq<WorkItem>, queue': seq<WorkItem>)
    requires Queued(inc, und, queue, queue') && |und| <= n
    ensures Weight(queue') <= Weight(queue) + Pow(2, n) - 1 && Pow(2, n) > 0
  {
    hide Space, Weight;
    PowPositive(2, n);
    if queue' != queue {
      var item := queue'[|queue|];
      assert queue' == queue + [item];
      WeightAdd(queue, item);
      SubsetSize(item.und, und);
      SpaceMono(item, n);
    }
  }

  /** Both items of a split together leave less to search than the item that was split. */
  lemma SplitShrinks(g: Graph, todo: set<nat>, elem: WorkItem, tx: nat, queue: seq<WorkItem>, queue': seq<WorkItem>)
    requires SplitInto(g, todo, elem, tx, queue, queue')
    ensures Weight(queue') < Weight(queue) + Space(elem)
  {
    hide Weight, Queued;
    var n := |elem.und| - 1;
    var a, b := elem.und - g.Desc(tx), elem.und - g.Anc(tx) * todo;
    var mid :| && Queued(elem.inc.transactions, a, queue, mid)
               && Queued(elem.inc.transactions + g.Anc(tx) * todo, b, mid, queue');
    SubsetSize(a, elem.und - {tx});
    SubsetSize(b, elem.und - {tx});
    assert elem.und == elem.und - {tx} + {tx};
    QueuedWeight(elem.inc.transactions, a, n, queue, mid);
    QueuedWeight(elem.inc.transactions + g.Anc(tx) * todo, b, n, mid, queue');
    assert Pow(2, n + 1) == 2 * Pow(2, n);
  }

  lemma MoveWeight(g: Graph, todo: set<nat>, s: SearchState, m: Move, s': SearchState)
    requires MoveOk(g, todo, s, m, s')
    ensures Weight(s'.queue) + (if m.Split? then 1 else 0) <= Weight(s.queue)
  {
    hide Weight, Space, SplitInto, Hopeless, FeeFrac.Better;
    match m
    case Swap => WeightSwap(s.queue);
    case Drop(k) => WeightWithout(s.queue, k);
    case Split(k, tx) =>
      WeightWithout(s.queue, k);
      SplitShrinks(g, todo, s.queue[k], tx, Without(s.queue, k), s'.queue);
  }

  /** In every run the splits performed and the search space left do not exceed the search space at the beginning. */
  lemma {:induction false} RunBounded(g: Graph, todo: set<nat>, states: seq<SearchState>, moves: seq<Move>)
    requires IsRun(g, todo, states, moves)
    ensures Splits(moves) + Weight(states[|moves|].queue) <= Weight(states[0].queue)
    decreases |moves|
  {
    hide MoveOk, Weight;
    if moves != [] {
      var n := |moves| - 1;
      RunBounded(g, todo, states[..|moves|], moves[..n]);
      MoveWeight(g, todo, states[n], moves[n], states[n + 1]);
    }
  }

  /** Components leave less to search than all of their transactions together. */
  lemma ComponentWeight(queue: seq<WorkItem>, item: WorkItem, left: set<nat>, bound: nat)
    requires item.und <= left && Weight(queue) + Pow(2, |left|) <= bound
    ensures Weight(queue + [item]) + Pow(2, |left - item.und|) <= bound
  {
    hide Weight, Pow;
    var a, b := |item.und|, |left - item.und|;
    assert left == item.und + (left - item.und);
    WeightAdd(queue, item);
    PowAdd(2, a, b);
    PowPositive(2, a);
    PowPositive(2, b);
    SumBelowProduct(Pow(2, a), Pow(2, b));
  }

  lemma SumBelowProduct(x: nat, y: nat)
    requires x > 0 && y > 0
    ensures x - 1 + y <= x * y
  {
    MulMono(1, y, x - 1);
    Distribute(x - 1, 1, y);
    assert y * (x - 1) == (x - 1) * y;
  }

  // ---------------------------------------------------------------- length of the queue

  /** What the queue has room for, with n transactions. */
  function Capacity(n: nat): nat { if 2 * n > 256 then 2 * n else 256 }

  /** Working off an item and everything it gives rise to, with all that is queued before it, does not exceed cap. */
  ghost predicate Roomy(queue: seq<WorkItem>, cap: nat) {
    forall i :: 0 <= i < |queue| ==> queue[i].und != {} && i + |queue[i].und| <= cap
  }

  lemma RoomyLength(queue: seq<WorkItem>, cap: nat)
    requires Roomy(queue, cap)
    ensures |queue| <= cap
  {
    if queue != [] { assert queue[|queue| - 1].und != {}; }
  }

  lemma RoomyWithout(queue: seq<WorkItem>, k: nat, cap: nat)
    requires k < |queue| && Roomy(queue, cap)
    ensures Roomy(Without(queue, k), cap)
  {
    var q := Without(queue, k);
    forall i | 0 <= i < |q| ensures q[i].und != {} && i + |q[i].und| <= cap {
      assert q[i] == queue[if i < k then i else i + 1];
    }
  }

  lemma RoomySwap(queue: seq<WorkItem>, cap: nat)
    requires |queue| > 1 && Roomy(queue, cap) && |queue[0].und| < cap
    ensures Roomy(queue[0 := queue[1]][1 := queue[0]], cap)
  {}

  lemma RoomyQueued(inc: set<nat>, und: set<nat>, queue: seq<WorkItem>, queue': seq<WorkItem>, cap: nat)
    requires Queued(inc, und, queue, queue') && Roomy(queue, cap) && |queue| + |und| <= cap
    ensures Roomy(queue', cap) && |queue'| <= |queue| + 1
  {
    if queue' != queue {
      SubsetSize(queue'[|queue|].und, und);
      forall i | 0 <= i < |queue'| ensures queue'[i].und != {} && i + |queue'[i].und| <= cap {
        if i < |queue| { assert queue'[i] == queue[i]; }
      }
    }
  }

  /** Both items of a split have fewer undecided transactions, so they take no more room than the item did at the end. */
  lemma RoomySplit(g: Graph, todo: set<nat>, queue: seq<WorkItem>, k: nat, tx: nat, queue': seq<WorkItem>, cap: nat)
    requires k < |queue| && Roomy(queue, cap) && |queue| - 1 + |queue[k].und| <= cap
    requires SplitInto(g, todo, queue[k], tx, Without(queue, k), queue')
    ensures Roomy(queue', cap)
  {
    hide Roomy, Queued;
    var elem, base := queue[k], Without(queue, k);
    var a, b := elem.und - g.Desc(tx), elem.und - g.Anc(tx) * todo;
    var mid :| && Queued(elem.inc.transactions, a, base, mid)
               && Queued(elem.inc.transactions + g.Anc(tx) * todo, b, mid, queue');
    SubsetSize(a, elem.und - {tx});
    SubsetSize(b, elem.und - {tx});
    assert elem.und == elem.und - {tx} + {tx};
    RoomyWithout(queue, k, cap);
    RoomyQueued(elem.inc.transactions, a, base, mid, cap);
    RoomyQueued(elem.inc.transactions + g.Anc(tx) * todo, b, mid, queue', cap);
  }
}
