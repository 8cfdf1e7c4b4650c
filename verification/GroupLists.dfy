// The index-linked lists PostLinearize keeps its groups in, and the two passes over them.
module GroupLists {
  import opened Sets
  import opened FeeFracs
  import opened Diagrams
  import opened DepGraphs
  import opened GraphQueries
  import opened Merging
  import opened PostLinearizing
  import opened GroupShapes
  import opened LeafMoves
  import opened PassResults

  const SENTINEL: nat := 0
  const NO_PREV_TX: nat := 0

  /** Entry of transaction t at index t + 1, the sentinel at index 0. All but prevTx matter only for the last of a group. */
  datatype TxEntry = TxEntry(prevTx: nat, firstTx: nat, prevGroup: nat, group: set<nat>, deps: set<nat>, feerate: FeeFrac)

  function Head(gp: seq<nat>): nat { if gp == [] then 0 else gp[0] + 1 }

  function Tail(gp: seq<nat>): nat { if gp == [] then 0 else gp[|gp| - 1] + 1 }

  /** The k-th node of the circular list of groups: the sentinel at both ends, the tails of the groups between. */
  ghost function Node(groups: seq<seq<nat>>, k: nat): nat {
    if 1 <= k <= |groups| then Tail(groups[k - 1]) else SENTINEL
  }

  /** Every node points back to the one before it. */
  ghost predicate Linked(es: seq<TxEntry>, groups: seq<seq<nat>>) {
    forall k: nat :: 1 <= k <= |groups| + 1 ==> Node(groups, k) < |es| && es[Node(groups, k)].prevGroup == Node(groups, k - 1)
  }

  ghost predicate Chained(es: seq<TxEntry>, gp: seq<nat>) {
    forall j :: 0 <= j < |gp| ==> gp[j] + 1 < |es| && es[gp[j] + 1].prevTx == if j == 0 then NO_PREV_TX else gp[j - 1] + 1
  }

  /** The entries of a group: chained from its tail, with the totals in the tail. */
  ghost predicate GroupRep(f: seq<FeeFrac>, d: seq<set<nat>>, es: seq<TxEntry>, gp: seq<nat>) {
    && gp != [] && Chained(es, gp)
    && es[Tail(gp)].firstTx == Head(gp) && es[Tail(gp)].group == Elems(gp)
    && es[Tail(gp)].deps == GroupDeps(d, gp) && es[Tail(gp)].feerate == SeqRate(f, gp)
  }

  /** The list is well formed and holds exactly these groups. */
  ghost predicate Rep(f: seq<FeeFrac>, d: seq<set<nat>>, es: seq<TxEntry>, groups: seq<seq<nat>>) {
    && es != [] && es[SENTINEL].feerate == EMPTY
    && (forall k :: 0 <= k < |groups| ==> GroupRep(f, d, es, groups[k]))
    && Linked(es, groups)
  }

  // ---------------------------------------------------------------- groups do not share transactions

  lemma GroupsDisjoint(groups: seq<seq<nat>>, i: nat, j: nat)
    requires Distinct(Flatten(groups)) && i < j < |groups|
    ensures Elems(groups[i]) !! Elems(groups[j])
  {
    hide Flatten;
    assert groups == groups[..j] + groups[j..];
    FlattenConcat(groups[..j], groups[j..]);
    FlattenMember(groups[..j], i);
    FlattenMember(groups[j..], 0);
    SplitDistinct(Flatten(groups[..j]), Flatten(groups[j..]));
  }

  lemma SplitDistinct(a: seq<nat>, b: seq<nat>)
    requires Distinct(a + b)
    ensures Elems(a) !! Elems(b)
  {
    forall i, j | 0 <= i < |a| && 0 <= j < |b| ensures a[i] != b[j] {
      assert (a + b)[i] != (a + b)[|a| + j];
    }
  }

  lemma {:induction false} FlattenMember(groups: seq<seq<nat>>, i: nat)
    requires i < |groups|
    ensures Elems(groups[i]) <= Elems(Flatten(groups))
  {
    ElemsConcat(groups[0], Flatten(groups[1..]));
    if i > 0 { FlattenMember(groups[1..], i - 1); }
  }

  /** Entries of other groups are not at an index that belongs to group c. */
  lemma OtherGroup(groups: seq<seq<nat>>, c: nat, k: nat, x: nat, y: nat)
    requires Distinct(Flatten(groups)) && c < |groups| && k < |groups| && c != k && x in groups[c] && y in groups[k]
    ensures x != y
  {
    if c < k { GroupsDisjoint(groups, c, k); } else { GroupsDisjoint(groups, k, c); }
    assert x in Elems(groups[c]) && y in Elems(groups[k]);
  }

  /** A group keeps its representation when its entries change in prevGroup only. */
  lemma GroupFrame(f: seq<FeeFrac>, d: seq<set<nat>>, es: seq<TxEntry>, es': seq<TxEntry>, gp: seq<nat>)
    requires GroupRep(f, d, es, gp) && |es'| == |es|
    requires forall x :: x in gp && x + 1 < |es| ==> es'[x + 1] == es[x + 1].(prevGroup := es'[x + 1].prevGroup)
    ensures GroupRep(f, d, es', gp)
  {
    hide Elems, GroupDeps, SeqRate;
    assert gp[|gp| - 1] in gp;
    forall j | 0 <= j < |gp| ensures gp[j] + 1 < |es'| && es'[gp[j] + 1].prevTx == if j == 0 then NO_PREV_TX else gp[j - 1] + 1 {
      assert gp[j] in gp;
    }
  }

  // ---------------------------------------------------------------- appending a group

  function Appended(es: seq<TxEntry>, x: nat, e: TxEntry): seq<TxEntry>
    requires x + 1 < |es|
  {
    var es1 := es[x + 1 := e.(prevGroup := es[SENTINEL].prevGroup)];
    es1[SENTINEL := es1[SENTINEL].(prevGroup := x + 1)]
  }

  lemma AppendRep(f: seq<FeeFrac>, d: seq<set<nat>>, es: seq<TxEntry>, groups: seq<seq<nat>>, x: nat, e: TxEntry)
    requires Rep(f, d, es, groups) && x + 1 < |es| && x !in Elems(Flatten(groups))
    requires e.prevTx == NO_PREV_TX && e.firstTx == x + 1 && e.group == {x} && e.deps == DepsOf(d, x) && e.feerate == TxRate(f, x)
    ensures Rep(f, d, Appended(es, x, e), groups + [[x]])
  {
    hide GroupRep, Flatten;
    var es' := Appended(es, x, e);
    var groups' := groups + [[x]];
    NewGroup(f, d, es', x);
    forall k | 0 <= k < |groups'| ensures GroupRep(f, d, es', groups'[k]) {
      if k < |groups| {
        FlattenMember(groups, k);
        forall y | y in groups[k] ensures y != x { assert y in Elems(groups[k]); }
        GroupFrame(f, d, es, es', groups[k]);
      }
    }
    forall k: nat | 1 <= k <= |groups'| + 1
      ensures Node(groups', k) < |es'| && es'[Node(groups', k)].prevGroup == Node(groups', k - 1)
    {
      if k <= |groups| {
        assert Node(groups', k) == Node(groups, k) && Node(groups', k - 1) == Node(groups, k - 1);
        TailMember(f, d, es, groups[k - 1]);
        FlattenMember(groups, k - 1);
      } else if k == |groups'| {
        assert Node(groups', k) == x + 1;
        assert Node(groups, |groups| + 1) == SENTINEL && Node(groups', k - 1) == Node(groups, |groups|);
      }
    }
  }

  lemma NewGroup(f: seq<FeeFrac>, d: seq<set<nat>>, es: seq<TxEntry>, x: nat)
    requires x + 1 < |es| && es[x + 1].prevTx == NO_PREV_TX && es[x + 1].firstTx == x + 1 && es[x + 1].group == {x}
    requires es[x + 1].deps == DepsOf(d, x) && es[x + 1].feerate == TxRate(f, x)
    ensures GroupRep(f, d, es, [x])
  {
    assert [x][1..] == [];
    assert GroupDeps(d, [x]) == DepsOf(d, x) + {};
    assert Elems([x]) == {x};
  }

  lemma TailMember(f: seq<FeeFrac>, d: seq<set<nat>>, es: seq<TxEntry>, gp: seq<nat>)
    requires GroupRep(f, d, es, gp)
    ensures gp != [] && Tail(gp) < |es| && Tail(gp) != SENTINEL && Tail(gp) - 1 in Elems(gp)
    ensures Head(gp) < |es| && Head(gp) != SENTINEL && Head(gp) - 1 in Elems(gp) && es[Tail(gp)].firstTx == Head(gp)
  {
    assert gp[|gp| - 1] in gp;
  }

  // ---------------------------------------------------------------- swapping two groups

  function Swapped(es: seq<TxEntry>, next: nat, cur: nat, prev: nat): seq<TxEntry>
    requires next < |es| && cur < |es| && prev < |es|
  {
    var preprev := es[prev].prevGroup;
    var es1 := es[next := es[next].(prevGroup := prev)];
    var es2 := es1[prev := es1[prev].(prevGroup := cur)];
    es2[cur := es2[cur].(prevGroup := preprev)]
  }

  lemma SwapRep(f: seq<FeeFrac>, d: seq<set<nat>>, es: seq<TxEntry>, groups: seq<seq<nat>>, c: nat)
    requires Rep(f, d, es, groups) && Distinct(Flatten(groups)) && 0 < c < |groups|
    ensures Node(groups, c + 2) < |es| && Node(groups, c + 1) < |es| && Node(groups, c) < |es|
    ensures Rep(f, d, Swapped(es, Node(groups, c + 2), Node(groups, c + 1), Node(groups, c)), SwapAt(groups, c))
  {
    hide GroupRep, Flatten, Distinct, Linked, Node, NodesOk;
    var next, cur, prev := Node(groups, c + 2), Node(groups, c + 1), Node(groups, c);
    NodesDistinct(f, d, es, groups);
    NodeInRange(es, groups, c + 2);
    NodeInRange(es, groups, c + 1);
    NodeInRange(es, groups, c);
    var es' := Swapped(es, next, cur, prev);
    var groups' := SwapAt(groups, c);
    forall k | 0 <= k < |groups'| ensures GroupRep(f, d, es', groups'[k]) {
      var m := if k == c - 1 then c else if k == c then c - 1 else k;
      assert groups'[k] == groups[m];
      GroupFrame(f, d, es, es', groups[m]);
    }
    SwapLinked(es, groups, c);
  }

  lemma SwapLinked(es: seq<TxEntry>, groups: seq<seq<nat>>, c: nat)
    requires Linked(es, groups) && NodesOk(es, groups) && 0 < c < |groups|
    ensures Linked(Swapped(es, Node(groups, c + 2), Node(groups, c + 1), Node(groups, c)), SwapAt(groups, c))
  {
    hide Node;
    var next, cur, prev := Node(groups, c + 2), Node(groups, c + 1), Node(groups, c);
    var es' := Swapped(es, next, cur, prev);
    var groups' := SwapAt(groups, c);
    assert es[prev].prevGroup == Node(groups, c - 1);
    forall k: nat | 1 <= k <= |groups'| + 1
      ensures Node(groups', k) < |es'| && es'[Node(groups', k)].prevGroup == Node(groups', k - 1)
    {
      SwapNode(groups, c, k);
      SwapNode(groups, c, k - 1);
      if k != c && k != c + 1 && k != c + 2 {
        assert es[Node(groups, k)].prevGroup == Node(groups, k - 1);
        NodesDiffer(es, groups, k, c);
        NodesDiffer(es, groups, k, c + 1);
        NodesDiffer(es, groups, k, c + 2);
      } else {
        NodesDiffer(es, groups, c, c + 1);
        NodesDiffer(es, groups, c, c + 2);
        NodesDiffer(es, groups, c + 1, c + 2);
      }
    }
  }

  /** Apart from the sentinel at both ends all nodes are different. */
  ghost predicate NodesOk(es: seq<TxEntry>, groups: seq<seq<nat>>) {
    && (forall k: nat :: Node(groups, k) < |es|)
    && (forall i: nat, j: nat :: 1 <= i < j <= |groups| + 1 ==> Node(groups, i) != Node(groups, j))
  }

  lemma NodeInRange(es: seq<TxEntry>, groups: seq<seq<nat>>, k: nat)
    requires NodesOk(es, groups)
    ensures Node(groups, k) < |es|
  {}

  lemma NodesDiffer(es: seq<TxEntry>, groups: seq<seq<nat>>, i: nat, j: nat)
    requires NodesOk(es, groups) && 1 <= i <= |groups| + 1 && 1 <= j <= |groups| + 1 && i != j
    ensures Node(groups, i) != Node(groups, j)
  {}

  lemma SwapNode(groups: seq<seq<nat>>, c: nat, k: nat)
    requires 0 < c < |groups|
    ensures Node(SwapAt(groups, c), k) == Node(groups, if k == c then c + 1 else if k == c + 1 then c else k)
  {}

  lemma NodesDistinct(f: seq<FeeFrac>, d: seq<set<nat>>, es: seq<TxEntry>, groups: seq<seq<nat>>)
    requires Rep(f, d, es, groups) && Distinct(Flatten(groups))
    ensures NodesOk(es, groups)
  {
    hide GroupRep, Flatten, Distinct, Linked;
    forall k: nat ensures Node(groups, k) < |es| && (1 <= k <= |groups| ==> Node(groups, k) != SENTINEL) {
      if 1 <= k <= |groups| { TailMember(f, d, es, groups[k - 1]); }
    }
    forall i: nat, j: nat | 1 <= i < j <= |groups| ensures Node(groups, i) != Node(groups, j) {
      TailMember(f, d, es, groups[i - 1]);
      TailMember(f, d, es, groups[j - 1]);
      GroupsDisjoint(groups, i - 1, j - 1);
    }
  }

  // ---------------------------------------------------------------- merging two groups

  function Merged(es: seq<TxEntry>, cur: nat, prev: nat): seq<TxEntry>
    requires cur < |es| && prev < |es| && es[cur].firstTx < |es|
  {
    var es1 := es[cur := es[cur].(group := es[cur].group + es[prev].group, deps := es[cur].deps + es[prev].deps,
                                  feerate := es[cur].feerate.Plus(es[prev].feerate))];
    var first := es1[cur].firstTx;
    var es2 := es1[first := es1[first].(prevTx := prev)];
    var es3 := es2[cur := es2[cur].(firstTx := es2[prev].firstTx)];
    es3[cur := es3[cur].(prevGroup := es3[prev].prevGroup)]
  }

  lemma MergedAt(es: seq<TxEntry>, cur: nat, prev: nat, first: nat)
    requires cur < |es| && prev < |es| && es[cur].firstTx == first < |es| && prev != cur && prev != first
    ensures |Merged(es, cur, prev)| == |es|
    ensures forall i :: 0 <= i < |es| && i != cur && i != first ==> Merged(es, cur, prev)[i] == es[i]
    ensures first != cur ==> Merged(es, cur, prev)[first] == es[first].(prevTx := prev)
    ensures Merged(es, cur, prev)[cur] == TxEntry(if first == cur then prev else es[cur].prevTx, es[prev].firstTx, es[prev].prevGroup,
              es[cur].group + es[prev].group, es[cur].deps + es[prev].deps, es[cur].feerate.Plus(es[prev].feerate))
  {}

  lemma MergeRep(f: seq<FeeFrac>, d: seq<set<nat>>, es: seq<TxEntry>, groups: seq<seq<nat>>, c: nat)
    requires Rep(f, d, es, groups) && Distinct(Flatten(groups)) && 0 < c < |groups|
    ensures Node(groups, c + 1) < |es| && Node(groups, c) < |es| && es[Node(groups, c + 1)].firstTx < |es|
    ensures Rep(f, d, Merged(es, Node(groups, c + 1), Node(groups, c)), MergeAt(groups, c))
  {
    hide GroupRep, Flatten, Distinct, Merged, Linked, Elems, NodesOk;
    var cur, prev := Node(groups, c + 1), Node(groups, c);
    var p, q := groups[c - 1], groups[c];
    NodesDistinct(f, d, es, groups);
    TailMember(f, d, es, p);
    TailMember(f, d, es, q);
    GroupsDisjoint(groups, c - 1, c);
    assert Distinct(q) by { GroupWithin(groups, c); }
    var first := Head(q);
    MergedAt(es, cur, prev, first);
    var es' := Merged(es, cur, prev);
    var groups' := MergeAt(groups, c);
    MergedGroup(f, d, es, es', p, q);
    forall k | 0 <= k < |groups'| ensures GroupRep(f, d, es', groups'[k]) {
      MergeIndex(groups, c, k);
      if k != c - 1 { MergeFrame(f, d, es, es', groups, c, if k < c then k else k + 1); }
    }
    assert forall i :: 0 <= i < |es| && i != cur ==> es'[i].prevGroup == es[i].prevGroup;
    MergeLinked(es, es', groups, c);
  }

  lemma MergeFrame(f: seq<FeeFrac>, d: seq<set<nat>>, es: seq<TxEntry>, es': seq<TxEntry>, groups: seq<seq<nat>>, c: nat, m: nat)
    requires Distinct(Flatten(groups)) && c < |groups| && m < |groups| && m != c && |es'| == |es|
    requires GroupRep(f, d, es, groups[c]) && GroupRep(f, d, es, groups[m])
    requires forall i :: 0 <= i < |es| && i != Tail(groups[c]) && i != Head(groups[c]) ==> es'[i] == es[i]
    ensures GroupRep(f, d, es', groups[m])
  {
    hide GroupRep, Flatten, Distinct;
    TailMember(f, d, es, groups[c]);
    forall y | y in groups[m] ensures y + 1 != Tail(groups[c]) && y + 1 != Head(groups[c]) {
      OtherGroup(groups, c, m, Tail(groups[c]) - 1, y);
      OtherGroup(groups, c, m, Head(groups[c]) - 1, y);
    }
    GroupFrame(f, d, es, es', groups[m]);
  }

  lemma MergeLinked(es: seq<TxEntry>, es': seq<TxEntry>, groups: seq<seq<nat>>, c: nat)
    requires Linked(es, groups) && NodesOk(es, groups) && 0 < c < |groups| && groups[c] != [] && |es'| == |es|
    requires forall i :: 0 <= i < |es| && i != Node(groups, c + 1) ==> es'[i].prevGroup == es[i].prevGroup
    requires es'[Node(groups, c + 1)].prevGroup == es[Node(groups, c)].prevGroup
    ensures Linked(es', MergeAt(groups, c))
  {
    hide Node;
    var groups' := MergeAt(groups, c);
    forall k: nat | 1 <= k <= |groups'| + 1
      ensures Node(groups', k) < |es'| && es'[Node(groups', k)].prevGroup == Node(groups', k - 1)
    {
      MergeNode(groups, c, k);
      MergeNode(groups, c, k - 1);
      var m := if k < c then k else k + 1;
      assert es[Node(groups, m)].prevGroup == Node(groups, m - 1);
      assert es[Node(groups, c)].prevGroup == Node(groups, c - 1);
      if k != c { NodesDiffer(es, groups, m, c + 1); }
    }
  }

  lemma MergeNode(groups: seq<seq<nat>>, c: nat, k: nat)
    requires 0 < c < |groups| && groups[c] != []
    ensures |MergeAt(groups, c)| == |groups| - 1
    ensures Node(MergeAt(groups, c), k) == Node(groups, if k < c then k else k + 1)
  {
    if 1 <= k <= |MergeAt(groups, c)| { MergeIndex(groups, c, k - 1); }
  }

  lemma MergedGroup(f: seq<FeeFrac>, d: seq<set<nat>>, es: seq<TxEntry>, es': seq<TxEntry>, p: seq<nat>, q: seq<nat>)
    requires GroupRep(f, d, es, p) && GroupRep(f, d, es, q) && Elems(p) !! Elems(q) && Distinct(q) && |es'| == |es|
    requires Tail(q) < |es| && Tail(p) < |es| && Head(q) < |es|
    requires forall i :: 0 <= i < |es| && i != Tail(q) && i != Head(q) ==> es'[i] == es[i]
    requires Head(q) != Tail(q) ==> es'[Head(q)] == es[Head(q)].(prevTx := Tail(p))
    requires es'[Tail(q)].prevTx == if Head(q) == Tail(q) then Tail(p) else es[Tail(q)].prevTx
    requires es'[Tail(q)].firstTx == es[Tail(p)].firstTx && es'[Tail(q)].group == es[Tail(q)].group + es[Tail(p)].group
    requires es'[Tail(q)].deps == es[Tail(q)].deps + es[Tail(p)].deps
    requires es'[Tail(q)].feerate == es[Tail(q)].feerate.Plus(es[Tail(p)].feerate)
    ensures GroupRep(f, d, es', p + q)
  {
    hide GroupDeps, SeqRate, Elems, Chained, Distinct;
    SeqRateConcat(f, p, q);
    GroupDepsConcat(d, p, q);
    ElemsConcat(p, q);
    MergedChain(es, es', p, q);
  }

  lemma MergedChain(es: seq<TxEntry>, es': seq<TxEntry>, p: seq<nat>, q: seq<nat>)
    requires p != [] && q != [] && Chained(es, p) && Chained(es, q) && Elems(p) !! Elems(q) && Distinct(q) && |es'| == |es|
    requires Tail(q) < |es| && Head(q) < |es|
    requires forall i :: 0 <= i < |es| && i != Tail(q) && i != Head(q) ==> es'[i] == es[i]
    requires Head(q) != Tail(q) ==> es'[Head(q)] == es[Head(q)].(prevTx := Tail(p))
    requires es'[Tail(q)].prevTx == if Head(q) == Tail(q) then Tail(p) else es[Tail(q)].prevTx
    ensures Chained(es', p + q)
  {
    var pq := p + q;
    forall j | 0 <= j < |pq| ensures pq[j] + 1 < |es'| && es'[pq[j] + 1].prevTx == if j == 0 then NO_PREV_TX else pq[j - 1] + 1 {
      if j < |p| {
        assert pq[j] == p[j] && p[j] in Elems(p) && q[0] in Elems(q) && q[|q| - 1] in Elems(q);
      } else {
        assert pq[j] == q[j - |p|];
      }
    }
  }

  // ---------------------------------------------------------------- the passes

  method SwapGroups(entries: array<TxEntry>, next: nat, cur: nat, prev: nat)
    requires next < entries.Length && cur < entries.Length && prev < entries.Length
    modifies entries
    ensures entries[..] == Swapped(old(entries[..]), next, cur, prev)
  {
    var preprev := entries[prev].prevGroup;
    entries[next] := entries[next].(prevGroup := prev);
    entries[prev] := entries[prev].(prevGroup := cur);
    entries[cur] := entries[cur].(prevGroup := preprev);
  }

  method MergeGroups(entries: array<TxEntry>, cur: nat, prev: nat)
    requires cur < entries.Length && prev < entries.Length && entries[cur].firstTx < entries.Length
    modifies entries
    ensures entries[..] == Merged(old(entries[..]), cur, prev)
  {
    entries[cur] := entries[cur].(group := entries[cur].group + entries[prev].group, deps := entries[cur].deps + entries[prev].deps,
                                  feerate := entries[cur].feerate.Plus(entries[prev].feerate));
    var first := entries[cur].firstTx;
    entries[first] := entries[first].(prevTx := prev);
    entries[cur] := entries[cur].(firstTx := entries[prev].firstTx);
    entries[cur] := entries[cur].(prevGroup := entries[prev].prevGroup);
  }

  method AppendGroup(entries: array<TxEntry>, x: nat, e: TxEntry)
    requires x + 1 < entries.Length
    modifies entries
    ensures entries[..] == Appended(old(entries[..]), x, e)
  {
    entries[x + 1] := e.(prevGroup := entries[SENTINEL].prevGroup);
    entries[SENTINEL] := entries[SENTINEL].(prevGroup := x + 1);
  }

  /** The list with its groups, and the order it stands for relative to the order m being processed. */
  ghost predicate State(f: seq<FeeFrac>, d: seq<set<nat>>, es: seq<TxEntry>, groups: seq<seq<nat>>, done: seq<nat>, rest: seq<nat>) {
    && Rep(f, d, es, groups) && GroupsOk(f, d, groups)
    && Elems(Flatten(groups)) == Elems(done) && NoWorse(f, Flatten(groups) + rest, done + rest)
  }

  /**
   * The merge/swap cycle: the last group moves towards the front as long as it has a higher feerate
   * than the group before it, absorbing the groups it depends on. The groups are sorted by feerate again,
   * stay connected, and the order of the transactions becomes nowhere worse.
   */
  method Settle(f: seq<FeeFrac>, d: seq<set<nat>>, entries: array<TxEntry>, start: nat, ghost groups: seq<seq<nat>>, ghost done: seq<nat>, ghost rest: seq<nat>,
                ghost u: set<nat>, ghost t: nat, ghost w: seq<nat>)
    returns (ghost groups': seq<seq<nat>>)
    requires State(f, d, entries[..], groups, done, rest) && groups != [] && start == Node(groups, |groups|)
    requires Shaping(f, d, groups, |groups| - 1, u, t, w)
    modifies entries
    ensures State(f, d, entries[..], groups', done, rest) && Shaped(f, d, groups', u, t, w)
  {
    hide State, Swapped, Merged, Node, Elems, Gain, SeqRate, GroupDeps, FeeFrac.Higher, MergeAt, SwapAt, Flatten, Shaping, Shaped;
    groups' := groups;
    ghost var c: nat := |groups| - 1;
    var cur, next := start, SENTINEL;
    assert next == Node(groups, c + 2) by { LastNode(groups); }
    AroundNode(f, d, entries[..], groups', c, done, rest);
    var prev := entries[cur].prevGroup;
    while entries[cur].feerate.Higher(entries[prev].feerate)
      invariant c < |groups'| && State(f, d, entries[..], groups', done, rest) && Shaping(f, d, groups', c, u, t, w)
      invariant next == Node(groups', c + 2) && cur == Node(groups', c + 1) && prev == Node(groups', c)
      invariant next < entries.Length && cur < entries.Length && prev < entries.Length
      decreases c
    {
      ghost var es := entries[..];
      HigherHasPrev(f, d, es, groups', c, done, rest);
      if entries[cur].deps * entries[prev].group != {} {
        MergeStep(f, d, es, groups', c, done, rest, u, t, w);
        MergeGroups(entries, cur, prev);
        groups' := MergeAt(groups', c);
      } else {
        SwapStep(f, d, es, groups', c, done, rest, u, t, w);
        SwapGroups(entries, next, cur, prev);
        groups' := SwapAt(groups', c);
        next := prev;
      }
      c := c - 1;
      AroundNode(f, d, entries[..], groups', c, done, rest);
      prev := entries[cur].prevGroup;
    }
    CycleDone(f, d, entries[..], groups', c, done, rest, u, t, w);
  }

  lemma LastNode(groups: seq<seq<nat>>)
    ensures Node(groups, |groups| + 1) == SENTINEL
  {}

  lemma AroundNode(f: seq<FeeFrac>, d: seq<set<nat>>, es: seq<TxEntry>, groups: seq<seq<nat>>, c: nat, done: seq<nat>, rest: seq<nat>)
    requires State(f, d, es, groups, done, rest) && c < |groups|
    ensures Node(groups, c + 1) < |es| && Node(groups, c) < |es| && Node(groups, c + 2) < |es|
    ensures es[Node(groups, c + 1)].prevGroup == Node(groups, c)
  {
    NodesDistinct(f, d, es, groups);
  }

  /** A group with a higher feerate than the node before it is not the first: the sentinel's feerate is empty. */
  lemma HigherHasPrev(f: seq<FeeFrac>, d: seq<set<nat>>, es: seq<TxEntry>, groups: seq<seq<nat>>, c: nat, done: seq<nat>, rest: seq<nat>)
    requires State(f, d, es, groups, done, rest) && c < |groups| && Node(groups, c + 1) < |es| && Node(groups, c) < |es|
    requires es[Node(groups, c + 1)].feerate.Higher(es[Node(groups, c)].feerate)
    ensures c > 0
    ensures Gain(SeqRate(f, groups[c]), SeqRate(f, groups[c - 1])) > 0
    ensures es[Node(groups, c + 1)].deps == GroupDeps(d, groups[c]) && es[Node(groups, c)].group == Elems(groups[c - 1])
  {
    hide Gain, SeqRate, GroupDeps, Elems;
    assert GroupRep(f, d, es, groups[c]);
    if c == 0 {
      NotHigherThanEmpty(SeqRate(f, groups[c]));
    } else {
      assert GroupRep(f, d, es, groups[c - 1]);
      BetterNotLower(SeqRate(f, groups[c]), SeqRate(f, groups[c - 1]));
    }
  }

  lemma NotHigherThanEmpty(a: FeeFrac)
    ensures !a.Higher(EMPTY)
  {}

  /** The group that stopped is not above the one before it. */
  lemma CycleDone(f: seq<FeeFrac>, d: seq<set<nat>>, es: seq<TxEntry>, groups: seq<seq<nat>>, c: nat, done: seq<nat>, rest: seq<nat>,
                  u: set<nat>, t: nat, w: seq<nat>)
    requires State(f, d, es, groups, done, rest) && c < |groups| && Node(groups, c + 1) < |es| && Node(groups, c) < |es|
    requires Shaping(f, d, groups, c, u, t, w) && !es[Node(groups, c + 1)].feerate.Higher(es[Node(groups, c)].feerate)
    ensures Shaped(f, d, groups, u, t, w)
  {
    hide Gain, SeqRate, Elems, Flatten, GroupsOk, Shaping, Shaped, FeeFrac.Higher;
    assert GroupRep(f, d, es, groups[c]);
    if c > 0 {
      assert GroupRep(f, d, es, groups[c - 1]);
      BetterNotLower(SeqRate(f, groups[c]), SeqRate(f, groups[c - 1]));
    }
    ShapeDone(f, d, groups, c, u, t, w);
  }

  lemma MergeStep(f: seq<FeeFrac>, d: seq<set<nat>>, es: seq<TxEntry>, groups: seq<seq<nat>>, c: nat, done: seq<nat>, rest: seq<nat>,
                  u: set<nat>, t: nat, w: seq<nat>)
    requires State(f, d, es, groups, done, rest) && 0 < c < |groups| && Shaping(f, d, groups, c, u, t, w)
    requires Gain(SeqRate(f, groups[c]), SeqRate(f, groups[c - 1])) > 0
    requires GroupDeps(d, groups[c]) * Elems(groups[c - 1]) != {}
    ensures Node(groups, c + 1) < |es| && Node(groups, c) < |es| && es[Node(groups, c + 1)].firstTx < |es|
    ensures State(f, d, Merged(es, Node(groups, c + 1), Node(groups, c)), MergeAt(groups, c), done, rest)
    ensures Node(MergeAt(groups, c), c) == Node(groups, c + 1) && Node(MergeAt(groups, c), c + 1) == Node(groups, c + 2)
    ensures |MergeAt(groups, c)| == |groups| - 1 && Shaping(f, d, MergeAt(groups, c), c - 1, u, t, w)
  {
    hide NoWorse, Flatten, Merged, Node, Gain, SeqRate, Shaping, GroupDeps, Elems;
    ShapeMerge(f, d, groups, c, u, t, w);
    MergeRep(f, d, es, groups, c);
    MergeKeeps(f, d, groups, c);
    assert Tight(f, groups[c]);
    MergeNode(groups, c, c);
    MergeNode(groups, c, c + 1);
  }

  lemma SwapStep(f: seq<FeeFrac>, d: seq<set<nat>>, es: seq<TxEntry>, groups: seq<seq<nat>>, c: nat, done: seq<nat>, rest: seq<nat>,
                 u: set<nat>, t: nat, w: seq<nat>)
    requires State(f, d, es, groups, done, rest) && 0 < c < |groups| && Shaping(f, d, groups, c, u, t, w)
    requires Gain(SeqRate(f, groups[c]), SeqRate(f, groups[c - 1])) > 0
    requires GroupDeps(d, groups[c]) * Elems(groups[c - 1]) == {}
    ensures Node(groups, c + 2) < |es| && Node(groups, c + 1) < |es| && Node(groups, c) < |es|
    ensures State(f, d, Swapped(es, Node(groups, c + 2), Node(groups, c + 1), Node(groups, c)), SwapAt(groups, c), done, rest)
    ensures Node(SwapAt(groups, c), c) == Node(groups, c + 1) && Node(SwapAt(groups, c), c + 1) == Node(groups, c)
    ensures |SwapAt(groups, c)| == |groups| && Shaping(f, d, SwapAt(groups, c), c - 1, u, t, w)
  {
    hide NoWorse, Flatten, Swapped, Node, Gain, SeqRate, Rep, Shaping;
    SwapRep(f, d, es, groups, c);
    NoOverlap(GroupDeps(d, groups[c]), Elems(groups[c - 1]));
    SwapKeeps(f, d, groups, c, rest);
    ShapeSwap(f, d, groups, c, u, t, w);
    NoWorseTrans(f, Flatten(SwapAt(groups, c)) + rest, Flatten(groups) + rest, done + rest);
    SwapNode(groups, c, c);
    SwapNode(groups, c, c + 1);
  }

  lemma NoOverlap(a: set<nat>, b: set<nat>)
    requires a * b == {}
    ensures a !! b
  {
    assert forall x :: x in a && x in b ==> x in a * b;
  }

  /** What holds after i transactions of the order m. */
  ghost predicate PassState(f: seq<FeeFrac>, d: seq<set<nat>>, es: seq<TxEntry>, groups: seq<seq<nat>>, m: seq<nat>, i: nat)
    requires i <= |m|
  {
    && State(f, d, es, groups, m[..i], m[i..]) && MakesUp(f, d, Flatten(groups), m, i)
    && (i == 0 ==> groups == [])
    && (i > 0 ==> Shaped(f, d, groups, Elems(m), m[0], m[1..i]))
  }

  lemma PassStart(f: seq<FeeFrac>, d: seq<set<nat>>, es: seq<TxEntry>, m: seq<nat>)
    requires es != [] && es[SENTINEL].feerate == EMPTY && es[SENTINEL].prevGroup == SENTINEL
    ensures PassState(f, d, es, [], m, 0)
  {
    NoWorseRefl(f, [] + m);
    assert m[..0] == [] && m[0..] == m;
  }

  lemma StateAppend(f: seq<FeeFrac>, d: seq<set<nat>>, es: seq<TxEntry>, groups: seq<seq<nat>>, m: seq<nat>, i: nat, e: TxEntry)
    requires i < |m| && PassState(f, d, es, groups, m, i) && m[i] + 1 < |es|
    requires Distinct(m) && DepOrder(d, m) && Positive(f, Elems(m))
    requires e.prevTx == NO_PREV_TX && e.firstTx == m[i] + 1 && e.group == {m[i]} && e.deps == DepsOf(d, m[i]) && e.feerate == TxRate(f, m[i])
    ensures State(f, d, Appended(es, m[i], e), groups + [[m[i]]], Flatten(groups) + [m[i]], m[i + 1..])
    ensures Node(groups + [[m[i]]], |groups| + 1) == m[i] + 1
    ensures Shaping(f, d, groups + [[m[i]]], |groups|, Elems(m), m[0], m[1..i + 1])
  {
    hide NoWorse, Rep, Tight, Appended, MakesUp, Shaped, Shaping, Flatten, DepOrder, Positive, Node;
    var x, fl := m[i], Flatten(groups);
    NextIsNew(m, i);
    assert Positive(f, {x}) by { NextPositive(f, m, i); }
    AppendRep(f, d, es, groups, x, e);
    NextDepOrder(d, m, i, fl);
    AppendKeeps(f, d, groups, x);
    NoWorseRefl(f, fl + [x] + m[i + 1..]);
    AppendShape(f, d, groups, m, i);
    LastIsNew(groups, x);
  }

  lemma LastIsNew(groups: seq<seq<nat>>, x: nat)
    ensures Node(groups + [[x]], |groups| + 1) == x + 1
  {}

  lemma NextIsNew(m: seq<nat>, i: nat)
    requires i < |m| && Distinct(m)
    ensures m[i] !in Elems(m[..i]) && m[i] in Elems(m)
  {}

  lemma NextPositive(f: seq<FeeFrac>, m: seq<nat>, i: nat)
    requires i < |m| && Positive(f, Elems(m))
    ensures Positive(f, {m[i]})
  {
    assert m[i] in Elems(m);
  }

  lemma NextDepOrder(d: seq<set<nat>>, m: seq<nat>, i: nat, l: seq<nat>)
    requires i < |m| && DepOrder(d, m) && DepOrder(d, l) && Elems(l) == Elems(m[..i])
    ensures DepOrder(d, l + [m[i]])
  {
    forall y | y in l ensures m[i] !in DepsOf(d, y) {
      assert y in Elems(l);
      var j :| 0 <= j < i && m[j] == y;
    }
    AppendDepOrder(d, l, m[i]);
  }

  lemma AppendShape(f: seq<FeeFrac>, d: seq<set<nat>>, groups: seq<seq<nat>>, m: seq<nat>, i: nat)
    requires i < |m| && GroupsOk(f, d, groups) && m[i] !in Elems(Flatten(groups))
    requires (i == 0 ==> groups == []) && (i > 0 ==> Shaped(f, d, groups, Elems(m), m[0], m[1..i]))
    ensures Shaping(f, d, groups + [[m[i]]], |groups|, Elems(m), m[0], m[1..i + 1])
  {
    hide GroupsOk, Shaped, Shaping, Flatten;
    var x := m[i];
    assert x in Elems(m);
    if i == 0 {
      ShapeFirst(f, d, Elems(m), x);
      assert m[1..1] == [];
    } else {
      ShapeAppend(f, d, groups, Elems(m), m[0], m[1..i], x);
      assert m[1..i + 1] == m[1..i] + [x];
    }
  }

  /** One more transaction has settled. */
  lemma PassMore(f: seq<FeeFrac>, d: seq<set<nat>>, es: seq<TxEntry>, groups: seq<seq<nat>>, m: seq<nat>, i: nat, es': seq<TxEntry>, groups': seq<seq<nat>>)
    requires i < |m| && PassState(f, d, es, groups, m, i) && Distinct(m)
    requires State(f, d, es', groups', Flatten(groups) + [m[i]], m[i + 1..]) && Shaped(f, d, groups', Elems(m), m[0], m[1..i + 1])
    ensures PassState(f, d, es', groups', m, i + 1)
  {
    hide NoWorse, Rep, GroupsOk, MakesUp, Settled, Aside, Flatten;
    var l, l', x := Flatten(groups), Flatten(groups'), m[i];
    assert m[..i + 1] == m[..i] + [x];
    ElemsConcat(m[..i], [x]);
    ElemsConcat(l, [x]);
    assert l + [x] + m[i + 1..] == l + m[i..];
    assert m[..i] + m[i..] == m[..i + 1] + m[i + 1..];
    NoWorseTrans(f, l' + m[i + 1..], l + m[i..], m[..i + 1] + m[i + 1..]);
    FirstMoved(f, d, groups', Elems(m), m[0], m[1..i + 1]);
    MakesUpMore(f, d, l, l', m, i);
  }

  lemma FirstMoved(f: seq<FeeFrac>, d: seq<set<nat>>, groups: seq<seq<nat>>, u: set<nat>, t: nat, w: seq<nat>)
    requires GroupsOk(f, d, groups) && Shaped(f, d, groups, u, t, w)
    ensures SeqRate(f, Flatten(groups)) == SeqRate(f, w + [t])
    ensures Independent(d, t, w) ==> NoWorse(f, Flatten(groups), w + [t])
  {
    hide NoWorse, Flatten, Aside, Sorted, AllJoined, TreeDeps, AllBest, SeqRate, Independent, DepOrder, Tight;
    ElemsConcat(w, [t]);
    assert Elems([t]) == {t};
    SameRate(f, Flatten(groups), w + [t]);
    if Independent(d, t, w) { MovedHere(f, d, groups, t, w); }
  }

  lemma AppendDepOrder(d: seq<set<nat>>, l: seq<nat>, x: nat)
    requires DepOrder(d, l) && forall y :: y in l ==> x !in DepsOf(d, y)
    ensures DepOrder(d, l + [x])
  {
    forall i, j | 0 <= i < j < |l + [x]| ensures (l + [x])[j] !in DepsOf(d, (l + [x])[i]) {
      if j == |l| { assert l[i] in l; }
    }
  }

  /** Runs one pass over the order m and leaves the resulting groups in the list. */
  method BuildGroups(g: Graph, rev: bool, linearization: array<nat>, entries: array<TxEntry>, ghost m: seq<nat>)
    returns (ghost groups: seq<seq<nat>>)
    requires entries.Length == |g.entries| + 1 && entries[SENTINEL].feerate == EMPTY
    requires m == if rev then Reverse(linearization[..]) else linearization[..]
    requires Distinct(m) && DepOrder(Deps(g, rev), m) && Positive(PassRates(g, rev), Elems(m))
    modifies entries
    ensures PassState(PassRates(g, rev), Deps(g, rev), entries[..], groups, m, |m|)
  {
    hide State, PassState, Distinct, DepOrder, Positive, Appended, Reverse, Shaping, Shaped, Flatten, Node;
    var f, d := PassRates(g, rev), Deps(g, rev);
    entries[SENTINEL] := entries[SENTINEL].(prevGroup := SENTINEL);
    groups := [];
    var n := linearization.Length;
    ReverseAt(linearization[..]);
    PassStart(f, d, entries[..], m);
    for i := 0 to n
      invariant |m| == n && PassState(f, d, entries[..], groups, m, i)
    {
      var idx := linearization[if rev then n - 1 - i else i];
      assert idx == m[i];
      InGraph(f, g, rev, m, i);
      var e := TxEntry(NO_PREV_TX, idx + 1, SENTINEL, {idx}, d[idx], f[idx]);
      ghost var before, es := groups, entries[..];
      StateAppend(f, d, es, groups, m, i, e);
      AppendGroup(entries, idx, e);
      groups := Settle(f, d, entries, idx + 1, groups + [[idx]], Flatten(groups) + [idx], m[i + 1..], Elems(m), m[0], m[1..i + 1]);
      PassMore(f, d, es, before, m, i, entries[..], groups);
    }
  }

  lemma InGraph(f: seq<FeeFrac>, g: Graph, rev: bool, m: seq<nat>, i: nat)
    requires f == PassRates(g, rev) && Positive(f, Elems(m)) && i < |m|
    ensures m[i] < |g.entries| && |f| == |g.entries|
    ensures DepsOf(Deps(g, rev), m[i]) == Deps(g, rev)[m[i]] && TxRate(f, m[i]) == f[m[i]]
  {
    assert m[i] in Elems(m);
  }

  // ---------------------------------------------------------------- writing the groups back

  /**
   * Follows the links from the last group to the first, and in each group from its tail to its first
   * transaction, writing from the back in forward passes and from the front in backward ones.
   */
  method WriteBack(rev: bool, linearization: array<nat>, entries: array<TxEntry>, ghost f: seq<FeeFrac>, ghost d: seq<set<nat>>, ghost groups: seq<seq<nat>>)
    requires Rep(f, d, entries[..], groups) && |Flatten(groups)| == linearization.Length
    modifies linearization
    ensures linearization[..] == if rev then Reverse(Flatten(groups)) else Flatten(groups)
  {
    hide Rep, GroupRep, Reverse, Flatten;
    var n := linearization.Length;
    ghost var all := Flatten(groups);
    ghost var k: nat := |groups|;
    LastGroup(f, d, entries[..], groups);
    var curGroup := entries[SENTINEL].prevGroup;
    var done := 0;
    PrefixLength(groups, k);
    assert groups[..k] == groups;
    while curGroup != SENTINEL
      invariant k <= |groups| && curGroup == Node(groups, k) && Rep(f, d, entries[..], groups)
      invariant done + |Flatten(groups[..k])| == n
      invariant Written(rev, linearization[..], all, done)
      decreases k
    {
      PrevGroup(f, d, entries[..], groups, k);
      ghost var gp := groups[k - 1];
      var curTx := curGroup;
      ghost var j: nat := |gp| - 1;
      PrefixStep(groups, k);
      while true
        invariant 0 <= j < |gp| && curTx == gp[j] + 1
        invariant done + |Flatten(groups[..k - 1])| + j + 1 == n
        invariant Written(rev, linearization[..], all, done)
        decreases j
      {
        GroupElement(groups, k, j);
        ghost var before := linearization[..];
        if rev {
          linearization[done] := curTx - 1;
        } else {
          linearization[n - (done + 1)] := curTx - 1;
        }
        WriteOne(rev, before, linearization[..], all, done);
        done := done + 1;
        ChainStep(f, d, entries[..], groups, k - 1, j);
        curTx := entries[curTx].prevTx;
        if curTx == NO_PREV_TX { break; }
        j := j - 1;
      }
      curGroup := entries[curGroup].prevGroup;
      k := k - 1;
    }
    AllWritten(f, d, entries[..], groups, k);
    WrittenAll(rev, linearization[..], all);
  }

  /** The last `done` transactions of all have been written, to the back or reversed to the front. */
  ghost predicate Written(rev: bool, lin: seq<nat>, all: seq<nat>, done: nat) {
    && |lin| == |all| && done <= |all|
    && (rev ==> forall i :: 0 <= i < done ==> lin[i] == all[|all| - 1 - i])
    && (!rev ==> forall i :: |all| - done <= i < |all| ==> lin[i] == all[i])
  }

  lemma WriteOne(rev: bool, before: seq<nat>, lin: seq<nat>, all: seq<nat>, done: nat)
    requires Written(rev, before, all, done) && done < |all| && |lin| == |before|
    requires lin == before[(if rev then done else |all| - 1 - done) := all[|all| - 1 - done]]
    ensures Written(rev, lin, all, done + 1)
  {}

  lemma WrittenAll(rev: bool, lin: seq<nat>, all: seq<nat>)
    requires Written(rev, lin, all, |all|)
    ensures lin == if rev then Reverse(all) else all
  {
    ReverseAt(all);
  }

  lemma LastGroup(f: seq<FeeFrac>, d: seq<set<nat>>, es: seq<TxEntry>, groups: seq<seq<nat>>)
    requires Rep(f, d, es, groups)
    ensures es != [] && es[SENTINEL].prevGroup == Node(groups, |groups|)
  {
    assert Node(groups, |groups| + 1) == SENTINEL;
  }

  lemma PrevGroup(f: seq<FeeFrac>, d: seq<set<nat>>, es: seq<TxEntry>, groups: seq<seq<nat>>, k: nat)
    requires Rep(f, d, es, groups) && k <= |groups| && Node(groups, k) != SENTINEL
    ensures k > 0 && groups[k - 1] != [] && Node(groups, k) < |es| && Node(groups, k) == groups[k - 1][|groups[k - 1]| - 1] + 1
    ensures es[Node(groups, k)].prevGroup == Node(groups, k - 1)
  {
    assert GroupRep(f, d, es, groups[k - 1]);
  }

  lemma ChainStep(f: seq<FeeFrac>, d: seq<set<nat>>, es: seq<TxEntry>, groups: seq<seq<nat>>, k: nat, j: nat)
    requires Rep(f, d, es, groups) && k < |groups| && j < |groups[k]|
    ensures groups[k][j] + 1 < |es|
    ensures es[groups[k][j] + 1].prevTx == if j == 0 then NO_PREV_TX else groups[k][j - 1] + 1
  {
    assert GroupRep(f, d, es, groups[k]);
  }

  lemma PrefixLength(groups: seq<seq<nat>>, k: nat)
    requires k == |groups|
    ensures Flatten(groups[..k]) == Flatten(groups) && Written(true, [], [], 0)
  {
    assert groups[..k] == groups;
  }

  lemma PrefixStep(groups: seq<seq<nat>>, k: nat)
    requires 0 < k <= |groups|
    ensures Flatten(groups[..k]) == Flatten(groups[..k - 1]) + groups[k - 1]
  {
    assert groups[..k] == groups[..k - 1] + [groups[k - 1]];
    FlattenConcat(groups[..k - 1], [groups[k - 1]]);
    FlattenCons(groups[k - 1], []);
    assert [groups[k - 1]] + [] == [groups[k - 1]];
  }

  lemma GroupElement(groups: seq<seq<nat>>, k: nat, j: nat)
    requires 0 < k <= |groups| && j < |groups[k - 1]|
    ensures |Flatten(groups[..k - 1])| + j < |Flatten(groups)|
    ensures Flatten(groups)[|Flatten(groups[..k - 1])| + j] == groups[k - 1][j]
  {
    hide Flatten;
    assert groups == groups[..k] + groups[k..];
    FlattenConcat(groups[..k], groups[k..]);
    PrefixStep(groups, k);
  }

  lemma AllWritten(f: seq<FeeFrac>, d: seq<set<nat>>, es: seq<TxEntry>, groups: seq<seq<nat>>, k: nat)
    requires Rep(f, d, es, groups) && k <= |groups| && Node(groups, k) == SENTINEL
    ensures k == 0 && Flatten(groups[..k]) == []
  {
    if k > 0 { TailMember(f, d, es, groups[k - 1]); }
  }

  // ---------------------------------------------------------------- PostLinearize

  /**
   * One pass: the linearization stays one and becomes nowhere worse. Its chunks are then connected. A forward pass
   * finds the best linearization if no transaction has two children, a backward pass if none has two parents; and a
   * backward pass makes up for one transaction having been moved to the end.
   */
  method Pass(g: Graph, rev: bool, linearization: array<nat>, entries: array<TxEntry>)
    requires Cluster(g) && Linearization(g, linearization[..])
    requires entries.Length == |g.entries| + 1 && entries[SENTINEL].feerate == EMPTY
    modifies linearization, entries
    ensures Linearization(g, linearization[..]) && NoWorse(g.Rates(), linearization[..], old(linearization[..]))
    ensures ConnectedChunks(g, linearization[..])
    ensures (if rev then OneParent(g) else OneChild(g)) ==> BestLinearization(g, linearization[..])
    ensures rev ==> HarmlessMove(g, old(linearization[..]), linearization[..])
    ensures entries[SENTINEL].feerate == EMPTY
  {
    hide Cluster, Linearization, Reverse, NoWorse, DepOrder, Distinct, Positive, Rep, Elems, Flatten, PassState,
         ConnectedChunks, BestLinearization, HarmlessMove, OneParent, OneChild, GroupsOk;
    ghost var l := linearization[..];
    ghost var m := if rev then Reverse(l) else l;
    ToPass(g, rev, l);
    ghost var groups := BuildGroups(g, rev, linearization, entries, m);
    ghost var f, d := PassRates(g, rev), Deps(g, rev);
    ghost var out := Flatten(groups);
    assert linearization[..] == l;
    PassDone(f, d, entries[..], groups, m);
    SentinelStays(f, d, entries[..], groups);
    SameLength(out, m);
    ReverseAt(l);
    WriteBack(rev, linearization, entries, f, d, groups);
    PassMeans(g, rev, l, groups);
  }

  lemma PassDone(f: seq<FeeFrac>, d: seq<set<nat>>, es: seq<TxEntry>, groups: seq<seq<nat>>, m: seq<nat>)
    requires PassState(f, d, es, groups, m, |m|)
    ensures Rep(f, d, es, groups) && GroupsOk(f, d, groups) && Elems(Flatten(groups)) == Elems(m) && NoWorse(f, Flatten(groups), m)
    ensures Distinct(Flatten(groups)) && DepOrder(d, Flatten(groups))
    ensures Settled(f, d, groups, Elems(m)) && MakesUp(f, d, Flatten(groups), m, |m|)
  {
    hide NoWorse, Rep, Flatten, MakesUp, Tight, DepOrder, Distinct;
    assert m[..|m|] == m && m[|m|..] == [] && m + [] == m && Flatten(groups) + [] == Flatten(groups);
  }

  lemma PassMeans(g: Graph, rev: bool, l: seq<nat>, groups: seq<seq<nat>>)
    requires Cluster(g) && Linearization(g, l) && |Reverse(l)| == |l|
    requires GroupsOk(PassRates(g, rev), Deps(g, rev), groups) && Elems(Flatten(groups)) == g.used
    requires Distinct(Flatten(groups)) && DepOrder(Deps(g, rev), Flatten(groups))
    requires Settled(PassRates(g, rev), Deps(g, rev), groups, g.used)
    requires var m := if rev then Reverse(l) else l;
             NoWorse(PassRates(g, rev), Flatten(groups), m) && MakesUp(PassRates(g, rev), Deps(g, rev), Flatten(groups), m, |m|)
    ensures var res := if rev then Reverse(Flatten(groups)) else Flatten(groups);
            && Linearization(g, res) && NoWorse(g.Rates(), res, l) && ConnectedChunks(g, res)
            && ((if rev then OneParent(g) else OneChild(g)) ==> BestLinearization(g, res))
            && (rev ==> HarmlessMove(g, l, res))
  {
    hide WellFormed, Acyclic, Positive, Linearization, Reverse, NoWorse, DepOrder, Distinct, Elems, Flatten, ConnectedChunks, BestLinearization,
         HarmlessMove, OneParent, OneChild, GroupsOk, MakesUp, TreeDeps, AllBest, AllJoined, Sorted;
    FromPass(g, rev, l, Flatten(groups));
    GroupsAreChunks(g, rev, groups);
    if if rev then OneParent(g) else OneChild(g) { TreesAreSolved(g, rev, groups); }
    if rev { MovesAreHarmless(g, l, groups); }
  }

  lemma SentinelStays(f: seq<FeeFrac>, d: seq<set<nat>>, es: seq<TxEntry>, groups: seq<seq<nat>>)
    requires Rep(f, d, es, groups)
    ensures es != [] && es[SENTINEL].feerate == EMPTY
  {}

  lemma SameLength(a: seq<nat>, b: seq<nat>)
    requires Distinct(a) && Distinct(b) && Elems(a) == Elems(b)
    ensures |a| == |b|
  {
    DistinctSize(a);
    DistinctSize(b);
  }

  /**
   * Improves a linearization in place: a backward pass, then a forward pass. The result is nowhere worse, has connected
   * chunks, is the best linearization of a tree-shaped cluster, and is nowhere worse than the linearization before one
   * transaction was moved to the end.
   */
  method PostLinearize(g: Graph, linearization: array<nat>)
    requires Cluster(g) && Linearization(g, linearization[..])
    modifies linearization
    ensures Linearization(g, linearization[..])
    ensures NoWorse(g.Rates(), linearization[..], old(linearization[..]))
    ensures ConnectedChunks(g, linearization[..])
    ensures OneParent(g) || OneChild(g) ==> BestLinearization(g, linearization[..])
    ensures HarmlessMove(g, old(linearization[..]), linearization[..])
  {
    hide Cluster, Linearization, NoWorse, ConnectedChunks, BestLinearization, HarmlessMove, OneParent, OneChild;
    ghost var l := linearization[..];
    var entries := new TxEntry[|g.entries| + 1](_ => TxEntry(0, 0, 0, {}, {}, EMPTY));
    NoWorseRefl(g.Rates(), l);
    for pass := 0 to 2
      invariant Linearization(g, linearization[..]) && NoWorse(g.Rates(), linearization[..], l)
      invariant entries.Length == |g.entries| + 1 && entries[SENTINEL].feerate == EMPTY
      invariant pass == 0 ==> linearization[..] == l
      invariant pass > 0 ==> ConnectedChunks(g, linearization[..]) && HarmlessMove(g, l, linearization[..])
      invariant OneParent(g) && pass > 0 ==> BestLinearization(g, linearization[..])
      invariant OneChild(g) && pass > 1 ==> BestLinearization(g, linearization[..])
    {
      ghost var before := linearization[..];
      Pass(g, pass % 2 == 0, linearization, entries);
      StillGood(g, l, before, linearization[..]);
      NoWorseTrans(g.Rates(), linearization[..], before, l);
    }
  }

  /** What an earlier pass has achieved is not lost. */
  lemma StillGood(g: Graph, l: seq<nat>, before: seq<nat>, res: seq<nat>)
    requires NoWorse(g.Rates(), res, before)
    ensures BestLinearization(g, before) ==> BestLinearization(g, res)
    ensures HarmlessMove(g, l, before) ==> HarmlessMove(g, l, res)
  {
    hide NoWorse, Linearization, MovedBack;
    forall lin | NoWorse(g.Rates(), before, lin) ensures NoWorse(g.Rates(), res, lin) { NoWorseTrans(g.Rates(), res, before, lin); }
  }
}
