// Feerate sums, chunkings and feerate diagrams of linearizations.
//
// A linearization is a sequence of transaction indices. `f` gives the fee and size of each index.
// "Nowhere below in the feerate diagram" is stated twice: as `NoWorse`, which says that for every
// feerate line the new order has a prefix lying at least as far above it, and as the pointwise order
// of the piecewise linear function `Diagram`; DiagramNowhereBelow derives the second from the first.
module Diagrams {
  import opened Sets
  import opened FeeFracs

  // ---------------------------------------------------------------- sums

  function TxRate(f: seq<FeeFrac>, i: nat): FeeFrac {
    if i < |f| then f[i] else EMPTY
  }

  /** Total fee and size of a sequence of transactions. */
  function SeqRate(f: seq<FeeFrac>, l: seq<nat>): FeeFrac {
    if l == [] then EMPTY else TxRate(f, l[0]).Plus(SeqRate(f, l[1..]))
  }

  /** Total fee and size of the members of s below n. */
  function RateUpTo(f: seq<FeeFrac>, s: set<nat>, n: nat): FeeFrac {
    if n == 0 then EMPTY
    else if n - 1 in s then RateUpTo(f, s, n - 1).Plus(TxRate(f, n - 1))
    else RateUpTo(f, s, n - 1)
  }

  /** Total fee and size of a set of transactions. */
  function SetRate(f: seq<FeeFrac>, s: set<nat>): FeeFrac {
    RateUpTo(f, s, |f|)
  }

  /** Every listed transaction exists and has a positive size. */
  ghost predicate Positive(f: seq<FeeFrac>, s: set<nat>) {
    forall x :: x in s ==> x < |f| && f[x].size > 0
  }

  lemma ElemsConcat(a: seq<nat>, b: seq<nat>)
    ensures Elems(a + b) == Elems(a) + Elems(b)
  {}

  lemma {:induction false} SeqRateConcat(f: seq<FeeFrac>, a: seq<nat>, b: seq<nat>)
    ensures SeqRate(f, a + b) == SeqRate(f, a).Plus(SeqRate(f, b))
  {
    if a == [] {
      assert a + b == b;
    } else {
      assert (a + b)[1..] == a[1..] + b;
      SeqRateConcat(f, a[1..], b);
    }
  }

  lemma {:induction false} RateUpToUnion(f: seq<FeeFrac>, a: set<nat>, b: set<nat>, n: nat)
    requires a !! b
    ensures RateUpTo(f, a + b, n) == RateUpTo(f, a, n).Plus(RateUpTo(f, b, n))
  {
    if n == 0 {
      assert RateUpTo(f, a, 0) == RateUpTo(f, b, 0) == RateUpTo(f, a + b, 0) == EMPTY;
    } else {
      RateUpToUnion(f, a, b, n - 1);
    }
  }

  lemma SetRateUnion(f: seq<FeeFrac>, a: set<nat>, b: set<nat>)
    requires a !! b
    ensures SetRate(f, a + b) == SetRate(f, a).Plus(SetRate(f, b))
  {
    RateUpToUnion(f, a, b, |f|);
  }

  /** A set splits into the part inside p and the part outside it. */
  lemma SetRateSplit(f: seq<FeeFrac>, s: set<nat>, p: set<nat>)
    ensures SetRate(f, s) == SetRate(f, s * p).Plus(SetRate(f, s - p))
  {
    assert s == s * p + (s - p);
    SetRateUnion(f, s * p, s - p);
  }

  lemma {:induction false} RateUpToSingleton(f: seq<FeeFrac>, x: nat, n: nat)
    ensures RateUpTo(f, {}, n) == EMPTY
    ensures RateUpTo(f, {x}, n) == if x < n then TxRate(f, x) else EMPTY
  {
    if n > 0 { RateUpToSingleton(f, x, n - 1); }
  }

  lemma SetRateSingleton(f: seq<FeeFrac>, x: nat)
    ensures SetRate(f, {}) == EMPTY
    ensures SetRate(f, {x}) == TxRate(f, x)
  {
    RateUpToSingleton(f, x, |f|);
  }

  lemma {:induction false} RateUpToPositive(f: seq<FeeFrac>, s: set<nat>, n: nat)
    requires Positive(f, s)
    ensures RateUpTo(f, s, n).size >= 0
    ensures (exists x :: x in s && x < n) ==> RateUpTo(f, s, n).size > 0
  {
    if n > 0 { RateUpToPositive(f, s, n - 1); }
  }

  lemma SetRatePositive(f: seq<FeeFrac>, s: set<nat>)
    requires Positive(f, s)
    ensures s == {} <==> SetRate(f, s).size == 0
    ensures s != {} ==> SetRate(f, s).size > 0
  {
    RateUpToPositive(f, s, |f|);
    if s == {} { SetRateSingleton(f, 0); } else { var x :| x in s; assert x < |f|; }
  }

  lemma {:induction false} SeqRateSet(f: seq<FeeFrac>, l: seq<nat>)
    requires Distinct(l)
    ensures SeqRate(f, l) == SetRate(f, Elems(l))
  {
    if l == [] {
      SetRateSingleton(f, 0);
      assert Elems(l) == {};
    } else {
      SeqRateSet(f, l[1..]);
      SetRateSingleton(f, l[0]);
      assert Elems(l) == {l[0]} + Elems(l[1..]);
      SetRateUnion(f, {l[0]}, Elems(l[1..]));
    }
  }

  lemma {:induction false} SeqRatePositive(f: seq<FeeFrac>, l: seq<nat>)
    requires Positive(f, Elems(l))
    ensures SeqRate(f, l).size >= 0
    ensures l != [] ==> SeqRate(f, l).size > 0
  {
    if l != [] {
      assert l[0] in Elems(l);
      assert Elems(l[1..]) <= Elems(l);
      SeqRatePositive(f, l[1..]);
    }
  }

  // ---------------------------------------------------------------- comparing linearizations

  /** How far the first k transactions of l lie above the line r. */
  function PrefixGain(f: seq<FeeFrac>, l: seq<nat>, k: nat, r: FeeFrac): int
    requires k <= |l|
  {
    Gain(SeqRate(f, l[..k]), r)
  }

  ghost predicate Reaches(f: seq<FeeFrac>, l: seq<nat>, r: FeeFrac, v: int) {
    exists k: nat :: k <= |l| && PrefixGain(f, l, k, r) >= v
  }

  /** For every line, some prefix of l' lies at least as far above it as any prefix of l. */
  ghost predicate NoWorse(f: seq<FeeFrac>, l': seq<nat>, l: seq<nat>) {
    forall r: FeeFrac, k: nat :: r.size > 0 && k <= |l| ==> Reaches(f, l', r, PrefixGain(f, l, k, r))
  }

  lemma NoWorseRefl(f: seq<FeeFrac>, l: seq<nat>)
    ensures NoWorse(f, l, l)
  {}

  lemma NoWorseTrans(f: seq<FeeFrac>, a: seq<nat>, b: seq<nat>, c: seq<nat>)
    requires NoWorse(f, a, b) && NoWorse(f, b, c)
    ensures NoWorse(f, a, c)
  {
    hide Gain;
    forall r: FeeFrac, k: nat | r.size > 0 && k <= |c|
      ensures Reaches(f, a, r, PrefixGain(f, c, k, r))
    {
      assert Reaches(f, b, r, PrefixGain(f, c, k, r));
      var m: nat :| m <= |b| && PrefixGain(f, b, m, r) >= PrefixGain(f, c, k, r);
      assert Reaches(f, a, r, PrefixGain(f, b, m, r));
    }
  }

  lemma PrefixGainConcat(f: seq<FeeFrac>, a: seq<nat>, b: seq<nat>, k: nat, r: FeeFrac)
    requires k <= |b|
    ensures PrefixGain(f, a + b, |a| + k, r) == Gain(SeqRate(f, a), r) + PrefixGain(f, b, k, r)
  {
    hide Gain;
    assert (a + b)[..|a| + k] == a + b[..k];
    SeqRateConcat(f, a, b[..k]);
    GainPlus(SeqRate(f, a), SeqRate(f, b[..k]), r);
  }

  /** Improving what follows a common prefix improves the whole. */
  lemma NoWorseAfter(f: seq<FeeFrac>, a: seq<nat>, l': seq<nat>, l: seq<nat>)
    requires NoWorse(f, l', l)
    ensures NoWorse(f, a + l', a + l)
  {
    hide Gain;
    forall r: FeeFrac, k: nat | r.size > 0 && k <= |a + l|
      ensures Reaches(f, a + l', r, PrefixGain(f, a + l, k, r))
    {
      if k <= |a| {
        assert (a + l)[..k] == (a + l')[..k];
        assert PrefixGain(f, a + l', k, r) == PrefixGain(f, a + l, k, r);
      } else {
        assert Reaches(f, l', r, PrefixGain(f, l, k - |a|, r));
        var m: nat :| m <= |l'| && PrefixGain(f, l', m, r) >= PrefixGain(f, l, k - |a|, r);
        PrefixGainConcat(f, a, l, k - |a|, r);
        PrefixGainConcat(f, a, l', m, r);
        assert PrefixGain(f, a + l', |a| + m, r) >= PrefixGain(f, a + l, k, r);
      }
    }
  }

  // ---------------------------------------------------------------- chunks

  function Flatten(cs: seq<seq<nat>>): seq<nat> {
    if cs == [] then [] else cs[0] + Flatten(cs[1..])
  }

  lemma {:induction false} FlattenConcat(a: seq<seq<nat>>, b: seq<seq<nat>>)
    ensures Flatten(a + b) == Flatten(a) + Flatten(b)
  {
    if a == [] {
      assert a + b == b;
    } else {
      assert (a + b)[1..] == a[1..] + b;
      FlattenConcat(a[1..], b);
      Assoc(a[0], Flatten(a[1..]), Flatten(b));
    }
  }

  lemma Assoc(a: seq<nat>, b: seq<nat>, c: seq<nat>)
    ensures a + (b + c) == a + b + c
  {}

  /** No proper prefix of c reaches the feerate of c. */
  ghost predicate Tight(f: seq<FeeFrac>, c: seq<nat>) {
    && c != []
    && forall k: nat :: 0 < k < |c| ==> Gain(SeqRate(f, c[..k]), SeqRate(f, c)) < 0
  }

  /** No prefix of c exceeds the feerate of c. */
  ghost predicate Flat(f: seq<FeeFrac>, c: seq<nat>) {
    && c != []
    && forall k: nat :: k <= |c| ==> Gain(SeqRate(f, c[..k]), SeqRate(f, c)) <= 0
  }

  lemma TightFlat(f: seq<FeeFrac>, c: seq<nat>)
    requires Tight(f, c)
    ensures Flat(f, c)
  {
    hide Gain;
    forall k: nat | k <= |c|
      ensures Gain(SeqRate(f, c[..k]), SeqRate(f, c)) <= 0
    {
      GainSelf(SeqRate(f, c));
      if k == 0 { assert SeqRate(f, c[..k]) == EMPTY; }
      if k == |c| { assert c[..k] == c; }
    }
  }

  /** Chunks cover l in order, each is tight, and feerates never increase. */
  ghost predicate IsChunking(f: seq<FeeFrac>, l: seq<nat>, cs: seq<seq<nat>>) {
    && Flatten(cs) == l
    && (forall i :: 0 <= i < |cs| ==> Tight(f, cs[i]))
    && (forall i :: 0 <= i < |cs| - 1 ==> Gain(SeqRate(f, cs[i + 1]), SeqRate(f, cs[i])) <= 0)
  }

  /** Where the prefix of a flat sequence may end relative to a line. */
  lemma FlatPrefix(f: seq<FeeFrac>, c: seq<nat>, k: nat, r: FeeFrac)
    requires Flat(f, c) && Positive(f, Elems(c)) && r.size > 0 && k <= |c|
    ensures Gain(SeqRate(f, c), r) >= 0 ==> PrefixGain(f, c, k, r) <= Gain(SeqRate(f, c), r)
    ensures Gain(SeqRate(f, c), r) <= 0 ==> PrefixGain(f, c, k, r) <= 0
  {
    hide Gain;
    var p, s := c[..k], c[k..];
    assert c == p + s;
    SeqRateConcat(f, p, s);
    var P, S, C := SeqRate(f, p), SeqRate(f, s), SeqRate(f, c);
    GainPlus(P, S, r);
    GainPlus(P, S, C);
    GainSelf(C);
    GainSelf(r);
    assert Elems(p) <= Elems(c) && Elems(s) <= Elems(c);
    SeqRatePositive(f, p);
    SeqRatePositive(f, s);
    SeqRatePositive(f, c);
    if s != [] { GainTransitive(S, C, r); }
    if p != [] { GainSwap(C, P); GainTransitive(C, P, r); }
  }

  /** Joining a sequence with a strictly better one behind it. */
  lemma TightMerge(f: seq<FeeFrac>, b: seq<nat>, a: seq<nat>)
    requires Tight(f, b) && Tight(f, a) && Positive(f, Elems(b + a))
    requires Gain(SeqRate(f, a), SeqRate(f, b)) > 0
    ensures Tight(f, b + a)
  {
    hide Gain;
    MergeRates(f, b, a);
    forall k: nat | 0 < k < |b + a|
      ensures Gain(SeqRate(f, (b + a)[..k]), SeqRate(f, b + a)) < 0
    {
      if k <= |b| { MergedHead(f, b, a, k); } else { MergedTail(f, b, a, k - |b|); }
    }
  }

  lemma MergedHead(f: seq<FeeFrac>, b: seq<nat>, a: seq<nat>, k: nat)
    requires Tight(f, b) && a != [] && Positive(f, Elems(b + a)) && 0 < k <= |b|
    requires Gain(SeqRate(f, a), SeqRate(f, b)) > 0
    ensures Gain(SeqRate(f, (b + a)[..k]), SeqRate(f, b + a)) < 0
  {
    hide Gain;
    var B, C := SeqRate(f, b), SeqRate(f, b + a);
    MergeRates(f, b, a);
    assert (b + a)[..k] == b[..k];
    if k == |b| {
      assert b[..k] == b;
      GainSwap(B, C);
    } else {
      var P := SeqRate(f, b[..k]);
      assert Elems(b[..k]) <= Elems(b + a);
      SeqRatePositive(f, b[..k]);
      GainTransitive(C, B, P);
      GainSwap(P, B);
      GainSwap(C, P);
    }
  }

  lemma MergedTail(f: seq<FeeFrac>, b: seq<nat>, a: seq<nat>, j: nat)
    requires b != [] && Tight(f, a) && Positive(f, Elems(b + a)) && 0 < j < |a|
    requires Gain(SeqRate(f, a), SeqRate(f, b)) > 0
    ensures Gain(SeqRate(f, (b + a)[..|b| + j]), SeqRate(f, b + a)) < 0
  {
    hide Gain, SeqRate, Elems;
    MergeRates(f, b, a);
    ElemsConcat(b, a);
    TightTail(f, a, j, SeqRate(f, b + a));
    var p := b + a[..j];
    assert (b + a)[..|b| + j] == p;
    assert b + a == p + a[j..] by { assert a == a[..j] + a[j..]; Assoc(b, a[..j], a[j..]); }
    PrefixOfSelf(f, p, a[j..]);
  }

  lemma PrefixOfSelf(f: seq<FeeFrac>, p: seq<nat>, q: seq<nat>)
    ensures Gain(SeqRate(f, p), SeqRate(f, p + q)) == -Gain(SeqRate(f, q), SeqRate(f, p + q))
  {
    hide Gain, FeeFrac.Plus;
    SeqRateConcat(f, p, q);
    GainPlus(SeqRate(f, p), SeqRate(f, q), SeqRate(f, p + q));
    GainSelf(SeqRate(f, p + q));
  }

  /** The joined feerate lies strictly between the two. */
  lemma MergeRates(f: seq<FeeFrac>, b: seq<nat>, a: seq<nat>)
    requires a != [] && b != [] && Positive(f, Elems(b + a))
    requires Gain(SeqRate(f, a), SeqRate(f, b)) > 0
    ensures SeqRate(f, b + a) == SeqRate(f, b).Plus(SeqRate(f, a))
    ensures SeqRate(f, a).size > 0 && SeqRate(f, b).size > 0 && SeqRate(f, b + a).size > 0
    ensures Gain(SeqRate(f, a), SeqRate(f, b + a)) > 0
    ensures Gain(SeqRate(f, b + a), SeqRate(f, b)) > 0
  {
    hide Gain;
    var A, B, C := SeqRate(f, a), SeqRate(f, b), SeqRate(f, b + a);
    SeqRateConcat(f, b, a);
    assert Elems(a) <= Elems(b + a) && Elems(b) <= Elems(b + a);
    SeqRatePositive(f, a);
    SeqRatePositive(f, b);
    SeqRatePositive(f, b + a);
    GainPlus(B, A, B);
    GainPlus(B, A, A);
    GainSelf(A);
    GainSelf(B);
    GainSwap(A, B);
    GainSwap(C, A);
  }

  /** A proper suffix of a tight sequence lies above any line the sequence lies above. */
  lemma TightTail(f: seq<FeeFrac>, a: seq<nat>, j: nat, r: FeeFrac)
    requires Tight(f, a) && Positive(f, Elems(a)) && 0 < j < |a| && r.size > 0
    requires Gain(SeqRate(f, a), r) >= 0
    ensures Gain(SeqRate(f, a[j..]), r) > 0
  {
    hide Gain;
    var P, S, A := SeqRate(f, a[..j]), SeqRate(f, a[j..]), SeqRate(f, a);
    assert a == a[..j] + a[j..];
    SeqRateConcat(f, a[..j], a[j..]);
    GainPlus(P, S, A);
    GainSelf(A);
    assert Elems(a[j..]) <= Elems(a);
    SeqRatePositive(f, a[j..]);
    SeqRatePositive(f, a);
    GainTransitive(S, A, r);
  }

  /** How many leading chunks lie on or above the line. */
  function Cut(f: seq<FeeFrac>, cs: seq<seq<nat>>, r: FeeFrac): nat {
    if cs == [] || Gain(SeqRate(f, cs[0]), r) < 0 then 0 else 1 + Cut(f, cs[1..], r)
  }

  lemma {:induction false} CutInRange(f: seq<FeeFrac>, cs: seq<seq<nat>>, r: FeeFrac)
    ensures Cut(f, cs, r) <= |cs|
  {
    hide Gain;
    if cs != [] && Gain(SeqRate(f, cs[0]), r) >= 0 { CutInRange(f, cs[1..], r); }
  }

  lemma TailChunking(f: seq<FeeFrac>, l: seq<nat>, cs: seq<seq<nat>>)
    requires IsChunking(f, l, cs) && cs != [] && Positive(f, Elems(l))
    ensures l == cs[0] + l[|cs[0]|..]
    ensures IsChunking(f, l[|cs[0]|..], cs[1..])
    ensures Elems(cs[0]) <= Elems(l) && Elems(l[|cs[0]|..]) <= Elems(l)
    ensures Flat(f, cs[0])
    ensures SeqRate(f, cs[0]).size > 0
  {
    hide Gain;
    var rest := Flatten(cs[1..]);
    assert l == cs[0] + rest;
    assert l[|cs[0]|..] == rest;
    ElemsConcat(cs[0], rest);
    assert Tight(f, cs[0]);
    TightFlat(f, cs[0]);
    SeqRatePositive(f, cs[0]);
    forall i | 0 <= i < |cs[1..]| - 1
      ensures Gain(SeqRate(f, cs[1..][i + 1]), SeqRate(f, cs[1..][i])) <= 0
    {
      assert Gain(SeqRate(f, cs[i + 1 + 1]), SeqRate(f, cs[i + 1])) <= 0;
    }
  }

  /** If the first chunk is below the line, so is every prefix of the linearization. */
  lemma {:induction false} AllBelow(f: seq<FeeFrac>, l: seq<nat>, cs: seq<seq<nat>>, k: nat, r: FeeFrac)
    requires IsChunking(f, l, cs) && Positive(f, Elems(l)) && k <= |l| && r.size > 0
    requires cs != [] ==> Gain(SeqRate(f, cs[0]), r) <= 0
    ensures PrefixGain(f, l, k, r) <= 0
    decreases |cs|
  {
    hide Gain;
    if cs == [] {
      assert l[..k] == [];
      GainSelf(r);
    } else {
      TailChunking(f, l, cs);
      var c, rest := cs[0], l[|cs[0]|..];
      FlatPrefix(f, c, |c|, r);
      assert c[..|c|] == c;
      if k <= |c| {
        assert l[..k] == c[..k];
        FlatPrefix(f, c, k, r);
      } else {
        if |cs| > 1 { NextChunkBelow(f, l, cs, r); }
        AllBelow(f, rest, cs[1..], k - |c|, r);
        PrefixGainConcat(f, c, rest, k - |c|, r);
      }
    }
  }

  lemma NextChunkBelow(f: seq<FeeFrac>, l: seq<nat>, cs: seq<seq<nat>>, r: FeeFrac)
    requires IsChunking(f, l, cs) && Positive(f, Elems(l)) && |cs| > 1 && r.size > 0
    requires Gain(SeqRate(f, cs[0]), r) <= 0
    ensures Gain(SeqRate(f, cs[1]), r) <= 0
  {
    hide Gain;
    TailChunking(f, l, cs);
    TailChunking(f, l[|cs[0]|..], cs[1..]);
    assert Gain(SeqRate(f, cs[0 + 1]), SeqRate(f, cs[0])) <= 0;
    GainSwap(SeqRate(f, cs[0]), SeqRate(f, cs[1]));
    GainTransitive(SeqRate(f, cs[0]), SeqRate(f, cs[1]), r);
  }

  /** Over all prefixes, the distance above a line is largest at the chunk boundary given by Cut. */
  lemma {:induction false} CutIsMaximal(f: seq<FeeFrac>, l: seq<nat>, cs: seq<seq<nat>>, k: nat, r: FeeFrac)
    requires IsChunking(f, l, cs) && Positive(f, Elems(l)) && k <= |l| && r.size > 0
    ensures Cut(f, cs, r) <= |cs|
    ensures Gain(SeqRate(f, Flatten(cs[..Cut(f, cs, r)])), r) >= 0
    ensures PrefixGain(f, l, k, r) <= Gain(SeqRate(f, Flatten(cs[..Cut(f, cs, r)])), r)
    decreases |cs|
  {
    hide Gain;
    CutInRange(f, cs, r);
    var j := Cut(f, cs, r);
    if j == 0 {
      assert Flatten(cs[..j]) == [];
      GainSelf(r);
      AllBelow(f, l, cs, k, r);
    } else {
      TailChunking(f, l, cs);
      var c, rest := cs[0], l[|cs[0]|..];
      assert cs[..j] == [c] + cs[1..][..j - 1];
      FlattenConcat([c], cs[1..][..j - 1]);
      assert Flatten([c]) == c by { assert Flatten([c][1..]) == []; }
      var top := Flatten(cs[1..][..j - 1]);
      SeqRateConcat(f, c, top);
      GainPlus(SeqRate(f, c), SeqRate(f, top), r);
      CutIsMaximal(f, rest, cs[1..], if k <= |c| then 0 else k - |c|, r);
      if k <= |c| {
        assert l[..k] == c[..k];
        FlatPrefix(f, c, k, r);
      } else {
        PrefixGainConcat(f, c, rest, k - |c|, r);
      }
    }
  }

  // ---------------------------------------------------------------- uniqueness of the chunking

  /** A prefix of a chunked sequence never has a feerate above that of the first chunk. */
  lemma PrefixNotAboveFirst(f: seq<FeeFrac>, l: seq<nat>, cs: seq<seq<nat>>, k: nat)
    requires IsChunking(f, l, cs) && Positive(f, Elems(l)) && cs != [] && k <= |l|
    ensures SeqRate(f, cs[0]).size > 0
    ensures PrefixGain(f, l, k, SeqRate(f, cs[0])) <= 0
  {
    hide Gain;
    TailChunking(f, l, cs);
    GainSelf(SeqRate(f, cs[0]));
    AllBelow(f, l, cs, k, SeqRate(f, cs[0]));
  }

  /** A linearization has exactly one chunking. */
  lemma {:induction false} ChunkingUnique(f: seq<FeeFrac>, l: seq<nat>, cs: seq<seq<nat>>, ds: seq<seq<nat>>)
    requires IsChunking(f, l, cs) && IsChunking(f, l, ds) && Positive(f, Elems(l))
    ensures cs == ds
    decreases |l|
  {
    if l == [] {
      if cs != [] { TailChunking(f, l, cs); }
      if ds != [] { TailChunking(f, l, ds); }
    } else {
      assert cs != [] && ds != [];
      TailChunking(f, l, cs);
      TailChunking(f, l, ds);
      FirstChunkNoLonger(f, l, cs, ds);
      FirstChunkNoLonger(f, l, ds, cs);
      assert cs[0] == l[..|cs[0]|] == l[..|ds[0]|] == ds[0];
      ChunkingUnique(f, l[|cs[0]|..], cs[1..], ds[1..]);
      assert cs == [cs[0]] + cs[1..] && ds == [ds[0]] + ds[1..];
    }
  }

  lemma FirstChunkNoLonger(f: seq<FeeFrac>, l: seq<nat>, cs: seq<seq<nat>>, ds: seq<seq<nat>>)
    requires IsChunking(f, l, cs) && IsChunking(f, l, ds) && Positive(f, Elems(l))
    requires cs != [] && ds != []
    ensures |ds[0]| <= |cs[0]|
  {
    hide Gain;
    TailChunking(f, l, cs);
    TailChunking(f, l, ds);
    if |cs[0]| < |ds[0]| {
      PrefixNotAboveFirst(f, l, cs, |ds[0]|);
      assert l[..|ds[0]|] == ds[0];
      assert ds[0][..|cs[0]|] == cs[0];
      assert Tight(f, ds[0]);
      GainSwap(SeqRate(f, ds[0]), SeqRate(f, cs[0]));
    }
  }

  // ---------------------------------------------------------------- moving a set to the front

  /** The elements of l that are in s, in order. */
  function Keep(l: seq<nat>, s: set<nat>): seq<nat> {
    if l == [] then [] else (if l[0] in s then [l[0]] else []) + Keep(l[1..], s)
  }

  lemma {:induction false} KeepConcat(a: seq<nat>, b: seq<nat>, s: set<nat>)
    ensures Keep(a + b, s) == Keep(a, s) + Keep(b, s)
  {
    if a == [] {
      assert a + b == b;
    } else {
      assert (a + b)[1..] == a[1..] + b;
      KeepConcat(a[1..], b, s);
      var h := if a[0] in s then [a[0]] else [];
      Assoc(h, Keep(a[1..], s), Keep(b, s));
    }
  }

  lemma {:induction false} KeepProps(l: seq<nat>, s: set<nat>)
    ensures Elems(Keep(l, s)) == Elems(l) * s
    ensures Distinct(l) ==> Distinct(Keep(l, s))
    ensures |Keep(l, s)| <= |l|
  {
    if l != [] {
      KeepProps(l[1..], s);
      assert Elems(l) == {l[0]} + Elems(l[1..]);
      var h := if l[0] in s then [l[0]] else [];
      assert Elems(Keep(l, s)) == Elems(h) + Elems(Keep(l[1..], s));
      if Distinct(l) {
        forall i, j | 0 <= i < j < |Keep(l, s)|
          ensures Keep(l, s)[i] != Keep(l, s)[j]
        {
          if l[0] in s && i == 0 {
            assert Keep(l, s)[j] in Elems(Keep(l[1..], s));
          }
        }
      }
    }
  }

  lemma {:induction false} KeepAll(l: seq<nat>, s: set<nat>)
    requires Elems(l) <= s
    ensures Keep(l, s) == l
  {
    if l != [] {
      assert l[0] in Elems(l);
      assert Elems(l[1..]) <= Elems(l);
      KeepAll(l[1..], s);
    }
  }

  lemma {:induction false} KeepNone(l: seq<nat>, s: set<nat>)
    requires Elems(l) !! s
    ensures Keep(l, s) == []
  {
    if l != [] {
      assert l[0] in Elems(l);
      assert Elems(l[1..]) <= Elems(l);
      KeepNone(l[1..], s);
    }
  }

  lemma {:induction false} KeepKeep(l: seq<nat>, s: set<nat>, t: set<nat>)
    ensures Keep(Keep(l, s), t) == Keep(l, s * t)
  {
    if l != [] {
      KeepKeep(l[1..], s, t);
      if l[0] in s {
        var k := Keep(l[1..], s);
        assert Keep(l, s) == [l[0]] + k;
        assert ([l[0]] + k)[1..] == k;
      } else {
        assert Keep(l, s) == Keep(l[1..], s);
      }
    }
  }

  /**
   * The improvement guarantee: let s have a feerate not below the first chunk of l, and let no
   * intersection of s with a prefix of chunks exceed the feerate of s. Then moving s to the front,
   * in any order t, makes the linearization nowhere worse.
   */
  ghost predicate Movable(f: seq<FeeFrac>, cs: seq<seq<nat>>, s: set<nat>) {
    && cs != []
    && Gain(SetRate(f, s), SeqRate(f, cs[0])) >= 0
    && forall j: nat :: j <= |cs| ==> Gain(SetRate(f, s * Elems(Flatten(cs[..j]))), SetRate(f, s)) <= 0
  }

  lemma MoveToFront(f: seq<FeeFrac>, l: seq<nat>, cs: seq<seq<nat>>, s: set<nat>, t: seq<nat>)
    requires IsChunking(f, l, cs) && Distinct(l) && Positive(f, Elems(l))
    requires s != {} && s <= Elems(l) && Distinct(t) && Elems(t) == s
    requires Movable(f, cs, s)
    ensures NoWorse(f, t + Keep(l, Elems(l) - s), l)
  {
    hide Gain;
    forall r: FeeFrac, k: nat | r.size > 0 && k <= |l|
      ensures Reaches(f, t + Keep(l, Elems(l) - s), r, PrefixGain(f, l, k, r))
    {
      MoveToFrontAt(f, l, cs, s, t, r, k);
    }
  }

  lemma MoveToFrontAt(f: seq<FeeFrac>, l: seq<nat>, cs: seq<seq<nat>>, s: set<nat>, t: seq<nat>, r: FeeFrac, k: nat)
    requires IsChunking(f, l, cs) && Distinct(l) && Positive(f, Elems(l))
    requires s != {} && s <= Elems(l) && Distinct(t) && Elems(t) == s
    requires Movable(f, cs, s)
    requires r.size > 0 && k <= |l|
    ensures Reaches(f, t + Keep(l, Elems(l) - s), r, PrefixGain(f, l, k, r))
  {
    hide Gain;
    var l' := t + Keep(l, Elems(l) - s);
    var j := Cut(f, cs, r);
    CutIsMaximal(f, l, cs, k, r);
    if j == 0 {
      assert Flatten(cs[..j]) == [];
      assert l'[..0] == [];
      GainSelf(r);
      assert PrefixGain(f, l', 0, r) >= PrefixGain(f, l, k, r);
    } else {
      var P := Flatten(cs[..j]);
      assert cs == cs[..j] + cs[j..];
      FlattenConcat(cs[..j], cs[j..]);
      var Q := Flatten(cs[j..]);
      assert l == P + Q;
      OutsideGain(f, l, cs, s, j, r);
      KeepConcat(P, Q, Elems(l) - s);
      var p := Keep(P, Elems(l) - s);
      var m := |t| + |p|;
      assert l'[..m] == t + p;
      FrontRate(f, l, P, s, t, p);
      GainPlus(SeqRate(f, P), SetRate(f, s - Elems(P)), r);
      assert PrefixGain(f, l', m, r) >= PrefixGain(f, l, k, r);
    }
  }

  /** The part of s outside the chunks above the line is itself above the line. */
  lemma OutsideGain(f: seq<FeeFrac>, l: seq<nat>, cs: seq<seq<nat>>, s: set<nat>, j: nat, r: FeeFrac)
    requires IsChunking(f, l, cs) && Positive(f, Elems(l)) && s != {} && s <= Elems(l)
    requires Movable(f, cs, s) && r.size > 0 && j <= |cs|
    requires Gain(SeqRate(f, cs[0]), r) >= 0
    ensures Gain(SetRate(f, s - Elems(Flatten(cs[..j]))), r) >= 0
  {
    hide Gain;
    var P := Elems(Flatten(cs[..j]));
    var S, I, O := SetRate(f, s), SetRate(f, s * P), SetRate(f, s - P);
    SetRateSplit(f, s, P);
    GainPlus(I, O, S);
    GainSelf(S);
    TailChunking(f, l, cs);
    SetRatePositive(f, s);
    GainTransitive(S, SeqRate(f, cs[0]), r);
    SetRatePositive(f, s - P);
    if s - P == {} {
      SetRateSingleton(f, 0);
      GainSelf(r);
    } else {
      GainTransitive(O, S, r);
    }
  }

  lemma FrontRate(f: seq<FeeFrac>, l: seq<nat>, P: seq<nat>, s: set<nat>, t: seq<nat>, p: seq<nat>)
    requires Distinct(l) && P <= l && s <= Elems(l) && Distinct(t) && Elems(t) == s
    requires p == Keep(P, Elems(l) - s)
    ensures SeqRate(f, t + p) == SeqRate(f, P).Plus(SetRate(f, s - Elems(P)))
  {
    assert Distinct(P);
    KeepProps(P, Elems(l) - s);
    SeqRateConcat(f, t, p);
    SeqRateSet(f, t);
    SeqRateSet(f, p);
    SeqRateSet(f, P);
    assert Elems(P) <= Elems(l);
    assert Elems(p) == Elems(P) - s;
    SetRateSplit(f, s, Elems(P));
    SetRateSplit(f, Elems(P), s);
    assert s * Elems(P) == Elems(P) * s;
  }

  // ---------------------------------------------------------------- the diagram itself

  ghost predicate PositiveSizes(cs: seq<FeeFrac>) {
    forall i :: 0 <= i < |cs| ==> cs[i].size > 0
  }

  /** The straight line from the origin to the end of a first chunk c, at x. */
  ghost function Segment(c: FeeFrac, x: real): real
    requires c.size > 0
  {
    x * (c.fee as real / c.size as real)
  }

  /**
   * The feerate diagram of a list of chunk feerates: it starts at the origin, passes through the
   * cumulative size and fee after every chunk, and continues horizontally.
   */
  ghost function Diagram(cs: seq<FeeFrac>, x: real): real
    requires PositiveSizes(cs)
  {
    if cs == [] then 0.0
    else if x <= cs[0].size as real then Segment(cs[0], x)
    else cs[0].fee as real + Diagram(cs[1..], x - cs[0].size as real)
  }

  ghost function ChunkRates(f: seq<FeeFrac>, cs: seq<seq<nat>>): (rs: seq<FeeFrac>)
    ensures |rs| == |cs|
  {
    seq(|cs|, i requires 0 <= i < |cs| => SeqRate(f, cs[i]))
  }

  lemma ChunkRatesPositive(f: seq<FeeFrac>, l: seq<nat>, cs: seq<seq<nat>>)
    requires IsChunking(f, l, cs) && Positive(f, Elems(l))
    ensures PositiveSizes(ChunkRates(f, cs))
    ensures cs != [] ==> ChunkRates(f, cs)[1..] == ChunkRates(f, cs[1..])
    decreases |cs|
  {
    if cs != [] {
      TailChunking(f, l, cs);
      ChunkRatesPositive(f, l[|cs[0]|..], cs[1..]);
      var rs := ChunkRates(f, cs);
      assert rs[1..] == ChunkRates(f, cs[1..]);
      forall i | 0 <= i < |rs| ensures rs[i].size > 0 {
        if i > 0 { assert rs[i] == rs[1..][i - 1]; }
      }
    }
  }

  /** How far the point (x, y) lies above the line r: the real counterpart of Gain. */
  ghost function Above(r: FeeFrac, x: real, y: real): real {
    y * r.size as real - r.fee as real * x
  }

  lemma AboveShift(r: FeeFrac, c: FeeFrac, x: real, y: real)
    ensures Above(r, x, c.fee as real + y) == Gain(c, r) as real + Above(r, x - c.size as real, y)
  {
    assert Gain(c, r) as real == c.fee as real * r.size as real - r.fee as real * c.size as real by {
      RealMul(c.fee, r.size);
      RealMul(r.fee, c.size);
    }
    var R, S := r.size as real, r.fee as real;
    assert (c.fee as real + y) * R == c.fee as real * R + y * R;
    assert S * (x - c.size as real) == S * x - S * c.size as real;
  }

  lemma AboveZero(r: FeeFrac)
    ensures Above(r, 0.0, 0.0) == 0.0
  {}

  lemma AboveCancel(r: FeeFrac, x: real, y: real, y': real)
    requires r.size > 0 && Above(r, x, y) <= Above(r, x, y')
    ensures y <= y'
  {
    CancelSize(y, y', r.size as real);
  }

  lemma RealMul(a: int, b: int)
    ensures (a * b) as real == a as real * b as real
  {}

  /** On the segment of a chunk from the origin, a point lies between the ends of the segment. */
  lemma AboveSegment(r: FeeFrac, c: FeeFrac, x: real)
    requires c.size > 0 && 0.0 <= x <= c.size as real
    ensures Gain(c, r) <= 0 ==> Above(r, x, Segment(c, x)) <= 0.0
    ensures Gain(c, r) >= 0 ==> Above(r, x, Segment(c, x)) <= Gain(c, r) as real
    ensures r == c ==> Above(r, x, Segment(c, x)) == 0.0
  {
    var q := x / c.size as real;
    var g := Gain(c, r) as real;
    var y := x * (c.fee as real / c.size as real);
    var C := c.size as real;
    assert q * C == x;
    assert 0.0 <= q <= 1.0 by { DivRange(x, C); }
    assert y == q * c.fee as real by { DivSwap(x, c.fee as real, C); }
    assert Above(r, x, y) == q * g by {
      RealMul(c.fee, r.size);
      RealMul(r.fee, c.size);
      ScaleAbove(q, c.fee as real, r.size as real, r.fee as real, C);
    }
    ScaleBound(q, g);
    if r == c { GainSelf(c); }
  }

  lemma DivRange(x: real, c: real)
    requires 0.0 <= x <= c && c > 0.0
    ensures 0.0 <= x / c <= 1.0
  {
    var q := x / c;
    assert q * c == x;
  }

  lemma DivSwap(x: real, y: real, c: real)
    requires c > 0.0
    ensures x * (y / c) == (x / c) * y
  {
    var a, b := y / c, x / c;
    assert a * c == y && b * c == x;
    assert x * a == (b * c) * a == b * (c * a) == b * y;
  }

  lemma ScaleAbove(q: real, y: real, s: real, p: real, c: real)
    ensures (q * y) * s - p * (q * c) == q * (y * s - p * c)
  {
    assert (q * y) * s == q * (y * s);
    assert p * (q * c) == q * (p * c);
    assert q * (y * s - p * c) == q * (y * s) - q * (p * c);
  }

  lemma ScaleBound(q: real, g: real)
    requires 0.0 <= q <= 1.0
    ensures g <= 0.0 ==> q * g <= 0.0
    ensures g >= 0.0 ==> q * g <= g
  {
    assert g - q * g == (1.0 - q) * g;
  }

  /** The diagram never rises above a line that no prefix of the linearization rises above. */
  lemma {:induction false} DiagramBelow(f: seq<FeeFrac>, l: seq<nat>, cs: seq<seq<nat>>, r: FeeFrac, x: real, v: real)
    requires IsChunking(f, l, cs) && Positive(f, Elems(l)) && r.size > 0
    requires 0.0 <= x <= SeqRate(f, l).size as real
    requires forall k: nat :: k <= |l| ==> PrefixGain(f, l, k, r) as real <= v
    requires PositiveSizes(ChunkRates(f, cs))
    ensures Above(r, x, Diagram(ChunkRates(f, cs), x)) <= v
    decreases |cs|
  {
    hide Gain, Above, Segment;
    assert PrefixGain(f, l, 0, r) as real <= v;
    GainSelf(r);
    if cs == [] {
      assert l == [] && x == 0.0;
      AboveZero(r);
    } else {
      TailChunking(f, l, cs);
      ChunkRatesPositive(f, l, cs);
      var c, rest := cs[0], l[|cs[0]|..];
      var C := SeqRate(f, c);
      assert l[..|c|] == c;
      assert PrefixGain(f, l, |c|, r) == Gain(C, r);
      assert ChunkRates(f, cs)[0] == C;
      if x <= C.size as real {
        AboveSegment(r, C, x);
      } else {
        SeqRateConcat(f, c, rest);
        forall k: nat | k <= |rest|
          ensures PrefixGain(f, rest, k, r) as real <= v - Gain(C, r) as real
        {
          PrefixGainConcat(f, c, rest, k, r);
          assert PrefixGain(f, l, |c| + k, r) as real <= v;
        }
        var x' := x - C.size as real;
        DiagramBelow(f, rest, cs[1..], r, x', v - Gain(C, r) as real);
        AboveShift(r, C, x, Diagram(ChunkRates(f, cs[1..]), x'));
      }
    }
  }

  /** Some chunk's line touches the diagram at x and no prefix of the linearization rises above it further. */
  lemma {:induction false} DiagramTouched(f: seq<FeeFrac>, l: seq<nat>, cs: seq<seq<nat>>, x: real)
    returns (r: FeeFrac)
    requires IsChunking(f, l, cs) && Positive(f, Elems(l)) && cs != []
    requires 0.0 <= x <= SeqRate(f, l).size as real
    requires PositiveSizes(ChunkRates(f, cs))
    ensures r.size > 0 && Gain(SeqRate(f, cs[0]), r) >= 0
    ensures forall k: nat :: k <= |l| ==>
              PrefixGain(f, l, k, r) as real <= Above(r, x, Diagram(ChunkRates(f, cs), x))
    decreases |cs|
  {
    hide Gain, Above, Segment;
    TailChunking(f, l, cs);
    ChunkRatesPositive(f, l, cs);
    var c, rest := cs[0], l[|cs[0]|..];
    var C := SeqRate(f, c);
    GainSelf(C);
    assert ChunkRates(f, cs)[0] == C;
    if x <= C.size as real {
      r := C;
      AboveSegment(r, C, x);
      forall k: nat | k <= |l| ensures PrefixGain(f, l, k, r) as real <= 0.0 {
        PrefixNotAboveFirst(f, l, cs, k);
      }
    } else {
      SeqRateConcat(f, c, rest);
      if cs[1..] == [] { assert false; }
      var x' := x - C.size as real;
      r := DiagramTouched(f, rest, cs[1..], x');
      var y' := Diagram(ChunkRates(f, cs[1..]), x');
      AboveShift(r, C, x, y');
      FirstChunkHighest(f, l, cs, r);
      forall k: nat | k <= |l|
        ensures PrefixGain(f, l, k, r) as real <= Gain(C, r) as real + Above(r, x', y')
      {
        if k <= |c| {
          assert l[..k] == c[..k];
          FlatPrefix(f, c, k, r);
          GainSelf(r);
          assert PrefixGain(f, rest, 0, r) == 0;
        } else {
          PrefixGainConcat(f, c, rest, k - |c|, r);
        }
      }
    }
  }

  lemma FirstChunkHighest(f: seq<FeeFrac>, l: seq<nat>, cs: seq<seq<nat>>, r: FeeFrac)
    requires IsChunking(f, l, cs) && Positive(f, Elems(l)) && |cs| > 1 && r.size > 0
    requires Gain(SeqRate(f, cs[1]), r) >= 0
    ensures Gain(SeqRate(f, cs[0]), r) >= 0
  {
    hide Gain;
    TailChunking(f, l, cs);
    TailChunking(f, l[|cs[0]|..], cs[1..]);
    assert Gain(SeqRate(f, cs[0 + 1]), SeqRate(f, cs[0])) <= 0;
    GainSwap(SeqRate(f, cs[0]), SeqRate(f, cs[1]));
    GainTransitive(SeqRate(f, cs[0]), SeqRate(f, cs[1]), r);
  }

  /** Beyond its last chunk the diagram stays at the total fee. */
  lemma {:induction false} DiagramBeyond(f: seq<FeeFrac>, l: seq<nat>, cs: seq<seq<nat>>, x: real)
    requires IsChunking(f, l, cs) && Positive(f, Elems(l))
    requires x > SeqRate(f, l).size as real
    requires PositiveSizes(ChunkRates(f, cs))
    ensures Diagram(ChunkRates(f, cs), x) == SeqRate(f, l).fee as real
    decreases |cs|
  {
    if cs == [] {
      assert l == [];
    } else {
      TailChunking(f, l, cs);
      ChunkRatesPositive(f, l, cs);
      var c, rest := cs[0], l[|cs[0]|..];
      SeqRateConcat(f, c, rest);
      SeqRatePositive(f, rest);
      DiagramBeyond(f, rest, cs[1..], x - SeqRate(f, c).size as real);
    }
  }

  /**
   * NoWorse is what it says: the feerate diagram of l', computed from its chunk feerates, is at no
   * point below the diagram of l. Both must hold the same transactions.
   */
  lemma DiagramNowhereBelow(f: seq<FeeFrac>, l': seq<nat>, cs': seq<seq<nat>>, l: seq<nat>, cs: seq<seq<nat>>, x: real)
    requires IsChunking(f, l, cs) && IsChunking(f, l', cs')
    requires Distinct(l) && Distinct(l') && Elems(l) == Elems(l') && Positive(f, Elems(l))
    requires NoWorse(f, l', l) && x >= 0.0
    ensures PositiveSizes(ChunkRates(f, cs)) && PositiveSizes(ChunkRates(f, cs'))
    ensures Diagram(ChunkRates(f, cs'), x) >= Diagram(ChunkRates(f, cs), x)
  {
    SeqRateSet(f, l);
    SeqRateSet(f, l');
    ChunkRatesPositive(f, l, cs);
    ChunkRatesPositive(f, l', cs');
    if x > SeqRate(f, l).size as real {
      DiagramBeyond(f, l, cs, x);
      DiagramBeyond(f, l', cs', x);
    } else if cs' == [] {
      EmptyChunking(f, l', cs');
      SeqRatePositive(f, l);
      EmptyChunking(f, l, cs);
    } else {
      InteriorNotBelow(f, l', cs', l, cs, x);
    }
  }

  lemma EmptyChunking(f: seq<FeeFrac>, l: seq<nat>, cs: seq<seq<nat>>)
    requires IsChunking(f, l, cs)
    ensures cs == [] <==> l == []
  {
    if cs != [] { assert Tight(f, cs[0]); }
  }

  lemma InteriorNotBelow(f: seq<FeeFrac>, l': seq<nat>, cs': seq<seq<nat>>, l: seq<nat>, cs: seq<seq<nat>>, x: real)
    requires IsChunking(f, l, cs) && IsChunking(f, l', cs') && cs' != []
    requires Positive(f, Elems(l)) && Positive(f, Elems(l')) && NoWorse(f, l', l)
    requires 0.0 <= x <= SeqRate(f, l).size as real == SeqRate(f, l').size as real
    requires PositiveSizes(ChunkRates(f, cs)) && PositiveSizes(ChunkRates(f, cs'))
    ensures Diagram(ChunkRates(f, cs'), x) >= Diagram(ChunkRates(f, cs), x)
  {
    hide Gain, Above, Segment;
    var r := DiagramTouched(f, l', cs', x);
    var y, y' := Diagram(ChunkRates(f, cs), x), Diagram(ChunkRates(f, cs'), x);
    forall k: nat | k <= |l|
      ensures PrefixGain(f, l, k, r) as real <= Above(r, x, y')
    {
      assert Reaches(f, l', r, PrefixGain(f, l, k, r));
    }
    DiagramBelow(f, l, cs, r, x, Above(r, x, y'));
    AboveCancel(r, x, y, y');
  }

  lemma CancelSize(y: real, y': real, s: real)
    requires s > 0.0 && y * s <= y' * s
    ensures y <= y'
  {}
}
