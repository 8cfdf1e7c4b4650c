// The block index with its skip list, and the active chain as a vector (src/chain.cpp, src/chain.h).
// The plain walk along pprev is the reference for everything else.
module Chains {

  // ---------------------------------------------------------------- skip heights

  /** n & (n - 1): turns the lowest one bit into a zero. */
  function InvertLowestOne(n: nat): (r: nat)
    ensures r <= n && (n > 0 ==> r < n)
  {
    if n == 0 then 0 else if n % 2 == 1 then n - 1 else 2 * InvertLowestOne(n / 2)
  }

  function Pow2(k: nat): nat { if k == 0 then 1 else 2 * Pow2(k - 1) }

  /** The binary representation of n ends with a one and k zeros; that one is cleared. */
  lemma {:induction false} LowestOneCleared(n: nat) returns (q: nat, k: nat)
    requires n > 0
    ensures n == (2 * q + 1) * Pow2(k) && InvertLowestOne(n) == 2 * q * Pow2(k)
  {
    if n % 2 == 1 {
      q, k := n / 2, 0;
    } else {
      var k';
      q, k' := LowestOneCleared(n / 2);
      k := k' + 1;
      assert (2 * q + 1) * Pow2(k) == 2 * ((2 * q + 1) * Pow2(k'));
      assert 2 * q * Pow2(k) == 2 * (2 * q * Pow2(k'));
    }
  }

  function GetSkipHeight(height: int): (r: nat)
    ensures height > 0 ==> r < height
  {
    if height < 2 then 0
    else if height % 2 == 1 then InvertLowestOne(InvertLowestOne(height - 1)) + 1
    else InvertLowestOne(height)
  }

  // ---------------------------------------------------------------- blocks

  class BlockIndex {
    const pprev: BlockIndex?
    const nHeight: nat
    const nTimeMax: nat
    var pskip: BlockIndex?

    /** A block that was connected to its predecessor; its skip pointer is set by BuildSkip. */
    constructor (pprev: BlockIndex?, time: nat)
      ensures this.pprev == pprev && pskip == null
      ensures nHeight == if pprev == null then 0 else pprev.nHeight + 1
      ensures nTimeMax == if pprev == null || pprev.nTimeMax < time then time else pprev.nTimeMax
    {
      this.pprev := pprev;
      nHeight := if pprev == null then 0 else pprev.nHeight + 1;
      nTimeMax := if pprev == null || pprev.nTimeMax < time then time else pprev.nTimeMax;
      pskip := null;
    }

    /** The ancestor at a height, by way of the skip list. */
    method GetAncestor(height: int, ghost tree: set<BlockIndex>) returns (r: BlockIndex?)
      requires Tree(tree) && this in tree
      ensures height < 0 || height > nHeight ==> r == null
      ensures 0 <= height <= nHeight ==> r == Ancestor(this, height)
    {
      hide GetSkipHeight;
      if height > nHeight || height < 0 {
        return null;
      }
      var walk := this;
      var heightWalk := nHeight;
      while heightWalk > height
        invariant walk in tree && heightWalk == walk.nHeight >= height && WellBuilt(walk)
        invariant Ancestor(walk, height) == Ancestor(this, height)
      {
        var heightSkip := GetSkipHeight(heightWalk);
        var heightSkipPrev := GetSkipHeight(heightWalk - 1);
        InTree(tree, walk);
        if walk.pskip != null && (heightSkip == height || (heightSkip > height && !(heightSkipPrev < heightSkip - 2 && heightSkipPrev >= height))) {
          AncestorOfAncestor(walk, heightSkip, height);
          walk := walk.pskip;
          heightWalk := heightSkip;
        } else {
          walk := walk.pprev;
          heightWalk := heightWalk - 1;
        }
      }
      r := walk;
    }

    /** Sets the skip pointer of a block whose ancestors have theirs. */
    method BuildSkip(ghost tree: set<BlockIndex>)
      requires Tree(tree) && this in tree
      modifies this`pskip
      ensures Tree(tree) && pskip == if pprev == null then old(pskip) else Ancestor(this, GetSkipHeight(nHeight))
    {
      hide GetSkipHeight;
      if pprev != null {
        InTree(tree, this);
        AncestorIn(tree, this, GetSkipHeight(nHeight));
        pskip := pprev.GetAncestor(GetSkipHeight(nHeight), tree);
      }
    }
  }

  /** Heights count from a first block, and the time bound does not decrease. */
  ghost predicate WellBuilt(b: BlockIndex)
    decreases b.nHeight
  {
    if b.pprev == null then b.nHeight == 0
    else b.nHeight == b.pprev.nHeight + 1 && b.pprev.nTimeMax <= b.nTimeMax && WellBuilt(b.pprev)
  }

  /** The plain walk. */
  ghost function Ancestor(b: BlockIndex, height: nat): (a: BlockIndex)
    requires WellBuilt(b) && height <= b.nHeight
    ensures a.nHeight == height && WellBuilt(a)
    decreases b.nHeight
  {
    if b.nHeight == height then b else Ancestor(b.pprev, height)
  }

  /** A set of blocks with all their ancestors; skip pointers that are set are right. */
  ghost predicate Tree(tree: set<BlockIndex>)
    reads tree
  {
    forall b :: b in tree ==> WellBuilt(b) && (b.pprev != null ==> b.pprev in tree) && SkipOk(tree, b)
  }

  ghost predicate SkipOk(tree: set<BlockIndex>, b: BlockIndex)
    requires WellBuilt(b)
    reads b
  {
    b.pskip != null && b.nHeight > 0 ==> b.pskip in tree && b.pskip == Ancestor(b, GetSkipHeight(b.nHeight))
  }

  lemma InTree(tree: set<BlockIndex>, b: BlockIndex)
    requires Tree(tree) && b in tree
    ensures WellBuilt(b) && (b.nHeight > 0 ==> b.pprev != null && b.pprev in tree && b.pprev.nHeight == b.nHeight - 1)
    ensures b.pprev != null ==> b.nHeight > 0
    ensures b.pskip != null && b.nHeight > 0 ==> b.pskip in tree && b.pskip == Ancestor(b, GetSkipHeight(b.nHeight))
    ensures b.nHeight > 0 ==> GetSkipHeight(b.nHeight) < b.nHeight
  {}

  lemma {:induction false} AncestorOfAncestor(b: BlockIndex, mid: nat, height: nat)
    requires WellBuilt(b) && height <= mid <= b.nHeight
    ensures Ancestor(Ancestor(b, mid), height) == Ancestor(b, height)
    decreases b.nHeight
  {
    if mid < b.nHeight { AncestorOfAncestor(b.pprev, mid, height); }
  }

  /** One step down the line. */
  lemma Down(b: BlockIndex, height: nat)
    requires WellBuilt(b) && height <= b.nHeight
    ensures height == 0 ==> Ancestor(b, height).pprev == null
    ensures height > 0 ==> Ancestor(b, height).pprev == Ancestor(b, height - 1)
  {
    if height > 0 { AncestorOfAncestor(b, height, height - 1); }
  }

  lemma Itself(b: BlockIndex)
    requires WellBuilt(b)
    ensures Ancestor(b, b.nHeight) == b
  {}

  lemma {:induction false} AncestorIn(tree: set<BlockIndex>, b: BlockIndex, height: nat)
    requires Tree(tree) && b in tree && WellBuilt(b) && height <= b.nHeight
    ensures Ancestor(b, height) in tree
    decreases b.nHeight
  {
    if height < b.nHeight { AncestorIn(tree, b.pprev, height); }
  }

  lemma {:induction false} TimeGrows(b: BlockIndex, height: nat)
    requires WellBuilt(b) && height <= b.nHeight
    ensures Ancestor(b, height).nTimeMax <= b.nTimeMax
    decreases b.nHeight
  {
    if height < b.nHeight { TimeGrows(b.pprev, height); }
  }

  /** A new block joins a tree, and gets its skip pointer. */
  method AddBlock(pprev: BlockIndex?, time: nat, ghost tree: set<BlockIndex>) returns (b: BlockIndex)
    requires Tree(tree) && (pprev != null ==> pprev in tree)
    ensures fresh(b) && b.pprev == pprev && Tree(tree + {b})
    ensures b.nHeight > 0 ==> WellBuilt(b) && b.pskip == Ancestor(b, GetSkipHeight(b.nHeight))
  {
    b := new BlockIndex(pprev, time);
    b.BuildSkip(tree + {b});
  }

  // ---------------------------------------------------------------- common ancestors

  /** r is on both lines and no block above it is; null means that the lines do not meet. */
  ghost predicate Deepest(a: BlockIndex, b: BlockIndex, r: BlockIndex?)
    requires WellBuilt(a) && WellBuilt(b)
  {
    && (r != null ==> r.nHeight <= a.nHeight && r.nHeight <= b.nHeight && r == Ancestor(a, r.nHeight) == Ancestor(b, r.nHeight))
    && forall h: nat :: h <= a.nHeight && h <= b.nHeight && (r == null || h > r.nHeight) ==> Ancestor(a, h) != Ancestor(b, h)
  }

  method LastCommonAncestor(a: BlockIndex, b: BlockIndex, ghost tree: set<BlockIndex>) returns (r: BlockIndex?)
    requires Tree(tree) && a in tree && b in tree
    ensures WellBuilt(a) && WellBuilt(b) && Deepest(a, b, r)
  {
    hide Ancestor, WellBuilt, Tree;
    InTree(tree, a);
    InTree(tree, b);
    Itself(a);
    Itself(b);
    var pa: BlockIndex?, pb: BlockIndex? := a, b;
    if a.nHeight > b.nHeight {
      pa := a.GetAncestor(b.nHeight, tree);
    } else if b.nHeight > a.nHeight {
      pb := b.GetAncestor(a.nHeight, tree);
    }
    ghost var top := pa.nHeight;
    ghost var h: int := top;
    while pa != pb && pa != null && pb != null
      invariant -1 <= h <= top && top <= a.nHeight && top <= b.nHeight && (top == a.nHeight || top == b.nHeight)
      invariant h >= 0 ==> pa == Ancestor(a, h) && pb == Ancestor(b, h)
      invariant h < 0 ==> pa == null && pb == null
      invariant forall i: nat :: h < i <= top ==> Ancestor(a, i) != Ancestor(b, i)
      decreases h
    {
      Down(a, h);
      Down(b, h);
      pa, pb := pa.pprev, pb.pprev;
      h := h - 1;
    }
    r := pa;
  }

  // ---------------------------------------------------------------- locators

  /** How far a locator steps back from its entry at position i. */
  function LocatorStep(i: nat): (step: nat)
    ensures step > 0
  {
    if i <= 10 then 1 else 2 * LocatorStep(i - 1)
  }

  function Back(height: nat, step: nat): nat { if height < step then 0 else height - step }

  ghost predicate StepsBack(have: seq<BlockIndex>, i: nat)
    requires i + 1 < |have|
  {
    have[i].nHeight > 0 && have[i + 1].nHeight == Back(have[i].nHeight, LocatorStep(i))
  }

  ghost predicate OnLine(index: BlockIndex, b: BlockIndex)
    requires WellBuilt(index)
  {
    b.nHeight <= index.nHeight && b == Ancestor(index, b.nHeight)
  }

  lemma StepNext(i: nat)
    ensures LocatorStep(i) > 0 && LocatorStep(0) == 1 && LocatorStep(i + 1) == if i + 1 > 10 then 2 * LocatorStep(i) else LocatorStep(i)
  {}

  /** Ten single steps back, then exponentially larger ones, and the first block. */
  method LocatorEntries(index: BlockIndex?, ghost tree: set<BlockIndex>) returns (have: seq<BlockIndex>)
    requires Tree(tree) && (index != null ==> index in tree)
    ensures index == null ==> have == []
    ensures index != null ==> have != [] && have[0] == index && have[|have| - 1].nHeight == 0
    ensures index != null ==> WellBuilt(index) && forall i :: 0 <= i < |have| ==> OnLine(index, have[i])
    ensures forall i :: 0 <= i < |have| - 1 ==> StepsBack(have, i)
  {
    hide Ancestor, WellBuilt, Tree, LocatorStep, OnLine;
    have := [];
    if index == null {
      return;
    }
    InTree(tree, index);
    LineStart(index);
    StepNext(0);
    var step := 1;
    var walk: BlockIndex := index;
    while walk.nHeight > 0
      invariant walk in tree && OnLine(index, walk) && step == LocatorStep(|have|)
      invariant (have + [walk])[0] == index
      invariant forall i :: 0 <= i < |have| ==> OnLine(index, have[i])
      invariant forall i :: 0 <= i < |have| ==> StepsBack(have + [walk], i)
      decreases walk.nHeight
    {
      ghost var before := have + [walk];
      have := have + [walk];
      StepNext(|have| - 1);
      var height := Back(walk.nHeight, step);
      LineStep(index, walk, height, tree);
      walk := walk.GetAncestor(height, tree);
      if |have| > 10 {
        step := step * 2;
      }
      forall i | 0 <= i < |have| ensures StepsBack(have + [walk], i) {
        if i < |have| - 1 { assert StepsBack(before, i); }
      }
    }
    have := have + [walk];
  }

  lemma LineStart(b: BlockIndex)
    requires WellBuilt(b)
    ensures OnLine(b, b)
  {}

  lemma LineStep(index: BlockIndex, walk: BlockIndex, height: nat, tree: set<BlockIndex>)
    requires WellBuilt(index) && OnLine(index, walk) && height <= walk.nHeight && Tree(tree) && walk in tree
    ensures WellBuilt(walk) && OnLine(index, Ancestor(walk, height)) && Ancestor(walk, height) in tree
  {
    AncestorOfAncestor(index, walk.nHeight, height);
    AncestorIn(tree, walk, height);
  }

  // ---------------------------------------------------------------- the active chain

  class Chain {
    var vChain: seq<BlockIndex?>

    /** Every entry is the ancestor of the tip at its height. */
    ghost predicate Valid()
      reads this
    {
      vChain != [] ==> var tip := vChain[|vChain| - 1];
        tip != null && WellBuilt(tip) && tip.nHeight == |vChain| - 1 && forall i :: 0 <= i < |vChain| ==> vChain[i] == Ancestor(tip, i)
    }

    constructor ()
      ensures Valid() && vChain == []
    {
      vChain := [];
    }

    function Height(): int
      reads this
    {
      |vChain| - 1
    }

    function At(height: int): BlockIndex?
      reads this
    {
      if height < 0 || height >= |vChain| then null else vChain[height]
    }

    predicate Contains(b: BlockIndex)
      reads this
    {
      At(b.nHeight) == b
    }

    /** Stops at the first entry that is already there. */
    method SetTip(block: BlockIndex)
      requires Valid() && WellBuilt(block)
      modifies this
      ensures Valid() && |vChain| == block.nHeight + 1 && vChain[block.nHeight] == block
      ensures forall i :: 0 <= i < |vChain| ==> vChain[i] == Ancestor(block, i)
    {
      hide Ancestor, WellBuilt;
      Itself(block);
      ghost var before := vChain;
      var size := block.nHeight + 1;
      vChain := if size <= |vChain| then vChain[..size] else vChain + seq(size - |vChain|, _ => null);
      var pindex: BlockIndex? := block;
      ghost var h: int := block.nHeight;
      while pindex != null && vChain[pindex.nHeight] != pindex
        invariant |vChain| == size && -1 <= h < size
        invariant if h < 0 then pindex == null else pindex == Ancestor(block, h)
        invariant forall i :: h < i < size ==> vChain[i] == Ancestor(block, i)
        invariant forall i :: 0 <= i <= h ==> vChain[i] == if i < |before| then before[i] else null
        decreases h
      {
        vChain := vChain[pindex.nHeight := pindex];
        Down(block, h);
        pindex := pindex.pprev;
        h := h - 1;
      }
      if h >= 0 {
        SameBelow(before, block, h);
      }
    }

    /** The last block of this chain on the line of the given one. */
    method FindFork(pindex: BlockIndex?, ghost tree: set<BlockIndex>) returns (r: BlockIndex?)
      requires Valid() && Tree(tree) && (pindex != null ==> pindex in tree)
      ensures pindex == null || vChain == [] ==> r == null
      ensures pindex != null && vChain != [] ==> WellBuilt(pindex) && Deepest(vChain[|vChain| - 1], pindex, r)
    {
      hide Ancestor, WellBuilt, Tree;
      if pindex == null {
        return null;
      }
      InTree(tree, pindex);
      Itself(pindex);
      r := pindex;
      if r.nHeight > Height() {
        r := r.GetAncestor(Height(), tree);
      }
      if vChain == [] {
        return;
      }
      ghost var tip := vChain[|vChain| - 1];
      ghost var top := r.nHeight;
      ghost var h: int := top;
      while r != null && !Contains(r)
        invariant -1 <= h <= top && top <= pindex.nHeight && top <= tip.nHeight && (top == pindex.nHeight || top == tip.nHeight)
        invariant if h < 0 then r == null else r == Ancestor(pindex, h)
        invariant forall i: nat :: h < i <= top ==> Ancestor(pindex, i) != Ancestor(tip, i)
        decreases h
      {
        Down(pindex, h);
        assert vChain[h] == Ancestor(tip, h);
        r := r.pprev;
        h := h - 1;
      }
    }

    /** Binary search for the first block that is late and high enough; both only grow along the chain. */
    method FindEarliestAtLeast(nTime: int, height: int) returns (r: BlockIndex?)
      requires Valid()
      ensures r == null ==> forall b :: b in vChain ==> !AtLeast(b, nTime, height)
      ensures r != null ==> r in vChain && AtLeast(r, nTime, height)
      ensures r != null ==> forall b :: b in vChain && b.nHeight < r.nHeight ==> !AtLeast(b, nTime, height)
    {
      var lo, hi := 0, |vChain|;
      while lo < hi
        invariant 0 <= lo <= hi <= |vChain|
        invariant forall i :: 0 <= i < lo ==> !Late(vChain, i, nTime, height)
        invariant forall i :: hi <= i < |vChain| ==> Late(vChain, i, nTime, height)
      {
        var mid := (lo + hi) / 2;
        var b := vChain[mid];
        assert b == Ancestor(vChain[|vChain| - 1], mid);
        if b.nTimeMax < nTime || b.nHeight < height {
          forall i | 0 <= i <= mid ensures !Late(vChain, i, nTime, height) { LateGrows(vChain, i, mid, nTime, height); }
          lo := mid + 1;
        } else {
          forall i | mid <= i < |vChain| ensures Late(vChain, i, nTime, height) { LateGrows(vChain, mid, i, nTime, height); }
          hi := mid;
        }
      }
      r := if lo == |vChain| then null else vChain[lo];
      assert lo < |vChain| ==> Late(vChain, lo, nTime, height) && vChain[lo] == Ancestor(vChain[|vChain| - 1], lo);
      forall b | b in vChain && (r == null || b.nHeight < r.nHeight) ensures !AtLeast(b, nTime, height) {
        var i :| 0 <= i < |vChain| && vChain[i] == b;
        assert vChain[i] == Ancestor(vChain[|vChain| - 1], i);
        assert !Late(vChain, i, nTime, height);
      }
    }
  }

  predicate AtLeast(b: BlockIndex, nTime: int, height: int) {
    b.nTimeMax >= nTime && b.nHeight >= height
  }

  ghost predicate Late(chain: seq<BlockIndex?>, i: int, nTime: int, height: int) {
    0 <= i < |chain| && chain[i] != null && AtLeast(chain[i], nTime, height)
  }

  ghost predicate Line(chain: seq<BlockIndex?>) {
    chain != [] && var tip := chain[|chain| - 1];
    tip != null && WellBuilt(tip) && tip.nHeight == |chain| - 1 && forall i :: 0 <= i < |chain| ==> chain[i] == Ancestor(tip, i)
  }

  lemma LateGrows(chain: seq<BlockIndex?>, i: nat, j: nat, nTime: int, height: int)
    requires Line(chain) && i <= j < |chain|
    ensures Late(chain, i, nTime, height) ==> Late(chain, j, nTime, height)
  {
    var tip := chain[|chain| - 1];
    AncestorOfAncestor(tip, j, i);
    TimeGrows(Ancestor(tip, j), i);
    assert chain[i] == Ancestor(tip, i) && chain[j] == Ancestor(tip, j);
  }

  /** Two lines that meet at a height are the same below it. */
  lemma SameBelow(chain: seq<BlockIndex?>, block: BlockIndex, h: nat)
    requires Line(chain) && WellBuilt(block) && h < |chain| && h <= block.nHeight && chain[h] == Ancestor(block, h)
    ensures forall i :: 0 <= i <= h ==> chain[i] == Ancestor(block, i)
  {
    var tip := chain[|chain| - 1];
    forall i | 0 <= i <= h ensures chain[i] == Ancestor(block, i) {
      AncestorOfAncestor(tip, h, i);
      AncestorOfAncestor(block, h, i);
      assert chain[i] == Ancestor(tip, i) && chain[h] == Ancestor(tip, h);
    }
  }
}
