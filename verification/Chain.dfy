/** The block index tree with its skip pointers, and the active chain. */
module Chain {
  import opened Powers
  import opened SkipHeights
  import opened SkipWalks

  const MAX_LOCATOR_SZ := 101

  // ---------------------------------------------------------------- the block tree

  class BlockIndex {
    const hash: int
    const pprev: BlockIndex?
    const pskip: BlockIndex?
    const nHeight: nat

    /** Heights count from the root, and a skip pointer, where there is one, leads to the ancestor at the skip
        height. */
    ghost predicate Valid()
      decreases nHeight, 0
    {
      && (pprev == null ==> nHeight == 0 && pskip == null)
      && (pprev != null ==> nHeight == pprev.nHeight + 1 && pprev.Valid())
      && (pprev != null && pskip != null ==> pskip == At(pprev, GetSkipHeight(nHeight)))
    }

    /** Every block but the root has its skip pointer. */
    ghost predicate Skipping()
      requires Valid()
      decreases nHeight
    {
      pprev != null ==> pskip != null && pprev.Skipping()
    }

    /** A new block is linked to its predecessor, and its skip pointer is built. */
    constructor (hash: int, pprev: BlockIndex?)
      requires pprev == null || pprev.Valid()
      ensures Valid() && this.hash == hash && this.pprev == pprev
      ensures pprev == null || pprev.Skipping() ==> Skipping()
    {
      var height, skip: BlockIndex? := 0, null;
      if pprev != null {
        height := pprev.nHeight + 1;
        ghost var steps;
        skip, steps := pprev.GetAncestor(GetSkipHeight(height));
      }
      this.hash, this.pprev, this.pskip, nHeight := hash, pprev, skip, height;
    }

    /** The ancestor at a height, along skip pointers where they do not lead too far. If they are all there, going
        back up to 2^k blocks takes at most Most(k) steps. */
    method GetAncestor(height: int) returns (r: BlockIndex?, ghost steps: nat)
      requires Valid()
      ensures (r == null <==> height > nHeight || height < 0) && (r != null ==> r == At(this, height))
      ensures r != null && Skipping() ==> forall k :: k >= 3 && nHeight - height <= Pow2(k) ==> steps <= Most(k)
      ensures r != null && Skipping() && nHeight - height <= 0x40000 ==> steps <= 110
    {
      hide GetSkipHeight, Next, Steps, Most, Pow2;
      steps := 0;
      if height > nHeight || height < 0 {
        return null, 0;
      }
      var walk: BlockIndex := this;
      var heightWalk := nHeight;
      while heightWalk > height
        invariant walk.Valid() && walk.nHeight == heightWalk >= height && At(walk, height) == At(this, height)
        invariant Skipping() ==> walk.Skipping() && steps + Steps(heightWalk, height) == Steps(nHeight, height)
      {
        var heightSkip := GetSkipHeight(heightWalk);
        var heightSkipPrev := GetSkipHeight(heightWalk - 1);
        StepsNext(heightWalk, height);
        NextIs(heightWalk, height);
        if walk.pskip != null && (heightSkip == height ||
            (heightSkip > height && !(heightSkipPrev < heightSkip - 2 && heightSkipPrev >= height))) {
          AtTwice(walk.pprev, heightSkip, height);
          AtSkipping(walk.pprev, heightSkip);
          walk := walk.pskip;
          heightWalk := heightSkip;
        } else {
          assert walk.pprev != null;
          walk := walk.pprev;
          heightWalk := heightWalk - 1;
        }
        steps := steps + 1;
      }
      r := walk;
      StepsNone(height);
      StepsLimits(nHeight, height);
    }
  }

  /** The ancestor by predecessors alone. */
  ghost function At(b: BlockIndex, height: nat): (r: BlockIndex)
    requires b.Valid() && height <= b.nHeight
    ensures r.nHeight == height && r.Valid()
    decreases b.nHeight, 1
  {
    if height == b.nHeight then b else At(b.pprev, height)
  }

  lemma {:induction false} AtTwice(b: BlockIndex, i: nat, j: nat)
    requires b.Valid() && j <= i <= b.nHeight
    ensures At(At(b, i), j) == At(b, j)
    decreases b.nHeight
  {
    if i < b.nHeight {
      AtTwice(b.pprev, i, j);
    }
  }

  lemma {:induction false} AtSkipping(b: BlockIndex, height: nat)
    requires b.Valid() && height <= b.nHeight
    ensures b.Skipping() ==> At(b, height).Skipping()
    decreases b.nHeight
  {
    if height < b.nHeight {
      AtSkipping(b.pprev, height);
    }
  }

  /** The chain from the root to a block. */
  ghost function Path(b: BlockIndex): (r: seq<BlockIndex>)
    requires b.Valid()
    ensures |r| == b.nHeight + 1 && forall i :: 0 <= i < |r| ==> r[i] == At(b, i)
    decreases b.nHeight
  {
    (if b.pprev == null then [] else Path(b.pprev)) + [b]
  }

  // ---------------------------------------------------------------- locators

  /** The heights a locator lists: eleven in steps of one, then doubling steps, then the root. */
  function LocatorHeights(height: nat, step: nat, have: nat): (r: seq<nat>)
    requires step > 0
    decreases height
  {
    if height == 0 then [0]
    else [height] + LocatorHeights(Back(height, step), NextStep(step, have + 1), have + 1)
  }

  function Back(height: nat, step: nat): nat {
    if height - step > 0 then height - step else 0
  }

  function NextStep(step: nat, have: nat): nat {
    if have > 10 then 2 * step else step
  }

  /** The largest step that is computed on the way. */
  function LargestStep(height: nat, step: nat, have: nat): nat
    requires step > 0
    decreases height
  {
    if height == 0 then step else LargestStep(Back(height, step), NextStep(step, have + 1), have + 1)
  }

  /** A locator goes strictly down, from the block to the root. */
  lemma {:induction false} LocatorDescends(height: nat, step: nat, have: nat)
    requires step > 0
    ensures var r := LocatorHeights(height, step, have);
            && r != [] && r[0] == height && r[|r| - 1] == 0
            && forall i, j :: 0 <= i < j < |r| ==> r[i] > r[j]
    decreases height
  {
    if height > 0 {
      LocatorDescends(Back(height, step), NextStep(step, have + 1), have + 1);
    }
  }

  /** Once steps double, k of them cover 2^k - 1 times the first. */
  lemma {:induction false} DoublingSteps(height: nat, step: nat, have: nat, k: nat)
    requires step > 0 && have >= 10
    ensures LargestStep(height, step, have) < step * Pow2(k + 1) <==> height <= step * (Pow2(k) - 1)
    ensures height <= step * (Pow2(k) - 1) ==> |LocatorHeights(height, step, have)| <= k + 1
    ensures LargestStep(height, step, have) >= step
    decreases height
  {
    assert Pow2(k + 1) == 2 * Pow2(k);
    if height == 0 {
      MulMono(1, 2 * Pow2(k) - 1, step);
      MulMono(0, Pow2(k) - 1, step);
      Distribute(2 * Pow2(k), -1, step);
    } else if k == 0 {
      DoublingSteps(Back(height, step), 2 * step, have + 1, 0);
    } else {
      var p := Pow2(k - 1);
      assert Pow2(k) == 2 * p;
      DoublingSteps(Back(height, step), 2 * step, have + 1, k - 1);
      hide Pow2, LocatorHeights, LargestStep;
      Regroup(step, 2, p);
      Regroup(step, 2, Pow2(k));
      Distribute(2 * p, -1, step);
      Distribute(p, -1, 2 * step);
    }
  }

  /** The first ten blocks go back one by one. */
  lemma {:induction false} SingleSteps(height: nat, have: nat)
    requires have <= 10
    ensures height + have <= 10 ==> LargestStep(height, 1, have) <= 2 && |LocatorHeights(height, 1, have)| == height + 1
    ensures height + have > 10 ==> LargestStep(height, 1, have) == LargestStep(height + have - 10, 1, 10)
    ensures height + have > 10 ==>
              |LocatorHeights(height, 1, have)| == 10 - have + |LocatorHeights(height + have - 10, 1, 10)|
    decreases 10 - have
  {
    if height > 0 && have < 10 {
      SingleSteps(height - 1, have + 1);
    }
  }

  /** In 32-bit arithmetic the step overflows exactly above 2^30 + 9 blocks; up to 2^31 blocks a locator has at
      most 42 entries, well within the limit. */
  lemma LocatorBounds(height: nat)
    ensures LargestStep(height, 1, 0) < 0x8000_0000 <==> height <= 0x4000_0009
    ensures height < 0x8000_0000 ==> |LocatorHeights(height, 1, 0)| <= 42 < MAX_LOCATOR_SZ
  {
    hide Pow2, LocatorHeights, LargestStep;
    SingleSteps(height, 0);
    Pow2Word();
    Pow2Add(31, 1);
    Pow2Add(30, 1);
    assert Pow2(1) == 2 by { Pow2One(); }
    if height > 10 {
      DoublingSteps(height - 10, 1, 10, 30);
      DoublingSteps(height - 10, 1, 10, 31);
    }
  }

  lemma Pow2One()
    ensures Pow2(1) == 2
  {
  }

  // ---------------------------------------------------------------- the active chain

  class ActiveChain {
    var vChain: seq<BlockIndex>

    /** The chain is the path to its last block. */
    ghost predicate Valid()
      reads this
    {
      vChain != [] ==> vChain[|vChain| - 1].Valid() && vChain == Path(vChain[|vChain| - 1])
    }

    constructor ()
      ensures Valid() && vChain == []
    {
      vChain := [];
    }

    function Tip(): BlockIndex?
      reads this
    {
      if |vChain| > 0 then vChain[|vChain| - 1] else null
    }

    function Get(height: int): BlockIndex?
      reads this
    {
      if height < 0 || height >= |vChain| then null else vChain[height]
    }

    predicate Contains(b: BlockIndex)
      reads this
    {
      Get(b.nHeight) == b
    }

    /** Contained is what lies on the path to the tip. */
    lemma ContainsIffOnPath(b: BlockIndex)
      requires Valid() && b.Valid()
      ensures Contains(b) <==> b in vChain
      ensures Contains(b) ==> forall i :: 0 <= i <= b.nHeight ==> Contains(At(b, i)) && Get(i) == At(b, i)
    {
      if b in vChain {
        var i :| 0 <= i < |vChain| && vChain[i] == b;
        assert vChain[i] == At(vChain[|vChain| - 1], i);
      }
      if Contains(b) {
        var tip := vChain[|vChain| - 1];
        forall i | 0 <= i <= b.nHeight ensures Contains(At(b, i)) && Get(i) == At(b, i) {
          AtTwice(tip, b.nHeight, i);
        }
      }
    }

    /** Setting a tip rewrites the chain only down to where it agrees already, and yet gives the whole path. */
    method SetTip(pindex: BlockIndex?)
      requires Valid() && (pindex == null || pindex.Valid())
      modifies this
      ensures Valid() && vChain == if pindex == null then [] else Path(pindex)
    {
      if pindex == null {
        vChain := [];
        return;
      }
      var n := pindex.nHeight + 1;
      var v: seq<BlockIndex?> := seq(n, i requires 0 <= i < n reads this => if i < |vChain| then vChain[i] else null);
      ghost var resized := v;
      var walk: BlockIndex? := pindex;
      while walk != null && v[walk.nHeight] != walk
        invariant |v| == n && vChain == old(vChain)
        invariant walk != null ==> walk.Valid() && walk.nHeight < n && walk == At(pindex, walk.nHeight)
        invariant forall i :: 0 <= i < n && (walk == null || i > walk.nHeight) ==> v[i] == At(pindex, i)
        invariant forall i :: 0 <= i < n && walk != null && i <= walk.nHeight ==> v[i] == resized[i]
        decreases if walk == null then 0 else walk.nHeight + 1
      {
        v := v[walk.nHeight := walk];
        if walk.pprev != null {
          AtTwice(pindex, walk.nHeight, walk.nHeight - 1);
        }
        walk := walk.pprev;
      }
      if walk != null {
        ContainsIffOnPath(walk);
        forall i | 0 <= i <= walk.nHeight ensures v[i] == At(pindex, i) {
          AtTwice(pindex, walk.nHeight, i);
        }
      }
      assert forall i :: 0 <= i < n ==> v[i] == At(pindex, i);
      vChain := seq(n, i requires 0 <= i < n && v[i] != null => v[i]);
    }

    /** The last common block of this chain and a branch: on both, and no higher block is. */
    method FindFork(pindex: BlockIndex?) returns (r: BlockIndex?)
      requires Valid() && (pindex == null || pindex.Valid())
      ensures r != null ==> pindex != null && r.nHeight <= pindex.nHeight && r == At(pindex, r.nHeight) && Contains(r)
      ensures pindex != null ==>
                forall i :: 0 <= i <= pindex.nHeight && Contains(At(pindex, i)) ==> r != null && i <= r.nHeight
    {
      if pindex == null {
        return null;
      }
      r := pindex;
      if pindex.nHeight > |vChain| - 1 {
        ghost var steps;
        r, steps := pindex.GetAncestor(|vChain| - 1);
      }
      while r != null && !Contains(r)
        invariant r != null ==> r.Valid() && r.nHeight <= pindex.nHeight && r == At(pindex, r.nHeight)
        invariant forall i :: 0 <= i <= pindex.nHeight && Contains(At(pindex, i)) ==> r != null && i <= r.nHeight
        decreases if r == null then 0 else r.nHeight + 1
      {
        if r.pprev != null {
          AtTwice(pindex, r.nHeight, r.nHeight - 1);
        }
        r := r.pprev;
      }
    }

    /** The hashes of the blocks at the locator's heights, from the given block or the tip down to the root. */
    method GetLocator(pindex: BlockIndex?) returns (have: seq<int>)
      requires Valid() && (pindex == null || pindex.Valid())
      ensures var start := if pindex == null then Tip() else pindex;
              if start == null then have == [] else have == Hashes(start, LocatorHeights(start.nHeight, 1, 0))
    {
      hide LocatorHeights;
      have := [];
      var walk := if pindex == null then Tip() else pindex;
      if walk == null {
        return;
      }
      ghost var start: BlockIndex := walk;
      ghost var total := Hashes(start, LocatorHeights(start.nHeight, 1, 0));
      var step: nat, height: nat := 1, walk.nHeight;
      while true
        invariant walk != null && height <= start.nHeight && walk == At(start, height) && step > 0
        invariant have + Hashes(start, LocatorHeights(height, step, |have|)) == total
        decreases height
      {
        LocatorNext(start, height, step, have);
        have := have + [walk.hash];
        if height == 0 {
          break;
        }
        AtTwice(start, height, Back(height, step));
        walk := Ancestor(walk, Back(height, step));
        height := Back(height, step);
        step := NextStep(step, |have|);
      }
    }

    /** By index if the block is on the chain, along skip pointers otherwise. */
    method Ancestor(b: BlockIndex, height: nat) returns (r: BlockIndex?)
      requires Valid() && b.Valid() && height <= b.nHeight
      ensures r == At(b, height)
    {
      if Contains(b) {
        ContainsIffOnPath(b);
        r := Get(height);
      } else {
        ghost var steps;
        r, steps := b.GetAncestor(height);
      }
    }
  }

  lemma LocatorNext(start: BlockIndex, height: nat, step: nat, have: seq<int>)
    requires start.Valid() && height <= start.nHeight && step > 0
    ensures have + Hashes(start, LocatorHeights(height, step, |have|)) ==
      have + [At(start, height).hash] +
      if height == 0 then []
      else Hashes(start, LocatorHeights(Back(height, step), NextStep(step, |have| + 1), |have| + 1))
  {
    var heights := LocatorHeights(height, step, |have|);
    if height > 0 {
      assert heights[1..] == LocatorHeights(Back(height, step), NextStep(step, |have| + 1), |have| + 1);
    }
    assert Hashes(start, heights) == [At(start, height).hash] + Hashes(start, heights[1..]);
  }

  /** The hashes of the ancestors at these heights. */
  ghost function Hashes(b: BlockIndex, heights: seq<nat>): seq<int>
    requires b.Valid()
  {
    if heights == [] then []
    else [if heights[0] <= b.nHeight then At(b, heights[0]).hash else 0] + Hashes(b, heights[1..])
  }
}
