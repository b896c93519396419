/**
 The block tree with its skip list (`CBlockIndex`) and the active chain index
 (`CChain`): an array that must at all times be the path from genesis to the tip,
 although `SetTip` stops rewriting it as soon as it meets an entry that is right.
 */
module Chain {
  import opened Numerals

  /** `n & (n - 1)` on a non-negative int: the lowest one bit is cleared. */
  function InvertLowestOne(n: nat): (r: nat)
    ensures n > 0 ==> r < n
    ensures n == 0 ==> r == 0
  {
    if n == 0 then 0 else if n % 2 == 1 then n - 1 else 2 * InvertLowestOne(n / 2)
  }

  /** The height the skip pointer of a block at `height` leads to. */
  function GetSkipHeight(height: nat): (r: nat)
    ensures height > 0 ==> r < height
    ensures height < 2 ==> r == 0
  {
    if height < 2 then 0
    else if height % 2 == 1 then InvertLowestOne(InvertLowestOne(height - 1)) + 1
    else InvertLowestOne(height)
  }

  class BlockIndex {
    const pprev: BlockIndex?
    const pskip: BlockIndex?
    const nHeight: nat
    const hash: nat

    /** A block as it is entered into the block tree: linked to its parent, then given its skip pointer. */
    constructor (prev: BlockIndex?, blockHash: nat)
      requires prev != null ==> Linked(prev)
      ensures Linked(this) && pprev == prev && hash == blockHash
    {
      pprev := prev;
      hash := blockHash;
      nHeight := if prev == null then 0 else prev.nHeight + 1;
      var skip: BlockIndex? := null;
      if prev != null {
        skip := prev.GetAncestor(GetSkipHeight(prev.nHeight + 1));
      }
      pskip := skip;
    }

    /** The ancestor at a height, found by following skip pointers where they do not overshoot. */
    method GetAncestor(height: int) returns (r: BlockIndex?)
      requires Linked(this)
      ensures 0 <= height <= nHeight ==> r == AncestorAt(this, height)
      ensures !(0 <= height <= nHeight) ==> r == null
    {
      if height > nHeight || height < 0 {
        return null;
      }
      var pindexWalk: BlockIndex := this;
      var heightWalk: nat := nHeight;
      while heightWalk > height
        invariant height <= heightWalk <= nHeight
        invariant pindexWalk == AncestorAt(this, heightWalk)
      {
        var heightSkip := GetSkipHeight(heightWalk);
        var heightSkipPrev := GetSkipHeight(heightWalk - 1);
        if heightSkip == height ||
           (heightSkip > height && !(heightSkipPrev < heightSkip - 2 && heightSkipPrev >= height)) {
          pindexWalk := pindexWalk.pskip;
          heightWalk := heightSkip;
        } else {
          ParentOfAncestor(this, heightWalk);
          pindexWalk := pindexWalk.pprev;
          heightWalk := heightWalk - 1;
        }
      }
      r := pindexWalk;
    }
  }

  /** Heights count the distance to genesis. */
  ghost predicate Rooted(b: BlockIndex)
    decreases b.nHeight
  {
    if b.pprev == null then b.nHeight == 0
    else b.nHeight == b.pprev.nHeight + 1 && Rooted(b.pprev)
  }

  /** The ancestor of `b` at height `h`, by single steps back. */
  ghost function AncestorAt(b: BlockIndex, h: nat): (r: BlockIndex)
    requires Rooted(b) && h <= b.nHeight
    ensures Rooted(r) && r.nHeight == h
    decreases b.nHeight
  {
    if h == b.nHeight then b else AncestorAt(b.pprev, h)
  }

  /** Every skip pointer on the path of `b` leads to the ancestor at its skip height. */
  ghost predicate Linked(b: BlockIndex) {
    && Rooted(b)
    && forall h :: 0 < h <= b.nHeight ==> AncestorAt(b, h).pskip == AncestorAt(b, GetSkipHeight(h))
  }

  lemma {:induction false} AncestorOfAncestor(b: BlockIndex, m: nat, h: nat)
    requires Rooted(b) && h <= m <= b.nHeight
    ensures AncestorAt(AncestorAt(b, m), h) == AncestorAt(b, h)
    decreases b.nHeight
  {
    if m < b.nHeight {
      AncestorOfAncestor(b.pprev, m, h);
    }
  }

  lemma ParentOfAncestor(b: BlockIndex, h: nat)
    requires Rooted(b) && 0 < h <= b.nHeight
    ensures AncestorAt(b, h).pprev == AncestorAt(b, h - 1)
  {
    AncestorOfAncestor(b, h, h - 1);
  }

  lemma LinkedAncestor(b: BlockIndex, m: nat)
    requires Linked(b) && m <= b.nHeight
    ensures Linked(AncestorAt(b, m))
  {
    forall h | 0 < h <= m
      ensures AncestorAt(AncestorAt(b, m), h).pskip == AncestorAt(AncestorAt(b, m), GetSkipHeight(h))
    {
      AncestorOfAncestor(b, m, h);
      AncestorOfAncestor(b, m, GetSkipHeight(h));
    }
  }

  /** The path from genesis to `b`, both included. */
  ghost function Path(b: BlockIndex): (p: seq<BlockIndex?>)
    requires Rooted(b)
  {
    seq(b.nHeight + 1, h requires 0 <= h <= b.nHeight => AncestorAt(b, h))
  }

  class ActiveChain {
    var vChain: seq<BlockIndex?>

    ghost predicate Valid()
      reads this
    {
      vChain != [] ==> vChain[|vChain| - 1] != null && Rooted(vChain[|vChain| - 1]) && vChain == Path(vChain[|vChain| - 1])
    }

    constructor ()
      ensures Valid() && vChain == []
    {
      vChain := [];
    }

    function At(nHeight: int): (r: BlockIndex?)
      reads this
    {
      if nHeight < 0 || nHeight >= |vChain| then null else vChain[nHeight]
    }

    predicate Contains(pindex: BlockIndex)
      reads this
    {
      At(pindex.nHeight) == pindex
    }

    function Height(): int
      reads this
    {
      |vChain| - 1
    }

    /** Whatever the previous tip was, the vector becomes the whole path of the new tip. */
    method SetTip(tip: BlockIndex?)
      requires Valid()
      requires tip != null ==> Rooted(tip)
      modifies this
      ensures Valid()
      ensures vChain == if tip == null then [] else Path(tip)
    {
      if tip == null {
        vChain := [];
        return;
      }
      vChain := if tip.nHeight + 1 <= |vChain| then vChain[..tip.nHeight + 1]
                else vChain + seq(tip.nHeight + 1 - |vChain|, _ => null);
      ghost var was := vChain;
      var pindex: BlockIndex? := tip;
      while pindex != null && vChain[pindex.nHeight] != pindex
        invariant |vChain| == |was| == tip.nHeight + 1
        invariant pindex != null ==>
                    Rooted(pindex) && pindex.nHeight <= tip.nHeight && pindex == AncestorAt(tip, pindex.nHeight)
        invariant forall h :: (if pindex == null then -1 else pindex.nHeight) < h <= tip.nHeight ==> vChain[h] == AncestorAt(tip, h)
        invariant pindex != null ==> forall h :: 0 <= h <= pindex.nHeight ==> vChain[h] == was[h]
        decreases if pindex == null then 0 else pindex.nHeight + 1
      {
        vChain := vChain[pindex.nHeight := pindex];
        ghost var h := pindex.nHeight;
        if h > 0 {
          ParentOfAncestor(tip, h);
        }
        pindex := pindex.pprev;
      }
      if pindex != null {
        ghost var oldTip := old(vChain)[|old(vChain)| - 1];
        forall h | 0 <= h <= pindex.nHeight
          ensures vChain[h] == AncestorAt(tip, h)
        {
          AncestorOfAncestor(tip, pindex.nHeight, h);
          AncestorOfAncestor(oldTip, pindex.nHeight, h);
        }
      }
      assert vChain == Path(tip);
    }

    /** The highest block both on this chain and among the ancestors of `start`: at every height up to it
        the two paths agree, and at no height above it. */
    method FindFork(start: BlockIndex) returns (r: BlockIndex?)
      requires Valid() && Linked(start)
      ensures r != null ==> r.nHeight <= start.nHeight && r.nHeight < |vChain|
      ensures r != null ==> vChain[r.nHeight] == r == AncestorAt(start, r.nHeight)
      ensures forall h :: 0 <= h < |vChain| && h <= start.nHeight ==>
                            (vChain[h] == AncestorAt(start, h) <==> r != null && h <= r.nHeight)
    {
      r := start;
      if start.nHeight > Height() {
        r := start.GetAncestor(Height());
      }
      while r != null && !Contains(r)
        invariant r != null ==> Rooted(r) && r.nHeight <= start.nHeight && r.nHeight < |vChain| && r == AncestorAt(start, r.nHeight)
        invariant forall h :: (if r == null then -1 else r.nHeight) < h < |vChain| && h <= start.nHeight ==> vChain[h] != AncestorAt(start, h)
        decreases if r == null then 0 else r.nHeight + 1
      {
        if r.nHeight > 0 {
          ParentOfAncestor(start, r.nHeight);
        }
        r := r.pprev;
      }
      if r != null {
        forall h | 0 <= h <= r.nHeight
          ensures vChain[h] == AncestorAt(start, h)
        {
          AncestorOfAncestor(start, r.nHeight, h);
          AncestorOfAncestor(vChain[|vChain| - 1], r.nHeight, h);
        }
      }
    }

    /** One jump of the locator: the chain index answers for blocks on the chain, the skip list for others. */
    method JumpBack(pindex: BlockIndex, nHeight: nat) returns (r: BlockIndex)
      requires Valid() && Linked(pindex) && nHeight <= pindex.nHeight
      ensures r == AncestorAt(pindex, nHeight)
    {
      if Contains(pindex) {
        AncestorOfAncestor(vChain[|vChain| - 1], pindex.nHeight, nHeight);
        r := At(nHeight);
      } else {
        r := pindex.GetAncestor(nHeight);
      }
    }

    /** Hashes of the ancestors of `start` (the tip when null) at the heights of `LocatorHeights`. */
    method GetLocator(start: BlockIndex?) returns (vHave: seq<nat>)
      requires Valid() && (start != null ==> Linked(start)) && (vChain != [] ==> Linked(vChain[|vChain| - 1]))
      ensures var from := if start != null then start else At(|vChain| - 1);
              vHave == if from == null then [] else LocatorHashes(from, LocatorHeights(from.nHeight, 1, 0))
    {
      var from := if start != null then start else At(|vChain| - 1);
      if from == null {
        return [];
      }
      vHave := WalkBack(from);
    }

    method WalkBack(from: BlockIndex) returns (vHave: seq<nat>)
      requires Valid() && Linked(from)
      ensures vHave == LocatorHashes(from, LocatorHeights(from.nHeight, 1, 0))
    {
      LinkedStart(from);
      hide Linked;
      hide Rooted;
      hide AncestorAt;
      hide LocatorHeights;
      var nStep: nat := 1;
      vHave := [];
      var pindex: BlockIndex := from;
      ghost var hs: seq<nat> := [];
      while pindex.nHeight > 0
        invariant nStep >= 1 && Below(hs, from.nHeight) && vHave == LocatorHashes(from, hs)
        invariant pindex.nHeight <= from.nHeight && pindex == AncestorAt(from, pindex.nHeight)
        invariant LocatorHeights(from.nHeight, 1, 0) == hs + LocatorHeights(pindex.nHeight, nStep, |hs|)
        decreases pindex.nHeight
      {
        ghost var h, was := pindex.nHeight, hs;
        HeightsStep(h, nStep, |hs|);
        HashesGrow(from, hs, h);
        vHave := vHave + [pindex.hash];
        hs := hs + [h];
        var nHeight: nat := if pindex.nHeight - nStep > 0 then pindex.nHeight - nStep else 0;
        LinkedAncestor(from, h);
        AncestorOfAncestor(from, h, nHeight);
        pindex := JumpBack(pindex, nHeight);
        if |vHave| > 10 {
          nStep := nStep * 2;
        }
        Append(was, h, LocatorHeights(pindex.nHeight, nStep, |hs|));
      }
      HashesGrow(from, hs, 0);
      HeightsEnd(nStep, |hs|);
      vHave := vHave + [pindex.hash];
    }
  }

  ghost predicate Below(hs: seq<nat>, h: nat) {
    forall i :: 0 <= i < |hs| ==> hs[i] <= h
  }

  lemma LinkedStart(b: BlockIndex)
    requires Linked(b)
    ensures Rooted(b) && AncestorAt(b, b.nHeight) == b
  {}

  lemma HeightsStep(h: nat, step: nat, count: nat)
    requires step >= 1 && h > 0
    ensures var next := if h - step > 0 then h - step else 0;
            LocatorHeights(h, step, count) == [h] + LocatorHeights(next, if count + 1 > 10 then step * 2 else step, count + 1)
  {}

  lemma HeightsEnd(step: nat, count: nat)
    requires step >= 1
    ensures LocatorHeights(0, step, count) == [0]
  {}

  lemma HashesGrow(b: BlockIndex, hs: seq<nat>, h: nat)
    requires Rooted(b) && Below(hs, b.nHeight) && h <= b.nHeight
    ensures Below(hs + [h], b.nHeight) && LocatorHashes(b, hs + [h]) == LocatorHashes(b, hs) + [AncestorAt(b, h).hash]
  {
    hide AncestorAt;
    hide Rooted;
  }

  ghost function LocatorHashes(b: BlockIndex, hs: seq<nat>): (r: seq<nat>)
    requires Rooted(b) && Below(hs, b.nHeight)
  {
    seq(|hs|, i requires 0 <= i < |hs| => AncestorAt(b, hs[i]).hash)
  }

  lemma Append(a: seq<nat>, x: nat, b: seq<nat>)
    ensures a + [x] + b == a + ([x] + b)
  {}

  /** Heights listed from `h` on, when `count` are listed already and the next jump is `step`. */
  function LocatorHeights(h: nat, step: nat, count: nat): (r: seq<nat>)
    requires step >= 1
    ensures forall i :: 0 <= i < |r| ==> r[i] <= h
    decreases h
  {
    if h == 0 then [0]
    else
      var next := if h - step > 0 then h - step else 0;
      [h] + LocatorHeights(next, if count + 1 > 10 then step * 2 else step, count + 1)
  }

  /** Locator heights start at `h`, end at genesis and strictly descend. */
  lemma {:induction false} LocatorDescends(h: nat, step: nat, count: nat)
    requires step >= 1
    ensures var r := LocatorHeights(h, step, count);
            && |r| >= 1 && r[0] == h && r[|r| - 1] == 0
            && forall i, j :: 0 <= i < j < |r| ==> r[i] > r[j]
    decreases h
  {
    if h > 0 {
      var next := if h - step > 0 then h - step else 0;
      LocatorDescends(next, if count + 1 > 10 then step * 2 else step, count + 1);
    }
  }

  /** Once jumps double, all but the last two entries cost distance `step`, `2 * step`, `4 * step`, ... */
  lemma {:induction false} DoublingCost(h: nat, step: nat, count: nat)
    requires step >= 1 && count >= 10
    ensures var n := |LocatorHeights(h, step, count)|; n >= 2 ==> step * (Pow(2, n - 2) - 1) < h
    decreases h
  {
    if h > step {
      DoublingCost(h - step, step * 2, count + 1);
      var n := |LocatorHeights(h - step, step * 2, count + 1)|;
      assert step * (Pow(2, n - 1) - 1) == step * 2 * (Pow(2, n - 2) - 1) + step;
    }
  }

  lemma {:induction false} UnitCost(h: nat, count: nat)
    requires count <= 10
    ensures var n := |LocatorHeights(h, 1, count)| + count; n > 12 ==> Pow(2, n - 12) - 1 + (10 - count) < h
    decreases h
  {
    if count == 10 {
      DoublingCost(h, 1, count);
    } else if h > 0 {
      UnitCost(h - 1, count + 1);
    }
  }

  /** A locator has at most twelve entries more than the binary logarithm of the height it starts from. */
  lemma LocatorIsLogarithmic(h: nat)
    ensures var n := |LocatorHeights(h, 1, 0)|; n <= 12 || Pow(2, n - 12) + 9 < h
  {
    UnitCost(h, 0);
  }
}
