/** The tree of block headers with its skip list, and the active chain (src/blockindex.cpp, src/chain.cpp,
  * src/chain.h).
  */
module Chain {
  import opened Numerals
  import opened SkipList

  // ---------- the tree ----------

  class BlockIndex {
    const hash: nat
    const pprev: BlockIndex?
    const nHeight: nat
    var pskip: BlockIndex?

    /** All blocks before this one, from the first on. */
    ghost const below: seq<BlockIndex>

    constructor (hash: nat, prev: BlockIndex?)
      requires prev != null ==> Linked(prev) && SkipsOk(prev)
      ensures Linked(this) && SkipsOk(this) && this.hash == hash && pprev == prev
      ensures Path(this) == (if prev == null then [] else Path(prev)) + [this]
      ensures pskip == if prev == null then null else Path(this)[GetSkipHeight(nHeight)]
      ensures prev == null || old(Built(prev)) ==> Built(this)
    {
      this.hash := hash;
      pprev := prev;
      nHeight := if prev == null then 0 else prev.nHeight + 1;
      below := if prev == null then [] else prev.below + [prev];
      pskip := null;
      new;
      NewIsLinked(this);
      BuildSkip();
    }

    /** The block at the given height below this one, as walking back one at a time would find it. */
    method GetAncestor(height: int) returns (r: BlockIndex?)
      requires Linked(this) && SkipsOk(this)
      ensures r == if 0 <= height <= nHeight then Path(this)[height] else null
    {
      ghost var hops;
      r, hops := Search(height);
    }

    /** The same, and how many links it follows if every block has its skip link. */
    method Search(height: int) returns (r: BlockIndex?, ghost hops: nat)
      requires Linked(this) && SkipsOk(this)
      ensures r == if 0 <= height <= nHeight then Path(this)[height] else null
      ensures Built(this) ==> FewFor(nHeight, hops)
    {
      hops := 0;
      if height > nHeight || height < 0 {
        NoHops(nHeight);
        return null, 0;
      }
      ghost var path := Path(this);
      var walk: BlockIndex := this;
      var heightWalk: nat := nHeight;
      while heightWalk > height
        invariant height <= heightWalk <= nHeight && walk == path[heightWalk]
        invariant Built(this) ==> hops + Hops(heightWalk, height) == Hops(nHeight, height)
      {
        assert LinkedAt(path, heightWalk) && SkipAt(path, heightWalk);
        ghost var before := heightWalk;
        hops := hops + 1;
        var heightSkip := GetSkipHeight(heightWalk);
        var heightSkipPrev := GetSkipHeight(heightWalk - 1);
        if walk.pskip != null
           && (heightSkip == height
               || (heightSkip > height && !(heightSkipPrev < heightSkip - 2 && heightSkipPrev >= height))) {
          walk, heightWalk := walk.pskip, heightSkip;
        } else {
          walk, heightWalk := walk.pprev, heightWalk - 1;
        }
        if Built(this) { OneHop(before, height, heightWalk); }
      }
      r := walk;
      FewHops(nHeight, height);
    }

    method BuildSkip()
      requires Linked(this) && (pprev != null ==> SkipsOk(pprev)) && pskip == null
      modifies this`pskip
      ensures SkipsOk(this) && pskip == if pprev == null then null else Path(this)[GetSkipHeight(nHeight)]
    {
      ghost var path := Path(this);
      if pprev != null {
        BackOne(this);
        assert this !in Path(pprev) by { NotBelowItself(this); }
        var skip := pprev.GetAncestor(GetSkipHeight(nHeight));
        label before:
        pskip := skip;
        forall k | 0 <= k < |path| ensures SkipAt(path, k) {
          if k < nHeight {
            assert path[k] == Path(pprev)[k] != this;
            assert old@before(SkipAt(Path(pprev), k));
          }
        }
      }
    }
  }

  /** All blocks from the first one to b. */
  ghost function Path(b: BlockIndex): seq<BlockIndex> { b.below + [b] }

  ghost predicate LinkedAt(path: seq<BlockIndex>, k: nat)
    requires k < |path|
  {
    && path[k].nHeight == k && path[k].below == path[..k]
    && path[k].pprev == if k == 0 then null else path[k - 1]
  }

  ghost predicate Linked(b: BlockIndex) {
    && b.nHeight == |b.below| && b.pprev == (if b.below == [] then null else b.below[|b.below| - 1])
    && forall k :: 0 <= k < |Path(b)| ==> LinkedAt(Path(b), k)
  }

  /** The skip link, once built, leads to the block at the skip height. */
  ghost predicate SkipAt(path: seq<BlockIndex>, k: nat)
    requires k < |path|
    reads path[k]
  {
    path[k].pskip != null ==> k > 0 && path[k].pskip == path[GetSkipHeight(k)]
  }

  /** Every block but the first has its skip link. */
  ghost predicate Built(b: BlockIndex)
    reads Path(b)
  {
    forall k :: 0 < k < |Path(b)| ==> Path(b)[k].pskip != null
  }

  ghost predicate SkipsOk(b: BlockIndex)
    reads Path(b)
  {
    forall k :: 0 <= k < |Path(b)| ==> SkipAt(Path(b), k)
  }

  lemma NewIsLinked(b: BlockIndex)
    requires b.pprev == null ==> b.nHeight == 0 && b.below == []
    requires b.pprev != null ==> Linked(b.pprev) && b.nHeight == b.pprev.nHeight + 1 && b.below == Path(b.pprev)
    ensures Linked(b)
  {
    var path := Path(b);
    if b.pprev != null {
      var before := Path(b.pprev);
      assert LinkedAt(before, |before| - 1);
      forall k | 0 <= k < |path| ensures LinkedAt(path, k) {
        if k < |before| {
          assert LinkedAt(before, k) && path[..k] == before[..k];
        } else {
          assert path[..k] == before;
        }
      }
    }
  }

  /** Every block on a path has the path up to it as its own. */
  lemma PathUpTo(b: BlockIndex, k: nat)
    requires Linked(b) && k < |Path(b)|
    ensures Path(b)[k].nHeight == k && Path(Path(b)[k]) == Path(b)[..k + 1] && Linked(Path(b)[k])
  {
    var path := Path(b);
    assert LinkedAt(path, k);
    assert Path(path[k]) == path[..k + 1];
    var front := path[..k + 1];
    forall j | 0 <= j < |front| ensures LinkedAt(front, j) { assert LinkedAt(path, j) && front[..j] == path[..j]; }
  }

  lemma BackOne(b: BlockIndex)
    requires Linked(b) && b.pprev != null
    ensures Linked(b.pprev) && Path(b.pprev) == b.below && b.nHeight == |b.below| == b.pprev.nHeight + 1
  {
    assert LinkedAt(Path(b), |b.below|);
    PathUpTo(b, |b.below| - 1);
    assert Path(b)[..|b.below|] == b.below;
  }

  lemma NotBelowItself(b: BlockIndex)
    requires Linked(b)
    ensures b !in b.below
  {
    assert LinkedAt(Path(b), |b.below|);
    forall k | 0 <= k < |b.below| ensures b.below[k] != b { assert LinkedAt(Path(b), k); }
  }

  lemma SkipsUpTo(b: BlockIndex, k: nat)
    requires Linked(b) && SkipsOk(b) && k < |Path(b)|
    ensures SkipsOk(Path(b)[k])
  {
    PathUpTo(b, k);
    var front := Path(b)[..k + 1];
    forall j | 0 <= j < |front| ensures SkipAt(front, j) { assert SkipAt(Path(b), j); }
  }

  // ---------- two paths ----------

  /** Paths that meet at a height are the same up to there. */
  lemma MeetBelow(a: BlockIndex, b: BlockIndex, k: nat, j: nat)
    requires Linked(a) && Linked(b) && j <= k < |Path(a)| && k < |Path(b)| && Path(a)[k] == Path(b)[k]
    ensures Path(a)[j] == Path(b)[j]
  {
    PathUpTo(a, k);
    PathUpTo(b, k);
    assert Path(a)[..k + 1][j] == Path(b)[..k + 1][j];
  }

  /** A block on both paths is at the same place of both. */
  lemma SamePlace(a: BlockIndex, b: BlockIndex, j: nat, k: nat)
    requires Linked(a) && Linked(b) && j < |Path(a)| && k < |Path(b)| && Path(a)[j] == Path(b)[k]
    ensures j == k
  {
    PathUpTo(a, j);
    PathUpTo(b, k);
  }

  /** r is where the two paths part: they agree exactly up to its height. */
  ghost predicate PartAt(a: BlockIndex, b: BlockIndex, r: BlockIndex?) {
    && (r != null ==> r.nHeight < |Path(a)| && r.nHeight < |Path(b)| && Path(a)[r.nHeight] == r == Path(b)[r.nHeight])
    && forall k :: 0 <= k < |Path(a)| && k < |Path(b)| ==> (Path(a)[k] == Path(b)[k] <==> r != null && k <= r.nHeight)
  }

  /** The paths do not meet above height h. */
  ghost predicate ApartAbove(a: BlockIndex, b: BlockIndex, h: int) {
    forall k :: 0 <= k < |Path(a)| && k < |Path(b)| && k > h ==> Path(a)[k] != Path(b)[k]
  }

  lemma ApartFrom(a: BlockIndex, b: BlockIndex, h: nat)
    requires Linked(a) && Linked(b) && h < |Path(a)| && h < |Path(b)| && Path(a)[h] != Path(b)[h]
    ensures ApartAbove(a, b, h - 1)
  {
    forall k | 0 <= k < |Path(a)| && k < |Path(b)| && k > h - 1 ensures Path(a)[k] != Path(b)[k] {
      if Path(a)[k] == Path(b)[k] { MeetBelow(a, b, k, h); }
    }
  }

  lemma Parting(a: BlockIndex, b: BlockIndex, h: int)
    requires Linked(a) && Linked(b) && -1 <= h < |Path(a)| && h < |Path(b)| && ApartAbove(a, b, h)
    requires h >= 0 ==> Path(a)[h] == Path(b)[h]
    ensures PartAt(a, b, if h >= 0 then Path(a)[h] else null)
  {
    if h >= 0 {
      PathUpTo(a, h);
      forall k | 0 <= k <= h ensures Path(a)[k] == Path(b)[k] { MeetBelow(a, b, h, k); }
    }
  }

  /** Where a walk down two paths at once is. */
  ghost predicate Abreast(a: BlockIndex, b: BlockIndex, pa: BlockIndex?, pb: BlockIndex?, h: int) {
    && -1 <= h < |Path(a)| && h < |Path(b)| && ApartAbove(a, b, h)
    && pa == (if h >= 0 then Path(a)[h] else null) && pb == if h >= 0 then Path(b)[h] else null
  }

  /** The last block that two blocks have in common, or null if their trees have different first blocks. */
  method LastCommonAncestor(a: BlockIndex, b: BlockIndex) returns (r: BlockIndex?)
    requires Linked(a) && Linked(b) && SkipsOk(a) && SkipsOk(b)
    ensures PartAt(a, b, r)
  {
    var pa, pb: BlockIndex? := a, b;
    if a.nHeight > b.nHeight {
      pa := a.GetAncestor(b.nHeight);
    } else if b.nHeight > a.nHeight {
      pb := b.GetAncestor(a.nHeight);
    }
    ghost var h: int := if a.nHeight > b.nHeight then b.nHeight else a.nHeight;
    while pa != pb && pa != null && pb != null
      invariant Abreast(a, b, pa, pb, h)
      decreases h
    {
      assert SkipAt(Path(a), h) && SkipAt(Path(b), h);
      PathUpTo(a, h);
      PathUpTo(b, h);
      if pa.pskip != null && pb.pskip != null && pa.pskip != pb.pskip {
        pa, pb := pa.pskip, pb.pskip;
        h := GetSkipHeight(h);
        ApartFrom(a, b, h);
        PathUpTo(a, h);
        PathUpTo(b, h);
        assert pa.nHeight == pb.nHeight;
      } else {
        ApartFrom(a, b, h);
        assert LinkedAt(Path(a), h) && LinkedAt(Path(b), h);
        pa, pb := pa.pprev, pb.pprev;
        h := h - 1;
      }
    }
    assert pa == pb;
    Parting(a, b, h);
    r := pa;
  }

  method AreOnTheSameFork(a: BlockIndex, b: BlockIndex) returns (r: bool)
    requires Linked(a) && Linked(b) && SkipsOk(a) && SkipsOk(b)
    ensures r <==> Path(a) <= Path(b) || Path(b) <= Path(a)
  {
    var pa, pb: BlockIndex? := a, b;
    if a.nHeight > b.nHeight {
      pa := a.GetAncestor(b.nHeight);
      PathUpTo(a, b.nHeight);
    } else if b.nHeight > a.nHeight {
      pb := b.GetAncestor(a.nHeight);
      PathUpTo(b, a.nHeight);
    }
    r := pa == pb;
    SameForkIff(a, b);
  }

  lemma SameForkIff(a: BlockIndex, b: BlockIndex)
    requires Linked(a) && Linked(b)
    ensures var h := if a.nHeight > b.nHeight then b.nHeight else a.nHeight;
            Path(a)[h] == Path(b)[h] <==> Path(a) <= Path(b) || Path(b) <= Path(a)
  {
    var h := if a.nHeight > b.nHeight then b.nHeight else a.nHeight;
    if Path(a)[h] == Path(b)[h] {
      forall k | 0 <= k <= h ensures Path(a)[k] == Path(b)[k] { MeetBelow(a, b, h, k); }
    }
  }

  // ---------- the active chain ----------

  class CChain {
    var vChain: seq<BlockIndex?>

    /** Empty, or exactly the path of its last block. */
    ghost predicate Valid()
      reads this
    {
      vChain == [] || IsPath(vChain)
    }

    constructor ()
      ensures Valid() && vChain == []
    {
      vChain := [];
    }

    function At(height: int): BlockIndex?
      reads this
    {
      if height < 0 || height >= |vChain| then null else vChain[height]
    }

    function Height(): int
      reads this
    {
      |vChain| - 1
    }

    predicate Contains(b: BlockIndex)
      reads this
    {
      At(b.nHeight) == b
    }

    function Next(b: BlockIndex): BlockIndex?
      reads this
    {
      if !Contains(b) then null else At(b.nHeight + 1)
    }

    lemma ContainsIff(b: BlockIndex)
      requires Valid()
      ensures Contains(b) <==> b in vChain
    {
      if b in vChain {
        var k :| 0 <= k < |vChain| && vChain[k] == b;
        PathUpTo(vChain[|vChain| - 1], k);
      }
    }

    /** The next block of the chain is the one whose predecessor is the given block. */
    lemma NextIff(b: BlockIndex, c: BlockIndex)
      requires Valid() && b in vChain
      ensures Next(b) == c <==> c in vChain && c.pprev == b
    {
      ContainsIff(b);
      ContainsIff(c);
      var tip := vChain[|vChain| - 1];
      if Next(b) == c {
        assert LinkedAt(Path(tip), b.nHeight + 1);
      }
      if c in vChain && c.pprev == b {
        assert LinkedAt(Path(tip), c.nHeight);
        PathUpTo(tip, c.nHeight - 1);
      }
    }

    /** Makes the chain end in the given block, replacing only what is different. */
    method SetTip(block: BlockIndex)
      requires Valid() && Linked(block)
      modifies this
      ensures Valid() && vChain == Path(block)
    {
      ghost var was, path := vChain, Path(block);
      var index: BlockIndex? := block;
      vChain := Resize(vChain, block.nHeight + 1);
      ghost var h: int := block.nHeight;
      SettingBegun(was, block, vChain);
      while index != null && vChain[index.nHeight] != index
        invariant Setting(was, path, vChain, index, h)
        decreases h
      {
        SettingStep(was, block, vChain, index, h);
        vChain := vChain[index.nHeight := index];
        index := index.pprev;
        h := h - 1;
      }
      SettingDone(was, block, vChain, index, h);
    }

    /** The highest ancestor of the given block on the chain. */
    method FindFork(b: BlockIndex?) returns (r: BlockIndex?)
      requires Valid() && (b != null ==> Linked(b) && SkipsOk(b))
      ensures b == null ==> r == null
      ensures b != null && r == null ==> forall k :: 0 <= k < |Path(b)| ==> Path(b)[k] !in vChain
      ensures b != null && r != null ==> r.nHeight < |Path(b)| && Path(b)[r.nHeight] == r
      ensures b != null && r != null ==> forall k :: 0 <= k < |Path(b)| ==> (Path(b)[k] in vChain <==> k <= r.nHeight)
    {
      if b == null {
        return null;
      }
      ghost var path := Path(b);
      var index: BlockIndex? := b;
      if b.nHeight > Height() {
        index := b.GetAncestor(Height());
      }
      ghost var h: int := if b.nHeight > Height() then Height() else b.nHeight;
      OffAbove(vChain, b, h);
      while index != null && !Contains(index)
        invariant -1 <= h < |path| && index == (if h >= 0 then path[h] else null)
        invariant forall k :: 0 <= k < |path| && k > h ==> path[k] !in vChain
        decreases h
      {
        assert LinkedAt(path, h);
        ContainsIff(index);
        index := index.pprev;
        h := h - 1;
      }
      if index != null {
        PathUpTo(b, h);
        ContainsIff(index);
        OnBelow(vChain, b, h);
      }
      r := index;
    }
  }

  /** A vector that is the path of its last block. */
  ghost predicate IsPath(v: seq<BlockIndex?>) {
    && v != [] && v[|v| - 1] != null && Linked(v[|v| - 1]) && v == Path(v[|v| - 1])
  }

  function Resize(v: seq<BlockIndex?>, n: nat): (r: seq<BlockIndex?>)
    ensures |r| == n && forall k :: 0 <= k < n ==> r[k] == if k < |v| then v[k] else null
  {
    if n <= |v| then v[..n] else v + seq(n - |v|, _ => null)
  }

  /** Everything above height h is set; everything up to it is as it was. */
  ghost predicate Setting(was: seq<BlockIndex?>, path: seq<BlockIndex>, v: seq<BlockIndex?>, index: BlockIndex?,
                          h: int)
  {
    && -1 <= h < |path| == |v| && index == (if h >= 0 then path[h] else null) && (index != null ==> index.nHeight == h)
    && forall k :: 0 <= k < |v| ==> v[k] == if k > h then path[k] else if k < |was| then was[k] else null
  }

  lemma SettingBegun(was: seq<BlockIndex?>, block: BlockIndex, v: seq<BlockIndex?>)
    requires Linked(block) && v == Resize(was, block.nHeight + 1)
    ensures Setting(was, Path(block), v, block, block.nHeight)
  {
  }

  lemma SettingStep(was: seq<BlockIndex?>, block: BlockIndex, v: seq<BlockIndex?>, index: BlockIndex?, h: int)
    requires Linked(block) && Setting(was, Path(block), v, index, h) && index != null
    ensures Setting(was, Path(block), v[h := index], index.pprev, h - 1)
  {
    assert LinkedAt(Path(block), h) && (h > 0 ==> LinkedAt(Path(block), h - 1));
  }

  /** Stopping where the old chain already holds the right block leaves nothing wrong below. */
  lemma SettingDone(was: seq<BlockIndex?>, block: BlockIndex, v: seq<BlockIndex?>, index: BlockIndex?, h: int)
    requires (was == [] || IsPath(was)) && Linked(block) && Setting(was, Path(block), v, index, h)
    requires index != null ==> v[index.nHeight] == index
    ensures v == Path(block)
  {
    if index != null {
      var tip := was[|was| - 1];
      forall k | 0 <= k <= h ensures v[k] == Path(block)[k] { MeetBelow(tip, block, h, k); }
    }
  }

  lemma OffAbove(v: seq<BlockIndex?>, b: BlockIndex, h: int)
    requires (v == [] || IsPath(v)) && Linked(b) && h >= if b.nHeight > |v| - 1 then |v| - 1 else b.nHeight
    ensures forall k :: 0 <= k < |Path(b)| && k > h ==> Path(b)[k] !in v
  {
    forall k, j | 0 <= k < |Path(b)| && k > h && 0 <= j < |v| ensures Path(b)[k] != v[j] {
      PathUpTo(b, k);
      PathUpTo(v[|v| - 1], j);
    }
  }

  lemma OnBelow(v: seq<BlockIndex?>, b: BlockIndex, h: nat)
    requires IsPath(v) && Linked(b) && h < |Path(b)| && Path(b)[h] in v
    ensures forall k :: 0 <= k <= h ==> Path(b)[k] in v
  {
    var tip := v[|v| - 1];
    var j :| 0 <= j < |v| && v[j] == Path(b)[h];
    SamePlace(tip, b, j, h);
    forall k | 0 <= k <= h ensures Path(b)[k] in v {
      MeetBelow(tip, b, h, k);
      assert v[k] == Path(b)[k];
    }
  }

  // ---------- locators ----------

  /** The heights in a locator: n of them are there already, and the next is h. */
  function LocatorHeights(h: nat, step: nat, n: nat): seq<nat>
    requires step > 0
    decreases h
  {
    if h == 0 then [0]
    else [h] + LocatorHeights(if h > step then h - step else 0, if n + 1 > 10 then 2 * step else step, n + 1)
  }

  /** From the block itself down to the first one, without a repetition. */
  lemma {:induction false} LocatorFalls(h: nat, step: nat, n: nat)
    requires step > 0
    ensures var l := LocatorHeights(h, step, n);
            l[0] == h && l[|l| - 1] == 0 && forall i, j :: 0 <= i < j < |l| ==> l[i] > l[j]
    decreases h
  {
    if h > 0 {
      var h', step' := if h > step then h - step else 0, if n + 1 > 10 then 2 * step else step;
      LocatorFalls(h', step', n + 1);
      var l := LocatorHeights(h', step', n + 1);
      forall j | 0 <= j < |l| ensures h > l[j] { assert j == 0 || l[0] > l[j]; }
    }
  }

  /** The block itself and the ten before it are all there. */
  lemma {:induction false} LocatorDense(h: nat, n: nat, i: nat)
    requires n + i <= 10 && i <= h
    ensures i < |LocatorHeights(h, 1, n)| && LocatorHeights(h, 1, n)[i] == h - i
    decreases i
  {
    if i > 0 { LocatorDense(h - 1, n + 1, i - 1); }
  }

  /** How far a locator goes back after entry i: one block at a time for ten entries, then twice as far every time. */
  function LocatorGap(i: nat): nat { Pow(2, if i <= 10 then 0 else i - 10) }

  lemma {:induction false} LocatorGaps(h: nat, step: nat, n: nat, i: nat)
    requires step == LocatorGap(n) > 0 && i + 1 < |LocatorHeights(h, step, n)|
    ensures var l := LocatorHeights(h, step, n);
            l[i] > 0 && l[i + 1] == if l[i] > LocatorGap(n + i) then l[i] - LocatorGap(n + i) else 0
    decreases h
  {
    var h', step' := if h > step then h - step else 0, if n + 1 > 10 then 2 * step else step;
    assert step' == LocatorGap(n + 1);
    var l := LocatorHeights(h', step', n + 1);
    assert LocatorHeights(h, step, n) == [h] + l;
    if i == 0 {
      assert l[0] == h';
    } else {
      LocatorGaps(h', step', n + 1, i - 1);
    }
  }

  lemma {:induction false} LocatorTail(h: nat, step: nat, n: nat, k: nat)
    requires step > 0 && n >= 10 && h < step * Pow(2, k)
    ensures |LocatorHeights(h, step, n)| <= k + 2
    decreases k
  {
    if h > 0 && k > 0 {
      assert step * Pow(2, k) == 2 * step * Pow(2, k - 1);
      PowPositive(2, k - 1);
      LocatorTail(if h > step then h - step else 0, 2 * step, n + 1, k - 1);
    } else if h > 0 {
      assert step * Pow(2, 0) == step;
    }
  }

  /** A chain of fewer than 2^k blocks needs at most k + 12 entries. */
  lemma {:induction false} LocatorShort(h: nat, n: nat, k: nat)
    requires n <= 10 && h < Pow(2, k)
    ensures |LocatorHeights(h, 1, n)| <= k + 12 - n
    decreases 10 - n
  {
    if n == 10 {
      LocatorTail(h, 1, n, k);
    } else if h > 0 {
      LocatorShort(h - 1, n + 1, k);
    }
  }

  /** The hashes of the blocks at the locator heights. */
  method LocatorEntries(block: BlockIndex?) returns (have: seq<nat>)
    requires block != null ==> Linked(block) && SkipsOk(block)
    ensures block == null ==> have == []
    ensures block != null ==>
              var heights := LocatorHeights(block.nHeight, 1, 0);
              |have| == |heights| && forall k :: 0 <= k < |have| ==> EntryAt(block, heights[k], have[k])
  {
    have := [];
    if block == null {
      return;
    }
    ghost var heights := LocatorHeights(block.nHeight, 1, 0);
    var index: BlockIndex := block;
    var step: nat := 1;
    while true
      invariant Locating(block, heights, have, index, step)
      decreases index.nHeight
    {
      LocatingNext(block, heights, have, index, step);
      have := have + [index.hash];
      if index.nHeight == 0 {
        break;
      }
      var height := if index.nHeight > step then index.nHeight - step else 0;
      SkipsUpTo(block, index.nHeight);
      index := index.GetAncestor(height);
      if |have| > 10 {
        step := step * 2;
      }
    }
  }

  ghost predicate EntryAt(block: BlockIndex, height: nat, hash: nat) {
    height < |Path(block)| && Path(block)[height].hash == hash
  }

  /** The entries so far are right, and the rest of the heights is still to come. */
  ghost predicate Locating(block: BlockIndex, heights: seq<nat>, have: seq<nat>, index: BlockIndex, step: nat) {
    && step > 0 && index.nHeight < |Path(block)| && Path(block)[index.nHeight] == index
    && |have| <= |heights| && heights[|have|..] == LocatorHeights(index.nHeight, step, |have|)
    && forall k :: 0 <= k < |have| ==> EntryAt(block, heights[k], have[k])
  }

  lemma LocatingNext(block: BlockIndex, heights: seq<nat>, have: seq<nat>, index: BlockIndex, step: nat)
    requires Linked(block) && Locating(block, heights, have, index, step)
    ensures |have| < |heights| && EntryAt(block, heights[|have|], index.hash)
    ensures index.nHeight == 0 ==> |heights| == |have| + 1
    ensures Linked(index) && Path(index) == Path(block)[..index.nHeight + 1]
    ensures index.nHeight > 0 ==>
              var height := if index.nHeight > step then index.nHeight - step else 0;
              && Path(block)[height].nHeight == height
              && Locating(block, heights, have + [index.hash], Path(block)[height],
                          if |have| + 1 > 10 then 2 * step else step)
  {
    PathUpTo(block, index.nHeight);
    var rest := heights[|have|..];
    assert rest[0] == heights[|have|];
    if index.nHeight > 0 {
      var height := if index.nHeight > step then index.nHeight - step else 0;
      PathUpTo(block, height);
      assert rest[1..] == heights[|have| + 1..];
    }
  }
}
