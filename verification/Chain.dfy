/**
 The block index as a tree of blocks with back and skip links, and the active chain as
 an array over it. The simple meaning of every walk is `At`: follow the back links to a
 height. A block's parent and height never change after it is indexed, so they are constants.
 */
module Chain {
  import opened Numbers
  import opened SkipHeights

  class BlockIndex {
    const pprev: BlockIndex?
    const nHeight: nat
    var pskip: BlockIndex?

    /** A new block, not yet given a skip link. */
    constructor (parent: BlockIndex?)
      ensures pprev == parent && pskip == null
      ensures nHeight == if parent == null then 0 else parent.nHeight + 1
    {
      pprev := parent;
      nHeight := if parent == null then 0 else parent.nHeight + 1;
      pskip := null;
    }

    /** Walks back to a height; with all skip links in place that takes few steps. */
    method WalkBack(height: nat, ghost index: set<BlockIndex>) returns (r: BlockIndex, ghost steps: nat)
      requires Linked(index) && this in index && height <= nHeight
      ensures r == At(index, this, height)
      ensures AllSkip(index) ==> QuadraticAt(nHeight, steps)
    {
      var walk: BlockIndex, heightWalk := this, nHeight;
      steps := 0;
      while heightWalk > height
        invariant walk in index && walk.nHeight == heightWalk >= height
        invariant At(index, walk, height) == At(index, this, height)
        invariant AllSkip(index) ==> Walked(nHeight, height, steps, heightWalk)
        decreases heightWalk
      {
        ghost var was, n := walk, steps;
        assert RootedAt(index, walk) && SkipAt(index, walk);
        if walk.pskip != null && TakesSkip(heightWalk, height) {
          AtAt(index, walk, GetSkipHeight(heightWalk), height);
          walk := walk.pskip;
          heightWalk := GetSkipHeight(heightWalk);
        } else {
          walk := walk.pprev;
          heightWalk := heightWalk - 1;
        }
        steps := steps + 1;
        if AllSkip(index) {
          assert HasSkip(was);
          WalkedNext(nHeight, height, n, was.nHeight);
        }
      }
      if AllSkip(index) { WalkedAll(nHeight, height, steps); }
      return walk, steps;
    }

    /** The ancestor at a height, by skip links where they help; null outside the range. */
    method GetAncestor(height: int, ghost index: set<BlockIndex>) returns (r: BlockIndex?)
      requires Linked(index) && this in index
      ensures r == At(index, this, height)
    {
      if height > nHeight || height < 0 { return null; }
      var walk, _ := WalkBack(height, index);
      return walk;
    }

    /** Sets the skip link; every other block keeps what holds of it. */
    method BuildSkip(ghost index: set<BlockIndex>)
      requires Linked(index) && this in index
      modifies this`pskip
      ensures Linked(index)
      ensures pprev != null ==> pskip == At(index, this, GetSkipHeight(nHeight)) && pskip != null
      ensures pprev == null ==> pskip == old(pskip)
    {
      assert RootedAt(index, this);
      if pprev != null {
        var skip := pprev.GetAncestor(GetSkipHeight(nHeight), index);
        AtInside(index, pprev, GetSkipHeight(nHeight));
        label before:
        pskip := skip;
        forall b | b in index ensures SkipAt(index, b) { assert old@before(SkipAt(index, b)); }
      }
    }
  }

  // ---------- the index ----------

  ghost predicate RootedAt(index: set<BlockIndex>, b: BlockIndex) {
    b in index ==> if b.pprev == null then b.nHeight == 0 else b.pprev in index && b.nHeight == b.pprev.nHeight + 1
  }

  /** Parents are indexed, heights count the steps from a root. */
  ghost predicate Rooted(index: set<BlockIndex>) {
    forall b | b in index :: RootedAt(index, b)
  }

  /** The ancestor at a height by back links alone. */
  ghost function At(index: set<BlockIndex>, b: BlockIndex?, height: int): (r: BlockIndex?)
    requires Rooted(index) && (b != null ==> b in index)
    decreases HeightOf(b) + 1
  {
    if b == null || height > b.nHeight || height < 0 then null
    else if height == b.nHeight then b
    else assert RootedAt(index, b); At(index, b.pprev, height)
  }

  ghost predicate SkipAt(index: set<BlockIndex>, b: BlockIndex)
    requires Rooted(index)
    reads b
  {
    b in index && b.pskip != null ==> b.pprev != null && b.pskip == At(index, b, GetSkipHeight(b.nHeight))
  }

  predicate HasSkip(b: BlockIndex)
    reads b
  {
    b.pprev != null ==> b.pskip != null
  }

  /** Every block but a root has its skip link. */
  ghost predicate AllSkip(index: set<BlockIndex>)
    reads index
  {
    forall b | b in index :: HasSkip(b)
  }

  /** Every skip link that is set leads where it should. */
  ghost predicate Linked(index: set<BlockIndex>)
    reads index
  {
    Rooted(index) && forall b | b in index :: SkipAt(index, b)
  }

  lemma {:induction false} AtInside(index: set<BlockIndex>, b: BlockIndex, height: int)
    requires Rooted(index) && b in index
    ensures At(index, b, height) != null <==> 0 <= height <= b.nHeight
    ensures At(index, b, height) != null ==> At(index, b, height) in index && At(index, b, height).nHeight == height
    decreases b.nHeight
  {
    assert RootedAt(index, b);
    if 0 <= height < b.nHeight {
      AtInside(index, b.pprev, height);
    }
  }

  /** An ancestor's ancestors are one's own. */
  lemma {:induction false} AtAt(index: set<BlockIndex>, b: BlockIndex, mid: int, low: int)
    requires Rooted(index) && b in index && 0 <= low <= mid <= b.nHeight
    ensures At(index, b, mid) != null && At(index, b, mid) in index && At(index, b, mid).nHeight == mid
    ensures At(index, At(index, b, mid), low) == At(index, b, low)
    decreases b.nHeight
  {
    assert RootedAt(index, b);
    if mid < b.nHeight {
      AtAt(index, b.pprev, mid, low);
    }
  }

  /** One more block: the tree with it has the ancestors the tree without it had. */
  lemma {:induction false} AtGrows(index: set<BlockIndex>, more: set<BlockIndex>, b: BlockIndex, height: int)
    requires Rooted(index) && Rooted(more) && index <= more && b in index
    ensures At(more, b, height) == At(index, b, height)
    decreases b.nHeight
  {
    assert RootedAt(index, b);
    if 0 <= height < b.nHeight {
      AtGrows(index, more, b.pprev, height);
    }
  }

  /** Indexes a new block on top of a known one, or as a root. */
  method AddToBlockIndex(parent: BlockIndex?, ghost index: set<BlockIndex>) returns (b: BlockIndex,
                            ghost index': set<BlockIndex>)
    requires Linked(index) && (parent != null ==> parent in index)
    ensures fresh(b) && index' == index + {b} && Linked(index')
    ensures old(AllSkip(index)) ==> AllSkip(index')
    ensures b.pprev == parent && (parent != null ==> b.pskip == At(index', b, GetSkipHeight(b.nHeight)))
    ensures Linked(index) && forall x, height | x in index :: At(index', x, height) == At(index, x, height)
  {
    b := new BlockIndex(parent);
    index' := index + {b};
    forall x | x in index' ensures RootedAt(index', x) { assert x != b ==> RootedAt(index, x); }
    forall x | x in index' ensures SkipAt(index', x) {
      if x != b {
        assert SkipAt(index, x);
        AtGrows(index, index', x, GetSkipHeight(x.nHeight));
      }
    }
    b.BuildSkip(index');
    forall x, height | x in index ensures At(index', x, height) == At(index, x, height) {
      AtGrows(index, index', x, height);
    }
  }

  function HeightOf(b: BlockIndex?): int {
    if b == null then -1 else b.nHeight
  }

  // ---------- the active chain ----------

  class ActiveChain {
    var vChain: seq<BlockIndex?>

    /** The array holds the ancestors of its last element, each at its height. */
    ghost predicate Valid(index: set<BlockIndex>)
      requires Rooted(index)
      reads this
    {
      |vChain| > 0 ==>
        && vChain[|vChain| - 1] != null && vChain[|vChain| - 1] in index
        && IsPath(index, vChain[|vChain| - 1], vChain)
    }

    constructor ()
      ensures vChain == []
    {
      vChain := [];
    }

    function Tip(): BlockIndex?
      reads this
    {
      if |vChain| > 0 then vChain[|vChain| - 1] else null
    }

    function Get(height: int): BlockIndex?
      reads this
    {
      if height < 0 || height >= |vChain| then null else vChain[height]
    }

    predicate Contains(b: BlockIndex)
      reads this
    {
      Get(b.nHeight) == b
    }

    function Height(): int
      reads this
    {
      |vChain| - 1
    }

    /** Stops at the first block that is already in place; what is below it is right as it is. */
    method SetTip(tip: BlockIndex?, ghost index: set<BlockIndex>)
      requires Rooted(index) && Valid(index) && (tip != null ==> tip in index)
      modifies this
      ensures Valid(index) && Tip() == tip
      ensures tip == null ==> vChain == []
      ensures tip != null ==> IsPath(index, tip, vChain)
    {
      if tip == null {
        vChain := [];
        return;
      }
      ghost var was := vChain;
      AtInside(index, tip, tip.nHeight);
      vChain := Resized(vChain, tip.nHeight + 1);
      var b := tip;
      while b != null && vChain[b.nHeight] != b
        invariant |vChain| == tip.nHeight + 1
        invariant b != null ==> b in index && 0 <= b.nHeight <= tip.nHeight && b == At(index, tip, b.nHeight)
        invariant Settled(index, tip, vChain, was, HeightOf(b))
        decreases HeightOf(b) + 1
      {
        SettleNext(index, tip, vChain, was, b);
        vChain := vChain[b.nHeight := b];
        b := b.pprev;
      }
      if b == null {
        AllSettled(index, tip, vChain, was);
      } else {
        StoppedInPlace(index, tip, vChain, was, b);
      }
      assert PathAt(index, tip, vChain, tip.nHeight);
    }

    /** The highest ancestor of a block in this chain; null if there is none. */
    method FindFork(block: BlockIndex?, ghost index: set<BlockIndex>) returns (r: BlockIndex?)
      requires Linked(index) && Valid(index) && (block != null ==> block in index)
      ensures r == null <==> NothingShared(index, block, Tip())
      ensures r != null ==> HighestShared(index, block, Tip(), r)
    {
      if block == null { return null; }
      r := block;
      AtInside(index, block, block.nHeight);
      AtInside(index, block, Height());
      if block.nHeight > Height() {
        r := block.GetAncestor(Height(), index);
      }
      BeyondTip(index, block, Tip(), HeightOf(r));
      while r != null && !Contains(r)
        invariant r != null ==> r in index && r == At(index, block, r.nHeight) && r.nHeight <= Height()
        invariant NothingAbove(index, block, Tip(), HeightOf(r))
        decreases HeightOf(r) + 1
      {
        assert PathAt(index, Tip(), vChain, r.nHeight);
        ParentOf(index, block, r);
        NextBelow(index, block, Tip(), r.nHeight);
        r := r.pprev;
      }
      if r == null {
        NothingAtAll(index, block, Tip());
      } else {
        assert PathAt(index, Tip(), vChain, r.nHeight);
        assert SharedAt(index, block, Tip(), r.nHeight);
      }
    }

    /** Blocks at ever longer strides back to the root, found through the chain array where possible. */
    method GetLocator(from: BlockIndex?, ghost index: set<BlockIndex>) returns (vHave: seq<BlockIndex>)
      requires Linked(index) && Valid(index) && (from != null ==> from in index)
      ensures var start := if from == null then Tip() else from;
              if start == null then vHave == [] else IsLocator(index, start, vHave)
    {
      vHave := [];
      var start := if from == null then Tip() else from;
      if start == null { return; }
      AtInside(index, start, start.nHeight);
      var b: BlockIndex, nStep := start, 1;
      while true
        invariant b in index && Located(index, start, vHave + [b]) && nStep == Stride(|vHave|)
        decreases b.nHeight
      {
        ghost var was := vHave;
        vHave := vHave + [b];
        if b.nHeight == 0 { break; }
        var nHeight := if b.nHeight - nStep > 0 then b.nHeight - nStep else 0;
        LocatedNext(index, start, was, b, nHeight);
        b := Back(b, nHeight, index);
        if |vHave| > 10 { nStep := nStep * 2; }
      }
    }

    /** The ancestor at a height, from the chain array if the block is in the chain. */
    method Back(b: BlockIndex, nHeight: nat, ghost index: set<BlockIndex>) returns (r: BlockIndex)
      requires Linked(index) && Valid(index) && b in index && nHeight <= b.nHeight
      ensures r == At(index, b, nHeight)
    {
      AtInside(index, b, nHeight);
      if Contains(b) {
        InChain(index, b, nHeight);
        r := Get(nHeight);
      } else {
        r := b.GetAncestor(nHeight, index);
      }
    }

    lemma InChain(index: set<BlockIndex>, b: BlockIndex, height: nat)
      requires Rooted(index) && Valid(index) && b in index && Contains(b) && height <= b.nHeight
      ensures Get(height) == At(index, b, height)
    {
      assert PathAt(index, Tip(), vChain, b.nHeight) && PathAt(index, Tip(), vChain, height);
      AtAt(index, Tip(), b.nHeight, height);
    }
  }

  // ---------- locators ----------

  /** How far the locator steps back from its i-th block. */
  function Stride(i: nat): (r: nat)
    ensures r > 0
  {
    if i <= 10 then 1 else Pow2(i - 10)
  }

  ghost predicate LocatedAt(index: set<BlockIndex>, start: BlockIndex, vHave: seq<BlockIndex>, i: int)
    requires Rooted(index) && start in index
  {
    && (0 <= i < |vHave| ==> vHave[i] == At(index, start, vHave[i].nHeight))
    && (0 <= i < |vHave| - 1 ==>
          && vHave[i].nHeight > 0
          && vHave[i + 1].nHeight == if vHave[i].nHeight > Stride(i) then vHave[i].nHeight - Stride(i) else 0)
  }

  /** Ancestors of a block, the block first, each a stride below the one before. */
  ghost predicate Located(index: set<BlockIndex>, start: BlockIndex, vHave: seq<BlockIndex>)
    requires Rooted(index) && start in index
  {
    |vHave| > 0 && vHave[0] == start && forall i :: LocatedAt(index, start, vHave, i)
  }

  ghost predicate IsLocator(index: set<BlockIndex>, start: BlockIndex, vHave: seq<BlockIndex>)
    requires Rooted(index) && start in index
  {
    Located(index, start, vHave) && vHave[|vHave| - 1].nHeight == 0
  }

  lemma LocatedNext(index: set<BlockIndex>, start: BlockIndex, vHave: seq<BlockIndex>, b: BlockIndex, height: nat)
    requires Rooted(index) && start in index && b in index && b.nHeight > 0 && Located(index, start, vHave + [b])
    requires height == if b.nHeight > Stride(|vHave|) then b.nHeight - Stride(|vHave|) else 0
    ensures var next := At(index, b, height);
            && next != null && next in index && next.nHeight == height && next == At(index, start, height)
            && Located(index, start, vHave + [b] + [next])
  {
    assert LocatedAt(index, start, vHave + [b], |vHave|);
    AtInside(index, start, b.nHeight);
    AtAt(index, start, b.nHeight, height);
    AtInside(index, b, height);
    var next := At(index, b, height);
    var longer := vHave + [b] + [next];
    forall i ensures LocatedAt(index, start, longer, i) { assert LocatedAt(index, start, vHave + [b], i); }
  }

  /** The least distance from the start to the i-th block, as long as that is not the root. */
  lemma {:induction false} Fallen(index: set<BlockIndex>, start: BlockIndex, vHave: seq<BlockIndex>, i: nat)
    requires Rooted(index) && start in index && Located(index, start, vHave) && i < |vHave| - 1
    ensures start.nHeight == vHave[i].nHeight + if i <= 11 then i else Pow2(i - 10) + 9
  {
    if i > 0 {
      Fallen(index, start, vHave, i - 1);
      assert LocatedAt(index, start, vHave, i - 1) && LocatedAt(index, start, vHave, i);
    }
  }

  /** Strides double, so a locator is only logarithmically long. */
  lemma LocatorIsShort(index: set<BlockIndex>, start: BlockIndex, vHave: seq<BlockIndex>)
    requires Rooted(index) && start in index && IsLocator(index, start, vHave) && |vHave| > 13
    ensures Pow2(|vHave| - 12) + 9 < start.nHeight
  {
    Fallen(index, start, vHave, |vHave| - 2);
    assert LocatedAt(index, start, vHave, |vHave| - 2);
  }

  ghost predicate PathAt(index: set<BlockIndex>, tip: BlockIndex, path: seq<BlockIndex?>, i: int)
    requires Rooted(index) && tip in index
  {
    0 <= i < |path| ==> path[i] != null && path[i] == At(index, tip, i)
  }

  /** A path holds the ancestors of its tip, one per height. */
  ghost predicate IsPath(index: set<BlockIndex>, tip: BlockIndex, path: seq<BlockIndex?>)
    requires Rooted(index) && tip in index
  {
    |path| == tip.nHeight + 1 && forall i :: PathAt(index, tip, path, i)
  }

  /** vector::resize: cuts off, or pads with null. */
  function Resized(path: seq<BlockIndex?>, n: nat): (r: seq<BlockIndex?>)
    ensures |r| == n
    ensures forall i | 0 <= i < n :: r[i] == if i < |path| then path[i] else null
  {
    if n <= |path| then path[..n] else path + seq(n - |path|, _ => null)
  }

  /** Above `done` the new path is in place; from there down nothing has been touched. */
  ghost predicate SettledAt(index: set<BlockIndex>, tip: BlockIndex, path: seq<BlockIndex?>, was: seq<BlockIndex?>,
                            done: int, i: int)
    requires Rooted(index) && tip in index
  {
    0 <= i < |path| ==>
      if i > done then path[i] != null && path[i] == At(index, tip, i)
      else path[i] == if i < |was| then was[i] else null
  }

  ghost predicate Settled(index: set<BlockIndex>, tip: BlockIndex, path: seq<BlockIndex?>, was: seq<BlockIndex?>,
                          done: int)
    requires Rooted(index) && tip in index
  {
    forall i :: SettledAt(index, tip, path, was, done, i)
  }

  lemma SettleNext(index: set<BlockIndex>, tip: BlockIndex, path: seq<BlockIndex?>, was: seq<BlockIndex?>,
                   b: BlockIndex)
    requires Rooted(index) && tip in index && Settled(index, tip, path, was, b.nHeight)
    requires b in index && b == At(index, tip, b.nHeight) && b.nHeight < |path|
    ensures Settled(index, tip, path[b.nHeight := b], was, HeightOf(b.pprev))
    ensures b.pprev != null ==>
              && b.pprev in index && b.pprev.nHeight == b.nHeight - 1
              && b.pprev == At(index, tip, b.pprev.nHeight)
  {
    ParentOf(index, tip, b);
    var path', done := path[b.nHeight := b], HeightOf(b.pprev);
    forall i ensures SettledAt(index, tip, path', was, done, i) {
      assert SettledAt(index, tip, path, was, b.nHeight, i);
    }
  }

  lemma AllSettled(index: set<BlockIndex>, tip: BlockIndex, path: seq<BlockIndex?>, was: seq<BlockIndex?>)
    requires Rooted(index) && tip in index && |path| == tip.nHeight + 1 && Settled(index, tip, path, was, -1)
    ensures IsPath(index, tip, path)
  {
    forall i ensures PathAt(index, tip, path, i) { assert SettledAt(index, tip, path, was, -1, i); }
  }

  lemma ParentOf(index: set<BlockIndex>, tip: BlockIndex, b: BlockIndex)
    requires Rooted(index) && tip in index && b in index && b == At(index, tip, b.nHeight)
    ensures if b.pprev == null then b.nHeight == 0
            else b.pprev in index && b.pprev.nHeight == b.nHeight - 1 && b.pprev == At(index, tip, b.nHeight - 1)
  {
    AtInside(index, tip, b.nHeight);
    assert RootedAt(index, b);
    if b.pprev != null {
      AtAt(index, tip, b.nHeight, b.nHeight - 1);
    }
  }

  /** A block of the old chain found in place brings all its ancestors with it. */
  lemma StoppedInPlace(index: set<BlockIndex>, tip: BlockIndex, path: seq<BlockIndex?>, was: seq<BlockIndex?>,
                       b: BlockIndex)
    requires Rooted(index) && tip in index && b in index && b == At(index, tip, b.nHeight)
    requires |path| == tip.nHeight + 1 && 0 <= b.nHeight <= tip.nHeight && path[b.nHeight] == b
    requires |was| > 0 ==> was[|was| - 1] != null && was[|was| - 1] in index && IsPath(index, was[|was| - 1], was)
    requires Settled(index, tip, path, was, b.nHeight)
    ensures IsPath(index, tip, path)
  {
    assert SettledAt(index, tip, path, was, b.nHeight, b.nHeight);
    var top := was[|was| - 1];
    forall i ensures PathAt(index, tip, path, i) {
      assert SettledAt(index, tip, path, was, b.nHeight, i);
      if 0 <= i <= b.nHeight {
        assert PathAt(index, top, was, b.nHeight) && PathAt(index, top, was, i);
        AtAt(index, top, b.nHeight, i);
        AtAt(index, tip, b.nHeight, i);
      }
    }
  }

  // ---------- common ancestors ----------

  /** Two blocks have the same ancestor at a height. */
  ghost predicate SharedAt(index: set<BlockIndex>, a: BlockIndex?, b: BlockIndex?, i: int)
    requires Rooted(index) && (a != null ==> a in index) && (b != null ==> b in index)
  {
    At(index, a, i) != null && At(index, a, i) == At(index, b, i)
  }

  ghost predicate NotSharedAbove(index: set<BlockIndex>, a: BlockIndex?, b: BlockIndex?, height: int, i: int)
    requires Rooted(index) && (a != null ==> a in index) && (b != null ==> b in index)
  {
    i > height ==> !SharedAt(index, a, b, i)
  }

  ghost predicate NothingAbove(index: set<BlockIndex>, a: BlockIndex?, b: BlockIndex?, height: int)
    requires Rooted(index) && (a != null ==> a in index) && (b != null ==> b in index)
  {
    forall i :: NotSharedAbove(index, a, b, height, i)
  }

  /** No common ancestor at any height. */
  ghost predicate NothingShared(index: set<BlockIndex>, a: BlockIndex?, b: BlockIndex?)
    requires Rooted(index) && (a != null ==> a in index) && (b != null ==> b in index)
  {
    forall i :: !SharedAt(index, a, b, i)
  }

  lemma NextBelow(index: set<BlockIndex>, a: BlockIndex?, b: BlockIndex?, height: int)
    requires Rooted(index) && (a != null ==> a in index) && (b != null ==> b in index)
    requires NothingAbove(index, a, b, height) && !SharedAt(index, a, b, height)
    ensures NothingAbove(index, a, b, height - 1)
  {
    var below := height - 1;
    forall i ensures NotSharedAbove(index, a, b, below, i) { assert NotSharedAbove(index, a, b, height, i); }
  }

  lemma NothingAtAll(index: set<BlockIndex>, a: BlockIndex?, b: BlockIndex?)
    requires Rooted(index) && (a != null ==> a in index) && (b != null ==> b in index)
    requires NothingAbove(index, a, b, -1)
    ensures NothingShared(index, a, b)
  {
    forall i ensures !SharedAt(index, a, b, i) { assert NotSharedAbove(index, a, b, -1, i); }
  }

  lemma BeyondTip(index: set<BlockIndex>, a: BlockIndex?, b: BlockIndex?, height: int)
    requires Rooted(index) && (a != null ==> a in index) && (b != null ==> b in index)
    requires height >= HeightOf(a) || height >= HeightOf(b)
    ensures NothingAbove(index, a, b, height)
  {
  }

  /** The highest block that is an ancestor of both, or one of them. */
  ghost predicate HighestShared(index: set<BlockIndex>, a: BlockIndex?, b: BlockIndex?, r: BlockIndex)
    requires Rooted(index) && (a != null ==> a in index) && (b != null ==> b in index)
  {
    && At(index, a, r.nHeight) == r && At(index, b, r.nHeight) == r
    && NothingAbove(index, a, b, r.nHeight)
  }

  /** Walks both branches down in step; on two separate trees both walks end in null together. */
  method LastCommonAncestor(a: BlockIndex, b: BlockIndex, ghost index: set<BlockIndex>) returns (r: BlockIndex?)
    requires Linked(index) && a in index && b in index
    ensures r == null <==> NothingShared(index, a, b)
    ensures r != null ==> HighestShared(index, a, b, r)
  {
    var pa: BlockIndex?, pb: BlockIndex? := a, b;
    if a.nHeight > b.nHeight {
      AtInside(index, a, b.nHeight);
      pa := a.GetAncestor(b.nHeight, index);
    } else if b.nHeight > a.nHeight {
      AtInside(index, b, a.nHeight);
      pb := b.GetAncestor(a.nHeight, index);
    }
    BeyondTip(index, a, b, pa.nHeight);
    while pa != pb && pa != null && pb != null
      invariant Level(index, a, b, pa, pb)
      decreases HeightOf(pa) + 1
    {
      LevelNext(index, a, b, pa, pb);
      pa := pa.pprev;
      pb := pb.pprev;
    }
    assert pa == pb;
    r := pa;
    if r == null {
      NothingAtAll(index, a, b);
    } else {
      assert SharedAt(index, a, b, r.nHeight);
    }
  }

  /** The two walkers stand at one height, with nothing shared above it. */
  ghost predicate Level(index: set<BlockIndex>, a: BlockIndex, b: BlockIndex, pa: BlockIndex?, pb: BlockIndex?)
    requires Rooted(index) && a in index && b in index
  {
    && (pa == null <==> pb == null)
    && (pa != null ==> pa in index && pb in index && pa.nHeight == pb.nHeight
                       && pa == At(index, a, pa.nHeight) && pb == At(index, b, pa.nHeight))
    && NothingAbove(index, a, b, HeightOf(pa))
  }

  lemma LevelNext(index: set<BlockIndex>, a: BlockIndex, b: BlockIndex, pa: BlockIndex, pb: BlockIndex)
    requires Rooted(index) && a in index && b in index && Level(index, a, b, pa, pb) && pa != pb
    ensures Level(index, a, b, pa.pprev, pb.pprev)
  {
    ParentOf(index, a, pa);
    ParentOf(index, b, pb);
    RootedTogether(index, pa, pb);
    NextBelow(index, a, b, pa.nHeight);
  }

  lemma RootedTogether(index: set<BlockIndex>, a: BlockIndex, b: BlockIndex)
    requires Rooted(index) && a in index && b in index && a.nHeight == b.nHeight
    ensures a.pprev == null <==> b.pprev == null
  {
    assert RootedAt(index, a) && RootedAt(index, b);
  }
}
