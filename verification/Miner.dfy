/**
 The block assembler: packages of mempool transactions and their ancestors are chosen
 greedily by score, with cached totals standing in for what is left of each package.
 */
module Miner {
  import opened Mempools
  import opened PackageCache
  import opened PackageFees
  import opened PackageScore
  import opened PackageSelection
  import opened Numbers

  const MAX_BLOCK_WEIGHT := 4000000

  // ---------- the order within a block ----------

  /** No duplicates, and every transaction comes after all of its ancestors. */
  ghost predicate Ordered(m: Mempool, block: seq<Tx>) {
    forall i :: OrderedAt(m, block, i)
  }

  ghost predicate OrderedAt(m: Mempool, block: seq<Tx>, i: nat) {
    i < |block| ==> block[i] !in block[..i] && forall a | a in m.Ancestors(block[i]) :: a in block[..i]
  }

  ghost predicate SameElements(s: seq<Tx>, t: set<Tx>) {
    forall x :: SameAt(s, t, x)
  }

  predicate SameAt(s: seq<Tx>, t: set<Tx>, x: Tx) {
    x in s <==> x in t
  }

  /** Sorted strictly, with no two the same. */
  ghost predicate Sorted(m: Mempool, s: seq<Tx>) {
    forall i, j :: SortedAt(m, s, i, j)
  }

  predicate SortedAt(m: Mempool, s: seq<Tx>, i: nat, j: nat) {
    i < j < |s| ==> s[i] != s[j] && !Before(m, s[j], s[i])
  }

  predicate Before(m: Mempool, a: Tx, b: Tx) {
    if m.At(a).countAnc != m.At(b).countAnc then m.At(a).countAnc < m.At(b).countAnc
        else m.At(a).txidRank < m.At(b).txidRank
  }

  method FirstOf(m: Mempool, s: set<Tx>) returns (x: Tx)
    requires s != {}
    ensures x in s && forall y | y in s :: !Before(m, y, x)
  {
    x :| x in s;
    var rest := s - {x};
    while rest != {}
      invariant x in s && rest <= s
      invariant forall y | y in s && y !in rest :: !Before(m, y, x)
    {
      var y :| y in rest;
      rest := rest - {y};
      if Before(m, y, x) { x := y; }
    }
  }

  /** The package sorted by ancestor count, ties broken by transaction id. */
  method SortForBlock(m: Mempool, package: set<Tx>) returns (sorted: seq<Tx>)
    ensures SameElements(sorted, package) && |sorted| == |package| && Sorted(m, sorted)
  {
    sorted := [];
    var rest := package;
    while rest != {}
      invariant rest <= package && forall x :: x in sorted <==> x in package && x !in rest
      invariant |sorted| + |rest| == |package|
      invariant forall i, j | 0 <= i < j < |sorted| :: sorted[i] != sorted[j] && !Before(m, sorted[j], sorted[i])
      invariant forall i, y | 0 <= i < |sorted| && y in rest :: sorted[i] != y && !Before(m, y, sorted[i])
    {
      var x := FirstOf(m, rest);
      assert forall y :: y in sorted + [x] <==> y in sorted || y == x;
      sorted, rest := sorted + [x], rest - {x};
    }
  }

  // ---------- the assembler ----------

  /** The included set is closed under ancestors, and the block lists it in a valid order. */
  ghost predicate IsBlock(m: Mempool, vtx: seq<Tx>, inBlock: set<Tx>) {
    Closed(m, inBlock) && Ordered(m, vtx) && SameElements(vtx, inBlock)
  }

  /** The counters, with what is reserved for the coinbase. */
  ghost predicate Accounts(m: Mempool, inBlock: set<Tx>, weight: int, sigops: int, fees: int) {
    && weight == 4000 + m.Sum(Weight, inBlock)
    && sigops == 400 + m.Sum(SigOps, inBlock)
    && fees == m.Sum(Fee, inBlock)
  }

  predicate Listed(m: Mempool, vtx: seq<Tx>, fees: seq<int>, sigops: seq<int>) {
    && |fees| == |sigops| == |vtx|
    && forall i | 0 <= i < |vtx| :: fees[i] == m.Get(Fee, vtx[i]) && sigops[i] == m.Get(SigOps, vtx[i])
  }

  lemma IsBlockAppend(m: Mempool, vtx: seq<Tx>, inBlock: set<Tx>, t: Tx)
    requires IsBlock(m, vtx, inBlock) && t in m.entries && t !in inBlock && m.Ancestors(t) <= inBlock
    ensures IsBlock(m, vtx + [t], inBlock + {t})
  {
    assert SameAt(vtx, inBlock, t);
    forall a | a in m.Ancestors(t) ensures a in vtx { assert SameAt(vtx, inBlock, a); }
    OrderedAppend(m, vtx, t);
    forall x ensures ClosedAt(m, inBlock + {t}, inBlock + {t}, x) && SameAt(vtx + [t], inBlock + {t}, x) {
      assert ClosedAt(m, inBlock, inBlock, x) && SameAt(vtx, inBlock, x);
    }
  }

  lemma AccountsAppend(m: Mempool, inBlock: set<Tx>, weight: int, sigops: int, fees: int, t: Tx)
    requires Accounts(m, inBlock, weight, sigops, fees) && t !in inBlock
    ensures Accounts(m, inBlock + {t}, weight + m.Get(Weight, t), sigops + m.Get(SigOps, t), fees + m.Get(Fee, t))
  {
    m.SumAdd(Weight, inBlock, t);
    m.SumAdd(SigOps, inBlock, t);
    m.SumAdd(Fee, inBlock, t);
  }

  /** The mempool's index by ancestor score: no entry comes twice or is better than an earlier one. */
  ghost predicate ByScore(m: Mempool, order: seq<Tx>) {
    forall i, j :: ByScoreAt(m, order, i, j)
  }

  predicate ByScoreAt(m: Mempool, order: seq<Tx>, i: nat, j: nat) {
    i < j < |order| ==>
      order[i] != order[j] && !Better(m, order[j], Whole(m, order[j]), order[i], Whole(m, order[i]))
  }

  /** If t is among those looked at, it is included, cached, failed or passed over; only those are passed over. */
  predicate SettledAt(looked: seq<Tx>, s: State, t: Tx) {
    (t in looked ==> t in s.inBlock || t in s.mods || t in s.lost || t in s.passed) && (t in s.passed ==> t in looked)
  }

  ghost predicate Settled(looked: seq<Tx>, s: State) {
    forall t :: SettledAt(looked, s, t)
  }

  /** The state in which everything that depends on a block has been told of it. */
  ghost predicate IsStart(m: Mempool, inBlock: set<Tx>, s: State) {
    exists first :: Lists(first, inBlock) && s == Started(m, inBlock, first)
  }

  /** If the best candidate pays too little, no candidate scores above its fee rate. */
  lemma CheapIsHighest(m: Mempool, s: State, c: Tx, u: Tx)
    requires m.Valid() && Consistent(m, s) && Best(m, s, c) && Candidate(m, s, u)
    ensures var e := Entry(m, s.mods, c); RateAtMost(Score(m, u, Entry(m, s.mods, u)), Rate(e.modFees, e.size))
  {
    var e, f := Entry(m, s.mods, c), Entry(m, s.mods, u);
    assert NoBetterAt(m, s, c, u);
    CandidateSized(m, s, c);
    CandidateSized(m, s, u);
    ScoreIsLower(m, c, e);
    ScoreIsLower(m, u, f);
    NotBetter(m, c, e, u, f);
    RateTrans(Score(m, u, f), Score(m, c, e), Rate(e.modFees, e.size));
  }

  class BlockAssembler {
    const m: Mempool
    const order: seq<Tx>                 // the mempool by descending ancestor score
    const nBlockMaxWeight: nat
    const nSatoshisPerK: int             // blockMinFeeRate
    const fIncludeWitness: bool

    var vtx: seq<Tx>                     // without the coinbase
    var vTxFees: seq<int>
    var vTxSigOpsCost: seq<int>
    var inBlock: set<Tx>
    var nBlockWeight: int
    var nBlockTx: int
    var nBlockSigOpsCost: int
    var nFees: int

    /** The block so far is a valid prefix and all counters are what they count. */
    ghost predicate Valid()
      reads this
    {
      && m.Valid() && SameElements(order, m.entries.Keys) && ByScore(m, order)
      && nBlockTx == |vtx|
      && IsBlock(m, vtx, inBlock)
      && Accounts(m, inBlock, nBlockWeight, nBlockSigOpsCost, nFees)
      && Listed(m, vtx, vTxFees, vTxSigOpsCost)
    }

    /** Whatever was added left the block under its limits. */
    predicate WithinLimits()
      reads this
    {
      inBlock == {} || (nBlockWeight < nBlockMaxWeight && nBlockSigOpsCost < MAX_BLOCK_SIGOPS_COST)
    }

    constructor (m: Mempool, order: seq<Tx>, optionWeight: nat, nSatoshisPerK: int, fIncludeWitness: bool)
      requires m.Valid() && SameElements(order, m.entries.Keys) && ByScore(m, order)
      ensures Valid() && this.m == m && this.order == order && inBlock == {} && vtx == []
      ensures nBlockMaxWeight == Max(4000, Min(MAX_BLOCK_WEIGHT - 4000, optionWeight))
      ensures this.nSatoshisPerK == nSatoshisPerK && this.fIncludeWitness == fIncludeWitness
    {
      this.m, this.order, this.nSatoshisPerK, this.fIncludeWitness := m, order, nSatoshisPerK, fIncludeWitness;
      var capped := if optionWeight < MAX_BLOCK_WEIGHT - 4000 then optionWeight else MAX_BLOCK_WEIGHT - 4000;
      nBlockMaxWeight := if capped < 4000 then 4000 else capped;
      vtx, vTxFees, vTxSigOpsCost, inBlock := [], [], [], {};
      nBlockWeight, nBlockTx, nBlockSigOpsCost, nFees := 4000, 0, 400, 0;
    }

    predicate TestPackage(packageSize: int, packageSigOpsCost: int)
      reads this
    {
      && nBlockWeight + WITNESS_SCALE_FACTOR * packageSize < nBlockMaxWeight
      && nBlockSigOpsCost + packageSigOpsCost < MAX_BLOCK_SIGOPS_COST
    }

    predicate TestPackageTransactions(package: set<Tx>) {
      forall t | t in package :: m.At(t).isFinal && (fIncludeWitness || !m.At(t).hasWitness)
    }

    ghost function TheLimits(): Limits { Limits(nBlockMaxWeight, nSatoshisPerK, fIncludeWitness) }

    /** t was rightly passed over: on its own terms its whole package does not fit or may not go in. */
    predicate Unfit(t: Tx)
      reads this
    {
      !TestPackage(m.At(t).sizeAnc, m.At(t).sigopsAnc) || !TestPackageTransactions(m.Package(t))
    }

    lemma TestMeans(e: Modified)
      requires Valid()
      ensures TestPackage(e.size, e.sigops) <==> Roomy(m, TheLimits(), inBlock, e)
      ensures nBlockWeight == WeightOf(m, inBlock)
    {
    }

    /** Whatever was passed over does not fit, or may not go in. */
    predicate PassedRightly(passed: set<Tx>)
      reads this
    {
      forall t | t in passed :: Unfit(t)
    }

    /** Appends a transaction whose ancestors are all there. */
    method AddToBlock(t: Tx)
      requires Valid() && t in m.entries && t !in inBlock && m.Ancestors(t) <= inBlock
      modifies this
      ensures Valid() && inBlock == old(inBlock) + {t} && vtx == old(vtx) + [t]
      ensures nBlockWeight == old(nBlockWeight) + m.Get(Weight, t)
              && nBlockSigOpsCost == old(nBlockSigOpsCost) + m.Get(SigOps, t)
    {
      IsBlockAppend(m, vtx, inBlock, t);
      AccountsAppend(m, inBlock, nBlockWeight, nBlockSigOpsCost, nFees, t);
      vtx := vtx + [t];
      vTxFees, vTxSigOpsCost := vTxFees + [m.Get(Fee, t)], vTxSigOpsCost + [m.Get(SigOps, t)];
      nBlockWeight := nBlockWeight + m.Get(Weight, t);
      nBlockTx := nBlockTx + 1;
      nBlockSigOpsCost := nBlockSigOpsCost + m.Get(SigOps, t);
      nFees := nFees + m.Get(Fee, t);
      inBlock := inBlock + {t};
      assert Listed(m, vtx, vTxFees, vTxSigOpsCost);
    }

    /** Adds a package in its order, dropping its members from the cache. */
    method AddSorted(sorted: seq<Tx>, ghost package: set<Tx>, mods: map<Tx, Modified>) returns (mods': map<Tx,
                              Modified>)
      requires Valid() && package <= m.entries.Keys && package !! inBlock
      requires SameElements(sorted, package) && Sorted(m, sorted)
      requires forall t :: ClosedAt(m, package, inBlock + package, t)
      modifies this
      ensures Valid() && inBlock == old(inBlock) + package && vtx == old(vtx) + sorted
      ensures mods' == mods - package
      ensures nBlockWeight == old(nBlockWeight) + m.Sum(Weight, package)
      ensures nBlockSigOpsCost == old(nBlockSigOpsCost) + m.Sum(SigOps, package)
    {
      mods' := mods;
      ghost var done: set<Tx> := {};
      for i := 0 to |sorted|
        invariant Valid() && vtx == old(vtx) + sorted[..i]
        invariant SameElements(sorted[..i], done) && inBlock == old(inBlock) + done
        invariant mods' == mods - done
      {
        var t := sorted[i];
        AncestorsEarlier(m, sorted, i, package, old(inBlock));
        OneMore(sorted, i, done);
        assert SameAt(sorted[..i], done, t);
        forall a | a in m.Ancestors(t) ensures a in inBlock { assert SameAt(sorted[..i], done, a); }
        AddToBlock(t);
        assert vtx == old(vtx) + sorted[..i + 1];
        DropOne(mods, done, t);
        mods', done := mods' - {t}, done + {t};
      }
      AllDone(sorted, done, package);
      m.SumSplit(Weight, old(inBlock), package);
      m.SumSplit(SigOps, old(inBlock), package);
    }

    /** What the variables of the selection loop stand for. */
    ghost predicate Tracks(s: State, mods: map<Tx, Modified>, failedTx: set<Tx>, mi: nat)
      reads this
    {
      && Consistent(m, s) && s.mods == mods && s.lost.Keys == failedTx && s.inBlock == inBlock
      && PassedRightly(s.passed) && mi <= |order| && Settled(order[..mi], s)
    }

    ghost predicate Selecting(start: State, run: seq<Event>, mods: map<Tx, Modified>, failedTx: set<Tx>, mi: nat)
      reads this
    {
      && Valid() && WithinLimits()
      && Selection(m, TheLimits(), start, run) && Tracks(After(m, start, run), mods, failedTx, mi)
    }

    /**
     The next package to look at, the mempool's or the cache's best, and its totals. No
     candidate scores better; the totals are never less than what is left of the package,
     and exactly that unless it failed before.
     */
    method Choose(mods: map<Tx, Modified>, failedTx: set<Tx>, mi: nat, ghost s: State)
      returns (iter: Tx, fUsingModified: bool, e: Modified)
      requires Valid() && Tracks(s, mods, failedTx, mi) && (mi == |order| ==> mods != map[])
      requires mi < |order| ==> order[mi] !in mods && order[mi] !in inBlock && order[mi] !in failedTx
      ensures Best(m, s, iter) && (fUsingModified <==> iter in mods) && e == Entry(m, mods, iter)
      ensures !fUsingModified ==> mi < |order| && iter == order[mi]
      ensures Left(m, iter, Size, inBlock) <= e.size && Left(m, iter, SigOps, inBlock) <= e.sigops
      ensures iter !in failedTx ==> Left(m, iter, Size, inBlock) == e.size && Left(m, iter, SigOps, inBlock) == e.sigops
      ensures !fUsingModified ==> m.Package(iter) - inBlock == m.Package(iter)
    {
      fUsingModified := false;
      if mi == |order| {
        iter := BestModified(m, mods, s);
        BestOfAll(m, mods, iter);
        fUsingModified := true;
      } else {
        iter := order[mi];
        NextIsCandidate(m, order, mi, s);
        NeverBetterThanItself(m, iter, Whole(m, iter));
        if mods != map[] {
          var modit := BestModified(m, mods, s);
          if Better(m, modit, mods[modit], iter, Whole(m, iter)) {
            NeverBoth(m, modit, mods[modit], iter, Whole(m, iter));
            BestOfAll(m, mods, modit);
            iter := modit;
            fUsingModified := true;
          } else {
            BeatsCached(m, s, modit, iter);
          }
        }
      }
      e := if fUsingModified then mods[iter] else Whole(m, iter);
      ChosenIsBest(m, order, mi, s, iter);
      if fUsingModified { CachedBounds(m, s, iter); } else { UncachedIsWhole(m, s, iter); }
    }

    /** A package that passed its size test goes in whole, and the block stays within its limits. */
    method IncludePackage(iter: Tx, package: set<Tx>, mods: map<Tx, Modified>, ghost s: State, ghost e: Modified)
      returns (n: nat, mods': map<Tx, Modified>, ghost event: Event)
      requires Valid() && Consistent(m, s) && s.mods == mods && s.inBlock == inBlock
      requires iter in m.entries && iter !in inBlock && package == m.Ancestors(iter) - inBlock + {iter}
      requires Left(m, iter, Size, inBlock) <= e.size && Left(m, iter, SigOps, inBlock) <= e.sigops
      requires TestPackage(e.size, e.sigops)
      modifies this
      ensures Valid() && WithinLimits() && inBlock == old(inBlock) + package && old(vtx) <= vtx
      ensures m.entries.Keys - inBlock < m.entries.Keys - old(inBlock)
      ensures nBlockWeight >= old(nBlockWeight) && nBlockSigOpsCost >= old(nBlockSigOpsCost)
      ensures event.Include? && event.iter == iter && Enabled(m, s, event) && n == ToldCount(m, event.order, package)
      ensures Consistent(m, Next(m, s, event)) && Next(m, s, event).mods == mods'
              && Next(m, s, event).inBlock == inBlock
    {
      assert package == m.Package(iter) - inBlock;
      PackageCloses(m, iter, inBlock);
      m.SumAmounts(package);
      var sortedEntries := SortForBlock(m, package);
      mods' := AddSorted(sortedEntries, package, mods);
      ghost var order;
      n, mods', order := UpdatePackagesForAdded(m, package, mods');
      event := Include(iter, order);
      IncludeKeeps(m, s, iter, order);
      ToldFrame(m, Joined(s, package), order, package);
    }

    /**
     Runs the selection: from the block given, a best candidate each time, what is prescribed
     for it, and an end only where the rule has one. When the mempool is exhausted, every
     transaction left out that never failed as a cached entry has none of its ancestors
     included, and its package does not fit in what is left or may not be included.
     */
    method AddPackageTxs()
      returns (nPackagesSelected: nat, nDescendantsUpdated: nat, outcome: Outcome, failedTx: set<Tx>,
               ghost start: State, ghost run: seq<Event>)
      requires Valid() && WithinLimits()
      modifies this
      ensures Valid() && WithinLimits() && old(vtx) <= vtx
      ensures IsStart(m, old(inBlock), start) && Selection(m, TheLimits(), start, run)
      ensures Ends(m, TheLimits(), start, run, outcome)
      ensures After(m, start, run).inBlock == inBlock && After(m, start, run).lost.Keys == failedTx
      ensures nPackagesSelected == Inclusions(run) && nDescendantsUpdated == Updates(m, start, run)
      ensures outcome.Exhausted? ==>
                forall t | t in m.entries && t !in inBlock && t !in failedTx :: m.Ancestors(t) !! inBlock && Unfit(t)
    {
      nPackagesSelected, nDescendantsUpdated, failedTx := 0, 0, {};
      var mods;
      mods, start := Begin();
      run := [];
      var mi: nat, nConsecutiveFailed: nat := 0, 0;
      while mi < |order| || mods != map[]
        invariant old(vtx) <= vtx
        invariant GoingOn(start, run, mods, failedTx, mi, nPackagesSelected, nDescendantsUpdated, nConsecutiveFailed)
        decreases m.entries.Keys - inBlock, |order| - mi, |mods|
      {
        if mi < |order| && (order[mi] in mods || order[mi] in inBlock || order[mi] in failedTx) {
          Skipped(start, run, mods, failedTx, mi, nPackagesSelected, nDescendantsUpdated, nConsecutiveFailed);
          mi := mi + 1;
          continue;
        }
        var cheap, fits, added, n;
        ghost var counts := (nPackagesSelected, nDescendantsUpdated, nConsecutiveFailed);
        cheap, fits, added, n, mods, failedTx, mi, run := SelectOne(mods, failedTx, mi, start, run, counts);
        if cheap {
          outcome := BelowMinimum;
          return;
        }
        nDescendantsUpdated := nDescendantsUpdated + n;
        if added {
          nConsecutiveFailed := 0;
          nPackagesSelected := nPackagesSelected + 1;
        }
        if !fits {
          nConsecutiveFailed := nConsecutiveFailed + 1;
          if nConsecutiveFailed > MAX_CONSECUTIVE_FAILURES && nBlockWeight > nBlockMaxWeight - 4000 {
            outcome := GaveUp;
            return;
          }
        }
      }
      outcome := Exhausted;
      NothingLeft(After(m, start, run), failedTx, mi);
    }

    /** Everything that depends on the block given is cached. */
    method Begin() returns (mods: map<Tx, Modified>, ghost start: State)
      requires Valid()
      ensures IsStart(m, inBlock, start) && Tracks(start, mods, {}, 0)
    {
      var n;
      ghost var first;
      n, mods, first := UpdatePackagesForAdded(m, inBlock, map[]);
      start := Started(m, inBlock, first);
      StartedConsistent(m, inBlock, first);
      ToldFrame(m, State(map[], map[], map[], {}, inBlock), first, inBlock);
      forall t ensures SettledAt([], start, t) { }
    }

    lemma NothingLeft(s: State, failedTx: set<Tx>, mi: nat)
      requires Valid() && Tracks(s, map[], failedTx, mi) && mi == |order|
      ensures forall t :: !Candidate(m, s, t)
      ensures forall t | t in m.entries && t !in inBlock && t !in failedTx :: m.Ancestors(t) !! inBlock && Unfit(t)
    {
      forall t ensures !Candidate(m, s, t) {
        assert order[..mi] == order;
        assert SettledAt(order, s, t) && SameAt(order, m.entries.Keys, t);
      }
      forall t | t in m.entries && t !in inBlock && t !in failedTx ensures m.Ancestors(t) !! inBlock && Unfit(t) {
        assert order[..mi] == order;
        assert SettledAt(order, s, t) && SameAt(order, m.entries.Keys, t);
        UncachedIsWhole(m, s, t);
      }
    }

    /** A chosen package goes in if it fits and may; otherwise it fails. */
    method Perform(iter: Tx, fits: bool, e: Modified, mods: map<Tx, Modified>, failedTx: set<Tx>, mi: nat,
                   fUsingModified: bool, ghost s: State)
      returns (mods': map<Tx, Modified>, failedTx': set<Tx>, mi': nat, added: bool, n: nat, ghost event: Event)
      requires Valid() && WithinLimits() && Tracks(s, mods, failedTx, mi) && Candidate(m, s, iter)
      requires e == Entry(m, mods, iter) && fits == TestPackage(e.size, e.sigops)
      requires (fUsingModified <==> iter in mods) && (!fUsingModified ==> mi < |order| && iter == order[mi])
      requires Left(m, iter, Size, inBlock) <= e.size && Left(m, iter, SigOps, inBlock) <= e.sigops
      requires !fUsingModified ==> m.Package(iter) - inBlock == m.Package(iter)
      modifies this
      ensures Valid() && WithinLimits() && old(vtx) <= vtx && Tracks(Next(m, s, event), mods', failedTx', mi')
      ensures Enabled(m, s, event) && event.Subject() == iter && Prescribed(m, TheLimits(), s, event)
      ensures Accounted(m, TheLimits(), s, event, added, fits, n)
      ensures m.entries.Keys - inBlock < m.entries.Keys - old(inBlock)
              || (inBlock == old(inBlock) && (mi' > mi || (mi' == mi && |mods'| < |mods|)))
    {
      var package := m.Ancestors(iter) - inBlock + {iter};
      assert package == m.Package(iter) - inBlock;
      TestMeans(e);
      added, n := fits && TestPackageTransactions(package), 0;
      if added {
        n, mods', event := Advance(iter, package, mods, failedTx, e, mi, fUsingModified, s);
        failedTx', mi' := failedTx, if fUsingModified then mi else mi + 1;
      } else {
        mods', failedTx', mi', event := Fail(iter, package, mods, failedTx, e, mi, fUsingModified, s);
      }
    }

    /** The loop has not come to an end of the selection. */
    ghost predicate GoingOn(start: State, run: seq<Event>, mods: map<Tx, Modified>, failedTx: set<Tx>, mi: nat,
                            selected: nat, updated: nat, failed: nat)
      reads this
    {
      && Selecting(start, run, mods, failedTx, mi) && !GivesUp(m, TheLimits(), start, run)
      && Tally(m, TheLimits(), start, run, selected, updated, failed)
    }

    lemma Skipped(start: State, run: seq<Event>, mods: map<Tx, Modified>, failedTx: set<Tx>, mi: nat,
                  selected: nat, updated: nat, failed: nat)
      requires GoingOn(start, run, mods, failedTx, mi, selected, updated, failed) && mi < |order|
      requires order[mi] in mods || order[mi] in inBlock || order[mi] in failedTx
      ensures GoingOn(start, run, mods, failedTx, mi + 1, selected, updated, failed)
    {
      Looked(order, mi, After(m, start, run));
    }

    /** The next package is chosen; unless it is below the minimum fee rate it is considered. */
    method SelectOne(mods: map<Tx, Modified>, failedTx: set<Tx>, mi: nat,
                     ghost start: State, ghost run: seq<Event>, ghost counts: (nat, nat, nat))
      returns (cheap: bool, fits: bool, added: bool, n: nat, mods': map<Tx, Modified>, failedTx': set<Tx>, mi': nat,
               ghost run': seq<Event>)
      requires GoingOn(start, run, mods, failedTx, mi, counts.0, counts.1, counts.2)
      requires mi == |order| ==> mods != map[]
      requires mi < |order| ==> order[mi] !in mods && order[mi] !in inBlock && order[mi] !in failedTx
      modifies this
      ensures Selecting(start, run', mods', failedTx', mi') && old(vtx) <= vtx
      ensures cheap ==> run' == run && Ends(m, TheLimits(), start, run, BelowMinimum)
                        && Tally(m, TheLimits(), start, run, counts.0, counts.1, counts.2)
      ensures !cheap ==>
                && (added ==> fits)
                && Tally(m, TheLimits(), start, run', if added then counts.0 + 1 else counts.0, counts.1 + n,
                         FailedNow(counts.2, added, fits))
                && (GivesUp(m, TheLimits(), start, run') <==>
                      && !fits && FailedNow(counts.2, added, fits) > MAX_CONSECUTIVE_FAILURES
                      && nBlockWeight > nBlockMaxWeight - 4000)
                && (m.entries.Keys - inBlock < m.entries.Keys - old(inBlock)
                    || (inBlock == old(inBlock) && (mi' > mi || (mi' == mi && |mods'| < |mods|))))
    {
      var iter, fUsingModified, e := Choose(mods, failedTx, mi, After(m, start, run));
      assert iter !in inBlock;
      cheap, fits, added, n := e.modFees < GetFee(nSatoshisPerK, e.size), false, false, 0;
      if cheap {
        mods', failedTx', mi', run' := mods, failedTx, mi, run;
      } else {
        fits := TestPackage(e.size, e.sigops);
        mods', failedTx', mi', added, n, run' :=
          Consider(iter, fits, e, mods, failedTx, mi, fUsingModified, start, run, counts);
      }
    }

    /** One step of the selection, with its counters. */
    method Consider(iter: Tx, fits: bool, e: Modified, mods: map<Tx, Modified>, failedTx: set<Tx>, mi: nat,
                    fUsingModified: bool, ghost start: State, ghost run: seq<Event>, ghost counts: (nat, nat, nat))
      returns (mods': map<Tx, Modified>, failedTx': set<Tx>, mi': nat, added: bool, n: nat, ghost run': seq<Event>)
      requires Selecting(start, run, mods, failedTx, mi) && Best(m, After(m, start, run), iter)
      requires Tally(m, TheLimits(), start, run, counts.0, counts.1, counts.2)
      requires !GivesUp(m, TheLimits(), start, run) && e.modFees >= GetFee(nSatoshisPerK, e.size)
      requires e == Entry(m, mods, iter) && fits == TestPackage(e.size, e.sigops)
      requires (fUsingModified <==> iter in mods) && (!fUsingModified ==> mi < |order| && iter == order[mi])
      requires Left(m, iter, Size, inBlock) <= e.size && Left(m, iter, SigOps, inBlock) <= e.sigops
      requires !fUsingModified ==> m.Package(iter) - inBlock == m.Package(iter)
      modifies this
      ensures Selecting(start, run', mods', failedTx', mi') && old(vtx) <= vtx && (added ==> fits)
      ensures Tally(m, TheLimits(), start, run', if added then counts.0 + 1 else counts.0, counts.1 + n,
                    FailedNow(counts.2, added, fits))
      ensures GivesUp(m, TheLimits(), start, run') <==>
                && !fits && FailedNow(counts.2, added, fits) > MAX_CONSECUTIVE_FAILURES
                && nBlockWeight > nBlockMaxWeight - 4000
      ensures m.entries.Keys - inBlock < m.entries.Keys - old(inBlock)
              || (inBlock == old(inBlock) && (mi' > mi || (mi' == mi && |mods'| < |mods|)))
    {
      ghost var event;
      mods', failedTx', mi', added, n, event :=
        Perform(iter, fits, e, mods, failedTx, mi, fUsingModified, After(m, start, run));
      Recorded(m, TheLimits(), start, run, event, counts.0, counts.1, counts.2, added, fits, n);
      TestMeans(e);
      run' := run + [event];
    }

    /** A cached entry that fails is erased and remembered; one of the mempool is passed over. */
    method Fail(iter: Tx, ghost package: set<Tx>, mods: map<Tx, Modified>, failedTx: set<Tx>, ghost e: Modified,
                mi: nat, fUsingModified: bool, ghost s: State)
      returns (mods': map<Tx, Modified>, failedTx': set<Tx>, mi': nat, ghost event: Event)
      requires Valid() && Tracks(s, mods, failedTx, mi) && Candidate(m, s, iter) && e == Entry(m, mods, iter)
      requires (fUsingModified <==> iter in mods) && (!fUsingModified ==> mi < |order| && iter == order[mi])
      requires package == m.Ancestors(iter) - inBlock + {iter} && (!fUsingModified ==> package == m.Package(iter))
      requires !TestPackage(e.size, e.sigops) || !TestPackageTransactions(package)
      ensures event == (if fUsingModified then Drop(iter) else Pass(iter)) && Enabled(m, s, event)
      ensures Tracks(Next(m, s, event), mods', failedTx', mi')
      ensures mi' > mi || (mi' == mi && |mods'| < |mods|)
    {
      event := if fUsingModified then Drop(iter) else Pass(iter);
      NextKeeps(m, s, event);
      if fUsingModified {
        Erased(order[..mi], s, iter);
        return mods - {iter}, failedTx + {iter}, mi, event;
      } else {
        PassedOver(order, mi, s);
        return mods, failedTx, mi + 1, event;
      }
    }

    /** Includes a package; nothing settled is unsettled, as the block only fills up. */
    method Advance(iter: Tx, package: set<Tx>, mods: map<Tx, Modified>, ghost failedTx: set<Tx>, ghost e: Modified,
                   ghost mi: nat, ghost fUsingModified: bool, ghost s: State)
      returns (n: nat, mods': map<Tx, Modified>, ghost event: Event)
      requires Valid() && Tracks(s, mods, failedTx, mi)
      requires iter in m.entries && iter !in inBlock && package == m.Ancestors(iter) - inBlock + {iter}
      requires Left(m, iter, Size, inBlock) <= e.size && Left(m, iter, SigOps, inBlock) <= e.sigops
      requires TestPackage(e.size, e.sigops) && (!fUsingModified ==> mi < |order| && iter == order[mi])
      modifies this
      ensures Valid() && WithinLimits() && inBlock == old(inBlock) + package && old(vtx) <= vtx
      ensures m.entries.Keys - inBlock < m.entries.Keys - old(inBlock)
      ensures event.Include? && event.iter == iter && Enabled(m, s, event) && n == ToldCount(m, event.order, package)
      ensures Tracks(Next(m, s, event), mods', failedTx, if fUsingModified then mi else mi + 1)
    {
      n, mods', event := IncludePackage(iter, package, mods, s, e);
      ghost var s' := Next(m, s, event);
      StaysSettled(m, order[..mi], s, event);
      if !fUsingModified { Looked(order, mi, s'); }
    }
  }

  lemma NeverBetterThanItself(m: Mempool, t: Tx, e: Modified)
    ensures !Better(m, t, e, t, e)
  {
    Commute(Score(m, t, e).fee, Score(m, t, e).size);
  }

  /** A best of the cached entries. */
  method BestModified(m: Mempool, mods: map<Tx, Modified>, ghost s: State) returns (x: Tx)
    requires m.Valid() && Consistent(m, s) && s.mods == mods && mods != map[]
    ensures x in mods && BestOf(m, mods, mods.Keys, x)
  {
    x :| x in mods;
    var done := {x};
    NeverBetterThanItself(m, x, mods[x]);
    while done != mods.Keys
      invariant x in mods && done <= mods.Keys && BestOf(m, mods, done, x)
      decreases mods.Keys - done
    {
      var y :| y in mods && y !in done;
      OneMoreSeen(m, s, done, x, y);
      if Better(m, y, mods[y], x, mods[x]) { x := y; }
      done := done + {y};
    }
  }

  ghost predicate BestOf(m: Mempool, mods: map<Tx, Modified>, done: set<Tx>, x: Tx) {
    done <= mods.Keys && x in mods && forall y :: BestOfAt(m, mods, done, x, y)
  }

  predicate BestOfAt(m: Mempool, mods: map<Tx, Modified>, done: set<Tx>, x: Tx, y: Tx)
    requires done <= mods.Keys && x in mods
  {
    y in done ==> !Better(m, y, mods[y], x, mods[x])
  }

  lemma OneMoreSeen(m: Mempool, s: State, done: set<Tx>, x: Tx, y: Tx)
    requires m.Valid() && Consistent(m, s) && BestOf(m, s.mods, done, x) && y in s.mods
    ensures BestOf(m, s.mods, done + {y}, if Better(m, y, s.mods[y], x, s.mods[x]) then y else x)
  {
    var best := if Better(m, y, s.mods[y], x, s.mods[x]) then y else x;
    NeverBetterThanItself(m, y, s.mods[y]);
    forall z ensures BestOfAt(m, s.mods, done + {y}, best, z) {
      assert BestOfAt(m, s.mods, done, x, z);
      if z in done && Better(m, y, s.mods[y], x, s.mods[x]) {
        NeverBoth(m, y, s.mods[y], x, s.mods[x]);
        CachedSized(m, s, x);
        CachedSized(m, s, y);
        CachedSized(m, s, z);
        NotBetterTrans(m, y, s.mods[y], x, s.mods[x], z, s.mods[z]);
      }
    }
  }

  lemma NextIsCandidate(m: Mempool, order: seq<Tx>, mi: nat, s: State)
    requires SameElements(order, m.entries.Keys) && ByScore(m, order) && mi < |order| && Settled(order[..mi], s)
    requires order[mi] !in s.mods && order[mi] !in s.inBlock && order[mi] !in s.lost
    ensures Candidate(m, s, order[mi])
  {
    var t := order[mi];
    assert SameAt(order, m.entries.Keys, t) && SettledAt(order[..mi], s, t);
    forall i: nat | i < mi ensures order[i] != t { assert ByScoreAt(m, order, i, mi); }
  }

  /** The best cached entry is no better, so none is. */
  lemma BeatsCached(m: Mempool, s: State, modit: Tx, iter: Tx)
    requires m.Valid() && Consistent(m, s) && BestOf(m, s.mods, s.mods.Keys, modit)
    requires Candidate(m, s, iter) && iter !in s.mods && !Better(m, modit, s.mods[modit], iter, Whole(m, iter))
    ensures forall y | y in s.mods :: !Better(m, y, s.mods[y], iter, Whole(m, iter))
  {
    forall y | y in s.mods ensures !Better(m, y, s.mods[y], iter, Whole(m, iter)) {
      assert BestOfAt(m, s.mods, s.mods.Keys, modit, y);
      CandidateSized(m, s, iter);
      CachedSized(m, s, modit);
      CachedSized(m, s, y);
      NotBetterTrans(m, iter, Whole(m, iter), modit, s.mods[modit], y, s.mods[y]);
    }
  }

  lemma FromThere(order: seq<Tx>, mi: nat, u: Tx) returns (j: nat)
    requires mi <= |order| && u in order && u !in order[..mi]
    ensures mi <= j < |order| && order[j] == u
  {
    assert order == order[..mi] + order[mi..];
    var i :| 0 <= i < |order| - mi && order[mi..][i] == u;
    j := mi + i;
  }

  lemma CachedSized(m: Mempool, s: State, t: Tx)
    requires m.Valid() && Consistent(m, s) && t in s.mods
    ensures Sized(m, t, s.mods[t])
  {
    CandidateSized(m, s, t);
  }

  lemma BestOfAll(m: Mempool, mods: map<Tx, Modified>, x: Tx)
    requires BestOf(m, mods, mods.Keys, x)
    ensures forall y | y in mods :: !Better(m, y, mods[y], x, mods[x])
  {
    forall y | y in mods ensures !Better(m, y, mods[y], x, mods[x]) { assert BestOfAt(m, mods, mods.Keys, x, y); }
  }

  /** Nothing in the cache is better, nor the next entry of the mempool: so no candidate is. */
  lemma ChosenIsBest(m: Mempool, order: seq<Tx>, mi: nat, s: State, iter: Tx)
    requires m.Valid() && Consistent(m, s) && SameElements(order, m.entries.Keys) && ByScore(m, order)
    requires mi <= |order| && Settled(order[..mi], s) && Candidate(m, s, iter)
    requires forall y | y in s.mods :: !Better(m, y, s.mods[y], iter, Entry(m, s.mods, iter))
    requires mi < |order| ==> Candidate(m, s, order[mi]) && order[mi] !in s.mods
                              && !Better(m, order[mi], Whole(m, order[mi]), iter, Entry(m, s.mods, iter))
    ensures Best(m, s, iter)
  {
    forall u ensures NoBetterAt(m, s, iter, u) {
      if Candidate(m, s, u) && u !in s.mods {
        assert SettledAt(order[..mi], s, u) && SameAt(order, m.entries.Keys, u);
        var j := FromThere(order, mi, u);
        assert ByScoreAt(m, order, mi, j);
        CandidateSized(m, s, iter);
        CandidateSized(m, s, u);
        CandidateSized(m, s, order[mi]);
        if j != mi {
          NotBetterTrans(m, iter, Entry(m, s.mods, iter), order[mi], Whole(m, order[mi]), u, Whole(m, u));
        }
      }
    }
  }

  /** Moving on past order[mi], which is settled. */
  lemma Looked(order: seq<Tx>, mi: nat, s: State)
    requires mi < |order| && Settled(order[..mi], s)
    requires order[mi] in s.inBlock || order[mi] in s.mods || order[mi] in s.lost || order[mi] in s.passed
    ensures Settled(order[..mi + 1], s)
  {
    var looked := order[..mi + 1];
    assert looked == order[..mi] + [order[mi]];
    forall t ensures SettledAt(looked, s, t) { assert SettledAt(order[..mi], s, t); }
  }

  lemma PassedOver(order: seq<Tx>, mi: nat, s: State)
    requires mi < |order| && Settled(order[..mi], s)
    ensures Settled(order[..mi + 1], s.(passed := s.passed + {order[mi]}))
  {
    var looked, s' := order[..mi + 1], s.(passed := s.passed + {order[mi]});
    assert looked == order[..mi] + [order[mi]];
    forall t ensures SettledAt(looked, s', t) { assert SettledAt(order[..mi], s, t); }
  }

  lemma Erased(looked: seq<Tx>, s: State, t: Tx)
    requires Settled(looked, s) && t in s.mods
    ensures Settled(looked, s.(mods := s.mods - {t}, log := s.log - {t}, lost := s.lost[t := s.inBlock]))
    ensures |s.mods - {t}| < |s.mods|
  {
    var s' := s.(mods := s.mods - {t}, log := s.log - {t}, lost := s.lost[t := s.inBlock]);
    forall x ensures SettledAt(looked, s', x) { assert SettledAt(looked, s, x); }
    assert s.mods.Keys == s'.mods.Keys + {t};
  }

  /** What is cached stays cached until it goes in. */
  lemma StaysSettled(m: Mempool, looked: seq<Tx>, s: State, e: Event)
    requires Settled(looked, s) && e.Include?
    ensures Settled(looked, Next(m, s, e))
    ensures Next(m, s, e).lost == s.lost && Next(m, s, e).passed == s.passed
  {
    var package := m.Package(e.iter) - s.inBlock;
    var j, s' := Joined(s, package), Next(m, s, e);
    ToldFrame(m, j, e.order, package);
    NothingUncached(m, j.mods, e.order, package);
    forall t ensures SettledAt(looked, s', t) { assert SettledAt(looked, s, t); }
  }

  lemma {:induction false} NothingUncached(m: Mempool, mods: map<Tx, Modified>, order: seq<Tx>, added: set<Tx>)
    ensures mods.Keys <= UpdatedAll(m, mods, order, added).Keys
  {
    if order != [] { NothingUncached(m, mods, order[..|order| - 1], added); }
  }

  lemma OneMore(s: seq<Tx>, i: nat, done: set<Tx>)
    requires i < |s| && SameElements(s[..i], done)
    ensures SameElements(s[..i + 1], done + {s[i]}) && s[..i + 1] == s[..i] + [s[i]]
  {
    var s', done' := s[..i + 1], done + {s[i]};
    forall x ensures SameAt(s', done', x) { assert SameAt(s[..i], done, x); }
  }

  lemma DropOne(mods: map<Tx, Modified>, done: set<Tx>, t: Tx)
    ensures mods - done - {t} == mods - (done + {t})
  {
  }

  lemma AllDone(s: seq<Tx>, done: set<Tx>, package: set<Tx>)
    requires SameElements(s[..|s|], done) && SameElements(s, package)
    ensures done == package && s[..|s|] == s
  {
    assert s[..|s|] == s;
    forall x | x in done ensures x in package { assert SameAt(s, done, x) && SameAt(s, package, x); }
    forall x | x in package ensures x in done { assert SameAt(s, done, x) && SameAt(s, package, x); }
  }

  /** In a sorted package every ancestor still to be added comes earlier. */
  lemma AncestorsEarlier(m: Mempool, sorted: seq<Tx>, i: nat, package: set<Tx>, inBlock: set<Tx>)
    requires m.Valid() && package <= m.entries.Keys && i < |sorted|
    requires SameElements(sorted, package) && Sorted(m, sorted)
    requires forall t :: ClosedAt(m, package, inBlock + package, t)
    ensures sorted[i] in package && sorted[i] !in sorted[..i]
    ensures forall a | a in m.Ancestors(sorted[i]) :: a in inBlock || a in sorted[..i]
  {
    var t := sorted[i];
    assert t in sorted && SameAt(sorted, package, t) && ClosedAt(m, package, inBlock + package, t);
    forall j: nat | j < i ensures sorted[j] != t { assert SortedAt(m, sorted, j, i); }
    forall a | a in m.Ancestors(t) && a !in inBlock
      ensures a in sorted[..i]
    {
      assert SameAt(sorted, package, a);
      var j :| 0 <= j < |sorted| && sorted[j] == a;
      AncestorsCountLess(m, a, t);
      assert SortedAt(m, sorted, i, j);
    }
  }

  lemma OrderedAppend(m: Mempool, block: seq<Tx>, t: Tx)
    requires Ordered(m, block) && t !in block && forall a | a in m.Ancestors(t) :: a in block
    ensures Ordered(m, block + [t])
  {
    var block' := block + [t];
    forall i: nat ensures OrderedAt(m, block', i) {
      assert OrderedAt(m, block, i);
      if i < |block| {
        assert block'[..i] == block[..i];
      } else if i == |block| {
        assert block'[..i] == block;
      }
    }
  }
}
