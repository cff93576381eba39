/**
 When the cached fees of a package are the fees left of it. The ancestor with which an entry
 is made goes by its modified fee, later ones by their plain fee, and what went in before the
 entry last failed is not subtracted at all, so the answer depends on the order of inclusion.
 */
module PackageFees {
  import opened Mempools
  import opened PackageCache

  /** What is left of a package. */
  ghost function Left(m: Mempool, t: Tx, f: Field, inBlock: set<Tx>): int {
    m.Sum(f, m.Package(t) - inBlock)
  }

  /** What prioritising has added to a transaction's fee. */
  function Delta(m: Mempool, a: Tx): int { m.Get(ModFee, a) - m.Get(Fee, a) }

  ghost function Deltas(m: Mempool, s: set<Tx>): int { m.Sum(ModFee, s) - m.Sum(Fee, s) }

  lemma DeltasRemove(m: Mempool, s: set<Tx>, a: Tx)
    requires a in s
    ensures Deltas(m, s) == Delta(m, a) + Deltas(m, s - {a})
  {
    m.SumRemove(ModFee, s, a);
    m.SumRemove(Fee, s, a);
  }

  lemma {:induction false} DeltasConstant(m: Mempool, s: set<Tx>, c: int)
    requires forall a | a in s :: Delta(m, a) == c
    ensures Deltas(m, s) == |s| * c
  {
    if s != {} {
      var a :| a in s;
      DeltasRemove(m, s, a);
      DeltasConstant(m, s - {a}, c);
      assert |s| * c == |s - {a}| * c + c;
    }
  }

  // ---------- one entry ----------

  lemma {:induction false} EntryTotals(m: Mempool, t: Tx, s: seq<Tx>, K: set<Tx>)
    requires s != [] && Lists(s, K)
    ensures s[0] in K
    ensures var e := EntryAfter(m, t, s);
            && e.size == m.At(t).sizeAnc - m.Sum(Size, K)
            && e.sigops == m.At(t).sigopsAnc - m.Sum(SigOps, K)
            && e.modFees == m.At(t).modFeeAnc - m.Get(ModFee, s[0]) - m.Sum(Fee, K - {s[0]})
  {
    var x := s[|s| - 1];
    m.SumRemove(Size, K, x);
    m.SumRemove(SigOps, K, x);
    if |s| == 1 {
      assert s[..0] == [] && K - {x} == {};
    } else {
      EntryTotals(m, t, s[..|s| - 1], K - {x});
      assert s[..|s| - 1][0] == s[0];
      m.SumRemove(Fee, K - {s[0]}, x);
      assert K - {s[0]} - {x} == K - {x} - {s[0]};
    }
  }

  lemma SumParts(m: Mempool, f: Field, p: set<Tx>, k: set<Tx>, gone: set<Tx>, inBlock: set<Tx>)
    requires k !! gone && k + gone == p * inBlock
    ensures m.Sum(f, p) == m.Sum(f, k) + m.Sum(f, gone) + m.Sum(f, p - inBlock)
  {
    assert p == (k + gone) + (p - inBlock);
    m.SumSplit(f, k + gone, p - inBlock);
    m.SumSplit(f, k, gone);
  }

  /** The ancestors of t in the block, apart from those that went in before it last failed. */
  function Since(m: Mempool, t: Tx, inBlock: set<Tx>, lost: set<Tx>): set<Tx> { m.Ancestors(t) * inBlock - lost }

  /** An entry exceeds what is left by what was lost and by the priorities of all but its first ancestor. */
  lemma EntryExcess(m: Mempool, t: Tx, s: seq<Tx>, inBlock: set<Tx>, lost: set<Tx>)
    requires m.Valid() && t in m.entries && t !in inBlock && lost <= inBlock
    requires s != [] && Lists(s, Since(m, t, inBlock, lost))
    ensures s[0] in Since(m, t, inBlock, lost)
    ensures var e, gone := EntryAfter(m, t, s), m.Ancestors(t) * lost;
            && e.size == Left(m, t, Size, inBlock) + m.Sum(Size, gone)
            && e.sigops == Left(m, t, SigOps, inBlock) + m.Sum(SigOps, gone)
            && e.modFees == Left(m, t, ModFee, inBlock) + m.Sum(ModFee, gone)
                            + Deltas(m, Since(m, t, inBlock, lost) - {s[0]})
  {
    var K, gone, p := Since(m, t, inBlock, lost), m.Ancestors(t) * lost, m.Package(t);
    assert m.ValidAt(t);
    EntryTotals(m, t, s, K);
    assert K + gone == p * inBlock;
    SumParts(m, Size, p, K, gone, inBlock);
    SumParts(m, SigOps, p, K, gone, inBlock);
    SumParts(m, ModFee, p, K, gone, inBlock);
    m.SumRemove(ModFee, K, s[0]);
  }

  /** What is left of a package is no more than its cached totals; exactly that if it never failed. */
  lemma CachedBounds(m: Mempool, s: State, t: Tx)
    requires m.Valid() && Consistent(m, s) && t in s.mods
    ensures Left(m, t, Size, s.inBlock) <= s.mods[t].size && Left(m, t, SigOps, s.inBlock) <= s.mods[t].sigops
    ensures t !in s.lost ==>
              Left(m, t, Size, s.inBlock) == s.mods[t].size && Left(m, t, SigOps, s.inBlock) == s.mods[t].sigops
  {
    assert m.ValidAt(t) && CachedHere(m, s, s.inBlock, t);
    EntryExcess(m, t, s.log[t], s.inBlock, s.Lost(t));
    m.SumAmounts(m.Ancestors(t) * s.Lost(t));
    if t !in s.lost { assert m.Ancestors(t) * s.Lost(t) == {}; }
  }

  /** A mempool entry that is neither cached nor failed has no ancestor in the block yet. */
  lemma UncachedIsWhole(m: Mempool, s: State, t: Tx)
    requires m.Valid() && Consistent(m, s) && Uncached(m, s, t) && t !in s.lost
    ensures m.Ancestors(t) !! s.inBlock && m.Package(t) - s.inBlock == m.Package(t)
    ensures Whole(m, t) == Modified(Left(m, t, Size, s.inBlock), Left(m, t, ModFee, s.inBlock),
            Left(m, t, SigOps, s.inBlock))
  {
    assert m.ValidAt(t) && CachedHere(m, s, s.inBlock, t);
    assert m.Ancestors(t) * s.inBlock - s.Lost(t) == m.Ancestors(t) * s.inBlock;
    assert m.Package(t) - s.inBlock == m.Package(t);
  }

  // ---------- all orders ----------

  /** Whichever of K comes first, the priorities of the others make up for M. */
  ghost predicate AnyFirst(m: Mempool, K: set<Tx>, M: int) {
    forall f | f in K :: M + Deltas(m, K - {f}) == 0
  }

  /** The same, said of each transaction by itself. */
  predicate Balanced(m: Mempool, K: set<Tx>, M: int) {
    forall a | a in K :: M + (|K| - 1) * Delta(m, a) == 0
  }

  lemma AnyFirstIsBalanced(m: Mempool, K: set<Tx>, M: int)
    ensures AnyFirst(m, K, M) <==> Balanced(m, K, M)
  {
    if AnyFirst(m, K, M) { AnyFirstBalances(m, K, M); }
    if Balanced(m, K, M) { BalancedAnyFirst(m, K, M); }
  }

  lemma AnyFirstBalances(m: Mempool, K: set<Tx>, M: int)
    requires AnyFirst(m, K, M)
    ensures Balanced(m, K, M)
  {
    var c := M + Deltas(m, K);
    forall a | a in K ensures Delta(m, a) == c {
      DeltasRemove(m, K, a);
      assert M + Deltas(m, K - {a}) == 0;
    }
    DeltasConstant(m, K, c);
    forall a | a in K ensures M + (|K| - 1) * Delta(m, a) == 0 {
      assert (|K| - 1) * c == |K| * c - c;
    }
  }

  lemma SameFactor(n: int, x: int, y: int)
    requires n != 0 && n * x == n * y
    ensures x == y
  {
  }

  lemma BalancedAnyFirst(m: Mempool, K: set<Tx>, M: int)
    requires Balanced(m, K, M)
    ensures AnyFirst(m, K, M)
  {
    forall f | f in K ensures M + Deltas(m, K - {f}) == 0 {
      var c := Delta(m, f);
      assert M + (|K| - 1) * c == 0;
      var others := K - {f};
      assert |others| == |K| - 1;
      forall a | a in others ensures Delta(m, a) == c {
        assert a in K && M + (|K| - 1) * Delta(m, a) == 0;
        assert others != {};
        SameFactor(|K| - 1, Delta(m, a), c);
      }
      DeltasConstant(m, others, c);
    }
  }

  /** Without anything lost: at most one ancestor, or no ancestor prioritised. */
  lemma BalancedWithoutLoss(m: Mempool, K: set<Tx>)
    ensures Balanced(m, K, 0) <==> |K| <= 1 || forall a | a in K :: m.Get(Fee, a) == m.Get(ModFee, a)
  {
    if Balanced(m, K, 0) && |K| > 1 {
      forall a | a in K ensures m.Get(Fee, a) == m.Get(ModFee, a) {
        assert 0 + (|K| - 1) * Delta(m, a) == 0;
        SameFactor(|K| - 1, Delta(m, a), 0);
      }
    }
    if |K| == 1 { forall a | a in K ensures 0 + (|K| - 1) * Delta(m, a) == 0 { } }
  }

  // ---------- all runs ----------

  /** A run to a given block in which t does not fail. */
  ghost predicate Leads(m: Mempool, s: State, run: seq<Event>, t: Tx, B: set<Tx>) {
    Runs(m, s, run) && Drop(t) !in run && After(m, s, run).inBlock == B
  }

  lemma {:induction false} LostStays(m: Mempool, s: State, run: seq<Event>, t: Tx)
    requires Drop(t) !in run
    ensures After(m, s, run).Lost(t) == s.Lost(t)
  {
    if run != [] {
      var e := run[|run| - 1];
      assert e in run;
      forall x | x in run[..|run| - 1] ensures x in run { }
      LostStays(m, s, run[..|run| - 1], t);
      var s1 := After(m, s, run[..|run| - 1]);
      if e.Include? {
        var package := m.Package(e.iter) - s1.inBlock;
        ToldFrame(m, Joined(s1, package), e.order, package);
      }
    }
  }

  /** In a state where t is not cached, its ancestors in the block are those lost. */
  lemma UncachedLost(m: Mempool, s: State, t: Tx)
    requires Consistent(m, s) && Uncached(m, s, t)
    ensures m.Ancestors(t) * s.Lost(t) == m.Ancestors(t) * s.inBlock && s.Lost(t) <= s.inBlock
  {
    assert CachedHere(m, s, s.inBlock, t);
    assert s.LogOf(t) == [];
    assert m.Ancestors(t) * s.inBlock - s.Lost(t) == {};
    NoneOutside(m.Ancestors(t) * s.inBlock, s.Lost(t));
  }

  lemma NoneOutside(a: set<Tx>, b: set<Tx>)
    requires a - b == {}
    ensures a <= b
  {
    forall x | x in a ensures x in b { assert x !in a - b; }
  }

  /** What a run that leads to B has made of t's entry. */
  lemma ReachedEntry(m: Mempool, s: State, run: seq<Event>, t: Tx, B: set<Tx>)
    requires m.Valid() && Consistent(m, s) && Uncached(m, s, t) && t !in B
    requires Leads(m, s, run, t, B) && m.Ancestors(t) * B - s.inBlock != {}
    ensures var s', K := After(m, s, run), m.Ancestors(t) * B - s.inBlock;
            && t in s'.mods && t in s'.log && s'.log[t] != [] && s'.log[t][0] in K
            && s'.mods[t].modFees == Left(m, t, ModFee, B) + m.Sum(ModFee, m.Ancestors(t) * s.inBlock)
                                     + Deltas(m, K - {s'.log[t][0]})
  {
    var s' := After(m, s, run);
    RunKeeps(m, s, run);
    LostStays(m, s, run, t);
    UncachedLost(m, s, t);
    assert CachedHere(m, s', B, t);
    var K := m.Ancestors(t) * B - s.inBlock;
    SinceThen(m.Ancestors(t), B, s.inBlock, s.Lost(t));
    assert Since(m, t, B, s.Lost(t)) == K;
    assert s'.LogOf(t) != [];
    EntryExcess(m, t, s'.log[t], B, s.Lost(t));
  }

  lemma SinceThen(anc: set<Tx>, B: set<Tx>, inBlock: set<Tx>, lost: set<Tx>)
    requires anc * lost == anc * inBlock
    ensures anc * B - lost == anc * B - inBlock
  {
    forall a | a in anc ensures a in lost <==> a in inBlock {
      assert a in anc * lost <==> a in anc * inBlock;
    }
  }

  // ---------- any ancestor can come first ----------

  lemma {:induction false} ListFrom(S: set<Tx>, f: Tx) returns (s: seq<Tx>)
    requires f in S
    ensures s != [] && s[0] == f && Lists(s, S)
  {
    if x :| x in S && x != f {
      var s' := ListFrom(S - {x}, f);
      ListsAppend(s', S - {x}, x);
      assert S - {x} + {x} == S;
      s := s' + [x];
    } else {
      s := [f];
      assert S - {f} == {} && s[..0] == [];
    }
  }

  lemma {:induction false} LogGrows(m: Mempool, s: State, order: seq<Tx>, added: set<Tx>, t: Tx)
    requires t in s.log
    ensures t in ToldAll(m, s, order, added).log && s.log[t] <= ToldAll(m, s, order, added).log[t]
  {
    if order != [] { LogGrows(m, s, order[..|order| - 1], added, t); }
  }

  lemma {:induction false} LogStarts(m: Mempool, s: State, order: seq<Tx>, added: set<Tx>, t: Tx)
    requires order != [] && t !in s.log && t in m.Descendants(order[0]) - added
    ensures t in ToldAll(m, s, order, added).log && [order[0]] <= ToldAll(m, s, order, added).log[t]
  {
    if |order| == 1 {
      assert order[..0] == [];
    } else {
      LogStarts(m, s, order[..|order| - 1], added, t);
      assert order[..|order| - 1][0] == order[0];
    }
  }

  lemma AfterAppend(m: Mempool, s: State, run: seq<Event>, e: Event)
    requires Runs(m, s, run) && Enabled(m, After(m, s, run), e)
    ensures Runs(m, s, run + [e]) && After(m, s, run + [e]) == Next(m, After(m, s, run), e)
  {
    assert (run + [e])[..|run|] == run;
  }

  /** The rest of the block goes in, package by package. */
  lemma {:induction false} Complete(m: Mempool, s: State, run: seq<Event>, t: Tx, B: set<Tx>) returns (run': seq<Event>)
    requires m.Valid() && Consistent(m, s) && Closed(m, B) && t !in B
    requires Leads(m, s, run, t, After(m, s, run).inBlock) && After(m, s, run).inBlock <= B
    requires t in After(m, s, run).log && After(m, s, run).log[t] != []
    ensures Leads(m, s, run', t, B)
    ensures t in After(m, s, run').log && After(m, s, run').log[t] != []
            && After(m, s, run').log[t][0] == After(m, s, run).log[t][0]
    decreases B - After(m, s, run).inBlock
  {
    var s1 := After(m, s, run);
    if B <= s1.inBlock {
      assert s1.inBlock == B;
      return run;
    }
    RunKeeps(m, s, run);
    var x :| x in B && x !in s1.inBlock;
    var package := m.Package(x) - s1.inBlock;
    var order := ListFrom(package, x);
    var e := Include(x, order);
    assert ClosedAt(m, B, B, x);
    AfterAppend(m, s, run, e);
    IncludeKeeps(m, s1, x, order);
    LogGrows(m, Joined(s1, package), order, package, t);
    run' := Complete(m, s, run + [e], t, B);
  }

  /** Every ancestor of t that goes in can be the first one subtracted. */
  lemma ReachFirst(m: Mempool, s: State, t: Tx, B: set<Tx>, f: Tx) returns (run: seq<Event>)
    requires m.Valid() && Consistent(m, s) && Uncached(m, s, t) && Closed(m, B) && s.inBlock <= B && t !in B
    requires f in m.Ancestors(t) * B - s.inBlock
    ensures Leads(m, s, run, t, B)
    ensures t in After(m, s, run).log && After(m, s, run).log[t] != [] && After(m, s, run).log[t][0] == f
  {
    var package := m.Package(f) - s.inBlock;
    var order := ListFrom(package, f);
    var e := Include(f, order);
    assert ClosedAt(m, B, B, f);
    AfterAppend(m, s, [], e);
    assert [] + [e] == [e];
    IncludeKeeps(m, s, f, order);
    assert CachedHere(m, s, s.inBlock, t);
    LogStarts(m, Joined(s, package), order, package, t);
    run := Complete(m, s, [e], t, B);
  }

  /** In every run to B in which t does not fail, its cached fees are the fees left. */
  ghost predicate ExactInEveryRun(m: Mempool, s: State, t: Tx, B: set<Tx>) {
    forall run | Leads(m, s, run, t, B) ::
      t in After(m, s, run).mods && After(m, s, run).mods[t].modFees == Left(m, t, ModFee, B)
  }

  /**
   From a state in which t is not cached (it never was, or it has just failed) to a block B
   with new ancestors K of it: the cached fees are exact, in whatever order these went in,
   if and only if the modified fees of the ancestors that were in already, and |K| - 1 times
   the priority of each member of K, make zero.
   */
  lemma CachedFeesExactlyWhen(m: Mempool, s: State, t: Tx, B: set<Tx>)
    requires m.Valid() && Consistent(m, s) && Uncached(m, s, t) && Closed(m, B) && s.inBlock <= B && t !in B
    requires m.Ancestors(t) * B - s.inBlock != {}
    ensures ExactInEveryRun(m, s, t, B)
            <==> Balanced(m, m.Ancestors(t) * B - s.inBlock, m.Sum(ModFee, m.Ancestors(t) * s.inBlock))
  {
    var K, M := m.Ancestors(t) * B - s.inBlock, m.Sum(ModFee, m.Ancestors(t) * s.inBlock);
    AnyFirstIsBalanced(m, K, M);
    if AnyFirst(m, K, M) {
      forall run | Leads(m, s, run, t, B)
        ensures t in After(m, s, run).mods && After(m, s, run).mods[t].modFees == Left(m, t, ModFee, B)
      {
        ReachedEntry(m, s, run, t, B);
      }
    }
    if ExactInEveryRun(m, s, t, B) {
      forall f | f in K ensures M + Deltas(m, K - {f}) == 0 {
        var run := ReachFirst(m, s, t, B, f);
        ReachedEntry(m, s, run, t, B);
      }
    }
  }

  /**
   If no ancestor of t was in the block: exactly when at most one has gone in since, or none
   of those that have is prioritised.
   */
  lemma UnfailedFeesExactlyWhen(m: Mempool, s: State, t: Tx, B: set<Tx>)
    requires m.Valid() && Consistent(m, s) && Uncached(m, s, t) && Closed(m, B) && s.inBlock <= B && t !in B
    requires m.Ancestors(t) !! s.inBlock && m.Ancestors(t) * B != {}
    ensures ExactInEveryRun(m, s, t, B)
            <==> |m.Ancestors(t) * B| <= 1 || forall a | a in m.Ancestors(t) * B :: m.Get(Fee, a) == m.Get(ModFee, a)
  {
    var K := m.Ancestors(t) * B - s.inBlock;
    assert K == m.Ancestors(t) * B && m.Ancestors(t) * s.inBlock == {};
    CachedFeesExactlyWhen(m, s, t, B);
    BalancedWithoutLoss(m, K);
  }

  /**
   After a cached entry fails, and is cached again for new ancestors K: the modified fees of
   the ancestors that went in before it failed are never subtracted, so the priorities of K
   have to make up for them.
   */
  lemma FailedFeesExactlyWhen(m: Mempool, s: State, t: Tx, B: set<Tx>)
    requires m.Valid() && Consistent(m, s) && t in s.mods && Closed(m, B) && s.inBlock <= B && t !in B
    requires m.Ancestors(t) * B - s.inBlock != {}
    ensures var K, M := m.Ancestors(t) * B - s.inBlock, m.Sum(ModFee, m.Ancestors(t) * s.inBlock);
            ExactInEveryRun(m, Next(m, s, Drop(t)), t, B) <==> forall a | a in K :: M + (|K| - 1) * Delta(m, a) == 0
  {
    DropKeeps(m, s, t);
    CachedFeesExactlyWhen(m, Next(m, s, Drop(t)), t, B);
  }
}
