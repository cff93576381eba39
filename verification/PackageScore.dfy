/**
 The score by which packages compete, and runs that always take a best one. Fee times size is
 exact here.
 */
module PackageScore {
  import opened Mempools
  import opened PackageCache
  import opened PackageFees
  import opened Numbers

  datatype Rate = Rate(fee: int, size: int)

  /** The lower of a transaction's own fee rate and that of what is left of its package. */
  function Score(m: Mempool, t: Tx, e: Modified): Rate {
    if m.Get(ModFee, t) * e.size > e.modFees * m.Get(Size, t) then Rate(e.modFees, e.size)
    else Rate(m.Get(ModFee, t), m.Get(Size, t))
  }

  predicate RateAtMost(a: Rate, b: Rate) { a.fee * b.size <= b.fee * a.size }

  lemma RateTrans(a: Rate, b: Rate, c: Rate)
    requires RateAtMost(a, b) && RateAtMost(b, c) && a.size > 0 && b.size > 0 && c.size > 0
    ensures RateAtMost(a, c)
    ensures a.fee * c.size == c.fee * a.size ==> RateAtMost(b, a) && RateAtMost(c, b)
  {
    Crossed(a.fee, a.size, b.fee, b.size, c.fee, c.size);
    if a.fee * c.size == c.fee * a.size {
      Crossed(c.fee, c.size, a.fee, a.size, b.fee, b.size);
      Crossed(b.fee, b.size, c.fee, c.size, a.fee, a.size);
    }
  }

  lemma Crossed(f1: int, s1: int, f2: int, s2: int, f3: int, s3: int)
    requires s1 > 0 && s2 > 0 && s3 > 0 && f1 * s2 <= f2 * s1 && f2 * s3 <= f3 * s2
    ensures f1 * s3 <= f3 * s1
  {
    Scaled(f1 * s2, f2 * s1, s3);
    Scaled(f2 * s3, f3 * s2, s1);
    assert (f1 * s2) * s3 == (f1 * s3) * s2 && (f2 * s1) * s3 == (f2 * s3) * s1 && (f3 * s2) * s1 == (f3 * s1) * s2;
    Unscaled(f1 * s3, f3 * s1, s2);
  }

  lemma Scaled(x: int, y: int, k: int)
    requires x <= y && k > 0
    ensures x * k <= y * k
  {
  }

  lemma Unscaled(x: int, y: int, k: int)
    requires x * k <= y * k && k > 0
    ensures x <= y
  {
  }

  /** The score is at most either rate, and it is one of them. */
  lemma ScoreIsLower(m: Mempool, t: Tx, e: Modified)
    requires m.Get(Size, t) > 0 && e.size > 0
    ensures var s, own, left := Score(m, t, e), Rate(m.Get(ModFee, t), m.Get(Size, t)), Rate(e.modFees, e.size);
            s.size > 0 && RateAtMost(s, own) && RateAtMost(s, left) && (s == own || s == left)
  {
    Commute(m.Get(ModFee, t), e.size);
  }

  /** CompareTxMemPoolEntryByAncestorFee: the higher score first, then the lower transaction id. */
  predicate Better(m: Mempool, a: Tx, ea: Modified, b: Tx, eb: Modified) {
    var A, B := Score(m, a, ea), Score(m, b, eb);
    if A.fee * B.size == A.size * B.fee then m.At(a).txidRank < m.At(b).txidRank else A.fee * B.size > A.size * B.fee
  }

  ghost predicate Sized(m: Mempool, t: Tx, e: Modified) { m.Get(Size, t) > 0 && e.size > 0 }

  lemma NotBetter(m: Mempool, a: Tx, ea: Modified, b: Tx, eb: Modified)
    ensures var A, B := Score(m, a, ea), Score(m, b, eb);
            !Better(m, b, eb, a, ea)
            <==> RateAtMost(B, A) && (RateAtMost(A, B) ==> m.At(a).txidRank <= m.At(b).txidRank)
  {
    var A, B := Score(m, a, ea), Score(m, b, eb);
    Commute(A.fee, B.size);
    Commute(B.fee, A.size);
  }

  /** Being no better is transitive, so the best of some is no worse than any of them. */
  lemma NotBetterTrans(m: Mempool, a: Tx, ea: Modified, b: Tx, eb: Modified, c: Tx, ec: Modified)
    requires Sized(m, a, ea) && Sized(m, b, eb) && Sized(m, c, ec)
    requires !Better(m, b, eb, a, ea) && !Better(m, c, ec, b, eb)
    ensures !Better(m, c, ec, a, ea)
  {
    NotBetter(m, a, ea, b, eb);
    NotBetter(m, b, eb, c, ec);
    NotBetter(m, a, ea, c, ec);
    ScoreIsLower(m, a, ea);
    ScoreIsLower(m, b, eb);
    ScoreIsLower(m, c, ec);
    RateTrans(Score(m, c, ec), Score(m, b, eb), Score(m, a, ea));
  }

  lemma NeverBoth(m: Mempool, a: Tx, ea: Modified, b: Tx, eb: Modified)
    requires Better(m, a, ea, b, eb)
    ensures !Better(m, b, eb, a, ea)
  {
    var A, B := Score(m, a, ea), Score(m, b, eb);
    Commute(A.fee, B.size);
    Commute(B.fee, A.size);
  }

  // ---------- candidates ----------

  function Entry(m: Mempool, mods: map<Tx, Modified>, t: Tx): Modified { if t in mods then mods[t] else Whole(m, t) }

  predicate Candidate(m: Mempool, s: State, u: Tx) {
    u in m.entries && u !in s.inBlock && (u in s.mods || (u !in s.lost && u !in s.passed))
  }

  predicate NoBetterAt(m: Mempool, s: State, t: Tx, u: Tx) {
    Candidate(m, s, u) ==> !Better(m, u, Entry(m, s.mods, u), t, Entry(m, s.mods, t))
  }

  /** t is a candidate, and none is better. */
  ghost predicate Best(m: Mempool, s: State, t: Tx) {
    Candidate(m, s, t) && forall u :: NoBetterAt(m, s, t, u)
  }

  /** A run that includes, drops or passes over a best candidate each time. */
  ghost predicate Greedy(m: Mempool, s: State, run: seq<Event>) {
    run != [] ==>
      && Greedy(m, s, run[..|run| - 1])
      && Enabled(m, After(m, s, run[..|run| - 1]), run[|run| - 1])
      && Best(m, After(m, s, run[..|run| - 1]), run[|run| - 1].Subject())
  }

  lemma GreedyAppend(m: Mempool, s: State, run: seq<Event>, e: Event)
    requires Greedy(m, s, run) && Enabled(m, After(m, s, run), e) && Best(m, After(m, s, run), e.Subject())
    ensures Greedy(m, s, run + [e]) && After(m, s, run + [e]) == Next(m, After(m, s, run), e)
  {
    assert (run + [e])[..|run|] == run;
  }

  lemma {:induction false} GreedyRuns(m: Mempool, s: State, run: seq<Event>)
    requires Greedy(m, s, run)
    ensures Runs(m, s, run)
  {
    if run != [] { GreedyRuns(m, s, run[..|run| - 1]); }
  }

  lemma CandidateSized(m: Mempool, s: State, t: Tx)
    requires m.Valid() && Consistent(m, s) && Candidate(m, s, t)
    ensures Sized(m, t, Entry(m, s.mods, t))
  {
    assert m.ValidAt(t);
    if t in s.mods { CachedBounds(m, s, t); } else { UncachedIsWhole(m, s, t); }
    var rest := m.Package(t) - s.inBlock;
    m.SumRemove(Size, rest, t);
    m.SumAmounts(rest - {t});
  }

  // ---------- fees that drift ----------

  /** Two prioritised parents of one child. */
  function Prioritised(): Mempool {
    Mempool(map[0 := Info({}, 1, 4, 0, 10, 20, 1, 1, 0, 20, 0, true, false),
                1 := Info({}, 1, 4, 0, 10, 15, 1, 1, 0, 15, 1, true, false),
                2 := Info({0, 1}, 1, 4, 0, 10, 10, 3, 3, 0, 45, 2, true, false)])
  }

  lemma SumOne(m: Mempool, f: Field, x: Tx)
    ensures m.Sum(f, {x}) == m.Get(f, x)
  {
    m.SumRemove(f, {x}, x);
    assert {x} - {x} == {};
  }

  lemma SumThree(m: Mempool, f: Field)
    ensures m.Sum(f, {0, 1, 2}) == m.Get(f, 0) + m.Get(f, 1) + m.Get(f, 2)
  {
    m.SumRemove(f, {0, 1, 2}, 2);
    assert {0, 1, 2} - {2} == {0, 1};
    m.SumRemove(f, {0, 1}, 1);
    assert {0, 1} - {1} == {0};
    SumOne(m, f, 0);
  }

  /** Two parents without ancestors, and their child. */
  predicate Family(m: Mempool) {
    m.entries.Keys == {0, 1, 2} && m.Ancestors(0) == {} && m.Ancestors(1) == {} && m.Ancestors(2) == {0, 1}
  }

  lemma ParentValid(m: Mempool, t: Tx)
    requires t in m.entries && m.Ancestors(t) == {} && m.AmountsAt(t)
    requires m.At(t).countAnc == 1 && m.At(t).sizeAnc == m.At(t).size
    requires m.At(t).sigopsAnc == m.At(t).sigops && m.At(t).modFeeAnc == m.At(t).modFee
    ensures m.ValidAt(t)
  {
    assert m.Package(t) == {t};
    SumOne(m, Size, t);
    SumOne(m, SigOps, t);
    SumOne(m, ModFee, t);
  }

  lemma ChildValid(m: Mempool)
    requires Family(m) && m.AmountsAt(2) && m.At(2).countAnc == 3
    requires m.At(2).sizeAnc == m.At(0).size + m.At(1).size + m.At(2).size
    requires m.At(2).sigopsAnc == m.At(0).sigops + m.At(1).sigops + m.At(2).sigops
    requires m.At(2).modFeeAnc == m.At(0).modFee + m.At(1).modFee + m.At(2).modFee
    ensures m.ValidAt(2)
  {
    assert m.Package(2) == {0, 1, 2};
    assert |{0, 1, 2}| == 3;
    SumThree(m, Size);
    SumThree(m, SigOps);
    SumThree(m, ModFee);
  }

  /** The amounts of the family. */
  predicate Drifting(m: Mempool) {
    && Family(m)
    && m.Get(Size, 0) == m.Get(Size, 1) == m.Get(Size, 2) == 1
    && m.Get(SigOps, 0) == m.Get(SigOps, 1) == m.Get(SigOps, 2) == 0
    && m.Get(Fee, 0) == m.Get(Fee, 1) == m.Get(Fee, 2) == 10
    && m.Get(ModFee, 0) == 20 && m.Get(ModFee, 1) == 15 && m.Get(ModFee, 2) == 10
    && Whole(m, 0) == Modified(1, 20, 0) && Whole(m, 1) == Modified(1, 15, 0) && Whole(m, 2) == Modified(3, 45, 0)
  }

  lemma PrioritisedValid() returns (m: Mempool)
    ensures Drifting(m) && m.Valid()
  {
    m := Prioritised();
    ParentValid(m, 0);
    ParentValid(m, 1);
    ChildValid(m);
    forall t ensures m.ValidAt(t) { }
  }

  lemma OnlyChild(m: Mempool, s: State, it: Tx)
    requires Family(m) && (it == 0 || it == 1) && it !in s.inBlock
    ensures m.Package(it) - s.inBlock == {it} && m.Descendants(it) - {it} == {2} && Lists([it], {it})
  {
    assert m.Package(it) == {it};
    assert m.Descendants(it) == {it, 2};
    assert [it][..0] == [] && {it} - {it} == {};
  }

  lemma ToldOne(m: Mempool, s: State, it: Tx)
    requires m.Descendants(it) - {it} == {2} && s.mods.Keys <= {2} && s.log.Keys == s.mods.Keys
    ensures ToldAll(m, s, [it], {it}).mods == map[2 := Subtract(m, s.mods, 2, it)]
    ensures ToldAll(m, s, [it], {it}).log.Keys == {2}
  {
    assert [it][..0] == [];
    assert ToldAll(m, s, [it], {it}) == Told(m, s, it, {it});
    assert s.mods.Keys + {2} == {2};
  }

  lemma JoinedOther(s: State, it: Tx)
    requires it !in s.mods && s.log.Keys == s.mods.Keys
    ensures Joined(s, {it}).mods == s.mods && Joined(s, {it}).log == s.log
  {
  }

  /** One parent goes in, and its child is told. */
  lemma OneTold(m: Mempool, s: State, it: Tx)
    requires Family(m) && (it == 0 || it == 1)
    requires s.mods.Keys <= {2} && s.log.Keys == s.mods.Keys && it !in s.inBlock
    ensures var s' := Next(m, s, Include(it, [it]));
            && Enabled(m, s, Include(it, [it])) && s'.inBlock == s.inBlock + {it}
            && s'.mods == map[2 := Subtract(m, s.mods, 2, it)] && s'.log.Keys == {2}
            && s'.lost == s.lost && s'.passed == s.passed
  {
    OnlyChild(m, s, it);
    JoinedOther(s, it);
    var j := Joined(s, {it});
    ToldOne(m, j, it);
    ToldFrame(m, j, [it], {it});
  }

  lemma FirstIsBest(m: Mempool, s: State)
    requires Drifting(m) && s.mods == map[] && s.lost == map[] && s.passed == {} && s.inBlock == {}
    ensures Best(m, s, 0)
  {
    forall u ensures NoBetterAt(m, s, 0, u) { }
  }

  lemma SecondIsBest(m: Mempool, s: State)
    requires Drifting(m) && s.lost == map[] && s.passed == {} && s.inBlock == {0}
    requires s.mods.Keys == {2} && s.mods[2] == Modified(2, 25, 0)
    ensures Best(m, s, 1)
  {
    forall u ensures NoBetterAt(m, s, 1, u) { }
  }

  lemma DriftLeft(m: Mempool)
    requires Family(m)
    ensures Left(m, 2, ModFee, {0, 1}) == m.At(2).modFee
  {
    assert m.Package(2) - {0, 1} == {2};
    SumOne(m, ModFee, 2);
  }

  lemma TwoSteps(m: Mempool, s: State, run: seq<Event>)
    requires |run| == 2
    requires Enabled(m, s, run[0]) && Best(m, s, run[0].Subject())
    requires Enabled(m, Next(m, s, run[0]), run[1]) && Best(m, Next(m, s, run[0]), run[1].Subject())
    ensures Greedy(m, s, run) && After(m, s, run) == Next(m, Next(m, s, run[0]), run[1])
  {
    var none, one := run[..0], run[..1];
    assert one[..0] == none && After(m, s, none) == s && Greedy(m, s, none);
    assert After(m, s, one) == Next(m, s, run[0]) && Greedy(m, s, one);
  }

  lemma FirstStep(m: Mempool, s: State, e: Event)
    requires Drifting(m) && e == Include(0, [0])
    requires s.mods == map[] && s.log == map[] && s.lost == map[] && s.passed == {} && s.inBlock == {}
    ensures Enabled(m, s, e) && Best(m, s, e.Subject())
    ensures var s' := Next(m, s, e);
            && s'.mods.Keys == {2} && s'.mods[2] == Modified(2, 25, 0) && s'.log.Keys == {2}
            && s'.lost == map[] && s'.passed == {} && s'.inBlock == {0}
  {
    OneTold(m, s, 0);
    FirstIsBest(m, s);
  }

  lemma SecondStep(m: Mempool, s: State, e: Event)
    requires Drifting(m) && e == Include(1, [1])
    requires s.mods.Keys == {2} && s.mods[2] == Modified(2, 25, 0) && s.log.Keys == {2}
    requires s.lost == map[] && s.passed == {} && s.inBlock == {0}
    ensures Enabled(m, s, e) && Best(m, s, e.Subject())
    ensures Next(m, s, e).mods == map[2 := Modified(1, 15, 0)] && Next(m, s, e).inBlock == {0, 1}
  {
    OneTold(m, s, 1);
    SecondIsBest(m, s);
  }

  lemma Drifts(m: Mempool, s: State, run: seq<Event>)
    requires Drifting(m) && |run| == 2 && run[0] == Include(0, [0]) && run[1] == Include(1, [1])
    requires s.mods == map[] && s.log == map[] && s.lost == map[] && s.passed == {} && s.inBlock == {}
    ensures Greedy(m, s, run) && After(m, s, run).inBlock == {0, 1}
    ensures After(m, s, run).mods == map[2 := Modified(1, 15, 0)] && Left(m, 2, ModFee, {0, 1}) == 10
  {
    FirstStep(m, s, run[0]);
    SecondStep(m, Next(m, s, run[0]), run[1]);
    TwoSteps(m, s, run);
    DriftLeft(m);
  }

  /**
   A mempool, an empty block and a run in which the scores put the two prioritised parents
   first and second. Then their child is cached with 15 although 10 is left of its package.
   */
  lemma CachedFeesCanDrift() returns (m: Mempool, s: State, run: seq<Event>)
    ensures m.Valid() && s == Started(m, {}, []) && Consistent(m, s)
    ensures Greedy(m, s, run) && After(m, s, run).inBlock == {0, 1}
    ensures After(m, s, run).mods == map[2 := Modified(1, 15, 0)] && Left(m, 2, ModFee, {0, 1}) == 10
  {
    m := PrioritisedValid();
    EmptyStart(m);
    s := Started(m, {}, []);
    run := ParentsRun();
    Drifts(m, s, run);
  }

  lemma ParentsRun() returns (run: seq<Event>)
    ensures |run| == 2 && run[0] == Include(0, [0]) && run[1] == Include(1, [1])
  {
    run := [Include(0, [0]), Include(1, [1])];
  }

  lemma EmptyStart(m: Mempool)
    ensures Started(m, {}, []) == State(map[], map[], map[], {}, {}) && Consistent(m, Started(m, {}, []))
  {
    forall t ensures ClosedAt(m, {}, {}, t) { }
    StartedConsistent(m, {}, []);
  }
}
