/**
 The rule by which packages are selected: which one is next, whether it goes in, and when to
 stop. A selection is a run that follows the rule at every step.
 */
module PackageSelection {
  import opened Mempools
  import opened PackageCache
  import opened PackageScore
  import opened Numbers

  const MAX_BLOCK_SIGOPS_COST := 80000
  const MAX_CONSECUTIVE_FAILURES := 1000

  // ---------- fee rates ----------

  /** C++ division rounds toward zero. */
  function TruncDiv(a: int, d: nat): int
    requires d > 0
  {
    if a >= 0 then a / d else -(-a / d)
  }

  function GetFee(nSatoshisPerK: int, nSize: int): int {
    var nFee := TruncDiv(nSatoshisPerK * nSize, 1000);
    if nFee != 0 || nSize == 0 then nFee
    else if nSatoshisPerK > 0 then 1 else if nSatoshisPerK < 0 then -1 else 0
  }

  lemma ProductSign(rate: int, size: nat)
    ensures rate >= 0 ==> rate * size >= 0
    ensures rate > 0 && size > 0 ==> rate * size >= 1
  {
    if rate >= 0 { MulLe(0, rate, size); }
    if rate > 0 { MulLe(1, rate, size); }
  }

  /**
   The fee of a size at a rate per 1000: their product over 1000 toward zero, but at least one
   satoshi in the sign of the rate for a size that is not zero.
   */
  lemma GetFeeMeans(rate: int, size: nat)
    ensures GetFee(-rate, size) == -GetFee(rate, size)
    ensures rate == 0 || size == 0 ==> GetFee(rate, size) == 0
    ensures rate > 0 && size > 0 ==>
              && GetFee(rate, size) >= 1
              && rate * size < 1000 * GetFee(rate, size) + 1000
              && (1000 * GetFee(rate, size) <= rate * size || (GetFee(rate, size) == 1 && rate * size < 1000))
  {
    ProductSign(rate, size);
    ProductSign(-rate, size);
    assert -rate * size == -(rate * size);
  }

  // ---------- the rule ----------

  datatype Limits = Limits(maxWeight: nat, nSatoshisPerK: int, withWitness: bool)

  ghost function WeightOf(m: Mempool, inBlock: set<Tx>): int { 4000 + m.Sum(Weight, inBlock) }

  ghost function SigOpsOf(m: Mempool, inBlock: set<Tx>): int { 400 + m.Sum(SigOps, inBlock) }

  /** There is room for totals like these, with what is reserved for the coinbase. */
  ghost predicate Roomy(m: Mempool, l: Limits, inBlock: set<Tx>, e: Modified) {
    && WeightOf(m, inBlock) + WITNESS_SCALE_FACTOR * e.size < l.maxWeight
    && SigOpsOf(m, inBlock) + e.sigops < MAX_BLOCK_SIGOPS_COST
  }

  predicate Permitted(m: Mempool, l: Limits, package: set<Tx>) {
    forall t | t in package :: m.At(t).isFinal && (l.withWitness || !m.At(t).hasWitness)
  }

  predicate Pays(l: Limits, e: Modified) { e.modFees >= GetFee(l.nSatoshisPerK, e.size) }

  /** What is left of a package goes in exactly if there is room for its totals and all of it may go in. */
  ghost predicate GoesIn(m: Mempool, l: Limits, s: State, t: Tx) {
    Roomy(m, l, s.inBlock, Entry(m, s.mods, t)) && Permitted(m, l, m.Package(t) - s.inBlock)
  }

  /** The event that the rule prescribes for its subject. */
  ghost predicate Prescribed(m: Mempool, l: Limits, s: State, e: Event) {
    match e
    case Include(t, _) => GoesIn(m, l, s, t)
    case Drop(t) => !GoesIn(m, l, s, t) && t in s.mods
    case Pass(t) => !GoesIn(m, l, s, t) && t !in s.mods
  }

  ghost predicate NoRoom(m: Mempool, l: Limits, s: State, e: Event) {
    !e.Include? && !Roomy(m, l, s.inBlock, Entry(m, s.mods, e.Subject()))
  }

  /** The packages for which there was no room since one last went in. */
  ghost function Failures(m: Mempool, l: Limits, start: State, run: seq<Event>): nat {
    if run == [] then 0
    else
      var before, e := run[..|run| - 1], run[|run| - 1];
      if e.Include? then 0
      else Failures(m, l, start, before) + if NoRoom(m, l, After(m, start, before), e) then 1 else 0
  }

  /** There was no room for more than 1000 packages in a row, the last one among them, and the block is nearly full. */
  ghost predicate GivesUp(m: Mempool, l: Limits, start: State, run: seq<Event>) {
    && run != [] && NoRoom(m, l, After(m, start, run[..|run| - 1]), run[|run| - 1])
    && Failures(m, l, start, run) > MAX_CONSECUTIVE_FAILURES
    && WeightOf(m, After(m, start, run).inBlock) > l.maxWeight - 4000
  }

  /** One more step: a best candidate that pays enough, and what is prescribed for it. */
  ghost predicate Proceeds(m: Mempool, l: Limits, s: State, e: Event) {
    && Enabled(m, s, e) && Best(m, s, e.Subject())
    && Pays(l, Entry(m, s.mods, e.Subject())) && Prescribed(m, l, s, e)
  }

  ghost predicate Selection(m: Mempool, l: Limits, start: State, run: seq<Event>) {
    run != [] ==>
      && Selection(m, l, start, run[..|run| - 1])
      && !GivesUp(m, l, start, run[..|run| - 1])
      && Proceeds(m, l, After(m, start, run[..|run| - 1]), run[|run| - 1])
  }

  /** The packages that went in. */
  function Inclusions(run: seq<Event>): nat {
    if run == [] then 0 else Inclusions(run[..|run| - 1]) + if run[|run| - 1].Include? then 1 else 0
  }

  function UpdatesFor(m: Mempool, s: State, e: Event): nat {
    if e.Include? then ToldCount(m, e.order, m.Package(e.iter) - s.inBlock) else 0
  }

  /** The entries updated for them. */
  function Updates(m: Mempool, start: State, run: seq<Event>): nat {
    if run == [] then 0
    else Updates(m, start, run[..|run| - 1]) + UpdatesFor(m, After(m, start, run[..|run| - 1]), run[|run| - 1])
  }

  datatype Outcome = Exhausted | BelowMinimum | GaveUp

  /** The three ways in which a selection may end. */
  ghost predicate Ends(m: Mempool, l: Limits, start: State, run: seq<Event>, outcome: Outcome) {
    var s := After(m, start, run);
    match outcome
    case Exhausted => !GivesUp(m, l, start, run) && forall t :: !Candidate(m, s, t)
    case BelowMinimum => !GivesUp(m, l, start, run) && exists c :: Best(m, s, c) && !Pays(l, Entry(m, s.mods, c))
    case GaveUp => GivesUp(m, l, start, run)
  }

  lemma SelectionAppend(m: Mempool, l: Limits, start: State, run: seq<Event>, e: Event)
    requires Selection(m, l, start, run) && !GivesUp(m, l, start, run) && Proceeds(m, l, After(m, start, run), e)
    ensures Selection(m, l, start, run + [e])
  {
    assert (run + [e])[..|run|] == run;
  }

  lemma AfterOne(m: Mempool, start: State, run: seq<Event>, e: Event)
    ensures After(m, start, run + [e]) == Next(m, After(m, start, run), e)
  {
    assert (run + [e])[..|run|] == run;
  }

  lemma FailuresAppend(m: Mempool, l: Limits, start: State, run: seq<Event>, e: Event)
    ensures Failures(m, l, start, run + [e])
            == if e.Include? then 0
               else Failures(m, l, start, run) + if NoRoom(m, l, After(m, start, run), e) then 1 else 0
  {
    assert (run + [e])[..|run|] == run;
  }

  lemma GivesUpAppend(m: Mempool, l: Limits, start: State, run: seq<Event>, e: Event)
    ensures GivesUp(m, l, start, run + [e]) <==>
              && NoRoom(m, l, After(m, start, run), e) && Failures(m, l, start, run + [e]) > MAX_CONSECUTIVE_FAILURES
              && WeightOf(m, Next(m, After(m, start, run), e).inBlock) > l.maxWeight - 4000
  {
    assert (run + [e])[..|run|] == run;
    AfterOne(m, start, run, e);
  }

  lemma InclusionsAppend(run: seq<Event>, e: Event)
    ensures Inclusions(run + [e]) == Inclusions(run) + if e.Include? then 1 else 0
  {
    assert (run + [e])[..|run|] == run;
  }

  lemma UpdatesAppend(m: Mempool, start: State, run: seq<Event>, e: Event)
    ensures Updates(m, start, run + [e]) == Updates(m, start, run) + UpdatesFor(m, After(m, start, run), e)
  {
    assert (run + [e])[..|run|] == run;
  }

  /** The counters of the loop: packages selected, entries updated, failures in a row. */
  ghost predicate Tally(m: Mempool, l: Limits, start: State, run: seq<Event>, selected: nat, updated: nat,
                        failed: nat) {
    selected == Inclusions(run) && updated == Updates(m, start, run) && failed == Failures(m, l, start, run)
  }

  lemma TallyAppend(m: Mempool, l: Limits, start: State, run: seq<Event>, run': seq<Event>, e: Event,
                    selected: nat, updated: nat, failed: nat, n: nat, failed': nat)
    requires Tally(m, l, start, run, selected, updated, failed) && run' == run + [e]
    requires n == UpdatesFor(m, After(m, start, run), e)
    requires failed' == if e.Include? then 0 else failed + if NoRoom(m, l, After(m, start, run), e) then 1 else 0
    ensures Tally(m, l, start, run', if e.Include? then selected + 1 else selected, updated + n, failed')
  {
    FailuresAppend(m, l, start, run, e);
    InclusionsAppend(run, e);
    UpdatesAppend(m, start, run, e);
  }

  /** What a step is, for the counters and for giving up. */
  ghost predicate Accounted(m: Mempool, l: Limits, s: State, e: Event, added: bool, fits: bool, n: nat) {
    && (added <==> e.Include?) && n == UpdatesFor(m, s, e)
    && (added ==> fits) && (!added ==> (fits <==> !NoRoom(m, l, s, e)))
  }

  function FailedNow(failed: nat, added: bool, fits: bool): nat {
    if added then 0 else if fits then failed else failed + 1
  }

  lemma Recorded(m: Mempool, l: Limits, start: State, run: seq<Event>, e: Event,
                 selected: nat, updated: nat, failed: nat, added: bool, fits: bool, n: nat)
    requires Selection(m, l, start, run) && !GivesUp(m, l, start, run) && Proceeds(m, l, After(m, start, run), e)
    requires Tally(m, l, start, run, selected, updated, failed)
    requires Accounted(m, l, After(m, start, run), e, added, fits, n)
    ensures Selection(m, l, start, run + [e]) && After(m, start, run + [e]) == Next(m, After(m, start, run), e)
    ensures Tally(m, l, start, run + [e], if added then selected + 1 else selected, updated + n,
                  FailedNow(failed, added, fits))
    ensures GivesUp(m, l, start, run + [e]) <==>
              && !fits && FailedNow(failed, added, fits) > MAX_CONSECUTIVE_FAILURES
              && WeightOf(m, Next(m, After(m, start, run), e).inBlock) > l.maxWeight - 4000
  {
    SelectionAppend(m, l, start, run, e);
    AfterOne(m, start, run, e);
    TallyAppend(m, l, start, run, run + [e], e, selected, updated, failed, n, FailedNow(failed, added, fits));
    GivesUpAppend(m, l, start, run, e);
  }

  lemma {:induction false} SelectionIsGreedy(m: Mempool, l: Limits, start: State, run: seq<Event>)
    requires Selection(m, l, start, run)
    ensures Greedy(m, start, run)
  {
    if run != [] { SelectionIsGreedy(m, l, start, run[..|run| - 1]); }
  }

  /** A selection that has ended cannot go on: the rule leaves no choice between stopping and continuing. */
  lemma EndedIsEnd(m: Mempool, l: Limits, start: State, run: seq<Event>, outcome: Outcome, e: Event)
    requires Selection(m, l, start, run) && Ends(m, l, start, run, outcome) && DistinctRanks(m)
    ensures !Selection(m, l, start, run + [e])
  {
    assert (run + [e])[..|run|] == run;
    var s := After(m, start, run);
    if outcome == BelowMinimum && Proceeds(m, l, s, e) {
      var c :| Best(m, s, c) && !Pays(l, Entry(m, s.mods, c));
      BestIsUnique(m, s, c, e.Subject());
    }
  }

  /** Transaction ids differ. */
  predicate DistinctRanks(m: Mempool) {
    forall a, b | a in m.entries && b in m.entries && a != b :: m.At(a).txidRank != m.At(b).txidRank
  }

  lemma BestIsUnique(m: Mempool, s: State, a: Tx, b: Tx)
    requires DistinctRanks(m) && Best(m, s, a) && Best(m, s, b)
    ensures a == b
  {
    assert NoBetterAt(m, s, a, b) && NoBetterAt(m, s, b, a);
    NotBetter(m, a, Entry(m, s.mods, a), b, Entry(m, s.mods, b));
    NotBetter(m, b, Entry(m, s.mods, b), a, Entry(m, s.mods, a));
  }
}
