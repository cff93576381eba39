/**
 What the block assembler remembers of packages that are partly in the block: cached totals,
 from which every included ancestor is subtracted, and the score by which packages compete.
 The log, the block at the last failure and the entries passed over are history: they say
 what has happened to the cache, and nothing is decided by them.
 */
module PackageCache {
  import opened Mempools

  // ---------- cached totals ----------

  datatype Modified = Modified(size: int, modFees: int, sigops: int)

  function Whole(m: Mempool, t: Tx): Modified {
    Modified(m.At(t).sizeAnc, m.At(t).modFeeAnc, m.At(t).sigopsAnc)
  }

  /** A new entry: the modified fee of the included ancestor goes. */
  function Fresh(m: Mempool, t: Tx, it: Tx): Modified {
    var e := Whole(m, t);
    Modified(e.size - m.Get(Size, it), e.modFees - m.Get(ModFee, it), e.sigops - m.Get(SigOps, it))
  }

  /** update_for_parent_inclusion: its plain fee goes. */
  function Less(m: Mempool, e: Modified, it: Tx): Modified {
    Modified(e.size - m.Get(Size, it), e.modFees - m.Get(Fee, it), e.sigops - m.Get(SigOps, it))
  }

  function Subtract(m: Mempool, mods: map<Tx, Modified>, t: Tx, it: Tx): Modified {
    if t in mods then Less(m, mods[t], it) else Fresh(m, t, it)
  }

  function Updated(m: Mempool, mods: map<Tx, Modified>, it: Tx, who: set<Tx>): map<Tx, Modified> {
    map t | t in mods.Keys + who :: if t in who then Subtract(m, mods, t, it) else mods[t]
  }

  /** Every transaction of a list is subtracted, one after the other, from what depends on it. */
  function UpdatedAll(m: Mempool, mods: map<Tx, Modified>, order: seq<Tx>, added: set<Tx>): map<Tx, Modified> {
    if order == [] then mods else
      var n := |order| - 1;
      Updated(m, UpdatedAll(m, mods, order[..n], added), order[n], m.Descendants(order[n]) - added)
  }

  /** A list of a set: every element once. */
  ghost predicate Lists(s: seq<Tx>, S: set<Tx>) {
    if s == [] then S == {} else s[|s| - 1] in S && Lists(s[..|s| - 1], S - {s[|s| - 1]})
  }

  lemma ListsAppend(s: seq<Tx>, S: set<Tx>, x: Tx)
    requires Lists(s, S) && x !in S
    ensures Lists(s + [x], S + {x})
  {
    assert (s + [x])[..|s|] == s && S + {x} - {x} == S;
  }

  lemma MoveOne(whole: set<Tx>, todo: set<Tx>, x: Tx)
    requires x in todo
    ensures whole - (todo - {x}) == if x in whole then whole - todo + {x} else whole - todo
  {
  }

  /** The entries of those of `who` that are no longer to be looked at. */
  ghost predicate UpdatedSoFar(m: Mempool, it: Tx, who: set<Tx>, todo: set<Tx>, mods: map<Tx, Modified>,
                               mods': map<Tx, Modified>, n: nat) {
    mods' == Updated(m, mods, it, who - todo) && n == |who - todo|
  }

  lemma UpdatedMore(m: Mempool, it: Tx, who: set<Tx>, todo: set<Tx>, mods: map<Tx, Modified>,
                    mods': map<Tx, Modified>, n: nat, d: Tx)
    requires UpdatedSoFar(m, it, who, todo, mods, mods', n) && d in todo
    ensures d !in who ==> UpdatedSoFar(m, it, who, todo - {d}, mods, mods', n)
    ensures d in who ==> UpdatedSoFar(m, it, who, todo - {d}, mods, mods'[d := Subtract(m, mods', d, it)], n + 1)
  {
    MoveOne(who, todo, d);
    if d in who { OneUpdated(m, mods, it, who - todo, d); }
  }

  lemma OneUpdated(m: Mempool, mods: map<Tx, Modified>, it: Tx, done: set<Tx>, d: Tx)
    requires d !in done
    ensures var mods' := Updated(m, mods, it, done);
            Updated(m, mods, it, done + {d}) == mods'[d := Subtract(m, mods', d, it)]
  {
  }

  /** For one included transaction, the entries of all its descendants outside the added set. */
  method UpdateDescendants(m: Mempool, it: Tx, added: set<Tx>, mods: map<Tx, Modified>)
    returns (n: nat, mods': map<Tx, Modified>)
    ensures mods' == Updated(m, mods, it, m.Descendants(it) - added) && n == |m.Descendants(it) - added|
  {
    n, mods' := 0, mods;
    var todo := m.Descendants(it);
    ghost var who := todo - added;
    NoneUpdated(m, it, who, todo, mods);
    while todo != {}
      invariant todo <= m.Descendants(it) && UpdatedSoFar(m, it, who, todo, mods, mods', n)
    {
      var desc :| desc in todo;
      UpdatedMore(m, it, who, todo, mods, mods', n, desc);
      if desc !in added {
        n := n + 1;
        mods' := mods'[desc := Subtract(m, mods', desc, it)];
      }
      todo := todo - {desc};
    }
    assert who - {} == who;
  }

  lemma NoneUpdated(m: Mempool, it: Tx, who: set<Tx>, todo: set<Tx>, mods: map<Tx, Modified>)
    requires who <= todo
    ensures UpdatedSoFar(m, it, who, todo, mods, mods, 0)
  {
    assert who - todo == {};
  }

  /** How many entries are updated on the way. */
  function ToldCount(m: Mempool, order: seq<Tx>, added: set<Tx>): nat {
    if order == [] then 0
    else ToldCount(m, order[..|order| - 1], added) + |m.Descendants(order[|order| - 1]) - added|
  }

  lemma UpdatedAllAppend(m: Mempool, mods: map<Tx, Modified>, order: seq<Tx>, added: set<Tx>, it: Tx)
    ensures UpdatedAll(m, mods, order + [it], added)
            == Updated(m, UpdatedAll(m, mods, order, added), it, m.Descendants(it) - added)
  {
    assert (order + [it])[..|order|] == order;
  }

  lemma ToldCountAppend(m: Mempool, order: seq<Tx>, added: set<Tx>, it: Tx)
    ensures ToldCount(m, order + [it], added) == ToldCount(m, order, added) + |m.Descendants(it) - added|
  {
    assert (order + [it])[..|order|] == order;
  }

  /** Subtracts each newly included transaction from every cached package it was part of. */
  method UpdatePackagesForAdded(m: Mempool, added: set<Tx>, mods: map<Tx, Modified>)
    returns (n: nat, mods': map<Tx, Modified>, ghost order: seq<Tx>)
    ensures Lists(order, added) && mods' == UpdatedAll(m, mods, order, added) && n == ToldCount(m, order, added)
  {
    n, mods', order := 0, mods, [];
    var todo := added;
    NoneTold(m, added, mods);
    while todo != {}
      invariant todo <= added && ToldSoFar(m, added, todo, mods, order, mods', n)
    {
      var it :| it in todo;
      n, mods', order := TellOne(m, added, todo, mods, order, mods', n, it);
      todo := todo - {it};
    }
    assert added - {} == added;
  }

  method TellOne(m: Mempool, added: set<Tx>, ghost todo: set<Tx>, ghost mods: map<Tx, Modified>, ghost order: seq<Tx>,
                 before: map<Tx, Modified>, n: nat, it: Tx)
    returns (n': nat, mods': map<Tx, Modified>, ghost order': seq<Tx>)
    requires ToldSoFar(m, added, todo, mods, order, before, n) && it in todo && it in added
    ensures ToldSoFar(m, added, todo - {it}, mods, order', mods', n')
  {
    ToldMore(m, added, todo, mods, order, before, n, it);
    var k;
    k, mods' := UpdateDescendants(m, it, added, before);
    n', order' := n + k, order + [it];
  }

  /** The members of `added` that are no longer to be told of, in the order in which they were. */
  ghost predicate ToldSoFar(m: Mempool, added: set<Tx>, todo: set<Tx>, mods: map<Tx, Modified>, order: seq<Tx>,
                            mods': map<Tx, Modified>, n: nat) {
    Lists(order, added - todo) && mods' == UpdatedAll(m, mods, order, added) && n == ToldCount(m, order, added)
  }

  lemma NoneTold(m: Mempool, added: set<Tx>, mods: map<Tx, Modified>)
    ensures ToldSoFar(m, added, added, mods, [], mods, 0)
  {
    assert added - added == {};
  }

  lemma ToldMore(m: Mempool, added: set<Tx>, todo: set<Tx>, mods: map<Tx, Modified>, order: seq<Tx>,
                 mods': map<Tx, Modified>, n: nat, it: Tx)
    requires ToldSoFar(m, added, todo, mods, order, mods', n) && it in todo && it in added
    ensures var who := m.Descendants(it) - added;
            ToldSoFar(m, added, todo - {it}, mods, order + [it], Updated(m, mods', it, who), n + |who|)
  {
    UpdatedAllAppend(m, mods, order, added, it);
    ToldCountAppend(m, order, added, it);
    ListsAppend(order, added - todo, it);
    MoveOne(added, todo, it);
  }

  // ---------- runs ----------

  /** The cache and the block, and what has been subtracted, failed and passed over. */
  datatype State = State(
    mods: map<Tx, Modified>, log: map<Tx, seq<Tx>>, lost: map<Tx, set<Tx>>, passed: set<Tx>, inBlock: set<Tx>)
  {
    /** The block when a transaction last failed as a cached entry. */
    function Lost(t: Tx): set<Tx> { if t in lost then lost[t] else {} }

    function LogOf(t: Tx): seq<Tx> { if t in log then log[t] else [] }
  }

  function Logged(log: map<Tx, seq<Tx>>, it: Tx, who: set<Tx>): map<Tx, seq<Tx>> {
    map t | t in log.Keys + who :: if t in who then (if t in log then log[t] else []) + [it] else log[t]
  }

  function Told(m: Mempool, s: State, it: Tx, added: set<Tx>): State {
    var who := m.Descendants(it) - added;
    s.(mods := Updated(m, s.mods, it, who), log := Logged(s.log, it, who))
  }

  function ToldAll(m: Mempool, s: State, order: seq<Tx>, added: set<Tx>): State {
    if order == [] then s else Told(m, ToldAll(m, s, order[..|order| - 1], added), order[|order| - 1], added)
  }

  lemma {:induction false} ToldFrame(m: Mempool, s: State, order: seq<Tx>, added: set<Tx>)
    ensures var s' := ToldAll(m, s, order, added);
            && s'.mods == UpdatedAll(m, s.mods, order, added)
            && s'.lost == s.lost && s'.passed == s.passed && s'.inBlock == s.inBlock
  {
    if order != [] { ToldFrame(m, s, order[..|order| - 1], added); }
  }

  /** A package goes in, its members subtracted in some order; a cached entry fails; an uncached one is passed over. */
  datatype Event = Include(iter: Tx, order: seq<Tx>) | Drop(t: Tx) | Pass(t: Tx) {
    function Subject(): Tx {
      match this
      case Include(iter, _) => iter
      case Drop(t) => t
      case Pass(t) => t
    }
  }

  predicate Uncached(m: Mempool, s: State, t: Tx) {
    t in m.entries && t !in s.inBlock && t !in s.mods
  }

  ghost predicate Enabled(m: Mempool, s: State, e: Event) {
    match e
    case Include(iter, order) => iter in m.entries && iter !in s.inBlock && Lists(order, m.Package(iter) - s.inBlock)
    case Drop(t) => t in s.mods
    case Pass(t) => Uncached(m, s, t)
  }

  function Joined(s: State, package: set<Tx>): State {
    s.(mods := s.mods - package, log := s.log - package, inBlock := s.inBlock + package)
  }

  function Next(m: Mempool, s: State, e: Event): State {
    match e
    case Include(iter, order) =>
      var package := m.Package(iter) - s.inBlock;
      ToldAll(m, Joined(s, package), order, package)
    case Drop(t) => s.(mods := s.mods - {t}, log := s.log - {t}, lost := s.lost[t := s.inBlock])
    case Pass(t) => s.(passed := s.passed + {t})
  }

  function After(m: Mempool, s: State, run: seq<Event>): State {
    if run == [] then s else Next(m, After(m, s, run[..|run| - 1]), run[|run| - 1])
  }

  ghost predicate Runs(m: Mempool, s: State, run: seq<Event>) {
    run == [] || (Runs(m, s, run[..|run| - 1]) && Enabled(m, After(m, s, run[..|run| - 1]), run[|run| - 1]))
  }

  /** The block given at the start, told to everything that depends on it. */
  function Started(m: Mempool, inBlock: set<Tx>, order: seq<Tx>): State {
    ToldAll(m, State(map[], map[], map[], {}, inBlock), order, inBlock)
  }

  // ---------- what every run keeps ----------

  /** A cached entry after the listed ancestors went in, in that order. */
  function EntryAfter(m: Mempool, t: Tx, s: seq<Tx>): Modified
    requires s != []
  {
    if |s| == 1 then Fresh(m, t, s[0]) else Less(m, EntryAfter(m, t, s[..|s| - 1]), s[|s| - 1])
  }

  /**
   A transaction outside the block is cached exactly if an ancestor of it went in since it
   last failed, and its entry has had each of these subtracted exactly once.
   */
  ghost predicate CachedAt(m: Mempool, s: State, t: Tx, counted: set<Tx>) {
    && s.Lost(t) <= counted
    && (t in s.mods <==> t in s.log)
    && (t in s.mods ==> s.log[t] != [] && s.mods[t] == EntryAfter(m, t, s.log[t]))
    && Lists(s.LogOf(t), m.Ancestors(t) * counted - s.Lost(t))
  }

  ghost predicate CachedHere(m: Mempool, s: State, counted: set<Tx>, t: Tx) {
    t in m.entries && t !in s.inBlock ==> CachedAt(m, s, t, counted)
  }

  /** The whole cache: nothing in the block is cached, and `counted` has been subtracted. */
  ghost predicate Cached(m: Mempool, s: State, counted: set<Tx>) {
    && s.mods.Keys == s.log.Keys && s.mods.Keys <= m.entries.Keys - s.inBlock
    && forall t :: CachedHere(m, s, counted, t)
  }

  ghost predicate Closed(m: Mempool, s: set<Tx>) {
    s <= m.entries.Keys && forall t :: ClosedAt(m, s, s, t)
  }

  /** If t is one of `part` then all its ancestors are in `whole`. */
  predicate ClosedAt(m: Mempool, part: set<Tx>, whole: set<Tx>, t: Tx) {
    t in part ==> m.Ancestors(t) <= whole
  }

  ghost predicate Consistent(m: Mempool, s: State) {
    Closed(m, s.inBlock) && Cached(m, s, s.inBlock)
  }

  lemma SubtractKeeps(m: Mempool, s: State, t: Tx, counted: set<Tx>, it: Tx, added: set<Tx>)
    requires it in m.Ancestors(t) && it !in counted && t in m.Descendants(it) - added
    requires CachedAt(m, s, t, counted)
    ensures CachedAt(m, Told(m, s, it, added), t, counted + {it})
  {
    var was := s.LogOf(t);
    ListsAppend(was, m.Ancestors(t) * counted - s.Lost(t), it);
    OneMoreTold(m.Ancestors(t), counted, s.Lost(t), it);
    EntryAfterAppend(m, t, was, it);
    var s' := Told(m, s, it, added);
    assert s'.log[t] == was + [it] && s'.mods[t] == Subtract(m, s.mods, t, it);
  }

  lemma OneMoreTold(ancestors: set<Tx>, counted: set<Tx>, lost: set<Tx>, it: Tx)
    requires it in ancestors && it !in counted && lost <= counted
    ensures ancestors * (counted + {it}) - lost == ancestors * counted - lost + {it}
  {
  }

  lemma EntryAfterAppend(m: Mempool, t: Tx, s: seq<Tx>, it: Tx)
    ensures EntryAfter(m, t, s + [it]) == if s == [] then Fresh(m, t, it) else Less(m, EntryAfter(m, t, s), it)
  {
    assert (s + [it])[..|s|] == s;
  }

  lemma OthersKeep(m: Mempool, s: State, t: Tx, counted: set<Tx>, it: Tx, added: set<Tx>)
    requires it !in m.Ancestors(t) && t !in m.Descendants(it) - added
    requires CachedAt(m, s, t, counted)
    ensures CachedAt(m, Told(m, s, it, added), t, counted + {it})
  {
    assert m.Ancestors(t) * (counted + {it}) == m.Ancestors(t) * counted;
  }

  lemma ToldKeeps(m: Mempool, s: State, counted: set<Tx>, it: Tx, added: set<Tx>)
    requires it in added && it !in counted && added <= s.inBlock && m.Descendants(it) !! s.inBlock - added
    requires Cached(m, s, counted)
    ensures Cached(m, Told(m, s, it, added), counted + {it})
  {
    var s' := Told(m, s, it, added);
    forall t ensures CachedHere(m, s', counted + {it}, t) {
      assert CachedHere(m, s, counted, t);
      if t in m.entries && t !in s.inBlock {
        if t in m.Descendants(it) {
          SubtractKeeps(m, s, t, counted, it, added);
        } else {
          OthersKeep(m, s, t, counted, it, added);
        }
      }
    }
  }

  /** What was included before a transaction cannot depend on it. */
  lemma NoEarlierDescendants(m: Mempool, it: Tx, before: set<Tx>)
    requires Closed(m, before) && it !in before
    ensures m.Descendants(it) !! before
  {
    forall d | d in before ensures d !in m.Descendants(it) { assert ClosedAt(m, before, before, d); }
  }

  lemma {:induction false} ToldAllKeeps(m: Mempool, s: State, before: set<Tx>, order: seq<Tx>, part: set<Tx>,
                            added: set<Tx>)
    requires Closed(m, before) && before !! added && s.inBlock == before + added && Lists(order, part) && part <= added
    requires Cached(m, s, before)
    ensures Cached(m, ToldAll(m, s, order, added), before + part)
  {
    if order == [] {
      assert before + part == before;
    } else {
      var n := |order| - 1;
      var it := order[n];
      ToldAllKeeps(m, s, before, order[..n], part - {it}, added);
      ToldFrame(m, s, order[..n], added);
      NoEarlierDescendants(m, it, before);
      assert s.inBlock - added == before;
      ToldKeeps(m, ToldAll(m, s, order[..n], added), before + (part - {it}), it, added);
      assert before + (part - {it}) + {it} == before + part;
    }
  }

  lemma PackageCloses(m: Mempool, t: Tx, inBlock: set<Tx>)
    requires m.Valid() && Closed(m, inBlock) && t in m.entries && t !in inBlock
    ensures m.Package(t) <= m.entries.Keys && Closed(m, inBlock + (m.Package(t) - inBlock))
    ensures forall x :: ClosedAt(m, m.Package(t) - inBlock, inBlock + (m.Package(t) - inBlock), x)
  {
    assert m.ValidAt(t);
    var part := m.Package(t) - inBlock;
    var whole := inBlock + part;
    forall x ensures ClosedAt(m, part, whole, x) && ClosedAt(m, whole, whole, x) {
      assert ClosedAt(m, inBlock, inBlock, x);
    }
  }

  lemma JoinedKeeps(m: Mempool, s: State, package: set<Tx>)
    requires Cached(m, s, s.inBlock)
    ensures Cached(m, Joined(s, package), s.inBlock)
  {
    var s' := Joined(s, package);
    forall x ensures CachedHere(m, s', s.inBlock, x) { assert CachedHere(m, s, s.inBlock, x); }
  }

  lemma IncludeKeeps(m: Mempool, s: State, iter: Tx, order: seq<Tx>)
    requires m.Valid() && Consistent(m, s) && Enabled(m, s, Include(iter, order))
    ensures Consistent(m, Next(m, s, Include(iter, order)))
    ensures Next(m, s, Include(iter, order)).inBlock == s.inBlock + (m.Package(iter) - s.inBlock)
  {
    var package := m.Package(iter) - s.inBlock;
    PackageCloses(m, iter, s.inBlock);
    JoinedKeeps(m, s, package);
    ToldFrame(m, Joined(s, package), order, package);
    ToldAllKeeps(m, Joined(s, package), s.inBlock, order, package, package);
  }

  lemma DropKeeps(m: Mempool, s: State, t: Tx)
    requires Consistent(m, s) && t in s.mods
    ensures Consistent(m, Next(m, s, Drop(t)))
  {
    var s' := Next(m, s, Drop(t));
    forall x ensures CachedHere(m, s', s.inBlock, x) {
      assert CachedHere(m, s, s.inBlock, x);
      if x == t { assert m.Ancestors(t) * s.inBlock - s.inBlock == {}; }
    }
  }

  lemma NextKeeps(m: Mempool, s: State, e: Event)
    requires m.Valid() && Consistent(m, s) && Enabled(m, s, e)
    ensures Consistent(m, Next(m, s, e))
  {
    match e
    case Include(iter, order) => IncludeKeeps(m, s, iter, order);
    case Drop(t) => DropKeeps(m, s, t);
    case Pass(t) =>
      var s' := Next(m, s, e);
      forall x ensures CachedHere(m, s', s.inBlock, x) { assert CachedHere(m, s, s.inBlock, x); }
  }

  /** Whatever goes in, fails or is passed over, the cache stays consistent with the block. */
  lemma {:induction false} RunKeeps(m: Mempool, s: State, run: seq<Event>)
    requires m.Valid() && Consistent(m, s) && Runs(m, s, run)
    ensures Consistent(m, After(m, s, run))
  {
    if run != [] {
      RunKeeps(m, s, run[..|run| - 1]);
      NextKeeps(m, After(m, s, run[..|run| - 1]), run[|run| - 1]);
    }
  }

  lemma StartedConsistent(m: Mempool, inBlock: set<Tx>, order: seq<Tx>)
    requires Closed(m, inBlock) && Lists(order, inBlock)
    ensures Consistent(m, Started(m, inBlock, order)) && Started(m, inBlock, order).inBlock == inBlock
  {
    var s := State(map[], map[], map[], {}, inBlock);
    forall t ensures CachedHere(m, s, {}, t) { assert m.Ancestors(t) * {} - s.Lost(t) == {}; }
    forall t ensures ClosedAt(m, {}, {}, t) { }
    assert {} + inBlock == inBlock;
    ToldAllKeeps(m, s, {}, order, inBlock, inBlock);
    ToldFrame(m, s, order, inBlock);
  }
}
