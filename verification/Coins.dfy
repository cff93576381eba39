/**
 The layered UTXO cache: caches of coins stacked on a database, each layer carrying
 DIRTY and FRESH flags, compared with the plain map of unspent coins it stands for.
 */
module Coins {
  import opened Wrappers

  const OP_RETURN := 0x6a
  const MAX_SCRIPT_SIZE := 10000
  const NULL_HASH := 0

  type Hash = int

  datatype OutPoint = OutPoint(hash: Hash, n: nat)

  datatype TxOut = TxOut(nValue: int, scriptPubKey: seq<int>)

  datatype Coin = Coin(out: TxOut, fCoinBase: bool, nHeight: nat) {

    predicate IsSpent() {
      out.nValue == -1
    }

    predicate IsUnspendable() {
      || (|out.scriptPubKey| > 0 && out.scriptPubKey[0] == OP_RETURN)
      || |out.scriptPubKey| > MAX_SCRIPT_SIZE
    }

    // Scripts of up to 28 bytes are stored inline; longer ones are allocated.
    function Usage(): nat {
      if |out.scriptPubKey| <= 28 then 0 else (|out.scriptPubKey| + 31) / 16 * 16
    }
  }

  const EMPTY_COIN := Coin(TxOut(-1, []), false, 0)

  datatype Entry = Entry(coin: Coin, isDirty: bool, isFresh: bool)

  type CoinsMap = map<OutPoint, Entry>

  /** What a view shows: its unspent coins, and the block it stands at. */
  datatype View = View(coins: map<OutPoint, Coin>, best: Hash)

  // ---------- one layer over what lies below ----------

  /** The coins visible through a cache placed over `below`. */
  function Overlay(cache: CoinsMap, below: map<OutPoint, Coin>): map<OutPoint, Coin> {
    map o | o in cache.Keys + below.Keys && !(o in cache && cache[o].coin.IsSpent())
      :: if o in cache then cache[o].coin else below[o]
  }

  /** FRESH: nothing unspent below. Not DIRTY: the entry repeats what is below. */
  predicate EntryAgrees(e: Entry, o: OutPoint, below: map<OutPoint, Coin>) {
    && (e.isFresh ==> o !in below)
    && (!e.isDirty ==> if e.coin.IsSpent() then o !in below else o in below && below[o] == e.coin)
  }

  predicate Coherent(cache: CoinsMap, below: map<OutPoint, Coin>) {
    forall o | o in cache :: EntryAgrees(cache[o], o, below)
  }

  predicate AllUnspent(coins: map<OutPoint, Coin>) {
    forall o | o in coins :: !coins[o].IsSpent()
  }

  /** Some child entry claims FRESH although this cache holds an unspent coin there. */
  predicate FreshMisapplied(child: CoinsMap, own: CoinsMap) {
    exists o | o in child :: child[o].isDirty && child[o].isFresh && o in own && !own[o].coin.IsSpent()
  }

  // ---------- memory accounting ----------

  ghost function TotalUsage(cache: CoinsMap): nat {
    if cache == map[] then 0 else
      var o :| o in cache;
      cache[o].coin.Usage() + TotalUsage(cache - {o})
  }

  lemma {:induction false} UsageRemove(cache: CoinsMap, o: OutPoint)
    requires o in cache
    ensures TotalUsage(cache) == cache[o].coin.Usage() + TotalUsage(cache - {o})
    decreases |cache|
  {
    var p :| p in cache && TotalUsage(cache) == cache[p].coin.Usage() + TotalUsage(cache - {p});
    if p != o {
      UsageRemove(cache - {p}, o);
      UsageRemove(cache - {o}, p);
      assert cache - {p} - {o} == cache - {o} - {p};
    }
  }

  lemma UsagePut(cache: CoinsMap, o: OutPoint, e: Entry)
    ensures TotalUsage(cache[o := e]) ==
            TotalUsage(cache) - (if o in cache then cache[o].coin.Usage() else 0) + e.coin.Usage()
  {
    UsageRemove(cache[o := e], o);
    assert cache[o := e] - {o} == cache - {o};
    if o in cache { UsageRemove(cache, o); } else { assert cache - {o} == cache; }
  }

  // ---------- changing one entry ----------

  lemma Put(cache: CoinsMap, below: map<OutPoint, Coin>, o: OutPoint, e: Entry)
    requires Coherent(cache, below)
    ensures Coherent(cache[o := e], below) <==> EntryAgrees(e, o, below)
    ensures Overlay(cache[o := e], below) ==
            if e.coin.IsSpent() then Overlay(cache, below) - {o} else Overlay(cache, below)[o := e.coin]
  {
    assert cache[o := e][o] == e;
    assert forall p | p != o :: p in cache[o := e] <==> p in cache;
  }

  lemma Drop(cache: CoinsMap, below: map<OutPoint, Coin>, o: OutPoint)
    requires Coherent(cache, below)
    ensures Coherent(cache - {o}, below)
    ensures Overlay(cache - {o}, below) ==
            if o in below then Overlay(cache, below)[o := below[o]] else Overlay(cache, below) - {o}
  {
  }

  /** Copying a coin up from below leaves the visible coins alone. */
  lemma Fetched(cache: CoinsMap, below: map<OutPoint, Coin>, o: OutPoint)
    requires Coherent(cache, below) && o !in cache && o in below && !below[o].IsSpent()
    ensures var cache' := cache[o := Entry(below[o], false, false)];
            && Coherent(cache', below)
            && Overlay(cache', below) == Overlay(cache, below)
            && TotalUsage(cache') == TotalUsage(cache) + below[o].Usage()
  {
    Put(cache, below, o, Entry(below[o], false, false));
    UsagePut(cache, o, Entry(below[o], false, false));
    assert Overlay(cache, below)[o := below[o]] == Overlay(cache, below);
  }

  function PutCoin(cache: CoinsMap, o: OutPoint, coin: Coin, overwrite: bool): CoinsMap {
    var e := if o in cache then cache[o] else Entry(EMPTY_COIN, false, false);
    cache[o := Entry(coin, true, e.isFresh || (!overwrite && !e.isDirty))]
  }

  lemma Added(cache: CoinsMap, below: map<OutPoint, Coin>, o: OutPoint, coin: Coin, overwrite: bool)
    requires Coherent(cache, below) && !coin.IsSpent()
    requires overwrite || o !in Overlay(cache, below)
    ensures var cache' := PutCoin(cache, o, coin, overwrite);
            && Coherent(cache', below)
            && Overlay(cache', below) == Overlay(cache, below)[o := coin]
            && TotalUsage(cache') == TotalUsage(cache) - (if o in cache then cache[o].coin.Usage()
                else 0) + coin.Usage()
  {
    var e := PutCoin(cache, o, coin, overwrite)[o];
    assert o in cache ==> EntryAgrees(cache[o], o, below);
    Put(cache, below, o, e);
    UsagePut(cache, o, e);
  }

  /** An unannounced overwrite that is not caught spoils the FRESH flag, and only that does. */
  lemma AddKeepsFlagsExactlyWhenPromised(cache: CoinsMap, below: map<OutPoint, Coin>, o: OutPoint, coin: Coin,
                            overwrite: bool)
    requires Coherent(cache, below) && !coin.IsSpent()
    requires overwrite || o !in cache || cache[o].coin.IsSpent()
    ensures Coherent(PutCoin(cache, o, coin, overwrite), below) <==> overwrite || o !in Overlay(cache, below)
  {
    if overwrite || o !in Overlay(cache, below) {
      Added(cache, below, o, coin, overwrite);
    } else {
      Put(cache, below, o, PutCoin(cache, o, coin, overwrite)[o]);
    }
  }

  function WithoutCoin(cache: CoinsMap, o: OutPoint): CoinsMap
    requires o in cache
  {
    if cache[o].isFresh then cache - {o} else cache[o := Entry(EMPTY_COIN, true, false)]
  }

  lemma Spent(cache: CoinsMap, below: map<OutPoint, Coin>, o: OutPoint)
    requires Coherent(cache, below) && o in cache
    ensures Coherent(WithoutCoin(cache, o), below)
    ensures Overlay(WithoutCoin(cache, o), below) == Overlay(cache, below) - {o}
    ensures TotalUsage(WithoutCoin(cache, o)) == TotalUsage(cache) - cache[o].coin.Usage()
  {
    UsageRemove(cache, o);
    assert EntryAgrees(cache[o], o, below);
    if cache[o].isFresh {
      Drop(cache, below, o);
    } else {
      UsagePut(cache, o, Entry(EMPTY_COIN, true, false));
      Put(cache, below, o, Entry(EMPTY_COIN, true, false));
    }
  }

  lemma Dropped(cache: CoinsMap, below: map<OutPoint, Coin>, o: OutPoint)
    requires Coherent(cache, below) && o in cache && !cache[o].isDirty
    ensures Coherent(cache - {o}, below)
    ensures Overlay(cache - {o}, below) == Overlay(cache, below)
    ensures TotalUsage(cache - {o}) == TotalUsage(cache) - cache[o].coin.Usage()
  {
    UsageRemove(cache, o);
    assert EntryAgrees(cache[o], o, below);
    Drop(cache, below, o);
    var v := Overlay(cache, below);
    assert v == if o in below then v[o := below[o]] else v - {o};
  }

  lemma TakeOne(m: CoinsMap, todo: set<OutPoint>, o: OutPoint)
    requires o in m && o in todo
    ensures (m - todo)[o := m[o]] == m - (todo - {o})
  {
  }

  // ---------- merging a child's entries into its parent ----------

  function Lookup(m: CoinsMap, o: OutPoint): Option<Entry> {
    if o in m then Some(m[o]) else None
  }

  function MergeEntry(own: Option<Entry>, e: Entry): Option<Entry> {
    if !e.isDirty then own
    else match own
      case None => if e.isFresh && e.coin.IsSpent() then None else Some(Entry(e.coin, true, e.isFresh))
      case Some(u) => if u.isFresh && e.coin.IsSpent() then None else Some(Entry(e.coin, true, u.isFresh))
  }

  /** `merged` is `own` after taking in every entry of `child`. */
  ghost predicate Merged(merged: CoinsMap, own: CoinsMap, child: CoinsMap) {
    forall o ::
      Lookup(merged, o) == if o in child then MergeEntry(Lookup(own, o), child[o]) else Lookup(own, o)
  }

  lemma MergeAt(merged: CoinsMap, own: CoinsMap, child: CoinsMap, below: map<OutPoint, Coin>, o: OutPoint)
    requires Coherent(own, below) && AllUnspent(below)
    requires Coherent(child, Overlay(own, below))
    requires Merged(merged, own, child)
    ensures o in merged ==> EntryAgrees(merged[o], o, below)
    ensures var before, after := Overlay(child, Overlay(own, below)), Overlay(merged, below);
            (o in after <==> o in before) && (o in before && o in after ==> after[o] == before[o])
  {
    assert Lookup(merged, o) == if o in child then MergeEntry(Lookup(own, o), child[o]) else Lookup(own, o);
    assert o in own ==> EntryAgrees(own[o], o, below);
    assert o in child ==> EntryAgrees(child[o], o, Overlay(own, below));
  }

  /** The merge keeps the parent's flags truthful and shows exactly what the child showed. */
  lemma MergeKeepsView(merged: CoinsMap, own: CoinsMap, child: CoinsMap, below: map<OutPoint, Coin>)
    requires Coherent(own, below) && AllUnspent(below)
    requires Coherent(child, Overlay(own, below))
    requires Merged(merged, own, child)
    ensures Coherent(merged, below)
    ensures Overlay(merged, below) == Overlay(child, Overlay(own, below))
  {
    var before, after := Overlay(child, Overlay(own, below)), Overlay(merged, below);
    forall o
      ensures o in merged ==> EntryAgrees(merged[o], o, below)
      ensures (o in after <==> o in before) && (o in before && o in after ==> after[o] == before[o])
    {
      MergeAt(merged, own, child, below, o);
    }
    assert after.Keys == before.Keys;
  }

  lemma MergeStep(merged: CoinsMap, own: CoinsMap, child: CoinsMap, o: OutPoint, e: Entry)
    requires Merged(merged, own, child) && o !in child
    ensures Lookup(merged, o) == Lookup(own, o)
    ensures match MergeEntry(Lookup(own, o), e)
            case None => Merged(merged - {o}, own, child[o := e])
            case Some(u) => Merged(merged[o := u], own, child[o := e])
  {
    assert Lookup(merged, o) == Lookup(own, o);
    forall p | p != o
      ensures Lookup(merged, p) == if p in child[o := e] then MergeEntry(Lookup(own, p), child[o := e][p])
              else Lookup(own, p)
    {
    }
  }

  lemma CoherentHasNoMisapplied(child: CoinsMap, own: CoinsMap, below: map<OutPoint, Coin>)
    requires Coherent(child, Overlay(own, below))
    ensures !FreshMisapplied(child, own)
  {
    forall o | o in child && o in own && !own[o].coin.IsSpent()
      ensures !child[o].isFresh
    {
      assert o in Overlay(own, below);
    }
  }

  /** One turn of the write-back loop, on the table and its running usage. */
  method MergeOne(cache: CoinsMap, usage: int, o: OutPoint, e: Entry) returns (ok: bool, cache': CoinsMap, usage': int)
    requires usage == TotalUsage(cache)
    ensures usage' == TotalUsage(cache')
    ensures ok <==> !(e.isDirty && e.isFresh && o in cache && !cache[o].coin.IsSpent())
    ensures ok ==> cache' == match MergeEntry(Lookup(cache, o), e)
                             case None => cache - {o}
                             case Some(u) => cache[o := u]
  {
    ok, cache', usage' := true, cache, usage;
    if !e.isDirty {
      assert o in cache ==> cache == cache[o := cache[o]];
      return;
    }
    if o !in cache {
      if !(e.isFresh && e.coin.IsSpent()) {
        UsagePut(cache, o, Entry(e.coin, true, e.isFresh));
        cache', usage' := cache[o := Entry(e.coin, true, e.isFresh)], usage + e.coin.Usage();
      }
    } else {
      var us := cache[o];
      if e.isFresh && !us.coin.IsSpent() {
        ok := false;
        return;
      }
      if us.isFresh && e.coin.IsSpent() {
        UsageRemove(cache, o);
        cache', usage' := cache - {o}, usage - us.coin.Usage();
      } else {
        UsagePut(cache, o, Entry(e.coin, true, us.isFresh));
        cache', usage' := cache[o := Entry(e.coin, true, us.isFresh)], usage - us.coin.Usage() + e.coin.Usage();
      }
    }
  }

  method MergeChild(own: CoinsMap, usage: int, child: CoinsMap) returns (ok: bool, cache: CoinsMap, usage': int)
    requires usage == TotalUsage(own)
    ensures usage' == TotalUsage(cache)
    ensures ok <==> !FreshMisapplied(child, own)
    ensures ok ==> Merged(cache, own, child)
  {
    ok, cache, usage' := true, own, usage;
    var todo := child.Keys;
    while todo != {}
      invariant todo <= child.Keys
      invariant Merged(cache, own, child - todo)
      invariant usage' == TotalUsage(cache)
      invariant !FreshMisapplied(child - todo, own)
      decreases |todo|
    {
      var o :| o in todo;
      ghost var part := child - todo;
      MergeStep(cache, own, part, o, child[o]);
      ok, cache, usage' := MergeOne(cache, usage', o, child[o]);
      if !ok {
        assert child[o].isDirty && child[o].isFresh && !own[o].coin.IsSpent();
        return;
      }
      TakeOne(child, todo, o);
      todo := todo - {o};
    }
    assert child - todo == child;
    ok := true;
  }

  // ---------- the views ----------

  /** What is stored after every DIRTY entry has been written or, when spent, erased. */
  function WriteDirty(stored: map<OutPoint, Coin>, m: CoinsMap): map<OutPoint, Coin> {
    map o | o in stored.Keys + m.Keys && if o in m && m[o].isDirty then !m[o].coin.IsSpent() else o in stored
      :: if o in m && m[o].isDirty then m[o].coin else stored[o]
  }

  lemma WriteDirtyIsOverlay(stored: map<OutPoint, Coin>, m: CoinsMap)
    requires AllUnspent(stored)
    ensures AllUnspent(WriteDirty(stored, m))
    ensures Coherent(m, stored) ==> WriteDirty(stored, m) == Overlay(m, stored)
  {
    if Coherent(m, stored) {
      var w, v := WriteDirty(stored, m), Overlay(m, stored);
      assert forall o | o in m :: EntryAgrees(m[o], o, stored);
      assert forall o :: o in w <==> o in v;
      assert w == v;
    }
  }

  lemma WriteDirtyNone(stored: map<OutPoint, Coin>)
    ensures WriteDirty(stored, map[]) == stored
  {
  }

  lemma WriteDirtyStep(stored: map<OutPoint, Coin>, m: CoinsMap, o: OutPoint, e: Entry)
    requires o !in m
    ensures var w := WriteDirty(stored, m);
            WriteDirty(stored, m[o := e]) ==
            if !e.isDirty then w else if e.coin.IsSpent() then w - {o} else w[o := e.coin]
  {
    var w, w' := WriteDirty(stored, m), WriteDirty(stored, m[o := e]);
    assert forall p | p != o :: p in w' <==> p in w;
  }

  /** The database at the bottom: it stores unspent coins only. */
  class CoinsViewDB {
    var coins: map<OutPoint, Coin>
    var best: Hash

    constructor (coins: map<OutPoint, Coin>, best: Hash)
      ensures this.coins == coins && this.best == best
    {
      this.coins := coins;
      this.best := best;
    }

    method BatchWrite(mapCoins: CoinsMap, hashBlock: Hash) returns (ok: bool)
      requires hashBlock != NULL_HASH
      modifies this
      ensures ok && best == hashBlock
      ensures coins == WriteDirty(old(coins), mapCoins)
    {
      var todo := mapCoins.Keys;
      WriteDirtyNone(coins);
      assert mapCoins - todo == map[];
      while todo != {}
        invariant todo <= mapCoins.Keys
        invariant coins == WriteDirty(old(coins), mapCoins - todo)
        decreases |todo|
      {
        var o :| o in todo;
        var e := mapCoins[o];
        WriteDirtyStep(old(coins), mapCoins - todo, o, e);
        TakeOne(mapCoins, todo, o);
        if e.isDirty {
          coins := if e.coin.IsSpent() then coins - {o} else coins[o := e.coin];
        }
        todo := todo - {o};
      }
      assert mapCoins - todo == mapCoins;
      best := hashBlock;
      return true;
    }
  }

  datatype Op =
    | Read(o: OutPoint)
    | Add(o: OutPoint, coin: Coin, overwrite: bool)
    | Spend(o: OutPoint)
    | Uncache(o: OutPoint)
    | BestBlock
    | Flush

  /** The same adds and spends on a plain map of coins. */
  function Plain(coins: map<OutPoint, Coin>, op: Op): map<OutPoint, Coin> {
    match op
    case Add(o, coin, _) => if coin.IsUnspendable() then coins else coins[o := coin]
    case Spend(o) => coins - {o}
    case _ => coins
  }

  function PlainRun(coins: map<OutPoint, Coin>, ops: seq<Op>): map<OutPoint, Coin>
    decreases |ops|
  {
    if ops == [] then coins else PlainRun(Plain(coins, ops[0]), ops[1..])
  }

  /** Callers add unspent coins, and announce a possible overwrite whenever there is one. */
  predicate Promised(coins: map<OutPoint, Coin>, ops: seq<Op>)
    decreases |ops|
  {
    ops == [] ||
    (&& (ops[0].Add? ==> !ops[0].coin.IsSpent() && (ops[0].overwrite || ops[0].o !in coins))
     && Promised(Plain(coins, ops[0]), ops[1..]))
  }

  class CoinsViewCache {
    const base: CoinsViewCache?
    const db: CoinsViewDB
    ghost const Repr: set<object>

    var cacheCoins: CoinsMap
    var hashBlock: Hash
    var cachedCoinsUsage: int

    /** Every layer's flags tell the truth about the layer below it, and usage is exact. */
    ghost predicate Valid()
      reads this, Repr
      decreases Repr, 1
    {
      && this in Repr && db in Repr
      && (base == null ==> AllUnspent(db.coins))
      && (base != null ==>
            && base in Repr && base.Repr <= Repr && this !in base.Repr
            && base.db == db && base.Valid())
      && Coherent(cacheCoins, Below()[0].coins)
      && cachedCoinsUsage == TotalUsage(cacheCoins)
    }

    /** What the layers beneath this one show, nearest first, the database last. */
    ghost function Below(): (vs: seq<View>)
      requires this in Repr && db in Repr
      requires base != null ==> base in Repr && base.Repr <= Repr && this !in base.Repr && base.Valid()
      reads this, Repr
      ensures |vs| > 0
      decreases Repr, 0
    {
      if base == null then [View(db.coins, db.best)] else base.Views()
    }

    /** What this layer and those beneath it show. */
    ghost function Views(): (vs: seq<View>)
      requires Valid()
      reads this, Repr
      ensures |vs| > 1 && (base != null ==> |vs| > 2)
      decreases Repr, 2
    {
      var below := Below();
      [View(Overlay(cacheCoins, below[0].coins), if hashBlock == NULL_HASH then below[0].best else hashBlock)] + below
    }

    ghost function Coins(): map<OutPoint, Coin>
      requires Valid()
      reads this, Repr
    {
      Views()[0].coins
    }

    constructor (base: CoinsViewCache?, db: CoinsViewDB)
      requires base != null ==> base.Valid() && base.db == db
      requires base == null ==> AllUnspent(db.coins)
      ensures Valid() && this.base == base && this.db == db && fresh(this)
      ensures Views()[1..] == Below() && Views()[0] == Views()[1]
    {
      this.base, this.db := base, db;
      Repr := {this, db} + if base == null then {} else base.Repr;
      cacheCoins, hashBlock, cachedCoinsUsage := map[], NULL_HASH, 0;
      new;
      assert Overlay(map[], Below()[0].coins) == Below()[0].coins;
    }

    lemma {:induction false} BelowUnspent()
      requires Valid()
      ensures AllUnspent(Below()[0].coins)
      decreases Repr
    {
      if base != null {
        base.BelowUnspent();
      }
    }

    /** Puts a new table in place; what shows through it follows from the layers below. */
    method Store(cache: CoinsMap, usage: int, h: Hash)
      requires Valid()
      modifies this
      ensures cacheCoins == cache && cachedCoinsUsage == usage && hashBlock == h
      ensures Coherent(cache, old(Below()[0].coins)) && usage == TotalUsage(cache) ==>
                && Valid()
                && Views() == [View(Overlay(cache, old(Below()[0].coins)), if h == NULL_HASH then old(Below()[0].best)
                    else h)] + old(Below())
                && (h == old(hashBlock) ==>
                      Views() == old(Views())[0 := View(Overlay(cache, old(Below()[0].coins)), old(Views()[0].best))])
    {
      ghost var below := Below();
      assert Views()[1..] == below;
      cacheCoins, cachedCoinsUsage, hashBlock := cache, usage, h;
      assert Below() == below;
      if Coherent(cache, below[0].coins) && usage == TotalUsage(cache) {
        assert Valid();
        assert Views() == [View(Overlay(cache, below[0].coins), if h == NULL_HASH then below[0].best else h)] + below;
      }
    }

    /** Brings an entry into this cache; neither this view nor any below it changes. */
    method FetchCoin(o: OutPoint) returns (found: bool)
      requires Valid()
      modifies Repr
      ensures Valid() && Views() == old(Views())
      ensures found <==> o in cacheCoins
      ensures !found ==> o !in Coins()
      ensures forall p | p != o :: Lookup(cacheCoins, p) == Lookup(old(cacheCoins), p)
      ensures o in old(cacheCoins) ==> cacheCoins == old(cacheCoins)
      ensures found && o !in old(cacheCoins) ==> o in Coins() && cacheCoins[o] == Entry(Coins()[o], false, false)
      ensures hashBlock == old(hashBlock)
      decreases Repr, 0
    {
      if o in cacheCoins {
        return true;
      }
      var have, tmp;
      if base == null {
        have := o in db.coins;
        if have { tmp := db.coins[o]; } else { tmp := EMPTY_COIN; }
      } else {
        have, tmp := base.GetCoin(o);
      }
      assert Below() == old(Below());
      BelowUnspent();
      if !have {
        return false;
      }
      Fetched(cacheCoins, Below()[0].coins, o);
      // FRESH when the view below only had a spent entry to give
      Store(cacheCoins[o := Entry(tmp, false, tmp.IsSpent())], cachedCoinsUsage + tmp.Usage(), hashBlock);
      return true;
    }

    method GetCoin(o: OutPoint) returns (have: bool, coin: Coin)
      requires Valid()
      modifies Repr
      ensures Valid() && Views() == old(Views())
      ensures have <==> o in Coins()
      ensures have ==> coin == Coins()[o] && !coin.IsSpent()
      ensures hashBlock == old(hashBlock)
      decreases Repr, 1
    {
      var found := FetchCoin(o);
      if found {
        coin := cacheCoins[o].coin;
        return !coin.IsSpent(), coin;
      }
      return false, EMPTY_COIN;
    }

    /** The coin at an outpoint, or an empty one: the same as looking in the plain map. */
    method AccessCoin(o: OutPoint) returns (coin: Coin)
      requires Valid()
      modifies Repr
      ensures Valid() && Views() == old(Views()) && hashBlock == old(hashBlock)
      ensures if o in Coins() then coin == Coins()[o] else coin.IsSpent()
    {
      var found := FetchCoin(o);
      return if found then cacheCoins[o].coin else EMPTY_COIN;
    }

    method HaveCoin(o: OutPoint) returns (have: bool)
      requires Valid()
      modifies Repr
      ensures Valid() && Views() == old(Views()) && hashBlock == old(hashBlock)
      ensures have <==> o in Coins()
    {
      var found := FetchCoin(o);
      return found && !cacheCoins[o].coin.IsSpent();
    }

    /** Never asks the view below: true only of visible coins. */
    method HaveCoinInCache(o: OutPoint) returns (have: bool)
      requires Valid()
      ensures have ==> o in Coins()
      ensures o in cacheCoins ==> (have <==> o in Coins())
    {
      return o in cacheCoins && !cacheCoins[o].coin.IsSpent();
    }

    /**
     Adds a coin. A caller who announces every possible overwrite gets exactly the plain
     map's insertion; `thrown` reports the logic error of an unannounced one found here.
     */
    method AddCoin(o: OutPoint, coin: Coin, possibleOverwrite: bool) returns (thrown: bool)
      requires Valid() && !coin.IsSpent()
      modifies this
      ensures thrown <==> !coin.IsUnspendable() && !possibleOverwrite
                          && o in old(cacheCoins) && !old(cacheCoins)[o].coin.IsSpent()
      ensures thrown ==> cacheCoins == old(cacheCoins)
                         && cachedCoinsUsage == old(cachedCoinsUsage) - old(cacheCoins)[o].coin.Usage()
      ensures !thrown ==> cacheCoins == if coin.IsUnspendable() then old(cacheCoins)
                                        else PutCoin(old(cacheCoins), o, coin, possibleOverwrite)
      ensures hashBlock == old(hashBlock)
      ensures possibleOverwrite || o !in old(Coins()) ==>
                && !thrown && Valid()
                && Views() == old(Views())[0 := View(Plain(old(Coins()), Add(o, coin, possibleOverwrite)),
                    old(Views()[0].best))]
    {
      if coin.IsUnspendable() { return false; }
      var e := if o in cacheCoins then cacheCoins[o] else Entry(EMPTY_COIN, false, false);
      var usage := cachedCoinsUsage;
      if o in cacheCoins {
        usage := usage - e.coin.Usage();
      }
      var markFresh := false;
      if !possibleOverwrite {
        if !e.coin.IsSpent() {
          cachedCoinsUsage := usage;
          return true;
        }
        markFresh := !e.isDirty;
      }
      var cache := cacheCoins[o := Entry(coin, true, e.isFresh || markFresh)];
      usage := usage + coin.Usage();
      if possibleOverwrite || o !in Coins() {
        Added(cacheCoins, Below()[0].coins, o, coin, possibleOverwrite);
      }
      Store(cache, usage, hashBlock);
      return false;
    }

    /** Spends a coin if there is one, handing it out; otherwise nothing visible changes. */
    method SpendCoin(o: OutPoint) returns (ok: bool, moved: Coin)
      requires Valid()
      modifies Repr
      ensures Valid() && hashBlock == old(hashBlock)
      ensures Views() == old(Views())[0 := View(Plain(old(Coins()), Spend(o)), old(Views()[0].best))]
      ensures ok <==> o in old(cacheCoins) || o in old(Coins())
      ensures if o in old(Coins()) then moved == old(Coins())[o] else moved.IsSpent()
      ensures forall p | p != o :: Lookup(cacheCoins, p) == Lookup(old(cacheCoins), p)
      ensures Lookup(cacheCoins, o) == if !ok || (o in old(cacheCoins) && old(cacheCoins)[o].isFresh) then None
              else Some(Entry(EMPTY_COIN, true, false))
    {
      var found := FetchCoin(o);
      if !found {
        assert Coins() - {o} == Coins();
        return false, EMPTY_COIN;
      }
      Spent(cacheCoins, Below()[0].coins, o);
      moved := cacheCoins[o].coin;
      if cacheCoins[o].isFresh {
        Store(cacheCoins - {o}, cachedCoinsUsage - moved.Usage(), hashBlock);
      } else {
        Store(cacheCoins[o := Entry(EMPTY_COIN, true, false)], cachedCoinsUsage - moved.Usage(), hashBlock);
      }
      return true, moved;
    }

    /** Drops an unmodified entry; nothing visible changes. */
    method Uncache(o: OutPoint)
      requires Valid()
      modifies this
      ensures Valid() && Views() == old(Views()) && hashBlock == old(hashBlock)
      ensures cacheCoins == if o in old(cacheCoins) && !old(cacheCoins)[o].isDirty && !old(cacheCoins)[o].isFresh
                            then old(cacheCoins) - {o} else old(cacheCoins)
    {
      if o in cacheCoins && !cacheCoins[o].isDirty && !cacheCoins[o].isFresh {
        Dropped(cacheCoins, Below()[0].coins, o);
        Store(cacheCoins - {o}, cachedCoinsUsage - cacheCoins[o].coin.Usage(), hashBlock);
      }
    }

    /** The block this view stands at, remembered from below on first use. */
    method GetBestBlock() returns (best: Hash)
      requires Valid()
      modifies Repr
      ensures Valid() && Views() == old(Views()) && best == Views()[0].best
      ensures cacheCoins == old(cacheCoins)
      ensures old(hashBlock) != NULL_HASH ==> hashBlock == old(hashBlock)
      decreases Repr
    {
      ghost var below := Below();
      if hashBlock == NULL_HASH {
        if base == null {
          hashBlock := db.best;
        } else {
          var h := base.GetBestBlock();
          hashBlock := h;
        }
      }
      assert Below() == below;
      return hashBlock;
    }

    method SetBestBlock(h: Hash)
      requires Valid()
      modifies this`hashBlock
      ensures Valid() && hashBlock == h
      ensures Views() == old(Views())[0 := View(old(Coins()), if h == NULL_HASH then old(Views()[1].best) else h)]
    {
      ghost var below := Below();
      hashBlock := h;
      assert Below() == below;
    }

    lemma MergeShows(child: CoinsMap, cache: CoinsMap)
      requires Valid() && Merged(cache, cacheCoins, child)
      ensures Coherent(child, Coins()) ==>
                && Coherent(cache, Below()[0].coins)
                && Overlay(cache, Below()[0].coins) == Overlay(child, Coins())
    {
      if Coherent(child, Coins()) {
        BelowUnspent();
        MergeKeepsView(cache, cacheCoins, child, Below()[0].coins);
      }
    }

    lemma CoherentChild(child: CoinsMap)
      requires Valid() && Coherent(child, Coins())
      ensures !FreshMisapplied(child, cacheCoins)
    {
      CoherentHasNoMisapplied(child, cacheCoins, Below()[0].coins);
    }

    /**
     Takes in a child's entries, in any order. When their FRESH flags tell the truth about
     this view nothing is thrown and this view then shows what the child showed.
     */
    method BatchWrite(child: CoinsMap, hashIn: Hash) returns (ok: bool)
      requires Valid()
      modifies this
      ensures ok <==> !FreshMisapplied(child, old(cacheCoins))
      ensures ok ==> Merged(cacheCoins, old(cacheCoins), child)
      ensures Coherent(child, old(Coins())) ==>
                && ok && Valid() && hashBlock == hashIn
                && Views() == old(Views())[0 := View(Overlay(child, old(Coins())),
                                                     if hashIn == NULL_HASH then old(Views()[1].best) else hashIn)]
    {
      if Coherent(child, Coins()) { CoherentChild(child); }
      var merged, cache, usage := MergeChild(cacheCoins, cachedCoinsUsage, child);
      if !merged {
        Store(cache, usage, hashBlock);
        return false;
      }
      MergeShows(child, cache);
      Store(cache, usage, hashIn);
      return true;
    }

    method PushDown() returns (ok: bool)
      requires Valid()
      requires base == null ==> hashBlock != NULL_HASH
      modifies Repr - {this}
      ensures ok
      ensures if base == null then AllUnspent(db.coins) else base.Valid()
      ensures Below() == old(Below())[0 := View(old(Coins()), if hashBlock == NULL_HASH then old(Below()[1].best)
              else hashBlock)]
    {
      ghost var below := Below();
      assert Coherent(cacheCoins, below[0].coins);
      if base == null {
        ok := db.BatchWrite(cacheCoins, hashBlock);
        WriteDirtyIsOverlay(old(db.coins), cacheCoins);
      } else {
        assert below == base.Views();
        ok := base.BatchWrite(cacheCoins, hashBlock);
      }
    }

    /**
     Pushes this cache's changes down: this view shows what it showed, the view below now
     shows the same coins, and every view further down is untouched. Never throws.
     */
    method Flush() returns (ok: bool)
      requires Valid()
      requires base == null ==> hashBlock != NULL_HASH
      modifies Repr
      ensures ok && Valid() && cacheCoins == map[] && hashBlock == old(hashBlock)
      ensures Coins() == old(Coins())
      ensures Views()[1..] == old(Views()[1..])[0 := View(old(Coins()), if hashBlock == NULL_HASH
              then old(Views()[2].best) else hashBlock)]
    {
      ghost var shown := Coins();
      ok := PushDown();
      ghost var below := Below();
      cacheCoins, cachedCoinsUsage := map[], 0;
      assert Below() == below;
      assert Overlay(cacheCoins, shown) == shown;
    }

    /** Runs operations on this layer: it shows what the plain map shows, throughout. */
    method Run(ops: seq<Op>)
      requires Valid() && Promised(Coins(), ops)
      requires base == null ==> hashBlock != NULL_HASH
      modifies Repr
      ensures Valid() && Coins() == PlainRun(old(Coins()), ops)
    {
      for i := 0 to |ops|
        invariant Valid()
        invariant base == null ==> hashBlock != NULL_HASH
        invariant Promised(Coins(), ops[i..])
        invariant PlainRun(Coins(), ops[i..]) == PlainRun(old(Coins()), ops)
      {
        assert ops[i..][1..] == ops[i+1..];
        match ops[i]
        case Read(o) => var _ := AccessCoin(o);
        case Add(o, coin, overwrite) => var _ := AddCoin(o, coin, overwrite);
        case Spend(o) => var _, _ := SpendCoin(o);
        case Uncache(o) => Uncache(o);
        case BestBlock => var _ := GetBestBlock();
        case Flush => var _ := Flush();
      }
    }
  }

  /** A plain map after adding a transaction's first n outputs. */
  function WithOutputs(coins: map<OutPoint, Coin>, txid: Hash, outs: seq<Coin>, n: nat): map<OutPoint, Coin>
    requires n <= |outs|
  {
    if n == 0 then coins else Plain(WithOutputs(coins, txid, outs, n - 1),
        Add(OutPoint(txid, n - 1), outs[n - 1], true))
  }

  /** Exactly the spendable outputs are put in, and every other coin is left as it was. */
  lemma {:induction false} OutputsAt(coins: map<OutPoint, Coin>, txid: Hash, outs: seq<Coin>, n: nat, o: OutPoint)
    requires n <= |outs|
    ensures var w := WithOutputs(coins, txid, outs, n);
            if o.hash == txid && o.n < n && !outs[o.n].IsUnspendable() then o in w && w[o] == outs[o.n]
            else (o in w <==> o in coins) && (o in w ==> w[o] == coins[o])
  {
    if n > 0 {
      OutputsAt(coins, txid, outs, n - 1, o);
    }
  }

  /** Adds a transaction's outputs. With `check` the overwrite flag is always truthful. */
  method AddCoins(cache: CoinsViewCache, txid: Hash, outs: seq<Coin>, fCoinbase: bool, check: bool)
    requires cache.Valid()
    requires forall i | 0 <= i < |outs| :: !outs[i].IsSpent()
    requires check || fCoinbase || forall i: nat | i < |outs| :: OutPoint(txid, i) !in cache.Coins()
    modifies cache.Repr
    ensures cache.Valid()
    ensures cache.Coins() == WithOutputs(old(cache.Coins()), txid, outs, |outs|)
  {
    ghost var before := cache.Coins();
    for i := 0 to |outs|
      invariant cache.Valid()
      invariant cache.Coins() == WithOutputs(before, txid, outs, i)
    {
      var overwrite := fCoinbase;
      if check {
        overwrite := cache.HaveCoin(OutPoint(txid, i));
      }
      OutputsAt(before, txid, outs, i, OutPoint(txid, i));
      var thrown := cache.AddCoin(OutPoint(txid, i), outs[i], overwrite);
    }
  }
}
