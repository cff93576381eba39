/**
 The address manager: two bucketed tables, two maps, a permuted list of ids, reference
 counts and counters that must describe one and the same set of addresses. An empty slot
 of a table (the code's -1) is an absent key; clocks and random draws are parameters.
 */
module AddrMan {
  import opened Numbers
  import opened Wrappers

  const TRIED_BUCKET_COUNT := 256
  const NEW_BUCKET_COUNT := 1024
  const BUCKET_SIZE := 64
  const NEW_BUCKETS_PER_ADDRESS := 8
  const HORIZON_DAYS := 30
  const RETRIES := 3
  const MAX_FAILURES := 10
  const MIN_FAIL_DAYS := 7
  const REPLACEMENT_HOURS := 4
  const GETADDR_MAX_PCT := 23
  const GETADDR_MAX := 2500
  const SET_TRIED_COLLISION_SIZE := 10
  const TEST_WINDOW := 40 * 60

  type Id = int
  type NetAddr = int
  /** Service flags, as the set of bits that are on. */
  type Flags = set<nat>
  datatype Service = Service(addr: NetAddr, port: int)
  datatype Slot = Slot(bucket: nat, pos: nat)

  datatype Info = Info(
    service: Service, nTime: int, nServices: Flags, source: NetAddr,
    nLastTry: int, nLastCountAttempt: int, nLastSuccess: int, nAttempts: int,
    nRefCount: int, fInTried: bool, nRandomPos: int)
  {
    predicate IsTerrible(nNow: int) {
      if nLastTry != 0 && nLastTry >= nNow - 60 then false
      else
        || nTime > nNow + 10 * 60
        || nTime == 0 || nNow - nTime > HORIZON_DAYS * 24 * 60 * 60
        || (nLastSuccess == 0 && nAttempts >= RETRIES)
        || (nNow - nLastSuccess > MIN_FAIL_DAYS * 24 * 60 * 60 && nAttempts >= MAX_FAILURES)
    }
  }

  /** The keyed hashes that choose buckets and positions, and the address classes. */
  datatype Hasher = Hasher(tried: Service -> nat, fresh': (Service, NetAddr) -> nat,
      position: (Service, bool, nat) -> nat,
                           routable: NetAddr -> bool, valid: NetAddr -> bool)
  {
    function TriedSlot(s: Service): Slot {
      var b := tried(s) % TRIED_BUCKET_COUNT;
      Slot(b, position(s, false, b) % BUCKET_SIZE)
    }

    function NewBucket(s: Service, src: NetAddr): (b: nat)
      ensures b < NEW_BUCKET_COUNT
    {
      fresh'(s, src) % NEW_BUCKET_COUNT
    }

    function NewSlot(s: Service, bucket: nat): (k: Slot)
      ensures k.bucket == bucket
    {
      Slot(bucket, position(s, true, bucket) % BUCKET_SIZE)
    }

    predicate IsRoutable(a: NetAddr) { routable(a) }
    predicate IsValid(a: NetAddr) { valid(a) }
  }

  datatype State = State(
    nIdCount: int, mapInfo: map<Id, Info>, mapAddr: map<NetAddr, Id>, vRandom: seq<Id>,
    nTried: int, vvTried: map<Slot, Id>, nNew: int, vvNew: map<Slot, Id>,
    nLastGood: int, collisions: set<Id>)

  // ---------- the invariant ----------

  /** The slots of a table that hold an id. */
  function SlotsOf(table: map<Slot, Id>, id: Id): set<Slot> {
    set k | k in table && table[k] == id
  }

  function Tried(s: State): set<Id> {
    set id | id in s.mapInfo && s.mapInfo[id].fInTried
  }

  function New(s: State): set<Id> {
    set id | id in s.mapInfo && !s.mapInfo[id].fInTried
  }

  /**
   Everything the tables say about one id. Ids in limbo, between two tables during an
   operation, are in neither; all others not tried have 1 to 8 references.
   */
  ghost predicate InfoAt(h: Hasher, s: State, limbo: set<Id>, id: Id) {
    && (id in limbo ==> id in s.mapInfo && !s.mapInfo[id].fInTried)
    && (id in s.mapInfo ==>
          var info := s.mapInfo[id];
          && 0 <= id < s.nIdCount
          && info.service.addr in s.mapAddr && s.mapAddr[info.service.addr] == id
          && 0 <= info.nRandomPos < |s.vRandom| && s.vRandom[info.nRandomPos] == id
          && info.nLastTry >= 0 && info.nLastSuccess >= 0
          && info.nRefCount == |SlotsOf(s.vvNew, id)| <= NEW_BUCKETS_PER_ADDRESS
          && (info.nRefCount == 0 <==> info.fInTried || id in limbo)
          && (info.fInTried ==> info.nLastSuccess > 0 && h.TriedSlot(info.service) in s.vvTried
                                && s.vvTried[h.TriedSlot(info.service)] == id))
  }

  ghost predicate AddrAt(s: State, a: NetAddr) {
    a in s.mapAddr ==> s.mapAddr[a] in s.mapInfo && s.mapInfo[s.mapAddr[a]].service.addr == a
  }

  ghost predicate RandomAt(s: State, i: int) {
    0 <= i < |s.vRandom| ==> s.vRandom[i] in s.mapInfo && s.mapInfo[s.vRandom[i]].nRandomPos == i
  }

  ghost predicate TriedAt(h: Hasher, s: State, k: Slot) {
    k in s.vvTried ==>
      var id := s.vvTried[k];
      id in s.mapInfo && s.mapInfo[id].fInTried && h.TriedSlot(s.mapInfo[id].service) == k
  }

  ghost predicate NewAt(h: Hasher, s: State, k: Slot) {
    k in s.vvNew ==>
      var id := s.vvNew[k];
      k.bucket < NEW_BUCKET_COUNT && id in s.mapInfo && h.NewSlot(s.mapInfo[id].service, k.bucket) == k
  }

  /** The counters; `extra` new entries are counted ahead of their table entry. */
  ghost predicate Counted(s: State, limbo: set<Id>, extra: int) {
    && |s.vRandom| == |s.mapInfo|
    && s.nTried == |Tried(s)|
    && s.nNew == |New(s) - limbo| + extra
  }

  /** Every live id that waits for a tried slot still faces an occupied one. */
  ghost predicate CollisionAt(h: Hasher, s: State, id: Id) {
    id in s.collisions ==> id < s.nIdCount && (id in s.mapInfo ==> h.TriedSlot(s.mapInfo[id].service) in s.vvTried)
  }

  ghost predicate Linked(h: Hasher, s: State, limbo: set<Id>) {
    && s.nIdCount >= 0
    && (forall id :: InfoAt(h, s, limbo, id))
    && (forall a :: AddrAt(s, a))
    && (forall i :: RandomAt(s, i))
    && (forall k :: TriedAt(h, s, k))
    && (forall k :: NewAt(h, s, k))
  }

  ghost predicate CollisionsOk(h: Hasher, s: State) {
    (forall id :: CollisionAt(h, s, id)) && |s.collisions| <= SET_TRIED_COLLISION_SIZE
  }

  /** The state between operations: nothing in limbo, all counters exact. */
  ghost predicate Inv(h: Hasher, s: State) {
    Linked(h, s, {}) && Counted(s, {}, 0) && CollisionsOk(h, s)
  }

  // ---------- steps on the id list ----------

  /** Swap two elements of the permuted list. */
  function SwapRandom(s: State, p1: nat, p2: nat): State
    requires p1 < |s.vRandom| && p2 < |s.vRandom| && s.vRandom[p1] in s.mapInfo && s.vRandom[p2] in s.mapInfo
  {
    if p1 == p2 then s
    else
      var id1, id2 := s.vRandom[p1], s.vRandom[p2];
      var mapInfo := s.mapInfo[id1 := s.mapInfo[id1].(nRandomPos := p2)];
      s.(mapInfo := mapInfo[id2 := mapInfo[id2].(nRandomPos := p1)], vRandom := s.vRandom[p1 := id2][p2 := id1])
  }

  /** The same entries apart from their place in the permuted list. */
  ghost predicate SameButOrder(s: State, s': State) {
    && s' == s.(mapInfo := s'.mapInfo, vRandom := s'.vRandom)
    && s'.mapInfo.Keys == s.mapInfo.Keys
    && forall id :: SameInfo(s, s', id)
  }

  predicate SameInfo(s: State, s': State, id: Id) {
    id in s.mapInfo && id in s'.mapInfo ==> s'.mapInfo[id] == s.mapInfo[id].(nRandomPos := s'.mapInfo[id].nRandomPos)
  }

  lemma SwapKeeps(h: Hasher, s: State, limbo: set<Id>, p1: nat, p2: nat)
    requires Linked(h, s, limbo) && p1 < |s.vRandom| && p2 < |s.vRandom|
    ensures s.vRandom[p1] in s.mapInfo && s.vRandom[p2] in s.mapInfo
    ensures SameButOrder(s, SwapRandom(s, p1, p2)) && |SwapRandom(s, p1, p2).vRandom| == |s.vRandom|
    ensures SwapRandom(s, p1, p2).vRandom[p1] == s.vRandom[p2]
    ensures Linked(h, SwapRandom(s, p1, p2), limbo)
  {
    assert RandomAt(s, p1) && RandomAt(s, p2);
    var s' := SwapRandom(s, p1, p2);
    if p1 != p2 {
      forall id ensures InfoAt(h, s', limbo, id) { assert InfoAt(h, s, limbo, id); }
      forall a ensures AddrAt(s', a) { assert AddrAt(s, a); }
      forall i ensures RandomAt(s', i) { assert RandomAt(s, i); }
      forall k ensures TriedAt(h, s', k) { assert TriedAt(h, s, k); }
      forall k ensures NewAt(h, s', k) { assert NewAt(h, s, k); }
    }
  }

  predicate Deletable(s: State, id: Id) {
    && id in s.mapInfo && 0 <= s.mapInfo[id].nRandomPos < |s.vRandom|
    && s.vRandom[s.mapInfo[id].nRandomPos] in s.mapInfo && s.vRandom[|s.vRandom| - 1] in s.mapInfo
  }

  lemma LinkedDeletable(h: Hasher, s: State, limbo: set<Id>, id: Id)
    requires Linked(h, s, limbo) && id in s.mapInfo
    ensures Deletable(s, id)
  {
    assert InfoAt(h, s, limbo, id) && RandomAt(s, |s.vRandom| - 1);
  }

  /** Delete an entry that is in neither table. */
  function Delete(s: State, id: Id): State
    requires Deletable(s, id)
  {
    var s1 := SwapRandom(s, s.mapInfo[id].nRandomPos, |s.vRandom| - 1);
    s1.(vRandom := s1.vRandom[..|s1.vRandom| - 1], mapAddr := s1.mapAddr - {s.mapInfo[id].service.addr},
        mapInfo := s1.mapInfo - {id}, nNew := s1.nNew - 1)
  }

  lemma DeleteKeeps(h: Hasher, s: State, limbo: set<Id>, id: Id)
    requires Linked(h, s, limbo) && id in limbo
    ensures Deletable(s, id)
    ensures Linked(h, Delete(s, id), limbo - {id})
  {
    assert InfoAt(h, s, limbo, id);
    var last := |s.vRandom| - 1;
    assert RandomAt(s, last);
    var s1 := SwapRandom(s, s.mapInfo[id].nRandomPos, last);
    SwapKeeps(h, s, limbo, s.mapInfo[id].nRandomPos, last);
    var s' := Delete(s, id);
    assert s1.vRandom[last] == id && SameInfo(s, s1, id);
    forall x ensures InfoAt(h, s', limbo - {id}, x) {
      assert InfoAt(h, s1, limbo, x) && InfoAt(h, s1, limbo, id);
      assert RandomAt(s1, last);
    }
    forall a ensures AddrAt(s', a) { assert AddrAt(s1, a) && InfoAt(h, s1, limbo, id); }
    forall i ensures RandomAt(s', i) { assert RandomAt(s1, i) && RandomAt(s1, last); }
    forall k ensures TriedAt(h, s', k) { assert TriedAt(h, s1, k); }
    forall k ensures NewAt(h, s', k) {
      assert NewAt(h, s1, k);
      NoSlots(s1.vvNew, id, k);
      assert InfoAt(h, s1, limbo, id);
    }
  }

  lemma NoSlots(table: map<Slot, Id>, id: Id, k: Slot)
    ensures k in table && table[k] == id ==> k in SlotsOf(table, id)
    ensures |SlotsOf(table, id)| == 0 && k in table ==> table[k] != id
  {
  }

  lemma OrderCounts(s: State, s': State)
    requires SameButOrder(s, s')
    ensures Tried(s') == Tried(s) && New(s') == New(s)
  {
    forall id | id in s.mapInfo ensures s'.mapInfo[id].fInTried == s.mapInfo[id].fInTried {
      assert SameInfo(s, s', id);
    }
  }

  lemma DeleteCounts(h: Hasher, s: State, limbo: set<Id>, extra: int, id: Id)
    requires Linked(h, s, limbo) && Counted(s, limbo, extra) && id in limbo
    ensures Deletable(s, id)
    ensures Counted(Delete(s, id), limbo - {id}, extra - 1)
  {
    assert InfoAt(h, s, limbo, id);
    LinkedDeletable(h, s, limbo, id);
    var s1 := SwapRandom(s, s.mapInfo[id].nRandomPos, |s.vRandom| - 1);
    SwapKeeps(h, s, limbo, s.mapInfo[id].nRandomPos, |s.vRandom| - 1);
    OrderCounts(s, s1);
    assert id in New(s1);
    RemovedCounts(s1, Delete(s, id), limbo, id);
  }

  lemma RemovedCounts(s: State, s': State, limbo: set<Id>, id: Id)
    requires s'.mapInfo == s.mapInfo - {id} && id in New(s) && id in limbo
    ensures Tried(s') == Tried(s) && New(s') - (limbo - {id}) == New(s) - limbo
    ensures |s'.mapInfo| == |s.mapInfo| - 1
  {
    assert s.mapInfo.Keys == s'.mapInfo.Keys + {id};
  }

  // ---------- steps on the tables ----------

  lemma SlotsAfterDrop(table: map<Slot, Id>, k: Slot, id: Id)
    ensures SlotsOf(table - {k}, id) == SlotsOf(table, id) - {k}
    ensures k in table && table[k] == id ==> |SlotsOf(table - {k}, id)| == |SlotsOf(table, id)| - 1
    ensures !(k in table && table[k] == id) ==> SlotsOf(table - {k}, id) == SlotsOf(table, id)
  {
    assert SlotsOf(table - {k}, id) == SlotsOf(table, id) - {k};
  }

  lemma SlotsAfterPut(table: map<Slot, Id>, k: Slot, id: Id, x: Id)
    requires k !in table
    ensures SlotsOf(table[k := x], id) == if id == x then SlotsOf(table, id) + {k} else SlotsOf(table, id)
    ensures |SlotsOf(table[k := x], id)| == |SlotsOf(table, id)| + if id == x then 1 else 0
  {
    assert SlotsOf(table[k := x], id) == if id == x then SlotsOf(table, id) + {k} else SlotsOf(table, id);
  }

  /** Takes one reference away from the id in an occupied new slot. */
  function Unref(s: State, k: Slot): State
    requires k in s.vvNew && s.vvNew[k] in s.mapInfo
  {
    var id := s.vvNew[k];
    s.(mapInfo := s.mapInfo[id := s.mapInfo[id].(nRefCount := s.mapInfo[id].nRefCount - 1)], vvNew := s.vvNew - {k})
  }

  /** An entry rewritten in its table stays among the tried or the new ones. */
  lemma SameTables(s: State, s': State, id: Id, info: Info)
    requires id in s.mapInfo && s'.mapInfo == s.mapInfo[id := info] && info.fInTried == s.mapInfo[id].fInTried
    ensures Tried(s') == Tried(s) && New(s') == New(s) && |s'.mapInfo| == |s.mapInfo|
  {
    assert s'.mapInfo.Keys == s.mapInfo.Keys;
  }

  lemma UnrefLinks(h: Hasher, s: State, limbo: set<Id>, k: Slot)
    requires Linked(h, s, limbo) && k in s.vvNew
    ensures s.vvNew[k] in s.mapInfo && s.mapInfo[s.vvNew[k]].nRefCount > 0
    ensures s.vvNew[k] !in limbo && !s.mapInfo[s.vvNew[k]].fInTried
    ensures Linked(h, Unref(s, k), if Unref(s, k).mapInfo[s.vvNew[k]].nRefCount == 0 then limbo + {s.vvNew[k]}
            else limbo)
  {
    assert NewAt(h, s, k);
    var id := s.vvNew[k];
    assert InfoAt(h, s, limbo, id);
    NoSlots(s.vvNew, id, k);
    var s' := Unref(s, k);
    var limbo' := if s'.mapInfo[id].nRefCount == 0 then limbo + {id} else limbo;
    forall x ensures InfoAt(h, s', limbo', x) { assert InfoAt(h, s, limbo, x); SlotsAfterDrop(s.vvNew, k, x); }
    forall a ensures AddrAt(s', a) { assert AddrAt(s, a); }
    forall i ensures RandomAt(s', i) { assert RandomAt(s, i); }
    forall j ensures TriedAt(h, s', j) { assert TriedAt(h, s, j); }
    forall j ensures NewAt(h, s', j) { assert NewAt(h, s, j); }
  }

  /** A new entry put in limbo is one more counted ahead of its table entry. */
  lemma LimboCounts(s: State, limbo: set<Id>, extra: int, id: Id)
    requires Counted(s, limbo, extra) && id in New(s) && id !in limbo
    ensures Counted(s, limbo + {id}, extra + 1)
  {
    assert New(s) - (limbo + {id}) == New(s) - limbo - {id};
  }

  lemma UnrefKeeps(h: Hasher, s: State, limbo: set<Id>, extra: int, k: Slot)
    requires Linked(h, s, limbo) && Counted(s, limbo, extra) && k in s.vvNew
    ensures s.vvNew[k] in s.mapInfo && s.mapInfo[s.vvNew[k]].nRefCount > 0
    ensures s.vvNew[k] !in limbo && !s.mapInfo[s.vvNew[k]].fInTried
    ensures var id, s' := s.vvNew[k], Unref(s, k);
            if s'.mapInfo[id].nRefCount == 0 then Linked(h, s', limbo + {id}) && Counted(s', limbo + {id}, extra + 1)
            else Linked(h, s', limbo) && Counted(s', limbo, extra)
  {
    UnrefLinks(h, s, limbo, k);
    var id, s' := s.vvNew[k], Unref(s, k);
    SameTables(s, s', id, s'.mapInfo[id]);
    if s'.mapInfo[id].nRefCount == 0 {
      LimboCounts(s', limbo, extra, id);
    }
  }

  predicate Clearable(s: State, k: Slot) {
    k in s.vvNew ==> Deletable(s, s.vvNew[k])
  }

  /** Clear a position in the new table, deleting an entry that loses its last reference. */
  function ClearNew(s: State, k: Slot): State
    requires Clearable(s, k)
  {
    if k !in s.vvNew then s
    else
      var s1 := Unref(s, k);
      if s1.mapInfo[s.vvNew[k]].nRefCount == 0 then Delete(s1, s.vvNew[k]) else s1
  }

  lemma SwapAt(s: State, p1: nat, p2: nat, x: Id)
    requires p1 < |s.vRandom| && p2 < |s.vRandom| && s.vRandom[p1] in s.mapInfo && s.vRandom[p2] in s.mapInfo
    ensures SameInfo(s, SwapRandom(s, p1, p2), x) && (x in SwapRandom(s, p1, p2).mapInfo <==> x in s.mapInfo)
  {
  }

  lemma DeleteLost(s: State, id: Id, kept: set<Id>)
    requires Deletable(s, id) && id !in kept && !s.mapInfo[id].fInTried
    ensures Lost(s, Delete(s, id), kept) && Delete(s, id).vvNew == s.vvNew && id !in Delete(s, id).mapInfo
  {
    var s' := Delete(s, id);
    forall x ensures LostAt(s, s', kept, x) {
      SwapAt(s, s.mapInfo[id].nRandomPos, |s.vRandom| - 1, x);
    }
  }

  lemma UnrefLost(s: State, k: Slot, kept: set<Id>)
    requires k in s.vvNew && s.vvNew[k] in s.mapInfo
    ensures Lost(s, Unref(s, k), kept)
  {
    forall x ensures LostAt(s, Unref(s, k), kept, x) { }
  }

  lemma LostTrans(s: State, s1: State, s2: State, kept: set<Id>)
    requires Lost(s, s1, kept) && Lost(s1, s2, kept)
    ensures Lost(s, s2, kept)
  {
    forall x ensures LostAt(s, s2, kept, x) { assert LostAt(s, s1, kept, x) && LostAt(s1, s2, kept, x); }
  }

  lemma ClearNewLost(h: Hasher, s: State, limbo: set<Id>, k: Slot)
    requires Linked(h, s, limbo) && Clearable(s, k)
    ensures Lost(s, ClearNew(s, k), limbo) && ClearNew(s, k).vvNew == s.vvNew - {k}
  {
    if k in s.vvNew {
      var id := s.vvNew[k];
      assert NewAt(h, s, k) && InfoAt(h, s, limbo, id);
      NoSlots(s.vvNew, id, k);
      var s1 := Unref(s, k);
      UnrefLost(s, k, limbo);
      if s1.mapInfo[id].nRefCount == 0 {
        DeleteLost(s1, id, limbo);
        LostTrans(s, s1, Delete(s1, id), limbo);
      }
    } else {
      assert s.vvNew - {k} == s.vvNew;
      forall x ensures LostAt(s, s, limbo, x) { }
    }
  }

  lemma ClearNewKeeps(h: Hasher, s: State, limbo: set<Id>, extra: int, k: Slot)
    requires Linked(h, s, limbo) && Counted(s, limbo, extra)
    ensures Clearable(s, k)
    ensures Linked(h, ClearNew(s, k), limbo) && Counted(ClearNew(s, k), limbo, extra)
  {
    if k in s.vvNew {
      var id := s.vvNew[k];
      UnrefKeeps(h, s, limbo, extra, k);
      LinkedDeletable(h, s, limbo, id);
      var s1 := Unref(s, k);
      if s1.mapInfo[id].nRefCount == 0 {
        DeleteKeeps(h, s1, limbo + {id}, id);
        DeleteCounts(h, s1, limbo + {id}, extra + 1, id);
        assert limbo + {id} - {id} == limbo;
      }
    }
  }

  /** Nothing but new entries outside `kept` is lost; what stays keeps its identity and history. */
  ghost predicate Lost(s: State, s': State, kept: set<Id>) {
    && s'.nIdCount == s.nIdCount && s'.vvTried == s.vvTried && s'.nTried == s.nTried
    && s'.collisions == s.collisions && s'.nLastGood == s.nLastGood
    && forall id :: LostAt(s, s', kept, id)
  }

  predicate LostAt(s: State, s': State, kept: set<Id>, id: Id) {
    && (id in s'.mapInfo ==> id in s.mapInfo && s'.mapInfo[id] ==
                                                s.mapInfo[id].(nRandomPos := s'.mapInfo[id].nRandomPos,
                                                    nRefCount := s'.mapInfo[id].nRefCount))
    && (id in s.mapInfo && (id in kept || s.mapInfo[id].fInTried) ==> id in s'.mapInfo)
  }

  /** Gives an id one more reference, in an empty new slot. */
  function PutNew(s: State, k: Slot, id: Id): State
    requires id in s.mapInfo
  {
    s.(mapInfo := s.mapInfo[id := s.mapInfo[id].(nRefCount := s.mapInfo[id].nRefCount + 1)], vvNew := s.vvNew[k := id])
  }

  lemma PutNewLinks(h: Hasher, s: State, limbo: set<Id>, k: Slot, id: Id)
    requires Linked(h, s, limbo)
    requires k !in s.vvNew && k.bucket < NEW_BUCKET_COUNT && id in s.mapInfo && !s.mapInfo[id].fInTried
    requires s.mapInfo[id].nRefCount < NEW_BUCKETS_PER_ADDRESS && k == h.NewSlot(s.mapInfo[id].service, k.bucket)
    ensures Linked(h, PutNew(s, k, id), limbo - {id})
  {
    var s' := PutNew(s, k, id);
    forall x ensures InfoAt(h, s', limbo - {id}, x) { assert InfoAt(h, s, limbo, x); SlotsAfterPut(s.vvNew, k, x, id); }
    forall a ensures AddrAt(s', a) { assert AddrAt(s, a); }
    forall i ensures RandomAt(s', i) { assert RandomAt(s, i); }
    forall j ensures TriedAt(h, s', j) { assert TriedAt(h, s, j); }
    forall j ensures NewAt(h, s', j) { assert NewAt(h, s, j); }
  }

  lemma PutNewCounts(s: State, limbo: set<Id>, extra: int, k: Slot, id: Id)
    requires Counted(s, limbo, extra) && id in s.mapInfo && !s.mapInfo[id].fInTried
    ensures Counted(PutNew(s, k, id), limbo - {id}, if id in limbo then extra - 1 else extra)
  {
    var s' := PutNew(s, k, id);
    SameTables(s, s', id, s'.mapInfo[id]);
    if id in limbo {
      assert New(s) - (limbo - {id}) == (New(s) - limbo) + {id};
    } else {
      assert limbo - {id} == limbo;
    }
  }

  /** A new entry under the next id, not yet in any table. */
  function Create(s: State, svc: Service, nTime: int, nServices: Flags, source: NetAddr): State {
    var id := s.nIdCount;
    var info := Info(svc, nTime, nServices, source, 0, 0, 0, 0, 0, false, |s.vRandom|);
    s.(nIdCount := id + 1, mapInfo := s.mapInfo[id := info], mapAddr := s.mapAddr[svc.addr := id],
        vRandom := s.vRandom + [id])
  }

  lemma UnknownId(h: Hasher, s: State, limbo: set<Id>, id: Id)
    requires Linked(h, s, limbo) && id !in s.mapInfo
    ensures SlotsOf(s.vvNew, id) == {}
  {
    forall k | k in s.vvNew ensures s.vvNew[k] != id { assert NewAt(h, s, k); }
  }

  /** A new entry, its time penalised, counted as new. */
  function Created(s: State, svc: Service, addrTime: int, nServices: Flags, source: NetAddr, penalty: int): State {
    var s1 := Create(s, svc, Max(0, addrTime - penalty), nServices, source);
    s1.(nNew := s1.nNew + 1)
  }

  lemma CreatedLinks(h: Hasher, s: State, svc: Service, addrTime: int, nServices: Flags, source: NetAddr, penalty: int)
    requires Linked(h, s, {}) && svc.addr !in s.mapAddr
    ensures s.nIdCount !in s.mapInfo
    ensures Linked(h, Created(s, svc, addrTime, nServices, source, penalty), {s.nIdCount})
  {
    var id, s' := s.nIdCount, Created(s, svc, addrTime, nServices, source, penalty);
    assert InfoAt(h, s, {}, id);
    UnknownId(h, s, {}, id);
    forall x ensures InfoAt(h, s', {id}, x) { assert InfoAt(h, s, {}, x); }
    forall a ensures AddrAt(s', a) { assert AddrAt(s, a); }
    forall i ensures RandomAt(s', i) { assert RandomAt(s, i); }
    forall j ensures TriedAt(h, s', j) { assert TriedAt(h, s, j); }
    forall j ensures NewAt(h, s', j) { assert NewAt(h, s, j); }
  }

  lemma CreatedCounts(s: State, svc: Service, addrTime: int, nServices: Flags, source: NetAddr, penalty: int)
    requires Counted(s, {}, 0) && s.nIdCount !in s.mapInfo
    ensures Counted(Created(s, svc, addrTime, nServices, source, penalty), {s.nIdCount}, 1)
  {
    var id, s' := s.nIdCount, Created(s, svc, addrTime, nServices, source, penalty);
    AddedCounts(s, s', id, s'.mapInfo[id]);
    assert New(s) - {} == New(s);
  }

  lemma AddedCounts(s: State, s': State, id: Id, info: Info)
    requires s'.mapInfo == s.mapInfo[id := info] && id !in s.mapInfo && !info.fInTried
    ensures Tried(s') == Tried(s) && New(s') - {id} == New(s) && |s'.mapInfo| == |s.mapInfo| + 1
  {
    AddedTried(s, s', id, info);
    AddedNew(s, s', id, info);
    assert s'.mapInfo.Keys == s.mapInfo.Keys + {id};
  }

  lemma AddedTried(s: State, s': State, id: Id, info: Info)
    requires s'.mapInfo == s.mapInfo[id := info] && id !in s.mapInfo && !info.fInTried
    ensures Tried(s') == Tried(s)
  {
    forall x ensures x in Tried(s') <==> x in Tried(s) { }
  }

  lemma AddedNew(s: State, s': State, id: Id, info: Info)
    requires s'.mapInfo == s.mapInfo[id := info] && id !in s.mapInfo && !info.fInTried
    ensures New(s') - {id} == New(s)
  {
    forall x ensures x in New(s') - {id} <==> x in New(s) { }
  }

  /** Removes an id from every new bucket. */
  function Unlist(s: State, id: Id): State
    requires id in s.mapInfo
  {
    s.(vvNew := map k | k in s.vvNew && s.vvNew[k] != id :: s.vvNew[k],
       mapInfo := s.mapInfo[id := s.mapInfo[id].(nRefCount := 0)], nNew := s.nNew - 1)
  }

  lemma UnlistLinks(h: Hasher, s: State, limbo: set<Id>, id: Id)
    requires Linked(h, s, limbo) && id in s.mapInfo && !s.mapInfo[id].fInTried && id !in limbo
    ensures Linked(h, Unlist(s, id), limbo + {id})
  {
    var s' := Unlist(s, id);
    forall x ensures InfoAt(h, s', limbo + {id}, x) {
      assert InfoAt(h, s, limbo, x);
      assert SlotsOf(s'.vvNew, x) == if x == id then {} else SlotsOf(s.vvNew, x);
    }
    forall a ensures AddrAt(s', a) { assert AddrAt(s, a); }
    forall i ensures RandomAt(s', i) { assert RandomAt(s, i); }
    forall j ensures TriedAt(h, s', j) { assert TriedAt(h, s, j); }
    forall j ensures NewAt(h, s', j) { assert NewAt(h, s, j); }
  }

  lemma UnlistKeeps(h: Hasher, s: State, limbo: set<Id>, extra: int, id: Id)
    requires Linked(h, s, limbo) && Counted(s, limbo, extra) && id in s.mapInfo && !s.mapInfo[id].fInTried
             && id !in limbo
    ensures Linked(h, Unlist(s, id), limbo + {id}) && Counted(Unlist(s, id), limbo + {id}, extra)
  {
    UnlistLinks(h, s, limbo, id);
    var s' := Unlist(s, id);
    SameTables(s, s', id, s'.mapInfo[id]);
    assert Counted(s', limbo, extra - 1);
    LimboCounts(s', limbo, extra - 1, id);
  }

  /** Takes the entry out of an occupied tried slot. */
  function TakeTried(s: State, k: Slot): State
    requires k in s.vvTried && s.vvTried[k] in s.mapInfo
  {
    var id := s.vvTried[k];
    s.(mapInfo := s.mapInfo[id := s.mapInfo[id].(fInTried := false)], vvTried := s.vvTried - {k},
        nTried := s.nTried - 1)
  }

  lemma TakeTriedKeeps(h: Hasher, s: State, limbo: set<Id>, extra: int, k: Slot)
    requires Linked(h, s, limbo) && Counted(s, limbo, extra) && k in s.vvTried
    ensures s.vvTried[k] in s.mapInfo && s.vvTried[k] !in limbo
    ensures Linked(h, TakeTried(s, k), limbo + {s.vvTried[k]})
            && Counted(TakeTried(s, k), limbo + {s.vvTried[k]}, extra)
  {
    assert TriedAt(h, s, k);
    var id, s' := s.vvTried[k], TakeTried(s, k);
    assert InfoAt(h, s, limbo, id);
    forall x ensures InfoAt(h, s', limbo + {id}, x) { assert InfoAt(h, s, limbo, x); }
    forall a ensures AddrAt(s', a) { assert AddrAt(s, a); }
    forall i ensures RandomAt(s', i) { assert RandomAt(s, i); }
    forall j ensures TriedAt(h, s', j) { assert TriedAt(h, s, j); }
    forall j ensures NewAt(h, s', j) { assert NewAt(h, s, j); }
    assert s'.mapInfo.Keys == s.mapInfo.Keys;
    assert Tried(s') == Tried(s) - {id} && New(s') - (limbo + {id}) == New(s) - limbo;
  }

  /** Puts an entry in an empty tried slot. */
  function PutTried(s: State, k: Slot, id: Id): State
    requires id in s.mapInfo
  {
    s.(vvTried := s.vvTried[k := id], nTried := s.nTried + 1,
        mapInfo := s.mapInfo[id := s.mapInfo[id].(fInTried := true)])
  }

  lemma PutTriedLinks(h: Hasher, s: State, limbo: set<Id>, k: Slot, id: Id)
    requires Linked(h, s, limbo) && id in limbo && id in s.mapInfo
    requires k !in s.vvTried && k == h.TriedSlot(s.mapInfo[id].service) && s.mapInfo[id].nLastSuccess > 0
    ensures Linked(h, PutTried(s, k, id), limbo - {id})
  {
    var s' := PutTried(s, k, id);
    assert InfoAt(h, s, limbo, id);
    forall x ensures InfoAt(h, s', limbo - {id}, x) { assert InfoAt(h, s, limbo, x); }
    forall a ensures AddrAt(s', a) { assert AddrAt(s, a); }
    forall i ensures RandomAt(s', i) { assert RandomAt(s, i); }
    forall j ensures TriedAt(h, s', j) { assert TriedAt(h, s, j); }
    forall j ensures NewAt(h, s', j) { assert NewAt(h, s, j); }
  }

  lemma PutTriedKeeps(h: Hasher, s: State, limbo: set<Id>, extra: int, k: Slot, id: Id)
    requires Linked(h, s, limbo) && Counted(s, limbo, extra) && id in limbo && id in s.mapInfo
    requires k !in s.vvTried && k == h.TriedSlot(s.mapInfo[id].service) && s.mapInfo[id].nLastSuccess > 0
    ensures Linked(h, PutTried(s, k, id), limbo - {id}) && Counted(PutTried(s, k, id), limbo - {id}, extra)
  {
    PutTriedLinks(h, s, limbo, k, id);
    var s' := PutTried(s, k, id);
    assert InfoAt(h, s, limbo, id);
    assert s'.mapInfo.Keys == s.mapInfo.Keys;
    assert Tried(s') == Tried(s) + {id} && New(s') - (limbo - {id}) == New(s) - limbo;
  }

  /** Changes what is recorded about an entry, but not its identity or place. */
  function Touch(s: State, id: Id, info: Info): State {
    s.(mapInfo := s.mapInfo[id := info])
  }

  lemma TouchKeeps(h: Hasher, s: State, limbo: set<Id>, extra: int, id: Id, info: Info)
    requires Linked(h, s, limbo) && Counted(s, limbo, extra) && id in s.mapInfo
    requires var was := s.mapInfo[id];
             && info.service == was.service && info.nRefCount == was.nRefCount
             && info.fInTried == was.fInTried && info.nRandomPos == was.nRandomPos
    requires info.nLastTry >= 0 && info.nLastSuccess >= 0 && (info.fInTried ==> info.nLastSuccess > 0)
    ensures Linked(h, Touch(s, id, info), limbo) && Counted(Touch(s, id, info), limbo, extra)
  {
    var s' := Touch(s, id, info);
    forall x ensures InfoAt(h, s', limbo, x) { assert InfoAt(h, s, limbo, x); }
    forall a ensures AddrAt(s', a) { assert AddrAt(s, a); }
    forall i ensures RandomAt(s', i) { assert RandomAt(s, i); }
    forall j ensures TriedAt(h, s', j) { assert TriedAt(h, s, j); }
    forall j ensures NewAt(h, s', j) { assert NewAt(h, s, j); }
    assert Tried(s') == Tried(s) && New(s') == New(s) && s'.mapInfo.Keys == s.mapInfo.Keys;
  }

  lemma NewCounterFree(h: Hasher, s: State, limbo: set<Id>, extra: int, d: int)
    requires Linked(h, s, limbo) && Counted(s, limbo, extra)
    ensures Linked(h, s.(nNew := s.nNew + d), limbo) && Counted(s.(nNew := s.nNew + d), limbo, extra + d)
  {
    var s' := s.(nNew := s.nNew + d);
    forall x ensures InfoAt(h, s', limbo, x) { assert InfoAt(h, s, limbo, x); }
    forall a ensures AddrAt(s', a) { assert AddrAt(s, a); }
    forall i ensures RandomAt(s', i) { assert RandomAt(s, i); }
    forall j ensures TriedAt(h, s', j) { assert TriedAt(h, s, j); }
    forall j ensures NewAt(h, s', j) { assert NewAt(h, s, j); }
    assert Tried(s') == Tried(s) && New(s') == New(s);
  }

  /** Clearing a slot leaves every entry but the one in it alone. */
  lemma ClearNewOther(s: State, k: Slot, x: Id)
    requires Clearable(s, k) && x in s.mapInfo && !(k in s.vvNew && s.vvNew[k] == x)
    ensures var s' := ClearNew(s, k);
            x in s'.mapInfo && s'.mapInfo[x] == s.mapInfo[x].(nRandomPos := s'.mapInfo[x].nRandomPos)
  {
    if k in s.vvNew {
      var s1, id := Unref(s, k), s.vvNew[k];
      SwapAt(s1, s1.mapInfo[id].nRandomPos, |s1.vRandom| - 1, x);
    }
  }

  // ---------- the order of events over a run ----------

  /** Ids are never reused, entries keep their address, and occupied tried slots stay occupied. */
  ghost predicate Evolves(s: State, s': State) {
    && s.nIdCount <= s'.nIdCount
    && s.vvTried.Keys <= s'.vvTried.Keys
    && forall id :: EvolvesAt(s, s', id)
  }

  predicate EvolvesAt(s: State, s': State, id: Id) {
    id in s'.mapInfo && id < s.nIdCount ==> id in s.mapInfo && s'.mapInfo[id].service == s.mapInfo[id].service
  }

  lemma EvolvesTrans(s: State, s1: State, s2: State)
    requires Evolves(s, s1) && Evolves(s1, s2)
    ensures Evolves(s, s2)
  {
    forall id ensures EvolvesAt(s, s2, id) { assert EvolvesAt(s, s1, id) && EvolvesAt(s1, s2, id); }
  }

  /** Waiting collisions survive whatever evolves from their state. */
  lemma CollisionsSurvive(h: Hasher, s: State, s': State)
    requires CollisionsOk(h, s) && Evolves(s, s') && s'.collisions <= s.collisions
    ensures CollisionsOk(h, s')
  {
    forall id ensures CollisionAt(h, s', id) { assert CollisionAt(h, s, id) && EvolvesAt(s, s', id); }
    assert s.collisions == s'.collisions + (s.collisions - s'.collisions);
  }

  // ---------- moving an entry to the tried table ----------

  function NewHome(h: Hasher, info: Info): Slot {
    h.NewSlot(info.service, h.NewBucket(info.service, info.source))
  }

  predicate Evictable(h: Hasher, s: State, k: Slot) {
    && k in s.vvTried && s.vvTried[k] in s.mapInfo
    && Clearable(TakeTried(s, k), NewHome(h, s.mapInfo[s.vvTried[k]]))
    && s.vvTried[k] in ClearNew(TakeTried(s, k), NewHome(h, s.mapInfo[s.vvTried[k]])).mapInfo
  }

  /** Enters an entry into the new table with a single reference. */
  function Rehome(s: State, k: Slot, id: Id): State
    requires id in s.mapInfo
  {
    s.(mapInfo := s.mapInfo[id := s.mapInfo[id].(nRefCount := 1)], vvNew := s.vvNew[k := id], nNew := s.nNew + 1)
  }

  lemma RehomeKeeps(h: Hasher, s: State, limbo: set<Id>, extra: int, k: Slot, id: Id)
    requires Linked(h, s, limbo) && Counted(s, limbo, extra) && id in limbo && id in s.mapInfo
    requires k !in s.vvNew && k.bucket < NEW_BUCKET_COUNT && k == h.NewSlot(s.mapInfo[id].service, k.bucket)
    ensures Linked(h, Rehome(s, k, id), limbo - {id}) && Counted(Rehome(s, k, id), limbo - {id}, extra)
  {
    assert InfoAt(h, s, limbo, id);
    PutNewLinks(h, s, limbo, k, id);
    PutNewCounts(s, limbo, extra, k, id);
    NewCounterFree(h, PutNew(s, k, id), limbo - {id}, extra - 1, 1);
  }

  /** Moves the entry in a tried slot back to the new table, deleting whatever is in its place there. */
  function Evict(h: Hasher, s: State, k: Slot): State
    requires Evictable(h, s, k)
  {
    var id := s.vvTried[k];
    var k' := NewHome(h, s.mapInfo[id]);
    Rehome(ClearNew(TakeTried(s, k), k'), k', id)
  }

  /** The evicted entry itself survives the clearing of its place. */
  lemma EvictClears(h: Hasher, s: State, limbo: set<Id>, extra: int, k: Slot)
    requires Linked(h, s, limbo) && Counted(s, limbo, extra) && k in s.vvTried
    ensures Evictable(h, s, k)
    ensures var id, k', s1 := s.vvTried[k], NewHome(h, s.mapInfo[s.vvTried[k]]), TakeTried(s, k);
            var s2 := ClearNew(s1, k');
            && Linked(h, s2, limbo + {id}) && Counted(s2, limbo + {id}, extra)
            && Lost(s1, s2, limbo + {id}) && k' !in s2.vvNew && s2.mapInfo[id].service == s.mapInfo[id].service
  {
    var id := s.vvTried[k];
    TakeTriedKeeps(h, s, limbo, extra, k);
    var s1, k' := TakeTried(s, k), NewHome(h, s.mapInfo[id]);
    ClearNewKeeps(h, s1, limbo + {id}, extra, k');
    ClearNewLost(h, s1, limbo + {id}, k');
    assert LostAt(s1, ClearNew(s1, k'), limbo + {id}, id);
  }

  lemma EvictKeeps(h: Hasher, s: State, limbo: set<Id>, extra: int, k: Slot)
    requires Linked(h, s, limbo) && Counted(s, limbo, extra) && k in s.vvTried
    ensures Evictable(h, s, k) && s.vvTried[k] !in limbo
    ensures Linked(h, Evict(h, s, k), limbo) && Counted(Evict(h, s, k), limbo, extra)
  {
    var id := s.vvTried[k];
    assert TriedAt(h, s, k) && InfoAt(h, s, limbo, id);
    EvictClears(h, s, limbo, extra, k);
    var k' := NewHome(h, s.mapInfo[id]);
    RehomeKeeps(h, ClearNew(TakeTried(s, k), k'), limbo + {id}, extra, k', id);
    assert limbo + {id} - {id} == limbo;
  }

  /** What an eviction leaves: the slot empty, and every entry in limbo untouched. */
  lemma EvictEffect(h: Hasher, s: State, limbo: set<Id>, extra: int, k: Slot)
    requires Linked(h, s, limbo) && Counted(s, limbo, extra) && k in s.vvTried
    ensures Evictable(h, s, k)
    ensures var s' := Evict(h, s, k);
            && s'.vvTried == s.vvTried - {k} && s'.nIdCount == s.nIdCount && s'.collisions == s.collisions
            && s'.nLastGood == s.nLastGood
            && (forall x :: EvolvesAt(s, s', x))
            && (forall x | x in limbo && x in s.mapInfo ::
                  x in s'.mapInfo && s'.mapInfo[x].service == s.mapInfo[x].service
                      && s'.mapInfo[x].nLastSuccess == s.mapInfo[x].nLastSuccess)
  {
    var id := s.vvTried[k];
    assert TriedAt(h, s, k) && InfoAt(h, s, limbo, id);
    EvictClears(h, s, limbo, extra, k);
    var s1, s', k' := TakeTried(s, k), Evict(h, s, k), NewHome(h, s.mapInfo[id]);
    var s2 := ClearNew(s1, k');
    forall x ensures EvolvesAt(s, s', x) { assert LostAt(s1, s2, limbo + {id}, x); }
    forall x | x in limbo && x in s.mapInfo
      ensures x in s'.mapInfo && s'.mapInfo[x].service == s.mapInfo[x].service
              && s'.mapInfo[x].nLastSuccess == s.mapInfo[x].nLastSuccess
    {
      assert LostAt(s1, s2, limbo + {id}, x);
    }
  }

  predicate Movable(h: Hasher, s: State, id: Id) {
    && id in s.mapInfo
    && var s1, k := Unlist(s, id), h.TriedSlot(s.mapInfo[id].service);
       k in s1.vvTried ==> Evictable(h, s1, k) && id in Evict(h, s1, k).mapInfo
  }

  /** The entry out of the new table, and its tried slot free. */
  function MakeRoom(h: Hasher, s: State, id: Id): State
    requires Movable(h, s, id)
  {
    var s1, k := Unlist(s, id), h.TriedSlot(s.mapInfo[id].service);
    if k in s1.vvTried then Evict(h, s1, k) else s1
  }

  /** Moves an entry from the new table to its tried slot. */
  function MakeTried(h: Hasher, s: State, id: Id): State
    requires Movable(h, s, id)
  {
    PutTried(MakeRoom(h, s, id), h.TriedSlot(s.mapInfo[id].service), id)
  }

  lemma MakeRoomKeeps(h: Hasher, s: State, id: Id)
    requires Linked(h, s, {}) && Counted(s, {}, 0) && id in s.mapInfo && !s.mapInfo[id].fInTried
    ensures Movable(h, s, id)
    ensures Linked(h, MakeRoom(h, s, id), {id}) && Counted(MakeRoom(h, s, id), {id}, 0)
  {
    UnlistKeeps(h, s, {}, 0, id);
    assert {} + {id} == {id};
    var s1, k := Unlist(s, id), h.TriedSlot(s.mapInfo[id].service);
    if k in s1.vvTried {
      EvictKeeps(h, s1, {id}, 0, k);
      EvictEffect(h, s1, {id}, 0, k);
    }
  }

  /** Room is made without touching the entry, any other tried slot, or any identity. */
  lemma MakeRoomEffect(h: Hasher, s: State, id: Id)
    requires Linked(h, s, {}) && Counted(s, {}, 0) && id in s.mapInfo && !s.mapInfo[id].fInTried
    ensures Movable(h, s, id)
    ensures var s', k := MakeRoom(h, s, id), h.TriedSlot(s.mapInfo[id].service);
            && s'.vvTried == s.vvTried - {k} && s'.nIdCount == s.nIdCount
            && s'.collisions == s.collisions && s'.nLastGood == s.nLastGood
            && id in s'.mapInfo && s'.mapInfo[id].service == s.mapInfo[id].service
                && s'.mapInfo[id].nLastSuccess == s.mapInfo[id].nLastSuccess
            && forall x :: EvolvesAt(s, s', x)
  {
    UnlistKeeps(h, s, {}, 0, id);
    assert {} + {id} == {id};
    var s1, k := Unlist(s, id), h.TriedSlot(s.mapInfo[id].service);
    if k in s1.vvTried {
      EvictEffect(h, s1, {id}, 0, k);
      forall x ensures EvolvesAt(s, Evict(h, s1, k), x) { assert EvolvesAt(s1, Evict(h, s1, k), x); }
    } else {
      MakeRoomKeeps(h, s, id);
      assert s.vvTried - {k} == s.vvTried;
      forall x ensures EvolvesAt(s, s1, x) { }
    }
  }

  lemma MakeTriedKeeps(h: Hasher, s: State, id: Id)
    requires Linked(h, s, {}) && Counted(s, {}, 0)
    requires id in s.mapInfo && !s.mapInfo[id].fInTried && s.mapInfo[id].nLastSuccess > 0
    ensures Movable(h, s, id)
    ensures Linked(h, MakeTried(h, s, id), {}) && Counted(MakeTried(h, s, id), {}, 0)
  {
    MakeRoomKeeps(h, s, id);
    MakeRoomEffect(h, s, id);
    PutTriedKeeps(h, MakeRoom(h, s, id), {id}, 0, h.TriedSlot(s.mapInfo[id].service), id);
    assert {id} - {id} == {};
  }

  /** Exactly one tried slot changes hands, and no occupied one is ever left empty. */
  lemma MakeTriedEffect(h: Hasher, s: State, id: Id)
    requires Linked(h, s, {}) && Counted(s, {}, 0) && id in s.mapInfo && !s.mapInfo[id].fInTried
    ensures Movable(h, s, id)
    ensures var s' := MakeTried(h, s, id);
            && s'.vvTried == s.vvTried[h.TriedSlot(s.mapInfo[id].service) := id]
            && s'.collisions == s.collisions && s'.nLastGood == s.nLastGood && Evolves(s, s')
  {
    MakeRoomEffect(h, s, id);
    var s1, k, s' := MakeRoom(h, s, id), h.TriedSlot(s.mapInfo[id].service), MakeTried(h, s, id);
    assert (s.vvTried - {k})[k := id] == s.vvTried[k := id];
    forall x ensures EvolvesAt(s, s', x) { assert EvolvesAt(s, s1, x); }
  }

  // ---------- operations ----------

  function Find(s: State, a: NetAddr): Option<Id> {
    if a in s.mapAddr && s.mapAddr[a] in s.mapInfo then Some(s.mapAddr[a]) else None
  }

  /** The entry for exactly this service, port included. */
  function FindService(s: State, svc: Service): Option<Id> {
    match Find(s, svc.addr)
    case None => None
    case Some(id) => if s.mapInfo[id].service == svc then Some(id) else None
  }

  function Succeeded(info: Info, nTime: int): Info {
    info.(nLastSuccess := nTime, nLastTry := nTime, nAttempts := 0)
  }

  /** Moves an entry to tried, or notes that another one has to be tested first. */
  function Promote(h: Hasher, s: State, id: Id, testBeforeEvict: bool): State
    requires id in s.mapInfo && Movable(h, s, id)
  {
    if testBeforeEvict && h.TriedSlot(s.mapInfo[id].service) in s.vvTried then
      if |s.collisions| < SET_TRIED_COLLISION_SIZE then s.(collisions := s.collisions + {id}) else s
    else
      MakeTried(h, s, id)
  }

  /** Good_: a working connection; moves the entry to tried, or notes a collision to be tested first. */
  function Good(h: Hasher, s: State, svc: Service, testBeforeEvict: bool, nTime: int): State
    requires Inv(h, s) && nTime > 0
  {
    var s0 := s.(nLastGood := nTime);
    match FindService(s, svc)
    case None => s0
    case Some(id) =>
      var s1 := Touch(s0, id, Succeeded(s.mapInfo[id], nTime));
      if s.mapInfo[id].fInTried then s1
      else
        GoodReady(h, s, id, nTime);
        Promote(h, s1, id, testBeforeEvict)
  }

  lemma LastGoodFree(h: Hasher, s: State, t: int)
    requires Linked(h, s, {}) && Counted(s, {}, 0)
    ensures Linked(h, s.(nLastGood := t), {}) && Counted(s.(nLastGood := t), {}, 0)
  {
    var s' := s.(nLastGood := t);
    forall x ensures InfoAt(h, s', {}, x) { assert InfoAt(h, s, {}, x); }
    forall a ensures AddrAt(s', a) { assert AddrAt(s, a); }
    forall i ensures RandomAt(s', i) { assert RandomAt(s, i); }
    forall j ensures TriedAt(h, s', j) { assert TriedAt(h, s, j); }
    forall j ensures NewAt(h, s', j) { assert NewAt(h, s, j); }
    assert Tried(s') == Tried(s) && New(s') == New(s);
  }

  lemma GoodReady(h: Hasher, s: State, id: Id, nTime: int)
    requires Linked(h, s, {}) && Counted(s, {}, 0) && id in s.mapInfo && nTime > 0
    ensures var s1 := Touch(s.(nLastGood := nTime), id, Succeeded(s.mapInfo[id], nTime));
            && Linked(h, s1, {}) && Counted(s1, {}, 0)
            && (!s.mapInfo[id].fInTried ==> Movable(h, s1, id))
  {
    LastGoodFree(h, s, nTime);
    assert InfoAt(h, s, {}, id);
    TouchKeeps(h, s.(nLastGood := nTime), {}, 0, id, Succeeded(s.mapInfo[id], nTime));
    if !s.mapInfo[id].fInTried {
      MakeTriedKeeps(h, Touch(s.(nLastGood := nTime), id, Succeeded(s.mapInfo[id], nTime)), id);
    }
  }

  lemma TouchEvolves(s: State, id: Id, info: Info, t: int)
    requires id in s.mapInfo && info.service == s.mapInfo[id].service
    ensures Evolves(s, Touch(s.(nLastGood := t), id, info))
  {
    forall x ensures EvolvesAt(s, Touch(s.(nLastGood := t), id, info), x) { }
  }

  /** Noting a collision: the limit holds, and the new id does face an occupied slot. */
  lemma NoteCollision(h: Hasher, s: State, id: Id)
    requires Linked(h, s, {}) && Counted(s, {}, 0) && CollisionsOk(h, s) && |s.collisions| < SET_TRIED_COLLISION_SIZE
    requires id in s.mapInfo && h.TriedSlot(s.mapInfo[id].service) in s.vvTried
    ensures Inv(h, s.(collisions := s.collisions + {id})) && Evolves(s, s.(collisions := s.collisions + {id}))
  {
    var s' := s.(collisions := s.collisions + {id});
    forall x ensures InfoAt(h, s', {}, x) { assert InfoAt(h, s, {}, x); }
    forall a ensures AddrAt(s', a) { assert AddrAt(s, a); }
    forall i ensures RandomAt(s', i) { assert RandomAt(s, i); }
    forall j ensures TriedAt(h, s', j) { assert TriedAt(h, s, j); }
    forall j ensures NewAt(h, s', j) { assert NewAt(h, s, j); }
    forall x ensures CollisionAt(h, s', x) { assert CollisionAt(h, s, x) && InfoAt(h, s, {}, x); }
    forall x ensures EvolvesAt(s, s', x) { }
    assert Tried(s') == Tried(s) && New(s') == New(s);
  }

  lemma GoodKeeps(h: Hasher, s: State, svc: Service, testBeforeEvict: bool, nTime: int)
    requires Inv(h, s) && nTime > 0
    ensures Inv(h, Good(h, s, svc, testBeforeEvict, nTime)) && Evolves(s, Good(h, s, svc, testBeforeEvict, nTime))
    ensures !testBeforeEvict ==> Good(h, s, svc, testBeforeEvict, nTime).collisions == s.collisions
  {
    var s', s0 := Good(h, s, svc, testBeforeEvict, nTime), s.(nLastGood := nTime);
    match FindService(s, svc)
    case None =>
      LastGoodFree(h, s, nTime);
      forall x ensures EvolvesAt(s, s0, x) { }
      CollisionsSurvive(h, s, s0);
    case Some(id) =>
      var s1 := Touch(s0, id, Succeeded(s.mapInfo[id], nTime));
      GoodReady(h, s, id, nTime);
      TouchEvolves(s, id, Succeeded(s.mapInfo[id], nTime), nTime);
      CollisionsSurvive(h, s, s1);
      if !s.mapInfo[id].fInTried {
        if testBeforeEvict && h.TriedSlot(svc) in s.vvTried {
          if |s.collisions| < SET_TRIED_COLLISION_SIZE {
            NoteCollision(h, s1, id);
            EvolvesTrans(s, s1, s');
          }
        } else {
          MakeTriedKeeps(h, s1, id);
          MakeTriedEffect(h, s1, id);
          EvolvesTrans(s, s1, s');
          CollisionsSurvive(h, s1, s');
        }
      }
  }

  // ---------- adding ----------

  predicate Placeable(h: Hasher, s: State, id: Id, source: NetAddr) {
    && Deletable(s, id)
    && var k := h.NewSlot(s.mapInfo[id].service, h.NewBucket(s.mapInfo[id].service, source));
       Clearable(s, k) && (k in s.vvNew ==> s.vvNew[k] in s.mapInfo)
       && ((k in s.vvNew && s.vvNew[k] == id) || id in ClearNew(s, k).mapInfo)
  }

  /** Gives an entry a reference in the bucket of a source, if its slot there can be had. */
  function Place(h: Hasher, s: State, id: Id, source: NetAddr, nNow: int): State
    requires Placeable(h, s, id, source)
  {
    var info := s.mapInfo[id];
    var k := h.NewSlot(info.service, h.NewBucket(info.service, source));
    if k in s.vvNew && s.vvNew[k] == id then s
    else if Yields(s, k, info, nNow) then PutNew(ClearNew(s, k), k, id)
    else if info.nRefCount == 0 then Delete(s, id)
    else s
  }

  /** A slot is free, or its entry may be overwritten. */
  predicate Yields(s: State, k: Slot, info: Info, nNow: int) {
    k in s.vvNew && s.vvNew[k] in s.mapInfo ==>
      var existing := s.mapInfo[s.vvNew[k]];
      existing.IsTerrible(nNow) || (existing.nRefCount > 1 && info.nRefCount == 0)
  }

  lemma PlaceReady(h: Hasher, s: State, limbo: set<Id>, id: Id, source: NetAddr)
    requires Linked(h, s, limbo) && Counted(s, limbo, |limbo|) && id in s.mapInfo
    ensures Placeable(h, s, id, source)
  {
    LinkedDeletable(h, s, limbo, id);
    var k := h.NewSlot(s.mapInfo[id].service, h.NewBucket(s.mapInfo[id].service, source));
    ClearNewKeeps(h, s, limbo, |limbo|, k);
    assert NewAt(h, s, k);
    if !(k in s.vvNew && s.vvNew[k] == id) { ClearNewOther(s, k, id); }
  }

  lemma InsertKeeps(h: Hasher, s: State, limbo: set<Id>, k: Slot, id: Id)
    requires Linked(h, s, limbo) && Counted(s, limbo, |limbo|) && limbo <= {id}
    requires id in s.mapInfo && !s.mapInfo[id].fInTried && s.mapInfo[id].nRefCount < NEW_BUCKETS_PER_ADDRESS
    requires k.bucket < NEW_BUCKET_COUNT && k == h.NewSlot(s.mapInfo[id].service, k.bucket)
             && !(k in s.vvNew && s.vvNew[k] == id)
    ensures Clearable(s, k) && id in ClearNew(s, k).mapInfo
    ensures Linked(h, PutNew(ClearNew(s, k), k, id), {}) && Counted(PutNew(ClearNew(s, k), k, id), {}, 0)
  {
    ClearNewKeeps(h, s, limbo, |limbo|, k);
    ClearNewLost(h, s, limbo, k);
    ClearNewOther(s, k, id);
    PutNewLinks(h, ClearNew(s, k), limbo, k, id);
    PutNewCounts(ClearNew(s, k), limbo, |limbo|, k, id);
    assert limbo - {id} == {} && limbo == if id in limbo then {id} else {};
  }

  /** A known entry gains a reference or stays as it is. */
  lemma PlaceKnownKeeps(h: Hasher, s: State, id: Id, source: NetAddr, nNow: int)
    requires Linked(h, s, {}) && Counted(s, {}, 0)
    requires id in s.mapInfo && !s.mapInfo[id].fInTried && s.mapInfo[id].nRefCount < NEW_BUCKETS_PER_ADDRESS
    ensures Placeable(h, s, id, source)
    ensures Linked(h, Place(h, s, id, source, nNow), {}) && Counted(Place(h, s, id, source, nNow), {}, 0)
  {
    PlaceReady(h, s, {}, id, source);
    var k := h.NewSlot(s.mapInfo[id].service, h.NewBucket(s.mapInfo[id].service, source));
    if k in s.vvNew && s.vvNew[k] == id {
    } else if Yields(s, k, s.mapInfo[id], nNow) {
      InsertKeeps(h, s, {}, k, id);
    } else {
      assert InfoAt(h, s, {}, id);
    }
  }

  /** An entry just created, counted ahead of its reference, gets one or is deleted again. */
  lemma PlaceCreatedKeeps(h: Hasher, s: State, id: Id, source: NetAddr, nNow: int)
    requires Linked(h, s, {id}) && Counted(s, {id}, 1)
    ensures id in s.mapInfo && Placeable(h, s, id, source)
    ensures Linked(h, Place(h, s, id, source, nNow), {}) && Counted(Place(h, s, id, source, nNow), {}, 0)
  {
    assert InfoAt(h, s, {id}, id);
    PlaceReady(h, s, {id}, id, source);
    var k := h.NewSlot(s.mapInfo[id].service, h.NewBucket(s.mapInfo[id].service, source));
    NoSlots(s.vvNew, id, k);
    if Yields(s, k, s.mapInfo[id], nNow) {
      InsertKeeps(h, s, {id}, k, id);
    } else {
      DeleteKeeps(h, s, {id}, id);
      DeleteCounts(h, s, {id}, 1, id);
      assert {id} - {id} == {};
    }
  }

  /** Placing loses at most new entries, never a tried one. */
  lemma PlaceEvolves(h: Hasher, s: State, limbo: set<Id>, id: Id, source: NetAddr, nNow: int)
    requires Linked(h, s, limbo) && Counted(s, limbo, |limbo|) && limbo <= {id}
    requires id in s.mapInfo && !s.mapInfo[id].fInTried
    ensures Placeable(h, s, id, source)
    ensures Evolves(s, Place(h, s, id, source, nNow)) && Place(h, s, id, source, nNow).collisions == s.collisions
    ensures Place(h, s, id, source, nNow).vvTried == s.vvTried
  {
    PlaceReady(h, s, limbo, id, source);
    var info, s' := s.mapInfo[id], Place(h, s, id, source, nNow);
    var k := h.NewSlot(info.service, h.NewBucket(info.service, source));
    ClearNewLost(h, s, limbo, k);
    DeleteLost(s, id, {});
    forall x ensures EvolvesAt(s, s', x) {
      assert LostAt(s, ClearNew(s, k), limbo, x) && LostAt(s, Delete(s, id), {}, x);
    }
  }

  /** What an announcement changes about an entry that is already known. */
  function Announced(info: Info, addrTime: int, nServices: Flags, penalty: int, nNow: int): Info {
    var interval := if nNow - addrTime < 24 * 60 * 60 then 60 * 60 else 24 * 60 * 60;
    var nTime := if addrTime != 0 && (info.nTime == 0 || info.nTime < addrTime - interval - penalty)
                 then Max(0, addrTime - penalty) else info.nTime;
    info.(nTime := nTime, nServices := info.nServices + nServices)
  }

  /**
   An announcement is taken over only as news of more than an hour; afterwards the entry is at
   most a day behind it, services are only added, and hearing it again changes nothing.
   */
  lemma AnnouncedMeans(info: Info, addrTime: int, nServices: Flags, penalty: int, nNow: int)
    ensures var r := Announced(info, addrTime, nServices, penalty, nNow);
            && r == info.(nTime := r.nTime, nServices := r.nServices) && r.nServices == info.nServices + nServices
            && (r.nTime != info.nTime ==> addrTime != 0 && r.nTime == Max(0, addrTime - penalty))
            && (r.nTime != info.nTime && info.nTime != 0 && addrTime >= penalty ==> r.nTime > info.nTime + 60 * 60)
            && (info.nTime > 0 ==> r.nTime >= info.nTime)
            && (addrTime != 0 ==> r.nTime + penalty + 24 * 60 * 60 >= addrTime)
            && (addrTime != 0 && nNow - addrTime < 24 * 60 * 60 ==> r.nTime + penalty + 60 * 60 >= addrTime)
            && Announced(r, addrTime, nServices, penalty, nNow) == r
  {
    assert info.nServices + nServices + nServices == info.nServices + nServices;
  }

  /** Whether a known entry is to get another reference; `rnd` is the random draw. */
  predicate GoesOn(info: Info, addrTime: int, rnd: nat) {
    && addrTime != 0 && !(info.nTime != 0 && addrTime <= info.nTime)
    && !info.fInTried
    && info.nRefCount != NEW_BUCKETS_PER_ADDRESS
    && info.nRefCount >= 0 && rnd % Pow2(info.nRefCount) == 0
  }

  /** Add_: an address announced by a source, with the state after it and whether it is new. */
  ghost function Add(h: Hasher, s: State, svc: Service, addrTime: int, nServices: Flags, source: NetAddr,
                     nTimePenalty: int, nNow: int, rnd: nat): (State, bool)
    requires Inv(h, s)
  {
    var penalty := if svc.addr == source then 0 else nTimePenalty;
    if !h.IsRoutable(svc.addr) then (s, false)
    else match Find(s, svc.addr)
      case Some(id) =>
        var info := Announced(s.mapInfo[id], addrTime, nServices, penalty, nNow);
        var s1 := Touch(s, id, info);
        if !GoesOn(info, addrTime, rnd) then (s1, false)
        else
          KnownReady(h, s, id, info);
          PlaceReady(h, s1, {}, id, source);
          (Place(h, s1, id, source, nNow), false)
      case None =>
        CreatedReady(h, s, svc, addrTime, nServices, source, penalty);
        PlaceReady(h, Created(s, svc, addrTime, nServices, source, penalty), {s.nIdCount}, s.nIdCount, source);
        (Place(h, Created(s, svc, addrTime, nServices, source, penalty), s.nIdCount, source, nNow), true)
  }

  /** An edit that keeps identity, place and history within bounds. */
  predicate Edits(was: Info, info: Info) {
    && info == was.(nTime := info.nTime, nServices := info.nServices, nLastTry := info.nLastTry,
                    nLastCountAttempt := info.nLastCountAttempt, nAttempts := info.nAttempts)
    && (was.nLastTry >= 0 ==> info.nLastTry >= 0)
  }

  lemma KnownReady(h: Hasher, s: State, id: Id, info: Info)
    requires Inv(h, s) && id in s.mapInfo && Edits(s.mapInfo[id], info)
    ensures Inv(h, Touch(s, id, info)) && Evolves(s, Touch(s, id, info))
    ensures Counted(Touch(s, id, info), {}, 0)
  {
    assert InfoAt(h, s, {}, id);
    TouchKeeps(h, s, {}, 0, id, info);
    forall x ensures EvolvesAt(s, Touch(s, id, info), x) { }
    CollisionsSurvive(h, s, Touch(s, id, info));
  }

  lemma CreatedReady(h: Hasher, s: State, svc: Service, addrTime: int, nServices: Flags, source: NetAddr, penalty: int)
    requires Inv(h, s) && Find(s, svc.addr) == None
    ensures var s1, id := Created(s, svc, addrTime, nServices, source, penalty), s.nIdCount;
            && Linked(h, s1, {id}) && Counted(s1, {id}, 1) && Evolves(s, s1) && s1.collisions == s.collisions
            && s1.vvTried == s.vvTried
            && id in s1.mapInfo && !s1.mapInfo[id].fInTried && s1.mapInfo[id].nRefCount == 0
  {
    assert AddrAt(s, svc.addr);
    CreatedLinks(h, s, svc, addrTime, nServices, source, penalty);
    CreatedCounts(s, svc, addrTime, nServices, source, penalty);
    var s1 := Created(s, svc, addrTime, nServices, source, penalty);
    forall x ensures EvolvesAt(s, s1, x) { }
  }

  lemma AddKeeps(h: Hasher, s: State, svc: Service, addrTime: int, nServices: Flags, source: NetAddr,
                 nTimePenalty: int, nNow: int, rnd: nat)
    requires Inv(h, s)
    ensures var (s', added) := Add(h, s, svc, addrTime, nServices, source, nTimePenalty, nNow, rnd);
            Inv(h, s') && Evolves(s, s') && s'.vvTried == s.vvTried
  {
    var s' := Add(h, s, svc, addrTime, nServices, source, nTimePenalty, nNow, rnd).0;
    var penalty := if svc.addr == source then 0 else nTimePenalty;
    if h.IsRoutable(svc.addr) {
      match Find(s, svc.addr)
      case Some(id) =>
        var info := Announced(s.mapInfo[id], addrTime, nServices, penalty, nNow);
        KnownReady(h, s, id, info);
        if GoesOn(info, addrTime, rnd) {
          var s1 := Touch(s, id, info);
          assert InfoAt(h, s1, {}, id);
          PlaceKnownKeeps(h, s1, id, source, nNow);
          PlaceEvolves(h, s1, {}, id, source, nNow);
          EvolvesTrans(s, s1, s');
          CollisionsSurvive(h, s1, s');
        }
      case None =>
        CreatedReady(h, s, svc, addrTime, nServices, source, penalty);
        var s1, id := Created(s, svc, addrTime, nServices, source, penalty), s.nIdCount;
        PlaceCreatedKeeps(h, s1, id, source, nNow);
        PlaceEvolves(h, s1, {id}, id, source, nNow);
        EvolvesTrans(s, s1, s');
        CollisionsSurvive(h, s, s');
    } else {
      forall x ensures EvolvesAt(s, s, x) { }
    }
  }

  // ---------- notes about a known peer ----------

  /** Attempt_, Connected_ and SetServices_ each edit the entry of exactly this service. */
  datatype Note = Attempted(fCountFailure: bool, at: int) | Connected(at: int) | Services(nServices: Flags)

  function Noted(info: Info, note: Note, nLastGood: int): Info {
    match note
    case Attempted(fCountFailure, nTime) =>
      var tried := info.(nLastTry := nTime);
      if fCountFailure && info.nLastCountAttempt < nLastGood
      then tried.(nLastCountAttempt := nTime, nAttempts := info.nAttempts + 1) else tried
    case Connected(nTime) => if nTime - info.nTime > 20 * 60 then info.(nTime := nTime) else info
    case Services(nServices) => info.(nServices := nServices)
  }

  function Annotate(s: State, svc: Service, note: Note): State {
    match FindService(s, svc)
    case None => s
    case Some(id) => Touch(s, id, Noted(s.mapInfo[id], note, s.nLastGood))
  }

  lemma AnnotateKeeps(h: Hasher, s: State, svc: Service, note: Note)
    requires Inv(h, s) && (note.Attempted? ==> note.at >= 0)
    ensures Inv(h, Annotate(s, svc, note)) && Evolves(s, Annotate(s, svc, note))
  {
    match FindService(s, svc)
    case None => forall x ensures EvolvesAt(s, s, x) { }
    case Some(id) => KnownReady(h, s, id, Noted(s.mapInfo[id], note, s.nLastGood));
  }

  // ---------- collisions ----------

  datatype Verdict = Keep | Drop | Move

  /** What to do about an id that waits for its tried slot. */
  function Judge(h: Hasher, s: State, id: Id, nNow: int): Verdict {
    if id !in s.mapInfo then Drop
    else
      var info := s.mapInfo[id];
      var k := h.TriedSlot(info.service);
      if !h.IsValid(info.service.addr) then Drop
      else if k in s.vvTried && s.vvTried[k] in s.mapInfo then
        var old' := s.mapInfo[s.vvTried[k]];
        if nNow - old'.nLastSuccess < REPLACEMENT_HOURS * 60 * 60 then Drop
        else if nNow - old'.nLastTry < REPLACEMENT_HOURS * 60 * 60 then
          if nNow - old'.nLastTry > 60 then Move else Keep
        else if nNow - info.nLastSuccess > TEST_WINDOW then Move
        else Keep
      else Move
  }

  /** Settles one waiting id. */
  function ResolveOne(h: Hasher, s: State, id: Id, nNow: int): State
    requires Inv(h, s) && nNow > 0
  {
    match Judge(h, s, id, nNow)
    case Keep => s
    case Drop => s.(collisions := s.collisions - {id})
    case Move =>
      var s1 := if id in s.mapInfo then Good(h, s, s.mapInfo[id].service, false, nNow) else s;
      s1.(collisions := s1.collisions - {id})
  }

  lemma ForgetCollision(h: Hasher, s: State, id: Id)
    requires Inv(h, s)
    ensures Inv(h, s.(collisions := s.collisions - {id})) && Evolves(s, s.(collisions := s.collisions - {id}))
  {
    var s' := s.(collisions := s.collisions - {id});
    forall x ensures InfoAt(h, s', {}, x) { assert InfoAt(h, s, {}, x); }
    forall a ensures AddrAt(s', a) { assert AddrAt(s, a); }
    forall i ensures RandomAt(s', i) { assert RandomAt(s, i); }
    forall j ensures TriedAt(h, s', j) { assert TriedAt(h, s, j); }
    forall j ensures NewAt(h, s', j) { assert NewAt(h, s, j); }
    forall x ensures EvolvesAt(s, s', x) { }
    CollisionsSurvive(h, s, s');
    assert Tried(s') == Tried(s) && New(s') == New(s);
  }

  lemma ResolveOneKeeps(h: Hasher, s: State, id: Id, nNow: int)
    requires Inv(h, s) && nNow > 0
    ensures Inv(h, ResolveOne(h, s, id, nNow)) && Evolves(s, ResolveOne(h, s, id, nNow))
    ensures ResolveOne(h, s, id, nNow).collisions <= s.collisions
  {
    match Judge(h, s, id, nNow)
    case Keep => forall x ensures EvolvesAt(s, s, x) { }
    case Drop => ForgetCollision(h, s, id);
    case Move =>
      assert id in s.mapInfo;
      var s1 := Good(h, s, s.mapInfo[id].service, false, nNow);
      GoodKeeps(h, s, s.mapInfo[id].service, false, nNow);
      ForgetCollision(h, s1, id);
      EvolvesTrans(s, s1, ResolveOne(h, s, id, nNow));
  }

  /** A live waiting id always faces an occupied slot, whose entry is a tried one. */
  lemma CollisionFacesEntry(h: Hasher, s: State, id: Id)
    requires Inv(h, s) && id in s.collisions && id in s.mapInfo
    ensures var k := h.TriedSlot(s.mapInfo[id].service);
            k in s.vvTried && s.vvTried[k] in s.mapInfo && s.mapInfo[s.vvTried[k]].fInTried
  {
    assert CollisionAt(h, s, id) && TriedAt(h, s, h.TriedSlot(s.mapInfo[id].service));
  }

  // ---------- runs ----------

  datatype Op =
    | DoAdd(svc: Service, addrTime: int, nServices: Flags, source: NetAddr, nTimePenalty: int, nNow: int, rnd: nat)
    | DoGood(svc: Service, testBeforeEvict: bool, nTime: int)
    | DoNote(svc: Service, note: Note)
    | DoResolve(id: Id, nNow: int)
    | DoSwap(p1: nat, p2: nat)

  /** Clock readings are positive, and the permuted list is only swapped within its bounds. */
  predicate Sensible(s: State, op: Op) {
    match op
    case DoAdd(_, _, _, _, _, _, _) => true
    case DoGood(_, _, nTime) => nTime > 0
    case DoNote(_, note) => note.Attempted? ==> note.at >= 0
    case DoResolve(_, nNow) => nNow > 0
    case DoSwap(p1, p2) => p1 < |s.vRandom| && p2 < |s.vRandom|
  }

  ghost function Apply(h: Hasher, s: State, op: Op): State
    requires Inv(h, s) && Sensible(s, op)
  {
    match op
    case DoAdd(svc, addrTime, nServices, source, penalty, nNow, rnd) => Add(h, s, svc, addrTime, nServices, source,
        penalty, nNow, rnd).0
    case DoGood(svc, test, nTime) => Good(h, s, svc, test, nTime)
    case DoNote(svc, note) => Annotate(s, svc, note)
    case DoResolve(id, nNow) => ResolveOne(h, s, id, nNow)
    case DoSwap(p1, p2) => assert RandomAt(s, p1) && RandomAt(s, p2); SwapRandom(s, p1, p2)
  }

  lemma SwapInv(h: Hasher, s: State, p1: nat, p2: nat)
    requires Inv(h, s) && p1 < |s.vRandom| && p2 < |s.vRandom|
    ensures s.vRandom[p1] in s.mapInfo && s.vRandom[p2] in s.mapInfo
    ensures Inv(h, SwapRandom(s, p1, p2)) && Evolves(s, SwapRandom(s, p1, p2))
  {
    SwapKeeps(h, s, {}, p1, p2);
    var s' := SwapRandom(s, p1, p2);
    OrderCounts(s, s');
    forall x ensures EvolvesAt(s, s', x) { assert SameInfo(s, s', x); }
    CollisionsSurvive(h, s, s');
    assert New(s) - {} == New(s) && New(s') - {} == New(s');
  }

  /** Every operation keeps every consistency condition, and the state only evolves. */
  lemma ApplyKeeps(h: Hasher, s: State, op: Op)
    requires Inv(h, s) && Sensible(s, op)
    ensures Inv(h, Apply(h, s, op)) && Evolves(s, Apply(h, s, op))
  {
    match op
    case DoAdd(svc, addrTime, nServices, source, penalty, nNow, rnd) => AddKeeps(h, s, svc, addrTime, nServices,
        source, penalty, nNow, rnd);
    case DoGood(svc, test, nTime) => GoodKeeps(h, s, svc, test, nTime);
    case DoNote(svc, note) => AnnotateKeeps(h, s, svc, note);
    case DoResolve(id, nNow) => ResolveOneKeeps(h, s, id, nNow);
    case DoSwap(p1, p2) => SwapInv(h, s, p1, p2);
  }

  const EMPTY := State(0, map[], map[], [], 0, map[], 0, map[], 1, {})

  lemma EmptyHolds(h: Hasher)
    ensures Inv(h, EMPTY)
  {
    forall id ensures InfoAt(h, EMPTY, {}, id) && CollisionAt(h, EMPTY, id) { }
    forall a ensures AddrAt(EMPTY, a) { }
    forall i ensures RandomAt(EMPTY, i) { }
    forall k ensures TriedAt(h, EMPTY, k) && NewAt(h, EMPTY, k) { }
    assert Tried(EMPTY) == {} && New(EMPTY) == {};
  }

  ghost predicate IsRun(h: Hasher, states: seq<State>, ops: seq<Op>) {
    && |states| == |ops| + 1 && states[0] == EMPTY
    && forall i: nat :: RunStep(h, states, ops, i)
  }

  ghost predicate RunStep(h: Hasher, states: seq<State>, ops: seq<Op>, i: nat) {
    i < |ops| && i + 1 < |states| && Inv(h, states[i]) ==>
        Sensible(states[i], ops[i]) && states[i + 1] == Apply(h, states[i], ops[i])
  }

  lemma EvolvesRefl(s: State)
    ensures Evolves(s, s)
  {
    forall x ensures EvolvesAt(s, s, x) { }
  }

  /** From construction on, every state is consistent. */
  lemma {:induction false} RunKeeps(h: Hasher, states: seq<State>, ops: seq<Op>, i: nat)
    requires IsRun(h, states, ops) && i < |states|
    ensures Inv(h, states[i])
    ensures i + 1 < |states| ==> Evolves(states[i], states[i + 1])
  {
    if i == 0 {
      EmptyHolds(h);
    } else {
      RunKeeps(h, states, ops, i - 1);
      assert RunStep(h, states, ops, i - 1);
      ApplyKeeps(h, states[i - 1], ops[i - 1]);
    }
    if i + 1 < |states| {
      assert RunStep(h, states, ops, i);
      ApplyKeeps(h, states[i], ops[i]);
    }
  }

  /** Between any two points of a run ids are not reused and tried slots do not empty. */
  lemma {:induction false} RunEvolves(h: Hasher, states: seq<State>, ops: seq<Op>, i: nat, j: nat)
    requires IsRun(h, states, ops) && i <= j < |states|
    ensures Evolves(states[i], states[j])
    decreases j
  {
    if i == j {
      EvolvesRefl(states[i]);
    } else {
      RunEvolves(h, states, ops, i, j - 1);
      RunKeeps(h, states, ops, j - 1);
      EvolvesTrans(states[i], states[j - 1], states[j]);
    }
  }

  // ---------- the debug check ----------

  /** The conditions under which Check_ returns 0, in its own order. */
  ghost predicate CheckPasses(h: Hasher, s: State) {
    && |s.vRandom| == s.nTried + s.nNew                                                          // -7
    && (forall id | id in s.mapInfo ::
          var info := s.mapInfo[id];
          && (info.fInTried ==> info.nLastSuccess != 0 && info.nRefCount == 0)                   // -1, -2
          && (!info.fInTried ==> 0 < info.nRefCount <= NEW_BUCKETS_PER_ADDRESS)                  // -3, -4
          && info.service.addr in s.mapAddr && s.mapAddr[info.service.addr] == id                // -5
          && 0 <= info.nRandomPos < |s.vRandom| && s.vRandom[info.nRandomPos] == id              // -14
          && info.nLastTry >= 0 && info.nLastSuccess >= 0)                                       // -6, -8
    && |Tried(s)| == s.nTried && |New(s)| == s.nNew                                              // -9, -10
    && (forall k | k in s.vvTried ::
          s.vvTried[k] in Tried(s) && h.TriedSlot(s.mapInfo[s.vvTried[k]].service) == k)         // -11, -17, -18
    && (forall k | k in s.vvNew ::
          s.vvNew[k] in New(s) && h.NewSlot(s.mapInfo[s.vvNew[k]].service, k.bucket) == k)       // -12, -19
    && (forall id | id in Tried(s) :: |SlotsOf(s.vvTried, id)| == 1)                             // -11, -13
    && (forall id | id in New(s) :: |SlotsOf(s.vvNew, id)| == s.mapInfo[id].nRefCount)           // -12, -15
  }

  lemma TriedAndNew(s: State)
    ensures |s.mapInfo| == |Tried(s)| + |New(s)|
  {
    assert s.mapInfo.Keys == Tried(s) + New(s) && Tried(s) !! New(s);
  }

  lemma InvPassesCheck(h: Hasher, s: State)
    requires Inv(h, s)
    ensures CheckPasses(h, s)
  {
    TriedAndNew(s);
    assert New(s) - {} == New(s);
    forall id | id in s.mapInfo
      ensures InfoAt(h, s, {}, id)
      ensures id in Tried(s) ==> |SlotsOf(s.vvTried, id)| == 1
    {
      if id in Tried(s) {
        var k := h.TriedSlot(s.mapInfo[id].service);
        forall j | j in SlotsOf(s.vvTried, id) ensures j == k { assert TriedAt(h, s, j); }
        assert InfoAt(h, s, {}, id);
        assert SlotsOf(s.vvTried, id) == {k};
      }
    }
    forall k | k in s.vvTried ensures TriedAt(h, s, k) { }
    forall k | k in s.vvNew ensures s.vvNew[k] in New(s) && NewAt(h, s, k) {
      assert NewAt(h, s, k) && InfoAt(h, s, {}, s.vvNew[k]);
      NoSlots(s.vvNew, s.vvNew[k], k);
    }
  }

  /** The new table once an entry has been taken out of the first buckets. */
  ghost function ListedFrom(s: State, id: Id, bucket: nat): map<Slot, Id> {
    map k | k in s.vvNew && (s.vvNew[k] != id || k.bucket >= bucket) :: s.vvNew[k]
  }

  /** The entries, the one that is being taken out with the references it has left. */
  ghost function Referenced(s: State, id: Id, table: map<Slot, Id>): map<Id, Info>
    requires id in s.mapInfo
  {
    s.mapInfo[id := s.mapInfo[id].(nRefCount := |SlotsOf(table, id)|)]
  }

  lemma ListedFromStart(h: Hasher, s: State, id: Id)
    requires Linked(h, s, {}) && id in s.mapInfo
    ensures ListedFrom(s, id, 0) == s.vvNew && Referenced(s, id, s.vvNew) == s.mapInfo
  {
    assert InfoAt(h, s, {}, id);
  }

  lemma BucketStep(h: Hasher, s: State, id: Id, bucket: nat)
    requires Linked(h, s, {}) && id in s.mapInfo && bucket < NEW_BUCKET_COUNT
    ensures var k, table := h.NewSlot(s.mapInfo[id].service, bucket), ListedFrom(s, id, bucket);
            (if k in table && table[k] == id then table - {k} else table) == ListedFrom(s, id, bucket + 1)
  {
    var k := h.NewSlot(s.mapInfo[id].service, bucket);
    forall j | j in s.vvNew && s.vvNew[j] == id && j.bucket == bucket ensures j == k { assert NewAt(h, s, j); }
  }

  lemma ListedFromEnd(h: Hasher, s: State, id: Id)
    requires Linked(h, s, {}) && id in s.mapInfo
    ensures ListedFrom(s, id, NEW_BUCKET_COUNT) == Unlist(s, id).vvNew
    ensures Referenced(s, id, ListedFrom(s, id, NEW_BUCKET_COUNT)) == Unlist(s, id).mapInfo
  {
    forall k | k in s.vvNew ensures k.bucket < NEW_BUCKET_COUNT { assert NewAt(h, s, k); }
    assert SlotsOf(ListedFrom(s, id, NEW_BUCKET_COUNT), id) == {};
  }

  /** An entry with a reference is found by trying each bucket, from wherever one starts. */
  lemma SomeBucket(h: Hasher, s: State, id: Id, nRnd: nat) returns (n: nat)
    requires Linked(h, s, {}) && id in s.mapInfo && !s.mapInfo[id].fInTried
    ensures n < NEW_BUCKET_COUNT && FoundAt(h, s, id, nRnd, n)
  {
    assert InfoAt(h, s, {}, id);
    var k :| k in SlotsOf(s.vvNew, id);
    assert NewAt(h, s, k);
    n := (k.bucket - nRnd) % NEW_BUCKET_COUNT;
    assert (n + nRnd) % NEW_BUCKET_COUNT == k.bucket;
  }

  /** The n-th bucket looked at, counting from nRnd, holds the id. */
  predicate FoundAt(h: Hasher, s: State, id: Id, nRnd: nat, n: nat) {
    id in s.mapInfo &&
    var k := h.NewSlot(s.mapInfo[id].service, (n + nRnd) % NEW_BUCKET_COUNT);
    k in s.vvNew && s.vvNew[k] == id
  }

  /** The assertions of ClearNew hold of any slot. */
  lemma Occupant(h: Hasher, s: State, limbo: set<Id>, k: Slot)
    requires Linked(h, s, limbo)
    ensures Clearable(s, k)
    ensures k in s.vvNew ==> s.mapInfo[s.vvNew[k]].nRefCount > 0 && !s.mapInfo[s.vvNew[k]].fInTried
  {
    if k in s.vvNew {
      assert NewAt(h, s, k) && InfoAt(h, s, limbo, s.vvNew[k]);
      NoSlots(s.vvNew, s.vvNew[k], k);
      LinkedDeletable(h, s, limbo, s.vvNew[k]);
    }
  }

  /** Every assertion on the way of an eviction holds. */
  lemma EvictSteps(h: Hasher, s: State, limbo: set<Id>, k: Slot)
    requires Linked(h, s, limbo) && Counted(s, limbo, 0) && k in s.vvTried && Evictable(h, s, k)
    ensures var k', s1 := NewHome(h, s.mapInfo[s.vvTried[k]]), TakeTried(s, k);
            && Clearable(s1, k')
            && (k' in s1.vvNew ==> s1.mapInfo[s1.vvNew[k']].nRefCount > 0 && !s1.mapInfo[s1.vvNew[k']].fInTried)
            && k' !in ClearNew(s1, k').vvNew
  {
    TakeTriedKeeps(h, s, limbo, 0, k);
    EvictClears(h, s, limbo, 0, k);
    Occupant(h, TakeTried(s, k), limbo + {s.vvTried[k]}, NewHome(h, s.mapInfo[s.vvTried[k]]));
  }

  /** Every assertion on the way to the tried table holds. */
  lemma MakeTriedSteps(h: Hasher, s: State, id: Id)
    requires Linked(h, s, {}) && Counted(s, {}, 0) && id in s.mapInfo && !s.mapInfo[id].fInTried
    ensures Movable(h, s, id)
    ensures Linked(h, Unlist(s, id), {id}) && Counted(Unlist(s, id), {id}, 0)
    ensures h.TriedSlot(s.mapInfo[id].service) !in MakeRoom(h, s, id).vvTried
  {
    UnlistKeeps(h, s, {}, 0, id);
    assert {} + {id} == {id};
    MakeRoomEffect(h, s, id);
  }

  lemma AddKnownSteps(h: Hasher, s: State, id: Id, info: Info, source: NetAddr)
    requires Inv(h, s) && id in s.mapInfo && Edits(s.mapInfo[id], info)
    ensures s.mapInfo[id].nRefCount >= 0
    ensures Linked(h, Touch(s, id, info), {}) && Placeable(h, Touch(s, id, info), id, source)
  {
    assert InfoAt(h, s, {}, id);
    KnownReady(h, s, id, info);
    PlaceReady(h, Touch(s, id, info), {}, id, source);
  }

  lemma AddCreatedSteps(h: Hasher, s: State, svc: Service, addrTime: int, nServices: Flags, source: NetAddr,
                        penalty: int)
    requires Inv(h, s) && Find(s, svc.addr) == None
    ensures var s1, id := Created(s, svc, addrTime, nServices, source, penalty), s.nIdCount;
            Linked(h, s1, {id}) && Placeable(h, s1, id, source) && !s1.mapInfo[id].fInTried
  {
    CreatedReady(h, s, svc, addrTime, nServices, source, penalty);
    PlaceReady(h, Created(s, svc, addrTime, nServices, source, penalty), {s.nIdCount}, s.nIdCount, source);
  }

  /** Two to the power of the reference count, by doubling. */
  method Factor(nRefCount: nat) returns (nFactor: nat)
    ensures nFactor == Pow2(nRefCount)
  {
    nFactor := 1;
    for n := 0 to nRefCount
      invariant nFactor == Pow2(n)
    {
      nFactor := nFactor * 2;
    }
  }

  /** A known entry takes the announced time, if that is news, and the announced services. */
  method Refresh(was: Info, addrTime: int, nServices: Flags, penalty: int, nNow: int) returns (info: Info)
    ensures info == Announced(was, addrTime, nServices, penalty, nNow)
  {
    var nTime := was.nTime;
    var fCurrentlyOnline := nNow - addrTime < 24 * 60 * 60;
    var nUpdateInterval := if fCurrentlyOnline then 60 * 60 else 24 * 60 * 60;
    if addrTime != 0 && (nTime == 0 || nTime < addrTime - nUpdateInterval - penalty) {
      nTime := Max(0, addrTime - penalty);
    }
    info := was.(nTime := nTime, nServices := was.nServices + nServices);
  }

  /** The exits of Add_ for an entry that gets no further reference. */
  method WantsAnother(info: Info, addrTime: int, rnd: nat) returns (goesOn: bool)
    requires info.nRefCount >= 0
    ensures goesOn == GoesOn(info, addrTime, rnd)
  {
    if addrTime == 0 || (info.nTime != 0 && addrTime <= info.nTime) { return false; }
    if info.fInTried { return false; }
    if info.nRefCount == NEW_BUCKETS_PER_ADDRESS { return false; }
    var nFactor := Factor(info.nRefCount);
    goesOn := !(nFactor > 1 && rnd % nFactor != 0);
  }

  lemma GoodSteps(h: Hasher, s: State, svc: Service, testBeforeEvict: bool, nTime: int)
    requires Inv(h, s) && nTime > 0
    ensures var s' := Good(h, s, svc, testBeforeEvict, nTime); Inv(h, s') && Evolves(s, s')
    ensures FindService(s, svc).Some? ==>
              var id := FindService(s, svc).value;
              var s1 := Touch(s.(nLastGood := nTime), id, Succeeded(s.mapInfo[id], nTime));
              && Linked(h, s1, {}) && Counted(s1, {}, 0)
              && (!s.mapInfo[id].fInTried ==> Movable(h, s1, id))
  {
    GoodKeeps(h, s, svc, testBeforeEvict, nTime);
    match FindService(s, svc)
    case None =>
    case Some(id) => GoodReady(h, s, id, nTime);
  }

  // ---------- gathering addresses ----------

  datatype Address = Address(service: Service, nTime: int, nServices: Flags)

  predicate Listed(s: State, n: nat) {
    n <= |s.vRandom| && forall i | 0 <= i < n :: s.vRandom[i] in s.mapInfo
  }

  /** The place chosen among those from n on. */
  function Chosen(size: nat, pick: nat, n: nat): (r: nat)
    requires n < size
    ensures n <= r < size
  {
    pick % (size - n) + n
  }

  function Swapped(w: seq<Id>, i: nat, j: nat): (r: seq<Id>)
    requires i < |w| && j < |w|
    ensures |r| == |w|
  {
    w[i := w[j]][j := w[i]]
  }

  /** The list after n draws, each of one of the elements not drawn yet. */
  function Drawn(v: seq<Id>, picks: seq<nat>, n: nat): (w: seq<Id>)
    requires n <= |v| == |picks|
    ensures |w| == |v|
  {
    if n == 0 then v
    else
      Swapped(Drawn(v, picks, n - 1), n - 1, Chosen(|v|, picks[n - 1], n - 1))
  }

  /** The first `n` entries of the permuted list, leaving out the terrible ones. */
  function Gathered(s: State, n: nat, nNow: int): (r: seq<Address>)
    requires Listed(s, n)
    ensures |r| <= n
  {
    if n == 0 then []
    else
      var ai := s.mapInfo[s.vRandom[n - 1]];
      Gathered(s, n - 1, nNow) + if ai.IsTerrible(nNow) then [] else [Address(ai.service, ai.nTime, ai.nServices)]
  }

  lemma InvListed(h: Hasher, s: State, n: nat)
    requires Inv(h, s) && n <= |s.vRandom|
    ensures Listed(s, n)
  {
    forall i | 0 <= i < n ensures s.vRandom[i] in s.mapInfo { assert RandomAt(s, i); }
  }

  /** What has been gathered depends on the entries and on the front of the list only. */
  lemma {:induction false} GatheredFrame(s: State, s': State, n: nat, nNow: int)
    requires Listed(s, n) && Listed(s', n) && SameButOrder(s, s')
    requires forall i | 0 <= i < n :: s'.vRandom[i] == s.vRandom[i]
    ensures Gathered(s', n, nNow) == Gathered(s, n, nNow)
  {
    if n > 0 {
      GatheredFrame(s, s', n - 1, nNow);
      assert SameInfo(s, s', s.vRandom[n - 1]);
    }
  }

  /** Gathering lists exactly the addresses of the entries in the front of the list that are not terrible. */
  lemma {:induction false} GatheredHas(s: State, n: nat, nNow: int, a: Address)
    requires Listed(s, n)
    ensures a in Gathered(s, n, nNow) <==>
            exists i :: 0 <= i < n && var ai := s.mapInfo[s.vRandom[i]];
                        !ai.IsTerrible(nNow) && a == Address(ai.service, ai.nTime, ai.nServices)
  {
    if n > 0 {
      GatheredHas(s, n - 1, nNow, a);
    }
  }

  /** No service is listed twice. */
  lemma {:induction false} GatheredDistinct(h: Hasher, s: State, n: nat, nNow: int, i: nat, j: nat)
    requires Inv(h, s) && Listed(s, n) && i < j < |Gathered(s, n, nNow)|
    ensures Gathered(s, n, nNow)[i].service != Gathered(s, n, nNow)[j].service
  {
    var was, last := Gathered(s, n - 1, nNow), s.vRandom[n - 1];
    if j < |was| {
      GatheredDistinct(h, s, n - 1, nNow, i, j);
    } else {
      assert was[i] in was;
      GatheredHas(s, n - 1, nNow, was[i]);
      var m :| 0 <= m < n - 1 && s.mapInfo[s.vRandom[m]].service == was[i].service;
      assert RandomAt(s, m) && RandomAt(s, n - 1) && InfoAt(h, s, {}, last) && InfoAt(h, s, {}, s.vRandom[m]);
    }
  }

  lemma SwapGathered(h: Hasher, s: State, n: nat, r: nat, nNow: int)
    requires Inv(h, s) && n <= r < |s.vRandom|
    ensures s.vRandom[n] in s.mapInfo && s.vRandom[r] in s.mapInfo
    ensures var s' := SwapRandom(s, n, r);
            && Inv(h, s') && Evolves(s, s') && SameButOrder(s, s') && |s'.vRandom| == |s.vRandom|
            && Listed(s, n) && Listed(s', n + 1) && Gathered(s', n, nNow) == Gathered(s, n, nNow)
  {
    SwapKeeps(h, s, {}, n, r);
    SwapInv(h, s, n, r);
    var s' := SwapRandom(s, n, r);
    InvListed(h, s, n);
    InvListed(h, s', n + 1);
    GatheredFrame(s, s', n, nNow);
  }

  /** The state after n draws, and what they have gathered. */
  ghost predicate Gathering(h: Hasher, s: State, s1: State, picks: seq<nat>, n: nat, nNow: int, vAddr: seq<Address>) {
    && Inv(h, s1) && Evolves(s, s1) && SameButOrder(s, s1)
    && n <= |s.vRandom| == |picks| == |s1.vRandom| && s1.vRandom == Drawn(s.vRandom, picks, n)
    && Listed(s1, n) && vAddr == Gathered(s1, n, nNow)
  }

  lemma GatheringNone(h: Hasher, s: State, picks: seq<nat>, nNow: int)
    requires Inv(h, s) && |picks| == |s.vRandom|
    ensures Gathering(h, s, s, picks, 0, nNow, [])
  {
    EvolvesRefl(s);
    forall id ensures SameInfo(s, s, id) { }
  }

  lemma DrawnAfter(s: State, v: seq<Id>, picks: seq<nat>, n: nat, r: nat)
    requires n <= r < |v| == |picks| && s.vRandom == Drawn(v, picks, n) && r == Chosen(|v|, picks[n], n)
    requires s.vRandom[n] in s.mapInfo && s.vRandom[r] in s.mapInfo
    ensures SwapRandom(s, n, r).vRandom == Drawn(v, picks, n + 1)
  {
    assert s.vRandom[n := s.vRandom[n]][n := s.vRandom[n]] == s.vRandom;
  }

  lemma GatheringNext(h: Hasher, s: State, s1: State, picks: seq<nat>, n: nat, r: nat, nNow: int, vAddr: seq<Address>)
    requires Gathering(h, s, s1, picks, n, nNow, vAddr) && n < |s1.vRandom| && r == Chosen(|s1.vRandom|, picks[n], n)
    ensures n <= r < |s1.vRandom| && s1.vRandom[n] in s1.mapInfo && s1.vRandom[r] in s1.mapInfo
    ensures var s2 := SwapRandom(s1, n, r);
            && |s2.vRandom| == |s1.vRandom| && s2.vRandom[n] in s2.mapInfo
            && var ai := s2.mapInfo[s2.vRandom[n]];
               Gathering(h, s, s2, picks, n + 1, nNow,
                         vAddr + if ai.IsTerrible(nNow) then [] else [Address(ai.service, ai.nTime, ai.nServices)])
  {
    SwapGathered(h, s1, n, r, nNow);
    var s2 := SwapRandom(s1, n, r);
    EvolvesTrans(s, s1, s2);
    SameButOrderTrans(s, s1, s2);
    DrawnAfter(s1, s.vRandom, picks, n, r);
  }

  lemma SameButOrderTrans(s: State, s1: State, s2: State)
    requires SameButOrder(s, s1) && SameButOrder(s1, s2)
    ensures SameButOrder(s, s2)
  {
    forall id ensures SameInfo(s, s2, id) { assert SameInfo(s, s1, id) && SameInfo(s1, s2, id); }
  }

  // ---------- settling all collisions ----------

  predicate Ascending(ids: seq<Id>) {
    forall i, j | 0 <= i < j < |ids| :: ids[i] < ids[j]
  }

  /** Settles the waiting ids in the given order. */
  function ResolveAll(h: Hasher, s: State, ids: seq<Id>, nNow: int): (s': State)
    requires Inv(h, s) && nNow > 0
    ensures Inv(h, s')
  {
    if ids == [] then s
    else
      var s1 := ResolveAll(h, s, ids[..|ids| - 1], nNow);
      ResolveOneKeeps(h, s1, ids[|ids| - 1], nNow);
      ResolveOne(h, s1, ids[|ids| - 1], nNow)
  }

  lemma ResolveNext(h: Hasher, s: State, ids: seq<Id>, id: Id, nNow: int)
    requires Inv(h, s) && nNow > 0
    ensures ResolveAll(h, s, ids + [id], nNow) == ResolveOne(h, ResolveAll(h, s, ids, nNow), id, nNow)
  {
    assert (ids + [id])[..|ids|] == ids;
  }

  /** A settled id that moves ends in its own tried slot; otherwise no entry and no slot changes. */
  lemma ResolveOneOutcome(h: Hasher, s: State, id: Id, nNow: int)
    requires Inv(h, s) && nNow > 0
    ensures var s', verdict := ResolveOne(h, s, id, nNow), Judge(h, s, id, nNow);
            && (id in s'.collisions <==> id in s.collisions && verdict.Keep?)
            && (forall x | x != id :: x in s'.collisions <==> x in s.collisions)
            && (verdict.Move? ==>
                  && id in s'.mapInfo && s'.mapInfo[id].fInTried
                  && h.TriedSlot(s'.mapInfo[id].service) in s'.vvTried
                  && s'.vvTried[h.TriedSlot(s'.mapInfo[id].service)] == id)
            && (!verdict.Move? ==> s' == s.(collisions := s'.collisions))
  {
    if Judge(h, s, id, nNow).Move? {
      assert InfoAt(h, s, {}, id);
      var svc := s.mapInfo[id].service;
      GoodKeeps(h, s, svc, false, nNow);
      GoodTries(h, s, id, nNow);
      var s1 := Good(h, s, svc, false, nNow);
      assert InfoAt(h, s1, {}, id);
    }
  }

  /** Without the test, a live entry reported good is in its tried slot afterwards. */
  lemma GoodTries(h: Hasher, s: State, id: Id, nTime: int)
    requires Inv(h, s) && id in s.mapInfo && nTime > 0
    ensures var svc := s.mapInfo[id].service;
            var s' := Good(h, s, svc, false, nTime);
            && id in s'.mapInfo && s'.mapInfo[id].fInTried && s'.mapInfo[id].service == svc
            && h.TriedSlot(svc) in s'.vvTried && s'.vvTried[h.TriedSlot(svc)] == id
  {
    assert InfoAt(h, s, {}, id);
    var svc := s.mapInfo[id].service;
    var s1 := Touch(s.(nLastGood := nTime), id, Succeeded(s.mapInfo[id], nTime));
    var s' := Good(h, s, svc, false, nTime);
    GoodKeeps(h, s, svc, false, nTime);
    GoodReady(h, s, id, nTime);
    if !s.mapInfo[id].fInTried {
      MakeTriedEffect(h, s1, id);
    }
    assert TriedAt(h, s', h.TriedSlot(svc)) && EvolvesAt(s, s', id);
  }

  /** The ids done so far, ascending and below those still to do. */
  ghost predicate Partway(order: seq<Id>, todo: set<Id>, all: set<Id>) {
    && Ascending(order) && (set id | id in order) + todo == all
    && forall i, x | 0 <= i < |order| && x in todo :: order[i] < x
  }

  lemma PartwayNext(order: seq<Id>, todo: set<Id>, all: set<Id>, id: Id)
    requires Partway(order, todo, all) && id in todo && forall x | x in todo :: id <= x
    ensures Partway(order + [id], todo - {id}, all)
  {
    var order' := order + [id];
    assert (set x | x in order') == (set x | x in order) + {id};
  }

  ghost predicate Resolving(h: Hasher, s: State, s1: State, order: seq<Id>, todo: set<Id>, nNow: int) {
    && Inv(h, s) && nNow > 0 && Partway(order, todo, s.collisions)
    && Inv(h, s1) && Evolves(s, s1) && s1 == ResolveAll(h, s, order, nNow)
  }

  lemma ResolvingNext(h: Hasher, s: State, s1: State, order: seq<Id>, todo: set<Id>, nNow: int, id: Id)
    requires Resolving(h, s, s1, order, todo, nNow) && id in todo && forall x | x in todo :: id <= x
    ensures Inv(h, s1) && nNow > 0 && Resolving(h, s, ResolveOne(h, s1, id, nNow), order + [id], todo - {id}, nNow)
  {
    PartwayNext(order, todo, s.collisions, id);
    ResolveNext(h, s, order, id, nNow);
    ResolveOneKeeps(h, s1, id, nNow);
    EvolvesTrans(s, s1, ResolveOne(h, s1, id, nNow));
  }

  lemma Inhabited(ids: set<Id>)
    requires ids != {}
    ensures exists x :: x in ids
  {
    if forall x :: x !in ids { assert false; }
  }

  method Least(ids: set<Id>) returns (least: Id)
    requires ids != {}
    ensures least in ids && forall x | x in ids :: least <= x
  {
    Inhabited(ids);
    least :| least in ids;
    ghost var seen := {least};
    var rest := ids - {least};
    while rest != {}
      invariant seen + rest == ids && least in seen && forall x | x in seen :: least <= x
      decreases rest
    {
      Inhabited(rest);
      var x :| x in rest;
      rest := rest - {x};
      seen := seen + {x};
      if x < least { least := x; }
    }
    assert seen == ids;
  }

  // ---------- the object ----------

  class Manager {
    const h: Hasher
    var nIdCount: int
    var mapInfo: map<Id, Info>
    var mapAddr: map<NetAddr, Id>
    var vRandom: seq<Id>
    var nTried: int
    var vvTried: map<Slot, Id>
    var nNew: int
    var vvNew: map<Slot, Id>
    var nLastGood: int
    var collisions: set<Id>

    ghost function View(): State
      reads this
    {
      State(nIdCount, mapInfo, mapAddr, vRandom, nTried, vvTried, nNew, vvNew, nLastGood, collisions)
    }

    constructor (h: Hasher)
      ensures this.h == h && View() == EMPTY && Inv(h, View())
    {
      this.h := h;
      nIdCount, mapInfo, mapAddr, vRandom := 0, map[], map[], [];
      nTried, vvTried, nNew, vvNew, nLastGood, collisions := 0, map[], 0, map[], 1, {};
      new;
      EmptyHolds(h);
    }

    method SwapRandom_(p1: nat, p2: nat)
      requires p1 < |vRandom| && p2 < |vRandom| && vRandom[p1] in mapInfo && vRandom[p2] in mapInfo
      modifies this`mapInfo, this`vRandom
      ensures View() == SwapRandom(old(View()), p1, p2)
    {
      if p1 == p2 { return; }
      var id1, id2 := vRandom[p1], vRandom[p2];
      mapInfo := mapInfo[id1 := mapInfo[id1].(nRandomPos := p2)];
      mapInfo := mapInfo[id2 := mapInfo[id2].(nRandomPos := p1)];
      vRandom := vRandom[p1 := id2];
      vRandom := vRandom[p2 := id1];
    }

    /** The preconditions are the assertions of the code. */
    method Delete_(id: Id)
      requires Deletable(View(), id) && !mapInfo[id].fInTried && mapInfo[id].nRefCount == 0
      modifies this
      ensures View() == Delete(old(View()), id)
    {
      var addr := mapInfo[id].service.addr;
      SwapRandom_(mapInfo[id].nRandomPos, |vRandom| - 1);
      vRandom := vRandom[..|vRandom| - 1];
      mapAddr := mapAddr - {addr};
      mapInfo := mapInfo - {id};
      nNew := nNew - 1;
    }

    method ClearNew_(k: Slot)
      requires Clearable(View(), k)
      requires k in vvNew ==> mapInfo[vvNew[k]].nRefCount > 0 && !mapInfo[vvNew[k]].fInTried
      modifies this
      ensures View() == ClearNew(old(View()), k)
    {
      if k in vvNew {
        var id := vvNew[k];
        mapInfo := mapInfo[id := mapInfo[id].(nRefCount := mapInfo[id].nRefCount - 1)];
        vvNew := vvNew - {k};
        if mapInfo[id].nRefCount == 0 {
          Delete_(id);
        }
      }
    }

    /** Takes an id out of all new buckets, one bucket at a time. */
    method RemoveFromNew(id: Id)
      requires Linked(h, View(), {}) && id in mapInfo && !mapInfo[id].fInTried
      modifies this`mapInfo, this`vvNew, this`nNew
      ensures View() == Unlist(old(View()), id)
      ensures mapInfo[id].nRefCount == 0
    {
      ghost var s := View();
      ListedFromStart(h, s, id);
      for bucket := 0 to NEW_BUCKET_COUNT
        invariant vvNew == ListedFrom(s, id, bucket) && mapInfo == Referenced(s, id, vvNew) && nNew == s.nNew
      {
        DropFromBucket(id, bucket, s);
      }
      ListedFromEnd(h, s, id);
      nNew := nNew - 1;
    }

    method DropFromBucket(id: Id, bucket: nat, ghost s: State)
      requires bucket < NEW_BUCKET_COUNT && Linked(h, s, {}) && id in s.mapInfo
      requires vvNew == ListedFrom(s, id, bucket) && mapInfo == Referenced(s, id, vvNew)
      modifies this`mapInfo, this`vvNew
      ensures vvNew == ListedFrom(s, id, bucket + 1) && mapInfo == Referenced(s, id, vvNew)
    {
      var k := h.NewSlot(mapInfo[id].service, bucket);
      BucketStep(h, s, id, bucket);
      if k in vvNew && vvNew[k] == id {
        SlotsAfterDrop(vvNew, k, id);
        vvNew := vvNew - {k};
        mapInfo := mapInfo[id := mapInfo[id].(nRefCount := mapInfo[id].nRefCount - 1)];
      }
    }

    method TakeTried_(k: Slot) returns (id: Id)
      requires k in vvTried && vvTried[k] in mapInfo
      modifies this`mapInfo, this`vvTried, this`nTried
      ensures id == old(vvTried[k]) && View() == TakeTried(old(View()), k)
    {
      id := vvTried[k];
      mapInfo := mapInfo[id := mapInfo[id].(fInTried := false)];
      vvTried := vvTried - {k};
      nTried := nTried - 1;
    }

    method Rehome_(k: Slot, id: Id)
      requires id in mapInfo && k !in vvNew
      modifies this`mapInfo, this`vvNew, this`nNew
      ensures View() == Rehome(old(View()), k, id)
    {
      mapInfo := mapInfo[id := mapInfo[id].(nRefCount := 1)];
      vvNew := vvNew[k := id];
      nNew := nNew + 1;
    }

    /** Moves the entry in an occupied tried slot back to the new table. */
    method Evict_(k: Slot, ghost limbo: set<Id>)
      requires Linked(h, View(), limbo) && Counted(View(), limbo, 0) && k in vvTried && Evictable(h, View(), k)
      modifies this
      ensures View() == Evict(h, old(View()), k)
    {
      EvictSteps(h, View(), limbo, k);
      var idEvict := TakeTried_(k);
      var k' := h.NewSlot(mapInfo[idEvict].service, h.NewBucket(mapInfo[idEvict].service, mapInfo[idEvict].source));
      ClearNew_(k');
      Rehome_(k', idEvict);
    }

    method PutTried_(k: Slot, id: Id)
      requires id in mapInfo && k !in vvTried
      modifies this`vvTried, this`nTried, this`mapInfo
      ensures View() == PutTried(old(View()), k, id)
    {
      vvTried := vvTried[k := id];
      nTried := nTried + 1;
      mapInfo := mapInfo[id := mapInfo[id].(fInTried := true)];
    }

    method MakeTried_(id: Id)
      requires Linked(h, View(), {}) && Counted(View(), {}, 0)
      requires id in mapInfo && !mapInfo[id].fInTried && Movable(h, View(), id)
      modifies this
      ensures View() == MakeTried(h, old(View()), id)
    {
      MakeTriedSteps(h, View(), id);
      RemoveFromNew(id);
      assert mapInfo[id].nRefCount == 0;
      var k := h.TriedSlot(mapInfo[id].service);
      if k in vvTried {
        Evict_(k, {id});
      }
      PutTried_(k, id);
    }

    /** Looks for a bucket with the entry; for an entry in the new table there always is one. */
    method FindBucket(id: Id, nRnd: nat) returns (nUBucket: int)
      requires Linked(h, View(), {}) && id in mapInfo && !mapInfo[id].fInTried
      ensures 0 <= nUBucket < NEW_BUCKET_COUNT
      ensures var k := h.NewSlot(mapInfo[id].service, nUBucket); k in vvNew && vvNew[k] == id
    {
      for n := 0 to NEW_BUCKET_COUNT
        invariant forall m: nat | m < n :: !FoundAt(h, View(), id, nRnd, m)
      {
        var nB := (n + nRnd) % NEW_BUCKET_COUNT;
        var k := h.NewSlot(mapInfo[id].service, nB);
        if k in vvNew && vvNew[k] == id {
          return nB;
        }
      }
      nUBucket := -1;
      ghost var n := SomeBucket(h, View(), id, nRnd);
      assert false;
    }

    /** Records a success; reports the id if the entry is to go on to the tried table. */
    method Succeed_(svc: Service, nTime: int) returns (goesOn: bool, id: Id)
      modifies this`nLastGood, this`mapInfo
      ensures goesOn <==>
                FindService(old(View()), svc).Some? && !old(mapInfo)[FindService(old(View()), svc).value].fInTried
      ensures goesOn ==> id == FindService(old(View()), svc).value
      ensures var s := old(View());
              View() == match FindService(s, svc)
                        case None => s.(nLastGood := nTime)
                        case Some(x) => Touch(s.(nLastGood := nTime), x, Succeeded(s.mapInfo[x], nTime))
    {
      nLastGood := nTime;
      goesOn, id := false, 0;
      if svc.addr !in mapAddr || mapAddr[svc.addr] !in mapInfo { return; }
      id := mapAddr[svc.addr];
      if mapInfo[id].service != svc { return; }
      mapInfo := mapInfo[id := mapInfo[id].(nLastSuccess := nTime, nLastTry := nTime, nAttempts := 0)];
      goesOn := !mapInfo[id].fInTried;
    }

    /** Moves a connected entry to the tried table, or notes that its slot there is taken. */
    method Promote_(id: Id, testBeforeEvict: bool)
      requires Linked(h, View(), {}) && Counted(View(), {}, 0)
      requires id in mapInfo && !mapInfo[id].fInTried && Movable(h, View(), id)
      modifies this
      ensures View() == Promote(h, old(View()), id, testBeforeEvict)
    {
      if testBeforeEvict && h.TriedSlot(mapInfo[id].service) in vvTried {
        if |collisions| < SET_TRIED_COLLISION_SIZE {
          collisions := collisions + {id};
        }
      } else {
        MakeTried_(id);
      }
    }

    /** The exit for an entry found in no bucket is never taken. */
    method Good_(svc: Service, testBeforeEvict: bool, nTime: int, nRnd: nat)
      requires Inv(h, View()) && nTime > 0
      modifies this
      ensures View() == Good(h, old(View()), svc, testBeforeEvict, nTime)
      ensures Inv(h, View()) && Evolves(old(View()), View())
    {
      GoodSteps(h, View(), svc, testBeforeEvict, nTime);
      var goesOn, id := Succeed_(svc, nTime);
      if goesOn {
        var nUBucket := FindBucket(id, nRnd);
        Promote_(id, testBeforeEvict);
      }
    }

    method Create_(svc: Service, nTime: int, nServices: Flags, source: NetAddr) returns (id: Id)
      modifies this`nIdCount, this`mapInfo, this`mapAddr, this`vRandom
      ensures id == old(nIdCount) && View() == Create(old(View()), svc, nTime, nServices, source)
    {
      id := nIdCount;
      nIdCount := nIdCount + 1;
      mapInfo := mapInfo[id := Info(svc, nTime, nServices, source, 0, 0, 0, 0, 0, false, -1)];
      mapAddr := mapAddr[svc.addr := id];
      mapInfo := mapInfo[id := mapInfo[id].(nRandomPos := |vRandom|)];
      vRandom := vRandom + [id];
    }

    /** The second half of Add_: the slot for this source, and what is in it. */
    method Place_(id: Id, source: NetAddr, nNow: int, ghost limbo: set<Id>)
      requires Linked(h, View(), limbo) && Placeable(h, View(), id, source) && !mapInfo[id].fInTried
      modifies this
      ensures View() == Place(h, old(View()), id, source, nNow)
    {
      var nUBucket := h.NewBucket(mapInfo[id].service, source);
      var k := h.NewSlot(mapInfo[id].service, nUBucket);
      Occupant(h, View(), limbo, k);
      if k in vvNew && vvNew[k] == id { return; }
      var fInsert := k !in vvNew;
      if !fInsert {
        var existing := mapInfo[vvNew[k]];
        if existing.IsTerrible(nNow) || (existing.nRefCount > 1 && mapInfo[id].nRefCount == 0) {
          fInsert := true;
        }
      }
      if fInsert {
        ClearNew_(k);
        mapInfo := mapInfo[id := mapInfo[id].(nRefCount := mapInfo[id].nRefCount + 1)];
        vvNew := vvNew[k := id];
      } else if mapInfo[id].nRefCount == 0 {
        Delete_(id);
      }
    }

    /** An announcement of a known address: refreshes the entry and maybe gives it another reference. */
    method AddKnown_(id: Id, addrTime: int, nServices: Flags, source: NetAddr, penalty: int, nNow: int, rnd: nat)
      requires Inv(h, View()) && id in mapInfo
      modifies this
      ensures var s, info := old(View()), Announced(old(mapInfo)[id], addrTime, nServices, penalty, nNow);
              var s1 := Touch(s, id, info);
              if GoesOn(info, addrTime, rnd) then Placeable(h, s1, id, source)
                  && View() == Place(h, s1, id, source, nNow) else View() == s1
    {
      AddKnownSteps(h, View(), id, Announced(mapInfo[id], addrTime, nServices, penalty, nNow), source);
      var info := Refresh(mapInfo[id], addrTime, nServices, penalty, nNow);
      mapInfo := mapInfo[id := info];
      var another := WantsAnother(info, addrTime, rnd);
      if another {
        Place_(id, source, nNow, {});
      }
    }

    /** An announcement of an unknown address: creates an entry and places it. */
    method AddUnknown_(svc: Service, addrTime: int, nServices: Flags, source: NetAddr, penalty: int, nNow: int)
      requires Inv(h, View()) && Find(View(), svc.addr) == None
      modifies this
      ensures var s1 := Created(old(View()), svc, addrTime, nServices, source, penalty);
              Placeable(h, s1, old(nIdCount), source) && View() == Place(h, s1, old(nIdCount), source, nNow)
    {
      AddCreatedSteps(h, View(), svc, addrTime, nServices, source, penalty);
      var id := Create_(svc, Max(0, addrTime - penalty), nServices, source);
      nNew := nNew + 1;
      Place_(id, source, nNow, {id});
    }

    method Add_(svc: Service, addrTime: int, nServices: Flags, source: NetAddr, nTimePenalty: int, nNow: int,
                rnd: nat) returns (fNew: bool)
      requires Inv(h, View())
      modifies this
      ensures (View(), fNew) == Add(h, old(View()), svc, addrTime, nServices, source, nTimePenalty, nNow, rnd)
      ensures Inv(h, View()) && Evolves(old(View()), View())
    {
      AddKeeps(h, View(), svc, addrTime, nServices, source, nTimePenalty, nNow, rnd);
      fNew := false;
      if !h.IsRoutable(svc.addr) { return; }
      var penalty := if svc.addr == source then 0 else nTimePenalty;
      if svc.addr in mapAddr && mapAddr[svc.addr] in mapInfo {
        AddKnown_(mapAddr[svc.addr], addrTime, nServices, source, penalty, nNow, rnd);
      } else {
        AddUnknown_(svc, addrTime, nServices, source, penalty, nNow);
        fNew := true;
      }
    }

    method Attempt_(svc: Service, fCountFailure: bool, nTime: int)
      requires Inv(h, View()) && nTime >= 0
      modifies this`mapInfo
      ensures View() == Annotate(old(View()), svc, Attempted(fCountFailure, nTime))
      ensures Inv(h, View()) && Evolves(old(View()), View())
    {
      AnnotateKeeps(h, View(), svc, Attempted(fCountFailure, nTime));
      if svc.addr !in mapAddr || mapAddr[svc.addr] !in mapInfo { return; }
      var id := mapAddr[svc.addr];
      var info := mapInfo[id];
      if info.service != svc { return; }
      info := info.(nLastTry := nTime);
      if fCountFailure && info.nLastCountAttempt < nLastGood {
        info := info.(nLastCountAttempt := nTime, nAttempts := info.nAttempts + 1);
      }
      mapInfo := mapInfo[id := info];
    }

    method Connected_(svc: Service, nTime: int)
      requires Inv(h, View())
      modifies this`mapInfo
      ensures View() == Annotate(old(View()), svc, Connected(nTime))
      ensures Inv(h, View()) && Evolves(old(View()), View())
    {
      AnnotateKeeps(h, View(), svc, Connected(nTime));
      if svc.addr !in mapAddr || mapAddr[svc.addr] !in mapInfo { return; }
      var id := mapAddr[svc.addr];
      var info := mapInfo[id];
      if info.service != svc { return; }
      if nTime - info.nTime > 20 * 60 {
        info := info.(nTime := nTime);
      }
      mapInfo := mapInfo[id := info];
    }

    method SetServices_(svc: Service, nServices: Flags)
      requires Inv(h, View())
      modifies this`mapInfo
      ensures View() == Annotate(old(View()), svc, Services(nServices))
      ensures Inv(h, View()) && Evolves(old(View()), View())
    {
      AnnotateKeeps(h, View(), svc, Services(nServices));
      if svc.addr !in mapAddr || mapAddr[svc.addr] !in mapInfo { return; }
      var id := mapAddr[svc.addr];
      if mapInfo[id].service != svc { return; }
      mapInfo := mapInfo[id := mapInfo[id].(nServices := nServices)];
    }

    /** Draws addresses without replacement until there are enough or the list is used up. */
    method GetAddr_(picks: seq<nat>, nNow: int) returns (vAddr: seq<Address>, ghost stop: nat)
      requires Inv(h, View()) && |picks| == |vRandom|
      modifies this`mapInfo, this`vRandom
      ensures Inv(h, View()) && Evolves(old(View()), View()) && SameButOrder(old(View()), View())
      ensures Listed(View(), stop) && vAddr == Gathered(View(), stop, nNow)
      ensures vRandom == Drawn(old(vRandom), picks, stop)
      ensures |vAddr| <= GETADDR_MAX && 100 * |vAddr| <= GETADDR_MAX_PCT * |vRandom|
      ensures |vAddr| < GETADDR_MAX && 100 * (|vAddr| + 1) <= GETADDR_MAX_PCT * |vRandom| ==> stop == |vRandom|
    {
      var nNodes := GETADDR_MAX_PCT * |vRandom| / 100;
      if nNodes > GETADDR_MAX { nNodes := GETADDR_MAX; }
      vAddr, stop := Gather_(nNodes, picks, nNow);
    }

    method Gather_(nNodes: nat, picks: seq<nat>, nNow: int) returns (vAddr: seq<Address>, ghost n: nat)
      requires Inv(h, View()) && |picks| == |vRandom|
      modifies this`mapInfo, this`vRandom
      ensures |vRandom| == old(|vRandom|) && n <= |vRandom| && Gathering(h, old(View()), View(), picks, n, nNow, vAddr)
      ensures |vAddr| <= nNodes && (|vAddr| < nNodes ==> n == |vRandom|)
    {
      vAddr := [];
      var i := 0;
      ghost var s := View();
      GatheringNone(h, s, picks, nNow);
      while i < |vRandom| && |vAddr| < nNodes
        invariant i <= |vRandom| == |s.vRandom| && |vAddr| <= nNodes
        invariant Gathering(h, s, View(), picks, i, nNow, vAddr)
        decreases |s.vRandom| - i
      {
        var found := Draw_(i, picks, nNow, s, vAddr);
        vAddr := vAddr + found;
        i := i + 1;
      }
      n := i;
    }

    /** One draw of the list of addresses. */
    method Draw_(n: nat, picks: seq<nat>, nNow: int, ghost s: State, ghost vAddr: seq<Address>)
      returns (found: seq<Address>)
      requires Gathering(h, s, View(), picks, n, nNow, vAddr) && n < |vRandom|
      modifies this`mapInfo, this`vRandom
      ensures |found| <= 1 && |vRandom| == old(|vRandom|) && Gathering(h, s, View(), picks, n + 1, nNow, vAddr + found)
    {
      var nRndPos := Chosen(|vRandom|, picks[n], n);
      GatheringNext(h, s, View(), picks, n, nRndPos, nNow, vAddr);
      SwapRandom_(n, nRndPos);
      var ai := mapInfo[vRandom[n]];
      found := if ai.IsTerrible(nNow) then [] else [Address(ai.service, ai.nTime, ai.nServices)];
    }

    /** Settles one waiting id; reports whether it is no longer to wait. */
    method Settle_(id: Id, nNow: int, nRnd: nat) returns (erase: bool)
      requires Inv(h, View()) && nNow > 0
      modifies this
      ensures erase == !Judge(h, old(View()), id, nNow).Keep?
      ensures View() == if Judge(h, old(View()), id, nNow).Move? && id in old(mapInfo)
                        then Good(h, old(View()), old(mapInfo)[id].service, false, nNow) else old(View())
      ensures Inv(h, View())
    {
      if id !in mapInfo { return true; }
      var info := mapInfo[id];
      var k := h.TriedSlot(info.service);
      if !h.IsValid(info.service.addr) { return true; }
      assert TriedAt(h, View(), k);
      if k in vvTried {
        var old' := mapInfo[vvTried[k]];
        if nNow - old'.nLastSuccess < REPLACEMENT_HOURS * 60 * 60 { return true; }
        if nNow - old'.nLastTry < REPLACEMENT_HOURS * 60 * 60 {
          if nNow - old'.nLastTry <= 60 { return false; }
        } else if nNow - info.nLastSuccess <= TEST_WINDOW { return false; }
      }
      Good_(info.service, false, nNow, nRnd);
      erase := true;
    }

    method ResolveOne_(id: Id, nNow: int, nRnd: nat)
      requires Inv(h, View()) && nNow > 0
      modifies this
      ensures View() == ResolveOne(h, old(View()), id, nNow)
    {
      var erase := Settle_(id, nNow, nRnd);
      if erase {
        collisions := collisions - {id};
      }
    }

    method ResolveLeast_(todo: set<Id>, nNow: int, nRnd: nat, ghost s: State, ghost order: seq<Id>) returns (id: Id)
      requires Resolving(h, s, View(), order, todo, nNow) && todo != {}
      modifies this
      ensures id in todo && Resolving(h, s, View(), order + [id], todo - {id}, nNow)
    {
      id := Least(todo);
      ResolvingNext(h, s, View(), order, todo, nNow, id);
      ResolveOne_(id, nNow, nRnd);
    }

    /** Settles every waiting id, the smallest first. */
    method ResolveCollisions_(nNow: int, nRnd: nat) returns (ghost order: seq<Id>)
      requires Inv(h, View()) && nNow > 0
      modifies this
      ensures Resolving(h, old(View()), View(), order, {}, nNow)
    {
      ghost var s := View();
      order := [];
      EvolvesRefl(s);
      var todo := collisions;
      while todo != {}
        invariant Resolving(h, s, View(), order, todo, nNow)
        decreases todo
      {
        var id := ResolveLeast_(todo, nNow, nRnd, s, order);
        order := order + [id];
        todo := todo - {id};
      }
    }

    /** A waiting id's rival; `pick` is the drawn element of the set. */
    method SelectTriedCollision_(pick: Id) returns (rival: Option<Info>)
      requires Inv(h, View()) && (collisions != {} ==> pick in collisions)
      modifies this`collisions
      ensures Inv(h, View()) && Evolves(old(View()), View())
      ensures View() == old(View()).(collisions := collisions)
      ensures collisions == if pick in mapInfo then old(collisions) else old(collisions) - {pick}
      ensures rival.Some? <==> old(collisions) != {} && pick in mapInfo
      ensures rival.Some? ==> var k := h.TriedSlot(mapInfo[pick].service);
                              && k in vvTried && vvTried[k] in mapInfo && rival.value == mapInfo[vvTried[k]]
                                  && rival.value.fInTried
    {
      EvolvesRefl(View());
      if collisions == {} { return None; }
      if pick !in mapInfo {
        ForgetCollision(h, View(), pick);
        collisions := collisions - {pick};
        return None;
      }
      CollisionFacesEntry(h, View(), pick);
      return Some(mapInfo[vvTried[h.TriedSlot(mapInfo[pick].service)]]);
    }
  }
}
