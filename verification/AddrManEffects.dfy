/**
 What the operations of the address manager do, said of the states before and after them. The
 two tables decide which entries there are and how often they are referenced, so an effect is
 told by the tables and by what is recorded about the entries.
 */
module AddrManEffects {
  import opened AddrMan
  import opened Numbers
  import opened Wrappers

  /** What is recorded about an entry, apart from its places. */
  function Record(info: Info): Info { info.(nRefCount := 0, fInTried := false, nRandomPos := 0) }

  /** Whatever is there afterwards was there before with the same record, except for one entry. */
  ghost predicate OthersKept(s: State, s': State, id: Id) {
    forall x :: OtherKeptAt(s, s', id, x)
  }

  predicate OtherKeptAt(s: State, s': State, id: Id, x: Id) {
    x in s'.mapInfo && x != id ==> x in s.mapInfo && Record(s'.mapInfo[x]) == Record(s.mapInfo[x])
  }

  /** There are exactly the entries that the tables refer to, in the table they say. */
  lemma TablesDecide(h: Hasher, s: State, x: Id)
    requires Inv(h, s)
    ensures x in s.mapInfo <==> x in s.vvTried.Values || x in s.vvNew.Values
    ensures x in s.mapInfo ==>
              && (s.mapInfo[x].fInTried <==> x in s.vvTried.Values)
              && s.mapInfo[x].nRefCount == |SlotsOf(s.vvNew, x)|
  {
    assert InfoAt(h, s, {}, x);
    if x in s.vvTried.Values {
      var k :| k in s.vvTried && s.vvTried[k] == x;
      assert TriedAt(h, s, k);
    }
    if x in s.vvNew.Values {
      var k :| k in s.vvNew && s.vvNew[k] == x;
      assert NewAt(h, s, k);
    }
    if x in s.mapInfo {
      TablesHold(h, s, x);
      if s.mapInfo[x].fInTried { assert h.TriedSlot(s.mapInfo[x].service) in s.vvTried; }
    }
  }

  lemma TablesHold(h: Hasher, s: State, x: Id)
    requires Linked(h, s, {}) && x in s.mapInfo
    ensures x in s.vvTried.Values || x in s.vvNew.Values
  {
    assert InfoAt(h, s, {}, x);
    if s.mapInfo[x].fInTried {
      assert h.TriedSlot(s.mapInfo[x].service) in s.vvTried;
    } else {
      var k := ASlot(s.vvNew, x);
    }
  }

  lemma ASlot(table: map<Slot, Id>, x: Id) returns (k: Slot)
    requires |SlotsOf(table, x)| > 0
    ensures k in table && table[k] == x && x in table.Values
  {
    k :| k in SlotsOf(table, x);
  }

  // ---------- moving to the tried table ----------

  /** The new slot of a service announced by a source. */
  function HomeFor(h: Hasher, svc: Service, source: NetAddr): Slot {
    var b := h.fresh'(svc, source) % 1024;
    Slot(b, h.position(svc, true, b) % 64)
  }

  /** The new table without an id. */
  function Without(table: map<Slot, Id>, id: Id): map<Slot, Id> {
    map k | k in table && table[k] != id :: table[k]
  }

  lemma EvictTables(h: Hasher, s: State, limbo: set<Id>, k: Slot)
    requires Linked(h, s, limbo) && Counted(s, limbo, 0) && k in s.vvTried
    ensures Evictable(h, s, k)
    ensures var r, s' := s.vvTried[k], Evict(h, s, k);
            && s'.vvNew == s.vvNew[HomeFor(h, s.mapInfo[r].service, s.mapInfo[r].source) := r]
            && r in s'.mapInfo && Record(s'.mapInfo[r]) == Record(s.mapInfo[r])
            && forall x :: OtherKeptAt(s, s', r, x)
  {
    EvictClears(h, s, limbo, 0, k);
    var r := s.vvTried[k];
    var k', s1 := NewHome(h, s.mapInfo[r]), TakeTried(s, k);
    TakeTriedKeeps(h, s, limbo, 0, k);
    ClearNewLost(h, s1, limbo + {r}, k');
    var s2, s' := ClearNew(s1, k'), Evict(h, s, k);
    assert (s.vvNew - {k'})[k' := r] == s.vvNew[k' := r];
    assert LostAt(s1, s2, limbo + {r}, r);
    forall x ensures OtherKeptAt(s, s', r, x) { assert LostAt(s1, s2, limbo + {r}, x); }
  }

  ghost predicate MovedToTried(h: Hasher, s: State, s': State, id: Id)
    requires id in s.mapInfo
  {
    var k := h.TriedSlot(s.mapInfo[id].service);
    && s'.vvTried == s.vvTried[k := id]
    && (k !in s.vvTried ==> s'.vvNew == Without(s.vvNew, id))
    && (k in s.vvTried && s.vvTried[k] in s.mapInfo ==>
          var rival := s.mapInfo[s.vvTried[k]];
          s'.vvNew == Without(s.vvNew, id)[HomeFor(h, rival.service, rival.source) := s.vvTried[k]])
  }

  lemma MakeTriedTables(h: Hasher, s: State, id: Id)
    requires Linked(h, s, {}) && Counted(s, {}, 0) && id in s.mapInfo && !s.mapInfo[id].fInTried
    ensures Movable(h, s, id)
    ensures var s' := MakeTried(h, s, id);
            && MovedToTried(h, s, s', id) && OthersKept(s, s', id)
            && id in s'.mapInfo && Record(s'.mapInfo[id]) == Record(s.mapInfo[id])
  {
    MakeTriedEffect(h, s, id);
    UnlistKeeps(h, s, {}, 0, id);
    assert {} + {id} == {id};
    var s1, k, s' := Unlist(s, id), h.TriedSlot(s.mapInfo[id].service), MakeTried(h, s, id);
    if k in s1.vvTried {
      assert TriedAt(h, s, k);
      EvictTables(h, s1, {id}, k);
      var s2 := Evict(h, s1, k);
      assert OtherKeptAt(s1, s2, s.vvTried[k], id);
      forall x ensures OtherKeptAt(s, s', id, x) { assert OtherKeptAt(s1, s2, s.vvTried[k], x); }
    } else {
      forall x ensures OtherKeptAt(s, s', id, x) { }
    }
  }

  // ---------- a working connection ----------

  lemma FoundByService(h: Hasher, s: State, id: Id)
    requires Inv(h, s) && id in s.mapInfo
    ensures FindService(s, s.mapInfo[id].service) == Some(id) && Find(s, s.mapInfo[id].service.addr) == Some(id)
  {
    assert InfoAt(h, s, {}, id);
  }

  /** Nothing but the time of the last success is noted for a service that is not known. */
  lemma GoodUnknown(h: Hasher, s: State, svc: Service, test: bool, nTime: int)
    requires Inv(h, s) && nTime > 0 && forall x | x in s.mapInfo :: s.mapInfo[x].service != svc
    ensures Good(h, s, svc, test, nTime) == s.(nLastGood := nTime)
  {
  }

  /** An entry is marked as just tried with success, and nothing is recorded about any other. */
  ghost predicate MarkedGood(s: State, s': State, id: Id, nTime: int)
    requires id in s.mapInfo
  {
    && OthersKept(s, s', id) && s'.nLastGood == nTime && s'.nIdCount == s.nIdCount && id in s'.mapInfo
    && Record(s'.mapInfo[id]) == Record(s.mapInfo[id]).(nLastSuccess := nTime, nLastTry := nTime, nAttempts := 0)
  }

  ghost predicate SameTables(s: State, s': State) { s'.vvTried == s.vvTried && s'.vvNew == s.vvNew }

  /** An entry of the tried table stays where it is. */
  lemma GoodStays(h: Hasher, s: State, id: Id, test: bool, nTime: int)
    requires Inv(h, s) && nTime > 0 && id in s.mapInfo && s.mapInfo[id].fInTried
    ensures var s' := Good(h, s, s.mapInfo[id].service, test, nTime);
            MarkedGood(s, s', id, nTime) && SameTables(s, s') && s'.collisions == s.collisions
  {
    FoundByService(h, s, id);
    var s' := Good(h, s, s.mapInfo[id].service, test, nTime);
    forall x ensures OtherKeptAt(s, s', id, x) { }
  }

  /** If its slot is taken and to be tested first, an entry waits, if there are fewer than ten waiting. */
  lemma GoodWaits(h: Hasher, s: State, id: Id, nTime: int)
    requires Inv(h, s) && nTime > 0 && id in s.mapInfo && !s.mapInfo[id].fInTried
    requires h.TriedSlot(s.mapInfo[id].service) in s.vvTried
    ensures var s' := Good(h, s, s.mapInfo[id].service, true, nTime);
            && MarkedGood(s, s', id, nTime) && SameTables(s, s')
            && s'.collisions == if |s.collisions| < 10 then s.collisions + {id} else s.collisions
  {
    FoundByService(h, s, id);
    var s' := Good(h, s, s.mapInfo[id].service, true, nTime);
    forall x ensures OtherKeptAt(s, s', id, x) { }
  }

  /** Otherwise it moves to its tried slot, and the entry there goes back to the new table. */
  lemma GoodMoves(h: Hasher, s: State, id: Id, test: bool, nTime: int)
    requires Inv(h, s) && nTime > 0 && id in s.mapInfo && !s.mapInfo[id].fInTried
    requires test ==> h.TriedSlot(s.mapInfo[id].service) !in s.vvTried
    ensures var s' := Good(h, s, s.mapInfo[id].service, test, nTime);
            MarkedGood(s, s', id, nTime) && MovedToTried(h, s, s', id) && s'.collisions == s.collisions
  {
    FoundByService(h, s, id);
    GoodReady(h, s, id, nTime);
    var s1 := Touch(s.(nLastGood := nTime), id, Succeeded(s.mapInfo[id], nTime));
    var s' := Good(h, s, s.mapInfo[id].service, test, nTime);
    assert s' == MakeTried(h, s1, id);
    MakeTriedIds(h, s1, id);
    MakeTriedTables(h, s1, id);
    MovedFrom(h, s, s1, s', id);
  }

  lemma MakeTriedIds(h: Hasher, s: State, id: Id)
    requires Linked(h, s, {}) && Counted(s, {}, 0) && id in s.mapInfo && !s.mapInfo[id].fInTried
    ensures Movable(h, s, id)
    ensures var s' := MakeTried(h, s, id);
            s'.nIdCount == s.nIdCount && s'.collisions == s.collisions && s'.nLastGood == s.nLastGood
  {
    MakeRoomEffect(h, s, id);
  }

  lemma MovedFrom(h: Hasher, s: State, s1: State, s': State, id: Id)
    requires Linked(h, s, {}) && id in s.mapInfo && !s.mapInfo[id].fInTried
    requires s1 == s.(nLastGood := s1.nLastGood, mapInfo := s1.mapInfo) && id in s1.mapInfo
    requires s1.mapInfo == s.mapInfo[id := s1.mapInfo[id]] && s1.mapInfo[id].service == s.mapInfo[id].service
    requires MovedToTried(h, s1, s', id) && OthersKept(s1, s', id)
    ensures MovedToTried(h, s, s', id) && OthersKept(s, s', id)
  {
    assert TriedAt(h, s, h.TriedSlot(s.mapInfo[id].service));
    forall x ensures OtherKeptAt(s, s', id, x) { assert OtherKeptAt(s1, s', id, x); }
  }

  // ---------- waiting collisions ----------

  /** The entry in the tried slot for which an id waits. */
  predicate Faces(h: Hasher, s: State, id: Id, rival: Info) {
    && id in s.mapInfo && h.valid(s.mapInfo[id].service.addr)
    && var k := h.TriedSlot(s.mapInfo[id].service);
       k in s.vvTried && s.vvTried[k] in s.mapInfo && rival == s.mapInfo[s.vvTried[k]]
  }

  /** A success in the last four hours. */
  predicate Proven(rival: Info, nNow: int) { nNow - rival.nLastSuccess < 4 * 60 * 60 }

  /** Tried at most 60 seconds ago; or not for four hours, but the newcomer has succeeded within 40 minutes. */
  predicate Undecided(rival: Info, info: Info, nNow: int) {
    nNow - rival.nLastTry <= 60 || (nNow - rival.nLastTry >= 4 * 60 * 60 && nNow - info.nLastSuccess <= 40 * 60)
  }

  /** A live waiting id with a valid address always faces some entry. */
  lemma LiveFaces(h: Hasher, s: State, id: Id) returns (rival: Info)
    requires Inv(h, s) && id in s.collisions && id in s.mapInfo && h.valid(s.mapInfo[id].service.addr)
    ensures Faces(h, s, id, rival) && rival.fInTried
  {
    CollisionFacesEntry(h, s, id);
    rival := s.mapInfo[s.vvTried[h.TriedSlot(s.mapInfo[id].service)]];
  }

  /** An id that is gone or not valid, or faces an entry that has proven itself, is forgotten, and that entry stays. */
  lemma ResolveForgets(h: Hasher, s: State, id: Id, nNow: int, rival: Info)
    requires Inv(h, s) && nNow > 0
    requires id in s.mapInfo && h.valid(s.mapInfo[id].service.addr) ==> Faces(h, s, id, rival) && Proven(rival, nNow)
    ensures ResolveOne(h, s, id, nNow) == s.(collisions := s.collisions - {id})
  {
  }

  /** While it is undecided the id goes on waiting, and nothing changes. */
  lemma ResolveWaits(h: Hasher, s: State, id: Id, nNow: int, rival: Info)
    requires Inv(h, s) && nNow > 0 && Faces(h, s, id, rival)
    requires !Proven(rival, nNow) && Undecided(rival, s.mapInfo[id], nNow)
    ensures ResolveOne(h, s, id, nNow) == s
  {
  }

  /** In every other case the slot changes hands, and the id no longer waits. */
  lemma ResolveReplaces(h: Hasher, s: State, id: Id, nNow: int, rival: Info)
    requires Inv(h, s) && nNow > 0 && Faces(h, s, id, rival) && !s.mapInfo[id].fInTried
    requires !Proven(rival, nNow) && !Undecided(rival, s.mapInfo[id], nNow)
    ensures var s' := ResolveOne(h, s, id, nNow);
            MarkedGood(s, s', id, nNow) && MovedToTried(h, s, s', id) && s'.collisions == s.collisions - {id}
  {
    GoodMoves(h, s, id, false, nNow);
    MovedAndForgotten(h, s, Good(h, s, s.mapInfo[id].service, false, nNow), id, nNow);
  }

  lemma MovedAndForgotten(h: Hasher, s: State, s1: State, id: Id, nTime: int)
    requires id in s.mapInfo && MarkedGood(s, s1, id, nTime) && MovedToTried(h, s, s1, id)
    ensures var s' := s1.(collisions := s1.collisions - {id});
            MarkedGood(s, s', id, nTime) && MovedToTried(h, s, s', id)
  {
    var s' := s1.(collisions := s1.collisions - {id});
    forall x ensures OtherKeptAt(s, s', id, x) { assert OtherKeptAt(s, s1, id, x); }
  }

  /** An id that has meanwhile been tried keeps its slot, and no longer waits. */
  lemma ResolveConfirms(h: Hasher, s: State, id: Id, nNow: int, rival: Info)
    requires Inv(h, s) && nNow > 0 && Faces(h, s, id, rival) && s.mapInfo[id].fInTried
    requires !Proven(rival, nNow) && !Undecided(rival, s.mapInfo[id], nNow)
    ensures var s' := ResolveOne(h, s, id, nNow);
            SameTables(s, s') && s'.collisions == s.collisions - {id}
  {
    GoodStays(h, s, id, false, nNow);
  }

  // ---------- announcements ----------

  /** Seen within 30 days, and not in the future by more than ten minutes. */
  predicate Seen(info: Info, nNow: int) {
    info.nTime != 0 && info.nTime <= nNow + 10 * 60 && nNow - info.nTime <= 30 * 24 * 60 * 60
  }

  /** Few attempts since the last success: fewer than 3 if there was none, fewer than 10 if it is a week ago. */
  predicate Reliable(info: Info, nNow: int) {
    && (info.nAttempts < 3 || info.nLastSuccess != 0)
    && (info.nAttempts < 10 || nNow - info.nLastSuccess <= 7 * 24 * 60 * 60)
  }

  /** Which entries are not worth keeping or passing on. */
  lemma TerribleMeans(info: Info, nNow: int)
    ensures info.nLastTry != 0 && nNow - info.nLastTry <= 60 ==> !info.IsTerrible(nNow)
    ensures info.nLastTry == 0 || nNow - info.nLastTry > 60 ==>
              && (info.nTime == 0 || info.nTime > nNow + 10 * 60 ==> info.IsTerrible(nNow))
              && (nNow - info.nTime > 30 * 24 * 60 * 60 ==> info.IsTerrible(nNow))
              && (info.nLastSuccess == 0 && info.nAttempts >= 3 ==> info.IsTerrible(nNow))
              && (nNow - info.nLastSuccess > 7 * 24 * 60 * 60 && info.nAttempts >= 10 ==> info.IsTerrible(nNow))
    ensures Seen(info, nNow) && Reliable(info, nNow) ==> !info.IsTerrible(nNow)
  {
  }

  /** The slot can be had: it is free, its entry is terrible, or that one has other references and the new one none. */
  predicate CanHave(s: State, k: Slot, refs: int, nNow: int) {
    k in s.vvNew && s.vvNew[k] in s.mapInfo ==>
      var there := s.mapInfo[s.vvNew[k]];
      there.IsTerrible(nNow) || (there.nRefCount > 1 && refs == 0)
  }

  /** An entry takes the slot for a source, unless it has it or cannot have it. */
  lemma PlaceTables(h: Hasher, s: State, limbo: set<Id>, id: Id, source: NetAddr, nNow: int)
    requires Linked(h, s, limbo) && Placeable(h, s, id, source) && id in s.mapInfo && !s.mapInfo[id].fInTried
    ensures var s', k := Place(h, s, id, source, nNow), HomeFor(h, s.mapInfo[id].service, source);
            && OthersKept(s, s', id) && s'.vvTried == s.vvTried && s'.collisions == s.collisions
            && s'.nLastGood == s.nLastGood && s'.nIdCount == s.nIdCount
            && (id in s'.mapInfo ==> Record(s'.mapInfo[id]) == Record(s.mapInfo[id]))
            && (if CanHave(s, k, s.mapInfo[id].nRefCount, nNow) then s'.vvNew == s.vvNew[k := id]
                else s'.vvNew == s.vvNew)
  {
    var s', k := Place(h, s, id, source, nNow), HomeFor(h, s.mapInfo[id].service, source);
    assert NewAt(h, s, k);
    ClearNewLost(h, s, limbo, k);
    if k in s.vvNew && s.vvNew[k] == id {
      assert s.vvNew[k := id] == s.vvNew;
      forall x ensures OtherKeptAt(s, s', id, x) { }
    } else if CanHave(s, k, s.mapInfo[id].nRefCount, nNow) {
      var s1 := ClearNew(s, k);
      assert (s.vvNew - {k})[k := id] == s.vvNew[k := id];
      ClearNewOther(s, k, id);
      forall x ensures OtherKeptAt(s, s', id, x) { assert LostAt(s, s1, limbo, x); }
    } else {
      if s.mapInfo[id].nRefCount == 0 { DeleteLost(s, id, {}); }
      forall x ensures OtherKeptAt(s, s', id, x) { assert s.mapInfo[id].nRefCount == 0 ==> LostAt(s, s', {}, x); }
    }
  }

  predicate Known(s: State, a: NetAddr) { exists x | x in s.mapInfo :: s.mapInfo[x].service.addr == a }

  /** Nothing but the new table and its entries changes with an announcement. */
  ghost predicate OnlyAnnounced(s: State, s': State, id: Id) {
    OthersKept(s, s', id) && s'.vvTried == s.vvTried && s'.collisions == s.collisions && s'.nLastGood == s.nLastGood
  }

  /** An address that cannot be routed to is ignored. */
  lemma AddUnroutable(h: Hasher, s: State, svc: Service, addrTime: int, nServices: Flags, source: NetAddr,
                      nTimePenalty: int, nNow: int, rnd: nat)
    requires Inv(h, s) && !h.routable(svc.addr)
    ensures Add(h, s, svc, addrTime, nServices, source, nTimePenalty, nNow, rnd) == (s, false)
  {
  }

  /**
   An unknown address becomes an entry with the announced time less the penalty, which the
   address itself does not pay, if it can have the slot for its source; otherwise there is no
   entry for it.
   */
  lemma AddUnknown(h: Hasher, s: State, svc: Service, addrTime: int, nServices: Flags, source: NetAddr,
                   nTimePenalty: int, nNow: int, rnd: nat)
    requires Inv(h, s) && h.routable(svc.addr) && !Known(s, svc.addr)
    ensures var (s', added) := Add(h, s, svc, addrTime, nServices, source, nTimePenalty, nNow, rnd);
            var id, k, penalty := s.nIdCount, HomeFor(h, svc, source), if svc.addr == source then 0 else nTimePenalty;
            && added && OnlyAnnounced(s, s', id) && s'.nIdCount == id + 1
            && (if CanHave(s, k, 0, nNow) then
                  && s'.vvNew == s.vvNew[k := id] && id in s'.mapInfo
                  && Record(s'.mapInfo[id]) == Info(svc, Max(0, addrTime - penalty), nServices, source, 0, 0, 0, 0, 0,
                      false, 0)
                else s'.vvNew == s.vvNew && id !in s'.mapInfo)
  {
    var id, k, penalty := s.nIdCount, HomeFor(h, svc, source), if svc.addr == source then 0 else nTimePenalty;
    if Find(s, svc.addr).Some? { FoundIsKnown(h, s, svc.addr); }
    CreatedReady(h, s, svc, addrTime, nServices, source, penalty);
    var s1 := Created(s, svc, addrTime, nServices, source, penalty);
    AddCreatedSteps(h, s, svc, addrTime, nServices, source, penalty);
    var s' := Place(h, s1, id, source, nNow);
    PlaceTables(h, s1, {id}, id, source, nNow);
    PlaceCreatedKeeps(h, s1, id, source, nNow);
    NotGivenOut(h, s);
    FreshEntry(h, s, s1, s', id, k);
  }

  lemma FreshEntry(h: Hasher, s: State, s1: State, s': State, id: Id, k: Slot)
    requires id !in s.mapInfo && id !in s.vvNew.Values && id !in s.vvTried.Values && id in s1.mapInfo
    requires s1.mapInfo == s.mapInfo[id := s1.mapInfo[id]] && OthersKept(s1, s', id)
    requires Linked(h, s', {}) && s'.vvTried == s.vvTried && (s'.vvNew == s.vvNew[k := id] || s'.vvNew == s.vvNew)
    ensures OthersKept(s, s', id)
    ensures id in s'.mapInfo <==> k in s'.vvNew && s'.vvNew[k] == id
  {
    forall x ensures OtherKeptAt(s, s', id, x) { assert OtherKeptAt(s1, s', id, x); }
    if id in s'.mapInfo { TablesHold(h, s', id); }
    assert NewAt(h, s', k);
  }

  lemma FoundIsKnown(h: Hasher, s: State, a: NetAddr)
    requires Inv(h, s) && Find(s, a).Some?
    ensures Known(s, a)
  {
    assert AddrAt(s, a);
    var x := s.mapAddr[a];
    assert x in s.mapInfo && s.mapInfo[x].service.addr == a;
  }

  /** No table refers to an id that has not been given out. */
  lemma NotGivenOut(h: Hasher, s: State)
    requires Inv(h, s)
    ensures var id := s.nIdCount; id !in s.mapInfo && id !in s.vvNew.Values && id !in s.vvTried.Values
  {
    assert InfoAt(h, s, {}, s.nIdCount);
    TablesDecide(h, s, s.nIdCount);
  }

  /** When a known entry gets another reference, apart from the slot: `rnd` is the random draw. */
  predicate WantsReference(info: Info, addrTime: int, rnd: nat) {
    && addrTime != 0 && (info.nTime == 0 || addrTime > info.nTime) && !info.fInTried
    && 0 <= info.nRefCount < 8 && rnd % Pow2(info.nRefCount) == 0
  }

  /**
   A known address is refreshed. It gets another reference, in the slot for this source, if the
   announcement is still news, it has fewer than eight, the draw is a multiple of two to their
   number, and the slot is free or held by a terrible entry.
   */
  lemma AddKnown(h: Hasher, s: State, id: Id, svc: Service, addrTime: int, nServices: Flags, source: NetAddr,
                 nTimePenalty: int, nNow: int, rnd: nat)
    requires Inv(h, s) && h.routable(svc.addr) && id in s.mapInfo && s.mapInfo[id].service.addr == svc.addr
    ensures var (s', added) := Add(h, s, svc, addrTime, nServices, source, nTimePenalty, nNow, rnd);
            var penalty := if svc.addr == source then 0 else nTimePenalty;
            var k, info := HomeFor(h, s.mapInfo[id].service, source),
                           Announced(s.mapInfo[id], addrTime, nServices, penalty, nNow);
            && !added && OnlyAnnounced(s, s', id) && s'.nIdCount == s.nIdCount
            && id in s'.mapInfo && Record(s'.mapInfo[id]) == Record(info)
            && (if WantsReference(info, addrTime, rnd) && CanHave(Touch(s, id, info), k, info.nRefCount, nNow)
                then s'.vvNew == s.vvNew[k := id] else s'.vvNew == s.vvNew)
  {
    FoundByService(h, s, id);
    assert InfoAt(h, s, {}, id);
    var penalty := if svc.addr == source then 0 else nTimePenalty;
    var info := Announced(s.mapInfo[id], addrTime, nServices, penalty, nNow);
    var s1 := Touch(s, id, info);
    AddKnownSteps(h, s, id, info, source);
    AddKeeps(h, s, svc, addrTime, nServices, source, nTimePenalty, nNow, rnd);
    var s' := Add(h, s, svc, addrTime, nServices, source, nTimePenalty, nNow, rnd).0;
    if GoesOn(info, addrTime, rnd) {
      PlaceTables(h, s1, {}, id, source, nNow);
      RefreshedEntry(h, s, s1, s', id, HomeFor(h, s.mapInfo[id].service, source));
    } else {
      forall x ensures OtherKeptAt(s, s', id, x) { }
    }
  }

  lemma RefreshedEntry(h: Hasher, s: State, s1: State, s': State, id: Id, k: Slot)
    requires id in s.mapInfo && id in s1.mapInfo && !s1.mapInfo[id].fInTried && s1.vvNew == s.vvNew
    requires s1.mapInfo == s.mapInfo[id := s1.mapInfo[id]] && OthersKept(s1, s', id) && Linked(h, s1, {})
    requires Inv(h, s') && (s'.vvNew == s1.vvNew || s'.vvNew == s1.vvNew[k := id])
    ensures OthersKept(s, s', id) && id in s'.mapInfo
  {
    forall x ensures OtherKeptAt(s, s', id, x) { assert OtherKeptAt(s1, s', id, x); }
    assert InfoAt(h, s1, {}, id);
    var j := ASlot(s1.vvNew, id);
    assert j in s'.vvNew && s'.vvNew[j] == id;
    assert NewAt(h, s', j);
  }

  // ---------- notes about a known peer ----------

  lemma NoteUnknown(s: State, svc: Service, note: Note)
    requires forall x | x in s.mapInfo :: s.mapInfo[x].service != svc
    ensures Annotate(s, svc, note) == s
  {
  }

  /** Only what is recorded about one entry changes. */
  predicate OnlyRecord(s: State, s': State, id: Id) {
    id in s'.mapInfo && s' == s.(mapInfo := s.mapInfo[id := s'.mapInfo[id]])
  }

  /** An attempt sets the time of the last try; it is counted at most once since the last success of anyone. */
  lemma AttemptMeans(h: Hasher, s: State, id: Id, count: bool, nTime: int)
    requires Inv(h, s) && id in s.mapInfo
    ensures var s', info := Annotate(s, s.mapInfo[id].service, Attempted(count, nTime)), s.mapInfo[id];
            && OnlyRecord(s, s', id) && s'.mapInfo[id].nLastTry == nTime
            && s'.mapInfo[id] == info.(nLastTry := nTime, nLastCountAttempt := s'.mapInfo[id].nLastCountAttempt,
                                       nAttempts := s'.mapInfo[id].nAttempts)
            && (count && info.nLastCountAttempt < s.nLastGood ==>
                  s'.mapInfo[id].nAttempts == info.nAttempts + 1 && s'.mapInfo[id].nLastCountAttempt == nTime)
            && (!count || info.nLastCountAttempt >= s.nLastGood ==>
                  && s'.mapInfo[id].nAttempts == info.nAttempts
                  && s'.mapInfo[id].nLastCountAttempt == info.nLastCountAttempt)
  {
    FoundByService(h, s, id);
  }

  /** A connection brings a time up to date that is more than 20 minutes behind, and no other. */
  lemma ConnectedMeans(h: Hasher, s: State, id: Id, nTime: int)
    requires Inv(h, s) && id in s.mapInfo
    ensures var s', info := Annotate(s, s.mapInfo[id].service, Connected(nTime)), s.mapInfo[id];
            && OnlyRecord(s, s', id) && s'.mapInfo[id] == info.(nTime := s'.mapInfo[id].nTime)
            && s'.mapInfo[id].nTime >= nTime - 20 * 60 && s'.mapInfo[id].nTime >= info.nTime
            && (s'.mapInfo[id].nTime != info.nTime ==> s'.mapInfo[id].nTime == nTime > info.nTime + 20 * 60)
  {
    FoundByService(h, s, id);
  }

  lemma ServicesMeans(h: Hasher, s: State, id: Id, nServices: Flags)
    requires Inv(h, s) && id in s.mapInfo
    ensures var s', info := Annotate(s, s.mapInfo[id].service, Services(nServices)), s.mapInfo[id];
            OnlyRecord(s, s', id) && s'.mapInfo[id] == info.(nServices := nServices)
  {
    FoundByService(h, s, id);
  }

  // ---------- drawing addresses ----------

  /** Every element that has not been drawn can be the next one. */
  lemma AnyCanBeNext(v: seq<Id>, picks: seq<nat>, n: nat, i: nat)
    requires n <= i < |v| == |picks|
    ensures Drawn(v, picks[n := i - n], n + 1)[n] == Drawn(v, picks, n)[i]
  {
    var others := picks[n := i - n];
    DrawnEarlier(v, picks, others, n);
    SmallRemainder(i - n, |v| - n);
    DrawnNext(v, others, n, i);
  }

  lemma SmallRemainder(a: nat, b: nat)
    requires a < b
    ensures a % b == a
  {
  }

  lemma DrawnNext(v: seq<Id>, picks: seq<nat>, n: nat, r: nat)
    requires n < |v| == |picks| && r == Chosen(|v|, picks[n], n)
    ensures Drawn(v, picks, n + 1)[n] == Drawn(v, picks, n)[r]
  {
  }

  lemma {:induction false} DrawnEarlier(v: seq<Id>, picks: seq<nat>, others: seq<nat>, n: nat)
    requires n <= |v| == |picks| == |others| && forall j | 0 <= j < n :: picks[j] == others[j]
    ensures Drawn(v, picks, n) == Drawn(v, others, n)
  {
    if n > 0 { DrawnEarlier(v, picks, others, n - 1); }
  }
}
