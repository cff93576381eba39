/**
 The cuckoo cache: a table in which every element has eight possible slots, a flag per
 slot that says its element may be discarded, and an epoch flag that says whether the
 element is from the current epoch. Operations are sequential, as the rules for using the
 cache require of inserts.
 */
module Cuckoo {
  import opened Limbs
  import opened Numbers

  /** Eight 32-bit hashes of an element. */
  datatype Hasher<!E(!new)> = Hasher(hash: (nat, E) -> nat)
  {
    /** A 32-bit hash scaled to a table, without a division. */
    function Loc(i: nat, e: E, size: nat): (r: nat)
      requires size > 0
      ensures r < size
    {
      Scaled(hash(i, e) % BASE, size);
      ((hash(i, e) % BASE) * size) / BASE
    }

    function Locs(e: E, size: nat): (r: seq<nat>)
      requires size > 0
      ensures |r| == 8 && forall i | 0 <= i < 8 :: r[i] < size
    {
      [Loc(0, e, size), Loc(1, e, size), Loc(2, e, size), Loc(3, e, size),
       Loc(4, e, size), Loc(5, e, size), Loc(6, e, size), Loc(7, e, size)]
    }
  }

  lemma Scaled(h: nat, size: nat)
    requires h < BASE && size > 0
    ensures 0 <= (h * size) / BASE < size
  {
    MulLt(h, BASE, size);
    QuotientBounds(h * size, BASE);
  }

  // ---------- kept elements ----------

  /** One index of the three parallel arrays: the element, its epoch flag, its collection flag. */
  datatype Slot<E> = Slot(elem: E, epoch: bool, garbage: bool)
  {
    /** What the slot counts for in an epoch. */
    ghost function Of(f: bool): multiset<E> {
      if !garbage && epoch == f then multiset{elem} else multiset{}
    }
  }

  /** The elements of slots that are not discardable, of one epoch. */
  ghost function Kept<E>(slots: seq<Slot<E>>, f: bool): multiset<E> {
    if slots == [] then multiset{} else Kept(slots[..|slots| - 1], f) + slots[|slots| - 1].Of(f)
  }

  lemma AddSame<E>(a: multiset<E>, b: multiset<E>, c: multiset<E>, d: multiset<E>, l: multiset<E>)
    requires a + b == c + d
    ensures a + l + b == c + l + d
  {
    forall x ensures (a + l + b)[x] == (c + l + d)[x] { assert (a + b)[x] == (c + d)[x]; }
  }

  lemma AddSwapped<E>(a: multiset<E>, b: multiset<E>, c: multiset<E>)
    ensures a + b + c == a + c + b
  {
  }

  lemma KeptSnoc<E>(slots: seq<Slot<E>>, s: Slot<E>, f: bool)
    ensures Kept(slots + [s], f) == Kept(slots, f) + s.Of(f)
  {
    assert (slots + [s])[..|slots|] == slots;
  }

  lemma WriteSplits<E>(slots: seq<Slot<E>>, i: nat, s: Slot<E>, n: nat)
    requires i < n == |slots| - 1
    ensures slots == slots[..n] + [slots[n]] && slots[i := s] == slots[..n][i := s] + [slots[n]]
    ensures slots[..n][i] == slots[i]
  {
  }

  /** Writing a slot exchanges what it counted for against what it counts for. */
  lemma {:induction false} KeptWrite<E>(slots: seq<Slot<E>>, f: bool, i: nat, s: Slot<E>)
    requires i < |slots|
    ensures Kept(slots[i := s], f) + slots[i].Of(f) == Kept(slots, f) + s.Of(f)
  {
    var n := |slots| - 1;
    if i == n {
      assert slots == slots[..n] + [slots[n]] && slots[i := s] == slots[..n] + [s];
      KeptSnoc(slots[..n], slots[n], f);
      KeptSnoc(slots[..n], s, f);
      AddSwapped(Kept(slots[..n], f), s.Of(f), slots[n].Of(f));
    } else {
      WriteSplits(slots, i, s, n);
      KeptSnoc(slots[..n], slots[n], f);
      KeptSnoc(slots[..n][i := s], slots[n], f);
      KeptWrite(slots[..n], f, i, s);
      AddSame(Kept(slots[..n][i := s], f), slots[i].Of(f), Kept(slots[..n], f), s.Of(f), slots[n].Of(f));
    }
  }

  /** What is kept is what some slot holds. */
  lemma {:induction false} KeptSomewhere<E>(slots: seq<Slot<E>>, f: bool, x: E) returns (i: nat)
    requires x in Kept(slots, f)
    ensures i < |slots| && slots[i].elem == x && !slots[i].garbage && slots[i].epoch == f
  {
    var n := |slots| - 1;
    if x in slots[n].Of(f) {
      i := n;
    } else {
      i := KeptSomewhere(slots[..n], f, x);
    }
  }

  ghost predicate PlacedAt<E(!new)>(h: Hasher<E>, slots: seq<Slot<E>>, i: int) {
    0 <= i < |slots| && !slots[i].garbage ==> i in h.Locs(slots[i].elem, |slots|)
  }

  /** Every kept element is in one of its eight slots. */
  ghost predicate Placed<E(!new)>(h: Hasher<E>, slots: seq<Slot<E>>) {
    |slots| > 0 && forall i :: PlacedAt(h, slots, i)
  }

  /** A kept element is found by looking in its eight slots. */
  lemma KeptIsFound<E(!new)>(h: Hasher<E>, slots: seq<Slot<E>>, f: bool, x: E) returns (k: nat)
    requires Placed(h, slots) && x in Kept(slots, f)
    ensures k < 8 && slots[h.Locs(x, |slots|)[k]].elem == x
  {
    var i := KeptSomewhere(slots, f, x);
    assert PlacedAt(h, slots, i);
    k :| 0 <= k < 8 && h.Locs(x, |slots|)[k] == i;
  }

  // ---------- epochs ----------

  /** What ageing makes of a slot: old elements become discardable, the current ones old. */
  function AgedSlot<E>(s: Slot<E>): Slot<E> {
    if s.epoch then s.(epoch := false) else s.(garbage := true)
  }

  predicate AgedAt<E(==)>(slots: seq<Slot<E>>, aged: seq<Slot<E>>, i: int)
    requires |slots| == |aged|
  {
    0 <= i < |slots| ==> aged[i] == AgedSlot(slots[i])
  }

  ghost predicate IsAged<E>(slots: seq<Slot<E>>, aged: seq<Slot<E>>) {
    |slots| == |aged| && forall i :: AgedAt(slots, aged, i)
  }

  /** Ageing drops exactly the old epoch and makes the current one the old one. */
  lemma {:induction false} AgedKept<E>(slots: seq<Slot<E>>, aged: seq<Slot<E>>)
    requires IsAged(slots, aged)
    ensures Kept(aged, true) == multiset{} && Kept(aged, false) == Kept(slots, true)
  {
    if slots != [] {
      var n := |slots| - 1;
      var slots', aged' := slots[..n], aged[..n];
      forall i ensures AgedAt(slots', aged', i) { assert AgedAt(slots, aged, i); }
      AgedKept(slots', aged');
      assert AgedAt(slots, aged, n);
    }
  }

  lemma AgedPlaced<E(!new)>(h: Hasher<E>, slots: seq<Slot<E>>, aged: seq<Slot<E>>)
    requires Placed(h, slots) && IsAged(slots, aged)
    ensures Placed(h, aged)
  {
    forall i ensures PlacedAt(h, aged, i) { assert PlacedAt(h, slots, i) && AgedAt(slots, aged, i); }
  }

  /** The most elements an epoch is to hold. */
  function EpochBound(epochSize: nat): nat {
    epochSize + epochSize / 16 + 1
  }

  /** The number of inserts until the next scan. */
  function NextScan(epochSize: nat, unused: nat): (r: nat)
    requires unused < epochSize
    ensures 1 <= r <= epochSize && epochSize <= unused + r < EpochBound(epochSize) && r >= epochSize / 16
  {
    var least := if epochSize / 16 > epochSize - unused then epochSize / 16 else epochSize - unused;
    if least > 1 then least else 1
  }

  /** An epoch check ages the slots exactly when it scans them and the current epoch is full. */
  ghost predicate Checked<E(!new)>(was: seq<Slot<E>>, now: seq<Slot<E>>, epochSize: nat, counter: nat) {
    if counter == 0 && |Kept(was, true)| >= epochSize then IsAged(was, now) else now == was
  }

  /** The slot in which an element is first found, or 8. */
  function FirstMatch<E(==)>(slots: seq<Slot<E>>, locs: seq<nat>, e: E, k: nat): (r: nat)
    requires k <= |locs| && forall i | 0 <= i < |locs| :: locs[i] < |slots|
    ensures k <= r <= |locs| && (r < |locs| ==> slots[locs[r]].elem == e)
    ensures forall i | k <= i < r :: slots[locs[i]].elem != e
    decreases |locs| - k
  {
    if k == |locs| || slots[locs[k]].elem == e then k else FirstMatch(slots, locs, e, k + 1)
  }

  /** One of the slots may be discarded. */
  predicate HasRoom<E>(slots: seq<Slot<E>>, locs: seq<nat>)
    requires forall i | 0 <= i < |locs| :: locs[i] < |slots|
  {
    exists k | 0 <= k < |locs| :: slots[locs[k]].garbage
  }

  lemma WritePlaced<E(!new)>(h: Hasher<E>, slots: seq<Slot<E>>, i: nat, s: Slot<E>)
    requires Placed(h, slots) && i < |slots| && (!s.garbage ==> i in h.Locs(s.elem, |slots|))
    ensures Placed(h, slots[i := s])
  {
    var slots' := slots[i := s];
    forall j ensures PlacedAt(h, slots', j) { assert PlacedAt(h, slots, j); }
  }

  // ---------- the eviction chain ----------

  /** The index at which a slot is first found among some, or their number. */
  function FirstIndex(locs: seq<nat>, loc: int, k: nat): (r: nat)
    requires k <= |locs|
    ensures k <= r <= |locs| && (r < |locs| ==> locs[r] == loc) && forall i | k <= i < r :: locs[i] != loc
    decreases |locs| - k
  {
    if k == |locs| || locs[k] == loc then k else FirstIndex(locs, loc, k + 1)
  }

  /** The slot after the last one, in the ring of the eight slots; the second if there is no last one. */
  function NextLoc(locs: seq<nat>, last: int): nat
    requires |locs| == 8
  {
    locs[(1 + FirstIndex(locs, last, 0)) % 8]
  }

  /** A table, the element in the hand, and the slot it came from, or -1. */
  datatype Juggle<E> = Juggle(slots: seq<Slot<E>>, hand: Slot<E>, last: int)

  /** The hand is put into the next one of its slots, and what was there is taken. */
  function Displace<E(!new)>(h: Hasher<E>, j: Juggle<E>): Juggle<E>
    requires |j.slots| > 0
  {
    var loc := NextLoc(h.Locs(j.hand.elem, |j.slots|), j.last);
    Juggle(j.slots[loc := j.hand], j.slots[loc], loc)
  }

  /** The state after n displacements. */
  function After<E(!new)>(h: Hasher<E>, j: Juggle<E>, n: nat): (r: Juggle<E>)
    requires |j.slots| > 0
    ensures |r.slots| == |j.slots|
  {
    if n == 0 then j else Displace(h, After(h, j, n - 1))
  }

  /** The hand has a slot that may be discarded. */
  predicate Settles<E(!new)>(h: Hasher<E>, j: Juggle<E>)
    requires |j.slots| > 0
  {
    HasRoom(j.slots, h.Locs(j.hand.elem, |j.slots|))
  }

  ghost predicate NoneSettles<E(!new)>(h: Hasher<E>, j: Juggle<E>, n: nat)
    requires |j.slots| > 0
  {
    forall m: nat | m < n :: !Settles(h, After(h, j, m))
  }

  /** The hand is in the first of its slots that may be discarded. */
  ghost predicate SettledIn<E(!new)>(h: Hasher<E>, j: Juggle<E>, k: nat, now: seq<Slot<E>>, left: Slot<E>)
    requires |j.slots| > 0 && k < 8
  {
    var locs := h.Locs(j.hand.elem, |j.slots|);
    && j.slots[locs[k]].garbage && (forall i | 0 <= i < k :: !j.slots[locs[i]].garbage)
    && now == j.slots[locs[k] := j.hand] && left == j.slots[locs[k]]
  }

  /** The chain stops at the first hand that has room, or after all displacements allowed. */
  ghost predicate Stops<E(!new)>(h: Hasher<E>, j: Juggle<E>, limit: nat, n: nat, now: seq<Slot<E>>, left: Slot<E>) {
    && |j.slots| > 0 && n <= limit && NoneSettles(h, j, n)
    && if n == limit then now == After(h, j, n).slots && left == After(h, j, n).hand
       else exists k: nat | k < 8 :: SettledIn(h, After(h, j, n), k, now, left)
  }

  /** So far the chain has made n displacements. */
  ghost predicate Chaining<E(!new)>(h: Hasher<E>, j: Juggle<E>, n: nat, now: Juggle<E>) {
    Holding(h, now) && |j.slots| > 0 && now == After(h, j, n) && NoneSettles(h, j, n)
  }

  lemma ChainingNext<E(!new)>(h: Hasher<E>, j: Juggle<E>, n: nat, now: Juggle<E>)
    requires Chaining(h, j, n, now) && !Settles(h, now)
    ensures Chaining(h, j, n + 1, Displace(h, now))
  {
    DisplaceKeeps(h, now);
  }

  lemma ChainingStops<E(!new)>(h: Hasher<E>, j: Juggle<E>, limit: nat, n: nat, now: Juggle<E>, k: nat,
                               slots: seq<Slot<E>>, left: Slot<E>)
    requires Chaining(h, j, n, now) && n < limit && k < 8 && SettledIn(h, now, k, slots, left)
    ensures Stops(h, j, limit, n, slots, left)
  {
  }

  /** An element that must be kept is in the hand, and could be in the slot it came from. */
  ghost predicate Holding<E(!new)>(h: Hasher<E>, j: Juggle<E>) {
    && Placed(h, j.slots) && !j.hand.garbage
    && (j.last == -1 || j.last in h.Locs(j.hand.elem, |j.slots|))
  }

  lemma DisplaceKeeps<E(!new)>(h: Hasher<E>, j: Juggle<E>)
    requires Holding(h, j) && !Settles(h, j)
    ensures Holding(h, Displace(h, j))
  {
    var locs := h.Locs(j.hand.elem, |j.slots|);
    var loc := NextLoc(locs, j.last);
    assert PlacedAt(h, j.slots, loc) && !j.slots[loc].garbage;
    WritePlaced(h, j.slots, loc, j.hand);
  }

  /**
   A displacement takes an element from a slot of the hand. It is not the slot just filled,
   so that the element just put in stays, exactly if the hand has another slot right after
   the first place of that one among its eight.
   */
  lemma DisplaceTakesAnother<E(!new)>(h: Hasher<E>, j: Juggle<E>, k: nat)
    requires Holding(h, j) && k < 8
    requires j.last >= 0 ==> k == FirstIndex(h.Locs(j.hand.elem, |j.slots|), j.last, 0)
    ensures var next, locs := Displace(h, j), h.Locs(j.hand.elem, |j.slots|);
            && next.last in locs && next.slots[next.last] == j.hand && next.hand == j.slots[next.last]
            && (forall i | 0 <= i < |j.slots| && i != next.last :: next.slots[i] == j.slots[i])
            && (j.last >= 0 ==> locs[k] == j.last && (next.last == j.last <==> k < 7 && locs[k + 1] == locs[k]))
            && (j.last == -1 ==> next.last == locs[1])
  {
    var locs := h.Locs(j.hand.elem, |j.slots|);
    if j.last == -1 { assert FirstIndex(locs, -1, 0) == 8; }
  }

  /** Where two consecutive slots of an element are one, the element just put in is taken out again. */
  lemma TakenOutAgain<E(!new)>(h: Hasher<E>, j: Juggle<E>)
    requires Holding(h, j) && j.last >= 0 && j.slots[j.last].elem != j.hand.elem
    requires h.Loc(0, j.hand.elem, |j.slots|) == h.Loc(1, j.hand.elem, |j.slots|) == j.last
    ensures Displace(h, j).hand == j.slots[j.last] && Displace(h, j).slots[j.last] == j.hand
    ensures Displace(h, j).last == j.last
  {
    var locs := h.Locs(j.hand.elem, |j.slots|);
    assert FirstIndex(locs, j.last, 0) == 0;
  }

  lemma {:induction false} AfterKeeps<E(!new)>(h: Hasher<E>, j: Juggle<E>, n: nat)
    requires Holding(h, j) && NoneSettles(h, j, n)
    ensures Holding(h, After(h, j, n))
  {
    if n > 0 {
      AfterKeeps(h, j, n - 1);
      DisplaceKeeps(h, After(h, j, n - 1));
    }
  }

  /** Nothing is left in the hand exactly if, within the limit, some hand has room when its turn comes. */
  lemma NothingLeft<E(!new)>(h: Hasher<E>, j: Juggle<E>, limit: nat, n: nat, now: seq<Slot<E>>, left: Slot<E>)
    requires Holding(h, j) && Stops(h, j, limit, n, now, left)
    ensures left.garbage <==> !NoneSettles(h, j, limit)
  {
    AfterKeeps(h, j, n);
    if n < limit {
      var at := After(h, j, n);
      var k: nat :| k < 8 && SettledIn(h, at, k, now, left);
      assert Settles(h, at) by { assert at.slots[h.Locs(at.hand.elem, |at.slots|)[k]].garbage; }
    }
  }

  class Cache<E(==, !new)> {
    const h: Hasher<E>
    var slots: seq<Slot<E>>
    var epochSize: nat
    var counter: nat
    var depthLimit: nat

    /**
     Kept elements are where they can be found. The current epoch, with the inserts still to
     come before the next scan, stays within its bound, and so does the old one.
     */
    ghost predicate Valid()
      reads this
    {
      && Placed(h, slots) && epochSize > 0
      && |Kept(slots, true)| + counter <= EpochBound(epochSize)
      && |Kept(slots, false)| <= EpochBound(epochSize)
    }

    /** setup: every slot is discardable; `depth` is the logarithm of the size. */
    constructor (hasher: Hasher<E>, newSize: nat, depth: nat, init: E)
      ensures Valid() && h == hasher && |slots| == (if newSize < 2 then 2 else newSize) && depthLimit == depth
      ensures Kept(slots, true) == multiset{} && Kept(slots, false) == multiset{}
      ensures epochSize == (if 45 * |slots| / 100 < 1 then 1 else 45 * |slots| / 100) && counter == epochSize
    {
      h := hasher;
      depthLimit := depth;
      var size := if newSize < 2 then 2 else newSize;
      slots := seq(size, _ => Slot(init, false, true));
      epochSize := if 45 * size / 100 < 1 then 1 else 45 * size / 100;
      counter := if 45 * size / 100 < 1 then 1 else 45 * size / 100;
      new;
      AllGarbage(slots, true);
      AllGarbage(slots, false);
      forall i ensures PlacedAt(h, slots, i) { }
    }

    method CountUnused() returns (n: nat)
      ensures n == |Kept(slots, true)|
    {
      n := 0;
      for i := 0 to |slots|
        invariant n == |Kept(slots[..i], true)|
      {
        assert slots[..i + 1][..i] == slots[..i];
        if slots[i].epoch && !slots[i].garbage { n := n + 1; }
      }
      assert slots[..|slots|] == slots;
    }

    /** Old elements become discardable, the current ones old. */
    method Age()
      modifies this`slots
      ensures IsAged(old(slots), slots)
    {
      ghost var was := slots;
      for i := 0 to |slots|
        invariant |slots| == |was|
        invariant forall j | 0 <= j < i :: slots[j] == AgedSlot(was[j])
        invariant forall j | i <= j < |slots| :: slots[j] == was[j]
      {
        if slots[i].epoch {
          slots := slots[i := slots[i].(epoch := false)];
        } else {
          slots := slots[i := slots[i].(garbage := true)];
        }
      }
    }

    /** Ages the elements when the current epoch is full; leaves room for one insert. */
    method EpochCheck()
      requires Valid()
      modifies this`slots, this`counter
      ensures Valid() && |Kept(slots, true)| + counter < EpochBound(epochSize)
      ensures Checked(old(slots), slots, epochSize, old(counter))
      ensures old(counter) > 0 ==> counter == old(counter) - 1
      ensures old(counter) == 0 ==> epochSize / 16 <= counter && 1 <= counter <= epochSize
    {
      if counter != 0 {
        counter := counter - 1;
        return;
      }
      var unused := CountUnused();
      if unused >= epochSize {
        ghost var was := slots;
        Age();
        AgedKept(was, slots);
        AgedPlaced(h, was, slots);
        counter := epochSize;
      } else {
        counter := NextScan(epochSize, unused);
      }
    }

    /** The first of some slots that may be discarded, or their number. */
    method FindFree(locs: seq<nat>) returns (k: nat)
      requires forall i | 0 <= i < |locs| :: locs[i] < |slots|
      ensures k <= |locs| && (k < |locs| ==> slots[locs[k]].garbage) && forall i | 0 <= i < k :: !slots[locs[i]].garbage
    {
      k := 0;
      while k < |locs| && !slots[locs[k]].garbage
        invariant k <= |locs| && forall i | 0 <= i < k :: !slots[locs[i]].garbage
      {
        k := k + 1;
      }
    }

    method FindElement(locs: seq<nat>, e: E) returns (k: nat)
      requires forall i | 0 <= i < |locs| :: locs[i] < |slots|
      ensures k == FirstMatch(slots, locs, e, 0)
    {
      k := 0;
      while k < |locs| && slots[locs[k]].elem != e
        invariant k <= |locs| && FirstMatch(slots, locs, e, k) == FirstMatch(slots, locs, e, 0)
      {
        k := k + 1;
      }
    }

    /** Puts what is in the hand into a slot, and takes what was there. */
    method Exchange(hand: Slot<E>, loc: nat, ghost mid: seq<Slot<E>>, ghost e: E) returns (was: Slot<E>)
      requires Placed(h, slots) && !hand.garbage && loc in h.Locs(hand.elem, |slots|) && loc < |slots|
      requires Conserved(slots, hand, mid, e)
      modifies this`slots
      ensures slots == old(slots)[loc := hand] && was == old(slots)[loc]
      ensures Placed(h, slots) && Conserved(slots, was, mid, e)
    {
      HandOver(slots, hand, mid, e, loc);
      WritePlaced(h, slots, loc, hand);
      was := slots[loc];
      slots := slots[loc := hand];
    }

    /** The index of the last slot among eight, or 8. */
    method FindLast(locs: seq<nat>, last: int) returns (n: nat)
      requires |locs| == 8
      ensures n == FirstIndex(locs, last, 0)
    {
      n := 0;
      while n < 8 && locs[n] != last
        invariant n <= 8 && FirstIndex(locs, last, n) == FirstIndex(locs, last, 0)
      {
        n := n + 1;
      }
    }

    /** Puts the hand into the next one of its slots. */
    method Evict(hand: Slot<E>, lastLoc: int, ghost mid: seq<Slot<E>>, ghost e: E) returns (was: Slot<E>, loc: int)
      requires Holding(h, Juggle(slots, hand, lastLoc)) && Conserved(slots, hand, mid, e)
      requires !Settles(h, Juggle(slots, hand, lastLoc))
      modifies this`slots
      ensures Juggle(slots, was, loc) == Displace(h, Juggle(old(slots), hand, lastLoc))
      ensures Holding(h, Juggle(slots, was, loc)) && Conserved(slots, was, mid, e)
    {
      DisplaceKeeps(h, Juggle(slots, hand, lastLoc));
      var locs := h.Locs(hand.elem, |slots|);
      var i := FindLast(locs, lastLoc);
      loc := locs[(1 + i) % 8];
      was := Exchange(hand, loc, mid, e);
    }

    /** Puts the hand into a slot that may be discarded, if it has one. */
    method Settle(hand: Slot<E>, ghost last: int, ghost mid: seq<Slot<E>>, ghost e: E)
      returns (done: bool, left: Slot<E>, ghost k: nat)
      requires Holding(h, Juggle(slots, hand, last)) && Conserved(slots, hand, mid, e)
      modifies this`slots
      ensures done == Settles(h, Juggle(old(slots), hand, last))
      ensures Placed(h, slots) && Conserved(slots, left, mid, e)
      ensures if done then k < 8 && SettledIn(h, Juggle(old(slots), hand, last), k, slots, left)
              else slots == old(slots) && left == hand
    {
      var locs := h.Locs(hand.elem, |slots|);
      var i := FindFree(locs);
      done, left, k := i < 8, hand, i;
      if done {
        left := Exchange(hand, locs[i], mid, e);
      }
    }

    /** The eviction chain, of n displacements; ends with nothing or one element in the hand. */
    method Chain(start: Slot<E>, ghost mid: seq<Slot<E>>, ghost e: E) returns (hand: Slot<E>, ghost n: nat)
      requires Placed(h, slots) && !start.garbage && Conserved(slots, start, mid, e)
      modifies this`slots
      ensures Placed(h, slots) && Conserved(slots, hand, mid, e)
      ensures Stops(h, Juggle(old(slots), start, -1), depthLimit, n, slots, hand)
    {
      hand := start;
      var lastLoc: int := -1;
      ghost var j := Juggle(slots, start, -1);
      for depth := 0 to depthLimit
        invariant Chaining(h, j, depth, Juggle(slots, hand, lastLoc)) && Conserved(slots, hand, mid, e)
      {
        ghost var now, k := Juggle(slots, hand, lastLoc), 0;
        var done;
        done, hand, k := Settle(hand, lastLoc, mid, e);
        if done {
          ChainingStops(h, j, depthLimit, depth, now, k, slots, hand);
          n := depth;
          return;
        }
        ChainingNext(h, j, depth, now);
        hand, lastLoc := Evict(hand, lastLoc, mid, e);
      }
      n := depthLimit;
    }

    /** Writes the first slot with an element anew, if there is one. */
    method Renew(e: E) returns (done: bool, was: Slot<E>)
      requires Placed(h, slots)
      modifies this`slots
      ensures Placed(h, slots) && done == !Absent(h, old(slots), e)
      ensures if done then Renewed(h, old(slots), e, slots, was) && Conserved(slots, was, old(slots), e)
              else slots == old(slots)
    {
      var locs := h.Locs(e, |slots|);
      var k := FindElement(locs, e);
      was := Slot(e, true, false);
      done := k < 8;
      if done {
        was := Exchange(was, locs[k], slots, e);
      }
    }

    /** Puts an element where it is already, or starts an eviction chain with it. */
    method Place(e: E) returns (ghost dropped: Slot<E>)
      requires Placed(h, slots)
      modifies this`slots
      ensures Placed(h, slots) && Conserved(slots, dropped, old(slots), e)
      ensures Put(h, old(slots), e, depthLimit, slots, dropped)
    {
      ghost var mid := slots;
      var done, was := Renew(e);
      dropped := was;
      if !done {
        var hand := Slot(e, true, false);
        AllThere(mid, e);
        ghost var n;
        dropped, n := Chain(hand, mid, e);
        Chained(h, mid, e, depthLimit, n, slots, dropped);
      }
    }

    /**
     Inserts an element. After the epoch check, the kept elements are what they were, plus
     the new one in the current epoch, minus what is left in the hand: the copy of the new
     element that was already there, or else nothing if within the limit of displacements
     some hand has room, and one element if none has.
     */
    method Insert(e: E) returns (ghost mid: seq<Slot<E>>, ghost dropped: Slot<E>)
      requires Valid()
      modifies this`slots, this`counter
      ensures Valid() && |slots| == |mid| == old(|slots|)
      ensures Checked(old(slots), mid, epochSize, old(counter)) && Conserved(slots, dropped, mid, e)
      ensures Inserted(h, mid, e, depthLimit, slots, dropped)
    {
      EpochCheck();
      mid := slots;
      dropped := Place(e);
      KeptCounts(slots, dropped, mid, e);
      PutDrops(h, mid, e, depthLimit, slots, dropped);
    }

    /** Marks a slot as discardable; nothing else changes. */
    method AllowErase(i: nat)
      requires Valid() && i < |slots|
      modifies this`slots
      ensures Valid() && slots == old(slots)[i := old(slots)[i].(garbage := true)]
      ensures Kept(slots, true) + old(slots)[i].Of(true) == Kept(old(slots), true)
      ensures Kept(slots, false) + old(slots)[i].Of(false) == Kept(old(slots), false)
    {
      ghost var was := slots;
      slots := slots[i := slots[i].(garbage := true)];
      WritePlaced(h, was, i, slots[i]);
      KeptWrite(was, true, i, slots[i]);
      KeptWrite(was, false, i, slots[i]);
      FewerKept(was, slots, i);
    }

    /** Whether an element is in one of its slots; on request the first such slot becomes discardable. */
    method Contains(e: E, erase: bool) returns (found: bool)
      requires Valid()
      modifies this`slots
      ensures Valid() && found == (FirstMatch(old(slots), h.Locs(e, old(|slots|)), e, 0) < 8)
      ensures slots == if found && erase
                       then var i := h.Locs(e, old(|slots|))[FirstMatch(old(slots), h.Locs(e, old(|slots|)), e, 0)];
                            old(slots)[i := old(slots)[i].(garbage := true)]
                       else old(slots)
    {
      var locs := h.Locs(e, |slots|);
      var k := FindElement(locs, e);
      found := k < 8;
      if found && erase {
        AllowErase(locs[k]);
      }
    }
  }

  lemma FewerKept<E>(was: seq<Slot<E>>, now: seq<Slot<E>>, i: nat)
    requires i < |was| && Kept(now, true) + was[i].Of(true) == Kept(was, true)
             && Kept(now, false) + was[i].Of(false) == Kept(was, false)
    ensures |Kept(now, true)| <= |Kept(was, true)| && |Kept(now, false)| <= |Kept(was, false)|
  {
    assert |Kept(now, true) + was[i].Of(true)| == |Kept(was, true)|;
    assert |Kept(now, false) + was[i].Of(false)| == |Kept(was, false)|;
  }

  /** With one more element in the hand, the two epochs hold what they held and the new element. */
  ghost predicate Conserved<E>(now: seq<Slot<E>>, hand: Slot<E>, mid: seq<Slot<E>>, e: E) {
    && Kept(now, true) + hand.Of(true) == Kept(mid, true) + multiset{e}
    && Kept(now, false) + hand.Of(false) == Kept(mid, false)
  }

  /** A new element is taken in the hand. */
  function Begun<E>(slots: seq<Slot<E>>, e: E): Juggle<E> {
    Juggle(slots, Slot(e, true, false), -1)
  }

  /** The element is in none of its slots. */
  ghost predicate Absent<E(!new)>(h: Hasher<E>, slots: seq<Slot<E>>, e: E) {
    |slots| > 0 && FirstMatch(slots, h.Locs(e, |slots|), e, 0) == 8
  }

  /** The first slot with the element is written anew. */
  ghost predicate Renewed<E(!new)>(h: Hasher<E>, mid: seq<Slot<E>>, e: E, now: seq<Slot<E>>, left: Slot<E>) {
    && |mid| > 0
    && var locs := h.Locs(e, |mid|);
       var k := FirstMatch(mid, locs, e, 0);
       k < 8 && now == mid[locs[k] := Slot(e, true, false)] && left == mid[locs[k]]
  }

  /** An element already in the table is renewed; for another one there is a chain. */
  ghost predicate Put<E(!new)>(h: Hasher<E>, mid: seq<Slot<E>>, e: E, limit: nat, now: seq<Slot<E>>, left: Slot<E>) {
    if Absent(h, mid, e) then exists n: nat :: Stops(h, Begun(mid, e), limit, n, now, left)
    else Renewed(h, mid, e, now, left)
  }

  lemma AllThere<E>(mid: seq<Slot<E>>, e: E)
    ensures Conserved(mid, Slot(e, true, false), mid, e)
  {
  }

  lemma Chained<E(!new)>(h: Hasher<E>, mid: seq<Slot<E>>, e: E, limit: nat, n: nat, now: seq<Slot<E>>, left: Slot<E>)
    requires Absent(h, mid, e) && Stops(h, Begun(mid, e), limit, n, now, left)
    ensures Put(h, mid, e, limit, now, left)
  {
  }

  /** Of a chain nothing is left exactly if within the limit some hand has room. */
  ghost predicate Inserted<E(!new)>(h: Hasher<E>, mid: seq<Slot<E>>, e: E, limit: nat, now: seq<Slot<E>>,
                                    left: Slot<E>) {
    && Put(h, mid, e, limit, now, left) && |now| == |mid|
    && (Absent(h, mid, e) ==> (left.garbage <==> !NoneSettles(h, Begun(mid, e), limit)))
  }

  lemma PutDrops<E(!new)>(h: Hasher<E>, mid: seq<Slot<E>>, e: E, limit: nat, now: seq<Slot<E>>, left: Slot<E>)
    requires Placed(h, mid) && Put(h, mid, e, limit, now, left)
    ensures Inserted(h, mid, e, limit, now, left)
  {
    if Absent(h, mid, e) {
      var n: nat :| Stops(h, Begun(mid, e), limit, n, now, left);
      NothingLeft(h, Begun(mid, e), limit, n, now, left);
    }
  }

  lemma HandOver<E>(slots: seq<Slot<E>>, hand: Slot<E>, mid: seq<Slot<E>>, e: E, i: nat)
    requires Conserved(slots, hand, mid, e) && i < |slots|
    ensures Conserved(slots[i := hand], slots[i], mid, e)
  {
    KeptWrite(slots, true, i, hand);
    KeptWrite(slots, false, i, hand);
  }

  lemma KeptCounts<E>(now: seq<Slot<E>>, hand: Slot<E>, mid: seq<Slot<E>>, e: E)
    requires Conserved(now, hand, mid, e)
    ensures |Kept(now, true)| <= |Kept(mid, true)| + 1 && |Kept(now, false)| <= |Kept(mid, false)|
  {
    assert |Kept(now, true) + hand.Of(true)| == |Kept(mid, true) + multiset{e}|;
    assert |Kept(now, false) + hand.Of(false)| == |Kept(mid, false)|;
  }

  /** What was inserted and not dropped is kept, and found in its slots. */
  lemma InsertedIsFound<E(!new)>(h: Hasher<E>, now: seq<Slot<E>>, dropped: Slot<E>, mid: seq<Slot<E>>,
                            e: E) returns (k: nat)
    requires Placed(h, now) && Conserved(now, dropped, mid, e)
             && (dropped.garbage || !dropped.epoch || dropped.elem != e)
    ensures e in Kept(now, true) && k < 8 && now[h.Locs(e, |now|)[k]].elem == e
  {
    assert (Kept(now, true) + dropped.Of(true))[e] == (Kept(mid, true) + multiset{e})[e];
    k := KeptIsFound(h, now, true, e);
  }

  lemma {:induction false} AllGarbage<E>(slots: seq<Slot<E>>, f: bool)
    requires forall i | 0 <= i < |slots| :: slots[i].garbage
    ensures Kept(slots, f) == multiset{}
  {
    if slots != [] { AllGarbage(slots[..|slots| - 1], f); }
  }

  lemma {:induction false} KeptAll<E>(slots: seq<Slot<E>>)
    requires forall i | 0 <= i < |slots| :: !slots[i].garbage
    ensures |Kept(slots, true)| + |Kept(slots, false)| == |slots|
  {
    if slots != [] { KeptAll(slots[..|slots| - 1]); }
  }

  /** With the bounds on the epochs, a table of at least 46 slots never fills up. */
  lemma AlwaysRoom<E>(slots: seq<Slot<E>>, epochSize: nat) returns (i: nat)
    requires |slots| >= 46 && epochSize == 45 * |slots| / 100
    requires |Kept(slots, true)| <= EpochBound(epochSize) && |Kept(slots, false)| <= EpochBound(epochSize)
    ensures i < |slots| && slots[i].garbage
  {
    if j :| 0 <= j < |slots| && slots[j].garbage {
      i := j;
    } else {
      KeptAll(slots);
      assert false;
    }
  }

  // ---------- packed flags ----------

  function Mask(k: nat): bv8 {
    if k == 0 then 1 else if k == 1 then 2 else if k == 2 then 4 else if k == 3 then 8
    else if k == 4 then 16 else if k == 5 then 32 else if k == 6 then 64 else 128
  }

  predicate BitOf(b: bv8, k: nat) { b & Mask(k) != 0 }

  lemma SetOne(b: bv8, k: nat, j: nat)
    requires k < 8 && j < 8
    ensures BitOf(b | Mask(k), j) <==> j == k || BitOf(b, j)
  {
  }

  lemma UnsetOne(b: bv8, k: nat, j: nat)
    requires k < 8 && j < 8
    ensures BitOf(b & !Mask(k), j) <==> j != k && BitOf(b, j)
  {
  }

  /** Flags packed eight to a byte behave like separate ones. */
  class BitPackedFlags {
    const mem: array<bv8>

    predicate Bit(s: nat)
      requires s / 8 < mem.Length
      reads mem
    {
      BitOf(mem[s / 8], s % 8)
    }

    constructor (size: nat)
      ensures fresh(mem) && mem.Length == (size + 7) / 8 && forall s: nat | s < size :: Bit(s)
    {
      mem := new bv8[(size + 7) / 8](_ => 0xff);
      new;
      forall s: nat | s < size ensures Bit(s) { AllOn(s % 8); }
    }

    method BitSet(s: nat)
      requires s / 8 < mem.Length
      modifies mem
      ensures Bit(s) && forall t: nat | t / 8 < mem.Length && t != s :: Bit(t) == old(Bit(t))
    {
      ghost var was := mem[s / 8];
      mem[s / 8] := mem[s / 8] | Mask(s % 8);
      forall t: nat | t / 8 == s / 8 ensures Bit(t) == (t == s || BitOf(was, t % 8)) { SetOne(was, s % 8, t % 8); }
    }

    method BitUnset(s: nat)
      requires s / 8 < mem.Length
      modifies mem
      ensures !Bit(s) && forall t: nat | t / 8 < mem.Length && t != s :: Bit(t) == old(Bit(t))
    {
      ghost var was := mem[s / 8];
      mem[s / 8] := mem[s / 8] & !Mask(s % 8);
      forall t: nat | t / 8 == s / 8 ensures Bit(t) == (t != s && BitOf(was, t % 8)) { UnsetOne(was, s % 8, t % 8); }
    }
  }

  lemma AllOn(k: nat)
    requires k < 8
    ensures BitOf(0xff, k)
  {
  }
}
