/**
 What an accepted partial Merkle tree is. An extraction succeeds exactly on the written form
 of a partial tree of the claimed shape, up to padding; and whatever number of transactions
 is claimed, a transaction id found under the root of a list is in that list.
 */
module MerkleProofs {
  import opened MerkleBlock

  // ---------- partial trees ----------

  /** A tree cut off at some nodes, of which the hash is known; a flag says that one is a match. */
  datatype Partial = Stop(hash: Hash, flag: bool) | One(child: Partial) | Two(left: Partial, right: Partial)

  /** The partial tree has the shape of a tree, and its matches are leaves. */
  predicate Fits(t: Tree, p: Partial)
    decreases p
  {
    match p
    case Stop(_, flag) => flag ==> t.Leaf?
    case One(c) => t.Only? && Fits(t.child, c)
    case Two(l, r) => t.Both? && Fits(t.left, l) && Fits(t.right, r)
  }

  function RootOf(H: PairHash, p: Partial): Hash {
    match p
    case Stop(hash, _) => hash
    case One(c) => H(RootOf(H, c), RootOf(H, c))
    case Two(l, r) => H(RootOf(H, l), RootOf(H, r))
  }

  /** No two siblings have the same hash. */
  predicate Sound(H: PairHash, p: Partial) {
    match p
    case Stop(_, _) => true
    case One(c) => Sound(H, c)
    case Two(l, r) => Sound(H, l) && Sound(H, r) && RootOf(H, l) != RootOf(H, r)
  }

  /** The flags and hashes in depth-first order. */
  function Written(p: Partial): Parts {
    match p
    case Stop(hash, flag) => Parts([flag], [hash])
    case One(c) => Parts([true] + Written(c).bits, Written(c).hashes)
    case Two(l, r) =>
      Parts([true] + Written(l).bits + Written(r).bits, Written(l).hashes + Written(r).hashes)
  }

  /** The matches, from left to right. */
  function Picks(t: Tree, p: Partial): seq<Match>
    requires Fits(t, p)
    decreases p
  {
    match p
    case Stop(hash, flag) => if flag then [Match(hash, t.pos)] else []
    case One(c) => Picks(t.child, c)
    case Two(l, r) => Picks(t.left, l) + Picks(t.right, r)
  }

  // ---------- extracting is reading ----------

  /** The traversal of a node reads a partial tree. */
  ghost predicate ReadAs(H: PairHash, t: Tree, p: Partial, parts: Parts, b: nat, k: nat) {
    && Fits(t, p) && Sound(H, p) && HoldsAt(parts, Written(p), b, k)
    && Extract(H, t, parts, b, k)
       == Walk(b + |Written(p).bits|, k + |Written(p).hashes|, Picks(t, p), false, RootOf(H, p))
  }

  lemma HoldsJoin<T>(whole: seq<T>, a: seq<T>, b: seq<T>, at: nat)
    requires FoundAt(whole, a, at) && FoundAt(whole, b, at + |a|)
    ensures FoundAt(whole, a + b, at)
  {
    forall i | 0 <= i < |a + b| ensures whole[at + i] == (a + b)[i] {
      if i >= |a| { assert whole[at + |a| + (i - |a|)] == b[i - |a|]; }
    }
  }

  lemma HoldsFlag(parts: Parts, p: Parts, b: nat, k: nat)
    requires b < |parts.bits| && parts.bits[b] && HoldsAt(parts, p, b + 1, k)
    ensures HoldsAt(parts, Parts([true] + p.bits, p.hashes), b, k)
  {
    HoldsJoin(parts.bits, [true], p.bits, b);
  }

  lemma UnderFlag(parts: Parts, p: Parts, b: nat, k: nat)
    requires HoldsAt(parts, Parts([true] + p.bits, p.hashes), b, k)
    ensures b < |parts.bits| && parts.bits[b] && HoldsAt(parts, p, b + 1, k)
  {
    assert [true] + p.bits == [true] + p.bits + [] && p.hashes == p.hashes + [];
    SplitPart(parts, true, p, Parts([], []), b, k);
  }

  lemma HoldsBoth(parts: Parts, l: Parts, r: Parts, b: nat, k: nat)
    requires b < |parts.bits| && parts.bits[b]
    requires HoldsAt(parts, l, b + 1, k) && HoldsAt(parts, r, b + 1 + |l.bits|, k + |l.hashes|)
    ensures HoldsAt(parts, Parts([true] + l.bits + r.bits, l.hashes + r.hashes), b, k)
  {
    HoldsFlag(parts, l, b, k);
    HoldsJoin(parts.bits, [true] + l.bits, r.bits, b);
    HoldsJoin(parts.hashes, l.hashes, r.hashes, k);
  }

  /** What a traversal accepts is a partial tree. */
  lemma {:induction false} Read(H: PairHash, t: Tree, parts: Parts, b: nat, k: nat) returns (p: Partial)
    requires !Extract(H, t, parts, b, k).bad
    ensures ReadAs(H, t, p, parts, b, k)
    decreases t
  {
    if t.Leaf? || !parts.bits[b] {
      p := Stop(parts.hashes[k], parts.bits[b]);
    } else if t.Only? {
      var c := Read(H, t.child, parts, b + 1, k);
      p := One(c);
      HoldsFlag(parts, Written(c), b, k);
    } else {
      var left := Extract(H, t.left, parts, b + 1, k);
      var l := Read(H, t.left, parts, b + 1, k);
      var r := Read(H, t.right, parts, left.bitsUsed, left.hashUsed);
      p := Two(l, r);
      HoldsBoth(parts, Written(l), Written(r), b, k);
    }
  }

  lemma AcceptedStop(H: PairHash, t: Tree, hash: Hash, flag: bool, parts: Parts, b: nat, k: nat)
    requires (flag ==> t.Leaf?) && HoldsAt(parts, Parts([flag], [hash]), b, k)
    ensures ReadAs(H, t, Stop(hash, flag), parts, b, k)
  {
    assert parts.bits[b + 0] == [flag][0] && parts.hashes[k + 0] == [hash][0];
  }

  /** And every partial tree without equal siblings is accepted where it is written. */
  lemma {:induction false} Accepted(H: PairHash, t: Tree, p: Partial, parts: Parts, b: nat, k: nat)
    requires Fits(t, p) && Sound(H, p) && HoldsAt(parts, Written(p), b, k)
    ensures ReadAs(H, t, p, parts, b, k)
    decreases p
  {
    match p
    case Stop(hash, flag) => AcceptedStop(H, t, hash, flag, parts, b, k);
    case One(c) =>
      UnderFlag(parts, Written(c), b, k);
      Accepted(H, t.child, c, parts, b + 1, k);
    case Two(l, r) =>
      SplitPart(parts, true, Written(l), Written(r), b, k);
      Accepted(H, t.left, l, parts, b + 1, k);
      Accepted(H, t.right, r, parts, b + 1 + |Written(l).bits|, k + |Written(l).hashes|);
  }

  /** All hashes, and all bits up to padding to a whole byte, are those of a partial tree of n leaves. */
  ghost predicate Proves(H: PairHash, n: nat, p: Partial, parts: Parts) {
    && 0 < n <= MAX_BLOCK_WEIGHT / MIN_TRANSACTION_WEIGHT && Fits(Top(n), p) && Sound(H, p)
    && parts.hashes == Written(p).hashes && |parts.hashes| <= n
    && Written(p).bits <= parts.bits && (|parts.bits| + 7) / 8 == (|Written(p).bits| + 7) / 8
  }

  lemma {:induction false} BitPerHash(p: Partial)
    ensures 1 <= |Written(p).hashes| <= |Written(p).bits|
  {
    match p
    case Stop(_, _) =>
    case One(c) => BitPerHash(c);
    case Two(l, r) =>
      BitPerHash(l);
      BitPerHash(r);
  }

  lemma FoundAtStart<T>(whole: seq<T>, part: seq<T>)
    ensures FoundAt(whole, part, 0) <==> part <= whole
  {
    if FoundAt(whole, part, 0) {
      forall i | 0 <= i < |part| ensures whole[i] == part[i] { assert whole[0 + i] == part[i]; }
    }
  }

  /** A root is returned only for a partial tree whose written form was given, and is the root of that. */
  lemma RootMeansProof(H: PairHash, n: nat, parts: Parts, bad: bool) returns (p: Partial)
    requires ExtractAll(H, n, parts, bad).root != NULL_HASH
    ensures !bad && Proves(H, n, p, parts)
    ensures ExtractAll(H, n, parts, bad) == Extraction(RootOf(H, p), Picks(Top(n), p), false)
  {
    p := Read(H, Top(n), parts, 0, 0);
    FoundAtStart(parts.bits, Written(p).bits);
    FoundAtStart(parts.hashes, Written(p).hashes);
  }

  /** And for every such tree its root and its matches are returned. */
  lemma ProofMeansRoot(H: PairHash, n: nat, p: Partial, parts: Parts)
    requires Proves(H, n, p, parts)
    ensures ExtractAll(H, n, parts, false) == Extraction(RootOf(H, p), Picks(Top(n), p), false)
  {
    BitPerHash(p);
    FoundAtStart(parts.bits, Written(p).bits);
    FoundAtStart(parts.hashes, Written(p).hashes);
    Accepted(H, Top(n), p, parts, 0, 0);
  }

  // ---------- authentication without the number of transactions ----------

  ghost predicate Combined(H: PairHash, x: Hash) {
    exists a, b :: x == H(a, b)
  }

  /** Different transaction ids, none of which is also the hash of an inner node. */
  ghost predicate ProperList(H: PairHash, txids: seq<Hash>) {
    Distinct(txids) && forall i | 0 <= i < |txids| :: !Combined(H, txids[i])
  }

  /** The node at a place above a list of transactions. */
  ghost function HashAt(H: PairHash, txids: seq<Hash>, h: nat, pos: nat): Hash
    requires pos < Width(|txids|, h)
  {
    PlaceInTree(|txids|, h, pos);
    NodeHash(H, Shape(|txids|, h, pos), txids)
  }

  lemma PlaceInTree(n: nat, h: nat, pos: nat)
    requires pos < Width(n, h)
    ensures Within(Shape(n, h, pos), n) && Spans(Shape(n, h, pos), h, First(h, pos))
    ensures First(h, pos) < End(n, h, pos) <= n && (h > 0 ==> 2 * pos < Width(n, h - 1))
  {
    ShapeSpans(n, h, pos);
    SpansWithin(Shape(n, h, pos), h, First(h, pos), n);
    InTree(n, h, pos);
    if h > 0 { InTree(n, h - 1, 2 * pos); }
  }

  ghost predicate AllCombined(H: PairHash, found: seq<Match>) {
    forall i | 0 <= i < |found| :: Combined(H, found[i].txid)
  }

  /** What may be found under a node, by how high the claimed tree and the true one reach above it. */
  ghost predicate Explained(H: PairHash, txids: seq<Hash>, found: seq<Match>, claimed: nat, h: nat, pos: nat) {
    && (claimed == h ==> Authentic(found, txids, First(h, pos), End(|txids|, h, pos)))
    && (claimed < h ==> AllCombined(H, found))
    && (claimed > h ==> found == [])
  }

  /** A combined hash is that of an inner node, and its children have the two hashes. */
  lemma Descend(H: PairHash, txids: seq<Hash>, h: nat, pos: nat, a: Hash, b: Hash)
    requires CollisionFree(H) && ProperList(H, txids) && pos < Width(|txids|, h) && H(a, b) == HashAt(H, txids, h, pos)
    ensures h > 0 && 2 * pos < Width(|txids|, h - 1) && a == HashAt(H, txids, h - 1, 2 * pos)
    ensures a == b <==> 2 * pos + 1 >= Width(|txids|, h - 1)
    ensures a != b ==> b == HashAt(H, txids, h - 1, 2 * pos + 1)
  {
    PlaceInTree(|txids|, h, pos);
    assert h > 0 by {
      if h == 0 { assert Combined(H, txids[pos]); }
    }
    var n := |txids|;
    if 2 * pos + 1 < Width(n, h - 1) {
      PlaceInTree(n, h - 1, 2 * pos);
      PlaceInTree(n, h - 1, 2 * pos + 1);
      ChildLeaves(n, h, pos);
      NodesDiffer(H, txids, h - 1, Shape(n, h - 1, 2 * pos), First(h - 1, 2 * pos), Shape(n, h - 1, 2 * pos + 1),
                  First(h - 1, 2 * pos + 1));
    }
  }

  lemma StopExplained(H: PairHash, n: nat, claimed: nat, txids: seq<Hash>, h: nat, pos: nat, p: Partial)
    requires ProperList(H, txids) && p.Stop? && pos < Width(|txids|, h) && p.hash == HashAt(H, txids, h, pos)
    requires Fits(Shape(n, claimed, pos), p)
    ensures Explained(H, txids, Picks(Shape(n, claimed, pos), p), claimed, h, pos)
  {
    PlaceInTree(|txids|, h, pos);
    if p.flag && h > 0 {
      var t := Shape(|txids|, h, pos);
      var l, r := if t.Only? then t.child else t.left, if t.Only? then t.child else t.right;
      assert p.hash == H(NodeHash(H, l, txids), NodeHash(H, r, txids));
      assert Combined(H, p.hash);
    }
  }

  lemma OneExplained(H: PairHash, txids: seq<Hash>, found: seq<Match>, claimed: nat, h: nat, pos: nat)
    requires claimed > 0 && h > 0 && pos < Width(|txids|, h) && 2 * pos + 1 >= Width(|txids|, h - 1)
    requires Explained(H, txids, found, claimed - 1, h - 1, 2 * pos)
    ensures Explained(H, txids, found, claimed, h, pos)
  {
    ChildLeaves(|txids|, h, pos);
  }

  lemma TwoExplained(H: PairHash, txids: seq<Hash>, a: seq<Match>, b: seq<Match>, claimed: nat, h: nat, pos: nat)
    requires claimed > 0 && h > 0 && pos < Width(|txids|, h) && 2 * pos + 1 < Width(|txids|, h - 1)
    requires Explained(H, txids, a, claimed - 1, h - 1, 2 * pos)
    requires Explained(H, txids, b, claimed - 1, h - 1, 2 * pos + 1)
    ensures Explained(H, txids, a + b, claimed, h, pos)
  {
    ChildLeaves(|txids|, h, pos);
    if claimed == h {
      AuthenticJoin(a, b, txids, First(h, pos), First(h - 1, 2 * pos + 1), End(|txids|, h, pos));
    }
  }

  lemma {:induction false} PartialExplained(H: PairHash, n: nat, claimed: nat, txids: seq<Hash>, h: nat, pos: nat,
                                            p: Partial)
    requires CollisionFree(H) && ProperList(H, txids)
    requires Fits(Shape(n, claimed, pos), p) && Sound(H, p)
    requires pos < Width(|txids|, h) && RootOf(H, p) == HashAt(H, txids, h, pos)
    ensures Explained(H, txids, Picks(Shape(n, claimed, pos), p), claimed, h, pos)
    decreases p
  {
    match p
    case Stop(_, _) => StopExplained(H, n, claimed, txids, h, pos, p);
    case One(c) =>
      Descend(H, txids, h, pos, RootOf(H, c), RootOf(H, c));
      PartialExplained(H, n, claimed - 1, txids, h - 1, 2 * pos, c);
      OneExplained(H, txids, Picks(Shape(n, claimed, pos), p), claimed, h, pos);
    case Two(l, r) =>
      Descend(H, txids, h, pos, RootOf(H, l), RootOf(H, r));
      PartialExplained(H, n, claimed - 1, txids, h - 1, 2 * pos, l);
      PartialExplained(H, n, claimed - 1, txids, h - 1, 2 * pos + 1, r);
      TwoExplained(H, txids, Picks(Shape(n, claimed - 1, 2 * pos), l), Picks(Shape(n, claimed - 1, 2 * pos + 1), r),
                   claimed, h, pos);
  }

  /**
   Whatever number n of transactions is claimed: under the root of a list, a transaction id
   that is found is in the list at its index. With the height of the true tree all that is
   found is true; with a lower one only hashes of inner nodes are found; with a higher one
   nothing is.
   */
  lemma AuthenticatedWhateverCount(H: PairHash, n: nat, txids: seq<Hash>, parts: Parts, bad: bool)
    requires CollisionFree(H) && |txids| > 0 && ProperList(H, txids)
    requires ExtractAll(H, n, parts, bad).root == MerkleRoot(H, txids) != NULL_HASH
    ensures var found := ExtractAll(H, n, parts, bad).found;
            && (Height(n) == Height(|txids|) ==> Authentic(found, txids, 0, |txids|))
            && (Height(n) < Height(|txids|) ==> AllCombined(H, found))
            && (Height(n) > Height(|txids|) ==> found == [])
            && (forall i | 0 <= i < |found| && !Combined(H, found[i].txid) ::
                  found[i].index < |txids| && found[i].txid == txids[found[i].index])
  {
    var p := RootMeansProof(H, n, parts, bad);
    SingleTop(|txids|, 0);
    PartialExplained(H, n, Height(n), txids, Height(|txids|), 0, p);
  }

  /** The number matters: claimed to be alone, any hash is the root and the one match. */
  lemma ClaimedAlone(H: PairHash, root: Hash)
    ensures ExtractAll(H, 1, Parts([true], [root]), false) == Extraction(root, [Match(root, 0)], false)
  {
    assert Height(1) == 0;
    ProofMeansRoot(H, 1, Stop(root, true), Parts([true], [root]));
  }
}
