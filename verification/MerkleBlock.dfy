/**
 Partial Merkle trees: a subset of a block's transaction ids, written as flag bits and
 hashes in depth-first order so that the subset and the Merkle root can be recovered.
 The combining hash is a parameter; collision freedom is stated where it is needed.
 */
module MerkleBlock {
  import opened Numbers

  type Hash = int
  type PairHash = (Hash, Hash) -> Hash

  const NULL_HASH: Hash := 0
  const MAX_BLOCK_WEIGHT := 4000000
  const MIN_TRANSACTION_WEIGHT := 240

  ghost predicate CollisionFree(H: PairHash) {
    forall a, b, c, d :: H(a, b) == H(c, d) ==> a == c && b == d
  }

  ghost predicate Distinct(txids: seq<Hash>) {
    forall i, j | 0 <= i < j < |txids| :: txids[i] != txids[j]
  }

  // ---------- the shape of the tree ----------

  /** Nodes at a height above n leaves, as the shift formula gives it. */
  function CalcTreeWidth(n: nat, h: nat): nat {
    (n + Pow2(h) - 1) / Pow2(h)
  }

  /** The same count, pairing up the level below. */
  function Width(n: nat, h: nat): nat {
    if h == 0 then n else (Width(n, h - 1) + 1) / 2
  }

  function First(h: nat, pos: nat): nat { pos * Pow2(h) }

  /** A position holds a node exactly when its first leaf exists. */
  lemma {:induction false} InTree(n: nat, h: nat, pos: nat)
    ensures pos < Width(n, h) <==> First(h, pos) < n
  {
    if h > 0 {
      InTree(n, h - 1, 2 * pos);
      assert First(h, pos) == First(h - 1, 2 * pos);
    }
  }

  /** Rounding up once agrees with rounding up level by level. */
  lemma WidthIsCeiling(n: nat, h: nat)
    ensures CalcTreeWidth(n, h) == Width(n, h)
  {
    var w := Width(n, h);
    InTree(n, h, w);
    if w > 0 { InTree(n, h, w - 1); }
    CeilBounds(n, Pow2(h), w);
  }

  lemma CeilBounds(n: nat, d: nat, w: nat)
    requires d >= 1 && w * d >= n && (w == 0 || (w - 1) * d < n)
    ensures w == (n + d - 1) / d
  {
    var q, r := (n + d - 1) / d, (n + d - 1) % d;
    assert q * d + r == n + d - 1;
    if w < q { MulLt(w, q, d); } else if w > q { MulLe(q, w - 1, d); }
  }

  /** One past the last leaf under a node. */
  function End(n: nat, h: nat, pos: nat): nat { Min((pos + 1) * Pow2(h), n) }

  lemma ChildLeaves(n: nat, h: nat, pos: nat)
    requires h > 0 && pos < Width(n, h)
    ensures First(h - 1, 2 * pos) == First(h, pos) < End(n, h - 1, 2 * pos) <= End(n, h, pos) <= n
    ensures 2 * pos + 1 < Width(n, h - 1) ==>
              End(n, h - 1, 2 * pos) == First(h - 1, 2 * pos + 1) < End(n, h - 1, 2 * pos + 1) == End(n, h, pos)
    ensures 2 * pos + 1 >= Width(n, h - 1) ==> End(n, h - 1, 2 * pos) == End(n, h, pos)
  {
    Doubled(pos, Pow2(h - 1));
    InTree(n, h, pos);
    InTree(n, h - 1, 2 * pos + 1);
  }

  lemma Doubled(p: nat, d: nat)
    ensures (2 * p) * d == p * (2 * d) && (2 * p + 1) * d == p * (2 * d) + d
    ensures (2 * p + 1 + 1) * d == (p + 1) * (2 * d) == p * (2 * d) + 2 * d
  {
  }

  /** The first level at or above h with at most one node. */
  function HeightFrom(n: nat, h: nat): nat
    decreases Width(n, h)
  {
    if Width(n, h) <= 1 then h else HeightFrom(n, h + 1)
  }

  function Height(n: nat): nat { HeightFrom(n, 0) }

  lemma {:induction false} SingleTop(n: nat, h: nat)
    requires n > 0 && Width(n, h) >= 1
    ensures var top := HeightFrom(n, h); Width(n, top) == 1 && First(top, 0) == 0 && End(n, top, 0) == n
    decreases Width(n, h)
  {
    if Width(n, h) <= 1 { InTree(n, h, 1); } else { SingleTop(n, h + 1); }
  }

  method TreeHeight(n: nat) returns (h: nat)
    ensures h == Height(n)
  {
    h := 0;
    WidthIsCeiling(n, 0);
    while CalcTreeWidth(n, h) > 1
      invariant CalcTreeWidth(n, h) == Width(n, h)
      invariant HeightFrom(n, h) == Height(n)
      decreases Width(n, h)
    {
      h := h + 1;
      WidthIsCeiling(n, h);
    }
  }

  // ---------- the tree itself ----------

  /** What the traversals walk over: a node without a right child has an Only child. */
  datatype Tree = Leaf(pos: nat) | Only(child: Tree) | Both(left: Tree, right: Tree)

  /** The node at a height and position above n leaves. */
  function Shape(n: nat, h: nat, pos: nat): Tree
    decreases h
  {
    if h == 0 then Leaf(pos)
    else if 2 * pos + 1 < Width(n, h - 1) then Both(Shape(n, h - 1, 2 * pos), Shape(n, h - 1, 2 * pos + 1))
    else Only(Shape(n, h - 1, 2 * pos))
  }

  function Count(t: Tree): (c: nat)
    ensures c >= 1
  {
    match t
    case Leaf(_) => 1
    case Only(c) => Count(c)
    case Both(l, r) => Count(l) + Count(r)
  }

  /** All leaves are h levels down and are numbered from lo on, left to right. */
  predicate Spans(t: Tree, h: nat, lo: nat)
    decreases t
  {
    match t
    case Leaf(p) => h == 0 && lo == p
    case Only(c) => h > 0 && Spans(c, h - 1, lo)
    case Both(l, r) => h > 0 && Spans(l, h - 1, lo) && Spans(r, h - 1, lo + Count(l))
  }

  lemma {:induction false} ShapeSpans(n: nat, h: nat, pos: nat)
    requires pos < Width(n, h)
    ensures Spans(Shape(n, h, pos), h, First(h, pos))
    ensures First(h, pos) + Count(Shape(n, h, pos)) == End(n, h, pos) <= n
    decreases h
  {
    if h > 0 {
      ChildLeaves(n, h, pos);
      ShapeSpans(n, h - 1, 2 * pos);
      if 2 * pos + 1 < Width(n, h - 1) {
        ShapeSpans(n, h - 1, 2 * pos + 1);
      }
    }
  }

  /** The leaves are within a list of n. */
  predicate Within(t: Tree, n: nat) {
    match t
    case Leaf(p) => p < n
    case Only(c) => Within(c, n)
    case Both(l, r) => Within(l, n) && Within(r, n)
  }

  lemma {:induction false} SpansWithin(t: Tree, h: nat, lo: nat, n: nat)
    requires Spans(t, h, lo) && lo + Count(t) <= n
    ensures Within(t, n)
    decreases t
  {
    match t
    case Leaf(_) =>
    case Only(c) => SpansWithin(c, h - 1, lo, n);
    case Both(l, r) =>
      SpansWithin(l, h - 1, lo, n);
      SpansWithin(r, h - 1, lo + Count(l), n);
  }

  // ---------- hashes and matches ----------

  /** The hash of a node; a missing right child repeats the left one. */
  function NodeHash(H: PairHash, t: Tree, txids: seq<Hash>): Hash
    requires Within(t, |txids|)
  {
    match t
    case Leaf(p) => txids[p]
    case Only(c) => H(NodeHash(H, c, txids), NodeHash(H, c, txids))
    case Both(l, r) => H(NodeHash(H, l, txids), NodeHash(H, r, txids))
  }

  datatype Match = Match(txid: Hash, index: nat)

  /** The selected leaves under a node, in order. */
  function Under(t: Tree, txids: seq<Hash>, chosen: seq<bool>): seq<Match>
    requires Within(t, |txids|) && |chosen| == |txids|
  {
    match t
    case Leaf(p) => if chosen[p] then [Match(txids[p], p)] else []
    case Only(c) => Under(c, txids, chosen)
    case Both(l, r) => Under(l, txids, chosen) + Under(r, txids, chosen)
  }

  /** The selected leaves between lo and hi, in order. */
  function Selected(txids: seq<Hash>, chosen: seq<bool>, lo: nat, hi: nat): seq<Match>
    requires lo <= hi <= |txids| == |chosen|
  {
    if lo == hi then []
    else Selected(txids, chosen, lo, hi - 1) + if chosen[hi - 1] then [Match(txids[hi - 1], hi - 1)] else []
  }

  lemma {:induction false} SelectedSplit(txids: seq<Hash>, chosen: seq<bool>, lo: nat, mid: nat, hi: nat)
    requires lo <= mid <= hi <= |txids| == |chosen|
    ensures Selected(txids, chosen, lo, hi) == Selected(txids, chosen, lo, mid) + Selected(txids, chosen, mid, hi)
  {
    if mid < hi { SelectedSplit(txids, chosen, lo, mid, hi - 1); }
  }

  lemma {:induction false} NoneSelected(txids: seq<Hash>, chosen: seq<bool>, lo: nat, hi: nat)
    requires lo <= hi <= |txids| == |chosen|
    ensures Selected(txids, chosen, lo, hi) == [] <==> forall p | lo <= p < hi :: !chosen[p]
  {
    if lo < hi { NoneSelected(txids, chosen, lo, hi - 1); }
  }

  lemma {:induction false} UnderIsRange(t: Tree, h: nat, lo: nat, txids: seq<Hash>, chosen: seq<bool>)
    requires Spans(t, h, lo) && lo + Count(t) <= |txids| == |chosen| && Within(t, |txids|)
    ensures Under(t, txids, chosen) == Selected(txids, chosen, lo, lo + Count(t))
    decreases t
  {
    match t
    case Leaf(p) => assert Selected(txids, chosen, p, p) == [];
    case Only(c) => UnderIsRange(c, h - 1, lo, txids, chosen);
    case Both(l, r) =>
      UnderIsRange(l, h - 1, lo, txids, chosen);
      UnderIsRange(r, h - 1, lo + Count(l), txids, chosen);
      SelectedSplit(txids, chosen, lo, lo + Count(l), lo + Count(t));
  }

  // ---------- building ----------

  datatype Parts = Parts(bits: seq<bool>, hashes: seq<Hash>)

  function Build(H: PairHash, t: Tree, txids: seq<Hash>, chosen: seq<bool>): (parts: Parts)
    requires Within(t, |txids|) && |chosen| == |txids|
  {
    var parent := Under(t, txids, chosen) != [];
    if t.Leaf? || !parent then Parts([parent], [NodeHash(H, t, txids)])
    else if t.Only? then
      var only := Build(H, t.child, txids, chosen);
      Parts([true] + only.bits, only.hashes)
    else
      var left, right := Build(H, t.left, txids, chosen), Build(H, t.right, txids, chosen);
      Parts([true] + left.bits + right.bits, left.hashes + right.hashes)
  }

  // ---------- extracting ----------

  /** What a traversal used up, produced and found wrong, and the hash it returned. */
  datatype Walk = Walk(bitsUsed: nat, hashUsed: nat, found: seq<Match>, bad: bool, hash: Hash)

  function Extract(H: PairHash, t: Tree, parts: Parts, b: nat, k: nat): Walk {
    if b >= |parts.bits| then Walk(b, k, [], true, NULL_HASH)
    else if t.Leaf? || !parts.bits[b] then
      if k >= |parts.hashes| then Walk(b + 1, k, [], true, NULL_HASH)
      else Walk(b + 1, k + 1, if t.Leaf? && parts.bits[b] then [Match(parts.hashes[k], t.pos)] else [], false,
          parts.hashes[k])
    else if t.Only? then
      var only := Extract(H, t.child, parts, b + 1, k);
      only.(hash := H(only.hash, only.hash))
    else
      var left := Extract(H, t.left, parts, b + 1, k);
      var right := Extract(H, t.right, parts, left.bitsUsed, left.hashUsed);
      Walk(right.bitsUsed, right.hashUsed, left.found + right.found,
           left.bad || right.bad || right.hash == left.hash, H(left.hash, right.hash))
  }

  // ---------- extraction is authenticated ----------

  /** Each pair is the list's own txid at its index; indices rise strictly within the range. */
  ghost predicate Authentic(found: seq<Match>, txids: seq<Hash>, lo: nat, hi: nat) {
    && hi <= |txids|
    && (forall k | 0 <= k < |found| :: lo <= found[k].index < hi && found[k].txid == txids[found[k].index])
    && (forall k, l | 0 <= k < l < |found| :: found[k].index < found[l].index)
  }

  lemma AuthenticJoin(a: seq<Match>, b: seq<Match>, txids: seq<Hash>, lo: nat, mid: nat, hi: nat)
    requires lo <= mid <= hi && Authentic(a, txids, lo, mid) && Authentic(b, txids, mid, hi)
    ensures Authentic(a + b, txids, lo, hi)
  {
  }

  /** Whatever the bits and hashes, a subtree with the right hash yields only true leaves. */
  lemma {:induction false} SubtreeAuthentic(H: PairHash, t: Tree, h: nat, lo: nat, txids: seq<Hash>, parts: Parts,
                            b: nat, k: nat)
    requires CollisionFree(H) && Spans(t, h, lo) && lo + Count(t) <= |txids| && Within(t, |txids|)
    requires !Extract(H, t, parts, b, k).bad && Extract(H, t, parts, b, k).hash == NodeHash(H, t, txids)
    ensures Authentic(Extract(H, t, parts, b, k).found, txids, lo, lo + Count(t))
    decreases t
  {
    if !t.Leaf? && parts.bits[b] {
      if t.Only? {
        SubtreeAuthentic(H, t.child, h - 1, lo, txids, parts, b + 1, k);
      } else {
        var mid := lo + Count(t.left);
        var left := Extract(H, t.left, parts, b + 1, k);
        var right := Extract(H, t.right, parts, left.bitsUsed, left.hashUsed);
        SubtreeAuthentic(H, t.left, h - 1, lo, txids, parts, b + 1, k);
        SubtreeAuthentic(H, t.right, h - 1, mid, txids, parts, left.bitsUsed, left.hashUsed);
        AuthenticJoin(left.found, right.found, txids, lo, mid, lo + Count(t));
      }
    }
  }

  // ---------- extraction undoes building ----------

  /** Nodes of one level have different hashes when the leaves differ. */
  lemma {:induction false} NodesDiffer(H: PairHash, txids: seq<Hash>, h: nat, t: Tree, lo: nat, u: Tree, lo': nat)
    requires CollisionFree(H) && Distinct(txids) && Within(t, |txids|) && Within(u, |txids|)
    requires Spans(t, h, lo) && Spans(u, h, lo') && lo != lo'
    ensures NodeHash(H, t, txids) != NodeHash(H, u, txids)
    decreases h
  {
    if h > 0 {
      var c, d := if t.Only? then t.child else t.left, if u.Only? then u.child else u.left;
      NodesDiffer(H, txids, h - 1, c, lo, d, lo');
    }
  }

  ghost predicate FoundAt<T>(whole: seq<T>, part: seq<T>, at: nat) {
    at + |part| <= |whole| && forall i | 0 <= i < |part| :: whole[at + i] == part[i]
  }

  lemma FoundSplit<T>(whole: seq<T>, a: seq<T>, b: seq<T>, at: nat)
    requires FoundAt(whole, a + b, at)
    ensures FoundAt(whole, a, at) && FoundAt(whole, b, at + |a|)
  {
    forall i | 0 <= i < |a| ensures whole[at + i] == a[i] { assert (a + b)[i] == a[i]; }
    forall i | 0 <= i < |b| ensures whole[at + |a| + i] == b[i] { assert (a + b)[|a| + i] == b[i]; }
  }

  ghost predicate HoldsAt(parts: Parts, part: Parts, b: nat, k: nat) {
    FoundAt(parts.bits, part.bits, b) && FoundAt(parts.hashes, part.hashes, k)
  }

  lemma SplitPart(parts: Parts, parent: bool, left: Parts, right: Parts, b: nat, k: nat)
    requires HoldsAt(parts, Parts([parent] + left.bits + right.bits, left.hashes + right.hashes), b, k)
    ensures b < |parts.bits| && parts.bits[b] == parent
    ensures HoldsAt(parts, left, b + 1, k)
    ensures HoldsAt(parts, right, b + 1 + |left.bits|, k + |left.hashes|)
  {
    FoundSplit(parts.bits, [parent] + left.bits, right.bits, b);
    FoundSplit(parts.bits, [parent], left.bits, b);
    assert parts.bits[b + 0] == [parent][0];
    FoundSplit(parts.hashes, left.hashes, right.hashes, k);
  }

  /** The traversal from here finds the node's hash and its selected leaves, using up what was built. */
  ghost predicate Recovered(H: PairHash, t: Tree, txids: seq<Hash>, chosen: seq<bool>, parts: Parts, b: nat, k: nat)
    requires Within(t, |txids|) && |chosen| == |txids|
  {
    var part := Build(H, t, txids, chosen);
    Extract(H, t, parts, b, k) ==
    Walk(b + |part.bits|, k + |part.hashes|, Under(t, txids, chosen), false, NodeHash(H, t, txids))
  }

  lemma RecoveredBoth(H: PairHash, t: Tree, txids: seq<Hash>, chosen: seq<bool>, parts: Parts, b: nat, k: nat)
    requires t.Both? && Within(t, |txids|) && |chosen| == |txids| && Under(t, txids, chosen) != []
    requires b < |parts.bits| && parts.bits[b]
    requires Recovered(H, t.left, txids, chosen, parts, b + 1, k)
    requires var left := Build(H, t.left, txids, chosen);
             Recovered(H, t.right, txids, chosen, parts, b + 1 + |left.bits|, k + |left.hashes|)
    requires NodeHash(H, t.left, txids) != NodeHash(H, t.right, txids)
    ensures Recovered(H, t, txids, chosen, parts, b, k)
  {
  }

  lemma RecoveredOnly(H: PairHash, t: Tree, txids: seq<Hash>, chosen: seq<bool>, parts: Parts, b: nat, k: nat)
    requires t.Only? && Within(t, |txids|) && |chosen| == |txids| && Under(t, txids, chosen) != []
    requires b < |parts.bits| && parts.bits[b]
    requires Recovered(H, t.child, txids, chosen, parts, b + 1, k)
    ensures Recovered(H, t, txids, chosen, parts, b, k)
  {
  }

  lemma RecoveredAtOnce(H: PairHash, t: Tree, txids: seq<Hash>, chosen: seq<bool>, parts: Parts, b: nat, k: nat)
    requires Within(t, |txids|) && |chosen| == |txids| && (t.Leaf? || Under(t, txids, chosen) == [])
    requires HoldsAt(parts, Build(H, t, txids, chosen), b, k)
    ensures Recovered(H, t, txids, chosen, parts, b, k)
  {
    var part := Build(H, t, txids, chosen);
    assert parts.bits[b + 0] == part.bits[0] && parts.hashes[k + 0] == part.hashes[0];
  }

  /** What was built for a node holds what was built for its children. */
  lemma OnlyHolds(H: PairHash, t: Tree, txids: seq<Hash>, chosen: seq<bool>, parts: Parts, b: nat, k: nat)
    requires t.Only? && Within(t, |txids|) && |chosen| == |txids| && Under(t, txids, chosen) != []
    requires HoldsAt(parts, Build(H, t, txids, chosen), b, k)
    ensures b < |parts.bits| && parts.bits[b]
    ensures HoldsAt(parts, Build(H, t.child, txids, chosen), b + 1, k)
  {
    var only := Build(H, t.child, txids, chosen);
    assert [true] + only.bits == [true] + only.bits + [] && only.hashes == only.hashes + [];
    SplitPart(parts, true, only, Parts([], []), b, k);
  }

  lemma BothHold(H: PairHash, t: Tree, txids: seq<Hash>, chosen: seq<bool>, parts: Parts, b: nat, k: nat)
    requires t.Both? && Within(t, |txids|) && |chosen| == |txids| && Under(t, txids, chosen) != []
    requires HoldsAt(parts, Build(H, t, txids, chosen), b, k)
    ensures b < |parts.bits| && parts.bits[b]
    ensures var left := Build(H, t.left, txids, chosen);
            && HoldsAt(parts, left, b + 1, k)
            && HoldsAt(parts, Build(H, t.right, txids, chosen), b + 1 + |left.bits|, k + |left.hashes|)
  {
    SplitPart(parts, true, Build(H, t.left, txids, chosen), Build(H, t.right, txids, chosen), b, k);
  }

  lemma {:induction false} SubtreeRoundTrip(H: PairHash, t: Tree, h: nat, lo: nat, txids: seq<Hash>, chosen: seq<bool>,
                            parts: Parts, b: nat, k: nat)
    requires CollisionFree(H) && Distinct(txids) && |chosen| == |txids|
    requires Spans(t, h, lo) && Within(t, |txids|)
    requires HoldsAt(parts, Build(H, t, txids, chosen), b, k)
    ensures Recovered(H, t, txids, chosen, parts, b, k)
    decreases t
  {
    if t.Leaf? || Under(t, txids, chosen) == [] {
      RecoveredAtOnce(H, t, txids, chosen, parts, b, k);
    } else if t.Only? {
      OnlyHolds(H, t, txids, chosen, parts, b, k);
      SubtreeRoundTrip(H, t.child, h - 1, lo, txids, chosen, parts, b + 1, k);
      RecoveredOnly(H, t, txids, chosen, parts, b, k);
    } else {
      BothHold(H, t, txids, chosen, parts, b, k);
      var left, mid := Build(H, t.left, txids, chosen), lo + Count(t.left);
      SubtreeRoundTrip(H, t.left, h - 1, lo, txids, chosen, parts, b + 1, k);
      SubtreeRoundTrip(H, t.right, h - 1, mid, txids, chosen, parts, b + 1 + |left.bits|, k + |left.hashes|);
      NodesDiffer(H, txids, h - 1, t.left, lo, t.right, mid);
      RecoveredBoth(H, t, txids, chosen, parts, b, k);
    }
  }

  // ---------- how much is stored ----------

  lemma PathBound(l: nat, r: nat, h: nat)
    requires h > 0 && l + r >= 1
    ensures 2 + l * (h - 1) + r * (h - 1) <= 1 + (l + r) * h
  {
    assert (l + r) * h == l * (h - 1) + r * (h - 1) + (l + r);
  }

  /** At most one hash per leaf, one bit or more per hash, and 1 + matches * height hashes. */
  lemma {:induction false} SubtreeSize(H: PairHash, t: Tree, h: nat, lo: nat, txids: seq<Hash>, chosen: seq<bool>)
    requires Spans(t, h, lo) && Within(t, |txids|) && |chosen| == |txids|
    ensures var part := Build(H, t, txids, chosen);
            && |part.hashes| <= Count(t)
            && |part.hashes| <= |part.bits|
            && |part.hashes| <= 1 + |Under(t, txids, chosen)| * h
    decreases t
  {
    var m := |Under(t, txids, chosen)|;
    assert m * h >= 0;
    if !t.Leaf? && m > 0 {
      if t.Only? {
        SubtreeSize(H, t.child, h - 1, lo, txids, chosen);
        PathBound(m, 0, h);
      } else {
        SubtreeSize(H, t.left, h - 1, lo, txids, chosen);
        SubtreeSize(H, t.right, h - 1, lo + Count(t.left), txids, chosen);
        PathBound(|Under(t.left, txids, chosen)|, |Under(t.right, txids, chosen)|, h);
      }
    }
  }

  // ---------- whole trees ----------

  function Top(n: nat): Tree { Shape(n, Height(n), 0) }

  lemma TopSpans(n: nat)
    requires n > 0
    ensures Spans(Top(n), Height(n), 0) && Count(Top(n)) == n && Within(Top(n), n)
  {
    SingleTop(n, 0);
    ShapeSpans(n, Height(n), 0);
    SpansWithin(Top(n), Height(n), 0, n);
  }

  function MerkleRoot(H: PairHash, txids: seq<Hash>): Hash
    requires |txids| > 0
  {
    TopSpans(|txids|);
    NodeHash(H, Top(|txids|), txids)
  }

  function BuildAll(H: PairHash, txids: seq<Hash>, chosen: seq<bool>): Parts
    requires |chosen| == |txids| > 0
  {
    TopSpans(|txids|);
    Build(H, Top(|txids|), txids, chosen)
  }

  datatype Extraction = Extraction(root: Hash, found: seq<Match>, bad: bool)

  /** All checks of an extraction; a null root reports failure. */
  function ExtractAll(H: PairHash, n: nat, parts: Parts, bad: bool): Extraction {
    if n == 0 || n > MAX_BLOCK_WEIGHT / MIN_TRANSACTION_WEIGHT || |parts.hashes| > n
        || |parts.bits| < |parts.hashes| then
      Extraction(NULL_HASH, [], bad)
    else
      var w := Extract(H, Top(n), parts, 0, 0);
      var ok := !bad && !w.bad && (w.bitsUsed + 7) / 8 == (|parts.bits| + 7) / 8 && w.hashUsed == |parts.hashes|;
      Extraction(if ok then w.hash else NULL_HASH, w.found, bad || w.bad)
  }

  /** Any bits and hashes that yield the true root yield only true (txid, index) pairs. */
  lemma ExtractionIsAuthenticated(H: PairHash, txids: seq<Hash>, parts: Parts, bad: bool)
    requires CollisionFree(H) && |txids| > 0
    requires ExtractAll(H, |txids|, parts, bad).root == MerkleRoot(H, txids) != NULL_HASH
    ensures Authentic(ExtractAll(H, |txids|, parts, bad).found, txids, 0, |txids|)
  {
    TopSpans(|txids|);
    SubtreeAuthentic(H, Top(|txids|), Height(|txids|), 0, txids, parts, 0, 0);
  }

  lemma BuiltSize(H: PairHash, txids: seq<Hash>, chosen: seq<bool>)
    requires |chosen| == |txids| > 0
    ensures var parts := BuildAll(H, txids, chosen);
            && |parts.hashes| <= |txids|
            && |parts.hashes| <= |parts.bits|
            && |parts.hashes| <= 1 + |Selected(txids, chosen, 0, |txids|)| * Height(|txids|)
  {
    TopSpans(|txids|);
    SubtreeSize(H, Top(|txids|), Height(|txids|), 0, txids, chosen);
    UnderIsRange(Top(|txids|), Height(|txids|), 0, txids, chosen);
  }

  /** Extracting what was built, padded to whole bytes or not, gives back exactly the selection. */
  lemma ExtractionUndoesBuilding(H: PairHash, txids: seq<Hash>, chosen: seq<bool>, pad: seq<bool>)
    requires CollisionFree(H) && Distinct(txids)
    requires 0 < |txids| == |chosen| <= MAX_BLOCK_WEIGHT / MIN_TRANSACTION_WEIGHT
    requires var n := |BuildAll(H, txids, chosen).bits|; (n + |pad| + 7) / 8 == (n + 7) / 8
    ensures var parts := BuildAll(H, txids, chosen);
            ExtractAll(H, |txids|, Parts(parts.bits + pad, parts.hashes), false) ==
            Extraction(MerkleRoot(H, txids), Selected(txids, chosen, 0, |txids|), false)
  {
    var n, parts := |txids|, BuildAll(H, txids, chosen);
    TopSpans(n);
    BuiltSize(H, txids, chosen);
    SubtreeRoundTrip(H, Top(n), Height(n), 0, txids, chosen, Parts(parts.bits + pad, parts.hashes), 0, 0);
    UnderIsRange(Top(n), Height(n), 0, txids, chosen);
  }

  /** Nodes with a match below them but no right child. */
  function Unpaired(t: Tree, txids: seq<Hash>, chosen: seq<bool>): nat
    requires Within(t, |txids|) && |chosen| == |txids|
  {
    if t.Leaf? || Under(t, txids, chosen) == [] then 0
    else if t.Only? then 1 + Unpaired(t.child, txids, chosen)
    else Unpaired(t.left, txids, chosen) + Unpaired(t.right, txids, chosen)
  }

  lemma {:induction false} SubtreeBits(H: PairHash, t: Tree, txids: seq<Hash>, chosen: seq<bool>)
    requires Within(t, |txids|) && |chosen| == |txids|
    ensures var part := Build(H, t, txids, chosen);
            |part.bits| == 2 * |part.hashes| - 1 + Unpaired(t, txids, chosen)
  {
    if !t.Leaf? && Under(t, txids, chosen) != [] {
      if t.Only? {
        SubtreeBits(H, t.child, txids, chosen);
      } else {
        SubtreeBits(H, t.left, txids, chosen);
        SubtreeBits(H, t.right, txids, chosen);
      }
    }
  }

  /** The documented bound of 2 * hashes - 1 bits holds exactly when no unpaired node leads to a match. */
  lemma BitBoundExactlyWhenPaired(H: PairHash, txids: seq<Hash>, chosen: seq<bool>)
    requires |chosen| == |txids| > 0
    ensures Within(Top(|txids|), |txids|)
    ensures var parts := BuildAll(H, txids, chosen);
            |parts.bits| <= 2 * |parts.hashes| - 1 <==> Unpaired(Top(|txids|), txids, chosen) == 0
  {
    TopSpans(|txids|);
    SubtreeBits(H, Top(|txids|), txids, chosen);
  }

  /** Three transactions with only the last selected take two hashes but four bits. */
  lemma BitBoundCanFail(H: PairHash, a: Hash, b: Hash, c: Hash)
    ensures var parts := BuildAll(H, [a, b, c], [false, false, true]); |parts.hashes| == 2 && |parts.bits| == 4
  {
    var txids, chosen := [a, b, c], [false, false, true];
    assert Width(3, 1) == 2 && Width(3, 2) == 1;
    assert HeightFrom(3, 1) == 2 && Height(3) == 2;
    assert Shape(3, 1, 0) == Both(Leaf(0), Leaf(1)) && Shape(3, 1, 1) == Only(Leaf(2));
    var left, right := Both(Leaf(0), Leaf(1)), Only(Leaf(2));
    assert Top(3) == Both(left, right);
    assert Under(left, txids, chosen) == [] && Under(right, txids, chosen) == [Match(c, 2)];
    assert Build(H, Leaf(2), txids, chosen) == Parts([true], [c]);
    assert Build(H, right, txids, chosen) == Parts([true, true], [c]);
    assert |Build(H, left, txids, chosen).bits| == |Build(H, left, txids, chosen).hashes| == 1;
    TopSpans(3);
    assert |txids| == 3 && Under(Top(3), txids, chosen) == [Match(c, 2)];
    assert BuildAll(H, txids, chosen) == Build(H, Both(left, right), txids, chosen);
  }

  // ---------- flag bits as bytes ----------

  predicate BitOf(b: bv8, k: nat)
    requires k < 8
  {
    b & (1 << k) != 0
  }

  /** The bits of a byte string, least significant first. */
  function Unpacked(bytes: seq<bv8>): (bits: seq<bool>)
    ensures |bits| == 8 * |bytes|
  {
    seq(8 * |bytes|, p requires 0 <= p < 8 * |bytes| => BitOf(bytes[p / 8], p % 8))
  }

  lemma SetBit(b: bv8, bit: bool, k: nat, j: nat)
    requires k < 8 && j < 8
    ensures BitOf(b | ((if bit then 1 else 0) << k), j) <==> BitOf(b, j) || (bit && j == k)
  {
  }

  lemma SamePlace(p: nat, q: nat)
    ensures p / 8 == q / 8 && p % 8 == q % 8 <==> p == q
  {
  }

  method Pack(vBits: seq<bool>) returns (vBytes: seq<bv8>)
    ensures |vBytes| == (|vBits| + 7) / 8
    ensures vBits <= Unpacked(vBytes)
    ensures forall p | |vBits| <= p < 8 * |vBytes| :: !Unpacked(vBytes)[p]
  {
    vBytes := seq((|vBits| + 7) / 8, _ => 0);
    for p := 0 to |vBits|
      invariant |vBytes| == (|vBits| + 7) / 8
      invariant forall q | 0 <= q < 8 * |vBytes| :: BitOf(vBytes[q / 8], q % 8) <==> q < p && vBits[q]
    {
      ghost var before := vBytes;
      vBytes := vBytes[p / 8 := vBytes[p / 8] | ((if vBits[p] then 1 else 0) << (p % 8))];
      forall q | 0 <= q < 8 * |vBytes|
        ensures BitOf(vBytes[q / 8], q % 8) <==> q < p + 1 && vBits[q]
      {
        SetBit(before[p / 8], vBits[p], p % 8, q % 8);
        assert BitOf(before[q / 8], q % 8) <==> q < p && vBits[q];
        SamePlace(p, q);
      }
    }
  }

  method Unpack(vBytes: seq<bv8>) returns (vBits: seq<bool>)
    ensures vBits == Unpacked(vBytes)
  {
    vBits := seq(8 * |vBytes|, _ => false);
    for p := 0 to |vBits|
      invariant |vBits| == 8 * |vBytes|
      invariant forall q | 0 <= q < p :: vBits[q] == Unpacked(vBytes)[q]
    {
      vBits := vBits[p := vBytes[p / 8] & (1 << (p % 8)) != 0];
    }
  }

  /** The same through bytes and back. */
  lemma ExtractionUndoesBuildingPacked(H: PairHash, txids: seq<Hash>, chosen: seq<bool>, vBytes: seq<bv8>)
    requires CollisionFree(H) && Distinct(txids)
    requires 0 < |txids| == |chosen| <= MAX_BLOCK_WEIGHT / MIN_TRANSACTION_WEIGHT
    requires var bits := BuildAll(H, txids, chosen).bits;
             |vBytes| == (|bits| + 7) / 8 && bits <= Unpacked(vBytes)
    ensures ExtractAll(H, |txids|, Parts(Unpacked(vBytes), BuildAll(H, txids, chosen).hashes), false) ==
            Extraction(MerkleRoot(H, txids), Selected(txids, chosen, 0, |txids|), false)
  {
    var bits := BuildAll(H, txids, chosen).bits;
    var pad := Unpacked(vBytes)[|bits|..];
    assert Unpacked(vBytes) == bits + pad;
    ExtractionUndoesBuilding(H, txids, chosen, pad);
  }

  // ---------- the object ----------

  function CalcHash(H: PairHash, n: nat, h: nat, pos: nat, vTxid: seq<Hash>): (hash: Hash)
    requires n == |vTxid| && pos < Width(n, h)
    ensures Within(Shape(n, h, pos), n) && hash == NodeHash(H, Shape(n, h, pos), vTxid)
    decreases h
  {
    if h == 0 then vTxid[pos]
    else
      var left := CalcHash(H, n, h - 1, 2 * pos, vTxid);
      WidthIsCeiling(n, h - 1);
      var right := if 2 * pos + 1 < CalcTreeWidth(n, h - 1) then CalcHash(H, n, h - 1, 2 * pos + 1, vTxid) else left;
      H(left, right)
  }

  function Txids(found: seq<Match>): (r: seq<Hash>)
    ensures |r| == |found|
  {
    seq(|found|, i requires 0 <= i < |found| => found[i].txid)
  }

  function Indices(found: seq<Match>): (r: seq<nat>)
    ensures |r| == |found|
  {
    seq(|found|, i requires 0 <= i < |found| => found[i].index)
  }

  lemma Appended<T>(a: seq<T>, b: seq<T>, c: seq<T>, d: seq<T>)
    ensures a + b + c == a + (b + c)
    ensures a + b + c + d == a + (b + c + d)
  {
  }

  lemma ListsJoin(vMatch: seq<Hash>, vnIndex: seq<nat>, a: seq<Match>, b: seq<Match>)
    ensures vMatch + Txids(a) + Txids(b) == vMatch + Txids(a + b)
    ensures vnIndex + Indices(a) + Indices(b) == vnIndex + Indices(a + b)
  {
  }

  /** A node is the parent of a match exactly when some leaf in its range is selected. */
  lemma ParentIsRange(n: nat, h: nat, pos: nat, txids: seq<Hash>, chosen: seq<bool>)
    requires |chosen| == |txids| == n && pos < Width(n, h)
    ensures Within(Shape(n, h, pos), n) && First(h, pos) < End(n, h, pos) <= n
    ensures Under(Shape(n, h, pos), txids, chosen) != []
            <==> exists q | First(h, pos) <= q < End(n, h, pos) :: chosen[q]
  {
    var t := Shape(n, h, pos);
    ShapeSpans(n, h, pos);
    SpansWithin(t, h, First(h, pos), n);
    UnderIsRange(t, h, First(h, pos), txids, chosen);
    NoneSelected(txids, chosen, First(h, pos), End(n, h, pos));
  }

  method HasRightChild(n: nat, h: nat, pos: nat) returns (r: bool)
    requires h > 0
    ensures r <==> 2 * pos + 1 < Width(n, h - 1)
    ensures Shape(n, h, pos) == if r then Both(Shape(n, h - 1, 2 * pos), Shape(n, h - 1, 2 * pos + 1))
            else Only(Shape(n, h - 1, 2 * pos))
  {
    WidthIsCeiling(n, h - 1);
    r := 2 * pos + 1 < CalcTreeWidth(n, h - 1);
  }

  method RangeHasMatch(lo: nat, end: nat, vMatch: seq<bool>) returns (r: bool)
    requires lo <= |vMatch| && lo <= end
    ensures r <==> exists q | lo <= q < Min(end, |vMatch|) :: vMatch[q]
  {
    r := false;
    var p := lo;
    while p < end && p < |vMatch|
      invariant lo <= p <= Min(end, |vMatch|)
      invariant r <==> exists q | lo <= q < p :: vMatch[q]
    {
      r := r || vMatch[p];
      p := p + 1;
    }
  }

  class PartialMerkleTree {
    const H: PairHash
    var nTransactions: nat
    var vBits: seq<bool>
    var vHash: seq<Hash>
    var fBad: bool

    constructor (H: PairHash, vTxid: seq<Hash>, vMatch: seq<bool>)
      requires |vMatch| == |vTxid| > 0
      ensures this.H == H && nTransactions == |vTxid| && !fBad
      ensures Parts(vBits, vHash) == BuildAll(H, vTxid, vMatch)
    {
      this.H, nTransactions, vBits, vHash, fBad := H, |vTxid|, [], [], false;
      new;
      SingleTop(|vTxid|, 0);
      var nHeight := TreeHeight(nTransactions);
      TraverseAndBuild(nHeight, 0, vTxid, vMatch, Top(nTransactions));
    }

    method ParentOfMatch(height: nat, pos: nat, vTxid: seq<Hash>, vMatch: seq<bool>) returns (r: bool)
      requires |vMatch| == |vTxid| == nTransactions && pos < Width(nTransactions, height)
      ensures Within(Shape(nTransactions, height, pos), nTransactions)
      ensures r <==> Under(Shape(nTransactions, height, pos), vTxid, vMatch) != []
    {
      ParentIsRange(nTransactions, height, pos, vTxid, vMatch);
      r := RangeHasMatch(pos * Pow2(height), (pos + 1) * Pow2(height), vMatch);
    }

    method TraverseAndBuild(height: nat, pos: nat, vTxid: seq<Hash>, vMatch: seq<bool>, ghost t: Tree)
      requires |vMatch| == |vTxid| == nTransactions && pos < Width(nTransactions, height)
      requires t == Shape(nTransactions, height, pos)
      modifies this`vBits, this`vHash
      ensures Within(t, |vTxid|)
      ensures vBits == old(vBits) + Build(H, t, vTxid, vMatch).bits
      ensures vHash == old(vHash) + Build(H, t, vTxid, vMatch).hashes
      decreases height
    {
      var fParentOfMatch := ParentOfMatch(height, pos, vTxid, vMatch);
      vBits := vBits + [fParentOfMatch];
      if height == 0 || !fParentOfMatch {
        vHash := vHash + [CalcHash(H, nTransactions, height, pos, vTxid)];
      } else {
        var right := HasRightChild(nTransactions, height, pos);
        ghost var c := if t.Both? then t.left else t.child;
        TraverseAndBuild(height - 1, 2 * pos, vTxid, vMatch, c);
        ghost var l := Build(H, c, vTxid, vMatch);
        if right {
          TraverseAndBuild(height - 1, 2 * pos + 1, vTxid, vMatch, t.right);
          ghost var r := Build(H, t.right, vTxid, vMatch);
          Appended(old(vBits), [true], l.bits, r.bits);
          Appended(old(vHash), l.hashes, r.hashes, []);
        } else {
          Appended(old(vBits), [true], l.bits, []);
        }
      }
    }

    method TraverseAndExtract(height: nat, pos: nat, nBitsUsed: nat, nHashUsed: nat, vMatch: seq<Hash>,
                              vnIndex: seq<nat>, ghost t: Tree)
      returns (hash: Hash, nBitsUsed': nat, nHashUsed': nat, vMatch': seq<Hash>, vnIndex': seq<nat>)
      requires t == Shape(nTransactions, height, pos)
      modifies this`fBad
      ensures var w := Extract(H, t, Parts(vBits, vHash), nBitsUsed, nHashUsed);
              && fBad == (old(fBad) || w.bad)
              && hash == w.hash && nBitsUsed' == w.bitsUsed && nHashUsed' == w.hashUsed
              && vMatch' == vMatch + Txids(w.found) && vnIndex' == vnIndex + Indices(w.found)
      decreases height
    {
      if nBitsUsed >= |vBits| {
        fBad := true;
        return NULL_HASH, nBitsUsed, nHashUsed, vMatch, vnIndex;
      }
      var fParentOfMatch := vBits[nBitsUsed];
      if height == 0 || !fParentOfMatch {
        if nHashUsed >= |vHash| {
          fBad := true;
          return NULL_HASH, nBitsUsed + 1, nHashUsed, vMatch, vnIndex;
        }
        hash := vHash[nHashUsed];
        if height == 0 && fParentOfMatch {
          return hash, nBitsUsed + 1, nHashUsed + 1, vMatch + [hash], vnIndex + [pos];
        }
        return hash, nBitsUsed + 1, nHashUsed + 1, vMatch, vnIndex;
      }
      var hasRight := HasRightChild(nTransactions, height, pos);
      var left, right;
      ghost var l := if t.Both? then t.left else t.child;
      left, nBitsUsed', nHashUsed', vMatch', vnIndex' :=
        TraverseAndExtract(height - 1, 2 * pos, nBitsUsed + 1, nHashUsed, vMatch, vnIndex, l);
      if hasRight {
        ghost var wl := Extract(H, l, Parts(vBits, vHash), nBitsUsed + 1, nHashUsed);
        ghost var wr := Extract(H, t.right, Parts(vBits, vHash), wl.bitsUsed, wl.hashUsed);
        right, nBitsUsed', nHashUsed', vMatch', vnIndex' :=
          TraverseAndExtract(height - 1, 2 * pos + 1, nBitsUsed', nHashUsed', vMatch', vnIndex', t.right);
        ListsJoin(vMatch, vnIndex, wl.found, wr.found);
        if right == left {
          fBad := true;
        }
      } else {
        right := left;
      }
      hash := H(left, right);
    }

    /** The indices are appended to what the caller passed in; the matches start afresh. */
    method ExtractMatches(vnIndex: seq<nat>) returns (root: Hash, vMatch: seq<Hash>, vnIndex': seq<nat>)
      modifies this`fBad
      ensures var r := ExtractAll(H, nTransactions, Parts(vBits, vHash), old(fBad));
              root == r.root && vMatch == Txids(r.found) && vnIndex' == vnIndex + Indices(r.found) && fBad == r.bad
    {
      if nTransactions == 0 || nTransactions > MAX_BLOCK_WEIGHT / MIN_TRANSACTION_WEIGHT || |vHash| > nTransactions
          || |vBits| < |vHash| {
        return NULL_HASH, [], vnIndex;
      }
      var nHeight := TreeHeight(nTransactions);
      var nBitsUsed, nHashUsed;
      root, nBitsUsed, nHashUsed, vMatch, vnIndex' := TraverseAndExtract(nHeight, 0, 0, 0, [], vnIndex,
          Top(nTransactions));
      if fBad || (nBitsUsed + 7) / 8 != (|vBits| + 7) / 8 || nHashUsed != |vHash| {
        root := NULL_HASH;
      }
    }
  }
}
