/**
 The rolling bloom filter. Every position carries a 2-bit generation mark, its low and its
 high bit in two parallel 64-bit words; 0 means unset, 1 to 3 the generation that last
 touched the position. Hashes are a parameter. What is proved of the filter holds of any
 words with bitwise operations; the 64-bit words of the repository are shown to be such.
 */
module Bloom {
  import opened Limbs
  import opened Numbers

  // ---------- words ----------

  const BITS: nat := 64

  /** Words of 64 bits: `fill` gives the word of equal bits, `one` that of a single bit. */
  datatype Words<!W(!new)> = Words(bit: (W, nat) -> bool, and: (W, W) -> W, or: (W, W) -> W, xor: (W, W) -> W,
      not: W -> W,
                                   one: nat -> W, fill: bool -> W)
  {
    ghost predicate BitwiseAt(x: W, y: W, k: nat) {
      k < BITS ==>
        && (bit(and(x, y), k) <==> bit(x, k) && bit(y, k))
        && (bit(or(x, y), k) <==> bit(x, k) || bit(y, k))
        && (bit(xor(x, y), k) <==> bit(x, k) != bit(y, k))
        && (bit(not(x), k) <==> !bit(x, k))
    }

    ghost predicate ConstantAt(b: nat, v: bool, k: nat) {
      b < BITS && k < BITS ==> (bit(one(b), k) <==> b == k) && (bit(fill(v), k) <==> v)
    }

    ghost predicate Lawful() {
      (forall x, y, k :: BitwiseAt(x, y, k)) && (forall b, v, k :: ConstantAt(b, v, k))
    }

    /** The word with one bit set to a value. */
    function WithBit(x: W, b: nat, v: bool): W {
      or(and(x, not(one(b))), if v then one(b) else fill(false))
    }

    /** The mask of the bits of two words whose mark is not a given one. */
    function KeepMask(p1: W, p2: W, g: nat): W {
      or(xor(p1, fill(g % 2 == 1)), xor(p2, fill(g / 2 == 1)))
    }
  }

  lemma WithBitAt<W(!new)>(w: Words<W>, x: W, b: nat, v: bool, k: nat)
    requires w.Lawful() && b < BITS && k < BITS
    ensures w.bit(w.WithBit(x, b, v), k) <==> if k == b then v else w.bit(x, k)
  {
    var cleared := w.and(x, w.not(w.one(b)));
    assert w.ConstantAt(b, false, k) && w.BitwiseAt(w.one(b), x, k);
    assert w.BitwiseAt(x, w.not(w.one(b)), k);
    assert w.BitwiseAt(cleared, if v then w.one(b) else w.fill(false), k);
  }

  // ---------- marks ----------

  function Mark(low: bool, high: bool): nat {
    (if low then 1 else 0) + (if high then 2 else 0)
  }

  /** Masking clears exactly the positions with that mark. */
  lemma WipedBits<W(!new)>(w: Words<W>, p1: W, p2: W, g: nat, k: nat)
    requires w.Lawful() && 1 <= g <= 3 && k < BITS
    ensures var m := w.KeepMask(p1, p2, g);
            Mark(w.bit(w.and(p1, m), k), w.bit(w.and(p2, m), k))
            == if Mark(w.bit(p1, k), w.bit(p2, k)) == g then 0 else Mark(w.bit(p1, k), w.bit(p2, k))
  {
    var m1, m2 := w.fill(g % 2 == 1), w.fill(g / 2 == 1);
    var m := w.KeepMask(p1, p2, g);
    assert w.ConstantAt(0, g % 2 == 1, k) && w.ConstantAt(0, g / 2 == 1, k);
    assert w.BitwiseAt(p1, m1, k) && w.BitwiseAt(p2, m2, k);
    assert w.BitwiseAt(w.xor(p1, m1), w.xor(p2, m2), k);
    assert w.BitwiseAt(p1, m, k) && w.BitwiseAt(p2, m, k);
  }

  /** The mark of bit k of the pair of words at 2 i and 2 i + 1. */
  function MarkAt<W(!new)>(w: Words<W>, data: seq<W>, i: nat, k: nat): nat
    requires 2 * i + 1 < |data|
  {
    Mark(w.bit(data[2 * i], k), w.bit(data[2 * i + 1], k))
  }

  /** The data with one position marked. */
  function Marked<W(!new)>(w: Words<W>, data: seq<W>, i: nat, k: nat, g: nat): (r: seq<W>)
    requires 2 * i + 1 < |data|
    ensures |r| == |data|
  {
    data[2 * i := w.WithBit(data[2 * i], k, g % 2 == 1)][2 * i + 1 := w.WithBit(data[2 * i + 1], k, g / 2 == 1)]
  }

  lemma MarkedAt<W(!new)>(w: Words<W>, data: seq<W>, i: nat, k: nat, g: nat, i': nat, k': nat)
    requires w.Lawful() && 2 * i + 1 < |data| && 2 * i' + 1 < |data| && k < BITS && k' < BITS && 1 <= g <= 3
    ensures MarkAt(w, Marked(w, data, i, k, g), i', k') == if i' == i && k' == k then g else MarkAt(w, data, i', k')
  {
    if i' == i {
      WithBitAt(w, data[2 * i], k, g % 2 == 1, k');
      WithBitAt(w, data[2 * i + 1], k, g / 2 == 1, k');
    }
  }

  predicate WipedAt<W(!new)>(w: Words<W>, was: seq<W>, now: seq<W>, g: nat, i: nat, k: nat)
    requires |was| == |now|
  {
    2 * i + 1 < |was| && k < BITS ==>
      MarkAt(w, now, i, k) == if MarkAt(w, was, i, k) == g then 0 else MarkAt(w, was, i, k)
  }

  /** Every position with a given mark is unset, and no other one is touched. */
  ghost predicate Wiped<W(!new)>(w: Words<W>, was: seq<W>, now: seq<W>, g: nat) {
    |was| == |now| && forall i: nat, k: nat :: WipedAt(w, was, now, g, i, k)
  }

  /** The loop of the filter over its pairs of words. */
  method Wipe<W(!new)>(w: Words<W>, was: seq<W>, g: nat) returns (data: seq<W>)
    requires w.Lawful() && |was| % 2 == 0 && 1 <= g <= 3
    ensures Wiped(w, was, data, g)
  {
    data := was;
    var p := 0;
    while p < |data|
      invariant |data| == |was| && p % 2 == 0 && p <= |data|
      invariant forall i: nat, k: nat :: 2 * i < p ==> WipedAt(w, was, data, g, i, k)
      invariant forall j | p <= j < |data| :: data[j] == was[j]
    {
      var p1, p2 := data[p], data[p + 1];
      var mask := w.KeepMask(p1, p2, g);
      ghost var before := data;
      data := data[p := w.and(p1, mask)][p + 1 := w.and(p2, mask)];
      WipeStep(w, was, before, data, g, p / 2);
      p := p + 2;
    }
    forall i: nat, k: nat ensures WipedAt(w, was, data, g, i, k) { assert 2 * i + 1 < |was| ==> 2 * i < p; }
  }

  lemma WipeStep<W(!new)>(w: Words<W>, was: seq<W>, before: seq<W>, data: seq<W>, g: nat, n: nat)
    requires w.Lawful() && 1 <= g <= 3 && |before| == |data| == |was| && 2 * n + 1 < |was|
    requires forall i: nat, k: nat :: 2 * i < 2 * n ==> WipedAt(w, was, before, g, i, k)
    requires before[2 * n] == was[2 * n] && before[2 * n + 1] == was[2 * n + 1]
    requires var m := w.KeepMask(was[2 * n], was[2 * n + 1], g);
             data == before[2 * n := w.and(was[2 * n], m)][2 * n + 1 := w.and(was[2 * n + 1], m)]
    ensures forall i: nat, k: nat :: 2 * i < 2 * n + 2 ==> WipedAt(w, was, data, g, i, k)
  {
    forall i: nat, k: nat | 2 * i < 2 * n + 2 ensures WipedAt(w, was, data, g, i, k) {
      if i == n {
        if k < BITS { WipedBits(w, was[2 * n], was[2 * n + 1], g, k); }
      } else {
        assert WipedAt(w, was, before, g, i, k);
      }
    }
  }

  // ---------- positions ----------

  /** A 32-bit hash per hash function, tweak and key; its low bits choose the bit, its high bits the word. */
  datatype Hasher<!K(!new)> = Hasher(hash: (nat, nat, K) -> nat)
  {
    function BitOf(n: nat, tweak: nat, key: K): (k: nat)
      ensures k < BITS
    {
      hash(n, tweak, key) % BITS
    }

    function FastMod(n: nat, tweak: nat, key: K, size: nat): (pos: nat)
      requires size > 0
      ensures pos < size
    {
      MulLt(hash(n, tweak, key) % BASE, BASE, size);
      QuotientBounds((hash(n, tweak, key) % BASE) * size, BASE);
      ((hash(n, tweak, key) % BASE) * size) / BASE
    }

    /** The pair of words of a position. */
    function PairOf(n: nat, tweak: nat, key: K, size: nat): (i: nat)
      requires size > 0 && size % 2 == 0
      ensures 2 * i + 1 < size
    {
      FastMod(n, tweak, key, size) / 2
    }
  }

  // ---------- generations ----------

  function Generation(block: nat): (g: nat)
    ensures 1 <= g <= 3
  {
    block % 3 + 1
  }

  /** What the filter is made of. */
  datatype Shape<!K(!new), !W(!new)> = Shape(h: Hasher<K>, w: Words<W>, funcs: nat, perGeneration: nat)
  {
    /** Hash function n sends a key to position k of pair i. */
    predicate Hits(tweak: nat, size: nat, key: K, n: nat, i: nat, k: nat)
      requires size > 0 && size % 2 == 0
    {
      h.PairOf(n, tweak, key, size) == i && h.BitOf(n, tweak, key) == k
    }

    /** One of the first n hash functions does. */
    predicate Touches(tweak: nat, size: nat, key: K, n: nat, i: nat, k: nat)
      requires size > 0 && size % 2 == 0
    {
      exists m: nat | m < n :: Hits(tweak, size, key, m, i, k)
    }

    /** The last key that has this position, or -1. */
    function LastTouch(tweak: nat, size: nat, history: seq<K>, i: nat, k: nat): (j: int)
      requires size > 0 && size % 2 == 0
      ensures -1 <= j < |history|
    {
      if history == [] then -1
      else if Touches(tweak, size, history[|history| - 1], funcs, i, k) then |history| - 1
      else LastTouch(tweak, size, history[..|history| - 1], i, k)
    }

    /** The generation of a key, unless it is too old for the current block. */
    function Seen(j: int, block: nat): nat
      requires perGeneration > 0 && j >= -1
    {
      if j < 0 || j / perGeneration < block - 2 then 0 else Generation(j / perGeneration)
    }

    predicate ExactAt(data: seq<W>, tweak: nat, history: seq<K>, block: nat, i: nat, k: nat)
      requires |data| > 0 && |data| % 2 == 0 && perGeneration > 0
    {
      2 * i + 1 < |data| && k < BITS ==>
        MarkAt(w, data, i, k) == Seen(LastTouch(tweak, |data|, history, i, k), block)
    }

    /**
     Every position carries the generation of the last key that has it, if that is a key of the
     current block or of the two before it, and is unset otherwise.
     */
    ghost predicate Exact(data: seq<W>, tweak: nat, history: seq<K>, block: nat) {
      && |data| > 0 && |data| % 2 == 0 && perGeneration > 0
      && forall i: nat, k: nat :: ExactAt(data, tweak, history, block, i, k)
    }

    predicate MarkedAt(data: seq<W>, tweak: nat, key: K, n: nat)
      requires |data| > 0 && |data| % 2 == 0
    {
      MarkAt(w, data, h.PairOf(n, tweak, key, |data|), h.BitOf(n, tweak, key)) != 0
    }

    /** All positions of a key are set. */
    predicate Has(data: seq<W>, tweak: nat, key: K)
      requires |data| > 0 && |data| % 2 == 0
    {
      forall n: nat | n < funcs :: MarkedAt(data, tweak, key, n)
    }

    /** Some key from index `from` on has the position to which hash function n sends a key. */
    predicate SharedAt(tweak: nat, size: nat, history: seq<K>, from: int, key: K, n: nat)
      requires size > 0 && size % 2 == 0
    {
      exists j: nat | j < |history| && j >= from ::
        Touches(tweak, size, history[j], funcs, h.PairOf(n, tweak, key, size), h.BitOf(n, tweak, key))
    }

    /** Every position of a key is a position of some key from index `from` on. */
    predicate Covered(tweak: nat, size: nat, history: seq<K>, from: int, key: K)
      requires size > 0 && size % 2 == 0
    {
      forall n: nat | n < funcs :: SharedAt(tweak, size, history, from, key, n)
    }
  }

  lemma AtLeastBlock(j: nat, n: nat, b: int)
    requires n > 0
    ensures j / n >= b <==> j >= b * n
  {
    QuotientBounds(j, n);
    if j / n < b { MulLt(j / n, b, n); } else { MulLe(b, j / n, n); }
  }

  lemma InBlock(j: nat, n: nat, b: nat)
    requires n > 0 && b * n <= j < b * n + n
    ensures j / n == b
  {
    AtLeastBlock(j, n, b);
    AtLeastBlock(j, n, b + 1);
    assert (b + 1) * n == b * n + n;
  }

  lemma {:induction false} LastTouchIs<K(!new), W(!new)>(s: Shape<K, W>, tweak: nat, size: nat, history: seq<K>, i: nat,
                                                         k: nat, j: nat)
    requires size > 0 && size % 2 == 0
    ensures var l := s.LastTouch(tweak, size, history, i, k);
            && (l >= 0 ==> s.Touches(tweak, size, history[l], s.funcs, i, k))
            && (j < |history| && s.Touches(tweak, size, history[j], s.funcs, i, k) ==> l >= j)
  {
    if history != [] && !s.Touches(tweak, size, history[|history| - 1], s.funcs, i, k) {
      LastTouchIs(s, tweak, size, history[..|history| - 1], i, k, j);
    }
  }

  /** The next block reuses the generation of three blocks ago, and only that is forgotten. */
  lemma SeenNext<K(!new), W(!new)>(s: Shape<K, W>, j: int, block: nat)
    requires s.perGeneration > 0 && j >= -1 && j / s.perGeneration <= block
    ensures s.Seen(j, block + 1) == if s.Seen(j, block) == Generation(block + 1) then 0 else s.Seen(j, block)
  {
  }

  lemma WipeKeeps<K(!new), W(!new)>(s: Shape<K, W>, was: seq<W>, now: seq<W>, tweak: nat, history: seq<K>, block: nat)
    requires s.Exact(was, tweak, history, block) && Wiped(s.w, was, now, Generation(block + 1))
    requires |history| == block * s.perGeneration + s.perGeneration
    ensures s.Exact(now, tweak, history, block + 1)
  {
    var block' := block + 1;
    forall i: nat, k: nat ensures s.ExactAt(now, tweak, history, block', i, k) {
      assert s.ExactAt(was, tweak, history, block, i, k) && WipedAt(s.w, was, now, Generation(block + 1), i, k);
      var j := s.LastTouch(tweak, |was|, history, i, k);
      NotAhead(j, s.perGeneration, block, |history|);
      SeenNext(s, j, block);
    }
  }

  lemma NotAhead(j: int, n: nat, block: nat, size: nat)
    requires n > 0 && -1 <= j < size <= block * n + n
    ensures j / n <= block
  {
    if j >= 0 {
      AtLeastBlock(j, n, block + 1);
      assert (block + 1) * n == block * n + n;
    }
  }

  /** The data in which the first n positions of a key carry a mark and no other is touched. */
  predicate StampedAt<K(!new), W(!new)>(s: Shape<K, W>, was: seq<W>, now: seq<W>, tweak: nat, key: K, n: nat, g: nat,
                                        i: nat, k: nat)
    requires |was| == |now| > 0 && |was| % 2 == 0
  {
    2 * i + 1 < |was| && k < BITS ==>
      MarkAt(s.w, now, i, k) == if s.Touches(tweak, |was|, key, n, i, k) then g else MarkAt(s.w, was, i, k)
  }

  ghost predicate Stamped<K(!new), W(!new)>(s: Shape<K, W>, was: seq<W>, now: seq<W>, tweak: nat, key: K, n: nat,
                            g: nat) {
    && |was| == |now| > 0 && |was| % 2 == 0
    && forall i: nat, k: nat :: StampedAt(s, was, now, tweak, key, n, g, i, k)
  }

  lemma StampNext<K(!new), W(!new)>(s: Shape<K, W>, was: seq<W>, now: seq<W>, tweak: nat, key: K, n: nat, g: nat)
    requires s.w.Lawful() && Stamped(s, was, now, tweak, key, n, g) && 1 <= g <= 3
    ensures Stamped(s, was, Marked(s.w, now, s.h.PairOf(n, tweak, key, |now|), s.h.BitOf(n, tweak, key), g), tweak, key,
                    n + 1, g)
  {
    var a, b, more := s.h.PairOf(n, tweak, key, |now|), s.h.BitOf(n, tweak, key), n + 1;
    var next := Marked(s.w, now, a, b, g);
    forall i: nat, k: nat ensures StampedAt(s, was, next, tweak, key, more, g, i, k) {
      assert StampedAt(s, was, now, tweak, key, n, g, i, k);
      if 2 * i + 1 < |was| && k < BITS {
        MarkedAt(s.w, now, a, b, g, i, k);
        OneMore(s, tweak, |was|, key, n, i, k);
      }
    }
  }

  lemma OneMore<K(!new), W(!new)>(s: Shape<K, W>, tweak: nat, size: nat, key: K, n: nat, i: nat, k: nat)
    requires size > 0 && size % 2 == 0
    ensures s.Touches(tweak, size, key, n + 1, i, k)
            <==> s.Touches(tweak, size, key, n, i, k) || s.Hits(tweak, size, key, n, i, k)
  {
    if s.Touches(tweak, size, key, n, i, k) {
      var m: nat :| m < n && s.Hits(tweak, size, key, m, i, k);
      assert m < n + 1;
    }
  }

  lemma NothingStamped<K(!new), W(!new)>(s: Shape<K, W>, data: seq<W>, tweak: nat, key: K, g: nat)
    requires |data| > 0 && |data| % 2 == 0
    ensures Stamped(s, data, data, tweak, key, 0, g)
  {
    forall i: nat, k: nat ensures StampedAt(s, data, data, tweak, key, 0, g, i, k) { }
  }

  /** Marks all positions of a key. */
  method MarkAll<K(!new), W(!new)>(s: Shape<K, W>, was: seq<W>, tweak: nat, key: K, g: nat) returns (data: seq<W>)
    requires s.w.Lawful() && |was| > 0 && |was| % 2 == 0 && 1 <= g <= 3
    ensures Stamped(s, was, data, tweak, key, s.funcs, g)
  {
    data := was;
    NothingStamped(s, was, tweak, key, g);
    for n := 0 to s.funcs
      invariant Stamped(s, was, data, tweak, key, n, g)
    {
      var i, k := s.h.PairOf(n, tweak, key, |data|), s.h.BitOf(n, tweak, key);
      StampNext(s, was, data, tweak, key, n, g);
      data := Marked(s.w, data, i, k, g);
    }
  }

  /** A new key overwrites the marks at its positions and no others. */
  lemma AppendKeeps<K(!new), W(!new)>(s: Shape<K, W>, was: seq<W>, now: seq<W>, tweak: nat, history: seq<K>, block: nat,
                                      key: K)
    requires s.Exact(was, tweak, history, block)
    requires block * s.perGeneration <= |history| < block * s.perGeneration + s.perGeneration
    requires Stamped(s, was, now, tweak, key, s.funcs, Generation(block))
    ensures s.Exact(now, tweak, history + [key], block)
  {
    var history' := history + [key];
    InBlock(|history|, s.perGeneration, block);
    forall i: nat, k: nat ensures s.ExactAt(now, tweak, history', block, i, k) {
      assert s.ExactAt(was, tweak, history, block, i, k);
      assert StampedAt(s, was, now, tweak, key, s.funcs, Generation(block), i, k);
      assert history'[..|history|] == history;
    }
  }

  /** A position is set exactly if one of the keys of the current block and the two before it has it. */
  lemma SetExactly<K(!new), W(!new)>(s: Shape<K, W>, data: seq<W>, tweak: nat, history: seq<K>, block: nat, from: int,
                                     key: K, n: nat)
    requires s.Exact(data, tweak, history, block) && from == (block - 2) * s.perGeneration
    ensures s.MarkedAt(data, tweak, key, n) <==> s.SharedAt(tweak, |data|, history, from, key, n)
  {
    var i, k := s.h.PairOf(n, tweak, key, |data|), s.h.BitOf(n, tweak, key);
    assert s.ExactAt(data, tweak, history, block, i, k);
    var l := s.LastTouch(tweak, |data|, history, i, k);
    LastTouchIs(s, tweak, |data|, history, i, k, 0);
    if l >= 0 { AtLeastBlock(l, s.perGeneration, block - 2); }
    if s.SharedAt(tweak, |data|, history, from, key, n) {
      var j: nat :| j < |history| && j >= from && s.Touches(tweak, |data|, history[j], s.funcs, i, k);
      LastTouchIs(s, tweak, |data|, history, i, k, j);
    }
  }

  lemma HasExactly<K(!new), W(!new)>(s: Shape<K, W>, data: seq<W>, tweak: nat, history: seq<K>, block: nat, from: int,
                                     key: K)
    requires s.Exact(data, tweak, history, block) && from == (block - 2) * s.perGeneration
    ensures s.Has(data, tweak, key) <==> s.Covered(tweak, |data|, history, from, key)
  {
    forall n: nat | n < s.funcs
      ensures s.MarkedAt(data, tweak, key, n) <==> s.SharedAt(tweak, |data|, history, from, key, n)
    {
      SetExactly(s, data, tweak, history, block, from, key, n);
    }
  }

  /** The filter contains the keys of the current generation and of the two before it. */
  lemma LastKeysFound<K(!new), W(!new)>(s: Shape<K, W>, tweak: nat, size: nat, history: seq<K>, from: int, j: nat)
    requires size > 0 && size % 2 == 0 && j < |history| && j >= from
    ensures s.Covered(tweak, size, history, from, history[j])
  {
    forall n: nat | n < s.funcs ensures s.SharedAt(tweak, size, history, from, history[j], n) {
      var i, k := s.h.PairOf(n, tweak, history[j], size), s.h.BitOf(n, tweak, history[j]);
      assert s.Hits(tweak, size, history[j], n, i, k);
      assert s.Touches(tweak, size, history[j], s.funcs, i, k);
    }
  }

  // ---------- the filter ----------

  class RollingBloomFilter<K(!new), W(!new)> {
    const s: Shape<K, W>
    var data: seq<W>
    var nTweak: nat
    var nEntriesThisGeneration: nat
    var nGeneration: nat
    ghost var history: seq<K>
    ghost var block: nat

    /** The keys inserted since the last reset fill blocks of one generation each. */
    ghost predicate Valid()
      reads this
    {
      && s.w.Lawful() && s.Exact(data, nTweak, history, block)
      && nGeneration == Generation(block) && nEntriesThisGeneration <= s.perGeneration
      && |history| == block * s.perGeneration + nEntriesThisGeneration
    }

    /** The index of the first key of the current generation and the two before it. */
    ghost function Oldest(): int
      reads this
    {
      |history| - 2 * s.perGeneration - nEntriesThisGeneration
    }

    /** `funcs` and `pairs` are computed from the wanted false positive rate. */
    constructor (h: Hasher<K>, w: Words<W>, nElements: nat, funcs: nat, pairs: nat, tweak: nat)
      requires w.Lawful() && nElements >= 1 && pairs >= 1
      ensures Valid() && history == [] && s == Shape(h, w, funcs, (nElements + 1) / 2)
      ensures |data| == 2 * pairs && nTweak == tweak
    {
      s := Shape(h, w, funcs, (nElements + 1) / 2);
      data := seq(2 * pairs, _ => w.fill(false));
      nTweak := tweak;
      nEntriesThisGeneration := 0;
      nGeneration := 1;
      history := [];
      block := 0;
      new;
      Blank(s, data, nTweak);
    }

    /** Forgets everything. */
    method Reset(tweak: nat)
      requires Valid()
      modifies this
      ensures Valid() && history == [] && nTweak == tweak && |data| == old(|data|)
    {
      nTweak := tweak;
      nEntriesThisGeneration := 0;
      nGeneration := 1;
      data := seq(|data|, _ => s.w.fill(false));
      history := [];
      block := 0;
      Blank(s, data, nTweak);
    }

    /** Starts the next generation if the current one is full. */
    method Roll()
      requires Valid()
      modifies this`data, this`nGeneration, this`nEntriesThisGeneration, this`block
      ensures Valid() && nEntriesThisGeneration < s.perGeneration && |data| == old(|data|)
      ensures nEntriesThisGeneration
              == if old(nEntriesThisGeneration) == s.perGeneration then 0 else old(nEntriesThisGeneration)
    {
      if nEntriesThisGeneration == s.perGeneration {
        nEntriesThisGeneration := 0;
        nGeneration := nGeneration + 1;
        if nGeneration == 4 { nGeneration := 1; }
        ghost var was := data;
        data := Wipe(s.w, data, nGeneration);
        WipeKeeps(s, was, data, nTweak, history, block);
        assert (block + 1) * s.perGeneration == block * s.perGeneration + s.perGeneration;
        block := block + 1;
      }
    }

    /** Remembers a key; when a generation is full the oldest one is forgotten first. */
    method Insert(key: K)
      requires Valid()
      modifies this`data, this`nGeneration, this`nEntriesThisGeneration, this`block, this`history
      ensures Valid() && history == old(history) + [key] && |data| == old(|data|)
      ensures nEntriesThisGeneration
              == if old(nEntriesThisGeneration) == s.perGeneration then 1 else old(nEntriesThisGeneration) + 1
    {
      Roll();
      ghost var was := data;
      data := MarkAll(s, data, nTweak, key, nGeneration);
      AppendKeeps(s, was, data, nTweak, history, block, key);
      nEntriesThisGeneration := nEntriesThisGeneration + 1;
      history := history + [key];
    }

    /**
     Contains a key exactly if each of its positions is one of a key of the current generation
     or the two before it; in particular all those keys.
     */
    method Contains(key: K) returns (r: bool)
      requires Valid()
      ensures |data| > 0 && |data| % 2 == 0 && (r <==> s.Covered(nTweak, |data|, history, Oldest(), key))
      ensures forall j: nat | j < |history| && j >= Oldest() && history[j] == key :: r
      ensures history == [] && s.funcs > 0 ==> !r
    {
      r := true;
      for n := 0 to s.funcs
        invariant forall m: nat | m < n :: s.MarkedAt(data, nTweak, key, m)
      {
        var i, k := s.h.PairOf(n, nTweak, key, |data|), s.h.BitOf(n, nTweak, key);
        if !(s.w.bit(data[2 * i], k) || s.w.bit(data[2 * i + 1], k)) {
          assert !s.MarkedAt(data, nTweak, key, n);
          r := false;
          break;
        }
      }
      Answered(key, r);
    }

    lemma Answered(key: K, r: bool)
      requires Valid() && (r <==> s.Has(data, nTweak, key))
      ensures r <==> s.Covered(nTweak, |data|, history, Oldest(), key)
      ensures forall j: nat | j < |history| && j >= Oldest() && history[j] == key :: r
      ensures history == [] && s.funcs > 0 ==> !r
    {
      assert Oldest() == (block - 2) * s.perGeneration;
      HasExactly(s, data, nTweak, history, block, Oldest(), key);
      forall j: nat | j < |history| && j >= Oldest() && history[j] == key ensures r {
        LastKeysFound(s, nTweak, |data|, history, Oldest(), j);
      }
      if history == [] && s.funcs > 0 { assert !s.SharedAt(nTweak, |data|, history, Oldest(), key, 0); }
    }
  }

  lemma Blank<K(!new), W(!new)>(s: Shape<K, W>, data: seq<W>, tweak: nat)
    requires s.w.Lawful() && |data| > 0 && |data| % 2 == 0 && s.perGeneration > 0
    requires forall i | 0 <= i < |data| :: data[i] == s.w.fill(false)
    ensures s.Exact(data, tweak, [], 0)
  {
    forall i: nat, k: nat ensures s.ExactAt(data, tweak, [], 0, i, k) {
      assert s.w.ConstantAt(0, false, k);
    }
  }

  // ---------- the words of the repository ----------

  type BitIndex = k: bv64 | k < 64

  predicate Bit(x: bv64, k: BitIndex) { (x >> k) & 1 == 1 }

  function Index(k: nat): BitIndex { ((k % 64) as bv6) as bv64 }

  predicate Bit64(x: bv64, k: nat) { Bit(x, Index(k)) }
  function And64(x: bv64, y: bv64): bv64 { x & y }
  function Or64(x: bv64, y: bv64): bv64 { x | y }
  function Xor64(x: bv64, y: bv64): bv64 { x ^ y }
  function Not64(x: bv64): bv64 { !x }
  function One64(k: nat): bv64 { 1 << Index(k) }
  function Fill64(b: bool): bv64 { if b then 0xffff_ffff_ffff_ffff else 0 }

  const WORDS64: Words<bv64> := Words(Bit64, And64, Or64, Xor64, Not64, One64, Fill64)

  lemma AndBit(x: bv64, y: bv64, k: BitIndex)
    ensures Bit(x & y, k) <==> Bit(x, k) && Bit(y, k)
  {
  }

  lemma OrBit(x: bv64, y: bv64, k: BitIndex)
    ensures Bit(x | y, k) <==> Bit(x, k) || Bit(y, k)
  {
  }

  lemma XorBit(x: bv64, y: bv64, k: BitIndex)
    ensures Bit(x ^ y, k) <==> Bit(x, k) != Bit(y, k)
  {
  }

  lemma NotBit(x: bv64, k: BitIndex)
    ensures Bit(!x, k) <==> !Bit(x, k)
  {
  }

  lemma OneBit(b: BitIndex, k: BitIndex)
    ensures Bit(1 << b, k) <==> b == k
  {
  }

  lemma FillBit(b: bool, k: BitIndex)
    ensures Bit(Fill64(b), k) <==> b
  {
  }

  lemma IndexBack(k: nat)
    requires k < 64
    ensures (Index(k) as bv6) as nat == k
  {
  }

  lemma AndOrLaw(x: bv64, y: bv64, k: nat)
    ensures WORDS64.bit(WORDS64.and(x, y), k) <==> WORDS64.bit(x, k) && WORDS64.bit(y, k)
    ensures WORDS64.bit(WORDS64.or(x, y), k) <==> WORDS64.bit(x, k) || WORDS64.bit(y, k)
  {
    AndBit(x, y, Index(k));
    OrBit(x, y, Index(k));
  }

  lemma XorLaw(x: bv64, y: bv64, k: nat)
    ensures WORDS64.bit(WORDS64.xor(x, y), k) <==> WORDS64.bit(x, k) != WORDS64.bit(y, k)
  {
    var i := Index(k);
    XorBit(x, y, i);
    assert Bit64(Xor64(x, y), k) == Bit(x ^ y, i) && Bit64(x, k) == Bit(x, i) && Bit64(y, k) == Bit(y, i);
  }

  lemma NotLaw(x: bv64, k: nat)
    ensures WORDS64.bit(WORDS64.not(x), k) <==> !WORDS64.bit(x, k)
  {
    NotBit(x, Index(k));
  }

  lemma BitwiseLaw(x: bv64, y: bv64, k: nat)
    ensures WORDS64.BitwiseAt(x, y, k)
  {
    AndOrLaw(x, y, k);
    XorLaw(x, y, k);
    NotLaw(x, k);
  }

  lemma ConstantLaw(b: nat, v: bool, k: nat)
    ensures WORDS64.ConstantAt(b, v, k)
  {
    if b < 64 && k < 64 {
      OneLaw(b, k);
      FillBit(v, Index(k));
    }
  }

  lemma OneLaw(b: nat, k: nat)
    requires b < 64 && k < 64
    ensures WORDS64.bit(WORDS64.one(b), k) <==> b == k
  {
    OneBit(Index(b), Index(k));
    SameIndex(b, k);
  }

  lemma SameIndex(b: nat, k: nat)
    requires b < 64 && k < 64
    ensures Index(b) == Index(k) <==> b == k
  {
    IndexBack(b);
    IndexBack(k);
  }

  /** 64-bit words are lawful words. */
  lemma Words64Lawful()
    ensures WORDS64.Lawful()
  {
    forall x, y, k ensures WORDS64.BitwiseAt(x, y, k) { BitwiseLaw(x, y, k); }
    forall b, v, k ensures WORDS64.ConstantAt(b, v, k) { ConstantLaw(b, v, k); }
  }
}
