/**
 Golomb-coded sets: the hashes of a set of elements, sorted, and the differences between
 neighbours written as a unary quotient and a binary remainder. A stream is the list of its
 bits; the length prefix and the byte boundaries are left to the caller.
 */
module BlockFilter {
  import opened Limbs
  import opened Numbers
  import opened Wrappers

  const WORD64: nat := 0x1_0000_0000_0000_0000

  // ---------- codes ----------

  type Bits = seq<bool>

  /** The low n bits of a number, the highest first. */
  function BitsOf(x: nat, n: nat): (s: Bits)
    ensures |s| == n
  {
    if n == 0 then [] else BitsOf(x / 2, n - 1) + [x % 2 == 1]
  }

  function FromBits(s: Bits): nat {
    if s == [] then 0 else 2 * FromBits(s[..|s| - 1]) + if s[|s| - 1] then 1 else 0
  }

  lemma {:induction false} BitsBack(x: nat, n: nat)
    ensures FromBits(BitsOf(x, n)) == x % Pow2(n)
  {
    if n > 0 {
      BitsBack(x / 2, n - 1);
      var s := BitsOf(x, n);
      assert s[..n - 1] == BitsOf(x / 2, n - 1);
      HalfRemainder(x, Pow2(n - 1));
    }
  }

  lemma HalfRemainder(x: nat, p: nat)
    requires p > 0
    ensures 2 * ((x / 2) % p) + x % 2 == x % (2 * p)
  {
    var h := x / 2;
    var q, r := h / p, h % p;
    assert h == q * p + r;
    assert q * (2 * p) == 2 * (q * p);
    Remainder(2 * r + x % 2, q, 2 * p, x);
  }

  function Ones(q: nat): (s: Bits)
    ensures |s| == q && forall i | 0 <= i < q :: s[i]
  {
    seq(q, _ => true)
  }

  function Quotient(x: nat, P: nat): (q: nat)
    ensures q * Pow2(P) + x % Pow2(P) == x
  {
    QuotientBounds(x, Pow2(P));
    x / Pow2(P)
  }

  /** One number: the quotient in unary, a 0, the remainder in P bits. */
  function Code(P: nat, x: nat): Bits {
    Ones(Quotient(x, P)) + [false] + BitsOf(x, P)
  }

  /** The number of 1 bits before the first 0, and what follows that 0. */
  function ReadUnary(s: Bits): Option<(nat, Bits)> {
    if s == [] then None
    else if !s[0] then Some((0, s[1..]))
    else match ReadUnary(s[1..])
      case None => None
      case Some((q, rest)) => Some((q + 1, rest))
  }

  function ReadOne(P: nat, s: Bits): Option<(nat, Bits)> {
    match ReadUnary(s)
    case None => None
    case Some((q, t)) => if |t| < P then None else Some((q * Pow2(P) + FromBits(t[..P]), t[P..]))
  }

  lemma {:induction false} UnaryBack(q: nat, rest: Bits)
    ensures ReadUnary(Ones(q) + [false] + rest) == Some((q, rest))
  {
    var s := Ones(q) + [false] + rest;
    if q == 0 {
      assert s[1..] == rest;
    } else {
      assert s[1..] == Ones(q - 1) + [false] + rest;
      UnaryBack(q - 1, rest);
    }
  }

  lemma ReadParts(P: nat, q: nat, low: Bits, rest: Bits)
    requires |low| == P
    ensures ReadOne(P, Ones(q) + [false] + (low + rest)) == Some((q * Pow2(P) + FromBits(low), rest))
  {
    UnaryBack(q, low + rest);
    SplitBack(low, rest);
    AfterUnary(P, Ones(q) + [false] + (low + rest), q, low + rest);
  }

  lemma SplitBack(low: Bits, rest: Bits)
    ensures (low + rest)[..|low|] == low && (low + rest)[|low|..] == rest
  {
  }

  lemma AfterUnary(P: nat, s: Bits, q: nat, t: Bits)
    requires ReadUnary(s) == Some((q, t)) && |t| >= P
    ensures ReadOne(P, s) == Some((q * Pow2(P) + FromBits(t[..P]), t[P..]))
  {
  }

  /** Reading undoes writing, whatever follows. */
  lemma CodeBack(P: nat, x: nat, rest: Bits)
    ensures ReadOne(P, Code(P, x) + rest) == Some((x, rest))
  {
    var q, low := Quotient(x, P), BitsOf(x, P);
    assert Code(P, x) + rest == Ones(q) + [false] + (low + rest);
    ReadParts(P, q, low, rest);
    BitsBack(x, P);
  }

  // ---------- lists of values ----------

  predicate SortedFrom(vs: seq<nat>, last: nat) {
    vs == [] || (last <= vs[0] && SortedFrom(vs[1..], vs[0]))
  }

  /** The differences of a sorted list, one code after the other. */
  function CodeAll(P: nat, vs: seq<nat>, last: nat): Bits
    requires SortedFrom(vs, last)
  {
    if vs == [] then [] else Code(P, vs[0] - last) + CodeAll(P, vs[1..], vs[0])
  }

  /** The first n values of a stream, and what follows them. */
  function ReadAll(P: nat, s: Bits, n: nat, last: nat): Option<(seq<nat>, Bits)>
    decreases n
  {
    if n == 0 then Some(([], s))
    else match ReadOne(P, s)
      case None => None
      case Some((delta, t)) =>
        match ReadAll(P, t, n - 1, last + delta)
        case None => None
        case Some((vs, rest)) => Some(([last + delta] + vs, rest))
  }

  lemma CodeAllCons(P: nat, vs: seq<nat>, last: nat, rest: Bits)
    requires vs != [] && SortedFrom(vs, last)
    ensures CodeAll(P, vs, last) + rest == Code(P, vs[0] - last) + (CodeAll(P, vs[1..], vs[0]) + rest)
  {
  }

  lemma HeadAndTail(vs: seq<nat>, x: nat)
    requires vs != [] && x == vs[0]
    ensures [x] + vs[1..] == vs
  {
  }

  lemma ReadAllCons(P: nat, s: Bits, n: nat, last: nat, delta: nat, t: Bits, vs: seq<nat>, rest: Bits)
    requires n > 0 && ReadOne(P, s) == Some((delta, t)) && ReadAll(P, t, n - 1, last + delta) == Some((vs, rest))
    ensures ReadAll(P, s, n, last) == Some(([last + delta] + vs, rest))
  {
  }

  /** Decoding yields exactly the sorted list, duplicates included. */
  lemma {:induction false} CodeAllBack(P: nat, vs: seq<nat>, last: nat, rest: Bits)
    requires SortedFrom(vs, last)
    ensures ReadAll(P, CodeAll(P, vs, last) + rest, |vs|, last) == Some((vs, rest))
  {
    if vs == [] {
      assert CodeAll(P, vs, last) + rest == rest;
    } else {
      var delta, tail := vs[0] - last, CodeAll(P, vs[1..], vs[0]) + rest;
      CodeAllCons(P, vs, last, rest);
      CodeBack(P, delta, tail);
      CodeAllBack(P, vs[1..], vs[0], rest);
      ReadAllCons(P, Code(P, delta) + tail, |vs|, last, delta, tail, vs[1..], rest);
      HeadAndTail(vs, last + delta);
    }
  }

  // ---------- ranges ----------

  lemma HalfProduct(a: nat, b: nat)
    requires a < BASE && b < BASE
    ensures 0 <= a * b <= (BASE - 1) * (BASE - 1)
  {
    ProductBound(a, b, BASE - 1);
  }

  /** The upper half of a 128-bit product from four 64-bit ones, none of which overflows. */
  method MapIntoRange(x: nat, n: nat) returns (r: nat)
    requires x < WORD64 && n < WORD64
    ensures r == x * n / WORD64
  {
    var xHi, xLo, nHi, nLo := x / BASE, x % BASE, n / BASE, n % BASE;
    HalfProduct(xHi, nHi);
    HalfProduct(xHi, nLo);
    HalfProduct(xLo, nHi);
    HalfProduct(xLo, nLo);
    var ac, ad, bc, bd := xHi * nHi, xHi * nLo, xLo * nHi, xLo * nLo;
    assert ac < WORD64 && ad < WORD64 && bc < WORD64 && bd < WORD64;
    var mid34 := bd / BASE + bc % BASE + ad % BASE;
    assert mid34 < WORD64;
    r := ac + bc / BASE + ad / BASE + mid34 / BASE;
    assert r < WORD64;
    FourParts(xHi, xLo, nHi, nLo, x, n);
    UpperHalf(ac, ad, bc, bd, x * n);
  }

  lemma FourParts(a: nat, b: nat, c: nat, d: nat, x: nat, n: nat)
    requires x == a * BASE + b && n == c * BASE + d
    ensures x * n == a * c * WORD64 + (a * d + b * c) * BASE + b * d
  {
    assert x * n == a * BASE * n + b * n;
    assert a * BASE * n == a * c * WORD64 + a * d * BASE;
    assert b * n == b * c * BASE + b * d;
  }

  lemma UpperHalf(ac: nat, ad: nat, bc: nat, bd: nat, product: nat)
    requires product == ac * WORD64 + (ad + bc) * BASE + bd
    ensures ac + bc / BASE + ad / BASE + (bd / BASE + bc % BASE + ad % BASE) / BASE == product / WORD64
  {
  }

  // ---------- the loops over streams ----------

  /** Writes one number; the unary part in pieces of at most 64 bits. */
  method GolombRiceEncode(out: Bits, P: nat, x: nat) returns (r: Bits)
    ensures r == out + Code(P, x)
  {
    r := out;
    var q := Quotient(x, P);
    ghost var done: nat := 0;
    while q > 0
      invariant done + q == Quotient(x, P) && r == out + Ones(done)
    {
      var nbits := if q <= 64 then q else 64;
      r := r + Ones(nbits);
      assert Ones(done) + Ones(nbits) == Ones(done + nbits);
      done := done + nbits;
      q := q - nbits;
    }
    r := r + [false];
    r := r + BitsOf(x, P);
  }

  /** Reads one number, reduced to 64 bits; fails at the end of the stream. */
  method GolombRiceDecode(s: Bits, P: nat) returns (r: Option<(nat, Bits)>)
    ensures match ReadOne(P, s)
            case None => r == None
            case Some((x, t)) => r == Some((x % WORD64, t))
  {
    var q, t := 0, s;
    while t != [] && t[0]
      invariant match ReadUnary(t)
                case None => ReadUnary(s) == None
                case Some((n, rest)) => ReadUnary(s) == Some((q + n, rest))
      invariant q >= 0
    {
      q := q + 1;
      t := t[1..];
    }
    if t == [] { return None; }
    t := t[1..];
    if |t| < P { return None; }
    return Some(((q * Pow2(P) + FromBits(t[..P])) % WORD64, t[P..]));
  }

  lemma EncodeStep(P: nat, vs: seq<nat>, i: nat, last: nat, out: Bits, all: Bits)
    requires i < |vs| && SortedFrom(vs[i..], last) && out + CodeAll(P, vs[i..], last) == all
    ensures last <= vs[i] && SortedFrom(vs[i + 1..], vs[i])
            && out + Code(P, vs[i] - last) + CodeAll(P, vs[i + 1..], vs[i]) == all
  {
    assert vs[i..][1..] == vs[i + 1..];
    CodeAllCons(P, vs[i..], last, []);
    var c, rest := Code(P, vs[i] - last), CodeAll(P, vs[i + 1..], vs[i]);
    assert CodeAll(P, vs[i..], last) == c + rest;
    assert out + c + rest == out + (c + rest);
  }

  /** Encodes a sorted list. */
  method EncodeValues(P: nat, vs: seq<nat>) returns (out: Bits)
    requires SortedFrom(vs, 0)
    ensures out == CodeAll(P, vs, 0)
  {
    out := [];
    var last: nat := 0;
    ghost var all := CodeAll(P, vs, 0);
    assert vs[0..] == vs;
    for i := 0 to |vs|
      invariant SortedFrom(vs[i..], last) && out + CodeAll(P, vs[i..], last) == all
    {
      EncodeStep(P, vs, i, last, out, all);
      out := GolombRiceEncode(out, P, vs[i] - last);
      last := vs[i];
    }
  }

  // ---------- sorting ----------

  function Inserted(vs: seq<nat>, x: nat): seq<nat> {
    if vs == [] || x <= vs[0] then [x] + vs else [vs[0]] + Inserted(vs[1..], x)
  }

  function Sort(vs: seq<nat>): seq<nat> {
    if vs == [] then [] else Inserted(Sort(vs[1..]), vs[0])
  }

  lemma {:induction false} InsertedSorted(vs: seq<nat>, x: nat, last: nat)
    requires SortedFrom(vs, last) && last <= x
    ensures SortedFrom(Inserted(vs, x), last) && multiset(Inserted(vs, x)) == multiset(vs) + multiset{x}
  {
    if vs == [] || x <= vs[0] {
      assert ([x] + vs)[1..] == vs;
    } else {
      InsertedSorted(vs[1..], x, vs[0]);
      assert ([vs[0]] + Inserted(vs[1..], x))[1..] == Inserted(vs[1..], x);
      assert vs == [vs[0]] + vs[1..];
    }
  }

  lemma {:induction false} SortSorts(vs: seq<nat>)
    ensures SortedFrom(Sort(vs), 0) && multiset(Sort(vs)) == multiset(vs)
  {
    if vs != [] {
      SortSorts(vs[1..]);
      InsertedSorted(Sort(vs[1..]), vs[0], 0);
      assert vs == [vs[0]] + vs[1..];
    }
  }

  lemma {:induction false} SortedPair(vs: seq<nat>, last: nat, i: nat, j: nat)
    requires SortedFrom(vs, last) && i <= j < |vs|
    ensures last <= vs[i] <= vs[j]
  {
    if i > 0 {
      SortedPair(vs[1..], vs[0], i - 1, j - 1);
    } else if j > 0 {
      SortedPair(vs[1..], vs[0], 0, j - 1);
    }
  }

  // ---------- filters ----------

  datatype Params<!E(!new)> = Params(hash: E -> nat, P: nat, M: nat)
  {
    /** The hash of an element in the range of the filter. */
    function InRange(e: E, F: nat): nat { (hash(e) % WORD64) * F / WORD64 }

    function Hashes(elements: seq<E>, F: nat): (r: seq<nat>)
      ensures |r| == |elements| && forall i | 0 <= i < |r| :: r[i] == InRange(elements[i], F)
    {
      seq(|elements|, i requires 0 <= i < |elements| => InRange(elements[i], F))
    }
  }

  /** The number of elements, the range of the hashes, and the coded stream. */
  datatype Filter = Filter(N: nat, F: nat, bits: Bits)

  /** A filter whose stream holds as many values as it says. */
  predicate Valid<E(!new)>(params: Params<E>, f: Filter) {
    f.N < BASE && params.M < BASE && f.F == f.N * params.M && ReadAll(params.P, f.bits, f.N, 0).Some?
  }

  function Values<E(!new)>(params: Params<E>, f: Filter): seq<nat>
    requires Valid(params, f)
  {
    ReadAll(params.P, f.bits, f.N, 0).value.0
  }

  /** Every value of a list is a 64-bit number. */
  ghost predicate Fits(vs: seq<nat>) {
    forall v | v in vs :: v < WORD64
  }

  /** The values as the 64-bit sums of their differences. */
  function Reduced(vs: seq<nat>): (r: seq<nat>)
    ensures |r| == |vs| && forall i | 0 <= i < |r| :: r[i] == vs[i] % WORD64
  {
    seq(|vs|, i requires 0 <= i < |vs| => vs[i] % WORD64)
  }

  lemma ReducedFits(vs: seq<nat>)
    requires Fits(vs)
    ensures Reduced(vs) == vs
  {
    forall i | 0 <= i < |vs| ensures Reduced(vs)[i] == vs[i] { assert vs[i] in vs; }
  }

  lemma {:induction false} ReadAllSorted(P: nat, s: Bits, n: nat, last: nat)
    requires ReadAll(P, s, n, last).Some?
    ensures var vs := ReadAll(P, s, n, last).value.0; |vs| == n && SortedFrom(vs, last)
    decreases n
  {
    if n > 0 {
      var (delta, t) := ReadOne(P, s).value;
      ReadAllSorted(P, t, n - 1, last + delta);
      var vs := ReadAll(P, t, n - 1, last + delta).value.0;
      assert ([last + delta] + vs)[1..] == vs;
    }
  }

  lemma RangeFits(n: nat, m: nat)
    requires n < BASE && m < BASE
    ensures 0 <= n * m < WORD64
  {
    HalfProduct(n, m);
  }

  method HashToRange<E(!new)>(params: Params<E>, F: nat, e: E) returns (r: nat)
    requires F < WORD64
    ensures r == params.InRange(e, F)
  {
    r := MapIntoRange(params.hash(e) % WORD64, F);
  }

  method BuildHashedSet<E(!new)>(params: Params<E>, F: nat, elements: seq<E>) returns (r: seq<nat>)
    requires F < WORD64
    ensures r == Sort(params.Hashes(elements, F))
  {
    var hashed: seq<nat> := [];
    for i := 0 to |elements|
      invariant |hashed| == i && forall j | 0 <= j < i :: hashed[j] == params.InRange(elements[j], F)
    {
      var h := HashToRange(params, F, elements[i]);
      hashed := hashed + [h];
    }
    assert hashed == params.Hashes(elements, F);
    r := Sort(hashed);
  }

  /** A filter for a set of elements; refuses 2^32 elements or more. */
  method Build<E(!new)>(params: Params<E>, elements: seq<E>) returns (r: Option<Filter>)
    requires params.M < BASE
    ensures r.Some? <==> |elements| < BASE
    ensures r.Some? ==> Valid(params, r.value) && r.value.N == |elements|
                        && Values(params, r.value) == Sort(params.Hashes(elements, r.value.F))
                            && Fits(Values(params, r.value))
  {
    var N := |elements|;
    if N >= BASE { return None; }
    RangeFits(N, params.M);
    var F := N * params.M;
    var vs := BuildHashedSet(params, F, elements);
    SortSorts(params.Hashes(elements, F));
    SortLength(params.Hashes(elements, F));
    var bits := EncodeValues(params.P, vs);
    CodeAllBack(params.P, vs, 0, []);
    assert bits + [] == bits;
    HashesFit(params, elements, F);
    return Some(Filter(N, F, bits));
  }

  lemma InRangeFits<E(!new)>(params: Params<E>, e: E, F: nat)
    requires F < WORD64
    ensures params.InRange(e, F) < WORD64
  {
    MulLe(params.hash(e) % WORD64, WORD64, F);
  }

  lemma HashesFit<E(!new)>(params: Params<E>, elements: seq<E>, F: nat)
    requires F < WORD64
    ensures Fits(Sort(params.Hashes(elements, F)))
  {
    var hashes := params.Hashes(elements, F);
    SortSorts(hashes);
    SameMembers(Sort(hashes), hashes);
    forall v | v in Sort(hashes) ensures v < WORD64 {
      var i :| 0 <= i < |hashes| && hashes[i] == v;
      InRangeFits(params, elements[i], F);
    }
  }

  lemma SortLength(vs: seq<nat>)
    ensures |Sort(vs)| == |vs|
  {
    SortSorts(vs);
    assert |multiset(Sort(vs))| == |multiset(vs)|;
  }

  /** A filter from its encoding; refuses a stream with too few values, or with a byte too many. */
  method FromEncoded<E(!new)>(params: Params<E>, N: nat, bits: Bits) returns (r: Option<Filter>)
    requires params.M < BASE
    ensures r.Some? <==> N < BASE && ReadAll(params.P, bits, N, 0).Some? && |ReadAll(params.P, bits, N, 0).value.1| < 8
    ensures r.Some? ==> Valid(params, r.value) && r.value == Filter(N, N * params.M, bits)
  {
    if N >= BASE { return None; }
    RangeFits(N, params.M);
    var t := bits;
    ghost var last: nat := 0;
    for i := 0 to N
      invariant match ReadAll(params.P, t, N - i, last)
                case None => ReadAll(params.P, bits, N, 0).None?
                case Some((vs, rest)) =>
                  ReadAll(params.P, bits, N, 0).Some? && ReadAll(params.P, bits, N, 0).value.1 == rest
    {
      var one := GolombRiceDecode(t, params.P);
      if one.None? { return None; }
      last := last + ReadOne(params.P, t).value.0;
      t := one.value.1;
    }
    if |t| >= 8 { return None; }
    return Some(Filter(N, N * params.M, bits));
  }

  /** What a filter encodes, filled up to a whole byte, is accepted and means the same. */
  lemma EncodingAccepted<E(!new)>(params: Params<E>, vs: seq<nat>, pad: Bits)
    requires SortedFrom(vs, 0) && |vs| < BASE && params.M < BASE && |pad| < 8
    ensures var bits := CodeAll(params.P, vs, 0) + pad;
            ReadAll(params.P, bits, |vs|, 0).Some? && |ReadAll(params.P, bits, |vs|, 0).value.1| < 8
            && Values(params, Filter(|vs|, |vs| * params.M, bits)) == vs
  {
    CodeAllBack(params.P, vs, 0, pad);
  }

  // ---------- matching ----------

  /** The first value that is not below q is q. */
  predicate Hits(ws: seq<nat>, q: nat) {
    ws != [] && if ws[0] >= q then ws[0] == q else Hits(ws[1..], q)
  }

  /** Every value before i is below q. */
  predicate AllBelow(ws: seq<nat>, i: nat, q: nat) {
    i <= |ws| && forall k | 0 <= k < i :: ws[k] < q
  }

  /** The value that decides, once those before it are known to be below q. */
  lemma {:induction false} HitsAt(ws: seq<nat>, i: nat, q: nat)
    requires i < |ws| && AllBelow(ws, i, q) && ws[i] >= q
    ensures Hits(ws, q) <==> ws[i] == q
  {
    if i > 0 {
      forall k | 0 <= k < i - 1 ensures ws[1..][k] < q { assert ws[1..][k] == ws[k + 1]; }
      HitsAt(ws[1..], i - 1, q);
    }
  }

  lemma {:induction false} HitsNone(ws: seq<nat>, q: nat)
    requires AllBelow(ws, |ws|, q)
    ensures !Hits(ws, q)
  {
    if ws != [] {
      forall k | 0 <= k < |ws| - 1 ensures ws[1..][k] < q { assert ws[1..][k] == ws[k + 1]; }
      HitsNone(ws[1..], q);
    }
  }

  lemma {:induction false} HitIndex(ws: seq<nat>, q: nat) returns (i: nat)
    requires Hits(ws, q)
    ensures i < |ws| && ws[i] == q && AllBelow(ws, i, q)
  {
    if ws[0] == q { return 0; }
    var j := HitIndex(ws[1..], q);
    i := j + 1;
    forall k | 0 <= k < i ensures ws[k] < q { if k > 0 { assert ws[1..][k - 1] == ws[k]; } }
  }

  predicate AnyHit(ws: seq<nat>, queries: seq<nat>) {
    exists j | 0 <= j < |queries| :: Hits(ws, queries[j])
  }

  /** Moves on to the first query that is not below a value. */
  method Advance(queries: seq<nat>, from: nat, value: nat) returns (h: nat)
    requires from <= |queries|
    ensures from <= h <= |queries| && (h < |queries| ==> queries[h] >= value)
    ensures forall j | from <= j < h :: queries[j] < value
  {
    h := from;
    while h < |queries| && queries[h] < value
      invariant from <= h <= |queries| && forall j | from <= j < h :: queries[j] < value
    {
      h := h + 1;
    }
  }

  /** Where the pass stands: queries before h do not hit, and the i values read are below all others. */
  ghost predicate PassedAt(ws: seq<nat>, queries: seq<nat>, i: nat, h: nat, j: int) {
    0 <= j < |queries| ==> if j < h then !Hits(ws, queries[j]) else AllBelow(ws, i, queries[j])
  }

  ghost predicate Passed(ws: seq<nat>, queries: seq<nat>, i: nat, h: nat) {
    forall j :: PassedAt(ws, queries, i, h, j)
  }

  lemma NonePassed(ws: seq<nat>, queries: seq<nat>)
    ensures Passed(ws, queries, 0, 0)
  {
    forall j: int ensures PassedAt(ws, queries, 0, 0, j) { }
  }

  /** Queries below the next value do not hit. */
  lemma Skipped(ws: seq<nat>, queries: seq<nat>, i: nat, from: nat, h: nat)
    requires i < |ws| && from <= h <= |queries| && Passed(ws, queries, i, from)
    requires forall j | from <= j < h :: queries[j] < ws[i]
    ensures Passed(ws, queries, i, h)
  {
    forall j ensures PassedAt(ws, queries, i, h, j) {
      assert PassedAt(ws, queries, i, from, j);
      if from <= j < h { HitsAt(ws, i, queries[j]); }
    }
  }

  /** If the next query is above the next value, so are all later ones. */
  lemma Moved(ws: seq<nat>, queries: seq<nat>, i: nat, h: nat)
    requires SortedFrom(queries, 0) && i < |ws| && h < |queries| && queries[h] > ws[i] && Passed(ws, queries, i, h)
    ensures Passed(ws, queries, i + 1, h)
  {
    var n := i + 1;
    forall j ensures PassedAt(ws, queries, n, h, j) {
      assert PassedAt(ws, queries, i, h, j);
      if h <= j < |queries| { SortedPair(queries, 0, h, j); }
    }
  }

  lemma NoneHit(ws: seq<nat>, queries: seq<nat>, i: nat, h: nat)
    requires Passed(ws, queries, i, h) && (h == |queries| || i == |ws|)
    ensures !AnyHit(ws, queries)
  {
    forall j | 0 <= j < |queries| ensures !Hits(ws, queries[j]) {
      assert PassedAt(ws, queries, i, h, j);
      if j >= h { HitsNone(ws, queries[j]); }
    }
  }

  lemma OneHit(ws: seq<nat>, queries: seq<nat>, i: nat, h: nat)
    requires Passed(ws, queries, i, h) && i < |ws| && h < |queries| && queries[h] == ws[i]
    ensures AnyHit(ws, queries)
  {
    assert PassedAt(ws, queries, i, h, h);
    HitsAt(ws, i, queries[h]);
  }

  lemma SumReduced(exact: nat, x: nat)
    ensures (exact % WORD64 + x % WORD64) % WORD64 == (exact + x) % WORD64
  {
  }

  /** One pass over the stream and the sorted queries together, with 64-bit sums. */
  method MatchInternal<E(!new)>(params: Params<E>, f: Filter, queries: seq<nat>) returns (r: bool)
    requires Valid(params, f) && SortedFrom(queries, 0)
    ensures r <==> AnyHit(Reduced(Values(params, f)), queries)
  {
    ghost var vs := Values(params, f);
    ghost var ws := Reduced(vs);
    ReadAllSorted(params.P, f.bits, f.N, 0);
    var t, value: nat, h: nat := f.bits, 0, 0;
    ghost var exact: nat := 0;
    NonePassed(ws, queries);
    assert vs[0..] == vs;
    for i := 0 to f.N
      invariant Ahead(params.P, t, f.N - i, exact, vs, i) && value == exact % WORD64
      invariant h <= |queries| && Passed(ws, queries, i, h)
    {
      var one := GolombRiceDecode(t, params.P);
      NextValue(params.P, t, f.N - i, exact, vs, i);
      SumReduced(exact, ReadOne(params.P, t).value.0);
      exact := vs[i];
      value := (value + one.value.0) % WORD64;
      assert value == ws[i];
      t := one.value.1;
      ghost var from := h;
      h := Advance(queries, h, value);
      Skipped(ws, queries, i, from, h);
      if h == |queries| {
        NoneHit(ws, queries, i, h);
        return false;
      } else if queries[h] == value {
        OneHit(ws, queries, i, h);
        return true;
      }
      Moved(ws, queries, i, h);
    }
    NoneHit(ws, queries, f.N, h);
    return false;
  }

  /** The rest of a stream holds the list from i on. */
  ghost predicate Ahead(P: nat, s: Bits, n: nat, last: nat, vs: seq<nat>, i: nat) {
    i <= |vs| && ReadAll(P, s, n, last).Some? && ReadAll(P, s, n, last).value.0 == vs[i..]
  }

  lemma NextValue(P: nat, s: Bits, n: nat, last: nat, vs: seq<nat>, i: nat)
    requires n > 0 && Ahead(P, s, n, last, vs, i)
    ensures ReadOne(P, s).Some? && i < |vs| && vs[i] == last + ReadOne(P, s).value.0
    ensures Ahead(P, ReadOne(P, s).value.1, n - 1, vs[i], vs, i + 1)
  {
    var (delta, t) := ReadOne(P, s).value;
    var tail := ReadAll(P, t, n - 1, last + delta).value.0;
    assert vs[i..] == [last + delta] + tail;
    assert vs[i..][0] == vs[i] && vs[i..][1..] == vs[i + 1..];
  }

  /** Whether the hash of an element hits the decoded values. */
  method Match<E(!new)>(params: Params<E>, f: Filter, e: E) returns (r: bool)
    requires Valid(params, f)
    ensures r <==> Hits(Reduced(Values(params, f)), params.InRange(e, f.F))
  {
    RangeFits(f.N, params.M);
    var query := HashToRange(params, f.F, e);
    r := MatchInternal(params, f, [query]);
    assert [query][0] == query;
  }

  /** A match of any is a match of one of them. */
  method MatchAny<E(!new)>(params: Params<E>, f: Filter, elements: seq<E>) returns (r: bool)
    requires Valid(params, f)
    ensures r <==> exists i | 0 <= i < |elements| :: Hits(Reduced(Values(params, f)), params.InRange(elements[i], f.F))
  {
    RangeFits(f.N, params.M);
    var queries := BuildHashedSet(params, f.F, elements);
    SortSorts(params.Hashes(elements, f.F));
    r := MatchInternal(params, f, queries);
    AnyHitIsAny(params, Reduced(Values(params, f)), elements, f.F);
  }

  lemma AnyHitIsAny<E(!new)>(params: Params<E>, ws: seq<nat>, elements: seq<E>, F: nat)
    ensures AnyHit(ws, Sort(params.Hashes(elements, F)))
            <==> exists i | 0 <= i < |elements| :: Hits(ws, params.InRange(elements[i], F))
  {
    var hashes := params.Hashes(elements, F);
    SortSorts(hashes);
    SameMembers(Sort(hashes), hashes);
    if i :| 0 <= i < |elements| && Hits(ws, params.InRange(elements[i], F)) {
      assert hashes[i] in hashes;
      var j :| 0 <= j < |Sort(hashes)| && Sort(hashes)[j] == hashes[i];
    }
    if j :| 0 <= j < |Sort(hashes)| && Hits(ws, Sort(hashes)[j]) {
      assert Sort(hashes)[j] in Sort(hashes);
      var i :| 0 <= i < |hashes| && hashes[i] == Sort(hashes)[j];
    }
  }

  // ---------- matching and membership ----------

  /** Values past 64 bits come after all others, so none of the others is missed. */
  lemma NothingMissed(vs: seq<nat>, q: nat)
    requires SortedFrom(vs, 0) && q in vs && q < WORD64
    ensures Hits(Reduced(vs), q)
  {
    var i := FirstIndex(vs, q);
    forall k | 0 <= k < i ensures Reduced(vs)[k] < q { SortedPair(vs, 0, k, i); }
    HitsAt(Reduced(vs), i, q);
  }

  lemma {:induction false} FirstIndex(vs: seq<nat>, q: nat) returns (i: nat)
    requires q in vs
    ensures i < |vs| && vs[i] == q && forall k | 0 <= k < i :: vs[k] != q
  {
    if vs[0] == q { return 0; }
    assert q in vs[1..];
    var j := FirstIndex(vs[1..], q);
    i := j + 1;
    forall k | 0 <= k < i ensures vs[k] != q { if k > 0 { assert vs[1..][k - 1] == vs[k]; } }
  }

  /** If the i-th value is past 64 bits, some earlier one is no smaller modulo 2^64. */
  ghost predicate OverflowHiddenAt(vs: seq<nat>, i: nat) {
    i < |vs| && vs[i] >= WORD64 ==> exists j | 0 <= j < i :: vs[j] % WORD64 >= vs[i] % WORD64
  }

  ghost predicate HitMeansMember(vs: seq<nat>, q: nat) {
    q < WORD64 ==> (Hits(Reduced(vs), q) <==> q in vs)
  }

  /**
   A hit means membership, for every 64-bit number, exactly when no value past 64 bits
   exceeds, modulo 2^64, all values before it.
   */
  lemma HitMeansMemberExactlyWhen(vs: seq<nat>)
    requires SortedFrom(vs, 0)
    ensures (forall q :: HitMeansMember(vs, q)) <==> forall i :: OverflowHiddenAt(vs, i)
  {
    if forall q :: HitMeansMember(vs, q) {
      forall i: nat ensures OverflowHiddenAt(vs, i) { NewMaximumHits(vs, i); }
    }
    if forall i :: OverflowHiddenAt(vs, i) {
      forall q: nat ensures HitMeansMember(vs, q) {
        if q < WORD64 && q in vs { NothingMissed(vs, q); }
        if q < WORD64 && Hits(Reduced(vs), q) {
          var i := HitIndex(Reduced(vs), q);
          assert OverflowHiddenAt(vs, i);
          BelowHit(vs, i, q);
        }
      }
    }
  }

  lemma BelowHit(vs: seq<nat>, i: nat, q: nat)
    requires i < |vs| && Reduced(vs)[i] == q && AllBelow(Reduced(vs), i, q) && OverflowHiddenAt(vs, i)
    ensures vs[i] == q
  {
    forall j | 0 <= j < i ensures vs[j] % WORD64 < q { assert Reduced(vs)[j] < q; }
  }

  lemma NewMaximumHits(vs: seq<nat>, i: nat)
    requires SortedFrom(vs, 0) && forall q :: HitMeansMember(vs, q)
    ensures OverflowHiddenAt(vs, i)
  {
    if i < |vs| && vs[i] >= WORD64 && !OverflowHiddenAt(vs, i) {
      var q := vs[i] % WORD64;
      HitsAt(Reduced(vs), i, q);
      assert HitMeansMember(vs, q);
      var j :| 0 <= j < |vs| && vs[j] == q;
      if j >= i { SortedPair(vs, 0, i, j); }
      assert false;
    }
  }

  /** Without a value past 64 bits, a match is membership. */
  lemma FitsMeansMember(vs: seq<nat>, q: nat)
    requires SortedFrom(vs, 0) && Fits(vs)
    ensures Hits(Reduced(vs), q) <==> q in vs
  {
    ReducedFits(vs);
    if q in vs { assert q < WORD64; NothingMissed(vs, q); }
    if Hits(vs, q) { var i := HitIndex(vs, q); }
  }

  /** A filter of one value, 2^64 + 7, is accepted and matches the hash 7. */
  lemma OverflowCanMatch<E(!new)>(params: Params<E>)
    requires params.P == 63 && params.M < BASE
    ensures var f := Filter(1, params.M, CodeAll(63, [WORD64 + 7], 0));
            Valid(params, f) && Values(params, f) == [WORD64 + 7] && Hits(Reduced(Values(params, f)), 7)
                && 7 !in Values(params, f)
  {
    var vs := [WORD64 + 7];
    assert vs[1..] == [];
    CodeAllBack(63, vs, 0, []);
    assert CodeAll(63, vs, 0) + [] == CodeAll(63, vs, 0);
    assert Reduced(vs)[0] == 7;
  }

  lemma SameMembers(a: seq<nat>, b: seq<nat>)
    requires multiset(a) == multiset(b)
    ensures forall v :: v in a <==> v in b
  {
    forall v ensures v in a <==> v in b { assert multiset(a)[v] == multiset(b)[v]; }
  }

  /** For a filter built from some elements a match means the hash of one of them; each of them matches. */
  lemma BuiltMatches<E(!new)>(params: Params<E>, f: Filter, elements: seq<E>, e: E)
    requires Valid(params, f) && Values(params, f) == Sort(params.Hashes(elements, f.F))
    ensures Hits(Reduced(Values(params, f)), params.InRange(e, f.F))
            <==> exists i | 0 <= i < |elements| :: params.InRange(elements[i], f.F) == params.InRange(e, f.F)
  {
    var hashes := params.Hashes(elements, f.F);
    RangeFits(f.N, params.M);
    SortSorts(hashes);
    SameMembers(Sort(hashes), hashes);
    HashesFit(params, elements, f.F);
    FitsMeansMember(Sort(hashes), params.InRange(e, f.F));
    if i :| 0 <= i < |elements| && params.InRange(elements[i], f.F) == params.InRange(e, f.F) {
      assert hashes[i] in hashes;
    }
    if params.InRange(e, f.F) in hashes { var i :| 0 <= i < |hashes| && hashes[i] == params.InRange(e, f.F); }
  }

  /** No false negatives: every element a filter was built from matches it. */
  lemma NoFalseNegatives<E(!new)>(params: Params<E>, f: Filter, elements: seq<E>, i: nat)
    requires Valid(params, f) && Values(params, f) == Sort(params.Hashes(elements, f.F)) && i < |elements|
    ensures Hits(Reduced(Values(params, f)), params.InRange(elements[i], f.F))
  {
    BuiltMatches(params, f, elements, elements[i]);
  }
}
