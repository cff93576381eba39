/**
 Scattered errors. A register whose words can be evaluated at three roots in geometric
 progression tells apart any two inputs that differ in at most three symbols, as long as the
 powers of the ratio tell their positions apart.
 */
module Syndromes {
  import opened LinearCode

  const ORDER: nat := 1023

  /** The roots are base, base times ratio and base times ratio squared; `at(i, w)` is the value of a word at one. */
  datatype Roots<!W(!new)> = Roots(reg: Register<W>, small: W -> bool, base: W -> W, ratio: W -> W, at: (nat, W) -> W)
  {
    function Power(n: nat, u: W): W { if n == 0 then u else ratio(Power(n - 1, u)) }

    function BasePower(n: nat, u: W): W { if n == 0 then u else base(BasePower(n - 1, u)) }

    /** The register after n zeros. */
    function Steps(n: nat, w: W): W { if n == 0 then w else reg.step(Steps(n - 1, w), reg.zero) }

    ghost predicate SumsAt(a: W, b: W, c: W) {
      reg.xor(a, b) == reg.xor(b, a) && reg.xor(reg.xor(a, b), c) == reg.xor(a, reg.xor(b, c))
    }

    ghost predicate BaseAt(a: W, b: W) {
      small(a) && small(b) ==>
        && small(base(a)) && base(reg.xor(a, b)) == reg.xor(base(a), base(b))
        && (base(a) == reg.zero ==> a == reg.zero) && base(ratio(a)) == ratio(base(a))
    }

    ghost predicate RatioAt(a: W, b: W) {
      small(a) && small(b) ==>
        && small(reg.xor(a, b)) && small(ratio(a)) && ratio(reg.xor(a, b)) == reg.xor(ratio(a), ratio(b))
        && (ratio(a) == reg.zero ==> a == reg.zero)
    }

    // Different positions have different powers of the ratio.
    ghost predicate SeparatesAt(d: nat, u: W) {
      1 <= d < ORDER && small(u) && Power(d, u) == u ==> u == reg.zero
    }

    // A step multiplies the value by the root.
    ghost predicate ValueAt(i: nat, c: W, d: W) {
      i < 3 && reg.fits(6, c) && reg.fits(6, d) ==>
        && small(at(i, c)) && at(i, reg.xor(c, d)) == reg.xor(at(i, c), at(i, d))
        && at(i, reg.step(c, reg.zero)) == Power(i, base(at(i, c)))
    }

    ghost predicate ConstantAt(i: nat, v: W) {
      reg.fits(1, v) && i < 3 ==> reg.fits(6, v) && small(v) && at(i, v) == v && reg.step(reg.zero, v) == v
    }

    ghost predicate Lawful() {
      && reg.Lawful() && small(reg.zero)
      && (forall a, b, c :: SumsAt(a, b, c)) && (forall a, b :: BaseAt(a, b)) && (forall a, b :: RatioAt(a, b))
      && (forall d, u :: SeparatesAt(d, u)) && (forall i, c, d :: ValueAt(i, c, d)) && (forall i, v :: ConstantAt(i, v))
    }
  }

  // ---------- sums ----------

  lemma Exchange<W(!new)>(r: Roots<W>, a: W, b: W, c: W, d: W)
    requires r.Lawful() && r.reg.xor(a, b) == r.reg.xor(c, d)
    ensures r.reg.xor(a, c) == r.reg.xor(b, d)
  {
    assert r.reg.GroupAt(a, b) && r.reg.GroupAt(c, d);
    assert r.SumsAt(a, c, d) && r.reg.GroupAt(a, r.reg.zero);
    var s := r.reg.xor(c, d);
    assert b == r.reg.xor(a, s);
    assert r.SumsAt(a, s, d) && r.SumsAt(c, d, d) && r.reg.GroupAt(d, c) && r.reg.GroupAt(c, r.reg.zero);
    assert r.reg.xor(b, d) == r.reg.xor(a, r.reg.xor(s, d));
    assert r.reg.xor(s, d) == r.reg.xor(c, r.reg.xor(d, d));
  }

  lemma SumZero<W(!new)>(r: Roots<W>, a: W, b: W)
    requires r.Lawful() && r.reg.xor(a, b) == r.reg.zero
    ensures a == b
  {
    assert r.reg.GroupAt(a, b);
  }

  lemma SumSelf<W(!new)>(r: Roots<W>, a: W)
    requires r.Lawful()
    ensures r.reg.xor(a, a) == r.reg.zero
  {
    assert r.reg.GroupAt(a, a);
  }

  // ---------- powers ----------

  lemma {:induction false} PowerAdd<W(!new)>(r: Roots<W>, i: nat, j: nat, u: W)
    ensures r.Power(i + j, u) == r.Power(i, r.Power(j, u))
  {
    if i > 0 { PowerAdd(r, i - 1, j, u); }
  }

  lemma {:induction false} PowerLaws<W(!new)>(r: Roots<W>, n: nat, a: W, b: W)
    requires r.Lawful() && r.small(a) && r.small(b)
    ensures r.small(r.Power(n, a)) && r.Power(n, r.reg.xor(a, b)) == r.reg.xor(r.Power(n, a), r.Power(n, b))
    ensures r.Power(n, a) == r.reg.zero ==> a == r.reg.zero
    ensures r.small(r.reg.xor(a, b)) && r.base(r.Power(n, a)) == r.Power(n, r.base(a))
  {
    assert r.RatioAt(a, b) && r.BaseAt(a, b);
    if n > 0 {
      PowerLaws(r, n - 1, a, b);
      PowerLaws(r, n - 1, b, b);
      assert r.RatioAt(r.Power(n - 1, a), r.Power(n - 1, b)) && r.BaseAt(r.Power(n - 1, a), r.Power(n - 1, b));
    }
  }

  lemma PowerInjective<W(!new)>(r: Roots<W>, n: nat, a: W, b: W)
    requires r.Lawful() && r.small(a) && r.small(b) && r.Power(n, a) == r.Power(n, b)
    ensures a == b
  {
    PowerLaws(r, n, a, b);
    SumSelf(r, r.Power(n, a));
    PowerLaws(r, n, r.reg.xor(a, b), r.reg.xor(a, b));
    SumZero(r, a, b);
  }

  lemma {:induction false} BasePowerLaws<W(!new)>(r: Roots<W>, n: nat, u: W)
    requires r.Lawful() && r.small(u)
    ensures r.small(r.BasePower(n, u)) && (r.BasePower(n, u) == r.reg.zero ==> u == r.reg.zero)
  {
    if n > 0 {
      BasePowerLaws(r, n - 1, u);
      assert r.BaseAt(r.BasePower(n - 1, u), r.BasePower(n - 1, u));
    }
  }

  // ---------- registers ----------

  lemma {:induction false} StepsLaws<W(!new)>(r: Roots<W>, n: nat, c: W, d: W)
    requires r.Lawful() && r.reg.fits(6, c) && r.reg.fits(6, d)
    ensures r.reg.fits(6, r.Steps(n, c)) && r.reg.fits(6, r.reg.xor(c, d))
    ensures r.Steps(n, r.reg.xor(c, d)) == r.reg.xor(r.Steps(n, c), r.Steps(n, d))
    ensures r.Steps(n, c) == r.reg.zero ==> c == r.reg.zero
  {
    assert r.reg.FullAt(c, d);
    if n > 0 {
      StepsLaws(r, n - 1, c, d);
      StepsLaws(r, n - 1, d, d);
      var x, y := r.Steps(n - 1, c), r.Steps(n - 1, d);
      assert r.reg.FullAt(x, r.reg.zero) && r.reg.LinearAt(x, y, r.reg.zero, r.reg.zero)
          && r.reg.GroupAt(r.reg.zero, r.reg.zero);
    }
  }

  lemma {:induction false} StepsAdd<W(!new)>(r: Roots<W>, m: nat, n: nat, w: W)
    ensures r.Steps(m + n, w) == r.Steps(m, r.Steps(n, w))
  {
    if m > 0 { StepsAdd(r, m - 1, n, w); }
  }

  /** The value of a word after n zeros. */
  lemma {:induction false} ValueSteps<W(!new)>(r: Roots<W>, i: nat, n: nat, w: W)
    requires r.Lawful() && i < 3 && r.reg.fits(6, w)
    ensures r.small(r.at(i, w)) && r.at(i, r.Steps(n, w)) == r.Power(i * n, r.BasePower(n, r.at(i, w)))
  {
    assert r.ValueAt(i, w, w);
    if n > 0 {
      var u := r.BasePower(n - 1, r.at(i, w));
      ValueSteps(r, i, n - 1, w);
      StepsLaws(r, n - 1, w, w);
      assert r.ValueAt(i, r.Steps(n - 1, w), w);
      BasePowerLaws(r, n - 1, r.at(i, w));
      PowerLaws(r, i * (n - 1), u, u);
      PowerAdd(r, i, i * (n - 1), r.base(u));
      assert i + i * (n - 1) == i * n;
    }
  }

  // ---------- three terms ----------

  function Sum3<W(!new)>(r: Roots<W>, a: W, b: W, c: W): W { r.reg.xor(r.reg.xor(a, b), c) }

  /** If A^p a = A^q a for different positions then a is zero. */
  lemma SamePlace<W(!new)>(r: Roots<W>, p: nat, q: nat, a: W)
    requires r.Lawful() && q < p < q + ORDER && r.small(a) && r.Power(p, a) == r.Power(q, a)
    ensures a == r.reg.zero
  {
    PowerAdd(r, q, p - q, a);
    PowerLaws(r, p - q, a, a);
    PowerInjective(r, q, r.Power(p - q, a), a);
    assert r.SeparatesAt(p - q, a);
  }

  /** Three terms that vanish at the zeroth, first and second power are all zero. */
  lemma ThreeTerms<W(!new)>(r: Roots<W>, p: nat, q: nat, u: W, v: W, w: W)
    requires r.Lawful() && 1 <= q < p < ORDER && r.small(u) && r.small(v) && r.small(w)
    requires Sum3(r, u, v, w) == r.reg.zero
    requires Sum3(r, r.Power(p, u), r.Power(q, v), w) == r.reg.zero
    requires Sum3(r, r.Power(2 * p, u), r.Power(2 * q, v), w) == r.reg.zero
    ensures u == v == w == r.reg.zero
  {
    var zero := r.reg.zero;
    var u1, v1, u2, v2 := r.Power(p, u), r.Power(q, v), r.Power(2 * p, u), r.Power(2 * q, v);
    SumZero(r, r.reg.xor(u, v), w);
    SumZero(r, r.reg.xor(u1, v1), w);
    SumZero(r, r.reg.xor(u2, v2), w);
    Exchange(r, u1, v1, u, v);
    Exchange(r, u2, v2, u1, v1);
    var a, b := r.reg.xor(u1, u), r.reg.xor(v1, v);
    assert a == b;
    PowerLaws(r, p, u, u);
    PowerLaws(r, q, v, v);
    PowerAdd(r, p, p, u);
    PowerAdd(r, q, q, v);
    PowerLaws(r, p, u1, u);
    PowerLaws(r, q, v1, v);
    assert p + p == 2 * p && q + q == 2 * q;
    assert r.Power(p, a) == r.reg.xor(u2, u1) && r.Power(q, a) == r.reg.xor(v2, v1);
    SamePlace(r, p, q, a);
    SumZero(r, u1, u);
    SumZero(r, v1, v);
    assert r.SeparatesAt(p, u) && r.SeparatesAt(q, v);
    assert r.reg.GroupAt(zero, zero);
  }

  lemma ValueOfSum<W(!new)>(r: Roots<W>, i: nat, p: nat, q: nat, e: W, f: W, g: W)
    requires r.Lawful() && i < 3 && r.reg.fits(1, e) && r.reg.fits(1, f) && r.reg.fits(1, g)
    requires Sum3(r, r.Steps(p, e), r.Steps(q, f), g) == r.reg.zero
    ensures r.small(e) && r.small(f) && r.small(g)
    ensures Sum3(r, r.Power(i * p, r.BasePower(p, e)), r.Power(i * q, r.BasePower(q, f)), g) == r.reg.zero
  {
    assert r.ConstantAt(i, e) && r.ConstantAt(i, f) && r.ConstantAt(i, g) && r.ConstantAt(i, r.reg.zero);
    ValueSteps(r, i, p, e);
    ValueSteps(r, i, q, f);
    var x, y := r.Steps(p, e), r.Steps(q, f);
    StepsLaws(r, p, e, e);
    StepsLaws(r, q, f, f);
    StepsLaws(r, 0, x, y);
    assert r.ValueAt(i, x, y) && r.ValueAt(i, r.reg.xor(x, y), g);
  }

  /** Three symbols at different distances cancel only if they are zero. */
  lemma ThreeSymbols<W(!new)>(r: Roots<W>, p: nat, q: nat, e: W, f: W, g: W)
    requires r.Lawful() && 1 <= q < p < ORDER && r.reg.fits(1, e) && r.reg.fits(1, f) && r.reg.fits(1, g)
    requires Sum3(r, r.Steps(p, e), r.Steps(q, f), g) == r.reg.zero
    ensures e == f == g == r.reg.zero
  {
    ValueOfSum(r, 0, p, q, e, f, g);
    ValueOfSum(r, 1, p, q, e, f, g);
    ValueOfSum(r, 2, p, q, e, f, g);
    BasePowerLaws(r, p, e);
    BasePowerLaws(r, q, f);
    assert 0 * p == 0 && 0 * q == 0 && 1 * p == p && 1 * q == q;
    ThreeTerms(r, p, q, r.BasePower(p, e), r.BasePower(q, f), g);
  }

  // ---------- lists of symbols ----------

  ghost predicate ZeroBetween<W(!new)>(r: Roots<W>, zs: seq<W>, lo: nat, hi: nat) {
    lo <= hi <= |zs| && forall n | lo <= n < hi :: zs[n] == r.reg.zero
  }

  lemma {:induction false} FoldZeros<W(!new)>(r: Roots<W>, c: W, zs: seq<W>)
    requires ZeroBetween(r, zs, 0, |zs|)
    ensures r.reg.Fold(c, zs) == r.Steps(|zs|, c)
  {
    if zs != [] { FoldZeros(r, c, zs[..|zs| - 1]); }
  }

  /** Zeros and then one symbol. */
  lemma FoldPiece<W(!new)>(r: Roots<W>, c: W, zs: seq<W>, n: nat)
    requires r.Lawful() && r.reg.fits(6, c) && |zs| == n + 1 && ZeroBetween(r, zs, 0, n) && r.reg.fits(1, zs[n])
    ensures r.reg.Fold(c, zs) == r.reg.xor(r.Steps(n + 1, c), zs[n])
  {
    FoldZeros(r, c, zs[..n]);
    var x := r.Steps(n, c);
    assert r.reg.LinearAt(x, r.reg.zero, r.reg.zero, zs[n]) && r.reg.GroupAt(x, x) && r.reg.GroupAt(zs[n], zs[n]);
    assert r.ConstantAt(0, zs[n]);
  }

  lemma {:induction false} StepsZero<W(!new)>(r: Roots<W>, n: nat)
    requires r.Lawful()
    ensures r.Steps(n, r.reg.zero) == r.reg.zero
  {
    if n > 0 { StepsZero(r, n - 1); }
    assert r.ConstantAt(0, r.reg.zero);
  }

  /** The register after three symbols among zeros. */
  lemma FoldThreeSymbols<W(!new)>(r: Roots<W>, a: seq<W>, b: seq<W>, c: seq<W>)
    requires r.Lawful() && a != [] && b != [] && c != []
    requires ZeroBetween(r, a, 0, |a| - 1) && ZeroBetween(r, b, 0, |b| - 1) && ZeroBetween(r, c, 0, |c| - 1)
    requires r.reg.fits(1, a[|a| - 1]) && r.reg.fits(1, b[|b| - 1]) && r.reg.fits(1, c[|c| - 1])
    ensures r.reg.Fold(r.reg.zero, a + b + c)
            == Sum3(r, r.Steps(|b| + |c|, a[|a| - 1]), r.Steps(|c|, b[|b| - 1]), c[|c| - 1])
    ensures r.reg.fits(6, r.reg.Fold(r.reg.zero, a + b + c))
  {
    var e, f, g := a[|a| - 1], b[|b| - 1], c[|c| - 1];
    assert r.ConstantAt(0, e) && r.ConstantAt(0, f) && r.ConstantAt(0, g) && r.ConstantAt(0, r.reg.zero);
    FoldThree(r.reg, r.reg.zero, a, b, c);
    FoldPiece(r, r.reg.zero, a, |a| - 1);
    StepsZero(r, |a|);
    assert r.reg.GroupAt(e, e);
    FoldPiece(r, e, b, |b| - 1);
    StepsLaws(r, |b|, e, e);
    StepsLaws(r, |c|, r.Steps(|b|, e), f);
    var y := r.reg.xor(r.Steps(|b|, e), f);
    FoldPiece(r, y, c, |c| - 1);
    StepsAdd(r, |c|, |b|, e);
    StepsLaws(r, |c|, y, y);
    StepsLaws(r, 0, r.Steps(|c|, y), g);
  }

  /**
   A list with at most three symbols that are not zero, close enough together, and the empty
   register: all are zero.
   */
  lemma ThreePlaces<W(!new)>(r: Roots<W>, zs: seq<W>, i: nat, j: nat, k: nat)
    requires r.Lawful() && r.reg.Symbols(zs) && i < j < k < |zs| && k - i < ORDER
    requires ZeroBetween(r, zs, 0, i) && ZeroBetween(r, zs, i + 1, j) && ZeroBetween(r, zs, j + 1, k)
    requires ZeroBetween(r, zs, k + 1, |zs|)
    requires r.reg.Fold(r.reg.zero, zs) == r.reg.zero
    ensures zs[i] == zs[j] == zs[k] == r.reg.zero
  {
    var a, b, c, t := zs[0..i + 1], zs[i + 1..j + 1], zs[j + 1..k + 1], zs[k + 1..];
    Cut(zs, i, j, k);
    PieceAt(r, zs, 0, i);
    PieceAt(r, zs, i + 1, j);
    PieceAt(r, zs, j + 1, k);
    RestZeros(r, zs, k + 1);
    Cancelled(r, zs, a, b, c, t, zs[i], zs[j], zs[k]);
  }

  lemma Cut<W>(zs: seq<W>, i: nat, j: nat, k: nat)
    requires i < j < k < |zs|
    ensures zs == zs[0..i + 1] + zs[i + 1..j + 1] + zs[j + 1..k + 1] + zs[k + 1..]
  {
  }

  /** Zeros and then the symbol e. */
  ghost predicate Piece<W(!new)>(r: Roots<W>, a: seq<W>, e: W) {
    a != [] && ZeroBetween(r, a, 0, |a| - 1) && a[|a| - 1] == e && r.reg.fits(1, e)
  }

  lemma PieceAt<W(!new)>(r: Roots<W>, zs: seq<W>, lo: nat, hi: nat)
    requires lo <= hi < |zs| && ZeroBetween(r, zs, lo, hi) && r.reg.Symbols(zs)
    ensures Piece(r, zs[lo..hi + 1], zs[hi])
  {
    assert r.reg.SymbolAt(zs, hi);
  }

  lemma RestZeros<W(!new)>(r: Roots<W>, zs: seq<W>, lo: nat)
    requires lo <= |zs| && ZeroBetween(r, zs, lo, |zs|)
    ensures ZeroBetween(r, zs[lo..], 0, |zs| - lo)
  {
  }

  lemma Cancelled<W(!new)>(r: Roots<W>, zs: seq<W>, a: seq<W>, b: seq<W>, c: seq<W>, t: seq<W>, e: W, f: W, g: W)
    requires r.Lawful() && Piece(r, a, e) && Piece(r, b, f) && Piece(r, c, g) && |b| + |c| < ORDER
    requires zs == a + b + c + t && ZeroBetween(r, t, 0, |t|) && r.reg.Fold(r.reg.zero, zs) == r.reg.zero
    ensures e == f == g == r.reg.zero
  {
    var w := r.reg.Fold(r.reg.zero, a + b + c);
    FoldCat(r.reg, r.reg.zero, a + b + c, t);
    FoldThreeSymbols(r, a, b, c);
    FoldZeros(r, w, t);
    StepsLaws(r, |t|, w, w);
    ThreeSymbols(r, |b| + |c|, |c|, e, f, g);
  }

  /** Two lists of symbols that differ in at most three given places leave different registers. */
  lemma DistinctPlaces<W(!new)>(r: Roots<W>, c: W, xs: seq<W>, ys: seq<W>, i: nat, j: nat, k: nat)
    requires r.Lawful() && |xs| == |ys| && r.reg.Symbols(xs) && r.reg.Symbols(ys) && i < j < k < |xs| && k - i < ORDER
    requires forall n | 0 <= n < |xs| && n != i && n != j && n != k :: xs[n] == ys[n]
    requires r.reg.Fold(c, xs) == r.reg.Fold(c, ys)
    ensures xs == ys
  {
    var zs := Difference(r.reg, xs, ys);
    FoldLinear(r.reg, c, c, zs, xs, ys);
    assert r.reg.GroupAt(c, c);
    SumSelf(r, r.reg.Fold(c, xs));
    DifferenceSymbols(r.reg, xs, ys);
    forall n | 0 <= n < |zs| && n != i && n != j && n != k ensures zs[n] == r.reg.zero {
      assert XorAt(r.reg, zs, xs, ys, n);
      SumSelf(r, xs[n]);
    }
    ThreePlaces(r, zs, i, j, k);
    forall n | n == i || n == j || n == k ensures xs[n] == ys[n] {
      assert XorAt(r.reg, zs, xs, ys, n);
      SumZero(r, xs[n], ys[n]);
    }
  }

  lemma Padded<W(!new)>(r: Roots<W>, c: W, xs: seq<W>)
    requires r.Lawful() && r.reg.Symbols(xs)
    ensures var more := xs + [r.reg.zero, r.reg.zero];
            r.reg.Symbols(more) && r.reg.Fold(c, more) == r.reg.Fold(r.reg.Fold(c, xs), [r.reg.zero, r.reg.zero])
  {
    var more := xs + [r.reg.zero, r.reg.zero];
    forall n ensures r.reg.SymbolAt(more, n) { assert r.reg.SymbolAt(xs, n); }
    FoldCat(r.reg, c, xs, [r.reg.zero, r.reg.zero]);
  }

  /** Three different places within a window of 1023, among them the given ones. */
  function Spread(i: nat, j: nat, k: nat): (p: (nat, nat, nat))
    requires i <= j <= k < i + ORDER
    ensures p.0 < p.1 < p.2 <= k + 2 && p.2 - p.0 < ORDER
    ensures i == p.0 && (j == p.0 || j == p.1 || j == p.2) && (k == p.0 || k == p.1 || k == p.2)
  {
    if i < j < k then (i, j, k)
    else if i + 1 < k then (i, i + 1, k)
    else (i, i + 1, i + 2)
  }

  lemma ThreeErrorsDetected<W(!new)>(r: Roots<W>, c: W, xs: seq<W>, ys: seq<W>, i: nat, j: nat, k: nat)
    requires r.Lawful() && |xs| == |ys| && r.reg.Symbols(xs) && r.reg.Symbols(ys) && i <= j <= k < |xs| && k - i < ORDER
    requires forall n | 0 <= n < |xs| && n != i && n != j && n != k :: xs[n] == ys[n]
    requires r.reg.Fold(c, xs) == r.reg.Fold(c, ys)
    ensures xs == ys
  {
    var more, more' := xs + [r.reg.zero, r.reg.zero], ys + [r.reg.zero, r.reg.zero];
    Padded(r, c, xs);
    Padded(r, c, ys);
    var p := Spread(i, j, k);
    DistinctPlaces(r, c, more, more', p.0, p.1, p.2);
    assert xs == more[..|xs|] && ys == more'[..|ys|];
  }

  // ---------- powers as maps ----------

  ghost predicate IsPowerAt<W(!new), F(!new)>(r: Roots<W>, apply: (F, W) -> W, n: nat, f: F, u: W) {
    r.Power(n, u) == apply(f, u)
  }

  /** The map f is the n-th power of the ratio. */
  ghost predicate IsPower<W(!new), F(!new)>(r: Roots<W>, apply: (F, W) -> W, n: nat, f: F) {
    forall u :: IsPowerAt(r, apply, n, f, u)
  }

  ghost predicate ComposesAt<W(!new), F(!new)>(apply: (F, W) -> W, f: F, g: F, h: F, u: W) {
    apply(f, apply(g, u)) == apply(h, u)
  }

  ghost predicate Composes<W(!new), F(!new)>(apply: (F, W) -> W, f: F, g: F, h: F) {
    forall u :: ComposesAt(apply, f, g, h, u)
  }

  lemma PowerSum<W(!new), F(!new)>(r: Roots<W>, apply: (F, W) -> W, m: nat, n: nat, k: nat, f: F, g: F, h: F)
    requires IsPower(r, apply, m, f) && IsPower(r, apply, n, g) && Composes(apply, f, g, h) && k == m + n
    ensures IsPower(r, apply, k, h)
  {
    forall u ensures IsPowerAt(r, apply, k, h, u) {
      assert IsPowerAt(r, apply, n, g, u) && IsPowerAt(r, apply, m, f, apply(g, u)) && ComposesAt(apply, f, g, h, u);
      PowerAdd(r, m, n, u);
    }
  }

  lemma PowerOne<W(!new), F(!new)>(r: Roots<W>, apply: (F, W) -> W, f: F)
    requires forall u :: r.ratio(u) == apply(f, u)
    ensures IsPower(r, apply, 1, f)
  {
    forall u ensures IsPowerAt(r, apply, 1, f, u) { assert r.Power(1, u) == r.ratio(r.Power(0, u)); }
  }

  lemma FirstPowers<W(!new)>(r: Roots<W>, w: W)
    ensures r.Power(0, w) == w && r.Power(1, w) == r.ratio(w) && r.Power(2, w) == r.ratio(r.ratio(w))
  {
    assert r.Power(1, w) == r.ratio(r.Power(0, w));
  }

  lemma PowerFixed<W(!new), F(!new)>(r: Roots<W>, apply: (F, W) -> W, n: nat, f: F, u: W)
    requires IsPower(r, apply, n, f)
    ensures r.Power(n, u) == apply(f, u)
  {
    assert IsPowerAt(r, apply, n, f, u);
  }

  // ---------- the order of the ratio ----------

  lemma {:induction false} FixedMultiple<W(!new)>(r: Roots<W>, g: nat, k: nat, u: W)
    requires r.Power(g, u) == u
    ensures r.Power(g * k, u) == u
  {
    if k > 0 {
      FixedMultiple(r, g, k - 1, u);
      assert g * k == g + g * (k - 1);
      PowerAdd(r, g, g * (k - 1), u);
    }
  }

  /** What is fixed by two powers is fixed by the power of a common divisor. */
  lemma {:induction false} FixedDivisor<W(!new)>(r: Roots<W>, a: nat, b: nat, u: W) returns (g: nat, x: nat, y: nat)
    requires a > 0 && b > 0 && r.Power(a, u) == u && r.Power(b, u) == u
    ensures g > 0 && a == g * x && b == g * y && r.Power(g, u) == u
    decreases a + b
  {
    if a == b {
      g, x, y := a, 1, 1;
    } else if a > b {
      PowerAdd(r, a - b, b, u);
      var z;
      g, z, y := FixedDivisor(r, a - b, b, u);
      x := z + y;
      assert g * x == g * z + g * y;
    } else {
      PowerAdd(r, b - a, a, u);
      var z;
      g, x, z := FixedDivisor(r, a, b - a, u);
      y := x + z;
      assert g * y == g * x + g * z;
    }
  }

  /** A proper divisor of 1023 = 3 * 11 * 31 divides 33, 93 or 341. */
  lemma LargeDivisor(g: nat, y: nat) returns (n: nat, k: nat)
    requires g * y == ORDER && y > 1
    ensures (n == 33 || n == 93 || n == 341) && n == g * k
  {
    if y < 32 {
      SmallFactor(y, g);
      n, k := g, 1;
    } else {
      assert g < 32 by { if g >= 32 { BothLarge(g, y); } }
      SmallFactor(g, y);
      if g == 31 { n, k := 93, 3; } else if g == 1 { n, k := 33, 33; } else if g == 3 { n, k := 33, 11; }
          else { n, k := 33, 3; }
    }
  }

  lemma BothLarge(a: nat, b: nat)
    requires a >= 32 && b >= 32
    ensures a * b > ORDER
  {
    assert a * b >= 32 * b;
  }

  lemma SmallFactor(a: nat, b: nat)
    requires a * b == ORDER && a < 32
    ensures a == 1 || (a == 3 && b == 341) || (a == 11 && b == 93) || (a == 31 && b == 33)
  {
  }

  /** What is fixed by the full order and by less is fixed by one of three powers. */
  lemma FixedByLargeDivisor<W(!new)>(r: Roots<W>, d: nat, u: W) returns (n: nat)
    requires 1 <= d < ORDER && r.Power(d, u) == u && r.Power(ORDER, u) == u
    ensures (n == 33 || n == 93 || n == 341) && r.Power(n, u) == u
  {
    var g, x, y := FixedDivisor(r, d, ORDER, u);
    var k;
    n, k := LargeDivisor(g, y);
    FixedMultiple(r, g, k, u);
  }
}
