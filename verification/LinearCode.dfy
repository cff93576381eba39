/**
 Checksums computed by a linear shift register, whatever its words are. A register is fed
 symbols one at a time; `fits(n, w)` says that a word is one that n symbols can produce,
 and six symbols fill the register.
 */
module LinearCode {

  datatype Register<!W(!new)> = Register(zero: W, one: W, xor: (W, W) -> W, step: (W, W) -> W, fits: (nat, W) -> bool)
  {
    /** The register after a list of symbols. */
    function Fold(c: W, vs: seq<W>): W {
      if vs == [] then c else step(Fold(c, vs[..|vs| - 1]), vs[|vs| - 1])
    }

    predicate SymbolAt(vs: seq<W>, i: int) {
      0 <= i < |vs| ==> fits(1, vs[i])
    }

    ghost predicate Symbols(vs: seq<W>) {
      forall i :: SymbolAt(vs, i)
    }

    // The laws of exclusive or.
    ghost predicate GroupAt(a: W, b: W) {
      && xor(a, a) == zero && xor(a, zero) == a && xor(zero, a) == a && xor(a, xor(a, b)) == b
      && (xor(a, b) == zero ==> a == b)
    }

    // The step is linear.
    ghost predicate LinearAt(a: W, b: W, x: W, y: W) {
      step(xor(a, b), xor(x, y)) == xor(step(a, x), step(b, y))
    }

    // A register that is not yet full keeps all it has been fed.
    ghost predicate FillsAt(n: nat, c: W, v: W) {
      n < 6 && fits(n, c) && fits(1, v) ==> fits(n + 1, step(c, v)) && (step(c, v) == zero ==> c == zero && v == zero)
    }

    // A full register stays one, and the symbol zero loses nothing of it.
    ghost predicate FullAt(c: W, v: W) {
      fits(6, c) ==>
        && (fits(1, v) ==> fits(6, step(c, v)))
        && (fits(6, v) ==> fits(6, xor(c, v)))
        && (step(c, zero) == zero ==> c == zero)
    }

    ghost predicate ClosedAt(v: W, w: W) {
      fits(1, v) && fits(1, w) ==> fits(1, xor(v, w))
    }

    ghost predicate Lawful() {
      && fits(0, zero) && fits(1, zero) && fits(6, one)
      && (forall a, b :: GroupAt(a, b))
      && (forall a, b, x, y :: LinearAt(a, b, x, y))
      && (forall n, c, v :: FillsAt(n, c, v))
      && (forall c, v :: FullAt(c, v))
      && (forall v, w :: ClosedAt(v, w))
    }
  }

  lemma {:induction false} FoldCat<W(!new)>(r: Register<W>, c: W, xs: seq<W>, ys: seq<W>)
    ensures r.Fold(c, xs + ys) == r.Fold(r.Fold(c, xs), ys)
  {
    if ys == [] {
      assert xs + ys == xs;
    } else {
      var zs := xs + ys;
      assert zs[..|zs| - 1] == xs + ys[..|ys| - 1];
      FoldCat(r, c, xs, ys[..|ys| - 1]);
    }
  }

  predicate XorAt<W(==, !new)>(r: Register<W>, zs: seq<W>, xs: seq<W>, ys: seq<W>, i: int)
    requires |zs| == |xs| == |ys|
  {
    0 <= i < |zs| ==> zs[i] == r.xor(xs[i], ys[i])
  }

  ghost predicate IsXor<W(!new)>(r: Register<W>, zs: seq<W>, xs: seq<W>, ys: seq<W>) {
    |zs| == |xs| == |ys| && forall i :: XorAt(r, zs, xs, ys, i)
  }

  /** The register after a sum is the sum of the registers. */
  lemma {:induction false} FoldLinear<W(!new)>(r: Register<W>, a: W, b: W, zs: seq<W>, xs: seq<W>, ys: seq<W>)
    requires r.Lawful() && IsXor(r, zs, xs, ys)
    ensures r.Fold(r.xor(a, b), zs) == r.xor(r.Fold(a, xs), r.Fold(b, ys))
  {
    if zs != [] {
      var n := |zs| - 1;
      var zs', xs', ys' := zs[..n], xs[..n], ys[..n];
      forall i ensures XorAt(r, zs', xs', ys', i) { assert XorAt(r, zs, xs, ys, i); }
      FoldLinear(r, a, b, zs', xs', ys');
      assert XorAt(r, zs, xs, ys, n) && r.LinearAt(r.Fold(a, xs'), r.Fold(b, ys'), xs[n], ys[n]);
    }
  }

  lemma {:induction false} FoldFull<W(!new)>(r: Register<W>, c: W, vs: seq<W>)
    requires r.Lawful() && r.fits(6, c) && r.Symbols(vs)
    ensures r.fits(6, r.Fold(c, vs))
  {
    if vs != [] {
      var init := vs[..|vs| - 1];
      InitSymbols(r, vs);
      FoldFull(r, c, init);
      assert r.SymbolAt(vs, |vs| - 1) && r.FullAt(r.Fold(c, init), vs[|vs| - 1]);
    }
  }

  lemma InitSymbols<W(!new)>(r: Register<W>, vs: seq<W>)
    requires r.Symbols(vs) && vs != []
    ensures r.Symbols(vs[..|vs| - 1])
  {
    var init := vs[..|vs| - 1];
    forall i ensures r.SymbolAt(init, i) { assert r.SymbolAt(vs, i); }
  }

  lemma StepSeparates<W(!new)>(r: Register<W>, a: W, b: W, v: W)
    requires r.Lawful() && r.fits(6, a) && r.fits(6, b) && r.step(a, v) == r.step(b, v)
    ensures a == b
  {
    assert r.LinearAt(a, b, v, v) && r.GroupAt(v, v) && r.GroupAt(r.step(a, v), v);
    assert r.FullAt(a, b) && r.FullAt(r.xor(a, b), v) && r.GroupAt(a, b);
  }

  /** Different full registers stay different under the same symbols. */
  lemma {:induction false} TailInjective<W(!new)>(r: Register<W>, a: W, b: W, vs: seq<W>)
    requires r.Lawful() && r.fits(6, a) && r.fits(6, b) && r.Symbols(vs) && r.Fold(a, vs) == r.Fold(b, vs)
    ensures a == b
  {
    if vs != [] {
      var init := vs[..|vs| - 1];
      InitSymbols(r, vs);
      FoldFull(r, a, init);
      FoldFull(r, b, init);
      StepSeparates(r, r.Fold(a, init), r.Fold(b, init), vs[|vs| - 1]);
      TailInjective(r, a, b, init);
    }
  }

  /** An empty register keeps up to six symbols; it is empty again only after zeros. */
  lemma {:induction false} ShortFold<W(!new)>(r: Register<W>, e: seq<W>, i: nat)
    requires r.Lawful() && r.Symbols(e) && |e| <= 6
    ensures r.fits(|e|, r.Fold(r.zero, e))
    ensures r.Fold(r.zero, e) == r.zero && i < |e| ==> e[i] == r.zero
  {
    if e != [] {
      var init := e[..|e| - 1];
      InitSymbols(r, e);
      ShortFold(r, init, i);
      assert r.SymbolAt(e, |e| - 1) && r.FillsAt(|init|, r.Fold(r.zero, init), e[|e| - 1]);
    }
  }

  ghost function Difference<W(!new)>(r: Register<W>, xs: seq<W>, ys: seq<W>): (zs: seq<W>)
    requires |xs| == |ys|
    ensures IsXor(r, zs, xs, ys)
  {
    if xs == [] then []
    else
      var n := |xs| - 1;
      var init := Difference(r, xs[..n], ys[..n]);
      var zs := init + [r.xor(xs[n], ys[n])];
      assert forall i :: XorAt(r, zs, xs, ys, i) by {
        forall i ensures XorAt(r, zs, xs, ys, i) { assert XorAt(r, init, xs[..n], ys[..n], i); }
      }
      zs
  }

  lemma DifferenceSymbols<W(!new)>(r: Register<W>, xs: seq<W>, ys: seq<W>)
    requires r.Lawful() && |xs| == |ys| && r.Symbols(xs) && r.Symbols(ys)
    ensures r.Symbols(Difference(r, xs, ys))
  {
    var zs := Difference(r, xs, ys);
    forall i ensures r.SymbolAt(zs, i) {
      assert XorAt(r, zs, xs, ys, i) && r.SymbolAt(xs, i) && r.SymbolAt(ys, i);
      if 0 <= i < |xs| { assert r.ClosedAt(xs[i], ys[i]); }
    }
  }

  /** Up to six symbols can be told from what they do to a register. */
  lemma WindowInjective<W(!new)>(r: Register<W>, c: W, xs: seq<W>, ys: seq<W>)
    requires r.Lawful() && |xs| == |ys| <= 6 && r.Symbols(xs) && r.Symbols(ys) && r.Fold(c, xs) == r.Fold(c, ys)
    ensures xs == ys
  {
    var zs := Difference(r, xs, ys);
    FoldLinear(r, c, c, zs, xs, ys);
    assert r.GroupAt(c, c) && r.GroupAt(r.Fold(c, xs), c);
    DifferenceSymbols(r, xs, ys);
    forall i | 0 <= i < |xs| ensures xs[i] == ys[i] {
      ShortFold(r, zs, i);
      assert XorAt(r, zs, xs, ys, i) && r.GroupAt(xs[i], ys[i]);
    }
  }

  lemma FoldThree<W(!new)>(r: Register<W>, c: W, p: seq<W>, w: seq<W>, t: seq<W>)
    ensures r.Fold(c, p + w + t) == r.Fold(r.Fold(r.Fold(c, p), w), t)
  {
    FoldCat(r, c, p + w, t);
    FoldCat(r, c, p, w);
  }

  lemma PartSymbols<W(!new)>(r: Register<W>, p: seq<W>, w: seq<W>, t: seq<W>)
    requires r.Symbols(p + w + t)
    ensures r.Symbols(p) && r.Symbols(w) && r.Symbols(t)
  {
    var all := p + w + t;
    forall i ensures r.SymbolAt(p, i) { assert r.SymbolAt(all, i); }
    forall i ensures r.SymbolAt(w, i) { assert r.SymbolAt(all, |p| + i); assert 0 <= i < |w| ==> all[|p| + i] == w[i]; }
    forall i ensures r.SymbolAt(t, i) {
      assert r.SymbolAt(all, |p| + |w| + i);
      assert 0 <= i < |t| ==> all[|p| + |w| + i] == t[i];
    }
  }

  /** A change within six consecutive symbols changes the register at the end. */
  lemma BurstDetected<W(!new)>(r: Register<W>, c: W, p: seq<W>, wx: seq<W>, wy: seq<W>, t: seq<W>)
    requires r.Lawful() && r.fits(6, c) && |wx| == |wy| <= 6 && r.Symbols(p + wx + t) && r.Symbols(p + wy + t)
    requires r.Fold(c, p + wx + t) == r.Fold(c, p + wy + t)
    ensures wx == wy
  {
    PartSymbols(r, p, wx, t);
    PartSymbols(r, p, wy, t);
    FoldThree(r, c, p, wx, t);
    FoldThree(r, c, p, wy, t);
    FoldFull(r, c, p);
    FoldFull(r, r.Fold(c, p), wx);
    FoldFull(r, r.Fold(c, p), wy);
    TailInjective(r, r.Fold(r.Fold(c, p), wx), r.Fold(r.Fold(c, p), wy), t);
    WindowInjective(r, r.Fold(c, p), wx, wy);
  }

  /** Six symbols that alone give m xor 1, where six zeros give m, give 1. */
  lemma Completed<W(!new)>(r: Register<W>, c: W, zeros: seq<W>, g: seq<W>)
    requires r.Lawful() && |zeros| == |g| && forall i | 0 <= i < |zeros| :: zeros[i] == r.zero
    requires r.Fold(r.zero, g) == r.xor(r.Fold(c, zeros), r.one)
    ensures r.Fold(c, g) == r.one
  {
    forall i ensures XorAt(r, g, zeros, g, i) { if 0 <= i < |g| { assert r.GroupAt(g[i], r.zero); } }
    FoldLinear(r, c, r.zero, g, zeros, g);
    assert r.GroupAt(c, r.zero) && r.GroupAt(r.Fold(c, zeros), r.one);
  }
}
