/** Lists of Bech32 symbols that differ in a few places, for every code with roots in progression. */
module Bech32Errors {
  import opened LinearCode
  import opened Syndromes
  import opened Bech32

  predicate DifferAt(xs: seq<Symbol>, ys: seq<Symbol>, n: nat) {
    n < |xs| && n < |ys| && xs[n] != ys[n]
  }

  function Differences(xs: seq<Symbol>, ys: seq<Symbol>): set<nat> {
    set n: nat | n < |xs| && DifferAt(xs, ys, n)
  }

  /** At most three differences, within 1023 consecutive places. */
  predicate FewErrors(xs: seq<Symbol>, ys: seq<Symbol>) {
    var D := Differences(xs, ys);
    |D| <= 3 && forall a, b | a in D && b in D :: b - a < ORDER
  }

  /** Up to three places, in order. */
  lemma InOrder(D: set<nat>, a: nat) returns (i: nat, j: nat, k: nat)
    requires |D| <= 3 && a in D
    ensures i in D && j in D && k in D && i <= j <= k && D <= {i, j, k}
  {
    var b := Another(D, {a}, a);
    var c := Another(D, {a, b}, b);
    Exhausted(D, a, b, c);
    if a <= b <= c { i, j, k := a, b, c; }
    else if a <= c <= b { i, j, k := a, c, b; }
    else if b <= a <= c { i, j, k := b, a, c; }
    else if b <= c <= a { i, j, k := b, c, a; }
    else if c <= a <= b { i, j, k := c, a, b; }
    else { i, j, k := c, b, a; }
  }

  /** An element outside `seen` if there is one. */
  lemma Another(D: set<nat>, seen: set<nat>, a: nat) returns (b: nat)
    requires a in D && a in seen
    ensures b in D && (b in seen ==> b == a && D <= seen)
  {
    if x: nat :| x in D && x !in seen { b := x; } else { b := a; }
  }

  lemma Exhausted(D: set<nat>, a: nat, b: nat, c: nat)
    requires |D| <= 3 && a in D && b in D && c in D
    requires (b == a ==> D <= {a}) && (c in {a, b} ==> D <= {a, b})
    ensures D <= {a, b, c}
  {
    if x: nat :| x in D && x !in {a, b, c} {
      assert {a, b, c, x} <= D && |{a, b, c, x}| == 4;
      Larger({a, b, c, x}, D);
      assert false;
    }
  }

  lemma {:induction false} Larger(s: set<nat>, t: set<nat>)
    requires s <= t
    ensures |s| <= |t|
  {
    if s != {} {
      var x :| x in s;
      Larger(s - {x}, t - {x});
    }
  }

  lemma SameRemainder<W(!new)>(code: Code<W>, roots: Roots<W>, xs: seq<Symbol>, ys: seq<Symbol>)
    requires code.Lawful() && roots.Lawful() && roots.reg == code.register
    requires |xs| == |ys| && FewErrors(xs, ys) && code.Remainder(xs) == code.Remainder(ys)
    ensures xs == ys
  {
    if a :| a in Differences(xs, ys) {
      WordsAreSymbols(code, xs);
      WordsAreSymbols(code, ys);
      var i, j, k := InOrder(Differences(xs, ys), a);
      var us, vs := code.Words(xs), code.Words(ys);
      forall n | 0 <= n < |us| && n != i && n != j && n != k ensures us[n] == vs[n] {
        assert n !in Differences(xs, ys);
        assert !DifferAt(xs, ys, n);
      }
      ThreeErrorsDetected(roots, code.register.one, us, vs, i, j, k);
      WordsInjective(code, xs, ys);
    } else {
      forall n: nat | n < |xs| ensures xs[n] == ys[n] {
        assert n !in Differences(xs, ys);
        assert !DifferAt(xs, ys, n);
      }
    }
  }

  lemma FewAfterPrefix(prefix: seq<Symbol>, xs: seq<Symbol>, ys: seq<Symbol>)
    requires |xs| == |ys| && FewErrors(xs, ys)
    ensures FewErrors(prefix + xs, prefix + ys)
  {
    var n, D, E := |prefix|, Differences(prefix + xs, prefix + ys), Differences(xs, ys);
    forall a: nat ensures a in D <==> a >= n && a - n in E {
      assert a >= n ==> (DifferAt(prefix + xs, prefix + ys, a) <==> DifferAt(xs, ys, a - n));
    }
    Translated(D, E, n);
  }

  lemma {:induction false} Translated(D: set<nat>, E: set<nat>, n: nat)
    requires forall a: nat :: a in D <==> a >= n && a - n in E
    ensures |D| == |E|
  {
    if e :| e in E {
      assert n + e in D by { assert n + e - n == e; }
      Translated(D - {n + e}, E - {e}, n);
    } else {
      assert forall a: nat :: a !in D;
    }
  }

  // ---------- the human-readable part ----------

  predicate Bytes(hrp: string) { forall i | 0 <= i < |hrp| :: hrp[i] as int < 256 }

  /** The two symbols of a letter are its three high and its five low bits. */
  lemma ExpandedSplits(hrp: string, i: nat)
    requires Bytes(hrp) && i < |hrp|
    ensures 32 * (Expanded(hrp)[i] as int) + Expanded(hrp)[|hrp| + 1 + i] == hrp[i] as int
    ensures Expanded(hrp)[i] < 8
  {
  }

  /** Different human-readable parts expand differently. */
  lemma ExpandedInjective(g: string, h: string)
    requires Bytes(g) && Bytes(h) && Expanded(g) == Expanded(h)
    ensures g == h
  {
    assert |Expanded(g)| == |Expanded(h)|;
    forall i | 0 <= i < |g| ensures g[i] == h[i] {
      ExpandedSplits(g, i);
      ExpandedSplits(h, i);
    }
  }

  /** What is divided: the expanded human-readable part and the symbols. */
  function Whole(hrp: string, values: seq<Symbol>): seq<Symbol> { Expanded(hrp) + values }

  lemma WholeInjective(g: string, xs: seq<Symbol>, h: string, ys: seq<Symbol>)
    requires Bytes(g) && Bytes(h) && |g| == |h| && Whole(g, xs) == Whole(h, ys)
    ensures g == h && xs == ys
  {
    var n := |Expanded(g)|;
    assert Whole(g, xs)[..n] == Expanded(g) && Whole(h, ys)[..n] == Expanded(h);
    assert Whole(g, xs)[n..] == xs && Whole(h, ys)[n..] == ys;
    ExpandedInjective(g, h);
  }

  /** Up to three differences, anywhere in the expanded string, are noticed. */
  lemma WholeFewErrors<W(!new)>(code: Code<W>, roots: Roots<W>, g: string, xs: seq<Symbol>, h: string, ys: seq<Symbol>)
    requires code.Lawful() && roots.Lawful() && roots.reg == code.register && Bytes(g) && Bytes(h)
    requires |g| == |h| && |xs| == |ys| && FewErrors(Whole(g, xs), Whole(h, ys))
    requires Verified(code, g, xs) && Verified(code, h, ys)
    ensures g == h && xs == ys
  {
    SameRemainder(code, roots, Whole(g, xs), Whole(h, ys));
    WholeInjective(g, xs, h, ys);
  }

  /** So is any change within six consecutive symbols of it. */
  lemma WholeBurst<W(!new)>(code: Code<W>, g: string, xs: seq<Symbol>, h: string, ys: seq<Symbol>, k: nat)
    requires code.Lawful() && Bytes(g) && Bytes(h) && |g| == |h| && |xs| == |ys|
    requires var a, b := Whole(g, xs), Whole(h, ys); forall i | 0 <= i < |a| && !(k <= i < k + 6) :: a[i] == b[i]
    requires Verified(code, g, xs) && Verified(code, h, ys)
    ensures g == h && xs == ys
  {
    BurstRemainder(code, Whole(g, xs), Whole(h, ys), k);
    WholeInjective(g, xs, h, ys);
  }

  lemma BurstRemainder<W(!new)>(code: Code<W>, xs: seq<Symbol>, ys: seq<Symbol>, k: nat)
    requires code.Lawful() && |xs| == |ys| && forall i | 0 <= i < |xs| && !(k <= i < k + 6) :: xs[i] == ys[i]
    requires code.Remainder(xs) == code.Remainder(ys)
    ensures xs == ys
  {
    WordsAreSymbols(code, xs);
    WordsAreSymbols(code, ys);
    var us, vs := code.Words(xs), code.Words(ys);
    forall i | 0 <= i < |us| && !(k <= i < k + 6) ensures us[i] == vs[i] { assert xs[i] == ys[i]; }
    var p, wx, wy, t := Window(us, vs, k);
    BurstDetected(code.register, code.register.one, p, wx, wy, t);
    WordsInjective(code, xs, ys);
  }

  /** One letter of the human-readable part changes at most two symbols. */
  lemma OneLetter(g: string, h: string, values: seq<Symbol>, i: nat)
    requires |g| == |h| < 500 && i < |g| && forall j | 0 <= j < |g| && j != i :: g[j] == h[j]
    ensures FewErrors(Whole(g, values), Whole(h, values))
  {
    var a, b, n := Whole(g, values), Whole(h, values), |g| + 1 + i;
    forall x: nat | x < |a| && x != i && x != n ensures a[x] == b[x] {
      if |g| < x < 2 * |g| + 1 {
        var j := x - |g| - 1;
        assert a[x] == LowBits(g[j]) && b[x] == LowBits(h[j]);
      }
    }
    assert Differences(a, b) <= {i, n};
    Larger(Differences(a, b), {i, n});
  }
}
