/**
 Numbers in base 2^32, least significant limb first, and the arithmetic that carries
 through them.
 */
module Limbs {
  import opened Numbers

  const BASE: nat := 0x1_0000_0000

  type Limb = x: nat | x < BASE

  // ---------- powers ----------

  lemma Pow2Values()
    ensures Pow2(8) == 0x100 && Pow2(16) == 0x1_0000 && Pow2(23) == 0x80_0000 && Pow2(24) == 0x100_0000
            && Pow2(32) == BASE
  {
    assert Pow2(8) == 0x100;
    Pow2Add(8, 8);
    Pow2Add(16, 8);
    Pow2Add(16, 7);
    Pow2Add(16, 16);
  }

  /** The weight of a limb. */
  function Weight(i: nat): (w: nat)
    ensures w > 0
  {
    if i == 0 then 1 else BASE * Weight(i - 1)
  }

  lemma {:induction false} WeightAdd(i: nat, j: nat)
    ensures Weight(i + j) == Weight(i) * Weight(j)
  {
    if i > 0 {
      WeightAdd(i - 1, j);
      assert BASE * (Weight(i - 1) * Weight(j)) == BASE * Weight(i - 1) * Weight(j);
    }
  }

  lemma {:induction false} WeightIsPow2(i: nat)
    ensures Weight(i) == Pow2(32 * i)
  {
    if i > 0 {
      WeightIsPow2(i - 1);
      Pow2Add(32, 32 * (i - 1));
      Pow2Values();
    }
  }

  // ---------- values ----------

  function Value(s: seq<Limb>): nat {
    if s == [] then 0 else Value(s[..|s| - 1]) + s[|s| - 1] * Weight(|s| - 1)
  }

  lemma ValueNext(s: seq<Limb>, i: nat)
    requires i < |s|
    ensures Value(s[..i + 1]) == Value(s[..i]) + s[i] * Weight(i)
  {
    assert s[..i + 1][..i] == s[..i];
  }

  lemma {:induction false} ValueBound(s: seq<Limb>)
    ensures Value(s) < Weight(|s|)
  {
    if s != [] {
      var w := Weight(|s| - 1);
      ValueBound(s[..|s| - 1]);
      MulLe(s[|s| - 1], BASE - 1, w);
      assert (BASE - 1) * w == BASE * w - w;
    }
  }

  lemma {:induction false} ValueZeros(s: seq<Limb>)
    requires forall i | 0 <= i < |s| :: s[i] == 0
    ensures Value(s) == 0
  {
    if s != [] { ValueZeros(s[..|s| - 1]); }
  }

  lemma {:induction false} ValueSplit(s: seq<Limb>, i: nat)
    requires i <= |s|
    ensures Value(s) == Value(s[..i]) + Weight(i) * Value(s[i..])
  {
    if i == |s| {
      assert s[..i] == s;
    } else {
      var n := |s| - 1;
      ValueSplit(s[..n], i);
      assert s[..n][..i] == s[..i] && s[..n][i..] == s[i..n];
      assert s[i..][..n - i] == s[i..n];
      WeightAdd(i, n - i);
      Spread(s[n], Weight(i), Weight(n - i), Value(s[i..n]));
    }
  }

  lemma Spread(x: nat, u: nat, v: nat, y: nat)
    ensures u * y + x * (u * v) == u * (y + x * v)
  {
  }

  lemma {:induction false} ValueUpdate(s: seq<Limb>, i: nat, x: Limb)
    requires i < |s|
    ensures Value(s[i := x]) == Value(s) + (x - s[i]) * Weight(i)
  {
    var n := |s| - 1;
    if i == n {
      assert s[i := x][..n] == s[..n];
      assert (x - s[i]) * Weight(i) == x * Weight(i) - s[i] * Weight(i);
    } else {
      assert s[i := x][..n] == s[..n][i := x];
      ValueUpdate(s[..n], i, x);
    }
  }

  // ---------- bits of a limb ----------

  /** Bitwise or. */
  function Or(x: nat, y: nat): nat {
    if x == 0 then y
    else if y == 0 then x
    else (if x % 2 == 1 || y % 2 == 1 then 1 else 0) + 2 * Or(x / 2, y / 2)
  }

  /** Numbers whose bits do not meet add up under or. */
  lemma {:induction false} OrDisjoint(x: nat, k: nat, n: nat)
    requires x < Pow2(n)
    ensures Or(x, k * Pow2(n)) == x + k * Pow2(n) && Or(k * Pow2(n), x) == x + k * Pow2(n)
  {
    if n > 0 {
      var half := k * Pow2(n - 1);
      Twice(k, Pow2(n - 1));
      OrDisjoint(x / 2, k, n - 1);
      OrEven(x, half);
    }
  }

  lemma Twice(k: nat, p: nat)
    ensures k * (2 * p) == 2 * (k * p)
  {
  }

  lemma OrEven(x: nat, half: nat)
    requires Or(x / 2, half) == x / 2 + half && Or(half, x / 2) == x / 2 + half
    ensures Or(x, 2 * half) == x + 2 * half && Or(2 * half, x) == x + 2 * half
  {
  }

  /** Or with a number below a power of two leaves what is above it alone. */
  lemma {:induction false} OrBelow(x: nat, y: nat, k: nat, n: nat, high: nat)
    requires x < Pow2(n) && y < Pow2(n) && high == k * Pow2(n)
    ensures Or(x + high, y) == Or(x, y) + high
  {
    if n > 0 {
      var half := k * Pow2(n - 1);
      Twice(k, Pow2(n - 1));
      OrBelow(x / 2, y / 2, k, n - 1, half);
      OrHalves(x, y, half);
    }
  }

  lemma OrHalves(x: nat, y: nat, half: nat)
    requires Or(x / 2 + half, y / 2) == Or(x / 2, y / 2) + half
    ensures Or(x + 2 * half, y) == Or(x, y) + 2 * half
  {
    assert (x + 2 * half) / 2 == x / 2 + half && (x + 2 * half) % 2 == x % 2;
  }

  lemma SplitTimes(q: int, u: int, r: int, d: int)
    ensures (q * u + r) * d == q * (d * u) + r * d
  {
    assert (q * u + r) * d == q * u * d + r * d;
    assert q * u * d == q * (d * u);
  }

  lemma DivideBelow(x: nat, u: nat, d: nat)
    requires u > 0 && x < d * u
    ensures x / u < d
  {
    var q := x / u;
    assert x == q * u + x % u;
    if q >= d { MulLe(d, q, u); }
  }

  lemma ShiftedBy(x: nat, d: nat, u: nat)
    requires u > 0 && d > 0 && x < d * u
    ensures x / u == (x * d) / (d * u) < d
    ensures (x * d) % (d * u) == (x % u) * d
  {
    var q, r := x / u, x % u;
    assert x == q * u + r;
    SplitTimes(q, u, r, d);
    MulLt(r, u, d);
    Commute(u, d);
    Remainder(r * d, q, d * u, x * d);
    DivideBelow(x, u, d);
  }

  /** The two limbs that a limb becomes when it is shifted left by fewer than 32 bits. */
  lemma ShiftedLimb(x: Limb, n: nat)
    requires n < 32
    ensures x / Pow2(32 - n) == (x * Pow2(n)) / BASE < Pow2(n)
    ensures (x * Pow2(n)) % BASE == (x % Pow2(32 - n)) * Pow2(n)
  {
    Pow2Add(n, 32 - n);
    Pow2Values();
    ShiftedBy(x, Pow2(n), Pow2(32 - n));
  }
}
