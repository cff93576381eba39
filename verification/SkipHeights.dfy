/**
 The heights that skip links lead to, and how far a walk along them is: its number of steps
 is at most quadratic in the number of bits of the heights.
 */
module SkipHeights {
  import opened Numbers

  /** The number with its lowest 1 bit turned off: n & (n - 1). */
  function InvertLowestOne(n: nat): (r: nat)
    ensures n > 0 ==> r < n
    ensures n == 0 ==> r == 0
  {
    if n == 0 then 0
    else if n % 2 == 1 then n - 1
    else 2 * InvertLowestOne(n / 2)
  }

  /** A positive number is m ones-and-zeros, a 1, and k zeros; that 1 is what is turned off. */
  lemma {:induction false} LowestOne(n: nat) returns (m: nat, k: nat)
    requires n > 0
    ensures n == (2 * m + 1) * Pow2(k) && InvertLowestOne(n) == 2 * m * Pow2(k)
    ensures InvertLowestOne(n) == n - Pow2(k)
  {
    if n % 2 == 1 {
      m, k := n / 2, 0;
    } else {
      var k';
      m, k' := LowestOne(n / 2);
      k := k' + 1;
      assert (2 * m + 1) * (2 * Pow2(k')) == 2 * ((2 * m + 1) * Pow2(k'));
      assert 2 * m * (2 * Pow2(k')) == 2 * (2 * m * Pow2(k'));
    }
  }

  /** The height that the skip link of a block leads to. */
  function GetSkipHeight(height: int): (r: int)
    ensures 0 <= r
    ensures height > 0 ==> r < height
  {
    if height < 2 then 0
    else if height % 2 == 1 then InvertLowestOne(InvertLowestOne(height - 1)) + 1
    else InvertLowestOne(height)
  }

  // ---------- the walk ----------

  /** The skip link is taken unless it leads too far, or the parent's leads much farther and not too far. */
  predicate TakesSkip(w: nat, t: nat)
    requires w > t
  {
    var skip, skipPrev := GetSkipHeight(w), GetSkipHeight(w - 1);
    skip == t || (skip > t && !(skipPrev < skip - 2 && skipPrev >= t))
  }

  function NextHeight(w: nat, t: nat): (r: nat)
    requires w > t
    ensures t <= r < w
  {
    if TakesSkip(w, t) then GetSkipHeight(w) else w - 1
  }

  /** The number of steps from one height down to another. */
  function WalkLength(w: nat, t: nat): nat {
    if w <= t then 0 else 1 + WalkLength(NextHeight(w, t), t)
  }

  /** A walk from one height to another that has come to w after some steps. */
  ghost predicate Walked(from: nat, t: nat, steps: nat, w: nat) {
    steps + WalkLength(w, t) == WalkLength(from, t)
  }

  lemma WalkedNext(from: nat, t: nat, steps: nat, w: nat)
    requires w > t && Walked(from, t, steps, w)
    ensures Walked(from, t, steps + 1, NextHeight(w, t))
  {
  }

  // ---------- bits ----------

  /** How many bits are 1. */
  function Ones(n: nat): nat {
    if n == 0 then 0 else n % 2 + Ones(n / 2)
  }

  /** How many low bits have to go until two numbers agree. */
  function Differing(w: nat, t: nat): nat {
    if w == t then 0 else 1 + Differing(w / 2, t / 2)
  }

  /** How many of those are 1 in the first one. */
  function OnesIn(w: nat, t: nat): nat {
    if w == t then 0 else w % 2 + OnesIn(w / 2, t / 2)
  }

  lemma {:induction false} OnesInFew(w: nat, t: nat)
    ensures OnesIn(w, t) <= Differing(w, t)
  {
    if w != t { OnesInFew(w / 2, t / 2); }
  }

  lemma {:induction false} DifferingBetween(w: nat, s: nat, t: nat)
    requires t <= s <= w
    ensures Differing(s, t) <= Differing(w, t)
  {
    if s != t { DifferingBetween(w / 2, s / 2, t / 2); }
  }

  lemma {:induction false} DifferingBits(w: nat, t: nat, k: nat)
    requires t <= w < Pow2(k)
    ensures Differing(w, t) <= k
  {
    if w != t { DifferingBits(w / 2, t / 2, k - 1); }
  }

  lemma {:induction false} OnesLost(w: nat, s: nat, t: nat)
    requires Differing(w, t) == Differing(s, t)
    ensures OnesIn(w, t) - OnesIn(s, t) == Ones(w) - Ones(s)
  {
    if w != t { OnesLost(w / 2, s / 2, t / 2); }
  }

  lemma {:induction false} InvertLosesOne(n: nat)
    requires n > 0
    ensures Ones(InvertLowestOne(n)) == Ones(n) - 1
  {
    if n % 2 == 0 {
      InvertLosesOne(n / 2);
      assert InvertLowestOne(n) / 2 == InvertLowestOne(n / 2);
    } else {
      assert (n - 1) / 2 == n / 2;
    }
  }

  lemma InvertTwice(n: nat)
    ensures Ones(Twice(n)) <= Ones(n) && (n > 0 ==> Ones(Twice(n)) < Ones(n))
  {
    if n > 0 {
      InvertLosesOne(n);
      if InvertLowestOne(n) > 0 { InvertLosesOne(InvertLowestOne(n)); }
    }
  }

  lemma DoubledBits(n: nat)
    ensures Ones(2 * n) == Ones(n) && InvertLowestOne(2 * n) == 2 * InvertLowestOne(n)
  {
    assert 2 * n / 2 == n;
  }

  lemma OddBits(n: nat)
    ensures Ones(2 * n + 1) == Ones(n) + 1 && InvertLowestOne(2 * n + 1) == 2 * n
  {
    assert (2 * n + 1) / 2 == n;
  }

  /** Two bits turned off. */
  function Twice(n: nat): nat { InvertLowestOne(InvertLowestOne(n)) }

  lemma TwiceOfDouble(n: nat)
    ensures Twice(2 * n) == 2 * Twice(n)
  {
    DoubledBits(n);
    DoubledBits(InvertLowestOne(n));
  }

  lemma TwiceOfOdd(n: nat)
    ensures Twice(2 * n + 1) == 2 * InvertLowestOne(n)
  {
    OddBits(n);
    DoubledBits(n);
  }

  /** Turning off two bits of the number before leads farther only if that leaves fewer bits. */
  ghost predicate BeforeIsWorse(v: nat)
    requires v > 0
  {
    Twice(v - 1) >= InvertLowestOne(v) || Ones(Twice(v - 1)) < Ones(v)
  }

  lemma BeforeLosesOne(v: nat)
    requires v > 0
    ensures BeforeIsWorse(v)
  {
    var m := v / 2;
    if v % 2 == 1 {
      AfterEven(m);
    } else if m % 2 == 1 {
      assert v == 2 * (2 * (m / 2) + 1);
      AfterOdd(m / 2);
    } else {
      assert v == 2 * (2 * (m / 2));
      AfterOnes(m / 2);
    }
  }

  lemma AfterEven(m: nat)
    ensures BeforeIsWorse(2 * m + 1)
  {
    OddBits(m);
    TwiceOfDouble(m);
    DoubledBits(Twice(m));
    InvertTwice(m);
  }

  lemma AfterOdd(m: nat)
    ensures BeforeIsWorse(2 * (2 * m + 1))
  {
    TwiceOfOdd(2 * m);
    assert 2 * (2 * m + 1) - 1 == 2 * (2 * m) + 1;
    OddBits(m);
    DoubledBits(2 * m + 1);
    DoubledBits(m);
    DoubledBits(InvertLowestOne(2 * m));
    DoubledBits(InvertLowestOne(m));
    InvertLosesAny(m);
  }

  lemma InvertLosesAny(m: nat)
    ensures Ones(InvertLowestOne(m)) <= Ones(m)
  {
    if m > 0 { InvertLosesOne(m); }
  }

  lemma AfterOnes(z: nat)
    requires z > 0
    ensures BeforeIsWorse(2 * (2 * z))
  {
    TwiceOfOdd(2 * (z - 1) + 1);
    assert 2 * (2 * (z - 1) + 1) + 1 == 2 * (2 * z) - 1;
    OddBits(z - 1);
    DoubledBits(2 * z);
    DoubledBits(z);
  }

  // ---------- what is left to walk ----------

  function Triangle(n: nat): nat {
    if n == 0 then 0 else Triangle(n - 1) + n - 1
  }

  lemma {:induction false} TriangleGrows(a: nat, b: nat)
    requires a <= b
    ensures Triangle(a) <= Triangle(b)
  {
    if a < b { TriangleGrows(a, b - 1); }
  }

  lemma {:induction false} TriangleSquare(n: nat)
    ensures 2 * Triangle(n) == n * (n - 1)
  {
    if n > 0 { TriangleSquare(n - 1); }
  }

  /** A bound on the steps to come: it falls with the differing bits, then with the ones among them. */
  function Cost(w: nat, t: nat): nat {
    if w == t then 0 else 3 * Triangle(Differing(w, t)) + 3 * OnesIn(w / 2, t / 2) + w % 2
  }

  /** No cost reaches that of more differing bits. */
  lemma CostBelow(s: nat, t: nat, l: nat)
    requires Differing(s, t) < l
    ensures s == t || Cost(s, t) + 2 <= 3 * Triangle(l)
  {
    if s != t {
      OnesInFew(s / 2, t / 2);
      TriangleGrows(Differing(s, t), l - 1);
      assert Triangle(l) == Triangle(l - 1) + l - 1;
    }
  }

  lemma CostSome(w: nat, t: nat)
    requires w > t
    ensures Cost(w, t) >= 1 && Cost(w, t) >= 3 * Triangle(Differing(w, t)) && (w % 2 == 0 ==> Cost(w, t) >= 2)
  {
    if w / 2 != t / 2 {
      assert Differing(w, t) == 1 + Differing(w / 2, t / 2) >= 2;
      TriangleGrows(2, Differing(w, t));
      assert Triangle(2) == 1;
    }
  }

  lemma FewerDiffer(w: nat, s: nat, t: nat)
    requires t <= s < w && Differing(s, t) < Differing(w, t)
    ensures Cost(s, t) < Cost(w, t)
    ensures w % 2 == 0 ==> Cost(s, t) + 2 <= Cost(w, t)
  {
    CostBelow(s, t, Differing(w, t));
    CostSome(w, t);
  }

  lemma FewerOnes(w: nat, s: nat, t: nat)
    requires t <= s < w && Ones(s / 2) < Ones(w / 2)
    ensures Cost(s, t) < Cost(w, t)
    ensures w % 2 == 0 ==> Cost(s, t) + 2 <= Cost(w, t)
  {
    DifferingBetween(w, s, t);
    if Differing(s, t) < Differing(w, t) {
      FewerDiffer(w, s, t);
    } else {
      OnesLost(w / 2, s / 2, t / 2);
    }
  }

  lemma {:induction false} TooFar(w: nat, t: nat)
    requires InvertLowestOne(w) <= t < w
    ensures Differing(w - 1, t) < Differing(w, t)
  {
    if w % 2 == 0 {
      assert (w - 1) / 2 == w / 2 - 1;
      TooFar(w / 2, t / 2);
    }
  }

  /** From an odd height. */
  lemma OddStep(w: nat, t: nat)
    requires w > t && w % 2 == 1
    ensures Cost(NextHeight(w, t), t) < Cost(w, t)
  {
    if !TakesSkip(w, t) {
      OneDown(w, t);
    } else {
      OddSkips(w / 2, t);
    }
  }

  lemma OneDown(w: nat, t: nat)
    requires w > t && w % 2 == 1
    ensures Cost(w - 1, t) < Cost(w, t)
  {
    assert (w - 1) / 2 == w / 2;
  }

  lemma OddSkips(half: nat, t: nat)
    requires 2 * half + 1 > t && GetSkipHeight(2 * half + 1) >= t
    ensures Cost(GetSkipHeight(2 * half + 1), t) < Cost(2 * half + 1, t)
  {
    if half == 0 {
      FewerDiffer(1, 0, 0);
    } else {
      OddSkip(half);
      InvertTwice(half);
      FewerOnes(2 * half + 1, 2 * Twice(half) + 1, t);
    }
  }

  lemma OddSkip(half: nat)
    requires half > 0
    ensures GetSkipHeight(2 * half + 1) == 2 * Twice(half) + 1 && GetSkipHeight(2 * half + 1) / 2 == Twice(half)
  {
    TwiceOfDouble(half);
  }

  lemma EvenSkip(half: nat)
    requires half > 0
    ensures GetSkipHeight(2 * half) == 2 * InvertLowestOne(half)
    ensures GetSkipHeight(2 * half) / 2 == InvertLowestOne(half)
  {
    DoubledBits(half);
  }

  /** From an even height by the skip link, or when that leads too far. */
  lemma EvenStep(w: nat, t: nat)
    requires w > t && w % 2 == 0 && (TakesSkip(w, t) || GetSkipHeight(w) < t)
    ensures Cost(NextHeight(w, t), t) < Cost(w, t)
  {
    if TakesSkip(w, t) {
      EvenSkip(w / 2);
      InvertLosesOne(w / 2);
      FewerOnes(w, GetSkipHeight(w), t);
    } else {
      TooFar(w, t);
      DifferingBetween(w, w - 1, t);
      FewerDiffer(w, w - 1, t);
    }
  }

  lemma ParentSkip(half: nat)
    requires half > 1
    ensures GetSkipHeight(2 * half - 1) == 2 * Twice(half - 1) + 1 && GetSkipHeight(2 * half - 1) / 2 == Twice(half - 1)
    ensures GetSkipHeight(2 * half - 2) >= GetSkipHeight(2 * half - 1) - 1
  {
    OddSkip(half - 1);
    EvenSkip(half - 1);
    assert 2 * (half - 1) + 1 == 2 * half - 1 && 2 * (half - 1) == 2 * half - 2;
  }

  /** From an even height by way of the parent's skip link: that is taken next, and pays for both steps. */
  lemma ParentStep(w: nat, t: nat)
    requires w > t && w % 2 == 0 && !TakesSkip(w, t) && GetSkipHeight(w) > t
    ensures NextHeight(w, t) == w - 1 > t && NextHeight(w - 1, t) == GetSkipHeight(w - 1) >= t
    ensures Cost(GetSkipHeight(w - 1), t) + 2 <= Cost(w, t)
  {
    var prev := GetSkipHeight(w - 1);
    var half := w / 2;
    assert w == 2 * half && w > 2;
    ParentSkip(half);
    EvenSkip(half);
    BeforeLosesOne(half);
    FewerOnes(w, prev, t);
  }

  lemma {:induction false} WalkBound(w: nat, t: nat)
    requires w >= t
    ensures WalkLength(w, t) <= Cost(w, t)
    decreases w
  {
    if w == t {
    } else if w % 2 == 1 {
      OddStep(w, t);
      WalkBound(NextHeight(w, t), t);
    } else if TakesSkip(w, t) || GetSkipHeight(w) < t {
      EvenStep(w, t);
      WalkBound(NextHeight(w, t), t);
    } else {
      ParentStep(w, t);
      WalkBound(GetSkipHeight(w - 1), t);
    }
  }

  /** Among heights of k bits no walk takes more than 3 k (k + 1) / 2 steps. */
  lemma WalkIsShort(w: nat, t: nat, k: nat)
    requires t <= w < Pow2(k)
    ensures 2 * WalkLength(w, t) <= 3 * ((k + 1) * k)
  {
    WalkBound(w, t);
    DifferingBits(w, t, k);
    OnesInFew(w / 2, t / 2);
    TriangleGrows(Differing(w, t), k);
    TriangleSquare(k + 1);
  }

  /** A number of steps from a height is quadratic in the bits of the height. */
  ghost predicate QuadraticAt(height: nat, steps: nat) {
    forall k: nat | height < Pow2(k) :: 2 * steps <= 3 * ((k + 1) * k)
  }

  lemma WalkedAll(from: nat, t: nat, steps: nat)
    requires t <= from && Walked(from, t, steps, t)
    ensures QuadraticAt(from, steps)
  {
    forall k: nat | from < Pow2(k) ensures 2 * steps <= 3 * ((k + 1) * k) { WalkIsShort(from, t, k); }
  }
}
