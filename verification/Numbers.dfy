/** Facts about products, quotients and powers that the other modules share. */
module Numbers {

  function Max(a: int, b: int): int { if a < b then b else a }

  function Min(a: int, b: int): int { if a < b then a else b }

  // ---------- products ----------

  lemma MulLe(a: int, b: int, c: nat)
    requires a <= b
    ensures a * c <= b * c
  {
    var d: nat := b - a;
    assert d * c >= 0;
    assert b * c == a * c + d * c;
  }

  lemma MulLt(a: int, b: int, c: nat)
    requires a < b
    ensures a * c + c <= b * c
  {
    MulLe(a + 1, b, c);
    assert (a + 1) * c == a * c + c;
  }

  lemma QuotientBounds(x: nat, p: nat)
    requires p > 0
    ensures 0 <= x / p && (x / p) * p <= x < (x / p) * p + p
  {
    var q := x / p;
    assert x == q * p + x % p;
    if q < 0 { MulLe(q, -1, p); }
  }

  /** The only quotient and remainder. */
  lemma Remainder(v: nat, carry: int, w: nat, total: int)
    requires v < w && v + carry * w == total
    ensures v == total % w && carry == total / w
  {
    var q, r := total / w, total % w;
    assert total == q * w + r;
    if carry > q { MulLt(q, carry, w); } else if carry < q { MulLt(carry, q, w); }
  }

  lemma SameRemainder(x: int, y: int, k: int, w: nat)
    requires w > 0 && x == y + k * w
    ensures x % w == y % w
  {
    var q, r := y / w, y % w;
    assert y == q * w + r;
    assert (q + k) * w == q * w + k * w;
    Remainder(r, q + k, w, x);
  }

  lemma Associate(a: int, b: int, c: int)
    ensures (a * b) * c == a * (b * c)
  {
  }

  lemma ProductBound(a: nat, b: nat, m: nat)
    requires a <= m && b <= m
    ensures 0 <= a * b <= m * m
  {
    MulLe(0, a, b);
    MulLe(a, m, b);
    MulLe(b, m, m);
  }

  // ---------- powers ----------

  function Pow2(n: nat): (p: nat)
    ensures p > 0
  {
    if n == 0 then 1 else 2 * Pow2(n - 1)
  }

  lemma {:induction false} Pow2Add(a: nat, b: nat)
    ensures Pow2(a + b) == Pow2(a) * Pow2(b)
  {
    if a > 0 {
      Pow2Add(a - 1, b);
      Associate(2, Pow2(a - 1), Pow2(b));
      assert Pow2(a + b) == 2 * Pow2(a - 1 + b);
    }
  }

  lemma {:induction false} Pow2Grows(a: nat, b: nat)
    requires a <= b
    ensures Pow2(a) <= Pow2(b)
  {
    if a < b { Pow2Grows(a, b - 1); }
  }

  lemma Commute(a: int, b: int)
    ensures a * b == b * a
  {
  }
}
