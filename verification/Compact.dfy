/**
 Compact targets: a 256-bit number as a 23-bit mantissa, a sign bit and a byte count, and
 the expected work that a target stands for.
 */
module Compact {
  import opened Limbs
  import opened Numbers
  import opened Arith

  const WIDTH: nat := 8

  // ---------- the code ----------

  function Size(c: nat): nat { c / 0x100_0000 }

  function Mantissa(c: nat): (m: nat)
    ensures m < 0x80_0000
  {
    c % 0x80_0000
  }

  predicate SignBit(c: nat) { (c / 0x80_0000) % 2 == 1 }

  function Shr(x: nat, n: nat): nat {
    QuotientBounds(x, Pow2(n));
    x / Pow2(n)
  }

  /** The mantissa, with what a size below three cuts off. */
  function Word(c: nat): nat {
    if Size(c) <= 3 then Shr(Mantissa(c), 8 * (3 - Size(c))) else Mantissa(c)
  }

  lemma DivideLe(x: nat, p: nat)
    requires p > 0
    ensures x / p <= x
  {
    assert x == (x / p) * p + x % p;
    MulLe(1, p, x / p);
  }

  predicate Negative(c: nat) { Word(c) != 0 && SignBit(c) }

  /** The flag as the code computes it. */
  predicate Overflow(c: nat) {
    Word(c) != 0 && (Size(c) > 34 || (Word(c) > 0xff && Size(c) > 33) || (Word(c) > 0xffff && Size(c) > 32))
  }

  /** The number a code stands for, without a bound. */
  function Exact(c: nat): nat {
    if Size(c) <= 3 then Word(c) else Mantissa(c) * Pow2(8 * (Size(c) - 3))
  }

  /** The number in 256 bits. */
  function Target(c: nat): nat { Exact(c) % Pow2(256) }

  /** A product with a power of two reaches another power exactly when the factor reaches their quotient. */
  lemma Reaches(m: nat, a: nat, b: nat)
    requires a <= b
    ensures m * Pow2(a) >= Pow2(b) <==> m >= Pow2(b - a)
  {
    Pow2Add(b - a, a);
    if m >= Pow2(b - a) { MulLe(Pow2(b - a), m, Pow2(a)); } else { MulLt(m, Pow2(b - a), Pow2(a)); }
  }

  lemma SmallFits(c: nat)
    requires Size(c) <= 3
    ensures Word(c) < Pow2(24) && Exact(c) < Pow2(256)
  {
    DivideLe(Mantissa(c), Pow2(8 * (3 - Size(c))));
    Pow2Values();
    Pow2Grows(24, 256);
  }

  lemma MiddleFits(m: nat, n: nat)
    requires m < 0x80_0000 && 3 < n <= 32
    ensures m * Pow2(8 * (n - 3)) < Pow2(256)
  {
    Pow2Values();
    Reaches(m, 8 * (n - 3), 256);
    Pow2Grows(24, 256 - 8 * (n - 3));
  }

  lemma LargeFits(m: nat, n: nat)
    requires n > 32
    ensures m * Pow2(8 * (n - 3)) >= Pow2(256) <==> m != 0 && (n > 34 || (m > 0xff && n > 33) || (m > 0xffff && n > 32))
  {
    Pow2Values();
    if n == 33 {
      Reaches(m, 240, 256);
    } else if n == 34 {
      Reaches(m, 248, 256);
    } else {
      Pow2Grows(256, 8 * (n - 3));
      if m > 0 { MulLe(1, m, Pow2(8 * (n - 3))); }
    }
  }

  /** The overflow flag is set exactly when the number does not fit. */
  lemma OverflowExact(c: nat)
    ensures Overflow(c) <==> Exact(c) >= Pow2(256)
  {
    if Size(c) <= 3 {
      SmallFits(c);
    } else if Size(c) <= 32 {
      MiddleFits(Mantissa(c), Size(c));
    } else {
      LargeFits(Mantissa(c), Size(c));
    }
  }

  lemma TargetExact(c: nat)
    requires !Overflow(c)
    ensures Target(c) == Exact(c)
  {
    OverflowExact(c);
    Remainder(Exact(c), 0, Pow2(256), Exact(c));
  }

  // ---------- encoding ----------

  /** The number of bits of a number. */
  function BitLen(v: nat): nat {
    if v == 0 then 0 else 1 + BitLen(v / 2)
  }

  lemma {:induction false} BitLenIs(v: nat)
    ensures IsBitLength(v, BitLen(v))
  {
    if v > 0 { BitLenIs(v / 2); }
  }

  lemma BitLengthUnique(v: nat, r: nat, t: nat)
    requires IsBitLength(v, r) && IsBitLength(v, t)
    ensures r == t
  {
    if r < t { Pow2Grows(r, t - 1); }
    if t < r { Pow2Grows(t, r - 1); }
  }

  function ByteLen(v: nat): nat { (BitLen(v) + 7) / 8 }

  /** The top three bytes of a number, or the number moved up to three bytes. */
  function Top(v: nat): nat {
    if ByteLen(v) <= 3 then v * Pow2(8 * (3 - ByteLen(v))) else Shr(v, 8 * (ByteLen(v) - 3))
  }

  /** Mantissa and size: one byte less if the top bit would be taken for the sign. */
  function PartsOf(top: nat, n: nat): (nat, nat) {
    if top >= 0x80_0000 then (top / 0x100, n + 1) else (top, n)
  }

  function Parts(v: nat): (nat, nat) { PartsOf(Top(v), ByteLen(v)) }

  function Encoded(v: nat, negative: bool): nat {
    var (m, n) := Parts(v);
    m + n * 0x100_0000 + if negative && m != 0 then 0x80_0000 else 0
  }

  lemma ByteLenBounds(v: nat)
    requires v < Pow2(256)
    ensures ByteLen(v) <= 32 && v < Pow2(8 * ByteLen(v))
    ensures v > 0 ==> ByteLen(v) > 0 && v >= Pow2(8 * (ByteLen(v) - 1))
  {
    BitLenIs(v);
    if v > 0 {
      if BitLen(v) > 256 { Pow2Grows(256, BitLen(v) - 1); }
      Pow2Grows(BitLen(v), 8 * ByteLen(v));
      Pow2Grows(8 * (ByteLen(v) - 1), BitLen(v) - 1);
    }
  }

  // ---------- shifts of numbers ----------

  lemma ShrShr(v: nat, a: nat, b: nat)
    ensures Shr(Shr(v, a), b) == Shr(v, a + b)
  {
    Pow2Add(b, a);
    QuotientOfQuotient(v, Pow2(a), Pow2(b));
  }

  lemma QuotientOfQuotient(v: nat, p: nat, q: nat)
    requires p > 0 && q > 0
    ensures (v / p) / q == v / (q * p)
  {
    QuotientBounds(v, p);
    var u := v / p;
    QuotientBounds(u, q);
    var r, s := v - u * p, u - (u / q) * q;
    MulLt(s, q, p);
    Nested(u / q, q, p, s, r);
    Remainder(s * p + r, u / q, q * p, v);
  }

  lemma Nested(x: int, q: int, p: int, s: int, r: int)
    ensures (x * q + s) * p + r == s * p + r + x * (q * p)
  {
    assert (x * q + s) * p == x * q * p + s * p;
    assert x * q * p == x * (q * p);
  }

  lemma ShrOfProduct(q: nat, a: nat, b: nat)
    requires b <= a
    ensures Shr(q * Pow2(a), b) == q * Pow2(a - b)
  {
    Pow2Add(a - b, b);
    assert q * (Pow2(a - b) * Pow2(b)) == q * Pow2(a - b) * Pow2(b);
    Remainder(0, q * Pow2(a - b), Pow2(b), q * Pow2(a));
  }

  lemma DivideAtLeast(v: nat, p: nat, m: nat)
    requires p > 0 && m * p <= v
    ensures v / p >= m
  {
    var q := v / p;
    assert v == q * p + v % p;
    if q < m { MulLt(q, m, p); }
  }

  lemma ShrBounds(v: nat, lo: nat, hi: nat, b: nat)
    requires b <= lo <= hi && Pow2(lo) <= v < Pow2(hi)
    ensures Pow2(lo - b) <= Shr(v, b) < Pow2(hi - b)
  {
    Pow2Add(hi - b, b);
    DivideBelow(v, Pow2(b), Pow2(hi - b));
    Pow2Add(lo - b, b);
    DivideAtLeast(v, Pow2(b), Pow2(lo - b));
  }

  /** The number with its low bits cleared. */
  function Floor(v: nat, b: nat): nat { Shr(v, b) * Pow2(b) }

  lemma FloorLe(v: nat, b: nat)
    ensures Floor(v, b) <= v
  {
    assert v == (v / Pow2(b)) * Pow2(b) + v % Pow2(b);
  }

  lemma FloorBounds(v: nat, lo: nat, hi: nat, b: nat)
    requires b <= lo <= hi && Pow2(lo) <= v < Pow2(hi)
    ensures Pow2(lo) <= Floor(v, b) <= v
  {
    FloorLe(v, b);
    ShrBounds(v, lo, hi, b);
    Pow2Add(lo - b, b);
    MulLe(Pow2(lo - b), Shr(v, b), Pow2(b));
  }

  // ---------- the round trip ----------

  lemma TopSmall(v: nat, n: nat)
    requires 0 < n <= 3 && Pow2(8 * (n - 1)) <= v < Pow2(8 * n)
    ensures Pow2(16) <= v * Pow2(8 * (3 - n)) < Pow2(24)
  {
    Pow2Add(8 * (n - 1), 8 * (3 - n));
    Pow2Add(8 * n, 8 * (3 - n));
    MulLe(Pow2(8 * (n - 1)), v, Pow2(8 * (3 - n)));
    MulLt(v, Pow2(8 * n), Pow2(8 * (3 - n)));
  }

  lemma TopBounds(v: nat)
    requires 0 < v < Pow2(256)
    ensures 0x1_0000 <= Top(v) < 0x100_0000
  {
    ByteLenBounds(v);
    Pow2Values();
    var n := ByteLen(v);
    if n <= 3 {
      TopSmall(v, n);
    } else {
      ShrBounds(v, 8 * (n - 1), 8 * n, 8 * (n - 3));
    }
  }

  /** Neither assertion of the encoder fails. */
  lemma PartsFit(v: nat)
    requires v < Pow2(256)
    ensures Parts(v).0 < 0x80_0000 && Parts(v).1 <= 33
    ensures v > 0 ==> Parts(v).0 >= 0x8000
    ensures v == 0 ==> Parts(v) == (0, 0)
  {
    ByteLenBounds(v);
    if v > 0 { TopBounds(v); }
  }

  lemma CodeArithmetic(m: nat, n: nat, sign: nat)
    requires m < 0x80_0000 && n < 256 && sign <= 1
    ensures var c := m + n * 0x100_0000 + sign * 0x80_0000;
            c < BASE && Size(c) == n && Mantissa(c) == m && (SignBit(c) <==> sign == 1)
  {
  }

  lemma CodeParts(v: nat, negative: bool)
    requires v < Pow2(256)
    ensures var c := Encoded(v, negative);
            c < BASE && Size(c) == Parts(v).1 && Mantissa(c) == Parts(v).0
                && (SignBit(c) <==> negative && Parts(v).0 != 0)
  {
    PartsFit(v);
    CodeArithmetic(Parts(v).0, Parts(v).1, if negative && Parts(v).0 != 0 then 1 else 0);
  }

  /** The number of low bits that the code of a number does not keep. */
  function Dropped(v: nat): nat {
    if Parts(v).1 <= 3 then 0 else 8 * (Parts(v).1 - 3)
  }

  lemma ShrZero(v: nat)
    ensures Shr(v, 0) == v && Floor(v, 0) == v && v * Pow2(0) == v
  {
  }

  /** A number of at most three bytes, moved up and down again. */
  lemma SmallBack(v: nat, n: nat)
    requires n <= 3
    ensures Shr(v * Pow2(8 * (3 - n)), 8 * (3 - n)) == v
  {
    ShrOfProduct(v, 8 * (3 - n), 8 * (3 - n));
  }

  lemma SmallBackOne(v: nat, n: nat)
    requires n < 3
    ensures (v * Pow2(8 * (3 - n))) / 0x100 == v * Pow2(8 * (2 - n)) && Shr(v * Pow2(8 * (2 - n)), 8 * (2 - n)) == v
  {
    Pow2Values();
    ShrOfProduct(v, 8 * (3 - n), 8);
    ShrOfProduct(v, 8 * (2 - n), 8 * (2 - n));
  }

  /** A mantissa and a size mean the number with the bits below the mantissa cleared. */
  ghost predicate Means(m: nat, n: nat, v: nat) {
    if n <= 3 then Shr(m, 8 * (3 - n)) == v else m * Pow2(8 * (n - 3)) == Floor(v, 8 * (n - 3))
  }

  lemma SmallMeans(v: nat, n: nat)
    requires n <= 3
    ensures Means(v * Pow2(8 * (3 - n)), n, v)
    ensures Means((v * Pow2(8 * (3 - n))) / 0x100, n + 1, v)
  {
    SmallBack(v, n);
    if n < 3 {
      SmallBackOne(v, n);
    } else {
      Pow2Values();
      ShrZero(v);
    }
  }

  lemma LargeMeans(v: nat, n: nat)
    requires n > 3
    ensures Means(Shr(v, 8 * (n - 3)), n, v)
    ensures Means(Shr(v, 8 * (n - 3)) / 0x100, n + 1, v)
  {
    Pow2Values();
    ShrShr(v, 8 * (n - 3), 8);
  }

  lemma PartsMean(v: nat)
    ensures Means(Parts(v).0, Parts(v).1, v)
  {
    if ByteLen(v) <= 3 { SmallMeans(v, ByteLen(v)); } else { LargeMeans(v, ByteLen(v)); }
  }

  /** Decoding the code of a number gives it with its low bits cleared, without a flag. */
  lemma DecodeEncoded(v: nat)
    requires v < Pow2(256)
    ensures var c := Encoded(v, false);
            Exact(c) == Floor(v, Dropped(v)) && Target(c) == Exact(c) && !Negative(c) && !Overflow(c)
  {
    var c := Encoded(v, false);
    CodeParts(v, false);
    PartsMean(v);
    ShrZero(v);
    FloorLe(v, Dropped(v));
    OverflowExact(c);
    TargetExact(c);
  }

  lemma ByteLenUnique(v: nat, n: nat)
    requires 0 < n && Pow2(8 * (n - 1)) <= v < Pow2(8 * n) && v < Pow2(256)
    ensures ByteLen(v) == n
  {
    ByteLenBounds(v);
    var t := ByteLen(v);
    if t < n { Pow2Grows(8 * t, 8 * (n - 1)); }
    if n < t { Pow2Grows(8 * n, 8 * (t - 1)); }
  }

  lemma FloorTop(v: nat)
    requires 0 < v < Pow2(256)
    ensures var t := Floor(v, Dropped(v)); 0 < t < Pow2(256) && ByteLen(t) == ByteLen(v)
  {
    ByteLenBounds(v);
    TopBounds(v);
    var n := ByteLen(v);
    FloorBounds(v, 8 * (n - 1), 8 * n, Dropped(v));
    ByteLenUnique(Floor(v, Dropped(v)), n);
  }

  /** Clearing whole bytes below the top three. */
  lemma KeptTop(v: nat, n: nat)
    requires n > 3
    ensures Shr(Floor(v, 8 * (n - 3)), 8 * (n - 3)) == Shr(v, 8 * (n - 3))
  {
    ShrOfProduct(Shr(v, 8 * (n - 3)), 8 * (n - 3), 8 * (n - 3));
  }

  /** Clearing one byte more clears the lowest of the top three. */
  lemma KeptTopOne(v: nat, n: nat)
    requires n >= 3
    ensures Shr(Floor(v, 8 * (n - 2)), 8 * (n - 3)) == (Shr(v, 8 * (n - 3)) / 0x100) * 0x100
  {
    Pow2Values();
    ShrShr(v, 8 * (n - 3), 8);
    ShrOfProduct(Shr(v, 8 * (n - 2)), 8 * (n - 2), 8 * (n - 3));
  }

  lemma FloorTopBytes(v: nat)
    requires 0 < v < Pow2(256)
    ensures Top(Floor(v, Dropped(v))) == if Dropped(v) > 0
            && Top(v) >= 0x80_0000 then (Top(v) / 0x100) * 0x100 else Top(v)
  {
    FloorTop(v);
    var n := ByteLen(v);
    if Dropped(v) == 0 {
      ShrZero(v);
    } else if Top(v) < 0x80_0000 {
      KeptTop(v, n);
    } else {
      KeptTopOne(v, n);
      if n == 3 { ShrZero(v); ShrZero(Floor(v, 8)); }
    }
  }

  lemma FloorParts(v: nat)
    requires 0 < v < Pow2(256)
    ensures Parts(Floor(v, Dropped(v))) == Parts(v)
  {
    FloorTop(v);
    FloorTopBytes(v);
    if Top(v) >= 0x80_0000 { RoundedParts(Top(v), ByteLen(v)); }
  }

  lemma RoundedParts(top: nat, n: nat)
    requires top >= 0x80_0000
    ensures PartsOf((top / 0x100) * 0x100, n) == PartsOf(top, n)
  {
  }

  /** Encoding what a code stands for gives the code back. */
  lemma EncodeDecoded(v: nat, negative: bool)
    requires v < Pow2(256)
    ensures Encoded(Target(Encoded(v, false)), negative) == Encoded(v, negative)
  {
    DecodeEncoded(v);
    if v > 0 { FloorParts(v); }
  }

  // ---------- the methods ----------

  lemma TopModulus(a: BaseUint)
    requires a.pn.Length == WIDTH
    ensures a.Modulus() == Pow2(256)
  {
    WeightIsPow2(WIDTH);
  }

  lemma SmallTarget(c: nat)
    requires Size(c) <= 3
    ensures Target(c) == Word(c) < Pow2(24)
  {
    SmallFits(c);
    Remainder(Word(c), 0, Pow2(256), Word(c));
  }

  /** Decodes in place; the shift drops what does not fit, and the flag tells. */
  method SetCompact(a: BaseUint, nCompact: nat) returns (fNegative: bool, fOverflow: bool)
    requires a.pn.Length == WIDTH && nCompact < BASE
    modifies a.pn
    ensures a.Val() == Target(nCompact) && fNegative == Negative(nCompact) && fOverflow == Overflow(nCompact)
  {
    var nSize, nWord := Size(nCompact), Mantissa(nCompact);
    TopModulus(a);
    if nSize <= 3 {
      SmallTarget(nCompact);
      Pow2Values();
      nWord := Shr(nWord, 8 * (3 - nSize));
      a.SetWord(nWord);
    } else {
      a.SetWord(nWord);
      a.ShiftLeft(8 * (nSize - 3));
    }
    fNegative := nWord != 0 && (nCompact / 0x80_0000) % 2 == 1;
    fOverflow := nWord != 0 && (nSize > 34 || (nWord > 0xff && nSize > 33) || (nWord > 0xffff && nSize > 32));
  }

  lemma LowWord(v: nat)
    requires v < Pow2(24)
    ensures v % WORD64 == v && v < WORD64
  {
    Pow2Values();
  }

  /** The top three bytes of the number. */
  method TopBytes(a: BaseUint, nSize: nat) returns (nCompact: nat)
    requires a.pn.Length == WIDTH && nSize == ByteLen(a.Val()) && a.Val() < Pow2(256)
    ensures nCompact == Top(a.Val()) < 0x100_0000
  {
    ByteLenBounds(a.Val());
    Pow2Values();
    if a.Val() > 0 { TopBounds(a.Val()); }
    if nSize <= 3 {
      Pow2Grows(8 * nSize, 24);
      LowWord(a.Val());
      var low := a.GetLow64();
      nCompact := low * Pow2(8 * (3 - nSize));
    } else {
      var bn := new BaseUint.Copy(a);
      bn.ShiftRight(8 * (nSize - 3));
      LowWord(bn.Val());
      nCompact := bn.GetLow64();
    }
  }

  lemma OrCode(m: nat, n: nat)
    requires m < 0x80_0000
    ensures Or(m, n * 0x100_0000) == m + n * 0x100_0000
    ensures Or(m + n * 0x100_0000, 0x80_0000) == m + n * 0x100_0000 + 0x80_0000
  {
    Pow2Values();
    OrDisjoint(m, n, 24);
    OrDisjoint(m, 1, 23);
    OrBelow(m, 0x80_0000, n, 24, n * 0x100_0000);
  }

  /** Gives up the lowest byte if the top bit would be taken for the sign. */
  method Adjust(top: nat, n: nat) returns (m: nat, nSize: nat)
    requires top < 0x100_0000
    ensures (m, nSize) == PartsOf(top, n)
  {
    m, nSize := top, n;
    if (top / 0x80_0000) % 2 == 1 {
      m := top / 0x100;
      nSize := n + 1;
    }
  }

  method Pack(m: nat, nSize: nat, fNegative: bool) returns (nCompact: nat)
    requires m < 0x80_0000 && nSize < 256
    ensures nCompact == m + nSize * 0x100_0000 + if fNegative && m != 0 then 0x80_0000 else 0
  {
    OrCode(m, nSize);
    nCompact := Or(m, nSize * 0x100_0000);
    if fNegative && m != 0 {
      nCompact := Or(nCompact, 0x80_0000);
    }
  }

  /** Encodes; the preconditions of packing are the two assertions of the code. */
  method GetCompact(a: BaseUint, fNegative: bool) returns (nCompact: nat)
    requires a.pn.Length == WIDTH
    ensures nCompact == Encoded(a.Val(), fNegative) < BASE
  {
    TopModulus(a);
    ValueBound(a.pn[..]);
    var bits := a.Bits();
    BitLenIs(a.Val());
    BitLengthUnique(a.Val(), bits, BitLen(a.Val()));
    var top := TopBytes(a, (bits + 7) / 8);
    var m, nSize := Adjust(top, (bits + 7) / 8);
    PartsFit(a.Val());
    CodeParts(a.Val(), fNegative);
    nCompact := Pack(m, nSize, fNegative);
  }

  // ---------- work ----------

  /** How many hashes it takes to get below a target. */
  function Work(t: nat, top: nat): nat { top / (t + 1) }

  function Proof(c: nat): nat {
    if Negative(c) || Overflow(c) || Target(c) == 0 then 0 else Work(Target(c), Pow2(256))
  }

  lemma EvenNotLargest(m: nat, k: nat, n: nat)
    requires k > 0 && n > 0 && m * Pow2(k) < Pow2(n)
    ensures m * Pow2(k) < Pow2(n) - 1
  {
    Twice(m, Pow2(k - 1));
    assert Pow2(n) == 2 * Pow2(n - 1);
  }

  /** No code stands for the largest number, so one more than a target never wraps. */
  lemma TargetNotLargest(c: nat)
    requires !Overflow(c)
    ensures Target(c) < Pow2(256) - 1
  {
    TargetExact(c);
    OverflowExact(c);
    if Size(c) <= 3 {
      SmallTarget(c);
      Pow2Grows(24, 255);
    } else {
      EvenNotLargest(Mantissa(c), 8 * (Size(c) - 3), 256);
    }
  }

  /** The quotient that avoids 2^256 is the one by it. */
  lemma WorkFormula(t: nat, top: nat)
    requires t + 1 < top
    ensures (top - 1 - t) / (t + 1) + 1 == Work(t, top)
  {
    var d := t + 1;
    var q, r := (top - d) / d, (top - d) % d;
    assert top - d == q * d + r;
    assert (q + 1) * d == q * d + d;
    Remainder(r, q + 1, d, top);
  }

  lemma WorkBelow(t: nat, top: nat)
    requires t > 0 && top > 0
    ensures Work(t, top) < top
  {
    var q := top / (t + 1);
    assert top == q * (t + 1) + top % (t + 1);
    MulLe(2, t + 1, q);
  }

  /** Adding one to a number that is not the largest. */
  method AddOne(a: BaseUint)
    requires a.pn.Length == WIDTH && a.Val() + 1 < a.Modulus()
    modifies a.pn
    ensures a.Val() == old(a.Val()) + 1
  {
    var one := new BaseUint(WIDTH, 1);
    Remainder(a.Val() + 1, 0, a.Modulus(), a.Val() + 1);
    a.AddAssign(one);
  }

  /** The work of a target, without a number that has no place in 256 bits. */
  method ComputeWork(target: BaseUint) returns (r: BaseUint)
    requires target.pn.Length == WIDTH && 0 < target.Val() && target.Val() + 1 < target.Modulus()
    modifies target.pn
    ensures fresh(r.pn) && r.pn.Length == WIDTH && r.Val() == Work(old(target.Val()), target.Modulus())
  {
    ghost var t, top := target.Val(), target.Modulus();
    WorkFormula(t, top);
    WorkBelow(t, top);
    r := target.Complement();
    assert r.Modulus() == top;
    AddOne(target);
    var ok := r.DivAssign(target);
    assert ok;
    AddOne(r);
  }

  /** Never divides by zero. */
  method GetBlockProof(nBits: nat) returns (r: BaseUint)
    requires nBits < BASE
    ensures r.pn.Length == WIDTH && r.Val() == Proof(nBits)
  {
    var target := new BaseUint(WIDTH, 0);
    var fNegative, fOverflow := SetCompact(target, nBits);
    var zero := new BaseUint(WIDTH, 0);
    var c := target.CompareTo(zero);
    if fNegative || fOverflow || c == 0 { return zero; }
    TopModulus(target);
    TargetNotLargest(nBits);
    r := ComputeWork(target);
  }
}
