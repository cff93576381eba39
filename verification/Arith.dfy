/**
 Unsigned integers of a fixed number of 32-bit limbs. The abstract value of a number is
 `Val()`; everything wraps at `Weight(pn.Length)`, which is 2^256 for eight limbs.
 64-bit intermediates are kept in range by the assertions on `n`.
 */
module Arith {
  import opened Limbs
  import opened Numbers

  const WORD64: nat := 0x1_0000_0000_0000_0000

  class BaseUint {
    const pn: array<Limb>

    ghost function Val(): nat
      reads pn
    {
      Value(pn[..])
    }

    ghost function Modulus(): (m: nat)
      ensures m > 0
    {
      Weight(pn.Length)
    }

    /** The value of a 64-bit word. */
    constructor (width: nat, b: nat)
      requires width >= 2 && b < WORD64
      ensures fresh(pn) && pn.Length == width && Val() == b
    {
      pn := new Limb[width](_ => 0);
      new;
      ValueZeros(pn[..]);
      SetWord(b);
    }

    /** Assignment from a 64-bit word. */
    method SetWord(b: nat)
      requires pn.Length >= 2 && b < WORD64
      modifies pn
      ensures Val() == b
    {
      pn[0] := b % BASE;
      pn[1] := b / BASE;
      for i := 2 to pn.Length
        invariant pn[0] == b % BASE && pn[1] == b / BASE && forall j | 2 <= j < i :: pn[j] == 0
      {
        pn[i] := 0;
      }
      TwoLimbs(pn[..]);
    }

    /** The low two limbs as a 64-bit word. */
    method GetLow64() returns (r: nat)
      requires pn.Length >= 2
      ensures r == Val() % WORD64
    {
      LowTwo(pn[..]);
      Pow2Values();
      OrDisjoint(pn[0], pn[1], 32);
      r := Or(pn[0], pn[1] * BASE);
    }

    constructor Copy(b: BaseUint)
      ensures fresh(pn) && pn[..] == b.pn[..] && Val() == b.Val()
    {
      pn := new Limb[b.pn.Length](i requires 0 <= i < b.pn.Length reads b.pn => b.pn[i]);
      new;
      assert pn[..] == b.pn[..];
    }

    /** Addition wraps. */
    method AddAssign(b: BaseUint)
      requires b.pn.Length == pn.Length
      modifies pn
      ensures Val() == (old(Val()) + old(b.Val())) % Modulus()
    {
      ghost var x, y := pn[..], b.pn[..];
      var carry: nat := 0;
      for i := 0 to pn.Length
        invariant carry <= 1
        invariant forall j | i <= j < pn.Length :: pn[j] == x[j] && b.pn[j] == y[j]
        invariant Value(pn[..i]) + carry * Weight(i) == Value(x[..i]) + Value(y[..i])
      {
        ghost var low := pn[..i];
        var n := carry + pn[i] + b.pn[i];
        assert n < WORD64;
        pn[i] := n % BASE;
        assert pn[..i] == low;
        AddStep(pn[..], x, y, i, carry);
        carry := n / BASE;
      }
      assert pn[..pn.Length] == pn[..] && x[..|x|] == x && y[..|y|] == y;
      ValueBound(pn[..]);
      Remainder(Val(), carry, Modulus(), Value(x) + Value(y));
    }

    /** The bitwise complement: what is missing to the largest value. */
    method Complement() returns (r: BaseUint)
      ensures fresh(r.pn) && r.pn.Length == pn.Length && r.Val() == Modulus() - 1 - Val()
    {
      r := new BaseUint.Copy(this);
      for i := 0 to pn.Length
        invariant forall j | 0 <= j < i :: r.pn[j] == BASE - 1 - pn[j]
      {
        r.pn[i] := BASE - 1 - pn[i];
      }
      ComplementValue(pn[..], r.pn[..]);
    }

    /** Adds one or minus one to a limb; if it wraps, that much is still to go into the next. */
    method Bump(i: nat, d: int, ghost x: seq<Limb>) returns (wrapped: bool)
      requires i < pn.Length == |x| && pn[i..] == x[i..] && (d == 1 || d == -1)
      requires Value(pn[..i]) + d * Weight(i) == Value(x[..i]) + d
      modifies pn
      ensures wrapped ==> pn[i + 1..] == x[i + 1..] && Value(pn[..i + 1]) + d * Weight(i + 1) == Value(x[..i + 1]) + d
      ensures !wrapped ==> Val() == (Value(x) + d) % Modulus()
    {
      ghost var s := pn[..];
      pn[i] := (pn[i] + d) % BASE;
      assert pn[..] == s[i := pn[i]];
      wrapped := if d == 1 then pn[i] == 0 else pn[i] == BASE - 1;
      CarryStep(s, x, i, pn[i], if wrapped then d else 0, d, d);
      if !wrapped { Finished(pn[..], x, i + 1, d); }
    }

    /** Prefix increment: carries through limbs that wrap to 0. */
    method Increment()
      modifies pn
      ensures Val() == (old(Val()) + 1) % Modulus()
    {
      ghost var x := pn[..];
      var i := 0;
      while i < pn.Length
        invariant 0 <= i <= pn.Length && pn[i..] == x[i..] && Value(pn[..i]) + 1 * Weight(i) == Value(x[..i]) + 1
      {
        var wrapped := Bump(i, 1, x);
        if !wrapped { return; }
        i := i + 1;
      }
      assert pn[..i] == pn[..] && x[..i] == x;
      Wrapped(pn[..], x, 1, 1);
    }

    /** Prefix decrement: borrows through limbs that wrap to the largest. */
    method Decrement()
      modifies pn
      ensures Val() == (old(Val()) - 1) % Modulus()
    {
      ghost var x := pn[..];
      var i := 0;
      while i < pn.Length
        invariant 0 <= i <= pn.Length && pn[i..] == x[i..] && Value(pn[..i]) + -1 * Weight(i) == Value(x[..i]) + -1
      {
        var wrapped := Bump(i, -1, x);
        if !wrapped { return; }
        i := i + 1;
      }
      assert pn[..i] == pn[..] && x[..i] == x;
      Wrapped(pn[..], x, -1, -1);
    }

    method Negate() returns (r: BaseUint)
      ensures fresh(r.pn) && r.pn.Length == pn.Length && r.Val() == (Modulus() - Val()) % Modulus()
    {
      r := Complement();
      assert r.Modulus() == Modulus();
      r.Increment();
    }

    /** Subtraction wraps: it adds the negation. */
    method SubAssign(b: BaseUint)
      requires b.pn.Length == pn.Length
      modifies pn
      ensures Val() == (old(Val()) - old(b.Val())) % Modulus()
    {
      var minus := b.Negate();
      AddNegated(Val(), b.Val(), Modulus());
      AddAssign(minus);
    }

    method MulAssign32(b32: Limb)
      modifies pn
      ensures Val() == (b32 * old(Val())) % Modulus()
    {
      ghost var x := pn[..];
      var carry: Limb := 0;
      for i := 0 to pn.Length
        invariant pn[i..] == x[i..]
        invariant Value(pn[..i]) + carry * Weight(i) == b32 * Value(x[..i])
      {
        ghost var s := pn[..];
        var limb, out := MulAdd(carry, 0, b32, pn[i]);
        pn[i] := limb;
        assert pn[..] == s[i := limb];
        MulStep(s, x, i, b32, carry, limb, out);
        carry := out;
      }
      assert pn[..pn.Length] == pn[..] && x[..|x|] == x;
      ValueBound(pn[..]);
      Remainder(Val(), carry, Modulus(), b32 * Value(x));
    }

    method Assign(a: array<Limb>)
      requires a.Length == pn.Length
      modifies pn
      ensures pn[..] == old(a[..])
    {
      ghost var x := a[..];
      for i := 0 to pn.Length
        invariant forall j | 0 <= j < i :: pn[j] == x[j]
        invariant forall j | i <= j < pn.Length :: a[j] == x[j]
      {
        pn[i] := a[i];
      }
    }

    /** Multiplication wraps; each row is a product by one limb. */
    method MulAssign(b: BaseUint)
      requires b.pn.Length == pn.Length
      modifies pn
      ensures Val() == (old(Val()) * old(b.Val())) % Modulus()
    {
      var a := new Limb[pn.Length](_ => 0);
      ValueZeros(a[..]);
      ghost var over: int := 0;
      for j := 0 to pn.Length
        invariant fresh(a)
        invariant pn[..] == old(pn[..]) && b.pn[..] == old(b.pn[..])
        invariant Value(a[..]) + over * Weight(pn.Length) == Value(pn[..j]) * Value(b.pn[..])
      {
        ghost var was := Value(a[..]);
        ghost var carry := MulRow(a, pn[j], b.pn, j);
        over := RowStep(pn[..], b.pn[..], j, was, Value(a[..]), over, carry);
      }
      assert pn[..pn.Length] == pn[..];
      ValueBound(a[..]);
      Remainder(Value(a[..]), over, Modulus(), Val() * b.Val());
      Assign(a);
    }

    method SetZero()
      modifies pn
      ensures Val() == 0 && forall j | 0 <= j < pn.Length :: pn[j] == 0
    {
      for i := 0 to pn.Length
        invariant forall j | 0 <= j < i :: pn[j] == 0
      {
        pn[i] := 0;
      }
      ValueZeros(pn[..]);
    }

    /** Ors bits into a limb where there are none yet; what is above the top limb is lost. */
    method OrAt(j: nat, v: Limb) returns (ghost lost: nat)
      requires j < pn.Length ==> Or(pn[j], v) == pn[j] + v < BASE
      modifies pn
      ensures Val() + lost * Modulus() == old(Val()) + v * Weight(j) && (j < pn.Length ==> lost == 0)
      ensures forall i | 0 <= i < pn.Length :: pn[i] == if i == j then old(pn[i]) + v else old(pn[i])
    {
      lost := 0;
      if j < pn.Length {
        ghost var s := pn[..];
        pn[j] := Or(pn[j], v);
        assert pn[..] == s[j := pn[j]];
        ValueUpdate(s, j, pn[j]);
      } else {
        lost := v * Weight(j - pn.Length);
        WeightAdd(j - pn.Length, pn.Length);
        Regroup(v, Weight(j - pn.Length), Modulus());
      }
    }

    /** Ors a limb, shifted left by n bits, into limb j and the one above it. */
    method OrShifted(x: Limb, j: nat, n: nat) returns (ghost lost: int)
      requires n < 32 && (j < pn.Length ==> pn[j] < Pow2(n)) && (j + 1 < pn.Length ==> pn[j + 1] == 0)
      modifies pn
      ensures Val() + lost * Modulus() == old(Val()) + x * Pow2(n) * Weight(j)
      ensures j + 1 < pn.Length ==> pn[j + 1] < Pow2(n)
      ensures forall i | j + 1 < i < pn.Length :: pn[i] == old(pn[i])
    {
      var hi, lo := SplitLimb(x, n, if j < pn.Length then pn[j] else 0);
      ghost var lost1, v := 0, Val();
      if n != 0 {
        lost1 := OrAt(j + 1, hi);
      }
      ghost var v1 := Val();
      ghost var lost2 := OrAt(j, lo);
      lost := lost1 + lost2;
      JoinLimbs(v, v1, Val(), hi, lo, x * Pow2(n), Weight(j), Modulus(), lost1, lost2);
    }

    /** A left shift multiplies by a power of two and wraps. */
    method ShiftLeft(shift: nat)
      modifies pn
      ensures Val() == (old(Val()) * Pow2(shift)) % Modulus()
    {
      var a := new BaseUint.Copy(this);
      SetZero();
      var k, n := shift / 32, shift % 32;
      ghost var over: int := 0;
      for i := 0 to pn.Length
        invariant fresh(a.pn) && a.pn[..] == old(pn[..])
        invariant (i + k < pn.Length ==> pn[i + k] < Pow2(n)) && forall j | i + k < j < pn.Length :: pn[j] == 0
        invariant Val() + over * Modulus() == Value(a.pn[..i]) * Pow2(shift)
      {
        ghost var v := Val();
        ghost var lost := OrShifted(a.pn[i], i + k, n);
        ShiftLeftStep(a.pn[..], i, k, n, shift, v, Val(), Modulus(), over, lost);
        over := over + lost;
      }
      assert a.pn[..pn.Length] == a.pn[..];
      ValueBound(pn[..]);
      Remainder(Val(), over, Modulus(), old(Val()) * Pow2(shift));
    }

    /** Ors what a right shift by n bits moves out of a limb into limb j, if there is one. */
    method OrLow(x: Limb, j: int, n: nat) returns (ghost lo: int)
      requires n < 32 && -1 <= j < pn.Length && (j >= 0 ==> pn[j] < Pow2(32 - n))
      modifies pn
      ensures j < 0 || n == 0 ==> lo == 0 && Val() == old(Val())
      ensures j >= 0 && n > 0 ==> Val() == old(Val()) + lo * Weight(j) && lo + (x / Pow2(n)) * BASE == x * Pow2(32 - n)
      ensures forall i | 0 <= i < pn.Length && i != j :: pn[i] == old(pn[i])
    {
      lo := 0;
      if j >= 0 && n != 0 {
        var hi, low := SplitLimb(x, 32 - n, pn[j]);
        var lost := OrAt(j, low);
        lo := low;
      }
    }

    /** Ors a limb, shifted right by n bits, into limb j, which is empty. */
    method OrHigh(x: Limb, j: nat, n: nat)
      requires n < 32 && j < pn.Length && pn[j] == 0
      modifies pn
      ensures Val() == old(Val()) + (x / Pow2(n)) * Weight(j) && pn[j] < Pow2(32 - n)
      ensures forall i | 0 <= i < pn.Length && i != j :: pn[i] == old(pn[i])
    {
      ShiftedOut(x, n);
      ghost var s := pn[..];
      pn[j] := Or(pn[j], x / Pow2(n));
      assert pn[..] == s[j := pn[j]];
      ValueUpdate(s, j, pn[j]);
    }

    /** Ors a limb, shifted right by n bits, into limb j and what that shifts out into the one below. */
    method OrShiftedDown(x: Limb, j: nat, n: nat)
      requires n < 32 && j < pn.Length && pn[j] == 0 && (j > 0 ==> pn[j - 1] < Pow2(32 - n))
      modifies pn
      ensures j > 0 ==> Val() * Pow2(n) == old(Val()) * Pow2(n) + x * Weight(j)
      ensures j == 0 ==> Val() == old(Val()) + x / Pow2(n)
      ensures pn[j] < Pow2(32 - n) && forall i | j < i < pn.Length :: pn[i] == old(pn[i])
    {
      ghost var v := Val();
      ghost var lo := OrLow(x, j - 1, n);
      ghost var v1 := Val();
      OrHigh(x, j, n);
      if j > 0 { DownStep(v, v1, Val(), x, lo, n, j); }
    }

    /** The first i limbs of a number are shifted right by k limbs and n bits. */
    ghost predicate ShiftedSoFar(a: seq<Limb>, i: nat, k: nat, n: nat, shift: nat)
      requires i <= |a| && n < 32
      reads this, pn
    {
      && (forall j | 0 <= j < pn.Length && i - k <= j :: pn[j] == 0)
      && (0 <= i - k - 1 < pn.Length ==> pn[i - k - 1] < Pow2(32 - n))
      && if i <= k then Val() == 0 else Val() * Pow2(shift) + Rest(a, k, n) == Value(a[..i])
    }

    method ShiftOneDown(a: BaseUint, i: nat, k: nat, n: nat, ghost shift: nat)
      requires a.pn != pn && a.pn.Length == pn.Length && k <= i < pn.Length && n < 32 && shift == 32 * k + n
      requires ShiftedSoFar(a.pn[..], i, k, n, shift)
      modifies pn
      ensures ShiftedSoFar(a.pn[..], i + 1, k, n, shift)
    {
      ghost var v := Val();
      OrShiftedDown(a.pn[i], i - k, n);
      ShiftRightStep(a.pn[..], i, k, n, shift, v, Val());
    }

    /** A right shift divides by a power of two. */
    method ShiftRight(shift: nat)
      modifies pn
      ensures Val() == old(Val()) / Pow2(shift)
    {
      var a := new BaseUint.Copy(this);
      SetZero();
      var k, n := shift / 32, shift % 32;
      for i := 0 to pn.Length
        invariant fresh(a.pn) && a.pn[..] == old(pn[..])
        invariant ShiftedSoFar(a.pn[..], i, k, n, shift)
      {
        if i - k >= 0 { ShiftOneDown(a, i, k, n, shift); }
      }
      assert a.pn[..pn.Length] == a.pn[..];
      ShiftRightEnd(a.pn[..], k, n, shift, Val());
    }

    /** The sign of the difference, decided by the highest limb that differs. */
    method CompareTo(b: BaseUint) returns (r: int)
      requires b.pn.Length == pn.Length
      ensures (r < 0 <==> Val() < b.Val()) && (r == 0 <==> Val() == b.Val()) && (r > 0 <==> Val() > b.Val())
    {
      var i := pn.Length - 1;
      while i >= 0
        invariant -1 <= i < pn.Length && forall j | i < j < pn.Length :: pn[j] == b.pn[j]
      {
        if pn[i] < b.pn[i] {
          LowerAt(pn[..], b.pn[..], i);
          return -1;
        }
        if pn[i] > b.pn[i] {
          LowerAt(b.pn[..], pn[..], i);
          return 1;
        }
        i := i - 1;
      }
      assert pn[..] == b.pn[..];
      return 0;
    }

    /** The position of the highest bit set plus one, or zero. */
    method Bits() returns (r: nat)
      ensures IsBitLength(Val(), r) && r <= 32 * pn.Length
    {
      var pos := pn.Length - 1;
      while pos >= 0
        invariant -1 <= pos < pn.Length && forall j | pos < j < pn.Length :: pn[j] == 0
      {
        if pn[pos] != 0 {
          var nbits := LimbBits(pn[pos]);
          TopLimb(pn[..], pos, nbits);
          return 32 * pos + nbits;
        }
        pos := pos - 1;
      }
      ValueZeros(pn[..]);
      return 0;
    }

    /**
     Shift and subtract: the floor quotient, or an error for a zero divisor. The quotient is
     cleared before the divisor is looked at.
     */
    method DivAssign(b: BaseUint) returns (ok: bool)
      requires b.pn.Length == pn.Length
      modifies pn
      ensures ok <==> old(b.Val()) != 0
      ensures Val() == if ok then old(Val()) / old(b.Val()) else 0
    {
      var div := new BaseUint.Copy(b);
      var num := new BaseUint.Copy(this);
      ghost var x, d := Val(), b.Val();
      SetZero();
      var numBits := num.Bits();
      var divBits := div.Bits();
      if divBits == 0 { return false; }
      if divBits > numBits {
        TooSmall(x, d, numBits, divBits);
        return true;
      }
      var shift := numBits - divBits;
      Aligned(x, d, numBits, divBits, pn.Length);
      div.ShiftLeft(shift);
      DivBegins(x, d, shift, Modulus());
      AllClear(pn[..], shift);
      while shift >= 0
        invariant fresh(num.pn) && fresh(div.pn) && num.pn != div.pn && num.pn.Length == div.pn.Length == pn.Length
        invariant -1 <= shift < 32 * pn.Length
        invariant Dividing(x, d, Val(), num.Val(), shift + 1)
        invariant shift >= 0 ==> div.Val() == d * Pow2(shift) && Clear(pn[..], shift / 32, shift % 32 + 1)
      {
        DivStep(num, div, shift, x, d);
        if shift > 0 { NextClear(pn[..], shift); }
        shift := shift - 1;
      }
      DivEnds(x, d, Val(), num.Val());
      return true;
    }

    /** One bit of the quotient. */
    method DivStep(num: BaseUint, div: BaseUint, shift: nat, ghost x: nat, ghost d: nat)
      requires pn != num.pn && pn != div.pn && num.pn != div.pn && num.pn.Length == div.pn.Length == pn.Length
      requires shift < 32 * pn.Length && Clear(pn[..], shift / 32, shift % 32 + 1)
      requires Dividing(x, d, Val(), num.Val(), shift + 1) && div.Val() == d * Pow2(shift)
      modifies pn, num.pn, div.pn
      ensures Dividing(x, d, Val(), num.Val(), shift) && (shift > 0 ==> div.Val() == d * Pow2(shift - 1))
      ensures Clear(pn[..], shift / 32, shift % 32)
    {
      DivNext(x, d, Val(), num.Val(), shift);
      var c := num.CompareTo(div);
      if c >= 0 {
        Subtract(num, div);
        SetBit(shift / 32, shift % 32);
        BitWeight(shift);
      } else {
        Looser(pn[..], shift / 32, shift % 32);
      }
      div.ShiftRight(1);
    }

    /** Sets a bit below which, and at which, there is none. */
    method SetBit(l: nat, r: nat)
      requires l < pn.Length && r < 32 && Clear(pn[..], l, r + 1)
      modifies pn
      ensures Val() == old(Val()) + Pow2(r) * Weight(l) && Clear(pn[..], l, r)
    {
      BitFree(pn[l], r);
      ghost var s := pn[..];
      var lost := OrAt(l, Pow2(r));
      assert pn[..] == s[l := pn[l]];
    }
  }

  /** Subtraction that does not wrap. */
  method Subtract(num: BaseUint, div: BaseUint)
    requires num.pn != div.pn && num.pn.Length == div.pn.Length && num.Val() >= div.Val()
    modifies num.pn
    ensures num.Val() == old(num.Val()) - div.Val()
  {
    ValueBound(num.pn[..]);
    Remainder(num.Val() - div.Val(), 0, num.Modulus(), num.Val() - div.Val());
    num.SubAssign(div);
  }

  /** The state of a division: x is q d and a rest below d 2^n. */
  ghost predicate Dividing(x: nat, d: nat, q: nat, rest: nat, n: nat) {
    x == q * d + rest && rest < d * Pow2(n)
  }

  lemma DivBegins(x: nat, d: nat, shift: nat, top: nat)
    requires d * Pow2(shift) < top && x < d * Pow2(shift + 1)
    ensures Dividing(x, d, 0, x, shift + 1) && (d * Pow2(shift)) % top == d * Pow2(shift)
  {
    Remainder(d * Pow2(shift), 0, top, d * Pow2(shift));
  }

  lemma DivNext(x: nat, d: nat, q: nat, rest: nat, shift: nat)
    requires Dividing(x, d, q, rest, shift + 1)
    ensures if rest >= d * Pow2(shift) then Dividing(x, d, q + Pow2(shift), rest - d * Pow2(shift), shift)
            else Dividing(x, d, q, rest, shift)
    ensures shift > 0 ==> (d * Pow2(shift)) / Pow2(1) == d * Pow2(shift - 1)
  {
    Halves(d, shift);
    assert (q + Pow2(shift)) * d == q * d + d * Pow2(shift);
  }

  lemma DivEnds(x: nat, d: nat, q: nat, rest: nat)
    requires d > 0 && Dividing(x, d, q, rest, 0)
    ensures q == x / d
  {
    Remainder(rest, q, d, x);
  }

  lemma BitWeight(shift: nat)
    ensures Pow2(shift % 32) * Weight(shift / 32) == Pow2(shift)
  {
    WeightIsPow2(shift / 32);
    Pow2Add(shift % 32, 32 * (shift / 32));
  }

  /** No bit below bit r of limb l is set. */
  ghost predicate Clear(s: seq<Limb>, l: nat, r: nat) {
    && (forall j | 0 <= j < |s| && j < l :: s[j] == 0)
    && (l < |s| ==> s[l] % Pow2(r) == 0)
  }

  lemma AllClear(s: seq<Limb>, shift: nat)
    requires forall j | 0 <= j < |s| :: s[j] == 0
    ensures Clear(s, shift / 32, shift % 32 + 1)
  {
    Remainder(0, 0, Pow2(shift % 32 + 1), 0);
  }

  lemma NextClear(s: seq<Limb>, shift: nat)
    requires shift > 0 && Clear(s, shift / 32, shift % 32)
    ensures Clear(s, (shift - 1) / 32, (shift - 1) % 32 + 1)
  {
    Remainder(0, 0, Pow2(32), 0);
    if shift % 32 == 0 {
      assert (shift - 1) / 32 == shift / 32 - 1 && (shift - 1) % 32 == 31;
    } else {
      assert (shift - 1) / 32 == shift / 32 && (shift - 1) % 32 == shift % 32 - 1;
    }
  }

  lemma TooSmall(x: nat, d: nat, xb: nat, db: nat)
    requires IsBitLength(x, xb) && IsBitLength(d, db) && xb < db
    ensures x / d == 0
  {
    Pow2Grows(xb, db - 1);
    Remainder(x, 0, d, x);
  }

  /** With the top bits aligned, the divisor fits, and twice the divisor exceeds the number. */
  lemma Aligned(x: nat, d: nat, xb: nat, db: nat, n: nat)
    requires IsBitLength(x, xb) && IsBitLength(d, db) && 0 < db <= xb <= 32 * n
    ensures d * Pow2(xb - db) < Weight(n) && x < d * Pow2(xb - db + 1)
  {
    var k := xb - db;
    MulLt(d, Pow2(db), Pow2(k));
    Pow2Add(db, k);
    Pow2Grows(xb, 32 * n);
    WeightIsPow2(n);
    MulLe(Pow2(db - 1), d, Pow2(k + 1));
    Pow2Add(db - 1, k + 1);
  }

  lemma Halves(d: nat, shift: nat)
    ensures d * Pow2(shift + 1) == 2 * (d * Pow2(shift)) && Pow2(1) == 2
    ensures shift > 0 ==> (d * Pow2(shift)) / 2 == d * Pow2(shift - 1)
  {
    if shift > 0 { assert d * Pow2(shift) == 2 * (d * Pow2(shift - 1)); }
    assert d * Pow2(shift + 1) == d * (2 * Pow2(shift)) == 2 * (d * Pow2(shift));
  }

  /** Multiples of a higher power are multiples of a lower one. */
  lemma MultipleLower(x: nat, r: nat)
    requires x % Pow2(r + 1) == 0
    ensures x % Pow2(r) == 0
  {
    var q := x / Pow2(r + 1);
    assert x == q * Pow2(r + 1) == 2 * q * Pow2(r);
    Remainder(0, 2 * q, Pow2(r), x);
  }

  lemma Looser(s: seq<Limb>, l: nat, r: nat)
    requires Clear(s, l, r + 1)
    ensures Clear(s, l, r)
  {
    if l < |s| { MultipleLower(s[l], r); }
  }

  lemma BelowMultiple(m: nat, p: nat, q: nat)
    requires m * p < q * p
    ensures m * p + p <= q * p
  {
    if m >= q { MulLe(q, m, p); } else { MulLt(m, q, p); }
  }

  lemma RoomForBit(m: nat, r: nat)
    requires r < 32 && m * Pow2(r + 1) < BASE
    ensures m * Pow2(r + 1) + Pow2(r + 1) <= BASE
  {
    Pow2Values();
    Pow2Add(31 - r, r + 1);
    BelowMultiple(m, Pow2(r + 1), Pow2(31 - r));
  }

  lemma BitFree(x: Limb, r: nat)
    requires r < 32 && x % Pow2(r + 1) == 0
    ensures Or(x, Pow2(r)) == x + Pow2(r) < BASE && Pow2(r) < BASE && (x + Pow2(r)) % Pow2(r) == 0
  {
    var m := x / Pow2(r + 1);
    assert x == m * Pow2(r + 1);
    RoomForBit(m, r);
    OrDisjoint(Pow2(r), m, r + 1);
    Doubled(m, Pow2(r));
    Remainder(0, 2 * m + 1, Pow2(r), x + Pow2(r));
  }

  lemma Doubled(m: nat, p: nat)
    ensures m * (2 * p) + p == (2 * m + 1) * p
  {
  }

  ghost predicate IsBitLength(v: nat, r: nat) {
    if r == 0 then v == 0 else Pow2(r - 1) <= v < Pow2(r)
  }

  /** The bit length of a limb, tried from the top. */
  method LimbBits(x: Limb) returns (r: nat)
    requires x > 0
    ensures 0 < r <= 32 && Pow2(r - 1) <= x < Pow2(r)
  {
    Pow2Values();
    var nbits := 31;
    while nbits > 0
      invariant 0 <= nbits <= 31 && x < Pow2(nbits + 1)
    {
      BitSet(x, nbits);
      if (x / Pow2(nbits)) % 2 == 1 {
        return nbits + 1;
      }
      nbits := nbits - 1;
    }
    return 1;
  }

  lemma BitSet(x: nat, n: nat)
    requires x < Pow2(n + 1)
    ensures (x / Pow2(n)) % 2 == 1 <==> x >= Pow2(n)
  {
    if x >= Pow2(n) {
      Remainder(x - Pow2(n), 1, Pow2(n), x);
    } else {
      Remainder(x, 0, Pow2(n), x);
    }
  }

  lemma LowerAt(s: seq<Limb>, t: seq<Limb>, i: nat)
    requires i < |s| == |t| && s[i] < t[i] && forall j | i < j < |s| :: s[j] == t[j]
    ensures Value(s) < Value(t)
  {
    assert s[i + 1..] == t[i + 1..];
    ValueSplit(s, i + 1);
    ValueSplit(t, i + 1);
    ValueNext(s, i);
    ValueNext(t, i);
    ValueBound(s[..i]);
    MulLt(s[i], t[i], Weight(i));
  }

  lemma TopLimb(s: seq<Limb>, pos: nat, r: nat)
    requires pos < |s| && 0 < r <= 32 && Pow2(r - 1) <= s[pos] < Pow2(r) && forall j | pos < j < |s| :: s[j] == 0
    ensures IsBitLength(Value(s), 32 * pos + r)
  {
    ValueSplit(s, pos + 1);
    ValueZeros(s[pos + 1..]);
    ValueNext(s, pos);
    ValueBound(s[..pos]);
    WeightIsPow2(pos);
    Pow2Add(r, 32 * pos);
    Pow2Add(r - 1, 32 * pos);
    MulLe(Pow2(r - 1), s[pos], Weight(pos));
    MulLt(s[pos], Pow2(r), Weight(pos));
  }

  /** What a right shift drops: the limbs below k and the low bits of limb k. */
  ghost function Rest(a: seq<Limb>, k: nat, n: nat): nat
    requires k < |a|
  {
    Value(a[..k]) + (a[k] % Pow2(n)) * Weight(k)
  }

  lemma ShiftRightStep(a: seq<Limb>, i: nat, k: nat, n: nat, shift: nat, v: int, v1: int)
    requires k <= i < |a| && shift == 32 * k + n
    requires i > k ==> v1 * Pow2(n) == v * Pow2(n) + a[i] * Weight(i - k)
    requires i > k ==> v * Pow2(shift) + Rest(a, k, n) == Value(a[..i])
    requires i == k ==> v == 0 && v1 == v + a[i] / Pow2(n)
    ensures v1 * Pow2(shift) + Rest(a, k, n) == Value(a[..i + 1])
  {
    ValueNext(a, i);
    WeightIsPow2(k);
    Pow2Add(n, 32 * k);
    if i > k {
      WeightAdd(i - k, k);
      RaiseStep(v, v1, Pow2(n), a[i], Weight(i - k), Weight(k));
    } else {
      RaiseFirst(a[i], Pow2(n), Weight(k));
    }
  }

  lemma RaiseStep(v: int, v1: int, p: int, x: int, w: int, u: int)
    requires v1 * p == v * p + x * w
    ensures v1 * (p * u) == v * (p * u) + x * (w * u)
  {
    assert v1 * (p * u) == (v1 * p) * u;
    assert (v * p + x * w) * u == v * (p * u) + x * (w * u);
  }

  lemma RaiseFirst(x: nat, p: nat, u: nat)
    requires p > 0
    ensures (x / p) * (p * u) + (x % p) * u == x * u
  {
    var q, r := x / p, x % p;
    assert x == q * p + r;
    assert (q * p + r) * u == q * (p * u) + r * u;
  }

  lemma ShiftRightEnd(a: seq<Limb>, k: nat, n: nat, shift: nat, v: nat)
    requires shift == 32 * k + n
    requires if |a| <= k then v == 0 else v * Pow2(shift) + Rest(a, k, n) == Value(a)
    ensures v == Value(a) / Pow2(shift)
  {
    WeightIsPow2(k);
    Pow2Add(n, 32 * k);
    if |a| <= k {
      ValueBound(a);
      WeightIsPow2(|a|);
      Pow2Grows(32 * |a|, shift);
      Remainder(Value(a), 0, Pow2(shift), Value(a));
    } else {
      ValueBound(a[..k]);
      MulLt(a[k] % Pow2(n), Pow2(n), Weight(k));
      Remainder(Rest(a, k, n), v, Pow2(shift), Value(a));
    }
  }

  lemma ShiftedOut(x: Limb, n: nat)
    requires n < 32
    ensures x / Pow2(n) < Pow2(32 - n) && x / Pow2(n) < BASE
  {
    Pow2Add(32 - n, n);
    Pow2Values();
    DivideBelow(x, Pow2(n), Pow2(32 - n));
    Pow2Grows(32 - n, 32);
  }

  lemma DownStep(v: int, v1: int, v2: int, x: Limb, lo: int, n: nat, j: nat)
    requires n < 32 && j > 0 && v2 == v1 + (x / Pow2(n)) * Weight(j)
    requires if n == 0 then v1 == v && lo == 0
             else v1 == v + lo * Weight(j - 1) && lo + (x / Pow2(n)) * BASE == x * Pow2(32 - n)
    ensures v2 * Pow2(n) == v * Pow2(n) + x * Weight(j)
  {
    if n > 0 {
      var hi: int, p: int, w: int := x / Pow2(n), Pow2(n), Weight(j - 1);
      Pow2Add(32 - n, n);
      Pow2Values();
      LimbStep(lo, hi, 0, x * Pow2(32 - n), w);
      DownAlgebra(v, v2, x, Pow2(32 - n), p, w);
    }
  }

  lemma DownAlgebra(v: int, v2: int, x: int, q: int, p: int, w: int)
    requires v2 == v + x * q * w && q * p == BASE
    ensures v2 * p == v * p + x * (BASE * w)
  {
    assert v2 * p == v * p + x * q * w * p;
    assert x * q * w * p == x * ((q * p) * w);
  }

  /** The high and the low part of a shifted limb; the low part is clear of the bits of any number of n bits. */
  method SplitLimb(x: Limb, n: nat, below: nat) returns (hi: Limb, lo: Limb)
    requires n < 32 && below < Pow2(n)
    ensures lo + hi * BASE == x * Pow2(n) && hi < Pow2(n)
    ensures Or(below, lo) == below + lo < BASE
    ensures hi == x / Pow2(32 - n)
  {
    ShiftedLimb(x, n);
    MulLtBase(x % Pow2(32 - n), n);
    OrDisjoint(below, x % Pow2(32 - n), n);
    hi := x / Pow2(32 - n);
    lo := (x * Pow2(n)) % BASE;
  }

  lemma MulLtBase(r: nat, n: nat)
    requires n < 32 && r < Pow2(32 - n)
    ensures r * Pow2(n) + Pow2(n) <= BASE
  {
    MulLt(r, Pow2(32 - n), Pow2(n));
    Pow2Add(32 - n, n);
    Pow2Values();
  }

  lemma JoinLimbs(v: int, v1: int, v2: int, hi: int, lo: int, x: int, w: nat, top: int, lost1: int, lost2: int)
    requires v1 + lost1 * top == v + hi * (BASE * w) && v2 + lost2 * top == v1 + lo * w && lo + hi * BASE == x
    ensures v2 + (lost1 + lost2) * top == v + x * w
  {
    LimbStep(lo, hi, 0, x, w);
    assert (lost1 + lost2) * top == lost1 * top + lost2 * top;
  }

  lemma ShiftLeftStep(a: seq<Limb>, i: nat, k: nat, n: nat, shift: nat, v: int, v1: int, top: int, over: int, lost: int)
    requires i < |a| && shift == 32 * k + n
    requires v + over * top == Value(a[..i]) * Pow2(shift) && v1 + lost * top == v + a[i] * Pow2(n) * Weight(i + k)
    ensures v1 + (over + lost) * top == Value(a[..i + 1]) * Pow2(shift)
  {
    ValueNext(a, i);
    WeightIsPow2(k);
    Pow2Add(32 * k, n);
    WeightAdd(i, k);
    ShiftLeftAlgebra(Value(a[..i]), Value(a[..i + 1]), a[i], Pow2(n), Weight(i), Weight(k), Weight(i + k), Pow2(shift),
        v, v1, top, over, lost);
  }

  lemma ShiftLeftAlgebra(va: int, vb: int, x: int, p: int, w: int, u: int, wu: int, up: int, v: int, v1: int, top: int,
                         over: int, lost: int)
    requires vb == va + x * w && wu == w * u && up == u * p
    requires v + over * top == va * up && v1 + lost * top == v + x * p * wu
    ensures v1 + (over + lost) * top == vb * up
  {
    Shuffle(x, p, w, u);
    assert vb * up == va * up + x * w * up;
    assert (over + lost) * top == over * top + lost * top;
  }

  lemma Shuffle(x: int, p: int, w: int, u: int)
    ensures x * p * (w * u) == x * w * (u * p)
  {
    assert x * p * (w * u) == x * (p * (w * u));
    assert x * w * (u * p) == x * (w * (u * p));
    assert p * (w * u) == w * (u * p);
  }

  lemma Regroup(a: int, b: int, c: int)
    ensures a * b * c == a * (b * c)
  {
  }

  /** Adds the product of one limb and the low limbs of a number, moved up by j limbs. */
  method MulRow(a: array<Limb>, p: Limb, b: array<Limb>, j: nat) returns (carry: Limb)
    requires a != b && a.Length == b.Length && j < a.Length
    modifies a
    ensures Value(a[..]) + carry * Weight(a.Length) == old(Value(a[..])) + p * Value(b[..a.Length - j]) * Weight(j)
  {
    ghost var x := a[..];
    carry := 0;
    assert p * Value(b[..0]) * Weight(j) == 0;
    for i := 0 to a.Length - j
      invariant b[..] == old(b[..]) && a[i + j..] == x[i + j..]
      invariant Value(a[..i + j]) + carry * Weight(i + j) == Value(x[..i + j]) + p * Value(b[..i]) * Weight(j)
    {
      ghost var s := a[..];
      var limb, out := MulAdd(carry, a[i + j], p, b[i]);
      a[i + j] := limb;
      assert a[..] == s[i + j := limb];
      RowLimb(s, x, b[..], i, j, p, carry, limb, out);
      carry := out;
    }
    assert a[..a.Length] == a[..] && x[..|x|] == x;
  }

  /** One limb of a product: the 64-bit intermediate never overflows, and the carry is a limb again. */
  method MulAdd(carry: Limb, acc: Limb, a: Limb, b: Limb) returns (limb: Limb, out: Limb)
    ensures limb + out * BASE == carry + acc + a * b
  {
    MulFits(a, b);
    var n := carry + acc + a * b;
    assert n < WORD64;
    limb := n % BASE;
    out := n / BASE;
  }

  lemma TwoLimbs(s: seq<Limb>)
    requires |s| >= 2 && forall j | 2 <= j < |s| :: s[j] == 0
    ensures Value(s) == s[0] + s[1] * BASE
  {
    ValueSplit(s, 2);
    ValueZeros(s[2..]);
    assert Weight(2) * Value(s[2..]) == 0;
    ValueNext(s, 1);
    ValueNext(s, 0);
    assert Weight(1) == BASE;
  }

  lemma LowTwo(s: seq<Limb>)
    requires |s| >= 2
    ensures s[0] + s[1] * BASE == Value(s) % WORD64
  {
    ValueSplit(s, 2);
    ValueNext(s, 1);
    ValueNext(s, 0);
    assert Weight(1) == BASE && Weight(2) == WORD64;
    Commute(Weight(2), Value(s[2..]));
    Remainder(s[0] + s[1] * BASE, Value(s[2..]), WORD64, Value(s));
  }

  lemma AddStep(s: seq<Limb>, x: seq<Limb>, y: seq<Limb>, i: nat, carry: nat)
    requires i < |s| == |x| == |y| && Value(s[..i]) + carry * Weight(i) == Value(x[..i]) + Value(y[..i])
    requires s[i] == (carry + x[i] + y[i]) % BASE
    ensures var n := carry + x[i] + y[i];
            Value(s[..i + 1]) + (n / BASE) * Weight(i + 1) == Value(x[..i + 1]) + Value(y[..i + 1])
  {
    ValueNext(s, i);
    ValueNext(x, i);
    ValueNext(y, i);
    Carry(carry + x[i] + y[i], Weight(i));
    assert (carry + x[i] + y[i]) * Weight(i) == carry * Weight(i) + x[i] * Weight(i) + y[i] * Weight(i);
  }

  /** A limb and the carry out of it make up what went in. */
  lemma Carry(n: nat, w: nat)
    ensures (n % BASE) * w + (n / BASE) * (BASE * w) == n * w
  {
    var q, r := n / BASE, n % BASE;
    assert n == q * BASE + r;
    assert (q * BASE + r) * w == q * (BASE * w) + r * w;
  }

  lemma {:induction false} ComplementValue(s: seq<Limb>, t: seq<Limb>)
    requires |s| == |t| && forall i | 0 <= i < |s| :: t[i] == BASE - 1 - s[i]
    ensures Value(s) + Value(t) == Weight(|s|) - 1
  {
    if s != [] {
      var n := |s| - 1;
      var w := Weight(n);
      ComplementValue(s[..n], t[..n]);
      assert s[n] * w + (BASE - 1 - s[n]) * w == BASE * w - w;
    }
  }

  /** A change d, of which `carry` is still to go into limb i, after that limb has taken it. */
  lemma CarryStep(s: seq<Limb>, x: seq<Limb>, i: nat, limb: Limb, out: int, carry: int, d: int)
    requires i < |s| == |x| && s[i..] == x[i..] && Value(s[..i]) + carry * Weight(i) == Value(x[..i]) + d
    requires limb + out * BASE == x[i] + carry
    ensures s[i := limb][i + 1..] == x[i + 1..]
    ensures Value(s[i := limb][..i + 1]) + out * Weight(i + 1) == Value(x[..i + 1]) + d
  {
    var t := s[i := limb];
    ValueNext(t, i);
    ValueNext(x, i);
    assert t[..i] == s[..i];
    LimbStep(limb, out, carry, x[i], Weight(i));
  }

  /** What is carried out of the top limb is lost. */
  lemma Wrapped(s: seq<Limb>, x: seq<Limb>, carry: int, d: int)
    requires |s| == |x| && Value(s) + carry * Weight(|s|) == Value(x) + d
    ensures Value(s) == (Value(x) + d) % Weight(|s|)
  {
    ValueBound(s);
    Remainder(Value(s), carry, Weight(|s|), Value(x) + d);
  }

  /** Once the low limbs hold a change of d and the high ones are as they were, the number has changed by d. */
  lemma Finished(s: seq<Limb>, x: seq<Limb>, i: nat, d: int)
    requires i <= |s| == |x| && s[i..] == x[i..] && Value(s[..i]) == Value(x[..i]) + d
    ensures Value(s) == Value(x) + d && Value(s) == (Value(x) + d) % Weight(|s|)
  {
    ValueSplit(s, i);
    ValueSplit(x, i);
    ValueBound(s);
    Remainder(Value(s), 0, Weight(|s|), Value(x) + d);
  }

  lemma MulFits(a: Limb, b: Limb)
    ensures a * b <= (BASE - 1) * (BASE - 1)
  {
    MulLe(a, BASE - 1, b);
  }

  lemma AddNegated(x: nat, y: nat, w: nat)
    requires w > 0
    ensures (x + (w - y) % w) % w == (x - y) % w
  {
    var q, r := (w - y) / w, (w - y) % w;
    assert w - y == q * w + r;
    assert (1 - q) * w == w - q * w;
    SameRemainder(x + r, x - y, 1 - q, w);
  }

  lemma Distribute(b: nat, u: nat, x: nat, w: nat)
    ensures b * (u + x * w) == b * u + b * x * w
  {
    assert b * (x * w) == b * x * w;
  }

  lemma MulStep(s: seq<Limb>, x: seq<Limb>, i: nat, b: nat, carry: nat, limb: Limb, out: nat)
    requires i < |s| == |x| && s[i..] == x[i..] && Value(s[..i]) + carry * Weight(i) == b * Value(x[..i])
    requires limb + out * BASE == carry + b * x[i]
    ensures s[i := limb][i + 1..] == x[i + 1..]
    ensures Value(s[i := limb][..i + 1]) + out * Weight(i + 1) == b * Value(x[..i + 1])
  {
    var t, w := s[i := limb], Weight(i);
    ValueNext(t, i);
    ValueNext(x, i);
    assert t[..i] == s[..i];
    LimbStep(limb, out, carry, b * x[i], w);
    Distribute(b, Value(x[..i]), x[i], w);
  }

  lemma LimbStep(limb: int, out: int, carry: int, p: int, w: nat)
    requires limb + out * BASE == carry + p
    ensures limb * w + out * (BASE * w) == carry * w + p * w
  {
    assert (limb + out * BASE) * w == limb * w + out * (BASE * w);
    assert (carry + p) * w == carry * w + p * w;
  }

  lemma RowLimb(s: seq<Limb>, x: seq<Limb>, b: seq<Limb>, i: nat, j: nat, p: nat, carry: nat, limb: Limb, out: nat)
    requires i + j < |s| == |x| == |b| && s[i + j..] == x[i + j..] && limb + out * BASE == carry + x[i + j] + p * b[i]
    requires Value(s[..i + j]) + carry * Weight(i + j) == Value(x[..i + j]) + p * Value(b[..i]) * Weight(j)
    ensures s[i + j := limb][i + j + 1..] == x[i + j + 1..]
    ensures Value(s[i + j := limb][..i + j + 1]) + out * Weight(i + j + 1)
            == Value(x[..i + j + 1]) + p * Value(b[..i + 1]) * Weight(j)
  {
    var k := i + j;
    var t, w := s[k := limb], Weight(k);
    ValueNext(t, k);
    ValueNext(x, k);
    ValueNext(b, i);
    assert t[..k] == s[..k];
    LimbStep(limb, out, carry, x[k] + p * b[i], w);
    AddTimes(x[k], p * b[i], w);
    WeightAdd(i, j);
    RowAlgebra(p, b[i], Value(b[..i]), Weight(i), Weight(j));
  }

  lemma RowAlgebra(p: int, x: int, v: int, u: int, w: int)
    ensures p * (v + x * u) * w == p * v * w + p * x * (u * w)
  {
    assert p * (v + x * u) == p * v + p * x * u;
    assert (p * v + p * x * u) * w == p * v * w + p * x * u * w;
    assert p * x * u * w == p * x * (u * w);
  }

  lemma AddTimes(a: int, b: int, w: nat)
    ensures (a + b) * w == a * w + b * w
  {
  }

  /** A row stands for the product with the whole number: what it leaves out is above the top limb. */
  lemma RowStep(x: seq<Limb>, b: seq<Limb>, j: nat, was: int, now: int, over: int, carry: int) returns (over': int)
    requires j < |x| == |b| && was + over * Weight(|x|) == Value(x[..j]) * Value(b)
    requires now + carry * Weight(|x|) == was + x[j] * Value(b[..|x| - j]) * Weight(j)
    ensures now + over' * Weight(|x|) == Value(x[..j + 1]) * Value(b)
  {
    var n := |x|;
    var xj: int, high: int := x[j], Value(b[n - j..]);
    ValueSplit(b, n - j);
    WeightAdd(n - j, j);
    ValueNext(x, j);
    over' := over + carry + xj * high;
    RowClose(Value(x[..j]), Value(x[..j + 1]), xj, Weight(j), Value(b[..n - j]), high, Weight(n - j), Weight(n),
        Value(b), was, now, over, carry);
  }

  lemma RowClose(v: int, v': int, x: int, w: int, low: int, high: int, u: int, top: int, b: int, was: int, now: int,
                 over: int, carry: int)
    requires top == u * w && b == low + u * high && v' == v + x * w
    requires was + over * top == v * b && now + carry * top == was + x * low * w
    ensures now + (over + carry + x * high) * top == v' * b
  {
    assert (over + carry + x * high) * top == over * top + carry * top + x * high * top;
    assert v' * b == v * b + x * w * b;
    Reorder(x, w, low, u, high);
  }

  lemma Reorder(x: int, w: int, low: int, u: int, high: int)
    ensures x * w * (low + u * high) == x * low * w + x * high * (u * w)
  {
    assert x * w * (low + u * high) == x * w * low + x * w * (u * high);
    assert x * w * (u * high) == x * high * (u * w);
    assert x * w * low == x * low * w;
  }
}
