/**
 Base58: bytes as a number in base 256, written in base 58 with one '1' for every leading
 zero byte. Digit lists are big-endian, the working buffers little-endian: index i of a
 buffer is the i-th digit from the right.
 */
module Base58 {
  import opened Numbers
  import opened Wrappers

  // ---------- numbers and digits ----------

  function Pow(b: nat, n: nat): nat {
    if n == 0 then 1 else b * Pow(b, n - 1)
  }

  lemma {:induction false} PowPositive(b: nat, n: nat)
    requires b > 0
    ensures Pow(b, n) > 0
  {
    if n > 0 {
      PowPositive(b, n - 1);
      MulLe(1, b, Pow(b, n - 1));
    }
  }

  lemma {:induction false} PowAdd(b: nat, m: nat, n: nat)
    ensures Pow(b, m + n) == Pow(b, m) * Pow(b, n)
  {
    if m > 0 {
      PowAdd(b, m - 1, n);
      assert b * (Pow(b, m - 1) * Pow(b, n)) == b * Pow(b, m - 1) * Pow(b, n);
    }
  }

  lemma {:induction false} PowGrows(b: nat, m: nat, n: nat)
    requires b > 0 && m <= n
    ensures Pow(b, m) <= Pow(b, n)
  {
    if m < n {
      PowGrows(b, m, n - 1);
      MulLe(1, b, Pow(b, n - 1));
    }
  }

  predicate DigitsAt(ds: seq<nat>, base: nat, i: int) { 0 <= i < |ds| ==> ds[i] < base }

  ghost predicate Digits(ds: seq<nat>, base: nat) { forall i :: DigitsAt(ds, base, i) }

  /** The number that big-endian digits stand for. */
  function Value(ds: seq<nat>, base: nat): nat {
    if ds == [] then 0 else Value(ds[..|ds| - 1], base) * base + ds[|ds| - 1]
  }

  lemma Shrinks(v: nat, base: nat)
    requires v > 0 && base > 1
    ensures 0 <= v / base < v
  {
    QuotientBounds(v, base);
    MulLe(2, base, v / base);
  }

  /** The digits of a number, without leading zeros. */
  function ToDigits(v: nat, base: nat): (ds: seq<nat>)
    requires base > 1
    decreases v
  {
    if v == 0 then []
    else
      Shrinks(v, base);
      ToDigits(v / base, base) + [v % base]
  }

  lemma QuotientAndRest(v: nat, base: nat)
    requires base > 0
    ensures (v / base) * base + v % base == v && v % base < base
  {
  }

  lemma {:induction false} ToDigitsValue(v: nat, base: nat)
    requires base > 1
    ensures Value(ToDigits(v, base), base) == v
    decreases v
  {
    var ds := ToDigits(v, base);
    if v > 0 {
      Shrinks(v, base);
      ToDigitsValue(v / base, base);
      assert ds[..|ds| - 1] == ToDigits(v / base, base);
      QuotientAndRest(v, base);
    }
  }

  lemma {:induction false} ToDigitsForm(v: nat, base: nat)
    requires base > 1
    ensures Digits(ToDigits(v, base), base) && (v > 0 ==> |ToDigits(v, base)| > 0 && ToDigits(v, base)[0] != 0)
    decreases v
  {
    var ds := ToDigits(v, base);
    if v > 0 {
      Shrinks(v, base);
      QuotientAndRest(v, base);
      var init := ToDigits(v / base, base);
      ToDigitsForm(v / base, base);
      forall i ensures DigitsAt(ds, base, i) { assert DigitsAt(init, base, i); }
    }
  }

  /** Digits without a leading zero are the digits of their number. */
  lemma {:induction false} ToDigitsUnique(ds: seq<nat>, base: nat)
    requires base > 1 && Digits(ds, base) && (ds != [] ==> ds[0] != 0)
    ensures ToDigits(Value(ds, base), base) == ds && (ds != [] ==> Value(ds, base) > 0)
  {
    if ds != [] {
      var init, last := ds[..|ds| - 1], ds[|ds| - 1];
      assert DigitsAt(ds, base, |ds| - 1);
      forall i ensures DigitsAt(init, base, i) { assert DigitsAt(ds, base, i); }
      ToDigitsUnique(init, base);
      Remainder(last, Value(init, base), base, Value(ds, base));
      if init == [] {
        assert Value(init, base) * base == 0;
      } else {
        MulLe(1, Value(init, base), base);
      }
    }
  }

  lemma {:induction false} ValueBelow(ds: seq<nat>, base: nat)
    requires base > 0 && Digits(ds, base)
    ensures Value(ds, base) < Pow(base, |ds|)
  {
    if ds != [] {
      var init := ds[..|ds| - 1];
      forall i ensures DigitsAt(init, base, i) { assert DigitsAt(ds, base, i); }
      ValueBelow(init, base);
      assert DigitsAt(ds, base, |ds| - 1);
      MulLt(Value(init, base), Pow(base, |init|), base);
      assert Pow(base, |ds|) == base * Pow(base, |init|) == Pow(base, |init|) * base;
    }
  }

  lemma {:induction false} ValueZeros(z: nat, ds: seq<nat>, base: nat)
    ensures Value(Zeros(z) + ds, base) == Value(ds, base)
  {
    if ds == [] {
      assert Zeros(z) + ds == Zeros(z);
      AllZero(z, base);
    } else {
      var all := Zeros(z) + ds;
      assert all[..|all| - 1] == Zeros(z) + ds[..|ds| - 1];
      ValueZeros(z, ds[..|ds| - 1], base);
    }
  }

  lemma {:induction false} AllZero(z: nat, base: nat)
    ensures Value(Zeros(z), base) == 0
  {
    if z > 0 {
      assert Zeros(z)[..z - 1] == Zeros(z - 1);
      AllZero(z - 1, base);
    }
  }

  function Zeros(z: nat): (r: seq<nat>)
    ensures |r| == z && forall i | 0 <= i < z :: r[i] == 0
  {
    seq(z, _ => 0)
  }

  /** The number of leading zeros. */
  function LeadingZeros(ds: seq<nat>): (z: nat)
    ensures z <= |ds| && (z < |ds| ==> ds[z] != 0) && forall i | 0 <= i < z :: ds[i] == 0
  {
    if ds == [] || ds[0] != 0 then 0 else 1 + LeadingZeros(ds[1..])
  }

  // ---------- buffer sizes ----------

  lemma Powers58()
    ensures Pow(58, 1) == 58 && Pow(58, 2) == 3364 && Pow(58, 3) == 195112 && Pow(58, 4) == 11316496
    ensures Pow(58, 5) == 656356768 && Pow(58, 6) == 38068692544 && Pow(58, 7) == 2207984167552
            && Pow(58, 8) == 128063081718016
  {
    assert Pow(58, 2) == 58 * Pow(58, 1) && Pow(58, 3) == 58 * Pow(58, 2) && Pow(58, 4) == 58 * Pow(58, 3);
    assert Pow(58, 5) == 58 * Pow(58, 4) && Pow(58, 6) == 58 * Pow(58, 5) && Pow(58, 7) == 58 * Pow(58, 6)
        && Pow(58, 8) == 58 * Pow(58, 7);
  }

  lemma Powers256()
    ensures Pow(256, 1) == 256 && Pow(256, 2) == 65536 && Pow(256, 3) == 16777216 && Pow(256, 4) == 4294967296
    ensures Pow(256, 5) == 1099511627776 && Pow(256, 6) == 281474976710656 && Pow(256, 7) == 72057594037927936
    ensures Pow(256, 8) == 18446744073709551616
  {
    assert Pow(256, 2) == 256 * Pow(256, 1) && Pow(256, 3) == 256 * Pow(256, 2) && Pow(256, 4) == 256 * Pow(256, 3);
    assert Pow(256, 5) == 256 * Pow(256, 4) && Pow(256, 6) == 256 * Pow(256, 5) && Pow(256, 7) == 256 * Pow(256, 6)
        && Pow(256, 8) == 256 * Pow(256, 7);
  }

  /** The next powers, each a product of two. */
  lemma MorePowers58()
    ensures Pow(58, 9) == 7427658739644928 && Pow(58, 10) == 430804206899405824 && Pow(58, 11) == 24986644000165537792
    ensures Pow(58, 12) == 1449225352009601191936 && Pow(58, 13) == 84055070416556869132288
            && Pow(58, 14) == 4875194084160298409672704
    ensures Pow(58, 15) == 282761256881297307761016832
  {
    Powers58();
    assert Pow(58, 9) == 58 * Pow(58, 8) && Pow(58, 10) == 58 * Pow(58, 9) && Pow(58, 11) == 58 * Pow(58, 10);
    assert Pow(58, 12) == 58 * Pow(58, 11) && Pow(58, 13) == 58 * Pow(58, 12) && Pow(58, 14) == 58 * Pow(58, 13)
        && Pow(58, 15) == 58 * Pow(58, 14);
  }

  lemma MorePowers256()
    ensures Pow(256, 9) == 4722366482869645213696 && Pow(256, 10) == 1208925819614629174706176
            && Pow(256, 11) == 309485009821345068724781056
  {
    Powers256();
    assert Pow(256, 9) == 256 * Pow(256, 8) && Pow(256, 10) == 256 * Pow(256, 9) && Pow(256, 11) == 256 * Pow(256, 10);
  }

  lemma MulBoth(a: nat, b: nat, c: nat, d: nat)
    requires a <= b && c <= d
    ensures a * c <= b * d
  {
    MulLe(a, b, c);
    MulLe(c, d, b);
    Commute(c, b);
    Commute(d, b);
  }

  /** A bound on one block of digits is a bound on any number of blocks. */
  lemma {:induction false} Blocks(b: nat, c: nat, k: nat, j: nat, q: nat)
    requires Pow(b, k) <= Pow(c, j)
    ensures Pow(b, k * q) <= Pow(c, j * q)
  {
    if q > 0 {
      Blocks(b, c, k, j, q - 1);
      assert k * q == k + k * (q - 1) && j * q == j + j * (q - 1);
      PowAdd(b, k, k * (q - 1));
      PowAdd(c, j, j * (q - 1));
      MulBoth(Pow(b, k), Pow(c, j), Pow(b, k * (q - 1)), Pow(c, j * (q - 1)));
    }
  }

  lemma Joined(b: nat, c: nat, k: nat, j: nat, r: nat, f: nat, size: nat)
    requires c > 0 && Pow(b, k) <= Pow(c, j) && Pow(b, r) <= Pow(c, f) && j + f <= size
    ensures Pow(b, k + r) <= Pow(c, size)
  {
    PowAdd(b, k, r);
    PowAdd(c, j, f);
    MulBoth(Pow(b, k), Pow(c, j), Pow(b, r), Pow(c, f));
    PowGrows(c, j + f, size);
  }

  lemma EncodeRest(r: nat)
    requires r < 8
    ensures Pow(256, r) <= Pow(58, if r == 0 then 0 else r * 138 / 100 + 1)
  {
    Powers58();
    MorePowers58();
    Powers256();
    if r == 1 { } else if r == 2 { } else if r == 3 { } else if r == 4 { } else if r == 5 { } else if r == 6 { }
        else { }
  }

  /** The buffer of the encoder suffices for any n bytes. */
  lemma EncodeFits(n: nat)
    ensures Pow(256, n) <= Pow(58, n * 138 / 100 + 1)
  {
    var q, r := n / 8, n % 8;
    Powers256();
    MorePowers58();
    Blocks(256, 58, 8, 11, q);
    EncodeRest(r);
    Joined(256, 58, 8 * q, 11 * q, r, if r == 0 then 0 else r * 138 / 100 + 1, n * 138 / 100 + 1);
  }

  function FewBytes(b: nat): int { (733 * b - 20) / 1000 + 1 }

  lemma FewestDigits(b: nat)
    requires b < 4
    ensures FewBytes(b) >= 0 && Pow(58, b) <= Pow(256, FewBytes(b))
  {
    Powers58();
    Powers256();
    if b == 0 { } else if b == 1 { } else if b == 2 { } else { }
  }

  lemma FewerDigits(b: nat)
    requires 4 <= b < 8
    ensures FewBytes(b) >= 0 && Pow(58, b) <= Pow(256, FewBytes(b))
  {
    Powers58();
    Powers256();
    if b == 4 { } else if b == 5 { } else if b == 6 { } else { }
  }

  lemma MoreDigits(b: nat)
    requires 8 <= b < 15
    ensures FewBytes(b) >= 0 && Pow(58, b) <= Pow(256, FewBytes(b))
  {
    Powers58();
    MorePowers58();
    Powers256();
    MorePowers256();
    if b == 8 { } else if b == 9 { } else if b == 10 { } else if b == 11 { } else if b == 12 { } else if b == 13 { }
        else { }
  }

  lemma FewDigits(b: nat)
    requires b < 15
    ensures FewBytes(b) >= 0 && Pow(58, b) <= Pow(256, FewBytes(b))
  {
    if b < 4 { FewestDigits(b); } else if b < 8 { FewerDigits(b); } else { MoreDigits(b); }
  }

  lemma Block15(a: nat)
    ensures Pow(58, 15 * a) <= Pow(256, 11 * a)
  {
    MorePowers58();
    MorePowers256();
    Blocks(58, 256, 15, 11, a);
  }

  lemma DecodeRest(r: nat)
    requires r < 71
    ensures Pow(58, r) <= Pow(256, r * 733 / 1000 + 1)
  {
    var a, b := r / 15, r % 15;
    Block15(a);
    FewDigits(b);
    Joined(58, 256, 15 * a, 11 * a, b, FewBytes(b), r * 733 / 1000 + 1);
  }

  lemma Square58()
    ensures Pow(58, 30) == 79953928393091004080532279173738402825689466587316224
    ensures Pow(58, 60)
            == 6392630665487523829925705590507004456832030712891733088851577912861189652777515686114891080333114973618176
    ensures Pow(58, 71)
            == 159730386663078066345306447337161584696769904898410078913243029577507397293846405390982563136983769384625594118558891106107392
  {
    MorePowers58();
    PowAdd(58, 15, 15);
    PowAdd(58, 30, 30);
    PowAdd(58, 60, 11);
  }

  lemma Square256()
    ensures Pow(256, 16) == 340282366920938463463374607431768211456
            && Pow(256, 32) == 115792089237316195423570985008687907853269984665640564039457584007913129639936
    ensures Pow(256, 48)
            == 39402006196394479212279040100143613805079739270465446667948293404245721771497210611414266254884915640806627990306816
    ensures Pow(256, 52)
            == 169230328010303641331690318856389386196071598838855992136870091590247882556495704531248437872567112920983350278405979725889536
  {
    Powers256();
    PowAdd(256, 8, 8);
    PowAdd(256, 16, 16);
    PowAdd(256, 32, 16);
    PowAdd(256, 48, 4);
  }

  lemma Block71(q: nat)
    ensures Pow(58, 71 * q) <= Pow(256, 52 * q)
  {
    Square58();
    Square256();
    Blocks(58, 256, 71, 52, q);
  }

  /** The buffer of the decoder suffices for any m digits. */
  lemma DecodeFits(m: nat)
    ensures Pow(58, m) <= Pow(256, m * 733 / 1000 + 1)
  {
    var q, r := m / 71, m % 71;
    Block71(q);
    DecodeRest(r);
    Joined(58, 256, 71 * q, 52 * q, r, r * 733 / 1000 + 1, m * 733 / 1000 + 1);
  }

  // ---------- changing the base ----------

  /** The digits in another base, as many zeros in front. */
  function Convert(ds: seq<nat>, base: nat, to: nat): seq<nat>
    requires to > 1
  {
    Zeros(LeadingZeros(ds)) + ToDigits(Value(ds, base), to)
  }

  lemma SplitZeros(ds: seq<nat>, base: nat)
    ensures var z := LeadingZeros(ds); ds == Zeros(z) + ds[z..] && Value(ds, base) == Value(ds[z..], base)
  {
    var z := LeadingZeros(ds);
    assert ds == Zeros(z) + ds[z..];
    ValueZeros(z, ds[z..], base);
  }

  lemma {:induction false} ZerosLead(z: nat, ds: seq<nat>)
    requires ds != [] ==> ds[0] != 0
    ensures LeadingZeros(Zeros(z) + ds) == z
  {
    if z == 0 {
      assert Zeros(z) + ds == ds;
    } else {
      assert (Zeros(z) + ds)[1..] == Zeros(z - 1) + ds;
      ZerosLead(z - 1, ds);
    }
  }

  lemma DropDigits(ds: seq<nat>, base: nat, z: nat)
    requires Digits(ds, base) && z <= |ds|
    ensures Digits(ds[z..], base)
  {
    var rest := ds[z..];
    forall i: int ensures DigitsAt(rest, base, i) { assert DigitsAt(ds, base, z + i); }
  }

  lemma ConvertForm(ds: seq<nat>, base: nat, to: nat)
    requires to > 1
    ensures Digits(Convert(ds, base, to), to) && LeadingZeros(Convert(ds, base, to)) == LeadingZeros(ds)
    ensures Value(Convert(ds, base, to), to) == Value(ds, base)
  {
    var z, v := LeadingZeros(ds), Value(ds, base);
    var e := ToDigits(v, to);
    ToDigitsForm(v, to);
    ToDigitsValue(v, to);
    ZerosLead(z, e);
    ValueZeros(z, e, to);
    var all := Convert(ds, base, to);
    forall i: int ensures DigitsAt(all, to, i) { assert DigitsAt(e, to, i - z); }
  }

  /** Converting back gives the digits back. */
  lemma ConvertBack(ds: seq<nat>, base: nat, to: nat)
    requires base > 1 && to > 1 && Digits(ds, base)
    ensures Convert(Convert(ds, base, to), to, base) == ds
  {
    var z := LeadingZeros(ds);
    ConvertForm(ds, base, to);
    SplitZeros(ds, base);
    DropDigits(ds, base, z);
    ToDigitsUnique(ds[z..], base);
  }

  // ---------- strings ----------

  predicate IsSpace(c: char) {
    c == ' ' || c == 12 as char || c == '\n' || c == '\r' || c == '\t' || c == 11 as char
  }

  /** An alphabet of 58 characters, with '1' for zero. */
  datatype Alphabet = Alphabet(toChar: nat -> char, fromChar: char -> Option<nat>)
  {
    ghost predicate DigitAt(d: nat) {
      d < 58 ==> fromChar(toChar(d)) == Some(d) && !IsSpace(toChar(d)) && toChar(d) != NUL
    }

    ghost predicate CharAt(c: char) {
      fromChar(c).Some? ==> fromChar(c).value < 58 && toChar(fromChar(c).value) == c
    }

    ghost predicate Lawful() {
      toChar(0) == '1' && (forall d :: DigitAt(d)) && (forall c :: CharAt(c))
    }

    function Spell(ds: seq<nat>): (r: string)
      ensures |r| == |ds| && forall i | 0 <= i < |ds| :: r[i] == toChar(ds[i])
    {
      seq(|ds|, i requires 0 <= i < |ds| => toChar(ds[i]))
    }

    predicate Readable(t: string) {
      forall i | 0 <= i < |t| :: fromChar(t[i]).Some?
    }

    function Read(t: string): (ds: seq<nat>)
      requires Readable(t)
      ensures |ds| == |t| && forall i | 0 <= i < |t| :: fromChar(t[i]) == Some(ds[i])
    {
      seq(|t|, i requires 0 <= i < |t| => fromChar(t[i]).value)
    }

    function Encoded(bytes: seq<nat>): string {
      Spell(Convert(bytes, 256, 58))
    }

    function Parsed(s: string): Option<seq<nat>> {
      var t := Trim(s);
      if Readable(t) then Some(Convert(Read(t), 58, 256)) else None
    }

    function Decoded(s: string): Option<seq<nat>> { Parsed(CString(s)) }
  }

  const NUL: char := 0 as char

  /** What a string is as a C string: the characters before the first NUL. */
  function CString(s: string): string {
    if s == [] || s[0] == NUL then [] else [s[0]] + CString(s[1..])
  }

  lemma {:induction false} CStringWhole(s: string)
    requires forall i | 0 <= i < |s| :: s[i] != NUL
    ensures CString(s) == s
  {
    if s != [] {
      forall i | 0 <= i < |s| - 1 ensures s[1..][i] != NUL { assert s[1..][i] == s[i + 1]; }
      CStringWhole(s[1..]);
    }
  }

  lemma {:induction false} CStringPrefix(s: string, n: nat)
    requires n <= |s| && (forall i | 0 <= i < n :: s[i] != NUL) && (n < |s| ==> s[n] == NUL)
    ensures CString(s) == s[..n]
  {
    if n > 0 {
      forall i | 0 <= i < n - 1 ensures s[1..][i] != NUL { assert s[1..][i] == s[i + 1]; }
      CStringPrefix(s[1..], n - 1);
      assert s[..n] == [s[0]] + s[1..][..n - 1];
    }
  }

  function TrimLeft(s: string): string {
    if s == [] || !IsSpace(s[0]) then s else TrimLeft(s[1..])
  }

  function TrimRight(s: string): string {
    if s == [] || !IsSpace(s[|s| - 1]) then s else TrimRight(s[..|s| - 1])
  }

  /** Without the spaces around it. */
  function Trim(s: string): string { TrimRight(TrimLeft(s)) }

  lemma ReadSpelled(a: Alphabet, ds: seq<nat>)
    requires a.Lawful() && Digits(ds, 58)
    ensures a.Readable(a.Spell(ds)) && a.Read(a.Spell(ds)) == ds
            && Trim(a.Spell(ds)) == a.Spell(ds) == CString(a.Spell(ds))
  {
    var t := a.Spell(ds);
    forall i | 0 <= i < |t| ensures a.fromChar(t[i]) == Some(ds[i]) && !IsSpace(t[i]) && t[i] != NUL {
      assert DigitsAt(ds, 58, i) && a.DigitAt(ds[i]);
    }
    CStringWhole(t);
  }

  lemma SpelledRead(a: Alphabet, t: string)
    requires a.Lawful() && a.Readable(t)
    ensures Digits(a.Read(t), 58) && a.Spell(a.Read(t)) == t
  {
    var ds := a.Read(t);
    forall i ensures DigitsAt(ds, 58, i) { if 0 <= i < |t| { assert a.CharAt(t[i]); } }
    forall i | 0 <= i < |t| ensures a.Spell(ds)[i] == t[i] { assert a.CharAt(t[i]); }
  }

  /** Decoding undoes encoding, for every byte sequence. */
  lemma DecodeEncoded(a: Alphabet, bytes: seq<nat>)
    requires a.Lawful() && Digits(bytes, 256)
    ensures a.Decoded(a.Encoded(bytes)) == Some(bytes)
  {
    ConvertForm(bytes, 256, 58);
    ReadSpelled(a, Convert(bytes, 256, 58));
    ConvertBack(bytes, 256, 58);
  }

  /**
   A string decodes to some bytes exactly when the part before its first NUL is their
   encoding, apart from the spaces around it.
   */
  lemma DecodeExact(a: Alphabet, s: string, bytes: seq<nat>)
    requires a.Lawful()
    ensures a.Decoded(s) == Some(bytes) <==> Digits(bytes, 256) && Trim(CString(s)) == a.Encoded(bytes)
  {
    var c := CString(s);
    if a.Parsed(c) == Some(bytes) {
      var ds := a.Read(Trim(c));
      SpelledRead(a, Trim(c));
      ConvertForm(ds, 58, 256);
      ConvertBack(ds, 58, 256);
    }
    if Digits(bytes, 256) && Trim(c) == a.Encoded(bytes) {
      ConvertForm(bytes, 256, 58);
      ReadSpelled(a, Convert(bytes, 256, 58));
      ConvertBack(bytes, 256, 58);
    }
  }

  // ---------- the tables ----------

  function ToChar(d: nat): char {
    match d
    case 0 => '1' case 1 => '2' case 2 => '3' case 3 => '4' case 4 => '5' case 5 => '6' case 6 => '7' case 7 => '8'
    case 8 => '9' case 9 => 'A' case 10 => 'B' case 11 => 'C' case 12 => 'D' case 13 => 'E' case 14 => 'F'
        case 15 => 'G'
    case 16 => 'H' case 17 => 'J' case 18 => 'K' case 19 => 'L' case 20 => 'M' case 21 => 'N' case 22 => 'P'
        case 23 => 'Q'
    case 24 => 'R' case 25 => 'S' case 26 => 'T' case 27 => 'U' case 28 => 'V' case 29 => 'W' case 30 => 'X'
        case 31 => 'Y'
    case 32 => 'Z' case 33 => 'a' case 34 => 'b' case 35 => 'c' case 36 => 'd' case 37 => 'e' case 38 => 'f'
        case 39 => 'g'
    case 40 => 'h' case 41 => 'i' case 42 => 'j' case 43 => 'k' case 44 => 'm' case 45 => 'n' case 46 => 'o'
        case 47 => 'p'
    case 48 => 'q' case 49 => 'r' case 50 => 's' case 51 => 't' case 52 => 'u' case 53 => 'v' case 54 => 'w'
        case 55 => 'x'
    case 56 => 'y' case _ => 'z'
  }

  function FromChar(c: char): Option<nat> {
    match c
    case '1' => Some(0) case '2' => Some(1) case '3' => Some(2) case '4' => Some(3) case '5' => Some(4)
        case '6' => Some(5)
    case '7' => Some(6) case '8' => Some(7) case '9' => Some(8) case 'A' => Some(9) case 'B' => Some(10)
        case 'C' => Some(11)
    case 'D' => Some(12) case 'E' => Some(13) case 'F' => Some(14) case 'G' => Some(15) case 'H' => Some(16)
        case 'J' => Some(17)
    case 'K' => Some(18) case 'L' => Some(19) case 'M' => Some(20) case 'N' => Some(21) case 'P' => Some(22)
        case 'Q' => Some(23)
    case 'R' => Some(24) case 'S' => Some(25) case 'T' => Some(26) case 'U' => Some(27) case 'V' => Some(28)
        case 'W' => Some(29)
    case 'X' => Some(30) case 'Y' => Some(31) case 'Z' => Some(32) case 'a' => Some(33) case 'b' => Some(34)
        case 'c' => Some(35)
    case 'd' => Some(36) case 'e' => Some(37) case 'f' => Some(38) case 'g' => Some(39) case 'h' => Some(40)
        case 'i' => Some(41)
    case 'j' => Some(42) case 'k' => Some(43) case 'm' => Some(44) case 'n' => Some(45) case 'o' => Some(46)
        case 'p' => Some(47)
    case 'q' => Some(48) case 'r' => Some(49) case 's' => Some(50) case 't' => Some(51) case 'u' => Some(52)
        case 'v' => Some(53)
    case 'w' => Some(54) case 'x' => Some(55) case 'y' => Some(56) case 'z' => Some(57) case _ => None
  }

  const ALPHABET: Alphabet := Alphabet(ToChar, FromChar)

  predicate DigitOk(d: nat) { FromChar(ToChar(d)) == Some(d) && !IsSpace(ToChar(d)) && ToChar(d) != NUL }

  lemma LowDigitsOk(d: nat)
    ensures d < 15 ==> DigitOk(d)
  {
  }

  lemma MiddleDigitsOk(d: nat)
    ensures 15 <= d < 30 ==> DigitOk(d)
  {
  }

  lemma HighDigitsOk(d: nat)
    ensures 30 <= d < 45 ==> DigitOk(d)
  {
  }

  lemma TopDigitsOk(d: nat)
    ensures 45 <= d < 58 ==> DigitOk(d)
  {
  }

  predicate CharOk(c: char) { FromChar(c).Some? ==> FromChar(c).value < 58 && ToChar(FromChar(c).value) == c }

  lemma NumeralOk(c: char)
    ensures c < 'A' ==> CharOk(c)
  {
  }

  lemma CapitalOk(c: char)
    ensures 'A' <= c < 'N' ==> CharOk(c)
  {
  }

  lemma MoreCapitalOk(c: char)
    ensures 'N' <= c < 'a' ==> CharOk(c)
  {
  }

  lemma SmallOk(c: char)
    ensures 'a' <= c < 'n' ==> CharOk(c)
  {
  }

  lemma MoreSmallOk(c: char)
    ensures 'n' <= c < 't' ==> CharOk(c)
  {
  }

  lemma BeyondOk(c: char)
    ensures 't' <= c ==> CharOk(c)
  {
  }

  /** The two tables of the repository undo each other. */
  lemma AlphabetLawful()
    ensures ALPHABET.Lawful()
  {
    forall d ensures ALPHABET.DigitAt(d) {
      LowDigitsOk(d);
      MiddleDigitsOk(d);
      HighDigitsOk(d);
      TopDigitsOk(d);
    }
    forall c ensures ALPHABET.CharAt(c) {
      NumeralOk(c);
      CapitalOk(c);
      MoreCapitalOk(c);
      SmallOk(c);
      MoreSmallOk(c);
      BeyondOk(c);
    }
  }

  // ---------- the working buffer ----------

  /** The number in a buffer, least significant digit first. */
  function Low(d: seq<nat>, base: nat): nat {
    if d == [] then 0 else Low(d[..|d| - 1], base) + d[|d| - 1] * Pow(base, |d| - 1)
  }

  lemma LowNext(d: seq<nat>, base: nat, i: nat)
    requires i < |d|
    ensures Low(d[..i + 1], base) == Low(d[..i], base) + d[i] * Pow(base, i)
  {
    assert d[..i + 1][..i] == d[..i];
  }

  lemma {:induction false} LowZeros(d: seq<nat>, base: nat, m: nat)
    requires m <= |d| && forall j | m <= j < |d| :: d[j] == 0
    ensures Low(d, base) == Low(d[..m], base)
  {
    if m < |d| {
      LowZeros(d[..|d| - 1], base, m);
      assert d[..|d| - 1][..m] == d[..m];
    } else {
      assert d[..m] == d;
    }
  }

  function Reversed(d: seq<nat>): (r: seq<nat>)
    ensures |r| == |d| && forall i | 0 <= i < |d| :: r[i] == d[|d| - 1 - i]
  {
    if d == [] then [] else [d[|d| - 1]] + Reversed(d[..|d| - 1])
  }

  lemma {:induction false} ValueLead(x: nat, ds: seq<nat>, base: nat)
    ensures Value([x] + ds, base) == x * Pow(base, |ds|) + Value(ds, base)
  {
    var all := [x] + ds;
    if ds == [] {
      assert all[..0] == [];
    } else {
      assert all[..|all| - 1] == [x] + ds[..|ds| - 1];
      ValueLead(x, ds[..|ds| - 1], base);
      Raise(x, Pow(base, |ds| - 1), Value(ds[..|ds| - 1], base), base);
    }
  }

  lemma Raise(x: nat, p: nat, v: nat, base: nat)
    ensures (x * p + v) * base == x * (base * p) + v * base
  {
    assert (x * p + v) * base == x * p * base + v * base;
    assert x * p * base == x * (base * p);
  }

  lemma {:induction false} LowIsReversed(d: seq<nat>, base: nat)
    ensures Value(Reversed(d), base) == Low(d, base)
  {
    if d != [] {
      LowIsReversed(d[..|d| - 1], base);
      ValueLead(d[|d| - 1], Reversed(d[..|d| - 1]), base);
    }
  }

  /** The digits of a buffer down from its highest one that is not zero are those of its number. */
  lemma SignificantDigits(d: seq<nat>, base: nat, m: nat)
    requires base > 1 && Digits(d, base) && m <= |d| && (m > 0 ==> d[m - 1] != 0)
             && forall j | m <= j < |d| :: d[j] == 0
    ensures Reversed(d[..m]) == ToDigits(Low(d, base), base)
  {
    LowZeros(d, base, m);
    LowIsReversed(d[..m], base);
    var r := Reversed(d[..m]);
    forall i: int ensures DigitsAt(r, base, i) { assert DigitsAt(d, base, m - 1 - i); }
    ToDigitsUnique(r, base);
  }

  lemma CarryStep(d: seq<nat>, x: seq<nat>, base: nat, mul: nat, c: nat, i: nat, carry: nat, digit: nat)
    requires i < |d| == |x| && base > 0 && d[i] == x[i] && digit == (carry + mul * x[i]) % base
    requires Low(d[..i], base) + carry * Pow(base, i) == mul * Low(x[..i], base) + c
    ensures Low(d[i := digit][..i + 1], base) + ((carry + mul * x[i]) / base) * Pow(base, i + 1)
            == mul * Low(x[..i + 1], base) + c
  {
    var t, n, w := d[i := digit], carry + mul * x[i], Pow(base, i);
    LowNext(t, base, i);
    LowNext(x, base, i);
    assert t[..i] == d[..i];
    CarryAlgebra(n / base, digit, base, w, n, carry, mul, x[i], Low(x[..i], base));
  }

  lemma CarryAlgebra(q: nat, r: nat, base: nat, w: nat, n: nat, carry: nat, mul: nat, x: nat, low: nat)
    requires n == q * base + r && n == carry + mul * x
    ensures r * w + q * (base * w) == carry * w + mul * (x * w)
    ensures mul * (low + x * w) == mul * low + mul * (x * w)
  {
    assert (q * base + r) * w == r * w + q * (base * w);
    assert (carry + mul * x) * w == carry * w + mul * (x * w);
  }

  /** After the last digit nothing is carried if the number fits. */
  lemma NothingLeft(low: nat, carry: nat, p: nat, total: nat, last: bool)
    requires low + carry * p == total && (if last then total < p else carry == 0)
    ensures carry == 0 && low == total
  {
    if carry > 0 { MulLe(1, carry, p); }
  }

  /** The buffer times `mul` plus `c`, digit by digit; the final assertion is the one of the code. */
  method Absorb(d: array<nat>, base: nat, mul: nat, c: nat, length: nat) returns (used: nat)
    requires base > 1 && Digits(d[..], base) && length <= d.Length && forall j | length <= j < d.Length :: d[j] == 0
    requires mul * Low(d[..], base) + c < Pow(base, d.Length)
    modifies d
    ensures Digits(d[..], base) && used <= d.Length && forall j | used <= j < d.Length :: d[j] == 0
    ensures Low(d[..], base) == mul * old(Low(d[..], base)) + c
  {
    ghost var x := d[..];
    var carry: nat, i: nat := c, 0;
    while (carry != 0 || i < length) && i != d.Length
      invariant i <= d.Length && Digits(d[..], base)
      invariant forall j | i <= j < d.Length :: d[j] == x[j]
      invariant Low(d[..i], base) + carry * Pow(base, i) == mul * Low(x[..i], base) + c
      decreases d.Length - i
    {
      carry := PutDigit(d, x, base, mul, c, i, carry);
      i := i + 1;
    }
    LowZeros(d[..], base, i);
    LowZeros(x, base, i);
    NothingLeft(Low(d[..i], base), carry, Pow(base, i), mul * Low(x, base) + c, i == d.Length);
    assert carry == 0;
    used := i;
  }

  method PutDigit(d: array<nat>, ghost x: seq<nat>, base: nat, mul: nat, ghost c: nat, i: nat,
                  was: nat) returns (carry: nat)
    requires base > 1 && i < d.Length == |x| && Digits(d[..], base) && forall j | i <= j < d.Length :: d[j] == x[j]
    requires Low(d[..i], base) + was * Pow(base, i) == mul * Low(x[..i], base) + c
    modifies d
    ensures Digits(d[..], base) && forall j | i < j < d.Length :: d[j] == x[j]
    ensures Low(d[..i + 1], base) + carry * Pow(base, i + 1) == mul * Low(x[..i + 1], base) + c
  {
    ghost var s := d[..];
    var n := was + mul * d[i];
    QuotientBounds(n, base);
    CarryStep(s, x, base, mul, c, i, was, n % base);
    d[i] := n % base;
    carry := n / base;
    assert d[..] == s[i := d[i]];
    forall j ensures DigitsAt(d[..], base, j) { assert DigitsAt(s, base, j); }
  }

  /** The number of digits above which there are only zeros. */
  method Significant(d: array<nat>, length: nat) returns (m: nat)
    requires length <= d.Length && forall j | length <= j < d.Length :: d[j] == 0
    ensures m <= d.Length && (m > 0 ==> d[m - 1] != 0) && forall j | m <= j < d.Length :: d[j] == 0
  {
    m := length;
    while m > 0 && d[m - 1] == 0
      invariant m <= length && forall j | m <= j < d.Length :: d[j] == 0
    {
      m := m - 1;
    }
  }

  method CountZeros(ds: seq<nat>) returns (z: nat)
    ensures z == LeadingZeros(ds)
  {
    z := 0;
    while z < |ds| && ds[z] == 0
      invariant z <= |ds| && LeadingZeros(ds) == z + LeadingZeros(ds[z..])
    {
      assert ds[z..][1..] == ds[z + 1..];
      z := z + 1;
    }
  }

  lemma NextFits(rest: seq<nat>, k: nat, size: nat)
    requires k < |rest| && Digits(rest, 256) && size == |rest| * 138 / 100 + 1
    ensures 256 * Value(rest[..k], 256) + rest[k] == Value(rest[..k + 1], 256) < Pow(58, size)
  {
    var upto := rest[..k + 1];
    assert upto[..k] == rest[..k];
    forall i ensures DigitsAt(upto, 256, i) { assert DigitsAt(rest, 256, i); }
    ValueBelow(upto, 256);
    PowGrows(256, k + 1, |rest|);
    EncodeFits(|rest|);
  }

  /** The digits in base 58 of a byte string without leading zeros. */
  method EncodeDigits(rest: seq<nat>) returns (ds: seq<nat>)
    requires Digits(rest, 256)
    ensures ds == ToDigits(Value(rest, 256), 58)
  {
    var size := |rest| * 138 / 100 + 1;
    var d := new nat[size](_ => 0);
    var length: nat := 0;
    LowZeros(d[..], 58, 0);
    forall j ensures DigitsAt(d[..], 58, j) { }
    for k := 0 to |rest|
      invariant fresh(d) && d.Length == size && length <= size && Digits(d[..], 58)
                && forall j | length <= j < size :: d[j] == 0
      invariant Low(d[..], 58) == Value(rest[..k], 256)
    {
      NextFits(rest, k, size);
      length := Absorb(d, 58, 256, rest[k], length);
    }
    assert rest[..|rest|] == rest;
    var m := Significant(d, length);
    SignificantDigits(d[..], 58, m);
    ds := ReadOut(d, m);
  }

  /** The buffer from a digit down to the lowest. */
  method ReadOut(d: array<nat>, m: nat) returns (ds: seq<nat>)
    requires m <= d.Length
    ensures ds == Reversed(d[..m])
  {
    ds := [];
    var i: nat := m;
    while i > 0
      invariant i <= m && |ds| == m - i && forall j | 0 <= j < m - i :: ds[j] == d[m - 1 - j]
    {
      i := i - 1;
      ds := ds + [d[i]];
    }
  }

  method EncodeBase58(a: Alphabet, bytes: seq<nat>) returns (str: string)
    requires Digits(bytes, 256)
    ensures str == a.Encoded(bytes)
  {
    var zeroes := CountZeros(bytes);
    SplitZeros(bytes, 256);
    DropDigits(bytes, 256, zeroes);
    var ds := EncodeDigits(bytes[zeroes..]);
    str := a.Spell(Zeros(zeroes) + ds);
  }

  // ---------- decoding ----------

  method SkipSpaces(s: string, from: nat) returns (p: nat)
    requires from <= |s|
    ensures from <= p <= |s| && (p < |s| ==> !IsSpace(s[p])) && Spaces(s, from, p)
  {
    p := from;
    while p < |s| && IsSpace(s[p])
      invariant from <= p <= |s| && Spaces(s, from, p)
    {
      p := p + 1;
    }
  }

  ghost predicate SpaceAt(s: string, i: int) { 0 <= i < |s| ==> IsSpace(s[i]) }
  ghost predicate OneAt(s: string, i: int) { 0 <= i < |s| ==> s[i] == '1' }

  ghost predicate ReadAt(a: Alphabet, s: string, from: nat, ds: seq<nat>, i: int) {
    0 <= i < |ds| && from + i < |s| ==> a.fromChar(s[from + i]) == Some(ds[i])
  }

  /** From here on the digits are the ones read. */
  ghost predicate Reads(a: Alphabet, s: string, from: nat, ds: seq<nat>) {
    from + |ds| <= |s| && forall i :: ReadAt(a, s, from, ds, i)
  }

  ghost predicate Spaces(s: string, from: nat, to: nat) { forall i | from <= i < to :: SpaceAt(s, i) }

  ghost predicate Ones(s: string, from: nat, to: nat) { to <= |s| && forall i | from <= i < to :: OneAt(s, i) }

  lemma {:induction false} TrimStart(s: string, p: nat)
    requires p <= |s| && (p < |s| ==> !IsSpace(s[p])) && Spaces(s, 0, p)
    ensures TrimLeft(s) == s[p..]
  {
    if p > 0 {
      assert SpaceAt(s, 0);
      var t := s[1..];
      forall i | 0 <= i < p - 1 ensures SpaceAt(t, i) { assert SpaceAt(s, i + 1); }
      TrimStart(t, p - 1);
      assert t[p - 1..] == s[p..];
    }
  }

  lemma {:induction false} TrimEnd(t: string, e: nat)
    requires e <= |t| && (e > 0 ==> !IsSpace(t[e - 1])) && Spaces(t, e, |t|)
    ensures TrimRight(t) == t[..e]
  {
    if e < |t| {
      assert SpaceAt(t, |t| - 1);
      var init := t[..|t| - 1];
      forall i | e <= i < |init| ensures SpaceAt(init, i) { assert SpaceAt(t, i); }
      TrimEnd(init, e);
      assert init[..e] == t[..e];
    } else {
      assert t[..e] == t;
    }
  }

  /** Spaces at the end are all that is cut off there. */
  lemma {:induction false} TrimKeeps(t: string, q: nat)
    requires q < |t| && !IsSpace(t[q])
    ensures q < |TrimRight(t)| && TrimRight(t) <= t
  {
    if IsSpace(t[|t| - 1]) { TrimKeeps(t[..|t| - 1], q); }
  }

  /** A character of the alphabet is not a space, and stands for zero only if it is '1'. */
  lemma CharFacts(a: Alphabet, c: char)
    requires a.Lawful()
    ensures a.fromChar(c).Some? ==> !IsSpace(c) && a.fromChar(c).value < 58 && (a.fromChar(c).value == 0 ==> c == '1')
    ensures a.fromChar('1') == Some(0)
  {
    assert a.CharAt(c) && a.DigitAt(0);
    if a.fromChar(c).Some? { assert a.DigitAt(a.fromChar(c).value); }
  }

  /** A character outside the alphabet, with something other than spaces at or after it, spoils the string. */
  lemma DecodeFails(a: Alphabet, s: string, start: nat, bad: nat, q: nat)
    requires start <= bad <= q < |s| && TrimLeft(s) == s[start..] && a.fromChar(s[bad]) == None && !IsSpace(s[q])
    ensures a.Parsed(s) == None
  {
    var t := s[start..];
    assert t[q - start] == s[q];
    TrimKeeps(t, q - start);
    BadInPrefix(a, TrimRight(t), t, bad - start);
  }

  lemma BadInPrefix(a: Alphabet, r: string, t: string, i: nat)
    requires i < |r| && r <= t && a.fromChar(t[i]) == None
    ensures !a.Readable(r)
  {
    assert r[i] == t[i];
  }

  lemma TokenTrimmed(a: Alphabet, s: string, start: nat, z: nat, ds: seq<nat>)
    requires a.Lawful() && Ones(s, start, start + z) && Reads(a, s, start + z, ds) && Spaces(s, start + z + |ds|, |s|)
    requires TrimLeft(s) == s[start..]
    ensures Trim(s) == s[start..start + z + |ds|]
  {
    TokenEnds(a, s, start + z, ds);
    if |ds| == 0 && z > 0 { assert OneAt(s, start + z - 1); }
    TrimmedTo(s, start, start + z + |ds|);
  }

  lemma SliceOfSlice<T>(s: seq<T>, start: nat, end: nat)
    requires start <= end <= |s|
    ensures s[start..][..end - start] == s[start..end]
  {
  }

  lemma TrimmedTo(s: string, start: nat, end: nat)
    requires start <= end <= |s| && TrimLeft(s) == s[start..] && (end > start ==> !IsSpace(s[end - 1]))
             && Spaces(s, end, |s|)
    ensures Trim(s) == s[start..end]
  {
    SliceOfSlice(s, start, end);
    ShiftSpaces(s, start, end);
    var t, n := s[start..], end - start;
    assert |t| == |s| - start && (n > 0 ==> t[n - 1] == s[end - 1]);
    TrimEnd(t, n);
  }

  lemma ShiftSpaces(s: string, start: nat, end: nat)
    requires start <= end <= |s| && Spaces(s, end, |s|)
    ensures Spaces(s[start..], end - start, |s| - start)
  {
    var t := s[start..];
    forall i | end - start <= i < |s| - start ensures SpaceAt(t, i) { assert SpaceAt(s, start + i); }
  }

  lemma TokenEnds(a: Alphabet, s: string, from: nat, ds: seq<nat>)
    requires a.Lawful() && Reads(a, s, from, ds)
    ensures |ds| > 0 ==> !IsSpace(s[from + |ds| - 1])
  {
    if |ds| > 0 {
      assert ReadAt(a, s, from, ds, |ds| - 1);
      CharFacts(a, s[from + |ds| - 1]);
    }
  }

  lemma TokenRead(a: Alphabet, t: string, z: nat, ds: seq<nat>)
    requires a.Lawful() && |t| == z + |ds| && Ones(t, 0, z) && Reads(a, t, z, ds) && (ds != [] ==> t[z] != '1')
    ensures a.Readable(t) && a.Read(t) == Zeros(z) + ds && (ds != [] ==> ds[0] != 0)
  {
    var all := Zeros(z) + ds;
    forall i | 0 <= i < |t| ensures a.fromChar(t[i]) == Some(all[i]) {
      CharFacts(a, t[i]);
      if i < z { assert OneAt(t, i); } else { assert ReadAt(a, t, z, ds, i - z); }
    }
    if ds != [] {
      CharFacts(a, t[z]);
      assert ReadAt(a, t, z, ds, 0);
    }
  }

  lemma DecodeParts(a: Alphabet, s: string, start: nat, z: nat, ds: seq<nat>)
    requires a.Lawful() && Ones(s, start, start + z) && Reads(a, s, start + z, ds) && Spaces(s, start + z + |ds|, |s|)
    requires TrimLeft(s) == s[start..] && (ds != [] ==> s[start + z] != '1')
    ensures a.Parsed(s) == Some(Zeros(z) + ToDigits(Value(ds, 58), 256))
  {
    TokenTrimmed(a, s, start, z, ds);
    var t := s[start..start + z + |ds|];
    forall i | 0 <= i < z ensures OneAt(t, i) { assert OneAt(s, start + i); }
    forall i ensures ReadAt(a, t, z, ds, i) { assert ReadAt(a, s, start + z, ds, i); }
    TokenRead(a, t, z, ds);
    ZerosLead(z, ds);
    ValueZeros(z, ds, 58);
  }

  lemma NextDigitFits(ds: seq<nat>, digit: nat, most: nat)
    requires Digits(ds, 58) && digit < 58 && |ds| < most
    ensures Digits(ds + [digit], 58) && 58 * Value(ds, 58) + digit
            == Value(ds + [digit], 58) < Pow(256, most * 733 / 1000 + 1)
  {
    var more := ds + [digit];
    assert more[..|ds|] == ds;
    forall i ensures DigitsAt(more, 58, i) { assert DigitsAt(ds, 58, i); }
    ValueBelow(more, 58);
    PowGrows(58, |more|, most);
    DecodeFits(most);
  }

  lemma ReadsNext(a: Alphabet, s: string, from: nat, ds: seq<nat>, digit: nat)
    requires Reads(a, s, from, ds) && from + |ds| < |s| && a.fromChar(s[from + |ds|]) == Some(digit)
    ensures Reads(a, s, from, ds + [digit])
  {
    var more := ds + [digit];
    forall i ensures ReadAt(a, s, from, more, i) { assert ReadAt(a, s, from, ds, i); }
  }

  /** Reads digits up to a space or the end, or to a character that is not one. */
  method ReadDigits(a: Alphabet, s: string, from: nat) returns (r: Option<seq<nat>>, end: nat, ghost ds: seq<nat>)
    requires a.Lawful() && from <= |s|
    ensures Reads(a, s, from, ds) && end == from + |ds|
    ensures r.None? ==> end < |s| && !IsSpace(s[end]) && a.fromChar(s[end]) == None
    ensures r.Some? ==> (end < |s| ==> IsSpace(s[end])) && r.value == ToDigits(Value(ds, 58), 256)
  {
    var size := (|s| - from) * 733 / 1000 + 1;
    var d := new nat[size](_ => 0);
    var length: nat := 0;
    end, ds := from, [];
    LowZeros(d[..], 256, 0);
    forall j ensures DigitsAt(d[..], 256, j) { }
    while end < |s| && !IsSpace(s[end])
      invariant fresh(d) && d.Length == size && length <= size && Digits(d[..], 256)
                && forall j | length <= j < size :: d[j] == 0
      invariant Reads(a, s, from, ds) && end == from + |ds| && Digits(ds, 58) && Low(d[..], 256) == Value(ds, 58)
    {
      var carry := a.fromChar(s[end]);
      if carry.None? { r := None; return; }
      CharFacts(a, s[end]);
      ReadsNext(a, s, from, ds, carry.value);
      NextDigitFits(ds, carry.value, |s| - from);
      length := Absorb(d, 256, 58, carry.value, length);
      ds := ds + [carry.value];
      end := end + 1;
    }
    var m := Significant(d, length);
    SignificantDigits(d[..], 256, m);
    var bytes := ReadOut(d, m);
    r := Some(bytes);
  }

  method CountOnes(s: string, from: nat) returns (z: nat)
    requires from <= |s|
    ensures Ones(s, from, from + z) && (from + z < |s| ==> s[from + z] != '1')
  {
    z := 0;
    while from + z < |s| && s[from + z] == '1'
      invariant Ones(s, from, from + z)
    {
      z := z + 1;
    }
  }

  /** The characters of a C string, without the NUL that ends it. */
  method DecodeChars(a: Alphabet, s: string) returns (r: Option<seq<nat>>)
    requires a.Lawful()
    ensures r == a.Parsed(s)
  {
    var start := SkipSpaces(s, 0);
    TrimStart(s, start);
    var zeroes := CountOnes(s, start);
    var bytes, end, ds := ReadDigits(a, s, start + zeroes);
    if bytes.None? {
      DecodeFails(a, s, start, end, end);
      return None;
    }
    var p := SkipSpaces(s, end);
    if p < |s| {
      CharFacts(a, s[end]);
      DecodeFails(a, s, start, end, p);
      return None;
    }
    DecodeParts(a, s, start, zeroes, ds);
    return Some(Zeros(zeroes) + bytes.value);
  }

  /** Any string, read as a C string. */
  method DecodeBase58(a: Alphabet, s: string) returns (r: Option<seq<nat>>)
    requires a.Lawful()
    ensures r == a.Decoded(s)
  {
    var n := 0;
    while n < |s| && s[n] != NUL
      invariant n <= |s| && forall i | 0 <= i < n :: s[i] != NUL
    {
      n := n + 1;
    }
    CStringPrefix(s, n);
    r := DecodeChars(a, s[..n]);
  }

  // ---------- with a checksum ----------

  /** The payload and the first four bytes of its hash. */
  function Checked(hash: seq<nat> -> seq<nat>, payload: seq<nat>): seq<nat> {
    payload + hash(payload)
  }

  lemma CheckedDigits(hash: seq<nat> -> seq<nat>, payload: seq<nat>)
    requires Digits(payload, 256) && Digits(hash(payload), 256)
    ensures Digits(Checked(hash, payload), 256)
  {
    var all := Checked(hash, payload);
    forall i: int ensures DigitsAt(all, 256, i) {
      assert DigitsAt(payload, 256, i) && DigitsAt(hash(payload), 256, i - |payload|);
    }
  }

  lemma CheckedSplit(hash: seq<nat> -> seq<nat>, v: seq<nat>)
    requires |hash(v)| == 4
    ensures var all := Checked(hash, v); |all| >= 4 && all[..|all| - 4] == v && all[|all| - 4..] == hash(v)
  {
  }

  method EncodeBase58Check(a: Alphabet, hash: seq<nat> -> seq<nat>, payload: seq<nat>) returns (str: string)
    requires Digits(payload, 256) && |hash(payload)| == 4 && Digits(hash(payload), 256)
    ensures str == a.Encoded(Checked(hash, payload))
  {
    CheckedDigits(hash, payload);
    str := EncodeBase58(a, Checked(hash, payload));
  }

  /** Accepts a string exactly when it is the encoding of some payload with its checksum. */
  method DecodeBase58Check(a: Alphabet, hash: seq<nat> -> seq<nat>, s: string) returns (r: Option<seq<nat>>)
    requires a.Lawful() && forall v :: |hash(v)| == 4
    ensures match a.Decoded(s)
            case None => r == None
            case Some(all) =>
              (r.Some? ==> all == Checked(hash, r.value)) && (r.None? ==> forall v :: all != Checked(hash, v))
  {
    var all := DecodeBase58(a, s);
    if all.None? { return None; }
    forall v ensures all.value == Checked(hash, v) ==>
        |all.value| >= 4 && all.value[..|all.value| - 4] == v && all.value[|all.value| - 4..] == hash(v) {
      CheckedSplit(hash, v);
    }
    if |all.value| < 4 { return None; }
    var n := |all.value| - 4;
    if hash(all.value[..n]) != all.value[n..] { return None; }
    assert all.value == all.value[..n] + all.value[n..];
    return Some(all.value[..n]);
  }
}
