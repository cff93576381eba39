/**
 The Bech32 polynomial on 32-bit words, the register it drives, and the loops of the
 encoder and decoder over it.
 */
module PolyMod {
  import opened LinearCode
  import opened Bech32
  import opened Wrappers

  // ---------- words under exclusive or ----------

  function Xor(a: bv32, b: bv32): bv32 { a ^ b }

  lemma XorCommutes(a: bv32, b: bv32)
    ensures Xor(a, b) == Xor(b, a)
  {
  }

  lemma XorAssociates(a: bv32, b: bv32, c: bv32)
    ensures Xor(Xor(a, b), c) == Xor(a, Xor(b, c))
  {
  }

  lemma XorSwaps(p: bv32, q: bv32, r: bv32, s: bv32)
    ensures Xor(Xor(p, q), Xor(r, s)) == Xor(Xor(p, r), Xor(q, s))
  {
    XorAssociates(p, q, Xor(r, s));
    XorAssociates(q, r, s);
    XorCommutes(q, r);
    XorAssociates(r, q, s);
    XorAssociates(p, r, Xor(q, s));
  }

  lemma XorCancels(a: bv32, b: bv32)
    ensures Xor(a, a) == 0 && Xor(a, 0) == a && Xor(0, a) == a && Xor(a, Xor(a, b)) == b
    ensures Xor(a, b) == 0 <==> a == b
  {
  }

  // ---------- one step of the division ----------

  function Low(c: bv32): bv32 { (c & 0x1ffffff) << 5 }

  function Tap0(c: bv32): bv32 { if c & 0x2000000 != 0 then 0x3b6a57b2 else 0 }
  function Tap1(c: bv32): bv32 { if c & 0x4000000 != 0 then 0x26508e6d else 0 }
  function Tap2(c: bv32): bv32 { if c & 0x8000000 != 0 then 0x1ea119fa else 0 }
  function Tap3(c: bv32): bv32 { if c & 0x10000000 != 0 then 0x3d4233dd else 0 }
  function Tap4(c: bv32): bv32 { if c & 0x20000000 != 0 then 0x2a1462b3 else 0 }

  /** One more symbol: shift the remainder, and reduce what falls out at the top. */
  function Step(c: bv32, v: bv32): bv32 {
    Xor(Xor(Xor(Xor(Xor(Xor(Low(c), v), Tap0(c)), Tap1(c)), Tap2(c)), Tap3(c)), Tap4(c))
  }

  lemma LowLinear(a: bv32, b: bv32)
    ensures Low(Xor(a, b)) == Xor(Low(a), Low(b))
  {
  }

  lemma Tap0Linear(a: bv32, b: bv32)
    ensures Tap0(Xor(a, b)) == Xor(Tap0(a), Tap0(b))
  {
    if a & 0x2000000 != 0 { if b & 0x2000000 != 0 { } else { } } else { if b & 0x2000000 != 0 { } else { } }
  }

  lemma Tap1Linear(a: bv32, b: bv32)
    ensures Tap1(Xor(a, b)) == Xor(Tap1(a), Tap1(b))
  {
    if a & 0x4000000 != 0 { if b & 0x4000000 != 0 { } else { } } else { if b & 0x4000000 != 0 { } else { } }
  }

  lemma Tap2Linear(a: bv32, b: bv32)
    ensures Tap2(Xor(a, b)) == Xor(Tap2(a), Tap2(b))
  {
    if a & 0x8000000 != 0 { if b & 0x8000000 != 0 { } else { } } else { if b & 0x8000000 != 0 { } else { } }
  }

  lemma Tap3Linear(a: bv32, b: bv32)
    ensures Tap3(Xor(a, b)) == Xor(Tap3(a), Tap3(b))
  {
    if a & 0x10000000 != 0 { if b & 0x10000000 != 0 { } else { } } else { if b & 0x10000000 != 0 { } else { } }
  }

  lemma Tap4Linear(a: bv32, b: bv32)
    ensures Tap4(Xor(a, b)) == Xor(Tap4(a), Tap4(b))
  {
    if a & 0x20000000 != 0 { if b & 0x20000000 != 0 { } else { } } else { if b & 0x20000000 != 0 { } else { } }
  }

  /** A sum of two sums regroups, tap by tap. */
  lemma SumLinear(a: bv32, b: bv32, x: bv32, y: bv32)
    requires Low(Xor(a, b)) == Xor(Low(a), Low(b))
    requires Tap0(Xor(a, b)) == Xor(Tap0(a), Tap0(b)) && Tap1(Xor(a, b)) == Xor(Tap1(a), Tap1(b))
    requires Tap2(Xor(a, b)) == Xor(Tap2(a), Tap2(b)) && Tap3(Xor(a, b)) == Xor(Tap3(a), Tap3(b))
    requires Tap4(Xor(a, b)) == Xor(Tap4(a), Tap4(b))
    ensures Step(Xor(a, b), Xor(x, y)) == Xor(Step(a, x), Step(b, y))
  {
    XorSwaps(Low(a), Low(b), x, y);
    var c, d := Xor(Low(a), x), Xor(Low(b), y);
    XorSwaps(c, d, Tap0(a), Tap0(b));
    c, d := Xor(c, Tap0(a)), Xor(d, Tap0(b));
    XorSwaps(c, d, Tap1(a), Tap1(b));
    c, d := Xor(c, Tap1(a)), Xor(d, Tap1(b));
    XorSwaps(c, d, Tap2(a), Tap2(b));
    c, d := Xor(c, Tap2(a)), Xor(d, Tap2(b));
    XorSwaps(c, d, Tap3(a), Tap3(b));
    c, d := Xor(c, Tap3(a)), Xor(d, Tap3(b));
    XorSwaps(c, d, Tap4(a), Tap4(b));
  }

  /** The step is linear over exclusive or. */
  lemma StepLinear(a: bv32, b: bv32, x: bv32, y: bv32)
    ensures Step(Xor(a, b), Xor(x, y)) == Xor(Step(a, x), Step(b, y))
  {
    LowLinear(a, b);
    Tap0Linear(a, b);
    Tap1Linear(a, b);
    Tap2Linear(a, b);
    Tap3Linear(a, b);
    Tap4Linear(a, b);
    SumLinear(a, b, x, y);
  }

  /** Remainders have 30 bits. */
  lemma StepSmall(c: bv32, v: bv32)
    requires v < 32
    ensures Step(c, v) < 0x40000000
  {
  }

  /** On 30-bit remainders, a zero symbol loses nothing. */
  lemma StepInjective(c: bv32)
    requires c < 0x40000000 && Step(c, 0) == 0
    ensures c == 0
  {
  }

  /** With the top five bits clear, the step only shifts the symbol in. */
  lemma StepShifts(c: bv32, v: bv32)
    requires c < 0x2000000
    ensures Step(c, v) == Xor(c << 5, v)
  {
    assert Low(c) == c << 5;
    assert Tap0(c) == 0 && Tap1(c) == 0 && Tap2(c) == 0 && Tap3(c) == 0 && Tap4(c) == 0;
    XorCancels(Xor(c << 5, v), 0);
  }

  lemma SmallXor(a: bv32, b: bv32)
    ensures a < 0x40000000 && b < 0x40000000 ==> Xor(a, b) < 0x40000000
    ensures a < 32 && b < 32 ==> Xor(a, b) < 32
  {
  }

  function Bound(n: nat): bv32 {
    if n == 0 then 1 else if n == 1 then 0x20 else if n == 2 then 0x400 else if n == 3 then 0x8000
    else if n == 4 then 0x100000 else if n == 5 then 0x2000000 else 0x40000000
  }

  lemma ShiftBounds(x: bv32, v: bv32, n: nat)
    requires n < 6 && x < Bound(n) && v < 32
    ensures x < 0x2000000
    ensures Xor(x << 5, v) < Bound(n + 1)
    ensures Xor(x << 5, v) == 0 ==> x == 0 && v == 0
  {
  }

  lemma StepPacks(x: bv32, v: bv32, n: nat)
    requires n < 6 && x < Bound(n) && v < 32
    ensures Step(x, v) == Xor(x << 5, v) && Step(x, v) < Bound(n + 1)
    ensures Step(x, v) == 0 ==> x == 0 && v == 0
  {
    ShiftBounds(x, v, n);
    StepShifts(x, v);
  }

  /** The words that the symbols of a group packing go through. */
  lemma PackSteps(m: bv32)
    requires m < 0x40000000
    ensures Xor((m >> 5) << 5, m & 31) == m && m >> 5 < 0x2000000
  {
  }

  lemma Peel(m: bv32)
    requires m < 0x40000000
    ensures Step(m >> 5, m & 31) == m
  {
    PackSteps(m);
    StepShifts(m >> 5, m & 31);
  }

  // ---------- characters ----------

  /** The character table for encoding. */
  function ToChar(v: Symbol): char {
    match v
    case 0 => 'q' case 1 => 'p' case 2 => 'z' case 3 => 'r' case 4 => 'y' case 5 => '9' case 6 => 'x' case 7 => '8'
    case 8 => 'g' case 9 => 'f' case 10 => '2' case 11 => 't' case 12 => 'v' case 13 => 'd' case 14 => 'w'
        case 15 => '0'
    case 16 => 's' case 17 => '3' case 18 => 'j' case 19 => 'n' case 20 => '5' case 21 => '4' case 22 => 'k'
        case 23 => 'h'
    case 24 => 'c' case 25 => 'e' case 26 => '6' case 27 => 'm' case 28 => 'u' case 29 => 'a' case 30 => '7'
        case _ => 'l'
  }

  /** The character table for decoding. */
  function FromChar(c: char): Option<Symbol> {
    match c
    case '0' => Some(15) case '2' => Some(10) case '3' => Some(17) case '4' => Some(21) case '5' => Some(20)
        case '6' => Some(26)
    case '7' => Some(30) case '8' => Some(7) case '9' => Some(5) case 'A' => Some(29) case 'C' => Some(24)
        case 'D' => Some(13)
    case 'E' => Some(25) case 'F' => Some(9) case 'G' => Some(8) case 'H' => Some(23) case 'J' => Some(18)
        case 'K' => Some(22)
    case 'L' => Some(31) case 'M' => Some(27) case 'N' => Some(19) case 'P' => Some(1) case 'Q' => Some(0)
        case 'R' => Some(3)
    case 'S' => Some(16) case 'T' => Some(11) case 'U' => Some(28) case 'V' => Some(12) case 'W' => Some(14)
        case 'X' => Some(6)
    case 'Y' => Some(4) case 'Z' => Some(2) case 'a' => Some(29) case 'c' => Some(24) case 'd' => Some(13)
        case 'e' => Some(25)
    case 'f' => Some(9) case 'g' => Some(8) case 'h' => Some(23) case 'j' => Some(18) case 'k' => Some(22)
        case 'l' => Some(31)
    case 'm' => Some(27) case 'n' => Some(19) case 'p' => Some(1) case 'q' => Some(0) case 'r' => Some(3)
        case 's' => Some(16)
    case 't' => Some(11) case 'u' => Some(28) case 'v' => Some(12) case 'w' => Some(14) case 'x' => Some(6)
        case 'y' => Some(4)
    case 'z' => Some(2) case _ => None
  }

  predicate SymbolOk(v: Symbol) {
    FromChar(ToChar(v)) == Some(v) && ToChar(v) != '1' && !IsUpper(ToChar(v)) && Printable(ToChar(v))
  }

  lemma FirstSymbolsOk(v: Symbol)
    ensures v < 11 ==> SymbolOk(v)
  {
  }

  lemma MiddleSymbolsOk(v: Symbol)
    ensures 11 <= v < 22 ==> SymbolOk(v)
  {
  }

  lemma LastSymbolsOk(v: Symbol)
    ensures 22 <= v ==> SymbolOk(v)
  {
  }

  /** The two tables agree on a symbol. */
  lemma CharOfSymbol(v: Symbol)
    ensures SymbolOk(v)
  {
    FirstSymbolsOk(v);
    MiddleSymbolsOk(v);
    LastSymbolsOk(v);
  }

  predicate CharOk(c: char) {
    FromChar(c).Some? ==> ToChar(FromChar(c).value) == LowerCase(c)
  }

  lemma DigitOk(c: char)
    ensures c < 'A' ==> CharOk(c)
  {
  }

  lemma UpperOk(c: char)
    ensures 'A' <= c < 'a' ==> CharOk(c)
  {
  }

  lemma LowerOk(c: char)
    ensures 'a' <= c ==> CharOk(c)
  {
  }

  lemma UpperLikeLower(c: char)
    ensures c < 'M' ==> FromChar(LowerCase(c)) == FromChar(c)
  {
  }

  lemma UpperLikeLowerToo(c: char)
    ensures 'M' <= c ==> FromChar(LowerCase(c)) == FromChar(c)
  {
  }

  /** The two tables agree on a character, in either case. */
  lemma SymbolOfChar(c: char)
    ensures CharOk(c) && FromChar(LowerCase(c)) == FromChar(c)
  {
    DigitOk(c);
    UpperOk(c);
    LowerOk(c);
    UpperLikeLower(c);
    UpperLikeLowerToo(c);
  }

  // ---------- the register ----------

  predicate Fits(n: nat, c: bv32) { c < Bound(n) }

  const REGISTER: Register<bv32> := Register(0, 1, Xor, Step, Fits)

  function Word(v: Symbol): bv32 { (v as bv5) as bv32 }

  function Group(m: bv32): Symbol { ((m & 31) as bv5) as nat }

  function Shift(m: bv32): bv32 { m >> 5 }

  const CODE: Code<bv32> := Code(REGISTER, Word, Group, Shift, ToChar, FromChar)

  lemma GroupLaw(a: bv32, b: bv32)
    ensures REGISTER.GroupAt(a, b)
  {
    XorCancels(a, b);
  }

  lemma LinearLaw(a: bv32, b: bv32, x: bv32, y: bv32)
    ensures REGISTER.LinearAt(a, b, x, y)
  {
    StepLinear(a, b, x, y);
  }

  lemma FillsLaw(n: nat, c: bv32, v: bv32)
    ensures REGISTER.FillsAt(n, c, v)
  {
    if n < 6 && Fits(n, c) && Fits(1, v) {
      StepFits(n, c, v);
    }
  }

  lemma StepFits(n: nat, c: bv32, v: bv32)
    requires n < 6 && Fits(n, c) && Fits(1, v)
    ensures Fits(n + 1, Step(c, v)) && (Step(c, v) == 0 ==> c == 0 && v == 0)
  {
    StepPacks(c, v, n);
  }

  lemma FullLaw(c: bv32, v: bv32)
    ensures REGISTER.FullAt(c, v)
  {
    if v < 32 { StepSmall(c, v); }
    if c < 0x40000000 && Step(c, 0) == 0 { StepInjective(c); }
    SmallXor(c, v);
  }

  lemma ClosedLaw(v: bv32, w: bv32)
    ensures REGISTER.ClosedAt(v, w)
  {
    SmallXor(v, w);
  }

  lemma RegisterLawful()
    ensures REGISTER.Lawful()
  {
    forall a, b ensures REGISTER.GroupAt(a, b) { GroupLaw(a, b); }
    forall a, b, x, y ensures REGISTER.LinearAt(a, b, x, y) { LinearLaw(a, b, x, y); }
    forall n, c, v ensures REGISTER.FillsAt(n, c, v) { FillsLaw(n, c, v); }
    forall c, v ensures REGISTER.FullAt(c, v) { FullLaw(c, v); }
    forall v, w ensures REGISTER.ClosedAt(v, w) { ClosedLaw(v, w); }
  }

  lemma WordReadBack(v: Symbol)
    ensures Word(v) < 32 && (Word(v) as bv5) as nat == v
  {
  }

  lemma WordLaw(u: Symbol, v: Symbol)
    ensures CODE.WordAt(u, v)
  {
    WordReadBack(u);
    WordReadBack(v);
  }

  lemma GroupWord(m: bv32)
    ensures Word(Group(m)) == m & 31
  {
  }

  lemma ShiftFits(n: nat, m: bv32)
    requires 0 < n <= 6 && m < Bound(n)
    ensures m < 0x40000000 && m >> 5 < Bound(n - 1)
  {
  }

  lemma PeelLaw(n: nat, m: bv32)
    ensures CODE.PeelAt(n, m)
  {
    if 0 < n <= 6 && m < Bound(n) {
      ShiftFits(n, m);
      GroupWord(m);
      Peel(m);
    }
  }

  /** The repository's polynomial is a lawful code, so everything proved of those holds of it. */
  lemma CodeLawful()
    ensures CODE.Lawful()
  {
    RegisterLawful();
    WordReadBack(0);
    forall u, v ensures CODE.WordAt(u, v) { WordLaw(u, v); }
    forall n, m ensures CODE.PeelAt(n, m) { PeelLaw(n, m); }
    forall v ensures CODE.ToCharAt(v) { CharOfSymbol(v); }
    forall c ensures CODE.FromCharAt(c) { SymbolOfChar(c); }
  }

  /** What Bech32 promises, for the repository's own polynomial and tables. */
  lemma Bech32IsExact(s: string, hrp: string, values: seq<Symbol>)
    ensures Decoded(CODE, s) == Some((hrp, values)) <==> Encodes(CODE, s, hrp, values)
  {
    CodeLawful();
    DecodeExact(CODE, s, hrp, values);
  }

  lemma Bech32RoundTrip(hrp: string, values: seq<Symbol>)
    requires ValidHrp(hrp) && |hrp| + 7 + |values| <= 90
    ensures Decoded(CODE, Encoded(CODE, hrp, values)) == Some((hrp, values))
  {
    CodeLawful();
    RoundTrip(CODE, hrp, values);
  }

  lemma Bech32DetectsBursts(hrp: string, xs: seq<Symbol>, ys: seq<Symbol>, k: nat)
    requires |xs| == |ys| && xs != ys && forall i | 0 <= i < |xs| && !(k <= i < k + 6) :: xs[i] == ys[i]
    ensures !Verified(CODE, hrp, xs) || !Verified(CODE, hrp, ys)
  {
    CodeLawful();
    if Verified(CODE, hrp, xs) && Verified(CODE, hrp, ys) { AtMostOneVerifies(CODE, hrp, xs, ys, k); }
  }

  // ---------- the loops ----------

  lemma TopBitsOf(c: bv32)
    ensures (c >> 25) & 1 != 0 <==> c & 0x2000000 != 0
    ensures (c >> 25) & 2 != 0 <==> c & 0x4000000 != 0
    ensures (c >> 25) & 4 != 0 <==> c & 0x8000000 != 0
    ensures (c >> 25) & 8 != 0 <==> c & 0x10000000 != 0
    ensures (c >> 25) & 16 != 0 <==> c & 0x20000000 != 0
  {
  }

  lemma SkippedTap(c: bv32)
    ensures Xor(c, 0) == c
  {
  }

  /** One round of the division. */
  method Advance(was: bv32, v: bv32) returns (c: bv32)
    ensures c == Step(was, v)
  {
    var c0 := was >> 25;
    TopBitsOf(was);
    c := Xor((was & 0x1ffffff) << 5, v);
    SkippedTap(c);
    if c0 & 1 != 0 { c := Xor(c, 0x3b6a57b2); }
    SkippedTap(c);
    if c0 & 2 != 0 { c := Xor(c, 0x26508e6d); }
    SkippedTap(c);
    if c0 & 4 != 0 { c := Xor(c, 0x1ea119fa); }
    SkippedTap(c);
    if c0 & 8 != 0 { c := Xor(c, 0x3d4233dd); }
    SkippedTap(c);
    if c0 & 16 != 0 { c := Xor(c, 0x2a1462b3); }
  }

  method Compute(v: seq<Symbol>) returns (c: bv32)
    ensures c == CODE.Remainder(v)
  {
    c := 1;
    assert v[..0] == [];
    for i := 0 to |v|
      invariant c == CODE.Remainder(v[..i])
    {
      RemainderNext(CODE, v, i);
      c := Advance(c, Word(v[i]));
    }
    assert v[..|v|] == v;
  }

  method ExpandHRP(hrp: string) returns (ret: seq<Symbol>)
    ensures ret == Expanded(hrp)
  {
    var a := new Symbol[2 * |hrp| + 1](_ => 0);
    for i := 0 to |hrp|
      invariant forall j | 0 <= j < i :: a[j] == TopBits(hrp[j]) && a[|hrp| + 1 + j] == LowBits(hrp[j])
    {
      a[i] := TopBits(hrp[i]);
      a[i + |hrp| + 1] := LowBits(hrp[i]);
    }
    a[|hrp|] := 0;
    ret := a[..];
    ExpandedAlike(hrp, ret);
  }

  lemma ExpandedAlike(hrp: string, ret: seq<Symbol>)
    requires |ret| == 2 * |hrp| + 1 && ret[|hrp|] == 0
    requires forall j | 0 <= j < |hrp| :: ret[j] == TopBits(hrp[j]) && ret[|hrp| + 1 + j] == LowBits(hrp[j])
    ensures ret == Expanded(hrp)
  {
    forall k | 0 <= k < |ret| ensures ret[k] == Expanded(hrp)[k] {
      if k > |hrp| {
        var j := k - |hrp| - 1;
        assert ret[|hrp| + 1 + j] == LowBits(hrp[j]) == Expanded(hrp)[|hrp| + 1 + j];
      }
    }
  }

  method VerifyChecksum(hrp: string, values: seq<Symbol>) returns (ok: bool)
    ensures ok == Verified(CODE, hrp, values)
  {
    var enc := ExpandHRP(hrp);
    var mod := Compute(enc + values);
    ok := mod == 1;
  }

  lemma ShiftChain(m: bv32)
    ensures Shift(m) == m >> 5 && Shift(m >> 5) == m >> 10 && Shift(m >> 10) == m >> 15
    ensures Shift(m >> 15) == m >> 20 && Shift(m >> 20) == m >> 25
  {
  }

  lemma UnpackOne<W(!new)>(code: Code<W>, n: nat, m: W, next: W)
    requires n > 0 && code.shift(m) == next
    ensures code.Unpacked(n, m) == code.Unpacked(n - 1, next) + [code.group(m)]
  {
  }

  /** The 5-bit groups of a word, from the top. */
  method Unpack(mod: bv32) returns (ret: seq<Symbol>)
    ensures ret == CODE.Unpacked(6, mod)
  {
    ret := [Group(mod >> 25), Group(mod >> 20), Group(mod >> 15), Group(mod >> 10), Group(mod >> 5), Group(mod)];
    ShiftChain(mod);
    UnpackOne(CODE, 6, mod, mod >> 5);
    UnpackOne(CODE, 5, mod >> 5, mod >> 10);
    UnpackOne(CODE, 4, mod >> 10, mod >> 15);
    UnpackOne(CODE, 3, mod >> 15, mod >> 20);
    UnpackOne(CODE, 2, mod >> 20, mod >> 25);
    UnpackOne(CODE, 1, mod >> 25, Shift(mod >> 25));
  }

  method CreateChecksum(hrp: string, values: seq<Symbol>) returns (ret: seq<Symbol>)
    ensures ret == Checksum(CODE, hrp, values)
  {
    var enc := ExpandHRP(hrp);
    var mod := Compute(enc + values + ZEROS);
    ret := Unpack(Xor(mod, 1));
  }

  method Encode(hrp: string, values: seq<Symbol>) returns (ret: string)
    ensures ret == Encoded(CODE, hrp, values)
  {
    var checksum := CreateChecksum(hrp, values);
    var combined := values + checksum;
    ret := hrp + "1";
    for i := 0 to |combined|
      invariant ret == Joined(hrp, Chars(CODE, combined[..i]))
    {
      CharsNext(CODE, hrp, combined, i);
      ret := ret + [ToChar(combined[i])];
    }
    assert combined[..|combined|] == combined;
  }

  /** Reads the cases and the printability of a string in one pass. */
  method Scan(str: string) returns (ok: bool)
    ensures ok == (AllPrintable(str) && !MixedCase(str))
  {
    var lower, upper := false, false;
    for i := 0 to |str|
      invariant AllPrintable(str[..i])
      invariant lower <==> exists j :: 0 <= j < i && IsLower(str[j])
      invariant upper <==> exists j :: 0 <= j < i && IsUpper(str[j])
    {
      var c := str[i];
      if 'a' <= c <= 'z' { lower := true; }
      else if 'A' <= c <= 'Z' { upper := true; }
      else if c as int < 33 || c as int > 126 { return false; }
    }
    ok := !(lower && upper);
  }

  /** The last separator, from the end. */
  method FindLastOne(str: string) returns (pos: int)
    ensures pos == LastOne(str)
  {
    pos := |str| - 1;
    while pos >= 0 && str[pos] != '1'
      invariant -1 <= pos < |str| && LastOne(str[..pos + 1]) == LastOne(str)
    {
      assert str[..pos + 1][..pos] == str[..pos];
      pos := pos - 1;
    }
  }

  method Read(data: string) returns (r: Option<seq<Symbol>>)
    ensures r == if AllSymbols(CODE, data) then Some(SymbolsOf(CODE, data)) else None
  {
    var values: seq<Symbol> := [];
    for i := 0 to |data|
      invariant |values| == i && forall j | 0 <= j < i :: CODE.fromChar(data[j]) == Some(values[j])
    {
      match FromChar(data[i])
      case None => return None;
      case Some(rev) => values := values + [rev];
    }
    assert AllSymbols(CODE, data) && values == SymbolsOf(CODE, data);
    r := Some(values);
  }

  /** All of decoding but the checksum. */
  method Parse(str: string) returns (r: Option<(string, seq<Symbol>)>)
    ensures r == Parsed(CODE, str)
  {
    var ok := Scan(str);
    if !ok { return None; }
    var pos := FindLastOne(str);
    if |str| > 90 || pos == -1 || pos == 0 || pos + 7 > |str| { return None; }
    var read := Read(str[pos + 1..]);
    if read.None? { return None; }
    var hrp := "";
    for i := 0 to pos
      invariant hrp == Lower(str[..i])
    {
      LowerNext(str, i);
      hrp := hrp + [LowerCase(str[i])];
    }
    return Some((hrp, read.value));
  }

  method Decode(str: string) returns (r: Option<(string, seq<Symbol>)>)
    ensures r == Decoded(CODE, str)
  {
    var parsed := Parse(str);
    if parsed.None? { return None; }
    var (hrp, values) := parsed.value;
    var verified := VerifyChecksum(hrp, values);
    if !verified { return None; }
    return Some((hrp, values[..|values| - 6]));
  }
}
