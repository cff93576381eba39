/**
 Bech32: a string is a human-readable part, the separator '1', and 5-bit symbols of which
 the last six are a checksum, the remainder of a polynomial division over GF(32). What
 strings mean is stated for every linear code; the repository's 30-bit code, kept in
 32-bit words, is shown to be one.
 */
module Bech32 {
  import opened LinearCode
  import opened Wrappers

  type Symbol = x: nat | x < 32

  // ---------- codes ----------

  /**
   A register with symbols as words; `group` is the last symbol fed to an empty register, `shift`
   what was there before it.
   */
  datatype Code<!W(!new)> = Code(register: Register<W>, word: Symbol -> W, group: W -> Symbol, shift: W -> W,
                                 toChar: Symbol -> char, fromChar: char -> Option<Symbol>)
  {
    function Words(vs: seq<Symbol>): (ws: seq<W>)
      ensures |ws| == |vs| && forall i | 0 <= i < |vs| :: ws[i] == word(vs[i])
    {
      seq(|vs|, i requires 0 <= i < |vs| => word(vs[i]))
    }

    /** The remainder of a list of symbols with an implicit 1 in front. */
    function Remainder(vs: seq<Symbol>): W {
      register.Fold(register.one, Words(vs))
    }

    ghost predicate WordAt(u: Symbol, v: Symbol) {
      register.fits(1, word(v)) && (word(u) == word(v) ==> u == v)
    }

    /** The n symbols that an empty register was fed. */
    function Unpacked(n: nat, m: W): (r: seq<Symbol>)
      ensures |r| == n
    {
      if n == 0 then [] else Unpacked(n - 1, shift(m)) + [group(m)]
    }

    ghost predicate PeelAt(n: nat, m: W) {
      if n == 0 then register.fits(0, m) ==> m == register.zero
      else n <= 6 && register.fits(n, m) ==>
        register.fits(n - 1, shift(m)) && register.step(shift(m), word(group(m))) == m
    }

    // The character tables undo each other; a capital stands for what its small letter stands for.
    ghost predicate ToCharAt(v: Symbol) {
      fromChar(toChar(v)) == Some(v) && toChar(v) != '1' && !IsUpper(toChar(v)) && Printable(toChar(v))
    }

    ghost predicate FromCharAt(c: char) {
      (fromChar(c).Some? ==> toChar(fromChar(c).value) == LowerCase(c)) && fromChar(LowerCase(c)) == fromChar(c)
    }

    ghost predicate Spells() {
      (forall v :: ToCharAt(v)) && (forall c :: FromCharAt(c))
    }

    ghost predicate Lawful() {
      && register.Lawful() && word(0) == register.zero
      && (forall u, v :: WordAt(u, v))
      && (forall n, m :: PeelAt(n, m))
      && Spells()
    }
  }

  lemma WordsAreSymbols<W(!new)>(code: Code<W>, vs: seq<Symbol>)
    requires code.Lawful()
    ensures code.register.Symbols(code.Words(vs))
  {
    var ws := code.Words(vs);
    forall i ensures code.register.SymbolAt(ws, i) { if 0 <= i < |vs| { assert code.WordAt(vs[i], vs[i]); } }
  }

  lemma WordsInjective<W(!new)>(code: Code<W>, xs: seq<Symbol>, ys: seq<Symbol>)
    requires code.Lawful() && code.Words(xs) == code.Words(ys)
    ensures xs == ys
  {
    assert |xs| == |code.Words(xs)| == |ys|;
    forall i | 0 <= i < |xs| ensures xs[i] == ys[i] {
      assert code.Words(xs)[i] == code.Words(ys)[i] && code.WordAt(xs[i], ys[i]);
    }
  }

  lemma WordsCat<W(!new)>(code: Code<W>, xs: seq<Symbol>, ys: seq<Symbol>)
    ensures code.Words(xs + ys) == code.Words(xs) + code.Words(ys)
  {
  }

  lemma RemainderNext<W(!new)>(code: Code<W>, vs: seq<Symbol>, i: nat)
    requires i < |vs|
    ensures code.Remainder(vs[..i + 1]) == code.register.step(code.Remainder(vs[..i]), code.word(vs[i]))
  {
    var ws := code.Words(vs[..i + 1]);
    assert ws[..i] == code.Words(vs[..i]);
  }

  /** Feeding the symbols of a word one by one gives the word. */
  lemma {:induction false} Refilled<W(!new)>(code: Code<W>, n: nat, m: W)
    requires code.Lawful() && n <= 6 && code.register.fits(n, m)
    ensures code.register.Fold(code.register.zero, code.Words(code.Unpacked(n, m))) == m
  {
    assert code.PeelAt(n, m);
    if n > 0 {
      Refilled(code, n - 1, code.shift(m));
      var ws := code.Words(code.Unpacked(n, m));
      assert ws[..n - 1] == code.Words(code.Unpacked(n - 1, code.shift(m)));
    }
  }

  // ---------- checksums ----------

  const ZEROS: seq<Symbol> := [0, 0, 0, 0, 0, 0]

  /** The top three bits of every byte, a zero, the low five bits of every byte. */
  function Expanded(hrp: string): (r: seq<Symbol>)
    ensures |r| == 2 * |hrp| + 1
    ensures forall i | 0 <= i < |hrp| :: r[i] == TopBits(hrp[i]) && r[|hrp| + 1 + i] == LowBits(hrp[i])
    ensures r[|hrp|] == 0
  {
    seq(|hrp|, i requires 0 <= i < |hrp| => TopBits(hrp[i])) + [0] + seq(|hrp|,
        i requires 0 <= i < |hrp| => LowBits(hrp[i]))
  }

  function TopBits(c: char): Symbol { (c as int / 32) % 8 }
  function LowBits(c: char): Symbol { c as int % 32 }

  predicate Verified<W(==, !new)>(code: Code<W>, hrp: string, values: seq<Symbol>) {
    code.Remainder(Expanded(hrp) + values) == code.register.one
  }

  function Checksum<W(!new)>(code: Code<W>, hrp: string, values: seq<Symbol>): (r: seq<Symbol>)
    ensures |r| == 6
  {
    code.Unpacked(6, code.register.xor(code.Remainder(Expanded(hrp) + values + ZEROS), code.register.one))
  }

  lemma RemainderCat<W(!new)>(code: Code<W>, xs: seq<Symbol>, ys: seq<Symbol>)
    requires code.Lawful()
    ensures code.Remainder(xs + ys) == code.register.Fold(code.Remainder(xs), code.Words(ys))
    ensures code.register.fits(6, code.Remainder(xs))
  {
    WordsCat(code, xs, ys);
    FoldCat(code.register, code.register.one, code.Words(xs), code.Words(ys));
    WordsAreSymbols(code, xs);
    FoldFull(code.register, code.register.one, code.Words(xs));
  }

  /** The checksum verifies. */
  lemma ChecksumVerifies<W(!new)>(code: Code<W>, hrp: string, values: seq<Symbol>)
    requires code.Lawful()
    ensures Verified(code, hrp, values + Checksum(code, hrp, values))
  {
    var r, enc, sum := code.register, Expanded(hrp) + values, Checksum(code, hrp, values);
    RemainderCat(code, enc, ZEROS);
    RemainderCat(code, enc + ZEROS, []);
    RemainderCat(code, enc, sum);
    assert Expanded(hrp) + (values + sum) == enc + sum;
    var m := code.Remainder(enc + ZEROS);
    assert r.FullAt(m, r.one);
    Refilled(code, 6, r.xor(m, r.one));
    Completed(r, code.Remainder(enc), code.Words(ZEROS), code.Words(sum));
  }

  lemma Window<T>(xs: seq<T>, ys: seq<T>, k: nat) returns (p: seq<T>, wx: seq<T>, wy: seq<T>, t: seq<T>)
    requires |xs| == |ys| && forall i | 0 <= i < |xs| && !(k <= i < k + 6) :: xs[i] == ys[i]
    ensures xs == p + wx + t && ys == p + wy + t && |wx| == |wy| <= 6
  {
    var n := |xs|;
    var lo, hi := if k < n then k else n, if k + 6 < n then k + 6 else n;
    p, wx, wy, t := xs[..lo], xs[lo..hi], ys[lo..hi], xs[hi..];
  }

  /** Of two lists that differ only within six consecutive symbols, at most one verifies. */
  lemma AtMostOneVerifies<W(!new)>(code: Code<W>, hrp: string, xs: seq<Symbol>, ys: seq<Symbol>, k: nat)
    requires code.Lawful() && |xs| == |ys| && forall i | 0 <= i < |xs| && !(k <= i < k + 6) :: xs[i] == ys[i]
    requires Verified(code, hrp, xs) && Verified(code, hrp, ys)
    ensures xs == ys
  {
    var r, e := code.register, Expanded(hrp);
    RemainderCat(code, e, xs);
    RemainderCat(code, e, ys);
    WordsAreSymbols(code, xs);
    WordsAreSymbols(code, ys);
    var us, vs := code.Words(xs), code.Words(ys);
    forall i | 0 <= i < |us| && !(k <= i < k + 6) ensures us[i] == vs[i] { assert xs[i] == ys[i]; }
    var p, wx, wy, t := Window(us, vs, k);
    BurstDetected(r, code.Remainder(e), p, wx, wy, t);
    WordsInjective(code, xs, ys);
  }

  /** Six symbols verify exactly when they are the checksum. */
  lemma ChecksumUnique<W(!new)>(code: Code<W>, hrp: string, values: seq<Symbol>, sum: seq<Symbol>)
    requires code.Lawful() && |sum| == 6
    ensures Verified(code, hrp, values + sum) <==> sum == Checksum(code, hrp, values)
  {
    ChecksumVerifies(code, hrp, values);
    var xs, ys := values + sum, values + Checksum(code, hrp, values);
    if Verified(code, hrp, xs) {
      AtMostOneVerifies(code, hrp, xs, ys, |values|);
      assert xs[|values|..] == sum && ys[|values|..] == Checksum(code, hrp, values);
    }
  }

  // ---------- characters ----------

  function LowerCase(c: char): char {
    if 'A' <= c <= 'Z' then (c - 'A') + 'a' else c
  }

  predicate IsUpper(c: char) { 'A' <= c <= 'Z' }
  predicate IsLower(c: char) { 'a' <= c <= 'z' }
  predicate Printable(c: char) { 33 <= c as int <= 126 }

  lemma LowerChar(c: char)
    ensures !IsUpper(LowerCase(c)) && (Printable(LowerCase(c)) <==> Printable(c)) && (LowerCase(c) == '1' <==> c == '1')
    ensures !IsUpper(c) ==> LowerCase(c) == c
  {
  }

  // ---------- strings ----------

  function Chars<W(!new)>(code: Code<W>, vs: seq<Symbol>): (r: string)
    ensures |r| == |vs| && forall i | 0 <= i < |vs| :: r[i] == code.toChar(vs[i])
  {
    seq(|vs|, i requires 0 <= i < |vs| => code.toChar(vs[i]))
  }

  function Lower(s: string): (r: string)
    ensures |r| == |s| && forall i | 0 <= i < |s| :: r[i] == LowerCase(s[i])
  {
    seq(|s|, i requires 0 <= i < |s| => LowerCase(s[i]))
  }

  /** A human-readable part, the separator, the data. */
  function Joined(hrp: string, data: string): (r: string)
    ensures |r| == |hrp| + 1 + |data|
  {
    hrp + "1" + data
  }

  lemma JoinedAt(hrp: string, data: string, i: nat)
    requires i < |hrp| + 1 + |data|
    ensures Joined(hrp, data)[i] == if i < |hrp| then hrp[i] else if i == |hrp| then '1' else data[i - |hrp| - 1]
  {
  }

  lemma LowerNext(s: string, i: nat)
    requires i < |s|
    ensures Lower(s[..i + 1]) == Lower(s[..i]) + [LowerCase(s[i])]
  {
  }

  lemma CharsNext<W(!new)>(code: Code<W>, hrp: string, vs: seq<Symbol>, i: nat)
    requires i < |vs|
    ensures Joined(hrp, Chars(code, vs[..i + 1])) == Joined(hrp, Chars(code, vs[..i])) + [code.toChar(vs[i])]
  {
    assert Chars(code, vs[..i + 1]) == Chars(code, vs[..i]) + [code.toChar(vs[i])];
  }

  /** The encoding of a human-readable part and values. */
  function Encoded<W(!new)>(code: Code<W>, hrp: string, values: seq<Symbol>): string {
    Joined(hrp, Chars(code, values + Checksum(code, hrp, values)))
  }

  predicate MixedCase(s: string) {
    (exists i :: 0 <= i < |s| && IsLower(s[i])) && (exists i :: 0 <= i < |s| && IsUpper(s[i]))
  }

  predicate AllPrintable(s: string) {
    forall i | 0 <= i < |s| :: Printable(s[i])
  }

  predicate AllSymbols<W(!new)>(code: Code<W>, s: string) {
    forall i | 0 <= i < |s| :: code.fromChar(s[i]).Some?
  }

  function SymbolsOf<W(!new)>(code: Code<W>, s: string): (r: seq<Symbol>)
    requires AllSymbols(code, s)
    ensures |r| == |s| && forall i | 0 <= i < |s| :: code.fromChar(s[i]) == Some(r[i])
  {
    seq(|s|, i requires 0 <= i < |s| => code.fromChar(s[i]).value)
  }

  /** The position of the last separator, -1 if there is none. */
  function LastOne(s: string): (pos: int)
    ensures -1 <= pos < |s|
    ensures pos >= 0 ==> s[pos] == '1'
    ensures forall i | pos < i < |s| :: s[i] != '1'
  {
    if s == [] then -1 else if s[|s| - 1] == '1' then |s| - 1 else LastOne(s[..|s| - 1])
  }

  /** The parts of a string, checksum included, if it has the form of an encoding. */
  function Parsed<W(!new)>(code: Code<W>, s: string): (r: Option<(string, seq<Symbol>)>)
    ensures r.Some? ==> |r.value.1| >= 6
  {
    var pos := LastOne(s);
    if !AllPrintable(s) || MixedCase(s) || |s| > 90 || pos <= 0 || pos + 7 > |s|
        || !AllSymbols(code, s[pos + 1..]) then None
    else Some((Lower(s[..pos]), SymbolsOf(code, s[pos + 1..])))
  }

  /** What a string decodes to, if anything. */
  function Decoded<W(==, !new)>(code: Code<W>, s: string): Option<(string, seq<Symbol>)> {
    match Parsed(code, s)
    case None => None
    case Some((hrp, values)) => if Verified(code, hrp, values) then Some((hrp, values[..|values| - 6])) else None
  }

  /** A human-readable part that can be encoded: not empty, printable, without capitals. */
  predicate ValidHrp(hrp: string) {
    hrp != [] && forall i | 0 <= i < |hrp| :: Printable(hrp[i]) && !IsUpper(hrp[i])
  }

  /** A string without mixed case that is the encoding, up to its case. */
  predicate Encodes<W(!new)>(code: Code<W>, s: string, hrp: string, values: seq<Symbol>) {
    ValidHrp(hrp) && !MixedCase(s) && |s| <= 90 && Lower(s) == Encoded(code, hrp, values)
  }

  lemma LowerParts<W(!new)>(code: Code<W>, s: string, pos: nat)
    requires code.Spells() && pos < |s| && s[pos] == '1' && AllSymbols(code, s[pos + 1..])
    ensures Lower(s) == Joined(Lower(s[..pos]), Chars(code, SymbolsOf(code, s[pos + 1..])))
  {
    var hrp, data := Lower(s[..pos]), s[pos + 1..];
    var t := Joined(hrp, Chars(code, SymbolsOf(code, data)));
    forall i | 0 <= i < |s| ensures Lower(s)[i] == t[i] {
      JoinedAt(hrp, Chars(code, SymbolsOf(code, data)), i);
      if i > pos {
        assert s[i] == data[i - pos - 1];
        assert code.FromCharAt(s[i]);
      }
    }
  }

  lemma LowerIsValid(s: string)
    requires s != [] && AllPrintable(s)
    ensures ValidHrp(Lower(s))
  {
    forall i | 0 <= i < |s| ensures Printable(Lower(s)[i]) && !IsUpper(Lower(s)[i]) { LowerChar(s[i]); }
  }

  lemma ParsedForm<W(!new)>(code: Code<W>, s: string, hrp: string, all: seq<Symbol>)
    requires code.Spells() && Parsed(code, s) == Some((hrp, all))
    ensures ValidHrp(hrp) && !MixedCase(s) && |s| <= 90 && Lower(s) == Joined(hrp, Chars(code, all))
  {
    var pos := LastOne(s);
    LowerParts(code, s, pos);
    LowerIsValid(s[..pos]);
  }

  /** Whatever decodes is an encoding of the result. */
  lemma DecodedIsEncoded<W(!new)>(code: Code<W>, s: string, hrp: string, values: seq<Symbol>)
    requires code.Lawful() && Decoded(code, s) == Some((hrp, values))
    ensures Encodes(code, s, hrp, values)
  {
    var all := Parsed(code, s).value.1;
    ParsedForm(code, s, hrp, all);
    var sum := all[|values|..];
    assert all == values + sum;
    ChecksumUnique(code, hrp, values, sum);
  }

  /** Character by character, an encoding is its human-readable part, the separator, its symbols. */
  lemma FormAt<W(!new)>(code: Code<W>, s: string, hrp: string, vs: seq<Symbol>, i: nat)
    requires Lower(s) == Joined(hrp, Chars(code, vs)) && i < |s|
    ensures |s| == |hrp| + 1 + |vs|
    ensures LowerCase(s[i]) == if i < |hrp| then hrp[i] else if i == |hrp| then '1' else code.toChar(vs[i - |hrp| - 1])
  {
    assert |Lower(s)| == |s|;
    JoinedAt(hrp, Chars(code, vs), i);
    assert Lower(s)[i] == LowerCase(s[i]);
  }

  /** The separator of an encoding is its last '1'. */
  lemma SeparatorFound<W(!new)>(code: Code<W>, s: string, hrp: string, vs: seq<Symbol>)
    requires code.Spells() && Lower(s) == Joined(hrp, Chars(code, vs))
    ensures |s| == |hrp| + 1 + |vs| && LastOne(s) == |hrp|
  {
    assert |Lower(s)| == |s|;
    FormAt(code, s, hrp, vs, |hrp|);
    LowerChar(s[|hrp|]);
    forall i | |hrp| < i < |s| ensures s[i] != '1' {
      FormAt(code, s, hrp, vs, i);
      LowerChar(s[i]);
      assert code.ToCharAt(vs[i - |hrp| - 1]);
    }
  }

  lemma DataRead<W(!new)>(code: Code<W>, s: string, hrp: string, vs: seq<Symbol>)
    requires code.Spells() && Lower(s) == Joined(hrp, Chars(code, vs)) && |s| == |hrp| + 1 + |vs|
    ensures AllSymbols(code, s[|hrp| + 1..]) && SymbolsOf(code, s[|hrp| + 1..]) == vs
  {
    var data := s[|hrp| + 1..];
    forall i | 0 <= i < |data| ensures code.fromChar(data[i]) == Some(vs[i]) {
      FormAt(code, s, hrp, vs, |hrp| + 1 + i);
      assert data[i] == s[|hrp| + 1 + i];
      assert code.FromCharAt(data[i]) && code.ToCharAt(vs[i]);
    }
  }

  lemma HrpRead<W(!new)>(code: Code<W>, s: string, hrp: string, vs: seq<Symbol>)
    requires Lower(s) == Joined(hrp, Chars(code, vs)) && |s| == |hrp| + 1 + |vs|
    ensures Lower(s[..|hrp|]) == hrp
  {
    forall i | 0 <= i < |hrp| ensures Lower(s[..|hrp|])[i] == hrp[i] { FormAt(code, s, hrp, vs, i); }
  }

  lemma EncodedPrintable<W(!new)>(code: Code<W>, s: string, hrp: string, vs: seq<Symbol>)
    requires code.Spells() && Lower(s) == Joined(hrp, Chars(code, vs)) && |s| == |hrp| + 1 + |vs| && ValidHrp(hrp)
    ensures AllPrintable(s)
  {
    forall i | 0 <= i < |s| ensures Printable(s[i]) {
      LowerChar(s[i]);
      FormAt(code, s, hrp, vs, i);
      if i > |hrp| { assert code.ToCharAt(vs[i - |hrp| - 1]); }
    }
  }

  lemma FormParses<W(!new)>(code: Code<W>, s: string, hrp: string, all: seq<Symbol>)
    requires code.Spells() && ValidHrp(hrp) && !MixedCase(s) && |s| <= 90 && Lower(s) == Joined(hrp, Chars(code, all))
             && |all| >= 6
    ensures Parsed(code, s) == Some((hrp, all))
  {
    SeparatorFound(code, s, hrp, all);
    DataRead(code, s, hrp, all);
    EncodedPrintable(code, s, hrp, all);
    HrpRead(code, s, hrp, all);
  }

  /** Whatever is an encoding decodes to what was encoded. */
  lemma EncodedDecodes<W(!new)>(code: Code<W>, s: string, hrp: string, values: seq<Symbol>)
    requires code.Lawful() && Encodes(code, s, hrp, values)
    ensures Decoded(code, s) == Some((hrp, values))
  {
    ChecksumVerifies(code, hrp, values);
    var all := values + Checksum(code, hrp, values);
    FormParses(code, s, hrp, all);
    assert all[..|all| - 6] == values;
  }

  /** Decoding accepts exactly the encodings, in upper or lower case, of at most 90 characters. */
  lemma DecodeExact<W(!new)>(code: Code<W>, s: string, hrp: string, values: seq<Symbol>)
    requires code.Lawful()
    ensures Decoded(code, s) == Some((hrp, values)) <==> Encodes(code, s, hrp, values)
  {
    if Encodes(code, s, hrp, values) { EncodedDecodes(code, s, hrp, values); }
    if Decoded(code, s) == Some((hrp, values)) { DecodedIsEncoded(code, s, hrp, values); }
  }

  lemma EncodedIsLower<W(!new)>(code: Code<W>, hrp: string, vs: seq<Symbol>)
    requires code.Spells() && ValidHrp(hrp)
    ensures var s := Joined(hrp, Chars(code, vs)); Lower(s) == s && !MixedCase(s)
  {
    var s := Joined(hrp, Chars(code, vs));
    forall i | 0 <= i < |s| ensures !IsUpper(s[i]) && LowerCase(s[i]) == s[i] {
      JoinedAt(hrp, Chars(code, vs), i);
      LowerChar(s[i]);
      if i > |hrp| { assert code.ToCharAt(vs[i - |hrp| - 1]); }
    }
  }

  /** Decoding undoes encoding. */
  lemma RoundTrip<W(!new)>(code: Code<W>, hrp: string, values: seq<Symbol>)
    requires code.Lawful() && ValidHrp(hrp) && |hrp| + 7 + |values| <= 90
    ensures Decoded(code, Encoded(code, hrp, values)) == Some((hrp, values))
  {
    EncodedIsLower(code, hrp, values + Checksum(code, hrp, values));
    EncodedDecodes(code, Encoded(code, hrp, values), hrp, values);
  }
}
