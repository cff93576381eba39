/**
 The roots of the Bech32 generator, in a field of 1024 elements: pairs of 5-bit symbols, with
 z^2 = z + 1 over the symbols' own field. The generator has three roots in geometric
 progression, and their ratio has order 1023, so up to three wrong symbols among 1023
 consecutive ones are always detected.
 */
module Bech32Roots {
  import opened LinearCode
  import opened Syndromes
  import opened Bech32
  import opened Bech32Errors
  import opened PolyMod

  // ---------- linear maps on ten bits ----------

  /** A linear map, by the images of the ten bits. */
  datatype Map = Map(k0: bv32, k1: bv32, k2: bv32, k3: bv32, k4: bv32, k5: bv32, k6: bv32, k7: bv32, k8: bv32, k9: bv32)

  function Bit(u: bv32, mask: bv32, k: bv32): bv32 { if u & mask != 0 then k else 0 }

  function Half(u: bv32, m0: bv32, m1: bv32, m2: bv32, m3: bv32, m4: bv32, k0: bv32, k1: bv32, k2: bv32, k3: bv32,
                k4: bv32): bv32 {
    Xor(Xor(Xor(Xor(Bit(u, m0, k0), Bit(u, m1, k1)), Bit(u, m2, k2)), Bit(u, m3, k3)), Bit(u, m4, k4))
  }

  function Apply(f: Map, u: bv32): bv32 {
    Xor(Half(u, 1, 2, 4, 8, 16, f.k0, f.k1, f.k2, f.k3, f.k4),
        Half(u, 32, 64, 128, 256, 512, f.k5, f.k6, f.k7, f.k8, f.k9))
  }

  function Compose(f: Map, g: Map): Map {
    Map(Apply(f, g.k0), Apply(f, g.k1), Apply(f, g.k2), Apply(f, g.k3), Apply(f, g.k4),
        Apply(f, g.k5), Apply(f, g.k6), Apply(f, g.k7), Apply(f, g.k8), Apply(f, g.k9))
  }

  predicate OneBit(m: bv32) {
    m == 1 || m == 2 || m == 4 || m == 8 || m == 16 || m == 32 || m == 64 || m == 128 || m == 256 || m == 512
  }

  lemma MaskBits(a: bv32, b: bv32, m: bv32)
    requires OneBit(m)
    ensures (a ^ b) & m != 0 <==> (a & m != 0) != (b & m != 0)
  {
  }

  lemma BitLinear(a: bv32, b: bv32, m: bv32, k: bv32)
    requires OneBit(m)
    ensures Bit(Xor(a, b), m, k) == Xor(Bit(a, m, k), Bit(b, m, k))
  {
    MaskBits(a, b, m);
    XorCancels(k, k);
    XorCancels(0, 0);
  }

  lemma HalfLinear(a: bv32, b: bv32, m0: bv32, m1: bv32, m2: bv32, m3: bv32, m4: bv32,
                   k0: bv32, k1: bv32, k2: bv32, k3: bv32, k4: bv32)
    requires OneBit(m0) && OneBit(m1) && OneBit(m2) && OneBit(m3) && OneBit(m4)
    ensures Half(Xor(a, b), m0, m1, m2, m3, m4, k0, k1, k2, k3, k4)
            == Xor(Half(a, m0, m1, m2, m3, m4, k0, k1, k2, k3, k4), Half(b, m0, m1, m2, m3, m4, k0, k1, k2, k3, k4))
  {
    BitLinear(a, b, m0, k0);
    BitLinear(a, b, m1, k1);
    BitLinear(a, b, m2, k2);
    BitLinear(a, b, m3, k3);
    BitLinear(a, b, m4, k4);
    var p, q := Bit(a, m0, k0), Bit(b, m0, k0);
    XorSwaps(p, q, Bit(a, m1, k1), Bit(b, m1, k1));
    p, q := Xor(p, Bit(a, m1, k1)), Xor(q, Bit(b, m1, k1));
    XorSwaps(p, q, Bit(a, m2, k2), Bit(b, m2, k2));
    p, q := Xor(p, Bit(a, m2, k2)), Xor(q, Bit(b, m2, k2));
    XorSwaps(p, q, Bit(a, m3, k3), Bit(b, m3, k3));
    p, q := Xor(p, Bit(a, m3, k3)), Xor(q, Bit(b, m3, k3));
    XorSwaps(p, q, Bit(a, m4, k4), Bit(b, m4, k4));
  }

  lemma ApplyLinear(f: Map, a: bv32, b: bv32)
    ensures Apply(f, Xor(a, b)) == Xor(Apply(f, a), Apply(f, b))
  {
    HalfLinear(a, b, 1, 2, 4, 8, 16, f.k0, f.k1, f.k2, f.k3, f.k4);
    HalfLinear(a, b, 32, 64, 128, 256, 512, f.k5, f.k6, f.k7, f.k8, f.k9);
    XorSwaps(Half(a, 1, 2, 4, 8, 16, f.k0, f.k1, f.k2, f.k3, f.k4),
        Half(b, 1, 2, 4, 8, 16, f.k0, f.k1, f.k2, f.k3, f.k4),
             Half(a, 32, 64, 128, 256, 512, f.k5, f.k6, f.k7, f.k8, f.k9),
                 Half(b, 32, 64, 128, 256, 512, f.k5, f.k6, f.k7, f.k8, f.k9));
  }

  lemma ApplyZero(f: Map)
    ensures Apply(f, 0) == 0
  {
    XorCancels(0, 0);
  }

  lemma ApplyBit(f: Map, u: bv32, m: bv32, k: bv32)
    ensures Apply(f, Bit(u, m, k)) == Bit(u, m, Apply(f, k))
  {
    ApplyZero(f);
  }

  lemma ApplyHalf(f: Map, u: bv32, m0: bv32, m1: bv32, m2: bv32, m3: bv32, m4: bv32,
                  k0: bv32, k1: bv32, k2: bv32, k3: bv32, k4: bv32)
    ensures Apply(f, Half(u, m0, m1, m2, m3, m4, k0, k1, k2, k3, k4))
            == Half(u, m0, m1, m2, m3, m4, Apply(f, k0), Apply(f, k1), Apply(f, k2), Apply(f, k3), Apply(f, k4))
  {
    ApplyBit(f, u, m0, k0);
    ApplyBit(f, u, m1, k1);
    ApplyBit(f, u, m2, k2);
    ApplyBit(f, u, m3, k3);
    ApplyBit(f, u, m4, k4);
    var p := Bit(u, m0, k0);
    ApplyLinear(f, p, Bit(u, m1, k1));
    p := Xor(p, Bit(u, m1, k1));
    ApplyLinear(f, p, Bit(u, m2, k2));
    p := Xor(p, Bit(u, m2, k2));
    ApplyLinear(f, p, Bit(u, m3, k3));
    p := Xor(p, Bit(u, m3, k3));
    ApplyLinear(f, p, Bit(u, m4, k4));
  }

  /** One map after another is one map. */
  lemma ApplyCompose(f: Map, g: Map, u: bv32)
    ensures Apply(f, Apply(g, u)) == Apply(Compose(f, g), u)
  {
    ApplyHalf(f, u, 1, 2, 4, 8, 16, g.k0, g.k1, g.k2, g.k3, g.k4);
    ApplyHalf(f, u, 32, 64, 128, 256, 512, g.k5, g.k6, g.k7, g.k8, g.k9);
    ApplyLinear(f, Half(u, 1, 2, 4, 8, 16, g.k0, g.k1, g.k2, g.k3, g.k4),
        Half(u, 32, 64, 128, 256, 512, g.k5, g.k6, g.k7, g.k8, g.k9));
  }

  predicate LowProduct(f: Map, g: Map, h: Map) {
    && Apply(f, g.k0) == h.k0 && Apply(f, g.k1) == h.k1 && Apply(f, g.k2) == h.k2
    && Apply(f, g.k3) == h.k3 && Apply(f, g.k4) == h.k4
  }

  predicate HighProduct(f: Map, g: Map, h: Map) {
    && Apply(f, g.k5) == h.k5 && Apply(f, g.k6) == h.k6 && Apply(f, g.k7) == h.k7
    && Apply(f, g.k8) == h.k8 && Apply(f, g.k9) == h.k9
  }

  /** h is f after g. */
  predicate Product(f: Map, g: Map, h: Map) { LowProduct(f, g, h) && HighProduct(f, g, h) }

  lemma ApplyProduct(f: Map, g: Map, h: Map, u: bv32)
    requires Product(f, g, h)
    ensures Apply(f, Apply(g, u)) == Apply(h, u)
  {
    ApplyCompose(f, g, u);
  }

  predicate SmallMap(f: Map) {
    && f.k0 < 1024 && f.k1 < 1024 && f.k2 < 1024 && f.k3 < 1024 && f.k4 < 1024
    && f.k5 < 1024 && f.k6 < 1024 && f.k7 < 1024 && f.k8 < 1024 && f.k9 < 1024
  }

  predicate Small(u: bv32) { u < 1024 }

  lemma SumSmall(a: bv32, b: bv32)
    requires Small(a) && Small(b)
    ensures Small(Xor(a, b))
  {
  }

  lemma HalfSmall(u: bv32, m0: bv32, m1: bv32, m2: bv32, m3: bv32, m4: bv32, k0: bv32, k1: bv32, k2: bv32, k3: bv32,
                  k4: bv32)
    requires Small(k0) && Small(k1) && Small(k2) && Small(k3) && Small(k4)
    ensures Small(Half(u, m0, m1, m2, m3, m4, k0, k1, k2, k3, k4))
  {
    var p := Bit(u, m0, k0);
    SumSmall(p, Bit(u, m1, k1));
    p := Xor(p, Bit(u, m1, k1));
    SumSmall(p, Bit(u, m2, k2));
    p := Xor(p, Bit(u, m2, k2));
    SumSmall(p, Bit(u, m3, k3));
    p := Xor(p, Bit(u, m3, k3));
    SumSmall(p, Bit(u, m4, k4));
  }

  lemma ApplySmall(f: Map, u: bv32)
    requires SmallMap(f)
    ensures Small(Apply(f, u))
  {
    HalfSmall(u, 1, 2, 4, 8, 16, f.k0, f.k1, f.k2, f.k3, f.k4);
    HalfSmall(u, 32, 64, 128, 256, 512, f.k5, f.k6, f.k7, f.k8, f.k9);
    SumSmall(Half(u, 1, 2, 4, 8, 16, f.k0, f.k1, f.k2, f.k3, f.k4),
        Half(u, 32, 64, 128, 256, 512, f.k5, f.k6, f.k7, f.k8, f.k9));
  }

  // ---------- the field ----------

  const IDENTITY: Map := Map(1, 2, 4, 8, 16, 32, 64, 128, 256, 512)

  /** Multiplication by the first root, and by the two others. */
  const BASE: Map := Map(0x30c, 0x338, 0x379, 0x3fb, 0x2ff, 0x298, 0x39, 0x5b, 0x9f, 0x117)
  const ROOT1: Map := Map(0x36e, 0x3fc, 0x2f1, 0xeb, 0x1d6, 0x2bb, 0x7f, 0xd7, 0x187, 0x30e)
  const ROOT2: Map := Map(0x3c6, 0x2ac, 0x78, 0xd9, 0x19b, 0x31e, 0x335, 0x363, 0x3e6, 0x2ec)

  /** Multiplication by their ratio, and by powers of it. */
  const RATIO1: Map := Map(0xc1, 0x182, 0x304, 0x328, 0x370, 0xe6, 0x1cc, 0x398, 0x239, 0x17b)
  const RATIO2: Map := Map(0x295, 0x23, 0x46, 0x8c, 0x118, 0x34, 0x41, 0x82, 0x104, 0x208)
  const RATIO3: Map := Map(0x256, 0x1a5, 0x34a, 0x3b4, 0x261, 0x92, 0x10d, 0x21a, 0x13d, 0x253)
  const RATIO4: Map := Map(0x141, 0x282, 0x24, 0x48, 0x90, 0x16a, 0x2d4, 0xa1, 0x142, 0x284)
  const RATIO8: Map := Map(0x2d7, 0xa7, 0x14e, 0x29c, 0x31, 0x36, 0x45, 0x8a, 0x114, 0x201)
  const RATIO11: Map := Map(0x39c, 0x231, 0x16b, 0x2d6, 0xa5, 0x1c, 0x11, 0xb, 0x16, 0x5)
  const RATIO22: Map := Map(0x300, 0x320, 0x360, 0x3e0, 0x2e0, 0x318, 0x339, 0x37b, 0x3ff, 0x2f7)
  const RATIO33: Map := Map(0x13, 0xf, 0x1e, 0x15, 0x3, 0x260, 0x1e0, 0x3c0, 0x2a0, 0x60)
  const RATIO30: Map := Map(0x315, 0x323, 0x366, 0x3ec, 0x2f8, 0x1b8, 0x359, 0x3bb, 0x27f, 0x1f7)
  const RATIO31: Map := Map(0x3f7, 0x2e7, 0xee, 0x1dc, 0x391, 0x11f, 0x217, 0x127, 0x24e, 0x1bc)
  const RATIO62: Map := Map(0x3b2, 0x26d, 0x1fa, 0x3dd, 0x2b3, 0x1fd, 0x3d3, 0x2af, 0x7e, 0xd5)
  const RATIO93: Map := Map(0x2bc, 0x71, 0xcb, 0x196, 0x305, 0x135, 0x243, 0x1a6, 0x34c, 0x3b8)
  const RATIO186: Map := Map(0x173, 0x2cf, 0xbe, 0x155, 0x283, 0x30b, 0x336, 0x365, 0x3ea, 0x2f4)
  const RATIO279: Map := Map(0x1f2, 0x3cd, 0x2ba, 0x7d, 0xd3, 0x3af, 0x27e, 0x1f5, 0x3c3, 0x2a6)
  const RATIO341: Map := Map(0x21, 0x42, 0x84, 0x108, 0x210, 0x1, 0x2, 0x4, 0x8, 0x10)
  const RATIO682: Map := Map(0x20, 0x40, 0x80, 0x100, 0x200, 0x21, 0x42, 0x84, 0x108, 0x210)

  lemma BitItself(u: bv32, m: bv32)
    requires OneBit(m)
    ensures Bit(u, m, m) == u & m
  {
  }

  lemma LowBitsJoin(u: bv32)
    ensures Xor(Xor(Xor(Xor(u & 1, u & 2), u & 4), u & 8), u & 16) == u & 31
  {
  }

  lemma HighBitsJoin(u: bv32)
    ensures Xor(Xor(Xor(Xor(u & 32, u & 64), u & 128), u & 256), u & 512) == u & 0x3e0
  {
  }

  lemma HalvesJoin(u: bv32)
    requires Small(u)
    ensures Xor(u & 31, u & 0x3e0) == u
  {
  }

  lemma IdentityApplied(u: bv32)
    requires Small(u)
    ensures Apply(IDENTITY, u) == u
  {
    BitItself(u, 1); BitItself(u, 2); BitItself(u, 4); BitItself(u, 8); BitItself(u, 16);
    BitItself(u, 32); BitItself(u, 64); BitItself(u, 128); BitItself(u, 256); BitItself(u, 512);
    LowBitsJoin(u);
    HighBitsJoin(u);
    HalvesJoin(u);
  }

  lemma Power2Low() ensures LowProduct(RATIO1, RATIO1, RATIO2) { }
  lemma Power2High() ensures HighProduct(RATIO1, RATIO1, RATIO2) { }
  lemma Power3Low() ensures LowProduct(RATIO2, RATIO1, RATIO3) { }
  lemma Power3High() ensures HighProduct(RATIO2, RATIO1, RATIO3) { }
  lemma Power4Low() ensures LowProduct(RATIO2, RATIO2, RATIO4) { }
  lemma Power4High() ensures HighProduct(RATIO2, RATIO2, RATIO4) { }
  lemma Power8Low() ensures LowProduct(RATIO4, RATIO4, RATIO8) { }
  lemma Power8High() ensures HighProduct(RATIO4, RATIO4, RATIO8) { }
  lemma Power11Low() ensures LowProduct(RATIO8, RATIO3, RATIO11) { }
  lemma Power11High() ensures HighProduct(RATIO8, RATIO3, RATIO11) { }
  lemma Power22Low() ensures LowProduct(RATIO11, RATIO11, RATIO22) { }
  lemma Power22High() ensures HighProduct(RATIO11, RATIO11, RATIO22) { }
  lemma Power33Low() ensures LowProduct(RATIO22, RATIO11, RATIO33) { }
  lemma Power33High() ensures HighProduct(RATIO22, RATIO11, RATIO33) { }
  lemma Power30Low() ensures LowProduct(RATIO22, RATIO8, RATIO30) { }
  lemma Power30High() ensures HighProduct(RATIO22, RATIO8, RATIO30) { }
  lemma Power31Low() ensures LowProduct(RATIO30, RATIO1, RATIO31) { }
  lemma Power31High() ensures HighProduct(RATIO30, RATIO1, RATIO31) { }
  lemma Power62Low() ensures LowProduct(RATIO31, RATIO31, RATIO62) { }
  lemma Power62High() ensures HighProduct(RATIO31, RATIO31, RATIO62) { }
  lemma Power93Low() ensures LowProduct(RATIO62, RATIO31, RATIO93) { }
  lemma Power93High() ensures HighProduct(RATIO62, RATIO31, RATIO93) { }
  lemma Power186Low() ensures LowProduct(RATIO93, RATIO93, RATIO186) { }
  lemma Power186High() ensures HighProduct(RATIO93, RATIO93, RATIO186) { }
  lemma Power279Low() ensures LowProduct(RATIO186, RATIO93, RATIO279) { }
  lemma Power279High() ensures HighProduct(RATIO186, RATIO93, RATIO279) { }
  lemma Power341Low() ensures LowProduct(RATIO279, RATIO62, RATIO341) { }
  lemma Power341High() ensures HighProduct(RATIO279, RATIO62, RATIO341) { }
  lemma Power682Low() ensures LowProduct(RATIO341, RATIO341, RATIO682) { }
  lemma Power682High() ensures HighProduct(RATIO341, RATIO341, RATIO682) { }
  lemma Power1023Low() ensures LowProduct(RATIO682, RATIO341, IDENTITY) { }
  lemma Power1023High() ensures HighProduct(RATIO682, RATIO341, IDENTITY) { }
  lemma SecondRootLow() ensures LowProduct(RATIO1, BASE, ROOT1) { }
  lemma SecondRootHigh() ensures HighProduct(RATIO1, BASE, ROOT1) { }
  lemma RootsCommuteLow() ensures LowProduct(BASE, RATIO1, ROOT1) { }
  lemma RootsCommuteHigh() ensures HighProduct(BASE, RATIO1, ROOT1) { }
  lemma ThirdRootLow() ensures LowProduct(RATIO1, ROOT1, ROOT2) { }
  lemma ThirdRootHigh() ensures HighProduct(RATIO1, ROOT1, ROOT2) { }

  lemma BaseInvertible(u: bv32)
    requires Small(u) && Apply(BASE, u) == 0
    ensures u == 0
  {
  }

  lemma RatioInvertible(u: bv32)
    requires Small(u) && Apply(RATIO1, u) == 0
    ensures u == 0
  {
  }

  lemma NoFixed33(u: bv32)
    requires Small(u) && Apply(RATIO33, u) == u
    ensures u == 0
  {
  }

  lemma NoFixed93(u: bv32)
    requires Small(u) && Apply(RATIO93, u) == u
    ensures u == 0
  {
  }

  lemma NoFixed341(u: bv32)
    requires Small(u) && Apply(RATIO341, u) == u
    ensures u == 0
  {
  }

  // ---------- the value of a register at a root ----------

  function Group0(c: bv32): bv32 { c & 31 }
  function Group1(c: bv32): bv32 { (c >> 5) & 31 }
  function Group2(c: bv32): bv32 { (c >> 10) & 31 }
  function Group3(c: bv32): bv32 { (c >> 15) & 31 }
  function Group4(c: bv32): bv32 { (c >> 20) & 31 }
  function Group5(c: bv32): bv32 { (c >> 25) & 31 }

  /** The polynomial with the six groups as coefficients. */
  function Horner(f: Map, c: bv32): bv32 {
    Feed(f, Feed(f, Feed(f, Feed(f, Feed(f, Group5(c), Group4(c)), Group3(c)), Group2(c)), Group1(c)), Group0(c))
  }

  function Feed(f: Map, u: bv32, v: bv32): bv32 { Xor(Apply(f, u), v) }

  lemma Group0Linear(a: bv32, b: bv32) ensures Group0(Xor(a, b)) == Xor(Group0(a), Group0(b)) { }
  lemma Group1Linear(a: bv32, b: bv32) ensures Group1(Xor(a, b)) == Xor(Group1(a), Group1(b)) { }
  lemma Group2Linear(a: bv32, b: bv32) ensures Group2(Xor(a, b)) == Xor(Group2(a), Group2(b)) { }
  lemma Group3Linear(a: bv32, b: bv32) ensures Group3(Xor(a, b)) == Xor(Group3(a), Group3(b)) { }
  lemma Group4Linear(a: bv32, b: bv32) ensures Group4(Xor(a, b)) == Xor(Group4(a), Group4(b)) { }
  lemma Group5Linear(a: bv32, b: bv32) ensures Group5(Xor(a, b)) == Xor(Group5(a), Group5(b)) { }

  lemma FeedLinear(f: Map, a: bv32, b: bv32, x: bv32, y: bv32)
    ensures Feed(f, Xor(a, b), Xor(x, y)) == Xor(Feed(f, a, x), Feed(f, b, y))
  {
    ApplyLinear(f, a, b);
    XorSwaps(Apply(f, a), Apply(f, b), x, y);
  }

  lemma HornerLinear(f: Map, a: bv32, b: bv32)
    ensures Horner(f, Xor(a, b)) == Xor(Horner(f, a), Horner(f, b))
  {
    Group0Linear(a, b); Group1Linear(a, b); Group2Linear(a, b);
    Group3Linear(a, b); Group4Linear(a, b); Group5Linear(a, b);
    var p, q := Group5(a), Group5(b);
    FeedLinear(f, p, q, Group4(a), Group4(b));
    p, q := Feed(f, p, Group4(a)), Feed(f, q, Group4(b));
    FeedLinear(f, p, q, Group3(a), Group3(b));
    p, q := Feed(f, p, Group3(a)), Feed(f, q, Group3(b));
    FeedLinear(f, p, q, Group2(a), Group2(b));
    p, q := Feed(f, p, Group2(a)), Feed(f, q, Group2(b));
    FeedLinear(f, p, q, Group1(a), Group1(b));
    p, q := Feed(f, p, Group1(a)), Feed(f, q, Group1(b));
    FeedLinear(f, p, q, Group0(a), Group0(b));
  }

  lemma HornerSmall(f: Map, c: bv32)
    requires SmallMap(f)
    ensures Small(Horner(f, c))
  {
    var u := Feed(f, Feed(f, Feed(f, Feed(f, Group5(c), Group4(c)), Group3(c)), Group2(c)), Group1(c));
    ApplySmall(f, u);
    SumSmall(Apply(f, u), Group0(c));
  }

  /** The low five groups of a word, and the top one. */
  function Rest(c: bv32): bv32 { c & 0x1ffffff }

  function Top(c: bv32): bv32 { c & 0x3e000000 }

  lemma Parts(c: bv32)
    requires c < 0x40000000
    ensures Xor(Top(c), Rest(c)) == c
    ensures Group5(Rest(c)) == 0 && Group4(Rest(c)) == Group4(c) && Group3(Rest(c)) == Group3(c)
    ensures Group2(Rest(c)) == Group2(c) && Group1(Rest(c)) == Group1(c) && Group0(Rest(c)) == Group0(c)
  {
  }

  lemma TopGroups(c: bv32)
    ensures Group5(Top(c)) == Group5(c) && Group4(Top(c)) == 0 && Group3(Top(c)) == 0
    ensures Group2(Top(c)) == 0 && Group1(Top(c)) == 0 && Group0(Top(c)) == 0
  {
  }

  lemma LowGroups(c: bv32)
    ensures Group5(Low(c)) == Group4(c) && Group4(Low(c)) == Group3(c) && Group3(Low(c)) == Group2(c)
    ensures Group2(Low(c)) == Group1(c) && Group1(Low(c)) == Group0(c) && Group0(Low(c)) == 0
  {
  }

  /** Shifting multiplies what is not lost by the root. */
  lemma HornerLow(f: Map, c: bv32)
    requires c < 0x40000000
    ensures Horner(f, Low(c)) == Apply(f, Horner(f, Rest(c)))
  {
    Parts(c);
    LowGroups(c);
    ApplyZero(f);
    XorCancels(Group4(c), 0);
    XorCancels(Apply(f, Horner(f, Rest(c))), 0);
  }

  lemma FeedZero(f: Map, u: bv32)
    ensures Feed(f, u, 0) == Apply(f, u)
  {
    XorCancels(Apply(f, u), 0);
  }

  lemma HornerTop(f: Map, c: bv32)
    ensures Horner(f, Top(c)) == Apply(f, Apply(f, Apply(f, Apply(f, Apply(f, Group5(c))))))
  {
    TopGroups(c);
    var u := Group5(c);
    FeedZero(f, u);
    FeedZero(f, Apply(f, u));
    FeedZero(f, Apply(f, Apply(f, u)));
    FeedZero(f, Apply(f, Apply(f, Apply(f, u))));
    FeedZero(f, Apply(f, Apply(f, Apply(f, Apply(f, u)))));
  }

  /** f2, f3 and f6 are powers of f. */
  predicate Sixth(f: Map, f2: Map, f3: Map, f6: Map) {
    Product(f, f, f2) && Product(f2, f, f3) && Product(f3, f3, f6)
  }

  lemma SixTimes(f: Map, f2: Map, f3: Map, f6: Map, u: bv32)
    requires Sixth(f, f2, f3, f6)
    ensures Apply(f, Apply(f, Apply(f, Apply(f, Apply(f, Apply(f, u)))))) == Apply(f6, u)
  {
    var w := Apply(f, Apply(f, Apply(f, u)));
    ApplyProduct(f, f, f2, Apply(f, u));
    ApplyProduct(f2, f, f3, u);
    ApplyProduct(f, f, f2, Apply(f, w));
    ApplyProduct(f2, f, f3, w);
    ApplyProduct(f3, f3, f6, u);
  }

  /** What falls out at the top comes back as the sixth power of the root. */
  predicate Reduces(f: Map, f6: Map) {
    && Horner(f, 0x3b6a57b2) == f6.k0 && Horner(f, 0x26508e6d) == f6.k1 && Horner(f, 0x1ea119fa) == f6.k2
    && Horner(f, 0x3d4233dd) == f6.k3 && Horner(f, 0x2a1462b3) == f6.k4
  }

  function Taps(c: bv32): bv32 { Xor(Xor(Xor(Xor(Tap0(c), Tap1(c)), Tap2(c)), Tap3(c)), Tap4(c)) }

  lemma StepParts(c: bv32)
    ensures Step(c, 0) == Xor(Low(c), Taps(c))
  {
    XorCancels(Low(c), 0);
    XorAssociates(Low(c), Tap0(c), Tap1(c));
    XorAssociates(Low(c), Xor(Tap0(c), Tap1(c)), Tap2(c));
    XorAssociates(Low(c), Xor(Xor(Tap0(c), Tap1(c)), Tap2(c)), Tap3(c));
    XorAssociates(Low(c), Xor(Xor(Xor(Tap0(c), Tap1(c)), Tap2(c)), Tap3(c)), Tap4(c));
  }

  lemma HornerBit(f: Map, c: bv32, m: bv32, k: bv32)
    ensures Horner(f, Bit(c, m, k)) == Bit(c, m, Horner(f, k))
  {
    ApplyZero(f);
    XorCancels(0, 0);
  }

  lemma TopBitMasks(c: bv32, k: bv32)
    ensures Bit(c, 0x2000000, k) == Bit(Group5(c), 1, k) && Bit(c, 0x4000000, k) == Bit(Group5(c), 2, k)
    ensures Bit(c, 0x8000000, k) == Bit(Group5(c), 4, k) && Bit(c, 0x10000000, k) == Bit(Group5(c), 8, k)
    ensures Bit(c, 0x20000000, k) == Bit(Group5(c), 16, k)
  {
  }

  lemma NoHighBits(u: bv32, k: bv32)
    requires u < 32
    ensures Bit(u, 32, k) == Bit(u, 64, k) == Bit(u, 128, k) == Bit(u, 256, k) == Bit(u, 512, k) == 0
  {
  }

  lemma ApplySymbol(f: Map, u: bv32)
    requires u < 32
    ensures Apply(f, u) == Half(u, 1, 2, 4, 8, 16, f.k0, f.k1, f.k2, f.k3, f.k4)
  {
    NoHighBits(u, f.k5);
    NoHighBits(u, f.k6);
    NoHighBits(u, f.k7);
    NoHighBits(u, f.k8);
    NoHighBits(u, f.k9);
    XorCancels(0, 0);
    XorCancels(Half(u, 1, 2, 4, 8, 16, f.k0, f.k1, f.k2, f.k3, f.k4), 0);
  }

  lemma HornerTap(f: Map, f6: Map, c: bv32)
    requires Reduces(f, f6)
    ensures Horner(f, Tap0(c)) == Bit(Group5(c), 1, f6.k0) && Horner(f, Tap1(c)) == Bit(Group5(c), 2, f6.k1)
    ensures Horner(f, Tap2(c)) == Bit(Group5(c), 4, f6.k2) && Horner(f, Tap3(c)) == Bit(Group5(c), 8, f6.k3)
    ensures Horner(f, Tap4(c)) == Bit(Group5(c), 16, f6.k4)
  {
    HornerBit(f, c, 0x2000000, 0x3b6a57b2);
    HornerBit(f, c, 0x4000000, 0x26508e6d);
    HornerBit(f, c, 0x8000000, 0x1ea119fa);
    HornerBit(f, c, 0x10000000, 0x3d4233dd);
    HornerBit(f, c, 0x20000000, 0x2a1462b3);
    TopBitMasks(c, f6.k0);
    TopBitMasks(c, f6.k1);
    TopBitMasks(c, f6.k2);
    TopBitMasks(c, f6.k3);
    TopBitMasks(c, f6.k4);
  }

  lemma HornerTaps(f: Map, f6: Map, c: bv32)
    requires Reduces(f, f6)
    ensures Horner(f, Taps(c)) == Apply(f6, Group5(c))
  {
    HornerTap(f, f6, c);
    var t := Tap0(c);
    HornerLinear(f, t, Tap1(c));
    t := Xor(t, Tap1(c));
    HornerLinear(f, t, Tap2(c));
    t := Xor(t, Tap2(c));
    HornerLinear(f, t, Tap3(c));
    t := Xor(t, Tap3(c));
    HornerLinear(f, t, Tap4(c));
    SymbolGroup(c);
    ApplySymbol(f6, Group5(c));
  }

  lemma SymbolGroup(c: bv32)
    ensures Group5(c) < 32
  {
  }

  /** A step of the register multiplies its value by the root. */
  lemma HornerStep(f: Map, f2: Map, f3: Map, f6: Map, c: bv32)
    requires Sixth(f, f2, f3, f6) && Reduces(f, f6) && c < 0x40000000
    ensures Horner(f, Step(c, 0)) == Apply(f, Horner(f, c))
  {
    StepParts(c);
    HornerLinear(f, Low(c), Taps(c));
    HornerLow(f, c);
    HornerTaps(f, f6, c);
    Parts(c);
    HornerLinear(f, Top(c), Rest(c));
    HornerTop(f, c);
    SixTimes(f, f2, f3, f6, Group5(c));
    ApplyLinear(f, Horner(f, Top(c)), Horner(f, Rest(c)));
    XorCommutes(Apply(f, Horner(f, Top(c))), Apply(f, Horner(f, Rest(c))));
  }

  lemma HornerSymbol(f: Map, v: bv32)
    requires v < 32
    ensures Horner(f, v) == v
  {
    SymbolGroups(v);
    ApplyZero(f);
    XorCancels(0, 0);
    XorCancels(v, 0);
  }

  lemma SymbolGroups(v: bv32)
    requires v < 32
    ensures Group5(v) == Group4(v) == Group3(v) == Group2(v) == Group1(v) == 0 && Group0(v) == v
  {
  }

  const BASE_2: Map := Map(0x10a, 0x214, 0x121, 0x242, 0x1a4, 0x48, 0x90, 0x109, 0x212, 0x12d)
  const BASE_3: Map := Map(0x5c, 0x91, 0x10b, 0x216, 0x125, 0x3c2, 0x2a4, 0x68, 0xd0, 0x189)
  const BASE_6: Map := Map(0x9c, 0x111, 0x20b, 0x136, 0x245, 0x304, 0x328, 0x370, 0x3e9, 0x2f2)
  const ROOT1_2: Map := Map(0x1ab, 0x356, 0x3a5, 0x26a, 0x1f4, 0xcd, 0x19a, 0x31d, 0x333, 0x36f)
  const ROOT1_3: Map := Map(0x392, 0x22d, 0x17a, 0x2dd, 0xb3, 0x1dc, 0x391, 0x22b, 0x176, 0x2c5)
  const ROOT1_6: Map := Map(0x306, 0x32c, 0x378, 0x3f9, 0x2fb, 0x3d8, 0x2b9, 0x7b, 0xdf, 0x197)
  const ROOT2_2: Map := Map(0x388, 0x230, 0x169, 0x2d2, 0xad, 0x29c, 0x31, 0x4b, 0x96, 0x105)
  const ROOT2_3: Map := Map(0x2b0, 0x69, 0xd2, 0x18d, 0x31a, 0xb5, 0x143, 0x286, 0x2c, 0x58)
  const ROOT2_6: Map := Map(0x171, 0x2cb, 0xb6, 0x145, 0x28a, 0x34b, 0x3b6, 0x265, 0x1ea, 0x3d4)

  lemma BaseSquaredLow() ensures LowProduct(BASE, BASE, BASE_2) { }
  lemma BaseSquaredHigh() ensures HighProduct(BASE, BASE, BASE_2) { }
  lemma BaseCubedLow() ensures LowProduct(BASE_2, BASE, BASE_3) { }
  lemma BaseCubedHigh() ensures HighProduct(BASE_2, BASE, BASE_3) { }
  lemma BaseToSixLow() ensures LowProduct(BASE_3, BASE_3, BASE_6) { }
  lemma BaseToSixHigh() ensures HighProduct(BASE_3, BASE_3, BASE_6) { }
  lemma Root1SquaredLow() ensures LowProduct(ROOT1, ROOT1, ROOT1_2) { }
  lemma Root1SquaredHigh() ensures HighProduct(ROOT1, ROOT1, ROOT1_2) { }
  lemma Root1CubedLow() ensures LowProduct(ROOT1_2, ROOT1, ROOT1_3) { }
  lemma Root1CubedHigh() ensures HighProduct(ROOT1_2, ROOT1, ROOT1_3) { }
  lemma Root1ToSixLow() ensures LowProduct(ROOT1_3, ROOT1_3, ROOT1_6) { }
  lemma Root1ToSixHigh() ensures HighProduct(ROOT1_3, ROOT1_3, ROOT1_6) { }
  lemma Root2SquaredLow() ensures LowProduct(ROOT2, ROOT2, ROOT2_2) { }
  lemma Root2SquaredHigh() ensures HighProduct(ROOT2, ROOT2, ROOT2_2) { }
  lemma Root2CubedLow() ensures LowProduct(ROOT2_2, ROOT2, ROOT2_3) { }
  lemma Root2CubedHigh() ensures HighProduct(ROOT2_2, ROOT2, ROOT2_3) { }
  lemma Root2ToSixLow() ensures LowProduct(ROOT2_3, ROOT2_3, ROOT2_6) { }
  lemma Root2ToSixHigh() ensures HighProduct(ROOT2_3, ROOT2_3, ROOT2_6) { }
  lemma BaseTap0() ensures Horner(BASE, 0x3b6a57b2) == BASE_6.k0 { }
  lemma BaseTap1() ensures Horner(BASE, 0x26508e6d) == BASE_6.k1 { }
  lemma BaseTap2() ensures Horner(BASE, 0x1ea119fa) == BASE_6.k2 { }
  lemma BaseTap3() ensures Horner(BASE, 0x3d4233dd) == BASE_6.k3 { }
  lemma BaseTap4() ensures Horner(BASE, 0x2a1462b3) == BASE_6.k4 { }

  /** The generator vanishes at this root. */
  lemma BaseIsRoot()
    ensures Sixth(BASE, BASE_2, BASE_3, BASE_6) && Reduces(BASE, BASE_6)
  {
    BaseSquaredLow(); BaseSquaredHigh(); BaseCubedLow(); BaseCubedHigh(); BaseToSixLow(); BaseToSixHigh();
    BaseTap0(); BaseTap1(); BaseTap2(); BaseTap3(); BaseTap4();
  }

  lemma Root1Tap0() ensures Horner(ROOT1, 0x3b6a57b2) == ROOT1_6.k0 { }
  lemma Root1Tap1() ensures Horner(ROOT1, 0x26508e6d) == ROOT1_6.k1 { }
  lemma Root1Tap2() ensures Horner(ROOT1, 0x1ea119fa) == ROOT1_6.k2 { }
  lemma Root1Tap3() ensures Horner(ROOT1, 0x3d4233dd) == ROOT1_6.k3 { }
  lemma Root1Tap4() ensures Horner(ROOT1, 0x2a1462b3) == ROOT1_6.k4 { }

  /** The generator vanishes at this root. */
  lemma Root1IsRoot()
    ensures Sixth(ROOT1, ROOT1_2, ROOT1_3, ROOT1_6) && Reduces(ROOT1, ROOT1_6)
  {
    Root1SquaredLow(); Root1SquaredHigh(); Root1CubedLow(); Root1CubedHigh(); Root1ToSixLow(); Root1ToSixHigh();
    Root1Tap0(); Root1Tap1(); Root1Tap2(); Root1Tap3(); Root1Tap4();
  }

  lemma Root2Tap0() ensures Horner(ROOT2, 0x3b6a57b2) == ROOT2_6.k0 { }
  lemma Root2Tap1() ensures Horner(ROOT2, 0x26508e6d) == ROOT2_6.k1 { }
  lemma Root2Tap2() ensures Horner(ROOT2, 0x1ea119fa) == ROOT2_6.k2 { }
  lemma Root2Tap3() ensures Horner(ROOT2, 0x3d4233dd) == ROOT2_6.k3 { }
  lemma Root2Tap4() ensures Horner(ROOT2, 0x2a1462b3) == ROOT2_6.k4 { }

  /** The generator vanishes at this root. */
  lemma Root2IsRoot()
    ensures Sixth(ROOT2, ROOT2_2, ROOT2_3, ROOT2_6) && Reduces(ROOT2, ROOT2_6)
  {
    Root2SquaredLow(); Root2SquaredHigh(); Root2CubedLow(); Root2CubedHigh(); Root2ToSixLow(); Root2ToSixHigh();
    Root2Tap0(); Root2Tap1(); Root2Tap2(); Root2Tap3(); Root2Tap4();
  }

  // ---------- the order of the ratio ----------

  function TimesBase(u: bv32): bv32 { Apply(BASE, u) }

  function TimesRatio(u: bv32): bv32 { Apply(RATIO1, u) }

  function RootMap(i: nat): Map { if i == 0 then BASE else if i == 1 then ROOT1 else ROOT2 }

  function Value(i: nat, c: bv32): bv32 { Horner(RootMap(i), c) }

  const ROOTS: Roots<bv32> := Roots(REGISTER, Small, TimesBase, TimesRatio, Value)

  lemma ProductComposes(f: Map, g: Map, h: Map)
    requires Product(f, g, h)
    ensures Composes(Apply, f, g, h)
  {
    forall u ensures ComposesAt(Apply, f, g, h, u) { ApplyProduct(f, g, h, u); }
  }

  lemma Is1() ensures IsPower(ROOTS, Apply, 1, RATIO1) { PowerOne(ROOTS, Apply, RATIO1); }

  lemma Product2() ensures Composes(Apply, RATIO1, RATIO1, RATIO2) {
    Power2Low(); Power2High(); ProductComposes(RATIO1, RATIO1, RATIO2);
  }
  lemma Is2() ensures IsPower(ROOTS, Apply, 2, RATIO2) {
    Is1(); Product2(); PowerSum(ROOTS, Apply, 1, 1, 2, RATIO1, RATIO1, RATIO2);
  }
  lemma Product3() ensures Composes(Apply, RATIO2, RATIO1, RATIO3) {
    Power3Low(); Power3High(); ProductComposes(RATIO2, RATIO1, RATIO3);
  }
  lemma Is3() ensures IsPower(ROOTS, Apply, 3, RATIO3) {
    Is2(); Is1(); Product3(); PowerSum(ROOTS, Apply, 2, 1, 3, RATIO2, RATIO1, RATIO3);
  }
  lemma Product4() ensures Composes(Apply, RATIO2, RATIO2, RATIO4) {
    Power4Low(); Power4High(); ProductComposes(RATIO2, RATIO2, RATIO4);
  }
  lemma Is4() ensures IsPower(ROOTS, Apply, 4, RATIO4) {
    Is2(); Product4(); PowerSum(ROOTS, Apply, 2, 2, 4, RATIO2, RATIO2, RATIO4);
  }
  lemma Product8() ensures Composes(Apply, RATIO4, RATIO4, RATIO8) {
    Power8Low(); Power8High(); ProductComposes(RATIO4, RATIO4, RATIO8);
  }
  lemma Is8() ensures IsPower(ROOTS, Apply, 8, RATIO8) {
    Is4(); Product8(); PowerSum(ROOTS, Apply, 4, 4, 8, RATIO4, RATIO4, RATIO8);
  }
  lemma Product11() ensures Composes(Apply, RATIO8, RATIO3, RATIO11) {
    Power11Low(); Power11High(); ProductComposes(RATIO8, RATIO3, RATIO11);
  }
  lemma Is11() ensures IsPower(ROOTS, Apply, 11, RATIO11) {
    Is8(); Is3(); Product11(); PowerSum(ROOTS, Apply, 8, 3, 11, RATIO8, RATIO3, RATIO11);
  }
  lemma Product22() ensures Composes(Apply, RATIO11, RATIO11, RATIO22) {
    Power22Low(); Power22High(); ProductComposes(RATIO11, RATIO11, RATIO22);
  }
  lemma Is22() ensures IsPower(ROOTS, Apply, 22, RATIO22) {
    Is11(); Product22(); PowerSum(ROOTS, Apply, 11, 11, 22, RATIO11, RATIO11, RATIO22);
  }
  lemma Product33() ensures Composes(Apply, RATIO22, RATIO11, RATIO33) {
    Power33Low(); Power33High(); ProductComposes(RATIO22, RATIO11, RATIO33);
  }
  lemma Is33() ensures IsPower(ROOTS, Apply, 33, RATIO33) {
    Is22(); Is11(); Product33(); PowerSum(ROOTS, Apply, 22, 11, 33, RATIO22, RATIO11, RATIO33);
  }
  lemma Product30() ensures Composes(Apply, RATIO22, RATIO8, RATIO30) {
    Power30Low(); Power30High(); ProductComposes(RATIO22, RATIO8, RATIO30);
  }
  lemma Is30() ensures IsPower(ROOTS, Apply, 30, RATIO30) {
    Is22(); Is8(); Product30(); PowerSum(ROOTS, Apply, 22, 8, 30, RATIO22, RATIO8, RATIO30);
  }
  lemma Product31() ensures Composes(Apply, RATIO30, RATIO1, RATIO31) {
    Power31Low(); Power31High(); ProductComposes(RATIO30, RATIO1, RATIO31);
  }
  lemma Is31() ensures IsPower(ROOTS, Apply, 31, RATIO31) {
    Is30(); Is1(); Product31(); PowerSum(ROOTS, Apply, 30, 1, 31, RATIO30, RATIO1, RATIO31);
  }
  lemma Product62() ensures Composes(Apply, RATIO31, RATIO31, RATIO62) {
    Power62Low(); Power62High(); ProductComposes(RATIO31, RATIO31, RATIO62);
  }
  lemma Is62() ensures IsPower(ROOTS, Apply, 62, RATIO62) {
    Is31(); Product62(); PowerSum(ROOTS, Apply, 31, 31, 62, RATIO31, RATIO31, RATIO62);
  }
  lemma Product93() ensures Composes(Apply, RATIO62, RATIO31, RATIO93) {
    Power93Low(); Power93High(); ProductComposes(RATIO62, RATIO31, RATIO93);
  }
  lemma Is93() ensures IsPower(ROOTS, Apply, 93, RATIO93) {
    Is62(); Is31(); Product93(); PowerSum(ROOTS, Apply, 62, 31, 93, RATIO62, RATIO31, RATIO93);
  }
  lemma Product186() ensures Composes(Apply, RATIO93, RATIO93, RATIO186) {
    Power186Low(); Power186High(); ProductComposes(RATIO93, RATIO93, RATIO186);
  }
  lemma Is186() ensures IsPower(ROOTS, Apply, 186, RATIO186) {
    Is93(); Product186(); PowerSum(ROOTS, Apply, 93, 93, 186, RATIO93, RATIO93, RATIO186);
  }
  lemma Product279() ensures Composes(Apply, RATIO186, RATIO93, RATIO279) {
    Power279Low(); Power279High(); ProductComposes(RATIO186, RATIO93, RATIO279);
  }
  lemma Is279() ensures IsPower(ROOTS, Apply, 279, RATIO279) {
    Is186(); Is93(); Product279(); PowerSum(ROOTS, Apply, 186, 93, 279, RATIO186, RATIO93, RATIO279);
  }
  lemma Product341() ensures Composes(Apply, RATIO279, RATIO62, RATIO341) {
    Power341Low(); Power341High(); ProductComposes(RATIO279, RATIO62, RATIO341);
  }
  lemma Is341() ensures IsPower(ROOTS, Apply, 341, RATIO341) {
    Is279(); Is62(); Product341(); PowerSum(ROOTS, Apply, 279, 62, 341, RATIO279, RATIO62, RATIO341);
  }
  lemma Product682() ensures Composes(Apply, RATIO341, RATIO341, RATIO682) {
    Power682Low(); Power682High(); ProductComposes(RATIO341, RATIO341, RATIO682);
  }
  lemma Is682() ensures IsPower(ROOTS, Apply, 682, RATIO682) {
    Is341(); Product682(); PowerSum(ROOTS, Apply, 341, 341, 682, RATIO341, RATIO341, RATIO682);
  }
  lemma Product1023() ensures Composes(Apply, RATIO682, RATIO341, IDENTITY) {
    Power1023Low(); Power1023High(); ProductComposes(RATIO682, RATIO341, IDENTITY);
  }
  lemma Is1023() ensures IsPower(ROOTS, Apply, 1023, IDENTITY) {
    Is682(); Is341(); Product1023(); PowerSum(ROOTS, Apply, 682, 341, 1023, RATIO682, RATIO341, IDENTITY);
  }

  lemma NoFixedElement(d: nat, u: bv32)
    requires Small(u) && (d == 33 || d == 93 || d == 341) && ROOTS.Power(d, u) == u
    ensures u == 0
  {
    if d == 33 {
      Is33();
      PowerFixed(ROOTS, Apply, 33, RATIO33, u);
      NoFixed33(u);
    } else if d == 93 {
      Is93();
      PowerFixed(ROOTS, Apply, 93, RATIO93, u);
      NoFixed93(u);
    } else {
      Is341();
      PowerFixed(ROOTS, Apply, 341, RATIO341, u);
      NoFixed341(u);
    }
  }

  lemma OrderReached(u: bv32)
    requires Small(u)
    ensures ROOTS.Power(ORDER, u) == u
  {
    Is1023();
    PowerFixed(ROOTS, Apply, ORDER, IDENTITY, u);
    IdentityApplied(u);
  }

  lemma SeparatesLaw(d: nat, u: bv32)
    ensures ROOTS.SeparatesAt(d, u)
  {
    if 1 <= d < ORDER && Small(u) && ROOTS.Power(d, u) == u {
      OrderReached(u);
      var k := FixedByLargeDivisor(ROOTS, d, u);
      NoFixedElement(k, u);
    }
  }

  // ---------- the laws ----------

  lemma SmallMaps()
    ensures SmallMap(BASE) && SmallMap(ROOT1) && SmallMap(ROOT2) && SmallMap(RATIO1)
  {
  }

  lemma RatioOfBase(u: bv32)
    ensures TimesRatio(TimesBase(u)) == Apply(ROOT1, u) == TimesBase(TimesRatio(u))
  {
    BaseThenRatio();
    RatioThenBase();
    assert ComposesAt(Apply, RATIO1, BASE, ROOT1, u) && ComposesAt(Apply, BASE, RATIO1, ROOT1, u);
  }

  lemma BaseThenRatio() ensures Composes(Apply, RATIO1, BASE, ROOT1) {
    SecondRootLow(); SecondRootHigh(); ProductComposes(RATIO1, BASE, ROOT1);
  }
  lemma RatioThenBase() ensures Composes(Apply, BASE, RATIO1, ROOT1) {
    RootsCommuteLow(); RootsCommuteHigh(); ProductComposes(BASE, RATIO1, ROOT1);
  }
  lemma TwiceRatio() ensures Composes(Apply, RATIO1, ROOT1, ROOT2) {
    ThirdRootLow(); ThirdRootHigh(); ProductComposes(RATIO1, ROOT1, ROOT2);
  }

  lemma BaseLaw(a: bv32, b: bv32)
    ensures ROOTS.BaseAt(a, b)
  {
    if Small(a) && Small(b) {
      SmallMaps();
      ApplySmall(BASE, a);
      ApplyLinear(BASE, a, b);
      if Apply(BASE, a) == 0 { BaseInvertible(a); }
      RatioOfBase(a);
    }
  }

  lemma RatioLaw(a: bv32, b: bv32)
    ensures ROOTS.RatioAt(a, b)
  {
    if Small(a) && Small(b) {
      SmallMaps();
      SumSmall(a, b);
      ApplySmall(RATIO1, a);
      ApplyLinear(RATIO1, a, b);
      if Apply(RATIO1, a) == 0 { RatioInvertible(a); }
    }
  }

  lemma StepValue(i: nat, c: bv32)
    requires i < 3 && c < 0x40000000
    ensures Value(i, Step(c, 0)) == Apply(RootMap(i), Value(i, c))
  {
    if i == 0 {
      BaseIsRoot();
      HornerStep(BASE, BASE_2, BASE_3, BASE_6, c);
    } else if i == 1 {
      Root1IsRoot();
      HornerStep(ROOT1, ROOT1_2, ROOT1_3, ROOT1_6, c);
    } else {
      Root2IsRoot();
      HornerStep(ROOT2, ROOT2_2, ROOT2_3, ROOT2_6, c);
    }
  }

  lemma SecondIsPower(u: bv32)
    ensures Apply(ROOT1, u) == ROOTS.Power(1, TimesBase(u))
  {
    RatioOfBase(u);
    FirstPowers(ROOTS, TimesBase(u));
  }

  lemma ThirdIsPower(u: bv32)
    ensures Apply(ROOT2, u) == ROOTS.Power(2, TimesBase(u))
  {
    RatioOfBase(u);
    TwiceRatio();
    assert ComposesAt(Apply, RATIO1, ROOT1, ROOT2, u);
    FirstPowers(ROOTS, TimesBase(u));
  }

  lemma RootIsPower(i: nat, u: bv32)
    requires i < 3
    ensures Apply(RootMap(i), u) == ROOTS.Power(i, TimesBase(u))
  {
    FirstPowers(ROOTS, TimesBase(u));
    if i == 1 { SecondIsPower(u); }
    if i == 2 { ThirdIsPower(u); }
  }

  lemma ValueSmall(i: nat, c: bv32)
    ensures Small(Value(i, c))
  {
    SmallMaps();
    HornerSmall(RootMap(i), c);
  }

  lemma ValueLinear(i: nat, c: bv32, d: bv32)
    ensures Value(i, Xor(c, d)) == Xor(Value(i, c), Value(i, d))
  {
    HornerLinear(RootMap(i), c, d);
  }

  lemma ValueStepped(i: nat, c: bv32)
    requires i < 3 && c < 0x40000000
    ensures Value(i, Step(c, 0)) == ROOTS.Power(i, TimesBase(Value(i, c)))
  {
    StepValue(i, c);
    RootIsPower(i, Value(i, c));
  }

  lemma ValueLaw(i: nat, c: bv32, d: bv32)
    ensures ROOTS.ValueAt(i, c, d)
  {
    if i < 3 && Fits(6, c) && Fits(6, d) {
      ValueSmall(i, c);
      ValueLinear(i, c, d);
      ValueStepped(i, c);
    }
  }

  lemma StepFromZero(v: bv32)
    ensures Step(0, v) == v
  {
    assert Low(0) == Tap0(0) == Tap1(0) == Tap2(0) == Tap3(0) == Tap4(0) == 0;
    XorCancels(v, 0);
  }

  lemma ConstantLaw(i: nat, v: bv32)
    ensures ROOTS.ConstantAt(i, v)
  {
    if Fits(1, v) && i < 3 {
      HornerSymbol(RootMap(i), v);
      StepFromZero(v);
    }
  }

  /** The repository's register has three roots in progression whose ratio has order 1023. */
  lemma RootsLawful()
    ensures ROOTS.Lawful()
  {
    RegisterLawful();
    forall a, b, c ensures ROOTS.SumsAt(a, b, c) {
      XorCommutes(a, b);
      XorAssociates(a, b, c);
    }
    forall a, b ensures ROOTS.BaseAt(a, b) && ROOTS.RatioAt(a, b) {
      BaseLaw(a, b);
      RatioLaw(a, b);
    }
    forall d, u ensures ROOTS.SeparatesAt(d, u) { SeparatesLaw(d, u); }
    forall i, c, d ensures ROOTS.ValueAt(i, c, d) { ValueLaw(i, c, d); }
    forall i, v ensures ROOTS.ConstantAt(i, v) { ConstantLaw(i, v); }
  }

  /**
   Different lists that agree except in at most three places among 1023 consecutive ones have
   different remainders.
   */
  lemma ThreeErrorsChangeRemainder(xs: seq<Symbol>, ys: seq<Symbol>)
    requires |xs| == |ys| && FewErrors(xs, ys) && CODE.Remainder(xs) == CODE.Remainder(ys)
    ensures xs == ys
  {
    CodeLawful();
    RootsLawful();
    SameRemainder(CODE, ROOTS, xs, ys);
  }

  /** At most three wrong symbols, all within 1023 places, are always noticed. */
  lemma Bech32DetectsThreeErrors(hrp: string, xs: seq<Symbol>, ys: seq<Symbol>)
    requires |xs| == |ys| && FewErrors(xs, ys) && Verified(CODE, hrp, xs) && Verified(CODE, hrp, ys)
    ensures xs == ys
  {
    var all, all' := Expanded(hrp) + xs, Expanded(hrp) + ys;
    FewAfterPrefix(Expanded(hrp), xs, ys);
    ThreeErrorsChangeRemainder(all, all');
    assert xs == all[|Expanded(hrp)|..] && ys == all'[|Expanded(hrp)|..];
  }

  /** The same for the human-readable part: wrong letters and wrong symbols count together. */
  lemma Bech32DetectsWrongParts(g: string, xs: seq<Symbol>, h: string, ys: seq<Symbol>)
    requires Bytes(g) && Bytes(h) && |g| == |h| && |xs| == |ys| && FewErrors(Whole(g, xs), Whole(h, ys))
    requires Verified(CODE, g, xs) && Verified(CODE, h, ys)
    ensures g == h && xs == ys
  {
    CodeLawful();
    RootsLawful();
    WholeFewErrors(CODE, ROOTS, g, xs, h, ys);
  }

  /** A change within six consecutive symbols of the expanded human-readable part and the data. */
  lemma Bech32DetectsWrongBurst(g: string, xs: seq<Symbol>, h: string, ys: seq<Symbol>, k: nat)
    requires Bytes(g) && Bytes(h) && |g| == |h| && |xs| == |ys|
    requires var a, b := Whole(g, xs), Whole(h, ys); forall i | 0 <= i < |a| && !(k <= i < k + 6) :: a[i] == b[i]
    requires Verified(CODE, g, xs) && Verified(CODE, h, ys)
    ensures g == h && xs == ys
  {
    CodeLawful();
    WholeBurst(CODE, g, xs, h, ys, k);
  }

  /** One wrong letter in the human-readable part is always noticed. */
  lemma Bech32DetectsLetter(g: string, h: string, values: seq<Symbol>, i: nat)
    requires Bytes(g) && Bytes(h) && |g| == |h| < 500 && i < |g| && forall j | 0 <= j < |g| && j != i :: g[j] == h[j]
    requires Verified(CODE, g, values) && Verified(CODE, h, values)
    ensures g == h
  {
    OneLetter(g, h, values, i);
    Bech32DetectsWrongParts(g, values, h, values);
  }
}
