/**
 The mempool as the block assembler reads it: a finite dependency graph with the amounts of
 every transaction and the totals kept over its package, itself and its ancestors.
 */
module Mempools {

  type Tx = nat

  const WITNESS_SCALE_FACTOR := 4

  datatype Field = Size | Weight | SigOps | Fee | ModFee

  /** One entry; the -Anc fields are the totals kept over it and its in-mempool ancestors. */
  datatype Info = Info(
    ancestors: set<Tx>, size: int, weight: int, sigops: int, fee: int, modFee: int,
    countAnc: int, sizeAnc: int, sigopsAnc: int, modFeeAnc: int,
    txidRank: int, isFinal: bool, hasWitness: bool)

  const ABSENT := Info({}, 0, 0, 0, 0, 0, 0, 0, 0, 0, 0, false, false)

  datatype Mempool = Mempool(entries: map<Tx, Info>) {

    function At(t: Tx): Info { if t in entries then entries[t] else ABSENT }

    function Get(f: Field, t: Tx): int {
      match f
      case Size => At(t).size
      case Weight => At(t).weight
      case SigOps => At(t).sigops
      case Fee => At(t).fee
      case ModFee => At(t).modFee
    }

    function Ancestors(t: Tx): set<Tx> { At(t).ancestors }

    function Package(t: Tx): set<Tx> { Ancestors(t) + {t} }

    ghost function Sum(f: Field, s: set<Tx>): int {
      if s == {} then 0 else
        var x :| x in s;
        Get(f, x) + Sum(f, s - {x})
    }

    /** A dependency order: no cycles, and ancestors of ancestors are ancestors. */
    ghost predicate AcyclicAt(t: Tx) {
      t !in Ancestors(t) && Ancestors(t) <= entries.Keys && forall a | a in Ancestors(t) :: Ancestors(a) <= Ancestors(t)
    }

    ghost predicate AmountsAt(t: Tx) {
      Get(SigOps, t) >= 0 && Get(Size, t) > 0 && 0 <= Get(Weight, t) <= WITNESS_SCALE_FACTOR * Get(Size, t)
    }

    ghost predicate TotalsAt(t: Tx) {
      && At(t).countAnc == |Package(t)|
      && At(t).sizeAnc == Sum(Size, Package(t))
      && At(t).sigopsAnc == Sum(SigOps, Package(t))
      && At(t).modFeeAnc == Sum(ModFee, Package(t))
    }

    ghost predicate ValidAt(t: Tx) {
      t in entries ==> AcyclicAt(t) && AmountsAt(t) && TotalsAt(t)
    }

    ghost predicate Valid() {
      forall t :: ValidAt(t)
    }

    /** Everything that depends on t, and t itself. */
    function Descendants(t: Tx): set<Tx> {
      set d | d in entries && (d == t || t in Ancestors(d))
    }

    lemma {:induction false} SumRemove(f: Field, s: set<Tx>, x: Tx)
      requires x in s
      ensures Sum(f, s) == Get(f, x) + Sum(f, s - {x})
    {
      var y :| y in s && Sum(f, s) == Get(f, y) + Sum(f, s - {y});
      if y != x {
        SumRemove(f, s - {y}, x);
        SumRemove(f, s - {x}, y);
        assert s - {y} - {x} == s - {x} - {y};
      }
    }

    lemma SumAdd(f: Field, s: set<Tx>, x: Tx)
      requires x !in s
      ensures Sum(f, s + {x}) == Sum(f, s) + Get(f, x)
    {
      SumRemove(f, s + {x}, x);
      assert s + {x} - {x} == s;
    }

    lemma {:induction false} SumSplit(f: Field, a: set<Tx>, b: set<Tx>)
      requires a !! b
      ensures Sum(f, a + b) == Sum(f, a) + Sum(f, b)
    {
      if b == {} {
        assert a + b == a;
      } else {
        var x :| x in b;
        SumSplit(f, a, b - {x});
        SumRemove(f, b, x);
        SumRemove(f, a + b, x);
        assert a + b - {x} == a + (b - {x});
      }
    }

    /** A set weighs at most four times its size, and no total is negative. */
    lemma {:induction false} SumAmounts(s: set<Tx>)
      requires Valid() && s <= entries.Keys
      ensures 0 <= Sum(Weight, s) <= WITNESS_SCALE_FACTOR * Sum(Size, s)
      ensures Sum(SigOps, s) >= 0
    {
      if s != {} {
        var x :| x in s;
        SumRemove(Weight, s, x);
        SumRemove(Size, s, x);
        SumRemove(SigOps, s, x);
        assert ValidAt(x);
        SumAmounts(s - {x});
      }
    }
  }

  lemma AncestorsCountLess(m: Mempool, a: Tx, b: Tx)
    requires m.Valid() && b in m.entries && a in m.Ancestors(b)
    ensures m.At(a).countAnc < m.At(b).countAnc
  {
    assert m.ValidAt(b) && m.ValidAt(a);
    Cardinality(m.Package(a), m.Package(b), b);
  }

  lemma {:induction false} Cardinality(s: set<Tx>, t: set<Tx>, x: Tx)
    requires s <= t && x in t && x !in s
    ensures |s| < |t|
  {
    if s != {} {
      var y :| y in s;
      Cardinality(s - {y}, t - {y}, x);
    }
  }
}
