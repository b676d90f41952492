/**
 Bit maps over the 32 bins of one kind.  Bit i of a map word says whether bin i
 holds any chunk.  The search primitives below are the branch-free ones of the
 allocator; each is tied to what it means for the set of marked bins.

 A bin number has two forms: a natural number below 32, which is what the rest of
 the model uses, and a bv6, the type of a shift amount for a 32-bit word.  The
 functions and lemmas ending in B use the latter; `Ix` goes from one to the other.
 */
module BinMaps {

  const NBINS: nat := 32

  // ---- words and shift amounts ---------------------------------------------

  function BitB(i: bv6): bv32
    requires i < 32
  {
    1 << i
  }

  predicate MarkedB(m: bv32, i: bv6)
    requires i < 32
  {
    (m & BitB(i)) != 0
  }

  /** Isolates the least set bit. */
  function LeastBit(x: bv32): bv32 {
    x & (0 - x)
  }

  /** All bits strictly to the left of the least set bit of x. */
  function LeftBits(x: bv32): bv32 {
    (x << 1) | (0 - (x << 1))
  }

  /** The portable (shift and mask) form of the bit-to-index conversion. */
  function BitToIdx(x: bv32): bv32 {
    var y0 := x - 1;
    var k0 := (y0 >> 12) & 16;
    var y1 := y0 >> k0;
    var k1 := (y1 >> 5) & 8;
    var y2 := y1 >> k1;
    var k2 := (y2 >> 2) & 4;
    var y3 := y2 >> k2;
    var k3 := (y3 >> 1) & 2;
    var y4 := y3 >> k3;
    var k4 := y4 & 1;
    var y5 := y4 >> k4;
    k0 + k1 + k2 + k3 + k4 + y5
  }

  function ShiftedB(m: bv32, i: bv6): bv32
    requires i < 32
  {
    m >> i
  }

  function UnshiftedB(s: bv32, i: bv6): bv32
    requires i < 32
  {
    (s << i) & LeftBits(BitB(i))
  }

  lemma MarkB(m: bv32, i: bv6, j: bv6)
    requires i < 32 && j < 32
    ensures MarkedB(m | BitB(i), j) <==> j == i || MarkedB(m, j)
  {
    if i != j {
      assert BitB(i) & BitB(j) == 0;
      assert (m | BitB(i)) & BitB(j) == m & BitB(j);
    }
  }

  lemma ClearB(m: bv32, i: bv6, j: bv6)
    requires i < 32 && j < 32
    ensures MarkedB(m & !BitB(i), j) <==> j != i && MarkedB(m, j)
  {
  }

  lemma LeastB(x: bv32, j: bv6)
    requires x != 0 && j < 32
    ensures BitToIdx(LeastBit(x)) < 32
    ensures MarkedB(x, BitToIdx(LeastBit(x)) as bv6)
    ensures j < BitToIdx(LeastBit(x)) as bv6 ==> !MarkedB(x, j)
  {
  }

  lemma LeftB(i: bv6, j: bv6)
    requires i < 32 && j < 32
    ensures MarkedB(LeftBits(BitB(i)), j) <==> j > i
  {
  }

  lemma BothB(m: bv32, w: bv32, j: bv6)
    requires j < 32
    ensures MarkedB(m & w, j) <==> MarkedB(m, j) && MarkedB(w, j)
  {
  }

  lemma ShiftedFirstB(m: bv32, i: bv6)
    requires i < 31
    ensures ShiftedB(m, i) & 1 != 0 <==> MarkedB(m, i)
    ensures ShiftedB(m, i) & 2 != 0 <==> MarkedB(m, i + 1)
    ensures !ShiftedB(m, i) & 1 == if MarkedB(m, i) then 0 else 1
  {
  }

  lemma ShiftedLastB(m: bv32)
    ensures ShiftedB(m, 31) & 1 != 0 <==> MarkedB(m, 31)
    ensures ShiftedB(m, 31) & 2 == 0
    ensures !ShiftedB(m, 31) & 1 == if MarkedB(m, 31) then 0 else 1
  {
  }

  lemma ShiftedLowB(m: bv32, i: bv6)
    requires i < 32
    ensures ShiftedB(m, i) & 1 != 0 <==> MarkedB(m, i)
    ensures ShiftedB(m, i) & 2 != 0 <==> i < 31 && MarkedB(m, i + 1)
    ensures !ShiftedB(m, i) & 1 == if MarkedB(m, i) then 0 else 1
  {
    hide MarkedB, ShiftedB;
    if i < 31 {
      ShiftedFirstB(m, i);
    } else {
      assert i == 31;
      ShiftedLastB(m);
    }
  }

  lemma LowBits(s: bv32)
    ensures s & 3 != 0 <==> s & 1 != 0 || s & 2 != 0
  {
  }

  lemma ShiftedBackB(m: bv32, i: bv6)
    requires i < 32
    ensures UnshiftedB(ShiftedB(m, i), i) == m & LeftBits(BitB(i))
  {
  }

  lemma ShiftedZeroB(m: bv32, i: bv6, j: bv6)
    requires i <= j < 32
    ensures ShiftedB(m, i) == 0 ==> !MarkedB(m, j)
  {
  }

  lemma ShiftedMarkB(m: bv32, i: bv6, k: bv6)
    requires i < 32 && k < 32 && MarkedB(ShiftedB(m, i), k)
    ensures i <= i + k < 32 && MarkedB(m, i + k)
  {
  }

  lemma ShiftedNonzeroB(m: bv32, i: bv6) returns (j: bv6)
    requires i < 32 && ShiftedB(m, i) != 0
    ensures i <= j < 32 && MarkedB(m, j)
  {
    hide *;
    LeastB(ShiftedB(m, i), 0);
    var k := BitToIdx(LeastBit(ShiftedB(m, i))) as bv6;
    ShiftedMarkB(m, i, k);
    j := i + k;
  }

  // ---- from bin numbers to shift amounts -----------------------------------

  /** Bin number i as a shift amount. */
  function Ix(i: nat): bv6
    requires i < NBINS
  {
    if i == 0 then 0 else Ix(i - 1) + 1
  }

  lemma {:induction false} IxValue(i: nat)
    requires i < NBINS
    ensures Ix(i) as nat == i
  {
    if i != 0 {
      IxValue(i - 1);
      SameOrder(Ix(i - 1), 31);
      Successor(Ix(i - 1));
    }
  }

  lemma Successor(b: bv6)
    requires b < 31
    ensures (b + 1) as nat == b as nat + 1
  {
  }

  lemma SameOrder(a: bv6, b: bv6)
    ensures a < b <==> a as nat < b as nat
  {
  }

  lemma SameValue(a: bv6, b: bv6)
    requires a as nat == b as nat
    ensures a == b
  {
  }

  lemma Narrow(x: bv32)
    requires x < 32
    ensures (x as bv6) as nat == x as nat < NBINS
  {
  }

  lemma IxFits(i: nat)
    requires i < NBINS
    ensures Ix(i) < 32 && (i < 31 <==> Ix(i) < 31)
    ensures i < 31 ==> Ix(i + 1) == Ix(i) + 1
  {
    IxValue(i);
    SameOrder(Ix(i), 32);
    SameOrder(Ix(i), 31);
  }

  lemma IxOrder(i: nat, j: nat)
    requires i < NBINS && j < NBINS
    ensures Ix(i) == Ix(j) <==> i == j
    ensures Ix(i) < Ix(j) <==> i < j
  {
    IxValue(i);
    IxValue(j);
    SameOrder(Ix(i), Ix(j));
  }

  lemma IxOf(b: bv6)
    requires b < 32
    ensures b as nat < NBINS && Ix(b as nat) == b
  {
    SameOrder(b, 32);
    IxValue(b as nat);
    SameValue(Ix(b as nat), b);
  }

  // ---- the operations on bin numbers ---------------------------------------

  /** Bin i is marked as non-empty. */
  predicate Marked(m: bv32, i: nat)
    requires i < NBINS
  {
    IxFits(i);
    MarkedB(m, Ix(i))
  }

  function IdxToBit(i: nat): bv32
    requires i < NBINS
  {
    IxFits(i);
    BitB(Ix(i))
  }

  function Mark(m: bv32, i: nat): bv32
    requires i < NBINS
  {
    m | IdxToBit(i)
  }

  function Clear(m: bv32, i: nat): bv32
    requires i < NBINS
  {
    m & !IdxToBit(i)
  }

  /** Marking bin i changes the answer for bin i and for no other bin. */
  lemma MarkOne(m: bv32, i: nat)
    requires i < NBINS
    ensures forall j: nat | j < NBINS :: Marked(Mark(m, i), j) <==> j == i || Marked(m, j)
  {
    hide MarkedB, BitB, Ix;
    forall j: nat | j < NBINS
      ensures Marked(Mark(m, i), j) <==> j == i || Marked(m, j)
    {
      IxOrder(i, j);
      IxFits(i);
      IxFits(j);
      MarkB(m, Ix(i), Ix(j));
    }
  }

  /** Clearing bin i changes the answer for bin i and for no other bin. */
  lemma ClearOne(m: bv32, i: nat)
    requires i < NBINS
    ensures forall j: nat | j < NBINS :: Marked(Clear(m, i), j) <==> j != i && Marked(m, j)
  {
    hide MarkedB, BitB, Ix;
    forall j: nat | j < NBINS
      ensures Marked(Clear(m, i), j) <==> j != i && Marked(m, j)
    {
      IxOrder(i, j);
      IxFits(i);
      IxFits(j);
      ClearB(m, Ix(i), Ix(j));
    }
  }

  /** Number of the least marked bin, as the allocator computes it. */
  function LeastMarked(x: bv32): (i: nat)
    requires x != 0
    ensures i < NBINS && Marked(x, i)
    ensures forall j: nat | j < i :: !Marked(x, j)
  {
    LeastMarkedSpec(x);
    BitToIdx(LeastBit(x)) as nat
  }

  lemma LeastMarkedSpec(x: bv32)
    requires x != 0
    ensures BitToIdx(LeastBit(x)) as nat < NBINS
    ensures Marked(x, BitToIdx(LeastBit(x)) as nat)
    ensures forall j: nat | j < BitToIdx(LeastBit(x)) as nat :: !Marked(x, j)
  {
    hide MarkedB, BitB, Ix, BitToIdx, LeastBit;
    LeastB(x, 0);
    var b := BitToIdx(LeastBit(x)) as bv6;
    var i := b as nat;
    Narrow(BitToIdx(LeastBit(x)));
    IxOf(b);
    forall j: nat | j < i
      ensures !Marked(x, j)
    {
      IxOrder(j, i);
      IxFits(j);
      LeastB(x, Ix(j));
    }
  }

  /** A word is zero exactly when no bin is marked. */
  lemma ZeroMap(x: bv32)
    ensures x == 0 <==> forall j: nat | j < NBINS :: !Marked(x, j)
  {
    if x != 0 {
      LeastMarkedSpec(x);
    }
  }

  /** The marked bins strictly above bin i. */
  function Above(m: bv32, i: nat): bv32
    requires i < NBINS
  {
    m & LeftBits(IdxToBit(i))
  }

  lemma MarkedAboveAt(m: bv32, i: nat, j: nat)
    requires i < NBINS && j < NBINS
    ensures Marked(Above(m, i), j) <==> j > i && Marked(m, j)
  {
    hide MarkedB, BitB, Ix, LeftBits;
    IxOrder(i, j);
    IxFits(i);
    IxFits(j);
    LeftB(Ix(i), Ix(j));
    BothB(m, LeftBits(IdxToBit(i)), Ix(j));
  }

  /** Masking with the left bits of bin i keeps exactly the marked bins above i. */
  lemma MarkedAbove(m: bv32, i: nat)
    requires i < NBINS
    ensures forall j: nat | j < NBINS :: Marked(Above(m, i), j) <==> j > i && Marked(m, j)
  {
    hide *;
    forall j: nat | j < NBINS
      ensures Marked(Above(m, i), j) <==> j > i && Marked(m, j)
    {
      MarkedAboveAt(m, i, j);
    }
  }

  // ---- the shifted small-bin map -------------------------------------------

  /** The map of small bins shifted so that bin i comes first. */
  function Shifted(m: bv32, i: nat): bv32
    requires i < NBINS
  {
    IxFits(i);
    ShiftedB(m, Ix(i))
  }

  /** Undoing the shift, and dropping bin i itself. */
  function Unshifted(s: bv32, i: nat): bv32
    requires i < NBINS
  {
    IxFits(i);
    UnshiftedB(s, Ix(i))
  }

  /** One of the two low bits is set. */
  predicate LowTwo(s: bv32) {
    s & 3 != 0
  }

  /** 1 if the low bit is clear, to go on to the next bin. */
  function LowClear(s: bv32): nat {
    if !s & 1 == 0 then 0 else 1
  }

  lemma ShiftedLow(m: bv32, i: nat)
    requires i < NBINS
    ensures LowTwo(Shifted(m, i)) <==> Marked(m, i) || (i + 1 < NBINS && Marked(m, i + 1))
    ensures LowClear(Shifted(m, i)) == if Marked(m, i) then 0 else 1
  {
    hide MarkedB, BitB, Ix, ShiftedB;
    IxFits(i);
    if i + 1 < NBINS {
      IxFits(i + 1);
    }
    ShiftedLowB(m, Ix(i));
    LowBits(ShiftedB(m, Ix(i)));
  }

  lemma ShiftedBack(m: bv32, i: nat)
    requires i < NBINS
    ensures Unshifted(Shifted(m, i), i) == Above(m, i)
  {
    hide BitB, Ix, ShiftedB, UnshiftedB, LeftBits;
    IxFits(i);
    ShiftedBackB(m, Ix(i));
  }

  lemma ShiftedZero(m: bv32, i: nat, j: nat)
    requires i <= j < NBINS
    ensures Shifted(m, i) == 0 ==> !Marked(m, j)
  {
    hide MarkedB, BitB, Ix, ShiftedB;
    IxFits(i);
    IxFits(j);
    IxOrder(j, i);
    ShiftedZeroB(m, Ix(i), Ix(j));
  }

  lemma ShiftedNonzero(m: bv32, i: nat) returns (j: nat)
    requires i < NBINS && Shifted(m, i) != 0
    ensures i <= j < NBINS && Marked(m, j)
  {
    hide MarkedB, BitB, Ix, ShiftedB;
    IxFits(i);
    var b := ShiftedNonzeroB(m, Ix(i));
    IxOf(b);
    j := b as nat;
    IxOrder(j, i);
  }

  /**
   What the small-request path reads off the shifted map: its two low bits are
   bins i and i + 1, it is zero exactly when nothing from bin i on is marked, and
   shifting back and masking leaves the marked bins above i.
   */
  lemma ShiftedMap(m: bv32, i: nat)
    requires i < NBINS
    ensures LowTwo(Shifted(m, i)) <==> Marked(m, i) || (i + 1 < NBINS && Marked(m, i + 1))
    ensures LowClear(Shifted(m, i)) == if Marked(m, i) then 0 else 1
    ensures Shifted(m, i) == 0 <==> forall j: nat | i <= j < NBINS :: !Marked(m, j)
    ensures Unshifted(Shifted(m, i), i) == Above(m, i)
  {
    hide *;
    ShiftedLow(m, i);
    ShiftedBack(m, i);
    if Shifted(m, i) != 0 {
      var j := ShiftedNonzero(m, i);
    }
    forall j: nat | i <= j < NBINS
      ensures Shifted(m, i) == 0 ==> !Marked(m, j)
    {
      ShiftedZero(m, i, j);
    }
  }
}
