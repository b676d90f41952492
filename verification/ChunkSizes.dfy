/**
 Chunk sizes and the arithmetic that sends a size to a tree bin.

 Sizes are 32-bit unsigned words, modelled as natural numbers below 2^32; every
 place where the word wraps is written out with Wrap.
 */
module ChunkSizes {

  const WORD: nat := 0x1_0000_0000
  const MIN_CHUNK_SIZE: nat := 16
  const CHUNK_OVERHEAD: nat := 4
  const MIN_LARGE_SIZE: nat := 256
  const NTREEBINS: nat := 32

  function Wrap(x: int): (w: nat)
    ensures w < WORD
  {
    x % WORD
  }

  // ---- powers of two -------------------------------------------------------

  function Pow2(e: nat): (r: nat)
    ensures r > 0
  {
    if e == 0 then 1 else 2 * Pow2(e - 1)
  }

  lemma {:induction false} Pow2Add(a: nat, b: nat)
    ensures Pow2(a + b) == Pow2(a) * Pow2(b)
  {
    if a != 0 {
      Pow2Add(a - 1, b);
    }
  }

  lemma Pow2Values()
    ensures Pow2(3) == 8 && Pow2(7) == 128 && Pow2(8) == 256 && Pow2(9) == 512
    ensures Pow2(10) == 0x400 && Pow2(11) == 0x800 && Pow2(12) == 0x1000 && Pow2(13) == 0x2000
    ensures Pow2(14) == 0x4000 && Pow2(15) == 0x8000 && Pow2(16) == 0x1_0000
    ensures Pow2(17) == 0x2_0000 && Pow2(18) == 0x4_0000 && Pow2(19) == 0x8_0000
    ensures Pow2(20) == 0x10_0000 && Pow2(21) == 0x20_0000 && Pow2(22) == 0x40_0000
    ensures Pow2(23) == 0x80_0000 && Pow2(24) == 0x100_0000 && Pow2(31) == 0x8000_0000
    ensures Pow2(32) == WORD
  {
  }

  // ---- prefixes of a size --------------------------------------------------

  /** The bits of s from bit e upwards. */
  function Prefix(s: nat, e: nat): nat {
    DivNat(s, Pow2(e));
    s / Pow2(e)
  }

  lemma DivNat(s: nat, d: nat)
    requires d > 0
    ensures s / d >= 0
  {
  }

  /** Bit e of s. */
  function BitAt(s: nat, e: nat): (b: nat)
    ensures b < 2
  {
    Prefix(s, e) % 2
  }

  lemma PrefixStep(s: nat, e: nat)
    ensures Prefix(s, e) == 2 * Prefix(s, e + 1) + BitAt(s, e)
  {
    HalveTwice(s, Pow2(e));
  }

  lemma HalveTwice(s: nat, p: nat)
    requires p > 0
    ensures s / (2 * p) == s / p / 2
  {
    var q, r := s / p, s % p;
    var h := q / 2;
    Expand(s, p, h, q, r);
    DivUnique(s, 2 * p, h, s - 2 * p * h);
  }

  lemma Expand(s: nat, p: nat, h: nat, q: nat, r: nat)
    requires s == p * q + r && 0 <= r < p && 2 * h <= q <= 2 * h + 1
    ensures 0 <= s - 2 * p * h < 2 * p
  {
    assert 2 * p * h == p * (2 * h);
    if q == 2 * h {
    } else {
      MulNext(p, 2 * h);
    }
  }

  lemma MulOrder(d: nat, a: int, b: int)
    requires a <= b
    ensures d * a <= d * b
  {
  }

  lemma MulNext(d: nat, a: int)
    ensures d * (a + 1) == d * a + d
  {
  }

  lemma QuotientsAgree(d: nat, q: int, r: int, q': int, r': int)
    requires 0 <= r < d && 0 <= r' < d && d * q + r == d * q' + r'
    ensures q == q' && r == r'
  {
    if q < q' {
      MulOrder(d, q + 1, q');
      MulNext(d, q);
    } else if q' < q {
      MulOrder(d, q' + 1, q);
      MulNext(d, q');
    }
  }

  lemma DivUnique(s: nat, d: nat, q: int, r: int)
    requires d > 0 && 0 <= r < d && s == d * q + r
    ensures s / d == q && s % d == r
  {
    QuotientsAgree(d, q, r, s / d, s % d);
  }

  lemma DivOrder(d: nat, s: nat, t: nat)
    requires d > 0 && s / d < t / d
    ensures s < t
  {
    var a, b := s / d, t / d;
    MulOrder(d, a + 1, b);
    MulNext(d, a);
    assert s == d * a + s % d && t == d * b + t % d;
  }

  /** Sizes with different prefixes are ordered as their prefixes. */
  lemma PrefixOrder(s: nat, t: nat, e: nat)
    requires Prefix(s, e) < Prefix(t, e)
    ensures s < t
  {
    DivOrder(Pow2(e), s, t);
  }

  /** Equal prefixes stay equal when they get shorter. */
  lemma {:induction false} PrefixUp(s: nat, t: nat, e: nat, f: nat)
    requires e <= f && Prefix(s, e) == Prefix(t, e)
    ensures Prefix(s, f) == Prefix(t, f)
    decreases f - e
  {
    if e < f {
      PrefixStep(s, e);
      PrefixStep(t, e);
      PrefixUp(s, t, e + 1, f);
    }
  }

  /** Sizes are multiples of 8, so three levels above the bottom they are told apart. */
  lemma PrefixDistinct(s: nat, t: nat, e: nat)
    requires s % 8 == 0 && t % 8 == 0 && s != t && Prefix(s, e) == Prefix(t, e)
    ensures e >= 4
  {
    if e < 4 {
      PrefixUp(s, t, e, 3);
      Pow2Values();
    }
  }

  // ---- the bit that steers a walk ------------------------------------------

  /** The key of a walk that still has e bits of s to look at, as a 32-bit word. */
  function WalkKey(s: nat, e: nat): (k: nat)
    requires e <= 32
    ensures k < WORD
  {
    Wrap(s * Pow2(32 - e))
  }

  lemma ScaledSplit(s: nat, a: nat, b: nat) returns (r: nat)
    requires a > 0 && b > 0 && a * b == 0x8000_0000
    ensures r < 0x8000_0000 && s * a == 0x8000_0000 * (s / b) + r
  {
    var q, t := s / b, s % b;
    assert s == b * q + t;
    r := a * t;
    assert s * a == (b * q + t) * a == (a * b) * q + r by {
      assert (b * q) * a == (a * b) * q;
    }
    MulOrder(a, t + 1, b);
    MulNext(a, t);
  }

  /** The top bit of the walk key is bit e - 1 of s. */
  lemma WalkKeyBit(s: nat, e: nat)
    requires 1 <= e <= 32
    ensures WalkKey(s, e) / 0x8000_0000 == BitAt(s, e - 1)
  {
    var a, b := Pow2(32 - e), Pow2(e - 1);
    assert a * b == 0x8000_0000 by {
      Pow2Add(32 - e, e - 1);
      Pow2Values();
    }
    var r := ScaledSplit(s, a, b);
    var q := s / b;
    var h := q / 2;
    assert s * a == WORD * h + (0x8000_0000 * (q % 2) + r);
    DivUnique(s * a, WORD, h, 0x8000_0000 * (q % 2) + r);
  }

  /** Shifting the walk key left by one moves on to the next bit. */
  lemma WalkKeyShift(s: nat, e: nat)
    requires 1 <= e <= 32
    ensures Wrap(2 * WalkKey(s, e)) == WalkKey(s, e - 1)
  {
    var x := s * Pow2(32 - e);
    assert s * Pow2(33 - e) == 2 * x by {
      assert Pow2(33 - e) == 2 * Pow2(32 - e);
      assert s * (2 * Pow2(32 - e)) == 2 * (s * Pow2(32 - e));
    }
    assert x == WORD * (x / WORD) + x % WORD;
    var y := 2 * (x % WORD);
    assert 2 * x == WORD * (2 * (x / WORD)) + y;
    assert y == WORD * (y / WORD) + y % WORD;
    assert 2 * x == WORD * (2 * (x / WORD) + y / WORD) + y % WORD;
    DivUnique(2 * x, WORD, 2 * (x / WORD) + y / WORD, y % WORD);
  }

  // ---- tree bins -----------------------------------------------------------

  /** Smallest size held in tree bin i. */
  function MinSizeForTreeIndex(i: nat): nat {
    Pow2(i / 2 + 8) + (i % 2) * Pow2(i / 2 + 7)
  }

  /** Number of size bits that the trie of bin i resolves: its root spans 2^level sizes. */
  function RootLevel(i: nat): nat {
    if i == NTREEBINS - 1 then 32 else i / 2 + 7
  }

  /** Shift that brings the highest resolved bit of bin i to the sign bit. */
  function LeftShiftForTreeIndex(i: nat): nat
    requires i < NTREEBINS
  {
    if i == NTREEBINS - 1 then 0 else 31 - (i / 2 + 8 - 2)
  }

  /** ((y - c) >> 16) & mask, on 32-bit words, for a mask of one bit. */
  function Borrow(y: nat, c: nat, mask: nat): (n: nat)
    requires y < 0x1_0000 && 0 < c <= 0x1_0000 && mask in {2, 4, 8}
    ensures n == if y < c then mask else 0
  {
    var high := Wrap(y - c) / 0x1_0000;
    high / mask % 2 * mask
  }

  /** A left shift by one of the amounts that Borrow yields. */
  function ShiftLeft(y: nat, n: nat): nat
    requires n in {0, 2, 4, 8}
  {
    y * (if n == 0 then 1 else if n == 2 then 4 else if n == 4 then 16 else 256)
  }

  /** The even shift that brings the top bit of a 16-bit x to bit 14 or bit 15. */
  function LeadingShift(x: nat): (r: (nat, nat))
    requires 1 <= x < 0x1_0000
    ensures r.0 <= 14 && 0x4000 <= r.1 < 0x1_0000
    ensures r.1 == x * Pow2(r.0)
  {
    Pow2Small();
    var n0 := Borrow(x, 0x100, 8);
    var y0 := ShiftLeft(x, n0);
    var k1 := Borrow(y0, 0x1000, 4);
    var y1 := ShiftLeft(y0, k1);
    var k2 := Borrow(y1, 0x4000, 2);
    var y2 := ShiftLeft(y1, k2);
    (n0 + k1 + k2, y2)
  }

  lemma Pow2Small()
    ensures Pow2(0) == 1 && Pow2(2) == 4 && Pow2(4) == 16 && Pow2(6) == 64
    ensures Pow2(8) == 256 && Pow2(10) == 1024 && Pow2(12) == 4096 && Pow2(14) == 16384
  {
  }

  /** The portable bin computation, with its shifts and borrows. */
  function ComputeTreeIndex(s: nat): (i: nat)
    requires s < WORD
  {
    var x := s / 256;
    if x == 0 then 0
    else if x > 0xFFFF then NTREEBINS - 1
    else
      var (n, y) := LeadingShift(x);
      var k := 14 - n + y / 0x8000;
      2 * k + BitAt(s, k + 7)
  }

  lemma MulCancel(d: nat, a: int, b: int)
    requires a * d < b * d
    ensures a < b
  {
  }

  lemma MulCancelLe(d: nat, a: int, b: int)
    requires a * d <= b * d && d > 0
    ensures a <= b
  {
    assert (a - 1) * d == a * d - d;
    MulCancel(d, a - 1, b);
  }

  lemma BitLength(x: nat, n: nat, k: nat)
    requires n + k <= 15
    requires Pow2(n + k) <= x * Pow2(n) < Pow2(n + k + 1)
    ensures Pow2(k) <= x < Pow2(k + 1)
  {
    hide *;
    Pow2Add(k, n);
    Pow2Add(k + 1, n);
    MulCancel(Pow2(n), x, Pow2(k + 1));
    MulCancelLe(Pow2(n), Pow2(k), x);
  }

  lemma TopBit(x: nat)
    requires 1 <= x < 0x1_0000
    ensures var (n, y) := LeadingShift(x);
            var k := 14 - n + y / 0x8000;
            0 <= k <= 15 && Pow2(k) <= x < Pow2(k + 1)
  {
    hide *;
    var (n, y) := LeadingShift(x);
    var k := 14 - n + y / 0x8000;
    Pow2Values();
    BitLength(x, n, k);
  }

  /** Which half of its doubling a size is in. */
  lemma HalfOf(s: nat, e: nat, q: nat)
    requires q in {2, 3} && q * Pow2(e) <= s < (q + 1) * Pow2(e)
    ensures Prefix(s, e) == q && BitAt(s, e) == q - 2
  {
    hide Pow2;
    var p := Pow2(e);
    if q == 2 {
      DivUnique(s, p, 2, s - 2 * p);
    } else {
      DivUnique(s, p, 3, s - 3 * p);
    }
  }

  lemma Doubled(k: nat)
    ensures Pow2(k + 8) == 2 * Pow2(k + 7) && Pow2(k + 9) == 4 * Pow2(k + 7)
  {
    assert Pow2(k + 9) == 2 * Pow2(k + 8);
  }

  lemma Times256(k: nat)
    ensures 256 * Pow2(k) == 2 * Pow2(k + 7) && 256 * Pow2(k + 1) == 4 * Pow2(k + 7)
  {
    assert Pow2(k + 1) == 2 * Pow2(k);
    hide Pow2;
    assert Pow2(7) == 128 by { Pow2Values(); }
    Pow2Add(k, 7);
  }

  lemma Halves(k: nat)
    ensures 2 * k / 2 == k && 2 * k % 2 == 0 && (2 * k + 1) / 2 == k && (2 * k + 1) % 2 == 1
    ensures (2 * k + 2) / 2 == k + 1 && (2 * k + 2) % 2 == 0
  {
  }

  lemma HalfBounds(k: nat)
    ensures MinSizeForTreeIndex(2 * k) == 2 * Pow2(k + 7) && MinSizeForTreeIndex(2 * k + 1) == 3 * Pow2(k + 7)
    ensures MinSizeForTreeIndex(2 * k + 2) == 4 * Pow2(k + 7)
  {
    Doubled(k);
    Halves(k);
    hide Pow2;
  }

  lemma BinOfDoubling(s: nat, k: nat)
    requires 256 * Pow2(k) <= s < 256 * Pow2(k + 1)
    ensures var i := 2 * k + BitAt(s, k + 7);
            && MinSizeForTreeIndex(i) <= s < MinSizeForTreeIndex(i + 1)
            && Prefix(s, k + 7) == 2 + i % 2
  {
    hide *;
    Times256(k);
    HalfBounds(k);
    Halves(k);
    if s < 3 * Pow2(k + 7) {
      HalfOf(s, k + 7, 2);
    } else {
      HalfOf(s, k + 7, 3);
    }
  }

  /** The facts about the bin of a size that the trie relies on. */
  ghost predicate InBin(s: nat, i: nat) {
    && i < NTREEBINS
    && MinSizeForTreeIndex(i) <= s
    && (i < NTREEBINS - 1 ==> s < MinSizeForTreeIndex(i + 1))
    && Prefix(s, RootLevel(i)) == if i < NTREEBINS - 1 then 2 + i % 2 else 0
  }

  lemma LastBin(s: nat)
    requires 0x100_0000 <= s < WORD
    ensures InBin(s, NTREEBINS - 1)
  {
    Pow2Values();
  }

  lemma EarlierBin(s: nat, x: nat)
    requires x == s / 256 && 1 <= x <= 0xFFFF
    ensures var (n, y) := LeadingShift(x);
            var k := 14 - n + y / 0x8000;
            0 <= k <= 15 && InBin(s, 2 * k + BitAt(s, k + 7))
  {
    hide LeadingShift, Borrow, ShiftLeft, Pow2, BitAt, Prefix, MinSizeForTreeIndex;
    TopBit(x);
    var (n, y) := LeadingShift(x);
    var k := 14 - n + y / 0x8000;
    BinOfDoubling(s, k);
    var i := 2 * k + BitAt(s, k + 7);
    if i == 31 {
      DivUnique(s, WORD, 0, s);
      assert Pow2(32) == WORD by { Pow2Values(); }
      PrefixZero(s);
    }
  }

  lemma PrefixZero(s: nat)
    requires s < WORD
    ensures Prefix(s, 32) == 0
  {
    Pow2Values();
  }

  /**
   The branch-free computation puts every large size into the bin whose range it
   belongs to; the last bin is open-ended.
   */
  lemma TreeIndexBounds(s: nat)
    requires MIN_LARGE_SIZE <= s < WORD
    ensures InBin(s, ComputeTreeIndex(s))
  {
    hide LeadingShift, Borrow, ShiftLeft, Pow2, BitAt, InBin;
    var x := s / 256;
    if x <= 0xFFFF {
      EarlierBin(s, x);
    } else {
      LastBin(s);
    }
  }

  lemma {:induction false} MinSizeOrder(i: nat, j: nat)
    requires i <= j
    ensures MinSizeForTreeIndex(i) <= MinSizeForTreeIndex(j)
    decreases j - i
  {
    hide Pow2, MinSizeForTreeIndex;
    if i < j {
      HalfBounds(i / 2);
      assert i == 2 * (i / 2) || i == 2 * (i / 2) + 1;
      MinSizeOrder(i + 1, j);
    }
  }

  /** Larger sizes never go to an earlier bin. */
  lemma TreeIndexOrder(s: nat, t: nat)
    requires MIN_LARGE_SIZE <= s <= t < WORD
    ensures ComputeTreeIndex(s) <= ComputeTreeIndex(t)
  {
    hide ComputeTreeIndex, MinSizeForTreeIndex, Prefix;
    TreeIndexBounds(s);
    TreeIndexBounds(t);
    if ComputeTreeIndex(t) < ComputeTreeIndex(s) {
      MinSizeOrder(ComputeTreeIndex(t) + 1, ComputeTreeIndex(s));
    }
  }

  /** Two sizes of one bin agree on all bits that the trie of the bin does not resolve. */
  lemma SameBinPrefix(s: nat, t: nat)
    requires MIN_LARGE_SIZE <= s < WORD && MIN_LARGE_SIZE <= t < WORD
    requires ComputeTreeIndex(s) == ComputeTreeIndex(t)
    ensures Prefix(s, RootLevel(ComputeTreeIndex(s))) == Prefix(t, RootLevel(ComputeTreeIndex(s)))
  {
    hide ComputeTreeIndex, MinSizeForTreeIndex, Prefix;
    TreeIndexBounds(s);
    TreeIndexBounds(t);
  }

  /** The first walk key is the size shifted left as the bin prescribes. */
  lemma FirstWalkKey(s: nat)
    requires MIN_LARGE_SIZE <= s < WORD
    ensures var i := ComputeTreeIndex(s);
            && 7 <= RootLevel(i) <= 32
            && WalkKey(s, RootLevel(i)) == Wrap(s * Pow2(LeftShiftForTreeIndex(i)))
  {
  }

  // ---- requests ------------------------------------------------------------

  /** Rounds a request up to a usable chunk size. */
  function PadRequest(bytes: nat): nat {
    (bytes + CHUNK_OVERHEAD + 7) / 8 * 8
  }

  /** The padded size of a request, with the minimum applied. */
  function RequestToSize(bytes: nat): (nb: nat)
    ensures nb % 8 == 0 && nb >= MIN_CHUNK_SIZE
    ensures bytes + CHUNK_OVERHEAD <= nb
    ensures bytes >= 11 ==> nb < bytes + CHUNK_OVERHEAD + 8
    ensures bytes < 11 ==> nb == MIN_CHUNK_SIZE
  {
    if bytes < 11 then MIN_CHUNK_SIZE else PadRequest(bytes)
  }
}
