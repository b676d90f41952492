/** Powers of two, and addresses that are multiples of them. */
module Alignments {

  import opened ChunkSizes

  /** One bit of a is set. */
  predicate PowerOfTwo(a: nat) {
    a == 1 || (a > 1 && a % 2 == 0 && PowerOfTwo(a / 2))
  }

  /** Two powers of two with none in between. */
  lemma {:induction false} NoneBetween(a: nat, b: nat)
    requires PowerOfTwo(a) && PowerOfTwo(b) && a < b
    ensures 2 * a <= b
  {
    if a > 1 {
      NoneBetween(a / 2, b / 2);
    }
  }

  lemma PowerIsAligned(a: nat)
    requires PowerOfTwo(a) && a >= MIN_CHUNK_SIZE
    ensures a % 8 == 0
  {
    var b := a / 2;
    var c := b / 2;
    assert PowerOfTwo(b) && PowerOfTwo(c);
    assert a == 2 * b && b == 2 * c && c == 2 * (c / 2);
  }

  predicate AlignedTo(x: int, a: nat) {
    a > 0 && x % a == 0
  }

  /** A power of two divides any larger one. */
  lemma {:induction false} PowerDivides(a: nat, b: nat) returns (w: nat)
    requires PowerOfTwo(a) && PowerOfTwo(b) && a <= b
    ensures b == a * w
  {
    if a == 1 {
      w := b;
    } else {
      w := PowerDivides(a / 2, b / 2);
      Doubled(a / 2, b / 2, w);
    }
  }

  lemma Doubled(a: nat, b: nat, w: nat)
    requires b == a * w
    ensures 2 * b == 2 * a * w
  {
  }

  /** The largest power of two that is not above a. */
  function LargestPower(a: nat): (t: nat)
    requires a > 0
    ensures t <= a < 2 * t
  {
    if a == 1 then 1 else 2 * LargestPower(a / 2)
  }

  lemma {:induction false} LargestPowerIs(a: nat)
    requires a > 0
    ensures PowerOfTwo(LargestPower(a)) && (PowerOfTwo(a) ==> LargestPower(a) == a)
  {
    if a > 1 {
      LargestPowerIs(a / 2);
      assert 2 * LargestPower(a / 2) / 2 == LargestPower(a / 2);
    }
  }

  lemma WordIsPower(k: nat)
    requires k <= 32
    ensures PowerOfTwo(Pow2(k))
  {
  }

  /** What is added to an address, in 32-bit arithmetic, to reach the next multiple of al. */
  function StepUp(ptr: nat, al: nat): nat
    requires al > 0 && ptr <= WORD
  {
    (WORD - ptr) % al
  }

  lemma StepUpFacts(ptr: nat, al: nat)
    requires PowerOfTwo(al) && MIN_CHUNK_SIZE <= al <= 0x8000_0000 && ptr % 8 == 0 && ptr <= WORD && !AlignedTo(ptr, al)
    ensures AlignedTo(ptr + StepUp(ptr, al), al) && 8 <= StepUp(ptr, al) <= al - 8
  {
    hide PowerOfTwo, Pow2;
    WordIsPower(32);
    assert Pow2(32) == WORD by {
      Pow2Values();
    }
    PowerIsAligned(al);
    var w := PowerDivides(al, WORD);
    Upwards(ptr, al, w);
    var up := ptr + StepUp(ptr, al);
    var q := up / al;
    EightDivides(al, up);
    assert StepUp(ptr, al) != 0;
  }

  lemma Upwards(ptr: nat, al: nat, w: nat)
    requires al > 0 && WORD == al * w && ptr <= WORD
    ensures AlignedTo(ptr + StepUp(ptr, al), al) && StepUp(ptr, al) < al
  {
    var q := (WORD - ptr) / al;
    assert ptr + StepUp(ptr, al) == al * w - al * q;
    Minus(al, w, q);
    DivUnique(ptr + StepUp(ptr, al), al, w - q, 0);
  }

  lemma Minus(a: nat, w: int, q: int)
    ensures a * w - a * q == a * (w - q)
  {
  }

  lemma EightDivides(al: nat, x: nat)
    requires al > 0 && al % 8 == 0 && AlignedTo(x, al)
    ensures x % 8 == 0
  {
    var q := x / al;
    assert x == al * q;
    ByEights(al / 8, q);
  }

  lemma ByEights(c: nat, q: int)
    ensures (8 * c * q) % 8 == 0
  {
    assert 8 * c * q == 8 * (c * q);
  }
}
