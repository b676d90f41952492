/**
 SHA-1 as it is defined in FIPS PUB 180-1: the schedule of 80 words, the round function,
 the padding, and the digest of a whole message.
 */
module Sha1Spec {

  datatype Regs = Regs(a: bv32, b: bv32, c: bv32, d: bv32, e: bv32)

  function Rol1(x: bv32): bv32 {
    (x << 1) | (x >> 31)
  }

  function Rol5(x: bv32): bv32 {
    (x << 5) | (x >> 27)
  }

  function Rol30(x: bv32): bv32 {
    (x << 30) | (x >> 2)
  }

  // ---- section 5: the functions and constants of the rounds ----------------

  function F(t: nat, b: bv32, c: bv32, d: bv32): bv32 {
    if t < 20 then (b & c) | (!b & d)
    else if t < 40 then b ^ c ^ d
    else if t < 60 then (b & c) | (b & d) | (c & d)
    else b ^ c ^ d
  }

  function K(t: nat): bv32 {
    if t < 20 then 0x5A827999 else if t < 40 then 0x6ED9EBA1 else if t < 60 then 0x8F1BBCDC else 0xCA62C1D6
  }

  // ---- section 7: one block ------------------------------------------------

  /** Word t of the schedule of a block of 16 words. */
  function W(block: seq<bv32>, t: nat): bv32
    requires |block| == 16
  {
    if t < 16 then block[t]
    else Rol1(Xor4(W(block, t - 3), W(block, t - 8), W(block, t - 14), W(block, t - 16)))
  }

  function Xor4(x: bv32, y: bv32, z: bv32, w: bv32): bv32 {
    x ^ y ^ z ^ w
  }

  function Sum5(r: bv32, f: bv32, e: bv32, w: bv32, k: bv32): bv32 {
    r + f + e + w + k
  }

  function Round(block: seq<bv32>, r: Regs, t: nat): Regs
    requires |block| == 16
  {
    Regs(Sum5(Rol5(r.a), F(t, r.b, r.c, r.d), r.e, W(block, t), K(t)), r.a, Rol30(r.b), r.c, r.d)
  }

  /** The registers after n rounds. */
  function Rounds(block: seq<bv32>, r: Regs, n: nat): Regs
    requires |block| == 16
  {
    if n == 0 then r else Round(block, Rounds(block, r, n - 1), n - 1)
  }

  function AddRegs(h: Regs, r: Regs): Regs {
    Regs(h.a + r.a, h.b + r.b, h.c + r.c, h.d + r.d, h.e + r.e)
  }

  function Compress(h: Regs, block: seq<bv32>): Regs
    requires |block| == 16
  {
    AddRegs(h, Rounds(block, h, 80))
  }

  // ---- bytes and words -----------------------------------------------------

  /** The word whose bytes are b0 to b3, most significant first. */
  function BigEndian(b0: bv8, b1: bv8, b2: bv8, b3: bv8): bv32 {
    ((b0 as bv32) << 24) | ((b1 as bv32) << 16) | ((b2 as bv32) << 8) | (b3 as bv32)
  }

  function Words(bytes: seq<bv8>): (w: seq<bv32>)
    requires |bytes| == 64
    ensures |w| == 16
    ensures forall i | 0 <= i < 16 ::
              w[i] == BigEndian(bytes[4 * i], bytes[4 * i + 1], bytes[4 * i + 2], bytes[4 * i + 3])
  {
    seq(16, i requires 0 <= i < 16 =>
          BigEndian(bytes[4 * i], bytes[4 * i + 1], bytes[4 * i + 2], bytes[4 * i + 3]))
  }

  // ---- whole messages ------------------------------------------------------

  const INIT: Regs := Regs(0x67452301, 0xEFCDAB89, 0x98BADCFE, 0x10325476, 0xC3D2E1F0)

  /** The registers after the blocks of m. */
  function Chain(m: seq<bv8>): Regs
    requires |m| % 64 == 0
  {
    if m == [] then INIT
    else Compress(Chain(m[..|m| - 64]), Words(m[|m| - 64..]))
  }

  lemma ChainAppend(m: seq<bv8>, block: seq<bv8>)
    requires |m| % 64 == 0 && |block| == 64
    ensures Chain(m + block) == Compress(Chain(m), Words(block))
  {
  }

  function Byte(x: nat): bv8 {
    (x % 256) as bv8
  }

  const TWO32: nat := 0x1_0000_0000
  const TWO64: nat := 0x1_0000_0000_0000_0000

  /** Section 4: the length in bits as two words, most significant byte first. */
  function LengthBytes(n: nat): (s: seq<bv8>)
    ensures |s| == 8
  {
    var bits := (8 * n) % TWO64;
    var hi, lo := bits / TWO32, bits % TWO32;
    [Byte(hi / 0x100_0000), Byte(hi / 0x1_0000), Byte(hi / 0x100), Byte(hi),
     Byte(lo / 0x100_0000), Byte(lo / 0x1_0000), Byte(lo / 0x100), Byte(lo)]
  }

  /** How many zero bytes follow the first byte of the padding. */
  function ZeroBytes(n: nat): (z: nat)
    ensures z < 64 && (n + 1 + z) % 64 == 56
  {
    (119 - n % 64) % 64
  }

  function Zeros(z: nat): (s: seq<bv8>)
    ensures |s| == z
  {
    seq(z, _ => 0)
  }

  lemma PaddedLength(n: nat)
    ensures (n + (9 + ZeroBytes(n))) % 64 == 0
  {
  }

  /** What is appended to a message of n bytes. */
  function Padding(n: nat): (s: seq<bv8>)
    ensures |s| == 9 + ZeroBytes(n)
  {
    [0x80] + Zeros(ZeroBytes(n)) + LengthBytes(n)
  }

  function Pad(m: seq<bv8>): (p: seq<bv8>)
    ensures |p| % 64 == 0
  {
    PaddedLength(|m|);
    m + Padding(|m|)
  }

  /** The bytes of a word, most significant first. */
  function WordBytes(w: bv32): seq<bv8> {
    [((w >> 24) & 255) as bv8, ((w >> 16) & 255) as bv8, ((w >> 8) & 255) as bv8, (w & 255) as bv8]
  }

  function RegBytes(r: Regs): (s: seq<bv8>)
    ensures |s| == 20
  {
    WordBytes(r.a) + WordBytes(r.b) + WordBytes(r.c) + WordBytes(r.d) + WordBytes(r.e)
  }

  function Digest(m: seq<bv8>): seq<bv8> {
    RegBytes(Chain(Pad(m)))
  }
}
