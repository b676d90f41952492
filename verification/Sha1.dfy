/**
 The SHA-1 code: a schedule kept in 16 words that are overwritten as the rounds go on,
 registers that change names instead of places, and a context that takes a message in
 pieces.
 */
module Sha1 {

  import opened Sha1Spec

  // ---- loading words -------------------------------------------------------

  /** A word of memory on a little-endian machine. */
  function LittleEndian(b0: bv8, b1: bv8, b2: bv8, b3: bv8): bv32 {
    ((b3 as bv32) << 24) | ((b2 as bv32) << 16) | ((b1 as bv32) << 8) | (b0 as bv32)
  }

  function Rol24(x: bv32): bv32 {
    (x << 24) | (x >> 8)
  }

  function Rol8(x: bv32): bv32 {
    (x << 8) | (x >> 24)
  }

  /** What the first use of a word makes of it. */
  function Swapped(x: bv32): bv32 {
    (Rol24(x) & 0xFF00FF00) | (Rol8(x) & 0x00FF00FF)
  }

  lemma SwappedIsBigEndian(b0: bv8, b1: bv8, b2: bv8, b3: bv8)
    ensures Swapped(LittleEndian(b0, b1, b2, b3)) == BigEndian(b0, b1, b2, b3)
  {
  }

  function Loaded(buffer: seq<bv8>): (raw: seq<bv32>)
    requires |buffer| == 64
    ensures |raw| == 16
    ensures forall i | 0 <= i < 16 ::
              raw[i] == LittleEndian(buffer[4 * i], buffer[4 * i + 1], buffer[4 * i + 2], buffer[4 * i + 3])
  {
    seq(16, i requires 0 <= i < 16 =>
          LittleEndian(buffer[4 * i], buffer[4 * i + 1], buffer[4 * i + 2], buffer[4 * i + 3]))
  }

  // ---- the schedule in place -----------------------------------------------

  /** The last round before round i whose word went to slot k. */
  function LastUse(i: nat, k: nat): (t: nat)
    requires k < i && k < 16
    ensures t < i && t % 16 == k
    ensures i <= t + 16
  {
    i - 1 - (i - 1 - k) % 16
  }

  lemma LastUseIs(i: nat, k: nat, t: nat)
    requires k < i && k < 16 && t < i <= t + 16 && t % 16 == k
    ensures LastUse(i, k) == t
  {
  }

  /** Before round i, each slot holds the last word of the schedule that went there, or still its raw word. */
  ghost predicate Scheduled(block: seq<bv32>, raw: seq<bv32>, words: seq<bv32>, i: nat) {
    && |block| == 16 && |raw| == 16 && |words| == 16
    && forall k | 0 <= k < 16 :: block[k] == if k < i then W(words, LastUse(i, k)) else raw[k]
  }

  /** The word that round i puts in its slot. */
  function NextWord(block: seq<bv32>, i: nat): bv32
    requires |block| == 16
  {
    if i < 16 then Swapped(block[i])
    else Rol1(Xor4(block[(i + 13) % 16], block[(i + 8) % 16], block[(i + 2) % 16], block[i % 16]))
  }

  lemma EarlierWord(block: seq<bv32>, raw: seq<bv32>, words: seq<bv32>, i: nat, back: nat, k: nat)
    requires Scheduled(block, raw, words, i) && 16 <= i && 0 < back <= 16 && k == (i - back) % 16
    ensures block[k] == W(words, i - back)
  {
  }

  lemma Slots(i: nat)
    requires i >= 16
    ensures (i + 13) % 16 == (i - 3) % 16 && (i + 8) % 16 == (i - 8) % 16 && (i + 2) % 16 == (i - 14) % 16
    ensures i % 16 == (i - 16) % 16
  {
    SixteenOn(i - 16);
    SixteenOn(i - 14);
    SixteenOn(i - 8);
    SixteenOn(i - 3);
  }

  lemma SixteenOn(i: nat)
    ensures (i + 16) % 16 == i % 16
  {
  }

  lemma NextWordIs(block: seq<bv32>, raw: seq<bv32>, words: seq<bv32>, i: nat)
    requires Scheduled(block, raw, words, i) && forall k | 0 <= k < 16 :: Swapped(raw[k]) == words[k]
    ensures NextWord(block, i) == W(words, i)
  {
    hide Swapped, Rol1, W, Xor4, LastUse, Scheduled;
    ScheduledLengths(block, raw, words, i);
    WordStep(words, i);
    if i >= 16 {
      LateWord(block, raw, words, i, (i + 13) % 16, (i + 8) % 16, (i + 2) % 16, i % 16);
    } else {
      RawWord(block, raw, words, i);
    }
  }

  lemma RawWord(block: seq<bv32>, raw: seq<bv32>, words: seq<bv32>, i: nat)
    requires Scheduled(block, raw, words, i) && i < 16
    ensures block[i] == raw[i]
  {
  }

  lemma LateWord(block: seq<bv32>, raw: seq<bv32>, words: seq<bv32>, i: nat, k3: nat, k8: nat, k14: nat, k16: nat)
    requires Scheduled(block, raw, words, i) && i >= 16
    requires k3 == (i + 13) % 16 && k8 == (i + 8) % 16 && k14 == (i + 2) % 16 && k16 == i % 16
    ensures block[k3] == W(words, i - 3) && block[k8] == W(words, i - 8)
    ensures block[k14] == W(words, i - 14) && block[k16] == W(words, i - 16)
  {
    hide W, LastUse, Scheduled;
    Slots(i);
    EarlierWord(block, raw, words, i, 3, k3);
    EarlierWord(block, raw, words, i, 8, k8);
    EarlierWord(block, raw, words, i, 14, k14);
    EarlierWord(block, raw, words, i, 16, k16);
  }

  lemma WordStep(words: seq<bv32>, i: nat)
    requires |words| == 16
    ensures i < 16 ==> W(words, i) == words[i]
    ensures i >= 16 ==>
              W(words, i) == Rol1(Xor4(W(words, i - 3), W(words, i - 8), W(words, i - 14), W(words, i - 16)))
  {
  }

  lemma ScheduleKept(block: seq<bv32>, raw: seq<bv32>, words: seq<bv32>, i: nat)
    requires Scheduled(block, raw, words, i)
    ensures Scheduled(block[i % 16 := W(words, i)], raw, words, i + 1)
  {
    hide W, LastUse;
    var block' := block[i % 16 := W(words, i)];
    forall k | 0 <= k < 16
      ensures block'[k] == if k < i + 1 then W(words, LastUse(i + 1, k)) else raw[k]
    {
      SlotKept(i, k);
    }
  }

  lemma SlotKept(i: nat, k: nat)
    requires k < 16
    ensures k == i % 16 ==> k < i + 1 && LastUse(i + 1, k) == i
    ensures k != i % 16 ==> (k < i + 1 <==> k < i)
    ensures k != i % 16 && k < i ==> LastUse(i + 1, k) == LastUse(i, k)
  {
    if k == i % 16 {
      LastUseIs(i + 1, k, i);
    } else if k < i {
      var t := LastUse(i, k);
      NotSameSlot(i, t);
      LastUseIs(i + 1, k, t);
    }
  }

  lemma NotSameSlot(i: nat, t: nat)
    requires t < i <= t + 16 && t % 16 != i % 16
    ensures i + 1 <= t + 16
  {
  }

  // ---- the rounds ----------------------------------------------------------

  function Mix(i: nat, w: bv32, x: bv32, y: bv32): bv32 {
    if i < 20 then (w & (x ^ y)) ^ y
    else if i < 40 then w ^ x ^ y
    else if i < 60 then ((w | x) & y) | (w & x)
    else w ^ x ^ y
  }

  lemma MixIsF(i: nat, w: bv32, x: bv32, y: bv32)
    ensures Mix(i, w, x, y) == F(i, w, x, y)
  {
    Choice(w, x, y);
    Majority(w, x, y);
  }

  lemma Choice(w: bv32, x: bv32, y: bv32)
    ensures (w & (x ^ y)) ^ y == (w & x) | (!w & y)
  {
  }

  lemma Majority(w: bv32, x: bv32, y: bv32)
    ensures ((w | x) & y) | (w & x) == (w & x) | (w & y) | (x & y)
  {
  }

  function Added(z: bv32, f: bv32, b: bv32, k: bv32, r: bv32): bv32 {
    z + (f + b + k + r)
  }

  lemma SumOrder(z: bv32, f: bv32, b: bv32, k: bv32, r: bv32)
    ensures Added(z, f, b, k, r) == Sum5(r, f, z, b, k)
  {
  }

  /** Before round i the registers, under their names for it, are those of the definition. */
  ghost predicate InRound(block: seq<bv32>, raw: seq<bv32>, words: seq<bv32>, h: Regs, i: nat,
                          v: bv32, w: bv32, x: bv32, y: bv32, z: bv32) {
    && Scheduled(block, raw, words, i)
    && (forall k | 0 <= k < 16 :: Swapped(raw[k]) == words[k])
    && Rounds(words, h, i) == Regs(v, w, x, y, z)
  }

  /** One round macro. */
  method R(block: array<bv32>, v: bv32, w: bv32, x: bv32, y: bv32, z: bv32, i: nat,
           ghost raw: seq<bv32>, ghost words: seq<bv32>, ghost h: Regs)
    returns (z': bv32, w': bv32)
    requires block.Length == 16 && InRound(block[..], raw, words, h, i, v, w, x, y, z)
    modifies block
    ensures InRound(block[..], raw, words, h, i + 1, z', v, w', x, y)
  {
    hide W, Swapped, Rol1, Rol5, Rol30, F, K, Mix, Scheduled, NextWord, Added, Sum5;
    ScheduledLengths(block[..], raw, words, i);
    NextWordIs(block[..], raw, words, i);
    ScheduleKept(block[..], raw, words, i);
    MixIsF(i, w, x, y);
    var word := NextWord(block[..], i);
    SumOrder(z, Mix(i, w, x, y), word, K(i), Rol5(v));
    block[i % 16] := word;
    assert block[..] == old(block[..])[i % 16 := word];
    z' := Added(z, Mix(i, w, x, y), word, K(i), Rol5(v));
    w' := Rol30(w);
  }

  lemma ScheduledLengths(block: seq<bv32>, raw: seq<bv32>, words: seq<bv32>, i: nat)
    requires Scheduled(block, raw, words, i)
    ensures |block| == 16 && |raw| == 16 && |words| == 16
  {
  }

  lemma FirstRound(buffer: seq<bv8>, h: Regs)
    requires |buffer| == 64
    ensures InRound(Loaded(buffer), Loaded(buffer), Words(buffer), h, 0, h.a, h.b, h.c, h.d, h.e)
  {
  }

  lemma LastRound(block: seq<bv32>, raw: seq<bv32>, words: seq<bv32>, h: Regs, r: Regs)
    requires InRound(block, raw, words, h, 80, r.a, r.b, r.c, r.d, r.e)
    ensures |words| == 16 && AddRegs(h, r) == Compress(h, words)
  {
  }

  /** One block: eighty rounds, five to a pass so that each register comes back to its name. */
  method Transform(state: Regs, buffer: seq<bv8>) returns (r: Regs)
    requires |buffer| == 64
    ensures r == Compress(state, Words(buffer))
  {
    hide InRound, Loaded, Words, Compress;
    ghost var raw, words := Loaded(buffer), Words(buffer);
    FirstRound(buffer, state);
    var loaded := Loaded(buffer);
    var block := new bv32[16](k requires 0 <= k < 16 => loaded[k]);
    assert block[..] == raw;
    var a, b, c, d, e := state.a, state.b, state.c, state.d, state.e;
    var i := 0;
    while i < 80
      invariant 0 <= i <= 80 && i % 5 == 0
      invariant InRound(block[..], raw, words, state, i, a, b, c, d, e)
    {
      e, b := R(block, a, b, c, d, e, i, raw, words, state);
      d, a := R(block, e, a, b, c, d, i + 1, raw, words, state);
      c, e := R(block, d, e, a, b, c, i + 2, raw, words, state);
      b, d := R(block, c, d, e, a, b, i + 3, raw, words, state);
      a, c := R(block, b, c, d, e, a, i + 4, raw, words, state);
      i := i + 5;
    }
    LastRound(block[..], raw, words, state, Regs(a, b, c, d, e));
    r := AddRegs(state, Regs(a, b, c, d, e));
  }

  // ---- the bit count -------------------------------------------------------

  /** The two words of the count after len more bytes. */
  function CountLow(c0: nat, len: nat): nat {
    (c0 + 8 * len % TWO32) % TWO32
  }

  function CountHigh(c0: nat, c1: nat, len: nat): nat {
    if CountLow(c0, len) < c0 then (c1 + len / 0x2000_0000 + 1) % TWO32 else c1
  }

  lemma LowIsExact(n: nat, c0: nat, len: nat)
    requires c0 == 8 * n % TWO32
    ensures CountLow(c0, len) == 8 * (n + len) % TWO32
  {
    var m := 8 * n / TWO32;
    var k := 8 * len / TWO32;
    assert 8 * (n + len) == (m + k) * TWO32 + (c0 + 8 * len % TWO32);
    DropWords(m + k, c0 + 8 * len % TWO32);
  }

  lemma DropWords(m: nat, x: nat)
    ensures (m * TWO32 + x) % TWO32 == x % TWO32
  {
  }

  lemma CarryIs(c0: nat, len: nat)
    requires c0 < TWO32
    ensures var s := c0 + 8 * (len % 0x2000_0000);
            && CountLow(c0, len) == (if s < TWO32 then s else s - TWO32)
            && (CountLow(c0, len) < c0 <==> s >= TWO32)
  {
  }

  lemma DropMultiple(m: nat, x: nat)
    ensures (m * TWO64 + x) % TWO64 == x % TWO64
  {
  }

  function Carry(c0: nat, len: nat): nat {
    if CountLow(c0, len) < c0 then 1 else 0
  }

  lemma RightCount(n: nat, c0: nat, c1: nat, len: nat)
    requires c0 < TWO32 && c1 * TWO32 + c0 == 8 * n % TWO64
    ensures 8 * (n + len) % TWO64 == (c1 + len / 0x2000_0000 + Carry(c0, len)) % TWO32 * TWO32 + CountLow(c0, len)
    ensures CountLow(c0, len) < TWO32
  {
    CarryIs(c0, len);
    hide CountLow;
    var low := CountLow(c0, len);
    var high := c1 + len / 0x2000_0000 + Carry(c0, len);
    var m := 8 * n / TWO64;
    assert 8 * (n + len) == m * TWO64 + (high * TWO32 + low);
    DropMultiple(m, high * TWO32 + low);
    HighPart(high, low);
  }

  lemma StaysTheSame(c1: nat, q: nat)
    requires c1 < TWO32 && q < 8
    ensures (c1 + q) % TWO32 == c1 <==> q == 0
  {
  }

  /** The count stays right, modulo 2^64, exactly when the piece is below 2^29 bytes or the low word wraps. */
  lemma CountIsExactIff(n: nat, c0: nat, c1: nat, len: nat)
    requires c0 < TWO32 && c1 < TWO32 && c1 * TWO32 + c0 == 8 * n % TWO64 && len < TWO32
    ensures CountHigh(c0, c1, len) < TWO32
    ensures CountHigh(c0, c1, len) * TWO32 + CountLow(c0, len) == 8 * (n + len) % TWO64
            <==> len < 0x2000_0000 || CountLow(c0, len) < c0
  {
    RightCount(n, c0, c1, len);
    hide CountLow;
    StaysTheSame(c1, len / 0x2000_0000);
  }

  lemma HighPart(high: nat, low: nat)
    requires low < TWO32
    ensures (high * TWO32 + low) % TWO64 == high % TWO32 * TWO32 + low
  {
  }

  // ---- the context ---------------------------------------------------------

  /** The part of n bytes that makes whole blocks. */
  function WholeBlocks(n: nat): (k: nat)
    ensures k <= n && k % 64 == 0 && n < k + 64 && k == n - n % 64
  {
    n - n % 64
  }

  lemma ChainGrows(m: seq<bv8>, k: nat)
    requires k % 64 == 0 && k + 64 <= |m|
    ensures Chain(m[..k + 64]) == Compress(Chain(m[..k]), Words(m[k..k + 64]))
  {
    hide Compress, Words;
    assert m[..k + 64] == m[..k] + m[k..k + 64];
    ChainAppend(m[..k], m[k..k + 64]);
  }

  lemma PlaceInBlock(n: nat)
    ensures 8 * n % TWO32 / 8 % 64 == n % 64
  {
  }

  /** What the registers and the first bytes of the buffer are for the message m so far. */
  ghost predicate Holds(m: seq<bv8>, state: Regs, buffer: seq<bv8>) {
    var k := WholeBlocks(|m|);
    && |buffer| == 64
    && state == Chain(m[..k]) && buffer[..|m| - k] == m[k..]
  }

  lemma Straddle(m: seq<bv8>, d: seq<bv8>, k: nat, n: nat)
    requires k <= |m| && n <= |d|
    ensures (m + d)[k..|m| + n] == m[k..] + d[..n]
  {
  }

  /** The buffer is filled up and hashed. */
  lemma FirstBlock(m: seq<bv8>, d: seq<bv8>, state: Regs, buffer: seq<bv8>, buffer': seq<bv8>)
    requires Holds(m, state, buffer) && 64 <= |m| % 64 + |d|
    requires buffer' == buffer[..|m| % 64] + d[..64 - |m| % 64]
    ensures Compress(state, Words(buffer')) == Chain((m + d)[..|m| + (64 - |m| % 64)])
  {
    hide Compress, Words, Chain;
    var k, r := WholeBlocks(|m|), |m| % 64;
    assert k + r == |m|;
    assert (m + d)[..k] == m[..k];
    Straddle(m, d, k, 64 - r);
    assert m[k..] == buffer[..r];
    ChainGrows(m + d, k);
  }

  lemma BlockEnd(n: nat)
    ensures (n + (64 - n % 64)) % 64 == 0
  {
  }

  /** A whole block is hashed from the caller's bytes. */
  lemma NextBlock(m: seq<bv8>, d: seq<bv8>, i: nat)
    requires (|m| + i) % 64 == 0 && i + 64 <= |d|
    ensures Chain((m + d)[..|m| + i + 64]) == Compress(Chain((m + d)[..|m| + i]), Words(d[i..i + 64]))
  {
    hide Compress, Words, Chain;
    assert (m + d)[|m| + i..|m| + i + 64] == d[i..i + 64];
    ChainGrows(m + d, |m| + i);
  }

  /** The rest, less than a block, goes to the start of the buffer. */
  lemma LastBytes(m: seq<bv8>, d: seq<bv8>, i: nat, state: Regs, buffer: seq<bv8>)
    requires (|m| + i) % 64 == 0 && i <= |d| < i + 64 && |buffer| == 64 && buffer[..|d| - i] == d[i..]
    requires state == Chain((m + d)[..|m| + i])
    ensures Holds(m + d, state, buffer)
  {
    hide Chain;
    assert WholeBlocks(|m + d|) == |m| + i;
    assert (m + d)[|m| + i..] == d[i..];
  }

  /** Too few bytes for a block: they go after those that are in the buffer. */
  lemma FewBytes(m: seq<bv8>, d: seq<bv8>, state: Regs, buffer: seq<bv8>, buffer': seq<bv8>)
    requires Holds(m, state, buffer) && |m| % 64 + |d| < 64 && |buffer'| == 64
    requires buffer' == buffer[..|m| % 64] + d + buffer[|m| % 64 + |d|..]
    ensures Holds(m + d, state, buffer')
  {
    hide Chain;
    var k := WholeBlocks(|m|);
    assert WholeBlocks(|m + d|) == k;
    assert (m + d)[..k] == m[..k];
    assert (m + d)[k..] == m[k..] + d;
    assert buffer'[..|m + d| - k] == buffer[..|m| - k] + d;
  }

  function CountBytes(c: nat): (s: seq<bv8>)
    ensures |s| == 4
  {
    [Byte(c / 0x100_0000), Byte(c / 0x1_0000), Byte(c / 0x100), Byte(c)]
  }

  /** Zero bytes are added until eight bytes are left in the block, and no longer. */
  lemma ZerosEnd(n: nat, z: nat)
    requires z <= ZeroBytes(n)
    ensures (n + 1 + z) % 64 == 56 <==> z == ZeroBytes(n)
  {
  }

  lemma ZerosNext(z: nat)
    ensures Zeros(z) + [0] == Zeros(z + 1)
  {
  }

  lemma FinalBytes(m: seq<bv8>, c0: nat, c1: nat)
    requires c0 < TWO32 && c1 < TWO32 && c1 * TWO32 + c0 == 8 * |m| % TWO64
    ensures m + [0x80] + Zeros(ZeroBytes(|m|)) + (CountBytes(c1) + CountBytes(c0)) == Pad(m)
  {
    hide Zeros, ZeroBytes, Byte;
    TwoWords(c0, c1);
    assert CountBytes(c1) + CountBytes(c0) == LengthBytes(|m|);
  }

  lemma TwoWords(c0: nat, c1: nat)
    requires c0 < TWO32
    ensures (c1 * TWO32 + c0) / TWO32 == c1 && (c1 * TWO32 + c0) % TWO32 == c0
  {
  }

  lemma HoldsAll(m: seq<bv8>, state: Regs, buffer: seq<bv8>)
    requires Holds(m, state, buffer) && |m| % 64 == 0
    ensures state == Chain(m)
  {
    hide Chain;
    assert m[..|m|] == m;
  }

  class Context {
    var state: Regs
    var count0: nat
    var count1: nat
    const buffer: array<bv8>
    ghost var data: seq<bv8>

    ghost predicate Valid()
      reads this, buffer
    {
      && buffer.Length == 64 && count0 < TWO32 && count1 < TWO32
      && count0 == 8 * |data| % TWO32
      && Holds(data, state, buffer[..])
    }

    /** The two words of the count are the length in bits. */
    ghost predicate Counted()
      reads this
    {
      count1 * TWO32 + count0 == 8 * |data| % TWO64
    }

    constructor ()
      ensures Valid() && Counted() && data == [] && fresh(buffer)
    {
      state := INIT;
      count0, count1 := 0, 0;
      data := [];
      buffer := new bv8[64](_ => 0);
      new;
      assert data[..0] == [];
    }

    /** Copies bytes into the buffer from place j on. */
    method Memcpy(j: nat, src: seq<bv8>)
      requires j + |src| <= buffer.Length
      modifies buffer
      ensures buffer[..] == old(buffer[..])[..j] + src + old(buffer[..])[j + |src|..]
    {
      forall k | 0 <= k < |src| {
        buffer[j + k] := src[k];
      }
    }

    /** Takes more bytes of the message. */
    method Update(d: seq<bv8>)
      requires Valid() && |d| < TWO32 && count0 / 8 % 64 + |d| < TWO32
      modifies this, buffer
      ensures Valid() && data == old(data) + d
      ensures old(Counted()) ==> (Counted() <==> |d| < 0x2000_0000 || CountLow(old(count0), |d|) < old(count0))
    {
      hide Holds, CountLow;
      var j := count0;
      LowIsExact(|data|, count0, |d|);
      if old(Counted()) {
        CountIsExactIff(|data|, count0, count1, |d|);
      }
      count0 := CountLow(count0, |d|);
      if count0 < j {
        count1 := (count1 + |d| / 0x2000_0000 + 1) % TWO32;
      }
      PlaceInBlock(|data|);
      j := j / 8 % 64;
      Absorb(j, d);
    }

    /** The whole blocks of d from place i on, which the buffer is not used for. */
    method AbsorbBlocks(i0: nat, d: seq<bv8>) returns (i: nat)
      requires i0 <= |d| && (|data| + i0) % 64 == 0 && state == Chain((data + d)[..|data| + i0])
      modifies this`state
      ensures i <= |d| < i + 64 && (|data| + i) % 64 == 0 && state == Chain((data + d)[..|data| + i])
    {
      hide Chain, Compress, Words;
      i := i0;
      while i + 63 < |d|
        invariant i <= |d| && (|data| + i) % 64 == 0 && state == Chain((data + d)[..|data| + i])
      {
        NextBlock(data, d, i);
        state := Transform(state, d[i..i + 64]);
        i := i + 64;
      }
    }

    /** The bytes of Update, of which j are in the buffer already. */
    method Absorb(j0: nat, d: seq<bv8>)
      requires buffer.Length == 64 && Holds(data, state, buffer[..]) && j0 == |data| % 64
      modifies this`state, this`data, buffer
      ensures Holds(data, state, buffer[..]) && data == old(data) + d
    {
      hide Holds, Chain, Compress, Words;
      var i, j := 0, j0;
      if j + |d| > 63 {
        i := 64 - j;
        FirstBlock(data, d, state, buffer[..], buffer[..j] + d[..i]);
        Memcpy(j, d[..i]);
        assert buffer[..] == old(buffer[..])[..j] + d[..i];
        state := Transform(state, buffer[..]);
        BlockEnd(|data|);
        i := AbsorbBlocks(i, d);
        j := 0;
        Memcpy(j, d[i..]);
        assert buffer[..|d| - i] == d[i..];
        LastBytes(data, d, i, state, buffer[..]);
      } else {
        Memcpy(j, d);
        FewBytes(data, d, state, old(buffer[..]), buffer[..]);
      }
      data := data + d;
    }

    /** Adds the padding and gives the digest of all bytes taken. */
    method Final() returns (digest: seq<bv8>)
      requires Valid()
      modifies this, buffer
      ensures old(Counted()) ==> digest == Digest(old(data))
    {
      hide Holds, CountLow;
      ghost var m := data;
      var finalcount := CountBytes(count1) + CountBytes(count0);
      Update([0x80]);
      ghost var z := 0;
      while count0 / 8 % 64 != 56
        invariant Valid() && z <= ZeroBytes(|m|)
        invariant data == m + [0x80] + Zeros(z)
        decreases ZeroBytes(|m|) - z
      {
        PlaceInBlock(|data|);
        ZerosEnd(|m|, z);
        ZerosNext(z);
        Update([0]);
        z := z + 1;
      }
      PlaceInBlock(|data|);
      ZerosEnd(|m|, z);
      Update(finalcount);
      if old(Counted()) {
        FinalBytes(m, old(count0), old(count1));
        HoldsAll(Pad(m), state, buffer[..]);
      }
      digest := RegBytes(state);
    }
  }

  // ---- any split of a message ----------------------------------------------

  function Concat(pieces: seq<seq<bv8>>): seq<bv8> {
    if pieces == [] then [] else Concat(pieces[..|pieces| - 1]) + pieces[|pieces| - 1]
  }

  /** However a message is split into pieces below 2^29 bytes, the digest is that of the whole. */
  method HashPieces(pieces: seq<seq<bv8>>) returns (digest: seq<bv8>)
    requires forall i | 0 <= i < |pieces| :: |pieces[i]| < 0x2000_0000
    ensures digest == Digest(Concat(pieces))
  {
    hide Holds, Digest;
    var ctx := new Context();
    var n := 0;
    while n < |pieces|
      invariant 0 <= n <= |pieces| && fresh(ctx) && fresh(ctx.buffer)
      invariant ctx.Valid() && ctx.Counted() && ctx.data == Concat(pieces[..n])
    {
      assert pieces[..n + 1][..n] == pieces[..n];
      ctx.Update(pieces[n]);
      n := n + 1;
    }
    assert pieces[..n] == pieces;
    digest := ctx.Final();
  }

  /** One piece of 2^29 bytes leaves the count at zero, as if nothing had been hashed. */
  lemma LongPieceExample()
    ensures CountLow(0, 0x2000_0000) == 0 && CountHigh(0, 0, 0x2000_0000) == 0
    ensures 8 * 0x2000_0000 % TWO64 != 0
  {
  }
}
