/**
 realloc and memalign: blocks that are resized, moved or cut out of larger ones, with
 the bytes that callers keep in them.
 */
module Reallocation {

  import opened Alignments
  import opened ChunkSizes
  import opened Layouts
  import opened FreeIndex
  import opened HeapSteps
  import opened Allocator
  import S = SmallBins
  import T = TreeBins

  /** Contents of memory, byte by byte. */
  type Bytes = int -> bv8

  function Min(x: int, y: int): int {
    if x < y then x else y
  }

  /** Copies n bytes from src to dst, which must not overlap. */
  function Memcpy(data: Bytes, dst: int, src: int, n: nat): Bytes
    requires dst + n <= src || src + n <= dst
  {
    a => if dst <= a < dst + n then data(a - dst + src) else data(a)
  }

  /** Bytes that the caller of chunk p may use, which may be more than were asked for. */
  function Usable(h: Layout, p: int): int {
    h.Size(p) - CHUNK_OVERHEAD
  }

  /** The blocks of live have the same contents. */
  ghost predicate SameContents(h: Layout, live: Live, data: Bytes, data': Bytes) {
    forall q | q in live :: forall x | BlockOf(q) <= x < BlockOf(q) + Usable(h, q) :: data'(x) == data(x)
  }

  // ---- cutting a lent chunk ------------------------------------------------

  /** The lent chunk p becomes two lent chunks, the first of nb bytes, upper part marked last. */
  method CutLower(a: Malloc, p: int, nb: nat, ghost bytes: nat, ghost rest: nat)
    requires a.Valid() && p in a.live
    requires nb % 8 == 0 && nb >= MIN_CHUNK_SIZE && a.H().Size(p) >= nb + MIN_CHUNK_SIZE
    requires bytes + CHUNK_OVERHEAD <= nb && rest + CHUNK_OVERHEAD <= a.H().Size(p) - nb
    modifies a
    ensures a.Valid() && p + nb !in old(a.live) && a.live == old(a.live)[p := bytes][p + nb := rest]
    ensures a.H().Size(p) == nb && a.H().Size(p + nb) == old(a.H().Size(p)) - nb
    ensures Untouched(old(a.H()), a.H(), old(a.live) - {p})
  {
    hide S.BinsOk, T.State.Ok, LayoutOk, IndexExcept, LiveOk, Untouched, SameBut;
    ghost var h0 := a.H();
    SplitLive(h0, a.Ix(), a.live, p, nb, bytes, rest);
    CutUntouched(h0, a.Ix(), a.live, p, nb, SplitInuse(h0, p, nb));
    var s := a.mem.head[p].size;
    var garbage: T.Head := *;
    a.mem := a.mem.(head := a.mem.head[p + nb := garbage]);
    a.SetInuse(p, nb);
    a.SetInuse(p + nb, s - nb);
    a.chunks := a.chunks + {p + nb};
    a.live := a.live[p := bytes][p + nb := rest];
    assert a.H() == SplitInuse(h0, p, nb);
  }

  /** The same in the order of memalign: the upper part is marked first. */
  method CutUpper(a: Malloc, p: int, nb: nat, ghost bytes: nat, ghost rest: nat)
    requires a.Valid() && p in a.live
    requires nb % 8 == 0 && nb >= MIN_CHUNK_SIZE && a.H().Size(p) >= nb + MIN_CHUNK_SIZE
    requires bytes + CHUNK_OVERHEAD <= nb && rest + CHUNK_OVERHEAD <= a.H().Size(p) - nb
    modifies a
    ensures a.Valid() && p + nb !in old(a.live) && a.live == old(a.live)[p := bytes][p + nb := rest]
    ensures a.H().Size(p) == nb && a.H().Size(p + nb) == old(a.H().Size(p)) - nb
    ensures Untouched(old(a.H()), a.H(), old(a.live) - {p})
  {
    hide S.BinsOk, T.State.Ok, LayoutOk, IndexExcept, LiveOk, Untouched, SameBut;
    ghost var h0 := a.H();
    SplitLive(h0, a.Ix(), a.live, p, nb, bytes, rest);
    CutUntouched(h0, a.Ix(), a.live, p, nb, SplitInuse(h0, p, nb));
    var s := a.mem.head[p].size;
    var garbage: T.Head := *;
    a.mem := a.mem.(head := a.mem.head[p + nb := garbage]);
    a.SetInuse(p + nb, s - nb);
    a.SetInuse(p, nb);
    a.chunks := a.chunks + {p + nb};
    a.live := a.live[p := bytes][p + nb := rest];
    assert a.H() == SplitInuse(h0, p, nb);
  }

  lemma CutUntouched(h: Layout, ix: Index, live: Live, p: int, nb: nat, h': Layout)
    requires Good(h, ix, live) && SameBut(h, h', {p, p + nb}) && p + nb !in live
    ensures Untouched(h, h', live - {p})
  {
  }

  // ---- realloc -------------------------------------------------------------

  /** The chunk p can be made to hold nb bytes where it is. */
  predicate FitsInPlace(h: Layout, p: int, nb: nat) {
    nb <= h.Size(p) || (h.Next(p) == h.top && nb < h.Size(p) + h.topsize)
  }

  /** The lent chunk p now holds a request of bytes bytes, and nothing else has changed. */
  ghost predicate Resized(a: Malloc, h0: Layout, live0: Live, p: int, bytes: nat)
    reads a
  {
    && a.live == live0[p := bytes]
    && RequestToSize(bytes) <= a.H().Size(p) < RequestToSize(bytes) + MIN_CHUNK_SIZE
    && Untouched(h0, a.H(), live0 - {p})
  }

  /** Shrinking: what is cut off, if it can be a chunk, is given back. */
  method Shrink(a: Malloc, p: int, nb: nat, ghost bytes: nat)
    requires a.Valid() && p in a.live && bytes < MAX_REQUEST && nb == RequestToSize(bytes) <= a.H().Size(p)
    modifies a, a.small, a.tree
    ensures a.Valid() && Resized(a, old(a.H()), old(a.live), p, bytes)
  {
    hide S.BinsOk, T.State.Ok, Good, Untouched;
    ghost var h0, live0 := a.H(), a.live;
    LentTags(h0, a.Ix(), live0, p);
    var rsize := a.mem.head[p].size - nb;
    if rsize >= MIN_CHUNK_SIZE {
      CutLower(a, p, nb, bytes, 0);
      ghost var h1 := a.H();
      a.Free(p + nb + 8);
      assert a.live == live0[p := bytes];
      CutAndFreed(h0, h1, a.H(), live0 - {p}, a.live, p, nb);
    } else {
      ShrinkInPlace(h0, a.Ix(), live0, p, bytes);
      a.live := live0[p := bytes];
    }
  }

  lemma LentTags(h: Layout, ix: Index, live: Live, p: int)
    requires Good(h, ix, live) && p in live
    ensures p in h.head && h.head[p].size == h.Size(p) >= MIN_CHUNK_SIZE && h.Size(p) % 8 == 0 && p > 0
    ensures live[p] + CHUNK_OVERHEAD <= h.Size(p) && h.Next(p) <= h.top
  {
  }

  lemma CutAndFreed(h0: Layout, h1: Layout, h2: Layout, others: Live, live: Live, p: int, nb: nat)
    requires Untouched(h0, h1, others) && Untouched(h1, h2, live) && others.Keys <= live.Keys && p in live
    requires h1.Size(p) == nb
    ensures Untouched(h0, h2, others) && h2.Size(p) == nb
  {
  }

  lemma ShrinkInPlace(h: Layout, ix: Index, live: Live, p: int, bytes: nat)
    requires Good(h, ix, live) && p in live && bytes + CHUNK_OVERHEAD <= h.Size(p)
    ensures Good(h, ix, live[p := bytes]) && Untouched(h, h, live - {p})
  {
  }

  /** Growing into the top chunk. */
  method Grow(a: Malloc, p: int, nb: nat, ghost bytes: nat)
    requires a.Valid() && p in a.live && bytes < MAX_REQUEST && nb == RequestToSize(bytes)
    requires a.H().Next(p) == a.ms.top && a.H().Size(p) < nb < a.H().Size(p) + a.ms.topsize
    modifies a
    ensures a.Valid() && Resized(a, old(a.H()), old(a.live), p, bytes)
    ensures a.Ix() == old(a.Ix()) && a.ms.top == p + nb && a.ms.topsize == old(a.H().Size(p)) + old(a.ms.topsize) - nb
  {
    hide S.BinsOk, T.State.Ok, LayoutOk, IndexExcept, LiveOk, Untouched, SameBut, RequestToSize;
    ghost var h0 := a.H();
    GrowLive(h0, a.Ix(), a.live, p, nb, bytes);
    UntouchedBy(h0, GrowIntoTop(h0, p, nb), a.live, a.live - {p}, {p});
    var newtopsize := a.mem.head[p].size + a.ms.topsize - nb;
    var garbage: T.Head := *;
    a.mem := a.mem.(head := a.mem.head[p + nb := garbage]);
    a.SetInuse(p, nb);
    a.mem := a.mem.(head := a.mem.head[p + nb := T.Head(newtopsize, true, false)]);
    a.ms := a.ms.(top := p + nb, topsize := newtopsize);
    a.live := a.live[p := bytes];
    assert a.H() == GrowIntoTop(h0, p, nb);
  }

  /** What a call that resizes p to bytes bytes leaves behind when it returns m. */
  ghost predicate Resettled(h0: Layout, live0: Live, h: Layout, live: Live, p: int, m: int, bytes: nat) {
    && live == (live0 - {p})[m - 8 := bytes] && (m - 8 == p || m - 8 !in live0)
    && RequestToSize(bytes) <= h.Size(m - 8) < RequestToSize(bytes) + MIN_CHUNK_SIZE
    && Untouched(h0, h, live0 - {p})
  }

  /** A block of n bytes at src, disjoint from the usable bytes of the other blocks, was copied. */
  ghost predicate Moved(data: Bytes, data': Bytes, dst: int, src: int, n: int) {
    forall x | dst <= x < dst + n :: data'(x) == data(x - dst + src)
  }

  /** Where the blocks of p and of the new chunk q lie. */
  lemma CopyFacts(h0: Layout, h: Layout, ix: Index, live: Live, p: int, q: int, n: nat, data: Bytes)
    requires Good(h, ix, live) && p in live && q in live && p != q && Untouched(h0, h, live - {q})
    requires n <= Usable(h0, p) && n <= live[q]
    ensures BlockOf(q) + n <= BlockOf(p) || BlockOf(p) + n <= BlockOf(q)
    ensures var data' := Memcpy(data, BlockOf(q), BlockOf(p), n);
            SameContents(h0, live - {q}, data, data') && Moved(data, data', BlockOf(q), BlockOf(p), n)
  {
    hide Good, Memcpy;
    SameUsable(h0, h, live, p, q);
    SpacedOut(h, ix, live, p, q);
    forall r | r in live - {q}
      ensures BlockOf(r) + Usable(h0, r) <= BlockOf(q) || BlockOf(q) + n <= BlockOf(r)
    {
      SameUsable(h0, h, live, r, q);
      SpacedOut(h, ix, live, r, q);
    }
    hide Untouched, BlockOf, Usable;
    CopyReaches(data, BlockOf(q), BlockOf(p), n);
  }

  lemma SameUsable(h0: Layout, h: Layout, live: Live, r: int, q: int)
    requires Untouched(h0, h, live - {q}) && r in live && r != q
    ensures Usable(h0, r) == Usable(h, r)
  {
    assert r in live - {q};
  }

  /** What a copy changes, and what it does not. */
  lemma CopyReaches(data: Bytes, dst: int, src: int, n: nat)
    requires dst + n <= src || src + n <= dst
    ensures forall x | dst <= x < dst + n :: Memcpy(data, dst, src, n)(x) == data(x - dst + src)
    ensures forall x | x < dst || dst + n <= x :: Memcpy(data, dst, src, n)(x) == data(x)
  {
  }

  lemma SpacedOut(h: Layout, ix: Index, live: Live, p: int, q: int)
    requires Good(h, ix, live) && p in live && q in live && p != q
    ensures BlockOf(p) + Usable(h, p) <= BlockOf(q) || BlockOf(q) + live[q] <= BlockOf(p)
  {
    hide Good;
    if p < q {
      BlocksAreDisjoint(h, ix, live, p, q);
    } else {
      BlocksAreDisjoint(h, ix, live, q, p);
    }
  }

  /** A new block, the old contents, and the old block given back; or nothing at all. */
  method Relocate(a: Malloc, data: Bytes, p: int, bytes: nat, grant: nat) returns (m: int, data': Bytes)
    requires a.Valid() && p in a.live && bytes < MAX_REQUEST
    requires grant % 8 == 0 && a.ms.top + a.ms.topsize + grant + TOP_FOOT_SIZE <= WORD
    modifies a, a.small, a.tree
    ensures a.Valid()
    ensures m == 0 ==> a.live == old(a.live) && data' == data && Untouched(old(a.H()), a.H(), a.live)
    ensures m != 0 ==> Resettled(old(a.H()), old(a.live), a.H(), a.live, p, m, bytes)
    ensures m != 0 ==> Moved(data, data', m, BlockOf(p), Min(old(Usable(a.H(), p)), bytes))
    ensures SameContents(old(a.H()), old(a.live) - {p}, data, data')
    ensures m != 0 <==> CanServe(old(a.Ix()), old(a.ms.topsize) + grant, RequestToSize(bytes))
    ensures m != 0 ==> Chosen(old(a.Ix()), old(a.ms.top), bytes, m - 8)
  {
    hide S.BinsOk, T.State.Ok, Good, Untouched, CanServe, Moved, SameContents, Memcpy, Chosen, GrantedIndex,
         TopAfter, RequestToSize;
    ghost var h0, live0 := a.H(), a.live;
    LentTags(h0, a.Ix(), live0, p);
    data' := data;
    var oldsize := a.mem.head[p].size;
    m := a.Dlmalloc(bytes, grant);
    NothingCopied(h0, live0 - {p}, data);
    if m != 0 {
      var n := Min(oldsize - CHUNK_OVERHEAD, bytes);
      ghost var h1, live1 := a.H(), a.live;
      assert live1 - {m - 8} == live0;
      CopyFacts(h0, h1, a.Ix(), live1, p, m - 8, n, data);
      data' := Memcpy(data, m, p + 8, n);
      FewerContents(h0, live0, p, data, data');
      a.Free(p + 8);
      RelocateUntouched(h0, h1, a.H(), live0, a.live, p, m - 8);
      assert a.live == (live0 - {p})[m - 8 := bytes];
    }
  }

  lemma NothingCopied(h: Layout, live: Live, data: Bytes)
    ensures SameContents(h, live, data, data)
  {
  }

  lemma FewerContents(h: Layout, live: Live, p: int, data: Bytes, data': Bytes)
    requires SameContents(h, live, data, data')
    ensures SameContents(h, live - {p}, data, data')
  {
  }

  lemma RelocateUntouched(h0: Layout, h1: Layout, h2: Layout, live0: Live, live2: Live, p: int, q: int)
    requires Untouched(h0, h1, live0) && Untouched(h1, h2, live2)
    requires (live0 - {p}).Keys <= live2.Keys && q in live2
    ensures Untouched(h0, h2, live0 - {p}) && h2.Size(q) == h1.Size(q)
  {
  }

  /**
   Resizes the block at oldmem to bytes bytes.  The contents are kept, up to the
   smaller of what the old block could hold and the new size; no other block is
   disturbed; when no memory can be found the old block stays as it was.
   */
  method Realloc(a: Malloc, data: Bytes, oldmem: int, bytes: nat, grant: nat) returns (m: int, data': Bytes)
    requires a.Valid() && oldmem - 8 in a.live && bytes < WORD
    requires grant % 8 == 0 && a.ms.top + a.ms.topsize + grant + TOP_FOOT_SIZE <= WORD
    modifies a, a.small, a.tree
    ensures a.Valid()
    ensures m == 0 ==> a.live == old(a.live) && data' == data && Untouched(old(a.H()), a.H(), a.live)
    ensures m != 0 ==> Resettled(old(a.H()), old(a.live), a.H(), a.live, oldmem - 8, m, bytes)
    ensures m != 0 ==> Moved(data, data', m, oldmem, Min(old(Usable(a.H(), oldmem - 8)), bytes))
    ensures SameContents(old(a.H()), old(a.live) - {oldmem - 8}, data, data')
    ensures m != 0 <==> bytes < MAX_REQUEST
                        && (FitsInPlace(old(a.H()), oldmem - 8, RequestToSize(bytes))
                            || CanServe(old(a.Ix()), old(a.ms.topsize) + grant, RequestToSize(bytes)))
    ensures m != 0 ==> if FitsInPlace(old(a.H()), oldmem - 8, RequestToSize(bytes)) then m == oldmem && data' == data
                       else Chosen(old(a.Ix()), old(a.ms.top), bytes, m - 8)
  {
    hide S.BinsOk, T.State.Ok, Good, Untouched, CanServe, Moved, SameContents, Chosen;
    var p := oldmem - 8;
    ghost var h0, live0 := a.H(), a.live;
    LentTags(h0, a.Ix(), live0, p);
    SameUntouched(h0, a.Ix(), live0);
    NothingCopied(h0, live0 - {p}, data);
    NothingMoved(data, oldmem, Min(Usable(h0, p), bytes));
    m, data' := 0, data;
    if bytes < MAX_REQUEST {
      var nb := RequestToSize(bytes);
      var oldsize := a.mem.head[p].size;
      if oldsize >= nb {
        Shrink(a, p, nb, bytes);
        m := oldmem;
        assert a.live == (live0 - {p})[p := bytes];
      } else if p + oldsize == a.ms.top && oldsize + a.ms.topsize > nb {
        Grow(a, p, nb, bytes);
        m := oldmem;
        assert a.live == (live0 - {p})[p := bytes];
      } else {
        m, data' := Relocate(a, data, p, bytes, grant);
      }
    }
  }

  /** The routine that callers use: with no block to resize, a new one. */
  method Dlrealloc(a: Malloc, data: Bytes, oldmem: int, bytes: nat, grant: nat) returns (m: int, data': Bytes)
    requires a.Valid() && (oldmem == 0 || oldmem - 8 in a.live) && bytes < WORD
    requires grant % 8 == 0 && a.ms.top + a.ms.topsize + grant + TOP_FOOT_SIZE <= WORD
    modifies a, a.small, a.tree
    ensures a.Valid()
    ensures m == 0 ==> a.live == old(a.live) && data' == data && Untouched(old(a.H()), a.H(), a.live)
    ensures m != 0 && oldmem == 0 ==>
              data' == data && a.Granted(old(a.H()), old(a.live), m - 8, RequestToSize(bytes), bytes)
    ensures m != 0 && oldmem != 0 ==>
              && Resettled(old(a.H()), old(a.live), a.H(), a.live, oldmem - 8, m, bytes)
              && Moved(data, data', m, oldmem, Min(old(Usable(a.H(), oldmem - 8)), bytes))
              && SameContents(old(a.H()), old(a.live) - {oldmem - 8}, data, data')
    ensures m != 0 <==> bytes < MAX_REQUEST
                        && ((oldmem != 0 && FitsInPlace(old(a.H()), oldmem - 8, RequestToSize(bytes)))
                            || CanServe(old(a.Ix()), old(a.ms.topsize) + grant, RequestToSize(bytes)))
    ensures m != 0 ==> if oldmem != 0 && FitsInPlace(old(a.H()), oldmem - 8, RequestToSize(bytes)) then m == oldmem
                       else Chosen(old(a.Ix()), old(a.ms.top), bytes, m - 8)
  {
    hide S.BinsOk, T.State.Ok, Good, Untouched, CanServe, Moved, SameContents, Chosen, GrantedIndex,
         TopAfter, FitsInPlace, Resettled;
    if oldmem == 0 {
      m := a.Dlmalloc(bytes, grant);
      data' := data;
    } else {
      m, data' := Realloc(a, data, oldmem, bytes, grant);
    }
  }

  lemma NothingMoved(data: Bytes, at: int, n: int)
    ensures Moved(data, data, at, at, n)
  {
  }

  // ---- memalign ------------------------------------------------------------

  /** The value of the shifted word after k steps of the loop that looks for a power of two. */
  function AfterShifts(k: nat): nat {
    if k == 0 then 16 else Wrap(2 * AfterShifts(k - 1))
  }

  lemma {:induction false} EarlyShifts(k: nat)
    requires k <= 27
    ensures AfterShifts(k) * Pow2(27 - k) == 0x8000_0000 && PowerOfTwo(AfterShifts(k))
  {
    if k == 0 {
      FirstShift();
    } else {
      EarlyShifts(k - 1);
      hide Pow2;
      DoubleShift(AfterShifts(k - 1), Pow2(27 - k));
      OneMore(27 - k);
      OneShift(AfterShifts(k - 1));
    }
  }

  lemma FirstShift()
    ensures 16 * Pow2(27) == 0x8000_0000 && PowerOfTwo(16)
  {
    Pow2Values();
    assert Pow2(25) == 2 * Pow2(24) && Pow2(26) == 2 * Pow2(25);
    assert PowerOfTwo(4) && PowerOfTwo(8);
  }

  lemma OneMore(e: nat)
    ensures Pow2(e + 1) == 2 * Pow2(e)
  {
  }

  lemma OneShift(x: nat)
    requires PowerOfTwo(x) && 2 * x <= 0x8000_0000
    ensures Wrap(2 * x) == 2 * x && PowerOfTwo(2 * x)
  {
  }

  lemma {:induction false} LateShifts(k: nat)
    requires k > 27
    ensures AfterShifts(k) == 0
  {
    if k == 28 {
      EarlyShifts(27);
    } else {
      LateShifts(k - 1);
    }
  }

  lemma Shorter(x: nat, f: nat)
    requires x * f == 0x8000_0000 && f >= 1
    ensures x <= 0x8000_0000
  {
  }

  lemma DoubleShift(x: nat, f: nat)
    requires x * (2 * f) == 0x8000_0000 && f >= 1
    ensures (2 * x) * f == 0x8000_0000 && 2 * x <= 0x8000_0000
  {
  }

  /** The loop reaches the alignment exactly when that is at most 2^31; beyond it, it runs forever. */
  lemma RoundingEndsIff(alignment: nat)
    ensures (exists k: nat :: AfterShifts(k) >= alignment) <==> alignment <= 0x8000_0000
  {
    forall k: nat
      ensures AfterShifts(k) <= 0x8000_0000
    {
      if k <= 27 {
        EarlyShifts(k);
        Shorter(AfterShifts(k), Pow2(27 - k));
      } else {
        LateShifts(k);
      }
    }
    EarlyShifts(27);
  }

  /** The least power of two that is at least the alignment asked for and the least chunk size. */
  method RoundAlignment(alignment: nat) returns (a: nat)
    requires 8 < alignment <= 0x8000_0000
    ensures PowerOfTwo(a) && alignment <= a && MIN_CHUNK_SIZE <= a <= 0x8000_0000
    ensures forall b: nat | PowerOfTwo(b) && alignment <= b && MIN_CHUNK_SIZE <= b :: a <= b
  {
    hide PowerOfTwo, Wrap;
    EarlyShifts(27);
    EarlyShifts(0);
    var al := if alignment < MIN_CHUNK_SIZE then MIN_CHUNK_SIZE else alignment;
    if PowerOfTwo(al) {
      return al;
    }
    a := 16;
    while a < al
      invariant PowerOfTwo(a) && 16 <= a <= 0x8000_0000
      invariant forall b: nat | PowerOfTwo(b) && al <= b :: a <= b
      decreases 0x8000_0000 - a
    {
      NoneBetween(a, 0x8000_0000);
      forall b: nat | PowerOfTwo(b) && al <= b
        ensures 2 * a <= b
      {
        NoneBetween(a, b);
      }
      OneShift(a);
      a := Wrap(2 * a);
    }
  }

  /** x rounded down to a multiple of the power of two a: its low bits masked out. */
  function MaskDown(x: nat, a: nat): nat
    requires a > 0
  {
    x - x % a
  }

  lemma MaskFacts(x: nat, a: nat)
    requires PowerOfTwo(a) && a >= MIN_CHUNK_SIZE
    ensures AlignedTo(MaskDown(x, a), a) && AlignedTo(MaskDown(x, a) + a, a)
    ensures MaskDown(x, a) % 8 == 0 && a % 8 == 0
    ensures x - a < MaskDown(x, a) <= x
  {
    PowerIsAligned(a);
    Quotient(x, a);
    var q := x / a;
    MulNext(a, q);
    DivUnique(a * q, a, q, 0);
    DivUnique(a * (q + 1), a, q + 1, 0);
    MultipleThrough(a, a / 8, q);
  }

  lemma Quotient(x: nat, a: nat)
    requires a > 0
    ensures MaskDown(x, a) == a * (x / a) >= 0 && x / a >= 0 && x - a < MaskDown(x, a) <= x
  {
  }

  lemma MultipleThrough(a: nat, c: nat, q: nat)
    requires a == 8 * c
    ensures (a * q) % 8 == 0
  {
    assert a * q == 8 * (c * q);
  }

  /** Where the aligned chunk begins in the chunk p, which is too large by an alignment and more. */
  function LeadSize(p: nat, a: nat): int
    requires a > 0
  {
    var br := MaskDown(Wrap(p + 8 + a - 1), a) - 8;
    if br - p >= MIN_CHUNK_SIZE then br - p else br + a - p
  }

  /** The chunk in p, p itself if possible, that is lent out at a multiple of a. */
  function AlignedPlace(p: nat, a: nat): int
    requires a > 0
  {
    if AlignedTo(p + 8, a) then p else p + LeadSize(p, a)
  }

  lemma NoWrap(x: nat)
    requires x < WORD
    ensures Wrap(x) == x
  {
  }

  /** The same in units of 8 bytes. */
  lemma LeadSteps(q: int, b: int, u: int)
    requires q + 1 < u < q + 1 + b && b >= 2
    ensures var p, a, br := 8 * q, 8 * b, 8 * u - 8;
            var lead := if br - p >= MIN_CHUNK_SIZE then br - p else br + a - p;
            MIN_CHUNK_SIZE <= lead <= a + 8 && lead % 8 == 0
  {
  }

  lemma Eights(x: nat)
    requires x % 8 == 0
    ensures x == 8 * (x / 8)
  {
  }

  lemma LeadBounds(p: nat, a: nat, up: nat)
    requires p % 8 == 0 && a % 8 == 0 && up % 8 == 0 && a >= MIN_CHUNK_SIZE && p + 8 < up < p + 8 + a
    ensures var br := up - 8;
            var lead := if br - p >= MIN_CHUNK_SIZE then br - p else br + a - p;
            MIN_CHUNK_SIZE <= lead <= a + 8 && lead % 8 == 0
  {
    Eights(p);
    Eights(a);
    Eights(up);
    LeadSteps(p / 8, a / 8, up / 8);
  }

  lemma LeadFacts(p: nat, a: nat)
    requires PowerOfTwo(a) && a >= MIN_CHUNK_SIZE && p % 8 == 0 && !AlignedTo(p + 8, a) && p + 8 + a <= WORD
    ensures MIN_CHUNK_SIZE <= LeadSize(p, a) <= a + 8 && LeadSize(p, a) % 8 == 0
    ensures AlignedTo(p + LeadSize(p, a) + 8, a)
  {
    hide AlignedTo, MaskDown, PowerOfTwo, Wrap;
    var x := p + 8 + a - 1;
    MaskFacts(x, a);
    NoWrap(x);
    var up := MaskDown(x, a);
    assert up != p + 8;
    LeadBounds(p, a, up);
  }

  /** The alignment that is used when the one asked for is alignment. */
  ghost predicate Rounded(alignment: nat, al: nat) {
    if alignment <= 8 then al == 8
    else
      && PowerOfTwo(al) && alignment <= al && MIN_CHUNK_SIZE <= al
      && forall b: nat | PowerOfTwo(b) && alignment <= b && MIN_CHUNK_SIZE <= b :: al <= b
  }

  /** Gives the part of p0 before an aligned address its own chunk. */
  method CutLeader(a: Malloc, p0: int, al: nat, ghost bytes: nat) returns (p: int, leader: int)
    requires a.Valid() && p0 in a.live && PowerOfTwo(al) && MIN_CHUNK_SIZE <= al
    requires bytes + CHUNK_OVERHEAD + 8 + al <= a.H().Size(p0) && al + 16 + MIN_CHUNK_SIZE <= a.H().Size(p0)
    modifies a
    ensures a.Valid() && AlignedTo(p + 8, al) && Untouched(old(a.H()), a.H(), old(a.live) - {p0})
    ensures leader == 0 ==> p == p0 && a.live == old(a.live)[p0 := bytes]
    ensures leader != 0 ==> leader == p0 + 8 && p !in old(a.live) && a.live == old(a.live)[p0 := 0][p := bytes]
    ensures p0 > 0 && p == AlignedPlace(p0, al)
    ensures a.H().Size(p) == old(a.H()).Size(p0) - (p - p0) >= old(a.H()).Size(p0) - al - 8
  {
    hide S.BinsOk, T.State.Ok, Good, Untouched, AlignedTo, PowerOfTwo, LeadSize;
    ghost var h0, live0 := a.H(), a.live;
    LentTags(h0, a.Ix(), live0, p0);
    LentPlace(h0, a.Ix(), live0, p0);
    if AlignedTo(p0 + 8, al) {
      ShrinkInPlace(h0, a.Ix(), live0, p0, bytes);
      a.live := live0[p0 := bytes];
      p, leader := p0, 0;
    } else {
      LeadFacts(p0, al);
      var lead := LeadSize(p0, al);
      CutUpper(a, p0, lead, 0, bytes);
      p, leader := p0 + lead, p0 + 8;
    }
  }

  lemma LentPlace(h: Layout, ix: Index, live: Live, p: int)
    requires Good(h, ix, live) && p in live
    ensures p % 8 == 0 && p + h.Size(p) + TOP_FOOT_SIZE < WORD
  {
  }

  /** The size of a chunk of s bytes when spare room behind nb bytes is given back; up to a least chunk may stay. */
  function TrimmedSize(s: int, nb: int): int {
    if s > nb + MIN_CHUNK_SIZE then nb else s
  }

  /** Gives what is left of p after nb bytes its own chunk, if that is more than the least one. */
  method CutTrailer(a: Malloc, p: int, nb: nat, ghost bytes: nat) returns (trailer: int)
    requires a.Valid() && p in a.live && bytes < MAX_REQUEST && nb == RequestToSize(bytes) <= a.H().Size(p)
    requires a.live[p] == bytes
    modifies a
    ensures a.Valid() && Untouched(old(a.H()), a.H(), old(a.live) - {p})
    ensures trailer == 0 ==> a.live == old(a.live)
    ensures trailer != 0 ==> trailer == p + nb + 8 && p + nb !in old(a.live) && a.live == old(a.live)[p + nb := 0]
    ensures a.H().Size(p) == TrimmedSize(old(a.H()).Size(p), nb)
    ensures trailer != 0 <==> old(a.H()).Size(p) > nb + MIN_CHUNK_SIZE
  {
    hide S.BinsOk, T.State.Ok, Good, Untouched;
    LentTags(a.H(), a.Ix(), a.live, p);
    ShrinkInPlace(a.H(), a.Ix(), a.live, p, bytes);
    trailer := 0;
    if a.mem.head[p].size > nb + MIN_CHUNK_SIZE {
      CutLower(a, p, nb, bytes, 0);
      trailer := p + nb + 8;
      assert a.live == old(a.live)[p + nb := 0];
    }
  }

  /** Cuts an aligned chunk of about nb bytes out of the lent chunk p0 and gives the rest back. */
  method Carve(a: Malloc, p0: int, al: nat, nb: nat, ghost bytes: nat) returns (p: int)
    requires a.Valid() && p0 in a.live && PowerOfTwo(al) && MIN_CHUNK_SIZE <= al
    requires bytes < MAX_REQUEST && nb == RequestToSize(bytes) && nb + al + MIN_CHUNK_SIZE <= a.H().Size(p0)
    modifies a, a.small, a.tree
    ensures a.Valid() && AlignedTo(p + 8, al) && (p == p0 || p !in old(a.live)) && p0 > 0 && p == AlignedPlace(p0, al)
    ensures a.live == (old(a.live) - {p0})[p := bytes] && nb <= a.H().Size(p) <= nb + MIN_CHUNK_SIZE
    ensures a.H().Size(p) == TrimmedSize(old(a.H()).Size(p0) - (p - p0), nb)
    ensures Untouched(old(a.H()), a.H(), old(a.live) - {p0})
  {
    hide S.BinsOk, T.State.Ok, Good, Untouched, AlignedTo, PowerOfTwo, AlignedPlace;
    ghost var h0, live0 := a.H(), a.live;
    ghost var others := live0 - {p0};
    PaddedFacts(bytes);
    LentTags(h0, a.Ix(), live0, p0);
    var leader, trailer;
    p, leader := CutLeader(a, p0, al, bytes);
    ghost var h1, live1 := a.H(), a.live;
    trailer := CutTrailer(a, p, nb, bytes);
    ghost var h2 := a.H();
    UntouchedChain(h0, h1, h2, others, live1 - {p});
    if leader != 0 {
      a.Free(leader);
      UntouchedChain(h0, h2, a.H(), others, a.live);
      UntouchedSize(h2, a.H(), a.live, p);
    }
    ghost var h3 := a.H();
    if trailer != 0 {
      a.Free(trailer);
      UntouchedChain(h0, h3, a.H(), others, a.live);
      UntouchedSize(h3, a.H(), a.live, p);
    }
    assert a.live == (live0 - {p0})[p := bytes];
  }

  lemma PaddedFacts(bytes: nat)
    requires bytes < MAX_REQUEST
    ensures bytes + CHUNK_OVERHEAD <= RequestToSize(bytes) <= bytes + 16 && RequestToSize(bytes) >= MIN_CHUNK_SIZE
    ensures RequestToSize(bytes) % 8 == 0
  {
  }

  lemma UntouchedChain(h0: Layout, h1: Layout, h2: Layout, others: Live, live: Live)
    requires Untouched(h0, h1, others) && Untouched(h1, h2, live) && others.Keys <= live.Keys
    ensures Untouched(h0, h2, others)
  {
  }

  lemma UntouchedSize(h: Layout, h': Layout, live: Live, p: int)
    requires Untouched(h, h', live) && p in live
    ensures h'.Size(p) == h.Size(p)
  {
  }

  /** The bytes that are sought for a request with the rounded alignment al; above 8, more than asked for. */
  function Sought(al: nat, bytes: nat): nat {
    if al == 8 then bytes else RequestToSize(bytes) + al + MIN_CHUNK_SIZE - CHUNK_OVERHEAD
  }

  /** Whether a request with the rounded alignment al can be met. */
  ghost predicate CanAlign(ix: Index, topsize: int, al: nat, bytes: nat) {
    && (al == 8 || bytes < MAX_REQUEST - al) && Sought(al, bytes) < MAX_REQUEST
    && CanServe(ix, topsize, RequestToSize(Sought(al, bytes)))
  }

  /** Lends a block at a multiple of the alignment, cut out of the chunk p0. */
  method Memalign(a: Malloc, alignment: nat, bytes: nat, grant: nat) returns (m: int, ghost al: nat, ghost p0: int)
    requires a.Valid() && alignment <= 0x8000_0000 && bytes < WORD
    requires grant % 8 == 0 && a.ms.top + a.ms.topsize + grant + TOP_FOOT_SIZE <= WORD
    modifies a, a.small, a.tree
    ensures a.Valid() && Rounded(alignment, al)
    ensures m == 0 ==> a.live == old(a.live) && Untouched(old(a.H()), a.H(), a.live)
    ensures m != 0 ==> AlignedTo(m, al) && m - 8 !in old(a.live) && a.live == old(a.live)[m - 8 := bytes]
    ensures m != 0 ==> RequestToSize(bytes) <= a.H().Size(m - 8) <= RequestToSize(bytes) + MIN_CHUNK_SIZE
    ensures m != 0 ==> Untouched(old(a.H()), a.H(), old(a.live))
    ensures m != 0 <==> CanAlign(old(a.Ix()), old(a.ms.topsize) + grant, al, bytes)
    ensures m != 0 ==> Chosen(old(a.Ix()), old(a.ms.top), Sought(al, bytes), p0)
    ensures m != 0 ==> al > 0 && p0 > 0 && m - 8 == AlignedPlace(p0, al)
  {
    hide S.BinsOk, T.State.Ok, Good, Untouched, CanServe, Chosen, GrantedIndex, TopAfter, PowerOfTwo, LeadSize;
    if alignment <= 8 {
      al := 8;
      m := a.Dlmalloc(bytes, grant);
      p0 := m - 8;
      if m != 0 {
        LentPlace(a.H(), a.Ix(), a.live, p0);
      }
      return;
    }
    var align := RoundAlignment(alignment);
    al := align;
    m, p0 := 0, 0;
    if bytes >= MAX_REQUEST - align {
      SameUntouched(a.H(), a.Ix(), a.live);
    } else {
      hide AlignedTo;
      PaddedFacts(bytes);
      var nb := RequestToSize(bytes);
      var req := nb + align + MIN_CHUNK_SIZE - CHUNK_OVERHEAD;
      ghost var h0, live0 := a.H(), a.live;
      var mem := a.Dlmalloc(req, grant);
      if mem != 0 {
        PaddedFacts(req);
        ghost var h1 := a.H();
        assert a.live - {mem - 8} == live0;
        p0 := mem - 8;
        var p := Carve(a, mem - 8, align, nb, bytes);
        UntouchedChain(h0, h1, a.H(), live0, live0);
        LentTags(a.H(), a.Ix(), a.live, p);
        m := p + 8;
      }
    }
  }
}
