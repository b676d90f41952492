/**
 The allocator proper: malloc and free over one segment, with its bins, its
 designated victim and its top chunk.
 */
module Allocator {

  import opened BinMaps
  import opened ChunkSizes
  import opened FreeIndex
  import opened HeapSteps
  import opened Layouts
  import S = SmallBins
  import T = TreeBins
  import Tries

  const MAX_SMALL_REQUEST: nat := 244
  const MAX_REQUEST: nat := 0xFFFF_FFC0
  const MAX_SIZE_T: nat := 0xFFFF_FFFF

  /**
   The constants follow from a word of four bytes and an alignment of eight: a chunk is four
   words, its overhead one, and the end of the segment holds a record of four words and a
   least chunk.
   */
  lemma DerivedConstants()
    ensures MIN_CHUNK_SIZE == (4 * 4 + 7) / 8 * 8 && CHUNK_OVERHEAD == 4 && MIN_LARGE_SIZE == Pow2(8)
    ensures MAX_SMALL_REQUEST == MIN_LARGE_SIZE - 1 - 7 - CHUNK_OVERHEAD
    ensures MAX_REQUEST == WORD - 4 * MIN_CHUNK_SIZE && MAX_SIZE_T == WORD - 1 && WORD == Pow2(32)
    ensures TOP_FOOT_SIZE == RequestToSize(4 * 4) + MIN_CHUNK_SIZE
  {
    Pow2Values();
  }

  /** Head words and prev_foot words, by address of the chunk. */
  datatype Memory = Memory(head: Heads, foot: map<int, int>)

  /** The designated victim and the top chunk, with their cached sizes. */
  datatype Marks = Marks(dv: int, dvsize: nat, top: int, topsize: nat)

  // ---- which chunk a request is served from --------------------------------

  /** No binned chunk is large enough. */
  ghost predicate NoneFits(binned: Items, nb: nat) {
    forall y | y in binned :: binned[y] < nb
  }

  /** p is a binned chunk of the least size that is large enough. */
  ghost predicate BestFits(binned: Items, nb: nat, p: int) {
    && p in binned && binned[p] >= nb
    && forall y | y in binned && binned[y] >= nb :: binned[p] <= binned[y]
  }

  /** A small bin holds a chunk that would leave less than a minimal chunk over. */
  ghost predicate HasRemainderless(binned: Items, nb: nat) {
    exists y :: y in binned && binned[y] < MIN_LARGE_SIZE && (binned[y] == nb || binned[y] == nb + 8)
  }

  /** The victim is large enough. */
  predicate VictimFits(ix: Index, nb: nat) {
    nb <= ix.dvsize
  }

  /**
   A small request prefers a remainderless fit in a small bin, then the victim, then
   the best fit in the bins, then the top chunk.
   */
  ghost predicate ChosenSmall(ix: Index, top: int, nb: nat, p: int) {
    if HasRemainderless(ix.binned, nb) then BestFits(ix.binned, nb, p)
    else if VictimFits(ix, nb) then p == ix.dv
    else if NoneFits(ix.binned, nb) then p == top
    else BestFits(ix.binned, nb, p)
  }

  /**
   A large request takes the best fit among the bins and the victim, and the top
   chunk only if none of them fits.
   */
  ghost predicate ChosenLarge(ix: Index, top: int, nb: nat, p: int) {
    || (BestFits(ix.binned, nb, p) && (VictimFits(ix, nb) ==> ix.binned[p] < ix.dvsize))
    || (VictimFits(ix, nb) && p == ix.dv && forall y | y in ix.binned && ix.binned[y] >= nb :: ix.dvsize <= ix.binned[y])
    || (!VictimFits(ix, nb) && NoneFits(ix.binned, nb) && p == top)
  }

  /** The chunk p that a request of bytes bytes is served from. */
  ghost predicate Chosen(ix: Index, top: int, bytes: nat, p: int) {
    if bytes <= MAX_SMALL_REQUEST then ChosenSmall(ix, top, RequestToSize(bytes), p)
    else ChosenLarge(ix, top, RequestToSize(bytes), p)
  }

  lemma RightChoice(ix: Index, top: int, nb: nat, bytes: nat, p: int)
    requires nb == RequestToSize(bytes)
    requires || (BestFits(ix.binned, nb, p)
                 && if bytes <= MAX_SMALL_REQUEST then HasRemainderless(ix.binned, nb) || !VictimFits(ix, nb)
                    else VictimFits(ix, nb) ==> ix.binned[p] < ix.dvsize)
             || (&& (bytes <= MAX_SMALL_REQUEST ==>
                       !HasRemainderless(ix.binned, nb) && (VictimFits(ix, nb) || NoneFits(ix.binned, nb)))
                 && (bytes > MAX_SMALL_REQUEST ==>
                       forall y | y in ix.binned && ix.binned[y] >= nb :: nb <= ix.dvsize <= ix.binned[y])
                 && p == if VictimFits(ix, nb) then ix.dv else top)
    ensures Chosen(ix, top, bytes, p)
  {
    hide RequestToSize, HasRemainderless;
  }

  /** Something of at least nb bytes is free, when the top chunk has topsize bytes. */
  ghost predicate CanServe(ix: Index, topsize: int, nb: nat) {
    !NoneFits(ix.binned, nb) || VictimFits(ix, nb) || nb < topsize
  }

  // ---- what a request leaves in the index ----------------------------------

  /**
   The index when nb bytes of p have been lent out.  What is left of the victim stays the
   victim.  What is left of a binned chunk becomes the victim if the request was a small
   one, and then the old victim is binned; otherwise it is binned itself.  A remainder
   below the least chunk size is lent out with the rest.
   */
  function GrantedIndex(ix: Index, nb: nat, p: int, isSmall: bool): Index {
    if p in ix.binned then
      var rest, rsize := ix.binned - {p}, ix.binned[p] - nb;
      if rsize < MIN_CHUNK_SIZE then ix.(binned := rest)
      else if isSmall then Index(p + nb, rsize, if ix.dv != 0 then rest[ix.dv := ix.dvsize] else rest)
      else ix.(binned := rest[p + nb := rsize])
    else if ix.dv != 0 && p == ix.dv then
      if ix.dvsize - nb >= MIN_CHUNK_SIZE then ix.(dv := p + nb, dvsize := ix.dvsize - nb)
      else ix.(dv := 0, dvsize := 0)
    else ix
  }

  /**
   Small requests in a row: after one that has split a chunk, the next one is served from
   right behind it, if that is large enough and no small bin has a remainderless fit.
   */
  lemma NextBehind(ix: Index, top: int, nb: nat, p: int, nb2: nat, q: int)
    requires p > 0 && p in ix.binned && ix.binned[p] - nb >= MIN_CHUNK_SIZE
    requires var ix' := GrantedIndex(ix, nb, p, true);
             nb2 <= ix'.dvsize && !HasRemainderless(ix'.binned, nb2) && ChosenSmall(ix', top, nb2, q)
    ensures q == p + nb
  {
  }

  /** A request that is not served from the top chunk leaves it the same. */
  predicate SameTop(ms: Marks, ms': Marks) {
    ms'.top == ms.top && ms'.topsize == ms.topsize
  }

  /**
   The top chunk after a request of nb bytes that was given the address m.  It gives what
   it has to give from its lower end, and takes up what the system grants if it was too
   small.
   */
  predicate TopAfter(ms: Marks, ms': Marks, grant: nat, nb: nat, m: int) {
    if m == 0 then ms'.top == ms.top && ms'.topsize == ms.topsize + grant
    else if m - 8 != ms.top then SameTop(ms, ms')
    else ms'.top == ms.top + nb && ms'.topsize == ms.topsize - nb + if nb < ms.topsize then 0 else grant
  }

  lemma BestIsSome(binned: Items, nb: nat, p: int)
    ensures BestFits(binned, nb, p) ==> !NoneFits(binned, nb) && p in binned
    ensures HasRemainderless(binned, nb) ==> !NoneFits(binned, nb)
    ensures (forall y | y in binned && binned[y] >= nb :: false) ==> NoneFits(binned, nb)
  {
  }

  // ---- the bins of both kinds together -------------------------------------

  ghost predicate BinsApart(small: Items, tree: Items) {
    small.Keys !! tree.Keys
  }

  lemma UnionInsertSmall(small: Items, tree: Items, p: int, s: int)
    requires p !in small + tree
    ensures small[p := s] + tree == (small + tree)[p := s]
  {
  }

  lemma UnionInsertTree(small: Items, tree: Items, p: int, s: int)
    requires p !in small + tree
    ensures small + tree[p := s] == (small + tree)[p := s]
  {
  }

  lemma UnionRemoveSmall(small: Items, tree: Items, p: int)
    requires BinsApart(small, tree) && p in small
    ensures (small - {p}) + tree == (small + tree) - {p}
    ensures (small + tree)[p] == small[p]
  {
  }

  lemma UnionRemoveTree(small: Items, tree: Items, p: int)
    requires BinsApart(small, tree) && p in tree
    ensures small + (tree - {p}) == (small + tree) - {p}
    ensures (small + tree)[p] == tree[p]
  {
  }

  class Malloc {
    const base: int
    var mem: Memory
    var ms: Marks
    const small: S.SmallBinTable
    const tree: T.TreeBinTable
    ghost var chunks: set<int>
    ghost var live: Live

    ghost function H(): Layout
      reads this
    {
      Layout(base, chunks, mem.head, mem.foot, ms.top, ms.topsize)
    }

    ghost function Binned(): Items
      reads this, small, tree
    {
      small.items + tree.Items()
    }

    ghost function Ix(): Index
      reads this, small, tree
    {
      Index(ms.dv, ms.dvsize, Binned())
    }

    ghost predicate BinsOk()
      reads this, small, tree
    {
      small.Valid() && tree.Valid() && BinsApart(small.items, tree.Items())
    }

    ghost predicate Valid()
      reads this, small, tree
    {
      BinsOk() && Good(H(), Ix(), live)
    }

    /** Of the binned chunks of its size, x is the one to be used first: the latest in a small bin, or the trie node. */
    ghost predicate FirstOfSize(x: int)
      reads this, small, tree
    {
      && (x in small.items ==>
            var i := small.items[x] / 8;
            0 <= i < |small.bins| && small.bins[i] != [] && x == small.bins[i][0])
      && (x in tree.Items() ==> x in tree.m.lev)
    }

    /** A segment obtained from the system, all of it top chunk. */
    constructor (tbase: int, tsize: nat)
      requires 0 < tbase && tbase % 8 == 0 && tsize % 8 == 0 && tsize > TOP_FOOT_SIZE
      requires tbase + tsize <= WORD
      ensures Valid() && live == map[] && fresh(small) && fresh(tree)
      ensures H() == Fresh(tbase, tsize - TOP_FOOT_SIZE)
    {
      base := tbase;
      small := new S.SmallBinTable();
      tree := new T.TreeBinTable();
      var psize := tsize - TOP_FOOT_SIZE;
      mem := Memory(map[tbase := T.Head(psize, true, false)], map[]);
      ms := Marks(0, 0, tbase, psize);
      chunks := {};
      live := map[];
      new;
      FreshOk(tbase, psize);
    }

    // ---- bins --------------------------------------------------------------

    /** Files the free chunk p of size s in the bin for its size. */
    method InsertChunk(p: int, s: nat)
      requires BinsOk() && p > 0 && p !in Binned()
      requires s % 8 == 0 && MIN_CHUNK_SIZE <= s < WORD
      requires T.Agree(mem.head, tree.Items())
      modifies small, tree
      ensures BinsOk() && Binned() == old(Binned())[p := s]
    {
      hide S.BinsOk, T.State.Ok;
      UnionInsertSmall(small.items, tree.Items(), p, s);
      UnionInsertTree(small.items, tree.Items(), p, s);
      if s < MIN_LARGE_SIZE {
        small.InsertSmallChunk(p, s);
      } else {
        tree.InsertLargeChunk(p, s, mem.head);
      }
    }

    /** Takes the free chunk p of size s out of the bin for its size. */
    method UnlinkChunk(p: int, s: nat)
      requires BinsOk() && p in Binned() && Binned()[p] == s
      modifies small, tree
      ensures BinsOk() && Binned() == old(Binned()) - {p}
    {
      hide S.BinsOk, T.State.Ok;
      SizesTell(p);
      if s < MIN_LARGE_SIZE {
        UnionRemoveSmall(small.items, tree.Items(), p);
        small.UnlinkSmallChunk(p, s);
      } else {
        UnionRemoveTree(small.items, tree.Items(), p);
        tree.UnlinkLargeChunk(p);
      }
    }

    // ---- tags --------------------------------------------------------------

    /** Sets size, pinuse bit and foot of the free chunk p. */
    method SetSizeAndPinuseOfFreeChunk(p: int, s: nat)
      modifies this`mem
      ensures mem == Memory(old(mem).head[p := T.Head(s, true, false)], old(mem).foot[p + s := s])
    {
      mem := mem.(head := mem.head[p := T.Head(s, true, false)]);
      mem := mem.(foot := mem.foot[p + s := s]);
    }

    /** The same, and clears the pinuse bit of the chunk n after it. */
    method SetFreeWithPinuse(p: int, s: nat, n: int)
      requires n in mem.head
      modifies this`mem
      ensures mem == Memory(old(mem).head[n := old(mem).head[n].(pinuse := false)][p := T.Head(s, true, false)],
                            old(mem).foot[p + s := s])
    {
      mem := mem.(head := mem.head[n := mem.head[n].(pinuse := false)]);
      SetSizeAndPinuseOfFreeChunk(p, s);
    }

    /** Marks p, of s bytes, as in use, in its own tag and in the tag after it. */
    method SetInuse(p: int, s: nat)
      requires p in mem.head && p + s in mem.head && s > 0
      modifies this`mem
      ensures mem == old(mem).(head := old(mem).head[p := T.Head(s, old(mem).head[p].pinuse, true)]
                                                    [p + s := old(mem).head[p + s].(pinuse := true)])
    {
      mem := mem.(head := mem.head[p := T.Head(s, mem.head[p].pinuse, true)]);
      mem := mem.(head := mem.head[p + s := mem.head[p + s].(pinuse := true)]);
    }

    // ---- free --------------------------------------------------------------

    /**
     Gives the block at address m back.  The chunk is merged with the free chunks
     around it and the result is indexed; every other block is left alone.
     */
    method Free(m: int)
      requires Valid() && (m == 0 || m - 8 in live)
      modifies this, small, tree
      ensures Valid()
      ensures m == 0 ==> live == old(live) && H() == old(H()) && Ix() == old(Ix())
      ensures m != 0 ==> live == old(live) - {m - 8} && Ix() == ReleasedIndex(old(H()), old(Ix()), m - 8)
      ensures Untouched(old(H()), H(), live)
    {
      hide S.BinsOk, T.State.Ok, Good, MergeFree, HighEnd, LowEnd, Untouched;
      if m == 0 {
        SameUntouched(H(), Ix(), live);
        return;
      }
      var p := m - 8;
      ghost var h0, ix0, live0, p0 := H(), Ix(), live, p;
      ReleaseFacts(h0, ix0, live0, p);
      var psize := mem.head[p].size;
      var next := p + psize;
      if !mem.head[p].pinuse {
        var prevsize := mem.foot[p];
        psize := psize + prevsize;
        p := p - prevsize;
        if p != ms.dv {
          UnlinkChunk(p, prevsize);
        } else if mem.head[next].pinuse && mem.head[next].cinuse {
          ms := ms.(dvsize := psize);
          SetFreeWithPinuse(p, psize, next);
          GiveToVictim(h0, ix0, live0, p0);
          MergeFreeTags(h0, p, next);
          chunks := MergeFree(h0, p, next).C;
          live := live - {p0};
          assert H() == MergeFree(h0, p, next);
          assert Ix() == Shrunk(h0, ix0, p0).(dv := p, dvsize := next - p);
          return;
        }
      }
      FreeForward(p, psize, next, h0, ix0, live0, p0);
    }

    /** Free has reached the chunk after p0; p is the low end of the merge and out of the bins. */
    ghost predicate Releasing(h0: Layout, ix0: Index, live0: Live, p0: int, p: int, psize: nat, next: int)
      reads this, small, tree
    {
      && BinsOk() && H() == h0 && live == live0 && Good(h0, ix0, live0) && p0 in live0
      && p == LowEnd(h0, p0) && next == h0.Next(p0) && p + psize == next
      && ms.dv == ix0.dv && ms.dvsize == ix0.dvsize
      && Binned() == (if p != p0 && p != ix0.dv then ix0.binned - {p} else ix0.binned)
      && (p == ix0.dv ==> next in h0.head && !h0.head[next].cinuse)
    }

    /** The second half of Free: merging with what follows, and indexing the result. */
    method FreeForward(p: int, psize0: nat, next: int,
                       ghost h0: Layout, ghost ix0: Index, ghost live0: Live, ghost p0: int)
      requires Releasing(h0, ix0, live0, p0, p, psize0, next)
      modifies this, small, tree
      ensures Valid() && live == live0 - {p0} && Untouched(h0, H(), live) && Ix() == ReleasedIndex(h0, ix0, p0)
    {
      hide S.BinsOk, T.State.Ok, Good, MergeFree, HighEnd, LowEnd, Untouched, ReleasedIndex;
      ReleaseFacts(h0, ix0, live0, p0);
      var psize := psize0;
      if !mem.head[next].cinuse {
        if next == ms.top {
          JoinTop(p, psize, next, h0, ix0, live0, p0);
          return;
        } else if next == ms.dv {
          JoinVictim(p, psize, next, h0, ix0, live0, p0);
          return;
        } else {
          var nsize := mem.head[next].size;
          psize := psize + nsize;
          UnlinkChunk(next, nsize);
          SetSizeAndPinuseOfFreeChunk(p, psize);
          MergeFreeTags(h0, p, p + psize);
          if p == ms.dv {
            ms := ms.(dvsize := psize);
            GiveToVictim(h0, ix0, live0, p0);
            chunks := MergeFree(h0, p, p + psize).C;
            live := live - {p0};
            assert H() == MergeFree(h0, p, p + psize);
            assert Ix() == Shrunk(h0, ix0, p0).(dv := p, dvsize := psize);
            VictimGrows(h0, ix0, p0);
            return;
          }
        }
      } else {
        SetFreeWithPinuse(p, psize, next);
        MergeFreeTags(h0, p, p + psize);
      }
      FileFreed(p, psize, h0, ix0, live0, p0);
    }

    /** What follows is the top chunk: p becomes its new beginning. */
    method JoinTop(p: int, psize: nat, next: int,
                   ghost h0: Layout, ghost ix0: Index, ghost live0: Live, ghost p0: int)
      requires Releasing(h0, ix0, live0, p0, p, psize, next) && next == ms.top
      modifies this, small, tree
      ensures Valid() && live == live0 - {p0} && Untouched(h0, H(), live) && Ix() == ReleasedIndex(h0, ix0, p0)
    {
      hide S.BinsOk, T.State.Ok, Good, MergeTop, LowEnd, Untouched;
      ReleaseFacts(h0, ix0, live0, p0);
      var tsize := ms.topsize + psize;
      ms := ms.(topsize := tsize);
      ms := ms.(top := p);
      mem := mem.(head := mem.head[p := T.Head(tsize, true, false)]);
      if p == ms.dv {
        ms := ms.(dv := 0, dvsize := 0);
      }
      GiveToTopUntouched(h0, ix0, live0, p0);
      MergeTopTags(h0, p);
      chunks := MergeTop(h0, p).C;
      live := live - {p0};
      assert H() == MergeTop(h0, p);
      assert Ix() == Shrunk(h0, ix0, p0);
    }

    /** What follows is the victim: it grows downwards to p. */
    method JoinVictim(p: int, psize: nat, next: int,
                      ghost h0: Layout, ghost ix0: Index, ghost live0: Live, ghost p0: int)
      requires Releasing(h0, ix0, live0, p0, p, psize, next)
      requires next == ms.dv && next != ms.top && next in h0.head && !h0.head[next].cinuse
      modifies this, small, tree
      ensures Valid() && live == live0 - {p0} && Untouched(h0, H(), live) && Ix() == ReleasedIndex(h0, ix0, p0)
    {
      hide S.BinsOk, T.State.Ok, Good, MergeFree, HighEnd, LowEnd, Untouched;
      ReleaseFacts(h0, ix0, live0, p0);
      var dsize := ms.dvsize + psize;
      ms := ms.(dvsize := dsize);
      ms := ms.(dv := p);
      SetSizeAndPinuseOfFreeChunk(p, dsize);
      GiveToVictim(h0, ix0, live0, p0);
      MergeFreeTags(h0, p, p + dsize);
      chunks := MergeFree(h0, p, p + dsize).C;
      live := live - {p0};
      assert H() == MergeFree(h0, p, p + dsize);
      assert Ix() == Shrunk(h0, ix0, p0).(dv := p, dvsize := dsize);
    }

    /** The merged chunk p, whose tags are set, goes to its bin. */
    method FileFreed(p: int, psize: nat,
                     ghost h0: Layout, ghost ix0: Index, ghost live0: Live, ghost p0: int)
      requires BinsOk() && live == live0 && Good(h0, ix0, live0) && p0 in live0
      requires h0.Next(p0) != h0.top && p == LowEnd(h0, p0) && p + psize == HighEnd(h0, p0)
      requires 0 < p < p + psize && p + psize in h0.head && p != ix0.dv && h0.Next(p0) != ix0.dv
      requires H() == MergeFree(h0, p, p + psize).(C := chunks) && Ix() == Shrunk(h0, ix0, p0)
      modifies this, small, tree
      ensures Valid() && live == live0 - {p0} && Untouched(h0, H(), live) && Ix() == ReleasedIndex(h0, ix0, p0)
    {
      hide S.BinsOk, T.State.Ok, Good, MergeFree, HighEnd, LowEnd, Untouched, Shrunk, T.Agree;
      GiveToBin(h0, ix0, live0, p0);
      TreeAgrees(mem.head, small.items, tree.Items());
      InsertChunk(p, psize);
      chunks := MergeFree(h0, p, p + psize).C;
      live := live - {p0};
      assert H() == MergeFree(h0, p, p + psize);
    }

    // ---- malloc: lending a chunk out ---------------------------------------

    /** p was lent out, for a padded request of nb bytes, since the layout h0; nothing else changed. */
    ghost predicate Granted(h0: Layout, live0: Live, p: int, nb: nat, bytes: nat)
      reads this
    {
      && p > 0 && p !in live0 && live == live0[p := bytes]
      && nb <= H().Size(p) < nb + MIN_CHUNK_SIZE
      && Untouched(h0, H(), live0)
    }

    /** The free chunk p of size s, out of the index, is lent out whole. */
    method TakeWhole(p: int, s: nat, ghost nb: nat, ghost bytes: nat)
      requires BinsOk() && GoodExcept(H(), Ix(), live, {p})
      requires p in chunks && !H().Inuse(p) && H().Size(p) == s && bytes + CHUNK_OVERHEAD <= nb <= s < nb + MIN_CHUNK_SIZE
      modifies this
      ensures Valid() && Granted(old(H()), old(live), p, nb, bytes) && ms == old(ms)
    {
      hide S.BinsOk, T.State.Ok, LayoutOk, IndexExcept, LiveOk, Untouched, SameBut;
      ghost var h0 := H();
      GrantWhole(h0, Ix(), live, p, bytes);
      NullNotChunk(h0);
      UntouchedBy(h0, UseWhole(h0, p), live, live, {p});
      mem := mem.(head := mem.head[p := T.Head(s, true, true)]);
      mem := mem.(head := mem.head[p + s := mem.head[p + s].(pinuse := true)]);
      live := live[p := bytes];
      assert H() == UseWhole(h0, p);
    }

    /** The lower nb bytes of the free chunk p of size s are lent out; r is what remains. */
    method TakeSplit(p: int, s: nat, nb: nat, ghost bytes: nat) returns (r: int, rsize: nat)
      requires BinsOk() && GoodExcept(H(), Ix(), live, {p})
      requires p in chunks && !H().Inuse(p) && H().Size(p) == s
      requires nb % 8 == 0 && bytes + CHUNK_OVERHEAD <= nb && MIN_CHUNK_SIZE <= nb && nb + MIN_CHUNK_SIZE <= s
      modifies this
      ensures BinsOk() && GoodExcept(H(), Ix(), live, {r}) && ms == old(ms)
      ensures r in chunks && r > 0 && !H().Inuse(r) && H().Size(r) == rsize && r in mem.head
      ensures r == p + nb && rsize == s - nb
      ensures Granted(old(H()), old(live), p, nb, bytes)
    {
      hide S.BinsOk, T.State.Ok, LayoutOk, IndexExcept, LiveOk, Untouched, SameBut;
      ghost var h0 := H();
      GrantSplit(h0, Ix(), live, p, nb, bytes);
      NullNotChunk(h0);
      SplitUntouched(h0, UseSplit(h0, p, nb), live, p, p + nb);
      r, rsize := p + nb, s - nb;
      mem := mem.(head := mem.head[p := T.Head(nb, true, true)]);
      SetSizeAndPinuseOfFreeChunk(r, rsize);
      live := live[p := bytes];
      chunks := chunks + {r};
      assert H() == UseSplit(h0, p, nb);
    }

    /** The remainder r becomes the victim; the old one, which is small, goes to its bin. */
    method ReplaceVictim(r: int, rsize: nat)
      requires BinsOk() && GoodExcept(H(), Ix(), live, {r}) && ms.dvsize < MIN_LARGE_SIZE
      requires r in chunks && r in mem.head && r > 0 && !H().Inuse(r) && H().Size(r) == rsize
      modifies this`ms, small
      ensures Valid() && H() == old(H()) && live == old(live)
      ensures Ix() == Index(r, rsize, if old(ms.dv) != 0 then old(Binned())[old(ms.dv) := old(ms.dvsize)]
                                      else old(Binned()))
    {
      hide S.BinsOk, T.State.Ok, GoodExcept;
      VictimToBin(H(), Ix(), live, r);
      if ms.dvsize != 0 {
        UnionInsertSmall(small.items, tree.Items(), ms.dv, ms.dvsize);
        small.InsertSmallChunk(ms.dv, ms.dvsize);
      }
      ms := ms.(dvsize := rsize);
      ms := ms.(dv := r);
    }

    // ---- malloc: where the chunk comes from --------------------------------

    /** Takes the first chunk out of the marked small bin i. */
    method TakeFromSmallBin(i: nat) returns (p: int)
      requires Valid() && i < NBINS && Marked(small.smallmap, i)
      modifies small
      ensures BinsOk() && GoodExcept(H(), Ix(), live, {p}) && H() == old(H()) && live == old(live)
      ensures p in chunks && !H().Inuse(p) && H().Size(p) == 8 * i
      ensures p in old(Binned()) && old(Binned())[p] == 8 * i && old(FirstOfSize(p))
      ensures Ix() == old(Ix()).(binned := old(Binned()) - {p})
    {
      hide S.BinsOk, T.State.Ok, GoodExcept, Marked;
      ghost var ix0 := Ix();
      p := small.UnlinkFirstSmallChunk(i);
      UnionRemoveSmall(old(small.items), tree.Items(), p);
      OutOfBins(H(), ix0, live, p);
    }

    /** Takes the chunk v out of the tree bins. */
    method TakeFromTrees(v: int)
      requires Valid() && v in tree.Items()
      modifies tree
      ensures BinsOk() && GoodExcept(H(), Ix(), live, {v}) && H() == old(H()) && live == old(live)
      ensures v in chunks && !H().Inuse(v) && H().Size(v) == old(tree.Items())[v] == old(Binned())[v]
      ensures Ix() == old(Ix()).(binned := old(Binned()) - {v})
    {
      hide S.BinsOk, T.State.Ok, GoodExcept;
      ghost var ix0 := Ix();
      UnionRemoveTree(small.items, tree.Items(), v);
      tree.UnlinkLargeChunk(v);
      OutOfBins(H(), ix0, live, v);
    }

    /** A small request, from the smallest chunk in the tree bins. */
    method TmallocSmall(nb: nat, ghost bytes: nat) returns (p: int)
      requires Valid() && tree.treemap != 0 && ms.dvsize < nb
      requires nb % 8 == 0 && MIN_CHUNK_SIZE <= nb < MIN_LARGE_SIZE && bytes + CHUNK_OVERHEAD <= nb
      modifies this, small, tree
      ensures Valid() && Granted(old(H()), old(live), p, nb, bytes)
      ensures Ix() == GrantedIndex(old(Ix()), nb, p, true) && SameTop(old(ms), ms) && old(FirstOfSize(p))
      ensures p in old(tree.Items()) && forall y | y in old(tree.Items()) :: old(tree.Items())[p] <= old(tree.Items())[y]
    {
      hide S.BinsOk, T.State.Ok, GoodExcept, Untouched;
      TreeHeads(H(), Ix(), live, small.items, tree.Items());
      var rsize;
      p, rsize := tree.FindSmallest(nb, mem.head);
      TakeFromTrees(p);
      if rsize < MIN_CHUNK_SIZE {
        TakeWhole(p, rsize + nb, nb, bytes);
      } else {
        var r, rs := TakeSplit(p, rsize + nb, nb, bytes);
        ReplaceVictim(r, rs);
      }
    }

    /**
     A large request, from the best fit in the tree bins; null if none fits, or if the
     victim fits at least as well.
     */
    method TmallocLarge(nb: nat, ghost bytes: nat) returns (p: int)
      requires Valid() && Tries.SizeOk(nb) && bytes + CHUNK_OVERHEAD <= nb
      modifies this, small, tree
      ensures Valid()
      ensures p == 0 ==> H() == old(H()) && Ix() == old(Ix()) && live == old(live)
      ensures p != 0 ==> Granted(old(H()), old(live), p, nb, bytes)
      ensures p != 0 ==> Ix() == GrantedIndex(old(Ix()), nb, p, false) && SameTop(old(ms), ms) && old(FirstOfSize(p))
      ensures p != 0 ==> BestFits(old(tree.Items()), nb, p)
      ensures p != 0 && nb <= old(ms.dvsize) ==> old(tree.Items())[p] < old(ms.dvsize)
      ensures p == 0 ==> forall y | y in old(tree.Items()) && old(tree.Items())[y] >= nb ::
                           nb <= ms.dvsize <= old(tree.Items())[y]
    {
      hide S.BinsOk, T.State.Ok, GoodExcept, Untouched, GrantedIndex;
      TreeHeads(H(), Ix(), live, small.items, tree.Items());
      TreeSizes(tree.S());
      VictimSize(H(), Ix(), live);
      var v, rsize := tree.FindLarge(nb, mem.head);
      VictimTest(nb, rsize, ms.dvsize);
      if v != 0 && rsize < Wrap(ms.dvsize - nb) {
        p := v;
        UseTreeChunk(p, rsize, nb, bytes);
      } else {
        p := 0;
      }
    }

    /** The chunk p of the tree bins, which has rsize bytes more than needed: what is left of it is binned. */
    method UseTreeChunk(p: int, rsize: nat, nb: nat, ghost bytes: nat)
      requires Valid() && Tries.SizeOk(nb) && bytes + CHUNK_OVERHEAD <= nb
      requires p in tree.Items() && tree.Items()[p] == nb + rsize
      modifies this, small, tree
      ensures Valid() && Granted(old(H()), old(live), p, nb, bytes)
      ensures Ix() == GrantedIndex(old(Ix()), nb, p, false) && SameTop(old(ms), ms)
    {
      hide S.BinsOk, T.State.Ok, GoodExcept, Untouched;
      TakeFromTrees(p);
      if rsize < MIN_CHUNK_SIZE {
        TakeWhole(p, rsize + nb, nb, bytes);
      } else {
        var r, rs := TakeSplit(p, rsize + nb, nb, bytes);
        FileRemainder(r, rs);
      }
    }

    /** The remainder r goes to the bin for its size. */
    method FileRemainder(r: int, rsize: nat)
      requires BinsOk() && GoodExcept(H(), Ix(), live, {r})
      requires r in chunks && r in mem.head && r > 0 && !H().Inuse(r) && H().Size(r) == rsize
      modifies small, tree
      ensures Valid() && H() == old(H()) && live == old(live)
      ensures Ix() == old(Ix()).(binned := old(Binned())[r := rsize])
    {
      hide S.BinsOk, T.State.Ok, GoodExcept;
      RemainderFacts(H(), Ix(), live, r);
      TreeAgrees(mem.head, small.items, tree.Items());
      InsertChunk(r, rsize);
    }

    /** From the victim: split it, or use it up. */
    method UseVictim(nb: nat, ghost bytes: nat) returns (p: int)
      requires Valid() && nb <= ms.dvsize
      requires nb % 8 == 0 && MIN_CHUNK_SIZE <= nb && bytes + CHUNK_OVERHEAD <= nb
      modifies this
      ensures Valid() && Granted(old(H()), old(live), p, nb, bytes) && p == old(ms.dv)
      ensures SameTop(old(ms), ms) && forall isSmall :: Ix() == GrantedIndex(old(Ix()), nb, p, isSmall)
    {
      hide S.BinsOk, T.State.Ok, GoodExcept, Untouched;
      NotIndexed(H(), Ix(), live);
      var dvs := ms.dvsize;
      p := ms.dv;
      VictimOut(H(), Ix(), live);
      ms := ms.(dvsize := 0, dv := 0);
      if dvs - nb >= MIN_CHUNK_SIZE {
        var r, rsize := TakeSplit(p, dvs, nb, bytes);
        VictimToBin(H(), Ix(), live, r);
        ms := ms.(dvsize := rsize, dv := r);
      } else {
        TakeWhole(p, dvs, nb, bytes);
      }
    }

    /** From the top chunk. */
    method SplitTop(nb: nat, ghost bytes: nat) returns (p: int)
      requires Valid() && nb < ms.topsize
      requires nb % 8 == 0 && MIN_CHUNK_SIZE <= nb && bytes + CHUNK_OVERHEAD <= nb
      modifies this
      ensures Valid() && Granted(old(H()), old(live), p, nb, bytes) && p == old(ms.top)
      ensures Ix() == old(Ix()) && ms.top == p + nb && ms.topsize == old(ms.topsize) - nb
    {
      hide S.BinsOk, T.State.Ok, LayoutOk, IndexExcept, LiveOk, Untouched, SameBut;
      ghost var h0 := H();
      GrantTop(h0, Ix(), live, nb, bytes);
      NullNotChunk(h0);
      UntouchedBy(h0, UseTop(h0, nb), live, live, {h0.top});
      p := ms.top;
      var rsize := ms.topsize - nb;
      ms := ms.(topsize := rsize);
      var r := p + nb;
      ms := ms.(top := r);
      mem := mem.(head := mem.head[r := T.Head(rsize, true, false)]);
      mem := mem.(head := mem.head[p := T.Head(nb, true, true)]);
      chunks := chunks + {p};
      live := live[p := bytes];
      assert H() == UseTop(h0, nb);
    }

    /** The segment grows at its end by tsize bytes, or shrinks; the top chunk takes it up. */
    method InitTop(tsize: nat)
      requires Valid() && 0 < tsize && tsize % 8 == 0 && ms.top + tsize + TOP_FOOT_SIZE <= WORD
      modifies this
      ensures Valid() && live == old(live) && ms == old(ms).(topsize := tsize)
      ensures Untouched(old(H()), H(), live) && Ix() == old(Ix()) && chunks == old(chunks)
    {
      hide S.BinsOk, T.State.Ok, LayoutOk, IndexExcept, Untouched, SameBut;
      ghost var h0 := H();
      ResizeGood(h0, Ix(), live, tsize);
      UntouchedBy(h0, ResizeTop(h0, tsize), live, live, {});
      ms := ms.(topsize := tsize);
      mem := mem.(head := mem.head[ms.top := T.Head(tsize, true, false)]);
      assert H() == ResizeTop(h0, tsize);
    }

    // ---- malloc ------------------------------------------------------------

    /**
     A small request, from the bins: a remainderless fit in a small bin; or, if the
     victim is too small, the next non-empty small bin, or else the tree bins.
     */
    method MallocFromBins(nb: nat, ghost bytes: nat) returns (p: int)
      requires Valid() && nb % 8 == 0 && MIN_CHUNK_SIZE <= nb < MIN_LARGE_SIZE && bytes + CHUNK_OVERHEAD <= nb
      modifies this, small, tree
      ensures Valid()
      ensures p == 0 ==> H() == old(H()) && Ix() == old(Ix()) && live == old(live)
      ensures p == 0 ==> !HasRemainderless(Binned(), nb) && (nb <= ms.dvsize || NoneFits(Binned(), nb))
      ensures p != 0 ==> Granted(old(H()), old(live), p, nb, bytes) && BestFits(old(Binned()), nb, p)
      ensures p != 0 ==> HasRemainderless(old(Binned()), nb) || old(ms.dvsize) < nb
      ensures p != 0 ==> Ix() == GrantedIndex(old(Ix()), nb, p, true) && SameTop(old(ms), ms) && old(FirstOfSize(p))
    {
      hide S.BinsOk, T.State.Ok, GoodExcept, Untouched, Marked, BestFits, HasRemainderless, NoneFits;
      hide Shifted, Unshifted, Above, LowTwo, LowClear;
      var idx := nb / 8;
      var smallbits := Shifted(small.smallmap, idx);
      SmallSizes(small.bins, small.items, small.smallmap, small.fd, small.bk);
      TreeSizes(tree.S());
      SmallBinFacts(small.smallmap, small.items, tree.Items(), idx);
      if LowTwo(smallbits) {
        p := UseRemainderless(idx + LowClear(smallbits), idx, bytes);
      } else if nb > ms.dvsize {
        if smallbits != 0 {
          var leftbits := Unshifted(smallbits, idx);
          p := UseLaterBin(LeastMarked(leftbits), idx, bytes);
        } else if tree.treemap != 0 {
          p := TmallocSmall(nb, bytes);
          TreesOnly(old(small.items), old(tree.Items()), nb, p);
        } else {
          p := 0;
        }
      } else {
        p := 0;
      }
    }

    /** A whole chunk from bin i, which is bin idx or the one after it. */
    method UseRemainderless(i: nat, idx: nat, ghost bytes: nat) returns (p: int)
      requires Valid() && 2 <= idx < NBINS && i < NBINS && bytes + CHUNK_OVERHEAD <= 8 * idx
      requires MarksTell(small.smallmap, small.items, tree.Items())
      requires Marked(small.smallmap, i) && i == if Marked(small.smallmap, idx) then idx else idx + 1
      modifies this, small, tree
      ensures Valid() && Granted(old(H()), old(live), p, 8 * idx, bytes)
      ensures BestFits(old(Binned()), 8 * idx, p) && HasRemainderless(old(Binned()), 8 * idx)
      ensures Ix() == GrantedIndex(old(Ix()), 8 * idx, p, true) && SameTop(old(ms), ms) && old(FirstOfSize(p))
    {
      hide S.BinsOk, T.State.Ok, GoodExcept, Untouched, Marked, BestFits, HasRemainderless, MarksTell;
      p := TakeFromSmallBin(i);
      FirstBins(old(small.smallmap), old(small.items), tree.Items(), idx, p);
      TakeWhole(p, 8 * i, 8 * idx, bytes);
    }

    /** Part of a chunk from bin i, the first non-empty one after bins idx and idx + 1. */
    method UseLaterBin(i: nat, idx: nat, ghost bytes: nat) returns (p: int)
      requires Valid() && 2 <= idx && idx + 2 <= i < NBINS && bytes + CHUNK_OVERHEAD <= 8 * idx
      requires MarksTell(small.smallmap, small.items, tree.Items()) && ms.dvsize < 8 * idx
      requires Marked(small.smallmap, i) && forall j: nat | idx <= j < i :: !Marked(small.smallmap, j)
      modifies this, small, tree
      ensures Valid() && Granted(old(H()), old(live), p, 8 * idx, bytes)
      ensures BestFits(old(Binned()), 8 * idx, p)
      ensures Ix() == GrantedIndex(old(Ix()), 8 * idx, p, true) && SameTop(old(ms), ms) && old(FirstOfSize(p))
    {
      hide S.BinsOk, T.State.Ok, GoodExcept, Untouched, Marked, BestFits, MarksTell;
      p := TakeFromSmallBin(i);
      LaterBins(old(small.smallmap), old(small.items), tree.Items(), idx, i, p);
      var r, rsize := TakeSplit(p, 8 * i, 8 * idx, bytes);
      ReplaceVictim(r, rsize);
    }

    /** Memory from the system: grant more bytes at the end of the segment, or none. */
    method SysAlloc(nb: nat, ghost bytes: nat, grant: nat) returns (p: int)
      requires Valid() && grant % 8 == 0 && ms.top + ms.topsize + grant + TOP_FOOT_SIZE <= WORD
      requires nb >= ms.topsize
      requires nb == MAX_SIZE_T || (nb % 8 == 0 && MIN_CHUNK_SIZE <= nb && bytes + CHUNK_OVERHEAD <= nb)
      modifies this
      ensures Valid()
      ensures p == 0 ==> live == old(live) && Untouched(old(H()), H(), live)
      ensures p != 0 ==> Granted(old(H()), old(live), p, nb, bytes) && p == old(ms.top)
      ensures p != 0 <==> nb < old(ms.topsize) + grant
      ensures Ix() == old(Ix()) && ms.top == old(ms.top) + (if p != 0 then nb else 0)
      ensures ms.topsize == old(ms.topsize) + grant - (if p != 0 then nb else 0)
    {
      hide S.BinsOk, T.State.Ok, Good, Untouched;
      TopSize(H(), Ix(), live);
      p := 0;
      if grant > 0 {
        InitTop(ms.topsize + grant);
        if nb < ms.topsize {
          ghost var h1 := H();
          p := SplitTop(nb, bytes);
          UntouchedTrans(old(H()), h1, H(), old(live));
        }
      } else {
        SameUntouched(H(), Ix(), live);
      }
    }

    /**
     The allocation routine.  A block is found whenever the bins, the victim, the top
     chunk or the memory that the system grants can serve the request.
     */
    method Dlmalloc(bytes: nat, grant: nat) returns (m: int)
      requires Valid() && bytes < WORD
      requires grant % 8 == 0 && ms.top + ms.topsize + grant + TOP_FOOT_SIZE <= WORD
      modifies this, small, tree
      ensures Valid()
      ensures m == 0 ==> live == old(live) && Untouched(old(H()), H(), live)
      ensures m != 0 ==> Granted(old(H()), old(live), m - 8, RequestToSize(bytes), bytes)
      ensures m != 0 ==> Chosen(old(Ix()), old(ms.top), bytes, m - 8)
      ensures m != 0 <==> bytes < MAX_REQUEST && CanServe(old(Ix()), old(ms.topsize) + grant, RequestToSize(bytes))
      ensures m != 0 && m - 8 in old(Binned()) ==> old(FirstOfSize(m - 8))
      ensures m == 0 ==> Ix() == old(Ix())
      ensures m != 0 ==> Ix() == GrantedIndex(old(Ix()), RequestToSize(bytes), m - 8, bytes <= MAX_SMALL_REQUEST)
      ensures TopAfter(old(ms), ms, grant, RequestToSize(bytes), m)
    {
      hide S.BinsOk, T.State.Ok, Good, Untouched, BestFits, HasRemainderless, NoneFits, GrantedIndex, Chosen;
      NotIndexed(H(), Ix(), live);
      var nb: nat := MAX_SIZE_T;
      var p := 0;
      ghost var ix0 := Ix();
      TopSize(H(), Ix(), live);
      VictimSize(H(), Ix(), live);
      if bytes <= MAX_SMALL_REQUEST {
        nb := RequestToSize(bytes);
        p := MallocFromBins(nb, bytes);
      } else if bytes < MAX_REQUEST {
        nb := PadRequest(bytes);
        p := MallocFromTrees(nb, bytes);
      }
      if p == 0 {
        p := ServeElsewhere(nb, bytes, grant);
        assert p != 0 ==> p !in ix0.binned;
      }
      BestIsSome(ix0.binned, nb, p);
      if p != 0 {
        RightChoice(ix0, old(ms.top), nb, bytes, p);
      }
      m := if p == 0 then 0 else p + 8;
    }

    /** From the victim if it is large enough, or else from the top chunk, which may have to grow. */
    method ServeElsewhere(nb: nat, ghost bytes: nat, grant: nat) returns (p: int)
      requires Valid() && grant % 8 == 0 && ms.top + ms.topsize + grant + TOP_FOOT_SIZE <= WORD
      requires nb == MAX_SIZE_T || (nb % 8 == 0 && MIN_CHUNK_SIZE <= nb && bytes + CHUNK_OVERHEAD <= nb)
      modifies this
      ensures Valid()
      ensures p == 0 ==> live == old(live) && Untouched(old(H()), H(), live) && Ix() == old(Ix())
      ensures p != 0 ==> Granted(old(H()), old(live), p, nb, bytes)
      ensures p != 0 ==> forall isSmall :: Ix() == GrantedIndex(old(Ix()), nb, p, isSmall)
      ensures p != 0 ==> p == if nb <= old(ms.dvsize) then old(ms.dv) else old(ms.top)
      ensures p != 0 <==> nb <= old(ms.dvsize) || nb < old(ms.topsize) + grant
      ensures TopAfter(old(ms), ms, grant, nb, if p == 0 then 0 else p + 8)
    {
      hide S.BinsOk, T.State.Ok, Good, Untouched, GrantedIndex;
      NotIndexed(H(), Ix(), live);
      TopGrants(Ix(), ms.top);
      VictimSize(H(), Ix(), live);
      TopSize(H(), Ix(), live);
      if nb <= ms.dvsize {
        p := UseVictim(nb, bytes);
      } else if nb < ms.topsize {
        p := SplitTop(nb, bytes);
      } else {
        p := SysAlloc(nb, bytes, grant);
      }
    }

    /** A large request, from the tree bins if there are any. */
    method MallocFromTrees(nb: nat, ghost bytes: nat) returns (p: int)
      requires Valid() && Tries.SizeOk(nb) && bytes + CHUNK_OVERHEAD <= nb
      modifies this, small, tree
      ensures Valid()
      ensures p == 0 ==> H() == old(H()) && Ix() == old(Ix()) && live == old(live)
      ensures p != 0 ==> Granted(old(H()), old(live), p, nb, bytes)
      ensures p != 0 ==> BestFits(old(Binned()), nb, p) && (nb <= old(ms.dvsize) ==> old(Binned())[p] < old(ms.dvsize))
      ensures p != 0 ==> Ix() == GrantedIndex(old(Ix()), nb, p, false) && SameTop(old(ms), ms) && old(FirstOfSize(p))
      ensures p == 0 ==> forall y | y in Binned() && Binned()[y] >= nb :: nb <= ms.dvsize <= Binned()[y]
    {
      hide S.BinsOk, T.State.Ok, Good, Untouched;
      p := 0;
      SmallSizes(small.bins, small.items, small.smallmap, small.fd, small.bk);
      TreeSizes(tree.S());
      ghost var small0, tree0 := small.items, tree.Items();
      if tree.treemap != 0 {
        p := TmallocLarge(nb, bytes);
      }
      LargeFromTrees(small0, tree0, nb, p, ms.dvsize);
    }

    /** Small bins hold the binned chunks below the limit, tree bins the others. */
    lemma SizesTell(p: int)
      requires BinsOk() && p in Binned()
      ensures p in small.items <==> Binned()[p] < MIN_LARGE_SIZE
      ensures p in tree.Items() <==> Binned()[p] >= MIN_LARGE_SIZE
    {
    }
  }

  lemma VictimGrows(h: Layout, ix: Index, p: int)
    requires h.Next(p) != h.top && (LowEnd(h, p) == ix.dv || h.Next(p) == ix.dv)
    ensures ReleasedIndex(h, ix, p)
         == Shrunk(h, ix, p).(dv := LowEnd(h, p), dvsize := HighEnd(h, p) - LowEnd(h, p))
  {
  }

  /** The top chunk is not in the index, and the victim is not binned. */
  lemma NotIndexed(h: Layout, ix: Index, live: Live)
    requires Good(h, ix, live)
    ensures h.top !in ix.binned && h.top != ix.dv && ix.dv !in ix.binned && h.top > 0
    ensures ix.dvsize != 0 <==> ix.dv != 0
  {
    hide ChunksOk, Apart, LiveOk;
    if h.top in h.C {
      ChunkHead(h, h.top);
    }
  }

  lemma TopGrants(ix: Index, top: int)
    requires top !in ix.binned && top != ix.dv
    ensures forall nb: nat, isSmall :: GrantedIndex(ix, nb, top, isSmall) == ix
  {
  }

  /** A binned chunk that has just left the bins. */
  lemma OutOfBins(h: Layout, ix: Index, live: Live, p: int)
    requires Good(h, ix, live) && p in ix.binned
    ensures GoodExcept(h, ix.(binned := ix.binned - {p}), live, {p})
    ensures p in h.C && !h.Inuse(p) && h.Size(p) == ix.binned[p]
  {
  }

  /** The victim when it is given up. */
  lemma VictimOut(h: Layout, ix: Index, live: Live)
    requires Good(h, ix, live) && ix.dvsize > 0
    ensures GoodExcept(h, ix.(dv := 0, dvsize := 0), live, {ix.dv})
    ensures ix.dv in h.C && !h.Inuse(ix.dv) && h.Size(ix.dv) == ix.dvsize
  {
  }

  lemma TreeHeads(h: Layout, ix: Index, live: Live, small: Items, tree: Items)
    requires Good(h, ix, live) && ix.binned == small + tree
    ensures T.Agree(h.head, tree)
  {
  }

  lemma RemainderFacts(h: Layout, ix: Index, live: Live, r: int)
    requires GoodExcept(h, ix, live, {r}) && r in h.C && r in h.head && r > 0 && !h.Inuse(r)
    ensures r !in ix.binned && h.Size(r) % 8 == 0 && MIN_CHUNK_SIZE <= h.Size(r) < WORD
    ensures T.Agree(h.head, ix.binned)
    ensures Good(h, ix.(binned := ix.binned[r := h.Size(r)]), live)
  {
    hide ChunksOk, Apart, LiveOk;
    Reindex(h, ix, live, r);
    ChunkHead(h, r);
  }

  lemma VictimSize(h: Layout, ix: Index, live: Live)
    requires Good(h, ix, live)
    ensures 0 <= ix.dvsize < WORD && ix.dvsize % 8 == 0
  {
  }

  /** The wrapped comparison prefers the victim exactly when it fits at least as well. */
  lemma VictimTest(nb: nat, rsize: nat, dvsize: nat)
    requires 0 < nb < WORD && dvsize < WORD && rsize <= WORD - nb
    ensures nb <= dvsize ==> (rsize < Wrap(dvsize - nb) <==> rsize < dvsize - nb)
    ensures nb > dvsize && rsize < WORD - nb ==> rsize < Wrap(dvsize - nb)
  {
  }

  /** The marks of the small bins say which sizes below the limit are there. */
  ghost predicate MarksTell(m: bv32, small: Items, tree: Items) {
    && (forall x | x in small :: 16 <= small[x] < MIN_LARGE_SIZE && small[x] % 8 == 0)
    && (forall i: nat | i < NBINS :: Marked(m, i) <==> exists x :: x in small && small[x] == 8 * i)
    && (forall x | x in tree :: MIN_LARGE_SIZE <= tree[x])
    && BinsApart(small, tree)
  }

  lemma SmallMarked(m: bv32, small: Items, tree: Items, x: int)
    requires MarksTell(m, small, tree) && x in small
    ensures small[x] / 8 < NBINS && Marked(m, small[x] / 8) && small[x] == 8 * (small[x] / 8)
  {
  }

  /** What the tests on the shifted map tell about the sizes in the bins. */
  lemma SmallBinFacts(m: bv32, small: Items, tree: Items, idx: nat)
    requires MarksTell(m, small, tree) && 2 <= idx < NBINS
    ensures var bits := Shifted(m, idx);
            var i := idx + LowClear(bits);
            && (LowTwo(bits) ==>
                  i < NBINS && Marked(m, i) && i == if Marked(m, idx) then idx else idx + 1)
            && (!LowTwo(bits) ==> !HasRemainderless(small + tree, 8 * idx))
            && (!LowTwo(bits) && bits != 0 ==>
                  Unshifted(bits, idx) != 0
                  && var j := LeastMarked(Unshifted(bits, idx));
                     idx + 2 <= j && Marked(m, j) && forall k: nat | idx <= k < j :: !Marked(m, k))
            && (bits == 0 ==> forall x | x in small :: small[x] < 8 * idx)
            && (bits == 0 && tree == map[] ==> NoneFits(small + tree, 8 * idx))
  {
    hide Marked, Shifted, Unshifted, Above, MarksTell, LowTwo, LowClear;
    var bits := Shifted(m, idx);
    ShiftedMap(m, idx);
    MarkedAbove(m, idx);
    ZeroMap(Above(m, idx));
    if !LowTwo(bits) {
      forall y | y in small + tree
        ensures !((small + tree)[y] < MIN_LARGE_SIZE && ((small + tree)[y] == 8 * idx || (small + tree)[y] == 8 * idx + 8))
      {
        SizesOf(m, small, tree, y);
      }
    }
    forall x | x in small
      ensures bits == 0 ==> small[x] < 8 * idx
    {
      SmallMarked(m, small, tree, x);
    }
    forall y | y in small + tree
      ensures bits == 0 && tree == map[] ==> (small + tree)[y] < 8 * idx
    {
      SizesOf(m, small, tree, y);
    }
  }

  lemma SizesOf(m: bv32, small: Items, tree: Items, y: int)
    requires MarksTell(m, small, tree) && y in small + tree
    ensures var s := (small + tree)[y];
            if y in tree then s == tree[y] && s >= MIN_LARGE_SIZE
            else y in small && s == small[y] && s < MIN_LARGE_SIZE && s / 8 < NBINS
                 && s == 8 * (s / 8) && Marked(m, s / 8)
  {
  }

  lemma FirstBins(m: bv32, small: Items, tree: Items, idx: nat, p: int)
    requires MarksTell(m, small, tree) && 2 <= idx < NBINS && p in small + tree
    requires (small + tree)[p] == 8 * (if Marked(m, idx) then idx else idx + 1) < MIN_LARGE_SIZE
    ensures BestFits(small + tree, 8 * idx, p) && HasRemainderless(small + tree, 8 * idx)
  {
  }

  lemma LaterBins(m: bv32, small: Items, tree: Items, idx: nat, i: nat, p: int)
    requires MarksTell(m, small, tree) && idx < i < NBINS && p in small + tree
    requires forall j: nat | idx <= j < i :: !Marked(m, j)
    requires (small + tree)[p] == 8 * i
    ensures BestFits(small + tree, 8 * idx, p)
  {
    hide Marked, MarksTell;
    forall y | y in small + tree && (small + tree)[y] >= 8 * idx
      ensures (small + tree)[p] <= (small + tree)[y]
    {
      SizesOf(m, small, tree, y);
    }
  }

  /** The small bins have nothing for a large request. */
  lemma LargeFromTrees(small: Items, tree: Items, nb: nat, p: int, dvsize: int)
    requires BinsApart(small, tree) && nb >= MIN_LARGE_SIZE && forall x | x in small :: small[x] < MIN_LARGE_SIZE
    ensures p in tree && BestFits(tree, nb, p) ==> BestFits(small + tree, nb, p) && (small + tree)[p] == tree[p]
    ensures (forall y | y in tree && tree[y] >= nb :: nb <= dvsize <= tree[y]) ==>
              forall y | y in small + tree && (small + tree)[y] >= nb :: nb <= dvsize <= (small + tree)[y]
  {
  }

  lemma TreesOnly(small: Items, tree: Items, nb: nat, p: int)
    requires BinsApart(small, tree) && (forall x | x in small :: small[x] < nb)
    requires p in tree && nb <= tree[p] && forall y | y in tree :: tree[p] <= tree[y]
    ensures BestFits(small + tree, nb, p)
  {
  }

  lemma TopSize(h: Layout, ix: Index, live: Live)
    requires Good(h, ix, live)
    ensures 0 < h.topsize < WORD - TOP_FOOT_SIZE && h.topsize % 8 == 0 && h.top > 0
  {
  }

  lemma UntouchedTrans(h0: Layout, h1: Layout, h2: Layout, live: Live)
    requires Untouched(h0, h1, live) && Untouched(h1, h2, live)
    ensures Untouched(h0, h2, live)
  {
  }

  lemma SplitUntouched(h: Layout, h': Layout, live: Live, p: int, r: int)
    requires LiveOk(h, live) && SameBut(h, h', {p, r}) && p !in live && r !in h.C
    ensures Untouched(h, h', live)
  {
  }

  /** A new victim r, with the old one moved to the bins. */
  lemma VictimToBin(h: Layout, ix: Index, live: Live, r: int)
    requires GoodExcept(h, ix, live, {r}) && r in h.C && r in h.head && r > 0 && !h.Inuse(r)
    ensures ix.dv == 0 <==> ix.dvsize == 0
    ensures ix.dv != 0 ==> ix.dv > 0 && ix.dv !in ix.binned && ix.dvsize % 8 == 0 && ix.dvsize >= MIN_CHUNK_SIZE
    ensures var binned' := if ix.dv != 0 then ix.binned[ix.dv := ix.dvsize] else ix.binned;
            Good(h, Index(r, h.Size(r), binned'), live)
  {
    hide ChunksOk, Apart, EndsOk, LiveOk;
    ChunkHead(h, r);
    NullNotChunk(h);
    if ix.dv != 0 {
      ChunkHead(h, ix.dv);
    }
  }

  /** Agreement with all bins is agreement with the tree bins. */
  lemma TreeAgrees(head: Heads, small: Items, tree: Items)
    requires T.Agree(head, small + tree)
    ensures T.Agree(head, tree)
  {
  }

  lemma MergeTopTags(h: Layout, a: int)
    requires a <= h.top && 0 <= h.topsize
    ensures MergeTop(h, a).head == h.head[a := T.Head(h.top - a + h.topsize, true, false)]
    ensures MergeTop(h, a).foot == h.foot && MergeTop(h, a).base == h.base
    ensures MergeTop(h, a).top == a && MergeTop(h, a).topsize == h.top - a + h.topsize
  {
  }

  lemma SmallSizes(bins: S.Bins, items: Items, m: bv32, fd: map<int, int>, bk: map<int, int>)
    requires S.BinsOk(m, fd, bk, bins, items)
    ensures forall x | x in items :: 16 <= items[x] < MIN_LARGE_SIZE && items[x] % 8 == 0
    ensures forall i: nat | i < NBINS ::
              Marked(m, i) <==> exists x :: x in items && items[x] == 8 * i
  {
    hide S.RingsOk, Marked;
    forall i: nat | i < NBINS
      ensures Marked(m, i) <==> exists x :: x in items && items[x] == 8 * i
    {
      if bins[i] != [] {
        BinMember(bins, items, i, bins[i][0]);
      }
    }
  }

  lemma BinMember(bins: S.Bins, items: Items, i: nat, x: int)
    requires S.ItemsOk(bins, items) && i < NBINS && x in bins[i]
    ensures x in items && items[x] == 8 * i
  {
  }

  lemma TreeSizes(st: T.State)
    requires st.Ok()
    ensures forall x | x in st.m.items :: MIN_LARGE_SIZE <= st.m.items[x] < WORD && st.m.items[x] % 8 == 0
    ensures st.treemap == 0 ==> st.m.items == map[]
  {
    hide Tries.Shape, T.SparesOk, T.RingsOk, Marked;
    if st.treemap == 0 {
      NoTrees(st);
    }
  }

  lemma NoTrees(st: T.State)
    requires st.Ok() && st.treemap == 0
    ensures st.m.items == map[]
  {
    hide ComputeTreeIndex, T.State.Ok, Marked;
    forall y
      ensures y in st.m.items ==> st.treemap != 0
    {
      TreeMarked(st, y);
    }
    assert st.m.items.Keys == {};
  }

  lemma TreeMarked(st: T.State, y: int)
    requires st.Ok()
    ensures y in st.m.items ==> st.treemap != 0
  {
    hide ComputeTreeIndex, T.RingsOk, T.FieldsOk, T.SparesOk, Marked;
    if y in st.m.items {
      ZeroMap(st.treemap);
      var h := T.HomeOf(st.m.items, st.m.lev, st.m.rings, st.m.home, st.f.fd, st.f.bk, y);
      var r := Tries.RootOf(st.Trie(), h);
    }
  }
}
