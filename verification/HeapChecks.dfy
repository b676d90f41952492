/**
 What the debugging walk over the heap looks for, and why the allocator's own words in
 memory never touch a caller's bytes.
 */
module HeapChecks {

  import opened ChunkSizes
  import opened Layouts
  import opened FreeIndex
  import opened HeapSteps
  import opened Allocator
  import opened Reallocation
  import R = Rings
  import S = SmallBins
  import T = TreeBins
  import Tries

  // ---- metadata ------------------------------------------------------------

  /** x is a byte of the head, or of the foot before a chunk q whose neighbour below is free. */
  predicate InTag(h: Layout, q: int, x: int) {
    || q + 4 <= x < q + 8
    || (q in h.head && !h.head[q].pinuse && q <= x < q + 4)
  }

  /** x is a byte of the links of a binned chunk q: two words, or six if the bin is a tree. */
  predicate InLinks(ix: Index, q: int, x: int) {
    q in ix.binned && q + 8 <= x < q + (if ix.binned[q] < MIN_LARGE_SIZE then 16 else 32)
  }

  /** x is a byte that the allocator reads or writes for itself. */
  ghost predicate Metadata(h: Layout, ix: Index, x: int) {
    || (exists q :: h.Chunk(q) && InTag(h, q, x))
    || (exists q :: q in h.C && InLinks(ix, q, x))
  }

  lemma TagsApart(h: Layout, ix: Index, live: Live, p: int, q: int, x: int)
    requires Good(h, ix, live) && p in live && h.Chunk(q) && InTag(h, q, x)
    ensures x < BlockOf(p) || BlockOf(p) + Usable(h, p) <= x
  {
    hide ChunksOk, Apart, IndexExcept;
    ChunkAt(h, p);
    if q < p {
      ChunkAt(h, q);
      NextIs(h, q, p);
    } else if p < q {
      NextIs(h, p, q);
      var n := h.Next(p);
      if q != h.top {
        ChunkAt(h, q);
      }
      if n < q {
        ChunkAt(h, n);
        NextIs(h, n, q);
      }
    }
  }

  lemma LinksApart(h: Layout, ix: Index, live: Live, p: int, q: int, x: int)
    requires Good(h, ix, live) && p in live && q in h.C && InLinks(ix, q, x)
    ensures x < BlockOf(p) || BlockOf(p) + Usable(h, p) <= x
  {
    hide Apart, EndsOk, ChunksOk, VictimOk;
    BelowFacts(h, live, p);
    ChunkHead(h, q);
    if p < q {
      NextIs(h, p, q);
    } else {
      NextIs(h, q, p);
    }
  }

  /** No byte that a caller may use is a byte of the allocator's. */
  lemma PayloadIsFree(h: Layout, ix: Index, live: Live, p: int, x: int)
    requires Good(h, ix, live) && p in live && BlockOf(p) <= x < BlockOf(p) + Usable(h, p)
    ensures !Metadata(h, ix, x)
  {
    hide Good, InTag, InLinks;
    forall q | h.Chunk(q)
      ensures !InTag(h, q, x)
    {
      if InTag(h, q, x) {
        TagsApart(h, ix, live, p, q, x);
      }
    }
    forall q | q in h.C
      ensures !InLinks(ix, q, x)
    {
      if InLinks(ix, q, x) {
        LinksApart(h, ix, live, p, q, x);
      }
    }
  }

  // ---- searches in the bins ------------------------------------------------

  lemma ChunkFacts(h: Layout, ix: Index, live: Live, x: int, small: Items, tree: Items)
    requires Good(h, ix, live) && x in h.C && ix.binned == small + tree
    ensures x in h.head && h.head[x].size % 8 == 0 && MIN_CHUNK_SIZE <= h.head[x].size < WORD && x > 0
    ensures x in ix.binned ==> ix.binned[x] == h.head[x].size
    ensures T.Agree(h.head, tree)
  {
    hide ChunksOk, Apart, LiveOk, VictimOk;
    ChunkHead(h, x);
    NullNotChunk(h);
    TreeHeads(h, ix, live, small, tree);
  }

  /** What is in the small bins is small, and what is in the tree bins is not. */
  lemma SizesApart(small: S.SmallBinTable, tree: T.TreeBinTable, x: int)
    requires small.Valid() && tree.Valid()
    ensures x in small.items ==> small.items[x] < MIN_LARGE_SIZE
    ensures x in tree.Items() ==> tree.Items()[x] >= MIN_LARGE_SIZE
  {
    hide S.MapAgrees, S.RingsOk, T.RingsOk, T.SparesOk, T.MapOk, ComputeTreeIndex;
  }

  /** Looks for the chunk x in the bin for its size. */
  method BinFind(a: Malloc, x: int) returns (found: bool)
    requires a.Valid() && x in a.chunks
    ensures found <==> x in a.Binned()
  {
    hide S.BinsOk, T.State.Ok, Good, T.Agree;
    ChunkFacts(a.H(), a.Ix(), a.live, x, a.small.items, a.tree.Items());
    SizesApart(a.small, a.tree, x);
    var size := a.mem.head[x].size;
    if size < MIN_LARGE_SIZE {
      found := a.small.Find(x, size);
    } else {
      found := a.tree.Find(x, size, a.mem.head);
    }
  }

  /** The neighbours of x in its list lead back to it. */
  predicate LinksMeet(fd: map<int, int>, bk: map<int, int>, x: int) {
    x in fd && x in bk && fd[x] in bk && bk[fd[x]] == x && bk[x] in fd && fd[bk[x]] == x
  }

  /** The links of a chunk in the bin for its size. */
  predicate BinLinksMeet(a: Malloc, x: int)
    reads a, a.small, a.tree
  {
    && x in a.mem.head
    && if a.mem.head[x].size < MIN_LARGE_SIZE then LinksMeet(a.small.fd, a.small.bk, x)
       else LinksMeet(a.tree.f.fd, a.tree.f.bk, x)
  }

  lemma SmallLinksMeet(small: S.SmallBinTable, x: int)
    requires small.Valid() && x in small.items
    ensures LinksMeet(small.fd, small.bk, x)
  {
    hide R.Ring;
    var i := small.items[x] / 8;
    assert x in small.bins[i];
    S.BinRing(small.fd, small.bk, small.bins, i);
    T.RingNeighbours(small.fd, small.bk, [S.Header(i)] + small.bins[i], x);
  }

  lemma TreeLinksMeet(tree: T.TreeBinTable, x: int)
    requires tree.Valid() && x in tree.Items()
    ensures LinksMeet(tree.f.fd, tree.f.bk, x)
  {
    hide R.Ring, T.SparesOk, T.MapOk, T.FieldsOk, Tries.Shape;
    var h := tree.m.home[x];
    T.RingNeighbours(tree.f.fd, tree.f.bk, tree.m.rings[h], x);
  }

  lemma BinnedLinksMeet(a: Malloc, x: int)
    requires a.Valid() && x in a.Binned()
    ensures BinLinksMeet(a, x)
  {
    hide S.BinsOk, T.State.Ok, Good, LinksMeet;
    assert x in a.chunks by {
      BinnedIsChunk(a.H(), a.Ix(), a.live, x);
    }
    ChunkFacts(a.H(), a.Ix(), a.live, x, a.small.items, a.tree.Items());
    SizesApart(a.small, a.tree, x);
    if x in a.small.items {
      SmallLinksMeet(a.small, x);
    } else {
      TreeLinksMeet(a.tree, x);
    }
  }

  lemma BinnedIsChunk(h: Layout, ix: Index, live: Live, x: int)
    requires Good(h, ix, live) && x in ix.binned
    ensures x in h.C
  {
    hide LayoutOk, LiveOk;
  }

  // ---- the walk over all chunks --------------------------------------------

  /** The conditions that the debugging walk asserts of the chunk q, last being the one before. */
  ghost predicate Checked(h: Layout, ix: Index, q: int, last: int) {
    && q in h.head && (q + 8) % 8 == 0 && h.base <= q && h.Next(q) in h.head
    && (h.Inuse(q) ==>
          && !ix.Holds(q) && h.head[h.Next(q)].pinuse
          && (h.head[q].pinuse || (q in h.foot && h.Next(q - h.foot[q]) == q)))
    && (!h.Inuse(q) ==>
          && ix.Holds(q) && (last == 0 || h.Inuse(last)) && !h.head[h.Next(q)].pinuse
          && h.Size(q) % 8 == 0 && h.Size(q) >= MIN_CHUNK_SIZE
          && h.Next(q) in h.foot && h.foot[h.Next(q)] == h.Size(q)
          && h.head[q].pinuse && (h.Next(q) == h.top || h.Inuse(h.Next(q))))
  }

  lemma ChunkPasses(h: Layout, ix: Index, live: Live, q: int, last: int)
    requires Good(h, ix, live) && q in h.C && (last == 0 || (last in h.C && h.Next(last) == q))
    ensures Checked(h, ix, q, last)
    ensures h.Chunk(h.Next(q)) && h.Next(q) <= h.top && q < h.Next(q)
  {
    hide Apart, EndsOk, IndexExcept, LiveOk;
    ChunkAt(h, q);
    if last != 0 {
      ChunkAt(h, last);
    }
    if h.Inuse(q) {
      NotHeld(h, ix, {}, q);
      if !h.head[q].pinuse {
        PrevFree(h, q);
      }
    } else {
      NoAdjacentFree(h, q);
      Held(h, ix, {}, q);
    }
  }

  /** What the searches in the bins give. */
  lemma SearchPasses(h: Layout, ix: Index, q: int, last: int)
    requires Checked(h, ix, q, last)
    ensures q in h.head && (h.head[q].cinuse ==> q !in ix.binned) && (!h.head[q].cinuse ==> q == ix.dv || q in ix.binned)
  {
  }

  ghost function Before(seen: seq<int>, i: nat): int
    requires i <= |seen|
  {
    if i == 0 then 0 else seen[i - 1]
  }

  lemma NoneBefore()
    ensures Before([], 0) == 0
  {
  }

  lemma BeforeAppend(seen: seq<int>, q: int)
    ensures forall i: nat | i <= |seen| :: Before(seen + [q], i) == Before(seen, i)
    ensures Before(seen + [q], |seen| + 1) == q
  {
  }

  /** Walks over all chunks, finds them in order, and adds up the size of the segment. */
  method TraverseAndCheck(a: Malloc) returns (sum: nat, ghost seen: seq<int>)
    requires a.Valid()
    ensures sum == a.ms.top + a.ms.topsize + TOP_FOOT_SIZE - a.base
    ensures (set q | q in seen) == a.chunks
    ensures forall i | 0 <= i < |seen| :: Checked(a.H(), a.Ix(), seen[i], Before(seen, i))
    ensures forall i | 0 <= i < |seen| && seen[i] in a.Binned() :: BinLinksMeet(a, seen[i])
    ensures forall i | 0 <= i < |seen| - 1 :: a.H().Next(seen[i]) == seen[i + 1]
  {
    hide S.BinsOk, T.State.Ok, IndexExcept, LiveOk, ChunksOk, Apart, Checked, Before, LinksMeet;
    ghost var h, ix := a.H(), a.Ix();
    sum := a.ms.topsize + TOP_FOOT_SIZE;
    seen := [];
    assert Before(seen, 0) == 0 by {
      NoneBefore();
    }
    var q, lastq := a.base, 0;
    forall x | x in h.C
      ensures q <= x
    {
      ChunkAt(h, x);
    }
    while q != a.ms.top
      invariant h.Chunk(q) && a.base <= q <= a.ms.top
      invariant lastq != 0 ==> lastq in h.C && h.Next(lastq) == q
      invariant lastq == Before(seen, |seen|)
      invariant sum == a.ms.topsize + TOP_FOOT_SIZE + q - a.base
      invariant forall x | x in seen :: x in h.C && x < q
      invariant forall x | x in h.C && x < q :: x in seen
      invariant forall i | 0 <= i < |seen| :: Checked(h, ix, seen[i], Before(seen, i))
      invariant forall i | 0 <= i < |seen| && seen[i] in a.Binned() :: BinLinksMeet(a, seen[i])
      invariant forall i | 0 <= i < |seen| - 1 :: h.Next(seen[i]) == seen[i + 1]
      invariant seen != [] ==> h.Next(seen[|seen| - 1]) == q
      decreases a.ms.top - q
    {
      ChunkPasses(h, ix, a.live, q, lastq);
      WalkStep(h, ix, a.live, q);
      var found := BinFind(a, q);
      SearchPasses(h, ix, q, lastq);
      if a.mem.head[q].cinuse {
        assert !found;
      } else {
        assert q == a.ms.dv || found;
        if found {
          BinnedLinksMeet(a, q);
        }
      }
      BeforeAppend(seen, q);
      sum := sum + a.mem.head[q].size;
      seen := seen + [q];
      lastq := q;
      q := q + a.mem.head[q].size;
    }
    forall x | x in h.C
      ensures x in seen
    {
      ChunkAt(h, x);
    }
  }

  lemma WalkStep(h: Layout, ix: Index, live: Live, q: int)
    requires Good(h, ix, live) && q in h.C
    ensures q in h.head && h.head[q].size == h.Size(q) > 0 && q > 0
    ensures forall x | x in h.C && x < h.Next(q) :: x <= q
  {
  }
}
