/**
 The few changes that allocation and release make to a segment as a whole: its
 layout, its index of free chunks, and the blocks it has lent out.
 */
module HeapSteps {

  import opened ChunkSizes
  import opened Layouts
  import opened FreeIndex
  import T = TreeBins

  type Live = map<int, nat>

  ghost predicate GoodExcept(h: Layout, ix: Index, live: Live, X: set<int>) {
    LayoutOk(h) && IndexExcept(h, ix, X) && LiveOk(h, live)
  }

  /** The invariant of the allocator's memory. */
  ghost predicate Good(h: Layout, ix: Index, live: Live) {
    GoodExcept(h, ix, live, {})
  }

  lemma FreeNotLive(h: Layout, live: Live, p: int)
    requires LiveOk(h, live) && !h.Inuse(p)
    ensures p !in live
  {
  }

  lemma NullNotChunk(h: Layout)
    requires LayoutOk(h)
    ensures 0 !in h.C && h.top > 0 && forall p | p in h.C :: p > 0
  {
  }

  /** The free chunk p, already out of the index, is lent out whole. */
  lemma GrantWhole(h: Layout, ix: Index, live: Live, p: int, bytes: nat)
    requires GoodExcept(h, ix, live, {p}) && p in h.C && !h.Inuse(p)
    requires bytes + CHUNK_OVERHEAD <= h.Size(p)
    ensures p in h.head && h.Next(p) in h.head && p !in live
    ensures Good(UseWhole(h, p), ix, live[p := bytes])
    ensures UseWhole(h, p).Size(p) == h.Size(p) && SameBut(h, UseWhole(h, p), {p})
  {
    hide LayoutOk, IndexExcept, LiveOk, SameBut, UseWhole;
    UseWholeOk(h, p);
    FreeNotLive(h, live, p);
    NotHeld(h, ix, {p}, p);
    IndexMove(h, UseWhole(h, p), ix, {p}, {p}, {});
    UseWholeKeeps(h, p);
    LiveMove(h, UseWhole(h, p), live, {p}, live[p := bytes]);
  }

  lemma UseWholeKeeps(h: Layout, p: int)
    requires p in h.head && h.Next(p) in h.head
    ensures UseWhole(h, p).C == h.C
  {
  }

  /** The lower nb bytes of the free chunk p are lent out; the rest has to be indexed next. */
  lemma GrantSplit(h: Layout, ix: Index, live: Live, p: int, nb: nat, bytes: nat)
    requires GoodExcept(h, ix, live, {p}) && p in h.C && !h.Inuse(p)
    requires nb % 8 == 0 && nb >= MIN_CHUNK_SIZE && h.Size(p) >= nb + MIN_CHUNK_SIZE
    requires bytes + CHUNK_OVERHEAD <= nb
    ensures p in h.head && p !in live
    ensures var h' := UseSplit(h, p, nb);
            var r := p + nb;
            && GoodExcept(h', ix, live[p := bytes], {r})
            && r in h'.C && r > 0 && !h'.Inuse(r) && h'.Size(r) == h.Size(p) - nb && r !in h.C
            && h'.Size(p) == nb && SameBut(h, h', {p, r})
  {
    hide LayoutOk, IndexExcept, LiveOk, SameBut, UseSplit;
    UseSplitOk(h, p, nb);
    FreeNotLive(h, live, p);
    var h', r := UseSplit(h, p, nb), p + nb;
    NotHeld(h, ix, {p}, p);
    NotHeld(h, ix, {p}, r);
    UseSplitKeeps(h, p, nb);
    NotInLive(h, live, r);
    NullNotChunk(h);
    IndexMove(h, h', ix, {p}, {p, r}, {r});
    LiveMove(h, h', live, {p, r}, live[p := bytes]);
  }

  lemma UseSplitKeeps(h: Layout, p: int, nb: nat)
    requires p in h.head && nb <= h.head[p].size
    ensures UseSplit(h, p, nb).C == h.C + {p + nb}
  {
  }

  lemma NotInLive(h: Layout, live: Live, r: int)
    requires LiveOk(h, live) && r !in h.C
    ensures r !in live
  {
  }

  /** The lower nb bytes of the top chunk are lent out. */
  lemma GrantTop(h: Layout, ix: Index, live: Live, nb: nat, bytes: nat)
    requires Good(h, ix, live)
    requires nb % 8 == 0 && MIN_CHUNK_SIZE <= nb < h.topsize && bytes + CHUNK_OVERHEAD <= nb
    ensures h.top !in live && h.top !in h.C
    ensures Good(UseTop(h, nb), ix, live[h.top := bytes])
    ensures UseTop(h, nb).Size(h.top) == nb && SameBut(h, UseTop(h, nb), {h.top})
  {
    hide LayoutOk, IndexExcept, LiveOk, SameBut, UseTop;
    UseTopOk(h, nb);
    NotHeld(h, ix, {}, h.top);
    NotInLive(h, live, h.top);
    UseTopKeeps(h, nb);
    IndexMove(h, UseTop(h, nb), ix, {}, {h.top}, {});
    LiveMove(h, UseTop(h, nb), live, {h.top}, live[h.top := bytes]);
  }

  lemma UseTopKeeps(h: Layout, nb: nat)
    requires nb <= h.topsize
    ensures UseTop(h, nb).C == h.C + {h.top}
  {
  }

  /** Chunks of the region from a to e, other than p, are free and out of the index. */
  ghost predicate RegionClear(h: Layout, X: set<int>, p: int, a: int, e: int) {
    && p in h.C && a <= p < e
    && (forall q | q in h.C && a <= q < e && q != p :: q in X && !h.Inuse(q))
    && (forall x | x in X :: a <= x < e && x in h.C)
  }

  lemma RegionHolds(h: Layout, X: set<int>, p: int, a: int, e: int)
    requires RegionClear(h, X, p, a, e)
    ensures X <= set q | q in h.C && a <= q < e
    ensures X <= set q | q in h.C && a <= q
  {
    var Y := set q | q in h.C && a <= q < e;
    var Z := set q | q in h.C && a <= q;
    forall x | x in X
      ensures x in Y && x in Z
    {
    }
  }

  /** The lent chunk p and its free neighbours become one free chunk at a. */
  lemma Reclaim(h: Layout, ix: Index, live: Live, X: set<int>, p: int, a: int, e: int)
    requires GoodExcept(h, ix, live, X) && h.Inuse(p) && RegionClear(h, X, p, a, e)
    requires MergeStart(h, a) && e in h.C && h.Inuse(e)
    ensures e in h.head
    ensures var h' := MergeFree(h, a, e);
            && GoodExcept(h', ix, live - {p}, {a})
            && a in h'.C && a in h'.head && a > 0 && !h'.Inuse(a) && h'.Size(a) == e - a
            && SameBut(h, h', set q | q in h.C && a <= q < e)
  {
    hide LayoutOk, IndexExcept, LiveOk, SameBut;
    MergeFreeOk(h, a, e);
    NullNotChunk(h);
    var h' := MergeFree(h, a, e);
    var Z := set q | q in h.C && a <= q < e;
    forall z | z in Z
      ensures !ix.Holds(z)
    {
      NotHeld(h, ix, X, z);
    }
    forall z | z in Z && z != p
      ensures z !in live
    {
      FreeNotLive(h, live, z);
    }
    assert X <= Z by {
      RegionHolds(h, X, p, a, e);
    }
    IndexMove(h, h', ix, X, Z, {a});
    LiveMove(h, h', live, Z, live - {p});
  }

  /** The lent chunk p and its free neighbour below become part of the top chunk. */
  lemma ReclaimTop(h: Layout, ix: Index, live: Live, X: set<int>, p: int, a: int)
    requires GoodExcept(h, ix, live, X) && h.Inuse(p) && RegionClear(h, X, p, a, h.top)
    requires MergeStart(h, a)
    ensures a <= h.top && h.topsize > 0
    ensures Good(MergeTop(h, a), ix, live - {p})
    ensures SameBut(h, MergeTop(h, a), set q | q in h.C && a <= q)
  {
    hide IndexExcept, LiveOk, SameBut, ChunksOk, Apart;
    MergeTopOk(h, a);
    var h' := MergeTop(h, a);
    var Z := set q | q in h.C && a <= q;
    forall z | z in Z
      ensures !ix.Holds(z) && z < h.top
    {
      ChunkHead(h, z);
      NotHeld(h, ix, X, z);
    }
    forall z | z in Z && z != p
      ensures z !in live
    {
      FreeNotLive(h, live, z);
    }
    assert X <= Z by {
      RegionHolds(h, X, p, a, h.top);
    }
    IndexMove(h, h', ix, X, Z, {});
    LiveMove(h, h', live, Z, live - {p});
  }

  /** A lent chunk is cut in two, and both parts stay lent. */
  lemma SplitLive(h: Layout, ix: Index, live: Live, p: int, nb: nat, bytes: nat, rest: nat)
    requires Good(h, ix, live) && p in live
    requires nb % 8 == 0 && nb >= MIN_CHUNK_SIZE && h.Size(p) >= nb + MIN_CHUNK_SIZE
    requires bytes + CHUNK_OVERHEAD <= nb && rest + CHUNK_OVERHEAD <= h.Size(p) - nb
    ensures p in h.head && p in h.C && h.Inuse(p) && h.Next(p) in h.head && h.head[h.Next(p)].pinuse
    ensures var h' := SplitInuse(h, p, nb);
            && Good(h', ix, live[p := bytes][p + nb := rest])
            && h'.Size(p) == nb && h'.Size(p + nb) == h.Size(p) - nb && p + nb !in live
            && SameBut(h, h', {p, p + nb})
  {
    hide LayoutOk, IndexExcept, SameBut, SplitInuse;
    BelowFacts(h, live, p);
    SplitInuseOk(h, p, nb);
    var h', r := SplitInuse(h, p, nb), p + nb;
    NotHeld(h, ix, {}, p);
    NotHeld(h, ix, {}, r);
    SplitInuseKeeps(h, p, nb);
    IndexMove(h, h', ix, {}, {p, r}, {});
    LiveMove(h, h', live, {p, r}, live[p := bytes][r := rest]);
  }

  lemma SplitInuseKeeps(h: Layout, p: int, nb: nat)
    requires p in h.head && nb <= h.head[p].size
    ensures SplitInuse(h, p, nb).C == h.C + {p + nb}
  {
  }

  lemma GrowLive(h: Layout, ix: Index, live: Live, p: int, nb: nat, bytes: nat)
    requires Good(h, ix, live) && p in live && h.Next(p) == h.top
    requires nb % 8 == 0 && h.Size(p) < nb < h.Size(p) + h.topsize && bytes + CHUNK_OVERHEAD <= nb
    ensures p in h.head && h.Inuse(p)
    ensures Good(GrowIntoTop(h, p, nb), ix, live[p := bytes])
    ensures GrowIntoTop(h, p, nb).Size(p) == nb && SameBut(h, GrowIntoTop(h, p, nb), {p})
  {
    hide LayoutOk, IndexExcept, SameBut, GrowIntoTop;
    GrowIntoTopOk(h, p, nb);
    NotHeld(h, ix, {}, p);
    GrowKeeps(h, p, nb);
    IndexMove(h, GrowIntoTop(h, p, nb), ix, {}, {p}, {});
    LiveMove(h, GrowIntoTop(h, p, nb), live, {p}, live[p := bytes]);
  }

  lemma GrowKeeps(h: Layout, p: int, nb: nat)
    requires p in h.head && h.head[p].size + h.topsize >= nb
    ensures GrowIntoTop(h, p, nb).C == h.C
  {
  }

  lemma ResizeGood(h: Layout, ix: Index, live: Live, tsize: nat)
    requires Good(h, ix, live)
    requires 0 < tsize && tsize % 8 == 0 && h.top + tsize + TOP_FOOT_SIZE <= WORD
    ensures Good(ResizeTop(h, tsize), ix, live) && SameBut(h, ResizeTop(h, tsize), {})
  {
    hide LayoutOk, IndexExcept, LiveOk, SameBut, ResizeTop;
    ResizeTopOk(h, tsize);
    IndexMove(h, ResizeTop(h, tsize), ix, {}, {}, {});
    LiveMove(h, ResizeTop(h, tsize), live, {}, live);
  }

  // ---- the neighbourhood of a chunk that is given back ---------------------

  /** The free chunk before p, if its pinuse bit is clear, or else p. */
  function LowEnd(h: Layout, p: int): int {
    if p in h.head && !h.head[p].pinuse && p in h.foot then p - h.foot[p] else p
  }

  /** The chunk after p if it is in use or top, or else the chunk after that. */
  function HighEnd(h: Layout, p: int): int {
    var n := h.Next(p);
    if n == h.top || h.Inuse(n) then n else h.Next(n)
  }

  /** The free neighbours of p that are not the top chunk. */
  function Neighbours(h: Layout, p: int): set<int> {
    var n := h.Next(p);
    (if LowEnd(h, p) != p then {LowEnd(h, p)} else {})
    + (if n == h.top || h.Inuse(n) then {} else {n})
  }

  /** What the tags say about the chunk before p. */
  lemma BelowFacts(h: Layout, live: Live, p: int)
    requires LayoutOk(h) && LiveOk(h, live) && p in live
    ensures p in h.C && p in h.head && h.Inuse(p) && p > 0 && h.Next(p) in h.head && h.Chunk(h.Next(p))
    ensures h.head[h.Next(p)].pinuse && p < h.Next(p) && h.Size(p) >= MIN_CHUNK_SIZE
    ensures !h.head[p].pinuse ==>
              && p in h.foot && LowEnd(h, p) < p && LowEnd(h, p) in h.C && !h.Inuse(LowEnd(h, p))
              && h.foot[p] == h.Size(LowEnd(h, p)) && h.Next(LowEnd(h, p)) == p
    ensures h.head[p].pinuse ==> LowEnd(h, p) == p
    ensures MergeStart(h, LowEnd(h, p)) && LowEnd(h, p) > 0
  {
    hide Apart, EndsOk;
    ChunkAt(h, p);
    NullNotChunk(h);
    if !h.head[p].pinuse {
      PrevFree(h, p);
      NoAdjacentFree(h, LowEnd(h, p));
    }
  }

  /** What the tags say about the chunk after p. */
  lemma AboveFacts(h: Layout, live: Live, p: int)
    requires LayoutOk(h) && LiveOk(h, live) && p in live
    ensures var n := h.Next(p);
            && n in h.head && (n != h.top ==> n in h.C) && (n == h.top ==> !h.head[n].cinuse)
            && (n != h.top && !h.head[n].cinuse ==>
                  var e := h.Next(n);
                  e in h.C && e in h.head && h.Inuse(e) && !h.head[e].pinuse && n < e)
            && (n != h.top ==> HighEnd(h, p) in h.C && h.Inuse(HighEnd(h, p)) && HighEnd(h, p) in h.head)
  {
  }

  lemma RegionIsClear(h: Layout, live: Live, p: int)
    requires LayoutOk(h) && LiveOk(h, live) && p in live
    ensures RegionClear(h, Neighbours(h, p), p, LowEnd(h, p), HighEnd(h, p))
  {
    hide ChunksOk, Apart, EndsOk;
    BelowFacts(h, live, p);
    AboveFacts(h, live, p);
    var a, n, e := LowEnd(h, p), h.Next(p), HighEnd(h, p);
    forall q | q in h.C && a <= q < e && q != p
      ensures q in Neighbours(h, p) && !h.Inuse(q)
    {
      if q < p {
        if a < q {
          NextIs(h, a, q);
        }
      } else {
        NextIs(h, p, q);
        if n < q {
          NextIs(h, n, q);
        }
      }
    }
  }

  /** The index without the free chunk x. */
  function Dropped(ix: Index, x: int): Index {
    if x == ix.dv then ix.(dv := 0, dvsize := 0) else ix.(binned := ix.binned - {x})
  }

  lemma DropFree(h: Layout, ix: Index, X: set<int>, x: int)
    requires LayoutOk(h) && IndexExcept(h, ix, X) && x in h.C && !h.Inuse(x) && x !in X
    ensures IndexExcept(h, Dropped(ix, x), X + {x})
    ensures x != ix.dv ==> x in ix.binned && ix.binned[x] == h.Size(x)
    ensures x == ix.dv ==> ix.dvsize == h.Size(x) && x !in ix.binned
  {
  }

  /** The index without the free neighbours of p. */
  function Shrunk(h: Layout, ix: Index, p: int): Index {
    var n := h.Next(p);
    var ix1 := if LowEnd(h, p) != p then Dropped(ix, LowEnd(h, p)) else ix;
    if n == h.top || h.Inuse(n) then ix1 else Dropped(ix1, n)
  }

  /**
   The index when p has been given back: its free neighbours are no longer there, and the
   merged chunk is part of the top chunk, or takes the place of the victim that was merged
   into it, or is binned.
   */
  function ReleasedIndex(h: Layout, ix: Index, p: int): Index {
    var a, n, e := LowEnd(h, p), h.Next(p), HighEnd(h, p);
    var ix1 := Shrunk(h, ix, p);
    if n == h.top then ix1
    else if a == ix.dv || n == ix.dv then ix1.(dv := a, dvsize := e - a)
    else ix1.(binned := ix1.binned[a := e - a])
  }

  lemma ShrunkOk(h: Layout, ix: Index, live: Live, p: int)
    requires Good(h, ix, live) && p in live
    ensures GoodExcept(h, Shrunk(h, ix, p), live, Neighbours(h, p))
  {
    hide LayoutOk, IndexExcept, LiveOk, Dropped;
    BelowFacts(h, live, p);
    AboveFacts(h, live, p);
    var a, n := LowEnd(h, p), h.Next(p);
    var ix1, X1 := ix, {};
    if a != p {
      DropFree(h, ix, {}, a);
      ix1, X1 := Dropped(ix, a), {} + {a};
    }
    if n != h.top && !h.Inuse(n) {
      DropFree(h, ix1, X1, n);
      assert X1 + {n} == Neighbours(h, p);
    } else {
      assert X1 == Neighbours(h, p);
    }
  }

  /** Giving p back next to the top chunk. */
  lemma GiveToTop(h: Layout, ix: Index, live: Live, p: int)
    requires Good(h, ix, live) && p in live && h.Next(p) == h.top
    ensures LowEnd(h, p) <= h.top && h.topsize > 0
    ensures Good(MergeTop(h, LowEnd(h, p)), Shrunk(h, ix, p), live - {p})
    ensures SameBut(h, MergeTop(h, LowEnd(h, p)), set q | q in h.C && LowEnd(h, p) <= q)
  {
    hide LayoutOk, IndexExcept, SameBut, MergeTop, MergeStart, RegionClear, LowEnd, Shrunk, Neighbours;
    BelowFacts(h, live, p);
    ShrunkOk(h, ix, live, p);
    RegionIsClear(h, live, p);
    ReclaimTop(h, Shrunk(h, ix, p), live, Neighbours(h, p), p, LowEnd(h, p));
  }

  /** Giving p back elsewhere: one free chunk results, which has to be indexed next. */
  lemma GiveBack(h: Layout, ix: Index, live: Live, p: int)
    requires Good(h, ix, live) && p in live && h.Next(p) != h.top
    ensures LowEnd(h, p) < HighEnd(h, p) && HighEnd(h, p) in h.head
    ensures var a, e := LowEnd(h, p), HighEnd(h, p);
            var h' := MergeFree(h, a, e);
            && GoodExcept(h', Shrunk(h, ix, p), live - {p}, {a})
            && a in h'.C && a in h'.head && a > 0 && !h'.Inuse(a) && h'.Size(a) == e - a
            && (e - a) % 8 == 0 && MIN_CHUNK_SIZE <= e - a < WORD
            && SameBut(h, h', set q | q in h.C && a <= q < e)
  {
    hide LayoutOk, IndexExcept, SameBut, MergeFree, MergeStart, LowEnd, Shrunk, Neighbours, HighEnd;
    BelowFacts(h, live, p);
    AboveFacts(h, live, p);
    ShrunkOk(h, ix, live, p);
    RegionIsClear(h, live, p);
    var a, e := LowEnd(h, p), HighEnd(h, p);
    Reclaim(h, Shrunk(h, ix, p), live, Neighbours(h, p), p, a, e);
    var h' := MergeFree(h, a, e);
    ChunkHead(h', a);
    SizeBound(h', a);
  }

  lemma SizeBound(h: Layout, p: int)
    requires LayoutOk(h) && p in h.C
    ensures h.Size(p) < WORD
  {
  }

  /** The sizes of the lent blocks are the same in both layouts. */
  ghost predicate Untouched(h: Layout, h': Layout, live: Live) {
    forall q | q in live :: q in h.head && q in h'.head && h'.head[q].size == h.head[q].size
  }

  lemma SameUntouched(h: Layout, ix: Index, live: Live)
    requires Good(h, ix, live)
    ensures Untouched(h, h, live)
  {
  }

  lemma UntouchedBy(h: Layout, h': Layout, live: Live, live': Live, Z: set<int>)
    requires LiveOk(h, live) && SameBut(h, h', Z)
    requires forall q | q in live' :: q in live && q !in Z
    ensures Untouched(h, h', live')
  {
  }

  lemma Reindex(h: Layout, ix: Index, live: Live, x: int)
    requires GoodExcept(h, ix, live, {x}) && x in h.C && x in h.head && x > 0 && !h.Inuse(x)
    ensures x !in ix.binned && x != ix.dv
    ensures Good(h, ix.(binned := ix.binned[x := h.Size(x)]), live)
    ensures ix.dv == 0 ==> Good(h, ix.(dv := x, dvsize := h.Size(x)), live)
  {
    hide IndexExcept, LiveOk, ChunksOk, Apart, EndsOk;
    AddBinned(h, ix, x);
    if ix.dv == 0 {
      ChunkHead(h, x);
      SetVictim(h, ix, x);
    }
  }

  /** The readings that release makes of the tags around p, and what they mean for the index. */
  lemma ReleaseFacts(h: Layout, ix: Index, live: Live, p: int)
    requires Good(h, ix, live) && p in live
    ensures p > 0 && p in h.head && h.Inuse(p) && h.Next(p) in h.head && h.head[h.Next(p)].pinuse
    ensures var a, n := LowEnd(h, p), h.Next(p);
            && a <= p < n && a > 0
            && (!h.head[p].pinuse ==>
                  && p in h.foot && a == p - h.foot[p] && a < p && h.foot[p] >= 0
                  && (a != ix.dv ==> a in ix.binned && ix.binned[a] == h.foot[p])
                  && (a == ix.dv ==> a !in ix.binned))
            && (h.head[p].pinuse ==> a == p && p != ix.dv)
            && (n == h.top ==> !h.head[n].cinuse)
            && (n != h.top && h.head[n].cinuse ==> HighEnd(h, p) == n && n != ix.dv)
            && (n != h.top && !h.head[n].cinuse ==>
                  && HighEnd(h, p) == n + h.head[n].size && HighEnd(h, p) in h.head
                  && !h.head[HighEnd(h, p)].pinuse && n != a
                  && (n != ix.dv ==> n in ix.binned && ix.binned[n] == h.head[n].size)
                  && (n == ix.dv ==> n !in ix.binned && ix.dvsize == h.head[n].size))
  {
    hide LayoutOk, IndexExcept, LiveOk;
    BelowFacts(h, live, p);
    AboveFacts(h, live, p);
    NullNotChunk(h);
    var a, n := LowEnd(h, p), h.Next(p);
    NotHeld(h, ix, {}, p);
    if a != p {
      Held(h, ix, {}, a);
    }
    if n != h.top && !h.head[n].cinuse {
      Held(h, ix, {}, n);
    } else if n != h.top {
      NotHeld(h, ix, {}, n);
    }
  }

  /** p and its free neighbours, one of them the victim, become the victim. */
  lemma GiveToVictim(h: Layout, ix: Index, live: Live, p: int)
    requires Good(h, ix, live) && p in live && h.Next(p) != h.top && Shrunk(h, ix, p).dv == 0
    ensures LowEnd(h, p) < HighEnd(h, p) && HighEnd(h, p) in h.head
    ensures var a, e := LowEnd(h, p), HighEnd(h, p);
            var h' := MergeFree(h, a, e);
            && Good(h', Shrunk(h, ix, p).(dv := a, dvsize := e - a), live - {p})
            && Untouched(h, h', live - {p})
  {
    hide LayoutOk, IndexExcept, SameBut, MergeFree, LowEnd, Shrunk, HighEnd, Untouched;
    GiveBack(h, ix, live, p);
    var a, e := LowEnd(h, p), HighEnd(h, p);
    Reindex(MergeFree(h, a, e), Shrunk(h, ix, p), live - {p}, a);
    GivenUntouched(h, ix, live, p, MergeFree(h, a, e), e);
  }

  lemma GivenUntouched(h: Layout, ix: Index, live: Live, p: int, h': Layout, e: int)
    requires Good(h, ix, live) && p in live
    requires SameBut(h, h', set q | q in h.C && LowEnd(h, p) <= q < e) && e == HighEnd(h, p)
    ensures Untouched(h, h', live - {p})
  {
    hide LayoutOk, IndexExcept, SameBut, LowEnd, HighEnd, Neighbours;
    RegionIsClear(h, live, p);
    UntouchedBy(h, h', live, live - {p}, set q | q in h.C && LowEnd(h, p) <= q < e);
  }

  /** The same when nothing around p is the victim: the result goes to a bin. */
  lemma GiveToBin(h: Layout, ix: Index, live: Live, p: int)
    requires Good(h, ix, live) && p in live && h.Next(p) != h.top
    ensures LowEnd(h, p) < HighEnd(h, p) && HighEnd(h, p) in h.head
    ensures var a, e := LowEnd(h, p), HighEnd(h, p);
            var h' := MergeFree(h, a, e);
            var ix1 := Shrunk(h, ix, p);
            && a !in ix1.binned && (e - a) % 8 == 0 && MIN_CHUNK_SIZE <= e - a < WORD
            && T.Agree(h'.head, ix1.binned)
            && Good(h', ix1.(binned := ix1.binned[a := e - a]), live - {p})
            && Untouched(h, h', live - {p})
  {
    hide LayoutOk, SameBut, MergeFree, LowEnd, Shrunk, HighEnd, Untouched, VictimOk;
    GiveBack(h, ix, live, p);
    var a, e := LowEnd(h, p), HighEnd(h, p);
    Reindex(MergeFree(h, a, e), Shrunk(h, ix, p), live - {p}, a);
    GivenUntouched(h, ix, live, p, MergeFree(h, a, e), e);
  }

  lemma GiveToTopUntouched(h: Layout, ix: Index, live: Live, p: int)
    requires Good(h, ix, live) && p in live && h.Next(p) == h.top
    ensures LowEnd(h, p) <= h.top && h.topsize > 0
    ensures var h' := MergeTop(h, LowEnd(h, p));
            Good(h', Shrunk(h, ix, p), live - {p}) && Untouched(h, h', live - {p})
  {
    hide IndexExcept, SameBut, MergeTop, LowEnd, Shrunk, Untouched, Neighbours, ChunksOk, Apart, EndsOk;
    GiveToTop(h, ix, live, p);
    RegionIsClear(h, live, p);
    var Z := set q | q in h.C && LowEnd(h, p) <= q;
    forall q | q in live - {p}
      ensures q !in Z
    {
      ChunkHead(h, q);
    }
    UntouchedBy(h, MergeTop(h, LowEnd(h, p)), live, live - {p}, Z);
  }

  /** The tag writes that make up a merge, in the order of the code. */
  lemma MergeFreeTags(h: Layout, a: int, e: int)
    requires a < e && e in h.head
    ensures MergeFree(h, a, e).head == h.head[e := h.head[e].(pinuse := false)][a := T.Head(e - a, true, false)]
    ensures !h.head[e].pinuse ==> MergeFree(h, a, e).head == h.head[a := T.Head(e - a, true, false)]
    ensures MergeFree(h, a, e).foot == h.foot[a + (e - a) := e - a]
    ensures MergeFree(h, a, e).top == h.top && MergeFree(h, a, e).topsize == h.topsize
    ensures MergeFree(h, a, e).base == h.base
  {
  }

  // ---- what the invariant promises about blocks ----------------------------

  /** First byte of the block that chunk p holds for its caller. */
  function BlockOf(p: int): int {
    p + 8
  }

  /**
   Lent blocks are 8-aligned, hold the bytes that were asked for, stay inside their
   chunks and inside the segment, and do not overlap.
   */
  lemma BlocksAreDisjoint(h: Layout, ix: Index, live: Live, p: int, q: int)
    requires Good(h, ix, live) && p in live && q in live && p < q
    ensures BlockOf(p) % 8 == 0 && BlockOf(q) % 8 == 0
    ensures h.base < BlockOf(p) && BlockOf(p) + live[p] <= h.Next(p) + 4 <= BlockOf(q) - 4
    ensures BlockOf(q) + live[q] <= h.Next(q) + 4 <= h.top + 4
  {
    hide ChunksOk, EndsOk;
    ChunkHead(h, p);
    ChunkHead(h, q);
    NextIs(h, p, q);
  }
}
