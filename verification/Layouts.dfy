/**
 The segment as a row of chunks with boundary tags.

 A layout is the set of chunk addresses below the top chunk, with the head words and
 feet in memory.  Every condition on it concerns one chunk and the chunk after it,
 or the order of two chunks, so that splitting and merging are local changes; that
 the chunks tile the segment without gap or overlap is a consequence.
 */
module Layouts {

  import opened ChunkSizes
  import T = TreeBins

  type Heads = T.Heads

  const TOP_FOOT_SIZE: nat := 40

  datatype Layout = Layout(base: int, C: set<int>, head: Heads, foot: map<int, int>,
                           top: int, topsize: int)
  {
    function Size(p: int): int {
      if p in head then head[p].size else 0
    }

    function Next(p: int): int {
      p + Size(p)
    }

    predicate Inuse(p: int) {
      p in head && head[p].cinuse
    }

    /** p is the address of a chunk, the top chunk included. */
    predicate Chunk(p: int) {
      p in C || p == top
    }
  }

  /** The tags of chunk p agree with its place and with the chunk after it. */
  ghost predicate ChunkOk(h: Layout, p: int) {
    && p in h.head && h.base <= p && p % 8 == 0
    && h.Size(p) % 8 == 0 && h.Size(p) >= MIN_CHUNK_SIZE
    && h.Chunk(h.Next(p)) && h.Next(p) <= h.top && h.Next(p) in h.head
    && h.head[h.Next(p)].pinuse == h.head[p].cinuse
    && (!h.head[p].cinuse ==>
          h.head[p].pinuse && h.Next(p) in h.foot && h.foot[h.Next(p)] == h.Size(p))
  }

  ghost predicate ChunksOk(h: Layout) {
    forall p | p in h.C :: ChunkOk(h, p)
  }

  /** No chunk begins inside another. */
  ghost predicate Apart(h: Layout) {
    forall p, q | p in h.C && q in h.C && p < q :: h.Next(p) <= q
  }

  ghost predicate EndsOk(h: Layout) {
    && 0 < h.base && h.base % 8 == 0 && h.top % 8 == 0 && h.base <= h.top
    && h.Chunk(h.base) && h.base in h.head && h.head[h.base].pinuse
    && 0 < h.topsize && h.topsize % 8 == 0
    && h.top in h.head && h.head[h.top] == T.Head(h.topsize, true, false)
    && h.top + h.topsize + TOP_FOOT_SIZE <= WORD
  }

  /** The boundary-tag invariant of the whole segment. */
  ghost predicate LayoutOk(h: Layout) {
    ChunksOk(h) && Apart(h) && EndsOk(h)
  }

  lemma ChunkAt(h: Layout, p: int)
    requires LayoutOk(h) && p in h.C
    ensures ChunkOk(h, p) && p < h.top
  {
    hide Apart, EndsOk;
    assert ChunkOk(h, p);
  }

  lemma NextIs(h: Layout, p: int, q: int)
    requires LayoutOk(h) && p in h.C && h.Chunk(q) && p < q
    ensures h.Next(p) <= q
  {
    ChunkAt(h, p);
  }

  // ---- consequences --------------------------------------------------------

  /** The chunk that ends where q begins, found by walking up from p. */
  lemma {:induction false} WalkTo(h: Layout, p: int, q: int) returns (r: int)
    requires LayoutOk(h) && p in h.C && h.Chunk(q) && p < q
    ensures r in h.C && p <= r && h.Next(r) == q
    decreases q - p
  {
    hide ChunksOk, Apart, EndsOk;
    ChunkAt(h, p);
    NextIs(h, p, q);
    assert q <= h.top by {
      if q in h.C {
        ChunkAt(h, q);
      }
    }
    if h.Next(p) == q {
      r := p;
    } else {
      r := WalkTo(h, h.Next(p), q);
    }
  }

  /** Every chunk but the first has a chunk that ends where it begins. */
  lemma Predecessor(h: Layout, q: int) returns (r: int)
    requires LayoutOk(h) && h.Chunk(q) && q != h.base
    ensures r in h.C && h.Next(r) == q
  {
    hide ChunksOk, Apart;
    if q in h.C {
      ChunkAt(h, q);
    }
    r := WalkTo(h, h.base, q);
  }

  /** If pinuse is clear, the foot leads to the free chunk before. */
  lemma PrevFree(h: Layout, q: int)
    requires LayoutOk(h) && h.Chunk(q) && q in h.head && !h.head[q].pinuse
    ensures q in h.foot
    ensures var p := q - h.foot[q];
            p in h.C && h.Next(p) == q && !h.Inuse(p) && h.Size(p) == h.foot[q] && p < q
  {
    hide ChunksOk, Apart;
    var r := Predecessor(h, q);
    ChunkAt(h, r);
  }

  /** No two free chunks are adjacent, the top chunk included. */
  lemma NoAdjacentFree(h: Layout, p: int)
    requires LayoutOk(h) && p in h.C && !h.Inuse(p)
    ensures h.Next(p) in h.C && h.Inuse(h.Next(p))
    ensures h.head[p].pinuse
  {
    hide ChunksOk, Apart;
    ChunkAt(h, p);
    if h.Next(p) in h.C {
      ChunkAt(h, h.Next(p));
    }
  }

  /** Every address of the segment below the top chunk lies in exactly one chunk. */
  lemma Tiling(h: Layout, a: int) returns (p: int)
    requires LayoutOk(h) && h.base <= a < h.top
    ensures p in h.C && p <= a < h.Next(p)
    ensures forall q | q in h.C && q <= a < h.Next(q) :: q == p
  {
    hide ChunksOk;
    p := Holder(h, h.base, a);
    forall q | q in h.C && q <= a < h.Next(q)
      ensures q == p
    {
      if q < p {
        NextIs(h, q, p);
      } else if p < q {
        NextIs(h, p, q);
      }
    }
  }

  lemma {:induction false} Holder(h: Layout, p: int, a: int) returns (r: int)
    requires LayoutOk(h) && p in h.C && p <= a < h.top
    ensures r in h.C && r <= a < h.Next(r)
    decreases h.top - p
  {
    hide ChunksOk, Apart, EndsOk;
    ChunkAt(h, p);
    if a < h.Next(p) {
      r := p;
    } else {
      r := Holder(h, h.Next(p), a);
    }
  }

  // ---- taking space --------------------------------------------------------

  /** A free chunk p becomes an in-use chunk as it is. */
  function UseWhole(h: Layout, p: int): Layout
    requires p in h.head && h.Next(p) in h.head
  {
    var n := h.Next(p);
    h.(head := h.head[p := h.head[p].(pinuse := true, cinuse := true)]
                     [n := h.head[n].(pinuse := true)])
  }

  /** The lower nb bytes of a free chunk p become an in-use chunk; the rest stays free. */
  function UseSplit(h: Layout, p: int, nb: nat): Layout
    requires p in h.head && nb <= h.head[p].size
  {
    var r, rsize := p + nb, h.head[p].size - nb;
    h.(C := h.C + {r},
       head := h.head[p := T.Head(nb, true, true)][r := T.Head(rsize, true, false)],
       foot := h.foot[r + rsize := rsize])
  }

  /** The lower nb bytes of the top chunk become an in-use chunk. */
  function UseTop(h: Layout, nb: nat): Layout
    requires nb <= h.topsize
  {
    h.(C := h.C + {h.top}, top := h.top + nb, topsize := h.topsize - nb,
       head := h.head[h.top + nb := T.Head(h.topsize - nb, true, false)]
                     [h.top := T.Head(nb, true, true)])
  }

  /** Only the named chunks may differ between two layouts of one segment. */
  ghost predicate SameBut(h: Layout, h': Layout, X: set<int>) {
    && h'.base == h.base
    && (forall q | q in h.C && q !in X :: q in h'.C)
    && (forall q | q in h'.C && q !in X :: q in h.C)
    && (forall q | q in h.C && q !in X ::
          q in h.head && q in h'.head && h'.head[q].size == h.head[q].size
          && h'.head[q].cinuse == h.head[q].cinuse)
  }

  lemma NextOther(h: Layout, p: int, q: int)
    requires LayoutOk(h) && p in h.C && q in h.C && p != q
    ensures h.Next(p) != h.Next(q)
  {
    hide ChunksOk, EndsOk;
    ChunkAt(h, p);
    ChunkAt(h, q);
    if p < q {
      NextIs(h, p, q);
    } else {
      NextIs(h, q, p);
    }
  }

  lemma UseWholeOk(h: Layout, p: int)
    requires LayoutOk(h) && p in h.C && !h.Inuse(p)
    ensures p in h.head && h.Next(p) in h.head
    ensures LayoutOk(UseWhole(h, p)) && UseWhole(h, p).Inuse(p) && UseWhole(h, p).Size(p) == h.Size(p)
    ensures SameBut(h, UseWhole(h, p), {p})
  {
    hide ChunksOk, Apart;
    ChunkAt(h, p);
    NoAdjacentFree(h, p);
    var h' := UseWhole(h, p);
    assert ChunksOk(h') by {
      forall q | q in h'.C
        ensures ChunkOk(h', q)
      {
        ChunkAt(h, q);
        if q != p {
          NextOther(h, p, q);
        }
      }
      UnfoldChunks(h');
    }
    assert Apart(h') by {
      ApartSame(h, h');
    }
    assert SameBut(h, h', {p}) by {
      forall q | q in h.C
        ensures q in h.head
      {
        ChunkAt(h, q);
      }
    }
  }

  lemma UnfoldChunks(h: Layout)
    requires forall p | p in h.C :: ChunkOk(h, p)
    ensures ChunksOk(h)
  {
  }

  lemma ApartSame(h: Layout, h': Layout)
    requires Apart(h) && h'.C <= h.C && forall q | q in h'.C :: h'.Size(q) == h.Size(q)
    ensures Apart(h')
  {
  }

  lemma MoreEights(x: int, y: int)
    requires x % 8 == 0 && y % 8 == 0
    ensures (x + y) % 8 == 0 && (x - y) % 8 == 0
  {
  }

  lemma UseSplitChunks(h: Layout, p: int, nb: nat)
    requires LayoutOk(h) && p in h.C && !h.Inuse(p)
    requires nb % 8 == 0 && nb >= MIN_CHUNK_SIZE && h.Size(p) >= nb + MIN_CHUNK_SIZE
    ensures p in h.head && ChunksOk(UseSplit(h, p, nb))
  {
    hide ChunksOk, Apart;
    ChunkAt(h, p);
    NoAdjacentFree(h, p);
    MoreEights(p, nb);
    MoreEights(h.Size(p), nb);
    var r := p + nb;
    var h' := UseSplit(h, p, nb);
    forall q | q in h'.C
      ensures ChunkOk(h', q)
    {
      if q != r {
        ChunkAt(h, q);
        if q != p {
          NextOther(h, p, q);
          NotInside(h, p, q, r);
          NotInside(h, p, h.Next(q), r);
        }
      }
    }
    UnfoldChunks(h');
  }

  /** No chunk begins inside p. */
  lemma NotInside(h: Layout, p: int, q: int, r: int)
    requires LayoutOk(h) && p in h.C && h.Chunk(q) && p < r < h.Next(p)
    ensures q != r
  {
    if p < q {
      NextIs(h, p, q);
    }
  }

  /** The chunk p is cut in two after nb bytes. */
  lemma SplitApart(h: Layout, h': Layout, p: int, nb: nat)
    requires LayoutOk(h) && p in h.C && 0 < nb <= h.Size(p) && p + nb !in h.C
    requires h'.C == h.C + {p + nb} && h'.Size(p) == nb && h'.Size(p + nb) == h.Size(p) - nb
    requires forall q | q in h.C && q != p :: h'.Size(q) == h.Size(q)
    ensures Apart(h')
  {
    hide ChunksOk, Apart;
    var r := p + nb;
    forall a, b | a in h'.C && b in h'.C && a < b
      ensures h'.Next(a) <= b
    {
      if a != r && a != p && b != r {
        NextIs(h, a, b);
      } else if a != r && a != p {
        if p < a {
          NextIs(h, p, a);
        }
        NextIs(h, a, p);
      } else if b != r {
        NextIs(h, p, b);
      }
    }
    UnfoldApart(h');
  }

  lemma UseSplitOk(h: Layout, p: int, nb: nat)
    requires LayoutOk(h) && p in h.C && !h.Inuse(p)
    requires nb % 8 == 0 && nb >= MIN_CHUNK_SIZE && h.Size(p) >= nb + MIN_CHUNK_SIZE
    ensures p in h.head && p + nb !in h.C && p + nb < h.top
    ensures var h' := UseSplit(h, p, nb);
            && LayoutOk(h') && h'.Inuse(p) && h'.Size(p) == nb
            && !h'.Inuse(p + nb) && h'.Size(p + nb) == h.Size(p) - nb
            && SameBut(h, h', {p, p + nb})
  {
    hide ChunksOk, Apart;
    ChunkAt(h, p);
    var r := p + nb;
    UseSplitChunks(h, p, nb);
    forall q | q in h.C
      ensures q in h.head && q < h.top && q != r
    {
      ChunkAt(h, q);
      NotInside(h, p, q, r);
    }
    SplitApart(h, UseSplit(h, p, nb), p, nb);
  }

  lemma UnfoldApart(h: Layout)
    requires forall p, q | p in h.C && q in h.C && p < q :: h.Next(p) <= q
    ensures Apart(h)
  {
  }

  lemma UseTopOk(h: Layout, nb: nat)
    requires LayoutOk(h) && nb % 8 == 0 && nb >= MIN_CHUNK_SIZE && nb < h.topsize
    ensures h.top !in h.C
    ensures var h' := UseTop(h, nb);
            && LayoutOk(h') && h'.Inuse(h.top) && h'.Size(h.top) == nb
            && SameBut(h, h', {h.top})
  {
    hide ChunksOk, Apart;
    var h' := UseTop(h, nb);
    forall q | q in h.C
      ensures q in h.head && q < h.top
    {
      ChunkAt(h, q);
    }
    assert ChunksOk(h') by {
      forall q | q in h'.C
        ensures ChunkOk(h', q)
      {
        if q != h.top {
          ChunkAt(h, q);
        }
      }
      UnfoldChunks(h');
    }
    assert Apart(h') by {
      forall a, b | a in h'.C && b in h'.C && a < b
        ensures h'.Next(a) <= b
      {
        if a != h.top {
          NextIs(h, a, b);
        }
      }
      UnfoldApart(h');
    }
  }

  // ---- giving space back ---------------------------------------------------

  /** The chunks from a up to the in-use chunk e become one free chunk. */
  function MergeFree(h: Layout, a: int, e: int): Layout
    requires a < e && e in h.head
  {
    h.(C := (set q | q in h.C && !(a < q < e)),
       head := h.head[a := T.Head(e - a, true, false)][e := h.head[e].(pinuse := false)],
       foot := h.foot[e := e - a])
  }

  /** The chunks from a on become part of the top chunk. */
  function MergeTop(h: Layout, a: int): Layout
    requires a <= h.top && 0 <= h.topsize
  {
    var tsize := h.top - a + h.topsize;
    h.(C := (set q | q in h.C && q < a), top := a, topsize := tsize,
       head := h.head[a := T.Head(tsize, true, false)])
  }

  /** A merge may begin at a: the chunk before a, if any, is in use. */
  ghost predicate MergeStart(h: Layout, a: int) {
    a in h.C && a in h.head && h.head[a].pinuse
  }

  lemma MergeFreeChunk(h: Layout, a: int, e: int, q: int)
    requires LayoutOk(h) && MergeStart(h, a) && e in h.C && a < e && h.Inuse(e)
    requires q in h.C && !(a < q < e)
    ensures e in h.head && ChunkOk(MergeFree(h, a, e), q)
  {
    hide ChunksOk, Apart;
    ChunkAt(h, a);
    ChunkAt(h, e);
    ChunkAt(h, q);
    NextIs(h, a, e);
    if q < a {
      NextIs(h, q, a);
    }
  }

  lemma MergeFreeOk(h: Layout, a: int, e: int)
    requires LayoutOk(h) && MergeStart(h, a) && e in h.C && a < e && h.Inuse(e)
    ensures e in h.head
    ensures var h' := MergeFree(h, a, e);
            && LayoutOk(h') && !h'.Inuse(a) && h'.Size(a) == e - a && a in h'.C
            && SameBut(h, h', set q | q in h.C && a <= q < e)
  {
    hide ChunksOk, Apart, ChunkOk;
    assert e in h.head && h.base <= a && e < h.top by {
      ChunkHead(h, e);
      ChunkHead(h, a);
    }
    var h' := MergeFree(h, a, e);
    forall q | q in h'.C
      ensures ChunkOk(h', q)
    {
      MergeFreeChunk(h, a, e, q);
    }
    UnfoldChunks(h');
    forall b, c | b in h'.C && c in h'.C && b < c
      ensures h'.Next(b) <= c
    {
      if b != a {
        NextIs(h, b, c);
      }
    }
    UnfoldApart(h');
    forall q | q in h.C
      ensures q in h.head
    {
      ChunkHead(h, q);
    }
  }

  lemma ChunkHead(h: Layout, p: int)
    requires LayoutOk(h) && p in h.C
    ensures p in h.head && h.base <= p < h.top && h.base < h.Next(p) <= h.top
    ensures h.Size(p) >= MIN_CHUNK_SIZE && h.Size(p) % 8 == 0 && p % 8 == 0
    ensures h.Chunk(h.Next(p)) && h.Next(p) in h.head
  {
    ChunkAt(h, p);
  }

  lemma MergeTopChunk(h: Layout, a: int, q: int)
    requires LayoutOk(h) && MergeStart(h, a) && q in h.C && q < a && a <= h.top
    ensures ChunkOk(MergeTop(h, a), q)
  {
    hide ChunksOk, Apart;
    ChunkAt(h, a);
    ChunkAt(h, q);
    NextIs(h, q, a);
    if h.Next(q) in h.C {
      ChunkAt(h, h.Next(q));
    }
  }

  lemma MergeTopOk(h: Layout, a: int)
    requires LayoutOk(h) && MergeStart(h, a)
    ensures a <= h.top
    ensures var h' := MergeTop(h, a);
            LayoutOk(h') && SameBut(h, h', set q | q in h.C && a <= q)
  {
    hide ChunksOk, Apart, ChunkOk;
    ChunkHead(h, a);
    MoreEights(h.top, a);
    MoreEights(h.top - a, h.topsize);
    var h' := MergeTop(h, a);
    forall q | q in h'.C
      ensures ChunkOk(h', q)
    {
      MergeTopChunk(h, a, q);
    }
    UnfoldChunks(h');
    forall b, c | b in h'.C && c in h'.C && b < c
      ensures h'.Next(b) <= c
    {
      NextIs(h, b, c);
    }
    UnfoldApart(h');
    forall q | q in h.C
      ensures q in h.head
    {
      ChunkHead(h, q);
    }
    if h.base != a {
      BaseIn(h, a);
    }
  }

  lemma BaseIn(h: Layout, a: int)
    requires LayoutOk(h) && a in h.C
    ensures h.base in h.C && h.base in h.head && h.head[h.base].pinuse
  {
    ChunkHead(h, a);
  }

  // ---- resizing chunks in use, and the segment -----------------------------

  /** An in-use chunk p becomes two in-use chunks, the first of nb bytes. */
  function SplitInuse(h: Layout, p: int, nb: nat): Layout
    requires p in h.head && nb <= h.head[p].size
  {
    h.(C := h.C + {p + nb},
       head := h.head[p := h.head[p].(size := nb)]
                     [p + nb := T.Head(h.head[p].size - nb, true, true)])
  }

  lemma SplitInuseChunks(h: Layout, p: int, nb: nat)
    requires LayoutOk(h) && p in h.C && h.Inuse(p)
    requires nb % 8 == 0 && nb >= MIN_CHUNK_SIZE && h.Size(p) >= nb + MIN_CHUNK_SIZE
    ensures p in h.head && ChunksOk(SplitInuse(h, p, nb))
  {
    hide ChunksOk, Apart;
    ChunkAt(h, p);
    MoreEights(p, nb);
    MoreEights(h.Size(p), nb);
    var r := p + nb;
    var h' := SplitInuse(h, p, nb);
    forall q | q in h'.C
      ensures ChunkOk(h', q)
    {
      if q != r {
        ChunkAt(h, q);
        if q != p {
          NextOther(h, p, q);
          NotInside(h, p, q, r);
          NotInside(h, p, h.Next(q), r);
        }
      }
    }
    UnfoldChunks(h');
  }

  lemma SplitInuseOk(h: Layout, p: int, nb: nat)
    requires LayoutOk(h) && p in h.C && h.Inuse(p)
    requires nb % 8 == 0 && nb >= MIN_CHUNK_SIZE && h.Size(p) >= nb + MIN_CHUNK_SIZE
    ensures p in h.head && p + nb !in h.C
    ensures var h' := SplitInuse(h, p, nb);
            && LayoutOk(h') && h'.Inuse(p) && h'.Size(p) == nb
            && h'.Inuse(p + nb) && h'.Size(p + nb) == h.Size(p) - nb
            && SameBut(h, h', {p, p + nb})
  {
    hide ChunksOk, Apart;
    ChunkAt(h, p);
    var r := p + nb;
    SplitInuseChunks(h, p, nb);
    forall q | q in h.C
      ensures q in h.head && q < h.top && q != r
    {
      ChunkAt(h, q);
      NotInside(h, p, q, r);
    }
    SplitApart(h, SplitInuse(h, p, nb), p, nb);
  }

  /** The in-use chunk p below the top chunk grows into it, to nb bytes. */
  function GrowIntoTop(h: Layout, p: int, nb: nat): Layout
    requires p in h.head && h.head[p].size + h.topsize >= nb
  {
    var newtopsize := h.head[p].size + h.topsize - nb;
    h.(top := p + nb, topsize := newtopsize,
       head := h.head[p := h.head[p].(size := nb)][p + nb := T.Head(newtopsize, true, false)])
  }

  lemma GrowIntoTopOk(h: Layout, p: int, nb: nat)
    requires LayoutOk(h) && p in h.C && h.Inuse(p) && h.Next(p) == h.top
    requires nb % 8 == 0 && h.Size(p) < nb < h.Size(p) + h.topsize
    ensures p in h.head
    ensures var h' := GrowIntoTop(h, p, nb);
            LayoutOk(h') && h'.Inuse(p) && h'.Size(p) == nb && SameBut(h, h', {p})
  {
    hide ChunksOk, Apart;
    ChunkAt(h, p);
    MoreEights(p, nb);
    MoreEights(h.Size(p) + h.topsize, nb);
    var h' := GrowIntoTop(h, p, nb);
    forall q | q in h.C
      ensures q in h.head && q < h.top && q <= p && (q < p ==> h.Next(q) <= p)
    {
      ChunkAt(h, q);
      if p < q {
        NextIs(h, p, q);
      } else if q < p {
        NextIs(h, q, p);
      }
    }
    assert ChunksOk(h') by {
      forall q | q in h'.C
        ensures ChunkOk(h', q)
      {
        ChunkAt(h, q);
      }
      UnfoldChunks(h');
    }
    assert Apart(h') by {
      forall a, b | a in h'.C && b in h'.C && a < b
        ensures h'.Next(a) <= b
      {
        NextIs(h, a, b);
      }
      UnfoldApart(h');
    }
  }

  /** The top chunk takes a new size, because the segment has grown or shrunk. */
  function ResizeTop(h: Layout, tsize: nat): Layout {
    h.(topsize := tsize, head := h.head[h.top := T.Head(tsize, true, false)])
  }

  lemma ResizeTopOk(h: Layout, tsize: nat)
    requires LayoutOk(h) && 0 < tsize && tsize % 8 == 0 && h.top + tsize + TOP_FOOT_SIZE <= WORD
    ensures LayoutOk(ResizeTop(h, tsize)) && SameBut(h, ResizeTop(h, tsize), {})
  {
    hide ChunksOk, Apart;
    var h' := ResizeTop(h, tsize);
    forall q | q in h'.C
      ensures ChunkOk(h', q) && q in h.head && h'.Size(q) == h.Size(q)
    {
      ChunkAt(h, q);
    }
    UnfoldChunks(h');
    ApartSame(h, h');
  }

  /** A segment that is all top chunk. */
  function Fresh(base: int, tsize: nat): Layout {
    Layout(base, {}, map[base := T.Head(tsize, true, false)], map[], base, tsize)
  }

  lemma FreshOk(base: int, tsize: nat)
    requires 0 < base && base % 8 == 0 && 0 < tsize && tsize % 8 == 0
    requires base + tsize + TOP_FOOT_SIZE <= WORD
    ensures LayoutOk(Fresh(base, tsize))
  {
  }
}
