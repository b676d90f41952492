/**
 How the free chunks of a segment are indexed: each one is the designated victim or
 sits in a bin, and nothing else does.  Also which chunks are lent out to callers.
 */
module FreeIndex {

  import opened ChunkSizes
  import opened Layouts

  type Items = map<int, int>

  /** The designated victim with its size, and the binned chunks with theirs. */
  datatype Index = Index(dv: int, dvsize: int, binned: Items)
  {
    predicate Holds(x: int) {
      x in binned || (dv != 0 && x == dv)
    }
  }

  ghost predicate BinnedOk(h: Layout, ix: Index, X: set<int>) {
    forall x | x in ix.binned ::
      && x in h.C && x in h.head && !h.head[x].cinuse && h.head[x].size == ix.binned[x]
      && x !in X && x != ix.dv
  }

  ghost predicate VictimOk(h: Layout, ix: Index, X: set<int>) {
    && (ix.dv == 0 <==> ix.dvsize == 0)
    && (ix.dv != 0 ==>
          && ix.dv in h.C && ix.dv in h.head && !h.head[ix.dv].cinuse
          && h.head[ix.dv].size == ix.dvsize && ix.dv !in X)
  }

  /** Exactly the free chunks outside X are indexed, each once and under its own size. */
  ghost predicate IndexExcept(h: Layout, ix: Index, X: set<int>) {
    && BinnedOk(h, ix, X)
    && VictimOk(h, ix, X)
    && (forall x | x in h.C && !h.Inuse(x) && x !in X :: ix.Holds(x))
  }

  ghost predicate IndexOk(h: Layout, ix: Index) {
    IndexExcept(h, ix, {})
  }

  // ---- entries come and go -------------------------------------------------

  lemma AddBinned(h: Layout, ix: Index, x: int)
    requires IndexExcept(h, ix, {x}) && x in h.C && x in h.head && !h.head[x].cinuse
    requires x != 0
    ensures x !in ix.binned && x != ix.dv
    ensures IndexOk(h, ix.(binned := ix.binned[x := h.head[x].size]))
  {
  }

  lemma SetVictim(h: Layout, ix: Index, x: int)
    requires IndexExcept(h, ix, {x}) && x in h.C && x in h.head && !h.head[x].cinuse
    requires ix.dv == 0 && x != 0 && h.head[x].size != 0
    ensures IndexOk(h, ix.(dv := x, dvsize := h.head[x].size))
  {
  }

  /** The index survives a change of the chunks in Z, none of which it mentions. */
  lemma IndexMove(h: Layout, h': Layout, ix: Index, X: set<int>, Z: set<int>, Y: set<int>)
    requires IndexExcept(h, ix, X) && SameBut(h, h', Z) && X <= Z && Y <= Z
    requires forall z | z in Z :: !ix.Holds(z)
    requires forall z | z in Z && z in h'.C && !h'.Inuse(z) :: z in Y
    ensures IndexExcept(h', ix, Y)
  {
  }

  /** Chunks in use and the chunks left out are not in the index. */
  lemma NotHeld(h: Layout, ix: Index, X: set<int>, z: int)
    requires IndexExcept(h, ix, X) && (z in X || h.Inuse(z) || z !in h.C)
    ensures !ix.Holds(z)
  {
  }

  lemma Held(h: Layout, ix: Index, X: set<int>, x: int)
    requires IndexExcept(h, ix, X) && x in h.C && !h.Inuse(x) && x !in X
    ensures ix.Holds(x)
    ensures x != ix.dv ==> x in ix.binned && ix.binned[x] == h.Size(x)
    ensures x == ix.dv ==> ix.dvsize == h.Size(x) && x !in ix.binned
  {
  }

  // ---- blocks lent to callers ----------------------------------------------

  /** The chunks in use, each with the number of bytes its caller asked for. */
  ghost predicate LiveOk(h: Layout, live: map<int, nat>) {
    && (forall p | p in live :: p in h.C && h.Inuse(p) && live[p] + CHUNK_OVERHEAD <= h.Size(p))
    && (forall p | p in h.C && h.Inuse(p) :: p in live)
  }

  lemma LiveMove(h: Layout, h': Layout, live: map<int, nat>, Z: set<int>, live': map<int, nat>)
    requires LiveOk(h, live) && SameBut(h, h', Z)
    requires forall p | p !in Z :: p in live <==> p in live'
    requires forall p | p !in Z && p in live :: live'[p] == live[p]
    requires forall p | p in Z :: p in live' <==> p in h'.C && h'.Inuse(p)
    requires forall p | p in Z && p in live' :: live'[p] + CHUNK_OVERHEAD <= h'.Size(p)
    ensures LiveOk(h', live')
  {
  }
}
