/**
 What a client sees of the heap over a whole run: a list of separate byte buffers that
 keep what is stored in them, whatever sequence of calls is made.
 */
module HeapClient {

  import opened Alignments
  import opened ChunkSizes
  import opened Layouts
  import opened FreeIndex
  import opened HeapSteps
  import opened Allocator
  import opened Reallocation
  import S = SmallBins
  import T = TreeBins

  type Buffers = seq<seq<bv8>>

  /** A call; grant is what the system would add to the segment, i names a buffer held. */
  datatype Op =
    | Get(bytes: nat, grant: nat)
    | GetAligned(alignment: nat, bytes: nat, grant: nat)
    | Release(i: nat)
    | Resize(i: nat, bytes: nat, grant: nat)
    | Store(i: nat, k: nat, b: bv8)

  /** What a call may do to the buffers, when it reports ok. */
  ghost predicate Allowed(v: Buffers, op: Op, ok: bool, v': Buffers) {
    if !ok then
      && v' == v
      && (op.Release? ==> |v| <= op.i)
      && (op.Store? && op.i < |v| ==> |v[op.i]| <= op.k)
    else match op
      case Get(bytes, _) => |v'| == |v| + 1 && v'[..|v|] == v && |v'[|v|]| == bytes
      case GetAligned(_, bytes, _) => |v'| == |v| + 1 && v'[..|v|] == v && |v'[|v|]| == bytes
      case Release(i) => i < |v| && v' == v[..i] + v[i + 1..]
      case Resize(i, bytes, _) =>
        && i < |v| && |v'| == |v| && |v'[i]| == bytes && v' == v[i := v'[i]]
        && var n := if |v[i]| < bytes then |v[i]| else bytes;
           v'[i][..n] == v[i][..n]
      case Store(i, k, b) => i < |v| && k < |v[i]| && v' == v[i := v[i][k := b]]
  }

  // ---- the buffers in memory -----------------------------------------------

  /** The block at m, of the size asked for, holds the bytes s. */
  ghost predicate Block(live: Live, data: Bytes, m: int, s: seq<bv8>) {
    m - 8 in live && |s| == live[m - 8] && forall k | 0 <= k < |s| :: s[k] == data(m + k)
  }

  /** The client has a pointer to every block that is lent out. */
  ghost predicate Covers(live: Live, held: seq<int>) {
    forall p | p in live :: p + 8 in held
  }

  /** The client's pointers are the blocks that are lent out, each once. */
  ghost predicate HoldsAll(live: Live, held: seq<int>) {
    && Covers(live, held)
    && (forall i, j | 0 <= i < j < |held| :: held[i] != held[j])
  }

  /** The blocks at the client's pointers hold the buffers v. */
  ghost predicate Shows(live: Live, data: Bytes, held: seq<int>, v: Buffers) {
    |v| == |held| && forall i | 0 <= i < |held| :: Block(live, data, held[i], v[i])
  }

  ghost predicate Inv(a: Malloc, data: Bytes, held: seq<int>, v: Buffers)
    reads a, a.small, a.tree
  {
    a.Valid() && HoldsAll(a.live, held) && Shows(a.live, data, held, v)
  }

  ghost function ReadBlock(data: Bytes, m: int, n: nat): (s: seq<bv8>)
    ensures |s| == n && forall k | 0 <= k < n :: s[k] == data(m + k)
  {
    seq(n, k => data(m + k))
  }

  lemma KeptBlock(h: Layout, ix: Index, live: Live, live': Live, others: Live, data: Bytes, data': Bytes,
                  m: int, s: seq<bv8>)
    requires Good(h, ix, live) && SameContents(h, others, data, data') && Block(live, data, m, s)
    requires m - 8 in live' && m - 8 in others && live'[m - 8] == live[m - 8]
    ensures Block(live', data', m, s)
  {
  }

  lemma AddedBlock(live: Live, data: Bytes, held: seq<int>, v: Buffers, m: int, bytes: nat) returns (v': Buffers)
    requires HoldsAll(live, held) && Shows(live, data, held, v) && m - 8 !in live
    ensures HoldsAll(live[m - 8 := bytes], held + [m]) && Shows(live[m - 8 := bytes], data, held + [m], v')
    ensures |v'| == |v| + 1 && v'[..|v|] == v && |v'[|v|]| == bytes
  {
    var live', held' := live[m - 8 := bytes], held + [m];
    v' := v + [ReadBlock(data, m, bytes)];
    forall p | p in live'
      ensures p + 8 in held'
    {
      if p == m - 8 {
        assert held'[|held|] == m;
      }
    }
    forall i | 0 <= i < |held|
      ensures held[i] != m && Block(live', data, held[i], v[i])
    {
      assert Block(live, data, held[i], v[i]);
    }
  }

  function Skip<X>(s: seq<X>, i: nat): (r: seq<X>)
    requires i < |s|
    ensures |r| == |s| - 1
    ensures forall j | 0 <= j < |s| - 1 :: r[j] == s[if j < i then j else j + 1]
  {
    s[..i] + s[i + 1..]
  }

  lemma RemovedPointer(live: Live, held: seq<int>, i: nat)
    requires HoldsAll(live, held) && i < |held|
    ensures HoldsAll(live - {held[i] - 8}, Skip(held, i))
  {
  }

  lemma RemovedBlock(live: Live, data: Bytes, held: seq<int>, v: Buffers, i: nat)
    requires HoldsAll(live, held) && Shows(live, data, held, v) && i < |held|
    ensures Shows(live - {held[i] - 8}, data, Skip(held, i), Skip(v, i))
  {
  }

  lemma HeldIndex(live: Live, held: seq<int>, m: int) returns (j: nat)
    requires HoldsAll(live, held) && m - 8 in live
    ensures j < |held| && held[j] == m
  {
    j :| 0 <= j < |held| && held[j] == m;
  }

  lemma MovedPointer(live: Live, held: seq<int>, i: nat, m: int, bytes: nat)
    requires HoldsAll(live, held) && i < |held| && (m == held[i] || m - 8 !in live)
    requires forall j | 0 <= j < |held| :: held[j] - 8 in live
    ensures HoldsAll((live - {held[i] - 8})[m - 8 := bytes], held[i := m])
  {
    hide Covers;
    MovedCovers(live, held, i, m, bytes);
    StillDistinct(live, held, i, m);
  }

  lemma MovedCovers(live: Live, held: seq<int>, i: nat, m: int, bytes: nat)
    requires HoldsAll(live, held) && i < |held|
    ensures Covers((live - {held[i] - 8})[m - 8 := bytes], held[i := m])
  {
    hide HoldsAll;
    var live' := (live - {held[i] - 8})[m - 8 := bytes];
    forall p | p in live'
      ensures p + 8 in held[i := m]
    {
      MovedFound(live, held, i, m, p);
    }
  }

  lemma StillDistinct(live: Live, held: seq<int>, i: nat, m: int)
    requires HoldsAll(live, held) && i < |held| && (m == held[i] || m - 8 !in live)
    requires forall j | 0 <= j < |held| :: held[j] - 8 in live
    ensures var held' := held[i := m]; forall j, k | 0 <= j < k < |held'| :: held'[j] != held'[k]
  {
    hide Covers;
    var held' := held[i := m];
    forall j, k | 0 <= j < k < |held'|
      ensures held'[j] != held'[k]
    {
      assert held[j] != held[k];
    }
  }

  lemma MovedFound(live: Live, held: seq<int>, i: nat, m: int, p: int)
    requires HoldsAll(live, held) && i < |held|
    requires p == m - 8 || (p in live && p != held[i] - 8)
    ensures p + 8 in held[i := m]
  {
    if p == m - 8 {
      assert held[i := m][i] == m;
    } else {
      var j := HeldIndex(live, held, p + 8);
      assert held[i := m][j] == p + 8;
    }
  }

  lemma AllHeld(live: Live, data: Bytes, held: seq<int>, v: Buffers)
    requires Shows(live, data, held, v)
    ensures forall j | 0 <= j < |held| :: held[j] - 8 in live && |v[j]| == live[held[j] - 8]
  {
  }

  /** Buffer i was resized and perhaps moved; the others are where and what they were. */
  lemma ResizedBlock(h: Layout, ix: Index, live: Live, data: Bytes, data': Bytes, held: seq<int>, v: Buffers,
                     i: nat, m: int, bytes: nat)
    returns (v': Buffers)
    requires Good(h, ix, live) && HoldsAll(live, held) && Shows(live, data, held, v) && i < |held|
    requires m == held[i] || m - 8 !in live
    requires SameContents(h, live - {held[i] - 8}, data, data')
    requires Moved(data, data', m, held[i], Min(Usable(h, held[i] - 8), bytes))
    ensures Shows((live - {held[i] - 8})[m - 8 := bytes], data', held[i := m], v')
    ensures Allowed(v, Resize(i, bytes, 0), true, v')
  {
    hide Good, SameContents, Moved, Block;
    var live' := (live - {held[i] - 8})[m - 8 := bytes];
    v' := v[i := ReadBlock(data', m, bytes)];
    AllHeld(live, data, held, v);
    forall j | 0 <= j < |held| && j != i
      ensures Block(live', data', held[j], v[j])
    {
      assert held[j] != held[i];
      KeptBlock(h, ix, live, live', live - {held[i] - 8}, data, data', held[j], v[j]);
    }
    NewBlock(live', data', m, bytes);
    ResizedPrefix(h, ix, live, data, data', held[i], v[i], m, bytes);
  }

  lemma NewBlock(live: Live, data: Bytes, m: int, bytes: nat)
    requires m - 8 in live && live[m - 8] == bytes
    ensures Block(live, data, m, ReadBlock(data, m, bytes))
  {
  }

  lemma ResizedPrefix(h: Layout, ix: Index, live: Live, data: Bytes, data': Bytes, m0: int, s: seq<bv8>, m: int, bytes: nat)
    requires Good(h, ix, live) && Block(live, data, m0, s)
    requires Moved(data, data', m, m0, Min(Usable(h, m0 - 8), bytes))
    ensures var n := if |s| < bytes then |s| else bytes;
            ReadBlock(data', m, bytes)[..n] == s[..n]
  {
  }

  /** A byte stored in one buffer is in no other. */
  lemma StoredByte(h: Layout, ix: Index, live: Live, data: Bytes, held: seq<int>, v: Buffers, i: nat, k: nat, b: bv8)
    requires Good(h, ix, live) && HoldsAll(live, held) && Shows(live, data, held, v) && i < |held| && k < |v[i]|
    ensures var data' := x => if x == held[i] + k then b else data(x);
            Shows(live, data', held, v[i := v[i][k := b]])
  {
    hide Good;
    var data' := x => if x == held[i] + k then b else data(x);
    forall j | 0 <= j < |held|
      ensures Block(live, data', held[j], v[i := v[i][k := b]][j])
    {
      assert Block(live, data, held[j], v[j]) && Block(live, data, held[i], v[i]);
      if j != i {
        LentTags(h, ix, live, held[j] - 8);
        SpacedOut(h, ix, live, held[j] - 8, held[i] - 8);
      }
    }
  }

  // ---- runs ----------------------------------------------------------------

  /** The arguments are machine words, and alignments are at most half the address space. */
  predicate InRange(op: Op) {
    match op
    case Get(bytes, _) => bytes < WORD
    case GetAligned(alignment, bytes, _) => bytes < WORD && alignment <= 0x8000_0000
    case Resize(_, bytes, _) => bytes < WORD
    case _ => true
  }

  /** The system grants whole units that fit in the address space, or nothing. */
  method Obtainable(a: Malloc, grant: nat) returns (g: nat)
    requires a.Valid()
    ensures g % 8 == 0 && a.ms.top + a.ms.topsize + g + TOP_FOOT_SIZE <= WORD
    ensures g == 0 || g == grant
  {
    hide S.BinsOk, T.State.Ok, IndexExcept, LiveOk, ChunksOk, Apart;
    g := if grant % 8 == 0 && a.ms.top + a.ms.topsize + grant + TOP_FOOT_SIZE <= WORD then grant else 0;
  }

  method PerformGet(a: Malloc, data: Bytes, held: seq<int>, ghost v: Buffers, alignment: nat, bytes: nat, grant: nat)
    returns (ok: bool, held': seq<int>, ghost v': Buffers)
    requires Inv(a, data, held, v) && bytes < WORD && alignment <= 0x8000_0000
    modifies a, a.small, a.tree
    ensures Inv(a, data, held', v') && Allowed(v, GetAligned(alignment, bytes, grant), ok, v')
  {
    hide S.BinsOk, T.State.Ok, Good, Untouched, CanServe, CanAlign, Chosen, GrantedIndex, TopAfter;
    hide HoldsAll, Shows, Rounded, AlignedTo;
    var g := Obtainable(a, grant);
    ghost var live0 := a.live;
    var m, al, p0 := Memalign(a, alignment, bytes, g);
    ok, held', v' := m != 0, held, v;
    if ok {
      held' := held + [m];
      v' := AddedBlock(live0, data, held, v, m, bytes);
    }
  }

  method PerformRelease(a: Malloc, data: Bytes, held: seq<int>, ghost v: Buffers, i: nat)
    returns (ok: bool, held': seq<int>, ghost v': Buffers)
    requires Inv(a, data, held, v)
    modifies a, a.small, a.tree
    ensures Inv(a, data, held', v') && Allowed(v, Release(i), ok, v')
  {
    hide S.BinsOk, T.State.Ok, Good, Untouched, HoldsAll, Block;
    ok, held', v' := i < |held|, held, v;
    if ok {
      AllHeld(a.live, data, held, v);
      LentTags(a.H(), a.Ix(), a.live, held[i] - 8);
      RemovedPointer(a.live, held, i);
      RemovedBlock(a.live, data, held, v, i);
      held', v' := Skip(held, i), Skip(v, i);
      a.Free(held[i]);
    }
  }

  method PerformResize(a: Malloc, data: Bytes, held: seq<int>, ghost v: Buffers, i: nat, bytes: nat, grant: nat)
    returns (ok: bool, data': Bytes, held': seq<int>, ghost v': Buffers)
    requires Inv(a, data, held, v) && bytes < WORD
    modifies a, a.small, a.tree
    ensures Inv(a, data', held', v') && Allowed(v, Resize(i, bytes, grant), ok, v')
  {
    hide S.BinsOk, T.State.Ok, Good, Untouched, CanServe, HoldsAll, Block, Moved, SameContents, FitsInPlace;
    ok, data', held', v' := false, data, held, v;
    if i < |held| {
      ghost var h0, ix0, live0 := a.H(), a.Ix(), a.live;
      AllHeld(a.live, data, held, v);
      var g := Obtainable(a, grant);
      var m;
      m, data' := Realloc(a, data, held[i], bytes, g);
      if m != 0 {
        ok := true;
        MovedPointer(live0, held, i, m, bytes);
        v' := ResizedBlock(h0, ix0, live0, data, data', held, v, i, m, bytes);
        held' := held[i := m];
      }
    }
  }

  method PerformStore(a: Malloc, data: Bytes, held: seq<int>, ghost v: Buffers, i: nat, size: nat, k: nat, b: bv8)
    returns (ok: bool, data': Bytes, ghost v': Buffers)
    requires Inv(a, data, held, v) && (i < |v| ==> size == |v[i]|)
    ensures Inv(a, data', held, v') && Allowed(v, Store(i, k, b), ok, v')
  {
    hide S.BinsOk, T.State.Ok, Good, HoldsAll, Block;
    ok, data', v' := i < |held| && k < size, data, v;
    if ok {
      StoredByte(a.H(), a.Ix(), a.live, data, held, v, i, k, b);
      var x := held[i] + k;
      data' := y => if y == x then b else data(y);
      v' := v[i := v[i][k := b]];
    }
  }

  ghost predicate SizesOf(sizes: seq<nat>, v: Buffers) {
    |sizes| == |v| && forall i | 0 <= i < |v| :: sizes[i] == |v[i]|
  }

  /** The sizes that the client knows after a call. */
  function NextSizes(sizes: seq<nat>, op: Op, ok: bool): seq<nat> {
    if !ok then sizes
    else match op
      case Get(bytes, _) => sizes + [bytes]
      case GetAligned(_, bytes, _) => sizes + [bytes]
      case Release(i) => if i < |sizes| then sizes[..i] + sizes[i + 1..] else sizes
      case Resize(i, bytes, _) => if i < |sizes| then sizes[i := bytes] else sizes
      case Store(_, _, _) => sizes
  }

  lemma SizesKnown(sizes: seq<nat>, v: Buffers, op: Op, ok: bool, v': Buffers)
    requires SizesOf(sizes, v) && Allowed(v, op, ok, v')
    ensures SizesOf(NextSizes(sizes, op, ok), v')
  {
  }

  /** Any one call. */
  method Perform(a: Malloc, data: Bytes, held: seq<int>, sizes: seq<nat>, op: Op, ghost v: Buffers)
    returns (ok: bool, data': Bytes, held': seq<int>, ghost v': Buffers)
    requires Inv(a, data, held, v) && SizesOf(sizes, v) && InRange(op)
    modifies a, a.small, a.tree
    ensures Inv(a, data', held', v') && Allowed(v, op, ok, v')
  {
    hide Inv;
    ok, data', held', v' := false, data, held, v;
    match op {
      case Get(bytes, grant) =>
        ok, held', v' := PerformGet(a, data, held, v, 8, bytes, grant);
      case GetAligned(alignment, bytes, grant) =>
        ok, held', v' := PerformGet(a, data, held, v, alignment, bytes, grant);
      case Release(i) =>
        ok, held', v' := PerformRelease(a, data, held, v, i);
      case Resize(i, bytes, grant) =>
        ok, data', held', v' := PerformResize(a, data, held, v, i, bytes, grant);
      case Store(i, k, b) =>
        ok, data', v' := PerformStore(a, data, held, v, i, if i < |sizes| then sizes[i] else 0, k, b);
    }
  }

  /**
   Any sequence of calls: from an empty heap on, each call does to the client's buffers
   only what that call is for, and the heap's invariant holds throughout.
   */
  method Run(a: Malloc, ops: seq<Op>, init: Bytes)
    returns (oks: seq<bool>, data: Bytes, held: seq<int>, ghost trace: seq<Buffers>)
    requires a.Valid() && a.live == map[] && forall i | 0 <= i < |ops| :: InRange(ops[i])
    modifies a, a.small, a.tree
    ensures |oks| == |ops| && |trace| == |ops| + 1 && trace[0] == []
    ensures forall i | 0 <= i < |ops| :: Allowed(trace[i], ops[i], oks[i], trace[i + 1])
    ensures Inv(a, data, held, trace[|ops|])
  {
    hide Allowed, SizesOf, InRange, Malloc.Valid;
    oks, data, held, trace := [], init, [], [[]];
    var sizes: seq<nat> := [];
    NoSizes();
    var n := 0;
    while n < |ops|
      invariant 0 <= n <= |ops| && |oks| == n && |trace| == n + 1 && trace[0] == []
      invariant Inv(a, data, held, trace[n]) && SizesOf(sizes, trace[n])
      invariant forall i | 0 <= i < n :: Allowed(trace[i], ops[i], oks[i], trace[i + 1])
    {
      var ok;
      ghost var v;
      ok, data, held, v := Perform(a, data, held, sizes, ops[n], trace[n]);
      SizesKnown(sizes, trace[n], ops[n], ok, v);
      sizes := NextSizes(sizes, ops[n], ok);
      oks, trace := oks + [ok], trace + [v];
      n := n + 1;
    }
  }

  lemma NoSizes()
    ensures SizesOf([], [])
  {
  }
}
