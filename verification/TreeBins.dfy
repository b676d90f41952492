/**
 The tree bins: 32 tries of large free chunks, with a bit map saying which are
 non-empty.  Chunks of equal size form a ring, of which exactly one chunk is a node
 of the trie; the others have a null parent and no children.
 */
module TreeBins {

  import opened BestFit
  import opened BinMaps
  import opened ChunkSizes
  import R = Rings
  import opened Tries

  /** The head word of a chunk, taken apart: its size and its two low bits. */
  datatype Head = Head(size: nat, pinuse: bool, cinuse: bool)

  type Heads = map<int, Head>
  type Items = map<int, int>

  /** The head words of the stored chunks hold the sizes they are stored under. */
  ghost predicate Agree(head: Heads, items: Items) {
    forall x | x in items :: x in head && head[x].size == items[x]
  }

  /** Every chunk has all its fields, and its index field names its bin. */
  ghost predicate FieldsOk(items: Items, c0: Links, c1: Links, par: Links, index: map<int, nat>) {
    forall x | x in items ::
      && x > 0 && SizeOk(items[x])
      && x in c0 && x in c1 && x in par
      && x in index && index[x] == ComputeTreeIndex(items[x])
  }

  /** Chunks that are not nodes have no tree links. */
  ghost predicate SparesOk(items: Items, lev: map<int, nat>, c0: Links, c1: Links, par: Links) {
    forall x | x in items && x !in lev :: Get(c0, x) == 0 && Get(c1, x) == 0 && Get(par, x) == 0
  }

  /** The chunks of one size form one ring, which starts at the node of that size. */
  ghost predicate RingsOk(items: Items, lev: map<int, nat>, rings: map<int, seq<int>>,
                          home: Links, fd: Links, bk: Links)
  {
    && rings.Keys == lev.Keys
    && (forall x | x in lev :: x in items && R.Ring(fd, bk, rings[x]) && rings[x][0] == x)
    && (forall x, y | x in lev && y in rings[x] :: y in items && items[y] == items[x])
    && (forall y | y in items :: y in home && home[y] in lev && y in rings[home[y]])
  }

  ghost predicate MapOk(m: bv32, roots: seq<int>) {
    |roots| == NBINS && forall i: nat | i < NBINS :: Marked(m, i) <==> roots[i] != 0
  }

  /** The link fields of the stored chunks, by address of the chunk. */
  datatype Fields = Fields(child0: Links, child1: Links, parent: Links, fd: Links, bk: Links,
                           index: map<int, nat>)

  /**
   What the links stand for: the chunks with their sizes, the levels of the nodes,
   the ring of each node, and the node whose ring a chunk is in.
   */
  datatype Meaning = Meaning(items: Items, lev: map<int, nat>, rings: map<int, seq<int>>, home: Links)

  /** All of the table as one value. */
  datatype State = State(treemap: bv32, roots: seq<int>, f: Fields, m: Meaning)
  {
    ghost function Trie(): Trie {
      Tries.Trie(m.items, m.lev, roots, f.child0, f.child1, f.parent)
    }

    /** The invariant of the tree bins. */
    ghost predicate Ok() {
      && Shape(Trie())
      && FieldsOk(m.items, f.child0, f.child1, f.parent, f.index)
      && SparesOk(m.items, m.lev, f.child0, f.child1, f.parent)
      && RingsOk(m.items, m.lev, m.rings, m.home, f.fd, f.bk)
      && MapOk(treemap, roots)
    }
  }

  class TreeBinTable {
    var treemap: bv32
    var roots: seq<int>
    var f: Fields
    ghost var m: Meaning

    ghost function S(): State
      reads this
    {
      State(treemap, roots, f, m)
    }

    ghost predicate Valid()
      reads this
    {
      S().Ok()
    }

    /** The stored chunks, with their sizes. */
    ghost function Items(): Items
      reads this
    {
      m.items
    }

    constructor ()
      ensures Valid() && Items() == map[] && treemap == 0
    {
      treemap := 0;
      roots := seq(NBINS, _ => 0);
      f := Fields(map[], map[], map[], map[], map[], map[]);
      m := Meaning(map[], map[], map[], map[]);
      new;
      ZeroMap(0);
    }

    // ---- insertion ---------------------------------------------------------

    /**
     Walks down from the root of the bin of s, steered by the bits of s, until it
     meets a node of that size or a missing child.
     */
    method Descend(s: nat, head: Heads) returns (t: int, side: nat)
      requires Valid() && Agree(head, Items()) && SizeOk(s)
      requires ComputeTreeIndex(s) < |roots| && roots[ComputeTreeIndex(s)] != 0
      ensures t in m.lev && t in m.items && side < 2
      ensures m.items[t] == s || (Vacant(S().Trie(), t, s) && side == BitAt(s, m.lev[t] - 1))
    {
      hide ComputeTreeIndex, BitAt, RootLevel, LinksOk, Unique, Pow2, WalkKey, Vacant, OnPath;
      hide RingsOk, SparesOk, MapOk;
      var i := ComputeTreeIndex(s);
      t := roots[i];
      var k := Wrap(s * Pow2(LeftShiftForTreeIndex(i)));
      side := 0;
      DescendStart(S().Trie(), s);
      ghost var e := m.lev[t];
      while head[t].size != s
        invariant t in m.lev && e == m.lev[t] && t in m.items && side < 2
        invariant OnPath(S().Trie(), t, s)
        invariant k == WalkKey(s, e)
        decreases e
      {
        DescendStep(S().Trie(), t, s);
        side := k / 0x8000_0000;
        k := Wrap(2 * k);
        var c := if side == 0 then f.child0[t] else f.child1[t];
        if c == 0 {
          return;
        }
        t := c;
        e := e - 1;
      }
    }

    /** Stores the chunk x of size s. */
    method InsertLargeChunk(x: int, s: nat, head: Heads)
      requires Valid() && Agree(head, Items())
      requires x > 0 && x !in Items() && SizeOk(s)
      modifies this
      ensures Valid() && Items() == old(Items())[x := s]
    {
      hide ComputeTreeIndex, State.Ok, Vacant, BitAt, Marked, Mark;
      var i := ComputeTreeIndex(s);
      ghost var s0 := S();
      EntryFacts(s0, s);
      if !Marked(treemap, i) {
        RootStep(s0, x, s);
        f := f.(index := f.index[x := i], child0 := f.child0[x := 0], child1 := f.child1[x := 0]);
        treemap := Mark(treemap, i);
        roots := roots[i := x];
        f := f.(parent := f.parent[x := TreeHeader(i)]);
        f := f.(fd := f.fd[x := x], bk := f.bk[x := x]);
        m := RootAdded(s0, x, s).m;
      } else {
        var t, side := Descend(s, head);
        f := f.(index := f.index[x := i], child0 := f.child0[x := 0], child1 := f.child1[x := 0]);
        if head[t].size != s {
          LeafStep(s0, t, x, s);
          if side == 0 {
            f := f.(child0 := f.child0[t := x]);
          } else {
            f := f.(child1 := f.child1[t := x]);
          }
          f := f.(parent := f.parent[x := t]);
          f := f.(fd := f.fd[x := x], bk := f.bk[x := x]);
          m := LeafAdded(s0, t, side, x, s).m;
        } else {
          JoinStep(s0, t, x, s);
          var n := f.fd[t];
          f := f.(fd := f.fd[t := x], bk := f.bk[n := x]);
          f := f.(fd := f.fd[x := n], bk := f.bk[x := t]);
          f := f.(parent := f.parent[x := 0]);
          m := Joined(s0, t, x, s).m;
        }
      }
    }

    // ---- removal -----------------------------------------------------------

    /**
     Cuts the rightmost leaf below x off its parent and returns it, or returns null
     if x has no children.
     */
    method CutRightmost(x: int) returns (r: int)
      requires Valid() && x in m.lev
      modifies this`f
      ensures r == 0 <==> S().Trie().Kid(x, 0) == 0 && S().Trie().Kid(x, 1) == 0 && f == old(f)
      ensures r != 0 ==> LeafBelow(old(S()).Trie(), x, r) && r == Rightmost(old(S()).Trie(), x)
      ensures r != 0 ==> r in old(f).parent && S() == CutOff(old(S()), r)
    {
      hide ComputeTreeIndex, State.Ok, LeafBelow, CutOff, Below, Shape, Rightmost;
      ghost var s0 := S();
      OkShape(s0, x);
      FieldFacts(s0, x);
      var rp, side := x, 1;
      r := f.child1[x];
      if r == 0 {
        side := 0;
        r := f.child0[x];
      }
      RightmostIs(s0, x);
      if r != 0 {
        KidBelow(s0, x, x, side);
        while f.child1[r] != 0 || f.child0[r] != 0
          invariant f == s0.f
          invariant r in s0.m.lev && r in f.child0 && r in f.child1 && r != 0 && rp in f.child0 && rp in f.child1
          invariant Below(s0.Trie(), x, rp, side, r)
          invariant Rightmost(s0.Trie(), x) == Rightmost(s0.Trie(), r)
          decreases s0.m.lev[r]
        {
          RightmostIs(s0, r);
          rp := r;
          side := if f.child1[r] != 0 then 1 else 0;
          r := if side == 1 then f.child1[r] else f.child0[r];
          KidBelow(s0, x, rp, side);
        }
        RightmostIs(s0, r);
        CutResult(s0, x, rp, side, r);
        if side == 1 {
          f := f.(child1 := f.child1[rp := 0]);
        } else {
          f := f.(child0 := f.child0[rp := 0]);
        }
      }
    }

    /** Makes r, possibly null, take over the links of the node x, whose parent is xp. */
    method TakeOver(x: int, xp: int, r: int)
      requires x in f.index && f.index[x] < |roots| && f.index[x] < NBINS
      requires x in f.child0 && x in f.child1
      requires roots[f.index[x]] != x ==> xp in f.child0 && xp in f.child1 && xp != x
      modifies this`f, this`roots, this`treemap
      ensures var h := old(f).index[x];
              var root := old(roots)[h] == x;
              && roots == (if root then old(roots)[h := r] else old(roots))
              && treemap == (if root && r == 0 then Clear(old(treemap), h) else old(treemap))
              && f == Adopted(Relinked(old(f), root, x, xp, r), x, xp, r)
    {
      hide Clear;
      var h := f.index[x];
      if x == roots[h] {
        roots := roots[h := r];
        if r == 0 {
          treemap := Clear(treemap, h);
        }
      } else if f.child0[xp] == x {
        f := f.(child0 := f.child0[xp := r]);
      } else {
        f := f.(child1 := f.child1[xp := r]);
      }
      if r != 0 {
        f := f.(parent := f.parent[r := xp]);
        var c0 := f.child0[x];
        if c0 != 0 {
          f := f.(child0 := f.child0[r := c0]);
          f := f.(parent := f.parent[c0 := r]);
        }
        var c1 := f.child1[x];
        if c1 != 0 {
          f := f.(child1 := f.child1[r := c1]);
          f := f.(parent := f.parent[c1 := r]);
        }
      }
    }

    /** Takes the chunk x out. */
    method UnlinkLargeChunk(x: int)
      requires Valid() && x in Items()
      modifies this
      ensures Valid() && Items() == old(Items()) - {x}
    {
      hide ComputeTreeIndex, State.Ok, Outcome, Left, CutOff, LeafBelow, Clear, Adopted, Relinked;
      ghost var s0 := S();
      FieldFacts(s0, x);
      NodeTest(s0, x);
      var xp := f.parent[x];
      var r := f.bk[x];
      if r != x {
        var n := f.fd[x];
        // the list is not corrupt
        assert f.bk[n] == x && f.fd[r] == x;
        f := f.(bk := f.bk[n := r]);
        f := f.(fd := f.fd[r := n]);
      } else {
        r := CutRightmost(x);
      }
      if xp != 0 {
        TailFacts(s0, S(), x, r);
        TakeOver(x, xp, r);
        m := Outcome(s0, x, r).m;
        assert S() == Outcome(s0, x, r);
      } else {
        LeftFields(s0, x);
        m := Left(s0, x).m;
        assert S() == Left(s0, x);
      }
    }

    // ---- lookup ------------------------------------------------------------

    /** The node for the size s, or null if there is none. */
    method FindNode(s: nat, head: Heads) returns (t: int)
      requires Valid() && Agree(head, Items()) && SizeOk(s)
      ensures t != 0 ==> t in m.lev && t in m.items && m.items[t] == s
      ensures t == 0 ==> forall y | y in m.items :: m.items[y] != s
    {
      hide ComputeTreeIndex, BitAt, RootLevel, LinksOk, Unique, Pow2, WalkKey, Vacant, OnPath, Marked;
      hide RingsOk, SparesOk, FieldsOk;
      var i := ComputeTreeIndex(s);
      EntryFacts(S(), s);
      if !Marked(treemap, i) {
        NoRootNoItem(S(), s);
        return 0;
      }
      t := roots[i];
      var k := Wrap(s * Pow2(LeftShiftForTreeIndex(i)));
      DescendStart(S().Trie(), s);
      ghost var e := m.lev[t];
      NodeReads(S(), t, head);
      while t != 0 && head[t].size != s
        invariant t != 0 ==> t in m.lev && e == m.lev[t] && t in head && t in m.items && head[t].size == m.items[t]
        invariant t != 0 ==> OnPath(S().Trie(), t, s) && k == WalkKey(s, e)
        invariant t == 0 ==> forall y | y in m.items :: m.items[y] != s
        decreases if t != 0 then e + 1 else 0
      {
        NodeReads(S(), t, head);
        DescendStep(S().Trie(), t, s);
        ghost var from := t;
        t := if k / 0x8000_0000 == 0 then f.child0[t] else f.child1[t];
        k := Wrap(2 * k);
        if t == 0 {
          VacantNoItem(S(), from, s);
        } else {
          NodeReads(S(), t, head);
          e := e - 1;
        }
      }
    }

    /** Looks for x in the bin for the size s. */
    method Find(x: int, s: nat, head: Heads) returns (found: bool)
      requires Valid() && Agree(head, Items()) && SizeOk(s)
      ensures found <==> x in Items() && Items()[x] == s
    {
      hide State.Ok;
      var t := FindNode(s, head);
      if t == 0 {
        return false;
      }
      NodeRing(S(), t, s, x);
      ghost var r := m.rings[t];
      var u := t;
      ghost var k := 0;
      while true
        invariant 0 <= k < |r| && u == r[k]
        invariant forall j | 0 <= j < k :: r[j] != x
        decreases |r| - k
      {
        if u == x {
          return true;
        }
        R.RingNext(f.fd, f.bk, r, k);
        u := f.fd[u];
        if u == t {
          return false;
        }
        k := k + 1;
      }
    }

    // ---- search ------------------------------------------------------------

    /**
     Walks the bin of nb along the bits of nb.  Returns the best chunk on the path,
     and the deepest right subtree that the path leaves aside; after an exact fit it
     stops where it is.
     */
    method WalkOwnBin(nb: nat, head: Heads) returns (t: int, v: int, rsize: nat)
      requires Valid() && Agree(head, Items()) && SizeOk(nb)
      requires ComputeTreeIndex(nb) < |roots| && roots[ComputeTreeIndex(nb)] != 0
      ensures Best(S().Trie(), nb, v, rsize) && rsize <= WORD - nb
      ensures v == 0 && t == 0 ==>
                NodesOk(S().Trie())
                && forall y | y in m.lev && S().Trie().Bin(y) == ComputeTreeIndex(nb) :: m.items[y] < nb
      ensures v != 0 || t != 0 ==> AllCovered(S().Trie(), t, nb, rsize)
    {
      hide ComputeTreeIndex, BitAt, Pow2, WalkKey, Prefix, LinksOk, Unique, Beaten, RightOf, Under;
      hide RingsOk, SparesOk, MapOk, FieldsOk, RootLevel, AllCovered;
      var i := ComputeTreeIndex(nb);
      ghost var tr := S().Trie();
      DescendStart(tr, nb);
      t := roots[i];
      var sizebits := Wrap(nb * Pow2(LeftShiftForTreeIndex(i)));
      var rst := 0;
      v, rsize := 0, Negate(nb);
      WalkStart(tr, nb, t);
      while true
        invariant t in m.lev && OnWay(tr, t, nb) && 1 <= m.lev[t] <= 32
        invariant sizebits == WalkKey(nb, m.lev[t])
        invariant WayCovers(tr, t, nb, rsize, rst)
        invariant Best(tr, nb, v, rsize) && 0 < rsize <= WORD - nb
        invariant v != 0 ==> v in tr.lev && tr.Bin(v) == i
        decreases m.lev[t]
      {
        NodeReads(S(), t, head);
        BetterOf(tr, nb, v, rsize, t);
        var trem := Wrap(head[t].size - nb);
        ghost var rsize0 := rsize;
        if trem < rsize {
          v := t;
          rsize := trem;
          if rsize == 0 {
            ExactFit(tr, nb, t);
            return;
          }
        }
        TighterCovers(tr, t, nb, rsize0, rsize, rst);
        NotExact(tr, nb, v, rsize, t);
        WayStep(tr, t, nb, rsize, rst);
        WalkKeyBit(nb, m.lev[t]);
        WalkKeyShift(nb, m.lev[t]);
        var rt := f.child1[t];
        t := if sizebits / 0x8000_0000 == 0 then f.child0[t] else f.child1[t];
        if rt != 0 && rt != t {
          rst := rt;
        }
        if t == 0 {
          t := rst;
          if t != 0 || v != 0 {
            OwnBinSuffices(tr, nb, v, rsize, rst);
          } else {
            NothingFits(tr, nb, rsize);
          }
          return;
        }
        sizebits := Wrap(2 * sizebits);
        LevelBounds(tr, t);
      }
    }

    /** Goes down the leftmost path from t, keeping the best chunk. */
    method DescendLeftmost(t0: int, nb: nat, v0: int, rsize0: nat, head: Heads) returns (v: int, rsize: nat)
      requires Valid() && Agree(head, Items()) && 0 < nb < WORD
      requires Best(S().Trie(), nb, v0, rsize0) && rsize0 <= WORD - nb
      requires NodesOk(S().Trie()) && AllCovered(S().Trie(), t0, nb, rsize0)
      ensures Best(S().Trie(), nb, v, rsize)
      ensures v == 0 ==> forall y | y in m.lev :: y in m.items && m.items[y] < nb
      ensures v != 0 ==> v in m.items
      ensures v != 0 ==> forall y | y in m.lev :: y in m.items && (m.items[y] >= nb ==> m.items[v] <= m.items[y])
    {
      hide ComputeTreeIndex, BitAt, Prefix, LinksOk, Unique, Beaten, Under, AllCovered;
      hide RingsOk, SparesOk, MapOk, FieldsOk, RootLevel;
      ghost var tr := S().Trie();
      var t := t0;
      v, rsize := v0, rsize0;
      CoveredNode(tr, t, nb, rsize);
      while t != 0
        invariant t != 0 ==> t in m.lev
        invariant AllCovered(tr, t, nb, rsize)
        invariant Best(tr, nb, v, rsize) && rsize <= WORD - nb
        decreases if t != 0 then m.lev[t] + 1 else 0
      {
        NodeReads(S(), t, head);
        BetterOf(tr, nb, v, rsize, t);
        var trem := Wrap(head[t].size - nb);
        ghost var before := rsize;
        if trem < rsize {
          rsize := trem;
          v := t;
        }
        TighterAll(tr, t, nb, before, rsize);
        DescentStep(tr, t, nb, rsize);
        t := if f.child0[t] != 0 then f.child0[t] else f.child1[t];
        CoveredNode(tr, t, nb, rsize);
      }
      DescentEnd(tr, nb, v, rsize);
    }

    /**
     The search of a large request: the least stored size that is at least nb, over
     all bins, or null if there is none.
     */
    method FindLarge(nb: nat, head: Heads) returns (v: int, rsize: nat)
      requires Valid() && Agree(head, Items()) && SizeOk(nb)
      ensures v == 0 ==> rsize == WORD - nb && forall y | y in Items() :: Items()[y] < nb
      ensures v != 0 ==> v in Items() && Items()[v] == nb + rsize && v in m.lev
      ensures v != 0 ==> forall y | y in Items() && Items()[y] >= nb :: Items()[v] <= Items()[y]
    {
      hide ComputeTreeIndex, State.Ok, Above, AllCovered, Marked;
      var idx := ComputeTreeIndex(nb);
      EntryFacts(S(), nb);
      OkNodes(S());
      var t := roots[idx];
      v, rsize := 0, Negate(nb);
      if t != 0 {
        t, v, rsize := WalkOwnBin(nb, head);
      } else {
        OkEmptyBin(S(), idx);
      }
      if t == 0 && v == 0 {
        var leftbits := Above(treemap, idx);
        LaterBins(S(), nb, rsize);
        if leftbits != 0 {
          var i := LeastMarked(leftbits);
          t := roots[i];
        }
      }
      v, rsize := DescendLeftmost(t, nb, v, rsize, head);
      ItemsByNodes(S(), nb, v);
    }

    /** The search of a small request: the least size stored at all. */
    method FindSmallest(nb: nat, head: Heads) returns (v: int, rsize: nat)
      requires Valid() && Agree(head, Items()) && treemap != 0 && 0 < nb < MIN_LARGE_SIZE
      ensures v in Items() && Items()[v] == nb + rsize && v in m.lev
      ensures forall y | y in Items() :: Items()[v] <= Items()[y]
    {
      hide ComputeTreeIndex, State.Ok, AllCovered, Marked;
      var i := LeastMarked(treemap);
      OkNodes(S());
      LeastBin(S(), nb, i);
      var t := roots[i];
      NodeReads(S(), t, head);
      v := t;
      rsize := Wrap(head[t].size - nb);
      RemainderTest(head[t].size, nb, WORD - nb);
      v, rsize := DescendLeftmost(t, nb, v, rsize, head);
      ItemsByNodes(S(), nb, v);
    }
  }

  // ---- insertion, on values ------------------------------------------------

  lemma EntryFacts(st: State, s: nat)
    requires st.Ok() && SizeOk(s)
    ensures ComputeTreeIndex(s) < NTREEBINS == |st.roots| == NBINS
    ensures Marked(st.treemap, ComputeTreeIndex(s)) <==> st.roots[ComputeTreeIndex(s)] != 0
  {
  }

  ghost function RootAdded(st: State, x: int, s: int): State
    requires SizeOk(s) && ComputeTreeIndex(s) < |st.roots| && ComputeTreeIndex(s) < NBINS
  {
    var i := ComputeTreeIndex(s);
    State(Mark(st.treemap, i), st.roots[i := x],
          Fields(st.f.child0[x := 0], st.f.child1[x := 0], st.f.parent[x := TreeHeader(i)],
                 st.f.fd[x := x], st.f.bk[x := x], st.f.index[x := i]),
          Meaning(st.m.items[x := s], st.m.lev[x := RootLevel(i)],
                  st.m.rings[x := [x]], st.m.home[x := x]))
  }

  lemma RootStep(st: State, x: int, s: int)
    requires st.Ok() && x > 0 && x !in st.m.items && SizeOk(s)
    requires ComputeTreeIndex(s) < |st.roots| && ComputeTreeIndex(s) < NBINS
    requires st.roots[ComputeTreeIndex(s)] == 0
    ensures RootAdded(st, x, s).Ok()
  {
    hide ComputeTreeIndex, RootLevel, Shape, Marked, Mark, RingsOk, FieldsOk, SparesOk;
    var i := ComputeTreeIndex(s);
    NotANode(st.m.items, st.m.lev, st.m.rings, st.m.home, st.f.fd, st.f.bk, x);
    AddRoot(st.Trie(), x, s);
    MarkOne(st.treemap, i);
    NodeFields(st.m.items, st.m.lev, st.f.child0, st.f.child1, st.f.parent, st.f.index, x, s, TreeHeader(i), RootLevel(i));
    NewRing(st.m.items, st.m.lev, st.m.rings, st.m.home, st.f.fd, st.f.bk, x, s, RootLevel(i));
    assert RootAdded(st, x, s).Trie() == WithRoot(st.Trie(), i, x, s);
  }

  ghost function LeafAdded(st: State, t: int, side: nat, x: int, s: int): State
    requires SizeOk(s) && t in st.m.lev && st.m.lev[t] >= 1
  {
    var c0, c1 := st.f.child0[x := 0], st.f.child1[x := 0];
    State(st.treemap, st.roots,
          Fields(if side == 0 then c0[t := x] else c0, if side == 0 then c1 else c1[t := x],
                 st.f.parent[x := t], st.f.fd[x := x], st.f.bk[x := x],
                 st.f.index[x := ComputeTreeIndex(s)]),
          Meaning(st.m.items[x := s], st.m.lev[x := st.m.lev[t] - 1],
                  st.m.rings[x := [x]], st.m.home[x := x]))
  }

  lemma LeafStep(st: State, t: int, x: int, s: int)
    requires st.Ok() && x > 0 && x !in st.m.items && SizeOk(s)
    requires t in st.m.lev && Vacant(st.Trie(), t, s)
    ensures st.m.lev[t] >= 4
    ensures LeafAdded(st, t, BitAt(s, st.m.lev[t] - 1), x, s).Ok()
  {
    hide ComputeTreeIndex, BitAt, Shape, MapOk, RingsOk, FieldsOk, SparesOk, Vacant;
    NotANode(st.m.items, st.m.lev, st.m.rings, st.m.home, st.f.fd, st.f.bk, x);
    AddLeaf(st.Trie(), t, x, s);
    var e, side := st.m.lev[t] - 1, BitAt(s, st.m.lev[t] - 1);
    NodeFields(st.m.items, st.m.lev, st.f.child0, st.f.child1, st.f.parent, st.f.index, x, s, t, e);
    FieldsUpdate(st.m.items[x := s], st.m.lev[x := e], st.f.child0[x := 0], st.f.child1[x := 0],
                 st.f.parent[x := t], st.f.index[x := ComputeTreeIndex(s)], t, side, x);
    NewRing(st.m.items, st.m.lev, st.m.rings, st.m.home, st.f.fd, st.f.bk, x, s, e);
    assert LeafAdded(st, t, side, x, s).Trie() == WithLeaf(st.Trie(), t, side, x, s);
  }

  ghost function Joined(st: State, t: int, x: int, s: int): State
    requires SizeOk(s) && t in st.f.fd && t in st.m.rings && |st.m.rings[t]| > 0
  {
    State(st.treemap, st.roots,
          Fields(st.f.child0[x := 0], st.f.child1[x := 0], st.f.parent[x := 0],
                 st.f.fd[t := x][x := st.f.fd[t]], st.f.bk[st.f.fd[t] := x][x := t],
                 st.f.index[x := ComputeTreeIndex(s)]),
          Meaning(st.m.items[x := s], st.m.lev,
                  st.m.rings[t := [t, x] + st.m.rings[t][1..]], st.m.home[x := t]))
  }

  lemma JoinStep(st: State, t: int, x: int, s: int)
    requires st.Ok() && x > 0 && x !in st.m.items && SizeOk(s)
    requires t in st.m.lev && t in st.m.items && st.m.items[t] == s
    ensures t in st.f.fd && t in st.m.rings && |st.m.rings[t]| > 0
    ensures Joined(st, t, x, s).Ok()
  {
    hide ComputeTreeIndex, Shape, MapOk, FieldsOk, SparesOk, RingsOk;
    NotANode(st.m.items, st.m.lev, st.m.rings, st.m.home, st.f.fd, st.f.bk, x);
    SizesDiffer(st.Trie());
    JoinRing(st.m.items, st.m.lev, st.m.rings, st.m.home, st.f.fd, st.f.bk, t, x);
    JoinShape(st.Trie(), x, s);
    SpareFields(st.m.items, st.m.lev, st.f.child0, st.f.child1, st.f.parent, st.f.index, x, s);
  }

  // ---- removal, on values --------------------------------------------------

  /** r hangs below x, on the given side of rp. */
  ghost predicate Below(t: Trie, x: int, rp: int, side: nat, r: int) {
    && NodesOk(t) && x in t.lev && rp in t.lev && r in t.lev && side < 2
    && t.Kid(rp, side) == r && Under(t, r, x) && t.lev[r] < t.lev[rp] <= t.lev[x]
  }

  /** r is a leaf strictly below x. */
  ghost predicate LeafBelow(t: Trie, x: int, r: int) {
    && NodesOk(t) && x in t.lev && r in t.lev && r != x
    && Under(t, r, x) && t.Kid(r, 0) == 0 && t.Kid(r, 1) == 0
  }

  /** The leaf that is reached from x by going right wherever possible. */
  ghost function Rightmost(t: Trie, x: int): int
    requires Shape(t) && x in t.lev
    decreases t.lev[x]
  {
    if t.Kid(x, 1) != 0 then
      KidUnder(t, x, 1);
      Rightmost(t, t.Kid(x, 1))
    else if t.Kid(x, 0) != 0 then
      KidUnder(t, x, 0);
      Rightmost(t, t.Kid(x, 0))
    else x
  }

  lemma RightmostIs(st: State, x: int)
    requires st.Ok() && x in st.m.lev
    ensures Shape(st.Trie()) && x in st.f.child0 && x in st.f.child1
    ensures var t, c0, c1 := st.Trie(), st.f.child0[x], st.f.child1[x];
            && (c1 != 0 ==> c1 in t.lev && Rightmost(t, x) == Rightmost(t, c1))
            && (c1 == 0 && c0 != 0 ==> c0 in t.lev && Rightmost(t, x) == Rightmost(t, c0))
            && (c1 == 0 && c0 == 0 ==> Rightmost(t, x) == x)
  {
    hide ComputeTreeIndex, LinksOk, Unique, Prefix, BitAt, RingsOk, SparesOk, MapOk, Under;
    var t := st.Trie();
    OkNode(st, x);
    if t.Kid(x, 1) != 0 {
      KidUnder(t, x, 1);
    }
    if t.Kid(x, 0) != 0 {
      KidUnder(t, x, 0);
    }
  }

  ghost function CutOff(st: State, r: int): State
    requires st.Trie().Node(r) && r in st.f.parent
  {
    var t := WithoutLeaf(st.Trie(), r);
    st.(roots := t.roots, f := st.f.(child0 := t.c0, child1 := t.c1))
  }

  /** What the code may read of a stored chunk. */
  lemma FieldFacts(st: State, x: int)
    requires st.Ok() && x in st.m.items
    ensures x > 0 && x in st.f.child0 && x in st.f.child1 && x in st.f.parent && x in st.f.index
    ensures x in st.f.fd && x in st.f.bk && st.f.fd[x] in st.f.bk && st.f.bk[x] in st.f.fd
    ensures st.f.bk[st.f.fd[x]] == x && st.f.fd[st.f.bk[x]] == x
    ensures st.f.index[x] == ComputeTreeIndex(st.m.items[x]) < |st.roots| == NBINS
  {
    hide ComputeTreeIndex, Shape, SparesOk, R.Ring;
    var h := st.m.home[x];
    RingNeighbours(st.f.fd, st.f.bk, st.m.rings[h], x);
    BinOfSize(st.m.items[x]);
  }

  lemma OkShape(st: State, x: int)
    requires st.Ok() && x in st.m.lev
    ensures Shape(st.Trie()) && x in st.m.items
  {
    hide Shape;
  }

  lemma KidBelow(st: State, x: int, p: int, side: nat)
    requires st.Ok() && x in st.m.lev && side < 2
    requires p == x || exists q, b :: Below(st.Trie(), x, q, b, p)
    requires st.Trie().Kid(p, side) != 0
    ensures var r := st.Trie().Kid(p, side);
            && Below(st.Trie(), x, p, side, r)
            && r in st.m.lev && r in st.m.items && r in st.f.child0 && r in st.f.child1
            && p in st.m.lev && st.m.lev[r] < st.m.lev[p]
  {
    hide ComputeTreeIndex, LinksOk, Unique, Prefix, BitAt, RingsOk, SparesOk, MapOk, FieldsOk;
    var t := st.Trie();
    KidUnder(t, p, side);
    UnderTrans(t, t.Kid(p, side), p, x);
  }

  /** Clearing the link that leads to the leaf r is cutting r off. */
  lemma CutResult(st: State, x: int, rp: int, side: nat, r: int)
    requires st.Ok() && Below(st.Trie(), x, rp, side, r)
    requires st.Trie().Kid(r, 0) == 0 && st.Trie().Kid(r, 1) == 0
    ensures LeafBelow(st.Trie(), x, r)
    ensures st.Trie().Node(r) && r in st.f.parent
    ensures rp in st.f.child0 && rp in st.f.child1
    ensures CutOff(st, r) ==
            st.(f := if side == 1 then st.f.(child1 := st.f.child1[rp := 0])
                     else st.f.(child0 := st.f.child0[rp := 0]))
  {
    hide ComputeTreeIndex, LinksOk, Unique, Prefix, BitAt, RingsOk, SparesOk, MapOk, FieldsOk;
    var t := st.Trie();
    KidUnder(t, rp, side);
    LinksAt(t, r);
    SidesDiffer(t, r);
  }

  // Four ways in which a chunk can leave.

  /** x is a spare chunk in the ring of a node. */
  ghost function Left(st: State, x: int): State
    requires x in st.f.fd && x in st.f.bk && x in st.m.home && st.m.home[x] in st.m.rings
  {
    var h := st.m.home[x];
    st.(f := st.f.(fd := R.RemoveFd(st.f.fd, st.f.bk, x), bk := R.RemoveBk(st.f.fd, st.f.bk, x)),
        m := Meaning(st.m.items - {x}, st.m.lev,
                     st.m.rings[h := R.Without(st.m.rings[h], x)], st.m.home - {x}))
  }

  /** x is a node; the chunk r before it in its ring takes its place. */
  ghost function Promoted(st: State, x: int): State
    requires x in st.f.fd && x in st.f.bk && x in st.m.rings && |st.m.rings[x]| > 1
    requires st.Trie().Node(x) && x in st.f.parent && x in st.f.child0 && x in st.f.child1
  {
    var r := st.f.bk[x];
    var t := Replaced(st.Trie(), x, r);
    var ring := st.m.rings[x][1..];
    State(st.treemap, t.roots,
          Fields(t.c0, t.c1, t.par, R.RemoveFd(st.f.fd, st.f.bk, x), R.RemoveBk(st.f.fd, st.f.bk, x),
                 st.f.index),
          Meaning(st.m.items - {x}, t.lev, (st.m.rings - {x})[r := R.Rotate(ring, |ring| - 1)],
                  Rehomed(st.m.home, x, r)))
  }

  /** x is a node without children and alone in its ring. */
  ghost function Gone(st: State, x: int): State
    requires st.Trie().Node(x) && x in st.f.parent && st.Trie().Bin(x) < NBINS
  {
    var t := WithoutLeaf(st.Trie(), x);
    var root := st.m.lev[x] == RootLevel(st.Trie().Bin(x));
    State(if root then Clear(st.treemap, st.Trie().Bin(x)) else st.treemap, t.roots,
          st.f.(child0 := t.c0, child1 := t.c1, parent := t.par),
          Meaning(st.m.items - {x}, t.lev, st.m.rings - {x}, st.m.home - {x}))
  }

  /** x is a node alone in its ring; the leaf r below it takes its place. */
  ghost function Substituted(st: State, x: int, r: int): State
    requires LeafBelow(st.Trie(), x, r)
  {
    var u := WithoutLeaf(st.Trie(), r);
    var t := if u.Node(x) && x in u.par && x in u.c0 && x in u.c1 then Replaced(u, x, r) else u;
    State(st.treemap, t.roots, st.f.(child0 := t.c0, child1 := t.c1, parent := t.par),
          Meaning(st.m.items - {x}, t.lev, st.m.rings - {x}, st.m.home - {x}))
  }

  ghost function Rehomed(home: Links, x: int, r: int): Links {
    map y | y in home && y != x :: if home[y] == x then r else home[y]
  }

  // The rings after each of the four.

  lemma RingsLeave(items: Items, lev: map<int, nat>, rings: map<int, seq<int>>, home: Links,
                   fd: Links, bk: Links, x: int)
    requires RingsOk(items, lev, rings, home, fd, bk) && x in items && x !in lev
    requires forall y, z | y in lev && z in lev && y != z :: items[y] != items[z]
    ensures x in fd && x in bk && x in home && home[x] in rings
    ensures RingsOk(items - {x}, lev, rings[home[x] := R.Without(rings[home[x]], x)], home - {x},
                    R.RemoveFd(fd, bk, x), R.RemoveBk(fd, bk, x))
  {
    hide R.Ring, R.Without;
    var h := home[x];
    var s := rings[h];
    RingNeighbours(fd, bk, s, x);
    SpareLeaves(fd, bk, s, x);
    var fd', bk' := R.RemoveFd(fd, bk, x), R.RemoveBk(fd, bk, x);
    forall y | y in lev && y != h
      ensures R.Ring(fd', bk', rings[y])
    {
      OtherRing(items, lev, rings, home, fd, bk, h, x, y, fd', bk');
    }
  }

  lemma SpareLeaves(fd: Links, bk: Links, s: seq<int>, x: int)
    requires R.Ring(fd, bk, s) && x in s && x != s[0]
    ensures x in fd && x in bk
    ensures R.Ring(R.RemoveFd(fd, bk, x), R.RemoveBk(fd, bk, x), R.Without(s, x))
    ensures R.Without(s, x)[0] == s[0]
    ensures forall y :: y in R.Without(s, x) <==> y in s && y != x
  {
    hide R.Linked, R.RemoveFd, R.RemoveBk;
    var k :| 0 <= k < |s| && s[k] == x;
    R.RingRemove(fd, bk, s, k);
    R.WithoutAt(s, k);
  }

  lemma FirstLeaves(fd: Links, bk: Links, s: seq<int>)
    requires R.Ring(fd, bk, s) && |s| > 1
    ensures s[0] in fd && s[0] in bk && bk[s[0]] == s[|s| - 1]
    ensures var r := R.Rotate(s[1..], |s| - 2);
            && R.Ring(R.RemoveFd(fd, bk, s[0]), R.RemoveBk(fd, bk, s[0]), r)
            && r[0] == s[|s| - 1]
            && forall y :: y in r <==> y in s && y != s[0]
  {
    hide R.Linked, R.RemoveFd, R.RemoveBk, R.Rotate;
    R.RingEnds(fd, bk, s);
    R.RingRemoveFirst(fd, bk, s);
    R.RingRotate(R.RemoveFd(fd, bk, s[0]), R.RemoveBk(fd, bk, s[0]), s[1..], |s| - 2);
    R.RotateMembers(s[1..], |s| - 2);
    assert s == [s[0]] + s[1..];
  }

  lemma RingsPromote(items: Items, lev: map<int, nat>, rings: map<int, seq<int>>, home: Links,
                     fd: Links, bk: Links, x: int, e: nat)
    requires RingsOk(items, lev, rings, home, fd, bk) && x in lev && |rings[x]| > 1
    requires forall y, z | y in lev && z in lev && y != z :: items[y] != items[z]
    ensures x in fd && x in bk && bk[x] in items && bk[x] !in lev && items[bk[x]] == items[x]
    ensures var r := bk[x];
            var ring := rings[x][1..];
            RingsOk(items - {x}, (lev - {x})[r := e], (rings - {x})[r := R.Rotate(ring, |ring| - 1)],
                    Rehomed(home, x, r), R.RemoveFd(fd, bk, x), R.RemoveBk(fd, bk, x))
  {
    hide R.Ring, R.Rotate;
    var s := rings[x];
    RingNeighbours(fd, bk, s, x);
    FirstLeaves(fd, bk, s);
    var r := bk[x];
    var fd', bk' := R.RemoveFd(fd, bk, x), R.RemoveBk(fd, bk, x);
    SpareNotNode(items, lev, rings, home, fd, bk, x, r);
    forall y | y in lev && y != x
      ensures R.Ring(fd', bk', rings[y])
    {
      OtherRing(items, lev, rings, home, fd, bk, x, x, y, fd', bk');
    }
    forall y | y in items - {x}
      ensures var h := Rehomed(home, x, r);
              var rings' := (rings - {x})[r := R.Rotate(s[1..], |s| - 2)];
              y in h && h[y] in rings' && y in rings'[h[y]]
    {
      assert y in rings[home[y]];
    }
    forall y, z | y in lev && y != x && z in rings[y]
      ensures z != x
    {
      RingsApart(items, lev, rings, home, fd, bk, x, y, z);
    }
  }

  lemma SpareNotNode(items: Items, lev: map<int, nat>, rings: map<int, seq<int>>, home: Links,
                     fd: Links, bk: Links, x: int, r: int)
    requires RingsOk(items, lev, rings, home, fd, bk) && x in lev && r in rings[x] && r != x
    requires forall y, z | y in lev && z in lev && y != z :: items[y] != items[z]
    ensures r !in lev
  {
  }

  lemma RingsGone(items: Items, lev: map<int, nat>, rings: map<int, seq<int>>, home: Links,
                  fd: Links, bk: Links, x: int, lev': map<int, nat>)
    requires RingsOk(items, lev, rings, home, fd, bk) && x in lev && |rings[x]| == 1
    requires forall y, z | y in lev && z in lev && y != z :: items[y] != items[z]
    requires lev'.Keys == lev.Keys - {x}
    ensures RingsOk(items - {x}, lev', rings - {x}, home - {x}, fd, bk)
  {
    hide R.Ring;
    forall y, z | y in lev && y != x && z in rings[y]
      ensures z != x
    {
      assert x in rings[x];
      RingsApart(items, lev, rings, home, fd, bk, x, y, z);
    }
    forall y | y in items - {x}
      ensures home[y] in lev'
    {
      assert y in rings[home[y]];
      assert rings[x] == [x];
    }
  }

  // The whole state after each of the four.

  lemma FieldsSubset(items: Items, lev: map<int, nat>, c0: Links, c1: Links, par: Links,
                     index: map<int, nat>, x: int)
    requires FieldsOk(items, c0, c1, par, index) && SparesOk(items, lev, c0, c1, par)
    ensures FieldsOk(items - {x}, c0, c1, par, index) && SparesOk(items - {x}, lev, c0, c1, par)
  {
  }

  lemma LeaveStep(st: State, x: int)
    requires st.Ok() && x in st.m.items && x !in st.m.lev
    ensures x in st.f.fd && x in st.f.bk && x in st.m.home && st.m.home[x] in st.m.rings
    ensures Left(st, x).Ok()
  {
    hide ComputeTreeIndex, Shape, MapOk, FieldsOk, SparesOk, RingsOk;
    NodesHaveItems(st);
    RingsLeave(st.m.items, st.m.lev, st.m.rings, st.m.home, st.f.fd, st.f.bk, x);
    FieldsSubset(st.m.items, st.m.lev, st.f.child0, st.f.child1, st.f.parent, st.f.index, x);
    ShapeFrame(st.Trie(), st.m.items - {x});
    assert Left(st, x).Trie() == st.Trie().(sz := st.m.items - {x});
  }

  lemma NodesHaveItems(st: State)
    requires st.Ok()
    ensures forall y | y in st.m.lev :: y in st.m.items
    ensures forall y, z | y in st.m.lev && z in st.m.lev && y != z :: st.m.items[y] != st.m.items[z]
  {
    hide ComputeTreeIndex, LinksOk, SamePlace, MapOk, FieldsOk, SparesOk, RootLevel, R.Ring;
  }

  lemma PromoteStep(st: State, x: int)
    requires st.Ok() && x in st.m.lev && x in st.f.bk && st.f.bk[x] != x
    ensures x in st.f.fd && x in st.m.rings && |st.m.rings[x]| > 1
    ensures st.Trie().Node(x) && x in st.f.parent && x in st.f.child0 && x in st.f.child1
    ensures Promoted(st, x).Ok()
  {
    hide ComputeTreeIndex, Shape, MapOk, FieldsOk, SparesOk, RingsOk, CanReplace, Replaced, R.Rotate;
    NodesHaveItems(st);
    OkNode(st, x);
    var t, r := st.Trie(), st.f.bk[x];
    RingsPromote(st.m.items, st.m.lev, st.m.rings, st.m.home, st.f.fd, st.f.bk, x, st.m.lev[x]);
    SpareFacts(st, r);
    SameSizeCanReplace(t, x, r);
    ReplaceNode(t, x, r);
    ReplacedFields(st, t, x, r);
    var u := Replaced(t, x, r);
    ShapeFrame(u, st.m.items - {x});
    assert Promoted(st, x).Trie() == u.(sz := st.m.items - {x});
  }

  lemma OkNode(st: State, x: int)
    requires st.Ok() && x in st.m.lev
    ensures Shape(st.Trie()) && st.Trie().Node(x) && x in st.m.items
    ensures x in st.f.parent && x in st.f.child0 && x in st.f.child1
    ensures x in st.m.rings && x in st.f.fd && x in st.f.bk
    ensures st.f.bk[x] != x ==> |st.m.rings[x]| > 1
    ensures st.f.bk[x] == x ==> |st.m.rings[x]| == 1
  {
    hide ComputeTreeIndex, LinksOk, Unique, MapOk, FieldsOk, SparesOk, R.Ring;
    RingKeys(st.f.fd, st.f.bk, st.m.rings[x]);
    RingNeighbours(st.f.fd, st.f.bk, st.m.rings[x], x);
  }

  lemma SameSizeCanReplace(t: Trie, x: int, r: int)
    requires Shape(t) && x in t.lev && r !in t.lev && r > 0 && r in t.sz && t.sz[r] == t.sz[x]
    ensures CanReplace(t, x, r)
  {
    hide ComputeTreeIndex, LinksOk, SamePlace, RootLevel;
  }

  lemma LeafCanReplace(t: Trie, x: int, r: int)
    requires Shape(t) && LeafBelow(t, x, r)
    ensures var u := WithoutLeaf(t, r);
            && Shape(u) && u.lev == t.lev - {r} && u.sz == t.sz && CanReplace(u, x, r)
            && |u.roots| == |t.roots| && (forall i | 0 <= i < |t.roots| :: u.roots[i] == t.roots[i])
  {
    hide ComputeTreeIndex, RootLevel, Prefix, LinksOk, SamePlace;
    RemoveLeaf(t, r);
    LinksAt(t, r);
    LinksAt(t, x);
  }

  ghost predicate SparesBut(items: Items, lev: map<int, nat>, r: int, c0: Links, c1: Links, par: Links) {
    forall x | x in items && x !in lev && x != r ::
      Get(c0, x) == 0 && Get(c1, x) == 0 && Get(par, x) == 0
  }

  lemma SpareFacts(st: State, r: int)
    requires st.Ok() && r in st.m.items
    ensures r > 0 && SparesBut(st.m.items, st.m.lev, r, st.f.child0, st.f.child1, st.f.parent)
  {
  }

  /** Replacing a node changes no field of a spare chunk and empties no bin. */
  lemma ReplacedFields(st: State, t: Trie, x: int, r: int)
    requires Shape(t) && CanReplace(t, x, r) && t.sz == st.m.items && r in st.m.items
    requires FieldsOk(st.m.items, t.c0, t.c1, t.par, st.f.index)
    requires SparesBut(st.m.items, t.lev, r, t.c0, t.c1, t.par)
    requires MapOk(st.treemap, t.roots)
    ensures var u := Replaced(t, x, r);
            && FieldsOk(st.m.items - {x}, u.c0, u.c1, u.par, st.f.index)
            && SparesOk(st.m.items - {x}, u.lev, u.c0, u.c1, u.par)
            && MapOk(st.treemap, u.roots)
  {
    hide ComputeTreeIndex, RootLevel, Prefix, LinksOk, SamePlace, Unique, BitAt, Marked;
    LinksAt(t, x);
  }

  lemma GoneStep(st: State, x: int)
    requires st.Ok() && x in st.m.lev && x in st.f.bk && st.f.bk[x] == x
    requires st.Trie().Kid(x, 0) == 0 && st.Trie().Kid(x, 1) == 0
    ensures st.Trie().Node(x) && x in st.f.parent && st.Trie().Bin(x) < NBINS
    ensures Gone(st, x).Ok()
  {
    hide ComputeTreeIndex, Shape, MapOk, FieldsOk, SparesOk, RingsOk, WithoutLeaf, Clear, RootLevel;
    NodesHaveItems(st);
    OkNode(st, x);
    var t := st.Trie();
    BinOfSize(st.m.items[x]);
    RemoveLeaf(t, x);
    var u := WithoutLeaf(t, x);
    RingsGone(st.m.items, st.m.lev, st.m.rings, st.m.home, st.f.fd, st.f.bk, x, u.lev);
    WithoutFields(st, x);
    ShapeFrame(u, st.m.items - {x});
    assert Gone(st, x).Trie() == u.(sz := st.m.items - {x});
  }

  lemma WithoutFields(st: State, x: int)
    requires st.Ok() && x in st.m.lev && st.Trie().Node(x) && x in st.f.parent
    requires st.Trie().Bin(x) < NBINS
    ensures var u := WithoutLeaf(st.Trie(), x);
            var root := st.m.lev[x] == RootLevel(st.Trie().Bin(x));
            && FieldsOk(st.m.items, u.c0, u.c1, u.par, st.f.index)
            && FieldsOk(st.m.items - {x}, u.c0, u.c1, u.par, st.f.index)
            && SparesOk(st.m.items - {x}, u.lev, u.c0, u.c1, u.par)
            && SparesBut(st.m.items, u.lev, x, u.c0, u.c1, u.par)
            && MapOk(if root then Clear(st.treemap, st.Trie().Bin(x)) else st.treemap, u.roots)
            && u.sz == st.m.items && u.par == st.f.parent
  {
    hide ComputeTreeIndex, RootLevel, Prefix, LinksOk, SamePlace, Unique, BitAt, Marked, Clear, RingsOk;
    LinksAt(st.Trie(), x);
    ClearOne(st.treemap, st.Trie().Bin(x));
  }

  lemma SubstituteStep(st: State, x: int, r: int)
    requires st.Ok() && x in st.m.lev && x in st.f.bk && st.f.bk[x] == x
    requires LeafBelow(st.Trie(), x, r)
    ensures Substituted(st, x, r).Ok()
  {
    hide ComputeTreeIndex, Shape, MapOk, FieldsOk, SparesOk, RingsOk, WithoutLeaf, Replaced, CanReplace;
    hide Clear, RootLevel, SparesBut, Prefix;
    NodesHaveItems(st);
    OkNode(st, x);
    OkNode(st, r);
    var t := st.Trie();
    LeafCanReplace(t, x, r);
    BinOfSize(st.m.items[r]);
    WithoutFields(st, r);
    var u := WithoutLeaf(t, r);
    assert MapOk(st.treemap, u.roots) by {
      assert u.roots == t.roots;
    }
    CanReplaceFacts(u, x, r);
    ReplacedFields(st, u, x, r);
    ReplaceNode(u, x, r);
    var v := Replaced(u, x, r);
    RingsGone(st.m.items, st.m.lev, st.m.rings, st.m.home, st.f.fd, st.f.bk, x, v.lev);
    ShapeFrame(v, st.m.items - {x});
    assert Substituted(st, x, r).Trie() == v.(sz := st.m.items - {x});
  }

  lemma CanReplaceFacts(t: Trie, x: int, r: int)
    requires Shape(t) && CanReplace(t, x, r)
    ensures t.Node(x) && x in t.par && x in t.c0 && x in t.c1
  {
    hide Unique, LinksOk, ComputeTreeIndex, RootLevel;
  }

  // The assignments of the removal and what they amount to.

  /** A stored chunk is a node exactly when its parent field is not null. */
  lemma NodeTest(st: State, x: int)
    requires st.Ok() && x in st.m.items
    ensures x in st.f.parent && x in st.f.bk
    ensures x in st.m.lev <==> st.f.parent[x] != 0
    ensures x !in st.m.lev ==> st.f.bk[x] != x && x in st.m.home && st.m.home[x] in st.m.rings
    ensures x !in st.m.lev ==> x in st.f.fd && Left(st, x).Ok()
  {
    hide ComputeTreeIndex, RootLevel, Unique, MapOk, Left, RingsOk, Prefix, BitAt;
    FieldFacts(st, x);
    if x in st.m.lev {
      LinksAt(st.Trie(), x);
    } else {
      LeaveStep(st, x);
      SpareRing(st.m.items, st.m.lev, st.m.rings, st.m.home, st.f.fd, st.f.bk, x);
    }
  }

  lemma SpareRing(items: Items, lev: map<int, nat>, rings: map<int, seq<int>>, home: Links,
                  fd: Links, bk: Links, x: int)
    requires RingsOk(items, lev, rings, home, fd, bk) && x in items && x !in lev
    ensures x in bk && bk[x] != x
  {
    hide R.Ring;
    var h := home[x];
    RingKeys(fd, bk, rings[h]);
    RingNeighbours(fd, bk, rings[h], x);
    assert rings[h][0] == h;
  }

  lemma LeftFields(st: State, x: int)
    requires x in st.f.fd && x in st.f.bk && x in st.m.home && st.m.home[x] in st.m.rings
    ensures Left(st, x).f == st.f.(bk := st.f.bk[st.f.fd[x] := st.f.bk[x]],
                                   fd := st.f.fd[st.f.bk[x] := st.f.fd[x]])
    ensures Left(st, x).treemap == st.treemap && Left(st, x).roots == st.roots
    ensures Left(st, x).m.items == st.m.items - {x}
  {
  }

  /** The parent of x, or the root pointer, now leads to r. */
  ghost function Relinked(f: Fields, root: bool, x: int, xp: int, r: int): Fields {
    if root then f
    else if Get(f.child0, xp) == x then f.(child0 := f.child0[xp := r])
    else f.(child1 := f.child1[xp := r])
  }

  /** r takes over the parent and the children of x. */
  ghost function Adopted(f: Fields, x: int, xp: int, r: int): Fields {
    if r == 0 then f
    else
      var c0, c1 := Get(f.child0, x), Get(f.child1, x);
      f.(child0 := if c0 != 0 then f.child0[r := c0] else f.child0,
         child1 := if c1 != 0 then f.child1[r := c1] else f.child1,
         parent := WithParent(WithParent(f.parent[r := xp], c0, r), c1, r))
  }

  /** What the node x leaves behind when r (possibly null) replaces it. */
  ghost function Outcome(st: State, x: int, r: int): State
    requires x in st.f.fd && x in st.f.bk && x in st.m.rings
    requires st.Trie().Node(x) && x in st.f.parent && x in st.f.child0 && x in st.f.child1
    requires st.f.bk[x] != x ==> |st.m.rings[x]| > 1
    requires st.f.bk[x] == x && r == 0 ==> st.Trie().Bin(x) < NBINS
    requires st.f.bk[x] == x && r != 0 ==> LeafBelow(st.Trie(), x, r)
  {
    if st.f.bk[x] != x then Promoted(st, x)
    else if r == 0 then Gone(st, x)
    else Substituted(st, x, r)
  }

  lemma RootTest(t: Trie, x: int)
    requires Shape(t) && x in t.lev && t.Bin(x) < NTREEBINS
    ensures t.roots[t.Bin(x)] == x <==> t.lev[x] == RootLevel(t.Bin(x))
    ensures t.roots[t.Bin(x)] != x ==> t.par[x] in t.lev && t.par[x] != x
  {
    hide ComputeTreeIndex, RootLevel, Unique, Prefix, BitAt;
    LinksAt(t, x);
    assert RootOk(t, t.Bin(x));
  }

  /** The assignments perform the replacement that the invariant lemma speaks about. */
  lemma ReplacedIs(t: Trie, f: Fields, x: int, r: int)
    requires Shape(t) && CanReplace(t, x, r) && t.Bin(x) < NTREEBINS
    requires f.child0 == t.c0 && f.child1 == t.c1 && f.parent == t.par
    requires r in t.c0 && r in t.c1 && t.c0[r] == 0 && t.c1[r] == 0
    ensures x in t.par && x in t.c0 && x in t.c1
    ensures var u := Replaced(t, x, r);
            var root := t.roots[t.Bin(x)] == x;
            var g := Adopted(Relinked(f, root, x, t.par[x], r), x, t.par[x], r);
            && u.c0 == g.child0 && u.c1 == g.child1 && u.par == g.parent
            && u.roots == (if root then t.roots[t.Bin(x) := r] else t.roots)
            && g.fd == f.fd && g.bk == f.bk && g.index == f.index
  {
    hide ComputeTreeIndex, RootLevel, Unique, Prefix, LinksOk;
    RootTest(t, x);
    var u := Replaced(t, x, r);
    var root := t.roots[t.Bin(x)] == x;
    var g := Adopted(Relinked(f, root, x, t.par[x], r), x, t.par[x], r);
    assert u.c0 == g.child0;
    assert u.c1 == g.child1;
  }

  /** State s1 is s0 with x out of its ring, or with its replacement r cut off. */
  ghost predicate Prepared(s0: State, s1: State, x: int, r: int)
    requires x in s0.f.fd && x in s0.f.bk
  {
    if s0.f.bk[x] != x then
      && r == s0.f.bk[x]
      && s1 == s0.(f := s0.f.(fd := R.RemoveFd(s0.f.fd, s0.f.bk, x),
                              bk := R.RemoveBk(s0.f.fd, s0.f.bk, x)))
    else if r == 0 then
      s1 == s0 && s0.Trie().Kid(x, 0) == 0 && s0.Trie().Kid(x, 1) == 0
    else
      LeafBelow(s0.Trie(), x, r) && r in s0.f.parent && s1 == CutOff(s0, r)
  }

  /** The outcome is what the assignments after the preparation produce. */
  ghost predicate TailMeets(s1: State, x: int, xp: int, r: int, h: nat, out: State)
    requires h < |s1.roots| && h < NBINS
  {
    var root := s1.roots[h] == x;
    && out.roots == (if root then s1.roots[h := r] else s1.roots)
    && out.treemap == (if root && r == 0 then Clear(s1.treemap, h) else s1.treemap)
    && out.f == Adopted(Relinked(s1.f, root, x, xp, r), x, xp, r)
    && (!root ==> xp in s1.f.child0 && xp in s1.f.child1 && xp != x)
  }

  lemma PromotedTail(s0: State, s1: State, x: int, r: int)
    requires s0.Ok() && x in s0.m.lev && x in s0.f.fd && x in s0.f.bk && s0.f.bk[x] != x
    requires Prepared(s0, s1, x, r)
    ensures x in s0.m.rings && |s0.m.rings[x]| > 1
    ensures s0.Trie().Node(x) && x in s0.f.parent && x in s0.f.child0 && x in s0.f.child1
    ensures var h := s0.Trie().Bin(x);
            h < |s1.roots| && h < NBINS && r > 0 && Promoted(s0, x).Ok()
            && TailMeets(s1, x, s0.f.parent[x], r, h, Promoted(s0, x))
  {
    hide ComputeTreeIndex, RootLevel, Shape, MapOk, FieldsOk, SparesOk, RingsOk, Replaced, CanReplace;
    hide R.Rotate, R.RemoveFd, R.RemoveBk, LeafBelow, CutOff, Clear, Relinked, Adopted;
    PromoteStep(s0, x);
    OkNode(s0, x);
    NodesHaveItems(s0);
    var t := s0.Trie();
    RingsPromote(s0.m.items, s0.m.lev, s0.m.rings, s0.m.home, s0.f.fd, s0.f.bk, x, s0.m.lev[x]);
    SpareLinks(s0, r);
    SameSizeCanReplace(t, x, r);
    FieldFacts(s0, x);
    ReplacedIs(t, s1.f, x, r);
    ParentFields(t, x);
  }

  lemma SpareLinks(st: State, r: int)
    requires st.Ok() && r in st.m.items && r !in st.m.lev
    ensures r > 0 && r in st.f.child0 && r in st.f.child1
    ensures st.f.child0[r] == 0 && st.f.child1[r] == 0
  {
  }

  lemma ParentFields(t: Trie, x: int)
    requires Shape(t) && x in t.lev && t.Bin(x) < NTREEBINS
    ensures t.roots[t.Bin(x)] != x ==> t.par[x] in t.c0 && t.par[x] in t.c1 && t.par[x] != x
  {
    hide ComputeTreeIndex, RootLevel, Unique, LinksOk;
    RootTest(t, x);
  }

  lemma GoneTail(s0: State, x: int)
    requires s0.Ok() && x in s0.m.lev && x in s0.f.bk && s0.f.bk[x] == x
    requires s0.Trie().Kid(x, 0) == 0 && s0.Trie().Kid(x, 1) == 0
    ensures s0.Trie().Node(x) && x in s0.f.parent
    ensures var h := s0.Trie().Bin(x);
            h < |s0.roots| && h < NBINS && Gone(s0, x).Ok()
            && TailMeets(s0, x, s0.f.parent[x], 0, h, Gone(s0, x))
  {
    hide ComputeTreeIndex, RootLevel, Shape, MapOk, FieldsOk, SparesOk, RingsOk, Clear;
    GoneStep(s0, x);
    OkNode(s0, x);
    FieldFacts(s0, x);
    RootTest(s0.Trie(), x);
    ParentFields(s0.Trie(), x);
  }

  lemma SubstitutedTail(s0: State, s1: State, x: int, r: int)
    requires s0.Ok() && x in s0.m.lev && x in s0.f.fd && x in s0.f.bk && s0.f.bk[x] == x && r != 0
    requires Prepared(s0, s1, x, r)
    ensures s0.Trie().Node(x) && x in s0.f.parent && LeafBelow(s0.Trie(), x, r)
    ensures var h := s0.Trie().Bin(x);
            h < |s1.roots| && h < NBINS && r > 0 && Substituted(s0, x, r).Ok()
            && TailMeets(s1, x, s0.f.parent[x], r, h, Substituted(s0, x, r))
  {
    hide ComputeTreeIndex, RootLevel, Shape, MapOk, FieldsOk, SparesOk, RingsOk, Replaced, CanReplace;
    hide Clear, Relinked, Adopted, WithoutLeaf, SparesBut, Prefix;
    SubstituteStep(s0, x, r);
    OkNode(s0, x);
    OkNode(s0, r);
    FieldFacts(s0, x);
    var t := s0.Trie();
    var u := WithoutLeaf(t, r);
    LeafCanReplace(t, x, r);
    CanReplaceFacts(u, x, r);
    BinOfSize(s0.m.items[r]);
    WithoutFields(s0, r);
    CutKids(t, r);
    ReplacedIs(u, s1.f, x, r);
    ParentFields(u, x);
    assert u.roots == t.roots;
  }

  lemma CutKids(t: Trie, r: int)
    requires Shape(t) && r in t.lev && r in t.par && t.Kid(r, 0) == 0 && t.Kid(r, 1) == 0
    ensures var u := WithoutLeaf(t, r);
            r in u.c0 && r in u.c1 && u.c0[r] == 0 && u.c1[r] == 0
  {
    hide ComputeTreeIndex, RootLevel, Unique, LinksOk;
  }

  lemma TailFacts(s0: State, s1: State, x: int, r: int)
    requires s0.Ok() && x in s0.m.lev && x in s0.m.items && x in s0.f.fd && x in s0.f.bk
    requires Prepared(s0, s1, x, r)
    ensures x in s0.m.rings && s0.Trie().Node(x) && r >= 0
    ensures x in s0.f.parent && x in s0.f.child0 && x in s0.f.child1 && x in s0.f.index
    ensures x in s1.f.child0 && x in s1.f.child1 && s1.f.index == s0.f.index
    ensures s0.f.bk[x] != x ==> |s0.m.rings[x]| > 1
    ensures s0.f.bk[x] == x && r == 0 ==> s0.Trie().Bin(x) < NBINS
    ensures s0.f.bk[x] == x && r != 0 ==> LeafBelow(s0.Trie(), x, r)
    ensures var h := s0.f.index[x];
            && h == s0.Trie().Bin(x) && h < |s1.roots| && h < NBINS
            && Outcome(s0, x, r).Ok() && Outcome(s0, x, r).m.items == s0.m.items - {x}
            && TailMeets(s1, x, s0.f.parent[x], r, h, Outcome(s0, x, r))
  {
    hide ComputeTreeIndex, RootLevel, Replaced, WithoutLeaf, TailMeets, State.Ok;
    OkNode(s0, x);
    FieldFacts(s0, x);
    if s0.f.bk[x] != x {
      PromotedTail(s0, s1, x, r);
    } else if r == 0 {
      GoneTail(s0, x);
    } else {
      SubstitutedTail(s0, s1, x, r);
      CutKeys(s0.Trie(), r, x);
    }
  }

  lemma CutKeys(t: Trie, r: int, x: int)
    requires t.Node(r) && r in t.par && x in t.c0 && x in t.c1
    ensures x in WithoutLeaf(t, r).c0 && x in WithoutLeaf(t, r).c1
  {
  }

  // ---- the walk ------------------------------------------------------------

  lemma BinOfSize(s: nat)
    requires SizeOk(s)
    ensures ComputeTreeIndex(s) < NTREEBINS
  {
  }

  /** The walk for size s has come to node t, and can still meet a node of that size. */
  ghost predicate OnPath(t: Trie, x: int, s: nat)
    requires NodesOk(t) && x in t.lev && SizeOk(s)
  {
    && t.Bin(x) == ComputeTreeIndex(s)
    && Prefix(s, t.lev[x]) == Prefix(t.sz[x], t.lev[x])
    && (forall y | y in t.lev && t.sz[y] == s :: t.lev[y] <= t.lev[x])
  }

  lemma DescendStart(t: Trie, s: nat)
    requires Shape(t) && SizeOk(s) && ComputeTreeIndex(s) < NTREEBINS && t.roots[ComputeTreeIndex(s)] != 0
    ensures var r := t.roots[ComputeTreeIndex(s)];
            && r in t.lev && OnPath(t, r, s) && 1 <= t.lev[r] <= 32
            && WalkKey(s, t.lev[r]) == Wrap(s * Pow2(LeftShiftForTreeIndex(ComputeTreeIndex(s))))
  {
    hide ComputeTreeIndex, Prefix, BitAt, RootLevel, Pow2, WalkKey, Wrap, LeftShiftForTreeIndex;
    var i := ComputeTreeIndex(s);
    assert RootOk(t, i);
    FirstWalkKey(s);
    SameBinPrefix(s, t.sz[t.roots[i]]);
  }

  lemma DescendStep(t: Trie, x: int, s: nat)
    requires Shape(t) && SizeOk(s) && x in t.lev && OnPath(t, x, s) && t.sz[x] != s
    ensures 1 <= t.lev[x] <= 32
    ensures WalkKey(s, t.lev[x]) / 0x8000_0000 == BitAt(s, t.lev[x] - 1)
    ensures Wrap(2 * WalkKey(s, t.lev[x])) == WalkKey(s, t.lev[x] - 1)
    ensures var c := t.Kid(x, BitAt(s, t.lev[x] - 1));
            if c == 0 then Vacant(t, x, s)
            else c in t.lev && t.lev[c] == t.lev[x] - 1 && OnPath(t, c, s)
  {
    hide ComputeTreeIndex, Prefix, BitAt, RootLevel, Pow2, WalkKey, Wrap, LinksOk;
    var e := t.lev[x];
    WalkKeyBit(s, e);
    WalkKeyShift(s, e);
    var b := BitAt(s, e - 1);
    var c := t.Kid(x, b);
    if c != 0 {
      KidUnder(t, x, b);
      PrefixStep(s, e - 1);
      PrefixStep(t.sz[c], e - 1);
      forall y | y in t.lev && t.sz[y] == s
        ensures t.lev[y] <= e - 1
      {
        assert !SamePlace(t, x, y);
      }
    }
  }

  // ---- the search ----------------------------------------------------------

  lemma NodeReads(st: State, x: int, head: Heads)
    requires st.Ok() && x in st.m.lev && Agree(head, st.m.items)
    ensures x in head && x in st.m.items && head[x].size == st.m.items[x] && st.Trie().Node(x)
    ensures x in st.f.child0 && x in st.f.child1
    ensures st.f.child0[x] == st.Trie().Kid(x, 0) && st.f.child1[x] == st.Trie().Kid(x, 1)
  {
    hide ComputeTreeIndex, LinksOk, Unique, RingsOk, SparesOk, MapOk, FieldsOk;
  }

  lemma LevelBounds(t: Trie, x: int)
    requires NodesOk(t) && x in t.lev
    ensures 1 <= t.lev[x] <= 32
  {
  }

  lemma WalkStart(t: Trie, nb: nat, r: int)
    requires Shape(t) && SizeOk(nb) && r in t.lev && OnPath(t, r, nb)
    requires ComputeTreeIndex(nb) < NTREEBINS && r == t.roots[ComputeTreeIndex(nb)]
    ensures OnWay(t, r, nb) && WayCovers(t, r, nb, WORD - nb, 0)
    ensures 1 <= t.lev[r] <= 32
  {
    hide ComputeTreeIndex, LinksOk, Unique, Prefix, RootLevel, Under, Beaten;
    forall y | y in t.lev && t.Bin(y) == ComputeTreeIndex(nb)
      ensures Under(t, y, r)
    {
      var q := RootOf(t, y);
    }
  }

  lemma ExactFit(t: Trie, nb: nat, x: int)
    requires NodesOk(t) && x in t.lev
    ensures AllCovered(t, x, nb, 0)
  {
  }

  lemma TighterCovers(t: Trie, x: int, nb: nat, rsize0: nat, rsize: nat, rst: int)
    requires NodesOk(t) && SizeOk(nb) && x in t.lev && rsize <= rsize0 && WayCovers(t, x, nb, rsize0, rst)
    ensures WayCovers(t, x, nb, rsize, rst)
  {
  }

  lemma NotExact(t: Trie, nb: nat, v: int, rsize: nat, x: int)
    requires t.Node(x) && nb < WORD && Best(t, nb, v, rsize) && rsize != 0
    requires t.sz[x] >= nb ==> rsize <= t.sz[x] - nb
    ensures t.sz[x] != nb
  {
  }

  lemma NothingFits(t: Trie, nb: nat, rsize: nat)
    requires NodesOk(t) && SizeOk(nb) && rsize == WORD - nb
    requires forall y | y in t.lev && t.Bin(y) == ComputeTreeIndex(nb) :: Beaten(t, y, nb, rsize, 0)
    ensures forall y | y in t.lev && t.Bin(y) == ComputeTreeIndex(nb) :: t.sz[y] < nb
  {
  }

  lemma CoveredNode(t: Trie, x: int, nb: nat, rsize: nat)
    requires NodesOk(t) && AllCovered(t, x, nb, rsize)
    ensures x != 0 ==> x in t.lev
  {
  }

  lemma TighterAll(t: Trie, x: int, nb: nat, rsize0: nat, rsize: nat)
    requires NodesOk(t) && rsize <= rsize0 && AllCovered(t, x, nb, rsize0)
    ensures AllCovered(t, x, nb, rsize)
  {
  }

  lemma OkNodes(st: State)
    requires st.Ok()
    ensures NodesOk(st.Trie()) && |st.roots| == NBINS == NTREEBINS
  {
  }

  lemma OkEmptyBin(st: State, i: nat)
    requires st.Ok() && i < NTREEBINS && i < |st.roots| && st.roots[i] == 0
    ensures NodesOk(st.Trie()) && forall y | y in st.m.lev :: st.Trie().Bin(y) != i
  {
    hide ComputeTreeIndex, LinksOk, Unique, RingsOk, SparesOk, FieldsOk, MapOk;
    EmptyBin(st.Trie(), i);
  }

  /** Where the search goes when the bin of the request has nothing to offer. */
  lemma LaterBins(st: State, nb: nat, rsize: nat)
    requires st.Ok() && SizeOk(nb) && NodesOk(st.Trie()) && rsize <= WORD - nb
    requires ComputeTreeIndex(nb) < NBINS
    requires forall y | y in st.m.lev && st.Trie().Bin(y) == ComputeTreeIndex(nb) :: st.m.items[y] < nb
    ensures var bits := Above(st.treemap, ComputeTreeIndex(nb));
            if bits == 0 then AllCovered(st.Trie(), 0, nb, rsize)
            else LeastMarked(bits) < |st.roots| && st.roots[LeastMarked(bits)] != 0
                 && AllCovered(st.Trie(), st.roots[LeastMarked(bits)], nb, rsize)
  {
    hide ComputeTreeIndex, LinksOk, Unique, RingsOk, SparesOk, FieldsOk, Above, Marked, LeastMarked, AllCovered;
    var idx := ComputeTreeIndex(nb);
    var bits := Above(st.treemap, idx);
    MarkedAbove(st.treemap, idx);
    if bits == 0 {
      ZeroMap(bits);
      NoLaterBin(st.Trie(), nb, rsize);
    } else {
      NextBin(st.Trie(), nb, LeastMarked(bits), rsize);
    }
  }

  /** For a request below all large sizes, the first bin with anything in it decides. */
  lemma LeastBin(st: State, nb: nat, i: nat)
    requires st.Ok() && NodesOk(st.Trie()) && 0 < nb < MIN_LARGE_SIZE
    requires i < NBINS && Marked(st.treemap, i) && forall j: nat | j < i :: !Marked(st.treemap, j)
    ensures i < |st.roots| && st.roots[i] in st.m.lev
    ensures forall rsize: nat :: AllCovered(st.Trie(), st.roots[i], nb, rsize)
  {
    hide ComputeTreeIndex, Unique, RingsOk, SparesOk, FieldsOk, Marked, Up, Down, Under;
    var t := st.Trie();
    assert RootOk(t, i);
    var r := t.roots[i];
    forall y | y in t.lev
      ensures Under(t, y, r) || t.sz[r] <= t.sz[y]
    {
      var q := RootOf(t, y);
      NullNotNode(t);
      BinsInOrder(t, r, t.sz[y]);
    }
  }

  /** A ring has one size, so what holds of the nodes holds of all chunks. */
  lemma ItemsByNodes(st: State, nb: nat, v: int)
    requires st.Ok()
    requires v == 0 ==> forall y | y in st.m.lev :: y in st.m.items && st.m.items[y] < nb
    requires v != 0 ==> v in st.m.items
    requires v != 0 ==> forall y | y in st.m.lev ::
               y in st.m.items && (st.m.items[y] >= nb ==> st.m.items[v] <= st.m.items[y])
    ensures v == 0 ==> forall y | y in st.m.items :: st.m.items[y] < nb
    ensures v != 0 ==> forall y | y in st.m.items && st.m.items[y] >= nb :: st.m.items[v] <= st.m.items[y]
    ensures forall y | y in st.m.items :: st.m.items[y] >= MIN_LARGE_SIZE
  {
    hide ComputeTreeIndex, Shape, SparesOk, MapOk, RingsOk;
    forall y | y in st.m.items
      ensures v == 0 ==> st.m.items[y] < nb
      ensures v != 0 && st.m.items[y] >= nb ==> st.m.items[v] <= st.m.items[y]
    {
      var h := HomeOf(st.m.items, st.m.lev, st.m.rings, st.m.home, st.f.fd, st.f.bk, y);
    }
  }

  lemma HomeOf(items: Items, lev: map<int, nat>, rings: map<int, seq<int>>, home: Links,
               fd: Links, bk: Links, y: int) returns (h: int)
    requires RingsOk(items, lev, rings, home, fd, bk) && y in items
    ensures h in lev && h in items && items[h] == items[y]
  {
    hide R.Ring;
    h := home[y];
    assert y in rings[h];
  }

  lemma NoRootNoItem(st: State, s: nat)
    requires st.Ok() && SizeOk(s) && ComputeTreeIndex(s) < |st.roots| && st.roots[ComputeTreeIndex(s)] == 0
    ensures forall y | y in st.m.items :: st.m.items[y] != s
  {
    hide ComputeTreeIndex, LinksOk, Unique, RingsOk, SparesOk, FieldsOk, MapOk, Under;
    forall y | y in st.m.items
      ensures st.m.items[y] != s
    {
      var h := HomeOf(st.m.items, st.m.lev, st.m.rings, st.m.home, st.f.fd, st.f.bk, y);
      var q := RootOf(st.Trie(), h);
      NullNotNode(st.Trie());
    }
  }

  lemma VacantNoItem(st: State, t: int, s: nat)
    requires st.Ok() && SizeOk(s) && Vacant(st.Trie(), t, s)
    ensures forall y | y in st.m.items :: st.m.items[y] != s
  {
    hide ComputeTreeIndex, LinksOk, Unique, RingsOk, SparesOk, FieldsOk, MapOk, Vacant, Prefix;
    forall y | y in st.m.items
      ensures st.m.items[y] != s
    {
      var h := HomeOf(st.m.items, st.m.lev, st.m.rings, st.m.home, st.f.fd, st.f.bk, y);
      VacantPlace(st.Trie(), t, s, h);
    }
  }

  /** The ring of a node holds just the chunks of its size. */
  lemma NodeRing(st: State, t: int, s: int, x: int)
    requires st.Ok() && t in st.m.lev && t in st.m.items && st.m.items[t] == s
    ensures t in st.m.rings && R.Ring(st.f.fd, st.f.bk, st.m.rings[t]) && st.m.rings[t][0] == t
    ensures x in st.m.rings[t] <==> x in st.m.items && st.m.items[x] == s
  {
    hide ComputeTreeIndex, LinksOk, SamePlace, SparesOk, FieldsOk, MapOk, R.Ring;
    if x in st.m.items && st.m.items[x] == s {
      var h := st.m.home[x];
      assert h in st.m.lev && x in st.m.rings[h] && st.m.items[h] == s;
      SizesDiffer(st.Trie());
    }
  }

  // ---- rings ---------------------------------------------------------------

  /** A new node comes with a ring of its own. */
  lemma NewRing(items: Items, lev: map<int, nat>, rings: map<int, seq<int>>, home: Links,
                fd: Links, bk: Links, x: int, s: int, e: nat)
    requires RingsOk(items, lev, rings, home, fd, bk) && x !in items
    ensures RingsOk(items[x := s], lev[x := e], rings[x := [x]], home[x := x], fd[x := x], bk[x := x])
  {
    hide R.Ring;
    R.RingSingle(fd, bk, x);
    forall y | y in lev
      ensures R.Ring(fd[x := x], bk[x := x], rings[y])
    {
      RingKeys(fd, bk, rings[y]);
      R.RingFrame(fd, bk, fd[x := x], bk[x := x], rings[y]);
    }
  }

  lemma RingMember(fd: Links, bk: Links, s: seq<int>, x: int)
    requires R.Ring(fd, bk, s) && x in s
    ensures x in fd && x in bk
  {
  }

  lemma RingNeighbours(fd: Links, bk: Links, s: seq<int>, x: int)
    requires R.Ring(fd, bk, s) && x in s
    ensures x in fd && x in bk && fd[x] in s && bk[x] in s
    ensures fd[x] in bk && bk[fd[x]] == x && bk[x] in fd && fd[bk[x]] == x
    ensures bk[x] == x <==> |s| == 1
  {
    var k :| 0 <= k < |s| && s[k] == x;
    assert fd[s[k]] == s[R.After(k, |s|)];
    var j := if k == 0 then |s| - 1 else k - 1;
    assert R.After(j, |s|) == k;
    RingMember(fd, bk, s, fd[x]);
    RingMember(fd, bk, s, bk[x]);
  }

  lemma RingKeys(fd: Links, bk: Links, s: seq<int>)
    requires R.Ring(fd, bk, s)
    ensures |s| > 0 && forall x | x in s :: x in fd && x in bk
  {
    hide R.Distinct;
  }

  lemma SizesDiffer(t: Trie)
    requires Shape(t)
    ensures forall y, z | y in t.lev && z in t.lev && y != z ::
              y in t.sz && z in t.sz && t.sz[y] != t.sz[z]
  {
    hide LinksOk, SamePlace, RootLevel, ComputeTreeIndex;
  }

  lemma NodeFields(items: Items, lev: map<int, nat>, c0: Links, c1: Links, par: Links,
                   index: map<int, nat>, x: int, s: int, p: int, e: nat)
    requires FieldsOk(items, c0, c1, par, index) && SparesOk(items, lev, c0, c1, par)
    requires x > 0 && x !in items && SizeOk(s)
    ensures FieldsOk(items[x := s], c0[x := 0], c1[x := 0], par[x := p],
                     index[x := ComputeTreeIndex(s)])
    ensures SparesOk(items[x := s], lev[x := e], c0[x := 0], c1[x := 0], par[x := p])
  {
  }

  lemma SpareFields(items: Items, lev: map<int, nat>, c0: Links, c1: Links, par: Links,
                    index: map<int, nat>, x: int, s: int)
    requires FieldsOk(items, c0, c1, par, index) && SparesOk(items, lev, c0, c1, par)
    requires x > 0 && x !in items && SizeOk(s)
    ensures FieldsOk(items[x := s], c0[x := 0], c1[x := 0], par[x := 0],
                     index[x := ComputeTreeIndex(s)])
    ensures SparesOk(items[x := s], lev, c0[x := 0], c1[x := 0], par[x := 0])
  {
  }

  lemma FieldsUpdate(items: Items, lev: map<int, nat>, c0: Links, c1: Links, par: Links,
                     index: map<int, nat>, t: int, side: nat, x: int)
    requires FieldsOk(items, c0, c1, par, index) && SparesOk(items, lev, c0, c1, par) && t in lev
    ensures var c0', c1' := if side == 0 then c0[t := x] else c0, if side == 0 then c1 else c1[t := x];
            FieldsOk(items, c0', c1', par, index) && SparesOk(items, lev, c0', c1', par)
  {
  }

  lemma NotANode(items: Items, lev: map<int, nat>, rings: map<int, seq<int>>, home: Links,
                 fd: Links, bk: Links, x: int)
    requires RingsOk(items, lev, rings, home, fd, bk) && x !in items
    ensures x !in lev
  {
  }

  ghost function Cleared(u: Trie, x: int): Trie {
    u.(c0 := u.c0[x := 0], c1 := u.c1[x := 0], par := u.par[x := 0])
  }

  lemma JoinUp(u: Trie, x: int, y: int)
    requires NodesOk(u) && NodesOk(Cleared(u, x)) && x !in u.lev && y in u.lev && Up(u, y)
    ensures Up(Cleared(u, x), y)
  {
    hide ComputeTreeIndex, Prefix, RootLevel, BitAt, NodesOk;
  }

  lemma JoinDown(u: Trie, x: int, y: int, b: nat)
    requires NodesOk(u) && NodesOk(Cleared(u, x)) && x !in u.lev && y in u.lev && Down(u, y, b)
    ensures Down(Cleared(u, x), y, b)
  {
    hide ComputeTreeIndex, Prefix, RootLevel, BitAt, NodesOk;
  }

  lemma JoinLinks(u: Trie, x: int)
    requires Shape(u) && NodesOk(Cleared(u, x)) && x !in u.lev
    ensures LinksOk(Cleared(u, x))
  {
    hide ComputeTreeIndex, Prefix, RootLevel, BitAt, NodesOk, Up, Down, Unique;
    var t' := Cleared(u, x);
    forall y | y in t'.lev
      ensures Up(t', y) && Down(t', y, 0) && Down(t', y, 1)
    {
      LinksAt(u, y);
      JoinUp(u, x, y);
      JoinDown(u, x, y, 0);
      JoinDown(u, x, y, 1);
    }
    forall j: nat | j < NTREEBINS
      ensures RootOk(t', j)
    {
      assert RootOk(u, j);
    }
  }

  /** Setting fields of a chunk that is not a node changes no trie. */
  lemma JoinShape(t: Trie, x: int, s: int)
    requires Shape(t) && x !in t.lev && x > 0
    ensures Shape(t.(sz := t.sz[x := s], c0 := t.c0[x := 0], c1 := t.c1[x := 0], par := t.par[x := 0]))
  {
    hide ComputeTreeIndex, Prefix, RootLevel, BitAt, Unique, LinksOk;
    ShapeFrame(t, t.sz[x := s]);
    var u := t.(sz := t.sz[x := s]);
    var t' := Cleared(u, x);
    assert NodesOk(t');
    SameUnique(u, t');
    JoinLinks(u, x);
  }

  lemma SameUnique(t: Trie, t': Trie)
    requires NodesOk(t) && NodesOk(t') && Unique(t) && t.sz == t'.sz && t.lev == t'.lev
    ensures Unique(t')
  {
    hide SamePlace;
    forall y, z | y in t'.lev && z in t'.lev && y != z
      ensures t'.sz[y] != t'.sz[z] && !SamePlace(t', y, z)
    {
      SamePlaceFrame(t, t', y, z);
    }
  }

  /** Rings of different nodes have no chunk in common. */
  lemma RingsApart(items: Items, lev: map<int, nat>, rings: map<int, seq<int>>, home: Links,
                   fd: Links, bk: Links, t: int, y: int, z: int)
    requires RingsOk(items, lev, rings, home, fd, bk) && t in lev && y in lev && items[t] != items[y]
    ensures z in rings[t] ==> z !in rings[y]
  {
    hide R.Ring;
    assert z in rings[t] ==> items[z] == items[t];
    assert z in rings[y] ==> items[z] == items[y];
  }

  lemma OtherRing(items: Items, lev: map<int, nat>, rings: map<int, seq<int>>, home: Links,
                  fd: Links, bk: Links, t: int, x: int, y: int, fd': Links, bk': Links)
    requires RingsOk(items, lev, rings, home, fd, bk) && t in lev && y in lev && items[t] != items[y]
    requires forall z | z in fd && z !in rings[t] && z != x :: z in fd' && fd'[z] == fd[z]
    requires forall z | z in bk && z !in rings[t] && z != x :: z in bk' && bk'[z] == bk[z]
    requires x !in items || x in rings[t]
    ensures R.Ring(fd', bk', rings[y])
  {
    hide R.Ring;
    RingKeys(fd, bk, rings[y]);
    forall z | z in rings[y]
      ensures z !in rings[t] && z != x
    {
      RingsApart(items, lev, rings, home, fd, bk, t, y, z);
    }
    R.RingFrame(fd, bk, fd', bk', rings[y]);
  }

  lemma SecondMembers(s: seq<int>, x: int)
    requires |s| > 0
    ensures forall y :: y in [s[0], x] + s[1..] <==> y == x || y in s
  {
  }

  /** A chunk of a size that is already there joins the ring of its node. */
  lemma JoinRing(items: Items, lev: map<int, nat>, rings: map<int, seq<int>>, home: Links,
                 fd: Links, bk: Links, t: int, x: int)
    requires RingsOk(items, lev, rings, home, fd, bk) && t in lev && x !in items
    requires forall y, z | y in lev && z in lev && y != z :: items[y] != items[z]
    ensures t in fd && t in rings && |rings[t]| > 0
    ensures RingsOk(items[x := items[t]], lev, rings[t := [t, x] + rings[t][1..]], home[x := t],
                    fd[t := x][x := fd[t]], bk[fd[t] := x][x := t])
  {
    hide R.Ring;
    RingKeys(fd, bk, rings[t]);
    RingNeighbours(fd, bk, rings[t], t);
    R.RingInsert(fd, bk, rings[t], x);
    SecondMembers(rings[t], x);
    var fd', bk' := R.InsertFd(fd, t, x), R.InsertBk(fd, bk, t, x);
    assert t in rings[t] && fd[t] in rings[t];
    forall y | y in lev && y != t
      ensures R.Ring(fd', bk', rings[y])
    {
      OtherRing(items, lev, rings, home, fd, bk, t, x, y, fd', bk');
    }
  }
}
