/**
 Bitwise tries of free chunks, one trie for each tree bin.

 A node at level e stands for the sizes that agree with its own size on all bits
 from bit e upwards: an aligned interval of 2^e sizes.  Its two children halve that
 interval by the next lower bit.  The size of the node itself may lie anywhere in
 its interval.  The level of a node is not stored in memory; it is how deep the node
 hangs, and it is what makes the ordering rule of the trie expressible without
 walking: node and interval determine each other.
 */
module Tries {

  import opened ChunkSizes

  type Links = map<int, int>

  function Get(m: Links, x: int): int {
    if x in m then m[x] else 0
  }

  /** Address of the root pointer of tree bin i, which is the parent of its root. */
  function TreeHeader(i: nat): int {
    -1 - i
  }

  /**
   The links of all tries, with the sizes of the chunks and the levels of the
   nodes.  Chunks of equal size share one node; the others hang off it in a ring
   and do not appear in lev.
   */
  datatype Trie = Trie(sz: map<int, int>, lev: map<int, nat>, roots: seq<int>,
                       c0: Links, c1: Links, par: Links)
  {
    function Kid(x: int, b: nat): int {
      if b == 0 then Get(c0, x) else Get(c1, x)
    }

    predicate Node(x: int) {
      x in lev && x in sz && x > 0 && SizeOk(sz[x])
    }

    function Bin(x: int): nat
      requires Node(x)
    {
      ComputeTreeIndex(sz[x])
    }
  }

  predicate SizeOk(s: int) {
    MIN_LARGE_SIZE <= s < WORD && s % 8 == 0
  }

  ghost predicate NodesOk(t: Trie) {
    && |t.roots| == NTREEBINS
    && (forall x | x in t.lev ::
          && t.Node(x)
          && 3 <= t.lev[x] <= RootLevel(t.Bin(x)) <= 32
          && x in t.c0 && x in t.c1 && x in t.par)
  }

  /** x and y stand for the same interval. */
  ghost predicate SamePlace(t: Trie, x: int, y: int)
    requires t.Node(x) && t.Node(y)
  {
    && t.Bin(x) == t.Bin(y)
    && t.lev[x] == t.lev[y]
    && Prefix(t.sz[x], t.lev[x]) == Prefix(t.sz[y], t.lev[x])
  }

  /** No two nodes have one size or one interval. */
  ghost predicate Unique(t: Trie)
    requires NodesOk(t)
  {
    forall x, y | x in t.lev && y in t.lev && x != y ::
      t.sz[x] != t.sz[y] && !SamePlace(t, x, y)
  }

  /** The interval of y lies inside that of x. */
  ghost predicate Under(t: Trie, y: int, x: int)
    requires t.Node(x) && t.Node(y)
  {
    && t.Bin(x) == t.Bin(y)
    && t.lev[y] <= t.lev[x]
    && Prefix(t.sz[y], t.lev[x]) == Prefix(t.sz[x], t.lev[x])
  }

  /** x hangs where it should: from the root pointer, or on the right side of its parent. */
  ghost predicate Up(t: Trie, x: int)
    requires NodesOk(t) && x in t.lev
  {
    if t.lev[x] == RootLevel(t.Bin(x)) then
      t.Bin(x) < NTREEBINS && t.roots[t.Bin(x)] == x && t.par[x] == TreeHeader(t.Bin(x))
    else
      var p := t.par[x];
      && p in t.lev
      && t.lev[p] == t.lev[x] + 1
      && Under(t, x, p)
      && t.Kid(p, BitAt(t.sz[x], t.lev[x])) == x
  }

  /** A child on side b of x is a node, knows its parent, and belongs on that side. */
  ghost predicate Down(t: Trie, x: int, b: nat)
    requires NodesOk(t) && x in t.lev
  {
    var c := t.Kid(x, b);
    c != 0 ==> c in t.lev && t.par[c] == x && BitAt(t.sz[c], t.lev[c]) == b
  }

  ghost predicate RootOk(t: Trie, i: nat)
    requires NodesOk(t) && i < NTREEBINS
  {
    var r := t.roots[i];
    r != 0 ==> r in t.lev && t.Bin(r) == i && t.lev[r] == RootLevel(i)
  }

  ghost predicate LinksOk(t: Trie)
    requires NodesOk(t)
  {
    && (forall x | x in t.lev :: Up(t, x) && Down(t, x, 0) && Down(t, x, 1))
    && (forall i: nat | i < NTREEBINS :: RootOk(t, i))
  }

  /** The ordering and linking invariant of all tries. */
  ghost predicate Shape(t: Trie) {
    NodesOk(t) && Unique(t) && LinksOk(t)
  }

  lemma LinksAt(t: Trie, x: int)
    requires Shape(t) && x in t.lev
    ensures Up(t, x) && Down(t, x, 0) && Down(t, x, 1)
  {
    hide Up, Down, RootOk, Unique, NodesOk;
  }

  // ---- walking -------------------------------------------------------------

  /** The ancestor of y at level e, if e is not above the root. */
  lemma {:induction false} Climb(t: Trie, y: int, e: nat) returns (a: int)
    requires Shape(t) && y in t.lev && t.lev[y] <= e <= RootLevel(t.Bin(y))
    ensures a in t.lev && t.lev[a] == e && t.Bin(a) == t.Bin(y)
    ensures Prefix(t.sz[a], e) == Prefix(t.sz[y], e)
    decreases e - t.lev[y]
  {
    hide ComputeTreeIndex, Prefix, BitAt, RootLevel;
    if t.lev[y] == e {
      a := y;
    } else {
      assert Up(t, y);
      var p := t.par[y];
      a := Climb(t, p, e);
      PrefixUp(t.sz[p], t.sz[y], t.lev[p], e);
    }
  }

  /** The one node one level up that a node can hang from. */
  lemma ParentIs(t: Trie, x: int, a: int)
    requires Shape(t) && x in t.lev && a in t.lev && t.Bin(a) == t.Bin(x)
    requires t.lev[a] + 1 == t.lev[x] && Prefix(t.sz[a], t.lev[x]) == Prefix(t.sz[x], t.lev[x])
    ensures t.par[a] == x && t.Kid(x, BitAt(t.sz[a], t.lev[a])) == a
  {
    hide ComputeTreeIndex, Prefix, RootLevel, BitAt;
    assert Up(t, a);
    var p := t.par[a];
    assert p == x || SamePlace(t, p, x);
  }

  /** Any other node inside the interval of x is inside that of one child of x. */
  lemma ChildContains(t: Trie, x: int, y: int)
    requires Shape(t) && x in t.lev && y in t.lev && x != y && Under(t, y, x)
    ensures t.lev[y] < t.lev[x]
    ensures var c := t.Kid(x, BitAt(t.sz[y], t.lev[x] - 1));
            c != 0 && c in t.lev && t.lev[c] == t.lev[x] - 1 && Under(t, y, c)
  {
    hide ComputeTreeIndex, Prefix, RootLevel, Up, Down, RootOk;
    assert !SamePlace(t, x, y);
    var a := Climb(t, y, t.lev[x] - 1);
    PrefixUp(t.sz[a], t.sz[y], t.lev[a], t.lev[x]);
    ParentIs(t, x, a);
  }

  /** A child's interval is inside its parent's. */
  lemma KidUnder(t: Trie, x: int, b: nat)
    requires Shape(t) && x in t.lev && b < 2 && t.Kid(x, b) != 0
    ensures var c := t.Kid(x, b);
            && c in t.lev && t.lev[c] + 1 == t.lev[x] && Under(t, c, x)
            && BitAt(t.sz[c], t.lev[c]) == b && t.par[c] == x
  {
    hide ComputeTreeIndex, Prefix, RootLevel, BitAt;
    assert Down(t, x, 0) && Down(t, x, 1);
    assert Up(t, t.Kid(x, b));
  }

  lemma UnderTrans(t: Trie, z: int, y: int, x: int)
    requires t.Node(x) && t.Node(y) && t.Node(z) && Under(t, z, y) && Under(t, y, x)
    ensures Under(t, z, x)
  {
    hide ComputeTreeIndex, Prefix;
    PrefixUp(t.sz[z], t.sz[y], t.lev[y], t.lev[x]);
  }

  /** Everything in the left half of an interval is smaller than everything in the right. */
  lemma LeftBelowRight(t: Trie, x: int, y: int, z: int)
    requires t.Node(x) && t.Node(y) && t.Node(z) && t.lev[x] >= 1
    requires Prefix(t.sz[y], t.lev[x]) == Prefix(t.sz[z], t.lev[x])
    requires BitAt(t.sz[y], t.lev[x] - 1) == 0 && BitAt(t.sz[z], t.lev[x] - 1) == 1
    ensures t.sz[y] < t.sz[z]
  {
    hide ComputeTreeIndex, Prefix, BitAt;
    PrefixStep(t.sz[y], t.lev[x] - 1);
    PrefixStep(t.sz[z], t.lev[x] - 1);
    PrefixOrder(t.sz[y], t.sz[z], t.lev[x] - 1);
  }

  // ---- hanging in a new node -----------------------------------------------

  /** t with x, of size s, hung below p on side b. */
  function WithLeaf(t: Trie, p: int, b: nat, x: int, s: int): Trie
    requires p in t.lev && t.lev[p] >= 1
  {
    t.(sz := t.sz[x := s], lev := t.lev[x := t.lev[p] - 1],
       c0 := if b == 0 then t.c0[x := 0][p := x] else t.c0[x := 0],
       c1 := if b == 0 then t.c1[x := 0] else t.c1[x := 0][p := x],
       par := t.par[x := p])
  }

  /** t with x, of size s, as the root of the empty bin i. */
  function WithRoot(t: Trie, i: nat, x: int, s: int): Trie
    requires i < |t.roots|
  {
    t.(sz := t.sz[x := s], lev := t.lev[x := RootLevel(i)], roots := t.roots[i := x],
       c0 := t.c0[x := 0], c1 := t.c1[x := 0], par := t.par[x := TreeHeader(i)])
  }

  /** Where the walk for size s ends: at p, whose child on the side of s is missing. */
  ghost predicate Vacant(t: Trie, p: int, s: int)
    requires NodesOk(t)
  {
    && SizeOk(s) && p in t.lev && t.Bin(p) == ComputeTreeIndex(s) && t.sz[p] != s
    && Prefix(s, t.lev[p]) == Prefix(t.sz[p], t.lev[p])
    && (forall y | y in t.lev && t.sz[y] == s :: t.lev[y] <= t.lev[p])
    && t.Kid(p, BitAt(s, t.lev[p] - 1)) == 0
  }

  /** Nothing else has the size or the place of a vacancy. */
  lemma VacantPlace(t: Trie, p: int, s: int, y: int)
    requires Shape(t) && Vacant(t, p, s) && y in t.lev
    ensures t.lev[p] >= 4 && t.sz[y] != s
    ensures !(t.Bin(y) == t.Bin(p) && t.lev[y] == t.lev[p] - 1
              && Prefix(t.sz[y], t.lev[y]) == Prefix(s, t.lev[y]))
  {
    hide ComputeTreeIndex, Prefix, RootLevel, Up, Down, RootOk, BitAt;
    var e := t.lev[p];
    PrefixDistinct(s, t.sz[p], e);
    if t.sz[y] == s {
      ChildContains(t, p, y);
    } else if t.Bin(y) == t.Bin(p) && t.lev[y] == e - 1 && Prefix(t.sz[y], e - 1) == Prefix(s, e - 1) {
      PrefixUp(t.sz[y], s, e - 1, e);
      ChildContains(t, p, y);
      BitOfPrefix(t.sz[y], s, e - 1);
    }
  }

  lemma BitOfPrefix(s: nat, u: nat, e: nat)
    requires Prefix(s, e) == Prefix(u, e)
    ensures BitAt(s, e) == BitAt(u, e)
  {
  }

  lemma LeafNodes(t: Trie, p: int, x: int, s: int)
    requires Shape(t) && Vacant(t, p, s) && x > 0 && x !in t.lev
    ensures t.lev[p] >= 4
    ensures var t' := WithLeaf(t, p, BitAt(s, t.lev[p] - 1), x, s);
            NodesOk(t') && Unique(t')
  {
    hide ComputeTreeIndex, Prefix, RootLevel, Up, Down, RootOk, BitAt;
    VacantPlace(t, p, s, p);
    var t' := WithLeaf(t, p, BitAt(s, t.lev[p] - 1), x, s);
    assert NodesOk(t');
    forall y, z | y in t'.lev && z in t'.lev && y != z
      ensures t'.sz[y] != t'.sz[z] && !SamePlace(t', y, z)
    {
      if y == x {
        VacantPlace(t, p, s, z);
      } else if z == x {
        VacantPlace(t, p, s, y);
      } else {
        assert t.sz[y] != t.sz[z] && !SamePlace(t, y, z);
      }
    }
  }

  lemma LeafLinks(t: Trie, p: int, x: int, s: int, y: int)
    requires Shape(t) && Vacant(t, p, s) && x > 0 && x !in t.lev && t.lev[p] >= 4
    requires var t' := WithLeaf(t, p, BitAt(s, t.lev[p] - 1), x, s);
             NodesOk(t') && y in t'.lev
    ensures var t' := WithLeaf(t, p, BitAt(s, t.lev[p] - 1), x, s);
            Up(t', y) && Down(t', y, 0) && Down(t', y, 1)
  {
    hide ComputeTreeIndex, Prefix, RootLevel, BitAt, LinksOk, Unique;
    if y != x {
      LinksAt(t, y);
    }
  }

  /** Hanging a new size in where its walk ends keeps the invariant. */
  lemma AddLeaf(t: Trie, p: int, x: int, s: int)
    requires Shape(t) && Vacant(t, p, s) && x > 0 && x !in t.lev
    ensures t.lev[p] >= 4
    ensures Shape(WithLeaf(t, p, BitAt(s, t.lev[p] - 1), x, s))
  {
    hide ComputeTreeIndex, Prefix, RootLevel, Up, Down, BitAt, Unique;
    LeafNodes(t, p, x, s);
    var t' := WithLeaf(t, p, BitAt(s, t.lev[p] - 1), x, s);
    forall y | y in t'.lev
      ensures Up(t', y) && Down(t', y, 0) && Down(t', y, 1)
    {
      LeafLinks(t, p, x, s, y);
    }
    forall i: nat | i < NTREEBINS
      ensures RootOk(t', i)
    {
      assert RootOk(t, i);
    }
  }

  /** Every node hangs, directly or not, from the root of its bin. */
  lemma RootOf(t: Trie, y: int) returns (r: int)
    requires Shape(t) && y in t.lev
    ensures t.Bin(y) < NTREEBINS && r == t.roots[t.Bin(y)] && r in t.lev
    ensures t.lev[r] == RootLevel(t.Bin(y)) && Under(t, y, r)
  {
    hide ComputeTreeIndex, Prefix, RootLevel, BitAt;
    r := Climb(t, y, RootLevel(t.Bin(y)));
    assert Up(t, r);
  }

  /** A bin without a root has no nodes at all. */
  lemma EmptyBin(t: Trie, i: nat)
    requires Shape(t) && i < NTREEBINS && t.roots[i] == 0
    ensures forall y | y in t.lev :: t.Bin(y) != i
  {
    hide ComputeTreeIndex, RootLevel, Unique, LinksOk, Under;
    forall y | y in t.lev
      ensures t.Bin(y) != i
    {
      var r := RootOf(t, y);
    }
  }

  lemma RootNodes(t: Trie, x: int, s: int)
    requires Shape(t) && SizeOk(s) && x > 0 && x !in t.lev
    requires ComputeTreeIndex(s) < |t.roots| && t.roots[ComputeTreeIndex(s)] == 0
    ensures var t' := WithRoot(t, ComputeTreeIndex(s), x, s);
            NodesOk(t') && Unique(t')
  {
    hide ComputeTreeIndex, Prefix, RootLevel, BitAt, LinksOk;
    var i := ComputeTreeIndex(s);
    FirstWalkKey(s);
    var t' := WithRoot(t, i, x, s);
    EmptyBin(t, i);
    forall y, z | y in t'.lev && z in t'.lev && y != z
      ensures t'.sz[y] != t'.sz[z] && !SamePlace(t', y, z)
    {
      if y != x && z != x {
        assert t.sz[y] != t.sz[z] && !SamePlace(t, y, z);
      }
    }
  }

  lemma RootLinks(t: Trie, x: int, s: int, y: int)
    requires Shape(t) && SizeOk(s) && x > 0 && x !in t.lev
    requires ComputeTreeIndex(s) < |t.roots| && t.roots[ComputeTreeIndex(s)] == 0
    requires var t' := WithRoot(t, ComputeTreeIndex(s), x, s);
             NodesOk(t') && y in t'.lev
    ensures var t' := WithRoot(t, ComputeTreeIndex(s), x, s);
            Up(t', y) && Down(t', y, 0) && Down(t', y, 1)
  {
    hide ComputeTreeIndex, Prefix, RootLevel, BitAt, LinksOk, Unique;
    if y != x {
      EmptyBin(t, ComputeTreeIndex(s));
      LinksAt(t, y);
    }
  }

  /** A new size in an empty bin becomes its root. */
  lemma AddRoot(t: Trie, x: int, s: int)
    requires Shape(t) && SizeOk(s) && x > 0 && x !in t.lev
    requires ComputeTreeIndex(s) < |t.roots| && t.roots[ComputeTreeIndex(s)] == 0
    ensures Shape(WithRoot(t, ComputeTreeIndex(s), x, s))
  {
    hide ComputeTreeIndex, Prefix, RootLevel, BitAt, Unique, Up, Down;
    var t' := WithRoot(t, ComputeTreeIndex(s), x, s);
    RootNodes(t, x, s);
    forall y | y in t'.lev
      ensures Up(t', y) && Down(t', y, 0) && Down(t', y, 1)
    {
      RootLinks(t, x, s, y);
    }
    forall j: nat | j < NTREEBINS
      ensures RootOk(t', j)
    {
      assert RootOk(t, j);
    }
  }

  // ---- taking a node out ---------------------------------------------------

  /** t after the leaf r has been cut off from what it hangs on. */
  function WithoutLeaf(t: Trie, r: int): Trie
    requires t.Node(r) && r in t.par
  {
    if t.lev[r] == RootLevel(t.Bin(r)) then
      if t.Bin(r) < |t.roots| then t.(lev := t.lev - {r}, roots := t.roots[t.Bin(r) := 0]) else t
    else
      var p := t.par[r];
      if t.Kid(p, 0) == r then t.(lev := t.lev - {r}, c0 := t.c0[p := 0])
      else t.(lev := t.lev - {r}, c1 := t.c1[p := 0])
  }

  lemma CutLinks(t: Trie, r: int, y: int)
    requires Shape(t) && r in t.lev && t.Kid(r, 0) == 0 && t.Kid(r, 1) == 0
    requires NodesOk(WithoutLeaf(t, r)) && y in WithoutLeaf(t, r).lev && y != r && y in t.lev
    ensures var t' := WithoutLeaf(t, r);
            Up(t', y) && Down(t', y, 0) && Down(t', y, 1)
  {
    hide ComputeTreeIndex, Prefix, RootLevel, BitAt, LinksOk, Unique;
    LinksAt(t, r);
    LinksAt(t, y);
  }

  lemma CutNodes(t: Trie, r: int)
    requires Shape(t) && r in t.lev && t.Kid(r, 0) == 0 && t.Kid(r, 1) == 0
    ensures var t' := WithoutLeaf(t, r);
            NodesOk(t') && Unique(t') && t'.lev == t.lev - {r}
  {
    hide ComputeTreeIndex, Prefix, RootLevel, BitAt, LinksOk, SamePlace;
    LinksAt(t, r);
    var t' := WithoutLeaf(t, r);
    forall y, z | y in t'.lev && z in t'.lev && y != z
      ensures t'.sz[y] != t'.sz[z] && !SamePlace(t', y, z)
    {
      SamePlaceFrame(t, t', y, z);
    }
  }

  lemma SamePlaceFrame(t: Trie, t': Trie, x: int, y: int)
    requires t.Node(x) && t.Node(y) && t'.Node(x) && t'.Node(y)
    requires t.sz[x] == t'.sz[x] && t.sz[y] == t'.sz[y] && t.lev[x] == t'.lev[x] && t.lev[y] == t'.lev[y]
    ensures SamePlace(t, x, y) == SamePlace(t', x, y)
  {
  }

  lemma CutRoots(t: Trie, r: int, j: nat)
    requires Shape(t) && r in t.lev && t.Kid(r, 0) == 0 && t.Kid(r, 1) == 0
    requires j < NTREEBINS && NodesOk(WithoutLeaf(t, r))
    ensures RootOk(WithoutLeaf(t, r), j)
  {
    hide ComputeTreeIndex, Prefix, RootLevel, BitAt, Unique, Down;
    LinksAt(t, r);
    assert RootOk(t, j);
  }

  /** Cutting off a leaf keeps the invariant for the remaining nodes. */
  lemma RemoveLeaf(t: Trie, r: int)
    requires Shape(t) && r in t.lev && t.Kid(r, 0) == 0 && t.Kid(r, 1) == 0
    ensures Shape(WithoutLeaf(t, r)) && WithoutLeaf(t, r).lev == t.lev - {r}
  {
    hide Unique, WithoutLeaf, Up, Down, RootOk;
    var t' := WithoutLeaf(t, r);
    CutNodes(t, r);
    forall y | y in t'.lev
      ensures Up(t', y) && Down(t', y, 0) && Down(t', y, 1)
    {
      CutLinks(t, r, y);
    }
    forall j: nat | j < NTREEBINS
      ensures RootOk(t', j)
    {
      CutRoots(t, r, j);
    }
  }

  // ---- putting one node in the place of another ----------------------------

  function WithParent(par: Links, c: int, r: int): Links {
    if c != 0 then par[c := r] else par
  }

  /** t with r, which is not a node, taking over the links of the node x. */
  function Replaced(t: Trie, x: int, r: int): Trie
    requires t.Node(x) && x in t.par && x in t.c0 && x in t.c1
  {
    var p := t.par[x];
    var root := t.lev[x] == RootLevel(t.Bin(x)) && t.Bin(x) < |t.roots|;
    t.(lev := (t.lev - {x})[r := t.lev[x]],
       roots := if root then t.roots[t.Bin(x) := r] else t.roots,
       c0 := (if !root && t.Kid(p, 0) == x then t.c0[p := r] else t.c0)[r := t.c0[x]],
       c1 := (if !root && t.Kid(p, 0) != x then t.c1[p := r] else t.c1)[r := t.c1[x]],
       par := WithParent(WithParent(t.par[r := p], t.c0[x], r), t.c1[x], r))
  }

  /** r may take the place of x: it is not a node, and its size lies in x's interval. */
  ghost predicate CanReplace(t: Trie, x: int, r: int)
    requires NodesOk(t)
  {
    && x in t.lev && r !in t.lev && r > 0 && r in t.sz && SizeOk(t.sz[r])
    && ComputeTreeIndex(t.sz[r]) == t.Bin(x)
    && Prefix(t.sz[r], t.lev[x]) == Prefix(t.sz[x], t.lev[x])
    && (forall y | y in t.lev && y != x :: t.sz[y] != t.sz[r])
  }

  lemma ReplaceNodes(t: Trie, x: int, r: int)
    requires Shape(t) && CanReplace(t, x, r)
    ensures NodesOk(Replaced(t, x, r)) && Unique(Replaced(t, x, r))
  {
    hide ComputeTreeIndex, Prefix, RootLevel, BitAt, LinksOk;
    var t' := Replaced(t, x, r);
    assert NodesOk(t') by {
      forall y | y in t'.lev
        ensures t'.Node(y) && 3 <= t'.lev[y] <= RootLevel(t'.Bin(y)) <= 32
        ensures y in t'.c0 && y in t'.c1 && y in t'.par
      {
        assert y != r ==> y in t.lev;
      }
    }
    forall y, z | y in t'.lev && z in t'.lev && y != z
      ensures t'.sz[y] != t'.sz[z] && !SamePlace(t', y, z)
    {
      var y0, z0 := if y == r then x else y, if z == r then x else z;
      assert t.sz[y0] != t.sz[z0] && !SamePlace(t, y0, z0);
    }
  }

  lemma ReplaceSelf(t: Trie, x: int, r: int)
    requires Shape(t) && CanReplace(t, x, r) && NodesOk(Replaced(t, x, r))
    ensures var t' := Replaced(t, x, r);
            r in t'.lev && Up(t', r) && Down(t', r, 0) && Down(t', r, 1)
  {
    hide ComputeTreeIndex, Prefix, RootLevel, BitAt, LinksOk, Unique;
    LinksAt(t, x);
    BitOfPrefix(t.sz[r], t.sz[x], t.lev[x]);
    if t.lev[x] != RootLevel(t.Bin(x)) {
      PrefixUp(t.sz[r], t.sz[x], t.lev[x], t.lev[x] + 1);
      SidesDiffer(t, x);
    }
  }

  /** The two children of a node are different. */
  lemma SidesDiffer(t: Trie, x: int)
    requires Shape(t) && x in t.lev && t.lev[x] != RootLevel(t.Bin(x))
    ensures var p := t.par[x];
            p in t.lev && (t.Kid(p, 0) == x <==> BitAt(t.sz[x], t.lev[x]) == 0)
    ensures t.par[x] != x
  {
    hide ComputeTreeIndex, Prefix, RootLevel, BitAt, LinksOk, Unique;
    LinksAt(t, x);
    LinksAt(t, t.par[x]);
  }

  lemma ReplaceUp(t: Trie, x: int, r: int, y: int)
    requires Shape(t) && CanReplace(t, x, r) && NodesOk(Replaced(t, x, r))
    requires y in t.lev && y != x && y != r
    ensures y in Replaced(t, x, r).lev && Up(Replaced(t, x, r), y)
  {
    hide ComputeTreeIndex, Prefix, RootLevel, BitAt, LinksOk, Unique;
    LinksAt(t, x);
    LinksAt(t, y);
    if t.lev[y] != RootLevel(t.Bin(y)) {
      SidesDiffer(t, y);
    }
    if t.lev[x] != RootLevel(t.Bin(x)) {
      SidesDiffer(t, x);
    }
  }

  lemma ReplaceDown(t: Trie, x: int, r: int, y: int, b: nat)
    requires Shape(t) && CanReplace(t, x, r) && NodesOk(Replaced(t, x, r))
    requires y in t.lev && y != x && y != r && b < 2
    ensures y in Replaced(t, x, r).lev && Down(Replaced(t, x, r), y, b)
  {
    hide ComputeTreeIndex, Prefix, RootLevel, BitAt, LinksOk, Unique;
    BitOfPrefix(t.sz[r], t.sz[x], t.lev[x]);
    LinksAt(t, x);
    LinksAt(t, y);
    if t.lev[x] != RootLevel(t.Bin(x)) {
      SidesDiffer(t, x);
    }
  }

  /** Putting a size of the same interval in the place of a node keeps the invariant. */
  lemma ReplaceNode(t: Trie, x: int, r: int)
    requires Shape(t) && CanReplace(t, x, r)
    ensures Shape(Replaced(t, x, r)) && Replaced(t, x, r).lev == (t.lev - {x})[r := t.lev[x]]
    ensures Replaced(t, x, r).sz == t.sz
  {
    hide ComputeTreeIndex, Prefix, RootLevel, BitAt, Unique, Down;
    var t' := Replaced(t, x, r);
    ReplaceNodes(t, x, r);
    forall y | y in t'.lev
      ensures Up(t', y) && Down(t', y, 0) && Down(t', y, 1)
    {
      if y == r {
        ReplaceSelf(t, x, r);
      } else {
        ReplaceUp(t, x, r, y);
        ReplaceDown(t, x, r, y, 0);
        ReplaceDown(t, x, r, y, 1);
      }
    }
    forall j: nat | j < NTREEBINS
      ensures RootOk(t', j)
    {
      assert RootOk(t, j);
      assert Up(t, x);
    }
  }

  // ---- sizes of chunks that are not nodes do not matter --------------------

  lemma ShapeFrame(t: Trie, sz: map<int, int>)
    requires Shape(t)
    requires forall x | x in t.lev :: x in sz && sz[x] == t.sz[x]
    ensures Shape(t.(sz := sz))
  {
    hide ComputeTreeIndex, Prefix, RootLevel, BitAt, LinksOk, SamePlace;
    var t' := t.(sz := sz);
    forall y, z | y in t'.lev && z in t'.lev && y != z
      ensures t'.sz[y] != t'.sz[z] && !SamePlace(t', y, z)
    {
      SamePlaceFrame(t, t', y, z);
    }
    LinksFrame(t, sz);
  }

  lemma LinksFrame(t: Trie, sz: map<int, int>)
    requires Shape(t)
    requires forall x | x in t.lev :: x in sz && sz[x] == t.sz[x]
    requires NodesOk(t.(sz := sz))
    ensures LinksOk(t.(sz := sz))
  {
    hide ComputeTreeIndex, Prefix, RootLevel, BitAt, Unique;
    var t' := t.(sz := sz);
    forall y | y in t'.lev
      ensures Up(t', y) && Down(t', y, 0) && Down(t', y, 1)
    {
      assert Up(t, y) && Down(t, y, 0) && Down(t, y, 1);
    }
    forall j: nat | j < NTREEBINS
      ensures RootOk(t', j)
    {
      assert RootOk(t, j);
    }
  }
}
