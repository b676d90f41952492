/**
 Why the search of a large request finds the best fit: the walk along the bits of
 the request, the deepest right subtree it leaves aside, and the leftmost descent.
 */
module BestFit {

  import opened ChunkSizes
  import opened Tries

  /** The words the search compares: what is left of a chunk, wrapped around if it is too small. */
  function Remainder(size: nat, nb: nat): nat {
    Wrap(size - nb)
  }

  /** Unsigned negation. */
  function Negate(x: int): (r: nat)
    ensures 0 < x < WORD ==> r == WORD - x
  {
    assert 0 < x < WORD ==> -x == WORD * (-1) + (WORD - x);
    Wrap(-x)
  }

  /** v is the best chunk so far, and rsize what it would leave; or nothing has been found. */
  ghost predicate Best(t: Trie, nb: nat, v: int, rsize: nat) {
    if v == 0 then rsize == WORD - nb
    else v in t.lev && v in t.sz && t.sz[v] >= nb && rsize == t.sz[v] - nb
  }

  lemma RemainderTest(size: nat, nb: nat, rsize: nat)
    requires 0 < nb < WORD && size < WORD && rsize <= WORD - nb
    ensures Remainder(size, nb) < rsize <==> size >= nb && size - nb < rsize
    ensures size >= nb ==> Remainder(size, nb) == size - nb
  {
  }

  /** Looking at the chunk x keeps the better of the two. */
  lemma BetterOf(t: Trie, nb: nat, v: int, rsize: nat, x: int)
    requires 0 < nb < WORD && Best(t, nb, v, rsize) && t.Node(x) && rsize <= WORD - nb
    ensures var better := Remainder(t.sz[x], nb) < rsize;
            var v', rsize' := if better then x else v, if better then Remainder(t.sz[x], nb) else rsize;
            && Best(t, nb, v', rsize') && rsize' <= rsize
            && (t.sz[x] >= nb ==> rsize' <= t.sz[x] - nb)
  {
  }

  // ---- the walk along the bits of the request ------------------------------

  /** x is on the path that the bits of nb prescribe. */
  ghost predicate OnWay(t: Trie, x: int, nb: nat)
    requires NodesOk(t) && SizeOk(nb)
  {
    x in t.lev && t.Bin(x) == ComputeTreeIndex(nb) && Prefix(nb, t.lev[x]) == Prefix(t.sz[x], t.lev[x])
  }

  /** Everything in the interval of r is larger than nb. */
  ghost predicate RightOf(t: Trie, r: int, nb: nat)
    requires NodesOk(t) && SizeOk(nb)
  {
    r in t.lev && t.Bin(r) == ComputeTreeIndex(nb) && Prefix(nb, t.lev[r]) < Prefix(t.sz[r], t.lev[r])
  }

  /** y is no better than the best so far, or no better than what the subtree of r offers. */
  ghost predicate Beaten(t: Trie, y: int, nb: nat, rsize: nat, r: int)
    requires NodesOk(t) && y in t.lev
  {
    || t.sz[y] < nb
    || t.sz[y] - nb >= rsize
    || (r in t.lev && (Under(t, y, r) || t.sz[r] <= t.sz[y]))
  }

  /** Every chunk of the bin is accounted for when the walk has come to x. */
  ghost predicate WayCovers(t: Trie, x: int, nb: nat, rsize: nat, rst: int)
    requires NodesOk(t) && SizeOk(nb) && x in t.lev
  {
    && (rst != 0 ==> RightOf(t, rst, nb) && t.lev[rst] >= t.lev[x])
    && (forall y | y in t.lev && t.Bin(y) == ComputeTreeIndex(nb) ::
          Under(t, y, x) || Beaten(t, y, nb, rsize, rst))
  }

  /** Everything that is in no better place than x, under the left side when nb goes right, is too small. */
  lemma LeftTooSmall(t: Trie, x: int, y: int, nb: nat)
    requires Shape(t) && SizeOk(nb) && OnWay(t, x, nb) && y in t.lev && Under(t, y, x) && t.lev[x] >= 1
    requires BitAt(nb, t.lev[x] - 1) == 1 && BitAt(t.sz[y], t.lev[x] - 1) == 0
    ensures t.sz[y] < nb
  {
    hide ComputeTreeIndex, Prefix, BitAt, LinksOk, Unique;
    PrefixStep(t.sz[y], t.lev[x] - 1);
    PrefixStep(nb, t.lev[x] - 1);
    PrefixOrder(t.sz[y], nb, t.lev[x] - 1);
  }

  /** Sizes on the way are smaller than everything in a subtree to the right. */
  lemma WayBelowRight(t: Trie, x: int, z: int, y: int, r: int, nb: nat)
    requires Shape(t) && SizeOk(nb) && OnWay(t, x, nb) && z in t.lev && Under(t, z, x)
    requires RightOf(t, r, nb) && t.lev[r] >= t.lev[x] && y in t.lev && (Under(t, y, r) || t.sz[r] <= t.sz[y])
    ensures t.sz[z] < t.sz[y]
  {
    hide ComputeTreeIndex, BitAt, LinksOk, Unique, Prefix;
    PrefixUp(t.sz[z], nb, t.lev[x], t.lev[r]);
    PrefixOrder(t.sz[z], t.sz[r], t.lev[r]);
    if Under(t, y, r) {
      PrefixOrder(t.sz[z], t.sz[y], t.lev[r]);
    }
  }

  /** The right child is to the right when nb goes left. */
  lemma RightChild(t: Trie, x: int, nb: nat)
    requires Shape(t) && SizeOk(nb) && OnWay(t, x, nb)
    requires t.lev[x] >= 1 && BitAt(nb, t.lev[x] - 1) == 0 && t.Kid(x, 1) != 0
    ensures RightOf(t, t.Kid(x, 1), nb) && t.lev[t.Kid(x, 1)] == t.lev[x] - 1
  {
    hide ComputeTreeIndex, BitAt, LinksOk, Unique, Prefix;
    KidUnder(t, x, 1);
    var c := t.Kid(x, 1);
    PrefixStep(t.sz[c], t.lev[x] - 1);
    PrefixStep(nb, t.lev[x] - 1);
  }

  lemma OnWayChild(t: Trie, x: int, nb: nat)
    requires Shape(t) && SizeOk(nb) && OnWay(t, x, nb) && t.lev[x] >= 1
    requires t.Kid(x, BitAt(nb, t.lev[x] - 1)) != 0
    ensures var c := t.Kid(x, BitAt(nb, t.lev[x] - 1));
            OnWay(t, c, nb) && t.lev[c] == t.lev[x] - 1
  {
    hide ComputeTreeIndex, BitAt, LinksOk, Unique, Prefix;
    var b := BitAt(nb, t.lev[x] - 1);
    KidUnder(t, x, b);
    PrefixStep(t.sz[t.Kid(x, b)], t.lev[x] - 1);
    PrefixStep(nb, t.lev[x] - 1);
  }

  /** One chunk y of the bin, when the walk moves on from x. */
  lemma WayStepAt(t: Trie, x: int, nb: nat, rsize: nat, rst: int, y: int)
    requires Shape(t) && SizeOk(nb) && OnWay(t, x, nb) && t.lev[x] >= 1
    requires WayCovers(t, x, nb, rsize, rst)
    requires t.sz[x] >= nb ==> rsize <= t.sz[x] - nb
    requires y in t.lev && t.Bin(y) == ComputeTreeIndex(nb)
    ensures var b := BitAt(nb, t.lev[x] - 1);
            var c := t.Kid(x, b);
            var rst' := if t.Kid(x, 1) != 0 && t.Kid(x, 1) != c then t.Kid(x, 1) else rst;
            (c in t.lev && Under(t, y, c)) || Beaten(t, y, nb, rsize, rst')
  {
    hide ComputeTreeIndex, BitAt, LinksOk, Unique, Prefix, Under, RightOf;
    var b := BitAt(nb, t.lev[x] - 1);
    var c := t.Kid(x, b);
    var rt := t.Kid(x, 1);
    var rst' := if rt != 0 && rt != c then rt else rst;
    if Under(t, y, x) && y != x {
      ChildContains(t, x, y);
      var d := BitAt(t.sz[y], t.lev[x] - 1);
      if b == 1 && d == 0 {
        LeftTooSmall(t, x, y, nb);
      }
    } else if rst' != rst && y != x && rst in t.lev && (Under(t, y, rst) || t.sz[rst] <= t.sz[y]) {
      KidUnder(t, x, 1);
      RstIsRight(t, x, nb, rsize, rst);
      WayBelowRight(t, x, rt, y, rst, nb);
    }
  }

  lemma RstIsRight(t: Trie, x: int, nb: nat, rsize: nat, rst: int)
    requires Shape(t) && SizeOk(nb) && x in t.lev && WayCovers(t, x, nb, rsize, rst) && rst in t.lev
    ensures RightOf(t, rst, nb) && t.lev[rst] >= t.lev[x]
  {
    hide ComputeTreeIndex, LinksOk, Unique, Prefix, Beaten, Under, RightOf;
  }

  /** The walk moves from x to its child on the side of nb, remembering the right child it passes. */
  lemma WayStep(t: Trie, x: int, nb: nat, rsize: nat, rst: int)
    requires Shape(t) && SizeOk(nb) && OnWay(t, x, nb)
    requires WayCovers(t, x, nb, rsize, rst)
    requires t.sz[x] >= nb ==> rsize <= t.sz[x] - nb
    requires t.sz[x] != nb
    ensures t.lev[x] >= 1
    ensures var c := t.Kid(x, BitAt(nb, t.lev[x] - 1));
            var rst' := if t.Kid(x, 1) != 0 && t.Kid(x, 1) != c then t.Kid(x, 1) else rst;
            if c != 0 then
              OnWay(t, c, nb) && t.lev[c] == t.lev[x] - 1 && WayCovers(t, c, nb, rsize, rst')
            else
              && (rst' != 0 ==> RightOf(t, rst', nb))
              && (forall y | y in t.lev && t.Bin(y) == ComputeTreeIndex(nb) :: Beaten(t, y, nb, rsize, rst'))
  {
    hide ComputeTreeIndex, BitAt, LinksOk, Unique, Prefix, Under, RightOf, Beaten;
    PrefixDistinct(t.sz[x], nb, t.lev[x]);
    var b := BitAt(nb, t.lev[x] - 1);
    var c := t.Kid(x, b);
    var rt := t.Kid(x, 1);
    var rst' := if rt != 0 && rt != c then rt else rst;
    if rst' != rst {
      assert b == 0;
      RightChild(t, x, nb);
    }
    if c != 0 {
      OnWayChild(t, x, nb);
    }
    forall y | y in t.lev && t.Bin(y) == ComputeTreeIndex(nb)
      ensures (c in t.lev && Under(t, y, c)) || Beaten(t, y, nb, rsize, rst')
    {
      WayStepAt(t, x, nb, rsize, rst, y);
    }
    if c == 0 {
      NullNotNode(t);
    }
  }

  lemma NullNotNode(t: Trie)
    requires NodesOk(t)
    ensures 0 !in t.lev
  {
  }

  // ---- from one bin to all of them -----------------------------------------

  /** Everything in the interval of x is large enough. */
  ghost predicate AllFit(t: Trie, x: int, nb: nat)
    requires NodesOk(t)
  {
    x in t.lev && forall y | y in t.lev && Under(t, y, x) :: t.sz[y] >= nb
  }

  /** Every chunk is accounted for when the descent has come to x, or to its end. */
  ghost predicate AllCovered(t: Trie, x: int, nb: nat, rsize: nat)
    requires NodesOk(t)
  {
    && (x != 0 ==> x in t.lev && (rsize == 0 || AllFit(t, x, nb)))
    && (forall y | y in t.lev :: Beaten(t, y, nb, rsize, x))
  }

  lemma RightAllFit(t: Trie, r: int, nb: nat)
    requires Shape(t) && SizeOk(nb) && RightOf(t, r, nb)
    ensures AllFit(t, r, nb)
  {
    hide ComputeTreeIndex, LinksOk, Unique, Prefix;
    forall y | y in t.lev && Under(t, y, r)
      ensures t.sz[y] >= nb
    {
      PrefixOrder(nb, t.sz[y], t.lev[r]);
    }
  }

  /** An earlier bin holds only smaller sizes, a later one only larger. */
  lemma BinsInOrder(t: Trie, y: int, s: nat)
    requires NodesOk(t) && y in t.lev && SizeOk(s)
    ensures t.Bin(y) < ComputeTreeIndex(s) ==> t.sz[y] < s
    ensures t.Bin(y) > ComputeTreeIndex(s) ==> t.sz[y] > s
  {
    hide ComputeTreeIndex;
    if t.sz[y] <= s {
      TreeIndexOrder(t.sz[y], s);
    }
    if s <= t.sz[y] {
      TreeIndexOrder(s, t.sz[y]);
    }
  }

  /** If the bin of the request offers anything, no other bin offers better. */
  lemma OwnBinSuffices(t: Trie, nb: nat, v: int, rsize: nat, r: int)
    requires Shape(t) && SizeOk(nb) && Best(t, nb, v, rsize)
    requires v != 0 ==> v in t.lev && t.Bin(v) == ComputeTreeIndex(nb)
    requires r != 0 ==> RightOf(t, r, nb)
    requires r != 0 || v != 0
    requires forall y | y in t.lev && t.Bin(y) == ComputeTreeIndex(nb) :: Beaten(t, y, nb, rsize, r)
    ensures AllCovered(t, r, nb, rsize)
  {
    hide ComputeTreeIndex, LinksOk, Unique, Prefix, Under;
    if r != 0 {
      RightAllFit(t, r, nb);
    }
    forall y | y in t.lev
      ensures Beaten(t, y, nb, rsize, r)
    {
      BinsInOrder(t, y, nb);
      if r != 0 {
        BinsInOrder(t, y, t.sz[r]);
      } else {
        BinsInOrder(t, y, t.sz[v]);
      }
    }
  }

  /** Otherwise the first later bin with anything in it does, and its root leads to its least. */
  lemma NextBin(t: Trie, nb: nat, i: nat, rsize: nat)
    requires Shape(t) && SizeOk(nb) && rsize <= WORD - nb
    requires ComputeTreeIndex(nb) < i < NTREEBINS && t.roots[i] != 0
    requires forall y | y in t.lev && t.Bin(y) == ComputeTreeIndex(nb) :: t.sz[y] < nb
    requires forall j: nat | ComputeTreeIndex(nb) < j < i :: t.roots[j] == 0
    ensures AllCovered(t, t.roots[i], nb, rsize)
  {
    hide ComputeTreeIndex, Unique, Prefix, Under, RootLevel, Up, Down;
    var r := t.roots[i];
    assert RootOk(t, i);
    forall y | y in t.lev
      ensures Beaten(t, y, nb, rsize, r) && (Under(t, y, r) ==> t.sz[y] >= nb)
    {
      var q := RootOf(t, y);
      BinsInOrder(t, y, nb);
      BinsInOrder(t, y, t.sz[r]);
      UnderBin(t, y, r);
    }
  }

  lemma UnderBin(t: Trie, y: int, x: int)
    requires t.Node(x) && t.Node(y)
    ensures Under(t, y, x) ==> t.Bin(y) == t.Bin(x)
  {
  }

  lemma NoLaterBin(t: Trie, nb: nat, rsize: nat)
    requires Shape(t) && SizeOk(nb)
    requires forall y | y in t.lev && t.Bin(y) == ComputeTreeIndex(nb) :: t.sz[y] < nb
    requires forall j: nat | ComputeTreeIndex(nb) < j < NTREEBINS :: t.roots[j] == 0
    ensures AllCovered(t, 0, nb, rsize)
  {
    hide ComputeTreeIndex, Unique, Prefix, Under, RootLevel, LinksOk;
    forall y | y in t.lev
      ensures t.sz[y] < nb
    {
      var q := RootOf(t, y);
      NullNotNode(t);
      BinsInOrder(t, y, nb);
    }
  }

  // ---- the leftmost descent ------------------------------------------------

  /** The child that the descent goes to. */
  function LeftmostChild(t: Trie, x: int): int {
    if t.Kid(x, 0) != 0 then t.Kid(x, 0) else t.Kid(x, 1)
  }

  lemma DescentStepAt(t: Trie, x: int, nb: nat, rsize: nat, y: int)
    requires Shape(t) && x in t.lev && y in t.lev && Beaten(t, y, nb, rsize, x)
    requires rsize == 0 || rsize <= t.sz[x] - nb
    ensures Beaten(t, y, nb, rsize, LeftmostChild(t, x))
  {
    hide ComputeTreeIndex, Unique, Prefix, RootLevel, LinksOk, BitAt;
    var c := LeftmostChild(t, x);
    if Under(t, y, x) && y != x && rsize != 0 {
      ChildContains(t, x, y);
      var d := BitAt(t.sz[y], t.lev[x] - 1);
      if t.Kid(x, 0) != 0 && d == 1 {
        KidUnder(t, x, 0);
        KidUnder(t, x, 1);
        LeftBelowRight(t, x, c, y);
      }
    }
  }

  /** Once x has been looked at, the descent may go on to its leftmost child. */
  lemma DescentStep(t: Trie, x: int, nb: nat, rsize: nat)
    requires Shape(t) && x in t.lev && AllCovered(t, x, nb, rsize)
    requires t.sz[x] >= nb ==> rsize <= t.sz[x] - nb
    ensures AllCovered(t, LeftmostChild(t, x), nb, rsize)
    ensures LeftmostChild(t, x) != 0 ==> t.lev[LeftmostChild(t, x)] < t.lev[x]
  {
    hide ComputeTreeIndex, Unique, Prefix, RootLevel, LinksOk, BitAt, Beaten;
    var c := LeftmostChild(t, x);
    if c != 0 {
      var b := if t.Kid(x, 0) != 0 then 0 else 1;
      KidUnder(t, x, b);
      forall y | y in t.lev && Under(t, y, c)
        ensures Under(t, y, x)
      {
        UnderTrans(t, y, c, x);
      }
    }
    assert rsize == 0 || rsize <= t.sz[x] - nb by {
      assert Under(t, x, x);
    }
    forall y | y in t.lev
      ensures Beaten(t, y, nb, rsize, c)
    {
      DescentStepAt(t, x, nb, rsize, y);
    }
  }

  /** At the end of the descent the best chunk so far is the best of all. */
  lemma DescentEnd(t: Trie, nb: nat, v: int, rsize: nat)
    requires NodesOk(t) && nb < WORD && AllCovered(t, 0, nb, rsize) && Best(t, nb, v, rsize)
    ensures v == 0 ==> forall y | y in t.lev :: t.sz[y] < nb
    ensures v != 0 ==> forall y | y in t.lev && t.sz[y] >= nb :: t.sz[v] <= t.sz[y]
  {
  }
}
