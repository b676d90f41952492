/**
 The small bins: 32 circular lists, one for each chunk size that is a multiple of 8
 below 256, with a bit map saying which are non-empty.

 A bin header is an address of its own.  Headers live in the allocator's static
 state, so they are modelled as negative addresses, away from every chunk.  The
 links of an empty bin are not maintained by the code: the bit map alone says that
 the bin is empty.
 */
module SmallBins {

  import opened BinMaps
  import opened Rings

  const SMALL_LIMIT: nat := 256

  function SmallIndex(s: nat): nat {
    s / 8
  }

  /** Address of the header of small bin i. */
  function Header(i: nat): int {
    -1 - i
  }

  type Bins = seq<seq<int>>
  type Items = map<int, int>

  /** The map marks exactly the non-empty bins. */
  ghost predicate MapAgrees(m: bv32, bins: Bins) {
    |bins| == NBINS && forall i: nat | i < NBINS :: Marked(m, i) <==> bins[i] != []
  }

  /** Every non-empty bin is one ring through its header. */
  ghost predicate RingsOk(fd: Links, bk: Links, bins: Bins) {
    forall i: nat | i < |bins| && bins[i] != [] :: Ring(fd, bk, [Header(i)] + bins[i])
  }

  /** Bin i holds the items of size 8 * i, and only those. */
  ghost predicate ItemsOk(bins: Bins, items: Items) {
    && |bins| == NBINS
    && (forall x | x in items ::
          x > 0 && items[x] % 8 == 0 && 16 <= items[x] < SMALL_LIMIT && x in bins[items[x] / 8])
    && (forall i: nat, x | i < NBINS && x in bins[i] :: x in items && items[x] == 8 * i)
  }

  ghost predicate BinsOk(m: bv32, fd: Links, bk: Links, bins: Bins, items: Items) {
    MapAgrees(m, bins) && RingsOk(fd, bk, bins) && ItemsOk(bins, items)
  }

  // ---- one step of each kind, on values ------------------------------------

  /** The ring of bin j is untouched by link updates at the nodes of another bin i. */
  lemma OtherRing(fd: Links, bk: Links, fd': Links, bk': Links, bins: Bins, items: Items,
                  i: nat, j: nat, touched: set<int>)
    requires ItemsOk(bins, items) && i < NBINS && j < NBINS && i != j
    requires Ring(fd, bk, [Header(j)] + bins[j])
    requires forall x | x in touched :: x == Header(i) || x in bins[i] || (x > 0 && x !in items)
    requires forall x | x !in touched && x in fd :: x in fd' && fd'[x] == fd[x]
    requires forall x | x !in touched && x in bk :: x in bk' && bk'[x] == bk[x]
    ensures Ring(fd', bk', [Header(j)] + bins[j])
  {
    var s := [Header(j)] + bins[j];
    forall x | x in s
      ensures x !in touched && x in fd && x in bk
    {
      NotInOther(bins, items, i, j, x);
      RingMember(fd, bk, s, x);
    }
    hide Ring;
    RingFrame(fd, bk, fd', bk', s);
  }

  lemma NotInOther(bins: Bins, items: Items, i: nat, j: nat, x: int)
    requires ItemsOk(bins, items) && i < NBINS && j < NBINS && i != j
    requires x == Header(j) || x in bins[j]
    ensures x !in bins[i] && x != Header(i) && (x > 0 ==> x in items)
  {
    assert x in bins[j] ==> x in items && items[x] == 8 * j;
  }

  lemma RingMember(fd: Links, bk: Links, s: seq<int>, x: int)
    requires Ring(fd, bk, s) && x in s
    ensures x in fd && x in bk
  {
    var k :| 0 <= k < |s| && s[k] == x;
  }

  lemma OtherRings(fd: Links, bk: Links, fd': Links, bk': Links, bins: Bins, items: Items,
                   i: nat, b': seq<int>, touched: set<int>)
    requires RingsOk(fd, bk, bins) && ItemsOk(bins, items) && i < NBINS
    requires |bins| == NBINS
    requires b' != [] ==> Ring(fd', bk', [Header(i)] + b')
    requires forall x | x in touched :: x == Header(i) || x in bins[i] || (x > 0 && x !in items)
    requires forall x | x !in touched && x in fd :: x in fd' && fd'[x] == fd[x]
    requires forall x | x !in touched && x in bk :: x in bk' && bk'[x] == bk[x]
    ensures RingsOk(fd', bk', bins[i := b'])
  {
    hide Ring, ItemsOk;
    forall j: nat | j < NBINS && j != i && bins[j] != []
      ensures Ring(fd', bk', [Header(j)] + bins[j])
    {
      OtherRing(fd, bk, fd', bk', bins, items, i, j, touched);
    }
  }

  lemma InsertItems(bins: Bins, items: Items, p: int, s: nat)
    requires ItemsOk(bins, items) && p > 0 && p !in items
    requires s % 8 == 0 && 16 <= s < SMALL_LIMIT
    ensures ItemsOk(bins[s / 8 := [p] + bins[s / 8]], items[p := s])
  {
    var i := s / 8;
    var bins', items' := bins[i := [p] + bins[i]], items[p := s];
    forall x | x in items'
      ensures x > 0 && items'[x] % 8 == 0 && 16 <= items'[x] < SMALL_LIMIT && x in bins'[items'[x] / 8]
    {
      assert x != p ==> x in items && x in bins[items[x] / 8];
    }
  }

  lemma RemoveItems(bins: Bins, items: Items, i: nat, k: nat)
    requires ItemsOk(bins, items) && i < NBINS && Distinct(bins[i]) && k < |bins[i]|
    ensures ItemsOk(bins[i := Without(bins[i], bins[i][k])], items - {bins[i][k]})
  {
    WithoutAt(bins[i], k);
    var p := bins[i][k];
    assert p in bins[i];
    var bins', items' := bins[i := Without(bins[i], p)], items - {p};
    forall x | x in items'
      ensures x in bins'[items'[x] / 8]
    {
      assert x in items && x in bins[items[x] / 8];
    }
    forall j: nat, x | j < NBINS && x in bins'[j]
      ensures x in items' && items'[x] == 8 * j
    {
      assert x in bins[j];
      assert p in items && items[p] == 8 * i;
    }
  }

  lemma InsertIntoEmpty(fd: Links, bk: Links, b: int, p: int)
    requires b != p
    ensures Ring(fd[b := p][p := b], bk[b := p][p := b], [b] + [p])
  {
    assert [b] + [p] == [b, p];
  }

  lemma InsertIntoRing(fd: Links, bk: Links, b: int, s: seq<int>, p: int)
    requires Ring(fd, bk, [b] + s) && s != [] && p != b && p !in s
    ensures b in fd && fd[b] == s[0]
    ensures Ring(fd[b := p][p := fd[b]], bk[fd[b] := p][p := b], [b] + ([p] + s))
  {
    hide Ring;
    var r := [b] + s;
    RingInsert(fd, bk, r, p);
    RingEnds(fd, bk, r);
    assert [b, p] + r[1..] == [b] + ([p] + s);
  }

  lemma InsertRings(m: bv32, fd: Links, bk: Links, bins: Bins, items: Items, p: int, s: nat, f: int)
    requires BinsOk(m, fd, bk, bins, items) && p > 0 && p !in items
    requires s % 8 == 0 && 16 <= s < SMALL_LIMIT
    requires var b := Header(s / 8);
             if Marked(m, s / 8) then b in fd && f == fd[b] else f == b
    ensures var i := s / 8;
            var b := Header(i);
            RingsOk(fd[b := p][p := f], bk[f := p][p := b], bins[i := [p] + bins[i]])
  {
    hide Ring, Marked, RingsOk;
    var i := s / 8;
    var b := Header(i);
    if bins[i] == [] {
      InsertIntoEmpty(fd, bk, b, p);
      assert [p] + bins[i] == [p];
    } else {
      BinRing(fd, bk, bins, i);
      InsertIntoRing(fd, bk, b, bins[i], p);
      assert f in bins[i];
    }
    OtherRings(fd, bk, fd[b := p][p := f], bk[f := p][p := b], bins, items, i,
               [p] + bins[i], {b, p, f});
  }

  lemma BinRing(fd: Links, bk: Links, bins: Bins, i: nat)
    requires RingsOk(fd, bk, bins) && i < |bins| && bins[i] != []
    ensures Ring(fd, bk, [Header(i)] + bins[i])
  {
  }

  /** The neighbours of the node at position k of a bin. */
  lemma Neighbours(fd: Links, bk: Links, b: int, s: seq<int>, k: nat)
    requires Ring(fd, bk, [b] + s) && k < |s|
    ensures var p := s[k];
            && p in fd && p in bk && bk[p] in fd && fd[p] in bk
            && fd[bk[p]] == p && bk[fd[p]] == p
            && bk[p] == (if k == 0 then b else s[k - 1])
            && fd[p] == (if k + 1 == |s| then b else s[k + 1])
  {
    var r := [b] + s;
    assert r[k + 1] == s[k];
    assert fd[r[k]] == r[After(k, |r|)] && bk[r[After(k, |r|)]] == r[k];
    assert fd[r[k + 1]] == r[After(k + 1, |r|)] && bk[r[After(k + 1, |r|)]] == r[k + 1];
  }

  lemma FirstOfBin(fd: Links, bk: Links, bins: Bins, i: nat)
    requires RingsOk(fd, bk, bins) && i < |bins| && bins[i] != []
    ensures Header(i) in fd && fd[Header(i)] == bins[i][0]
  {
    BinRing(fd, bk, bins, i);
    RingEnds(fd, bk, [Header(i)] + bins[i]);
  }

  lemma TailDistinct(b: int, s: seq<int>)
    requires Distinct([b] + s)
    ensures Distinct(s) && b !in s
  {
    var r := [b] + s;
    forall i, j | 0 <= i < j < |s|
      ensures s[i] != s[j]
    {
      assert r[i + 1] != r[j + 1];
    }
    forall i | 0 <= i < |s|
      ensures s[i] != b
    {
      assert r[0] != r[i + 1];
    }
  }

  lemma RemoveFromRing(fd: Links, bk: Links, b: int, s: seq<int>, k: nat)
    requires Ring(fd, bk, [b] + s) && k < |s|
    ensures s[k] in fd && s[k] in bk
    ensures Ring(RemoveFd(fd, bk, s[k]), RemoveBk(fd, bk, s[k]), [b] + Without(s, s[k]))
  {
    hide Linked, Distinct, RemoveFd, RemoveBk, Without;
    var r := [b] + s;
    RingRemove(fd, bk, r, k + 1);
    TailDistinct(b, s);
    WithoutAt(s, k);
    assert r[..k + 1] + r[k + 2..] == [b] + Without(s, s[k]);
  }

  lemma RemoveRings(m: bv32, fd: Links, bk: Links, bins: Bins, items: Items, i: nat, k: nat)
    requires BinsOk(m, fd, bk, bins, items) && i < NBINS && k < |bins[i]|
    ensures var p := bins[i][k];
            && p in fd && p in bk && bk[p] in fd && fd[p] in bk
            && fd[bk[p]] == p && bk[fd[p]] == p && bk[p] != p && fd[p] != p
            && (fd[p] == bk[p] <==> |bins[i]| == 1)
            && (k == 0 ==> bk[p] == Header(i))
            && RingsOk(RemoveFd(fd, bk, p), RemoveBk(fd, bk, p), bins[i := Without(bins[i], p)])
    ensures |bins[i]| == 1 ==> RingsOk(fd, bk, bins[i := []])
  {
    hide Marked, RingsOk, Without, RemoveFd, RemoveBk;
    var p := bins[i][k];
    BinRing(fd, bk, bins, i);
    Neighbours(fd, bk, Header(i), bins[i], k);
    RemoveFromRing(fd, bk, Header(i), bins[i], k);
    BinDistinct(fd, bk, bins, i);
    hide Ring;
    NeighboursDiffer(Header(i), bins[i], k);
    RemoveTouches(fd, bk, p);
    assert fd[p] == Header(i) || fd[p] in bins[i];
    assert bk[p] == Header(i) || bk[p] in bins[i];
    OtherRings(fd, bk, RemoveFd(fd, bk, p), RemoveBk(fd, bk, p), bins, items, i,
               Without(bins[i], p), {fd[p], bk[p]});
    OtherRings(fd, bk, fd, bk, bins, items, i, [], {});
  }

  lemma RemoveTouches(fd: Links, bk: Links, p: int)
    requires p in fd && p in bk
    ensures forall x | x in fd && x != bk[p] ::
              x in RemoveFd(fd, bk, p) && RemoveFd(fd, bk, p)[x] == fd[x]
    ensures forall x | x in bk && x != fd[p] ::
              x in RemoveBk(fd, bk, p) && RemoveBk(fd, bk, p)[x] == bk[x]
  {
  }

  lemma NeighboursDiffer(b: int, s: seq<int>, k: nat)
    requires Distinct(s) && b !in s && k < |s|
    ensures var p := (if k == 0 then b else s[k - 1]);
            var n := (if k + 1 == |s| then b else s[k + 1]);
            && p != s[k] && n != s[k] && (p == n <==> |s| == 1)
  {
    if k > 0 && k + 1 < |s| {
      assert s[k - 1] != s[k + 1];
    }
  }

  lemma BinDistinct(fd: Links, bk: Links, bins: Bins, i: nat)
    requires RingsOk(fd, bk, bins) && i < |bins|
    ensures Distinct(bins[i]) && (bins[i] != [] ==> Header(i) !in bins[i])
  {
    hide Distinct, Linked;
    if bins[i] != [] {
      BinRing(fd, bk, bins, i);
      TailDistinct(Header(i), bins[i]);
    } else {
      NoneDistinct();
    }
  }

  lemma NoneDistinct()
    ensures Distinct([])
  {
  }

  // ---- the bins ------------------------------------------------------------

  class SmallBinTable {
    var smallmap: bv32
    var fd: Links
    var bk: Links
    ghost var bins: Bins
    ghost var items: Items

    ghost predicate Valid()
      reads this
    {
      BinsOk(smallmap, fd, bk, bins, items)
    }

    /** Empty bins.  The links of the headers start out on themselves. */
    constructor ()
      ensures Valid() && items == map[] && smallmap == 0
      ensures bins == seq(NBINS, _ => [])
    {
      smallmap := 0;
      fd := map i | 0 <= i < NBINS :: Header(i) := Header(i);
      bk := map i | 0 <= i < NBINS :: Header(i) := Header(i);
      bins := seq(NBINS, _ => []);
      items := map[];
      new;
      ZeroMap(0);
    }

    /** Links p in at the front of the bin for size s. */
    method InsertSmallChunk(p: int, s: nat)
      requires Valid()
      requires p > 0 && p !in items && s % 8 == 0 && 16 <= s < SMALL_LIMIT
      modifies this
      ensures Valid()
      ensures items == old(items)[p := s]
      ensures bins == old(bins)[s / 8 := [p] + old(bins)[s / 8]]
    {
      var i := SmallIndex(s);
      var b := Header(i);
      var f := b;
      if !Marked(smallmap, i) {
        smallmap := Mark(smallmap, i);
      } else {
        assert Ring(fd, bk, [b] + bins[i]);
        RingEnds(fd, bk, [b] + bins[i]);
        f := fd[b];
      }
      MarkOne(old(smallmap), i);
      InsertRings(old(smallmap), fd, bk, bins, items, p, s, f);
      InsertItems(bins, items, p, s);
      fd := fd[b := p];
      bk := bk[f := p];
      fd := fd[p := f];
      bk := bk[p := b];
      bins := bins[i := [p] + bins[i]];
      items := items[p := s];
    }

    /** Takes p, of size s, out of its bin. */
    method UnlinkSmallChunk(p: int, s: nat)
      requires Valid()
      requires p in items && items[p] == s
      modifies this
      ensures Valid()
      ensures items == old(items) - {p}
      ensures bins == old(bins)[s / 8 := Without(old(bins)[s / 8], p)]
    {
      var i := SmallIndex(s);
      ghost var k: nat :| k < |bins[i]| && bins[i][k] == p;
      RemoveRings(smallmap, fd, bk, bins, items, i, k);
      var f := fd[p];
      var b := bk[p];
      // the list is not corrupt
      assert bk[f] == p && fd[b] == p && p != b && p != f;
      BinDistinct(fd, bk, bins, i);
      RemoveItems(bins, items, i, k);
      ClearOne(smallmap, i);
      if f == b {
        smallmap := Clear(smallmap, i);
        assert Without(bins[i], p) == [];
      } else {
        bk := bk[f := b];
        fd := fd[b := f];
        WithoutAt(bins[i], k);
        assert |Without(bins[i], p)| > 0;
      }
      bins := bins[i := Without(bins[i], p)];
      items := items - {p};
    }

    /** Takes the first chunk out of the non-empty bin i. */
    method UnlinkFirstSmallChunk(i: nat) returns (p: int)
      requires Valid()
      requires i < NBINS && Marked(smallmap, i)
      modifies this
      ensures Valid()
      ensures |old(bins)| == NBINS && old(bins)[i] != [] && p == old(bins)[i][0] && p in old(items) && old(items)[p] == 8 * i
      ensures items == old(items) - {p}
      ensures bins == old(bins)[i := old(bins)[i][1..]]
    {
      hide Ring, Marked, Mark, Clear;
      var b := Header(i);
      FirstOfBin(fd, bk, bins, i);
      p := fd[b];
      RemoveRings(smallmap, fd, bk, bins, items, i, 0);
      var f := fd[p];
      assert bk[f] == p && fd[b] == p && p != b && p != f;
      BinDistinct(fd, bk, bins, i);
      WithoutAt(bins[i], 0);
      RemoveItems(bins, items, i, 0);
      ClearOne(smallmap, i);
      if b == f {
        smallmap := Clear(smallmap, i);
      } else {
        fd := fd[b := f];
        bk := bk[f := b];
      }
      bins := bins[i := bins[i][1..]];
      items := items - {p};
    }

    /** Looks for x in the bin for the size s. */
    method Find(x: int, s: nat) returns (found: bool)
      requires Valid() && x > 0 && s % 8 == 0 && s < SMALL_LIMIT
      ensures found <==> x in items && items[x] == s
    {
      hide Marked, Ring;
      var i := SmallIndex(s);
      var b := Header(i);
      BinMembers(bins, items, i, x);
      if !Marked(smallmap, i) {
        return false;
      }
      ghost var r := [b] + bins[i];
      BinRing(fd, bk, bins, i);
      var p := b;
      ghost var k := 0;
      while true
        invariant 0 <= k < |r| && p == r[k]
        invariant forall j | 0 <= j < k :: r[j] != x
        decreases |r| - k
      {
        if p == x {
          return true;
        }
        RingNext(fd, bk, r, k);
        p := fd[p];
        if p == b {
          assert forall j | 0 <= j < |bins[i]| :: bins[i][j] == r[j + 1];
          return false;
        }
        k := k + 1;
      }
    }
  }

  lemma BinMembers(bins: Bins, items: Items, i: nat, x: int)
    requires ItemsOk(bins, items) && i < NBINS
    ensures x in bins[i] <==> x in items && items[x] == 8 * i
  {
  }
}
