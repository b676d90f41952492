/**
 Circular doubly-linked lists threaded through fd and bk fields.  The fields of all
 chunks are two maps from address to address; a ring is a sequence of addresses
 that the two maps link into one cycle.
 */
module Rings {

  type Links = map<int, int>

  /** Index after k on a cycle of n nodes. */
  function After(k: nat, n: nat): (r: nat)
    requires k < n
    ensures r < n
  {
    if k + 1 == n then 0 else k + 1
  }

  ghost predicate Distinct(s: seq<int>) {
    forall i, j | 0 <= i < j < |s| :: s[i] != s[j]
  }

  ghost predicate Linked(fd: Links, bk: Links, s: seq<int>) {
    && (forall k | 0 <= k < |s| :: s[k] in fd && s[k] in bk)
    && (forall k | 0 <= k < |s| :: fd[s[k]] == s[After(k, |s|)])
    && (forall k | 0 <= k < |s| :: bk[s[After(k, |s|)]] == s[k])
  }

  /** fd and bk link the nodes of s, in this order, into one cycle. */
  ghost predicate Ring(fd: Links, bk: Links, s: seq<int>) {
    |s| > 0 && Distinct(s) && Linked(fd, bk, s)
  }

  lemma RingEnds(fd: Links, bk: Links, s: seq<int>)
    requires Ring(fd, bk, s)
    ensures s[0] in fd && s[0] in bk
    ensures fd[s[0]] == if |s| == 1 then s[0] else s[1]
    ensures bk[s[0]] == s[|s| - 1]
  {
  }

  /** Following fd from the first node comes back to it after all the others. */
  lemma RingNext(fd: Links, bk: Links, s: seq<int>, k: nat)
    requires Ring(fd, bk, s) && k < |s|
    ensures s[k] in fd && fd[s[k]] == s[After(k, |s|)] && (k + 1 < |s| ==> fd[s[k]] != s[0])
  {
  }

  /** Only the links of its own nodes matter to a ring. */
  lemma RingFrame(fd: Links, bk: Links, fd': Links, bk': Links, s: seq<int>)
    requires Ring(fd, bk, s)
    requires forall x | x in s :: x in fd' && fd'[x] == fd[x]
    requires forall x | x in s :: x in bk' && bk'[x] == bk[x]
    ensures Ring(fd', bk', s)
  {
  }

  /** A chunk that is alone in its ring. */
  lemma RingSingle(fd: Links, bk: Links, x: int)
    ensures Ring(fd[x := x], bk[x := x], [x])
  {
  }

  // ---- insertion -----------------------------------------------------------

  /** The four assignments that link x in behind t. */
  function InsertFd(fd: Links, t: int, x: int): Links
    requires t in fd
  {
    fd[t := x][x := fd[t]]
  }

  function InsertBk(fd: Links, bk: Links, t: int, x: int): Links
    requires t in fd
  {
    bk[fd[t] := x][x := t]
  }

  /** Linking x in behind the first node puts it second in the ring. */
  lemma RingInsert(fd: Links, bk: Links, s: seq<int>, x: int)
    requires Ring(fd, bk, s) && x !in s
    ensures s[0] in fd
    ensures Ring(InsertFd(fd, s[0], x), InsertBk(fd, bk, s[0], x), [s[0], x] + s[1..])
  {
    RingEnds(fd, bk, s);
    var t, n := s[0], |s|;
    var s' := [t, x] + s[1..];
    var fd', bk' := InsertFd(fd, t, x), InsertBk(fd, bk, t, x);
    assert |s'| == n + 1;
    forall k | 2 <= k < n + 1
      ensures s'[k] == s[k - 1] && s'[k] != x && s'[k] != t
    {
      assert s[k - 1] in s;
    }
    assert Distinct(s');
    forall k | 0 <= k < n + 1
      ensures s'[k] in fd' && s'[k] in bk'
      ensures fd'[s'[k]] == s'[After(k, n + 1)]
      ensures bk'[s'[After(k, n + 1)]] == s'[k]
    {
      InsertStep(fd, bk, s, x, k);
    }
  }

  lemma InsertStep(fd: Links, bk: Links, s: seq<int>, x: int, k: nat)
    requires Ring(fd, bk, s) && x !in s && k <= |s|
    ensures s[0] in fd
    ensures var s' := [s[0], x] + s[1..];
            var fd', bk' := InsertFd(fd, s[0], x), InsertBk(fd, bk, s[0], x);
            && s'[k] in fd' && s'[k] in bk'
            && fd'[s'[k]] == s'[After(k, |s| + 1)]
            && s'[After(k, |s| + 1)] in bk'
            && bk'[s'[After(k, |s| + 1)]] == s'[k]
  {
    RingEnds(fd, bk, s);
    var n, s' := |s|, [s[0], x] + s[1..];
    assert forall i | 2 <= i <= n :: s'[i] == s[i - 1];
    if k >= 2 {
      var i := k - 1;
      assert s'[k] == s[i] && s[i] in s && s[i] != s[0];
      assert fd[s[i]] == s[After(i, n)] && bk[s[After(i, n)]] == s[i];
      if k < n {
        assert s'[k + 1] == s[i + 1];
      }
    }
  }

  // ---- removal -------------------------------------------------------------

  function RemoveFd(fd: Links, bk: Links, x: int): Links
    requires x in fd && x in bk
  {
    fd[bk[x] := fd[x]]
  }

  function RemoveBk(fd: Links, bk: Links, x: int): Links
    requires x in fd && x in bk
  {
    bk[fd[x] := bk[x]]
  }

  /** Bypassing the first node leaves the rest of the ring. */
  lemma RingRemoveFirst(fd: Links, bk: Links, s: seq<int>)
    requires Ring(fd, bk, s) && |s| > 1
    ensures s[0] in fd && s[0] in bk
    ensures Ring(RemoveFd(fd, bk, s[0]), RemoveBk(fd, bk, s[0]), s[1..])
  {
    RingEnds(fd, bk, s);
    var n, s' := |s|, s[1..];
    var fd', bk' := RemoveFd(fd, bk, s[0]), RemoveBk(fd, bk, s[0]);
    forall k | 0 <= k < n - 1
      ensures s'[k] in fd' && s'[k] in bk'
      ensures fd'[s'[k]] == s'[After(k, n - 1)]
      ensures bk'[s'[After(k, n - 1)]] == s'[k]
    {
      assert s'[k] == s[k + 1];
      assert fd[s[k + 1]] == s[After(k + 1, n)];
      assert bk[s[After(k + 1, n)]] == s[k + 1];
    }
  }

  /** A ring may be read from any of its nodes. */
  function Rotate(s: seq<int>, k: nat): seq<int>
    requires k < |s|
  {
    s[k..] + s[..k]
  }

  function Offset(i: nat, k: nat, n: nat): (j: nat)
    requires i < n && k < n
    ensures j < n
  {
    if i + k < n then i + k else i + k - n
  }

  lemma OffsetAfter(i: nat, k: nat, n: nat)
    requires i < n && k < n
    ensures Offset(After(i, n), k, n) == After(Offset(i, k, n), n)
  {
  }

  lemma RotateAt(s: seq<int>, k: nat)
    requires k < |s|
    ensures |Rotate(s, k)| == |s|
    ensures forall i | 0 <= i < |s| :: Rotate(s, k)[i] == s[Offset(i, k, |s|)]
  {
  }

  lemma RingRotate(fd: Links, bk: Links, s: seq<int>, k: nat)
    requires Ring(fd, bk, s) && k < |s|
    ensures Ring(fd, bk, Rotate(s, k))
  {
    hide Rotate;
    var n, r := |s|, Rotate(s, k);
    RotateAt(s, k);
    forall i | 0 <= i < n
      ensures r[i] in fd && r[i] in bk
      ensures fd[r[i]] == r[After(i, n)]
      ensures bk[r[After(i, n)]] == r[i]
    {
      OffsetAfter(i, k, n);
      var j := Offset(i, k, n);
      assert fd[s[j]] == s[After(j, n)] && bk[s[After(j, n)]] == s[j];
    }
  }

  lemma RotateMembers(s: seq<int>, k: nat)
    requires k < |s|
    ensures |Rotate(s, k)| == |s| && Rotate(s, k)[0] == s[k]
    ensures forall x :: x in Rotate(s, k) <==> x in s
  {
  }

  lemma RotateBack(s: seq<int>, k: nat)
    requires 0 < k < |s|
    ensures Rotate(s, k)[0] == s[k]
    ensures Rotate(Rotate(s, k)[1..], |s| - 1 - k) == s[..k] + s[k + 1..]
  {
  }

  /** Bypassing the node at position k > 0 leaves the others in order. */
  lemma RingRemove(fd: Links, bk: Links, s: seq<int>, k: nat)
    requires Ring(fd, bk, s) && 0 < k < |s|
    ensures s[k] in fd && s[k] in bk
    ensures Ring(RemoveFd(fd, bk, s[k]), RemoveBk(fd, bk, s[k]), s[..k] + s[k + 1..])
  {
    hide Rotate, Ring, RemoveFd, RemoveBk;
    var r := Rotate(s, k);
    RotateAt(s, k);
    RotateBack(s, k);
    RingRotate(fd, bk, s, k);
    RingRemoveFirst(fd, bk, r);
    RingRotate(RemoveFd(fd, bk, s[k]), RemoveBk(fd, bk, s[k]), r[1..], |s| - 1 - k);
  }

  /** The sequence s with its first occurrence of p left out. */
  function Without(s: seq<int>, p: int): (r: seq<int>)
    ensures p !in s ==> r == s
  {
    if s == [] then []
    else if s[0] == p then s[1..]
    else [s[0]] + Without(s[1..], p)
  }

  lemma {:induction false} WithoutSplit(s: seq<int>, k: nat)
    requires Distinct(s) && k < |s|
    ensures Without(s, s[k]) == s[..k] + s[k + 1..]
  {
    if k > 0 {
      WithoutSplit(s[1..], k - 1);
      assert [s[0]] + (s[1..][..k - 1] + s[1..][k..]) == s[..k] + s[k + 1..];
    }
  }

  lemma WithoutAt(s: seq<int>, k: nat)
    requires Distinct(s) && k < |s|
    ensures Without(s, s[k]) == s[..k] + s[k + 1..]
    ensures forall x :: x in Without(s, s[k]) <==> x in s && x != s[k]
  {
    hide Without;
    WithoutSplit(s, k);
    var r := s[..k] + s[k + 1..];
    forall x | x in s && x != s[k]
      ensures x in r
    {
      var j :| 0 <= j < |s| && s[j] == x;
      assert r[if j < k then j else j - 1] == x;
    }
    forall x | x in r
      ensures x in s && x != s[k]
    {
      var j :| 0 <= j < |r| && r[j] == x;
      assert s[if j < k then j else j + 1] == x;
    }
  }
}
