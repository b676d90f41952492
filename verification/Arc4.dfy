/**
 The arc4 generator: a permutation of the 256 byte values that is stirred and stepped,
 and numbers below a bound that all come up equally often.
 */
module Arc4 {

  // ---- the state -----------------------------------------------------------

  /** The two indices and the table. */
  datatype Rs = Rs(i: nat, j: nat, s: seq<nat>)

  predicate InBytes(s: seq<nat>) {
    |s| == 256 && forall k | 0 <= k < 256 :: s[k] < 256
  }

  ghost predicate Distinct(s: seq<nat>) {
    forall k, l | 0 <= k < l < |s| :: s[k] != s[l]
  }

  /** The table is a permutation of 0 to 255, and the indices are bytes. */
  ghost predicate IsPermutation(r: Rs) {
    r.i < 256 && r.j < 256 && InBytes(r.s) && Distinct(r.s)
  }

  function Swapped(s: seq<nat>, i: nat, j: nat): seq<nat>
    requires i < |s| && j < |s|
  {
    s[i := s[j]][j := s[i]]
  }

  lemma SwapKeeps(s: seq<nat>, i: nat, j: nat)
    requires InBytes(s) && Distinct(s) && i < 256 && j < 256
    ensures InBytes(Swapped(s, i, j)) && Distinct(Swapped(s, i, j))
    ensures Swapped(Swapped(s, i, j), i, j) == s
  {
  }

  ghost function Below(n: nat): (s: set<nat>)
    ensures |s| == n && forall k: nat :: k in s <==> k < n
  {
    if n == 0 then {} else Below(n - 1) + {n - 1}
  }

  /** The values at the first n places. */
  ghost function ValuesOf(s: seq<nat>, n: nat): set<nat>
    requires n <= |s|
  {
    if n == 0 then {} else ValuesOf(s, n - 1) + {s[n - 1]}
  }

  lemma {:induction false} ValuesIn(s: seq<nat>, n: nat, v: nat)
    requires n <= |s|
    ensures v in ValuesOf(s, n) <==> v in s[..n]
  {
    if n > 0 {
      ValuesIn(s, n - 1, v);
      assert s[..n] == s[..n - 1] + [s[n - 1]];
    }
  }

  lemma {:induction false} ValuesCount(s: seq<nat>, n: nat)
    requires Distinct(s) && n <= |s|
    ensures |ValuesOf(s, n)| == n
  {
    if n > 0 {
      ValuesCount(s, n - 1);
      ValuesIn(s, n - 1, s[n - 1]);
      assert s[n - 1] !in s[..n - 1];
    }
  }

  /** Each byte value is in the table, so that nothing is ever lost from it. */
  lemma EveryByteIsThere(r: Rs, b: nat)
    requires IsPermutation(r) && b < 256
    ensures b in r.s
  {
    hide ValuesOf, Below;
    var n := |r.s|;
    ValuesCount(r.s, n);
    assert r.s[..n] == r.s;
    forall v | v in ValuesOf(r.s, n)
      ensures v in Below(n)
    {
      ValuesIn(r.s, n, v);
    }
    SameSize(ValuesOf(r.s, n), Below(n));
    ValuesIn(r.s, n, b);
  }

  lemma SameSize(a: set<nat>, b: set<nat>)
    requires a <= b && |a| == |b|
    ensures a == b
  {
    assert b == a + (b - a);
    assert |b| == |a| + |b - a|;
  }

  // ---- one step ------------------------------------------------------------

  /** The state after one step, in which x is mixed in. */
  function Step(r: Rs, x: nat): Rs
    requires r.i < 256 && r.j < 256 && InBytes(r.s)
  {
    var i := (r.i + 1) % 256;
    var j := (r.j + r.s[i] + x) % 256;
    Rs(i, j, Swapped(r.s, i, j))
  }

  /** The state before a step in which x was mixed in. */
  function StepBack(r: Rs, x: nat): Rs
    requires r.i < 256 && r.j < 256 && InBytes(r.s) && x < 256
  {
    var s := Swapped(r.s, r.i, r.j);
    Rs((r.i + 255) % 256, (r.j + 512 - s[r.i] - x) % 256, s)
  }

  lemma StepKeeps(r: Rs, x: nat)
    requires IsPermutation(r)
    ensures IsPermutation(Step(r, x))
  {
  }

  lemma InBytesAt(s: seq<nat>, i: nat)
    requires InBytes(s) && i < 256
    ensures |s| == 256 && s[i] < 256
  {
  }

  /** Steps can be undone, so no two states ever run together. */
  lemma StepIsUndone(r: Rs, x: nat)
    requires IsPermutation(r) && x < 256
    ensures IsPermutation(Step(r, x)) && StepBack(Step(r, x), x) == r
  {
    hide Swapped, InBytes, Distinct;
    StepKeeps(r, x);
    InBytesAt(r.s, (r.i + 1) % 256);
    var t := Step(r, x);
    SwapKeeps(r.s, t.i, t.j);
    BackIndex(r.i);
    BackAdd(r.j, r.s[t.i], x);
  }

  lemma BackIndex(i: nat)
    requires i < 256
    ensures ((i + 1) % 256 + 255) % 256 == i
  {
  }

  lemma BackAdd(j: nat, a: nat, x: nat)
    requires j < 256 && a < 256 && x < 256
    ensures ((j + a + x) % 256 + 512 - a - x) % 256 == j
  {
  }

  // ---- the generator -------------------------------------------------------

  /** The state after n steps that mix in the bytes of dat over and over. */
  function MixedIn(r: Rs, dat: seq<nat>, n: nat): (t: Rs)
    requires r.i < 256 && r.j < 256 && InBytes(r.s) && dat != []
    ensures t.i < 256 && t.j < 256 && InBytes(t.s)
  {
    if n == 0 then r
    else
      var t := MixedIn(r, dat, n - 1);
      StepInRange(t, dat[(n - 1) % |dat|]);
      Step(t, dat[(n - 1) % |dat|])
  }

  lemma StepInRange(r: Rs, x: nat)
    requires r.i < 256 && r.j < 256 && InBytes(r.s)
    ensures InBytes(Step(r, x).s)
  {
  }

  lemma {:induction false} MixingKeeps(r: Rs, dat: seq<nat>, n: nat)
    requires IsPermutation(r) && dat != []
    ensures IsPermutation(MixedIn(r, dat, n))
  {
    hide Step, IsPermutation;
    if n > 0 {
      MixingKeeps(r, dat, n - 1);
      PermutationRange(r);
      PermutationRange(MixedIn(r, dat, n - 1));
      StepKeeps(MixedIn(r, dat, n - 1), dat[(n - 1) % |dat|]);
    }
  }

  lemma PermutationRange(r: Rs)
    requires IsPermutation(r)
    ensures r.i < 256 && r.j < 256 && InBytes(r.s)
  {
  }

  /** The state that mixing in the bytes of dat leads to. */
  function Stirred(r: Rs, dat: seq<nat>): Rs
    requires r.i < 256 && r.j < 256 && InBytes(r.s) && dat != []
  {
    var t := MixedIn(Rs((r.i + 255) % 256, r.j, r.s), dat, 256);
    t.(j := t.i)
  }

  /** The state n steps later. */
  function Later(r: Rs, n: nat): (t: Rs)
    requires r.i < 256 && r.j < 256 && InBytes(r.s)
    ensures t.i < 256 && t.j < 256 && InBytes(t.s)
  {
    if n == 0 then r
    else
      StepInRange(Later(r, n - 1), 0);
      Step(Later(r, n - 1), 0)
  }

  /** The byte that a step to the state r gives. */
  function Output(r: Rs): nat
    requires r.i < 256 && r.j < 256 && InBytes(r.s)
  {
    r.s[(r.s[r.i] + r.s[r.j]) % 256]
  }

  /** The number that the next four bytes make. */
  function Word(r: Rs): nat
    requires r.i < 256 && r.j < 256 && InBytes(r.s)
  {
    Output(Later(r, 1)) * 0x100_0000 + Output(Later(r, 2)) * 0x1_0000 + Output(Later(r, 3)) * 0x100 + Output(Later(r, 4))
  }

  ghost function Identity(): Rs {
    Rs(0, 0, seq(256, k requires 0 <= k < 256 => k))
  }

  /** One step without wrap-around, when the places i and j hold a and b, and the place that is read holds c. */
  lemma NextByte(r: Rs, n: nat, s: seq<nat>, i: nat, j: nat, a: nat, b: nat, c: nat)
    requires r.i < 256 && r.j < 256 && InBytes(r.s) && InBytes(s)
    requires 0 < i < 256 && a <= j < 256 && Later(r, n) == Rs(i - 1, j - a, s) && s[i] == a && s[j] == b
    requires a + b < 256 && s[i := b][j := a][a + b] == c
    ensures InBytes(s[i := b][j := a])
    ensures Later(r, n + 1) == Rs(i, j, s[i := b][j := a]) && Output(Later(r, n + 1)) == c
  {
    assert Later(r, n + 1) == Step(Rs(i - 1, j - a, s), 0);
    hide Later;
    StepIs(s, i, j, a, b);
    OutputIs(Rs(i, j, s[i := b][j := a]), a, b);
  }

  lemma StepIs(s: seq<nat>, i: nat, j: nat, a: nat, b: nat)
    requires InBytes(s) && 0 < i < 256 && a <= j < 256 && s[i] == a && s[j] == b
    ensures Step(Rs(i - 1, j - a, s), 0) == Rs(i, j, s[i := b][j := a]) && InBytes(s[i := b][j := a])
  {
    Fits(i);
    Fits(j);
    assert (i - 1) + 1 == i && (j - a) + s[i] + 0 == j;
  }

  lemma Fits(x: nat)
    requires x < 256
    ensures x % 256 == x
  {
  }

  lemma OutputIs(r: Rs, a: nat, b: nat)
    requires r.i < 256 && r.j < 256 && InBytes(r.s) && r.s[r.i] == b && r.s[r.j] == a && a + b < 256
    ensures Output(r) == r.s[a + b]
  {
    Fits(a + b);
  }

  /** From the identity, the first four steps exchange 1 with itself, 2 with 3, 3 with 5 and 4 with 9. */
  lemma FirstBytes()
    ensures var r := Identity();
            && r.i < 256 && r.j < 256 && InBytes(r.s)
            && Output(Later(r, 1)) == 2 && Output(Later(r, 2)) == 5
            && Output(Later(r, 3)) == 7 && Output(Later(r, 4)) == 13
            && Word(r) == 0x0205_070D
  {
    var r := Identity();
    var s := r.s;
    assert |s| == 256 && forall k | 0 <= k < 256 :: s[k] == k;
    assert Later(r, 0) == r;
    hide Later, Output, Identity;
    NextByte(r, 0, s, 1, 1, 1, 1, 2);
    var s1 := s[1 := 1][1 := 1];
    NextByte(r, 1, s1, 2, 3, 2, 3, 5);
    var s2 := s1[2 := 3][3 := 2];
    NextByte(r, 2, s2, 3, 5, 2, 5, 7);
    var s3 := s2[3 := 5][5 := 2];
    NextByte(r, 3, s3, 4, 9, 4, 9, 13);
  }

  const STIR_COUNT: int := 1600000

  class Generator {
    var i: nat
    var j: nat
    const s: array<nat>
    var initialized: bool
    var stirPid: int
    var count: int

    ghost function State(): Rs
      reads this, s
    {
      Rs(i, j, s[..])
    }

    /** Once set up, the table is a permutation. */
    ghost predicate Valid()
      reads this, s
    {
      s.Length == 256 && (initialized ==> IsPermutation(State()))
    }

    constructor ()
      ensures Valid() && !initialized && fresh(s)
    {
      s := new nat[256](_ => 0);
      i, j, initialized, stirPid, count := 0, 0, false, 0, 0;
    }

    method Init()
      requires s.Length == 256
      modifies this`i, this`j, s
      ensures IsPermutation(State()) && State() == Identity()
    {
      var n := 0;
      while n < 256
        invariant 0 <= n <= 256 && forall k | 0 <= k < n :: s[k] == k
      {
        s[n] := n;
        n := n + 1;
      }
      i, j := 0, 0;
    }

    /** Exchanges two places of the table. */
    method Exchange(a: nat, b: nat)
      requires s.Length == 256 && a < 256 && b < 256
      modifies s
      ensures s[..] == Swapped(old(s[..]), a, b)
    {
      var sa := s[a];
      s[a] := s[b];
      s[b] := sa;
    }

    method AddRandom(dat: seq<nat>)
      requires s.Length == 256 && IsPermutation(State()) && dat != []
      modifies this`i, this`j, s
      ensures IsPermutation(State()) && State() == Stirred(old(State()), dat)
    {
      hide Step, Distinct, Swapped;
      i := (i + 255) % 256;
      ghost var r0 := State();
      var n := 0;
      while n < 256
        invariant 0 <= n <= 256 && IsPermutation(r0) && State() == MixedIn(r0, dat, n)
      {
        i := (i + 1) % 256;
        MixStep(r0, dat, n);
        InBytesAt(s[..], i);
        var si := s[i];
        j := (j + si + dat[n % |dat|]) % 256;
        Exchange(i, j);
        n := n + 1;
      }
      MixingKeeps(r0, dat, 256);
      j := i;
    }

    /** The next byte of the stream. */
    method GetByte() returns (b: nat)
      requires s.Length == 256 && IsPermutation(State())
      modifies this`i, this`j, s
      ensures IsPermutation(State()) && State() == Step(old(State()), 0)
      ensures b == Output(State()) < 256
    {
      StepKeeps(State(), 0);
      i := (i + 1) % 256;
      var si := s[i];
      j := (j + si) % 256;
      var sj := s[j];
      Exchange(i, j);
      b := s[(si + sj) % 256];
    }

    /** Mixes in what the system's source of randomness gave, and throws away the first bytes. */
    method Stir(rdat: seq<nat>, pid: int)
      requires Valid() && |rdat| == 128
      modifies this, s
      ensures Valid() && initialized && count == STIR_COUNT && stirPid == pid
      ensures State() == Later(Stirred(if old(initialized) then old(State()) else Identity(), rdat), 256)
    {
      hide IsPermutation, Step, Stirred, Identity;
      if !initialized {
        Init();
        initialized := true;
      }
      stirPid := pid;
      PermutationRange(State());
      AddRandom(rdat);
      ghost var r := State();
      PermutationRange(r);
      var n := 0;
      while n < 256
        invariant 0 <= n <= 256 && s.Length == 256 && IsPermutation(State()) && initialized && stirPid == pid
        invariant State() == Later(r, n)
      {
        var b := GetByte();
        n := n + 1;
      }
      count := STIR_COUNT;
    }

    /** Four bytes as a 32-bit number. */
    method Random(rdat: seq<nat>, pid: int) returns (val: nat)
      requires Valid() && |rdat| == 128
      modifies this, s
      ensures Valid() && initialized && val < 0x1_0000_0000 && stirPid == pid && count > 0
      ensures var r := if old(count) - 4 <= 0 || !old(initialized) || old(stirPid) != pid
                       then Later(Stirred(if old(initialized) then old(State()) else Identity(), rdat), 256)
                       else old(State());
              val == Word(r) && State() == Later(r, 4)
      ensures count == if old(count) - 4 <= 0 || !old(initialized) || old(stirPid) != pid then STIR_COUNT else old(count) - 4
    {
      hide IsPermutation, Step, Stirred, Identity, Output;
      count := count - 4;
      if count <= 0 || !initialized || stirPid != pid {
        Stir(rdat, pid);
      }
      ghost var r := State();
      PermutationRange(r);
      assert Later(r, 0) == r;
      assert Later(r, 1) == Step(Later(r, 0), 0) && Later(r, 2) == Step(Later(r, 1), 0);
      assert Later(r, 3) == Step(Later(r, 2), 0) && Later(r, 4) == Step(Later(r, 3), 0);
      var b0 := GetByte();
      var b1 := GetByte();
      var b2 := GetByte();
      var b3 := GetByte();
      val := b0 * 0x100_0000 + b1 * 0x1_0000 + b2 * 0x100 + b3;
    }
  }

  lemma MixStep(r: Rs, dat: seq<nat>, n: nat)
    requires IsPermutation(r) && dat != []
    ensures var t := MixedIn(r, dat, n);
            var i := (t.i + 1) % 256;
            var j := (t.j + t.s[i] + dat[n % |dat|]) % 256;
            MixedIn(r, dat, n + 1) == Rs(i, j, Swapped(t.s, i, j))
  {
  }

  // ---- numbers below a bound -----------------------------------------------

  const WORD: nat := 0x1_0000_0000

  /** 32-bit unsigned arithmetic. */
  function Wrap(x: int): (w: nat)
    ensures w < WORD
  {
    x % WORD
  }

  /** The words below this one are thrown away, computed without 64-bit arithmetic. */
  function MinAccepted(bound: nat): nat
    requires 2 <= bound < WORD
  {
    if bound > 0x8000_0000 then Wrap(1 + (WORD - 1 - bound))
    else Wrap(Wrap(0xffff_ffff - Wrap(bound * 2)) + 1) % bound
  }

  lemma MinIsRemainder(bound: nat)
    requires 2 <= bound < WORD
    ensures MinAccepted(bound) == WORD % bound
  {
    if bound > 0x8000_0000 {
      LargeBound(bound);
    } else {
      SmallBound(bound);
    }
  }

  lemma LargeBound(bound: nat)
    requires 0x8000_0000 < bound < WORD
    ensures MinAccepted(bound) == WORD % bound
  {
    var x := WORD - bound;
    assert Wrap(1 + (WORD - 1 - bound)) == x;
    Unique(WORD, bound, 1, x);
  }

  lemma SmallBound(bound: nat)
    requires 2 <= bound <= 0x8000_0000
    ensures MinAccepted(bound) == WORD % bound
  {
    var x := Wrap(Wrap(0xffff_ffff - Wrap(bound * 2)) + 1);
    if bound == 0x8000_0000 {
      assert x == 0;
    } else {
      assert x == WORD - 2 * bound;
      Unique(WORD, bound, x / bound + 2, x % bound);
    }
  }

  lemma Unique(x: nat, d: nat, q: int, r: int)
    requires 0 < d && x == d * q + r && 0 <= r < d
    ensures x % d == r && x / d == q
  {
    var q', r' := x / d, x % d;
    if q < q' {
      Larger(d, q, q');
    } else if q' < q {
      Larger(d, q', q);
    }
  }

  lemma Larger(d: nat, q: int, q': int)
    requires q < q'
    ensures d * q + d <= d * q'
  {
    assert d * q' == d * q + d * (q' - q);
    AtLeast(d, q' - q);
  }

  lemma AtLeast(d: nat, k: int)
    requires k >= 1
    ensures d * k >= d
  {
  }

  /** More than half of all words are accepted, whatever the bound. */
  lemma MostAreAccepted(bound: nat)
    requires 2 <= bound < WORD
    ensures 2 * (WORD - MinAccepted(bound)) > WORD
  {
  }

  /** The words from a on, n times d of them, that leave the remainder k. */
  ghost function Preimages(a: nat, n: nat, d: nat, k: nat): set<nat>
    requires d > 0
  {
    if n == 0 then {} else Preimages(a, n - 1, d, k) + {Leaving(Along(a, n - 1, d), d, k)}
  }

  function Along(a: nat, n: nat, d: nat): nat {
    a + n * d
  }

  predicate Leaves(r: nat, d: nat, k: nat)
    requires d > 0
  {
    r % d == k
  }

  /** The number from a on, below a + d, that leaves the remainder k. */
  function Leaving(a: nat, d: nat, k: nat): nat
    requires d > 0
  {
    if a % d <= k then a - a % d + k else a - a % d + d + k
  }

  lemma LeavingHas(a: nat, d: nat, k: nat) returns (q: int)
    requires k < d
    ensures a <= Leaving(a, d, k) < a + d && Leaves(Leaving(a, d, k), d, k) && Leaving(a, d, k) == d * q + k
  {
    q := if a % d <= k then a / d else a / d + 1;
    MulStep(d, a / d);
    Unique(Leaving(a, d, k), d, q, k);
  }

  lemma OneInReach(d: nat, p: int, q: int)
    requires d * q < d * p + d && d * p < d * q + d
    ensures p == q
  {
    if p < q {
      Larger(d, p, q);
    } else if q < p {
      Larger(d, q, p);
    }
  }

  lemma LeavingIs(a: nat, d: nat, k: nat, r: nat)
    requires k < d && a <= r < a + d
    ensures a <= Leaving(a, d, k) < a + d
    ensures Leaves(r, d, k) <==> r == Leaving(a, d, k)
  {
    hide Leaving;
    var q := LeavingHas(a, d, k);
    if Leaves(r, d, k) {
      OneInReach(d, r / d, q);
    }
  }

  lemma MulStep(d: nat, q: int)
    ensures d * (q + 1) == d * q + d
  {
  }

  lemma AlongStep(a: nat, n: nat, d: nat)
    ensures Along(a, n + 1, d) == Along(a, n, d) + d && Along(a, 0, d) == a <= Along(a, n, d)
  {
  }

  /** Each remainder is left by exactly one word in every d. */
  lemma {:induction false} PreimagesAre(a: nat, n: nat, d: nat, k: nat)
    requires k < d
    ensures |Preimages(a, n, d, k)| == n
    ensures forall r: nat :: r in Preimages(a, n, d, k) <==> a <= r < Along(a, n, d) && Leaves(r, d, k)
  {
    hide Along, Leaves, Leaving;
    AlongStep(a, 0, d);
    if n > 0 {
      PreimagesAre(a, n - 1, d, k);
      var b := Along(a, n - 1, d);
      AlongStep(a, n - 1, d);
      LeavingIs(b, d, k, b);
      forall r: nat
        ensures r in Preimages(a, n, d, k) <==> a <= r < Along(a, n, d) && Leaves(r, d, k)
      {
        if b <= r < b + d {
          LeavingIs(b, d, k, r);
        }
      }
    }
  }

  /** For every bound, each result has exactly floor(2^32 / bound) accepted words. */
  lemma AllEquallyLikely(bound: nat, k: nat)
    requires 2 <= bound < WORD && k < bound
    ensures var accepted := Preimages(MinAccepted(bound), WORD / bound, bound, k);
            && |accepted| == WORD / bound
            && forall r: nat :: r in accepted <==> MinAccepted(bound) <= r < WORD && r % bound == k
  {
    hide MinAccepted, Preimages;
    MinIsRemainder(bound);
    PreimagesAre(MinAccepted(bound), WORD / bound, bound, k);
    Commute(bound, WORD / bound);
  }

  lemma Commute(a: int, b: int)
    ensures a * b == b * a
  {
  }

  datatype Option<T> = None | Some(value: T)

  /** The first accepted word of the stream gives the result; None while there is none among them. */
  method Uniform(bound: nat, words: seq<nat>) returns (r: Option<nat>)
    requires bound < WORD && forall i | 0 <= i < |words| :: words[i] < WORD
    ensures bound < 2 ==> r == Some(0)
    ensures bound >= 2 && r.None? ==> forall i | 0 <= i < |words| :: words[i] < WORD % bound
    ensures bound >= 2 && r.Some? ==>
              exists i :: && 0 <= i < |words| && WORD % bound <= words[i] && r.value == words[i] % bound < bound
                          && forall k | 0 <= k < i :: words[k] < WORD % bound
  {
    if bound < 2 {
      return Some(0);
    }
    hide MinAccepted;
    MinIsRemainder(bound);
    var min := MinAccepted(bound);
    var i := 0;
    while i < |words|
      invariant 0 <= i <= |words| && forall k | 0 <= k < i :: words[k] < min
    {
      if words[i] >= min {
        return Some(words[i] % bound);
      }
      i := i + 1;
    }
    r := None;
  }
}
