/**
 The walk itself: one call at a time, over nodes that are linked to their next sibling
 and to their parent, allocated when a directory is read and freed as they are passed.
 */
module Fts {

  import opened FileTrees
  import opened FtsLevels
  import P = FtsPaths

  /** A node for an entry; name is the name it shows, which may be cut, and pathlen the length of its path. */
  datatype Node = Node(entry: Entry, info: Info, level: int, parent: int, link: int, pathlen: nat, name: string)

  type Heap = map<int, Node>

  const ROOTPARENTLEVEL: int := -1
  const ROOTLEVEL: int := 0
  const MAXLEVEL: int := 0x7fff

  // ---- how nodes make up levels --------------------------------------------

  /** Levels are numbered from 0, but the number stops growing at a limit. */
  function LevelNumber(k: int): int {
    if k < MAXLEVEL then k else MAXLEVEL
  }

  function LinkOf(l: seq<Item>, j: nat): int {
    if j + 1 < |l| then l[j + 1].ptr else 0
  }

  function ParentOf(root: int, levels: Levels, k: nat): int
    requires k <= |levels| && forall i | 0 <= i < |levels| :: |levels[i]| > 0
  {
    if k == 0 then root else levels[k - 1][0].ptr
  }

  predicate Place(levels: Levels, k: int, j: int) {
    0 <= k < |levels| && 0 <= j < |levels[k]|
  }

  /** The node of item j on level k. */
  ghost predicate NodeOk(heap: Heap, root: int, levels: Levels, k: int, j: int)
    requires Place(levels, k, j) && AllNonEmpty(levels)
  {
    var x := levels[k][j];
    && x.ptr in heap && x.ptr > 0 && x.ptr != root
    && heap[x.ptr].entry == x.entry && heap[x.ptr].info == x.info && heap[x.ptr].link == LinkOf(levels[k], j)
    && heap[x.ptr].level == LevelNumber(k)
    && (x.info != INIT ==> heap[x.ptr].parent == ParentOf(root, levels, k))
  }

  ghost predicate NodesOk(heap: Heap, root: int, levels: Levels) {
    && AllNonEmpty(levels)
    && (forall k, j | Place(levels, k, j) :: NodeOk(heap, root, levels, k, j))
    && root in heap && heap[root].level == ROOTPARENTLEVEL && root > 0
  }

  /** No node is in two places. */
  ghost predicate OnePlace(levels: Levels) {
    forall k, j, k', j' | Place(levels, k, j) && Place(levels, k', j') && levels[k][j].ptr == levels[k'][j'].ptr ::
      k == k' && j == j'
  }

  /** All nodes that are allocated are in some place. */
  ghost predicate NoneLost(heap: Heap, root: int, levels: Levels) {
    forall p | p in heap :: p == root || exists k, j :: Place(levels, k, j) && levels[k][j].ptr == p
  }

  ghost predicate HeapOk(heap: Heap, root: int, levels: Levels) {
    NodesOk(heap, root, levels) && OnePlace(levels) && NoneLost(heap, root, levels)
  }

  // ---- going on to the next entry ------------------------------------------

  /** The place on the next levels of what was at (k, j) before. */
  lemma NextPlaces(levels: Levels)
    requires levels != [] && |Last(levels)| > 1
    ensures var n, levels' := |levels|, OnNext(levels);
            && |levels'| == n
            && (forall k | 0 <= k < n - 1 :: levels'[k] == levels[k])
            && levels'[n - 1] == levels[n - 1][1..]
  {
  }

  lemma NextNodes(heap: Heap, root: int, levels: Levels)
    requires HeapOk(heap, root, levels) && levels != [] && |Last(levels)| > 1
    ensures NodesOk(heap - {Cur(levels).ptr}, root, OnNext(levels))
  {
    hide NoneLost;
    var n, levels' := |levels|, OnNext(levels);
    NextPlaces(levels);
    var p := Cur(levels).ptr;
    assert Place(levels, n - 1, 0) && NodeOk(heap, root, levels, n - 1, 0);
    forall k, j | Place(levels', k, j)
      ensures NodeOk(heap - {p}, root, levels', k, j)
    {
      var i := if k == n - 1 then j + 1 else j;
      assert Place(levels, k, i) && NodeOk(heap, root, levels, k, i);
      assert levels'[k][j] == levels[k][i];
    }
  }

  lemma NextOnePlace(levels: Levels)
    requires OnePlace(levels) && levels != [] && |Last(levels)| > 1
    ensures OnePlace(OnNext(levels))
  {
  }

  lemma NextNoneLost(heap: Heap, root: int, levels: Levels)
    requires NoneLost(heap, root, levels) && levels != [] && |Last(levels)| > 1
    ensures NoneLost(heap - {Cur(levels).ptr}, root, OnNext(levels))
  {
    var n, levels' := |levels|, OnNext(levels);
    NextPlaces(levels);
    forall p | p in heap && p != Cur(levels).ptr && p != root
      ensures exists k, j :: Place(levels', k, j) && levels'[k][j].ptr == p
    {
      var k, j :| Place(levels, k, j) && levels[k][j].ptr == p;
      var i := if k == n - 1 then j - 1 else j;
      assert Place(levels', k, i) && levels'[k][i] == levels[k][j];
    }
  }

  lemma NextHeap(heap: Heap, root: int, levels: Levels)
    requires HeapOk(heap, root, levels) && levels != [] && |Last(levels)| > 1
    ensures HeapOk(heap - {Cur(levels).ptr}, root, OnNext(levels))
  {
    hide NodesOk, OnePlace, NoneLost;
    NextNodes(heap, root, levels);
    NextOnePlace(levels);
    NextNoneLost(heap, root, levels);
  }

  // ---- leaving a directory -------------------------------------------------

  lemma LeavePlaces(levels: Levels)
    requires levels != [] && |Last(levels)| > 0
    ensures var n, levels' := |levels|, OnLeave(levels);
            && |levels'| == n
            && (forall k | 0 <= k < n - 1 :: levels'[k] == levels[k])
            && levels'[n - 1] == levels[n - 1][0 := levels[n - 1][0].(info := DP)]
  {
  }

  function Marked(heap: Heap, p: int): Heap
    requires p in heap
  {
    heap[p := heap[p].(info := DP)]
  }

  lemma LeaveHeap(heap: Heap, root: int, levels: Levels)
    requires HeapOk(heap, root, levels) && levels != [] && |Last(levels)| > 0 && Cur(levels).info != INIT
    ensures Cur(levels).ptr in heap && HeapOk(Marked(heap, Cur(levels).ptr), root, OnLeave(levels))
  {
    var n, levels' := |levels|, OnLeave(levels);
    LeavePlaces(levels);
    var p := Cur(levels).ptr;
    assert Place(levels, n - 1, 0) && NodeOk(heap, root, levels, n - 1, 0);
    var heap' := Marked(heap, p);
    forall k, j | Place(levels', k, j)
      ensures NodeOk(heap', root, levels', k, j) && levels'[k][j].ptr == levels[k][j].ptr && Place(levels, k, j)
    {
      assert Place(levels, k, j) && NodeOk(heap, root, levels, k, j);
    }
    forall q | q in heap' && q != root
      ensures exists k, j :: Place(levels', k, j) && levels'[k][j].ptr == q
    {
      var k, j :| Place(levels, k, j) && levels[k][j].ptr == q;
      assert Place(levels', k, j) && levels'[k][j].ptr == q;
    }
  }

  lemma UpHeap(heap: Heap, root: int, levels: Levels)
    requires HeapOk(heap, root, levels) && levels != [] && |Last(levels)| == 1
    ensures HeapOk(heap - {Cur(levels).ptr}, root, Pre(levels))
  {
    var n, pre := |levels|, Pre(levels);
    var p := Cur(levels).ptr;
    assert Place(levels, n - 1, 0) && NodeOk(heap, root, levels, n - 1, 0);
    forall k, j | Place(pre, k, j)
      ensures NodeOk(heap - {p}, root, pre, k, j) && Place(levels, k, j)
    {
      assert Place(levels, k, j) && NodeOk(heap, root, levels, k, j);
    }
    forall q | q in heap - {p} && q != root
      ensures exists k, j :: Place(pre, k, j) && pre[k][j].ptr == q
    {
      var k, j :| Place(levels, k, j) && levels[k][j].ptr == q;
      assert Place(pre, k, j) && pre[k][j].ptr == q;
    }
  }

  // ---- entering a directory ------------------------------------------------

  /** The nodes that were there before are as they were. */
  ghost predicate OldKept(heap0: Heap, heap: Heap, next0: int) {
    forall p | p in heap0 :: 0 < p < next0 && p in heap && heap[p] == heap0[p]
  }

  /** All other nodes are those of items. */
  ghost predicate Accounted(heap0: Heap, heap: Heap, next: int, items: seq<Item>) {
    forall p | p in heap :: 0 < p < next && (p in heap0 || exists j :: 0 <= j < |items| && items[j].ptr == p)
  }

  /** How long the path of an entry is; what a walk starts from has none yet. */
  function PathLen(base: nat, e: Entry): nat {
    if base == 0 then 0 else base + |e.name|
  }

  /** The nodes of items are linked in their order. */
  ghost predicate Chained(heap: Heap, items: seq<Item>, parent: int, level: int, base: nat) {
    forall j | 0 <= j < |items| ::
      && items[j].ptr in heap
      && heap[items[j].ptr]
         == Node(items[j].entry, items[j].info, level, parent, LinkOf(items, j), PathLen(base, items[j].entry),
                 items[j].entry.name)
  }

  ghost predicate Rising(items: seq<Item>, next0: int, next: int) {
    && (forall j | 0 <= j < |items| :: next0 <= items[j].ptr < next)
    && (forall i, j | 0 <= i < j < |items| :: items[i].ptr < items[j].ptr)
  }

  /** The nodes of items, in order, among those allocated since next0; the older ones are as in heap0. */
  ghost predicate Building(heap0: Heap, heap: Heap, next0: int, next: int, items: seq<Item>, parent: int, level: int,
                           base: nat) {
    && 0 < next0 <= next && OldKept(heap0, heap, next0) && Accounted(heap0, heap, next, items)
    && Chained(heap, items, parent, level, base) && Rising(items, next0, next)
  }

  /** A node is added at the end of the list, whose last node gets its link. */
  function Linked(heap: Heap, tail: int, p: int, x: Node): Heap
    requires tail == 0 || tail in heap
  {
    var heap' := heap[p := x];
    if tail == 0 then heap' else heap'[tail := heap[tail].(link := p)]
  }

  function TailOf(items: seq<Item>): int {
    if items == [] then 0 else items[|items| - 1].ptr
  }

  lemma TailThere(heap: Heap, items: seq<Item>, parent: int, level: int, base: nat, next0: int, next: int)
    requires Chained(heap, items, parent, level, base) && Rising(items, next0, next) && 0 < next0
    ensures TailOf(items) == 0 || (TailOf(items) in heap && next0 <= TailOf(items) < next)
  {
  }

  lemma AccountedAdd(heap0: Heap, heap: Heap, next: int, items: seq<Item>, tail: int, x: Item, node: Node)
    requires Accounted(heap0, heap, next, items) && x.ptr == next > 0 && (tail == 0 || tail in heap)
    ensures Accounted(heap0, Linked(heap, tail, next, node), next + 1, items + [x])
  {
    var items' := items + [x];
    var heap' := Linked(heap, tail, next, node);
    forall p | p in heap'
      ensures 0 < p < next + 1 && (p in heap0 || exists j :: 0 <= j < |items'| && items'[j].ptr == p)
    {
      if p == next {
        assert items'[|items|].ptr == p;
      } else if p !in heap0 {
        var j :| 0 <= j < |items| && items[j].ptr == p;
        assert items'[j].ptr == p;
      }
    }
  }

  /** The node of an item that is the last of its list. */
  function NewNode(x: Item, parent: int, level: int, base: nat): Node {
    Node(x.entry, x.info, level, parent, 0, PathLen(base, x.entry), x.entry.name)
  }

  lemma ChainedAdd(heap: Heap, items: seq<Item>, parent: int, level: int, base: nat, next0: int, next: int, x: Item)
    requires Chained(heap, items, parent, level, base) && Rising(items, next0, next) && 0 < next0 && x.ptr == next
    requires TailOf(items) == 0 || TailOf(items) in heap
    ensures Chained(Linked(heap, TailOf(items), next, NewNode(x, parent, level, base)), items + [x], parent, level, base)
  {
    hide PathLen;
    var heap', items' := Linked(heap, TailOf(items), next, NewNode(x, parent, level, base)), items + [x];
    forall j | 0 <= j < |items'|
      ensures items'[j].ptr in heap'
      ensures heap'[items'[j].ptr]
           == Node(items'[j].entry, items'[j].info, level, parent, LinkOf(items', j), PathLen(base, items'[j].entry),
                   items'[j].entry.name)
    {
      if j < |items| {
        assert items'[j] == items[j];
        assert items[j].ptr == TailOf(items) <==> j == |items| - 1;
      }
    }
  }

  lemma OldKeptAdd(heap0: Heap, heap: Heap, next0: int, next: int, tail: int, node: Node)
    requires OldKept(heap0, heap, next0) && next0 <= next && (tail == 0 || (tail in heap && next0 <= tail)) && 0 < next0
    ensures OldKept(heap0, Linked(heap, tail, next, node), next0)
  {
  }

  lemma RisingAdd(items: seq<Item>, next0: int, next: int, x: Item)
    requires Rising(items, next0, next) && x.ptr == next >= next0
    ensures Rising(items + [x], next0, next + 1)
  {
  }

  lemma BuildingAdd(heap0: Heap, heap: Heap, next0: int, next: int, items: seq<Item>, parent: int, level: int,
                    base: nat, x: Item)
    requires Building(heap0, heap, next0, next, items, parent, level, base) && x.ptr == next
    ensures TailOf(items) == 0 || TailOf(items) in heap
    ensures Building(heap0, Linked(heap, TailOf(items), next, NewNode(x, parent, level, base)), next0, next + 1,
                     items + [x], parent, level, base)
  {
    hide TailOf, Accounted, Chained, NewNode, OldKept, Rising, Linked;
    TailThere(heap, items, parent, level, base, next0, next);
    OldKeptAdd(heap0, heap, next0, next, TailOf(items), NewNode(x, parent, level, base));
    RisingAdd(items, next0, next, x);
    AccountedAdd(heap0, heap, next, items, TailOf(items), x, NewNode(x, parent, level, base));
    ChainedAdd(heap, items, parent, level, base, next0, next, x);
  }

  lemma DownNodes(heap0: Heap, heap: Heap, root: int, levels: Levels, next0: int, items: seq<Item>, base: nat)
    requires NodesOk(heap0, root, levels) && levels != [] && items != [] && OldKept(heap0, heap, next0)
    requires Chained(heap, items, Cur(levels).ptr, LevelNumber(|levels|), base) && 0 < next0
    requires forall j | 0 <= j < |items| :: next0 <= items[j].ptr
    ensures NodesOk(heap, root, levels + [items])
  {
    var n, levels' := |levels|, levels + [items];
    forall k, j | Place(levels', k, j)
      ensures NodeOk(heap, root, levels', k, j)
    {
      if k < n {
        assert Place(levels, k, j) && NodeOk(heap0, root, levels, k, j);
      }
    }
  }

  lemma DownOnePlace(heap0: Heap, heap: Heap, root: int, levels: Levels, next0: int, next: int, items: seq<Item>)
    requires NodesOk(heap0, root, levels) && OnePlace(levels) && OldKept(heap0, heap, next0) && Rising(items, next0, next)
    ensures OnePlace(levels + [items])
  {
    var n, levels' := |levels|, levels + [items];
    forall k, j, k', j' | Place(levels', k, j) && Place(levels', k', j') && levels'[k][j].ptr == levels'[k'][j'].ptr
      ensures k == k' && j == j'
    {
      if k < n {
        assert Place(levels, k, j) && NodeOk(heap0, root, levels, k, j);
      }
      if k' < n {
        assert Place(levels, k', j') && NodeOk(heap0, root, levels, k', j');
      }
    }
  }

  lemma DownNoneLost(heap0: Heap, heap: Heap, root: int, levels: Levels, next: int, items: seq<Item>)
    requires NoneLost(heap0, root, levels) && Accounted(heap0, heap, next, items)
    ensures NoneLost(heap, root, levels + [items])
  {
    var n, levels' := |levels|, levels + [items];
    forall p | p in heap && p != root
      ensures exists k, j :: Place(levels', k, j) && levels'[k][j].ptr == p
    {
      if p in heap0 {
        var k, j :| Place(levels, k, j) && levels[k][j].ptr == p;
        assert Place(levels', k, j) && levels'[k][j].ptr == p;
      } else {
        var j :| 0 <= j < |items| && items[j].ptr == p;
        assert Place(levels', n, j) && levels'[n][j].ptr == p;
      }
    }
  }

  lemma DownHeap(heap0: Heap, heap: Heap, root: int, levels: Levels, next0: int, next: int, items: seq<Item>, base: nat)
    requires HeapOk(heap0, root, levels) && levels != [] && AllNonEmpty(levels) && items != []
    requires Building(heap0, heap, next0, next, items, Cur(levels).ptr, LevelNumber(|levels|), base)
    ensures HeapOk(heap, root, levels + [items])
  {
    hide NodesOk, OnePlace, NoneLost, OldKept, Accounted, Chained;
    DownNodes(heap0, heap, root, levels, next0, items, base);
    DownOnePlace(heap0, heap, root, levels, next0, next, items);
    DownNoneLost(heap0, heap, root, levels, next, items);
  }

  // ---- ancestors -----------------------------------------------------------

  lemma {:induction false} AncMember(levels: Levels, d: Id)
    requires AllNonEmpty(levels)
    ensures d in AncOf(levels) <==> exists k :: 0 <= k < |levels| && levels[k][0].entry.target == d
    decreases |levels|
  {
    if levels != [] {
      var pre := levels[..|levels| - 1];
      AncMember(pre, d);
      if k :| 0 <= k < |levels| && levels[k][0].entry.target == d {
        assert k < |pre| ==> pre[k] == levels[k];
      }
      if k :| 0 <= k < |pre| && pre[k][0].entry.target == d {
        assert levels[k] == pre[k];
      }
    }
  }

  /** What is found out about a file: what it is, and whether it is a directory that is being walked already. */
  method Stat(fs: Fs, heap: Heap, e: Entry, parent: int, ghost root: int, ghost levels: Levels) returns (info: Info)
    requires EntryOk(fs, e) && NodesOk(heap, root, levels) && parent == ParentOf(root, levels, |levels|)
    requires forall k | 0 <= k < |levels| :: levels[k][0].info != INIT
    ensures info == if fs[e.target].Dir? && IsDot(e.name) then DOT else Classify(fs, e, AncOf(levels), true)
  {
    match fs[e.target] {
      case Other(i) => return i;
      case Dir(_) =>
        if IsDot(e.name) {
          return DOT;
        }
        AncMember(levels, e.target);
        var t := parent;
        ghost var k := |levels|;
        if k > 0 {
          assert Place(levels, k - 1, 0) && NodeOk(heap, root, levels, k - 1, 0);
        }
        while heap[t].level >= ROOTLEVEL
          invariant 0 <= k <= |levels| && t == ParentOf(root, levels, k) && t in heap
          invariant k == 0 <==> heap[t].level < ROOTLEVEL
          invariant forall i | k <= i < |levels| :: levels[i][0].entry.target != e.target
          decreases k
        {
          k := k - 1;
          assert Place(levels, k, 0) && NodeOk(heap, root, levels, k, 0);
          if heap[t].entry.target == e.target {
            return DC;
          }
          t := heap[t].parent;
          if k > 0 {
            assert Place(levels, k - 1, 0) && NodeOk(heap, root, levels, k - 1, 0);
          }
        }
        return D;
    }
  }

  // ---- the stream ----------------------------------------------------------

  /** The entered directories; none of them is the dummy that the walk starts from. */
  lemma {:induction false} EnteredOnly(fs: Fs, levels: Levels)
    requires Shape(fs, levels) && Cur(levels).info != INIT
    ensures forall k | 0 <= k < |levels| :: |levels[k]| > 0 && levels[k][0].info != INIT
    decreases |levels|
  {
    hide AncOf, LevelOk;
    if Pre(levels) != [] {
      EnteredOnly(fs, Pre(levels));
      forall k | 0 <= k < |levels|
        ensures levels[k][0].info != INIT
      {
        assert k < |levels| - 1 ==> levels[k] == Pre(levels)[k];
      }
    }
  }

  /** What the current node says, when it is a directory that was just visited. */
  lemma CurEntered(fs: Fs, levels: Levels)
    requires Shape(fs, levels) && Cur(levels).info == D
    ensures Cur(levels).entry.target in fs && fs[Cur(levels).entry.target].Dir?
    ensures EntryOk(fs, Cur(levels).entry)
  {
  }

  lemma EntryThere(fs: Fs, e: Entry)
    requires EntryOk(fs, e)
    ensures e.target in fs && (Classify(fs, e, {}, true) == D ==> fs[e.target].Dir?)
    ensures fs[e.target].Other? ==> fs[e.target].info in {F, SL, DEFAULT}
  {
  }

  lemma CurFacts(fs: Fs, heap: Heap, root: int, levels: Levels)
    requires Shape(fs, levels) && HeapOk(heap, root, levels)
    ensures levels != [] && AllNonEmpty(levels) && NodesOk(heap, root, levels)
    ensures var x := Cur(levels);
            && x.ptr in heap && x.ptr > 0 && x.ptr != root && heap[x.ptr].entry == x.entry && heap[x.ptr].info == x.info
            && heap[x.ptr].level == LevelNumber(|levels| - 1) && heap[x.ptr].link == LinkOf(Last(levels), 0)
            && (x.info != INIT ==> heap[x.ptr].parent == ParentOf(root, levels, |levels| - 1))
  {
    hide OnePlace, NoneLost, AncOf, LevelOk;
    assert Place(levels, |levels| - 1, 0) && NodeOk(heap, root, levels, |levels| - 1, 0);
  }

  lemma BuildingNothing(heap: Heap, next: int, parent: int, level: int, base: nat)
    requires next > 0 && forall p | p in heap :: 0 < p < next
    ensures Building(heap, heap, next, next, [], parent, level, base)
  {
  }

  lemma NothingListed(es: seq<Entry>, seedot: bool)
    ensures EntriesOf([]) == Listed(es[..0], seedot)
  {
  }

  lemma DirEntry(fs: Fs, d: Id, i: nat)
    requires Closed(fs) && d in fs && fs[d].Dir? && i < |fs[d].entries|
    ensures EntryOk(fs, fs[d].entries[i]) && PlainName(fs[d].entries[i].name)
  {
  }

  lemma BuildingFacts(heap0: Heap, heap: Heap, root: int, levels: Levels, next0: int, next: int,
                      items: seq<Item>, parent: int, level: int, base: nat)
    requires HeapOk(heap0, root, levels) && Building(heap0, heap, next0, next, items, parent, level, base)
    ensures NodesOk(heap, root, levels) && next !in heap && next > 0
    ensures TailOf(items) == 0 || TailOf(items) in heap
  {
  }

  /** Below the first level a dot is reported as one, and so the walk never takes it for a directory. */
  lemma BelowRoot(fs: Fs, e: Entry, anc: set<Id>, info: Info, x: Item)
    requires EntryOk(fs, e) && x.entry == e && x.info == info
    requires info == if fs[e.target].Dir? && IsDot(e.name) then DOT else Classify(fs, e, anc, true)
    ensures Pending(fs, x, anc, false)
  {
  }

  lemma AddedEntry(items: seq<Item>, x: Item)
    ensures EntriesOf(items + [x]) == EntriesOf(items) + [x.entry]
  {
  }

  lemma BuiltBound(heap0: Heap, heap: Heap, next0: int, next: int, items: seq<Item>, parent: int, level: int, base: nat)
    requires Building(heap0, heap, next0, next, items, parent, level, base)
    ensures next > 0 && forall p | p in heap :: 0 < p < next
    ensures items == [] ==> heap == heap0
    ensures items != [] ==> items[0].ptr > 0
  {
    hide Chained;
    if items == [] {
      assert forall p | p in heap0 :: p in heap && heap[p] == heap0[p];
      assert forall p | p in heap :: p in heap0;
    }
  }

  lemma EmptyList(items: seq<Item>)
    requires items == []
    ensures EntriesOf(items) == []
  {
  }

  lemma LeaveCur(levels: Levels)
    requires levels != [] && |Last(levels)| > 0
    ensures Cur(OnLeave(levels)) == Cur(levels).(info := DP)
  {
  }

  lemma NotInitial(fs: Fs, levels: Levels)
    requires Shape(fs, levels) && |Last(levels)| == 1
    ensures Cur(levels).info != INIT
  {
  }

  lemma RootFacts(heap: Heap, root: int, levels: Levels)
    requires HeapOk(heap, root, levels) && levels != [] && AllNonEmpty(levels) && |Last(levels)| == 1
    ensures var p := ParentOf(root, levels, |levels| - 1);
            && p in heap && p != Cur(levels).ptr && p > 0
            && (heap[p].level == ROOTPARENTLEVEL <==> Pre(levels) == [])
            && (Pre(levels) == [] ==> p == root)
  {
    hide NoneLost;
    var n := |levels|;
    assert Place(levels, n - 1, 0) && NodeOk(heap, root, levels, n - 1, 0);
    if n > 1 {
      assert Place(levels, n - 2, 0) && NodeOk(heap, root, levels, n - 2, 0);
    }
  }

  lemma OnlyRoot(heap: Heap, root: int, levels: Levels)
    requires HeapOk(heap, root, levels) && levels == []
    ensures heap - {root} == map[]
  {
    assert forall p | p in heap :: p == root;
  }

  lemma PreFacts(fs: Fs, heap: Heap, root: int, levels: Levels)
    requires Shape(fs, levels) && Pre(levels) != []
    ensures AllNonEmpty(Pre(levels)) && Cur(Pre(levels)).info == D
    ensures ParentOf(root, levels, |levels| - 1) == Cur(Pre(levels)).ptr
  {
  }

  /** A node without a link is the last of its level. */
  lemma LinkFacts(fs: Fs, heap: Heap, root: int, levels: Levels)
    requires Shape(fs, levels) && HeapOk(heap, root, levels)
    ensures levels != [] && AllNonEmpty(levels) && Cur(levels).ptr in heap
    ensures heap[Cur(levels).ptr].link == 0 <==> |Last(levels)| == 1
  {
    hide OnePlace, NoneLost, AncOf, LevelOk;
    var n := |levels|;
    assert Place(levels, n - 1, 0) && NodeOk(heap, root, levels, n - 1, 0);
    if |Last(levels)| > 1 {
      assert Place(levels, n - 1, 1) && NodeOk(heap, root, levels, n - 1, 1);
    }
  }

  lemma NoEntries()
    ensures EntriesOf([]) == []
  {
  }

  lemma OneEntry(fs: Fs, es: seq<Entry>, i: nat)
    requires EntriesOk(fs, es) && i < |es|
    ensures EntryOk(fs, es[i])
  {
  }

  lemma SomeItems(items: seq<Item>, es: seq<Entry>)
    requires EntriesOf(items) == es && es != []
    ensures items != []
  {
  }

  lemma RootBuilding(heap0: Heap, heap: Heap, root: int, next0: int, next: int, items: seq<Item>)
    requires root in heap0 && heap0[root].level == ROOTPARENTLEVEL && root > 0
    requires Building(heap0, heap, next0, next, items, root, ROOTLEVEL, 0)
    ensures NodesOk(heap, root, []) && next !in heap && next > 0
    ensures TailOf(items) == 0 || TailOf(items) in heap
  {
  }

  /** A dot that the walk starts from is taken for the directory it is. */
  lemma AtRoot(fs: Fs, x: Item)
    requires EntryOk(fs, x.entry)
    requires var info := if fs[x.entry.target].Dir? && IsDot(x.entry.name) then DOT
                         else Classify(fs, x.entry, AncOf([]), true);
             x.info == if info == DOT then D else info
    ensures Pending(fs, x, {}, true)
  {
  }

  lemma OpenNodes(heap0: Heap, heap: Heap, root: int, next0: int, next: int, items: seq<Item>, dummy: Item)
    requires heap0.Keys == {root} && heap0[root].level == ROOTPARENTLEVEL && root > 0 && items != []
    requires Building(heap0, heap, next0, next, items, root, ROOTLEVEL, 0)
    requires dummy.ptr == next && dummy.info == INIT
    ensures NodesOk(heap[next := Node(dummy.entry, INIT, ROOTLEVEL, 0, items[0].ptr, 0, "")], root, [[dummy] + items])
  {
    hide Accounted;
    var l := [dummy] + items;
    var levels := [l];
    var heap' := heap[next := Node(dummy.entry, INIT, ROOTLEVEL, 0, items[0].ptr, 0, "")];
    assert root in heap0;
    forall k, j | Place(levels, k, j)
      ensures NodeOk(heap', root, levels, k, j)
    {
      if j > 0 {
        assert l[j] == items[j - 1];
        assert LinkOf(l, j) == LinkOf(items, j - 1);
      }
    }
  }

  lemma OpenNoneLost(heap0: Heap, heap: Heap, root: int, next: int, items: seq<Item>, dummy: Item, node: Node)
    requires heap0.Keys == {root} && Accounted(heap0, heap, next, items) && dummy.ptr == next
    ensures NoneLost(heap[next := node], root, [[dummy] + items])
  {
    var l := [dummy] + items;
    var levels := [l];
    var heap' := heap[next := node];
    forall p | p in heap' && p != root
      ensures exists k, j :: Place(levels, k, j) && levels[k][j].ptr == p
    {
      if p == next {
        assert Place(levels, 0, 0) && levels[0][0].ptr == p;
      } else {
        var j :| 0 <= j < |items| && items[j].ptr == p;
        assert Place(levels, 0, j + 1) && levels[0][j + 1].ptr == p;
      }
    }
  }

  lemma OpenOnePlace(next0: int, next: int, items: seq<Item>, dummy: Item)
    requires Rising(items, next0, next) && dummy.ptr == next
    ensures OnePlace([[dummy] + items])
  {
  }

  lemma OpenHeap(heap0: Heap, heap: Heap, root: int, next0: int, next: int, items: seq<Item>, dummy: Item)
    requires heap0.Keys == {root} && heap0[root].level == ROOTPARENTLEVEL && root > 0 && items != []
    requires Building(heap0, heap, next0, next, items, root, ROOTLEVEL, 0)
    requires dummy.ptr == next && dummy.info == INIT
    ensures HeapOk(heap[next := Node(dummy.entry, INIT, ROOTLEVEL, 0, items[0].ptr, 0, "")], root, [[dummy] + items])
  {
    hide NodesOk, Chained, OldKept, Accounted, Rising, OnePlace, NoneLost;
    OpenNodes(heap0, heap, root, next0, next, items, dummy);
    OpenOnePlace(next0, next, items, dummy);
    OpenNoneLost(heap0, heap, root, next, items, dummy, Node(dummy.entry, INIT, ROOTLEVEL, 0, items[0].ptr, 0, ""));
  }

  lemma OpenRest(fs: Fs, items: seq<Item>, dummy: Item, argv: seq<Entry>, seedot: bool)
    requires Closed(fs) && items != [] && dummy.info == INIT && EntriesOf(items) == argv && EntriesOk(fs, argv)
    requires forall j | 0 <= j < |items| :: Pending(fs, items[j], {}, true)
    ensures Shape(fs, [[dummy] + items])
    ensures Rest(fs, [[dummy] + items], seedot) == WalkAll(fs, argv, {}, true, seedot)
  {
    hide Closed, Pending, WalkAll, EntriesOk, Contents;
    var l := [dummy] + items;
    assert l[1..] == items;
    assert LevelOk(fs, {}, true, l);
    ShapeWith(fs, [], l, seedot);
    assert [] + [l] == [l];
  }

  /** Only the dummy that a walk starts from is marked as such, and it has a sibling. */
  ghost predicate InitialFirst(levels: Levels) {
    forall k, j | Place(levels, k, j) && levels[k][j].info == INIT :: k == 0 && j == 0 && |levels[k]| >= 2
  }

  lemma {:induction false} InitialOnlyFirst(fs: Fs, levels: Levels)
    requires Shape(fs, levels)
    ensures InitialFirst(levels)
    decreases |levels|
  {
    var n, pre := |levels|, Pre(levels);
    if pre != [] {
      InitialOnlyFirst(fs, pre);
    }
    forall k, j | Place(levels, k, j) && levels[k][j].info == INIT
      ensures k == 0 && j == 0 && |levels[k]| >= 2
    {
      if k < n - 1 {
        assert Place(pre, k, j) && pre[k][j] == levels[k][j];
      } else {
        NotPending(fs, AncOf(pre), pre == [], levels[k], j);
      }
    }
  }

  lemma NotPending(fs: Fs, anc: set<Id>, root: bool, l: seq<Item>, j: nat)
    requires LevelOk(fs, anc, root, l) && j < |l| && l[j].info == INIT
    ensures j == 0 && root && |l| >= 2
  {
  }

  lemma LeftFacts(heap: Heap, root: int, levels: Levels)
    requires HeapOk(heap, root, levels) && levels != [] && AllNonEmpty(levels) && InitialFirst(levels)
    ensures var p := Cur(levels).ptr;
            && p in heap && (heap[p].link != 0 <==> |Last(levels)| > 1)
            && (|Last(levels)| > 1 ==> heap[p].link == Last(levels)[1].ptr && InitialFirst(OnNext(levels)))
            && (|Last(levels)| == 1 ==> heap[p].parent == ParentOf(root, levels, |levels| - 1) && InitialFirst(Pre(levels)))
  {
    hide OnePlace, NoneLost;
    var n := |levels|;
    assert Place(levels, n - 1, 0) && NodeOk(heap, root, levels, n - 1, 0);
    if |Last(levels)| > 1 {
      assert Place(levels, n - 1, 1) && NodeOk(heap, root, levels, n - 1, 1);
      NextPlaces(levels);
      forall k, j | Place(OnNext(levels), k, j)
        ensures Place(levels, k, if k == n - 1 then j + 1 else j)
        ensures OnNext(levels)[k][j] == levels[k][if k == n - 1 then j + 1 else j]
      {
      }
    } else {
      forall k, j | Place(Pre(levels), k, j)
        ensures Place(levels, k, j) && Pre(levels)[k] == levels[k]
      {
      }
    }
  }

  lemma LeftCur(heap: Heap, root: int, levels: Levels)
    requires HeapOk(heap, root, levels) && AllNonEmpty(levels)
    ensures var p := if levels == [] then root else Cur(levels).ptr;
            p in heap && (heap[p].level >= ROOTLEVEL <==> levels != [])
  {
    hide OnePlace, NoneLost;
    if levels != [] {
      assert Place(levels, |levels| - 1, 0) && NodeOk(heap, root, levels, |levels| - 1, 0);
    }
  }

  // ---- path names ----------------------------------------------------------

  /**
   A node's path is that of the directory it is in and its name; the length is recorded
   in the node.  What the walk starts from has been cut to its last name if it is current
   or entered.
   */
  ghost predicate PathOk(heap: Heap, levels: Levels, k: int, j: int)
    requires Place(levels, k, j) && AllNonEmpty(levels)
  {
    var x := levels[k][j];
    && x.ptr in heap && x.entry.name != ""
    && (k > 0 ==> PlainName(x.entry.name)
                  && heap[x.ptr].pathlen == |P.Join(P.PathOf(P.Names(levels)[..k]), x.entry.name)|)
    && (k == 0 && j == 0 ==> heap[x.ptr].pathlen == |x.entry.name|)
    && heap[x.ptr].name == if k == 0 && j == 0 then P.LastName(x.entry.name) else x.entry.name
  }

  ghost predicate PathsOk(heap: Heap, levels: Levels) {
    && AllNonEmpty(levels)
    && forall k, j | Place(levels, k, j) && levels[k][j].info != INIT :: PathOk(heap, levels, k, j)
  }

  /** The length recorded in a current node or in one of its directories is right. */
  lemma PathLengths(heap: Heap, levels: Levels, k: nat)
    requires PathsOk(heap, levels) && k < |levels| && levels[k][0].info != INIT
    ensures levels[k][0].ptr in heap && levels[k][0].entry.name != "" && (k > 0 ==> PlainName(levels[k][0].entry.name))
    ensures heap[levels[k][0].ptr].pathlen == |P.PathOf(P.Names(levels)[..k + 1])|
  {
    hide P.Join, P.LastName, PlainName;
    var names := P.Names(levels)[..k + 1];
    assert Place(levels, k, 0) && PathOk(heap, levels, k, 0);
    assert names[..k] == P.Names(levels)[..k] && names[k] == levels[k][0].entry.name;
  }

  /** The path of the current node. */
  ghost function CurPath(levels: Levels): string
    requires levels != [] && AllNonEmpty(levels)
  {
    P.PathOf(P.Names(levels))
  }

  lemma CurPathBelow(levels: Levels)
    requires levels != [] && AllNonEmpty(levels) && Pre(levels) != []
    ensures CurPath(levels) == P.Join(CurPath(Pre(levels)), Cur(levels).entry.name)
  {
    hide P.Join;
    assert P.Names(Pre(levels)) == P.Names(levels)[..|levels| - 1];
  }

  lemma LeavePath(levels: Levels)
    requires levels != [] && AllNonEmpty(levels)
    ensures AllNonEmpty(OnLeave(levels)) && P.Names(OnLeave(levels)) == P.Names(levels)
  {
  }

  lemma NextPaths(heap: Heap, root: int, levels: Levels)
    requires HeapOk(heap, root, levels) && PathsOk(heap, levels) && |levels| > 1 && |Last(levels)| > 1
    ensures PathsOk(heap - {Cur(levels).ptr}, OnNext(levels))
  {
    hide NoneLost, NodesOk, P.Join, P.PathOf, P.LastName, PlainName;
    var n, levels' := |levels|, OnNext(levels);
    NextPlaces(levels);
    assert Place(levels, n - 1, 0);
    forall k, j | Place(levels', k, j) && levels'[k][j].info != INIT
      ensures PathOk(heap - {Cur(levels).ptr}, levels', k, j)
    {
      var i := if k == n - 1 then j + 1 else j;
      assert Place(levels, k, i) && levels'[k][j] == levels[k][i] && PathOk(heap, levels, k, i);
      assert P.Names(levels')[..k] == P.Names(levels)[..k];
    }
  }

  /** The node of a name that the walk starts from gets its path, and its name is cut, when its turn comes. */
  function Loaded(heap: Heap, p: int): Heap
    requires p in heap
  {
    heap[p := heap[p].(pathlen := |heap[p].name|, name := P.LastName(heap[p].name))]
  }

  lemma LoadedHeap(heap: Heap, root: int, levels: Levels, p: int)
    requires HeapOk(heap, root, levels) && p in heap && p != root
    ensures HeapOk(Loaded(heap, p), root, levels)
  {
    hide OnePlace, P.LastName;
    forall k, j | Place(levels, k, j)
      ensures NodeOk(Loaded(heap, p), root, levels, k, j)
    {
      assert NodeOk(heap, root, levels, k, j);
    }
  }

  lemma LoadedPaths(heap: Heap, root: int, levels: Levels)
    requires HeapOk(heap, root, levels) && PathsOk(heap, levels) && |levels| == 1 && |Last(levels)| > 1
    requires forall j | 1 <= j < |levels[0]| :: levels[0][j].info != INIT
    ensures Last(levels)[1].ptr in heap - {Cur(levels).ptr}
    ensures PathsOk(Loaded(heap - {Cur(levels).ptr}, Last(levels)[1].ptr), OnNext(levels))
  {
    hide NoneLost, P.Join, P.PathOf, P.LastName, PlainName;
    var levels' := OnNext(levels);
    NextPlaces(levels);
    assert Place(levels, 0, 0) && Place(levels, 0, 1) && NodeOk(heap, root, levels, 0, 1);
    var heap' := Loaded(heap - {Cur(levels).ptr}, Last(levels)[1].ptr);
    forall k, j | Place(levels', k, j) && levels'[k][j].info != INIT
      ensures PathOk(heap', levels', k, j)
    {
      assert Place(levels, k, j + 1) && levels'[k][j] == levels[k][j + 1] && PathOk(heap, levels, k, j + 1);
    }
  }

  lemma LeavePaths(heap: Heap, levels: Levels)
    requires PathsOk(heap, levels) && levels != [] && Cur(levels).ptr in heap && Cur(levels).info != INIT
    ensures PathsOk(Marked(heap, Cur(levels).ptr), OnLeave(levels))
  {
    hide P.Join, P.PathOf, P.LastName, PlainName;
    var levels', heap' := OnLeave(levels), Marked(heap, Cur(levels).ptr);
    LeavePlaces(levels);
    LeavePath(levels);
    forall k, j | Place(levels', k, j) && levels'[k][j].info != INIT
      ensures PathOk(heap', levels', k, j)
    {
      assert Place(levels, k, j) && PathOk(heap, levels, k, j);
    }
  }

  lemma UpPaths(heap: Heap, root: int, levels: Levels)
    requires HeapOk(heap, root, levels) && PathsOk(heap, levels) && levels != [] && |Last(levels)| == 1
    ensures PathsOk(heap - {Cur(levels).ptr}, Pre(levels))
  {
    hide NoneLost, NodesOk, P.Join, P.PathOf, P.LastName, PlainName;
    var n, pre := |levels|, Pre(levels);
    assert Place(levels, n - 1, 0);
    forall k, j | Place(pre, k, j) && pre[k][j].info != INIT
      ensures PathOk(heap - {Cur(levels).ptr}, pre, k, j)
    {
      assert Place(levels, k, j) && PathOk(heap, levels, k, j);
      assert P.Names(pre)[..k] == P.Names(levels)[..k];
    }
  }

  lemma DownPaths(heap0: Heap, heap: Heap, levels: Levels, next0: int, items: seq<Item>, parent: int, level: int)
    requires PathsOk(heap0, levels) && levels != [] && items != [] && OldKept(heap0, heap, next0)
    requires Chained(heap, items, parent, level, P.Append(CurPath(levels)) + 1)
    requires forall j | 0 <= j < |items| :: PlainName(items[j].entry.name)
    ensures PathsOk(heap, levels + [items])
  {
    hide P.Join, P.PathOf, P.Append, P.LastName;
    var n, levels' := |levels|, levels + [items];
    forall k, j | Place(levels', k, j) && levels'[k][j].info != INIT
      ensures PathOk(heap, levels', k, j)
    {
      assert P.Names(levels')[..k] == P.Names(levels)[..k];
      if k < n {
        assert Place(levels, k, j) && PathOk(heap0, levels, k, j);
      } else {
        assert P.Names(levels)[..n] == P.Names(levels);
        P.JoinExtends(CurPath(levels), items[j].entry.name);
      }
    }
  }

  lemma OpenPaths(heap: Heap, items: seq<Item>, dummy: Item)
    requires dummy.info == INIT
    requires forall j | 0 <= j < |items| ::
               items[j].ptr in heap && items[j].entry.name != "" && heap[items[j].ptr].name == items[j].entry.name
    ensures PathsOk(heap, [[dummy] + items])
  {
  }

  /** The path as a reader of the walk sees it, except when a root has just been left. */
  ghost predicate PathShown(levels: Levels, path: string)
    requires levels != [] && AllNonEmpty(levels)
  {
    Cur(levels).info == INIT || path == CurPath(levels) || (|levels| == 1 && Cur(levels).info == DP)
  }

  /** What reading a directory does to the path: a name behind it, if one is put there, is cut off again. */
  function PathAfter(path: string, nochdir: bool, empty: bool): string {
    if !nochdir then path else if empty then path[..P.Append(path)] else path[..P.Append(path)] + "/"
  }

  ghost predicate AllNamed(argv: seq<Entry>) {
    forall i | 0 <= i < |argv| :: argv[i].name != ""
  }

  lemma CurLength(fs: Fs, heap: Heap, levels: Levels)
    requires Shape(fs, levels) && PathsOk(heap, levels) && Cur(levels).info != INIT
    ensures Cur(levels).ptr in heap && heap[Cur(levels).ptr].pathlen == |CurPath(levels)| > 0
  {
    hide P.PathOf, PathOk, PathsOk, AncOf, LevelOk;
    EnteredOnly(fs, levels);
    PathLengths(heap, levels, |levels| - 1);
    var names := P.Names(levels);
    assert names[..|levels|] == names;
    FirstNamed(heap, levels);
    P.PathIsThere(names);
  }

  lemma FirstNamed(heap: Heap, levels: Levels)
    requires PathsOk(heap, levels) && levels != [] && (levels[0][0].info != INIT)
    ensures levels[0][0].entry.name != ""
  {
    hide P.PathOf, P.Join;
    assert Place(levels, 0, 0) && PathOk(heap, levels, 0, 0);
  }

  lemma LeaveShown(fs: Fs, heap: Heap, levels: Levels)
    requires Shape(fs, levels) && PathsOk(heap, levels) && Cur(levels).info != INIT
    ensures AllNonEmpty(OnLeave(levels)) && CurPath(OnLeave(levels)) == CurPath(levels) && |OnLeave(levels)| == |levels|
    ensures P.EndsInSlash(CurPath(levels)) ==> |levels| == 1
  {
    hide P.PathOf, PathsOk, AncOf, LevelOk, PlainName;
    LeavePath(levels);
    EnteredOnly(fs, levels);
    forall k | 1 <= k < |levels|
      ensures PlainName(P.Names(levels)[k])
    {
      PathLengths(heap, levels, k);
    }
    P.SlashOnlyFirst(P.Names(levels));
  }

  lemma PathAfterKeeps(path: string, nochdir: bool)
    ensures path <= PathAfter(path, nochdir, false)
  {
  }

  lemma PendingNotInit(fs: Fs, x: Item, anc: set<Id>, root: bool)
    requires Pending(fs, x, anc, root)
    ensures x.info != INIT
  {
  }

  lemma SomeEntries(items: seq<Item>)
    requires items != []
    ensures EntriesOf(items) != []
  {
  }

  lemma DownShown(heap0: Heap, heap: Heap, levels: Levels, next0: int, next: int, items: seq<Item>, level: int)
    requires PathsOk(heap0, levels) && AllNonEmpty(levels) && levels != [] && items != [] && Cur(levels).ptr in heap0
    requires Building(heap0, heap, next0, next, items, Cur(levels).ptr, level, P.Append(CurPath(levels)) + 1)
    requires forall j | 0 <= j < |items| :: PlainName(items[j].entry.name)
    ensures PathsOk(heap, levels + [items]) && AllNonEmpty(levels + [items])
    ensures CurPath(levels + [items]) == P.Join(CurPath(levels), items[0].entry.name)
    ensures Cur(levels).ptr in heap && heap[Cur(levels).ptr] == heap0[Cur(levels).ptr]
    ensures items[0].ptr in heap && heap[items[0].ptr].parent == Cur(levels).ptr
    ensures heap[items[0].ptr].entry == items[0].entry && heap[items[0].ptr].name == items[0].entry.name
  {
    hide P.PathOf, P.Join, PathsOk, PlainName, Accounted, Rising;
    DownPaths(heap0, heap, levels, next0, items, Cur(levels).ptr, level);
    DownPath(levels, items);
  }

  lemma DownPath(levels: Levels, items: seq<Item>)
    requires levels != [] && AllNonEmpty(levels) && items != []
    ensures AllNonEmpty(levels + [items])
    ensures CurPath(levels + [items]) == P.Join(CurPath(levels), items[0].entry.name)
  {
    hide P.Join, P.PathOf;
    assert P.Names(levels + [items]) == P.Names(levels) + [items[0].entry.name];
    P.PathSteps(P.Names(levels), items[0].entry.name);
  }

  /** The path of the directory that the current node is in. */
  lemma ParentPath(fs: Fs, heap: Heap, levels: Levels)
    requires Shape(fs, levels) && PathsOk(heap, levels) && Pre(levels) != []
    ensures AllNonEmpty(Pre(levels)) && CurPath(Pre(levels)) <= CurPath(levels) && CurPath(Pre(levels)) != ""
    ensures Cur(Pre(levels)).ptr in heap && heap[Cur(Pre(levels)).ptr].pathlen == |CurPath(Pre(levels))|
  {
    hide P.PathOf, P.Join, PathsOk, AncOf, LevelOk;
    CurPathBelow(levels);
    P.JoinExtends(CurPath(Pre(levels)), Cur(levels).entry.name);
    var n := |levels|;
    EnteredOnly(fs, Pre(levels));
    assert Pre(levels)[n - 2] == levels[n - 2] && Pre(levels)[0] == levels[0];
    PathLengths(heap, levels, n - 2);
    assert P.Names(Pre(levels)) == P.Names(levels)[..n - 1];
    FirstNamed(heap, levels);
    P.PathIsThere(P.Names(Pre(levels)));
  }

  lemma NextPath(levels: Levels)
    requires levels != [] && AllNonEmpty(levels) && |Last(levels)| > 1
    ensures AllNonEmpty(OnNext(levels))
    ensures Pre(levels) == [] ==> CurPath(OnNext(levels)) == Last(levels)[1].entry.name
    ensures Pre(levels) != [] ==> CurPath(OnNext(levels)) == P.Join(CurPath(Pre(levels)), Last(levels)[1].entry.name)
  {
    hide P.Join;
    NextPlaces(levels);
    assert Pre(OnNext(levels)) == Pre(levels);
    if Pre(levels) != [] {
      CurPathBelow(OnNext(levels));
    }
  }

  lemma NextShown(fs: Fs, heap: Heap, root: int, levels: Levels)
    requires Shape(fs, levels) && HeapOk(heap, root, levels) && PathsOk(heap, levels) && |Last(levels)| > 1
    ensures AllNonEmpty(Pre(levels)) && AllNonEmpty(OnNext(levels))
    ensures var p, heap' := Cur(OnNext(levels)).ptr, heap - {Cur(levels).ptr};
            && p in heap' && heap'[p].name == Cur(OnNext(levels)).entry.name
            && (Pre(levels) == [] ==>
                  PathsOk(Loaded(heap', p), OnNext(levels)) && CurPath(OnNext(levels)) == Cur(OnNext(levels)).entry.name)
            && (Pre(levels) != [] ==>
                  && PathsOk(heap', OnNext(levels)) && Cur(levels).info != INIT
                  && CurPath(OnNext(levels)) == P.Join(CurPath(Pre(levels)), Cur(OnNext(levels)).entry.name)
                  && CurPath(Pre(levels)) <= CurPath(levels) && CurPath(Pre(levels)) != ""
                  && Cur(Pre(levels)).ptr in heap'
                  && heap'[Cur(Pre(levels)).ptr].pathlen == |CurPath(Pre(levels))|)
  {
    hide P.PathOf, P.Join, PathsOk, AncOf, LevelOk, HeapOk, CurPath;
    NextPath(levels);
    NextHeap(heap, root, levels);
    NextThere(heap, root, levels);
    InitialOnlyFirst(fs, levels);
    NextNamed(heap, levels);
    assert Place(levels, |levels| - 1, 0);
    if Pre(levels) == [] {
      RootsStarted(levels);
      LoadedPaths(heap, root, levels);
    } else {
      NextPaths(heap, root, levels);
      ParentPath(fs, heap, levels);
    }
  }

  lemma NextNamed(heap: Heap, levels: Levels)
    requires PathsOk(heap, levels) && InitialFirst(levels) && levels != [] && |Last(levels)| > 1
    ensures var x := Last(levels)[1]; x.ptr in heap && heap[x.ptr].name == x.entry.name
  {
    hide P.Join, P.PathOf, P.LastName, PlainName;
    assert Place(levels, |levels| - 1, 1);
    assert PathOk(heap, levels, |levels| - 1, 1);
  }

  /** The name that the current node shows. */
  lemma NameShown(heap: Heap, levels: Levels)
    requires PathsOk(heap, levels) && levels != [] && Cur(levels).info != INIT
    ensures var x := Cur(levels);
            && x.ptr in heap
            && heap[x.ptr].name == if |levels| == 1 then P.LastName(x.entry.name) else x.entry.name
  {
    hide P.Join, P.PathOf, P.LastName, PlainName;
    assert Place(levels, |levels| - 1, 0);
    assert PathOk(heap, levels, |levels| - 1, 0);
  }

  lemma RootsStarted(levels: Levels)
    requires InitialFirst(levels) && levels != []
    ensures forall j | 1 <= j < |levels[0]| :: levels[0][j].info != INIT
  {
    forall j | 1 <= j < |levels[0]|
      ensures levels[0][j].info != INIT
    {
      assert Place(levels, 0, j);
    }
  }

  lemma NextThere(heap: Heap, root: int, levels: Levels)
    requires HeapOk(heap, root, levels) && levels != [] && |Last(levels)| > 1
    ensures Cur(OnNext(levels)) == Last(levels)[1] && Last(levels)[1].ptr in heap - {Cur(levels).ptr}
    ensures Pre(levels) != [] ==> |Last(Pre(levels))| > 0 && Cur(Pre(levels)).ptr != Cur(levels).ptr
  {
    hide NoneLost;
    var n := |levels|;
    assert Place(levels, n - 1, 0) && Place(levels, n - 1, 1) && NodeOk(heap, root, levels, n - 1, 1);
    if n > 1 {
      assert Place(levels, n - 2, 0);
    }
  }

  lemma UpShown(fs: Fs, heap: Heap, root: int, levels: Levels)
    requires Shape(fs, levels) && HeapOk(heap, root, levels) && PathsOk(heap, levels)
    requires |Last(levels)| == 1 && Pre(levels) != []
    ensures var pre, heap' := Pre(levels), heap - {Cur(levels).ptr};
            && AllNonEmpty(pre) && Cur(pre).ptr in heap' && AllNonEmpty(OnUp(levels))
            && PathsOk(Marked(heap', Cur(pre).ptr), OnUp(levels)) && CurPath(OnUp(levels)) == CurPath(pre)
            && CurPath(pre) <= CurPath(levels) && heap'[Cur(pre).ptr].pathlen == |CurPath(pre)|
  {
    hide P.PathOf, P.Join, PathsOk, AncOf, LevelOk, HeapOk;
    var pre := Pre(levels);
    ParentPath(fs, heap, levels);
    UpPaths(heap, root, levels);
    UpHeap(heap, root, levels);
    CurFacts(fs, heap - {Cur(levels).ptr}, root, pre);
    LeavePaths(heap - {Cur(levels).ptr}, pre);
    LeavePath(pre);
  }

  lemma OpenShown(heap0: Heap, heap: Heap, next0: int, next: int, items: seq<Item>, parent: int, argv: seq<Entry>,
                  dummy: Item, node: Node)
    requires Building(heap0, heap, next0, next, items, parent, ROOTLEVEL, 0) && dummy.info == INIT
    requires AllNamed(argv) && EntriesOf(items) == argv
    ensures PathsOk(heap[next := node], [[dummy] + items])
  {
    hide PathsOk;
    OpenPaths(heap[next := node], items, dummy);
  }

  /** The first i nodes of a list. */
  ghost function Firsts(items: seq<Item>, i: nat): set<int>
    requires i <= |items|
  {
    set j | 0 <= j < i :: items[j].ptr
  }

  lemma FirstsNone(items: seq<Item>, heap: Heap)
    ensures heap - Firsts(items, 0) == heap
  {
    assert Firsts(items, 0) == {};
  }

  lemma FirstsNext(items: seq<Item>, i: nat, next0: int, next: int)
    requires i < |items| && Rising(items, next0, next)
    ensures Firsts(items, i + 1) == Firsts(items, i) + {items[i].ptr} && items[i].ptr !in Firsts(items, i)
  {
  }

  lemma FreedNext(heap0: Heap, heap: Heap, next0: int, next: int, items: seq<Item>, parent: int, i: nat)
    requires Building(heap0, heap, next0, next, items, parent, ROOTLEVEL, 0) && i < |items|
    ensures var x, heap' := items[i].ptr, heap - Firsts(items, i);
            && x in heap' && x != 0 && heap'[x].link == LinkOf(items, i)
            && heap' - {x} == heap - Firsts(items, i + 1)
  {
    hide Firsts, Accounted, OldKept;
    FirstsNext(items, i, next0, next);
  }

  lemma FreedAll(heap0: Heap, heap: Heap, next0: int, next: int, items: seq<Item>, parent: int)
    requires Building(heap0, heap, next0, next, items, parent, ROOTLEVEL, 0)
    ensures heap - Firsts(items, |items|) == heap0
  {
    hide Chained;
    var freed := Firsts(items, |items|);
    forall p | p in heap
      ensures p in heap0 <==> p !in freed
    {
      if p !in heap0 {
        var j :| 0 <= j < |items| && items[j].ptr == p;
        assert p in freed;
      }
    }
    var heap' := heap - freed;
    assert forall p | p in heap' :: p in heap0 && heap'[p] == heap0[p];
    assert forall p | p in heap0 :: p in heap';
  }

  /** While a directory is read, names are put behind its path; len is where they begin. */
  ghost predicate Under(path: string, dir: string, len: nat, nochdir: bool) {
    && 1 <= len <= |dir| + 1
    && if nochdir then len <= |path| && path[..len] == dir[..len - 1] + "/" else path == dir
  }

  lemma UnderStart(dir: string, nochdir: bool)
    requires dir != ""
    ensures Under(if nochdir then dir[..P.Append(dir)] + "/" else dir, dir, P.Append(dir) + 1, nochdir)
  {
  }

  lemma UnderLength(path: string, dir: string, len: nat, nochdir: bool)
    requires Under(path, dir, len, nochdir)
    ensures len > 0 && (nochdir ==> len <= |path|)
  {
  }

  lemma UnderPut(path: string, dir: string, len: nat, name: string)
    requires Under(path, dir, len, true)
    ensures len <= |path| && Under(path[..len] + name, dir, len, true)
  {
    assert (path[..len] + name)[..len] == path[..len];
  }

  lemma UnderEnd(path: string, dir: string, len: nat, nochdir: bool, empty: bool)
    requires Under(path, dir, len, nochdir) && len == P.Append(dir) + 1
    ensures nochdir ==> len <= |path|
    ensures PathAfter(dir, nochdir, empty) == if !nochdir then path else if empty then path[..len - 1] else path[..len]
  {
    assert nochdir ==> path[..len][..len - 1] == path[..len - 1];
  }

  class Stream {
    const fs: Fs
    const seedot: bool
    const nochdir: bool
    var heap: Heap
    var path: string
    var next: int
    var cur: int
    ghost var root: int
    ghost var levels: Levels

    ghost predicate Valid()
      reads this
    {
      && Closed(fs) && next > 0 && (forall p | p in heap :: 0 < p < next)
      && (cur == 0 ==> heap == map[])
      && (cur != 0 ==> Shape(fs, levels) && HeapOk(heap, root, levels) && cur == Cur(levels).ptr)
      && (cur != 0 ==> PathsOk(heap, levels) && PathShown(levels, path))
    }

    /** What the walk has yet to visit. */
    ghost function Todo(): seq<Visit>
      reads this
      requires Valid()
    {
      if cur == 0 then [] else Rest(fs, levels, seedot)
    }

    /**
     The next visit is of an empty directory that is left at once, of which the path ends
     in a slash, and the walk does not change directories but uses paths.
     */
    ghost predicate LosesSlash()
      reads this
      requires Valid()
    {
      && nochdir && cur != 0 && Cur(levels).info == D && P.EndsInSlash(path)
      && Cur(levels).entry.target in fs && fs[Cur(levels).entry.target].Dir?
      && Listed(fs[Cur(levels).entry.target].entries, seedot) == []
    }

    constructor (fs: Fs, seedot: bool, nochdir: bool)
      requires Closed(fs)
      ensures Valid() && this.fs == fs && this.seedot == seedot && this.nochdir == nochdir && cur == 0
    {
      this.fs := fs;
      this.seedot := seedot;
      this.nochdir := nochdir;
      heap, next, cur, path := map[], 1, 0, "";
    }

    method Free(p: int)
      requires p in heap
      modifies this`heap
      ensures heap == old(heap) - {p}
    {
      heap := heap - {p};
    }

    /** Frees a list of nodes. */
    method FreeList(first: int, ghost heap0: Heap, ghost next0: int, ghost items: seq<Item>, ghost parent: int)
      requires Building(heap0, heap, next0, next, items, parent, ROOTLEVEL, 0)
      requires first == if items == [] then 0 else items[0].ptr
      modifies this`heap
      ensures heap == heap0
    {
      hide Building, Firsts;
      FirstsNone(items, heap);
      var p := first;
      ghost var i := 0;
      while p != 0
        invariant 0 <= i <= |items| && p == if i < |items| then items[i].ptr else 0
        invariant heap == old(heap) - Firsts(items, i)
        decreases |items| - i
      {
        FreedNext(heap0, old(heap), next0, next, items, parent, i);
        var q := p;
        p := heap[p].link;
        Free(q);
        i := i + 1;
      }
      if i < |items| {
        FreedNext(heap0, old(heap), next0, next, items, parent, i);
      }
      FreedAll(heap0, old(heap), next0, next, items, parent);
    }

    /** A new node at the end of a list. */
    method Append(e: Entry, info: Info, level: int, parent: int, tail: int, pathlen: nat) returns (p: int)
      requires next !in heap && (tail == 0 || tail in heap)
      modifies this`heap, this`next
      ensures p == old(next) && next == old(next) + 1
      ensures heap == Linked(old(heap), tail, p, Node(e, info, level, parent, 0, pathlen, e.name))
    {
      p := next;
      next := next + 1;
      heap := heap[p := Node(e, info, level, parent, 0, pathlen, e.name)];
      if tail != 0 {
        heap := heap[tail := heap[tail].(link := p)];
      }
    }

    /** Where in the path a slash and a name are put, below the directory of node p. */
    function AppendAt(p: int): nat
      reads this
      requires p in heap && 0 < heap[p].pathlen <= |path|
    {
      if path[heap[p].pathlen - 1] == '/' then heap[p].pathlen - 1 else heap[p].pathlen
    }

    /** Makes the path that of node p. */
    method SetPath(p: int, ghost dir: string)
      requires p in heap && heap[p].parent in heap && heap[heap[p].parent].pathlen == |dir| && dir != "" && dir <= path
      modifies this`path
      ensures path == P.Join(dir, heap[p].name)
    {
      P.Rewritten(path, dir, heap[p].name);
      path := path[..AppendAt(heap[p].parent)] + "/" + heap[p].name;
    }

    /** A node for one entry of the current directory, at the end of the list that is being built. */
    method AddEntry(e: Entry, level: int, len: nat, tail: int, ghost dir: string, ghost heap0: Heap, ghost next0: int,
                    ghost items: seq<Item>) returns (p: int, ghost x: Item)
      requires EntryOk(fs, e) && levels != [] && AllNonEmpty(levels) && cur == Cur(levels).ptr
      requires forall k | 0 <= k < |levels| :: levels[k][0].info != INIT
      requires HeapOk(heap0, root, levels) && Building(heap0, heap, next0, next, items, cur, level, len)
      requires tail == TailOf(items) && Under(path, dir, len, nochdir)
      modifies this`heap, this`next, this`path
      ensures p == x.ptr > 0 && x.entry == e && Pending(fs, x, AncOf(levels), false)
      ensures Building(heap0, heap, next0, next, items + [x], cur, level, len) && Under(path, dir, len, nochdir)
    {
      hide HeapOk, NodesOk, Building, Pending, Classify, Linked, AncOf, Under;
      BuildingFacts(heap0, heap, root, levels, next0, next, items, cur, level, len);
      UnderLength(path, dir, len, nochdir);
      if nochdir {
        UnderPut(path, dir, len, e.name);
        path := path[..len] + e.name;
      }
      var info := Stat(fs, heap, e, cur, root, levels);
      x := Item(next, e, info);
      BelowRoot(fs, e, AncOf(levels), info, x);
      BuildingAdd(heap0, heap, next0, next, items, cur, level, len, x);
      p := Append(e, info, level, cur, tail, len + |e.name|);
    }

    /** Reads the current directory into a list of nodes. */
    method Build() returns (head: int, ghost items: seq<Item>)
      requires Valid() && cur != 0 && Cur(levels).info == D
      modifies this`heap, this`next, this`path
      ensures head == if items == [] then 0 else items[0].ptr
      ensures Building(old(heap), heap, old(next), next, items, cur, LevelNumber(|levels|), P.Append(CurPath(levels)) + 1)
      ensures fs[Cur(levels).entry.target].Dir?
      ensures EntriesOf(items) == Listed(fs[Cur(levels).entry.target].entries, seedot)
      ensures forall j | 0 <= j < |items| ::
                Pending(fs, items[j], AncOf(levels), false) && PlainName(items[j].entry.name)
      ensures path == PathAfter(CurPath(levels), nochdir, items == [])
    {
      hide Shape, HeapOk, PathsOk, Building, Listed, Pending, Classify, EntriesOk, Linked, EntriesOf, PlainName, CurPath,
           PathAfter, Closed, AncOf, Under;
      CurFacts(fs, heap, root, levels);
      CurEntered(fs, levels);
      EnteredOnly(fs, levels);
      CurLength(fs, heap, levels);
      var es := fs[heap[cur].entry.target].entries;
      var len := AppendAt(cur);
      assert len == P.Append(path);
      UnderStart(path, nochdir);
      if nochdir {
        path := path[..len] + "/";
      }
      len := len + 1;
      var level := heap[cur].level;
      if level < MAXLEVEL {
        level := level + 1;
      }
      head := 0;
      var tail := 0;
      items := [];
      BuildingNothing(heap, next, cur, level, len);
      NothingListed(es, seedot);
      var i := 0;
      while i < |es|
        invariant 0 <= i <= |es| && EntriesOf(items) == Listed(es[..i], seedot)
        invariant Building(old(heap), heap, old(next), next, items, cur, level, len)
        invariant (head == 0 <==> items == []) && (items != [] ==> head == items[0].ptr) && tail == TailOf(items)
        invariant forall j | 0 <= j < |items| ::
                    Pending(fs, items[j], AncOf(levels), false) && PlainName(items[j].entry.name)
        invariant Under(path, old(path), len, nochdir)
      {
        var e := es[i];
        ListedNext(es, i, seedot);
        if seedot || !IsDot(e.name) {
          DirEntry(fs, Cur(levels).entry.target, i);
          ghost var x;
          tail, x := AddEntry(e, level, len, tail, old(path), old(heap), old(next), items);
          AddedEntry(items, x);
          if head == 0 {
            head := tail;
          }
          items := items + [x];
        } else {
          assert Listed(es[..i], seedot) + [] == Listed(es[..i], seedot);
        }
        i := i + 1;
      }
      assert es[..i] == es;
      UnderEnd(path, old(path), len, nochdir, head == 0);
      if nochdir {
        path := if head == 0 then path[..len - 1] else path[..len];
      }
    }

    /** Goes into the current directory, or leaves it at once if there is nothing in it. */
    method ReadDown() returns (p: int)
      requires Valid() && cur != 0 && Cur(levels).info == D
      modifies this
      ensures Valid() && cur != 0 && p == cur && p in heap
      ensures old(Todo()) == [Visit(heap[p].entry, heap[p].info)] + Todo()
      ensures path == CurPath(levels) || path + "/" == CurPath(levels)
      ensures path == CurPath(levels) <==> !old(LosesSlash())
      ensures Cur(levels).info != INIT && (old(LosesSlash()) ==> levels == OnLeave(old(levels)))
    {
      hide Shape, HeapOk, PathsOk, Building, Listed, Pending, Classify, EntriesOf, Rest, AncOf, OnLeave, Closed, CurPath;
      CurFacts(fs, heap, root, levels);
      CurEntered(fs, levels);
      CurLength(fs, heap, levels);
      ghost var heap0, next0, dir, base := heap, next, CurPath(levels), P.Append(CurPath(levels)) + 1;
      var head, items := Build();
      BuiltBound(heap0, heap, next0, next, items, cur, LevelNumber(|levels|), base);
      if head == 0 {
        EmptyList(items);
        EmptyRest(fs, levels, seedot);
        LeaveHeap(heap, root, levels);
        LeavePaths(heap, levels);
        LeaveShown(fs, heap, levels);
        heap := heap[cur := heap[cur].(info := DP)];
        levels := OnLeave(levels);
        CurFacts(fs, heap, root, levels);
        LeaveCur(old(levels));
        p := cur;
      } else {
        SomeEntries(items);
        PendingNotInit(fs, items[0], AncOf(levels), false);
        DownRest(fs, levels, items, seedot);
        DownHeap(heap0, heap, root, levels, next0, next, items, base);
        DownShown(heap0, heap, levels, next0, next, items, LevelNumber(|levels|));
        PathAfterKeeps(dir, nochdir);
        levels := levels + [items];
        cur := head;
        CurFacts(fs, heap, root, levels);
        p := cur;
        SetPath(p, dir);
      }
    }

    /** Goes on to the next node of the level. */
    method ReadNext() returns (p: int)
      requires Valid() && cur != 0 && Cur(levels).info != D && |Last(levels)| > 1
      modifies this
      ensures Valid() && cur != 0 && p == cur && p in heap
      ensures old(Todo()) == [Visit(heap[p].entry, heap[p].info)] + Todo()
      ensures path == CurPath(levels)
      ensures levels == OnNext(old(levels)) && Cur(levels).info != INIT
    {
      hide Shape, HeapOk, PathsOk, Rest, AncOf, Closed, CurPath, P.LastName;
      CurFacts(fs, heap, root, levels);
      NextRest(fs, levels, seedot);
      NextHeap(heap, root, levels);
      NextShown(fs, heap, root, levels);
      p := heap[cur].link;
      Free(cur);
      ghost var before := levels;
      levels := OnNext(levels);
      cur := p;
      CurFacts(fs, heap, root, levels);
      if heap[p].level == ROOTLEVEL {
        LoadedHeap(heap, root, levels, p);
        path := heap[p].name;
        heap := heap[p := heap[p].(pathlen := |heap[p].name|, name := P.LastName(heap[p].name))];
      } else {
        SetPath(p, CurPath(Pre(before)));
      }
      CurFacts(fs, heap, root, levels);
    }

    /** Goes up to the directory that the level was in, or ends the walk. */
    method ReadUp() returns (p: int)
      requires Valid() && cur != 0 && Cur(levels).info != D && |Last(levels)| == 1
      modifies this
      ensures Valid()
      ensures p == 0 <==> old(Todo()) == []
      ensures p == 0 ==> cur == 0
      ensures p != 0 ==> p == cur && p in heap && old(Todo()) == [Visit(heap[p].entry, heap[p].info)] + Todo()
      ensures p != 0 ==> path == CurPath(levels)
      ensures p != 0 ==> Cur(levels).info != INIT
    {
      hide Shape, HeapOk, PathsOk, Rest, AncOf, Closed, OnLeave, CurPath;
      CurFacts(fs, heap, root, levels);
      NotInitial(fs, levels);
      UpHeap(heap, root, levels);
      p := heap[cur].parent;
      RootFacts(heap, root, levels);
      ghost var before := heap;
      Free(cur);
      if heap[p].level == ROOTPARENTLEVEL {
        DoneRest(fs, levels, seedot);
        OnlyRoot(heap, root, Pre(levels));
        Free(p);
        cur, p := 0, 0;
      } else {
        UpRest(fs, levels, seedot);
        PreFacts(fs, heap, root, levels);
        UpShown(fs, before, root, levels);
        LeaveHeap(heap, root, Pre(levels));
        path := path[..heap[p].pathlen];
        heap := heap[p := heap[p].(info := DP)];
        cur := p;
        LeaveCur(Pre(levels));
        levels := OnUp(levels);
        CurFacts(fs, heap, root, levels);
      }
    }

    /** The next visit of the walk, or 0 when it is over and every node has been freed. */
    method Read() returns (p: int)
      requires Valid()
      modifies this
      ensures Valid()
      ensures p == 0 <==> old(Todo()) == []
      ensures p == 0 ==> cur == 0 && heap == map[] && Todo() == []
      ensures p != 0 ==> p == cur && p in heap && old(Todo()) == [Visit(heap[p].entry, heap[p].info)] + Todo()
      ensures p != 0 ==> levels != [] && AllNonEmpty(levels) && (path == CurPath(levels) || path + "/" == CurPath(levels))
      ensures p != 0 ==> (path == CurPath(levels) <==> !old(LosesSlash()))
      ensures p != 0 ==>
                heap[p].name == if |levels| == 1 then P.LastName(heap[p].entry.name) else heap[p].entry.name
      ensures old(LosesSlash()) ==> levels == OnLeave(old(levels))
      ensures old(cur != 0 && Cur(levels).info == INIT) ==> levels == OnNext(old(levels))
    {
      hide Shape, HeapOk, PathsOk, Rest, AncOf, Closed, CurPath, Listed, P.LastName;
      if cur == 0 {
        return 0;
      }
      CurFacts(fs, heap, root, levels);
      LinkFacts(fs, heap, root, levels);
      if |Last(levels)| == 1 {
        NotInitial(fs, levels);
      }
      if heap[cur].info == D {
        p := ReadDown();
      } else if heap[cur].link != 0 {
        p := ReadNext();
      } else {
        p := ReadUp();
      }
      if p != 0 {
        CurFacts(fs, heap, root, levels);
        NameShown(heap, levels);
      }
    }

    /** The list of nodes that a walk starts from; or nothing, if there is a name without a letter. */
    method BuildRoots(argv: seq<Entry>, parent: int) returns (ok: bool, first: int, ghost items: seq<Item>)
      requires EntriesOk(fs, argv) && argv != [] && next > 0 && (forall p | p in heap :: 0 < p < next)
      requires parent in heap && heap[parent].level == ROOTPARENTLEVEL
      modifies this`heap, this`next
      ensures next >= old(next)
      ensures ok <==> AllNamed(argv)
      ensures !ok ==> heap == old(heap)
      ensures ok ==> items != [] && first == items[0].ptr > 0 && EntriesOf(items) == argv
      ensures ok ==> Building(old(heap), heap, old(next), next, items, parent, ROOTLEVEL, 0)
      ensures ok ==> forall j | 0 <= j < |items| :: Pending(fs, items[j], {}, true)
    {
      hide Building, Pending, Classify, EntriesOk, Linked, EntriesOf, NodesOk;
      BuildingNothing(heap, next, parent, ROOTLEVEL, 0);
      ok, first := true, 0;
      var tail := 0;
      items := [];
      NoEntries();
      var i := 0;
      while i < |argv|
        invariant 0 <= i <= |argv| && EntriesOf(items) == argv[..i] && AllNamed(argv[..i]) && next >= old(next)
        invariant Building(old(heap), heap, old(next), next, items, parent, ROOTLEVEL, 0)
        invariant (first == 0 <==> items == []) && (items != [] ==> first == items[0].ptr) && tail == TailOf(items)
        invariant forall j | 0 <= j < |items| :: Pending(fs, items[j], {}, true)
      {
        if |argv[i].name| == 0 {
          FreeList(first, old(heap), old(next), items, parent);
          return false, 0, [];
        }
        OneEntry(fs, argv, i);
        RootBuilding(old(heap), heap, parent, old(next), next, items);
        var info := Stat(fs, heap, argv[i], parent, parent, []);
        if info == DOT {
          info := D;
        }
        ghost var x := Item(next, argv[i], info);
        AtRoot(fs, x);
        BuildingAdd(old(heap), heap, old(next), next, items, parent, ROOTLEVEL, 0, x);
        AddedEntry(items, x);
        assert argv[..i + 1] == argv[..i] + [argv[i]];
        tail := Append(argv[i], info, ROOTLEVEL, parent, tail, 0);
        if first == 0 {
          first := tail;
        }
        items := items + [x];
        i := i + 1;
      }
      assert argv[..i] == argv;
      BuiltBound(old(heap), heap, old(next), next, items, parent, ROOTLEVEL, 0);
      SomeItems(items, argv);
    }

    /** Starts a walk from the entries of argv, if all of them have names. */
    method Open(argv: seq<Entry>) returns (ok: bool)
      requires Valid() && cur == 0 && argv != [] && EntriesOk(fs, argv)
      modifies this
      ensures Valid() && (ok <==> AllNamed(argv))
      ensures ok ==> cur != 0 && Todo() == WalkAll(fs, argv, {}, true, seedot)
      ensures !ok ==> cur == 0 && heap == map[]
      ensures ok ==> |levels| == 1 && |levels[0]| == |argv| + 1 && Cur(levels).info == INIT && levels[0][1].entry == argv[0]
    {
      hide HeapOk, PathsOk, Building, Pending, EntriesOk, EntriesOf, Closed, Shape, Rest, WalkAll;
      var parent := next;
      next := next + 1;
      heap := map[parent := Node(Entry("", Id(0, 0)), INIT, ROOTPARENTLEVEL, 0, 0, 0, "")];
      ghost var heap0, next0 := heap, next;
      var named, first, items := BuildRoots(argv, parent);
      ok := named;
      if !ok {
        Free(parent);
        return;
      }
      BuiltBound(heap0, heap, next0, next, items, parent, ROOTLEVEL, 0);
      cur := next;
      next := next + 1;
      ghost var dummy := Item(cur, Entry("", Id(0, 0)), INIT);
      OpenHeap(heap0, heap, parent, next0, cur, items, dummy);
      OpenShown(heap0, heap, next0, cur, items, parent, argv, dummy,
                Node(Entry("", Id(0, 0)), INIT, ROOTLEVEL, 0, first, 0, ""));
      heap := heap[cur := Node(Entry("", Id(0, 0)), INIT, ROOTLEVEL, 0, first, 0, "")];
      root, levels := parent, [[dummy] + items];
      OpenRest(fs, items, dummy, argv, seedot);
    }

    /** Ends a walk at any point: every node is freed. */
    method Close()
      requires Valid()
      modifies this
      ensures Valid() && cur == 0 && heap == map[]
    {
      hide Shape, HeapOk, PathsOk, Rest, AncOf, Closed, CurPath;
      if cur != 0 {
        CurFacts(fs, heap, root, levels);
        InitialOnlyFirst(fs, levels);
        var p := cur;
        ghost var left := levels;
        while heap[p].level >= ROOTLEVEL
          invariant HeapOk(heap, root, left) && AllNonEmpty(left) && InitialFirst(left)
          invariant p in heap && p == (if left == [] then root else Cur(left).ptr)
          invariant heap[p].level >= ROOTLEVEL <==> left != []
          invariant forall q | q in heap :: 0 < q < next
          decreases heap.Keys
        {
          LeftFacts(heap, root, left);
          var freep := p;
          if heap[p].link != 0 {
            p := heap[p].link;
            NextHeap(heap, root, left);
            left := OnNext(left);
          } else {
            p := heap[p].parent;
            UpHeap(heap, root, left);
            left := Pre(left);
          }
          Free(freep);
          LeftCur(heap, root, left);
        }
        OnlyRoot(heap, root, left);
        Free(p);
        cur := 0;
      }
    }
  }

  /**
   A whole walk visits what it should, in that order; it comes to an end on every
   directory graph, however its directories contain each other, and frees every node.
   */
  method WalkForest(fs: Fs, argv: seq<Entry>, seedot: bool, nochdir: bool) returns (ok: bool, visits: seq<Visit>)
    requires Closed(fs) && argv != [] && EntriesOk(fs, argv)
    ensures ok <==> AllNamed(argv)
    ensures visits == if ok then WalkAll(fs, argv, {}, true, seedot) else []
    ensures ok ==> Complete(fs, visits, seedot) && forall e | e in argv :: exists info :: Visit(e, info) in visits
  {
    hide *;
    AllComplete(fs, argv, {}, true, seedot);
    var s := new Stream(fs, seedot, nochdir);
    visits := [];
    ok := s.Open(argv);
    if !ok {
      return;
    }
    var p := s.Read();
    while p != 0
      invariant s.Valid() && fresh(s) && s.fs == fs && s.seedot == seedot
      invariant p != 0 ==> p == s.cur && p in s.heap
      invariant WalkAll(fs, argv, {}, true, seedot)
             == visits + (if p != 0 then [Visit(s.heap[p].entry, s.heap[p].info)] else []) + s.Todo()
      invariant p == 0 ==> s.Todo() == [] && s.heap == map[]
      decreases |s.Todo()|, p != 0
    {
      visits := visits + [Visit(s.heap[p].entry, s.heap[p].info)];
      p := s.Read();
    }
  }

  /** A file system with one empty directory. */
  function OneDirectory(): Fs {
    map[Id(0, 1) := Dir([])]
  }

  lemma OneDirectoryWalk(e: Entry, seedot: bool)
    requires e.target == Id(0, 1)
    ensures Closed(OneDirectory()) && EntriesOk(OneDirectory(), [e])
    ensures WalkAll(OneDirectory(), [e], {}, true, seedot) == [Visit(e, D), Visit(e, DP)]
  {
    var fs := OneDirectory();
    FewerLeft(fs, e, {}, true);
    ContentsAre(fs, e, {}, true, seedot);
    assert [e][1..] == [] && WalkAll(fs, [], {}, true, seedot) == [];
    assert Walk(fs, e, {}, true, seedot) == [Visit(e, D)] + Contents(fs, e, {}, seedot);
  }

  /** A walk from "/" that uses paths, when there is nothing to read there: it leaves "/" with an empty path. */
  method LostSlash() returns (s: Stream, p: int)
    ensures fresh(s) && s.Valid() && p in s.heap && s.heap[p].info == DP && s.heap[p].entry.name == "/"
    ensures s.path == ""
  {
    hide Closed, EntriesOk, Rest, Shape, HeapOk, PathsOk, WalkAll, P.LastName, OneDirectory;
    var e := Entry("/", Id(0, 1));
    OneDirectoryWalk(e, false);
    s := new Stream(OneDirectory(), false, true);
    var ok := s.Open([e]);
    ghost var levels0 := s.levels;
    p := s.Read();
    RootShown(s.fs, s.heap, s.root, s.levels, levels0, e);
    assert s.LosesSlash() by {
      NothingThere();
    }
    ghost var levels1 := s.levels;
    p := s.Read();
    LeavePath(levels1);
  }

  lemma RootShown(fs: Fs, heap: Heap, root: int, levels: Levels, levels0: Levels, e: Entry)
    requires Shape(fs, levels) && HeapOk(heap, root, levels)
    requires |levels0| == 1 && |levels0[0]| == 2 && levels0[0][1].entry == e && levels == OnNext(levels0)
    ensures |levels| == 1 && AllNonEmpty(levels) && Cur(levels).entry == e && CurPath(levels) == e.name
    ensures Cur(levels).ptr in heap && heap[Cur(levels).ptr].info == Cur(levels).info
  {
    CurFacts(fs, heap, root, levels);
    NextPlaces(levels0);
    hide Shape, HeapOk;
  }

  lemma NothingThere()
    ensures Id(0, 1) in OneDirectory() && OneDirectory()[Id(0, 1)] == Dir([]) && Listed([], false) == []
  {
  }

  /** The directories entered on the way to the current node are all different. */
  lemma {:induction false} AncestorsDiffer(fs: Fs, levels: Levels, i: nat, j: nat)
    requires Shape(fs, levels) && i < j < |levels| && (j == |levels| - 1 ==> Cur(levels).info == D)
    ensures levels[i][0].entry.target != levels[j][0].entry.target
    decreases |levels|
  {
    if j == |levels| - 1 {
      var pre := Pre(levels);
      assert Pending(fs, Cur(levels), AncOf(pre), pre == []);
      AncMember(pre, Cur(levels).entry.target);
      EntryThere(fs, Cur(levels).entry);
      FewerLeft(fs, Cur(levels).entry, AncOf(pre), pre == []);
      assert pre[i] == levels[i];
    } else {
      AncestorsDiffer(fs, Pre(levels), i, j);
    }
  }
}
