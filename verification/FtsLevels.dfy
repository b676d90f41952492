/**
 The state of a walk in terms of its levels: on each level a list of entries still to be
 dealt with, of which the first is the directory that was entered or, on the last level,
 the entry just visited.  From this follows what the walk has yet to visit.
 */
module FtsLevels {

  import opened FileTrees

  /** A node of the walk, and what it says of its entry. */
  datatype Item = Item(ptr: int, entry: Entry, info: Info)

  type Levels = seq<seq<Item>>

  function EntriesOf(items: seq<Item>): (es: seq<Entry>)
    ensures |es| == |items| && forall i | 0 <= i < |items| :: es[i] == items[i].entry
  {
    seq(|items|, i requires 0 <= i < |items| => items[i].entry)
  }

  /** The directories that have been entered on the way to the level after these. */
  ghost function AncOf(levels: Levels): set<Id>
    requires forall k | 0 <= k < |levels| :: |levels[k]| > 0
  {
    if levels == [] then {} else AncOf(levels[..|levels| - 1]) + {levels[|levels| - 1][0].entry.target}
  }

  ghost predicate Pending(fs: Fs, x: Item, anc: set<Id>, root: bool) {
    EntryOk(fs, x.entry) && x.info == Classify(fs, x.entry, anc, root)
  }

  ghost predicate LevelOk(fs: Fs, anc: set<Id>, root: bool, l: seq<Item>) {
    && |l| > 0
    && (forall j | 1 <= j < |l| :: Pending(fs, l[j], anc, root))
    && (l[0].info == D ==> Pending(fs, l[0], anc, root))
    && (l[0].info == INIT ==> root && |l| >= 2)
  }

  ghost predicate AllNonEmpty(levels: Levels) {
    forall k | 0 <= k < |levels| :: |levels[k]| > 0
  }

  function Pre(levels: Levels): Levels
    requires levels != []
  {
    levels[..|levels| - 1]
  }

  function Last(levels: Levels): seq<Item>
    requires levels != []
  {
    levels[|levels| - 1]
  }

  ghost predicate Shape(fs: Fs, levels: Levels)
    decreases |levels|
  {
    && levels != [] && AllNonEmpty(levels)
    && LevelOk(fs, AncOf(Pre(levels)), Pre(levels) == [], Last(levels))
    && (Pre(levels) != [] ==> Shape(fs, Pre(levels)) && Last(Pre(levels))[0].info == D)
  }

  function Cur(levels: Levels): Item
    requires levels != [] && |Last(levels)| > 0
  {
    Last(levels)[0]
  }

  lemma PendingEntries(fs: Fs, anc: set<Id>, root: bool, l: seq<Item>)
    requires LevelOk(fs, anc, root, l)
    ensures EntriesOk(fs, EntriesOf(l[1..]))
  {
  }

  /** What is still to be visited after everything below the current entry. */
  ghost function After(fs: Fs, levels: Levels, seedot: bool): seq<Visit>
    requires Closed(fs) && Shape(fs, levels)
    decreases |levels|, 0
  {
    var pre, l := Pre(levels), Last(levels);
    Siblings(fs, AncOf(pre), pre == [], l, seedot) + Outside(fs, pre, seedot)
  }

  /** What is to be visited after the first entry of a level, on that level and below. */
  ghost function Siblings(fs: Fs, anc: set<Id>, root: bool, l: seq<Item>, seedot: bool): seq<Visit>
    requires Closed(fs) && LevelOk(fs, anc, root, l)
  {
    PendingEntries(fs, anc, root, l);
    WalkAll(fs, EntriesOf(l[1..]), anc, root, seedot)
  }

  /** What is to be visited when the level after these is done. */
  ghost function Outside(fs: Fs, pre: Levels, seedot: bool): seq<Visit>
    requires Closed(fs) && (pre != [] ==> Shape(fs, pre))
    decreases |pre|, 1
  {
    if pre == [] then [] else [Visit(Cur(pre).entry, DP)] + After(fs, pre, seedot)
  }

  /** All that is still to be visited. */
  ghost function Rest(fs: Fs, levels: Levels, seedot: bool): seq<Visit>
    requires Closed(fs) && Shape(fs, levels)
  {
    Below(fs, Cur(levels), AncOf(Pre(levels)), Pre(levels) == [], seedot) + After(fs, levels, seedot)
  }

  /** What is to be visited below a node that has been visited as x says. */
  ghost function Below(fs: Fs, x: Item, anc: set<Id>, root: bool, seedot: bool): seq<Visit>
    requires Closed(fs) && (x.info == D ==> Pending(fs, x, anc, root))
  {
    if x.info != D then []
    else
      FewerLeft(fs, x.entry, anc, root);
      Contents(fs, x.entry, anc, seedot)
  }

  lemma WalkIsBelow(fs: Fs, x: Item, anc: set<Id>, root: bool, seedot: bool)
    requires Closed(fs) && Pending(fs, x, anc, root)
    ensures Walk(fs, x.entry, anc, root, seedot) == [Visit(x.entry, x.info)] + Below(fs, x, anc, root, seedot)
  {
  }

  // ---- steps of the walk ---------------------------------------------------

  /** The levels when the walk goes on to the next entry of the last level. */
  function OnNext(levels: Levels): Levels
    requires levels != [] && |Last(levels)| > 1
  {
    Pre(levels) + [Last(levels)[1..]]
  }

  /** The levels when the last level is done, and the directory it was in has been left. */
  function OnUp(levels: Levels): Levels
    requires levels != [] && Pre(levels) != [] && |Last(Pre(levels))| > 0
  {
    OnLeave(Pre(levels))
  }

  /** The levels when the current directory is left. */
  function OnLeave(levels: Levels): Levels
    requires levels != [] && |Last(levels)| > 0
  {
    Pre(levels) + [Last(levels)[0 := Last(levels)[0].(info := DP)]]
  }

  lemma PreLast(pre: Levels, l: seq<Item>)
    ensures Pre(pre + [l]) == pre && Last(pre + [l]) == l
  {
  }

  lemma NextSibling(fs: Fs, anc: set<Id>, root: bool, l: seq<Item>, seedot: bool)
    requires Closed(fs) && LevelOk(fs, anc, root, l) && |l| > 1
    ensures LevelOk(fs, anc, root, l[1..]) && l[1].info != INIT
    ensures Siblings(fs, anc, root, l, seedot)
         == [Visit(l[1].entry, l[1].info)] + Below(fs, l[1], anc, root, seedot)
            + Siblings(fs, anc, root, l[1..], seedot)
  {
    hide Walk, Contents, Classify, EntryOk, Closed, LevelOk, Pending, Below;
    NextLevel(fs, anc, root, l);
    WalkIsBelow(fs, l[1], anc, root, seedot);
    PendingEntries(fs, anc, root, l);
    PendingEntries(fs, anc, root, l[1..]);
    assert EntriesOf(l[1..])[1..] == EntriesOf(l[1..][1..]);
    assert EntriesOf(l[1..])[0] == l[1].entry;
  }

  /** A shape that ends in the level l. */
  lemma ShapeWith(fs: Fs, pre: Levels, l: seq<Item>, seedot: bool)
    requires Closed(fs) && AllNonEmpty(pre) && LevelOk(fs, AncOf(pre), pre == [], l)
    requires pre != [] ==> Shape(fs, pre) && Cur(pre).info == D
    ensures Shape(fs, pre + [l])
    ensures Rest(fs, pre + [l], seedot)
         == Below(fs, l[0], AncOf(pre), pre == [], seedot)
            + Siblings(fs, AncOf(pre), pre == [], l, seedot) + Outside(fs, pre, seedot)
  {
  }

  lemma ShapeAsWith(fs: Fs, levels: Levels, seedot: bool)
    requires Closed(fs) && Shape(fs, levels)
    ensures var pre, l := Pre(levels), Last(levels);
            && AllNonEmpty(pre) && LevelOk(fs, AncOf(pre), pre == [], l)
            && (pre != [] ==> Shape(fs, pre) && Cur(pre).info == D)
            && Rest(fs, levels, seedot)
               == Below(fs, l[0], AncOf(pre), pre == [], seedot)
                  + Siblings(fs, AncOf(pre), pre == [], l, seedot) + Outside(fs, pre, seedot)
  {
    hide Siblings, Below, Closed, Outside, AncOf;
  }

  lemma NextRest(fs: Fs, levels: Levels, seedot: bool)
    requires Closed(fs) && Shape(fs, levels) && Cur(levels).info != D && |Last(levels)| > 1
    ensures var levels' := OnNext(levels);
            && Shape(fs, levels') && Cur(levels').info != INIT
            && Rest(fs, levels, seedot)
               == [Visit(Cur(levels').entry, Cur(levels').info)] + Rest(fs, levels', seedot)
  {
    hide Shape, Rest, Closed, LevelOk, AncOf, Siblings, Outside, Below;
    ShapeNonEmpty(fs, levels);
    var pre, l := Pre(levels), Last(levels);
    ShapeAsWith(fs, levels, seedot);
    NotBelow(fs, l[0], AncOf(pre), pre == [], seedot);
    NextSibling(fs, AncOf(pre), pre == [], l, seedot);
    ShapeWith(fs, pre, l[1..], seedot);
    PreLast(pre, l[1..]);
  }

  lemma NextLevel(fs: Fs, anc: set<Id>, root: bool, l: seq<Item>)
    requires LevelOk(fs, anc, root, l) && |l| > 1
    ensures LevelOk(fs, anc, root, l[1..]) && l[1].info != INIT && Pending(fs, l[1], anc, root)
  {
  }

  /** The current directory is left at once, because there is nothing in it. */
  lemma EmptyRest(fs: Fs, levels: Levels, seedot: bool)
    requires Closed(fs) && Shape(fs, levels) && Cur(levels).info == D
    requires Cur(levels).entry.target in fs && fs[Cur(levels).entry.target].Dir?
    requires Listed(fs[Cur(levels).entry.target].entries, seedot) == []
    ensures Shape(fs, OnLeave(levels))
    ensures Rest(fs, levels, seedot) == [Visit(Cur(levels).entry, DP)] + Rest(fs, OnLeave(levels), seedot)
  {
    hide Shape, Rest, Closed, AncOf, Outside, Listed, Classify, Below, Siblings;
    ShapeNonEmpty(fs, levels);
    var pre, l := Pre(levels), Last(levels);
    ShapeAsWith(fs, levels, seedot);
    EmptyInside(fs, l[0], AncOf(pre), pre == [], seedot);
    NotBelow(fs, l[0].(info := DP), AncOf(pre), pre == [], seedot);
    LeftLevel(fs, AncOf(pre), pre == [], l, seedot);
    ShapeWith(fs, pre, l[0 := l[0].(info := DP)], seedot);
  }

  lemma EmptyInside(fs: Fs, x: Item, anc: set<Id>, root: bool, seedot: bool)
    requires Closed(fs) && x.info == D && Pending(fs, x, anc, root) && fs[x.entry.target].Dir?
    requires Listed(fs[x.entry.target].entries, seedot) == []
    ensures Below(fs, x, anc, root, seedot) == [Visit(x.entry, DP)]
  {
    hide Listed, Closed, Classify, EntriesOk, Contents, WalkAll;
    FewerLeft(fs, x.entry, anc, root);
    ContentsAre(fs, x.entry, anc, root, seedot);
    WalkAllIs(fs, Listed(fs[x.entry.target].entries, seedot), anc + {x.entry.target}, false, seedot);
  }

  lemma NotBelow(fs: Fs, x: Item, anc: set<Id>, root: bool, seedot: bool)
    requires Closed(fs) && x.info != D
    ensures Below(fs, x, anc, root, seedot) == []
  {
  }

  lemma LeftLevel(fs: Fs, anc: set<Id>, root: bool, l: seq<Item>, seedot: bool)
    requires Closed(fs) && LevelOk(fs, anc, root, l)
    ensures var l' := l[0 := l[0].(info := DP)];
            LevelOk(fs, anc, root, l') && Siblings(fs, anc, root, l', seedot) == Siblings(fs, anc, root, l, seedot)
  {
  }

  /** The last entry of a level is done, and its directory is left. */
  lemma UpRest(fs: Fs, levels: Levels, seedot: bool)
    requires Closed(fs) && Shape(fs, levels) && Cur(levels).info != D && |Last(levels)| == 1 && Pre(levels) != []
    ensures AllNonEmpty(Pre(levels)) && Shape(fs, OnUp(levels))
    ensures Rest(fs, levels, seedot) == [Visit(Cur(Pre(levels)).entry, DP)] + Rest(fs, OnUp(levels), seedot)
  {
    hide Shape, Closed, AncOf, Classify, WalkAll, Rest;
    ShapeNonEmpty(fs, levels);
    var pre := Pre(levels);
    ShapeAsWith(fs, levels, seedot);
    assert Last(levels)[1..] == [];
    EmptyWalk(fs, AncOf(pre), pre == [], Last(levels), seedot);
    AfterIs(fs, pre, seedot);
    ShapeAsWith(fs, pre, seedot);
    var pre2, l2 := Pre(pre), Last(pre);
    LeftLevel(fs, AncOf(pre2), pre2 == [], l2, seedot);
    ShapeWith(fs, pre2, l2[0 := l2[0].(info := DP)], seedot);
  }

  lemma EmptyWalk(fs: Fs, anc: set<Id>, root: bool, l: seq<Item>, seedot: bool)
    requires Closed(fs) && LevelOk(fs, anc, root, l) && |l| == 1
    ensures Siblings(fs, anc, root, l, seedot) == []
  {
  }

  lemma AfterIs(fs: Fs, levels: Levels, seedot: bool)
    requires Closed(fs) && Shape(fs, levels)
    ensures After(fs, levels, seedot)
         == Siblings(fs, AncOf(Pre(levels)), Pre(levels) == [], Last(levels), seedot)
            + Outside(fs, Pre(levels), seedot)
  {
  }

  /** The last entry of the first level is done, and with it the walk. */
  lemma DoneRest(fs: Fs, levels: Levels, seedot: bool)
    requires Closed(fs) && Shape(fs, levels) && Cur(levels).info != D && |Last(levels)| == 1 && Pre(levels) == []
    ensures Rest(fs, levels, seedot) == []
  {
    hide Closed, AncOf, Classify, WalkAll, Shape, Rest, Siblings;
    ShapeNonEmpty(fs, levels);
    ShapeAsWith(fs, levels, seedot);
    EmptyWalk(fs, AncOf(Pre(levels)), true, Last(levels), seedot);
  }

  /** The current directory is entered. */
  lemma DownRest(fs: Fs, levels: Levels, items: seq<Item>, seedot: bool)
    requires Closed(fs) && Shape(fs, levels) && Cur(levels).info == D && items != []
    requires Cur(levels).entry.target in fs && fs[Cur(levels).entry.target].Dir?
    requires EntriesOf(items) == Listed(fs[Cur(levels).entry.target].entries, seedot)
    requires forall j | 0 <= j < |items| :: Pending(fs, items[j], AncOf(levels), false)
    ensures Shape(fs, levels + [items])
    ensures Rest(fs, levels, seedot)
         == [Visit(items[0].entry, items[0].info)] + Rest(fs, levels + [items], seedot)
  {
    hide Shape, Rest, Closed, Listed, Classify, Pending, Outside, Below, AncOf, Siblings;
    ShapeNonEmpty(fs, levels);
    var pre, l := Pre(levels), Last(levels);
    ShapeAsWith(fs, levels, seedot);
    NewLevel(fs, AncOf(levels), items);
    ShapeWith(fs, levels, items, seedot);
    InsideIs(fs, levels, items, seedot);
    OutsideIs(fs, levels, seedot);
  }

  lemma ShapeNonEmpty(fs: Fs, levels: Levels)
    requires Shape(fs, levels)
    ensures levels != [] && AllNonEmpty(levels)
  {
  }

  lemma NewLevel(fs: Fs, anc: set<Id>, items: seq<Item>)
    requires items != [] && forall j | 0 <= j < |items| :: Pending(fs, items[j], anc, false)
    ensures LevelOk(fs, anc, false, items)
  {
  }

  lemma OutsideIs(fs: Fs, levels: Levels, seedot: bool)
    requires Closed(fs) && Shape(fs, levels)
    ensures Outside(fs, levels, seedot)
         == [Visit(Cur(levels).entry, DP)]
            + (Siblings(fs, AncOf(Pre(levels)), Pre(levels) == [], Last(levels), seedot)
               + Outside(fs, Pre(levels), seedot))
  {
  }

  /** What is below an entered directory begins with the first of its entries. */
  lemma InsideIs(fs: Fs, levels: Levels, items: seq<Item>, seedot: bool)
    requires Closed(fs) && Shape(fs, levels) && Cur(levels).info == D && items != []
    requires Cur(levels).entry.target in fs && fs[Cur(levels).entry.target].Dir?
    requires EntriesOf(items) == Listed(fs[Cur(levels).entry.target].entries, seedot)
    requires LevelOk(fs, AncOf(levels), false, items) && Pending(fs, items[0], AncOf(levels), false)
    ensures Below(fs, Cur(levels), AncOf(Pre(levels)), Pre(levels) == [], seedot)
         == [Visit(items[0].entry, items[0].info)] + Below(fs, items[0], AncOf(levels), false, seedot)
            + Siblings(fs, AncOf(levels), false, items, seedot) + [Visit(Cur(levels).entry, DP)]
  {
    hide Closed, Listed, Classify, Walk, WalkAll, Contents, EntryOk, LevelOk, EntriesOk, EntriesOf;
    ShapeNonEmpty(fs, levels);
    ShapeAsWith(fs, levels, seedot);
    var x, anc, root := Cur(levels), AncOf(Pre(levels)), Pre(levels) == [];
    EnteredLevel(fs, anc, root, Last(levels));
    FewerLeft(fs, x.entry, anc, root);
    ContentsAre(fs, x.entry, anc, root, seedot);
    WalkAllIs(fs, EntriesOf(items), AncOf(levels), false, seedot);
    WalkIsBelow(fs, items[0], AncOf(levels), false, seedot);
    PendingEntries(fs, AncOf(levels), false, items);
    assert EntriesOf(items)[1..] == EntriesOf(items[1..]);
    assert EntriesOf(items)[0] == items[0].entry;
  }

  lemma EnteredLevel(fs: Fs, anc: set<Id>, root: bool, l: seq<Item>)
    requires LevelOk(fs, anc, root, l) && l[0].info == D
    ensures Pending(fs, l[0], anc, root)
  {
  }
}
