/**
 Directory graphs, and the order in which a walk over them should visit things: a
 directory before and after its contents, anything else once, and a directory that is
 its own ancestor once as a cycle.
 */
module FileTrees {

  /** What identifies a file. */
  datatype Id = Id(dev: int, ino: int)

  datatype Entry = Entry(name: string, target: Id)

  datatype Info = INIT | D | DC | DOT | DP | F | SL | DEFAULT

  /** A directory with its entries in the order they are read, or any other file. */
  datatype Inode = Dir(entries: seq<Entry>) | Other(info: Info)

  type Fs = map<Id, Inode>

  predicate IsDot(name: string) {
    name == "." || name == ".."
  }

  predicate EntryOk(fs: Fs, e: Entry) {
    e.target in fs && (fs[e.target].Other? ==> fs[e.target].info in {F, SL, DEFAULT})
  }

  ghost predicate EntriesOk(fs: Fs, es: seq<Entry>) {
    forall i | 0 <= i < |es| :: EntryOk(fs, es[i])
  }

  /** The names that a directory can hold. */
  predicate PlainName(name: string) {
    name != "" && '/' !in name
  }

  /** Every entry leads to a file. */
  ghost predicate Closed(fs: Fs) {
    forall d | d in fs && fs[d].Dir? ::
      EntriesOk(fs, fs[d].entries) && forall i | 0 <= i < |fs[d].entries| :: PlainName(fs[d].entries[i].name)
  }

  /** The entries that a walk looks at; "." and ".." only if they are asked for. */
  function Listed(es: seq<Entry>, seedot: bool): seq<Entry> {
    if es == [] then []
    else if !seedot && IsDot(es[0].name) then Listed(es[1..], seedot)
    else [es[0]] + Listed(es[1..], seedot)
  }

  lemma {:induction false} ListedOk(fs: Fs, es: seq<Entry>, seedot: bool)
    requires EntriesOk(fs, es)
    ensures EntriesOk(fs, Listed(es, seedot))
  {
    if es != [] {
      ListedOk(fs, es[1..], seedot);
    }
  }

  lemma {:induction false} ListedNext(es: seq<Entry>, i: nat, seedot: bool)
    requires i < |es|
    ensures Listed(es[..i + 1], seedot)
         == Listed(es[..i], seedot) + if !seedot && IsDot(es[i].name) then [] else [es[i]]
    decreases i
  {
    if i > 0 {
      ListedNext(es[1..], i - 1, seedot);
      assert es[1..][..i] == es[..i + 1][1..] && es[1..][..i - 1] == es[..i][1..];
    } else {
      assert es[..1][1..] == [] && es[..0] == [];
    }
  }

  datatype Visit = Visit(entry: Entry, info: Info)

  /** How an entry below the directories anc is reported; the entries a walk starts from are never dots. */
  function Classify(fs: Fs, e: Entry, anc: set<Id>, root: bool): Info
    requires e.target in fs
  {
    match fs[e.target]
    case Other(info) => info
    case Dir(_) =>
      if !root && IsDot(e.name) then DOT
      else if e.target in anc then DC
      else D
  }

  /** The visits for one entry. */
  ghost function Walk(fs: Fs, e: Entry, anc: set<Id>, root: bool, seedot: bool): (r: seq<Visit>)
    requires Closed(fs) && EntryOk(fs, e)
    ensures |r| > 0 && r[0] == Visit(e, Classify(fs, e, anc, root))
    decreases |fs.Keys - anc|, 0, 0
  {
    var info := Classify(fs, e, anc, root);
    if info != D then [Visit(e, info)]
    else
      FewerLeft(fs, e, anc, root);
      [Visit(e, D)] + Contents(fs, e, anc, seedot)
  }

  /** The visits for what is in a directory that is entered, and for leaving it. */
  ghost function Contents(fs: Fs, e: Entry, anc: set<Id>, seedot: bool): seq<Visit>
    requires Closed(fs) && EntryOk(fs, e) && fs[e.target].Dir? && |fs.Keys - (anc + {e.target})| < |fs.Keys - anc|
    decreases |fs.Keys - (anc + {e.target})|, 2, 0
  {
    ListedOk(fs, fs[e.target].entries, seedot);
    WalkAll(fs, Listed(fs[e.target].entries, seedot), anc + {e.target}, false, seedot) + [Visit(e, DP)]
  }

  ghost function WalkAll(fs: Fs, es: seq<Entry>, anc: set<Id>, root: bool, seedot: bool): seq<Visit>
    requires Closed(fs) && EntriesOk(fs, es)
    decreases |fs.Keys - anc|, 1, |es|
  {
    if es == [] then []
    else Walk(fs, es[0], anc, root, seedot) + WalkAll(fs, es[1..], anc, root, seedot)
  }

  /** Each directory that is entered was not among its ancestors. */
  lemma FewerLeft(fs: Fs, e: Entry, anc: set<Id>, root: bool)
    requires EntryOk(fs, e) && Classify(fs, e, anc, root) == D
    ensures fs[e.target].Dir? && e.target !in anc
    ensures |fs.Keys - (anc + {e.target})| < |fs.Keys - anc|
  {
    assert fs.Keys - (anc + {e.target}) == (fs.Keys - anc) - {e.target};
  }

  lemma ContentsAre(fs: Fs, e: Entry, anc: set<Id>, root: bool, seedot: bool)
    requires Closed(fs) && EntryOk(fs, e) && Classify(fs, e, anc, root) == D
    ensures fs[e.target].Dir? && |fs.Keys - (anc + {e.target})| < |fs.Keys - anc|
    ensures EntriesOk(fs, Listed(fs[e.target].entries, seedot))
    ensures Contents(fs, e, anc, seedot)
         == WalkAll(fs, Listed(fs[e.target].entries, seedot), anc + {e.target}, false, seedot) + [Visit(e, DP)]
  {
    hide Listed;
    FewerLeft(fs, e, anc, root);
    ListedOk(fs, fs[e.target].entries, seedot);
  }

  lemma WalkAllIs(fs: Fs, es: seq<Entry>, anc: set<Id>, root: bool, seedot: bool)
    requires Closed(fs) && EntriesOk(fs, es)
    ensures es == [] ==> WalkAll(fs, es, anc, root, seedot) == []
    ensures es != [] ==>
              WalkAll(fs, es, anc, root, seedot)
              == Walk(fs, es[0], anc, root, seedot) + WalkAll(fs, es[1..], anc, root, seedot)
  {
  }

  // ---- what is visited -----------------------------------------------------

  /** One entry is listed unless its name is "." or ".." and dots are not asked for. */
  lemma ListedOne(e: Entry, seedot: bool)
    ensures Listed([e], seedot) == if !seedot && e.name in {".", ".."} then [] else [e]
  {
    assert [e][1..] == [];
  }

  /** Entries are listed one by one, in their order. */
  lemma {:induction false} ListedInOrder(es: seq<Entry>, fs: seq<Entry>, seedot: bool)
    ensures Listed(es + fs, seedot) == Listed(es, seedot) + Listed(fs, seedot)
    decreases |es|
  {
    if es == [] {
      assert es + fs == fs;
    } else {
      assert (es + fs)[1..] == es[1..] + fs;
      ListedInOrder(es[1..], fs, seedot);
    }
  }

  /** Exactly the names "." and ".." are left out. */
  lemma {:induction false} ListedIff(es: seq<Entry>, seedot: bool, e: Entry)
    ensures e in Listed(es, seedot) <==> e in es && (seedot || (e.name != "." && e.name != ".."))
  {
    if es != [] {
      ListedIff(es[1..], seedot, e);
    }
  }

  /** How an entry is reported. */
  lemma ReportedAs(fs: Fs, e: Entry, anc: set<Id>, root: bool)
    requires EntryOk(fs, e)
    ensures var info := Classify(fs, e, anc, root);
            && (fs[e.target].Other? ==> info == fs[e.target].info)
            && (fs[e.target].Dir? && !root && (e.name == "." || e.name == "..") ==> info == DOT)
            && (fs[e.target].Dir? && (root || (e.name != "." && e.name != "..")) ==>
                  info == if e.target in anc then DC else D)
  {
  }

  /** Every entry has its visit. */
  lemma {:induction false} AllVisited(fs: Fs, es: seq<Entry>, anc: set<Id>, root: bool, seedot: bool, e: Entry)
    requires Closed(fs) && EntriesOk(fs, es) && e in es
    ensures EntryOk(fs, e) && Visit(e, Classify(fs, e, anc, root)) in WalkAll(fs, es, anc, root, seedot)
    decreases |es|
  {
    hide Walk, Classify;
    WalkAllIs(fs, es, anc, root, seedot);
    if es[0] != e {
      AllVisited(fs, es[1..], anc, root, seedot, e);
    }
  }

  /** The visits d and x are both there. */
  ghost predicate Both(visits: seq<Visit>, d: Entry, x: Entry) {
    Visit(d, DP) in visits && exists info :: Visit(x, info) in visits
  }

  /** The entries of a directory that was entered, but for dots, are all visited, and it is left again. */
  ghost predicate Complete(fs: Fs, visits: seq<Visit>, seedot: bool) {
    forall d, x | Visit(d, D) in visits && d.target in fs && fs[d.target].Dir? && x in fs[d.target].entries
                  && (seedot || (x.name != "." && x.name != "..")) ::
      Both(visits, d, x)
  }

  lemma CompleteBoth(fs: Fs, a: seq<Visit>, b: seq<Visit>, seedot: bool)
    requires Complete(fs, a, seedot) && Complete(fs, b, seedot)
    ensures Complete(fs, a + b, seedot)
  {
    forall d, x | Visit(d, D) in a + b && d.target in fs && fs[d.target].Dir? && x in fs[d.target].entries
                  && (seedot || (x.name != "." && x.name != ".."))
      ensures Both(a + b, d, x)
    {
      if Visit(d, D) in a {
        assert Both(a, d, x);
      } else {
        assert Both(b, d, x);
      }
    }
  }

  lemma {:induction false} WalkComplete(fs: Fs, e: Entry, anc: set<Id>, root: bool, seedot: bool)
    requires Closed(fs) && EntryOk(fs, e)
    ensures Complete(fs, Walk(fs, e, anc, root, seedot), seedot)
    decreases |fs.Keys - anc|, 0, 0
  {
    hide WalkAll, Listed, Complete, Closed, Contents, Walk, Classify;
    WalkIs(fs, e, anc, root, seedot);
    if Classify(fs, e, anc, root) == D {
      FewerLeft(fs, e, anc, root);
      ContentsAre(fs, e, anc, root, seedot);
      var es := Listed(fs[e.target].entries, seedot);
      AllComplete(fs, es, anc + {e.target}, false, seedot);
      EnteredComplete(fs, e, WalkAll(fs, es, anc + {e.target}, false, seedot), anc, seedot);
    } else {
      NotEntered(fs, Visit(e, Classify(fs, e, anc, root)), seedot);
    }
  }

  lemma WalkIs(fs: Fs, e: Entry, anc: set<Id>, root: bool, seedot: bool)
    requires Closed(fs) && EntryOk(fs, e)
    ensures Classify(fs, e, anc, root) != D ==>
              Walk(fs, e, anc, root, seedot) == [Visit(e, Classify(fs, e, anc, root))]
    ensures Classify(fs, e, anc, root) == D ==>
              && fs[e.target].Dir? && |fs.Keys - (anc + {e.target})| < |fs.Keys - anc|
              && Walk(fs, e, anc, root, seedot) == [Visit(e, D)] + Contents(fs, e, anc, seedot)
  {
    hide Contents, Closed, Classify;
    if Classify(fs, e, anc, root) == D {
      FewerLeft(fs, e, anc, root);
    }
  }

  lemma NotEntered(fs: Fs, v: Visit, seedot: bool)
    requires v.info != D
    ensures Complete(fs, [v], seedot)
  {
  }

  /** A directory around the visits to its entries. */
  lemma EnteredComplete(fs: Fs, e: Entry, inside: seq<Visit>, anc: set<Id>, seedot: bool)
    requires Closed(fs) && e.target in fs && fs[e.target].Dir? && Complete(fs, inside, seedot)
    requires EntriesOk(fs, Listed(fs[e.target].entries, seedot))
    requires inside == WalkAll(fs, Listed(fs[e.target].entries, seedot), anc + {e.target}, false, seedot)
    ensures Complete(fs, [Visit(e, D)] + (inside + [Visit(e, DP)]), seedot)
  {
    hide WalkAll, Listed, Closed, EntriesOk, Classify, EntryOk;
    var all := [Visit(e, D)] + (inside + [Visit(e, DP)]);
    assert Visit(e, DP) in all && forall v | v in inside :: v in all;
    forall d, x | Visit(d, D) in all && d.target in fs && fs[d.target].Dir? && x in fs[d.target].entries
                  && (seedot || (x.name != "." && x.name != ".."))
      ensures Both(all, d, x)
    {
      if d == e {
        ListedIff(fs[e.target].entries, seedot, x);
        AllVisited(fs, Listed(fs[e.target].entries, seedot), anc + {e.target}, false, seedot, x);
      } else {
        assert Visit(d, D) in inside;
        assert Both(inside, d, x);
      }
    }
  }

  /** In a whole walk: every root is visited, and every entry, but for dots, of every directory that is entered. */
  lemma {:induction false} AllComplete(fs: Fs, es: seq<Entry>, anc: set<Id>, root: bool, seedot: bool)
    requires Closed(fs) && EntriesOk(fs, es)
    ensures Complete(fs, WalkAll(fs, es, anc, root, seedot), seedot)
    ensures forall e | e in es :: exists info :: Visit(e, info) in WalkAll(fs, es, anc, root, seedot)
    decreases |fs.Keys - anc|, 1, |es|
  {
    hide Walk, Complete, Classify;
    WalkAllIs(fs, es, anc, root, seedot);
    if es == [] {
      NoneEntered(fs, seedot);
    } else {
      WalkComplete(fs, es[0], anc, root, seedot);
      AllComplete(fs, es[1..], anc, root, seedot);
      CompleteBoth(fs, Walk(fs, es[0], anc, root, seedot), WalkAll(fs, es[1..], anc, root, seedot), seedot);
    }
    forall e | e in es
      ensures exists info :: Visit(e, info) in WalkAll(fs, es, anc, root, seedot)
    {
      AllVisited(fs, es, anc, root, seedot, e);
    }
  }

  lemma NoneEntered(fs: Fs, seedot: bool)
    ensures Complete(fs, [], seedot)
  {
  }
}
