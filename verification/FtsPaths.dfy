/**
 Path names: the name a walk starts from, then the names of the directories entered and
 of the current entry, each after one slash.
 */
module FtsPaths {

  import opened FileTrees
  import opened FtsLevels

  predicate EndsInSlash(path: string) {
    path != "" && path[|path| - 1] == '/'
  }

  /** How much of a path is kept when a slash and a name are put behind it. */
  function Append(path: string): (n: nat)
    ensures n <= |path|
  {
    if EndsInSlash(path) then |path| - 1 else |path|
  }

  function Join(dir: string, name: string): string {
    dir[..Append(dir)] + "/" + name
  }

  /** The path of the last of some nested names. */
  function PathOf(names: seq<string>): string
    requires names != []
  {
    if |names| == 1 then names[0] else Join(PathOf(names[..|names| - 1]), names[|names| - 1])
  }

  /** The names of the directories entered, and of the current entry. */
  function Names(levels: Levels): (names: seq<string>)
    requires forall k | 0 <= k < |levels| :: |levels[k]| > 0
    ensures |names| == |levels| && forall k | 0 <= k < |levels| :: names[k] == levels[k][0].entry.name
  {
    seq(|levels|, k requires 0 <= k < |levels| => levels[k][0].entry.name)
  }

  /** A path goes on from that of its directory. */
  lemma JoinExtends(dir: string, name: string)
    ensures dir <= Join(dir, name) && Join(dir, name) != "" && |Join(dir, name)| == Append(dir) + 1 + |name|
  {
  }

  /** A path is written over whatever was behind the path of its directory. */
  lemma Rewritten(path: string, dir: string, name: string)
    requires dir <= path
    ensures path[..Append(dir)] + "/" + name == Join(dir, name)
  {
  }

  lemma PathSteps(names: seq<string>, name: string)
    requires names != []
    ensures PathOf(names + [name]) == Join(PathOf(names), name)
  {
    assert (names + [name])[..|names|] == names;
  }

  lemma PathIsThere(names: seq<string>)
    requires names != [] && names[0] != ""
    ensures PathOf(names) != ""
  {
    hide Join;
    if |names| > 1 {
      JoinExtends(PathOf(names[..|names| - 1]), names[|names| - 1]);
    }
  }

  lemma JoinEnds(dir: string, name: string)
    requires PlainName(name)
    ensures !EndsInSlash(Join(dir, name))
  {
    assert name[|name| - 1] in name;
  }

  /** Only the name that a walk starts from can leave a slash at the end. */
  lemma SlashOnlyFirst(names: seq<string>)
    requires names != [] && forall k | 1 <= k < |names| :: PlainName(names[k])
    ensures EndsInSlash(PathOf(names)) <==> |names| == 1 && EndsInSlash(names[0])
  {
    hide Join;
    if |names| > 1 {
      JoinEnds(PathOf(names[..|names| - 1]), names[|names| - 1]);
    }
  }

  /** No path holds two slashes in a row that were not in the name the walk started from. */
  lemma {:induction false} NoDoubleSlash(names: seq<string>, i: nat)
    requires names != [] && forall k | 1 <= k < |names| :: PlainName(names[k])
    requires |names[0]| <= i + 1 < |PathOf(names)|
    ensures PathOf(names)[i] != '/' || PathOf(names)[i + 1] != '/'
    decreases |names|
  {
    if |names| > 1 {
      var dir, name := PathOf(names[..|names| - 1]), names[|names| - 1];
      var n := Append(dir);
      assert PathOf(names) == dir[..n] + "/" + name;
      if i + 1 < |dir| && |names[0]| <= i + 1 {
        NoDoubleSlash(names[..|names| - 1], i);
        JoinExtends(dir, name);
        assert PathOf(names)[..|dir|] == dir;
      } else if i >= n {
        assert PathOf(names)[i + 1] in name;
      }
    }
  }

  // ---- the names of roots --------------------------------------------------

  /** Where the last slash of a name is, or -1. */
  function LastSlash(name: string): (i: int)
    ensures -1 <= i < |name| && (i >= 0 ==> name[i] == '/') && forall k | i < k < |name| :: name[k] != '/'
  {
    if name == "" then -1
    else if name[|name| - 1] == '/' then |name| - 1
    else LastSlash(name[..|name| - 1])
  }

  /** What is left of the name of a root: what comes after its last slash, but "/" stays. */
  function LastName(name: string): string {
    var i := LastSlash(name);
    if i >= 0 && (i != 0 || |name| > 1) then name[i + 1..] else name
  }

  /** The last component, after a part that is empty or ends in a slash; empty exactly if the name ends in a slash. */
  lemma LastNameFacts(name: string)
    ensures name != "/" ==> '/' !in LastName(name)
    ensures LastName("/") == "/"
    ensures exists n: nat :: n <= |name| && name[n..] == LastName(name) && (n == 0 || name[n - 1] == '/')
    ensures name != "" ==> (LastName(name) == "" <==> EndsInSlash(name) && name != "/")
  {
    var i := LastSlash(name);
    assert LastSlash("/") == 0;
    hide LastSlash;
    var n := if LastName(name) == name then 0 else i + 1;
    assert name[0..] == name;
    assert name[n..] == LastName(name);
    if name != "/" {
      assert forall k | 0 <= k < |LastName(name)| :: LastName(name)[k] == name[n + k] != '/';
    }
  }
}
