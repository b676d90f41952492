/**
 The hash table of allocation sites: entries in doubly linked chains, one chain for each
 slot, found by call stack and size.
 */
module LeakChains {

  const HASHTABLE_SIZE: nat := 1543
  const WORD: nat := 0x1_0000_0000

  /** What entries are told apart by: where an allocation was made, and its size with the flag bit. */
  datatype Key = Key(backtrace: seq<int>, size: nat)

  datatype Entry = Entry(slot: nat, prev: int, next: int, key: Key, allocations: int)

  type Entries = map<int, Entry>

  type Chain = seq<int>

  /** The hash of a call stack, in 32 bits. */
  function Hash(backtrace: seq<int>): (h: nat)
    ensures h < WORD
  {
    if backtrace == [] then 0
    else (Hash(backtrace[..|backtrace| - 1]) * 33 + backtrace[|backtrace| - 1] / 4) % WORD
  }

  function SlotOf(key: Key): (i: nat)
    ensures i < HASHTABLE_SIZE
  {
    Hash(key.backtrace) % HASHTABLE_SIZE
  }

  // ---- one chain -----------------------------------------------------------

  function NextIn(c: Chain, k: nat): int {
    if k + 1 < |c| then c[k + 1] else 0
  }

  function PrevIn(c: Chain, k: nat): int
    requires k < |c|
  {
    if k > 0 then c[k - 1] else 0
  }

  function HeadOf(c: Chain): int {
    if c == [] then 0 else c[0]
  }

  ghost predicate Distinct(c: Chain) {
    forall i, j | 0 <= i < j < |c| :: c[i] != c[j]
  }

  /** The entry at place k of the chain of a slot. */
  ghost predicate LinkOk(entries: Entries, slot: nat, c: Chain, k: nat)
    requires k < |c|
  {
    && c[k] != 0 && c[k] in entries
    && entries[c[k]].slot == slot && entries[c[k]].next == NextIn(c, k) && entries[c[k]].prev == PrevIn(c, k)
  }

  ghost predicate ChainOk(entries: Entries, slot: nat, c: Chain) {
    Distinct(c) && forall k | 0 <= k < |c| :: LinkOk(entries, slot, c, k)
  }

  // ---- the table -----------------------------------------------------------

  ghost predicate ChainsOk(slots: seq<int>, entries: Entries, chains: seq<Chain>) {
    && |slots| == |chains| == HASHTABLE_SIZE
    && (forall i | 0 <= i < HASHTABLE_SIZE :: slots[i] == HeadOf(chains[i]) && ChainOk(entries, i, chains[i]))
  }

  /** Every entry is in the chain of its slot, which is the one its key hashes to. */
  ghost predicate AllFiled(entries: Entries, chains: seq<Chain>) {
    && |chains| == HASHTABLE_SIZE
    && (forall e | e in entries ::
          entries[e].slot == SlotOf(entries[e].key) && e in chains[entries[e].slot])
  }

  ghost predicate KeysDiffer(entries: Entries) {
    forall e, e' | e in entries && e' in entries && entries[e].key == entries[e'].key :: e == e'
  }

  ghost predicate TableOk(slots: seq<int>, entries: Entries, chains: seq<Chain>) {
    ChainsOk(slots, entries, chains) && AllFiled(entries, chains) && KeysDiffer(entries)
  }

  // ---- a new entry at the head of its chain --------------------------------

  function Pushed(entries: Entries, e: int, key: Key, head: int): Entries
    requires head == 0 || head in entries
  {
    var entries' := entries[e := Entry(SlotOf(key), 0, head, key, 1)];
    if head == 0 then entries' else entries'[head := entries[head].(prev := e)]
  }

  lemma HeadThere(slots: seq<int>, entries: Entries, chains: seq<Chain>, i: nat)
    requires ChainsOk(slots, entries, chains) && i < HASHTABLE_SIZE
    ensures slots[i] == 0 || slots[i] in entries
  {
    assert ChainOk(entries, i, chains[i]);
    if chains[i] != [] {
      assert LinkOk(entries, i, chains[i], 0);
    }
  }

  lemma PushedOwn(entries: Entries, e: int, key: Key, c: Chain)
    requires ChainOk(entries, SlotOf(key), c) && e != 0 && e !in entries
    requires HeadOf(c) == 0 || HeadOf(c) in entries
    ensures ChainOk(Pushed(entries, e, key, HeadOf(c)), SlotOf(key), [e] + c)
  {
    hide SlotOf;
    var c', entries' := [e] + c, Pushed(entries, e, key, HeadOf(c));
    forall k | 0 <= k < |c'|
      ensures LinkOk(entries', SlotOf(key), c', k)
    {
      if k > 0 {
        assert LinkOk(entries, SlotOf(key), c, k - 1);
      }
    }
    forall i, j | 0 <= i < j < |c'|
      ensures c'[i] != c'[j]
    {
      assert LinkOk(entries, SlotOf(key), c, j - 1);
    }
  }

  /** A chain that neither changed entry is in. */
  lemma PushedOther(entries: Entries, e: int, key: Key, head: int, i: nat, c: Chain)
    requires ChainOk(entries, i, c) && i != SlotOf(key) && e !in entries
    requires head != 0 ==> head in entries && entries[head].slot == SlotOf(key)
    ensures head == 0 || head in entries
    ensures ChainOk(Pushed(entries, e, key, head), i, c)
  {
    hide SlotOf;
    var entries' := Pushed(entries, e, key, head);
    forall k | 0 <= k < |c|
      ensures LinkOk(entries', i, c, k)
    {
      assert LinkOk(entries, i, c, k);
    }
  }

  lemma PushedChains(slots: seq<int>, entries: Entries, chains: seq<Chain>, e: int, key: Key)
    requires ChainsOk(slots, entries, chains) && e != 0 && e !in entries
    ensures var i := SlotOf(key);
            && (slots[i] == 0 || slots[i] in entries)
            && ChainsOk(slots[i := e], Pushed(entries, e, key, slots[i]), chains[i := [e] + chains[i]])
  {
    hide SlotOf, ChainOk, Pushed;
    var s := SlotOf(key);
    HeadThere(slots, entries, chains, s);
    HeadSlot(entries, s, chains[s]);
    var slots', entries', chains' := slots[s := e], Pushed(entries, e, key, slots[s]), chains[s := [e] + chains[s]];
    forall i | 0 <= i < HASHTABLE_SIZE
      ensures slots'[i] == HeadOf(chains'[i]) && ChainOk(entries', i, chains'[i])
    {
      if i == s {
        PushedOwn(entries, e, key, chains[s]);
      } else {
        PushedOther(entries, e, key, slots[s], i, chains[i]);
      }
    }
  }

  lemma HeadSlot(entries: Entries, i: nat, c: Chain)
    requires ChainOk(entries, i, c)
    ensures HeadOf(c) != 0 ==> HeadOf(c) in entries && entries[HeadOf(c)].slot == i
  {
    if c != [] {
      assert LinkOk(entries, i, c, 0);
    }
  }

  lemma PushedFiled(entries: Entries, chains: seq<Chain>, e: int, key: Key, head: int)
    requires AllFiled(entries, chains) && e !in entries && (head == 0 || head in entries)
    ensures AllFiled(Pushed(entries, e, key, head), chains[SlotOf(key) := [e] + chains[SlotOf(key)]])
  {
  }

  lemma PushedKeys(entries: Entries, e: int, key: Key, head: int)
    requires KeysDiffer(entries) && e !in entries && (head == 0 || head in entries)
    requires forall x | x in entries :: entries[x].key != key
    ensures KeysDiffer(Pushed(entries, e, key, head))
  {
  }

  lemma PushedTable(slots: seq<int>, entries: Entries, chains: seq<Chain>, e: int, key: Key)
    requires TableOk(slots, entries, chains) && e != 0 && e !in entries
    requires forall x | x in entries :: entries[x].key != key
    ensures var i := SlotOf(key);
            && (slots[i] == 0 || slots[i] in entries)
            && TableOk(slots[i := e], Pushed(entries, e, key, slots[i]), chains[i := [e] + chains[i]])
  {
    hide SlotOf, ChainOk, AllFiled, KeysDiffer, Pushed;
    PushedChains(slots, entries, chains, e, key);
    PushedFiled(entries, chains, e, key, slots[SlotOf(key)]);
    PushedKeys(entries, e, key, slots[SlotOf(key)]);
  }

  // ---- an entry taken out of its chain -------------------------------------

  function Bypassed(entries: Entries, e: int): Entries
    requires e in entries
    requires entries[e].prev == 0 || entries[e].prev in entries
    requires entries[e].next == 0 || entries[e].next in entries
  {
    var prev, next := entries[e].prev, entries[e].next;
    var entries1 := if prev == 0 then entries else entries[prev := entries[prev].(next := next)];
    if next == 0 then entries1 else entries1[next := entries1[next].(prev := prev)]
  }

  function Dropped(c: Chain, k: nat): (c': Chain)
    requires k < |c|
    ensures |c'| == |c| - 1
    ensures forall j | 0 <= j < |c| - 1 :: c'[j] == c[if j < k then j else j + 1]
  {
    c[..k] + c[k + 1..]
  }

  lemma Neighbours(entries: Entries, s: nat, c: Chain, k: nat)
    requires ChainOk(entries, s, c) && k < |c|
    ensures c[k] in entries && entries[c[k]].slot == s && c[k] != 0
    ensures entries[c[k]].prev == PrevIn(c, k) && entries[c[k]].next == NextIn(c, k)
    ensures k > 0 ==> c[k - 1] in entries && c[k - 1] != 0 && entries[c[k - 1]].slot == s && c[k - 1] != c[k]
    ensures k + 1 < |c| ==> c[k + 1] in entries && c[k + 1] != 0 && entries[c[k + 1]].slot == s && c[k + 1] != c[k]
  {
    assert LinkOk(entries, s, c, k);
    if k > 0 {
      assert LinkOk(entries, s, c, k - 1);
    }
    if k + 1 < |c| {
      assert LinkOk(entries, s, c, k + 1);
    }
  }

  lemma DroppedLinks(c: Chain, k: nat, j: nat)
    requires k < |c| && j < |c| - 1
    ensures var i := if j < k then j else j + 1;
            && NextIn(Dropped(c, k), j) == (if i + 1 == k then NextIn(c, k) else NextIn(c, i))
            && PrevIn(Dropped(c, k), j) == (if i == k + 1 then PrevIn(c, k) else PrevIn(c, i))
  {
  }

  lemma BypassedOwn(entries: Entries, s: nat, c: Chain, k: nat)
    requires ChainOk(entries, s, c) && k < |c|
    ensures c[k] in entries && (entries[c[k]].prev == 0 || entries[c[k]].prev in entries)
    ensures entries[c[k]].next == 0 || entries[c[k]].next in entries
    ensures ChainOk(Bypassed(entries, c[k]) - {c[k]}, s, Dropped(c, k))
  {
    Neighbours(entries, s, c, k);
    var e, c' := c[k], Dropped(c, k);
    var entries' := Bypassed(entries, e) - {e};
    hide Dropped;
    forall j | 0 <= j < |c'|
      ensures LinkOk(entries', s, c', j)
    {
      var i := if j < k then j else j + 1;
      DroppedLinks(c, k, j);
      assert LinkOk(entries, s, c, i) && c'[j] == c[i];
      BypassedAt(entries, s, c, k, i);
    }
  }

  /** What becomes of another entry of the chain. */
  lemma BypassedAt(entries: Entries, s: nat, c: Chain, k: nat, i: nat)
    requires ChainOk(entries, s, c) && k < |c| && i < |c| && i != k
    requires c[k] in entries && (entries[c[k]].prev == 0 || entries[c[k]].prev in entries)
    requires entries[c[k]].next == 0 || entries[c[k]].next in entries
    ensures c[i] in entries && c[i] in Bypassed(entries, c[k]) && c[i] != c[k]
    ensures var x := entries[c[i]];
            Bypassed(entries, c[k])[c[i]]
            == x.(next := if i + 1 == k then NextIn(c, k) else x.next,
                  prev := if i == k + 1 then PrevIn(c, k) else x.prev)
  {
    Neighbours(entries, s, c, k);
    assert LinkOk(entries, s, c, i) && LinkOk(entries, s, c, k);
    assert c[i] != c[k];
    assert k > 0 && i != k - 1 ==> c[i] != c[k - 1];
    assert k + 1 < |c| && i != k + 1 ==> c[i] != c[k + 1];
  }

  lemma BypassedOther(entries: Entries, s: nat, c: Chain, k: nat, i: nat, d: Chain)
    requires ChainOk(entries, s, c) && k < |c| && i != s && ChainOk(entries, i, d)
    requires c[k] in entries && (entries[c[k]].prev == 0 || entries[c[k]].prev in entries)
    requires entries[c[k]].next == 0 || entries[c[k]].next in entries
    ensures ChainOk(Bypassed(entries, c[k]) - {c[k]}, i, d)
  {
    Neighbours(entries, s, c, k);
    var entries' := Bypassed(entries, c[k]) - {c[k]};
    forall j | 0 <= j < |d|
      ensures LinkOk(entries', i, d, j)
    {
      assert LinkOk(entries, i, d, j);
    }
  }

  /** The heads of the chains without the entry at place k of chain s. */
  function NewHeads(slots: seq<int>, entries: Entries, e: int): seq<int>
    requires e in entries && entries[e].slot < |slots|
  {
    if entries[e].prev == 0 then slots[entries[e].slot := entries[e].next] else slots
  }

  lemma BypassedChains(slots: seq<int>, entries: Entries, chains: seq<Chain>, s: nat, k: nat)
    requires ChainsOk(slots, entries, chains) && s < HASHTABLE_SIZE && k < |chains[s]|
    ensures var e := chains[s][k];
            && e in entries && entries[e].slot == s
            && (entries[e].prev == 0 || entries[e].prev in entries) && (entries[e].next == 0 || entries[e].next in entries)
            && ChainsOk(NewHeads(slots, entries, e), Bypassed(entries, e) - {e}, chains[s := Dropped(chains[s], k)])
  {
    hide ChainOk, Bypassed;
    var c := chains[s];
    var e := c[k];
    Neighbours(entries, s, c, k);
    BypassedOwn(entries, s, c, k);
    var slots', entries', chains' := NewHeads(slots, entries, e), Bypassed(entries, e) - {e}, chains[s := Dropped(c, k)];
    forall i | 0 <= i < HASHTABLE_SIZE
      ensures slots'[i] == HeadOf(chains'[i]) && ChainOk(entries', i, chains'[i])
    {
      if i != s {
        BypassedOther(entries, s, c, k, i, chains[i]);
      } else {
        HeadWithout(c, k);
      }
    }
  }

  lemma HeadWithout(c: Chain, k: nat)
    requires k < |c|
    ensures HeadOf(Dropped(c, k)) == if k == 0 then NextIn(c, k) else HeadOf(c)
    ensures k > 0 && c[k - 1] != 0 ==> PrevIn(c, k) != 0
  {
  }

  lemma BypassedKeeps(entries: Entries, e: int, x: int)
    requires e in entries && (entries[e].prev == 0 || entries[e].prev in entries)
    requires (entries[e].next == 0 || entries[e].next in entries) && x in entries
    ensures x in Bypassed(entries, e)
    ensures Bypassed(entries, e)[x]
         == entries[x].(prev := Bypassed(entries, e)[x].prev, next := Bypassed(entries, e)[x].next)
    ensures Bypassed(entries, e).Keys == entries.Keys
  {
  }

  lemma BypassedTable(slots: seq<int>, entries: Entries, chains: seq<Chain>, s: nat, k: nat)
    requires TableOk(slots, entries, chains) && s < HASHTABLE_SIZE && k < |chains[s]|
    ensures var e := chains[s][k];
            && e in entries && entries[e].slot == s
            && (entries[e].prev == 0 || entries[e].prev in entries) && (entries[e].next == 0 || entries[e].next in entries)
            && TableOk(NewHeads(slots, entries, e), Bypassed(entries, e) - {e}, chains[s := Dropped(chains[s], k)])
  {
    hide SlotOf, ChainOk, Bypassed, Dropped, NewHeads;
    BypassedChains(slots, entries, chains, s, k);
    var e := chains[s][k];
    var entries', chains' := Bypassed(entries, e) - {e}, chains[s := Dropped(chains[s], k)];
    BypassedKeeps(entries, e, e);
    forall x | x in entries'
      ensures x in entries && entries'[x].slot == entries[x].slot && entries'[x].key == entries[x].key
      ensures x in chains'[entries'[x].slot]
    {
      BypassedKeeps(entries, e, x);
      StillThere(chains[entries[x].slot], chains[s], k, x);
    }
  }

  lemma StillThere(c: Chain, d: Chain, k: nat, x: int)
    requires x in c && k < |d| && x != d[k]
    ensures c == d ==> x in Dropped(d, k)
  {
  }

  /** The place of an entry in its chain. */
  lemma PlaceOf(entries: Entries, chains: seq<Chain>, e: int) returns (k: nat)
    requires AllFiled(entries, chains) && e in entries
    ensures k < |chains[entries[e].slot]| && chains[entries[e].slot][k] == e
  {
    var c := chains[entries[e].slot];
    k :| 0 <= k < |c| && c[k] == e;
  }
}
