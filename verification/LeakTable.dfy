/**
 Allocation with a record of who allocated what: every block has a header that leads to
 the entry for its call stack and size, and the table counts the blocks of each entry.
 */
module LeakTable {

  import opened Alignments
  import C = ChunkSizes
  import opened LeakChains
  import opened MapSums

  const SIZE_FLAG: nat := 0x8000_0000
  const MALLOC_ALIGNMENT: nat := 8

  /** A block that is lent out: its recorded size, its entry, and the address its user has. */
  datatype Block = Block(bytes: nat, entry: int, user: int)

  type Live = map<int, Block>

  /** The two words before an address: a header, or the way back to the block around it. */
  datatype Tag = Header(entry: int) | Forward(base: int)

  // ---- accounts ------------------------------------------------------------

  ghost function UsesOf(live: Live, e: int): map<int, int> {
    map b | b in live :: if live[b].entry == e then 1 else 0
  }

  ghost function BytesOf(live: Live): map<int, int> {
    map b | b in live :: live[b].bytes
  }

  /** What the entries account for: the size, without the flag, times the number of blocks. */
  ghost function AccountOf(entries: Entries): map<int, int> {
    map e | e in entries :: Account(entries[e].key, entries[e].allocations)
  }

  function Account(key: Key, n: int): int {
    key.size % SIZE_FLAG * n
  }

  ghost predicate BlocksOk(entries: Entries, live: Live) {
    forall b | b in live ::
      live[b].entry in entries && entries[live[b].entry].key.size % SIZE_FLAG == live[b].bytes
  }

  /** Each entry counts its blocks, and none is without. */
  ghost predicate CountsOk(entries: Entries, live: Live) {
    forall e | e in entries :: entries[e].allocations == Sum(UsesOf(live, e)) && entries[e].allocations > 0
  }

  /** The table accounts for exactly the bytes of the blocks. */
  ghost predicate Balanced(entries: Entries, live: Live) {
    Sum(AccountOf(entries)) == Sum(BytesOf(live))
  }

  ghost predicate Accounts(entries: Entries, live: Live) {
    BlocksOk(entries, live) && CountsOk(entries, live) && Balanced(entries, live)
  }

  // ---- one more block ------------------------------------------------------

  lemma MoreUses(live: Live, b: int, x: Block, e: int)
    requires b !in live
    ensures Sum(UsesOf(live[b := x], e)) == Sum(UsesOf(live, e)) + if x.entry == e then 1 else 0
  {
    var d := if x.entry == e then 1 else 0;
    SumAdd(UsesOf(live, e), b, d);
    assert UsesOf(live[b := x], e) == UsesOf(live, e)[b := d];
  }

  lemma MoreBytes(live: Live, b: int, x: Block)
    requires b !in live
    ensures Sum(BytesOf(live[b := x])) == Sum(BytesOf(live)) + x.bytes
  {
    SumAdd(BytesOf(live), b, x.bytes);
    assert BytesOf(live[b := x]) == BytesOf(live)[b := x.bytes];
  }

  /** An entry that is there counts one block more. */
  lemma CountedAgain(entries: Entries, live: Live, e: int, b: int, x: Block)
    requires Accounts(entries, live) && e in entries && b !in live && x.entry == e
    requires x.bytes == entries[e].key.size % SIZE_FLAG
    ensures var entries' := entries[e := entries[e].(allocations := entries[e].allocations + 1)];
            Accounts(entries', live[b := x])
  {
    hide Sum;
    var n := entries[e].allocations + 1;
    var entries' := entries[e := entries[e].(allocations := n)];
    forall y | y in entries'
      ensures entries'[y].allocations == Sum(UsesOf(live[b := x], y)) && entries'[y].allocations > 0
    {
      MoreUses(live, b, x, y);
    }
    MoreBytes(live, b, x);
    SumUpdate(AccountOf(entries), e, Account(entries[e].key, n));
    assert AccountOf(entries') == AccountOf(entries)[e := Account(entries[e].key, n)];
    OneTimesMore(entries[e].key, entries[e].allocations);
  }

  lemma OneTimesMore(key: Key, n: int)
    ensures Account(key, n + 1) == Account(key, n) + key.size % SIZE_FLAG
    ensures Account(key, 1) == key.size % SIZE_FLAG
  {
  }

  /** The same blocks are counted when only links of entries change. */
  ghost predicate SameCounts(entries: Entries, entries': Entries) {
    && entries'.Keys == entries.Keys
    && forall e | e in entries :: entries'[e].key == entries[e].key && entries'[e].allocations == entries[e].allocations
  }

  /** What a block is recorded under: its call stack and its size, with a flag for processes of the zygote. */
  function KeyOf(backtrace: seq<int>, bytes: nat, zygote: bool): Key {
    Key(backtrace, if zygote then bytes + SIZE_FLAG else bytes)
  }

  /**
   One more block is recorded under e: the entry of the key if there is one, which counts
   one more, and otherwise the new entry spare.  All other entries stay.
   */
  ghost predicate Recorded(entries: Entries, entries': Entries, e: int, key: Key, spare: int) {
    if exists x :: x in entries && entries[x].key == key then
      && e in entries && entries[e].key == key
      && entries' == entries[e := entries[e].(allocations := entries[e].allocations + 1)]
    else
      && e == spare && e in entries' && entries'[e].key == key && entries'[e].allocations == 1
      && SameCounts(entries, entries' - {e})
  }

  /** One block less under e, which goes with the last.  All other entries stay. */
  ghost predicate Forgotten(entries: Entries, entries': Entries, e: int)
    requires e in entries
  {
    if entries[e].allocations == 1 then SameCounts(entries - {e}, entries')
    else entries' == entries[e := entries[e].(allocations := entries[e].allocations - 1)]
  }

  lemma NotUsed(entries: Entries, live: Live, e: int)
    requires BlocksOk(entries, live) && e !in entries
    ensures Sum(UsesOf(live, e)) == 0
  {
    assert forall b | b in live :: UsesOf(live, e)[b] == 0;
    SumZero(UsesOf(live, e));
  }

  lemma PushedSame(entries: Entries, e: int, key: Key, head: int)
    requires e !in entries && (head == 0 || head in entries)
    ensures Pushed(entries, e, key, head).Keys == entries.Keys + {e}
    ensures SameCounts(entries, Pushed(entries, e, key, head) - {e})
    ensures Pushed(entries, e, key, head)[e].key == key && Pushed(entries, e, key, head)[e].allocations == 1
  {
  }

  lemma FirstBlocks(entries: Entries, entries': Entries, live: Live, e: int, b: int, x: Block)
    requires BlocksOk(entries, live) && e !in entries && x.entry == e
    requires e in entries' && SameCounts(entries, entries' - {e}) && x.bytes == entries'[e].key.size % SIZE_FLAG
    ensures BlocksOk(entries', live[b := x])
  {
  }

  lemma FirstCounts(entries: Entries, entries': Entries, live: Live, e: int, b: int, x: Block)
    requires BlocksOk(entries, live) && CountsOk(entries, live) && e !in entries && b !in live && x.entry == e
    requires e in entries' && entries'[e].allocations == 1 && SameCounts(entries, entries' - {e})
    ensures CountsOk(entries', live[b := x])
  {
    hide Sum, BlocksOk;
    NotUsed(entries, live, e);
    forall y | y in entries'
      ensures entries'[y].allocations == Sum(UsesOf(live[b := x], y)) && entries'[y].allocations > 0
    {
      assert y != e ==> y in entries' - {e};
      MoreUses(live, b, x, y);
    }
  }

  /** A new entry counts one block. */
  lemma CountedFirst(entries: Entries, entries': Entries, live: Live, e: int, b: int, x: Block)
    requires Accounts(entries, live) && e !in entries && b !in live && x.entry == e
    requires e in entries' && entries'[e].allocations == 1 && SameCounts(entries, entries' - {e})
    requires x.bytes == entries'[e].key.size % SIZE_FLAG
    ensures Accounts(entries', live[b := x])
  {
    hide Sum, Account, BlocksOk, CountsOk, SameCounts;
    FirstBlocks(entries, entries', live, e, b, x);
    FirstCounts(entries, entries', live, e, b, x);
    MoreBytes(live, b, x);
    OneTimesMore(entries'[e].key, 1);
    SumTake(AccountOf(entries'), e);
    SameAccounts(entries, entries', e);
  }

  lemma SameAccounts(entries: Entries, entries': Entries, e: int)
    requires SameCounts(entries, entries' - {e}) && e !in entries
    ensures AccountOf(entries') - {e} == AccountOf(entries)
  {
    hide Account;
    forall y | y in entries
      ensures y in entries' && entries'[y].key == entries[y].key && entries'[y].allocations == entries[y].allocations
    {
      assert y in entries' - {e};
    }
  }

  // ---- one block less ------------------------------------------------------

  lemma FewerUses(live: Live, b: int, e: int)
    requires b in live
    ensures Sum(UsesOf(live - {b}, e)) == Sum(UsesOf(live, e)) - if live[b].entry == e then 1 else 0
  {
    SumTake(UsesOf(live, e), b);
    assert UsesOf(live - {b}, e) == UsesOf(live, e) - {b};
  }

  lemma FewerBytes(live: Live, b: int)
    requires b in live
    ensures Sum(BytesOf(live - {b})) == Sum(BytesOf(live)) - live[b].bytes
  {
    SumTake(BytesOf(live), b);
    assert BytesOf(live - {b}) == BytesOf(live) - {b};
  }

  /** The entry still counts other blocks. */
  lemma CountedLess(entries: Entries, live: Live, b: int)
    requires Accounts(entries, live) && b in live
    requires live[b].entry in entries && entries[live[b].entry].allocations > 1
    ensures var e := live[b].entry;
            Accounts(entries[e := entries[e].(allocations := entries[e].allocations - 1)], live - {b})
  {
    hide Sum;
    var e := live[b].entry;
    var n := entries[e].allocations - 1;
    var entries' := entries[e := entries[e].(allocations := n)];
    forall y | y in entries'
      ensures entries'[y].allocations == Sum(UsesOf(live - {b}, y)) && entries'[y].allocations > 0
    {
      FewerUses(live, b, y);
    }
    FewerBytes(live, b);
    SumUpdate(AccountOf(entries), e, Account(entries[e].key, n));
    assert AccountOf(entries') == AccountOf(entries)[e := Account(entries[e].key, n)];
    OneTimesMore(entries[e].key, n);
  }

  /** It was the only block of its entry, which goes too; the links of other entries may change. */
  lemma CountedLast(entries: Entries, entries': Entries, live: Live, b: int)
    requires Accounts(entries, live) && b in live
    requires live[b].entry in entries && entries[live[b].entry].allocations == 1
    requires SameCounts(entries - {live[b].entry}, entries')
    ensures Accounts(entries', live - {b})
  {
    hide Sum, Account;
    var e := live[b].entry;
    forall y | y in entries'
      ensures entries'[y].allocations == Sum(UsesOf(live - {b}, y)) && entries'[y].allocations > 0
    {
      assert y in entries - {e};
      FewerUses(live, b, y);
    }
    FewerBytes(live, b);
    SumTake(AccountOf(entries), e);
    OneTimesMore(entries[e].key, 1);
    SameLess(entries, entries', e);
    forall b' | b' in live - {b}
      ensures live[b'].entry in entries'
    {
      OnlyUse(entries, live, b, b');
    }
  }

  lemma SameLess(entries: Entries, entries': Entries, e: int)
    requires SameCounts(entries - {e}, entries')
    ensures AccountOf(entries') == AccountOf(entries) - {e}
  {
    hide Account;
    forall y | y in entries'
      ensures y in entries && entries'[y].key == entries[y].key && entries'[y].allocations == entries[y].allocations
    {
      assert y in entries - {e};
    }
  }

  lemma OnlyUse(entries: Entries, live: Live, b: int, b': int)
    requires Accounts(entries, live) && b in live && b' in live && b' != b
    requires live[b].entry in entries && entries[live[b].entry].allocations == 1
    ensures live[b'].entry != live[b].entry
  {
    var m := UsesOf(live, live[b].entry);
    SumTake(m, b);
    SumZero(m - {b});
    assert b' in m - {b} && (m - {b})[b'] == m[b'];
  }

  // ---- addresses -----------------------------------------------------------

  /** Blocks lie apart, each with its header of eight bytes before it, and hold their users' addresses. */
  ghost predicate Placed(live: Live) {
    && (forall b | b in live ::
          b > 0 && b % 8 == 0 && (live[b].user == b || b + 8 <= live[b].user <= b + live[b].bytes))
    && (forall b, b' | b in live && b' in live && b != b' ::
          b + live[b].bytes <= b' - 8 || b' + live[b'].bytes <= b - 8)
  }

  /** The words before a user's address lead to the entry of its block. */
  ghost predicate Tagged(tags: map<int, Tag>, live: Live) {
    forall b | b in live ::
      && b in tags && tags[b] == Header(live[b].entry)
      && (live[b].user != b ==> live[b].user in tags && tags[live[b].user] == Forward(b))
  }

  /** A new block, not inside or around any other. */
  ghost predicate Fits(live: Live, b: int, bytes: nat) {
    && b > 0 && b % 8 == 0
    && forall b' | b' in live :: b + bytes <= b' - 8 || b' + live[b'].bytes <= b - 8
  }

  lemma NewBlock(tags: map<int, Tag>, live: Live, b: int, x: Block)
    requires Placed(live) && Tagged(tags, live) && Fits(live, b, x.bytes) && x.user == b
    ensures b !in live && Placed(live[b := x]) && Tagged(tags[b := Header(x.entry)], live[b := x])
  {
  }

  /** The user is given another address, further inside. */
  lemma Moved(tags: map<int, Tag>, live: Live, b: int, user: int)
    requires Placed(live) && Tagged(tags, live) && b in live && live[b].user == b
    requires b + 8 <= user <= b + live[b].bytes
    ensures var live' := live[b := live[b].(user := user)];
            Placed(live') && Tagged(tags[user := Forward(b)], live')
  {
    var live' := live[b := live[b].(user := user)];
    var tags' := tags[user := Forward(b)];
    forall c | c in live'
      ensures c in tags' && tags'[c] == Header(live'[c].entry)
      ensures live'[c].user != c ==> live'[c].user in tags' && tags'[live'[c].user] == Forward(c)
    {
      if c != b {
        OtherAddress(live, b, c, user);
      }
    }
    MovedPlaces(live, b, user);
  }

  /** An address inside one block is not that of another, nor of its user. */
  lemma OtherAddress(live: Live, b: int, c: int, x: int)
    requires Placed(live) && b in live && c in live && c != b && b < x <= b + live[b].bytes
    ensures x != c && x != live[c].user
  {
  }

  lemma MovedPlaces(live: Live, b: int, user: int)
    requires Placed(live) && b in live && b + 8 <= user <= b + live[b].bytes
    ensures Placed(live[b := live[b].(user := user)])
  {
  }

  /** Any other address would not be in its place. */
  lemma MovedIff(tags: map<int, Tag>, live: Live, b: int, user: int)
    requires Placed(live) && Tagged(tags, live) && b in live && live[b].user == b && user % 8 == 0 && user != b
    ensures var live' := live[b := live[b].(user := user)];
            Placed(live') && Tagged(tags[user := Forward(b)], live') <==> b <= user <= b + live[b].bytes
  {
    if b <= user <= b + live[b].bytes {
      OneOfEights(live, b, user);
      hide Placed, Tagged;
      Moved(tags, live, b, user);
    } else {
      MovedOut(live, b, user);
      hide Placed, Tagged;
    }
  }

  lemma OneOfEights(live: Live, b: int, user: int)
    requires Placed(live) && b in live && user % 8 == 0 && b < user
    ensures b + 8 <= user
  {
  }

  lemma MovedOut(live: Live, b: int, user: int)
    requires b in live && user != b && !(b + 8 <= user <= b + live[b].bytes)
    ensures !Placed(live[b := live[b].(user := user)])
  {
    var live' := live[b := live[b].(user := user)];
    assert b in live' && live'[b].user == user;
  }

  lemma OldBlock(tags: map<int, Tag>, live: Live, b: int)
    requires Placed(live) && Tagged(tags, live)
    ensures Placed(live - {b}) && Tagged(tags, live - {b})
  {
  }

  // ---- the table as an object ----------------------------------------------

  /** Where the search for a key in its chain stands. */
  lemma SearchStep(slots: seq<int>, entries: Entries, chains: seq<Chain>, i: nat, k: nat)
    requires ChainsOk(slots, entries, chains) && i < HASHTABLE_SIZE && k < |chains[i]|
    ensures chains[i][k] != 0 && chains[i][k] in entries && entries[chains[i][k]].next == NextIn(chains[i], k)
  {
    assert ChainOk(entries, i, chains[i]);
    assert LinkOk(entries, i, chains[i], k);
  }

  lemma NotInChain(entries: Entries, chains: seq<Chain>, key: Key)
    requires AllFiled(entries, chains)
    requires forall j | 0 <= j < |chains[SlotOf(key)]| ::
               chains[SlotOf(key)][j] in entries && entries[chains[SlotOf(key)][j]].key != key
    ensures forall x | x in entries :: entries[x].key != key
  {
  }

  class Table {
    var slots: seq<int>
    var entries: Entries
    var count: int
    var tags: map<int, Tag>
    ghost var chains: seq<Chain>
    ghost var live: Live

    ghost predicate Valid()
      reads this
    {
      Tallied() && Placed(live) && Tagged(tags, live)
    }

    /** The table and its counts, without the addresses of blocks. */
    ghost predicate Tallied()
      reads this
    {
      TableOk(slots, entries, chains) && count == |entries| && Accounts(entries, live)
    }

    constructor ()
      ensures Valid() && live == map[] && entries == map[]
    {
      slots := seq(HASHTABLE_SIZE, _ => 0);
      entries, count, tags := map[], 0, map[];
      chains := seq(HASHTABLE_SIZE, _ => []);
      live := map[];
    }

    method GetHash(backtrace: seq<int>) returns (hash: nat)
      ensures hash == Hash(backtrace)
    {
      hash := 0;
      var i := 0;
      while i < |backtrace|
        invariant 0 <= i <= |backtrace| && hash == Hash(backtrace[..i])
      {
        assert backtrace[..i + 1][..i] == backtrace[..i];
        hash := (hash * 33 + backtrace[i] / 4) % WORD;
        i := i + 1;
      }
      assert backtrace[..i] == backtrace;
    }

    /** The entry with this key, or 0 if there is none. */
    method FindEntry(slot: nat, key: Key) returns (e: int)
      requires TableOk(slots, entries, chains) && slot == SlotOf(key)
      ensures e != 0 ==> e in entries && entries[e].key == key
      ensures e == 0 ==> forall x | x in entries :: entries[x].key != key
    {
      hide SlotOf, ChainOk, AllFiled, KeysDiffer;
      ghost var c := chains[slot];
      ghost var k := 0;
      e := slots[slot];
      while e != 0
        invariant 0 <= k <= |c| && e == (if k < |c| then c[k] else 0)
        invariant forall j | 0 <= j < k :: c[j] in entries && entries[c[j]].key != key
        decreases |c| - k
      {
        SearchStep(slots, entries, chains, slot, k);
        if entries[e].key == key {
          return;
        }
        e := entries[e].next;
        k := k + 1;
      }
      if k < |c| {
        SearchStep(slots, entries, chains, slot, k);
      }
      NotInChain(entries, chains, key);
    }

    /** Counts the block b for its key, in an entry that is there or in a new one at address spare. */
    method RecordBacktrace(backtrace: seq<int>, bytes: nat, zygote: bool, spare: int, ghost b: int) returns (e: int)
      requires Tallied() && bytes < SIZE_FLAG && spare != 0 && spare !in entries && b !in live
      modifies this`slots, this`entries, this`count, this`chains, this`live
      ensures Tallied() && live == old(live)[b := Block(bytes, e, b)]
      ensures e in entries && entries[e].key == KeyOf(backtrace, bytes, zygote)
      ensures Recorded(old(entries), entries, e, KeyOf(backtrace, bytes, zygote), spare)
    {
      hide TableOk, Accounts, SlotOf, SameCounts;
      var hash := GetHash(backtrace);
      var slot := hash % HASHTABLE_SIZE;
      var size := if zygote then bytes + SIZE_FLAG else bytes;
      var key := Key(backtrace, size);
      SlotIs(key, slot);
      e := FindEntry(slot, key);
      if e != 0 {
        CountMore(e, b, bytes);
      } else {
        e := spare;
        AddEntry(e, key, slot, b, bytes);
      }
    }

    method CountMore(e: int, ghost b: int, ghost bytes: nat)
      requires Tallied() && e in entries && b !in live && bytes == entries[e].key.size % SIZE_FLAG
      modifies this`entries, this`live
      ensures Tallied() && live == old(live)[b := Block(bytes, e, b)]
      ensures entries == old(entries)[e := old(entries)[e].(allocations := old(entries)[e].allocations + 1)]
    {
      hide TableOk, Accounts;
      CountedAgain(entries, live, e, b, Block(bytes, e, b));
      AllocationsOnly(slots, entries, chains, e, entries[e].allocations + 1);
      entries := entries[e := entries[e].(allocations := entries[e].allocations + 1)];
      live := live[b := Block(bytes, e, b)];
      assert entries.Keys == old(entries).Keys;
    }

    method AddEntry(e: int, key: Key, slot: nat, ghost b: int, ghost bytes: nat)
      requires Tallied() && e != 0 && e !in entries && b !in live && slot == SlotOf(key)
      requires bytes == key.size % SIZE_FLAG && forall x | x in entries :: entries[x].key != key
      modifies this`slots, this`entries, this`count, this`chains, this`live
      ensures Tallied() && live == old(live)[b := Block(bytes, e, b)] && e in entries && entries[e].key == key
      ensures entries[e].allocations == 1 && SameCounts(old(entries), entries - {e})
    {
      hide TableOk, Accounts, SlotOf, Pushed, SameCounts;
      TableParts(slots, entries, chains);
      PushedTable(slots, entries, chains, e, key);
      PushedSame(entries, e, key, slots[slot]);
      CountedFirst(entries, Pushed(entries, e, key, slots[slot]), live, e, b, Block(bytes, e, b));
      PushEntry(e, key, slot);
      count := count + 1;
      live := live[b := Block(bytes, e, b)];
    }

    /** Links a new entry in at the head of its chain. */
    method PushEntry(e: int, key: Key, slot: nat)
      requires |slots| == |chains| == HASHTABLE_SIZE && slot == SlotOf(key) && e !in entries
      requires slots[slot] == 0 || slots[slot] in entries
      modifies this`slots, this`entries, this`chains
      ensures slots == old(slots)[slot := e] && chains == old(chains)[slot := [e] + old(chains)[slot]]
      ensures entries == Pushed(old(entries), e, key, old(slots)[slot])
    {
      hide SlotOf;
      var next := slots[slot];
      entries := entries[e := Entry(slot, 0, next, key, 1)];
      slots := slots[slot := e];
      if next != 0 {
        entries := entries[next := entries[next].(prev := e)];
      }
      chains := chains[slot := [e] + chains[slot]];
    }

    /** Links the neighbours of an entry to each other. */
    method Unlink(e: int)
      requires e in entries && entries[e].slot < |slots|
      requires (entries[e].prev == 0 || entries[e].prev in entries) && (entries[e].next == 0 || entries[e].next in entries)
      modifies this`slots, this`entries
      ensures slots == NewHeads(old(slots), old(entries), e) && entries == Bypassed(old(entries), e)
    {
      var slot, prev, next := entries[e].slot, entries[e].prev, entries[e].next;
      if prev != 0 {
        entries := entries[prev := entries[prev].(next := next)];
      }
      if next != 0 {
        entries := entries[next := entries[next].(prev := prev)];
      }
      if prev == 0 {
        slots := slots[slot := next];
      }
    }

    /** Takes the entry e, which counts only the block b, out of the table and frees it. */
    method RemoveEntry(e: int, ghost b: int)
      requires Tallied() && b in live && live[b].entry == e && e in entries && entries[e].allocations == 1
      modifies this`slots, this`entries, this`count, this`chains, this`live
      ensures Tallied() && live == old(live) - {b} && SameCounts(old(entries) - {e}, entries)
    {
      hide TableOk, Accounts, Bypassed, Dropped, SameCounts;
      ghost var k := EntryPlace(slots, entries, chains, e);
      ghost var s := entries[e].slot;
      BypassedTable(slots, entries, chains, s, k);
      BypassedSame(entries, e);
      CountedLast(entries, Bypassed(entries, e) - {e}, live, b);
      SlotInRange(slots, entries, chains, e);
      hide NewHeads;
      Unlink(e);
      count := count - 1;
      entries := entries - {e};
      chains := chains[s := Dropped(chains[s], k)];
      live := live - {b};
    }

    /** A block at base, as the allocator gave it, is recorded and lent out. */
    method LeakMalloc(bytes: nat, base: int, backtrace: seq<int>, zygote: bool, spare: int) returns (mem: int)
      requires Valid() && bytes < SIZE_FLAG && Fits(live, base, bytes) && spare != 0 && spare !in entries
      modifies this
      ensures Valid() && mem == base && base !in old(live) && base in live
      ensures live == old(live)[base := Block(bytes, live[base].entry, base)]
      ensures Recorded(old(entries), entries, live[base].entry, KeyOf(backtrace, bytes, zygote), spare)
    {
      hide TableOk, Accounts, Placed, Tagged, Fits, Recorded;
      NewBlock(tags, live, base, Block(bytes, 0, base));
      var e := RecordBacktrace(backtrace, bytes, zygote, spare, base);
      NewBlock(tags, old(live), base, Block(bytes, e, base));
      tags := tags[base := Header(e)];
      mem := base;
    }

    /** The block that the address mem was given out for, b, is taken back. */
    method LeakFree(mem: int, ghost b: int)
      requires Valid() && (mem != 0 ==> b in live && live[b].user == mem)
      modifies this
      ensures Valid() && live == if mem == 0 then old(live) else old(live) - {b}
      ensures mem == 0 ==> entries == old(entries)
      ensures mem != 0 ==> old(live)[b].entry in old(entries) && Forgotten(old(entries), entries, old(live)[b].entry)
    {
      hide TableOk, Accounts;
      if mem != 0 {
        var header := tags[mem];
        if header.Forward? {
          header := tags[header.base];
        }
        BlockEntry(entries, live, b);
        OldBlock(tags, live, b);
        hide Placed, Tagged;
        var e := header.entry;
        var n := entries[e].allocations - 1;
        if n <= 0 {
          RemoveEntry(e, b);
        } else {
          CountedLess(entries, live, b);
          AllocationsOnly(slots, entries, chains, e, n);
          entries := entries[e := entries[e].(allocations := n)];
          assert entries.Keys == old(entries).Keys;
          live := live - {b};
        }
      }
    }

    /**
     A block to hold one of bytes bytes at a multiple of the alignment.  The sum of the two
     is a 32-bit one: there is room for the bytes exactly if it does not wrap around.
     */
    method LeakMemalign(alignment: nat, bytes: nat, base: int, backtrace: seq<int>, zygote: bool, spare: int)
      returns (mem: int, ghost al: nat)
      requires Valid() && alignment < LeakChains.WORD && bytes < LeakChains.WORD && spare != 0 && spare !in entries
      requires Padded(alignment, bytes) < SIZE_FLAG && Fits(live, base, Padded(alignment, bytes))
      requires base + Padded(alignment, bytes) < LeakChains.WORD
      modifies this
      ensures Tallied() && base !in old(live) && base in live
      ensures live == old(live)[base := Block(Padded(alignment, bytes), live[base].entry, mem)]
      ensures Recorded(old(entries), entries, live[base].entry, KeyOf(backtrace, Padded(alignment, bytes), zygote), spare)
      ensures al == Rounded(alignment) && AlignedTo(mem, al)
      ensures mem < base + al && (base <= mem || (mem == 0 && base + al > LeakChains.WORD))
      ensures base <= mem && mem + bytes <= base + live[base].bytes <==> !SumWraps(alignment, bytes)
      ensures Valid() <==> base <= mem <= base + live[base].bytes
    {
      hide TableOk, Accounts, Tagged, PowerOfTwo, StepUp, LargestPower, Rounded, Padded, SumWraps, Placed, Recorded;
      al := Rounded(alignment);
      PaddedFacts(alignment, bytes);
      if alignment <= MALLOC_ALIGNMENT {
        mem := LeakMalloc(bytes, base, backtrace, zygote, spare);
        return;
      }
      var align := if PowerOfTwo(alignment) then alignment else LargestPower(alignment);
      RoundedFacts(alignment);
      var size := (align - MALLOC_ALIGNMENT + bytes) % LeakChains.WORD;
      mem := LeakMalloc(size, base, backtrace, zygote, spare);
      if mem % align != 0 {
        UpFacts(base, align);
        mem := (base + StepUp(base, align)) % LeakChains.WORD;
        MovedIff(tags, live, base, mem);
        UserOnly(entries, live, base, mem);
        tags := tags[mem := Forward(base)];
        live := live[base := live[base].(user := mem)];
      }
    }

    /** The entries of one chain are added to the list, and their bytes to the total. */
    method ReportChain(i: nat, list0: seq<int>, total0: int) returns (list: seq<int>, total: int)
      requires TableOk(slots, entries, chains) && i < HASHTABLE_SIZE
      requires Listed(entries, chains, i, 0, list0) && total0 == Sum(AccountOf(Part(entries, list0)))
      ensures Listed(entries, chains, i + 1, 0, list) && total == Sum(AccountOf(Part(entries, list)))
    {
      hide TableOk, Listed, Sum, AccountOf, Part;
      TableParts(slots, entries, chains);
      list, total := list0, total0;
      ghost var c := chains[i];
      ghost var k := 0;
      ChainHead(slots, entries, chains, i);
      var e := slots[i];
      while e != 0
        invariant 0 <= k <= |c| && e == (if k < |c| then c[k] else 0)
        invariant Listed(entries, chains, i, k, list) && total == Sum(AccountOf(Part(entries, list)))
        decreases |c| - k
      {
        ChainStep(slots, entries, chains, i, k);
        ListedMore(slots, entries, chains, i, k, list);
        total := total + entries[e].key.size % SIZE_FLAG * entries[e].allocations;
        list := list + [e];
        e := entries[e].next;
        k := k + 1;
      }
      if k < |c| {
        ChainStep(slots, entries, chains, i, k);
      }
      ListedChain(slots, entries, chains, i, list);
    }

    /** The list of all entries, as many as the count says, and the bytes of all blocks. */
    method Report() returns (list: seq<int>, total: int)
      requires Valid()
      ensures |list| == count && (set e | e in list) == entries.Keys
      ensures total == Sum(BytesOf(live))
    {
      hide TableOk, Listed, Sum, AccountOf, Part, BytesOf, BlocksOk, CountsOk;
      list, total := [], 0;
      NoneListed(slots, entries, chains);
      var i := 0;
      while i < HASHTABLE_SIZE
        invariant 0 <= i <= HASHTABLE_SIZE
        invariant Listed(entries, chains, i, 0, list) && total == Sum(AccountOf(Part(entries, list)))
      {
        list, total := ReportChain(i, list, total);
        i := i + 1;
      }
      AllListed(slots, entries, chains, list);
    }
  }

  // ---- the report ----------------------------------------------------------

  /** Entries in the list are those of the chains before i and of the first k places of chain i, each once. */
  ghost predicate Listed(entries: Entries, chains: seq<Chain>, i: nat, k: nat, list: seq<int>) {
    && |chains| == HASHTABLE_SIZE
    && (forall x, y | 0 <= x < y < |list| :: list[x] != list[y])
    && (forall e | e in list :: e in entries && Before(chains, entries[e].slot, e, i, k))
    && (forall e | e in entries && Before(chains, entries[e].slot, e, i, k) :: e in list)
  }

  /** e, of slot s, is in a chain before i, or in the first k places of chain i. */
  ghost predicate Before(chains: seq<Chain>, s: nat, e: int, i: nat, k: nat) {
    s < i || (s == i < |chains| && k <= |chains[i]| && e in chains[i][..k])
  }

  ghost function Part(entries: Entries, list: seq<int>): Entries {
    map e | e in entries && e in list :: entries[e]
  }

  lemma ChainHead(slots: seq<int>, entries: Entries, chains: seq<Chain>, i: nat)
    requires TableOk(slots, entries, chains) && i < HASHTABLE_SIZE
    ensures slots[i] == HeadOf(chains[i])
  {
  }

  lemma ChainStep(slots: seq<int>, entries: Entries, chains: seq<Chain>, i: nat, k: nat)
    requires TableOk(slots, entries, chains) && i < HASHTABLE_SIZE && k < |chains[i]|
    ensures chains[i][k] != 0 && chains[i][k] in entries && entries[chains[i][k]].next == NextIn(chains[i], k)
  {
    hide ChainOk, AllFiled, KeysDiffer;
    SearchStep(slots, entries, chains, i, k);
  }

  lemma ChainEntry(slots: seq<int>, entries: Entries, chains: seq<Chain>, i: nat, k: nat)
    requires TableOk(slots, entries, chains) && i < HASHTABLE_SIZE && k < |chains[i]|
    ensures chains[i][k] in entries && entries[chains[i][k]].slot == i && chains[i][k] !in chains[i][..k]
  {
    hide AllFiled, KeysDiffer;
    assert ChainOk(entries, i, chains[i]);
    assert LinkOk(entries, i, chains[i], k);
  }

  lemma ListedMore(slots: seq<int>, entries: Entries, chains: seq<Chain>, i: nat, k: nat, list: seq<int>)
    requires TableOk(slots, entries, chains) && i < HASHTABLE_SIZE && k < |chains[i]| && Listed(entries, chains, i, k, list)
    ensures var e := chains[i][k];
            && e in entries && Listed(entries, chains, i, k + 1, list + [e])
            && Sum(AccountOf(Part(entries, list + [e])))
               == Sum(AccountOf(Part(entries, list))) + Account(entries[e].key, entries[e].allocations)
  {
    hide TableOk, Sum, Account;
    ChainEntry(slots, entries, chains, i, k);
    var e := chains[i][k];
    assert chains[i][..k + 1] == chains[i][..k] + [e];
    assert e !in list;
    assert Part(entries, list + [e]) == Part(entries, list)[e := entries[e]];
    SumAdd(AccountOf(Part(entries, list)), e, Account(entries[e].key, entries[e].allocations));
    assert AccountOf(Part(entries, list)[e := entries[e]])
        == AccountOf(Part(entries, list))[e := Account(entries[e].key, entries[e].allocations)];
  }

  lemma ListedChain(slots: seq<int>, entries: Entries, chains: seq<Chain>, i: nat, list: seq<int>)
    requires TableOk(slots, entries, chains) && i < |chains| && Listed(entries, chains, i, |chains[i]|, list)
    ensures Listed(entries, chains, i + 1, 0, list)
  {
  }

  lemma NoneListed(slots: seq<int>, entries: Entries, chains: seq<Chain>)
    requires TableOk(slots, entries, chains)
    ensures Listed(entries, chains, 0, 0, []) && Sum(AccountOf(Part(entries, []))) == 0
  {
  }

  lemma AllListed(slots: seq<int>, entries: Entries, chains: seq<Chain>, list: seq<int>)
    requires TableOk(slots, entries, chains) && Listed(entries, chains, HASHTABLE_SIZE, 0, list)
    ensures (set e | e in list) == entries.Keys && Part(entries, list) == entries && |list| == |entries|
  {
    hide ChainsOk, KeysDiffer, SlotOf;
    forall e | e in entries
      ensures e in list
    {
      assert entries[e].slot == SlotOf(entries[e].key) < HASHTABLE_SIZE;
      assert Before(chains, entries[e].slot, e, HASHTABLE_SIZE, 0);
    }
    SetOfList(list);
    assert (set e | e in list) == entries.Keys;
  }

  lemma {:induction false} SetOfList(list: seq<int>)
    requires forall x, y | 0 <= x < y < |list| :: list[x] != list[y]
    ensures |set e | e in list| == |list|
  {
    if list != [] {
      var n := |list| - 1;
      SetOfList(list[..n]);
      assert list == list[..n] + [list[n]];
      assert list[n] !in list[..n];
      assert (set e | e in list) == (set e | e in list[..n]) + {list[n]};
    }
  }

  /** The alignment that is used: the asked one, or the power of two below it; at least 8. */
  function Rounded(alignment: nat): nat {
    if alignment <= MALLOC_ALIGNMENT then MALLOC_ALIGNMENT
    else if PowerOfTwo(alignment) then alignment
    else LargestPower(alignment)
  }

  /** The size that is recorded, a sum of 32 bits. */
  function Padded(alignment: nat, bytes: nat): nat
    requires alignment < LeakChains.WORD
  {
    if alignment <= MALLOC_ALIGNMENT then bytes
    else
      RoundedFacts(alignment);
      (Rounded(alignment) - MALLOC_ALIGNMENT + bytes) % LeakChains.WORD
  }

  /** The sum does not fit in 32 bits. */
  predicate SumWraps(alignment: nat, bytes: nat) {
    alignment > MALLOC_ALIGNMENT && Rounded(alignment) - MALLOC_ALIGNMENT + bytes >= LeakChains.WORD
  }

  lemma PaddedFacts(alignment: nat, bytes: nat)
    requires alignment < LeakChains.WORD && bytes < LeakChains.WORD
    ensures alignment <= MALLOC_ALIGNMENT ==> Rounded(alignment) == 8 && Padded(alignment, bytes) == bytes
    ensures alignment > MALLOC_ALIGNMENT ==>
              && Rounded(alignment) == (if PowerOfTwo(alignment) then alignment else LargestPower(alignment))
              && Padded(alignment, bytes) == (Rounded(alignment) - MALLOC_ALIGNMENT + bytes) % LeakChains.WORD
    ensures alignment <= MALLOC_ALIGNMENT ==> !SumWraps(alignment, bytes)
    ensures SumWraps(alignment, bytes) ==> Padded(alignment, bytes) < bytes
    ensures alignment > MALLOC_ALIGNMENT && !SumWraps(alignment, bytes) ==>
              Padded(alignment, bytes) == Rounded(alignment) - MALLOC_ALIGNMENT + bytes
  {
    hide PowerOfTwo, LargestPower;
    if alignment > MALLOC_ALIGNMENT {
      RoundedFacts(alignment);
      WrapOnce(Rounded(alignment) - MALLOC_ALIGNMENT + bytes);
    }
  }

  lemma WrapOnce(x: nat)
    requires x < 2 * LeakChains.WORD
    ensures x % LeakChains.WORD == if x < LeakChains.WORD then x else x - LeakChains.WORD
  {
  }

  /** Four kilobytes alignment and nearly four gigabytes: a block of 248 bytes is asked for. */
  lemma SumWrapsExample()
    ensures SumWraps(4096, 0xFFFF_F100) && Padded(4096, 0xFFFF_F100) == 248 && Rounded(4096) == 4096
  {
    C.Pow2Values();
    WordIsPower(12);
    hide PowerOfTwo, LargestPower, C.Pow2;
  }

  /** The next multiple of the alignment; the one after all addresses is 0. */
  lemma UpFacts(base: nat, al: nat)
    requires PowerOfTwo(al) && 16 <= al <= 0x8000_0000 && 0 < base < LeakChains.WORD && base % 8 == 0 && !AlignedTo(base, al)
    ensures var mem := (base + StepUp(base, al)) % LeakChains.WORD;
            && mem % 8 == 0 && AlignedTo(mem, al) && mem != base
            && (mem == 0 || base + 8 <= mem <= base + al - 8)
            && (base + al - 8 < LeakChains.WORD ==> mem > base)
  {
    StepUpFacts(base, al);
    StepUpEnds(base, al);
    hide PowerOfTwo, StepUp;
    PowerIsAligned(al);
    var up := base + StepUp(base, al);
    EightDivides(al, up);
    WrapOnce(up);
    assert AlignedTo(0, al);
    hide AlignedTo;
  }

  lemma StepUpEnds(base: nat, al: nat)
    requires al > 0 && base <= LeakChains.WORD
    ensures base + StepUp(base, al) <= LeakChains.WORD
  {
    Remainder(LeakChains.WORD - base, al);
  }

  lemma Remainder(x: nat, d: nat)
    requires d > 0
    ensures x % d <= x
  {
  }

  lemma FitsAlone(b: int, bytes: nat)
    requires b > 0 && b % 8 == 0
    ensures Fits(map[], b, bytes)
  {
  }

  lemma OneMultiple(mem: int)
    requires AlignedTo(mem, 4096) && 0 < mem < 8192
    ensures mem == 4096
  {
  }

  /** Such a request, as the first of all, is given an address outside of its block. */
  method OutsideItsBlock(backtrace: seq<int>) returns (t: Table, mem: int)
    ensures fresh(t) && mem == 4096 && t.live.Keys == {16} && t.live[16].bytes == 248 && t.live[16].user == mem
    ensures !t.Valid()
  {
    hide TableOk, Accounts, Placed, Tagged, Fits, AlignedTo, PowerOfTwo, LargestPower, Rounded, Padded, SumWraps;
    SumWrapsExample();
    FitsAlone(16, 248);
    t := new Table();
    ghost var al;
    mem, al := t.LeakMemalign(4096, 0xFFFF_F100, 16, backtrace, false, 8);
    OneMultiple(mem);
  }

  lemma RoundedFacts(alignment: nat)
    requires MALLOC_ALIGNMENT < alignment < LeakChains.WORD
    ensures PowerOfTwo(Rounded(alignment)) && (Rounded(alignment) == 8 || 16 <= Rounded(alignment) <= 0x8000_0000)
  {
    LargestPowerIs(alignment);
    hide LargestPower;
    var al := Rounded(alignment);
    WordIsPower(32);
    WordIsPower(3);
    C.Pow2Values();
    hide C.Pow2, PowerOfTwo;
    NoneBetween(al, LeakChains.WORD);
    if al < 8 {
      NoneBetween(al, 8);
    } else if al > 8 {
      NoneBetween(8, al);
    }
  }

  /** The address that a user has is no concern of the accounts. */
  lemma UserOnly(entries: Entries, live: Live, b: int, user: int)
    requires Accounts(entries, live) && b in live
    ensures Accounts(entries, live[b := live[b].(user := user)])
  {
    hide Sum;
    var live' := live[b := live[b].(user := user)];
    assert BytesOf(live') == BytesOf(live);
    forall e | e in entries
      ensures UsesOf(live', e) == UsesOf(live, e)
    {
    }
  }

  lemma BlockEntry(entries: Entries, live: Live, b: int)
    requires Accounts(entries, live) && b in live
    ensures live[b].entry in entries && entries[live[b].entry].allocations > 0
  {
  }

  lemma EntryPlace(slots: seq<int>, entries: Entries, chains: seq<Chain>, e: int) returns (k: nat)
    requires TableOk(slots, entries, chains) && e in entries
    ensures entries[e].slot < HASHTABLE_SIZE == |chains|
    ensures k < |chains[entries[e].slot]| && chains[entries[e].slot][k] == e
  {
    hide ChainsOk, KeysDiffer, SlotOf;
    k := PlaceOf(entries, chains, e);
  }

  lemma SlotInRange(slots: seq<int>, entries: Entries, chains: seq<Chain>, e: int)
    requires TableOk(slots, entries, chains) && e in entries
    ensures entries[e].slot < HASHTABLE_SIZE == |slots|
  {
  }

  lemma BypassedSame(entries: Entries, e: int)
    requires e in entries && (entries[e].prev == 0 || entries[e].prev in entries)
    requires entries[e].next == 0 || entries[e].next in entries
    ensures SameCounts(entries - {e}, Bypassed(entries, e) - {e})
    ensures |Bypassed(entries, e) - {e}| == |entries| - 1
  {
  }

  lemma SlotIs(key: Key, slot: nat)
    requires slot == Hash(key.backtrace) % HASHTABLE_SIZE
    ensures slot == SlotOf(key)
  {
  }

  lemma TableParts(slots: seq<int>, entries: Entries, chains: seq<Chain>)
    requires TableOk(slots, entries, chains)
    ensures |slots| == |chains| == HASHTABLE_SIZE
  {
  }

  /** The number of blocks of an entry is no concern of the chains. */
  lemma AllocationsOnly(slots: seq<int>, entries: Entries, chains: seq<Chain>, e: int, n: int)
    requires TableOk(slots, entries, chains) && e in entries
    ensures TableOk(slots, entries[e := entries[e].(allocations := n)], chains)
  {
    hide SlotOf;
    var entries' := entries[e := entries[e].(allocations := n)];
    forall i | 0 <= i < HASHTABLE_SIZE
      ensures ChainOk(entries', i, chains[i])
    {
      assert ChainOk(entries, i, chains[i]);
      forall k | 0 <= k < |chains[i]|
        ensures LinkOk(entries', i, chains[i], k)
      {
        assert LinkOk(entries, i, chains[i], k);
      }
    }
  }
}
