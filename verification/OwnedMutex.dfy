/**
 Recursive and error-checking mutexes: one word that holds the owner's thread id, the
 type, the flag for sharing, the nesting counter and the lock state.  The word is
 changed only under a global normal mutex, so each such section is one step here; the
 reading of the owner, falling asleep and waking are steps of their own.
 */
module OwnedMutex {

  /** Kernel id of a thread; the word has 16 bits for it. */
  datatype Tid = Tid(id: bv32)

  const TYPE_RECURSIVE: bv32 := 0x4000
  const TYPE_ERRORCHECK: bv32 := 0x8000
  const SHARED_MASK: bv32 := 0x2000
  const COUNTER_MASK: bv32 := 0x1ffc

  /** The counter has eleven bits. */
  const MAX_DEPTH: nat := 2048

  // ---- the word ------------------------------------------------------------

  function Owner(w: bv32): bv32 {
    (w >> 16) & 0xffff
  }

  function Counter(w: bv32): bv32 {
    (w & COUNTER_MASK) >> 2
  }

  function LockState(w: bv32): bv32 {
    w & 3
  }

  /** Type and flag for sharing. */
  function Kind(w: bv32): bv32 {
    w & 0xe000
  }

  function Bits(t: Tid): bv32 {
    t.id
  }

  function Taken(mtype: bv32, tid: bv32, newState: bv32): bv32 {
    (tid << 16) | mtype | newState
  }

  function Marked(w: bv32): bv32 {
    if w & 3 == 1 then w ^ 3 else w
  }

  function Deeper(w: bv32): bv32 {
    (w & !COUNTER_MASK) | ((w + 4) & COUNTER_MASK)
  }

  predicate Nested(w: bv32) {
    w & COUNTER_MASK != 0
  }

  function Shallower(w: bv32): bv32 {
    w - 4
  }

  function TypeOf(mtype: bv32): bv32 {
    mtype & 0xc000
  }

  predicate IsKind(mtype: bv32) {
    || mtype == TYPE_RECURSIVE || mtype == TYPE_RECURSIVE | SHARED_MASK
    || mtype == TYPE_ERRORCHECK || mtype == TYPE_ERRORCHECK | SHARED_MASK
  }

  predicate IsTid(t: Tid) {
    1 <= t.id <= 0xffff
  }

  /** The word says that thread t holds the mutex of this type, d times. */
  predicate Held(mtype: bv32, w: bv32, t: Tid, d: nat) {
    && IsTid(t) && Owner(w) == Bits(t) && Kind(w) == mtype
    && (LockState(w) == 1 || LockState(w) == 2)
    && Counter(w) as nat == d - 1
  }

  lemma FreeWord(mtype: bv32)
    requires IsKind(mtype)
    ensures Owner(mtype) == 0 && Counter(mtype) == 0 && LockState(mtype) == 0 && Kind(mtype) == mtype
  {
  }

  lemma TidBits(t: Tid)
    requires IsTid(t)
    ensures 1 <= Bits(t) <= 0xffff
  {
  }

  lemma TakenFields(mtype: bv32, tid: bv32, newState: bv32)
    requires mtype & 0xffff_1fff == 0 && 1 <= tid <= 0xffff && (newState == 1 || newState == 2)
    ensures var w := Taken(mtype, tid, newState);
            Owner(w) == tid && Kind(w) == mtype && LockState(w) == newState && Counter(w) == 0
  {
  }

  lemma KindBits(mtype: bv32)
    requires IsKind(mtype)
    ensures mtype & 0xffff_1fff == 0
  {
  }

  lemma TakenWord(mtype: bv32, t: Tid, newState: bv32)
    requires IsKind(mtype) && IsTid(t) && (newState == 1 || newState == 2)
    ensures var w := Taken(mtype, Bits(t), newState);
            Held(mtype, w, t, 1) && LockState(w) == newState
  {
    hide Owner, Kind, Counter, LockState, Taken, Bits, IsKind;
    KindBits(mtype);
    TidBits(t);
    TakenFields(mtype, Bits(t), newState);
    CounterZero(Taken(mtype, Bits(t), newState));
  }

  /** The word has room for the owner's id exactly if it has at most 16 bits. */
  lemma OwnerFitsIff(mtype: bv32, tid: bv32, newState: bv32)
    requires mtype & 0xffff_1fff == 0 && (newState == 1 || newState == 2)
    ensures Owner(Taken(mtype, tid, newState)) == tid <==> tid <= 0xffff
  {
  }

  lemma MarkedWord(mtype: bv32, w: bv32, t: Tid, d: nat)
    requires Held(mtype, w, t, d)
    ensures Held(mtype, Marked(w), t, d) && LockState(Marked(w)) == 2
  {
  }

  lemma MarkedFields(w: bv32)
    requires LockState(w) == 1 || LockState(w) == 2
    ensures Owner(Marked(w)) == Owner(w) && Kind(Marked(w)) == Kind(w) && Counter(Marked(w)) == Counter(w)
    ensures LockState(Marked(w)) == 2
  {
  }

  lemma DeeperFields(w: bv32)
    ensures Owner(Deeper(w)) == Owner(w) && Kind(Deeper(w)) == Kind(w) && LockState(Deeper(w)) == LockState(w)
    ensures Counter(w) < 0x7ff ==> Counter(Deeper(w)) == Counter(w) + 1
    ensures Counter(w) == 0x7ff ==> Counter(Deeper(w)) == 0
    ensures Counter(w) <= 0x7ff
  {
  }

  lemma CountUp(c: bv32)
    requires c <= 0x7ff
    ensures c < 0x7ff ==> (c + 1) as nat == c as nat + 1
    ensures c as nat < MAX_DEPTH && (c == 0x7ff <==> c as nat == MAX_DEPTH - 1)
  {
  }

  /** Locking again counts one more, exactly while the nesting is below the limit. */
  lemma DeeperWord(mtype: bv32, w: bv32, t: Tid, d: nat)
    requires Held(mtype, w, t, d)
    ensures d <= MAX_DEPTH
    ensures Held(mtype, Deeper(w), t, d + 1) <==> d < MAX_DEPTH
    ensures d == MAX_DEPTH ==> Held(mtype, Deeper(w), t, 1)
    ensures LockState(Deeper(w)) == LockState(w)
  {
    hide Owner, Kind, Counter, LockState, Deeper;
    DeeperFields(w);
    CountUp(Counter(w));
  }

  lemma ShallowerFields(w: bv32)
    requires Nested(w)
    ensures Owner(Shallower(w)) == Owner(w) && Kind(Shallower(w)) == Kind(w) && LockState(Shallower(w)) == LockState(w)
    ensures Counter(Shallower(w)) == Counter(w) - 1 && Counter(w) != 0
  {
  }

  lemma CountDown(c: bv32)
    requires 0 < c <= 0x7ff
    ensures (c - 1) as nat == c as nat - 1
  {
  }

  lemma CounterZero(w: bv32)
    ensures !Nested(w) <==> Counter(w) == 0
    ensures Counter(w) == 0 <==> Counter(w) as nat == 0
    ensures Counter(w) <= 0x7ff
  {
  }

  lemma ShallowerWord(mtype: bv32, w: bv32, t: Tid, d: nat)
    requires Held(mtype, w, t, d)
    ensures !Nested(w) <==> d == 1
    ensures d > 1 ==> Held(mtype, Shallower(w), t, d - 1) && LockState(Shallower(w)) == LockState(w)
  {
    hide Owner, Kind, Counter, LockState, Nested, Shallower;
    CounterZero(w);
    if d > 1 {
      ShallowerFields(w);
      CountDown(Counter(w));
    }
  }

  // ---- threads -------------------------------------------------------------

  datatype Call = Plain | Timed | Once   // lock, lock with a timeout, trylock

  datatype Pc =
    | Idle
    | Entering(call: Call)                    // before the owner is read
    | Again                                   // the owner locks once more
    | Contending(call: Call, newState: bv32)  // before the section that takes or marks the word
    | Checking(seen: bv32)                    // before the clock is read
    | Waiting(call: Call, seen: bv32)         // before the futex wait
    | Asleep(call: Call)
    | Leaving                                 // unlock, before the owner is read
    | Releasing                               // before the section that releases
    | Waking                                  // before the futex wake
  {
    /** Bound to wake a sleeper, or to take or leave the word in state 2, before it can rest. */
    predicate Tending() {
      Waking? || (Contending? && newState == 2)
    }
  }

  /** A thread, and how many more times it has locked the mutex than unlocked it. */
  datatype Thread = Thread(pc: Pc, depth: nat)

  datatype State = State(mtype: bv32, word: bv32, th: map<Tid, Thread>) {

    function Depth(t: Tid): nat {
      if t in th then th[t].depth else 0
    }

    predicate Asleep(t: Tid) {
      t in th && th[t].pc.Asleep?
    }

    predicate Tends(t: Tid) {
      t in th && th[t].pc.Tending()
    }

    function To(t: Tid, x: Thread): State {
      this.(th := th[t := x])
    }
  }

  datatype Event =
    | Lock(t: Tid, call: Call)
    | ReadOwner(t: Tid)
    | Reenter(t: Tid)
    | Contend(t: Tid)
    | LookAtClock(t: Tid, expired: bool)
    | FutexWait(t: Tid)
    | Rouse(t: Tid)
    | Unlock(t: Tid)
    | CheckOwner(t: Tid)
    | Release(t: Tid)
    | FutexWake(t: Tid, sleeper: Tid)
    | FutexWakeNobody(t: Tid)

  predicate Fits(p: Pc, e: Event) {
    match e
    case Lock(_, _) => p.Idle?
    case ReadOwner(_) => p.Entering?
    case Reenter(_) => p.Again?
    case Contend(_) => p.Contending?
    case LookAtClock(_, _) => p.Checking?
    case FutexWait(_) => p.Waiting?
    case Rouse(_) => p.Asleep?
    case Unlock(_) => p.Idle?
    case CheckOwner(_) => p.Leaving?
    case Release(_) => p.Releasing?
    case FutexWake(_, _) => p.Waking?
    case FutexWakeNobody(_) => p.Waking?
  }

  predicate Enabled(s: State, e: Event) {
    && e.t in s.th && Fits(s.th[e.t].pc, e)
    && (e.FutexWake? ==> s.Asleep(e.sleeper))
    && (e.FutexWakeNobody? ==> forall u | u in s.th :: !s.Asleep(u))
  }

  /** The section of a lock call that does not own the mutex. */
  function Contended(mtype: bv32, w: bv32, t: Tid, p: Pc, d: nat): (bv32, Thread)
    requires p.Contending?
  {
    if w == mtype then (Taken(mtype, Bits(t), p.newState), Thread(Idle, 1))
    else if p.call.Once? then (w, Thread(Idle, d))
    else
      var w' := Marked(w);
      (w', Thread(if p.call.Timed? then Checking(w') else Waiting(p.call, w'), d))
  }

  /** The section of an unlock call by the owner. */
  function Released(mtype: bv32, w: bv32, d: nat): (bv32, Thread) {
    var d' := if d == 0 then 0 else d - 1;
    if Nested(w) then (Shallower(w), Thread(Idle, d'))
    else (mtype, Thread(if LockState(w) == 2 then Waking else Idle, d'))
  }

  /** The step of thread t at p, whose depth is d. */
  function Local(mtype: bv32, w: bv32, t: Tid, p: Pc, d: nat, e: Event): (bv32, Thread)
    requires Fits(p, e)
  {
    match e
    case Lock(_, call) => (w, Thread(Entering(call), d))
    case ReadOwner(_) =>
      (w, Thread(if Bits(t) != Owner(w) then Contending(p.call, 1)
                 else if TypeOf(mtype) == TYPE_ERRORCHECK then Idle
                 else Again, d))
    case Reenter(_) => (Deeper(w), Thread(Idle, d + 1))
    case Contend(_) => Contended(mtype, w, t, p, d)
    case LookAtClock(_, expired) => (w, Thread(if expired then Idle else Waiting(Timed, p.seen), d))
    case FutexWait(_) => (w, Thread(if w == p.seen then Asleep(p.call) else Contending(p.call, 2), d))
    case Rouse(_) => (w, Thread(Contending(p.call, 2), d))
    case Unlock(_) => (w, Thread(Leaving, d))
    case CheckOwner(_) => (w, Thread(if Bits(t) != Owner(w) then Idle else Releasing, d))
    case Release(_) => Released(mtype, w, d)
    case FutexWake(_, _) => (w, Thread(Idle, d))
    case FutexWakeNobody(_) => (w, Thread(Idle, d))
  }

  function Do(s: State, e: Event): State
    requires Enabled(s, e)
  {
    var me := s.th[e.t];
    var (w', x') := Local(s.mtype, s.word, e.t, me.pc, me.depth, e);
    var s' := if e.FutexWake?
              then s.To(e.sleeper, s.th[e.sleeper].(pc := Contending(s.th[e.sleeper].pc.call, 2)))
              else s;
    s'.(word := w').To(e.t, x')
  }

  predicate Initial(s: State) {
    && IsKind(s.mtype) && s.word == s.mtype
    && forall t | t in s.th :: IsTid(t) && s.th[t] == Thread(Idle, 0)
  }

  // ---- what every step keeps -----------------------------------------------

  /** What a thread knows at its place in the code. */
  predicate PlaceOk(x: Thread) {
    match x.pc
    case Idle => true
    case Entering(_) => true
    case Again => x.depth > 0
    case Contending(call, newState) => x.depth == 0 && (newState == 1 || (newState == 2 && !call.Once?))
    case Checking(seen) => x.depth == 0 && LockState(seen) == 2
    case Waiting(call, seen) => x.depth == 0 && LockState(seen) == 2 && !call.Once?
    case Asleep(call) => x.depth == 0 && !call.Once?
    case Leaving => true
    case Releasing => x.depth > 0
    case Waking => x.depth == 0
  }

  ghost predicate ThreadsOk(s: State) {
    IsKind(s.mtype) && forall t | t in s.th :: IsTid(t) && PlaceOk(s.th[t])
  }

  /** The word is that of a free mutex, or tells who holds it and how often. */
  ghost predicate WordOk(s: State) {
    && (forall t | t in s.th && s.th[t].depth > 0 :: Held(s.mtype, s.word, t, s.th[t].depth))
    && (s.word == s.mtype || exists t :: t in s.th && s.th[t].depth > 0)
  }

  ghost predicate Attended(s: State) {
    forall x | s.Asleep(x) :: LockState(s.word) == 2 || exists u :: s.Tends(u)
  }

  ghost predicate Inv(s: State) {
    ThreadsOk(s) && WordOk(s) && Attended(s)
  }

  /** What one step does to the word as a record of the holder. */
  predicate HolderMove(mtype: bv32, w: bv32, t: Tid, d: nat, w': bv32, d': nat) {
    && (d == 0 && d' == 0 ==> w' == w || w' == Marked(w))
    && (d == 0 && d' == 0 && w == mtype ==> w' == mtype)
    && (d == 0 && d' > 0 ==> w == mtype)
    && (d' > 0 ==> Held(mtype, w', t, d'))
    && (d > 0 && d' == 0 ==> w' == mtype)
  }

  predicate SleepMove(w: bv32, x: Thread, w': bv32, x': Thread) {
    && (x'.pc.Asleep? ==> x.pc.Asleep? || LockState(w') == 2)
    && (LockState(w) == 2 ==> LockState(w') == 2 || x'.pc.Tending())
  }

  lemma OneHolder(s: State, t: Tid, u: Tid)
    requires WordOk(s) && t in s.th && u in s.th && s.th[t].depth > 0 && s.th[u].depth > 0
    ensures t == u
  {
  }

  lemma HolderMoves(s: State, t: Tid, w': bv32, x': Thread)
    requires IsKind(s.mtype) && WordOk(s) && t in s.th && HolderMove(s.mtype, s.word, t, s.th[t].depth, w', x'.depth)
    ensures WordOk(s.(word := w').To(t, x'))
  {
    hide Held, Marked, IsKind;
    var s' := s.(word := w').To(t, x');
    forall u | u in s'.th && s'.th[u].depth > 0
      ensures Held(s'.mtype, s'.word, u, s'.th[u].depth)
    {
      if u != t {
        HolderStays(s, t, u);
        MarkedWord(s.mtype, s.word, u, s.th[u].depth);
      }
    }
    if s'.word != s'.mtype {
      if x'.depth > 0 {
        assert t in s'.th && s'.th[t].depth > 0;
      } else {
        var u :| u in s.th && s.th[u].depth > 0;
        assert u in s'.th && s'.th[u].depth > 0;
      }
    }
  }

  lemma HolderStays(s: State, t: Tid, u: Tid)
    requires IsKind(s.mtype) && WordOk(s) && t in s.th && u in s.th && u != t && s.th[u].depth > 0
    ensures s.th[t].depth == 0 && s.word != s.mtype
  {
  }

  lemma SleepMoves(s: State, t: Tid, w': bv32, x': Thread)
    requires Attended(s) && t in s.th && SleepMove(s.word, s.th[t], w', x')
    requires s.th[t].pc.Tending() && !x'.pc.Tending() ==>
               LockState(w') == 2 || (forall x :: !s.Asleep(x)) || (exists u :: u != t && s.Tends(u))
    ensures Attended(s.(word := w').To(t, x'))
  {
    hide LockState, Pc.Tending;
    var s' := s.(word := w').To(t, x');
    forall x | s'.Asleep(x)
      ensures LockState(s'.word) == 2 || exists u :: s'.Tends(u)
    {
      if !s'.Tends(t) && LockState(w') != 2 {
        assert s.Asleep(x);
        if s.Tends(t) {
          var u :| u != t && s.Tends(u);
          assert s'.Tends(u);
        } else {
          var u :| s.Tends(u);
          assert s'.Tends(u);
        }
      }
    }
  }

  /** The word as seen by a thread t of depth d: free, or held by t itself, or held by another. */
  predicate Seen(mtype: bv32, w: bv32, t: Tid, d: nat) {
    && IsKind(mtype) && IsTid(t)
    && (d > 0 ==> Held(mtype, w, t, d))
    && (d == 0 ==> Owner(w) != Bits(t) && (w == mtype || LockState(w) == 1 || LockState(w) == 2))
  }

  lemma SeenBy(s: State, t: Tid)
    requires ThreadsOk(s) && WordOk(s) && t in s.th
    ensures Seen(s.mtype, s.word, t, s.th[t].depth)
  {
  }

  /** The step is a lock by an owner that has no room left in the counter. */
  predicate TooDeep(d: nat, e: Event) {
    e.Reenter? && d == MAX_DEPTH
  }

  lemma LocalSteps(mtype: bv32, w: bv32, t: Tid, x: Thread, e: Event)
    requires Seen(mtype, w, t, x.depth) && PlaceOk(x) && Fits(x.pc, e) && !e.FutexWake? && !TooDeep(x.depth, e)
    ensures var (w', x') := Local(mtype, w, t, x.pc, x.depth, e);
            && HolderMove(mtype, w, t, x.depth, w', x'.depth) && SleepMove(w, x, w', x') && PlaceOk(x')
            && (x.pc.Tending() && !x'.pc.Tending() ==> LockState(w') == 2 || e.FutexWakeNobody?)
  {
    hide Owner, Kind, Counter, LockState, Taken, Marked, Deeper, Nested, Shallower, TypeOf, Bits, IsKind, Contended,
         Released;
    FreeWord(mtype);
    match e {
      case Contend(_) => ContendStep(mtype, w, t, x);
      case Reenter(_) => DeeperWord(mtype, w, t, x.depth);
      case Release(_) => ReleaseStep(mtype, w, t, x);
      case _ =>
    }
  }

  lemma ContendStep(mtype: bv32, w: bv32, t: Tid, x: Thread)
    requires Seen(mtype, w, t, x.depth) && PlaceOk(x) && x.pc.Contending?
    ensures var (w', x') := Contended(mtype, w, t, x.pc, x.depth);
            && HolderMove(mtype, w, t, x.depth, w', x'.depth) && SleepMove(w, x, w', x') && PlaceOk(x')
            && (x.pc.Tending() && !x'.pc.Tending() ==> LockState(w') == 2)
  {
    hide Owner, Kind, Counter, LockState, Taken, Marked, Deeper, Nested, Shallower, TypeOf, Bits, IsKind;
    FreeWord(mtype);
    if w == mtype {
      TakenWord(mtype, t, x.pc.newState);
    } else {
      MarkedFields(w);
    }
  }

  lemma ReleaseStep(mtype: bv32, w: bv32, t: Tid, x: Thread)
    requires Seen(mtype, w, t, x.depth) && PlaceOk(x) && x.pc.Releasing?
    ensures var (w', x') := Released(mtype, w, x.depth);
            && HolderMove(mtype, w, t, x.depth, w', x'.depth) && SleepMove(w, x, w', x') && PlaceOk(x')
            && x'.depth == x.depth - 1
  {
    hide Owner, Kind, Counter, Taken, Marked, Deeper, Nested, Shallower, TypeOf, Bits, IsKind;
    ShallowerWord(mtype, w, t, x.depth);
  }

  /** Every step keeps the invariant, save a lock by an owner at the limit of the counter. */
  lemma StepKeeps(s: State, e: Event)
    requires Inv(s) && Enabled(s, e) && !TooDeep(s.Depth(e.t), e)
    ensures Inv(Do(s, e)) && Do(s, e).mtype == s.mtype
  {
    hide Owner, Kind, Counter, LockState, Taken, Marked, Deeper, Nested, Shallower, TypeOf, Bits, IsKind,
         HolderMove, SleepMove, Local;
    hide Attended, WordOk, Pc.Tending, PlaceOk;
    if e.FutexWake? {
      WakeKeeps(s, e.t, e.sleeper);
    } else {
      var x := s.th[e.t];
      SeenBy(s, e.t);
      LocalSteps(s.mtype, s.word, e.t, x, e);
      var (w', x') := Local(s.mtype, s.word, e.t, x.pc, x.depth, e);
      HolderMoves(s, e.t, w', x');
      SleepMoves(s, e.t, w', x');
    }
  }

  lemma WakeKeeps(s: State, t: Tid, sleeper: Tid)
    requires Inv(s) && t in s.th && s.th[t].pc.Waking? && s.Asleep(sleeper)
    ensures Enabled(s, FutexWake(t, sleeper)) && Inv(Do(s, FutexWake(t, sleeper)))
  {
    hide Owner, Kind, Counter, LockState, Taken, Marked, Deeper, Nested, Shallower, TypeOf, Bits, IsKind, Attended,
         WordOk, Held;
    var x := s.th[sleeper];
    var x' := x.(pc := Contending(x.pc.call, 2));
    HolderMoves(s, sleeper, s.word, x');
    SleepMoves(s, sleeper, s.word, x');
    var s1 := s.(word := s.word).To(sleeper, x');
    assert s1.Tends(sleeper);
    var y' := Thread(Idle, s1.th[t].depth);
    HolderMoves(s1, t, s1.word, y');
    SleepMoves(s1, t, s1.word, y');
    assert Do(s, FutexWake(t, sleeper)) == s1.(word := s1.word).To(t, y');
  }

  /** A step keeps the invariant if and only if it is not a lock by an owner at the limit. */
  lemma StepKeepsIff(s: State, e: Event)
    requires Inv(s) && Enabled(s, e)
    ensures Inv(Do(s, e)) <==> !TooDeep(s.Depth(e.t), e)
  {
    hide Owner, Kind, Counter, LockState, Taken, Marked, Deeper, Nested, Shallower, TypeOf, Bits, IsKind, Attended,
         PlaceOk, Held;
    if TooDeep(s.Depth(e.t), e) {
      DeeperWord(s.mtype, s.word, e.t, s.th[e.t].depth);
      assert Do(s, e).th[e.t].depth == MAX_DEPTH + 1;
    } else {
      StepKeeps(s, e);
    }
  }

  /** An unlock by a thread that the word says has locked once. */
  lemma UnlockFrees(s: State, t: Tid)
    requires t in s.th && s.th[t].pc == Idle && s.th[t].depth > 0 && Held(s.mtype, s.word, t, 1)
    ensures var run := [Unlock(t), CheckOwner(t), Release(t)];
            && Possible(s, run)
            && After(s, run).word == s.mtype && After(s, run).Depth(t) == s.Depth(t) - 1
  {
    hide Owner, Kind, Counter, LockState, Taken, Marked, Deeper, Nested, Shallower, TypeOf, Bits, IsKind, Contended;
    ShallowerWord(s.mtype, s.word, t, 1);
    var s1 := Do(s, Unlock(t));
    var s2 := Do(s1, CheckOwner(t));
    var s3 := Do(s2, Release(t));
    RunOf3(s, Unlock(t), CheckOwner(t), Release(t), s1, s2, s3);
  }

  /** Beyond the limit the counter starts again, and the next unlock frees the mutex. */
  lemma FreedNext(s: State, t: Tid)
    requires t in s.th && s.th[t] == Thread(Again, MAX_DEPTH) && Held(s.mtype, s.word, t, MAX_DEPTH)
    ensures Enabled(s, Reenter(t))
    ensures var s1 := Do(s, Reenter(t));
            var run := [Unlock(t), CheckOwner(t), Release(t)];
            && Possible(s1, run)
            && After(s1, run).word == s.mtype && After(s1, run).Depth(t) == MAX_DEPTH
  {
    hide Owner, Kind, Counter, LockState, Taken, Marked, Deeper, Nested, Shallower, TypeOf, Bits, IsKind, Attended,
         PlaceOk, Held, Possible, After;
    DeeperWord(s.mtype, s.word, t, MAX_DEPTH);
    UnlockFrees(Do(s, Reenter(t)), t);
  }

  lemma RunOf3(s: State, a: Event, b: Event, c: Event, s1: State, s2: State, s3: State)
    requires Enabled(s, a) && s1 == Do(s, a) && Enabled(s1, b) && s2 == Do(s1, b) && Enabled(s2, c) && s3 == Do(s2, c)
    ensures Possible(s, [a, b, c]) && After(s, [a, b, c]) == s3
  {
    hide Enabled, Do;
    assert [a, b, c][1..] == [b, c] && [b, c][1..] == [c] && [c][1..] == [];
    assert Possible(s3, []) && After(s3, []) == s3;
    assert Possible(s2, [c]) && After(s2, [c]) == s3;
    assert Possible(s1, [b, c]) && After(s1, [b, c]) == s3;
  }

  // ---- every run -----------------------------------------------------------

  predicate Possible(s: State, run: seq<Event>)
    decreases |run|
  {
    run == [] || (Enabled(s, run[0]) && Possible(Do(s, run[0]), run[1..]))
  }

  function After(s: State, run: seq<Event>): State
    requires Possible(s, run)
    decreases |run|
  {
    if run == [] then s else After(Do(s, run[0]), run[1..])
  }

  /** No owner locks beyond the limit of the counter. */
  predicate WithinLimit(s: State, run: seq<Event>)
    requires Possible(s, run)
    decreases |run|
  {
    run == [] || (!TooDeep(s.Depth(run[0].t), run[0]) && WithinLimit(Do(s, run[0]), run[1..]))
  }

  lemma {:induction false} RunKeeps(s: State, run: seq<Event>)
    requires Inv(s) && Possible(s, run) && WithinLimit(s, run)
    ensures Inv(After(s, run)) && After(s, run).mtype == s.mtype
    decreases |run|
  {
    hide Inv, Enabled, Do, State.Depth, TooDeep;
    if run != [] {
      StepKeeps(s, run[0]);
      RunKeeps(Do(s, run[0]), run[1..]);
    }
  }

  lemma InitialIsFine(s: State)
    requires Initial(s)
    ensures Inv(s)
  {
    hide IsKind;
  }

  /**
   In every state that the threads can reach, at most one of them holds the mutex; the
   word names that thread and counts its locks but one; without a holder the word is
   that of a fresh mutex.  Type and flag never change.
   */
  lemma WordTellsHolder(s: State, run: seq<Event>, t: Tid, u: Tid)
    requires Initial(s) && Possible(s, run) && WithinLimit(s, run)
    ensures var s' := After(s, run);
            && (s'.Depth(t) > 0 && s'.Depth(u) > 0 ==> t == u)
            && (s'.Depth(t) > 0 ==> Owner(s'.word) == t.id && Counter(s'.word) as nat == s'.Depth(t) - 1)
            && ((forall v :: s'.Depth(v) == 0) <==> s'.word == s.mtype)
            && Kind(s'.word) == s.mtype
  {
    hide Possible, After, Attended, PlaceOk;
    InitialIsFine(s);
    RunKeeps(s, run);
    var s' := After(s, run);
    if s'.Depth(t) > 0 && s'.Depth(u) > 0 {
      OneHolder(s', t, u);
    }
    HolderWord(s');
  }

  lemma HolderWord(s: State)
    requires ThreadsOk(s) && WordOk(s)
    ensures (forall v :: s.Depth(v) == 0) <==> s.word == s.mtype
    ensures Kind(s.word) == s.mtype
  {
    hide Counter, LockState, Owner, Kind, IsKind, PlaceOk, Bits;
    FreeWord(s.mtype);
    if v :| s.Depth(v) > 0 {
      TidBits(v);
      assert Held(s.mtype, s.word, v, s.th[v].depth);
    } else {
      forall u | u in s.th
        ensures s.th[u].depth == 0
      {
        assert s.Depth(u) == 0;
      }
    }
  }

  /** Only the last of the matching unlocks frees the word. */
  lemma LastUnlockFrees(s: State, run: seq<Event>, t: Tid)
    requires Initial(s) && Possible(s, run) && WithinLimit(s, run) && Enabled(After(s, run), Release(t))
    ensures var s' := After(s, run);
            var s'' := Do(s', Release(t));
            && s'.Depth(t) > 0 && s''.Depth(t) == s'.Depth(t) - 1
            && (s''.word == s.mtype <==> s'.Depth(t) == 1)
            && (s'.Depth(t) > 1 ==> Held(s.mtype, s''.word, t, s'.Depth(t) - 1))
  {
    hide Possible, After, Attended, Owner, Kind, Counter, LockState, Bits, IsKind, Marked, Nested, Shallower,
         TypeOf, Contended;
    InitialIsFine(s);
    RunKeeps(s, run);
    var s' := After(s, run);
    SeenBy(s', t);
    ShallowerWord(s.mtype, s'.word, t, s'.Depth(t));
    if s'.Depth(t) > 1 {
      FreeWord(s.mtype);
      TidBits(t);
    }
  }

  /**
   In every such state, if a thread sleeps then the holder will find the word contended
   when it releases it, or another awake thread is on its way to wake a sleeper or to
   leave the word contended.
   */
  lemma NoLostWakeup(s: State, run: seq<Event>, x: Tid)
    requires Initial(s) && Possible(s, run) && WithinLimit(s, run) && After(s, run).Asleep(x)
    ensures var s' := After(s, run);
            || (LockState(s'.word) == 2 && exists t :: s'.Depth(t) > 0)
            || exists u :: s'.Tends(u)
  {
    hide Possible, After, State.Tends, State.Asleep, IsKind, PlaceOk, Held, LockState;
    InitialIsFine(s);
    RunKeeps(s, run);
    FreeWord(s.mtype);
    var s' := After(s, run);
    if s'.word != s'.mtype {
      var t :| t in s'.th && s'.th[t].depth > 0;
      assert s'.Depth(t) > 0;
    }
  }

  // ---- joining runs --------------------------------------------------------

  /** The run leads from s to s', and in it no sleep ends but by a wake call. */
  ghost predicate Leads(s: State, run: seq<Event>, s': State) {
    && Possible(s, run) && After(s, run) == s'
    && forall i | 0 <= i < |run| :: !run[i].Rouse?
  }

  lemma LeadsNowhere(s: State)
    ensures Leads(s, [], s) && WithinLimit(s, [])
  {
  }

  lemma LeadsOne(s: State, e: Event)
    requires Enabled(s, e) && !e.Rouse?
    ensures Leads(s, [e], Do(s, e)) && (!TooDeep(s.Depth(e.t), e) ==> WithinLimit(s, [e]))
  {
    hide Enabled, Do, TooDeep, State.Depth;
    var s', run := Do(s, e), [e];
    assert run[1..] == [];
    assert Possible(s', []) && After(s', []) == s' && WithinLimit(s', []);
  }

  lemma {:induction false} LeadsOn(s: State, run: seq<Event>, s1: State, more: seq<Event>, s2: State)
    requires Leads(s, run, s1) && Leads(s1, more, s2)
    ensures Leads(s, run + more, s2)
    ensures WithinLimit(s, run) && WithinLimit(s1, more) ==> WithinLimit(s, run + more)
    decreases |run|
  {
    hide Enabled, Do, TooDeep, State.Depth;
    if run == [] {
      assert run + more == more;
    } else {
      assert Leads(Do(s, run[0]), run[1..], s1);
      LeadsOn(Do(s, run[0]), run[1..], s1, more, s2);
      assert (run + more)[1..] == run[1..] + more;
    }
  }

  lemma LeadsThen(s: State, run: seq<Event>, s1: State, e: Event)
    requires Leads(s, run, s1) && Enabled(s1, e) && !e.Rouse?
    ensures Leads(s, run + [e], Do(s1, e))
    ensures WithinLimit(s, run) && !TooDeep(s1.Depth(e.t), e) ==> WithinLimit(s, run + [e])
  {
    hide Enabled, Do, Leads, WithinLimit, TooDeep, State.Depth;
    LeadsOne(s1, e);
    LeadsOn(s, run, s1, [e], Do(s1, e));
  }

  // ---- the limit is reached ------------------------------------------------

  /** Thread t, resting, holds the mutex d times. */
  ghost predicate Rests(s: State, t: Tid, d: nat) {
    t in s.th && s.th[t] == Thread(Idle, d) && Held(s.mtype, s.word, t, d)
  }

  /** The first lock of a fresh mutex. */
  lemma FirstLock(s0: State, t: Tid) returns (run: seq<Event>, s: State)
    requires Initial(s0) && t in s0.th
    ensures Leads(s0, run, s) && WithinLimit(s0, run) && s.mtype == s0.mtype && Rests(s, t, 1)
  {
    hide Owner, Kind, Counter, LockState, Taken, Marked, Deeper, Nested, Shallower, TypeOf, Bits, IsKind, Held, Leads,
         WithinLimit;
    FreeWord(s0.mtype);
    TidBits(t);
    TakenWord(s0.mtype, t, 1);
    LeadsNowhere(s0);
    run, s := [], s0;
    LeadsThen(s0, run, s, Lock(t, Plain));
    run, s := run + [Lock(t, Plain)], Do(s, Lock(t, Plain));
    LeadsThen(s0, run, s, ReadOwner(t));
    run, s := run + [ReadOwner(t)], Do(s, ReadOwner(t));
    LeadsThen(s0, run, s, Contend(t));
    run, s := run + [Contend(t)], Do(s, Contend(t));
  }

  /** The holder of a recursive mutex is about to lock it once more. */
  lemma OnceMore(s0: State, run0: seq<Event>, s1: State, t: Tid, d: nat) returns (run: seq<Event>, s: State)
    requires Leads(s0, run0, s1) && WithinLimit(s0, run0) && Rests(s1, t, d) && TypeOf(s1.mtype) != TYPE_ERRORCHECK
    ensures Leads(s0, run, s) && WithinLimit(s0, run) && s.mtype == s1.mtype
    ensures t in s.th && s.th[t] == Thread(Again, d) && Held(s.mtype, s.word, t, d)
  {
    hide Kind, Counter, LockState, Taken, Marked, Deeper, Nested, Shallower, TypeOf, Bits, IsKind, Leads, WithinLimit;
    run, s := run0, s1;
    LeadsThen(s0, run, s, Lock(t, Plain));
    run, s := run + [Lock(t, Plain)], Do(s, Lock(t, Plain));
    LeadsThen(s0, run, s, ReadOwner(t));
    run, s := run + [ReadOwner(t)], Do(s, ReadOwner(t));
  }

  /** A recursive mutex can be locked d times, up to the limit. */
  lemma {:induction false} Climb(s0: State, t: Tid, d: nat) returns (run: seq<Event>, s: State)
    requires Initial(s0) && t in s0.th && TypeOf(s0.mtype) != TYPE_ERRORCHECK && 1 <= d <= MAX_DEPTH
    ensures Leads(s0, run, s) && WithinLimit(s0, run) && s.mtype == s0.mtype && Rests(s, t, d)
    decreases d
  {
    hide Owner, Kind, Counter, LockState, Taken, Marked, Deeper, Nested, Shallower, TypeOf, Bits, IsKind, Held, Leads,
         WithinLimit, Initial;
    if d == 1 {
      run, s := FirstLock(s0, t);
    } else {
      run, s := Climb(s0, t, d - 1);
      run, s := OnceMore(s0, run, s, t, d - 1);
      DeeperWord(s.mtype, s.word, t, d - 1);
      LeadsThen(s0, run, s, Reenter(t));
      run, s := run + [Reenter(t)], Do(s, Reenter(t));
    }
  }

  /** From every fresh recursive mutex, every thread can get to lock beyond the limit. */
  lemma ReachesLimit(s0: State, t: Tid) returns (run: seq<Event>, s: State)
    requires Initial(s0) && t in s0.th && TypeOf(s0.mtype) != TYPE_ERRORCHECK
    ensures Leads(s0, run, s) && WithinLimit(s0, run) && s.mtype == s0.mtype
    ensures t in s.th && s.th[t] == Thread(Again, MAX_DEPTH) && Held(s.mtype, s.word, t, MAX_DEPTH)
  {
    hide Leads, WithinLimit, Held, TypeOf, Initial;
    run, s := Climb(s0, t, MAX_DEPTH);
    run, s := OnceMore(s0, run, s, t, MAX_DEPTH);
  }

  /**
   A run in which a thread locks 2049 times and unlocks once, and the mutex is free;
   only the last of the locks goes beyond the limit.
   */
  lemma FreedTooEarly(s0: State, t: Tid) returns (run: seq<Event>, s: State)
    requires Initial(s0) && t in s0.th && TypeOf(s0.mtype) != TYPE_ERRORCHECK
    ensures Leads(s0, run, s) && s.word == s0.mtype && s.Depth(t) == MAX_DEPTH
    ensures |run| >= 4 && Possible(s0, run[..|run| - 4]) && WithinLimit(s0, run[..|run| - 4])
  {
    hide Leads, WithinLimit, Held, TypeOf, Initial, Possible, After, Do, Enabled;
    var prefix, s1 := ReachesLimit(s0, t);
    FreedNext(s1, t);
    var e, more := Reenter(t), [Unlock(t), CheckOwner(t), Release(t)];
    LeadsThen(s0, prefix, s1, e);
    var s2 := Do(s1, e);
    s := After(s2, more);
    assert Leads(s2, more, s) by {
      LeadsPlain(s2, more);
    }
    LeadsOn(s0, prefix + [e], s2, more, s);
    run := prefix + [e] + more;
    assert run[..|run| - 4] == prefix;
    LeadsPossible(s0, prefix, s1);
  }

  lemma LeadsPlain(s: State, run: seq<Event>)
    requires Possible(s, run) && forall i | 0 <= i < |run| :: !run[i].Rouse?
    ensures Leads(s, run, After(s, run))
  {
  }

  lemma LeadsPossible(s: State, run: seq<Event>, s': State)
    requires Leads(s, run, s')
    ensures Possible(s, run)
  {
  }

  // ---- a sleeper is never stranded -----------------------------------------

  /** The word says that t holds the mutex c times, and t is not waiting for anything. */
  ghost predicate Busy(s: State, t: Tid, c: nat) {
    && t in s.th && c > 0 && Held(s.mtype, s.word, t, c)
    && (s.th[t].pc.Idle? || s.th[t].pc.Entering? || s.th[t].pc.Again? || s.th[t].pc.Leaving? || s.th[t].pc.Releasing?)
  }

  /** The threads other than t are where they were. */
  ghost predicate OthersStay(s: State, s': State, t: Tid) {
    && s'.mtype == s.mtype && t in s'.th
    && forall x | x != t && x in s.th :: x in s'.th && s'.th[x] == s.th[x]
  }

  /** The holder finishes a lock call that it is in. */
  lemma Rested(s: State, t: Tid, c: nat) returns (run: seq<Event>, s': State, c': nat)
    requires Busy(s, t, c)
    ensures Leads(s, run, s') && Busy(s', t, c') && OthersStay(s, s', t) && LockState(s'.word) == LockState(s.word)
    ensures !s'.th[t].pc.Entering? && !s'.th[t].pc.Again?
  {
    hide Kind, Counter, LockState, Taken, Marked, Deeper, Nested, Shallower, TypeOf, Bits, IsKind, Leads;
    LeadsNowhere(s);
    run, s', c' := [], s, c;
    if s'.th[t].pc.Entering? {
      LeadsThen(s, run, s', ReadOwner(t));
      run, s' := run + [ReadOwner(t)], Do(s', ReadOwner(t));
    }
    if s'.th[t].pc.Again? {
      DeeperWord(s.mtype, s'.word, t, c);
      LeadsThen(s, run, s', Reenter(t));
      run, s' := run + [Reenter(t)], Do(s', Reenter(t));
      c' := if c < MAX_DEPTH then c + 1 else 1;
    }
  }

  /** The holder gets to the section that releases. */
  lemma Unlocks(s: State, t: Tid, c: nat) returns (run: seq<Event>, s': State)
    requires Busy(s, t, c) && !s.th[t].pc.Entering? && !s.th[t].pc.Again?
    ensures Leads(s, run, s') && Busy(s', t, c) && OthersStay(s, s', t) && s'.word == s.word && s'.th[t].pc.Releasing?
  {
    hide Kind, Counter, LockState, Taken, Marked, Deeper, Nested, Shallower, TypeOf, Bits, IsKind, Leads;
    LeadsNowhere(s);
    run, s' := [], s;
    if s'.th[t].pc.Idle? {
      LeadsThen(s, run, s', Unlock(t));
      run, s' := run + [Unlock(t)], Do(s', Unlock(t));
    }
    if s'.th[t].pc.Leaving? {
      LeadsThen(s, run, s', CheckOwner(t));
      run, s' := run + [CheckOwner(t)], Do(s', CheckOwner(t));
    }
  }

  /** The mutex is free, and t has a wake call to make if the word was contended. */
  ghost predicate Freed(s: State, s': State, t: Tid) {
    && OthersStay(s, s', t) && s'.word == s.mtype
    && s'.th[t].pc == if LockState(s.word) == 2 then Waking else Idle
  }

  lemma ReleaseOne(s: State, t: Tid, c: nat)
    requires Busy(s, t, c) && s.th[t].pc.Releasing?
    ensures Enabled(s, Release(t))
    ensures c == 1 ==> Freed(s, Do(s, Release(t)), t)
    ensures c > 1 ==>
              var s' := Do(s, Release(t));
              && Busy(s', t, c - 1) && OthersStay(s, s', t) && LockState(s'.word) == LockState(s.word)
              && s'.th[t].pc.Idle?
  {
    hide Owner, Kind, Counter, LockState, Taken, Marked, Deeper, Nested, Shallower, TypeOf, Bits, IsKind, Held;
    ShallowerWord(s.mtype, s.word, t, c);
  }

  lemma FreedThrough(s: State, s1: State, s2: State, t: Tid)
    requires OthersStay(s, s1, t) && LockState(s1.word) == LockState(s.word) && Freed(s1, s2, t)
    ensures Freed(s, s2, t)
  {
  }

  /** The holder unlocks as often as it has to, while no other thread moves. */
  lemma {:induction false} FreeUp(s: State, t: Tid, c: nat) returns (run: seq<Event>, s': State)
    requires Busy(s, t, c) && !s.th[t].pc.Entering? && !s.th[t].pc.Again?
    ensures Leads(s, run, s') && Freed(s, s', t)
    decreases c
  {
    hide Held, Leads, Freed, LockState, Do, Enabled, OthersStay;
    var s1;
    run, s1 := Unlocks(s, t, c);
    var e := Release(t);
    ReleaseOne(s1, t, c);
    LeadsThen(s, run, s1, e);
    run, s' := run + [e], Do(s1, e);
    if c > 1 {
      var s2 := s';
      var more;
      more, s' := FreeUp(s2, t, c - 1);
      FreedThrough(s1, s2, s', t);
      LeadsOn(s, run, s2, more, s');
      run := run + more;
    }
    FreedThrough(s, s1, s', t);
  }

  /** From anywhere in its calls. */
  lemma FreeUpFrom(s: State, t: Tid, c: nat) returns (run: seq<Event>, s': State)
    requires Busy(s, t, c)
    ensures Leads(s, run, s') && Freed(s, s', t)
  {
    hide Leads, Freed, LockState, OthersStay, Held;
    var run1, s1, c1 := Rested(s, t, c);
    var run2, s2 := FreeUp(s1, t, c1);
    FreedThrough(s, s1, s2, t);
    LeadsOn(s, run1, s1, run2, s2);
    run, s' := run1 + run2, s2;
  }

  lemma HolderIsBusy(s: State, t: Tid)
    requires ThreadsOk(s) && WordOk(s) && t in s.th && s.th[t].depth > 0
    ensures Busy(s, t, s.th[t].depth)
  {
    hide Held;
  }

  /** A thread that is awake, and about to take the mutex with its mark, can do so once it is free. */
  lemma AwakeTakes(s: State, x: Tid) returns (run: seq<Event>, s': State)
    requires Inv(s) && x in s.th && s.th[x].pc.Contending? && s.th[x].pc.newState == 2
    ensures Leads(s, run, s') && Rests(s', x, 1)
  {
    hide Leads, Owner, Kind, Counter, LockState, Taken, Marked, Bits, IsKind, Held, Attended, Busy;
    LeadsNowhere(s);
    run, s' := [], s;
    if s.word != s.mtype {
      var t :| t in s.th && s.th[t].depth > 0;
      HolderIsBusy(s, t);
      run, s' := FreeUpFrom(s, t, s.th[t].depth);
    }
    TakenWord(s.mtype, x, 2);
    LeadsThen(s, run, s', Contend(x));
    run, s' := run + [Contend(x)], Do(s', Contend(x));
  }

  /** A sleeper x when some thread u has a wake call to make. */
  lemma WokenTakes(s: State, x: Tid, u: Tid) returns (run: seq<Event>, s': State)
    requires Inv(s) && s.Asleep(x) && u in s.th && s.th[u].pc.Waking?
    ensures Leads(s, run, s') && Rests(s', x, 1)
  {
    hide Leads, Inv, Rests;
    var e := FutexWake(u, x);
    LeadsOne(s, e);
    WakeKeeps(s, u, x);
    var more;
    more, s' := AwakeTakes(Do(s, e), x);
    run := [e] + more;
    LeadsOn(s, [e], Do(s, e), more, s');
  }

  /** A sleeper x when the word is contended: its holder t unlocks and wakes x. */
  lemma ContendedTakes(s: State, x: Tid, t: Tid) returns (run: seq<Event>, s': State)
    requires Inv(s) && s.Asleep(x) && t in s.th && s.th[t].depth > 0 && LockState(s.word) == 2
    ensures Leads(s, run, s') && Rests(s', x, 1)
  {
    hide Leads, Owner, Kind, Counter, LockState, Taken, Marked, Bits, IsKind, Held, Attended, Busy, WordOk;
    HolderIsBusy(s, t);
    var s1;
    run, s1 := FreeUpFrom(s, t, s.th[t].depth);
    LeadsThen(s, run, s1, FutexWake(t, x));
    run, s' := run + [FutexWake(t, x)], Do(s1, FutexWake(t, x));
    TakenWord(s.mtype, x, 2);
    LeadsThen(s, run, s', Contend(x));
    run, s' := run + [Contend(x)], Do(s', Contend(x));
  }

  /** A thread u that is about to take or to mark the word does so. */
  lemma MarkedFirst(s: State, u: Tid) returns (s': State, t: Tid)
    requires Inv(s) && u in s.th && s.th[u].pc.Contending? && s.th[u].pc.newState == 2
    ensures Enabled(s, Contend(u)) && s' == Do(s, Contend(u)) && Inv(s') && LockState(s'.word) == 2
    ensures t in s'.th && s'.th[t].depth > 0
    ensures forall x | s.Asleep(x) :: s'.Asleep(x)
  {
    hide Owner, Kind, Counter, LockState, Taken, Marked, Bits, IsKind, Held, Attended;
    s' := Do(s, Contend(u));
    StepKeeps(s, Contend(u));
    if s.word == s.mtype {
      TakenWord(s.mtype, u, 2);
      t := u;
    } else {
      t :| t in s.th && s.th[t].depth > 0;
      MarkedWord(s.mtype, s.word, t, s.th[t].depth);
    }
  }

  /**
   From every state that can be reached, any sleeper can be brought to hold the mutex
   by steps of the threads alone, with no timeout and no signal.
   */
  lemma SleeperCanProceed(init: State, prefix: seq<Event>, x: Tid) returns (run: seq<Event>, s': State)
    requires Initial(init) && Possible(init, prefix) && WithinLimit(init, prefix) && After(init, prefix).Asleep(x)
    ensures Leads(After(init, prefix), run, s') && Rests(s', x, 1)
  {
    hide Possible, After, WithinLimit, Leads, Rests, Held, LockState, IsKind, Do, Enabled;
    InitialIsFine(init);
    RunKeeps(init, prefix);
    var s := After(init, prefix);
    if u :| u in s.th && s.th[u].pc.Waking? {
      run, s' := WokenTakes(s, x, u);
    } else if LockState(s.word) == 2 {
      FreeWord(s.mtype);
      var t :| t in s.th && s.th[t].depth > 0;
      run, s' := ContendedTakes(s, x, t);
    } else {
      var u :| s.Tends(u);
      var s1, t := MarkedFirst(s, u);
      LeadsOne(s, Contend(u));
      var more;
      more, s' := ContendedTakes(s1, x, t);
      LeadsOn(s, [Contend(u)], s1, more, s');
      run := [Contend(u)] + more;
    }
  }

  // ---- what a call does ----------------------------------------------------

  /** In a call of lock, of any kind. */
  predicate InCall(p: Pc) {
    p.Entering? || p.Again? || p.Contending? || p.Checking? || p.Waiting? || p.Asleep?
  }

  /** The kind of the call, as far as it still matters. */
  predicate MayGiveUp(p: Pc, call: Call) {
    match p
    case Entering(c) => c == call
    case Contending(c, _) => c == call
    case Waiting(c, _) => c == call
    case Asleep(c) => c == call
    case Checking(_) => call.Timed?
    case _ => false
  }

  /**
   Whatever step is taken, a thread in a call of lock stays in it or has locked the mutex
   once more; or the call fails, because the mutex checks for errors and is its own, because
   it was tried once and is not free, or because time is over.
   */
  lemma CallStep(s: State, e: Event, t: Tid)
    requires Inv(s) && Enabled(s, e) && t in s.th && InCall(s.th[t].pc)
    ensures var x, x' := s.th[t], Do(s, e).th[t];
            || (InCall(x'.pc) && x'.depth == x.depth && forall c :: MayGiveUp(x'.pc, c) ==> MayGiveUp(x.pc, c))
            || (x'.pc == Idle && x'.depth == x.depth + 1)
            || (&& x'.pc == Idle && x'.depth == x.depth
                && (|| (e == ReadOwner(t) && TypeOf(s.mtype) == TYPE_ERRORCHECK && x.depth > 0)
                    || (e == Contend(t) && MayGiveUp(x.pc, Once) && s.word != s.mtype)
                    || (e == LookAtClock(t, true) && MayGiveUp(x.pc, Timed))))
  {
    hide Owner, Kind, Counter, LockState, Taken, Marked, Deeper, Nested, Shallower, TypeOf, Bits, IsKind, Held, Attended,
         WordOk;
    SeenBy(s, t);
    if e.t == t {
      OwnerSeen(s.mtype, s.word, t, s.th[t].depth);
    }
  }

  lemma OwnerSeen(mtype: bv32, w: bv32, t: Tid, d: nat)
    requires Seen(mtype, w, t, d)
    ensures Owner(w) == Bits(t) <==> d > 0
  {
    hide Kind, Counter, LockState, IsKind;
  }

  /** s, but for the word and for thread t. */
  function Solo(s: State, t: Tid, w: bv32, x: Thread): State {
    s.(word := w).To(t, x)
  }

  /** A step of t alone. */
  lemma SoloThen(s: State, run: seq<Event>, t: Tid, w: bv32, x: Thread, e: Event)
    requires t in s.th && Leads(s, run, Solo(s, t, w, x)) && e.t == t && Fits(x.pc, e)
    requires !e.Rouse? && !e.FutexWake? && !e.FutexWakeNobody?
    ensures var (w', x') := Local(s.mtype, w, t, x.pc, x.depth, e); Leads(s, run + [e], Solo(s, t, w', x'))
  {
    hide Leads, Local;
    var s1 := Solo(s, t, w, x);
    LeadsThen(s, run, s1, e);
    var (w', x') := Local(s.mtype, w, t, x.pc, x.depth, e);
    assert Do(s1, e) == Solo(s, t, w', x');
  }

  lemma SoloStart(s: State, t: Tid)
    requires t in s.th
    ensures Leads(s, [], Solo(s, t, s.word, s.th[t]))
  {
    assert s.th[t := s.th[t]] == s.th;
    LeadsNowhere(s);
  }

  /** The outcome of a call of lock that runs alone. */
  ghost predicate Locked(s: State, t: Tid, call: Call, late: bool, s': State)
    requires t in s.th
  {
    var d := s.th[t].depth;
    if s.word == s.mtype then
      s' == Solo(s, t, s'.word, Thread(Idle, 1)) && Held(s.mtype, s'.word, t, 1) && LockState(s'.word) == 1
    else if d > 0 then
      if TypeOf(s.mtype) == TYPE_ERRORCHECK then s' == s
      else
        && s' == Solo(s, t, s'.word, Thread(Idle, d + 1)) && Held(s.mtype, s'.word, t, d + 1)
        && LockState(s'.word) == LockState(s.word)
    else if call.Once? then s' == s
    else s' == Solo(s, t, Marked(s.word), Thread(if late && call.Timed? then Idle else Asleep(call), 0))
  }

  /**
   A lock by a thread that is not in any call, from every state that can be reached within
   the limit: it takes a free mutex; it counts one more if the mutex is its own, or fails if
   that is checked for; if the mutex is another's it marks it and sleeps, unless its time is
   over already or it only tries.
   */
  lemma LockAlone(s: State, t: Tid, call: Call, late: bool) returns (run: seq<Event>, s': State)
    requires Inv(s) && t in s.th && s.th[t].pc == Idle && s.th[t].depth < MAX_DEPTH
    ensures Leads(s, run, s') && (forall e | e in run :: e.t == t) && Locked(s, t, call, late, s')
  {
    hide Owner, Kind, Counter, LockState, Taken, Marked, Deeper, Nested, Shallower, TypeOf, Bits, IsKind, Held, Leads, Inv;
    var d := s.th[t].depth;
    InvSees(s, t);
    SoloStart(s, t);
    run := [];
    SoloThen(s, run, t, s.word, Thread(Idle, d), Lock(t, call));
    run := run + [Lock(t, call)];
    SoloThen(s, run, t, s.word, Thread(Entering(call), d), ReadOwner(t));
    run := run + [ReadOwner(t)];
    if d > 0 {
      OwnAgain(s, t);
      if TypeOf(s.mtype) == TYPE_ERRORCHECK {
        s' := s;
        assert s == Solo(s, t, s.word, s.th[t]) by {
          assert s.th[t := s.th[t]] == s.th;
        }
      } else {
        SoloThen(s, run, t, s.word, Thread(Again, d), Reenter(t));
        run, s' := run + [Reenter(t)], Solo(s, t, Deeper(s.word), Thread(Idle, d + 1));
      }
    } else {
      run, s' := ContendAlone(s, t, call, late, run);
    }
  }

  lemma InvSees(s: State, t: Tid)
    requires Inv(s) && t in s.th
    ensures IsTid(t) && IsKind(s.mtype) && Seen(s.mtype, s.word, t, s.th[t].depth)
    ensures Owner(s.word) == Bits(t) <==> s.th[t].depth > 0
  {
    hide Attended, PlaceOk, Owner, Bits, IsKind, Held;
    SeenBy(s, t);
    OwnerSeen(s.mtype, s.word, t, s.th[t].depth);
  }

  /** The word when its owner locks again. */
  lemma OwnAgain(s: State, t: Tid)
    requires t in s.th && Seen(s.mtype, s.word, t, s.th[t].depth) && 0 < s.th[t].depth < MAX_DEPTH
    ensures s.word != s.mtype
    ensures Held(s.mtype, Deeper(s.word), t, s.th[t].depth + 1) && LockState(Deeper(s.word)) == LockState(s.word)
  {
    hide Kind, Counter, Deeper, IsKind;
    FreeWord(s.mtype);
    DeeperWord(s.mtype, s.word, t, s.th[t].depth);
  }

  lemma ContendAlone(s: State, t: Tid, call: Call, late: bool, run0: seq<Event>) returns (run: seq<Event>, s': State)
    requires t in s.th && Seen(s.mtype, s.word, t, 0) && s.th[t] == Thread(Idle, 0)
    requires Leads(s, run0, Solo(s, t, s.word, Thread(Contending(call, 1), 0))) && forall e | e in run0 :: e.t == t
    ensures Leads(s, run, s') && (forall e | e in run :: e.t == t) && Locked(s, t, call, late, s')
  {
    hide Owner, Kind, Counter, LockState, Taken, Marked, Deeper, Nested, Shallower, TypeOf, Bits, IsKind, Held, Leads;
    run := run0;
    SoloThen(s, run, t, s.word, Thread(Contending(call, 1), 0), Contend(t));
    run := run + [Contend(t)];
    if s.word == s.mtype {
      TakenWord(s.mtype, t, 1);
      s' := Solo(s, t, Taken(s.mtype, Bits(t), 1), Thread(Idle, 1));
    } else if call.Once? {
      s' := s;
      assert s == Solo(s, t, s.word, s.th[t]) by {
        assert s.th[t := s.th[t]] == s.th;
      }
    } else {
      var w := Marked(s.word);
      if call.Timed? {
        SoloThen(s, run, t, w, Thread(Checking(w), 0), LookAtClock(t, late));
        run := run + [LookAtClock(t, late)];
      }
      if !(late && call.Timed?) {
        SoloThen(s, run, t, w, Thread(Waiting(call, w), 0), FutexWait(t));
        run := run + [FutexWait(t)];
      }
      s' := Solo(s, t, w, Thread(if late && call.Timed? then Idle else Asleep(call), 0));
    }
  }

  /**
   An unlock by a thread that is not in any call: it does nothing if the mutex is not its
   own; otherwise it counts one less, or frees the mutex with the last, and then goes on to
   wake a sleeper if the word was marked.
   */
  lemma UnlockAlone(s: State, t: Tid) returns (run: seq<Event>, s': State)
    requires Inv(s) && t in s.th && s.th[t].pc == Idle
    ensures Leads(s, run, s') && (forall e | e in run :: e.t == t)
    ensures var d := s.th[t].depth;
            && (d == 0 ==> s' == s)
            && (d == 1 ==>
                  s' == Solo(s, t, s.mtype, Thread(if LockState(s.word) == 2 then Waking else Idle, 0)))
            && (d > 1 ==>
                  && s' == Solo(s, t, s'.word, Thread(Idle, d - 1)) && Held(s.mtype, s'.word, t, d - 1)
                  && LockState(s'.word) == LockState(s.word))
  {
    hide Owner, Kind, Counter, LockState, Taken, Marked, Deeper, Nested, Shallower, TypeOf, Bits, IsKind, Held, Leads, Inv;
    var d := s.th[t].depth;
    InvSees(s, t);
    SoloStart(s, t);
    run := [];
    SoloThen(s, run, t, s.word, Thread(Idle, d), Unlock(t));
    run := run + [Unlock(t)];
    SoloThen(s, run, t, s.word, Thread(Leaving, d), CheckOwner(t));
    run := run + [CheckOwner(t)];
    if d == 0 {
      s' := s;
      assert s == Solo(s, t, s.word, s.th[t]) by {
        assert s.th[t := s.th[t]] == s.th;
      }
    } else {
      ShallowerWord(s.mtype, s.word, t, d);
      SoloThen(s, run, t, s.word, Thread(Releasing, d), Release(t));
      run := run + [Release(t)];
      var (w', x') := Released(s.mtype, s.word, d);
      s' := Solo(s, t, w', x');
    }
  }

  /** A wake call ends the sleep of one thread. */
  lemma WakeOne(s: State, t: Tid, x: Tid)
    requires t in s.th && s.th[t].pc.Waking? && s.Asleep(x)
    ensures Enabled(s, FutexWake(t, x))
    ensures Do(s, FutexWake(t, x))
         == s.To(x, s.th[x].(pc := Contending(s.th[x].pc.call, 2))).To(t, s.th[t].(pc := Idle))
  {
  }

  /** A sleep does not begin if the word has changed; when it ends, the mutex is taken or marked as contended. */
  lemma WaitEnds(s: State, t: Tid)
    requires t in s.th
    ensures s.th[t].pc.Waiting? ==>
              && Enabled(s, FutexWait(t))
              && Do(s, FutexWait(t))
                 == s.To(t, s.th[t].(pc := if s.word == s.th[t].pc.seen then Asleep(s.th[t].pc.call)
                                           else Contending(s.th[t].pc.call, 2)))
    ensures s.Asleep(t) ==>
              && Enabled(s, Rouse(t))
              && Do(s, Rouse(t)) == s.To(t, s.th[t].(pc := Contending(s.th[t].pc.call, 2)))
  {
  }

  // ---- error-checking mutexes ----------------------------------------------

  predicate ErrorChecking(s: State) {
    TypeOf(s.mtype) == TYPE_ERRORCHECK
  }

  ghost predicate NeverNested(s: State) {
    ErrorChecking(s) ==> forall t | t in s.th :: s.th[t].depth <= 1 && !s.th[t].pc.Again?
  }

  lemma {:induction false} RunNeverNests(s: State, run: seq<Event>)
    requires NeverNested(s) && Possible(s, run)
    ensures NeverNested(After(s, run)) && After(s, run).mtype == s.mtype
    ensures ErrorChecking(s) ==> WithinLimit(s, run)
    decreases |run|
  {
    if run != [] {
      StepNeverNests(s, run[0]);
      hide NeverNested, Enabled, Do;
      RunNeverNests(Do(s, run[0]), run[1..]);
    }
  }

  lemma StepNeverNests(s: State, e: Event)
    requires NeverNested(s) && Enabled(s, e)
    ensures NeverNested(Do(s, e)) && Do(s, e).mtype == s.mtype
    ensures ErrorChecking(s) ==> !TooDeep(s.Depth(e.t), e)
  {
    hide Owner, Taken, Marked, Deeper, Nested, Shallower, TypeOf, Bits, LockState;
  }

  /** No thread ever holds an error-checking mutex twice, so the limit never matters there. */
  lemma ErrorCheckNeverNests(s: State, run: seq<Event>, t: Tid)
    requires Initial(s) && ErrorChecking(s) && Possible(s, run)
    ensures WithinLimit(s, run) && After(s, run).Depth(t) <= 1
  {
    hide Possible, After, WithinLimit, IsKind;
    RunNeverNests(s, run);
  }
}
