/**
 The normal mutex: a word of three states, compare-and-swap, swap, decrement and store,
 and a futex to sleep on.  Any number of threads take steps in any order; each atomic
 operation of the code is one step, and so are going to sleep and being woken.
 */
module NormalMutex {

  type Thread = nat

  const SHARED_MASK: bv32 := 0x2000

  /** Where a thread is; timed locks may also give up. */
  datatype Pc =
    | Idle
    | Trying(timed: bool)     // before the compare-and-swap from 0 to 1
    | Swapping(timed: bool)   // before swapping in 2
    | Checking                // a timed lock that found the mutex taken, before it looks at the clock
    | Waiting(timed: bool)    // before the futex wait
    | Asleep(timed: bool)
    | Holding
    | Storing                 // decremented from 2 to 1, before the store of 0
    | Waking                  // stored 0, before the futex wake
  {
    /** Between taking the mutex and making it free for others. */
    predicate Owning() {
      Holding? || Storing?
    }

    /** Bound to wake a sleeper, or to mark the mutex as contended, before it can rest. */
    predicate Tending() {
      Storing? || Waking? || Swapping?
    }
  }

  datatype State = State(shared: bv32, word: bv32, pc: map<Thread, Pc>) {

    predicate At(t: Thread, p: Pc) {
      t in pc && pc[t] == p
    }

    predicate Asleep(t: Thread) {
      t in pc && pc[t].Asleep?
    }

    predicate Owns(t: Thread) {
      t in pc && pc[t].Owning()
    }

    predicate Tends(t: Thread) {
      t in pc && pc[t].Tending()
    }

    function To(t: Thread, p: Pc): State {
      this.(pc := pc[t := p])
    }
  }

  datatype Event =
    | Lock(t: Thread, timed: bool)
    | TryLock(t: Thread)
    | CompareAndSwap(t: Thread)
    | Swap(t: Thread)
    | LookAtClock(t: Thread, expired: bool)
    | FutexWait(t: Thread)
    | Rouse(t: Thread)                       // a timeout or a signal ends the sleep
    | Decrement(t: Thread)
    | StoreZero(t: Thread)
    | FutexWake(t: Thread, sleeper: Thread)
    | FutexWakeNobody(t: Thread)

  // The words of the three lock states, with the flag for sharing between processes kept.

  function Unlocked(shared: bv32): bv32 {
    shared | 0
  }

  function Locked(shared: bv32): bv32 {
    shared | 1
  }

  function Contended(shared: bv32): bv32 {
    shared | 2
  }

  function AtomicDec(w: bv32): bv32 {
    w - 1
  }

  predicate IsFlag(shared: bv32) {
    shared == 0 || shared == SHARED_MASK
  }

  lemma Words(shared: bv32)
    requires IsFlag(shared)
    ensures Unlocked(shared) == shared
    ensures Unlocked(shared) != Locked(shared) && Locked(shared) != Contended(shared)
    ensures Unlocked(shared) != Contended(shared)
    ensures AtomicDec(Contended(shared)) == Locked(shared) && AtomicDec(Locked(shared)) == Unlocked(shared)
    ensures Unlocked(shared) & SHARED_MASK == shared && Locked(shared) & SHARED_MASK == shared
    ensures Contended(shared) & SHARED_MASK == shared
  {
  }

  /** A thread at p can take the step e. */
  predicate Fits(p: Pc, e: Event) {
    match e
    case Lock(_, _) => p.Idle?
    case TryLock(_) => p.Idle?
    case CompareAndSwap(_) => p.Trying?
    case Swap(_) => p.Swapping?
    case LookAtClock(_, _) => p.Checking?
    case FutexWait(_) => p.Waiting?
    case Rouse(_) => p.Asleep?
    case Decrement(_) => p.Holding?
    case StoreZero(_) => p.Storing?
    case FutexWake(_, _) => p.Waking?
    case FutexWakeNobody(_) => p.Waking?
  }

  predicate Enabled(s: State, e: Event) {
    && e.t in s.pc && Fits(s.pc[e.t], e)
    && (e.FutexWake? ==> s.Asleep(e.sleeper))
    && (e.FutexWakeNobody? ==> forall u | u in s.pc :: !s.Asleep(u))
  }

  /** The step of one thread at p: the new word, and where the thread is then. */
  function Local(shared: bv32, word: bv32, p: Pc, e: Event): (bv32, Pc) {
    match e
    case Lock(_, timed) => (word, Trying(timed))
    case TryLock(_) =>
      if word == Unlocked(shared) then (Locked(shared), Holding) else (word, Idle)
    case CompareAndSwap(_) =>
      if word == Unlocked(shared) then (Locked(shared), Holding) else (word, Swapping(p == Trying(true)))
    case Swap(_) =>
      (Contended(shared),
       if word == Unlocked(shared) then Holding
       else if p == Swapping(true) then Checking
       else Waiting(false))
    case LookAtClock(_, expired) => (word, if expired then Idle else Waiting(true))
    case FutexWait(_) =>
      (word, if word == Contended(shared) then Asleep(p == Waiting(true)) else Swapping(p == Waiting(true)))
    case Rouse(_) => (word, Swapping(p == Asleep(true)))
    case Decrement(_) => (AtomicDec(word), if word == Locked(shared) then Idle else Storing)
    case StoreZero(_) => (shared, Waking)
    case FutexWake(_, _) => (word, Idle)
    case FutexWakeNobody(_) => (word, Idle)
  }

  function Do(s: State, e: Event): State
    requires Enabled(s, e)
  {
    var (w', p') := Local(s.shared, s.word, s.pc[e.t], e);
    var s' := if e.FutexWake? then s.To(e.sleeper, Swapping(s.pc[e.sleeper].timed)) else s;
    s'.(word := w').To(e.t, p')
  }

  /** An unlocked mutex and threads that have not used it yet. */
  predicate Initial(s: State) {
    && (s.shared == 0 || s.shared == SHARED_MASK)
    && s.word == s.shared
    && forall t | t in s.pc :: s.pc[t] == Idle
  }

  predicate Possible(s: State, run: seq<Event>)
    decreases |run|
  {
    run == [] || (Enabled(s, run[0]) && Possible(Do(s, run[0]), run[1..]))
  }

  function After(s: State, run: seq<Event>): State
    requires Possible(s, run)
    decreases |run|
  {
    if run == [] then s else After(Do(s, run[0]), run[1..])
  }

  // ---- what every step keeps -----------------------------------------------

  ghost predicate WordOk(s: State) {
    && IsFlag(s.shared)
    && (s.word == Unlocked(s.shared) || s.word == Locked(s.shared) || s.word == Contended(s.shared))
  }

  ghost predicate OneOwner(s: State) {
    && (forall t, u | s.Owns(t) && s.Owns(u) :: t == u)
    && (s.word != Unlocked(s.shared) <==> exists t :: s.Owns(t))
  }

  /** If a thread sleeps, the mutex is marked as contended, or some awake thread sees to it. */
  ghost predicate Attended(s: State) {
    forall x | s.Asleep(x) :: s.word == Contended(s.shared) || exists u :: s.Tends(u)
  }

  ghost predicate Inv(s: State) {
    WordOk(s) && OneOwner(s) && Attended(s)
  }

  /** The mutex passes between free and owned as the moving thread gains or loses it. */
  predicate OwnerMove(shared: bv32, w: bv32, p: Pc, w': bv32, p': Pc) {
    && (p.Owning() == p'.Owning() ==> (w' == Unlocked(shared) <==> w == Unlocked(shared)))
    && (!p.Owning() && p'.Owning() ==> w == Unlocked(shared) && w' != Unlocked(shared))
    && (p.Owning() && !p'.Owning() ==> w' == Unlocked(shared))
  }

  /** A thread falls asleep only on a contended word, and the mark goes only by a hand that tends it. */
  predicate SleepMove(shared: bv32, w: bv32, p: Pc, w': bv32, p': Pc) {
    && (p'.Asleep? ==> p.Asleep? || w' == Contended(shared))
    && (w == Contended(shared) ==> w' == Contended(shared) || p'.Tending())
  }

  lemma OwnerMoves(s: State, t: Thread, w': bv32, p': Pc)
    requires OneOwner(s) && t in s.pc && OwnerMove(s.shared, s.word, s.pc[t], w', p')
    ensures OneOwner(s.(word := w').To(t, p'))
  {
    hide Unlocked, Pc.Owning;
    var s' := s.(word := w').To(t, p');
    forall u | u != t
      ensures s'.Owns(u) <==> s.Owns(u)
    {
    }
    assert s.Owns(t) <==> s.pc[t].Owning();
    assert s'.Owns(t) <==> p'.Owning();
  }

  lemma SleepMoves(s: State, t: Thread, w': bv32, p': Pc)
    requires Attended(s) && t in s.pc && SleepMove(s.shared, s.word, s.pc[t], w', p')
    requires s.pc[t].Tending() && !p'.Tending() ==>
               w' == Contended(s.shared) || (forall x :: !s.Asleep(x)) || (exists u :: u != t && s.Tends(u))
    ensures Attended(s.(word := w').To(t, p'))
  {
    hide Contended, Pc.Tending;
    var s' := s.(word := w').To(t, p');
    forall x | s'.Asleep(x)
      ensures s'.word == Contended(s'.shared) || exists u :: s'.Tends(u)
    {
      if !s'.Tends(t) && w' != Contended(s.shared) {
        assert s.Asleep(x);
        if s.Tends(t) {
          var u :| u != t && s.Tends(u);
          assert s'.Tends(u);
        } else {
          var u :| s.Tends(u);
          assert s'.Tends(u);
        }
      }
    }
  }

  lemma LocalSteps(shared: bv32, word: bv32, p: Pc, e: Event)
    requires IsFlag(shared) && (word == Unlocked(shared) || word == Locked(shared) || word == Contended(shared))
    requires Fits(p, e) && !e.FutexWake? && (e.Decrement? ==> word != Unlocked(shared))
    ensures var (w', p') := Local(shared, word, p, e);
            && OwnerMove(shared, word, p, w', p') && SleepMove(shared, word, p, w', p')
            && (p.Tending() && !p'.Tending() ==> w' == Contended(shared) || e.FutexWakeNobody?)
            && (w' == Unlocked(shared) || w' == Locked(shared) || w' == Contended(shared))
  {
    hide Unlocked, Locked, Contended, AtomicDec, IsFlag;
    Words(shared);
    match e
    case Lock(_, _) =>
    case TryLock(_) =>
    case CompareAndSwap(_) =>
    case Swap(_) =>
    case LookAtClock(_, _) =>
    case FutexWait(_) =>
    case Rouse(_) =>
    case Decrement(_) =>
    case StoreZero(_) =>
    case FutexWakeNobody(_) =>
  }

  /** Every step keeps the invariant. */
  lemma StepKeeps(s: State, e: Event)
    requires Inv(s) && Enabled(s, e)
    ensures Inv(Do(s, e)) && Do(s, e).shared == s.shared
  {
    hide Unlocked, Locked, Contended, AtomicDec, IsFlag, OwnerMove, SleepMove, Attended, Pc.Tending;
    if e.FutexWake? {
      WakeKeeps(s, e.t, e.sleeper);
    } else {
      if e.Decrement? {
        assert s.Owns(e.t);
      }
      LocalSteps(s.shared, s.word, s.pc[e.t], e);
      var (w', p') := Local(s.shared, s.word, s.pc[e.t], e);
      OwnerMoves(s, e.t, w', p');
      SleepMoves(s, e.t, w', p');
    }
  }

  lemma WakeKeeps(s: State, t: Thread, sleeper: Thread)
    requires Inv(s) && s.At(t, Waking) && s.Asleep(sleeper)
    ensures Inv(s.To(sleeper, Swapping(s.pc[sleeper].timed)).To(t, Idle))
  {
    hide Unlocked, Locked, Contended, AtomicDec, IsFlag, OneOwner, Attended;
    var p' := Swapping(s.pc[sleeper].timed);
    OwnerMoves(s, sleeper, s.word, p');
    SleepMoves(s, sleeper, s.word, p');
    var s1 := s.To(sleeper, p');
    assert s1 == s.(word := s.word).To(sleeper, p') && s1.Tends(sleeper);
    OwnerMoves(s1, t, s1.word, Idle);
    SleepMoves(s1, t, s1.word, Idle);
    assert s1.To(t, Idle) == s1.(word := s1.word).To(t, Idle);
  }

  // ---- every run -----------------------------------------------------------

  lemma {:induction false} RunKeeps(s: State, run: seq<Event>)
    requires Inv(s) && Possible(s, run)
    ensures Inv(After(s, run)) && After(s, run).shared == s.shared
    decreases |run|
  {
    hide Inv, Enabled, Do;
    if run != [] {
      StepKeeps(s, run[0]);
      RunKeeps(Do(s, run[0]), run[1..]);
    }
  }

  lemma InitialIsFine(s: State)
    requires Initial(s)
    ensures Inv(s)
  {
  }

  /**
   In every state that any number of threads can reach, at most one of them owns the
   mutex, the word says whether one does, and the flag for sharing is as it was.
   */
  lemma MutualExclusion(s: State, run: seq<Event>, t: Thread, u: Thread)
    requires Initial(s) && Possible(s, run)
    ensures var s' := After(s, run);
            && (s'.Owns(t) && s'.Owns(u) ==> t == u)
            && (s'.word == s.shared <==> forall v :: !s'.Owns(v))
            && s'.word & SHARED_MASK == s.shared
  {
    hide Possible, After, Attended, State.Owns, IsFlag;
    InitialIsFine(s);
    RunKeeps(s, run);
    Words(s.shared);
    hide Unlocked, Locked, Contended;
  }

  /**
   In every such state, if a thread sleeps then the owner will find the mutex contended
   when it unlocks, or another awake thread is on its way to wake a sleeper or to mark
   the mutex; in particular not all threads are asleep or idle.
   */
  lemma NoLostWakeup(s: State, run: seq<Event>, x: Thread)
    requires Initial(s) && Possible(s, run) && After(s, run).Asleep(x)
    ensures var s' := After(s, run);
            || (s'.word == Contended(s.shared) && exists t :: s'.Owns(t))
            || exists u :: s'.Tends(u)
  {
    hide Possible, After, State.Owns, State.Tends, State.Asleep, IsFlag;
    InitialIsFine(s);
    RunKeeps(s, run);
    Words(s.shared);
    hide Unlocked, Locked, Contended;
  }

  // ---- a sleeper is never stranded -----------------------------------------

  /** The run leads from s to s', and in it no sleep ends but by a wake call. */
  ghost predicate Leads(s: State, run: seq<Event>, s': State) {
    && Possible(s, run) && After(s, run) == s'
    && forall i | 0 <= i < |run| :: !run[i].Rouse?
  }

  lemma LeadsNowhere(s: State)
    ensures Leads(s, [], s)
  {
  }

  lemma LeadsThen(s: State, run: seq<Event>, s1: State, e: Event)
    requires Leads(s, run, s1) && Enabled(s1, e) && !e.Rouse?
    ensures Leads(s, run + [e], Do(s1, e))
  {
    hide Enabled, Do, Leads;
    assert Leads(s1, [e], Do(s1, e)) by {
      LeadsOne(s1, e);
    }
    LeadsOn(s, run, s1, [e], Do(s1, e));
  }

  lemma LeadsOne(s: State, e: Event)
    requires Enabled(s, e) && !e.Rouse?
    ensures Leads(s, [e], Do(s, e))
  {
  }

  lemma {:induction false} LeadsOn(s: State, run: seq<Event>, s1: State, more: seq<Event>, s2: State)
    requires Leads(s, run, s1) && Leads(s1, more, s2)
    ensures Leads(s, run + more, s2)
    decreases |run|
  {
    hide Enabled, Do;
    if run == [] {
      assert run + more == more;
    } else {
      assert Leads(Do(s, run[0]), run[1..], s1);
      LeadsOn(Do(s, run[0]), run[1..], s1, more, s2);
      assert (run + more)[1..] == run[1..] + more;
    }
  }

  lemma OwnedWord(s: State, t: Thread)
    requires OneOwner(s) && s.Owns(t)
    ensures s.word != Unlocked(s.shared)
  {
  }

  /** The threads other than t are where they were. */
  ghost predicate OthersStay(s: State, s': State, t: Thread) {
    s'.shared == s.shared && forall x | x != t && x in s.pc :: x in s'.pc && s'.pc[x] == s.pc[x]
  }

  /** The owner t can free the mutex while no other thread moves. */
  lemma FreeUp(s: State, t: Thread) returns (run: seq<Event>, s': State)
    requires Inv(s) && s.Owns(t)
    ensures Leads(s, run, s') && Inv(s') && s'.word == Unlocked(s.shared) && OthersStay(s, s', t)
  {
    hide Unlocked, Locked, Contended, AtomicDec, IsFlag, Leads, OneOwner, Attended;
    Words(s.shared);
    OwnedWord(s, t);
    LeadsNowhere(s);
    s', run := s, [];
    if s.pc[t].Holding? {
      var e := Decrement(t);
      LeadsThen(s, run, s', e);
      StepKeeps(s', e);
      s', run := Do(s', e), run + [e];
    }
    if s'.pc[t].Storing? {
      var e := StoreZero(t);
      LeadsThen(s, run, s', e);
      StepKeeps(s', e);
      s', run := Do(s', e), run + [e];
    }
  }

  /** A thread that is about to swap can take the mutex once it is free. */
  lemma SwapTakes(s: State, x: Thread) returns (run: seq<Event>, s': State)
    requires Inv(s) && x in s.pc && s.pc[x].Swapping?
    ensures Leads(s, run, s') && s'.At(x, Holding)
  {
    hide Unlocked, Locked, Contended, AtomicDec, IsFlag, Leads, Attended, WordOk;
    LeadsNowhere(s);
    run, s' := [], s;
    if s.word != Unlocked(s.shared) {
      var t :| s.Owns(t);
      run, s' := FreeUp(s, t);
    }
    LeadsThen(s, run, s', Swap(x));
    run, s' := run + [Swap(x)], Do(s', Swap(x));
  }

  /** A sleeper x when some thread u has a wake call to make. */
  lemma WokenTakes(s: State, x: Thread, u: Thread) returns (run: seq<Event>, s': State)
    requires Inv(s) && s.Asleep(x) && s.At(u, Waking)
    ensures Leads(s, run, s') && s'.At(x, Holding)
  {
    hide Unlocked, Locked, Contended, AtomicDec, Leads, Inv;
    var e := FutexWake(u, x);
    LeadsOne(s, e);
    StepKeeps(s, e);
    var more;
    more, s' := SwapTakes(Do(s, e), x);
    run := [e] + more;
    LeadsOn(s, [e], Do(s, e), more, s');
  }

  /** A sleeper x when some thread owns the mutex in the contended state, or is releasing it. */
  lemma ContendedTakes(s: State, x: Thread, t: Thread) returns (run: seq<Event>, s': State)
    requires Inv(s) && s.Asleep(x) && s.Owns(t) && (s.pc[t].Holding? ==> s.word == Contended(s.shared))
    ensures Leads(s, run, s') && s'.At(x, Holding)
  {
    hide Unlocked, Locked, Contended, AtomicDec, IsFlag, Leads, Attended, OneOwner;
    Words(s.shared);
    LeadsNowhere(s);
    run, s' := [], s;
    if s.pc[t].Holding? {
      var e := Decrement(t);
      LeadsThen(s, run, s', e);
      StepKeeps(s', e);
      s', run := Do(s', e), run + [e];
    }
    var e := StoreZero(t);
    LeadsThen(s, run, s', e);
    StepKeeps(s', e);
    var s1 := Do(s', e);
    run := run + [e];
    var more;
    more, s' := WokenTakes(s1, x, t);
    LeadsOn(s, run, s1, more, s');
    run := run + more;
  }

  /**
   From every state that can be reached, any sleeper can be brought to hold the mutex
   by steps of the threads alone, with no timeout and no signal.
   */
  lemma SleeperCanProceed(init: State, prefix: seq<Event>, x: Thread) returns (run: seq<Event>, s': State)
    requires Initial(init) && Possible(init, prefix) && After(init, prefix).Asleep(x)
    ensures Leads(After(init, prefix), run, s') && s'.At(x, Holding)
  {
    hide Possible, After, Unlocked, Locked, Contended, AtomicDec, IsFlag, Leads;
    InitialIsFine(init);
    RunKeeps(init, prefix);
    var s := After(init, prefix);
    if u :| s.At(u, Waking) {
      run, s' := WokenTakes(s, x, u);
    } else if t :| s.At(t, Storing) {
      run, s' := ContendedTakes(s, x, t);
    } else if s.word == Contended(s.shared) {
      Words(s.shared);
      var t :| s.Owns(t);
      run, s' := ContendedTakes(s, x, t);
    } else {
      var u :| s.Tends(u);
      assert !s.At(u, Waking) && !s.At(u, Storing);
      run, s' := SwapFirst(s, x, u);
    }
  }

  lemma SwapFirst(s: State, x: Thread, u: Thread) returns (run: seq<Event>, s': State)
    requires Inv(s) && s.Asleep(x) && u in s.pc && s.pc[u].Swapping? && forall t :: !s.At(t, Storing)
    ensures Leads(s, run, s') && s'.At(x, Holding)
  {
    hide Unlocked, Locked, Contended, AtomicDec, IsFlag, Leads, Attended;
    var e := Swap(u);
    LeadsOne(s, e);
    StepKeeps(s, e);
    Words(s.shared);
    var s1 := Do(s, e);
    var t :| s1.Owns(t);
    assert t == u || s.Owns(t);
    var more;
    more, s' := ContendedTakes(s1, x, t);
    run := [e] + more;
    LeadsOn(s, [e], s1, more, s');
  }

  // ---- what a call does ----------------------------------------------------

  /** In a call of lock without a time limit. */
  predicate InLock(p: Pc) {
    p == Trying(false) || p == Swapping(false) || p == Waiting(false) || p == Asleep(false)
  }

  /** In a call of lock with a time limit. */
  predicate InTimedLock(p: Pc) {
    p == Trying(true) || p == Swapping(true) || p == Checking || p == Waiting(true) || p == Asleep(true)
  }

  /**
   Whatever step is taken, a thread in a call of lock stays in it or becomes the owner of a
   mutex that was free; with a time limit it may also give up when its time is over.
   */
  lemma LockStep(s: State, e: Event, t: Thread)
    requires WordOk(s) && Enabled(s, e) && t in s.pc
    ensures var s' := Do(s, e);
            && t in s'.pc
            && (InLock(s.pc[t]) ==> InLock(s'.pc[t]) || s'.pc[t] == Holding)
            && (InTimedLock(s.pc[t]) ==>
                  InTimedLock(s'.pc[t]) || s'.pc[t] == Holding || (s'.pc[t] == Idle && e == LookAtClock(t, true)))
            && (s'.pc[t] == Holding && s.pc[t] != Holding ==>
                  e.t == t && s.word == Unlocked(s.shared) && s'.word != Unlocked(s.shared))
  {
    hide Unlocked, Locked, Contended, AtomicDec, IsFlag;
    Words(s.shared);
  }

  /** The state after the first k steps. */
  lemma {:induction false} PrefixPossible(s: State, run: seq<Event>, k: nat)
    requires Possible(s, run) && k <= |run|
    ensures Possible(s, run[..k])
    decreases |run|
  {
    hide Enabled, Do;
    if k > 0 {
      PrefixPossible(Do(s, run[0]), run[1..], k - 1);
      assert run[..k][1..] == run[1..][..k - 1];
    }
  }

  /** A thread in a call of lock without a time limit is still in it after any run, or has owned the mutex. */
  lemma {:induction false} LockReturnsAsOwner(s: State, run: seq<Event>, t: Thread)
    requires Inv(s) && Possible(s, run) && t in s.pc && InLock(s.pc[t])
    ensures || (t in After(s, run).pc && InLock(After(s, run).pc[t]))
            || exists k :: 0 < k <= |run| && Possible(s, run[..k]) && After(s, run[..k]).At(t, Holding)
    decreases |run|
  {
    hide Inv, Enabled, Do, InLock;
    if run != [] {
      var s1 := Do(s, run[0]);
      StepKeeps(s, run[0]);
      LockStep(s, run[0], t) by {
        InvWord(s);
      }
      if InLock(s1.pc[t]) {
        LockReturnsAsOwner(s1, run[1..], t);
        if k :| 0 < k <= |run| - 1 && Possible(s1, run[1..][..k]) && After(s1, run[1..][..k]).At(t, Holding) {
          PrefixPossible(s, run, k + 1);
          assert run[..k + 1][1..] == run[1..][..k];
        }
      } else {
        PrefixPossible(s, run, 1);
        assert run[..1][1..] == [];
        assert After(s, run[..1]) == s1;
      }
    }
  }

  lemma InvWord(s: State)
    requires Inv(s)
    ensures WordOk(s)
  {
  }

  /** s, but for the word and for thread t. */
  function Solo(s: State, t: Thread, w: bv32, p: Pc): State {
    s.(word := w).To(t, p)
  }

  /** A step of t alone. */
  lemma SoloThen(s: State, run: seq<Event>, t: Thread, w: bv32, p: Pc, e: Event)
    requires t in s.pc && Leads(s, run, Solo(s, t, w, p)) && e.t == t && Fits(p, e)
    requires !e.Rouse? && !e.FutexWake? && !e.FutexWakeNobody?
    ensures var (w', p') := Local(s.shared, w, p, e); Leads(s, run + [e], Solo(s, t, w', p'))
  {
    hide Leads, Local;
    var s1 := Solo(s, t, w, p);
    LeadsThen(s, run, s1, e);
    var (w', p') := Local(s.shared, w, p, e);
    assert Do(s1, e) == Solo(s, t, w', p');
  }

  lemma SoloStart(s: State, t: Thread)
    requires t in s.pc
    ensures Leads(s, [], Solo(s, t, s.word, s.pc[t]))
  {
    assert s.pc[t := s.pc[t]] == s.pc;
    LeadsNowhere(s);
  }

  /**
   From every state that can be reached, a lock by a thread that is not in any call takes
   the mutex if it is free; otherwise it marks it as contended and sleeps, unless it has a
   time limit and is late already.
   */
  lemma LockAlone(init: State, prefix: seq<Event>, t: Thread, timed: bool, late: bool)
    returns (run: seq<Event>, s': State)
    requires Initial(init) && Possible(init, prefix) && After(init, prefix).At(t, Idle) && (late ==> timed)
    ensures var s := After(init, prefix);
            && Leads(s, run, s') && (forall e | e in run :: e.t == t)
            && s' == if s.word == Unlocked(s.shared) then Solo(s, t, Locked(s.shared), Holding)
                     else Solo(s, t, Contended(s.shared), if late then Idle else Asleep(timed))
  {
    hide Possible, After, Unlocked, Locked, Contended, AtomicDec, IsFlag, Leads, Inv;
    InitialIsFine(init);
    RunKeeps(init, prefix);
    var s := After(init, prefix);
    InvWord(s);
    Words(s.shared);
    SoloStart(s, t);
    run := [];
    SoloThen(s, run, t, s.word, Idle, Lock(t, timed));
    run := run + [Lock(t, timed)];
    SoloThen(s, run, t, s.word, Trying(timed), CompareAndSwap(t));
    run := run + [CompareAndSwap(t)];
    if s.word == Unlocked(s.shared) {
      s' := Solo(s, t, Locked(s.shared), Holding);
    } else {
      SoloThen(s, run, t, s.word, Swapping(timed), Swap(t));
      run := run + [Swap(t)];
      if timed {
        SoloThen(s, run, t, Contended(s.shared), Checking, LookAtClock(t, late));
        run := run + [LookAtClock(t, late)];
      }
      if !late {
        SoloThen(s, run, t, Contended(s.shared), Waiting(timed), FutexWait(t));
        run := run + [FutexWait(t)];
      }
      s' := Solo(s, t, Contended(s.shared), if late then Idle else Asleep(timed));
    }
  }

  /** Whenever a sleep ends, or does not begin because the word has changed, the mark is swapped in again. */
  lemma WaitEnds(s: State, t: Thread)
    requires t in s.pc
    ensures s.pc[t].Waiting? ==>
              && Enabled(s, FutexWait(t))
              && Do(s, FutexWait(t))
                 == s.To(t, if s.word == Contended(s.shared) then Asleep(s.pc[t].timed) else Swapping(s.pc[t].timed))
    ensures s.Asleep(t) ==> Enabled(s, Rouse(t)) && Do(s, Rouse(t)) == s.To(t, Swapping(s.pc[t].timed))
    ensures s.pc[t].Swapping? ==>
              && Enabled(s, Swap(t))
              && Do(s, Swap(t))
                 == Solo(s, t, Contended(s.shared),
                         if s.word == Unlocked(s.shared) then Holding
                         else if s.pc[t].timed then Checking
                         else Waiting(false))
  {
    hide Unlocked, Locked, Contended, AtomicDec;
  }

  /** A trylock takes the mutex exactly if it is free, and changes nothing otherwise. */
  lemma TryLockAlone(s: State, t: Thread)
    requires s.At(t, Idle)
    ensures Enabled(s, TryLock(t))
    ensures Do(s, TryLock(t)) == if s.word == Unlocked(s.shared) then Solo(s, t, Locked(s.shared), Holding) else s
  {
    hide Unlocked, Locked, Contended;
    assert s.pc[t := Idle] == s.pc;
  }

  /**
   From every state that can be reached, an unlock by the owner frees the mutex; if it was
   contended then a sleeper x, if there is one, is woken, and goes on to swap in the mark.
   */
  lemma UnlockAlone(init: State, prefix: seq<Event>, t: Thread, x: Thread) returns (run: seq<Event>, s': State)
    requires Initial(init) && Possible(init, prefix) && After(init, prefix).At(t, Holding)
    requires var s := After(init, prefix); s.Asleep(x) || forall u :: !s.Asleep(u)
    ensures var s := After(init, prefix);
            && Leads(s, run, s') && (forall e | e in run :: e.t == t)
            && s' == if s.word == Contended(s.shared) && s.Asleep(x)
                     then s.(word := s.shared).To(x, Swapping(s.pc[x].timed)).To(t, Idle)
                     else Solo(s, t, s.shared, Idle)
  {
    hide Possible, After, Unlocked, Locked, Contended, AtomicDec, IsFlag, Leads, Attended;
    InitialIsFine(init);
    RunKeeps(init, prefix);
    var s := After(init, prefix);
    Words(s.shared);
    OwnedWord(s, t) by {
      assert s.Owns(t);
    }
    SoloStart(s, t);
    run := [];
    SoloThen(s, run, t, s.word, Holding, Decrement(t));
    run := run + [Decrement(t)];
    if s.word == Locked(s.shared) {
      s' := Solo(s, t, s.shared, Idle);
    } else {
      SoloThen(s, run, t, Locked(s.shared), Storing, StoreZero(t));
      run := run + [StoreZero(t)];
      var s1 := Solo(s, t, s.shared, Waking);
      var e := if s.Asleep(x) then FutexWake(t, x) else FutexWakeNobody(t);
      assert forall u | u != t :: s1.Asleep(u) <==> s.Asleep(u);
      LeadsThen(s, run, s1, e);
      run, s' := run + [e], Do(s1, e);
      WakeIs(s, t, x);
    }
  }

  lemma WakeIs(s: State, t: Thread, x: Thread)
    requires s.At(t, Holding)
    ensures var s1 := Solo(s, t, s.shared, Waking);
            && (s.Asleep(x) ==>
                  && Enabled(s1, FutexWake(t, x))
                  && Do(s1, FutexWake(t, x)) == s.(word := s.shared).To(x, Swapping(s.pc[x].timed)).To(t, Idle))
            && (Enabled(s1, FutexWakeNobody(t)) ==> Do(s1, FutexWakeNobody(t)) == Solo(s, t, s.shared, Idle))
  {
    var s1 := Solo(s, t, s.shared, Waking);
    if s.Asleep(x) {
      assert s.pc[t := Waking][x := Swapping(s.pc[x].timed)][t := Idle] == s.pc[x := Swapping(s.pc[x].timed)][t := Idle];
    }
  }
}
