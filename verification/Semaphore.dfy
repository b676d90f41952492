/**
 The counting semaphore: a word that holds a 31-bit signed value and a flag, changed by
 compare-and-swap loops, where -1 stands for "none left and someone may be asleep".
 Reading the word, the compare-and-swap, falling asleep and waking are separate steps,
 taken by any number of threads in any order.
 */
module Semaphore {

  type Thread = nat

  const WORD: nat := 0x1_0000_0000
  const SEM_MAX_VALUE: int := 0x3fff_ffff

  // ---- the word ------------------------------------------------------------

  /** The bits of the value v, above the flag in the lowest bit. */
  function FromValue(v: int): nat {
    2 * v % WORD
  }

  /** The bits of a word without the flag. */
  function ValueBits(word: nat): nat {
    word - word % 2
  }

  /** The signed value of such bits: an arithmetic shift of the 32-bit word. */
  function ToValue(bits: nat): int {
    if bits >= 0x8000_0000 then (bits - WORD) / 2 else bits / 2
  }

  function Decremented(bits: nat): nat {
    ValueBits((bits - 2) % WORD)
  }

  function Incremented(bits: nat): nat {
    ValueBits((bits + 2) % WORD)
  }

  /** What the semaphore's word is for a flag and a value. */
  function Encode(shared: nat, v: int): nat {
    FromValue(v) + shared
  }

  predicate ValueOk(v: int) {
    -1 <= v <= SEM_MAX_VALUE
  }

  lemma RoundTrip(shared: nat, v: int)
    requires shared <= 1 && ValueOk(v)
    ensures Encode(shared, v) < WORD && Encode(shared, v) % 2 == shared
    ensures ValueBits(Encode(shared, v)) == FromValue(v) && ToValue(FromValue(v)) == v
    ensures FromValue(v) < WORD && FromValue(v) % 2 == 0
  {
  }

  lemma EncodeOnce(shared: nat, v: int, u: int)
    requires shared <= 1 && ValueOk(v) && ValueOk(u) && Encode(shared, v) == Encode(shared, u)
    ensures v == u
  {
  }

  lemma DecrementedIs(v: int)
    requires 0 <= v <= SEM_MAX_VALUE
    ensures Decremented(FromValue(v)) == FromValue(v - 1)
  {
  }

  lemma IncrementedIs(v: int)
    requires 0 <= v < SEM_MAX_VALUE
    ensures Incremented(FromValue(v)) == FromValue(v + 1)
  {
  }

  // ---- threads -------------------------------------------------------------

  datatype Pc =
    | Idle
    | DecRead(timed: bool)
    | DecSwap(timed: bool, seen: nat)
    | TryRead(timed: bool)
    | TrySwap(timed: bool, seen: nat)
    | Clock                             // a timed wait, before it looks at the time
    | Waiting(timed: bool)
    | Asleep(timed: bool)
    | IncRead
    | IncSwap(seen: nat)
    | WakingAll

  /** posts and waits count the calls that have changed the value so far. */
  datatype State = State(shared: nat, word: nat, init: int, posts: nat, waits: nat, pc: map<Thread, Pc>) {

    predicate Asleep(t: Thread) {
      t in pc && pc[t].Asleep?
    }

    predicate Wakes(t: Thread) {
      t in pc && pc[t].WakingAll?
    }

    function To(t: Thread, p: Pc): State {
      this.(pc := pc[t := p])
    }
  }

  datatype Event =
    | Wait(t: Thread)
    | TimedWait(t: Thread)
    | TryWait(t: Thread)
    | ReadToDec(t: Thread)
    | SwapToDec(t: Thread)
    | ReadToTry(t: Thread, badTime: bool)
    | SwapToTry(t: Thread)
    | LookAtClock(t: Thread, expired: bool)
    | FutexWait(t: Thread)
    | Rouse(t: Thread)
    | Post(t: Thread)
    | ReadToInc(t: Thread)
    | SwapToInc(t: Thread)
    | FutexWakeAll(t: Thread)

  predicate Fits(p: Pc, e: Event) {
    match e
    case Wait(_) => p.Idle?
    case TimedWait(_) => p.Idle?
    case TryWait(_) => p.Idle?
    case ReadToDec(_) => p.DecRead?
    case SwapToDec(_) => p.DecSwap?
    case ReadToTry(_, _) => p.TryRead?
    case SwapToTry(_) => p.TrySwap?
    case LookAtClock(_, _) => p.Clock?
    case FutexWait(_) => p.Waiting?
    case Rouse(_) => p.Asleep?
    case Post(_) => p.Idle?
    case ReadToInc(_) => p.IncRead?
    case SwapToInc(_) => p.IncSwap?
    case FutexWakeAll(_) => p.WakingAll?
  }

  predicate Enabled(s: State, e: Event) {
    e.t in s.pc && Fits(s.pc[e.t], e)
  }

  /** Where a thread goes on after a sleep that a wake call ended, or that never began. */
  function Resume(timed: bool): Pc {
    if timed then Clock else DecRead(false)
  }

  /** What a step does: the new word, where the thread is, and whether a post or a wait has succeeded. */
  datatype Effect = Effect(word: nat, pc: Pc, posted: bool, waited: bool)

  function Moves(word: nat, p: Pc): Effect {
    Effect(word, p, false, false)
  }

  function Local(shared: nat, word: nat, p: Pc, e: Event): Effect
    requires Fits(p, e)
  {
    match e
    case Wait(_) => Moves(word, DecRead(false))
    case TimedWait(_) => Moves(word, TryRead(true))
    case TryWait(_) => Moves(word, TryRead(false))
    case ReadToDec(_) =>
      var seen := ValueBits(word);
      Moves(word, if ToValue(seen) < 0 then Waiting(p.timed) else DecSwap(p.timed, seen))
    case SwapToDec(_) =>
      if word != p.seen + shared then Moves(word, DecRead(p.timed))
      else if ToValue(p.seen) > 0 then Effect(Decremented(p.seen) + shared, Idle, false, true)
      else Moves(Decremented(p.seen) + shared, Waiting(p.timed))
    case ReadToTry(_, badTime) =>
      var seen := ValueBits(word);
      Moves(word, if ToValue(seen) > 0 then TrySwap(p.timed, seen) else if p.timed && !badTime then Clock else Idle)
    case SwapToTry(_) =>
      if word != p.seen + shared then Moves(word, TryRead(p.timed))
      else Effect(Decremented(p.seen) + shared, Idle, false, true)
    case LookAtClock(_, expired) => Moves(word, if expired then Idle else DecRead(true))
    case FutexWait(_) =>
      Moves(word, if word == FromValue(-1) + shared then Asleep(p.timed) else Resume(p.timed))
    case Rouse(_) => Moves(word, if p.timed then Idle else DecRead(false))
    case Post(_) => Moves(word, IncRead)
    case ReadToInc(_) =>
      var seen := ValueBits(word);
      Moves(word, if ToValue(seen) == SEM_MAX_VALUE then Idle else IncSwap(seen))
    case SwapToInc(_) =>
      if word != p.seen + shared then Moves(word, IncRead)
      else if ToValue(p.seen) < 0 then Effect(FromValue(1) + shared, WakingAll, true, false)
      else Effect(Incremented(p.seen) + shared, Idle, true, false)
    case FutexWakeAll(_) => Moves(word, Idle)
  }

  function Woken(pc: map<Thread, Pc>): map<Thread, Pc> {
    map t | t in pc :: if pc[t].Asleep? then Resume(pc[t].timed) else pc[t]
  }

  function Do(s: State, e: Event): State
    requires Enabled(s, e)
  {
    var f := Local(s.shared, s.word, s.pc[e.t], e);
    var s' := if e.FutexWakeAll? then s.(pc := Woken(s.pc)) else s;
    s'.(word := f.word,
        posts := s.posts + (if f.posted then 1 else 0),
        waits := s.waits + (if f.waited then 1 else 0)).To(e.t, f.pc)
  }

  predicate Initial(s: State) {
    && s.shared <= 1 && 0 <= s.init <= SEM_MAX_VALUE && s.word == Encode(s.shared, s.init)
    && s.posts == 0 && s.waits == 0
    && forall t | t in s.pc :: s.pc[t] == Idle
  }

  // ---- what every step keeps -----------------------------------------------

  function Value(s: State): int {
    ToValue(ValueBits(s.word))
  }

  /** How many more waits can succeed at once. */
  function Count(v: int): int {
    if v < 0 then 0 else v
  }

  /** The word encodes v, and v accounts for all posts and waits. */
  ghost predicate Accounts(s: State, v: int) {
    && s.shared <= 1 && ValueOk(v) && s.word == Encode(s.shared, v)
    && Count(v) == s.init + s.posts - s.waits
  }

  /** The value that a thread read before its compare-and-swap. */
  ghost predicate PlaceOk(p: Pc) {
    match p
    case DecSwap(_, seen) => exists v :: 0 <= v <= SEM_MAX_VALUE && seen == FromValue(v)
    case TrySwap(_, seen) => exists v :: 0 < v <= SEM_MAX_VALUE && seen == FromValue(v)
    case IncSwap(seen) => exists v :: -1 <= v < SEM_MAX_VALUE && seen == FromValue(v)
    case _ => true
  }

  ghost predicate PlacesOk(s: State) {
    forall t | t in s.pc :: PlaceOk(s.pc[t])
  }

  ghost predicate Attended(s: State) {
    forall x | s.Asleep(x) :: s.word == Encode(s.shared, -1) || exists u :: s.Wakes(u)
  }

  ghost predicate Inv(s: State) {
    (exists v :: Accounts(s, v)) && PlacesOk(s) && Attended(s)
  }

  /** What a step does to the value. */
  ghost predicate ValueMove(v: int, p: Pc, v': int, f: Effect) {
    && ValueOk(v') && PlaceOk(f.pc)
    && Count(v') == Count(v) + (if f.posted then 1 else 0) - (if f.waited then 1 else 0)
    && (f.waited ==> v > 0 && v' == v - 1)
    && (f.pc.Asleep? ==> p.Asleep? || v' == -1)
    && (v == -1 ==> v' == -1 || f.pc.WakingAll?)
  }

  lemma ReadSteps(shared: nat, v: int, p: Pc, e: Event)
    requires shared <= 1 && ValueOk(v) && Fits(p, e) && PlaceOk(p) && !e.SwapToDec? && !e.SwapToTry? && !e.SwapToInc?
    ensures var f := Local(shared, Encode(shared, v), p, e);
            f.word == Encode(shared, v) && ValueMove(v, p, v, f)
  {
    hide FromValue, ValueBits, ToValue, Decremented, Incremented, Encode;
    RoundTrip(shared, v);
    assert Encode(shared, -1) == FromValue(-1) + shared by {
      EncodeIs(shared, -1);
    }
    if Encode(shared, v) == Encode(shared, -1) {
      EncodeOnce(shared, v, -1);
    }
  }

  lemma EncodeIs(shared: nat, v: int)
    ensures Encode(shared, v) == FromValue(v) + shared
  {
  }

  /** A compare-and-swap that succeeds has read the value that is there. */
  lemma SwapSees(shared: nat, v: int, u: int)
    requires shared <= 1 && ValueOk(v) && ValueOk(u) && Encode(shared, v) == FromValue(u) + shared
    ensures u == v
  {
  }

  lemma DecSteps(shared: nat, v: int, p: Pc, e: Event) returns (v': int)
    requires shared <= 1 && ValueOk(v) && Fits(p, e) && PlaceOk(p) && (e.SwapToDec? || e.SwapToTry?)
    ensures var f := Local(shared, Encode(shared, v), p, e);
            f.word == Encode(shared, v') && ValueMove(v, p, v', f)
  {
    hide FromValue, ValueBits, ToValue, Decremented, Incremented, Encode;
    v' := v;
    if Encode(shared, v) == p.seen + shared {
      var u :| 0 <= u <= SEM_MAX_VALUE && p.seen == FromValue(u) && (e.SwapToTry? ==> u > 0);
      SwapSees(shared, v, u);
      RoundTrip(shared, u);
      DecrementedIs(u);
      EncodeIs(shared, u - 1);
      v' := u - 1;
    }
  }

  lemma IncSteps(shared: nat, v: int, p: Pc, e: Event) returns (v': int)
    requires shared <= 1 && ValueOk(v) && Fits(p, e) && PlaceOk(p) && e.SwapToInc?
    ensures var f := Local(shared, Encode(shared, v), p, e);
            f.word == Encode(shared, v') && ValueMove(v, p, v', f)
  {
    hide FromValue, ValueBits, ToValue, Decremented, Incremented, Encode;
    v' := v;
    if Encode(shared, v) == p.seen + shared {
      var u :| -1 <= u < SEM_MAX_VALUE && p.seen == FromValue(u);
      SwapSees(shared, v, u);
      RoundTrip(shared, u);
      if u < 0 {
        EncodeIs(shared, 1);
        v' := 1;
      } else {
        IncrementedIs(u);
        EncodeIs(shared, u + 1);
        v' := u + 1;
      }
    }
  }

  lemma LocalSteps(shared: nat, v: int, p: Pc, e: Event) returns (v': int)
    requires shared <= 1 && ValueOk(v) && Fits(p, e) && PlaceOk(p)
    ensures var f := Local(shared, Encode(shared, v), p, e);
            f.word == Encode(shared, v') && ValueMove(v, p, v', f)
  {
    hide Local, Encode, ValueMove, PlaceOk;
    if e.SwapToDec? || e.SwapToTry? {
      v' := DecSteps(shared, v, p, e);
    } else if e.SwapToInc? {
      v' := IncSteps(shared, v, p, e);
    } else {
      ReadSteps(shared, v, p, e);
      v' := v;
    }
  }

  /** Every step keeps the invariant, and a wait succeeds only when the count is positive. */
  lemma StepKeeps(s: State, e: Event)
    requires Inv(s) && Enabled(s, e)
    ensures Inv(Do(s, e)) && Do(s, e).shared == s.shared && Do(s, e).init == s.init
    ensures Do(s, e).waits > s.waits ==> Value(s) > 0 && Value(Do(s, e)) == Value(s) - 1
  {
    hide FromValue, ValueBits, ToValue, Encode, Local, PlaceOk;
    var v :| Accounts(s, v);
    var v' := LocalSteps(s.shared, v, s.pc[e.t], e);
    RoundTrip(s.shared, v);
    RoundTrip(s.shared, v');
    assert Accounts(Do(s, e), v');
    StepPlaces(s, e);
    StepAttended(s, e, v, v');
  }

  lemma StepPlaces(s: State, e: Event)
    requires PlacesOk(s) && Enabled(s, e) && PlaceOk(Local(s.shared, s.word, s.pc[e.t], e).pc)
    ensures PlacesOk(Do(s, e))
  {
  }

  lemma StepAttended(s: State, e: Event, v: int, v': int)
    requires Attended(s) && Enabled(s, e) && s.shared <= 1 && ValueOk(v) && s.word == Encode(s.shared, v)
    requires var f := Local(s.shared, s.word, s.pc[e.t], e);
             f.word == Encode(s.shared, v') && ValueMove(v, s.pc[e.t], v', f)
    ensures Attended(Do(s, e))
  {
    hide Encode, PlaceOk, Local;
    var s' := Do(s, e);
    if e.FutexWakeAll? {
      assert forall x :: !s'.Asleep(x) by {
        NoneAsleep(s, e);
      }
    } else {
      forall x | s'.Asleep(x)
        ensures s'.word == Encode(s.shared, -1) || exists u :: s'.Wakes(u)
      {
        if v' != -1 && !s'.Wakes(e.t) {
          assert s.Asleep(x);
          assert v != -1;
          if s.word == Encode(s.shared, -1) {
            EncodeOnce(s.shared, v, -1);
          }
          var u :| s.Wakes(u);
          assert s'.Wakes(u);
        }
      }
    }
  }

  lemma NoneAsleep(s: State, e: Event)
    requires Enabled(s, e) && e.FutexWakeAll?
    ensures forall x :: !Do(s, e).Asleep(x)
  {
  }

  // ---- every run -----------------------------------------------------------

  predicate Possible(s: State, run: seq<Event>)
    decreases |run|
  {
    run == [] || (Enabled(s, run[0]) && Possible(Do(s, run[0]), run[1..]))
  }

  function After(s: State, run: seq<Event>): State
    requires Possible(s, run)
    decreases |run|
  {
    if run == [] then s else After(Do(s, run[0]), run[1..])
  }

  lemma {:induction false} RunKeeps(s: State, run: seq<Event>)
    requires Inv(s) && Possible(s, run)
    ensures Inv(After(s, run)) && After(s, run).shared == s.shared && After(s, run).init == s.init
    decreases |run|
  {
    hide Inv, Enabled, Do;
    if run != [] {
      StepKeeps(s, run[0]);
      RunKeeps(Do(s, run[0]), run[1..]);
    }
  }

  lemma InitialIsFine(s: State)
    requires Initial(s)
    ensures Inv(s)
  {
    hide Encode;
    assert Accounts(s, s.init);
  }

  /**
   In every state that any number of threads can reach, the value is in range and, taken
   as zero when it is negative, is the initial one plus the posts less the waits that
   have succeeded; so no more waits than that ever do.  The flag is as it was.
   */
  lemma Conservation(s: State, run: seq<Event>)
    requires Initial(s) && Possible(s, run)
    ensures var s' := After(s, run);
            && ValueOk(Value(s')) && Count(Value(s')) == s.init + s'.posts - s'.waits
            && s'.waits <= s.init + s'.posts
            && s'.word % 2 == s.shared
  {
    hide Possible, After, PlacesOk, Attended, Encode, ToValue, ValueBits;
    InitialIsFine(s);
    RunKeeps(s, run);
    var s' := After(s, run);
    var v :| Accounts(s', v);
    RoundTrip(s'.shared, v);
  }

  /** In every such state, if a thread sleeps then the value is -1, or a poster is about to wake all sleepers. */
  lemma NoLostWakeup(s: State, run: seq<Event>, x: Thread)
    requires Initial(s) && Possible(s, run) && After(s, run).Asleep(x)
    ensures Value(After(s, run)) == -1 || exists u :: After(s, run).Wakes(u)
  {
    hide Possible, After, PlacesOk, Encode, ToValue, ValueBits, State.Asleep, State.Wakes;
    InitialIsFine(s);
    RunKeeps(s, run);
    RoundTrip(s.shared, -1);
  }

  // ---- a sleeper is never stranded -----------------------------------------

  /** The run leads from s to s', no sleep ends in it but by a wake call, and no time runs out. */
  ghost predicate Leads(s: State, run: seq<Event>, s': State) {
    && Possible(s, run) && After(s, run) == s'
    && forall i | 0 <= i < |run| :: Calm(run[i])
  }

  predicate Calm(e: Event) {
    !e.Rouse? && !(e.LookAtClock? && e.expired)
  }

  lemma LeadsNowhere(s: State)
    ensures Leads(s, [], s)
  {
  }

  lemma LeadsOne(s: State, e: Event)
    requires Enabled(s, e) && Calm(e)
    ensures Leads(s, [e], Do(s, e))
  {
    hide Enabled, Do, Calm;
    var s', run := Do(s, e), [e];
    assert run[1..] == [];
    assert Possible(s', []) && After(s', []) == s';
  }

  lemma {:induction false} LeadsOn(s: State, run: seq<Event>, s1: State, more: seq<Event>, s2: State)
    requires Leads(s, run, s1) && Leads(s1, more, s2)
    ensures Leads(s, run + more, s2)
    decreases |run|
  {
    hide Enabled, Do, Calm;
    if run == [] {
      assert run + more == more;
    } else {
      assert Leads(Do(s, run[0]), run[1..], s1);
      LeadsOn(Do(s, run[0]), run[1..], s1, more, s2);
      assert (run + more)[1..] == run[1..] + more;
    }
  }

  lemma LeadsThen(s: State, run: seq<Event>, s1: State, e: Event)
    requires Leads(s, run, s1) && Enabled(s1, e) && Calm(e)
    ensures Leads(s, run + [e], Do(s1, e))
  {
    hide Enabled, Do, Leads, Calm;
    LeadsOne(s1, e);
    LeadsOn(s, run, s1, [e], Do(s1, e));
  }

  /** The word of s holds the value v. */
  ghost predicate Shows(s: State, v: int) {
    s.shared <= 1 && ValueOk(v) && s.word == Encode(s.shared, v)
  }

  /** A waiting thread that is awake takes one. */
  lemma TakeOne(s: State, v: int, x: Thread, timed: bool) returns (run: seq<Event>, s': State)
    requires Shows(s, v) && v > 0 && x in s.pc && s.pc[x] == Resume(timed)
    ensures Leads(s, run, s') && Shows(s', v - 1) && x in s'.pc && s'.pc[x] == Idle
    ensures s'.posts == s.posts && s'.waits == s.waits + 1
    ensures |run| > 0 && run[|run| - 1] == SwapToDec(x)
  {
    hide FromValue, ValueBits, ToValue, Decremented, Incremented, Leads;
    RoundTrip(s.shared, v);
    DecrementedIs(v);
    LeadsNowhere(s);
    run, s' := [], s;
    if timed {
      LeadsThen(s, run, s', LookAtClock(x, false));
      run, s' := run + [LookAtClock(x, false)], Do(s', LookAtClock(x, false));
    }
    LeadsThen(s, run, s', ReadToDec(x));
    run, s' := run + [ReadToDec(x)], Do(s', ReadToDec(x));
    assert s'.pc[x] == DecSwap(timed, FromValue(v));
    LeadsThen(s, run, s', SwapToDec(x));
    run, s' := run + [SwapToDec(x)], Do(s', SwapToDec(x));
  }

  /** Whoever is about to wake all sleepers does so. */
  lemma WakeAll(s: State, v: int, u: Thread, x: Thread)
    requires Shows(s, v) && s.Wakes(u) && s.Asleep(x)
    ensures Enabled(s, FutexWakeAll(u))
    ensures var s' := Do(s, FutexWakeAll(u));
            && Shows(s', v) && x in s'.pc && s'.pc[x] == Resume(s.pc[x].timed)
            && s'.posts == s.posts && s'.waits == s.waits
            && forall p | p in s.pc && s.pc[p] == Idle :: p in s'.pc && s'.pc[p] == Idle
  {
    hide Encode;
  }

  /** One step and then a run. */
  lemma StepThenRun(s: State, run: seq<Event>, s1: State, e: Event, more: seq<Event>, s2: State)
    requires Leads(s, run, s1) && Enabled(s1, e) && Calm(e) && Leads(Do(s1, e), more, s2)
    ensures Leads(s, run + [e] + more, s2)
  {
    hide Leads, Enabled, Do, Calm;
    LeadsThen(s, run, s1, e);
    LeadsOn(s, run + [e], Do(s1, e), more, s2);
  }

  /** A sleeper when no poster is about to wake it: p posts, wakes it, and it takes what was posted. */
  lemma PostedTakes(s: State, x: Thread, p: Thread) returns (run: seq<Event>, s': State)
    requires Shows(s, -1) && s.Asleep(x) && p in s.pc && s.pc[p] == Idle
    ensures Leads(s, run, s') && s'.waits == s.waits + 1 && s'.posts == s.posts + 1
    ensures |run| > 0 && run[|run| - 1] == SwapToDec(x)
  {
    hide Leads, Encode;
    var run1, s1 := PostAlone(s, -1, p);
    WakeAll(s1, 1, p, x);
    var e := FutexWakeAll(p);
    var more, s2 := TakeOne(Do(s1, e), 1, x, s.pc[x].timed);
    StepThenRun(s, run1, s1, e, more, s2);
    run, s' := run1 + [e] + more, s2;
  }

  /** A sleeper that u is about to wake: if there is nothing left for it, p posts. */
  lemma WokenTakes(s: State, v: int, x: Thread, u: Thread, p: Thread) returns (run: seq<Event>, s': State)
    requires Shows(s, v) && s.Asleep(x) && s.Wakes(u) && p in s.pc && s.pc[p] == Idle
    ensures Leads(s, run, s') && s'.waits == s.waits + 1 && s'.posts == s.posts + (if v > 0 then 0 else 1)
    ensures |run| > 0 && run[|run| - 1] == SwapToDec(x)
  {
    hide Leads, Encode, Resume;
    WakeAll(s, v, u, x);
    var e := FutexWakeAll(u);
    var s1, timed := Do(s, e), s.pc[x].timed;
    LeadsNowhere(s);
    var more;
    if v > 0 {
      more, s' := TakeOne(s1, v, x, timed);
    } else {
      AwakeIsNotIdle(timed);
      var run1, s2 := PostAlone(s1, v, p);
      var run2;
      run2, s' := TakeOne(s2, 1, x, timed);
      LeadsOn(s1, run1, s2, run2, s');
      more := run1 + run2;
    }
    StepThenRun(s, [], s, e, more, s');
    run := [] + [e] + more;
  }

  lemma AwakeIsNotIdle(timed: bool)
    ensures Resume(timed) != Idle
  {
  }

  /**
   From every state that can be reached, any sleeper can be brought to succeed by steps of
   the threads alone, with no timeout and no signal: with one post, by any thread that is
   not in a call, and without any if a post has left something for it already.
   */
  lemma SleeperCanProceed(init: State, prefix: seq<Event>, x: Thread, p: Thread) returns (run: seq<Event>, s': State)
    requires Initial(init) && Possible(init, prefix) && After(init, prefix).Asleep(x)
    requires p in After(init, prefix).pc && After(init, prefix).pc[p] == Idle
    ensures var s := After(init, prefix);
            && Leads(s, run, s') && |run| > 0 && run[|run| - 1] == SwapToDec(x)
            && s'.waits == s.waits + 1 && s'.posts == s.posts + (if Value(s) > 0 then 0 else 1)
  {
    hide Possible, After, PlacesOk, Encode, Leads, ToValue, ValueBits, Do, Enabled;
    InitialIsFine(init);
    RunKeeps(init, prefix);
    var s := After(init, prefix);
    var v :| Accounts(s, v);
    RoundTrip(s.shared, v);
    if u :| s.Wakes(u) {
      run, s' := WokenTakes(s, v, x, u, p);
    } else {
      EncodeOnce(s.shared, v, -1);
      run, s' := PostedTakes(s, x, p);
    }
  }

  // ---- what a call does ----------------------------------------------------

  /**
   How a call ends, in every state that can be reached: v is the value that the word holds.
   A post fails exactly if it reads the largest value, and a try of a wait exactly if it
   reads none that is positive; otherwise they end when they have been counted.  A wait
   without a time limit ends only when it has been counted.
   */
  lemma CallEnds(s: State, v: int, e: Event)
    requires Accounts(s, v) && PlacesOk(s) && Enabled(s, e) && s.pc[e.t] != Idle
    ensures var s' := Do(s, e);
            && (e.ReadToInc? ==> (s'.pc[e.t] == Idle <==> v == SEM_MAX_VALUE))
            && (e.ReadToTry? && !s.pc[e.t].timed ==> (s'.pc[e.t] == Idle <==> v <= 0))
            && (e.ReadToTry? && s.pc[e.t].timed ==> (s'.pc[e.t] == Idle <==> v <= 0 && e.badTime))
            && (s'.pc[e.t] == Idle ==>
                  match e
                  case ReadToInc(_) => s'.posts == s.posts
                  case SwapToInc(_) => s'.posts == s.posts + 1
                  case FutexWakeAll(_) => true
                  case SwapToDec(_) => s'.waits == s.waits + 1
                  case SwapToTry(_) => s'.waits == s.waits + 1
                  case ReadToTry(_, _) => true
                  case LookAtClock(_, expired) => expired
                  case Rouse(_) => s.pc[e.t].timed
                  case _ => false)
  {
    hide FromValue, ValueBits, ToValue, Decremented, Incremented, Encode;
    RoundTrip(s.shared, v);
    match e
    case SwapToInc(_) =>
    case SwapToDec(_) =>
    case SwapToTry(_) =>
    case _ =>
  }

  /** s, but for the word, the counts and thread t. */
  function Solo(s: State, t: Thread, v: int, p: Pc, posted: nat, waited: nat): State {
    s.(word := Encode(s.shared, v), posts := s.posts + posted, waits := s.waits + waited).To(t, p)
  }

  /** A step of t alone, which leaves the value v'. */
  lemma SoloThen(s: State, run: seq<Event>, t: Thread, v: int, p: Pc, e: Event, v': int)
    requires t in s.pc && Leads(s, run, Solo(s, t, v, p, 0, 0)) && e.t == t && Fits(p, e) && Calm(e) && !e.FutexWakeAll?
    requires Local(s.shared, Encode(s.shared, v), p, e).word == Encode(s.shared, v')
    ensures var f := Local(s.shared, Encode(s.shared, v), p, e);
            Leads(s, run + [e], Solo(s, t, v', f.pc, if f.posted then 1 else 0, if f.waited then 1 else 0))
  {
    hide Leads, Local, Encode;
    var s1 := Solo(s, t, v, p, 0, 0);
    var f := Local(s.shared, Encode(s.shared, v), p, e);
    LeadsThen(s, run, s1, e);
    assert Do(s1, e) == Solo(s, t, v', f.pc, if f.posted then 1 else 0, if f.waited then 1 else 0);
  }

  lemma SoloStart(s: State, v: int, t: Thread)
    requires t in s.pc && s.word == Encode(s.shared, v)
    ensures Leads(s, [], Solo(s, t, v, s.pc[t], 0, 0))
  {
    hide Encode;
    assert s.pc[t := s.pc[t]] == s.pc;
    LeadsNowhere(s);
  }

  /**
   From every value v that can be reached, a post makes it one more, or one if there was
   none and someone may be asleep, who is woken next; from the largest it does nothing.
   */
  lemma PostAlone(s: State, v: int, t: Thread) returns (run: seq<Event>, s': State)
    requires Shows(s, v) && t in s.pc && s.pc[t] == Idle
    ensures Leads(s, run, s') && (forall e | e in run :: e.t == t)
    ensures s' == if v == SEM_MAX_VALUE then Solo(s, t, v, Idle, 0, 0)
                  else if v < 0 then Solo(s, t, 1, WakingAll, 1, 0)
                  else Solo(s, t, v + 1, Idle, 1, 0)
  {
    hide FromValue, ValueBits, ToValue, Decremented, Incremented, Encode, Leads;
    RoundTrip(s.shared, v);
    EncodeIs(s.shared, v);
    EncodeIs(s.shared, 1);
    SoloStart(s, v, t);
    run := [];
    SoloThen(s, run, t, v, Idle, Post(t), v);
    run := run + [Post(t)];
    SoloThen(s, run, t, v, IncRead, ReadToInc(t), v);
    run := run + [ReadToInc(t)];
    if v == SEM_MAX_VALUE {
      s' := Solo(s, t, v, Idle, 0, 0);
    } else {
      var v' := if v < 0 then 1 else v + 1;
      if v >= 0 {
        IncrementedIs(v);
        EncodeIs(s.shared, v + 1);
      }
      SoloThen(s, run, t, v, IncSwap(FromValue(v)), SwapToInc(t), v');
      run := run + [SwapToInc(t)];
      s' := Solo(s, t, v', if v < 0 then WakingAll else Idle, 1, 0);
    }
  }

  /** A try of a wait takes one if there is one, and otherwise changes nothing. */
  lemma TryAlone(s: State, v: int, t: Thread) returns (run: seq<Event>, s': State)
    requires Shows(s, v) && t in s.pc && s.pc[t] == Idle
    ensures Leads(s, run, s') && (forall e | e in run :: e.t == t)
    ensures s' == if v > 0 then Solo(s, t, v - 1, Idle, 0, 1) else Solo(s, t, v, Idle, 0, 0)
  {
    hide FromValue, ValueBits, ToValue, Decremented, Incremented, Encode, Leads;
    SoloStart(s, v, t);
    run := [];
    SoloThen(s, run, t, v, Idle, TryWait(t), v);
    run := run + [TryWait(t)];
    run, s' := TryRest(s, v, t, false, run);
  }

  /** The try that a wait with a time limit begins with goes on to look at the clock instead. */
  lemma TryRest(s: State, v: int, t: Thread, timed: bool, run0: seq<Event>) returns (run: seq<Event>, s': State)
    requires Shows(s, v) && t in s.pc && Leads(s, run0, Solo(s, t, v, TryRead(timed), 0, 0))
    requires forall e | e in run0 :: e.t == t
    ensures Leads(s, run, s') && (forall e | e in run :: e.t == t)
    ensures s' == if v > 0 then Solo(s, t, v - 1, Idle, 0, 1) else Solo(s, t, v, if timed then Clock else Idle, 0, 0)
  {
    hide FromValue, ValueBits, ToValue, Decremented, Incremented, Encode, Leads;
    RoundTrip(s.shared, v);
    EncodeIs(s.shared, v);
    run := run0;
    SoloThen(s, run, t, v, TryRead(timed), ReadToTry(t, false), v);
    run := run + [ReadToTry(t, false)];
    if v > 0 {
      DecrementedIs(v);
      EncodeIs(s.shared, v - 1);
      SoloThen(s, run, t, v, TrySwap(timed, FromValue(v)), SwapToTry(t), v - 1);
      run := run + [SwapToTry(t)];
      s' := Solo(s, t, v - 1, Idle, 0, 1);
    } else {
      s' := Solo(s, t, v, if timed then Clock else Idle, 0, 0);
    }
  }

  /**
   From every value v that can be reached, a wait takes one if there is one; otherwise it
   leaves the mark of a sleeper and sleeps.
   */
  lemma WaitAlone(s: State, v: int, t: Thread, timed: bool) returns (run: seq<Event>, s': State)
    requires Shows(s, v) && t in s.pc && s.pc[t] == Idle
    ensures Leads(s, run, s') && (forall e | e in run :: e.t == t)
    ensures s' == if v > 0 then Solo(s, t, v - 1, Idle, 0, 1) else Solo(s, t, -1, Asleep(timed), 0, 0)
  {
    hide FromValue, ValueBits, ToValue, Decremented, Incremented, Encode, Leads;
    RoundTrip(s.shared, v);
    EncodeIs(s.shared, v);
    EncodeIs(s.shared, -1);
    SoloStart(s, v, t);
    run := [];
    if timed {
      SoloThen(s, run, t, v, Idle, TimedWait(t), v);
      run := run + [TimedWait(t)];
      run, s' := TryRest(s, v, t, true, run);
      if v > 0 {
        return;
      }
      SoloThen(s, run, t, v, Clock, LookAtClock(t, false), v);
      run := run + [LookAtClock(t, false)];
    } else {
      SoloThen(s, run, t, v, Idle, Wait(t), v);
      run := run + [Wait(t)];
    }
    SoloThen(s, run, t, v, DecRead(timed), ReadToDec(t), v);
    run := run + [ReadToDec(t)];
    if v >= 0 {
      DecrementedIs(v);
      EncodeIs(s.shared, v - 1);
      SoloThen(s, run, t, v, DecSwap(timed, FromValue(v)), SwapToDec(t), v - 1);
      run := run + [SwapToDec(t)];
    }
    if v > 0 {
      s' := Solo(s, t, v - 1, Idle, 0, 1);
    } else {
      SoloThen(s, run, t, -1, Waiting(timed), FutexWait(t), -1);
      run := run + [FutexWait(t)];
      s' := Solo(s, t, -1, Asleep(timed), 0, 0);
    }
  }

  /** A sleep does not begin unless the value is -1; when it ends without a wake call, a timed wait is over. */
  lemma WaitEnds(s: State, v: int, t: Thread)
    requires Shows(s, v) && t in s.pc
    ensures s.pc[t].Waiting? ==>
              && Enabled(s, FutexWait(t))
              && Do(s, FutexWait(t)) == s.To(t, if v == -1 then Asleep(s.pc[t].timed) else Resume(s.pc[t].timed))
    ensures s.Asleep(t) ==>
              && Enabled(s, Rouse(t))
              && Do(s, Rouse(t)) == s.To(t, if s.pc[t].timed then Idle else DecRead(false))
  {
    hide FromValue, Encode, ValueBits, ToValue, Incremented, Decremented;
    EncodeIs(s.shared, -1);
    if s.word == Encode(s.shared, -1) {
      EncodeOnce(s.shared, v, -1);
    }
  }

  /** Every state that can be reached shows a value. */
  lemma ReachableShows(s: State, run: seq<Event>) returns (v: int)
    requires Initial(s) && Possible(s, run)
    ensures Shows(After(s, run), v) && Accounts(After(s, run), v) && PlacesOk(After(s, run)) && v == Value(After(s, run))
  {
    hide Possible, After, Attended, Encode, ToValue, ValueBits, PlaceOk;
    InitialIsFine(s);
    RunKeeps(s, run);
    v :| Accounts(After(s, run), v);
    RoundTrip(s.shared, v);
  }

  /** What a caller is told of the value. */
  function GetValue(word: nat): int {
    var val := ToValue(word);
    if val < 0 then 0 else val
  }

  /** It is the initial value plus the posts less the waits that have succeeded. */
  lemma GetValueIs(s: State, run: seq<Event>)
    requires Initial(s) && Possible(s, run)
    ensures GetValue(After(s, run).word) == s.init + After(s, run).posts - After(s, run).waits
  {
    hide Possible, After, Initial;
    Conservation(s, run);
    FlagDropped(After(s, run).word);
  }

  /** The shift drops the flag. */
  lemma FlagDropped(word: nat)
    ensures ToValue(word) == ToValue(ValueBits(word))
  {
  }
}
