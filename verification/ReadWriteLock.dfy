/**
 The read/write lock: counters guarded by a mutex and a condition variable on which all
 waiters sleep.  A section under the mutex is one step, as is the end of a sleep; any
 number of threads take steps in any order.  Clients unlock only what they hold, and a
 thread that holds the lock in one mode does not ask for the other.
 */
module ReadWriteLock {

  import opened MapSums

  /** Kernel id of a thread, never zero. */
  type Tid = nat

  /** The fields of the lock; writer is the id of the thread that holds it for writing, or 0. */
  datatype Lock = Lock(numLocks: int, pendingReaders: int, pendingWriters: int, writer: Tid)

  predicate ReadPrecondition(l: Lock, t: Tid) {
    if l.pendingWriters > 0 then false
    else l.writer == 0 || l.writer == t
  }

  predicate WritePrecondition(l: Lock, t: Tid) {
    l.numLocks == 0 || l.writer == t
  }

  /** How a waiter is: asleep, woken but before it looks at the lock again, or out of time. */
  datatype How = Asleep | Awake | Expired

  datatype Pc = Idle | Waiting(write: bool, timed: bool, how: How) {
    predicate Reading() {
      Waiting? && !write
    }

    predicate Writing() {
      Waiting? && write
    }

    predicate Asleep() {
      Waiting? && how.Asleep?
    }

    predicate At(write: bool, how: How) {
      Waiting? && this.write == write && this.how == how
    }
  }

  /** A thread, how often it holds the lock, and the mode if it does. */
  datatype Thread = Thread(pc: Pc, holds: nat, writing: bool) {
    predicate Writer() {
      holds > 0 && writing
    }
  }

  datatype State = State(l: Lock, th: map<Tid, Thread>) {
    predicate Asleep(t: Tid) {
      t in th && th[t].pc.Asleep()
    }

    function To(t: Tid, x: Thread): State {
      this.(th := th[t := x])
    }
  }

  datatype Event =
    | ReadLock(t: Tid, timed: bool)
    | TryReadLock(t: Tid)
    | WriteLock(t: Tid, timed: bool)
    | TryWriteLock(t: Tid)
    | Unlock(t: Tid)
    | Rouse(t: Tid)          // a sleep ends without a broadcast
    | Expire(t: Tid)         // a timed sleep ends because its time is up
    | RetryRead(t: Tid)
    | RetryWrite(t: Tid)
    | GiveUpRead(t: Tid)
    | GiveUpWrite(t: Tid)

  predicate Fits(x: Thread, e: Event) {
    match e
    case ReadLock(_, _) => x.pc.Idle? && !x.Writer()
    case TryReadLock(_) => x.pc.Idle? && !x.Writer()
    case WriteLock(_, _) => x.pc.Idle? && (x.holds == 0 || x.writing)
    case TryWriteLock(_) => x.pc.Idle? && (x.holds == 0 || x.writing)
    case Unlock(_) => x.pc.Idle? && x.holds > 0
    case Rouse(_) => x.pc.Asleep()
    case Expire(_) => x.pc.Asleep() && x.pc.timed
    case RetryRead(_) => x.pc.At(false, Awake)
    case RetryWrite(_) => x.pc.At(true, Awake)
    case GiveUpRead(_) => x.pc.At(false, Expired)
    case GiveUpWrite(_) => x.pc.At(true, Expired)
  }

  predicate Enabled(s: State, e: Event) {
    e.t in s.th && Fits(s.th[e.t], e)
  }

  /** The lock and the thread after a step, and whether the step wakes all sleepers. */
  datatype Effect = Effect(l: Lock, x: Thread, broadcast: bool)

  function ReadTaken(l: Lock, x: Thread): Effect {
    Effect(l.(numLocks := l.numLocks + 1), x.(pc := Idle, holds := x.holds + 1, writing := false), false)
  }

  function WriteTaken(l: Lock, t: Tid, x: Thread): Effect {
    Effect(l.(numLocks := l.numLocks + 1, writer := t), x.(pc := Idle, holds := x.holds + 1, writing := true), false)
  }

  /** One hold given back; the last one pulses the waiters, if there are any. */
  function Unlocked(l: Lock, t: Tid, x: Thread): Effect {
    if l.numLocks == 0 then Effect(l, x, false)
    else
      var last := l.numLocks - 1 == 0;
      var pulse := last && (l.pendingReaders > 0 || l.pendingWriters > 0);
      if l.writer == 0 then
        Effect(l.(numLocks := l.numLocks - 1), x.(holds := if x.holds > 0 then x.holds - 1 else 0), pulse)
      else if l.writer != t then Effect(l, x, false)
      else
        Effect(l.(numLocks := l.numLocks - 1, writer := if last then 0 else t),
               x.(holds := if x.holds > 0 then x.holds - 1 else 0), pulse)
  }

  function Local(l: Lock, t: Tid, x: Thread, e: Event): Effect
    requires Fits(x, e)
  {
    match e
    case ReadLock(_, timed) =>
      if ReadPrecondition(l, t) then ReadTaken(l, x)
      else Effect(l.(pendingReaders := l.pendingReaders + 1), x.(pc := Waiting(false, timed, Asleep)), false)
    case TryReadLock(_) =>
      if ReadPrecondition(l, t) then ReadTaken(l, x) else Effect(l, x, false)
    case WriteLock(_, timed) =>
      if WritePrecondition(l, t) then WriteTaken(l, t, x)
      else Effect(l.(pendingWriters := l.pendingWriters + 1), x.(pc := Waiting(true, timed, Asleep)), false)
    case TryWriteLock(_) =>
      if WritePrecondition(l, t) then WriteTaken(l, t, x) else Effect(l, x, false)
    case Unlock(_) => Unlocked(l, t, x)
    case Rouse(_) => Effect(l, x.(pc := Woken(x.pc)), false)
    case Expire(_) => Effect(l, x.(pc := x.pc.(how := Expired)), false)
    case RetryRead(_) =>
      if ReadPrecondition(l, t) then ReadTaken(l.(pendingReaders := l.pendingReaders - 1), x)
      else Effect(l, x.(pc := x.pc.(how := Asleep)), false)
    case RetryWrite(_) =>
      if WritePrecondition(l, t) then WriteTaken(l.(pendingWriters := l.pendingWriters - 1), t, x)
      else Effect(l, x.(pc := x.pc.(how := Asleep)), false)
    case GiveUpRead(_) => Effect(l.(pendingReaders := l.pendingReaders - 1), x.(pc := Idle), false)
    case GiveUpWrite(_) => Effect(l.(pendingWriters := l.pendingWriters - 1), x.(pc := Idle), false)
  }

  function Woken(p: Pc): Pc {
    if p.Asleep() then p.(how := Awake) else p
  }

  function AllWoken(th: map<Tid, Thread>): map<Tid, Thread> {
    map t | t in th :: th[t].(pc := Woken(th[t].pc))
  }

  function Do(s: State, e: Event): State
    requires Enabled(s, e)
  {
    var f := Local(s.l, e.t, s.th[e.t], e);
    var s' := s.(l := f.l).To(e.t, f.x);
    if f.broadcast then s'.(th := AllWoken(s'.th)) else s'
  }

  predicate Initial(s: State) {
    s.l == Lock(0, 0, 0, 0) && forall t | t in s.th :: t > 0 && s.th[t] == Thread(Idle, 0, false)
  }

  // ---- counts --------------------------------------------------------------

  ghost function HoldsOf(th: map<Tid, Thread>): map<nat, int> {
    map t | t in th :: th[t].holds
  }

  ghost function ReadersOf(th: map<Tid, Thread>): map<nat, int> {
    map t | t in th :: if th[t].pc.Reading() then 1 else 0
  }

  ghost function WritersOf(th: map<Tid, Thread>): map<nat, int> {
    map t | t in th :: if th[t].pc.Writing() then 1 else 0
  }

  /** The counters of the lock are the totals over the threads. */
  ghost predicate Counts(s: State) {
    && s.l.numLocks == Sum(HoldsOf(s.th))
    && s.l.pendingReaders == Sum(ReadersOf(s.th))
    && s.l.pendingWriters == Sum(WritersOf(s.th))
  }

  function Bit(b: bool): int {
    if b then 1 else 0
  }

  lemma CountsMove(s: State, t: Tid, l': Lock, x': Thread)
    requires Counts(s) && t in s.th
    requires l'.numLocks == s.l.numLocks - s.th[t].holds + x'.holds
    requires l'.pendingReaders == s.l.pendingReaders - Bit(s.th[t].pc.Reading()) + Bit(x'.pc.Reading())
    requires l'.pendingWriters == s.l.pendingWriters - Bit(s.th[t].pc.Writing()) + Bit(x'.pc.Writing())
    ensures Counts(s.(l := l').To(t, x'))
  {
    hide Sum, Pc.Reading, Pc.Writing;
    var th' := s.th[t := x'];
    SumUpdate(HoldsOf(s.th), t, x'.holds);
    assert HoldsOf(th') == HoldsOf(s.th)[t := x'.holds];
    SumUpdate(ReadersOf(s.th), t, Bit(x'.pc.Reading()));
    assert ReadersOf(th') == ReadersOf(s.th)[t := Bit(x'.pc.Reading())];
    SumUpdate(WritersOf(s.th), t, Bit(x'.pc.Writing()));
    assert WritersOf(th') == WritersOf(s.th)[t := Bit(x'.pc.Writing())];
  }

  lemma WakingCounts(th: map<Tid, Thread>)
    ensures HoldsOf(AllWoken(th)) == HoldsOf(th)
    ensures ReadersOf(AllWoken(th)) == ReadersOf(th) && WritersOf(AllWoken(th)) == WritersOf(th)
  {
  }

  lemma NoHolder(s: State)
    requires Counts(s)
    ensures s.l.numLocks >= 0
    ensures s.l.numLocks == 0 <==> forall t | t in s.th :: s.th[t].holds == 0
  {
    SumZero(HoldsOf(s.th));
    assert forall t | t in s.th :: HoldsOf(s.th)[t] == s.th[t].holds;
  }

  lemma NoWaiter(s: State, t: Tid)
    requires Counts(s) && t in s.th
    ensures s.l.pendingReaders >= 0 && s.l.pendingWriters >= 0
    ensures s.th[t].pc.Reading() ==> s.l.pendingReaders > 0
    ensures s.th[t].pc.Writing() ==> s.l.pendingWriters > 0
  {
    SumZero(ReadersOf(s.th));
    SumZero(WritersOf(s.th));
    assert ReadersOf(s.th)[t] == Bit(s.th[t].pc.Reading());
    assert WritersOf(s.th)[t] == Bit(s.th[t].pc.Writing());
  }

  /** If only t holds the lock, its holds are all there are. */
  lemma OnlyHolder(s: State, t: Tid)
    requires Counts(s) && t in s.th && forall u | u in s.th && u != t :: s.th[u].holds == 0
    ensures s.l.numLocks == s.th[t].holds
  {
    var m := HoldsOf(s.th);
    SumTake(m, t);
    SumZero(m - {t});
  }

  // ---- owners --------------------------------------------------------------

  /** A writer owns all holds; otherwise all holds are for reading. */
  ghost predicate Owned(s: State) {
    && (forall u | u in s.th && s.th[u].Writer() :: u == s.l.writer)
    && (s.l.writer != 0 ==>
          && s.l.writer in s.th && s.th[s.l.writer].Writer()
          && forall u | u in s.th && u != s.l.writer :: s.th[u].holds == 0)
  }

  /** A thread that waits to read does not hold the lock for writing, and one that waits to write does not hold it. */
  ghost predicate PlacesOk(s: State) {
    forall t | t in s.th ::
      && t > 0
      && (s.th[t].pc.Reading() ==> !s.th[t].Writer())
      && (s.th[t].pc.Writing() ==> s.th[t].holds == 0)
  }

  /** How a step may change who owns the lock. */
  predicate OwnerMove(l: Lock, t: Tid, x: Thread, l': Lock, x': Thread) {
    || (l'.writer == l.writer && x'.holds == x.holds && x'.writing == x.writing)
    || (l'.writer == l.writer == 0 && !x'.Writer())
    || (l'.writer == t && x'.Writer() && (l.writer == t || l.numLocks == 0))
    || (l.writer == t && x'.holds == 0 && l'.writer == 0)
  }

  lemma OwnerMoves(s: State, t: Tid, l': Lock, x': Thread)
    requires Counts(s) && Owned(s) && t in s.th && t > 0 && OwnerMove(s.l, t, s.th[t], l', x')
    ensures Owned(s.(l := l').To(t, x'))
  {
    hide HoldsOf, ReadersOf, WritersOf, Sum;
    NoHolder(s);
  }

  // ---- sleepers ------------------------------------------------------------

  /** A thread that sleeps could not have the lock now. */
  predicate Blocked(l: Lock, t: Tid, x: Thread) {
    && (x.pc.At(false, Asleep) ==> !ReadPrecondition(l, t))
    && (x.pc.At(true, Asleep) ==> !WritePrecondition(l, t))
  }

  ghost predicate AllBlocked(s: State) {
    forall t | t in s.th :: Blocked(s.l, t, s.th[t])
  }

  /** The step of t makes the lock no easier to get for the others. */
  predicate NoEasier(l: Lock, t: Tid, l': Lock) {
    && ((l'.writer == l.writer && (l'.pendingWriters > 0 || l'.pendingWriters >= l.pendingWriters || l.writer != 0))
        || l'.writer == t)
    && (l'.numLocks > 0 || l'.numLocks >= l.numLocks)
  }

  lemma BlockedMoves(s: State, t: Tid, l': Lock, x': Thread)
    requires AllBlocked(s) && Owned(s) && PlacesOk(s) && t in s.th && t > 0 && s.l.numLocks >= 0
    requires NoEasier(s.l, t, l') && Blocked(l', t, x')
    ensures AllBlocked(s.(l := l').To(t, x'))
  {
    var s' := s.(l := l').To(t, x');
    forall u | u in s.th && u != t
      ensures Blocked(l', u, s.th[u])
    {
      assert Blocked(s.l, u, s.th[u]);
    }
  }

  lemma BroadcastWakes(s: State)
    ensures AllBlocked(s.(th := AllWoken(s.th))) && forall t :: !s.(th := AllWoken(s.th)).Asleep(t)
  {
  }

  // ---- what every step keeps -----------------------------------------------

  /** The invariant of every run, whatever times out. */
  ghost predicate Inv(s: State) {
    Counts(s) && Owned(s) && PlacesOk(s)
  }

  lemma WriterHolds(s: State, t: Tid)
    requires Inv(s) && t in s.th
    ensures s.th[t].Writer() <==> s.l.writer == t
    ensures s.th[t].Writer() ==> s.l.numLocks == s.th[t].holds
    ensures s.th[t].holds > 0 ==> s.l.numLocks > 0
    ensures s.th[t].holds > 0 && !s.th[t].writing ==> s.l.writer == 0
  {
    hide HoldsOf, ReadersOf, WritersOf, Sum;
    NoHolder(s);
    if s.th[t].Writer() {
      OnlyHolder(s, t);
    }
  }

  /** What the lock and one thread know of each other. */
  predicate Agree(l: Lock, t: Tid, x: Thread) {
    && t > 0 && (x.Writer() <==> l.writer == t)
    && (x.Writer() ==> l.numLocks == x.holds)
    && (x.holds > 0 ==> l.numLocks > 0)
    && (x.holds > 0 && !x.writing ==> l.writer == 0)
    && (x.pc.Reading() ==> !x.Writer()) && (x.pc.Writing() ==> x.holds == 0)
  }

  /** The counters move with the thread, and ownership as it should. */
  predicate GoodMove(l: Lock, t: Tid, x: Thread, l': Lock, x': Thread) {
    && l'.numLocks == l.numLocks - x.holds + x'.holds
    && l'.pendingReaders == l.pendingReaders - Bit(x.pc.Reading()) + Bit(x'.pc.Reading())
    && l'.pendingWriters == l.pendingWriters - Bit(x.pc.Writing()) + Bit(x'.pc.Writing())
    && OwnerMove(l, t, x, l', x')
    && (x'.pc.Reading() ==> !x'.Writer()) && (x'.pc.Writing() ==> x'.holds == 0)
  }

  lemma LocalSteps(l: Lock, t: Tid, x: Thread, e: Event)
    requires Agree(l, t, x) && Fits(x, e)
    ensures var f := Local(l, t, x, e); GoodMove(l, t, x, f.l, f.x)
  {
    hide GoodMove, Local;
    if e.Unlock? {
      UnlockMove(l, t, x, e);
    } else if e.Rouse? || e.Expire? {
      RestMove(l, t, x, e);
    } else if e.ReadLock? || e.TryReadLock? || e.RetryRead? || e.GiveUpRead? {
      ReadMove(l, t, x, e);
    } else {
      WriteMove(l, t, x, e);
    }
  }

  lemma UnlockMove(l: Lock, t: Tid, x: Thread, e: Event)
    requires Agree(l, t, x) && Fits(x, e) && e.Unlock?
    ensures var f := Local(l, t, x, e); GoodMove(l, t, x, f.l, f.x)
  {
  }

  lemma RestMove(l: Lock, t: Tid, x: Thread, e: Event)
    requires Agree(l, t, x) && Fits(x, e) && (e.Rouse? || e.Expire?)
    ensures var f := Local(l, t, x, e); GoodMove(l, t, x, f.l, f.x)
  {
  }

  lemma ReadMove(l: Lock, t: Tid, x: Thread, e: Event)
    requires Agree(l, t, x) && Fits(x, e) && (e.ReadLock? || e.TryReadLock? || e.RetryRead? || e.GiveUpRead?)
    ensures var f := Local(l, t, x, e); GoodMove(l, t, x, f.l, f.x)
  {
  }

  lemma WriteMove(l: Lock, t: Tid, x: Thread, e: Event)
    requires Agree(l, t, x) && Fits(x, e) && (e.WriteLock? || e.TryWriteLock? || e.RetryWrite? || e.GiveUpWrite?)
    ensures var f := Local(l, t, x, e); GoodMove(l, t, x, f.l, f.x)
  {
  }

  lemma Agrees(s: State, t: Tid)
    requires Inv(s) && t in s.th
    ensures Agree(s.l, t, s.th[t])
  {
    hide Counts, Pc.Reading, Pc.Writing;
    WriterHolds(s, t);
  }

  lemma StepKeeps(s: State, e: Event)
    requires Inv(s) && Enabled(s, e)
    ensures Inv(Do(s, e))
  {
    hide HoldsOf, ReadersOf, WritersOf, Sum, Local, OwnerMove, Pc.Reading, Pc.Writing, Owned, Agree;
    Agrees(s, e.t);
    LocalSteps(s.l, e.t, s.th[e.t], e);
    var f := Local(s.l, e.t, s.th[e.t], e);
    CountsMove(s, e.t, f.l, f.x);
    OwnerMoves(s, e.t, f.l, f.x);
    var s' := s.(l := f.l).To(e.t, f.x);
    if f.broadcast {
      WakingCounts(s'.th);
      WakingKeeps(s');
    }
  }

  lemma WakingKeeps(s: State)
    requires Owned(s) && PlacesOk(s)
    ensures Owned(s.(th := AllWoken(s.th))) && PlacesOk(s.(th := AllWoken(s.th)))
  {
  }

  // ---- who sleeps in vain --------------------------------------------------

  /** The last waiting writer gives up while readers hold the lock and another reader sleeps. */
  ghost predicate LeavesReaders(s: State, e: Event) {
    && e.GiveUpWrite? && s.l.pendingWriters == 1 && s.l.writer == 0
    && exists u :: u in s.th && s.th[u].pc.At(false, Asleep)
  }

  lemma SleepLocal(l: Lock, t: Tid, x: Thread, e: Event)
    requires Agree(l, t, x) && Fits(x, e) && Blocked(l, t, x) && l.numLocks >= 0
    ensures var f := Local(l, t, x, e);
            && Blocked(f.l, t, f.x)
            && (e.Unlock? ==> f.broadcast || NoEasier(l, t, f.l) || (l.pendingReaders <= 0 && l.pendingWriters <= 0))
            && (!e.Unlock? && !e.GiveUpWrite? ==> !f.broadcast && NoEasier(l, t, f.l))
            && (e.GiveUpWrite? ==> f.l == l.(pendingWriters := l.pendingWriters - 1) && !f.broadcast)
  {
  }

  lemma NobodyAsleep(s: State)
    requires Counts(s) && s.l.pendingReaders <= 0 && s.l.pendingWriters <= 0
    ensures forall u | u in s.th :: !s.th[u].pc.Waiting?
  {
    hide HoldsOf, ReadersOf, WritersOf, Sum;
    forall u | u in s.th
      ensures !s.th[u].pc.Waiting?
    {
      NoWaiter(s, u);
    }
  }

  lemma NobodyBlocked(s: State, t: Tid, l': Lock, x': Thread)
    requires t in s.th && (forall u | u in s.th :: !s.th[u].pc.Waiting?) && Blocked(l', t, x')
    ensures AllBlocked(s.(l := l').To(t, x'))
  {
  }

  lemma GiveUpKeeps(s: State, t: Tid)
    requires Inv(s) && AllBlocked(s) && t in s.th && s.th[t].pc.At(true, Expired)
    ensures AllBlocked(Do(s, GiveUpWrite(t))) <==> !LeavesReaders(s, GiveUpWrite(t))
  {
    hide Counts;
    NoWaiter(s, t);
    var s' := Do(s, GiveUpWrite(t));
    forall u | u in s.th && u != t
      ensures s'.th[u] == s.th[u] && Blocked(s.l, u, s.th[u])
      ensures s.th[u].pc.Reading() ==> s.l.writer != u
    {
    }
    if LeavesReaders(s, GiveUpWrite(t)) {
      var u :| u in s.th && s.th[u].pc.At(false, Asleep);
      assert !Blocked(s'.l, u, s'.th[u]);
    }
  }

  /**
   A step leaves every sleeper unable to have the lock if and only if it is not a writer
   that gives up as the last one in front of sleeping readers.
   */
  lemma SleepersStayBlockedIff(s: State, e: Event)
    requires Inv(s) && AllBlocked(s) && Enabled(s, e)
    ensures AllBlocked(Do(s, e)) <==> !LeavesReaders(s, e)
  {
    hide HoldsOf, ReadersOf, WritersOf, Sum, Local, NoEasier, Agree, Blocked, Owned, PlacesOk;
    if e.GiveUpWrite? {
      GiveUpKeeps(s, e.t);
    } else {
      var f := Local(s.l, e.t, s.th[e.t], e);
      Agrees(s, e.t);
      NoHolder(s);
      assert Blocked(s.l, e.t, s.th[e.t]);
      SleepLocal(s.l, e.t, s.th[e.t], e);
      ThreadPositive(s, e.t);
      if f.broadcast {
        BroadcastWakes(s.(l := f.l).To(e.t, f.x));
      } else if NoEasier(s.l, e.t, f.l) {
        BlockedMoves(s, e.t, f.l, f.x);
      } else {
        NobodyAsleep(s);
        NobodyBlocked(s, e.t, f.l, f.x);
      }
    }
  }

  lemma ThreadPositive(s: State, t: Tid)
    requires PlacesOk(s) && t in s.th
    ensures t > 0
  {
  }

  // ---- every run -----------------------------------------------------------

  predicate Possible(s: State, run: seq<Event>)
    decreases |run|
  {
    run == [] || (Enabled(s, run[0]) && Possible(Do(s, run[0]), run[1..]))
  }

  function After(s: State, run: seq<Event>): State
    requires Possible(s, run)
    decreases |run|
  {
    if run == [] then s else After(Do(s, run[0]), run[1..])
  }

  /** No writer gives up as the last one in front of sleeping readers; so it is when nothing times out. */
  ghost predicate NeverLeavesReaders(s: State, run: seq<Event>)
    requires Possible(s, run)
    decreases |run|
  {
    run == [] || (!LeavesReaders(s, run[0]) && NeverLeavesReaders(Do(s, run[0]), run[1..]))
  }

  lemma {:induction false} UntimedNeverLeaves(s: State, run: seq<Event>)
    requires Possible(s, run) && forall i | 0 <= i < |run| :: !run[i].GiveUpWrite?
    ensures NeverLeavesReaders(s, run)
    decreases |run|
  {
    hide Enabled, Do;
    if run != [] {
      UntimedNeverLeaves(Do(s, run[0]), run[1..]);
    }
  }

  lemma {:induction false} RunKeeps(s: State, run: seq<Event>)
    requires Inv(s) && Possible(s, run)
    ensures Inv(After(s, run))
    ensures AllBlocked(s) && NeverLeavesReaders(s, run) ==> AllBlocked(After(s, run))
    decreases |run|
  {
    hide Inv, Enabled, Do, AllBlocked, LeavesReaders;
    if run != [] {
      StepKeeps(s, run[0]);
      if AllBlocked(s) && NeverLeavesReaders(s, run) {
        SleepersStayBlockedIff(s, run[0]);
      }
      RunKeeps(Do(s, run[0]), run[1..]);
    }
  }

  lemma InitialIsFine(s: State)
    requires Initial(s)
    ensures Inv(s) && AllBlocked(s)
  {
    hide Sum;
    SumZero(HoldsOf(s.th));
    SumZero(ReadersOf(s.th));
    SumZero(WritersOf(s.th));
  }

  /**
   In every state that the threads can reach the lock has either one writer, which then
   owns all holds, or only readers; and its counters are the totals over the threads.
   */
  lemma WriterExcludesAll(s: State, run: seq<Event>, t: Tid, u: Tid)
    requires Initial(s) && Possible(s, run) && t in After(s, run).th && u in After(s, run).th
    ensures var s' := After(s, run);
            && Counts(s')
            && (s'.th[t].Writer() <==> s'.l.writer == t)
            && (s'.th[t].Writer() ==> s'.l.numLocks == s'.th[t].holds)
            && (s'.th[t].Writer() && u != t ==> s'.th[u].holds == 0)
  {
    hide Possible, After, Counts;
    InitialIsFine(s);
    RunKeeps(s, run);
    WriterHolds(After(s, run), t);
  }

  /**
   In every state of a run in which no writer leaves readers behind, a sleeper could not
   have the lock; and then some thread holds it, or some waiter is awake.
   */
  lemma NoSleepInVain(s: State, run: seq<Event>, x: Tid)
    requires Initial(s) && Possible(s, run) && NeverLeavesReaders(s, run) && After(s, run).Asleep(x)
    ensures var s' := After(s, run);
            && Blocked(s'.l, x, s'.th[x])
            && (s'.l.numLocks > 0 || exists u :: u in s'.th && s'.th[u].pc.Waiting? && !s'.th[u].pc.Asleep())
  {
    hide Possible, After;
    InitialIsFine(s);
    RunKeeps(s, run);
    SomeoneActs(After(s, run), x);
  }

  lemma SomeoneActs(s: State, x: Tid)
    requires Inv(s) && AllBlocked(s) && s.Asleep(x)
    ensures s.l.numLocks > 0 || exists u :: u in s.th && s.th[u].pc.Waiting? && !s.th[u].pc.Asleep()
  {
    hide Counts;
    NoHolder(s);
    assert Blocked(s.l, x, s.th[x]);
    if s.l.numLocks == 0 {
      assert s.l.writer == 0;
      var w := SomeWriter(s);
      assert Blocked(s.l, w, s.th[w]);
    }
  }

  lemma SomeWriter(s: State) returns (w: Tid)
    requires Counts(s) && s.l.pendingWriters > 0
    ensures w in s.th && s.th[w].pc.Writing()
  {
    hide HoldsOf, ReadersOf, Sum;
    SumZero(WritersOf(s.th));
    w :| w in WritersOf(s.th) && WritersOf(s.th)[w] != 0;
  }

  // ---- two runs that go wrong ----------------------------------------------

  lemma {:induction false} PossibleThen(s: State, run: seq<Event>, s1: State, e: Event)
    requires Possible(s, run) && After(s, run) == s1 && Enabled(s1, e)
    ensures Possible(s, run + [e]) && After(s, run + [e]) == Do(s1, e)
    decreases |run|
  {
    hide Enabled, Do;
    if run == [] {
      assert [e][1..] == [];
      assert Possible(Do(s, e), []) && After(Do(s, e), []) == Do(s, e);
      assert run + [e] == [e] && Possible(s, [e]);
    } else {
      PossibleThen(Do(s, run[0]), run[1..], s1, e);
      assert (run + [e])[1..] == run[1..] + [e];
    }
  }

  /** A new lock and three threads. */
  function Fresh(): State {
    var x := Thread(Idle, 0, false);
    State(Lock(0, 0, 0, 0), map[1 := x, 2 := x, 3 := x])
  }

  /** A reader holds the lock, a writer waits behind it, and then another thread asks to read. */
  lemma ReaderBehindWriter(timed: bool, third: Tid) returns (run: seq<Event>, s: State)
    requires third == 1 || third == 3
    ensures Possible(Fresh(), run) && After(Fresh(), run) == s
    ensures s.l == Lock(1, 1, 1, 0) && s.th.Keys == {1, 2, 3}
    ensures s.th[third].pc == Waiting(false, false, Asleep) && s.th[2] == Thread(Waiting(true, timed, Asleep), 0, false)
    ensures s.th[1].holds == 1 && !s.th[1].writing && (third == 3 ==> s.th[1].pc == Idle)
    ensures third == 1 ==> s.th[3].pc == Idle
  {
    var s0 := Fresh();
    var s1 := Do(s0, ReadLock(1, false));
    PossibleThen(s0, [], s0, ReadLock(1, false));
    var s2 := Do(s1, WriteLock(2, timed));
    PossibleThen(s0, [] + [ReadLock(1, false)], s1, WriteLock(2, timed));
    s := Do(s2, ReadLock(third, false));
    PossibleThen(s0, [] + [ReadLock(1, false)] + [WriteLock(2, timed)], s2, ReadLock(third, false));
    run := [] + [ReadLock(1, false)] + [WriteLock(2, timed)] + [ReadLock(third, false)];
  }

  /** A writer that times out leaves a reader asleep that could have the lock. */
  lemma ReaderLeftAsleep() returns (run: seq<Event>)
    ensures Possible(Fresh(), run) && Initial(Fresh())
    ensures After(Fresh(), run).Asleep(3) && ReadPrecondition(After(Fresh(), run).l, 3)
  {
    hide Possible, After, Fresh;
    FreshIsInitial();
    var s;
    run, s := ReaderBehindWriter(true, 3);
    var s1 := Do(s, Expire(2));
    PossibleThen(Fresh(), run, s, Expire(2));
    PossibleThen(Fresh(), run + [Expire(2)], s1, GiveUpWrite(2));
    run := run + [Expire(2)] + [GiveUpWrite(2)];
  }

  lemma FreshIsInitial()
    ensures Initial(Fresh())
  {
  }

  /** Reader r, which holds the lock, and writer w both wait, with no timeout. */
  ghost predicate Stuck(s: State, r: Tid, w: Tid) {
    && Inv(s) && r in s.th && w in s.th
    && s.th[r].pc.Waiting? && !s.th[r].pc.write && !s.th[r].pc.timed && !s.th[r].pc.how.Expired? && s.th[r].holds > 0
    && s.th[w].pc.Waiting? && s.th[w].pc.write && !s.th[w].pc.timed && !s.th[w].pc.how.Expired?
  }

  lemma StuckLock(s: State, r: Tid, w: Tid)
    requires Stuck(s, r, w)
    ensures s.l.numLocks > 0 && s.l.pendingWriters > 0 && s.l.writer == 0 && w > 0
  {
    hide Counts, Owned;
    NoHolder(s);
    NoWaiter(s, w);
    WriterHolds(s, r);
  }

  lemma StuckStep(s: State, r: Tid, w: Tid, e: Event)
    requires Stuck(s, r, w) && Enabled(s, e)
    ensures Stuck(Do(s, e), r, w)
    ensures forall t | t in {r, w} && s.Asleep(t) && e != Rouse(t) :: Do(s, e).Asleep(t)
  {
    hide Counts, Owned, PlacesOk;
    StuckLock(s, r, w);
    StepKeeps(s, e);
    var s' := Do(s, e);
    NoHolder(s');
    if e.Unlock? {
      assert e.t != r && r in s'.th && s'.th[r].holds > 0;
      assert s'.l.numLocks > 0;
    }
  }

  /**
   Whatever the other threads do from then on, and whatever wakes the two, neither ever
   gets on; and they sleep until something other than a broadcast wakes them.
   */
  lemma {:induction false} DeadlockLasts(s: State, r: Tid, w: Tid, run: seq<Event>)
    requires Stuck(s, r, w) && Possible(s, run)
    ensures Stuck(After(s, run), r, w)
    ensures forall t | t in {r, w} && s.Asleep(t) && Rouse(t) !in run :: After(s, run).Asleep(t)
    decreases |run|
  {
    hide Stuck, Enabled, Do, State.Asleep;
    if run != [] {
      StuckStep(s, r, w, run[0]);
      DeadlockLasts(Do(s, run[0]), r, w, run[1..]);
    }
  }

  /** A thread that reads and asks to read again behind a waiting writer: then both wait for each other for good. */
  lemma RereadDeadlock() returns (run: seq<Event>)
    ensures Possible(Fresh(), run) && Initial(Fresh())
    ensures var s := After(Fresh(), run);
            && s.Asleep(1) && s.Asleep(2) && (forall t | t in s.th && s.th[t].holds > 0 :: t == 1)
            && forall more | Possible(s, more) :: Stuck(After(s, more), 1, 2)
  {
    hide Possible, After, Fresh;
    FreshIsInitial();
    var s;
    run, s := ReaderBehindWriter(false, 1);
    WriterHoldsNothing(run, s);
    InitialIsFine(Fresh());
    RunKeeps(Fresh(), run);
    forall more | Possible(s, more)
      ensures Stuck(After(s, more), 1, 2)
    {
      DeadlockLasts(s, 1, 2, more);
    }
  }

  lemma WriterHoldsNothing(run: seq<Event>, s: State)
    requires Possible(Fresh(), run) && After(Fresh(), run) == s && s.l.numLocks == 1
    requires s.th.Keys == {1, 2, 3} && s.th[1].holds == 1
    ensures forall t | t in s.th && s.th[t].holds > 0 :: t == 1
  {
    hide Possible, After, Fresh;
    FreshIsInitial();
    InitialIsFine(Fresh());
    RunKeeps(Fresh(), run);
    var m := HoldsOf(s.th);
    SumTake(m, 1);
    SumZero(m - {1});
    forall t | t in s.th && t != 1
      ensures s.th[t].holds == 0
    {
      assert t in m - {1};
    }
  }

  /** Asking again in the mode already held sleeps exactly when it is to read and a writer waits. */
  lemma AskingAgain(s: State, t: Tid, timed: bool)
    requires Inv(s) && t in s.th && s.th[t].pc.Idle? && s.th[t].holds > 0
    ensures !s.th[t].writing ==>
              Enabled(s, ReadLock(t, timed)) && (Do(s, ReadLock(t, timed)).Asleep(t) <==> s.l.pendingWriters > 0)
    ensures s.th[t].writing ==>
              Enabled(s, WriteLock(t, timed)) && !Do(s, WriteLock(t, timed)).Asleep(t)
  {
    hide Counts;
    WriterHolds(s, t);
  }

  // ---- what a call does ----------------------------------------------------

  /** Thread t may read: no thread waits to write, and none but t writes. */
  predicate MayRead(s: State, t: Tid) {
    forall u | u in s.th :: !s.th[u].pc.Writing() && (u != t ==> !s.th[u].Writer())
  }

  /** Thread t may write: no other thread holds the lock, nor does t itself for reading. */
  predicate MayWrite(s: State, t: Tid) {
    forall u | u in s.th :: s.th[u].holds > 0 ==> u == t && s.th[u].writing
  }

  /** What the fields of the lock say is what the threads do. */
  lemma PreconditionsTell(s: State, t: Tid)
    requires Inv(s) && t in s.th
    ensures ReadPrecondition(s.l, t) <==> MayRead(s, t)
    ensures WritePrecondition(s.l, t) <==> MayWrite(s, t)
  {
    hide Counts;
    NoHolder(s);
    if s.l.pendingWriters > 0 {
      var w := SomeWriter(s);
    }
    forall u | u in s.th
      ensures s.th[u].pc.Writing() ==> s.l.pendingWriters > 0
      ensures s.th[u].Writer() <==> s.l.writer == u
    {
      NoWaiter(s, u);
      WriterHolds(s, u);
    }
  }

  /** Thread t as a reader or a writer once more. */
  function Taken(x: Thread, write: bool): Thread {
    Thread(Idle, x.holds + 1, write)
  }

  /**
   A call, from every state that can be reached: it takes the lock exactly if the thread may
   have it; otherwise lock sleeps and trylock changes nothing.  No other thread is changed.
   */
  lemma CallTakesIff(s: State, t: Tid, timed: bool)
    requires Inv(s) && t in s.th && s.th[t].pc == Idle
    ensures var x := s.th[t];
            && (!x.Writer() ==>
                  && Enabled(s, ReadLock(t, timed)) && Enabled(s, TryReadLock(t))
                  && Do(s, ReadLock(t, timed)).th
                     == s.th[t := if MayRead(s, t) then Taken(x, false) else x.(pc := Waiting(false, timed, Asleep))]
                  && Do(s, TryReadLock(t)).th == s.th[t := if MayRead(s, t) then Taken(x, false) else x])
            && (x.holds == 0 || x.writing ==>
                  && Enabled(s, WriteLock(t, timed)) && Enabled(s, TryWriteLock(t))
                  && Do(s, WriteLock(t, timed)).th
                     == s.th[t := if MayWrite(s, t) then Taken(x, true) else x.(pc := Waiting(true, timed, Asleep))]
                  && Do(s, TryWriteLock(t)).th == s.th[t := if MayWrite(s, t) then Taken(x, true) else x])
  {
    hide Counts, Owned, PlacesOk, MayRead, MayWrite, ReadPrecondition, WritePrecondition;
    PreconditionsTell(s, t);
  }

  /** A waiter that is awake looks at the lock again: it takes it exactly if it may have it, or sleeps again. */
  lemma RetryTakesIff(s: State, t: Tid)
    requires Inv(s) && t in s.th && s.th[t].pc.Waiting? && s.th[t].pc.how.Awake?
    ensures var x := s.th[t];
            var write := x.pc.write;
            var e := if write then RetryWrite(t) else RetryRead(t);
            && Enabled(s, e)
            && Do(s, e).th == s.th[t := if (if write then MayWrite(s, t) else MayRead(s, t)) then Taken(x, write)
                                        else x.(pc := x.pc.(how := Asleep))]
  {
    hide Counts, Owned, PlacesOk, MayRead, MayWrite, ReadPrecondition, WritePrecondition;
    PreconditionsTell(s, t);
  }

  /**
   An unlock gives one hold back.  If that was the last of all, every sleeper is woken; else
   no other thread is changed.
   */
  lemma UnlockGivesBack(s: State, t: Tid)
    requires Inv(s) && t in s.th && s.th[t].pc == Idle && s.th[t].holds > 0
    ensures Enabled(s, Unlock(t))
    ensures var th' := s.th[t := s.th[t].(holds := s.th[t].holds - 1)];
            Do(s, Unlock(t)).th
            == if forall u | u in th' :: th'[u].holds == 0 then AllWoken(th') else th'
  {
    hide Counts, Owned, PlacesOk;
    WriterHolds(s, t);
    NoHolder(s);
    var th' := s.th[t := s.th[t].(holds := s.th[t].holds - 1)];
    StepKeeps(s, Unlock(t));
    var s' := Do(s, Unlock(t));
    NoHolder(s');
    SleepersWait(s);
    SameIfNoneSleeps(th');
    assert s'.th == th' || s'.th == AllWoken(th');
    assert s'.l.numLocks == s.l.numLocks - 1;
    assert s'.l.numLocks == 0 <==> forall u | u in th' :: th'[u].holds == 0 by {
      assert forall u | u in th' :: u in s'.th && s'.th[u].holds == th'[u].holds;
    }
    if s.l.pendingReaders == 0 && s.l.pendingWriters == 0 {
      assert forall u | u in th' :: u in s.th && th'[u].pc == s.th[u].pc;
    }
  }

  /** Without sleepers there is nobody to wake. */
  lemma SameIfNoneSleeps(th: map<Tid, Thread>)
    ensures (forall u | u in th :: !th[u].pc.Asleep()) ==> AllWoken(th) == th
  {
  }

  lemma SleepersWait(s: State)
    requires Counts(s)
    ensures (exists u :: u in s.th && s.th[u].pc.Waiting?) ==> s.l.pendingReaders > 0 || s.l.pendingWriters > 0
    ensures s.l.pendingReaders >= 0 && s.l.pendingWriters >= 0
  {
    SumZero(ReadersOf(s.th));
    SumZero(WritersOf(s.th));
    if u :| u in s.th && s.th[u].pc.Waiting? {
      NoWaiter(s, u);
    }
  }

  /** A sleep that ends without a broadcast, and a waiter that gives up. */
  lemma WaitEnds(s: State, t: Tid)
    requires t in s.th && s.th[t].pc.Waiting?
    ensures var x := s.th[t];
            && (x.pc.how.Asleep? ==>
                  Enabled(s, Rouse(t)) && Do(s, Rouse(t)) == s.To(t, x.(pc := x.pc.(how := Awake))))
            && (x.pc.how.Asleep? && x.pc.timed ==>
                  Enabled(s, Expire(t)) && Do(s, Expire(t)) == s.To(t, x.(pc := x.pc.(how := Expired))))
            && (x.pc.how.Expired? ==>
                  var e := if x.pc.write then GiveUpWrite(t) else GiveUpRead(t);
                  Enabled(s, e) && Do(s, e).th == s.th[t := x.(pc := Idle)])
  {
  }
}
