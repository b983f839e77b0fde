/** The reader-writer lock of rwlock.c: its counters, the steps its threads take
    under the mutex, and what holds in every run. */
module RwLock {

  datatype Priority = READERS | WRITERS | N_WAY

  datatype Counters = Counters(
    priority: Priority,
    N: int,
    activeReaders: int,
    activeWriters: int,
    waitingReaders: int,
    waitingWriters: int,
    readersSinceLastWrite: int)

  function NewCounters(p: Priority, n: int): Counters {
    Counters(p, n, 0, 0, 0, 0, 0)
  }

  // The conditions of the wait loops

  predicate ReaderMustWait(c: Counters) {
    match c.priority
    case READERS => c.activeWriters > 0
    case WRITERS => c.waitingWriters > 0 || c.activeWriters > 0
    case N_WAY => c.activeWriters > 0 || (c.waitingWriters > 0 && c.readersSinceLastWrite >= c.N)
  }

  predicate WriterMustWait(c: Counters) {
    match c.priority
    case READERS => c.activeWriters > 0 || c.activeReaders > 0 || c.waitingReaders > 0
    case WRITERS => c.activeWriters > 0 || c.activeReaders > 0
    case N_WAY => c.activeWriters > 0 || c.activeReaders > 0 || (c.waitingReaders > 0 && c.readersSinceLastWrite < c.N)
  }

  // What the pieces between lock and unlock of the mutex do to the counters

  function ReaderArrives(c: Counters): Counters {
    c.(waitingReaders := c.waitingReaders + 1)
  }

  function ReaderEnters(c: Counters): Counters {
    c.(waitingReaders := c.waitingReaders - 1,
       activeReaders := c.activeReaders + 1,
       readersSinceLastWrite :=
         if c.priority == N_WAY && c.waitingWriters > 0 then c.readersSinceLastWrite + 1 else c.readersSinceLastWrite)
  }

  function ReaderLeaves(c: Counters): Counters {
    c.(activeReaders := c.activeReaders - 1)
  }

  function WriterArrives(c: Counters): Counters {
    c.(waitingWriters := c.waitingWriters + 1)
  }

  function WriterEnters(c: Counters): Counters {
    c.(waitingWriters := c.waitingWriters - 1, activeWriters := c.activeWriters + 1)
  }

  function WriterLeaves(c: Counters): Counters {
    c.(activeWriters := c.activeWriters - 1,
       readersSinceLastWrite := if c.priority == N_WAY then 0 else c.readersSinceLastWrite)
  }

  predicate SomeoneWaits(c: Counters) {
    c.waitingReaders > 0 || c.waitingWriters > 0
  }

  // The object, one method per section that holds the mutex

  class Lock {
    const priority: Priority
    const N: int
    var activeReaders: int
    var activeWriters: int
    var waitingReaders: int
    var waitingWriters: int
    var readersSinceLastWrite: int

    function State(): Counters
      reads this
    {
      Counters(priority, N, activeReaders, activeWriters, waitingReaders, waitingWriters, readersSinceLastWrite)
    }

    constructor (p: Priority, n: int)
      ensures State() == NewCounters(p, n)
    {
      priority, N := p, n;
      activeReaders, activeWriters, waitingReaders, waitingWriters := 0, 0, 0, 0;
      readersSinceLastWrite := 0;
    }

    /** reader_lock up to its first wait: returns whether the reader got in.  If it
        did not, it sleeps and releases the mutex. */
    method ReaderArrival() returns (entered: bool)
      modifies this
      ensures entered <==> !ReaderMustWait(ReaderArrives(old(State())))
      ensures State() == if entered then ReaderEnters(ReaderArrives(old(State()))) else ReaderArrives(old(State()))
    {
      waitingReaders := waitingReaders + 1;
      entered := ReaderTurn();
    }

    /** One test of reader_lock's loop condition, and the entry if it fails. */
    method ReaderTurn() returns (entered: bool)
      modifies this
      ensures entered <==> !ReaderMustWait(old(State()))
      ensures State() == if entered then ReaderEnters(old(State())) else old(State())
    {
      match priority {
        case READERS =>
          if activeWriters > 0 {
            return false;
          }
        case WRITERS =>
          if waitingWriters > 0 || activeWriters > 0 {
            return false;
          }
        case N_WAY =>
          if activeWriters > 0 || (waitingWriters > 0 && readersSinceLastWrite >= N) {
            return false;
          }
          if waitingWriters > 0 {
            readersSinceLastWrite := readersSinceLastWrite + 1;
          }
      }
      waitingReaders := waitingReaders - 1;
      activeReaders := activeReaders + 1;
      entered := true;
    }

    method ReaderUnlock() returns (broadcast: bool)
      modifies this
      ensures State() == ReaderLeaves(old(State()))
      ensures broadcast <==> SomeoneWaits(State())
    {
      activeReaders := activeReaders - 1;
      broadcast := waitingReaders > 0 || waitingWriters > 0;
    }

    /** writer_lock up to its first wait. */
    method WriterArrival() returns (entered: bool)
      modifies this
      ensures entered <==> !WriterMustWait(WriterArrives(old(State())))
      ensures State() == if entered then WriterEnters(WriterArrives(old(State()))) else WriterArrives(old(State()))
    {
      waitingWriters := waitingWriters + 1;
      entered := WriterTurn();
    }

    /** One test of writer_lock's loop condition, and the entry if it fails. */
    method WriterTurn() returns (entered: bool)
      modifies this
      ensures entered <==> !WriterMustWait(old(State()))
      ensures State() == if entered then WriterEnters(old(State())) else old(State())
    {
      match priority {
        case READERS =>
          if activeWriters > 0 || activeReaders > 0 || waitingReaders > 0 {
            return false;
          }
        case WRITERS =>
          if activeWriters > 0 || activeReaders > 0 {
            return false;
          }
        case N_WAY =>
          if activeWriters > 0 || activeReaders > 0 || (waitingReaders > 0 && readersSinceLastWrite < N) {
            return false;
          }
      }
      waitingWriters := waitingWriters - 1;
      activeWriters := activeWriters + 1;
      entered := true;
    }

    method WriterUnlock() returns (broadcast: bool)
      modifies this
      ensures State() == WriterLeaves(old(State()))
      ensures broadcast <==> SomeoneWaits(State())
    {
      activeWriters := activeWriters - 1;
      if priority == N_WAY {
        readersSinceLastWrite := 0;
      }
      broadcast := waitingReaders > 0 || waitingWriters > 0;
    }
  }

  // All threads together

  type Tid = nat

  /** Where a thread stands.  A waiting thread is asleep in pthread_cond_wait, or
      awake and about to test its condition again. */
  datatype Place = Outside | WaitRead(awake: bool) | Reading | WaitWrite(awake: bool) | Writing

  datatype System = System(c: Counters, place: map<Tid, Place>)

  function At(s: System, t: Tid): Place {
    if t in s.place then s.place[t] else Outside
  }

  function Awakened(p: Place): Place {
    match p
    case WaitRead(_) => WaitRead(true)
    case WaitWrite(_) => WaitWrite(true)
    case _ => p
  }

  /** pthread_cond_broadcast, if anyone waits. */
  function Broadcast(s: System): System {
    if SomeoneWaits(s.c) then s.(place := map t | t in s.place :: Awakened(s.place[t])) else s
  }

  function Put(s: System, t: Tid, c: Counters, p: Place): System {
    System(c, s.place[t := p])
  }

  /** Wake is the return from pthread_cond_wait without a broadcast. */
  datatype Action =
    | ReaderLock(t: Tid)
    | WriterLock(t: Tid)
    | Wake(t: Tid)
    | Retry(t: Tid)
    | ReaderUnlock(t: Tid)
    | WriterUnlock(t: Tid)

  predicate Enabled(s: System, a: Action) {
    match a
    case ReaderLock(t) => At(s, t) == Outside
    case WriterLock(t) => At(s, t) == Outside
    case Wake(t) => At(s, t) == WaitRead(false) || At(s, t) == WaitWrite(false)
    case Retry(t) => At(s, t) == WaitRead(true) || At(s, t) == WaitWrite(true)
    case ReaderUnlock(t) => At(s, t) == Reading
    case WriterUnlock(t) => At(s, t) == Writing
  }

  /** A reader that has arrived tests its condition. */
  function ReaderTries(s: System, t: Tid, c: Counters): System {
    if ReaderMustWait(c) then Put(s, t, c, WaitRead(false)) else Put(s, t, ReaderEnters(c), Reading)
  }

  function WriterTries(s: System, t: Tid, c: Counters): System {
    if WriterMustWait(c) then Put(s, t, c, WaitWrite(false)) else Put(s, t, WriterEnters(c), Writing)
  }

  function Step(s: System, a: Action): System {
    match a
    case ReaderLock(t) => ReaderTries(s, t, ReaderArrives(s.c))
    case WriterLock(t) => WriterTries(s, t, WriterArrives(s.c))
    case Wake(t) => Put(s, t, s.c, Awakened(At(s, t)))
    case Retry(t) => if At(s, t).WaitRead? then ReaderTries(s, t, s.c) else WriterTries(s, t, s.c)
    case ReaderUnlock(t) => Broadcast(Put(s, t, ReaderLeaves(s.c), Outside))
    case WriterUnlock(t) => Broadcast(Put(s, t, WriterLeaves(s.c), Outside))
  }

  function Init(p: Priority, n: int): System {
    System(NewCounters(p, n), map[])
  }

  /** All actions of a run can be taken, one after the other. */
  predicate Runs(s: System, run: seq<Action>)
    decreases |run|
  {
    run == [] || (Enabled(s, run[0]) && Runs(Step(s, run[0]), run[1..]))
  }

  function After(s: System, run: seq<Action>): System
    decreases |run|
  {
    if run == [] then s else After(Step(s, run[0]), run[1..])
  }

  // The invariant

  datatype Role = R_Outside | R_WaitRead | R_Reading | R_WaitWrite | R_Writing

  function RoleOf(p: Place): Role {
    match p
    case Outside => R_Outside
    case WaitRead(_) => R_WaitRead
    case Reading => R_Reading
    case WaitWrite(_) => R_WaitWrite
    case Writing => R_Writing
  }

  ghost function Those(place: map<Tid, Place>, r: Role): set<Tid> {
    set t | t in place && RoleOf(place[t]) == r
  }

  /** The counters count the threads. */
  ghost predicate Counted(s: System) {
    && s.c.activeReaders == |Those(s.place, R_Reading)|
    && s.c.activeWriters == |Those(s.place, R_Writing)|
    && s.c.waitingReaders == |Those(s.place, R_WaitRead)|
    && s.c.waitingWriters == |Those(s.place, R_WaitWrite)|
  }

  /** At most one writer, and no reader beside it. */
  predicate Exclusive(c: Counters) {
    c.activeWriters <= 1 && (c.activeWriters == 1 ==> c.activeReaders == 0)
  }

  /** No wakeup is lost: whoever sleeps unsignalled has to wait. */
  ghost predicate SleepersMustWait(s: System) {
    forall t :: t in s.place ==>
      && (s.place[t] == WaitRead(false) ==> ReaderMustWait(s.c))
      && (s.place[t] == WaitWrite(false) ==> WriterMustWait(s.c))
  }

  function Quota(c: Counters): nat {
    if c.N > 0 then c.N else 0
  }

  predicate WithinQuota(c: Counters) {
    0 <= c.readersSinceLastWrite <= Quota(c)
  }

  ghost predicate Inv(s: System) {
    Counted(s) && Exclusive(s.c) && SleepersMustWait(s) && WithinQuota(s.c)
  }

  lemma ThoseAfterPut(place: map<Tid, Place>, t: Tid, p: Place, r: Role)
    ensures |Those(place[t := p], r)| ==
            |Those(place, r)| - (if t in place && RoleOf(place[t]) == r then 1 else 0)
            + (if RoleOf(p) == r then 1 else 0)
  {
    var rest := Those(place, r) - {t};
    assert Those(place[t := p], r) == if RoleOf(p) == r then rest + {t} else rest;
    assert t in place && RoleOf(place[t]) == r ==> Those(place, r) == rest + {t};
    assert !(t in place && RoleOf(place[t]) == r) ==> Those(place, r) == rest;
  }

  lemma CountedAfterPut(s: System, t: Tid, p: Place)
    requires Counted(s)
    ensures SizeAfterPut(s, t, p, R_Reading) && SizeAfterPut(s, t, p, R_Writing)
    ensures SizeAfterPut(s, t, p, R_WaitRead) && SizeAfterPut(s, t, p, R_WaitWrite)
  {
    ThoseAfterPut(s.place, t, p, R_Reading);
    ThoseAfterPut(s.place, t, p, R_Writing);
    ThoseAfterPut(s.place, t, p, R_WaitRead);
    ThoseAfterPut(s.place, t, p, R_WaitWrite);
  }

  ghost predicate SizeAfterPut(s: System, t: Tid, p: Place, r: Role) {
    |Those(s.place[t := p], r)| ==
    |Those(s.place, r)| - (if t in s.place && RoleOf(s.place[t]) == r then 1 else 0) + (if RoleOf(p) == r then 1 else 0)
  }

  lemma Present(place: map<Tid, Place>, t: Tid)
    requires t in place
    ensures |Those(place, RoleOf(place[t]))| > 0
  {
    assert t in Those(place, RoleOf(place[t]));
  }

  /** A broadcast leaves nobody asleep: either it wakes everyone, or nobody waits. */
  lemma BroadcastSettles(s: System)
    requires Counted(s)
    ensures Counted(Broadcast(s)) && SleepersMustWait(Broadcast(s))
  {
    forall r: Role ensures Those(Broadcast(s).place, r) == Those(s.place, r) {}
    assert forall r: Role :: |Those(Broadcast(s).place, r)| == |Those(s.place, r)|;
    forall t | t in s.place && (s.place[t].WaitRead? || s.place[t].WaitWrite?) ensures SomeoneWaits(s.c) {
      Present(s.place, t);
    }
  }

  /** Every step keeps the invariant. */
  lemma StepKeepsInv(s: System, a: Action)
    requires Inv(s) && Enabled(s, a)
    ensures Inv(Step(s, a))
  {
    match a
    case ReaderLock(t) => TryKeepsInv(s, a);
    case WriterLock(t) => TryKeepsInv(s, a);
    case Retry(t) => TryKeepsInv(s, a);
    case Wake(t) => CountedAfterPut(s, t, Awakened(At(s, t)));
    case ReaderUnlock(t) =>
      CountedAfterPut(s, t, Outside);
      BroadcastSettles(Put(s, t, ReaderLeaves(s.c), Outside));
    case WriterUnlock(t) =>
      CountedAfterPut(s, t, Outside);
      BroadcastSettles(Put(s, t, WriterLeaves(s.c), Outside));
  }

  lemma TryKeepsInv(s: System, a: Action)
    requires Inv(s) && Enabled(s, a) && (a.ReaderLock? || a.WriterLock? || a.Retry?)
    ensures Inv(Step(s, a))
  {
    CountedAfterPut(s, a.t, At(Step(s, a), a.t));
  }

  /** A step moves its own thread; the others keep their roles. */
  lemma StepKeepsOthers(s: System, a: Action, u: Tid)
    requires u != a.t
    ensures RoleOf(At(Step(s, a), u)) == RoleOf(At(s, u))
  {
  }

  lemma InitInv(p: Priority, n: int)
    ensures Inv(Init(p, n))
  {
    assert forall r: Role :: Those(map[], r) == {};
  }

  lemma {:induction false} RunKeepsInv(s: System, run: seq<Action>)
    requires Inv(s) && Runs(s, run)
    ensures Inv(After(s, run))
    decreases |run|
  {
    if run != [] {
      StepKeepsInv(s, run[0]);
      RunKeepsInv(Step(s, run[0]), run[1..]);
    }
  }

  // What the lock is for

  ghost predicate Reachable(s: System) {
    exists p, n, run :: ReachedBy(s, p, n, run)
  }

  ghost predicate ReachedBy(s: System, p: Priority, n: int, run: seq<Action>) {
    Runs(Init(p, n), run) && s == After(Init(p, n), run)
  }

  lemma ReachableInv(s: System)
    requires Reachable(s)
    ensures Inv(s)
  {
    var p, n, run :| ReachedBy(s, p, n, run);
    InitInv(p, n);
    RunKeepsInv(Init(p, n), run);
  }

  predicate Holds(p: Place) {
    p == Reading || p == Writing
  }

  lemma TwoMembers(place: map<Tid, Place>, t: Tid, u: Tid)
    requires t in place && u in place && t != u && RoleOf(place[t]) == RoleOf(place[u])
    ensures |Those(place, RoleOf(place[t]))| >= 2
  {
    var S := Those(place, RoleOf(place[t]));
    assert {t, u} <= S && |S| == |S - {t, u}| + |{t, u}|;
  }

  /** Exclusion: beside a writer nobody holds the lock. */
  lemma WriterAlone(s: System, t: Tid, u: Tid)
    requires Inv(s) && t != u && At(s, t) == Writing
    ensures !Holds(At(s, u))
  {
    Present(s.place, t);
    if u in s.place && Holds(s.place[u]) {
      Present(s.place, u);
      if s.place[u] == Writing {
        TwoMembers(s.place, t, u);
      }
    }
  }

  /** An awake waiter whose next test lets it in. */
  predicate MayEnter(s: System, t: Tid) {
    || (At(s, t) == WaitRead(true) && !ReaderMustWait(s.c))
    || (At(s, t) == WaitWrite(true) && !WriterMustWait(s.c))
  }

  predicate Waits(p: Place) {
    p.WaitRead? || p.WaitWrite?
  }

  /** No deadlock: when nobody holds the lock and someone waits, an awake waiter
      can enter, and its next step does. */
  lemma SomeoneMayEnter(s: System, w: Tid) returns (t: Tid)
    requires Inv(s) && Waits(At(s, w)) && forall u :: !Holds(At(s, u))
    ensures MayEnter(s, t) && Enabled(s, Retry(t)) && Holds(At(Step(s, Retry(t)), t))
  {
    NobodyHolds(s);
    Present(s.place, w);
    if !ReaderMustWait(s.c) && s.c.waitingReaders > 0 {
      t := AnyOf(s.place, R_WaitRead);
    } else {
      t := AnyOf(s.place, R_WaitWrite);
    }
  }

  lemma NobodyHolds(s: System)
    requires Counted(s) && forall u :: !Holds(At(s, u))
    ensures s.c.activeReaders == 0 && s.c.activeWriters == 0
  {
    assert forall u :: u in s.place ==> !Holds(At(s, u));
    assert Those(s.place, R_Reading) == {} && Those(s.place, R_Writing) == {};
  }

  lemma AnyOf(place: map<Tid, Place>, r: Role) returns (t: Tid)
    requires |Those(place, r)| > 0
    ensures t in place && RoleOf(place[t]) == r
  {
    assert Those(place, r) != {};
    t :| t in Those(place, r);
  }

  // Fairness over whole runs

  /** The step lets a reader in. */
  predicate ReaderGetsIn(s: System, a: Action) {
    (a.ReaderLock? || a.Retry?) && At(s, a.t) != Reading && At(Step(s, a), a.t) == Reading
  }

  predicate WriterGetsIn(s: System, a: Action) {
    (a.WriterLock? || a.Retry?) && At(s, a.t) != Writing && At(Step(s, a), a.t) == Writing
  }

  /** A reader gets in while a writer waits. */
  predicate ReaderPasses(s: System, a: Action) {
    ReaderGetsIn(s, a) && s.c.waitingWriters > 0
  }

  /** A writer gets in while a reader waits. */
  predicate WriterPasses(s: System, a: Action) {
    WriterGetsIn(s, a) && s.c.waitingReaders > 0
  }

  /** How many readers have passed a waiting writer since the last writer_unlock of
      the run, or since its start. */
  function PassesSinceRelease(s: System, run: seq<Action>, before: nat): nat
    decreases |run|
  {
    if run == [] then before
    else
      PassesSinceRelease(Step(s, run[0]), run[1..],
                         if run[0].WriterUnlock? then 0 else if ReaderPasses(s, run[0]) then before + 1 else before)
  }

  /** The quota counter of an N_WAY lock is this number, in every run. */
  lemma {:induction false} QuotaCounts(s: System, run: seq<Action>)
    requires Inv(s) && Runs(s, run) && s.c.priority == N_WAY
    ensures After(s, run).c.priority == N_WAY && After(s, run).c.N == s.c.N
    ensures PassesSinceRelease(s, run, s.c.readersSinceLastWrite) == After(s, run).c.readersSinceLastWrite
    decreases |run|
  {
    if run != [] {
      var t := Step(s, run[0]);
      StepKeepsInv(s, run[0]);
      assert t.c.readersSinceLastWrite ==
             if run[0].WriterUnlock? then 0
             else if ReaderPasses(s, run[0]) then s.c.readersSinceLastWrite + 1
             else s.c.readersSinceLastWrite;
      QuotaCounts(t, run[1..]);
    }
  }

  /** N_WAY, for writers: in every run, since the last writer_unlock at most N
      readers have passed a waiting writer. */
  lemma ReadersPassAtMostN(n: int, run: seq<Action>)
    requires Runs(Init(N_WAY, n), run)
    ensures PassesSinceRelease(Init(N_WAY, n), run, 0) <= if n > 0 then n else 0
  {
    InitInv(N_WAY, n);
    QuotaCounts(Init(N_WAY, n), run);
    RunKeepsInv(Init(N_WAY, n), run);
  }

  /** N_WAY, for readers: a writer that gets in past a waiting reader does so only
      when exactly N readers have passed since the last writer_unlock. */
  lemma WriterPassesAfterN(n: int, run: seq<Action>, a: Action)
    requires Runs(Init(N_WAY, n), run) && Enabled(After(Init(N_WAY, n), run), a)
    requires WriterPasses(After(Init(N_WAY, n), run), a)
    ensures PassesSinceRelease(Init(N_WAY, n), run, 0) == if n > 0 then n else 0
  {
    InitInv(N_WAY, n);
    QuotaCounts(Init(N_WAY, n), run);
    RunKeepsInv(Init(N_WAY, n), run);
  }
}
