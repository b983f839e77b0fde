/** What the URI locks of httpserver.c guarantee in every run of at most as many
    workers as slots. */
module UriSafety {
  import R = RwLock
  import opened UriTable
  import opened UriLocks

  /** All actions of a run can be taken, one after the other. */
  ghost predicate Runs(w: World, run: seq<Action>)
    decreases |run|
  {
    run == [] || (Enabled(w, run[0]) && SlotFound(w, run[0]) && Runs(Next(w, run[0]), run[1..]))
  }

  ghost function After(w: World, run: seq<Action>): World
    requires Runs(w, run)
    decreases |run|
  {
    if run == [] then w else After(Next(w, run[0]), run[1..])
  }

  ghost predicate ReachedBy(w: World, n: nat, workers: set<Tid>, run: seq<Action>) {
    |workers| <= n && Runs(Start(n, workers), run) && w == After(Start(n, workers), run)
  }

  ghost predicate Reachable(w: World) {
    exists n, workers, run :: ReachedBy(w, n, workers, run)
  }

  lemma StartInv(n: nat, workers: set<Tid>)
    requires |workers| <= n
    ensures Inv(Start(n, workers))
  {
    var w := Start(n, workers);
    R.InitInv(R.READERS, 0);
    R.InitInv(R.N_WAY, 2);
    assert w.stage.Keys == workers;
    assert |w.stage| == |w.stage.Keys|;
    forall i: nat ensures Users(w.stage, i) == {} {}
  }

  lemma {:induction false} RunKeepsInv(w: World, run: seq<Action>)
    requires Inv(w) && Runs(w, run)
    ensures Inv(After(w, run))
    decreases |run|
  {
    if run != [] {
      NextKeepsInv(w, run[0]);
      RunKeepsInv(Next(w, run[0]), run[1..]);
    }
  }

  /** The invariant holds in every reachable world. */
  lemma ReachableInv(w: World)
    requires Reachable(w)
    ensures Inv(w)
  {
    var n, workers, run :| ReachedBy(w, n, workers, run);
    StartInv(n, workers);
    RunKeepsInv(Start(n, workers), run);
  }

  // Exclusion

  /** t is between the return of job_reader_lock_uri or job_writer_lock_uri and the
      release of the lock in the matching unlock. */
  predicate HoldsUri(w: World, t: Tid, uri: Uri, mode: Mode) {
    var st := At(w, t);
    && (st.Locking? || st.Returning? || st.Returned?)
    && st.uri == uri && st.mode == mode && st.slot < |w.locks|
    && SlotRole(w, st.slot, t) == HoldRole(mode)
  }

  lemma SameSlot(w: World, t: Tid, u: Tid, uri: Uri, m: Mode, m': Mode)
    requires Inv(w) && HoldsUri(w, t, uri, m) && HoldsUri(w, u, uri, m')
    ensures At(w, t).slot == At(w, u).slot
  {
    MoverFits(w, t);
    MoverFits(w, u);
    if At(w, t).Returned? && t != u {
      assert JobRole(w, t) == R.R_Writing;
      OnlyOneAtTable(w, t, u);
    }
  }

  /** While a thread holds a URI for writing no other thread holds it at all,
      although slots are freed and taken by other URIs all the time. */
  lemma UriExclusion(w: World, t: Tid, u: Tid, uri: Uri, mode: Mode)
    requires Reachable(w) && HoldsUri(w, t, uri, ForWrite) && HoldsUri(w, u, uri, mode)
    ensures t == u
  {
    ReachableInv(w);
    SameSlot(w, t, u, uri, ForWrite, mode);
    if t != u {
      R.WriterAlone(w.locks[At(w, t).slot], t, u);
    }
  }

  /** The unlock gives back the lock that was taken: job_find_uri answers the slot
      of the session, and the thread holds the lock of that slot. */
  lemma ReleasesWhatItTook(w: World, t: Tid)
    requires Reachable(w) && At(w, t).Returned?
    ensures At(w, t).found == At(w, t).slot < |w.locks|
    ensures SlotRole(w, At(w, t).slot, t) == HoldRole(At(w, t).mode)
    ensures Enabled(w, LeaveSlot(t))
  {
    ReachableInv(w);
    MoverFits(w, t);
  }

  // The table

  /** job_get_lock finds a slot whenever it is called. */
  lemma NeverOutOfSlots(w: World, t: Tid)
    requires Reachable(w) && At(w, t).Getting?
    ensures |w.table.list| == |w.table.count| && 0 <= SlotFor(w.table, At(w, t).uri) < |w.table.list|
  {
    ReachableInv(w);
    SlotAlwaysFound(w, t);
  }

  /** Each slot counts its sessions, stands for no URI exactly when it has none, and
      no URI has two slots. */
  lemma TableCounts(w: World, i: nat, j: nat)
    requires Reachable(w) && i < |w.locks| && j < |w.locks|
    ensures |w.table.list| == |w.table.count| == |w.locks|
    ensures w.table.count[i] == |Users(w.stage, i)|
    ensures w.table.list[i] == None <==> w.table.count[i] == 0
    ensures i != j && w.table.list[i] != None ==> w.table.list[i] != w.table.list[j]
  {
    ReachableInv(w);
    if i > j && w.table.list[j] != None {
      assert w.table.list[j] != w.table.list[i];
    }
  }

  /** A slot that is free while nobody holds the job lock for writing has a lock
      that nobody holds or waits for. */
  lemma FreeSlotsAreQuiet(w: World, i: nat)
    requires Reachable(w) && i < |w.locks| && i < |w.table.count| && w.table.count[i] == 0
    requires forall t :: JobRole(w, t) != R.R_Writing
    ensures var c := w.locks[i].c;
            c.activeReaders == c.activeWriters == c.waitingReaders == c.waitingWriters == 0
  {
    ReachableInv(w);
    forall t ensures R.RoleOf(R.At(w.locks[i], t)) == R.R_Outside {
      assert t in w.stage && UsesSlot(w.stage[t], i) ==> t in Users(w.stage, i);
      assert SlotRoleFits(At(w, t), i, SlotRole(w, i, t)) && JobRoleFits(At(w, t), JobRole(w, t));
    }
    QuietLock(w.locks[i]);
  }

  lemma QuietLock(s: R.System)
    requires R.Inv(s) && forall t :: R.RoleOf(R.At(s, t)) == R.R_Outside
    ensures s.c.activeReaders == s.c.activeWriters == s.c.waitingReaders == s.c.waitingWriters == 0
  {
    forall r: R.Role | r != R.R_Outside ensures R.Those(s.place, r) == {} {
      forall t | t in s.place ensures R.RoleOf(s.place[t]) != r {
        assert R.At(s, t) == s.place[t];
      }
    }
  }

  // Never stuck

  /** Nobody waits for a slot's lock while holding or awaiting the job lock. */
  lemma NoNestedWait(w: World, t: Tid, i: nat)
    requires Reachable(w) && i < |w.locks|
    requires SlotRole(w, i, t) == R.R_WaitRead || SlotRole(w, i, t) == R.R_WaitWrite
    ensures JobRole(w, t) == R.R_Outside
  {
    ReachableInv(w);
    assert SlotRoleFits(At(w, t), i, SlotRole(w, i, t)) && JobRoleFits(At(w, t), JobRole(w, t));
  }

  /** A step that brings its thread's session forward: neither a new session, nor a
      spurious wakeup, nor a wakeup that goes back to sleep. */
  predicate Productive(w: World, a: Action) {
    && Enabled(w, a) && !a.Begin? && !a.AuxBegin?
    && (a.JobTurn? ==> !a.wake && R.MayEnter(w.job, a.t))
    && (a.SlotTurn? ==> !a.wake && R.MayEnter(w.locks[At(w, a.t).slot], a.t))
  }

  predicate WaitsForJob(w: World, t: Tid) {
    JobRole(w, t) == R.R_WaitRead || JobRole(w, t) == R.R_WaitWrite
  }

  predicate WaitsForSlot(w: World, t: Tid) {
    && At(w, t).Locking? && At(w, t).slot < |w.locks|
    && SlotRole(w, At(w, t).slot, t) == WaitRole(At(w, t).mode)
  }

  lemma CanMoveAtSlot(w: World, t: Tid) returns (a: Action)
    requires Inv(w) && !WaitsForJob(w, t) && !WaitsForSlot(w, t) && (At(w, t).Locking? || At(w, t).Returned?)
    ensures Productive(w, a)
  {
    var st := At(w, t);
    MoverFits(w, t);
    assert SlotRoleFits(st, st.slot, SlotRole(w, st.slot, t));
    hide Inv;
    if st.Returned? {
      a := LeaveSlot(t);
    } else if SlotRole(w, st.slot, t) == R.R_Outside {
      a := Enter(t);
    } else {
      a := Finish(t);
    }
  }

  lemma CanMoveAtJob(w: World, t: Tid) returns (a: Action)
    requires Inv(w) && At(w, t) != Idle && !WaitsForJob(w, t) && !At(w, t).Locking? && !At(w, t).Returned?
    ensures Productive(w, a)
  {
    MoverFits(w, t);
    assert |w.table.list| == |w.table.count|;
    hide Inv, SlotRoleFits, SessionFits;
    match At(w, t)
    case Getting(_, _) => a := GetSlot(t);
    case Returning(_, _, _) => a := ReturnSlot(t);
    case _ => a := LeaveJob(t);
  }

  /** A thread that waits for nothing can move. */
  lemma CanMove(w: World, t: Tid) returns (a: Action)
    requires Inv(w) && At(w, t) != Idle && !WaitsForJob(w, t) && !WaitsForSlot(w, t)
    ensures Productive(w, a)
  {
    hide Inv, Productive, WaitsForJob, WaitsForSlot;
    if At(w, t).Locking? || At(w, t).Returned? {
      a := CanMoveAtSlot(w, t);
    } else {
      a := CanMoveAtJob(w, t);
    }
  }

  /** Someone can move if anyone waits for the job lock. */
  lemma JobMoves(w: World, t: Tid) returns (a: Action)
    requires Inv(w) && WaitsForJob(w, t)
    ensures Productive(w, a)
  {
    if u :| R.Holds(R.At(w.job, u)) {
      assert JobRoleFits(At(w, u), JobRole(w, u));
      a := CanMove(w, u);
    } else {
      var u := R.SomeoneMayEnter(w.job, t);
      assert JobRoleFits(At(w, u), JobRole(w, u));
      a := JobTurn(u, false);
    }
  }

  lemma SlotHolderMoves(w: World, s: nat, u: Tid) returns (a: Action)
    requires Inv(w) && s < |w.locks| && R.Holds(R.At(w.locks[s], u))
    ensures Productive(w, a)
  {
    assert SlotRoleFits(At(w, u), s, SlotRole(w, s, u));
    hide Inv, Productive;
    if WaitsForJob(w, u) {
      a := JobMoves(w, u);
    } else {
      a := CanMove(w, u);
    }
  }

  lemma SlotWaiterMoves(w: World, s: nat, t: Tid) returns (a: Action)
    requires Inv(w) && s < |w.locks| && R.Waits(R.At(w.locks[s], t)) && forall u :: !R.Holds(R.At(w.locks[s], u))
    ensures Productive(w, a)
  {
    var u := R.SomeoneMayEnter(w.locks[s], t);
    assert SlotRoleFits(At(w, u), s, SlotRole(w, s, u));
    hide Inv, R.Inv, R.Step;
    a := SlotTurn(u, false);
  }

  lemma SlotMoves(w: World, t: Tid) returns (a: Action)
    requires Inv(w) && WaitsForSlot(w, t)
    ensures Productive(w, a)
  {
    hide Inv, Productive;
    var s := At(w, t).slot;
    if u :| R.Holds(R.At(w.locks[s], u)) {
      a := SlotHolderMoves(w, s, u);
    } else {
      a := SlotWaiterMoves(w, s, t);
    }
  }

  /** While any session is open, some step brings one forward. */
  lemma SomeoneMoves(w: World, t: Tid) returns (a: Action)
    requires Inv(w) && At(w, t) != Idle
    ensures Productive(w, a)
  {
    if WaitsForJob(w, t) {
      a := JobMoves(w, t);
    } else if WaitsForSlot(w, t) {
      a := SlotMoves(w, t);
    } else {
      a := CanMove(w, t);
    }
  }

  // Productive steps run out, and leave everybody idle

  /** How many steps at most are left of a session. */
  function Left(st: Stage, job: R.Role, slot: R.Role): nat {
    match st
    case Idle => 0
    case Getting(_, _) => if job == R.R_Writing then 9 else 10
    case Got(_, _, _) => 8
    case Locking(_, m, _) => if slot == R.R_Outside then 7 else if slot == WaitRole(m) then 6 else 5
    case Returning(_, _, _) => if job == R.R_Writing then 3 else 4
    case Returned(_, _, _, _) => 2
    case Leaving => 1
    case Aux(m) => if job == HoldRole(m) then 1 else 2
  }

  function LeftOf(w: World, t: Tid): nat {
    var st := At(w, t);
    Left(st, JobRole(w, t), if st.Locking? && st.slot < |w.locks| then SlotRole(w, st.slot, t) else R.R_Outside)
  }

  /** A step leaves the sessions of the other threads as they are. */
  lemma OthersStay(w: World, a: Action, u: Tid)
    requires Inv(w) && Enabled(w, a) && SlotFound(w, a) && u != a.t
    ensures LeftOf(Next(w, a), u) == LeftOf(w, u)
  {
    hide R.Step, R.Inv, TableFits, R.Enabled, Left;
    var v := Next(w, a);
    assert At(v, u) == At(w, u) && |v.locks| == |w.locks|;
    forall b: R.Action | b.t == a.t ensures R.RoleOf(R.At(R.Step(w.job, b), u)) == JobRole(w, u) {
      R.StepKeepsOthers(w.job, b, u);
    }
    forall b: R.Action, i: nat | b.t == a.t && i < |w.locks|
      ensures R.RoleOf(R.At(R.Step(w.locks[i], b), u)) == SlotRole(w, i, u)
    {
      R.StepKeepsOthers(w.locks[i], b, u);
    }
  }

  /** A productive step leaves less of its own session. */
  lemma MoverMovesOn(w: World, a: Action)
    requires Inv(w) && Productive(w, a) && SlotFound(w, a)
    ensures LeftOf(Next(w, a), a.t) < LeftOf(w, a.t)
  {
    hide R.Inv, TableFits, Inv, SessionFits;
    MoverFits(w, a.t);
    var st := w.stage[a.t];
    assert st.Locking? || st.Returned? ==> SlotRoleFits(st, st.slot, SlotRole(w, st.slot, a.t));
  }

  ghost function Total(w: World, T: set<Tid>): nat {
    if T == {} then 0 else var t :| t in T; LeftOf(w, t) + Total(w, T - {t})
  }

  lemma {:induction false} TotalSplit(w: World, T: set<Tid>, t: Tid)
    requires t in T
    ensures Total(w, T) == LeftOf(w, t) + Total(w, T - {t})
  {
    var u :| u in T && Total(w, T) == LeftOf(w, u) + Total(w, T - {u});
    if u != t {
      TotalSplit(w, T - {u}, t);
      TotalSplit(w, T - {t}, u);
      assert T - {u} - {t} == T - {t} - {u};
    }
  }

  lemma {:induction false} TotalSame(w: World, v: World, T: set<Tid>)
    requires forall t :: t in T ==> LeftOf(w, t) == LeftOf(v, t)
    ensures Total(w, T) == Total(v, T)
  {
    if T != {} {
      var t :| t in T;
      TotalSplit(w, T, t);
      TotalSplit(v, T, t);
      TotalSame(w, v, T - {t});
    }
  }

  ghost predicate AllIdle(w: World) {
    forall t :: At(w, t) == Idle
  }

  predicate OnlyForward(run: seq<Action>) {
    forall a <- run :: !a.Begin? && !a.AuxBegin? && (a.JobTurn? || a.SlotTurn? ==> !a.wake)
  }

  /** From every reachable world some run without new sessions and without spurious
      wakeups ends all sessions. */
  lemma AllCanFinish(w: World) returns (run: seq<Action>)
    requires Reachable(w)
    ensures Runs(w, run) && AllIdle(After(w, run)) && OnlyForward(run)
  {
    ReachableInv(w);
    run := FinishingRun(w);
  }

  /** A productive step leaves less of all sessions together. */
  lemma TotalFalls(w: World, a: Action)
    requires Inv(w) && Productive(w, a) && SlotFound(w, a)
    ensures Next(w, a).stage.Keys == w.stage.Keys
    ensures Total(Next(w, a), w.stage.Keys) < Total(w, w.stage.Keys)
  {
    var v := Next(w, a);
    MoverMovesOn(w, a);
    forall u | u != a.t ensures LeftOf(v, u) == LeftOf(w, u) {
      OthersStay(w, a, u);
    }
    assert a.t in w.stage && v.stage.Keys == w.stage.Keys;
    hide Inv, Productive, LeftOf, Next, SlotFound;
    TotalSplit(w, w.stage.Keys, a.t);
    TotalSplit(v, w.stage.Keys, a.t);
    TotalSame(w, v, w.stage.Keys - {a.t});
  }

  lemma {:induction false} FinishingRun(w: World) returns (run: seq<Action>)
    requires Inv(w)
    ensures Runs(w, run) && AllIdle(After(w, run)) && OnlyForward(run)
    decreases Total(w, w.stage.Keys)
  {
    hide Inv, Total, Next, Enabled, SlotFound;
    if t :| At(w, t) != Idle {
      var a := SomeoneMoves(w, t);
      NextKeepsInv(w, a);
      TotalFalls(w, a);
      var rest := FinishingRun(Next(w, a));
      run := [a] + rest;
      assert run[1..] == rest;
    } else {
      run := [];
    }
  }
}
