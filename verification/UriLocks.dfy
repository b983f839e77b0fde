/** The URI locks of httpserver.c: any number of worker threads, the job lock, the
    table, and one reader-writer lock a slot, as one transition system. */
module UriLocks {
  import R = RwLock
  import opened UriTable

  type Tid = R.Tid

  datatype Mode = ForRead | ForWrite

  /** How far a worker is in job_reader_lock_uri .. job_reader_unlock_uri, or in the
      same pair for writers.
      Idle: between sessions.
      Getting: in writer_lock(job_lock), or past it and before job_get_lock.
      Got: job_get_lock done, job_lock still held.
      Locking: job_lock given back; before, in or past the lock call on its slot.
      Returning: the session is over; in writer_lock(job_lock), or past it.
      Returned: job_find_uri answered `found`, job_return_lock is done.
      Leaving: the slot's lock given back, job_lock still held.
      Aux: in another short section under job_lock, as job_start or job_count. */
  datatype Stage =
    | Idle
    | Getting(uri: Uri, mode: Mode)
    | Got(uri: Uri, mode: Mode, slot: nat)
    | Locking(uri: Uri, mode: Mode, slot: nat)
    | Returning(uri: Uri, mode: Mode, slot: nat)
    | Returned(uri: Uri, mode: Mode, slot: nat, found: int)
    | Leaving
    | Aux(mode: Mode)

  datatype World = World(
    job: R.System,
    locks: seq<R.System>,
    table: Table,
    stage: map<Tid, Stage>)

  function At(w: World, t: Tid): Stage {
    if t in w.stage then w.stage[t] else Idle
  }

  function JobRole(w: World, t: Tid): R.Role {
    R.RoleOf(R.At(w.job, t))
  }

  function SlotRole(w: World, i: nat, t: Tid): R.Role
    requires i < |w.locks|
  {
    R.RoleOf(R.At(w.locks[i], t))
  }

  function WaitRole(m: Mode): R.Role {
    if m == ForRead then R.R_WaitRead else R.R_WaitWrite
  }

  function HoldRole(m: Mode): R.Role {
    if m == ForRead then R.R_Reading else R.R_Writing
  }

  function LockBy(m: Mode, t: Tid): R.Action {
    if m == ForRead then R.ReaderLock(t) else R.WriterLock(t)
  }

  function UnlockBy(m: Mode, t: Tid): R.Action {
    if m == ForRead then R.ReaderUnlock(t) else R.WriterUnlock(t)
  }

  /** The workers that may take steps are the keys of `stage`. */
  datatype Action =
    | Begin(t: Tid, uri: Uri, mode: Mode)
    | AuxBegin(t: Tid, mode: Mode)
    | JobTurn(t: Tid, wake: bool)
    | GetSlot(t: Tid)
    | LeaveJob(t: Tid)
    | Enter(t: Tid)
    | SlotTurn(t: Tid, wake: bool)
    | Finish(t: Tid)
    | ReturnSlot(t: Tid)
    | LeaveSlot(t: Tid)

  function Turn(t: Tid, wake: bool): R.Action {
    if wake then R.Wake(t) else R.Retry(t)
  }

  predicate Enabled(w: World, a: Action) {
    && a.t in w.stage
    && var st := w.stage[a.t];
       match a
       case Begin(t, _, _) => st == Idle && JobRole(w, t) == R.R_Outside
       case AuxBegin(t, _) => st == Idle && JobRole(w, t) == R.R_Outside
       case JobTurn(t, wake) => (st.Getting? || st.Returning? || st.Aux?) && R.Enabled(w.job, Turn(t, wake))
       case GetSlot(t) => st.Getting? && JobRole(w, t) == R.R_Writing
       case LeaveJob(t) =>
         ((st.Got? || st.Leaving?) && JobRole(w, t) == R.R_Writing) || (st.Aux? && JobRole(w, t) == HoldRole(st.mode))
       case Enter(t) => st.Locking? && st.slot < |w.locks| && SlotRole(w, st.slot, t) == R.R_Outside
       case SlotTurn(t, wake) => st.Locking? && st.slot < |w.locks| && R.Enabled(w.locks[st.slot], Turn(t, wake))
       case Finish(t) =>
         && st.Locking? && st.slot < |w.locks|
         && SlotRole(w, st.slot, t) == HoldRole(st.mode) && JobRole(w, t) == R.R_Outside
       case ReturnSlot(t) => st.Returning? && JobRole(w, t) == R.R_Writing && |w.table.list| == |w.table.count|
       case LeaveSlot(t) =>
         && st.Returned? && 0 <= st.found < |w.locks|
         && SlotRole(w, st.found, t) == HoldRole(st.mode)
  }

  function OnSlot(w: World, i: nat, a: R.Action, st: Stage): World
    requires i < |w.locks|
  {
    w.(locks := w.locks[i := R.Step(w.locks[i], a)], stage := w.stage[a.t := st])
  }

  function OnJob(w: World, a: R.Action, st: Stage): World {
    w.(job := R.Step(w.job, a), stage := w.stage[a.t := st])
  }

  /** job_get_lock needs a slot; that it always finds one is proved below. */
  predicate SlotFound(w: World, a: Action) {
    a.GetSlot? && At(w, a.t).Getting? ==>
      |w.table.list| == |w.table.count| && 0 <= SlotFor(w.table, At(w, a.t).uri) < |w.table.list|
  }

  function Next(w: World, a: Action): World
    requires Enabled(w, a) && SlotFound(w, a)
  {
    var st := w.stage[a.t];
    match a
    case Begin(t, uri, mode) => OnJob(w, R.WriterLock(t), Getting(uri, mode))
    case AuxBegin(t, mode) => OnJob(w, LockBy(mode, t), Aux(mode))
    case JobTurn(t, wake) => OnJob(w, Turn(t, wake), st)
    case GetSlot(t) =>
      w.(table := Get(w.table, st.uri), stage := w.stage[t := Got(st.uri, st.mode, SlotFor(w.table, st.uri))])
    case LeaveJob(t) =>
      OnJob(w, if st.Aux? then UnlockBy(st.mode, t) else R.WriterUnlock(t),
            if st.Got? then Locking(st.uri, st.mode, st.slot) else Idle)
    case Enter(t) => OnSlot(w, st.slot, LockBy(st.mode, t), st)
    case SlotTurn(t, wake) => OnSlot(w, st.slot, Turn(t, wake), st)
    case Finish(t) => OnJob(w, R.WriterLock(t), Returning(st.uri, st.mode, st.slot))
    case ReturnSlot(t) =>
      w.(table := Return(w.table, st.uri),
         stage := w.stage[t := Returned(st.uri, st.mode, st.slot, Find(w.table, st.uri))])
    case LeaveSlot(t) => OnSlot(w, st.found, UnlockBy(st.mode, t), Leaving)
  }

  /** n slots, whose locks are N_WAY with quota 2; the job lock prefers readers. */
  function Start(n: nat, workers: set<Tid>): World {
    World(R.Init(R.READERS, 0), seq(n, _ => R.Init(R.N_WAY, 2)), NewTable(n), map t | t in workers :: Idle)
  }

  // The invariant

  predicate JobRoleFits(st: Stage, r: R.Role) {
    match st
    case Idle => r == R.R_Outside
    case Getting(_, _) => r == R.R_WaitWrite || r == R.R_Writing
    case Got(_, _, _) => r == R.R_Writing
    case Locking(_, _, _) => r == R.R_Outside
    case Returning(_, _, _) => r == R.R_WaitWrite || r == R.R_Writing
    case Returned(_, _, _, _) => r == R.R_Writing
    case Leaving => r == R.R_Writing
    case Aux(m) => r == WaitRole(m) || r == HoldRole(m)
  }

  predicate SlotRoleFits(st: Stage, i: nat, r: R.Role) {
    match st
    case Locking(_, m, s) => r == R.R_Outside || (i == s && (r == WaitRole(m) || r == HoldRole(m)))
    case Returning(_, m, s) => r == if i == s then HoldRole(m) else R.R_Outside
    case Returned(_, m, s, _) => r == if i == s then HoldRole(m) else R.R_Outside
    case _ => r == R.R_Outside
  }

  /** The thread's place at every lock fits its stage. */
  ghost predicate PlacesFit(w: World) {
    && (forall t: Tid :: JobRoleFits(At(w, t), JobRole(w, t)))
    && (forall t: Tid, i: nat :: i < |w.locks| ==> SlotRoleFits(At(w, t), i, SlotRole(w, i, t)))
  }

  /** The thread has a session on slot i that counts in the table. */
  predicate UsesSlot(st: Stage, i: nat) {
    (st.Got? || st.Locking? || st.Returning?) && st.slot == i
  }

  ghost function Users(stage: map<Tid, Stage>, i: nat): set<Tid> {
    set t | t in stage && UsesSlot(stage[t], i)
  }

  ghost predicate TableFits(w: World) {
    && |w.table.list| == |w.table.count| == |w.locks|
    && (forall i :: 0 <= i < |w.locks| ==>
          && w.table.count[i] == |Users(w.stage, i)|
          && (w.table.list[i] == None <==> w.table.count[i] == 0))
    && (forall i, j :: 0 <= i < j < |w.locks| && w.table.list[i] != None ==> w.table.list[i] != w.table.list[j])
  }

  predicate SessionFits(w: World, st: Stage) {
    match st
    case Got(uri, _, s) => s < |w.table.list| && w.table.list[s] == Some(uri)
    case Locking(uri, _, s) => s < |w.table.list| && w.table.list[s] == Some(uri)
    case Returning(uri, _, s) => s < |w.table.list| && w.table.list[s] == Some(uri)
    case Returned(uri, _, s, f) =>
      && f == s < |w.table.list| && (w.table.list[s] == None || w.table.list[s] == Some(uri))
      && forall i :: 0 <= i < |w.table.list| && w.table.list[i] == Some(uri) ==> i == s
    case _ => true
  }

  ghost predicate LocksFit(w: World) {
    R.Inv(w.job) && forall i :: 0 <= i < |w.locks| ==> R.Inv(w.locks[i])
  }

  ghost predicate Inv(w: World) {
    && LocksFit(w) && PlacesFit(w) && TableFits(w)
    && (forall t :: t in w.stage ==> SessionFits(w, w.stage[t]))
    && |w.stage| <= |w.locks|
  }

  // Every step keeps the invariant

  lemma UsersSame(stage: map<Tid, Stage>, t: Tid, st: Stage, i: nat)
    requires t in stage && UsesSlot(st, i) == UsesSlot(stage[t], i)
    ensures Users(stage[t := st], i) == Users(stage, i)
  {
  }

  lemma SameUsersFit(w: World, v: World, t: Tid)
    requires TableFits(w) && v.table == w.table && |v.locks| == |w.locks|
    requires t in w.stage && t in v.stage && v.stage == w.stage[t := v.stage[t]]
    requires forall i: nat :: UsesSlot(v.stage[t], i) == UsesSlot(w.stage[t], i)
    requires forall u :: u in w.stage ==> SessionFits(w, w.stage[u])
    requires SessionFits(w, v.stage[t])
    ensures TableFits(v) && |v.stage| == |w.stage|
    ensures forall u :: u in v.stage ==> SessionFits(v, v.stage[u])
  {
    forall i: nat | i < |w.locks| ensures Users(v.stage, i) == Users(w.stage, i) {
      UsersSame(w.stage, t, v.stage[t], i);
    }
    assert v.stage.Keys == w.stage.Keys;
    assert |v.stage| == |v.stage.Keys| && |w.stage| == |w.stage.Keys|;
  }

  /** A step at the job lock. */
  lemma OnJobKeepsInv(w: World, a: R.Action, st: Stage)
    requires Inv(w) && a.t in w.stage && R.Enabled(w.job, a)
    requires JobRoleFits(st, R.RoleOf(R.At(R.Step(w.job, a), a.t)))
    requires forall i: nat :: i < |w.locks| ==> SlotRoleFits(st, i, SlotRole(w, i, a.t))
    requires forall i: nat :: UsesSlot(st, i) == UsesSlot(w.stage[a.t], i)
    requires SessionFits(w, st)
    ensures Inv(OnJob(w, a, st))
  {
    hide R.Step, R.Inv, R.Enabled, TableFits, SessionFits, UsesSlot, JobRoleFits, SlotRoleFits;
    var v := OnJob(w, a, st);
    R.StepKeepsInv(w.job, a);
    forall t: Tid ensures JobRoleFits(At(v, t), JobRole(v, t)) {
      if t != a.t {
        R.StepKeepsOthers(w.job, a, t);
        assert JobRoleFits(At(w, t), JobRole(w, t));
      }
    }
    forall t: Tid, i: nat | i < |v.locks| ensures SlotRoleFits(At(v, t), i, SlotRole(v, i, t)) {
      if t == a.t {
        assert SlotRoleFits(st, i, SlotRole(w, i, a.t));
      } else {
        assert SlotRoleFits(At(w, t), i, SlotRole(w, i, t));
      }
    }
    SameUsersFit(w, v, a.t);
  }

  /** A step at the lock of slot k. */
  lemma OnSlotKeepsInv(w: World, k: nat, a: R.Action, st: Stage)
    requires Inv(w) && a.t in w.stage && k < |w.locks| && R.Enabled(w.locks[k], a)
    requires JobRoleFits(st, JobRole(w, a.t))
    requires SlotRoleFits(st, k, R.RoleOf(R.At(R.Step(w.locks[k], a), a.t)))
    requires forall i: nat :: i < |w.locks| && i != k ==> SlotRoleFits(st, i, SlotRole(w, i, a.t))
    requires forall i: nat :: UsesSlot(st, i) == UsesSlot(w.stage[a.t], i)
    requires SessionFits(w, st)
    ensures Inv(OnSlot(w, k, a, st))
  {
    hide R.Step, R.Inv, R.Enabled, TableFits, SessionFits, UsesSlot, JobRoleFits, SlotRoleFits;
    var v := OnSlot(w, k, a, st);
    R.StepKeepsInv(w.locks[k], a);
    forall t: Tid ensures JobRoleFits(At(v, t), JobRole(v, t)) {
      if t != a.t {
        assert JobRoleFits(At(w, t), JobRole(w, t));
      }
    }
    forall t: Tid, i: nat | i < |v.locks| ensures SlotRoleFits(At(v, t), i, SlotRole(v, i, t)) {
      if t == a.t {
        assert i != k ==> SlotRoleFits(st, i, SlotRole(w, i, a.t));
      } else {
        R.StepKeepsOthers(w.locks[k], a, t);
        assert SlotRoleFits(At(w, t), i, SlotRole(w, i, t));
      }
    }
    SameUsersFit(w, v, a.t);
  }

  // The table never runs out of slots

  ghost function UsersBelow(stage: map<Tid, Stage>, n: nat): set<Tid> {
    set t | t in stage && (stage[t].Got? || stage[t].Locking? || stage[t].Returning?) && stage[t].slot < n
  }

  lemma {:induction false} SlotsInUse(stage: map<Tid, Stage>, n: nat)
    requires forall i: nat :: i < n ==> Users(stage, i) != {}
    ensures |UsersBelow(stage, n)| >= n
  {
    if n > 0 {
      SlotsInUse(stage, n - 1);
      var t :| t in Users(stage, n - 1);
      assert UsersBelow(stage, n - 1) + {t} <= UsersBelow(stage, n);
      SubsetSize(UsersBelow(stage, n - 1) + {t}, UsersBelow(stage, n));
    }
  }

  lemma SubsetSize<T>(A: set<T>, B: set<T>)
    requires A <= B
    ensures |A| <= |B|
  {
    assert B == A + (B - A);
  }

  /** Pigeonhole: with at most as many workers as slots, job_get_lock finds one. */
  lemma SlotAlwaysFound(w: World, t: Tid)
    requires TableFits(w) && |w.stage| <= |w.locks| && t in w.stage && w.stage[t].Getting?
    ensures forall uri :: 0 <= SlotFor(w.table, uri) < |w.table.list|
  {
    forall uri ensures 0 <= SlotFor(w.table, uri) < |w.table.list| {
      FindFromFinds(w.table.list, uri, 0);
      FreeFromFinds(w.table.count, 0);
      if SlotFor(w.table, uri) == -1 {
        forall i: nat | i < |w.locks| ensures Users(w.stage, i) != {} {
          assert w.table.count[i] != 0;
        }
        SlotsInUse(w.stage, |w.locks|);
        SubsetSize(UsersBelow(w.stage, |w.locks|), w.stage.Keys - {t});
      }
    }
  }

  // Table updates

  lemma UsersJoin(stage: map<Tid, Stage>, t: Tid, st: Stage, k: nat)
    requires t in stage && stage[t].Getting? && st.Got? && st.slot == k
    ensures Users(stage[t := st], k) == Users(stage, k) + {t} && t !in Users(stage, k)
    ensures forall i: nat :: i != k ==> Users(stage[t := st], i) == Users(stage, i)
  {
  }

  lemma UsersPart(stage: map<Tid, Stage>, t: Tid, st: Stage, k: nat)
    requires t in stage && UsesSlot(stage[t], k) && st.Returned?
    ensures Users(stage[t := st], k) == Users(stage, k) - {t} && t in Users(stage, k)
    ensures forall i: nat :: i != k ==> Users(stage[t := st], i) == Users(stage, i)
  {
  }

  /** While one thread holds the job lock for writing no other has left its slot
      half-returned. */
  lemma OnlyOneAtTable(w: World, t: Tid, u: Tid)
    requires LocksFit(w) && PlacesFit(w) && JobRole(w, t) == R.R_Writing && u != t
    ensures !At(w, u).Returned? && !At(w, u).Got? && !At(w, u).Leaving?
  {
    R.WriterAlone(w.job, t, u);
    assert JobRoleFits(At(w, u), JobRole(w, u));
  }

  lemma GetKeepsTable(w: World, t: Tid, st: Stage)
    requires TableFits(w) && t in w.stage && w.stage[t].Getting?
    requires 0 <= SlotFor(w.table, w.stage[t].uri) < |w.table.list|
    requires st.Got? && st.uri == w.stage[t].uri && st.slot == SlotFor(w.table, st.uri)
    ensures TableFits(w.(table := Get(w.table, st.uri), stage := w.stage[t := st]))
  {
    var k := st.slot;
    FindFromFinds(w.table.list, st.uri, 0);
    FreeFromFinds(w.table.count, 0);
    UsersJoin(w.stage, t, st, k);
    assert |Users(w.stage, k) + {t}| == |Users(w.stage, k)| + 1;
  }

  lemma GetKeepsSessions(w: World, t: Tid, st: Stage, u: Tid)
    requires TableFits(w) && t in w.stage && w.stage[t].Getting?
    requires 0 <= SlotFor(w.table, w.stage[t].uri) < |w.table.list|
    requires st.Got? && st.uri == w.stage[t].uri && st.slot == SlotFor(w.table, st.uri)
    requires u in w.stage && SessionFits(w, w.stage[u]) && !w.stage[u].Returned?
    ensures SessionFits(w.(table := Get(w.table, st.uri)), if u == t then st else w.stage[u])
  {
    FindFromFinds(w.table.list, st.uri, 0);
    FreeFromFinds(w.table.count, 0);
  }

  /** job_find_uri finds the slot the session was given. */
  lemma FindsOwnSlot(w: World, uri: Uri, k: nat)
    requires TableFits(w) && k < |w.table.list| && w.table.list[k] == Some(uri)
    ensures Find(w.table, uri) == k
  {
    FindFromFinds(w.table.list, uri, 0);
  }

  lemma ReturnKeepsTable(w: World, t: Tid, st: Stage)
    requires TableFits(w) && t in w.stage && w.stage[t].Returning? && SessionFits(w, w.stage[t]) && st.Returned?
    ensures TableFits(w.(table := Return(w.table, w.stage[t].uri), stage := w.stage[t := st]))
  {
    var k := w.stage[t].slot;
    FindsOwnSlot(w, w.stage[t].uri, k);
    UsersPart(w.stage, t, st, k);
    assert |Users(w.stage, k) - {t}| == |Users(w.stage, k)| - 1;
  }

  lemma ReturnKeepsSessions(w: World, t: Tid, st: Stage, u: Tid)
    requires TableFits(w) && t in w.stage && w.stage[t].Returning? && SessionFits(w, w.stage[t])
    requires st == Returned(w.stage[t].uri, w.stage[t].mode, w.stage[t].slot, Find(w.table, w.stage[t].uri))
    requires u in w.stage && SessionFits(w, w.stage[u]) && !w.stage[u].Returned?
    ensures SessionFits(w.(table := Return(w.table, w.stage[t].uri)), if u == t then st else w.stage[u])
  {
    var k := w.stage[t].slot;
    FindsOwnSlot(w, w.stage[t].uri, k);
    if u != t && UsesSlot(w.stage[u], k) {
      assert {t, u} <= Users(w.stage, k);
      SubsetSize({t, u}, Users(w.stage, k));
    }
  }

  lemma GetKeepsInv(w: World, t: Tid)
    requires Inv(w) && Enabled(w, GetSlot(t)) && SlotFound(w, GetSlot(t))
    ensures Inv(Next(w, GetSlot(t)))
  {
    var uri, mode := w.stage[t].uri, w.stage[t].mode;
    var st := Got(uri, mode, SlotFor(w.table, uri));
    var v := Next(w, GetSlot(t));
    GetKeepsTable(w, t, st);
    PlacesStay(w, v, t);
    forall u | u in v.stage ensures SessionFits(v, v.stage[u]) {
      if u != t {
        OnlyOneAtTable(w, t, u);
      }
      GetKeepsSessions(w, t, st, u);
    }
    assert v.stage.Keys == w.stage.Keys;
  }

  lemma ReturnKeepsInv(w: World, t: Tid)
    requires Inv(w) && Enabled(w, ReturnSlot(t))
    ensures Inv(Next(w, ReturnSlot(t)))
  {
    var st := Returned(w.stage[t].uri, w.stage[t].mode, w.stage[t].slot, Find(w.table, w.stage[t].uri));
    var v := Next(w, ReturnSlot(t));
    ReturnKeepsTable(w, t, st);
    PlacesStay(w, v, t);
    forall u | u in v.stage ensures SessionFits(v, v.stage[u]) {
      if u != t {
        OnlyOneAtTable(w, t, u);
      }
      ReturnKeepsSessions(w, t, st, u);
    }
    assert v.stage.Keys == w.stage.Keys;
  }

  /** Steps on the table move nobody at any lock. */
  lemma PlacesStay(w: World, v: World, t: Tid)
    requires PlacesFit(w) && v.job == w.job && v.locks == w.locks && t in v.stage && v.stage == w.stage[t := v.stage[t]]
    requires JobRoleFits(v.stage[t], JobRole(w, t))
    requires forall i: nat :: i < |w.locks| ==> SlotRoleFits(v.stage[t], i, SlotRole(w, i, t))
    ensures PlacesFit(v)
  {
    forall u: Tid ensures JobRoleFits(At(v, u), JobRole(v, u)) {
      assert JobRoleFits(At(w, u), JobRole(w, u));
    }
    forall u: Tid, i: nat | i < |v.locks| ensures SlotRoleFits(At(v, u), i, SlotRole(v, i, u)) {
      assert SlotRoleFits(At(w, u), i, SlotRole(w, i, u));
    }
  }

  /** Every step can be taken as far as the table is concerned, and keeps the invariant. */
  lemma NextKeepsInv(w: World, a: Action)
    requires Inv(w) && Enabled(w, a)
    ensures SlotFound(w, a) && Inv(Next(w, a))
  {
    assert JobRoleFits(At(w, a.t), JobRole(w, a.t)) && SessionFits(w, w.stage[a.t]);
    if a.GetSlot? {
      SlotAlwaysFound(w, a.t);
      GetKeepsInv(w, a.t);
    } else if a.ReturnSlot? {
      ReturnKeepsInv(w, a.t);
    } else if a.Enter? || a.SlotTurn? || a.LeaveSlot? {
      SlotStepKeepsInv(w, a);
    } else if a.Finish? {
      FinishKeepsInv(w, a.t);
    } else {
      JobStepKeepsInv(w, a);
    }
  }

  /** What the invariant says of the thread that moves. */
  lemma MoverFits(w: World, t: Tid)
    requires Inv(w) && t in w.stage
    ensures SessionFits(w, w.stage[t]) && JobRoleFits(w.stage[t], JobRole(w, t))
    ensures forall i: nat :: i < |w.locks| ==> SlotRoleFits(w.stage[t], i, SlotRole(w, i, t))
    ensures |w.table.list| == |w.locks|
  {
    assert At(w, t) == w.stage[t];
    assert JobRoleFits(At(w, t), JobRole(w, t));
  }

  lemma SlotStepKeepsInv(w: World, a: Action)
    requires Inv(w) && Enabled(w, a) && (a.Enter? || a.SlotTurn? || a.LeaveSlot?)
    ensures Inv(Next(w, a))
  {
    hide R.Inv, TableFits, Inv;
    var st := w.stage[a.t];
    MoverFits(w, a.t);
    assert SlotRoleFits(st, st.slot, SlotRole(w, st.slot, a.t));
    match a
    case Enter(t) => OnSlotKeepsInv(w, st.slot, LockBy(st.mode, t), st);
    case SlotTurn(t, wake) => OnSlotKeepsInv(w, st.slot, Turn(t, wake), st);
    case LeaveSlot(t) => OnSlotKeepsInv(w, st.slot, UnlockBy(st.mode, t), Leaving);
  }

  lemma JobStepKeepsInv(w: World, a: Action)
    requires Inv(w) && Enabled(w, a) && (a.Begin? || a.AuxBegin? || a.JobTurn? || a.LeaveJob?)
    ensures Inv(Next(w, a))
  {
    hide R.Inv, TableFits, Inv;
    var st := w.stage[a.t];
    MoverFits(w, a.t);
    match a
    case Begin(t, uri, mode) => OnJobKeepsInv(w, R.WriterLock(t), Getting(uri, mode));
    case AuxBegin(t, mode) => OnJobKeepsInv(w, LockBy(mode, t), Aux(mode));
    case JobTurn(t, wake) => OnJobKeepsInv(w, Turn(t, wake), st);
    case LeaveJob(t) => LeaveJobKeepsInv(w, t);
  }

  lemma LeaveJobKeepsInv(w: World, t: Tid)
    requires Inv(w) && Enabled(w, LeaveJob(t))
    ensures Inv(Next(w, LeaveJob(t)))
  {
    hide R.Inv, TableFits, Inv;
    var st := w.stage[t];
    MoverFits(w, t);
    if st.Aux? {
      OnJobKeepsInv(w, UnlockBy(st.mode, t), Idle);
    } else if st.Got? {
      OnJobKeepsInv(w, R.WriterUnlock(t), Locking(st.uri, st.mode, st.slot));
    } else {
      OnJobKeepsInv(w, R.WriterUnlock(t), Idle);
    }
  }

  lemma FinishKeepsInv(w: World, t: Tid)
    requires Inv(w) && Enabled(w, Finish(t))
    ensures Inv(Next(w, Finish(t)))
  {
    hide R.Inv, TableFits, Inv;
    var st := w.stage[t];
    MoverFits(w, t);
    assert SlotRoleFits(st, st.slot, SlotRole(w, st.slot, t));
    OnJobKeepsInv(w, R.WriterLock(t), Returning(st.uri, st.mode, st.slot));
  }
}
