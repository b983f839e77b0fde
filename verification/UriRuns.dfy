/** Whole runs of the URI locks of httpserver.c: what a session asked for is what it
    gets, who is let in to a URI, and who may pass whom. */
module UriRuns {
  import R = RwLock
  import E = RwEntry
  import opened UriTable
  import opened UriLocks
  import opened UriSafety

  // Policies

  /** The job lock prefers readers; the URI locks are N_WAY with quota 2. */
  ghost predicate Policies(w: World) {
    && w.job.c.priority == R.READERS
    && forall i :: 0 <= i < |w.locks| ==> w.locks[i].c.priority == R.N_WAY && w.locks[i].c.N == 2
  }

  lemma StepKeepsPolicy(s: R.System, a: R.Action)
    ensures R.Step(s, a).c.priority == s.c.priority && R.Step(s, a).c.N == s.c.N
  {
  }

  lemma NextKeepsPolicies(w: World, a: Action)
    requires Policies(w) && Enabled(w, a) && SlotFound(w, a)
    ensures Policies(Next(w, a)) && |Next(w, a).locks| == |w.locks|
  {
    hide R.Step, R.Enabled;
    forall b: R.Action ensures R.Step(w.job, b).c.priority == R.READERS {
      StepKeepsPolicy(w.job, b);
    }
    forall i, b: R.Action | 0 <= i < |w.locks|
      ensures R.Step(w.locks[i], b).c.priority == R.N_WAY && R.Step(w.locks[i], b).c.N == 2
    {
      StepKeepsPolicy(w.locks[i], b);
    }
  }

  /** What every run from the start keeps. */
  lemma {:induction false} RunKeeps(w: World, run: seq<Action>)
    requires Inv(w) && Policies(w) && Runs(w, run)
    ensures Inv(After(w, run)) && Policies(After(w, run)) && |After(w, run).locks| == |w.locks|
    decreases |run|
  {
    hide Inv, Policies, Next, Enabled;
    if run != [] {
      NextKeepsInv(w, run[0]);
      NextKeepsPolicies(w, run[0]);
      RunKeeps(Next(w, run[0]), run[1..]);
    }
  }

  lemma FromStart(n: nat, workers: set<Tid>, run: seq<Action>)
    requires |workers| <= n && Runs(Start(n, workers), run)
    ensures var w := After(Start(n, workers), run); Inv(w) && Policies(w) && |w.locks| == n
    ensures Inv(Start(n, workers)) && Policies(Start(n, workers))
    ensures forall i :: 0 <= i < n ==> Start(n, workers).locks[i].c.readersSinceLastWrite == 0
  {
    StartInv(n, workers);
    RunKeeps(Start(n, workers), run);
  }

  // The job lock

  /** The step is one in which the thread tests the condition of the job lock. */
  predicate TestsJob(w: World, a: Action) {
    a.Begin? || a.AuxBegin? || a.Finish? || (a.JobTurn? && !a.wake)
  }

  predicate AsReader(w: World, a: Action)
    requires TestsJob(w, a)
  {
    (a.AuxBegin? && a.mode == ForRead) || (a.JobTurn? && At(w, a.t).Aux? && At(w, a.t).mode == ForRead)
  }

  ghost predicate AtJob(w: World, r: R.Role) {
    exists u: Tid :: JobRole(w, u) == r
  }

  /** The step of the job lock that the step of the world is. */
  function JobAction(w: World, a: Action): R.Action
    requires TestsJob(w, a)
  {
    if a.Begin? || a.Finish? then R.WriterLock(a.t) else if a.AuxBegin? then LockBy(a.mode, a.t) else R.Retry(a.t)
  }

  lemma JobActionIs(w: World, a: Action)
    requires Inv(w) && Enabled(w, a) && TestsJob(w, a) && SlotFound(w, a)
    ensures R.Enabled(w.job, JobAction(w, a)) && Next(w, a).job == R.Step(w.job, JobAction(w, a))
    ensures E.ReaderTests(w.job, JobAction(w, a)) <==> AsReader(w, a)
    ensures E.WriterTests(w.job, JobAction(w, a)) <==> !AsReader(w, a)
  {
    hide R.Step, Inv, SessionFits, SlotRoleFits;
    MoverFits(w, a.t);
  }

  /** job_lock: a reader gets in exactly if nobody writes; a writer exactly if nobody
      reads, writes, or waits to read. */
  lemma JobEntersIff(n: nat, workers: set<Tid>, run: seq<Action>, a: Action)
    requires |workers| <= n && Runs(Start(n, workers), run)
    requires Enabled(After(Start(n, workers), run), a) && TestsJob(After(Start(n, workers), run), a)
    ensures var w := After(Start(n, workers), run);
            if AsReader(w, a) then JobRole(Next(w, a), a.t) == R.R_Reading <==> !AtJob(w, R.R_Writing)
            else JobRole(Next(w, a), a.t) == R.R_Writing <==>
                 !AtJob(w, R.R_Writing) && !AtJob(w, R.R_Reading) && !AtJob(w, R.R_WaitRead)
  {
    hide R.Inv, R.Step, R.Enabled, Enabled, Next, AsReader, AtJob, E.Someone, E.ReaderTests, E.WriterTests;
    var w := After(Start(n, workers), run);
    FromStart(n, workers, run);
    SomeoneAtJob(w);
    JobActionIs(w, a);
    var b := JobAction(w, a);
    if AsReader(w, a) {
      E.ReaderEntersIff(w.job, b);
    } else {
      E.WriterEntersIff(w.job, b);
    }
  }

  lemma SomeoneAtJob(w: World)
    ensures forall r: R.Role :: E.Someone(w.job, r) <==> AtJob(w, r)
  {
    forall r: R.Role ensures E.Someone(w.job, r) <==> AtJob(w, r) {
      if u: Tid :| JobRole(w, u) == r {
        assert R.RoleOf(R.At(w.job, u)) == r;
      }
      if u: Tid :| R.RoleOf(R.At(w.job, u)) == r {
        assert JobRole(w, u) == r;
      }
    }
  }

  // What a session asked for

  datatype Request = Nothing | Request(uri: Uri, mode: Mode)

  /** What the thread's session stands for. */
  function SessionOf(st: Stage): Request {
    match st
    case Getting(uri, mode) => Request(uri, mode)
    case Got(uri, mode, _) => Request(uri, mode)
    case Locking(uri, mode, _) => Request(uri, mode)
    case Returning(uri, mode, _) => Request(uri, mode)
    case Returned(uri, mode, _, _) => Request(uri, mode)
    case _ => Nothing
  }

  /** The arguments of the last call of job_reader_lock_uri or job_writer_lock_uri by
      t in the run. */
  function Asked(run: seq<Action>, t: Tid, before: Request): Request
    decreases |run|
  {
    if run == [] then before
    else Asked(run[1..], t, if run[0].Begin? && run[0].t == t then Request(run[0].uri, run[0].mode) else before)
  }

  lemma {:induction false} SessionsKept(w: World, run: seq<Action>, t: Tid, before: Request)
    requires Runs(w, run) && (SessionOf(At(w, t)) != Nothing ==> SessionOf(At(w, t)) == before)
    ensures SessionOf(At(After(w, run), t)) != Nothing ==> SessionOf(At(After(w, run), t)) == Asked(run, t, before)
    decreases |run|
  {
    hide R.Step, R.Enabled, Get, Return;
    if run != [] {
      var a := run[0];
      SessionsKept(Next(w, a), run[1..], t,
                   if a.Begin? && a.t == t then Request(a.uri, a.mode) else before);
    }
  }

  /** In every run, a thread holds no URI but the one its last call asked for, and
      holds it in the mode that was asked for. */
  lemma HoldsWhatItAskedFor(n: nat, workers: set<Tid>, run: seq<Action>, t: Tid, uri: Uri, mode: Mode)
    requires Runs(Start(n, workers), run) && HoldsUri(After(Start(n, workers), run), t, uri, mode)
    ensures Asked(run, t, Nothing) == Request(uri, mode)
  {
    SessionsKept(Start(n, workers), run, t, Nothing);
  }

  // Who is let in to a URI

  /** The thread waits at the lock of the URI, for the mode it asked for. */
  predicate WaitsForUri(w: World, t: Tid, uri: Uri, mode: Mode) {
    && At(w, t).Locking? && At(w, t).uri == uri && At(w, t).mode == mode && At(w, t).slot < |w.locks|
    && SlotRole(w, At(w, t).slot, t) == WaitRole(mode)
  }

  ghost predicate Held(w: World, uri: Uri, mode: Mode) {
    exists u :: HoldsUri(w, u, uri, mode)
  }

  ghost predicate Awaited(w: World, uri: Uri, mode: Mode) {
    exists u :: WaitsForUri(w, u, uri, mode)
  }

  /** Who stands at the lock of a slot stands there for the URI of the slot. */
  lemma AtSlotForUri(w: World, i: nat, u: Tid)
    requires Inv(w) && i < |w.locks| && w.table.list[i] != None
    ensures var uri := w.table.list[i].value;
            && (SlotRole(w, i, u) == R.R_Reading <==> HoldsUri(w, u, uri, ForRead))
            && (SlotRole(w, i, u) == R.R_Writing <==> HoldsUri(w, u, uri, ForWrite))
            && (SlotRole(w, i, u) == R.R_WaitRead <==> WaitsForUri(w, u, uri, ForRead))
            && (SlotRole(w, i, u) == R.R_WaitWrite <==> WaitsForUri(w, u, uri, ForWrite))
  {
    var st, uri := At(w, u), w.table.list[i].value;
    assert SlotRoleFits(st, i, SlotRole(w, i, u));
    if u in w.stage {
      MoverFits(w, u);
    }
    if (st.Locking? || st.Returning? || st.Returned?) && st.uri == uri {
      assert u in w.stage && SessionFits(w, st);
      if st.slot != i {
        SlotsDiffer(w, st.slot, i);
      }
      assert st.slot == i;
    }
  }

  /** No URI has two slots. */
  lemma SlotsDiffer(w: World, i: nat, j: nat)
    requires TableFits(w) && i < |w.locks| && j < |w.locks| && i != j && w.table.list[j] != None
    ensures w.table.list[i] != w.table.list[j]
  {
    if i < j {
      assert w.table.list[i] != None ==> w.table.list[i] != w.table.list[j];
    } else {
      assert w.table.list[j] != w.table.list[i];
    }
  }

  lemma SomeoneAtSlot(w: World, i: nat)
    requires Inv(w) && i < |w.locks| && w.table.list[i] != None
    ensures var uri := w.table.list[i].value;
            && (E.Someone(w.locks[i], R.R_Reading) <==> Held(w, uri, ForRead))
            && (E.Someone(w.locks[i], R.R_Writing) <==> Held(w, uri, ForWrite))
            && (E.Someone(w.locks[i], R.R_WaitRead) <==> Awaited(w, uri, ForRead))
            && (E.Someone(w.locks[i], R.R_WaitWrite) <==> Awaited(w, uri, ForWrite))
  {
    var uri := w.table.list[i].value;
    forall u: Tid
      ensures R.RoleOf(R.At(w.locks[i], u)) == R.R_Reading <==> HoldsUri(w, u, uri, ForRead)
      ensures R.RoleOf(R.At(w.locks[i], u)) == R.R_Writing <==> HoldsUri(w, u, uri, ForWrite)
      ensures R.RoleOf(R.At(w.locks[i], u)) == R.R_WaitRead <==> WaitsForUri(w, u, uri, ForRead)
      ensures R.RoleOf(R.At(w.locks[i], u)) == R.R_WaitWrite <==> WaitsForUri(w, u, uri, ForWrite)
    {
      AtSlotForUri(w, i, u);
    }
  }

  // Passing at a URI lock

  /** The step of the lock of slot i that the step of the world is, if it is one. */
  function SlotAction(w: World, a: Action): (b: R.Action)
    requires a.Enter? || a.SlotTurn? || a.LeaveSlot?
    ensures b.t == a.t
  {
    match a
    case Enter(t) => if At(w, t).Locking? then LockBy(At(w, t).mode, t) else R.Wake(t)
    case SlotTurn(t, wake) => Turn(t, wake)
    case LeaveSlot(t) => if At(w, t).Returned? then UnlockBy(At(w, t).mode, t) else R.Wake(t)
  }

  /** The slot whose lock the step changes; -1 if there is none. */
  function SlotOf(w: World, a: Action): int {
    if (a.Enter? || a.SlotTurn?) && At(w, a.t).Locking? then At(w, a.t).slot
    else if a.LeaveSlot? && At(w, a.t).Returned? then At(w, a.t).found
    else -1
  }

  lemma SlotActionIs(w: World, a: Action, i: nat)
    requires Inv(w) && Enabled(w, a) && SlotFound(w, a) && i < |w.locks|
    ensures |Next(w, a).locks| == |w.locks|
    ensures SlotOf(w, a) != i ==> Next(w, a).locks[i] == w.locks[i]
    ensures SlotOf(w, a) == i ==>
              && (a.Enter? || a.SlotTurn? || a.LeaveSlot?)
              && R.Enabled(w.locks[i], SlotAction(w, a)) && Next(w, a).locks[i] == R.Step(w.locks[i], SlotAction(w, a))
  {
    hide R.Step, Inv, SessionFits, SlotRoleFits, Get, Return;
    MoverFits(w, a.t);
  }

  ghost predicate AtSlot(w: World, i: nat, r: R.Role)
    requires i < |w.locks|
  {
    exists u: Tid :: SlotRole(w, i, u) == r
  }

  /** The step lets its thread in at slot i, in role r. */
  predicate GetsIn(w: World, a: Action, i: nat, r: R.Role)
    requires Enabled(w, a) && SlotFound(w, a) && i < |w.locks| && i < |Next(w, a).locks|
  {
    SlotRole(w, i, a.t) != r && SlotRole(Next(w, a), i, a.t) == r
  }

  /** A writer leaves slot i. */
  predicate Released(w: World, a: Action, i: nat)
    requires Enabled(w, a) && SlotFound(w, a) && i < |w.locks| && i < |Next(w, a).locks|
  {
    SlotRole(w, i, a.t) == R.R_Writing && SlotRole(Next(w, a), i, a.t) != R.R_Writing
  }

  /** How many readers have passed a waiting writer at slot i since a writer last left
      it. */
  ghost function SlotPasses(w: World, run: seq<Action>, i: nat, before: nat): nat
    requires Inv(w) && Runs(w, run) && i < |w.locks|
    decreases |run|
  {
    if run == [] then before
    else
      NextKeepsInv(w, run[0]);
      SlotActionIs(w, run[0], i);
      SlotPasses(Next(w, run[0]), run[1..], i,
                 if Released(w, run[0], i) then 0
                 else if GetsIn(w, run[0], i, R.R_Reading) && AtSlot(w, i, R.R_WaitWrite) then before + 1
                 else before)
  }

  /** What a step of an N_WAY lock does to its quota counter. */
  lemma QuotaStep(s: R.System, b: R.Action)
    requires R.Inv(s) && R.Enabled(s, b) && s.c.priority == R.N_WAY
    ensures var p, q := R.RoleOf(R.At(s, b.t)), R.RoleOf(R.At(R.Step(s, b), b.t));
            R.Step(s, b).c.readersSinceLastWrite ==
            if p == R.R_Writing && q != R.R_Writing then 0
            else if p != R.R_Reading && q == R.R_Reading && E.Someone(s, R.R_WaitWrite) then s.c.readersSinceLastWrite + 1
            else s.c.readersSinceLastWrite
  {
    E.CountsMeanSomeone(s);
  }

  lemma SlotPassStep(w: World, a: Action, i: nat)
    requires Inv(w) && Policies(w) && Enabled(w, a) && SlotFound(w, a) && i < |w.locks|
    ensures |Next(w, a).locks| == |w.locks|
    ensures Next(w, a).locks[i].c.readersSinceLastWrite ==
            if Released(w, a, i) then 0
            else if GetsIn(w, a, i, R.R_Reading) && AtSlot(w, i, R.R_WaitWrite)
              then w.locks[i].c.readersSinceLastWrite + 1
            else w.locks[i].c.readersSinceLastWrite
  {
    hide R.Step, R.Inv, R.Enabled, Next, Enabled, SlotAction, TableFits, PlacesFit, SessionFits;
    SlotActionIs(w, a, i);
    if SlotOf(w, a) == i {
      SomeoneAtLock(w, i, R.R_WaitWrite);
      QuotaStep(w.locks[i], SlotAction(w, a));
    }
  }

  lemma SomeoneAtLock(w: World, i: nat, r: R.Role)
    requires i < |w.locks|
    ensures E.Someone(w.locks[i], r) <==> AtSlot(w, i, r)
  {
    if u: Tid :| SlotRole(w, i, u) == r {
      assert R.RoleOf(R.At(w.locks[i], u)) == r;
    }
    if u: Tid :| R.RoleOf(R.At(w.locks[i], u)) == r {
      assert SlotRole(w, i, u) == r;
    }
  }

  lemma {:induction false} SlotPassesCount(w: World, run: seq<Action>, i: nat)
    requires Inv(w) && Policies(w) && Runs(w, run) && i < |w.locks| && w.locks[i].c.readersSinceLastWrite >= 0
    ensures |After(w, run).locks| == |w.locks|
    ensures SlotPasses(w, run, i, w.locks[i].c.readersSinceLastWrite) == After(w, run).locks[i].c.readersSinceLastWrite
    decreases |run|
  {
    hide Inv, Policies, Next, Enabled, Released, GetsIn, AtSlot;
    if run != [] {
      NextKeepsInv(w, run[0]);
      NextKeepsPolicies(w, run[0]);
      SlotPassStep(w, run[0], i);
      SlotPassesCount(Next(w, run[0]), run[1..], i);
    }
  }

  /** In every run the quota counter of a slot is the number of passes, at most 2. */
  lemma SlotPassesAtMostTwo(n: nat, workers: set<Tid>, run: seq<Action>, i: nat)
    requires |workers| <= n && Runs(Start(n, workers), run) && i < n
    ensures Inv(Start(n, workers)) && |After(Start(n, workers), run).locks| == n
    ensures SlotPasses(Start(n, workers), run, i, 0) == After(Start(n, workers), run).locks[i].c.readersSinceLastWrite <= 2
  {
    FromStart(n, workers, run);
    SlotPassesCount(Start(n, workers), run, i);
    assert R.Inv(After(Start(n, workers), run).locks[i]);
  }

  /** A writer passes readers that wait at its slot only after exactly 2 of them have
      passed it. */
  lemma WriterPassesAfterTwo(n: nat, workers: set<Tid>, run: seq<Action>, a: Action, i: nat)
    requires |workers| <= n && Runs(Start(n, workers), run) && i < n
    requires var w := After(Start(n, workers), run);
             && Enabled(w, a) && SlotFound(w, a) && i < |w.locks| && i < |Next(w, a).locks|
             && GetsIn(w, a, i, R.R_Writing) && AtSlot(w, i, R.R_WaitRead)
    ensures Inv(Start(n, workers)) && SlotPasses(Start(n, workers), run, i, 0) == 2
  {
    var w := After(Start(n, workers), run);
    FromStart(n, workers, run);
    SlotPassesAtMostTwo(n, workers, run, i);
    SlotActionIs(w, a, i);
    SomeoneAtLock(w, i, R.R_WaitRead);
    WriterGotIn(w.locks[i], SlotAction(w, a));
  }

  lemma WriterGotIn(s: R.System, b: R.Action)
    requires R.Inv(s) && R.Enabled(s, b) && s.c.priority == R.N_WAY && E.Someone(s, R.R_WaitRead)
    requires R.RoleOf(R.At(s, b.t)) != R.R_Writing && R.RoleOf(R.At(R.Step(s, b), b.t)) == R.R_Writing
    ensures s.c.readersSinceLastWrite >= s.c.N
  {
    E.CountsMeanSomeone(s);
  }

  // Who is let in, in terms of URIs

  /** The step tests the condition of the URI lock that the thread waits for. */
  predicate TestsUri(w: World, a: Action) {
    a.Enter? || (a.SlotTurn? && !a.wake)
  }

  /** The quota counter behind the URI of the thread. */
  function Quota(w: World, t: Tid): int {
    if At(w, t).Locking? && At(w, t).slot < |w.locks| then w.locks[At(w, t).slot].c.readersSinceLastWrite else 0
  }

  lemma TestedSlot(w: World, a: Action)
    requires Inv(w) && Enabled(w, a) && SlotFound(w, a) && TestsUri(w, a)
    ensures At(w, a.t).Locking? && At(w, a.t).slot < |w.locks| == |w.table.list| == |Next(w, a).locks|
    ensures w.table.list[At(w, a.t).slot] == Some(At(w, a.t).uri)
    ensures At(Next(w, a), a.t) == At(w, a.t) && R.Inv(w.locks[At(w, a.t).slot])
    ensures R.Enabled(w.locks[At(w, a.t).slot], SlotAction(w, a))
    ensures Next(w, a).locks[At(w, a.t).slot] == R.Step(w.locks[At(w, a.t).slot], SlotAction(w, a))
    ensures At(w, a.t).mode == ForRead ==> E.ReaderTests(w.locks[At(w, a.t).slot], SlotAction(w, a))
    ensures At(w, a.t).mode == ForWrite ==> E.WriterTests(w.locks[At(w, a.t).slot], SlotAction(w, a))
  {
    hide R.Step, R.Inv, R.Enabled, Next, Enabled, SlotRoleFits, JobRoleFits, PlacesFit, E.ReaderTests, E.WriterTests;
    SlotTestIs(w, a);
    SlotActionIs(w, a, At(w, a.t).slot);
    MoverFits(w, a.t);
  }

  lemma ReaderGetsUri(w: World, a: Action)
    requires Inv(w) && Policies(w) && Enabled(w, a) && SlotFound(w, a) && TestsUri(w, a) && At(w, a.t).mode == ForRead
    ensures At(w, a.t).Locking?
    ensures var uri := At(w, a.t).uri;
            HoldsUri(Next(w, a), a.t, uri, ForRead) <==>
              !Held(w, uri, ForWrite) && (Awaited(w, uri, ForWrite) ==> Quota(w, a.t) < 2)
  {
    hide Inv, R.Inv, R.Step, R.Enabled, Next, Enabled, Held, Awaited, E.Someone, SlotAction, E.ReaderTests, E.WriterTests;
    TestedSlot(w, a);
    SomeoneAtSlot(w, At(w, a.t).slot);
    E.ReaderEntersIff(w.locks[At(w, a.t).slot], SlotAction(w, a));
  }

  lemma WriterGetsUri(w: World, a: Action)
    requires Inv(w) && Policies(w) && Enabled(w, a) && SlotFound(w, a) && TestsUri(w, a) && At(w, a.t).mode == ForWrite
    ensures At(w, a.t).Locking?
    ensures var uri := At(w, a.t).uri;
            HoldsUri(Next(w, a), a.t, uri, ForWrite) <==>
              && !Held(w, uri, ForWrite) && !Held(w, uri, ForRead)
              && (Awaited(w, uri, ForRead) ==> Quota(w, a.t) >= 2)
  {
    hide Inv, R.Inv, R.Step, R.Enabled, Next, Enabled, Held, Awaited, E.Someone, SlotAction, E.ReaderTests, E.WriterTests;
    TestedSlot(w, a);
    SomeoneAtSlot(w, At(w, a.t).slot);
    E.WriterEntersIff(w.locks[At(w, a.t).slot], SlotAction(w, a));
  }

  /** A session that reads gets its URI exactly if nobody holds the URI for writing,
      and nobody waits to write it or fewer than 2 readers have passed since a writer
      last released it. */
  lemma ReaderGetsUriIff(n: nat, workers: set<Tid>, run: seq<Action>, a: Action)
    requires |workers| <= n && Runs(Start(n, workers), run)
    requires var w := After(Start(n, workers), run);
             Enabled(w, a) && SlotFound(w, a) && TestsUri(w, a) && At(w, a.t).mode == ForRead
    ensures var w := After(Start(n, workers), run);
            && Inv(Start(n, workers)) && At(w, a.t).Locking? && At(w, a.t).slot < n && |w.locks| == n
            && var uri := At(w, a.t).uri;
               HoldsUri(Next(w, a), a.t, uri, ForRead) <==>
                 && !Held(w, uri, ForWrite)
                 && (Awaited(w, uri, ForWrite) ==> SlotPasses(Start(n, workers), run, At(w, a.t).slot, 0) < 2)
  {
    hide Inv, Policies, Next, Enabled, Held, Awaited, SlotPasses, Start, HoldsUri;
    var w := After(Start(n, workers), run);
    FromStart(n, workers, run);
    TestedSlot(w, a);
    ReaderGetsUri(w, a);
    SlotPassesAtMostTwo(n, workers, run, At(w, a.t).slot);
  }

  /** The same for a session that writes. */
  lemma WriterGetsUriIff(n: nat, workers: set<Tid>, run: seq<Action>, a: Action)
    requires |workers| <= n && Runs(Start(n, workers), run)
    requires var w := After(Start(n, workers), run);
             Enabled(w, a) && SlotFound(w, a) && TestsUri(w, a) && At(w, a.t).mode == ForWrite
    ensures var w := After(Start(n, workers), run);
            && Inv(Start(n, workers)) && At(w, a.t).Locking? && At(w, a.t).slot < n && |w.locks| == n
            && var uri := At(w, a.t).uri;
               HoldsUri(Next(w, a), a.t, uri, ForWrite) <==>
                 && !Held(w, uri, ForWrite) && !Held(w, uri, ForRead)
                 && (Awaited(w, uri, ForRead) ==> SlotPasses(Start(n, workers), run, At(w, a.t).slot, 0) >= 2)
  {
    hide Inv, Policies, Next, Enabled, Held, Awaited, SlotPasses, Start, HoldsUri;
    var w := After(Start(n, workers), run);
    FromStart(n, workers, run);
    TestedSlot(w, a);
    WriterGetsUri(w, a);
    SlotPassesAtMostTwo(n, workers, run, At(w, a.t).slot);
  }

  lemma StageStays(w: World, a: Action, u: Tid)
    requires Enabled(w, a) && SlotFound(w, a) && u != a.t
    ensures At(Next(w, a), u) == At(w, u)
  {
    hide R.Step, R.Enabled, Get, Return;
  }

  /** Whoever holds a URI goes on holding it while other threads move. */
  lemma HoldersStay(w: World, a: Action, u: Tid, uri: Uri, mode: Mode)
    requires Inv(w) && Enabled(w, a) && SlotFound(w, a) && u != a.t && HoldsUri(w, u, uri, mode)
    ensures HoldsUri(Next(w, a), u, uri, mode)
  {
    hide R.Step, R.Enabled, R.Inv, TableFits, PlacesFit, SessionFits, SlotAction, Next, Enabled, SlotFound;
    StageStays(w, a, u);
    var i := At(w, u).slot;
    SlotActionIs(w, a, i);
    if SlotOf(w, a) == i {
      R.StepKeepsOthers(w.locks[i], SlotAction(w, a), u);
    }
  }

  lemma SlotTestIs(w: World, a: Action)
    requires Inv(w) && Enabled(w, a) && SlotFound(w, a) && TestsUri(w, a)
    ensures At(w, a.t).Locking? && SlotOf(w, a) == At(w, a.t).slot && At(Next(w, a), a.t) == At(w, a.t)
    ensures At(w, a.t).mode == ForRead ==> E.ReaderTests(w.locks[At(w, a.t).slot], SlotAction(w, a))
    ensures At(w, a.t).mode == ForWrite ==> E.WriterTests(w.locks[At(w, a.t).slot], SlotAction(w, a))
  {
    var st := At(w, a.t);
    assert SlotRoleFits(st, st.slot, SlotRole(w, st.slot, a.t));
  }

  // Two readers of one URI

  lemma {:induction false} RunThen(w: World, run: seq<Action>, a: Action)
    requires Runs(w, run) && Enabled(After(w, run), a) && SlotFound(After(w, run), a)
    ensures Runs(w, run + [a]) && After(w, run + [a]) == Next(After(w, run), a)
    decreases |run|
  {
    hide Next, Enabled, SlotFound;
    var more := run + [a];
    if run == [] {
      assert more[1..] == [];
    } else {
      RunThen(Next(w, run[0]), run[1..], a);
      assert more[1..] == run[1..] + [a];
    }
  }

  lemma ReachedStart(n: nat, workers: set<Tid>)
    requires |workers| <= n
    ensures Reachable(Start(n, workers))
  {
    assert ReachedBy(Start(n, workers), n, workers, []);
  }

  lemma ReachedNext(w: World, a: Action)
    requires Reachable(w) && Enabled(w, a)
    ensures SlotFound(w, a) && Reachable(Next(w, a))
  {
    hide Next, Enabled, Start, SlotFound;
    var n, workers, run :| ReachedBy(w, n, workers, run);
    ReachableInv(w);
    NextKeepsInv(w, a);
    RunThen(Start(n, workers), run, a);
    assert ReachedBy(Next(w, a), n, workers, run + [a]);
  }

  function QuietLock(p: R.Priority, n: int, readers: int, writers: int, place: map<Tid, R.Place>): R.System {
    R.System(R.Counters(p, n, readers, writers, 0, 0, 0), place)
  }

  /** Worker 0 has the URI for reading, worker 1 is idle. */
  function OneReader(uri: Uri): World {
    World(QuietLock(R.READERS, 0, 0, 0, map[0 := R.Outside]),
          [QuietLock(R.N_WAY, 2, 1, 0, map[0 := R.Reading]), R.Init(R.N_WAY, 2)],
          Table([Some(uri), None], [1, 0]),
          map[0 := Locking(uri, ForRead, 0), 1 := Idle])
  }

  /** Worker 0 has a slot for the URI and still holds the job lock, worker 1 is idle. */
  function OneGot(uri: Uri): World {
    World(QuietLock(R.READERS, 0, 0, 1, map[0 := R.Writing]),
          [R.Init(R.N_WAY, 2), R.Init(R.N_WAY, 2)],
          Table([Some(uri), None], [1, 0]),
          map[0 := Got(uri, ForRead, 0), 1 := Idle])
  }

  lemma OneGotReached(uri: Uri)
    ensures Reachable(OneGot(uri))
  {
    hide Reachable;
    var w := Start(2, {0, 1});
    ReachedStart(2, {0, 1});
    ReachedNext(w, Begin(0, uri, ForRead));
    var v := World(QuietLock(R.READERS, 0, 0, 1, map[0 := R.Writing]), w.locks, w.table,
                   map[0 := Getting(uri, ForRead), 1 := Idle]);
    assert Next(w, Begin(0, uri, ForRead)) == v;
    GotFirst(v, uri);
  }

  lemma GotFirst(w: World, uri: Uri)
    requires Reachable(w) && w.stage == map[0 := Getting(uri, ForRead), 1 := Idle]
    requires w.job == OneGot(uri).job && w.table == NewTable(2) && w.locks == Start(2, {0, 1}).locks
    ensures Reachable(OneGot(uri))
  {
    hide Reachable, R.Step;
    FindFromFinds(w.table.list, uri, 0);
    assert FreeFrom(w.table.count, 0) == 0;
    ReachedNext(w, GetSlot(0));
    assert Get(w.table, uri) == Table([Some(uri), None], [1, 0]);
    assert Next(w, GetSlot(0)) == OneGot(uri);
  }

  lemma OneReaderReached(uri: Uri)
    ensures Reachable(OneReader(uri))
  {
    hide Reachable, FindFrom, FreeFrom, NewTable;
    var w := OneGot(uri);
    OneGotReached(uri);
    ReachedNext(w, LeaveJob(0));
    var v := w.(job := QuietLock(R.READERS, 0, 0, 0, map[0 := R.Outside]),
                stage := map[0 := Locking(uri, ForRead, 0), 1 := Idle]);
    assert Next(w, LeaveJob(0)) == v;
    ReachedNext(v, Enter(0));
    assert Next(v, Enter(0)) == OneReader(uri);
  }

  /** Two workers can hold one URI for reading at the same time. */
  lemma ReadersShareUri(uri: Uri) returns (w: World)
    ensures Reachable(w) && HoldsUri(w, 0, uri, ForRead) && HoldsUri(w, 1, uri, ForRead)
  {
    hide Reachable;
    OneReaderReached(uri);
    var w0 := OneReader(uri);
    ReachedNext(w0, Begin(1, uri, ForRead));
    var w1 := Next(w0, Begin(1, uri, ForRead));
    assert FindFrom(w1.table.list, uri, 0) == 0;
    ReachedNext(w1, GetSlot(1));
    var w2 := Next(w1, GetSlot(1));
    ReachedNext(w2, LeaveJob(1));
    var w3 := Next(w2, LeaveJob(1));
    ReachedNext(w3, Enter(1));
    w := Next(w3, Enter(1));
  }
}
