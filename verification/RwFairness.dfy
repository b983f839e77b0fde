/** Which policies of the reader-writer lock keep either side from being passed
    without bound.  The repository's documentation promises this for all three;
    the code keeps it for N_WAY with a positive quota only. */
module RwFairness {
  import opened RwLock

  ghost predicate ReachedFrom(s: System, p: Priority, n: int) {
    exists run :: ReachedBy(s, p, n, run)
  }

  /** How many readers pass a waiting writer in the run. */
  function ReaderPassCount(s: System, run: seq<Action>): nat
    decreases |run|
  {
    if run == [] then 0
    else (if ReaderPasses(s, run[0]) then 1 else 0) + ReaderPassCount(Step(s, run[0]), run[1..])
  }

  /** How many writers pass a waiting reader in the run. */
  function WriterPassCount(s: System, run: seq<Action>): nat
    decreases |run|
  {
    if run == [] then 0
    else (if WriterPasses(s, run[0]) then 1 else 0) + WriterPassCount(Step(s, run[0]), run[1..])
  }

  /** No writer leaves during the run. */
  predicate NoRelease(run: seq<Action>) {
    run == [] || (!run[0].WriterUnlock? && NoRelease(run[1..]))
  }

  /** No reader gets in during the run. */
  predicate NoReaderIn(s: System, run: seq<Action>)
    decreases |run|
  {
    run == [] || (!ReaderGetsIn(s, run[0]) && NoReaderIn(Step(s, run[0]), run[1..]))
  }

  /** At most B readers pass a waiting writer before a writer gets its turn and
      leaves, wherever one starts to count. */
  ghost predicate ReadersPassAtMost(p: Priority, n: int, B: nat) {
    forall s, run :: ReachedFrom(s, p, n) && Runs(s, run) && NoRelease(run) ==> ReaderPassCount(s, run) <= B
  }

  /** At most B writers pass a waiting reader before a reader gets its turn. */
  ghost predicate WritersPassAtMost(p: Priority, n: int, B: nat) {
    forall s, run :: ReachedFrom(s, p, n) && Runs(s, run) && NoReaderIn(s, run) ==> WriterPassCount(s, run) <= B
  }

  // Upper bounds

  lemma {:induction false} RunKeepsPolicy(s: System, run: seq<Action>)
    ensures After(s, run).c.priority == s.c.priority && After(s, run).c.N == s.c.N
    decreases |run|
  {
    if run != [] {
      RunKeepsPolicy(Step(s, run[0]), run[1..]);
    }
  }

  lemma ReachedInv(s: System, p: Priority, n: int)
    requires ReachedFrom(s, p, n)
    ensures Inv(s) && s.c.priority == p && s.c.N == n
  {
    var run :| ReachedBy(s, p, n, run);
    InitInv(p, n);
    RunKeepsInv(Init(p, n), run);
    RunKeepsPolicy(Init(p, n), run);
  }

  lemma ReaderPassUsesQuota(s: System, a: Action)
    requires Inv(s) && Enabled(s, a) && !a.WriterUnlock? && s.c.priority != READERS
    ensures s.c.readersSinceLastWrite + (if ReaderPasses(s, a) then 1 else 0) <= Step(s, a).c.readersSinceLastWrite
    ensures Quota(Step(s, a).c) == Quota(s.c) && Step(s, a).c.priority == s.c.priority
  {
    hide Counted, SleepersMustWait;
  }

  lemma {:induction false} ReaderPassBound(s: System, run: seq<Action>)
    requires Inv(s) && Runs(s, run) && NoRelease(run) && s.c.priority != READERS
    ensures s.c.readersSinceLastWrite + ReaderPassCount(s, run) <= Quota(s.c)
    decreases |run|
  {
    assert WithinQuota(s.c);
    hide Inv, Step, Enabled, ReaderPasses, Quota;
    if run != [] {
      StepKeepsInv(s, run[0]);
      ReaderPassUsesQuota(s, run[0]);
      ReaderPassBound(Step(s, run[0]), run[1..]);
    }
  }

  /** What is left to a writer before readers get their turn again. */
  function WriterTurns(c: Counters): nat {
    if c.activeWriters == 0 && c.readersSinceLastWrite >= c.N then 1 else 0
  }

  lemma {:induction false} WriterPassBound(s: System, run: seq<Action>)
    requires Inv(s) && Runs(s, run) && NoReaderIn(s, run)
    requires s.c.priority == READERS || (s.c.priority == N_WAY && s.c.N > 0)
    ensures WriterPassCount(s, run) <= if s.c.priority == READERS then 0 else WriterTurns(s.c)
    decreases |run|
  {
    if run != [] {
      StepKeepsInv(s, run[0]);
      WriterPassBound(Step(s, run[0]), run[1..]);
    }
  }

  // Runs in which one side is passed again and again

  function Again(a: Action, b: Action, k: nat): seq<Action> {
    if k == 0 then [] else [a, b] + Again(a, b, k - 1)
  }

  /** Two steps that lead back to where they started can be taken for ever. */
  lemma {:induction false} Loop(s: System, a: Action, b: Action, k: nat)
    requires Enabled(s, a) && Enabled(Step(s, a), b) && Step(Step(s, a), b) == s
    ensures Runs(s, Again(a, b, k))
    ensures ReaderPasses(s, a) ==> ReaderPassCount(s, Again(a, b, k)) >= k
    ensures WriterPasses(Step(s, a), b) ==> WriterPassCount(s, Again(a, b, k)) >= k
    ensures !a.WriterUnlock? && !b.WriterUnlock? ==> NoRelease(Again(a, b, k))
    ensures !ReaderGetsIn(s, a) && !ReaderGetsIn(Step(s, a), b) ==> NoReaderIn(s, Again(a, b, k))
  {
    if k > 0 {
      Loop(s, a, b, k - 1);
      var run := Again(a, b, k);
      assert run[1..] == [b] + Again(a, b, k - 1);
      assert run[1..][1..] == Again(a, b, k - 1);
    }
  }

  lemma {:induction false} RunThen(s: System, run: seq<Action>, a: Action)
    requires Runs(s, run) && Enabled(After(s, run), a)
    ensures Runs(s, run + [a]) && After(s, run + [a]) == Step(After(s, run), a)
    decreases |run|
  {
    var more := run + [a];
    if run == [] {
      assert more[1..] == [];
    } else {
      RunThen(Step(s, run[0]), run[1..], a);
      assert more[1..] == run[1..] + [a];
    }
  }

  lemma ReachedInit(p: Priority, n: int)
    ensures ReachedFrom(Init(p, n), p, n)
  {
    assert ReachedBy(Init(p, n), p, n, []);
  }

  /** One step further. */
  lemma ReachedStep(s: System, p: Priority, n: int, a: Action)
    requires ReachedFrom(s, p, n) && Enabled(s, a)
    ensures ReachedFrom(Step(s, a), p, n)
  {
    hide Step, Enabled, Init;
    var run :| ReachedBy(s, p, n, run);
    RunThen(Init(p, n), run, a);
    assert ReachedBy(Step(s, a), p, n, run + [a]);
  }

  /** READERS: thread 0 reads, thread 1 waits to write, and thread 2 may come. */
  function CrowdedByReaders(n: int): System {
    System(Counters(READERS, n, 1, 0, 0, 1, 0), map[0 := Reading, 1 := WaitWrite(true), 2 := Outside])
  }

  lemma CrowdedByReadersReached(n: int)
    ensures ReachedFrom(CrowdedByReaders(n), READERS, n)
  {
    var s0 := Init(READERS, n);
    var s1 := Step(s0, ReaderLock(0));
    assert s1 == System(Counters(READERS, n, 1, 0, 0, 0, 0), map[0 := Reading]);
    var s2 := Step(s1, WriterLock(1));
    assert s2 == System(Counters(READERS, n, 1, 0, 0, 1, 0), map[0 := Reading, 1 := WaitWrite(false)]);
    var s3 := Step(s2, Wake(1));
    assert s3 == System(Counters(READERS, n, 1, 0, 0, 1, 0), map[0 := Reading, 1 := WaitWrite(true)]);
    var s4 := Step(s3, ReaderLock(2));
    var s5 := Step(s4, ReaderUnlock(2));
    assert s5 == CrowdedByReaders(n);
    hide Step, ReachedFrom;
    ReachedInit(READERS, n);
    ReachedStep(s0, READERS, n, ReaderLock(0));
    ReachedStep(s1, READERS, n, WriterLock(1));
    ReachedStep(s2, READERS, n, Wake(1));
    ReachedStep(s3, READERS, n, ReaderLock(2));
    ReachedStep(s4, READERS, n, ReaderUnlock(2));
  }

  lemma ReaderRound(n: int)
    ensures var s, a, b := CrowdedByReaders(n), ReaderLock(2), ReaderUnlock(2);
            Enabled(s, a) && Enabled(Step(s, a), b) && Step(Step(s, a), b) == s && ReaderPasses(s, a)
  {
    var s := CrowdedByReaders(n);
    assert Step(Step(s, ReaderLock(2)), ReaderUnlock(2)).place == s.place;
  }

  /** READERS: while thread 0 reads and thread 1 waits to write, thread 2 may come
      and go as often as it likes. */
  lemma ReadersOvertakeForever(n: int, k: nat) returns (s: System, run: seq<Action>)
    ensures ReachedFrom(s, READERS, n) && Runs(s, run) && NoRelease(run) && ReaderPassCount(s, run) >= k
  {
    hide Step, Enabled, ReaderPasses, ReachedFrom;
    s := CrowdedByReaders(n);
    CrowdedByReadersReached(n);
    ReaderRound(n);
    Loop(s, ReaderLock(2), ReaderUnlock(2), k);
    run := Again(ReaderLock(2), ReaderUnlock(2), k);
  }

  /** Thread 0 writes, and thread 1 waits to read. */
  function CrowdedByWriters(p: Priority, n: int): System {
    System(Counters(p, n, 0, 1, 1, 0, 0), map[0 := Writing, 1 := WaitRead(true)])
  }

  lemma CrowdedByWritersReached(p: Priority, n: int)
    ensures ReachedFrom(CrowdedByWriters(p, n), p, n)
  {
    var s0 := Init(p, n);
    var s1 := Step(s0, WriterLock(0));
    assert s1 == System(Counters(p, n, 0, 1, 0, 0, 0), map[0 := Writing]);
    var s2 := Step(s1, ReaderLock(1));
    assert s2 == System(Counters(p, n, 0, 1, 1, 0, 0), map[0 := Writing, 1 := WaitRead(false)]);
    var s3 := Step(s2, Wake(1));
    assert s3 == CrowdedByWriters(p, n);
    hide Step, ReachedFrom;
    ReachedInit(p, n);
    ReachedStep(s0, p, n, WriterLock(0));
    ReachedStep(s1, p, n, ReaderLock(1));
    ReachedStep(s2, p, n, Wake(1));
  }

  lemma WriterRound(p: Priority, n: int)
    requires p == WRITERS || (p == N_WAY && n <= 0)
    ensures var s, a, b := CrowdedByWriters(p, n), WriterUnlock(0), WriterLock(0);
            && Enabled(s, a) && Enabled(Step(s, a), b) && Step(Step(s, a), b) == s && WriterPasses(Step(s, a), b)
            && !ReaderGetsIn(s, a) && !ReaderGetsIn(Step(s, a), b)
  {
    var s := CrowdedByWriters(p, n);
    assert Step(Step(s, WriterUnlock(0)), WriterLock(0)).place == s.place;
  }

  /** WRITERS, and N_WAY without a quota: while thread 1 waits to read, thread 0 may
      write again and again. */
  lemma WritersOvertakeForever(p: Priority, n: int, k: nat) returns (s: System, run: seq<Action>)
    requires p == WRITERS || (p == N_WAY && n <= 0)
    ensures ReachedFrom(s, p, n) && Runs(s, run) && NoReaderIn(s, run) && WriterPassCount(s, run) >= k
  {
    hide Step, Enabled, WriterPasses, ReaderGetsIn, ReachedFrom;
    s := CrowdedByWriters(p, n);
    CrowdedByWritersReached(p, n);
    WriterRound(p, n);
    Loop(s, WriterUnlock(0), WriterLock(0), k);
    run := Again(WriterUnlock(0), WriterLock(0), k);
  }

  // The two theorems

  /** Readers can pass a waiting writer without bound exactly under READERS. */
  lemma ReadersPassBoundedIff(p: Priority, n: int)
    ensures (exists B: nat :: ReadersPassAtMost(p, n, B)) <==> p != READERS
  {
    if p != READERS {
      var B: nat := if n > 0 then n else 0;
      forall s, run | ReachedFrom(s, p, n) && Runs(s, run) && NoRelease(run)
        ensures ReaderPassCount(s, run) <= B
      {
        ReachedInv(s, p, n);
        ReaderPassBound(s, run);
      }
      assert ReadersPassAtMost(p, n, B);
    } else {
      forall B: nat ensures !ReadersPassAtMost(p, n, B) {
        var s, run := ReadersOvertakeForever(n, B + 1);
      }
    }
  }

  /** Writers can pass a waiting reader without bound exactly under WRITERS and
      under N_WAY with a quota that is not positive. */
  lemma WritersPassBoundedIff(p: Priority, n: int)
    ensures (exists B: nat :: WritersPassAtMost(p, n, B)) <==> p == READERS || (p == N_WAY && n > 0)
  {
    if p == READERS || (p == N_WAY && n > 0) {
      forall s, run | ReachedFrom(s, p, n) && Runs(s, run) && NoReaderIn(s, run)
        ensures WriterPassCount(s, run) <= 1
      {
        ReachedInv(s, p, n);
        WriterPassBound(s, run);
      }
      assert WritersPassAtMost(p, n, 1);
    } else {
      forall B: nat ensures !WritersPassAtMost(p, n, B) {
        var s, run := WritersOvertakeForever(p, n, B + 1);
      }
    }
  }

  /** Both sides are protected exactly by N_WAY with a positive quota. */
  lemma TwoSidedIff(p: Priority, n: int)
    ensures (exists B: nat :: ReadersPassAtMost(p, n, B)) && (exists B: nat :: WritersPassAtMost(p, n, B))
            <==> p == N_WAY && n > 0
  {
    ReadersPassBoundedIff(p, n);
    WritersPassBoundedIff(p, n);
  }
}
