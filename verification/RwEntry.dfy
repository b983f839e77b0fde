/** Who is let in by the reader-writer lock, and who has to sleep, said in terms of
    what the other threads do. */
module RwEntry {
  import opened RwLock

  /** Some thread stands at the lock in role r. */
  ghost predicate Someone(s: System, r: Role) {
    exists u: Tid :: RoleOf(At(s, u)) == r
  }

  lemma CountMeansSomeone(s: System, r: Role)
    requires r != R_Outside
    ensures Someone(s, r) <==> |Those(s.place, r)| > 0
  {
    if u :| RoleOf(At(s, u)) == r {
      Present(s.place, u);
    }
    if |Those(s.place, r)| > 0 {
      var u := AnyOf(s.place, r);
      assert RoleOf(At(s, u)) == r;
    }
  }

  lemma CountsMeanSomeone(s: System)
    requires Counted(s)
    ensures s.c.activeReaders > 0 <==> Someone(s, R_Reading)
    ensures s.c.activeWriters > 0 <==> Someone(s, R_Writing)
    ensures s.c.waitingReaders > 0 <==> Someone(s, R_WaitRead)
    ensures s.c.waitingWriters > 0 <==> Someone(s, R_WaitWrite)
  {
    CountMeansSomeone(s, R_Reading);
    CountMeansSomeone(s, R_Writing);
    CountMeansSomeone(s, R_WaitRead);
    CountMeansSomeone(s, R_WaitWrite);
  }

  /** The step is a reader's test of its condition. */
  predicate ReaderTests(s: System, a: Action) {
    a.ReaderLock? || (a.Retry? && At(s, a.t).WaitRead?)
  }

  predicate WriterTests(s: System, a: Action) {
    a.WriterLock? || (a.Retry? && At(s, a.t).WaitWrite?)
  }

  /** A reader gets in exactly if nobody writes and, under WRITERS, nobody waits to
      write; under N_WAY writers that wait keep it out only after N passes.
      Otherwise it sleeps. */
  lemma ReaderEntersIff(s: System, a: Action)
    requires Inv(s) && Enabled(s, a) && ReaderTests(s, a)
    ensures At(Step(s, a), a.t) == Reading <==>
              && !Someone(s, R_Writing)
              && match s.c.priority
                 case READERS => true
                 case WRITERS => !Someone(s, R_WaitWrite)
                 case N_WAY => Someone(s, R_WaitWrite) ==> s.c.readersSinceLastWrite < s.c.N
    ensures At(Step(s, a), a.t) != Reading ==> At(Step(s, a), a.t) == WaitRead(false)
  {
    CountsMeanSomeone(s);
  }

  /** A writer gets in exactly if nobody reads or writes and, under READERS, nobody
      waits to read; under N_WAY readers that wait keep it out only before N passes.
      Otherwise it sleeps. */
  lemma WriterEntersIff(s: System, a: Action)
    requires Inv(s) && Enabled(s, a) && WriterTests(s, a)
    ensures At(Step(s, a), a.t) == Writing <==>
              && !Someone(s, R_Writing) && !Someone(s, R_Reading)
              && match s.c.priority
                 case READERS => !Someone(s, R_WaitRead)
                 case WRITERS => true
                 case N_WAY => Someone(s, R_WaitRead) ==> s.c.readersSinceLastWrite >= s.c.N
    ensures At(Step(s, a), a.t) != Writing ==> At(Step(s, a), a.t) == WaitWrite(false)
  {
    CountsMeanSomeone(s);
  }

  /** Readers share the lock: while nobody writes or waits to write, whoever comes
      to read gets in, under every policy, and whoever reads goes on reading. */
  lemma ReadersShare(s: System, t: Tid)
    requires Inv(s) && At(s, t) == Outside && !Someone(s, R_Writing) && !Someone(s, R_WaitWrite)
    ensures At(Step(s, ReaderLock(t)), t) == Reading
    ensures forall u :: At(s, u) == Reading ==> At(Step(s, ReaderLock(t)), u) == Reading
  {
    ReaderEntersIff(s, ReaderLock(t));
  }

  /** The same for N_WAY over runs: the quota counts the readers that have passed a
      waiting writer since the last writer_unlock. */
  lemma ReaderEntersAfter(n: int, run: seq<Action>, a: Action)
    requires Runs(Init(N_WAY, n), run) && Enabled(After(Init(N_WAY, n), run), a)
    requires ReaderTests(After(Init(N_WAY, n), run), a)
    ensures var s := After(Init(N_WAY, n), run);
            At(Step(s, a), a.t) == Reading <==>
              && !Someone(s, R_Writing)
              && (Someone(s, R_WaitWrite) ==> PassesSinceRelease(Init(N_WAY, n), run, 0) < n)
  {
    hide Step, Enabled, Inv;
    InitInv(N_WAY, n);
    RunKeepsInv(Init(N_WAY, n), run);
    QuotaCounts(Init(N_WAY, n), run);
    ReaderEntersIff(After(Init(N_WAY, n), run), a);
  }

  lemma WriterEntersAfter(n: int, run: seq<Action>, a: Action)
    requires Runs(Init(N_WAY, n), run) && Enabled(After(Init(N_WAY, n), run), a)
    requires WriterTests(After(Init(N_WAY, n), run), a)
    ensures var s := After(Init(N_WAY, n), run);
            At(Step(s, a), a.t) == Writing <==>
              && !Someone(s, R_Writing) && !Someone(s, R_Reading)
              && (Someone(s, R_WaitRead) ==> PassesSinceRelease(Init(N_WAY, n), run, 0) >= n)
  {
    hide Step, Enabled, Inv;
    InitInv(N_WAY, n);
    RunKeepsInv(Init(N_WAY, n), run);
    QuotaCounts(Init(N_WAY, n), run);
    WriterEntersIff(After(Init(N_WAY, n), run), a);
  }

  /** What the other threads notice of a step: nothing, unless it is an unlock,
      which wakes everyone who sleeps. */
  lemma OthersNotice(s: System, a: Action, u: Tid)
    requires Inv(s) && Enabled(s, a) && u != a.t
    ensures At(Step(s, a), u) == if a.ReaderUnlock? || a.WriterUnlock? then Awakened(At(s, u)) else At(s, u)
  {
    if u in s.place && Waits(s.place[u]) {
      Present(s.place, u);
    }
  }

  /** An unlock puts its own thread outside. */
  lemma UnlockLeaves(s: System, a: Action)
    requires Enabled(s, a) && (a.ReaderUnlock? || a.WriterUnlock?)
    ensures At(Step(s, a), a.t) == Outside
  {
  }
}
