/**
 Whole histories of the indexer, process by process, and what its readers see while a restarted process
 reads the logs again.
 */
module Restarts {
  import opened Common
  import opened Events
  import opened SqlStore
  import opened Projection
  import opened Convergence
  import opened Handlers
  import opened TableContents
  import opened Ingestion
  import opened Incarnations

  // ------------------------------------------------------------------ one life after the other

  /** The tables after several lives, each processing its events on top of what the ones before left. */
  function AfterLives(base: Database, lives: seq<seq<Handled>>): Database {
    if lives == [] then base else Tables(AfterLives(base, lives[..|lives| - 1]), lives[|lives| - 1])
  }

  function Together(lives: seq<seq<Handled>>): seq<Handled> {
    if lives == [] then [] else Together(lives[..|lives| - 1]) + lives[|lives| - 1]
  }

  lemma {:induction false} TablesAppend(base: Database, a: seq<Handled>, b: seq<Handled>)
    ensures Tables(base, a + b) == Tables(Tables(base, a), b)
  {
    hide RunSome, JobOf;
    if b == [] {
      assert a + b == a && Occurrences([]) == [];
    } else {
      var n := |b| - 1;
      TablesAppend(base, a, b[..n]);
      assert a + b == (a + b[..n]) + [b[n]] && b == b[..n] + [b[n]];
      hide Tables;
      TablesStep(base, a + b[..n], b[n]);
      TablesStep(Tables(base, a), b[..n], b[n]);
    }
  }

  lemma {:induction false} LivesTogether(base: Database, lives: seq<seq<Handled>>)
    ensures AfterLives(base, lives) == Tables(base, Together(lives))
  {
    if lives == [] {
      assert Occurrences([]) == [];
    } else {
      hide Tables;
      LivesTogether(base, lives[..|lives| - 1]);
      TablesAppend(base, Together(lives[..|lives| - 1]), lives[|lives| - 1]);
    }
  }

  lemma {:induction false} LivesSplit(base: Database, lives: seq<seq<Handled>>, k: nat)
    requires k <= |lives|
    ensures AfterLives(base, lives) == AfterLives(AfterLives(base, lives[..k]), lives[k..])
  {
    hide Tables;
    if k == |lives| {
      assert lives[..k] == lives;
    } else {
      var n := |lives| - 1;
      LivesSplit(base, lives[..n], k);
      assert lives[..n][..k] == lives[..k] && lives[..n][k..] == lives[k..][..n - k];
    }
  }

  ghost predicate AllFromLogs(logs: EventLogs, lives: seq<seq<Handled>>) {
    forall k :: 0 <= k < |lives| ==> FromLogs(logs, lives[k])
  }

  lemma {:induction false} TogetherFromLogs(logs: EventLogs, lives: seq<seq<Handled>>)
    requires AllFromLogs(logs, lives)
    ensures FromLogs(logs, Together(lives))
  {
    if lives != [] { TogetherFromLogs(logs, lives[..|lives| - 1]); }
  }

  /** The lives before one of them, that one, those between it and the last, and the last. */
  lemma FourStages(base: Database, lives: seq<seq<Handled>>, a: nat)
    requires a < |lives| - 1
    ensures AfterLives(base, lives)
         == var past, between, last := lives[..a], lives[a + 1..|lives| - 1], lives[|lives| - 1];
            Tables(Tables(Tables(Tables(base, Together(past)), lives[a]), Together(between)), last)
  {
    hide *;
    var z := |lives| - 1;
    var past, between := lives[..a], lives[a + 1..z];
    LastLife(base, lives);
    LivesSplit(base, lives[..z], a + 1);
    assert lives[..z][..a + 1] == past + [lives[a]] && lives[..z][a + 1..] == between;
    LastLife(base, past + [lives[a]]);
    assert (past + [lives[a]])[..a] == past;
    LivesTogether(base, past);
    LivesTogether(Tables(Tables(base, Together(past)), lives[a]), between);
  }

  /** Two full sweeps among the lives, the second of them last, and the tables are the reference. */
  lemma TwoFullLives(logs: EventLogs, lives: seq<seq<Handled>>, a: nat)
    requires ChainEvents(logs) && AllFromLogs(logs, lives) && a < |lives| - 1
    requires FullSweep(logs, lives[a]) && FullSweep(logs, lives[|lives| - 1])
    ensures AfterLives(map[], lives) == Projected(Jobs(EventsOf(lives[|lives| - 1]))) <==> CleanEvents(logs)
  {
    hide *;
    var z := |lives| - 1;
    var past, between := lives[..a], lives[a + 1..z];
    FourStages(map[], lives, a);
    SomeFromLogs(logs, lives, past);
    SomeFromLogs(logs, lives, between);
    TwoIncarnationsConverge(logs, Together(past), lives[a], Together(between), lives[z]);
  }

  lemma LastLife(base: Database, lives: seq<seq<Handled>>)
    requires lives != []
    ensures AfterLives(base, lives) == Tables(AfterLives(base, lives[..|lives| - 1]), lives[|lives| - 1])
  {
  }

  lemma SomeFromLogs(logs: EventLogs, lives: seq<seq<Handled>>, some: seq<seq<Handled>>)
    requires AllFromLogs(logs, lives) && forall life <- some :: life in lives
    ensures FromLogs(logs, Together(some))
  {
    forall k | 0 <= k < |some| ensures FromLogs(logs, some[k]) {
      assert some[k] in some;
      var i :| 0 <= i < |lives| && lives[i] == some[k];
    }
    TogetherFromLogs(logs, some);
  }

  lemma PartialIsFromLogs(logs: EventLogs, done: seq<Handled>)
    requires PartialSweep(logs, done)
    ensures FromLogs(logs, done)
  {
    forall h | h in done ensures InEvents(h.event, logs) {
      var i :| 0 <= i < |done| && done[i] == h;
      assert EventsOf(done)[i] == h.event;
      SelectMembers(EventsOf(done), h.event.mod, h.event);
      assert Select(EventsOf(done), h.event.mod) <= logs(h.event.mod);
    }
  }

  lemma CompleteIsFullSweep(logs: EventLogs, replies: seq<Reply>, cursors: Cursors, done: seq<Handled>)
    requires CompleteLife(logs, replies) && Swept(logs, cursors, done) && done == RunDone(logs, replies)
    requires forall m :: After(logs(m), cursors[m]) == Position(logs, replies, m)
    ensures FullSweep(logs, done)
  {
    hide RunDone, Position, Survives, Select, After;
    forall m ensures Select(EventsOf(done), m) == logs(m) {
      assert logs(m)[..After(logs(m), cursors[m])] == logs(m);
    }
  }

  /**
   The indexer's whole history: a new process on empty tables, then restart after restart, each process
   running until its environment ends it or stops answering. After a complete life that is not the
   first complete one, the tables are the reference if and only if no user's words hold the byte 0.
   */
  method Live(logs: EventLogs, lives: seq<seq<Reply>>) returns (ix: Indexer)
    requires ChainEvents(logs)
    ensures ix.Valid()
    ensures forall a, jobs ::
              && 0 <= a < |lives| - 1 && CompleteLife(logs, lives[a]) && CompleteLife(logs, lives[|lives| - 1])
              && Interleaving(jobs, LogsOf(logs))
              ==> (ix.db == Projected(jobs) <==> CleanEvents(logs))
  {
    hide ChainEvents, CompleteLife, FullSweep, Interleaving, Projected, LogsOf, Feed, Swept, PartialSweep, FromLogs;
    hide AfterLives, Tables, RunDone, Position, Survives, After;
    ChainIsFeed(logs);
    ix := new Indexer();
    ghost var all: seq<seq<Handled>> := [];
    NoLives(logs);
    for i := 0 to |lives|
      invariant ix.Valid() && fresh(ix) && |all| == i
      invariant ix.base == ix.db && ix.done == [] && forall m: Module :: m in ix.cursors && ix.cursors[m] == None
      invariant ix.db == AfterLives(map[], all) && AllFromLogs(logs, all)
      invariant forall k :: 0 <= k < i && CompleteLife(logs, lives[k]) ==> FullSweep(logs, all[k])
    {
      var alive := ix.Run(logs, lives[i]);
      OneLife(logs, lives[i], ix.cursors, ix.done, alive);
      ghost var now := all + [ix.done];
      LastLife(map[], now);
      assert now[..i] == all;
      all := now;
      ix.Restart();
    }
    forall a, jobs
      | && 0 <= a < |lives| - 1 && CompleteLife(logs, lives[a]) && CompleteLife(logs, lives[|lives| - 1])
        && Interleaving(jobs, LogsOf(logs))
      ensures ix.db == Projected(jobs) <==> CleanEvents(logs)
    {
      TwoFullLives(logs, all, a);
      SweepIsInterleaving(logs, all[|all| - 1]);
      ChainEventsAreChainLogs(logs);
      ProjectionIsUnique(jobs, Jobs(EventsOf(all[|all| - 1])), LogsOf(logs));
    }
  }

  lemma NoLives(logs: EventLogs)
    ensures AfterLives(map[], []) == map[] && AllFromLogs(logs, [])
  {
  }

  lemma OneLife(logs: EventLogs, replies: seq<Reply>, cursors: Cursors, done: seq<Handled>, alive: bool)
    requires PartialSweep(logs, done) && (alive <==> Survives(logs, replies))
    requires alive ==> Swept(logs, cursors, done) && done == RunDone(logs, replies)
    requires alive ==> forall m :: After(logs(m), cursors[m]) == Position(logs, replies, m)
    ensures FromLogs(logs, done) && (CompleteLife(logs, replies) ==> FullSweep(logs, done))
  {
    hide FullSweep, FromLogs, PartialSweep, Swept, RunDone, Position, Survives, After;
    PartialIsFromLogs(logs, done);
    if CompleteLife(logs, replies) { CompleteIsFullSweep(logs, replies, cursors, done); }
  }

  // ------------------------------------------------------------------ what readers see during a re-read

  /** Events that a process has read since it started: per module a prefix of the log, in any merge. */
  ghost predicate ReadSoFar(logs: EventLogs, read: seq<Event>) {
    forall m :: Select(read, m) <= logs(m)
  }

  ghost predicate FullRead(logs: EventLogs, read: seq<Event>) {
    forall m :: Select(read, m) == logs(m)
  }

  /** The tables are sound, as every reachable state is, and equal to the reference. */
  ghost predicate Settled(db: Database, logs: EventLogs, jobs: seq<Job>) {
    && Interleaving(jobs, LogsOf(logs))
    && Sound(db, LogsOf(logs)) && db == Projected(jobs)
  }

  /** Statements whose rows are all in place are all accepted. */
  lemma {:induction false} InPlaceIsAccepted(db: Database, ss: seq<Statement>)
    requires forall s <- ss :: s.Insert? ==> s.at in db && Storable(s)
    ensures AllAccepted(db, ss)
  {
    hide AllAccepted, ExecAll, Storable;
    if ss != [] {
      var n := |ss| - 1;
      assert ss[n] in ss && forall s <- ss[..n] :: s in ss;
      InPlaceIsAccepted(db, ss[..n]);
      RowsNeverLeave(db, ss[..n]);
      AcceptedOneMore(db, ss);
    } else {
      NothingRefused(db);
    }
  }

  lemma SettledIsStorable(db: Database, logs: EventLogs, jobs: seq<Job>)
    requires ChainEvents(logs) && Settled(db, logs, jobs)
    ensures AllStorable(LogsOf(logs))
  {
    hide ChainEvents, ChainLogs, Sound, Projected, LogsOf;
    ChainEventsAreChainLogs(logs);
    if !AllStorable(LogsOf(logs)) { UnstorableLeavesAGap(db, LogsOf(logs), jobs); }
  }

  lemma ReadFromLogs(logs: EventLogs, read: seq<Event>, e: Event)
    requires ReadSoFar(logs, read) && e in read
    ensures InEvents(e, logs)
  {
    SelectMembers(read, e.mod, e);
    assert Select(read, e.mod) <= logs(e.mod);
  }

  /** A settled table refuses nothing of a re-read. */
  lemma RereadIsAccepted(db: Database, logs: EventLogs, jobs: seq<Job>, read: seq<Event>)
    requires ChainEvents(logs) && Settled(db, logs, jobs) && ReadSoFar(logs, read)
    ensures AllAccepted(db, Flat(Jobs(read)))
  {
    SettledIsStorable(db, logs, jobs);
    InterleavingMembers(jobs, LogsOf(logs));
    hide ChainEvents, LogsOf, Interleaving, ReadSoFar, Storable, Sound, Flat, Inserted, JobOf, ProjectedRow;
    var ss := Flat(Jobs(read));
    forall s | s in ss && s.Insert? ensures s.at in db && Storable(s) {
      FlatMembers(Jobs(read), s);
      var j :| j in Jobs(read) && s in j.statements;
      JobsMembers(read, j);
      ReadFromLogs(logs, read, j.event);
      InLogsOf(j, logs);
      assert InsertsAt(j, s, s.at) && j in jobs;
      FlatInserts(jobs, s.at);
    }
    InPlaceIsAccepted(db, ss);
  }

  lemma UpdatesOfRead(logs: EventLogs, read: seq<Event>, at: RowKey)
    requires ChainEvents(logs) && ReadSoFar(logs, read)
    ensures Updates(Flat(Jobs(read)), at) == Updates(Flat(Jobs(Select(read, Owner(at)))), at)
  {
    ChainEventsAreChainLogs(logs);
    hide ChainEvents, ReadSoFar, Flat, Updates, JobOf, Select, Shaped, LogsOf;
    forall j | j in Jobs(read) ensures Shaped(j) {
      JobsMembers(read, j);
      ReadFromLogs(logs, read, j.event);
      InLogsOf(j, logs);
      assert j in LogsOf(logs)(j.event.mod);
    }
    OwnerUpdates(Jobs(read), at);
    OfJobs(read, Owner(at));
  }

  /**
   While a restarted process re-reads, a mutable column shows the last value that the part of its own
   log read so far gives it, and its final value as long as that part gives it none.
   */
  lemma ColumnDuringReread(db: Database, logs: EventLogs, jobs: seq<Job>, read: seq<Event>, at: RowKey, c: Column)
    requires ChainEvents(logs) && Settled(db, logs, jobs) && ReadSoFar(logs, read)
    requires at in db && c in db[at].columns
    ensures var now := Sweep(db, Jobs(read));
            var v := LastSet(Select(read, Owner(at)), at, c);
            && at in now && c in now[at].columns && now[at].source == db[at].source
            && now[at].columns[c] == if v.Some? then v.value else db[at].columns[c]
  {
    hide ChainEvents, Settled, ReadSoFar, Flat, Updates, JobOf, Select, LastSet, AllAccepted, Sweep, ExecAll;
    RereadIsAccepted(db, logs, jobs, read);
    SweepIsScript(db, Jobs(read));
    OldRowAfter(db, Flat(Jobs(read)), at);
    UpdatesOfRead(logs, read, at);
    LogUpdates(Select(read, Owner(at)), at, c);
  }

  lemma {:induction false} SelectReaches(events: seq<Event>, m: Module, n: nat) returns (k: nat)
    requires n <= |Select(events, m)|
    ensures k <= |events| && Select(events[..k], m) == Select(events, m)[..n]
  {
    if n == |Select(events, m)| {
      k := |events|;
      assert events[..k] == events && Select(events, m)[..n] == Select(events, m);
    } else {
      var front := events[..|events| - 1];
      k := SelectReaches(front, m, n);
      assert front[..k] == events[..k];
      assert Select(front, m)[..n] == Select(events, m)[..n];
    }
  }

  lemma {:induction false} SelectOfPrefix(events: seq<Event>, m: Module, k: nat)
    requires k <= |events|
    ensures Select(events[..k], m) <= Select(events, m)
  {
    if k == |events| {
      assert events[..k] == events;
    } else {
      var front := events[..|events| - 1];
      SelectOfPrefix(front, m, k);
      assert front[..k] == events[..k];
    }
  }

  lemma {:induction false} LastSetIsSet(events: seq<Event>, at: RowKey, c: Column)
    requires LastSet(events, at, c).Some?
    ensures exists e <- events :: Sets(e, at, c) == LastSet(events, at, c)
  {
    hide Sets;
    var n := |events| - 1;
    assert events[n] in events;
    if Sets(events[n], at, c).None? { LastSetIsSet(events[..n], at, c); }
  }

  lemma LastSetOfLast(events: seq<Event>, i: nat, at: RowKey, c: Column)
    requires i < |events| && Sets(events[i], at, c).Some?
    ensures LastSet(events[..i + 1], at, c) == Sets(events[i], at, c)
  {
    hide Sets;
  }

  lemma PrefixIsReadSoFar(logs: EventLogs, read: seq<Event>, k: nat)
    requires FullRead(logs, read) && k <= |read|
    ensures ReadSoFar(logs, read[..k])
  {
    forall m ensures Select(read[..k], m) <= logs(m) { SelectOfPrefix(read, m, k); }
  }

  /** At every point of the re-read the column shows its final value. */
  ghost predicate NeverRewinds(db: Database, read: seq<Event>, at: RowKey, c: Column)
    requires at in db && c in db[at].columns
  {
    forall k :: 0 <= k <= |read| ==>
      var now := Sweep(db, Jobs(read[..k]));
      at in now && c in now[at].columns && now[at].columns[c] == db[at].columns[c]
  }

  /**
   A re-read of settled tables, however it merges the logs, is harmless to a column, no point of it
   showing another value, if and only if every event that sets the column sets its final value.
   */
  lemma RereadIsHarmlessIff(db: Database, logs: EventLogs, jobs: seq<Job>, read: seq<Event>, at: RowKey, c: Column)
    requires ChainEvents(logs) && Settled(db, logs, jobs) && FullRead(logs, read)
    requires at in db && c in db[at].columns
    ensures NeverRewinds(db, read, at, c)
       <==> forall e <- logs(Owner(at)) :: Sets(e, at, c).Some? ==> Sets(e, at, c).value == db[at].columns[c]
  {
    hide ChainEvents, Settled, ReadSoFar, Sweep, LastSet, Sets, Select;
    var log := logs(Owner(at));
    if NeverRewinds(db, read, at, c) {
      forall e | e in log && Sets(e, at, c).Some? ensures Sets(e, at, c).value == db[at].columns[c] {
        var i :| 0 <= i < |log| && log[i] == e;
        var k := SelectReaches(read, Owner(at), i + 1);
        PrefixIsReadSoFar(logs, read, k);
        ColumnDuringReread(db, logs, jobs, read[..k], at, c);
        LastSetOfLast(log, i, at, c);
      }
    }
    if forall e <- log :: Sets(e, at, c).Some? ==> Sets(e, at, c).value == db[at].columns[c] {
      forall k | 0 <= k <= |read|
        ensures var now := Sweep(db, Jobs(read[..k]));
                at in now && c in now[at].columns && now[at].columns[c] == db[at].columns[c]
      {
        PrefixIsReadSoFar(logs, read, k);
        ColumnDuringReread(db, logs, jobs, read[..k], at, c);
        SelectOfPrefix(read, Owner(at), k);
        var part := Select(read[..k], Owner(at));
        if LastSet(part, at, c).Some? {
          LastSetIsSet(part, at, c);
          var e :| e in part && Sets(e, at, c) == LastSet(part, at, c);
          assert e in log;
        }
      }
    }
  }
}
