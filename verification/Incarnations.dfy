/** The convergence theorems said of the indexer's own runs: incarnations, restarts and backfills. */
module Incarnations {
  import opened Common
  import opened Decimal
  import opened Events
  import opened SqlStore
  import opened Projection
  import opened Convergence
  import opened Handlers
  import opened Ingestion

  /** An incarnation that has read all five logs and whose handlers all ran to their last statement. */
  ghost predicate FullSweep(logs: EventLogs, done: seq<Handled>) {
    && (forall m :: Select(EventsOf(done), m) == logs(m))
    && (forall h <- done :: RanToEnd(h))
  }

  ghost predicate FromLogs(logs: EventLogs, done: seq<Handled>) {
    forall h <- done :: InEvents(h.event, logs)
  }

  lemma {:induction false} ProgressBeyondEnd(db: Database, ss: seq<Statement>, cut: nat)
    requires cut >= |ss|
    ensures Progress(db, ss, cut) == Progress(db, ss, |ss|)
  {
    ProgressStops(db, ss, |ss|);
    ProgressIs(db, ss, cut, Progress(db, ss, |ss|));
  }

  lemma {:induction false} FullCutsAreASweep(base: Database, done: seq<Handled>)
    requires forall h <- done :: RanToEnd(h)
    ensures Tables(base, done) == Sweep(base, Jobs(EventsOf(done)))
  {
    hide JobOf, RunSome;
    if done == [] {
      assert Occurrences(done) == [] && Jobs(EventsOf(done)) == [];
    } else {
      var n := |done| - 1;
      assert done == done[..n] + [done[n]];
      TablesStep(base, done[..n], done[n]);
      FullCutsAreASweep(base, done[..n]);
      assert Jobs(EventsOf(done))[..n] == Jobs(EventsOf(done[..n]));
      FullRunIsLast(Tables(base, done[..n]), done[n]);
    }
  }

  lemma FullRunIsLast(db: Database, h: Handled)
    requires RanToEnd(h)
    ensures RunSome(db, JobOf(h.event).statements, h.cut)
         == RunSome(db, JobOf(h.event).statements, |JobOf(h.event).statements|)
  {
    hide JobOf;
    ProgressBeyondEnd(db, JobOf(h.event).statements, h.cut);
  }

  lemma {:induction false} OfJobs(events: seq<Event>, m: Module)
    ensures Of(Jobs(events), m) == Jobs(Select(events, m))
  {
    hide JobOf;
    if events == [] {
      assert Jobs(events) == [] && Jobs(Select(events, m)) == [];
    } else {
      var n := |events| - 1;
      assert Jobs(events)[..n] == Jobs(events[..n]);
      OfJobs(events[..n], m);
      EventOfJob(events[n]);
      assert Jobs(Select(events[..n], m) + [events[n]]) == Jobs(Select(events[..n], m)) + [JobOf(events[n])];
    }
  }

  lemma JobsMembers(events: seq<Event>, j: Job)
    ensures j in Jobs(events) ==> j.event in events && j == JobOf(j.event)
    ensures j.event in events && j == JobOf(j.event) ==> j in Jobs(events)
  {
    hide HandlerStatements;
    if i :| 0 <= i < |events| && Jobs(events)[i] == j {
      assert events[i] in events;
    }
    if i :| 0 <= i < |events| && events[i] == j.event && j == JobOf(j.event) {
      assert Jobs(events)[i] == j;
    }
  }

  lemma ChainIsFeed(logs: EventLogs)
    requires ChainEvents(logs)
    ensures Feed(logs)
  {
    hide CreatedFirst, NothingDangles, FreshIds;
    forall m, x, y | 0 <= x < y < |logs(m)| ensures logs(m)[x].id != logs(m)[y].id {
      assert KeyOf(logs(m)[x]) != KeyOf(logs(m)[y]);
    }
  }

  lemma {:induction false} SelectMembers(events: seq<Event>, m: Module, e: Event)
    ensures e in Select(events, m) <==> e in events && e.mod == m
  {
    if events != [] {
      var n := |events| - 1;
      SelectMembers(events[..n], m, e);
      assert events == events[..n] + [events[n]];
    }
  }

  lemma SweepIsInterleaving(logs: EventLogs, done: seq<Handled>)
    requires FullSweep(logs, done)
    ensures Interleaving(Jobs(EventsOf(done)), LogsOf(logs))
  {
    hide Jobs, EventsOf;
    forall m ensures Of(Jobs(EventsOf(done)), m) == LogsOf(logs)(m) { OfJobs(EventsOf(done), m); }
  }

  lemma OccurrencesInLogs(logs: EventLogs, done: seq<Handled>)
    requires FromLogs(logs, done)
    ensures forall o <- Occurrences(done) :: InLogs(o.job, LogsOf(logs))
  {
    hide JobOf, LogsOf;
    forall o | o in Occurrences(done) ensures InLogs(o.job, LogsOf(logs)) {
      var i :| 0 <= i < |done| && Occurrences(done)[i] == o;
      assert done[i] in done;
      EventOfJob(done[i].event);
      InLogsOf(o.job, logs);
    }
  }

  /**
   After any past of earlier incarnations, an incarnation that reads all five logs with every handler
   running to its end leaves the tables equal to the reference projection if and only if every asset,
   pool and dispute a row references was in the tables when it started or was created earlier in it.
   */
  lemma IncarnationConverges(logs: EventLogs, past: seq<Handled>, done: seq<Handled>)
    requires ChainEvents(logs) && FromLogs(logs, past) && FullSweep(logs, done)
    ensures var base := Tables(map[], past);
            var jobs := Jobs(EventsOf(done));
            Tables(base, done) == Projected(jobs) <==> Resolved(base.Keys, Flat(jobs))
  {
    hide ChainEvents, ChainLogs, Resolved, Projected;
    ChainEventsAreChainLogs(logs);
    SweepIsInterleaving(logs, done);
    OccurrencesInLogs(logs, past);
    SweepConverges(LogsOf(logs), Occurrences(past), Jobs(EventsOf(done)));
    FullCutsAreASweep(Tables(map[], past), done);
  }

  /**
   Exactly-once effect from at-least-once delivery: once two incarnations have read all five logs with
   every handler running as far as the database lets it, the tables are the reference projection,
   whatever crashes, failures and partial sweeps came before the first and between the two, if and only
   if no user's words hold a byte that a text column cannot.
   */
  lemma TwoIncarnationsConverge(logs: EventLogs, past: seq<Handled>, first: seq<Handled>, between: seq<Handled>,
                                second: seq<Handled>)
    requires ChainEvents(logs) && FromLogs(logs, past) && FromLogs(logs, between)
    requires FullSweep(logs, first) && FullSweep(logs, second)
    ensures Tables(Tables(Tables(Tables(map[], past), first), between), second) == Projected(Jobs(EventsOf(second)))
       <==> CleanEvents(logs)
  {
    hide *;
    ChainEventsAreChainLogs(logs);
    CleanLogsAreStorable(logs);
    ReplayedTables(map[], past);
    SweepIsInterleaving(logs, first);
    SweepIsInterleaving(logs, second);
    OccurrencesInLogs(logs, past);
    OccurrencesInLogs(logs, between);
    var one, two := Jobs(EventsOf(first)), Jobs(EventsOf(second));
    TwoSweepsConverge(LogsOf(logs), Occurrences(past), one, Occurrences(between), two);
    SweptTables(logs, Tables(map[], past), first);
    ReplayedTables(Tables(Tables(map[], past), first), between);
    SweptTables(logs, Tables(Tables(Tables(map[], past), first), between), second);
  }

  lemma SweptTables(logs: EventLogs, base: Database, done: seq<Handled>)
    requires FullSweep(logs, done)
    ensures Tables(base, done) == Sweep(base, Jobs(EventsOf(done)))
  {
    FullCutsAreASweep(base, done);
  }

  lemma ReplayedTables(base: Database, done: seq<Handled>)
    ensures Tables(base, done) == Replay(base, Occurrences(done))
  {
  }

  // ------------------------------------------------------------------ what a restart shows

  /** Once written, an append-only row never changes again, whatever is replayed. */
  lemma {:induction false} AppendOnlyRowsStay(db: Database, logs: Logs, history: seq<Occurrence>, at: RowKey)
    requires ChainLogs(logs) && at in db && at.EventRow?
    requires forall o <- history :: InLogs(o.job, logs)
    ensures at in Replay(db, history) && Replay(db, history)[at] == db[at]
  {
    if history != [] {
      var n := |history| - 1;
      AppendOnlyRowsStay(db, logs, history[..n], at);
      var here, last := Replay(db, history[..n]), history[n];
      var ss := last.job.statements[..Progress(here, last.job.statements, last.cut)];
      assert InLogs(last.job, logs) && Shaped(last.job);
      OldRowAfter(here, ss, at);
      NoUpdates(last.job, ss, at);
      assert here[at].columns + map[] == here[at].columns;
    }
  }

  lemma {:induction false} NoUpdates(j: Job, ss: seq<Statement>, at: RowKey)
    requires Shaped(j) && at.EventRow? && forall s <- ss :: s in j.statements
    ensures Updates(ss, at) == map[]
  {
    if ss != [] {
      var n := |ss| - 1;
      assert ss[n] in ss && ShapedStatement(j.event, ss[n]);
      NoUpdates(j, ss[..n], at);
    }
  }

  /**
   A mutable column does go back: replaying a state change after a restart shows that old state again,
   until the replay reaches the last one.
   */
  lemma RestartRewindsState(db: Database, e: Event, asset: Text, state: byte)
    requires e.payload.AssetFeed? && e.payload.asset.AssetStateChanged?
    requires e.payload.asset.assetId == asset && e.payload.asset.newState == state
    requires AssetRow(asset) in db
    ensures var after := RunSome(db, JobOf(e).statements, |JobOf(e).statements|);
            && AssetRow(asset) in after
            && after[AssetRow(asset)].source == db[AssetRow(asset)].source
            && after[AssetRow(asset)].columns == db[AssetRow(asset)].columns[CurrentState := Num(state)]
  {
    var archive, row, change := Log(e, RawEvents, {}), Log(e, AssetStateChanges, {AssetRow(asset)}),
                                Update(AssetRow(asset), map[CurrentState := Num(state)]);
    assert JobOf(e).statements == [archive, row, change];
    ThreeAccepted(db, archive, row, change);
  }

  lemma ThreeAccepted(db: Database, a: Statement, b: Statement, c: Statement)
    requires Accepts(db, a) && Accepts(Exec(db, a), b) && Accepts(Exec(Exec(db, a), b), c)
    ensures RunSome(db, [a, b, c], 3) == Exec(Exec(Exec(db, a), b), c)
  {
    assert [a, b, c] == [a] + ([b] + ([c] + []));
    RunSomeCons(db, a, [b] + ([c] + []), 3);
    RunSomeCons(Exec(db, a), b, [c] + [], 2);
    RunSomeCons(Exec(Exec(db, a), b), c, [], 1);
  }

  // ------------------------------------------------------------------ the idempotency key

  /**
   Two event ids of one transaction share an idempotency key exactly when each of their sequence
   numbers is 0 or too large for an i32, so the second event is taken for a duplicate. This is what the
   parser does with such numbers; whether a transaction can carry one is not said.
   */
  lemma KeyCollisions(d: Event, e: Event, x: nat, y: nat)
    requires d.id == EventId(e.id.txDigest, Print(x)) && e.id.eventSeq == Print(y) && x != y
    ensures KeyOf(d) == KeyOf(e) <==> (x == 0 || x > I32_MAX) && (y == 0 || y > I32_MAX)
  {
    ParsePrint(x, I32_MIN, if x > I32_MAX then x else I32_MAX);
    ParsePrint(y, I32_MIN, if y > I32_MAX then y else I32_MAX);
  }

  /** The event that comes second under a key already archived leaves no trace in the archive. */
  lemma CollidingEventIsNotArchived(db: Database, d: Event, e: Event)
    requires KeyOf(d) == KeyOf(e) && d != e
    ensures var at := EventRow(RawEvents, KeyOf(e));
            var one := RunSome(db, JobOf(d).statements, 1);
            var two := RunSome(one, JobOf(e).statements, 1);
            two == one && at in two && (at !in db ==> two[at].source == d)
  {
    RunSomeCons(db, Log(d, RawEvents, {}), HandlerStatements(d), 1);
    RunSomeCons(Exec(db, Log(d, RawEvents, {})), Log(e, RawEvents, {}), HandlerStatements(e), 1);
  }
}
