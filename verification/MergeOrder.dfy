/**
 What the order in which a sweep merges the logs decides: which rows arrive, and nothing else. A complete
 sweep may miss rows, but it never leaves a wrong value in one that is there.
 */
module MergeOrder {
  import opened SqlStore
  import opened Projection
  import opened Convergence
  import opened Ingestion

  // ------------------------------------------------------------------ a handler reaches its updates

  lemma {:induction false} Untouched(ss: seq<Statement>, at: RowKey)
    requires forall s <- ss :: !(s.Update? && s.at == at)
    ensures Updates(ss, at) == map[]
  {
    if ss != [] {
      assert ss[|ss| - 1] in ss;
      Untouched(ss[..|ss| - 1], at);
    }
  }

  lemma NothingAdded(columns: map<Column, Value>)
    ensures columns + map[] == columns
  {
  }

  /** Whatever stops a handler, it has updated by then every row that was there. */
  lemma RunReachesUpdates(db: Database, j: Job, at: RowKey)
    requires Shaped(j) && at in db
    ensures var ss := j.statements; Updates(ss[..Progress(db, ss, |ss|)], at) == Updates(ss, at)
  {
    hide ExecAll, Updates, Storable;
    var ss := j.statements;
    var p := Progress(db, ss, |ss|);
    assert forall k :: p < k < |ss| && ss[k].Update? && ss[k].at == at && ss[p].Insert? ==>
                         ss[p].refs <= {at} && Storable(ss[p]);
    ProgressStops(db, ss, |ss|);
    RowsNeverLeave(db, ss[..p]);
    forall s | s in ss[p..] ensures !(s.Update? && s.at == at) {
      var k :| p <= k < |ss| && ss[k] == s;
    }
    Untouched(ss[p..], at);
    assert ss == ss[..p] + ss[p..];
    UpdatesAppend(ss[..p], ss[p..], at);
    assert Updates(ss[..p], at) + map[] == Updates(ss[..p], at);
  }

  lemma OldRowRun(db: Database, j: Job, at: RowKey)
    requires Shaped(j) && at in db
    ensures var after := RunSome(db, j.statements, |j.statements|);
            at in after && after[at] == db[at].(columns := db[at].columns + Updates(j.statements, at))
  {
    hide ExecAll, Updates;
    OldRowAfter(db, j.statements[..Progress(db, j.statements, |j.statements|)], at);
    RunReachesUpdates(db, j, at);
  }

  // ------------------------------------------------------------------ an orderly list of jobs

  /** Shaped jobs of which no two insert the same row, and which update only rows inserted by earlier ones. */
  ghost predicate Orderly(jobs: seq<Job>) {
    && (forall k :: 0 <= k < |jobs| ==> Shaped(jobs[k]))
    && (forall i, k, s, t, at
          | 0 <= i < |jobs| && 0 <= k < |jobs| && InsertsAt(jobs[i], s, at) && InsertsAt(jobs[k], t, at)
          :: i == k && s == t)
    && (forall k, s :: 0 <= k < |jobs| && s in jobs[k].statements && s.Update? ==> s.at in Inserted(Flat(jobs[..k])))
  }

  lemma MergesAreOrderly(logs: Logs, jobs: seq<Job>)
    requires ChainLogs(logs) && Interleaving(jobs, logs)
    ensures Orderly(jobs)
  {
    InterleavingMembers(jobs, logs);
    hide Interleaving, Flat, Inserted, Shaped;
    forall i, k, s, t, at
      | 0 <= i < |jobs| && 0 <= k < |jobs| && InsertsAt(jobs[i], s, at) && InsertsAt(jobs[k], t, at)
      ensures i == k && s == t
    {
      assert jobs[i] in jobs && jobs[k] in jobs;
      if i < k { JobsDistinct(jobs, logs, i, k); }
      if k < i { JobsDistinct(jobs, logs, k, i); }
    }
    forall k, s | 0 <= k < |jobs| && s in jobs[k].statements && s.Update?
      ensures s.at in Inserted(Flat(jobs[..k]))
    {
      LogPosition(jobs, logs, k);
      assert Causal(logs, jobs[k].event.mod, |Of(jobs[..k], jobs[k].event.mod)|);
      EarlierInLog(jobs, logs, k, s.at);
    }
    forall k | 0 <= k < |jobs| ensures Shaped(jobs[k]) { assert jobs[k] in jobs; }
  }

  lemma OrderlyPrefix(jobs: seq<Job>)
    requires Orderly(jobs) && jobs != []
    ensures Orderly(jobs[..|jobs| - 1])
  {
    hide Shaped, Flat, Inserted;
    var front := jobs[..|jobs| - 1];
    assert forall k :: 0 <= k < |front| ==> front[k] == jobs[k] && front[..k] == jobs[..k];
  }

  /** A job that inserts a row is the only one that does, and no job so far has updated it. */
  lemma {:induction false} NoneBefore(jobs: seq<Job>, s: Statement, at: RowKey)
    requires Orderly(jobs) && jobs != [] && InsertsAt(jobs[|jobs| - 1], s, at)
    ensures at !in Inserted(Flat(jobs[..|jobs| - 1]))
    ensures Updates(jobs[|jobs| - 1].statements, at) == map[]
  {
    var n := |jobs| - 1;
    FlatInserts(jobs[..n], at);
    hide Flat, Inserted, Updates, Shaped;
    forall j, t | j in jobs[..n] ensures !InsertsAt(j, t, at) {
      var i :| 0 <= i < n && jobs[i] == j;
      assert InsertsAt(jobs[n], s, at);
    }
    Untouched(jobs[n].statements, at);
  }

  lemma {:induction false} NotYetInserted(jobs: seq<Job>, at: RowKey)
    requires Orderly(jobs) && at !in Inserted(Flat(jobs))
    ensures Updates(Flat(jobs), at) == map[]
  {
    if jobs != [] {
      var n := |jobs| - 1;
      OrderlyPrefix(jobs);
      InsertedAppend(Flat(jobs[..n]), jobs[n].statements);
      hide Shaped;
      NotYetInserted(jobs[..n], at);
      UpdatesAppend(Flat(jobs[..n]), jobs[n].statements, at);
      hide Inserted, Updates;
      Untouched(jobs[n].statements, at);
      NothingAdded(map[]);
    }
  }

  // ------------------------------------------------------------------ no wrong value

  /** A row that was there takes every update of the sweep, whatever the sweep is refused. */
  lemma {:induction false} OldRowSwept(db: Database, jobs: seq<Job>, at: RowKey)
    requires (forall j <- jobs :: Shaped(j)) && at in db
    ensures at in Sweep(db, jobs)
    ensures Sweep(db, jobs)[at] == db[at].(columns := db[at].columns + Updates(Flat(jobs), at))
  {
    if jobs == [] {
      assert db[at].columns + map[] == db[at].columns;
    } else {
      var n := |jobs| - 1;
      assert jobs[n] in jobs;
      OldRowSwept(db, jobs[..n], at);
      SweepLast(db, jobs);
      UpdatesAppend(Flat(jobs[..n]), jobs[n].statements, at);
      hide Shaped, Sweep, RunSome, Updates;
      OldRowRun(Sweep(db, jobs[..n]), jobs[n], at);
      AddedTwice(db[at].columns, Updates(Flat(jobs[..n]), at), Updates(jobs[n].statements, at));
    }
  }

  lemma AddedTwice(a: map<Column, Value>, b: map<Column, Value>, c: map<Column, Value>)
    ensures (a + b) + c == a + (b + c)
  {
  }

  /** How a row arrives that was not there. */
  lemma ArrivingRow(db: Database, j: Job, at: RowKey) returns (s: Statement)
    requires at !in db && at in RunSome(db, j.statements, |j.statements|)
    ensures InsertsAt(j, s, at)
    ensures Updates(j.statements, at) == map[] ==> RunSome(db, j.statements, |j.statements|)[at] == s.row
  {
    var ss := j.statements;
    var p := Progress(db, ss, |ss|);
    s := ArrivesBy(db, ss[..p], at);
    assert ss == ss[..p] + ss[p..];
    UpdatesAppend(ss[..p], ss[p..], at);
    if Updates(ss, at) == map[] { EmptyParts(Updates(ss[..p], at), Updates(ss[p..], at)); }
  }

  lemma EmptyParts(a: map<Column, Value>, b: map<Column, Value>)
    requires a + b == map[]
    ensures a == map[] && b == map[]
  {
    assert a.Keys + b.Keys == (a + b).Keys;
  }

  lemma {:induction false} ArrivesBy(db: Database, ss: seq<Statement>, at: RowKey) returns (s: Statement)
    requires at !in db && at in ExecAll(db, ss)
    ensures s in ss && s.Insert? && s.at == at
    ensures Updates(ss, at) == map[] ==> ExecAll(db, ss)[at] == s.row
  {
    var n := |ss| - 1;
    assert ss[n] in ss;
    if at in ExecAll(db, ss[..n]) {
      s := ArrivesBy(db, ss[..n], at);
      if Updates(ss, at) == map[] && ss[n].Update? && ss[n].at == at {
        EmptyParts(Updates(ss[..n], at), ss[n].changes);
        assert ExecAll(db, ss[..n])[at].columns + map[] == ExecAll(db, ss[..n])[at].columns;
      }
    } else {
      s := ss[n];
    }
  }

  lemma {:induction false} FirstInsertAppend(a: seq<Statement>, b: seq<Statement>, at: RowKey)
    requires at in Inserted(a)
    ensures at in Inserted(a + b) && FirstInsert(a + b, at) == FirstInsert(a, at)
  {
    if b == [] {
      assert a + b == a;
    } else {
      var n := |b| - 1;
      FirstInsertAppend(a, b[..n], at);
      assert (a + b)[..|a| + n] == a + b[..n];
      InsertedAppend(a, b);
    }
  }

  /** The reference row takes one more job as an old row does. */
  lemma ProjectedOneMore(a: seq<Statement>, b: seq<Statement>, at: RowKey)
    requires at in Inserted(a)
    ensures at in Inserted(a + b)
    ensures ProjectedRow(a + b, at) == ProjectedRow(a, at).(columns := ProjectedRow(a, at).columns + Updates(b, at))
  {
    FirstInsertAppend(a, b, at);
    UpdatesAppend(a, b, at);
    hide FirstInsert, Updates, Inserted;
    AddedTwice(FirstInsert(a, at).columns, Updates(a, at), Updates(b, at));
  }

  lemma ProjectedOnArrival(jobs: seq<Job>, s: Statement, at: RowKey)
    requires Orderly(jobs) && jobs != [] && InsertsAt(jobs[|jobs| - 1], s, at)
    ensures at in Inserted(Flat(jobs)) && ProjectedRow(Flat(jobs), at) == s.row
    ensures Updates(jobs[|jobs| - 1].statements, at) == map[]
  {
    var n := |jobs| - 1;
    assert jobs[n] in jobs;
    FlatInserts(jobs, at);
    var j, t := FirstWriter(jobs, at);
    var i :| 0 <= i < |jobs| && jobs[i] == j;
    assert s == t;
    OrderlyPrefix(jobs);
    NoneBefore(jobs, s, at);
    NotYetInserted(jobs[..n], at);
    UpdatesAppend(Flat(jobs[..n]), jobs[n].statements, at);
    hide Shaped, Inserted, FirstInsert, Updates;
    NothingAdded(map[]);
    NothingAdded(s.row.columns);
  }

  /** A row that the sweep brings is the reference row, whatever else the sweep is refused. */
  lemma {:induction false} NewRowSwept(db: Database, jobs: seq<Job>, at: RowKey)
    requires Orderly(jobs) && at !in db && at in Sweep(db, jobs)
    ensures at in Inserted(Flat(jobs)) && Sweep(db, jobs)[at] == ProjectedRow(Flat(jobs), at)
  {
    var n := |jobs| - 1;
    var front, last, here := Flat(jobs[..n]), jobs[n], Sweep(db, jobs[..n]);
    OrderlyPrefix(jobs);
    SweepLast(db, jobs);
    assert Flat(jobs) == front + last.statements;
    assert Shaped(last);
    hide Orderly, Shaped, Sweep, RunSome, Flat, Inserted, ProjectedRow, Updates;
    if at in here {
      NewRowSwept(db, jobs[..n], at);
      OldRowRun(here, last, at);
      ProjectedOneMore(front, last.statements, at);
    } else {
      var s := ArrivingRow(here, last, at);
      ProjectedOnArrival(jobs, s, at);
    }
  }

  /**
   Safety of a complete sweep, resolved or not: from any tables that earlier runs can have left, each
   row it ends with is the reference row. All that an order of merging can do is to miss rows.
   */
  lemma SweptRowsAreRight(db: Database, logs: Logs, jobs: seq<Job>, at: RowKey)
    requires ChainLogs(logs) && Interleaving(jobs, logs) && Sound(db, logs) && at in Sweep(db, jobs)
    ensures at in Projected(jobs) && Sweep(db, jobs)[at] == Projected(jobs)[at]
  {
    MergesAreOrderly(logs, jobs);
    InterleavingMembers(jobs, logs);
    hide Interleaving, Flat, Sweep, Inserted, FirstInsert, Updates, Shaped;
    if at in db {
      assert SoundRow(db, at, logs);
      assert forall j <- jobs :: Shaped(j);
      hide ChainLogs, SoundRow, Orderly;
      OldRowSwept(db, jobs, at);
      ColumnsConverge(db, logs, jobs, at);
      SourceConverges(db, logs, jobs, at);
    } else {
      NewRowSwept(db, jobs, at);
    }
  }

  // ------------------------------------------------------------------ which rows arrive

  /** The statement takes effect on tables that have these rows. */
  predicate Passes(known: set<RowKey>, s: Statement) {
    s.Insert? ==> Storable(s) && (s.at in known || s.refs <= known)
  }

  /** The rows that are there after a handler, told from references and texts alone. */
  function Reached(known: set<RowKey>, ss: seq<Statement>, cut: nat): set<RowKey>
    decreases |ss|
  {
    if ss == [] || cut == 0 || !Passes(known, ss[0]) then known
    else Reached(if ss[0].Insert? then known + {ss[0].at} else known, ss[1..], cut - 1)
  }

  function KnownAfter(known: set<RowKey>, history: seq<Occurrence>): set<RowKey> {
    if history == [] then known
    else
      var last := history[|history| - 1];
      Reached(KnownAfter(known, history[..|history| - 1]), last.job.statements, last.cut)
  }

  /** The rows that a sweep leaves, read off the order of its jobs. */
  function KnownSwept(known: set<RowKey>, jobs: seq<Job>): set<RowKey> {
    if jobs == [] then known
    else
      var last := jobs[|jobs| - 1];
      Reached(KnownSwept(known, jobs[..|jobs| - 1]), last.statements, |last.statements|)
  }

  lemma RefusedAtOnce(db: Database, ss: seq<Statement>, cut: nat)
    requires ss == [] || cut == 0 || !Accepts(db, ss[0])
    ensures RunSome(db, ss, cut) == db
  {
    hide Accepts;
    assert ExecAll(db, ss[..0]) == db;
    assert AllAccepted(db, ss[..0]);
    ProgressIs(db, ss, cut, 0);
  }

  lemma {:induction false} RunKeys(db: Database, ss: seq<Statement>, cut: nat)
    ensures RunSome(db, ss, cut).Keys == Reached(db.Keys, ss, cut)
    decreases |ss|
  {
    assert ss != [] ==> (Accepts(db, ss[0]) <==> Passes(db.Keys, ss[0]));
    hide RunSome, Storable;
    if ss == [] || cut == 0 || !Accepts(db, ss[0]) {
      RefusedAtOnce(db, ss, cut);
    } else {
      assert ss == [ss[0]] + ss[1..];
      RunSomeCons(db, ss[0], ss[1..], cut);
      RunKeys(Exec(db, ss[0]), ss[1..], cut - 1);
      ExecKeys(db, ss[0]);
    }
  }

  lemma ExecKeys(db: Database, s: Statement)
    requires Accepts(db, s)
    ensures Exec(db, s).Keys == if s.Insert? then db.Keys + {s.at} else db.Keys
  {
    hide Storable;
  }

  lemma {:induction false} ReplayKeys(db: Database, history: seq<Occurrence>)
    ensures Replay(db, history).Keys == KnownAfter(db.Keys, history)
  {
    if history != [] {
      hide RunSome, Reached;
      var n := |history| - 1;
      ReplayKeys(db, history[..n]);
      RunKeys(Replay(db, history[..n]), history[n].job.statements, history[n].cut);
    }
  }

  lemma {:induction false} SweepKeys(db: Database, jobs: seq<Job>)
    ensures Sweep(db, jobs).Keys == KnownSwept(db.Keys, jobs)
  {
    if jobs != [] {
      hide RunSome, Reached;
      var n := |jobs| - 1;
      SweepKeys(db, jobs[..n]);
      RunKeys(Sweep(db, jobs[..n]), jobs[n].statements, |jobs[n].statements|);
    }
  }

  // ------------------------------------------------------------------ when two merges agree

  /**
   Confluence with its exact condition. Whatever came before on either side, two merges of the same
   logs end in the same tables if and only if they bring the same rows; and which rows these are is
   told in advance by the order, the references and the texts.
   */
  lemma ConfluenceIff(logs: Logs, historyA: seq<Occurrence>, a: seq<Job>, historyB: seq<Occurrence>, b: seq<Job>)
    requires ChainLogs(logs) && Interleaving(a, logs) && Interleaving(b, logs)
    requires forall o :: o in historyA || o in historyB ==> InLogs(o.job, logs)
    ensures Sweep(Replay(map[], historyA), a) == Sweep(Replay(map[], historyB), b)
       <==> KnownSwept(KnownAfter({}, historyA), a) == KnownSwept(KnownAfter({}, historyB), b)
  {
    var none: Database := map[];
    assert none.Keys == {};
    hide *;
    var x, y := Replay(map[], historyA), Replay(map[], historyB);
    NothingIsSound(logs);
    EveryHistoryIsSound(map[], logs, historyA);
    EveryHistoryIsSound(map[], logs, historyB);
    ProjectionIsUnique(a, b, logs);
    forall at | at in Sweep(x, a) ensures at in Projected(a) && Sweep(x, a)[at] == Projected(a)[at] {
      SweptRowsAreRight(x, logs, a, at);
    }
    forall at | at in Sweep(y, b) ensures at in Projected(b) && Sweep(y, b)[at] == Projected(b)[at] {
      SweptRowsAreRight(y, logs, b, at);
    }
    ReplayKeys(map[], historyA);
    ReplayKeys(map[], historyB);
    SweepKeys(x, a);
    SweepKeys(y, b);
    assert Sweep(x, a).Keys == Sweep(y, b).Keys ==> Sweep(x, a) == Sweep(y, b);
  }
}
