/** At-least-once delivery, crashes and foreign keys against the reference projection. */
module Convergence {
  import opened Events
  import opened SqlStore
  import opened Projection

  // ------------------------------------------------------------------ statement sequences

  lemma InsertedAppend(a: seq<Statement>, b: seq<Statement>)
    ensures Inserted(a + b) == Inserted(a) + Inserted(b)
  {
    forall at ensures at in Inserted(a + b) <==> at in Inserted(a) || at in Inserted(b) {
      if at in Inserted(a) {
        var s :| s in a && s.Insert? && s.at == at;
        assert s in a + b;
      }
      if at in Inserted(b) {
        var s :| s in b && s.Insert? && s.at == at;
        assert s in a + b;
      }
    }
  }

  lemma InsertedLast(ss: seq<Statement>)
    requires ss != []
    ensures var n := |ss| - 1;
            Inserted(ss) == Inserted(ss[..n]) + if ss[n].Insert? then {ss[n].at} else {}
  {
    var n := |ss| - 1;
    assert ss == ss[..n] + [ss[n]];
    InsertedAppend(ss[..n], [ss[n]]);
  }

  lemma {:induction false} UpdatesAppend(a: seq<Statement>, b: seq<Statement>, at: RowKey)
    ensures Updates(a + b, at) == Updates(a, at) + Updates(b, at)
  {
    if b == [] {
      assert a + b == a;
    } else {
      var n := |b| - 1;
      assert (a + b)[..|a| + n] == a + b[..n];
      UpdatesAppend(a, b[..n], at);
    }
  }

  lemma {:induction false} ExecAllAppend(db: Database, a: seq<Statement>, b: seq<Statement>)
    ensures ExecAll(db, a + b) == ExecAll(ExecAll(db, a), b)
  {
    if b == [] {
      assert a + b == a;
    } else {
      var n := |b| - 1;
      assert (a + b)[..|a| + n] == a + b[..n];
      ExecAllAppend(db, a, b[..n]);
    }
  }

  lemma AcceptedAppend(db: Database, a: seq<Statement>, b: seq<Statement>)
    requires AllAccepted(db, a) && AllAccepted(ExecAll(db, a), b)
    ensures AllAccepted(db, a + b)
  {
    forall i | 0 <= i < |a + b| ensures Accepts(ExecAll(db, (a + b)[..i]), (a + b)[i]) {
      if i < |a| {
        assert (a + b)[..i] == a[..i];
      } else {
        assert (a + b)[..i] == a + b[..i - |a|];
        ExecAllAppend(db, a, b[..i - |a|]);
      }
    }
  }

  lemma AcceptedSplit(db: Database, a: seq<Statement>, b: seq<Statement>)
    requires AllAccepted(db, a + b)
    ensures AllAccepted(db, a) && AllAccepted(ExecAll(db, a), b)
  {
    forall i | 0 <= i < |a| ensures Accepts(ExecAll(db, a[..i]), a[i]) {
      assert (a + b)[..i] == a[..i] && (a + b)[i] == a[i];
    }
    forall i | 0 <= i < |b| ensures Accepts(ExecAll(ExecAll(db, a), b[..i]), b[i]) {
      assert (a + b)[..|a| + i] == a + b[..i] && (a + b)[|a| + i] == b[i];
      ExecAllAppend(db, a, b[..i]);
    }
  }

  lemma AcceptedPrefix(db: Database, ss: seq<Statement>, n: nat)
    requires AllAccepted(db, ss) && n <= |ss|
    ensures AllAccepted(db, ss[..n])
  {
    assert ss == ss[..n] + ss[n..];
    AcceptedSplit(db, ss[..n], ss[n..]);
  }

  /** A fully accepted handler takes full effect; anything less shows a rejected statement. */
  lemma FullRun(db: Database, ss: seq<Statement>)
    ensures AllAccepted(db, ss) <==> Progress(db, ss, |ss|) == |ss|
    ensures AllAccepted(db, ss) ==> RunSome(db, ss, |ss|) == ExecAll(db, ss)
  {
    var p := Progress(db, ss, |ss|);
    ProgressStops(db, ss, |ss|);
    if p == |ss| { assert ss[..p] == ss; }
  }

  // ------------------------------------------------------------------ rows after a run

  lemma {:induction false} RowsNeverLeave(db: Database, ss: seq<Statement>)
    ensures db.Keys <= ExecAll(db, ss).Keys
  {
    if ss != [] { RowsNeverLeave(db, ss[..|ss| - 1]); }
  }

  lemma {:induction false} KeysAfter(db: Database, ss: seq<Statement>)
    ensures ExecAll(db, ss).Keys <= db.Keys + Inserted(ss)
    ensures AllAccepted(db, ss) ==> ExecAll(db, ss).Keys == db.Keys + Inserted(ss)
  {
    if ss != [] {
      var n := |ss| - 1;
      KeysAfter(db, ss[..n]);
      InsertedLast(ss);
      if AllAccepted(db, ss) { AcceptedPrefix(db, ss, n); }
    }
  }

  /** A row that was there keeps its source; its columns end at their last writer. */
  lemma {:induction false} OldRowAfter(db: Database, ss: seq<Statement>, at: RowKey)
    requires at in db
    ensures at in ExecAll(db, ss)
    ensures ExecAll(db, ss)[at] == db[at].(columns := db[at].columns + Updates(ss, at))
  {
    if ss == [] {
      assert db[at].columns + map[] == db[at].columns;
    } else {
      var n := |ss| - 1;
      OldRowAfter(db, ss[..n], at);
      var c := db[at].columns;
      if ss[n].Update? && ss[n].at == at {
        assert c + (Updates(ss[..n], at) + ss[n].changes) == (c + Updates(ss[..n], at)) + ss[n].changes;
      }
    }
  }

  predicate InsertedBeforeUpdated(ss: seq<Statement>) {
    forall i :: 0 <= i < |ss| && ss[i].Update? ==> ss[i].at in Inserted(ss[..i])
  }

  lemma {:induction false} NoUpdateWithoutInsert(ss: seq<Statement>, at: RowKey)
    requires InsertedBeforeUpdated(ss) && at !in Inserted(ss)
    ensures Updates(ss, at) == map[]
  {
    if ss != [] {
      var n := |ss| - 1;
      InsertedLast(ss);
      assert forall i :: 0 <= i < n ==> ss[..n][..i] == ss[..i];
      NoUpdateWithoutInsert(ss[..n], at);
    }
  }

  /** What one statement makes of a row that is there. */
  function Touched(row: Row, s: Statement, at: RowKey): Row {
    if s.Update? && s.at == at then row.(columns := row.columns + s.changes) else row
  }

  /** The reference row grows with one more statement just as the stored row does. */
  lemma ProjectedTouched(ss: seq<Statement>, at: RowKey)
    requires ss != [] && at in Inserted(ss[..|ss| - 1])
    ensures at in Inserted(ss) && ProjectedRow(ss, at) == Touched(ProjectedRow(ss[..|ss| - 1], at), ss[|ss| - 1], at)
  {
    var n := |ss| - 1;
    InsertedLast(ss);
    if ss[n].Update? && ss[n].at == at {
      var c := FirstInsert(ss[..n], at).columns;
      assert c + (Updates(ss[..n], at) + ss[n].changes) == (c + Updates(ss[..n], at)) + ss[n].changes;
    }
  }

  lemma ProjectedArrives(ss: seq<Statement>, at: RowKey)
    requires ss != [] && at in Inserted(ss) && at !in Inserted(ss[..|ss| - 1]) && InsertedBeforeUpdated(ss[..|ss| - 1])
    ensures var s := ss[|ss| - 1]; s.Insert? && s.at == at && ProjectedRow(ss, at) == s.row
  {
    var n := |ss| - 1;
    InsertedLast(ss);
    NoUpdateWithoutInsert(ss[..n], at);
    assert ss[n].row.columns + map[] == ss[n].row.columns;
  }

  lemma ExecTouches(db: Database, s: Statement, at: RowKey)
    requires at in db
    ensures at in Exec(db, s) && Exec(db, s)[at] == Touched(db[at], s, at)
  {
  }

  lemma InsertingStep(db: Database, s: Statement)
    requires s.Insert? && s.at !in db && Accepts(db, s)
    ensures s.at in Exec(db, s) && Exec(db, s)[s.at] == s.row
  {
  }

  lemma ExecAllLast(db: Database, ss: seq<Statement>)
    requires ss != []
    ensures ExecAll(db, ss) == Exec(ExecAll(db, ss[..|ss| - 1]), ss[|ss| - 1])
  {
  }

  /** A row that was not there ends exactly as the reference says. */
  lemma {:induction false} NewRowAfter(db: Database, ss: seq<Statement>, at: RowKey)
    requires at !in db && at in Inserted(ss)
    requires AllAccepted(db, ss) && InsertedBeforeUpdated(ss)
    ensures at in ExecAll(db, ss) && ExecAll(db, ss)[at] == ProjectedRow(ss, at)
  {
    var n := |ss| - 1;
    InsertedLast(ss);
    hide ProjectedRow, Updates, Inserted, AllAccepted, InsertedBeforeUpdated, ExecAll, Exec, Accepts, Touched;
    NewRowPrefix(db, ss);
    ExecAllLast(db, ss);
    var before := ExecAll(db, ss[..n]);
    if at in Inserted(ss[..n]) {
      NewRowAfter(db, ss[..n], at);
      ProjectedTouched(ss, at);
      ExecTouches(before, ss[n], at);
    } else {
      ProjectedArrives(ss, at);
      InsertingStep(before, ss[n]);
    }
  }

  lemma NewRowPrefix(db: Database, ss: seq<Statement>)
    requires ss != [] && AllAccepted(db, ss) && InsertedBeforeUpdated(ss)
    ensures var n := |ss| - 1;
            && AllAccepted(db, ss[..n]) && InsertedBeforeUpdated(ss[..n])
            && ExecAll(db, ss[..n]).Keys == db.Keys + Inserted(ss[..n])
            && Accepts(ExecAll(db, ss[..n]), ss[n])
  {
    var n := |ss| - 1;
    AcceptedPrefix(db, ss, n);
    assert forall i :: 0 <= i < n ==> ss[..n][..i] == ss[..i];
    KeysAfter(db, ss[..n]);
  }

  predicate Writes(s: Statement, at: RowKey, c: Column) {
    s.Update? && s.at == at && c in s.changes
  }

  /** Last write wins: a column ends at the value of the last update that writes it. */
  lemma {:induction false} LastWriterWins(ss: seq<Statement>, at: RowKey, c: Column, i: nat)
    requires i < |ss| && Writes(ss[i], at, c)
    requires forall k :: i < k < |ss| ==> !Writes(ss[k], at, c)
    ensures c in Updates(ss, at) && Updates(ss, at)[c] == ss[i].changes[c]
  {
    var n := |ss| - 1;
    if i < n {
      assert forall k :: i < k < n ==> !Writes(ss[..n][k], at, c);
      LastWriterWins(ss[..n], at, c, i);
      assert !Writes(ss[n], at, c);
    }
  }

  lemma {:induction false} UnwrittenColumn(ss: seq<Statement>, at: RowKey, c: Column)
    requires forall s <- ss :: !Writes(s, at, c)
    ensures c !in Updates(ss, at)
  {
    if ss != [] {
      assert ss[|ss| - 1] in ss;
      UnwrittenColumn(ss[..|ss| - 1], at, c);
    }
  }

  // ------------------------------------------------------------------ interleavings

  lemma {:induction false} OfMembers(jobs: seq<Job>, m: Module, j: Job)
    ensures j in Of(jobs, m) <==> j in jobs && j.event.mod == m
  {
    if jobs != [] {
      var n := |jobs| - 1;
      OfMembers(jobs[..n], m, j);
      assert jobs == jobs[..n] + [jobs[n]];
    }
  }

  lemma {:induction false} OfPrefix(jobs: seq<Job>, m: Module, k: nat)
    requires k <= |jobs|
    ensures Of(jobs[..k], m) <= Of(jobs, m)
  {
    var n := |jobs| - 1;
    if k == |jobs| {
      assert jobs[..k] == jobs;
    } else {
      OfPrefix(jobs[..n], m, k);
      assert jobs[..n][..k] == jobs[..k];
    }
  }

  /** The k-th job of a merge sits in its own log right after that log's jobs among the first k. */
  lemma LogPosition(jobs: seq<Job>, logs: Logs, k: nat)
    requires Interleaving(jobs, logs) && k < |jobs|
    ensures var m := jobs[k].event.mod;
            var n := |Of(jobs[..k], m)|;
            n < |logs(m)| && logs(m)[n] == jobs[k] && logs(m)[..n] == Of(jobs[..k], m)
  {
    var m := jobs[k].event.mod;
    OfPrefix(jobs, m, k + 1);
    assert jobs[..k + 1][..k] == jobs[..k];
    assert Of(jobs[..k + 1], m) == Of(jobs[..k], m) + [jobs[k]];
    assert Of(jobs[..k + 1], m) <= logs(m);
  }

  lemma InterleavingMembers(jobs: seq<Job>, logs: Logs)
    requires Interleaving(jobs, logs)
    ensures forall j :: j in jobs <==> InLogs(j, logs)
  {
    forall j ensures j in jobs <==> InLogs(j, logs) { OfMembers(jobs, j.event.mod, j); }
  }

  lemma JobsDistinct(jobs: seq<Job>, logs: Logs, i: nat, k: nat)
    requires ChainLogs(logs) && Interleaving(jobs, logs) && i < k < |jobs|
    ensures jobs[i] != jobs[k]
  {
    var m := jobs[k].event.mod;
    LogPosition(jobs, logs, k);
    OfMembers(jobs[..k], m, jobs[i]);
    assert jobs[i] in jobs[..k];
    var n := |Of(jobs[..k], m)|;
    if jobs[i].event.mod == m {
      var x :| 0 <= x < n && logs(m)[..n][x] == jobs[i];
      assert logs(m)[x] != logs(m)[n];
    }
  }

  lemma {:induction false} FlatMembers(jobs: seq<Job>, s: Statement)
    ensures s in Flat(jobs) <==> exists j :: j in jobs && s in j.statements
  {
    if jobs != [] {
      var n := |jobs| - 1;
      FlatMembers(jobs[..n], s);
      assert jobs == jobs[..n] + [jobs[n]];
    }
  }

  lemma FlatInserts(jobs: seq<Job>, at: RowKey)
    ensures at in Inserted(Flat(jobs)) <==> exists j, s :: j in jobs && InsertsAt(j, s, at)
  {
    if at in Inserted(Flat(jobs)) {
      var s :| s in Flat(jobs) && s.Insert? && s.at == at;
      FlatMembers(jobs, s);
      var j :| j in jobs && s in j.statements;
      assert InsertsAt(j, s, at);
    }
    if j, s :| j in jobs && InsertsAt(j, s, at) {
      FlatMembers(jobs, s);
    }
  }

  /** Where a statement of the flattened sweep comes from. */
  lemma {:induction false} FlatSplit(jobs: seq<Job>, i: nat) returns (k: nat, q: nat)
    requires i < |Flat(jobs)|
    ensures k < |jobs| && q < |jobs[k].statements|
    ensures Flat(jobs)[i] == jobs[k].statements[q]
    ensures Flat(jobs)[..i] == Flat(jobs[..k]) + jobs[k].statements[..q]
  {
    var n := |jobs| - 1;
    var front := Flat(jobs[..n]);
    if i < |front| {
      k, q := FlatSplit(jobs[..n], i);
      assert jobs[..n][..k] == jobs[..k];
      assert Flat(jobs)[..i] == front[..i];
    } else {
      k, q := n, i - |front|;
    }
  }

  /** What a log has inserted before a job, any merge has inserted before that job too. */
  lemma EarlierInLog(jobs: seq<Job>, logs: Logs, k: nat, at: RowKey)
    requires Interleaving(jobs, logs) && k < |jobs|
    requires at in Inserted(Flat(Of(jobs[..k], jobs[k].event.mod)))
    ensures at in Inserted(Flat(jobs[..k]))
  {
    var m := jobs[k].event.mod;
    FlatInserts(Of(jobs[..k], m), at);
    var j, s :| j in Of(jobs[..k], m) && InsertsAt(j, s, at);
    OfMembers(jobs[..k], m, j);
    FlatInserts(jobs[..k], at);
  }

  /** The updates of a row all come from its owner's log, so every merge has them in the same order. */
  lemma {:induction false} OwnerUpdates(jobs: seq<Job>, at: RowKey)
    requires forall j <- jobs :: Shaped(j)
    ensures Updates(Flat(jobs), at) == Updates(Flat(Of(jobs, Owner(at))), at)
  {
    if jobs != [] {
      var n := |jobs| - 1;
      var last := jobs[n];
      OwnerUpdates(jobs[..n], at);
      UpdatesAppend(Flat(jobs[..n]), last.statements, at);
      if last.event.mod == Owner(at) {
        var own := Of(jobs[..n], Owner(at));
        assert Of(jobs, Owner(at)) == own + [last];
        assert (own + [last])[..|own|] == own;
        UpdatesAppend(Flat(own), last.statements, at);
      } else {
        assert Shaped(last);
        OthersDoNotUpdate(last, last.statements, at);
        var before := Updates(Flat(jobs[..n]), at);
        assert before + map[] == before;
        assert Of(jobs, Owner(at)) == Of(jobs[..n], Owner(at));
      }
    }
  }

  lemma {:induction false} OthersDoNotUpdate(j: Job, ss: seq<Statement>, at: RowKey)
    requires forall s <- ss :: ShapedStatement(j.event, s)
    requires j.event.mod != Owner(at)
    ensures Updates(ss, at) == map[]
  {
    if ss != [] {
      assert ShapedStatement(j.event, ss[|ss| - 1]);
      OthersDoNotUpdate(j, ss[..|ss| - 1], at);
    }
  }

  lemma SweepIsCausal(jobs: seq<Job>, logs: Logs)
    requires ChainLogs(logs) && Interleaving(jobs, logs)
    ensures InsertedBeforeUpdated(Flat(jobs))
  {
    var ss := Flat(jobs);
    forall i | 0 <= i < |ss| && ss[i].Update?
      ensures ss[i].at in Inserted(ss[..i])
    {
      var k, q := FlatSplit(jobs, i);
      LogPosition(jobs, logs, k);
      var m := jobs[k].event.mod;
      var n := |Of(jobs[..k], m)|;
      assert Causal(logs, m, n);
      assert logs(m)[n].statements[q] in logs(m)[n].statements;
      EarlierInLog(jobs, logs, k, ss[i].at);
      InsertedAppend(Flat(jobs[..k]), jobs[k].statements[..q]);
    }
  }

  lemma {:induction false} FirstInsertIsInsert(ss: seq<Statement>, at: RowKey) returns (s: Statement)
    requires at in Inserted(ss)
    ensures s in ss && s.Insert? && s.at == at && FirstInsert(ss, at) == s.row
  {
    var n := |ss| - 1;
    InsertedLast(ss);
    if at in Inserted(ss[..n]) { s := FirstInsertIsInsert(ss[..n], at); } else { s := ss[n]; }
  }

  lemma FirstWriter(jobs: seq<Job>, at: RowKey) returns (j: Job, s: Statement)
    requires at in Inserted(Flat(jobs))
    ensures j in jobs && InsertsAt(j, s, at) && FirstInsert(Flat(jobs), at) == s.row
  {
    s := FirstInsertIsInsert(Flat(jobs), at);
    FlatMembers(jobs, s);
    j :| j in jobs && s in j.statements;
  }

  lemma SameRow(a: seq<Job>, b: seq<Job>, logs: Logs, at: RowKey)
    requires ChainLogs(logs) && Interleaving(a, logs) && Interleaving(b, logs)
    requires at in Inserted(Flat(a)) && at in Inserted(Flat(b))
    ensures ProjectedRow(Flat(a), at) == ProjectedRow(Flat(b), at)
  {
    InterleavingMembers(a, logs);
    InterleavingMembers(b, logs);
    var j, s := FirstWriter(a, at);
    var k, t := FirstWriter(b, at);
    assert s == t;
    OwnerUpdates(a, at);
    OwnerUpdates(b, at);
  }

  /** The reference does not depend on how the five logs are merged. */
  lemma ProjectionIsUnique(a: seq<Job>, b: seq<Job>, logs: Logs)
    requires ChainLogs(logs) && Interleaving(a, logs) && Interleaving(b, logs)
    ensures Projected(a) == Projected(b)
  {
    InterleavingMembers(a, logs);
    InterleavingMembers(b, logs);
    forall at
      ensures at in Inserted(Flat(a)) <==> at in Inserted(Flat(b))
      ensures at in Inserted(Flat(a)) ==> ProjectedRow(Flat(a), at) == ProjectedRow(Flat(b), at)
    {
      FlatInserts(a, at);
      FlatInserts(b, at);
      if at in Inserted(Flat(a)) { SameRow(a, b, logs, at); }
    }
  }

  // ------------------------------------------------------------------ every reachable database

  /** Some update of this row in the logs gives this column this value. */
  ghost predicate Written(logs: Logs, at: RowKey, c: Column, v: Value) {
    exists j, s :: InLogs(j, logs) && s in j.statements
             && s.Update? && s.at == at && c in s.changes && s.changes[c] == v
  }

  /** The row was inserted by its writer, references nothing missing, and no column holds an invented value. */
  ghost predicate SoundRow(db: Database, at: RowKey, logs: Logs)
    requires at in db
  {
    var row := db[at];
    && (exists j, s :: InLogs(j, logs) && InsertsAt(j, s, at)
                && row.source == j.event && s.refs <= db.Keys && Storable(s))
    && row.columns.Keys == InitialColumns(at).Keys
    && (forall c <- row.columns :: row.columns[c] == InitialColumns(at)[c] || Written(logs, at, c, row.columns[c]))
  }

  ghost predicate Sound(db: Database, logs: Logs) {
    forall at <- db :: SoundRow(db, at, logs)
  }

  lemma ExecKeepsSound(db: Database, logs: Logs, j: Job, s: Statement)
    requires ChainLogs(logs) && Sound(db, logs)
    requires InLogs(j, logs) && s in j.statements
    ensures Sound(Exec(db, s), logs)
  {
    assert Shaped(j) && ShapedStatement(j.event, s);
    var next := Exec(db, s);
    forall at | at in next ensures SoundRow(next, at, logs) {
      if at in db {
        assert SoundRow(db, at, logs);
        forall c | c in next[at].columns
          ensures next[at].columns[c] == InitialColumns(at)[c] || Written(logs, at, c, next[at].columns[c])
        {
          if next[at].columns[c] == db[at].columns[c] {}
        }
      } else {
        assert InsertsAt(j, s, at);
      }
    }
  }

  lemma {:induction false} RunKeepsSound(db: Database, logs: Logs, j: Job, ss: seq<Statement>)
    requires ChainLogs(logs) && Sound(db, logs)
    requires InLogs(j, logs) && forall s <- ss :: s in j.statements
    ensures Sound(ExecAll(db, ss), logs)
  {
    if ss != [] {
      RunKeepsSound(db, logs, j, ss[..|ss| - 1]);
      ExecKeepsSound(ExecAll(db, ss[..|ss| - 1]), logs, j, ss[|ss| - 1]);
    }
  }

  /**
   Safety over every run: whatever sequence of partial, repeated, failed and interrupted processings
   produced the tables, each row has its one true writer and each column a value the logs give it.
   */
  lemma {:induction false} EveryHistoryIsSound(db: Database, logs: Logs, history: seq<Occurrence>)
    requires ChainLogs(logs) && Sound(db, logs)
    requires forall o <- history :: InLogs(o.job, logs)
    ensures Sound(Replay(db, history), logs)
  {
    if history != [] {
      var n := |history| - 1;
      EveryHistoryIsSound(db, logs, history[..n]);
      var last := history[n];
      assert last in history;
      var ss := last.job.statements;
      RunKeepsSound(Replay(db, history[..n]), logs, last.job,
                    ss[..Progress(Replay(db, history[..n]), ss, last.cut)]);
    }
  }

  // ------------------------------------------------------------------ one healthy sweep

  lemma NothingRefused(db: Database)
    ensures AllAccepted(db, [])
  {
  }

  lemma {:induction false} ResolvedIsAccepted(db: Database, ss: seq<Statement>)
    requires Resolved(db.Keys, ss)
    ensures AllAccepted(db, ss)
  {
    if ss == [] {
      NothingRefused(db);
    } else {
      hide ExecAll, AllAccepted, Storable, Inserted;
      var n := |ss| - 1;
      ResolvedPrefix(db.Keys, ss);
      ResolvedIsAccepted(db, ss[..n]);
      KeysAfter(db, ss[..n]);
      AcceptedOneMore(db, ss);
    }
  }

  lemma ResolvedPrefix(known: set<RowKey>, ss: seq<Statement>)
    requires ss != [] && Resolved(known, ss)
    ensures Resolved(known, ss[..|ss| - 1])
  {
    hide Storable, Inserted;
    var n := |ss| - 1;
    assert forall i :: 0 <= i < n ==> ss[..n][..i] == ss[..i] && ss[..n][i] == ss[i];
  }

  lemma AcceptedOneMore(db: Database, ss: seq<Statement>)
    requires ss != [] && AllAccepted(db, ss[..|ss| - 1]) && Accepts(ExecAll(db, ss[..|ss| - 1]), ss[|ss| - 1])
    ensures AllAccepted(db, ss)
  {
    hide Accepts, ExecAll;
    var n := |ss| - 1;
    forall i | 0 <= i < n ensures Accepts(ExecAll(db, ss[..i]), ss[i]) {
      assert ss[..n][..i] == ss[..i] && ss[..n][i] == ss[i];
    }
  }

  /** When every statement is accepted, sweeping handler by handler is running one long script. */
  lemma {:induction false} SweepIsScript(db: Database, jobs: seq<Job>)
    requires AllAccepted(db, Flat(jobs))
    ensures Sweep(db, jobs) == ExecAll(db, Flat(jobs))
  {
    if jobs != [] {
      var n := |jobs| - 1;
      AcceptedSplit(db, Flat(jobs[..n]), jobs[n].statements);
      SweepIsScript(db, jobs[..n]);
      FullRun(Sweep(db, jobs[..n]), jobs[n].statements);
      ExecAllAppend(db, Flat(jobs[..n]), jobs[n].statements);
    }
  }

  lemma {:induction false} LastUpdateIsWritten(ss: seq<Statement>, at: RowKey, s: Statement, c: Column)
    requires s in ss && s.Update? && s.at == at && c in s.changes
    ensures c in Updates(ss, at)
  {
    var n := |ss| - 1;
    if s in ss[..n] { LastUpdateIsWritten(ss[..n], at, s, c); }
  }

  lemma {:induction false} UpdatesAreColumns(ss: seq<Statement>, at: RowKey)
    requires forall s <- ss :: s.Update? ==> s.changes.Keys <= InitialColumns(s.at).Keys
    ensures Updates(ss, at).Keys <= InitialColumns(at).Keys
  {
    if ss != [] {
      var n := |ss| - 1;
      assert ss[n] in ss;
      UpdatesAreColumns(ss[..n], at);
    }
  }

  lemma FlatIsShaped(logs: Logs, jobs: seq<Job>)
    requires ChainLogs(logs) && Interleaving(jobs, logs)
    ensures forall s <- Flat(jobs) :: exists j :: InLogs(j, logs) && s in j.statements && ShapedStatement(j.event, s)
  {
    InterleavingMembers(jobs, logs);
    forall s | s in Flat(jobs)
      ensures exists j :: InLogs(j, logs) && s in j.statements && ShapedStatement(j.event, s)
    {
      FlatMembers(jobs, s);
      var j :| j in jobs && s in j.statements;
      assert Shaped(j);
    }
  }

  /** Stale columns are all rewritten: what the sweep does not write was never written. */
  lemma ColumnsConverge(db: Database, logs: Logs, jobs: seq<Job>, at: RowKey)
    requires ChainLogs(logs) && Interleaving(jobs, logs)
    requires at in db && SoundRow(db, at, logs)
    ensures db[at].columns + Updates(Flat(jobs), at) == InitialColumns(at) + Updates(Flat(jobs), at)
  {
    var ss := Flat(jobs);
    FlatIsShaped(logs, jobs);
    UpdatesAreColumns(ss, at);
    InterleavingMembers(jobs, logs);
    var columns := db[at].columns;
    forall c | c in columns && c !in Updates(ss, at) ensures columns[c] == InitialColumns(at)[c] {
      if columns[c] != InitialColumns(at)[c] {
        var y, u :| InLogs(y, logs) && u in y.statements && u.Update? && u.at == at && c in u.changes;
        FlatMembers(jobs, u);
        LastUpdateIsWritten(ss, at, u, c);
      }
    }
  }

  lemma SourceConverges(db: Database, logs: Logs, jobs: seq<Job>, at: RowKey)
    requires ChainLogs(logs) && Interleaving(jobs, logs)
    requires at in db && SoundRow(db, at, logs)
    ensures at in Inserted(Flat(jobs)) && FirstInsert(Flat(jobs), at) == Row(db[at].source, InitialColumns(at))
  {
    InterleavingMembers(jobs, logs);
    var j, s :| InLogs(j, logs) && InsertsAt(j, s, at) && db[at].source == j.event;
    FlatInserts(jobs, at);
    var k, t := FirstWriter(jobs, at);
    assert j == k && s == t;
    assert Shaped(k) && ShapedStatement(k.event, t);
  }

  /** A row left by earlier runs ends the sweep as the reference row. */
  lemma OldRowConverges(db: Database, logs: Logs, jobs: seq<Job>, at: RowKey)
    requires ChainLogs(logs) && Interleaving(jobs, logs) && Sound(db, logs)
    requires at in db
    ensures at in Inserted(Flat(jobs))
    ensures at in ExecAll(db, Flat(jobs)) && ExecAll(db, Flat(jobs))[at] == ProjectedRow(Flat(jobs), at)
  {
    assert SoundRow(db, at, logs);
    OldRowAfter(db, Flat(jobs), at);
    ColumnsConverge(db, logs, jobs, at);
    SourceConverges(db, logs, jobs, at);
  }

  lemma AcceptedSweepConverges(db: Database, logs: Logs, jobs: seq<Job>)
    requires ChainLogs(logs) && Interleaving(jobs, logs) && Sound(db, logs)
    requires AllAccepted(db, Flat(jobs))
    ensures Sweep(db, jobs) == Projected(jobs)
  {
    hide Flat, Sweep, ExecAll, ProjectedRow, Inserted, Interleaving, ChainLogs, Sound, AllAccepted;
    var ss := Flat(jobs);
    SweepIsScript(db, jobs);
    SweepIsCausal(jobs, logs);
    KeysAfter(db, ss);
    var after := ExecAll(db, ss);
    forall at
      ensures at in after <==> at in Inserted(ss)
      ensures at in after ==> after[at] == ProjectedRow(ss, at)
    {
      if at in db { OldRowConverges(db, logs, jobs, at); }
      else if at in Inserted(ss) { NewRowAfter(db, ss, at); }
    }
    assert after == Projected(jobs);
  }

  // ------------------------------------------------------------------ when a sweep falls short

  lemma SameInsert(logs: Logs, jobs: seq<Job>, s: Statement, t: Statement)
    requires ChainLogs(logs) && Interleaving(jobs, logs)
    requires s in Flat(jobs) && t in Flat(jobs) && s.Insert? && t.Insert? && s.at == t.at
    ensures s == t
  {
    FlatIsShaped(logs, jobs);
    var j :| InLogs(j, logs) && s in j.statements;
    var k :| InLogs(k, logs) && t in k.statements;
    assert InsertsAt(j, s, s.at) && InsertsAt(k, t, s.at);
  }

  lemma PresentIsResolved(db: Database, logs: Logs, jobs: seq<Job>, s: Statement)
    requires ChainLogs(logs) && Interleaving(jobs, logs)
    requires s in Flat(jobs) && s.Insert? && s.at in db && SoundRow(db, s.at, logs)
    ensures s.refs <= db.Keys
  {
    hide *;
    FlatIsShaped(logs, jobs);
    var j :| InLogs(j, logs) && s in j.statements;
    var k, t := RowWriter(db, logs, s.at);
    OneWriter(logs, j, s, k, t);
  }

  lemma RowWriter(db: Database, logs: Logs, at: RowKey) returns (j: Job, s: Statement)
    requires at in db && SoundRow(db, at, logs)
    ensures InLogs(j, logs) && s in j.statements && s.Insert? && s.at == at && s.refs <= db.Keys
  {
    hide InLogs, Written, Storable;
    j, s :| InLogs(j, logs) && InsertsAt(j, s, at) && db[at].source == j.event && s.refs <= db.Keys && Storable(s);
  }

  lemma OneWriter(logs: Logs, j: Job, s: Statement, k: Job, t: Statement)
    requires ChainLogs(logs) && InLogs(j, logs) && InLogs(k, logs) && s in j.statements && t in k.statements
    requires s.Insert? && t.Insert? && s.at == t.at
    ensures j == k && s == t
  {
    hide InLogs, Shaped, Causal;
    assert InsertsAt(j, s, s.at) && InsertsAt(k, t, s.at);
  }

  lemma {:induction false} AcceptedIsResolved(db: Database, logs: Logs, jobs: seq<Job>, i: nat)
    requires ChainLogs(logs) && Interleaving(jobs, logs) && Sound(db, logs)
    requires AllAccepted(db, Flat(jobs)) && i < |Flat(jobs)| && Flat(jobs)[i].Insert?
    ensures Flat(jobs)[i].refs <= db.Keys + Inserted(Flat(jobs)[..i])
  {
    hide *;
    var ss := Flat(jobs);
    var s := ss[i];
    if s.at in db {
      SoundAt(db, logs, s.at);
      PresentIsResolved(db, logs, jobs, s);
    } else if x :| 0 <= x < i && ss[x].Insert? && ss[x].at == s.at {
      SameInsert(logs, jobs, ss[x], s);
      AcceptedIsResolved(db, logs, jobs, x);
      assert ss[..i] == ss[..x] + ss[x..i];
      InsertedAppend(ss[..x], ss[x..i]);
    } else {
      NewIsResolved(db, ss, i);
    }
  }

  lemma SoundAt(db: Database, logs: Logs, at: RowKey)
    requires Sound(db, logs) && at in db
    ensures SoundRow(db, at, logs)
  {
  }

  lemma NewIsResolved(db: Database, ss: seq<Statement>, i: nat)
    requires AllAccepted(db, ss) && i < |ss| && ss[i].Insert? && ss[i].at !in db
    requires forall x :: 0 <= x < i && ss[x].Insert? ==> ss[x].at != ss[i].at
    ensures ss[i].refs <= db.Keys + Inserted(ss[..i])
  {
    hide ExecAll, Storable;
    KeysAfter(db, ss[..i]);
    assert Accepts(ExecAll(db, ss[..i]), ss[i]);
  }

  /** The statement a handler stops at stays without its row. */
  lemma RejectedStatement(db: Database, ss: seq<Statement>) returns (s: Statement)
    requires !AllAccepted(db, ss) && forall s <- ss :: Storable(s)
    ensures s in ss && s.Insert? && s.at !in RunSome(db, ss, |ss|)
  {
    FullRun(db, ss);
    ProgressStops(db, ss, |ss|);
    s := ss[Progress(db, ss, |ss|)];
  }

  lemma SweepLast(db: Database, jobs: seq<Job>)
    requires jobs != []
    ensures var n := |jobs| - 1;
            Sweep(db, jobs) == RunSome(Sweep(db, jobs[..n]), jobs[n].statements, |jobs[n].statements|)
  {
  }

  lemma {:induction false} FirstRejection(db: Database, jobs: seq<Job>) returns (k: nat, s: Statement)
    requires !AllAccepted(db, Flat(jobs)) && forall j, s :: j in jobs && s in j.statements ==> Storable(s)
    ensures k < |jobs| && InsertsAt(jobs[k], s, s.at) && s.at !in Sweep(db, jobs[..k + 1])
  {
    var n := |jobs| - 1;
    if AllAccepted(db, Flat(jobs[..n])) {
      var here, ss := Sweep(db, jobs[..n]), jobs[n].statements;
      SweepIsScript(db, jobs[..n]);
      hide AllAccepted, RunSome, ExecAll, Accepts, Storable;
      if AllAccepted(here, ss) { AcceptedAppend(db, Flat(jobs[..n]), ss); }
      hide Flat, Sweep;
      s := RejectedStatement(here, ss);
      k := n;
      SweepLast(db, jobs);
      assert jobs[..k + 1] == jobs;
    } else {
      hide AllAccepted, Flat, Sweep;
      k, s := FirstRejection(db, jobs[..n]);
      assert jobs[..n][..k + 1] == jobs[..k + 1];
    }
  }

  lemma JobLeavesOut(db: Database, j: Job, at: RowKey, cut: nat)
    requires at !in db && forall s :: !InsertsAt(j, s, at)
    ensures at !in RunSome(db, j.statements, cut)
  {
    var done := j.statements[..Progress(db, j.statements, cut)];
    KeysAfter(db, done);
    if s :| s in done && s.Insert? && s.at == at { assert InsertsAt(j, s, at); }
  }

  lemma {:induction false} StaysOut(db: Database, jobs: seq<Job>, at: RowKey, k: nat)
    requires k <= |jobs| && at !in Sweep(db, jobs[..k])
    requires forall x, s :: k <= x < |jobs| ==> !InsertsAt(jobs[x], s, at)
    ensures at !in Sweep(db, jobs)
  {
    hide Sweep, RunSome;
    var n := |jobs| - 1;
    if k == |jobs| {
      assert jobs[..k] == jobs;
    } else {
      SweepLast(db, jobs);
      assert jobs[..n][..k] == jobs[..k];
      StaysOut(db, jobs[..n], at, k);
      JobLeavesOut(Sweep(db, jobs[..n]), jobs[n], at, |jobs[n].statements|);
    }
  }

  lemma RejectionLeavesAGap(db: Database, logs: Logs, jobs: seq<Job>)
    requires ChainLogs(logs) && Interleaving(jobs, logs) && AllStorable(logs)
    requires !AllAccepted(db, Flat(jobs))
    ensures Sweep(db, jobs) != Projected(jobs)
  {
    InterleavingMembers(jobs, logs);
    var k, s := FirstRejection(db, jobs);
    forall x, t | k + 1 <= x < |jobs| ensures !InsertsAt(jobs[x], t, s.at) {
      JobsDistinct(jobs, logs, k, x);
      assert jobs[k] in jobs && jobs[x] in jobs;
    }
    StaysOut(db, jobs, s.at, k + 1);
    FlatInserts(jobs, s.at);
    assert s.at in Projected(jobs);
  }

  /** A row whose text cannot be stored is in the reference and never in the tables. */
  lemma UnstorableLeavesAGap(db: Database, logs: Logs, jobs: seq<Job>)
    requires ChainLogs(logs) && Interleaving(jobs, logs) && !AllStorable(logs)
    requires Sound(db, logs)
    ensures db != Projected(jobs)
  {
    var j, s :| InLogs(j, logs) && s in j.statements && !Storable(s);
    hide Storable;
    UnstorableStaysOut(db, logs, j, s);
    InterleavingMembers(jobs, logs);
    FlatInserts(jobs, s.at);
    assert s.at in Projected(jobs);
  }

  lemma UnstorableStaysOut(db: Database, logs: Logs, j: Job, s: Statement)
    requires ChainLogs(logs) && Sound(db, logs) && InLogs(j, logs) && s in j.statements && !Storable(s)
    ensures InsertsAt(j, s, s.at) && s.at !in db
  {
    assert InsertsAt(j, s, s.at);
  }

  lemma ResolvedIsStorable(known: set<RowKey>, logs: Logs, jobs: seq<Job>)
    requires Interleaving(jobs, logs) && Resolved(known, Flat(jobs))
    ensures AllStorable(logs)
  {
    InterleavingMembers(jobs, logs);
    forall j, s | InLogs(j, logs) && s in j.statements ensures Storable(s) {
      FlatMembers(jobs, s);
      var i :| 0 <= i < |Flat(jobs)| && Flat(jobs)[i] == s;
    }
  }

  // ------------------------------------------------------------------ the theorems

  /**
   Convergence, with its exact condition. After any history of partial, repeated and interrupted
   processing, a sweep of all five logs that the database lets run ends in the reference projection if
   and only if every text in it can be stored and every row it references was already there or is
   inserted earlier in the sweep.
   */
  lemma SweepConverges(logs: Logs, history: seq<Occurrence>, jobs: seq<Job>)
    requires ChainLogs(logs) && Interleaving(jobs, logs)
    requires forall o <- history :: InLogs(o.job, logs)
    ensures var db := Replay(map[], history);
            Sweep(db, jobs) == Projected(jobs) <==> Resolved(db.Keys, Flat(jobs))
  {
    var db := Replay(map[], history);
    EveryHistoryIsSound(map[], logs, history);
    if Resolved(db.Keys, Flat(jobs)) {
      ResolvedIsAccepted(db, Flat(jobs));
      AcceptedSweepConverges(db, logs, jobs);
    } else {
      ShortSweep(db, logs, jobs);
    }
  }

  lemma ShortSweep(db: Database, logs: Logs, jobs: seq<Job>)
    requires ChainLogs(logs) && Interleaving(jobs, logs) && Sound(db, logs) && !Resolved(db.Keys, Flat(jobs))
    ensures Sweep(db, jobs) != Projected(jobs)
  {
    if AllStorable(logs) {
      if AllAccepted(db, Flat(jobs)) {
        forall i | 0 <= i < |Flat(jobs)| && Flat(jobs)[i].Insert?
          ensures Storable(Flat(jobs)[i]) && Flat(jobs)[i].refs <= db.Keys + Inserted(Flat(jobs)[..i])
        {
          AcceptedIsResolved(db, logs, jobs, i);
        }
      }
      RejectionLeavesAGap(db, logs, jobs);
    } else {
      InterleavingMembers(jobs, logs);
      SweepKeepsSound(db, logs, jobs);
      UnstorableLeavesAGap(Sweep(db, jobs), logs, jobs);
    }
  }

  /** Assets and pools reference nothing, so one healthy sweep leaves all of them in place that can be stored. */
  lemma {:induction false} SweepInsertsRoots(db: Database, logs: Logs, jobs: seq<Job>, at: RowKey)
    requires ChainLogs(logs) && (forall j <- jobs :: Shaped(j)) && IsRoot(at)
    requires exists j, s :: j in jobs && InsertsAt(j, s, at)
    requires forall j, s :: j in jobs && InsertsAt(j, s, at) ==> Storable(s)
    ensures at in Sweep(db, jobs)
  {
    hide RunSome, Shaped, Storable;
    var n := |jobs| - 1;
    SweepLast(db, jobs);
    if j, s :| j in jobs[..n] && InsertsAt(j, s, at) {
      SweepInsertsRoots(db, logs, jobs[..n], at);
      RunKeepsRows(Sweep(db, jobs[..n]), jobs[n].statements);
    } else {
      var s :| InsertsAt(jobs[n], s, at);
      RootIsInserted(Sweep(db, jobs[..n]), jobs[n], s);
    }
  }

  lemma RunKeepsRows(db: Database, ss: seq<Statement>)
    ensures db.Keys <= RunSome(db, ss, |ss|).Keys
  {
    RowsNeverLeave(db, ss[..Progress(db, ss, |ss|)]);
  }

  /** A handler gets at least as far as the insert of its asset or pool. */
  lemma RootIsInserted(db: Database, j: Job, s: Statement)
    requires Shaped(j) && s in j.statements && s.Insert? && IsRoot(s.at) && Storable(s)
    ensures s.at in RunSome(db, j.statements, |j.statements|)
  {
    hide ExecAll;
    var ss := j.statements;
    var p := Progress(db, ss, |ss|);
    ProgressStops(db, ss, |ss|);
    var x :| 0 <= x < |ss| && ss[x] == s;
    assert ShapedStatement(j.event, s);
    assert forall i :: 0 <= i <= x && ss[i].Insert? ==> ss[i].refs == {} && Storable(ss[i]);
    assert p > x;
    KeysAfter(db, ss[..p]);
    assert ss[..p][x] == s;
  }

  lemma {:induction false} ReplayKeepsRows(db: Database, history: seq<Occurrence>)
    ensures db.Keys <= Replay(db, history).Keys
  {
    if history != [] {
      var n := |history| - 1;
      ReplayKeepsRows(db, history[..n]);
      var here, last := Replay(db, history[..n]), history[n];
      RowsNeverLeave(here, last.job.statements[..Progress(here, last.job.statements, last.cut)]);
    }
  }

  lemma RootsResolve(logs: Logs, jobs: seq<Job>, known: set<RowKey>)
    requires ChainLogs(logs) && Interleaving(jobs, logs) && AllStorable(logs)
    requires forall at :: IsRoot(at) && Created(at, logs) ==> at in known
    ensures Resolved(known, Flat(jobs))
  {
    var ss := Flat(jobs);
    forall i | 0 <= i < |ss| && ss[i].Insert? ensures Storable(ss[i]) {
      var k, q := FlatSplit(jobs, i);
      InterleavingMembers(jobs, logs);
      assert jobs[k] in jobs;
    }
    forall i, r | 0 <= i < |ss| && ss[i].Insert? && r in ss[i].refs
      ensures r in known + Inserted(ss[..i])
    {
      var k, q := FlatSplit(jobs, i);
      LogPosition(jobs, logs, k);
      var m := jobs[k].event.mod;
      var n := |Of(jobs[..k], m)|;
      assert Causal(logs, m, n) && Shaped(logs(m)[n]);
      assert ss[i] in logs(m)[n].statements && ShapedStatement(jobs[k].event, ss[i]);
      if r.DisputeRow? {
        EarlierInLog(jobs, logs, k, r);
        InsertedAppend(Flat(jobs[..k]), jobs[k].statements[..q]);
      }
    }
  }

  /**
   Two sweeps suffice if and only if every text can be stored. Whatever happened before, between two
   healthy sweeps, and however each of them merges the logs, the second one then ends in the reference
   projection: the first has put every asset and pool in place, and nothing ever deletes a row. With a
   text that cannot be stored no history ever does.
   */
  lemma TwoSweepsConverge(logs: Logs, before: seq<Occurrence>, first: seq<Job>, between: seq<Occurrence>,
                          second: seq<Job>)
    requires ChainLogs(logs) && Interleaving(first, logs) && Interleaving(second, logs)
    requires forall o :: o in before || o in between ==> InLogs(o.job, logs)
    ensures Sweep(Replay(Sweep(Replay(map[], before), first), between), second) == Projected(second)
       <==> AllStorable(logs)
  {
    hide Sweep, Replay, Resolved, Projected, ChainLogs, Sound;
    var db0 := Replay(map[], before);
    var db1 := Sweep(db0, first);
    var db2 := Replay(db1, between);
    InterleavingMembers(first, logs);
    InterleavingMembers(second, logs);
    NothingIsSound(logs);
    EveryHistoryIsSound(map[], logs, before);
    SweepKeepsSound(db0, logs, first);
    EveryHistoryIsSound(db1, logs, between);
    if AllStorable(logs) {
      SecondSweep(logs, db0, first, between, second);
    } else {
      SweepKeepsSound(db2, logs, second);
      UnstorableLeavesAGap(Sweep(db2, second), logs, second);
    }
  }

  lemma NothingIsSound(logs: Logs)
    ensures Sound(map[], logs)
  {
  }

  lemma SecondSweep(logs: Logs, db0: Database, first: seq<Job>, between: seq<Occurrence>, second: seq<Job>)
    requires ChainLogs(logs) && Interleaving(first, logs) && Interleaving(second, logs) && AllStorable(logs)
    requires Sound(Replay(Sweep(db0, first), between), logs)
    ensures Sweep(Replay(Sweep(db0, first), between), second) == Projected(second)
  {
    var db1 := Sweep(db0, first);
    var db2 := Replay(db1, between);
    InterleavingMembers(first, logs);
    ReplayKeepsRows(db1, between);
    forall at | IsRoot(at) && Created(at, logs) ensures at in db2.Keys {
      SweepInsertsRoots(db0, logs, first, at);
    }
    RootsResolve(logs, second, db2.Keys);
    ResolvedIsAccepted(db2, Flat(second));
    AcceptedSweepConverges(db2, logs, second);
  }

  lemma {:induction false} SweepKeepsSound(db: Database, logs: Logs, jobs: seq<Job>)
    requires ChainLogs(logs) && Sound(db, logs) && forall j <- jobs :: InLogs(j, logs)
    ensures Sound(Sweep(db, jobs), logs)
  {
    if jobs != [] {
      var n := |jobs| - 1;
      SweepKeepsSound(db, logs, jobs[..n]);
      var here, ss := Sweep(db, jobs[..n]), jobs[n].statements;
      assert jobs[n] in jobs;
      RunKeepsSound(here, logs, jobs[n], ss[..Progress(here, ss, |ss|)]);
    }
  }

  /** Confluence with a merge that resolves: another one gives the same tables if and only if it resolves too. */
  lemma Confluence(logs: Logs, historyA: seq<Occurrence>, a: seq<Job>, historyB: seq<Occurrence>, b: seq<Job>)
    requires ChainLogs(logs) && Interleaving(a, logs) && Interleaving(b, logs)
    requires forall o :: o in historyA || o in historyB ==> InLogs(o.job, logs)
    requires Resolved(Replay(map[], historyA).Keys, Flat(a))
    ensures Sweep(Replay(map[], historyA), a) == Sweep(Replay(map[], historyB), b)
       <==> Resolved(Replay(map[], historyB).Keys, Flat(b))
  {
    SweepConverges(logs, historyA, a);
    SweepConverges(logs, historyB, b);
    ProjectionIsUnique(a, b, logs);
  }
}
