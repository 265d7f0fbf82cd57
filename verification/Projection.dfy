/**
 What the tables must contain, and when a sweep makes them contain it.

 The reference is `Projected`: it is read off the logs statement by statement and knows nothing of
 foreign keys, failures, crashes or the state the sweep starts from.
 */
module Projection {
  import opened Events
  import opened SqlStore

  /** The append-only log of each module. */
  type Logs = Module -> seq<Job>

  predicate InLogs(j: Job, logs: Logs) {
    j in logs(j.event.mod)
  }

  function Of(jobs: seq<Job>, m: Module): seq<Job> {
    if jobs == [] then []
    else
      var last := jobs[|jobs| - 1];
      Of(jobs[..|jobs| - 1], m) + if last.event.mod == m then [last] else []
  }

  /** A merge of the five logs that keeps each log's own order. */
  ghost predicate Interleaving(jobs: seq<Job>, logs: Logs) {
    forall m :: Of(jobs, m) == logs(m)
  }

  // ------------------------------------------------------------------ shape of the statements

  predicate IsRoot(at: RowKey) {
    at.AssetRow? || at.PoolRow?
  }

  /** The module whose events insert and update this row. */
  function Owner(at: RowKey): Module {
    match at
    case EventRow(_, _) => Protocol
    case AssetRow(_) => Asset
    case ScheduleRow(_, _) => Asset
    case PoolRow(_) => Validator
    case DisputeRow(_) => Dispute
  }

  function InitialColumns(at: RowKey): map<Column, Value> {
    match at
    case AssetRow(_) =>
      map[ValidatorPoolId := Null, Coverage := Null, AccumulatorId := Null, CurrentState := Num(0), CloseReason := Null]
    case PoolRow(_) => map[CurrentStatus := Num(0)]
    case DisputeRow(_) =>
      map[Verdict := Null, Slashed := Null, Bounty := Null, ResolvedAtMs := Null, ResolvedTx := Null]
    case _ => map[]
  }

  predicate ShapedStatement(e: Event, s: Statement) {
    match s
    case Insert(at, row, refs) =>
      && row == Row(e, InitialColumns(at))
      && (!at.EventRow? ==> e.mod == Owner(at))
      && (IsRoot(at) ==> refs == {})
      && (forall r <- refs :: IsRoot(r) || r.DisputeRow?)
    case Update(at, changes) =>
      && (IsRoot(at) || at.DisputeRow?)
      && e.mod == Owner(at)
      && changes.Keys <= InitialColumns(at).Keys
  }

  /** Inserts that come before that of an asset or a pool are event rows that reference nothing. */
  predicate RootsFirst(ss: seq<Statement>) {
    forall i, k :: 0 <= i < k < |ss| && ss[k].Insert? && IsRoot(ss[k].at) && ss[i].Insert? ==>
      ss[i].refs == {} && ss[i].at.EventRow?
  }

  /** What a handler inserts before it updates a row can be stored and references that row at most. */
  predicate UpdatesReached(ss: seq<Statement>) {
    forall i, k :: 0 <= i < k < |ss| && ss[k].Update? && ss[i].Insert? ==>
      ss[i].refs <= {ss[k].at} && Storable(ss[i])
  }

  ghost predicate Shaped(j: Job) {
    && RootsFirst(j.statements)
    && UpdatesReached(j.statements)
    && forall s <- j.statements :: ShapedStatement(j.event, s)
  }

  ghost predicate InsertsAt(j: Job, s: Statement, at: RowKey) {
    s in j.statements && s.Insert? && s.at == at
  }

  /** Everything the chain guarantees about the five logs, in terms of the statements they cause. */
  ghost predicate ChainLogs(logs: Logs) {
    && (forall m, j :: j in logs(m) ==> j.event.mod == m && Shaped(j))
    && (forall m, i, k :: 0 <= i < k < |logs(m)| ==> logs(m)[i] != logs(m)[k])
    && UniqueWriters(logs)
    && (forall m, i :: 0 <= i < |logs(m)| ==> Causal(logs, m, i))
  }

  /** No two events insert the same row. */
  ghost predicate UniqueWriters(logs: Logs) {
    forall j, k, s, t, at | InLogs(j, logs) && InLogs(k, logs) && InsertsAt(j, s, at) && InsertsAt(k, t, at) ::
      j == k && s == t
  }

  /**
   An entity is created in its own log before anything there updates it; a dispute before votes and
   rewards reference it; and every asset and pool that is referenced is created in some log.
   */
  ghost predicate Causal(logs: Logs, m: Module, i: nat)
    requires i < |logs(m)|
  {
    forall s <- logs(m)[i].statements ::
      match s
      case Update(at, _) => at in Inserted(Flat(logs(m)[..i]))
      case Insert(_, _, refs) =>
        forall r <- refs ::
          if r.DisputeRow? then m == Dispute && r in Inserted(Flat(logs(m)[..i])) else Created(r, logs)
  }

  ghost predicate Created(at: RowKey, logs: Logs) {
    exists j, s :: InLogs(j, logs) && InsertsAt(j, s, at)
  }

  // ------------------------------------------------------------------ the reference

  /** The row the first insert of `at` writes. */
  function FirstInsert(ss: seq<Statement>, at: RowKey): Row
    requires at in Inserted(ss)
  {
    var n := |ss| - 1;
    if at in Inserted(ss[..n]) then FirstInsert(ss[..n], at)
    else
      assert ss == ss[..n] + [ss[n]];
      ss[n].row
  }

  /** As inserted, then each mutable column as its last writer in the log leaves it. */
  function ProjectedRow(ss: seq<Statement>, at: RowKey): Row
    requires at in Inserted(ss)
  {
    var row := FirstInsert(ss, at);
    row.(columns := row.columns + Updates(ss, at))
  }

  function Projected(jobs: seq<Job>): Database {
    var ss := Flat(jobs);
    map at | at in Inserted(ss) :: ProjectedRow(ss, at)
  }

  /** Every text can be stored, and every referenced row is known beforehand or inserted earlier in the sweep itself. */
  predicate Resolved(known: set<RowKey>, ss: seq<Statement>) {
    forall i :: 0 <= i < |ss| && ss[i].Insert? ==> Storable(ss[i]) && ss[i].refs <= known + Inserted(ss[..i])
  }

  /** No user has put into any text what the tables cannot hold. */
  ghost predicate AllStorable(logs: Logs) {
    forall j, s :: InLogs(j, logs) && s in j.statements ==> Storable(s)
  }
}
