/**
 The indexer's tables and the three kinds of SQL statement its write paths issue: insert-if-absent
 keyed on the event, insert-if-absent keyed on an entity id, and last-write-wins column updates.

 A row is identified by its table and its conflict key. Its immutable columns are copies of the
 event that inserted it (`source`); only the columns some UPDATE statement can change are listed.
 Surrogate `id` columns are not part of a row.
 */
module SqlStore {
  import opened Common
  import opened Events

  datatype EventTable =
    | RawEvents | GovernanceEvents | AssetStateChanges | ValidatorStakeEvents | ValidatorStatusChanges
    | RaiseProgress | PositionEvents | YieldIndexSeries | TrancheEvents | JuryVotes | JurorRewards
    | DustSweeps | AccumulatorBalances

  datatype RowKey =
    | EventRow(table: EventTable, key: EventKey)
    | AssetRow(id: Text)
    | PoolRow(id: Text)
    | DisputeRow(id: Text)
    | ScheduleRow(id: Text, index: nat)

  datatype Column =
    | ValidatorPoolId | Coverage | AccumulatorId | CurrentState | CloseReason
    | CurrentStatus
    | Verdict | Slashed | Bounty | ResolvedAtMs | ResolvedTx

  datatype Value = Null | Num(n: int) | Str(t: Text)

  datatype Row = Row(source: Event, columns: map<Column, Value>)

  type Database = map<RowKey, Row>

  datatype Statement =
    // INSERT ... ON CONFLICT DO NOTHING, with the rows its foreign keys reference
    | Insert(at: RowKey, row: Row, refs: set<RowKey>)
    // UPDATE ... SET ... WHERE key
    | Update(at: RowKey, changes: map<Column, Value>)

  /** The TEXT columns that hold a user's own words; identifiers and digests are hex or base58. */
  function FreeTexts(at: RowKey, e: Event): seq<Text> {
    match (at, e.payload)
    case (AssetRow(_), AssetFeed(AssetCreated(_, _, m, _, _, _, _, _))) => [m.name, m.ticker, m.location, m.entityName]
    case (ScheduleRow(_, i), AssetFeed(AssetCreated(_, _, _, _, _, _, _, words))) =>
      if i < |words| then [words[i]] else []
    case (PoolRow(_), ValidatorFeed(ValidatorRegistered(_, _, _, name))) => [name]
    case (DisputeRow(_), DisputeFeed(DisputeOpened(_, _, _, _, _, reason))) => [reason]
    case _ => []
  }

  /** A TEXT value cannot hold the byte 0, which lossy decoding passes through. */
  predicate Storable(s: Statement) {
    s.Insert? ==> forall t <- FreeTexts(s.at, s.row.source) :: 0 !in t
  }

  /** What a statement can deterministically fail on: a text that cannot be stored, or a missing reference. */
  predicate Accepts(db: Database, s: Statement) {
    s.Insert? ==> Storable(s) && (s.at in db || s.refs <= db.Keys)
  }

  function Exec(db: Database, s: Statement): Database {
    match s
    case Insert(at, row, refs) =>
      if at in db || !(refs <= db.Keys) || !Storable(s) then db else db[at := row]
    case Update(at, changes) =>
      if at in db then db[at := db[at].(columns := db[at].columns + changes)] else db
  }

  function ExecAll(db: Database, ss: seq<Statement>): Database {
    if ss == [] then db else Exec(ExecAll(db, ss[..|ss| - 1]), ss[|ss| - 1])
  }

  predicate AllAccepted(db: Database, ss: seq<Statement>) {
    forall i :: 0 <= i < |ss| ==> Accepts(ExecAll(db, ss[..i]), ss[i])
  }

  /**
   How many statements of a handler take effect: it stops before the first one that is refused,
   and before the `cut`, where the database or the process fails.
   */
  function Progress(db: Database, ss: seq<Statement>, cut: nat): (p: nat)
    ensures p <= |ss| && p <= cut
  {
    if ss == [] then 0
    else
      var n := |ss| - 1;
      var p := Progress(db, ss[..n], cut);
      if p == n && p < cut && Accepts(ExecAll(db, ss[..n]), ss[n]) then n + 1 else p
  }

  lemma {:induction false} ProgressStops(db: Database, ss: seq<Statement>, cut: nat)
    ensures var p := Progress(db, ss, cut);
            && AllAccepted(db, ss[..p])
            && (p < |ss| && p < cut ==> !Accepts(ExecAll(db, ss[..p]), ss[p]))
  {
    hide Accepts, ExecAll;
    if ss != [] {
      var n := |ss| - 1;
      ProgressStops(db, ss[..n], cut);
      var p := Progress(db, ss, cut);
      forall i | 0 <= i < p
        ensures Accepts(ExecAll(db, ss[..p][..i]), ss[..p][i])
      {
        assert ss[..p][..i] == ss[..i];
        if i < n {
          var q := Progress(db, ss[..n], cut);
          assert ss[..n][..q][..i] == ss[..i] && ss[..n][..q][i] == ss[i];
        }
      }
      if p < n { assert ss[..n][..p] == ss[..p]; }
    }
  }

  /** A handler run that stops early keeps what it has done: each statement commits on its own. */
  function RunSome(db: Database, ss: seq<Statement>, cut: nat): Database {
    ExecAll(db, ss[..Progress(db, ss, cut)])
  }

  /** One event together with the statements its processing issues, the archive insert first. */
  datatype Job = Job(event: Event, statements: seq<Statement>)

  /** One processing of a job that got through its first `cut` statements at most. */
  datatype Occurrence = Occurrence(job: Job, cut: nat)

  function Replay(db: Database, history: seq<Occurrence>): Database {
    if history == [] then db
    else
      var last := history[|history| - 1];
      RunSome(Replay(db, history[..|history| - 1]), last.job.statements, last.cut)
  }

  /** Processing jobs in order when nothing fails except foreign keys. */
  function Sweep(db: Database, jobs: seq<Job>): Database {
    if jobs == [] then db
    else
      var last := jobs[|jobs| - 1];
      RunSome(Sweep(db, jobs[..|jobs| - 1]), last.statements, |last.statements|)
  }

  function Flat(jobs: seq<Job>): seq<Statement> {
    if jobs == [] then [] else Flat(jobs[..|jobs| - 1]) + jobs[|jobs| - 1].statements
  }

  function Inserted(ss: seq<Statement>): set<RowKey> {
    set s <- ss | s.Insert? :: s.at
  }

  /** All the updates of one row, merged: a later one overwrites an earlier one column by column. */
  function Updates(ss: seq<Statement>, at: RowKey): map<Column, Value> {
    if ss == [] then map[]
    else
      var last := ss[|ss| - 1];
      var before := Updates(ss[..|ss| - 1], at);
      if last.Update? && last.at == at then before + last.changes else before
  }
}
