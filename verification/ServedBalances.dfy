/**
 The balances that readers are served, end to end: the balance table after any history of re-deliveries
 and crashes, against a replay of the chain's own reports.
 */
module ServedBalances {
  import opened Common
  import opened Events
  import opened SqlStore
  import opened Projection
  import opened Convergence
  import opened Handlers
  import opened TableContents
  import B = Balances

  function Amount(n: u64): Option<int> {
    Some(AsI64(n))
  }

  /** The columns that each reporting event fills. */
  function ColumnsOf(e: Event): B.Columns
    requires ReportsBalances(e)
  {
    match e.payload
    case YieldFeed(RevenueDeposited(_, _, _, _, _, _, _, reward, rollover)) =>
      B.Columns(Amount(reward), Amount(rollover), None, None, None)
    case YieldFeed(RolloverSwept(_, _, _, reward, rollover)) =>
      B.Columns(Amount(reward), Amount(rollover), None, None, None)
    case YieldFeed(CompensationSwept(_, _, _, _, reward, rollover, pool, frozen)) =>
      B.Columns(Amount(reward), Amount(rollover), Amount(pool), None, Some(frozen))
    case YieldFeed(DustSwept(_, _, reward, rollover)) =>
      B.Columns(Amount(reward), Amount(rollover), None, None, None)
    case PositionFeed(YieldClaimed(_, _, _, _, reward)) =>
      B.Columns(Amount(reward), None, None, None, None)
    case AssetFeed(EntityDefaulted(_, pool, unlock, frozen)) =>
      B.Columns(None, None, Amount(pool), Amount(unlock), Some(frozen))
    case DisputeFeed(DisputeResolved(_, _, _, _, _, pool, unlock, frozen)) =>
      B.Columns(None, None, Amount(pool), Amount(unlock), Some(frozen))
  }

  function SnapshotOf(e: Event): B.Snapshot
    requires ReportsBalances(e)
  {
    B.Snapshot(KeyOf(e), TimestampOf(e), AssetOf(e), ColumnsOf(e))
  }

  function Snapshots(events: seq<Event>): seq<B.Snapshot>
    requires forall e <- events :: ReportsBalances(e)
  {
    seq(|events|, i requires 0 <= i < |events| => SnapshotOf(events[i]))
  }

  // ------------------------------------------------------------------ what the events report

  type Field<V> = Event -> Option<V>

  function RewardPoolAfter(e: Event): Option<int> {
    match e.payload
    case YieldFeed(y) => Some(AsI64(y.rewardPoolAfter))
    case PositionFeed(p) => if p.YieldClaimed? then Some(AsI64(p.rewardPoolAfter)) else None
    case _ => None
  }

  function RolloverReserveAfter(e: Event): Option<int> {
    match e.payload
    case YieldFeed(y) => Some(AsI64(y.rolloverReserveAfter))
    case _ => None
  }

  function CompensationPoolAfter(e: Event): Option<int> {
    match e.payload
    case YieldFeed(y) => if y.CompensationSwept? then Some(AsI64(y.compensationPoolAfter)) else None
    case AssetFeed(a) => if a.EntityDefaulted? then Some(AsI64(a.compensationPoolAfter)) else None
    case DisputeFeed(d) => if d.DisputeResolved? then Some(AsI64(d.compensationPoolAfter)) else None
    case _ => None
  }

  function CompensationUnlockMs(e: Event): Option<int> {
    match e.payload
    case AssetFeed(a) => if a.EntityDefaulted? then Some(AsI64(a.compensationUnlockMs)) else None
    case DisputeFeed(d) => if d.DisputeResolved? then Some(AsI64(d.compensationUnlockMs)) else None
    case _ => None
  }

  function WrappingFrozen(e: Event): Option<bool> {
    match e.payload
    case YieldFeed(y) => if y.CompensationSwept? then Some(y.wrappingFrozen) else None
    case AssetFeed(a) => if a.EntityDefaulted? then Some(a.wrappingFrozen) else None
    case DisputeFeed(d) => if d.DisputeResolved? then Some(d.wrappingFrozen) else None
    case _ => None
  }

  /** The order of reports: by time, and by event number where times tie. */
  predicate ReportedBefore(e: Event, d: Event) {
    TimestampOf(e) < TimestampOf(d)
    || (TimestampOf(e) == TimestampOf(d) && KeyOf(e).eventSeq < KeyOf(d).eventSeq)
  }

  /** An event that reports a field of an asset. */
  predicate HasField<V>(e: Event, asset: Text, field: Field<V>) {
    AssetOf(e) == asset && field(e).Some?
  }

  /** `v` is what a report that no other one comes after says, or None where nothing reports the field. */
  ghost predicate Latest<V>(chain: seq<Event>, asset: Text, field: Field<V>, v: Option<V>) {
    if v.None? then forall e <- chain :: !HasField(e, asset, field)
    else
      exists e <- chain ::
        field(e) == v && HasField(e, asset, field)
        && forall d <- chain :: HasField(d, asset, field) ==> !ReportedBefore(e, d)
  }

  /** All five balances are the latest ones reported. */
  ghost predicate LatestBalances(chain: seq<Event>, asset: Text, b: B.Columns) {
    && Latest(chain, asset, RewardPoolAfter, b.rewardPool)
    && Latest(chain, asset, RolloverReserveAfter, b.rolloverReserve)
    && Latest(chain, asset, CompensationPoolAfter, b.compensationPool)
    && Latest(chain, asset, CompensationUnlockMs, b.compensationUnlockMs)
    && Latest(chain, asset, WrappingFrozen, b.wrappingFrozen)
  }

  /** A column of the table holds a field of the row's event. */
  ghost predicate Holds<V>(col: B.Column<V>, field: Field<V>) {
    forall e :: ReportsBalances(e) ==> col(SnapshotOf(e)) == field(e)
  }

  lemma ColumnsHoldFields()
    ensures Holds(B.REWARD_POOL, RewardPoolAfter) && Holds(B.ROLLOVER_RESERVE, RolloverReserveAfter)
    ensures Holds(B.COMPENSATION_POOL, CompensationPoolAfter) && Holds(B.COMPENSATION_UNLOCK, CompensationUnlockMs)
    ensures Holds(B.WRAPPING_FROZEN, WrappingFrozen)
  {
    hide KeyOf, TimestampOf, AssetOf, AsI64;
  }

  lemma SnapshotOrder(e: Event, d: Event)
    requires ReportsBalances(e) && ReportsBalances(d)
    ensures B.Before(SnapshotOf(e), SnapshotOf(d)) <==> ReportedBefore(e, d)
  {
  }

  lemma SnapshotReports<V>(e: Event, asset: Text, col: B.Column<V>, field: Field<V>)
    requires ReportsBalances(e) && Holds(col, field)
    ensures B.Reports(SnapshotOf(e), asset, col) <==> HasField(e, asset, field)
    ensures col(SnapshotOf(e)) == field(e)
  {
  }

  /** A column's query answers exactly the latest value that the events of the rows report. */
  lemma AnswersAreLatest<V>(events: seq<Event>, asset: Text, col: B.Column<V>, field: Field<V>, v: Option<V>)
    requires Holds(col, field) && forall e <- events :: ReportsBalances(e)
    ensures B.MayAnswer(Snapshots(events), asset, col, v) <==> Latest(events, asset, field, v)
  {
    hide ReportsBalances, SnapshotOf, B.Before, B.Reports, HasField, ReportedBefore;
    var rows := Snapshots(events);
    forall i | 0 <= i < |events| ensures events[i] in events && rows[i] == SnapshotOf(events[i]) && rows[i] in rows {}
    forall e | e in events
      ensures SnapshotOf(e) in rows && col(SnapshotOf(e)) == field(e)
      ensures B.Reports(SnapshotOf(e), asset, col) <==> HasField(e, asset, field)
    {
      SnapshotReports(e, asset, col, field);
      var i :| 0 <= i < |events| && events[i] == e;
    }
    forall e, d | e in events && d in events
      ensures B.Before(SnapshotOf(e), SnapshotOf(d)) <==> ReportedBefore(e, d)
    {
      SnapshotOrder(e, d);
    }
    forall r | r in rows ensures exists e <- events :: r == SnapshotOf(e) {
      var i :| 0 <= i < |rows| && rows[i] == r;
    }
  }

  // ------------------------------------------------------------------ the table and the logs

  function At(k: EventKey): RowKey {
    EventRow(AccumulatorBalances, k)
  }

  /** The sources of the table's rows, in whatever order the rows are stored. */
  ghost predicate ListsRows(db: Database, rows: seq<Event>) {
    forall e :: e in rows <==> exists k :: At(k) in db && db[At(k)].source == e
  }

  /** The chain's reports, in whatever order. */
  ghost predicate ListsReports(logs: EventLogs, chain: seq<Event>) {
    forall e :: e in chain <==> InEvents(e, logs) && ReportsBalances(e)
  }

  lemma RowsAreReports(logs: EventLogs, jobs: seq<Job>, e: Event)
    requires ChainEvents(logs) && Interleaving(jobs, LogsOf(logs))
    ensures (exists k :: At(k) in Projected(jobs) && Projected(jobs)[At(k)].source == e)
       <==> InEvents(e, logs) && ReportsBalances(e)
  {
    hide Projected, LogsOf, Interleaving, InEvents, ReportsBalances;
    if k :| At(k) in Projected(jobs) && Projected(jobs)[At(k)].source == e {
      EventTables(logs, jobs, AccumulatorBalances, k);
      assert Records(AccumulatorBalances, e);
    }
    if InEvents(e, logs) && ReportsBalances(e) {
      assert Records(AccumulatorBalances, e);
      EventTables(logs, jobs, AccumulatorBalances, KeyOf(e));
      OneEventPerKey(logs, Projected(jobs)[At(KeyOf(e))].source, e);
    }
  }

  lemma SnapshotMembers(rows: seq<Event>, chain: seq<Event>, r: B.Snapshot)
    requires (forall e <- rows :: ReportsBalances(e)) && forall e <- chain :: ReportsBalances(e)
    requires forall e :: e in rows ==> e in chain
    ensures r in Snapshots(rows) ==> r in Snapshots(chain)
  {
    hide SnapshotOf, ReportsBalances;
    if r in Snapshots(rows) {
      var i :| 0 <= i < |rows| && Snapshots(rows)[i] == r;
      assert rows[i] in rows;
      var k :| 0 <= k < |chain| && chain[k] == rows[i];
      assert Snapshots(chain)[k] == r;
    }
  }

  lemma RowsAreChain(logs: EventLogs, history: seq<Occurrence>, jobs: seq<Job>, rows: seq<Event>, chain: seq<Event>)
    requires ChainEvents(logs) && Interleaving(jobs, LogsOf(logs)) && ListsReports(logs, chain)
    requires forall o <- history :: InLogs(o.job, LogsOf(logs))
    requires Resolved(Replay(map[], history).Keys, Flat(jobs))
    requires ListsRows(Sweep(Replay(map[], history), jobs), rows)
    ensures (forall e <- rows :: ReportsBalances(e)) && (forall e <- chain :: ReportsBalances(e))
    ensures forall r :: r in Snapshots(rows) <==> r in Snapshots(chain)
  {
    hide Projected, ChainEvents, LogsOf, Interleaving, Resolved, Snapshots, ReportsBalances, InEvents;
    ChainEventsAreChainLogs(logs);
    SweepConverges(LogsOf(logs), history, jobs);
    forall e ensures e in rows <==> e in chain { RowsAreReports(logs, jobs, e); }
    assert forall e <- rows :: ReportsBalances(e);
    forall r ensures r in Snapshots(rows) <==> r in Snapshots(chain) {
      SnapshotMembers(rows, chain, r);
      SnapshotMembers(chain, rows, r);
    }
  }

  /**
   After any history of partial, repeated and interrupted processing and one resolved sweep, what the
   balances query may answer from the tables is, balance by balance, exactly what a latest report on the
   chain says, and nothing where the chain never reported it.
   */
  lemma LatestIsServed(logs: EventLogs, history: seq<Occurrence>, jobs: seq<Job>, rows: seq<Event>,
                       chain: seq<Event>, asset: Text, b: B.Columns)
    requires ChainEvents(logs) && Interleaving(jobs, LogsOf(logs)) && ListsReports(logs, chain)
    requires forall o <- history :: InLogs(o.job, LogsOf(logs))
    requires Resolved(Replay(map[], history).Keys, Flat(jobs))
    requires ListsRows(Sweep(Replay(map[], history), jobs), rows)
    ensures forall e <- rows :: ReportsBalances(e)
    ensures B.MayReturn(Snapshots(rows), asset, b) <==> LatestBalances(chain, asset, b)
  {
    hide *;
    RowsAreChain(logs, history, jobs, rows, chain);
    SameAnswers(Snapshots(rows), Snapshots(chain), asset, b);
    LatestOfChain(chain, asset, b);
  }

  lemma LatestOfChain(chain: seq<Event>, asset: Text, b: B.Columns)
    requires forall e <- chain :: ReportsBalances(e)
    ensures B.MayReturn(Snapshots(chain), asset, b) <==> LatestBalances(chain, asset, b)
  {
    hide B.MayAnswer, Latest, Holds, Snapshots;
    ColumnsHoldFields();
    AnswersAreLatest(chain, asset, B.REWARD_POOL, RewardPoolAfter, b.rewardPool);
    AnswersAreLatest(chain, asset, B.ROLLOVER_RESERVE, RolloverReserveAfter, b.rolloverReserve);
    AnswersAreLatest(chain, asset, B.COMPENSATION_POOL, CompensationPoolAfter, b.compensationPool);
    AnswersAreLatest(chain, asset, B.COMPENSATION_UNLOCK, CompensationUnlockMs, b.compensationUnlockMs);
    AnswersAreLatest(chain, asset, B.WRAPPING_FROZEN, WrappingFrozen, b.wrappingFrozen);
  }

  /**
   The same query has exactly one answer, the record that replaying the chain's own reports leaves,
   provided no two reports about the asset share timestamp and event number.
   */
  lemma BalancesAreReplayed(logs: EventLogs, history: seq<Occurrence>, jobs: seq<Job>, rows: seq<Event>,
                            chain: seq<Event>, asset: Text, b: B.Columns)
    requires ChainEvents(logs) && Interleaving(jobs, LogsOf(logs)) && ListsReports(logs, chain)
    requires forall o <- history :: InLogs(o.job, LogsOf(logs))
    requires Resolved(Replay(map[], history).Keys, Flat(jobs))
    requires ListsRows(Sweep(Replay(map[], history), jobs), rows)
    requires B.NoTies(Snapshots(chain), asset)
    ensures forall e <- rows :: ReportsBalances(e)
    ensures B.MayReturn(Snapshots(rows), asset, b) <==> b == B.Replay(B.InOrder(Snapshots(chain)), asset)
    ensures LatestBalances(chain, asset, B.Replay(B.InOrder(Snapshots(chain)), asset))
  {
    hide *;
    RowsAreChain(logs, history, jobs, rows, chain);
    var replayed := B.Replay(B.InOrder(Snapshots(chain)), asset);
    LatestOfChain(chain, asset, replayed);
    B.QueryIsReplay(Snapshots(chain), asset, replayed);
    B.QueryIsReplay(Snapshots(chain), asset, b);
    SameAnswers(Snapshots(rows), Snapshots(chain), asset, b);
  }

  /** Reports in the order the chain emitted them: a checkpoint's transactions share its timestamp. */
  predicate Emitted(chain: seq<Event>) {
    forall i, k :: 0 <= i < k < |chain| ==> TimestampOf(chain[i]) <= TimestampOf(chain[k])
  }

  /** `k` is the last event that reports the field. */
  predicate LastReport<V>(chain: seq<Event>, asset: Text, field: Field<V>, k: nat) {
    k < |chain| && HasField(chain[k], asset, field) && forall i :: k < i < |chain| ==> !HasField(chain[i], asset, field)
  }

  /** A report of the field in the last one's checkpoint, with the highest event number there. */
  predicate Foremost<V>(chain: seq<Event>, asset: Text, field: Field<V>, last: Event, e: Event) {
    && HasField(e, asset, field) && TimestampOf(e) == TimestampOf(last)
    && forall d <- chain :: HasField(d, asset, field) && TimestampOf(d) == TimestampOf(last) ==>
         KeyOf(d).eventSeq <= KeyOf(e).eventSeq
  }

  /**
   With ties, and for the order in which the chain emitted its reports: what the query answers from the
   tables for a balance is sure to be what the chain reported last if and only if every report with that
   timestamp and the highest event number there reported the same.
   */
  lemma LastReportIsServedIff<V>(logs: EventLogs, history: seq<Occurrence>, jobs: seq<Job>, rows: seq<Event>,
                                 chain: seq<Event>, asset: Text, col: B.Column<V>, field: Field<V>, k: nat)
    requires ChainEvents(logs) && Interleaving(jobs, LogsOf(logs)) && ListsReports(logs, chain)
    requires forall o <- history :: InLogs(o.job, LogsOf(logs))
    requires Resolved(Replay(map[], history).Keys, Flat(jobs))
    requires ListsRows(Sweep(Replay(map[], history), jobs), rows)
    requires Holds(col, field) && Emitted(chain) && LastReport(chain, asset, field, k)
    ensures forall e <- rows :: ReportsBalances(e)
    ensures (forall v :: B.MayAnswer(Snapshots(rows), asset, col, v) ==> v == field(chain[k]))
       <==> (forall e <- chain :: Foremost(chain, asset, field, chain[k], e) ==> field(e) == field(chain[k]))
  {
    assert k < |chain|;
    hide *;
    RowsAreChain(logs, history, jobs, rows, chain);
    SureOfSame(Snapshots(rows), Snapshots(chain), asset, col, field(chain[k]));
    LastReportIsAnsweredIff(chain, asset, col, field, k);
  }

  lemma LastReportIsAnsweredIff<V>(chain: seq<Event>, asset: Text, col: B.Column<V>, field: Field<V>, k: nat)
    requires forall e <- chain :: ReportsBalances(e)
    requires Holds(col, field) && Emitted(chain) && LastReport(chain, asset, field, k)
    ensures (forall v :: B.MayAnswer(Snapshots(chain), asset, col, v) ==> v == field(chain[k]))
       <==> (forall e <- chain :: Foremost(chain, asset, field, chain[k], e) ==> field(e) == field(chain[k]))
  {
    var rows := Snapshots(chain);
    forall i | 0 <= i < |chain| ensures SameReport(rows[i], chain[i], asset, col, field) {
      SnapshotReports(chain[i], asset, col, field);
    }
    SureOfChain(rows, chain, asset, col, field, k);
  }

  /** A row of the table shows an event's report. */
  ghost predicate SameReport<V>(r: B.Snapshot, e: Event, asset: Text, col: B.Column<V>, field: Field<V>) {
    && col(r) == field(e) && (B.Reports(r, asset, col) <==> HasField(e, asset, field))
    && r.timestampMs == TimestampOf(e) && r.key == KeyOf(e)
  }

  ghost predicate SameReports<V>(rows: seq<B.Snapshot>, chain: seq<Event>, asset: Text, col: B.Column<V>,
                                 field: Field<V>) {
    |rows| == |chain| && forall i :: 0 <= i < |chain| ==> SameReport(rows[i], chain[i], asset, col, field)
  }

  lemma SureOfChain<V>(rows: seq<B.Snapshot>, chain: seq<Event>, asset: Text, col: B.Column<V>, field: Field<V>, k: nat)
    requires SameReports(rows, chain, asset, col, field) && Emitted(chain) && LastReport(chain, asset, field, k)
    ensures (forall v :: B.MayAnswer(rows, asset, col, v) ==> v == field(chain[k]))
       <==> (forall e <- chain :: Foremost(chain, asset, field, chain[k], e) ==> field(e) == field(chain[k]))
  {
    hide B.Reports, HasField, B.MayAnswer, KeyOf, TimestampOf, B.Foremost, Foremost;
    B.ReadsTheLastValueIff(rows, asset, col, k);
    forall i | 0 <= i < |chain|
      ensures B.Foremost(rows, asset, col, k, i) <==> Foremost(chain, asset, field, chain[k], chain[i])
    {
      ForemostAt(rows, chain, asset, col, field, k, i);
    }
    forall e | e in chain ensures exists i :: 0 <= i < |chain| && chain[i] == e {}
  }

  lemma ForemostAt<V>(rows: seq<B.Snapshot>, chain: seq<Event>, asset: Text, col: B.Column<V>, field: Field<V>,
                      k: nat, i: nat)
    requires SameReports(rows, chain, asset, col, field) && k < |chain| && i < |chain|
    ensures B.Foremost(rows, asset, col, k, i) <==> Foremost(chain, asset, field, chain[k], chain[i])
  {
    hide B.Reports, HasField, KeyOf, TimestampOf;
    if B.Foremost(rows, asset, col, k, i) {
      forall d | d in chain && HasField(d, asset, field) && TimestampOf(d) == TimestampOf(chain[k])
        ensures KeyOf(d).eventSeq <= KeyOf(chain[i]).eventSeq
      {
        var j :| 0 <= j < |chain| && chain[j] == d;
        assert rows[j] in rows;
      }
    }
    if Foremost(chain, asset, field, chain[k], chain[i]) {
      forall q | q in rows && B.Reports(q, asset, col) && q.timestampMs == rows[k].timestampMs
        ensures q.key.eventSeq <= rows[i].key.eventSeq
      {
        var j :| 0 <= j < |rows| && rows[j] == q;
        assert chain[j] in chain;
      }
    }
  }

  lemma SureOfSame<V>(rows: seq<B.Snapshot>, other: seq<B.Snapshot>, asset: Text, col: B.Column<V>, w: Option<V>)
    requires forall r :: r in rows <==> r in other
    ensures (forall v :: B.MayAnswer(rows, asset, col, v) ==> v == w)
       <==> (forall v :: B.MayAnswer(other, asset, col, v) ==> v == w)
  {
    hide B.MayAnswer;
    forall v ensures B.MayAnswer(rows, asset, col, v) <==> B.MayAnswer(other, asset, col, v) {
      B.InsertionOrderIsInvisible(rows, other, asset, col, v);
    }
  }

  lemma SameAnswers(rows: seq<B.Snapshot>, other: seq<B.Snapshot>, asset: Text, b: B.Columns)
    requires forall r :: r in rows <==> r in other
    ensures B.MayReturn(rows, asset, b) <==> B.MayReturn(other, asset, b)
  {
    hide B.MayAnswer;
    B.InsertionOrderIsInvisible(rows, other, asset, B.REWARD_POOL, b.rewardPool);
    B.InsertionOrderIsInvisible(rows, other, asset, B.ROLLOVER_RESERVE, b.rolloverReserve);
    B.InsertionOrderIsInvisible(rows, other, asset, B.COMPENSATION_POOL, b.compensationPool);
    B.InsertionOrderIsInvisible(rows, other, asset, B.COMPENSATION_UNLOCK, b.compensationUnlockMs);
    B.InsertionOrderIsInvisible(rows, other, asset, B.WRAPPING_FROZEN, b.wrappingFrozen);
  }
}
