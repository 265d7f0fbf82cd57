/**
 What the reference projection says, table by table and column by column, in terms of the chain's
 events alone: no statement and no handler is mentioned in the definitions of this file's first part.
 */
module TableContents {
  import opened Common
  import opened Events
  import opened SqlStore
  import opened Projection
  import opened Convergence
  import opened Handlers

  // ------------------------------------------------------------------ the tables as documented

  predicate IsPosition(e: Event) {
    e.payload.PositionFeed? && !e.payload.position.CapitalContributed?
  }

  /** Events that report an accumulator's balances. */
  predicate ReportsBalances(e: Event) {
    match e.payload
    case YieldFeed(_) => true
    case PositionFeed(p) => p.YieldClaimed?
    case AssetFeed(a) => a.EntityDefaulted?
    case DisputeFeed(d) => d.DisputeResolved?
    case _ => false
  }

  /** Which events an append-only table has a row for. */
  predicate Records(t: EventTable, e: Event) {
    match t
    case RawEvents => true
    case GovernanceEvents => e.payload.GovernanceFeed?
    case AssetStateChanges =>
      e.payload.AssetFeed? && (e.payload.asset.AssetCreated? || e.payload.asset.AssetStateChanged?)
    case ValidatorStakeEvents =>
      e.payload.ValidatorFeed? && (e.payload.validator.StakeAdded? || e.payload.validator.StakeWithdrawn?)
    case ValidatorStatusChanges => e.payload.ValidatorFeed? && e.payload.validator.ValidatorStatusChanged?
    case RaiseProgress => e.payload.PositionFeed? && e.payload.position.CapitalContributed?
    case PositionEvents => IsPosition(e)
    case YieldIndexSeries => e.payload.YieldFeed? && !e.payload.yieldIndex.DustSwept?
    case TrancheEvents => e.payload.TrancheFeed?
    case JuryVotes => e.payload.DisputeFeed? && e.payload.dispute.JurorVoted?
    case JurorRewards => e.payload.DisputeFeed? && e.payload.dispute.JurorRewardClaimed?
    case DustSweeps => e.payload.YieldFeed? && e.payload.yieldIndex.DustSwept?
    case AccumulatorBalances => ReportsBalances(e)
  }

  /** The asset an event is about, for the events that have one. */
  function AssetOf(e: Event): Text {
    match e.payload
    case AssetFeed(a) => a.assetId
    case PositionFeed(p) => p.assetId
    case YieldFeed(y) => y.assetId
    case TrancheFeed(t) => t.assetId
    case DisputeFeed(DisputeOpened(_, asset, _, _, _, _)) => asset
    case DisputeFeed(DisputeResolved(_, asset, _, _, _, _, _, _)) => asset
    case _ => []
  }

  /** The rows that a table's REFERENCES columns name. */
  function ForeignKeys(t: EventTable, e: Event): set<RowKey> {
    match t
    case RawEvents => {}
    case GovernanceEvents => {}
    case ValidatorStakeEvents => if e.payload.ValidatorFeed? then {PoolRow(e.payload.validator.poolId)} else {}
    case ValidatorStatusChanges => if e.payload.ValidatorFeed? then {PoolRow(e.payload.validator.poolId)} else {}
    case JuryVotes => if e.payload.DisputeFeed? then {DisputeRow(e.payload.dispute.disputeId)} else {}
    case JurorRewards => if e.payload.DisputeFeed? then {DisputeRow(e.payload.dispute.disputeId)} else {}
    case _ => {AssetRow(AssetOf(e))}
  }

  /** The value an event gives a mutable column of an entity, if it gives it one. */
  function Sets(e: Event, at: RowKey, c: Column): Option<Value> {
    match (at, e.payload)
    case (AssetRow(id), AssetFeed(a)) => if a.assetId == id then SetsOfAsset(a, c) else None
    case (PoolRow(id), ValidatorFeed(v)) =>
      if v.poolId == id && v.ValidatorStatusChanged? && c == CurrentStatus then Some(Num(v.newStatus)) else None
    case (DisputeRow(id), DisputeFeed(d)) =>
      if d.disputeId == id && d.DisputeResolved? then SetsOfDispute(e, d, c) else None
    case _ => None
  }

  function SetsOfAsset(a: AssetEvent, c: Column): Option<Value> {
    match c
    case CurrentState => if a.AssetStateChanged? then Some(Num(a.newState)) else None
    case ValidatorPoolId => if a.AssetVouched? then Some(Str(a.poolId)) else None
    case Coverage => if a.AssetVouched? then Some(Num(AsI64(a.coverage))) else None
    case AccumulatorId => if a.AssetOperational? || a.RaiseFinalized? then Some(Str(a.accumulatorId)) else None
    case CloseReason => if a.AssetClosed? then Some(Num(a.reason)) else None
    case _ => None
  }

  function SetsOfDispute(e: Event, d: DisputeEvent, c: Column): Option<Value>
    requires d.DisputeResolved?
  {
    match c
    case Verdict => Some(Num(d.verdict))
    case Slashed => Some(Num(AsI64(d.slashed)))
    case Bounty => Some(Num(AsI64(d.bounty)))
    case ResolvedAtMs => Some(Num(TimestampOf(e)))
    case ResolvedTx => Some(Str(e.id.txDigest))
    case _ => None
  }

  /** The columns of an entity that later events may change. */
  function ColumnsOfRow(at: RowKey): set<Column> {
    match at
    case AssetRow(_) => {ValidatorPoolId, Coverage, AccumulatorId, CurrentState, CloseReason}
    case PoolRow(_) => {CurrentStatus}
    case DisputeRow(_) => {Verdict, Slashed, Bounty, ResolvedAtMs, ResolvedTx}
    case _ => {}
  }

  /** What a created entity shows before any event changes it: PENDING_VOUCH, an active pool, otherwise nothing. */
  function AtCreation(c: Column): Value {
    if c == CurrentState || c == CurrentStatus then Num(0) else Null
  }

  /** The last value that events, in order, give a column. */
  function LastSet(events: seq<Event>, at: RowKey, c: Column): Option<Value> {
    if events == [] then None
    else
      var v := Sets(events[|events| - 1], at, c);
      if v.Some? then v else LastSet(events[..|events| - 1], at, c)
  }

  /** What one statement does: append a row to a table, add an entity, or change one. */
  datatype Write = Appends(table: EventTable) | Adds(at: RowKey) | Changes(at: RowKey)

  function WriteOf(s: Statement): Write {
    match s
    case Insert(EventRow(t, _), _, _) => Appends(t)
    case Insert(at, _, _) => Adds(at)
    case Update(at, _) => Changes(at)
  }

  function WritesOf(ss: seq<Statement>): seq<Write> {
    seq(|ss|, i requires 0 <= i < |ss| => WriteOf(ss[i]))
  }

  /** The writes of an event's handler in their order: where it is cut decides which of them are made. */
  function WriteOrder(e: Event): seq<Write> {
    match e.payload
    case GovernanceFeed(_) => [Appends(GovernanceEvents)]
    case AssetFeed(a) => AssetWrites(a)
    case ValidatorFeed(v) =>
      if v.ValidatorRegistered? then [Adds(PoolRow(v.poolId))]
      else if v.ValidatorStatusChanged? then [Appends(ValidatorStatusChanges), Changes(PoolRow(v.poolId))]
      else [Appends(ValidatorStakeEvents)]
    case PositionFeed(p) =>
      if p.CapitalContributed? then [Appends(RaiseProgress)]
      else if p.YieldClaimed? then [Appends(PositionEvents), Appends(AccumulatorBalances)]
      else [Appends(PositionEvents)]
    case YieldFeed(y) =>
      if y.DustSwept? then [Appends(DustSweeps), Appends(AccumulatorBalances)]
      else [Appends(YieldIndexSeries), Appends(AccumulatorBalances)]
    case TrancheFeed(_) => [Appends(TrancheEvents)]
    case DisputeFeed(d) =>
      if d.DisputeOpened? then [Adds(DisputeRow(d.disputeId))]
      else if d.DisputeResolved? then [Changes(DisputeRow(d.disputeId)), Appends(AccumulatorBalances)]
      else if d.JurorVoted? then [Appends(JuryVotes)] else [Appends(JurorRewards)]
    case _ => []
  }

  function AssetWrites(a: AssetEvent): seq<Write> {
    var at := AssetRow(a.assetId);
    if a.AssetCreated? then
      [Adds(at)] + seq(|a.trancheAmounts|, i requires 0 <= i < |a.trancheAmounts| => Adds(ScheduleRow(a.assetId, i)))
      + [Appends(AssetStateChanges)]
    else if a.AssetStateChanged? then [Appends(AssetStateChanges), Changes(at)]
    else if a.EntityDefaulted? then [Appends(AccumulatorBalances)]
    else if a.AssetCancelled? || a.RaiseAborted? then []
    else [Changes(at)]
  }

  // ------------------------------------------------------------------ handlers write what is documented

  lemma AssetWritesInOrder(e: Event, a: AssetEvent)
    ensures WritesOf(AssetStatements(e, a)) == AssetWrites(a)
  {
    hide KeyOf, InitialColumns, AsI64;
  }

  /** Every event is archived first, and its handler's writes follow in their order. */
  lemma HandlersWriteInOrder(e: Event)
    ensures WritesOf(JobOf(e).statements) == [Appends(RawEvents)] + WriteOrder(e)
  {
    hide KeyOf, InitialColumns, AsI64, TimestampOf, AssetWrites, AssetStatements;
    match e.payload {
      case AssetFeed(a) => AssetWritesInOrder(e, a);
      case _ =>
    }
  }


  lemma RecordedStatement(e: Event, s: Statement)
    requires s in JobOf(e).statements && s.Insert? && s.at.EventRow?
    ensures Records(s.at.table, e) && s.at.key == KeyOf(e) && s.row.source == e && s.refs == ForeignKeys(s.at.table, e)
  {
    hide KeyOf;
    if e.payload.AssetFeed? && s in HandlerStatements(e) { RecordedByAsset(e, e.payload.asset, s); }
  }

  lemma RecordedByAsset(e: Event, a: AssetEvent, s: Statement)
    requires e.payload == AssetFeed(a) && s in AssetStatements(e, a) && s.Insert? && s.at.EventRow?
    ensures Records(s.at.table, e) && s.at.key == KeyOf(e) && s.row.source == e && s.refs == ForeignKeys(s.at.table, e)
  {
    hide KeyOf;
  }

  lemma RecordIsInserted(t: EventTable, e: Event) returns (s: Statement)
    requires Records(t, e)
    ensures InsertsAt(JobOf(e), s, EventRow(t, KeyOf(e)))
  {
    s := Log(e, t, ForeignKeys(t, e));
  }

  lemma CreatedStatement(e: Event, s: Statement)
    requires s in JobOf(e).statements && s.Insert? && !s.at.EventRow?
    ensures Creates(e, s.at) && s.row.source == e
  {
  }

  lemma CreationIsInserted(e: Event, at: RowKey) returns (s: Statement)
    requires Creates(e, at)
    ensures InsertsAt(JobOf(e), s, at)
  {
    if at.ScheduleRow? {
      s := Create(e, at, {AssetRow(at.id)});
      ScheduleHas(e, at.id, |e.payload.asset.trancheAmounts|, at.index);
    } else {
      s := CreatorsInsert(e, at);
    }
  }

  lemma ScheduleHas(e: Event, id: Text, n: nat, i: nat)
    requires i < n
    ensures Create(e, ScheduleRow(id, i), {AssetRow(id)}) in ScheduleInserts(e, id, n)
  {
    assert ScheduleInserts(e, id, n)[i] == Create(e, ScheduleRow(id, i), {AssetRow(id)});
  }

  lemma UpdateSets(e: Event, s: Statement, c: Column)
    requires s in JobOf(e).statements && s.Update?
    ensures if c in s.changes then Sets(e, s.at, c) == Some(s.changes[c]) else Sets(e, s.at, c) == None
  {
    match e.payload {
      case AssetFeed(a) => AssetUpdateSets(e, a, s, c);
      case DisputeFeed(d) => DisputeUpdateSets(e, d, s, c);
      case _ =>
    }
  }

  lemma AssetUpdateSets(e: Event, a: AssetEvent, s: Statement, c: Column)
    requires s in AssetStatements(e, a) && s.Update?
    ensures s.at == AssetRow(a.assetId)
    ensures if c in s.changes then SetsOfAsset(a, c) == Some(s.changes[c]) else SetsOfAsset(a, c) == None
  {
  }

  lemma DisputeUpdateSets(e: Event, d: DisputeEvent, s: Statement, c: Column)
    requires s in DisputeStatements(e, d) && s.Update?
    ensures s.at == DisputeRow(d.disputeId) && d.DisputeResolved?
    ensures if c in s.changes then SetsOfDispute(e, d, c) == Some(s.changes[c]) else SetsOfDispute(e, d, c) == None
  {
  }

  lemma OneUpdate(e: Event, s: Statement, t: Statement)
    requires s in JobOf(e).statements && t in JobOf(e).statements && s.Update? && t.Update?
    ensures s == t
  {
  }

  lemma SettingIsUpdating(e: Event, at: RowKey, c: Column) returns (s: Statement)
    requires Sets(e, at, c).Some?
    ensures s in JobOf(e).statements && s.Update? && s.at == at
  {
    match e.payload {
      case AssetFeed(a) => s := SettingOfAsset(e, a, c);
      case ValidatorFeed(v) => s := HandlerStatements(e)[1];
      case DisputeFeed(d) => s := HandlerStatements(e)[0];
    }
  }

  lemma SettingOfAsset(e: Event, a: AssetEvent, c: Column) returns (s: Statement)
    requires e.payload == AssetFeed(a) && SetsOfAsset(a, c).Some?
    ensures s in JobOf(e).statements && s.Update? && s.at == AssetRow(a.assetId)
  {
    s := HandlerStatements(e)[if a.AssetStateChanged? then 1 else 0];
  }

  lemma {:induction false} OnlyUpdate(ss: seq<Statement>, at: RowKey, u: Statement)
    requires u.Update? && u.at == at && forall s <- ss :: s.Update? && s.at == at ==> s == u
    ensures Updates(ss, at) == if u in ss then u.changes else map[]
  {
    if ss != [] {
      var n := |ss| - 1;
      assert ss == ss[..n] + [ss[n]] && ss[n] in ss;
      OnlyUpdate(ss[..n], at, u);
      assert u.changes + u.changes == u.changes && map[] + u.changes == u.changes;
    }
  }

  lemma {:induction false} NoUpdate(ss: seq<Statement>, at: RowKey)
    requires forall s <- ss :: s.Update? ==> s.at != at
    ensures Updates(ss, at) == map[]
  {
    if ss != [] {
      assert ss[|ss| - 1] in ss;
      NoUpdate(ss[..|ss| - 1], at);
    }
  }

  /** What one event's handler does to a column is what the event sets. */
  lemma JobUpdates(e: Event, at: RowKey, c: Column)
    ensures var u := Updates(JobOf(e).statements, at);
            if c in u then Sets(e, at, c) == Some(u[c]) else Sets(e, at, c) == None
  {
    hide HandlerStatements, JobOf, Sets;
    var ss := JobOf(e).statements;
    if s :| s in ss && s.Update? && s.at == at {
      forall t | t in ss && t.Update? ensures t == s { OneUpdate(e, s, t); }
      OnlyUpdate(ss, at, s);
      UpdateSets(e, s, c);
    } else {
      NoUpdate(ss, at);
      if Sets(e, at, c).Some? { var _ := SettingIsUpdating(e, at, c); }
    }
  }

  lemma {:induction false} LogUpdates(events: seq<Event>, at: RowKey, c: Column)
    ensures var u := Updates(Flat(Jobs(events)), at);
            if c in u then LastSet(events, at, c) == Some(u[c]) else LastSet(events, at, c) == None
  {
    hide JobOf, Sets;
    if events == [] {
      assert Jobs(events) == [] && Flat([]) == [];
    } else {
      var n := |events| - 1;
      LogUpdates(events[..n], at, c);
      assert Jobs(events)[..n] == Jobs(events[..n]);
      UpdatesAppend(Flat(Jobs(events[..n])), JobOf(events[n]).statements, at);
      JobUpdates(events[n], at, c);
    }
  }

  // ------------------------------------------------------------------ the contents

  lemma OneEventPerKey(logs: EventLogs, d: Event, e: Event)
    requires ChainEvents(logs) && InEvents(d, logs) && InEvents(e, logs) && KeyOf(d) == KeyOf(e)
    ensures d == e
  {
  }

  /** Each append-only table has exactly one row for each event it records, a copy of it under its key. */
  lemma EventTables(logs: EventLogs, jobs: seq<Job>, t: EventTable, k: EventKey)
    requires ChainEvents(logs) && Interleaving(jobs, LogsOf(logs))
    ensures EventRow(t, k) in Projected(jobs) <==> exists e :: InEvents(e, logs) && Records(t, e) && KeyOf(e) == k
    ensures EventRow(t, k) in Projected(jobs) ==>
              var e := Projected(jobs)[EventRow(t, k)].source; InEvents(e, logs) && Records(t, e) && KeyOf(e) == k
  {
    hide HandlerStatements, Updates, Flat, Inserted, FirstInsert, LogsOf, Records;
    InterleavingMembers(jobs, LogsOf(logs));
    FlatInserts(jobs, EventRow(t, k));
    if EventRow(t, k) in Projected(jobs) {
      var j, s := FirstWriter(jobs, EventRow(t, k));
      InLogsOf(j, logs);
      RecordedStatement(j.event, s);
    }
    if e :| InEvents(e, logs) && Records(t, e) && KeyOf(e) == k {
      var s := RecordIsInserted(t, e);
      InLogsOf(JobOf(e), logs);
      assert JobOf(e) in jobs;
    }
  }

  /** Entities and declared tranches: exactly those some event created, as that event describes them. */
  lemma EntityTables(logs: EventLogs, jobs: seq<Job>, at: RowKey)
    requires ChainEvents(logs) && Interleaving(jobs, LogsOf(logs)) && !at.EventRow?
    ensures at in Projected(jobs) <==> exists e :: InEvents(e, logs) && Creates(e, at)
    ensures at in Projected(jobs) ==> var e := Projected(jobs)[at].source; InEvents(e, logs) && Creates(e, at)
  {
    hide HandlerStatements, Updates, Flat, Inserted, FirstInsert, LogsOf, Creates;
    InterleavingMembers(jobs, LogsOf(logs));
    FlatInserts(jobs, at);
    if at in Projected(jobs) {
      var j, s := FirstWriter(jobs, at);
      InLogsOf(j, logs);
      CreatedStatement(j.event, s);
    }
    if e :| InEvents(e, logs) && Creates(e, at) {
      var s := CreationIsInserted(e, at);
      InLogsOf(JobOf(e), logs);
      assert JobOf(e) in jobs;
    }
  }

  lemma ColumnsOfProjected(logs: Logs, jobs: seq<Job>, at: RowKey)
    requires ChainLogs(logs) && Interleaving(jobs, logs) && at in Projected(jobs)
    ensures Projected(jobs)[at].columns == InitialColumns(at) + Updates(Flat(logs(Owner(at))), at)
  {
    hide Flat, Updates;
    InterleavingMembers(jobs, logs);
    OwnerUpdates(jobs, at);
    var j, s := FirstWriter(jobs, at);
    assert Shaped(j) && ShapedStatement(j.event, s);
  }

  /**
   A row has exactly the mutable columns of its kind. Each holds the last value that its own module's log
   gives it; when no event sets it, state and status are 0 and every other column is NULL.
   */
  lemma MutableColumns(logs: EventLogs, jobs: seq<Job>, at: RowKey, c: Column)
    requires ChainEvents(logs) && Interleaving(jobs, LogsOf(logs))
    requires at in Projected(jobs)
    ensures c in Projected(jobs)[at].columns <==> c in ColumnsOfRow(at)
    ensures c in ColumnsOfRow(at) ==>
              var v := LastSet(logs(Owner(at)), at, c);
              Projected(jobs)[at].columns[c] == if v.Some? then v.value else AtCreation(c)
  {
    hide *;
    ChainEventsAreChainLogs(logs);
    ColumnsOfProjected(LogsOf(logs), jobs, at);
    FlatLog(logs, Owner(at));
    LogUpdates(logs(Owner(at)), at, c);
    ColumnsAtCreation(at, c);
    if c !in ColumnsOfRow(at) { NeverSet(logs(Owner(at)), at, c); }
  }

  lemma FlatLog(logs: EventLogs, m: Module)
    ensures Flat(LogsOf(logs)(m)) == Flat(Jobs(logs(m)))
  {
  }

  lemma ColumnsAtCreation(at: RowKey, c: Column)
    ensures c in InitialColumns(at) <==> c in ColumnsOfRow(at)
    ensures c in ColumnsOfRow(at) ==> InitialColumns(at)[c] == AtCreation(c)
  {
  }

  lemma {:induction false} NeverSet(events: seq<Event>, at: RowKey, c: Column)
    requires c !in ColumnsOfRow(at)
    ensures LastSet(events, at, c).None?
  {
    if events != [] { NeverSet(events[..|events| - 1], at, c); }
  }
}
