/** The SQL statements each event causes, in the order its handler issues them, one transaction each. */
module Handlers {
  import opened Common
  import opened Events
  import opened SqlStore
  import opened Projection
  import opened Convergence

  /** An append-only row: a copy of the event under its own key. */
  function Log(e: Event, table: EventTable, refs: set<RowKey>): Statement {
    Insert(EventRow(table, KeyOf(e)), Row(e, map[]), refs)
  }

  function Create(e: Event, at: RowKey, refs: set<RowKey>): Statement {
    Insert(at, Row(e, InitialColumns(at)), refs)
  }

  /** One row per declared tranche, each its own statement. */
  function ScheduleInserts(e: Event, id: Text, n: nat): seq<Statement> {
    seq(n, i requires 0 <= i < n => Create(e, ScheduleRow(id, i), {AssetRow(id)}))
  }

  function AssetStatements(e: Event, a: AssetEvent): seq<Statement> {
    var asset := AssetRow(a.assetId);
    match a
    case AssetCreated(id, _, _, _, _, amounts, _, _) =>
      [Create(e, asset, {})] + ScheduleInserts(e, id, |amounts|) + [Log(e, AssetStateChanges, {asset})]
    case AssetVouched(_, pool, _, coverage) =>
      [Update(asset, map[ValidatorPoolId := Str(pool), Coverage := Num(AsI64(coverage))])]
    case AssetStateChanged(_, _, newState) =>
      [Log(e, AssetStateChanges, {asset}), Update(asset, map[CurrentState := Num(newState)])]
    case AssetClosed(_, reason) => [Update(asset, map[CloseReason := Num(reason)])]
    case AssetOperational(_, accumulator) => [Update(asset, map[AccumulatorId := Str(accumulator)])]
    case RaiseFinalized(_, accumulator, _) => [Update(asset, map[AccumulatorId := Str(accumulator)])]
    case AssetCancelled(_) => []
    case RaiseAborted(_, _) => []
    case EntityDefaulted(_, _, _, _) => [Log(e, AccumulatorBalances, {asset})]
  }

  function ValidatorStatements(e: Event, v: ValidatorEvent): seq<Statement> {
    var pool := PoolRow(v.poolId);
    match v
    case ValidatorRegistered(_, _, _, _) => [Create(e, pool, {})]
    case StakeAdded(_, _, _, _) => [Log(e, ValidatorStakeEvents, {pool})]
    case StakeWithdrawn(_, _, _, _) => [Log(e, ValidatorStakeEvents, {pool})]
    case ValidatorStatusChanged(_, _, newStatus, _) =>
      [Log(e, ValidatorStatusChanges, {pool}), Update(pool, map[CurrentStatus := Num(newStatus)])]
  }

  function PositionStatements(e: Event, p: PositionEvent): seq<Statement> {
    var asset := AssetRow(p.assetId);
    match p
    case CapitalContributed(_, _, _, _) => [Log(e, RaiseProgress, {asset})]
    case YieldClaimed(_, _, _, _, _) => [Log(e, PositionEvents, {asset}), Log(e, AccumulatorBalances, {asset})]
    case _ => [Log(e, PositionEvents, {asset})]
  }

  function YieldStatements(e: Event, y: YieldEvent): seq<Statement> {
    var asset := AssetRow(y.assetId);
    [Log(e, if y.DustSwept? then DustSweeps else YieldIndexSeries, {asset}), Log(e, AccumulatorBalances, {asset})]
  }

  function DisputeStatements(e: Event, d: DisputeEvent): seq<Statement> {
    var dispute := DisputeRow(d.disputeId);
    match d
    case DisputeOpened(_, asset, pool, _, _, _) => [Create(e, dispute, {AssetRow(asset), PoolRow(pool)})]
    case JurorVoted(_, _, _, _, _) => [Log(e, JuryVotes, {dispute})]
    case DisputeResolved(_, asset, verdict, slashed, bounty, _, _, _) =>
      [Update(dispute,
              map[Verdict := Num(verdict), Slashed := Num(AsI64(slashed)), Bounty := Num(AsI64(bounty)),
                  ResolvedAtMs := Num(TimestampOf(e)), ResolvedTx := Str(e.id.txDigest)]),
       Log(e, AccumulatorBalances, {AssetRow(asset)})]
    case JurorRewardClaimed(_, _, _) => [Log(e, JurorRewards, {dispute})]
  }

  /** What `route_event` dispatches to; nothing for an unknown type or a body that does not deserialize. */
  function HandlerStatements(e: Event): seq<Statement> {
    match e.payload
    case GovernanceFeed(_) => [Log(e, GovernanceEvents, {})]
    case AssetFeed(a) => AssetStatements(e, a)
    case ValidatorFeed(v) => ValidatorStatements(e, v)
    case PositionFeed(p) => PositionStatements(e, p)
    case YieldFeed(y) => YieldStatements(e, y)
    case TrancheFeed(t) => [Log(e, TrancheEvents, {AssetRow(t.assetId)})]
    case DisputeFeed(d) => DisputeStatements(e, d)
    case Unknown(_) => []
    case Malformed(_) => []
  }

  /** `process_event`: archive, then route. */
  function JobOf(e: Event): Job {
    Job(e, [Log(e, RawEvents, {})] + HandlerStatements(e))
  }

  // ------------------------------------------------------------------ what the chain guarantees

  type EventLogs = Module -> seq<Event>

  predicate Creates(e: Event, at: RowKey) {
    match at
    case AssetRow(id) => e.payload.AssetFeed? && e.payload.asset.AssetCreated? && e.payload.asset.assetId == id
    case ScheduleRow(id, i) =>
      e.payload.AssetFeed? && e.payload.asset.AssetCreated? && e.payload.asset.assetId == id
      && i < |e.payload.asset.trancheAmounts|
    case PoolRow(id) =>
      e.payload.ValidatorFeed? && e.payload.validator.ValidatorRegistered? && e.payload.validator.poolId == id
    case DisputeRow(id) =>
      e.payload.DisputeFeed? && e.payload.dispute.DisputeOpened? && e.payload.dispute.disputeId == id
    case EventRow(_, _) => false
  }

  /** The entity this event changes or votes on, which its own module must have created before. */
  function Subject(p: Payload): set<RowKey> {
    match p
    case AssetFeed(a) =>
      if a.AssetVouched? || a.AssetStateChanged? || a.AssetClosed? || a.AssetOperational? || a.RaiseFinalized?
      then {AssetRow(a.assetId)} else {}
    case ValidatorFeed(v) => if v.ValidatorStatusChanged? then {PoolRow(v.poolId)} else {}
    case DisputeFeed(d) => if d.DisputeOpened? then {} else {DisputeRow(d.disputeId)}
    case _ => {}
  }

  /** The module that defines the events which insert or change an entity row. */
  predicate AtHome(e: Event) {
    match e.payload
    case AssetFeed(_) => e.mod == Asset
    case ValidatorFeed(_) => e.mod == Validator
    case DisputeFeed(_) => e.mod == Dispute
    case _ => true
  }

  predicate InEvents(e: Event, logs: EventLogs) {
    e in logs(e.mod)
  }

  predicate CreatedBefore(log: seq<Event>, i: nat, at: RowKey)
    requires i <= |log|
  {
    exists k :: 0 <= k < i && Creates(log[k], at)
  }

  /** The assets and pools the rows of this event reference. */
  function References(e: Event): set<RowKey> {
    set s, r | s in HandlerStatements(e) && s.Insert? && r in s.refs && IsRoot(r) :: r
  }

  /** Events carry the module that defines them. */
  ghost predicate Placed(logs: EventLogs) {
    forall m, e :: e in logs(m) ==> e.mod == m && AtHome(e)
  }

  /** `(tx_digest, event_seq)`, as the indexer parses it, identifies an event. */
  ghost predicate KeysIdentify(logs: EventLogs) {
    && (forall m, i, k :: 0 <= i < k < |logs(m)| ==> KeyOf(logs(m)[i]) != KeyOf(logs(m)[k]))
    && (forall d, e :: InEvents(d, logs) && InEvents(e, logs) && KeyOf(d) == KeyOf(e) ==> d == e)
  }

  /** Object ids are never reused. */
  ghost predicate FreshIds(logs: EventLogs) {
    forall d, e, at :: InEvents(d, logs) && InEvents(e, logs) && Creates(d, at) && Creates(e, at) ==> d == e
  }

  /** Nothing is changed, or voted on, before its own module has created it. */
  ghost predicate CreatedFirst(logs: EventLogs) {
    forall m, i, at :: 0 <= i < |logs(m)| && at in Subject(logs(m)[i].payload) ==> CreatedBefore(logs(m), i, at)
  }

  /** Nothing refers to an asset or a pool that never exists. */
  ghost predicate NothingDangles(logs: EventLogs) {
    forall e, at :: InEvents(e, logs) && at in References(e) ==> exists d :: InEvents(d, logs) && Creates(d, at)
  }

  ghost predicate ChainEvents(logs: EventLogs) {
    Placed(logs) && KeysIdentify(logs) && FreshIds(logs) && CreatedFirst(logs) && NothingDangles(logs)
  }

  // ------------------------------------------------------------------ from events to statements

  function Jobs(events: seq<Event>): (r: seq<Job>)
    ensures |r| == |events| && forall i :: 0 <= i < |r| ==> r[i] == JobOf(events[i])
  {
    seq(|events|, i requires 0 <= i < |events| => JobOf(events[i]))
  }

  function LogsOf(logs: EventLogs): (r: Logs)
    ensures forall m :: |r(m)| == |logs(m)| && r(m) == Jobs(logs(m))
  {
    m => Jobs(logs(m))
  }

  lemma AssetStatementsAreShaped(e: Event, a: AssetEvent)
    requires e.mod == Asset
    ensures forall s <- AssetStatements(e, a) :: ShapedStatement(e, s)
  {
  }

  lemma OtherStatementsAreShaped(e: Event)
    requires AtHome(e) && !e.payload.AssetFeed?
    ensures forall s <- HandlerStatements(e) :: ShapedStatement(e, s)
  {
  }

  lemma HandlersAreShaped(e: Event)
    requires AtHome(e)
    ensures forall s <- JobOf(e).statements :: ShapedStatement(e, s)
  {
    if e.payload.AssetFeed? { AssetStatementsAreShaped(e, e.payload.asset); } else { OtherStatementsAreShaped(e); }
  }

  lemma HandlersInsertTheirOwn(e: Event, s: Statement)
    requires s in JobOf(e).statements && s.Insert?
    ensures if s.at.EventRow? then s.at.key == KeyOf(e) else Creates(e, s.at)
  {
  }

  lemma HandlersReferenceDisputes(e: Event, s: Statement, r: RowKey)
    requires s in JobOf(e).statements && s.Insert? && r in s.refs && r.DisputeRow?
    ensures r in Subject(e.payload)
  {
  }

  lemma HandlersUpdateTheirSubject(e: Event, s: Statement)
    requires s in JobOf(e).statements && s.Update?
    ensures s.at in Subject(e.payload)
  {
  }

  lemma RootsComeFirst(e: Event)
    ensures RootsFirst(JobOf(e).statements)
  {
    hide KeyOf, TimestampOf;
    if e.payload.AssetFeed? { AssetComesFirst(e); }
  }

  lemma AssetComesFirst(e: Event)
    requires e.payload.AssetFeed?
    ensures RootsFirst(JobOf(e).statements)
  {
    hide KeyOf, TimestampOf;
  }

  lemma UpdatesAreReached(e: Event)
    ensures UpdatesReached(JobOf(e).statements)
  {
    hide KeyOf, TimestampOf;
    if e.payload.AssetFeed? { AssetUpdatesAreReached(e); }
  }

  lemma AssetUpdatesAreReached(e: Event)
    requires e.payload.AssetFeed?
    ensures UpdatesReached(JobOf(e).statements)
  {
    hide KeyOf, TimestampOf;
  }

  lemma OneAssetInsertPerRow(e: Event, s: Statement, t: Statement)
    requires e.payload.AssetFeed? && s in JobOf(e).statements && t in JobOf(e).statements
    requires s.Insert? && t.Insert? && s.at == t.at
    ensures s == t
  {
    hide KeyOf, TimestampOf, InitialColumns;
  }

  lemma OneInsertPerRow(e: Event, s: Statement, t: Statement)
    requires s in JobOf(e).statements && t in JobOf(e).statements
    requires s.Insert? && t.Insert? && s.at == t.at
    ensures s == t
  {
    if e.payload.AssetFeed? { OneAssetInsertPerRow(e, s, t); }
  }

  lemma CreatorsInsert(e: Event, at: RowKey) returns (s: Statement)
    requires Creates(e, at) && !at.ScheduleRow?
    ensures InsertsAt(JobOf(e), s, at)
  {
    var refs := if at.DisputeRow? then
                  {AssetRow(e.payload.dispute.assetId), PoolRow(e.payload.dispute.targetPoolId)}
                else {};
    s := Create(e, at, refs);
  }

  lemma InLogsOf(j: Job, logs: EventLogs)
    ensures InLogs(j, LogsOf(logs)) <==> InEvents(j.event, logs) && j == JobOf(j.event)
  {
    var es := logs(j.event.mod);
    if InLogs(j, LogsOf(logs)) {
      var i :| 0 <= i < |es| && Jobs(es)[i] == j;
      assert es[i] in es;
    }
    if j.event in es && j == JobOf(j.event) {
      var i :| 0 <= i < |es| && es[i] == j.event;
      assert Jobs(es)[i] == j;
    }
  }

  lemma EventsHaveUniqueWriters(logs: EventLogs)
    requires ChainEvents(logs)
    ensures UniqueWriters(LogsOf(logs))
  {
    forall j, k, s, t, at
      | InLogs(j, LogsOf(logs)) && InLogs(k, LogsOf(logs)) && InsertsAt(j, s, at) && InsertsAt(k, t, at)
      ensures j == k && s == t
    {
      InLogsOf(j, logs);
      InLogsOf(k, logs);
      HandlersInsertTheirOwn(j.event, s);
      HandlersInsertTheirOwn(k.event, t);
      OneInsertPerRow(j.event, s, t);
    }
  }

  lemma BeforeInLog(logs: EventLogs, m: Module, i: nat, at: RowKey)
    requires i <= |logs(m)| && CreatedBefore(logs(m), i, at) && !at.ScheduleRow?
    ensures at in Inserted(Flat(LogsOf(logs)(m)[..i]))
  {
    var k :| 0 <= k < i && Creates(logs(m)[k], at);
    var _ := CreatorsInsert(logs(m)[k], at);
    var js := LogsOf(logs)(m)[..i];
    assert js[k] == JobOf(logs(m)[k]);
    FlatInserts(js, at);
  }

  lemma UpdatesAreCausal(logs: EventLogs, m: Module, i: nat, s: Statement)
    requires ChainEvents(logs) && i < |logs(m)| && s in JobOf(logs(m)[i]).statements && s.Update?
    ensures s.at in Inserted(Flat(LogsOf(logs)(m)[..i]))
  {
    hide Flat, Inserted, JobOf, LogsOf, CreatedBefore;
    HandlersUpdateTheirSubject(logs(m)[i], s);
    SubjectsAreEntities(logs(m)[i], s.at);
    BeforeInLog(logs, m, i, s.at);
  }

  lemma SubjectsAreEntities(e: Event, at: RowKey)
    requires at in Subject(e.payload)
    ensures !at.ScheduleRow? && (at.DisputeRow? ==> e.payload.DisputeFeed?)
  {
  }

  lemma ReferencesAreCausal(logs: EventLogs, m: Module, i: nat, s: Statement, r: RowKey)
    requires ChainEvents(logs) && i < |logs(m)| && s in JobOf(logs(m)[i]).statements && s.Insert? && r in s.refs
    ensures if r.DisputeRow? then m == Dispute && r in Inserted(Flat(LogsOf(logs)(m)[..i]))
            else Created(r, LogsOf(logs))
  {
    hide Flat, Inserted, LogsOf, CreatedBefore, HandlerStatements, Subject, KeysIdentify, FreshIds;
    var e := logs(m)[i];
    assert e in logs(m);
    if r.DisputeRow? {
      HandlersReferenceDisputes(e, s, r);
      SubjectsAreEntities(e, r);
      BeforeInLog(logs, m, i, r);
    } else {
      ReferencesAreRoots(e, s, r);
      var d :| InEvents(d, logs) && Creates(d, r);
      var _ := CreatorsInsert(d, r);
      InLogsOf(JobOf(d), logs);
    }
  }

  lemma ReferencesAreRoots(e: Event, s: Statement, r: RowKey)
    requires AtHome(e) && s in JobOf(e).statements && s.Insert? && r in s.refs && !r.DisputeRow?
    ensures IsRoot(r) && r in References(e)
  {
    HandlersAreShaped(e);
    assert ShapedStatement(e, s);
    hide HandlerStatements;
  }

  lemma EventsAreCausal(logs: EventLogs, m: Module, i: nat)
    requires ChainEvents(logs) && i < |logs(m)|
    ensures Causal(LogsOf(logs), m, i)
  {
    hide ChainEvents, Flat, Inserted, HandlerStatements, Created;
    var e := logs(m)[i];
    forall s, at | s in JobOf(e).statements && s.Update? && at == s.at
      ensures at in Inserted(Flat(LogsOf(logs)(m)[..i]))
    {
      UpdatesAreCausal(logs, m, i, s);
    }
    forall s, r | s in JobOf(e).statements && s.Insert? && r in s.refs
      ensures if r.DisputeRow? then m == Dispute && r in Inserted(Flat(LogsOf(logs)(m)[..i]))
              else Created(r, LogsOf(logs))
    {
      ReferencesAreCausal(logs, m, i, s, r);
    }
  }

  // ------------------------------------------------------------------ what users may write

  /** None of the user's words in this event has the byte 0; a description without a tranche is never stored. */
  predicate Clean(e: Event) {
    match e.payload
    case AssetFeed(AssetCreated(_, _, m, _, _, amounts, _, words)) =>
      && 0 !in m.name && 0 !in m.ticker && 0 !in m.location && 0 !in m.entityName
      && forall i :: 0 <= i < |words| && i < |amounts| ==> 0 !in words[i]
    case ValidatorFeed(ValidatorRegistered(_, _, _, name)) => 0 !in name
    case DisputeFeed(DisputeOpened(_, _, _, _, _, reason)) => 0 !in reason
    case _ => true
  }

  ghost predicate CleanEvents(logs: EventLogs) {
    forall e :: InEvents(e, logs) ==> Clean(e)
  }

  lemma CleanIsStorable(e: Event)
    ensures Clean(e) <==> forall s <- JobOf(e).statements :: Storable(s)
  {
    hide Clean, Storable, JobOf;
    if e.payload.AssetFeed? && e.payload.asset.AssetCreated? {
      CleanAsset(e, e.payload.asset);
    } else {
      if Clean(e) {
        forall s | s in JobOf(e).statements ensures Storable(s) { OtherCleanStores(e, s); }
      }
      if forall s <- JobOf(e).statements :: Storable(s) { OtherWords(e); }
    }
  }

  lemma OtherCleanStores(e: Event, s: Statement)
    requires !(e.payload.AssetFeed? && e.payload.asset.AssetCreated?)
    requires Clean(e) && s in JobOf(e).statements
    ensures Storable(s)
  {
    hide KeyOf, TimestampOf;
  }

  lemma OtherWords(e: Event)
    requires !(e.payload.AssetFeed? && e.payload.asset.AssetCreated?)
    requires forall s <- JobOf(e).statements :: Storable(s)
    ensures Clean(e)
  {
    match e.payload {
      case ValidatorFeed(ValidatorRegistered(id, _, _, name)) =>
        var s := Create(e, PoolRow(id), {});
        assert s in JobOf(e).statements && name in FreeTexts(s.at, e);
      case DisputeFeed(DisputeOpened(id, asset, pool, _, _, reason)) =>
        var s := Create(e, DisputeRow(id), {AssetRow(asset), PoolRow(pool)});
        assert s in JobOf(e).statements && reason in FreeTexts(s.at, e);
      case _ =>
    }
  }

  lemma CleanAsset(e: Event, a: AssetEvent)
    requires e.payload == AssetFeed(a) && a.AssetCreated?
    ensures Clean(e) <==> forall s <- JobOf(e).statements :: Storable(s)
  {
    hide Clean, JobOf, Storable;
    if Clean(e) {
      forall s | s in JobOf(e).statements ensures Storable(s) { CleanAssetStores(e, a, s); }
    }
    if forall s <- JobOf(e).statements :: Storable(s) { StoredAssetIsClean(e, a); }
  }

  lemma CleanAssetStores(e: Event, a: AssetEvent, s: Statement)
    requires e.payload == AssetFeed(a) && a.AssetCreated? && Clean(e) && s in JobOf(e).statements
    ensures Storable(s)
  {
  }

  lemma StoredAssetIsClean(e: Event, a: AssetEvent)
    requires e.payload == AssetFeed(a) && a.AssetCreated? && forall s <- JobOf(e).statements :: Storable(s)
    ensures Clean(e)
  {
    var row, m := Create(e, AssetRow(a.assetId), {}), a.metadata;
    var inserts := ScheduleInserts(e, a.assetId, |a.trancheAmounts|);
    assert row in JobOf(e).statements && forall s <- inserts :: s in JobOf(e).statements;
    hide JobOf, Storable, ScheduleInserts;
    StoredMetadata(row, e, m);
    StoredWords(e, a);
  }

  lemma StoredMetadata(row: Statement, e: Event, m: Metadata)
    requires row.Insert? && row.row.source == e && Storable(row) && row.at.AssetRow?
    requires e.payload.AssetFeed? && e.payload.asset.AssetCreated? && e.payload.asset.metadata == m
    ensures 0 !in m.name && 0 !in m.ticker && 0 !in m.location && 0 !in m.entityName
  {
    assert FreeTexts(row.at, e) == [m.name, m.ticker, m.location, m.entityName];
    assert forall t <- [m.name, m.ticker, m.location, m.entityName] :: 0 !in t;
  }

  lemma StoredWords(e: Event, a: AssetEvent)
    requires e.payload == AssetFeed(a) && a.AssetCreated?
    requires forall s <- ScheduleInserts(e, a.assetId, |a.trancheAmounts|) :: Storable(s)
    ensures forall i :: 0 <= i < |a.trancheDescriptions| && i < |a.trancheAmounts| ==> 0 !in a.trancheDescriptions[i]
  {
    var inserts := ScheduleInserts(e, a.assetId, |a.trancheAmounts|);
    forall i | 0 <= i < |a.trancheDescriptions| && i < |a.trancheAmounts| ensures 0 !in a.trancheDescriptions[i] {
      assert inserts[i] in inserts && a.trancheDescriptions[i] in FreeTexts(inserts[i].at, e);
    }
  }

  lemma CleanLogsAreStorable(logs: EventLogs)
    ensures AllStorable(LogsOf(logs)) <==> CleanEvents(logs)
  {
    hide JobOf, Clean, Storable, LogsOf, InEvents;
    forall e ensures InLogs(JobOf(e), LogsOf(logs)) <==> InEvents(e, logs) {
      InLogsOf(JobOf(e), logs);
      EventOfJob(e);
      CleanIsStorable(e);
    }
    if AllStorable(LogsOf(logs)) {
      forall e | InEvents(e, logs) ensures Clean(e) { CleanIsStorable(e); }
    }
    if CleanEvents(logs) {
      forall j, s | InLogs(j, LogsOf(logs)) && s in j.statements ensures Storable(s) {
        InLogsOf(j, logs);
        CleanIsStorable(j.event);
      }
    }
  }

  lemma EventOfJob(e: Event)
    ensures JobOf(e).event == e
  {
  }

  /** What the chain guarantees about events is all the convergence proofs need of their statements. */
  lemma ChainEventsAreChainLogs(logs: EventLogs)
    requires ChainEvents(logs)
    ensures ChainLogs(LogsOf(logs))
  {
    forall m, j | j in LogsOf(logs)(m) ensures j.event.mod == m && Shaped(j) {
      var i :| 0 <= i < |logs(m)| && LogsOf(logs)(m)[i] == j;
      assert logs(m)[i] in logs(m);
      HandlersAreShaped(j.event);
      RootsComeFirst(j.event);
      UpdatesAreReached(j.event);
    }
    forall m, i, k | 0 <= i < k < |LogsOf(logs)(m)| ensures LogsOf(logs)(m)[i] != LogsOf(logs)(m)[k] {
      assert KeyOf(logs(m)[i]) != KeyOf(logs(m)[k]);
    }
    EventsHaveUniqueWriters(logs);
    forall m, i | 0 <= i < |LogsOf(logs)(m)| ensures Causal(LogsOf(logs), m, i) { EventsAreCausal(logs, m, i); }
  }
}
