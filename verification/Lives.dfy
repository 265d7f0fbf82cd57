/**
 An asset's life on the chain, from its listing to the first wrapped share, after some other assets have
 been listed: the smallest logs on which the order of reading matters.
 */
module Lives {
  import opened Common
  import opened Decimal
  import opened Events
  import opened SqlStore
  import opened Projection
  import opened Convergence
  import opened Handlers
  import opened Ingestion
  import opened Incarnations
  import opened Backfills

  // ------------------------------------------------------------------ the logs

  /** How many assets are listed before; the bound only keeps the object ids within one byte. */
  type Others = n: nat | n <= 200

  const POOL: Text := [1, 1]
  const ENTITY: Text := [1, 2]
  const INVESTOR: Text := [1, 3]
  const ACCUMULATOR: Text := [1, 4]

  /** One tranche that takes the whole goal, due after the funding deadline. */
  function Listing(i: byte): AssetEvent {
    AssetCreated([i], ENTITY, Metadata([], [], [], []), 1, 1, [1], [2], [[]])
  }

  /**
   Event `x`, the listings first: vouch, funding, the contribution that meets the goal, finalization, execution,
   the claim of the shares, then the wrap, which claims the yield first. The pool is registered in a log of its own.
   */
  function LifePayload(n: Others, x: nat): Payload {
    if x < n then AssetFeed(Listing(x))
    else
      match x - n
      case 0 => AssetFeed(Listing(n))
      case 1 => AssetFeed(AssetVouched([n], POOL, [1], 1))
      case 2 => AssetFeed(AssetStateChanged([n], 0, 1))
      case 3 => PositionFeed(CapitalContributed([n], INVESTOR, 1, 1))
      case 4 => AssetFeed(RaiseFinalized([n], ACCUMULATOR, 1))
      case 5 => AssetFeed(AssetStateChanged([n], 1, 4))
      case 6 => PositionFeed(SharesClaimed([n], INVESTOR, 1, [1]))
      case 7 => PositionFeed(YieldClaimed([n], INVESTOR, 0, 0, 0))
      case 8 => PositionFeed(SharesWrapped([n], INVESTOR, 1, 1))
      case 9 => ValidatorFeed(ValidatorRegistered(POOL, [1], 1, []))
      case _ => GovernanceFeed(ProtocolInitialized([1], [1]))
  }

  /** The transaction of an event: a state change follows its cause, and the wrap its yield claim. */
  function LifeTx(n: Others, x: nat): byte
    requires x <= n + 10
  {
    if x <= n + 1 then x else if x <= n + 4 then x - 1 else if x <= n + 7 then x - 2 else x - 3
  }

  /** Its number there. */
  function LifeSeq(n: Others, x: nat): nat {
    if x == n + 2 || x == n + 5 || x == n + 8 then 1 else 0
  }

  function LifeModule(n: Others, x: nat): Module {
    if x <= n + 6 then Asset else if x <= n + 8 then Accumulator else if x == n + 9 then Validator else Protocol
  }

  function LifeEvent(n: Others, x: nat): Event
    requires x <= n + 10
  {
    Event(EventId([LifeTx(n, x)], [ZERO + LifeSeq(n, x)]), LifeModule(n, x), None, LifePayload(n, x))
  }

  function LifeLog(n: Others, m: Module): seq<Event> {
    match m
    case Asset => seq(n + 7, i requires 0 <= i < n + 7 => LifeEvent(n, i))
    case Accumulator => [LifeEvent(n, n + 7), LifeEvent(n, n + 8)]
    case Validator => [LifeEvent(n, n + 9)]
    case Protocol => [LifeEvent(n, n + 10)]
    case Dispute => []
  }

  function Life(n: Others): EventLogs {
    (m: Module) => LifeLog(n, m)
  }

  // ------------------------------------------------------------------ they are the chain's

  lemma LifeMembers(n: Others, m: Module, e: Event)
    ensures e in LifeLog(n, m) <==> exists x :: 0 <= x <= n + 10 && LifeEvent(n, x) == e && LifeModule(n, x) == m
  {
    hide LifeEvent;
    if x :| 0 <= x <= n + 10 && LifeEvent(n, x) == e && LifeModule(n, x) == m {
      if x <= n + 6 { assert LifeLog(n, m)[x] == e; }
    }
  }

  lemma LifeInEvents(n: Others, e: Event)
    ensures InEvents(e, Life(n)) <==> exists x :: 0 <= x <= n + 10 && LifeEvent(n, x) == e
  {
    LifeMembers(n, e.mod, e);
    hide LifeLog, LifePayload;
  }

  lemma LifeKey(n: Others, x: nat)
    requires x <= n + 10
    ensures KeyOf(LifeEvent(n, x)) == EventKey([LifeTx(n, x)], LifeSeq(n, x))
  {
    hide LifePayload;
    assert [ZERO + LifeSeq(n, x)][..0] == [];
  }

  lemma LifeKeysDiffer(n: Others, x: nat, y: nat)
    requires x <= n + 10 && y <= n + 10 && KeyOf(LifeEvent(n, x)) == KeyOf(LifeEvent(n, y))
    ensures x == y
  {
    LifeKey(n, x);
    LifeKey(n, y);
    hide KeyOf, LifeEvent;
    assert [LifeTx(n, x)][0] == [LifeTx(n, y)][0];
  }

  lemma LifePlaced(n: Others)
    ensures Placed(Life(n))
  {
    hide LifeLog;
    forall m, e | e in LifeLog(n, m) ensures e.mod == m && AtHome(e) { LifeMembers(n, m, e); }
  }

  lemma LifeKeysIdentify(n: Others)
    ensures KeysIdentify(Life(n))
  {
    hide LifeEvent, KeyOf, LifePayload;
    forall m, i, k | 0 <= i < k < |LifeLog(n, m)| ensures KeyOf(LifeLog(n, m)[i]) != KeyOf(LifeLog(n, m)[k]) {
      var x, y := LifePlace(n, m, i), LifePlace(n, m, k);
      if KeyOf(LifeEvent(n, x)) == KeyOf(LifeEvent(n, y)) { LifeKeysDiffer(n, x, y); }
    }
    forall d, e | InEvents(d, Life(n)) && InEvents(e, Life(n)) && KeyOf(d) == KeyOf(e) ensures d == e {
      LifeInEvents(n, d);
      LifeInEvents(n, e);
      var x :| 0 <= x <= n + 10 && LifeEvent(n, x) == d;
      var y :| 0 <= y <= n + 10 && LifeEvent(n, y) == e;
      LifeKeysDiffer(n, x, y);
    }
  }

  /** The number of the event at a place of a log. */
  function LifePlace(n: Others, m: Module, i: nat): (x: nat)
    requires i < |LifeLog(n, m)|
    ensures x <= n + 10 && LifeLog(n, m)[i] == LifeEvent(n, x) && LifeModule(n, x) == m
    ensures m == Asset ==> x == i
    ensures m == Accumulator ==> x == n + 7 + i
  {
    if m == Asset then i else if m == Accumulator then n + 7 + i else if m == Validator then n + 9 else n + 10
  }

  lemma LifeCreates(n: Others, x: nat, at: RowKey)
    requires x <= n + 10
    ensures Creates(LifeEvent(n, x), at) <==>
              || (x <= n && (at == AssetRow([x]) || at == ScheduleRow([x], 0)))
              || (x == n + 9 && at == PoolRow(POOL))
  {
  }

  lemma LifeFreshIds(n: Others)
    ensures FreshIds(Life(n))
  {
    hide LifeEvent, Creates, LifeLog;
    forall d, e, at | InEvents(d, Life(n)) && InEvents(e, Life(n)) && Creates(d, at) && Creates(e, at) ensures d == e {
      LifeInEvents(n, d);
      LifeInEvents(n, e);
      var x :| 0 <= x <= n + 10 && LifeEvent(n, x) == d;
      var y :| 0 <= y <= n + 10 && LifeEvent(n, y) == e;
      LifeCreates(n, x, at);
      LifeCreates(n, y, at);
      assert x <= n && y <= n ==> ([x] == [y] ==> [x][0] == [y][0]);
    }
  }

  lemma LifeSubjects(n: Others, x: nat, at: RowKey)
    requires x <= n + 10 && at in Subject(LifeEvent(n, x).payload)
    ensures n < x <= n + 6 && at == AssetRow([n])
  {
  }

  lemma LifeCreatedFirst(n: Others)
    ensures CreatedFirst(Life(n))
  {
    hide LifeEvent, Creates, Subject;
    forall m, i, at | 0 <= i < |LifeLog(n, m)| && at in Subject(LifeLog(n, m)[i].payload)
      ensures CreatedBefore(LifeLog(n, m), i, at)
    {
      LifeSubjects(n, LifePlace(n, m, i), at);
      LifeCreates(n, n, at);
      assert LifeLog(n, m)[n] == LifeEvent(n, n);
    }
  }

  /** All that an event of this life refers to is its own asset. */
  lemma LifeReferences(n: Others, x: nat, at: RowKey)
    requires x <= n + 10 && at in References(LifeEvent(n, x))
    ensures x <= n + 8 && at == AssetRow([if x < n then x else n])
  {
    var s :| s in HandlerStatements(LifeEvent(n, x)) && s.Insert? && at in s.refs && IsRoot(at);
    hide KeyOf, TimestampOf, References;
  }

  lemma LifeNothingDangles(n: Others)
    ensures NothingDangles(Life(n))
  {
    hide LifeEvent, Creates, References, LifeLog;
    forall e, at | InEvents(e, Life(n)) && at in References(e)
      ensures exists d :: InEvents(d, Life(n)) && Creates(d, at)
    {
      LifeInEvents(n, e);
      var x :| 0 <= x <= n + 10 && LifeEvent(n, x) == e;
      LifeReferences(n, x, at);
      var y := if x < n then x else n;
      LifeInEvents(n, LifeEvent(n, y));
      LifeCreates(n, y, at);
    }
  }

  lemma LifeIsOnChain(n: Others)
    ensures ChainEvents(Life(n))
  {
    hide Placed, KeysIdentify, FreshIds, CreatedFirst, NothingDangles, Life;
    LifePlaced(n);
    LifeKeysIdentify(n);
    LifeFreshIds(n);
    LifeCreatedFirst(n);
    LifeNothingDangles(n);
  }

  lemma LifeIsClean(n: Others)
    ensures CleanEvents(Life(n))
  {
    hide LifeLog, InEvents, Life;
    forall e | InEvents(e, Life(n)) ensures Clean(e) {
      LifeInEvents(n, e);
    }
  }

  // ------------------------------------------------------------------ one pass of the loop

  lemma LifeIsRead(n: Others, polls: nat)
    requires polls == 25 || (n == 0 && polls == 5)
    ensures ReadsAll(Life(n), polls)
  {
    hide LifeEvent;
    forall m ensures Upto(Life(n)(m), Rounds(polls, m)) == |Life(n)(m)| {
      assert Rounds(polls, m) == polls / 5;
    }
  }

  lemma LifeCreatorsComeFirst(n: Others)
    requires n < PAGE_LIMIT
    ensures CreatorsComeFirst(Life(n))
  {
    hide LifeEvent, Creates, References, PollOf;
    forall m, i, at | 0 <= i < |Life(n)(m)| && at in References(Life(n)(m)[i])
      ensures CreatorComesFirst(Life(n), m, i, at)
    {
      var x := LifePlace(n, m, i);
      LifeReferences(n, x, at);
      var y := if x < n then x else n;
      LifeCreates(n, y, at);
      AssetPageIsFirst(y, i);
      assert StandsAt(Life(n), LifeEvent(n, y), Asset, y);
      assert Precedes(Asset, y, m, i);
    }
  }

  lemma AssetPageIsFirst(y: nat, i: nat)
    requires y < PAGE_LIMIT
    ensures PollOf(Asset, y) < PollOf(Accumulator, i)
  {
  }

  lemma WrapRefersToAsset(n: Others)
    ensures AssetRow([n]) in References(LifeEvent(n, n + 7))
  {
    var e := LifeEvent(n, n + 7);
    var s := Log(e, PositionEvents, {AssetRow([n])});
    hide KeyOf;
    assert HandlerStatements(e)[0] == s;
    ReferenceOf(e, s, AssetRow([n]));
  }

  lemma ReferenceOf(e: Event, s: Statement, at: RowKey)
    requires s in HandlerStatements(e) && s.Insert? && at in s.refs && IsRoot(at)
    ensures at in References(e)
  {
    hide HandlerStatements;
  }

  /**
   One healthy pass over such a life is complete if and only if its asset is listed on the first page: the
   fifty-first asset loses the rows of its first wrap.
   */
  lemma LifeBackfillIff(n: Others)
    ensures ChainEvents(Life(n)) && CleanEvents(Life(n)) && ReadsAll(Life(n), 25)
    ensures Sweep(map[], Jobs(Backfill(Life(n), 25))) == Projected(Jobs(Backfill(Life(n), 25))) <==> n < PAGE_LIMIT
  {
    hide *;
    LifeIsOnChain(n);
    LifeIsClean(n);
    LifeIsRead(n, 25);
    BackfillConvergesIff(Life(n), 25);
    if n < PAGE_LIMIT { LifeCreatorsComeFirst(n); } else { LateLifeLosesRows(n); }
  }

  lemma LateLifeLosesRows(n: Others)
    requires PAGE_LIMIT <= n && ChainEvents(Life(n)) && ReadsAll(Life(n), 25)
    ensures Sweep(map[], Jobs(Backfill(Life(n), 25))) != Projected(Jobs(Backfill(Life(n), 25)))
  {
    hide ChainEvents, ReadsAll, Backfill, Sweep, Projected, References, Creates, LifeEvent;
    WrapRefersToAsset(n);
    LifeCreates(n, n, AssetRow([n]));
    assert Life(n)(Accumulator)[0] == LifeEvent(n, n + 7) && Life(n)(Asset)[n] == LifeEvent(n, n);
    BackfillLosesRows(Life(n), 25, 0, n, AssetRow([n]));
  }

  // ------------------------------------------------------------------ two merges that disagree

  /** The same logs with the wrap read first. */
  function WrapFirst(n: Others): seq<Event> {
    LifeLog(n, Accumulator) + (LifeLog(n, Protocol) + (LifeLog(n, Validator) + LifeLog(n, Asset)))
  }

  lemma WrapFirstIsMerge(n: Others)
    ensures Interleaving(Jobs(WrapFirst(n)), LogsOf(Life(n)))
  {
    hide LifeLog, JobOf, Select, WrapFirst;
    forall m ensures Of(Jobs(WrapFirst(n)), m) == LogsOf(Life(n))(m) {
      OfJobs(WrapFirst(n), m);
      WrapFirstSelects(n, m);
    }
  }

  lemma WrapFirstSelects(n: Others, m: Module)
    ensures Select(WrapFirst(n), m) == LifeLog(n, m)
  {
    WrapFirstIs(n);
    hide *;
    FourPages(LifeLog(n, Accumulator), LifeLog(n, Protocol), LifeLog(n, Validator), LifeLog(n, Asset), m);
    OwnPage(n, Accumulator, m);
    OwnPage(n, Protocol, m);
    OwnPage(n, Validator, m);
    OwnPage(n, Asset, m);
    OneOfFour(LifeLog(n, m));
  }

  lemma WrapFirstIs(n: Others)
    ensures WrapFirst(n)
         == LifeLog(n, Accumulator) + (LifeLog(n, Protocol) + (LifeLog(n, Validator) + LifeLog(n, Asset)))
    ensures LifeLog(n, Dispute) == []
  {
  }

  lemma FourPages(a: seq<Event>, b: seq<Event>, c: seq<Event>, d: seq<Event>, m: Module)
    ensures Select(a + (b + (c + d)), m) == Select(a, m) + (Select(b, m) + (Select(c, m) + Select(d, m)))
  {
    hide Select;
    SelectAppend(a, b + (c + d), m);
    SelectAppend(b, c + d, m);
    SelectAppend(c, d, m);
  }

  lemma OneOfFour(x: seq<Event>)
    ensures x + ([] + ([] + [])) == [] + (x + ([] + [])) == [] + ([] + (x + [])) == [] + ([] + ([] + x)) == x
  {
  }

  lemma OwnPage(n: Others, k: Module, m: Module)
    ensures Select(LifeLog(n, k), m) == if m == k then LifeLog(n, k) else []
  {
    LifePlaced(n);
    hide LifeLog, Select;
    forall e | e in LifeLog(n, k) ensures e.mod == k { assert e in Life(n)(k); }
    SelectPage(LifeLog(n, k), k, m);
  }

  lemma WrapFirstIsUnresolved(n: Others)
    ensures !Resolved({}, Flat(Jobs(WrapFirst(n))))
  {
    var e, at := LifeEvent(n, n + 7), AssetRow([n]);
    var s := Log(e, PositionEvents, {at});
    hide KeyOf, LifeLog;
    assert s in HandlerStatements(e);
    LifeCreates(n, n + 7, at);
    hide HandlerStatements, Creates, LifeEvent, Resolved, Flat, Jobs, Inserted;
    StatementOfEvent([e], e, s);
    WrapIsFirst(n);
    PrefixOfJobs([e], WrapFirst(n));
    InsertedByCreator([e], at);
    if Resolved({}, Flat(Jobs(WrapFirst(n)))) {
      ReferenceIsInserted(Flat(Jobs(WrapFirst(n))), Flat(Jobs([e])), s, at);
    }
  }

  lemma WrapIsFirst(n: Others)
    ensures [LifeEvent(n, n + 7)] <= WrapFirst(n)
  {
    hide LifeEvent;
  }

  /**
   So the order of merging does decide what the tables end with: of the same two logs, the loop's own
   order keeps the wrap of a first asset and the order that reads the wrap first loses it.
   */
  lemma MergesDisagree()
    ensures ChainEvents(Life(0)) && CleanEvents(Life(0))
    ensures Interleaving(Jobs(Backfill(Life(0), 5)), LogsOf(Life(0)))
    ensures Interleaving(Jobs(WrapFirst(0)), LogsOf(Life(0)))
    ensures Sweep(map[], Jobs(Backfill(Life(0), 5))) != Sweep(map[], Jobs(WrapFirst(0)))
  {
    LifeCreatorsComeFirst(0);
    hide *;
    LifeIsOnChain(0);
    LifeIsClean(0);
    LifeIsRead(0, 5);
    ChainIsFeed(Life(0));
    ChainEventsAreChainLogs(Life(0));
    WholeLogs(Life(0), 5);
    WrapFirstIsMerge(0);
    WrapFirstIsUnresolved(0);
    BackfillResolves(Life(0), 5);
    CompleteIs(Backfill(Life(0), 5));
    EmptyHistory();
    Confluence(LogsOf(Life(0)), [], Jobs(Backfill(Life(0), 5)), [], Jobs(WrapFirst(0)));
  }
}
