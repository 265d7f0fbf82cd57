/**
 The order of surrogate ids: a BIGSERIAL column numbers the rows of a table in the order in which they
 arrive, and several queries sort by it.
 */
module SurrogateIds {
  import opened Events
  import opened SqlStore
  import opened Projection
  import opened Convergence
  import opened Handlers
  import opened Ingestion
  import opened Incarnations
  import opened Restarts
  import opened Lives

  // ------------------------------------------------------------------ the order of arrival

  /** At some point of the processing the one row is in the tables and the other is not. */
  ghost predicate ArrivesBefore(done: seq<Handled>, a: RowKey, b: RowKey) {
    exists n :: 0 <= n <= |done| && a in Tables(map[], done[..n]) && b !in Tables(map[], done[..n])
  }

  function RowOf(t: EventTable, e: Event): RowKey {
    EventRow(t, KeyOf(e))
  }

  /** The ids of a table ascend in the order of a log whose events it records. */
  ghost predicate Chronological(done: seq<Handled>, t: EventTable, log: seq<Event>) {
    forall i, k :: 0 <= i < k < |log|
      && RowOf(t, log[i]) in Tables(map[], done) && RowOf(t, log[k]) in Tables(map[], done)
      ==> ArrivesBefore(done, RowOf(t, log[i]), RowOf(t, log[k]))
  }

  /** No process leaves a row out behind a later one of the log for another process to insert. */
  ghost predicate NoGapFilled(lives: seq<seq<Handled>>, t: EventTable, log: seq<Event>) {
    forall l, i, k :: 0 <= l <= |lives| && 0 <= i < k < |log|
      && RowOf(t, log[k]) in AfterLives(map[], lives[..l]) && RowOf(t, log[i]) in AfterLives(map[], lives)
      ==> RowOf(t, log[i]) in AfterLives(map[], lives[..l])
  }

  lemma RunKeepsRow(db: Database, ss: seq<Statement>, cut: nat)
    ensures db.Keys <= RunSome(db, ss, cut).Keys
  {
    RowsNeverLeave(db, ss[..Progress(db, ss, cut)]);
  }

  lemma OneMoreHandled(done: seq<Handled>, n: nat)
    requires n < |done|
    ensures Tables(map[], done[..n + 1])
         == RunSome(Tables(map[], done[..n]), JobOf(done[n].event).statements, done[n].cut)
  {
    assert done[..n + 1] == done[..n] + [done[n]];
    TablesStep(map[], done[..n], done[n]);
  }

  lemma {:induction false} RowsStay(done: seq<Handled>, a: nat, b: nat)
    requires a <= b <= |done|
    ensures Tables(map[], done[..a]).Keys <= Tables(map[], done[..b]).Keys
    decreases b
  {
    hide *;
    if a < b {
      RowsStay(done, a, b - 1);
      OneMoreHandled(done, b - 1);
      RunKeepsRow(Tables(map[], done[..b - 1]), JobOf(done[b - 1].event).statements, done[b - 1].cut);
    }
  }

  /** A row arrives with its own event only. */
  lemma {:induction false} StaysAway(done: seq<Handled>, a: nat, b: nat, t: EventTable, key: EventKey)
    requires a <= b <= |done| && EventRow(t, key) !in Tables(map[], done[..a])
    requires forall x :: a <= x < b ==> KeyOf(done[x].event) != key
    ensures EventRow(t, key) !in Tables(map[], done[..b])
    decreases b
  {
    hide *;
    if a < b {
      StaysAway(done, a, b - 1, t, key);
      OneMoreHandled(done, b - 1);
      LeavesOut(Tables(map[], done[..b - 1]), done[b - 1], t, key);
    }
  }

  lemma LeavesOut(db: Database, h: Handled, t: EventTable, key: EventKey)
    requires EventRow(t, key) !in db && KeyOf(h.event) != key
    ensures EventRow(t, key) !in RunSome(db, JobOf(h.event).statements, h.cut)
  {
    var j := JobOf(h.event);
    hide JobOf, RunSome, KeyOf;
    EventOfJob(h.event);
    forall s ensures !InsertsAt(j, s, EventRow(t, key)) {
      if s in j.statements && s.Insert? { HandlersInsertTheirOwn(h.event, s); }
    }
    JobLeavesOut(db, j, EventRow(t, key), h.cut);
  }

  /** Of two rows at most one arrives before the other. */
  lemma ArrivalsDoNotCross(done: seq<Handled>, a: RowKey, b: RowKey)
    requires ArrivesBefore(done, a, b)
    ensures !ArrivesBefore(done, b, a)
  {
    hide Tables;
    var n :| 0 <= n <= |done| && a in Tables(map[], done[..n]) && b !in Tables(map[], done[..n]);
    forall x | 0 <= x <= |done| && b in Tables(map[], done[..x]) ensures a in Tables(map[], done[..x]) {
      if x <= n { RowsStay(done, x, n); } else { RowsStay(done, n, x); }
    }
  }

  // ------------------------------------------------------------------ within one life

  lemma KeyPlaces(logs: EventLogs, m: Module, x: nat, y: nat)
    requires ChainEvents(logs) && x < |logs(m)| && y < |logs(m)| && KeyOf(logs(m)[x]) == KeyOf(logs(m)[y])
    ensures x == y
  {
    hide KeyOf, CreatedFirst, FreshIds, NothingDangles, Placed;
  }

  /** What a process has read carries a key of the log only where it is the log's event. */
  lemma KeyIsEvent(logs: EventLogs, m: Module, i: nat, e: Event)
    requires ChainEvents(logs) && i < |logs(m)| && InEvents(e, logs) && KeyOf(e) == KeyOf(logs(m)[i])
    ensures e == logs(m)[i] && e.mod == m
  {
    hide KeyOf, CreatedFirst, FreshIds, NothingDangles;
    assert logs(m)[i] in logs(m);
  }

  lemma EventsOfLife(logs: EventLogs, life: seq<Handled>, x: nat)
    requires PartialSweep(logs, life) && x < |life|
    ensures InEvents(life[x].event, logs) && EventsOf(life)[x] == life[x].event
  {
    PartialIsFromLogs(logs, life);
    hide PartialSweep, InEvents;
    assert life[x] in life;
  }

  /** An event that the process has not read, up to a point or from a point on, is none of those there. */
  lemma NotAmong(logs: EventLogs, m: Module, i: nat, part: seq<Event>)
    requires ChainEvents(logs) && i < |logs(m)| && logs(m)[i] !in Select(part, m)
    requires forall e <- part :: InEvents(e, logs)
    ensures forall e <- part :: KeyOf(e) != KeyOf(logs(m)[i])
  {
    hide ChainEvents, InEvents, KeyOf, Select;
    forall e | e in part && KeyOf(e) == KeyOf(logs(m)[i]) ensures e in Select(part, m) && e == logs(m)[i] {
      KeyIsEvent(logs, m, i, e);
      SelectMembers(part, m, e);
    }
  }

  lemma NotInSlice(logs: EventLogs, m: Module, i: nat, from: nat, to: nat)
    requires ChainEvents(logs) && i < |logs(m)| && from <= to <= |logs(m)| && !(from <= i < to)
    ensures logs(m)[i] !in logs(m)[from..to]
  {
    hide ChainEvents, KeyOf;
    if logs(m)[i] in logs(m)[from..to] {
      var x :| from <= x < to && logs(m)[x] == logs(m)[i];
      KeyPlaces(logs, m, x, i);
    }
  }

  /**
   The point of a life at which it has just read a place of a log: nothing later of that log has been
   read, and that event is not read again.
   */
  lemma PointOfLife(logs: EventLogs, events: seq<Event>, m: Module, i: nat) returns (p: nat)
    requires ChainEvents(logs) && Select(events, m) <= logs(m) && i < |Select(events, m)|
    ensures p <= |events|
    ensures forall k :: i < k < |logs(m)| ==> logs(m)[k] !in Select(events[..p], m)
    ensures logs(m)[i] !in Select(events[p..], m)
  {
    hide ChainEvents, Select;
    var log, n := logs(m), |Select(events, m)|;
    p := SelectReaches(events, m, i + 1);
    assert events == events[..p] + events[p..];
    SelectAppend(events[..p], events[p..], m);
    assert Select(events[..p], m) == log[0..i + 1] && Select(events[p..], m) == log[i + 1..n];
    forall k | i < k < |log| ensures log[k] !in Select(events[..p], m) { NotInSlice(logs, m, k, 0, i + 1); }
    NotInSlice(logs, m, i, i + 1, n);
  }

  lemma AwayDuring(logs: EventLogs, before: seq<Handled>, life: seq<Handled>, t: EventTable, m: Module, i: nat,
                   a: nat, b: nat)
    requires ChainEvents(logs) && PartialSweep(logs, life) && i < |logs(m)| && a <= b <= |life|
    requires logs(m)[i] !in Select(EventsOf(life)[a..b], m)
    requires RowOf(t, logs(m)[i]) !in Tables(map[], (before + life)[..|before| + a])
    ensures RowOf(t, logs(m)[i]) !in Tables(map[], (before + life)[..|before| + b])
  {
    hide ChainEvents, PartialSweep, Select, InEvents, Tables, KeyOf;
    var part := EventsOf(life)[a..b];
    forall e | e in part ensures InEvents(e, logs) {
      var x :| a <= x < b && EventsOf(life)[x] == e;
      EventsOfLife(logs, life, x);
    }
    NotAmong(logs, m, i, part);
    forall x | |before| + a <= x < |before| + b ensures KeyOf((before + life)[x].event) != KeyOf(logs(m)[i]) {
      assert part[x - |before| - a] == life[x - |before|].event && part[x - |before| - a] in part;
    }
    StaysAway(before + life, |before| + a, |before| + b, t, KeyOf(logs(m)[i]));
  }

  /** In one life rows arrive in log order, whatever it is refused. */
  lemma LifeArrivesInOrder(logs: EventLogs, before: seq<Handled>, life: seq<Handled>, t: EventTable, m: Module,
                           i: nat, k: nat)
    requires ChainEvents(logs) && PartialSweep(logs, life) && i < k < |logs(m)|
    requires RowOf(t, logs(m)[i]) !in Tables(map[], before) && RowOf(t, logs(m)[k]) !in Tables(map[], before)
    requires RowOf(t, logs(m)[i]) in Tables(map[], before + life)
    ensures ArrivesBefore(before + life, RowOf(t, logs(m)[i]), RowOf(t, logs(m)[k]))
  {
    hide *;
    ReadIsPrefix(logs, life, m);
    if i >= |Select(EventsOf(life), m)| {
      UnreadStaysAway(logs, before, life, t, m, i);
    } else {
      var p := PointOfLife(logs, EventsOf(life), m, i);
      StartOfLife(before, life);
      LaterIsAway(logs, before, life, t, m, k, p);
      EarlierIsThere(logs, before, life, t, m, i, p);
      IsBefore(before + life, |before| + p, RowOf(t, logs(m)[i]), RowOf(t, logs(m)[k]));
    }
  }

  lemma StartOfLife(before: seq<Handled>, life: seq<Handled>)
    ensures (before + life)[..|before| + 0] == before && (before + life)[..|before| + |life|] == before + life
    ensures |EventsOf(life)| == |life|
  {
  }

  lemma LaterIsAway(logs: EventLogs, before: seq<Handled>, life: seq<Handled>, t: EventTable, m: Module, k: nat, p: nat)
    requires ChainEvents(logs) && PartialSweep(logs, life) && k < |logs(m)| && p <= |life| == |EventsOf(life)|
    requires logs(m)[k] !in Select(EventsOf(life)[..p], m) && RowOf(t, logs(m)[k]) !in Tables(map[], before)
    ensures RowOf(t, logs(m)[k]) !in Tables(map[], (before + life)[..|before| + p])
  {
    hide *;
    StartOfLife(before, life);
    assert EventsOf(life)[0..p] == EventsOf(life)[..p];
    AwayDuring(logs, before, life, t, m, k, 0, p);
  }

  lemma EarlierIsThere(logs: EventLogs, before: seq<Handled>, life: seq<Handled>, t: EventTable, m: Module, i: nat,
                       p: nat)
    requires ChainEvents(logs) && PartialSweep(logs, life) && i < |logs(m)| && p <= |life| == |EventsOf(life)|
    requires logs(m)[i] !in Select(EventsOf(life)[p..], m) && RowOf(t, logs(m)[i]) in Tables(map[], before + life)
    ensures RowOf(t, logs(m)[i]) in Tables(map[], (before + life)[..|before| + p])
  {
    hide *;
    StartOfLife(before, life);
    assert EventsOf(life)[p..|life|] == EventsOf(life)[p..];
    if RowOf(t, logs(m)[i]) !in Tables(map[], (before + life)[..|before| + p]) {
      AwayDuring(logs, before, life, t, m, i, p, |life|);
    }
  }

  lemma UnreadStaysAway(logs: EventLogs, before: seq<Handled>, life: seq<Handled>, t: EventTable, m: Module, i: nat)
    requires ChainEvents(logs) && PartialSweep(logs, life) && |Select(EventsOf(life), m)| <= i < |logs(m)|
    requires RowOf(t, logs(m)[i]) !in Tables(map[], before)
    ensures RowOf(t, logs(m)[i]) !in Tables(map[], before + life)
  {
    hide *;
    ReadIsPrefix(logs, life, m);
    StartOfLife(before, life);
    NotInSlice(logs, m, i, 0, |Select(EventsOf(life), m)|);
    LaterIsAway(logs, before, life, t, m, i, |life|);
  }

  lemma ReadIsPrefix(logs: EventLogs, life: seq<Handled>, m: Module)
    requires PartialSweep(logs, life)
    ensures var read := Select(EventsOf(life), m); read <= logs(m) && logs(m)[0..|read|] == read
    ensures EventsOf(life)[..|life|] == EventsOf(life)
  {
    hide Select;
  }

  lemma IsBefore(done: seq<Handled>, n: nat, a: RowKey, b: RowKey)
    requires n <= |done| && a in Tables(map[], done[..n]) && b !in Tables(map[], done[..n])
    ensures ArrivesBefore(done, a, b)
  {
  }

  // ------------------------------------------------------------------ over all lives

  lemma {:induction false} LivesArePrefixes(lives: seq<seq<Handled>>, l: nat)
    requires l <= |lives|
    ensures Together(lives[..l]) <= Together(lives)
    ensures AfterLives(map[], lives[..l]) == Tables(map[], Together(lives)[..|Together(lives[..l])|])
  {
    hide Tables, AfterLives;
    LivesTogether(map[], lives[..l]);
    if l == |lives| {
      assert lives[..l] == lives && Together(lives)[..|Together(lives)|] == Together(lives);
    } else {
      var front, n := lives[..|lives| - 1], |Together(lives[..l])|;
      assert front[..l] == lives[..l];
      LivesArePrefixes(front, l);
      assert Together(lives)[..n] == Together(front)[..n];
    }
  }

  lemma BeforeInMore(done: seq<Handled>, more: seq<Handled>, a: RowKey, b: RowKey)
    requires done <= more && ArrivesBefore(done, a, b)
    ensures ArrivesBefore(more, a, b)
  {
    hide Tables;
    var n :| 0 <= n <= |done| && a in Tables(map[], done[..n]) && b !in Tables(map[], done[..n]);
    assert more[..n] == done[..n];
  }

  lemma NothingYetThere(lives: seq<seq<Handled>>)
    ensures lives == [] ==> AfterLives(map[], lives) == map[]
  {
  }

  /** The first life after which a row is there. */
  lemma {:induction false} FirstLifeOf(lives: seq<seq<Handled>>, at: RowKey) returns (l: nat)
    requires at in AfterLives(map[], lives)
    ensures l < |lives| && at !in AfterLives(map[], lives[..l]) && at in AfterLives(map[], lives[..l + 1])
  {
    NothingYetThere(lives);
    hide AfterLives;
    var n := |lives| - 1;
    if at in AfterLives(map[], lives[..n]) {
      l := FirstLifeOf(lives[..n], at);
      assert lives[..n][..l] == lives[..l] && lives[..n][..l + 1] == lives[..l + 1];
    } else {
      l := n;
      assert lives[..n + 1] == lives;
    }
  }

  lemma GapBreaksOrder(lives: seq<seq<Handled>>, l: nat, a: RowKey, b: RowKey)
    requires l <= |lives| && b in AfterLives(map[], lives[..l]) && a !in AfterLives(map[], lives[..l])
    ensures !ArrivesBefore(Together(lives), a, b)
  {
    hide Tables, AfterLives;
    LivesArePrefixes(lives, l);
    IsBefore(Together(lives), |Together(lives[..l])|, b, a);
    ArrivalsDoNotCross(Together(lives), b, a);
  }

  lemma OrderAcrossLives(logs: EventLogs, lives: seq<seq<Handled>>, t: EventTable, m: Module, i: nat, k: nat)
    requires ChainEvents(logs) && (forall life <- lives :: PartialSweep(logs, life)) && i < k < |logs(m)|
    requires NoGapFilled(lives, t, logs(m)) && RowOf(t, logs(m)[i]) in AfterLives(map[], lives)
    ensures ArrivesBefore(Together(lives), RowOf(t, logs(m)[i]), RowOf(t, logs(m)[k]))
  {
    hide ChainEvents, PartialSweep, Tables, AfterLives, ArrivesBefore, KeyOf;
    var a, b := RowOf(t, logs(m)[i]), RowOf(t, logs(m)[k]);
    var l := FirstLifeOf(lives, a);
    assert b !in AfterLives(map[], lives[..l]);
    var before := Together(lives[..l]);
    LivesTogether(map[], lives[..l]);
    LivesTogether(map[], lives[..l + 1]);
    assert lives[..l + 1][..l] == lives[..l];
    assert Together(lives[..l + 1]) == before + lives[l];
    LifeArrivesInOrder(logs, before, lives[l], t, m, i, k);
    LivesArePrefixes(lives, l + 1);
    BeforeInMore(before + lives[l], Together(lives), a, b);
  }

  /**
   When the ids of a table follow a log, over any number of processes that stop anywhere and are refused
   anything: if and only if no process inserts a row that an earlier one has left out behind a later row
   of the log.
   */
  lemma ChronologicalIff(logs: EventLogs, lives: seq<seq<Handled>>, t: EventTable, m: Module)
    requires ChainEvents(logs) && forall life <- lives :: PartialSweep(logs, life)
    ensures Chronological(Together(lives), t, logs(m)) <==> NoGapFilled(lives, t, logs(m))
  {
    hide ChainEvents, PartialSweep, Tables, AfterLives, ArrivesBefore, KeyOf, Together;
    var log := logs(m);
    LivesTogether(map[], lives);
    if NoGapFilled(lives, t, log) {
      forall i, k | 0 <= i < k < |log| && RowOf(t, log[i]) in AfterLives(map[], lives)
        ensures ArrivesBefore(Together(lives), RowOf(t, log[i]), RowOf(t, log[k]))
      {
        OrderAcrossLives(logs, lives, t, m, i, k);
      }
    }
    if Chronological(Together(lives), t, log) {
      forall l, i, k
        | 0 <= l <= |lives| && 0 <= i < k < |log|
          && RowOf(t, log[k]) in AfterLives(map[], lives[..l]) && RowOf(t, log[i]) in AfterLives(map[], lives)
        ensures RowOf(t, log[i]) in AfterLives(map[], lives[..l])
      {
        LivesArePrefixes(lives, l);
        LivesArePrefixes(lives, |lives|);
        assert lives[..|lives|] == lives;
        RowsStay(Together(lives), |Together(lives[..l])|, |Together(lives)|);
        if RowOf(t, log[i]) !in AfterLives(map[], lives[..l]) {
          GapBreaksOrder(lives, l, RowOf(t, log[i]), RowOf(t, log[k]));
        }
      }
    }
  }

  /** So the ids that a first process gives out follow every log, whatever it is refused and wherever it stops. */
  lemma FirstLifeIsChronological(logs: EventLogs, life: seq<Handled>, t: EventTable, m: Module)
    requires ChainEvents(logs) && PartialSweep(logs, life)
    ensures Chronological(life, t, logs(m))
  {
    hide ChainEvents, PartialSweep, Tables, ArrivesBefore, KeyOf;
    var lives := [life];
    assert lives[..0] == [] && lives[..1] == lives;
    assert Together(lives) == life;
    assert AfterLives(map[], lives[..0]) == map[];
    hide AfterLives, Together;
    ChronologicalIff(logs, lives, t, m);
  }

  // ------------------------------------------------------------------ a gap that is filled

  /** The first state change of a life is archived and no more; a later process reads on from the start. */
  function FirstTry(): seq<Handled> {
    seq(6, i requires 0 <= i < 6 => Handled(LifeEvent(0, i), if i == 2 then 1 else if i == 5 then 3 else 4))
  }

  function SecondTry(): seq<Handled> {
    seq(3, i requires 0 <= i < 3 => Handled(LifeEvent(0, i), if i == 2 then 3 else 4))
  }

  lemma TriesArePartial()
    ensures PartialSweep(Life(0), FirstTry()) && PartialSweep(Life(0), SecondTry())
  {
    hide LifeEvent;
    AssetPageIsPartial(FirstTry());
    AssetPageIsPartial(SecondTry());
  }

  lemma AssetPageIsPartial(life: seq<Handled>)
    requires EventsOf(life) <= Life(0)(Asset)
    ensures PartialSweep(Life(0), life)
  {
    LifePlaced(0);
    hide LifeEvent, Select, LifeLog, EventsOf, AtHome, Life;
    var events := EventsOf(life);
    forall e | e in events ensures e.mod == Asset { assert e in Life(0)(Asset); }
    forall m ensures Select(events, m) <= Life(0)(m) { SelectPage(events, Asset, m); }
  }

  lemma AssetLands(db: Database)
    ensures AssetRow([0]) in RunSome(db, JobOf(LifeEvent(0, 0)).statements, 4)
  {
    var e := LifeEvent(0, 0);
    var s := Create(e, AssetRow([0]), {});
    assert |JobOf(e).statements| == 4 && JobOf(e).statements[1] == s;
    assert Storable(s) by { assert FreeTexts(s.at, e) == [[], [], [], []]; }
    hide KeyOf, LifeEvent;
    LifeIsOnChain(0);
    ChainEventsAreChainLogs(Life(0));
    hide HandlerStatements, ChainEvents, RunSome, Storable;
    LifeInEvents(0, e);
    EventOfJob(e);
    InLogsOf(JobOf(e), Life(0));
    assert Shaped(JobOf(e));
    RootIsInserted(db, JobOf(e), s);
  }

  lemma StateChangeLands(db: Database, x: nat)
    requires (x == 2 || x == 5) && AssetRow([0]) in db
    ensures RowOf(AssetStateChanges, LifeEvent(0, x)) in RunSome(db, JobOf(LifeEvent(0, x)).statements, 3)
  {
    var e := LifeEvent(0, x);
    var archive, row := Log(e, RawEvents, {}), Log(e, AssetStateChanges, {AssetRow([0])});
    var change := Update(AssetRow([0]), map[CurrentState := Num(if x == 2 then 1 else 4)]);
    assert JobOf(e).statements == [archive, row, change];
    hide KeyOf, LifeEvent;
    ThreeAccepted(db, archive, row, change);
  }

  lemma OnlyArchived(db: Database, e: Event)
    requires RowOf(AssetStateChanges, e) !in db
    ensures RowOf(AssetStateChanges, e) !in RunSome(db, JobOf(e).statements, 1)
  {
    var archive := Log(e, RawEvents, {});
    hide KeyOf, HandlerStatements;
    RunSomeCons(db, archive, HandlerStatements(e), 1);
    NothingRuns(Exec(db, archive), HandlerStatements(e));
  }

  lemma AssetIsThere(done: seq<Handled>, n: nat)
    requires 1 <= n <= |done| && done[0] == Handled(LifeEvent(0, 0), 4)
    ensures AssetRow([0]) in Tables(map[], done[..n])
  {
    hide LifeEvent, Tables, RunSome, JobOf;
    OneMoreHandled(done, 0);
    AssetLands(Tables(map[], done[..0]));
    RowsStay(done, 1, n);
  }

  lemma ChangeIsThere(done: seq<Handled>, n: nat, x: nat)
    requires 1 <= n < |done| && done[0] == Handled(LifeEvent(0, 0), 4)
    requires (x == 2 || x == 5) && done[n] == Handled(LifeEvent(0, x), 3)
    ensures RowOf(AssetStateChanges, LifeEvent(0, x)) in Tables(map[], done)
  {
    hide LifeEvent, Tables, RunSome, JobOf, KeyOf;
    AssetIsThere(done, n);
    OneMoreHandled(done, n);
    StateChangeLands(Tables(map[], done[..n]), x);
    RowsStay(done, n + 1, |done|);
    assert done[..|done|] == done;
  }

  lemma FirstTryKeys()
    ensures |FirstTry()| == 6 && FirstTry()[2] == Handled(LifeEvent(0, 2), 1)
    ensures forall x :: 0 <= x < 6 && x != 2 ==> KeyOf(FirstTry()[x].event) != KeyOf(LifeEvent(0, 2))
    ensures Tables(map[], FirstTry()[..0]) == map[]
  {
    hide KeyOf, LifeEvent;
    forall x | 0 <= x < 6 && x != 2 ensures KeyOf(FirstTry()[x].event) != KeyOf(LifeEvent(0, 2)) {
      if KeyOf(LifeEvent(0, x)) == KeyOf(LifeEvent(0, 2)) { LifeKeysDiffer(0, x, 2); }
    }
  }

  lemma FirstTryLeavesAGap()
    ensures RowOf(AssetStateChanges, LifeEvent(0, 2)) !in Tables(map[], FirstTry())
  {
    var done, key := FirstTry(), KeyOf(LifeEvent(0, 2));
    FirstTryKeys();
    assert EventRow(AssetStateChanges, key) == RowOf(AssetStateChanges, LifeEvent(0, 2));
    hide *;
    StaysAway(done, 0, 2, AssetStateChanges, key);
    OneMoreHandled(done, 2);
    OnlyArchived(Tables(map[], done[..2]), LifeEvent(0, 2));
    StaysAway(done, 3, 6, AssetStateChanges, key);
    assert done[..6] == done;
  }

  lemma SixTries()
    ensures |FirstTry()| == 6 && |SecondTry()| == 3
    ensures FirstTry()[0] == SecondTry()[0] == Handled(LifeEvent(0, 0), 4)
    ensures FirstTry()[5] == Handled(LifeEvent(0, 5), 3) && SecondTry()[2] == Handled(LifeEvent(0, 2), 3)
  {
  }

  /**
   So ids need not be chronological: two processes, of which the first one's database fails on one
   statement, give the earlier state change of an asset the higher id.
   */
  lemma FilledGapIsNotChronological()
    ensures ChainEvents(Life(0)) && PartialSweep(Life(0), FirstTry()) && PartialSweep(Life(0), SecondTry())
    ensures !Chronological(FirstTry() + SecondTry(), AssetStateChanges, Life(0)(Asset))
  {
    hide *;
    LifeIsOnChain(0);
    TriesArePartial();
    var first, done := FirstTry(), FirstTry() + SecondTry();
    var early, late := RowOf(AssetStateChanges, LifeEvent(0, 2)), RowOf(AssetStateChanges, LifeEvent(0, 5));
    SixTries();
    FirstTryLeavesAGap();
    ChangeIsThere(first, 5, 5);
    ChangeIsThere(done, 5, 5);
    ChangeIsThere(done, 8, 2);
    assert done[..6] == first;
    IsBefore(done, 6, late, early);
    ArrivalsDoNotCross(done, late, early);
    NotInOrder(done, AssetStateChanges);
  }

  lemma NotInOrder(done: seq<Handled>, t: EventTable)
    requires RowOf(t, LifeEvent(0, 2)) in Tables(map[], done) && RowOf(t, LifeEvent(0, 5)) in Tables(map[], done)
    requires !ArrivesBefore(done, RowOf(t, LifeEvent(0, 2)), RowOf(t, LifeEvent(0, 5)))
    ensures !Chronological(done, t, Life(0)(Asset))
  {
    assert Life(0)(Asset)[2] == LifeEvent(0, 2) && Life(0)(Asset)[5] == LifeEvent(0, 5);
    hide ArrivesBefore, Tables, KeyOf, LifeEvent;
  }
}
