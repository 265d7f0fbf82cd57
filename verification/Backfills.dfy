/**
 What one healthy incarnation makes of the whole logs: the loop reads a page of each module in turn, and
 that order alone decides whether the tables come out complete.
 */
module Backfills {
  import opened Events
  import opened SqlStore
  import opened Projection
  import opened Convergence
  import opened Handlers
  import opened Ingestion
  import opened Incarnations

  // ------------------------------------------------------------------ the order of delivery

  lemma BackfillStep(logs: EventLogs, polls: nat)
    requires polls > 0
    ensures var k := Polled(polls - 1);
            && Upto(logs(k), Rounds(polls - 1, k)) <= Upto(logs(k), Rounds(polls, k))
            && Backfill(logs, polls)
            == Backfill(logs, polls - 1) + logs(k)[Upto(logs(k), Rounds(polls - 1, k))..Upto(logs(k), Rounds(polls, k))]
  {
    hide Upto, Rounds;
    var k := Polled(polls - 1);
    RoundsStep(polls - 1, k);
    UptoGrows(logs(k), Rounds(polls - 1, k), Rounds(polls, k));
  }

  lemma NextPoll(logs: EventLogs, polls: nat)
    ensures var m := Polled(polls);
            var from, to := Upto(logs(m), Rounds(polls, m)), Upto(logs(m), Rounds(polls + 1, m));
            from <= to && Backfill(logs, polls + 1) == Backfill(logs, polls) + logs(m)[from..to]
  {
    BackfillStep(logs, polls + 1);
  }

  lemma {:induction false} BackfillOnlyGrows(logs: EventLogs, polls: nat, more: nat)
    requires polls <= more
    ensures Backfill(logs, polls) <= Backfill(logs, more)
  {
    if polls < more {
      BackfillOnlyGrows(logs, polls, more - 1);
      BackfillStep(logs, more);
      hide Backfill;
    }
  }

  lemma UptoGrows(log: seq<Event>, a: nat, b: nat)
    requires a <= b
    ensures Upto(log, a) <= Upto(log, b)
  {
  }

  lemma NoRounds(log: seq<Event>, m: Module)
    ensures Rounds(0, m) == 0 && Upto(log, 0) == 0
  {
  }

  lemma SelectNothing(m: Module)
    ensures Select([], m) == []
  {
  }

  lemma PageSelects(logs: EventLogs, k: Module, before: seq<Event>, rounds: nat, m: Module)
    requires Feed(logs)
    requires Upto(logs(k), rounds) <= Upto(logs(k), rounds + 1)
    ensures var page := logs(k)[Upto(logs(k), rounds)..Upto(logs(k), rounds + 1)];
            && Select(before + page, m) == Select(before, m) + (if m == k then page else [])
            && logs(k)[..Upto(logs(k), rounds + 1)] == logs(k)[..Upto(logs(k), rounds)] + page
  {
    hide Upto, Select;
    var page := logs(k)[Upto(logs(k), rounds)..Upto(logs(k), rounds + 1)];
    forall e | e in page ensures e.mod == k { assert e in logs(k); }
    SelectAppend(before, page, m);
    SelectPage(page, k, m);
  }

  lemma {:induction false} BackfillSelects(logs: EventLogs, polls: nat, m: Module)
    requires Feed(logs)
    ensures Select(Backfill(logs, polls), m) == logs(m)[..Upto(logs(m), Rounds(polls, m))]
  {
    hide Upto, Rounds, Select, Feed;
    if polls == 0 {
      NoRounds(logs(m), m);
      SelectNothing(m);
    } else {
      var k := Polled(polls - 1);
      BackfillStep(logs, polls);
      hide Backfill;
      BackfillSelects(logs, polls - 1, m);
      RoundsStep(polls - 1, k);
      RoundsStep(polls - 1, m);
      UptoGrows(logs(k), Rounds(polls - 1, k), Rounds(polls, k));
      PageSelects(logs, k, Backfill(logs, polls - 1), Rounds(polls - 1, k), m);
    }
  }

  /** The poll, counted from zero, that brings position `i` of a log: every fifth one reads a page of it. */
  function PollOf(m: Module, i: nat): nat {
    5 * (i / PAGE_LIMIT) + Index(m)
  }

  lemma BroughtBy(log: seq<Event>, m: Module, i: nat, polls: nat)
    requires i < |log|
    ensures i < Upto(log, Rounds(polls, m)) <==> PollOf(m, i) < polls
    ensures Upto(log, Rounds(PollOf(m, i), m)) <= i && Polled(PollOf(m, i)) == m
  {
    var page := i / PAGE_LIMIT;
    assert page * PAGE_LIMIT <= i < (page + 1) * PAGE_LIMIT;
    hide Index;
    assert Rounds(PollOf(m, i), m) == page;
  }

  /** Position `c` of log `k` is delivered before position `i` of log `m`, or is the same one. */
  predicate Precedes(k: Module, c: nat, m: Module, i: nat) {
    PollOf(k, c) < PollOf(m, i) || (k == m && c <= i)
  }

  ghost predicate StandsAt(logs: EventLogs, e: Event, k: Module, c: nat) {
    c < |logs(k)| && logs(k)[c] == e
  }

  lemma DeliveredBy(logs: EventLogs, polls: nat, e: Event)
    requires Feed(logs)
    ensures e in Backfill(logs, polls) <==> exists k, c: nat :: StandsAt(logs, e, k, c) && PollOf(k, c) < polls
  {
    hide Backfill, Upto, Rounds, PollOf;
    if e in Backfill(logs, polls) {
      SelectMembers(Backfill(logs, polls), e.mod, e);
      BackfillSelects(logs, polls, e.mod);
      var c :| 0 <= c < Upto(logs(e.mod), Rounds(polls, e.mod)) && logs(e.mod)[c] == e;
      BroughtBy(logs(e.mod), e.mod, c, polls);
      assert StandsAt(logs, e, e.mod, c);
    }
    if k, c: nat :| StandsAt(logs, e, k, c) && PollOf(k, c) < polls {
      BroughtBy(logs(k), k, c, polls);
      BackfillSelects(logs, polls, k);
      assert logs(k)[..Upto(logs(k), Rounds(polls, k))][c] == e;
      SelectMembers(Backfill(logs, polls), k, e);
    }
  }

  /** Where the page that holds position `i` starts. */
  function PageStart(log: seq<Event>, m: Module, i: nat): (n: nat)
    requires i < |log|
    ensures n <= i
  {
    BroughtBy(log, m, i, 0);
    Upto(log, Rounds(PollOf(m, i), m))
  }

  /** What has been delivered when the loop comes to position `i` of log `m`. */
  function Before(logs: EventLogs, m: Module, i: nat): seq<Event>
    requires i < |logs(m)|
  {
    Backfill(logs, PollOf(m, i)) + logs(m)[PageStart(logs(m), m, i)..i]
  }

  lemma SliceMembers(log: seq<Event>, from: nat, i: nat, e: Event)
    requires from <= i < |log|
    ensures e in log[from..i] + [log[i]] <==> exists c :: from <= c <= i && log[c] == e
  {
    if c :| from <= c <= i && log[c] == e {
      if c < i { assert log[from..i][c - from] == e; }
    }
  }

  lemma InPage(logs: EventLogs, m: Module, i: nat, c: nat)
    requires c <= i < |logs(m)|
    ensures PollOf(m, c) < PollOf(m, i) <==> c < PageStart(logs(m), m, i)
  {
    BroughtBy(logs(m), m, c, PollOf(m, i));
  }

  lemma BeforeMembers(logs: EventLogs, m: Module, i: nat, e: Event)
    requires Feed(logs) && i < |logs(m)|
    ensures e in Before(logs, m, i) + [logs(m)[i]]
       <==> exists k, c: nat :: StandsAt(logs, e, k, c) && Precedes(k, c, m, i)
  {
    DeliveredBy(logs, PollOf(m, i), e);
    hide Feed, Backfill, PageStart, PollOf;
    var from := PageStart(logs(m), m, i);
    SliceMembers(logs(m), from, i, e);
    assert Before(logs, m, i) + [logs(m)[i]] == Backfill(logs, PollOf(m, i)) + (logs(m)[from..i] + [logs(m)[i]]);
    if c :| from <= c <= i && logs(m)[c] == e {
      assert StandsAt(logs, e, m, c) && Precedes(m, c, m, i);
    }
    if k, c: nat :| StandsAt(logs, e, k, c) && Precedes(k, c, m, i) {
      if k == m && c <= i { InPage(logs, m, i, c); }
    }
  }

  lemma BeforeEnds(logs: EventLogs, m: Module, i: nat)
    requires i < |logs(m)|
    ensures var front, from := Backfill(logs, PollOf(m, i)), Upto(logs(m), Rounds(PollOf(m, i), m));
            && from <= i
            && Before(logs, m, i) == front + logs(m)[from..i]
            && Before(logs, m, i) + [logs(m)[i]] == front + logs(m)[from..i + 1]
  {
    hide Backfill, Upto, Rounds, PollOf;
    assert PageStart(logs(m), m, i) <= i;
  }

  lemma WithinPage(front: seq<Event>, log: seq<Event>, from: nat, i: nat, to: nat)
    requires from <= i < to <= |log|
    ensures front + log[from..i + 1] <= front + log[from..to]
  {
  }

  lemma BeforeIsPrefix(logs: EventLogs, m: Module, i: nat, polls: nat)
    requires i < |logs(m)| && PollOf(m, i) < polls
    ensures Before(logs, m, i) + [logs(m)[i]] <= Backfill(logs, polls)
  {
    hide *;
    var p := PollOf(m, i);
    BroughtBy(logs(m), m, i, p);
    BroughtBy(logs(m), m, i, p + 1);
    BeforeEnds(logs, m, i);
    BackfillOnlyGrows(logs, p + 1, polls);
    NextPoll(logs, p);
    WithinPage(Backfill(logs, p), logs(m), Upto(logs(m), Rounds(p, m)), i, Upto(logs(m), Rounds(p + 1, m)));
  }

  // ------------------------------------------------------------------ when a backfill is complete

  /** Processed in this order from empty tables, the events find everything they reference. */
  predicate Complete(events: seq<Event>) {
    Resolved({}, Flat(Jobs(events)))
  }

  lemma CompleteIs(events: seq<Event>)
    ensures Complete(events) <==> Resolved({}, Flat(Jobs(events)))
  {
  }

  /** Every asset and pool is created at a place that the loop reaches before any reference to it. */
  ghost predicate CreatorsComeFirst(logs: EventLogs) {
    forall m, i, at :: 0 <= i < |logs(m)| && at in References(logs(m)[i]) ==> CreatorComesFirst(logs, m, i, at)
  }

  ghost predicate CreatorComesFirst(logs: EventLogs, m: Module, i: nat, at: RowKey) {
    exists d, k, c: nat :: StandsAt(logs, d, k, c) && Creates(d, at) && Precedes(k, c, m, i)
  }

  lemma {:induction false} FlatOnlyGrows(a: seq<Job>, b: seq<Job>)
    requires a <= b
    ensures Flat(a) <= Flat(b)
  {
    if |a| < |b| {
      FlatOnlyGrows(a, b[..|b| - 1]);
    } else {
      assert a == b;
    }
  }

  lemma InsertedByCreator(events: seq<Event>, at: RowKey)
    requires IsRoot(at) || at.DisputeRow?
    ensures at in Inserted(Flat(Jobs(events))) <==> exists d :: d in events && Creates(d, at)
  {
    hide Creates, JobOf, Flat, Inserted;
    FlatInserts(Jobs(events), at);
    if j, s :| j in Jobs(events) && InsertsAt(j, s, at) {
      JobsMembers(events, j);
      HandlersInsertTheirOwn(j.event, s);
    }
    if d :| d in events && Creates(d, at) {
      var s := CreatorsInsert(d, at);
      EventOfJob(d);
      JobsMembers(events, JobOf(d));
    }
  }

  lemma PrefixOfJobs(a: seq<Event>, b: seq<Event>)
    requires a <= b
    ensures Flat(Jobs(a)) <= Flat(Jobs(b))
  {
    hide JobOf;
    FlatOnlyGrows(Jobs(a), Jobs(b));
  }

  /** In a resolved sweep whatever a statement references has been inserted before the sweep is past it. */
  lemma ReferenceIsInserted(all: seq<Statement>, early: seq<Statement>, s: Statement, at: RowKey)
    requires Resolved({}, all) && early <= all && s in early && s.Insert? && at in s.refs
    ensures at in Inserted(early)
  {
    hide Storable;
    var i :| 0 <= i < |early| && early[i] == s;
    assert all[..i] == early[..i] && all[i] == s;
  }

  lemma ResolvedNeedsCreators(logs: EventLogs, polls: nat, m: Module, i: nat, at: RowKey)
    requires ChainEvents(logs) && i < |logs(m)| && PollOf(m, i) < polls && at in References(logs(m)[i])
    requires Complete(Backfill(logs, polls))
    ensures CreatorComesFirst(logs, m, i, at)
  {
    hide ChainEvents, Backfill, Before, Creates, HandlerStatements, JobOf, Flat, Jobs, Inserted, Resolved, PollOf;
    var e, reached := logs(m)[i], Before(logs, m, i) + [logs(m)[i]];
    ChainIsFeed(logs);
    BeforeIsPrefix(logs, m, i, polls);
    PrefixOfJobs(reached, Backfill(logs, polls));
    var s :| s in HandlerStatements(e) && s.Insert? && at in s.refs && IsRoot(at);
    StatementOfEvent(reached, e, s);
    ReferenceIsInserted(Flat(Jobs(Backfill(logs, polls))), Flat(Jobs(reached)), s, at);
    InsertedByCreator(reached, at);
    var d :| d in reached && Creates(d, at);
    BeforeMembers(logs, m, i, d);
  }

  lemma StatementOfEvent(events: seq<Event>, e: Event, s: Statement)
    requires e in events && s in HandlerStatements(e)
    ensures s in Flat(Jobs(events))
  {
    EventOfJob(e);
    JobsMembers(events, JobOf(e));
    assert s in JobOf(e).statements;
    hide HandlerStatements, Flat, Jobs;
    FlatMembers(Jobs(events), s);
  }

  lemma ResolvedAppend(a: seq<Statement>, b: seq<Statement>)
    requires Resolved({}, a)
    requires forall k :: 0 <= k < |b| && b[k].Insert? ==> Storable(b[k]) && b[k].refs <= Inserted(a) + Inserted(b[..k])
    ensures Resolved({}, a + b)
  {
    hide Storable, Inserted;
    forall i | 0 <= i < |a + b| && (a + b)[i].Insert?
      ensures Storable((a + b)[i]) && (a + b)[i].refs <= {} + Inserted((a + b)[..i])
    {
      if i < |a| {
        assert (a + b)[..i] == a[..i];
      } else {
        assert (a + b)[..i] == a + b[..i - |a|];
        InsertedAppend(a, b[..i - |a|]);
      }
    }
  }

  /** A handler inserts an asset or a pool before it references it. */
  lemma OwnRootIsFirst(e: Event, k: nat, at: RowKey)
    requires AtHome(e) && Creates(e, at) && IsRoot(at)
    requires k < |JobOf(e).statements| && JobOf(e).statements[k].Insert? && at in JobOf(e).statements[k].refs
    ensures at in Inserted(JobOf(e).statements[..k])
  {
    hide HandlerStatements, Creates;
    var ss := JobOf(e).statements;
    RootsComeFirst(e);
    HandlersAreShaped(e);
    var s := CreatorsInsert(e, at);
    var u :| 0 <= u < |ss| && ss[u] == s;
    assert ss[k] in ss && ShapedStatement(e, ss[k]);
    assert u != k && !(k < u);
    assert ss[..k][u] == s;
  }

  lemma JobResolves(logs: EventLogs, m: Module, i: nat, k: nat, at: RowKey)
    requires ChainEvents(logs) && CreatorsComeFirst(logs) && i < |logs(m)|
    requires var ss := JobOf(logs(m)[i]).statements; k < |ss| && ss[k].Insert? && at in ss[k].refs
    ensures at in Inserted(Flat(Jobs(Before(logs, m, i)))) + Inserted(JobOf(logs(m)[i]).statements[..k])
  {
    hide ChainEvents, Before, Creates, HandlerStatements, JobOf, Flat, Jobs, Inserted, PollOf;
    var e := logs(m)[i];
    var s := JobOf(e).statements[k];
    ChainIsFeed(logs);
    AtHomeInLog(logs, m, i);
    assert s in JobOf(e).statements;
    if at.DisputeRow? {
      HandlersReferenceDisputes(e, s, at);
      var c := SubjectIsCreated(logs, m, i, at);
      BeforeMembers(logs, m, i, logs(m)[c]);
      assert StandsAt(logs, logs(m)[c], m, c) && Precedes(m, c, m, i);
      EarlierIsOther(logs, m, c, i);
      InsertedByCreator(Before(logs, m, i), at);
    } else {
      ReferencesAreRoots(e, s, at);
      assert CreatorComesFirst(logs, m, i, at);
      var d, j, c: nat :| StandsAt(logs, d, j, c) && Creates(d, at) && Precedes(j, c, m, i);
      if d == e {
        OwnRootIsFirst(e, k, at);
      } else {
        BeforeMembers(logs, m, i, d);
        InsertedByCreator(Before(logs, m, i), at);
      }
    }
  }

  lemma AtHomeInLog(logs: EventLogs, m: Module, i: nat)
    requires ChainEvents(logs) && i < |logs(m)|
    ensures AtHome(logs(m)[i]) && InEvents(logs(m)[i], logs)
  {
    assert logs(m)[i] in logs(m);
  }

  lemma EarlierIsOther(logs: EventLogs, m: Module, c: nat, i: nat)
    requires ChainEvents(logs) && c < i < |logs(m)|
    ensures logs(m)[c] != logs(m)[i]
  {
    hide KeyOf, CreatedFirst, FreshIds, NothingDangles;
    assert KeyOf(logs(m)[c]) != KeyOf(logs(m)[i]);
  }

  lemma SamePlace(logs: EventLogs, m: Module, x: nat, c: nat)
    requires ChainEvents(logs) && x < |logs(m)| && c < |logs(m)| && logs(m)[x] == logs(m)[c]
    ensures x == c
  {
    hide ChainEvents;
    if x < c { EarlierIsOther(logs, m, x, c); }
    if c < x { EarlierIsOther(logs, m, c, x); }
  }

  lemma SubjectIsCreated(logs: EventLogs, m: Module, i: nat, at: RowKey) returns (c: nat)
    requires ChainEvents(logs) && i < |logs(m)| && at in Subject(logs(m)[i].payload)
    ensures c < i && Creates(logs(m)[c], at)
  {
    hide Creates, Subject, KeysIdentify, FreshIds, NothingDangles;
    assert CreatedBefore(logs(m), i, at);
    c :| 0 <= c < i && Creates(logs(m)[c], at);
  }

  /** One more event, when what it references has been created. */
  lemma OneMoreResolves(logs: EventLogs, m: Module, i: nat)
    requires ChainEvents(logs) && CreatorsComeFirst(logs) && CleanEvents(logs) && i < |logs(m)|
    requires Complete(Before(logs, m, i))
    ensures Complete(Before(logs, m, i) + [logs(m)[i]])
  {
    hide ChainEvents, CreatorsComeFirst, Before, JobOf, Inserted, Resolved, Storable, Clean;
    var before, e := Before(logs, m, i), logs(m)[i];
    var ss := JobOf(e).statements;
    AtHomeInLog(logs, m, i);
    CleanIsStorable(e);
    forall k | 0 <= k < |ss| && ss[k].Insert?
      ensures Storable(ss[k]) && ss[k].refs <= Inserted(Flat(Jobs(before))) + Inserted(ss[..k])
    {
      assert ss[k] in ss;
      forall at | at in ss[k].refs ensures at in Inserted(Flat(Jobs(before))) + Inserted(ss[..k]) {
        JobResolves(logs, m, i, k, at);
      }
    }
    ResolvedAppend(Flat(Jobs(before)), ss);
    FlatOneMore(before, e);
  }

  lemma FlatOneMore(events: seq<Event>, e: Event)
    ensures Flat(Jobs(events + [e])) == Flat(Jobs(events)) + JobOf(e).statements
  {
    hide JobOf;
    assert Jobs(events + [e])[..|events|] == Jobs(events);
  }

  lemma PageOf(logs: EventLogs, polls: nat, m: Module, i: nat)
    requires Upto(logs(m), Rounds(polls, m)) <= i < Upto(logs(m), Rounds(polls + 1, m))
    ensures var from := Upto(logs(m), Rounds(polls, m));
            && Before(logs, m, i) == Backfill(logs, polls) + logs(m)[from..i]
            && Before(logs, m, i) + [logs(m)[i]] == Backfill(logs, polls) + logs(m)[from..i + 1]
  {
    hide *;
    BroughtBy(logs(m), m, i, polls);
    BroughtBy(logs(m), m, i, polls + 1);
    BeforeEnds(logs, m, i);
  }

  lemma {:induction false} PageResolves(logs: EventLogs, polls: nat, m: Module, n: nat)
    requires ChainEvents(logs) && CreatorsComeFirst(logs) && CleanEvents(logs) && m == Polled(polls)
    requires Complete(Backfill(logs, polls))
    requires Upto(logs(m), Rounds(polls, m)) <= n <= Upto(logs(m), Rounds(polls + 1, m))
    ensures Complete(Backfill(logs, polls) + logs(m)[Upto(logs(m), Rounds(polls, m))..n])
    decreases n
  {
    hide ChainEvents, CreatorsComeFirst, CleanEvents, Backfill, Upto, Rounds, Complete, PollOf, Polled, PageStart;
    var from := Upto(logs(m), Rounds(polls, m));
    if n == from {
      assert Backfill(logs, polls) + logs(m)[from..n] == Backfill(logs, polls);
    } else {
      PageResolves(logs, polls, m, n - 1);
      PageOf(logs, polls, m, n - 1);
      OneMoreResolves(logs, m, n - 1);
    }
  }

  lemma NothingResolves(logs: EventLogs)
    ensures Complete(Backfill(logs, 0))
  {
    assert Jobs(Backfill(logs, 0)) == [];
  }

  lemma {:induction false} BackfillResolves(logs: EventLogs, polls: nat)
    requires ChainEvents(logs) && CreatorsComeFirst(logs) && CleanEvents(logs)
    ensures Complete(Backfill(logs, polls))
  {
    hide *;
    if polls == 0 {
      NothingResolves(logs);
    } else {
      var p := polls - 1;
      BackfillResolves(logs, p);
      NextPoll(logs, p);
      PageResolves(logs, p, Polled(p), Upto(logs(Polled(p)), Rounds(p + 1, Polled(p))));
    }
  }

  /** That many polls bring every log to its end. */
  ghost predicate ReadsAll(logs: EventLogs, polls: nat) {
    forall m :: Upto(logs(m), Rounds(polls, m)) == |logs(m)|
  }

  lemma WholeLogs(logs: EventLogs, polls: nat)
    requires Feed(logs) && ReadsAll(logs, polls)
    ensures Interleaving(Jobs(Backfill(logs, polls)), LogsOf(logs))
  {
    hide Backfill, JobOf, Upto, Rounds, Feed;
    forall m ensures Of(Jobs(Backfill(logs, polls)), m) == LogsOf(logs)(m) {
      BackfillSelects(logs, polls, m);
      OfJobs(Backfill(logs, polls), m);
      assert logs(m)[..|logs(m)|] == logs(m);
    }
  }

  lemma EmptyHistory()
    ensures Replay(map[], []) == map[] && Replay(map[], []).Keys == {}
  {
  }

  /**
   The exact condition for one healthy backfill from empty tables to leave the reference projection:
   the users' words can be stored, and the page that creates an asset or a pool is read before any page
   that refers to it.
   */
  lemma BackfillConvergesIff(logs: EventLogs, polls: nat)
    requires ChainEvents(logs) && ReadsAll(logs, polls)
    ensures Sweep(map[], Jobs(Backfill(logs, polls))) == Projected(Jobs(Backfill(logs, polls)))
       <==> CleanEvents(logs) && CreatorsComeFirst(logs)
  {
    hide *;
    var jobs := Jobs(Backfill(logs, polls));
    ChainIsFeed(logs);
    ChainEventsAreChainLogs(logs);
    WholeLogs(logs, polls);
    EmptyHistory();
    SweepConverges(LogsOf(logs), [], jobs);
    CleanLogsAreStorable(logs);
    assert Complete(Backfill(logs, polls)) <==> Resolved({}, Flat(jobs)) by { CompleteIs(Backfill(logs, polls)); }
    if Complete(Backfill(logs, polls)) {
      ResolvedIsStorable({}, LogsOf(logs), jobs);
      AllCreatorsFirst(logs, polls);
    }
    if CleanEvents(logs) && CreatorsComeFirst(logs) { BackfillResolves(logs, polls); }
  }

  /** And so for a process that has gone through such a backfill with every handler running to its end. */
  lemma HealthyLifeConvergesIff(logs: EventLogs, done: seq<Handled>, polls: nat)
    requires ChainEvents(logs) && ReadsAll(logs, polls)
    requires EventsOf(done) == Backfill(logs, polls) && forall h <- done :: RanToEnd(h)
    ensures Tables(map[], done) == Projected(Jobs(EventsOf(done))) <==> CleanEvents(logs) && CreatorsComeFirst(logs)
  {
    hide *;
    FullCutsAreASweep(map[], done);
    BackfillConvergesIff(logs, polls);
  }

  lemma AllCreatorsFirst(logs: EventLogs, polls: nat)
    requires ChainEvents(logs) && ReadsAll(logs, polls) && Complete(Backfill(logs, polls))
    ensures CreatorsComeFirst(logs)
  {
    hide ChainEvents, Backfill, Upto, Rounds, Complete, PollOf, References, CreatorComesFirst;
    forall m, i, at | 0 <= i < |logs(m)| && at in References(logs(m)[i]) ensures CreatorComesFirst(logs, m, i, at) {
      BroughtBy(logs(m), m, i, polls);
      ResolvedNeedsCreators(logs, polls, m, i, at);
    }
  }

  /**
   So the loop's own order can lose rows although nothing fails: when the first accumulator page refers
   to an asset that is created after the first asset page, the row is refused, its cursor moves on, and
   the incarnation ends short of the reference however long it runs.
   */
  lemma BackfillLosesRows(logs: EventLogs, polls: nat, a: nat, c: nat, at: RowKey)
    requires ChainEvents(logs) && ReadsAll(logs, polls)
    requires a < |logs(Accumulator)| && a < PAGE_LIMIT && at in References(logs(Accumulator)[a])
    requires PAGE_LIMIT <= c < |logs(Asset)| && Creates(logs(Asset)[c], at)
    ensures Sweep(map[], Jobs(Backfill(logs, polls))) != Projected(Jobs(Backfill(logs, polls)))
  {
    BackfillConvergesIff(logs, polls);
    CreatorIsLate(logs, a, c, at);
    hide CreatorComesFirst, References, Backfill, ChainEvents, ReadsAll, Sweep, Projected;
  }

  lemma CreatorIsLate(logs: EventLogs, a: nat, c: nat, at: RowKey)
    requires ChainEvents(logs) && a < PAGE_LIMIT
    requires PAGE_LIMIT <= c < |logs(Asset)| && Creates(logs(Asset)[c], at)
    ensures !CreatorComesFirst(logs, Accumulator, a, at)
  {
    hide KeyOf, Creates, CreatedFirst, NothingDangles;
    var late := logs(Asset)[c];
    assert late in logs(Asset);
    forall d, k, x: nat | StandsAt(logs, d, k, x) && Creates(d, at) ensures !Precedes(k, x, Accumulator, a) {
      assert d in logs(k);
      assert d == late && k == Asset;
      SamePlace(logs, Asset, x, c);
      assert c / PAGE_LIMIT >= 1;
    }
  }
}
