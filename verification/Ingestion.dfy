/**
 The ingestion loop: one in-memory cursor per module, pages of at most fifty events, handlers that
 may stop anywhere, and restarts that lose the cursors and keep the tables.
 */
module Ingestion {
  import opened Common
  import opened Events
  import opened SqlStore
  import opened Convergence
  import opened Handlers

  const PAGE_LIMIT: nat := 50

  const FROM_GENESIS: map<Module, Option<EventId>> :=
    map[Protocol := None, Validator := None, Asset := None, Accumulator := None, Dispute := None]

  lemma EveryModuleHasACursor()
    ensures forall m: Module :: m in FROM_GENESIS && FROM_GENESIS[m] == None
  {
    forall m: Module ensures m in FROM_GENESIS && FROM_GENESIS[m] == None {
      match m case Protocol => case Validator => case Asset => case Accumulator => case Dispute =>
    }
  }

  /** How one poll goes, decided by the environment. */
  datatype Reply =
    | Unreachable
    // the node has the first `visible` events of the log; event i of the page gets through
    // `cuts[i]` statements, and the process dies where `cuts` ends early
    | Page(visible: nat, cuts: seq<nat>, cursorSaved: bool)

  /** How many events of a log the cursor has passed: the node resumes right after that event. */
  function After(log: seq<Event>, cursor: Option<EventId>): (n: nat)
    ensures n <= |log|
  {
    if cursor.None? || log == [] then 0
    else if log[|log| - 1].id == cursor.value then |log|
    else After(log[..|log| - 1], cursor)
  }

  function Stop(start: nat, visible: nat): nat {
    if visible <= start then start else if visible - start <= PAGE_LIMIT then visible else start + PAGE_LIMIT
  }

  /** One event this incarnation has processed, and how many statements it got through. */
  datatype Handled = Handled(event: Event, cut: nat)

  function EventsOf(done: seq<Handled>): (r: seq<Event>) {
    seq(|done|, i requires 0 <= i < |done| => done[i].event)
  }

  function Occurrences(done: seq<Handled>): seq<Occurrence> {
    seq(|done|, i requires 0 <= i < |done| => Occurrence(JobOf(done[i].event), done[i].cut))
  }

  /** The tables after processing events on top of earlier tables. */
  function Tables(base: Database, done: seq<Handled>): Database {
    Replay(base, Occurrences(done))
  }

  lemma TablesStep(base: Database, done: seq<Handled>, h: Handled)
    ensures Tables(base, done + [h]) == RunSome(Tables(base, done), JobOf(h.event).statements, h.cut)
  {
    var all := Occurrences(done + [h]);
    assert all[..|all| - 1] == Occurrences(done);
  }

  function Select(events: seq<Event>, m: Module): seq<Event> {
    if events == [] then []
    else
      var last := events[|events| - 1];
      Select(events[..|events| - 1], m) + if last.mod == m then [last] else []
  }

  lemma {:induction false} AfterOwnId(log: seq<Event>, i: nat)
    requires i < |log| && forall x, y :: 0 <= x < y < |log| ==> log[x].id != log[y].id
    ensures After(log, Some(log[i].id)) == i + 1
  {
    if i < |log| - 1 { AfterOwnId(log[..|log| - 1], i); }
  }

  /** Progress is the one stopping point with the three properties below. */
  lemma ProgressIs(db: Database, ss: seq<Statement>, cut: nat, p: nat)
    requires p <= |ss| && p <= cut && AllAccepted(db, ss[..p])
    requires p < |ss| && p < cut ==> !Accepts(ExecAll(db, ss[..p]), ss[p])
    ensures Progress(db, ss, cut) == p
  {
    ProgressStops(db, ss, cut);
    var q := Progress(db, ss, cut);
    forall i | 0 <= i < p ensures Accepts(ExecAll(db, ss[..i]), ss[i]) {
      assert ss[..p][..i] == ss[..i] && ss[..p][i] == ss[i];
    }
    forall i | 0 <= i < q ensures Accepts(ExecAll(db, ss[..i]), ss[i]) {
      assert ss[..q][..i] == ss[..i] && ss[..q][i] == ss[i];
    }
  }

  lemma StopsAfterFirst(db: Database, s: Statement, ss: seq<Statement>, cut: nat, p: nat)
    requires cut > 0 && Accepts(db, s)
    requires p <= |ss| && p <= cut - 1 && AllAccepted(Exec(db, s), ss[..p])
    requires p < |ss| && p < cut - 1 ==> !Accepts(ExecAll(Exec(db, s), ss[..p]), ss[p])
    ensures Progress(db, [s] + ss, cut) == p + 1
  {
    RunsAfterFirst(db, s, ss, p);
    ProgressIs(db, [s] + ss, cut, p + 1);
  }

  /** Running a first statement that is accepted and then the rest is running the whole list. */
  lemma RunSomeCons(db: Database, s: Statement, ss: seq<Statement>, cut: nat)
    requires cut > 0 && Accepts(db, s)
    ensures RunSome(db, [s] + ss, cut) == RunSome(Exec(db, s), ss, cut - 1)
  {
    hide Progress, ExecAll, AllAccepted, Exec, Accepts;
    var p := Progress(Exec(db, s), ss, cut - 1);
    ProgressStops(Exec(db, s), ss, cut - 1);
    StopsAfterFirst(db, s, ss, cut, p);
    RunsAfterFirst(db, s, ss, p);
  }

  lemma RunsAfterFirst(db: Database, s: Statement, ss: seq<Statement>, p: nat)
    requires Accepts(db, s) && p <= |ss| && AllAccepted(Exec(db, s), ss[..p])
    ensures var all := [s] + ss;
            && AllAccepted(db, all[..p + 1])
            && ExecAll(db, all[..p + 1]) == ExecAll(Exec(db, s), ss[..p])
  {
    assert ([s] + ss)[..p + 1] == [s] + ss[..p];
    assert [s][..0] == [];
    assert ExecAll(db, [s]) == Exec(db, s);
    AcceptedAppend(db, [s], ss[..p]);
    ExecAllAppend(db, [s], ss[..p]);
  }

  /** The node returns each module's own events in log order, under distinct ids. */
  predicate Feed(logs: EventLogs) {
    forall m :: Distinct(logs(m)) && forall e <- logs(m) :: e.mod == m
  }

  function Tip(log: seq<Event>, visible: nat): nat {
    if visible < |log| then visible else |log|
  }

  /** Where a poll that succeeds leaves the cursor. */
  function NextPosition(log: seq<Event>, before: nat, reply: Reply): (r: nat)
    requires before <= |log|
    ensures before <= r <= |log|
  {
    if reply.Page? then Stop(before, Tip(log, reply.visible)) else before
  }

  /** A successful poll of a visible backlog leaves what is beyond the first fifty events of it. */
  lemma BacklogShrinks(log: seq<Event>, before: nat, reply: Reply)
    requires before <= |log| && reply.Page? && reply.visible >= |log|
    ensures var backlog := |log| - before;
            |log| - NextPosition(log, before, reply) == if backlog <= 50 then 0 else backlog - 50
  {
  }

  /** What a poll that succeeds has processed: the page in order. */
  function PollDone(log: seq<Event>, before: nat, reply: Reply): seq<Handled>
    requires before <= |log|
  {
    var page := log[before..NextPosition(log, before, reply)];
    if reply.Page? && |page| <= |reply.cuts| then Processed(page, reply.cuts) else []
  }

  function Processed(page: seq<Event>, cuts: seq<nat>): (r: seq<Handled>)
    requires |page| <= |cuts|
  {
    seq(|page|, i requires 0 <= i < |page| => Handled(page[i], cuts[i]))
  }

  lemma NothingProcessed(page: seq<Event>, cuts: seq<nat>)
    ensures Processed(page[..0], cuts[..0]) == []
  {
  }

  lemma ProcessedOneMore(page: seq<Event>, cuts: seq<nat>, i: nat)
    requires i < |page| && i < |cuts|
    ensures Processed(page[..i + 1], cuts[..i + 1]) == Processed(page[..i], cuts[..i]) + [Handled(page[i], cuts[i])]
  {
  }

  lemma AllProcessed(page: seq<Event>, cuts: seq<nat>)
    requires |page| <= |cuts|
    ensures page[..|page|] == page && Processed(page, cuts[..|page|]) == Processed(page, cuts)
  {
  }

  lemma {:induction false} SelectAppend(a: seq<Event>, b: seq<Event>, m: Module)
    ensures Select(a + b, m) == Select(a, m) + Select(b, m)
  {
    if b == [] {
      assert a + b == a;
    } else {
      assert (a + b)[..|a + b| - 1] == a + b[..|b| - 1];
      SelectAppend(a, b[..|b| - 1], m);
    }
  }

  lemma {:induction false} SelectPage(page: seq<Event>, m: Module, k: Module)
    requires forall e <- page :: e.mod == m
    ensures Select(page, k) == if k == m then page else []
  {
    if page != [] {
      var n := |page| - 1;
      SelectPage(page[..n], m, k);
      assert page[n] in page;
    }
  }

  /** Appending a whole page to what is done extends one module's prefix and no other's. */
  lemma PageExtends(log: seq<Event>, n: nat, done: seq<Handled>, page: seq<Event>, cuts: seq<nat>, m: Module, k: Module)
    requires n <= |log| && Select(EventsOf(done), k) == log[..n]
    requires |page| <= |cuts| && forall e <- page :: e.mod == m
    requires k == m ==> n + |page| <= |log| && page == log[n..n + |page|]
    ensures Select(EventsOf(done + Processed(page, cuts)), k) == log[..if k == m then n + |page| else n]
  {
    hide Select, Processed, EventsOf;
    EventsOfProcessed(done, page, cuts);
    SelectAppend(EventsOf(done), page, k);
    SelectPage(page, m, k);
    if k == m { assert log[..n + |page|] == log[..n] + page; }
  }

  lemma EventsOfProcessed(done: seq<Handled>, page: seq<Event>, cuts: seq<nat>)
    requires |page| <= |cuts|
    ensures EventsOf(done + Processed(page, cuts)) == EventsOf(done) + page
  {
  }

  predicate Distinct(log: seq<Event>) {
    forall x, y :: 0 <= x < y < |log| ==> log[x].id != log[y].id
  }

  type Cursors = map<Module, Option<EventId>>

  /** Sweep without gaps: per module, exactly the log's prefix up to the cursor, each event once, in order. */
  ghost predicate Swept(logs: EventLogs, cursors: Cursors, done: seq<Handled>) {
    && (forall m: Module :: m in cursors)
    && forall m :: Select(EventsOf(done), m) == logs(m)[..After(logs(m), cursors[m])]
  }

  lemma PageKeepsSwept(logs: EventLogs, m: Module, cursors: Cursors, next: Cursors, done: seq<Handled>,
                       stop: nat, cuts: seq<nat>)
    requires Feed(logs) && Swept(logs, cursors, done)
    requires After(logs(m), cursors[m]) <= stop <= |logs(m)| && |cuts| >= stop - After(logs(m), cursors[m])
    requires (forall k: Module :: k in next && (k != m ==> next[k] == cursors[k])) && After(logs(m), next[m]) == stop
    ensures Swept(logs, next, done + Processed(logs(m)[After(logs(m), cursors[m])..stop], cuts))
  {
    var page := logs(m)[After(logs(m), cursors[m])..stop];
    forall e | e in page ensures e.mod == m { assert e in logs(m); }
    forall k: Module
      ensures Select(EventsOf(done + Processed(page, cuts)), k) == logs(k)[..After(logs(k), next[k])]
    {
      PageExtends(logs(k), After(logs(k), cursors[k]), done, page, cuts, m, k);
    }
  }

  /** What a process leaves behind wherever it stops: per module a prefix of the log, each event once, in order. */
  ghost predicate PartialSweep(logs: EventLogs, done: seq<Handled>) {
    forall m :: Select(EventsOf(done), m) <= logs(m)
  }

  lemma SweptIsPartial(logs: EventLogs, cursors: Cursors, done: seq<Handled>)
    requires Swept(logs, cursors, done)
    ensures PartialSweep(logs, done)
  {
  }

  /** A page cut short anywhere still extends one module's prefix. */
  lemma CutPageIsPartial(logs: EventLogs, m: Module, cursors: Cursors, done: seq<Handled>, stop: nat, n: nat,
                         cuts: seq<nat>)
    requires Feed(logs) && Swept(logs, cursors, done)
    requires After(logs(m), cursors[m]) <= stop <= |logs(m)| && n <= stop - After(logs(m), cursors[m]) && n <= |cuts|
    ensures var page := logs(m)[After(logs(m), cursors[m])..stop];
            PartialSweep(logs, done + Processed(page[..n], cuts[..n]))
  {
    hide Select, EventsOf, Processed, After;
    var start := After(logs(m), cursors[m]);
    var page := logs(m)[start..stop];
    forall e | e in page[..n] ensures e.mod == m { assert e in logs(m); }
    forall k: Module ensures Select(EventsOf(done + Processed(page[..n], cuts[..n])), k) <= logs(k) {
      PageExtends(logs(k), After(logs(k), cursors[k]), done, page[..n], cuts[..n], m, k);
    }
  }

  // ------------------------------------------------------------------ what the environment decides

  /** The module that a poll reads. */
  function Polled(poll: nat): Module {
    EVENT_MODULES[poll % 5]
  }

  /** How much of a module's log those polls have read. */
  function Position(logs: EventLogs, replies: seq<Reply>, m: Module): (n: nat)
    ensures n <= |logs(m)|
  {
    if replies == [] then 0
    else
      var last := |replies| - 1;
      var before := Position(logs, replies[..last], m);
      if Polled(last) == m then NextPosition(logs(m), before, replies[last]) else before
  }

  /** The process outlives a poll: each event of the page gets at least archived, and the cursor is saved. */
  predicate PollSurvives(log: seq<Event>, before: nat, reply: Reply)
    requires before <= |log|
  {
    var n := NextPosition(log, before, reply) - before;
    reply.Page? ==> n <= |reply.cuts| && (forall i :: 0 <= i < n ==> reply.cuts[i] > 0) && (n > 0 ==> reply.cursorSaved)
  }

  /**
   A process outlives a poll whatever it is refused by handlers: it ends only when an event of the page,
   the at most fifty next visible ones, is not even archived, or when the cursor of a page with events
   is not saved. An unreachable node never ends it.
   */
  lemma PollSurvivesIff(log: seq<Event>, before: nat, reply: Reply)
    requires before <= |log|
    ensures reply.Unreachable? ==> PollSurvives(log, before, reply)
    ensures reply.Page? ==>
              var visible := if reply.visible < |log| then reply.visible else |log|;
              var n := if visible <= before then 0 else if visible - before > 50 then 50 else visible - before;
              PollSurvives(log, before, reply) <==>
                (n <= |reply.cuts| && (n == 0 || reply.cursorSaved) && forall i :: 0 <= i < n ==> reply.cuts[i] != 0)
  {
  }

  predicate Survives(logs: EventLogs, replies: seq<Reply>) {
    replies == []
    || var last := |replies| - 1;
       && Survives(logs, replies[..last])
       && PollSurvives(logs(Polled(last)), Position(logs, replies[..last], Polled(last)), replies[last])
  }

  /** All that a surviving process has processed, and how far each handler got. */
  function RunDone(logs: EventLogs, replies: seq<Reply>): seq<Handled> {
    if replies == [] then []
    else
      var last := |replies| - 1;
      RunDone(logs, replies[..last])
      + PollDone(logs(Polled(last)), Position(logs, replies[..last], Polled(last)), replies[last])
  }

  predicate RanToEnd(h: Handled) {
    h.cut >= |JobOf(h.event).statements|
  }

  /** A life that reads every log to its end, none of its handlers being cut short. */
  ghost predicate CompleteLife(logs: EventLogs, replies: seq<Reply>) {
    && Survives(logs, replies)
    && (forall m :: Position(logs, replies, m) == |logs(m)|)
    && forall h <- RunDone(logs, replies) :: RanToEnd(h)
  }

  lemma SweptAtStart(logs: EventLogs, cursors: Cursors)
    requires forall m: Module :: m in cursors && cursors[m] == None
    ensures Swept(logs, cursors, [])
  {
    assert EventsOf([]) == [];
  }

  // ------------------------------------------------------------------ a healthy backfill

  function Index(m: Module): (i: nat)
    ensures i < 5 && EVENT_MODULES[i] == m
  {
    match m case Protocol => 0 case Validator => 1 case Asset => 2 case Accumulator => 3 case Dispute => 4
  }

  /** How often a module has been polled among the first `polls` polls. */
  function Rounds(polls: nat, m: Module): nat {
    (polls + 4 - Index(m)) / 5
  }

  /** How much of a log that many full pages cover. */
  function Upto(log: seq<Event>, rounds: nat): (n: nat)
    ensures n <= |log|
  {
    if PAGE_LIMIT * rounds < |log| then PAGE_LIMIT * rounds else |log|
  }

  lemma RoundsStep(polls: nat, m: Module)
    ensures Rounds(polls + 1, m) == Rounds(polls, m) + if m == Polled(polls) then 1 else 0
  {
    IndexIsPlace(m, polls % 5);
    RoundsCount(polls, Index(m));
    hide Index;
  }

  lemma IndexIsPlace(m: Module, i: nat)
    requires i < 5
    ensures m == EVENT_MODULES[i] <==> Index(m) == i
  {
    assert forall i, k :: 0 <= i < k < 5 ==> EVENT_MODULES[i] != EVENT_MODULES[k];
  }

  lemma RoundsCount(polls: nat, i: nat)
    requires i < 5
    ensures (polls + 5 - i) / 5 == (polls + 4 - i) / 5 + if i == polls % 5 then 1 else 0
  {
  }

  /** The events a healthy incarnation processes in its first polls when the whole log is visible. */
  function Backfill(logs: EventLogs, polls: nat): seq<Event> {
    if polls == 0 then []
    else
      var m := Polled(polls - 1);
      RoundsStep(polls - 1, m);
      Backfill(logs, polls - 1) + logs(m)[Upto(logs(m), Rounds(polls - 1, m))..Upto(logs(m), Rounds(polls, m))]
  }

  predicate Healthy(logs: EventLogs, replies: seq<Reply>) {
    forall i :: 0 <= i < |replies| ==> replies[i].Page? && replies[i].visible >= |logs(Polled(i))|
  }

  /** Every cursor stands where full pages would have brought it. */
  ghost predicate AtPoll(logs: EventLogs, cursors: Cursors, polls: nat) {
    && (forall m: Module :: m in cursors)
    && forall m :: After(logs(m), cursors[m]) == Upto(logs(m), Rounds(polls, m))
  }

  lemma NothingYet(logs: EventLogs)
    ensures EventsOf([]) == Backfill(logs, 0)
  {
  }

  lemma AtPollAt(logs: EventLogs, cursors: Cursors, polls: nat, m: Module)
    requires AtPoll(logs, cursors, polls)
    ensures m in cursors && After(logs(m), cursors[m]) == Upto(logs(m), Rounds(polls, m))
  {
  }

  lemma NothingRead(logs: EventLogs, cursors: Cursors)
    requires forall m: Module :: m in cursors && cursors[m] == None
    ensures Survives(logs, []) && RunDone(logs, []) == []
    ensures forall m :: After(logs(m), cursors[m]) == Position(logs, [], m)
  {
  }

  lemma {:induction false} DeathIsFinal(logs: EventLogs, replies: seq<Reply>, i: nat)
    requires i <= |replies| && !Survives(logs, replies[..i])
    ensures !Survives(logs, replies)
  {
    if i < |replies| {
      assert replies[..|replies| - 1][..i] == replies[..i];
      DeathIsFinal(logs, replies[..|replies| - 1], i);
    } else {
      assert replies[..i] == replies;
    }
  }

  /** What one more poll adds to the environment's account of a life. */
  lemma OnePoll(logs: EventLogs, replies: seq<Reply>, i: nat)
    requires i < |replies| && Survives(logs, replies[..i])
    ensures var m := Polled(i);
            var before := Position(logs, replies[..i], m);
            && RunDone(logs, replies[..i + 1]) == RunDone(logs, replies[..i]) + PollDone(logs(m), before, replies[i])
            && Position(logs, replies[..i + 1], m) == NextPosition(logs(m), before, replies[i])
            && (forall k: Module :: k != m ==> Position(logs, replies[..i + 1], k) == Position(logs, replies[..i], k))
            && (Survives(logs, replies[..i + 1]) <==> PollSurvives(logs(m), before, replies[i]))
            && (!PollSurvives(logs(m), before, replies[i]) ==> !Survives(logs, replies))
  {
    hide NextPosition, PollDone, PollSurvives, Survives, Position, RunDone;
    LastPoll(logs, replies[..i], replies[i]);
    assert replies[..i + 1] == replies[..i] + [replies[i]];
    if !Survives(logs, replies[..i + 1]) { DeathIsFinal(logs, replies, i + 1); }
  }

  lemma LastPoll(logs: EventLogs, front: seq<Reply>, last: Reply)
    ensures var m := Polled(|front|);
            var before := Position(logs, front, m);
            && RunDone(logs, front + [last]) == RunDone(logs, front) + PollDone(logs(m), before, last)
            && Position(logs, front + [last], m) == NextPosition(logs(m), before, last)
            && (forall k: Module :: k != m ==> Position(logs, front + [last], k) == Position(logs, front, k))
            && (Survives(logs, front + [last]) <==> Survives(logs, front) && PollSurvives(logs(m), before, last))
  {
    hide NextPosition, PollDone, PollSurvives;
    assert (front + [last])[..|front|] == front;
  }

  lemma AtFirstPoll(logs: EventLogs, cursors: Cursors)
    requires forall m: Module :: m in cursors && cursors[m] == None
    ensures AtPoll(logs, cursors, 0)
  {
  }

  lemma FullPage(log: seq<Event>, rounds: nat, reply: Reply)
    requires reply.Page? && reply.visible >= |log|
    ensures NextPosition(log, Upto(log, rounds), reply) == Upto(log, rounds + 1)
  {
  }

  lemma CursorsAfterPoll(logs: EventLogs, i: nat, m: Module, reply: Reply, cursors: Cursors, next: Cursors)
    requires m == Polled(i) && AtPoll(logs, cursors, i)
    requires reply.Page? && reply.visible >= |logs(m)|
    requires forall k: Module :: k in next && (k != m ==> next[k] == cursors[k])
    requires After(logs(m), next[m]) == NextPosition(logs(m), After(logs(m), cursors[m]), reply)
    ensures AtPoll(logs, next, i + 1)
  {
    hide After, NextPosition, Upto, Rounds;
    FullPage(logs(m), Rounds(i, m), reply);
    forall k: Module { RoundsStep(i, k); }
  }

  lemma EventsAfterPoll(logs: EventLogs, i: nat, m: Module, reply: Reply, done: seq<Handled>)
    requires m == Polled(i) && EventsOf(done) == Backfill(logs, i)
    requires reply.Page? && reply.visible >= |logs(m)|
    requires var before := Upto(logs(m), Rounds(i, m));
             NextPosition(logs(m), before, reply) <= before + |reply.cuts|
    ensures EventsOf(done + PollDone(logs(m), Upto(logs(m), Rounds(i, m)), reply)) == Backfill(logs, i + 1)
  {
    hide EventsOf, NextPosition, Upto, Rounds;
    FullPage(logs(m), Rounds(i, m), reply);
    RoundsStep(i, m);
    EventsOfProcessed(done, logs(m)[Upto(logs(m), Rounds(i, m))..Upto(logs(m), Rounds(i + 1, m))], reply.cuts);
  }

  lemma HealthyPoll(logs: EventLogs, i: nat, m: Module, reply: Reply, cursors: Cursors, next: Cursors,
                    done: seq<Handled>, after: seq<Handled>)
    requires m == Polled(i) && AtPoll(logs, cursors, i) && EventsOf(done) == Backfill(logs, i)
    requires reply.Page? && reply.visible >= |logs(m)|
    requires forall k: Module :: k in cursors && k in next && (k != m ==> next[k] == cursors[k])
    requires var before := After(logs(m), cursors[m]);
             && After(logs(m), next[m]) == NextPosition(logs(m), before, reply) <= before + |reply.cuts|
             && after == done + PollDone(logs(m), before, reply)
    ensures AtPoll(logs, next, i + 1) && EventsOf(after) == Backfill(logs, i + 1)
  {
    hide After, EventsOf, NextPosition, Upto, Rounds, AtPoll, PollDone, Backfill;
    AtPollAt(logs, cursors, i, m);
    CursorsAfterPoll(logs, i, m, reply, cursors, next);
    EventsAfterPoll(logs, i, m, reply, done);
  }

  class Indexer {
    var db: Database
    var backfill: Option<EventKey>
    var cursors: Cursors
    /** The tables when this incarnation started, and what it has processed since. */
    ghost var base: Database
    ghost var done: seq<Handled>

    ghost predicate Valid()
      reads this
    {
      && (forall m: Module :: m in cursors)
      && db == Tables(base, done)
    }

    constructor ()
      ensures Valid() && db == map[] && base == map[] && done == []
      ensures forall m: Module :: cursors[m] == None
    {
      db, base, done, backfill := map[], map[], [], None;
      cursors := FROM_GENESIS;
      EveryModuleHasACursor();
    }

    /** Start over: the tables survive, every module is read from genesis again. */
    method Restart()
      modifies this
      ensures Valid() && db == old(db) && base == db && done == [] && backfill == old(backfill)
      ensures forall m: Module :: cursors[m] == None
    {
      cursors := FROM_GENESIS;
      EveryModuleHasACursor();
      base, done := db, [];
    }

    method Execute(s: Statement) returns (ok: bool)
      modifies this`db
      ensures ok == Accepts(old(db), s) && db == Exec(old(db), s)
    {
      match s
      case Insert(at, row, refs) =>
        if !Storable(s) { return false; }
        if at in db { return true; }
        if !(refs <= db.Keys) { return false; }
        db := db[at := row];
        ok := true;
      case Update(at, changes) =>
        if at in db {
          db := db[at := db[at].(columns := db[at].columns + changes)];
        }
        ok := true;
    }

    /** The events of one page in order; false when the archive fails or the process dies. */
    method ProcessPage(page: seq<Event>, cuts: seq<nat>) returns (alive: bool)
      requires Valid()
      modifies this`db, this`done
      ensures Valid()
      ensures alive <==> |page| <= |cuts| && forall i :: 0 <= i < |page| ==> cuts[i] > 0
      ensures alive ==> done == old(done) + Processed(page, cuts)
      ensures exists n :: 0 <= n <= |page| && n <= |cuts| && done == old(done) + Processed(page[..n], cuts[..n])
    {
      hide JobOf, Tables, RunSome, Processed;
      var i := 0;
      NothingProcessed(page, cuts);
      while i < |page|
        invariant 0 <= i <= |page| && i <= |cuts|
        invariant Valid()
        invariant forall k :: 0 <= k < i ==> cuts[k] > 0
        invariant done == old(done) + Processed(page[..i], cuts[..i])
      {
        if i >= |cuts| { return false; }
        var stored := ProcessEvent(page[i], cuts[i]);
        TablesStep(base, done, Handled(page[i], cuts[i]));
        ProcessedOneMore(page, cuts, i);
        done := done + [Handled(page[i], cuts[i])];
        i := i + 1;
        if !stored { return false; }
      }
      AllProcessed(page, cuts);
      alive := true;
    }

    /** Persist the resume point, then remember it for this module. */
    method SaveCursor(m: Module, log: seq<Event>, stop: nat)
      requires 0 < stop <= |log| && Distinct(log)
      modifies this`backfill, this`cursors
      ensures backfill == Some(KeyOf(log[stop - 1]))
      ensures cursors == old(cursors)[m := Some(log[stop - 1].id)] && After(log, cursors[m]) == stop
    {
      var last := log[stop - 1];
      backfill := Some(KeyOf(last));
      cursors := cursors[m := Some(last.id)];
      AfterOwnId(log, stop - 1);
    }

    /** One poll: ask for a page after the cursor, process it, save and advance the cursor. */
    method PollModule(logs: EventLogs, m: Module, reply: Reply) returns (alive: bool)
      requires Valid() && Swept(logs, cursors, done) && Feed(logs)
      modifies this
      ensures Valid() && base == old(base) && PartialSweep(logs, done)
      ensures alive <==> PollSurvives(logs(m), After(logs(m), old(cursors)[m]), reply)
      ensures alive ==> Swept(logs, cursors, done)
      ensures alive ==> forall k: Module :: k != m ==> cursors[k] == old(cursors)[k]
      ensures alive ==> After(logs(m), cursors[m]) == NextPosition(logs(m), After(logs(m), old(cursors)[m]), reply)
      ensures alive && reply.Page? ==>
                |reply.cuts| >= After(logs(m), cursors[m]) - After(logs(m), old(cursors)[m])
      ensures alive ==> done == old(done) + PollDone(logs(m), After(logs(m), old(cursors)[m]), reply)
    {
      hide JobOf, Select, Stop, Tip, Swept, After, Tables, EventsOf;
      if reply.Unreachable? {
        SweptIsPartial(logs, cursors, done);
        return true;
      }
      var log := logs(m);
      var start := After(log, cursors[m]);
      var stop := NextPosition(log, start, reply);
      var page := log[start..stop];
      alive := ProcessPage(page, reply.cuts);
      ghost var n :| 0 <= n <= |page| && n <= |reply.cuts| && done == old(done) + Processed(page[..n], reply.cuts[..n]);
      CutPageIsPartial(logs, m, old(cursors), old(done), stop, n, reply.cuts);
      if !alive { return; }
      if page != [] {
        if !reply.cursorSaved { return false; }
        SaveCursor(m, log, stop);
      }
      PageKeepsSwept(logs, m, old(cursors), cursors, old(done), stop, reply.cuts);
    }

    /** The loop, poll by poll through the modules in turn, until the process ends. */
    method Run(logs: EventLogs, replies: seq<Reply>) returns (alive: bool)
      requires Valid() && Feed(logs)
      requires done == [] && forall m: Module :: cursors[m] == None
      modifies this
      ensures Valid() && base == old(base) && PartialSweep(logs, done)
      ensures alive <==> Survives(logs, replies)
      ensures alive ==> Swept(logs, cursors, done) && done == RunDone(logs, replies)
      ensures alive ==> forall m :: After(logs(m), cursors[m]) == Position(logs, replies, m)
      ensures alive && Healthy(logs, replies) ==> EventsOf(done) == Backfill(logs, |replies|)
    {
      hide JobOf, Select, Stop, After, Upto, Rounds, Swept, AtPoll, NextPosition, PollDone, Backfill, EventsOf, Tables;
      hide PartialSweep, Survives, PollSurvives, RunDone, Position;
      SweptAtStart(logs, cursors);
      NothingRead(logs, cursors);
      SweptIsPartial(logs, cursors, done);
      assert EventsOf(done) == Backfill(logs, 0) by { NothingYet(logs); }
      AtFirstPoll(logs, cursors);
      var i := 0;
      while i < |replies|
        invariant 0 <= i <= |replies|
        invariant Valid() && base == old(base) && Swept(logs, cursors, done)
        invariant Healthy(logs, replies) ==> EventsOf(done) == Backfill(logs, i)
        invariant Healthy(logs, replies) ==> AtPoll(logs, cursors, i)
        invariant PartialSweep(logs, done) && Survives(logs, replies[..i]) && done == RunDone(logs, replies[..i])
        invariant forall m :: After(logs(m), cursors[m]) == Position(logs, replies[..i], m)
      {
        var m := Polled(i);
        ghost var cursors0, done0 := cursors, done;
        alive := PollModule(logs, m, replies[i]);
        OnePoll(logs, replies, i);
        if !alive { return; }
        if Healthy(logs, replies) { HealthyPoll(logs, i, m, replies[i], cursors0, cursors, done0, done); }
        i := i + 1;
      }
      assert replies[..i] == replies;
      alive := true;
    }

    /** A handler's statements in order, until one is refused or the cut is reached. */
    method RunHandler(ss: seq<Statement>, cut: nat)
      modifies this`db
      ensures db == RunSome(old(db), ss, cut)
    {
      hide ExecAll, AllAccepted, Accepts, Exec, Progress;
      NothingRuns(db, ss);
      var ok, i := true, 0;
      while i < |ss| && i < cut && ok
        invariant 0 <= i <= |ss| && i <= cut
        invariant db == ExecAll(old(db), ss[..i])
        invariant AllAccepted(old(db), ss[..i])
        invariant !ok ==> i < |ss| && !Accepts(db, ss[i])
        decreases |ss| - i, ok
      {
        if !Accepts(db, ss[i]) { RefusedChangesNothing(db, ss[i]); }
        ok := Execute(ss[i]);
        if ok {
          assert ss[..i + 1] == ss[..i] + [ss[i]];
          OneMore(old(db), ss[..i], ss[i]);
          i := i + 1;
        }
      }
      ProgressIs(old(db), ss, cut, i);
    }

    /** Archive, then route; only a failed archive is reported to the loop. */
    method ProcessEvent(e: Event, cut: nat) returns (stored: bool)
      modifies this`db
      ensures stored == (cut > 0)
      ensures db == RunSome(old(db), JobOf(e).statements, cut)
    {
      hide HandlerStatements, RunSome, Exec, Accepts;
      if cut == 0 { NothingRuns(db, JobOf(e).statements); return false; }
      var archive := Log(e, RawEvents, {});
      ArchiveIsAccepted(db, e);
      var ok := Execute(archive);
      RunSomeCons(old(db), archive, HandlerStatements(e), cut);
      RunHandler(HandlerStatements(e), cut - 1);
      stored := true;
    }
  }

  lemma ArchiveIsAccepted(db: Database, e: Event)
    ensures Accepts(db, Log(e, RawEvents, {}))
  {
  }

  lemma RefusedChangesNothing(db: Database, s: Statement)
    requires !Accepts(db, s)
    ensures Exec(db, s) == db
  {
  }

  lemma NothingRuns(db: Database, ss: seq<Statement>)
    ensures RunSome(db, ss, 0) == db && ExecAll(db, ss[..0]) == db && AllAccepted(db, ss[..0])
  {
  }

  lemma OneMore(db: Database, ss: seq<Statement>, s: Statement)
    requires AllAccepted(db, ss) && Accepts(ExecAll(db, ss), s)
    ensures AllAccepted(db, ss + [s])
    ensures ExecAll(db, ss + [s]) == Exec(ExecAll(db, ss), s)
  {
    hide Accepts, Exec;
    assert [s][..0] == [];
    AcceptedAppend(db, ss, [s]);
    assert (ss + [s])[..|ss|] == ss;
  }
}
