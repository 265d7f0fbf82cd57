/**
 The cached chain tip behind the health endpoint: one entry, checked under the lock, fetched outside it.
 A run is any interleaving of concurrent probes, with any clock readings.
 */
module ChainTip {
  import opened Common
  import O = ObjectCache

  datatype Tip = Tip(at: int, checkpoint: nat)

  predicate Fresh(ttl: nat, cache: Option<Tip>, now: int) {
    cache.Some? && O.Age(now, cache.value.at) < ttl
  }

  /** The entry while it is fresh. */
  function Cached(ttl: nat, cache: Option<Tip>, now: int): Option<nat> {
    if Fresh(ttl, cache, now) then Some(cache.value.checkpoint) else None
  }

  function Stored(v: nat, at: int): Option<Tip> {
    Some(Tip(at, v))
  }

  class TipCache {
    const ttl: nat
    var cache: Option<Tip>

    constructor (ttl: nat)
      ensures this.ttl == ttl && cache == None
    {
      this.ttl := ttl;
      cache := None;
    }

    /** A stale entry stays where it is. */
    method Peek(now: int) returns (v: Option<nat>)
      ensures v == Cached(ttl, cache, now)
    {
      if cache.Some? && O.Age(now, cache.value.at) < ttl { return Some(cache.value.checkpoint); }
      return None;
    }

    method Store(v: nat, at: int)
      modifies this
      ensures cache == Stored(v, at)
    {
      cache := Some(Tip(at, v));
    }
  }

  // ------------------------------------------------------------------ concurrent probes

  datatype Stage = Probing | Asking | Holding(v: nat) | Finished

  datatype Entry =
    | Served(v: nat, now: int)
    | Asked(probe: nat, now: int)
    | Reported(v: nat)
    | Unreachable(probe: nat)
    | Kept(v: nat, at: int)
    | Returned(v: nat)

  datatype Health = Health(cache: Option<Tip>, probes: map<nat, Stage>, log: seq<Entry>)

  /** `reply` is None when the node cannot be reached. */
  datatype Move = Enter(i: nat) | Look(i: nat, now: int) | Hear(i: nat, reply: Option<nat>) | Keep(i: nat, at: int)

  function Step(ttl: nat, s: Health, a: Move): Health {
    if a.Enter? then if a.i in s.probes then s else s.(probes := s.probes[a.i := Probing])
    else if a.i !in s.probes then s
    else
      match (a, s.probes[a.i])
      case (Look(i, now), Probing) =>
        (match Cached(ttl, s.cache, now)
         case Some(v) => s.(probes := s.probes[i := Finished], log := s.log + [Served(v, now), Returned(v)])
         case None => s.(probes := s.probes[i := Asking], log := s.log + [Asked(i, now)]))
      case (Hear(i, None), Asking) => s.(probes := s.probes[i := Finished], log := s.log + [Unreachable(i)])
      case (Hear(i, Some(v)), Asking) => s.(probes := s.probes[i := Holding(v)], log := s.log + [Reported(v)])
      case (Keep(i, at), Holding(v)) =>
        Health(Stored(v, at), s.probes[i := Finished], s.log + [Kept(v, at), Returned(v)])
      case _ => s
  }

  function Run(ttl: nat, moves: seq<Move>): Health {
    if moves == [] then Health(None, map[], [])
    else Step(ttl, Run(ttl, moves[..|moves| - 1]), moves[|moves| - 1])
  }

  function LastKept(log: seq<Entry>): Option<Tip> {
    if log == [] then None
    else if log[|log| - 1].Kept? then Some(Tip(log[|log| - 1].at, log[|log| - 1].v))
    else LastKept(log[..|log| - 1])
  }

  /** What may stand in a log after the given entries. */
  predicate Justified(ttl: nat, log: seq<Entry>, h: Entry) {
    match h
    case Served(v, now) => Fresh(ttl, LastKept(log), now) && LastKept(log).value.checkpoint == v && Reported(v) in log
    case Asked(_, now) => !Fresh(ttl, LastKept(log), now)
    case Kept(v, _) => Reported(v) in log
    case Returned(v) => Reported(v) in log
    case _ => true
  }

  predicate Honest(ttl: nat, log: seq<Entry>) {
    log == [] || (Honest(ttl, log[..|log| - 1]) && Justified(ttl, log[..|log| - 1], log[|log| - 1]))
  }

  predicate Inv(ttl: nat, s: Health) {
    && s.cache == LastKept(s.log)
    && (s.cache.Some? ==> Reported(s.cache.value.checkpoint) in s.log)
    && (forall i <- s.probes :: s.probes[i].Holding? ==> Reported(s.probes[i].v) in s.log)
    && Honest(ttl, s.log)
  }

  lemma Logged(ttl: nat, log: seq<Entry>, h: Entry)
    requires Honest(ttl, log) && Justified(ttl, log, h)
    ensures Honest(ttl, log + [h])
    ensures LastKept(log + [h]) == if h.Kept? then Some(Tip(h.at, h.v)) else LastKept(log)
  {
    assert (log + [h])[..|log|] == log;
  }

  lemma StepKeeps(ttl: nat, s: Health, a: Move)
    requires Inv(ttl, s)
    ensures Inv(ttl, Step(ttl, s, a))
  {
    hide Honest, LastKept;
    if !a.Enter? && a.i in s.probes {
      match (a, s.probes[a.i]) {
        case (Look(i, now), Probing) =>
          if Fresh(ttl, s.cache, now) {
            var v := s.cache.value.checkpoint;
            Logged(ttl, s.log, Served(v, now));
            Logged(ttl, s.log + [Served(v, now)], Returned(v));
            assert s.log + [Served(v, now), Returned(v)] == s.log + [Served(v, now)] + [Returned(v)];
          } else {
            Logged(ttl, s.log, Asked(i, now));
          }
        case (Hear(i, None), Asking) => Logged(ttl, s.log, Unreachable(i));
        case (Hear(i, Some(v)), Asking) => Logged(ttl, s.log, Reported(v));
        case (Keep(i, at), Holding(v)) =>
          Logged(ttl, s.log, Kept(v, at));
          Logged(ttl, s.log + [Kept(v, at)], Returned(v));
          assert s.log + [Kept(v, at), Returned(v)] == s.log + [Kept(v, at)] + [Returned(v)];
        case _ =>
      }
    }
  }

  lemma {:induction false} EveryRunKeeps(ttl: nat, moves: seq<Move>)
    ensures Inv(ttl, Run(ttl, moves))
  {
    if moves != [] {
      EveryRunKeeps(ttl, moves[..|moves| - 1]);
      hide Inv, Step;
      StepKeeps(ttl, Run(ttl, moves[..|moves| - 1]), moves[|moves| - 1]);
    }
  }

  lemma {:induction false} HonestAt(ttl: nat, log: seq<Entry>, i: nat)
    requires Honest(ttl, log) && i < |log|
    ensures Justified(ttl, log[..i], log[i])
  {
    hide Justified;
    if i < |log| - 1 {
      HonestAt(ttl, log[..|log| - 1], i);
      assert log[..|log| - 1][..i] == log[..i];
    }
  }

  /**
   In every interleaving: every tip returned was reported by the node; a tip served from the cache is
   the last one kept, less than `ttl` before the reading; and the node is asked only when no fresh tip
   is cached. Failures are never kept.
   */
  lemma TipsAreReportedAndFresh(ttl: nat, moves: seq<Move>, i: nat)
    requires i < |Run(ttl, moves).log|
    ensures var log := Run(ttl, moves).log;
            match log[i]
            case Served(v, now) =>
              (exists j :: LastKeepBefore(log, i, j) && log[j].v == v && 0 < ttl && now - log[j].at < ttl)
              && Reported(v) in log[..i]
            case Asked(_, now) => forall j :: LastKeepBefore(log, i, j) ==> ttl == 0 || now - log[j].at >= ttl
            case Kept(v, _) => Reported(v) in log[..i]
            case Returned(v) => Reported(v) in log[..i]
            case _ => true
  {
    hide Run;
    EveryRunKeeps(ttl, moves);
    HonestAt(ttl, Run(ttl, moves).log, i);
    LastKeptIff(Run(ttl, moves).log, i);
    hide Honest, LastKept;
  }

  /** `j` is the place of the last store before place `i`. */
  predicate LastKeepBefore(log: seq<Entry>, i: nat, j: int)
    requires i <= |log|
  {
    0 <= j < i && log[j].Kept? && forall k :: j < k < i ==> !log[k].Kept?
  }

  lemma {:induction false} LastKeptIff(log: seq<Entry>, i: nat)
    requires i <= |log|
    ensures LastKept(log[..i]).Some? ==>
              exists j :: LastKeepBefore(log, i, j) && LastKept(log[..i]) == Some(Tip(log[j].at, log[j].v))
    ensures forall j :: LastKeepBefore(log, i, j) ==> LastKept(log[..i]) == Some(Tip(log[j].at, log[j].v))
  {
    if i > 0 {
      assert log[..i][..i - 1] == log[..i - 1];
      LastKeptIff(log, i - 1);
      hide LastKept;
      if log[i - 1].Kept? {
        assert LastKeepBefore(log, i, i - 1);
      } else {
        forall j ensures LastKeepBefore(log, i, j) <==> LastKeepBefore(log, i - 1, j) {}
      }
    }
  }

  // ------------------------------------------------------------------ one answer for each probe

  function FinishedProbes(probes: map<nat, Stage>): set<nat> {
    set i <- probes | probes[i].Finished?
  }

  /** How many answers a log holds, tips and failures. */
  function Answers(log: seq<Entry>): nat {
    if log == [] then 0
    else Answers(log[..|log| - 1]) + if log[|log| - 1].Returned? || log[|log| - 1].Unreachable? then 1 else 0
  }

  lemma AnswersSnoc(log: seq<Entry>, h: Entry)
    ensures Answers(log + [h]) == Answers(log) + if h.Returned? || h.Unreachable? then 1 else 0
  {
    assert (log + [h])[..|log|] == log;
  }

  lemma MovesOn(probes: map<nat, Stage>, i: nat, t: Stage)
    requires i !in probes || !probes[i].Finished?
    ensures |FinishedProbes(probes[i := t])| == |FinishedProbes(probes)| + if t.Finished? then 1 else 0
  {
    var before := FinishedProbes(probes);
    assert i !in before;
    if t.Finished? {
      assert FinishedProbes(probes[i := t]) == before + {i};
    } else {
      assert FinishedProbes(probes[i := t]) == before;
    }
  }

  lemma StepAnswers(ttl: nat, s: Health, a: Move)
    ensures |FinishedProbes(Step(ttl, s, a).probes)| - |FinishedProbes(s.probes)|
         == Answers(Step(ttl, s, a).log) - Answers(s.log)
  {
    hide FinishedProbes, Answers;
    if a.Enter? {
      if a.i !in s.probes { MovesOn(s.probes, a.i, Probing); }
    } else if a.i in s.probes {
      if !s.probes[a.i].Finished? { MovesOn(s.probes, a.i, Finished); }
      match (a, s.probes[a.i]) {
        case (Look(i, now), Probing) =>
          match Cached(ttl, s.cache, now) {
            case Some(v) => TwoEntries(s.log, Served(v, now), v);
            case None =>
              MovesOn(s.probes, i, Asking);
              AnswersSnoc(s.log, Asked(i, now));
          }
        case (Hear(i, None), Asking) => AnswersSnoc(s.log, Unreachable(i));
        case (Hear(i, Some(v)), Asking) =>
          MovesOn(s.probes, i, Holding(v));
          AnswersSnoc(s.log, Reported(v));
        case (Keep(i, at), Holding(v)) => TwoEntries(s.log, Kept(v, at), v);
        case _ =>
      }
    }
  }

  lemma TwoEntries(log: seq<Entry>, h: Entry, v: nat)
    requires !h.Returned? && !h.Unreachable?
    ensures Answers(log + [h, Returned(v)]) == Answers(log) + 1
  {
    AnswersSnoc(log, h);
    AnswersSnoc(log + [h], Returned(v));
    assert log + [h, Returned(v)] == log + [h] + [Returned(v)];
  }

  lemma FinishedStays(ttl: nat, s: Health, a: Move)
    requires a.i in s.probes && s.probes[a.i].Finished?
    ensures Step(ttl, s, a) == s
  {
  }

  /** Every probe answers once: in every interleaving there are as many answers as finished probes. */
  lemma {:induction false} OneAnswerForEachProbe(ttl: nat, moves: seq<Move>)
    ensures |FinishedProbes(Run(ttl, moves).probes)| == Answers(Run(ttl, moves).log)
  {
    if moves == [] {
      assert FinishedProbes(map[]) == {};
    } else {
      var n := |moves| - 1;
      hide Step, Answers, FinishedProbes;
      OneAnswerForEachProbe(ttl, moves[..n]);
      StepAnswers(ttl, Run(ttl, moves[..n]), moves[n]);
    }
  }

  // ------------------------------------------------------------------ how often the node is asked

  function Reading(h: Entry): Option<int> {
    match h
    case Served(_, now) => Some(now)
    case Asked(_, now) => Some(now)
    case Kept(_, at) => Some(at)
    case _ => None
  }

  /** The clock readings of looks and stores ascend in the order in which these get the lock. */
  predicate Ascending(log: seq<Entry>) {
    forall i, j :: 0 <= i < j < |log| && Reading(log[i]).Some? && Reading(log[j]).Some? ==>
      Reading(log[i]).value <= Reading(log[j]).value
  }

  predicate IsLook(h: Entry) {
    h.Served? || h.Asked?
  }

  predicate KeptWithin(log: seq<Entry>, i: int, j: int)
    requires 0 <= i <= j <= |log|
  {
    exists k :: i <= k < j && log[k].Kept?
  }

  lemma {:induction false} LastKeptIsLast(log: seq<Entry>, i: nat)
    requires Ascending(log) && i <= |log|
    ensures KeptWithin(log, i, |log|) ==>
              && LastKept(log).Some?
              && forall h <- log[..i] :: Reading(h).Some? ==> Reading(h).value <= LastKept(log).value.at
    ensures !KeptWithin(log, i, |log|) ==> LastKept(log) == LastKept(log[..i])
  {
    var n := |log| - 1;
    if i == |log| {
      assert log[..i] == log;
    } else if !log[n].Kept? {
      assert log == log[..n] + [log[n]] && log[..n][..i] == log[..i];
      PrefixAscends(log[..n], log);
      KeptBeforeOther(log, i);
      hide *;
      LastKeptIsLast(log[..n], i);
      LastKeptOfOther(log[..n], log[n]);
    } else {
      assert KeptWithin(log, i, |log|);
      forall h | h in log[..i] && Reading(h).Some? ensures Reading(h).value <= log[n].at {
        var k :| 0 <= k < i && log[k] == h;
      }
    }
  }

  lemma KeptBeforeOther(log: seq<Entry>, i: nat)
    requires i < |log| && !log[|log| - 1].Kept?
    ensures KeptWithin(log, i, |log|) <==> KeptWithin(log[..|log| - 1], i, |log| - 1)
  {
    var n := |log| - 1;
    if k :| i <= k < n && log[..n][k].Kept? { assert log[k].Kept?; }
  }

  /**
   A look that comes less than `ttl` after an ask asks again, if and only if nothing was kept between
   the two.
   */
  lemma AsksAgainIff(ttl: nat, log: seq<Entry>, i: nat, j: nat)
    requires Honest(ttl, log) && Ascending(log)
    requires i < j < |log| && log[i].Asked? && IsLook(log[j]) && log[j].now < log[i].now + ttl
    ensures log[j].Asked? <==> !KeptWithin(log, i + 1, j)
  {
    hide Honest, LastKept;
    HonestAt(ttl, log, i);
    HonestAt(ttl, log, j);
    var before := log[..j];
    assert forall k :: 0 <= k < j ==> before[k] == log[k];
    assert before[..i + 1] == log[..i] + [log[i]] && log[i] in before[..i + 1];
    LastKeptIsLast(before, i + 1);
    LastKeptOfOther(log[..i], log[i]);
    assert KeptWithin(before, i + 1, j) <==> KeptWithin(log, i + 1, j);
  }

  lemma LastKeptOfOther(log: seq<Entry>, h: Entry)
    requires !h.Kept?
    ensures LastKept(log + [h]) == LastKept(log)
  {
    assert (log + [h])[..|log|] == log;
  }

  /** The documented promise: any two asks are at least `ttl` apart. */
  predicate OncePerTtl(ttl: nat, log: seq<Entry>) {
    forall i, j :: 0 <= i < j < |log| && log[i].Asked? && log[j].Asked? ==> log[j].now >= log[i].now + ttl
  }

  /** After every ask a tip is kept before the next look, unless that look is `ttl` later. */
  predicate KeptInTime(ttl: nat, log: seq<Entry>) {
    forall i, j :: 0 <= i < j < |log| && log[i].Asked? && IsLook(log[j]) && log[j].now < log[i].now + ttl ==>
      KeptWithin(log, i + 1, j)
  }

  /** In every run with ascending readings, the promise is kept exactly when every ask is answered in time. */
  lemma OncePerTtlIff(ttl: nat, moves: seq<Move>)
    requires Ascending(Run(ttl, moves).log)
    ensures var log := Run(ttl, moves).log; OncePerTtl(ttl, log) <==> KeptInTime(ttl, log)
  {
    hide Run, KeptWithin, Honest, Ascending;
    EveryRunKeeps(ttl, moves);
    var log := Run(ttl, moves).log;
    forall i, j | 0 <= i < j < |log| && log[i].Asked? && IsLook(log[j]) && log[j].now < log[i].now + ttl
      ensures log[j].Asked? <==> !KeptWithin(log, i + 1, j)
    {
      AsksAgainIff(ttl, log, i, j);
    }
  }

  predicate InFlight(s: Health, i: nat) {
    i in s.probes && (s.probes[i].Asking? || s.probes[i].Holding?)
  }

  /** Every ask is in flight, failed, or followed by a kept tip. */
  ghost predicate AsksAccounted(s: Health) {
    forall i, t :: Asked(i, t) in s.log ==>
      || InFlight(s, i)
      || Unreachable(i) in s.log
      || (s.cache.Some? && t <= s.cache.value.at)
  }

  lemma AsksStayAccounted(ttl: nat, s: Health, a: Move)
    requires AsksAccounted(s) && Ascending(Step(ttl, s, a).log)
    ensures AsksAccounted(Step(ttl, s, a))
  {
    var t := Step(ttl, s, a);
    if t.log != s.log && a.Keep? {
      var n := |s.log|;
      assert t.log[n] == Kept(s.probes[a.i].v, a.at);
      forall k | 0 <= k < n && s.log[k].Asked? ensures s.log[k].now <= a.at { assert t.log[k] == s.log[k]; }
    }
  }

  lemma {:induction false} EveryAskIsAccounted(ttl: nat, moves: seq<Move>)
    requires Ascending(Run(ttl, moves).log)
    ensures AsksAccounted(Run(ttl, moves))
  {
    if moves != [] {
      var before := Run(ttl, moves[..|moves| - 1]);
      StepAppends(ttl, before, moves[|moves| - 1]);
      PrefixAscends(before.log, Run(ttl, moves).log);
      hide AsksAccounted, Ascending, Step;
      EveryAskIsAccounted(ttl, moves[..|moves| - 1]);
      AsksStayAccounted(ttl, before, moves[|moves| - 1]);
    }
  }

  lemma StepAppends(ttl: nat, s: Health, a: Move)
    ensures s.log <= Step(ttl, s, a).log
  {
  }

  lemma PrefixAscends(log: seq<Entry>, longer: seq<Entry>)
    requires log <= longer && Ascending(longer)
    ensures Ascending(log)
  {
    forall i, j | 0 <= i < j < |log| && Reading(log[i]).Some? && Reading(log[j]).Some?
      ensures Reading(log[i]).value <= Reading(log[j]).value
    {
      assert log[i] == longer[i] && log[j] == longer[j];
    }
  }

  /**
   What lets a probe ask less than `ttl` after another one asked: that one is still in flight, or its
   request failed. Nothing else does.
   */
  lemma AsksAgainOnlyIf(ttl: nat, moves: seq<Move>, i: nat, now: int, first: nat, asked: int)
    requires Ascending(Run(ttl, moves).log + [Asked(i, now)]) && i in Run(ttl, moves).probes
    requires Step(ttl, Run(ttl, moves), Look(i, now)).log == Run(ttl, moves).log + [Asked(i, now)]
    requires Asked(first, asked) in Run(ttl, moves).log && now < asked + ttl
    ensures var s := Run(ttl, moves); InFlight(s, first) || Unreachable(first) in s.log
  {
    var s := Run(ttl, moves);
    var all := s.log + [Asked(i, now)];
    PrefixAscends(s.log, all);
    var k :| 0 <= k < |s.log| && s.log[k] == Asked(first, asked);
    assert all[k] == s.log[k] && all[|s.log|] == Asked(i, now);
    hide Run;
    EveryAskIsAccounted(ttl, moves);
    assert |all| == |s.log| + 1;
    assert Fresh(ttl, s.cache, now) ==> |Step(ttl, s, Look(i, now)).log| != |s.log| + 1;
  }

  /** `n` probes that all enter and look before any of them hears back. */
  function Burst(n: nat, now: int): seq<Move> {
    if n == 0 then [] else Burst(n - 1, now) + [Enter(n - 1), Look(n - 1, now)]
  }

  function AskedBy(n: nat, now: int): seq<Entry> {
    seq(n, i requires 0 <= i < n => Asked(i, now))
  }

  lemma TwoMoves(ttl: nat, moves: seq<Move>, a: Move, b: Move)
    ensures Run(ttl, moves + [a, b]) == Step(ttl, Step(ttl, Run(ttl, moves), a), b)
  {
    var all := moves + [a, b];
    assert all[..|all| - 1] == moves + [a];
    assert (moves + [a])[..|moves|] == moves;
  }

  lemma AsksOnce(ttl: nat, s: Health, i: nat, now: int)
    requires i !in s.probes && s.cache == None
    ensures Step(ttl, Step(ttl, s, Enter(i)), Look(i, now))
         == Health(None, s.probes[i := Asking], s.log + [Asked(i, now)])
  {
    assert s.probes[i := Probing][i := Asking] == s.probes[i := Asking];
  }

  lemma OneMoreAsk(n: nat, now: int)
    requires n > 0
    ensures Burst(n, now) == Burst(n - 1, now) + [Enter(n - 1), Look(n - 1, now)]
    ensures AskedBy(n, now) == AskedBy(n - 1, now) + [Asked(n - 1, now)]
  {
  }

  /** So a burst breaks the promise: however many probes look before the first reply, each asks. */
  lemma {:induction false} BurstsAskEachTime(ttl: nat, n: nat, now: int)
    ensures Run(ttl, Burst(n, now)).log == AskedBy(n, now) && Run(ttl, Burst(n, now)).cache == None
    ensures forall i <- Run(ttl, Burst(n, now)).probes :: i < n
  {
    hide Run, Step, Burst, AskedBy;
    if n == 0 {
      NothingProbed(ttl, now);
    } else {
      BurstsAskEachTime(ttl, n - 1, now);
      OneMoreAsk(n, now);
      TwoMoves(ttl, Burst(n - 1, now), Enter(n - 1), Look(n - 1, now));
      AsksOnce(ttl, Run(ttl, Burst(n - 1, now)), n - 1, now);
    }
  }

  /** `n` probes one after the other while the node cannot be reached. */
  function Outage(n: nat, now: int): seq<Move> {
    if n == 0 then [] else Outage(n - 1, now) + [Enter(n - 1), Look(n - 1, now)] + [Hear(n - 1, None)]
  }

  function Failures(n: nat, now: int): seq<Entry> {
    if n == 0 then [] else Failures(n - 1, now) + [Asked(n - 1, now), Unreachable(n - 1)]
  }

  lemma OneMove(ttl: nat, moves: seq<Move>, a: Move)
    ensures Run(ttl, moves + [a]) == Step(ttl, Run(ttl, moves), a)
  {
    assert (moves + [a])[..|moves|] == moves;
  }

  lemma FailsOnce(ttl: nat, s: Health, i: nat, now: int)
    requires i !in s.probes && s.cache == None
    ensures Step(ttl, Step(ttl, Step(ttl, s, Enter(i)), Look(i, now)), Hear(i, None))
         == Health(None, s.probes[i := Finished], s.log + [Asked(i, now), Unreachable(i)])
  {
    AsksOnce(ttl, s, i, now);
    var asked := Health(None, s.probes[i := Asking], s.log + [Asked(i, now)]);
    assert asked.log + [Unreachable(i)] == s.log + [Asked(i, now), Unreachable(i)];
    assert asked.probes[i := Finished] == s.probes[i := Finished];
  }

  /** And so does an outage, without any overlap: a failure is not kept, so every probe asks again. */
  lemma {:induction false} OutagesAskEachTime(ttl: nat, n: nat, now: int)
    ensures Run(ttl, Outage(n, now)).log == Failures(n, now) && Run(ttl, Outage(n, now)).cache == None
    ensures forall i <- Run(ttl, Outage(n, now)).probes :: i < n
  {
    hide Run, Step, Outage, Failures;
    if n == 0 {
      NothingProbed(ttl, now);
    } else {
      OutagesAskEachTime(ttl, n - 1, now);
      var front := Outage(n - 1, now);
      OneMoreFailure(n, now);
      TwoMoves(ttl, front, Enter(n - 1), Look(n - 1, now));
      OneMove(ttl, front + [Enter(n - 1), Look(n - 1, now)], Hear(n - 1, None));
      FailsOnce(ttl, Run(ttl, front), n - 1, now);
    }
  }

  lemma NothingProbed(ttl: nat, now: int)
    ensures Run(ttl, Outage(0, now)) == Health(None, map[], []) && Failures(0, now) == []
    ensures Run(ttl, Burst(0, now)) == Health(None, map[], []) && AskedBy(0, now) == []
  {
  }

  lemma OneMoreFailure(n: nat, now: int)
    requires n > 0
    ensures Outage(n, now) == Outage(n - 1, now) + [Enter(n - 1), Look(n - 1, now)] + [Hear(n - 1, None)]
    ensures Failures(n, now) == Failures(n - 1, now) + [Asked(n - 1, now), Unreachable(n - 1)]
  {
  }

  /** Nor is a tip ever held back for a newer one: whoever stores last decides what the next probe sees. */
  lemma LastStoreDecides(ttl: nat, s: Health, i: nat, k: nat, at: int, later: int, probe: nat, now: int)
    requires i in s.probes && k in s.probes && i != k && s.probes[i].Holding? && s.probes[k].Holding?
    requires probe in s.probes && s.probes[probe].Probing? && O.Age(now, later) < ttl
    ensures var t := Step(ttl, Step(ttl, Step(ttl, s, Keep(i, at)), Keep(k, later)), Look(probe, now));
            |t.log| > 0 && t.log[|t.log| - 1] == Returned(s.probes[k].v)
  {
    var a := Step(ttl, s, Keep(i, at));
    assert a.probes[k] == s.probes[k] && a.probes[probe] == Probing;
    var b := Step(ttl, a, Keep(k, later));
    assert b.cache == Some(Tip(later, s.probes[k].v)) && b.probes[probe] == Probing;
  }
}
