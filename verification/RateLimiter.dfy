/**
 The per-IP token bucket. Readings of the clock are taken before the lock, so the readings a limiter
 sees need not be ascending; every property below says what it asks of them.
 */
module RateLimiter {
  import opened Common

  type Ip = Text

  datatype Bucket = Bucket(tokens: real, last: real)

  type Buckets = map<Ip, Bucket>

  /** Rate per second, burst, and the table size above which idle buckets are dropped, if any. */
  datatype Limit = Limit(rate: real, burst: real, maxTracked: Option<nat>)

  const MAX_TRACKED_IPS: nat := 100_000

  function Max(a: real, b: real): real {
    if a < b then b else a
  }

  function Min(a: real, b: real): real {
    if a < b then a else b
  }

  /** `saturating_duration_since`. */
  function Elapsed(now: real, last: real): (d: real)
    ensures d >= 0.0
  {
    Max(now - last, 0.0)
  }

  /** Tokens earned over a time. */
  function Refill(rate: real, d: real): real {
    d * rate
  }

  lemma RefillGrows(rate: real, d: real, e: real)
    requires rate > 0.0 && 0.0 <= d <= e
    ensures 0.0 <= Refill(rate, d) <= Refill(rate, e)
  {
  }

  lemma RefillAdds(rate: real, d: real, e: real)
    ensures Refill(rate, d + e) == Refill(rate, d) + Refill(rate, e)
    ensures Refill(rate, 0.0) == 0.0
  {
  }

  function Level(limit: Limit, b: Bucket, now: real): real {
    b.tokens + Refill(limit.rate, Elapsed(now, b.last))
  }

  predicate Idle(limit: Limit, b: Bucket, now: real) {
    Level(limit, b, now) >= limit.burst
  }

  function Sweep(limit: Limit, buckets: Buckets, now: real): Buckets {
    if limit.maxTracked.Some? && |buckets| > limit.maxTracked.value then
      map ip | ip in buckets && !Idle(limit, buckets[ip], now) :: buckets[ip]
    else buckets
  }

  /** Refill, then spend one token if there is one. */
  function Spend(limit: Limit, b: Bucket, now: real): (bool, Bucket) {
    var tokens := Min(Level(limit, b, now), limit.burst);
    if tokens >= 1.0 then (true, Bucket(tokens - 1.0, now)) else (false, Bucket(tokens, now))
  }

  function Fresh(limit: Limit, now: real): Bucket {
    Bucket(limit.burst, now)
  }

  function BucketOf(limit: Limit, buckets: Buckets, ip: Ip, now: real): Bucket {
    if ip in buckets then buckets[ip] else Fresh(limit, now)
  }

  function Check(limit: Limit, buckets: Buckets, ip: Ip, now: real): (bool, Buckets) {
    if limit.rate <= 0.0 then (true, buckets)
    else
      var kept := Sweep(limit, buckets, now);
      var (allowed, b) := Spend(limit, BucketOf(limit, kept, ip, now), now);
      (allowed, kept[ip := b])
  }

  class RateLimiter {
    const limit: Limit
    var buckets: Buckets

    constructor (ratePerSec: real, burst: real)
      ensures limit.rate == ratePerSec && limit.maxTracked == Some(100_000)
      ensures limit.burst == if burst < 1.0 then 1.0 else burst
      ensures buckets == map[]
    {
      limit := Limit(ratePerSec, Max(burst, 1.0), Some(MAX_TRACKED_IPS));
      buckets := map[];
    }

    method Allow(ip: Ip, now: real) returns (allowed: bool)
      modifies this
      ensures (allowed, buckets) == Check(limit, old(buckets), ip, now)
      ensures limit.rate <= 0.0 ==> allowed && buckets == old(buckets)
    {
      if limit.rate <= 0.0 { return true; }
      if limit.maxTracked.Some? && |buckets| > limit.maxTracked.value {
        buckets := map x | x in buckets && !Idle(limit, buckets[x], now) :: buckets[x];
      }
      ghost var kept := buckets;
      if ip !in buckets {
        buckets := buckets[ip := Fresh(limit, now)];
      }
      var b := buckets[ip];
      var tokens := Min(Level(limit, b, now), limit.burst);
      allowed := tokens >= 1.0;
      if allowed { tokens := tokens - 1.0; }
      buckets := buckets[ip := Bucket(tokens, now)];
      assert buckets == kept[ip := Bucket(tokens, now)];
    }
  }

  // ------------------------------------------------------------------ runs

  datatype Request = Request(ip: Ip, now: real)

  /** The buckets after a run of requests in lock order. */
  function After(limit: Limit, start: Buckets, run: seq<Request>): Buckets {
    if run == [] then start
    else
      var r := run[|run| - 1];
      Check(limit, After(limit, start, run[..|run| - 1]), r.ip, r.now).1
  }

  /** The answer to request i. */
  function Answer(limit: Limit, start: Buckets, run: seq<Request>, i: nat): bool
    requires i < |run|
  {
    Check(limit, After(limit, start, run[..i]), run[i].ip, run[i].now).0
  }

  /** Without a positive rate there is no limiting: every request of every run is allowed, and nothing is tracked. */
  lemma {:induction false} NoRateNoLimit(limit: Limit, run: seq<Request>)
    requires limit.rate <= 0.0
    ensures After(limit, map[], run) == map[]
    ensures forall i :: 0 <= i < |run| ==> Answer(limit, map[], run, i)
  {
    if run != [] {
      var n := |run| - 1;
      NoRateNoLimit(limit, run[..n]);
      forall i | 0 <= i < |run| ensures Answer(limit, map[], run, i) {
        if i < n {
          assert run[..n][..i] == run[..i];
          assert Answer(limit, map[], run[..n], i);
        }
      }
    }
  }

  predicate Ascending(run: seq<Request>) {
    forall i, k :: 0 <= i <= k < |run| ==> run[i].now <= run[k].now
  }

  // ------------------------------------------------------------------ eviction is invisible

  /** The same limiter with a table that is never swept. */
  function Unbounded(limit: Limit): Limit {
    limit.(maxTracked := None)
  }

  /** While an IP is without the bucket that a sweep dropped: the reading at which it did. */
  function DroppedAt(limit: Limit, run: seq<Request>, ip: Ip): Option<real> {
    if run == [] || limit.rate <= 0.0 then None
    else
      var n := |run| - 1;
      var before := After(limit, map[], run[..n]);
      if run[n].ip == ip then None
      else if ip in before && ip !in Sweep(limit, before, run[n].now) then Some(run[n].now)
      else DroppedAt(limit, run[..n], ip)
  }

  /** A request that reads no earlier than the sweep that dropped its bucket, if one did. */
  predicate InTime(limit: Limit, run: seq<Request>, i: nat)
    requires i < |run|
  {
    var dropped := DroppedAt(limit, run[..i], run[i].ip);
    dropped.Some? ==> dropped.value <= run[i].now
  }

  /** The swept table is the full one without the dropped buckets, and these had refilled when they were dropped. */
  ghost predicate Thinned(limit: Limit, run: seq<Request>, swept: Buckets, full: Buckets) {
    && (forall ip <- swept :: ip in full && swept[ip] == full[ip])
    && (forall ip :: DroppedAt(limit, run, ip).Some? <==> ip in full && ip !in swept)
    && (forall ip <- full :: ip !in swept ==> Idle(limit, full[ip], DroppedAt(limit, run, ip).value))
  }

  lemma IdleStaysIdle(limit: Limit, b: Bucket, now: real, later: real)
    requires limit.rate > 0.0 && now <= later && Idle(limit, b, now)
    ensures Idle(limit, b, later)
  {
    RefillGrows(limit.rate, Elapsed(now, b.last), Elapsed(later, b.last));
  }

  lemma FreshIsFull(limit: Limit, b: Bucket, now: real)
    requires Idle(limit, b, now)
    ensures Spend(limit, Fresh(limit, now), now) == Spend(limit, b, now)
  {
    RefillAdds(limit.rate, 0.0, 0.0);
  }

  lemma SameSpend(limit: Limit, b: Bucket, now: real)
    ensures Spend(limit, b, now) == Spend(Unbounded(limit), b, now)
  {
  }

  lemma AfterOne(limit: Limit, start: Buckets, run: seq<Request>, r: Request)
    ensures After(limit, start, run + [r]) == Check(limit, After(limit, start, run), r.ip, r.now).1
  {
    assert (run + [r])[..|run|] == run;
  }

  lemma SweepIs(limit: Limit, buckets: Buckets, ip: Ip, now: real)
    ensures ip in Sweep(limit, buckets, now) ==> ip in buckets && Sweep(limit, buckets, now)[ip] == buckets[ip]
    ensures ip in buckets && ip !in Sweep(limit, buckets, now) ==> Idle(limit, buckets[ip], now)
    ensures Sweep(Unbounded(limit), buckets, now) == buckets
  {
    hide Idle;
  }

  /** The bucket that a request spends from, with and without sweeps. */
  lemma SameSpending(limit: Limit, run: seq<Request>, swept: Buckets, full: Buckets, r: Request)
    requires limit.rate > 0.0 && Thinned(limit, run, swept, full)
    requires var d := DroppedAt(limit, run, r.ip); d.Some? ==> d.value <= r.now
    ensures Spend(limit, BucketOf(limit, Sweep(limit, swept, r.now), r.ip, r.now), r.now)
         == Spend(Unbounded(limit), BucketOf(Unbounded(limit), full, r.ip, r.now), r.now)
  {
    hide Idle, Spend, Sweep, DroppedAt;
    var b := BucketOf(limit, full, r.ip, r.now);
    SameSpend(limit, b, r.now);
    SweepIs(limit, swept, r.ip, r.now);
    if r.ip in full {
      if r.ip !in swept {
        IdleStaysIdle(limit, b, DroppedAt(limit, run, r.ip).value, r.now);
        FreshIsFull(limit, b, r.now);
      } else if r.ip !in Sweep(limit, swept, r.now) {
        FreshIsFull(limit, b, r.now);
      }
    }
  }

  lemma DroppedOneMore(limit: Limit, run: seq<Request>, r: Request, ip: Ip)
    requires limit.rate > 0.0
    ensures var before := After(limit, map[], run);
            DroppedAt(limit, run + [r], ip) ==
              if r.ip == ip then None
              else if ip in before && ip !in Sweep(limit, before, r.now) then Some(r.now)
              else DroppedAt(limit, run, ip)
  {
    hide Sweep, After;
    assert (run + [r])[..|run|] == run;
  }

  lemma StaysThinned(limit: Limit, run: seq<Request>, full: Buckets, r: Request)
    requires limit.rate > 0.0 && Thinned(limit, run, After(limit, map[], run), full)
    requires var d := DroppedAt(limit, run, r.ip); d.Some? ==> d.value <= r.now
    ensures var swept := After(limit, map[], run);
            var (answer, after) := Check(limit, swept, r.ip, r.now);
            var (fullAnswer, fullAfter) := Check(Unbounded(limit), full, r.ip, r.now);
            answer == fullAnswer && Thinned(limit, run + [r], after, fullAfter)
  {
    hide Idle, Spend, Sweep, DroppedAt, After, BucketOf;
    var swept := After(limit, map[], run);
    SameSpending(limit, run, swept, full, r);
    SweepIs(limit, full, r.ip, r.now);
    var kept := Sweep(limit, swept, r.now);
    forall ip
      ensures DroppedAt(limit, run + [r], ip)
           == if r.ip == ip then None
              else if ip in swept && ip !in kept then Some(r.now) else DroppedAt(limit, run, ip)
    {
      DroppedOneMore(limit, run, r, ip);
    }
    forall ip
      ensures ip in kept ==> ip in swept && kept[ip] == swept[ip]
      ensures ip in swept && ip !in kept ==> Idle(limit, swept[ip], r.now)
    {
      SweepIs(limit, swept, ip, r.now);
    }
  }

  lemma {:induction false} RunsStayThinned(limit: Limit, run: seq<Request>)
    requires limit.rate > 0.0 && forall j :: 0 <= j < |run| ==> InTime(limit, run, j)
    ensures Thinned(limit, run, After(limit, map[], run), After(Unbounded(limit), map[], run))
  {
    hide Check, DroppedAt, After, Thinned;
    if run == [] {
      NothingDropped(limit);
    } else {
      var n := |run| - 1;
      assert run == run[..n] + [run[n]];
      forall j | 0 <= j < n ensures InTime(limit, run[..n], j) {
        assert InTime(limit, run, j) && run[..n][..j] == run[..j];
      }
      RunsStayThinned(limit, run[..n]);
      assert InTime(limit, run, n);
      StaysThinned(limit, run[..n], After(Unbounded(limit), map[], run[..n]), run[n]);
      AfterOne(limit, map[], run[..n], run[n]);
      AfterOne(Unbounded(limit), map[], run[..n], run[n]);
    }
  }

  lemma NothingDropped(limit: Limit)
    ensures Thinned(limit, [], After(limit, map[], []), After(Unbounded(limit), map[], []))
  {
  }

  /** The IP's bucket that an unbounded table would have at request i. */
  function FullBucket(limit: Limit, run: seq<Request>, i: nat): Bucket
    requires i < |run|
  {
    BucketOf(limit, After(Unbounded(limit), map[], run[..i]), run[i].ip, run[i].now)
  }

  lemma ThinnedBefore(limit: Limit, run: seq<Request>, i: nat)
    requires limit.rate > 0.0 && i < |run| && forall j :: 0 <= j < i ==> InTime(limit, run, j)
    ensures Thinned(limit, run[..i], After(limit, map[], run[..i]), After(Unbounded(limit), map[], run[..i]))
  {
    hide Thinned, DroppedAt, After;
    forall j | 0 <= j < i ensures InTime(limit, run[..i], j) {
      assert InTime(limit, run, j) && run[..i][..j] == run[..j];
    }
    RunsStayThinned(limit, run[..i]);
  }

  /**
   When eviction shows, over whole runs with any readings: while every request so far has read no
   earlier than the sweep that dropped its bucket, the next answer is another one than without eviction
   if and only if its bucket has been dropped and lacks a token at its reading.
   */
  lemma EvictionShowsIff(limit: Limit, run: seq<Request>, i: nat)
    requires limit.rate > 0.0 && limit.burst >= 1.0 && i < |run| && forall j :: 0 <= j < i ==> InTime(limit, run, j)
    ensures Answer(limit, map[], run, i) != Answer(Unbounded(limit), map[], run, i)
       <==> DroppedAt(limit, run[..i], run[i].ip).Some? && Level(limit, FullBucket(limit, run, i), run[i].now) < 1.0
    ensures Level(limit, FullBucket(limit, run, i), run[i].now) < 1.0 && InTime(limit, run, i) ==>
              DroppedAt(limit, run[..i], run[i].ip).None?
  {
    var swept, full := After(limit, map[], run[..i]), After(Unbounded(limit), map[], run[..i]);
    ThinnedBefore(limit, run, i);
    hide After, DroppedAt, Refill;
    SweepIs(limit, swept, run[i].ip, run[i].now);
    RefillAdds(limit.rate, 0.0, 0.0);
    if InTime(limit, run, i) {
      StaysThinned(limit, run[..i], full, run[i]);
      if run[i].ip in full && run[i].ip !in swept {
        IdleStaysIdle(limit, full[run[i].ip], DroppedAt(limit, run[..i], run[i].ip).value, run[i].now);
      }
    }
  }

  lemma {:induction false} DropsAreReadings(limit: Limit, run: seq<Request>, ip: Ip, bound: real)
    requires forall r <- run :: r.now <= bound
    ensures var d := DroppedAt(limit, run, ip); d.Some? ==> d.value <= bound
  {
    if run != [] {
      assert run[|run| - 1] in run && forall r <- run[..|run| - 1] :: r in run;
      DropsAreReadings(limit, run[..|run| - 1], ip, bound);
    }
  }

  /** Whatever the threshold, dropping refilled buckets changes no answer when readings ascend. */
  lemma EvictionIsInvisible(limit: Limit, run: seq<Request>, i: nat)
    requires Ascending(run) && i < |run|
    ensures Answer(limit, map[], run, i) == Answer(Unbounded(limit), map[], run, i)
  {
    if limit.rate > 0.0 {
      hide After, DroppedAt, Thinned, Check;
      forall j | 0 <= j <= i ensures InTime(limit, run, j) {
        forall r | r in run[..j] ensures r.now <= run[j].now { var k :| 0 <= k < j && run[k] == r; }
        DropsAreReadings(limit, run[..j], run[j].ip, run[j].now);
      }
      ThinnedBefore(limit, run, i);
      assert InTime(limit, run, i);
      StaysThinned(limit, run[..i], After(Unbounded(limit), map[], run[..i]), run[i]);
    }
  }

  /** Whether a request of `ip` at `early`, right after one of another IP at `late`, is allowed. */
  function AllowedAfter(limit: Limit, buckets: Buckets, other: Ip, late: real, ip: Ip, early: real): bool {
    Check(limit, Check(limit, buckets, other, late).1, ip, early).0
  }

  /**
   With a reading that goes back it can show, and exactly so: when a sweep at the late reading forgets
   a bucket, the answer at the early reading is another one if and only if the bucket lacks a token then.
   */
  lemma SweepShowsIff(limit: Limit, buckets: Buckets, ip: Ip, other: Ip, late: real, early: real)
    requires limit.rate > 0.0 && limit.burst >= 1.0 && InRange(limit, buckets) && ip in buckets && other != ip
    requires limit.maxTracked.Some? && |buckets| > limit.maxTracked.value && Idle(limit, buckets[ip], late)
    ensures AllowedAfter(limit, buckets, other, late, ip, early)
    ensures AllowedAfter(limit, buckets, other, late, ip, early)
         != AllowedAfter(Unbounded(limit), buckets, other, late, ip, early)
       <==> Level(limit, buckets[ip], early) < 1.0
    ensures Level(limit, buckets[ip], early) < 1.0 ==> early < late
  {
    if late <= early { RefillGrows(limit.rate, Elapsed(late, buckets[ip].last), Elapsed(early, buckets[ip].last)); }
    hide Refill;
    RefillAdds(limit.rate, 0.0, 0.0);
  }

  // `n` clients that each spend the one token of a burst of one at time 0.

  function Client(i: nat): Ip {
    seq(i, k => 0)
  }

  function Crowd(n: nat): seq<Request> {
    seq(n, i requires 0 <= i < n => Request(Client(i), 0.0))
  }

  function OneAtATime(maxTracked: nat): Limit {
    Limit(1.0, 1.0, Some(maxTracked))
  }

  lemma CrowdGrows(limit: Limit, n: nat)
    requires n > 0
    ensures After(limit, map[], Crowd(n)) == Check(limit, After(limit, map[], Crowd(n - 1)), Client(n - 1), 0.0).1
  {
    hide Check;
    assert Crowd(n) == Crowd(n - 1) + [Request(Client(n - 1), 0.0)];
    AfterOne(limit, map[], Crowd(n - 1), Request(Client(n - 1), 0.0));
  }

  lemma {:induction false} CrowdDrains(maxTracked: nat, n: nat)
    requires n <= maxTracked + 1
    ensures var b := After(OneAtATime(maxTracked), map[], Crowd(n));
            && |b| == n
            && (forall ip <- b :: |ip| < n && b[ip] == Bucket(0.0, 0.0))
            && forall i: nat :: i < n ==> Client(i) in b
  {
    if n == 0 {
      assert Crowd(0) == [];
    } else {
      CrowdDrains(maxTracked, n - 1);
      CrowdGrows(OneAtATime(maxTracked), n);
      hide *;
      DrainsOneMore(maxTracked, After(OneAtATime(maxTracked), map[], Crowd(n - 1)), n - 1);
    }
  }

  lemma DrainsOneMore(maxTracked: nat, before: Buckets, n: nat)
    requires |before| == n <= maxTracked && forall ip <- before :: |ip| < n && before[ip] == Bucket(0.0, 0.0)
    requires forall i: nat :: i < n ==> Client(i) in before
    ensures var after := Check(OneAtATime(maxTracked), before, Client(n), 0.0).1;
            && |after| == n + 1
            && (forall ip <- after :: |ip| < n + 1 && after[ip] == Bucket(0.0, 0.0))
            && forall i: nat :: i < n + 1 ==> Client(i) in after
  {
    var ip := Client(n);
    assert |ip| == n;
    hide Check, Client;
    assert ip !in before;
    DrainsOne(maxTracked, before, ip);
    assert before[ip := Bucket(0.0, 0.0)].Keys == before.Keys + {ip};
  }

  lemma DrainsOne(maxTracked: nat, before: Buckets, ip: Ip)
    requires |before| <= maxTracked && ip !in before
    ensures Check(OneAtATime(maxTracked), before, ip, 0.0).1 == before[ip := Bucket(0.0, 0.0)]
  {
    hide Refill;
    RefillAdds(1.0, 0.0, 0.0);
  }

  /** For every table size there is a run from the empty table whose last answer the eviction changes. */
  lemma EvictionShowsWhenClocksGoBack(maxTracked: nat)
    ensures var limit := OneAtATime(maxTracked);
            var run := Crowd(maxTracked + 1) + [Request(Client(maxTracked + 1), 1.0), Request(Client(0), 0.0)];
            Answer(limit, map[], run, |run| - 1) && !Answer(Unbounded(limit), map[], run, |run| - 1)
  {
    var limit := OneAtATime(maxTracked);
    var crowd, other, ip := Crowd(maxTracked + 1), Client(maxTracked + 1), Client(0);
    LastAnswer(limit, crowd, Request(other, 1.0), Request(ip, 0.0));
    LastAnswer(Unbounded(limit), crowd, Request(other, 1.0), Request(ip, 0.0));
    CrowdDrains(maxTracked, maxTracked + 1);
    CrowdIsNotSwept(maxTracked, maxTracked + 1);
    assert |other| == maxTracked + 1 && |ip| == 0;
    hide *;
    EmptyBucketIsMissed(maxTracked, After(limit, map[], crowd), ip, other);
  }

  lemma LastAnswer(limit: Limit, run: seq<Request>, late: Request, early: Request)
    ensures Answer(limit, map[], run + [late, early], |run| + 1)
         == AllowedAfter(limit, After(limit, map[], run), late.ip, late.now, early.ip, early.now)
  {
    hide Check;
    assert (run + [late, early])[..|run| + 1] == run + [late];
    AfterOne(limit, map[], run, late);
  }

  lemma EmptyBucketIsMissed(maxTracked: nat, buckets: Buckets, ip: Ip, other: Ip)
    requires |buckets| == maxTracked + 1 && (forall x <- buckets :: buckets[x] == Bucket(0.0, 0.0))
    requires ip in buckets && other != ip
    ensures var limit := OneAtATime(maxTracked);
            && AllowedAfter(limit, buckets, other, 1.0, ip, 0.0)
            && !AllowedAfter(Unbounded(limit), buckets, other, 1.0, ip, 0.0)
  {
    hide Check, AllowedAfter;
    SweepShowsIff(OneAtATime(maxTracked), buckets, ip, other, 1.0, 0.0);
  }

  lemma SmallTableIsNotSwept(limit: Limit, buckets: Buckets, ip: Ip, now: real)
    requires limit.maxTracked.Some? ==> |buckets| <= limit.maxTracked.value
    ensures Check(limit, buckets, ip, now) == Check(Unbounded(limit), buckets, ip, now)
  {
    hide Spend;
    SameSpend(limit, BucketOf(limit, buckets, ip, now), now);
  }

  lemma {:induction false} CrowdIsNotSwept(maxTracked: nat, n: nat)
    requires n <= maxTracked + 1
    ensures After(Unbounded(OneAtATime(maxTracked)), map[], Crowd(n)) == After(OneAtATime(maxTracked), map[], Crowd(n))
  {
    if n > 0 {
      CrowdIsNotSwept(maxTracked, n - 1);
      CrowdDrains(maxTracked, n - 1);
      var limit := OneAtATime(maxTracked);
      CrowdGrows(limit, n);
      CrowdGrows(Unbounded(limit), n);
      hide After, Check, Crowd, Client;
      SmallTableIsNotSwept(limit, After(limit, map[], Crowd(n - 1)), Client(n - 1), 0.0);
    }
  }

  // ------------------------------------------------------------------ one IP at a time

  function Own(run: seq<Request>, ip: Ip): seq<Request> {
    if run == [] then []
    else
      var r := run[|run| - 1];
      Own(run[..|run| - 1], ip) + if r.ip == ip then [r] else []
  }

  lemma {:induction false} OwnBucket(limit: Limit, run: seq<Request>, ip: Ip)
    ensures SameBucket(After(Unbounded(limit), map[], run), After(Unbounded(limit), map[], Own(run, ip)), ip)
  {
    if run != [] {
      var n := |run| - 1;
      OwnBucket(limit, run[..n], ip);
      hide Check, After;
      var all, own := After(Unbounded(limit), map[], run[..n]), After(Unbounded(limit), map[], Own(run[..n], ip));
      assert run == run[..n] + [run[n]];
      assert Own(run, ip) == Own(run[..n], ip) + if run[n].ip == ip then [run[n]] else [];
      AfterOne(Unbounded(limit), map[], run[..n], run[n]);
      CheckOneIp(Unbounded(limit), all, own, run[n], ip);
      if run[n].ip == ip { AfterOne(Unbounded(limit), map[], Own(run[..n], ip), run[n]); }
      else { assert Own(run, ip) == Own(run[..n], ip); }
    }
  }

  ghost predicate SameBucket(a: Buckets, b: Buckets, ip: Ip) {
    (ip in a <==> ip in b) && (ip in a ==> a[ip] == b[ip])
  }

  lemma CheckOneIp(limit: Limit, all: Buckets, own: Buckets, r: Request, ip: Ip)
    requires limit.maxTracked.None? && SameBucket(all, own, ip)
    ensures r.ip == ip ==> SameBucket(Check(limit, all, r.ip, r.now).1, Check(limit, own, r.ip, r.now).1, ip)
    ensures r.ip != ip ==> SameBucket(Check(limit, all, r.ip, r.now).1, own, ip)
  {
  }

  lemma {:induction false} OwnAscends(run: seq<Request>, ip: Ip, bound: real)
    requires Ascending(run) && forall r <- run :: r.now <= bound
    ensures Ascending(Own(run, ip)) && forall r <- Own(run, ip) :: r.now <= bound
  {
    if run != [] {
      var n := |run| - 1;
      assert run[n] in run;
      forall r | r in run[..n] ensures r.now <= run[n].now { var i :| 0 <= i < n && run[i] == r; }
      OwnAscends(run[..n], ip, run[n].now);
      forall r | r in Own(run, ip) ensures r.now <= bound {}
    }
  }

  /**
   An IP's answers depend only on its own requests: they are those of a limiter, of any table size,
   that never hears of the other IPs.
   */
  lemma AnswersAreIsolated(limit: Limit, other: Limit, run: seq<Request>, i: nat)
    requires Ascending(run) && i < |run| && Unbounded(limit) == Unbounded(other)
    ensures var own := Own(run[..i + 1], run[i].ip);
            own != [] && Answer(limit, map[], run, i) == Answer(other, map[], own, |own| - 1)
  {
    var ip := run[i].ip;
    var own := Own(run[..i + 1], ip);
    assert run[..i + 1][..i] == run[..i];
    var before := Own(run[..i], ip);
    assert own == before + [run[i]] && own[..|own| - 1] == before;
    EvictionIsInvisible(limit, run, i);
    OwnBucket(limit, run[..i], ip);
    forall r | r in run[..i + 1] ensures r.now <= run[i].now { var k :| 0 <= k <= i && run[k] == r; }
    OwnAscends(run[..i + 1], ip, run[i].now);
    EvictionIsInvisible(other, own, |own| - 1);
  }

  // ------------------------------------------------------------------ the bound

  /** The tokens an IP could spend now. */
  function Available(limit: Limit, buckets: Buckets, ip: Ip, now: real): real {
    Min(Level(limit, BucketOf(limit, buckets, ip, now), now), limit.burst)
  }

  /** How many of an IP's requests from a to b are allowed. */
  function Allowed(limit: Limit, start: Buckets, run: seq<Request>, ip: Ip, a: nat, b: nat): nat
    requires a <= b <= |run|
  {
    if a == b then 0
    else
      Allowed(limit, start, run, ip, a, b - 1)
      + if run[b - 1].ip == ip && Answer(limit, start, run, b - 1) then 1 else 0
  }

  /** Which of an IP's requests from a to b are allowed. */
  function AllowedAt(limit: Limit, run: seq<Request>, ip: Ip, a: nat, b: nat): set<nat>
    requires a <= b <= |run|
  {
    set i: nat | a <= i < b && run[i].ip == ip && Answer(limit, map[], run, i)
  }

  lemma {:induction false} AllowedCounts(limit: Limit, run: seq<Request>, ip: Ip, a: nat, b: nat)
    requires a <= b <= |run|
    ensures |AllowedAt(limit, run, ip, a, b)| == Allowed(limit, map[], run, ip, a, b)
  {
    hide Answer;
    if a < b {
      AllowedCounts(limit, run, ip, a, b - 1);
      var before := AllowedAt(limit, run, ip, a, b - 1);
      assert b - 1 !in before;
      assert AllowedAt(limit, run, ip, a, b)
          == if run[b - 1].ip == ip && Answer(limit, map[], run, b - 1) then before + {b - 1} else before;
    } else {
      assert AllowedAt(limit, run, ip, a, b) == {};
    }
  }

  /** How far the readings from a to b rise, counting every rise again after a fall. */
  function Rise(run: seq<Request>, a: nat, b: nat): real
    requires a < b <= |run|
  {
    if b == a + 1 then 0.0 else Rise(run, a, b - 1) + Max(run[b - 1].now - run[b - 2].now, 0.0)
  }

  predicate InRange(limit: Limit, buckets: Buckets) {
    forall ip <- buckets :: 0.0 <= buckets[ip].tokens < limit.burst
  }

  /** Every bucket always holds between 0 and `burst` tokens. */
  lemma {:induction false} TokensStayInRange(limit: Limit, run: seq<Request>)
    requires limit.burst >= 1.0
    ensures InRange(limit, After(limit, map[], run))
  {
    if run != [] {
      var n := |run| - 1;
      TokensStayInRange(limit, run[..n]);
      var before := After(limit, map[], run[..n]);
      if limit.rate > 0.0 {
        var b := BucketOf(limit, Sweep(limit, before, run[n].now), run[n].ip, run[n].now);
        RefillGrows(limit.rate, 0.0, Elapsed(run[n].now, b.last));
        RefillAdds(limit.rate, 0.0, 0.0);
      }
    }
  }

  lemma RefillIsBounded(limit: Limit, buckets: Buckets, ip: Ip, now: real, later: real)
    requires limit.rate > 0.0
    ensures Available(limit, buckets, ip, later)
         <= Available(limit, buckets, ip, now) + Refill(limit.rate, Max(later - now, 0.0))
  {
    hide Refill;
    RefillAdds(limit.rate, 0.0, 0.0);
    RefillGrows(limit.rate, 0.0, Max(later - now, 0.0));
    if ip in buckets {
      var last := buckets[ip].last;
      RefillGrows(limit.rate, Elapsed(later, last), Elapsed(now, last) + Max(later - now, 0.0));
      RefillAdds(limit.rate, Elapsed(now, last), Max(later - now, 0.0));
    }
  }

  lemma CheckSpends(limit: Limit, buckets: Buckets, r: Request, ip: Ip)
    requires limit.rate > 0.0 && limit.burst >= 1.0 && InRange(limit, buckets)
    ensures var (allowed, after) := Check(limit, buckets, r.ip, r.now);
            && Available(limit, after, ip, r.now) + (if r.ip == ip && allowed then 1.0 else 0.0)
               == Available(limit, buckets, ip, r.now)
            && Available(limit, after, ip, r.now) >= 0.0
  {
    hide Refill;
    var b := BucketOf(limit, buckets, ip, r.now);
    RefillAdds(limit.rate, 0.0, 0.0);
    RefillGrows(limit.rate, 0.0, Elapsed(r.now, b.last));
  }

  lemma OneRequest(limit: Limit, run: seq<Request>, i: nat)
    requires i < |run|
    ensures (Answer(limit, map[], run, i), After(limit, map[], run[..i + 1]))
         == Check(limit, After(limit, map[], run[..i]), run[i].ip, run[i].now)
  {
    hide Check;
    assert run[..i + 1] == run[..i] + [run[i]];
    AfterOne(limit, map[], run[..i], run[i]);
  }

  lemma {:induction false} SpendingIsBounded(limit: Limit, run: seq<Request>, ip: Ip, a: nat, b: nat)
    requires limit.rate > 0.0 && limit.burst >= 1.0 && a < b <= |run|
    ensures var left := Available(limit, After(limit, map[], run[..b]), ip, run[b - 1].now);
            && 0.0 <= left
            && left <= limit.burst + Refill(limit.rate, Rise(run, a, b)) - Allowed(limit, map[], run, ip, a, b) as real
  {
    hide Check, Available, InRange, Refill, After, Answer;
    var n := b - 1;
    var before := After(limit, map[], run[..n]);
    OneRequest(limit, run, n);
    TokensStayInRange(limit, run[..n]);
    CheckSpends(limit, before, run[n], ip);
    AvailableAtMostBurst(limit, before, ip, run[n].now);
    RefillAdds(limit.rate, 0.0, 0.0);
    if a < n {
      SpendingIsBounded(limit, run, ip, a, n);
      RefillIsBounded(limit, before, ip, run[n - 1].now, run[n].now);
      RefillAdds(limit.rate, Rise(run, a, n), Max(run[n].now - run[n - 1].now, 0.0));
    }
  }

  lemma AvailableAtMostBurst(limit: Limit, buckets: Buckets, ip: Ip, now: real)
    ensures Available(limit, buckets, ip, now) <= limit.burst
  {
  }

  /**
   The rate bound for any readings at all: requests allowed from one IP never exceed the burst plus
   the rate times how far the limiter's clock readings rise. Ascending readings rise by the time
   that passes.
   */
  lemma RateBound(limit: Limit, run: seq<Request>, ip: Ip, a: nat, b: nat)
    requires limit.rate > 0.0 && limit.burst >= 1.0 && a < b <= |run|
    ensures |AllowedAt(limit, run, ip, a, b)| as real <= limit.burst + limit.rate * Rise(run, a, b)
    ensures Ascending(run) ==> Rise(run, a, b) == run[b - 1].now - run[a].now
  {
    hide After, Available, Allowed, AllowedAt, Rise;
    SpendingIsBounded(limit, run, ip, a, b);
    AllowedCounts(limit, run, ip, a, b);
    if Ascending(run) { RiseIsElapsed(run, a, b); }
  }

  lemma {:induction false} RiseIsElapsed(run: seq<Request>, a: nat, b: nat)
    requires Ascending(run) && a < b <= |run|
    ensures Rise(run, a, b) == run[b - 1].now - run[a].now
  {
    if a + 1 < b { RiseIsElapsed(run, a, b - 1); }
  }

  /** A request that comes at least 1/rate after the IP's previous one is always allowed. */
  lemma PatientClientsAreServed(limit: Limit, run: seq<Request>, i: nat, k: nat)
    requires limit.rate > 0.0 && limit.burst >= 1.0 && i < k < |run| && run[i].ip == run[k].ip
    requires forall j :: i < j < k ==> run[j].ip != run[k].ip
    requires run[k].now - run[i].now >= 1.0 / limit.rate
    ensures Answer(limit, map[], run, k)
  {
    var before := After(limit, map[], run[..k]);
    BucketUntouched(limit, run, i, k);
    TokensStayInRange(limit, run[..k]);
    RestedBucketSpends(limit, before, run[k].ip, run[k].now, run[i].now);
  }

  lemma RestedBucketSpends(limit: Limit, buckets: Buckets, ip: Ip, now: real, previous: real)
    requires limit.rate > 0.0 && limit.burst >= 1.0 && InRange(limit, buckets)
    requires ip in buckets ==> buckets[ip].last == previous
    requires now - previous >= 1.0 / limit.rate
    ensures Check(limit, buckets, ip, now).0
  {
    assert Refill(limit.rate, 1.0 / limit.rate) == 1.0;
    hide Refill;
    RefillGrows(limit.rate, 1.0 / limit.rate, Elapsed(now, previous));
    RefillAdds(limit.rate, 0.0, 0.0);
  }

  lemma {:induction false} BucketUntouched(limit: Limit, run: seq<Request>, i: nat, k: nat)
    requires limit.rate > 0.0 && i < k <= |run| && forall j :: i < j < k ==> run[j].ip != run[i].ip
    ensures var b := After(limit, map[], run[..k]);
            run[i].ip in b ==> b[run[i].ip].last == run[i].now
  {
    assert run[..k][..k - 1] == run[..k - 1];
    if i < k - 1 { BucketUntouched(limit, run, i, k - 1); }
  }
}
