/**
 The holder ledger that readers are served, end to end: rows of the position table after any history of
 re-deliveries and crashes, against a fold over the chain's own events.
 */
module ServedLedger {
  import opened Common
  import opened Events
  import opened SqlStore
  import opened Projection
  import opened Convergence
  import opened Handlers
  import opened TableContents
  import L = Ledger
  import P = Paging

  /** The row of `position_events` that an event becomes, under the surrogate id it is given. */
  function PositionOf(e: Event, id: nat): L.Position
    requires IsPosition(e)
  {
    var p := e.payload.position;
    var amount := Some(AsI64(p.amount));
    match p
    case SharesClaimed(asset, actor, _, _) =>
      L.Position(id, TimestampOf(e), L.Claimed, asset, actor, amount, None, None)
    case SharesWrapped(asset, actor, _, total) =>
      L.Position(id, TimestampOf(e), L.Wrapped, asset, actor, amount, Some(AsI64(total)), None)
    case SharesUnwrapped(asset, actor, _, _, total) =>
      L.Position(id, TimestampOf(e), L.Unwrapped, asset, actor, amount, Some(AsI64(total)), None)
    case YieldClaimed(asset, actor, _, index, _) =>
      L.Position(id, TimestampOf(e), L.YieldClaim, asset, actor, amount, None, Some(index))
    case ShareRedeemed(asset, actor, _, _) =>
      L.Position(id, TimestampOf(e), L.Redeemed, asset, actor, amount, None, None)
    case ContributionRefunded(asset, actor, _) =>
      L.Position(id, TimestampOf(e), L.Refunded, asset, actor, amount, None, None)
  }

  function At(k: EventKey): RowKey {
    EventRow(PositionEvents, k)
  }

  // ------------------------------------------------------------------ the table and the logs

  /** The rows of the table, in whatever order they are stored: its keys without repetition. */
  ghost predicate Lists(db: Database, keys: seq<EventKey>) {
    P.Distinct(keys) && forall k :: k in keys <==> At(k) in db
  }

  /** The chain's position events, in whatever order, each once. */
  ghost predicate ListsChain(logs: EventLogs, chain: seq<Event>) {
    P.Distinct(chain) && forall e :: e in chain <==> InEvents(e, logs) && IsPosition(e)
  }

  function Sources(db: Database, keys: seq<EventKey>): seq<Event>
    requires forall k <- keys :: At(k) in db
  {
    seq(|keys|, i requires 0 <= i < |keys| => db[At(keys[i])].source)
  }

  lemma RowsAreTheChain(logs: EventLogs, jobs: seq<Job>, keys: seq<EventKey>, chain: seq<Event>)
    requires ChainEvents(logs) && Interleaving(jobs, LogsOf(logs))
    requires Lists(Projected(jobs), keys) && ListsChain(logs, chain)
    ensures P.Distinct(Sources(Projected(jobs), keys))
    ensures SameMembers(Sources(Projected(jobs), keys), chain)
  {
    hide Projected, ChainEvents, LogsOf, Interleaving, IsPosition, InEvents;
    var db := Projected(jobs);
    var sources := Sources(db, keys);
    forall i | 0 <= i < |keys| ensures KeyOf(sources[i]) == keys[i] && sources[i] in chain {
      assert keys[i] in keys;
      EventTables(logs, jobs, PositionEvents, keys[i]);
    }
    forall e | e in chain ensures e in sources {
      EventTables(logs, jobs, PositionEvents, KeyOf(e));
      assert Records(PositionEvents, e) && At(KeyOf(e)) in db;
      var i :| 0 <= i < |keys| && keys[i] == KeyOf(e);
      OneEventPerKey(logs, sources[i], e);
    }
  }

  // ------------------------------------------------------------------ the fold

  function Fold(events: seq<Event>, f: Event -> int): int {
    if events == [] then 0 else Fold(events[..|events| - 1], f) + f(events[|events| - 1])
  }

  function Without(events: seq<Event>, i: nat): seq<Event>
    requires i < |events|
  {
    events[..i] + events[i + 1..]
  }

  lemma {:induction false} FoldWithout(events: seq<Event>, f: Event -> int, i: nat)
    requires i < |events|
    ensures Fold(events, f) == Fold(Without(events, i), f) + f(events[i])
  {
    var n := |events| - 1;
    if i < n {
      FoldWithout(events[..n], f, i);
      assert Without(events, i)[..n - 1] == Without(events[..n], i);
      assert Without(events, i)[n - 1] == events[n];
    } else {
      assert Without(events, i) == events[..n];
    }
  }

  ghost predicate SameMembers(a: seq<Event>, b: seq<Event>) {
    forall e :: e in a <==> e in b
  }

  lemma WithoutHas(events: seq<Event>, i: nat, e: Event)
    requires i < |events| && P.Distinct(events)
    ensures e in Without(events, i) <==> e in events && e != events[i]
  {
    var rest := Without(events, i);
    if e in rest {
      var x :| 0 <= x < |rest| && rest[x] == e;
      assert rest[x] == events[if x < i then x else x + 1];
    }
    if e in events && e != events[i] {
      var x :| 0 <= x < |events| && events[x] == e;
      assert rest[if x < i then x else x - 1] == e;
    }
  }

  lemma WithoutDistinct(events: seq<Event>, i: nat)
    requires i < |events| && P.Distinct(events)
    ensures P.Distinct(Without(events, i))
  {
  }

  /** A fold over distinct events does not depend on their order. */
  lemma {:induction false} FoldOfSame(a: seq<Event>, b: seq<Event>, f: Event -> int)
    requires P.Distinct(a) && P.Distinct(b) && SameMembers(a, b)
    ensures Fold(a, f) == Fold(b, f)
  {
    if a == [] {
      assert forall i :: 0 <= i < |b| ==> b[i] in a;
    } else {
      var n := |a| - 1;
      assert a[n] in b;
      var i :| 0 <= i < |b| && b[i] == a[n];
      FoldWithout(a, f, n);
      FoldWithout(b, f, i);
      forall e ensures e in Without(a, n) <==> e in Without(b, i) {
        WithoutHas(a, n, e);
        WithoutHas(b, i, e);
      }
      WithoutDistinct(a, n);
      WithoutDistinct(b, i);
      FoldOfSame(Without(a, n), Without(b, i), f);
    }
  }

  // ------------------------------------------------------------------ the served figures

  function PositionsOf(events: seq<Event>, ids: Event -> nat): seq<L.Position>
    requires forall e <- events :: IsPosition(e)
  {
    seq(|events|, i requires 0 <= i < |events| => PositionOf(events[i], ids(events[i])))
  }

  /** A figure of the ledger reads no surrogate id. */
  ghost predicate IgnoresId(term: L.Position -> int) {
    forall e, id: nat :: IsPosition(e) ==> term(PositionOf(e, id)) == term(PositionOf(e, 0))
  }

  /** An event of one holder of one asset. */
  predicate Owns(e: Event, asset: Text, actor: Text) {
    IsPosition(e) && e.payload.position.assetId == asset && e.payload.position.actor == actor
  }

  /** What one event adds to a figure of one holder of one asset. */
  function Share(asset: Text, actor: Text, term: L.Position -> int): Event -> int {
    (e: Event) => if Owns(e, asset, actor) then term(PositionOf(e, 0)) else 0
  }

  function Group(rows: seq<L.Position>, asset: Text, actor: Text): seq<L.Position> {
    L.OfActor(L.OfAsset(rows, asset), actor)
  }

  lemma {:induction false} GroupSum(rows: seq<L.Position>, p: L.Position, asset: Text, actor: Text,
                                    term: L.Position -> int)
    ensures L.Sum(Group(rows + [p], asset, actor), term)
         == L.Sum(Group(rows, asset, actor), term) + if p.asset == asset && p.actor == actor then term(p) else 0
  {
    L.WhereStep(rows, p, L.On(asset));
    if p.asset == asset { L.SumStep(L.OfAsset(rows, asset), p, actor, term); }
  }

  lemma OneShare(e: Event, id: nat, asset: Text, actor: Text, term: L.Position -> int)
    requires IsPosition(e) && IgnoresId(term)
    ensures var p := PositionOf(e, id);
            Share(asset, actor, term)(e) == if p.asset == asset && p.actor == actor then term(p) else 0
  {
  }

  lemma PositionsSnoc(front: seq<Event>, e: Event, ids: Event -> nat)
    requires IsPosition(e) && forall x <- front :: IsPosition(x)
    ensures PositionsOf(front + [e], ids) == PositionsOf(front, ids) + [PositionOf(e, ids(e))]
  {
  }

  lemma FoldSnoc(front: seq<Event>, e: Event, f: Event -> int)
    ensures Fold(front + [e], f) == Fold(front, f) + f(e)
  {
    assert (front + [e])[..|front|] == front;
  }

  lemma {:induction false} FigureIsFold(events: seq<Event>, ids: Event -> nat, asset: Text, actor: Text,
                                        term: L.Position -> int)
    requires IgnoresId(term) && forall e <- events :: IsPosition(e)
    ensures L.Sum(Group(PositionsOf(events, ids), asset, actor), term) == Fold(events, Share(asset, actor, term))
  {
    hide *;
    if events == [] {
      NoFigure(ids, asset, actor, term);
    } else {
      var front, e := events[..|events| - 1], events[|events| - 1];
      assert events == front + [e];
      assert e in events && forall x <- front :: x in events;
      FigureIsFold(front, ids, asset, actor, term);
      GroupSum(PositionsOf(front, ids), PositionOf(e, ids(e)), asset, actor, term);
      PositionsSnoc(front, e, ids);
      FoldSnoc(front, e, Share(asset, actor, term));
      OneShare(e, ids(e), asset, actor, term);
    }
  }

  lemma NoFigure(ids: Event -> nat, asset: Text, actor: Text, term: L.Position -> int)
    ensures L.Sum(Group(PositionsOf([], ids), asset, actor), term) == Fold([], Share(asset, actor, term)) == 0
  {
    assert PositionsOf([], ids) == [];
  }

  lemma FiguresIgnoreIds()
    ensures IgnoresId(L.ShareTerm) && IgnoresId(L.WrapTerm) && IgnoresId(L.HoldTerm)
  {
  }

  // ------------------------------------------------------------------ the figures, event by event

  predicate ClaimsShares(p: PositionEvent) {
    p.SharesClaimed?
  }

  predicate Wraps(p: PositionEvent) {
    p.SharesWrapped?
  }

  predicate Unwraps(p: PositionEvent) {
    p.SharesUnwrapped?
  }

  predicate Redeems(p: PositionEvent) {
    p.ShareRedeemed?
  }

  /** The shares that one event of a kind moves for a holder of an asset, as a signed 64-bit amount. */
  function Moves(asset: Text, actor: Text, kind: PositionEvent -> bool): Event -> int {
    (e: Event) =>
      match e.payload
      case PositionFeed(p) => if p.assetId == asset && p.actor == actor && kind(p) then AsI64(p.amount) else 0
      case _ => 0
  }

  /** The shares that the events of a kind move for a holder of an asset. */
  function Moved(events: seq<Event>, asset: Text, actor: Text, kind: PositionEvent -> bool): int {
    Fold(events, Moves(asset, actor, kind))
  }

  lemma OneShareByKind(e: Event, asset: Text, actor: Text)
    requires IsPosition(e)
    ensures Share(asset, actor, L.HoldTerm)(e)
         == Moves(asset, actor, ClaimsShares)(e) - Moves(asset, actor, Redeems)(e)
    ensures Share(asset, actor, L.WrapTerm)(e)
         == Moves(asset, actor, Wraps)(e) - Moves(asset, actor, Unwraps)(e)
    ensures Share(asset, actor, L.ShareTerm)(e)
         == Moves(asset, actor, ClaimsShares)(e) + Moves(asset, actor, Unwraps)(e)
            - Moves(asset, actor, Wraps)(e) - Moves(asset, actor, Redeems)(e)
  {
    hide AsI64, PositionOf;
    RowOfEvent(e, 0);
    ShareOf(e, asset, actor, L.HoldTerm);
    ShareOf(e, asset, actor, L.WrapTerm);
    ShareOf(e, asset, actor, L.ShareTerm);
    MovesOf(e, asset, actor, ClaimsShares);
    MovesOf(e, asset, actor, Redeems);
    MovesOf(e, asset, actor, Wraps);
    MovesOf(e, asset, actor, Unwraps);
    hide Share, Moves;
  }

  lemma MovesOf(e: Event, asset: Text, actor: Text, kind: PositionEvent -> bool)
    requires IsPosition(e)
    ensures Moves(asset, actor, kind)(e)
         == if Owns(e, asset, actor) && kind(e.payload.position) then AsI64(e.payload.position.amount) else 0
  {
  }

  lemma ShareOf(e: Event, asset: Text, actor: Text, term: L.Position -> int)
    requires IsPosition(e)
    ensures Share(asset, actor, term)(e) == if Owns(e, asset, actor) then term(PositionOf(e, 0)) else 0
  {
  }

  /** The three figures in terms of the shares claimed, redeemed, wrapped and unwrapped on the chain. */
  lemma {:induction false} SharesByKind(events: seq<Event>, asset: Text, actor: Text)
    requires forall e <- events :: IsPosition(e)
    ensures Fold(events, Share(asset, actor, L.HoldTerm))
         == Moved(events, asset, actor, ClaimsShares) - Moved(events, asset, actor, Redeems)
    ensures Fold(events, Share(asset, actor, L.WrapTerm))
         == Moved(events, asset, actor, Wraps) - Moved(events, asset, actor, Unwraps)
    ensures Fold(events, Share(asset, actor, L.ShareTerm))
         == Moved(events, asset, actor, ClaimsShares) + Moved(events, asset, actor, Unwraps)
            - Moved(events, asset, actor, Wraps) - Moved(events, asset, actor, Redeems)
  {
    hide Share, Moves, IsPosition;
    if events != [] {
      var n := |events| - 1;
      assert events[n] in events && forall e <- events[..n] :: e in events;
      SharesByKind(events[..n], asset, actor);
      OneShareByKind(events[n], asset, actor);
    }
  }

  // ------------------------------------------------------------------ the first acquisition and the last claim

  predicate Acquires(e: Event) {
    IsPosition(e) && (e.payload.position.SharesClaimed? || e.payload.position.SharesUnwrapped?)
  }

  predicate Claims(e: Event) {
    IsPosition(e) && e.payload.position.YieldClaimed?
  }

  /** The index a claim is made at. */
  function IndexAtClaim(e: Event): nat {
    if Claims(e) then e.payload.position.indexAtClaim else 0
  }

  /** Each field of the row of an event. */
  lemma RowOfEvent(e: Event, id: nat)
    requires IsPosition(e)
    ensures var p, x := PositionOf(e, id), e.payload.position;
            && p.asset == x.assetId && p.actor == x.actor && p.amount == Some(AsI64(x.amount))
            && p.id == id && p.timestampMs == TimestampOf(e)
            && (L.Acquires(p) <==> Acquires(e)) && (p.kind == L.YieldClaim <==> Claims(e))
            && (p.kind == L.Claimed <==> x.SharesClaimed?) && (p.kind == L.Redeemed <==> x.ShareRedeemed?)
            && (p.kind == L.Wrapped <==> x.SharesWrapped?) && (p.kind == L.Unwrapped <==> x.SharesUnwrapped?)
            && p.indexAtClaim == (if x.YieldClaimed? then Some(x.indexAtClaim) else None)
            && p.totalWrappedAfter
            == if x.SharesWrapped? || x.SharesUnwrapped? then Some(AsI64(x.totalWrappedAfter)) else None
  {
  }

  lemma GroupHas(events: seq<Event>, ids: Event -> nat, asset: Text, actor: Text, p: L.Position)
    requires forall e <- events :: IsPosition(e)
    ensures p in Group(PositionsOf(events, ids), asset, actor)
       <==> exists e <- events :: Owns(e, asset, actor) && p == PositionOf(e, ids(e))
  {
    var rows := PositionsOf(events, ids);
    L.Kept(L.OfAsset(rows, asset), L.By(actor), p);
    L.Kept(rows, L.On(asset), p);
    hide PositionOf, L.Where, IsPosition;
    forall e | e in events ensures PositionOf(e, ids(e)) in rows && RowOwner(e, ids(e)) {
      RowOfEvent(e, ids(e));
      var i :| 0 <= i < |events| && events[i] == e;
      assert rows[i] == PositionOf(e, ids(e));
    }
  }

  ghost predicate RowOwner(e: Event, id: nat)
    requires IsPosition(e)
  {
    var p := PositionOf(e, id);
    p.asset == e.payload.position.assetId && p.actor == e.payload.position.actor
  }

  /** The time of the holder's first acquisition, if there is one. */
  ghost predicate FirstAcquired(events: seq<Event>, asset: Text, actor: Text, t: Option<int>) {
    match t
    case None => forall e <- events :: Owns(e, asset, actor) ==> !Acquires(e)
    case Some(first) =>
      && (exists e <- events :: Owns(e, asset, actor) && Acquires(e) && TimestampOf(e) == first)
      && (forall e <- events :: Owns(e, asset, actor) && Acquires(e) ==> first <= TimestampOf(e))
  }

  lemma AcquiredIsFirst(events: seq<Event>, ids: Event -> nat, asset: Text, actor: Text)
    requires forall e <- events :: IsPosition(e)
    ensures FirstAcquired(events, asset, actor, L.AcquiredAt(Group(PositionsOf(events, ids), asset, actor)))
  {
    var rows := Group(PositionsOf(events, ids), asset, actor);
    L.AcquiredAtIsFirst(rows);
    hide Group, PositionsOf, PositionOf, IsPosition, L.AcquiredAt, L.Acquires, Acquires;
    forall e | e in events && Owns(e, asset, actor)
      ensures PositionOf(e, ids(e)) in rows
      ensures L.Acquires(PositionOf(e, ids(e))) <==> Acquires(e)
      ensures PositionOf(e, ids(e)).timestampMs == TimestampOf(e)
    {
      GroupHas(events, ids, asset, actor, PositionOf(e, ids(e)));
      RowOfEvent(e, ids(e));
    }
    if L.AcquiredAt(rows).Some? {
      var p :| p in rows && L.Acquires(p) && L.AcquiredAt(rows).value == p.timestampMs;
      GroupHas(events, ids, asset, actor, p);
    }
  }

  /** The holder's claims that no other one of its claims is later than. */
  ghost predicate LatestClaim(events: seq<Event>, asset: Text, actor: Text, e: Event) {
    && e in events && Owns(e, asset, actor) && Claims(e)
    && forall x <- events :: Owns(x, asset, actor) && Claims(x) ==> TimestampOf(x) <= TimestampOf(e)
  }

  ghost predicate NoClaim(events: seq<Event>, asset: Text, actor: Text) {
    forall e <- events :: Owns(e, asset, actor) ==> !Claims(e)
  }

  function ServedIndex(events: seq<Event>, ids: Event -> nat, asset: Text, actor: Text): Option<nat>
    requires forall e <- events :: IsPosition(e)
  {
    L.ClaimedIndex(Group(PositionsOf(events, ids), asset, actor))
  }

  /** The claim whose index is served: a latest one, and of these the one with the highest id. */
  lemma ServedClaim(events: seq<Event>, ids: Event -> nat, asset: Text, actor: Text) returns (e: Event)
    requires (forall x <- events :: IsPosition(x)) && !NoClaim(events, asset, actor)
    ensures LatestClaim(events, asset, actor, e)
    ensures ServedIndex(events, ids, asset, actor) == Some(IndexAtClaim(e))
    ensures forall x :: LatestClaim(events, asset, actor, x) ==> ids(x) <= ids(e)
  {
    var rows := Group(PositionsOf(events, ids), asset, actor);
    L.LatestClaimIsLast(rows);
    hide Group, PositionsOf, PositionOf, IsPosition, L.LatestClaim, Claims, Owns;
    forall x | x in events && Owns(x, asset, actor)
      ensures PositionOf(x, ids(x)) in rows
      ensures PositionOf(x, ids(x)).kind == L.YieldClaim <==> Claims(x)
      ensures PositionOf(x, ids(x)).timestampMs == TimestampOf(x) && PositionOf(x, ids(x)).id == ids(x)
    {
      GroupHas(events, ids, asset, actor, PositionOf(x, ids(x)));
      RowOfEvent(x, ids(x));
    }
    assert L.LatestClaim(rows).Some?;
    var last := L.LatestClaim(rows).value;
    GroupHas(events, ids, asset, actor, last);
    e :| e in events && Owns(e, asset, actor) && last == PositionOf(e, ids(e));
    RowOfEvent(e, ids(e));
    forall x | x in events && Owns(x, asset, actor) && Claims(x)
      ensures TimestampOf(x) <= TimestampOf(e)
      ensures TimestampOf(x) == TimestampOf(e) ==> ids(x) <= ids(e)
    {
      assert !L.Earlier(last, PositionOf(x, ids(x)));
    }
  }

  lemma NoClaimNoIndex(events: seq<Event>, ids: Event -> nat, asset: Text, actor: Text)
    requires (forall x <- events :: IsPosition(x)) && NoClaim(events, asset, actor)
    ensures ServedIndex(events, ids, asset, actor) == None
  {
    var rows := Group(PositionsOf(events, ids), asset, actor);
    L.LatestClaimIsLast(rows);
    hide Group, PositionsOf, PositionOf, IsPosition, L.LatestClaim, Claims;
    forall p | p in rows ensures p.kind != L.YieldClaim {
      GroupHas(events, ids, asset, actor, p);
      var e :| e in events && Owns(e, asset, actor) && p == PositionOf(e, ids(e));
      RowOfEvent(e, ids(e));
    }
  }

  /** Surrogate ids are given out in the order of insertion, no two rows the same one. */
  ghost predicate Injective(ids: Event -> nat, events: seq<Event>) {
    forall a <- events, b <- events :: ids(a) == ids(b) ==> a == b
  }

  function PlaceOf(events: seq<Event>, e: Event): (i: nat)
    ensures e in events ==> i < |events| && events[i] == e
    ensures e !in events ==> i == |events|
  {
    if e !in events then |events|
    else if events[|events| - 1] == e then |events| - 1
    else
      assert events == events[..|events| - 1] + [events[|events| - 1]];
      PlaceOf(events[..|events| - 1], e)
  }

  /** The ids of an insertion order that has `last` last. */
  function IdsWithLast(events: seq<Event>, last: Event): Event -> nat {
    (e: Event) => if e == last then |events| else PlaceOf(events, e)
  }

  lemma SameClaims(a: seq<Event>, b: seq<Event>, asset: Text, actor: Text, e: Event)
    requires SameMembers(a, b)
    ensures LatestClaim(a, asset, actor, e) <==> LatestClaim(b, asset, actor, e)
    ensures NoClaim(a, asset, actor) <==> NoClaim(b, asset, actor)
  {
    hide Owns, Claims;
  }

  /** All the holder's latest claims carry index `x`, and there is one. */
  ghost predicate LatestClaimsCarry(chain: seq<Event>, asset: Text, actor: Text, x: nat) {
    && !NoClaim(chain, asset, actor)
    && forall e :: LatestClaim(chain, asset, actor, e) ==> IndexAtClaim(e) == x
  }

  /**
   The served index of the last claim is `x` for every order in which the rows may have been inserted,
   if and only if every latest claim carries `x`: an order with the tied claim last serves that one.
   */
  lemma IndexIsSureIff(events: seq<Event>, asset: Text, actor: Text, x: nat)
    requires forall e <- events :: IsPosition(e)
    ensures (forall ids: Event -> nat :: Injective(ids, events) ==> ServedIndex(events, ids, asset, actor) == Some(x))
       <==> LatestClaimsCarry(events, asset, actor, x)
  {
    hide ServedIndex, LatestClaim, NoClaim;
    if NoClaim(events, asset, actor) {
      var ids := (e: Event) => PlaceOf(events, e);
      assert Injective(ids, events);
      NoClaimNoIndex(events, ids, asset, actor);
    } else {
      forall ids: Event -> nat | Injective(ids, events)
        ensures exists e :: LatestClaim(events, asset, actor, e)
                      && ServedIndex(events, ids, asset, actor) == Some(IndexAtClaim(e))
      {
        var e := ServedClaim(events, ids, asset, actor);
      }
      forall e | LatestClaim(events, asset, actor, e)
        ensures Injective(IdsWithLast(events, e), events)
        ensures ServedIndex(events, IdsWithLast(events, e), asset, actor) == Some(IndexAtClaim(e))
      {
        LastInsertedIsServed(events, asset, actor, e);
      }
    }
  }

  lemma LastInsertedIsServed(events: seq<Event>, asset: Text, actor: Text, e: Event)
    requires (forall x <- events :: IsPosition(x)) && LatestClaim(events, asset, actor, e)
    ensures Injective(IdsWithLast(events, e), events)
    ensures ServedIndex(events, IdsWithLast(events, e), asset, actor) == Some(IndexAtClaim(e))
  {
    hide ServedIndex, Owns, Claims, IsPosition;
    var ids := IdsWithLast(events, e);
    var served := ServedClaim(events, ids, asset, actor);
    assert ids(served) >= ids(e) == |events|;
  }

  /**
   Exactly once, as a reader sees it. After any history of partial, repeated and interrupted
   processing and one resolved sweep, a holder's holding is what the chain's own events claimed less
   what they redeemed, its wrapped shares what they wrapped less what they unwrapped, and its share
   count what they claimed and unwrapped less what they wrapped and redeemed, each event counted once;
   it is listed exactly when it holds something. The acquisition time is that of the chain's first one,
   whatever the rows' order and surrogate ids. The index of the last claim is that of a latest claim
   on the chain; it is sure to be `x` exactly when all latest claims carry `x`.
   */
  lemma LedgerCountsEachEventOnce(logs: EventLogs, history: seq<Occurrence>, jobs: seq<Job>, keys: seq<EventKey>,
                                  chain: seq<Event>, ids: Event -> nat, asset: Text, actor: Text, x: nat)
    requires ChainEvents(logs) && Interleaving(jobs, LogsOf(logs)) && ListsChain(logs, chain)
    requires forall o <- history :: InLogs(o.job, LogsOf(logs))
    requires Resolved(Replay(map[], history).Keys, Flat(jobs))
    requires Lists(Sweep(Replay(map[], history), jobs), keys)
    ensures var db := Sweep(Replay(map[], history), jobs);
            && (forall e <- Sources(db, keys) :: IsPosition(e))
            && var rows := PositionsOf(Sources(db, keys), ids);
               var holder := L.HolderFold(Group(rows, asset, actor));
               var claimed, redeemed
                 := Moved(chain, asset, actor, ClaimsShares), Moved(chain, asset, actor, Redeems);
               var wrapped, unwrapped
                 := Moved(chain, asset, actor, Wraps), Moved(chain, asset, actor, Unwraps);
               && holder.holding == claimed - redeemed
               && holder.wrapped == wrapped - unwrapped
               && holder.shareCount == claimed + unwrapped - wrapped - redeemed
               && (actor in L.ListHolders(rows, asset) <==> claimed > redeemed)
               && (claimed > redeemed ==> L.ListHolders(rows, asset)[actor] == holder)
               && FirstAcquired(chain, asset, actor, holder.acquiredAtMs)
               && (holder.yieldClaimedIndex == None <==> NoClaim(chain, asset, actor))
               && (holder.yieldClaimedIndex.Some? ==>
                     exists e :: LatestClaim(chain, asset, actor, e)
                           && holder.yieldClaimedIndex.value == IndexAtClaim(e))
               && ((forall order: Event -> nat :: Injective(order, Sources(db, keys)) ==>
                      ServedIndex(Sources(db, keys), order, asset, actor) == Some(x))
                   <==> LatestClaimsCarry(chain, asset, actor, x))
  {
    hide Projected, ChainEvents, LogsOf, Interleaving, Group, Fold, Share, IgnoresId, PositionsOf, Sources, L.Sum,
      L.HolderFold, L.ListHolders, Moved, IsPosition, L.AcquiredAt, L.ClaimedIndex, InEvents;
    ChainEventsAreChainLogs(logs);
    SweepConverges(LogsOf(logs), history, jobs);
    RowsAreTheChain(logs, jobs, keys, chain);
    var sources := Sources(Projected(jobs), keys);
    assert forall e <- chain :: IsPosition(e);
    FiguresIgnoreIds();
    FigureIsFold(sources, ids, asset, actor, L.ShareTerm);
    FigureIsFold(sources, ids, asset, actor, L.WrapTerm);
    FigureIsFold(sources, ids, asset, actor, L.HoldTerm);
    FoldOfSame(sources, chain, Share(asset, actor, L.ShareTerm));
    FoldOfSame(sources, chain, Share(asset, actor, L.WrapTerm));
    FoldOfSame(sources, chain, Share(asset, actor, L.HoldTerm));
    SharesByKind(chain, asset, actor);
    HolderIsListed(PositionsOf(sources, ids), asset, actor);
    TimesAndIndexes(sources, chain, ids, asset, actor, x);
  }

  predicate WrapsOn(e: Event, asset: Text) {
    match e.payload
    case PositionFeed(SharesWrapped(a, _, _, _)) => a == asset
    case PositionFeed(SharesUnwrapped(a, _, _, _, _)) => a == asset
    case _ => false
  }

  /** The point of the wrap-ratio series that a wrap or unwrap becomes. */
  predicate PointOf(p: L.Position, e: Event) {
    match e.payload
    case PositionFeed(SharesWrapped(_, _, _, total)) =>
      p.kind == L.Wrapped && p.timestampMs == TimestampOf(e) && p.totalWrappedAfter == Some(AsI64(total))
    case PositionFeed(SharesUnwrapped(_, _, _, _, total)) =>
      p.kind == L.Unwrapped && p.timestampMs == TimestampOf(e) && p.totalWrappedAfter == Some(AsI64(total))
    case _ => false
  }

  lemma PointOfRow(e: Event, id: nat, asset: Text)
    requires IsPosition(e)
    ensures var p := PositionOf(e, id);
            && (WrapsOn(e, asset) <==> p.asset == asset && (p.kind == L.Wrapped || p.kind == L.Unwrapped))
            && (WrapsOn(e, asset) ==> PointOf(p, e))
            && p.id == id
  {
  }

  /** An event has its point in the series. */
  ghost predicate Shown(series: seq<L.Position>, e: Event, ids: Event -> nat) {
    exists p <- series :: p.id == ids(e) && PointOf(p, e)
  }

  ghost predicate IsWrapOf(p: L.Position, events: seq<Event>, ids: Event -> nat, asset: Text) {
    exists e <- events :: WrapsOn(e, asset) && p.id == ids(e) && PointOf(p, e)
  }

  lemma SeriesOfEvents(events: seq<Event>, ids: Event -> nat, asset: Text)
    requires (forall e <- events :: IsPosition(e)) && P.Distinct(events) && Injective(ids, events)
    ensures L.UniqueIds(PositionsOf(events, ids))
    ensures var series := L.WrapSeries(PositionsOf(events, ids), asset);
            && (forall p <- series :: IsWrapOf(p, events, ids, asset))
            && (forall e <- events :: WrapsOn(e, asset) ==> Shown(series, e, ids))
  {
    hide PositionOf, IsPosition, PointOf, WrapsOn, L.WrapSeries;
    var rows := PositionsOf(events, ids);
    forall i | 0 <= i < |events| ensures rows[i] == PositionOf(events[i], ids(events[i])) && events[i] in events {}
    forall i | 0 <= i < |events| ensures rows[i].id == ids(events[i]) {
      PointOfRow(events[i], ids(events[i]), asset);
    }
    forall p | p in L.WrapSeries(rows, asset) ensures IsWrapOf(p, events, ids, asset) {
      L.SeriesRow(rows, asset, p);
      var i :| 0 <= i < |rows| && rows[i] == p;
      PointOfRow(events[i], ids(events[i]), asset);
    }
    forall e | e in events && WrapsOn(e, asset) ensures Shown(L.WrapSeries(rows, asset), e, ids) {
      var i :| 0 <= i < |events| && events[i] == e;
      PointOfRow(e, ids(e), asset);
      L.SeriesRow(rows, asset, rows[i]);
    }
  }

  /**
   The wrap-ratio series after any history of partial, repeated and interrupted processing and one
   resolved sweep: every wrap and unwrap of the asset on the chain has its one point, with the total it
   reported, there are no other points, and they ascend by time and, where times tie, by surrogate id.
   */
  lemma SeriesIsTheChains(logs: EventLogs, history: seq<Occurrence>, jobs: seq<Job>, keys: seq<EventKey>,
                          chain: seq<Event>, ids: Event -> nat, asset: Text)
    requires ChainEvents(logs) && Interleaving(jobs, LogsOf(logs)) && ListsChain(logs, chain)
    requires forall o <- history :: InLogs(o.job, LogsOf(logs))
    requires Resolved(Replay(map[], history).Keys, Flat(jobs))
    requires Lists(Sweep(Replay(map[], history), jobs), keys)
    requires Injective(ids, chain)
    ensures var db := Sweep(Replay(map[], history), jobs);
            && (forall e <- Sources(db, keys) :: IsPosition(e))
            && var series := L.WrapSeries(PositionsOf(Sources(db, keys), ids), asset);
               && (forall p <- series :: IsWrapOf(p, chain, ids, asset))
               && (forall e <- chain :: WrapsOn(e, asset) ==> Shown(series, e, ids))
               && (forall i, k :: 0 <= i < k < |series| ==>
                     series[i].timestampMs < series[k].timestampMs
                     || (series[i].timestampMs == series[k].timestampMs && series[i].id < series[k].id))
  {
    hide Projected, ChainEvents, LogsOf, Interleaving, PositionsOf, Sources, IsPosition, InEvents, L.WrapSeries,
      WrapsOn, PointOf, Shown, L.UniqueIds;
    ChainEventsAreChainLogs(logs);
    SweepConverges(LogsOf(logs), history, jobs);
    RowsAreTheChain(logs, jobs, keys, chain);
    var sources := Sources(Projected(jobs), keys);
    assert forall e <- chain :: IsPosition(e);
    SeriesOfEvents(sources, ids, asset);
    SeriesInOrder(PositionsOf(sources, ids), asset);
  }

  lemma SeriesInOrder(rows: seq<L.Position>, asset: Text)
    requires L.UniqueIds(rows)
    ensures var series := L.WrapSeries(rows, asset);
            forall i, k :: 0 <= i < k < |series| ==>
              series[i].timestampMs < series[k].timestampMs
              || (series[i].timestampMs == series[k].timestampMs && series[i].id < series[k].id)
  {
    if rows != [] { L.WrapSeriesAscends(rows, asset, rows[0]); }
  }

  lemma HolderIsListed(rows: seq<L.Position>, asset: Text, actor: Text)
    ensures var holder, group := L.HolderFold(Group(rows, asset, actor)), Group(rows, asset, actor);
            && holder.shareCount == L.Sum(group, L.ShareTerm) && holder.wrapped == L.Sum(group, L.WrapTerm)
            && holder.holding == L.Sum(group, L.HoldTerm)
            && holder.acquiredAtMs == L.AcquiredAt(group) && holder.yieldClaimedIndex == L.ClaimedIndex(group)
            && (actor in L.ListHolders(rows, asset) <==> holder.holding > 0)
            && (holder.holding > 0 ==> L.ListHolders(rows, asset)[actor] == holder)
  {
    L.LedgersAgree(rows, asset, actor);
  }

  lemma TimesAndIndexes(sources: seq<Event>, chain: seq<Event>, ids: Event -> nat, asset: Text, actor: Text, x: nat)
    requires SameMembers(sources, chain) && forall e <- sources :: IsPosition(e)
    ensures var rows := Group(PositionsOf(sources, ids), asset, actor);
            && FirstAcquired(chain, asset, actor, L.AcquiredAt(rows))
            && (L.ClaimedIndex(rows) == None <==> NoClaim(chain, asset, actor))
            && (L.ClaimedIndex(rows).Some? ==>
                  exists e :: LatestClaim(chain, asset, actor, e)
                        && L.ClaimedIndex(rows).value == IndexAtClaim(e))
    ensures (forall order: Event -> nat :: Injective(order, sources) ==>
               ServedIndex(sources, order, asset, actor) == Some(x))
       <==> LatestClaimsCarry(chain, asset, actor, x)
  {
    AcquiredIsFirst(sources, ids, asset, actor);
    IndexIsSureIff(sources, asset, actor, x);
    hide L.AcquiredAt, L.ClaimedIndex, Group, PositionsOf, LatestClaim, NoClaim, Owns, Acquires;
    assert FirstAcquired(chain, asset, actor, L.AcquiredAt(Group(PositionsOf(sources, ids), asset, actor)));
    forall e { SameClaims(sources, chain, asset, actor, e); }
    if NoClaim(sources, asset, actor) {
      NoClaimNoIndex(sources, ids, asset, actor);
    } else {
      var e := ServedClaim(sources, ids, asset, actor);
    }
  }
}
