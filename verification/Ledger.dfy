/** The two signed folds over `position_events`, and the wrap-ratio series. */
module Ledger {
  import opened Common
  import P = Paging

  datatype Kind = Claimed | Wrapped | Unwrapped | Redeemed | YieldClaim | Refunded

  /** NULL columns are None; `indexAtClaim` is set for yield claims only. */
  datatype Position = Position(id: nat, timestampMs: int, kind: Kind, asset: Text, actor: Text,
                               amount: Option<int>, totalWrappedAfter: Option<int>, indexAtClaim: Option<nat>)

  // ------------------------------------------------------------------ the CASE expressions

  function Amount(p: Position): int {
    match p.amount case None => 0 case Some(n) => n
  }

  function ShareTerm(p: Position): int {
    match p.kind
    case Claimed => Amount(p)
    case Unwrapped => Amount(p)
    case Wrapped => -Amount(p)
    case Redeemed => -Amount(p)
    case _ => 0
  }

  function WrapTerm(p: Position): int {
    match p.kind
    case Wrapped => Amount(p)
    case Unwrapped => -Amount(p)
    case _ => 0
  }

  function HoldTerm(p: Position): int {
    match p.kind
    case Claimed => Amount(p)
    case Redeemed => -Amount(p)
    case _ => 0
  }

  function Sum(rows: seq<Position>, term: Position -> int): int {
    if rows == [] then 0 else Sum(rows[..|rows| - 1], term) + term(rows[|rows| - 1])
  }

  /** WHERE. */
  function Where(rows: seq<Position>, keep: Position -> bool): seq<Position> {
    if rows == [] then []
    else
      var p := rows[|rows| - 1];
      Where(rows[..|rows| - 1], keep) + if keep(p) then [p] else []
  }

  function On(asset: Text): Position -> bool {
    (p: Position) => p.asset == asset
  }

  function By(actor: Text): Position -> bool {
    (p: Position) => p.actor == actor
  }

  function OfAsset(rows: seq<Position>, asset: Text): seq<Position> {
    Where(rows, On(asset))
  }

  function OfActor(rows: seq<Position>, actor: Text): seq<Position> {
    Where(rows, By(actor))
  }

  /** `(timestamp_ms, id)` order. */
  predicate Earlier(p: Position, q: Position) {
    p.timestampMs < q.timestampMs || (p.timestampMs == q.timestampMs && p.id < q.id)
  }

  /** The latest yield claim of a group. */
  function LatestClaim(rows: seq<Position>): Option<Position> {
    if rows == [] then None
    else
      var best, p := LatestClaim(rows[..|rows| - 1]), rows[|rows| - 1];
      if p.kind == YieldClaim && (best.None? || Earlier(best.value, p)) then Some(p) else best
  }

  function ClaimedIndex(rows: seq<Position>): Option<nat> {
    match LatestClaim(rows) case None => None case Some(p) => p.indexAtClaim
  }

  lemma {:induction false} LatestClaimIsLast(rows: seq<Position>)
    ensures LatestClaim(rows).None? <==> forall p <- rows :: p.kind != YieldClaim
    ensures LatestClaim(rows).Some? ==>
              var last := LatestClaim(rows).value;
              last in rows && last.kind == YieldClaim && forall p <- rows :: p.kind == YieldClaim ==> !Earlier(last, p)
  {
    if rows != [] {
      var n := |rows| - 1;
      LatestClaimIsLast(rows[..n]);
      assert rows == rows[..n] + [rows[n]];
      assert rows[n] in rows;
    }
  }

  predicate Acquires(p: Position) {
    p.kind == Claimed || p.kind == Unwrapped
  }

  /** `MIN(timestamp_ms)` over the rows that hand the actor shares. */
  function AcquiredAt(rows: seq<Position>): Option<int> {
    if rows == [] then None
    else
      var best, p := AcquiredAt(rows[..|rows| - 1]), rows[|rows| - 1];
      if !Acquires(p) then best
      else if best.Some? && best.value <= p.timestampMs then best
      else Some(p.timestampMs)
  }

  lemma {:induction false} AcquiredAtIsFirst(rows: seq<Position>)
    ensures AcquiredAt(rows).None? <==> forall p <- rows :: !Acquires(p)
    ensures AcquiredAt(rows).Some? ==> forall p <- rows :: Acquires(p) ==> AcquiredAt(rows).value <= p.timestampMs
    ensures AcquiredAt(rows).Some? ==> exists p <- rows :: Acquires(p) && AcquiredAt(rows).value == p.timestampMs
  {
    if rows != [] {
      var n := |rows| - 1;
      AcquiredAtIsFirst(rows[..n]);
      assert rows == rows[..n] + [rows[n]];
      assert rows[n] in rows;
    }
  }

  /** Whoever holds something acquired it at some time. */
  lemma {:induction false} HoldersAcquired(rows: seq<Position>)
    requires forall p <- rows :: Amount(p) >= 0
    ensures Sum(rows, HoldTerm) > 0 ==> AcquiredAt(rows).Some?
  {
    if rows != [] {
      var n := |rows| - 1;
      assert rows[n] in rows && forall p <- rows[..n] :: p in rows;
      HoldersAcquired(rows[..n]);
    }
  }

  // ------------------------------------------------------------------ the two queries

  datatype Holder = Holder(shareCount: int, wrapped: int, holding: int, acquiredAtMs: Option<int>,
                           yieldClaimedIndex: Option<nat>)

  datatype Holding = Holding(shareCount: int, wrapped: int, yieldClaimedIndex: Option<nat>)

  function HolderFold(group: seq<Position>): Holder {
    Holder(Sum(group, ShareTerm), Sum(group, WrapTerm), Sum(group, HoldTerm), AcquiredAt(group), ClaimedIndex(group))
  }

  function HoldingFold(group: seq<Position>): Holding {
    Holding(Sum(group, ShareTerm), Sum(group, WrapTerm), ClaimedIndex(group))
  }

  /** WHERE asset, GROUP BY actor, filtered on `holding > 0`. */
  function ListHolders(rows: seq<Position>, asset: Text): map<Text, Holder> {
    var own := OfAsset(rows, asset);
    map actor | actor in (set p <- own :: p.actor) && HolderFold(OfActor(own, actor)).holding > 0
      :: HolderFold(OfActor(own, actor))
  }

  /** WHERE actor, GROUP BY asset, filtered on `share_count + wrapped > 0`. */
  function ListAddressHoldings(rows: seq<Position>, actor: Text): map<Text, Holding> {
    var own := OfActor(rows, actor);
    map asset | asset in (set p <- own :: p.asset)
              && HoldingFold(OfAsset(own, asset)).shareCount + HoldingFold(OfAsset(own, asset)).wrapped > 0
      :: HoldingFold(OfAsset(own, asset))
  }

  // ------------------------------------------------------------------ agreement

  lemma {:induction false} HoldingIsSharesPlusWrapped(rows: seq<Position>)
    ensures Sum(rows, HoldTerm) == Sum(rows, ShareTerm) + Sum(rows, WrapTerm)
  {
    if rows != [] { HoldingIsSharesPlusWrapped(rows[..|rows| - 1]); }
  }

  lemma {:induction false} WhereStep(rows: seq<Position>, p: Position, keep: Position -> bool)
    ensures Where(rows + [p], keep) == if keep(p) then Where(rows, keep) + [p] else Where(rows, keep)
  {
    assert (rows + [p])[..|rows|] == rows;
    assert Where(rows, keep) + [] == Where(rows, keep);
  }

  lemma {:induction false} FiltersCommute(rows: seq<Position>, f: Position -> bool, g: Position -> bool)
    ensures Where(Where(rows, f), g) == Where(Where(rows, g), f)
  {
    if rows != [] {
      var n := |rows| - 1;
      var front, p := rows[..n], rows[n];
      hide Where;
      FiltersCommute(front, f, g);
      WhereStep(Where(front, f), p, g);
      WhereStep(Where(front, g), p, f);
      WhereStep(front, p, f);
      WhereStep(front, p, g);
      assert rows == front + [p];
    }
  }

  lemma {:induction false} Kept(rows: seq<Position>, keep: Position -> bool, p: Position)
    ensures p in Where(rows, keep) <==> p in rows && keep(p)
  {
    if rows != [] { Kept(rows[..|rows| - 1], keep, p); }
  }

  /** The two queries group the same rows, and both see the group when it has a row. */
  lemma SameGroup(rows: seq<Position>, asset: Text, actor: Text)
    ensures OfActor(OfAsset(rows, asset), actor) == OfAsset(OfActor(rows, actor), asset)
    ensures actor in (set p <- OfAsset(rows, asset) :: p.actor) <==> OfActor(OfAsset(rows, asset), actor) != []
    ensures asset in (set p <- OfActor(rows, actor) :: p.asset) <==> OfAsset(OfActor(rows, actor), asset) != []
  {
    FiltersCommute(rows, On(asset), By(actor));
    SomeoneKept(OfAsset(rows, asset), By(actor));
    SomeoneKept(OfActor(rows, actor), On(asset));
  }

  lemma {:induction false} SomeoneKept(rows: seq<Position>, keep: Position -> bool)
    ensures (exists p :: p in rows && keep(p)) <==> Where(rows, keep) != []
  {
    if p :| p in rows && keep(p) { Kept(rows, keep, p); }
    if Where(rows, keep) != [] { Kept(rows, keep, Where(rows, keep)[0]); }
  }

  /** One position: both folds list it or neither does, with the same numbers. */
  lemma LedgersAgree(rows: seq<Position>, asset: Text, actor: Text)
    ensures actor in ListHolders(rows, asset) <==> asset in ListAddressHoldings(rows, actor)
    ensures actor in ListHolders(rows, asset) <==> Sum(OfActor(OfAsset(rows, asset), actor), HoldTerm) > 0
    ensures actor in ListHolders(rows, asset) ==>
              var a, b := ListHolders(rows, asset)[actor], ListAddressHoldings(rows, actor)[asset];
              && a.shareCount == b.shareCount && a.wrapped == b.wrapped && a.yieldClaimedIndex == b.yieldClaimedIndex
              && a.holding == b.shareCount + b.wrapped > 0
  {
    assert Sum([], HoldTerm) == 0;
    hide Where, Sum, LatestClaim, AcquiredAt, OfAsset, OfActor;
    SameGroup(rows, asset, actor);
    HoldingIsSharesPlusWrapped(OfActor(OfAsset(rows, asset), actor));
  }

  lemma {:induction false} SumSnoc(rows: seq<Position>, p: Position, term: Position -> int)
    ensures Sum(rows + [p], term) == Sum(rows, term) + term(p)
  {
    assert (rows + [p])[..|rows|] == rows;
  }

  function OfKind(kind: Kind): Position -> bool {
    (p: Position) => p.kind == kind
  }

  /** What the rows of one kind move in all. */
  function Moved(rows: seq<Position>, kind: Kind): int {
    Sum(Where(rows, OfKind(kind)), Amount)
  }

  lemma {:induction false} MovedStep(rows: seq<Position>, p: Position, kind: Kind)
    ensures Moved(rows + [p], kind) == Moved(rows, kind) + if p.kind == kind then Amount(p) else 0
  {
    WhereStep(rows, p, OfKind(kind));
    SumSnoc(Where(rows, OfKind(kind)), p, Amount);
  }

  /** The three figures in terms of what was claimed, redeemed, wrapped and unwrapped. */
  lemma {:induction false} FiguresByKind(rows: seq<Position>)
    ensures Sum(rows, HoldTerm) == Moved(rows, Claimed) - Moved(rows, Redeemed)
    ensures Sum(rows, WrapTerm) == Moved(rows, Wrapped) - Moved(rows, Unwrapped)
    ensures Sum(rows, ShareTerm)
         == Moved(rows, Claimed) + Moved(rows, Unwrapped) - Moved(rows, Wrapped) - Moved(rows, Redeemed)
  {
    if rows != [] {
      var front, p := rows[..|rows| - 1], rows[|rows| - 1];
      FiguresByKind(front);
      assert rows == front + [p];
      hide Sum, Moved;
      SumSnoc(front, p, HoldTerm);
      SumSnoc(front, p, WrapTerm);
      SumSnoc(front, p, ShareTerm);
      MovedStep(front, p, Claimed);
      MovedStep(front, p, Redeemed);
      MovedStep(front, p, Wrapped);
      MovedStep(front, p, Unwrapped);
    }
  }

  function HasAmount(): Position -> bool {
    (p: Position) => p.amount.Some?
  }

  lemma {:induction false} NullsAddNothing(rows: seq<Position>, term: Position -> int)
    requires forall p: Position :: p.amount.None? ==> term(p) == 0
    ensures Sum(rows, term) == Sum(Where(rows, HasAmount()), term)
  {
    if rows != [] {
      var front, p := rows[..|rows| - 1], rows[|rows| - 1];
      NullsAddNothing(front, term);
      assert rows == front + [p];
      hide Where, Sum;
      WhereStep(front, p, HasAmount());
      SumSnoc(front, p, term);
      SumSnoc(Where(front, HasAmount()), p, term);
    }
  }

  /** Rows whose amount is NULL count nothing in any of the three figures. */
  lemma NullsCountNothing(rows: seq<Position>)
    ensures Sum(rows, ShareTerm) == Sum(Where(rows, HasAmount()), ShareTerm)
    ensures Sum(rows, WrapTerm) == Sum(Where(rows, HasAmount()), WrapTerm)
    ensures Sum(rows, HoldTerm) == Sum(Where(rows, HasAmount()), HoldTerm)
  {
    hide Sum, Where;
    NullsAddNothing(rows, ShareTerm);
    NullsAddNothing(rows, WrapTerm);
    NullsAddNothing(rows, HoldTerm);
  }

  // ------------------------------------------------------------------ conservation

  /** A list of actors without repetition that has everyone the rows mention. */
  predicate Roster(rows: seq<Position>, actors: seq<Text>) {
    P.Distinct(actors) && forall p <- rows :: p.actor in actors
  }

  function TotalOver(actors: seq<Text>, rows: seq<Position>, term: Position -> int): int {
    if actors == [] then 0
    else TotalOver(actors[..|actors| - 1], rows, term) + Sum(OfActor(rows, actors[|actors| - 1]), term)
  }

  lemma {:induction false} SumStep(rows: seq<Position>, p: Position, actor: Text, term: Position -> int)
    ensures Sum(OfActor(rows + [p], actor), term)
         == Sum(OfActor(rows, actor), term) + if p.actor == actor then term(p) else 0
  {
    WhereStep(rows, p, By(actor));
    SumSnoc(OfActor(rows, actor), p, term);
  }

  lemma {:induction false} OneMoreRow(actors: seq<Text>, rows: seq<Position>, p: Position, term: Position -> int)
    requires P.Distinct(actors)
    ensures TotalOver(actors, rows + [p], term)
         == TotalOver(actors, rows, term) + if p.actor in actors then term(p) else 0
  {
    hide Sum, OfActor;
    if actors != [] {
      var n := |actors| - 1;
      OneMoreRow(actors[..n], rows, p, term);
      SumStep(rows, p, actors[n], term);
      assert actors == actors[..n] + [actors[n]];
      assert actors[n] !in actors[..n];
    }
  }

  lemma {:induction false} NoRowsNoTotal(actors: seq<Text>, term: Position -> int)
    ensures TotalOver(actors, [], term) == 0
  {
    if actors != [] { NoRowsNoTotal(actors[..|actors| - 1], term); }
  }

  /** Summing a column group by group is summing it over the table, whoever the groups are listed by. */
  lemma {:induction false} GroupsAddUp(rows: seq<Position>, actors: seq<Text>, term: Position -> int)
    requires Roster(rows, actors)
    ensures TotalOver(actors, rows, term) == Sum(rows, term)
  {
    if rows == [] {
      NoRowsNoTotal(actors, term);
    } else {
      var n := |rows| - 1;
      assert rows == rows[..n] + [rows[n]];
      assert rows[n] in rows;
      forall p | p in rows[..n] ensures p.actor in actors { assert p in rows; }
      GroupsAddUp(rows[..n], actors, term);
      OneMoreRow(actors, rows[..n], rows[n], term);
    }
  }

  /** The holdings `list_holders` shows for these actors, added up. */
  function ListedTotal(actors: seq<Text>, rows: seq<Position>): int {
    if actors == [] then 0
    else
      var h := Sum(OfActor(rows, actors[|actors| - 1]), HoldTerm);
      ListedTotal(actors[..|actors| - 1], rows) + if h > 0 then h else 0
  }

  lemma {:induction false} ListedIsTotalPlusDebt(actors: seq<Text>, rows: seq<Position>)
    ensures ListedTotal(actors, rows) >= TotalOver(actors, rows, HoldTerm)
    ensures ListedTotal(actors, rows) == TotalOver(actors, rows, HoldTerm)
       <==> forall a <- actors :: Sum(OfActor(rows, a), HoldTerm) >= 0
  {
    hide Sum, OfActor;
    if actors != [] {
      var n := |actors| - 1;
      ListedIsTotalPlusDebt(actors[..n], rows);
      assert actors == actors[..n] + [actors[n]];
      assert (forall a <- actors :: Sum(OfActor(rows, a), HoldTerm) >= 0)
        <==> (forall a <- actors[..n] :: Sum(OfActor(rows, a), HoldTerm) >= 0)
             && Sum(OfActor(rows, actors[n]), HoldTerm) >= 0;
    }
  }

  /**
   Conservation for one asset: the holdings of all its actors add up to claimed minus redeemed, and
   the listed ones do so if and only if no actor redeemed more than it claimed.
   */
  lemma HoldingsAreConserved(rows: seq<Position>, asset: Text, actors: seq<Text>)
    requires Roster(OfAsset(rows, asset), actors)
    ensures var own := OfAsset(rows, asset);
            && TotalOver(actors, own, HoldTerm) == Moved(own, Claimed) - Moved(own, Redeemed)
            && (ListedTotal(actors, own) == Moved(own, Claimed) - Moved(own, Redeemed)
                <==> forall a <- actors :: Moved(OfActor(own, a), Redeemed) <= Moved(OfActor(own, a), Claimed))
  {
    hide Sum, Moved, OfAsset, OfActor;
    FiguresByKind(OfAsset(rows, asset));
    forall a { FiguresByKind(OfActor(OfAsset(rows, asset), a)); }
    GroupsAddUp(OfAsset(rows, asset), actors, HoldTerm);
    ListedIsTotalPlusDebt(actors, OfAsset(rows, asset));
  }

  // ------------------------------------------------------------------ the wrap-ratio series

  function Moves(): Position -> bool {
    (p: Position) => p.kind == Wrapped || p.kind == Unwrapped
  }

  /** `list_wrap_ratio`: the wrap and unwrap rows of an asset in `(timestamp_ms, id)` order. */
  function WrapSeries(rows: seq<Position>, asset: Text): seq<Position> {
    P.Sort(Earlier, Where(OfAsset(rows, asset), Moves()))
  }

  lemma {:induction false} KeptAreDistinct(rows: seq<Position>, keep: Position -> bool)
    requires P.Distinct(rows)
    ensures P.Distinct(Where(rows, keep))
  {
    if rows != [] {
      var n := |rows| - 1;
      KeptAreDistinct(rows[..n], keep);
      Kept(rows[..n], keep, rows[n]);
      assert rows[n] !in rows[..n];
    }
  }

  /** Surrogate ids are unique in a table. */
  predicate UniqueIds(rows: seq<Position>) {
    forall i, k :: 0 <= i < k < |rows| ==> rows[i].id != rows[k].id
  }

  /** The series has exactly the asset's wraps and unwraps, each once, time ascending and ids where times tie. */
  lemma WrapSeriesAscends(rows: seq<Position>, asset: Text, p: Position)
    requires UniqueIds(rows)
    ensures var series := WrapSeries(rows, asset);
            && (forall i, k :: 0 <= i < k < |series| ==>
                  series[i].timestampMs < series[k].timestampMs
                  || (series[i].timestampMs == series[k].timestampMs && series[i].id < series[k].id))
            && (p in series <==> p in rows && p.asset == asset && (p.kind == Wrapped || p.kind == Unwrapped))
  {
    var series := WrapSeries(rows, asset);
    SeriesRow(rows, asset, p);
    SeriesSorted(rows, asset);
    hide WrapSeries;
    forall i, k | 0 <= i < k < |series| ensures series[i].id != series[k].id {
      SeriesRow(rows, asset, series[i]);
      SeriesRow(rows, asset, series[k]);
    }
  }

  lemma SeriesSorted(rows: seq<Position>, asset: Text)
    requires UniqueIds(rows)
    ensures P.NeverBackwards(Earlier, WrapSeries(rows, asset)) && P.Distinct(WrapSeries(rows, asset))
  {
    hide Where;
    P.SortInOrder(Earlier, Where(OfAsset(rows, asset), Moves()));
    KeptAreDistinct(rows, On(asset));
    KeptAreDistinct(OfAsset(rows, asset), Moves());
    P.SameRowsDistinct(Where(OfAsset(rows, asset), Moves()), WrapSeries(rows, asset));
  }

  lemma SeriesRow(rows: seq<Position>, asset: Text, p: Position)
    ensures p in WrapSeries(rows, asset)
       <==> p in rows && p.asset == asset && (p.kind == Wrapped || p.kind == Unwrapped)
  {
    hide Where;
    var own := Where(OfAsset(rows, asset), Moves());
    P.SortInOrder(Earlier, own);
    assert p in multiset(own) <==> p in multiset(P.Sort(Earlier, own));
    Kept(OfAsset(rows, asset), Moves(), p);
    Kept(rows, On(asset), p);
  }

  /** The tally a point starts from, given the points before it. */
  function TallyAfter(series: seq<Position>): int {
    if series == [] || series[|series| - 1].totalWrappedAfter.None? then 0
    else series[|series| - 1].totalWrappedAfter.value
  }

  /** Each point is the one before it plus what its own row wraps. */
  predicate RunningTally(series: seq<Position>) {
    series == []
    || var front, p := series[..|series| - 1], series[|series| - 1];
       RunningTally(front) && p.totalWrappedAfter == Some(TallyAfter(front) + WrapTerm(p))
  }

  lemma {:induction false} SumInsert(less: (Position, Position) -> bool, p: Position, s: seq<Position>,
                                     term: Position -> int)
    ensures Sum(P.Insert(less, p, s), term) == term(p) + Sum(s, term)
  {
    if s == [] || less(p, s[0]) {
      SumCons(p, s, term);
    } else {
      SumInsert(less, p, s[1..], term);
      SumCons(s[0], P.Insert(less, p, s[1..]), term);
      SumCons(s[0], s[1..], term);
      assert s == [s[0]] + s[1..];
    }
  }

  lemma {:induction false} SumCons(p: Position, s: seq<Position>, term: Position -> int)
    ensures Sum([p] + s, term) == term(p) + Sum(s, term)
  {
    if s == [] {
      assert [p] + s == [p] && [p][..0] == [];
    } else {
      var n := |s| - 1;
      assert ([p] + s)[..n + 1] == [p] + s[..n];
      SumCons(p, s[..n], term);
    }
  }

  lemma {:induction false} SumSort(less: (Position, Position) -> bool, s: seq<Position>, term: Position -> int)
    ensures Sum(P.Sort(less, s), term) == Sum(s, term)
  {
    if s != [] {
      var n := |s| - 1;
      SumSort(less, s[..n], term);
      SumInsert(less, s[n], P.Sort(less, s[..n]), term);
    }
  }

  lemma {:induction false} OtherRowsWrapNothing(rows: seq<Position>)
    ensures Sum(Where(rows, Moves()), WrapTerm) == Sum(rows, WrapTerm)
  {
    if rows != [] {
      hide Where, Sum;
      var front, p := rows[..|rows| - 1], rows[|rows| - 1];
      OtherRowsWrapNothing(front);
      WhereStep(front, p, Moves());
      SumSnoc(Where(front, Moves()), p, WrapTerm);
      SumSnoc(front, p, WrapTerm);
      assert rows == front + [p];
    }
  }

  lemma {:induction false} TallyIsSum(series: seq<Position>)
    requires RunningTally(series) && series != []
    ensures series[|series| - 1].totalWrappedAfter == Some(Sum(series, WrapTerm))
  {
    var n := |series| - 1;
    if n > 0 {
      TallyIsSum(series[..n]);
    } else {
      assert series[..0] == [];
    }
  }

  /**
   When `total_wrapped_after` is a running tally, the wrapped column added up over all holders is the
   last point of the wrap-ratio series.
   */
  lemma WrappedMatchesSeries(rows: seq<Position>, asset: Text, actors: seq<Text>)
    requires Roster(OfAsset(rows, asset), actors)
    requires RunningTally(WrapSeries(rows, asset)) && WrapSeries(rows, asset) != []
    ensures var series := WrapSeries(rows, asset);
            series[|series| - 1].totalWrappedAfter == Some(TotalOver(actors, OfAsset(rows, asset), WrapTerm))
  {
    var own := OfAsset(rows, asset);
    TallyIsSum(WrapSeries(rows, asset));
    SumSort(Earlier, Where(own, Moves()), WrapTerm);
    OtherRowsWrapNothing(own);
    GroupsAddUp(own, actors, WrapTerm);
  }
}
