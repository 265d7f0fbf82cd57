/**
 Current accumulator balances: each column is the value of the latest row that reports it, latest by
 `(timestamp_ms, event_seq)`.
 */
module Balances {
  import opened Common
  import opened Events
  import P = Paging

  datatype Columns = Columns(rewardPool: Option<int>, rolloverReserve: Option<int>, compensationPool: Option<int>,
                             compensationUnlockMs: Option<int>, wrappingFrozen: Option<bool>)

  /** A row of `accumulator_balances`; a column its event does not carry is None. */
  datatype Snapshot = Snapshot(key: EventKey, timestampMs: int, asset: Text, columns: Columns)

  /** The columns of a row that only counts for one asset. */
  type Column<V> = Snapshot -> Option<V>

  predicate Before(r: Snapshot, q: Snapshot) {
    r.timestampMs < q.timestampMs || (r.timestampMs == q.timestampMs && r.key.eventSeq < q.key.eventSeq)
  }

  // ------------------------------------------------------------------ the query

  /** WHERE asset AND column IS NOT NULL. */
  predicate Reports<V>(r: Snapshot, asset: Text, col: Column<V>) {
    r.asset == asset && col(r).Some?
  }

  /** A row that ORDER BY .. DESC LIMIT 1 may deliver: SQL leaves a tie open. */
  predicate MayPick<V>(rows: seq<Snapshot>, asset: Text, col: Column<V>, r: Snapshot) {
    r in rows && Reports(r, asset, col) && forall q <- rows :: Reports(q, asset, col) ==> !Before(r, q)
  }

  ghost predicate MayAnswer<V>(rows: seq<Snapshot>, asset: Text, col: Column<V>, v: Option<V>) {
    if v.None? then forall r <- rows :: !Reports(r, asset, col)
    else exists r <- rows :: MayPick(rows, asset, col, r) && col(r) == v
  }

  const REWARD_POOL: Column<int> := (r: Snapshot) => r.columns.rewardPool
  const ROLLOVER_RESERVE: Column<int> := (r: Snapshot) => r.columns.rolloverReserve
  const COMPENSATION_POOL: Column<int> := (r: Snapshot) => r.columns.compensationPool
  const COMPENSATION_UNLOCK: Column<int> := (r: Snapshot) => r.columns.compensationUnlockMs
  const WRAPPING_FROZEN: Column<bool> := (r: Snapshot) => r.columns.wrappingFrozen

  /** The five subqueries. */
  ghost predicate MayReturn(rows: seq<Snapshot>, asset: Text, b: Columns) {
    && MayAnswer(rows, asset, REWARD_POOL, b.rewardPool)
    && MayAnswer(rows, asset, ROLLOVER_RESERVE, b.rolloverReserve)
    && MayAnswer(rows, asset, COMPENSATION_POOL, b.compensationPool)
    && MayAnswer(rows, asset, COMPENSATION_UNLOCK, b.compensationUnlockMs)
    && MayAnswer(rows, asset, WRAPPING_FROZEN, b.wrappingFrozen)
  }

  // ------------------------------------------------------------------ the replay

  function Newer<V>(before: Option<V>, reported: Option<V>): Option<V> {
    if reported.Some? then reported else before
  }

  function Apply(b: Columns, r: Columns): Columns {
    Columns(Newer(b.rewardPool, r.rewardPool), Newer(b.rolloverReserve, r.rolloverReserve),
            Newer(b.compensationPool, r.compensationPool), Newer(b.compensationUnlockMs, r.compensationUnlockMs),
            Newer(b.wrappingFrozen, r.wrappingFrozen))
  }

  /** One record, each row overwriting the columns it reports. */
  function Replay(rows: seq<Snapshot>, asset: Text): Columns {
    if rows == [] then Columns(None, None, None, None, None)
    else
      var b, r := Replay(rows[..|rows| - 1], asset), rows[|rows| - 1];
      if r.asset == asset then Apply(b, r.columns) else b
  }

  function ReplayColumn<V>(rows: seq<Snapshot>, asset: Text, col: Column<V>): Option<V> {
    if rows == [] then None
    else
      var v, r := ReplayColumn(rows[..|rows| - 1], asset, col), rows[|rows| - 1];
      if Reports(r, asset, col) then col(r) else v
  }

  lemma {:induction false} ReplayIsByColumn(rows: seq<Snapshot>, asset: Text)
    ensures Replay(rows, asset)
         == Columns(ReplayColumn(rows, asset, REWARD_POOL), ReplayColumn(rows, asset, ROLLOVER_RESERVE),
                    ReplayColumn(rows, asset, COMPENSATION_POOL), ReplayColumn(rows, asset, COMPENSATION_UNLOCK),
                    ReplayColumn(rows, asset, WRAPPING_FROZEN))
  {
    if rows != [] { ReplayIsByColumn(rows[..|rows| - 1], asset); }
  }

  // ------------------------------------------------------------------ the query is the replay

  /** No two rows of the asset share their `(timestamp_ms, event_seq)`. */
  predicate NoTies(rows: seq<Snapshot>, asset: Text) {
    forall r <- rows, q <- rows :: r.asset == q.asset == asset && r != q ==> Before(r, q) || Before(q, r)
  }

  /** The asset's rows come in ascending order. */
  predicate Chronological(rows: seq<Snapshot>, asset: Text) {
    forall i, k :: 0 <= i < k < |rows| && rows[i].asset == rows[k].asset == asset
      ==> rows[i] == rows[k] || Before(rows[i], rows[k])
  }

  predicate NeverBackwards(rows: seq<Snapshot>) {
    forall i, k :: 0 <= i < k < |rows| ==> !Before(rows[k], rows[i])
  }

  function InOrder(rows: seq<Snapshot>): seq<Snapshot> {
    P.Sort(Before, rows)
  }

  lemma SortOrders(rows: seq<Snapshot>)
    ensures NeverBackwards(InOrder(rows)) && forall r :: r in InOrder(rows) <==> r in rows
  {
    P.SortInOrder(Before, rows);
    forall r ensures r in InOrder(rows) <==> r in rows {
      assert r in InOrder(rows) <==> r in multiset(InOrder(rows));
    }
  }

  lemma {:induction false} ReplayAnswers<V>(rows: seq<Snapshot>, asset: Text, col: Column<V>)
    requires Chronological(rows, asset)
    ensures MayAnswer(rows, asset, col, ReplayColumn(rows, asset, col))
  {
    if rows != [] {
      var n := |rows| - 1;
      var r := rows[n];
      assert rows == rows[..n] + [r];
      assert forall q :: q in rows <==> q in rows[..n] || q == r;
      ReplayAnswers(rows[..n], asset, col);
      if Reports(r, asset, col) {
        assert MayPick(rows, asset, col, r);
      } else if ReplayColumn(rows, asset, col).Some? {
        var q :| q in rows[..n] && MayPick(rows[..n], asset, col, q) && col(q) == ReplayColumn(rows, asset, col);
        assert MayPick(rows, asset, col, q);
      }
    }
  }

  /** Without ties there is one answer. */
  lemma AnswerIsUnique<V>(rows: seq<Snapshot>, asset: Text, col: Column<V>, v: Option<V>, w: Option<V>)
    requires NoTies(rows, asset)
    requires MayAnswer(rows, asset, col, v) && MayAnswer(rows, asset, col, w)
    ensures v == w
  {
    if v.Some? && w.Some? {
      var r :| r in rows && MayPick(rows, asset, col, r) && col(r) == v;
      var q :| q in rows && MayPick(rows, asset, col, q) && col(q) == w;
    }
  }

  /** What a query may answer depends on which rows there are, not on the order they were inserted in. */
  lemma InsertionOrderIsInvisible<V>(rows: seq<Snapshot>, other: seq<Snapshot>, asset: Text, col: Column<V>,
                                     v: Option<V>)
    requires forall r :: r in rows <==> r in other
    ensures MayAnswer(rows, asset, col, v) <==> MayAnswer(other, asset, col, v)
  {
    forall r ensures MayPick(rows, asset, col, r) <==> MayPick(other, asset, col, r) {}
  }

  lemma AnswerIsReplayed<V>(rows: seq<Snapshot>, asset: Text, col: Column<V>, v: Option<V>)
    requires NoTies(rows, asset)
    ensures MayAnswer(rows, asset, col, v) <==> v == ReplayColumn(InOrder(rows), asset, col)
  {
    hide P.Sort, ReplayColumn, MayAnswer;
    SortOrders(rows);
    var replayed := ReplayColumn(InOrder(rows), asset, col);
    ReplayAnswers(InOrder(rows), asset, col);
    InsertionOrderIsInvisible(InOrder(rows), rows, asset, col, replayed);
    if MayAnswer(rows, asset, col, v) { AnswerIsUnique(rows, asset, col, v, replayed); }
  }

  /**
   Without ties the query has exactly one answer, the record that replaying the rows in
   `(timestamp_ms, event_seq)` order leaves, whatever order they were inserted in.
   */
  lemma QueryIsReplay(rows: seq<Snapshot>, asset: Text, b: Columns)
    requires NoTies(rows, asset)
    ensures MayReturn(rows, asset, b) <==> b == Replay(InOrder(rows), asset)
  {
    hide P.Sort, Replay, ReplayColumn, MayAnswer;
    ReplayIsByColumn(InOrder(rows), asset);
    AnswerIsReplayed(rows, asset, REWARD_POOL, b.rewardPool);
    AnswerIsReplayed(rows, asset, ROLLOVER_RESERVE, b.rolloverReserve);
    AnswerIsReplayed(rows, asset, COMPENSATION_POOL, b.compensationPool);
    AnswerIsReplayed(rows, asset, COMPENSATION_UNLOCK, b.compensationUnlockMs);
    AnswerIsReplayed(rows, asset, WRAPPING_FROZEN, b.wrappingFrozen);
  }

  // ------------------------------------------------------------------ the query and the chain

  /** Rows in the order the chain emitted them: a checkpoint's transactions share its timestamp. */
  predicate Emitted(rows: seq<Snapshot>) {
    forall i, k :: 0 <= i < k < |rows| ==> rows[i].timestampMs <= rows[k].timestampMs
  }

  /** `k` is the last row that reports the column. */
  predicate LastWriter<V>(rows: seq<Snapshot>, asset: Text, col: Column<V>, k: nat) {
    k < |rows| && Reports(rows[k], asset, col) && forall i :: k < i < |rows| ==> !Reports(rows[i], asset, col)
  }

  lemma {:induction false} SomePick<V>(rows: seq<Snapshot>, asset: Text, col: Column<V>, r: Snapshot)
    returns (top: Snapshot)
    requires r in rows && Reports(r, asset, col)
    ensures MayPick(rows, asset, col, top)
  {
    var n := |rows| - 1;
    assert rows == rows[..n] + [rows[n]];
    if q :| q in rows[..n] && Reports(q, asset, col) {
      top := SomePick(rows[..n], asset, col, q);
      if Reports(rows[n], asset, col) && Before(top, rows[n]) { top := rows[n]; }
    } else {
      top := r;
    }
  }

  /** Row `i` reports the column before row `k` does, in the same checkpoint. */
  predicate Rival<V>(rows: seq<Snapshot>, asset: Text, col: Column<V>, k: nat, i: nat)
    requires k < |rows|
  {
    && i < k && Reports(rows[i], asset, col)
    && rows[i].timestampMs == rows[k].timestampMs && rows[i] != rows[k]
  }

  /**
   The row that the query picks is sure to be the last writer if and only if no earlier report with
   that timestamp has an event number as high: one checkpoint's transactions each count from zero.
   */
  lemma ReadsTheLastWriterIff<V>(rows: seq<Snapshot>, asset: Text, col: Column<V>, k: nat)
    requires Emitted(rows) && LastWriter(rows, asset, col, k)
    ensures (forall r :: MayPick(rows, asset, col, r) ==> r == rows[k])
       <==> (forall i: nat :: Rival(rows, asset, col, k, i) ==> rows[i].key.eventSeq < rows[k].key.eventSeq)
  {
    if forall r :: MayPick(rows, asset, col, r) ==> r == rows[k] {
      var top := SomePick(rows, asset, col, rows[k]);
      forall i: nat | Rival(rows, asset, col, k, i) ensures rows[i].key.eventSeq < rows[k].key.eventSeq {
        assert top == rows[k] && !Before(rows[k], rows[i]);
        assert rows[i].key.eventSeq == rows[k].key.eventSeq ==> MayPick(rows, asset, col, rows[i]);
      }
    }
    if forall i: nat :: Rival(rows, asset, col, k, i) ==> rows[i].key.eventSeq < rows[k].key.eventSeq {
      forall r | MayPick(rows, asset, col, r) ensures r == rows[k] {
        var i :| 0 <= i < |rows| && rows[i] == r;
        assert i <= k && !Before(r, rows[k]);
        assert Rival(rows, asset, col, k, i) || rows[i].timestampMs < rows[k].timestampMs || r == rows[k];
      }
    }
  }

  /** Row `i` has the highest event number among the reports with the timestamp of row `k`. */
  predicate Foremost<V>(rows: seq<Snapshot>, asset: Text, col: Column<V>, k: nat, i: nat)
    requires k < |rows| && i < |rows|
  {
    && Reports(rows[i], asset, col) && rows[i].timestampMs == rows[k].timestampMs
    && forall q <- rows :: Reports(q, asset, col) && q.timestampMs == rows[k].timestampMs ==>
         q.key.eventSeq <= rows[i].key.eventSeq
  }

  lemma PicksAreForemost<V>(rows: seq<Snapshot>, asset: Text, col: Column<V>, k: nat, i: nat)
    requires Emitted(rows) && LastWriter(rows, asset, col, k) && i < |rows|
    ensures MayPick(rows, asset, col, rows[i]) <==> Foremost(rows, asset, col, k, i)
    ensures MayPick(rows, asset, col, rows[i]) ==> MayAnswer(rows, asset, col, col(rows[i]))
  {
    forall q | q in rows && Reports(q, asset, col) ensures q.timestampMs <= rows[k].timestampMs {
      var j :| 0 <= j < |rows| && rows[j] == q;
      assert j <= k;
    }
  }

  lemma AnswersArePicked<V>(rows: seq<Snapshot>, asset: Text, col: Column<V>, k: nat, v: Option<V>)
    returns (i: nat)
    requires k < |rows| && Reports(rows[k], asset, col) && MayAnswer(rows, asset, col, v)
    ensures i < |rows| && MayPick(rows, asset, col, rows[i]) && col(rows[i]) == v
  {
    assert rows[k] in rows;
    var r :| r in rows && MayPick(rows, asset, col, r) && col(r) == v;
    i :| 0 <= i < |rows| && rows[i] == r;
  }

  /**
   The value that the query answers is sure to be the one the chain wrote last if and only if every
   report of that timestamp with the highest event number there carries it.
   */
  lemma ReadsTheLastValueIff<V>(rows: seq<Snapshot>, asset: Text, col: Column<V>, k: nat)
    requires Emitted(rows) && LastWriter(rows, asset, col, k)
    ensures (forall v :: MayAnswer(rows, asset, col, v) ==> v == col(rows[k]))
       <==> (forall i :: 0 <= i < |rows| && Foremost(rows, asset, col, k, i) ==> col(rows[i]) == col(rows[k]))
  {
    hide MayPick, MayAnswer, Foremost;
    if forall v :: MayAnswer(rows, asset, col, v) ==> v == col(rows[k]) {
      forall i | 0 <= i < |rows| && Foremost(rows, asset, col, k, i) ensures col(rows[i]) == col(rows[k]) {
        PicksAreForemost(rows, asset, col, k, i);
        var v := col(rows[i]);
        assert MayAnswer(rows, asset, col, v);
      }
    }
    if forall i :: 0 <= i < |rows| && Foremost(rows, asset, col, k, i) ==> col(rows[i]) == col(rows[k]) {
      forall v | MayAnswer(rows, asset, col, v) ensures v == col(rows[k]) {
        var i := AnswersArePicked(rows, asset, col, k, v);
        PicksAreForemost(rows, asset, col, k, i);
      }
    }
  }

  /** Two transactions of one checkpoint: the later one's balance loses to the earlier one's. */
  lemma LaterTransactionLoses(asset: Text)
    ensures exists rows: seq<Snapshot> ::
              && Emitted(rows) && NoTies(rows, asset) && |rows| == 2
              && Replay(rows, asset).rewardPool == Some(70)
              && MayAnswer(rows, asset, REWARD_POOL, Some(100)) && !MayAnswer(rows, asset, REWARD_POOL, Some(70))
  {
    var none := Columns(None, None, None, None, None);
    var first := Snapshot(EventKey([1], 1), 5, asset, none.(rewardPool := Some(100)));
    var second := Snapshot(EventKey([2], 0), 5, asset, none.(rewardPool := Some(70)));
    var rows := [first, second];
    assert rows[..1] == [first] && [first][..0] == [];
    assert first in rows && second in rows && forall r :: r in rows ==> r == first || r == second;
    assert MayPick(rows, asset, REWARD_POOL, first);
  }
}
