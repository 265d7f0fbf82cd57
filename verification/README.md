# A verified model of the Gally indexer and its simulation bot

This project models the two Rust programs of the repository that carry state across failures, and proves
what their users rely on. `dafny verify dfyconfig.toml` checks everything.

**The event projection** (`Backend Indexer`). Five append-only module logs are read in pages of fifty with
one in-memory cursor each; every event is archived and routed to a handler that issues SQL statements one by
one; a process may stop between any two statements, and a restart forgets the cursors, keeps the tables and
reads every module from genesis. `SqlStore`, `Projection`, `Convergence`, `Events`, `Handlers`, `Ingestion`
and `Incarnations` define this machine and a reference projection that knows nothing of failures, and prove
when the tables equal it; `Restarts` runs the machine process after process and says what readers see during a
re-read, `MergeOrder` says what the order of merging decides, `Backfills` when one pass over the logs is enough,
`SurrogateIds` when the ids of a table follow the chain, and `Lives` has the smallest logs that tell orders apart.
`TableContents` says what the reference means, table by table and column by column, in terms of the chain's
events; `ServedLedger` and `ServedBalances` carry the result through to the holder ledger and the balances a
reader is served.

**The read side**: `Ledger` (two signed folds and the wrap-ratio series), `Balances` (latest non-null value
per column), `Paging` (keyset pages, also while rows are inserted), `Separated`, `Decimal` and `CursorCodec`
(the opaque cursor), `RateLimiter` (the token bucket), `ObjectCache` and `ChainTip` (the TTL caches under
interleaving).

**The bot** (`Live Simulation Bot`): `TokenPool` and `Seeder` (the entity-token pool and the lifecycle cache
across crashes), `GasPlan`, `Rng`, `WeightedSelect`, `Showcase` and `TrancheSchedule`.

Code that updates state in the source is a class or a loop here, each proved equal to a function of the old
state, and the properties are lemmas about those functions. Text is the sequence of its UTF-8 bytes, `u64`
arithmetic wraps where the source lets it, and the limiter's `f64` is `real`.

## Where the code does not do what is said of it

Each of these is a lemma below, with the exact condition or a concrete input.

- **One sweep may not be enough.** The tables reference `assets`, `validator_pools` and `disputes` by foreign
  keys (`Backend Indexer/src/db/migrations/002_governance_assets.sql:67` and others), so a row whose target has
  not been inserted is refused and its cursor moves on. A sweep therefore converges if and only if it is
  `Resolved`; the loop's own page order is so if and only if each creator's page comes first
  (`Backfills.BackfillConvergesIff`), and it need not: the fifty-first asset loses the rows of its first wrap
  (`Lives.LifeBackfillIff`). Two full sweeps suffice for texts that can be stored.
- **The order of merging the logs can change the tables** (`Lives.MergesDisagree`). What it changes is which rows
  arrive, never what a row holds (`MergeOrder.SweptRowsAreRight`): two merges agree if and only if they bring the
  same rows, which the order, the references and the texts tell in advance (`MergeOrder.ConfluenceIff`).
- **Surrogate ids need not be chronological**, as `Backend Indexer/src/db/queries.rs:1184-1187` has it of tranches.
  They are in the order of a log if and only if no process inserts a row that an earlier one has left out behind a
  later row of that log (`SurrogateIds.ChronologicalIff`), so always in a first life, and not always in a second
  (`SurrogateIds.FilledGapIsNotChronological`).
- **A user's text can keep an event out of the tables for good.** `utf8_opt`
  (`Backend Indexer/src/ingestion/event_types.rs:80`) passes the byte 0 on, which a Postgres `TEXT` refuses, and
  the chain checks only the length of such texts (`gally_core/sources/validator.move:137`). No number of sweeps
  then reaches the reference (`Convergence.UnstorableLeavesAGap`); without such a text two always do
  (`Incarnations.TwoIncarnationsConverge`, if and only if).
- **The idempotency key can collide.** `event_seq` is parsed as an `i32` with 0 as the fallback, so 0 and every
  number beyond 2^31 - 1 share a key within a transaction (`Incarnations.KeyCollisions`). This is a property of
  the parser only: that a transaction can emit so many events is not claimed.
- **A restart shows old states again** until the re-read reaches the last one, although the re-scan is called
  harmless (`Backend Indexer/src/ingestion/mod.rs:202-206`). It is so for a column if and only if every event that
  sets the column sets its final value (`Restarts.RereadIsHarmlessIff`); append-only rows never change.
  `Backend Indexer/README.md:48` speaks of one transaction per event and line 56 of resuming where it left off;
  the code commits each statement on its own and reads from genesis, and the model follows the code.
- **Balances can come from an older transaction.** All transactions of a checkpoint share its timestamp and each
  counts its events from zero, so `(timestamp_ms, event_seq)` is not the chain's order
  (`Balances.ReadsTheLastValueIff`, end to end `ServedBalances.LastReportIsServedIff`; `Balances.LaterTransactionLoses`).
- **The last claimed index can depend on the order of insertion**: of claims with equal timestamps the one with the
  highest surrogate id is served (`ServedLedger.IndexIsSureIff`).
- **The limiter reads its clock before it takes its lock**, so readings may go back, and then an eviction can show:
  exactly when a request reads earlier than the sweep that dropped its bucket and the bucket lacks a token at that
  reading (`RateLimiter.EvictionShowsIff`), which a run reaches for every table size
  (`RateLimiter.EvictionShowsWhenClocksGoBack`). The rate bound is proved for any readings.
- **Coin metadata that the source does not have is cached**, as a record of nulls (`ObjectCache.AbsenceIsCachedIff`),
  although the cache is documented to hold found reads only.
- **Health probes can ask the node more than once per `ttl`**, against the documentation: once per `ttl` holds if and
  only if after every ask a tip is kept before the next look (`ChainTip.OncePerTtlIff`). A probe that asks too
  early does so because an earlier request is still in flight or has failed (`ChainTip.AsksAgainOnlyIf`): a burst
  asks once for each probe (`ChainTip.BurstsAskEachTime`), and so does an outage, since failing replies are not
  kept (`ChainTip.OutagesAskEachTime`).
- **The gas throttle does not guarantee that funding cannot run dry** (`Live Simulation Bot/src/main.rs:118`): it
  counts the grants and not the gas of the payments. With payments of at most `f` gas, a pass never runs dry if and
  only if the balance holds a grant and `f` for every user but one, and a grant and the whole gas budget for that
  one (`GasPlan.NeverDryIff`); the throttle's promise holds at every balance if and only if the reserve holds the gas
  of the most payments it can plan (`GasPlan.ThrottleHoldsIff`): with the shipped budget, if and only if the gas of
  all payments but one stays within 0.15 SUI (`GasPlan.DefaultBudgetHoldsIff`).
- **A goal smaller than the number of investors funds nothing** when there are two or more of them
  (`Showcase.FundedNeverExceedsAndReachesIff`).

## Model

| member | source | states |
|---|---|---|
| `Convergence.SweepConverges` | Backend Indexer/src/ingestion/mod.rs:180-250 | after any history of partial, repeated and interrupted handler runs, a sweep of all logs ends in the reference projection if and only if every text can be stored and every referenced row was there or comes earlier in it |
| `Convergence.TwoSweepsConverge` | Backend Indexer/src/ingestion/mod.rs:199-250 | two full sweeps end in the reference, whatever happened before, between them, and however each merges the logs, if and only if every text in the logs can be stored |
| `Convergence.Confluence` | Backend Indexer/src/ingestion/mod.rs:31-172 | with one merge of the five logs that resolves, another one, from any other past, gives the same tables if and only if it resolves too |
| `MergeOrder.RunReachesUpdates` | Backend Indexer/src/ingestion/mod.rs:188-193 | whatever a handler is refused, it has made by then every update of a row that was there |
| `MergeOrder.SweptRowsAreRight` | Backend Indexer/src/ingestion/mod.rs:180-250 | after any complete sweep, resolved or not, from tables that any runs can have left, each row there is the reference row |
| `MergeOrder.ReplayKeys` | Backend Indexer/src/db/queries.rs:98-323 | which rows a history of partial runs leaves is a fold over its statements' keys, references and texts |
| `MergeOrder.SweepKeys` | Backend Indexer/src/db/queries.rs:98-323 | and so for a complete sweep |
| `MergeOrder.ConfluenceIff` | Backend Indexer/src/ingestion/mod.rs:31-172 | any two merges of the five logs, from any two pasts, give the same tables if and only if those folds over their orders bring the same rows |
| `Convergence.ProjectionIsUnique` | Backend Indexer/src/db/queries.rs:168-323 | the reference projection does not depend on how the logs are merged |
| `Convergence.EveryHistoryIsSound` | Backend Indexer/src/db/queries.rs:168-323 | after every history each stored row was inserted by its writer's event, and each mutable column holds its initial value or one that some update of that row wrote |
| `Convergence.OldRowAfter` | Backend Indexer/src/db/queries.rs:264-323 | replaying statements over a row keeps its source and leaves its columns at their last writers |
| `Convergence.LastWriterWins` | Backend Indexer/src/db/queries.rs:264-307 | a column ends at the value of the last update that writes it |
| `Convergence.SweepIsCausal` | Backend Indexer/src/ingestion/mod.rs:226-250 | every merge that keeps each log's order inserts an entity row before it updates it |
| `Convergence.SweepInsertsRoots` | Backend Indexer/src/db/queries.rs:168-200 | assets and pools whose texts can be stored are never refused, so one healthy sweep puts all of them in place |
| `Convergence.UnstorableLeavesAGap` | Backend Indexer/src/ingestion/event_types.rs:76-86 | no database that statements of the logs can produce equals the reference when a text in the logs holds the byte 0 |
| `SqlStore.ProgressStops` | Backend Indexer/src/ingestion/mod.rs:188-193 | a handler's effect is a prefix of its statements, cut at a crash or at the first statement that the database refuses |
| `Handlers.HandlersAreShaped` | Backend Indexer/src/ingestion/mod.rs:45-172 | every statement of every handler is an insert of the event's own data or an update of a row that the event's module owns |
| `Handlers.OneInsertPerRow` | Backend Indexer/src/ingestion/handlers/asset.rs:23-92 | no handler inserts one row twice |
| `Handlers.EventsHaveUniqueWriters` | Backend Indexer/src/db/queries.rs:98-115 | with identifying keys and fresh ids, no two events insert the same row |
| `Handlers.EventsAreCausal` | Backend Indexer/src/db/queries.rs:1029-1100 | what an event updates or votes on was created earlier in its own log, and every asset or pool it references is created in some log |
| `Handlers.UpdatesAreReached` | Backend Indexer/src/ingestion/handlers/asset.rs:23-92 | what a handler inserts before an update can be stored and references no other row than the updated one |
| `Handlers.ChainEventsAreChainLogs` | Backend Indexer/src/ingestion/mod.rs:41-172 | what the chain guarantees about events implies, for the handlers as written, all that the convergence proofs ask |
| `Handlers.CleanIsStorable` | Backend Indexer/src/ingestion/event_types.rs:76-86 | the statements of an event can be stored if and only if none of the user's words in it holds the byte 0, a description without a tranche excepted |
| `Handlers.CleanLogsAreStorable` | Backend Indexer/src/ingestion/event_types.rs:76-86 | and so for whole logs |
| `Ingestion.Indexer.constructor` | Backend Indexer/src/ingestion/mod.rs:208-224 | empty tables, every cursor at genesis |
| `Ingestion.Indexer.Restart` | Backend Indexer/src/ingestion/mod.rs:199-224 | the tables and the saved cursor survive, every module starts from genesis |
| `Ingestion.Indexer.ProcessEvent` | Backend Indexer/src/ingestion/mod.rs:180-197 | archives, then routes; the effect is the longest accepted prefix of its statements up to the crash, and only a failed archive reaches the loop |
| `Ingestion.Indexer.RunHandler` | Backend Indexer/src/ingestion/mod.rs:188-193 | statement by statement, equal to the specified partial run |
| `Ingestion.Indexer.Execute` | Backend Indexer/src/db/queries.rs:98-323 | one statement: insert if absent, refused on a missing reference or a text with the byte 0, or last-write-wins update |
| `Ingestion.Indexer.ProcessPage` | Backend Indexer/src/ingestion/mod.rs:232-237 | the page's events each once and in order, as far as the environment's cuts let them, or a prefix of them when the process stops; it survives iff every archive succeeds |
| `Ingestion.Indexer.SaveCursor` | Backend Indexer/src/ingestion/mod.rs:238-242 | the module's cursor stands after the last event of the page |
| `Ingestion.Indexer.PollModule` | Backend Indexer/src/ingestion/mod.rs:227-246 | a poll that succeeds processes exactly the next min(50, backlog) events of its module, each up to its cut, a poll that fails changes nothing, other cursors stay; a process that stops in it leaves a prefix of each log |
| `Ingestion.Indexer.Run` | Backend Indexer/src/ingestion/mod.rs:223-250 | whatever polls fail and wherever the process stops, the events processed for each module are a prefix of its log, each once and in order; a surviving process has processed exactly what its environment determines, cut by cut, up to its cursors; with healthy polls that is the round-robin backfill |
| `Ingestion.PollSurvivesIff` | Backend Indexer/src/ingestion/mod.rs:180-247 | a process ends in a poll only when an event of its page, the at most fifty next visible ones, is not even archived, or the cursor of a page with events is not saved; refused handlers and an unreachable node do not end it |
| `Ingestion.CutPageIsPartial` | Backend Indexer/src/ingestion/mod.rs:232-237 | a page cut short anywhere extends one module's prefix and no other's |
| `Ingestion.BacklogShrinks` | Backend Indexer/src/ingestion/mod.rs:33-34 | a successful poll of a backlog b leaves max(0, b - 50) |
| `Ingestion.AfterOwnId` | Backend Indexer/src/ingestion/mod.rs:228-241 | resuming after an event's id continues with the very next event |
| `Ingestion.RunSomeCons` | Backend Indexer/src/ingestion/mod.rs:180-193 | archiving first and then running the handler is one partial run of the whole list |
| `Incarnations.IncarnationConverges` | Backend Indexer/src/ingestion/mod.rs:199-250 | an incarnation that read all logs with every handler complete leaves the reference tables if and only if its own order was resolved |
| `Incarnations.TwoIncarnationsConverge` | Backend Indexer/src/ingestion/mod.rs:199-250 | exactly-once effect: two such incarnations, with any crashes and partial runs before and between, leave the reference tables if and only if no user's words hold the byte 0 |
| `Backfills.BackfillSelects` | Backend Indexer/src/ingestion/mod.rs:226-241 | after any number of healthy polls each module has contributed its first 50 times its rounds events |
| `Backfills.DeliveredBy` | Backend Indexer/src/ingestion/mod.rs:226-241 | an event at position i of a log is delivered by then iff the poll of its page, every fifth one being its module's, has come |
| `Backfills.BackfillConvergesIff` | Backend Indexer/src/ingestion/mod.rs:226-247 | one healthy pass over the whole logs from empty tables leaves the reference if and only if the texts can be stored and every asset and pool is created at a place the loop reaches before any reference to it |
| `Backfills.HealthyLifeConvergesIff` | Backend Indexer/src/ingestion/mod.rs:180-247 | the same for the tables of a process that has gone through such a pass with every handler complete |
| `Backfills.BackfillLosesRows` | Backend Indexer/src/ingestion/mod.rs:226-247 | if the first accumulator page refers to an asset created after the first asset page, the pass ends short of the reference |
| `Lives.LifeIsOnChain` | gally_core/sources/asset.move:602-859 | the logs of one asset's life up to its first wrap, after any number of other listings, satisfy all that the chain guarantees |
| `Lives.LifeBackfillIff` | Backend Indexer/src/ingestion/mod.rs:226-247 | one healthy pass over such a life leaves the reference if and only if fewer than fifty assets are listed before |
| `Lives.MergesDisagree` | Backend Indexer/src/ingestion/mod.rs:226-250 | two merges of the same logs that leave different tables: the loop's own, and one that reads the wrap first |
| `Restarts.Live` | Backend Indexer/src/ingestion/mod.rs:180-250 | the machine from empty tables through any number of processes, each ended by its environment or not: when the last one is complete and an earlier one was, the tables are the reference if and only if no user's words hold the byte 0 |
| `Restarts.TwoFullLives` | Backend Indexer/src/ingestion/mod.rs:199-250 | the same for any list of partial sweeps that has two full ones, one of them last |
| `Restarts.ColumnDuringReread` | Backend Indexer/src/db/queries.rs:264-323 | while settled tables are re-read, a mutable column shows the last value that the part of its own log read so far gives it, or its final value if that part gives none |
| `Restarts.RereadIsHarmlessIff` | Backend Indexer/src/ingestion/mod.rs:199-224 | no point of a whole re-read shows another value of a column, if and only if every event that sets the column sets its final value |
| `SurrogateIds.ChronologicalIff` | Backend Indexer/src/db/queries.rs:1184-1212 | over any number of processes that stop anywhere and are refused anything, the ids of a table ascend in the order of a log if and only if no process inserts a row that an earlier one left out behind a later row of the log |
| `SurrogateIds.FirstLifeIsChronological` | Backend Indexer/src/db/queries.rs:1184-1187 | the ids that a first process gives out follow every log |
| `SurrogateIds.FilledGapIsNotChronological` | Backend Indexer/src/db/queries.rs:1184-1187 | two processes, of which the first one's database fails on one statement, after which the earlier of two state changes has the higher id |
| `SurrogateIds.ArrivalsDoNotCross` | Backend Indexer/src/db/migrations/004_yield_tranches_disputes.sql:39-39 | of two rows at most one arrives before the other |
| `Incarnations.AppendOnlyRowsStay` | Backend Indexer/src/db/queries.rs:98-115 | an append-only row never changes once written, whatever is replayed |
| `Incarnations.RestartRewindsState` | Backend Indexer/src/db/queries.rs:275-323 | an instance: replaying an old state change sets the asset back to that state and touches nothing else of it |
| `Incarnations.KeyCollisions` | Backend Indexer/src/ingestion/handlers/mod.rs:29-40 | two event ids of a transaction parse to one key if and only if both sequence numbers are 0 or beyond an i32 |
| `Incarnations.CollidingEventIsNotArchived` | Backend Indexer/src/ingestion/mod.rs:253-277 | the second event under a key leaves no trace in the archive |
| `Events.TimestampIff` | Backend Indexer/src/ingestion/handlers/mod.rs:29-40 | a timestamp that prints an i64 is that number; any other, and a missing one, is 0 |
| `TableContents.EventTables` | Backend Indexer/src/ingestion/mod.rs:45-172 | each of the thirteen append-only tables of the reference has exactly one row for each event that is documented to go there, under the event's key |
| `TableContents.EntityTables` | Backend Indexer/src/db/queries.rs:165-222 | assets, pools, disputes and declared tranches are exactly those that some event created |
| `TableContents.MutableColumns` | Backend Indexer/src/db/queries.rs:165-323 | a row has exactly the mutable columns of its kind; each holds the last value that its module's log gives it, and when no event sets it a state or status is 0 and everything else NULL |
| `TableContents.RecordedStatement` | Backend Indexer/src/db/migrations/004_yield_tranches_disputes.sql:19-124 | every append-only insert goes to a table documented for the event and references exactly what that table's foreign keys name |
| `TableContents.JobUpdates` | Backend Indexer/src/db/queries.rs:264-307 | what one handler does to a column is what its event sets, for assets, pools and disputes |
| `TableContents.HandlersWriteInOrder` | Backend Indexer/src/ingestion/mod.rs:45-172 | every event is archived first, and then each handler makes its documented writes in this order, so that a cut between two statements leaves the earlier ones |
| `ServedBalances.RowsAreReports` | Backend Indexer/src/ingestion/handlers/yield_index.rs:22-139 | the balance table has a row for each reporting event and for nothing else |
| `ServedBalances.ColumnsHoldFields` | Backend Indexer/src/ingestion/handlers/yield_index.rs:49-139 | which events fill which column of the balance table, with which of their fields as signed 64-bit values |
| `ServedBalances.LatestIsServed` | Backend Indexer/src/ingestion/handlers/yield_index.rs:22-139 | after any history and a resolved sweep, the balances query may answer exactly this: for each of the five balances the field of a report in the chain that has it and that no other such report follows in time and event number, and nothing where no event has the field |
| `ServedBalances.BalancesAreReplayed` | Backend Indexer/src/db/queries.rs:1326-1387 | the same query has exactly one answer, the replay of the chain's own reports and so the latest ones, when no two reports about the asset share timestamp and event number |
| `ServedBalances.LastReportIsServedIff` | Backend Indexer/src/db/queries.rs:1357-1387 | after any history and a resolved sweep, and for chain reports in the order of emission: a balance as served is sure to be the field last reported iff every report of that timestamp with the highest event number there reported the same |
| `ServedLedger.FoldOfSame` | Backend Indexer/src/db/queries.rs:772-798 | a fold over distinct events does not depend on the order rows are stored in |
| `ServedLedger.RowOfEvent` | Backend Indexer/src/ingestion/handlers/position.rs:36-135 | every field of the row that each kind of position event becomes |
| `ServedLedger.LedgerCountsEachEventOnce` | Backend Indexer/src/db/queries.rs:859-896 | after any history and a resolved sweep, for every holder served from the tables, each event of the chain counted once: holding is what its events claimed less what they redeemed, wrapped what they wrapped less what they unwrapped, shares what they claimed and unwrapped less what they wrapped and redeemed, and it is listed iff it holds something; the acquisition time is the chain's first one, and the claimed index is that of a latest claim, sure to be x iff all latest claims carry x; whatever the rows' order and surrogate ids |
| `ServedLedger.SeriesIsTheChains` | Backend Indexer/src/db/queries.rs:1155-1181 | after any history and a resolved sweep the wrap-ratio series has one point for each wrap and unwrap of the asset on the chain, with the total it reported, no other points, and ascends by time and surrogate id |
| `ServedLedger.IndexIsSureIff` | Backend Indexer/src/db/queries.rs:877-878 | over all insertion orders the claimed index is x if and only if every claim with the latest timestamp carries x and there is one |
| `Ledger.LedgersAgree` | Backend Indexer/src/db/queries.rs:772-896 | a pair of actor and asset is in `list_holders` iff it is in `list_address_holdings`, and iff its holding is positive, with equal figures, and holding is shares plus wrapped |
| `Ledger.HoldingIsSharesPlusWrapped` | Backend Indexer/src/db/queries.rs:855-881 | the three signed folds of any rows satisfy holding = shares + wrapped |
| `Ledger.SameGroup` | Backend Indexer/src/db/queries.rs:772-881 | both queries fold the same rows for a pair, and see the group iff it has a row |
| `Ledger.GroupsAddUp` | Backend Indexer/src/db/queries.rs:859-881 | a column summed group by group is the column summed over the table |
| `Ledger.FiguresByKind` | Backend Indexer/src/db/queries.rs:868-875 | holding is claimed minus redeemed, wrapped is wrapped minus unwrapped, shares are claimed and unwrapped minus wrapped and redeemed |
| `Ledger.NullsCountNothing` | Backend Indexer/src/db/queries.rs:868-875 | rows whose amount is NULL count nothing in any figure |
| `Ledger.HoldingsAreConserved` | Backend Indexer/src/db/queries.rs:859-881 | holdings over all actors are claimed minus redeemed; the listed ones alone are so iff nobody redeemed more than claimed |
| `Ledger.WrapSeriesAscends` | Backend Indexer/src/db/queries.rs:1155-1181 | the series has exactly the asset's wrap and unwrap rows, and ascends by time and, where times tie, by id |
| `Ledger.WrappedMatchesSeries` | Backend Indexer/src/db/queries.rs:1159-1181 | when `total_wrapped_after` is a running tally, the wrapped column over all actors is the last point of the series |
| `Ledger.TallyIsSum` | Backend Indexer/src/db/queries.rs:1155-1181 | a running tally ends at the sum of what its rows wrap |
| `Ledger.LatestClaimIsLast` | Backend Indexer/src/db/queries.rs:877-878 | the claimed index comes from a yield claim that no other follows, and is missing iff there is none |
| `Ledger.AcquiredAtIsFirst` | Backend Indexer/src/db/queries.rs:876-876 | the acquisition time is the earliest claim or unwrap, and is missing iff there is none |
| `Ledger.HoldersAcquired` | Backend Indexer/src/db/queries.rs:876-881 | whoever holds something has an acquisition time |
| `Balances.QueryIsReplay` | Backend Indexer/src/db/queries.rs:1357-1387 | without equal `(timestamp_ms, event_seq)` the five subqueries have one answer, the record that replaying the rows in that order leaves |
| `Balances.AnswerIsUnique` | Backend Indexer/src/db/queries.rs:1366-1387 | without ties each column has one answer |
| `Balances.InsertionOrderIsInvisible` | Backend Indexer/src/db/queries.rs:1357-1361 | what a subquery may answer depends on which rows there are, not on the order they were inserted in |
| `Balances.SortOrders` | Backend Indexer/src/db/queries.rs:1371-1371 | the replay order has exactly the rows and never goes back |
| `Balances.ReadsTheLastWriterIff` | Backend Indexer/src/db/queries.rs:1357-1387 | the row a column is read from is sure to be its last writer iff no earlier report of the same timestamp has an event number as high |
| `Balances.ReadsTheLastValueIff` | Backend Indexer/src/db/queries.rs:1357-1387 | the value of a column is sure to be what the chain wrote last iff every report of that timestamp with the highest event number there carries it |
| `Balances.LaterTransactionLoses` | Backend Indexer/src/db/queries.rs:1357-1387 | two transactions of one checkpoint for which the older balance is served |
| `Paging.FromOverfetch` | Backend Indexer/src/api/extractors.rs:34-52 | the over-fetch is cut to the limit and the cursor is the last kept row's key, iff a row was left over |
| `Paging.ClampLimit` | Backend Indexer/src/api/extractors.rs:15-18 | 20 for none, 1 below 1, 100 above 100, and the requested size when it is legal |
| `Paging.KeysetOrdersAreTotal` | Backend Indexer/src/db/queries.rs:881-896 | time-then-id and holding-descending-address-ascending are total orders: earlier times and larger holdings first, ties by id or address |
| `Paging.PageIsNextStretch` | Backend Indexer/src/db/queries.rs:379-403 | a page is ascending, lies beyond the cursor, and skips no eligible row before its next cursor |
| `Paging.NoRowTwice` | Backend Indexer/src/db/queries.rs:736-748 | whatever happens to the table between requests, a client sees strictly ascending keys and only rows some request found |
| `Paging.NoRowMissed` | Backend Indexer/src/db/queries.rs:736-748 | a client that reaches the end has every row that was there at each of its requests |
| `Paging.PagingUnderInserts` | Backend Indexer/src/db/queries.rs:379-403 | while rows are only added, following the cursors returns every row of the start exactly once, in key order |
| `Paging.Pages` | Backend Indexer/src/api/extractors.rs:33-52 | the number of pages is the rows divided by the limit, rounded up, and 1 for none |
| `Paging.FixedTable` | Backend Indexer/src/db/queries.rs:881-896 | on a fixed table the cursors enumerate exactly the sorted table, in that many pages |
| `Separated.SplitJoin` | Backend Indexer/src/api/extractors.rs:58-79 | splitting at the separator undoes joining parts free of it |
| `Separated.JoinSplit` | Backend Indexer/src/api/extractors.rs:58-79 | joining undoes splitting, for every text |
| `CursorCodec.EncodeBytes` | Backend Indexer/src/ingestion/event_types.rs:656-664 | the loop writes the two hex digits of each byte |
| `CursorCodec.DecodeEncode` | Backend Indexer/src/api/extractors.rs:65-77 | hex decoding undoes hex encoding |
| `CursorCodec.EncodeDecode` | Backend Indexer/src/api/extractors.rs:65-77 | an accepted hex text re-encodes to its lower-case form |
| `CursorCodec.HexDecodeIff` | Backend Indexer/src/api/extractors.rs:65-77 | hex is accepted iff it is an even number of digits, of either case |
| `CursorCodec.DecodeToken` | Backend Indexer/src/api/extractors.rs:65-80 | the loop decodes exactly the specified tokens and rejects odd lengths, foreign digits and invalid UTF-8 |
| `CursorCodec.TokenBytes` | Backend Indexer/src/api/extractors.rs:58-61 | a token is the hex of its parts with U+001F between them |
| `CursorCodec.ValidUtf8Iff` | Backend Indexer/src/api/extractors.rs:78-79 | the accepted byte strings are exactly the UTF-8 encodings of sequences of Unicode scalar values |
| `CursorCodec.CursorRoundTrip` | Backend Indexer/src/api/extractors.rs:58-80 | decoding an encoded list returns it iff the list is not empty and no part has U+001F |
| `CursorCodec.AcceptedTokens` | Backend Indexer/src/api/extractors.rs:65-80 | every accepted token re-encodes to its lower-case form, and its parts are free of U+001F |
| `CursorCodec.RoundTripII` | Backend Indexer/src/api/extractors.rs:88-98 | `(i64, i64)` cursors survive printing and parsing |
| `CursorCodec.RoundTripIS` | Backend Indexer/src/api/extractors.rs:100-107 | `(i64, String)` cursors survive iff the text has no U+001F |
| `CursorCodec.RoundTripISI` | Backend Indexer/src/api/extractors.rs:109-121 | `(i64, String, i64)` cursors survive iff the text has no U+001F |
| `Decimal.ParsePrint` | Backend Indexer/src/api/extractors.rs:89-98 | parsing undoes printing for every value of the integer type and refuses every other integer; the printed form has a sign for negatives only and no leading zero |
| `Decimal.ParseIff` | Backend Indexer/src/api/extractors.rs:89-98 | a text parses iff it is decimal digits, most significant first, behind one sign or none, of a value in the type's range |
| `RateLimiter.RateLimiter.constructor` | Backend Indexer/src/api/limit.rs:80-86 | the burst is at least one, 100,000 IPs are tracked before any is dropped, and none is known |
| `RateLimiter.RateLimiter.Allow` | Backend Indexer/src/api/limit.rs:90-120 | sweep, refill and spend in place, equal to the specified answer and table |
| `RateLimiter.NoRateNoLimit` | Backend Indexer/src/api/limit.rs:90-96 | without a positive rate every request of every run is allowed and no IP is tracked |
| `RateLimiter.EvictionIsInvisible` | Backend Indexer/src/api/limit.rs:97-105 | for ascending readings and every table threshold, dropping refilled buckets changes no answer |
| `RateLimiter.EvictionShowsIff` | Backend Indexer/src/api/limit.rs:94-105 | for whole runs with any readings: while every request so far read no earlier than the sweep that dropped its bucket, the next answer differs from that without eviction iff its bucket is dropped and lacks a token at its reading |
| `RateLimiter.SweepShowsIff` | Backend Indexer/src/api/limit.rs:94-105 | when a sweep at a late reading drops a bucket, a request at another reading is answered differently than without the sweep if and only if the bucket lacks a token at that reading, which is then an earlier one |
| `RateLimiter.EvictionShowsWhenClocksGoBack` | Backend Indexer/src/api/limit.rs:94-105 | for every table size there is a run from the empty table whose last request is allowed and would be denied without eviction |
| `RateLimiter.AnswersAreIsolated` | Backend Indexer/src/api/limit.rs:90-120 | an IP's answers are those of a limiter of any table size that never hears of the other IPs |
| `RateLimiter.TokensStayInRange` | Backend Indexer/src/api/limit.rs:107-116 | every bucket always holds at least 0 tokens and less than the burst |
| `RateLimiter.RateBound` | Backend Indexer/src/api/limit.rs:90-120 | requests allowed from one IP in any stretch never exceed burst + rate times the rise of the readings, which is the elapsed time when they ascend |
| `RateLimiter.PatientClientsAreServed` | Backend Indexer/src/api/limit.rs:107-116 | a request at least 1/rate after the IP's previous one is always allowed |
| `ObjectCache.ObjectProxy.Cached` | Backend Indexer/src/sui_client/mod.rs:220-231 | a live entry, or nothing and the entry is gone; the lookup that every run's steps make |
| `ObjectCache.ObjectProxy.Store` | Backend Indexer/src/sui_client/mod.rs:233-238 | replaces the entry under the key, stamped with the reading at the store; the store that every run's steps make |
| `ObjectCache.LookupHitsIff` | Backend Indexer/src/sui_client/mod.rs:220-231 | a lookup hits iff the entry is younger than `ttl`, and drops it otherwise and nothing else |
| `ObjectCache.LookServesIff` | Backend Indexer/src/sui_client/mod.rs:220-294 | a request is served from the cache iff the entry is younger than `ttl`, and otherwise drops it and asks the source |
| `ObjectCache.FreshIsServed` | Backend Indexer/src/sui_client/mod.rs:240-296 | a new request whose object or legal docs are cached is answered from the cache alone, and so is one for metadata when both its accumulator and the metadata are |
| `ObjectCache.StepKeeps` | Backend Indexer/src/sui_client/mod.rs:240-308 | every step of every request keeps: entries are the last stored and come from the source, requests work on what they were asked for, the log is justified |
| `ObjectCache.ServedIsFresh` | Backend Indexer/src/sui_client/mod.rs:220-308 | in every interleaving, what is served from the cache is the last value stored for that kind and id, stored less than `ttl` before the reading, and given by the source before that |
| `ObjectCache.AnswersComeFromTheSource` | Backend Indexer/src/sui_client/mod.rs:240-308 | in every interleaving: what is found is backed by a reply for the thing asked for, an object with a non-null `data` reshaped member by member, and metadata by that of its accumulator's coin type; not found directly follows a reply that is no such object, or an accumulator without a coin type; failed directly follows an error |
| `ObjectCache.OneAnswerForEachRequest` | Backend Indexer/src/sui_client/mod.rs:240-308 | in every interleaving there are as many answers as finished requests |
| `ObjectCache.ReplyDecides` | Backend Indexer/src/sui_client/mod.rs:240-275 | the reply to a request for an object or for legal docs decides it, whatever other requests do: if it is no object with a non-null `data`, the request is answered as not found at once and stores nothing; otherwise what it is worth is stored and answered |
| `ObjectCache.StoredWasFound` | Backend Indexer/src/sui_client/mod.rs:248-275 | what is stored as an object is a reply with a non-null `data`, and what is stored as legal docs is such a reply reshaped |
| `ObjectCache.AbsenceIsCachedIff` | Backend Indexer/src/sui_client/mod.rs:240-308 | a fetch that found nothing, for coin metadata no member of it, goes on to store something iff it is for coin metadata, and then nulls; a failed one never |
| `ObjectCache.MissingMetadataIsServed` | Backend Indexer/src/sui_client/mod.rs:294-307 | a null metadata reply is stored and served to other requests while it lives |
| `ObjectCache.KeysDoNotCollide` | Backend Indexer/src/sui_client/mod.rs:242-294 | keys are equal iff kind and id are |
| `ObjectCache.KeysAreSpelled` | Backend Indexer/src/sui_client/mod.rs:242-294 | the cache keys as they are spelled |
| `ObjectCache.TypeParamOf` | Backend Indexer/src/sui_client/mod.rs:349-355 | the type parameter of a generic type string is found whole, however nested |
| `ObjectCache.TypeParamIff` | Backend Indexer/src/sui_client/mod.rs:349-355 | a type parameter is found iff it stands, not empty, between the first opening and the last closing bracket |
| `ObjectCache.ExtractWalrusRefs` | Backend Indexer/src/sui_client/mod.rs:357-376 | one reshaped reference for each element, in order |
| `ObjectCache.RefsAreReshaped` | Backend Indexer/src/sui_client/mod.rs:357-390 | the legal docs of a reply are, and no other value is, one reference for each element at `data.content.fields.value`: the hashes as text or as the lower-case hex of their bytes, the attestor as it is, null for what is missing |
| `ObjectCache.LowByteOf` | Backend Indexer/src/sui_client/mod.rs:378-390 | an element gives its low byte if it is an unsigned 64-bit number, and nothing otherwise |
| `ObjectCache.CoinIsReshaped` | Backend Indexer/src/sui_client/mod.rs:294-307 | the metadata of a reply is, and no other value is, symbol, name and decimals under their own names, from `data` or the top, null for what is missing |
| `ChainTip.TipCache.Peek` | Backend Indexer/src/sui_client/mod.rs:331-336 | the cached tip while it is fresh; the lookup that every run's probes make |
| `ChainTip.TipCache.Store` | Backend Indexer/src/sui_client/mod.rs:337-339 | replaces the tip, stamped with the reading at the store; the store that every run's probes make |
| `ChainTip.TipsAreReportedAndFresh` | Backend Indexer/src/sui_client/mod.rs:329-340 | in every interleaving: returned tips were reported, a cached one is the last kept and younger than `ttl`, the node is asked only when none is fresh, and failures are not kept |
| `ChainTip.OneAnswerForEachProbe` | Backend Indexer/src/sui_client/mod.rs:329-340 | in every interleaving there are as many answers, tips or failures, as finished probes |
| `ChainTip.AsksAgainIff` | Backend Indexer/src/sui_client/mod.rs:329-340 | with ascending readings, a look less than `ttl` after an ask asks again iff nothing was kept between the two |
| `ChainTip.OncePerTtlIff` | Backend Indexer/src/sui_client/mod.rs:311-340 | in every run with ascending readings, any two asks are at least `ttl` apart if and only if after every ask a tip is kept before any look within `ttl` |
| `ChainTip.AsksAgainOnlyIf` | Backend Indexer/src/sui_client/mod.rs:329-340 | a probe asks less than `ttl` after another one only if that one's request is still in flight or has failed |
| `ChainTip.BurstsAskEachTime` | Backend Indexer/src/sui_client/mod.rs:311-340 | n probes that look before the first reply ask the node n times |
| `ChainTip.OutagesAskEachTime` | Backend Indexer/src/sui_client/mod.rs:327-336 | n probes one after the other against an unreachable node ask n times |
| `ChainTip.LastStoreDecides` | Backend Indexer/src/sui_client/mod.rs:337-339 | of two overlapping fetches the one stored last is served next, whichever is newer |
| `Rng.Generator.NextU64` | Live Simulation Bot/src/rng.rs:34-42 | updates the state by the three xor-shifts and returns the wrapped product |
| `Rng.Generator.Below` | Live Simulation Bot/src/rng.rs:44-51 | a draw below n, and 0 without a draw for n = 0 |
| `Rng.Generator.PickIndex` | Live Simulation Bot/src/rng.rs:53-60 | a valid index, or none for an empty slice |
| `Rng.MixesAreInjective` | Live Simulation Bot/src/rng.rs:37-39 | each xor-shift loses nothing |
| `Rng.NextStateIsInjective` | Live Simulation Bot/src/rng.rs:35-40 | the update is injective on 64-bit words |
| `Rng.UpdateIsLinear` | Live Simulation Bot/src/rng.rs:35-40 | the update of a sum of states is the sum of their updates, so single bits determine it |
| `Rng.KnownDraws` | Live Simulation Bot/src/rng.rs:17-42 | where the lowest, a middle and the highest bit go, the first draw from seed 1, and what seed 0 stands for |
| `Rng.OutputIsInjective` | Live Simulation Bot/src/rng.rs:41-41 | the odd multiplier is invertible, so the drawn word determines the state |
| `Rng.StateIsNeverZero` | Live Simulation Bot/src/rng.rs:17-42 | from any seed no draw reaches state 0 |
| `Rng.NoDrawIsZero` | Live Simulation Bot/src/rng.rs:17-42 | from any seed, zero included, no draw returns 0 |
| `Rng.DrawsRepeatFromTheSeed` | Live Simulation Bot/src/rng.rs:17-42 | if two draws agree, the whole sequence repeats from its start with their distance |
| `WeightedSelect.SelectRoll` | Live Simulation Bot/src/action.rs:132-140 | the subtract-and-compare loop finds the entry whose stretch holds the roll |
| `WeightedSelect.Select` | Live Simulation Bot/src/action.rs:129-141 | one draw, and never the fallback |
| `WeightedSelect.AlwaysChosen` | Live Simulation Bot/src/action.rs:133-140 | for every table, the loop ends inside it iff the roll is below the total |
| `WeightedSelect.RollsAreShares` | Live Simulation Bot/src/action.rs:129-141 | for every table, an action is chosen by exactly as many rolls as its entries weigh together |
| `WeightedSelect.ExactWeights` | Live Simulation Bot/src/action.rs:109-141 | with distinct actions, exactly `weight(a)` rolls choose `a` |
| `WeightedSelect.EveryActionComesUp` | Live Simulation Bot/src/action.rs:86-106 | in the shipped table every action is chosen by as many of the sixty rolls as it is listed with |
| `WeightedSelect.SixtyInAll` | Live Simulation Bot/src/action.rs:89-106 | the shipped weights add up to 60 |
| `TokenPool.NoTokenTwice` | Live Simulation Bot/src/daemon.rs:845-852 | over any processes that stop anywhere, with failing and torn saves and tokens published in between, no token is passed to two finalize calls |
| `TokenPool.LiveState.Take` | Live Simulation Bot/src/sim_state.rs:91-99 | the next unused token and the cursor one further, or nothing and no change |
| `TokenPool.StepKeeps` | Live Simulation Bot/src/sim_state.rs:79-99 | every step keeps: nothing that file or memory would still hand out has been handed out, nor is it being held |
| `TokenPool.TokensAreAccounted` | Live Simulation Bot/src/lifecycle.rs:446-452 | without torn writes the saved cursor counts the handed tokens and at most one more for each stop or failed save |
| `TokenPool.RecordsAreKept` | Live Simulation Bot/src/lifecycle.rs:430-444 | a lifecycle record once on file is there, unchanged, at every later time |
| `TokenPool.StartReadsTheFile` | Live Simulation Bot/src/sim_state.rs:79-99 | a process starts with what the file holds, or from an empty state if it cannot be read, and by no other step |
| `TokenPool.SaveWritesTheFile` | Live Simulation Bot/src/sim_state.rs:79-99 | a save puts the process's state on file, a failed one that, the old text or a torn one, and nothing else a running process does touches the file |
| `Seeder.Process.NextToken` | Live Simulation Bot/src/lifecycle.rs:446-452 | the next unused token, with the advanced cursor on file before it is returned |
| `Seeder.Process.EnsureSlot` | Live Simulation Bot/src/lifecycle.rs:525-574 | a recorded slot is left alone; a missing one is recorded and saved, using and recording one token iff it is finalized, with the asset and capability that its first transaction created and the accumulator that the finalizing one did |
| `Seeder.Process.RegisterValidators` | Live Simulation Bot/src/lifecycle.rs:161-186 | appends the pools its transactions create until there are exactly k, each one saved; nothing when there are as many |
| `Seeder.Process.TimeWarp` | Live Simulation Bot/src/lifecycle.rs:119-159 | sets and saves its mark once, after three transactions |
| `Seeder.Process.SeedSlots` | Live Simulation Bot/src/lifecycle.rs:495-643 | all slots recorded, earlier records unchanged, one token for each finalized slot that was missing, in plan order |
| `Seeder.Process.Seed` | Live Simulation Bot/src/lifecycle.rs:477-655 | on a complete state nothing at all happens; a run that succeeds leaves a complete state on file and has handed out exactly the tokens the missing slots needed |
| `Seeder.FiveNeedTokens` | Live Simulation Bot/src/lifecycle.rs:59-61 | the tokens that a state needs are one for each of the five finalized slots it misses |
| `Seeder.TokensInPlanOrder` | Live Simulation Bot/src/lifecycle.rs:495-643 | seeded from a state without records, the executing, operational, closed, term-closed and compensating assets hold the first five unused tokens in this order, and the other four hold none |
| `GasPlan.PlanFitsAndWastesNothing` | Live Simulation Bot/src/gas.rs:69-108 | for all inputs the planned cost is within balance minus reserve, nothing overflows, one more user or asset than was cut would not fit, and the plan repeats what it was asked |
| `GasPlan.Chain.FundUsers` | Live Simulation Bot/src/gas.rs:186-207 | the loop tops up in place, skips the funded, tolerates failures, counts what it paid, and is charged for every attempt, as the pass of the next rows |
| `GasPlan.PassPaysWhatIsDue` | Live Simulation Bot/src/gas.rs:190-207 | for distinct users, call by call: a wallet gains the grant less its balance as read, a failed read counting as none, if it is short and the payment succeeds, and nothing otherwise; spent, funded and fees are the sums of the payments, of the users paid and of the gas of all attempts |
| `GasPlan.PaidPassTopsUp` | Live Simulation Bot/src/gas.rs:184-207 | when all calls succeed, each of the distinct users ends with the higher of its balance and the grant, no other wallet changes, and the operator spends exactly what they were short of |
| `GasPlan.UnpaidIsUntouched` | Live Simulation Bot/src/gas.rs:192-205 | whoever is not listed, or whose payments all fail, has what it had |
| `GasPlan.WalletsGainWhatIsSpent` | Live Simulation Bot/src/gas.rs:190-207 | whoever is listed how often and whatever fails, the wallets gain together exactly what is spent |
| `GasPlan.FundedAreThePaid` | Live Simulation Bot/src/gas.rs:187-207 | whoever is listed how often and whatever fails, the returned number counts the users that were seen short of the grant at their turn and paid |
| `GasPlan.PassIsBounded` | Live Simulation Bot/src/gas.rs:184-207 | whatever fails, at most one grant is paid for each user counted as funded, and one payment's gas for each user |
| `GasPlan.PlannedGrantsAreAfforded` | Live Simulation Bot/src/gas.rs:97-207 | the grants paid to the planned users, gas apart, stay within balance minus reserve |
| `GasPlan.NeverDryIff` | Live Simulation Bot/src/gas.rs:182-207 | over all wallets, addresses and outcomes with payments of at most f gas: every payment of a pass over n users is covered iff the balance holds n - 1 grants with f each and one with the whole gas budget, and the pass stays within the balance iff it holds n grants with f each; a grant of 0 needs nothing |
| `GasPlan.ThrottleHoldsIff` | Live Simulation Bot/src/main.rs:73-118 | for a budget, a request and the gas a payment can cost, the planned pass never runs dry at any balance iff the grant is 0 or the reserve holds the gas that the most payments the throttle ever plans ask for |
| `GasPlan.DefaultBudgetHoldsIff` | Live Simulation Bot/src/gas.rs:46-55 | the shipped budget plans thirty users from 2 SUI whose pass can cost 1.8 SUI and thirty payments' gas, and keeps the promise for a request iff the gas of all its payments but one stays within 0.15 SUI |
| `GasPlan.DefaultBudgetCuts` | Live Simulation Bot/src/gas.rs:46-108 | under the shipped budget 4.2 SUI are just enough for sixty users and eight assets, and one MIST less cuts an asset |
| `GasPlan.PaidPassFunds` | Live Simulation Bot/src/gas.rs:190-207 | a pass whose payments succeed leaves everyone at the grant |
| `GasPlan.IdlePassIff` | Live Simulation Bot/src/gas.rs:193-196 | a pass that can read the balances pays nothing if everyone has the grant, and with working payments only then |
| `GasPlan.SecondPassIsIdle` | Live Simulation Bot/src/gas.rs:186-207 | after a pass whose payments all succeed a second one pays nothing |
| `Showcase.Draws.TakeInvestors` | Live Simulation Bot/src/showcase.rs:127-137 | the next n of the cohort, wrapping around, and the cursor advanced |
| `Showcase.DrawGoesRound` | Live Simulation Bot/src/showcase.rs:127-137 | pick i of a draw is the cohort's at cursor plus i, modulo its size |
| `Showcase.DrawsJoin` | Live Simulation Bot/src/showcase.rs:127-137 | two draws in a row are one longer draw |
| `Showcase.DrawIsDistinctIff` | Live Simulation Bot/src/showcase.rs:127-137 | a draw repeats nobody iff it is no longer than the cohort |
| `Showcase.ConsecutiveDrawsAreDisjoint` | Live Simulation Bot/src/showcase.rs:99-137 | consecutive draws that fit into the cohort share nobody |
| `Showcase.FundToGoal` | Live Simulation Bot/src/showcase.rs:174-207 | the loop counts what the specified run counts and collects its receipts |
| `Showcase.FundedNeverExceedsAndReachesIff` | Live Simulation Bot/src/showcase.rs:182-205 | the total never exceeds the goal whoever fails, and reaches it iff there was nothing to fund or the last contribution is tried and succeeds |
| `Showcase.EqualSlices` | Live Simulation Bot/src/showcase.rs:185-205 | before the last investor each accepted contribution counts one equal slice |
| `Showcase.ReceiptsAreComplete` | Live Simulation Bot/src/showcase.rs:182-207 | in the end the list has everyone whose contribution was receipted, in order, each under its own id, unless no contribution was tried |
| `TrancheSchedule.ScheduleLiterals` | Live Simulation Bot/src/catalog.rs:208-231 | for at least one tranche, the loop writes the three literals of the specified amounts, texts and deadlines |
| `TrancheSchedule.VectorParses` | Live Simulation Bot/src/catalog.rs:226-230 | a vector literal reads back as the numbers it was written from |
| `TrancheSchedule.BytesLiteralParses` | Live Simulation Bot/src/catalog.rs:149-156 | so does a byte-vector literal, the empty one included |
| `TrancheSchedule.TextsParse` | Live Simulation Bot/src/catalog.rs:226-230 | so does the literal of the texts, a vector of byte-vector literals |
| `TrancheSchedule.LiteralsAreSpelled` | Live Simulation Bot/src/catalog.rs:149-156 | three literals as they are spelled, suffixes and brackets included |
| `TrancheSchedule.AmountsSplitTheGoal` | Live Simulation Bot/src/catalog.rs:214-222 | all amounts but the last are the goal divided by their number, all add up to the goal, and all are positive iff the goal has a unit for each |
| `TrancheSchedule.DeadlinesStep` | Live Simulation Bot/src/catalog.rs:203-224 | each deadline is a step after the one before, the first after the funding deadline, in wrapping 64-bit arithmetic |
| `TrancheSchedule.DeadlinesAscendIff` | Live Simulation Bot/src/catalog.rs:203-224 | deadlines ascend strictly after the funding deadline iff the step is positive and the last one fits 64 bits |
| `TrancheSchedule.StoredRow` | Backend Indexer/src/ingestion/event_types.rs:216-229 | each row in terms of the event's vectors, whatever their lengths: a missing deadline is 0, a missing or empty description NULL |
| `TrancheSchedule.StoredIsDeclaredIff` | Backend Indexer/src/ingestion/event_types.rs:216-229 | the indexer's rows are the declared ones iff every value fits an i64 |
| `TrancheSchedule.ScheduleRoundTrip` | Backend Indexer/src/ingestion/event_types.rs:216-229 | from the bot's three literals to the indexer's rows the schedule comes out as declared, in order, summing to the goal |

## Left out

- The Move contracts, the frontend and the WebSocket hub; of the events, only the fields the handlers read are modelled.
- Postgres, sqlx, tokio, axum, serde, signing and hashing are assumed: a statement is atomic and durable, text has a total order.
- Immutable columns are not copied one by one: a row is identified with the event that inserted it. Surrogate ids are not part of a row; their order is the order of arrival.
- A tranche index beyond 2^31 (`i as i32`) and sums beyond 64 bits (`::bigint`) are not modelled.
- `ChainTip.OncePerTtlIff`: asks that readings ascend in the order of the lock; a store reads its clock just before it takes the lock.
- `GasPlan.NeverDryIff`: the operator's balance is one number; the cap of fifty coins in a payment is not modelled.
- Clock readings are arbitrary reals or integers; `f64` rounding in the limiter is not modelled.
- Semaphore caps, timeouts, client-IP headers, metrics, `compute_apy` and `compute_reputation`.
- The bot's transaction building, waiting, configuration and command line; a transaction is its failure, or its success and the objects it created.
- The seeder's separate blocks for each state are one loop over the plan; validator capability ids are kept with their pools.
- `TrancheSchedule.ScheduleRoundTrip`: the milestone texts enter as bytes, and text that is not UTF-8 is not modelled.
- `Handlers.CleanIsStorable`: text that arrives as a JSON string (addresses, ids, parameter names) is taken to be free of the byte 0.
- `Rng.NextStateIsInjective`: the length of the cycle is not proved, only that the sequence returns to its seed before any other repeat.
- `TokenPool.NoTokenTwice`: a save that reports success is taken to be durable, and tokens added to the pool are taken to be new.
- `Balances.ReadsTheLastValueIff`: rows are taken in the order the chain emitted them, with timestamps that never go back.
