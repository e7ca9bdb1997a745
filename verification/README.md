# StokSync: the synchronization core, modelled and proved

StokSync keeps a stock ledger on several offline devices and one PostgreSQL
server. Devices push operations (movements, product upserts, product deletes)
and pull an account-scoped log of changes. This project models that core and
proves what it is for: each operation takes effect once, replicas reach the
server's state, balances are the ledger's, deletes win, and cursors miss
nothing, under lost answers, failures at any statement and concurrent writers.

## Main results

Each is stated for every input, every run or every interleaving; the lemmas
around them are steps towards these.

1. **One run.** `Runs.ExactlyOnce`, `Runs.RunValid` and
   `Services.ProcessOperation`: deliveries that are repeated, altered,
   unanswered or broken off at any statement leave the tables of their first
   committed copies, all invariants intact.
2. **One operation.** `Effects.MovementOutcome`, `Effects.StocktakeOutcome`,
   `Effects.UpsertOutcome` and `Effects.DeleteOutcome`: from the fields of the
   request to the columns of every table, each way it can end with its exact
   condition, and nothing left open.
3. **Concurrent writers.** `Concurrency.Serializable`: any interleaving under
   row locks leaves the tables of a serial run. `Interleavings.EveryRunExecutes`
   and `Interleavings.WaitsExactly`: every run is one of them, and nobody waits
   without a row, key or barcode in common.
   `Explanations.SerializableUpToExplanations`: with the row that explains a
   rejection read later, in a statement of its own, only that row can differ,
   and `Explanations.ExplanationsGenuine`: it is always a state that the
   account's own product once had.
4. **Replicas.** `Replication.ReplicaConverges`, `Snapshot.BootstrapConverges`
   and, with pages cut and shuffled in any way and applied as the client does,
   `PageReplication.PagesConverge` and
   `PageReplication.BootstrapConvergesByPages`: every row of the account, column
   by column. `ReplicaLaws.MovementsAnyOrder` and `ReplicaLaws.EntriesKeepSums`
   hold for any entries at all.
5. **Cursors.** `ChangeFeed.FeedComplete`, `Concurrency.ConcurrentFeedComplete`,
   `Exchange.PullAll`: nothing missed, nothing twice, over a growing log.
6. **Stocktakes.** `Stocktakes.ConfluentFromIffSettles` and
   `StocktakeRuns.ServerConfluentIffSettles`: exactly when the order of arrival
   does not matter.
7. **Projections.** `TornReads.TornVerification` and `TornReads.TornRebuild`:
   exactly when verifying or rebuilding beside other writers is right;
   `Runs.BalancesFit`: no stored balance overflows.
8. **Products.** `ProductLife.OneEditPerBase`, `ProductLife.DeleteWins`,
   `ProductLife.TombstonesAbsorb`, `Merge.MergeAllAnyOrder` and
   `Merge.DisjointEditsConverge`.
9. **Identifiers.** `UuidGenerator.GenerateAll`, `UuidSequence.ExhaustionExact`
   and `UuidText.OrdersAgree`.

## How the project is built

* **The simple form.** `SyncPolicy.Process` is one operation as a function of
  the tables of `Schema`: replay, or decide (`MovementPolicy`, `ProductPolicy`)
  and complete. `Runs` folds it over deliveries that may be repeated, altered,
  unanswered or rolled back.
* **The code's form.** `Store.Database` is a class with the tables as fields,
  one method per typed query, transactions with an undo copy, one savepoint
  level, an `aborted` flag, and a connection that may break at any statement.
  `Services` and `Exchange` mirror the Go services and the handler loop on it,
  statement by statement, and are proved to refine the simple form.
* **The effect, in columns.** `Effects` says what each operation does without
  naming a function that decides or writes, so the policies above are pinned to
  the requests and the rows.
* **Over runs.** `Invariants` (what every reachable state satisfies), `Runs`,
  `ProductLife`, `StocktakeRuns`, `Replication`, `PageReplication`,
  `ReplicaLaws`, `Reasons`, `TornReads`.
* **Over interleavings.** `Concurrency` interleaves transactions that hold
  product rows, movement keys, barcode entries, operation keys and the counter
  row to their end. `Interleavings` says what the system can do: who waits for
  whom, and that every run is one of its executions. `Explanations` adds the
  second read of a rejection as a step of its own, `Snapshot` a bootstrap at
  any instant. Since the committed tables are those of a run, every theorem
  about runs holds in them.
* **Beside it.** `ChangeFeed` (pages and cursors), `Projection` and
  `LocalProjection` (verify and rebuild), `UuidSequence`, `UuidGenerator`,
  `UuidV7` and `UuidText` (the client's identifiers, which break stocktake
  ties: the sequence of identifiers as a function, the class that refines it,
  its byte operations, and its text), `Merge` (the three-way merge and its
  convergence with the server's version check), `Stocktakes` (the policy on
  its own), `Ledger`.

Clocks are arguments: the transaction's timestamp and the service's own clock
for each delivery, milliseconds for the generator. Random bytes are arguments,
and so are the fault that a transaction meets and what other requests commit
meanwhile. Times are integers in microseconds, the resolution in which they
are stored. A UUID is its 128-bit number; `UuidText` proves that this order is
the order of the strings.

## Where the code and its documents differ

The model follows the code.

* `docs/adr/0009-deterministic-stocktake-conflicts.md` (lines 32-33) says that
  stale stocktakes converge regardless of arrival order. A stocktake whose
  recomputed delta is zero is rejected and its key is forgotten, so they need
  not: `Stocktakes.TwoStocktakesMayDiverge` is the concrete case, and
  `Stocktakes.ConfluentFromIffSettles` with
  `StocktakeRuns.ServerConfluentIffSettles` give the exact condition, on the
  counts and what the product has, before the first of them arrives.
* `product_conflict` and `movement_conflict` are reasons of the protocol, and
  the error mapping produces them, but the violated key has aborted the
  transaction by then, so no outcome ever carries them
  (`Runs.KeyViolationsNeverStored`).
* The comment on `VerifyProductBalances` calls its report consistent because
  both reads share a transaction. That transaction is not a repeatable-read
  one, so operations that commit between the reads can make an exact
  projection look wrong. `TornReads.TornVerification` says exactly when, for
  any number of operations; `TornReads.TornByOneOperation` gives the case of
  one, in terms of what that operation does.
* `RebuildProductBalances` promises to recompute the projection from the
  canonical ledger. Its one statement sums the ledger as of its start and locks
  no product, so a movement that commits while it is at work is overwritten by
  the older sum. `TornReads.TornRebuild` says exactly when an exact projection
  stays exact, and `TornReads.RebuildLosesMovement` that a single movement
  breaks it.
* The generator reports exhaustion when its remembered time is the maximum and
  all random bits of its last identifier are set. The remembered time is
  advanced before the random source is asked, so after a source that failed
  this can be an identifier of an earlier time
  (`UuidGenerator.FailingSourceExhaustsEarly`). `UuidSequence.ExhaustionExact`:
  a call that reports exhaustion follows the last identifier of all if and only
  if the source did not fail when it was last asked; and
  `UuidSequence.HealthySourceExhaustion`: with a source that never fails, a
  valid call is refused if and only if that identifier has come out.

## Model

| member | source | states |
|---|---|---|
| Runs.ExactlyOnce | server/internal/sync/operations.go:65-150 | for every sequence of deliveries, with repeats, altered payloads, lost answers and aborted attempts, the tables are those of the run that keeps only the first committed delivery of each `(device_id, op_id)` |
| Runs.RepeatsGetFirstOutcome | server/internal/sync/operations.go:114-150 | every later delivery of a committed key, whatever it carries, is answered with the first outcome if its account owns it and with an error otherwise |
| Runs.RunValid | server/internal/sync/operations.go:65-112 | the whole invariant, across all tables, holds after every run |
| Runs.KeyRecorded | server/internal/db/queries.go:272-289 | after a run a key has an outcome if and only if it had one before or a delivery of the run committed it |
| Runs.OutcomesPermanent | server/internal/db/queries.go:272-289 | no run removes or alters a stored outcome |
| Runs.KeyViolationsNeverStored | server/internal/sync/operations.go:362-471 | from an empty database no stored outcome is still processing, and none carries the reasons for a violated product or movement key: those abort the transaction |
| Runs.RunSplit | server/internal/sync/service.go:111-122 | a run cut at any delivery composes: valid before it, valid after it, and the rest runs from there |
| Runs.BalancesFit | server/internal/db/queries.go:204-218 | in every state that any run reaches, while a product has fewer than 2^32 ledger rows of its own: its stored balance, that balance with one more delta, and the distance of any count from it fit in 64 bits |
| Runs.IncrementFits | server/internal/db/queries.go:204-218 | under the same bound, the addition that an accepted movement makes to the stored balance is exact and fits in 64 bits before and after |
| Services.ProcessOperation | server/internal/sync/service.go:111-122 | for a failure at any statement: an answer means the complete effect, an error means untouched tables, or the complete effect when a lost COMMIT was durable; every outcome is a delivery of module Runs; on a healthy connection an ordinary movement that nothing stands in the way of is applied, with its own delta |
| Effects.MovementOutcome | server/internal/sync/operations.go:169-221 | a receipt, issue or adjustment under a fresh key: each reason with its exact condition on request and rows; otherwise one ledger row with the request's own columns and delta, the balance moved by that delta, one log entry with every column, one outcome, and nothing else |
| Effects.StocktakeOutcome | server/internal/movements/service.go:337-437 | the same for a stocktake, resolution included: a displaced one is the incoming and the stocktake of latest time and id the canonical one; a written one has the delta that reaches the count, and displaces exactly the former canonical one |
| Effects.UpsertOutcome | server/internal/sync/operations.go:223-321 | the same for a create or an edit: written only with a free barcode on no version or on exactly the current one, with the normalized columns of the payload; otherwise the exact reason and the row that is shown |
| Effects.DeleteOutcome | server/internal/sync/operations.go:323-360 | the same for a delete: written on any version that the product has or had |
| Effects.InvalidOperationExact | server/internal/sync/dto.go:318-412 | for every payload kind: an operation is refused as invalid if and only if one of the listed conditions of its own fields fails, whoever sends it and whatever the tables hold |
| Effects.UndecodableOutcome | server/internal/sync/operations.go:152-172 | a payload that cannot be decoded is refused as invalid |
| Effects.StaleEditRefused | server/internal/db/queries.go:77-92 | an edit of any version but the current one is a version conflict that shows the current row and changes only the outcome |
| Effects.NotFresh | server/internal/sync/operations.go:70-150 | without a fresh key: the stored outcome for its own account, an error for anybody else, and no change |
| Effects.CanonicalIsLatest | server/internal/db/queries.go:132-140 | the stocktake that the query finds is the one of latest time, and of greatest id at that time |
| Effects.AcceptableIsApplied | server/internal/movements/service.go:395-436 | a sound ordinary movement of the caller's active product under a fresh key and id is applied |
| Effects.AcceptableLater | server/internal/movements/service.go:337-363 | it stays acceptable over any run until its key or id is used or its product is deleted |
| Concurrency.Serializable | server/internal/db/tx.go:68-100 | for any interleaving of deciding, allocating, committing and aborting under row locks, the committed tables are those of a serial run of operations that were submitted, each key once, and the invariant holds in them |
| Concurrency.ConcurrentFeedComplete | server/internal/sync/service.go:129-185 | a client that pulls pages while writers interleave has everything visible at its last request, once and in order |
| Concurrency.StepKeepsSound | server/internal/movements/service.go:337-437 | every step keeps what open transactions decided true: a write is still the decision at its commit, a rejection the one at its place in the serial order |
| Concurrency.WriteStable | server/internal/movements/service.go:338-347 | a decision to write taken under its locks is still the decision after another transaction commits |
| Concurrency.BalanceStable | server/internal/db/queries.go:204-218 | the balance row computed under lock is still right after another transaction commits |
| Concurrency.InstallIsComplete | server/internal/db/queries.go:723-737 | rows computed earlier and installed at commit are the complete effect on the tables of that moment |
| Concurrency.CursorsInCommitOrder | server/internal/db/queries.go:237-258 | at every instant the committed cursors are exactly 1 to the counter and earlier views are prefixes of later ones |
| Concurrency.OutOfOrderCommitLosesEntry | server/internal/db/queries.go:237-241 | without the counter lock a client would lose an entry for good |
| Concurrency.RejectInPlace | server/internal/sync/operations.go:402-426 | a rejected operation placed where it decided adds only its outcome at the end |
| Interleavings.EveryRunExecutes | server/internal/db/tx.go:68-100 | every run is some execution, so executions commit exactly the tables of runs |
| Interleavings.WaitsExactly | server/internal/movements/service.go:338-347 | an operation waits exactly for the open transactions that have its key, its product row, its movement id or its barcode |
| Interleavings.WritersOverlap | server/internal/db/tx.go:68-100 | two writers that share no row may be open together and commit in either order |
| Explanations.SerializableUpToExplanations | server/internal/sync/operations.go:286-309 | with the row that explains a rejection read by a later statement, in any interleaving: the committed tables are those of a serial run except for those rows in rejected outcomes |
| Explanations.ExplanationsGenuine | server/internal/sync/operations.go:533-574 | every product state that a rejection shows is one that some committed operation gave a product of its own account |
| Explanations.SerializableWithoutLookups | server/internal/db/tx.go:68-100 | where no explaining row is read apart the tables are exactly the serial run's |
| Explanations.ExecutionMatches | server/internal/sync/operations.go:533-574 | the execution with separate second reads simulates the one without them, step by step |
| Explanations.ShownKeepsValid | server/internal/sync/dto.go:600-669 | the invariant does not depend on the rows shown by rejections |
| Explanations.LookupRepeats | server/internal/sync/operations.go:286-309 | with nothing committed in between the second read shows what the decision showed |
| Explanations.SecondReadShows | server/internal/sync/operations.go:533-574 | the second read shows the account's own product, or its active holder of the barcode, as committed at that moment |
| Replication.ReplicaConverges | server/internal/sync/operations.go:496-512 | a replica that holds the account as of any valid state, given the account's entries after any cursor not ahead of it, read after any run, refuses none and then holds every product, ledger row and balance of the account as it is, column by column |
| Replication.NewProductEntry | app/lib/data/local/remote_change_applier.dart:117-326 | a new product entry carries the view to the next one |
| Replication.NewMovementEntry | app/lib/data/local/remote_change_applier.dart:328-558 | a new movement entry carries the view to the next one, balance included |
| Replication.StaleEntry | app/lib/data/local/remote_change_applier.dart:117-326 | an entry already reflected changes nothing |
| Replication.OtherAccount | server/internal/db/queries.go:260-265 | operations of one account are invisible to another |
| Replication.ViewHoldsAccount | server/internal/sync/operations.go:496-512 | the view of a valid state holds every row of the account with all its columns |
| Replication.HoldsOnlyView | server/internal/sync/operations.go:496-512 | and no other replica does |
| Replication.LogRebuildsReplica | server/internal/sync/operations.go:616-642 | the log alone makes an empty replica hold the account, column by column |
| PageReplication.PagesConverge | app/lib/data/local/remote_change_applier.dart:60-115 | however the account's entries are cut into pages and each page shuffled, a replica that holds the account as of any valid state refuses nothing and ends up holding the account as it is |
| PageReplication.BootstrapConvergesByPages | app/lib/data/local/remote_change_applier.dart:60-115 | the same from a snapshot installed at any instant of any interleaving of writers to any later instant |
| PageReplication.ProductsFirst | app/lib/data/local/remote_change_applier.dart:79-84 | moving the product entries of a page before its movement entries changes nothing |
| PageReplication.FirstPassSuffices | app/lib/data/local/remote_change_applier.dart:86-114 | movement entries in log order are all applied in the first pass |
| PageReplication.PageInLogOrder | app/lib/data/local/remote_change_applier.dart:60-115 | a page applied as the client does (products first, each kind sorted by sequence, movements in passes that defer reversals of absent movements) gives what log order gives, in whatever order the page lists its entries |
| ReplicaLaws.MovementsAnyOrder | app/lib/data/local/remote_change_applier.dart:86-115 | if the movements of a page can be applied in any order at all, the passes apply them in whatever order they are listed, with the same result |
| ReplicaLaws.MovementAcceptedExactly | app/lib/data/local/remote_change_applier.dart:328-558 | the exact condition, for any replica and any entry, under which a movement is accepted |
| ReplicaLaws.ProductAcceptedExactly | app/lib/data/local/remote_change_applier.dart:117-326 | the exact condition under which a product is accepted, and which row is then stored |
| ReplicaLaws.EntriesPreserve | app/lib/data/local/remote_change_applier.dart:205-230 | no entries, from the server or not, change a stored movement, drop a product, revive a tombstone, or lower the version of an active product |
| ReplicaLaws.EntryIdempotent | app/lib/data/local/remote_change_applier.dart:86-90 | applying an entry again changes nothing |
| ReplicaLaws.EntriesKeepSums | app/lib/data/local/remote_change_applier.dart:607-675 | whatever entries a replica applies, each balance stays the sum and the latest time of its stored movements |
| Snapshot.BootstrapConverges | server/internal/snapshot/service.go:125-173 | a snapshot installed at any instant of any interleaving of writers, plus the entries behind its cursor at any later instant, holds the account of that instant, column by column |
| Snapshot.GetSnapshot | server/internal/snapshot/service.go:128-173 | the whole account with the cursor of the same view, or a refusal exactly when it exceeds a bound |
| Snapshot.InstalledIsView | server/internal/snapshot/service.go:132-173 | the installed snapshot rows are the account's view |
| Snapshot.StepReplicates | server/internal/db/queries.go:723-737 | each concurrent step moves the view by exactly the entries it commits |
| Snapshot.SnapshotHoldsAccount | server/internal/snapshot/service.go:132-173 | an installed snapshot holds the account with all its columns |
| ChangeFeed.FeedComplete | server/internal/sync/service.go:129-185 | following cursors over a growing log until `has_more` is false returns every entry visible at the last request, once and in order |
| ChangeFeed.GrowthKeepsSplit | server/internal/sync/service.go:129-185 | the same with entries appended after the page was read |
| ChangeFeed.FollowInvariant | app/packages/sync_engine/lib/src/scheduling.dart:376-418 | at every request, what was received plus what lies behind the held cursor is everything past the start |
| ChangeFeed.PagesAcceptable | app/packages/sync_engine/lib/src/scheduling.dart:465-523 | every page passes the server's response check and the client's cursor check |
| ChangeFeed.PageSplits | server/internal/sync/service.go:146-185 | a page and the entries behind its cursor make up everything past the requested cursor; `has_more` says whether any are left, and then the page is full |
| Stocktakes.ConfluentFromIffSettles | server/internal/movements/service.go:366-452 | from any balance and any canonical stocktake: arrival order is irrelevant if and only if the counts ahead of it settle |
| Stocktakes.SettlesIsSufficient | server/internal/movements/service.go:395-436 | under the condition every arrival order ends at the greatest key's count |
| Stocktakes.UnsettledDiverges | server/internal/movements/service.go:396-400 | without the condition some arrival order ends elsewhere |
| Stocktakes.TwoStocktakesMayDiverge | server/internal/movements/service.go:396-400 | two concrete stocktakes whose two arrival orders end at different balances, because a zero delta is rejected and its key forgotten |
| Stocktakes.AppliedAreRunningMaxima | server/internal/movements/service.go:366-400 | when counts are pairwise distinct, differ from the start and stay in range, a stocktake is applied exactly when its key exceeds all earlier arrivals' |
| Stocktakes.OnlyKeptMatter | server/internal/movements/service.go:366-400 | a count not ahead of the canonical stocktake is displaced in every order and changes nothing |
| Stocktakes.ConfluentIffSettles | server/internal/movements/service.go:395-452 | without a canonical stocktake: the exact condition, on counts and starting balance alone, for every arrival order to end at the greatest key's count |
| StocktakeRuns.ServerConfluentIffSettles | server/internal/movements/service.go:395-436 | from any valid state, with or without a canonical stocktake: all arrival orders on the server end at the count of the greatest key if and only if the counts ahead of the canonical one settle from the balance |
| StocktakeRuns.LatestIsLastAppended | server/internal/db/queries.go:132-144 | in every valid state the latest stocktake by key is the last one appended |
| StocktakeRuns.AnchoredBalance | server/internal/movements/service.go:366-437 | a product's balance is the count of its last stocktake plus the deltas appended after it |
| StocktakeRuns.RunStocktakes | server/internal/movements/service.go:365-436 | a server run of new stocktakes of one product moves it exactly like the abstract arrivals |
| StocktakeRuns.StocktakeDecision | server/internal/movements/service.go:365-436 | the server's decision on a stocktake is the abstract one, row and delta included |
| StocktakeRuns.ServerArrivals | server/internal/movements/service.go:365-436 | from whatever the product then has, every arrival order of a set of stocktake operations ends at the balance that the abstract arrivals compute |
| TornReads.TornVerification | server/internal/movements/service.go:302-320 | with any operations committed between the two reads, the report on an exact database is consistent if and only if they left the account the same products with the same ledger sums and latest times |
| TornReads.TornRebuild | server/internal/db/queries.go:161-172 | a rebuild with any operations committed while it is at work leaves an exact account exact if and only if every product it had at the start kept its ledger sum and latest time |
| TornReads.TornVerificationAt | server/internal/movements/service.go:302-320 | the same for reads at any two instants of any interleaving of writers |
| TornReads.TornByOneOperation | server/internal/movements/service.go:302-320 | with one operation in between: consistent if and only if it neither appended to the account's ledger nor created a product of it |
| TornReads.RebuildLosesMovement | server/cmd/verify-projections/main.go:65-74 | one movement that commits meanwhile is missing from the rebuilt balance of its product |
| Projection.CompareBalances | server/internal/movements/service.go:567-633 | the report lists exactly the products that differ, each once, in id order, with kind and values; consistent if and only if the lists agree |
| Projection.CompareExpected | server/internal/movements/service.go:577-611 | each expected balance is stored as it is or listed |
| Projection.CompareUnexpected | server/internal/movements/service.go:612-623 | each stored balance without an expected one is listed |
| Projection.ReportUnique | server/internal/movements/service.go:577-623 | for one product there is at most one right entry |
| Projection.VerifyProductBalances | server/internal/movements/service.go:305-320 | with nothing committed between its reads, consistent if and only if the account's projection is the fold of its ledger |
| Projection.AgreeMeansExact | server/internal/db/queries.go:146-159 | the two lists agree if and only if every stored balance is the fold |
| Projection.RebuildProductBalances | server/internal/movements/service.go:288-295 | with nothing committed beside it one rebuild makes the account exact from any stored projection; ledger, other tables and other accounts' rows are untouched; a failed one leaves the old balances, or the rebuilt ones when the lost COMMIT was durable |
| LocalProjection.LocalDatabase.Rebuild | app/lib/data/local/local_balance_projection.dart:25-56 | every row replaced by the fold of the ledger, or an error for a row of an unknown product and no change |
| LocalProjection.AddUp | app/lib/data/local/local_balance_projection.dart:26-40 | per-product totals, unless a row names an unknown product |
| LocalProjection.FoldAnyOrder | app/lib/data/local/local_balance_projection.dart:60-77 | the fold does not depend on the order of the rows |
| LocalProjection.RebuildMatchesServer | app/lib/data/local/local_balance_projection.dart:22-77 | a client that holds the account's rows in any order rebuilds the server's balances |
| ProductLife.OneEditPerBase | server/internal/db/queries.go:77-103 | over any run: of two applied upserts of one product the later is based on a greater version, and each is logged as its base plus one |
| ProductLife.DeleteWins | server/internal/products/service.go:199-208 | any interleaving of edits, movements and deletes that contains a delete of a known version ends in a tombstone |
| ProductLife.TombstonesAbsorb | server/internal/products/service.go:277-292 | after a tombstone no run changes the product's row, balance, ledger rows or log history |
| ProductLife.EntryInHistory | server/internal/db/queries.go:77-103 | the version in a log entry is the number of the product's entries so far |
| ProductLife.BarcodeConflictExact | server/internal/sync/operations.go:286-309 | an otherwise good upsert is rejected for its barcode if and only if another active product of any account holds it; nothing but the outcome is stored, and the owner is shown exactly when it is the account's own |
| ProductLife.VersionsGrow | server/internal/products/service.go:157-208 | runs never remove a product, change its account or lower its version |
| ProductLife.EditMatchesBase | server/internal/db/queries.go:77-92 | an upsert that is applied names the very version that the product has, none for a create; row and log entry carry the next one |
| ProductLife.EntriesAscend | server/internal/db/queries.go:77-92 | log entries of a product ascend in version, and only the last can be a delete |
| Merge.Compare | app/lib/data/local/product_three_way_merge.dart:47-97 | no result exactly for inputs that cannot be compared; exact changed sets; a payload exactly when they are disjoint, with each side's edits |
| Merge.HasCompleteEditablePayload | app/lib/data/local/product_three_way_merge.dart:99-104 | the id and every editable field are present |
| Merge.MergeSymmetric | app/lib/data/local/product_three_way_merge.dart:85-90 | on disjoint changes local and server may be exchanged |
| Merge.BaseIsIdentity | app/lib/data/local/product_three_way_merge.dart:85-90 | merging with an unedited side gives the other |
| Merge.MergeChangesUnion | app/lib/data/local/product_three_way_merge.dart:65-90 | the merge changes exactly what either side changed |
| Merge.MergeAllLookup | app/lib/data/local/product_three_way_merge.dart:85-90 | after any number of disjoint edits each field has the value of the one edit that changed it |
| Merge.AlwaysAutoMerges | app/lib/data/local/product_three_way_merge.dart:75-83 | disjoint edits never overlap with those accepted before |
| Merge.MergeAllAnyOrder | app/lib/data/local/product_three_way_merge.dart:47-97 | the order of disjoint edits does not matter |
| Merge.RunMerges | server/internal/db/queries.go:77-92 | on the server a product follows the fold of the accepted edits, one version each, whatever happens in between |
| Merge.DisjointEditsConverge | app/lib/data/local/product_three_way_merge.dart:38-43 | two runs that accept the same disjoint edits in different orders end with the same product |
| Merge.RowRoundTrip | server/internal/products/service.go:215-275 | a normalized payload survives the way into a row and back |
| Merge.ComparableExactly | app/lib/data/local/product_three_way_merge.dart:47-62 | the exact condition on the payloads for a comparison |
| Merge.MergeInColumns | app/lib/data/local/product_three_way_merge.dart:65-97 | which fields count as changed, and the value of each field of the merged payload |
| UuidSequence.ExhaustionExact | app/lib/core/identifiers/uuid_v7_generator.dart:94-103 | for every sequence of calls: a call that reports exhaustion follows the greatest identifier if and only if the random source did not fail when it was last asked |
| UuidSequence.HealthySourceExhaustion | app/lib/core/identifiers/uuid_v7_generator.dart:94-103 | with a random source that never fails, a call with a valid clock reading is refused if and only if the greatest identifier has come out |
| UuidSequence.ExhaustedAfterGreatest | app/lib/core/identifiers/uuid_v7_generator.dart:94-103 | in a sequence of calls with such a source, some call before an exhausted one returned the greatest identifier |
| UuidSequence.OutcomesAscend | app/lib/core/identifiers/uuid_v7_generator.dart:54-56 | of any two successful calls in any sequence the later one returns the greater identifier |
| UuidGenerator.GenerateAll | app/lib/core/identifiers/uuid_v7_generator.dart:54-108 | any sequence of calls: the results are the sequence's, the strings ascend, and with a random source that never fails exhaustion is reported only after the greatest identifier came out |
| UuidGenerator.UuidV7Generator.Renew | app/lib/core/identifiers/uuid_v7_generator.dart:90-92 | the time is remembered first; a bad random source leaves the last identifier in place |
| UuidGenerator.UuidV7Generator.Continue | app/lib/core/identifiers/uuid_v7_generator.dart:94-107 | within the remembered time: count up, else the next millisecond, else exhaustion |
| UuidGenerator.FailingSourceExhaustsEarly | app/lib/core/identifiers/uuid_v7_generator.dart:85-107 | a concrete sequence in which exhaustion is reported at time zero |
| UuidGenerator.UuidV7Generator.Generate | app/lib/core/identifiers/uuid_v7_generator.dart:75-108 | a later clock reading gives an identifier of that time and those random bytes, an earlier or equal one the next number or the next millisecond; a success is greater than the one before, an error keeps the last identifier, and exhaustion follows the greatest identifier if and only if the remembered time is the one in it |
| UuidText.OrdersAgree | app/lib/core/identifiers/uuid_v7_generator.dart:162-169 | canonical strings, bytes and numbers have the same strict order and the same equality |
| UuidText.SameTieBreak | server/internal/movements/service.go:442-452 | the service's string comparison and the query's order by id choose the same stocktake |
| UuidText.Canonical | app/lib/core/identifiers/uuid_v7_generator.dart:162-169 | 36 characters: hyphens at four places and the digits in order elsewhere |
| UuidV7.IncrementRandomBits | app/lib/core/identifiers/uuid_v7_generator.dart:129-160 | the carry across the fixed bits adds one to the 74-bit number, and fails exactly when all its bits are set |
| UuidV7.IncrementHead | app/lib/core/identifiers/uuid_v7_generator.dart:140-160 | the same for the bits beside variant and version |
| UuidV7.NewUuidBytes | app/lib/core/identifiers/uuid_v7_generator.dart:110-127 | time, version, variant and the kept random bits |
| UuidV7.OrdinalOrder | app/lib/core/identifiers/uuid_v7_generator.dart:54-56 | time times 2^74 plus the random number orders identifiers like their strings |
| UuidV7.TimestampReadsBack | app/lib/core/identifiers/uuid_v7_generator.dart:44-51 | the text of a generated identifier gives its embedded time back |
| UuidV7.GeneratedIsValid | app/lib/core/identifiers/uuid_v7_generator.dart:33-39 | generated text matches the canonical pattern |
| UuidV7.TimestampMilliseconds | app/lib/core/identifiers/uuid_v7_generator.dart:44-51 | exactly for strings of the canonical UUIDv7 pattern a value, and it is the number that the first twelve hex digits spell |
| Reasons.ServiceValidationIsRedundant | server/internal/sync/operations.go:432-471 | an operation that passed the envelope check is never rejected by the services' own input rules; a rejected delta is a recomputed one, a rejected reversal names another product of the account |
| Reasons.EnvelopeImpliesNormalized | server/internal/movements/service.go:484-518 | every movement that the envelope check accepts is accepted by the service's normalization |
| Reasons.StocktakeOutcomeExact | server/internal/movements/service.go:365-436 | displaced, rejected or written, each with its exact condition; the recomputed delta reaches the count and the client's own delta is ignored |
| Reasons.StocktakeResolutionExact | server/internal/movements/service.go:366-436 | the resolution of a displaced and of a written stocktake, column by column |
| Invariants.CompleteKeepsValid | server/internal/sync/operations.go:65-112 | one completed operation keeps ledger, projection, barcodes, stocktake anchors, log, outcomes and version chains consistent with each other |
| Invariants.ProcessKeepsValid | server/internal/sync/operations.go:65-150 | processing any operation keeps the invariant, and in a valid state replaying a stored outcome of the account never fails |
| Invariants.DecideAdmissible | server/internal/sync/operations.go:152-360 | every decision to write meets the conditions that the invariant rests on: next version, free barcode, fresh id, existing reversal target, later stocktake key, delta that reaches the count |
| Invariants.KeepsProjection | server/internal/db/queries.go:204-218 | a maintained balance row stays equal to the sum and the latest time of the product's ledger rows, out-of-order times included |
| Invariants.KeepsOutcomes | server/internal/sync/operations.go:402-426 | applied outcomes and log entries stay in bijection through the cursor; rejected outcomes own no entry; every outcome passes the response validator |
| Invariants.KeepsLedger | server/internal/db/queries.go:105-117 | ledger ids stay unique, deltas non-zero, rows owned by the account of their product, corrections pointing at an earlier row of the same product |
| Invariants.KeepsAnchors | server/internal/movements/service.go:365-436 | stocktakes of a product keep strictly increasing keys in append order, each reaching its counted quantity |
| Invariants.KeepsBarcodes | server/migrations/000002_constraints_and_indexes.up.sql:88-90 | no two active products of any accounts share a barcode |
| Invariants.KeepsLog | server/internal/db/queries.go:237-258 | log cursors stay 1, 2, 3 and so on up to the counter, and each entry stays accounted for by the rows |
| Invariants.KeepsVersions | server/internal/db/queries.go:77-103 | each product's log entries stay versions 1 to n, a tombstone only last, the last one being the row |
| Ledger.AppendRow | server/internal/db/queries.go:132-144 | how sum, latest time and latest stocktake react to one appended row |
| Ledger.LatestStocktake | server/internal/db/queries.go:132-140 | the row of greatest `(occurred_at, id)` among the product's stocktakes, if there is one |
| Ledger.LastIsMaximum | server/internal/db/queries.go:141-144 | the aggregate is attained by a row of the product and exceeded by none |
| Ledger.ArrivalOrderIrrelevant | server/internal/db/queries.go:146-153 | the same ledger rows in any order give every product the same balance |
| Ledger.QtyBound | server/internal/db/queries.go:141-144 | a sum over n rows of a product lies within n times the 32-bit range, whatever other rows the ledger holds |
| Ledger.NoOverflow | server/internal/movements/service.go:395-432 | while a product has fewer than 2^32 rows of its own, its sum, that sum with one more delta, and the distance of any count from it fit in 64 bits, so the 32-bit range test is taken on true values |
| Exchange.ListChanges | server/internal/sync/service.go:129-185 | the page cut by a look-ahead row, each refused argument, and no change of any table whatever fails |
| Exchange.Push | server/internal/sync/handler.go:129-149 | one result per operation in order, each from its own transaction, whatever other requests commit in between; a failed one becomes an internal error and does not stop the rest; the tables are those of the run of all of them |
| Exchange.ResponseValid | server/internal/sync/dto.go:600-669 | from a valid state, with other requests' commits in between, every answer to a valid request passes the response validator |
| Exchange.PullAll | app/packages/sync_engine/lib/src/scheduling.dart:376-418 | the pull loop over a log that others extend, on a connection that may fail: when it ends it has every entry visible at its last request, once and in order; when it breaks off, the cursor it holds misses and repeats nothing |
| Exchange.AllAcceptedInTurn | server/internal/sync/handler.go:129-149 | every operation of a request that was acceptable when its turn came, and met a healthy connection, is answered as applied |
| Exchange.Post | server/internal/sync/handler.go:94-172 | a request is refused as invalid if and only if one of its own fields or operations fails a listed condition; a refused request touches nothing; a failed pull leaves the pushed operations committed; with the device check and the pull on a healthy connection every sound request of a registered device is answered, and every acceptable movement in it is applied |
| Exchange.ValidateDevice | server/internal/sync/service.go:84-106 | on a healthy connection exactly a registered device of the account passes, and any other is not registered |
| Services.ProcessInTransaction | server/internal/sync/operations.go:65-112 | reserve, apply, log and finalize refine the one-step function |
| Services.LogAndFinalize | server/internal/sync/operations.go:93-111 | the log entry with its cursor and the final outcome complete the effect |
| Services.ApplyOperation | server/internal/sync/operations.go:152-167 | the decided rows, result and change |
| Services.ApplyMovement | server/internal/sync/operations.go:169-221 | a movement is applied as decided |
| Services.ApplyProductUpsert | server/internal/sync/operations.go:223-321 | an upsert is applied as decided |
| Services.ApplyProductDelete | server/internal/sync/operations.go:323-360 | a delete is applied as decided |
| Services.RunProductMutationWithBarcodeRecovery | server/internal/sync/operations.go:362-400 | a taken barcode is undone and leaves the transaction usable; any other violation aborts it |
| Services.RejectProductError | server/internal/sync/operations.go:286-309 | the rejection that a product error becomes, with the row that explains it |
| Services.AttachCanonicalProductState | server/internal/sync/operations.go:557-574 | the account's own row is added if there is one |
| Services.AttachBarcodeOwnerState | server/internal/sync/operations.go:533-555 | the account's own holder of the barcode is added if there is one |
| Services.AppendInTransactionWithPolicy | server/internal/movements/service.go:337-437 | lock, reversal, order, recomputed delta, row and balance, as decided |
| Services.InsertAndProject | server/internal/movements/service.go:402-436 | ledger row and balance row together |
| Services.CheckReversal | server/internal/movements/service.go:349-363 | the target exists in the same account and product |
| Services.ClassifyProductMiss | server/internal/movements/service.go:550-565 | why the product was not found |
| Services.CreateProductInTransaction | server/internal/products/service.go:111-124 | a product with a zero balance, or the reason |
| Services.UpdateProductInTransaction | server/internal/products/service.go:157-167 | an edit, or the reason |
| Services.SoftDeleteProductInTransaction | server/internal/products/service.go:199-209 | a tombstone, or the reason |
| Services.ClassifyProductMutationMiss | server/internal/products/service.go:277-292 | missing, foreign, deleted or stale |
| Services.ReplayStoredOperation | server/internal/sync/operations.go:114-150 | a stored outcome is replayed if and only if its scope matches and its fields pass the response rules |
| SyncPolicy.DecideIgnoresOutcomes | server/internal/sync/operations.go:152-167 | decisions read the domain tables only, so a reservation does not disturb them |
| Schema.ActiveProductByBarcode | server/internal/db/queries.go:43-50 | the account's active product of least id with the barcode; none exactly when the account has no such product |
| Schema.ViewsLoseNothing | server/internal/sync/operations.go:496-512 | what replicas see of a row determines every column but the account |
| Store.Database.Begin | server/internal/db/tx.go:80-83 | a transaction starts on the committed tables and remembers them |
| Store.Database.Commit | server/internal/db/tx.go:95-99 | success keeps the writes; failure keeps nothing unless the lost COMMIT was already durable; an aborted transaction never commits |
| Store.Database.Rollback | server/internal/db/tx.go:84-89 | all tables are as when the transaction began |
| Store.Database.Send | server/internal/db/tx.go:68-100 | a statement reaches the server only in a usable transaction on a live connection |
| Store.Database.Savepoint | server/internal/sync/operations.go:362-380 | the current tables are remembered |
| Store.Database.RollbackToSavepoint | server/internal/sync/operations.go:381-399 | all tables are as at the savepoint and the transaction is usable again |
| Store.Database.TryInsertSyncOperation | server/internal/db/queries.go:272-281 | a reservation for a registered device and a free key, and otherwise no change |
| Store.Database.GetSyncOperation | server/internal/db/queries.go:267-271 | the account's outcome under the key |
| Store.Database.UpdateSyncOperation | server/internal/db/queries.go:282-289 | the outcome replaced, for its account only |
| Store.Database.InsertProduct | server/internal/db/queries.go:19-27 | a new version 1 row, or the violated constraint |
| Store.Database.UpdateProduct | server/internal/db/queries.go:77-92 | an edit of exactly the base version, or a miss, or the violated constraint |
| Store.Database.SoftDeleteProduct | server/internal/db/queries.go:94-103 | a tombstone on any version not below the base, or a miss |
| Store.Database.IncrementProductBalance | server/internal/db/queries.go:204-218 | the balance row moved by one delta, created if missing |
| Store.Database.UpsertProductBalance | server/internal/db/queries.go:220-229 | the balance row set |
| Store.Database.GetLatestStocktake | server/internal/db/queries.go:132-140 | the product's stocktake of greatest key |
| Store.Database.GetProductLedgerBalance | server/internal/db/queries.go:141-144 | the product's sum and latest time |
| Store.Database.AppendChangeLog | server/internal/db/queries.go:723-737 | the next cursor and the entry together |
| Store.Database.ListChangeLog | server/internal/db/queries.go:260-265 | at most the requested number of the account's entries behind the cursor, in order |
| Store.Database.ListLedgerBalances | server/internal/db/queries.go:146-153 | one recomputed balance for every product of the account, in id order |
| Store.Database.ListProductBalances | server/internal/db/queries.go:155-159 | the stored balances of the account's products, in id order |
| Store.Database.RebuildProductBalances | server/internal/db/queries.go:161-172 | every balance of the account set to the recomputed one |
| Store.Database.ListSnapshotProducts | server/internal/db/queries.go:381-405 | the account's products, or that there are more than the bound |
| Store.Database.ListSnapshotBalances | server/internal/db/queries.go:609-640 | the account's recomputed balances, or that there are more than the bound |
| Store.Database.InsertStockMovement | server/internal/db/queries.go:105-116 | one appended row for an active own product, or a miss, or the violated constraint: key, device, kind, delta, reversal and reversal owner |
| Store.Database.ListSnapshotMovements | server/internal/db/queries.go:579-604 | the account's ledger rows ordered by product, time and id, or that there are more than the bound |
| Store.OrderInColumns | server/internal/db/queries.go:579-604 | the snapshot's movement rows ascend by product, time and id |

## Left out

- HTTP, routing, authentication, logging, configuration, migrations and the user interface: input and output around the core.
- JSON encoding and decoding, body size limits, string trimming: operations, results and payloads are datatypes, and texts are assumed trimmed; an empty text counts as blank.
- PostgreSQL itself: the meaning of each statement, the constraints, row locks to the end of a transaction, savepoints and repeatable-read snapshots are the contracts of `Store` and the rules of `Concurrency`.
- Reads that decide an operation: `Concurrency` takes them at one instant, under the operation's locks; `Explanations` takes the read of the explaining row apart, so the reason of a refused update is that of the instant it was decided at.
- Deadlocks and lock waits: a blocked step is one that is not enabled, and a deadlock victim is an abort.
- Replays in `Concurrency`: a delivery whose key is already committed only reads, and is not an event there; `Runs` covers it.
- Direct product and movement calls outside synchronization (they write no change log and do not enforce the stocktake order), account and session tables, device registration and revocation: `devices` is constant.
- Overflow of the 64-bit version and cursor columns: both are unbounded here.
- Times finer than a microsecond, which the service compares before they are stored.
- Snapshot.GetSnapshot: the response size limit.
- The client's handling of local pending intent, its retry queue and its conflict records, and entries whose data lacks a column: `Replication` and `PageReplication` follow the change applier for synchronized rows and complete entries.
- Merge.Compare: payload values are null, text, 32-bit numbers or instants; keys outside the editable fields are carried by name only.
- UuidGenerator.GenerateAll: the canonical digits are produced by a function, not by the string operations of the original.
