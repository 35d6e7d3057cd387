# Lakehouse verification

A Dafny model of the parts of this repository whose correctness spans several steps: the incremental OLTP
ingestion protocol, the deterministic dataset generator, the Polaris access-control reconciler, and a few
printers, gates and rollups. `dafny verify dfyconfig.toml` checks everything.

## What is modelled

**Ingestion protocol.** `Protocol` is a transition system over the source rows of every table, the clock, the
captured watermarks, the landing batches, the Bronze rows tagged by run, the completion markers and the published
cursors. Its steps are the source's own: a source write or delete, capture, extract, load, marker, cursor write of
one table, verification of a run, and the passing of time. Any task may stop after any table and be repeated, and
runs interleave freely. A source write is a step whenever its timestamp advances its key's and no watermark that a
run can publish with what it has already extracted would skip it; `LateWrites` proves that this condition is exact.
`CursorWindow` is the extraction window, `ProtocolResults` states what holds in every reachable state,
`Orchestration` holds the tasks as loops over tables and proves that whatever they leave behind, at any point of
dying, is a reachable state. `Landing` is the manifest and its checks, `Bronze` the replacement of one run's rows
with schema evolution.

**Dataset generator.** `Apportionment` is the largest-remainder split of orders over customers, `OrderLifecycle` the
fate of one order, `OrderTables` the rows a list of orders stands for and what they add up to, `OrderExport` the
exporter's loop with its buffers, batched flushing and running totals, `OrderMeaning` what the finished stream says
about each order, `SqlWriter` and `SqlText` the INSERT printer and a reader with MySQL's lexical rules, `LogWindows`
the quarter-hour access-log files.

**Access control.** `Polaris` is the server's state and requests, `RbacPlan` what a reconciliation makes of it,
`RbacCredentials` which credentials it leaves, `RbacIdempotence` when a second one changes nothing, `Rbac` the
reconciler that sends the requests one by one. `CredentialFile` is the credential file with its three readers.

**Smaller parts.** `CsvText` is the storefront's CSV export against section 2 of RFC 4180, `Reconciliation` the
source-to-Silver gate, `Marts` the daily web-event marts. `Common` and `Text` hold shared vocabulary.

Timestamps are integer microseconds; random draws are arbitrary values of their ranges; a database read, an object
write and a table overwrite are each one atomic step.

### Where the code promises less than it seems to

Each of these is proved as an exact condition.

- Re-landing and reloading a run after it has published can take rows out of Bronze that the next window skips,
  whatever watermark the repeated run works with: `ProtocolResults.RerunAfterPublishingIsSafeIff`. The DAG's order
  rules it out within a run; a manual clear of the landing tasks does not.
- A row that becomes visible late can be lost although the next window would select it: a run that has already
  extracted under a watermark above it may still publish that watermark. `LateWrites.LateRowIsLost` is such a history;
  `LateWrites.WriteIsNeverLostIffTimely` is the exact condition over everything that can follow the write.
- A hard-deleted source row stays in the newest-per-key view of Bronze: `ProtocolResults.LoadedRunAgreesWithSource`.
- A class assignment names more customers than there are when the truncated shares already exceed them, which the
  accepted tolerance of share sums allows: `Apportionment.ClassAssignment`, `Apportionment.TolerantSharesCanOverflow`.
- The gate's rounding lets a variance of up to half a unit of the fourth decimal above the tolerance pass:
  `Reconciliation.WithinToleranceIff`, `Reconciliation.RoundingAdmitsMore`.
- A configured grant is skipped when the role holds the same privilege with another kind:
  `RbacPlan.ConfiguredGrantIsHeldIff`. A principal that does not export both its variables gets new credentials in
  every run: `RbacIdempotence.SecondRunChangesNothingIff`. A renamed principal whose saved pair still works for the old
  name is never created: `RbacIdempotence.RenamedPrincipalIsMissing`.
- An incremental rollup leaves old mart rows behind when a date loses its last grouped event:
  `Marts.RunMakesDateRightIff`, `Marts.ProductMartGoesStale`. Hourly counts add up to the total only if no status is
  missing: `Marts.HourlyCountsAddUpIff`.
- The CSV text of an empty header or an empty row does not read back: `CsvText.CsvRoundTrip`. Keys with an equals
  sign, surrounding whitespace, a leading number sign or a line break, and values with line breaks, do not survive the
  credential file: `CredentialFile.CredentialRoundTrip`.
- All three attempts of a failed shipment carry the moment it was dispatched, because a failed order is last updated
  when it is confirmed: `OrderLifecycle.AttemptsAddUp`.

## Model

| member | source | states |
|---|---|---|
| CursorWindow.WindowMeaning | pipelines/src/lakehouse/oltp/query.py:19-62 | the composed clause list selects exactly the rows past the lower bound (with lookback: not older than it) and at or below the watermark in (timestamp, key) order |
| CursorWindow.LookbackZeroTiles | pipelines/src/lakehouse/oltp/query.py:41-61 | with lookback 0, successive windows are disjoint and cover everything up to the last watermark: each version is extracted by exactly one run, the first that reaches it |
| CursorWindow.LookbackRepeatsOnlyRecentRows | pipelines/src/lakehouse/oltp/query.py:31-40 | with lookback, a version is extracted by the first run that reaches it and again by a later run exactly if it lies within the lookback of the previous cursor |
| Protocol.StepKeeps | airflow/dags/lakehouse_oltp_pipeline.py:222-231 | every step of the system (timely write, delete, capture, extract, load, marker, seal, publish, time) keeps every table's invariant |
| Protocol.RunKeeps | airflow/dags/lakehouse_oltp_pipeline.py:41-45 | the invariant survives everything that can follow a state that has it, whatever fails, repeats or overlaps |
| ProtocolResults.ReachableInvariant | airflow/dags/lakehouse_oltp_pipeline.py:41-45 | every table of every state reached from an initial one has the invariant |
| Protocol.PublishKeeps | pipelines/src/lakehouse/orchestration/batch.py:135-136 | moving one table's cursor alone keeps the invariant, so a crash between cursor writes is harmless |
| Protocol.LoadKeeps | pipelines/src/lakehouse/oltp/ingestion.py:33-48 | replacing a run's Bronze rows before it publishes, or by the same rows afterwards, keeps the invariant |
| Protocol.ExtractKeeps | pipelines/src/lakehouse/oltp/extract.py:87-164 | re-reading the window under the current cursor keeps the invariant: the new rows cover every watermark the run can still publish |
| Protocol.CaptureKeeps | pipelines/src/lakehouse/orchestration/batch.py:73-98 | capturing again, even a lower watermark after deletes, keeps the invariant: an older watermark returns only while its row still stands |
| Protocol.PublishedMarkSkipsNothing | pipelines/src/lakehouse/oltp/query.py:31-50 | every row the watermark of a sealed run would skip is in published Bronze |
| ProtocolResults.NoLostRows | pipelines/src/lakehouse/oltp/query.py:19-62 | in every reachable state each current source row is in the Bronze of a published run or inside the range predicate of a run that captures its watermark now |
| ProtocolResults.LandedRowsAreNotPastTheWatermark | pipelines/src/lakehouse/oltp/query.py:51-61 | in every reachable state no row of a landing batch is later than the batch's watermark in (timestamp, key) order |
| Protocol.WindowRowsAreTheWindow | pipelines/src/lakehouse/oltp/query.py:31-62 | the extracted rows are exactly the source rows past the cursor (with lookback: not older than it) and not past the watermark, as inequalities of timestamps and keys |
| ProtocolResults.SelectedWritesAreTimely | pipelines/src/lakehouse/oltp/query.py:31-50 | in every reachable state a write is timely if the windows after the captured watermarks select it: without lookback when it is later than them in (timestamp, key) order, with lookback when it is not older than that before them |
| ProtocolResults.LaterWritesAreSteps | pipelines/src/lakehouse/oltp/query.py:31-50 | in every reachable state any write is a step whose timestamp is new for its key, not ahead of the clock, and later than every captured watermark, or with lookback not older than that before one |
| ProtocolResults.PromptWritesAreTimely | pipelines/src/lakehouse/oltp/extract.py:87-95 | a write visible within the lookback of its own timestamp is timely in every reachable state |
| ProtocolResults.CursorsComeFromVerifiedMarkers | pipelines/src/lakehouse/oltp/cursor.py:57-71 | every cursor is the watermark in the marker of a run whose markers all carry the watermarks it captured |
| ProtocolResults.CursorsNeverDisappear | pipelines/src/lakehouse/oltp/cursor.py:47-54 | a table that has a cursor has one in every state that can follow |
| ProtocolResults.LoadedRunAgreesWithSource | pipelines/src/lakehouse/oltp/silver/dedup.py:7-18 | after loading a run captured from the present source, newest-per-key over all Bronze contains every source row as it is, and equals the source exactly if and only if every key Bronze holds still exists there |
| ProtocolResults.LoadedRunEqualsSource | pipelines/src/lakehouse/oltp/ingestion.py:33-62 | without hard deletes the newest version per key over all Bronze runs equals the source table, however many earlier runs failed, were retried or overlapped |
| LateWrites.TimelyWriteLosesNothing | pipelines/src/lakehouse/oltp/query.py:31-50 | whatever follows a timely write, every current row of the table is in published Bronze or selected by the next window |
| LateWrites.WriteIsNeverLostIffTimely | pipelines/src/lakehouse/oltp/query.py:31-40 | a write with an advancing timestamp stays safe in every state that can follow, while it is current, if and only if no run can publish, with what it has already extracted, a watermark that skips it |
| LateWrites.LateRowIsLost | pipelines/src/lakehouse/orchestration/batch.py:122-137 | a reachable state where a late row is selected by the next window, and is lost once a run that had already extracted loads, marks, verifies and publishes |
| ProtocolResults.RerunAfterPublishingIsSafeIff | pipelines/src/lakehouse/oltp/bronze.py:54-55 | repeating capture, extract and load of a published run, under any watermark, is safe exactly when the new window is empty or other published runs hold each row the next window skips |
| Orchestration.VerifiedCursorAdvancements | pipelines/src/lakehouse/oltp/cursor.py:57-71 | succeeds exactly when every table's completion names this run, this table and the captured watermark; then a cursor is prepared exactly for the tables with a watermark and equals the one in its marker |
| Orchestration.Pipeline.CaptureHighWatermarks | pipelines/src/lakehouse/orchestration/batch.py:73-98 | each finished table keeps the lexicographic maximum the database answers and nothing else of it changes; dying after any table leaves a prefix captured and a reachable state |
| Orchestration.Pipeline.ExtractOneTable | pipelines/src/lakehouse/oltp/extract.py:74-187 | the landing batch becomes exactly the source rows that satisfy the inequalities of the current cursor and the captured watermark; nothing else changes |
| Orchestration.Pipeline.RunExtract | pipelines/src/lakehouse/oltp/extract.py:190-224 | stops only where it dies or at a table without a captured watermark; the finished tables hold exactly the rows between cursor and watermark, the rest are untouched |
| Orchestration.Pipeline.IngestBronzeTables | pipelines/src/lakehouse/oltp/ingestion.py:15-62 | finished tables had an accepted manifest, hold the extracted rows (their old ones if nothing was extracted) and a marker with the extraction's watermark; at most one more holds rows without a marker, and a missing or unacceptable manifest stops the task |
| Orchestration.Pipeline.FetchCompletions | pipelines/src/lakehouse/orchestration/batch.py:129-133 | all markers of the run, or a failure exactly if one is missing |
| Orchestration.Pipeline.WriteCursors | pipelines/src/lakehouse/oltp/cursor.py:53-54 | cursors are written one object at a time; a crash leaves a prefix at their watermarks, tables with a null one and all others as they were |
| Orchestration.Pipeline.CommitCursors | pipelines/src/lakehouse/orchestration/batch.py:122-137 | publishes if and only if every table's marker matches the captured watermark; then each finished table's cursor is that watermark, or the old cursor where it is null, and one mismatch moves no cursor |
| Orchestration.Pipeline.RunBatch | airflow/dags/lakehouse_oltp_pipeline.py:222-231 | an uninterrupted run over a source standing still, with landing manifests that are accepted, ends with every cursor at its watermark and every source row newest in Bronze, whatever earlier runs left |
| Landing.CheckFiles | pipelines/src/lakehouse/landing.py:127-140 | reports nothing exactly when every file exists with its recorded hash, size and rows; a missing or altered file is always named |
| Landing.ValidateManifest | pipelines/src/lakehouse/landing.py:114-173 | no violation if and only if version, emptiness, files, row totals and the time window of the manifest are right |
| Landing.AcceptedForIff | pipelines/src/lakehouse/validate.py:33-57 | an accepted manifest is exactly one of the current version with this run's identity, only files below its data directory without parent segments, matching file statistics and totals, and bounds within cursor, lookback and watermark |
| Landing.ExtractAcceptedIffFilesAgree | pipelines/src/lakehouse/oltp/extract.py:116-187 | what the extractor writes for a window passes the check exactly when its files are as recorded and hold the counted rows |
| Landing.AcceptedRowsAreBounded | pipelines/src/lakehouse/landing.py:143-172 | an accepted manifest's rows sum to its files' rows and lie between cursor less lookback and watermark |
| Landing.ValidateManifestOnS3 | pipelines/src/lakehouse/validate.py:33-57 | no violation if and only if the manifest is this run's and table's, lists only files below the run's data directory, and is valid |
| Landing.ValidateRun | pipelines/src/lakehouse/validate.py:60-65 | one verdict a table, empty exactly for an accepted manifest; the landing check passes exactly if all are, and stops at a manifest that cannot be loaded |
| Landing.FileBelongsToOneRun | pipelines/src/lakehouse/validate.py:41-44 | a landing file can be accepted for one table, date and run only |
| Landing.ScopedPathStaysBelowRun | pipelines/src/lakehouse/oltp/ingestion.py:19-20 | an accepted path resolves to somewhere below the run's own data directory |
| Bronze.WrittenReplacesOnlyItsRun | pipelines/src/lakehouse/oltp/bronze.py:41-55 | after a write the run holds exactly the frame's rows, other runs' rows keep their values, earlier columns stay, and a retired column is a null of its type |
| Bronze.WriteAfterInterruption | pipelines/src/lakehouse/oltp/bronze.py:24-39 | an attempt that dies after any number of added columns does not change what a later success gives |
| Bronze.RetriesEndAsOneWrite | pipelines/src/lakehouse/oltp/bronze.py:16-63 | any number of failed or repeated attempts, each with its own rows and ingestion times, followed by a success equals that success alone |
| Bronze.BronzeTable.ReplaceRun | pipelines/src/lakehouse/oltp/bronze.py:16-63 | the column loop, alignment and overwrite give the specified table; no rows or no run id changes nothing |
| Bronze.RowsSplit | pipelines/src/lakehouse/oltp/bronze.py:100-115 | valid and quarantined rows together are the frame's rows as a multiset, none in both |
| Bronze.IngestToBronze | pipelines/src/lakehouse/oltp/bronze.py:66-123 | refused exactly if the corrupt share reaches the threshold or no run is named; on acceptance the run's target rows are, in order, exactly the rows whose marker is null, without it, the run's quarantine rows exactly the others, and the two add up to the frame |
| Bronze.StoredAfterDeath | pipelines/src/lakehouse/oltp/bronze.py:100-121 | a success after an attempt that died in the quarantine or the target write leaves both tables as if that attempt had not been |
| Apportionment.LargestRemainder | generator/src/generator/sql_export.py:457-463 | fails exactly for no values and a positive total; otherwise the counts sum to the total (or the floors, if larger), differ evenly from the floors, and a larger fraction never loses to a smaller one, ties to the lower index |
| Apportionment.ApportionmentIsUnique | generator/src/generator/sql_export.py:457-463 | these promises leave no freedom: any two apportionments are equal |
| Apportionment.LeftoversFollowTheFractions | generator/src/generator/sql_export.py:457-463 | everybody gets the whole units of its value, and nobody fewer leftover units than somebody with a smaller fraction, or an equal one and a later place |
| Apportionment.ScaledTotal | generator/src/generator/sql_export.py:495 | the proportional shares sum to exactly the total |
| Apportionment.OrderTargets | generator/src/generator/sql_export.py:481-496 | the targets sum to exactly the orders and each is the floor of draw * orders / sum or one more (of orders / customers when all draws are zero), the leftovers go by falling fraction |
| Apportionment.ClassAssignment | generator/src/generator/sql_export.py:466-478 | one label per customer exactly when the truncated shares do not exceed the customers, in shuffled order; every class's name occurs at least as often as the floor of its share and as often as apportioned |
| Apportionment.TolerantSharesCanOverflow | generator/src/generator/config.py:399-402 | two shares whose sum the configuration accepts that yield one label too many |
| Apportionment.WeightedIndex | generator/src/generator/sql_export.py:446-454 | returns the index whose cumulative interval holds the draw, never one of weight zero unless all are |
| OrderLifecycle.Decide | generator/src/generator/sql_export.py:1523-1596 | the chain of assignments gives each status its own set of timestamps, a refused delivery overriding completion |
| OrderLifecycle.StatusExactlyWhen | generator/src/generator/sql_export.py:1523-1562 | for all draws when each status occurs: drawn cancellations of two hours or more first, then cash orders of three days or more at every third place of a risky and every 31st of another customer are refused whatever else was drawn, then age and draw decide |
| OrderLifecycle.TimestampsExactlyWhen | generator/src/generator/sql_export.py:1563-1596 | which timestamps an order has and that each is its drawn delay or the limit at the end of the history, whichever is earlier |
| OrderLifecycle.HistoryTellsTheStatus | generator/src/generator/sql_export.py:1795-1916 | for all draws the history is a chain from nothing to the order's status, strictly later at each step except the failed delivery, never after the history's end, its confirmation at the confirmation time |
| OrderLifecycle.PaidExactlyWhen | generator/src/generator/sql_export.py:1570-1587 | a payment time exists exactly for prepaid orders not cancelled and delivered cash orders; refused orders are unpaid cash orders; orders still at paid are younger than eight hours |
| OrderLifecycle.DeliveryAttempts | generator/src/generator/sql_export.py:1953-1996 | one successful attempt, or three failed ones clipped at the failure time |
| OrderLifecycle.AttemptsAddUp | generator/src/generator/sql_export.py:1918-1996 | the attempt count equals the attempt rows, numbered from one, all within dispatch and end; the cash asked for is the total of a cash order, and it is collected exactly on delivery |
| OrderTables.Discount | generator/src/generator/sql_export.py:677-680 | the discount lies within the subtotal, is the fixed value unless that exceeds it, or the percentage rounded down |
| OrderTables.SelectCoupon | generator/src/generator/sql_export.py:683-727 | a selected coupon is valid at that time and subtotal; midnight coupons only in the first two local hours and before all others, campaign before welcome, welcome only for first orders, everyday last; a successful draw without a coupon means none of these is on offer |
| OrderTables.OrderOf | generator/src/generator/sql_export.py:1481-1507 | an order is placed at its drawn time, or at the end; a coupon is used only if drawn, running and worth its minimum, no other was to be preferred, and the discount is its value up to the subtotal or its rounded-down percentage |
| OrderTables.MoneyBalances | generator/src/generator/sql_export.py:1499-1507 | in every written order total = subtotal - discount + shipping, and its payment is for that order, amount and time |
| OrderTables.SubtotalsAddUp | generator/src/generator/sql_export.py:1482-1488 | the line totals naming an order sum to its subtotal, and no line names a missing order |
| OrderTables.RefundsMatchCancellations | generator/src/generator/sql_export.py:1845-1884 | a payment is refunded once and in full if its order was cancelled, and not at all otherwise |
| OrderTables.CouponsAreCounted | generator/src/generator/sql_export.py:2085-2093 | the redemptions left as redeemed are the orders with that coupon that were not cancelled |
| OrderTables.SoldIsInTheRows | generator/src/generator/sql_export.py:1653-1664 | the running total of a variant is the quantity in the item rows of all orders not cancelled |
| OrderTables.BoomsAreFailedOrders | generator/src/generator/sql_export.py:1551-1555 | a customer's counter is the number of written orders that failed at the door |
| OrderTables.WrittenHistoryIsAChain | generator/src/generator/sql_export.py:1795-1916 | the history rows naming an order form that order's own chain, ending in the status of its row |
| OrderTables.AttemptCountsAreKept | generator/src/generator/sql_export.py:1931-1996 | every written shipment has exactly as many attempt rows as its own count says |
| OrderTables.RowsAreNumbered | generator/src/generator/sql_export.py:1467-1468 | identifiers of each counted table run 1, 2, 3, ... across the whole export |
| OrderTables.ReferencesExist | generator/src/generator/sql_export.py:1931-1996 | every row refers to a row of its parent table that exists |
| OrderExport.BuildHistory | generator/src/generator/sql_export.py:1795-1916 | the conditional appends give exactly the order's history, numbered on from the counter |
| OrderExport.Sell | generator/src/generator/sql_export.py:1653-1655 | every variant's total grows by its quantity in the order, the others stay |
| OrderExport.WriteBuffers | generator/src/generator/sql_export.py:1276-1412 | a flush appends every buffer to its table, each row after the row it refers to |
| OrderExport.Exporter.ExportOrder | generator/src/generator/sql_export.py:1465-2082 | after each turn, written and buffered rows together are the rows of all orders so far and all counters agree, wherever the flushes fell |
| OrderExport.Exporter.WriteInventory | generator/src/generator/sql_export.py:2229-2248 | one inventory row a variant, opening = sold + buffer, nothing else written |
| OrderExport.Exporter.WriteBooms | generator/src/generator/sql_export.py:2250-2257 | one update for each customer with a refused delivery, blocked from the third on, none for others |
| OrderExport.Export | generator/src/generator/sql_export.py:1421-2257 | the stream's tables hold exactly the rows of the orders, parents first; every order balances, is refunded exactly if cancelled and has its chain; on hand = opening - quantities of orders not cancelled, within 0 and opening; boom counters match |
| OrderMeaning.StreamTellsTheOrder | generator/src/generator/sql_export.py:1630-2080 | read off the stream alone, the rows that name the k-th order are its head and payment, one item a line, a redemption exactly for a coupon, a refund exactly for a cancellation, a shipment exactly for a completed or refused order and movements with their signs and times |
| OrderMeaning.RowsOfOneOrder | generator/src/generator/sql_export.py:1630-2080 | the rows that name an order are exactly those emitted for it |
| OrderMeaning.RowNumbers | generator/src/generator/sql_export.py:1467-1468 | the i-th row of each counted table in the stream carries the number i |
| OrderMeaning.ParentsComeFirst | generator/src/generator/sql_export.py:1276-1412 | every order, payment or shipment an inserted row names was inserted by an earlier statement |
| SqlWriter.WriteInsert | generator/src/generator/sql_export.py:371-383 | the row loop with its suffixes appends one statement listing all printed rows, and nothing for no rows |
| SqlWriter.WriteBatched | generator/src/generator/sql_export.py:386-398 | the chunk loop appends the inserts of the consecutive slices of at most the batch size |
| SqlText.BodyUndoesEscape | generator/src/generator/sql_export.py:340-341 | reading an escaped string with backslash escapes and doubled quotes gives the original and ends exactly at its closing quote |
| SqlText.SqlRoundTrip | generator/src/generator/sql_export.py:328-398 | for every batch size, MySQL's reading of the emitted statements is the original rows in order, in statements of at most that size for the same table and columns |
| LogWindows.FloorIsMultiple | generator/src/generator/log_export.py:132-135 | the floor is the quarter hour that holds the instant |
| LogWindows.Windows | generator/src/generator/log_export.py:438-443 | the windows are consecutive quarter hours that cover the history, each meeting it |
| LogWindows.EveryInstantHasOneWindow | generator/src/generator/log_export.py:438-443 | every instant of the history lies in exactly one window |
| LogWindows.ExportLogs | generator/src/generator/log_export.py:462-534 | one file for each window with requests, holding exactly as many as arrived (one in an empty first campaign hour), sorted and inside window, UTC hour and history; read in order the files ascend in time and use each index below the emitted count once |
| LogWindows.CampaignsLeaveEvidence | generator/src/generator/log_export.py:471-474 | a campaign's window in the first local hour always has a file |
| Marts.RunMakesDateRightIff | pipelines/src/jobs/logs/build_logs_gold.py:39-70 | a run for a date makes it equal a rebuild exactly if the date still has a group or had no rows; other dates are untouched |
| Marts.IncrementalEqualsRebuild | pipelines/src/jobs/logs/build_logs_gold.py:39-70 | after any changes that never empty a date and any runs, once no changed date is left to run the mart is one rollup of all facts |
| Marts.HourlyAndFunnelEqualRebuild | pipelines/src/lakehouse/logs/gold.py:85-250 | for facts added or replaced within their date, the hourly and the funnel mart equal a full rebuild |
| Marts.ProductMartGoesStale | pipelines/src/lakehouse/logs/gold.py:132-144 | the product mart keeps an old row when its date's only product event loses its product |
| Marts.HourlyRowIs | pipelines/src/lakehouse/logs/gold.py:85-95 | a row counts the events of its date, hour, route and method, and of them those below 400, from 400 to 499 and above |
| Marts.ProductRowIs | pipelines/src/lakehouse/logs/gold.py:132-144 | a row counts a product's events of a date by action, and its distinct known visitors; events without a product have no row |
| Marts.FunnelRowIs | pipelines/src/lakehouse/logs/gold.py:176-215 | a row counts a date's events by action or route prefix, and distinct known visitors |
| Marts.HourlyCountsAddUpIff | pipelines/src/lakehouse/logs/gold.py:91-95 | success, 4xx and 5xx sum to the total exactly when every event of the group has a status |
| Marts.GoldMarts.Rollup | pipelines/src/jobs/logs/build_logs_gold.py:39-70 | each mart becomes its old content with the dates of the new rows replaced; nothing to write changes nothing |
| RbacPlan.ConfiguredGrantIsHeldIff | infrastructure/polaris/sync_polaris_rbac.py:359-389 | a configured grant is held afterwards exactly if it was before or its privilege was not granted with another kind |
| RbacPlan.OnlyConfiguredGrantsAreAdded | infrastructure/polaris/sync_polaris_rbac.py:375-404 | nothing unconfigured is granted, and only pruning revokes, and only unconfigured top-level catalog grants |
| RbacPlan.PrunedGrantsAreConfigured | infrastructure/polaris/sync_polaris_rbac.py:391-404 | after pruning, every top-level privilege granted on the catalog is configured |
| RbacPlan.ManagedRoleGrantsAre | infrastructure/polaris/sync_polaris_rbac.py:340-404 | after a whole reconciliation a managed catalog role is granted exactly what it was, and each configured grant whose privilege it had not, less the unconfigured top-level catalog privileges when pruning |
| RbacPlan.BindingsConvergeIff | infrastructure/polaris/sync_polaris_rbac.py:406-463 | a managed principal role holds exactly those of its configured catalog roles that exist, all of them if and only if all exist |
| RbacPlan.PrincipalConvergesIff | infrastructure/polaris/sync_polaris_rbac.py:465-569 | a managed principal exists afterwards exactly if it existed or no principal held its saved pair at its turn, and holds exactly those of its configured roles that exist |
| RbacPlan.UnmanagedRolesStay | infrastructure/polaris/sync_polaris_rbac.py:286-334 | without the purge flag a whole reconciliation leaves unmanaged roles their grants and bindings |
| RbacPlan.PurgeKeepsExactly | infrastructure/polaris/sync_polaris_rbac.py:305-334 | with the purge flag exactly managed and system roles remain after a whole reconciliation; an unmanaged system role keeps its grants and its bindings to what remains |
| RbacPlan.UnmanagedPrincipalsStayIff | infrastructure/polaris/sync_polaris_rbac.py:286-303 | an unmanaged principal is there after a whole reconciliation exactly if it existed and, when principals are purged, is a system one; it keeps its pair and its roles but for purged ones |
| RbacPlan.UnpurgedPrincipalsStay | infrastructure/polaris/sync_polaris_rbac.py:465-569 | without purge flags an unmanaged principal keeps existence, pair and roles |
| RbacIdempotence.RolesSettle | infrastructure/polaris/sync_polaris_rbac.py:286-463 | after one reconciliation purging, granting, revoking and binding have nothing left to do |
| RbacCredentials.DeadPairIsRenewed | infrastructure/polaris/sync_polaris_rbac.py:478-531 | a principal whose saved pair nobody holds at its turn exists after the run with a pair issued in it, and the state file has that pair |
| RbacCredentials.WorkingPairIsKept | infrastructure/polaris/sync_polaris_rbac.py:478-492 | if somebody holds the saved pair at that turn, nothing is issued, nobody's pair changes and the state file keeps the saved one |
| RbacCredentials.FileHoldsTheirVariables | infrastructure/polaris/sync_polaris_rbac.py:571-585 | the state file holds every variable of a managed principal and no other |
| RbacCredentials.RebuiltServerIsRefilled | infrastructure/polaris/sync_polaris_rbac.py:494-517 | on a server that lost its principals a kept state file does not stop the managed one from being created with a new pair |
| RbacIdempotence.OrderlyRunConverges | infrastructure/polaris/sync_polaris_rbac.py:528-531 | every managed principal exists with exactly the pair its export holds |
| RbacIdempotence.OneRunConverges | infrastructure/polaris/sync_polaris_rbac.py:746-756 | with every referenced role declared, one reconciliation leaves managed principals and principal roles with exactly their configured roles and managed catalog roles with their privileges, exactly so for top-level ones on the catalog when pruning |
| RbacIdempotence.ExportsAreComplete | infrastructure/polaris/sync_polaris_rbac.py:580-585 | no managed variable is missing when the state file is written |
| RbacIdempotence.SecondRunChangesNothingIff | infrastructure/polaris/sync_polaris_rbac.py:746-756 | a second reconciliation changes no role, grant, binding or credential, nor the state file, if and only if every managed principal exports both variables |
| RbacIdempotence.RenamedPrincipalIsMissing | infrastructure/polaris/sync_polaris_rbac.py:478-488 | a principal whose saved pair works for another name is not created |
| Rbac.Reconciler.PurgeUnmanagedEntities | infrastructure/polaris/sync_polaris_rbac.py:286-334 | the deleting loops remove exactly the unmanaged entities and their bindings |
| Rbac.Reconciler.ReconcileCatalogRole | infrastructure/polaris/sync_polaris_rbac.py:340-404 | the grant and revoke loops leave the planned grants, whatever the role held |
| Rbac.Reconciler.ReconcilePrincipalRole | infrastructure/polaris/sync_polaris_rbac.py:410-463 | the bind and unbind loops leave the configured roles that exist |
| Rbac.Reconciler.ReconcilePrincipals | infrastructure/polaris/sync_polaris_rbac.py:465-569 | the loop over principals gives the planned credentials, exports and assignments |
| Rbac.Reconciler.Reconcile | infrastructure/polaris/sync_polaris_rbac.py:746-756 | the whole sequence of requests gives the planned server and state file |
| CredentialFile.LoadSavedCredentials | infrastructure/polaris/sync_polaris_rbac.py:196-211 | the bootstrap loop returns what the format's reader is specified to return |
| CredentialFile.ReadServiceCredentials | pipelines/src/lakehouse/spark.py:16-23 | the loop shared by the Spark and Flink jobs returns what its reader is specified to return |
| CredentialFile.CredentialRoundTrip | infrastructure/polaris/sync_polaris_rbac.py:656-663 | each reader recovers exactly the written credentials if and only if every key can be carried and no value has a line break |
| CsvText.QuotedUndoesDoubling | apps/storefront/src/lib/csv-export.ts:15-17 | reading a quoted cell with doubled quotes gives the original text |
| CsvText.CsvRoundTrip | apps/storefront/src/lib/csv-export.ts:12-23 | an RFC 4180 reader recovers exactly the header and row strings if and only if there is a header and no row is empty |
| Reconciliation.WithinToleranceIff | pipelines/src/lakehouse/oltp/reconcile.py:49-62 | a comparison passes exactly when the gap lies below the tolerance plus half a unit of the fourth decimal, or on it with an even last digit; a zero source passes only with zero |
| Reconciliation.PassBoundsTheGap | pipelines/src/lakehouse/oltp/reconcile.py:49-62 | a pass implies gap * 10^6 <= (10^4 * tolerance + 1/2) * source |
| Reconciliation.RoundingAdmitsMore | pipelines/src/lakehouse/oltp/reconcile.py:56 | a variance above the tolerance that passes |
| Reconciliation.VarianceIsNearest | pipelines/src/lakehouse/oltp/reconcile.py:49-57 | the recorded variance is zero for equal values, one hundred percent for a zero source, and otherwise the nearest ten-thousandth of a percent |
| Reconciliation.KeptAre | pipelines/src/lakehouse/oltp/reconcile.py:65-77 | a table is checked exactly if it is asked for and configured |
| Reconciliation.CheckTableCounts | pipelines/src/lakehouse/oltp/reconcile.py:65-127 | one truthful check for each configured table in order, unknown names skipped, a failed read never passes |
| Reconciliation.MetricsSumAmounts | pipelines/src/lakehouse/oltp/reconcile.py:139-193 | one row contributes its amount if its status is succeeded (payments, refunds) or known and not cancelled (orders), and nothing otherwise; values add up over rows |
| Reconciliation.AmountMovesTheSum | pipelines/src/lakehouse/oltp/reconcile.py:178-193 | a selected row whose amount differs by d moves the recorded value by d |
| Reconciliation.CheckFinancialMetrics | pipelines/src/lakehouse/oltp/reconcile.py:130-217 | one truthful check for each of the three metrics, comparing the sums of the amounts each query selects |
| Reconciliation.EqualTablesReconcile | pipelines/src/lakehouse/oltp/reconcile.py:220-270 | a Silver side with the source's counts and rows, in whatever order, always reconciles |
| Reconciliation.RunReconciliationGate | pipelines/src/lakehouse/oltp/reconcile.py:220-270 | the gate returns if and only if every table and metric reconciles (and a run is named when results are kept); results are kept whether or not it does |

## Left out

- Spark, JDBC, S3, Iceberg, Airflow and HTTP themselves: each call is one atomic read, write or overwrite.
- Consistency of the extractor's two reads: the window query and the aggregate query are one read in `Protocol`, and may disagree in `Landing`.
- Parallel extraction: the worker pool's tables do not share state, so one order of them is modelled.
- Capture, extract and a changed reload of a run after it started publishing: excluded by the DAG's order in `Protocol`, treated on its own in `ProtocolResults.RerunAfterPublishingIsSafeIff`.
- Rows with a null cursor column, tables whose updates do not advance the cursor column, and timestamps ahead of the clock.
- Timestamp string formats, time zones and floating-point rounding; the manifest's fallback to string comparison.
- Silver and Gold OLTP transforms: newest-per-key is a specification function only, with the ingestion time as tie-breaker left out because a key's timestamps are strictly increasing.
- MD5 and Parquet contents: file statistics are a function of the path.
- The generator's random streams: probabilities, weights and the choice of order times before they are clipped to the history's end.
- Carts, cart items, reviews, returns, wishlists, master data and inventory versions of the SQL export; identifiers count from the first free one of each table.
- OrderExport.Export: takes the customers' orders as one list, in place of the two nested loops that produce it.
- SqlText.SqlRoundTrip: covers nulls, booleans (read back as 0 and 1), integers, strings and UUID expressions; datetime values are strings of a fixed format and table and column names contain no backtick.
- LogWindows.ExportLogs: request identifiers are ranked by an arbitrary function, and a file's JSON text, routes, actors and latencies are left out.
- Marts.IncrementalEqualsRebuild: averages, percentiles and rates are functions of the same groups and counts and are not computed.
- Orchestration.Pipeline.RunExtract: does not model the cancellation of the other tables' pending work when one fails.
- Rbac.Reconciler.Reconcile: does not model catalog properties, namespaces, tokens of the root principal, and the copies of credentials written for single services.
- RbacIdempotence.SecondRunChangesNothingIff: assumes distinct principals and variables, and that a saved pair that works belongs to the principal it is saved for, and that issued pairs repeat no saved one; the same holds for RbacIdempotence.OneRunConverges.
- React components, ORM declarations, checkout and order services, authentication and the Kafka producer.
