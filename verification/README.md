# Schema Sentry verification

Schema Sentry keeps a stored column baseline in step with the schema of an observed PostgreSQL
database. This project models its core in Dafny and proves what the core promises.

| part of the system | modules |
|---|---|
| references, payloads, fingerprints | `Models` |
| type policy, and what it means for stored values; type syntax and its spellings | `TypePolicy`, `TypeValues`, `Strings`, `TypeSyntax`, `TypeSpelling` |
| column diff | `Ordering`, `Diff` |
| lineage search over a possibly cyclic graph, and which path it reports | `Lineage`, `Traversal`, `PathChoice`, `Determinism` |
| the metadata tables and the scan and accept requests | `Database`, `Reconciliation`, `Requests`, `Acceptance` |
| pipeline catalog | `Catalog`, `CatalogService` |
| alert outbox | `Outbox`, `Notifications` |
| pipeline guard, dashboard and alert views | `Guard` |
| whole serial runs, from scans to guard and alerts, and runs that reach the states singled out | `Lifecycle`, `Reachability`, `EndToEnd`, `Scenarios` |
| the session and the repositories and services over it | `Sessions`, `ScanRepository`, `ChangeRepository` |
| interleaved transactions and their locks | `Interleaving` |

A `Db` value holds the tables of one data source; a request is a function from one value to the
next, where a rollback returns the value it started from. The classes carry the same tables as
fields and change them in place, loop by loop as the program does; each request method is proved
equal to its function. An `Event` is one request (scan, accept, catalog sync, dispatch, retry), a
run is a list of events from a newly registered source, and the lifecycle theorems hold in every
state some run reaches. `Interleaving` splits accepts and scans into their steps and lets any
number of transactions interleave.

Two conventions. `DistinctlyNamed` says that no two tables observed in a run share a qualified name.
Names are plain concatenations, so it can fail: `Models.SchemasClashIff` says exactly for which
schemas. It holds whenever schema names carry no dot (`Reachability.DotFreeRunsAreDistinctlyNamed`);
the deployed collector reads only `public` and `mart` by default. A `clock` gives each acceptance an
arbitrary time.

## Where the code and its documentation differ

The model follows the code.

- `docs/architecture.md:200` says each channel records its own attempt, so that one channel cannot
  undo another. `dispatch_scan` handles all channels in one transaction, and an exception for a
  later channel undoes the record of sends already made. Such an exception is a missing notifier, or
  anything a sender raises besides `DeliveryFailure` (the e-mail sender builds its message outside
  its `try`). `Outbox.DispatchFaithfulIff` and `Reachability.SendsRecordedIff` give the exact
  condition for one dispatch and for whole runs, `Scenarios.ResendsWithoutBound` the consequence. A
  scan's channels and the dispatcher's notifiers come from the same settings, and the application
  dispatches a scan once, so a missing notifier takes a change of configuration and a new dispatch.
- `docs/operations.md:158` ties the delays of 60 and 300 seconds to the first and second failure.
  The code indexes them by attempt number, and an attempt is possible after a successful send; the
  proved bound is three sends, not one (`Reachability.RetrySendsIff`, `Reachability.SendsBoundedOverRuns`).
- `docs/architecture.md:161` says stable fingerprints suppress duplicates, the repository's
  `README.md:57` that column order is no drift. The fingerprint covers severity, default and ordinal
  too: the diff reports nothing for default and ordinal alone (`Diff.DiffEmptyIff`), but for a column
  that does drift a change in any of the three resolves the OPEN row, opens another and may alert
  again (`Reachability.RowStaysOpenIff`, `Scenarios.MovedColumnReopens`).
- The repository's `README.md:53` promises WARNING for widened numeric types. The code gives it only
  when the scale stays as declared: numeric(10,2) to numeric(12,4) loses no value and is BREAKING
  (`TypeValues.ScaleWideningIsBreaking`). `TypeValues.NumericPolicyExact` has the exact condition
  among numeric types, `TypeValues.BreakingLosesNothingIff` that for all canonical types.
- The first scan creates the baseline, and so does any later scan of a baseline that acceptances
  have emptied. It does not look at OPEN rows, so additions nobody accepted stay OPEN without
  drift behind them (`Acceptance.RescanMirrorsIff`, `Scenarios.StaleRowIsReachable`).
- `docs/architecture.md:160` says later observations are persisted. A scan that observes a table
  the first scan did not have raises and rolls back, and so does every scan after it while the
  table is there (`Reconciliation.DriftCommitsIff`, `Scenarios.NewTableStopsScans`).
- `docs/architecture.md:65` says an incomplete snapshot is recorded as failed. The code sees only
  an empty one (`Reachability.FailureOverRuns`).

## Model

| member | source | states |
|---|---|---|
| `Models.SchemasClashIff` | src/schema_sentry/domain/models.py:13-14 | two schemas admit tables of one qualified name iff they are equal or one continues the other after a dot |
| `Models.DatasetNameInjective` | src/schema_sentry/domain/models.py:8-14 | so `schema.table` identifies a dataset when schema names carry no dot |
| `Models.DatasetNameClash` | src/schema_sentry/domain/models.py:13-14 | in general two datasets can share a name |
| `Models.ColumnNameInjective` | src/schema_sentry/domain/models.py:18-24 | `schema.table.column` identifies a column when schema and table carry no dot |
| `Diff.CompareColumn` | src/schema_sentry/domain/diff.py:27-53 | the branching comparison of one column yields exactly the changes the specification lists for it, in that order |
| `Diff.DiffColumns` | src/schema_sentry/domain/diff.py:65-85 | the program's loops over both dictionaries return the drift: exactly the changes of each column, nothing else, strictly increasing in the sort key, however the set of references is iterated |
| `Diff.SortedChangesAreDiff` | src/schema_sentry/domain/diff.py:74-85 | comparing column by column and sorting yields exactly those changes in strictly increasing order |
| `Diff.DiffUnique` | src/schema_sentry/domain/diff.py:56-85 | those two facts determine the diff: no other list has them |
| `Diff.DiffEmptyIff` | src/schema_sentry/domain/diff.py:27-53 | empty iff both sides have the same columns with equal type and nullability, whatever default and ordinal |
| `Diff.DiffSeverities` | src/schema_sentry/domain/diff.py:33-52 | every reported change carries both sides as they are and the severity of the policy: BREAKING only for read columns dropped or made nullable and for incompatible types |
| `Diff.DiffListsDue` | src/schema_sentry/domain/diff.py:27-53 | an addition, a drop, a type change and a nullability change are reported for a column iff it is new, gone, of another type, of other nullability; each once, and a column can have the last two together |
| `Diff.DiffOrder` | src/schema_sentry/domain/diff.py:56-85 | the report is by schema, table and column name, and for one column the nullability change precedes the type change |
| `Diff.DiffIgnoresInputOrder` | src/schema_sentry/domain/diff.py:70-85 | reordering either input leaves the diff unchanged when references are distinct |
| `Diff.DuplicateRefsMakeOrderMatter` | src/schema_sentry/domain/diff.py:70-71 | with two definitions of one reference the order always decides |
| `Diff.DiffFingerprintsDistinct` | src/schema_sentry/domain/fingerprint.py:7-10 | no two changes of a diff share a fingerprint when no two datasets on its sides share a name |
| `Diff.FingerprintsClashWithDots` | src/schema_sentry/domain/models.py:89-97 | otherwise two changes of one diff can share one |
| `TypeValues.KeepsValuesIff` | src/schema_sentry/domain/models.py:27-32 | for an independent account of the values of a type: one type holds all values of another iff names and modifiers say so, integers, numerics of any scale, texts and others alike |
| `TypeValues.CompatibleKeepsValues` | src/schema_sentry/domain/type_rules.py:68-100 | a change that is not BREAKING keeps every value of the old type |
| `TypeValues.ChainsStayCompatible` | src/schema_sentry/domain/type_rules.py:68-100 | any chain of non-BREAKING steps is non-BREAKING end to end and loses no value |
| `TypePolicy.CompatibleIsPartialOrder` | src/schema_sentry/domain/type_rules.py:68-100 | "not BREAKING" is a partial order on canonical types |
| `TypePolicy.MutuallyCompatibleIff` | src/schema_sentry/domain/type_rules.py:68-100 | exactly which pairs, canonical or not, are accepted in both directions |
| `TypePolicy.AntisymmetryNeedsCanonicalShape` | src/schema_sentry/domain/type_rules.py:87-98 | two different types with a scale but no precision are accepted both ways |
| `TypeValues.IntegerPolicyExact` | src/schema_sentry/domain/type_rules.py:72-75 | among integer types non-BREAKING iff no value is lost |
| `TypeValues.VarcharPolicyExact` | src/schema_sentry/domain/type_rules.py:77-80 | among `character varying` types non-BREAKING iff no value is lost, except for lengths below zero, which hold no value |
| `TypeValues.NumericPolicyExact` | src/schema_sentry/domain/type_rules.py:87-98 | numeric(p,s) to numeric(q,t), any scales: no value is lost iff s <= t and p + t <= q + s, and the policy agrees iff the declared scales are equal or some value is lost |
| `TypeValues.BreakingLosesNothingIff` | src/schema_sentry/domain/type_rules.py:75-100 | exactly which BREAKING changes lose nothing: text to unbounded `character varying`, integer to wide enough numeric and back, numeric to numeric with no fewer digits on either side, and types that hold no value or only zero |
| `TypeValues.ScaleWideningIsBreaking` | src/schema_sentry/domain/type_rules.py:87-98 | numeric(10,2) to numeric(12,4) is one of them |
| `TypeSyntax.NormalizeIdempotent` | src/schema_sentry/domain/type_rules.py:28-30 | alias and whitespace normalisation done twice is done once |
| `TypeSyntax.ParseIntOfText` | src/schema_sentry/domain/type_rules.py:43 | decimal text of any integer, sign included, reads back as that integer |
| `TypeSyntax.RenderThenParse` | src/schema_sentry/domain/models.py:34-41 | parsing a rendered canonical type gives the type back |
| `TypeSyntax.ParsedIsRenderable` | src/schema_sentry/domain/type_rules.py:33-50 | whatever the parser accepts has the canonical shape |
| `TypeSyntax.ParseRenderParse` | src/schema_sentry/domain/type_rules.py:33-50 | parse, render, parse equals parse, for every accepted text |
| `TypeSyntax.SameValuesTwoTypes` | src/schema_sentry/domain/type_rules.py:45-49 | `numeric(p)` and `numeric(p,0)` parse to different types with the same values, and each direction is BREAKING |
| `TypeSyntax.CollectedCanonicalIff` | src/schema_sentry/domain/type_rules.py:60-65 | a collected type has the canonical shape iff it is not a numeric with a scale and no precision |
| `TypeSpelling.NormalizedSpelling` | src/schema_sentry/domain/type_rules.py:28-30 | any spelling of the words of a name, in any case and with any whitespace around and between them, normalises to the same full name |
| `TypeSpelling.AliasesExact` | src/schema_sentry/domain/type_rules.py:8-18 | the nine aliases each stand for their full name, every other name for itself |
| `TypeSpelling.MatchExact` | src/schema_sentry/domain/type_rules.py:7 | the accepted shapes: a nonempty name without parentheses, alone or followed by one parenthesised text without parentheses |
| `TypeSpelling.PlainTypeParses` | src/schema_sentry/domain/type_rules.py:33-41 | a name in any spelling is the type of that full name, without modifiers |
| `TypeSpelling.ModifiedTypeParses` | src/schema_sentry/domain/type_rules.py:43-50 | name, numbers and spaces in any spelling: one length is accepted on the character and bit types, precision and perhaps scale on numeric; any other type or number of modifiers is an error |
| `TypeSpelling.CollectedIsParsed` | src/schema_sentry/domain/type_rules.py:53-65 | every canonical type comes back from its reported name and modifiers, modifiers kept and whatever the underlying name; so it agrees with the parser on the printed type |
| `TypeSpelling.CollectedExact` | src/schema_sentry/domain/type_rules.py:60-65 | whatever is reported: the name is that of the data type, or of the underlying type if the data type is USER-DEFINED, in any spelling; a length is kept on character and bit types only, precision and scale on numeric only |
| `Lineage.LineageGraph.constructor` | src/schema_sentry/domain/lineage.py:40-57 | the grouping loop files every edge under its upstream column, each list sorted |
| `Lineage.LineageGraph.ImpactsForColumns` | src/schema_sentry/domain/lineage.py:64-89 | the loop with queue, visited set and found map ends and computes the specified search |
| `Lineage.VisitProgress` | src/schema_sentry/domain/lineage.py:70-79 | each round uses up unvisited (pipeline, column) keys or shortens the queue, so the loop ends on cyclic graphs |
| `Traversal.ExploreInvariant` | src/schema_sentry/domain/lineage.py:70-79 | from any frontier that is sound, layered by path length and complete, the search ends in such a frontier with an empty queue |
| `Traversal.ChainsAreFound` | src/schema_sentry/domain/lineage.py:70-79 | every chain from a seed is matched by an impact with the same key and no longer path |
| `Traversal.TraversalExact` | src/schema_sentry/domain/lineage.py:64-89 | one impact per (pipeline key, downstream) pair reached and no other, in order, each with a genuine chain from a seed and none shorter |
| `Traversal.ImpactsInOrder` | src/schema_sentry/domain/lineage.py:80-89 | CRITICAL impacts come before HIGH, MEDIUM and LOW ones, then by pipeline key and qualified column name |
| `PathChoice.ReportedPathIsFirst` | src/schema_sentry/domain/lineage.py:44-79 | of all chains to a pipeline and column, any graph and seeds, the reported path is the first: shortest, then from the earlier seed, then at the first step that differs the smaller pipeline key or downstream column |
| `Traversal.SeedsUnion` | src/schema_sentry/domain/lineage.py:65-67 | several seeds reach the union of what each reaches |
| `Traversal.ImpactsOfBreaking` | src/schema_sentry/domain/lineage.py:59-62 | changes have an impact for a pipeline and column iff an edge of that pair is reached from the column of some BREAKING one |
| `Determinism.EdgeOrderIrrelevant` | src/schema_sentry/domain/lineage.py:40-57 | relisting the edges changes neither impacts nor paths nor order |
| `Determinism.SeedOrderIrrelevant` | src/schema_sentry/domain/lineage.py:80-89 | relisting or repeating seeds keeps impacts, order and every path length, when no two downstream columns share a qualified name, as dot-free schema and table names guarantee (`Determinism.DotFreeTablesAreUnique`) |
| `Reconciliation.ReconciledMirrors` | src/schema_sentry/infrastructure/db/repositories/scans.py:324-362 | keeping, resolving and adding rows by fingerprint leaves OPEN rows in bijection with the diff, payload for payload |
| `Reconciliation.ReconciledUniqueIff` | src/schema_sentry/infrastructure/db/models/scans.py:59-67 | reconciling keeps the unique index on OPEN fingerprints iff the added changes have distinct fingerprints |
| `Reconciliation.DriftCommitsExactly` | src/schema_sentry/infrastructure/db/repositories/scans.py:335-366 | whatever the names: a drift scan commits iff the added changes are in registered tables and have distinct fingerprints; otherwise the request leaves everything as it was |
| `Reconciliation.DriftCommitsIff` | src/schema_sentry/infrastructure/db/repositories/scans.py:342-344 | when no two tables share a name, that is iff every observed table is registered |
| `Reconciliation.DriftSeverity` | src/schema_sentry/application/scan_service.py:76-77 | in the drift of a scan a drop is BREAKING iff some stored edge reads the column, a nullability change iff the column became nullable and some edge reads it, a type change iff the new type is not compatible; new nullable columns are INFO, all the rest is WARNING |
| `Requests.ScanOutcomes` | src/schema_sentry/api/routers/scans.py:29-53 | which requests are refused, recorded as failed, taken as baseline, compared with it or rolled back; refused or rolled back, a request changes nothing |
| `Requests.FailedScanExact` | src/schema_sentry/infrastructure/db/repositories/scans.py:368-382 | a scan of a source that is down or shows no column adds one FAILED row with the name of the error, and one untried alert per enabled channel, and changes nothing else |
| `Requests.FirstScanExact` | src/schema_sentry/infrastructure/db/repositories/scans.py:277-310 | the first scan commits iff no column is reported twice; then the snapshot is the baseline, exactly its tables are added, nobody is alerted; otherwise nothing changes |
| `Requests.DriftScanExact` | src/schema_sentry/infrastructure/db/repositories/scans.py:312-366 | a committed drift scan, row by row and field by field: rows stay unless OPEN and unreported, then RESOLVED at its time; each change without OPEN row gets a row with its data and the current version; alerts iff one of these is WARNING or BREAKING; baseline, version and catalog stay |
| `Requests.DriftRowsOrdered` | src/schema_sentry/infrastructure/db/repositories/scans.py:335-358 | the rows added are in the order of the diff, so no change gets two |
| `Reconciliation.DriftScanRecomputes` | src/schema_sentry/infrastructure/db/repositories/scans.py:312-366 | after a committed drift scan the OPEN rows mirror the diff of baseline and snapshot |
| `Reconciliation.UnchangedRescanIsNoOp` | src/schema_sentry/infrastructure/db/repositories/scans.py:338-339 | scanning an unchanged source again changes no change row and adds no delivery |
| `Reconciliation.RestoredSchemaResolvesAll` | src/schema_sentry/infrastructure/db/repositories/scans.py:359-362 | a snapshot of the baseline's shape leaves no row OPEN: every OPEN row is RESOLVED at the scan's time, every other row and every delivery is as before, none is added |
| `Acceptance.AcceptInAnyOrder` | src/schema_sentry/infrastructure/db/repositories/changes.py:40-76 | accepting any OPEN rows in any order succeeds at every step, and the result depends on the set of rows only |
| `Acceptance.AcceptanceConverges` | src/schema_sentry/infrastructure/db/repositories/changes.py:40-76 | accepting all of them ends in a baseline whose diff is empty, with one version per acceptance |
| `Acceptance.DiffAfterSettle` | src/schema_sentry/infrastructure/db/repositories/changes.py:65-70 | accepting columns removes exactly their changes from the diff, type and nullability together |
| `Acceptance.PartialAcceptanceExact` | src/schema_sentry/infrastructure/db/repositories/scans.py:324-364 | accept some rows and rescan: no row or delivery is added, untouched rows stay OPEN, exactly the siblings of accepted rows are RESOLVED |
| `Acceptance.RescanMirrorsIff` | src/schema_sentry/application/scan_service.py:59-80 | after that rescan the OPEN rows mirror the diff, payload for payload, iff the acceptances left a column in the baseline |
| `Acceptance.StaleAfterEmptying` | src/schema_sentry/application/scan_service.py:61-74 | otherwise OPEN rows remain although the diff is empty |
| `Requests.AcceptExact` | src/schema_sentry/infrastructure/db/repositories/changes.py:40-76 | not found iff there is no such OPEN row, a conflict with both versions iff they differ, an error iff side or column are missing; otherwise one baseline column takes type, nullability and default of the row (an added one its ordinal, a dropped one goes), the version is one higher, the row ACCEPTED, and nothing else changes |
| `Lifecycle.EveryRunKeepsInv` | src/schema_sentry/api/dependencies.py:40-55 | after every run: version is one plus the ACCEPTED rows, timestamps match states, no recorded version is ahead, OPEN fingerprints are unique, no committed scan is RUNNING, no (scan, channel) pair repeats, retry times match status, the catalog is consistent |
| `Lifecycle.RunHistory` | src/schema_sentry/infrastructure/db/repositories/changes.py:72-76 | whatever runs next, change rows only move OPEN to ACCEPTED or RESOLVED and then stay, and scans, snapshots and deliveries are never rewritten to another scan |
| `Reachability.AcceptSucceedsIff` | src/schema_sentry/application/change_service.py:42-48 | in every reachable state an acceptance succeeds iff the row is OPEN and the version is current; no applicable row ever raises |
| `Reachability.ReachedDriftScan` | src/schema_sentry/infrastructure/db/repositories/scans.py:312-366 | from every reachable state a drift scan either rolls back, iff a table is unregistered, or leaves OPEN rows mirroring the diff |
| `Reachability.AcceptAllIsRun` | src/schema_sentry/application/change_service.py:42-48 | accepting with refreshed versions is the run of the corresponding requests |
| `Reachability.AcceptingAllConverges` | src/schema_sentry/infrastructure/db/repositories/changes.py:40-76 | from every reachable state: scan, accept all in any order; the diff is then empty and every row ACCEPTED |
| `Reachability.AcceptingSomeIsExact` | src/schema_sentry/infrastructure/db/repositories/scans.py:324-364 | from every reachable state: scan, accept some, rescan; the exact fate of every row, and when the result mirrors the diff |
| `Reachability.FailureOverRuns` | src/schema_sentry/application/scan_service.py:91-104 | anywhere in a run, a scan of a source that is down or shows no column adds its scan row and its alerts and changes nothing else; the row stays FAILED with the name of the collector's error, or EmptySchemaSnapshot, and never owns a change row or an observed column |
| `Lifecycle.FailedScansOwnNothing` | src/schema_sentry/infrastructure/db/repositories/scans.py:368-382 | after every run no change row and no observed column belongs to a FAILED scan |
| `Reachability.AlertsExactOverRuns` | src/schema_sentry/infrastructure/db/repositories/scans.py:333-382 | at the end of every run each committed scan owns one delivery per enabled channel iff it failed or found a WARNING or BREAKING change that was not OPEN, else none |
| `Reachability.RecurringChangeAlertsAgain` | src/schema_sentry/infrastructure/db/repositories/scans.py:335-358 | any change that is not INFO, whose row left OPEN and that recurs, opens a new row and alerts every enabled channel; the old row stays |
| `Reachability.SnapshotsKeptOverRuns` | src/schema_sentry/infrastructure/db/repositories/scans.py:409-426 | at the end of every run each completed scan still owns exactly the snapshot it was given, in order, and a failed one none |
| `Reachability.RowStaysOpenIff` | src/schema_sentry/domain/models.py:53-97 | when a scan reports a change for the column and kind of an OPEN row: the row stays, and none is added, iff severity, type, nullability, default and ordinal agree on both sides; otherwise it is RESOLVED and another opened |
| `Reachability.SendsBoundedOverRuns` | src/schema_sentry/application/notification_service.py:163-203 | over every well configured run the sends of a delivery equal its attempt count, at most three, spaced by 60 and 300 seconds after failures, and the row reflects the last send |
| `Scenarios.StaleRowIsReachable` | src/schema_sentry/application/scan_service.py:61-74 | for any two columns of a table, a run that replaces one by the other and accepts the drop ends without drift and with an OPEN row |
| `Scenarios.RecurrenceIsReachable` | src/schema_sentry/infrastructure/db/repositories/scans.py:335-364 | for any added NOT NULL column, a run in which it is added, removed and added again records it twice and alerts again |
| `Scenarios.MovedColumnReopens` | src/schema_sentry/domain/models.py:53-74 | for any added column, a run in which only its ordinal moves resolves the OPEN row and opens another for the same addition |
| `Scenarios.NewTableStopsScans` | src/schema_sentry/infrastructure/db/repositories/scans.py:342-344 | from every reachable state with a baseline: as long as every nonempty snapshot shows a table that is not registered, no requests short of an acceptance change baseline, change rows, snapshots or version |
| `Reachability.SendsRecordedIff` | src/schema_sentry/api/dependencies.py:127-137 | at the end of a run rows and sends agree iff every dispatch found a working sender for each pending row or none for the first: what one fails to record is never recorded later |
| `Reachability.RetrySendsIff` | src/schema_sentry/application/notification_service.py:163-176 | after a well configured run a retry makes one send iff fewer than three were made, the delay of a failed last one is over and the delivery has a working sender; otherwise it changes nothing |
| `Outbox.PendingOfExact` | src/schema_sentry/infrastructure/db/repositories/alerts.py:43-52 | dispatch selects exactly the PENDING rows of the scan, in creation order |
| `Outbox.AttemptExact` | src/schema_sentry/application/notification_service.py:163-203 | an attempt in terms of the sends made so far: refused, in this order, if there is no such delivery, three were made, the pause after a failure is not over (with its end), the channel has no sender, the sender raises; otherwise one send, counted and recorded with its outcome and the next time |
| `Outbox.DispatchExact` | src/schema_sentry/application/notification_service.py:146-153 | a dispatch that finds its senders sends every PENDING alert of the scan once, in order of creation, and nothing else, and records each as sent or failed |
| `Outbox.DispatchFaithfulIff` | src/schema_sentry/application/notification_service.py:146-153 | rows and sends stay in step across a dispatch iff every pending row has a sender that returns or reports a failure, or the first one has none |
| `Scenarios.ResendsWithoutBound` | src/schema_sentry/application/notification_service.py:174-181 | after a failed first scan that alerts both channels, n dispatches with a working sender for the first channel only send that alert n times, for every n, and its row still counts no attempt |
| `Outbox.SecondDispatchSendsNothing` | src/schema_sentry/infrastructure/db/repositories/alerts.py:43-52 | with all notifiers present a second dispatch of a scan sends nothing and changes nothing |
| `Outbox.RetryFaithful` | src/schema_sentry/application/notification_service.py:160-161 | a retry keeps rows and sends in step, whether it raises or not |
| `Guard.GuardExact` | src/schema_sentry/infrastructure/db/repositories/changes.py:140-227 | the guard lists each row that is OPEN and BREAKING and from whose column an edge of the pipeline is reached, once, with its data, by schema, table, column and id, and no other |
| `Guard.AffectedDagsExact` | src/schema_sentry/infrastructure/db/repositories/scans.py:118-132 | the dashboard lists a DAG for a column iff an edge of that DAG is reached from it |
| `Guard.GuardAgreesWithDashboard` | src/schema_sentry/infrastructure/db/repositories/scans.py:118-132 | such an edge is reachable iff the dashboard lists the pipeline's DAG for the column |
| `Guard.AlertWithinDashboard` | src/schema_sentry/infrastructure/db/repositories/alerts.py:154-164 | the alert's one-hop DAGs are among the dashboard's |
| `Guard.OneHopExact` | src/schema_sentry/infrastructure/db/repositories/alerts.py:154-164 | they are exactly the DAGs of the impacts one edge away |
| `Guard.SafeIffUnaffected` | src/schema_sentry/application/validation_service.py:41-48 | in every reachable state a known pipeline is safe iff no OPEN BREAKING change is listed with its DAG |
| `Guard.SettledIsSafe` | src/schema_sentry/infrastructure/db/repositories/changes.py:187-193 | in every reachable state in which each BREAKING row is ACCEPTED or RESOLVED every pipeline is safe |
| `EndToEnd.GuardAfterScan` | src/schema_sentry/application/validation_service.py:41-57 | from a scan to the guard: in every reachable state, once a drift scan has committed, a pipeline is safe iff every baseline column it depends on, however far upstream, is still there, with a compatible type, and NOT NULL if it was |
| `EndToEnd.MissingColumnAlerts` | src/schema_sentry/infrastructure/db/repositories/scans.py:335-364 | from a scan to the alerts: a committed scan that misses a column some edge reads leaves an OPEN BREAKING drop of it and, unless there was one, alerts every enabled channel |
| `EndToEnd.AcceptedIsSafe` | src/schema_sentry/application/validation_service.py:41-57 | once all OPEN rows of a scan are accepted, in any order, every pipeline is safe |
| `Sessions.Session.Commit` | src/schema_sentry/api/dependencies.py:45-50 | commit publishes the pending tables, changes none and releases the row lock |
| `Sessions.Session.Rollback` | src/schema_sentry/api/dependencies.py:51-53 | rollback restores every table to what was committed and releases the row lock |
| `ScanRepository.SqlAlchemyScanRepository.CreateRunningScan` | src/schema_sentry/infrastructure/db/repositories/scans.py:225-235 | adds one RUNNING row, or nothing for an unknown source |
| `ScanRepository.SqlAlchemyScanRepository.LoadExpectedColumns` | src/schema_sentry/infrastructure/db/repositories/scans.py:237-257 | the rows stand for the whole baseline, and are empty iff it is |
| `ScanRepository.SqlAlchemyScanRepository.LoadDependencyColumns` | src/schema_sentry/infrastructure/db/repositories/scans.py:259-275 | exactly the upstream columns of the stored edges |
| `ScanRepository.SqlAlchemyScanRepository.CompleteInitialBaseline` | src/schema_sentry/infrastructure/db/repositories/scans.py:277-310 | registers tables, stores baseline and snapshot and completes the scan, or fails on a duplicate column; change rows are untouched |
| `ScanRepository.SqlAlchemyScanRepository.CompleteDriftScan` | src/schema_sentry/infrastructure/db/repositories/scans.py:312-366 | the loops over diff and OPEN rows leave exactly the tables of the specified drift scan, or raise when it does; alerts are added iff a WARNING or BREAKING change has the fingerprint of no OPEN row |
| `ScanRepository.ScanService.RunScan` | src/schema_sentry/application/scan_service.py:48-104 | the branching between initial, drift and failed outcomes: the report with its id, count and drift, or which exception is raised and why, and the state each leaves behind |
| `ScanRepository.PostScan` | src/schema_sentry/api/routers/scans.py:29-53 | the request commits or rolls back so that the committed tables are those of the scan step |
| `ChangeRepository.SqlAlchemyLockedAcceptance.Apply` | src/schema_sentry/infrastructure/db/repositories/changes.py:40-76 | patches one baseline column, raises the version by one and closes the row, or raises before touching anything |
| `ChangeRepository.ChangeRepository.AcceptanceTransaction` | src/schema_sentry/infrastructure/db/repositories/changes.py:119-138 | hands out the change iff it exists and is OPEN, and then holds the row lock of the source, without which apply cannot be called |
| `ChangeRepository.ChangeRepository.ListOpenBreakingChangesForPipeline` | src/schema_sentry/infrastructure/db/repositories/changes.py:140-227 | the query loop computes the guard's answer, or an error iff the pipeline is unknown |
| `ChangeRepository.ChangeService.Accept` | src/schema_sentry/application/change_service.py:42-48 | the version check around apply: exact error and unchanged state, or the accepted state |
| `ChangeRepository.PostAccept` | src/schema_sentry/api/routers/changes.py:18-34 | the committed tables are those of the accept step; the errors are not found, a conflict with both versions, or incomplete metadata, in this order |
| `ChangeRepository.ValidatePipeline` | src/schema_sentry/application/validation_service.py:41-57 | safe iff no row blocks the pipeline |
| `Notifications.AlertRepository.ListDispatchableForScan` | src/schema_sentry/infrastructure/db/repositories/alerts.py:43-52 | the PENDING rows of the scan in order |
| `Notifications.NotificationService.AttemptDelivery` | src/schema_sentry/application/notification_service.py:163-203 | the guarded attempt does what the attempt step says to rows and providers; every delay index is in range |
| `Notifications.NotificationService.DispatchScan` | src/schema_sentry/application/notification_service.py:146-153 | attempts the selected rows in order until one raises |
| `Notifications.DispatchTransaction` | src/schema_sentry/api/dependencies.py:127-137 | an exception rolls rows back but not sends: the dispatch step |
| `Notifications.PostRetry` | src/schema_sentry/api/routers/alerts.py:19-35 | the retry step; exactly one send iff no error |
| `Catalog.SyncIgnoresOrder` | src/schema_sentry/application/catalog_service.py:114-124 | documents with the same pipelines and the same columns for each store the same catalog |
| `Catalog.SyncIgnoresPermutation` | src/schema_sentry/application/catalog_service.py:31-68 | reordering pipelines, column sets or columns keeps a document valid and stores the same catalog |
| `Catalog.SyncStoresCatalog` | src/schema_sentry/application/catalog_service.py:96-126 | an accepted catalog is stored whole, field by field: each pipeline with its key, DAG, owner and criticality and no other; an edge iff a pipeline names its upstream column among the inputs and its downstream column among the outputs, once, no self-loop, every endpoint registered; pipelines by key, edges by key and column names |
| `Catalog.AcceptableIff` | src/schema_sentry/application/catalog_service.py:17-112 | a document is accepted iff it has pipelines, keys and DAGs are distinct and with the owners nonempty, every dataset is a two-part name, columns of a set are distinct and known, neither side is empty, and no column is on both sides of a pipeline |
| `Catalog.ColumnSetDotFree` | src/schema_sentry/application/catalog_service.py:23-29 | a valid dataset text splits into dot-free schema and table and is their qualified name |
| `CatalogService.ColumnRefs` | src/schema_sentry/application/catalog_service.py:136-149 | succeeds iff every named column is known, and then yields exactly those |
| `CatalogService.AddEdges` | src/schema_sentry/application/catalog_service.py:106-112 | succeeds iff inputs and outputs are disjoint, and then adds exactly their product |
| `CatalogService.CatalogService.Sync` | src/schema_sentry/application/catalog_service.py:91-126 | succeeds iff the document is acceptable; otherwise the tables are untouched, and the error says that the document is invalid or names a column that is unknown or on both sides of a pipeline |
| `CatalogService.CatalogRepository.ReplaceCatalog` | src/schema_sentry/infrastructure/db/repositories/catalog.py:67-102 | stores the given lists iff every endpoint has a dataset |
| `CatalogService.SyncTransaction` | src/schema_sentry/cli.py:15-19 | all or nothing: the committed tables are those of the sync step |
| `Interleaving.NoDoubleApply` | src/schema_sentry/infrastructure/db/repositories/changes.py:119-138 | in every interleaving in which no OPEN row is selected with a version ahead of the committed one, no row is applied twice and the version is one plus the committed acceptances |
| `Interleaving.HonestIsTimely` | src/schema_sentry/application/change_service.py:42-48 | so it is when every caller took its version from a committed state before its row was read |
| `Interleaving.CommitRaisesByOne` | src/schema_sentry/infrastructure/db/repositories/changes.py:72 | in every interleaving, honest callers or not, a commit raises the committed version by exactly one |
| `Interleaving.UniqueIndexNeverViolated` | src/schema_sentry/infrastructure/db/models/scans.py:59-67 | in every interleaving of scans and accepts at most one OPEN row has a fingerprint, and no scan's writes would break that |
| `Interleaving.FutureVersionAppliesTwice` | src/schema_sentry/application/change_service.py:46-47 | the condition is needed: in any state where two callers selected one row, one with the committed version and one with its successor, the row can be applied twice |
| `Interleaving.FutureVersionIsReachable` | src/schema_sentry/application/change_service.py:46-47 | some interleaving leads to such a state |
| `Interleaving.LateAcceptIff` | src/schema_sentry/infrastructure/db/repositories/changes.py:119-138 | in every such interleaving a commit finds its row still OPEN iff no scan that had loaded the row and no longer reports it committed since the row was selected; otherwise it turns a RESOLVED row into an ACCEPTED one |
| `Interleaving.ResolvedRowCanBeAccepted` | src/schema_sentry/infrastructure/db/repositories/changes.py:72-74 | some interleaving of honest callers and a scan does that |

## Left out

- HTTP plumbing, authentication, dashboard pages, settings and logging: only the commit or rollback of a request is kept.
- PostgreSQL and SQLAlchemy: tables are maps and sequences, row and advisory locks are abstract, unique indexes are proved invariants; limits on column widths and the row order of queries the code does not sort are not modelled.
- SHA-256 and JSON encoding: a fingerprint is the payload itself, that is, the digest is taken to be collision free.
- YAML decoding: sync starts from a decoded document and keeps the validators.
- Slack, SMTP and the collector: a sender is an arbitrary choice of success, `DeliveryFailure` or another exception, the last taken to come before anything goes out; a collector is an arbitrary snapshot, connection error or other exception.
- Alert texts, provider message ids, error messages, the reason texts of the type policy and `catalog_digest`.
- Times below the millisecond.
- UUIDs: an id is the position of the row, which is also its creation order.
- More than one data source, and schema and table names shared between sources.
- `TypeSyntax.ParsePostgresType`: case, whitespace and digits are the ASCII ones, and Python's limit on the length of integer literals is not modelled.
- `TypeValues.KeepsValuesIff`: `character(n)`, bit strings, times and other families stand for opaque values of their own, because the policy accepts no change of such a type.
- `Interleaving.UniqueIndexNeverViolated`: the diff a scan works with is an arbitrary list of distinct fingerprints; that diffs have distinct fingerprints is `Diff.DiffFingerprintsDistinct`.
- `Interleaving.NoDoubleApply`: baseline columns are not part of the interleaving model; races between a scan and an accept are covered as far as OPEN uniqueness, double application and `Interleaving.LateAcceptIff` go.
- `ScanRepository.PostScan`: a scan refused because another one holds the advisory lock changes nothing and appears only in `Interleaving`, where `BeginScan` then has no effect.
- `Reachability.AcceptingAllConverges`, like the other theorems under `DistinctlyNamed`, does not cover tables that share a qualified name; `Reconciliation.DriftCommitsExactly` says what becomes of a scan then.
- Listing, filtering and dashboard queries other than the affected DAGs: simple reads.
