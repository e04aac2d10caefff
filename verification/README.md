# leCRM: models and proofs

leCRM is a multi-tenant CRM: Go services over Postgres, one schema per workspace. This project models its
state-keeping engines in Dafny and proves what they promise. A table is a map, set or sequence; a transaction is a
working copy that replaces the tables when it commits and is dropped when it does not; a statement the database
refuses is a parameter. Code that changes state step by step is a class or a method with a loop, proved against a
specification function or predicate; the properties of those specifications are lemmas.

`dafny verify dfyconfig.toml` checks everything.

| Files | What they model |
|---|---|
| `EnrollmentStates`, `Transitions`, `TransitionProtocol`, `SendStepWorker` | The sequences engine: the state graph, the one write path, any number of workers stepping through it at once, the retrying worker |
| `ImportLedger`, `ImportRows`, `CsvImport`, `CompanyImport`, `NonFiniteImport` | The CSV import, whose dry run has to predict its commit, and where it does not |
| `PropertyTypes`, `Metadata` | Custom-property definitions, the bags stored under them, and the shared cache of definitions |
| `Recency`, `TenantPool`, `TenantTx` | The bounded pool manager against least-recently-used order, and the once-only release of its connections |
| `Calendar`, `Reports` | Calendar windows, and the report compiler against the direct meaning of a definition |
| `Paging` | Keyset paging and the export over a table that changes between pages |
| `SendGate`, `BouncePolicy`, `BounceRuns` | The gate before each send, the bounce policy, and both over whole runs of sends and arriving bounces |
| `GuardedWrites`, `ConfirmTokens` | Preview, confirm, apply and replay; the text of a confirmation token |
| `BitWords`, `Revocation` | The bloom-filter revocation cache against the two revocation tables |
| `DedupScan`, `Merge` | The duplicate scan, and merging contacts and companies |
| `Base64Url`, `Splitting`, `SessionTokens`, `EmbedTokens`, `ServiceTokens` | The token codecs |
| `Prelude` | Option and Result |

## Where the code and its documentation part, and where a promise has a limit

- **Import, errored rows** (`apps/api/internal/crm/import.go:23-25` says they never abort the batch). A statement
  the database refuses leaves a Postgres transaction refusing everything until it is rolled back, so no answered
  commit reports one. A write can also fail in the program after the database took the record: `NaN` and infinities
  pass as numbers and cannot be serialised (`apps/api/capability/capability.go:396-399`), and a stored value that is no
  object cannot be merged into. Then the commit answers, reports an error where the preview said create or update, and
  has stored the record. `CsvImport.PreviewPredictsCommit` says exactly when; `NonFiniteImport.StoredThoughReported`
  is one such contact. A stored JSON `null` makes the merge panic, and the request fails as a whole.
- **Import, companies.** The batch remembers a company by its domain or else its name, the lookup takes either, and an
  update may rename what a later row would have matched, so preview and commit can differ.
  `CompanyImport.CompanyPair` says exactly when they do for two rows over any table;
  `CompanyImport.PreviewMissesName` and `CompanyImport.PreviewMissesRename` are two such inputs.
- **Import, two columns on one field.** Which one wins depends on Go's map order; the agreement of preview and
  commit is for mappings with distinct targets.
- **Import, `json` properties.** The import takes any JSON text, the strict check only objects and arrays:
  `PropertyTypes.CoercedConformsIff`, with an input in `PropertyTypes.ScalarImportBreaksConformity`.
- **Transition audit rows.** The caller's payload is merged last and may replace `enrollment_id`, `from` and `to`
  (`apps/api/internal/sequences/transition.go:152-154`). `Transitions.AuditRowFaithfulIff` says exactly when a row
  still tells the move that was made, `Transitions.PayloadRenamesTarget` is a payload that makes it tell another; the
  history results ask for calls that were truthful in this sense.
- **A panic in the last attempt of a send_step job** (`apps/api/internal/sequences/workers.go:133-137` promises that the
  final failure ends in `failed`). It leaves the worker before the failure mark: `SendStepWorker.RunJob` is exact,
  `SendStepWorker.PanicOnLastAttempt` an input.
- **Idempotency** (`packages/db/migrations/0014_idempotency_keys.sql:3-7` promises replay within 24 hours of the
  first response). An expired row that has not been swept is not refreshed by `DO NOTHING`, so a write under its key
  is not replayed: `GuardedWrites.ReplayedNextIff`.
- **Reports, custom dimensions.** The join to the objects table multiplies a deal that has several property bags:
  `Reports.CountsAreDirectIff` is exact, with an input in `Reports.TwoBagsCountTwice`.
- **Soft bounces.** The run length is counted back from the latest send, so a bounce that arrives after a later send
  may be missed (`BounceRuns.LateBouncesAreMissed`, for every threshold). `BounceRuns.SuppressedIff` is exact for any
  order of arrival, and `BounceRuns.GatedRunsAreBoundedIff` for what the gate then bounds.
- **Embed tokens.** A negative expiry is never checked (`apps/api/internal/reports/jwt.go:129`):
  `EmbedTokens.Verify` says exactly which claims are refused as expired.
- **Company merges.** The file comment says the loser's stored objects are deleted
  (`apps/api/internal/crm/dedup.go:24-26`); the company merge has no such step, and `Merge.CompaniesMerged` says the
  objects are untouched.

## Model

| member | source | states |
|---|---|---|
| EnrollmentStates.PathIsChain | apps/api/internal/sequences/state.go:74-98 | A history built move by move is the same as a chain of legal moves, each starting where the last ended |
| EnrollmentStates.EdgesAgree | apps/api/internal/sequences/state.go:74-130 | The edges read from their source and from their target are the same |
| EnrollmentStates.TerminalIff | apps/api/internal/sequences/state.go:44-115 | A state is terminal if and only if no edge leaves it |
| EnrollmentStates.TerminalStatesAreFinal | apps/api/internal/sequences/state.go:44-55 | The separate table of terminal states agrees with the graph over whole histories: a terminal state is never left |
| EnrollmentStates.SendBalance | apps/api/internal/sequences/state.go:74-98 | Over every history, entries to step_sent exceed returns to enrolled by 0 or 1, and by which is fixed by the end state |
| Transitions.AuditRowFaithfulIff | apps/api/internal/sequences/transition.go:143-157 | The audit row tells the move that was made if and only if the caller's payload does not contradict it |
| Transitions.PayloadRenamesTarget | apps/api/internal/sequences/transition.go:152-154 | A payload that makes the row of a failure tell of a completion |
| Transitions.RejectedLeavesOneTrace | apps/api/internal/sequences/transition.go:94-115 | A rejected attempt changes no row and no job and leaves one trace row that tells of no move |
| Transitions.Tx.Transition | apps/api/internal/sequences/transition.go:58-174 | Lock, validate, update, audit, enqueue in the open transaction, for every refused statement: each column set or kept, other rows untouched, the event, workspace, actor and every payload key of the one audit row, and the job |
| TransitionProtocol.InterleavingsSerialise | apps/api/internal/sequences/transition.go:58-174 | Any interleaving of any number of workers leaves the tables of running the committed transactions whole, in commit order |
| TransitionProtocol.EveryHistoryHappens | apps/api/internal/sequences/transition.go:58-174 | Conversely, every history of whole transactions in which each call is answered is produced by some run |
| TransitionProtocol.AbortedOnlyRollsBack | apps/api/internal/sequences/transition.go:94-115 | After a failed statement or a panic a transaction can only roll back, which frees its locks and changes nothing else |
| TransitionProtocol.CommitKeepsOthers | apps/api/internal/sequences/transition.go:71-92 | A commit invalidates nothing another open transaction has read or written, because of the row lock |
| TransitionProtocol.CommittedHistoryIsLegal | apps/api/internal/sequences/transition.go:58-174 | In every reachable state whose committed calls were truthful, an enrollment's audit rows are a chain of legal moves from enrolled to the stored state, none leaving a terminal state, with sends and returns in balance |
| TransitionProtocol.OneFinalizePerTerminalEnrollment | apps/api/internal/sequences/transition.go:159-171 | With an enqueuer wired, exactly one finalize job, for the stored state, exists for an enrollment in a terminal state and none for any other |
| SendStepWorker.RunInTx | apps/api/internal/sequences/workers.go:82-98 | Effects are committed exactly when connection, handler and commit all succeed; a panic of the handler passes through |
| SendStepWorker.Work | apps/api/internal/sequences/workers.go:122-150 | One attempt: the handler's effect, or on a last attempt that did not panic the failure mark, or nothing |
| SendStepWorker.RunJob | apps/api/internal/sequences/workers.go:115-150 | Over all attempts the step is handled at most once; and, the marking transaction working, the job ends marked failed if and only if every attempt rolled back and the last did not panic |
| SendStepWorker.PanicOnLastAttempt | apps/api/internal/sequences/workers.go:132-150 | Four errors and a panic leave nothing behind |
| ImportLedger.InsertTracks | apps/api/internal/crm/import.go:446-455 | Inserting a new row keeps the in-batch key set and the written table in step with the batch read so far |
| ImportLedger.QuietTracks | apps/api/internal/crm/import.go:435-455 | So does a row that writes nothing or brings no new key |
| ImportLedger.MatchedIsDuplicate | apps/api/internal/crm/import.go:416-433 | Found in the table or in `seen` means stored before or carried by an earlier row; on a commit always in the table |
| ImportLedger.TallyConserves | apps/api/internal/crm/import.go:462-478 | Total = create + update + skip + error, and the report has the skipped and rejected rows |
| ImportLedger.TrackedCounts | apps/api/internal/crm/import.go:589-626 | No key gains or loses holders beyond what the batch brings |
| ImportRows.IndexColumns | apps/api/internal/crm/import.go:819-827 | Each header name is at its first position |
| ImportRows.GatheredAll | apps/api/internal/crm/import.go:482-499 | With distinct targets the core fields of a row do not depend on the order the mapping is visited in |
| ImportRows.TargetsAre | apps/api/internal/crm/import.go:93-128 | The fields a column can be mapped to, per entity |
| ImportRows.OverlayKeepsKeys | apps/api/internal/crm/import.go:688-707 | Overlaying a contact with a row that matched it keeps every dedup key |
| ImportRows.HeldMeansMatch | apps/api/internal/crm/import.go:609-626 | Looking a contact up finds a record exactly when its folded email is held |
| ImportRows.MatchesIff | apps/api/internal/crm/import.go:609-643 | When a stored record matches: contacts by folded email, companies by folded domain or folded name |
| ImportRows.CollectedAll | apps/api/internal/crm/import.go:503-529 | Whether a row carries custom values, and whether one of them cannot be serialised |
| ImportRows.AcceptedIff | apps/api/internal/crm/import.go:550-585 | A row is accepted if and only if its required fields are there and its formats right |
| ImportRows.FieldsFromCells | apps/api/internal/crm/import.go:482-499 | Overlaying a row puts every mapped non-empty cell in its field and leaves the other fields |
| ImportRows.PropsFromCells | apps/api/internal/crm/import.go:503-529 | Merging its custom values puts every custom cell, coerced, under its property and leaves the others |
| ImportRows.CompanyKeyAgreesIff | apps/api/internal/crm/import.go:589-643 | The key of an earlier row and the record it inserts agree on a later row if and only if the names differ or the domains are the same |
| CsvImport.Tx.LookupMatch | apps/api/internal/crm/import.go:609-643 | The oldest matching record, or none if there is none |
| CsvImport.Tx.ApplyCreate | apps/api/internal/crm/import.go:646-683 | Adds one record that has the row's value in every field and exactly its custom values in the bag, and changes no other; values that cannot be serialised leave it without a bag and the transaction alive |
| CsvImport.Tx.ApplyUpdate | apps/api/internal/crm/import.go:688-727 | In one record, every field gets the row's value if that is not empty and keeps its own otherwise, and the bag likewise by key; exactly when that fails or panics, and what is then kept |
| CsvImport.ImportEngine.File | apps/api/internal/crm/import.go:462-478 | Files one outcome and keeps summary and report in step with the outcomes |
| CsvImport.ImportEngine.CoreValues | apps/api/internal/crm/import.go:482-499 | Visiting the mapping in any order gathers the same core fields |
| CsvImport.ImportEngine.CustomValues | apps/api/internal/crm/import.go:503-529 | A row is rejected exactly when some mapped custom cell cannot be coerced, in any order; else its values are collected |
| CsvImport.ImportEngine.ValidateCore | apps/api/internal/crm/import.go:550-585 | The reason given, and none exactly for an acceptable row |
| CsvImport.ImportEngine.Settle | apps/api/internal/crm/import.go:398-456 | One row classified, written and filed keeps every count and expectation in step |
| CsvImport.ImportEngine.Write | apps/api/internal/crm/import.go:435-456 | What the policy does with a classified row, for every way the write can end |
| CsvImport.ImportEngine.Process | apps/api/internal/crm/import.go:376-458 | The row loop gives every row the action that follows from the stored keys and the earlier rows alone, or an error where custom values cannot be merged |
| CsvImport.Import | apps/api/internal/crm/import.go:265-351 | One outcome per row in order; actions as expected, or an error for a reason given by the row; row by row, a created row adds a record and an updated one overlays the oldest match, with the row's own fields and values, and all other records stay, and a rejected row is reported for what is wrong with it; under update or skip each folded email keeps its count, or gets one if absent and carried; no answer or a dry run changes nothing |
| CsvImport.RowHoldsItsCells | apps/api/internal/crm/import.go:435-456 | In cells: the record a created or updated row leaves holds every mapped cell and every coerced custom cell, and otherwise what it held before |
| CsvImport.TalliesAgreeIff | apps/api/internal/crm/import.go:462-478 | If rows differ only by having become errors, the summaries agree if and only if no row differs |
| CsvImport.PreviewPredictsCommit | apps/api/internal/crm/import.go:265-351 | For contacts and deals and distinct targets: a commit that answers gives every row the previewed action, but for written rows with a number that is not finite, and exactly those; the summaries agree if and only if all rows do |
| NonFiniteImport.StoredThoughReported | apps/api/internal/crm/import.go:936-943 | A contact with the cell `NaN`: previewed as create, answered as error, and stored |
| CompanyImport.CompanyPair | apps/api/internal/crm/import.go:398-456 | For two company rows over any table, preview and commit differ on the second if and only if the commit of the first changes what it finds, renaming included, and their keys differ |
| CompanyImport.PreviewMissesName | apps/api/internal/crm/import.go:589-643 | Two rows of one company on an empty table: create and create, but create and update on the commit |
| CompanyImport.PreviewMissesRename | apps/api/internal/crm/import.go:688-727 | A stored company renamed by the first row: update previewed for the second, create on the commit |
| PropertyTypes.CoercedConformsIff | apps/api/internal/crm/import.go:936-974 | A cell the import accepts passes the strict check if and only if it is a JSON value and not a scalar under a json definition; only a number fails to be a JSON value |
| PropertyTypes.ValidDateIff | apps/api/internal/crm/import.go:1103-1110 | The dates accepted are the days of the calendar, each in its one spelling |
| PropertyTypes.CheckValue | apps/api/internal/metadata/cache.go:160-206 | The check of one value is the declared type's |
| PropertyTypes.Coerce | apps/api/internal/crm/import.go:936-974 | The coercion of one cell is the declared type's |
| PropertyTypes.MergeConformsIff | apps/api/capability/capability.go:379-412 | Merging values into a conforming bag conforms if and only if they conform |
| Metadata.CacheKeyInjective | apps/api/internal/metadata/cache.go:14-16 | Schemas and parent types never share a cache entry |
| Metadata.DefCache.Put | apps/api/internal/metadata/cache.go:54-76 | A full cache loses one of its oldest entries, never grows past its bound, and keeps the rest |
| Metadata.Store.LoadDefs | apps/api/internal/metadata/cache.go:85-122 | From cache or database, the answer is the current definitions, which are then cached |
| Metadata.Store.ValidateStrict | apps/api/internal/metadata/cache.go:131-158 | Accepts exactly the bags whose keys are all defined with values of the declared type and that hold every required key |
| Metadata.Store.InvalidatedFresh | apps/api/internal/metadata/cache.go:78-83 | Dropping one entry after its definitions changed leaves the whole cache current |
| Metadata.Store.CreateDefinition | apps/api/internal/metadata/definitions.go:80-120 | Adds one definition and leaves every other one, every bag and every other schema; keeps cache and bags sound; its errors |
| Metadata.Store.DeleteDefinition | apps/api/internal/metadata/definitions.go:124-175 | Drops one definition and its key from every bag of its type, whose other keys keep their values, and leaves everything else; or changes nothing; keeps cache and bags sound |
| Metadata.Store.Set | apps/api/internal/metadata/set.go:125-182 | Replaces one bag exactly when it passes the strict check against the definitions as they are now, and leaves everything else |
| Metadata.Store.GetMany | apps/api/internal/metadata/set.go:81-117 | The stored bags of the ids that have one |
| Metadata.RedefinedKeyStartsEmpty | apps/api/internal/metadata/definitions.go:124-175 | A key deleted and defined again with any type finds no old value in any bag |
| Metadata.Run | apps/api/internal/metadata/set.go:125-182 | Over every run through one shared cache, every entry equals the current definitions, every stored bag conforms to them, no bag is lost, and every definition and value was there before or put there by an operation that names it |
| Recency.MostRecentIsByLastUse | apps/api/internal/db/tenant_pool.go:308-312 | The reference order lists the used roles once each, by decreasing last use |
| Recency.ServeKeepsFront | apps/api/internal/db/tenant_pool.go:259-291 | Whatever opens or fails, the live roles stay a prefix of that order |
| Recency.ServeExact | apps/api/internal/db/tenant_pool.go:259-291 | If every pool opens, they are exactly the most recently used ones |
| TenantPool.TenantPools.Touch | apps/api/internal/db/tenant_pool.go:308-312 | Moves a role to the front and keeps map, list and index in agreement |
| TenantPool.TenantPools.EvictLRU | apps/api/internal/db/tenant_pool.go:314-327 | Closes exactly the pool at the back |
| TenantPool.TenantPools.GetOrCreate | apps/api/internal/db/tenant_pool.go:259-291 | Serves, opens or fails as the reference says, within the bound, with every opened pool live or closed once |
| TenantPool.TenantPools.Close | apps/api/internal/db/tenant_pool.go:233-250 | Closes every live pool once; a second call does nothing |
| TenantPool.Run | apps/api/internal/db/tenant_pool.go:233-327 | Any run of requests leaves the live roles that the requests alone say; without failures these are the MaxPools most recent |
| TenantTx.Connections.AcquireTx | apps/api/internal/db/tenant_pool.go:173-213 | A failed acquisition gives back what it borrowed and holds nothing; a successful one holds one new lease |
| TenantTx.Connections.Release | apps/api/internal/db/tenant_pool.go:203-211 | Rolls back what has not ended and gives the connection back, once however often it is called |
| TenantTx.Connections.Run | apps/api/internal/db/tenant_pool.go:132-213 | Over any interleaving, every transaction open before or opened on the way commits exactly if its first event is a commit that is not refused, is else rolled back on release, and no connection is given back twice |
| TenantTx.Connections.AllReturned | apps/api/internal/db/tenant_pool.go:173-213 | Once every lease is released every borrowed connection has been given back, once |
| Calendar.MonthLength | apps/api/internal/reports/query.go:129-160 | Consecutive months are as far apart as the Gregorian calendar says |
| Calendar.MonthsAre | apps/api/internal/reports/query.go:129-160 | Month by month the Gregorian lengths, leap years included |
| Calendar.WindowsAreMonths | apps/api/internal/reports/query.go:129-160 | The windows are one, three or twelve whole months from a multiple of that, around the instant, and the same a year earlier |
| Calendar.WindowsAreRight | apps/api/internal/reports/query.go:129-160 | The current window contains the instant; the prior is the same months a year earlier and ends no later than the current starts |
| Calendar.WindowsTile | apps/api/internal/reports/query.go:129-160 | Windows of one period share an instant only if equal, and each ends where the next starts |
| Reports.MetricExprComputes | apps/api/internal/reports/query.go:190-215 | The compiled aggregate never divides by zero and is the count, the sum or the share of closed deals of its window |
| Reports.SpelledIff | apps/api/internal/reports/query.go:40-125 | A metric, period or dimension text is placed exactly where it is spelt |
| Reports.BagsAre | apps/api/internal/reports/query.go:250-258 | The joined rows of a deal are its property bags, with their multiplicity |
| Reports.BuildRunQuery | apps/api/internal/reports/query.go:229-313 | Fails exactly on an invalid definition; else dimension and scan are the intended ones under the arguments made for them, and each column computes the metric of its own window |
| Reports.QueryMeansDefinition | apps/api/internal/reports/query.go:229-313 | Each column is the direct count, sum or share over the unfiltered table if no deal of its window is multiplied; every group with a deal in either window is in the result, and no other if no scanned deal is multiplied |
| Reports.CountsAreDirectIff | apps/api/internal/reports/query.go:250-258 | All groups have their direct counts if and only if the join multiplies no deal of the window |
| Reports.TwoBagsCountTwice | apps/api/internal/reports/query.go:254-258 | A deal with two property bags is counted twice |
| Reports.GroupCountsAddUpIff | apps/api/internal/reports/query.go:229-313 | The groups' counts add up to the deals of the window if and only if the join multiplies none of those |
| Paging.PageIsRight | apps/api/internal/sqlcgen/contacts.sql.go:97-107 | A page is descending, below its cursor and misses nothing above its last row |
| Paging.DescendingUnique | apps/api/internal/sqlcgen/contacts.sql.go:97-107 | A descending list is determined by its elements |
| Paging.ListPage | apps/api/capability/ops.go:213-248 | Reading one row more decides has_more exactly, and the next cursor is the last row shown |
| Paging.Export | apps/api/internal/crm/export.go:164-182 | The loop ends; rows descend strictly, none present throughout is missed, none was never there; on a fixed table it is the sorted table |
| Paging.FollowCursors | apps/api/capability/ops.go:213-248 | A client following next_cursor gets the same |
| SendGate.CappedUntilRetryAfter | apps/api/internal/sequences/preflight.go:98-119 | If nothing else is sent, a capped verdict lasts exactly until RetryAfter |
| SendGate.ThrottledUntilRetryAfter | apps/api/internal/sequences/preflight.go:120-153 | If nothing else is sent, a throttled verdict lasts exactly until RetryAfter and is then Allow |
| SendGate.PreflightIs | apps/api/internal/sequences/preflight.go:44-153 | The verdict, in terms of the given limits, the ledger and the calendar |
| SendGate.FirstSendHappens | apps/api/internal/sequences/preflight.go:44-153 | The gate does not stop a first send |
| SendGate.SendKeepsSafe | apps/api/internal/sequences/preflight.go:44-153 | A send recorded after Allow keeps spacing, cap and suppression |
| SendGate.EveryRunIsSafe | apps/api/internal/sequences/preflight.go:44-153 | Over every run: sends to one contact are at least the given throttle window apart, or a day if none is given, no month exceeds a positive cap, nothing goes to an address after its suppression |
| BouncePolicy.FormulaIsTrailingRun | apps/api/internal/sequences/bounce.go:101-123 | For distinct send times the row-number formula is the length of the trailing run of soft bounces |
| BouncePolicy.TrailingRunIff | apps/api/internal/sequences/bounce.go:74-90 | The run reaches n if and only if the last n attempts soft-bounced |
| BouncePolicy.ApplyBounce | apps/api/internal/sequences/bounce.go:134-154 | Suppresses exactly on a hard bounce, a complaint, or a run at the given threshold, or 3 if none is given |
| BounceRuns.ReceiveBounce | apps/api/internal/sequences/bounce.go:125-154 | Recording a bounce and then deciding on the ledger is the step of the runs below |
| BounceRuns.SuppressedIff | apps/api/internal/sequences/bounce.go:74-154 | Over every run of gated sends and bounces in any order, an address is suppressed if and only if at some moment a hard bounce or complaint was on record, or the last threshold attempts had all soft-bounced |
| BounceRuns.GatedRunsAreBoundedIff | apps/api/internal/sequences/preflight.go:76-96 | An address gets more consecutive soft-bounced sends than the threshold if and only if, for one such run, a bounce was still missing when its last attempt was sent |
| BounceRuns.NothingAfterSuppression | apps/api/internal/sequences/preflight.go:76-96 | Once something that suppresses has been on record nothing more is sent to the address |
| BounceRuns.PromptRuns | apps/api/internal/sequences/bounce.go:74-154 | With bounces in time: suppressed if and only if the history has a hard bounce, a complaint or a run at the threshold, and no longer run occurs |
| BounceRuns.LateBouncesAreMissed | apps/api/internal/sequences/bounce.go:101-123 | For every threshold, a run whose soft bounces all arrive after one more send suppresses nothing |
| GuardedWrites.RoleFromScopesIff | apps/api/capability/writesafety.go:81-89 | Scopes grant writing if and only if one is `*` or contains `write` |
| GuardedWrites.AuthorizeWriteIs | apps/api/capability/writesafety.go:97-121 | Exactly admins and owners whose scopes, if any, let them write may; the others are refused for no role, then read-only scopes, then the role |
| GuardedWrites.VerifyIff | apps/api/capability/writesafety.go:250-271 | A token verifies if and only if it was issued for the same workspace, operation and effects at most ten minutes ago |
| GuardedWrites.Service.Run | apps/api/capability/writesafety.go:354-417 | Authorize, preview, replay, confirm and apply in the code's order: who gets an answer and who is refused how, what a write, a replay and a refusal leave |
| GuardedWrites.DryRunChangesNothing | apps/api/capability/writesafety.go:369-382 | A dry run changes no workspace, stores no response and applies nothing |
| GuardedWrites.ConfirmAfterPreview | apps/api/capability/writesafety.go:354-417 | Confirming in time with an unchanged plan reaches the write |
| GuardedWrites.PreviewedThenConfirmed | apps/api/capability/writesafety.go:354-417 | As events: preview, wait up to ten minutes, confirm with its token, and the write is made |
| GuardedWrites.DestructiveWritesWerePreviewed | apps/api/capability/writesafety.go:236-271 | Over every run each write was made by a principal that may write, and each destructive one follows, within ten minutes, a dry run of the same workspace, operation and effects |
| GuardedWrites.ReplayedNextIff | apps/api/capability/capability.go:333-363 | After a keyed write the key replays at once if and only if it had no row before |
| GuardedWrites.StoredResponseStays | apps/api/capability/capability.go:354-363 | An unexpired stored response is never changed or removed |
| GuardedWrites.SweptKeys | packages/db/migrations/0014_idempotency_keys.sql:18-20 | A sweep forgets exactly the keys that have expired |
| GuardedWrites.RepeatsReplay | apps/api/capability/capability.go:333-363 | After a write under a fresh key every authorized repeat for a day returns the same status and body and changes nothing |
| ConfirmTokens.ParseFormat | apps/api/capability/writesafety.go:236-257 | A formatted expiry parses back |
| ConfirmTokens.ParseSigned | apps/api/capability/writesafety.go:250-257 | Signed or unsigned digits read as their number exactly if it fits 64 bits |
| ConfirmTokens.MacInputInjective | apps/api/capability/writesafety.go:223-231 | The NUL-delimited text under the MAC determines workspace, operation, digest and expiry |
| ConfirmTokens.VerifyIssuedIff | apps/api/capability/writesafety.go:236-271 | As text, an issued token is accepted if and only if all it binds is the same and it has not expired |
| ConfirmTokens.AcceptedIsSigned | apps/api/capability/writesafety.go:250-271 | Any text accepted has the version, an expiry not past and the MAC of just this binding and expiry |
| BitWords.MaskSetsOneBit | apps/api/internal/auth/revocation.go:225-231 | Or-ing a mask into a 64-bit word sets that bit and no other |
| BitWords.SettingSetsOne | apps/api/internal/auth/revocation.go:225-231 | Setting a position of the packed words sets that position and no other |
| Revocation.MixDoesNotWrap | apps/api/internal/auth/revocation.go:225-249 | The 64-bit sum of the probe never overflows |
| Revocation.BloomFilter.PositionIs | apps/api/internal/auth/revocation.go:225-249 | The i-th position is the high half of the hash plus i times the low half, modulo the size |
| Revocation.BloomFilter.Add | apps/api/internal/auth/revocation.go:225-231 | Sets exactly the probed bits; the added id tests positive and what was positive stays so |
| Revocation.BloomFilter.Test | apps/api/internal/auth/revocation.go:233-242 | Positive exactly when all probed bits are set |
| Revocation.RevocationCache.Refresh | apps/api/internal/auth/revocation.go:109-134 | Takes over the live revocations, then the user times; a failed query leaves its part as it was |
| Revocation.RevocationCache.IsRevoked | apps/api/internal/auth/revocation.go:177-198 | Never claims a revocation the tables do not hold, and never misses one the cache has taken over |
| Revocation.RevocationCache.UpToDateIsExact | apps/api/internal/auth/revocation.go:109-198 | Right after a refresh the cache recognises exactly the sessions the tables revoke |
| Revocation.RevocationCache.Follow | apps/api/internal/auth/revocation.go:22-134 | After a refresh, through any events and failed refreshes, what was revoked then and has not expired stays recognised |
| Revocation.Run | apps/api/internal/auth/revocation.go:22-134 | From the start of a service: a user revoked before a refresh that works is recognised ever after |
| DedupScan.NormalizeName | apps/api/internal/crm/dedup.go:48-56 | The builder loop keeps letters, digits and spaces, trimmed |
| DedupScan.TrimmedIs | apps/api/internal/crm/dedup.go:48-56 | Trimming cuts off the spaces at both ends and nothing else |
| DedupScan.TrigramSimilarity | apps/api/internal/crm/dedup.go:68-88 | The counted score is common over all trigrams |
| DedupScan.SimilarityBounds | apps/api/internal/crm/dedup.go:68-88 | The score is symmetric, within [0, 1], and one if and only if the trigrams are the same |
| DedupScan.Scan.GroupByAddress | apps/api/internal/crm/dedup.go:267-275 | Each group is the records of one folded address in list order |
| DedupScan.Scan.FirstPass | apps/api/internal/crm/dedup.go:267-291 | In whatever order groups are visited, every pair of one address is listed or excluded |
| DedupScan.Scan.SecondPass | apps/api/internal/crm/dedup.go:293-313 | So is every pair whose similarity reaches 0.4 |
| DedupScan.Scan.Duplicates | apps/api/internal/crm/dedup.go:264-315 | The list is exactly the pairs not excluded with one address (exact) or else similar enough (similar), each unordered pair once |
| DedupScan.Scan.DistinctPairDropsOut | apps/api/internal/crm/dedup.go:809-850 | Marking two ids distinct, in either order, takes out their pair and no other |
| DedupScan.ListContactDuplicates | apps/api/internal/crm/dedup.go:264-315 | The scan over contacts, by email and full name |
| DedupScan.ListCompanyDuplicates | apps/api/internal/crm/dedup.go:406-455 | The scan over companies, by domain and name |
| Merge.NothingToNull | apps/api/internal/crm/dedup.go:589-618 | After re-pointing, deleting the loser sets no foreign key to null |
| Merge.DeletingFirstLoses | packages/db/schema/workspace_crm.sql:33-46 | The other way round, the delete would cut off every deal and contact of the loser |
| Merge.Workspace.MergeContacts | apps/api/internal/crm/dedup.go:484-643 | Each field the loser's if asked for and else the survivor's, relations moved, loser and its objects gone, all else kept; a failure at any step leaves everything as before; the errors |
| Merge.Workspace.MergeCompanies | apps/api/internal/crm/dedup.go:645-798 | The same for companies, whose contacts move too |
| Merge.AttachedMoves | apps/api/internal/crm/dedup.go:565-587 | The survivor ends with both sets of notes (activities, tasks), the loser with none, anyone else with their own |
| Merge.DealsMove | apps/api/internal/crm/dedup.go:589-595 | The same for deals |
| Merge.ContactMergeLeavesNoOrphan | apps/api/internal/crm/dedup.go:512-625 | No relation refers to a record that is gone |
| Merge.CompanyMergeLeavesNoOrphan | apps/api/internal/crm/dedup.go:673-780 | The same for companies |
| Merge.Workspace.Run | apps/api/internal/crm/dedup.go:484-798 | Over any run of merges every relation stays, with its reference where the audit log's merges lead |
| Base64Url.RoundTrip | apps/api/internal/auth/session_v2.go:100-106 | Decoding undoes unpadded base64url encoding |
| Base64Url.SameBits | apps/api/internal/auth/session_v2.go:100-106 | Each three bytes and their four characters are the same 24 bits, with zeros where they run out (section 4 of RFC 4648) |
| Base64Url.CanonicalIff | apps/api/internal/auth/session_v2.go:143-164 | A text that decodes is the encoding of what it decodes to if and only if it has no line break and no stray bits |
| Base64Url.EncodingIsClean | apps/api/internal/auth/session_v2.go:100-108 | No dot or bar occurs in an encoding |
| Splitting.CutJoined | apps/api/internal/auth/session_v2.go:121-140 | A joined text is cut where it was joined |
| SessionTokens.DecryptEncrypt | apps/api/internal/auth/session_v2.go:204-256 | Opening the length-framed box gives back the plaintext |
| SessionTokens.DecodeEncode | apps/api/internal/auth/session_v2.go:50-188 | Decoding an encoded session under the same slug and up to its expiry returns its own ids, and its own times and token id or, where unset, the call's; it fails under another slug, after the expiry, or under another secret |
| SessionTokens.AcceptedIsSigned | apps/api/internal/auth/session_v2.go:113-188 | Every accepted token is its payload under the one right spelling of its MAC; its claims are for this slug, not expired and hold the hash of the box, which opens to the session returned |
| EmbedTokens.Split | apps/api/internal/reports/jwt.go:89-112 | The hand-written splitter accepts exactly three-segment texts and its parts rejoin to the text |
| EmbedTokens.JoinIsUnique | apps/api/internal/reports/jwt.go:89-112 | A text is three dot-free segments in one way |
| EmbedTokens.Verify | apps/api/internal/reports/jwt.go:86-134 | Accepts exactly the authentic tokens that have not expired, with their claims |
| EmbedTokens.SignedIsAuthentic | apps/api/internal/reports/jwt.go:45-82 | When signing is refused; a signed token carries the workspace as given and the other claims as given or, where unset, their defaults, and no others, and holds for no other secret |
| ServiceTokens.SlugReadBackIff | apps/api/internal/auth/service_token.go:55-105 | The slug read from a generated token is the one it was made with if and only if it has the shape of a subdomain |
| ServiceTokens.OnlyShapedSlugs | apps/api/internal/auth/service_token.go:81-105 | Any slug read from any text has that shape and stands at its front |
| ServiceTokens.SlugReadIff | apps/api/internal/auth/service_token.go:81-105 | A slug is read exactly from the prefix, that slug, a separator and something more |
| ServiceTokens.FingerprintIs | apps/api/internal/auth/service_token.go:186-201 | For every slug: the first eight random bytes if it has no underscore, else what its rest and the suffix decode to, or nothing |
| ServiceTokens.FingerprintIff | apps/api/internal/auth/service_token.go:186-201 | A fingerprint is read exactly from a suffix that decodes to eight bytes or more, and is the first eight |

## Left out

- HTTP handlers, routing, OIDC, mail clients, web UI and deploy scripts: plumbing over libraries that are not modelled.
- Cryptography, hashing, JSON and text libraries are parameters (HMAC injective, opening undoes sealing, decoding undoes encoding); argon2 hashing of service tokens is not part of this model.
- Floating point: scores, amounts and ratios are exact rationals. Time is in whole seconds and UTC; Go and SQL are taken to agree on lower-casing, zone and clock.
- A commit whose outcome is unknown to the client counts as rolled back.
- Import: the analyze step's suggested mapping, the activity rows, and parsing of the CSV text; a record has one stored bag of properties.
- CsvImport.PreviewPredictsCommit: for mappings with distinct core targets, because with two columns on one field the code's own result depends on map order; not for companies, whose rows CompanyImport.CompanyPair treats two at a time.
- CompanyImport.CompanyPair: two rows, because for longer batches the condition is the simulation of the commit itself.
- TransitionProtocol.CommittedHistoryIsLegal: for committed calls that were truthful, because the code lets a payload replace the three identifying keys.
- Transitions: a payload that cannot be serialised also fails the audit step, without the database refusing anything; callers are taken to roll back on that error, as the contract of Transition asks.
- TransitionProtocol.OneFinalizePerTerminalEnrollment: for calls with an enqueuer, because without one the code enqueues nothing.
- Reports.QueryMeansDefinition: for sums and shares over a custom dimension it asks for at most one property bag per deal of the window, and only for counts is the converse stated, because repeated deals may leave a sum or a share unchanged.
- Reports: the text of the SQL, ORDER BY, LIMIT and the French labels; the result is taken before the LIMIT.
- Paging: the cursor of the MCP read tools, whose cursor row may have been deleted; the base64 and JSON form of cursors.
- SendGate: concurrent sends, which no workspace-wide lock orders, and deletion of enrollments; runs are serialised.
- BounceRuns: the addresses of contacts do not change during a run, and every event takes place at its own second, so send times are distinct.
- SendStepWorker: the queue, which is taken to count a panic as a failed attempt.
- GuardedWrites: concurrent calls under one idempotency key; plans that read the clock; scopes are taken as already trimmed and lower-cased.
- Metadata: concurrent writers, whose cache and table updates may cross; search by property values.
- Revocation: the refresh timer and the swap of the filter under concurrent readers; the hash function is any function.
- DedupScan: the final sort by score, and failures of the two queries.
- Merge: enrollments and external mappings, which the code does not touch, and no-merge rules that name the loser with a third record, which stay.
- Tenant pool: the inside of a pool, which is a number here, its statistics, and the text check of a connection's search_path.
- Roles, slug and time parsing, configuration loading and the admin commands would only add easy members.
