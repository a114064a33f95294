# Shu: sync engines, tenant migrations and the email protocol, verified

This project models the parts of Shu whose correctness is not visible from any one function, and
proves what they promise over every input, every interruption and every history.

- **Email delivery** (`EmailHandler`, `EmailQueue`). A producer transaction, a retrying queue, the
  worker loop, a mail backend and an audit row. Every database, backend and queue call may fail, a
  commit may be applied although it raised, the worker may be killed at any point, and the queue may
  lose or duplicate an unsettled job.
- **Drive sync** (`DriveSync`). The full scan's folder queue, which holds duplicates and lists a
  folder once for each time it was queued, and the incremental path, which computes the same scope
  by another traversal.
- **Outlook sync** (`OutlookSync`). Delta sync as replay of a change log: a run may be cut short,
  fail to save its cursor, skip messages, or start over.
- **Tenant isolation** (`TenantMigration`, `TenantMigrationProofs`, `TenantOutcome`,
  `TenantInventory`, `OrphanRepair`, `TenantStore`, `MigratedSchema`, `UuidConversion`). Migration
  009 as a program of guarded statements cut in two by an autocommit block, and the catalogue it
  leaves, key by key; its repair of dangling references; the store it leaves, as a state machine over
  sessions of many tenants; and the later change of tenant ids to `uuid`.
- **Data migrations** (`Slugs`, `KbPermissions`, `VariantIndex`, `PluginStorage`,
  `ProviderConfig`). Slug assignment, permissions rewritten as policies, renumbering of colliding
  rows, and two re-encodings with their downgrades.
- **GitHub commits** (`GithubCommits`). Paging, the widened date window over a real calendar, and
  first-seen deduplication across branches.
- **Gmail text** (`Base64Url`, `HtmlText`). Section 5 of RFC 4648 mapped onto section 4, and HTML
  cleaning as a one-pass fixed point.

Code that updates state step by step is modelled by classes and methods with loops; each method is
proved equal to, or inside, a specification function or relation, and the main results are lemmas
about that specification. Failures of the outside world are parameters (`Env`, `Response`, `Page`,
`CallOutcome`, the event budget of a `Connection`), so "for all" includes every failure pattern.

Where the code does not deliver what its comments or its purpose suggest, the model follows the code,
and a lemma shows the input:

- `EmailQueue.DeadWorkersSendBeyondTheLimit`: with one attempt allowed, two workers that die after
  the send make two sends, because a visibility timeout puts a job back without looking at
  `max_attempts`. `SendsStayWithinIff` says when the limit does bound the sends, `BoundIsAttained`
  that the bound of `NothingSentBeforeCommit` is the best possible.
- `EmailQueue.LostWriteSendsTwice`: one lost write after an accepted send sends the message twice;
  `AcceptedAgainIff` says exactly when that can happen. `GivenUpAlthoughSent`: a job whose last
  acknowledge raises is given up with its row `sent`.
- `EmailQueue.HalfDoneRejectStrandsTheRow`: a reject that raises half-way loses the job, whatever
  attempts are left, and its row stays queued; `EndsUnsettledIff` says when a job can end like that.
- `TenantMigrationProofs.OwnObjectsIff`: the migration looks at names alone, so a valid constraint
  or index of another shape under one of its names stays; the lemma says exactly when the final
  object is the migration's own. `AllIndexesValidIff` does the same for the validity of indexes.
- `OutlookSync.SkipThenAdvanceLosesAChange`: a run that skips a message and still stores its link
  loses that change for good; `HistoryIsFaithfulIff` says exactly when a history loses nothing.
- `TenantStore.DeletingAUserReachesOtherTenants`: five older keys with ON DELETE CASCADE or SET NULL
  have no composite key beside them, and through each of them a delete in one tenant reaches rows of
  another (`MigratedSchema.MigratedSchemaLeaks`). `IsolatesIffCovered` gives the exact condition on a schema.
- `DriveSync.FlatFilterIsOneLevelDeeper`: with recursion off the incremental filter also accepts
  files of the direct child folders.
- `KbPermissions.NobodyLosesAccessIff`: without an active admin nothing is migrated, and the old
  table is dropped all the same; with one, an older deny policy still wins over the migrated one
  (`OlderDenyLosesAccess`).
- `PluginStorage.WildcardIsSweptAlong`: the underscore in a `LIKE` prefix matches any character.
- `ProviderConfig.DowngradeFailsIff`: a config whose capabilities are no JSON object makes the
  downgrade raise, and so does a capability value that cannot be bound to its column
  (`NestedValueFails`). `ConfigIsStableIff`: a false base URL comes back as a text.
- `Slugs.RepeatedLongBaseOverflows`: a suffix can push a slug past the column's 100 characters;
  `AssignSlugs` fails exactly then, and `LengthLimitIff` says how long names may be.
- `Base64Url.StrayNewlineRejectedIff`: a line end behind an unpadded encoding is skipped by the
  decoder but counted in the padding.
- `UuidConversion.VisibilitySurvivesIff`: a session whose setting spells a tenant id differently from
  the stored text sees that tenant's rows only after the conversion.

## Model

| member | source | states |
|---|---|---|
| EmailHandler.HandleEmailJob | backend/src/shu/email_handler.py:40-188 | one delivery leaves exactly the rows, the sends and the outcome of the specification `Handle`, for every failure and kill point |
| EmailHandler.RowAfterDelivery | backend/src/shu/services/email_service.py:299-337 | a delivery adds and removes no row; it changes the job's row exactly when it got as far as a write that was not lost, and that row then names the backend that was called, the provider's id of an accepted message, or the first 2000 characters of why it failed; every other row and field stays |
| EmailHandler.DeliveryCallsOnce | backend/src/shu/email_handler.py:50-110 | the backend is called at most once, for the job's own row and only while that is queued; a delivery that returns leaves that row sent or failed; one that does not see the row yet changes nothing |
| EmailHandler.TransportErrorSurvives | backend/src/shu/email_handler.py:119-160 | when the send raised, that error is what the queue sees, whatever becomes of the terminal write; rows change only on the last attempt |
| EmailQueue.StepKeepsSafe | backend/src/shu/core/worker.py:573-648 | every step of the producer, the worker or the queue keeps: row present iff the producer committed, no send before that, other rows untouched, a terminal row reports the last send, the row is what the last delivery left, the end-state table |
| EmailQueue.StepKeepsBudget | backend/src/shu/core/queue_backend.py:1527-1587 | every step keeps the sends made, plus those the copies left can still make, within max(1, max_attempts) plus lost deliveries plus what duplicates add |
| EmailQueue.RunKeepsSafe | backend/src/shu/core/worker.py:573-648 | both over every history |
| EmailQueue.NothingSentBeforeCommit | backend/src/shu/email_handler.py:50-91 | no send before the producer commits, none at all after a rollback; no other audit row is touched; sends stay within max(1, max_attempts) plus the lost deliveries plus max(1, max_attempts - 1) for each duplicate |
| EmailQueue.BoundIsAttained | backend/src/shu/core/queue_backend.py:1238-1286 | without duplicates the bound is attained for every max_attempts and every number of lost deliveries |
| EmailQueue.DuplicateSendsBeyond | backend/src/shu/core/queue_backend.py:1272-1284 | a restore that puts the job back and fails to remove it adds a send: with max_attempts 1 and one lost delivery there are three |
| EmailQueue.SendsStayWithinIff | backend/src/shu/core/queue_backend.py:1238-1286 | max_attempts itself bounds the sends of every history with at most n lost deliveries iff it is positive and n is 0, or the payload can never be sent |
| EmailQueue.DeadWorkersSendBeyondTheLimit | backend/src/shu/core/queue_backend.py:1238-1286 | with max_attempts 1, two workers dead after the send make two sends |
| EmailQueue.TerminalIsFinal | backend/src/shu/email_handler.py:93-104 | once the row is sent or failed, no continuation sends again or changes any row |
| EmailQueue.EndStates | backend/src/shu/email_handler.py:13-22 | the row is there iff the producer committed, and is what the last delivery left; an acknowledged job has a terminal row; a given-up one was on its last attempt or beyond and ended in an exception, the send's own if the send raised, or in a failed acknowledge of a terminal row |
| EmailQueue.HalfDoneRejectStrandsTheRow | backend/src/shu/core/queue_backend.py:1553-1562 | for every max_attempts above 1, a reject that removes the job and raises before it puts it back ends the job after one attempt with its row queued for ever, although no write was lost |
| EmailQueue.EndsUnsettledIff | backend/src/shu/core/queue_backend.py:1266-1284 | a job can end neither acknowledged nor given up iff a copy of it may vanish (half-done reject, expired stored job, failed dequeue); whatever else fails, it comes back |
| EmailQueue.GivenUpAlthoughSent | backend/src/shu/core/worker.py:573-648 | for every max_attempts, a raising acknowledge on the last attempt gives up a job whose row is sent |
| EmailQueue.AtMostOnceAccepted | backend/src/shu/email_handler.py:162-188 | if the write after every accepted send reaches the server, raising or not, the backend accepts at most one message, and the row says sent exactly when it accepted one |
| EmailQueue.AcceptedAgainIff | backend/src/shu/email_handler.py:162-188 | after an accepted send some continuation accepts again iff a copy of the job is left and the write was lost or the worker died before it |
| EmailQueue.LostWriteSendsTwice | backend/src/shu/email_handler.py:162-188 | an instance from the start: a lost write after an accepted send leads to two accepted sends |
| DriveSync.ReadPages | plugins/shu_gdrive_files/plugin.py:215-231 | paging is reading the listing, which `ReadIs` describes page by page |
| DriveSync.ReadIs | plugins/shu_gdrive_files/plugin.py:215-231 | reading a listing that goes on for n pages fails iff the next answer raises; otherwise the files are those of the n pages, as many as these hold together, each page at the offset of the pages before it |
| DriveSync.ItemsAre | plugins/shu_gdrive_files/plugin.py:215-231 | a folder is listed unless a request raises with nothing but pages before it, and its files are those on the pages up to the first error body |
| DriveSync.ChildIdsAre | plugins/shu_gdrive_files/plugin.py:616-638 | the direct children the incremental path sees are the non-empty ids on those pages, none if the listing raises |
| DriveSync.DocumentsLaw | plugins/shu_gdrive_files/plugin.py:233-245 | the documents of a listing are selected file by file, in order, repetitions kept (with `SelectionOfOne`; `FolderIdsLaw` and `NonEmptyIdsLaw` say the same of the ids) |
| DriveSync.SelectionOfOne | plugins/shu_gdrive_files/plugin.py:233-245 | a file is a document unless its type is the folder type, whose id is then taken; of the children an empty id is dropped |
| DriveSync.ListFilesInFolder | plugins/shu_gdrive_files/plugin.py:190-249 | one folder's documents in order, and the subfolders still unseen, duplicates kept |
| DriveSync.UnseenLaw | plugins/shu_gdrive_files/plugin.py:245-249 | subfolders are queued one by one, in order, repetitions kept, unless seen |
| DriveSync.ScanFolders | plugins/shu_gdrive_files/plugin.py:236-262 | terminates on every folder graph; on success the files are the documents of exactly the folders reachable from the root (the root alone when not recursive); on failure some folder in scope raises |
| DriveSync.ScanDecreases | plugins/shu_gdrive_files/plugin.py:239-249 | each iteration lowers (unseen folders, position of the first unseen queue entry) lexicographically, seen folders popped again included |
| DriveSync.ScanProgress | plugins/shu_gdrive_files/plugin.py:239-249 | a folder popped again brings the first unseen entry forward, because every child of a popped folder is seen or queued |
| DriveSync.CollectNew | plugins/shu_gdrive_files/plugin.py:653-659 | the inner loop pushes each new folder once, in order |
| DriveSync.NewIdsOnce | plugins/shu_gdrive_files/plugin.py:653-659 | what is pushed has no repetition |
| DriveSync.ListChildFolders | plugins/shu_gdrive_files/plugin.py:610-664 | fails only if the parent cannot be listed; otherwise returns exactly the folders reachable below it (its direct children when not recursive), treating unlistable folders as empty |
| DriveSync.SplitChanges | plugins/shu_gdrive_files/plugin.py:589-604 | one page of changes extends the upserted files and the removed ids by its own, in order |
| DriveSync.RemovedIdIs | plugins/shu_gdrive_files/plugin.py:589-604 | a removed change gives up its own file id, or else the id in its file, a trashed file its id, none of them an empty one; every other change with a file hands that file on |
| DriveSync.FeedIs | plugins/shu_gdrive_files/plugin.py:580-608 | a feed that goes on for n pages breaks iff the next answer raises, and its changes are those of the n pages, each page at its offset |
| DriveSync.LatestStartIs | plugins/shu_gdrive_files/plugin.py:587-608 | the start token is that of the last of those pages that brings a non-empty one, and unchanged if none does |
| DriveSync.FeedLaws | plugins/shu_gdrive_files/plugin.py:588-604 | files and removed ids are decided change by change, in order, repetitions kept (with `FeedOfOne`) |
| DriveSync.ScopeLaws | plugins/shu_gdrive_files/plugin.py:340-348 | the filter decides file by file, in order, repetitions kept (with `ScopeOfOne`: a document is kept iff one of its parents is in the subtree) |
| DriveSync.IterChanges | plugins/shu_gdrive_files/plugin.py:558-608 | fails iff a request raises before the feed ends; otherwise splits the feed into upserted files and removed ids, in feed order, trashed files counting as removed, and keeps the last non-empty start token |
| DriveSync.IncrementalFiles | plugins/shu_gdrive_files/plugin.py:321-372 | fails iff the feed raises; otherwise hands on the changed documents with a parent in the computed subtree, or in the folder alone when the subtree cannot be computed, and all changed documents when there is no folder |
| DriveSync.SubtreeIsScanScope | plugins/shu_gdrive_files/plugin.py:610-664 | on one tree served without errors, the folders of the recursive incremental scope are the folders of the full scan |
| DriveSync.FilterAgreesWithScan | plugins/shu_gdrive_files/plugin.py:340-348 | with recursion on, the filter accepts a document exactly when a full scan of the same tree lists it |
| DriveSync.FlatFilterIsOneLevelDeeper | plugins/shu_gdrive_files/plugin.py:321-348 | with recursion off the filter accepts a document iff the scan lists it or a direct child folder holds it |
| DriveSync.IncrementalAgreesWithScan | plugins/shu_gdrive_files/plugin.py:321-372 | the incremental run hands on a file iff it changed and a full scan would have listed it |
| OutlookSync.FetchDelta | plugins/shu_outlook_mail/plugin.py:765-804 | following next links gives all pages' messages in order and the last page's link; a 410 is told apart from other failures |
| OutlookSync.FetchIs | plugins/shu_outlook_mail/plugin.py:765-804 | where fetching stops and with what: all pages before the first answer that does not continue, each at its offset, and that answer's link; a 410, a raise or a body that is no object each end it in their own way |
| OutlookSync.ProcessMessages | plugins/shu_outlook_mail/plugin.py:886-979 | the loop leaves the knowledge base and the counters of the specification, for every pattern of call outcomes, applied-though-raised included |
| OutlookSync.ExecuteIngest | plugins/shu_outlook_mail/plugin.py:723-989 | a whole run, with its fallbacks, abort points and cursor store, does what `RunOnce` says |
| OutlookSync.FullRunIs | plugins/shu_outlook_mail/plugin.py:839-989 | a run that does not use a delta, or whose delta is gone, processes the time-windowed listing: every id is left as the last effective call among the processed messages asked, or as it was; a run that lives counts every message of the listing and stores the first delta link; without a listing it aborts and nothing changes but the reset cursor |
| OutlookSync.DeltaRunIs | plugins/shu_outlook_mail/plugin.py:765-804 | a delta run does the same with what it fetched and its link, and a failed fetch changes nothing |
| OutlookSync.LastDoneIs | plugins/shu_outlook_mail/plugin.py:886-979 | the last effective call about an id is that of the last message about it whose call took effect |
| OutlookSync.TallyIs | plugins/shu_outlook_mail/plugin.py:886-979 | ingested and deleted count exactly the messages with an id whose call succeeded, by kind, and the skips name exactly the others, each with its reason |
| OutlookSync.HonestMeans | plugins/shu_outlook_mail/plugin.py:765-804 | a server whose pages each hold the part of the change log behind the pages before them makes a delta run fetch the log from its link on, up to the link it stores |
| OutlookSync.TallyAccountsForAll | plugins/shu_outlook_mail/plugin.py:886-979 | ingested + deleted + skips + removals without an id = number of messages |
| OutlookSync.BatchIsFaithfulIff | plugins/shu_outlook_mail/plugin.py:886-979 | a batch with failures equals the faultless batch on every knowledge base iff for each id the last call that took effect asked for what the last message asks |
| OutlookSync.SyncKeepsMirror | plugins/shu_outlook_mail/plugin.py:750-804 | every run, however it ends, keeps the knowledge base right on each id that is not stale and that no change after the stored link touches |
| OutlookSync.HistoryKeepsMirror | plugins/shu_outlook_mail/plugin.py:723-989 | the same over every history of arrivals and runs |
| OutlookSync.CleanRunCatchesUp | plugins/shu_outlook_mail/plugin.py:981-989 | a completed delta run brings each id it did not miss, and that is not stale unseen, to baseline plus log up to its link, whether or not the link is saved |
| OutlookSync.ExactlyOnceInEffect | plugins/shu_outlook_mail/plugin.py:723-989 | after any history, skips included, a run to the end of the log that misses nothing and touches every stale id leaves the baseline with every change applied once, in order |
| OutlookSync.ExactlyOnceWithoutSkips | plugins/shu_outlook_mail/plugin.py:723-989 | so does a run without skips if no earlier run stored its link over a skip |
| OutlookSync.HistoryIsFaithfulIff | plugins/shu_outlook_mail/plugin.py:723-989 | over any history the knowledge base is the baseline with the effective calls replayed; those calls do to every baseline what the change log does iff for each id the last effective call asked what the last change asks |
| OutlookSync.NothingStale | plugins/shu_outlook_mail/plugin.py:981-989 | no id becomes stale unless some run stores its link over a skip |
| OutlookSync.SkipThenAdvanceLosesAChange | plugins/shu_outlook_mail/plugin.py:971-989 | a skip followed by a stored link loses a change that a later clean run does not repair |
| TenantMigration.Connection.Issue | backend/migrations/env.py:142-153 | a statement changes the working catalogue; only commits and autocommit statements reach the disk; a dead connection does nothing |
| TenantMigration.Upgrade | backend/migrations/versions/009_00011_tenant_isolation.py:407-703 | an attempt cut off after any number of events leaves on disk exactly the committed part of the program |
| TenantMigration.RunSections | backend/migrations/versions/009_00011_tenant_isolation.py:431-703 | the loops and single statements issue the program's events in order, as far as the connection lives |
| TenantMigration.OwnInventoryIsConsistent | backend/migrations/versions/009_00011_tenant_isolation.py:74-175 | the migration's own lists meet what the convergence results ask: the concurrently indexed tables are the large scoped ones, and the 13 parents are exactly those the 46 keys name |
| TenantMigrationProofs.IdempotentFold | backend/migrations/versions/009_00011_tenant_isolation.py:188-227 | for one catalogue entry the guarded statements of a part of the upgrade, run again on their own outcome, change nothing |
| TenantMigrationProofs.PartialBuild | backend/migrations/versions/009_00011_tenant_isolation.py:551-567 | however far the autocommit block got, the index entry it leaves has the same outcome on the next run as the entry it started from |
| TenantMigrationProofs.BuildsSettle | backend/migrations/versions/009_00011_tenant_isolation.py:551-567 | the block ends with a valid index: the one that was there if it was valid, a fresh build otherwise |
| TenantMigrationProofs.CommitPoints | backend/migrations/versions/009_00011_tenant_isolation.py:542-567 | what an attempt of n events leaves on disk, for every n: nothing before part one is committed, then part one with the prefix of the autocommit block that n says, everything from the final commit on |
| TenantMigrationProofs.UninterruptedCompletes | backend/migrations/versions/009_00011_tenant_isolation.py:407-703 | an attempt that is not cut off leaves the completed catalogue |
| TenantMigrationProofs.RerunConverges | backend/migrations/versions/009_00011_tenant_isolation.py:191-199 | a full run after one attempt stopped anywhere gives the catalogue of a single full run |
| TenantMigrationProofs.InterruptedUpgradeConverges | backend/migrations/versions/009_00011_tenant_isolation.py:191-199 | the same after any number of attempts, each stopped anywhere |
| TenantMigrationProofs.FinalSchema | backend/migrations/versions/009_00011_tenant_isolation.py:526-703 | whatever catalogue it started from, the finished upgrade has row security on, forced and governed by the tenant policy on every scoped table, and something valid under the name of every tenant key, composite key and large index |
| TenantOutcome.EveryEntry | backend/migrations/versions/009_00011_tenant_isolation.py:407-703 | key by key, said without the program: what becomes of every table, column, constraint, index, function, policy and row-security entry, whatever the catalogue was, and that no other entry changes; every scoped table has tenant_id with the seed as its default, every unique swap is made, the parents are unique per tenant, the plain and large indexes are there, system_settings and billing_state have their new primary keys, the tenants table its seed row |
| TenantOutcome.MigrationOutcome | backend/migrations/versions/009_00011_tenant_isolation.py:74-703 | the same on the migration's own lists after any number of interrupted attempts |
| TenantMigrationProofs.OwnObjectsIff | backend/migrations/versions/009_00011_tenant_isolation.py:202-217 | what bears the name of a tenant key, composite key or large index is the migration's own object iff the name was free at the start: absent, of the same columns and definition, or, for a large index, invalid |
| TenantMigrationProofs.OwnInventoryIsDistinct | backend/migrations/versions/009_00011_tenant_isolation.py:128-175 | no two of the migration's 46 keys share a column, as that result asks |
| TenantMigrationProofs.AllIndexesValidIff | backend/migrations/versions/009_00011_tenant_isolation.py:500-603 | every index of the final schema is valid iff each invalid one at the start is built concurrently or is one of the four that are dropped and built again |
| TenantMigrationProofs.BuildAloneKeepsInvalid | backend/migrations/versions/009_00011_tenant_isolation.py:545-550 | without dropping the invalid index first, the index of a killed build stays invalid |
| OrphanRepair.Defuse | backend/migrations/versions/009_00011_tenant_isolation.py:230-312 | sets to NULL exactly the dangling nullable references, keeps every row and every other value, and returns the exact counts, or the full list of blocked keys |
| OrphanRepair.InventoryIsIndependent | backend/migrations/versions/009_00011_tenant_isolation.py:128-175 | in the list of 46 keys no child column is a parent column and no column carries two keys, so repairs cannot disturb each other |
| OrphanRepair.FindingsComplete | backend/migrations/versions/009_00011_tenant_isolation.py:278-294 | a key is reported iff it has orphans, with their number, as nulled or blocked by the nullability of its column |
| OrphanRepair.RaisesIff | backend/migrations/versions/009_00011_tenant_isolation.py:303-312 | it raises iff some NOT NULL column dangles |
| OrphanRepair.AllHoldAfterwards | backend/migrations/versions/009_00011_tenant_isolation.py:617-641 | on normal return all composite keys hold at once, so each can be validated |
| OrphanRepair.ClearsDanglingReferences | backend/migrations/versions/009_00011_tenant_isolation.py:258-294 | a value is cleared iff its column is a nullable child column and no row of the parent table has the row's tenant and that value; every other value stays |
| OrphanRepair.OrderDoesNotMatter | backend/migrations/versions/009_00011_tenant_isolation.py:258-294 | any order of the keys gives the same values |
| OrphanRepair.SecondRunIsIdle | backend/migrations/versions/009_00011_tenant_isolation.py:251-252 | a second run finds no orphan and changes nothing |
| TenantStore.CascadeStaysInTenant | backend/migrations/versions/009_00011_tenant_isolation.py:610-615 | cascades of the older single-column keys never leave the tenant they start in, if no such key crosses tenants |
| TenantStore.InsertIs | backend/migrations/versions/009_00011_tenant_isolation.py:681-703 | an insert adds exactly the given row under the session's tenant if the tenant given is that one or none, its place is free and its references are backed, and otherwise fails with the error of the first of these that is not so |
| TenantStore.UpdateIs | backend/migrations/versions/009_00011_tenant_isolation.py:633-703 | an update of a row the session does not see changes nothing; of one it sees it puts exactly the given row there if the tenant stays and the references are backed, and otherwise fails with the error of the first that is not so |
| TenantStore.NextIs | backend/migrations/versions/009_00011_tenant_isolation.py:681-703 | a statement that fails changes nothing, and one that succeeds leaves what it returned |
| TenantStore.VisibleIs | backend/migrations/versions/009_00011_tenant_isolation.py:694-701 | a session sees, and a delete takes, exactly the rows of its tenant |
| TenantStore.CascadedIsLeast | backend/migrations/versions/009_00011_tenant_isolation.py:610-615 | what goes with a delete is the least set that holds its rows and every row that refers to one of them through a cascading key |
| TenantStore.DeleteFailsWith | backend/migrations/versions/009_00011_tenant_isolation.py:610-641 | a delete that fails says that a tenant would be NULL iff a SET NULL without a column list applies, and otherwise that a row is still referenced |
| TenantStore.DeleteStaysInTenant | backend/migrations/versions/009_00011_tenant_isolation.py:610-615 | then a delete removes and clears only rows of the session's tenant |
| TenantStore.StepKeepsKeys | backend/migrations/versions/009_00011_tenant_isolation.py:633-641 | whatever the schema, each insert, update or delete keeps every key, the composite ones within their tenant |
| TenantStore.StepIsolates | backend/migrations/versions/009_00011_tenant_isolation.py:681-703 | a statement leaves every other tenant's rows as they were, if no older key that acts crosses tenants |
| TenantStore.IsolatesIffCovered | backend/migrations/versions/009_00011_tenant_isolation.py:610-615 | every statement on every store whose keys hold leaves other tenants untouched iff each older key with CASCADE or SET NULL has a composite key beside it |
| MigratedSchema.UncoveredKeysAre | backend/migrations/versions/002_second_release_squash.py:133-180 | of the 39 older keys that migrations 001 to 008 made between tenant-scoped tables, exactly five act and have no composite key beside them |
| MigratedSchema.MigratedSchemaLeaks | backend/migrations/versions/002_second_release_squash.py:139-177 | the schema of those 39 and the 46 composite keys does not isolate; without the five it does, and each of them alone breaks it |
| TenantStore.DeletingAUserReachesOtherTenants | backend/migrations/versions/002_second_release_squash.py:172-177 | from an empty store: an execution in another tenant's user's name is deleted with that user |
| TenantStore.HistoryIsolates | backend/migrations/versions/009_00011_tenant_isolation.py:633-703 | over every history every key holds; in a covered schema a tenant that runs no statement sees no change |
| MigratedSchema.RepairedStoreHolds | backend/migrations/versions/009_00011_tenant_isolation.py:617-641 | where the repair returns normally, every older and composite key of the migrated schema holds on the rows it leaves |
| MigratedSchema.HistoryAfterRepair | backend/migrations/versions/009_00011_tenant_isolation.py:617-703 | so every key holds over every history that follows, and without the five keys tenants are isolated |
| MigratedSchema.MigratedQualifies | backend/migrations/versions/r009_0004_kb_owner_id_set_null.py:40-46 | the migrated schema meets what the results about deleting rows and owners ask of a schema |
| TenantStore.RowsBelongToTheirInserter | backend/migrations/versions/r009_0005_seed_do_and_tenant_id_default.py:104-108 | over every history each row belongs to the tenant whose session inserted it, a tenant left out becoming the session's |
| TenantStore.OmittedTenantIsTheSessions | backend/migrations/versions/r009_0005_seed_do_and_tenant_id_default.py:104-108 | an insert without a tenant gets the session's tenant, or fails |
| TenantStore.NoSessionNoWrites | backend/migrations/versions/009_00011_tenant_isolation.py:694-701 | without a session tenant no statement changes anything |
| TenantStore.DeleteClearsOnlyReferences | backend/migrations/versions/r009_0004_kb_owner_id_set_null.py:40-46 | a surviving row keeps its tenant, its payload and every reference that did not point to a deleted row |
| TenantStore.DeleteSucceedsIff | backend/migrations/versions/r009_0004_kb_owner_id_set_null.py:40-46 | a delete goes through iff no surviving row points to a deleted one through a key that does not clear it |
| TenantStore.OwnerDeletion | backend/migrations/versions/r009_0004_kb_owner_id_set_null.py:40-46 | in every store, deleting an owner fails iff a row of another table obstructs it, and otherwise leaves the knowledge base with only its owner cleared; NO ACTION or SET NULL without a column list would always fail |
| TenantStore.WithoutCompositeKeysCascadesLeak | backend/migrations/versions/009_00011_tenant_isolation.py:610-615 | without the composite keys an older cascade takes another tenant's row |
| UuidConversion.ParseRender | backend/migrations/versions/r009_0003_uuid_column_types.py:209-219 | casting a uuid to text and back gives the same uuid |
| UuidConversion.ParseIff | backend/migrations/versions/r009_0003_uuid_column_types.py:209-219 | the cast accepts a text iff it spells the uuid, in braces or without: 32 hexadecimal digits in either case, with hyphens behind any groups of four but the last (with `HexValueIff`) |
| UuidConversion.ConvertedIff | backend/migrations/versions/r009_0003_uuid_column_types.py:209-219 | the conversion fails iff some id spells no uuid or two tenants spell the same; otherwise every id becomes what it spells and nothing else changes |
| UuidConversion.Upgrade | backend/migrations/versions/r009_0003_uuid_column_types.py:135-246 | raises without the prerequisite, does nothing on uuid columns, undoes everything on an error, otherwise converts every id, keeps the foreign key catalogue identical and swaps the policies of the scoped tables |
| UuidConversion.Downgrade | backend/migrations/versions/r009_0003_uuid_column_types.py:249-321 | the reverse, with the same catalogue kept |
| UuidConversion.AlterToUuid | backend/migrations/versions/r009_0003_uuid_column_types.py:190-219 | the columns change their type only once every key on or to a touched table and every tenant policy is out of the way, which the upgrade has to show |
| UuidConversion.AlterToText | backend/migrations/versions/r009_0003_uuid_column_types.py:289-297 | so does the downgrade |
| UuidConversion.DropKeys | backend/migrations/versions/r009_0003_uuid_column_types.py:190-202 | dropping by table and name removes exactly the snapshot |
| UuidConversion.RestoreKeys | backend/migrations/versions/r009_0003_uuid_column_types.py:221-233 | adds exactly the snapshot back |
| UuidConversion.KeysSurvive | backend/migrations/versions/r009_0003_uuid_column_types.py:221-233 | each composite key holds on the converted rows iff it held before, and every tenant id still has its tenant |
| UuidConversion.StoredSessionsSeeTheSame | backend/migrations/versions/r009_0003_uuid_column_types.py:235-246 | a session set to a stored tenant id sees the same rows before and after |
| UuidConversion.VisibilitySurvivesIff | backend/migrations/versions/r009_0003_uuid_column_types.py:235-246 | any session sees the same rows iff its setting is spelled as a stored id, or names no tenant with rows under any spelling |
| UuidConversion.DowngradeIsCanonical | backend/migrations/versions/r009_0003_uuid_column_types.py:289-297 | downgrade after upgrade gives ids in canonical spelling, so the original data iff all ids were canonical |
| Slugs.SlugifyYieldsSlug | backend/migrations/helpers.py:119-123 | only a-z, 0-9 and single inner hyphens, within max_length, empty iff the truncated text has no letter or digit |
| Slugs.SlugKeepsLetters | backend/migrations/helpers.py:119-123 | a slug keeps the letters and digits of the lowered first max_length characters, all of them and in order, and is the hyphenated text without the hyphens at its ends |
| Slugs.RunsBecomeHyphens | backend/migrations/helpers.py:122 | a run of other characters becomes one hyphen and does nothing else to the text before and behind it |
| Slugs.SlugifyIdempotent | backend/migrations/helpers.py:119-123 | slugify of a slug is that slug |
| Slugs.FreeSlug | backend/migrations/versions/008_eighth_release_squash.py:549-555 | ends within one try more than there are taken slugs, with the first free candidate |
| Slugs.CandidateIs | backend/migrations/versions/008_eighth_release_squash.py:549-555 | the first name tried is the base, the k-th the base, a hyphen and the digits of k; each is a slug |
| Slugs.BaseSlugIs | backend/migrations/versions/008_eighth_release_squash.py:549 | the base is the slug of the name, or "kb" if its first 100 characters hold no letter or digit |
| Slugs.AssignSlugs | backend/migrations/versions/008_eighth_release_squash.py:539-558 | gives each knowledge base the first free candidate in creation order; fails iff some name's first free number has a suffix that does not fit the 100 characters |
| Slugs.AssignedAreDistinct | backend/migrations/versions/008_eighth_release_squash.py:547-563 | all assigned slugs are non-empty and distinct, even when a name spells another's suffixed slug |
| Slugs.AssignedIsSlug | backend/migrations/versions/008_eighth_release_squash.py:547-563 | every assigned slug has the shape of one and is not empty |
| Slugs.RepeatedLongBaseOverflows | backend/migrations/versions/008_eighth_release_squash.py:551-554 | two names with one base of 99 characters or more always overflow |
| Slugs.ShortBasesFit | backend/migrations/versions/008_eighth_release_squash.py:551-554 | bases that leave room for a hyphen and the number of names never do |
| Slugs.LengthLimitIff | backend/migrations/versions/008_eighth_release_squash.py:551-554 | that limit is exact: for n names with bases up to a limit, overflow is excluded iff the limit leaves room for a hyphen and the number n |
| KbPermissions.FindAdminUser | backend/migrations/versions/008_eighth_release_squash.py:173-186 | finds an active admin iff there is one |
| KbPermissions.CollectPermissionBindings | backend/migrations/versions/008_eighth_release_squash.py:189-220 | an actor is collected under a slug iff an active, unexpired row of that knowledge base names it, the user before the group |
| KbPermissions.AddOwnerBindings | backend/migrations/versions/008_eighth_release_squash.py:223-236 | adds exactly the owners |
| KbPermissions.NewPolicyHits | backend/migrations/versions/008_eighth_release_squash.py:275-309 | one policy, statement and set of bindings lets its actors read its resource, and changes no other check of any action, resource or effect |
| KbPermissions.CreatePolicies | backend/migrations/versions/008_eighth_release_squash.py:239-309 | after all slugs every check, allow or deny, comes out as before but for the collected readers; names stay unique and no binding is stored twice; the added policies allow, are active and name the admin; fails iff an older policy has one of the names, and says which |
| KbPermissions.MigratePermissions | backend/migrations/versions/008_eighth_release_squash.py:565-572 | without an admin nothing changes; with one, the collected bindings become policies, unless an older policy has the name for a knowledge base that somebody may read |
| KbPermissions.UpgradeKnowledgeBases | backend/migrations/versions/008_eighth_release_squash.py:529-572 | slugs and permissions from end to end: fails with a slug that is too long iff there is one; with a taken name iff there is none, there is an admin, and an older policy is called "kb-migrated-" and the slug of a knowledge base that somebody may read, which is the name it reports; otherwise the knowledge bases have the assigned slugs and, with an admin, a user passes the check iff no older policy denies and an older one or the old table allowed; without an admin the tables stay as they were |
| KbPermissions.SluggedIsUnique | backend/migrations/versions/008_eighth_release_squash.py:539-558 | there is one way to slug the knowledge bases |
| KbPermissions.AssignedSlugsAreKeys | backend/migrations/versions/008_eighth_release_squash.py:547-563 | the assigned slugs tell knowledge bases apart, as the permission migration needs |
| KbPermissions.MigrationPreservesAccess | backend/src/shu/services/policy_engine.py:298-327 | with an admin, a user passes the engine's check on a knowledge base afterwards iff no older policy denies it to the user or one of the user's groups, and an older policy allows it or the user or a group had an unexpired permission or owns it |
| KbPermissions.BoundIsMayRead | backend/migrations/versions/008_eighth_release_squash.py:189-236 | a new policy binds an actor to a knowledge base iff the actor could read it; nobody gains another one |
| KbPermissions.NobodyLosesAccessIff | backend/migrations/versions/008_eighth_release_squash.py:565-572 | nobody loses access iff every user who has it is an admin, or is denied by no older policy and there is an active admin or an older policy allows it already |
| KbPermissions.OlderDenyLosesAccess | backend/src/shu/services/policy_engine.py:304-325 | an older deny bound to a user makes the user lose a knowledge base although an admin is there and the permission is in force |
| VariantIndex.RanksAreDense | backend/migrations/versions/r009_0001_messages_unique_variant_index.py:77-89 | row numbers of a group of n are exactly 0..n-1 |
| VariantIndex.ConflictingGroupsAreNumbered | backend/migrations/versions/r009_0001_messages_unique_variant_index.py:66-95 | each conflicting group is numbered 0..n-1 in (created_at, id) order |
| VariantIndex.GroupsAre | backend/migrations/versions/r009_0001_messages_unique_variant_index.py:66-89 | a group is the numbered variants of one parent; it is in conflict iff two of them have one number; older messages come first, of two as old the smaller id |
| VariantIndex.OnlyConflictsChange | backend/migrations/versions/r009_0001_messages_unique_variant_index.py:66-95 | rows with a NULL and groups without conflict keep their numbers, and nothing but numbers changes |
| VariantIndex.RenumberedIsUnique | backend/migrations/versions/r009_0001_messages_unique_variant_index.py:53-62 | afterwards no two messages share a non-null pair |
| VariantIndex.Upgrade | backend/migrations/versions/r009_0001_messages_unique_variant_index.py:50-108 | always succeeds and leaves the unique index over the renumbered rows |
| VariantIndex.RerunIsNoOp | backend/migrations/versions/r009_0001_messages_unique_variant_index.py:62-63 | renumbering twice is renumbering once |
| PluginStorage.InsertFamily | backend/migrations/versions/005_fifth_release_squash.py:209-267 | one INSERT ... ON CONFLICT DO NOTHING, in whatever row order, keeps what is there and leaves out a row only for one that took its id or slot |
| PluginStorage.Upgrade | backend/migrations/versions/005_fifth_release_squash.py:206-277 | the three inserts in order, then the delete of exactly the migrating entries |
| PluginStorage.MigratesIff | backend/migrations/versions/005_fifth_release_squash.py:209-277 | an entry moves iff its agent key begins with one of the three prefixes, with any character in place of the underscore |
| PluginStorage.StorageTarget | backend/migrations/versions/005_fifth_release_squash.py:209-228 | a stored value moves to its plugin's namespace "storage", or to "cursor" without "cursor:" in front of its key |
| PluginStorage.SecretTarget | backend/migrations/versions/005_fifth_release_squash.py:229-267 | a secret of either kind moves to its plugin's namespace "secret" with its key |
| PluginStorage.OneRowPerSlot | backend/migrations/versions/005_fifth_release_squash.py:209-267 | into an empty table: exactly one row for each (user, plugin, namespace, key) asked for, taken from an entry that asked |
| PluginStorage.ToolSecretWins | backend/migrations/versions/005_fifth_release_squash.py:229-267 | where a tool_secret and a plugin_secret want one slot, a tool_secret has it |
| PluginStorage.RestoreRows | backend/migrations/versions/005_fifth_release_squash.py:422-456 | row by row re-insertion gives the restored table iff its entries are unique, and an error otherwise |
| PluginStorage.Downgrade | backend/migrations/versions/005_fifth_release_squash.py:419-462 | succeeds iff the restored entries are unique; an error changes nothing |
| PluginStorage.EntryRoundTrip | backend/migrations/versions/005_fifth_release_squash.py:422-456 | one entry comes back, up to renaming tool_secret, iff its prefix was literal |
| PluginStorage.RestoredIsUnique | backend/migrations/versions/005_fifth_release_squash.py:419-456 | a downgrade right after the upgrade never violates the unique constraint |
| PluginStorage.RoundTripIff | backend/migrations/versions/005_fifth_release_squash.py:419-456 | the whole table comes back, up to that renaming, iff no two entries wanted one slot and all prefixes were literal |
| PluginStorage.WildcardIsSweptAlong | backend/migrations/versions/005_fifth_release_squash.py:209-277 | an entry keyed `tool-storage:` is moved and comes back respelled |
| ProviderConfig.ProviderTable.Upgrade | backend/migrations/versions/005_fifth_release_squash.py:295-360 | every row's config takes its columns in and the columns go; without such columns nothing changes |
| ProviderConfig.NewCapabilitiesAre | backend/migrations/versions/005_fifth_release_squash.py:324-352 | each flag that is not NULL, and has no entry yet, becomes an entry with its truth value and its label; every other entry stays |
| ProviderConfig.ProviderTable.Downgrade | backend/migrations/versions/005_fifth_release_squash.py:370-417 | fills every row from its config, or fails for some row, in Python or on binding, and leaves the table as it was |
| ProviderConfig.DowngradeFailsIff | backend/migrations/versions/005_fifth_release_squash.py:393-416 | the downgrade of an upgraded row raises iff its stored capabilities were no object and no flag replaced them, or one of the three was no object; it fails iff it raises or a flag's value or the base URL cannot be bound to its column |
| ProviderConfig.NestedValueFails | backend/migrations/versions/005_fifth_release_squash.py:397-416 | a flag stored as an object is such a value |
| ProviderConfig.ColumnsRestoredIff | backend/migrations/versions/005_fifth_release_squash.py:324-417 | upgrade then downgrade gives all four columns back iff the config held nothing that stood in their way and the flags were NULL or boolean |
| ProviderConfig.ConfigIsKept | backend/migrations/versions/005_fifth_release_squash.py:324-352 | no key of the config is lost, and only an empty base URL or capabilities that are no object are overwritten |
| ProviderConfig.ConfigIsStableIff | backend/migrations/versions/005_fifth_release_squash.py:295-417 | upgrading again after a downgrade reaches the same config iff the base URL was not false, a zero or an empty array, which the text column respells |
| GithubCommits.PaginateSearch | plugins/github/client.py:122-136 | returns the server's list in order in floor(n/p) + 1 requests |
| GithubCommits.NextDayOrdinal | plugins/github/client.py:188-189 | one day forward is one ordinal forward across month, year and leap-day boundaries, and one day back undoes it |
| GithubCommits.IsoOrderIsCalendarOrder | plugins/github/client.py:633-634 | comparing ISO date strings is comparing calendar dates |
| GithubCommits.IsoIs | plugins/github/client.py:188-191 | a date is written YYYY-MM-DD |
| GithubCommits.WindowCovers | plugins/github/client.py:187-191 | a commit whose local date is in range lies inside the widened window for every offset under 24 hours, and the bound is tight to the second at both ends |
| GithubCommits.DateInRangeIff | plugins/github/client.py:608-634 | a commit is in range iff its author date is there and its local day is no earlier than the first and no later than the last |
| GithubCommits.WindowEnds | plugins/github/client.py:187-191 | the window runs from 00:00:00 to 23:59:59, UTC |
| GithubCommits.ListedIs | plugins/github/client.py:192-202 | listing a branch leaves out exactly the dated commits outside the window, and keeps the order |
| GithubCommits.FetchCommits | plugins/github/client.py:184-211 | the result is the first-seen in-range commits of all branches' full histories, though the server lists only the window |
| GithubCommits.CollectInRange | plugins/github/client.py:203-209 | the inner loop extends the first-seen list and the set of hashes together |
| GithubCommits.WindowLosesNothing | plugins/github/client.py:187-209 | listing a branch through the window changes nothing in the result |
| GithubCommits.FirstSeenIsExact | plugins/github/client.py:193-211 | each in-range commit of any branch is in the result exactly once, and nothing else is |
| GithubCommits.FirstSeenGrows | plugins/github/client.py:196-209 | the order is first-seen order: a prefix of the listing gives a prefix of the result |
| GithubCommits.GroupComments | plugins/github/client.py:490-498 | each review gets exactly its own comments, in order |
| GithubCommits.OfReviewLaw | plugins/github/client.py:490-498 | a review's comments are decided one by one, in order |
| Base64Url.TranslatedEncoding | plugins/shu_gmail_digest/plugin.py:414 | replacing the two characters turns any base64url encoding into the base64 one |
| Base64Url.RfcExamples | plugins/shu_gmail_digest/plugin.py:411-416 | examples of section 10 of RFC 4648, and two texts that show the alphabets apart |
| Base64Url.PadCompletes | plugins/shu_gmail_digest/plugin.py:415 | -len mod 4 is the padding that the encoding lacks, none if it is padded |
| Base64Url.DecodeEncode | plugins/shu_gmail_digest/plugin.py:416 | decoding a padded base64 encoding gives the bytes back |
| Base64Url.UrlRoundTrip | plugins/shu_gmail_digest/plugin.py:411-416 | every byte string survives its base64url encoding, padded or not |
| Base64Url.DecodesIff | plugins/shu_gmail_digest/plugin.py:411-416 | a text without padding characters decodes iff its alphabet characters fill whole groups, or the padding computed from the whole length completes the last one; other characters are skipped |
| Base64Url.OddLengthRejectedIff | plugins/shu_gmail_digest/plugin.py:415-416 | a text over the alphabet is rejected iff it is one longer than a multiple of four |
| Base64Url.StrayNewlineRejectedIff | plugins/shu_gmail_digest/plugin.py:415-416 | an unpadded encoding followed by a line end is rejected iff the number of bytes is no multiple of three |
| HtmlText.NoTagsLeft | plugins/shu_gmail_digest/plugin.py:448 | one left-to-right pass leaves no substring that matches the tag pattern |
| HtmlText.FirstTagIsReplaced | plugins/shu_gmail_digest/plugin.py:448 | the leftmost tag becomes a blank, the text before it stays, and the pass goes on behind it |
| HtmlText.FirstBlockIsReplaced | plugins/shu_gmail_digest/plugin.py:446-447 | the leftmost script or style block, up to its nearest closing part and with all that is in it, becomes a blank; the text before it stays, and the pass goes on behind it |
| HtmlText.NoBlockNoChange | plugins/shu_gmail_digest/plugin.py:446-447 | text without such a block stays as it is |
| HtmlText.NoBlocksLeft | plugins/shu_gmail_digest/plugin.py:446-447 | one pass leaves no block of its kind, whatever the replacement brings together |
| HtmlText.CollapsedShape | plugins/shu_gmail_digest/plugin.py:449 | white space is left only as single blanks |
| HtmlText.RunIsOneBlank | plugins/shu_gmail_digest/plugin.py:449 | a run of white space becomes one blank and does nothing else to the text before and behind it |
| HtmlText.StrippedIs | plugins/shu_gmail_digest/plugin.py:450 | stripping takes the white space off both ends and nothing else |
| HtmlText.CollapseMakesNoTag | plugins/shu_gmail_digest/plugin.py:449 | collapsing white space does not put a tag together |
| HtmlText.NoTagNoBlocks | plugins/shu_gmail_digest/plugin.py:446-447 | a text without tags has no script or style block |
| HtmlText.CleanShape | plugins/shu_gmail_digest/plugin.py:445-450 | cleaned text has no tag, no run of two white-space characters and no outer white space |
| HtmlText.CleanIsIdempotent | plugins/shu_gmail_digest/plugin.py:445-450 | cleaning reaches its fixed point in one pass |

## Left out

- Email: concurrent workers on one job (a visibility timeout that passes while a handler still runs), mail delivered although the send raised, resolving the job's tenant, and rendering, rate limits and idempotency in the enqueuing service.
- Drive: downloads, size and type filters, processing of deletions, the shared-drive listing without folders, and any claim across the first sync, because the start token is fetched after the scan.
- DriveSync.ScanFolders: the files of a folder queued twice are listed twice, and the contract allows it; the code does the same.
- Outlook: the mirror is claimed only from the last full sync that stored a link, because the full sync lists a time window; message fields other than id, removal and body.
- TenantMigration.Upgrade: constraint and index names are structured values, the lists are parameters (the migration's own are shown to qualify), each statement touches one catalogue entry, and column drops do not cascade; the deployment-mode checks and the downgrade of migration 009 are not modelled.
- TenantMigration.Upgrade: a VALIDATE, UNIQUE or NOT NULL that fails on existing rows is an interruption before that statement; which data passes is modelled for the composite keys only (OrphanRepair).
- Migration 009 drops only the unique constraints named after their column; the leftover unique indexes that r009_0002 removes are not modelled.
- TenantStore: changes of primary keys, roles that bypass row security, the foreign keys to tables without a tenant, and NOT NULL columns other than the tenant.
- UuidConversion: row data other than the tenant id and references, and the column defaults it drops.
- Slugs: Unicode folding, the input of slugify is taken after it; validation of max_length.
- KbPermissions: random ids are a fresh counter; descriptions and time stamps; fnmatch is any function of value and pattern; the engine's cache and its refresh.
- KbPermissions.UpgradeKnowledgeBases: when a name is taken, the policies made before it are still in the tables; the transaction that takes them back is not modelled.
- EmailQueue: the order of the queue; a step may take any copy of the job.
- VariantIndex: time stamps and ids are numbers.
- PluginStorage: length limits of the new columns, and the table's other columns.
- ProviderConfig: a config that is neither NULL nor a JSON object, the rendering of numbers and arrays as text (a parameter of the value), and the renaming of provider types.
- GitHub: HTTP, retries and authentication; the server's window is taken to compare the same instant as the author's stamp; fractional seconds; time stamps that do not parse are one missing value.
- Gmail: the recursive walk over message parts and UTF-8 decoding.
- Base64Url.DecodesIff: texts with padding characters inside are decoded by the model as by the library, but only texts without them have a closed condition.
- HtmlText: patterns are modelled by their matches from left to right, not by a regular expression engine.
- Index-only and column-only migrations, seed data, and every plugin not named above.
