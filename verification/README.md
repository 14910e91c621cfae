# Assemblage, modelled and verified in Dafny

Assemblage builds open-source repositories in bulk: a scraper finds them, a coordinator hands them to
builders over message queues, builders store binaries with their debug information, and a dataset writer
turns the result into tables. This project models the parts of it whose correctness is not plain from
reading one function, and proves what they promise.

## What is modelled

**Coordinator.** `Tables` is the database: repositories, build options, status rows, IR records, and the
effect of each committed transaction. `FanOut` proves which status rows exist after any sequence of
transactions, `Lifecycle` what a row keeps over whole runs, `Store` the transactions as methods of a class
that changes its tables in place, `Ingest` the message handlers on top of it.

**Dispatch.** `DispatchProtocol` is a transition system. Any number of dispatchers (one per option), other
transactions, builders, list changes and crashes of one thread or the whole process take turns, and selecting a
row, calling publish, queueing a copy, the confirm and the mark are separate steps. Disabled actions do
nothing, so every sequence of actions is a run, and the theorems hold of all of them. `DispatchLog` says what
one task's events look like; `Publisher` and `Dispatcher` are the imperative code (the bounded retry loop and
the loop body), and `Dispatcher.TurnRuns` shows that a turn of the loop is a run of protocol actions.
`CloneUrl` is the rewriting of stored URLs for the builder.

**Block list.** `SqlLike` is the LIKE predicate of section 8.5 of ISO/IEC 9075-2, with the standard's own
definition beside the matcher; `Blocklist` is the list, its file format and its patterns; `BlocklistFilter` relates the
SQL filter to the Python predicate on the URLs the system stores; `FileBlocklist` is the reloading.

**Delivery.** `Consumer` is one delivery's callback, and a broker with any number of consumers, connection
drops on either side, lost acknowledgements and crashes.

**Debug information.** `Rva` is the text form of addresses. `LineAttribution` gives each line row to a
function. `Extract` shards, merges and writes each distinct function once. `PhaseBudget` runs many extractions under one clock.

**Storage.** `KeyParsers` prints and parses build prefixes, `MigrationKeys` places objects in the new layout,
and `Migration` is the copy, verify, manifest, delete protocol over a bucket that stops taking writes after any
number of them. What lands at a destination is arbitrary, for uploads and copies, and so is what the new directory holds before a run, so
damaged uploads and half-written directories are among the cases.

**DeepHistory, dataset, scraper.** `DeepHistory` is N replicas around an atomic claim directory and a racy
progress file. `DatasetStore` inserts in chunks with a fallback, `DatasetBatches` and `DatasetConstruct`
allocate ids and flush, and `DatasetConstruct.Construct` joins them. `Scraper` bundles repositories, `GitHubSearch` walks time windows and pages.

`Text`, `Seqs` and `Wrappers` hold string operations, concatenation and `Option`.

## What was found

Where a property fails, a lemma gives the failing case and another the exact condition.

- `BlocklistFilter`: an owner entry that names a fixed URL segment hides every repository of that URL shape
  (`FixedSegmentOverblocks`), and a repository whose stored name ends in `.git` slips through
  (`GitSuffixSlipsThrough`); exactly when is `FilterAgreesAlways`.
- `CloneUrl`: an owner ending in `repos`, or `api.` anywhere in owner or name, gives a clone URL that is not the
  repository's (`StoredUrlPatches` and `StoredCloneUrlPatches`, one for each stored shape, both if and only if).
- `FanOut`: for options whose build system is not "all", whichever of option and repository comes later decides by
  its own test (`LaterOneDecides`), so the rows depend on the order exactly where the tests differ
  (`FanOutDependsOnOrder`, `TestsAgreeExactly`).
- `FileBlocklist`: a file cut short that is still readable does re-admit what its lost lines named, although the
  docstring says otherwise (`TruncationReadmits`, `ReloadReadmits` for the exact set), and one that does not decode
  raises (`Current`).
- `Ingest`: a report delivered twice is counted twice (`ReplayCountsAgain`, `HandleBuildTwice`).
- `LineAttribution`: on equal starts the longer range is chosen, although a comment in the code says innermost
  (`EqualStartsTakeTheLonger`, `OwnerInnermostExactly`).
- `KeyParsers`: a C build made with gcc is taken for a Rust build once it is migrated, although the docstring of
  the test excludes it (`GccBuildTakenForRust`, `RustDirExactly`).
- `Migration`: two objects of one base name overwrite each other although each passes its check; a completed run
  deletes both, and both come back exactly when their bytes are equal (`MigrateShared`; for any number of objects
  `AllVerifiedExactly`). A run cut off between two deletions leaves objects under the old prefix that no later run
  removes unless its own look at the manifest fails (`CutOffBetweenDeletes`, `FailedLookClears`; exactly when the
  prefix ends empty is part of `RunAll`).
- `DatasetConstruct`: an existing file with an empty table aborts the construction before it begins (`FirstIds`).
- `DeepHistory`: a save drops entries exactly when another replica saved since its re-read, or the re-read failed on
  a file that listed something (`SaveKeepsExactly`, with a run from the start in `DroppedEntry`). A dropped key is
  never built again (`SavedStaysClaimed`), nor is one whose replica restarts after the claim (`RestartAbandons`).
  Keys that differ only in `/` against `_` share one claim (`PathsEqualExactly`).
- `GitHubSearch`: a reported total that drops late makes the loop fetch more pages than the final total asks for
  (`LateDropOvershoots`, `LastPageExactly`).
- `Rva`: past sixteen digits text order can differ from numeric order (`WiderAddressesMisorder`; exactly when is
  `TextOrderExactly`).

The phase budget, on the other hand, holds for every per-binary timeout, also one below a second.

## Model

| member | source | states |
|---|---|---|
| SqlLike.MatchesIsPartition | backend/assemblage/db/store.py:174 | The matcher accepts a string exactly when the string can be cut into pieces that fit the pattern's tokens one by one, the standard's definition |
| SqlLike.LitsMatchOnly | backend/assemblage/blocklist.py:39-48 | A pattern of literals matches one string only |
| SqlLike.ParsedExactly | backend/assemblage/db/store.py:174 | A pattern has given tokens exactly when it is made of their pieces: a percent sign, an underscore, or a character, escaped if it is special |
| Blocklist.ThreePassesAreOne | backend/assemblage/blocklist.py:44-48 | The three replacements one after the other give each wildcard exactly one escape |
| Blocklist.EscapeLike | backend/assemblage/blocklist.py:44-48 | The loop computes the one-pass escape |
| Blocklist.EscapedIsLiteral | backend/assemblage/blocklist.py:44-48 | An escaped text followed by any pattern parses to its own characters as literals, then that pattern |
| Blocklist.SplitNamesAreValid | backend/assemblage/blocklist.py:51-68 | Owner and name come out non-empty, slash-free and lower case |
| Blocklist.ParseList | backend/assemblage/blocklist.py:82-99 | The list holds exactly the owners and repositories the lines name, all well formed |
| Blocklist.LineText | backend/assemblage/blocklist.py:86-98 | A line's text, without comment and surrounding blanks, decides its entry: none, an owner in small letters, or the repository it splits into |
| Blocklist.SplitLastTwo | backend/assemblage/blocklist.py:59-68 | Owner and name are the last two segments of the path that are not empty, in small letters, the name without `.git`; none if that leaves no name |
| Blocklist.SplitTooFew | backend/assemblage/blocklist.py:61-62 | With fewer than two such segments there is no repository |
| Blocklist.LikePatterns | backend/assemblage/blocklist.py:109-124 | One pattern for each owner, two for each repository, no other; none exactly for the empty list |
| BlocklistFilter.LikeBlockedExactly | backend/assemblage/db/store.py:162-174 | A stored URL is excluded by the SQL filter exactly when the repository is listed or an entry names a fixed segment |
| BlocklistFilter.UrlListedExactly | backend/assemblage/blocklist.py:101-107 | The Python predicate holds of a stored URL exactly when its owner or its name without `.git` is listed |
| BlocklistFilter.FilterAgreesAlways | backend/assemblage/db/store.py:162-174 | For any list and any name, `.git` and fixed segments together: when the filter and the predicate agree, in terms of the entries |
| BlocklistFilter.FilterAgreesExactly | backend/assemblage/blocklist.py:101-124 | For names without `.git` the filter and the predicate agree exactly when fixed-segment entries change nothing |
| BlocklistFilter.FilterAgreesOnGitNames | backend/assemblage/blocklist.py:64-65 | With no entry on a fixed segment they agree exactly when listing does not depend on the suffix |
| BlocklistFilter.FixedSegmentOverblocks | backend/assemblage/blocklist.py:119 | An owner entry equal to a fixed segment excludes a repository that is not listed |
| BlocklistFilter.GitSuffixSlipsThrough | backend/assemblage/blocklist.py:64-65 | A listed repository stored with `.git` is not excluded |
| BlocklistFilter.StoredShapes | backend/assemblage/blocklist.py:54-58 | Both stored URL shapes satisfy what the theorems ask of a shape |
| FileBlocklist.FileBlocklist.Current | backend/assemblage/blocklist.py:154-161 | Only a readable, changed file seen at a due look replaces the list; anything else keeps the last one, and a file that does not decode raises |
| FileBlocklist.FileBlocklist.Reload | backend/assemblage/blocklist.py:163-195 | The same for one look, for a missing, unreadable, undecodable, unchanged or changed file |
| FileBlocklist.ReloadReadmits | backend/assemblage/blocklist.py:133-139 | A reload re-admits exactly what the new lines no longer name, and nothing exactly when they name every entry |
| FileBlocklist.TruncationReadmits | backend/assemblage/blocklist.py:133-139 | A file that loses a line re-admits the owner it names unless another line names it |
| FanOut.LanguagesMatchIsEquivalence | backend/assemblage/db/store.py:42-55 | Language matching is reflexive, symmetric and transitive, and joins exactly the C family |
| FanOut.TestsAgreeExactly | backend/assemblage/db/store.py:151-152 | When the coverage tests of registration and insertion agree |
| FanOut.ReachableInv | backend/assemblage/db/store.py:96-158 | After any transactions: ids fresh, rows refer, one option for an identity, one repository for a URL, rows exact |
| FanOut.FanOutIsExact | backend/assemblage/db/store.py:308-351 | In every reachable state an option for "all" has exactly one row for each repository of its language and none for any other |
| FanOut.FanOutWhereTestsAgree | backend/assemblage/db/store.py:327-331 | The same for any pair on which the two tests agree |
| FanOut.FanOutDependsOnOrder | backend/assemblage/db/store.py:151-152 | In any state, the two orders of registering a new option and inserting a new repository give the same rows exactly when the tests agree |
| FanOut.LaterOneDecides | backend/assemblage/db/store.py:148-153 | In every run, for every pair, the test of whichever came later says whether there is a row, whatever is committed before and after |
| FanOut.RegisterTwice | backend/assemblage/db/store.py:126-131 | Registering an identity again changes nothing and returns the same id |
| FanOut.RegisterWrites | backend/assemblage/db/store.py:96-158 | A new option's identity is stored enabled, and a repository gets one new row, NOT_STARTED and INIT, exactly if its language matches and the option's build system occurs in its own or is `all`; rows that were there stay |
| FanOut.InsertWrites | backend/assemblage/db/store.py:308-351 | A new repository is stored as given and gets such a row for an option exactly if the languages match and its build system occurs in the option's or the option's is `all`; a URL already stored changes nothing |
| Store.CoordinatorStore.RegisterBuildOpt | backend/assemblage/db/store.py:96-158 | Match or create, with backfilled rows; the invariant is kept |
| Store.CoordinatorStore.InsertRepos | backend/assemblage/db/store.py:308-351 | Insert with rows for covering options; a duplicate or failure leaves the tables as they were |
| Store.CoordinatorStore.NextDispatchable | backend/assemblage/db/store.py:176-211 | A row of the option that is NOT_STARTED and INIT and whose URL no pattern of the list matches, or None exactly when every such row is blocked, so a blocked row hides no other |
| Store.CoordinatorStore.MarkCloneProcessing | backend/assemblage/db/store.py:232-239 | The row's clone status becomes PROCESSING, nothing else changes |
| Store.CoordinatorStore.UpdateRepoStatus | backend/assemblage/db/store.py:252-286 | Field by field: with a status given, each status is the given one or the old one, time and message follow a given build status, the clone message a given clone status, the sha is the given one exactly when not empty; repository, option and all other rows stay |
| Store.UpdateWritesFields | backend/assemblage/db/store.py:271-286 | The same of the row the transaction writes, wherever it commits in a run |
| Store.CoordinatorStore.FailSiblingStatuses | backend/assemblage/db/store.py:288-304 | Exactly the repository's other INIT rows fail, and they are counted |
| Store.FailSiblingsWrites | backend/assemblage/db/store.py:288-304 | A row fails, with the message and the stamp, exactly when it is of the repository, another task's and INIT; it keeps all else, and so do the other rows |
| Store.CoordinatorStore.UpsertIrArtifacts | backend/assemblage/db/store.py:358-377 | The stages are inserted or updated in order and counted; an unknown task is refused |
| Lifecycle.RunMovesOn | backend/assemblage/db/store.py:252-304 | Over any run: build status never returns to INIT, clone status never to NOT_STARTED, a sha is never cleared, no row is lost |
| Lifecycle.BackToInitExactly | backend/assemblage/db/store.py:271-286 | A row leaves a later build state for INIT exactly by an update that says INIT |
| Lifecycle.FailedRepoLeavesDispatch | backend/assemblage/coordinator/ingest.py:70-93 | After a FAILED report, whatever commits between its two transactions and after them, no row of the repository is INIT or eligible until an option is registered |
| Lifecycle.FailedReportClears | backend/assemblage/coordinator/ingest.py:84-93 | When the report is handled no row of the repository is INIT |
| Lifecycle.UpsertIrValue | backend/assemblage/db/store.py:368-376 | After a report the table holds its last record for each stage of the task and all else as before |
| Lifecycle.UpsertIrTwice | backend/assemblage/db/store.py:361-364 | The same report again changes nothing |
| Ingest.HandleScrape | backend/assemblage/coordinator/ingest.py:43-57 | The tables after the bundle are those after inserting its non-failing repositories in order |
| Ingest.InsertedBundle | backend/assemblage/coordinator/ingest.py:49-55 | After a bundle each repository whose insert did not fail is stored with its URL, and what was stored before is still there |
| Ingest.HandleCloneStatus | backend/assemblage/coordinator/ingest.py:60-67 | The task's row takes the status and the last 200 characters of the message and keeps all else; no other row changes |
| Ingest.HandleBuildStatus | backend/assemblage/coordinator/ingest.py:70-101 | The row takes the status, the time, the last 500 characters of the message and a sha that is not empty; siblings fail on FAILED, tallies grow by exactly what failed, an unknown task requeues |
| Ingest.ReportIsWritten | backend/assemblage/coordinator/ingest.py:70-93 | What every row holds after a report: the task's own, an INIT sibling's after FAILED, and any other unchanged |
| Ingest.HandleIr | backend/assemblage/coordinator/ingest.py:110-131 | The stages are recorded; an unknown task requeues |
| Ingest.ReplayChangesOnlyStamps | backend/assemblage/coordinator/ingest.py:60-131 | A clone, build or IR message handled twice leaves what handling it once left but for timestamps |
| Ingest.ReplayCountsAgain | backend/assemblage/coordinator/ingest.py:84-93 | A FAILED report handled again counts one more failure, its siblings none |
| Ingest.HandleBuildTwice | backend/assemblage/coordinator/ingest.py:70-101 | The tables and the tallies after one report delivered twice |
| Ingest.FailedReportOps | backend/assemblage/coordinator/ingest.py:74-90 | The handler's two transactions are the report of the lifecycle theorem |
| CloneUrl.PatchUrlExactly | backend/assemblage/coordinator/dispatch.py:39-41 | An API URL becomes the clone URL of its path exactly when the path holds neither removed word |
| CloneUrl.StoredUrlPatches | backend/assemblage/coordinator/dispatch.py:39-41 | For owner and name: exactly when the owner does not end in `repos` and `api.` does not occur |
| CloneUrl.PatchKeepsExactly | backend/assemblage/coordinator/dispatch.py:39-41 | A URL is left as it is exactly when it holds neither removed word |
| CloneUrl.StoredCloneUrlPatches | backend/assemblage/coordinator/dispatch.py:39-41 | A stored clone URL stays what it is exactly when the owner does not end in `repos` and `api.` does not occur |
| Publisher.Publisher.Publish | backend/assemblage/mq/publisher.py:81-133 | The attempts made are the lost ones up to the first that was not, within the bound; it returns exactly after a confirm, and the queue gains one copy for each attempt that left one |
| Publisher.Publisher.QueueDepth | backend/assemblage/mq/publisher.py:148-156 | The number waiting, 0 for an absent queue, or a failure of the connection |
| Publisher.ReturnMeansConfirmed | backend/assemblage/mq/publisher.py:101-133 | Returning means some attempt within the bound was confirmed after nothing but lost connections, with at least one copy queued |
| DispatchLog.HandedAgainAfterFailure | backend/assemblage/coordinator/dispatch.py:130-132 | In a well-formed log two hand-overs of a task have a failure of it between them |
| DispatchLog.DoneWasDispatched | backend/assemblage/coordinator/dispatch.py:130-132 | A task at its last stage was handed over, queued, confirmed and marked in this order |
| DispatchProtocol.ExecInv | backend/assemblage/coordinator/dispatch.py:106-136 | Every run keeps the invariant that ties dispatchers, tables, queues and log together |
| DispatchProtocol.HandedAgainOnlyAfterFailure | backend/assemblage/coordinator/dispatch.py:106-136 | In every interleaving a task is handed to publish again only after publish raised, the mark did not commit, or the dispatcher crashed |
| DispatchProtocol.MarkedNeverHandedAgain | backend/assemblage/coordinator/dispatch.py:130-132 | A marked task is never handed over again |
| DispatchProtocol.ProcessingWasConfirmed | backend/assemblage/db/store.py:232-239 | A row in clone PROCESSING was handed over, queued on its own option's queue, confirmed and marked, in this order |
| DispatchProtocol.StartedWasQueued | backend/assemblage/db/store.py:176-187 | A row whose clone status has moved was queued for its own option first |
| DispatchProtocol.QueueHoldsOwnTasks | backend/assemblage/coordinator/dispatch.py:113-130 | A queue holds only its option's tasks, each as its row, repository and option describe it |
| DispatchProtocol.QueuedMessageCarries | backend/assemblage/coordinator/dispatch.py:113-130 | In every run each message on a queue carries its row's repository id, the repository's name and build system, the option's flag and, for either stored URL shape, the clone URL of owner and name exactly where the rewriting allows it |
| DispatchProtocol.HandedWasNotBlocked | backend/assemblage/db/store.py:188-192 | What is handed over was not blocked by the list in force at its selection |
| DispatchProtocol.HandedWasNotListed | backend/assemblage/blocklist.py:101-107 | For stored URLs and names without `.git`: nor was it listed by the Python predicate |
| Dispatcher.DispatcherService.DispatchStep | backend/assemblage/coordinator/dispatch.py:106-136 | When the depth query fails, the loop idles, starves, fails to publish, fails to mark or dispatches, and the whole new state of store, queue, flags and count in each case; what it queues carries the eligible row's ids, its repository's name, build system and clone URL and its option's flag |
| Dispatcher.TurnRuns | backend/assemblage/coordinator/dispatch.py:106-136 | A turn's protocol actions leave tables and queue as the loop body leaves them and the dispatcher idle |
| Dispatcher.StarvationSignals.TakeStarving | backend/assemblage/coordinator/dispatch.py:56-62 | Each flagged option once, and the flags cleared |
| Dispatcher.DispatchManager.EnsureStarted | backend/assemblage/coordinator/dispatch.py:172-181 | Each option's dispatcher is launched at most once |
| Dispatcher.StartIsEnsureStarted | backend/assemblage/coordinator/dispatch.py:172-181 | The starting step of the protocol does what the manager does: nothing for a running dispatcher, one more idle one otherwise |
| Dispatcher.OneDispatcherEach | backend/assemblage/coordinator/dispatch.py:172-181 | In every run the options with a dispatcher are those the manager started since the process began |
| Dispatcher.TurnReachesProcessing | backend/assemblage/coordinator/dispatch.py:106-136 | Wherever a run leaves an idle dispatcher with an eligible row, a confirmed and marked turn brings it to clone PROCESSING |
| Dispatcher.ProcessingIsReached | backend/assemblage/coordinator/dispatch.py:106-136 | From the start, for any option for every build system and any repository of its language |
| Consumer.OnMessage | backend/assemblage/mq/consumer.py:119-149 | Early, the settlement comes before the handler runs; late, after it; the settlement is an ack early or for a handler that returned ACK and a nack otherwise; on a closed channel there is none and an early handler does not run |
| Consumer.CallbackOrder | backend/assemblage/mq/consumer.py:119-149 | Wherever a crash cuts a late callback off, a settled delivery has run |
| Consumer.SettledExactlyOnce | backend/assemblage/mq/consumer.py:119-149 | A callback that completes settles its delivery once and runs the handler; late, the ack needs a handler that returned ACK |
| Consumer.CallbackRuns | backend/assemblage/mq/consumer.py:119-149 | From any state a callback's actions run the handler once and put the message where the one settlement among its events says, if that arrives |
| Consumer.LateLosesNothing | backend/assemblage/mq/consumer.py:140-149 | Late: a message is gone only after a run on it returned ACK; any other is on the queue or held by an open connection, and a drop or a crash of its holder puts it back |
| Consumer.EarlyRunsAtMostOnce | backend/assemblage/mq/consumer.py:134-140 | Early: runs exceed one only by acks that did not arrive, and with none lost there is at most one |
| Consumer.EarlyMayLose | backend/assemblage/mq/consumer.py:134-140 | Early: a crash between ack and handler leaves a message gone and not run |
| Rva.RoundTrip | backend/assemblage/dwarf/extract.py:471-472 | Parsing the padded hexadecimal text of any number gives it back |
| Rva.WidthExactly | backend/assemblage/dwarf/extract.py:471-472 | The text has sixteen characters exactly below 2^64 |
| Rva.TextOrderIsNumeric | backend/assemblage/dwarf/extract.py:471-472 | Below 2^64 text order is numeric order |
| Rva.TextOrderExactly | backend/assemblage/dwarf/extract.py:471-472 | For any two addresses text order is numeric order exactly when the smaller is not above the larger cut to its width |
| Rva.WiderAddressesMisorder | backend/assemblage/dwarf/extract.py:471-472 | The first wider address sorts before smaller ones |
| Rva.CollectRanges | backend/assemblage/dwarf/extract.py:463-477 | The ranges kept, as numbers and as texts |
| Rva.KeptInPlace | backend/assemblage/dwarf/extract.py:463-477 | Wherever it stands, an address range is dropped if it begins below the base or is empty and otherwise kept moved down by the base |
| Rva.PrintedExactly | backend/assemblage/dwarf/extract.py:471-472 | The printed text is the only one of sixteen lower-case digits, or more without a leading zero, that denotes the number |
| Rva.ExtractedRangesReadBack | backend/assemblage/dataset/construct.py:384-394 | The dataset reads exactly the ranges the extractor kept, in order, none empty |
| Rva.ReadInPlace | backend/assemblage/dataset/construct.py:384-394 | One malformed text fails the reading; a well-formed pair adds its range unless it is empty |
| Rva.CaseDoesNotMatter | backend/assemblage/dataset/construct.py:386-387 | Capital digits read as small ones |
| LineAttribution.SortRowsIsStable | backend/assemblage/dwarf/extract.py:570 | Rows ascend by address, and rows of one address keep their order |
| LineAttribution.LengthsTelescope | backend/assemblage/dwarf/extract.py:571-572 | Lengths are non-negative and add up to the span of the rows |
| LineAttribution.PrepareRows | backend/assemblage/dwarf/extract.py:547-572 | Usable entries, sorted, with lengths |
| LineAttribution.PreparedExactly | backend/assemblage/dwarf/extract.py:547-572 | At each address the rows are, in order, the entries with a state and a line that end no sequence, field by field; each length is the distance to the next row, the last one 0 |
| LineAttribution.Locate | backend/assemblage/dwarf/extract.py:578-584 | The last covering interval, or none exactly when no interval covers the address |
| LineAttribution.OwnerExactly | backend/assemblage/dwarf/extract.py:540-584 | An address has an owner exactly when a range covers it, and it is the greatest covering range whatever order ranges were listed in |
| LineAttribution.OwnerInnermostExactly | backend/assemblage/dwarf/extract.py:574-575 | Of nested ranges the owner is innermost at every address exactly when no two non-empty ranges of one start have different ends |
| LineAttribution.DistinctStartsGiveInnermost | backend/assemblage/dwarf/extract.py:574-575 | With distinct starts it is the innermost |
| LineAttribution.EqualStartsTakeTheLonger | backend/assemblage/dwarf/extract.py:544 | On equal starts the longer range wins |
| LineAttribution.AssignLines | backend/assemblage/dwarf/extract.py:530-584 | Each function gets exactly the prepared rows it owns, in order |
| LineAttribution.LinesOfFunction | backend/assemblage/dwarf/extract.py:530-584 | A function's lines ascend, and at each address they are all the rows there or none, as one of its own ranges is the greatest that covers the address or not |
| LineAttribution.LinesExactly | backend/assemblage/dwarf/extract.py:576-584 | A row is among a function's lines exactly when that function owns its address |
| LineAttribution.EachOwnedRowOnce | backend/assemblage/dwarf/extract.py:576-584 | The lines of all functions together are as many as the owned rows |
| Extract.ExtractShard | backend/assemblage/dwarf/extract.py:116-188 | The units of one residue, with their indices |
| Extract.ShardExactly | backend/assemblage/dwarf/extract.py:150-154 | Which indexed units a shard holds |
| Extract.MergeShards | backend/assemblage/dwarf/extract.py:191-206 | Shards that cover a file, in any order and number, merge to the functions of one walk |
| Extract.BuildItem | backend/assemblage/dwarf/extract.py:599-637 | The deduplicated entries of functions with ranges, None when there are none |
| Extract.DedupKeepsFirsts | backend/assemblage/dwarf/extract.py:628-632 | No duplicates, the same elements, each at its first occurrence and in order |
| Extract.DedupIdempotent | backend/assemblage/dwarf/extract.py:628-632 | Deduplicating again changes nothing |
| Extract.GapsExactly | backend/assemblage/dwarf/extract.py:587-596 | The gaps between sorted ranges are their span less what they cover |
| Extract.DuplicatesExactly | backend/assemblage/dwarf/extract.py:618-630 | Two functions are duplicates exactly when name, source, ranges and written lines agree |
| Extract.EntryExactly | backend/assemblage/dwarf/extract.py:606-627 | What is written for a function and nothing else: its name, its source, the sixteen-digit texts of its ranges and line addresses in order with each line's number, length, code and file, and the ratio |
| Extract.PercentExactly | backend/assemblage/dwarf/extract.py:587-596 | The ratio times the span is a hundred times the gaps, for a span above zero, and nothing otherwise |
| Extract.ItemExactly | backend/assemblage/dwarf/extract.py:599-637 | There is no item exactly when no function has ranges; otherwise it lists the entries of the functions with ranges, in order, each at the first function that has it and none left out |
| Extract.ExtractParallel | backend/assemblage/dwarf/extract.py:220-274 | When it handles the file it gives the serial result; when it declines and why |
| Extract.ExtractItem | backend/assemblage/dwarf/extract.py:209-217 | The result is the serial one for any number of jobs and any pool failure |
| PhaseBudget.ExtractEach | backend/assemblage/dwarf/isolated.py:119-163 | Items, failures and skips are those of the clocked plan and add up to the input |
| PhaseBudget.FateExactly | backend/assemblage/dwarf/isolated.py:138-148 | A binary is skipped exactly with less than a second left, and a granted extraction ends by the deadline |
| PhaseBudget.FatesExactly | backend/assemblage/dwarf/isolated.py:135-158 | Every binary's turn comes when the one before has ended and the caller has taken its time; it is skipped with less than a second left, and otherwise may take its own timeout, but no more than the whole seconds left and no less than one |
| PhaseBudget.ItemsExactly | backend/assemblage/dwarf/isolated.py:157-158 | The output holds the item of every binary that yielded one, in order |
| PhaseBudget.SkippedExactly | backend/assemblage/dwarf/isolated.py:139-141 | The count is of the binaries skipped |
| PhaseBudget.EndsByDeadline | backend/assemblage/dwarf/isolated.py:136-156 | No extraction of any number of binaries ends past the deadline |
| PhaseBudget.SkippedIsSuffix | backend/assemblage/dwarf/isolated.py:138-141 | Once one is skipped all that follow are |
| PhaseBudget.OutputInOrder | backend/assemblage/dwarf/isolated.py:157-158 | The output is an in-order subsequence of the input's results |
| KeyParsers.RustPrefixExactly | backend/scripts/backfill_compress.py:74-80 | A printed Rust prefix parses to its own build directory exactly with an unmarked head and underscore-free tail, and is refused otherwise |
| KeyParsers.CPrefixExactly | backend/scripts/backfill_compress.py:81-87 | A printed C prefix without the marker parses to its own directory exactly when compiler and flag hold no underscore |
| KeyParsers.CPrefixWithMarker | backend/scripts/backfill_compress.py:74-80 | With the marker in it, it never does |
| KeyParsers.RustDestNameExactly | backend/scripts/export_corpus.py:91-103 | The export's name of a printed Rust prefix, under the same condition |
| KeyParsers.ParsersAgree | backend/scripts/export_corpus.py:75-103 | The two parsers give one directory for every prefix with the marker |
| KeyParsers.ParsedExactly | backend/scripts/backfill_compress.py:63-87 | Any prefix is parsed exactly as a Rust build, three fields after the first marker, or as an unmarked C build, cut at its last two underscores, or refused |
| KeyParsers.BuildDirInjective | backend/assemblage/storage/layout.py:95-105 | Build directories coincide exactly for the same joined owner and project, sha, flag without leading dashes, backend and mode |
| KeyParsers.DirText | backend/assemblage/storage/layout.py:95-105 | The directory of a build letter by letter, its flag without leading dashes |
| KeyParsers.JoinCollides | backend/assemblage/storage/layout.py:105 | Two splits of one joined name share a directory |
| KeyParsers.RustDirExactly | backend/scripts/export_corpus.py:153-161 | A directory is taken for a Rust build exactly when its backend and mode are known names |
| KeyParsers.GccBuildTakenForRust | backend/scripts/export_corpus.py:158-161 | A migrated gcc build of C is taken for one |
| KeyParsers.DirIsNotPrefix | backend/scripts/backfill_compress.py:96 | The new directory is never the old prefix |
| MigrationKeys.DstCollideExactly | backend/scripts/backfill_compress.py:125-160 | Two objects share a destination exactly when both are binaries of one base name |
| MigrationKeys.DstKeys | backend/assemblage/storage/layout.py:108-125 | Metadata goes to one compressed key, IR keeps its relative key, and any other object goes to its base name, compressed, among the binaries |
| Migration.MigrateObject | backend/scripts/backfill_compress.py:115-183 | One object is uploaded or copied, whatever lands. Below `ir/` it passes exactly when what landed is the object's bytes; any other passes exactly when what landed decompresses to them |
| Migration.HoldsInBytes | backend/scripts/backfill_compress.py:164-180 | An object is recoverable from its destination exactly when its bytes are there below `ir/`, and their compression for any other |
| Migration.HonestRun | backend/scripts/backfill_compress.py:90-221 | A run whose uploads land as compressions and whose copies land as they are, with distinct destinations and enough writes, ends migrated: no original is left, the manifest is there, and each original is the stored bytes for IR and their decompression otherwise |
| Migration.CopyAll | backend/scripts/backfill_compress.py:114-187 | It succeeds exactly when every copy decodes and it lives long enough; the old prefix stays as it is, safety is kept, and the last copy at each destination is verified |
| Migration.Migrate | backend/scripts/backfill_compress.py:90-221 | When it skips; otherwise what it keeps at whichever write it ends, what each destination gives back, exactly when the prefix ends empty and how many objects a death among the deletions leaves |
| Migration.RunAll | backend/scripts/backfill_compress.py:90-221 | After any runs, each cut off anywhere and whatever looks fail: no original is missing unless one of the runs verified every original and the manifest is there. Every original is recoverable while destinations differ, or no look fails and equal destinations mean equal bytes. With no look failing a manifest ends all change, the prefix ends empty exactly when the first run to write the manifest clears all, and every original is verified exactly when equal destinations mean equal bytes |
| Migration.MissingMeansVerified | backend/scripts/backfill_compress.py:99-215 | In every state between runs, failing looks and shared destinations included: an original is missing only if some run before found every original there, had each pass its check and wrote the manifest, and the manifest is there still |
| Migration.CutOffBetweenDeletes | backend/scripts/backfill_compress.py:206-215 | A run that dies between two deletions leaves one original for each write it lacked, and no later run removes any while no look fails |
| Migration.FailedLookClears | backend/scripts/backfill_compress.py:99-106 | What is left is removed exactly by a run whose look at the manifest fails and that clears it |
| Migration.AllVerifiedExactly | backend/scripts/backfill_compress.py:164-187 | With each destination giving back one of its originals, all are verified exactly when originals of one destination hold the same bytes |
| Migration.MigrateShared | backend/scripts/backfill_compress.py:150-215 | A completed deleting run over two originals of one destination removes both, and both can be had back exactly when their bytes are equal |
| Migration.OriginalSurvives | backend/scripts/backfill_compress.py:90-215 | After any number of runs an original is under its old key or decodes from its new one, and if its old key is gone a run before verified every original and the manifest is there |
| Migration.CopyKeepsSafe | backend/scripts/backfill_compress.py:125-160 | Whatever lands at an object's destination while the object is there, safety is kept |
| Migration.DeleteKeepsSafe | backend/scripts/backfill_compress.py:206-215 | Deleting verified objects under a manifest keeps safety |
| Migration.SharedDestination | backend/scripts/backfill_compress.py:152-157 | Of two originals of one destination one comes back, and both exactly when their bytes are equal |
| DeepHistory.PathText | deephistory/deephistory_builder.py:570 | A claim's name is its key, each slash an underscore |
| DeepHistory.PathsEqualExactly | deephistory/deephistory_builder.py:570 | Which keys share a claim |
| DeepHistory.BuiltAtMostOnce | deephistory/deephistory_builder.py:565-575 | Over every interleaving with restarts a claim path is built at most once |
| DeepHistory.FileListsFinished | deephistory/deephistory_builder.py:1013-1021 | The file lists only keys whose build ended that way, and no key twice |
| DeepHistory.SaveKeepsExactly | deephistory/deephistory_builder.py:1013-1021 | In every run a save keeps every listed entry exactly when nobody saved since its re-read and the re-read did not fail on a file that lists something |
| DeepHistory.DroppedEntry | deephistory/deephistory_builder.py:988-1021 | A run from the start, for any two keys of different claims, after which an entry is saved and not listed |
| DeepHistory.LaterSaveDrops | deephistory/deephistory_builder.py:1013-1021 | Of two merges loaded before either save, the later save drops the earlier entry |
| DeepHistory.SavedStaysClaimed | deephistory/deephistory_builder.py:565-575 | A key that was ever saved stays claimed and no replica holds it again |
| DeepHistory.RestartAbandons | deephistory/deephistory_builder.py:565-575 | A replica that restarts with a claim leaves its key claimed and unlisted for good, and unbuilt if it had only claimed it |
| DeepHistory.RunReplica | deephistory/deephistory_builder.py:983-1029 | One replica's pass: tallies add up and the file gains exactly the results of the keys it built |
| DeepHistory.BuildsExactly | deephistory/deephistory_builder.py:983-1001 | A pass builds, in order, exactly the keys that are not listed, whose path is not claimed, and before which every key of that path was listed |
| DeepHistory.ResultsExactly | deephistory/deephistory_builder.py:1013-1021 | Each list gains, in order, exactly the keys that ended that way |
| DatasetStore.InsertChunked | backend/assemblage/dataset/store.py:145-169 | Chunks with fallback leave the table as row-by-row insertion does, for any constraint, chunk size and spurious failure |
| DatasetStore.OnlyRejectedDropped | backend/assemblage/dataset/store.py:157-169 | Stored rows stay, and kept and dropped rows make up what was offered |
| DatasetStore.AcceptedChunk | backend/assemblage/dataset/store.py:147-150 | A chunk that commits whole is what row by row would have stored |
| DatasetStore.BulkFlush | backend/assemblage/dataset/store.py:126-182 | Each of the five tables gains its wanted rows as row by row |
| DatasetBatches.BatchIsClosed | backend/assemblage/dataset/construct.py:371-444 | In one flush function ids are consecutive, every rva and line row refers to a function of it, every function has a range with start < end and a binary |
| DatasetBatches.FlushesAreClosed | backend/assemblage/dataset/construct.py:446-480 | The same for every flush, ids running on from the flushes before |
| DatasetBatches.PiecesAreTheWhole | backend/assemblage/dataset/construct.py:446-480 | The flushes together are one flush of everything: no row dropped or sent twice |
| DatasetBatches.FunctionRowsExactly | backend/assemblage/dataset/construct.py:384-443 | Each function has the next id in line, its name and its binary's id; the rva rows with its id are, in order, its kept ranges; with lines wanted the line rows with its id are, in order and field by field, its numbered lines |
| DatasetBatches.ExtractedIsKept | backend/assemblage/dataset/construct.py:382-396 | A function extracted with ranges is kept with exactly those that are not empty, and is dropped if none is left or it is unnamed or a section |
| DatasetBatches.NumberedExactly | backend/assemblage/dataset/construct.py:426-432 | The lines kept are those with a line number, in order |
| DatasetConstruct.Writer.AddFunction | backend/assemblage/dataset/construct.py:380-444 | A function is skipped, refused for a malformed address, or appended with its rows under the next id |
| DatasetConstruct.Writer.AddBinary | backend/assemblage/dataset/construct.py:245-299 | A strictly greater id within the probing range, and the binary's row and functions unless its move fails |
| DatasetConstruct.Writer.TakeId | backend/assemblage/dataset/construct.py:246-258 | The first free id after the last, or the end of the probing range |
| DatasetConstruct.Writer.Flush | backend/assemblage/dataset/construct.py:448-467 | What accumulated is sent and the accumulators start afresh |
| DatasetConstruct.Writer.Run | backend/assemblage/dataset/construct.py:182-480 | It aborts exactly on a malformed address; otherwise every movable binary is sent once, in order, with all its functions, in flushes of more than 25 binaries but for the last; every flush is closed under its references, ids running on |
| DatasetConstruct.StoreAll | backend/assemblage/dataset/construct.py:446-479 | The flushes stored one after the other leave the tables as trying everything row by row |
| DatasetConstruct.Construct | backend/assemblage/dataset/construct.py:182-480 | From staged folders to tables, new or existing: when it aborts, and that the tables gain, row by row, the rows of every movable binary under ids above all those there; which rows those are is FunctionRowsExactly and ExtractedReachesRows |
| DatasetConstruct.ExtractedReachesRows | backend/assemblage/dataset/construct.py:182-480 | A function of a matching entry of a moved and mapped binary reaches the offered rows: its name, its binary, exactly its non-empty ranges in order, and its numbered lines if wanted |
| DatasetConstruct.RowsComeFromFunctions | backend/assemblage/dataset/construct.py:182-480 | No function row comes from anywhere else |
| DatasetConstruct.FirstIds | backend/assemblage/dataset/construct.py:184-194 | Fixed first ids for a new file, one past the largest for an existing one, none if one of its tables is empty |
| DatasetConstruct.NewIdsAreFresh | backend/assemblage/dataset/construct.py:184-194 | No new binary or function has the id of a row that was there |
| Scraper.RepoBundler.Flush | backend/assemblage/scraper/app.py:107-127 | The cache is cleared exactly after a confirmed publish and becomes one bundle |
| Scraper.RepoBundler.Add | backend/assemblage/scraper/app.py:100-102 | A repository is always cached |
| Scraper.Crawl | backend/assemblage/scraper/app.py:198-221 | How the run ends and after how many repositories; bundles followed by the cache are what was added; with no full cache to begin with every bundle has exactly the size |
| Scraper.CrawlEndExactly | backend/assemblage/scraper/app.py:198-221 | A run goes on turn by turn up to the first that sees shutdown or cannot send a full cache, and ends as that turn says |
| Scraper.PollEndExactly | backend/assemblage/scraper/app.py:217-221 | The wait of a full bundler ends at the first poll that is a request or sees shutdown |
| Scraper.CrawlAll | backend/assemblage/scraper/app.py:153-221 | Conservation over any number of runs with failures, policy changes and restarts |
| GitHubSearch.Walk | backend/assemblage/scraper/github.py:393-407 | The windows asked for, one interval each, going back from the start, ending sooner only where they pass the end |
| GitHubSearch.WindowsCover | backend/assemblage/scraper/github.py:393-407 | They are contiguous, cover every moment, and overshoot the end by less than an interval |
| GitHubSearch.NeverEnds | backend/assemblage/scraper/github.py:395-398 | With an interval of zero or less the walk never reaches the end |
| GitHubSearch.FetchPages | backend/assemblage/scraper/github.py:411-439 | Pages 0, 1, 2 and on, up to the first that holds the running total; never more than eleven requests |
| GitHubSearch.LastPageExactly | backend/assemblage/scraper/github.py:411-439 | The last page is the ceiling of the final total exactly when no page after the first reports a total that the pages before it already hold |
| GitHubSearch.SteadyTotal | backend/assemblage/scraper/github.py:423-427 | With one total reported throughout it is the ceiling |
| GitHubSearch.LateDropOvershoots | backend/assemblage/scraper/github.py:423-427 | A total that drops on page k to what the pages before it hold makes k the last page, past the ceiling |
| GitHubSearch.SleepAndUpdate | backend/assemblage/scraper/github.py:151-163 | The naps add up to the duration, none longer than sixty seconds |

## Left out

- Dispatcher.DispatcherService.DispatchStep: takes the queue's length as its depth; a broker does not count deliveries that are not acknowledged.
- DatasetStore.InsertChunked: a row that the database refuses for a passing reason is not told apart from a rejected one; constraints are checked row by row, not at commit.
- DatasetConstruct.Construct: builds no PDB rows; the flushes are stored after the loops and not in between, which the tables cannot tell.
- PhaseBudget.ExtractEach: time is a real number, floating point is not modelled; the subprocess and its killing are its timeout.
- Extract.GapsExactly: the ratio is the number before it is printed with two decimals.
- Rva.ExtractedRangesReadBack: `int` also reads signs, a leading `0x`, underscores and blanks; only plain digits are modelled.
- Order of rows an unordered SELECT returns: ascending ids.
- Sorted order of the LIKE patterns, and case folding outside ASCII.
- Time of update, time of sending and the other timestamps in messages; the output directory key the encoder adds.
- `count_pending`, `register_scraper`, `update_scraper`, `insert_binary`.
- Consumers' and publishers' backoff times, the supervisor beyond "a crashed service is run again".
- Two prefixes that migrate to one directory: one prefix at a time is modelled, and the manifest's content is arbitrary.
- DIE trees, address resolution and source reading: a compile unit is the functions it yields.
- The temporary file of a progress save, which replicas with one process id would share: each save is one atomic replace.
- The scraper's synchronisation message when the window advances, the content of search results, rate-limit handling.
- License metadata, hashes, file moves and mapped images of the dataset writer: a binary is its name, its taken ids, and whether moving and mapping it works.
- Build commands, settings, migrations of the schema and the user interface.
