# Verified model of the core manager, its control plane and the log viewer

This project models the stateful heart of clash-nyanpasu-service in Dafny and proves what
the service relies on. `dafny verify dfyconfig.toml` checks all of it.

| files | what they model |
|---|---|
| `LineStream`, `LogIndex`, `LogScan` | the bounded index over a growing log file, its posting lists, and filtered paged scans |
| `LogPager`, `LogHistory`, `LogRefresh`, `LogSessions` | serving one page within two byte budgets, reading a file forwards and backwards past the indexed window, following a file, and the actor with leases, grace periods and single-flight refreshes |
| `CoreHost`, `CoreLedger`, `CoreManager` | starting, stopping, applying, switching and recovering cores over one slot, a quarantine, an epoch allocator and per-epoch files |
| `ControlRegistry`, `ControlProtocol` | the idempotency registry, and the executor with its concurrent callers as a state machine |
| `ConfigDiff`, `ConfigPatch`, `ConfigBootstrap`, `ConfigProjection` | comparing documents, choosing between no-op, patch, reload and switch, and starting a core without inbounds |
| `DnsSync`, `CoreService` | the record that goes with the host DNS override, across crashes and calls that were given up, and the transactions that touch core and DNS |
| `LogParser`, `LogSink` | bounded multi-line records from two streams, and the rotating archive under failing file operations |

Objects that the source updates in place are classes here, its loops are loops, and each
method is proved against a specification on values. Everything the manager does not
control (a launch, a stop, a commit, a read, a platform call, a crash) chooses its outcome
freely within the contract its code or documentation gives: a stop that is not
`StopUnconfirmed` proves death, a failed launch leaves nothing alive, a failed replacement
leaves the old document. Ghost fields keep the history that whole-run statements are
about: bytes read, launches attempted, plans installed, lines pushed, records written.

JSON line parsing, header parsing, the controller endpoint of an epoch, the typed decode of
a patch and lossy text decoding are functions or values supplied from outside; the proofs
hold for all of them, except that `SaneParser` asks for timestamps in 64 bits and for a
target that is no longer than the line it is part of. Clock readings are parameters.

Reading notes:

- In `CoreManager`, `Inv` is what holds between transactions: every process that may be
  alive belongs to the slot or to a quarantined epoch whose process is not proven dead, the
  two are disjoint, the slot's document is on disk, every launch found its own document and
  (the graceful bootstrap excepted) nothing alive, installs only move forward or repeat
  the previous one, and every process is named by its epoch's pid record. `Sound(hand)` is
  the same in the middle of a transaction that still has to answer for the epochs in `hand`.
- In `ControlProtocol`, `Next` gives each atomic step of a caller or of the executor;
  `EveryRun` quantifies over all interleavings.
- In `ConfigDiff`, `IsChange` says where a difference lies without computing it; methods and
  classification are tied to it.
- The comments in `config/mihomo.rs` (lines 23-24 and 132-134) present turning the inbounds
  off as what lets a bootstrap run beside the outgoing core. The check before it does not
  guarantee that no inbound is left when `dns.listen` is present but empty; `OverlapExact`
  gives the failing documents by their fields, and `EmptyListenHidesListeners` shows one.
- Paging back through the part of a log file that is no longer indexed can miss a record
  when a line too long for the index lies right after it; `MissesNothing` says exactly when
  nothing is missed. `MissedRecord` gives a file whose only record is in no index over the
  whole of it and on no page of history, so that `MissedRow` shows a viewer nothing.
- A recorded DNS baseline can be lost when startup cannot undo a left override: applying the
  next one loses it for some answers of the environment exactly when memory does not hold
  it (`LossPossible`), and `Converge` says for which. `BaselineLost` shows a history.
- The comment at `manager/dns_sync.rs` lines 151-152 keeps the record so that an uncertain
  override can be undone. An apply that timed out may take effect after a restore has been
  confirmed and the record cleared; `StrayExact` says when an override is then in place
  without a record, and `StrayPossible` that only a timeout makes it possible.
- The comment at `manager/quarantine.rs` lines 86-87 restores DNS after a recovery because
  nothing can be using it. A graceful switch whose bootstrap cannot be stopped leaves the old
  core running beside the quarantined one, and recovery then announces a stop and restores
  DNS under it; `Service.Recover` says that the announcement is right exactly when the slot
  is empty.

## Model

| member | source | states |
|---|---|---|
| `Prelude.CutIsLongest` | crates/nyanpasu-core-manager/src/log.rs:101-109 | the cut backs off no further than it must: no longer prefix within the limit ends at a character boundary |
| `LineStream.LinesExact` | crates/nyanpasu-logging/src/index.rs:144-173 | the lines kept are exactly the stretches of the stream that end in a newline, contain no other, are not a leading fragment and fit `MAX_LINE` |
| `LineStream.CompletedExact` | crates/nyanpasu-logging/src/index.rs:150-168 | one byte completes at most one line, and exactly such a stretch |
| `LineStream.LinesOrdered` | crates/nyanpasu-logging/src/index.rs:144-173 | lines are disjoint, in file order, and end at or before the last newline |
| `LineStream.OverrunMeaning` | crates/nyanpasu-logging/src/index.rs:160-167 | the count of overruns is positive exactly when some line, finished or not, exceeds `MAX_LINE` |
| `LineStream.ExcessMeaning` | crates/nyanpasu-logging/src/index.rs:217-225 | a line is given up by an eviction exactly when it starts below the window or is older than the newest `MAX_ENTRIES` |
| `LineStream.ExcessGrows` | crates/nyanpasu-logging/src/index.rs:217-225 | what one eviction gives up, every later one would give up too |
| `LineStream.ExcessResumes` | crates/nyanpasu-logging/src/index.rs:217-225 | evicting early and evicting again later gives up the same lines as evicting once |
| `LogIndex.Index.constructor` | crates/nyanpasu-logging/src/index.rs:108-124 | an empty index at `start` describes the empty stream; a nonzero start skips the leading fragment |
| `LogIndex.Index.Append` | crates/nyanpasu-logging/src/index.rs:144-173 | after an accepted batch the entries describe, one for one, the retained lines of everything read; postings, pool, byte count and the counters agree with them; while the distinct short targets fit the pool together, `truncated` is the number of lines so far that are too long or have a target that is; the pool holds targets of the stream only; `partial` is set exactly when something before the end is missing; a gap or an oversized batch is refused with every field untouched |
| `LogIndex.Index.FeedNewline` | crates/nyanpasu-logging/src/index.rs:150-159 | a newline commits the pending line unless it is being skipped |
| `LogIndex.Index.EndLine` | crates/nyanpasu-logging/src/index.rs:151-155 | the pending line becomes the next record |
| `LogIndex.Index.EndSkipped` | crates/nyanpasu-logging/src/index.rs:151-157 | a leading fragment or an overlong line becomes none |
| `LogIndex.Index.Commit` | crates/nyanpasu-logging/src/index.rs:156-159 | what follows starts a new line |
| `LogIndex.Index.Push` | crates/nyanpasu-logging/src/index.rs:197-214 | the entry is interned, filed and counted |
| `LogIndex.Index.FeedOther` | crates/nyanpasu-logging/src/index.rs:160-169 | any other byte extends the pending line, or starts skipping it past `MAX_LINE` |
| `LogIndex.Index.Insert` | crates/nyanpasu-logging/src/index.rs:175-215 | the entry has the line's offsets, level and timestamp; its target is interned, or emptied and flagged when too long, or when it does not fit the pool even after an eviction |
| `LogIndex.Index.Evict` | crates/nyanpasu-logging/src/index.rs:217-246 | exactly the outdated entries go, every other entry keeps its fields and target text across the rebuilt pool, and the pool does not grow |
| `LogIndex.Index.PopOutdated` | crates/nyanpasu-logging/src/index.rs:218-225 | pops exactly the entries outside the two bounds |
| `LogIndex.Index.Rebuild` | crates/nyanpasu-logging/src/index.rs:227-245 | re-interning keeps every record and its target text, and makes postings and byte count exact for the new pool |
| `LogIndex.FileKeepsIndexed` | crates/nyanpasu-logging/src/index.rs:204-214 | filing an entry keeps each target and level posting equal to the ordered starts of the matching entries |
| `LogIndex.InternKeepsIndexed` | crates/nyanpasu-logging/src/index.rs:197-200 | interning keeps keys distinct and the byte count equal to the pooled text length |
| `LogIndex.SubpoolIsSmaller` | crates/nyanpasu-logging/src/index.rs:232-244 | a rebuilt pool drawn from the old one needs no more bytes |
| `LogIndex.NotRoomy` | crates/nyanpasu-logging/src/index.rs:189-196 | a pool without room for the next target shows that the distinct short targets of the stream do not fit together |
| `LogIndex.OnlyLongCut` | crates/nyanpasu-logging/src/index.rs:186-196 | while they do fit, exactly the targets over the length limit are cut, and every other entry shows its own line's target |
| `LogIndex.BatchingIndependent` | crates/nyanpasu-logging/src/index.rs:144-173 | two indexes that read the same bytes in different batches hold the same offsets, levels and timestamps and agree on `committed`, `malformed` and `partial`; while the distinct short targets fit the pool together they show the same targets and flags and agree on `truncated` too |
| `LogIndex.Replay` | crates/nyanpasu-logging/src/index.rs:144-173 | any run of accepted batches ends in an index that describes their concatenation |
| `LogScan.IndexIsSearchable` | crates/nyanpasu-logging/src/index.rs:175-246 | every valid index has ordered entries and exact postings, so binary search resolves them |
| `LogScan.PostingResolvable` | crates/nyanpasu-logging/src/index.rs:292-296 | every posting is the start of a retained entry |
| `LogScan.BinarySearch` | crates/nyanpasu-logging/src/index.rs:292-296 | finds the entry that starts at a key |
| `LogScan.PartitionPoint` | crates/nyanpasu-logging/src/index.rs:286-298 | splits an ordered list of starts at a boundary |
| `LogScan.Resolve` | crates/nyanpasu-logging/src/index.rs:286-296 | the positions of the postings on one side of the boundary, in scan order |
| `LogScan.Candidates` | crates/nyanpasu-logging/src/index.rs:276-304 | whichever posting list is chosen, or none, the candidates cover every matching entry on the requested side, in scan order |
| `LogScan.ChosenIffMatches` | crates/nyanpasu-logging/src/index.rs:311-328 | as the pool holds each text once, comparing symbols is comparing texts |
| `LogScan.Walk` | crates/nyanpasu-logging/src/index.rs:305-331 | the candidates looked at yield exactly the matches among the entries passed, within page and scan limits; the target test compares symbols |
| `LogScan.Scan` | crates/nyanpasu-logging/src/index.rs:249-343 | the page and what lies beyond its boundary are together all matches on the requested side, each once and in file order; `more` means the boundary strictly moved and entries are left to look at, and no `more` means nothing is left |
| `LogScan.Follow` | crates/nyanpasu-logging/src/index.rs:249-343 | following `boundary` in either direction until `more` is false yields exactly the matching retained entries on that side, each once, in file order |
| `LogPager.JsonAtMostSixfold` | crates/nyanpasu-logging/src/session.rs:591-606 | JSON escaping expands a text at most sixfold |
| `LogPager.OneRowFits` | crates/nyanpasu-logging/src/session.rs:541-611 | whatever a record holds, its row fits an empty response, so a page with `more` always advances |
| `LogPager.PageFits` | crates/nyanpasu-logging/src/session.rs:477-490 | the fields around the rows fit the headroom reserved for them |
| `LogPager.FillRows` | crates/nyanpasu-logging/src/session.rs:544-622 | the rows are those of a prefix of the scan that pass the text filter, the cursor names the last record consumed, and both byte budgets hold |
| `LogPager.ServedForward` | crates/nyanpasu-logging/src/session.rs:535-622 | rows and cursor of a forward page split the matching records into those shown and those still to come |
| `LogPager.ServedBackward` | crates/nyanpasu-logging/src/session.rs:535-625 | the same for a backward page, rows being turned back into file order |
| `LogPager.StoppedBackward` | crates/nyanpasu-logging/src/session.rs:544-613 | a backward page that runs out of budget stops right before an entry with others before it, so the walk goes on and moves |
| `LogPager.EndsBackward` | crates/nyanpasu-logging/src/session.rs:535-537 | a backward page read to its end continues at the scan's boundary or at the oldest offset, and only offset 0 ends the walk |
| `LogPager.PageRows` | crates/nyanpasu-logging/src/session.rs:535-626 | scan, read, filter and cut combined serve a correct page of the view |
| `LogPager.History` | crates/nyanpasu-logging/src/session.rs:509-534 | the temporary index before an older cursor describes the retained lines of the batch that ends there, cuts only targets over the length limit, and names its oldest offset |
| `LogPager.VocabularyFits` | crates/nyanpasu-logging/src/session.rs:514-523 | the distinct targets of a batch need no more bytes than the batch, so a temporary index never runs out of room for them |
| `LogPager.ServePage` | crates/nyanpasu-logging/src/session.rs:473-627 | a request is refused exactly when its cursor does not parse, is of another generation, is past the last complete record or, going forwards, before the window; a served page fits the response budget, splits the matching records of the view into those shown and those left, moves, and reports the index's own counters; the view is the live index, or for a request older than the window exactly the records of the batch before the cursor |
| `LogPager.ReadForward` | crates/nyanpasu-logging/src/session.rs:494-627 | on an unchanging, fully indexed file, following `page.cursor` forwards returns every record matching filter and text exactly once, in file order |
| `LogPager.IndexIsReadable` | crates/nyanpasu-logging/src/session.rs:554-568 | what an index over a file holds can be read back at its offsets |
| `LogHistory.LinesInside` | crates/nyanpasu-logging/src/session.rs:509-523 | an index started in the middle of the file finds the lines of the whole file that start after that point |
| `LogHistory.HistoryStep` | crates/nyanpasu-logging/src/session.rs:509-537 | one page of history shows the next lines that a viewer following the cursor is to see, and moves |
| `LogHistory.MissesNothing` | crates/nyanpasu-logging/src/session.rs:509-537 | following the cursor back shows every line exactly when none is straddled: no step of whole batches down from the next line lands inside it |
| `LogHistory.MissedRecord` | crates/nyanpasu-logging/src/session.rs:509-537 | a file one byte longer than a batch and the window together, whose first record no index over it holds and no page of history reaches |
| `LogHistory.MissedRow` | crates/nyanpasu-logging/src/session.rs:494-627 | a viewer of that file who asks for everything is shown nothing, while the file holds one record |
| `LogHistory.NoOverrunsIsClear` | crates/nyanpasu-logging/src/session.rs:509-537 | when every line fits `MAX_LINE`, none is straddled |
| `LogHistory.RowsAgree` | crates/nyanpasu-logging/src/session.rs:554-622 | the rows of entries are a function of their lines and the request, whichever index holds them |
| `LogHistory.HistoryPage` | crates/nyanpasu-logging/src/session.rs:509-627 | the rows of a page of history are those of the lines it shows |
| `LogHistory.SeesEveryRecord` | crates/nyanpasu-logging/src/session.rs:494-537 | going back past the live window reaches every record of the file exactly when no record before the window is straddled |
| `LogHistory.ReadBackward` | crates/nyanpasu-logging/src/session.rs:494-627 | following `page.cursor` backwards from the end terminates at offset 0 and returns the rows of the live window and before them those of the lines shown, each once, in file order; with nothing straddled and room for the targets, the rows of every matching record of the file |
| `LogRefresh.Work.Refresh` | crates/nyanpasu-logging/src/session.rs:455-490 | one refresh indexes exactly the next batch, or restarts at the window of a replaced file under a new generation; `building` tells whether bytes are left; the index covers the file exactly if the file was seen to be replaced or still holds everything indexed before |
| `LogRefresh.Work.CatchUp` | crates/nyanpasu-logging/src/session.rs:455-493 | refreshing while the file stays as it is ends with all of it read, and covered under the same condition |
| `LogRefresh.GrownAgrees` | crates/nyanpasu-logging/src/session.rs:456-462 | a file that only grew still holds everything indexed before |
| `LogRefresh.RewriteUnnoticed` | crates/nyanpasu-logging/src/session.rs:456-462 | a file rewritten in place behind the same identity, name, length and first bytes keeps the old index |
| `LogSessions.ReapKeepsInv` | crates/nyanpasu-logging/src/session.rs:172-195 | reaping keeps the limits, keeps every session's slot, one session per owner and request and single flight, and marks slots idle exactly when unused |
| `LogSessions.ReapComposes` | crates/nyanpasu-logging/src/session.rs:172-195 | reaping at an earlier time first changes nothing: only the last reading of the clock matters |
| `LogSessions.LogsActor.LatestExpiries` | crates/nyanpasu-logging/src/session.rs:174-185 | per file, the latest expiry among the sessions that ran out |
| `LogSessions.LogsActor.Reap` | crates/nyanpasu-logging/src/session.rs:172-195 | expired sessions go, idle marks take the latest expiry, and slots go after the grace period unless a refresh runs |
| `LogSessions.ReapIdlesUntilDeadline` | crates/nyanpasu-logging/src/session.rs:196-217 | the scheduled time is exact: reaping changes nothing before it and something from then on |
| `LogSessions.LogsActor.Schedule` | crates/nyanpasu-logging/src/session.rs:196-217 | picks the earliest lease end or grace end |
| `LogSessions.FewFlights` | crates/nyanpasu-logging/src/session.rs:218-245 | at most one refresh per file is running at any time, and no more than there may be slots |
| `LogSessions.LogsActor.Launch` | crates/nyanpasu-logging/src/session.rs:218-245 | a refresh starts exactly when the slot's work is there, and takes it; none is ever running beside another for the same file |
| `LogSessions.LogsActor.Open` | crates/nyanpasu-logging/src/session.rs:270-331 | a request is refused exactly when the caller's session under it is for another file, and limited exactly when there is none and 16 sessions or 4 slots are taken; otherwise the same session is renewed, or a new one starts with its file refreshing |
| `LogSessions.LogsActor.Query` | crates/nyanpasu-logging/src/session.rs:332-344 | only the owner of a live session renews it and refreshes its file |
| `LogSessions.LogsActor.Close` | crates/nyanpasu-logging/src/session.rs:345-353 | only the owner, or nobody, ends a session, and the slot is reaped as if it had just been left |
| `LogSessions.LogsActor.Done` | crates/nyanpasu-logging/src/session.rs:354-400 | the refresh that ran is over and its work returns to its slot, is relaunched while the file is still being indexed and used, or is rebuilt if lost |
| `LogSessions.LogsActor.Tick` | crates/nyanpasu-logging/src/session.rs:401-408 | a tick only reaps |
| `CoreHost.Host.Launch` | crates/nyanpasu-core-manager/src/runtime/mod.rs:66-83 | a failed launch leaves nothing alive; a successful one leaves one process and its pid record |
| `CoreHost.Host.Stop` | crates/nyanpasu-core-manager/src/runtime/mod.rs:57-63 | only an unconfirmed stop leaves the process possibly alive |
| `CoreHost.Host.Reap` | crates/nyanpasu-core-manager/src/manager/quarantine.rs:26-57 | death is proven only for the process the epoch's record names, and a missing record is told apart from a failure |
| `CoreHost.Host.CommitNew` | crates/nyanpasu-core-manager/src/config/runtime_store.rs:210-222 | installs a document where none is; a failure may leave it installed |
| `CoreHost.Host.CommitReplace` | crates/nyanpasu-core-manager/src/config/runtime_store.rs:236-268 | replaces an existing document whole or not at all |
| `CoreHost.Host.Backup` | crates/nyanpasu-core-manager/src/config/runtime_store.rs:270-290 | copies the current document under a name that must be free; a failure may leave the copy |
| `CoreHost.Host.Restore` | crates/nyanpasu-core-manager/src/config/runtime_store.rs:292-299 | puts exactly the backed-up bytes back, or changes nothing |
| `CoreHost.Host.RemoveBackup` | crates/nyanpasu-core-manager/src/config/runtime_store.rs:301-305 | removes one backup and touches nothing else |
| `CoreHost.Host.Cleanup` | crates/nyanpasu-core-manager/src/config/runtime_store.rs:307-342 | removes artifacts of one epoch only, and all of them on success |
| `CoreLedger.InstallsAscend` | crates/nyanpasu-core-manager/src/manager/mod.rs:158-177 | over a manager's lifetime installed revisions never go back: two installs are in order, or carry the same revision and document |
| `CoreLedger.RevisionNamesDocument` | crates/nyanpasu-core-manager/src/manager/apply.rs:162-184 | installed plans with the same epoch and generation have the same document |
| `CoreLedger.InstallFound` | crates/nyanpasu-core-manager/src/manager/mod.rs:738-751 | every plan ever installed found exactly its own document on disk |
| `CoreLedger.LatchKeeps` | crates/nyanpasu-core-manager/src/manager/quarantine.rs:112-126 | handing an uncertain epoch to the quarantine keeps every live process accounted for |
| `CoreLedger.DeathKeeps` | crates/nyanpasu-core-manager/src/manager/mod.rs:757-773 | a proven death releases the one process its epoch has |
| `CoreLedger.LaunchKeeps` | crates/nyanpasu-core-manager/src/manager/mod.rs:719-730 | a launch of a free epoch keeps one process per epoch, all accounted for |
| `CoreLedger.NothingAlive` | crates/nyanpasu-core-manager/src/manager/mod.rs:719-730 | with an empty slot and no quarantine nothing can be alive, which is when a non-bootstrap launch happens |
| `CoreLedger.MarkKeeps` | crates/nyanpasu-core-manager/src/manager/quarantine.rs:26-42 | reaping by pid record proves the death of every process of that epoch and of no other |
| `CoreLedger.ReleaseKeeps` | crates/nyanpasu-core-manager/src/manager/quarantine.rs:60-63 | an epoch leaves the quarantine only with no process of it possibly alive |
| `CoreManager.Manager.Sweep` | crates/nyanpasu-core-manager/src/manager/quarantine.rs:135-156 | only a reap or a cleanup that fails stops the sweep; a successful one ends exactly the processes that pid records named and leaves no artifact, and numbering starts past every artifact found |
| `CoreManager.Manager.Build` | crates/nyanpasu-core-manager/src/manager/mod.rs:344-390 | a new manager starts with an empty slot, no artifact and fresh epoch numbers; it starts sound exactly when every process an earlier manager left was named by a pid record |
| `CoreManager.Manager.Succeed` | crates/nyanpasu-core-manager/src/manager/mod.rs:344-390 | a manager that dies between any two steps of any transaction leaves only recorded processes, so the next one starts with nothing alive |
| `CoreManager.Manager.Allocate` | crates/nyanpasu-core-manager/src/manager/mod.rs:164-177 | a fresh epoch is larger than every epoch in use, installed before or named by a file |
| `CoreManager.Manager.Retire` | crates/nyanpasu-core-manager/src/manager/mod.rs:757-773 | empties the slot; a process not proven dead stays the transaction's to answer for |
| `CoreManager.Manager.Record` | crates/nyanpasu-core-manager/src/manager/quarantine.rs:112-126 | an epoch is quarantined once |
| `CoreManager.Manager.Latch` | crates/nyanpasu-core-manager/src/manager/quarantine.rs:8-13 | hands an epoch in doubt to the quarantine |
| `CoreManager.Manager.Launch` | crates/nyanpasu-core-manager/src/manager/mod.rs:719-730 | every launch finds its planned document on disk, and finds another process possibly alive only as a bootstrap beside the slot, which then opens no inbound unless an empty `dns.listen` hid one |
| `CoreManager.Manager.SpawnReplacement` | crates/nyanpasu-core-manager/src/manager/switching.rs:479-496 | a process that is not ready is stopped; any stop error counts as possibly alive |
| `CoreManager.Manager.Install` | crates/nyanpasu-core-manager/src/manager/mod.rs:738-751 | the slot takes a running process whose document is on disk, with a newer revision or a rollback to the last one |
| `CoreManager.Manager.Cleanup` | crates/nyanpasu-core-manager/src/manager/mod.rs:599-603 | cleaning up an epoch leaves the documents of all others alone |
| `CoreManager.Manager.PrepareLaunch` | crates/nyanpasu-core-manager/src/manager/switching.rs:352-410 | a prepared plan has generation 1 and its document on disk; a failure touches no other epoch |
| `CoreManager.Manager.DiscardStale` | crates/nyanpasu-core-manager/src/manager/mod.rs:778-790 | clears the slot and removes all traces of its epoch, or quarantines it exactly when its stop was not confirmed |
| `CoreManager.Manager.StartPrepared` | crates/nyanpasu-core-manager/src/manager/mod.rs:467-504 | runs the plan, or leaves the slot empty with the epoch quarantined exactly when a stop was not confirmed |
| `CoreManager.Manager.StartLocked` | crates/nyanpasu-core-manager/src/manager/mod.rs:447-465 | a start runs the rendered document under the next epoch or leaves the slot empty |
| `CoreManager.Manager.Start` | crates/nyanpasu-core-manager/src/manager/mod.rs:433-445 | refused with nothing changed while quarantined or running, otherwise as above after clearing every trace of a terminal core |
| `CoreManager.Manager.Stop` | crates/nyanpasu-core-manager/src/manager/mod.rs:510-570 | empties the slot even while others are quarantined; success means no process and no artifact of the epoch is left |
| `CoreManager.Manager.Shutdown` | crates/nyanpasu-core-manager/src/manager/mod.rs:671-717 | like stop, with an empty slot accepted |
| `CoreManager.Manager.Replan` | crates/nyanpasu-core-manager/src/manager/apply.rs:105-125 | a patched or reloaded process carries the next generation, whose document is on disk |
| `CoreManager.Manager.CommitApply` | crates/nyanpasu-core-manager/src/manager/apply.rs:73-96 | either the desired document is on disk with the current bytes in the backup, or everything still matches the slot |
| `CoreManager.Manager.RollBack` | crates/nyanpasu-core-manager/src/manager/apply.rs:344-378 | the old plan is relaunched in front of its own bytes, or the slot stays empty |
| `CoreManager.Manager.RestartWithCompensation` | crates/nyanpasu-core-manager/src/manager/apply.rs:274-382 | ends with the desired plan, with exactly the old plan, or with an empty slot; quarantined exactly when a stop was not confirmed |
| `CoreManager.Manager.SwitchWithCompensation` | crates/nyanpasu-core-manager/src/manager/apply.rs:384-482 | ends with the new epoch's plan, with exactly the old plan, with an empty slot, or refused with nothing launched |
| `CoreManager.Manager.SwitchOver` | crates/nyanpasu-core-manager/src/manager/apply.rs:408-481 | whichever of the two plans runs in the end, it runs in front of its own document |
| `CoreManager.Manager.AbandonSwitch` | crates/nyanpasu-core-manager/src/manager/apply.rs:394-406 | an unconfirmed stop of the old epoch is quarantined after the prepared one is dropped |
| `CoreManager.Manager.PrepareApply` | crates/nyanpasu-core-manager/src/manager/apply.rs:136-185 | the candidate keeps the epoch and takes the next generation |
| `CoreManager.Manager.ApplyLocked` | crates/nyanpasu-core-manager/src/manager/apply.rs:31-134 | each outcome fixes what is in the slot and is of the kind that the classification of the running and the rendered document calls for: nothing done only if they are equal, a patch only if it leads from one to the other; a revision conflict or a core that is not running changes nothing; a failure leaves the slot as it was with nothing launched, or empty |
| `CoreManager.Manager.ClassifyPlans` | crates/nyanpasu-core-manager/src/manager/apply.rs:55-58 | compares source and effective documents and process specifications of the two plans |
| `CoreManager.Manager.Perform` | crates/nyanpasu-core-manager/src/manager/apply.rs:59-134 | carries out the change that was called for |
| `CoreManager.Manager.AdoptSpec` | crates/nyanpasu-core-manager/src/manager/apply.rs:59-67 | an unchanged configuration only replaces the retained specification |
| `CoreManager.Manager.ApplyInPlace` | crates/nyanpasu-core-manager/src/manager/apply.rs:73-134 | patched and reloaded keep the process; otherwise restart or roll back |
| `CoreManager.Manager.ApplyConfig` | crates/nyanpasu-core-manager/src/manager/apply.rs:19-27 | rejected with nothing changed while any epoch is quarantined |
| `CoreManager.Manager.Reconcile` | crates/nyanpasu-core-manager/src/manager/reconcile.rs:32-96 | conflicts exactly when the expected revision is not the one in effect, and then changes nothing; otherwise applies or starts |
| `CoreManager.Manager.HardSwitch` | crates/nyanpasu-core-manager/src/manager/switching.rs:104-151 | the old core is stopped and cleaned before the new one starts; a refused preparation leaves it running |
| `CoreManager.Manager.PrepareGraceful` | crates/nyanpasu-core-manager/src/manager/switching.rs:412-477 | the document without inbounds is on disk while the plan carries the full one |
| `CoreManager.Manager.RenderBoth` | crates/nyanpasu-core-manager/src/manager/switching.rs:420-442 | the document without inbounds opens none, unless an empty `dns.listen` hid one, and the restoration leads back to the full one |
| `CoreManager.Manager.Restoration` | crates/nyanpasu-core-manager/src/manager/switching.rs:442-442 | only a patch that the typed decode refuses stands in the way back |
| `CoreManager.Manager.LaunchBootstrap` | crates/nyanpasu-core-manager/src/manager/switching.rs:186-213 | the bootstrap is the only launch beside a live process, and a rejected one leaves the old core as it was |
| `CoreManager.Manager.GracefulSwitch` | crates/nyanpasu-core-manager/src/manager/switching.rs:153-340 | ends with the new plan in front of its full document, with the old core untouched, or with an empty slot; quarantined exactly when some stop was not confirmed |
| `CoreManager.Manager.TakeOver` | crates/nyanpasu-core-manager/src/manager/switching.rs:215-340 | what follows once the bootstrap is up: never both cores, never one in front of another's document |
| `CoreManager.Manager.AbandonBoth` | crates/nyanpasu-core-manager/src/manager/switching.rs:217-247 | when neither stop is confirmed both epochs are quarantined |
| `CoreManager.Manager.HandOver` | crates/nyanpasu-core-manager/src/manager/switching.rs:249-340 | only a core whose full document is on disk enters the slot |
| `CoreManager.Manager.DropBootstrap` | crates/nyanpasu-core-manager/src/manager/switching.rs:249-270 | a bootstrap whose document cannot be replaced is stopped and cleaned, or quarantined |
| `CoreManager.Manager.ReplaceBootstrap` | crates/nyanpasu-core-manager/src/manager/switching.rs:314-339 | a fresh process of the same epoch takes over from one that cannot be patched |
| `CoreManager.Manager.Settle` | crates/nyanpasu-core-manager/src/manager/switching.rs:287-300 | the new plan is installed before the old epoch is cleaned up |
| `CoreManager.Manager.SwitchLocked` | crates/nyanpasu-core-manager/src/manager/switching.rs:55-102 | starts when nothing runs; overlaps only with a local controller, no HTTP controller on either side and an overlap check that passes; always ends with the rendered document, the old core or an empty slot |
| `CoreManager.Manager.Switch` | crates/nyanpasu-core-manager/src/manager/switching.rs:49-53 | the same behind the quarantine gate; success means that no process and no artifact of the old epoch is left |
| `CoreManager.Manager.Restart` | crates/nyanpasu-core-manager/src/manager/switching.rs:42-47 | switches to the retained specification, if there is one |
| `CoreManager.Manager.Recover` | crates/nyanpasu-core-manager/src/manager/quarantine.rs:18-83 | succeeds exactly when the quarantine is empty afterwards; every epoch that left has no process and no artifact; the slot is untouched (`CoreService.Service.Recover` adds the announcement and DNS) |
| `CoreManager.Manager.RecoverEpoch` | crates/nyanpasu-core-manager/src/manager/quarantine.rs:25-69 | one entry leaves only after its process is proven dead and its artifacts are gone |
| `ControlRegistry.EvictedOk` | crates/nyanpasu-core-manager/src/control/executor.rs:112-123 | eviction drops finished operations only and stops with room or with nothing finished left |
| `ControlRegistry.EvictsOldest` | crates/nyanpasu-core-manager/src/control/executor.rs:113-122 | no finished operation is evicted while an older finished one stays |
| `ControlRegistry.ResubmitLeavesRegistry` | crates/nyanpasu-core-manager/src/control/executor.rs:94-107 | a registered id is found again, or conflicts on another digest; nothing is registered, evicted or numbered |
| `ControlRegistry.AdmitKeepsOk` | crates/nyanpasu-core-manager/src/control/executor.rs:87-158 | admission keeps every id listed once, in sequence order |
| `ControlRegistry.Registry.Admit` | crates/nyanpasu-core-manager/src/control/executor.rs:87-158 | registration and enqueue together: existing, conflict, registered under the next sequence, or taken out again when the queue refuses |
| `ControlRegistry.Registry.MakeRoom` | crates/nyanpasu-core-manager/src/control/executor.rs:112-123 | the loop evicts exactly what the specification evicts |
| `ControlRegistry.Registry.Set` | crates/nyanpasu-core-manager/src/control/executor.rs:160-171 | an evicted operation is left alone, any other gets the state |
| `ControlRegistry.LiveCapacity` | crates/nyanpasu-core-manager/src/control/mod.rs:602-604 | the bound holds every waiting operation and the one running |
| `ControlProtocol.AdmitStep` | crates/nyanpasu-core-manager/src/control/executor.rs:87-158 | with a place on the queue free, evicting finished operations always makes room, so the registry stays within its bound and each unfinished operation is queued or in hand exactly once |
| `ControlProtocol.TakeStep` | crates/nyanpasu-core-manager/src/control/executor.rs:212-213 | dequeuing follows the sequence order |
| `ControlProtocol.SetStep` | crates/nyanpasu-core-manager/src/control/executor.rs:160-171 | only the operation in hand changes state |
| `ControlProtocol.DecideHistory` | crates/nyanpasu-core-manager/src/control/executor.rs:217-236 | what is in hand is refused or started once, after everything decided before |
| `ControlProtocol.StartedSet` | crates/nyanpasu-core-manager/src/control/executor.rs:160-171 | whatever runs or has succeeded was started, except a shutdown settled by a clean end |
| `ControlProtocol.CallerStep` | crates/nyanpasu-core-manager/src/control/mod.rs:402-492 | submits, the latch, reserved places, shutdown callers and those dropped while waiting keep the invariant in any interleaving |
| `ControlProtocol.DequeueStep` | crates/nyanpasu-core-manager/src/control/executor.rs:212-231 | the look at the latch decides between refusing and starting |
| `ControlProtocol.ExecuteStep` | crates/nyanpasu-core-manager/src/control/executor.rs:232-273 | running, finishing and panicking keep the invariant |
| `ControlProtocol.EndStep` | crates/nyanpasu-core-manager/src/control/executor.rs:275-310 | closing and draining keep it |
| `ControlProtocol.StepKeepsInv` | crates/nyanpasu-core-manager/src/control/executor.rs:208-310 | every step of every caller and of the executor keeps the invariant |
| `ControlProtocol.RunKeepsInv` | crates/nyanpasu-core-manager/src/control/executor.rs:208-310 | so does every run |
| `ControlProtocol.StepMoves` | crates/nyanpasu-core-manager/src/control/executor.rs:208-310 | one step only moves states onward and drops finished operations only |
| `ControlProtocol.RunMoves` | crates/nyanpasu-core-manager/src/control/executor.rs:208-310 | over any run an operation goes from queued to running to finished, or straight to finished, and a new registration has a new sequence number |
| `ControlProtocol.ExitIsFinal` | crates/nyanpasu-core-manager/src/control/executor.rs:293-310 | once the executor has returned everything registered is finished and nothing is admitted |
| `ControlProtocol.NothingAfterExit` | crates/nyanpasu-core-manager/src/control/executor.rs:293-310 | whatever callers do afterwards |
| `ControlProtocol.EveryRun` | crates/nyanpasu-core-manager/src/control/executor.rs:208-310 | from the start, in every run: dequeue order is sequence order; each operation is refused or started at most once, in that order; what runs or has succeeded was started, unless a clean end settled a shutdown; after a refusal only a shutdown starts; the registry stays within its bound; unfinished operations are exactly the queue and the one in hand; an exit leaves nothing unfinished; a clean one means that a shutdown ran or nobody was left |
| `ControlProtocol.ResubmitEnqueuesNothing` | crates/nyanpasu-core-manager/src/control/mod.rs:424-438 | resubmitting a registered id changes neither registry nor queue |
| `ControlProtocol.FoundUntilFinished` | crates/nyanpasu-core-manager/src/control/executor.rs:87-107 | over any run, until an operation finishes every resubmission under its id finds it: the same digest gets its sequence number, another one conflicts, and nothing is registered, evicted or enqueued |
| `ConfigDiff.NoChangeIffEqual` | crates/nyanpasu-core-manager/src/config/diff.rs:27-68 | the difference is empty exactly when the two values are equal |
| `ConfigDiff.PrefixFree` | crates/nyanpasu-core-manager/src/config/diff.rs:27-68 | no change lies below another |
| `ConfigDiff.EqualBelow` | crates/nyanpasu-core-manager/src/config/diff.rs:27-68 | away from the changes the two values agree |
| `ConfigDiff.DiffValue` | crates/nyanpasu-core-manager/src/config/diff.rs:27-68 | the recursion reports every change once, in the order of the keys, with the desired value at its path, and nothing else |
| `ConfigDiff.Diff` | crates/nyanpasu-core-manager/src/config/diff.rs:16-25 | the same for whole documents |
| `ConfigDiff.OrderDetermines` | crates/nyanpasu-core-manager/src/config/diff.rs:41-50 | so the list is determined by the two documents |
| `ConfigDiff.WriteSettles` | crates/nyanpasu-core-manager/src/config/diff.rs:27-68 | writing the desired value at one change settles that change and no other |
| `ConfigDiff.ApplyRebuilds` | crates/nyanpasu-core-manager/src/config/diff.rs:16-68 | a difference without deletions, applied in any reported order, rebuilds the desired value |
| `ConfigDiff.DeletedLooksEmptied` | crates/nyanpasu-core-manager/src/config/diff.rs:36-63 | a deleted mapping and an emptied one leave the same difference |
| `ConfigProjection.CollectLeaves` | crates/nyanpasu-core-manager/src/config/diff.rs:70-88 | collects exactly the leaves of a document |
| `ConfigProjection.LeavesDecide` | crates/nyanpasu-core-manager/src/config/mihomo.rs:178-185 | agreement at every leaf is containment of the patch, and nothing less |
| `ConfigProjection.Verify` | crates/nyanpasu-core-manager/src/config/mihomo.rs:178-185 | accepts exactly the configurations that contain the patch |
| `ConfigPatch.FilterMapping` | crates/nyanpasu-core-manager/src/config/mihomo.rs:354-368 | keeps exactly the allowed fields of a mapping |
| `ConfigPatch.BuildPatch` | crates/nyanpasu-core-manager/src/config/mihomo.rs:311-352 | assembles the desired value of every changed root, cut down for the nested ones, or switches when one is missing, `enable` is not a flag or the decode refuses |
| `ConfigPatch.ClassifyDocuments` | crates/nyanpasu-core-manager/src/config/mihomo.rs:265-296 | computes the classification stated over the changes themselves |
| `ConfigPatch.NoopIffEqual` | crates/nyanpasu-core-manager/src/config/mihomo.rs:265-272 | nothing to do exactly when the documents are equal |
| `ConfigPatch.PatchSound` | crates/nyanpasu-core-manager/src/config/mihomo.rs:274-328 | overlaying the assembled patch on the current document, whole roots and the nested ones field by field, gives exactly the desired document |
| `ConfigPatch.PatchRebuilds` | crates/nyanpasu-core-manager/src/config/mihomo.rs:265-352 | so does every change classified as a patch |
| `ConfigPatch.CanAssemble` | crates/nyanpasu-core-manager/src/config/mihomo.rs:311-328 | a patchable change never lacks a root or the mapping of a nested one |
| `ConfigPatch.ReloadConfined` | crates/nyanpasu-core-manager/src/config/mihomo.rs:284-295 | a reload leaves every other field, and where DNS listens, as they were |
| `ConfigBootstrap.ZeroInbounds` | crates/nyanpasu-core-manager/src/config/mihomo.rs:135-160 | sets nonzero ports to zero and an enabled `tun` to disabled, and changes nothing else |
| `ConfigBootstrap.OverlapBlock` | crates/nyanpasu-core-manager/src/config/mihomo.rs:382-455 | the scan with its early answer on `dns.listen` |
| `ConfigBootstrap.IdleExact` | crates/nyanpasu-core-manager/src/config/mihomo.rs:135-160 | turning ports and `tun` off leaves nothing listening exactly when no field survives: a port outside 64 bits, an enabled `tuic-server`, a legacy inbound text, a nonempty collection |
| `ConfigBootstrap.RefusedExact` | crates/nyanpasu-core-manager/src/config/mihomo.rs:395-454 | without `dns.listen`, exactly the documents with a surviving or a doubtful field are refused |
| `ConfigBootstrap.OverlapIsIdle` | crates/nyanpasu-core-manager/src/config/mihomo.rs:382-455 | without `dns.listen`, a document that may overlap has no active inbound once ports and `tun` are off |
| `ConfigBootstrap.HarmlessRefused` | crates/nyanpasu-core-manager/src/config/mihomo.rs:395-454 | the harmless documents that are refused are those with a doubtful field and no surviving one |
| `ConfigBootstrap.NullLegacyRefused` | crates/nyanpasu-core-manager/src/config/mihomo.rs:424-436 | one of them: a null legacy inbound |
| `ConfigBootstrap.OverlapExact` | crates/nyanpasu-core-manager/src/config/mihomo.rs:383-394 | the guarantee fails exactly when an empty `dns.listen` ends the overlap check early and some field survives |
| `ConfigBootstrap.EmptyListenHidesListeners` | crates/nyanpasu-core-manager/src/config/mihomo.rs:388-392 | a document with a SOCKS listener that is let through, and is refused without the `dns` entry |
| `ConfigBootstrap.ZeroedChange` | crates/nyanpasu-core-manager/src/config/mihomo.rs:135-160 | whatever turning the inbounds off changes is patchable back |
| `ConfigBootstrap.BootstrapRestores` | crates/nyanpasu-core-manager/src/config/mihomo.rs:187-198 | from the document without inbounds to the full one there is nothing to do or a patch that rebuilds it; only the typed decode can refuse |
| `ConfigBootstrap.ManagedKeepsRest` | crates/nyanpasu-core-manager/src/config/clash.rs:63-85 | managing the controller touches controller fields only |
| `ConfigBootstrap.ZeroedManaged` | crates/nyanpasu-core-manager/src/config/mod.rs:123-163 | turning the inbounds off and managing the controller commute |
| `ConfigBootstrap.BootstrapIdle` | crates/nyanpasu-core-manager/src/config/mod.rs:105-163 | what is launched beside the old core opens no inbound, unless an empty `dns.listen` hid one |
| `ConfigBootstrap.GracefulRestores` | crates/nyanpasu-core-manager/src/manager/switching.rs:420-442 | so the restoration holds between the two documents a graceful switch prepares |
| `ConfigBootstrap.Classify` | crates/nyanpasu-core-manager/src/config/mihomo.rs:217-251 | a changed process specification or controller switches; identical views are nothing to do; otherwise the effective documents decide, and nothing to do means they are equal |
| `ConfigBootstrap.ControllersKept` | crates/nyanpasu-core-manager/src/config/mihomo.rs:241-249 | anything but a switch left the controller fields of the source alone |
| `DnsSync.DnsKeeper.constructor` | crates/nyanpasu-core-manager/src/manager/dns_sync.rs:39-54 | a manager starts over whatever record, override and unfinished call an earlier one left |
| `DnsSync.DnsKeeper.MayCrash` | crates/nyanpasu-core-manager/src/manager/dns_sync.rs:114-132 | a crash loses memory only; a call that was given up may take effect meanwhile, and nothing else changes the host |
| `DnsSync.DnsKeeper.Persist` | crates/nyanpasu-core-manager/src/manager/dns_sync.rs:206-269 | file and memory change together or not at all, except that a crash may leave only the file changed |
| `DnsSync.DnsKeeper.Apply` | crates/nyanpasu-core-manager/src/manager/dns_sync.rs:133-159 | an override is put in place only after a record naming its servers was written; a failed call may have put it there, and one that timed out may do so later |
| `DnsSync.DnsKeeper.Undo` | crates/nyanpasu-core-manager/src/manager/dns_sync.rs:179-192 | only a confirmed restore removes the override |
| `DnsSync.DnsKeeper.ReconcileOrphan` | crates/nyanpasu-core-manager/src/manager/dns_sync.rs:39-74 | an orphan record is cleared only after its override is confirmed gone |
| `DnsSync.DnsKeeper.Restore` | crates/nyanpasu-core-manager/src/manager/dns_sync.rs:165-193 | the record goes only after a confirmed restore, keeps its baseline otherwise, and a failed mark does not stand in the way |
| `DnsSync.AlwaysInOrder` | crates/nyanpasu-core-manager/src/manager/dns_sync.rs:114-132 | in every run, across crashes and failures, servers are applied only right after a record naming them was written, and a record is cleared only right after a confirmed restore |
| `DnsSync.DnsKeeper.Guarded` | crates/nyanpasu-core-manager/src/manager/dns_sync.rs:114-132 | at every moment of every run, a possible override has a record on disk unless a call took effect after the last confirmed restore; without a call that timed out it always has one |
| `DnsSync.StrayExact` | crates/nyanpasu-core-manager/src/manager/dns_sync.rs:133-159 | an override is left without a record exactly when the record is gone and a call took effect after the last confirmed restore |
| `DnsSync.NoStray` | crates/nyanpasu-core-manager/src/manager/dns_sync.rs:133-159 | without a timeout no run leaves an override without a record |
| `DnsSync.StrayPossible` | crates/nyanpasu-core-manager/src/manager/dns_sync.rs:154-159 | a run can go on to leave one, without another timeout, exactly if some call has timed out so far |
| `DnsSync.DnsKeeper.Converge` | crates/nyanpasu-core-manager/src/manager/dns_sync.rs:79-160 | the steps taken are exactly record, apply, record what was read back, or mark, restore, clear; once an interface is in memory it stays, with its previous servers, until a confirmed restore clears it; a baseline on disk is still there afterwards exactly if memory held it, the new record was not written, or the call read the same baseline back and that was written |
| `DnsSync.BaselineKept` | crates/nyanpasu-core-manager/src/manager/dns_sync.rs:104-149 | which of these answers of the environment keep a baseline that is on disk: if and only if |
| `DnsSync.LossPossible` | crates/nyanpasu-core-manager/src/manager/dns_sync.rs:104-128 | the environment can make the next apply lose it exactly when memory does not hold it |
| `DnsSync.BaselineLost` | crates/nyanpasu-core-manager/src/manager/dns_sync.rs:67-128 | an allowed history across two lifetimes that loses the recorded baseline |
| `CoreService.Service.Stop` | crates/nyanpasu-core-manager/src/manager/mod.rs:510-570 | the override is restored before anything is stopped; a death on the way leaves the core and its files as they were |
| `CoreService.Service.Shutdown` | crates/nyanpasu-core-manager/src/manager/mod.rs:671-717 | the same, with an empty slot accepted |
| `CoreService.Service.Recover` | crates/nyanpasu-core-manager/src/manager/quarantine.rs:18-90 | with nothing quarantined nothing happens; while an epoch stays quarantined neither the announced state nor DNS is touched; when none is left the core is announced as stopped and the override restored, and the announcement is right exactly when the slot was empty |
| `CoreService.Service.Reconcile` | crates/nyanpasu-core-manager/src/manager/reconcile.rs:32-61 | a refusal that leaves a core running does not touch DNS; otherwise DNS ends as the core in the slot wants it, or restored when none runs |
| `LogParser.CharBoundary` | crates/nyanpasu-core-manager/src/log.rs:101-109 | the loop backs off to the cut point |
| `LogParser.TruncateText` | crates/nyanpasu-core-manager/src/log.rs:92-99 | cuts to the longest whole-character prefix and tells whether it did |
| `LogParser.AppendBounded` | crates/nyanpasu-core-manager/src/log.rs:67-90 | appends newline and line whole exactly when both fit |
| `LogParser.BoundFields` | crates/nyanpasu-core-manager/src/log.rs:125-132 | caps the number of fields and each key and value |
| `LogParser.BoundFrame` | crates/nyanpasu-core-manager/src/log.rs:111-134 | every field is within its cap, and the frame is marked exactly when something was cut |
| `LogParser.FrameWithin` | crates/nyanpasu-core-manager/src/log.rs:46-65 | continuations keep every cap, the stream and the time of the root |
| `LogParser.UntruncatedIsExact` | crates/nyanpasu-core-manager/src/log.rs:46-134 | a frame is unmarked exactly when root and continuations fit every limit, and then its texts are the newline join of the root and all its continuations |
| `LogParser.EveryFrameWithin` | crates/nyanpasu-core-manager/src/log.rs:161-262 | every frame that ever leaves is within its caps and carries its own stream |
| `LogParser.ContinuationLine` | crates/nyanpasu-core-manager/src/log.rs:187-196 | a line that opens nothing continues the record held on its own stream |
| `LogParser.RootLine` | crates/nyanpasu-core-manager/src/log.rs:246-261 | a root ends what is held on its stream and is held itself exactly when severe |
| `LogParser.OtherLine` | crates/nyanpasu-core-manager/src/log.rs:246-249 | a line never touches the other stream |
| `LogParser.Parser.Append` | crates/nyanpasu-core-manager/src/log.rs:46-65 | takes the line into both texts, or marks the record and takes no more |
| `LogParser.Parser.PushAt` | crates/nyanpasu-core-manager/src/log.rs:161-218 | per stream, the frames out and the one held are the frames of its records, one per root, in order |
| `LogParser.Parser.Emit` | crates/nyanpasu-core-manager/src/log.rs:246-261 | flushes what is held before the new record |
| `LogParser.Parser.Finish` | crates/nyanpasu-core-manager/src/log.rs:220-231 | afterwards the frames of each stream are exactly those of its records, and of two held ones the one opened first leaves first |
| `LogSink.PruneTargets` | crates/nyanpasu-core-manager/src/log_sink.rs:423-426 | all but the newest files, in numeric order |
| `LogSink.RemoveOldest` | crates/nyanpasu-core-manager/src/log_sink.rs:355-375 | removing the oldest files removes a prefix of the records |
| `LogSink.Writer.constructor` | crates/nyanpasu-core-manager/src/log_sink.rs:249-264 | opens a new file past every file found, after making room for it as far as removals succeed |
| `LogSink.StorePruned` | crates/nyanpasu-core-manager/src/log_sink.rs:355-375 | removing any of the targets keeps the protected file and every other record; removing all of them leaves the newest files, and what is left still ends the history |
| `LogSink.Writer.Prune` | crates/nyanpasu-core-manager/src/log_sink.rs:358-375 | never removes the protected file and changes no file that stays; a listing that fails removes nothing, and success means that the limit holds |
| `LogSink.Writer.Create` | crates/nyanpasu-core-manager/src/log_sink.rs:377-386 | a new last file, empty |
| `LogSink.Writer.Rotate` | crates/nyanpasu-core-manager/src/log_sink.rs:331-352 | a new file takes over after room was made for it, or the old one stays active and the failure is counted against it; no record moves |
| `LogSink.Writer.FlushPending` | crates/nyanpasu-core-manager/src/log_sink.rs:310-326 | appends the buffered records whole to the active file; after a failure at most their first bytes are there, and only a failed write leaves them uncounted |
| `LogSink.LosslessArrives` | crates/nyanpasu-core-manager/src/log_sink.rs:310-326 | while no write and no flush failed, what arrived is everything submitted, in order |
| `LogSink.Writer.WhatIsKept` | crates/nyanpasu-core-manager/src/log_sink.rs:276-375 | after any failures: while no removal and no listing failed, the files in numeric order are a suffix of everything that arrived; while no write and no flush failed, that is every record submitted, none split, repeated or reordered |
| `LogSink.Writer.Write` | crates/nyanpasu-core-manager/src/log_sink.rs:266-305 | every encodable record of the batch is submitted once, in order; while nothing is lost, each file of this run exceeds its limit by its last record and by one more for every failed rollover at most; while removals succeed, at most `maxFiles` files remain, and never more than one above a limit of one exist at once |
| `Prelude.Highest` | crates/nyanpasu-core-manager/src/log_sink.rs:415-418 | the highest number in use |

## Left out

- `crates/clash-api`, `nyanpasu_ipc`, the service commands and the Windows security crate: wire types, routing and platform calls.
- Process supervision, health probing, status publishing and capability tables: only their contracts for launch, readiness and confirmed stop are used.
- Published status: revision facts are about the slot, since a published status may name a revision that was never installed; only what a recovery announces is modelled.
- Durability warnings around outcomes and errors, and error texts: they change neither slot nor files.
- Epoch exhaustion: epochs are unbounded numbers here, where the code stops at the end of its 64-bit range.
- Best-effort removals (a backup after an apply, artifacts after a failed start): that they are attempted is not stated, because they may fail without consequence.
- CoreManager.Manager.Succeed: a death inside a launch, after the process was created and before its pid record was written, is not covered, because the process library that does both is not part of this model.
- CoreManager.Manager.PrepareLaunch: temporary staged files are not modelled, because they are removed whenever they are not moved into place.
- LogIndex.Index.Append: where the distinct short targets do not fit the pool together, does not fix which of them are cut, because that depends on batching.
- LogPager.ServePage: models the page of a fully indexed file that does not change meanwhile; while indexing goes on the code answers with an empty page marked as building, and a file that changes under a page resets the cursor.
- DnsSync.DnsKeeper.Persist: a loss of power between publishing the file and syncing its directory is not modelled.
- Real files, permissions, hashing, YAML and JSON codecs, UUIDs and clocks.
- The query surface of the registry, advisory checks and waiting for an operation: they read state that is proved about above.
