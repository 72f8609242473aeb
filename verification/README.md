# agmem: a verified model

agmem is a memory store for agents: one embedded, single-writer database, shared by any number of
sessions through a daemon, filled with claims and documents, and read back as search pages and
briefings.  This project models the code around that database in Dafny and proves what it promises.

| file | models |
|---|---|
| `Handshake.dfy` | the verdict a daemon gives an attaching session, and version precedence |
| `ServeLoop.dfy` | the accept loop: retire, drain, idle out |
| `DaemonProtocol.dfy` | sessions and daemons racing over the data-dir lock, the spawn lock, the socket path and the store |
| `Attaching.dfy` | what a session's `attach` comes to in every run of that protocol |
| `VectorStore.dfy`, `Migration.dfy` | the store's rows, vectors, index widths and `meta`; moves between embedding models, with a crash between any two statements |
| `Reindexer.dfy` | `agmem reindex`, opening a store, and the background drain |
| `EmbedderRace.dfy` | concurrent `ensure_embedder` runs |
| `Briefing.dfy` | the budgeted briefing |
| `Clusters.dfy` | union-find clustering of near-duplicates |
| `Text.dfy`, `Chunker.dfy` | words, trimming, and the document chunker |
| `Ranking.dfy`, `Occupancy.dfy`, `HopTail.dfy`, `Abstain.dfy`, `RecallPage.dfy` | the recall page: score, cap, promote, cut |
| `SourceCap.dfy`, `PageOrder.dfy` | how much of that page one source can hold, and when it is in score order |
| `Forget.dfy` | the two-step `forget` and what a purge takes with it |
| `RotatingLog.dfy` | the self-rotating log file |
| `Refs.dfy` | `inspect`'s references and windows |

How things are modelled:

- A protocol is a total step function over a global state, and a run is any sequence of steps; a step
  whose guard is false changes nothing.  Deadlines and failures are steps the environment may take.
- Loops and objects are methods and classes proved against a function of their inputs or old state;
  the theorems are about those functions.
- `f64` is `real`; text is a sequence of characters with Unicode white space spelled out; the embedder
  is a function from text to a vector of its own space; the engine executes one statement at a time
  and rejects a vector of another width than the index.
- What a store answers, which session speaks next and what other processes do is quantified over.

## Where the code and its comments part

- The comment at crates/agmem-server/src/tools/abstain.rs:148 says the earliest gap wins a tie;
  `max_by` returns the last.  `Abstain.KneeIsStrictlyWidest` shows that no tie can arise.
- crates/agmem-server/src/daemon/serve.rs:152-154 promises "retiring" to each handshake that is
  under way when the flag is set.  A task reads the flag, decides, and only then awaits the write of
  its answer, so an `ok` decided before can be written after, and its session served
  (`ServeLoop.AcceptanceCanOutliveTheFlag`); exactly these can (`ServeLoop.CanBeServedExactly`).
- crates/agmem-server/src/tools/hop.rs:230-231 says the page stays sorted, and
  crates/agmem-server/src/tools/occupancy.rs:63-65 that a list leaves best-first.
  `PageOrder.PageSortedExactly` says when the page is; a deferred hop-voted row, or too few rows within
  quota, break it (`PageOrder.ReserveCanUnsortACappedPage`, `PageOrder.CapAloneCanUnsortThePage`).
- crates/agmem-server/src/tools/occupancy.rs:22-25 and recall.rs:632-636 bound a source at `cap + 1` rows
  of a page.  `SourceCap.OverCapPlusOneExactly` says exactly when the page breaks that bound.  There are two
  ways: candidates of one source alone fill the page with it (`SourceCap.ClaimsAloneBreakTheBound`), and
  where slices flood the page the verbatim pass can give one source every slot but one
  (`SourceCap.OneSourceCanHoldAllButOneSlot`).  With neither, that is, with k rows within quota and no flood
  of slices, the bound holds (`SourceCap.WithinCapPlusOne`).
- crates/agmem-store/src/migrate.rs:125-127 refuses a run of another revision.  Two runs that look before
  either backfills both succeed (`EmbedderRace.TwoBackfillsCanBothSucceed`);
  `EmbedderRace.DisagreesOnlyWhenOvertaken` says how a successful run can disagree with the record.
- A ULID is described as Crockford base32 at crates/agmem-core/src/model.rs:175; the check beside it
  accepts every upper-case letter, and so does the model.
- Index width and recorded width can part: a crash between the reset and the record, then a reopen
  under the old model (`Migration.CrashBeforeRecordMisaligns`), or two first runs of different widths
  (`EmbedderRace.TwoWidthsCanPartIndexAndRecord`).  The exact conditions are proved beside them.
- `STORE_RELEASE_DEADLINE` gives up, so a successor can meet an open store: exactly after a late exit
  (`DaemonProtocol.MeetsAHeldStoreExactlyAfterALateExit`).

## Model

| member | source | states |
|---|---|---|
| `Handshake.VersionOrder` | crates/agmem-server/src/daemon/mod.rs:321-325 | `cmp` (section 11 of Semantic Versioning 2.0.0, then build metadata) is a total order: ties only on equal versions, antisymmetric, transitive |
| `Handshake.NumbersDecide` | crates/agmem-server/src/daemon/mod.rs:321-325 | the first of major, minor and patch to differ decides |
| `Handshake.PreReleaseComesFirst` | crates/agmem-server/src/daemon/mod.rs:321-325 | with equal numbers a pre-release comes before its release |
| `Handshake.PreReleasesCompare` | crates/agmem-server/src/daemon/mod.rs:321-325 | two pre-releases compare as their lists of identifiers |
| `Handshake.FirstIdentifierDecides` | crates/agmem-server/src/daemon/mod.rs:321-325 | of two lists of identifiers the first difference decides, and a proper prefix comes first |
| `Handshake.IdentifiersCompare` | crates/agmem-server/src/daemon/mod.rs:321-325 | numbers by value and before any text, texts by their characters |
| `Handshake.BuildsBreakTies` | crates/agmem-server/src/daemon/mod.rs:321-325 | between versions equal in everything else build metadata decides: digits before words, by value and then by length |
| `Handshake.AcceptedExactlyWhenAllAgree` | crates/agmem-server/src/daemon/mod.rs:179-283 | a session is served if and only if every checked field agrees and the release can be read |
| `Handshake.RefusalNamesTheFirstDisagreement` | crates/agmem-server/src/daemon/mod.rs:179-283 | between readable builds a refusal names the first thing they disagree on |
| `Handshake.RetiresExactlyForNewerBuild` | crates/agmem-server/src/daemon/mod.rs:179-283 | between readable builds, the daemon retires if and only if the session's (release, protocol) is newer |
| `Handshake.RetiresForIsAStrictOrder` | crates/agmem-server/src/daemon/mod.rs:179-283 | "retires for" is irreflexive, asymmetric, transitive, and total on distinct (release, protocol) |
| `Handshake.MutualRetirementExactlyWhenUnreadable` | crates/agmem-server/src/daemon/mod.rs:179-283 | two builds retire each other if and only if one release cannot be read |
| `Handshake.SuccessionNeverReturns` | crates/agmem-server/src/daemon/mod.rs:179-283 | along any chain of takeovers every later build retires every earlier one, so none comes back |
| `ServeLoop.RunKeepsTogether` | crates/agmem-server/src/daemon/serve.rs:160-250 | in every run "retiring", "listener closed" and "drain deadline set" hold together, with one unlink |
| `ServeLoop.RetirementIsForever` | crates/agmem-server/src/daemon/serve.rs:160-250 | from the turn that sets the flag: closed, deadline set, no task added, every handshake refused |
| `ServeLoop.RetiresOnlyWhenAsked` | crates/agmem-server/src/daemon/serve.rs:160-250 | in every run, a daemon retires only because some session asked with a handshake it steps aside for |
| `ServeLoop.RetiredForANewerBuild` | crates/agmem-server/src/daemon/serve.rs:160-250 | between readable builds that session was a newer build |
| `ServeLoop.AnsweredSessionDecides` | crates/agmem-server/src/daemon/serve.rs:372-396 | from every run that has not retired, a session answered and joined sets the flag if and only if its handshake is one the daemon steps aside for, and is served if and only if it is accepted |
| `ServeLoop.LoopLeavesOnlyFor` | crates/agmem-server/src/daemon/serve.rs:160-250 | in every run the loop leaves for a failed accept, for want of sessions or at the end of a drain, and a retiring daemon with nobody left has left |
| `ServeLoop.NobodyIsAcceptedByARetiringDaemon` | crates/agmem-server/src/daemon/serve.rs:372-396 | a session served after the flag was set was served, or decided on and not yet answered, when it was |
| `ServeLoop.CanBeServedExactly` | crates/agmem-server/src/daemon/serve.rs:372-396 | from a run that set the flag, a task can yet be served if and only if it is served or its acceptance is being written |
| `ServeLoop.AcceptanceCanOutliveTheFlag` | crates/agmem-server/src/daemon/serve.rs:372-389 | for any two such builds, a run in which a session starts being served after the flag was set |
| `ServeLoop.Serve` | crates/agmem-server/src/daemon/serve.rs:155-259 | the loop on its own variables ends as the specification does; after a `break` the socket was unlinked exactly once and every session is gone, after an error the sessions go and the path stays |
| `ServeLoop.ExitIsFinal` | crates/agmem-server/src/daemon/serve.rs:160-250 | once the loop has left, only its session tasks move, and none is added |
| `DaemonProtocol.EveryRunKeepsInv` | crates/agmem-server/src/daemon/serve.rs:64-301 | every interleaving of sessions and daemons, crashes included, keeps the lock, path and engine invariant |
| `DaemonProtocol.StoreHasOneHolder` | crates/agmem-server/src/lock.rs:29-62 | at most one process has store handles; a listener holds the data-dir lock and the store; a reachable path is the lock holder's |
| `DaemonProtocol.LettingGoFirstIsEnough` | crates/agmem-server/src/daemon/serve.rs:261-301 | if every lock was released after the store let go, no daemon ever faced an open store and the lock decides who has it |
| `DaemonProtocol.MeetsAHeldStoreExactlyAfterALateExit` | crates/agmem-server/src/daemon/serve.rs:261-301 | opening meets a held store if and only if some late leaver is still closing it |
| `DaemonProtocol.DaemonsUnlinkUnderTheLock` | crates/agmem-server/src/daemon/serve.rs:95-103 | a daemon removes the path only under the lock and never while another listens |
| `DaemonProtocol.BindTakesThePath` | crates/agmem-server/src/daemon/serve.rs:98-103 | binding never meets a path that is there |
| `DaemonProtocol.BrokenLoopUnlinkedOnce` | crates/agmem-server/src/daemon/serve.rs:239-259 | a daemon past its loop has unlinked exactly once since binding and still holds the lock |
| `DaemonProtocol.UnlinksCountRemovals` | crates/agmem-server/src/daemon/serve.rs:160-259 | every removal of the path since binding is counted, and nothing else is |
| `DaemonProtocol.EveryRunKeepsOneAtATime` | crates/agmem-server/src/daemon/client.rs:264-323 | in every run, failing connects included, a daemon not left starting is awaited under the spawn lock while it starts, and on its path while it listens unless a connect missed it |
| `DaemonProtocol.BurstProducesOneDaemon` | crates/agmem-server/src/daemon/client.rs:264-375 | in every run, of the daemons neither left starting nor missed at most one is starting or listening, and clearing a stale path takes none off it |
| `DaemonProtocol.OffItsPathExactlyWhenCleared` | crates/agmem-server/src/daemon/client.rs:264-290 | a daemon listens off its path if and only if a session cleared it while it listened, which happens only to one left starting, started by hand or missed |
| `DaemonProtocol.ReembedOutlivingTheDeadlineIsFaced` | crates/agmem-server/src/daemon/serve.rs:119-125 | a run where the background re-embed's handle outlives the deadline and the next daemon dies on the store |
| `DaemonProtocol.OrphanCanLoseItsPath` | crates/agmem-server/src/daemon/client.rs:269-290 | a run where a daemon started by hand binds between a failed connect and the clearing, and loses its path |
| `DaemonProtocol.ErrorCanLetGoFirst` | crates/agmem-server/src/daemon/serve.rs:161-166 | after an error, dropping the sessions lets the engine close before the lock goes |
| `Attaching.EveryRunAccounts` | crates/agmem-server/src/daemon/client.rs:71-142 | in every run each phase of an attach goes with how often the session was turned away and how many daemons it has started since |
| `Attaching.StartsAreBounded` | crates/agmem-server/src/daemon/client.rs:269-323 | turned away twice at most; one daemon started at most before that, and two on end after |
| `Attaching.AnswerDecides` | crates/agmem-server/src/daemon/client.rs:113-142 | `ok` attaches, a first retirement is waited out, anything else ends the attempt, and nothing else changes |
| `Attaching.DeathDecides` | crates/agmem-server/src/daemon/client.rs:295-323 | a daemon that died before it listened is started again if and only if the session had been turned away and this was its first |
| `Attaching.AttachedMeansAccepted` | crates/agmem-server/src/daemon/client.rs:113-142 | in every run a session is attached only because a daemon said `ok` to it |
| `Attaching.RunningDaemonIsUsed` | crates/agmem-server/src/daemon/client.rs:113-129 | where a daemon listens, a session can be attached to it with no lock taken, path removed or process started |
| `Attaching.QueuedSessionUsesIt` | crates/agmem-server/src/daemon/client.rs:269-279 | one that came up while the session queued is used, and the spawn lock given back |
| `Attaching.ColdStartAttaches` | crates/agmem-server/src/daemon/client.rs:269-323 | from every run that left no lock or store held and nobody listening, a stale path or not, a session can start a daemon and be attached to it, with every other process as it was |
| `Attaching.LoserDies` | crates/agmem-server/src/daemon/serve.rs:64-73 | a daemon that finds the data-dir lock held is gone and has touched nothing |
| `Attaching.IdleDaemonLetsGo` | crates/agmem-server/src/daemon/serve.rs:239-301 | an idle daemon can go leaving neither socket, store nor lock held |
| `VectorStore.PlanStep` | crates/agmem-server/src/startup.rs:147-186 | every statement of an open is accepted by the engine, keeps one space, and leaves a resumable store |
| `VectorStore.OpeningTouches` | crates/agmem-store/src/queries/reindex.rs:48-50 | no statement of an open touches a row, its table or its text; a clear takes exactly the vectors of its own table |
| `VectorStore.ServingTouches` | crates/agmem-store/src/repo/reindex.rs:129-157 | a session or a drain touches exactly the rows it names, a drain only their vectors, and neither `meta` |
| `VectorStore.ServingKeepsOneSpace` | crates/agmem-store/src/repo/reindex.rs:129-157 | writes of a served store keep one space and never change `meta` |
| `Migration.EveryHistoryKeepsInv` | crates/agmem-server/src/startup.rs:108-186 | every history of opens under changing models, writes, drains and crashes keeps the invariant |
| `Migration.TwoSpacesNeverCoexist` | crates/agmem-server/src/startup.rs:147-186 | wherever a history stops, every vector is of the recorded model and width; no open's statement is rejected |
| `Migration.OpenAlignsExactlyWhenItResets` | crates/agmem-server/src/startup.rs:147-186 | a finished open records the configured space; the indexes have its width if and only if it reset them or they had it |
| `Migration.OpenKeepsEveryText` | crates/agmem-server/src/startup.rs:147-186 | a finished open keeps every row with its table and text, and takes its vector exactly when the model or width moved, two named revisions differ, or nothing was recorded and the indexes are rebuilt |
| `Migration.OpenRecords` | crates/agmem-server/src/startup.rs:147-186 | what it records: its own space, and its own revision unless one that agrees was recorded |
| `Migration.OnlyServingTouchesTexts` | crates/agmem-server/src/startup.rs:147-186 | at every point of every history, crashes included, no step but a session's own write touches a text |
| `Migration.MisalignedTableRejectsEveryVector` | crates/agmem-store/src/queries/reindex.rs:3-16 | a table off the recorded width rejects every vector write |
| `Migration.UninterruptedHistoriesStayAligned` | crates/agmem-store/src/repo/reindex.rs:50-62 | without a crash inside an open, index and recorded width always agree |
| `Migration.CrashBeforeRecordMisaligns` | crates/agmem-server/src/startup.rs:155-160 | from any aligned store, a crash before the record and a reopen under the old model leaves them apart |
| `Migration.NamedRevisionsNeverMix` | crates/agmem-server/src/startup.rs:147-186 | when every embedder that produces vectors names its revision, every vector is of the recorded one, wherever a history stops |
| `Migration.UnnamedVectorsAreAdopted` | crates/agmem-store/src/migrate.rs:148-165 | otherwise not: a vector of no named revision is taken over by the first that is backfilled |
| `Reindexer.Store.ResetVectors` | crates/agmem-store/src/repo/reindex.rs:50-62 | never rejected; every row keeps its table and text and loses its vector, both indexes take the width, `meta` stays |
| `Reindexer.Store.SetEmbedder` | crates/agmem-store/src/migrate.rs:255-271 | the recorded space is replaced and nothing else changes |
| `Reindexer.Store.EnsureEmbedder` | crates/agmem-store/src/migrate.rs:128-201 | alone with the store it refuses exactly a mismatch and otherwise carries out the whole plan; every text stays |
| `Reindexer.Store.Resolve` | crates/agmem-server/src/startup.rs:147-186 | the whole plan is carried out, the pending rows are counted, and every text stays |
| `Reindexer.Store.PendingCount` | crates/agmem-store/src/repo/reindex.rs:71-84 | the number of rows without a vector, over both tables |
| `Reindexer.Store.NextPending` | crates/agmem-store/src/repo/reindex.rs:95-120 | a batch without repeats, memories before chunks, short only when it is everything |
| `Reindexer.Store.EmbedBatch` | crates/agmem-server/src/reindex.rs:211-220 | only pending rows are filled, each with its own vector; progress on success, no change on failure |
| `Reindexer.Store.Execute` | crates/agmem-server/src/reindex.rs:163-203 | it ends; success means nothing pending and every row with the vector of its own text as it was, made anew if the store moved or it had none; every text stays; it fails only if the embedder does or the widths are off |
| `Reindexer.Store.EmbedAll` | crates/agmem-server/src/reindex.rs:163-203 | the loop ends; only pending rows are filled; success leaves none and counts those it filled |
| `Reindexer.Drain` | crates/agmem-server/src/reindex.rs:235-275 | ends within 5 * (pending + 1) batches whatever they report; complete exactly on "nothing left"; gives up only after five barren batches in a row |
| `EmbedderRace.EveryPlayKeepsInv` | crates/agmem-store/src/migrate.rs:128-240 | every interleaving of column reads and guarded writes keeps what each run has learnt true |
| `EmbedderRace.PairIsRecordedOnce` | crates/agmem-store/src/migrate.rs:128-201 | a recorded (model, width) never changes, nor a recorded revision |
| `EmbedderRace.SuccessMeansTheRecordedSpace` | crates/agmem-store/src/migrate.rs:128-201 | runs that succeed agree with the record and each other; "no pair recorded" is unreachable |
| `EmbedderRace.RefusedMeansAnotherSpace` | crates/agmem-store/src/migrate.rs:128-201 | in every interleaving a run is refused only if the store records another model, width or named revision |
| `EmbedderRace.LateRunEnds` | crates/agmem-store/src/migrate.rs:147-165 | a run that begins once a pair is recorded can end refused exactly on a clash and agreed otherwise, having filled in at most a missing revision |
| `EmbedderRace.RereadDecides` | crates/agmem-store/src/migrate.rs:188-198 | after its own guarded write a run only compares: refused on a clash, agreed otherwise, and no further write |
| `EmbedderRace.DisagreesOnlyWhenOvertaken` | crates/agmem-store/src/migrate.rs:148-165 | a run that succeeded disagrees with the recorded revision only if another's landed while it was about to backfill, or after it succeeded with none recorded |
| `EmbedderRace.OvertakenDisagrees` | crates/agmem-store/src/migrate.rs:148-165 | a run overtaken while about to backfill succeeds and disagrees |
| `EmbedderRace.LaterBackfillDisagrees` | crates/agmem-store/src/migrate.rs:188-190 | so does one that succeeded with none recorded, once another revision is backfilled |
| `EmbedderRace.TwoBackfillsCanBothSucceed` | crates/agmem-store/src/migrate.rs:148-165 | for any two revisions, a run where both succeed and the store keeps the first |
| `EmbedderRace.OneWidthKeepsTheIndex` | crates/agmem-store/src/migrate.rs:128-201 | with one width among the runs, the record and both indexes agree |
| `EmbedderRace.TwoWidthsCanPartIndexAndRecord` | crates/agmem-store/src/migrate.rs:128-201 | for any two different widths, a run that records one and leaves the other on the indexes |
| `Briefing.RenderSection` | crates/agmem-server/src/tools/context.rs:470-499 | the inner loop computes the section's fill |
| `Briefing.Render` | crates/agmem-server/src/tools/context.rs:450-507 | the loops compute the whole fill: text and drops, whose every step `Briefing.WrittenExactlyWhenItFits` states |
| `Briefing.AssembleBlock` | crates/agmem-server/src/tools/context.rs:274-286 | up to three fills give the specified block |
| `Briefing.LineSaysTheClaim` | crates/agmem-server/src/tools/context.rs:146-149 | a bullet has exactly the words of its claim and its id |
| `Briefing.LineIsOneLine` | crates/agmem-server/src/tools/context.rs:146-149 | a bullet is one line, however the claim is spaced |
| `Briefing.WrittenExactlyWhenItFits` | crates/agmem-server/src/tools/context.rs:464-499 | each entry in turn: skipped if seen, written under the heading still owed if it fits the whole budget in the first section or the budget less what later sections hold, dropped otherwise |
| `Briefing.Held` | crates/agmem-server/src/tools/context.rs:109-124 | the lesser of what a section asks for and its reserve |
| `Briefing.WhatFitsIsShownWhole` | crates/agmem-server/src/tools/context.rs:274-286 | if title, headings and lines fit the budget together, every entry is shown and there is no note |
| `Briefing.SomethingIsSaid` | crates/agmem-server/src/tools/context.rs:501-506 | with any entry at all a block never says that nothing is stored |
| `Briefing.EmptyStoreIsSaid` | crates/agmem-server/src/tools/context.rs:501-506 | with none it says so, if there is room |
| `Briefing.SectionsKeepSound` | crates/agmem-server/src/tools/context.rs:456-507 | `used` is the characters written, at every point |
| `Briefing.EntriesWriteWhatTheyShow` | crates/agmem-server/src/tools/context.rs:470-499 | a section's text is its heading once over the lines shown, or nothing |
| `Briefing.BlockFitsExactly` | crates/agmem-server/src/tools/context.rs:274-286 | the block is within the budget if and only if the title is and, when the roll-up drops something, the title fits beside the note |
| `Briefing.NothingIsLostUncounted` | crates/agmem-server/src/tools/context.rs:456-507 | no id twice; with no drops every entry is written or covered by a written summary |
| `Briefing.LosslessFillIgnoresMoreRoom` | crates/agmem-server/src/tools/context.rs:450-507 | a fill that drops nothing makes the same choices at every larger budget |
| `Briefing.RollingUpNeedsNoMore` | crates/agmem-server/src/tools/context.rs:450-507 | where the plain fill drops nothing, the roll-up drops nothing and uses no more |
| `Briefing.NoteExactlyWhenRollUpDrops` | crates/agmem-server/src/tools/context.rs:274-286 | the note is attached if and only if the full-budget roll-up drops, and then its own fill has dropped |
| `Briefing.LaterSectionsLeaveTheReserve` | crates/agmem-server/src/tools/context.rs:464-499 | no section after the first spends past the budget less what later ones hold |
| `Briefing.ReservedSectionIsNotStarved` | crates/agmem-server/src/tools/context.rs:109-124 | a last section within its reserve loses nothing, whatever those between wanted |
| `Clusters.HalvingKeepsRoots` | crates/agmem-server/src/tools/consolidate.rs:647-655 | path halving anywhere moves no root |
| `Clusters.LinkingMovesOneClass` | crates/agmem-server/src/tools/consolidate.rs:657-665 | linking a root under a smaller one moves exactly its class |
| `Clusters.Union.Root` | crates/agmem-server/src/tools/consolidate.rs:647-655 | the root, with the array rewritten and every root kept |
| `Clusters.Union.Join` | crates/agmem-server/src/tools/consolidate.rs:657-665 | two classes become one under the smaller root, all others stay |
| `Clusters.RootsAreComponents` | crates/agmem-server/src/tools/consolidate.rs:455-527 | same root if and only if connected |
| `Clusters.JoiningRepresents` | crates/agmem-server/src/tools/consolidate.rs:657-665 | joining an edge's ends represents the graph with that edge |
| `Clusters.JoinClosePairs` | crates/agmem-server/src/tools/consolidate.rs:455-495 | after all pairs the forest is the graph "at least the cluster bar" over rows with a direction |
| `Clusters.GroupByRoot` | crates/agmem-server/src/tools/consolidate.rs:497-500 | the classes, each ascending, found while halving |
| `Clusters.Extremes` | crates/agmem-server/src/tools/consolidate.rs:533-545 | fails exactly on fewer than two rows or an unmeasured pair; otherwise the true weakest and closest pair |
| `Clusters.ClassIsMeasured` | crates/agmem-server/src/tools/consolidate.rs:533-545 | every pair of a component was measured |
| `Clusters.Report` | crates/agmem-server/src/tools/consolidate.rs:504-520 | a component of two or more always yields its cluster |
| `Clusters.ClassesPartition` | crates/agmem-server/src/tools/consolidate.rs:497-500 | the classes are the components under their least rows, and every row is in one |
| `Clusters.Compare` | crates/agmem-server/src/tools/consolidate.rs:455-527 | the groups are exactly the connected components and none of two or more rows is lost |
| `Text.WordsSplit` | crates/agmem-core/src/chunk.rs:164-181 | cutting beside white space cuts no word |
| `Text.JoinKeepsWords` | crates/agmem-core/src/chunk.rs:27-49 | joining parts by spaces has exactly the parts' words |
| `Chunker.Paragraphs` | crates/agmem-core/src/chunk.rs:72-92 | no word lost, none blank; exactly the runs of non-blank lines, trimmed, with only blank lines between and around them |
| `Chunker.Sentences` | crates/agmem-core/src/chunk.rs:98-124 | no word lost; consecutive stretches, each up to a stop that white space follows and with none inside, trimmed |
| `Chunker.SentencesStop` | crates/agmem-core/src/chunk.rs:98-124 | every sentence but the last ends in its stop, and none has another's end inside it |
| `Chunker.EveryStopEndsASentence` | crates/agmem-core/src/chunk.rs:98-124 | every `.`, `!` or `?` with white space after it is the end of one |
| `Chunker.WordsWithOffsets` | crates/agmem-core/src/chunk.rs:164-181 | every word, in order, where it stands, with nothing but white space between and around them |
| `Chunker.WrapWords` | crates/agmem-core/src/chunk.rs:131-161 | no word lost; each piece is a stretch of the text, within the budget or one unbroken run, and the next word would not have fitted it |
| `Chunker.Units` | crates/agmem-core/src/chunk.rs:53-69 | no word lost, each unit fits; in order, each paragraph within the budget, else each of its sentences within it, else the pieces of that sentence |
| `Chunker.EveryUnitIsWhole` | crates/agmem-core/src/chunk.rs:53-69 | a unit is a whole paragraph, or a whole sentence of a paragraph over the budget, or a piece of a sentence over it |
| `Chunker.SmallParagraphsAreTheUnits` | crates/agmem-core/src/chunk.rs:53-69 | paragraphs that all fit are the units |
| `Chunker.Chunk` | crates/agmem-core/src/chunk.rs:27-49 | for every text the chunks have exactly its words; each is a run of consecutive units joined by single spaces that the next unit would not have fitted; within the budget or one unbroken run; no two neighbours would have fitted together |
| `Chunker.WhatFitsIsOneChunk` | crates/agmem-core/src/chunk.rs:20-49 | units that fit the budget together are one chunk |
| `Ranking.RankIsStableDescending` | crates/agmem-core/src/scoring.rs:375-428 | a permutation, best first, equal scores in input order |
| `Ranking.NormalizedInUnit` | crates/agmem-core/src/scoring.rs:375-428 | normalised retrieval is within [0, 1]; which way it runs is `Ranking.NormalizedRunsUpwards` |
| `Ranking.NormalizedRunsUpwards` | crates/agmem-core/src/scoring.rs:375-428 | over a pool with a positive best and a spread: strictly increasing in the retrieval score, 0 at the worst and 1 at the best; 1 on a tie at a positive score, 0 when nothing was retrieved |
| `Ranking.EndsAreOfThePool` | crates/agmem-core/src/scoring.rs:375-428 | the two ends of the scale are scores of the pool |
| `Ranking.ScoresDifferByTheWeights` | crates/agmem-core/src/scoring.rs:375-428 | two rows' scores differ by 0.6, 0.25, 0.15 and 0.15 of what they differ in retrieval, retention, importance and temporal fit |
| `Ranking.NoveltyIsWorthItsWeight` | crates/agmem-core/src/scoring.rs:375-428 | and by the weight of what they differ in novelty |
| `Ranking.BetterRetrievedComesFirst` | crates/agmem-core/src/scoring.rs:375-428 | of two rows alike otherwise, the better retrieved comes first |
| `Ranking.RescalingChangesNothing` | crates/agmem-core/src/scoring.rs:375-428 | a positive affine rescaling that keeps the best positive changes no normalised value, no score and no order |
| `Ranking.NoveltyTermsSumToZero` | crates/agmem-core/src/scoring.rs:375-428 | at any weight the pool-centred novelty terms sum to zero |
| `Occupancy.Cap` | crates/agmem-server/src/tools/occupancy.rs:32-34 | at least two, at least half the page, and the least such for pages of three or more |
| `Occupancy.ResliceIsAPermutation` | crates/agmem-server/src/tools/occupancy.rs:69-116 | nothing is dropped or invented |
| `Occupancy.PageObeysTheCap` | crates/agmem-server/src/tools/occupancy.rs:69-116 | no source exceeds its cap in the first min(k, rows within quota) |
| `Occupancy.PageOverTheCapExactly` | crates/agmem-server/src/tools/occupancy.rs:69-116 | a page exceeds the cap of a source if and only if the rows within quota run out and a deferred row of that source fills it up |
| `Occupancy.PageCount` | crates/agmem-server/src/tools/occupancy.rs:69-116 | how often any other keying finds a source on the new page |
| `Occupancy.ResliceKeepsSortedExactly` | crates/agmem-server/src/tools/occupancy.rs:62-66 | a sorted list keeps its first rows sorted if and only if nothing moved, they are within quota, or no deferred row outscores the last of those |
| `Occupancy.LeftAloneExactlyWhenObeyed` | crates/agmem-server/src/tools/occupancy.rs:69-116 | untouched if and only if it does not overflow k or its page already obeys the cap |
| `Occupancy.DisplacedIsAnUpperBound` | crates/agmem-server/src/tools/occupancy.rs:95-99 | the new page row by row: every reported row left exactly when k rows are within quota, else the shortfall is back |
| `Occupancy.ReportedExactlyWhenOverTheCap` | crates/agmem-server/src/tools/occupancy.rs:100-106 | a source is reported if and only if it holds more than the cap of the page |
| `Occupancy.ReportedOnce` | crates/agmem-server/src/tools/occupancy.rs:100-106 | no source is reported twice |
| `Occupancy.Apply` | crates/agmem-server/src/tools/occupancy.rs:69-116 | the counting loop gives that reordering and report |
| `HopTail.ReserveTail` | crates/agmem-server/src/tools/hop.rs:234-242 | the remove-and-insert gives the specified list |
| `HopTail.ReserveIsAPermutation` | crates/agmem-server/src/tools/hop.rs:234-242 | nothing is lost at any k |
| `HopTail.Move` | crates/agmem-server/src/tools/hop.rs:239-240 | moving one row up permutes the list |
| `HopTail.ReserveShowsAHop` | crates/agmem-server/src/tools/hop.rs:234-242 | with k of two or more, a hop-voted row anywhere puts one on the page; the rows above the last slot stay |
| `HopTail.ReserveKeepsSortedExactly` | crates/agmem-server/src/tools/hop.rs:234-242 | the page is sorted after a promotion if and only if it was above its last slot and the promoted row scores no more than the slot above |
| `Abstain.AbstainsExactly` | crates/agmem-server/src/tools/abstain.rs:107-128 | a page is emptied if and only if its top row is measured and every measured row is under the floor |
| `Abstain.KneeIsStrictlyWidest` | crates/agmem-server/src/tools/abstain.rs:138-154 | a gap that fires is strictly wider than every other |
| `Abstain.EnvelopeIsTheLeastSoFar` | crates/agmem-server/src/tools/abstain.rs:138-154 | the envelope at a row is the least retrieval down to it |
| `Abstain.KneeExactly` | crates/agmem-server/src/tools/abstain.rs:138-154 | a knee needs three rows, a drop of 0.1, and more than half of all the page drops |
| `Abstain.FallsExactly` | crates/agmem-server/src/tools/abstain.rs:155-173 | a row is gone if and only if it is past the knee, measured, under the floor and not guarded |
| `Abstain.TrimmedAreTheKept` | crates/agmem-server/src/tools/abstain.rs:155-173 | the page after the trim is the other rows, in order |
| `Abstain.TrimKeeps` | crates/agmem-server/src/tools/abstain.rs:155-173 | a trim is not empty and keeps every unmeasured, guarded or above-floor row |
| `Abstain.Apply` | crates/agmem-server/src/tools/abstain.rs:101-173 | emptied, trimmed at the one knee, or as it came; a verdict exactly when the page changed |
| `RecallPage.OneSliceExactly` | crates/agmem-server/src/tools/recall.rs:637-672 | through both caps, the reserve and the cut at k: at most one verbatim slice if and only if k - 1 claims were found or there is no second slice |
| `RecallPage.PageComesFromTheCandidates` | crates/agmem-server/src/tools/recall.rs:637-672 | the page is made of the candidates, none twice, and full when they suffice |
| `RecallPage.ShownOnlyDrops` | crates/agmem-server/src/tools/recall.rs:674-695 | the final cut adds no row, and nothing of any source or kind |
| `RecallPage.ShownPage` | crates/agmem-server/src/tools/recall.rs:637-695 | the page returned holds candidates only and at most one slice when k - 1 claims were found |
| `RecallPage.CutExactly` | crates/agmem-server/src/tools/recall.rs:674-695 | of a page that is not refused, which rows the final cut takes, on similarity, floor, knee and policy |
| `RecallPage.GuardedExactly` | crates/agmem-server/src/tools/recall.rs:674-695 | a row is exempt if and only if no score placed it on the page or the hop voted for it |
| `RecallPage.DocumentAndItsClaimsShareAQuota` | crates/agmem-server/src/tools/recall.rs:637-645 | a slice counts against the same source as the claims distilled from its document |
| `RecallPage.GuardedRowsAreShown` | crates/agmem-server/src/tools/recall.rs:619-695 | a row a policy placed is returned unless the whole page is refused |
| `RecallPage.HopIsSeen` | crates/agmem-server/src/tools/recall.rs:664-695 | if the hop voted for any candidate, one such claim is returned unless the whole page is refused |
| `PageOrder.ReserveCanUnsortACappedPage` | crates/agmem-server/src/tools/recall.rs:637-672 | sorted candidates whose page is not: the cap defers a hop-voted row and the reserve puts it back under lower ones |
| `PageOrder.CapAloneCanUnsortThePage` | crates/agmem-server/src/tools/occupancy.rs:62-66 | sorted candidates whose page is not, with no hop: the rows within quota do not fill it |
| `PageOrder.PassSortedExactly` | crates/agmem-server/src/tools/recall.rs:652-660 | of two sorted runs, the verbatim pass keeps the first rows sorted if and only if its runs meet in order |
| `PageOrder.PageSortedExactly` | crates/agmem-server/src/tools/recall.rs:637-672 | for sorted candidates, the page is in score order if and only if the runs both caps leave meet in order and a promoted row scores no more than the slot above |
| `SourceCap.SliceAndFirstClaims` | crates/agmem-server/src/tools/recall.rs:652-660 | the first n rows within the verbatim quota, n being k or k - 1, are the first slice and the first n - 1 claims |
| `SourceCap.VerbatimPassHoldsExactly` | crates/agmem-server/src/tools/recall.rs:652-660 | what a flooded page, with or without its last slot, holds of a source, counted on the list before the pass |
| `SourceCap.CappedHoldsExactly` | crates/agmem-server/src/tools/recall.rs:637-645 | how far past its cap a source is after the first pass: exactly the deferred rows of it that fill the page up |
| `SourceCap.OverTheCapExactly` | crates/agmem-server/src/tools/recall.rs:637-660 | both passes: the page is over a source's cap if and only if the first slice, the first k - 1 claims and the slices after them are, or, without a flood, a deferred row of it fills the page up |
| `SourceCap.ReserveCounts` | crates/agmem-server/src/tools/hop.rs:234-242 | the reserve trades one row: what it makes of a source's count, exactly |
| `SourceCap.PageHolds` | crates/agmem-server/src/tools/recall.rs:637-672 | what the page holds of a source, exactly; at most one more than before the reserve |
| `SourceCap.OverCapPlusOneExactly` | crates/agmem-server/src/tools/recall.rs:630-672 | the page holds more than `cap + 1` of a source if and only if the first slice, the claims after it and the promoted row do, or, without a flood of slices, two deferred rows of it, or one and the promoted row, fill the page up |
| `SourceCap.WithinCapPlusOne` | crates/agmem-server/src/tools/recall.rs:630-695 | the page returned is within `cap + 1` of every source when k rows are within quota and slices do not flood |
| `SourceCap.OneSourceAloneFillsThePage` | crates/agmem-server/src/tools/recall.rs:637-672 | candidates of one source alone give a page with k rows of it, past `cap + 1` from four slots on |
| `SourceCap.ClaimsAloneBreakTheBound` | crates/agmem-server/src/tools/recall.rs:637-672 | such candidates without a slice, for every k of four or more, every source and any distinct ids |
| `SourceCap.OneSourceCanHoldAllButOneSlot` | crates/agmem-server/src/tools/recall.rs:637-672 | at every k of three or more and for every source, candidates with k rows within quota whose page it fills but for a slot: past `cap + 1` from six slots on |
| `RecallPage.RescalingShowsTheSamePage` | crates/agmem-server/src/tools/recall.rs:615-695 | from ranking to the final cut, a rescaled pool shows the same page |
| `RecallPage.Recall` | crates/agmem-server/src/tools/recall.rs:628-695 | the stages in the code's order compute that page |
| `Forget.Pending.Confirm` | crates/agmem-server/src/tools/forget.rs:184-197 | a matching offer is taken; otherwise the slot is as it was |
| `Forget.EveryPlayKeepsInv` | crates/agmem-server/src/tools/forget.rs:206-327 | every interleaving of a session's calls over a changing store keeps the slot, the log and each call consistent |
| `Forget.ClearedExactlyWhenStanding` | crates/agmem-server/src/tools/forget.rs:184-197 | an attempt is cleared if and only if a dry run of the same query, spaces and purge flag stands; mismatches in between do not disturb it |
| `Forget.ForgetsOnlyWhatWasShown` | crates/agmem-server/src/tools/forget.rs:230-327 | an execution by query touches only ids of the dry run standing at its confirmation, with the same scope |
| `Forget.OneExecutionPerDryRun` | crates/agmem-server/src/tools/forget.rs:230-327 | no dry run covers two executions |
| `Forget.EveryPlayIsAsked` | crates/agmem-server/src/tools/forget.rs:206-327 | every call and every entry of every interleaving answers to the parameters its call was begun with |
| `Forget.LogIsAsAsked` | crates/agmem-server/src/tools/forget.rs:230-327 | a dry run offers and does nothing else; any other call never offers, confirms or forgets only its own scope, and forgets by ids exactly if it was given ids |
| `Forget.EveryCallHasItsOutcome` | crates/agmem-server/src/tools/forget.rs:206-327 | a call that is let finish logs exactly what it would as one act, whatever runs between its steps: forgets what it read if all of it was shown, nothing if not, offers what a dry run read |
| `Forget.CascadeDocuments` | crates/agmem-server/src/tools/forget.rs:476-523 | whatever the store answers from target to target, the loop gathers the citers, each in its document's space, or refuses |
| `Forget.GatheredIsExact` | crates/agmem-server/src/tools/forget.rs:476-523 | the targets and every live citer of a document among them, and nothing else |
| `Forget.GatheredHasNoRepeats` | crates/agmem-server/src/tools/forget.rs:476-523 | each once |
| `Forget.HeldBackExactlyByACiter` | crates/agmem-server/src/tools/forget.rs:499-515 | without `cascade` a purge is refused if and only if a citer is not itself a target |
| `Forget.ExpandChains` | crates/agmem-server/src/tools/forget.rs:527-556 | the loops replace each claim by its chain, each link in the claim's space |
| `Forget.ExpandedIsExact` | crates/agmem-server/src/tools/forget.rs:527-556 | no version of a targeted claim is left behind and no other row is touched |
| `Forget.ExpandedHasNoRepeats` | crates/agmem-server/src/tools/forget.rs:527-556 | shared history is purged once |
| `RotatingLog.RotatingFile.Open` | crates/agmem-server/src/telemetry.rs:69-79 | on any directory, what is on disk is what counts towards the limit |
| `RotatingLog.RotatingFile.MakeRoom` | crates/agmem-server/src/telemetry.rs:98-113 | in any directory, what each number carries after the renames |
| `RotatingLog.RotatingFile.Append` | crates/agmem-server/src/telemetry.rs:117-127 | a buffer is written to the live file, whole or short, after a rotation if the whole of it would overflow |
| `RotatingLog.RotationLosesAtMostOne` | crates/agmem-server/src/telemetry.rs:98-113 | gaps or not, only number `keep` can be lost, and exactly when the one below takes its number |
| `RotatingLog.RotationMakesRoom` | crates/agmem-server/src/telemetry.rs:98-113 | without a gap, the files after a rotation are the old list less the oldest |
| `RotatingLog.WriteRefinesList` | crates/agmem-server/src/telemetry.rs:117-127 | without a gap, a write does to the list what the list's own write does, and leaves no gap |
| `RotatingLog.RunsRefineTheList` | crates/agmem-server/src/telemetry.rs:68-127 | over every run from an empty directory the renamed files are the listed ones |
| `RotatingLog.EveryRunCutsBetweenLines` | crates/agmem-server/src/telemetry.rs:68-127 | for every run of writes and reopenings each file is whole consecutive writes, within the limit or one write; at most keep + 1 files, nothing lost before; no file was closed that the next buffer would have fitted |
| `RotatingLog.FilesAreASuffix` | crates/agmem-server/src/telemetry.rs:68-127 | oldest to newest, the files are exactly a suffix of everything written |
| `Refs.ParsedIsCanonical` | crates/agmem-server/src/tools/inspect.rs:938-978 | what the parser gives has valid ids, trimmed names and a place for a space |
| `Refs.ParsesExactlyTheGrammar` | crates/agmem-server/src/tools/inspect.rs:938-978 | for every text and reference: the parser gives that reference if and only if the text spells it |
| `Refs.PlaceExactly` | crates/agmem-server/src/tools/inspect.rs:976-979 | a place is one to 64 lower-case letters, digits, dashes and underscores, and not `all` |
| `Refs.PrintParsesExactly` | crates/agmem-server/src/tools/inspect.rs:1060-1073 | printing and parsing gives a reference back if and only if the parser can give it |
| `Refs.AcceptedTextRoundTrips` | crates/agmem-server/src/tools/inspect.rs:938-978 | for every accepted text, the printed form is accepted as the same reference |
| `Refs.PageLeadsOn` | crates/agmem-server/src/tools/inspect.rs:806-826 | a window leads on exactly when it stops short, and gets ahead exactly when the limit is not zero |
| `Refs.ViewAsAsked` | crates/agmem-server/src/tools/inspect.rs:806-826 | a limit beats the default, which stands in for one; no offset is the beginning |
| `Refs.ViewToTheEnd` | crates/agmem-server/src/tools/inspect.rs:806-826 | past the end an empty page at the end; with no limit the rest |
| `Refs.FollowReadsTheRest` | crates/agmem-server/src/tools/inspect.rs:806-826 | following `next_offset` at any limit of at least one ends, and reads exactly the content |

## Left out

- SurrealDB, HNSW and BM25: the store is its rows, vectors, index widths and `meta`; search results are inputs.
- Embedding backends, model download and accelerators: the embedder is a function, or may refuse.
- Retention and decay: they rest on `exp` and `ln`; retention is a given real.
- Floating-point rounding, JSON shapes, Unicode case folding and hashing.
- The `eval-knobs` override of the abstention floor: the floor is an input.
- Wall-clock time: deadlines, polls and idle timers are steps that may or may not fire.
- The parsing of version strings: a release is a parsed version or unreadable, and a missing build part is one empty identifier.
- The pid text in the lock file, log tails in error messages, and the socket-path length check.
- The self-check and pruning at start and the footprint line beside the accept loop: they change none of the modelled state.
- The width column's saturation at `i64::MAX`, and schema migrations (`ensure`).
- `cap_by_tag`, `resolve_budget` and the searches that fill a briefing's sections: a section is a list of entries with a reserve.
- The contradictions list, the final order and the count limit of clusters, shared entities and over-full tags.
- The hop arm's hubs, seeds and merge: whether a row is hop-voted is an input to the page.
- `Capped` and `Cut` as answer fields, and the reinforcement that follows a recall.
- The trimming of a `forget` query, where a blank one counts as none: the model's query is what is left of it.
- `forget` by ids: resolving a reference to a row, and the refusal to close verbatim text; by ids the targets are an arbitrary list.
- RotatingLog.RotatingFile.Append: I/O errors, and a second daemon draining into a renamed file, are not modelled.
- Refs.FollowReadsTheRest: a limit of zero never gets ahead, as `Refs.PageLeadsOn` states, so it has no pages to join.
- The command line, configuration, prompts, hooks, transcripts, `gc`, `doctor` and the Python probes.
