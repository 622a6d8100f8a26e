# Session Restore, verified

Session Restore is a crash-tolerant journal of a desktop session. A browser extension streams
tab changes to an agent; the agent keeps live tables and immutable snapshots; after a crash or a
sign-in a restore protocol hands the right tabs back, once. This project models that journal in
Dafny and proves what it promises, over every input, every run and every interleaving.

Where the program changes things in place (the outbox, the planner's count maps, the database,
the pending-restore record, the frame stream, the clamped rectangle) the model is a class or a
method with loops, proved equal to a specification function; what the program promises is then
proved about that function or about a state machine over it. `dafny verify dfyconfig.toml` checks
everything.

## The modules

| module | what it is about |
|---|---|
| `Protocol`, `LiveTables` | the messages, and what one delta or one message does to a session in plain text |
| `Coalescing`, `Outbox`, `Pipeline`, `PipelineLimits`, `PipelineShared`, `OutboxRuns` | the capture pipeline: outbox, batches, failed sends, evictions, reconciles, other browsers, and the last-write-wins refinement |
| `Reconcile`, `Isolation` | what a `full_state` leaves behind, and that browsers and profiles do not disturb each other |
| `Decimals`, `Crypto`, `Store`, `Database` | sealed private rows, the tables keyed as the schema keys them, and the agent's statements on them |
| `Sessions`, `StoreRuns`, `StoreSafety`, `KeyAges`, `Undo` | the tables refine a store in plain text; readability, frozen snapshots, pruning, key rotation and undo points over whole runs |
| `OfferPending`, `OfferProtocol`, `OfferContent` | who is offered a restore, when, and with which windows and tabs |
| `EndToEnd` | from the delta that reports a tab, through ingest, snapshot and whatever comes after, to the offer that opens it |
| `Planner`, `PlannerProofs`, `PlannerIdempotence` | what the extension creates, given what is already open |
| `Doubles`, `Placement`, `Debounce`, `Utf8`, `Framing`, `CommandLine`, `PathFolding` | algorithms with tight statements |

## What was found

Each of these is proved, and stated exactly rather than avoided.

- Last write wins, over all runs whose events name only some keys, exactly from those states in which the
  rows under these keys fit: a window among them carries the reporting browser (an upsert never rewrites that
  column), a tab is not in the table its private flag excludes (an upsert never clears the other table), and
  has no private row while capture is off (`LastWriteExactly`). What the tables hold of other browsers does
  not matter, nor what others send meanwhile, as long as each names only ids it minted
  (`LastWriteWinsForEach`); it fails there only for an extension that itself names another one's window id.
- A reconcile between sends undoes no event: what it finds pending is applied after it. One that arrives
  during a send, which does not happen where sends do not wait, as in the background script, must still show
  what that flush has already sent (`ReconcileKeepsExactly`).
- An eviction loses something exactly when an event arrived since the send under way began and some batch
  still to go carries a delta that is neither pending again nor already shown by the agent
  (`EvictionExactly`): the mirror that event wrote holds only what came after. Left undisturbed, the next
  worker then ends with wrong rows (`HarmIsSeen`).
- Something pending is left without a timer exactly when a timer ran out during a flush, and no event below
  the limit, failed send, new flush or eviction came after (`StrandedExactly`). A flush lasts until its
  storage write is done, so it needs no slow send: it happens to any delta that arrives while the write of a
  successful flush is waiting, if that write outlasts the delta's two-second timer (`TimerCanBeLost`).
- A reconcile is exact exactly when no payload window is held by another browser (`WindowsExactly`) and no
  row waits in the table the payload does not write, or under a window another browser holds (`TabsExactly`).
  Groups of windows that stay open are never reaped (`GroupsExactly`).
- The same payload twice is the same payload once exactly when no tab or group is last reported under a
  window that was on record for the reporter and that the payload omits (`ReconcileTwice`). Such a row is
  gone after one reconcile and there after two (`OrphanComesBack`), for good (`ThreeTimesIsTwice`).
- Browsers and profiles do not disturb each other as long as they mint distinct ids (`Isolated`). A window id
  that another of them names keeps its browser and takes the other's profile, and its owner loses it exactly
  if the profiles differ (`SharedIdsInterfere`).
- Planning twice is planning once when stored windows share no key (`PlanningIsIdempotent`); for any two
  keys there is a pair of stored windows sharing one of them for which the second plan opens a duplicate
  (`OverlapBreaksIdempotence`).
- An episode that begins with nothing live records no undo point, and its second run takes one after the
  first has changed the session (`EmptyStartIsNotShared`).
- "One offer per browser and profile" is one per profile *key*. An extension that only ever speaks under its
  own key is offered the session at most once, over however many connections (`OncePerExtension`). But a
  connection keeps the key of its first message: for any two keys, an early message under the one, a deferred
  hello, a push and a reconnect under the other make two offers (`EarlyMessageIsOfferedTwice`).
- A claim is spent before the mode, the profile and the payload are looked at, so a claimed offer may never
  be sent; and a session of private windows alone is never offered (`OfferClaimed`).
- The code reads one to three stray bytes at the end of a stream as a clean close, although its comment
  promises that only for a frame boundary (`PartialHeaderIsClosed`). The model follows the code.
- An empty payload is written as a frame that the reader rejects; every other payload that is written is read
  back as it was (`Exchange`).
- Folding a path panics exactly when a set variable ends, in bytes, inside a character of the path and is
  longer than every one the path starts with (`PanicsExactly`), which any of the variables can do
  (`FoldCanPanic`).
- Expanding a folded path gives it back, up to the letter case of the prefix, when every token in the rest of
  it names a variable that is not set; and only then, if no variable's value holds a percent sign
  (`FoldThenExpand`). Whatever the values hold, a single token comes back exactly if its variable is unset
  or spells the token (`TokenComesBack`).
- A change of scaling can come out one unit short of the exact size, only where the division leaves no
  remainder (`RescaledIs`) and the ratio of the densities was itself rounded down (`RoundedUpIsExact`): 45
  from a density of 120 to one of 168 comes out 62 (`OneLessInF64`).

## Model

| member | source | states |
|---|---|---|
| LiveTables.ReadFold | agent/crates/sr-agent/src/server.rs:739-818 | a message touches each window, tab and group key only through the deltas that name it, in order |
| LiveTables.LastIsShown | agent/crates/sr-agent/src/server.rs:739-818 | under every key the tables show the last delta that names it, column by column: each column of the row is that field of the delta, an absent index 0 and an absent address empty |
| Coalescing.LastWins | extension/src/background/outbox.ts:75-90 | for any key whose rows fit, a later delta makes an earlier one irrelevant at the agent |
| Coalescing.OnlyIfItFits | agent/crates/sr-agent/src/server.rs:749-766 | for any key whose rows do not fit, there are two deltas that must not be coalesced |
| Coalescing.FoldRepeats | extension/src/background/outbox.ts:131-143 | resending one delta any number of times among others is applying it once |
| Outbox.Outbox.constructor | extension/src/background/index.ts:162-169 | a new worker generation takes up what the mirror holds, with a timer armed if that is anything |
| Outbox.Outbox.Hydrate | extension/src/background/outbox.ts:53-61 | what is in memory wins over what was stored, key by key, and nothing of either is lost |
| Outbox.Outbox.EnqueueTab | extension/src/background/outbox.ts:75-80 | the last delta per tab is pending and mirrored, or was flushed as the link allowed; what had a timer keeps one |
| Outbox.Outbox.EnqueueWindow | extension/src/background/outbox.ts:82-85 | the last delta per window is pending and mirrored, or was flushed as the link allowed; what had a timer keeps one |
| Outbox.Outbox.EnqueueGroup | extension/src/background/outbox.ts:87-90 | the last delta per group is pending and mirrored, or was flushed as the link allowed; what had a timer keeps one |
| Outbox.Outbox.Touch | extension/src/background/outbox.ts:92-101 | persists before scheduling, schedules below fifty pending and flushes from there on; only then, during a flush, can it leave what is pending without a timer |
| Outbox.Outbox.TimerFires | extension/src/background/outbox.ts:103-109 | the armed timer is used up, by the flush it starts or, during a flush, by nothing |
| Outbox.Outbox.Flush | extension/src/background/outbox.ts:118-147 | does nothing during a flush; otherwise everything pending reaches the agent in batches, or everything is pending again, and the flush goes on until its write is done |
| Outbox.Outbox.Saved | extension/src/background/outbox.ts:134-146 | when the write is done the flush is over, with a timer armed if it had failed and none lost |
| Outbox.Outbox.Evict | extension/src/background/outbox.ts:53-61 | between events, during a flush's write or not, losing the worker and hydrating again loses no delta and arms a timer |
| Outbox.SplitBatches | extension/src/background/outbox.ts:157-177 | batches of two hundred tabs but for the last, windows and groups on the first |
| Outbox.BatchesCarryAll | extension/src/background/outbox.ts:157-177 | the batches carry exactly the pending deltas, each once, two hundred tabs in each but the last |
| Pipeline.SplitCarries | extension/src/background/outbox.ts:157-177 | every pending delta is in some batch and every batched delta is pending |
| Pipeline.RunInv | extension/src/background/outbox.ts:118-147 | every enqueue, flush, send, failure, storage write, harmless eviction, reconcile and message of others keeps the refinement invariant, if the rows the events name fit |
| Pipeline.LastWriteWins | extension/src/background/outbox.ts:75-177 | in every run without a reconcile, whenever nothing is pending or being sent, the agent's tables are the fold of every enqueued delta one by one, if the rows they name fit; the rest of the tables is arbitrary |
| Pipeline.ReconcileThenLastWrite | extension/src/background/index.ts:239-250 | with reconciles in between, they are what the last one left with every delta it found pending and every later one applied one by one |
| Pipeline.ReconcileKeepsExactly | extension/src/background/index.ts:130-144 | a reconcile keeps that between sends always, and during a send if and only if it still shows what the flush has sent |
| PipelineShared.LastWriteWinsForEach | agent/crates/sr-agent/src/server.rs:729-901 | with any number of other browsers and profiles sending meanwhile, each naming only its own ids, every part of the tables is what its own events alone make of it |
| Pipeline.HarmlessExactly | extension/src/background/outbox.ts:92-101 | hydrating from the mirror keeps every enqueued delta if and only if nothing that was still to be sent is lost |
| PipelineLimits.LastWriteExactly | agent/crates/sr-agent/src/ingest.rs:92-214 | over all runs naming only some keys, last write wins if and only if the starting rows under these keys fit |
| PipelineLimits.EvictionExactly | extension/src/background/outbox.ts:53-61 | at any moment of any run an eviction keeps every enqueued delta, unless an event came during the send and some unsent delta is neither pending again nor already shown |
| PipelineLimits.HarmIsSeen | extension/src/background/outbox.ts:92-101 | after any other eviction the next worker, undisturbed, ends with rows that are not the fold of what was enqueued |
| PipelineLimits.StrandedExactly | extension/src/background/outbox.ts:96-120 | in every run something pending has no timer if and only if a timer ran out during a flush and nothing that arms one or flushes came after |
| PipelineLimits.TimerCanBeLost | extension/src/background/outbox.ts:103-147 | after every flush that sent all it had, any delta that arrives before its storage write is done ends up with no timer if its own runs out before that, too |
| PipelineLimits.FlushIsRun | extension/src/background/index.ts:130-144 | a flush, failing at any batch or not at all, is a run of the machine up to its storage write and leaves what the class leaves |
| OutboxRuns.CallIsRun | extension/src/background/outbox.ts:75-147 | every call of the outbox is some steps of the machine, from the state before it to the state after |
| OutboxRuns.SentIsPosted | extension/src/background/outbox.ts:75-177 | for every sequence of calls over links failing anywhere, whenever nothing is pending, applying what was sent gives the fold of every delta posted |
| Reconcile.ReapExactly | agent/crates/sr-agent/src/server.rs:836-901 | an authoritative message takes away exactly the reporter's windows it does not report with all under them, and the tabs it does not report of the others; all other rows stay as they are |
| Reconcile.WindowsExactly | agent/crates/sr-agent/src/server.rs:836-901 | after a reconcile the reporter's windows are exactly the payload's, if and only if none was held by another browser |
| Reconcile.TabsExactly | agent/crates/sr-agent/src/server.rs:861-882 | from any prior state the tab rows under the payload's windows are exactly what the payload alone gives, if and only if no stale row waits in the other table or under a window another browser holds |
| Reconcile.GroupsExactly | agent/crates/sr-agent/src/server.rs:883-897 | the groups under the payload's windows are exact if and only if no unreported group of theirs was stored |
| Reconcile.ReconcileTwice | agent/crates/sr-agent/src/server.rs:729-901 | from any prior state, the same payload twice, whatever the stamps, is the same payload once if and only if no tab or group is last reported under a window on record that the payload omits |
| Reconcile.OrphanComesBack | agent/crates/sr-agent/src/server.rs:853-897 | every row so reported is gone after one reconcile and there after two |
| Reconcile.ThreeTimesIsTwice | agent/crates/sr-agent/src/server.rs:729-901 | from any prior state a third reconcile with the payload changes nothing |
| Isolation.Isolated | agent/crates/sr-agent/src/server.rs:836-901 | in every run of messages from any browsers and profiles, each one's rows are what they would be had it been alone |
| Isolation.SharedIdsInterfere | agent/crates/sr-agent/src/server.rs:752-766 | a window another browser or profile names keeps its browser and takes the other's profile; its owner loses it, and its reconcile leaves it, exactly if the profiles differ |
| Crypto.AadInjective | agent/crates/sr-agent/src/store/crypto.rs:74-76 | no two pairs of tab key and key id share associated data, whatever characters the tab key holds |
| Crypto.OpensOnlyInPlace | agent/crates/sr-agent/src/store/crypto.rs:83-121 | a sealed payload opens under its own data key, tab key and key id and under no other |
| Sessions.ActiveDekIs | agent/crates/sr-agent/src/store/keys.rs:57-96 | a key in use made less than thirty days ago is used again and nothing changes; otherwise a new one is made, dated now, the one in use is retired now, and all others stay |
| KeyAges.SecondCall | agent/crates/sr-agent/src/store/keys.rs:72-93 | whatever key one call gives, a later call gives the same one and leaves the tables alone until thirty days after it was made, and makes another from then on |
| KeyAges.KeysAreSpaced | agent/crates/sr-agent/src/store/keys.rs:57-96 | over every run of the store keys are made at least thirty days apart, and an upsert of a captured private tab makes one if and only if none was made yet or the last one thirty days ago |
| Sessions.SessionTab | agent/crates/sr-agent/src/ingest.rs:92-214 | ingesting a tab, sealing included, does to the live session what the delta says in plain text, and nothing to any snapshot |
| Sessions.SessionMessage | agent/crates/sr-agent/src/server.rs:729-825 | a whole message does the same, reap included |
| Sessions.SessionGc | agent/crates/sr-agent/src/store/keys.rs:111-118 | collecting keys changes no session: every row still opens |
| Sessions.GcDropsUnneeded | agent/crates/sr-agent/src/store/keys.rs:111-118 | a key is collected if and only if it is retired and every session of every snapshot reads the same without it |
| Sessions.SessionSweep | agent/crates/sr-agent/src/ingest.rs:217-228 | a sweep removes exactly the expired private rows, from every snapshot |
| Sessions.SessionPurge | agent/crates/sr-agent/src/ingest.rs:232-238 | a purge removes every private row and nothing else |
| Sessions.SessionCopy | agent/crates/sr-agent/src/store/snapshot.rs:97-105 | a snapshot reads exactly as the live session did, private rows included |
| Sessions.SessionDelete | agent/crates/sr-agent/src/store/snapshot.rs:153-165 | a deleted snapshot leaves no row, and every other session reads as before |
| Sessions.SessionWatch | agent/crates/sr-agent/src/watcher/mod.rs:165-280 | updating the live applications touches nothing else |
| Database.Db.ActiveDek | agent/crates/sr-agent/src/store/keys.rs:57-85 | the method computes the specified key, tables and retirement; the key it gives is on record |
| Database.Db.CreateKey | agent/crates/sr-agent/src/store/keys.rs:87-96 | one key is added, under a fresh id, dated now and in use |
| Database.Db.CollectKeys | agent/crates/sr-agent/src/store/keys.rs:111-118 | deletes exactly the retired keys no row refers to, and reports how many |
| Database.Db.IngestTab | agent/crates/sr-agent/src/ingest.rs:35-110 | each branch, column by column: a normal upsert leaves the delta's columns in one row and all other rows alone, a captured private one a sealed row that opens to them, a remove neither |
| Database.Db.StorePrivateEncrypted | agent/crates/sr-agent/src/ingest.rs:159-197 | one row is written, and opens, under the key on record, to the delta's columns with its time to live |
| Database.Db.RemoveTab | agent/crates/sr-agent/src/ingest.rs:204-214 | a remove takes the key out of both tables |
| Database.Db.IngestWindows | agent/crates/sr-agent/src/server.rs:739-786 | the window loop computes the specified upserts and removes |
| Database.Db.IngestGroups | agent/crates/sr-agent/src/server.rs:792-818 | the group loop computes the specified upserts and removes |
| Database.ReapMore | agent/crates/sr-agent/src/server.rs:861-898 | reaping window by window, in any order, is reaping the set of them |
| Database.Db.ReapMissing | agent/crates/sr-agent/src/server.rs:836-901 | the nested loops delete exactly what the payload no longer reports of the reporter's windows |
| Database.Db.ApplyState | agent/crates/sr-agent/src/server.rs:729-825 | a message, authoritative or not, has the specified effect on the tables |
| EndToEnd.MessageShowsTab | agent/crates/sr-agent/src/server.rs:729-825 | after any message, authoritative or not, the live tables show the last delta of each tab it names, column by column, private ones with their time in hours |
| EndToEnd.MessageShowsWindow | agent/crates/sr-agent/src/server.rs:739-786 | and the last delta of each window, and its reporter unless another browser holds it |
| EndToEnd.MessageShowsGroup | agent/crates/sr-agent/src/server.rs:792-818 | and the last delta of each group |
| Database.Db.SweepExpiredPrivate | agent/crates/sr-agent/src/ingest.rs:217-228 | deletes exactly the expired rows and reports how many |
| Database.Db.PurgeAllPrivate | agent/crates/sr-agent/src/ingest.rs:232-238 | deletes every private row and reports how many |
| Database.Db.CreateFromLive | agent/crates/sr-agent/src/store/snapshot.rs:65-108 | counts, refuses when nothing is live, and otherwise copies table by table under a new id |
| Database.Db.Delete | agent/crates/sr-agent/src/store/snapshot.rs:153-165 | refuses the live state, and otherwise leaves no row and no other change |
| Database.PastNewest | agent/crates/sr-agent/src/store/snapshot.rs:168-180 | selects everything past the newest `keep` unpinned snapshots |
| Database.Db.Prune | agent/crates/sr-agent/src/store/snapshot.rs:168-185 | deletes exactly the selected snapshots and reports how many |
| Database.Db.FindNewestRestorable | agent/crates/sr-agent/src/store/snapshot.rs:111-122 | the newest candidate, never an undo point nor the live state |
| Database.Db.BeginRun | agent/crates/sr-agent/src/restore/mod.rs:473-502 | shares the latest recent run's undo point or takes one, and records the run |
| StoreRuns.RefinesNext | agent/crates/sr-agent/src/store/snapshot.rs:65-108 | every event does to the encrypted tables what it does to a store in plain text |
| StoreSafety.RunRefines | agent/crates/sr-agent/src/store/keys.rs:57-118 | so does every run of messages, rotations, copies, deletes, prunes, sweeps, purges, collections and restores |
| StoreSafety.PrivateRowsReadable | agent/crates/sr-agent/src/ingest.rs:159-197 | over every run: at most one unretired key, every private row's key present, and the row opens to the payload sealed for it |
| StoreSafety.MovedNeverOpens | agent/crates/sr-agent/src/store/crypto.rs:58-76 | a readable blob moved to another tab, or relabelled with another key id, never opens |
| StoreSafety.SnapshotsAreFrozen | agent/crates/sr-agent/src/store/snapshot.rs:1-17 | over every run a snapshot not itself deleted keeps its tables, and loses private rows exactly to expiry sweeps and purges |
| StoreSafety.SnapshotIsLiveAtCreation | agent/crates/sr-agent/src/store/snapshot.rs:97-105 | it stays the live session of the moment it was taken |
| StoreSafety.SnapshotRecords | agent/crates/sr-agent/src/store/snapshot.rs:65-96 | a snapshot is taken if and only if a tab of either kind or an application is live; its one row has that time and kind, is unpinned and counts both |
| StoreSafety.LastTakenIsFound | agent/crates/sr-agent/src/store/snapshot.rs:111-122 | a session just taken is the one found for restoring, if no other candidate is as new |
| StoreSafety.UndoPointIsNeverFound | agent/crates/sr-agent/src/store/snapshot.rs:111-122 | over every run, an undo point is never the one found, however long it is kept |
| StoreSafety.NewestIs | agent/crates/sr-agent/src/store/snapshot.rs:111-122 | found is the newest of all snapshots that are neither the live state nor an undo point |
| StoreSafety.PruneKeeps | agent/crates/sr-agent/src/store/snapshot.rs:168-185 | pruning keeps the live state, everything pinned and exactly the newest unpinned ones, and leaves no orphan row |
| StoreSafety.RunRecords | agent/crates/sr-agent/src/restore/mod.rs:473-502 | a run is recorded under a new id with its snapshot, start, mode and undo point, shared or newly taken |
| Undo.OneUndoPoint | agent/crates/sr-agent/src/restore/mod.rs:462-502 | every further run within the gap shares the first run's undo snapshot, still the live session from just before it |
| Undo.UndoPointOnDisk | agent/crates/sr-agent/src/restore/mod.rs:462-502 | the same of the encrypted tables |
| Undo.EveryRunShares | agent/crates/sr-agent/src/restore/mod.rs:473-502 | over a whole episode every run on record has the first one's undo snapshot, and none after the first takes one |
| Undo.EpisodeEnds | agent/crates/sr-agent/src/restore/mod.rs:481-489 | past the gap a run takes a new undo point, exactly when something is live |
| Undo.EmptyStartIsNotShared | agent/crates/sr-agent/src/restore/mod.rs:474-476 | an episode that began with nothing live gets its undo point too late |
| OfferPending.PendingRestore.constructor | agent/crates/sr-agent/src/server.rs:92-99 | a run with no review waits for nothing |
| OfferPending.PendingRestore.AwaitingReview | agent/crates/sr-agent/src/server.rs:102-107 | a run with a review waits exactly when there is something to restore |
| OfferPending.PendingRestore.ReviewDismissed | agent/crates/sr-agent/src/server.rs:127-133 | dismissal is a refusal, and costs no claim |
| OfferPending.PendingRestore.SetSelection | agent/crates/sr-agent/src/server.rs:136-139 | an answer ends the wait and is kept |
| OfferPending.PendingRestore.Claim | agent/crates/sr-agent/src/server.rs:147-152 | the first claim of a key gets the snapshot, later ones nothing |
| OfferPending.PendingRestore.ConsultPending | agent/crates/sr-agent/src/server.rs:911-939 | one lock section: defer, refuse or claim, in that order, with the selection of that moment |
| OfferPending.ClaimKeyInjective | agent/crates/sr-agent/src/server.rs:149 | different browsers and profiles never share a claim |
| OfferProtocol.StepInv | agent/crates/sr-agent/src/server.rs:233-337 | every step of every connection thread and of the window thread keeps the protocol invariant |
| OfferProtocol.OffersAreSafe | agent/crates/sr-agent/src/server.rs:910-939 | in every interleaving: at most one claim and one offer per browser and profile key, each from a claim with no review open and no refusal, with the selection of that claim |
| OfferProtocol.DeferredIsServed | agent/crates/sr-agent/src/server.rs:914-932 | a deferred key, once the user's last word was not a refusal, is claimed by its next ask with that answer, unless it already was |
| OfferProtocol.ClaimedExactly | agent/crates/sr-agent/src/server.rs:911-939 | in every run a key has its claim if and only if it was at some point asked for with a session to offer, no review open and no refusal |
| OfferProtocol.WaitersAreListed | agent/crates/sr-agent/src/server.rs:311-326 | a deferred connection still open when the targets are listed is among them, if and only if it ever named its browser |
| OfferProtocol.TargetsAreServed | agent/crates/sr-agent/src/server.rs:483-503 | when the push after a confirmed answer is over, every listed target's key has been claimed |
| OfferProtocol.DismissedIsRefused | agent/crates/sr-agent/src/server.rs:127-133 | after a dismissal, until the user answers otherwise, in every run nothing is claimed for any key and every hello is turned away, not kept waiting |
| OfferProtocol.OncePerExtension | agent/crates/sr-agent/src/server.rs:280-324 | in every run in which each extension only speaks under its own key, none is offered the session twice, over any number of connections |
| OfferProtocol.EarlyMessageIsOfferedTwice | agent/crates/sr-agent/src/server.rs:313-324 | for any browser and any two keys, an extension that spoke under one before its hello under the other is offered the session twice |
| OfferContent.EffectiveProfile | agent/crates/sr-agent/src/server.rs:353-398 | an exact match or the only profile stored, and nothing otherwise |
| OfferContent.BuildPayload | agent/crates/sr-agent/src/restore/mod.rs:66-130 | every restorable tab under a normal window on record for the browser and profile, and no other, once, in its window, in order, with the stored columns |
| OfferContent.BuildPrivatePayload | agent/crates/sr-agent/src/restore/mod.rs:137-220 | fails if and only if capture is off or a current private row of the profile does not open; otherwise exactly the private tabs whose time is not up, with the columns they open to |
| OfferContent.NormalPart | agent/crates/sr-agent/src/server.rs:974-988 | of those, exactly the ones whose window is selected and which are named, if any are named |
| OfferContent.PrivatePart | agent/crates/sr-agent/src/server.rs:995-1023 | on request, with capture on and every current row readable, exactly the current private tabs, or those named; otherwise none |
| OfferContent.OfferClaimed | agent/crates/sr-agent/src/server.rs:941-1043 | an offer is sent if and only if the mode allows it, an exact profile or the only stored one resolves, and some restorable tab of it is chosen; it then carries exactly the chosen rows, and a run is opened exactly then |
| OfferContent.OneProfile | agent/crates/sr-agent/src/server.rs:953-967 | every window of an offer was stored under the one browser and profile, and private ones appear only on request |
| EndToEnd.TabIsOffered | agent/crates/sr-agent/src/server.rs:941-1043 | a restorable tab is offered with the address, title, place and flags of its last delta, in its window, after any message, a snapshot and any later events that spare it, if its window is on record for the profile and the review leaves it in |
| EndToEnd.SecretIsOffered | agent/crates/sr-agent/src/server.rs:995-1023 | so is a private tab, on request, while its time is not up and unless a purge or a sweep after its time took it |
| Planner.PlanRestore | extension/src/background/plan.ts:56-112 | the loops over mutable counts compute the plan specified window by window |
| Planner.FindBestMatch | extension/src/background/plan.ts:121-141 | the loop finds the first best unclaimed window over the threshold |
| Planner.TopUp | extension/src/background/plan.ts:95-108 | each wanted tab consumes one open occurrence or is added |
| PlannerProofs.BestMatchExactly | extension/src/background/plan.ts:121-141 | a window is matched if and only if it is the first of the best unclaimed ones and shares three tenths |
| PlannerProofs.ClaimsAreBest | extension/src/background/plan.ts:83-141 | in the whole plan a stored window with usable tabs claims the free open window that shows most of them, first seen first, if three in ten are there, and none otherwise; counted on the stored and the open tabs |
| PlannerProofs.ClaimsDistinct | extension/src/background/plan.ts:96 | no two stored windows claim one open window |
| PlannerProofs.Conservation | extension/src/background/plan.ts:77-109 | each stored tab with a usable key, as often as stored, is in exactly one of new windows, additions and already-open, and no other tab is |
| PlannerProofs.WantedPlaces | extension/src/background/plan.ts:78-80 | wanted of a stored window are all its tabs with a usable key, in order |
| PlannerProofs.NewWindowsExactly | extension/src/background/plan.ts:80-93 | created are exactly the stored windows that claim none and hold a usable tab, in order, each with all its usable tabs in order |
| PlannerProofs.MissingPlaces | extension/src/background/plan.ts:98-107 | added to a claimed window are, in order, exactly the tabs whose key comes before them as often as it is open |
| PlannerProofs.MissingCounts | extension/src/background/plan.ts:98-107 | per key, what is added is the wanted count less the open count |
| PlannerProofs.ExactTopUp | extension/src/background/plan.ts:95-108 | after execution a claimed window shows each key max(open, stored) times, any other open window as before, and no open tab is lost |
| PlannerIdempotence.PlanningIsIdempotent | extension/src/background/plan.ts:56-141 | after executing a plan, planning again creates nothing and counts every stored tab with a usable key as open, if stored windows share no usable key |
| PlannerIdempotence.OverlapBreaksIdempotence | extension/src/background/plan.ts:121-141 | for any two keys there are stored windows sharing one for which it does create |
| Placement.ClampMakesReachable | agent/crates/sr-agent/src/restore/place.rs:93-128 | a clamped window shows at least a title bar's reach and fits the largest work area |
| Placement.ClampLeavesReachable | agent/crates/sr-agent/src/restore/place.rs:112-114 | a window is left alone if and only if it fits and can be grabbed |
| Placement.ClampTwice | agent/crates/sr-agent/src/restore/place.rs:97-128 | clamping is idempotent |
| Placement.ClampMovesLeast | agent/crates/sr-agent/src/restore/place.rs:97-128 | a clamped window takes the smaller of its size and the largest work area's, stays if it can be grabbed, and otherwise moves no further along each axis than it must |
| Placement.OverlapIs | agent/crates/sr-agent/src/restore/place.rs:130-141 | what a display shows of a rectangle is the area of the points they share |
| Placement.ReachableExactly | agent/crates/sr-agent/src/restore/place.rs:97-128 | a window of any size that fits the nearest work area ends up reachable if and only if its area is a title bar's reach; otherwise that is necessary, and the part the work area can hold having it is sufficient |
| Placement.TinyIsCentred | agent/crates/sr-agent/src/restore/place.rs:122-125 | a rectangle with less area than that ends up in the middle of the nearest display's work area, its size kept |
| Placement.DistanceIs | agent/crates/sr-agent/src/restore/place.rs:143-155 | distance is the square of that between the middles, each to within half a unit |
| Placement.NearestIsFirst | agent/crates/sr-agent/src/restore/place.rs:143-155 | of equally near displays the first is taken |
| Placement.BiggestIsLast | agent/crates/sr-agent/src/restore/place.rs:103 | of equally large work areas the last sets the size limit |
| Placement.ClampOnScreen | agent/crates/sr-agent/src/restore/place.rs:97-128 | in 32-bit arithmetic, on 16-bit coordinates, no step overflows and the result is the specified one |
| Placement.VisibleArea32 | agent/crates/sr-agent/src/restore/place.rs:130-141 | the loop finds the largest overlap with any display |
| Placement.Nearest32 | agent/crates/sr-agent/src/restore/place.rs:143-155 | the first display of least squared centre distance, in 64 bits |
| Placement.Map | agent/crates/sr-agent/src/restore/place.rs:37-79 | the stepwise program computes the specified rectangle, for every rounding of its products and quotients |
| Placement.TargetIs | agent/crates/sr-agent/src/restore/place.rs:82-92 | the target is the first display with the stored key; without it the first primary one, however many remain; then the first; none without displays |
| Placement.UnchangedLayout | agent/crates/sr-agent/src/restore/place.rs:37-79 | on an unchanged layout a reachable window comes back exactly where it was |
| Placement.ScaledFits | agent/crates/sr-agent/src/restore/place.rs:52-67 | a window whose display is gone is fitted into the new work area, centred, never enlarged, for every rounding as accurate as `f64` |
| Placement.ScaledIs | agent/crates/sr-agent/src/restore/place.rs:55-67 | it is shrunk by exactly the least of one and the two ratios of sides, both sides alike and to the unit or one less, for every such rounding |
| Placement.RescaledIs | agent/crates/sr-agent/src/restore/place.rs:70-76 | a change of scaling multiplies by the new density and divides by the old, dropping the fraction; rounding can lose one unit, and only where the division leaves no remainder |
| Placement.OneLessInF64 | agent/crates/sr-agent/src/restore/place.rs:70-76 | rounded to nearest with 53 bits, 45 from 120 to 168 comes out 62, one less than exact |
| Placement.RoundedUpIsExact | agent/crates/sr-agent/src/restore/place.rs:70-76 | rounded so, the size is exact unless the ratio of the densities was rounded down |
| Doubles.NearestIsClose | agent/crates/sr-agent/src/restore/place.rs:57-63 | such rounding (section 4.3.1 of IEEE 754) is within the relative error assumed of every product and quotient |
| Placement.Undocked | agent/crates/sr-agent/src/restore/place.rs:27-36 | on one remaining display of the same scaling it lands wholly inside the work area |
| Debounce.Run | agent/crates/sr-agent/src/watcher/events.rs:105-136 | the signals are back-to-back bursts covering every event, each ended by quiet or by the ceiling |
| Debounce.EachEventOnce | agent/crates/sr-agent/src/watcher/events.rs:101-104 | every event is in exactly one burst and is signalled in under twelve seconds |
| Debounce.SignalsSpaced | agent/crates/sr-agent/src/watcher/events.rs:22-23 | consecutive signals are at least the quiet period apart |
| Debounce.SteadyStream | agent/crates/sr-agent/src/watcher/events.rs:25-29 | a stream that never goes quiet is signalled ten seconds or more after each burst began, and less than fourteen after the signal before |
| Debounce.OnlyOneWay | agent/crates/sr-agent/src/watcher/events.rs:113-130 | without exact ties the signals are determined by the events |
| Utf8.DecodeEncode | agent/crates/sr-proto/src/frame.rs:67 | text encoded as UTF-8 (sections 3 and 4 of RFC 3629) decodes to itself |
| Utf8.EncodeDecode | agent/crates/sr-proto/src/frame.rs:67 | bytes that decode are exactly the encoding of what they decode to |
| Utf8.Examples | agent/crates/sr-proto/src/frame.rs:67 | the examples of section 7 of RFC 3629 encode as given there |
| Utf8.ByteLenIs | agent/crates/sr-agent/src/watcher/identity.rs:77 | the length of a text in bytes is that of its encoding |
| Framing.Stream.ReadFrame | agent/crates/sr-proto/src/frame.rs:48-68 | one read consumes and returns what the specification says, in every error case |
| Framing.Stream.WriteFrame | agent/crates/sr-proto/src/frame.rs:74-87 | a payload is written if and only if its bytes are within the limit and 32 bits, as exactly its frame; otherwise it is refused as too large with nothing written |
| Framing.FrameIs | agent/crates/sr-proto/src/frame.rs:83-84 | on the wire a frame is the length in bytes, four bytes, least significant first, and then the bytes |
| Framing.Exchange | agent/crates/sr-proto/src/frame.rs:48-87 | payloads written one after the other through the one method and read through the other come back exactly, then the close; the first empty one, which is written but not read, ends it |
| Framing.ReadsBack | agent/crates/sr-proto/src/frame.rs:48-87 | a frame at the head of a stream reads back as its payload |
| Framing.ReadIsFramed | agent/crates/sr-proto/src/frame.rs:48-68 | whatever is read was framed exactly so: no payload is ever altered |
| Framing.StreamRoundTrip | agent/crates/sr-proto/src/frame.rs:48-87 | a stream of frames reads back as exactly its payloads, then closes |
| Framing.Truncated | agent/crates/sr-proto/src/frame.rs:43-66 | a stream cut anywhere reads back as its whole frames, then `Io` if and only if the cut is inside a body |
| Framing.PartialHeaderIsClosed | agent/crates/sr-proto/src/frame.rs:49-54 | a cut header reads as a clean close, although no such stream was ever written |
| CommandLine.SplitArgs | agent/crates/sr-agent/src/watcher/identity.rs:289-312 | the scanning loop computes the specified arguments |
| CommandLine.SplitJoin | agent/crates/sr-agent/src/watcher/identity.rs:246 | splitting undoes joining for every well-formed argument list |
| CommandLine.SplitIsWellFormed | agent/crates/sr-agent/src/watcher/identity.rs:289-312 | what is split is well-formed, so nothing is lost between the two |
| CommandLine.SplitJoinSplit | agent/crates/sr-agent/src/watcher/identity.rs:233-247 | splitting, joining and splitting again is splitting |
| CommandLine.RedactCommandLine | agent/crates/sr-agent/src/watcher/identity.rs:233-247 | the loop computes the specified text, and reports redaction exactly when an argument was redacted |
| CommandLine.RedactedExactly | agent/crates/sr-agent/src/watcher/identity.rs:249-286 | an argument is changed if and only if it gives a secret's value, has a credential's shape or is an address with a query; it is then cut after the separator, to nothing or after the question mark, and of the rest only the length is kept |
| CommandLine.SecretNames | agent/crates/sr-agent/src/watcher/identity.rs:249-264 | a name is a secret's if and only if, its leading switches removed and in lower case, it is longer than a byte and ends in one of the seventeen keys |
| CommandLine.NamedValueIsCut | agent/crates/sr-agent/src/watcher/identity.rs:259-266 | such a name with a value is stored as the name and how long the value is |
| Decimals.DecimalIsSpelled | agent/crates/sr-agent/src/watcher/identity.rs:266 | lengths are written as the decimal digits that spell them |
| CommandLine.SecretsDoNotShow | agent/crates/sr-agent/src/watcher/identity.rs:226-286 | command lines whose arguments differ only in secrets of one length in bytes (key values, credentials, query strings) are stored as the same text |
| CommandLine.ArgumentsDoNotShow | agent/crates/sr-agent/src/watcher/identity.rs:226-286 | so are two well-formed argument lists, joined |
| CommandLine.TextsDoNotShow | agent/crates/sr-agent/src/watcher/identity.rs:226-312 | so are two texts that differ only in secrets with no quote or space in them |
| CommandLine.LengthShows | agent/crates/sr-agent/src/watcher/identity.rs:266 | two values of one secret are stored alike if and only if their lengths in bytes agree |
| PathFolding.FoldEnv | agent/crates/sr-agent/src/watcher/identity.rs:56-81 | the loops compute the specified fold, or panic where it says so |
| PathFolding.TestIsMatch | agent/crates/sr-agent/src/watcher/identity.rs:76-80 | the test on bytes finds exactly the paths that start with the variable's value up to ASCII case |
| PathFolding.PanicsExactly | agent/crates/sr-agent/src/watcher/identity.rs:76-77 | folding panics if and only if a set variable ends inside a character of the path and is longer than every one the path starts with |
| PathFolding.FoldCanPanic | agent/crates/sr-agent/src/watcher/identity.rs:76-77 | whichever variable it is, there are a value and a path for which it does |
| PathFolding.LongestPrefixFolds | agent/crates/sr-agent/src/watcher/identity.rs:51-81 | the longest beginning that is one of the seven variables' values, in bytes and up to ASCII case, becomes that variable's token, the rest unchanged; a path that begins with none is kept |
| PathFolding.ExpandEnv | agent/crates/sr-agent/src/restore/launch.rs:177-208 | the loop computes the specified expansion |
| PathFolding.FoldThenExpand | agent/crates/sr-agent/src/restore/launch.rs:173-208 | expanding a folded path gives it back up to the letter case of the prefix if every token in the rest names an unset variable, and only then if values hold no percent sign; exactly if and only if the prefix is spelled as in the environment |
| PathFolding.TokenComesBack | agent/crates/sr-agent/src/restore/launch.rs:181-201 | whatever the values hold, a path whose rest has one token comes back if and only if its variable is unset or spells the token |

## Left out

- `orderForCreation`, `normalizeUrl`, `isRestorable`: the first is a library sort of a copy; the others are parameters or flags of the model.
- Creating windows and tabs in the browser: the planner's plan is executed as if every creation succeeds.
- `displays` and desktop `windows` tables: copied and deleted by the same statements as the five tables modelled.
- `updated_at`, labels, machine ids and topology hashes: written and never read by the modelled code.
- JSON, DPAPI, SQLite, `secure_delete` and VACUUM: messages are datatypes, key wrapping is the identity, tables are maps, statements succeed.
- AES-256-GCM: an ideal AEAD with the contract of sections 2.1 and 2.2 of RFC 5116; random keys and nonces are parameters.
- `restore_items` (`record_items`, `apply_result`, `record_app_outcomes`): settled by one insert per item; the restore run itself is modelled.
- Closing tabs by URL on undo, application launching, tier assignment, title filtering and document matching: each is one branch or one short loop.
- Dropping pending private deltas when capture is turned off mid-session (`dropPendingPrivate`): the capture setting is constant during a run.
- A failing `persist`: storage writes succeed, as in the background script, which ignores their failure, and take effect when issued; only their completion is waited for.
- Delivery from an old connection overtaking a newer one: sends of one outbox arrive in the order they were made.
- Pipeline.LastWriteWins: the private flag of a tab key and the capture setting are constant during a run, as the extension guarantees per tab.
- OfferProtocol.WaitersAreListed: a write to a connection that has just closed may still fail; listing and claiming are what is proved.
- Debounce.Run: a channel that closes during a burst drops that burst, and processing takes no time.
- `to_lowercase` of arguments: a parameter.
- Placement.Map: the positions and sizes between its steps are unbounded; only `ClampOnScreen` is also proved in machine arithmetic.
- Placement.RescaledIs: a size times a density is below 2 to the 51; beyond it the rounding error can exceed one unit.
