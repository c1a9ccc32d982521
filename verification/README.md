# yttt in Dafny

This project models the parts of yttt, a desktop workspace whose windows, terminals and settings may live on a
remote Host, where a mistake would be hardest to see: protocols whose steps interleave, texts that are written by
one function and read back by another, and transformations that must not change what a file means. Each part is a
model of the code's own branches, limits and error cases, with proofs about every input or every run. Nothing here
was executed; the proofs are checked by the Dafny verifier (`dafny verify dfyconfig.toml`).

Code that changes things step by step keeps that form: loops are methods with loops, objects that update their
fields are classes. Each such method is proved against a function or predicate, and the lemmas are about that
function. A protocol is a set of steps on a state; `ValidRun` says that a list of steps can happen, and the theorems
speak of the state at the `End` of every such list.

## The parts

- **Configuration cache** (`config_cache.dfy`, `config_cache_protocol.dfy`, `config_cache_operations.dfy`,
  `config_cache_drops.dfy`). The critical sections of `HostStorage` are the methods of a class; the protocol
  interleaves them with Host answers, change notifications and background refreshes. The Host keeps every version of
  every document. The operations are also written out as they come to when nothing is interleaved, and the last file
  asks what a dropped entry may leave in flight.
- **Tunnel recovery** (`tunnel.dfy`, `tunnel_progress.dfy`). Any number of callers of `connect_tunnel`, one gate,
  sessions that die at any moment: what never happens, and that everyone can still get through.
- **Lossy event bridges** (`agent_bridge.dfy`, `pane_bridge.dfy`, `layout_signal.dfy`). A source, a broadcast ring of
  any capacity that drops what is read too late, and the three loops that recover from it. Agents are reported, cleared
  and forgotten with a new Host epoch.
- **The workbench** (`agent_workbench.dfy`, `agent_workbench_runs.dfy`) listens to the agent bridge. It keeps three
  things apart: the epoch it knows, for each agent the newest report it accepted in that epoch, and what each pane
  shows. A newer epoch forgets the reports accepted and leaves the panes; a clearing empties the pane and leaves the
  report. It starts with a reading of the cache of its own, before the bridge sends anything.
- **Confirmed termination** (`terminate_many.dfy`), **leases** (`session_coordinator.dfy`) and **saving settings**
  (`settings_save.dfy`): one operation each, and for the last two every interleaving of many.
- **Settings scopes** (`settings_scope.dfy`, `settings_fields.dfy`). The filter that splits one TOML tree into a Device
  and a Host file, and the settings that a save compares and a merge copies.
- **Key bindings** (`keybindings.dfy`, `keybindings_sequences.dfy`, `keybindings_layers.dfy`,
  `keybindings_migration.dfy`, `keybindings_dispatch.dfy`). Key sequences and what single entries do; the migration to
  sparse overrides, against both ways in which bindings are compiled: for the keys that the application installs, where
  a binding replaces any other of the same keys and context, and for the listing in the settings, where it does not.
  The compiled bindings are a list; a key runs the last of them that answers in the active contexts.
- **Texts** (`text.dfy` for the operations of Rust's standard library): bar templates (`bar_template.dfy`,
  `bar_template_tokens.dfy`, `bar_template_round_trip.dfy`), the SSH field (`ssh_command.dfy`) and the Windows login
  command line (`windows_arguments.dfy`).
- **Changelog** (`changelog.dfy`, `changelog_forms.dfy`, `changelog_check.dfy`, `changelog_release.dfy`,
  `changelog_repair.dfy`). What passes the check that a release must pass; archiving and repairing a
  release, against that check. A text is the list of its lines.
- **Screenshots** (`png.dfy`, `png_image.dfy`, `image_compare.dfy`). PNG scanlines (section 9 of the W3C PNG
  specification, section 6 of RFC 2083), whole images, and the comparison of regions.

## What turned out not to hold

Each of these is a lemma with a concrete input or run, and the lemma named last gives the exact condition.

- Dropping a cached configuration entry while one of its refreshes is in flight breaks the generation discipline of
  the new entry, and an answered refresh can then undo a write, in a run from the start
  (`ReadYourWritesFailsAfterADrop`; exactly when the discipline survives: `DropIsSafeExactlyWhenQuiet`, and when
  reading one's own writes does: `ReadYourWritesSurvivesExactly`).
- Removing a directory keeps the known revisions, so that writing a removed document again is refused
  (`RemovedDirectoryBlocksAWrite`; exactly which writes are: `WriteAfterRemoveDirectoryLandsExactly`).
- A lag that the agent bridge cannot answer with a snapshot can lose an update (`UnansweredLagLosesAnUpdate`; exactly
  when: `UnansweredLagIsHarmlessExactly`).
- A lag that is answered can still leave the workbench with an agent that is gone, because it ignores a reset of the
  epoch it knows (`DroppedClearingLeavesAnAgent`), or without an agent that the cache has, because a clearing left in
  the ring empties the pane after the replay and the report that follows it was accepted already
  (`LeftClearingLosesAnAgent`; exactly when, also for the reading of the cache at the start:
  `ReadingIsHarmlessExactly`).
- Without any lag, the workbench does not show an agent that is reported again as it was before it was cleared
  (`RepeatedReportIsNotShown`; exactly when: `ReportIsHarmlessExactly`), and over a new Host epoch a pane goes on
  showing an agent of the old one (`NewEpochLeavesAnAgent`; exactly when all that is shown is what the Client has:
  `ShowsNothingOlderExactly`).
- A layout that the Client forgets is not signalled (`ForgettingIsNotSignalled`; exactly when a reader at rest is up
  to date: `NoLostWakeup`).
- A bar template that is accepted may be refused in the canonical form in which it is saved
  (`FullTemplateDoesNotReadBack`; exactly when: `CanonicalReadsBack`).
- With a negative channel threshold every pixel counts as changed, but rows that are equal in both images are not
  counted (`SameImageAtNegativeThreshold`; exactly when: `ExactUnlessNegativeThreshold`).
- Repeated ids among the workspaces to restore give one workspace to two windows (`DuplicateIsLeasedTwice`; exactly
  when: `UniqueExactlyWhenDistinct`).
- A list of key bindings that repeats a default after unbinding or overriding it loses that default when it is
  migrated (`RebindingADefaultIsLost`, `OverriddenDefaultIsLost`; exactly when: `MigrationPreservesBindings`).
- A key that answers to an added binding and, in another context or another spelling, to a default listed after it runs
  the default before the migration and the added command after it, though both stay bound
  (`OvertakenDefaultRunsAnother`, `WindowKeyRunsAnother`; exactly when: `MigrationPreservesDispatch`, and for one key
  in given contexts: `KeyRunsAlikeExactly`).
- Repairing a release whose Unreleased body opens with an indented `## ` line makes a heading of that line
  (`IndentationHidesAHeading`), and the repaired text then fails the check (`IndentedBodyLeavesNoNotes`; exactly when:
  `RepairedMeetsTheCheck`).
- The SSH field accepts an empty host before a port (`EmptyHostIsAccepted`; exactly when:
  `AcceptedWithoutHostExactly`), and does not read back every field it writes (exactly which: `FieldRoundTrip`).
- Two Device saves from one baseline can both succeed if a third puts the baseline back in between
  (`RestoringLetsAStaleSaveThrough`; exactly when: `SharedBaselineExactly`, and which saves can be committed at all:
  `CommitOrdersExactly`).

## Model

| member | source | states |
|---|---|---|
| ConfigCache.HostStorage.CachedConfig | src/host_storage.rs:104-122 | a hit returns the cached bytes only for a remote Host; it launches a refresh of the entry's generation exactly when the entry is old and none is recorded, and changes nothing else |
| ConfigCache.HostStorage.CacheConfig | src/host_storage.rs:124-147 | storing a document replaces the entry, clears its refresh and moves to the next generation, or to 0 for a path not cached; nothing happens for a local Host |
| ConfigCache.HostStorage.RecordAnswer | src/host_storage.rs:260-296 | the end of a read, write or removal sets the known revision and the cached document together |
| ConfigCache.HostStorage.FollowChange | src/host_storage.rs:567-607 | a change launches one refresh for every entry that has none, and lists each once with its generation |
| ConfigCache.HostStorage.CompleteRefresh | src/host_storage.rs:609-634 | a finished refresh is applied only to an entry of its own generation, and keeps that generation |
| ConfigCache.HostStorage.RemoveDirectory | src/host_storage.rs:491-499 | every entry at the directory or anywhere below it is dropped and every other stays as it was; known revisions stay |
| ConfigCache.HostStorage.RenameDirectory | src/host_storage.rs:500-514 | entries and revisions at or below either name are dropped, and every other stays as it was |
| ConfigCache.RemovalForgetsWhatIsInside | src/host_storage.rs:491-499 | after a removal no path that continues the directory is cached, and paths that do not begin with all of its components are untouched |
| ConfigCache.RenameForgetsWhatIsInside | src/host_storage.rs:500-514 | the same for both names of a rename, for cached documents and for known revisions |
| ConfigCacheOperations.ReadAlone | src/host_storage.rs:260-282 | an undisturbed read leaves the Host's current document cached in the next generation and its revision known |
| ConfigCacheOperations.WriteIsSent | src/host_storage.rs:339-380 | a write is made with the cached revision, or else the known one, and is accepted if and only if that is the revision of the Host's current document |
| ConfigCacheOperations.WriteAlone | src/host_storage.rs:339-380 | an accepted write adds one version to that document alone, which is then cached and known |
| ConfigCacheOperations.FirstWriteReads | src/host_storage.rs:339-380 | a write without a known revision reads first |
| ConfigCacheOperations.RemovalIsSent | src/host_storage.rs:449-490 | a removal is made with the known revision and accepted if and only if that is the Host's |
| ConfigCacheOperations.RemoveAlone | src/host_storage.rs:449-490 | an accepted removal adds a version in which the document does not exist, which is then cached and known |
| ConfigCacheOperations.NothingToRemove | src/host_storage.rs:449-490 | the removal of a document known not to exist is refused at once and changes nothing |
| ConfigCacheOperations.FirstRemoveReads | src/host_storage.rs:449-490 | a removal without a known revision reads first, and ends there when the document does not exist |
| ConfigCacheOperations.RenameAlone | src/host_storage.rs:500-514 | a rename leaves the Host as the Host made it and forgets everything inside both names |
| ConfigCacheOperations.FailedAlone | src/host_storage.rs:260-282 | a read or rename that fails changes nothing |
| ConfigCacheOperations.RefreshAlone | src/host_storage.rs:104-122 | an old hit, its refresh and the answer put the Host's current document into the same generation, or leave the entry as it was when the refresh failed |
| ConfigCacheOperations.QuietHit | src/host_storage.rs:104-122 | a hit on an entry that is fresh, or whose refresh is under way, changes nothing |
| ConfigCacheOperations.NotifyAlone | src/host_storage.rs:567-607 | a notification marks every entry and launches one refresh of its generation for exactly those that had none |
| ConfigCacheProtocol.StepKeeps | src/host_storage.rs:104-146 | every step that does not drop a path's refresh in flight keeps the discipline of that path: one refresh at most per generation, none older than the entry it may replace, and an entry never older than the last returned write |
| ConfigCacheProtocol.RunKeeps | src/host_storage.rs:104-146 | the same over every run |
| ConfigCacheProtocol.ReadYourWrites | src/host_storage.rs:339-490 | after a write or removal returned, in every interleaving, the cached entry is a document the Host really held at that version or a later one, with the matching revision, until a drop meets a refresh in flight |
| ConfigCacheProtocol.StepForward | src/host_storage.rs:609-634 | within one generation no step replaces a version by an older one |
| ConfigCacheProtocol.OnlyDropsUncache | src/host_storage.rs:491-513 | a step takes a path out of the cache if and only if it removes a directory around it or finishes a rename that covers it |
| ConfigCacheProtocol.SingleFlightAndForward | src/host_storage.rs:104-146 | between drops the refreshing flag stands for exactly one refresh of the entry's generation, and versions never go back within a generation |
| ConfigCacheProtocol.DropInFlightBreaks | src/host_storage.rs:491-513 | from any state in which a dropped path still has a refresh in flight, some run breaks the discipline |
| ConfigCacheProtocol.DropIsSafeExactlyWhenQuiet | src/host_storage.rs:491-513 | dropping an entry keeps the discipline for good if and only if none of its refreshes is in flight, or a rename that the Host has made is about to drop the entry once more |
| ConfigCacheProtocol.WriteLands | src/host_storage.rs:339-380 | a write from the state that the client knows always has a run in which it lands, adds one version and moves to the next generation |
| ConfigCacheProtocol.DropInFlightUndoesAWrite | src/host_storage.rs:491-513 | with an answered refresh left in flight by a drop, some run ends with the cache older than a returned write |
| ConfigCacheProtocol.DropInFlightIsReachable | src/host_storage.rs:104-122 | from the start, two reads, an old hit, its answer and a drop lead to such a state, for every Host and path |
| ConfigCacheProtocol.ReadYourWritesFailsAfterADrop | src/host_storage.rs:491-499 | a whole run from the start that ends with the cache older than a returned write |
| ConfigCacheProtocol.WriteAfterRemoveDirectoryLandsExactly | src/host_storage.rs:491-499 | after a directory is removed, in every run until the revision of a path is recorded or forgotten, a write of it is accepted if and only if the remembered revision is that of the Host's current document |
| ConfigCacheProtocol.RemovedDirectoryBlocksAWrite | src/host_storage.rs:339-380 | a run from the start to a write that is refused because the document is gone and its old revision is remembered |
| ConfigCacheProtocol.ReadLetsWritesLand | src/host_storage.rs:260-282 | one direct read of a dropped document makes a write of it land, whatever was remembered |
| ConfigCacheDrops.ReadYourWritesSurvivesExactly | src/host_storage.rs:491-513 | after any clean run, a dropped entry leaves the cache showing a Host document at the version last written or later, in every later clean run, if and only if each refresh in flight has failed, or a rename is about to drop the entry once more, or it has the first generation, was not answered with something older, and the next entry comes from an answer already asked for or after a rename that forgot the revision |
| ConfigCacheDrops.StepSafe | src/host_storage.rs:609-634 | every clean step keeps refreshes in flight harmless: failed, of a generation already replaced, or not older than what was written |
| ConfigCacheDrops.WriteMadeToLand | src/host_storage.rs:339-380 | with any remembered revision there is a run in which a write lands at the next generation, because other clients can bring back that document |
| Tunnel.RebuildsAtMostDeaths | src/remote_host.rs:241-270 | over every interleaving of callers, rebuilds never outnumber deaths of sessions |
| Tunnel.RebuildReplacesDeadSession | src/remote_host.rs:246-261 | whoever rebuilds saw an open fail on the current session, and that session is dead |
| Tunnel.RecoveryNeverOverlaps | src/remote_host.rs:249-282 | two calls never rebuild or start the Server at the same time |
| Tunnel.EveryCallIsBounded | src/remote_host.rs:241-282 | each call makes at most 4 opens, 1 rebuild and 1 start of the Server, each prompted by the answer before it |
| TunnelProgress.NobodyIsStuck | src/remote_host.rs:241-282 | in every reachable state a call that has not ended can go on, or waits for the gate behind one that can |
| TunnelProgress.StepAdvances | src/remote_host.rs:241-282 | whatever the answer, a step brings its call nearer to its end and leaves every other call alone |
| Tunnel.CountsAreMultiplicities | src/remote_host.rs:241-282 | the counted opens, rebuilds and starts are how often a call asked for each |
| TunnelProgress.EveryoneCanConnect | src/remote_host.rs:241-282 | from every reachable state there is a run after which all calls under way have ended connected |
| TunnelProgress.OneRebuildServesBoth | src/remote_host.rs:252-269 | a run from the start in which two callers see the session fail, one rebuilds it, and the other only opens again |
| TunnelProgress.RefusalStartsTheServer | src/remote_host.rs:249-282 | a run from the start in which a refused open starts the Server and is tried once more |
| Tunnel.ControlKept | src/remote_host.rs:241-282 | every step keeps the agreement of counter, gate, sessions and callers |
| Tunnel.LogsKept | src/remote_host.rs:241-282 | every step keeps each call's requests in an order that its code can produce |
| Tunnel.TunnelConnector.ConnectTunnel | src/remote_host.rs:241-270 | one call's requests are of the form that the protocol allows a finished call; a stalled session is rebuilt at once, or opened again when another call rebuilt it |
| Tunnel.TunnelConnector.RebuildAndOpen | src/remote_host.rs:261-269 | a rebuild is counted when it succeeds, and then opened once |
| Tunnel.TunnelConnector.StartServerAndOpen | src/remote_host.rs:272-282 | the Server is started once and opened once when that succeeds |
| AgentBridge.ConvergesUnderLag | src/host_runtime.rs:114-151 | whatever was reported, cleared or reset by a new Host epoch, and whatever was dropped, a listener that acts on clearings and resets ends with exactly the agents and reports in the Client's cache |
| AgentBridge.RunKeeps | crates/yttt-client-core/src/lib.rs:1565-1601 | at every moment, what is ahead of the listener takes it to the cache, and hearing any tail of the events again on top of the cache changes nothing |
| AgentBridge.StepKeeps | crates/yttt-client-core/src/lib.rs:1281-1288 | every report, clearing, new epoch, broadcast, lag and replay keeps that |
| AgentBridge.GenerationComesFirst | src/host_runtime.rs:114-151 | of two reports of one Host epoch the one of the later generation counts whatever their sequence numbers, and within a generation the one with the higher number |
| AgentBridge.EpochComesFirst | src/host_runtime.rs:114-151 | of two reports of different Host epochs the one of the later epoch counts, whatever their generations and sequence numbers |
| AgentBridge.WorkbenchAccepts | src/runtime/agent_manager.rs:91-107 | the workbench accepts and shows a report of its epoch if and only if the agent has no cursor, the generation is later, or it is the same and the sequence number higher |
| AgentBridge.WorkbenchFollowsEpochs | src/ui/workbench/agent_process_monitor.rs:67-88 | a report or a reset of a newer Host epoch forgets all cursors and no pane; of an older one it does nothing |
| AgentBridge.ClientAcceptsExactly | crates/yttt-client-core/src/lib.rs:1575-1600 | the Client caches a report if and only if its agent has none or it outranks that one by generation and then sequence |
| AgentBridge.SubscribesFromNow | src/runtime/agent_hooks/mod.rs:38-56 | a bridge that subscribes hears the next event that is broadcast and none before it |
| AgentBridge.ReceivesOrLags | src/host_runtime.rs:114-151 | the next event is received while the ring holds it and noticed as a lag once it has been dropped, never both |
| AgentBridge.LagIsAnswered | src/host_runtime.rs:125-143 | a lag is answered if and only if the Client knows a Host epoch, with a reset to it and then the whole cache |
| AgentBridge.UnansweredLagIsHarmlessExactly | src/host_runtime.rs:125-143 | every later run recovers from a lag that was not answered if and only if a new Host epoch is about to reset everything, or for each agent the dropped events change nothing, are removed by one that is left, or are outdone by a report that is left |
| AgentBridge.UnansweredLagLosesAnUpdate | src/host_runtime.rs:125-128 | a run from the start in which one lag without a snapshot leaves the listener without an agent forever |
| AgentWorkbench.AcceptedExactly | src/runtime/agent_manager.rs:91-107 | a report is accepted after a list of events if and only if it is newer than the cursor and than every report of the agent in the list |
| AgentWorkbench.ClearingStays | src/ui/workbench/agent_process_monitor.rs:90-124 | once the newest report was accepted, a clearing still to be heard empties the pane for good |
| AgentWorkbench.ReplayedExactly | src/host_runtime.rs:125-143 | after a snapshot of the cache and what is left in the ring, the panes show the cache if and only if no cached agent is cleared by what is left, each is newer than its cursor or shown already, and each shown agent that is not cached is cleared by what is left |
| AgentWorkbenchRuns.SafeStepWorks | src/ui/workbench/agent_process_monitor.rs:67-190 | every step but an untimely reading of the cache, a report that does not pass or a lag not answered keeps what is ahead of the workbench enough to take it to the Client's agents |
| AgentWorkbenchRuns.ConvergesAtWork | src/ui/workbench/agent_process_monitor.rs:67-190 | when every reading of the cache is in time and every report passes, the workbench ends with exactly the Client's agents of the current Host epoch, whatever was dropped |
| AgentWorkbenchRuns.ReadingIsHarmlessExactly | src/runtime/agent_hooks/mod.rs:38-56 | after a reading of the cache, at the start or after a lag, every safe later run that ends shows the cache if and only if a newer epoch or a new lag is about to follow, or the reading makes up for all that was missed |
| AgentWorkbenchRuns.ReachedReadingIsHarmlessExactly | src/host_runtime.rs:125-143 | the same in every state that a run from the start leads to |
| AgentWorkbenchRuns.ReportIsHarmlessExactly | src/runtime/agent_manager.rs:91-107 | while the workbench is right and in touch, a new report is harmless if and only if it is newer than the cursor and than every report still ahead |
| AgentWorkbenchRuns.RecoversExactly | src/ui/workbench/agent_process_monitor.rs:67-190 | every safe later run that ends shows the cache if and only if what is ahead of the workbench takes it there |
| AgentWorkbenchRuns.ShowsNothingOlderExactly | src/ui/workbench/agent_process_monitor.rs:67-88 | the panes show just the cache if and only if none of them shows an agent of an older epoch |
| AgentWorkbenchRuns.DroppedClearingLeavesAnAgent | src/ui/workbench/agent_process_monitor.rs:67-88 | a run from the start in which every lag is answered and the workbench keeps an agent that is gone |
| AgentWorkbenchRuns.LeftClearingLosesAnAgent | src/runtime/agent_manager.rs:91-107 | a run from the start in which every lag is answered and the workbench ends without an agent that is cached |
| AgentWorkbenchRuns.RepeatedReportIsNotShown | src/runtime/agent_manager.rs:91-107 | a run without lags that ends without an agent that was reported again as before it was cleared |
| AgentWorkbenchRuns.NewEpochLeavesAnAgent | src/ui/workbench/agent_process_monitor.rs:67-88 | a run without lags in which a pane still shows an agent of the old epoch |
| PaneBridge.Bridge.Take | src/host_runtime.rs:163-192 | which messages a received event leads to, and when the metadata is read again |
| PaneBridge.Bridge.Refresh | src/host_runtime.rs:193-208 | metadata is sent exactly when it exists and its key differs from the last one |
| PaneBridge.EventAlone | src/host_runtime.rs:163-192 | a pane event that is broadcast and received is passed on as it is, and any other event is not |
| PaneBridge.ChangeIsNoticed | src/host_runtime.rs:163-208 | changed metadata is announced, and the bridge then has it to read |
| PaneBridge.ReadingAlone | src/host_runtime.rs:193-208 | metadata that is read is sent exactly when it exists and its key is not the one sent last |
| PaneBridge.LagAlone | src/host_runtime.rs:179-192 | a lag sends Resync, forgets the key sent last and goes on with the oldest event that is kept |
| PaneBridge.PaneStreamIsFaithful | src/host_runtime.rs:155-209 | two metadata messages with no Resync between them have different keys, and after the last Resync no pane event is missing, repeated or out of order |
| PaneBridge.NoStalePane | src/host_runtime.rs:155-209 | when everything broadcast is handled, the last metadata sent is the current one |
| PaneBridge.LagResyncsThenRefreshes | src/host_runtime.rs:179-208 | in every run after a lag the next message is Resync, and right behind it stands the metadata that is read next, even when its key did not change |
| LayoutSignal.SignalBridge.Take | src/host_runtime.rs:667-678 | a layout change of the watched workspace or a lag fills the one-slot channel, everything else leaves it alone |
| LayoutSignal.EventAlone | src/host_runtime.rs:667-678 | an announced change of the watched layout fills the channel, and any other event leaves it as it was |
| LayoutSignal.OfferAlone | crates/yttt-client-core/src/lib.rs:1636-1672 | an offered revision is held and announced if and only if nothing is held or it is newer |
| LayoutSignal.NoLostWakeup | src/host_runtime.rs:660-681 | when everything is broadcast and drained and no signal is pending or taken, the reader is up to date if and only if the Client holds a layout or the reader has seen none |
| LayoutSignal.ForgettingIsNotSignalled | crates/yttt-client-core/src/lib.rs:1759-1762 | a new Host epoch can leave the reader with a layout that the Client forgot, with nothing to wake it |
| LayoutSignal.QuiescentReaderSawEveryOffer | crates/yttt-client-core/src/lib.rs:1636-1672 | at rest, while the Client holds a layout the reader has seen it, and it is of a later epoch than any revision ever offered or of the same and not older; only forgetting leaves the Client without one |
| TerminateMany.AcceptedIsBijection | src/host_runtime.rs:843-852 | the accepted answers are exactly the permutations of the acknowledgements asked for |
| TerminateMany.RepeatedIdsWouldLetStrangersIn | src/host_runtime.rs:843-852 | with a repeated request id the same check would accept a foreign result |
| TerminateMany.StoppableExactly | src/host_runtime.rs:807-824 | a session can be asked to stop if and only if its first placement in the catalog is starting or running |
| TerminateMany.AddressedExactly | src/host_runtime.rs:824-831 | a request carries the epoch of the Host and that of the first placement of its session |
| TerminateMany.AskedInOrder | src/host_runtime.rs:807-831 | what is asked keeps the order in which the sessions were named |
| TerminateMany.AskedKeepsMultiplicity | src/host_runtime.rs:807-831 | a session is asked as often as it was named, if the Host lists it first as neither exited nor failed, and otherwise never |
| TerminateMany.Runtime.BuildRequests | src/host_runtime.rs:807-831 | requests are for the sessions that have neither exited nor failed, in order, with the catalog's epochs and strictly increasing ids, whatever ids other callers take meanwhile |
| TerminateMany.Runtime.TerminateManyConfirmed | src/host_runtime.rs:800-854 | success means that the results are a permutation of what was asked; each failure of the Host has its own error, and nothing is sent for an empty list |
| SessionCoordinator.Coordinator.Claim | src/session_coordinator.rs:70-95 | a claim is refused exactly for a preferred workspace with an open view, without a change; otherwise the id is no longer pending and its view is clean |
| SessionCoordinator.Coordinator.DocumentsSynced | src/session_coordinator.rs:113-121 | an error is some view's error; without one the answer is whether no view has unsynced edits |
| SessionCoordinator.Coordinator.constructor | src/session_coordinator.rs:56-68 | only workspaces to be restored are pending, in order; no view is open, and there is history when there was any workspace |
| SessionCoordinator.Coordinator.RemovePendingWorkspace | src/session_coordinator.rs:109-111 | every pending entry of the id goes, the order of the others stays |
| SessionCoordinator.Lease.ReportDocuments | src/session_coordinator.rs:36-44 | a report replaces the state of its own view, if that is still open |
| SessionCoordinator.Lease.Drop | src/session_coordinator.rs:47-52 | closing a window removes its view only |
| SessionCoordinator.RestorableInOrder | src/session_coordinator.rs:56-68 | the workspaces to restore of two lists one after the other are those of the first and then those of the second |
| SessionCoordinator.PreferredAlone | src/session_coordinator.rs:70-95 | a claim of a preferred workspace opens it clean and takes it from the pending ones, or changes nothing when it is open |
| SessionCoordinator.RestoringAlone | src/session_coordinator.rs:70-95 | a restoring claim opens the first pending workspace; any other claim, or one with none pending, opens a new one |
| SessionCoordinator.WindowAlone | src/session_coordinator.rs:36-52 | a report sets the state of its own view and a closed window takes its view away, each leaving every other window alone |
| SessionCoordinator.LeasesAreUnique | src/session_coordinator.rs:36-121 | over every run from distinct ids, live leases have different ids, the views are exactly theirs with what they last reported, and a claimed id is never pending again |
| SessionCoordinator.SyncedMeansEveryWindowIs | src/session_coordinator.rs:113-121 | Ok(true) is answered exactly when every live window last reported stored edits and no failure, an error exactly when one reported a failure |
| SessionCoordinator.UniqueExactlyWhenDistinct | src/session_coordinator.rs:56-95 | leases are unique in every run if and only if the ids to restore are distinct |
| SessionCoordinator.DuplicateIsLeasedTwice | src/session_coordinator.rs:70-95 | two equal pending ids are both handed out by restoring in order |
| SettingsScope.LeafSurvivesInItsScope | src/config/scope.rs:624-648 | a leaf survives with path and value exactly in the scope of the first concrete setting on its path, and in every scope when there is none |
| SettingsScope.LeafSurvivesOnce | src/config/scope.rs:624-652 | a leaf survives exactly one of the two filters if and only if it lies at or under a concrete setting |
| SettingsScope.FiltersPartitionLeaves | src/config/scope.rs:624-652 | the two filters split the leaves of a tree if and only if every leaf is covered by a concrete setting |
| SettingsScope.FilterIsIdempotent | src/config/scope.rs:624-648 | filtering twice is filtering once |
| SettingsScope.ScopesDoNotOverlap | src/config/scope.rs:624-648 | filtering one scope's output by the other leaves nothing |
| SettingsScope.FilesRestoreTheTree | src/config/scope.rs:616-648 | the two files laid over each other are the whole tree if and only if no table outside the concrete settings is empty |
| SettingsScope.SectionsHaveOneScope | src/config/scope.rs:99-120 | whole sections belong to one scope, for every key they may hold |
| SettingsScope.OwnedBySetting | src/config/scope.rs:624-652 | what lies below a setting of a section, however deep, belongs to that setting |
| SettingsScope.SectionsAreNoSettings | src/config/scope.rs:650-652 | no section is a setting as a whole but the bars |
| SettingsScope.LanguageServerIsOneSetting | src/config/scope.rs:650-652 | the table of the language server belongs to the Host with all that it holds |
| SettingsFields.ScopeOfField | src/config/scope.rs:32-120 | the scope of every setting by its full name |
| SettingsFields.HostComparesItsScope | src/config/scope.rs:440-453 | a save sees changed Host settings exactly when a setting of the Host's scope differs |
| SettingsFields.DeviceComparesItsScope | src/config/scope.rs:455-496 | a save sees changed Device settings exactly when a setting of the Device's scope other than the bars differs |
| SettingsFields.MergeTakesItsScope | src/config/scope.rs:324-381 | the merge takes each setting of the Device's scope other than the bars from the Device, and leaves every other setting |
| SettingsFields.MergedComparesAsUnchanged | src/config/scope.rs:324-496 | merged settings have no change of the Device's to save against the Device's settings, and none of the Host's against the settings merged into |
| SettingsSave.SettingsFiles.SaveScopedSettings | src/config/scope.rs:498-569 | a refused save changes nothing; an accepted one writes exactly the parts that changed |
| SettingsSave.DeviceConflictExactly | src/config/scope.rs:530-560 | a Device save conflicts if and only if its baseline is not the corrected file, or not the defaults while there is no file |
| SettingsSave.WritersAreNoted | src/config/scope.rs:560-569 | whoever changes a store is noted as having written, and only a step that writes adds anyone |
| SettingsSave.AnyFileOperationMayFail | src/config/scope.rs:530-569 | a save may fail at every file operation; it then ends with that error, writes nothing and lets go of the lock |
| SettingsSave.DeviceSavesFormAChain | src/config/scope.rs:530-561 | in every interleaving of savers each Device file written found on disk exactly the settings its own draft was based on |
| SettingsSave.RefusedSavesWriteNothing | src/config/scope.rs:509-559 | a save refused as mixed, denied or conflicting has written nothing, in every interleaving |
| SettingsSave.SuccessMeansCommitted | src/config/scope.rs:530-569 | a save that reports success stands in the chain with its own candidate |
| SettingsSave.SharedBaselineExactly | src/config/scope.rs:544-561 | two committed saves share their baseline if and only if the file that the later one replaced reads as that baseline again |
| SettingsSave.AtMostOneCommitPerBaseline | src/config/scope.rs:544-561 | when no saver starts with a candidate that reads as the baseline, at most one save based on it is committed in any run |
| SettingsSave.CommitOrdersExactly | src/config/scope.rs:530-561 | some run commits given saves in a given order if and only if they are different saves of Device settings that form a chain from the initial file |
| SettingsSave.RunAlone | src/config/scope.rs:498-569 | the interleaved steps of an undisturbed save come to what the save does as a whole |
| SettingsSave.RestoringLetsAStaleSaveThrough | src/config/scope.rs:544-561 | a save that restores the baseline lets a second save from it succeed |
| Keybindings.ResolveKeybindingSequence | src/config/keybindings.rs:546-561 | the loop computes the leader-resolved key sequence |
| KeybindingsSequences.SplitsIntoWords | src/config/keybindings.rs:546-561 | keystrokes laid out with any white space between and around them split into just these keystrokes |
| KeybindingsSequences.ResolvedIsLed | src/config/keybindings.rs:546-565 | a resolved sequence has the keystrokes in lower case, one space apart, with the leader's keys for each `<leader>` |
| KeybindingsSequences.BindsExactly | src/ui/interaction/actions.rs:946-984 | an entry binds a command if and only if it is no unbind entry, its keystrokes and context are valid, and the command exists and can be bound |
| KeybindingsSequences.UnbindsExactly | src/ui/interaction/actions.rs:946-984 | an entry unbinds one command or all if and only if it is an unbind entry, its keystrokes and context are valid, and its command is empty or can be bound |
| Keybindings.SparseOverrides | src/config/keybindings.rs:356-377 | the loops compute the removals of unlisted defaults followed by the entries that are no defaults |
| KeybindingsMigration.SameAssignmentActsAlike | src/config/keybindings.rs:405-409 | entries that are the same assignment take effect alike for every leader and registry |
| KeybindingsLayers.CompileKeybindingLayers | src/ui/interaction/actions.rs:987-1035 | the pass with its index and its holes leaves exactly the assignments in effect, in the order in which they were bound last |
| KeybindingsLayers.WhatIsReplaced | src/ui/interaction/actions.rs:1001-1026 | a binding replaces any other at its place and the entry that unbinds its own command; an unbind entry replaces what concerns its command, or everything |
| KeybindingsMigration.MigrationPreservesBindings | src/config/keybindings.rs:356-377 | in both compilations, defaults with the sparse overrides bind the same keys in the same contexts to the same commands as the authoritative list, as a set, if and only if no entry that repeats a default is for good the last to bind it after it was cleared, or the last to clear another binding |
| KeybindingsMigration.ListsWithoutUnbindsArePreserved | src/config/keybindings.rs:356-377 | the bindings of a list without unbind entries stay the same set in the settings listing, and among the installed keys when no keys have two commands in one context |
| KeybindingsDispatch.MigrationPreservesDispatch | src/ui/interaction/actions.rs:1152-1172 | the migration keeps all bindings and the command that each key runs in each choice of active contexts if and only if no default is lost, no binding comes back, and no two entries that one key answers to change places |
| KeybindingsDispatch.RunsAlikeExactly | src/ui/interaction/actions.rs:1152-1172 | while the bindings are the same set, all keys run what they ran if and only if no entry overtakes the last one that answers with it in their own two contexts |
| KeybindingsDispatch.KeyRunsAlikeExactly | src/ui/interaction/actions.rs:1152-1172 | the same for one key in given active contexts |
| KeybindingsDispatch.RuntimeCommandIsKeptExactly | src/ui/interaction/actions.rs:1152-1172 | and for the two contexts in which the window looks a keystroke up |
| KeybindingsDispatch.ListsWithoutUnbindsRunAlikeExactly | src/config/keybindings.rs:356-377 | for lists without unbind entries and conflicts, only overtaking can change what a key runs |
| KeybindingsDispatch.OvertakenDefaultRunsAnother | src/ui/interaction/actions.rs:1152-1172 | an addition before a default that the same key answers to: the default runs before the migration and the addition after it, though the bindings are the same |
| KeybindingsDispatch.WindowKeyRunsAnother | src/ui/interaction/actions.rs:1152-1172 | so with a default of the window and the same keys in no context |
| KeybindingsMigration.RebindingADefaultIsLost | src/config/keybindings.rs:356-377 | in both compilations, the list that unbinds a default and binds it again loses it |
| KeybindingsMigration.OverriddenDefaultIsLost | src/ui/interaction/actions.rs:986-1035 | among the installed keys, the list that gives a default's keys another command and then the default again runs the default before the migration and the other command after it |
| KeybindingsMigration.AssignedIsAfter | src/ui/interaction/actions.rs:946-1035 | an assignment is in effect exactly when the last entry that binds or clears it binds it; in the settings listing (`compile_assigned_keybinding_specs`) only unbind entries clear |
| Png.PaethIsNearest | scripts/ui_visual_diff.py:146-153 | the predictor is the nearest of left, up and upper-left, ties in that order |
| Png.FilterTypes | scripts/ui_visual_diff.py:116-143 | for each of the five filter types, byte by byte, what is subtracted is the neighbour, average or predictor of the specification, and 0 left of the first pixel |
| Png.UnfilterRow | scripts/ui_visual_diff.py:123-140 | a row decodes in place to the row whose filtered form was read, or fails exactly when its filter is unknown or bytes are missing |
| Png.Unfilter | scripts/ui_visual_diff.py:116-143 | decoding succeeds exactly when every row is readable, reports the first that is not, and gives rows whose filtered forms stand in the input |
| Png.FilterRowInjective | scripts/ui_visual_diff.py:124-140 | for each filter and previous row, no two rows have one encoding |
| Png.DecodedInverts | scripts/ui_visual_diff.py:124-140 | filtering the decoded row again gives the bytes read |
| Png.EncodedIsReadable | scripts/ui_visual_diff.py:116-143 | what the specification's filters encode is always readable |
| Png.UnfilterInvertsEncode | scripts/ui_visual_diff.py:116-143 | decoding gives back exactly the rows that were encoded, for every choice of filters |
| Png.EncodeInvertsUnfilter | scripts/ui_visual_diff.py:116-143 | encoding the decoded rows with the filters read gives back the input bytes |
| PngImage.ToRgb | scripts/ui_visual_diff.py:156-171 | the pixel buffer is filled in place with each row's colours, gray in all three, alpha left out |
| PngImage.ColourOfPixel | scripts/ui_visual_diff.py:156-171 | for one to four channels of 8 or 16 bits, which byte of a row each colour of a pixel is: the only sample or the one of that colour, and its high byte |
| PngImage.LowBytesDoNotMatter | scripts/ui_visual_diff.py:156-171 | of 16-bit samples only the high bytes count |
| PngImage.WriteRows | scripts/ui_visual_diff.py:179-183 | written scanlines are the specification's encoding of the rows with filter 0 |
| PngImage.ReadInvertsWrite | scripts/ui_visual_diff.py:80-184 | an image that was written comes back pixel for pixel |
| PngImage.WrittenIsReadable | scripts/ui_visual_diff.py:116-184 | every scanline that was written can be read |
| ImageCompare.ExactUnlessNegativeThreshold | scripts/ui_visual_diff.py:238-253 | the count is the number of changed pixels if and only if the threshold is not negative or no row is the same in both images |
| ImageCompare.SameImageAtNegativeThreshold | scripts/ui_visual_diff.py:238-253 | an image against itself: at a threshold below 0 all its pixels are changed and none is counted |
| ImageCompare.InsideMeansAllPixels | scripts/ui_visual_diff.py:193-212 | a region is accepted if and only if it is not empty and each of its pixels is one of the image |
| ImageCompare.MarkedOverBytes | scripts/ui_visual_diff.py:238-253 | over the bytes of the images, a pixel of the region is marked if and only if one of its three channels differs by more than the threshold, in either direction |
| ImageCompare.MaxOverBytes | scripts/ui_visual_diff.py:245-252 | no channel of the region differs by more than the reported maximum, and one differs by just that when it is not 0 |
| ImageCompare.ReportMeans | scripts/ui_visual_diff.py:200-229 | an exception excuses a failed region of its name, and nothing else of a verdict changes |
| ImageCompare.StaleAre | scripts/ui_visual_diff.py:200-229 | an exception is stale if and only if a region of its name did not fail |
| ImageCompare.CompareRegion | scripts/ui_visual_diff.py:232-265 | the verdict follows from the number of pixels marked in this region alone, which at a threshold of at least 0 are those with a channel further apart, whatever other regions marked; the maximum bounds every channel and is reached; the diff turns red on just these |
| ImageCompare.Compare | scripts/ui_visual_diff.py:193-229 | images of different size and regions outside are refused; otherwise each region is judged on its own, exceptions apply to failures only, and the diff is red exactly on the union of marked pixels and the baseline elsewhere |
| BarTemplate.ParseBarTemplate | src/config/bars.rs:554-615 | the loops over characters compute the parse, with every error at its byte |
| BarTemplate.FormatBarTemplate | src/config/bars.rs:618-649 | the loop computes the bracketed modules with one space between neighbours |
| BarTemplate.EscapeBarTemplateText | src/config/bars.rs:769-778 | the loop puts a backslash before brackets and backslashes only |
| BarTemplateRoundTrip.ParseInvertsFormat | src/config/bars.rs:554-649 | a list reads back as it was written if and only if it is well-formed and its template fits 16 KiB |
| BarTemplateRoundTrip.ParsedIsWellFormed | src/config/bars.rs:554-615 | every successful parse yields known modules within all limits |
| BarTemplateRoundTrip.ReadEscaped | src/config/bars.rs:572-603 | any escaped text is read back character by character up to its bracket |
| BarTemplateRoundTrip.TokenParses | src/config/bars.rs:700-767 | the token of each well-formed module is read as that module |
| BarTemplateRoundTrip.NameSpellings | src/config/bars.rs:388-431 | letter case, underscores and outer white space of a module name do not matter |
| BarTemplateRoundTrip.TextSpellings | src/config/bars.rs:709-717 | a text's keyword may be spelled freely, its value is taken verbatim |
| BarTemplateTokens.IconTokens | src/config/bars.rs:718-723 | an icon is known if and only if its name, but for letter case and outer white space, is one of the listed, and is otherwise refused by name |
| BarTemplateTokens.SpaceTokens | src/config/bars.rs:724-738 | a space is any number from 1 to 256 with white space around it; others are out of range, or no number beyond 16 bits |
| BarTemplateTokens.UnknownKeywords | src/config/bars.rs:739-743 | any other keyword before a colon is refused by name |
| BarTemplateTokens.WordTokens | src/config/bars.rs:745-766 | without a colon a keyword is refused for want of one, a space with or without a count behind a star for its form, and what is left is a known name or refused as unknown |
| BarTemplateRoundTrip.CanonicalIsHardlyLonger | src/config/bars.rs:554-649 | n modules format to at most 2n - 1 bytes more than they were parsed from |
| BarTemplateRoundTrip.CanonicalReadsBack | src/config/bars.rs:554-649 | an accepted template reads back from its canonical form exactly when that form fits, which it does whenever the template left room for the growth |
| BarTemplateRoundTrip.FullTemplateDoesNotReadBack | src/config/bars.rs:618-649 | an accepted template of exactly 16 KiB whose canonical form is refused |
| WindowsArguments.QuoteWindowsArgument | src/login_startup.rs:223-245 | the loop with its counter of backslashes computes the quoted argument |
| WindowsArguments.RegistrationCommand | src/login_startup/windows.rs:56-75 | the command joins the quoted executable and arguments, and a path that is not Unicode is an error |
| WindowsArguments.ReadEscaped | src/login_startup.rs:223-245 | through any run of backslashes, the documented rules read a quoted argument as the argument |
| WindowsArguments.ParseInvertsQuoting | src/login_startup/windows.rs:56-75 | joined quoted words parse to exactly those words, for any strings |
| WindowsArguments.MarksAfterBackslashes | src/login_startup.rs:223-245 | by the rules of reading, 2n backslashes before a quotation mark are n and switch quoting, and one more makes the mark literal |
| WindowsArguments.CommandLineRoundTrip | src/login_startup/windows.rs:56-75 | with the rule for the program name, all words survive if and only if the executable has no quotation mark and does not end in a backslash |
| WindowsArguments.RegistrationStartsTheHost | src/login_startup/windows.rs:56-75 | what Windows starts is the executable with `--start-host`, `--profile-id` and the profile |
| WindowsArguments.RegistrationIsInjective | src/login_startup/windows.rs:22-30 | two registrations are the same text exactly when executable and profile are the same, so comparing texts tells whether this one is registered |
| SshCommand.ParseSshCommand | src/config/ssh_command.rs:35-121 | the loop over words computes the parse with its errors in order |
| SshCommand.FormatSshCommand | src/config/ssh_command.rs:123-149 | the words written for a host, port, user and identity file read back as those if and only if the fields are writable |
| SshCommand.FieldRoundTrip | src/config/ssh_command.rs:35-149 | the field reads back what was written if and only if port, identity, host and user satisfy a condition that can be checked beforehand |
| SshCommand.DestinationRoundTrip | src/config/ssh_command.rs:232-278 | a destination word gives back its host and user exactly when the host is plain and the user has no slash |
| SshCommand.HostParsesWhole | src/config/ssh_command.rs:256-278 | a host is taken whole, without a port, exactly when it is not bracketed and has not exactly one colon |
| SshCommand.HostWithPort | src/config/ssh_command.rs:256-278 | a bare host may be followed by a colon and a real port and by nothing else |
| SshCommand.BracketedHost | src/config/ssh_command.rs:256-278 | a bracketed host must not be empty, and only a colon and a real port may follow the bracket |
| SshCommand.AcceptedIsReal | src/config/ssh_command.rs:35-121 | whatever the words, accepted ports are real, users and identity files not empty, hosts without at-sign or slash |
| SshCommand.EmptyHostIsAccepted | src/config/ssh_command.rs:269-277 | a lone colon and port is accepted with an empty host |
| SshCommand.EmptyHostExactly | src/config/ssh_command.rs:232-278 | a destination is accepted with an empty host if and only if it is a colon and a port, behind an optional scheme and user and before an optional slash |
| SshCommand.AcceptedWithoutHostExactly | src/config/ssh_command.rs:35-121 | an accepted field has no host if and only if its last word is such a destination |
| SshCommand.PortSpellings | src/config/ssh_command.rs:74-208 | the spellings of a port agree, also on values that are refused |
| SshCommand.UserSpellings | src/config/ssh_command.rs:80-208 | the spellings of a user agree, and set the user and nothing else |
| SshCommand.UserOptionIsRead | src/config/ssh_command.rs:80-121 | `-l` gives the user of a destination that names none, and a user in the destination wins over it |
| SshCommand.PortOption | src/config/ssh_command.rs:74-79 | a decimal port of 16 bits is set, and 0 is refused |
| Text.ParseReadsDecimal | src/config/ssh_command.rs:74-79 | a decimal number is read back with any leading zeros and a plus sign, if and only if it has at most 16 bits |
| SshCommand.SingleLetters | src/config/ssh_command.rs:210-230 | of the single letters without a value exactly the seventeen listed are passed over, and any other is refused by name |
| SshCommand.MissingValues | src/config/ssh_command.rs:159-178 | an option without its value, or with an empty one, is refused by name |
| SshCommand.UnknownConfigOption | src/config/ssh_command.rs:188-208 | a configuration option other than the three is refused by its name, or whole when it has no value |
| SshCommand.ProgramIsSsh | src/config/ssh_command.rs:36-47 | a program is accepted in any directory if and only if its name is ssh or ssh.exe |
| SshCommand.RefusedFields | src/config/ssh_command.rs:35-66 | the error of an empty field, of one without a destination, of one with a word after it, and of another program |
| SshCommand.IdentitySpellings | src/config/ssh_command.rs:83-208 | the spellings of an identity file agree, and set it and nothing else |
| SshCommand.UriWinsOverOptions | src/config/ssh_command.rs:232-278 | a destination in URI form with a bracketed host says user, host and port whatever the options said |
| Changelog.ChangelogSection | scripts/release_metadata.py:30-53 | the scan computes the notes of a release, or which of the four errors applies |
| Changelog.ArchiveUnreleased | scripts/prepare_release.py:31-59 | the scan computes the archived text, or which of the five errors applies |
| ChangelogCheck.ValidatedExactly | scripts/release_metadata.py:30-89 | a text passes the check with given notes if and only if the version is one, just one line reads Unreleased, just one is the heading of the release, only blank lines stand between them, and these are the notes, not empty |
| ChangelogCheck.RefusedAfterUnreleased | scripts/release_metadata.py:56-89 | when all else is right, the three errors for what follows Unreleased: nothing, text before the next heading, or another heading |
| ChangelogCheck.RefusedForTheRelease | scripts/release_metadata.py:30-53 | the errors of an invalid version and of a release that is missing, doubled or empty, which come first |
| ChangelogForms.VersionIsThreeNumbers | scripts/release_metadata.py:12-28 | a version is accepted if and only if it is three numbers, written without leading zeros, between dots |
| ChangelogForms.DateIsDigits | scripts/prepare_release.py:33-34 | a date is accepted if and only if it is four, two and two digits between hyphens |
| ChangelogForms.ReleaseIsHeaded | scripts/release_metadata.py:30-40 | a line is the heading of a release if and only if it is `## `, the version, ` - ` and a date |
| ChangelogRelease.ArchivedMeetsTheCheck | scripts/prepare_release.py:31-59 | an archived text passes the check, with the Unreleased body as notes, if and only if it has one Unreleased heading |
| ChangelogRelease.RightTrimmedArchiveMeetsTheCheck | scripts/release_metadata.py:56-89 | on right-trimmed lines the notes are those of the original Unreleased body |
| ChangelogRelease.ArchivingKeepsOtherReleases | scripts/prepare_release.py:31-59 | the notes of every other release stay what they were |
| ChangelogRelease.NotesConcat | scripts/release_metadata.py:30-53 | the notes of a release depend only on the part of the text that holds it |
| ChangelogRelease.ValidatedInParts | scripts/release_metadata.py:56-89 | what the check makes of a text whose Unreleased section is empty |
| ChangelogRepair.RepairedMeetsTheCheck | scripts/prepare_release.py:62-125 | a repaired text passes the check with the new notes, a blank line and the old notes, or with the new ones alone when there were none, if and only if neither body opens with an indented heading and the rest of the text keeps its headings when its end is stripped |
| ChangelogRepair.RightTrimmedRepairMeetsTheCheck | scripts/prepare_release.py:62-125 | on right-trimmed lines only the indentation of the two bodies matters, with the same notes in the same order |
| ChangelogRepair.RepairKeepsOtherReleases | scripts/prepare_release.py:62-125 | a repair that works leaves the notes of every other release alone |
| ChangelogRepair.IndentationHidesAHeading | scripts/prepare_release.py:101-103 | a body that becomes a heading when it is stripped |
| ChangelogRepair.IndentedBodyLeavesNoNotes | scripts/prepare_release.py:62-125 | a changelog that can be repaired, for every version and date, and then has a release without notes |

## Left out

- Network, SSH, TLS, SFTP, HTTP, processes and the file system: only abstract steps such as "the Host answers" or "open fails" remain.
- Crates behind the modelled files: the Host's conditional write and the order of caching before broadcasting are assumptions, taken from crates/yttt-host/src/workspace.rs and crates/yttt-client-core/src/lib.rs.
- zlib, CRC, chunk headers, serde, TOML text, Base64 and shell word splitting: taken as given inverses.
- Clocks: `CONFIG_REFRESH_AFTER` and other deadlines are choices of the run.
- Wrap-around of 64-bit generations, counters and request ids, and collisions of SHA-256 revisions.
- ConfigCacheProtocol.ReadYourWrites: documents of projects other than the configuration are not in the model.
- ConfigCacheProtocol.DropIsSafeExactlyWhenQuiet: what the Host itself removes with a directory is a step of its own, and a direct read may follow any other, as by readers that missed the cache at the same time.
- Tunnel.EveryCallIsBounded: futures that are dropped before they finish are not modelled.
- PaneBridge.PaneStreamIsFaithful: a receiver that goes away ends the bridge, which has no further steps.
- SessionCoordinator.LeasesAreUnique: made-up UUIDs are assumed to be new, and the coordinator to outlive its leases.
- SettingsSave.DeviceSavesFormAChain: bars and Host settings are written outside the lock and form no chain; on a remote Host their writes are conditional in the configuration cache.
- SettingsSave.SettingsFiles.SaveScopedSettings: failing file operations and the single-root layout of test fixtures are not in the sequential method; failures are steps of the interleaved model.
- KeybindingsMigration.MigrationPreservesBindings: the supplemental contextual defaults are not modelled; keystroke and context parsing are parameters. The order of bindings is the subject of KeybindingsDispatch.
- KeybindingsDispatch.MigrationPreservesDispatch: key sequences of several keystrokes, the unbind entries that are handed on, and which contexts are active are the UI toolkit's; any choice of active contexts is allowed here.
- AgentBridge.ConvergesUnderLag: an agent's address and its terminal session are one key, and so is its pane.
- AgentWorkbenchRuns.ConvergesAtWork: all panes are open; reports kept back for panes that are still to open, panes that close, and sessions that a saved layout brings along are not in the model, and the bridge sends nothing before the workbench has read its first snapshot.
- Keybindings: conflicts and other warnings, and the older schema migrations, would only add easy members.
- BarTemplate.ParseBarTemplate: the texts of error messages are reduced to a reason and a byte position; reading legacy arrays, the identity prefix and width limits are left out.
- SshCommand.FieldRoundTrip: paths are Unix paths and Unicode; the splitting of a line into words is not part of this model.
- WindowsArguments.CommandLineRoundTrip: the rules are the documented ones; the undocumented treatment of three quotation marks in a row never arises from quoted words.
- ChangelogRelease.ArchivedMeetsTheCheck: lines are separated by line feeds, and digits are ASCII where Python's `\d` accepts more.
- PngImage.ToRgb: rows that a truncated stream left short are refused by Python's slice assignment and excluded here.
- ImageCompare.CompareRegion: the changed ratio is compared over the reals, without the rounding of floating point.
- `read_server_bytes`, the update manifest, version replacement and legacy device migrations would only add easy members.
