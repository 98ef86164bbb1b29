# Séance: a verified model

Séance is a terminal application: it keeps encrypted vaults of hosts, keys and credentials, opens
local and SSH sessions, and forwards ports. This project models the stateful core of it in Dafny 4.11
and proves what that core keeps over whole runs. `dafny verify dfyconfig.toml` checks everything.

## The parts

| part | files | main results |
|---|---|---|
| Session worker | `SessionCommands`, `ScrollWalk`, `ScrollCompaction`, `SessionWorker`, `SessionInput` | every command sent is consumed once and in order; what is typed reaches the channel and output the terminal, unchanged and recorded; a scroll run may be merged exactly when `Mergeable` |
| Port forwarding | `Tunnels`, `TunnelLifecycle`, `TunnelTraffic`, `TunnelSnapshots`, `TunnelManager`, `Proxy` | no task is ever without its handle, when a restart is harmed by the task before it, in which order a status moves, when the connection count is exact, what the byte pump passes on |
| Reference index | `Sorting`, `AuthReferences`, `VaultModel`, `VaultEffects`, `IndexAgreement`, `IndexRepair`, `Controller` | exactly which operations keep the index equal to a scan of the unlocked vaults, and to a rebuild, and exactly when it is right at the end of a run; the index is a function of the hosts it holds |
| Vault registry | `RegistryMirror`, `DefaultTarget`, `WitnessRuns` | memory mirrors the configuration, and the default target does not depend on map order, except after named refusals |
| Vault synchronisation | `VaultSync`, `SyncConvergence`, `VaultStorage` | two copies edited apart hold the same records after every exchange since their common base; when merging keeps the latest, and when order matters |
| Sessions | `SessionRegistry` | access numbers refine a move-to-front list, and exactly when a wrap of the counter ends that |
| Configuration | `Text`, `Keybindings`, `ConfigModel`, `ConfigValidation`, `ConfigStore` | chord round trips, validation exactly characterised, the store only ever holds valid normalised values |
| Transcript and XML | `Transcript`, `XmlEscape` | the longest prefix that fits; five passes equal one, and can be undone |

A protocol is a state, a type of events or operations, a `Step` and a `Run`; main theorems hold for
every sequence of events. Outcomes that depend on the file system, the database, the network, the
clock or the scheduler are parts of the events, so a theorem about every run covers each of them.
Where the code changes fields in place there is a class whose methods are proved to do what `Step` or
another specification function says.

## What the code does not do

Some properties one would expect do not hold. For each, a lemma states the failure or gives a run that
shows it, and where the property holds under a condition, that condition is proved to be the exact one.

- Merging a scroll run can move the viewport elsewhere: overshooting an end and coming back is lost.
  `ScrollWalk.MergesExactlyWhenMergeable` gives the exact condition, which has a special case one step
  above `isize::MIN`.
- A tunnel that is stopped and at once started again is cancelled: when the old task ends it removes,
  by id, the handle of the new one. The handle owns the only sender of the new task's stop signal, so
  the new task is told to stop, and its snapshot is removed or marked failed while it is at work
  (`TunnelLifecycle.RestartIsCancelled`). `TunnelLifecycle.StartIsSafeIffDisciplined` shows, after any run
  and whatever else is started, that a start is safe from this exactly when no earlier task of its id is
  unfinished.
- A connection left over from before a restart takes one off the new count when it closes
  (`TunnelTraffic.StaleCloseHidesConnection`), so a count can be too low even when every connection
  it should show was opened since the last reset; `TunnelTraffic.CountExactIffUndisturbed` says when it is exact.
- The peer's EOF also ends the upload (`Proxy.PeerEofStopsUpload`).
- After truncation, further transcript events are lost without being counted, and a failed write strands
  what is in the channel (`Transcript.LostEventsExceedDrops`, which says exactly when the counter is right).
- A rename changes memory before the configuration is asked. Names are compared by ASCII case there
  and by full lowercasing in validation, so "é" and "É" pass the first test and fail the second; memory
  and configuration then differ, and the default target can depend on map order
  (`WitnessRuns.ClashingRenameTies`, from start-up on).
- Some failures come after the effect and before the index is brought up to date: a device unlock that
  cannot note the time of use, hosts that cannot be listed after an unlock or at start-up, a saved host
  that cannot be read back. And a credential, key or port forward saved under the id of a host replaces
  the host without the index hearing of it. Of the operations modelled, these are all that break the
  agreement (`IndexAgreement.AgreementStep`, with when each matters); `WitnessRuns` has a run from start-up
  for each, and `IndexRepair.AgreesIffLastCameOutRight` shows what repairs it.
- A rename does not reach the cached vault names in the index; `IndexAgreement.RebuiltStep` includes them.
- Opening a vault changes memory before its listing is written, and deletion removes it from memory
  first; a failed write leaves memory and configuration apart (`RegistryMirror.MirrorStep`,
  `WitnessRuns.FailedOpenBreaksMirror`, `WitnessRuns.FailedDeleteBreaksMirror`).
- When the session counter wraps, the session used last is no longer the most recent, unless no other
  has a number as high (`SessionRegistry.StepRefinesIff`, `SessionRegistry.WrapIsReached`). The bound is on
  increments; opening a window that spawns a session makes two.
- Asking another copy for what is newer than one's own clock misses its concurrent edits
  (`SyncConvergence.OwnCursorMissesEdits`).
- Records are looked up by id and kind but stored by id, so a record of another kind replaces a later
  one (`SyncConvergence.KindClashLosesNewer`). `VaultSync.LatestIffNoClash` gives the exact condition.
  Convergence does not need ids to keep their kind.

## Model

| member | source | states |
|---|---|---|
| `ScrollWalk.MergesExactlyWhenMergeable` | crates/seance-ssh/src/backend.rs:330-357 | one saturating sum stands for a run of deltas in every clamped viewport [0, M], M ≤ isize::MAX, from every start, if and only if the run is `Mergeable` |
| `ScrollWalk.MergeableSuffices` | crates/seance-ssh/src/backend.rs:336-346 | a mergeable run ends where its saturating sum does, in every clamped viewport, also when the sum saturates |
| `ScrollWalk.MergeableNecessary` | crates/seance-ssh/src/backend.rs:336-346 | a run that merges in every viewport is mergeable |
| `ScrollWalk.OneWayRunsMerge` | crates/seance-ssh/src/backend.rs:336-346 | runs of one sign are mergeable, even when the sum saturates |
| `ScrollWalk.OvershootIsLost` | crates/seance-ssh/src/backend.rs:336-346 | one row past the end and back: the run moves the viewport, the merged delta does not |
| `ScrollWalk.UnclampedMergesIff` | crates/seance-ssh/src/backend.rs:336-346 | without clamping, the merged delta is right if and only if what the additions lose at the two ends of isize cancels |
| `ScrollWalk.NothingLostIff` | crates/seance-ssh/src/backend.rs:336-346 | nothing is lost at either end if and only if no partial sum overflows |
| `ScrollWalk.UnclampedRunsMerge` | crates/seance-ssh/src/backend.rs:336-346 | so the merged delta is right whenever no partial sum overflows |
| `ScrollCompaction.CompactScrollCommandBurst` | crates/seance-ssh/src/backend.rs:330-357 | the loop over `pending_delta` and `compacted` computes the recursive `Compact` on every burst |
| `ScrollCompaction.CompactShape` | crates/seance-ssh/src/backend.rs:330-357 | no two deltas are adjacent in the result, and all other commands are kept in order |
| `ScrollCompaction.CompactRun` | crates/seance-ssh/src/backend.rs:336-346 | a maximal run of deltas becomes one delta, the saturating left fold of the run |
| `ScrollCompaction.CompactIsLeftCompositional` | crates/seance-ssh/src/backend.rs:330-357 | compact(compact(a) + b) = compact(a + b) |
| `ScrollCompaction.CompactIsIdempotent` | crates/seance-ssh/src/backend.rs:330-357 | compacting twice is compacting once |
| `ScrollCompaction.CompactIsNotRightCompositional` | crates/seance-ssh/src/backend.rs:330-357 | a suffix compacted on its own can give another result, because of saturation |
| `ScrollCompaction.CompactPreservesViewport` | crates/seance-terminal/src/render.rs:239-281 | a burst and its compaction leave the same viewport, if every run is mergeable or followed by a jump to the top or bottom, whatever stands between |
| `ScrollCompaction.UnclampedBurstIff` | crates/seance-terminal/src/render.rs:239-281 | without clamping, a burst and its compaction leave the same viewport if and only if the losses of the runs after the last such jump cancel |
| `ScrollCompaction.JumpArrives` | crates/seance-terminal/src/render.rs:244-254 | with an up-to-date scrollbar, setting an offset arrives there or at the end |
| `ScrollCompaction.PagesMove` | crates/seance-terminal/src/render.rs:239-262 | pages move by all rows but one, down and up, and stop at the ends |
| `SessionWorker.NoCommandIsLost` | crates/seance-ssh/src/backend.rs:36-77 | over every run, consumed commands, then the pending slot, then the queue are the commands sent, in order; the slot never holds a scroll; applied scrolls are the compacted bursts |
| `SessionWorker.PendingIsNeverOverwritten` | crates/seance-ssh/src/backend.rs:274-305 | a full slot is kept, or its command is handed to the consumer, although every batch end assigns the slot |
| `SessionWorker.DisconnectLosesNothing` | crates/seance-ssh/src/backend.rs:359-391 | when the worker stops because all senders are gone, every command sent has been consumed |
| `SessionWorker.OutputIsFaithful` | crates/seance-ssh/src/backend.rs:78-168 | terminal input and transcript output are the received data in order; nothing is unpublished while the worker waits; a shown exit status never disappears; the last refresh of a closed channel carries the last status or signal, else the closing text |
| `SessionInput.InputIsFaithful` | crates/seance-ssh/src/backend.rs:183-256 | over every run, the channel's writer gets, and the transcript records as input, exactly the bytes of the commands begun, in order: typed bytes as they are, other events as they are encoded; every resize and every question is dealt with once, in order |
| `SessionInput.CommandOutcome` | crates/seance-ssh/src/backend.rs:183-320 | after a command the worker stops exactly if its bytes could not be written or it could not be encoded, drains if it is a scroll, and waits otherwise |
| `SessionInput.ShownStep` | crates/seance-ssh/src/backend.rs:78-168 | which refreshes each event adds: a forced one for a resize, one for the end of a scroll batch or output burst, and those of control messages |
| `SessionWorker.RunScrollsAsSent` | crates/seance-ssh/src/backend.rs:274-305 | over every run, the scrolls given to the terminal leave the viewport where the sent scrolls would, where the bursts are mergeable, whatever output and resizes do to it between bursts |
| `SessionWorker.Worker.RunSshSession` | crates/seance-ssh/src/backend.rs:15-168 | the nested loops, for every order of events, end in the state the step machine gives |
| `SessionWorker.Worker.TakeAndApplyPending` | crates/seance-ssh/src/backend.rs:39-56 | the pending command, whatever it is, is taken before anything else is waited for |
| `SessionWorker.Worker.Turn` | crates/seance-ssh/src/backend.rs:38-167 | one turn of the loop with the burst it starts equals the events it went through |
| `SessionWorker.Worker.Select` | crates/seance-ssh/src/backend.rs:58-166 | one select: a received command or a channel message |
| `SessionWorker.Worker.BeginCommand` | crates/seance-ssh/src/backend.rs:183-320 | a scroll starts a batch, any other command is applied at once |
| `SessionWorker.Worker.SelectMessage` | crates/seance-ssh/src/backend.rs:78-166 | data starts a burst; control messages and the end of the channel are dealt with at once |
| `SessionWorker.Worker.ApplySessionCommand` | crates/seance-ssh/src/backend.rs:170-321 | input, text, keys, mouse and paste: record, write, and stop on failure; resize: pass on and refresh; questions: answer |
| `SessionWorker.Worker.ApplyScrollBatch` | crates/seance-ssh/src/backend.rs:274-305 | the slot is assigned, to nothing if no command ended the batch; the drained batch is compacted, applied and published once |
| `SessionWorker.Worker.DrainScrollCommandBatch` | crates/seance-ssh/src/backend.rs:359-391 | drains scrolls up to the first other command, which goes to the pending slot |
| `SessionWorker.Worker.TryReceiveOne` | crates/seance-ssh/src/backend.rs:359-391 | one `try_recv`: extend the batch, fill the slot, or end the batch on empty or disconnected |
| `SessionWorker.Worker.DrainDataBurst` | crates/seance-ssh/src/backend.rs:411-441 | data is coalesced until the deadline, a control message or the end of the channel |
| `SessionWorker.Worker.DispatchControl` | crates/seance-ssh/src/backend.rs:131-154 | exit status and signal are recorded and shown; EOF and close end the session |
| `SessionWorker.Worker.ChannelIsClosed` | crates/seance-ssh/src/backend.rs:156-164 | the final refresh |
| `SessionWorker.Worker.RecordAndWriteOutput` | crates/seance-ssh/src/backend.rs:393-409 | a chunk goes to the transcript and to the terminal |
| `SessionWorker.Worker.WriteInputBytes` | crates/seance-ssh/src/backend.rs:443-456 | input is recorded, then written; a failed write stops the worker |
| `TunnelLifecycle.NoTaskIsOrphaned` | crates/seance-ssh/src/tunnel.rs:64-111 | over every run, the handles are exactly those of the tasks that were not told to stop and have not completed, one per id |
| `TunnelLifecycle.HandleIsLostIff` | crates/seance-ssh/src/tunnel.rs:84-111 | a task loses its handle, and is told to stop, if and only if it is stopped, completes, or another task of its id completes |
| `TunnelLifecycle.DisciplinedRunsAreOwned` | crates/seance-ssh/src/tunnel.rs:84-173 | a tunnel that is itself started only when no earlier task for it is unfinished is shown while it has a handle, has at most one live task, and a status that fits it, whatever is done to others |
| `TunnelLifecycle.StatusMovesForward` | crates/seance-ssh/src/tunnel.rs:113-160 | within one start the status of such a tunnel moves only Starting, Running, Failed, or Starting, Failed |
| `TunnelLifecycle.QuietTunnelIsClean` | crates/seance-ssh/src/manager.rs:136-171 | over every run, a tunnel without a live task has no handle, and its snapshot, if any, is Failed with its error |
| `TunnelLifecycle.ShownIffPeaceful` | crates/seance-ssh/src/manager.rs:156-164 | over every run, tunnels that nobody stopped are always shown with a fitting status if and only if no earlier task of an id settles, or becomes running too soon, while a later one holds the handle |
| `TunnelLifecycle.EarlierTaskHarmsLater` | crates/seance-ssh/src/manager.rs:156-164 | after any start accepted while an earlier task is unfinished, the end of that task hides or fails the new tunnel at work, and tells it to stop exactly if the old task had not dropped the handle before |
| `TunnelLifecycle.StartIsSafeIffDisciplined` | crates/seance-ssh/src/manager.rs:136-171 | after any run, an accepted start can be harmed without anyone stopping it, whatever else is started, if and only if an earlier task of the id is unfinished |
| `TunnelLifecycle.RestartIsCancelled` | crates/seance-ssh/src/tunnel.rs:84-111 | start, run, stop, start, end of the first task: the second is told to stop and is not shown |
| `TunnelTraffic.CountNeverExceedsOpenTasks` | crates/seance-ssh/src/tunnel.rs:175-185 | in every interleaving the shown count is at most the open connection tasks, and at most those opened since the last reset |
| `TunnelTraffic.CountExactIffUndisturbed` | crates/seance-ssh/src/tunnel.rs:113-185 | over every run, removals and restarts included, the count is exact wherever the tunnel is listed if and only if no connection from before the last reset closes while one from after it is open, and none opens with the counter full |
| `TunnelTraffic.StaleCloseHidesConnection` | crates/seance-ssh/src/tunnel.rs:259-293 | a run of two forwarding loops in which the only open connection, opened since the reset, is shown as none |
| `TunnelTraffic.CountersAreSaturatingSums` | crates/seance-ssh/src/tunnel.rs:187-197 | byte counters are the saturating sums of what was recorded since the last start |
| `TunnelSnapshots.SnapshotTellsTheStory` | crates/seance-ssh/src/tunnel.rs:113-173 | over every run a tunnel is listed, and with the name, status, port, opening time and error, that its starts, bindings, ends, dismissals and connection errors tell |
| `TunnelSnapshots.StopEffect` | crates/seance-ssh/src/tunnel.rs:91-111 | a stop tells exactly the task with the handle and keeps the snapshot, or without a handle dismisses the snapshot and nothing else |
| `TunnelManager.Manager.InsertHandle` | crates/seance-ssh/src/tunnel.rs:71-82 | a handle is never replaced |
| `TunnelManager.Manager.TakeHandle` | crates/seance-ssh/src/tunnel.rs:84-99 | removing a handle drops its sender, which tells its task to stop |
| `TunnelManager.Manager.StartPortForward` | crates/seance-ssh/src/manager.rs:136-167 | a refused start changes nothing and says why; an accepted one leaves a Starting snapshot, a handle and its live task |
| `TunnelManager.Manager.StopPortForward` | crates/seance-ssh/src/tunnel.rs:91-111 | with a handle: signal and keep the snapshot; without: forget the snapshot; and what is returned |
| `TunnelManager.Manager.CompletionDropsHandle` | crates/seance-ssh/src/manager.rs:158-159 | first completion step: whatever handle the id has goes, and the task it belongs to is told to stop |
| `TunnelManager.Manager.CompletionSettles` | crates/seance-ssh/src/manager.rs:160-163 | second completion step: a clean end forgets the snapshot, an error is kept in it |
| `Proxy.ProxyTcpStreamAndChannel` | crates/seance-ssh/src/proxy.rs:13-65 | the select loop, for every order of reads and failures, does what the pump's step function says |
| `Proxy.PumpIsFaithful` | crates/seance-ssh/src/proxy.rs:19-64 | in each direction chunks are passed on in order, at most the last one missing after a failed write; all bytes read are recorded; no data follows our EOF (section 5.3 of RFC 4254); a finished pump ends with EOF and close |
| `Proxy.ChannelIsToldExactly` | crates/seance-ssh/src/proxy.rs:24-64 | over every run the channel is told exactly the data, then our EOF once if the socket ended, then EOF and close once the peer closed; the socket is shut down exactly after the peer's EOF |
| `Proxy.OutcomeStep` | crates/seance-ssh/src/proxy.rs:22-60 | the pump ends with the channel, a failed read or a failed write and with nothing else; other messages change nothing |
| `Proxy.ClosedStreamStays` | crates/seance-ssh/src/proxy.rs:19-64 | once the socket is closed nothing more is read from it or sent as data |
| `Proxy.PeerEofStopsUpload` | crates/seance-ssh/src/proxy.rs:51-54 | after the peer's EOF nothing more is read from the socket or sent as data |
| `AuthReferences.SortedIds` | crates/seance-core/src/lib.rs:2021-2024 | a set of ids as a strictly ascending list, whatever order the set comes in |
| `AuthReferences.CollectHostAuthReferenceIds` | crates/seance-core/src/lib.rs:2003-2026 | exactly the keys and the credentials (passphrases included) of the auth order, each once, ascending |
| `AuthReferences.EntryUnique` | crates/seance-core/src/lib.rs:1867-1878 | a host has one index entry: its reference and its id lists are determined |
| `AuthReferences.ReferenceOrderIs` | crates/seance-core/src/lib.rs:1993-2001 | references are ordered by the lowercased label, then by host id, each character by character |
| `AuthReferences.InverseIsCanonical` | crates/seance-core/src/lib.rs:1853-1936 | the hosts that are indexed admit exactly one right inverse map |
| `AuthReferences.SameHostsSameMaps` | crates/seance-core/src/lib.rs:1853-1936 | two indexes of the same hosts are equal in all maps, whatever was inserted and removed on the way |
| `AuthReferences.AddedIsOk` | crates/seance-core/src/lib.rs:1880-1900 | pushing a new host's reference and sorting keeps every list right, in both inverse maps |
| `AuthReferences.DroppedIsOk` | crates/seance-core/src/lib.rs:1906-1936 | dropping a host from the lists of the ids it mentions keeps every list right without it |
| `AuthReferences.AuthReferenceIndex.Upsert` | crates/seance-core/src/lib.rs:1853-1900 | replaces the entry of one host and touches no other; lists stay strictly ordered, complete and never empty |
| `AuthReferences.AuthReferenceIndex.RemoveByScope` | crates/seance-core/src/lib.rs:1906-1936 | removes one host from all maps, and nothing when it is absent |
| `AuthReferences.AuthReferenceIndex.RemoveVault` | crates/seance-core/src/lib.rs:1831-1842 | removes exactly the hosts of the vault, in any order |
| `AuthReferences.AuthReferenceIndex.AddReferences` | crates/seance-core/src/lib.rs:1880-1896 | the loop over ids adds and sorts in each id's list and in no other |
| `AuthReferences.AuthReferenceIndex.DropReferences` | crates/seance-core/src/lib.rs:1911-1935 | the loop over ids removes the host from each id's list, and removes emptied lists |
| `IndexAgreement.AgreementStep` | crates/seance-core/src/lib.rs:1803-1936 | a vault operation keeps the agreement with a scan if and only if it is none of the late failures that leave a host out or out of date, and no other record replaces a host |
| `IndexAgreement.IndexAgreesOverRuns` | crates/seance-core/src/lib.rs:1744-1936 | from start-up, over every run without such a failure and whatever else is refused, the index holds exactly the hosts of the unlocked vaults, as they now are |
| `IndexAgreement.UnreadSaveAgrees` | crates/seance-core/src/lib.rs:1433-1448 | a host that is stored and not read back keeps the agreement exactly when it was there with the same label, keys and credentials |
| `IndexAgreement.BootstrapAgrees` | crates/seance-core/src/lib.rs:1803-1829 | a bootstrap leaves the index in agreement exactly when no unlocked vault with hosts comes at or after the first that cannot be listed |
| `IndexAgreement.DeviceUnlockAgrees` | crates/seance-core/src/lib.rs:1340-1349 | what each outcome of a device unlock does to the agreement |
| `IndexAgreement.LookupIsScan` | crates/seance-core/src/lib.rs:1744-1770 | a lookup returns every visible host that mentions the id, once, with its label, strictly ordered, and no other |
| `IndexAgreement.LockedVaultsAreSilent` | crates/seance-core/src/lib.rs:1351-1356 | lookups find nothing in a vault that is locked, closed or deleted |
| `IndexAgreement.RebuiltStep` | crates/seance-core/src/lib.rs:1247-1279 | an operation leaves exactly the index of a full rebuild, vault names included, if and only if it keeps the agreement and renames no unlocked vault with hosts |
| `IndexRepair.RightStep` | crates/seance-core/src/lib.rs:1803-1936 | after an operation the index is right about a host if and only if the operation decides about it and comes out right, or leaves it alone and it was right |
| `IndexRepair.AgreesIffLastCameOutRight` | crates/seance-core/src/lib.rs:1744-1936 | from start-up, over every run with whatever failures, the index agrees in the end if and only if for each host the last operation that decided about it came out right |
| `IndexRepair.WholeBootstrapAgrees` | crates/seance-core/src/lib.rs:1803-1829 | a bootstrap through all vaults that lists every one leaves the index in agreement, whatever came before |
| `VaultEffects.LockEffect` | crates/seance-core/src/lib.rs:1351-1356 | an open vault becomes locked with hosts and entry kept and its index entries gone; no other vault and no setting changes |
| `VaultEffects.LockSilences` | crates/seance-core/src/lib.rs:1351-1356 | after a lock every lookup in the vault is empty, whatever the index held |
| `VaultEffects.CloseEffect` | crates/seance-core/src/lib.rs:1310-1322 | a vault becomes closed and unindexed, others kept, whatever becomes of the listing |
| `VaultEffects.CloseUnlists` | crates/seance-core/src/lib.rs:1310-1322 | exactly the id leaves the listing, if that can be written |
| `VaultEffects.OpenEffect` | crates/seance-core/src/lib.rs:1281-1308 | a closed vault whose database opens becomes locked; nothing else changes in memory |
| `VaultEffects.OpenSucceedsIff` | crates/seance-core/src/lib.rs:1281-1308 | when an open succeeds: known, openable, and listed or listable |
| `VaultEffects.OpenLists` | crates/seance-core/src/lib.rs:1281-1308 | a successful open leaves the id listed, once, and the rest of the configuration alone |
| `VaultEffects.UnlockEffect` | crates/seance-core/src/lib.rs:1324-1338 | the vault becomes unlocked exactly if it could be opened and the passphrase is right |
| `VaultEffects.DeviceUnlockEffect` | crates/seance-core/src/lib.rs:1340-1349 | the same for a device, which also unlocks when it fails late |
| `VaultEffects.BootstrapEffect` | crates/seance-core/src/lib.rs:986-1005 | exactly the open, locked vaults that the device can unlock become unlocked |
| `VaultEffects.ReachedIff` | crates/seance-core/src/lib.rs:1803-1810 | a vault is dealt with exactly if nothing at or before its place in the order stops the rebuild |
| `VaultEffects.CreateAcceptedIff` | crates/seance-core/src/lib.rs:1182-1232 | a vault is created exactly if its name is not blank, in use up to ASCII case nor once lowercased, its file is free, and all can be written |
| `VaultEffects.CreateEffect` | crates/seance-core/src/lib.rs:1205-1245 | an unlocked, empty vault with the trimmed name and its own file, in memory and registry, listed as open, and the default if there was none |
| `VaultEffects.RenameEffect` | crates/seance-core/src/lib.rs:1247-1279 | when a rename is tried, and that it changes the name and the time and nothing else |
| `VaultEffects.DeleteEffect` | crates/seance-core/src/lib.rs:1358-1379 | a vault that is not unlocked leaves memory and index, and no other vault is touched |
| `VaultEffects.DeleteUnlists` | crates/seance-core/src/lib.rs:1374-1380 | entry, listing and default of the vault, and nothing else, leave the registry |
| `VaultEffects.SetDefaultEffect` | crates/seance-core/src/lib.rs:1388-1396 | a known vault becomes the default if that can be written, and nothing else changes |
| `VaultEffects.DefaultIsTarget` | crates/seance-core/src/lib.rs:1938-1950 | actions then go to it, if it is unlocked, in whatever order the vaults come |
| `VaultEffects.SaveHostEffect` | crates/seance-core/src/lib.rs:1433-1448 | an accepted save stores the host it was given, and only that |
| `VaultEffects.SavedHostIsFound` | crates/seance-core/src/lib.rs:1433-1448 | then every key and credential the host mentions lists it with its label |
| `VaultEffects.DeleteHostEffect` | crates/seance-core/src/lib.rs:1450-1456 | a successful delete removes the host, and only that |
| `VaultEffects.DeletedHostIsNotFound` | crates/seance-core/src/lib.rs:1450-1456 | then no lookup lists it |
| `VaultEffects.SaveOtherEffect` | crates/seance-core/src/lib.rs:1576-1590 | another record replaces a host of its id, and nothing else changes |
| `Controller.LoadManagedVaults` | crates/seance-core/src/lib.rs:2140-2166 | every registry entry gets a vault, opened and locked where it is listed as open and can be opened, closed otherwise |
| `Controller.AppController.constructor` | crates/seance-core/src/lib.rs:2140-2166 | the controller starts in a state loaded from its configuration, with an empty index |
| `Controller.AppController.UpdateRegistry` | crates/seance-core/src/lib.rs:1069-1081 | a registry change is normalised, validated and written, or refused without effect |
| `Controller.AppController.RebuildVault` | crates/seance-core/src/lib.rs:1812-1829 | a vault's entries are removed, and then made anew if it is unlocked and its hosts can be listed |
| `Controller.AppController.RebuildAllVaults` | crates/seance-core/src/lib.rs:1803-1810 | a new index of the unlocked vaults up to the first, in the order of the map, that cannot be listed |
| `Controller.AppController.IndexHost` | crates/seance-core/src/lib.rs:1844-1900 | one host's entry, equal to the one a rebuild would make |
| `Controller.AppController.HostReferences` | crates/seance-core/src/lib.rs:1744-1770 | an error exactly for an unknown vault; otherwise what a scan would report, in every state where the index agrees |
| `Controller.AppController.LookupAfter` | crates/seance-core/src/lib.rs:1744-1770 | any operations, then a lookup: from start-up, without a late failure, the lookup in the inverse maps is a scan |
| `Controller.AppController.Perform` | crates/seance-core/src/lib.rs:1182-1456 | every operation in place is the step of the model |
| `Controller.AppController.Bootstrap` | crates/seance-core/src/lib.rs:986-1005 | open vaults the device can unlock are unlocked, then everything is indexed |
| `Controller.AppController.CreateNamedVault` | crates/seance-core/src/lib.rs:1182-1245 | accepted exactly when the trimmed name is free, the database can be made and the configuration takes the entry; nothing changes otherwise |
| `Controller.AppController.RenameVault` | crates/seance-core/src/lib.rs:1247-1279 | the name changes in memory, and in the configuration if that accepts it; success exactly if both |
| `Controller.AppController.OpenVault` | crates/seance-core/src/lib.rs:1281-1308 | opens the store if needed, lists it as open if needed, and says whether both worked |
| `Controller.AppController.CloseVault` | crates/seance-core/src/lib.rs:1310-1322 | closes the store, empties its part of the index, and unlists it; success exactly if that could be written |
| `Controller.AppController.UnlockVault` | crates/seance-core/src/lib.rs:1324-1338 | opens, unlocks and indexes, and says whether all of it worked |
| `Controller.AppController.TryUnlockVaultWithDevice` | crates/seance-core/src/lib.rs:1340-1349 | opens and tries; indexes only after a success that is reported; what is returned for each outcome |
| `Controller.AppController.LockVault` | crates/seance-core/src/lib.rs:1351-1356 | locks an open vault and empties its part of the index; an error exactly if it is not open |
| `Controller.AppController.DeleteVaultPermanently` | crates/seance-core/src/lib.rs:1358-1386 | refuses unlocked vaults; otherwise removes it from memory, index and, if that can be written, from the registry; success exactly if the file could go too |
| `Controller.AppController.SetDefaultTargetVault` | crates/seance-core/src/lib.rs:1388-1396 | only a known vault can be the default; success exactly if that could be written |
| `Controller.AppController.SaveHost` | crates/seance-core/src/lib.rs:1433-1448 | stores the host if the vault is unlocked and the store accepts it, and indexes it if it can be read back; success exactly if all worked |
| `Controller.AppController.DeleteHost` | crates/seance-core/src/lib.rs:1450-1456 | removes the host from the store and, if that deleted something, from the index; whether it did |
| `Controller.AppController.SaveOther` | crates/seance-core/src/lib.rs:1576-1590 | a record of another kind is stored by id, over a host of that id if there is one, and the index is left alone |
| `RegistryMirror.MirrorStep` | crates/seance-core/src/lib.rs:1182-1396 | an operation keeps the vault map equal to the registry, with every open store listed, if and only if it is not one of the named refusals (a changing rename that is refused, an open or a delete whose write fails) |
| `RegistryMirror.MirrorHoldsOverRuns` | crates/seance-core/src/lib.rs:2140-2166 | from start-up, over every run without such a refusal, memory and a valid configuration have the same ids and entries |
| `RegistryMirror.RenameMirror` | crates/seance-core/src/lib.rs:1247-1279 | a rename keeps the mirror exactly when it changes nothing, is rejected at once, or is valid and written |
| `RegistryMirror.RenamedRegistry` | crates/seance-config/src/validation.rs:228-233 | a registry with one entry renamed is valid exactly when no other entry has that name once lowercased |
| `DefaultTarget.DefaultTargetVaultIdForActions` | crates/seance-core/src/lib.rs:1938-1965 | the unlocked default, else the first unlocked vault with the least lowercased name in the iteration order; always unlocked, absent exactly when none is |
| `DefaultTarget.OrderMattersIffTied` | crates/seance-core/src/lib.rs:1948-1965 | the target depends on the iteration order if and only if no default is unlocked and two unlocked vaults share the least name |
| `DefaultTarget.MirroredTargetIsStable` | crates/seance-config/src/validation.rs:228-233 | where memory mirrors a valid configuration the order does not matter |
| `DefaultTarget.TargetIsStableOverRuns` | crates/seance-core/src/lib.rs:1938-1965 | so from start-up, over every run without the named refusals |
| `DefaultTarget.RefusedRenameTies` | crates/seance-core/src/lib.rs:1247-1279 | a rename that clashes only after full lowercasing is refused by the configuration, stays in memory, and can make the order matter |
| `WitnessRuns.ClashingRenameTies` | crates/seance-core/src/lib.rs:1252-1256 | from start-up, two unlocks and such a rename make the order matter, for every such pair of names |
| `WitnessRuns.AccentedRenameTies` | crates/seance-core/src/lib.rs:1252-1256 | the same with "é" and "É" |
| `WitnessRuns.LateFailuresHideHosts` | crates/seance-core/src/lib.rs:1324-1349 | from start-up, a device unlock that fails late and an unlock without a listing leave a host out of the index |
| `WitnessRuns.FailedListingStopsBootstrap` | crates/seance-core/src/lib.rs:1803-1829 | from start-up, a bootstrap that cannot list an unlocked vault leaves its host out of the index |
| `WitnessRuns.UnreadSaveHidesHost` | crates/seance-core/src/lib.rs:1433-1448 | from start-up, a new host that is stored and not read back is not in the index |
| `WitnessRuns.ReplacedHostStaysIndexed` | crates/seance-core/src/lib.rs:1576-1590 | from start-up, another record saved under the id of a host leaves the host in the index |
| `WitnessRuns.FailedOpenBreaksMirror` | crates/seance-core/src/lib.rs:1281-1308 | from start-up, an open that cannot be written leaves memory and configuration apart |
| `WitnessRuns.FailedDeleteBreaksMirror` | crates/seance-core/src/lib.rs:1358-1386 | from start-up, so does a delete |
| `VaultSync.PrecedenceIsTotal` | crates/seance-vault/src/lib.rs:1198-1208 | precedence is a total order on records, up to kind, schema version and bookkeeping |
| `VaultSync.PrecedesIffEarlier` | crates/seance-vault/src/lib.rs:1198-1208 | precedence field by field: clock, time of change, id, absent or earlier deletion, then the four byte strings, each in its own order |
| `VaultSync.AcceptLatestIff` | crates/seance-vault/src/lib.rs:539-551 | one record leaves the latest of both in the table if and only if it does not clash: be earlier than a row of another kind |
| `VaultSync.LatestIffNoClash` | crates/seance-vault/src/lib.rs:539-551 | a delta leaves the latest after every record if and only if no record clashes when it comes |
| `VaultSync.OneKindNeverClashes` | crates/seance-vault/src/lib.rs:539-551 | so wherever each id has one kind |
| `VaultSync.OrderIrrelevantIffConsistent` | crates/seance-vault/src/lib.rs:539-551 | every reordering of the records leaves the same table if and only if no id comes under two kinds |
| `VaultSync.ConsistentOrder` | crates/seance-vault/src/lib.rs:539-551 | then repetitions make no difference either |
| `VaultSync.MergeIsIdempotent` | crates/seance-vault/src/lib.rs:515-566 | applying any delta again changes nothing |
| `VaultSync.RepetitionIsSkippedIff` | crates/seance-vault/src/lib.rs:543-549 | the second time all of it is skipped if and only if no id comes under two kinds |
| `VaultSync.RowsAreKeptOrReceived` | crates/seance-vault/src/lib.rs:1180-1196 | after a delta every row is untouched, or an offered record in every field, marked as synced at its clock |
| `VaultSync.MaxClockIsLatest` | crates/seance-vault/src/lib.rs:537-541 | the clock after a delta is the latest of the clocks it has seen |
| `SyncConvergence.ExchangeConvergesIff` | crates/seance-vault/src/lib.rs:469-566 | an exchange since any cursor makes any two copies agree if and only if for every record on which they differ the later version is newer than the cursor, or the kinds differ and either is |
| `SyncConvergence.SyncConverges` | crates/seance-vault/src/lib.rs:469-566 | an exchange since the common base is refused by neither side and leaves the same records and the same clock |
| `SyncConvergence.CopiesConverge` | crates/seance-vault/src/lib.rs:1821-1887 | over every run of edits, deletions and exchanges on two copies of a snapshot, they hold the same records after every exchange |
| `SyncConvergence.SyncKeepsLater` | crates/seance-vault/src/lib.rs:539-551 | of two versions of one kind that are both sent, both copies end with the one whose fields are later |
| `SyncConvergence.LaterEditWins` | crates/seance-vault/src/lib.rs:1821-1887 | two copies with equal clocks store one record at different times and sync: both hold the contents stored later |
| `SyncConvergence.StoreEffect` | crates/seance-vault/src/lib.rs:777-827 | a store leaves the given contents, time and kind in the row, live and pending, and touches no other row |
| `SyncConvergence.DeleteEffect` | crates/seance-vault/src/lib.rs:857-875 | a live record of the kind becomes a tombstone with its contents; anything else is left alone |
| `SyncConvergence.SnapshotAgrees` | crates/seance-vault/src/lib.rs:485-513 | a copy made from a snapshot agrees with the one it was taken of, and has its clock |
| `SyncConvergence.OwnCursorMissesEdits` | crates/seance-vault/src/lib.rs:469-483 | asking since one's own, later clock brings nothing, so differing copies stay different |
| `SyncConvergence.KindClashLosesNewer` | crates/seance-vault/src/storage.rs:348-426 | copies that used an id for two kinds agree after an exchange on the record that was sent first, even if it is the earlier one |
| `VaultStorage.VaultStore.ApplyDelta` | crates/seance-vault/src/lib.rs:515-566 | refused exactly without a header, for another vault or out of order, and then without effect; otherwise merged, with the clock and the report |
| `VaultStorage.VaultStore.CreateVault` | crates/seance-vault/src/lib.rs:278-326 | only an uninitialised vault and a passphrase that is not blank; the new vault is empty and unlocked |
| `VaultStorage.VaultStore.ApplySnapshot` | crates/seance-vault/src/lib.rs:485-513 | only into an uninitialised store; the table is the records given, the clock at least that of each |
| `VaultStorage.VaultStore.StoreRecord` | crates/seance-vault/src/lib.rs:777-827 | needs an initialised, unlocked vault; the record gets the next clock and is pending; its last synced clock is kept |
| `VaultStorage.VaultStore.DeleteRecord` | crates/seance-vault/src/lib.rs:857-875 | a live record of the kind becomes a tombstone with the next clock, once; nothing otherwise |
| `SessionRegistry.StepRefines` | crates/seance-core/src/lib.rs:286-349 | each operation moves the maps as the move-to-front list moves, and the counter by its increments |
| `SessionRegistry.RegistryRefinesList` | crates/seance-core/src/lib.rs:286-349 | over every run with fewer than 2^64 increments, both maps have the list's sessions, access numbers are distinct, ordered as the list and at most the counter |
| `SessionRegistry.ListIsLatestUses` | crates/seance-core/src/lib.rs:327-349 | the list depends only on the order of uses and on what is still open |
| `SessionRegistry.MostRecentIsLastOpenUse` | crates/seance-core/src/lib.rs:339-344 | the most recent session is the last one registered or touched that is still open |
| `SessionRegistry.KindIsAsRegistered` | crates/seance-core/src/lib.rs:286-305 | over every run an open session is of the kind it was last registered as |
| `SessionRegistry.StepRefinesIff` | crates/seance-core/src/lib.rs:1134-1136 | an operation keeps the refinement if and only if it does not wrap the counter below the number of another session |
| `SessionRegistry.RefinesIffNoWrapHurts` | crates/seance-core/src/lib.rs:286-349 | over every run of any length, the registry refines the list throughout if and only if no wrap does that |
| `SessionRegistry.TouchRefinesIff` | crates/seance-core/src/lib.rs:502-508 | a touch keeps it if and only if the counter does not wrap or no other session is open |
| `SessionRegistry.WrapIsReached` | crates/seance-core/src/lib.rs:1134-1136 | a run with two sessions that gets there |
| `SessionRegistry.WrapBreaksRecency` | crates/seance-core/src/lib.rs:1134-1136 | once the counter wraps, a touched session is no longer the most recent |
| `SessionRegistry.Registry.RegisterSession` | crates/seance-core/src/lib.rs:1123-1132 | registers under the next access number |
| `SessionRegistry.Registry.TouchSession` | crates/seance-core/src/lib.rs:502-508 | a known session gets the next access number; the counter moves either way |
| `SessionRegistry.Registry.Remove` | crates/seance-core/src/lib.rs:333-337 | both maps lose the session, and whether there was one |
| `SessionRegistry.Registry.MostRecentSessionId` | crates/seance-core/src/lib.rs:339-344 | a session with the greatest access number, none exactly when there is none |
| `SessionRegistry.Registry.PrepareWindow` | crates/seance-core/src/lib.rs:1007-1023 | attaches to a most recent session, a new one or the one asked for, and touches it, or fails without effect; where the maps refine the list, to what the list says |
| `Keybindings.NormalizeChordIsIdempotent` | crates/seance-config/src/keybindings.rs:210-216 | normalising a chord twice is normalising it once, on every string and platform |
| `Keybindings.NormalizedStrokes` | crates/seance-config/src/keybindings.rs:210-216 | the strokes of a normalised chord are the normalised strokes of the chord |
| `Keybindings.NormalizedComponents` | crates/seance-config/src/keybindings.rs:228-248 | component by component: "primary", up to ASCII case, becomes "cmd" on macOS and "super" elsewhere, all others are kept |
| `Keybindings.SplitWhitespaceCuts` | crates/seance-config/src/keybindings.rs:211-215 | the strokes are exactly the stretches without whitespace, all of them, whole and in order |
| `Keybindings.JoinSplit` | crates/seance-config/src/keybindings.rs:229-239 | splitting at a separator and joining with it gives the string back |
| `Keybindings.NormalizingKeepsValidity` | crates/seance-config/src/keybindings.rs:218-226 | a chord is valid exactly when its normal form is |
| `Keybindings.SplitJoinWords` | crates/seance-config/src/keybindings.rs:211-215 | joining words with a space and splitting at whitespace gives them back |
| `Keybindings.SplitJoinParts` | crates/seance-config/src/keybindings.rs:229-239 | joining parts without a separator in them and splitting gives them back |
| `Keybindings.ValidateKeystroke` | crates/seance-config/src/keybindings.rs:250-270 | true exactly for modifiers followed by one key |
| `Keybindings.ValidateChordSyntax` | crates/seance-config/src/keybindings.rs:218-226 | true exactly for a chord with at least one stroke, all of them valid |
| `ConfigModel.Normalized` | crates/seance-config/src/model.rs:242-286 | the field-by-field changes of the clone compute `Normalize` |
| `ConfigModel.NormalizeNormalizes` | crates/seance-config/src/model.rs:242-286 | the result is normalised, and a configuration is left alone exactly when it already was |
| `ConfigModel.NormalizeKeepsCores` | crates/seance-config/src/model.rs:242-286 | every text becomes what is left between outer whitespace, blank optional values and open ids go, the other open ids keep their order, and nothing else changes |
| `Text.TrimIsCore` | crates/seance-config/src/model.rs:242-286 | trimming cuts whitespace off both ends and nothing else |
| `Text.CoreIsUnique` | crates/seance-config/src/model.rs:242-286 | which leaves one possible result |
| `ConfigModel.NormalizeIsIdempotent` | crates/seance-config/src/model.rs:242-286 | normalising twice is normalising once |
| `ConfigValidation.Validate` | crates/seance-config/src/validation.rs:86-260 | Ok exactly when the declarative predicate holds, and every reported error is true of the configuration |
| `ConfigValidation.ValidateScalars` | crates/seance-config/src/validation.rs:86-146 | theme, font, line height, shell and logging ranges, exactly |
| `ConfigValidation.ValidateOverride` | crates/seance-config/src/validation.rs:262-281 | a disabled override has no chord, an enabled one a valid chord |
| `ConfigValidation.ValidateOverrides` | crates/seance-config/src/validation.rs:148-164 | known, valid overrides with pairwise different ids, exactly |
| `ConfigValidation.ValidateCustom` | crates/seance-config/src/validation.rs:165-201 | valid custom bindings with pairwise different triples, exactly |
| `ConfigValidation.ValidateEntries` | crates/seance-config/src/validation.rs:203-240 | non-blank entries with pairwise different ids, lowercased names and files, exactly; the known ids are theirs |
| `ConfigValidation.ValidateVaults` | crates/seance-config/src/validation.rs:203-259 | also that open ids and the default are known |
| `ConfigValidation.DefaultsAreValid` | crates/seance-config/src/model.rs:37-240 | the default configuration is normalised and valid |
| `ConfigStore.StoreStaysAcceptable` | crates/seance-config/src/storage.rs:17-58 | whatever the file held and whatever was asked, the store's value is normalised and valid |
| `ConfigStore.ReopeningRestores` | crates/seance-config/src/storage.rs:24-58 | after a successful change, opening the file again gives the store's value |
| `ConfigStore.ChangeEffect` | crates/seance-config/src/storage.rs:45-58 | a change is taken exactly if it is valid once normalised and can be written; then file and store hold it alike |
| `ConfigStore.IdentityUpdateIsAccepted` | crates/seance-config/src/storage.rs:53-58 | an update that changes nothing succeeds whenever the write does |
| `ConfigStore.Store.WithDefaults` | crates/seance-config/src/storage.rs:17-22 | holds the defaults, and does not touch the file |
| `ConfigStore.Store.LoadOrDefault` | crates/seance-config/src/storage.rs:24-39 | which files load, to what, and which error the others give |
| `ConfigStore.Store.Replace` | crates/seance-config/src/storage.rs:45-51 | kept and written exactly when valid and writable; unchanged otherwise |
| `ConfigStore.Store.Update` | crates/seance-config/src/storage.rs:53-58 | the same for a change of the current value |
| `Transcript.FileHoldsLongestPrefix` | crates/seance-core/src/session_logs.rs:142-195 | over every run the file holds the longest prefix of the taken events that fits the limit, then at most one marker |
| `Transcript.LongestFitIsLongest` | crates/seance-core/src/session_logs.rs:142-195 | a prefix fits exactly when it is no longer than that one |
| `Transcript.FileSizeIsBounded` | crates/seance-core/src/session_logs.rs:169-190 | events take at most the limit, and the marker is the only excess |
| `Transcript.LargestLimitNeverTruncates` | crates/seance-core/src/session_logs.rs:169-190 | with the limit at u64::MAX, which validation does not let a configuration have, everything is written |
| `Transcript.DropsAreCounted` | crates/seance-core/src/session_logs.rs:127-195 | the drop counter is the refused events plus one if truncated |
| `Transcript.LostEventsExceedDrops` | crates/seance-core/src/session_logs.rs:127-195 | over every run, the events lost are the drop counter plus those swallowed after truncation plus those a failed write stranded; so exactly when the counter is right |
| `Transcript.WriteTranscriptEvents` | crates/seance-core/src/session_logs.rs:142-195 | the writer's loop writes the longest prefix that fits and one marker if something is left |
| `Transcript.FileTranscriptSink.RecordEvent` | crates/seance-core/src/session_logs.rs:127-135 | an event is queued or, if the channel is full or closed, counted as dropped |
| `Transcript.FileTranscriptSink.WriteNext` | crates/seance-core/src/session_logs.rs:152-191 | one turn of the writer, with failing writes |
| `Transcript.SanitizeGivesCleanNames` | crates/seance-core/src/session_logs.rs:197-214 | every title gives a clean file name, and clean names are left alone |
| `Transcript.SanitizeKeepsTheCore` | crates/seance-core/src/session_logs.rs:197-214 | letters, digits, dashes and underscores are kept in place, all else becomes a dash, dashes at the ends go, and "session" stands for nothing left |
| `XmlEscape.EscapeXmlIsOnePass` | crates/seance-build/src/sparkle.rs:149-156 | the five replacements equal one pass with a table, on every string |
| `XmlEscape.EscapeXmlHasNoMarkup` | crates/seance-build/src/sparkle.rs:149-156 | the output has no raw `<`, `>`, `"` or `'` |
| `XmlEscape.EscapeXmlRoundTrip` | crates/seance-build/src/sparkle.rs:149-156 | decoding the predefined entities (section 4.6 of XML 1.0) recovers the input |
| `XmlEscape.EscapeXmlInjective` | crates/seance-build/src/sparkle.rs:149-156 | different strings escape to different strings |

## Left out

- The user interface, menus, rendering, the updater, tracing and the release tooling around the XML escaper: input, output and foreign calls.
- russh, russh-sftp, tokio, serde, toml, base64, sqlite and cryptography: their effects are parameters of events. Reading back a written configuration gives the value written, and an encoded transcript event is an arbitrary byte string.
- SFTP and SSH authentication: thin wrappers over library calls.
- `str::to_lowercase` is an arbitrary function in every theorem that mentions it.
- The terminal's viewport is an offset clamped to a range, moved by deltas, pages and absolute targets as crates/seance-terminal/src/render.rs asks of the terminal library, whose source is not part of this model.
- Time: publish budgets, deadlines and timestamps are choices of the events.
- Start and stop of a tunnel are atomic steps, as the controller's lock makes them; the two parts of the completion handler are separate steps.
- Broadcasts to subscribers and the order in which sessions, tunnels and vaults are listed: they would only add easy members.
- Deserialising key bindings and migrating old ones: finite tables.
- Passphrase rotation and device enrolment of vaults; of a snapshot only the records and the clock are modelled.
- A store call that fails before its effect changes nothing in the database; failures after the effect are modelled. Listing the hosts of a newly created vault, which has none, succeeds.
- IndexAgreement.IndexAgreesOverRuns: leaves the cached vault name of an entry out of the agreement, because a rename does not refresh it; IndexAgreement.RebuiltStep has it in.
- SyncConvergence.CopiesConverge: compares copies up to schema version and each copy's own bookkeeping; the 64-bit bound of the logical clock is not modelled.
- A failed transcript write leaves no partial line in the file.
- ScrollCompaction.CompactPreservesViewport: exact for each run, and without clamping for each burst; in a clamped viewport a run that is not mergeable can still be absorbed by the pages and jumps after it, which is characterised for jumps to the top and bottom only.
- ConfigModel.Normalized: sections that are neither normalised nor validated are one opaque field.
