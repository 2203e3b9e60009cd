# Typhon in Dafny

A model of the stateful protocols and the arithmetic of the Typhon Wayland compositor, with proofs about all inputs, all
failure patterns and all runs. `dafny verify dfyconfig.toml` checks everything.

- **Configuration transactions** (`Filesystem`, `PowerFailure`, `CursorTransaction`, `CursorPublication`, `CursorStore`,
  `CursorLock`, `CursorDurability`, `PrivateConfig`, `ConfigDurability`, `CursorManager`). A directory maps names to inodes.
  Every system call is one atomic step that may succeed or fail. With `reliable` the real calls succeed and only injected
  faults fail, with these exceptions: if `blind`, every stat of the configuration entry fails; if `stuck`, that entry cannot
  be removed nor a backup be renamed; if `full`, no bytes can be written; if `contended`, another process holds the lock.
  Other processes act after the lock was opened, after it was locked, before the sweep, before the publication, and
  immediately before each check of the lock's identity. There they may replace or remove the lock file and, unless the
  directory is `solitary`, the configuration file; they never act between a check and the calls that rely on it, and never
  touch the transaction files. Every state-changing step and every check of the lock is appended to a trace; the theorems
  speak about every prefix of it, and `Recorded` says that each state follows from the one before. After a power loss the
  disk holds the configuration entry of any state since the last directory sync, and of the files only the bytes of those
  that were synced and still had a name.
- **Child supervision** (`RestartLimiter`, `Supervisor`, `ChildFds`). The operating system makes arbitrary choices: processes
  end at any time, and calls are refused. With `reliable` nothing is refused, and with `prompt` a process has ended once it
  was sent SIGKILL. Ghost records keep what was ever issued, attempted, signalled and refused. Every public method ensures
  `Later` between its first and its last snapshot, a reflexive and transitive relation, so the theorems hold between any two
  moments of any run of calls (`Drive`).
- **The one-slot worker** (`CursorWorker`) as interleaved atomic steps of two threads.
- **Window lifecycle animation** (`Geometry`, `Lamp`, `LampMotion`, `Squash`, `LifecycleAnimator`) over exact reals. For the
  bounds `powf` is any function that maps a base in [0, 1] and an exponent of at least 1 into [0, 1] and keeps 0; for the
  motion it is any function with the laws of real powers on [0, 1]: pow(b, 1) = b, pow(b, 2) = b * b, powers of powers
  multiply exponents, it rises with the base and falls with the exponent, and it stays above its tangent at 1.
- **Cursor files and playback** (`Bytes`, `XCursor`, `CursorFrames`, `CursorClock`), with explicit word sizes and saturation.
- **Launch accounting and the action codec** (`LaunchScope`, `SystemAction`).

The lock file can be replaced while a write is under way. No exchange, no file put in place and no file of others unlinked
ever happens unless the file that was locked was found under the lock name since others last acted (`CursorStore.Write`);
so once the lock was replaced nothing of the kind happens any more (`CursorLock.NothingUnderLostLock`), and a success is
always under the lock.

Where a promised property is false of the code, the code is modelled as it is and the exact condition is proved:

- `receive_completion` does not always return. It blocks in `recv` when nothing is outstanding and the worker lives on
  (`CursorWorker.BlockedRun`); and it spins on `busy` when a job was submitted before the completion of one that panicked,
  or whose notification fails, was collected (`StrandedRun`, `UnnotifiedRun`). A call returns in every course of events if
  and only if a completion is there with nothing at risk behind it, or a job is on its way, or the worker is bound to exit
  (`CallReturnsIff`); then it is served within five worker steps and released within four more. In terms of what the
  client can count: of the numbers of outstanding jobs there can be, none, one and two, the call is safe whatever else
  happened if and only if it is one (`SafeCallIff`).
- The descriptor move of a child is correct exactly when no target is one of the lowest unused numbers from 100 up
  (`ChildFds.ConfigureChildFds`, counterexample `TargetOnTemporary`). The code does not refuse such targets; targets below
  100 are always safe (`BelowFloorIsApart`).
- A failed write over an existing configuration leaves it in place if and only if its steps hold no exchange or two
  (`CursorStore.Write`). After the exchange, two `?` returns of the publication (src/cursor_persistence.rs:794-795) leave
  without the rollback that every other failure gets, and a rollback can itself fail. The old document is then still
  reachable, under the temporary name or, when the removal of the candidate parks it and cannot put it back, under a
  quarantine name; but the sweep of the next write unlinks it before anything has been synced. So after a failed write the
  old document lasts until the next commit if and only if it was left in place (`CursorDurability.WriteTwice`). In the
  failing run every call succeeds but the stats of one entry: two writes report an error each, and the document that was
  committed before them is gone (`BlindWrites`).
- A power loss does not always leave a document. Whatever fails, over an existing configuration or not, every power loss
  at every step of a write leaves one if and only if the write does not take its new file back after it had been in place
  (`CursorDurability.PowerLossIff`); over an existing one that means: unless it fails after two exchanges with the candidate
  unlinked (`TakenBackIff`). With every real call succeeding the fault decides: the write survives if and only if the fault is
  not one that makes it undo its exchange, or give up the name it claimed (`WriteUnderFault`; the failing runs are
  `RolledBackWrite`). On a file system that keeps its directory operations in order it always survives (`OrderedPowerLoss`).
  After a failed write the disk may still name what was in place before it; a successful write ends that (`WriteSurvives`).
- A success of the private configuration writer is certain on disk if and only if the directory was synced with the new
  file in place (`ConfigDurability.ConfigDurableIff`): after a failed sync and a failed rollback the code reports success
  (`UnsyncedSuccess`). Every power loss during its write leaves the previous or the new bytes if and only if the write
  succeeds or never gets the new file in place (`ConfigEnduresIff`); and after an error the disk is certain to hold what was
  there before if and only if the new file was never in place or the directory was synced after the rollback
  (`ConfigReturnsIff`).
- The cursor clock shows the next frame at its deadline if and only if the elapsed milliseconds still fit in 64 bits
  (`CursorClock.NextFrameAtDeadline`, failing input `StuckAtDeadline`), and truncation makes a deadline late by less than a millisecond (`DeadlineIsTight`).
- An action packet with zero occurrences, or a welcome of another version than 1.0, can be encoded but not decoded
  (`SystemAction.RoundTrip`).

## Model

| member | source | states |
|---|---|---|
| `CursorStore.Write` | src/cursor_persistence.rs:188-286 | For every failure pattern: each step leaves the complete old or the complete new, private, synced document in place; the old inode keeps a name until the new one was verified and the directory synced; only the candidate, the replaced file and earlier private debris are ever unlinked; every exchange, every file put in place and every file of others unlinked is under the lock, and so is a success; nothing happens after the lock is found lost, which is an error; while another process holds the lock, or debris chokes the directory, nothing is published; Ok means published and committed, with a directory sync after which every later state names the new file, a clean Ok ends with one, and a write that fails never syncs the directory; a failed write leaves the old file in place exactly when it exchanged the entries zero or two times, and reachable always; with reliable calls one injected fault decides the result, the number of exchanges, whether a free name is claimed, and the final entries, and without a fault the write succeeds unless the lock is lost |
| `CursorLock.NothingUnderLostLock` | src/cursor_persistence.rs:219-234 | From the moment the lock file is gone or another one, no privileged step follows: no exchange, no file put in place, no file of others unlinked; and the lock is not found in place at the end, which a success would need |
| `CursorLock.WriteUnderLock` | src/cursor_persistence.rs:188-286 | Carried out on the directory, with the lock replaced before any check: the write fails and from then on exchanges nothing, puts nothing in place and unlinks nothing it did not make; with reliable calls it succeeds, or reports the loss and does nothing after noticing |
| `CursorDurability.PowerLoss` | src/cursor_persistence.rs:246-286 | The disk holds the entries of any state since the last directory sync, and bytes are certain only for files synced and still named at the crash. Then it names the old file, which still has a name and its bytes, or the new one, with its bytes if that still has a name; once the directory was synced, it holds exactly the new document |
| `CursorDurability.PowerLossAtFirst` | src/cursor_persistence.rs:246-286 | The same where nothing existed before: nothing or the new file, and after a sync exactly the new document |
| `CursorDurability.PowerLossIff` | src/cursor_persistence.rs:246-286 | Whatever fails, over an existing configuration or not: every power loss at every step leaves the old or the new document (or none, where none was) if and only if the new file is not taken back after it had been in place; a write that succeeds always survives |
| `CursorDurability.LostByUnlinking` | src/cursor_persistence.rs:277-284 | A candidate is lost only by unlinking it after its publication, in a write that fails and has not synced the directory |
| `CursorDurability.LostIsTakenBack` | src/cursor_persistence.rs:246-286 | What was lost at any step is without a name when the write ends |
| `CursorDurability.TakenBackIff` | src/cursor_persistence.rs:755-858 | Over an existing configuration the new file is taken back if and only if the write fails after two exchanges and the candidate was unlinked |
| `CursorDurability.WithoutExchange` | src/cursor_persistence.rs:755-858 | Over an existing configuration nothing but an exchange ever puts the new file in place |
| `CursorDurability.FaultDecides` | src/cursor_persistence.rs:718-858 | With every real call succeeding it is taken back if and only if the fault makes the write undo its exchange or give up the claimed name |
| `CursorDurability.WriteUnderFault` | src/cursor_persistence.rs:188-286 | Carried out on the directory: the three conditions together, the last one a fact about the fault alone, for first writes and for later ones |
| `CursorDurability.OrderedPowerLoss` | src/cursor_persistence.rs:246-286 | On a file system that orders its directory operations a document survives every power loss, in failing writes too |
| `CursorDurability.PastOrPresent` | src/cursor_persistence.rs:188-286 | After any past, a power loss finds an image of the current write alone, or names what was in place before it since the last directory sync |
| `CursorDurability.PastIsSettled` | src/cursor_persistence.rs:188-286 | After a past that is certain on disk, a power loss finds an image of the current write alone |
| `CursorDurability.CertainAgain` | src/cursor_persistence.rs:188-286 | After any past, failed writes included, a successful write leaves only the new file on disk, with exactly its bytes |
| `CursorDurability.WriteSurvives` | src/cursor_persistence.rs:188-286 | Carried out on the directory after any past, with or without an existing configuration: every power loss leaves an image of this write or a leftover; without leftovers, the old document or the new file, and if the write succeeds always the bytes of one of the two; after a success exactly the new ones, whatever came before; after a clean success the disk holds every entry as it is, so that no replaced file can come back |
| `CursorDurability.CleanIsFinal` | src/cursor_persistence.rs:849-857 | A history that ends in a directory sync leaves the disk no other state |
| `CursorDurability.RolledBackWrite` | src/cursor_persistence.rs:735-848 | The failing runs, for every such fault and for first writes too: the write reports the failure and leaves the entry as it was, and a power loss may leave no document at all |
| `CursorDurability.WriteTwice` | src/cursor_persistence.rs:669-705 | After a failed write, with a later write whose calls succeed, the old document stays reachable until that commits if and only if the failed write left it in place |
| `CursorDurability.BlindWrites` | src/cursor_persistence.rs:779-801 | The failing run: two writes report errors, the document committed before them is unreachable, the second new one is in place and nothing was synced |
| `CursorStore.Prepare` | src/cursor_persistence.rs:203-244 | Locking, sweeping and inspecting keep the file at every step, unlink only private debris and only under the lock, report the existing file, and stop at a lost lock, a lock held by others or too much debris |
| `CursorStore.Admit` | src/cursor_persistence.rs:203-234 | Admission changes nothing but the lock entry; success means that the locked file was found in place at the end; a lock found lost is the last step and an error; while another process holds it, nothing but a lock file is made, and the error is Busy |
| `CursorStore.TakeLock` | src/cursor_persistence.rs:203-217 | Opens and locks the lock file while others act: Ok is the file that was there on entry, or a new one, locked by this writer alone |
| `CursorStore.OpenLock` | src/cursor_persistence.rs:564-596 | Only the lock entry may be created; the identity returned is the one under the lock name |
| `CursorStore.SweepDebris` | src/cursor_persistence.rs:669-705 | Only private transaction files are removed, all of them when calls are reliable; more than 32, or 32 that cannot be removed, are an error and stay |
| `CursorStore.SweepAll` | src/cursor_persistence.rs:688-699 | Every name is tried once; what is not removed is counted |
| `CursorStore.SweepOne` | src/cursor_persistence.rs:689-699 | Removes one private debris entry by identity or leaves it; a file that is not private always stays |
| `CursorStore.Recheck` | src/cursor_persistence.rs:628-640 | A lock check extends the admission record; a lost lock ends it, and otherwise the lock was just found in place |
| `CursorStore.Pause` | src/cursor_persistence.rs:205-226 | What others do between two steps of the admission touches the lock and, unless solitary, the configuration only |
| `CursorPublication.Stage` | src/cursor_persistence.rs:245-286 | From the existing file to the published one: safe steps, privileged ones under the lock, old inode preserved until commit, candidate removed again on failure |
| `CursorPublication.CreateTemporary` | src/cursor_persistence.rs:642-667 | A fresh empty private file under an unused temporary name, within eight attempts |
| `CursorPublication.CreateCandidate` | src/cursor_persistence.rs:245-247 | The candidate is new and nothing else changed |
| `CursorPublication.Inspect` | src/cursor_persistence.rs:236-244 | Reports the identity of an existing private file, absence, or refuses it |
| `CursorPublication.FillTemporary` | src/cursor_persistence.rs:248-266 | After Ok the candidate holds the whole document, private and synced; no entry changes; on a full disk it fails |
| `CursorPublication.FillAndPublish` | src/cursor_persistence.rs:248-276 | Publication only of a complete candidate, and only under the lock |
| `CursorPublication.PauseAndPublish` | src/cursor_persistence.rs:261-275 | Others may act before the publication; what they do does not weaken it |
| `CursorPublication.Commit` | src/cursor_persistence.rs:248-285 | On failure the candidate's own entry is removed and the old file is in place exactly unless one exchange happened, and reachable always |
| `CursorPublication.Publish` | src/cursor_persistence.rs:707-860 | Chooses the branch by the existing file; lost lock implies error and no further step |
| `CursorPublication.PublishNew` | src/cursor_persistence.rs:718-754 | Claims a free name without replacing, only while the lock is found in place; on failure takes only its own file away |
| `CursorPublication.PublishOver` | src/cursor_persistence.rs:755-858 | Only the very file that was inspected is exchanged, and only under the lock: any other is refused with nothing done; exchange, verify, sync, clean up; on error the old inode is at the target if zero or two exchanges happened, otherwise at the temporary name, and nothing was unlinked or synced |
| `CursorPublication.SwapUnderLock` | src/cursor_persistence.rs:765-858 | The exchange follows a check that finds the lock in place; a lost lock means no exchange and an error |
| `CursorPublication.ClaimTarget` | src/cursor_persistence.rs:721-754 | The claimed name is verified and synced, or the claim is undone; a name that is taken is refused as insecure |
| `CursorPublication.SettleClaim` | src/cursor_persistence.rs:735-753 | Ok is file sync then directory sync; with reliable calls a fault removes the claimed file |
| `CursorPublication.SwapTarget` | src/cursor_persistence.rs:765-858 | The exchanged-out inode is unlinked only after the commit; a failure is the exchange undone or exactly one exchange; a success names the new file from the sync on |
| `CursorPublication.VerifyExchange` | src/cursor_persistence.rs:779-848 | Accepts only the exact swap of the two expected files; otherwise swaps back, and reports a stranger as insecure |
| `CursorPublication.CleanupOld` | src/cursor_persistence.rs:849-857 | Cleanup never touches the target; failing to clean up only degrades; a clean one ends with a directory sync |
| `CursorTransaction.RollbackExchange` | src/cursor_persistence.rs:862-886 | Swaps back only when the two expected files are found, and then whenever calls are reliable; otherwise changes nothing |
| `CursorTransaction.RemoveOwned` | src/cursor_persistence.rs:985-1021 | Unlinks only the expected inode, through a quarantine name; a stranger is put back |
| `CursorTransaction.RestoreEntry` | src/cursor_persistence.rs:1023-1036 | Moves the parked entry back without replacing |
| `CursorTransaction.RemovalIsSafe` | src/cursor_persistence.rs:985-1021 | A removal keeps every safe state safe, at every step |
| `CursorTransaction.RemovalKeeps` | src/cursor_persistence.rs:985-1021 | A removal keeps every other inode reachable at every step |
| `CursorTransaction.RemovalOps` | src/cursor_persistence.rs:985-1021 | A removal only renames and unlinks its own file: no exchange, no directory sync, no lock |
| `CursorTransaction.RequireLockIdentity` | src/cursor_persistence.rs:628-640 | Holds exactly for the locked file under the lock name, and is then the last recorded step; otherwise the loss is, and the result is an error |
| `CursorTransaction.Interlude` | src/cursor_persistence.rs:205-234 | Whatever others do, no transaction file is touched, and in a solitary directory every safe state stays safe |
| `CursorTransaction.VerifyPublished` | src/cursor_persistence.rs:939-955 | Ok means the target is the expected inode, private and synced; another one is insecure, a missing one a failed write |
| `CursorManager.CursorThemeManager.Apply` | src/cursor_manager.rs:620-664 | A change is published in memory only after the file holds it, committed: verified in place and the directory synced after it; the active theme is then of that configuration; what is active already is not touched; busy means that nothing can be loaded or that the retired themes, without those nobody uses, leave no room; an error leaves active theme, desired configuration and generation alone and has synced nothing; the retired themes stay within 16; no used theme is released |
| `CursorManager.CursorThemeManager.Load` | src/cursor_manager.rs:666-681 | A theme of the requested configuration, or an error; busy exactly when the loader was handed to the worker |
| `CursorManager.CursorThemeManager.Persist` | src/cursor_manager.rs:635-648 | Success carries the durability of the write, failure that nothing was synced |
| `CursorManager.CursorThemeManager.Publish` | src/cursor_manager.rs:692-734 | The previous theme is retired, the generation grows, source and persistence state are the given ones, no cached shape of the previous theme is left, and every theme ever activated is active, retired or released |
| `CursorManager.CursorThemeManager.ImageFor` | src/cursor_manager.rs:342-380 | Always an image of the active theme: the pointer for a number that is no shape; a shape asked for before shows the same image again; the first request shows what the loader found, or the move image for a grabbing hand, or the pointer, and later ones show the same if and only if the cache had room or the loader found none |
| `CursorManager.CursorThemeManager.CollectRetired` | src/cursor_manager.rs:609-618 | Releases exactly the retired themes without an external owner |
| `CursorManager.CursorThemeManager.EnsureCapacity` | src/cursor_manager.rs:683-690 | Collects first, then admits below 16 |
| `CursorManager.StillOwned` | src/cursor_manager.rs:609-613 | Keeps every used theme and only those |
| `PrivateConfig.WriteBytes` | src/private_config.rs:139-232 | All or nothing for every assignment of success and failure: Ok means exactly the new bytes, Err means exactly the previous file or its absence; at every step one of the two; the previous file keeps a name until the directory was synced with the new one, and its backup was synced before it was replaced; after Ok the new file stayed in place, after Err nothing was synced with it; with reliable calls the failing syncs and a full disk decide result, steps and entries: a rollback is followed by a directory sync exactly if that one does not fail, a success ends with one exactly if the last one does not, and an error leaves no name of its own behind |
| `PrivateConfig.BackUp` | src/private_config.rs:157-183 | The backup is a second name of the existing file, which is private, synced under it; or it is taken away again |
| `PrivateConfig.PrepareTemporary` | src/private_config.rs:191-204 | Ok means all the bytes, synced, under the temporary name; the file itself is untouched |
| `PrivateConfig.Install` | src/private_config.rs:205-223 | The file is the new one and synced, or the old one again; a failed rollback reports Ok with the new bytes in place |
| `PrivateConfig.Clean` | src/private_config.rs:217-222 | After a synced replacement the backup goes and the new file stays, synced, with a directory sync last unless that fails |
| `PrivateConfig.RollBack` | src/private_config.rs:206-216 | Restores the previous file or its absence, which leaves the new file without a name, and then syncs the directory; or changes nothing |
| `PrivateConfig.ReplaceFile` | src/private_config.rs:190-224 | Preparation and installation together are all or nothing |
| `PrivateConfig.Discard` | src/private_config.rs:225-230 | Best-effort removal of the write's own names only |
| `PrivateConfig.DiscardBoth` | src/private_config.rs:225-230 | After a failure only the write's own names go, and with reliable calls both do |
| `ConfigDurability.ConfigPowerLoss` | src/private_config.rs:139-232 | At any step the disk names the previous file, which is there with its bytes, or the new one, with all its bytes if it still has a name |
| `ConfigDurability.ConfigEnduresIff` | src/private_config.rs:139-232 | Every power loss at every step leaves the previous or the new bytes if and only if the write succeeds or never gets the new file in place |
| `ConfigDurability.ConfigDurableIff` | src/private_config.rs:205-223 | A success is certain on disk if and only if the directory was synced while the new file was in place |
| `ConfigDurability.ConfigReturnsIff` | src/private_config.rs:206-216 | After an error the disk is certain to hold the previous file, or its absence, if and only if the new file was never in place or the directory was synced after the rollback |
| `ConfigDurability.FlushedIsFinal` | src/private_config.rs:217-222 | After a success that ends with a directory sync the disk holds the directory as it is |
| `ConfigDurability.WriteConfig` | src/private_config.rs:139-232 | Carried out on the directory; with reliable calls all three conditions are facts about the failing syncs and the full disk alone |
| `ConfigDurability.UnsyncedSuccess` | src/private_config.rs:206-216 | The failing run: the sync and the rollback fail, success is reported, and a power loss may leave what was there before |
| `CursorWorker.Protocol` | src/cursor_manager.rs:826-907 | Over every interleaving: a free token means an empty job slot and no job in the worker, so a full slot is never met; accepted jobs are, in order, received, undelivered, in the completion slot, in the worker, in the job slot, lost; at most one is lost, by an exited worker, accepted after a release |
| `CursorWorker.NothingAfterClosing` | src/cursor_manager.rs:860-893 | Once the flag is down and no submission is under way that saw it up, no job is accepted in any continuation |
| `CursorWorker.AcceptedSawFlag` | src/cursor_manager.rs:860-893 | Every accepted job was submitted after the client found the worker marked available |
| `CursorWorker.RefusedSubmission` | src/cursor_manager.rs:872-879 | Over every interleaving: a submission that finds the channel closed finds a worker that has exited, marks it unavailable and frees the token, and leaves no other trace |
| `CursorWorker.StepKeepsInv` | src/cursor_manager.rs:826-907 | Every atomic step of either thread keeps the invariant |
| `CursorWorker.WaitEndsIff` | src/cursor_manager.rs:895-907 | No course of a wait is ever stranded if and only if no job sits behind a worker that is leaving or still has to notify |
| `CursorWorker.CollectedBeforeWaiting` | src/cursor_manager.rs:895-907 | With exactly one job outstanding every course of the call returns: served within five worker steps, released within four more |
| `CursorWorker.StrandedRun` | src/cursor_manager.rs:826-907 | A run in which a job panics and the client waits forever |
| `CursorWorker.UnnotifiedRun` | src/cursor_manager.rs:826-907 | A run in which no job panics, the call begins unstranded, and a failed notification then strands it |
| `CursorWorker.BlockedRun` | src/cursor_manager.rs:895-896 | A run in which everything was collected and a further call blocks for good |
| `CursorWorker.SafeCallIff` | src/cursor_manager.rs:895-907 | Over all reachable states and all courses: a call with n outstanding jobs, of the 0, 1 or 2 there can be, always returns if and only if n is 1 |
| `CursorWorker.CallReturnsIff` | src/cursor_manager.rs:895-907 | For every state: the call returns in every course if and only if a completion is there with nothing at risk behind it, or a job is on its way, or the worker is bound to exit |
| `CursorWorker.ServiceFollows` | src/cursor_manager.rs:826-896 | In such a state every five worker steps end in a completion or the end of the channel |
| `CursorWorker.ServiceIsNotBlocked` | src/cursor_manager.rs:826-896 | Until then the worker always has a step |
| `CursorWorker.WaitIsBounded` | src/cursor_manager.rs:897-906 | A wait without risk is released within four worker steps, and the worker does not stop before |
| `CursorWorker.RiskStrands` | src/cursor_manager.rs:826-907 | A wait at risk can end with the worker gone and the token held |
| `CursorWorker.NothingComes` | src/cursor_manager.rs:826-896 | With nothing outstanding and a worker that stays, a state is reached where nobody can move |
| `CursorWorker.OutstandingIs` | src/cursor_manager.rs:826-907 | At most two jobs are ever outstanding, and where they are |
| `CursorWorker.StepApproaches` | src/cursor_manager.rs:826-907 | Each worker step of a wait without risk comes nearer to the release, and the risk does not arise |
| `CursorWorker.WorkerIsNotBlocked` | src/cursor_manager.rs:826-850 | Until the release the worker always has a step |
| `CursorWorker.DoomedStays` | src/cursor_manager.rs:895-907 | Once stranded, the token is never released in any continuation |
| `CursorWorker.ReleaseFollows` | src/cursor_manager.rs:826-850 | In a wait without that risk no interleaving is stranded, and any four worker steps release the token |
| `ChildFds.ConfigureChildFds` | src/process.rs:300-347 | Without a failing call it succeeds, with or without close_range, and a refusing close_range always fails it. After success each target holds what its source held on entry, survives exec, and no temporary is open, for overlapping and cyclic mappings alike, if and only if no target is a number the temporaries take; then all other descriptors from 3 up, or up to the fallback limit where close_range is missing, are close-on-exec |
| `ChildFds.DuplicateSources` | src/process.rs:301-309 | All sources are duplicated above the floor in order, or nothing changed; without a failing call all are |
| `ChildFds.SealOthers` | src/process.rs:311-324 | Fails exactly when close_range is refused; marks everything from 3 up close-on-exec, or up to the fallback limit exactly where close_range is missing |
| `ChildFds.FillTargets` | src/process.rs:326-345 | Filling keeps every temporary's file until its target is served |
| `ChildFds.CloseAll` | src/process.rs:349-354 | Closes exactly the temporaries |
| `ChildFds.BelowFloorIsApart` | src/process.rs:300-347 | Targets below 100 always satisfy the condition |
| `ChildFds.TargetOnTemporary` | src/process.rs:300-347 | A mapping that violates it |
| `ChildFds.SpawnCommand.MapFd` | src/process.rs:198-223 | Accepts a mapping exactly when the command stays valid; otherwise unchanged |
| `ChildFds.ValidateMappings` | src/process.rs:273-298 | Ok exactly for valid mappings |
| `RestartLimiter.AttemptKeeps` | src/process.rs:653-671 | An admitted attempt keeps every max + 1 consecutive attempts of the lineage more than a window apart |
| `RestartLimiter.RefusalIsDue` | src/process.rs:654-670 | Though the limiter sees one child's history only, it refuses if and only if the last max attempts of the whole lineage lie within the window |
| `RestartLimiter.Prune` | src/process.rs:654-660 | Drops exactly the leading entries older than the window |
| `RestartLimiter.Pruned` | src/process.rs:654-660 | What remains is a suffix, what is dropped is too old, the first kept is not |
| `Supervisor.RestartsAreSpaced` | src/process.rs:630-702 | Between any two moments of any run: while the guard is not set anew, logs only grow and any max + 1 consecutive attempts of a lineage, across children, span more than the window; ids keep their meaning; at most one batch of kills, after the grace period; quiescing lasts and restarts nothing |
| `Supervisor.Drive` | src/process.rs:431-935 | Any sequence of calls of the public operations, of the supervisor and of its bootstrap guards, is such a run |
| `Supervisor.Perform` | src/process.rs:431-935 | Each public operation, the guards' included, leads to a later snapshot and keeps the invariants |
| `Supervisor.Operate` | src/process.rs:431-806 | The same for the operations of the supervisor itself, reaping after an external poll included |
| `Supervisor.RunIsLater` | src/process.rs:431-806 | Any two snapshots of a run are in the relation, not only neighbours |
| `Supervisor.LaterTransitive` | src/process.rs:431-806 | What no operation undoes, no sequence of operations undoes |
| `Supervisor.TablesAgree` | src/process.rs:491-628 | In every reachable state the two tables are mutually inverse, a recorded group implies session ownership, and at most one batch of kills was sent, not before 750 ms |
| `Supervisor.ChildSupervisor.SpawnChild` | src/process.rs:491-556 | A new id never used before and an unused pid enter both tables, or no table changes; it succeeds exactly when a dedicated group has session ownership, ids are left, and the system starts the process |
| `Supervisor.ChildSupervisor.Start` | src/process.rs:511-531 | A process that no unreaped child shares its pid with, with a known group exactly if dedicated; or one of two errors |
| `Supervisor.ChildSupervisor.Spawn` | src/process.rs:447-462 | As above, with a fresh lineage that is not restartable |
| `Supervisor.ChildSupervisor.SpawnRestartable` | src/process.rs:479-489 | As above, restartable |
| `Supervisor.ChildSupervisor.Admit` | src/process.rs:653-671 | Refuses exactly when the last max attempts of the lineage lie within the window, and otherwise logs the attempt |
| `Supervisor.ChildSupervisor.Relaunch` | src/process.rs:672-701 | The restarted child inherits options and history, or the attempt counts as suppressed; it is started exactly when it can be |
| `Supervisor.ChildSupervisor.MaybeRestart` | src/process.rs:630-702 | Attempts exactly when not quiescing, the child is critical or failed and asks for restarts, there is a factory, and the limiter admits; an attempt succeeds exactly when the process can be started; counts every other eligible exit as suppressed |
| `Supervisor.PolicyIs` | src/process.rs:638-642 | A critical component is always worth a restart, others that ask for it only after a failure |
| `Supervisor.ChildSupervisor.AttemptRestart` | src/process.rs:653-701 | The limiter's decision and its consequences: log, tables, history and suppressions |
| `Supervisor.ChildSupervisor.ReapOne` | src/process.rs:587-627 | A child that has ended is found, with its status, leaves both tables, and is restarted if it is to be and can be; no restart while quiescing; an error exactly for a refused wait |
| `Supervisor.ChildSupervisor.Remove` | src/process.rs:596-600 | The ended child leaves both tables; at most its restart takes its place |
| `Supervisor.ChildSupervisor.ReapAfterPoll` | src/process.rs:583-628 | Every child found on entry is still there unchanged or reported exactly once; without a refused wait every child that had ended is reported, with its status; every new child is the restart of a reported one with its options; none while quiescing |
| `Supervisor.ChildSupervisor.ReapExited` | src/process.rs:574-577 | A termination request read by this call already prevents restarts; a failed read fails it before anything is reaped; no ended child is missed |
| `Supervisor.ChildSupervisor.DrainSignals` | src/process.rs:857-889 | The first pending request is kept and quiescing starts, however the drain ends: signals 1, 2, 3 and 15 are hangup, interrupt, quit and terminate, and no other number counts; an error exactly for a short or broken read |
| `Supervisor.RequestsAre` | src/process.rs:857-889 | The first number of a request that the drain reaches decides the request, and without one there is none |
| `Supervisor.ChildSupervisor.TakeTerminationSignal` | src/process.rs:431-433 | Takes the request; quiescing stays |
| `Supervisor.ChildSupervisor.SetRestartGuard` | src/process.rs:443-445 | The limit counts attempts from then on |
| `Supervisor.ChildSupervisor.BeginQuiesce` | src/process.rs:704-706 | Quiescing is never reset |
| `Supervisor.ChildSupervisor.SignalOwned` | src/process.rs:717-730 | Signals each session-owned child once, and nobody else; a strict round fails exactly for a refusal and ends there |
| `Supervisor.ChildSupervisor.BeginShutdown` | src/process.rs:708-732 | Starts once, quiesces, and terminates session-owned children only, all of them unless a signal is refused, which is the only error |
| `Supervisor.ChildSupervisor.AdvanceShutdown` | src/process.rs:734-769 | True exactly when a shutdown is under way and no session-owned child remains; kills only session-owned children, in one batch ever, at least 750 ms after the start; then, if any is left by the first reap, it does kill, and all of them unless a signal is refused; with nothing refused and killed processes ended the shutdown is complete after that step; an error exactly for a refused call; restarts nothing and leaves every log alone while quiescing |
| `Supervisor.ChildSupervisor.KillWhenDue` | src/process.rs:747-762 | The batch is sent exactly when it is due, once, to every session-owned child |
| `Supervisor.ChildSupervisor.KillAndReap` | src/process.rs:747-768 | What was killed and has ended is gone after the second reap |
| `Supervisor.EndedAreGone` | src/process.rs:583-628 | A reap that reports all ended children leaves none of them in the table |
| `Supervisor.ChildSupervisor.BeginEmergencyCleanup` | src/process.rs:771-778 | Terminates every session-owned child and nobody else |
| `Supervisor.ChildSupervisor.KillSessionOwnedNow` | src/process.rs:780-789 | Signals only session-owned children; on success all of them, with both signals; quiesces, and issues no id and logs no attempt; with nothing refused and killed processes ended none is left |
| `Supervisor.ChildSupervisor.KillManagedNow` | src/process.rs:791-798 | Signals the one child; true exactly when it is gone, which it is when nothing is refused and killed processes end; while quiescing no id is issued and no log changes |
| `Supervisor.ChildSupervisor.TerminateManaged` | src/process.rs:800-806 | Signals the one child if it is there; an error exactly for a refusal |
| `Supervisor.ChildSupervisor.Drop` | src/process.rs:1009-1022 | Kills every session-owned child and nobody else, and reaps those that ended; ids and logs stay; without children it does nothing |
| `Supervisor.BootstrapGuard.Drop` | src/process.rs:922-935 | Without a commit kills every tracked child still there, and reaps those that ended; signals only session-owned children; issues no id, logs no attempt, leaves the kill batch alone and never resets quiescing; after a commit does nothing |
| `Supervisor.BootstrapGuard.Spawn` | src/process.rs:899-911 | Tracks exactly the session-owned children it starts |
| `Supervisor.BootstrapGuard.KillTracked` | src/process.rs:928-932 | Every tracked id still names a session-owned child, because ids are never reused |
| `Lamp.WarpStaysInFootprint` | src/window_lifecycle_animation.rs:717-759 | For every valid group, every progress and every point of the source visual rectangle the footprint exists and holds the warped point |
| `Lamp.BuiltGroupsStayInFootprint` | src/window_lifecycle_animation.rs:211-440 | The same for whatever the plain constructor builds from valid rectangles |
| `Lamp.PlacedGroupsStayInFootprint` | src/window_lifecycle_animation.rs:263-322 | The same for a given source visual rectangle |
| `Lamp.GroupsAreValid` | src/window_lifecycle_animation.rs:234-440 | A group is given exactly for valid rectangles; sink inside portal inside anchor, so the containment checks never fail |
| `Lamp.PlacedGroupsAreValid` | src/window_lifecycle_animation.rs:263-322 | The same with a given source visual rectangle |
| `Lamp.PresentedKeepsProportions` | src/window_lifecycle_animation.rs:1306-1328 | Where the visual lies relative to the client, and how large it is, is kept to scale in the presented rectangle |
| `Lamp.PortalExists` | src/window_lifecycle_animation.rs:1333-1358 | The portal always exists inside the anchor |
| `Lamp.PortalIsLargestFit` | src/window_lifecycle_animation.rs:1330-1358 | It keeps the aspect ratio, fills the anchor in one dimension and is flush with the facing edge |
| `Lamp.SinkExists` | src/window_lifecycle_animation.rs:1366-1401 | The sink always exists inside portal and anchor: across the whole portal, at most a pixel thick, at the edge that the window reaches first |
| `Lamp.WarpAxisWithin` | src/window_lifecycle_animation.rs:1757-1772 | The row position stays in the range padded by the bump |
| `Lamp.WarpCrossWithin` | src/window_lifecycle_animation.rs:1754-1777 | The cross position stays between source and target |
| `Lamp.WarpEndsAgree` | src/window_lifecycle_animation.rs:1839-1869 | The general formula gives the point itself at progress 0 and the sink shortcut at progress 1 |
| `LampMotion.NeverDriftsAway` | src/window_lifecycle_animation.rs:1839-1869 | For every valid group, every point of the source and any two moments: the warped point at the later one lies between where it was and its place in the sink, across the axis always, and along it whenever the window has not to retreat first or has done so |
| `LampMotion.LeadingRow` | src/window_lifecycle_animation.rs:1730-1772 | At every progress the leading row is at the blend of its retreated place and its place in the sink by the translation curve of the temporal curve; without a bump it does not retreat |
| `LampMotion.LeadingRowIsContinuous` | src/window_lifecycle_animation.rs:1586-1602 | Without a bump the leading row never jumps, at either end or in between: its speed is bounded by a constant share of the way |
| `LampMotion.RowsDoNotCross` | src/window_lifecycle_animation.rs:1666-1676 | When the sink lies beyond the source the rows keep their order at every progress: the window never folds over itself |
| `LampMotion.RowTranslationRises` | src/window_lifecycle_animation.rs:1666-1676 | No row ever goes back, although the exponent of its share grows while the window contracts |
| `LampMotion.TranslationWins` | src/window_lifecycle_animation.rs:1580-1625 | From the moment it starts the translation outruns the contraction: the rest of its fourth root, times one plus twice the contraction, never grows |
| `LampMotion.RowsFollow` | src/window_lifecycle_animation.rs:1666-1676 | The nearer a row is to the sink, the further it has come |
| `LampMotion.CompletionRises` | src/window_lifecycle_animation.rs:1754-1777 | No row ever widens again |
| `LampMotion.PowersRise` | src/window_lifecycle_animation.rs:1666-1676 | Powers with growing exponents rise if the fourth roots of their bases rise fast enough |
| `LampMotion.WarpIsFormula` | src/window_lifecycle_animation.rs:1839-1869 | For points of the source the warp is the general formula at every progress, the ends included |
| `Lamp.FunnelIsMonotone` | src/window_lifecycle_animation.rs:1644-1657 | The funnel rises from 0 to 1 and its clamp never acts |
| `Lamp.FunnelSharpens` | src/window_lifecycle_animation.rs:1627-1657 | The fuller the shape, the later the rows narrow, at every row |
| `Lamp.RailSpans` | src/window_lifecycle_animation.rs:1627-1642 | The control ordinates fall from 0.14 and 0.55 at the emptiest shape to 0.04 and 0.24 at the fullest |
| `Lamp.InOutCubicMonotone` | src/window_lifecycle_animation.rs:1562-1569 | Rises from 0 to 1, by at most three times the advance of its argument, for all arguments |
| `Lamp.SoftStartMonotone` | src/window_lifecycle_animation.rs:1586-1602 | Rises from 0 to 1, with a bounded slope, for all arguments |
| `Lamp.SmoothstepMonotone` | src/window_lifecycle_animation.rs:1571-1578 | Rises from 0 to 1 |
| `Lamp.ChannelsAdvance` | src/window_lifecycle_animation.rs:1612-1625 | Every motion channel stays in the unit interval, never runs backwards and ends complete |
| `Lamp.FootprintCovers` | src/window_lifecycle_animation.rs:717-759 | The footprint is the smallest rectangle around the source with room for the bump, the canonical window and the anchor |
| `Lamp.NearestEdgeIsClear` | src/window_lifecycle_animation.rs:1439-1476 | The clearly nearest edge within reach is chosen, and the fallback when there is none |
| `Lamp.DirectionIsNearest` | src/window_lifecycle_animation.rs:1439-1476 | The direction is the edge of the output that the anchor is nearest to, by more than a pixel and within a quarter of the output, and otherwise the fallback |
| `Lamp.FallbackFollowsWay` | src/window_lifecycle_animation.rs:1478-1506 | The fallback goes from the middle of the source towards that of the anchor, along the longer part of the way |
| `Lamp.EdgeDistances` | src/window_lifecycle_animation.rs:1446-1452 | For an anchor on the output the distances and the anchor add up to the output |
| `Lamp.ShapeFlattens` | src/window_lifecycle_animation.rs:1508-1534 | The shape is fullest for a window that touches its anchor and flattens in inverse proportion to extent plus gap |
| `Lamp.BumpIsOverlap` | src/window_lifecycle_animation.rs:1536-1544 | The bump is the longest stretch of the axis that source and anchor share |
| `Lamp.NoOverlapNoBump` | src/window_lifecycle_animation.rs:1536-1544 | Rectangles apart along the axis have no bump |
| `Lamp.OpacityFades` | src/window_lifecycle_animation.rs:1825-1837 | Never brightens as progress grows, and ends at 0 |
| `Squash.SquashIsAffine` | src/window_lifecycle_squash.rs:9-57 | At every progress the squashed visual rectangle is the blend of source and target by the third power of the progress clamped to [0, 1], and lies in the transition bounds |
| `Squash.SquashEndpoints` | src/window_lifecycle_squash.rs:33-41 | From the source rectangle to the carried target |
| `Squash.CarriedBlends` | src/window_lifecycle_squash.rs:18-31 | Carrying commutes with blending |
| `Squash.Deformation` | src/window_lifecycle_squash.rs:5-7 | In the unit interval, exact at both ends |
| `Squash.OpacityFades` | src/window_lifecycle_squash.rs:59-61 | Never brightens as progress grows, and ends at 0 |
| `LifecycleAnimator.MotionAdvances` | src/window_lifecycle_animation.rs:1260-1271 | Progress stays in [0, 1], moves monotonically to the target and is there by start plus duration |
| `LifecycleAnimator.ReversalIsContinuous` | src/window_lifecycle_animation.rs:1053-1131 | A reversal changes the sampled progress by 0, or, when the duration rounds to zero, by less than 4e-9; while disabled it shows the target |
| `LifecycleAnimator.FreshStart` | src/window_lifecycle_animation.rs:1053-1131 | Without a previous motion a minimise shows 0 at its moment and 1 from its end on, a restore the other way round, with the requested effect and opacity; while disabled the end shows at once |
| `LifecycleAnimator.SpeedIsConstant` | src/window_lifecycle_animation.rs:1053-1131 | A fresh start takes the whole time and a reversal, to the nearest nanosecond, the share of it that is left to go |
| `LifecycleAnimator.ZeroDuration` | src/window_lifecycle_squash.rs:67-83 | A duration rounds to zero only for a remaining way below 4e-9 |
| `LifecycleAnimator.DurationIsNearest` | src/window_lifecycle_squash.rs:67-83 | The duration is the nearest nanosecond to its share of 280 ms for the lamp and 250 ms for the squash over the clamped speed, at most twice that |
| `LifecycleAnimator.RunInherits` | src/window_lifecycle_animation.rs:1053-1131 | Over any run of reversals, disabling and snapping: progress in [0, 1], effect and opacity those of the first start |
| `LifecycleAnimator.RunHasNoJumps` | src/window_lifecycle_animation.rs:1053-1131 | Every enabled reversal of any run is invisible at its moment |
| `LifecycleAnimator.SamplesFade` | src/window_lifecycle_animation.rs:1239-1258 | Opacity follows the heading monotonically; the sample is settled once the duration has passed |
| `LifecycleAnimator.DisabledSettles` | src/window_lifecycle_animation.rs:1033-1051 | Disabling touches the active transitions only, and each shows its target from then on |
| `LifecycleAnimator.WindowLifecycleAnimator.SetEnabled` | src/window_lifecycle_animation.rs:1033-1051 | The loop computes that |
| `LifecycleAnimator.WindowLifecycleAnimator.StartOrReverse` | src/window_lifecycle_animation.rs:1053-1131 | Refused without change exactly for a wrong kind, a used identity, or a previous one of another window or not running; a fresh minimise shows 0 and a fresh restore 1 at its moment, with the requested effect and opacity; a reversal keeps effect and opacity of the previous motion and, while enabled, what is shown |
| `LifecycleAnimator.WindowLifecycleAnimator.Cancel` | src/window_lifecycle_animation.rs:1133-1140 | Removes exactly that transition |
| `LifecycleAnimator.WindowLifecycleAnimator.Acknowledge` | src/window_lifecycle_animation.rs:1176-1187 | Only a settled transition is retired |
| `LifecycleAnimator.WindowLifecycleAnimator.SnapToEndpoint` | src/window_lifecycle_animation.rs:1191-1204 | The transition shows its target at every later and earlier moment, is settled, and keeps heading, effect and opacity; every other one is unchanged |
| `LifecycleAnimator.CanonicalVisualRect` | src/window_lifecycle_animation.rs:1273-1304 | The smallest rectangle around client, visuals and decoration; refused exactly for an improper one |
| `XCursor.ValidateBounds` | src/cursor_theme.rs:646-737 | Ok exactly when header and table fit, every image's header, hotspot and pixels are inside, and all caps including the total hold; the error names a real fault; no plain addition overflows, whatever the word size |
| `XCursor.ValidateImage` | src/cursor_theme.rs:685-734 | One entry: fits, small, and within the running total |
| `XCursor.ReadImageHeader` | src/cursor_theme.rs:685-704 | Header inside the file and hotspot inside the image |
| `XCursor.ReadToc` | src/cursor_theme.rs:651-671 | The table of contents fits and has at most 256 entries |
| `XCursor.ReadU32` | src/cursor_theme.rs:739-742 | A number exactly when its four bytes are in the file |
| `XCursor.PixelsGrow` | src/cursor_theme.rs:719-724 | A partial sum over the cap means the whole sum is |
| `CursorFrames.SelectNearest` | src/cursor_theme.rs:823-841 | The chosen frame is preferred to every earlier one and no later one is preferred to it |
| `CursorFrames.NearestIsFirstOfItsSize` | src/cursor_theme.rs:823-841 | Nearest, then smaller, then first of its size |
| `CursorFrames.NearestIsUnique` | src/cursor_theme.rs:823-841 | Only one frame qualifies |
| `CursorFrames.AnimationBeginsWithDisplayed` | src/cursor_theme.rs:846-877 | An animation is attached exactly when there is another frame of the size, holds them all, begins with the displayed picture and waits at least 10 ms |
| `CursorFrames.PictureOf` | src/cursor_theme.rs:941-986 | Given exactly for a frame with its hotspot inside and in range and four bytes a pixel; dimensions and hotspot of the frame, and each pixel the big-endian number of its bytes |
| `CursorFrames.AbsDiff` | src/cursor_theme.rs:823-841 | The distance of two sizes |
| `CursorFrames.Argb` | src/cursor_theme.rs:968-972 | Each pixel is the big-endian number of its four bytes |
| `CursorFrames.Sequence` | src/cursor_theme.rs:859-875 | One picture per frame in order, with the minimum delay |
| `CursorFrames.OfSizeCounts` | src/cursor_theme.rs:854-857 | The sequence has all frames of the size |
| `CursorFrames.HasExternalOwner` | src/cursor_theme.rs:247-266 | True exactly when some image has more owners than slots; skipping repeats loses nothing |
| `CursorClock.CursorAnimationClock.Show` | src/cursor_theme.rs:892-930 | The frame whose prefix-sum interval holds the elapsed time, with a deadline after now; restarts on another base; falls through exactly when all delays are 0 |
| `CursorClock.NextFrameAtDeadline` | src/cursor_theme.rs:892-930 | At its deadline the clock shows the next frame of the cycle if and only if the elapsed milliseconds fit in 64 bits |
| `CursorClock.StuckAtDeadline` | src/cursor_theme.rs:892-930 | The failing input, for every animation: after 2^64 - 1 milliseconds the same frame stays at its deadline |
| `CursorClock.PlaysInOrder` | src/cursor_theme.rs:892-930 | Woken at each deadline it shows frame k mod n at the k-th, each for its delay |
| `CursorClock.DeadlineIsTight` | src/cursor_theme.rs:911-926 | The same frame until its interval ends; the deadline is late by less than a millisecond |
| `CursorClock.PhaseExists` | src/cursor_theme.rs:920-929 | Some frame holds every phase below the total |
| `CursorClock.HoldsIsUnique` | src/cursor_theme.rs:920-926 | Only one does |
| `LaunchScope.Diagnostics.Drain` | src/application_scope.rs:601-642 | Polls every reader present on entry exactly once, records all reports in order, keeps exactly the undecided readers |
| `LaunchScope.Diagnostics.SwapRemove` | src/application_scope.rs:607-612 | The unvisited rest loses exactly the removed reader |
| `LaunchScope.DrainConserves` | src/application_scope.rs:601-642 | A drain keeps attempted = scoped + fallback + dropped + pending below saturation |
| `LaunchScope.PollConserves` | src/application_scope.rs:601-642 | A report settles its launch exactly when the reader goes |
| `LaunchScope.ReportMoves` | src/application_scope.rs:601-642 | A report of a scope moves the scoped counter and clears the failure, a report of a fallback moves the fallback counter and keeps its reason, a closed or failing pipe moves the dropped counter, and everything else keeps the reader and the snapshot |
| `LaunchScope.DrainCounts` | src/application_scope.rs:601-642 | Over a whole drain each counter grows by the reports of its kind, up to saturation, and the readers kept are the rest |
| `Common.Increment` | src/process.rs:662-700 | A 64-bit counter counts one more and stops when it is full |
| `LaunchScope.Diagnostics.PollStatus` | src/application_scope.rs:417-423 | A drain that also records the pending count |
| `LaunchScope.Diagnostics.PrepareSpawn` | src/application_scope.rs:358-405 | One launch: direct is no attempt, a planned fallback is settled, a helper gets a reader unless 32 are pending or its pipe fails; the conservation law and the bound are kept |
| `LaunchScope.WrapRoundTrips` | src/application_scope.rs:292-308 | The helper runs exactly the wrapped vector, even one with delimiters |
| `LaunchScope.Delimiter` | src/application_scope.rs:427-433 | The first delimiter, if any |
| `SystemAction.RoundTrip` | src/system_action_protocol.rs:50-180 | Decoding the encoding gives the message back exactly for a welcome of version 1.0 and an action with occurrences |
| `SystemAction.DecodeIsCanonical` | src/system_action_protocol.rs:102-180 | Every accepted packet is the encoding of its message |
| `SystemAction.Encode` | src/system_action_protocol.rs:50-100 | The buffer filled slice by slice is the packet |
| `SystemAction.CopyInto` | src/system_action_protocol.rs:52-96 | Replaces one slice and nothing else |
| `SystemAction.FromWireCode` | src/system_action.rs:96-141 | Inverse to the 18 wire codes, and nothing else decodes |
| `SystemAction.Batch.Push` | src/system_action.rs:49-58 | Keeps the first four actions in order; the flag tells a loss |
| `Bytes.DecodesEncoded` | src/system_action_protocol.rs:63-96 | Little-endian bytes read back as the number |
| `Bytes.EncodesDecoded` | src/system_action_protocol.rs:120-178 | And the other way round |

## Left out

- Permission bits, ownership and file modes beyond an abstract "private" flag; random suffixes beyond freshness; reading a configuration.
- CursorStore.Write: other processes act at the four phases at which the code's own tests replace the lock and before each lock check, so its clauses do not cover a lock or a file replaced between a check and the call that relies on it.
- CursorDurability: a directory fsync that reports EINVAL or ENOTSUP counts as done in the code (src/cursor_persistence.rs:1067-1083); the model has no such file system, where a success would not mean a sync.
- Supervisor: `prompt` is a property of the system, which kills without delay; the code does not wait for it. Not modelled are `spawn_with_identity_and_stderr`, process labels, pids that do not fit `pid_t` (a refused signal), diagnostics text.
- Supervisor.ChildSupervisor.DrainSignals: the reads form a finite script, so a descriptor that delivers signals without end is not modelled.
- CursorManager: `publish_prepared` and the startup path; the bound on retired themes is proved for the applying path, where the code checks it.
- CursorManager.CursorThemeManager.Load: the loader gives any theme of the requested configuration; what it reads is not modelled.
- CursorWorker: what a job does (`execute_cursor_io`) and the event descriptor, beyond that notifying may fail; memory orderings are taken as sequentially consistent.
- Lamp, Squash and LifecycleAnimator: floating-point rounding; not-a-number and infinities appear only as the "not finite" case of progress and speed.
- Lamp: output intersection, retained visuals, snapshot signatures and GL meshes.
- LifecycleAnimator: `cancel_scene_executions` and `cancel_all`, which only remove entries.
- XCursor: parsing by the external crate, the reader that caps the file at 16 MiB, theme search paths.
- CursorFrames.PictureOf: machine-word overflow of the byte count, which the caps of the validator exclude.
- LaunchScope: systemd scope registration, the text of the last failure (trimming, 192 bytes) and the policy environment variable.
- SystemAction: capability bit sets.
- The keyboard configuration writer, rendering, D-Bus, portals, control snapshots and command-line parsing.
