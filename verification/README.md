# Verification of the k3OS boot and upgrade code

k3OS is a small operating system image whose init program boots a machine, moves its root filesystem, reads its
configuration, and upgrades itself in place. This project models the parts of that program that are protocols,
tree transformations or scanners, and proves what they keep over every run: every answer of the system calls, every
moment at which the power may go, every interleaving, every iteration order.

Verify it with `dafny verify dfyconfig.toml`.

| file | about |
|---|---|
| `ComponentUpgrade.dfy` | the crash-safe version swap with deferred undo actions |
| `StateVolume.dfy`, `VolumeSetup.dfy` | the state volume, what a takeover leaves of it, and what the setup steps of every boot may change |
| `DiskBoot.dfy`, `BootRuns.dfy` | takeover, factory reset and pivot, step by step and over several boots |
| `ModeDetect.dfy` | choosing the boot mode, and the environment handed through a pivot |
| `LoopProtocol.dfy`, `LoopDevice.dfy` | loop devices: concurrent detaching, and conservation of descriptors and bindings |
| `RootRelocation.dfy` | moving the root filesystem file by file |
| `ConfigTree.dfy`, `ConfigStore.dfy` | nested configuration maps: as trees, and in memory, changed in place |
| `Cmdline.dfy` | folding the command line and the flags file into that tree |
| `KeyNames.dfy`, `Normalize.dfy` | spelling of keys, and renaming them while ranging over a map |
| `MountPool.dfy`, `MountFlags.dfy` | tracked mounts with reverse teardown, mount options |
| `MagicScan.dfy` | finding the image appended to a binary |
| `PasswdFiles.dfy`, `Accounts.dfy` | account files: their text, and how they are replaced on disk |
| `PartitionNames.dfy` | names of disks and partitions |
| `FileTree.dfy`, `Text.dfy` | what the others share |

Conventions. A system call that may fail does so by choice (`*`). Where a crash matters, a class keeps a ghost `log` of
every state its data goes through, and the theorems about runs speak about a log that is cut off anywhere. An operation
that fails for reasons of its own is reported to the proof (`fault`, `faulted`, `tidy`), so that what depends on it, and
that nothing else makes a call fail, can be said exactly. The assumption that no operation fails that could succeed is a
parameter, `works`; under it, no method may report such a failure.

## What turned out to be conditional

Some promises hold under a condition only. The condition is proved to be the exact one.

- If `current` names a directory beside it, a completed upgrade in which the removal of `previous` met no fault was safe
  at every point exactly if neither the old nor the new version is an empty directory called `previous`.
- A failed rename-in is undone completely exactly if the version path was free, a directory, a link that leads nowhere,
  or a link to a directory with nothing at `.old` beside it.
- An upgrade in which no operation fails for reasons of its own completes exactly if there is a new version to copy, no
  `current.tmp`, nothing in the way at the version path or at `.old`, and `current` is no directory. So `current.tmp`
  left by a crash makes every later upgrade stop without a change, and a leftover `.old` stops those to that version.
  No crash is needed for the latter: an upgrade that completes over an existing directory of its version leaves the old
  one at `.old`, so that each version can be replaced only once. Going from A to B and back twice is refused.
- From any volume, boots that are cut off while the takeover marker is there, and then one that gets to its end, always
  leave the volume of one uninterrupted boot exactly if there is no link at `sbin`, or no boot can complete the takeover
  at all. An attempt cut behind the removal of the link makes the next boot's setup put an `sbin/init` there, which the
  takeover then keeps. After the setup of the boot that follows, the volumes agree in every case.
- A boot can complete the takeover exactly if there is room for the init and the markers, an `sbin/init` made first, can
  be written and removed. A boot cut anywhere does not change that.
- When a link at `sbin` cannot be removed, the cleaning of `sbin` follows it, in the order of the names. Marked data
  stays marked in every state of that cleaning exactly if the link does not lead to `k3os/system`, and either not to
  `k3os`, where the data goes before the markers, or the removal of the data does not fail.
- Boots of a volume without a marker leave the data alone, unless a link at `sbin` leads into it: the init is then made
  there.
- Once a loop device is closed, no status call is issued on its descriptor any more exactly if no SetAutoclear has read
  the flag in time and not returned yet.
- The disk mode pivots at most once in a run exactly if the command line does not ask for `disk` and either asks for
  another mode, or `K3OS_MODE` is not set at all, or it is set to something other than the empty string and `disk`. An
  empty `K3OS_MODE=` hides the entry that the pivot appends, because Go keeps the first of several entries.
- The tree parsed from a command line has exactly one leaf per key exactly if no key is a proper prefix of another:
  `a=1 a.b=2` loses the 1, in either order.
- `normalizeData` gives the same result for every iteration order exactly if all entries that compete for a name are
  renamed to equal values; an entry whose key is already normal does not compete, it always loses.
- The magic scanner misses an occurrence of its marker exactly if it stands behind an odd number of back-to-back proper
  prefixes of the marker.
- `SetPassword` changes one line exactly if the hash has no newline, and one field of it exactly if it has no colon. A
  reader of the file gets the hash that was set exactly if it has neither.
- The two splitters of partition names agree exactly on the names with a character that is no digit, and on "".
  Building a name and splitting it is the identity exactly if the disk does not end in a digit and a `p`: partition 1
  of `md0p` comes back as that of `md0`, and `12` is a number to one splitter and a disk to the other.

## Model

| member | source | states |
|---|---|---|
| ComponentUpgrade.ComponentDir.CopyComponent | internal/system/component.go:50-131 | one upgrade, whatever fails: skipped exactly when the versions agree, nothing changed when refused; in every state `current` names the old version untouched or, from the last rename on, the complete copy; an error up to the rename-in is undone completely exactly when the version path allows it; later errors keep `current`; without faults it completes exactly when nothing is in the way; `previous`, if it can be removed, then names the old version; if no operation fails that could succeed, no fault is reported |
| ComponentUpgrade.ComponentDir.WithTempLink | internal/system/component.go:71-130 | the same from the temporary link to its deferred removal |
| ComponentUpgrade.ComponentDir.InTempDir | internal/system/component.go:78-130 | the same from the temporary directory to its deferred removal, which leaves no such directory behind |
| ComponentUpgrade.ComponentDir.CopyAndInstall | internal/system/component.go:85-130 | only a directory is ever installed; a failed copy touches nothing but the temporary directory |
| ComponentUpgrade.ComponentDir.Install | internal/system/component.go:90-130 | a failed rename-in leaves everything but the temporary directory as it was exactly when the version path is restorable |
| ComponentUpgrade.ComponentDir.SwapIn | internal/system/component.go:105-130 | the rename-in fails if the name is taken; after it every state keeps `current` until the last rename swaps it |
| ComponentUpgrade.ComponentDir.MakeWay | internal/system/component.go:90-103 | a directory at the version path is moved to `.old` or stops the call; anything else is removed |
| ComponentUpgrade.ComponentDir.Rotate | internal/system/component.go:115-123 | the rotation changes nothing but `previous`: one that cannot be removed stays, any other is replaced with a copy of `current`, and only a fault that is reported keeps that from happening |
| ComponentUpgrade.VersionIsNotCurrent | internal/system/component.go:20-46 | a version found through `current` is never called `current` and exists |
| ComponentUpgrade.ThereAndBack | internal/system/component.go:91-98 | moving the old version aside and back restores the directory exactly when nothing was at `.old` |
| ComponentUpgrade.LogIsACall | internal/system/component.go:50-131 | what CopyComponent logs is a call of the crash model, wherever it is cut |
| ComponentUpgrade.CurrentAlwaysComplete | internal/system/component.go:50-131 | over any number of upgrades, each cut off anywhere, `current` names what it named at the start, untouched, or a complete copy made by one of them |
| ComponentUpgrade.LastInstalledIsCurrent | internal/system/component.go:51-130 | over returning calls `current` names the version of the last one that answered true, and no temporary name survives |
| ComponentUpgrade.PreviousIsTheOneBefore | internal/system/component.go:115-130 | and `previous` names the version that was current before it, as long as no fault meets the rotation |
| ComponentUpgrade.VersionIsTarget | internal/system/component.go:20-46 | a version is the target of a link to a directory, and nothing else is |
| ComponentUpgrade.EmptyPreviousIsLost | internal/system/component.go:115-128 | an empty version called `previous`, old or new: the states without a complete version |
| ComponentUpgrade.LeftoverOldBlocks | internal/system/component.go:91-98 | whatever is left at `.old` stops every upgrade to a version whose directory is there |
| ComponentUpgrade.ReplacedOnce | internal/system/component.go:90-107 | over any sequence of returning calls without faults: once a call has completed over an existing directory of its version, that directory stays at `.old` and no later call for the version completes, as long as no other version's name is one of the two |
| ComponentUpgrade.StaleLinkBlocks | internal/system/component.go:71-74 | a temporary link left by a crash stops every later call, which changes nothing |
| DiskBoot.Volume.Execute | internal/boot/modes/disk.go:46-72 | pivot_root happens only if no takeover was asked for and every call up to it succeeds, and then does if there is room for an init; data still present stays marked in every state unless a fault is reported; a marked volume pivots with the data gone exactly when none is; a boot with the marker leaves only states from which the takeover can go on; the factory-reset marker is gone at the pivot if no call fails and it can be removed; a boot of a volume without markers leaves the data alone; a takeover that can be completed is, if no call fails |
| DiskBoot.Volume.Takeover | internal/boot/modes/disk.go:315-398 | every state keeps the factory-reset marker and leads to the same final volume, unless a link at sbin could not be removed and leads into what is kept; at its end without faults the markers were such that it could get there, and the volume is exactly its reset; the boot never goes on; that is where it ends if no call fails and the markers allow it |
| DiskBoot.Volume.ResetVolume | internal/boot/modes/disk.go:323-377 | the same between the check of the marker and the removal of the data |
| DiskBoot.Volume.CleanVolume | internal/boot/modes/disk.go:329-373 | after the removal of the link the loops never touch k3os and leave only kept names when nothing failed; after a failed one they reach what is behind it, and the markers exactly if it leads to k3os or k3os/system |
| DiskBoot.Volume.CleanBehind | internal/boot/modes/disk.go:351-362 | a link at sbin is followed: the directory behind it loses all but init, k3s and k3os, `data` before `system`, and nothing else changes |
| DiskBoot.Volume.Clean | internal/boot/modes/disk.go:338-373 | one loop keeps the kept entries untouched and, without faults, removes all others |
| DiskBoot.Volume.Forget | internal/boot/modes/disk.go:375-377 | the takeover marker goes before the data, with the factory-reset marker in place |
| DiskBoot.Volume.CleanupEphemeral | internal/boot/modes/disk.go:402-418 | with either marker the data goes first, then the factory-reset marker, and both are gone if no call fails; nothing else changes, and nothing at all without a marker |
| DiskBoot.Volume.SetupInit | internal/boot/modes/disk.go:249-268 | an init is made at sbin if there is none, also behind a link; it fails for a file or a link that leads nowhere; the init it makes is the link to the current k3os binary |
| DiskBoot.Volume.Setup | internal/boot/modes/disk.go:46-62 | in every state the setup steps have changed only their own entries of k3os/system and given sbin an init |
| DiskBoot.Volume.PivotAndExec | internal/boot/modes/disk.go:422-454 | the pivot changes no marker and no data, and its moment is logged, also when the exec after it fails |
| BootRuns.LogIsARun | internal/boot/modes/disk.go:46-72 | what Execute logs is a boot of the crash model, wherever it is cut, before a pivot too |
| BootRuns.NoPivotOntoOldData | internal/boot/modes/disk.go:46-72 | across any sequence of boots, each cut anywhere, every pivot_root after a takeover was asked for happens with k3os/data gone, also one whose exec fails |
| BootRuns.UnmarkedStays | internal/boot/modes/disk.go:46-72 | boots of a volume without a marker, cut anywhere, never change the data, but for an init behind a link at sbin that leads there |
| BootRuns.DataSurvives | internal/boot/modes/disk.go:402-454 | after a pivot that found the factory-reset marker removed, whatever data the running system writes survives every later boot, until a marker is set again |
| BootRuns.LogIsAnAttempt | internal/boot/modes/disk.go:46-72 | what Execute logs while the takeover marker is there is an interrupted attempt, wherever it is cut |
| BootRuns.AttemptsKeepGoal | internal/boot/modes/disk.go:46-66 | however often boots are cut while the marker is there, in setup or takeover, a takeover that could be completed still can, and leads to the same volume |
| BootRuns.InterruptedTakeover | internal/boot/modes/disk.go:46-66 | from any volume: after such boots and the next setup, a completed boot leaves what one uninterrupted boot leaves; before that setup exactly if no attempt removed a link at sbin |
| BootRuns.AlwaysAgreeIff | internal/boot/modes/disk.go:46-66 | for every volume: interrupted and uninterrupted boots always agree exactly if there is no link at sbin or the takeover cannot be completed |
| BootRuns.LinkIsLost | internal/boot/modes/disk.go:329-335 | for every other volume, the attempt that shows it: cut just behind the removal of the link |
| VolumeSetup.SetupKeepsGuards | internal/boot/modes/disk.go:46-62 | no setup step, cut anywhere, changes a marker or k3os/data |
| VolumeSetup.SetupKeepsGoal | internal/boot/modes/disk.go:46-62 | whatever the setup steps get done on any volume, the next setup and a takeover lead to the same volume, and can be completed exactly if they could before |
| VolumeSetup.BootKeepsGoal | internal/boot/modes/disk.go:46-66 | and so for a boot cut anywhere, in setup or takeover |
| VolumeSetup.CompletableIff | internal/boot/modes/disk.go:46-66 | a boot that completes setup and takeover is possible exactly if there is room for the init and the markers can be written and removed |
| StateVolume.ResetIsClean | internal/boot/modes/disk.go:323-383 | exactly what the final volume holds: of the top level boot, k3os and an sbin that is no link; of sbin init, k3s and k3os; of boot the names with g; k3os as it was but for the data and the three markers; resetting again changes nothing |
| StateVolume.BehindKeepsGuards | internal/boot/modes/disk.go:351-362 | cleaning behind a link keeps the markers and the data unless it leads to k3os or k3os/system |
| StateVolume.BehindKeepsGuardsIff | internal/boot/modes/disk.go:351-362 | marked data stays marked in every state of such a cleaning, except behind a link to k3os/system, and behind one to k3os when the removal of the data fails |
| ModeDetect.Detector.Detect | internal/mode/detect.go:62-97 | it returns the mode chosen, exactly if that is valid and could be written, and the mode file then holds it; an invalid choice changes nothing |
| ModeDetect.Detector.Finalize | internal/mode/detect.go:130-151 | validation comes before the write |
| ModeDetect.DetectOnce | internal/mode/detect.go:101-127 | the order of precedence: environment, labelled device, fallback, real root filesystem |
| ModeDetect.WhoDecides | internal/mode/detect.go:62-127 | over all passes: the command line decides, then the environment, then with a fallback mode the first pass, which never asks for the root filesystem |
| ModeDetect.ProbesDecide | internal/mode/detect.go:75-124 | otherwise the first pass that sees a labelled device or a root filesystem of its own, and the device counts more |
| ModeDetect.ValidModesHaveHandlers | internal/boot/modes/handler.go:51-72 | exactly the valid modes have a handler, which are disk, local, live, install and shell |
| ModeDetect.NextMode | internal/boot/modes/disk.go:446-448 | the appended K3OS_MODE=local counts exactly when the environment had no entry |
| ModeDetect.ReexecutedIsLocal | internal/mode/detect.go:99-127 | without a mode on the command line and in the environment every re-executed init is local, whatever the probes find |
| ModeDetect.OnePivotIff | internal/boot/modes/disk.go:422-454 | at most one pivot in every run, exactly under the stated check of command line and environment |
| ModeDetect.PivotsAgain | internal/boot/modes/disk.go:446-448 | where the check fails there are runs with any number of pivots |
| ModeDetect.EmptyModeHidesLocal | internal/boot/modes/disk.go:446-448 | the empty K3OS_MODE as a concrete case |
| LoopProtocol.InvHolds | internal/loopdev/loopdev.go:189-219 | the invariant of every reachable state, for any number of callers and any interleaving |
| LoopProtocol.DetachIsExclusive | internal/loopdev/loopdev.go:189-202 | at most one caller between winning and returning; LOOP_CLR_FD succeeds at most once, the close happens at most once and after it, and nothing is cleared after the close |
| LoopProtocol.FlagMeansDetaching | internal/loopdev/loopdev.go:191-197 | the flag is set exactly while someone detaches or the descriptor is closed |
| LoopProtocol.LateCallersAreSilent | internal/loopdev/loopdev.go:190-210 | a caller that starts after LOOP_CLR_FD succeeded issues no system call |
| LoopProtocol.OnlyEarlyReadersCallLate | internal/loopdev/loopdev.go:206-219 | after the close only status calls of callers that had read the flag in time are issued |
| LoopProtocol.QuietIffNoReader | internal/loopdev/loopdev.go:206-219 | once the descriptor is closed, no continuation issues a call exactly if no caller has read the flag in time and not returned yet |
| LoopProtocol.ReaderCanCall | internal/loopdev/loopdev.go:206-219 | every such caller can issue its next status call, in every run |
| LoopProtocol.StatusCallAfterClose | internal/loopdev/loopdev.go:206-211 | and such a state is reached |
| LoopDevice.Attach | internal/loopdev/loopdev.go:120-174 | the backing descriptor is closed exactly once, no descriptor stays on error, exactly the loop descriptor on success, with the binding asked for; one error only can leave a binding; without faults it succeeds exactly for a free loop device |
| LoopDevice.BindLoop | internal/loopdev/loopdev.go:132-173 | the same between the opening and the deferred close of the backing file |
| LoopDevice.Device.Detach | internal/loopdev/loopdev.go:190-202 | success removes exactly this binding and descriptor, failure changes nothing and can be retried, repetition is harmless |
| LoopDevice.Device.SetAutoclear | internal/loopdev/loopdev.go:206-219 | only the autoclear bit is added; backing file, offset and other flags stay |
| LoopDevice.Lifecycle | internal/loopdev/loopdev.go:120-219 | attach, mark, detach leaves no descriptor and no binding; in between the status flags are autoclear, and read-only if asked for; with a kernel that works all three succeed exactly if the device can be bound |
| RootRelocation.Relocation.CopyTree | internal/transferroot/transferroot.go:66-168 | in every state each file is complete in the old tree or the new one; the new tree equals the old one with every foreign filesystem emptied; without faults it succeeds exactly when no socket or unknown file is there; if no call fails, each file is then in the new tree only |
| RootRelocation.Relocation.MakeDirs | internal/transferroot/transferroot.go:67-98 | the first walk makes exactly the directories |
| RootRelocation.Relocation.MoveFiles | internal/transferroot/transferroot.go:103-168 | the second walk fills a subtree and removes only files it has copied |
| RootRelocation.Relocation.MoveRegular | internal/transferroot/transferroot.go:118-138 | a file is removed only once its copy is complete |
| RootRelocation.ItemAtIsImage | internal/transferroot/transferroot.go:66-168 | the description by paths and the tree with foreign filesystems emptied are the same |
| RootRelocation.ImageIs | internal/transferroot/transferroot.go:66-113 | that tree holds exactly the paths that are reached without leaving the filesystem, everything but foreign directories as it was |
| ConfigStore.Store.PutValue | internal/config/helpers.go:48-67 | the loop that changes maps in place makes of the configuration exactly what Put makes of the tree |
| ConfigStore.Store.GetValue | internal/config/helpers.go:29-46 | following references finds exactly what is at the path of the tree |
| ConfigStore.Store.Accumulate | internal/config/cmdline_reader.go:44-54 | one token: first a string, then a list; a key that names a map is dropped |
| ConfigStore.SetIsPut | internal/config/helpers.go:48-67 | changing one entry of one map in place changes the tree at that path and nowhere else |
| ConfigTree.GetAfterPut | internal/config/helpers.go:29-67 | what was put is what is found |
| ConfigTree.GetBesidePut | internal/config/helpers.go:48-67 | every incomparable path is unchanged, above there are maps, below a leaf nothing |
| ConfigTree.ClashLosesLeaf | internal/config/cmdline_reader.go:44-54 | the smallest clash: the value of the shorter key is lost in either order |
| ConfigTree.FaithfulIffPrefixFree | internal/config/cmdline_reader.go:36-55 | one leaf per key with all its values in order, and no other, exactly when no key is a proper prefix of another |
| Cmdline.SplitTokens | internal/config/cmdline_reader.go:64-80 | the quote state machine computes the tokens |
| Cmdline.TokensOfJoined | internal/config/cmdline_reader.go:60-80 | splitting undoes joining with blanks |
| Cmdline.TokensAreUnbroken | internal/config/cmdline_reader.go:60-80 | every token is non-empty and without a blank outside quotes |
| Cmdline.BlankSeparates | internal/config/cmdline_reader.go:64-80 | any of the four blanks outside quotes ends a token |
| Cmdline.OneToken | internal/config/cmdline_reader.go:64-80 | a string without quotes and these blanks is one token |
| Cmdline.OneQuotedToken | internal/config/cmdline_reader.go:64-80 | and so is anything between quotes |
| Cmdline.ParseCmdlineArgs | internal/config/cmdline_reader.go:33-58 | the tree built in place is the fold of the pairs of the tokens |
| Cmdline.CmdlineRoundTrip | internal/config/cmdline_reader.go:28-91 | a command line that spells out pairs is read back as these pairs, each in any of four spellings: key alone for true, plain, quoted value, quoted whole |
| Cmdline.BareKey | internal/config/cmdline_reader.go:85-91 | a token without = is a key with the value true |
| Cmdline.ParsedExactlyWhenPrefixFree | internal/config/cmdline_reader.go:33-58 | for every command line, one leaf per key exactly when the keys are prefix-free |
| Cmdline.ReadFlags | internal/config/flags_reader.go:38-62 | the flags file is folded in the same way |
| Cmdline.FlagsRoundTrip | internal/config/flags_reader.go:38-93 | a flags file that spells out pairs is read back as these pairs, however their values are quoted, with any space around the parts, or as a key alone for true |
| Cmdline.BlankLine | internal/config/flags_reader.go:38-42 | a blank line says nothing |
| Cmdline.SkippedLine | internal/config/flags_reader.go:38-48 | nor does a comment or a line without a key |
| Cmdline.FlagsExactlyWhenPrefixFree | internal/config/flags_reader.go:38-62 | for every flags file, one leaf per key exactly when the keys are prefix-free |
| Cmdline.ReadersAgree | internal/config/flags_reader.go:15-19 | both readers build the same tree from the same pairs |
| KeyNames.CamelToSnake | internal/config/helpers.go:8-27 | the loop puts an underscore exactly where a word starts |
| KeyNames.BreakAfterSmall | internal/config/helpers.go:18-19 | wherever a key is cut in two: an underscore before a capital that follows a small letter or a digit |
| KeyNames.BreakAfterCapitals | internal/config/helpers.go:20-21 | and before a capital that follows another and has a small letter behind it |
| KeyNames.NoOtherBreak | internal/config/helpers.go:14-25 | and nowhere else |
| KeyNames.AcronymBreaks | internal/config/helpers.go:20-21 | so an acronym in front of a word is set off as a whole |
| KeyNames.AcronymInFront | internal/config/helpers.go:8-27 | DNSNameservers becomes dns_nameservers |
| KeyNames.AcronymBehind | internal/config/helpers.go:8-27 | isoURL becomes iso_url |
| KeyNames.Ascii | internal/config/helpers.go:17-20 | the letters and digits this is about |
| KeyNames.LowerAscii | internal/config/helpers.go:24 | each capital has its small letter |
| KeyNames.NormFixesExactlyLower | internal/config/helpers.go:8-27 | a key is left alone exactly when it has no upper-case letter |
| KeyNames.NormTwice | internal/config/decode.go:77 | normalising is idempotent |
| KeyNames.SnakeKeepsLetters | internal/config/helpers.go:8-27 | but for underscores the letters stay, in order |
| KeyNames.MatchesIff | internal/config/decode.go:10-52 | all the rules at once: the same letters and digits, up to a plural ending, or one of the aliases |
| KeyNames.MatchesAfterNorm | internal/config/decode.go:10-52 | normalising a key never changes which fields it matches |
| KeyNames.SpellingHardlyMatters | internal/config/decode.go:10-52 | keys that differ in case and underscores match the same fields, but for the two aliases |
| Normalize.NormalizeData | internal/config/decode.go:69-83 | every execution, in any order and with any new entries revisited, is a run of the relation below |
| Normalize.NormalizeTree | internal/config/decode.go:69-83 | the same for nesting of any depth |
| Normalize.Store | internal/config/decode.go:77-81 | one entry moves to its normal name, over whatever is there |
| Normalize.OutcomeIsNormal | internal/config/decode.go:68-83 | whatever the order, every key of the result is normal, at every level |
| Normalize.TwiceIsOnce | internal/config/decode.go:68-83 | normalising again is a no-op, whatever the orders were |
| Normalize.SettledOutcome | internal/config/decode.go:69-83 | a settled tree has one outcome in every order: the recursive key renaming |
| Normalize.OneOutcomeIffSettled | internal/config/decode.go:69-83 | for every tree, of any depth: the result is independent of the order exactly when competing entries are renamed to equal values, and is then the recursive renaming |
| Normalize.DistinctIsSettled | internal/config/decode.go:69-83 | distinct names among siblings suffice, and then no entry is lost |
| Normalize.LookupRenamed | internal/config/decode.go:69-83 | what was found at a path is found at the renamed path, leaves unchanged |
| Normalize.EveryNameIsWon | internal/config/decode.go:69-83 | for every tree and order: the names of the result are those of the keys, and each holds an outcome of an entry that competes for it |
| Normalize.RespeltKeyWins | internal/config/decode.go:78-81 | in every tree, a key that has to be renamed beats one that is already normal |
| Normalize.OrderCanMatter | internal/config/decode.go:73-82 | two spellings of one name as a concrete case |
| MountPool.ApplyTracked | internal/namespace/apply_tracked.go:21-45 | every mount is tried, in order, and the pool gets exactly those that succeeded |
| MountPool.AllAreTried | internal/namespace/apply_tracked.go:21-45 | the tries are the mounts of the list, silent ones too, once each and in order |
| MountPool.Create | internal/namespace/namespace.go:52-71 | only a mount that succeeded adds an entry; a silent one never reports a failure |
| MountPool.Pool.UnmountAll | internal/mount/pool.go:40-57 | one attempt per tracked mount, in reverse order, every failure reported, the pool empty in every case; if the kernel works and these are the topmost mounts, there is none |
| MountPool.SetUpAndTearDown | internal/mount/pool.go:33-57 | ApplyTracked on a fresh pool and then UnmountAll restore the mount table if no unmount failed, and with a kernel that works none does |
| MountPool.Pool.Add | internal/mount/pool.go:33-38 | one more point, at the end |
| MountPool.Pool.Len | internal/mount/pool.go:60-65 | the number of points |
| MountPool.Pool.Entries | internal/mount/pool.go:68-76 | the points, in order, in a new array |
| MountPool.ChangeBoth | internal/mount/pool.go:67-76 | changes of that array do not show in the pool, nor the other way round |
| MountPool.TeardownRestores | internal/mount/pool.go:40-57 | right after ApplyTracked a teardown without errors restores the mount table, repeated targets included |
| MountPool.TeardownLeavesTheRest | internal/mount/pool.go:40-57 | whatever others mounted meanwhile, each target keeps what was under the pool's mounts |
| MountPool.TeardownTouchesOnlyItsOwn | internal/namespace/apply_tracked.go:27-41 | failed and skipped mounts are never unmounted |
| MountFlags.ParseOptions | internal/mount/flags.go:53-74 | the loop folds the options into flags and data |
| MountFlags.BitIffLastSets | internal/mount/flags.go:59-72 | each bit, also of compound flags, is set exactly when the last option that touches it sets it |
| MountFlags.TableIs | internal/mount/flags.go:13-47 | the table read the other way round: which options set and clear each bit of mount(2) |
| MountFlags.BitIff | internal/mount/flags.go:13-74 | so for each bit and the table: set exactly when the last option that concerns it is one that sets it |
| MountFlags.DataPasses | internal/mount/flags.go:60-71 | the data holds every option without a flag, as often as it is given, and no other |
| MountFlags.DataInOrder | internal/mount/flags.go:59-72 | and in their order |
| MountFlags.DataIsOnlyData | internal/mount/flags.go:53-74 | parsing the data string again gives no flags and the same string |
| MountFlags.ReadOnlyIff | internal/mount/flags.go:17-18 | read-only exactly when the last of ro and rw is ro |
| MountFlags.RecursionStays | internal/mount/flags.go:35-44 | once asked for, recursion is never taken back |
| MagicScan.InFile | internal/enterchroot/enter.go:178-213 | the answer is that of the scan of all bytes, however they are cut into reads |
| MagicScan.FoundIsMarker | internal/enterchroot/enter.go:199-205 | an offset returned is just past an occurrence |
| MagicScan.FindIsFirstSeen | internal/enterchroot/enter.go:191-211 | for every marker whose first byte does not come again inside: which occurrence the scan stops at |
| MagicScan.ScanFindsExactlyTheSeen | internal/enterchroot/enter.go:178-213 | for every file: found exactly when an occurrence stands behind an even chain of proper prefixes, and then the first such |
| MagicScan.CleanOccurrenceIsFound | internal/enterchroot/enter.go:191-211 | a first occurrence in front of which no proper prefix ends is found |
| MagicScan.UnderscoreHidesMarker | internal/enterchroot/enter.go:206-208 | one underscore in front of the only marker hides it |
| PasswdFiles.AppendedLines | internal/boot/bootstrap/bootstrap.go:135-148 | with or without a final newline the file gets exactly one more line |
| PasswdFiles.SplitReplaced | internal/boot/bootstrap/bootstrap.go:124-133 | the replacement works on each line and each field by itself |
| PasswdFiles.FindUserHomeDir | internal/ssh/ssh.go:160-179 | the loop computes the search |
| PasswdFiles.SearchConcat | internal/ssh/ssh.go:160-179 | later lines decide, unless an earlier matching line is short or has no numbers |
| PasswdFiles.SearchStops | internal/ssh/ssh.go:163-174 | a short line ends the search with what came before, a bad number makes it fail |
| PasswdFiles.NoSuchUser | internal/ssh/ssh.go:160-179 | without a line that starts with the name the answer is the zero values |
| PasswdFiles.EntryReadsBack | internal/ssh/ssh.go:164-175 | the line that spells out an entry is read back as that entry, for all numbers of 64 bits |
| PasswdFiles.AtoiOfItoa | internal/ssh/ssh.go:167-174 | numbers are read back exactly if they fit in 64 bits |
| PasswdFiles.SearchAfterSetup | internal/boot/bootstrap/bootstrap.go:83-122 | after SetupUsers the search gives 1000, 1000, /home/rancher, unless an old line that starts with rancher stops it |
| PasswdFiles.NoEarlierRancher | internal/ssh/ssh.go:160-179 | in particular when no old line starts with rancher |
| PasswdFiles.SearchAfterManySetups | internal/boot/bootstrap/bootstrap.go:83-122 | also after any number of boots that run SetupUsers again |
| PasswdFiles.OnlyOneLine | internal/shadow/shadow.go:51-71 | every other line is kept byte for byte exactly when the hash has no newline |
| PasswdFiles.RehashFields | internal/shadow/shadow.go:54-61 | only the second field changes, exactly when the hash has no colon |
| PasswdFiles.NamesIff | internal/shadow/shadow.go:53-54 | a line is the user's exactly if its first field is the name and there is a second one |
| PasswdFiles.HashAfterSet | internal/shadow/shadow.go:51-71 | the user's hash is the new one and every other user's stays |
| PasswdFiles.ShadowAfterSetup | internal/boot/bootstrap/bootstrap.go:112-115 | after SetupUsers there is a line for rancher, with the hash from before, and locked if there was none |
| PasswdFiles.HashAfterAppend | internal/boot/bootstrap/bootstrap.go:135-148 | for every file and user: an appended line counts only for a user who had none |
| PasswdFiles.HashAfterManySetups | internal/boot/bootstrap/bootstrap.go:112-115 | a hash that SetPassword wrote is still read after any number of later runs of SetupUsers |
| PasswdFiles.HashIsReadIff | internal/shadow/shadow.go:51-71 | a reader gets the hash that was set exactly if it has no colon and no newline |
| Accounts.Disk.SetupUsers | internal/boot/bootstrap/bootstrap.go:83-122 | the files after a run; without faults it succeeds exactly if there is a passwd file, which it does when no call fails; no other file is ever touched |
| Accounts.Disk.AppendLine | internal/boot/bootstrap/bootstrap.go:135-148 | the file is extended; a read that fails counts as a missing file |
| Accounts.Disk.ReplaceInFile | internal/boot/bootstrap/bootstrap.go:124-133 | the file with every occurrence replaced; a file that cannot be read is an error |
| Accounts.Disk.SetPassword | internal/shadow/shadow.go:32-102 | the shadow file is wholly old or wholly new in every state; success means the first line of the user was rewritten, an empty password changes nothing, an error changes no file; without faults it succeeds exactly if there is a hash and a line for the user; a hash is set as it is; after an error no temporary file is left unless its removal fails |
| Accounts.Disk.Commit | internal/shadow/shadow.go:73-101 | the temporary file replaces its target at once, and is gone after success |
| Accounts.Disk.WriteFileAtomic | internal/ssh/ssh.go:138-158 | the same for writeFileAtomic, with its deferred removal |
| Accounts.AfterSetupIs | internal/boot/bootstrap/bootstrap.go:83-122 | the four appends and the replacement do not get in each other's way, and no other file changes: the three files afterwards, line by line |
| Accounts.GroupsAfterSetup | internal/boot/bootstrap/bootstrap.go:96-104 | the lines of the group file are those from before, the sudo group with rancher in it, and rancher's own |
| Accounts.PasswordAfterSetup | internal/shadow/shadow.go:46-71 | after SetupUsers, SetPassword finds rancher, and a reader gets the new hash |
| PartitionNames.SplitPartition | internal/boot/finalize/grow.go:78-94 | the loop splits off the digits at the end, and a p after a digit |
| PartitionNames.StripPartitionNumber | internal/boot/modes/disk.go:458-469 | the same disk, but for names of digits only |
| PartitionNames.ExtractPartitionNumber | internal/boot/modes/disk.go:473-480 | the same number, but for names of digits only |
| PartitionNames.TheyAgreeIff | internal/boot/modes/disk.go:456-480 | the two implementations agree exactly on names with a character that is no digit, and on "" |
| PartitionNames.BuildSplit | internal/boot/finalize/grow.go:78-94 | building from the parts of any name gives the name back |
| PartitionNames.SplitBuildIff | internal/boot/finalize/grow.go:78-94 | splitting a built name gives the parts back exactly when the disk does not end in a digit and a p |
| PartitionNames.NamesThatWork | internal/boot/finalize/grow.go:78-94 | sda12 and nvme0n1p2 |
| PartitionNames.NamesThatFail | internal/boot/finalize/grow.go:78-94 | a name for each of the two conditions |
| PartitionNames.BuiltIsPartition | internal/devpopulate/devpopulate.go:236-259 | every built name is recognised as a partition |
| PartitionNames.SplitIsPartitionIff | internal/devpopulate/devpopulate.go:236-259 | a name is a partition of the disk it is split into exactly when a number was split off |

## Left out

- ComponentUpgrade.ComponentDir.CopyCurrent: a `current` that is no link is never made by this program; copying it may change anything but `current` and the temporary link.
- DiskBoot.Volume.Setup: what the steps install under k3os/system is any change of its entries k3os, kernel, k3s and growpart; growing the partition and copying are not modelled step by step. Volumes are compared apart from these entries.
- BootRuns.LogIsAnAttempt: not for a boot that fails to remove a link at `sbin`; it may then clean away the directory the link leads to, and with it the room for an init.
- DiskBoot.Volume.CleanVolume: a link at `boot`, `k3os` or `k3os/system` is not followed; where a link at `sbin` leads is a parameter.
- RootRelocation.Relocation.CopyTree: owners, times and modes, hard links, and the walk that deletes what is left in the old root are not modelled.
- Normalize.NormalizeData: on values; that nested maps are changed in place matters only if a map is shared, and the readers build none (ConfigStore.Nested).
- Accounts.Disk.SetupUsers: directories are not modelled; a failed or interrupted write of os.WriteFile may leave any text in that file.
- PasswdFiles.FindUserHomeDir: characters are bytes; numbers are those of a 64-bit Go int.
- KeyNames.CamelToSnake: ASCII letters and digits; Unicode case is not modelled, here and in the tokenizers.
- Cmdline.ReadFlags: strconv.Unquote is a parameter, and the lines are those that the scanner yields.
- Accounts.Disk.SetPassword: hashing is a parameter.
- MagicScan.InFile: the offset is unbounded, and the reader ends with an end of file or an error.
- MountFlags.ParseOptions: a word is the set of its bits; all flags of the table are below bit 32.
- ModeDetect.Detector.Detect: the clock and the context are the number of passes they allow.
- LoopDevice: the kernel's own filtering of status flags, and reuse of a closed descriptor by another thread.
- MountPool: the mutex makes each call of the pool atomic; only the topmost mount of a target can be unmounted, and a busy one may fail.
- Crash states appear in program order; a disk that reorders writes is not modelled.
- In the component directory links are followed to entries beside them; path separators in link targets are not modelled.
- File modes and chmod failures, which the code ignores or treats like any other failed step.
- Merging with mergo, decoding with mapstructure, YAML, and reading the files themselves.
- Partition table growing, kernel modules, device nodes, hostname, sysctl and network setup, prompts and the installer.
