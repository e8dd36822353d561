# hybrid_mount in Dafny

hybrid_mount is a KernelSU/APatch metamodule. It mounts the files of other
modules over the Android partitions, using overlayfs where it can and
"magic" (bind) mounting where it cannot. It keeps the module images on tmpfs,
an ext4 image or an EROFS image. A web UI (Solid) shows the status, edits the
configuration and sets per-module mount modes. An `xtask` build helper
packages it all.

This project models the core of that system:

- **Mount daemon (Rust).**
  - Constants: the partition tables and marker files.
  - `is_mounted`, `repair_image` and the mount-source detection.
  - The conflict winnowing table.
  - The hex payload decoder and the configuration loader of the CLI handlers.
  - The overlay support probe and the new-mount-API parameters.
  - The executor that splits modules between overlay and magic mounting.
  - The layered overlayfs mount, with its staging of more than 64 layers and
    its walk over child mount points.
  - The legacy overlay mount.
  - The module inventory scan.
  - Storage backend selection, the EROFS commit and the ext4 sizing.
  - The typestate controller that chains these steps.
- **Web UI (TypeScript).**
  - The UI, configuration, module and system stores.
  - The Status, Config and Modules tabs.
  - The swipe navigation of the app shell.
- **Build helper.**
  - The architecture names and build flags.
  - The Android `versionCode`.
  - The release version strings.
  - The Cargo.toml version rewrite and module.prop.

Files, syscalls, processes, remote calls and the clock are not modelled. They
become parameters: a set or predicate of existing paths, the outcome of each
mount or call, the time in milliseconds. Each Rust or TypeScript function is a
Dafny function where it only computes a value. It is a method with loop
invariants where the source loops. It is a class where the source keeps
mutable state: the stores, the tabs, the swipe controller, the winnowing table
and the EROFS backend. Each method is proved against a specification
function, and properties of those functions are proved as lemmas.

Helper modules:

- `Wrappers`: Option and Result.
- `Strings`: Rust's `trim`, `lines`, `split`, `split_once`, `replacen`,
  `trim_start_matches`, and decimal and hex parsing.
- `Seqs`: filter, subsequence, `Set`-style dedup and counting.
- `Ordering`: lexicographic string order, sorting by a total preorder, and
  Rust `sort` + `dedup`.
- `Paths`: `Path::components`, `join` and `starts_with`.

## Model

| member | source | states |
|---|---|---|
| Defs.BuiltinPartitionsDistinct | src/defs.rs:14-36 | the built-in table names 21 distinct partitions, "system" first |
| Defs.SensitiveIsBuiltinWithoutSystem | src/defs.rs:38-59 | the sensitive table is exactly the built-in table without "system", same order |
| Defs.IgnoreUnmountUnderVendorOrSystem | src/defs.rs:61-66 | four absolute paths, each below /vendor or /system |
| Defs.StateFileInRunDir | src/defs.rs:2-3 | the run directory ends in '/' and the state file lies inside it |
| Defs.MarkersDistinct | src/defs.rs:4-6 | the disable, remove and skip_mount marker names are pairwise distinct |
| SysMount.DetectMountSource | src/sys/mount.rs:9-14 | "KSU" exactly when KernelSU reports a version, otherwise "APatch" |
| SysMount.IsMounted | src/sys/mount.rs:16-32 | true iff the path and /proc/self/mountinfo can be read and the path, trailing '/' trimmed, is a mount point |
| SysMount.IsMountedIgnoresTrailingSlash | src/sys/mount.rs:16-32 | `p/` and `p` give the same answer |
| SysMount.RootIsNeverMounted | src/sys/mount.rs:16-32 | "/" trims to "" and is never reported mounted |
| SysMount.RepairImage | src/sys/mount.rs:47-60 | an error iff e2fsck cannot be spawned or exits above 2; the error carries the exit code |
| Winnow.WinnowingTable.constructor | src/core/winnow.rs:11-17 | the default table has no rules |
| Winnow.WinnowingTable.GetPreferredModule | src/core/winnow.rs:20-23 | Some(rule) exactly when the path has a rule |
| Winnow.WinnowingTable.SetRule | src/core/winnow.rs:25-27 | the path's rule becomes the module; every other path's lookup is unchanged |
| Winnow.WinnowingTable.RemoveRule | src/core/winnow.rs:29-31 | the path has no rule afterwards; others unchanged; removing an absent rule changes nothing |
| Winnow.Sift | src/core/winnow.rs:42-67 | path is "/system/"+relative; forced iff a rule exists; a forced contender wins, else the last contender, else "unknown" |
| Winnow.SiftConflicts | src/core/winnow.rs:42-67 | one sifted result per conflict, in order |
| Winnow.RuleForContenderWins | src/core/winnow.rs:48-58 | a rule naming a contending module selects it |
| Winnow.RuleForOutsiderIsIgnored | src/core/winnow.rs:48-64 | a rule naming a non-contender changes only the forced flag |
| CliHandlers.DecodeHex | src/conf/cli_handlers.rs:90-94 | one of three outcomes: the bytes, a slice that is not a hex number, or a slice past the end or inside a character (the panic); decoded bytes come only from an ASCII payload of even length, half as many bytes as characters |
| CliHandlers.DecodeHexSpec | src/conf/cli_handlers.rs:90-94 | on ASCII text: decoding succeeds iff the length is even and every pair parses in base 16, and byte k is pair k; it panics iff the length is odd and every pair parses |
| CliHandlers.TwoByteCharIsBadPair | src/conf/cli_handlers.rs:90-94 | a slice holding one two-byte character is not a hex number |
| CliHandlers.DecodeHexStopsAtFirstBadPair | src/conf/cli_handlers.rs:90-94 | "zzz" and "éa" fail to parse; "0" and "0é" panic |
| CliHandlers.EncodeHex | src/conf/cli_handlers.rs:69-74 | two hex digits per byte (the encoding the web UI sends) |
| CliHandlers.DecodeEncodeHex | src/conf/cli_handlers.rs:69-74 | decoding the hex encoding of any byte string, in either letter case, gives it back |
| CliHandlers.PlusSignPair | src/conf/cli_handlers.rs:92 | `from_str_radix` accepts "+f" as a byte pair |
| CliHandlers.SaveModuleRules | src/conf/cli_handlers.rs:88-109 | an invalid id fails first; then a bad hex pair, a decoder panic or unparsable rules each give their own error; success means the rules are stored under the id in the loaded (or default) config |
| CliHandlers.SaveModuleRulesTwice | src/conf/cli_handlers.rs:96-100 | saving the same rules twice gives the same config as saving once |
| CliHandlers.LoadConfig | src/conf/cli_handlers.rs:22-51 | with an explicit path, its config, or its error under the context "Failed to load config from custom path: <path>"; otherwise the default file's config, the built-in default only when the file is missing, or the error under the context "Failed to load default config from" the config file |
| CliHandlers.LoadConfigDefaultOnlyWhenMissing | src/conf/cli_handlers.rs:32-48 | the built-in default is used iff there is no explicit path and the default file is not found |
| CliHandlers.LoadFailureNamesItsFile | src/conf/cli_handlers.rs:24-47 | a failure keeps the loader's error as its root cause; its context names the custom path exactly when one was given; a default-file failure is never a missing file |
| CliHandlers.LevelName | src/conf/cli_handlers.rs:151-154 | "Warning" or "Critical" |
| CliHandlers.LevelNameRoundTrip | src/conf/cli_handlers.rs:151-154 | the level can be read back from its name |
| OverlayUtils.IsOverlaySupported | src/mount/overlayfs/utils.rs:77-99 | a read error is returned; otherwise true iff some non-comment line has key CONFIG_OVERLAY_FS and value "y" after trimming |
| OverlayUtils.SplitAtFirstEquals | src/mount/overlayfs/utils.rs:89 | `split_once('=')` splits at the first '=' only |
| OverlayUtils.EnablesOverlayOfEntry | src/mount/overlayfs/utils.rs:85-95 | a line `key=value` counts iff it is no comment, key trims to CONFIG_OVERLAY_FS and value trims to "y" |
| OverlayUtils.ModuleBuildDoesNotCount | src/mount/overlayfs/utils.rs:93 | a value "m" never counts |
| OverlayUtils.CommentDoesNotCount | src/mount/overlayfs/utils.rs:85-87 | a line starting with '#' never counts |
| OverlayUtils.FsParameters | src/mount/overlayfs/utils.rs:108-143 | lowerdir first and source last; upperdir and workdir in between only as a pair |
| Executor.InvolvedModules | src/core/ops/executor.rs:45-49 | the ids extractable from the operation's lower directories |
| Executor.OverlayGained | src/core/ops/executor.rs:39-43 | the ids returned by the successful overlay operations |
| Executor.MagicGained | src/core/ops/executor.rs:44-51 | the involved ids of the failed operations |
| Executor.Without | src/core/ops/executor.rs:54 | `retain(!contains)`: the elements not in the drop set |
| Executor.KeptIn | src/core/ops/executor.rs:65 | `retain(contains)`: the elements in the keep set |
| Executor.RunOperations | src/core/ops/executor.rs:38-53 | the loop yields the overlay gains and the plan's magic ids plus the failed operations' ids |
| Executor.Execute | src/core/ops/executor.rs:25-91 | the method computes `Executed` on the driver outcomes |
| Executor.ExecutedSortedAndDisjoint | src/core/ops/executor.rs:54-85 | both result lists are strictly ascending and no id is in both |
| Executor.ExecutedFailsOnlyOnSupportQuery | src/core/ops/executor.rs:38 | execute fails iff the support query fails |
| Executor.ExecutedOverlaySources | src/core/ops/executor.rs:38-57 | an overlay id came from a successful operation and is not in the magic candidates |
| Executor.ExecutedMagicSources | src/core/ops/executor.rs:35-69 | a magic id was queued (plan magic, failed op, or all overlay ids when unsupported) and kept by the magic driver; when the driver succeeds on a non-empty queue, an id is magic iff it was queued and the driver kept it |
| Executor.MagicDriverUnusedWhenNothingQueued | src/core/ops/executor.rs:62 | with an empty magic queue the magic driver's behaviour does not matter |
| Executor.UpperWork | src/core/ops/executor.rs:117-126 | upper and work directories are used only as a pair, both existing |
| Executor.ListedTrimmed | src/core/ops/executor.rs:128-135 | true exactly when some list entry equals the target once both are trimmed |
| Executor.MountSourceFor | src/core/ops/executor.rs:128-135 | the plain "overlay" source when the target matches an ignore-unmount path after trimming, else the configured source |
| Executor.NativeMountOverlay | src/core/ops/executor.rs:104-151 | a successful native overlay returns exactly the involved ids |
| Executor.WorkspaceStepFor | src/core/ops/executor.rs:159-167 | erofs mode mounts tmpfs on an existing workspace; other modes create a missing one |
| Executor.NativeMountMagic | src/core/ops/executor.rs:153-179 | the native magic mount returns the ids it was given iff the workspace step and the mount succeed |
| Executor.NativeOperationModulesLandOnOneSide | src/core/ops/executor.rs:38-151 | with native drivers each operation's modules go to overlay when it mounted, else to magic |
| Executor.NativeMagicKeepsEverything | src/core/ops/executor.rs:64-178 | a successful native magic mount keeps every queued id |
| OverlayFs.FoldLayers | src/mount/overlayfs/overlayfs.rs:88-108 | at most MAX_LAYERS layers remain; no staging when already within the limit |
| OverlayFs.FoldSizes | src/mount/overlayfs/overlayfs.rs:91-108 | every staged chunk holds MAX_LAYERS-1 layers and each pass removes MAX_LAYERS-2 |
| OverlayFs.FoldKeepsTopInOrder | src/mount/overlayfs/overlayfs.rs:91-108 | the first chunk is the bottom MAX_LAYERS-1 layers; the final layers start with the untouched top ones, in order |
| OverlayFs.ChunksNest | src/mount/overlayfs/overlayfs.rs:92-107 | each later chunk ends with the previous pass's staging directory |
| OverlayFs.StageLayers | src/mount/overlayfs/overlayfs.rs:91-108 | the loop stages exactly the folded chunks, or stops at the first staging mount that fails |
| OverlayFs.MountOverlayfs | src/mount/overlayfs/overlayfs.rs:80-117 | succeeds iff every staging mount and the final mount succeed; the final mount gets the folded layers |
| OverlayFs.EscapeCommas | src/mount/overlayfs/overlayfs.rs:59 | the escaped text never starts with a comma and is one character longer per comma; `EscapeCommasRoundTrip` and `EscapeCommasGuardsEveryComma` state its meaning |
| OverlayFs.EscapeCommasRoundTrip | src/mount/overlayfs/overlayfs.rs:59 | unescaping the escaped text gives it back |
| OverlayFs.EscapeCommasGuardsEveryComma | src/mount/overlayfs/overlayfs.rs:59-66 | every comma of the escaped text has a backslash before it |
| OverlayFs.FallbackData | src/mount/overlayfs/overlayfs.rs:59-68 | "lowerdir=" + escaped layers, plus escaped upperdir/workdir only when both exist |
| OverlayFs.FallbackLowerReadsBack | src/mount/overlayfs/overlayfs.rs:35-60 | without an upper/work pair the data is lowerdir= and the ':'-joined escaped layers |
| OverlayFs.IfExists | src/mount/overlayfs/overlayfs.rs:44-49 | `filter(exists)`: a directory passes iff it exists |
| OverlayFs.CoreCalls | src/mount/overlayfs/overlayfs.rs:28-78 | the new mount API first; the legacy mount(2) with the same source only when it fails |
| OverlayFs.CoreUsesUpperOnlyWhenBothExist | src/mount/overlayfs/overlayfs.rs:44-68 | upper/work reach either call only when both are given and exist |
| OverlayFs.Candidates | src/mount/overlayfs/overlayfs.rs:173 | `root + relative` per module root, in order |
| OverlayFs.ChildLowers | src/mount/overlayfs/overlayfs.rs:171-180 | None iff some candidate exists but is no directory; otherwise the directory candidates, in order |
| OverlayFs.CollectChildLowers | src/mount/overlayfs/overlayfs.rs:171-180 | the loop computes `ChildLowers` |
| OverlayFs.ChildPlanFor | src/mount/overlayfs/overlayfs.rs:162-183 | bind the stock dir iff no module has the path; overlay iff the stock dir is a directory and the lowers are all directories and not empty; otherwise leave alone |
| OverlayFs.ChildResult | src/mount/overlayfs/overlayfs.rs:166-196 | a failed overlay falls back to a bind mount; an error only when that bind fails |
| OverlayFs.DescendantMountPoints | src/mount/overlayfs/overlayfs.rs:213-222 | the mount points strictly below the root, sorted and deduplicated |
| OverlayFs.StepFor | src/mount/overlayfs/overlayfs.rs:230-249 | a descendant is skipped iff its stock path is missing; fails iff the child mount fails |
| OverlayFs.DescendantRun | src/mount/overlayfs/overlayfs.rs:226-250 | `Ok` lists, in order, exactly the handled descendants and means none failed; `Err` names the first descendant that failed |
| OverlayFs.FirstFailureOfInit | src/mount/overlayfs/overlayfs.rs:235-249 | the first failure of all but the last descendant is the first failure of all |
| OverlayFs.FirstFailureAtLast | src/mount/overlayfs/overlayfs.rs:235-249 | when only the last descendant fails, it is the first failure |
| OverlayFs.DescendantRunAllSkipped | src/mount/overlayfs/overlayfs.rs:235-249 | a walk whose every step skips succeeds and handles nothing |
| OverlayFs.DescendantRunStopsAtFailure | src/mount/overlayfs/overlayfs.rs:235-249 | once a prefix fails the whole walk fails the same way |
| OverlayFs.MountOverlayResult | src/mount/overlayfs/overlayfs.rs:199-252 | mountinfo failure, then root mount failure; success means the root is mounted, no descendant failed and exactly the handled descendants are listed in order; a child failure names the first descendant that failed, with revert |
| OverlayFs.MountOverlay | src/mount/overlayfs/overlayfs.rs:199-252 | the method computes `MountOverlayResult`, whose contract states the outcomes |
| LegacyOverlay.LegacyDataReadsBack | src/mount/overlay.rs:27-42 | split on ',' the data gives lowerdir= with the ':'-joined layers, then upperdir and workdir when both are given |
| LegacyOverlay.ExistingLowers | src/mount/overlay.rs:92-99 | the existing module copies, in module order |
| LegacyOverlay.CollectExistingLowers | src/mount/overlay.rs:92-99 | the loop computes `ExistingLowers` |
| LegacyOverlay.OnPathResult | src/mount/overlay.rs:79-120 | nothing to do iff no module has the path; an error iff overlay and bind both fail; the overlay data uses the stock root as lowest layer |
| LegacyOverlay.MountOnPath | src/mount/overlay.rs:79-120 | the method computes `OnPathResult` |
| LegacyOverlay.TopPassRun | src/mount/overlay.rs:145-184 | one call per readable, non-excluded directory entry that is not itself a mount point, in listing order |
| LegacyOverlay.TopPass | src/mount/overlay.rs:145-184 | the loop computes `TopPassRun` |
| LegacyOverlay.SkipAsWrittenTestsTarget | src/mount/overlay.rs:199-216 | as written, the skip test is true iff the target itself is a mount point |
| LegacyOverlay.SkipAsWrittenIgnoresChild | src/mount/overlay.rs:199-216 | as written, a descendant below lost+found is not excluded when the target is not a mount point |
| LegacyOverlay.SkipCorrectedTestsTopLevelChild | src/mount/overlay.rs:199-216 | corrected: a descendant is skipped iff its top-level child is lost+found or is a mount point |
| LegacyOverlay.SkipAsWrittenDisagrees | src/mount/overlay.rs:199-216 | the two tests disagree on the inputs named under Findings |
| LegacyOverlay.DescendantStepAt | src/mount/overlay.rs:198-238 | skipped by the given skip test or a missing stock path; otherwise the on-path mount's outcome |
| LegacyOverlay.MountOverlayResult | src/mount/overlay.rs:122-242 | mountinfo and read_dir failures first; success means the top pass ran, no descendant failed and exactly the handled descendants are listed in order; a child failure names the first descendant that failed, with unmount unless disabled |
| LegacyOverlay.MountOverlay | src/mount/overlay.rs:122-242 | the method computes `MountOverlayResult` for the skip test it is given |
| LegacyOverlay.AsWrittenMountsNoDescendantBelowMountedTarget | src/mount/overlay.rs:199-238 | with the skip test as written and the target itself a mount point, the descendant loop mounts nothing and succeeds |
| LegacyOverlay.SkippedAsWrittenBelowMountedTarget | src/mount/overlay.rs:199-216 | below a mounted target, the skip test as written skips every descendant |
| Inventory.PartitionsOf | src/core/inventory.rs:42-47 | the built-in partitions the module has a directory for, in table order, no repeats |
| Inventory.CollectPartitions | src/core/inventory.rs:42-47 | the partition loop yields exactly `PartitionsOf` |
| Inventory.CollectDirs | src/core/inventory.rs:42-47 | the loop keeps, in order, exactly the names that have a directory under the module |
| Inventory.ModuleFor | src/core/inventory.rs:29-58 | a module iff a directory, not reserved, no marker, and at least one partition; its mode is the stored one or "auto" |
| Inventory.ReadableNames | src/core/inventory.rs:21-23 | unreadable entries are dropped |
| Inventory.VisitOrder | src/core/inventory.rs:25-26 | a permutation of the names in descending order |
| Inventory.ScanResult | src/core/inventory.rs:14-62 | no modules when the directory is missing; an error iff it cannot be listed; otherwise the modules in visiting order |
| Inventory.Ids | src/core/inventory.rs:53 | the modules' ids, position by position |
| Inventory.IdsFollowOrder | src/core/inventory.rs:28-59 | the scanned ids are a subsequence of the visiting order |
| Inventory.ScanIdsDescending | src/core/inventory.rs:25-59 | a scan of distinct names yields modules with strictly descending ids |
| Inventory.Scan | src/core/inventory.rs:14-62 | the method computes `ScanResult` |
| Inventory.ScanEntries | src/core/inventory.rs:28-59 | the entry loop yields, in visiting order, exactly the modules `ModuleFor` accepts |
| Inventory.ScanEntry | src/core/inventory.rs:29-58 | one entry's checks produce exactly the module `ModuleFor` describes, or none |
| Storage.CommitErofs | src/core/storage.rs:57-73 | staging: success moves to the final target with mode "erofs", a failure leaves the fields; any other mode does nothing |
| Storage.CommitIdempotent | src/core/storage.rs:57-73 | committing after a successful commit changes nothing |
| Storage.FailedCommitStaysStaging | src/core/storage.rs:57-73 | a failed commit keeps the staging mode |
| Storage.ErofsCommand | src/core/storage.rs:296-322 | the bundled mkfs.erofs when present, else the one on PATH, with lz4hc level and -x 256 |
| Storage.ErofsBackend.constructor | src/core/storage.rs:49-54 | the backend holds the four given fields |
| Storage.ErofsBackend.Commit | src/core/storage.rs:57-73 | the result and the new fields are those of `CommitErofs` |
| Storage.StorageHandle.Commit | src/core/storage.rs:31-47 | the EROFS backend commits as above; ext4 and tmpfs return Ok |
| Storage.WithExtensionReplaces | src/core/storage.rs:164-187 | the backing image of `dir/name.img` is `dir/name.erofs` |
| Storage.ErofsSupported | src/core/storage.rs:290-294 | true iff /proc/filesystems is readable and contains "erofs" |
| Storage.TrySetupTmpfs | src/core/storage.rs:233-242 | usable iff mounted and xattrs known supported; unmounted again when mounted but unusable |
| Storage.SetupChoice | src/core/storage.rs:152-231 | EROFS staging iff asked for and supported and staging succeeded; tmpfs iff not forced ext4 and usable; ext4 otherwise; a supported EROFS request never falls back |
| Storage.StagingDir | src/core/storage.rs:188 | the staging directory in the run directory |
| Storage.Setup | src/core/storage.rs:152-231 | fails exactly as `SetupChoice`; the handle's mode is the choice's; EROFS starts in staging with the .erofs image and mnt_base as final target |
| Storage.TotalSize | src/core/storage.rs:122-136 | non-directories count 0; an unlistable directory is an error |
| Storage.TotalSizeOkIffWalkable | src/core/storage.rs:122-136 | the walk succeeds iff everything below can be read |
| Storage.ListingSizeOkIffWalkable | src/core/storage.rs:126-134 | a listing prefix sums iff its entries are readable |
| Storage.ListingSizeFailureStays | src/core/storage.rs:126-134 | once the walk fails it stays failed |
| Storage.CalculateTotalSize | src/core/storage.rs:122-136 | the recursive loop computes `TotalSize` |
| Storage.Ext4ImageSize | src/core/storage.rs:245-247 | at least 64 MiB and at least the total; the total grown by a fifth or the minimum |
| Storage.MountWithRepair | src/core/storage.rs:264-270 | a failed mount is repaired and retried; the repair's failure is the error |
| Manager.New | src/core/manager.rs:45-55 | the controller keeps the config and tempdir |
| Manager.InitStorage | src/core/manager.rs:56-82 | ext4 forced iff mode Ext4, EROFS asked iff mode Erofs; fails exactly as storage setup |
| Manager.Ext4ModeGivesExt4 | src/core/manager.rs:65-68 | an ext4 configuration always gets ext4 storage |
| Manager.ErofsModeNoFallback | src/core/manager.rs:69-72 | an EROFS configuration on a supporting kernel never falls back |
| Manager.NeedsMagic | src/core/manager.rs:92-98 | true iff some module is magic by default or for some path |
| Manager.WithRules | src/core/manager.rs:87 | each scanned module paired with its rules |
| Manager.ScanAndSync | src/core/manager.rs:86-118 | scan and sync failures stop before commit; the magic workspace is created iff staging, needed and missing; the commit's outcome decides the result |
| Manager.GeneratePlan | src/core/manager.rs:122-137 | the planner's plan is kept |
| Manager.Execute | src/core/manager.rs:141-159 | fails iff the support query fails; otherwise the executor's result |
| Manager.PartitionNames | src/core/manager.rs:170-176 | the operations' partitions in plan order |
| Manager.ActiveMounts | src/core/manager.rs:170-179 | strictly ascending, exactly the partitions with an overlay operation |
| Manager.Finalize | src/core/manager.rs:163-192 | the description and saved state carry the mode, mount point, id lists and active mounts |
| Manager.ActiveMountsDependOnPartitionsOnly | src/core/manager.rs:178-179 | the active mounts depend only on which partitions occur |
| Ordering.SortDedup | src/core/manager.rs:178-179 | `sort(); dedup()`: strictly ascending with the same elements |
| Xtask.ArchNamesInjective | xtask/src/main.rs:45-60 | different architectures never share a directory or target triple |
| Xtask.SelectBuildArgs | xtask/src/main.rs:102-111 | CI: release core, debug web UI, arm64 only; otherwise the flag for both and the chosen or all three architectures, no repeats |
| Xtask.PartOrZero | xtask/src/main.rs:310-312 | `parse::<u32>().unwrap_or(0)` stays within u32 |
| Xtask.CalculateVersionCode | xtask/src/main.rs:307-317 | "0" with fewer than three parts, else a code of the first three; `VersionCodeValue`, `VersionCodeOfParts` and `VersionCodeCollision` state its value |
| Xtask.VersionCodeValue | xtask/src/main.rs:313 | with minor and patch below 100 the code reads as 10000·major + 100·minor + patch |
| Xtask.VersionCodeMonotonic | xtask/src/main.rs:313 | a later version gets a larger code while minor and patch stay below 100 |
| Xtask.VersionCodeOfParts | xtask/src/main.rs:307-317 | the code of a rendered "major.minor.patch" |
| Xtask.VersionCodeCollision | xtask/src/main.rs:313 | 1.100.0 and 11.0.0 share the code 110000 |
| Xtask.ResolveReleaseVersion | xtask/src/main.rs:319-332 | leading 'v's removed and nothing else; full version is clean + "-" + count; the code of the clean version |
| Xtask.ResolveLocalVersion | xtask/src/main.rs:334-348 | the package version is the clean version and its code is the version code; for a version without a leading 'v' the result is what a release tagged with it resolves |
| Xtask.LocalAgreesWithRelease | xtask/src/main.rs:319-348 | a local build of the version a release wrote into Cargo.toml resolves the same version information as the release |
| Xtask.ReplaceFirstVersionLine | xtask/src/main.rs:355-362 | the same number of lines; `ReplaceFirstVersionLineSpec` states which line changes and to what |
| Xtask.ReplaceFirstVersionLineSpec | xtask/src/main.rs:355-362 | only the first `version =` line changes, to the new version line |
| Xtask.ReplaceFirstVersionLineIdempotent | xtask/src/main.rs:350-369 | a second rewrite with the same version changes nothing |
| Xtask.UpdateCargoTomlVersion | xtask/src/main.rs:350-369 | the file becomes its lines with the first version line replaced, each ended by a newline |
| Xtask.RewriteVersionLine | xtask/src/main.rs:352-362 | the line loop with its replaced flag yields exactly the lines with only the first version line replaced |
| Xtask.RewrittenFileReadsBack | xtask/src/main.rs:350-369 | reading the written file back gives the rewritten lines |
| Xtask.ModulePropReadsBack | xtask/src/main.rs:212-237 | reading module.prop back line by line gives the nine entries written, in order, when no field spans lines |
| WebTypes.Truthy | webui/src/routes/ConfigTab.tsx:89-90 | true is truthy; absent, false and "" are not |
| WebTypes.Message | webui/src/lib/stores/configStore.ts:19-22 | a locale lookup with a logical-or fallback: the entry unless absent or empty |
| WebTypes.MessageOrNull | webui/src/routes/ModulesTab.tsx:130-135 | a locale lookup with a nullish (`??`) fallback: the entry unless absent |
| UiStore.Shown | webui/src/lib/stores/uiStore.ts:39-44 | a visible toast with the clock-stamp id, text and kind |
| UiStore.Expired | webui/src/lib/stores/uiStore.ts:45-47 | the timer hides the toast iff it still has the captured id |
| UiStore.OlderTimerSparesNewerToast | webui/src/lib/stores/uiStore.ts:43-47 | an older toast's timer leaves a newer toast from another millisecond visible |
| UiStore.SameMillisecondTimerHidesNewerToast | webui/src/lib/stores/uiStore.ts:43-47 | two toasts in one millisecond share an id, so the first timer hides the second |
| UiStore.StoredFlag | webui/src/lib/stores/uiStore.ts:89 | the flag is on iff the stored text is exactly "true" |
| UiStore.StoredFlagRoundTrip | webui/src/lib/stores/uiStore.ts:77-89 | what the toggle stores, init reads back unchanged |
| UiStore.LocaleChoice | webui/src/lib/stores/uiStore.ts:50-66 | the first table ending in /code.json, else the first en-US table, else none |
| UiStore.LanguageLeTotalPreorder | webui/src/lib/stores/uiStore.ts:26-30 | the comparator is a total preorder when the name order is |
| UiStore.AvailableLanguages | webui/src/lib/stores/uiStore.ts:18-30 | a permutation of the table with English first and the rest ordered by name |
| UiStore.LanguagesTable | webui/src/lib/stores/uiStore.ts:18-25 | seven languages, each once, English first and the only en-US entry |
| UiStore.SortedLanguages | webui/src/lib/stores/uiStore.ts:26-30 | any sorted arrangement puts English first and orders the rest by name |
| UiStore.UiStore.constructor | webui/src/lib/stores/uiStore.ts:7-16 | en-US, no locale, the hidden "init" toast, fix off, not ready |
| UiStore.UiStore.Toasts | webui/src/lib/stores/uiStore.ts:106-108 | the toast when visible, else nothing |
| UiStore.UiStore.ShowToast | webui/src/lib/stores/uiStore.ts:39-48 | replaces the toast and returns the id its timer captures; nothing else changes |
| UiStore.UiStore.Expire | webui/src/lib/stores/uiStore.ts:45-47 | the toast becomes `Expired`; nothing else changes |
| UiStore.UiStore.LoadLocale | webui/src/lib/stores/uiStore.ts:50-66 | loads the table `LocaleChoice` picks, keeps the old one when none |
| UiStore.UiStore.SetLang | webui/src/lib/stores/uiStore.ts:68-72 | language set and stored, its table loaded |
| UiStore.UiStore.ToggleBottomNavFix | webui/src/lib/stores/uiStore.ts:74-83 | flips the flag, stores it so init reads it back, and toasts the on/off message |
| UiStore.UiStore.Init | webui/src/lib/stores/uiStore.ts:85-91 | stored language or en-US, its table, the stored flag, ready |
| SwipePanels.Threshold | webui/src/App.tsx:84-85 | a third of the width, or 80 when the width is 0 |
| SwipePanels.ThresholdNotAMaximum | webui/src/App.tsx:85 | a narrow container gets a threshold below 80 |
| SwipePanels.NextIndex | webui/src/App.tsx:86-96 | next panel iff dragged left past the threshold and not last; previous iff dragged right past it and not first |
| SwipePanels.ShortDragKeepsPanel | webui/src/App.tsx:91-96 | a drag within the threshold keeps the panel |
| SwipePanels.Dampen | webui/src/App.tsx:63-71 | a drag past either end moves a third as far; the sign is kept |
| SwipePanels.BaseTranslate | webui/src/App.tsx:30-33 | in (-100, 0], zero iff the first panel |
| SwipePanels.Transition | webui/src/App.tsx:130-132 | "none" iff dragging |
| SwipePanels.SwipeController.ActiveIndex | webui/src/App.tsx:31 | the active tab's index among the panels |
| SwipePanels.SwipeController.constructor | webui/src/App.tsx:17-26 | status tab, no drag, no pending frame |
| SwipePanels.SwipeController.TouchStart | webui/src/App.tsx:35-45 | the drag starts at the touch point; a pending frame is cancelled |
| SwipePanels.SwipeController.TouchMove | webui/src/App.tsx:47-74 | ignored unless dragging and mostly horizontal; then prevents default; the first move since the last frame schedules the frame and fixes its offset, later moves leave it as it is |
| SwipePanels.SwipeController.RunFrame | webui/src/App.tsx:59-72 | clears the frame and, while dragging, shows the dampened offset |
| SwipePanels.SwipeController.TouchEnd | webui/src/App.tsx:76-98 | outside a drag nothing changes; otherwise the drag ends, the panel becomes `NextIndex` and the offset resets |
| SwipePanels.SwipeController.SelectTab | webui/src/App.tsx:151 | a navigation-bar tap makes that panel active and leaves the drag state alone |
| SwipePanels.SwipeController.TrackPercent | webui/src/App.tsx:30-128 | the track position lies in (-100, 0] |
| ConfigStore.ConfigStore.constructor | webui/src/lib/stores/configStore.ts:9-11 | the defaults, not loading, not saving |
| ConfigStore.ConfigStore.SetConfig | webui/src/lib/stores/configStore.ts:63-65 | the whole configuration is replaced |
| ConfigStore.ConfigStore.BeginLoad | webui/src/lib/stores/configStore.ts:13-16 | loading starts, config kept |
| ConfigStore.ConfigStore.FinishLoad | webui/src/lib/stores/configStore.ts:16-24 | the fetched config replaces the old one; a failure toasts "Failed to load config"; loading ends |
| ConfigStore.ConfigStore.BeginSave | webui/src/lib/stores/configStore.ts:27-30 | saving starts and the current config is sent |
| ConfigStore.ConfigStore.FinishSave | webui/src/lib/stores/configStore.ts:30-38 | "Saved" or "Failed to save config"; saving ends; config kept |
| ConfigStore.ConfigStore.BeginReset | webui/src/lib/stores/configStore.ts:41-44 | saving starts |
| ConfigStore.ConfigStore.FinishReset | webui/src/lib/stores/configStore.ts:44-56 | on success reload then "Config reset to defaults"; on failure "Failed to reset config" and no reload; saving ends |
| ModuleStore.ModeStatsOf | webui/src/lib/stores/moduleStore.ts:12-20 | the counts of mounted modules in auto and in magic mode, together at most the mounted count |
| ModuleStore.ModuleStore.constructor | webui/src/lib/stores/moduleStore.ts:8-10 | no modules, not loading, not saving |
| ModuleStore.ModuleStore.SetModules | webui/src/lib/stores/moduleStore.ts:54-56 | the list is replaced |
| ModuleStore.ModuleStore.BeginLoad | webui/src/lib/stores/moduleStore.ts:22-25 | loading starts |
| ModuleStore.ModuleStore.FinishLoad | webui/src/lib/stores/moduleStore.ts:25-33 | the fetched list replaces the old one; a failure toasts "Failed to load modules" |
| ModuleStore.ModuleStore.BeginSave | webui/src/lib/stores/moduleStore.ts:36-39 | saving starts and the current list is sent |
| ModuleStore.ModuleStore.FinishSave | webui/src/lib/stores/moduleStore.ts:39-47 | "Saved" or "Failed to save module modes"; the list is kept |
| SysStore.SysStore.constructor | webui/src/lib/stores/sysStore.ts:7-22 | "-" placeholders, the built-in version, no storage type, no active partitions |
| SysStore.SysStore.BeginLoad | webui/src/lib/stores/sysStore.ts:24-25 | loading starts |
| SysStore.SysStore.FinishLoad | webui/src/lib/stores/sysStore.ts:25-37 | each fetch is stored up to the first failure; active partitions only when all succeed (none reported gives []) |
| ConfigTab.IsValidPath | webui/src/routes/ConfigTab.tsx:25 | valid iff empty, or starting with '/' and not the root alone |
| ConfigTab.IsValidPathMeaning | webui/src/routes/ConfigTab.tsx:25 | a valid non-empty path is absolute and not "/"; an invalid one is non-empty and relative or "/" |
| ConfigTab.InvalidModuleDir | webui/src/routes/ConfigTab.tsx:26-28 | flagged only for a text module directory that is non-empty and relative or "/"; a text directory not flagged is empty or absolute and not "/" |
| ConfigTab.IsDirty | webui/src/routes/ConfigTab.tsx:30-33 | never dirty without a baseline or when the config equals it; `UpdateDirtiesIffValueChanges` states when an edit makes it dirty |
| ConfigTab.UpdateDirtiesIffValueChanges | webui/src/routes/ConfigTab.tsx:30-63 | on a clean tab, an edit makes it dirty exactly when the field did not already hold the value |
| ConfigTab.UpdateConfig | webui/src/routes/ConfigTab.tsx:58-63 | the key takes the value; every other key is kept |
| ConfigTab.RestoreField | webui/src/routes/ConfigTab.tsx:109 | writes back the value read before the toggle (absent removes the key); other keys kept |
| ConfigTab.RollbackRestores | webui/src/routes/ConfigTab.tsx:106-109 | a rollback right after the update restores the config |
| ConfigTab.RollbackDropsLaterEdit | webui/src/routes/ConfigTab.tsx:108-109 | the rollback overwrites a later edit of the same field |
| ConfigTab.RollbackAgreesWithCompare | webui/src/routes/ConfigTab.tsx:88-114 | for boolean fields the unconditional rollback equals a compare-before-rollback |
| ConfigTab.BaselineEffect | webui/src/routes/ConfigTab.tsx:35-44 | the baseline is not touched while loading |
| ConfigTab.BaselineCapturesFirst | webui/src/routes/ConfigTab.tsx:30-44 | the first config seen outside loading becomes the baseline, so the tab is clean |
| ConfigTab.BaselineSticky | webui/src/routes/ConfigTab.tsx:35-44 | an existing baseline never moves, so dirtiness is unchanged |
| ConfigTab.EnforcementEffect | webui/src/routes/ConfigTab.tsx:46-56 | under enforcement without coexistence disable_umount is forced on; nothing else changes |
| ConfigTab.EnforcementEffectIdempotent | webui/src/routes/ConfigTab.tsx:46-56 | running the effect again changes nothing |
| ConfigTab.AvailableModes | webui/src/routes/ConfigTab.tsx:121-138 | the candidates in order, without tmpfs exactly when xattrs are unsupported |
| ConfigTab.DefaultModes | webui/src/routes/ConfigTab.tsx:128-135 | with nothing reported: tmpfs, ext4, erofs; without xattrs: ext4, erofs |
| ConfigTab.ConfigTab.constructor | webui/src/routes/ConfigTab.tsx:22-23 | no baseline, no reset dialog |
| ConfigTab.ConfigTab.OpenResetConfirm | webui/src/routes/ConfigTab.tsx:412 | the reset button opens the confirmation; the baseline is kept |
| ConfigTab.ConfigTab.CloseResetConfirm | webui/src/routes/ConfigTab.tsx:149-161 | cancelling or dismissing the confirmation closes it; the baseline is kept |
| ConfigTab.ConfigTab.RunBaselineEffect | webui/src/routes/ConfigTab.tsx:35-44 | the baseline becomes `BaselineEffect` |
| ConfigTab.ConfigTab.RunEnforcementEffect | webui/src/routes/ConfigTab.tsx:46-56 | the store's config becomes `EnforcementEffect` |
| ConfigTab.ConfigTab.Update | webui/src/routes/ConfigTab.tsx:58-119 | the store's config becomes `UpdateConfig` (also for setOverlayMode) |
| ConfigTab.ConfigTab.BeginSave | webui/src/routes/ConfigTab.tsx:65-70 | an invalid module directory toasts the invalid-path text and sends nothing; otherwise the config is sent |
| ConfigTab.ConfigTab.FinishSave | webui/src/routes/ConfigTab.tsx:70-72 | the baseline becomes the config, so the tab is clean |
| ConfigTab.ConfigTab.Reload | webui/src/routes/ConfigTab.tsx:75-79 | reloads, then the baseline is the loaded config and the tab is clean |
| ConfigTab.ConfigTab.BeginReset | webui/src/routes/ConfigTab.tsx:81-83 | the dialog closes and the reset starts |
| ConfigTab.ConfigTab.FinishReset | webui/src/routes/ConfigTab.tsx:83-85 | the baseline becomes the resulting config, so the tab is clean |
| ConfigTab.ConfigTab.Toggle | webui/src/routes/ConfigTab.tsx:88-108 | a disable_umount toggle under enforcement is refused with "Coexistence required"; otherwise the negated value is written and sent |
| ConfigTab.ConfigTab.ToggleRejected | webui/src/routes/ConfigTab.tsx:108-114 | the previous value is written back and "Failed to update setting" shown |
| ModulesTab.SnapshotOf | webui/src/routes/ModulesTab.tsx:59-62 | the snapshot's keys are exactly the module ids |
| ModulesTab.SnapshotEntry | webui/src/routes/ModulesTab.tsx:59-62 | a module whose id does not occur later has its own rules in the snapshot |
| ModulesTab.DirtyModules | webui/src/routes/ModulesTab.tsx:67-73 | in store order, the modules with a snapshot entry whose rules differ from it |
| ModulesTab.NoneDirtyAfterLoad | webui/src/routes/ModulesTab.tsx:57-73 | right after a load with distinct ids nothing is dirty |
| ModulesTab.RepeatedIdLooksDirty | webui/src/routes/ModulesTab.tsx:59-72 | with a repeated id and different rules a module is dirty right after a load |
| ModulesTab.CardDirtyVersusList | webui/src/routes/ModulesTab.tsx:67-240 | card styling and dirty list agree, except a module without a snapshot entry is styled dirty but not listed |
| ModulesTab.UpdateModule | webui/src/routes/ModulesTab.tsx:77-84 | only the first module with the id is replaced by its transform; no match changes nothing |
| ModulesTab.UpdateDefaultModeOnlyMode | webui/src/routes/ModulesTab.tsx:143-152 | only that module's default mode changes |
| ModulesTab.FilteredModules | webui/src/routes/ModulesTab.tsx:105-120 | in store order, the modules that pass the mounted, search and mode tests |
| ModulesTab.EmptyFilterShowsAll | webui/src/routes/ModulesTab.tsx:105-120 | no query, "all" and unmounted shown: every module |
| ModulesTab.HiddenUnmounted | webui/src/routes/ModulesTab.tsx:108-110 | unmounted modules are hidden unless asked for |
| ModulesTab.Page | webui/src/routes/ModulesTab.tsx:237 | the first `count` shown modules |
| ModulesTab.ModeClass | webui/src/routes/ModulesTab.tsx:137-141 | ignore iff unmounted, magic iff mounted magic, auto otherwise |
| ModulesTab.ModeLabel | webui/src/routes/ModulesTab.tsx:130-135 | the locale's word (or Unmounted / Magic / Overlay) for the same three cases |
| ModulesTab.LabelsAgreeWithStats | webui/src/routes/ModulesTab.tsx:137-141 | the store counts a module magic iff the tab shows it magic |
| ModulesTab.SaveRunStopsAtFirstRejection | webui/src/routes/ModulesTab.tsx:89-92 | all dirty modules written when no write is rejected; otherwise a prefix of them ending at the first rejection, whose message is reported |
| ModulesTab.SaveRunAt | webui/src/routes/ModulesTab.tsx:89-92 | from any position, a rejection ends the run there and a write goes on from the next module |
| ModulesTab.WriteInOrder | webui/src/routes/ModulesTab.tsx:89-92 | the loop computes `SaveRun` |
| ModulesTab.ModulesTab.constructor | webui/src/routes/ModulesTab.tsx:24-33 | empty query, "all", unmounted hidden, none expanded, empty snapshot, page size 20 |
| ModulesTab.ModulesTab.FinishLoad | webui/src/routes/ModulesTab.tsx:57-65 | the snapshot is rebuilt from the loaded list; with distinct ids nothing is dirty |
| ModulesTab.ModulesTab.UpdateDefaultMode | webui/src/routes/ModulesTab.tsx:150-152 | the store's list becomes `UpdateModule` with the new default mode |
| ModulesTab.ModulesTab.PerformSave | webui/src/routes/ModulesTab.tsx:86-103 | writes the dirty modules by `SaveRun`; success starts a reload and shows "Saved successfully"; a rejection shows its message or "Failed to save" |
| ModulesTab.ModulesTab.ToggleExpand | webui/src/routes/ModulesTab.tsx:122-128 | the expanded card collapses, any other expands |
| ModulesTab.ModulesTab.SentinelVisible | webui/src/routes/ModulesTab.tsx:38-45 | one more page of 20 |
| ModulesTab.ModulesTab.SetSearchQuery | webui/src/routes/ModulesTab.tsx:50-170 | the query is set; the page size resets to 20 iff it changed |
| ModulesTab.ModulesTab.SetFilterType | webui/src/routes/ModulesTab.tsx:50-197 | the filter is set; the page size resets to 20 iff it changed |
| ModulesTab.ModulesTab.ToggleShowUnmounted | webui/src/routes/ModulesTab.tsx:50-176 | the switch flips and the page size resets to 20 |
| StatusTab.DisplayPartitions | webui/src/routes/StatusTab.tsx:22-24 | the built-in and configured partitions, each once |
| StatusTab.DisplayPartitionsOrder | webui/src/routes/StatusTab.tsx:22-24 | built-in ones first, each kept at its first occurrence |
| Seqs.Distinct | webui/src/routes/StatusTab.tsx:23 | `[...new Set(s)]`: same elements, no repeats, in first-occurrence order |
| StatusTab.MountedCount | webui/src/routes/StatusTab.tsx:26-28 | the mounted modules, or 0 without a list |
| StatusTab.MountedCountBoundsStats | webui/src/routes/StatusTab.tsx:26-28 | the count bounds the store's auto plus magic figures |
| StatusTab.StorageBadgeClass | webui/src/routes/StatusTab.tsx:32-37 | "type-" + the type iff tmpfs, ext4 or erofs; else "" |
| StatusTab.ModeDisplayName | webui/src/routes/StatusTab.tsx:47-53 | "Unknown" without a mode; otherwise the translation or the mode upper-cased (ASCII letters only) |
| StatusTab.UntranslatedModeName | webui/src/routes/StatusTab.tsx:47-53 | an untranslated mode name is never empty or "Unknown" and keeps its length |
| StatusTab.ModeDescription | webui/src/routes/StatusTab.tsx:39-45 | "" without a mode; otherwise the description entry or "" |
| StatusTab.ChipSelected | webui/src/routes/StatusTab.tsx:227 | selected iff the partition is active |
| StatusTab.ActivePartitionsShown | webui/src/routes/StatusTab.tsx:22-227 | every active built-in or configured partition has a selected chip |

## Left out

- UiStore.AvailableLanguages: stated for any language table that lists each
  language once with English as its only en-US entry. UiStore.LanguagesTable
  shows that the built-in table is one. Sorting the seven-entry literal
  directly is too costly to verify.
- I/O and the kernel: syscalls, /proc, process spawning, file copies and
  zipping are parameters or outcomes. Directory listings and existence tests
  are sets or predicates over path strings. Paths are UTF-8 strings, so
  `to_string_lossy` and `to_str` returning None are not modelled.
- CliHandlers.DecodeHex: the panic of a slice past the end or inside a
  character is the `SlicePanic` outcome, not an abort of the process.
- The gzip decompression of /proc/config.gz: `IsOverlaySupported` takes the
  decompressed text.
- The staging directory names of `mount_overlayfs` come from the clock. They
  are a function of the pass number, assumed distinct.
- The fsopen/fsconfig/fsmount sequence itself: `FsParameters` states the
  parameters; the call either succeeds or fails as a whole.
- Storage.Ext4ImageSize: the `f64` factor 1.2 is the integer `total * 6 / 5`.
  The two differ by rounding only. `u64` overflow is not modelled.
- `setup_ext4_image` as a whole: its format, check, SELinux labelling and
  unmount steps reduce to one outcome, whether ext4 setup succeeded.
  `Ext4ImageSize` and `MountWithRepair` state its size and mount steps.
- Storage.WithExtensionReplaces: covers `dir/name.ext` paths only; other
  forms of `Path::with_extension` are not stated.
- Storage.WithExtension: differs from `Path::with_extension` on other forms.
  A path whose last piece is "." (`foo/.`) is returned unchanged, where Rust
  gives `foo.x`. An empty extension leaves a bare "." where Rust drops the
  extension. The caller only passes `dir/name.img` with extension "erofs".
- StatusTab.ModeDisplayName: the upper-case fallback maps ASCII letters only
  (`Strings.ToUpper`). `toUpperCase` maps all of Unicode and may change the
  length. The storage modes the daemon reports are ASCII.
- The planner, sync, state, config, inventory::model, magic_mount and
  umount_mgr modules are not part of this model. Their results are inputs.
  This includes the planner's plan, `perform_sync`, `update_description`,
  `load_module_modes` and the per-module rules.
- `extract_module_id` is a parameter function.
- xtask `build_full`, `build_webui`, `generate_webui_constants` (apart from its
  partition list), `compile_core`, `run_clippy` and `cal_git_code`: process
  and file work only. The commit count is an input.
- CLI `handle_save_config`, `handle_gen_config`, `handle_show_config`,
  `handle_modules`, `handle_conflicts` and `handle_diagnostics`: JSON
  (de)serialisation and printing. Their hex decoding is `DecodeHex`.
- `JSON.stringify` comparisons (ConfigTab dirtiness, ModulesTab snapshot) are
  structural equality: key order is not modelled.
- ConfigTab.ConfigTab.BeginSave: the source reads `L.config.invalidPath` with
  no fallback. The model shows "" when the entry is missing and does not model
  the exception when the `config` section itself is missing.
- ConfigTab.InvalidModuleDir: a module directory that is not text is treated
  as valid.
- The deferred search query of ModulesTab is the current query.
- ModulesTab.ModulesTab.PerformSave: `load()` returns nothing, so the reload is
  started, not awaited. The model starts it and leaves its completion to
  `FinishLoad`.
- StatusTab reads `store` from `webui/src/lib/store`, which is not part of this
  model. The values it reads (configured partitions, modules, active
  partitions, storage type, locale) are parameters.
- The NavBar, TopBar, Toast and dialog components, CSS classes other than the
  ones named above, and the IntersectionObserver set-up are rendering only.
  The NavBar's tab change is `SelectTab`.
- ModulesTab.FilteredModules: case folding is ASCII-only (`ToLower`), while
  `toLowerCase` folds all of Unicode.
- UiStore.UiStore.SetLang: the source starts `loadLocale` without awaiting
  it, so two quick language changes may finish in either order. The model
  applies each change as a whole.
- The language comparator `localeCompare` is a parameter: any total preorder
  on names.
- Swipe offsets and widths are reals; screen pixels, `requestAnimationFrame`
  timing and `preventDefault` are events and flags.
- Concurrency between asynchronous UI calls is modelled as Begin/Finish
  method pairs that the environment may interleave.

## Findings

| source | as written | input that shows it | evidently intended | confidence | as-written member | corrected member |
|---|---|---|---|---|---|---|
| src/mount/overlay.rs:199-216 | the relative path starts with '/', so its first component is the root. `clean_name` is "", and `target.join("")` names the target itself. The skip test therefore asks whether the target is a mount point. | target `/vendor` mounted with a descendant `/vendor/odm/x` whose top-level child `/vendor/odm` is not a mount point: every descendant is skipped. Target not mounted and a descendant `/vendor/lost+found/x`: it is not excluded. | skip a descendant iff its top-level child is "lost+found" or is itself a mount point | not executed | LegacyOverlay.SkipAsWrittenTestsTarget | LegacyOverlay.SkipCorrectedTestsTopLevelChild |

The legacy descendant walk takes the skip test as a parameter.
`LegacyOverlay.AsWrittenMountsNoDescendantBelowMountedTarget` shows what the
test as written does to the whole walk: below a target that is itself a
mount point, nothing is mounted. `LegacyOverlay.SkipCorrected` is the
intended test.
