/** Executing a mount plan: overlay operations are tried in plan order, the
    modules of a failed operation fall back to magic mount, and the two final
    id lists come out sorted, without duplicates and disjoint. The mount driver
    is represented by its outcomes: whether overlayfs is supported (or the query
    failed), the result of each overlay operation, and the magic mount as a
    function of the ids it is asked to mount. The module-id extraction from a
    lower directory is a parameter too. */
module Executor {
  import opened Wrappers
  import opened Strings
  import opened Seqs
  import opened Ordering
  import Paths
  import Defs

  datatype OverlayOperation = OverlayOperation(partitionName: string, target: string, lowerdirs: seq<string>)

  datatype MountPlan = MountPlan(overlayOps: seq<OverlayOperation>, overlayModuleIds: seq<string>,
                                 magicModuleIds: seq<string>)

  datatype ExecutionResult = ExecutionResult(overlayModuleIds: seq<string>, magicModuleIds: seq<string>)

  datatype ExecuteError = SupportQueryFailed

  /** The module ids of an operation's lower directories, in their order. */
  function InvolvedModules(op: OverlayOperation, moduleIdOf: string -> Option<string>): (r: seq<string>)
    ensures forall x :: x in r <==>
      exists i :: 0 <= i < |op.lowerdirs| && moduleIdOf(op.lowerdirs[i]) == Some(x)
  {
    FilterMap(op.lowerdirs, moduleIdOf)
  }

  /** The ids returned by the successful operations, in plan order. */
  function OverlayGained(outcomes: seq<Option<seq<string>>>): (r: seq<string>)
    ensures forall x :: x in r <==> exists i :: 0 <= i < |outcomes| && outcomes[i].Some? && x in outcomes[i].value
  {
    if outcomes == [] then []
    else
      var gained := match Last(outcomes) case Some(ids) => ids case None => [];
      assert forall i :: 0 <= i < |outcomes| - 1 ==> Init(outcomes)[i] == outcomes[i];
      OverlayGained(Init(outcomes)) + gained
  }

  /** The module ids of the failed operations, in plan order. */
  function MagicGained(ops: seq<OverlayOperation>, outcomes: seq<Option<seq<string>>>,
                       moduleIdOf: string -> Option<string>): (r: seq<string>)
    requires |ops| == |outcomes|
    ensures forall x :: x in r <==>
      exists i :: 0 <= i < |ops| && outcomes[i].None? && x in InvolvedModules(ops[i], moduleIdOf)
  {
    if ops == [] then []
    else
      var gained := if Last(outcomes).None? then InvolvedModules(Last(ops), moduleIdOf) else [];
      assert forall i :: 0 <= i < |ops| - 1 ==> Init(ops)[i] == ops[i] && Init(outcomes)[i] == outcomes[i];
      MagicGained(Init(ops), Init(outcomes), moduleIdOf) + gained
  }

  /** `HashSet::retain(|id| !drop.contains(id))`. */
  function Without(s: seq<string>, drop: seq<string>): (r: seq<string>)
    ensures forall x :: x in r <==> x in s && x !in drop
  {
    Filter(s, x => x !in drop)
  }

  /** `HashSet::retain(|id| keep.contains(id))`. */
  function KeptIn(s: seq<string>, keep: seq<string>): (r: seq<string>)
    ensures forall x :: x in r <==> x in s && x in keep
  {
    Filter(s, x => x in keep)
  }

  /** The magic set before the magic mount: the plan's magic ids plus, when
      overlayfs is supported, the failed operations' modules, and otherwise every
      module the plan meant to overlay. */
  function MagicCandidates(plan: MountPlan, supported: bool, outcomes: seq<Option<seq<string>>>,
                           moduleIdOf: string -> Option<string>): seq<string>
    requires |outcomes| == |plan.overlayOps|
  {
    if supported then plan.magicModuleIds + MagicGained(plan.overlayOps, outcomes, moduleIdOf)
    else plan.magicModuleIds + plan.overlayModuleIds
  }

  /** The result `execute` computes, stated over the driver's outcomes. */
  function Executed(plan: MountPlan, supported: Option<bool>, outcomes: seq<Option<seq<string>>>,
                    moduleIdOf: string -> Option<string>, mountMagic: seq<string> -> Option<seq<string>>)
    : Result<ExecutionResult, ExecuteError>
    requires |outcomes| == |plan.overlayOps|
  {
    match supported
    case None => Err(SupportQueryFailed)
    case Some(s) =>
      var magic := MagicCandidates(plan, s, outcomes, moduleIdOf);
      var overlay := if s then Without(OverlayGained(outcomes), magic) else [];
      var queue := SortDedup(magic);
      var kept :=
        if queue == [] then magic
        else match mountMagic(queue)
          case Some(mounted) => KeptIn(magic, mounted)
          case None => [];
      Ok(ExecutionResult(SortDedup(overlay), SortDedup(kept)))
  }

  /** The loop of `execute` over the overlay operations: a success adds the ids
      it returns to the overlay list, a failure adds the operation's modules to
      the magic list. */
  method RunOperations(plan: MountPlan, outcomes: seq<Option<seq<string>>>, moduleIdOf: string -> Option<string>)
    returns (overlay: seq<string>, magic: seq<string>)
    requires |outcomes| == |plan.overlayOps|
    ensures overlay == OverlayGained(outcomes)
    ensures magic == plan.magicModuleIds + MagicGained(plan.overlayOps, outcomes, moduleIdOf)
  {
    magic := plan.magicModuleIds;
    overlay := [];
    var i := 0;
    while i < |plan.overlayOps|
      invariant 0 <= i <= |plan.overlayOps|
      invariant overlay == OverlayGained(outcomes[..i])
      invariant magic == plan.magicModuleIds + MagicGained(plan.overlayOps[..i], outcomes[..i], moduleIdOf)
    {
      RunStep(plan.magicModuleIds, plan.overlayOps, outcomes, moduleIdOf, i, overlay, magic);
      if outcomes[i].Some? {
        overlay := overlay + outcomes[i].value;
      } else {
        magic := magic + InvolvedModules(plan.overlayOps[i], moduleIdOf);
      }
      i := i + 1;
    }
    assert outcomes[..i] == outcomes && plan.overlayOps[..i] == plan.overlayOps;
  }

  /** One pass of the operation loop keeps both lists equal to what the
      operations so far gained. */
  lemma RunStep(initialMagic: seq<string>, ops: seq<OverlayOperation>, outcomes: seq<Option<seq<string>>>,
                moduleIdOf: string -> Option<string>, i: nat, overlay: seq<string>, magic: seq<string>)
    requires |ops| == |outcomes| && i < |ops|
    requires overlay == OverlayGained(outcomes[..i])
    requires magic == initialMagic + MagicGained(ops[..i], outcomes[..i], moduleIdOf)
    ensures outcomes[i].Some? ==> overlay + outcomes[i].value == OverlayGained(outcomes[..i + 1])
    ensures outcomes[i].Some? ==> magic == initialMagic + MagicGained(ops[..i + 1], outcomes[..i + 1], moduleIdOf)
    ensures outcomes[i].None? ==> overlay == OverlayGained(outcomes[..i + 1])
    ensures outcomes[i].None? ==>
      magic + InvolvedModules(ops[i], moduleIdOf) == initialMagic + MagicGained(ops[..i + 1], outcomes[..i + 1], moduleIdOf)
  {
    GainedStep(ops, outcomes, moduleIdOf, i);
    var gained := if outcomes[i].None? then InvolvedModules(ops[i], moduleIdOf) else [];
    AppendAssoc(initialMagic, MagicGained(ops[..i], outcomes[..i], moduleIdOf), gained);
  }

  /** One more operation adds its ids to the overlay list when it succeeded and
      its modules to the magic list when it failed. */
  lemma GainedStep(ops: seq<OverlayOperation>, outcomes: seq<Option<seq<string>>>,
                   moduleIdOf: string -> Option<string>, i: nat)
    requires |ops| == |outcomes| && i < |ops|
    ensures OverlayGained(outcomes[..i + 1])
      == OverlayGained(outcomes[..i]) + (if outcomes[i].Some? then outcomes[i].value else [])
    ensures MagicGained(ops[..i + 1], outcomes[..i + 1], moduleIdOf)
      == MagicGained(ops[..i], outcomes[..i], moduleIdOf)
         + (if outcomes[i].None? then InvolvedModules(ops[i], moduleIdOf) else [])
  {
    assert Init(outcomes[..i + 1]) == outcomes[..i] && Last(outcomes[..i + 1]) == outcomes[i];
    assert Init(ops[..i + 1]) == ops[..i] && Last(ops[..i + 1]) == ops[i];
  }

  /** `execute`: the operation loop, the overlay/magic reconciliation, the magic
      mount, and the sorted results. */
  method Execute(plan: MountPlan, supported: Option<bool>, outcomes: seq<Option<seq<string>>>,
                 moduleIdOf: string -> Option<string>, mountMagic: seq<string> -> Option<seq<string>>)
    returns (r: Result<ExecutionResult, ExecuteError>)
    requires |outcomes| == |plan.overlayOps|
    ensures r == Executed(plan, supported, outcomes, moduleIdOf, mountMagic)
  {
    if supported.None? {
      return Err(SupportQueryFailed);
    }
    var magic := plan.magicModuleIds;
    var overlay: seq<string> := [];
    if supported.value {
      overlay, magic := RunOperations(plan, outcomes, moduleIdOf);
      overlay := Without(overlay, magic);
    } else {
      magic := magic + plan.overlayModuleIds;
    }
    var queue := SortDedup(magic);
    if queue != [] {
      match mountMagic(queue) {
        case Some(mounted) =>
          magic := KeptIn(magic, mounted);
        case None =>
          magic := [];
      }
    }
    r := Ok(ExecutionResult(SortDedup(overlay), SortDedup(magic)));
  }

  /** No id ends up in both lists, and both lists are strictly ascending. */
  lemma ExecutedSortedAndDisjoint(plan: MountPlan, supported: Option<bool>, outcomes: seq<Option<seq<string>>>,
                                  moduleIdOf: string -> Option<string>, mountMagic: seq<string> -> Option<seq<string>>)
    requires |outcomes| == |plan.overlayOps|
    ensures var r := Executed(plan, supported, outcomes, moduleIdOf, mountMagic);
      r.Ok? ==>
        StrictlyAscending(r.value.overlayModuleIds) && StrictlyAscending(r.value.magicModuleIds)
        && NoDuplicates(r.value.overlayModuleIds) && NoDuplicates(r.value.magicModuleIds)
        && forall x :: x in r.value.overlayModuleIds ==> x !in r.value.magicModuleIds
  {
    if supported.Some? {
      var s := supported.value;
      var magic := MagicCandidates(plan, s, outcomes, moduleIdOf);
      var overlay := if s then Without(OverlayGained(outcomes), magic) else [];
      assert forall x :: x in overlay ==> x !in magic;
      var queue := SortDedup(magic);
      var kept :=
        if queue == [] then magic
        else match mountMagic(queue)
          case Some(mounted) => KeptIn(magic, mounted)
          case None => [];
      assert forall x :: x in kept ==> x in magic;
      assert Executed(plan, supported, outcomes, moduleIdOf, mountMagic)
        == Ok(ExecutionResult(SortDedup(overlay), SortDedup(kept)));
      SortedListsDisjoint(overlay, kept, magic);
    }
  }

  /** Two lists drawn from outside and from inside the same set stay disjoint
      once sorted and deduplicated, and each is strictly ascending. */
  lemma SortedListsDisjoint(overlay: seq<string>, kept: seq<string>, magic: seq<string>)
    requires forall x :: x in kept ==> x in magic
    requires forall x :: x in overlay ==> x !in magic
    ensures StrictlyAscending(SortDedup(overlay)) && StrictlyAscending(SortDedup(kept))
    ensures NoDuplicates(SortDedup(overlay)) && NoDuplicates(SortDedup(kept))
    ensures forall x :: x in SortDedup(overlay) ==> x !in SortDedup(kept)
  {
    StrictlyAscendingNoDuplicates(SortDedup(overlay));
    StrictlyAscendingNoDuplicates(SortDedup(kept));
  }

  /** Only a failed support query is an error. */
  lemma ExecutedFailsOnlyOnSupportQuery(plan: MountPlan, supported: Option<bool>, outcomes: seq<Option<seq<string>>>,
                                        moduleIdOf: string -> Option<string>, mountMagic: seq<string> -> Option<seq<string>>)
    requires |outcomes| == |plan.overlayOps|
    ensures Executed(plan, supported, outcomes, moduleIdOf, mountMagic).Err? <==> supported.None?
  {
  }

  /** An overlay id comes from a successful operation and is not wanted by magic
      mount; without overlayfs support the overlay list is empty. */
  lemma ExecutedOverlaySources(plan: MountPlan, s: bool, outcomes: seq<Option<seq<string>>>,
                               moduleIdOf: string -> Option<string>, mountMagic: seq<string> -> Option<seq<string>>,
                               x: string)
    requires |outcomes| == |plan.overlayOps|
    ensures var r := Executed(plan, Some(s), outcomes, moduleIdOf, mountMagic).value;
      x in r.overlayModuleIds <==>
        s && (exists i :: 0 <= i < |outcomes| && outcomes[i].Some? && x in outcomes[i].value)
        && x !in MagicCandidates(plan, s, outcomes, moduleIdOf)
  {
  }

  /** A magic id was in the plan's magic list, or belongs to a failed operation
      (with overlayfs support) or to the plan's overlay list (without); when the
      magic mount succeeds exactly the candidates it reports are kept, and when
      it fails none are. */
  lemma ExecutedMagicSources(plan: MountPlan, s: bool, outcomes: seq<Option<seq<string>>>,
                             moduleIdOf: string -> Option<string>, mountMagic: seq<string> -> Option<seq<string>>,
                             x: string)
    requires |outcomes| == |plan.overlayOps|
    ensures var r := Executed(plan, Some(s), outcomes, moduleIdOf, mountMagic).value;
      x in r.magicModuleIds ==>
        x in plan.magicModuleIds
        || (s && exists i :: 0 <= i < |outcomes| && outcomes[i].None? && x in InvolvedModules(plan.overlayOps[i], moduleIdOf))
        || (!s && x in plan.overlayModuleIds)
    ensures var magic := MagicCandidates(plan, s, outcomes, moduleIdOf);
      magic != [] && mountMagic(SortDedup(magic)).None? ==>
        Executed(plan, Some(s), outcomes, moduleIdOf, mountMagic).value.magicModuleIds == []
    ensures var magic := MagicCandidates(plan, s, outcomes, moduleIdOf);
      magic != [] && mountMagic(SortDedup(magic)).Some? ==>
        (x in Executed(plan, Some(s), outcomes, moduleIdOf, mountMagic).value.magicModuleIds
         <==> x in magic && x in mountMagic(SortDedup(magic)).value)
  {
    var magic := MagicCandidates(plan, s, outcomes, moduleIdOf);
    SameElementsBothEmpty(magic, SortDedup(magic));
    SameElementsBothEmpty([], SortDedup([]));
  }

  /** With nothing to magic-mount the magic driver is never consulted: the result
      is the same whatever it would have answered. */
  lemma MagicDriverUnusedWhenNothingQueued(plan: MountPlan, s: bool, outcomes: seq<Option<seq<string>>>,
                                           moduleIdOf: string -> Option<string>,
                                           m1: seq<string> -> Option<seq<string>>, m2: seq<string> -> Option<seq<string>>)
    requires |outcomes| == |plan.overlayOps|
    requires MagicCandidates(plan, s, outcomes, moduleIdOf) == []
    ensures Executed(plan, Some(s), outcomes, moduleIdOf, m1) == Executed(plan, Some(s), outcomes, moduleIdOf, m2)
  {
    SameElementsBothEmpty([], SortDedup([]));
  }

  /** The partition's upper and work directories under the read-write root. */
  function RwDirs(partitionName: string): (string, string) {
    var partRw := Paths.Join(Defs.SYSTEM_RW_DIR, partitionName);
    (Paths.Join(partRw, "upperdir"), Paths.Join(partRw, "workdir"))
  }

  /** Upper and work directories are used as a pair: both when both exist,
      otherwise neither. */
  function UpperWork(partitionName: string, upperExists: bool, workExists: bool)
    : (r: (Option<string>, Option<string>))
    ensures r.0.Some? <==> upperExists && workExists
    ensures r.1.Some? <==> r.0.Some?
    ensures r.0.Some? ==> r.0.value == RwDirs(partitionName).0 && r.1.value == RwDirs(partitionName).1
  {
    if upperExists && workExists then (Some(RwDirs(partitionName).0), Some(RwDirs(partitionName).1))
    else (None, None)
  }

  /** Whether `target` equals, after trimming both, some entry of `list`. */
  function ListedTrimmed(list: seq<string>, target: string): (b: bool)
    ensures b <==> exists k :: 0 <= k < |list| && Trim(list[k]) == Trim(target)
  {
    FirstMatch(list, (s: string) => Trim(s) == Trim(target)).Some?
  }

  /** The targets in the ignore-unmount list, compared after trimming, take the
      plain "overlay" source; all others the configured one. */
  function MountSourceFor(target: string, configured: string): (r: string)
    ensures ListedTrimmed(Defs.IGNORE_UNOUNT_PARTITIONS, target) ==> r == "overlay"
    ensures !ListedTrimmed(Defs.IGNORE_UNOUNT_PARTITIONS, target) ==> r == configured
  {
    if ListedTrimmed(Defs.IGNORE_UNOUNT_PARTITIONS, target) then "overlay"
    else configured
  }

  /** The native driver's overlay outcome: on success, the operation's own
      modules; on failure, nothing. */
  function NativeMountOverlay(op: OverlayOperation, moduleIdOf: string -> Option<string>, mounted: bool)
    : (r: Option<seq<string>>)
    ensures r.Some? <==> mounted
    ensures r.Some? ==> r.value == InvolvedModules(op, moduleIdOf)
  {
    if mounted then Some(InvolvedModules(op, moduleIdOf)) else None
  }

  /** What is done to the magic workspace before the magic mount. */
  datatype WorkspaceStep = MountTmpfs | CreateDir | NoStep

  /** With the erofs mode an existing workspace gets a tmpfs; otherwise a missing
      workspace is created. */
  function WorkspaceStepFor(erofs: bool, workspaceExists: bool): (r: WorkspaceStep)
    ensures r == MountTmpfs <==> erofs && workspaceExists
    ensures r == CreateDir <==> !erofs && !workspaceExists
  {
    if erofs then (if workspaceExists then MountTmpfs else NoStep)
    else if !workspaceExists then CreateDir
    else NoStep
  }

  /** The native driver's magic outcome: the ids it was given, unless the
      workspace step that was needed or the magic mount itself failed. */
  function NativeMountMagic(ids: seq<string>, erofs: bool, workspaceExists: bool,
                            stepSucceeded: bool, magicSucceeded: bool): (r: Option<seq<string>>)
    ensures r.Some? <==> (WorkspaceStepFor(erofs, workspaceExists) == NoStep || stepSucceeded) && magicSucceeded
    ensures r.Some? ==> r.value == ids
  {
    if WorkspaceStepFor(erofs, workspaceExists) != NoStep && !stepSucceeded then None
    else if !magicSucceeded then None
    else Some(ids)
  }

  /** With the native drivers every module of every operation lands on one
      side: overlay if its operation succeeded, magic candidates if it failed. */
  lemma {:induction false} NativeOperationModulesLandOnOneSide(plan: MountPlan, mounted: seq<bool>,
                                                               moduleIdOf: string -> Option<string>, k: nat)
    requires |mounted| == |plan.overlayOps| && k < |plan.overlayOps|
    ensures var outcomes := seq(|mounted|, i requires 0 <= i < |mounted| =>
                              NativeMountOverlay(plan.overlayOps[i], moduleIdOf, mounted[i]));
      forall x :: x in InvolvedModules(plan.overlayOps[k], moduleIdOf) ==>
        if mounted[k] then x in OverlayGained(outcomes)
        else x in MagicCandidates(plan, true, outcomes, moduleIdOf)
  {
    var outcomes := seq(|mounted|, i requires 0 <= i < |mounted| =>
                      NativeMountOverlay(plan.overlayOps[i], moduleIdOf, mounted[i]));
    forall x | x in InvolvedModules(plan.overlayOps[k], moduleIdOf)
      ensures if mounted[k] then x in OverlayGained(outcomes)
              else x in MagicCandidates(plan, true, outcomes, moduleIdOf)
    {
      if mounted[k] {
        assert outcomes[k].Some? && x in outcomes[k].value;
      } else {
        assert outcomes[k].None?;
        assert x in MagicGained(plan.overlayOps, outcomes, moduleIdOf);
      }
    }
  }

  /** When the native magic mount succeeds it keeps every queued id. */
  lemma NativeMagicKeepsEverything(plan: MountPlan, s: bool, outcomes: seq<Option<seq<string>>>,
                                   moduleIdOf: string -> Option<string>, erofs: bool, workspaceExists: bool)
    requires |outcomes| == |plan.overlayOps|
    ensures var magic := MagicCandidates(plan, s, outcomes, moduleIdOf);
      var native := (ids: seq<string>) => NativeMountMagic(ids, erofs, workspaceExists, true, true);
      Executed(plan, Some(s), outcomes, moduleIdOf, native).value.magicModuleIds == SortDedup(magic)
  {
    var magic := MagicCandidates(plan, s, outcomes, moduleIdOf);
    var queue := SortDedup(magic);
    if queue != [] {
      var kept := KeptIn(magic, queue);
      assert forall x :: x in kept <==> x in magic;
      StrictlyAscendingUnique(SortDedup(kept), SortDedup(magic));
    }
  }
}
