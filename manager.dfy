/** The mount controller: a pipeline whose stages are distinct types, so that
    storage is set up, modules are scanned and synced, a plan is made, the plan
    is executed and the run is finalized, in that order and each once. Every
    transition consumes the controller and returns the next one, carrying the
    configuration and the temporary directory unchanged. */
module Manager {
  import opened Wrappers
  import opened Seqs
  import opened Ordering
  import Paths
  import Storage
  import Inventory
  import Executor

  /** The storage mode asked for in the configuration; only Ext4 and Erofs
      change what `init_storage` does. */
  datatype OverlayMode = Ext4Mode | ErofsMode | OtherMode(name: string)

  datatype Config = Config(moduledir: string, overlayMode: OverlayMode, mountsource: string, disableUmount: bool)

  /** How a module (or one of its paths) is mounted. */
  datatype MountMode = Overlay | Magic | Ignore

  datatype ModuleRules = ModuleRules(defaultMode: MountMode, paths: map<string, MountMode>)

  /** A scanned module together with its mount rules. */
  datatype ManagedModule = ManagedModule(scanned: Inventory.Module, rules: ModuleRules)

  // The stages.
  datatype Init = Init
  datatype StorageReady = StorageReady(handle: Storage.StorageHandle)
  datatype ModulesReady = ModulesReady(handle: Storage.StorageHandle, modules: seq<ManagedModule>)
  datatype Planned = Planned(handle: Storage.StorageHandle, plan: Executor.MountPlan)
  datatype ExecutedStage = ExecutedStage(handle: Storage.StorageHandle, plan: Executor.MountPlan,
                                         result: Executor.ExecutionResult)

  datatype Controller<S> = Controller(config: Config, state: S, tempdir: string)

  datatype ManagerError =
    | SetupFailed(setupError: Storage.SetupError)
    | ScanFailed
    | SyncFailed
    | CommitFailed(commitError: Storage.CommitError)
    | PlanFailed
    | ExecuteFailed(executeError: Executor.ExecuteError)

  function New(config: Config, tempdir: string): (r: Controller<Init>)
    ensures r.config == config && r.tempdir == tempdir
  {
    Controller(config, Init, tempdir)
  }

  /** `init_storage`: ext4 is forced iff the configured mode is Ext4, and
      EROFS is asked for iff it is Erofs. */
  method InitStorage(c: Controller<Init>, mntBase: string, imgPath: string, o: Storage.SetupOutcomes)
    returns (r: Result<Controller<StorageReady>, ManagerError>)
    ensures r.Err? <==> Storage.SetupChoice(c.config.overlayMode == Ext4Mode, c.config.overlayMode == ErofsMode, o).Err?
    ensures r.Err? ==>
      r.error == SetupFailed(Storage.SetupChoice(c.config.overlayMode == Ext4Mode, c.config.overlayMode == ErofsMode, o).error)
    ensures r.Ok? ==> r.value.config == c.config && r.value.tempdir == c.tempdir
    ensures r.Ok? ==>
      r.value.state.handle.Mode()
        == Storage.ModeOf(Storage.SetupChoice(c.config.overlayMode == Ext4Mode, c.config.overlayMode == ErofsMode, o).value)
  {
    var handle := Storage.Setup(mntBase, imgPath, c.config.overlayMode == Ext4Mode, c.config.overlayMode == ErofsMode, o);
    match handle {
      case Err(e) =>
        r := Err(SetupFailed(e));
      case Ok(h) =>
        r := Ok(Controller(c.config, StorageReady(h), c.tempdir));
    }
  }

  /** A configuration asking for ext4 never gets tmpfs or EROFS storage. */
  lemma Ext4ModeGivesExt4(o: Storage.SetupOutcomes)
    ensures Storage.SetupChoice(true, false, o) == Ok(Storage.Ext4Choice)
      || Storage.SetupChoice(true, false, o) == Err(Storage.Ext4SetupFailed)
  {
  }

  /** A configuration asking for EROFS on a kernel that has it gets EROFS
      staging or an error, never another backend. */
  lemma ErofsModeNoFallback(o: Storage.SetupOutcomes)
    requires Storage.ErofsSupported(o.procFilesystems)
    ensures Storage.SetupChoice(false, true, o).Ok? ==> Storage.SetupChoice(false, true, o).value == Storage.ErofsStaging
  {
  }

  /** The module is mounted magically, by default or for some path. */
  predicate WantsMagic(m: ManagedModule) {
    m.rules.defaultMode == Magic || exists p :: p in m.rules.paths && m.rules.paths[p] == Magic
  }

  /** `needs_magic`: some module wants magic mounting. */
  function NeedsMagic(modules: seq<ManagedModule>): (r: bool)
    ensures r <==> exists i :: 0 <= i < |modules| && WantsMagic(modules[i])
  {
    if modules == [] then false
    else
      var rules := modules[0].rules;
      if rules.defaultMode == Magic || Magic in rules.paths.Values then true
      else
        assert forall i :: 1 <= i < |modules| ==> modules[i] == modules[1..][i - 1];
        NeedsMagic(modules[1..])
  }

  function WithRules(ms: seq<Inventory.Module>, rulesOf: string -> ModuleRules): (r: seq<ManagedModule>)
    ensures |r| == |ms| && forall i :: 0 <= i < |ms| ==> r[i] == ManagedModule(ms[i], rulesOf(ms[i].id))
  {
    seq(|ms|, i requires 0 <= i < |ms| => ManagedModule(ms[i], rulesOf(ms[i].id)))
  }

  /** `scan_and_sync`: scan the module directory, sync the modules into the
      storage, create the magic-mount workspace inside the EROFS staging
      directory when some module needs it (so before the image is built), and
      commit the storage. `created` is the workspace directory made, if any. */
  method ScanAndSync(c: Controller<StorageReady>, scanned: Result<seq<Inventory.Module>, Inventory.ScanError>,
                     rulesOf: string -> ModuleRules, synced: bool, workspaceExists: bool,
                     o: Storage.CommitOutcomes)
    returns (r: Result<Controller<ModulesReady>, ManagerError>, created: Option<string>)
    modifies c.state.handle.Objects()
    ensures scanned.Err? ==> r == Err(ScanFailed) && unchanged(c.state.handle.Objects())
    ensures scanned.Ok? && !synced ==> r == Err(SyncFailed) && unchanged(c.state.handle.Objects())
    ensures created.Some? <==>
      (scanned.Ok? && synced && old(c.state.handle.Mode()) == "erofs_staging"
       && NeedsMagic(WithRules(scanned.value, rulesOf)) && !workspaceExists)
    ensures created.Some? ==> created.value == Paths.Join(old(c.state.handle.MountPoint()), "magic_workspace")
    ensures scanned.Ok? && synced && c.state.handle.backend.Erofs? ==>
      c.state.handle.backend.erofs.Fields() == Storage.CommitErofs(old(c.state.handle.backend.erofs.Fields()), o).1
      && (r.Ok? <==> Storage.CommitErofs(old(c.state.handle.backend.erofs.Fields()), o).0.Ok?)
    ensures scanned.Ok? && synced && !c.state.handle.backend.Erofs? ==> r.Ok?
    ensures r.Ok? ==>
      r.value == Controller(c.config, ModulesReady(c.state.handle, WithRules(scanned.value, rulesOf)), c.tempdir)
  {
    created := None;
    if scanned.Err? {
      return Err(ScanFailed), None;
    }
    if !synced {
      return Err(SyncFailed), None;
    }
    var handle := c.state.handle;
    var modules := WithRules(scanned.value, rulesOf);
    if handle.Mode() == "erofs_staging" {
      if NeedsMagic(modules) && !workspaceExists {
        created := Some(Paths.Join(handle.MountPoint(), "magic_workspace"));
      }
    }
    var committed := handle.Commit(c.config.disableUmount, o);
    if committed.Err? {
      return Err(CommitFailed(committed.error)), created;
    }
    r := Ok(Controller(c.config, ModulesReady(handle, modules), c.tempdir));
  }

  /** `generate_plan`: the planner's result (an input here) becomes the plan. */
  function GeneratePlan(c: Controller<ModulesReady>, planned: Option<Executor.MountPlan>)
    : (r: Result<Controller<Planned>, ManagerError>)
    ensures r.Ok? <==> planned.Some?
    ensures r.Ok? ==>
      r.value.config == c.config && r.value.tempdir == c.tempdir
      && r.value.state.handle == c.state.handle && r.value.state.plan == planned.value
  {
    match planned
    case None => Err(PlanFailed)
    case Some(plan) => Ok(Controller(c.config, Planned(c.state.handle, plan), c.tempdir))
  }

  /** `execute`: the executor's result on the plan. */
  function Execute(c: Controller<Planned>, supported: Option<bool>, outcomes: seq<Option<seq<string>>>,
                   moduleIdOf: string -> Option<string>, mountMagic: seq<string> -> Option<seq<string>>)
    : (r: Result<Controller<ExecutedStage>, ManagerError>)
    requires |outcomes| == |c.state.plan.overlayOps|
    ensures r.Err? <==> supported.None?
    ensures r.Ok? ==>
      r.value.config == c.config && r.value.tempdir == c.tempdir
      && r.value.state.handle == c.state.handle && r.value.state.plan == c.state.plan
      && Executor.Executed(c.state.plan, supported, outcomes, moduleIdOf, mountMagic) == Ok(r.value.state.result)
  {
    match Executor.Executed(c.state.plan, supported, outcomes, moduleIdOf, mountMagic)
    case Err(e) => Err(ExecuteFailed(e))
    case Ok(result) => Ok(Controller(c.config, ExecutedStage(c.state.handle, c.state.plan, result), c.tempdir))
  }

  /** The partitions of a plan's overlay operations, in plan order. */
  function PartitionNames(ops: seq<Executor.OverlayOperation>): (r: seq<string>)
    ensures |r| == |ops| && forall i :: 0 <= i < |ops| ==> r[i] == ops[i].partitionName
  {
    seq(|ops|, i requires 0 <= i < |ops| => ops[i].partitionName)
  }

  /** The partitions with an overlay operation, ascending and each once. */
  function ActiveMounts(ops: seq<Executor.OverlayOperation>): (r: seq<string>)
    ensures StrictlyAscending(r)
    ensures forall p :: p in r <==> exists i :: 0 <= i < |ops| && ops[i].partitionName == p
  {
    var names := PartitionNames(ops);
    assert forall p :: p in names <==> exists i :: 0 <= i < |ops| && ops[i].partitionName == p;
    SortDedup(names)
  }

  /** The module description line's inputs. */
  datatype Description = Description(mode: string, overlayCount: nat, magicCount: nat)

  /** The runtime state `finalize` saves. */
  datatype RuntimeState = RuntimeState(storageMode: string, mountPoint: string, overlayModules: seq<string>,
                                       magicModules: seq<string>, activeMounts: seq<string>)

  datatype FinalReport = FinalReport(description: Description, state: RuntimeState)

  /** `finalize`: the description gets the storage mode and the sizes of the
      two result lists; the saved state records the storage, the results and
      the active partitions. A failure to save is ignored, so `finalize` always
      succeeds. */
  function Finalize(c: Controller<ExecutedStage>): (r: FinalReport)
    reads c.state.handle.Objects()
    ensures r.description == Description(c.state.handle.Mode(), |c.state.result.overlayModuleIds|,
                                         |c.state.result.magicModuleIds|)
    ensures r.state.storageMode == c.state.handle.Mode() && r.state.mountPoint == c.state.handle.MountPoint()
    ensures r.state.overlayModules == c.state.result.overlayModuleIds
    ensures r.state.magicModules == c.state.result.magicModuleIds
    ensures r.state.activeMounts == ActiveMounts(c.state.plan.overlayOps)
  {
    var handle := c.state.handle;
    var result := c.state.result;
    FinalReport(Description(handle.Mode(), |result.overlayModuleIds|, |result.magicModuleIds|),
                RuntimeState(handle.Mode(), handle.MountPoint(), result.overlayModuleIds, result.magicModuleIds,
                             ActiveMounts(c.state.plan.overlayOps)))
  }

  /** The active mounts do not depend on the order or repetition of the plan's
      operations: two plans touching the same partitions give the same list. */
  lemma ActiveMountsDependOnPartitionsOnly(a: seq<Executor.OverlayOperation>, b: seq<Executor.OverlayOperation>)
    requires forall p :: p in PartitionNames(a) <==> p in PartitionNames(b)
    ensures ActiveMounts(a) == ActiveMounts(b)
  {
    StrictlyAscendingUnique(ActiveMounts(a), ActiveMounts(b));
  }
}
