/** The module store of the web UI: the module list, its loading/saving
    flags and the mode statistics. Remote calls are split into the step that
    issues them and the step that handles their outcome. */
module ModuleStore {
  import opened Wrappers
  import opened Seqs
  import opened WebTypes
  import UiStore

  datatype ModeStats = ModeStats(auto: nat, magic: nat)

  function IsMounted(): WebModule -> bool {
    (m: WebModule) => m.isMounted
  }

  function MountedWithMode(mode: string): WebModule -> bool {
    (m: WebModule) => m.isMounted && m.mode == mode
  }

  function MountedAutoOrMagic(): WebModule -> bool {
    (m: WebModule) => m.isMounted && (m.mode == "auto" || m.mode == "magic")
  }

  /** `modeStats`: mounted modules in "auto" mode and in "magic" mode; other
      modes and unmounted modules are not counted. */
  function ModeStatsOf(ms: seq<WebModule>): (r: ModeStats)
    ensures r.auto == Count(ms, MountedWithMode("auto"))
    ensures r.magic == Count(ms, MountedWithMode("magic"))
    ensures r.auto + r.magic <= Count(ms, IsMounted())
  {
    if ms == [] then ModeStats(0, 0)
    else
      var rest := ModeStatsOf(ms[1..]);
      var m := ms[0];
      assert Count(ms, MountedWithMode("auto")) == (if m.isMounted && m.mode == "auto" then 1 else 0) + rest.auto;
      assert Count(ms, MountedWithMode("magic")) == (if m.isMounted && m.mode == "magic" then 1 else 0) + rest.magic;
      var r := if !m.isMounted then rest
        else if m.mode == "auto" then rest.(auto := rest.auto + 1)
        else if m.mode == "magic" then rest.(magic := rest.magic + 1)
        else rest;
      CountDisjointSum(ms, MountedWithMode("auto"), MountedWithMode("magic"), MountedAutoOrMagic());
      CountMonotone(ms, MountedAutoOrMagic(), IsMounted());
      r
  }

  class ModuleStore {
    var modules: seq<WebModule>
    var loading: bool
    var saving: bool

    constructor ()
      ensures modules == [] && !loading && !saving
    {
      modules := [];
      loading := false;
      saving := false;
    }

    function Stats(): ModeStats
      reads this
    {
      ModeStatsOf(modules)
    }

    /** Assigning `modules` replaces the whole list. */
    method SetModules(v: seq<WebModule>)
      modifies this
      ensures modules == v && loading == old(loading) && saving == old(saving)
    {
      modules := v;
    }

    /** `loadModules` issues the scan. */
    method BeginLoad()
      modifies this
      ensures loading && modules == old(modules) && saving == old(saving)
    {
      loading := true;
    }

    /** `loadModules` handles the scan: the fetched list replaces the modules,
        or an error toast is shown and they stay; loading ends and the call
        resolves either way. */
    method FinishLoad(fetched: Option<seq<WebModule>>, ui: UiStore.UiStore, now: nat)
      modifies this, ui
      ensures !loading && saving == old(saving)
      ensures fetched.Some? ==> modules == fetched.value && ui.toast == old(ui.toast)
      ensures fetched.None? ==>
        modules == old(modules)
        && ui.toast == UiStore.Shown(now, Message(old(ui.locale), "modules.scanError", "Failed to load modules"), Error)
      ensures ui.locale == old(ui.locale) && ui.storage == old(ui.storage) && ui.fixBottomNav == old(ui.fixBottomNav)
      ensures ui.lang == old(ui.lang) && ui.localePath == old(ui.localePath) && ui.isReady == old(ui.isReady)
    {
      if fetched.Some? {
        modules := fetched.value;
      } else {
        var _ := ui.ShowToast(Message(ui.locale, "modules.scanError", "Failed to load modules"), Error, now);
      }
      loading := false;
    }

    /** `saveModules` issues its call with the current list. */
    method BeginSave() returns (sent: seq<WebModule>)
      modifies this
      ensures saving && sent == modules && modules == old(modules) && loading == old(loading)
    {
      saving := true;
      sent := modules;
    }

    /** `saveModules` handles the outcome: a toast says which, the list never
        changes and saving ends. */
    method FinishSave(saved: bool, ui: UiStore.UiStore, now: nat)
      modifies this, ui
      ensures !saving && modules == old(modules) && loading == old(loading)
      ensures ui.toast == (if saved then UiStore.Shown(now, Message(old(ui.locale), "common.saved", "Saved"), Success)
                           else UiStore.Shown(now, Message(old(ui.locale), "modules.saveFailed", "Failed to save module modes"), Error))
      ensures ui.locale == old(ui.locale) && ui.storage == old(ui.storage) && ui.fixBottomNav == old(ui.fixBottomNav)
      ensures ui.lang == old(ui.lang) && ui.localePath == old(ui.localePath) && ui.isReady == old(ui.isReady)
    {
      if saved {
        var _ := ui.ShowToast(Message(ui.locale, "common.saved", "Saved"), Success, now);
      } else {
        var _ := ui.ShowToast(Message(ui.locale, "modules.saveFailed", "Failed to save module modes"), Error, now);
      }
      saving := false;
    }
  }
}
