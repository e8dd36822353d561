/** The configuration store of the web UI: the edited configuration and the
    loading/saving flags around the remote calls. Each remote call is split
    into the step that issues it and the step that handles its outcome, so
    the flags can be observed in between. */
module ConfigStore {
  import opened Wrappers
  import opened WebTypes
  import UiStore

  class ConfigStore {
    var config: AppConfig
    var loading: bool
    var saving: bool

    /** The store starts with the default configuration. */
    constructor (defaults: AppConfig)
      ensures config == defaults && !loading && !saving
    {
      config := defaults;
      loading := false;
      saving := false;
    }

    /** Assigning `config` replaces the whole value. */
    method SetConfig(v: AppConfig)
      modifies this
      ensures config == v && loading == old(loading) && saving == old(saving)
    {
      config := v;
    }

    /** `loadConfig` issues its fetch. */
    method BeginLoad()
      modifies this
      ensures loading && config == old(config) && saving == old(saving)
    {
      loading := true;
    }

    /** `loadConfig` handles the fetch: the fetched value replaces the
        configuration, or an error toast is shown and it stays; either way
        loading ends and the call resolves. */
    method FinishLoad(fetched: Option<AppConfig>, ui: UiStore.UiStore, now: nat)
      modifies this, ui
      ensures !loading && saving == old(saving)
      ensures fetched.Some? ==> config == fetched.value && ui.toast == old(ui.toast)
      ensures fetched.None? ==>
        config == old(config)
        && ui.toast == UiStore.Shown(now, Message(old(ui.locale), "config.loadError", "Failed to load config"), Error)
      ensures ui.locale == old(ui.locale) && ui.storage == old(ui.storage) && ui.fixBottomNav == old(ui.fixBottomNav)
      ensures ui.lang == old(ui.lang) && ui.localePath == old(ui.localePath) && ui.isReady == old(ui.isReady)
    {
      if fetched.Some? {
        config := fetched.value;
      } else {
        var _ := ui.ShowToast(Message(ui.locale, "config.loadError", "Failed to load config"), Error, now);
      }
      loading := false;
    }

    /** `saveConfig` issues its call; the value sent is the current
        configuration. */
    method BeginSave() returns (sent: AppConfig)
      modifies this
      ensures saving && sent == config && config == old(config) && loading == old(loading)
    {
      saving := true;
      sent := config;
    }

    /** `saveConfig` handles the outcome: a toast says which, the
        configuration never changes, saving ends and the call resolves. */
    method FinishSave(saved: bool, ui: UiStore.UiStore, now: nat)
      modifies this, ui
      ensures !saving && config == old(config) && loading == old(loading)
      ensures ui.toast == (if saved then UiStore.Shown(now, Message(old(ui.locale), "common.saved", "Saved"), Success)
                           else UiStore.Shown(now, Message(old(ui.locale), "config.saveFailed", "Failed to save config"), Error))
      ensures ui.locale == old(ui.locale) && ui.storage == old(ui.storage) && ui.fixBottomNav == old(ui.fixBottomNav)
      ensures ui.lang == old(ui.lang) && ui.localePath == old(ui.localePath) && ui.isReady == old(ui.isReady)
    {
      if saved {
        var _ := ui.ShowToast(Message(ui.locale, "common.saved", "Saved"), Success, now);
      } else {
        var _ := ui.ShowToast(Message(ui.locale, "config.saveFailed", "Failed to save config"), Error, now);
      }
      saving := false;
    }

    /** `resetConfig` issues the remote reset. */
    method BeginReset()
      modifies this
      ensures saving && config == old(config) && loading == old(loading)
    {
      saving := true;
    }

    /** `resetConfig` handles the outcome: after a successful reset the
        configuration is reloaded and success is shown, whether or not the
        reload itself worked (a failed reload shows its own error first); a
        failed reset shows an error without reloading. Saving ends. */
    method FinishReset(resetOk: bool, fetched: Option<AppConfig>, ui: UiStore.UiStore, now: nat)
      modifies this, ui
      ensures !saving
      ensures resetOk ==> !loading
      ensures !resetOk ==> loading == old(loading)
      ensures resetOk && fetched.Some? ==> config == fetched.value
      ensures !(resetOk && fetched.Some?) ==> config == old(config)
      ensures resetOk ==>
        ui.toast == UiStore.Shown(now, Message(old(ui.locale), "config.resetSuccess", "Config reset to defaults"), Success)
      ensures !resetOk ==>
        ui.toast == UiStore.Shown(now, Message(old(ui.locale), "config.saveFailed", "Failed to reset config"), Error)
      ensures ui.locale == old(ui.locale) && ui.storage == old(ui.storage) && ui.fixBottomNav == old(ui.fixBottomNav)
      ensures ui.lang == old(ui.lang) && ui.localePath == old(ui.localePath) && ui.isReady == old(ui.isReady)
    {
      if resetOk {
        BeginLoad();
        FinishLoad(fetched, ui, now);
        var _ := ui.ShowToast(Message(ui.locale, "config.resetSuccess", "Config reset to defaults"), Success, now);
      } else {
        var _ := ui.ShowToast(Message(ui.locale, "config.saveFailed", "Failed to reset config"), Error, now);
      }
      saving := false;
    }
  }
}
