/** The configuration tab of the web UI: path validation, the baseline used
    to tell whether the configuration was edited, the policy that forces
    `disable_umount` while the Zygisk enforcement is on, the optimistic
    toggle with its rollback, and the overlay modes offered. */
module ConfigTab {
  import opened Wrappers
  import opened Seqs
  import opened Strings
  import opened WebTypes
  import UiStore
  import ConfigStore

  const DISABLE_UMOUNT := "disable_umount"
  const ALLOW_COEXISTENCE := "allow_umount_coexistence"

  /** `isValidPath`: empty, or absolute and more than the root alone. */
  function IsValidPath(p: string): (r: bool)
    ensures r <==> p == "" || (StartsWith(p, "/") && p != "/")
  {
    assert p != "" ==> (StartsWith(p, "/") <==> p[0] == '/') by {
      if p != "" { assert p[..1] == [p[0]]; }
    }
    assert p != "" && p[0] == '/' && |p| <= 1 ==> p == "/";
    p == "" || (p[0] == '/' && |p| > 1)
  }

  /** A valid non-empty path is absolute and is not "/"; an invalid one is
      relative or is "/". */
  lemma IsValidPathMeaning(p: string)
    ensures IsValidPath(p) && p != "" ==> p[0] == '/' && p != "/"
    ensures !IsValidPath(p) ==> p != "" && (p[0] != '/' || p == "/")
  {
    if p != "" && p[0] == '/' && |p| <= 1 {
      assert p == "/";
    }
  }

  /** `invalidModuleDir`: the module directory is text that fails the check. */
  function InvalidModuleDir(c: AppConfig): (r: bool)
    ensures r ==> ("moduledir" in c && c["moduledir"].TextValue?
                   && c["moduledir"].text != "" && (!StartsWith(c["moduledir"].text, "/") || c["moduledir"].text == "/"))
    ensures !r && "moduledir" in c && c["moduledir"].TextValue? ==>
      (c["moduledir"].text == "" || (StartsWith(c["moduledir"].text, "/") && c["moduledir"].text != "/"))
  {
    match Field(c, "moduledir")
    case Some(TextValue(s)) => !IsValidPath(s)
    case _ => false
  }

  /** `updateConfig`: one key takes the new value, every other key keeps its
      value. */
  function UpdateConfig(c: AppConfig, key: string, v: ConfigValue): (r: AppConfig)
    ensures key in r && r[key] == v
    ensures forall k :: k != key ==> (k in r <==> k in c)
    ensures forall k :: k != key && k in c ==> r[k] == c[k]
  {
    c[key := v]
  }

  /** Writing back a value read with `config[key]` before an update: an
      absent value becomes `undefined`, which serialises as an absent key. */
  function RestoreField(c: AppConfig, key: string, previous: Option<ConfigValue>): (r: AppConfig)
    ensures Field(r, key) == previous
    ensures forall k :: k != key ==> Field(r, k) == Field(c, k)
  {
    match previous
    case Some(v) => UpdateConfig(c, key, v)
    case None => c - {key}
  }

  /** A rollback right after an update gives back the configuration as it
      was before the update. */
  lemma RollbackRestores(c: AppConfig, key: string, v: ConfigValue)
    ensures RestoreField(UpdateConfig(c, key, v), key, Field(c, key)) == c
  {
    var r := RestoreField(UpdateConfig(c, key, v), key, Field(c, key));
    assert forall k :: Field(r, k) == Field(c, k);
    assert forall k :: k in r <==> k in c by {
      forall k ensures k in r <==> k in c {
        assert Field(r, k).Some? <==> Field(c, k).Some?;
      }
    }
  }

  /** The rollback writes the old value back without looking at the field:
      an edit of the same field made while the save was pending is lost. */
  lemma RollbackDropsLaterEdit(c: AppConfig, key: string, v: ConfigValue, later: ConfigValue)
    ensures Field(RestoreField(UpdateConfig(UpdateConfig(c, key, v), key, later), key, Field(c, key)), key)
            == Field(c, key)
  {
  }

  /** A rollback that writes the old value only while the field still holds
      the toggled one. */
  function CompareRollback(c: AppConfig, key: string, toggled: ConfigValue, previous: Option<ConfigValue>): AppConfig {
    if Field(c, key) == Some(toggled) then RestoreField(c, key, previous) else c
  }

  /** For a boolean field, which holds either the toggled value or, after a
      second toggle, the old one again, the unconditional rollback gives the
      same configuration as the comparing one. */
  lemma RollbackAgreesWithCompare(c: AppConfig, key: string, b: bool)
    requires Field(c, key) == Some(BoolValue(b)) || Field(c, key) == Some(BoolValue(!b))
    ensures RestoreField(c, key, Some(BoolValue(b))) == CompareRollback(c, key, BoolValue(!b), Some(BoolValue(b)))
  {
    if Field(c, key) == Some(BoolValue(b)) {
      assert c[key := BoolValue(b)] == c;
    }
  }

  /** `isDirty`: never before a baseline exists, then exactly when the
      configuration differs from it. */
  function IsDirty(baseline: Option<AppConfig>, config: AppConfig): (r: bool)
    ensures baseline.None? ==> !r
    ensures baseline.Some? && config == baseline.value ==> !r
  {
    baseline.Some? && config != baseline.value
  }

  /** On a clean tab, an edit makes the tab dirty exactly when it changes the
      field: writing the value a field already holds leaves the tab clean. */
  lemma UpdateDirtiesIffValueChanges(baseline: AppConfig, key: string, v: ConfigValue)
    ensures IsDirty(Some(baseline), UpdateConfig(baseline, key, v)) <==> Field(baseline, key) != Some(v)
  {
  }

  /** The baseline effect: when not loading, it records the configuration if
      there is no baseline yet or the baseline already equals it. */
  function BaselineEffect(baseline: Option<AppConfig>, loading: bool, config: AppConfig): (r: Option<AppConfig>)
    ensures loading ==> r == baseline
  {
    if !loading && (baseline.None? || baseline.value == config) then Some(config) else baseline
  }

  /** The first configuration seen while not loading becomes the baseline,
      and the tab is then clean. */
  lemma BaselineCapturesFirst(loading: bool, config: AppConfig)
    ensures !loading ==> BaselineEffect(None, loading, config) == Some(config)
    ensures !loading ==> !IsDirty(BaselineEffect(None, loading, config), config)
    ensures loading ==> !IsDirty(BaselineEffect(None, loading, config), config)
  {
  }

  /** The effect never moves an existing baseline: once the configuration
      is edited it stays dirty until a save, reload or reset. */
  lemma BaselineSticky(baseline: Option<AppConfig>, loading: bool, config: AppConfig)
    requires baseline.Some?
    ensures BaselineEffect(baseline, loading, config) == baseline
    ensures IsDirty(BaselineEffect(baseline, loading, config), config) == IsDirty(baseline, config)
  {
  }

  /** The enforcement condition: the reported `zygisksuEnforce` is a
      non-empty string other than "0" and coexistence is not allowed. */
  predicate EnforcementActive(enforce: Option<string>, c: AppConfig) {
    enforce.Some? && enforce.value != "" && enforce.value != "0" && !Truthy(Field(c, ALLOW_COEXISTENCE))
  }

  /** The enforcement effect forces `disable_umount` on, locally only. */
  function EnforcementEffect(enforce: Option<string>, c: AppConfig): (r: AppConfig)
    ensures EnforcementActive(enforce, c) ==> Truthy(Field(r, DISABLE_UMOUNT))
    ensures !EnforcementActive(enforce, c) ==> r == c
    ensures forall k :: k != DISABLE_UMOUNT ==> Field(r, k) == Field(c, k)
  {
    if EnforcementActive(enforce, c) && !Truthy(Field(c, DISABLE_UMOUNT)) then
      UpdateConfig(c, DISABLE_UMOUNT, BoolValue(true))
    else c
  }

  /** Running the enforcement effect again changes nothing. */
  lemma EnforcementEffectIdempotent(enforce: Option<string>, c: AppConfig)
    ensures EnforcementEffect(enforce, EnforcementEffect(enforce, c)) == EnforcementEffect(enforce, c)
  {
    var r := EnforcementEffect(enforce, c);
    assert Field(r, ALLOW_COEXISTENCE) == Field(c, ALLOW_COEXISTENCE);
  }

  /** The value a toggle writes: the negation of the field's truthiness. */
  function Toggled(c: AppConfig, key: string): ConfigValue {
    BoolValue(!Truthy(Field(c, key)))
  }

  /** The overlay modes to offer before the xattr filter: the storage
      report's list, else the system information's, else all three. */
  function ModeCandidates(storageModes: Option<seq<string>>, sysModes: Option<seq<string>>): seq<string> {
    if storageModes.Some? then storageModes.value
    else if sysModes.Some? then sysModes.value
    else ["tmpfs", "ext4", "erofs"]
  }

  function NotTmpfs(): string -> bool {
    m => m != "tmpfs"
  }

  /** `availableModes`: the candidates in their order, without "tmpfs"
      exactly when the xattr support is reported as false. */
  function AvailableModes(storageModes: Option<seq<string>>, sysModes: Option<seq<string>>,
                          tmpfsXattr: Option<bool>): (r: seq<string>)
    ensures IsSubsequence(r, ModeCandidates(storageModes, sysModes))
    ensures forall m :: m in r <==>
      m in ModeCandidates(storageModes, sysModes) && (m == "tmpfs" ==> tmpfsXattr != Some(false))
    ensures tmpfsXattr != Some(false) ==> r == ModeCandidates(storageModes, sysModes)
  {
    var base := ModeCandidates(storageModes, sysModes);
    if tmpfsXattr == Some(false) then Filter(base, NotTmpfs())
    else
      SubsequenceRefl(base);
      base
  }

  /** With nothing reported, every mode is offered in the order tmpfs, ext4,
      erofs; a false xattr report leaves ext4 and erofs. */
  lemma DefaultModes()
    ensures AvailableModes(None, None, None) == ["tmpfs", "ext4", "erofs"]
    ensures AvailableModes(None, None, Some(false)) == ["ext4", "erofs"]
  {
    var keep := NotTmpfs();
    assert Init(["tmpfs"]) == [];
    assert Filter(["tmpfs"], keep) == [];
    assert Init(["tmpfs", "ext4"]) == ["tmpfs"];
    assert Filter(["tmpfs", "ext4"], keep) == ["ext4"];
    assert Init(["tmpfs", "ext4", "erofs"]) == ["tmpfs", "ext4"];
  }

  /** The tab's own state: the baseline serialisation (absent while empty)
      and whether the reset confirmation is open. */
  class ConfigTab {
    var baseline: Option<AppConfig>
    var showResetConfirm: bool

    constructor ()
      ensures baseline == None && !showResetConfirm
    {
      baseline := None;
      showResetConfirm := false;
    }

    function Dirty(cs: ConfigStore.ConfigStore): bool
      reads this, cs
    {
      IsDirty(baseline, cs.config)
    }

    /** The baseline effect run once on the store's current state. */
    method RunBaselineEffect(cs: ConfigStore.ConfigStore)
      modifies this
      ensures baseline == BaselineEffect(old(baseline), cs.loading, cs.config)
      ensures showResetConfirm == old(showResetConfirm)
    {
      if !cs.loading && (baseline.None? || baseline.value == cs.config) {
        baseline := Some(cs.config);
      }
    }

    /** The enforcement effect run once on the store's current state. */
    method RunEnforcementEffect(cs: ConfigStore.ConfigStore, enforce: Option<string>)
      modifies cs
      ensures cs.config == EnforcementEffect(enforce, old(cs.config))
      ensures cs.loading == old(cs.loading) && cs.saving == old(cs.saving)
    {
      if EnforcementActive(enforce, cs.config) && !Truthy(Field(cs.config, DISABLE_UMOUNT)) {
        cs.SetConfig(UpdateConfig(cs.config, DISABLE_UMOUNT, BoolValue(true)));
      }
    }

    /** `updateConfig` on the store. */
    method Update(cs: ConfigStore.ConfigStore, key: string, v: ConfigValue)
      modifies cs
      ensures cs.config == UpdateConfig(old(cs.config), key, v)
      ensures cs.loading == old(cs.loading) && cs.saving == old(cs.saving)
    {
      cs.SetConfig(UpdateConfig(cs.config, key, v));
    }

    /** `save`, up to the store's call: an invalid module directory shows an
        error and sends nothing; otherwise the current configuration is
        sent. */
    method BeginSave(cs: ConfigStore.ConfigStore, ui: UiStore.UiStore, now: nat) returns (sent: Option<AppConfig>)
      requires cs != ui as object
      modifies cs, ui
      ensures cs.config == old(cs.config) && cs.loading == old(cs.loading)
      ensures InvalidModuleDir(old(cs.config)) ==>
        sent.None? && cs.saving == old(cs.saving)
        && ui.toast == UiStore.Shown(now, MessageOrNull(old(ui.locale), "config.invalidPath", ""), Error)
      ensures !InvalidModuleDir(old(cs.config)) ==>
        sent == Some(old(cs.config)) && cs.saving && ui.toast == old(ui.toast)
      ensures ui.locale == old(ui.locale) && ui.storage == old(ui.storage) && ui.fixBottomNav == old(ui.fixBottomNav)
      ensures ui.lang == old(ui.lang) && ui.localePath == old(ui.localePath) && ui.isReady == old(ui.isReady)
    {
      if InvalidModuleDir(cs.config) {
        var _ := ui.ShowToast(MessageOrNull(ui.locale, "config.invalidPath", ""), Error, now);
        sent := None;
      } else {
        var v := cs.BeginSave();
        sent := Some(v);
      }
    }

    /** `save` after the store's call resolved (it always resolves): the
        baseline becomes the configuration, so the tab is clean. */
    method FinishSave(cs: ConfigStore.ConfigStore, ui: UiStore.UiStore, saved: bool, now: nat)
      requires cs != ui as object
      modifies this, cs, ui
      ensures ui.locale == old(ui.locale) && ui.storage == old(ui.storage) && ui.fixBottomNav == old(ui.fixBottomNav)
      ensures ui.lang == old(ui.lang) && ui.localePath == old(ui.localePath) && ui.isReady == old(ui.isReady)
      ensures cs.config == old(cs.config) && !cs.saving
      ensures baseline == Some(cs.config) && !Dirty(cs)
      ensures showResetConfirm == old(showResetConfirm)
    {
      cs.FinishSave(saved, ui, now);
      baseline := Some(cs.config);
    }

    /** `reload`: the store loads, then the baseline becomes whatever the
        configuration is, fetched or not. */
    method Reload(cs: ConfigStore.ConfigStore, ui: UiStore.UiStore, fetched: Option<AppConfig>, now: nat)
      requires cs != ui as object
      modifies this, cs, ui
      ensures ui.locale == old(ui.locale) && ui.storage == old(ui.storage) && ui.fixBottomNav == old(ui.fixBottomNav)
      ensures ui.lang == old(ui.lang) && ui.localePath == old(ui.localePath) && ui.isReady == old(ui.isReady)
      ensures fetched.Some? ==> cs.config == fetched.value
      ensures fetched.None? ==> cs.config == old(cs.config)
      ensures !cs.loading && baseline == Some(cs.config) && !Dirty(cs)
      ensures showResetConfirm == old(showResetConfirm)
    {
      cs.BeginLoad();
      cs.FinishLoad(fetched, ui, now);
      baseline := Some(cs.config);
    }

    /** The reset button opens the confirmation dialog. */
    method OpenResetConfirm()
      modifies this
      ensures showResetConfirm && baseline == old(baseline)
    {
      showResetConfirm := true;
    }

    /** The dialog's cancel button, or its dismissal, closes it. */
    method CloseResetConfirm()
      modifies this
      ensures !showResetConfirm && baseline == old(baseline)
    {
      showResetConfirm := false;
    }

    /** `reset`, up to the store's call: the confirmation closes. */
    method BeginReset(cs: ConfigStore.ConfigStore)
      modifies this, cs
      ensures !showResetConfirm && baseline == old(baseline)
      ensures cs.saving && cs.config == old(cs.config) && cs.loading == old(cs.loading)
    {
      showResetConfirm := false;
      cs.BeginReset();
    }

    /** `reset` after the store's call resolved: the baseline becomes the
        configuration, reloaded or not. */
    method FinishReset(cs: ConfigStore.ConfigStore, ui: UiStore.UiStore, resetOk: bool,
                       fetched: Option<AppConfig>, now: nat)
      requires cs != ui as object
      modifies this, cs, ui
      ensures ui.locale == old(ui.locale) && ui.storage == old(ui.storage) && ui.fixBottomNav == old(ui.fixBottomNav)
      ensures ui.lang == old(ui.lang) && ui.localePath == old(ui.localePath) && ui.isReady == old(ui.isReady)
      ensures resetOk && fetched.Some? ==> cs.config == fetched.value
      ensures !(resetOk && fetched.Some?) ==> cs.config == old(cs.config)
      ensures !cs.saving && baseline == Some(cs.config) && !Dirty(cs)
    {
      cs.FinishReset(resetOk, fetched, ui, now);
      baseline := Some(cs.config);
    }

    /** `toggle`, up to the persist call: a `disable_umount` toggle under
        enforcement shows an error and changes nothing; any other toggle
        writes the negated value at once and sends the updated
        configuration. `previous` is the value read before the write. */
    method Toggle(cs: ConfigStore.ConfigStore, ui: UiStore.UiStore, key: string,
                  enforce: Option<string>, now: nat)
      returns (sent: Option<AppConfig>, previous: Option<ConfigValue>)
      requires cs != ui as object
      modifies cs, ui
      ensures previous == Field(old(cs.config), key)
      ensures cs.loading == old(cs.loading) && cs.saving == old(cs.saving)
      ensures key == DISABLE_UMOUNT && EnforcementActive(enforce, old(cs.config)) ==>
        sent.None? && cs.config == old(cs.config)
        && ui.toast == UiStore.Shown(now, Message(old(ui.locale), "config.coexistenceRequired", "Coexistence required"), Error)
      ensures !(key == DISABLE_UMOUNT && EnforcementActive(enforce, old(cs.config))) ==>
        cs.config == UpdateConfig(old(cs.config), key, Toggled(old(cs.config), key))
        && sent == Some(cs.config) && ui.toast == old(ui.toast)
      ensures ui.locale == old(ui.locale) && ui.storage == old(ui.storage) && ui.fixBottomNav == old(ui.fixBottomNav)
      ensures ui.lang == old(ui.lang) && ui.localePath == old(ui.localePath) && ui.isReady == old(ui.isReady)
    {
      previous := Field(cs.config, key);
      if key == DISABLE_UMOUNT && EnforcementActive(enforce, cs.config) {
        var _ := ui.ShowToast(Message(ui.locale, "config.coexistenceRequired", "Coexistence required"), Error, now);
        sent := None;
      } else {
        cs.SetConfig(UpdateConfig(cs.config, key, Toggled(cs.config, key)));
        sent := Some(cs.config);
      }
    }

    /** The persist call of a toggle was rejected: the value read before the
        toggle is written back, whatever the field holds now, and an error
        is shown. */
    method ToggleRejected(cs: ConfigStore.ConfigStore, ui: UiStore.UiStore, key: string,
                          previous: Option<ConfigValue>, now: nat)
      requires cs != ui as object
      modifies cs, ui
      ensures ui.locale == old(ui.locale) && ui.storage == old(ui.storage) && ui.fixBottomNav == old(ui.fixBottomNav)
      ensures ui.lang == old(ui.lang) && ui.localePath == old(ui.localePath) && ui.isReady == old(ui.isReady)
      ensures cs.config == RestoreField(old(cs.config), key, previous)
      ensures cs.loading == old(cs.loading) && cs.saving == old(cs.saving)
      ensures ui.toast == UiStore.Shown(now, Message(old(ui.locale), "config.saveFailed", "Failed to update setting"), Error)
    {
      cs.SetConfig(RestoreField(cs.config, key, previous));
      var _ := ui.ShowToast(Message(ui.locale, "config.saveFailed", "Failed to update setting"), Error, now);
    }
  }
}
