/** The status tab of the web UI: the partition chips, the mounted-module
    count, the storage badge and the names and descriptions of the storage
    modes. Everything here is computed from the store's current values. */
module StatusTab {
  import opened Wrappers
  import opened Seqs
  import opened Strings
  import opened WebTypes
  import ModuleStore

  /** The partitions the build script writes into the web UI's generated
      constants. */
  const WEB_BUILTIN_PARTITIONS: seq<string> := ["system", "vendor", "product", "system_ext", "odm", "oem", "apex"]

  /** `displayPartitions`: the built-in partitions, then the configured ones
      not already listed, each once, in order of first occurrence. */
  function DisplayPartitions(configured: Option<seq<string>>): (r: seq<string>)
    ensures NoDuplicates(r)
    ensures forall p :: p in r <==> p in WEB_BUILTIN_PARTITIONS || (configured.Some? && p in configured.value)
  {
    Distinct(WEB_BUILTIN_PARTITIONS + (if configured.Some? then configured.value else []))
  }

  /** Built-in partitions come before every configured one, and the
      configured ones keep their order. */
  lemma DisplayPartitionsOrder(configured: Option<seq<string>>, i: nat, j: nat)
    requires j < |DisplayPartitions(configured)| && i < j
    ensures var r := DisplayPartitions(configured);
            r[j] in WEB_BUILTIN_PARTITIONS ==> r[i] in WEB_BUILTIN_PARTITIONS
    ensures var r := DisplayPartitions(configured);
            var s := WEB_BUILTIN_PARTITIONS + (if configured.Some? then configured.value else []);
            FirstIndex(s, r[i]) < FirstIndex(s, r[j])
  {
    var r := DisplayPartitions(configured);
    var s := WEB_BUILTIN_PARTITIONS + (if configured.Some? then configured.value else []);
    FirstIndexConcat(WEB_BUILTIN_PARTITIONS, if configured.Some? then configured.value else [], r[i]);
    FirstIndexConcat(WEB_BUILTIN_PARTITIONS, if configured.Some? then configured.value else [], r[j]);
  }

  /** `mountedCount`: the mounted modules, or 0 with no list. */
  function MountedCount(modules: Option<seq<WebModule>>): (r: nat)
    ensures modules.None? ==> r == 0
    ensures modules.Some? ==> r == Count(modules.value, ModuleStore.IsMounted())
  {
    if modules.None? then 0
    else
      FilterLength(modules.value, ModuleStore.IsMounted());
      |Filter(modules.value, ModuleStore.IsMounted())|
  }

  /** The count on this tab bounds the store's auto and magic figures. */
  lemma MountedCountBoundsStats(ms: seq<WebModule>)
    ensures ModuleStore.ModeStatsOf(ms).auto + ModuleStore.ModeStatsOf(ms).magic <= MountedCount(Some(ms))
  {
  }

  /** `getStorageBadgeClass`: a class for each of the three storage types,
      none for anything else or no type. */
  function StorageBadgeClass(t: Option<string>): (r: string)
    ensures r != "" <==> t.Some? && t.value in {"tmpfs", "ext4", "erofs"}
    ensures r != "" ==> r == "type-" + t.value
  {
    match t
    case Some("tmpfs") => "type-tmpfs"
    case Some("ext4") => "type-ext4"
    case Some("erofs") => "type-erofs"
    case _ => ""
  }

  /** `getModeDisplayName`: "Unknown" without a mode; otherwise the
      locale's non-empty `config.mode_<mode>` entry, else the mode in upper
      case. */
  function ModeDisplayName(l: Locale, mode: Option<string>): (r: string)
    ensures mode.None? || mode == Some("") ==> r == "Unknown"
    ensures mode.Some? && mode.value != "" ==> r == Message(l, "config.mode_" + mode.value, ToUpper(mode.value))
  {
    if mode.None? || mode.value == "" then "Unknown"
    else Message(l, "config.mode_" + mode.value, ToUpper(mode.value))
  }

  /** An untranslated mode is shown in upper case: never empty, never
      "Unknown" for a lower-case mode. */
  lemma UntranslatedModeName(mode: string)
    requires mode != "" && forall i :: 0 <= i < |mode| ==> 'a' <= mode[i] <= 'z'
    ensures ModeDisplayName(map[], Some(mode)) != ""
    ensures ModeDisplayName(map[], Some(mode)) != "Unknown"
    ensures |ModeDisplayName(map[], Some(mode))| == |mode|
  {
    var r := ModeDisplayName(map[], Some(mode));
    assert r == ToUpper(mode);
    assert 'A' <= r[0] <= 'Z';
    if |mode| == 7 {
      assert r[1] != 'n';
    }
  }

  /** `getModeDescription`: empty without a mode, else the locale's
      `config.mode_<mode>Desc` entry or empty. */
  function ModeDescription(l: Locale, mode: Option<string>): (r: string)
    ensures mode.None? || mode == Some("") ==> r == ""
    ensures mode.Some? && mode.value != "" ==> r == Message(l, "config.mode_" + mode.value + "Desc", "")
  {
    if mode.None? || mode.value == "" then ""
    else Message(l, "config.mode_" + mode.value + "Desc", "")
  }

  /** A partition chip is selected when the partition is active. */
  function ChipSelected(active: Option<seq<string>>, part: string): (r: bool)
    ensures r <==> active.Some? && part in active.value
  {
    part in (if active.Some? then active.value else [])
  }

  /** Every active built-in or configured partition has a selected chip. */
  lemma ActivePartitionsShown(configured: Option<seq<string>>, active: seq<string>, p: string)
    requires p in active
    requires p in WEB_BUILTIN_PARTITIONS || (configured.Some? && p in configured.value)
    ensures p in DisplayPartitions(configured) && ChipSelected(Some(active), p)
  {
  }
}
