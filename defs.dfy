/** The daemon's constant tables: run-time paths, the marker file names that
    switch a module off, and the partition lists. */
module Defs {
  import opened Strings
  import opened Seqs

  const RUN_DIR := "/data/adb/hybrid-mount/run/"
  const STATE_FILE := "/data/adb/hybrid-mount/run/daemon_state.json"
  const DISABLE_FILE_NAME := "disable"
  const REMOVE_FILE_NAME := "remove"
  const SKIP_MOUNT_FILE_NAME := "skip_mount"
  const SYSTEM_RW_DIR := "/data/adb/hybrid-mount/rw"
  const MODULES_DIR := "/data/adb/modules"
  const CONFIG_FILE := "/data/adb/hybrid-mount/config.toml"

  /** Partitions a module may carry as top-level directories, in scan order. */
  const BUILTIN_PARTITIONS: seq<string> := [
    "system", "vendor", "product", "system_ext", "odm", "oem", "apex",
    "mi_ext", "my_bigball", "my_carrier", "my_company", "my_engineering",
    "my_heytap", "my_manifest", "my_preload", "my_product", "my_region",
    "my_reserve", "my_stock", "optics", "prism"
  ]

  const SENSITIVE_PARTITIONS: seq<string> := [
    "vendor", "product", "system_ext", "odm", "oem", "apex",
    "mi_ext", "my_bigball", "my_carrier", "my_company", "my_engineering",
    "my_heytap", "my_manifest", "my_preload", "my_product", "my_region",
    "my_reserve", "my_stock", "optics", "prism"
  ]

  /** Targets mounted with the plain "overlay" source instead of the configured one. */
  const IGNORE_UNOUNT_PARTITIONS: seq<string> := [
    "/vendor/lib", "/vendor/lib64", "/system/lib", "/system/lib64"
  ]

  /** The built-in table names 21 distinct partitions and starts with "system". */
  lemma BuiltinPartitionsDistinct()
    ensures |BUILTIN_PARTITIONS| == 21 && BUILTIN_PARTITIONS[0] == "system"
    ensures NoDuplicates(BUILTIN_PARTITIONS)
  {
    FrontPartitionsDistinct();
    OemPartitionsDistinct();
    TailPartitionsDistinct();
    PartitionGroupsDisjoint();
    assert BUILTIN_PARTITIONS == FRONT_PARTITIONS + OEM_PARTITIONS + TAIL_PARTITIONS;
    NoDuplicatesAppend(FRONT_PARTITIONS, OEM_PARTITIONS);
    NoDuplicatesAppend(FRONT_PARTITIONS + OEM_PARTITIONS, TAIL_PARTITIONS);
  }

  // The built-in table in three groups of seven, so that its distinctness is
  // proved a group at a time.
  const FRONT_PARTITIONS: seq<string> :=
    ["system", "vendor", "product", "system_ext", "odm", "oem", "apex"]
  const OEM_PARTITIONS: seq<string> :=
    ["mi_ext", "my_bigball", "my_carrier", "my_company", "my_engineering", "my_heytap", "my_manifest"]
  const TAIL_PARTITIONS: seq<string> :=
    ["my_preload", "my_product", "my_region", "my_reserve", "my_stock", "optics", "prism"]

  lemma FrontPartitionsDistinct()
    ensures NoDuplicates(FRONT_PARTITIONS)
  {
  }

  lemma OemPartitionsDistinct()
    ensures NoDuplicates(OEM_PARTITIONS)
  {
  }

  lemma TailPartitionsDistinct()
    ensures NoDuplicates(TAIL_PARTITIONS)
  {
  }

  lemma PartitionGroupsDisjoint()
    ensures forall x :: x in FRONT_PARTITIONS ==> x !in OEM_PARTITIONS
    ensures forall x :: x in FRONT_PARTITIONS + OEM_PARTITIONS ==> x !in TAIL_PARTITIONS
  {
  }

  /** The sensitive table is the built-in one without "system", in the same order. */
  lemma SensitiveIsBuiltinWithoutSystem()
    ensures SENSITIVE_PARTITIONS == BUILTIN_PARTITIONS[1..]
    ensures forall p :: p in SENSITIVE_PARTITIONS ==> p in BUILTIN_PARTITIONS
    ensures "system" !in SENSITIVE_PARTITIONS
  {
  }

  /** Four absolute paths, each under /vendor or /system. */
  lemma IgnoreUnmountUnderVendorOrSystem()
    ensures |IGNORE_UNOUNT_PARTITIONS| == 4
    ensures forall p :: p in IGNORE_UNOUNT_PARTITIONS ==>
      StartsWith(p, "/vendor/") || StartsWith(p, "/system/")
  {
  }

  /** The state file lives in the run directory, whose name ends with '/'. */
  lemma StateFileInRunDir()
    ensures EndsWith(RUN_DIR, "/") && StartsWith(STATE_FILE, RUN_DIR)
  {
  }

  /** The three marker names are pairwise distinct. */
  lemma MarkersDistinct()
    ensures DISABLE_FILE_NAME != REMOVE_FILE_NAME
    ensures DISABLE_FILE_NAME != SKIP_MOUNT_FILE_NAME
    ensures REMOVE_FILE_NAME != SKIP_MOUNT_FILE_NAME
  {
  }
}
