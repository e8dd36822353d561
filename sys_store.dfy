/** The system status store of the web UI: device, version, storage and
    system information fetched one after another, with a loading flag around
    the sequence. Failures are swallowed. */
module SysStore {
  import opened Wrappers

  datatype DeviceInfo = DeviceInfo(model: string, android: string, kernel: string, selinux: string)

  /** The storage status; `storageType` is null until known. */
  datatype StorageStatus = StorageStatus(storageType: Option<string>, supportedModes: Option<seq<string>>)

  datatype SystemInfo = SystemInfo(kernel: string, selinux: string, mountBase: string,
                                   activeMounts: Option<seq<string>>, zygisksuEnforce: Option<string>,
                                   supportedOverlayModes: Option<seq<string>>, tmpfsXattrSupported: Option<bool>)

  /** The outcomes of the four fetches, in the order they are made; a fetch
      after a failed one is never made, so its outcome is irrelevant. */
  datatype StatusFetches = StatusFetches(device: Option<DeviceInfo>, version: Option<string>,
                                         storage: Option<StorageStatus>, systemInfo: Option<SystemInfo>)

  class SysStore {
    var device: DeviceInfo
    var version: string
    var storage: StorageStatus
    var systemInfo: SystemInfo
    var activePartitions: seq<string>
    var loading: bool

    /** Placeholders "-" everywhere, the built-in app version, no storage
        type, and no active partitions. */
    constructor (appVersion: string)
      ensures device == DeviceInfo("-", "-", "-", "-") && version == appVersion
      ensures storage.storageType == None && activePartitions == [] && !loading
      ensures systemInfo.kernel == "-" && systemInfo.selinux == "-" && systemInfo.mountBase == "-"
      ensures systemInfo.activeMounts == Some([])
    {
      device := DeviceInfo("-", "-", "-", "-");
      version := appVersion;
      storage := StorageStatus(None, None);
      systemInfo := SystemInfo("-", "-", "-", Some([]), None, None, None);
      activePartitions := [];
      loading := false;
    }

    /** `loadStatus` starts. */
    method BeginLoad()
      modifies this
      ensures loading
      ensures device == old(device) && version == old(version) && storage == old(storage)
      ensures systemInfo == old(systemInfo) && activePartitions == old(activePartitions)
    {
      loading := true;
    }

    /** `loadStatus` runs its fetches in order; each success is stored before
        the next fetch, the first failure ends the sequence silently, and
        loading ends in every case. The active partitions follow the system
        information only when that last fetch succeeds. */
    method FinishLoad(f: StatusFetches)
      modifies this
      ensures !loading
      ensures device == (if f.device.Some? then f.device.value else old(device))
      ensures version == (if f.device.Some? && f.version.Some? then f.version.value else old(version))
      ensures storage ==
        (if f.device.Some? && f.version.Some? && f.storage.Some? then f.storage.value else old(storage))
      ensures f.device.Some? && f.version.Some? && f.storage.Some? && f.systemInfo.Some? ==>
        systemInfo == f.systemInfo.value
        && activePartitions == (if f.systemInfo.value.activeMounts.Some? then f.systemInfo.value.activeMounts.value else [])
      ensures !(f.device.Some? && f.version.Some? && f.storage.Some? && f.systemInfo.Some?) ==>
        systemInfo == old(systemInfo) && activePartitions == old(activePartitions)
    {
      if f.device.Some? {
        device := f.device.value;
        if f.version.Some? {
          version := f.version.value;
          if f.storage.Some? {
            storage := f.storage.value;
            if f.systemInfo.Some? {
              var info := f.systemInfo.value;
              systemInfo := info;
              activePartitions := if info.activeMounts.Some? then info.activeMounts.value else [];
            }
          }
        }
      }
      loading := false;
    }
  }
}
