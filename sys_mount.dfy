/** System helpers whose decisions are plain string and number tests: which root
    manager provides the mount source, whether a path is a mount point, and when
    an e2fsck run counts as a failure. The root manager query, the mount table
    and the e2fsck process are inputs. */
module SysMount {
  import opened Wrappers
  import opened Strings

  /** "KSU" when KernelSU reports a version, else "APatch". */
  function DetectMountSource(ksuVersion: Option<int>): (r: string)
    ensures r == "KSU" <==> ksuVersion.Some?
    ensures r == "KSU" || r == "APatch"
  {
    if ksuVersion.Some? then "KSU" else "APatch"
  }

  /** `is_mounted`: the path with every trailing '/' removed must equal some
      mount point's text exactly. `path` is None when it is not valid UTF-8 and
      `mountInfo` is None when the mount table cannot be read. */
  function IsMounted(path: Option<string>, mountInfo: Option<seq<string>>): (r: bool)
    ensures r <==> path.Some? && mountInfo.Some? && TrimEndChar(path.value, '/') in mountInfo.value
  {
    match (path, mountInfo)
    case (Some(p), Some(points)) => TrimEndChar(p, '/') in points
    case _ => false
  }

  lemma TrimEndCharAppend(p: string)
    ensures TrimEndChar(p + "/", '/') == TrimEndChar(p, '/')
  {
    assert (p + "/")[..|p + "/"| - 1] == p;
  }

  /** Trailing slashes do not matter. */
  lemma IsMountedIgnoresTrailingSlash(p: string, mountInfo: Option<seq<string>>)
    ensures IsMounted(Some(p + "/"), mountInfo) == IsMounted(Some(p), mountInfo)
  {
    TrimEndCharAppend(p);
  }

  /** "/" is trimmed to the empty string, so the root is never reported as
      mounted: no mount point is written as "". */
  lemma RootIsNeverMounted(points: seq<string>)
    requires forall m :: m in points ==> m != ""
    ensures !IsMounted(Some("/"), Some(points))
  {
    assert TrimEndChar("/", '/') == TrimEndChar("", '/');
  }

  /** How the e2fsck process ended: an exit code, or killed by a signal. */
  datatype ExitStatus = Exited(code: int) | Signalled

  datatype RepairError = SpawnFailed | CheckFailed(code: int)

  /** `repair_image`: a spawn failure is an error, and so is an exit code above 2
      (1 and 2 mean errors were corrected); a signal is not. */
  function RepairImage(status: Option<ExitStatus>): (r: Result<(), RepairError>)
    ensures r.Err? <==> status.None? || (status.value.Exited? && status.value.code > 2)
    ensures r.Err? && status.Some? ==> r.error == CheckFailed(status.value.code)
  {
    match status
    case None => Err(SpawnFailed)
    case Some(Exited(code)) => if code > 2 then Err(CheckFailed(code)) else Ok(())
    case Some(Signalled) => Ok(())
  }
}
