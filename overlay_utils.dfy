/** The overlayfs helpers that decide rather than act: whether the kernel
    configuration text enables overlayfs, and which parameters the new mount API
    is given. Opening and decompressing /proc/config.gz, and the fsopen calls
    themselves, are left out. */
module OverlayUtils {
  import opened Wrappers
  import opened Strings
  import opened Seqs

  /** A configuration line that turns overlayfs on: not a comment, has an '=',
      and reads CONFIG_OVERLAY_FS=y once both sides of the first '=' are trimmed. */
  predicate EnablesOverlay(line: string) {
    !StartsWith(line, "#") &&
    match SplitOnce(line, '=')
    case None => false
    case Some((key, value)) => Trim(key) == "CONFIG_OVERLAY_FS" && Trim(value) == "y"
  }

  datatype ReadError = OpenFailed | DecodeFailed

  /** `is_overlay_supported` given the decompressed text of /proc/config.gz, or the
      error reading it produced: the error is passed on, never turned into false. */
  function IsOverlaySupported(config: Result<string, ReadError>): (r: Result<bool, ReadError>)
    ensures config.Err? ==> r == Err(config.error)
    ensures config.Ok? ==> r.Ok?
    ensures config.Ok? ==>
      (r.value <==> exists i :: 0 <= i < |Lines(config.value)| && EnablesOverlay(Lines(config.value)[i]))
  {
    match config
    case Err(e) => Err(e)
    case Ok(text) => Ok(FirstMatch(Lines(text), EnablesOverlay).Some?)
  }

  /** Only the first '=' splits: anything after it is part of the value. */
  lemma SplitAtFirstEquals(key: string, value: string)
    requires '=' !in key
    ensures SplitOnce(key + "=" + value, '=') == Some((key, value))
  {
    var line := key + "=" + value;
    IndexOfAfterFree(key, '=', value);
    assert line[..|key|] == key && line[|key| + 1..] == value;
  }

  /** For a line `key=value` whose key has no '=', the line counts exactly when
      it is not a comment and the trimmed sides read CONFIG_OVERLAY_FS and y. */
  lemma EnablesOverlayOfEntry(key: string, value: string)
    requires '=' !in key
    ensures EnablesOverlay(key + "=" + value) <==>
      !StartsWith(key + "=" + value, "#") && Trim(key) == "CONFIG_OVERLAY_FS" && Trim(value) == "y"
  {
    SplitAtFirstEquals(key, value);
  }

  /** A module built as "m" does not count, whatever the key. */
  lemma ModuleBuildDoesNotCount(key: string)
    requires '=' !in key
    ensures !EnablesOverlay(key + "=" + "m")
  {
    EnablesOverlayOfEntry(key, "m");
    TrimPlain("m");
  }

  /** A commented-out line does not count. */
  lemma CommentDoesNotCount(rest: string)
    ensures !EnablesOverlay("#" + rest)
  {
  }

  /** The parameters handed to the new mount API, in order: lowerdir always,
      upperdir and workdir only as a pair, source always. */
  function FsParameters(upperdir: Option<string>, workdir: Option<string>,
                        lowerdirConfig: string, source: string): (r: seq<(string, string)>)
    ensures |r| >= 2 && r[0] == ("lowerdir", lowerdirConfig) && r[|r| - 1] == ("source", source)
    ensures upperdir.Some? && workdir.Some? ==>
      r == [("lowerdir", lowerdirConfig), ("upperdir", upperdir.value), ("workdir", workdir.value), ("source", source)]
    ensures !(upperdir.Some? && workdir.Some?) ==> r == [("lowerdir", lowerdirConfig), ("source", source)]
  {
    var pair := if upperdir.Some? && workdir.Some?
      then [("upperdir", upperdir.value), ("workdir", workdir.value)] else [];
    [("lowerdir", lowerdirConfig)] + pair + [("source", source)]
  }
}
