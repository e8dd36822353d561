/** The legacy overlay mount of a partition: each top-level directory is
    overlaid with mount(2), falling back to a bind mount of its stock copy, and
    then every mount point below the partition is mounted again in path order.
    The mount table, the directory listing, which paths exist and the outcome
    of each mount call are inputs. */
module LegacyOverlay {
  import opened Wrappers
  import opened Strings
  import opened Seqs
  import Paths
  import OverlayFs

  // ------------------------------------------------------------ mount data

  /** The data string handed to mount(2): "lowerdir=" and the layers joined
      with ':', then the upper and work directories, only as a pair. Nothing is
      escaped. */
  function LegacyData(lowerDirs: seq<string>, lowest: string, upperdir: Option<string>, workdir: Option<string>): string {
    var data := "lowerdir=" + Join(lowerDirs + [lowest], ':');
    if upperdir.Some? && workdir.Some? then data + [','] + "upperdir=" + upperdir.value + [','] + "workdir=" + workdir.value
    else data
  }

  /** When no layer holds ',' or ':' and no upper or work directory holds ',',
      the kernel's reading of the data (options split at ',', the lowerdir value
      split at ':') gives back exactly the layers, bottom layer last, and the
      upper and work directories only when both were given. */
  lemma LegacyDataReadsBack(lowerDirs: seq<string>, lowest: string, upperdir: Option<string>, workdir: Option<string>)
    requires forall k :: 0 <= k < |lowerDirs| ==> ',' !in lowerDirs[k] && ':' !in lowerDirs[k]
    requires ',' !in lowest && ':' !in lowest
    requires upperdir.Some? ==> ',' !in upperdir.value
    requires workdir.Some? ==> ',' !in workdir.value
    ensures var opts := Split(LegacyData(lowerDirs, lowest, upperdir, workdir), ',');
      var both := upperdir.Some? && workdir.Some?;
      && StartsWith(opts[0], "lowerdir=")
      && Split(opts[0][9..], ':') == lowerDirs + [lowest]
      && (both ==> opts == [opts[0], "upperdir=" + upperdir.value, "workdir=" + workdir.value])
      && (!both ==> opts == [opts[0]])
  {
    var first := "lowerdir=" + Join(lowerDirs + [lowest], ':');
    LowerdirOptionReadsBack(lowerDirs, lowest);
    if upperdir.Some? && workdir.Some? {
      OptionKeysFree();
      KeyedOptionsSplit(first, "upperdir=", upperdir.value, "workdir=", workdir.value);
    } else {
      IndexOfNone(first, ',');
    }
  }

  /** The lowerdir option holds no ',' and its value splits back into the layers. */
  lemma LowerdirOptionReadsBack(lowerDirs: seq<string>, lowest: string)
    requires forall k :: 0 <= k < |lowerDirs| ==> ',' !in lowerDirs[k] && ':' !in lowerDirs[k]
    requires ',' !in lowest && ':' !in lowest
    ensures var first := "lowerdir=" + Join(lowerDirs + [lowest], ':');
      ',' !in first && StartsWith(first, "lowerdir=")
      && Split(first[9..], ':') == lowerDirs + [lowest]
  {
    LayersFree(lowerDirs, lowest);
    LowerdirKeyFree();
    KeyedJoinReadsBack("lowerdir=", lowerDirs + [lowest]);
  }

  /** Facts about the literal keys, kept apart so that proofs using them stay small. */
  lemma LowerdirKeyFree()
    ensures ',' !in "lowerdir=" && |"lowerdir="| == 9
  {
  }

  lemma OptionKeysFree()
    ensures ',' !in "upperdir=" && ',' !in "workdir="
  {
  }

  /** `key` followed by the ':'-joined layers: no ',', and the value splits back. */
  lemma KeyedJoinReadsBack(key: string, layers: seq<string>)
    requires ',' !in key && |layers| >= 1
    requires forall k :: 0 <= k < |layers| ==> ',' !in layers[k] && ':' !in layers[k]
    ensures var first := key + Join(layers, ':');
      ',' !in first && StartsWith(first, key) && Split(first[|key|..], ':') == layers
  {
    JoinAvoids(layers, ':', ',');
    SplitJoin(layers, ':');
    PrefixedText(key, Join(layers, ':'), ',');
  }

  /** The layers handed to the data string hold neither ',' nor ':'. */
  lemma LayersFree(lowerDirs: seq<string>, lowest: string)
    requires forall k :: 0 <= k < |lowerDirs| ==> ',' !in lowerDirs[k] && ':' !in lowerDirs[k]
    requires ',' !in lowest && ':' !in lowest
    ensures var layers := lowerDirs + [lowest];
      |layers| >= 1 && forall k :: 0 <= k < |layers| ==> ',' !in layers[k] && ':' !in layers[k]
  {
  }

  /** A prefix followed by text: neither holds `c`, and the text follows the prefix. */
  lemma PrefixedText(prefix: string, rest: string, c: char)
    requires c !in prefix && c !in rest
    ensures c !in prefix + rest && StartsWith(prefix + rest, prefix) && (prefix + rest)[|prefix|..] == rest
  {
    assert (prefix + rest)[..|prefix|] == prefix;
  }

  /** A first option and two `key=value` options, none holding ',', joined by
      ',' split back into the three. */
  lemma KeyedOptionsSplit(a: string, k1: string, v1: string, k2: string, v2: string)
    requires ',' !in a && ',' !in k1 && ',' !in v1 && ',' !in k2 && ',' !in v2
    ensures Split(a + [','] + k1 + v1 + [','] + k2 + v2, ',') == [a, k1 + v1, k2 + v2]
  {
    KeyedOptionsShape(a, k1, v1, k2, v2);
    ThreeOptionsSplit(a, k1 + v1, k2 + v2);
  }

  /** The data string regrouped at its first ','. */
  lemma KeyedOptionsShape(a: string, k1: string, v1: string, k2: string, v2: string)
    ensures a + [','] + k1 + v1 + [','] + k2 + v2 == a + [','] + ((k1 + v1) + [','] + (k2 + v2))
  {
    var b, c := k1 + v1, k2 + v2;
    var head := a + [','];
    AppendAssoc(head, k1, v1);
    AppendAssoc(head + b + [','], k2, v2);
    AppendAssoc(head + b, [','], c);
    AppendAssoc(head, b, [','] + c);
    AppendAssoc(b, [','], c);
  }

  /** Three options without ',' joined by ',' split back into the three. */
  lemma ThreeOptionsSplit(a: string, b: string, c: string)
    requires ',' !in a && ',' !in b && ',' !in c
    ensures Split(a + [','] + (b + [','] + c), ',') == [a, b, c]
  {
    SplitAfterFree(a, ',', b + [','] + c);
    SplitAfterFree(b, ',', c);
    IndexOfNone(c, ',');
  }

  /** Text without `c` splits into itself alone. */
  lemma IndexOfNone(s: string, c: char)
    requires c !in s
    ensures Split(s, c) == [s]
  {
  }

  // --------------------------------------------------- mount_overlay_on_path

  /** Every module root's copy of `relative` that exists, in module order. */
  function ExistingLowers(moduleRoots: seq<string>, relative: string, present: string -> bool): (r: seq<string>)
    ensures forall x :: x in r <==> exists i :: 0 <= i < |moduleRoots| && x == moduleRoots[i] + relative && present(x)
    ensures IsSubsequence(r, OverlayFs.Candidates(moduleRoots, relative))
  {
    var candidates := OverlayFs.Candidates(moduleRoots, relative);
    assert forall x :: x in candidates <==> exists i :: 0 <= i < |moduleRoots| && x == moduleRoots[i] + relative;
    Filter(candidates, present)
  }

  /** The loop that pushes each existing module copy in turn. */
  method CollectExistingLowers(moduleRoots: seq<string>, relative: string, present: string -> bool)
    returns (lowers: seq<string>)
    ensures lowers == ExistingLowers(moduleRoots, relative, present)
  {
    ghost var candidates := OverlayFs.Candidates(moduleRoots, relative);
    lowers := [];
    var i := 0;
    while i < |moduleRoots|
      invariant 0 <= i <= |moduleRoots|
      invariant lowers == Filter(candidates[..i], present)
    {
      assert Init(candidates[..i + 1]) == candidates[..i];
      var lowerDir := moduleRoots[i] + relative;
      if present(lowerDir) {
        lowers := lowers + [lowerDir];
      }
      i := i + 1;
    }
    assert candidates[..i] == candidates;
  }

  /** What `mount_overlay_on_path` did: nothing when no module has the path,
      an overlay with the given lower directories and mount data, or a bind
      mount of the stock directory after the overlay failed. */
  datatype OnPathOutcome =
    | NoModuleFiles
    | Overlaid(lowerDirs: seq<string>, data: string)
    | StockBound(lowerDirs: seq<string>)

  datatype OnPathError = BindFailed

  /** `mount_overlay_on_path` given whether the overlay and the fallback bind
      mount succeed: only a failed fallback is an error. */
  function OnPathResult(moduleRoots: seq<string>, relative: string, stockRoot: string, present: string -> bool,
                        overlayMounted: bool, bindMounted: bool): (r: Result<OnPathOutcome, OnPathError>)
    ensures r == Ok(NoModuleFiles) <==> forall i :: 0 <= i < |moduleRoots| ==> !present(moduleRoots[i] + relative)
    ensures r.Err? <==>
      (exists i :: 0 <= i < |moduleRoots| && present(moduleRoots[i] + relative)) && !overlayMounted && !bindMounted
    ensures r.Ok? && !r.value.NoModuleFiles? ==>
      r.value.lowerDirs == ExistingLowers(moduleRoots, relative, present) && r.value.lowerDirs != []
      && (r.value.Overlaid? <==> overlayMounted)
    ensures r.Ok? && r.value.Overlaid? ==> r.value.data == LegacyData(r.value.lowerDirs, stockRoot, None, None)
  {
    var lowers := ExistingLowers(moduleRoots, relative, present);
    if lowers == [] then Ok(NoModuleFiles)
    else
      assert lowers[0] in lowers;
      if overlayMounted then Ok(Overlaid(lowers, LegacyData(lowers, stockRoot, None, None)))
      else if bindMounted then Ok(StockBound(lowers))
      else Err(BindFailed)
  }

  /** `mount_overlay_on_path`: the early return when no module copy exists,
      the collecting loop, the overlay mount and its bind-mount fallback. */
  method MountOnPath(moduleRoots: seq<string>, relative: string, stockRoot: string, present: string -> bool,
                     overlayMounted: bool, bindMounted: bool) returns (r: Result<OnPathOutcome, OnPathError>)
    ensures r == OnPathResult(moduleRoots, relative, stockRoot, present, overlayMounted, bindMounted)
  {
    var candidates := OverlayFs.Candidates(moduleRoots, relative);
    var any := FirstMatch(candidates, present);
    if any.None? {
      return Ok(NoModuleFiles);
    }
    var lowers := CollectExistingLowers(moduleRoots, relative, present);
    assert candidates[any.value] in lowers;
    if overlayMounted {
      return Ok(Overlaid(lowers, LegacyData(lowers, stockRoot, None, None)));
    }
    if bindMounted {
      return Ok(StockBound(lowers));
    }
    return Err(BindFailed);
  }

  // -------------------------------------------------------- top-level pass

  datatype FileKind = Directory | Symlink | OtherFile

  /** A directory entry; `kind` is None when its type could not be read. */
  datatype DirEntry = DirEntry(name: string, kind: Option<FileKind>)

  /** An entry the top-level pass hands on: readable, a directory and not a
      symlink to one, not lost+found, and not itself a mount point. */
  predicate TopLevelCandidate(entry: Option<DirEntry>, target: string, mountPoints: seq<string>) {
    entry.Some? && entry.value.name != "lost+found" && entry.value.kind == Some(Directory)
    && !Paths.ContainsPath(mountPoints, Paths.Join(target, entry.value.name))
  }

  /** A top-level child handed to `mount_overlay_on_path`, with the outcome
      that is only logged. */
  datatype TopChild = TopChild(name: string, targetPath: string, outcome: Result<OnPathOutcome, OnPathError>)

  /** The call for top-level child `name`: relative path "/name", stock copy
      "./name" below the target, which is the current directory. */
  function TopChildFor(name: string, target: string, moduleRoots: seq<string>, present: string -> bool,
                       overlayMounted: string -> bool, bindMounted: string -> bool): TopChild {
    var targetPath := Paths.Join(target, name);
    TopChild(name, targetPath, OnPathResult(moduleRoots, "/" + name, Paths.Join(".", name), present,
                                            overlayMounted(targetPath), bindMounted(targetPath)))
  }

  /** What the top-level pass does with one entry: the call made, if any. */
  function TopStep(target: string, mountPoints: seq<string>, moduleRoots: seq<string>, present: string -> bool,
                   overlayMounted: string -> bool, bindMounted: string -> bool): Option<DirEntry> -> Option<TopChild> {
    e => if TopLevelCandidate(e, target, mountPoints)
         then Some(TopChildFor(e.value.name, target, moduleRoots, present, overlayMounted, bindMounted))
         else None
  }

  /** The top-level pass over the listing: one call per candidate entry, in
      listing order; every candidate is handed on and nothing else is. */
  function TopPassRun(entries: seq<Option<DirEntry>>, target: string, mountPoints: seq<string>, moduleRoots: seq<string>,
                      present: string -> bool, overlayMounted: string -> bool, bindMounted: string -> bool)
    : (r: seq<TopChild>)
    ensures |r| <= |entries|
    ensures forall c :: c in r ==> exists i :: (0 <= i < |entries| && TopLevelCandidate(entries[i], target, mountPoints)
      && c == TopChildFor(entries[i].value.name, target, moduleRoots, present, overlayMounted, bindMounted))
    ensures forall i :: 0 <= i < |entries| && TopLevelCandidate(entries[i], target, mountPoints) ==>
      TopChildFor(entries[i].value.name, target, moduleRoots, present, overlayMounted, bindMounted) in r
  {
    FilterMap(entries, TopStep(target, mountPoints, moduleRoots, present, overlayMounted, bindMounted))
  }

  /** The loop over `read_dir(".")` that skips unreadable entries, lost+found,
      non-directories and mount points, and mounts the rest one by one. */
  method TopPass(entries: seq<Option<DirEntry>>, target: string, mountPoints: seq<string>, moduleRoots: seq<string>,
                 present: string -> bool, overlayMounted: string -> bool, bindMounted: string -> bool)
    returns (handled: seq<TopChild>)
    ensures handled == TopPassRun(entries, target, mountPoints, moduleRoots, present, overlayMounted, bindMounted)
  {
    ghost var step := TopStep(target, mountPoints, moduleRoots, present, overlayMounted, bindMounted);
    handled := [];
    var i := 0;
    while i < |entries|
      invariant 0 <= i <= |entries|
      invariant handled == FilterMap(entries[..i], step)
    {
      assert Init(entries[..i + 1]) == entries[..i];
      var entry := entries[i];
      if entry.Some? && entry.value.name != "lost+found" && entry.value.kind == Some(Directory) {
        var name := entry.value.name;
        var targetPath := Paths.Join(target, name);
        if !Paths.ContainsPath(mountPoints, targetPath) {
          var outcome := MountOnPath(moduleRoots, "/" + name, Paths.Join(".", name), present,
                                     overlayMounted(targetPath), bindMounted(targetPath));
          handled := handled + [TopChild(name, targetPath, outcome)];
        }
      }
      i := i + 1;
    }
    assert entries[..i] == entries;
  }

  // ------------------------------------------------------- descendant pass

  /** The skip test of the descendant loop as written: the text of the first
      component of `relative` with its leading '/'s trimmed is taken as the
      top-level child, which is skipped when it is lost+found or a mount point. */
  function SkipAsWritten(target: string, relative: string, mountPoints: seq<string>): bool {
    var comps := Paths.Components(relative);
    if comps == [] then false
    else
      var cleanName := TrimStartChar(Paths.AsStr(comps[0]), '/');
      cleanName == "lost+found" || Paths.ContainsPath(mountPoints, Paths.Join(target, cleanName))
  }

  /** The relative path of every mount point below the target starts with '/',
      so its first component is the root: the name tested is always empty, the
      child tested is the target itself, and the test skips every descendant
      exactly when the target is a mount point. */
  lemma SkipAsWrittenTestsTarget(target: string, relative: string, mountPoints: seq<string>)
    requires StartsWith(relative, "/")
    ensures SkipAsWritten(target, relative, mountPoints) <==> Paths.ContainsPath(mountPoints, target)
  {
    Paths.FirstComponentOfSlashed(relative);
    Paths.JoinEmptySamePath(target);
  }

  /** A mount point `target/name/rest` has the relative path "/name/rest". */
  lemma RelativeOfDescendant(target: string, name: string, rest: string)
    ensures OverlayFs.RelativeTo(target + "/" + name + rest, target) == "/" + name + rest
  {
    var m := target + "/" + name + rest;
    assert StartsWith(m, target);
    RemoveLeadingOccurrence(m, target);
    assert m[|target|..] == "/" + name + rest;
  }

  /** As written, a mount point below lost+found is not excluded when the
      target is not a mount point, and a mount point below any child, even one
      that is not a mount point, is skipped when the target is one. */
  lemma SkipAsWrittenIgnoresChild(target: string, name: string, rest: string, mountPoints: seq<string>)
    ensures var relative := OverlayFs.RelativeTo(target + "/" + name + rest, target);
      SkipAsWritten(target, relative, mountPoints) <==> Paths.ContainsPath(mountPoints, target)
  {
    RelativeOfDescendant(target, name, rest);
    SkipAsWrittenTestsTarget(target, "/" + name + rest, mountPoints);
  }

  /** The top-level child a relative path lies under: its first named segment. */
  function TopLevelName(relative: string): Option<string> {
    var segs := Paths.Segments(relative);
    if segs == [] then None else Some(segs[0])
  }

  /** The skip test as intended: the descendant's top-level child is skipped
      when it is lost+found or itself a mount point. */
  function SkipCorrected(target: string, relative: string, mountPoints: seq<string>): bool {
    match TopLevelName(relative)
    case None => false
    case Some(name) => name == "lost+found" || Paths.ContainsPath(mountPoints, Paths.Join(target, name))
  }

  /** A mount point `target/name/rest` is skipped exactly when its top-level
      child `name` is one the top-level pass passes over by name: lost+found,
      or a mount point itself; whether the target is a mount point plays no part. */
  lemma SkipCorrectedTestsTopLevelChild(target: string, name: string, rest: string, mountPoints: seq<string>)
    requires name != [] && name != "." && '/' !in name
    requires rest == [] || StartsWith(rest, "/")
    ensures var relative := OverlayFs.RelativeTo(target + "/" + name + rest, target);
      SkipCorrected(target, relative, mountPoints) <==>
        name == "lost+found" || Paths.ContainsPath(mountPoints, Paths.Join(target, name))
  {
    RelativeOfDescendant(target, name, rest);
    Paths.FirstSegmentOfChild(name, rest);
  }

  /** The two tests disagree on the inputs the finding names: below a target
      that is a mount point, a child that is not one is skipped as written but
      walked by the corrected test; below a target that is not a mount point,
      lost+found is walked as written but skipped by the corrected test. */
  lemma SkipAsWrittenDisagrees(target: string, name: string, rest: string, mountPoints: seq<string>)
    requires name != [] && name != "." && '/' !in name
    requires rest == [] || StartsWith(rest, "/")
    ensures var relative := OverlayFs.RelativeTo(target + "/" + name + rest, target);
      && (Paths.ContainsPath(mountPoints, target) && name != "lost+found"
          && !Paths.ContainsPath(mountPoints, Paths.Join(target, name)) ==>
            SkipAsWritten(target, relative, mountPoints) && !SkipCorrected(target, relative, mountPoints))
      && (!Paths.ContainsPath(mountPoints, target) && name == "lost+found" ==>
            !SkipAsWritten(target, relative, mountPoints) && SkipCorrected(target, relative, mountPoints))
  {
    SkipAsWrittenIgnoresChild(target, name, rest, mountPoints);
    SkipCorrectedTestsTopLevelChild(target, name, rest, mountPoints);
  }

  /** The skip test of the descendant loop, taken as a parameter so the walk
      can be run with the test as written (`SkipAsWritten`) or as intended
      (`SkipCorrected`). */
  type SkipTest = (string, string, seq<string>) -> bool

  /** What the descendant loop does with one mount point: skip it by the skip
      test or when its stock copy is missing, otherwise mount it on its path,
      which succeeds or fails. */
  function DescendantStepAt(m: string, target: string, mountPoints: seq<string>, moduleRoots: seq<string>,
                            present: string -> bool, overlayMounted: string -> bool, bindMounted: string -> bool,
                            skip: SkipTest)
    : (s: OverlayFs.Step)
    ensures var relative := OverlayFs.RelativeTo(m, target);
      && (s == OverlayFs.Skipped <==> skip(target, relative, mountPoints) || !present("." + relative))
      && (s == OverlayFs.Failed <==> (!skip(target, relative, mountPoints) && present("." + relative)
           && OnPathResult(moduleRoots, relative, "." + relative, present, overlayMounted(m), bindMounted(m)).Err?))
  {
    var relative := OverlayFs.RelativeTo(m, target);
    if skip(target, relative, mountPoints) || !present("." + relative) then OverlayFs.Skipped
    else if OnPathResult(moduleRoots, relative, "." + relative, present, overlayMounted(m), bindMounted(m)).Ok? then OverlayFs.Handled
    else OverlayFs.Failed
  }

  function DescendantStep(target: string, mountPoints: seq<string>, moduleRoots: seq<string>,
                          present: string -> bool, overlayMounted: string -> bool, bindMounted: string -> bool,
                          skip: SkipTest)
    : string -> OverlayFs.Step {
    m => DescendantStepAt(m, target, mountPoints, moduleRoots, present, overlayMounted, bindMounted, skip)
  }

  // --------------------------------------------------------- mount_overlay

  /** The run's record: the top-level calls, and the descendants mounted. */
  datatype LegacyRun = LegacyRun(topChildren: seq<TopChild>, descendants: seq<string>)

  /** The mount table could not be read; the target could not be entered or
      listed; or a descendant failed, after which the target is unmounted
      unless unmounting is disabled (the unmount's own result is ignored). */
  datatype LegacyError = MountInfoFailed | ReadDirFailed | ChildFailed(mountPoint: string, unmountAttempted: bool)

  /** `mount_overlay` for one target, with the descendant loop's skip test as
      a parameter. */
  function MountOverlayResult(target: string, mountInfo: Option<seq<string>>, entries: Option<seq<Option<DirEntry>>>,
                              moduleRoots: seq<string>, present: string -> bool, overlayMounted: string -> bool,
                              bindMounted: string -> bool, disableUmount: bool, skip: SkipTest)
    : (r: Result<LegacyRun, LegacyError>)
    ensures mountInfo.None? ==> r == Err(MountInfoFailed)
    ensures mountInfo.Some? && entries.None? ==> r == Err(ReadDirFailed)
    ensures r.Ok? ==> (mountInfo.Some? && entries.Some?
      && r.value.topChildren == TopPassRun(entries.value, target, mountInfo.value, moduleRoots, present, overlayMounted, bindMounted)
      && IsSubsequence(r.value.descendants, OverlayFs.DescendantMountPoints(mountInfo.value, target))
      && (forall m :: m in r.value.descendants <==>
           m in mountInfo.value && Paths.StrictlyBelow(m, target)
           && DescendantStepAt(m, target, mountInfo.value, moduleRoots, present, overlayMounted, bindMounted, skip) == OverlayFs.Handled)
      && (forall m :: m in mountInfo.value && Paths.StrictlyBelow(m, target) ==>
           DescendantStepAt(m, target, mountInfo.value, moduleRoots, present, overlayMounted, bindMounted, skip) != OverlayFs.Failed))
    ensures r.Err? && r.error.ChildFailed? ==> (mountInfo.Some? && entries.Some?
      && r.error.mountPoint in mountInfo.value && Paths.StrictlyBelow(r.error.mountPoint, target)
      && DescendantStepAt(r.error.mountPoint, target, mountInfo.value, moduleRoots, present, overlayMounted, bindMounted, skip) == OverlayFs.Failed
      && r.error.unmountAttempted == !disableUmount
      && var descendants := OverlayFs.DescendantMountPoints(mountInfo.value, target);
         exists i :: OverlayFs.FirstFailure(descendants, DescendantStep(target, mountInfo.value, moduleRoots, present, overlayMounted, bindMounted, skip), i)
           && descendants[i] == r.error.mountPoint)
  {
    match (mountInfo, entries)
    case (None, _) => Err(MountInfoFailed)
    case (Some(_), None) => Err(ReadDirFailed)
    case (Some(points), Some(listing)) =>
      var top := TopPassRun(listing, target, points, moduleRoots, present, overlayMounted, bindMounted);
      var descendants := OverlayFs.DescendantMountPoints(points, target);
      var step := DescendantStep(target, points, moduleRoots, present, overlayMounted, bindMounted, skip);
      match OverlayFs.DescendantRun(descendants, step)
      case Ok(done) =>
        assert forall m :: m in descendants ==> step(m) != OverlayFs.Failed;
        Ok(LegacyRun(top, done))
      case Err(m) =>
        var i :| OverlayFs.FirstFailure(descendants, step, i) && descendants[i] == m;
        Err(ChildFailed(m, !disableUmount))
  }

  /** As written, below a target that is itself a mount point the descendant
      loop mounts nothing: every descendant is skipped, whatever its top-level
      child. (Mount points below the target are assumed to be spelled as the
      target followed by '/'.) */
  lemma AsWrittenMountsNoDescendantBelowMountedTarget(target: string, points: seq<string>, listing: seq<Option<DirEntry>>,
                                                     moduleRoots: seq<string>, present: string -> bool,
                                                     overlayMounted: string -> bool, bindMounted: string -> bool,
                                                     disableUmount: bool)
    requires Paths.ContainsPath(points, target)
    requires forall m :: m in points && Paths.StrictlyBelow(m, target) ==> StartsWith(m, target + "/")
    ensures MountOverlayResult(target, Some(points), Some(listing), moduleRoots, present, overlayMounted, bindMounted,
                               disableUmount, SkipAsWritten)
      == Ok(LegacyRun(TopPassRun(listing, target, points, moduleRoots, present, overlayMounted, bindMounted), []))
  {
    var step := DescendantStep(target, points, moduleRoots, present, overlayMounted, bindMounted, SkipAsWritten);
    var descendants := OverlayFs.DescendantMountPoints(points, target);
    forall m | m in descendants
      ensures step(m) == OverlayFs.Skipped
    {
      SkippedAsWrittenBelowMountedTarget(target, m, points);
    }
    OverlayFs.DescendantRunAllSkipped(descendants, step);
  }

  /** One descendant below a mounted target is skipped by the test as written. */
  lemma SkippedAsWrittenBelowMountedTarget(target: string, m: string, points: seq<string>)
    requires Paths.ContainsPath(points, target)
    requires StartsWith(m, target + "/")
    ensures SkipAsWritten(target, OverlayFs.RelativeTo(m, target), points)
  {
    assert m[..|target|] == (target + "/")[..|target|] == target;
    RemoveLeadingOccurrence(m, target);
    var relative := m[|target|..];
    assert relative[..1] == (target + "/")[|target|..] == "/";
    SkipAsWrittenTestsTarget(target, relative, points);
  }

  /** `mount_overlay`: the top-level pass, then the loop over the mount points
      below the target in sorted order, stopping at the first failure. */
  method MountOverlay(target: string, mountInfo: Option<seq<string>>, entries: Option<seq<Option<DirEntry>>>,
                      moduleRoots: seq<string>, present: string -> bool, overlayMounted: string -> bool,
                      bindMounted: string -> bool, disableUmount: bool, skip: SkipTest)
    returns (r: Result<LegacyRun, LegacyError>)
    ensures r == MountOverlayResult(target, mountInfo, entries, moduleRoots, present, overlayMounted, bindMounted, disableUmount, skip)
  {
    if mountInfo.None? {
      return Err(MountInfoFailed);
    }
    var points := mountInfo.value;
    if entries.None? {
      return Err(ReadDirFailed);
    }
    var top := TopPass(entries.value, target, points, moduleRoots, present, overlayMounted, bindMounted);
    var mountSeq := OverlayFs.DescendantMountPoints(points, target);
    var step := DescendantStep(target, points, moduleRoots, present, overlayMounted, bindMounted, skip);
    var done: seq<string> := [];
    var i := 0;
    while i < |mountSeq|
      invariant 0 <= i <= |mountSeq|
      invariant OverlayFs.DescendantRun(mountSeq[..i], step) == Ok(done)
    {
      var mountPoint := mountSeq[i];
      OverlayFs.DescendantRunStep(mountSeq, i, step);
      var relative := OverlayFs.RelativeTo(mountPoint, target);
      var childStockRoot := "." + relative;
      if !skip(target, relative, points) && present(childStockRoot) {
        var outcome := MountOnPath(moduleRoots, relative, childStockRoot, present,
                                   overlayMounted(mountPoint), bindMounted(mountPoint));
        if outcome.Err? {
          assert step(mountPoint) == OverlayFs.Failed;
          OverlayFs.DescendantRunStopsAtFailure(mountSeq, i + 1, step);
          return Err(ChildFailed(mountPoint, !disableUmount));
        }
        assert step(mountPoint) == OverlayFs.Handled;
        done := done + [mountPoint];
      } else {
        assert step(mountPoint) == OverlayFs.Skipped;
      }
      i := i + 1;
    }
    assert mountSeq[..i] == mountSeq;
    r := Ok(LegacyRun(top, done));
  }
}
