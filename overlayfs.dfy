/** The overlayfs mounter: folding more lower layers than one overlay mount
    takes into staging mounts, the option strings handed to the kernel, the
    decision taken for each child mount point, and the walk over the mount
    points below a partition root. The file system is a snapshot function from
    a path to what is there; every mount call is an outcome passed in; the
    staging directory names, which come from the clock, are a parameter. */
module OverlayFs {
  import opened Wrappers
  import opened Strings
  import opened Seqs
  import opened Ordering
  import Paths
  import OverlayUtils

  /** The most lower layers a single overlay mount is given. */
  const MAX_LAYERS: nat := 64

  // ---------------------------------------------------------------- folding

  /** The layer folding: while more than MAX_LAYERS layers remain, the bottom
      MAX_LAYERS - 1 are mounted together on a staging directory, which takes
      their place at the bottom. `staging(k)` names the directory of pass k.
      The result is the staged chunks in pass order and the final layers. */
  function FoldLayers(layers: seq<string>, staging: nat -> string, pass: nat): (r: (seq<seq<string>>, seq<string>))
    ensures |r.1| <= MAX_LAYERS
    ensures |layers| <= MAX_LAYERS ==> r == ([], layers)
    ensures |layers| > MAX_LAYERS ==> r.0 != []
    decreases |layers|
  {
    if |layers| <= MAX_LAYERS then ([], layers)
    else
      var split := |layers| - (MAX_LAYERS - 1);
      var rest := FoldLayers(layers[..split] + [staging(pass)], staging, pass + 1);
      ([layers[split..]] + rest.0, rest.1)
  }

  /** Every staged chunk holds MAX_LAYERS - 1 layers, so each pass removes
      MAX_LAYERS - 2 from the list; more than MAX_LAYERS layers leave at least
      three on top. */
  lemma {:induction false} FoldSizes(layers: seq<string>, staging: nat -> string, pass: nat)
    ensures var r := FoldLayers(layers, staging, pass);
      && (forall k :: 0 <= k < |r.0| ==> |r.0[k]| == MAX_LAYERS - 1)
      && (MAX_LAYERS - 2) * |r.0| + |r.1| == |layers|
      && (|layers| > MAX_LAYERS ==> 3 <= |r.1|)
    decreases |layers|
  {
    if |layers| > MAX_LAYERS {
      var split := |layers| - (MAX_LAYERS - 1);
      var next := layers[..split] + [staging(pass)];
      FoldSizes(next, staging, pass + 1);
      var rest := FoldLayers(next, staging, pass + 1);
      var r := FoldLayers(layers, staging, pass);
      assert r == ([layers[split..]] + rest.0, rest.1);
      assert forall k :: 1 <= k < |r.0| ==> r.0[k] == rest.0[k - 1];
    }
  }

  /** The first chunk staged is the bottom MAX_LAYERS - 1 layers; the final
      layers are the top of the original list, in order, with the last staging
      directory below them. */
  lemma {:induction false} FoldKeepsTopInOrder(layers: seq<string>, staging: nat -> string, pass: nat)
    requires |layers| > MAX_LAYERS
    ensures 3 <= |FoldLayers(layers, staging, pass).1|
    ensures var r := FoldLayers(layers, staging, pass);
      && r.0[0] == layers[|layers| - (MAX_LAYERS - 1)..]
      && r.1[..|r.1| - 1] == layers[..|r.1| - 1]
      && r.1[|r.1| - 1] == staging(pass + |r.0| - 1)
    decreases |layers|
  {
    var split := |layers| - (MAX_LAYERS - 1);
    var next := layers[..split] + [staging(pass)];
    var rest := FoldLayers(next, staging, pass + 1);
    var r := FoldLayers(layers, staging, pass);
    FoldSizes(layers, staging, pass);
    assert r == ([layers[split..]] + rest.0, rest.1);
    if |next| > MAX_LAYERS {
      FoldKeepsTopInOrder(next, staging, pass + 1);
      assert next[..|rest.1| - 1] == layers[..|rest.1| - 1];
    } else {
      assert rest.1 == next;
    }
  }

  /** Each later chunk ends with the staging directory of the pass before it:
      the staged mounts nest. */
  lemma {:induction false} ChunksNest(layers: seq<string>, staging: nat -> string, pass: nat, k: nat)
    requires 0 < k < |FoldLayers(layers, staging, pass).0|
    ensures |FoldLayers(layers, staging, pass).0[k]| == MAX_LAYERS - 1
    ensures var chunk := FoldLayers(layers, staging, pass).0[k];
      chunk[|chunk| - 1] == staging(pass + k - 1)
    decreases |layers|
  {
    FoldSizes(layers, staging, pass);
    var split := |layers| - (MAX_LAYERS - 1);
    var next := layers[..split] + [staging(pass)];
    if k > 1 {
      ChunksNest(next, staging, pass + 1, k - 1);
    } else {
      var chunk := FoldLayers(next, staging, pass + 1).0[0];
      assert chunk == next[|next| - (MAX_LAYERS - 1)..];
    }
  }

  /** One pass of the folding, unfolded. */
  lemma FoldStep(layers: seq<string>, staging: nat -> string, pass: nat)
    requires |layers| > MAX_LAYERS
    ensures var split := |layers| - (MAX_LAYERS - 1);
      var rest := FoldLayers(layers[..split] + [staging(pass)], staging, pass + 1);
      FoldLayers(layers, staging, pass) == ([layers[split..]] + rest.0, rest.1)
  {
  }

  datatype Folded = Folded(chunks: seq<seq<string>>, top: seq<string>)

  datatype FoldError = StagingFailed(pass: nat) | FinalMountFailed

  /** The staging loop of `mount_overlayfs`: each pass drains the bottom chunk,
      mounts it on its staging directory and pushes that directory, until at
      most MAX_LAYERS layers remain or a staging mount fails. `stagingMounted(k)`
      is the outcome of pass k's mount. */
  method StageLayers(layers0: seq<string>, staging: nat -> string, stagingMounted: nat -> bool)
    returns (chunks: seq<seq<string>>, layers: seq<string>, pass: nat)
    ensures |chunks| == pass
    ensures forall k :: 0 <= k < pass ==> stagingMounted(k)
    ensures |layers| <= MAX_LAYERS ==> FoldLayers(layers0, staging, 0) == (chunks, layers)
    ensures |layers| > MAX_LAYERS ==> !stagingMounted(pass) && pass < |FoldLayers(layers0, staging, 0).0|
  {
    layers := layers0;
    chunks := [];
    pass := 0;
    ghost var whole := FoldLayers(layers0, staging, 0);
    ghost var rest := whole;
    assert [] + rest.0 == rest.0;
    while |layers| > MAX_LAYERS && stagingMounted(pass)
      invariant |chunks| == pass
      invariant rest == FoldLayers(layers, staging, pass)
      invariant whole == (chunks + rest.0, rest.1)
      invariant forall k :: 0 <= k < pass ==> stagingMounted(k)
      decreases |layers|
    {
      var split := |layers| - (MAX_LAYERS - 1);
      var bottom := layers[split..];
      FoldStep(layers, staging, pass);
      var next := layers[..split] + [staging(pass)];
      ghost var rest' := FoldLayers(next, staging, pass + 1);
      assert rest.0 == [bottom] + rest'.0;
      assert chunks + rest.0 == (chunks + [bottom]) + rest'.0;
      layers := next;
      chunks := chunks + [bottom];
      pass := pass + 1;
      rest := rest';
    }
    if |layers| > MAX_LAYERS {
      assert |whole.0| == |chunks| + |rest.0|;
    } else {
      assert rest == ([], layers);
      assert chunks + [] == chunks;
      assert whole == (chunks, layers);
    }
  }

  /** `mount_overlayfs`: the layers are the lower directories followed by the
      lowest; after the staging passes, a failed staging mount ends the call,
      and otherwise the remaining layers are mounted, with outcome
      `finalMounted`. */
  method MountOverlayfs(lowerDirs: seq<string>, lowest: string, staging: nat -> string,
                        stagingMounted: nat -> bool, finalMounted: bool)
    returns (r: Result<Folded, FoldError>)
    ensures r.Ok? <==> (forall k :: 0 <= k < |FoldLayers(lowerDirs + [lowest], staging, 0).0| ==> stagingMounted(k))
                       && finalMounted
    ensures r.Ok? ==> r.value == Folded(FoldLayers(lowerDirs + [lowest], staging, 0).0,
                                        FoldLayers(lowerDirs + [lowest], staging, 0).1)
    ensures r.Err? && r.error.StagingFailed? ==>
      r.error.pass < |FoldLayers(lowerDirs + [lowest], staging, 0).0| && !stagingMounted(r.error.pass)
      && forall k :: 0 <= k < r.error.pass ==> stagingMounted(k)
  {
    var chunks, layers, pass := StageLayers(lowerDirs + [lowest], staging, stagingMounted);
    if |layers| > MAX_LAYERS {
      return Err(StagingFailed(pass));
    }
    if !finalMounted {
      return Err(FinalMountFailed);
    }
    r := Ok(Folded(chunks, layers));
  }

  // --------------------------------------------------------- option strings

  /** `replace(',', "\\,")`: every comma gets a backslash in front. */
  function EscapeCommas(s: string): (r: string)
    ensures r == [] || r[0] != ','
    ensures |r| == |s| + Count(s, (c: char) => c == ',')
  {
    if s == [] then []
    else (if s[0] == ',' then "\\," else [s[0]]) + EscapeCommas(s[1..])
  }

  /** Reads an escaped comma back as a comma and leaves everything else. */
  function UnescapeCommas(s: string): string {
    if s == [] then []
    else if |s| >= 2 && s[0] == '\\' && s[1] == ',' then [','] + UnescapeCommas(s[2..])
    else [s[0]] + UnescapeCommas(s[1..])
  }

  lemma {:induction false} EscapeCommasRoundTrip(s: string)
    ensures UnescapeCommas(EscapeCommas(s)) == s
  {
    if s != [] {
      var e := EscapeCommas(s);
      var rest := EscapeCommas(s[1..]);
      EscapeCommasRoundTrip(s[1..]);
      if s[0] == ',' {
        assert e == "\\," + rest && e[2..] == rest;
      } else {
        assert e == [s[0]] + rest && e[1..] == rest;
      }
      assert s == [s[0]] + s[1..];
    }
  }

  /** Every comma in `s` is preceded by a backslash. */
  predicate CommasEscaped(s: string) {
    forall i :: 0 <= i < |s| && s[i] == ',' ==> i > 0 && s[i - 1] == '\\'
  }

  lemma {:induction false} EscapeCommasGuardsEveryComma(s: string)
    ensures CommasEscaped(EscapeCommas(s))
  {
    if s != [] {
      EscapeCommasGuardsEveryComma(s[1..]);
      var head := if s[0] == ',' then "\\," else [s[0]];
      var e := EscapeCommas(s);
      assert e == head + EscapeCommas(s[1..]);
      forall i | 0 <= i < |e| && e[i] == ','
        ensures i > 0 && e[i - 1] == '\\'
      {
        if i >= |head| {
          assert e[i] == EscapeCommas(s[1..])[i - |head|];
          if i == |head| {
            assert false;
          }
        }
      }
    }
  }

  /** The data string of the legacy mount(2) fallback: the escaped lowerdir
      list, then the escaped upper and work directories only as a pair. */
  function FallbackData(lowerdirConfig: string, upperdir: Option<string>, workdir: Option<string>): (r: string)
    ensures StartsWith(r, "lowerdir=" + EscapeCommas(lowerdirConfig))
    ensures !(upperdir.Some? && workdir.Some?) ==> r == "lowerdir=" + EscapeCommas(lowerdirConfig)
    ensures upperdir.Some? && workdir.Some? ==>
      r == "lowerdir=" + EscapeCommas(lowerdirConfig) + ",upperdir=" + EscapeCommas(upperdir.value)
           + ",workdir=" + EscapeCommas(workdir.value)
  {
    var data := "lowerdir=" + EscapeCommas(lowerdirConfig);
    if upperdir.Some? && workdir.Some? then
      data + ",upperdir=" + EscapeCommas(upperdir.value) + ",workdir=" + EscapeCommas(workdir.value)
    else data
  }

  /** Without a complete upper/work pair the fallback data carries only the
      layer list, which reads back to the colon-joined layers. */
  lemma FallbackLowerReadsBack(layers: seq<string>, upperdir: Option<string>, workdir: Option<string>)
    requires !(upperdir.Some? && workdir.Some?)
    ensures var data := FallbackData(Join(layers, ':'), upperdir, workdir);
      StartsWith(data, "lowerdir=") && UnescapeCommas(data[9..]) == Join(layers, ':')
  {
    var data := FallbackData(Join(layers, ':'), upperdir, workdir);
    assert data[9..] == EscapeCommas(Join(layers, ':'));
    EscapeCommasRoundTrip(Join(layers, ':'));
  }

  /** `Option::filter(present)`: a directory is passed on only if it exists. */
  function IfExists(dir: Option<string>, present: string -> bool): (r: Option<string>)
    ensures r.Some? <==> dir.Some? && present(dir.value)
    ensures r.Some? ==> r.value == dir.value
  {
    if dir.Some? && present(dir.value) then dir else None
  }

  /** One attempt to mount: through the new mount API with its parameters, or
      through mount(2) with a data string. */
  datatype MountCall = NewMountApi(params: seq<(string, string)>) | LegacyMount(source: string, data: string)

  /** `mount_overlay_core`: the calls made, in order. The new API comes first;
      only when it fails is mount(2) tried with the fallback data. */
  function CoreCalls(layers: seq<string>, upperdir: Option<string>, workdir: Option<string>,
                     present: string -> bool, source: string, newApiSucceeded: bool): (r: seq<MountCall>)
    ensures |r| == if newApiSucceeded then 1 else 2
    ensures r[0].NewMountApi?
    ensures !newApiSucceeded ==> r[1].LegacyMount? && r[1].source == source
  {
    var up := IfExists(upperdir, present);
    var work := IfExists(workdir, present);
    var first := NewMountApi(OverlayUtils.FsParameters(up, work, Join(layers, ':'), source));
    if newApiSucceeded then [first]
    else [first, LegacyMount(source, FallbackData(Join(layers, ':'), up, work))]
  }

  /** The upper and work directories reach either call only when both are given
      and both exist; otherwise each call names the layers alone. */
  lemma CoreUsesUpperOnlyWhenBothExist(layers: seq<string>, upperdir: Option<string>, workdir: Option<string>,
                                       present: string -> bool, source: string, newApiSucceeded: bool)
    ensures var calls := CoreCalls(layers, upperdir, workdir, present, source, newApiSucceeded);
      var both := upperdir.Some? && workdir.Some? && present(upperdir.value) && present(workdir.value);
      && (|calls[0].params| == 4 <==> both)
      && (!both ==> calls[0].params == [("lowerdir", Join(layers, ':')), ("source", source)])
      && (!both && !newApiSucceeded ==> calls[1].data == "lowerdir=" + EscapeCommas(Join(layers, ':')))
  {
  }

  // ----------------------------------------------------------- child mounts

  /** What a path names in the file system snapshot. */
  datatype Entry = Dir | NonDir

  /** `root + relative` for every module root, in order. */
  function Candidates(moduleRoots: seq<string>, relative: string): (r: seq<string>)
    ensures |r| == |moduleRoots|
    ensures forall i :: 0 <= i < |r| ==> r[i] == moduleRoots[i] + relative
  {
    seq(|moduleRoots|, i requires 0 <= i < |moduleRoots| => moduleRoots[i] + relative)
  }

  /** The lower directories of a child mount: every candidate that is a
      directory, in module order; None when some candidate exists but is not a
      directory, which abandons the child. */
  function ChildLowers(moduleRoots: seq<string>, relative: string, fs: string -> Option<Entry>)
    : (r: Option<seq<string>>)
    ensures r.None? <==> exists i :: 0 <= i < |moduleRoots| && fs(moduleRoots[i] + relative) == Some(NonDir)
    ensures r.Some? ==> forall x :: x in r.value <==>
      exists i :: 0 <= i < |moduleRoots| && x == moduleRoots[i] + relative && fs(x) == Some(Dir)
    ensures r.Some? ==> IsSubsequence(r.value, Candidates(moduleRoots, relative))
    decreases |moduleRoots|
  {
    if moduleRoots == [] then Some([])
    else
      var path := Last(moduleRoots) + relative;
      match ChildLowers(Init(moduleRoots), relative, fs)
      case None =>
        ChildLowersAbandoned(moduleRoots, relative, fs);
        None
      case Some(lowers) =>
        if fs(path) == Some(NonDir) then
          ChildLowersAbandoned(moduleRoots, relative, fs);
          None
        else
          var extended := if fs(path) == Some(Dir) then lowers + [path] else lowers;
          ChildLowersExtend(moduleRoots, relative, fs, lowers, extended);
          Some(extended)
  }

  /** A candidate that is not a directory among all but the last root, or the
      last one, is one among all the roots. */
  lemma ChildLowersAbandoned(moduleRoots: seq<string>, relative: string, fs: string -> Option<Entry>)
    requires moduleRoots != []
    requires (exists i :: 0 <= i < |Init(moduleRoots)| && fs(Init(moduleRoots)[i] + relative) == Some(NonDir))
      || fs(Last(moduleRoots) + relative) == Some(NonDir)
    ensures exists i :: 0 <= i < |moduleRoots| && fs(moduleRoots[i] + relative) == Some(NonDir)
  {
    if fs(Last(moduleRoots) + relative) == Some(NonDir) {
      assert fs(moduleRoots[|moduleRoots| - 1] + relative) == Some(NonDir);
    } else {
      var i :| 0 <= i < |Init(moduleRoots)| && fs(Init(moduleRoots)[i] + relative) == Some(NonDir);
      assert moduleRoots[i] == Init(moduleRoots)[i];
    }
  }

  /** The step of `ChildLowers`: the lower directories of all but the last root,
      extended by the last candidate when that one is a directory. */
  lemma ChildLowersExtend(moduleRoots: seq<string>, relative: string, fs: string -> Option<Entry>,
                          lowers: seq<string>, extended: seq<string>)
    requires moduleRoots != []
    requires forall x :: x in lowers <==>
      exists i :: 0 <= i < |Init(moduleRoots)| && x == Init(moduleRoots)[i] + relative && fs(x) == Some(Dir)
    requires IsSubsequence(lowers, Candidates(Init(moduleRoots), relative))
    requires extended == if fs(Last(moduleRoots) + relative) == Some(Dir) then lowers + [Last(moduleRoots) + relative]
      else lowers
    ensures forall x :: x in extended <==>
      exists i :: 0 <= i < |moduleRoots| && x == moduleRoots[i] + relative && fs(x) == Some(Dir)
    ensures IsSubsequence(extended, Candidates(moduleRoots, relative))
    ensures (forall i :: 0 <= i < |Init(moduleRoots)| ==> fs(Init(moduleRoots)[i] + relative) != Some(NonDir))
      && fs(Last(moduleRoots) + relative) != Some(NonDir)
      ==> forall i :: 0 <= i < |moduleRoots| ==> fs(moduleRoots[i] + relative) != Some(NonDir)
  {
    var path := Last(moduleRoots) + relative;
    assert Candidates(Init(moduleRoots), relative) == Init(Candidates(moduleRoots, relative));
    assert forall i :: 0 <= i < |moduleRoots| - 1 ==> Init(moduleRoots)[i] == moduleRoots[i];
    assert Last(Candidates(moduleRoots, relative)) == path;
    if fs(path) == Some(Dir) {
      assert Init(lowers + [path]) == lowers;
    }
  }

  /** The loop of `mount_overlay_child` that pushes the lower directories and
      returns early at a candidate that is not a directory. */
  method CollectChildLowers(moduleRoots: seq<string>, relative: string, fs: string -> Option<Entry>)
    returns (r: Option<seq<string>>)
    ensures r == ChildLowers(moduleRoots, relative, fs)
  {
    var lowers: seq<string> := [];
    var i := 0;
    while i < |moduleRoots|
      invariant 0 <= i <= |moduleRoots|
      invariant ChildLowers(moduleRoots[..i], relative, fs) == Some(lowers)
    {
      assert Init(moduleRoots[..i + 1]) == moduleRoots[..i];
      var lowerDir := moduleRoots[i] + relative;
      match fs(lowerDir) {
        case Some(Dir) =>
          lowers := lowers + [lowerDir];
        case Some(NonDir) =>
          assert fs(moduleRoots[i] + relative) == Some(NonDir);
          return None;
        case None =>
      }
      i := i + 1;
    }
    assert moduleRoots[..i] == moduleRoots;
    r := Some(lowers);
  }

  datatype ChildPlan = BindStock | LeaveAlone | Overlay(lowerDirs: seq<string>)

  /** `mount_overlay_child`'s decision: the stock directory is bind-mounted
      back when no module has the path; nothing is done when the stock path is
      not a directory or some module's path is not a directory; otherwise the
      module directories are overlaid. */
  function ChildPlanFor(moduleRoots: seq<string>, relative: string, stockRoot: string,
                        fs: string -> Option<Entry>): (r: ChildPlan)
    ensures r == BindStock <==> forall i :: 0 <= i < |moduleRoots| ==> fs(moduleRoots[i] + relative).None?
    ensures r.Overlay? <==>
      (exists i :: 0 <= i < |moduleRoots| && fs(moduleRoots[i] + relative).Some?)
      && fs(stockRoot) == Some(Dir) && ChildLowers(moduleRoots, relative, fs).Some?
    ensures r.Overlay? ==> r.lowerDirs == ChildLowers(moduleRoots, relative, fs).value && r.lowerDirs != []
  {
    if FirstMatch(Candidates(moduleRoots, relative), (p: string) => fs(p).Some?).None? then BindStock
    else if fs(stockRoot) != Some(Dir) then LeaveAlone
    else match ChildLowers(moduleRoots, relative, fs)
      case None => LeaveAlone
      case Some(lowers) =>
        ChildLowersNonEmpty(moduleRoots, relative, fs);
        Overlay(lowers)
  }

  /** When some candidate exists and none is a non-directory, there is a lower directory. */
  lemma ChildLowersNonEmpty(moduleRoots: seq<string>, relative: string, fs: string -> Option<Entry>)
    requires exists i :: 0 <= i < |moduleRoots| && fs(moduleRoots[i] + relative).Some?
    requires ChildLowers(moduleRoots, relative, fs).Some?
    ensures ChildLowers(moduleRoots, relative, fs).value != []
  {
    var i :| 0 <= i < |moduleRoots| && fs(moduleRoots[i] + relative).Some?;
    var path := moduleRoots[i] + relative;
    assert fs(path) != Some(NonDir);
    assert fs(path).value.Dir?;
    assert path in ChildLowers(moduleRoots, relative, fs).value;
  }

  datatype ChildMount = StockBound | Untouched | Overlaid(lowerDirs: seq<string>)

  datatype ChildError = BindFailed

  /** Carrying the plan out: a failed overlay falls back to binding the stock
      directory, and only a failed bind is an error. */
  function ChildResult(plan: ChildPlan, overlayMounted: bool, bindMounted: bool): (r: Result<ChildMount, ChildError>)
    ensures r.Err? <==> (plan.BindStock? || (plan.Overlay? && !overlayMounted)) && !bindMounted
    ensures r.Ok? && plan.Overlay? ==> r.value == if overlayMounted then Overlaid(plan.lowerDirs) else StockBound
    ensures plan == LeaveAlone ==> r == Ok(Untouched)
  {
    match plan
    case BindStock => if bindMounted then Ok(StockBound) else Err(BindFailed)
    case LeaveAlone => Ok(Untouched)
    case Overlay(lowers) =>
      if overlayMounted then Ok(Overlaid(lowers))
      else if bindMounted then Ok(StockBound)
      else Err(BindFailed)
  }

  // ------------------------------------------------------ descendant walk

  /** The mount points strictly below `root`, compared component by component,
      sorted and without duplicates. */
  function DescendantMountPoints(mountPoints: seq<string>, root: string): (r: seq<string>)
    ensures StrictlyAscending(r)
    ensures forall m :: m in r <==> m in mountPoints && Paths.StrictlyBelow(m, root)
  {
    SortDedup(Filter(mountPoints, m => Paths.StrictlyBelow(m, root)))
  }

  /** A mount point's path below the root: the root's first occurrence removed. */
  function RelativeTo(mountPoint: string, root: string): string {
    ReplaceFirst(mountPoint, root, "")
  }

  /** What the walk does with one descendant: pass over it when its stock path
      (relative to the root, the current directory) is missing, otherwise mount
      the child, which succeeds or fails. */
  datatype Step = Skipped | Handled | Failed

  function StepFor(m: string, root: string, present: string -> bool, childMounted: (string, string) -> bool): (s: Step)
    ensures s == Skipped <==> !present("." + RelativeTo(m, root))
    ensures s == Failed <==> present("." + RelativeTo(m, root)) && !childMounted(m, RelativeTo(m, root))
  {
    var relative := RelativeTo(m, root);
    if !present("." + relative) then Skipped
    else if childMounted(m, relative) then Handled
    else Failed
  }

  /** `StepFor` with the walk's inputs fixed, as the walk consumes it. */
  function WalkStep(root: string, present: string -> bool, childMounted: (string, string) -> bool): string -> Step {
    m => StepFor(m, root, present, childMounted)
  }

  /** Position `i` holds the first descendant whose step fails. */
  predicate FirstFailure(descendants: seq<string>, step: string -> Step, i: int) {
    0 <= i < |descendants| && step(descendants[i]) == Failed
    && forall j :: 0 <= j < i ==> step(descendants[j]) != Failed
  }

  /** A walk over the descendants in order, up to the first one whose step
      fails: `Ok` lists the descendants handled and means none failed, `Err`
      names the first one that failed. */
  function DescendantRun(descendants: seq<string>, step: string -> Step): (r: Result<seq<string>, string>)
    ensures r.Ok? ==> IsSubsequence(r.value, descendants)
    ensures r.Ok? ==> forall m :: m in descendants ==> (m in r.value <==> step(m) == Handled)
    ensures r.Ok? ==> forall m :: m in r.value ==> m in descendants
    ensures r.Ok? ==> forall m :: m in descendants ==> step(m) != Failed
    ensures r.Err? ==> r.error in descendants && step(r.error) == Failed
    ensures r.Err? ==> exists i :: FirstFailure(descendants, step, i) && descendants[i] == r.error
    decreases |descendants|
  {
    if descendants == [] then Ok([])
    else
      var m := Last(descendants);
      assert forall x :: x in descendants <==> x in Init(descendants) || x == m;
      match DescendantRun(Init(descendants), step)
      case Err(e) =>
        var i :| FirstFailure(Init(descendants), step, i) && Init(descendants)[i] == e;
        FirstFailureOfInit(descendants, step, i);
        Err(e)
      case Ok(done) =>
        match step(m)
        case Skipped => Ok(done)
        case Handled =>
          assert Init(done + [m]) == done;
          Ok(done + [m])
        case Failed =>
          FirstFailureAtLast(descendants, step);
          Err(m)
  }

  /** The first failure among all but the last descendant is the first overall. */
  lemma FirstFailureOfInit(descendants: seq<string>, step: string -> Step, i: int)
    requires descendants != []
    requires FirstFailure(Init(descendants), step, i)
    ensures FirstFailure(descendants, step, i) && descendants[i] == Init(descendants)[i]
  {
    assert forall j :: 0 <= j <= i ==> descendants[j] == Init(descendants)[j];
  }

  /** When nothing before the last descendant fails and the last one does,
      the last one is the first failure. */
  lemma FirstFailureAtLast(descendants: seq<string>, step: string -> Step)
    requires descendants != []
    requires forall m :: m in Init(descendants) ==> step(m) != Failed
    requires step(Last(descendants)) == Failed
    ensures FirstFailure(descendants, step, |descendants| - 1)
  {
    forall j | 0 <= j < |descendants| - 1
      ensures step(descendants[j]) != Failed
    {
      assert descendants[j] == Init(descendants)[j];
      assert descendants[j] in Init(descendants);
    }
  }

  /** A walk whose every step skips handles nothing and succeeds. */
  lemma DescendantRunAllSkipped(descendants: seq<string>, step: string -> Step)
    requires forall m :: m in descendants ==> step(m) == Skipped
    ensures DescendantRun(descendants, step) == Ok([])
  {
  }

  /** Once a prefix of the walk has failed, the whole walk fails the same way. */
  lemma {:induction false} DescendantRunStopsAtFailure(descendants: seq<string>, j: nat, step: string -> Step)
    requires j <= |descendants|
    requires DescendantRun(descendants[..j], step).Err?
    ensures DescendantRun(descendants, step) == DescendantRun(descendants[..j], step)
    decreases |descendants|
  {
    if j < |descendants| {
      assert Init(descendants)[..j] == descendants[..j];
      DescendantRunStopsAtFailure(Init(descendants), j, step);
    } else {
      assert descendants[..j] == descendants;
    }
  }

  /** One step of the walk, unfolded. */
  lemma DescendantRunStep(descendants: seq<string>, i: nat, step: string -> Step)
    requires i < |descendants|
    ensures var m := descendants[i];
      DescendantRun(descendants[..i + 1], step) ==
        match DescendantRun(descendants[..i], step)
        case Err(e) => Err(e)
        case Ok(done) =>
          match step(m)
          case Skipped => Ok(done)
          case Handled => Ok(done + [m])
          case Failed => Err(m)
  {
    assert Init(descendants[..i + 1]) == descendants[..i];
  }

  datatype OverlayError = SetupFailed | RootMountFailed | ChildFailed(mountPoint: string) | RevertFailed(mountPoint: string)

  /** `mount_overlay` on a partition root: the mount table (None when the
      directory change or the mount table read failed) gives the descendants,
      the root is mounted first, then each descendant in order; the first child
      failure unmounts the root and is returned, or the unmount's own failure.
      `rootMounted` stands for the outcome of `MountOverlayfs` on the root and
      `childMounted(m, relative)` for `ChildResult(ChildPlanFor(...), ...).Ok?`
      on that child. The two are inputs here, so the composition is stated in
      prose only. */
  function MountOverlayResult(root: string, mountPoints: Option<seq<string>>, rootMounted: bool,
                              present: string -> bool, childMounted: (string, string) -> bool,
                              revertSucceeded: bool): (r: Result<seq<string>, OverlayError>)
    ensures mountPoints.None? ==> r == Err(SetupFailed)
    ensures mountPoints.Some? && !rootMounted ==> r == Err(RootMountFailed)
    ensures r.Ok? ==> (mountPoints.Some? && rootMounted
      && IsSubsequence(r.value, DescendantMountPoints(mountPoints.value, root))
      && (forall m :: m in r.value <==>
            m in mountPoints.value && Paths.StrictlyBelow(m, root) && StepFor(m, root, present, childMounted) == Handled)
      && (forall m :: m in mountPoints.value && Paths.StrictlyBelow(m, root) ==>
            StepFor(m, root, present, childMounted) != Failed))
    ensures r.Err? && (r.error.ChildFailed? || r.error.RevertFailed?) ==> (
      mountPoints.Some? && rootMounted && r.error.mountPoint in mountPoints.value
      && Paths.StrictlyBelow(r.error.mountPoint, root)
      && StepFor(r.error.mountPoint, root, present, childMounted) == Failed
      && (r.error.ChildFailed? <==> revertSucceeded)
      && var descendants := DescendantMountPoints(mountPoints.value, root);
         exists i :: FirstFailure(descendants, WalkStep(root, present, childMounted), i)
           && descendants[i] == r.error.mountPoint)
  {
    match mountPoints
    case None => Err(SetupFailed)
    case Some(points) =>
      if !rootMounted then Err(RootMountFailed)
      else
        var descendants := DescendantMountPoints(points, root);
        var step := WalkStep(root, present, childMounted);
        match DescendantRun(descendants, step)
        case Ok(done) =>
          assert forall m :: m in descendants ==> step(m) != Failed;
          Ok(done)
        case Err(m) =>
          var i :| FirstFailure(descendants, step, i) && descendants[i] == m;
          if revertSucceeded then Err(ChildFailed(m)) else Err(RevertFailed(m))
  }

  /** The loop of `mount_overlay` over the descendants. */
  method MountOverlay(root: string, mountPoints: Option<seq<string>>, rootMounted: bool,
                      present: string -> bool, childMounted: (string, string) -> bool, revertSucceeded: bool)
    returns (r: Result<seq<string>, OverlayError>)
    ensures r == MountOverlayResult(root, mountPoints, rootMounted, present, childMounted, revertSucceeded)
  {
    if mountPoints.None? {
      return Err(SetupFailed);
    }
    var mountSeq := DescendantMountPoints(mountPoints.value, root);
    if !rootMounted {
      return Err(RootMountFailed);
    }
    var step := WalkStep(root, present, childMounted);
    var done: seq<string> := [];
    var i := 0;
    while i < |mountSeq|
      invariant 0 <= i <= |mountSeq|
      invariant DescendantRun(mountSeq[..i], step) == Ok(done)
    {
      var mountPoint := mountSeq[i];
      DescendantRunStep(mountSeq, i, step);
      var relative := RelativeTo(mountPoint, root);
      if present("." + relative) {
        if !childMounted(mountPoint, relative) {
          assert StepFor(mountPoint, root, present, childMounted) == Failed;
          DescendantRunStopsAtFailure(mountSeq, i + 1, step);
          if revertSucceeded {
            return Err(ChildFailed(mountPoint));
          } else {
            return Err(RevertFailed(mountPoint));
          }
        }
        assert StepFor(mountPoint, root, present, childMounted) == Handled;
        done := done + [mountPoint];
      } else {
        assert StepFor(mountPoint, root, present, childMounted) == Skipped;
      }
      i := i + 1;
    }
    assert mountSeq[..i] == mountSeq;
    r := Ok(done);
  }
}
