/** The module scan: which module directories take part in mounting, with
    the partitions each one carries, in the order they are processed. */
module Inventory {
  import opened Wrappers
  import opened Seqs
  import opened Ordering
  import Paths
  import Defs

  /** A module found by the scan. */
  datatype Module = Module(id: string, sourcePath: string, partitions: seq<string>, mode: string)

  datatype ScanError = ReadDirFailed

  /** Directory names that are never modules. */
  predicate ReservedId(id: string) {
    id == "meta-hybrid" || id == "lost+found" || id == ".git"
  }

  /** A module directory holding a disable, remove or skip_mount marker. */
  predicate HasMarker(path: string, present: string -> bool) {
    present(Paths.Join(path, Defs.DISABLE_FILE_NAME))
    || present(Paths.Join(path, Defs.REMOVE_FILE_NAME))
    || present(Paths.Join(path, Defs.SKIP_MOUNT_FILE_NAME))
  }

  function PartitionTest(path: string, isDir: string -> bool): string -> bool {
    part => isDir(Paths.Join(path, part))
  }

  /** The built-in partitions the module directory has a directory for, in
      the order of the built-in list, each once. */
  function PartitionsOf(path: string, isDir: string -> bool): (r: seq<string>)
    ensures forall p :: p in r <==> p in Defs.BUILTIN_PARTITIONS && isDir(Paths.Join(path, p))
    ensures IsSubsequence(r, Defs.BUILTIN_PARTITIONS)
    ensures NoDuplicates(r)
  {
    Defs.BuiltinPartitionsDistinct();
    FilterNoDuplicates(Defs.BUILTIN_PARTITIONS, PartitionTest(path, isDir));
    Filter(Defs.BUILTIN_PARTITIONS, PartitionTest(path, isDir))
  }

  /** The partition loop of `scan`. */
  method CollectPartitions(path: string, isDir: string -> bool) returns (parts: seq<string>)
    ensures parts == PartitionsOf(path, isDir)
  {
    parts := CollectDirs(path, Defs.BUILTIN_PARTITIONS, isDir);
  }

  /** The loop over the candidate names, keeping those with a directory. */
  method CollectDirs(path: string, names: seq<string>, isDir: string -> bool) returns (parts: seq<string>)
    ensures parts == Filter(names, PartitionTest(path, isDir))
  {
    ghost var keep := PartitionTest(path, isDir);
    parts := [];
    var i := 0;
    while i < |names|
      invariant 0 <= i <= |names|
      invariant parts == Filter(names[..i], keep)
    {
      FilterPrefixStep(names, i, keep);
      if isDir(Paths.Join(path, names[i])) {
        parts := parts + [names[i]];
      }
      i := i + 1;
    }
    assert names[..i] == names;
  }

  /** The module a directory entry named `id` yields, if any: a directory, not
      reserved, without markers and with at least one partition directory.
      Its mode is the one configured for it, or "auto". */
  function ModuleFor(sourceDir: string, id: string, isDir: string -> bool, present: string -> bool,
                     modes: map<string, string>): (r: Option<Module>)
    ensures r.Some? <==>
      (isDir(Paths.Join(sourceDir, id)) && !ReservedId(id) && !HasMarker(Paths.Join(sourceDir, id), present)
       && exists p :: p in Defs.BUILTIN_PARTITIONS && isDir(Paths.Join(Paths.Join(sourceDir, id), p)))
    ensures r.Some? ==>
      r.value.id == id && r.value.sourcePath == Paths.Join(sourceDir, id)
      && r.value.partitions == PartitionsOf(Paths.Join(sourceDir, id), isDir)
      && r.value.mode == (if id in modes then modes[id] else "auto")
  {
    var path := Paths.Join(sourceDir, id);
    if !isDir(path) || ReservedId(id) || HasMarker(path, present) then None
    else
      var parts := PartitionsOf(path, isDir);
      if parts == [] then
        assert forall p :: p in Defs.BUILTIN_PARTITIONS ==> !isDir(Paths.Join(path, p));
        None
      else
        assert parts[0] in parts;
        Some(Module(id, path, parts, if id in modes then modes[id] else "auto"))
  }

  function ModuleStep(sourceDir: string, isDir: string -> bool, present: string -> bool,
                      modes: map<string, string>): string -> Option<Module> {
    id => ModuleFor(sourceDir, id, isDir, present, modes)
  }

  function ReadableStep(): Option<string> -> Option<string> {
    e => e
  }

  /** The names of the entries that could be read; the others are dropped. */
  function ReadableNames(entries: seq<Option<string>>): (r: seq<string>)
    ensures forall n :: n in r <==> Some(n) in entries
  {
    var r := FilterMap(entries, ReadableStep());
    assert forall n :: (exists i :: 0 <= i < |entries| && ReadableStep()(entries[i]) == Some(n)) <==> Some(n) in entries;
    r
  }

  /** The order in which entries are visited: sorted by name, then reversed. */
  function VisitOrder(names: seq<string>): (r: seq<string>)
    ensures multiset(r) == multiset(names)
    ensures forall i, j :: 0 <= i < j < |r| ==> LessOrEqual(r[j], r[i])
  {
    var sorted := SortStrings(names);
    var r := Reverse(sorted);
    assert forall i :: 0 <= i < |r| ==> r[i] == sorted[|sorted| - 1 - i];
    r
  }

  /** `scan`: no modules when the source directory is missing, an error when it
      cannot be listed, and otherwise the modules of its entries, visited in
      descending name order. */
  function ScanResult(sourceExists: bool, listing: Option<seq<Option<string>>>, isDir: string -> bool,
                      present: string -> bool, modes: map<string, string>, sourceDir: string)
    : (r: Result<seq<Module>, ScanError>)
    ensures !sourceExists ==> r == Ok([])
    ensures r.Err? <==> sourceExists && listing.None?
    ensures r.Ok? && sourceExists ==>
      forall m :: m in r.value <==>
        exists id :: Some(id) in listing.value && ModuleFor(sourceDir, id, isDir, present, modes) == Some(m)
  {
    if !sourceExists then Ok([])
    else if listing.None? then Err(ReadDirFailed)
    else
      var order := VisitOrder(ReadableNames(listing.value));
      var r := FilterMap(order, ModuleStep(sourceDir, isDir, present, modes));
      assert forall id :: id in order <==> Some(id) in listing.value by {
        forall id ensures id in order <==> id in multiset(ReadableNames(listing.value)) {}
      }
      Ok(r)
  }

  /** The ids of a list of modules. */
  function Ids(ms: seq<Module>): (r: seq<string>)
    ensures |r| == |ms| && forall i :: 0 <= i < |ms| ==> r[i] == ms[i].id
  {
    if ms == [] then [] else Ids(Init(ms)) + [Last(ms).id]
  }

  /** Every module of a scan has the id of the entry it came from, so the ids
      keep the visiting order. */
  lemma {:induction false} IdsFollowOrder(order: seq<string>, sourceDir: string, isDir: string -> bool,
                                          present: string -> bool, modes: map<string, string>)
    ensures IsSubsequence(Ids(FilterMap(order, ModuleStep(sourceDir, isDir, present, modes))), order)
    decreases |order|
  {
    if order != [] {
      var step := ModuleStep(sourceDir, isDir, present, modes);
      var rest := FilterMap(Init(order), step);
      IdsFollowOrder(Init(order), sourceDir, isDir, present, modes);
      match step(Last(order)) {
        case Some(m) =>
          assert FilterMap(order, step) == rest + [m];
          assert Init(rest + [m]) == rest;
        case None =>
      }
    }
  }

  function Greater(): (string, string) -> bool {
    (a: string, b: string) => Less(b, a)
  }

  /** Directory entries have distinct names, so the modules of a scan come in
      strictly descending id order and each id appears once. */
  lemma ScanIdsDescending(listing: seq<Option<string>>, isDir: string -> bool, present: string -> bool,
                          modes: map<string, string>, sourceDir: string)
    requires NoDuplicates(ReadableNames(listing))
    ensures ScanResult(true, Some(listing), isDir, present, modes, sourceDir).Ok?
    ensures forall i, j :: 0 <= i < j < |ScanResult(true, Some(listing), isDir, present, modes, sourceDir).value| ==>
      Less(ScanResult(true, Some(listing), isDir, present, modes, sourceDir).value[j].id,
           ScanResult(true, Some(listing), isDir, present, modes, sourceDir).value[i].id)
  {
    var names := ReadableNames(listing);
    var order := VisitOrder(names);
    var ms := ScanResult(true, Some(listing), isDir, present, modes, sourceDir).value;
    assert ms == FilterMap(order, ModuleStep(sourceDir, isDir, present, modes));
    forall i, j | 0 <= i < j < |order|
      ensures Greater()(order[i], order[j])
    {
      if order[i] == order[j] {
        PermutationPositions(names, order, i, j);
      }
      assert LessOrEqual(order[j], order[i]);
    }
    IdsFollowOrder(order, sourceDir, isDir, present, modes);
    SubsequenceOrdered(Ids(ms), order, Greater());
  }

  /** `scan` itself: the loop over the visiting order. */
  method Scan(sourceDir: string, sourceExists: bool, listing: Option<seq<Option<string>>>,
              isDir: string -> bool, present: string -> bool, modes: map<string, string>)
    returns (r: Result<seq<Module>, ScanError>)
    ensures r == ScanResult(sourceExists, listing, isDir, present, modes, sourceDir)
  {
    if !sourceExists {
      return Ok([]);
    }
    if listing.None? {
      return Err(ReadDirFailed);
    }
    var order := VisitOrder(ReadableNames(listing.value));
    var modules := ScanEntries(sourceDir, order, isDir, present, modes);
    r := Ok(modules);
  }

  /** The loop of `scan` over the entries in visiting order. */
  method ScanEntries(sourceDir: string, order: seq<string>, isDir: string -> bool, present: string -> bool,
                     modes: map<string, string>)
    returns (modules: seq<Module>)
    ensures modules == FilterMap(order, ModuleStep(sourceDir, isDir, present, modes))
  {
    modules := [];
    var i := 0;
    while i < |order|
      invariant 0 <= i <= |order|
      invariant modules == FilterMap(order[..i], ModuleStep(sourceDir, isDir, present, modes))
    {
      var m := ScanEntry(sourceDir, order[i], isDir, present, modes);
      ScanEntriesStep(sourceDir, order, i, isDir, present, modes, m);
      if m.Some? {
        modules := modules + [m.value];
      }
      i := i + 1;
    }
    assert order[..i] == order;
  }

  lemma ScanEntriesStep(sourceDir: string, order: seq<string>, i: nat, isDir: string -> bool, present: string -> bool,
                        modes: map<string, string>, m: Option<Module>)
    requires i < |order|
    requires m == ModuleFor(sourceDir, order[i], isDir, present, modes)
    ensures FilterMap(order[..i + 1], ModuleStep(sourceDir, isDir, present, modes))
      == FilterMap(order[..i], ModuleStep(sourceDir, isDir, present, modes)) + (if m.Some? then [m.value] else [])
  {
    FilterMapPrefixStep(order, i, ModuleStep(sourceDir, isDir, present, modes));
  }

  /** One entry of `scan`: a directory that is not reserved, carries no marker
      and holds at least one partition becomes a module. */
  method ScanEntry(sourceDir: string, id: string, isDir: string -> bool, present: string -> bool,
                   modes: map<string, string>)
    returns (m: Option<Module>)
    ensures m == ModuleFor(sourceDir, id, isDir, present, modes)
  {
    m := None;
    var path := Paths.Join(sourceDir, id);
    if isDir(path) && !ReservedId(id) && !HasMarker(path, present) {
      var partitions := CollectPartitions(path, isDir);
      var mode := if id in modes then modes[id] else "auto";
      if partitions != [] {
        m := Some(Module(id, path, partitions, mode));
      }
    }
  }
}
