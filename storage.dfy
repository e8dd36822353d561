/** The storage backend that holds the module files while they are mounted:
    an EROFS image built from a tmpfs staging directory, a plain tmpfs, or an
    ext4 image. Mount calls, mkfs and e2fsck are inputs given as outcomes. */
module Storage {
  import opened Wrappers
  import opened Strings
  import Paths
  import SysMount
  import Defs

  // ------------------------------------------------------------ EROFS commit

  /** The fields of the EROFS backend. */
  datatype ErofsFields = ErofsFields(mountPoint: string, mode: string, backingImage: string, finalTarget: string)

  /** How the steps of an EROFS commit end: building the image, preparing the
      final directory, and mounting the image there. Unmounting the staging
      directory, removing it, changing propagation and hiding the mount are
      steps whose failures are ignored. */
  datatype CommitOutcomes = CommitOutcomes(imageBuilt: bool, targetReady: bool, imageMounted: bool)

  datatype CommitError = ImageBuildFailed | TargetDirFailed | ImageMountFailed

  /** `ErofsBackend::commit` on the fields: in staging mode the image is built
      and mounted at the final target, which then becomes the mount point, with
      mode "erofs"; any failure is returned before a field changes. In every
      other mode nothing happens. */
  function CommitErofs(s: ErofsFields, o: CommitOutcomes): (r: (Result<(), CommitError>, ErofsFields))
    ensures s.mode != "erofs_staging" ==> r == (Ok(()), s)
    ensures s.mode == "erofs_staging" ==>
      (r.0.Ok? <==> o.imageBuilt && o.targetReady && o.imageMounted)
    ensures r.0.Ok? && s.mode == "erofs_staging" ==>
      r.1 == s.(mountPoint := s.finalTarget, mode := "erofs")
    ensures r.0.Err? ==> r.1 == s
    ensures r.1.backingImage == s.backingImage && r.1.finalTarget == s.finalTarget
  {
    if s.mode != "erofs_staging" then (Ok(()), s)
    else if !o.imageBuilt then (Err(ImageBuildFailed), s)
    else if !o.targetReady then (Err(TargetDirFailed), s)
    else if !o.imageMounted then (Err(ImageMountFailed), s)
    else (Ok(()), s.(mountPoint := s.finalTarget, mode := "erofs"))
  }

  /** Committing again after a successful commit changes nothing, whatever the
      second commit's outcomes would have been. */
  lemma CommitIdempotent(s: ErofsFields, first: CommitOutcomes, second: CommitOutcomes)
    requires CommitErofs(s, first).0.Ok?
    ensures CommitErofs(CommitErofs(s, first).1, second) == (Ok(()), CommitErofs(s, first).1)
  {
  }

  /** A failed commit leaves a staging backend in staging mode. */
  lemma FailedCommitStaysStaging(s: ErofsFields, o: CommitOutcomes)
    requires s.mode == "erofs_staging"
    requires !(o.imageBuilt && o.targetReady && o.imageMounted)
    ensures CommitErofs(s, o).0.Err? && CommitErofs(s, o).1.mode == "erofs_staging"
  {
  }

  /** The command line that builds the EROFS image: the bundled mkfs.erofs
      when it exists, otherwise the one on the search path. */
  function ErofsCommand(bundledPresent: bool, imagePath: string, srcDir: string): (r: seq<string>)
    ensures |r| == 7 && r[1..5] == ["-z", "lz4hc", "-x", "256"] && r[5] == imagePath && r[6] == srcDir
    ensures r[0] == if bundledPresent then "/data/adb/metamodule/tools/mkfs.erofs" else "mkfs.erofs"
  {
    var cmd := if bundledPresent then "/data/adb/metamodule/tools/mkfs.erofs" else "mkfs.erofs";
    [cmd, "-z", "lz4hc", "-x", "256", imagePath, srcDir]
  }

  /** The EROFS backend, whose fields `commit` updates in place. */
  class ErofsBackend {
    var mountPoint: string
    var mode: string
    var backingImage: string
    var finalTarget: string

    constructor (mountPoint: string, mode: string, backingImage: string, finalTarget: string)
      ensures Fields() == ErofsFields(mountPoint, mode, backingImage, finalTarget)
    {
      this.mountPoint := mountPoint;
      this.mode := mode;
      this.backingImage := backingImage;
      this.finalTarget := finalTarget;
    }

    function Fields(): ErofsFields
      reads this
    {
      ErofsFields(mountPoint, mode, backingImage, finalTarget)
    }

    method Commit(disableUmount: bool, o: CommitOutcomes) returns (r: Result<(), CommitError>)
      modifies this
      ensures (r, Fields()) == CommitErofs(old(Fields()), o)
    {
      if mode == "erofs_staging" {
        if !o.imageBuilt {
          return Err(ImageBuildFailed);
        }
        if !o.targetReady {
          return Err(TargetDirFailed);
        }
        if !o.imageMounted {
          return Err(ImageMountFailed);
        }
        mountPoint := finalTarget;
        mode := "erofs";
      }
      r := Ok(());
    }
  }

  /** The backend behind a storage handle. The ext4 and tmpfs backends never
      change after setup, so they are values. */
  datatype Backend =
    | Erofs(erofs: ErofsBackend)
    | Ext4(ext4MountPoint: string)
    | Tmpfs(tmpfsMountPoint: string)

  /** `StorageHandle`: every call is passed on to the backend. */
  datatype StorageHandle = StorageHandle(backend: Backend) {
    function Objects(): set<object> {
      if backend.Erofs? then {backend.erofs} else {}
    }

    function MountPoint(): string
      reads Objects()
    {
      match backend
      case Erofs(e) => e.mountPoint
      case Ext4(m) => m
      case Tmpfs(m) => m
    }

    function Mode(): string
      reads Objects()
    {
      match backend
      case Erofs(e) => e.mode
      case Ext4(_) => "ext4"
      case Tmpfs(_) => "tmpfs"
    }

    /** Only the EROFS backend does anything on commit. */
    method Commit(disableUmount: bool, o: CommitOutcomes) returns (r: Result<(), CommitError>)
      modifies Objects()
      ensures backend.Erofs? ==> (r, backend.erofs.Fields()) == CommitErofs(old(backend.erofs.Fields()), o)
      ensures !backend.Erofs? ==> r == Ok(())
    {
      match backend {
        case Erofs(e) =>
          r := e.Commit(disableUmount, o);
        case Ext4(_) =>
          r := Ok(());
        case Tmpfs(_) =>
          r := Ok(());
      }
    }
  }

  // ----------------------------------------------------------------- setup

  /** `Path::with_extension`: the last name's extension (after its last '.',
      unless that '.' starts the name) is replaced, or added when there is
      none; trailing '/'s are dropped. A path with no last name is unchanged. */
  function WithExtension(p: string, ext: string): string {
    var base := TrimEndChar(p, '/');
    var start := NameStart(base);
    var name := base[start..];
    if name == [] || name == "." || name == ".." then p
    else base[..start] + Stem(name) + "." + ext
  }

  /** Where the last name of a path begins: after its last '/'. */
  function NameStart(base: string): (r: nat)
    ensures r <= |base|
  {
    match Paths.LastIndexOf(base, '/')
    case None => 0
    case Some(i) => i + 1
  }

  /** A name without its extension; a leading '.' does not start one. */
  function Stem(name: string): string {
    match Paths.LastIndexOf(name, '.')
    case Some(i) => if i > 0 then name[..i] else name
    case None => name
  }

  /** The last `c` in `s` is at `i` when `s[i]` is `c` and none follows it. */
  lemma LastIndexOfAt(s: string, c: char, i: nat)
    requires i < |s| && s[i] == c && c !in s[i + 1..]
    ensures Paths.LastIndexOf(s, c) == Some(i)
  {
  }

  /** A path `dir/file` splits at its last '/' into `dir/` and `file`. */
  lemma SplitAtLastSlash(dir: string, file: string)
    requires file != [] && '/' !in file
    ensures TrimEndChar(dir + "/" + file, '/') == dir + "/" + file
    ensures Paths.LastIndexOf(dir + "/" + file, '/') == Some(|dir|)
    ensures (dir + "/" + file)[..|dir| + 1] == dir + "/"
    ensures (dir + "/" + file)[|dir| + 1..] == file
  {
    var p := dir + "/" + file;
    assert p[|p| - 1] == file[|file| - 1];
    assert p[|dir| + 1..] == file;
    LastIndexOfAt(p, '/', |dir|);
  }

  /** A name `stem.ext` splits at its last '.' into `stem` and `ext`. */
  lemma SplitAtLastDot(name: string, ext: string)
    requires '/' !in name && '.' !in name && '/' !in ext && '.' !in ext
    ensures Paths.LastIndexOf(name + "." + ext, '.') == Some(|name|)
    ensures (name + "." + ext)[..|name|] == name
    ensures '/' !in name + "." + ext
  {
    var f := name + "." + ext;
    assert f == name + ("." + ext);
    assert f[|name| + 1..] == ext;
    LastIndexOfAt(f, '.', |name|);
  }

  /** The backing image of `dir/name.img` is `dir/name.erofs`. */
  lemma WithExtensionReplaces(dir: string, name: string, oldExt: string, ext: string)
    requires name != [] && '/' !in name && '.' !in name
    requires '/' !in oldExt && '.' !in oldExt
    ensures WithExtension(dir + "/" + name + "." + oldExt, ext) == dir + "/" + name + "." + ext
  {
    var fileName := name + "." + oldExt;
    var p := dir + "/" + name + "." + oldExt;
    SplitAtLastDot(name, oldExt);
    assert Stem(fileName) == name;
    assert p == dir + "/" + fileName;
    SplitAtLastSlash(dir, fileName);
    assert NameStart(p) == |dir| + 1;
    assert fileName != "." && fileName != ".." by {
      assert fileName[0] == name[0];
    }
    assert WithExtension(p, ext) == (dir + "/") + name + "." + ext;
  }

  /** The backends `setup` can choose, in the order it tries them. */
  datatype Choice = ErofsStaging | TmpfsChoice | Ext4Choice

  /** Everything `setup` learns from the system: the text of
      /proc/filesystems (when it can be read), how preparing and mounting the
      staging directory ends, how the tmpfs attempt ends (the xattr probe may
      itself fail), and how building the ext4 image ends. */
  datatype SetupOutcomes = SetupOutcomes(
    procFilesystems: Option<string>,
    stagingDirReady: bool,
    stagingMounted: bool,
    tmpfsMounted: bool,
    xattrSupported: Option<bool>,
    ext4Built: bool)

  datatype SetupError = StagingDirFailed | StagingMountFailed | Ext4SetupFailed

  /** `is_erofs_supported`: /proc/filesystems can be read and mentions erofs. */
  function ErofsSupported(procFilesystems: Option<string>): (r: bool)
    ensures r <==> procFilesystems.Some? && exists i :: HasSubstringAt(procFilesystems.value, "erofs", i)
  {
    procFilesystems.Some? && Contains(procFilesystems.value, "erofs")
  }

  /** `try_setup_tmpfs`: usable iff the mount succeeded and xattrs are known to
      work; a mounted tmpfs without them is unmounted again. Never an error. */
  function TrySetupTmpfs(mounted: bool, xattrSupported: Option<bool>): (r: (bool, bool))
    ensures r.0 <==> mounted && xattrSupported == Some(true)
    ensures r.1 <==> mounted && !r.0
  {
    var usable := mounted && xattrSupported.GetOr(false);
    (usable, mounted && !usable)
  }

  /** The backend `setup` chooses: EROFS staging iff asked for and supported,
      otherwise tmpfs unless ext4 is forced or tmpfs with xattrs does not work,
      otherwise ext4. A failure while preparing the chosen EROFS staging
      directory is an error: `setup` does not fall back to another backend. */
  function SetupChoice(forceExt4: bool, useErofs: bool, o: SetupOutcomes): (r: Result<Choice, SetupError>)
    ensures r == Ok(ErofsStaging) <==> useErofs && ErofsSupported(o.procFilesystems) && o.stagingDirReady && o.stagingMounted
    ensures useErofs && ErofsSupported(o.procFilesystems) ==> r.Err? || r == Ok(ErofsStaging)
    ensures r == Ok(TmpfsChoice) <==>
      !(useErofs && ErofsSupported(o.procFilesystems)) && !forceExt4 && TrySetupTmpfs(o.tmpfsMounted, o.xattrSupported).0
    ensures r == Ok(Ext4Choice) <==>
      !(useErofs && ErofsSupported(o.procFilesystems)) && !(!forceExt4 && TrySetupTmpfs(o.tmpfsMounted, o.xattrSupported).0) && o.ext4Built
    ensures r.Err? && !(useErofs && ErofsSupported(o.procFilesystems)) ==> r.error == Ext4SetupFailed
  {
    if useErofs && ErofsSupported(o.procFilesystems) then
      if !o.stagingDirReady then Err(StagingDirFailed)
      else if !o.stagingMounted then Err(StagingMountFailed)
      else Ok(ErofsStaging)
    else if !forceExt4 && TrySetupTmpfs(o.tmpfsMounted, o.xattrSupported).0 then Ok(TmpfsChoice)
    else if o.ext4Built then Ok(Ext4Choice)
    else Err(Ext4SetupFailed)
  }

  /** The mode string each backend starts in. */
  function ModeOf(c: Choice): string {
    match c
    case ErofsStaging => "erofs_staging"
    case TmpfsChoice => "tmpfs"
    case Ext4Choice => "ext4"
  }

  /** The staging directory: "erofs_staging" inside the run directory. */
  function StagingDir(): (r: string)
    ensures r == "/data/adb/hybrid-mount/run/erofs_staging"
  {
    assert Defs.RUN_DIR[|Defs.RUN_DIR| - 1] == '/';
    assert !StartsWith("erofs_staging", "/") by {
      assert "erofs_staging"[0] == 'e';
    }
    Paths.Join(Defs.RUN_DIR, "erofs_staging")
  }

  /** `setup`: the handle of the chosen backend. An EROFS staging backend is
      mounted on the staging directory, builds its image next to `imgPath` with
      the "erofs" extension and will move to `mntBase`; the other backends are
      mounted on `mntBase`. */
  method Setup(mntBase: string, imgPath: string, forceExt4: bool, useErofs: bool, o: SetupOutcomes)
    returns (r: Result<StorageHandle, SetupError>)
    ensures r.Err? <==> SetupChoice(forceExt4, useErofs, o).Err?
    ensures r.Err? ==> r.error == SetupChoice(forceExt4, useErofs, o).error
    ensures r.Ok? ==> r.value.Mode() == ModeOf(SetupChoice(forceExt4, useErofs, o).value)
    ensures r.Ok? && r.value.backend.Erofs? ==>
      fresh(r.value.backend.erofs)
      && r.value.backend.erofs.Fields() == ErofsFields(StagingDir(), "erofs_staging", WithExtension(imgPath, "erofs"), mntBase)
    ensures r.Ok? && !r.value.backend.Erofs? ==> r.value.MountPoint() == mntBase
  {
    var choice := SetupChoice(forceExt4, useErofs, o);
    match choice {
      case Err(e) =>
        r := Err(e);
      case Ok(ErofsStaging) =>
        var backend := new ErofsBackend(StagingDir(), "erofs_staging", WithExtension(imgPath, "erofs"), mntBase);
        r := Ok(StorageHandle(Erofs(backend)));
      case Ok(TmpfsChoice) =>
        r := Ok(StorageHandle(Tmpfs(mntBase)));
      case Ok(Ext4Choice) =>
        r := Ok(StorageHandle(Ext4(mntBase)));
    }
  }

  // ------------------------------------------------------------- ext4 image

  /** A file system tree as `calculate_total_size` walks it: regular files
      (whose length may fail to read), directories (whose listing may fail), and
      anything else. `Unreadable` is a directory entry or entry type that
      could not be read. */
  datatype Node = RegularFile(length: Option<nat>) | Directory(listing: seq<Child>) | UnlistableDir | OtherNode

  datatype Child = Unreadable | Readable(node: Node)

  datatype SizeError = WalkFailed

  /** `calculate_total_size`: the lengths of the regular files below a
      directory, recursively; a path that is not a directory counts 0; the
      first failure met aborts the walk. */
  function TotalSize(n: Node): (r: Result<nat, SizeError>)
    ensures !n.Directory? && !n.UnlistableDir? ==> r == Ok(0)
    ensures n.UnlistableDir? ==> r.Err?
    decreases n, 1
  {
    match n
    case Directory(cs) => ListingSize(n, |cs|)
    case UnlistableDir => Err(WalkFailed)
    case _ => Ok(0)
  }

  /** The total of the first `k` entries of directory `dir`. */
  function ListingSize(dir: Node, k: nat): Result<nat, SizeError>
    requires dir.Directory? && k <= |dir.listing|
    decreases dir, 0, k
  {
    if k == 0 then Ok(0)
    else
      match ListingSize(dir, k - 1)
      case Err(e) => Err(e)
      case Ok(t) =>
        match dir.listing[k - 1]
        case Unreadable => Err(WalkFailed)
        case Readable(RegularFile(None)) => Err(WalkFailed)
        case Readable(RegularFile(Some(len))) => Ok(t + len)
        case Readable(OtherNode) => Ok(t)
        case Readable(sub) =>
          match TotalSize(sub)
          case Err(e) => Err(e)
          case Ok(s) => Ok(t + s)
  }

  /** Every entry below a directory can be read: each listing, each entry
      and each regular file's length. */
  predicate Walkable(n: Node)
    decreases n, 1
  {
    match n
    case Directory(cs) => ListingWalkable(n, |cs|)
    case UnlistableDir => false
    case _ => true
  }

  predicate ListingWalkable(dir: Node, k: nat)
    requires dir.Directory? && k <= |dir.listing|
    decreases dir, 0, k
  {
    k == 0 ||
    (ListingWalkable(dir, k - 1) &&
     match dir.listing[k - 1]
     case Unreadable => false
     case Readable(RegularFile(len)) => len.Some?
     case Readable(OtherNode) => true
     case Readable(sub) => Walkable(sub))
  }

  /** The walk fails exactly when something below the directory cannot be read. */
  lemma {:induction false} TotalSizeOkIffWalkable(n: Node)
    ensures TotalSize(n).Ok? <==> Walkable(n)
    decreases n, 1
  {
    match n
    case Directory(cs) => ListingSizeOkIffWalkable(n, |cs|);
    case _ =>
  }

  lemma {:induction false} ListingSizeOkIffWalkable(dir: Node, k: nat)
    requires dir.Directory? && k <= |dir.listing|
    ensures ListingSize(dir, k).Ok? <==> ListingWalkable(dir, k)
    decreases dir, 0, k
  {
    if k > 0 {
      ListingSizeOkIffWalkable(dir, k - 1);
      match dir.listing[k - 1]
      case Readable(sub) =>
        if sub.Directory? || sub.UnlistableDir? {
          TotalSizeOkIffWalkable(sub);
        }
      case Unreadable =>
    }
  }

  /** Once the walk of a listing fails, the rest of the listing keeps it failed. */
  lemma {:induction false} ListingSizeFailureStays(dir: Node, k: nat, m: nat)
    requires dir.Directory? && k <= m <= |dir.listing|
    requires ListingSize(dir, k).Err?
    ensures ListingSize(dir, m) == Err(WalkFailed)
    decreases m - k
  {
    if k < m {
      ListingSizeFailureStays(dir, k + 1, m);
    } else {
      assert ListingSize(dir, m).error.WalkFailed?;
    }
  }

  /** The loop of `calculate_total_size`, recursing into subdirectories. */
  method CalculateTotalSize(n: Node) returns (r: Result<nat, SizeError>)
    ensures r == TotalSize(n)
    decreases n, 1
  {
    match n {
      case Directory(cs) =>
        var total := 0;
        var i := 0;
        while i < |cs|
          invariant 0 <= i <= |cs|
          invariant ListingSize(n, i) == Ok(total)
        {
          match cs[i] {
            case Unreadable =>
              ListingSizeFailureStays(n, i + 1, |cs|);
              return Err(WalkFailed);
            case Readable(RegularFile(len)) =>
              if len.None? {
                ListingSizeFailureStays(n, i + 1, |cs|);
                return Err(WalkFailed);
              }
              total := total + len.value;
            case Readable(OtherNode) =>
            case Readable(sub) =>
              var s := CalculateTotalSize(sub);
              match s {
                case Err(_) =>
                  ListingSizeFailureStays(n, i + 1, |cs|);
                  return Err(WalkFailed);
                case Ok(size) =>
                  total := total + size;
              }
          }
          i := i + 1;
        }
        r := Ok(total);
      case UnlistableDir =>
        r := Err(WalkFailed);
      case _ =>
        r := Ok(0);
    }
  }

  const MIN_IMAGE_SIZE: nat := 64 * 1024 * 1024

  /** The ext4 image size: the module files' total grown by a fifth, and at
      least 64 MiB. */
  function Ext4ImageSize(total: nat): (r: nat)
    ensures r >= MIN_IMAGE_SIZE && r >= total
    ensures r == MIN_IMAGE_SIZE || r == total * 6 / 5
    ensures total * 6 / 5 <= MIN_IMAGE_SIZE ==> r == MIN_IMAGE_SIZE
  {
    var grown := total * 6 / 5;
    if grown > MIN_IMAGE_SIZE then grown else MIN_IMAGE_SIZE
  }

  datatype Ext4MountError = RepairFailed | RemountFailed

  /** The mount of the ext4 image: a failed first mount is followed by an
      e2fsck repair; a repair that fails is an error, otherwise the image is
      mounted a second time and that mount decides. */
  function MountWithRepair(firstMounted: bool, repairStatus: Option<SysMount.ExitStatus>, secondMounted: bool)
    : (r: Result<(), Ext4MountError>)
    ensures firstMounted ==> r.Ok?
    ensures !firstMounted ==>
      (r.Ok? <==> SysMount.RepairImage(repairStatus).Ok? && secondMounted)
    ensures r == Err(RepairFailed) <==> !firstMounted && SysMount.RepairImage(repairStatus).Err?
  {
    if firstMounted then Ok(())
    else if SysMount.RepairImage(repairStatus).Err? then Err(RepairFailed)
    else if secondMounted then Ok(())
    else Err(RemountFailed)
  }
}
