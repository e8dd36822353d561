/** The build helper: architecture names, the build flags chosen from the
    command line, the Android `versionCode` computed from a dotted version, the
    release version strings, the rewrite of the `version =` line of Cargo.toml,
    and the archive and module.prop texts. Processes, git and file copies are
    left out; the Cargo.toml text comes in and goes out as a string. */
module Xtask {
  import opened Wrappers
  import opened Strings

  datatype Arch = Arm64 | Arm | X86_64

  /** The Android ABI directory name of an architecture. */
  function Target(a: Arch): string {
    match a
    case Arm64 => "arm64-v8a"
    case Arm => "armeabi-v7a"
    case X86_64 => "x86_64"
  }

  /** The Rust target triple of an architecture. */
  function AndroidAbi(a: Arch): string {
    match a
    case Arm64 => "aarch64-linux-android"
    case Arm => "armv7-linux-androideabi"
    case X86_64 => "x86_64-linux-android"
  }

  /** Different architectures never share a directory or a target triple. */
  lemma ArchNamesInjective(a: Arch, b: Arch)
    ensures Target(a) == Target(b) ==> a == b
    ensures AndroidAbi(a) == AndroidAbi(b) ==> a == b
  {
  }

  datatype BuildArgs = BuildArgs(cargoRelease: bool, webuiRelease: bool, archs: seq<Arch>)

  /** The flags `build` runs with: a CI build is a release core build of arm64
      with a debug web UI, whatever else was asked; otherwise the chosen
      architecture, or all three, with both release flags as requested. */
  function SelectBuildArgs(ci: bool, release: bool, arch: Option<Arch>): (r: BuildArgs)
    ensures ci ==> r == BuildArgs(true, false, [Arm64])
    ensures !ci ==> r.cargoRelease == release && r.webuiRelease == release
    ensures !ci && arch.Some? ==> r.archs == [arch.value]
    ensures !ci && arch.None? ==> Arm64 in r.archs && Arm in r.archs && X86_64 in r.archs
    ensures |r.archs| >= 1
    ensures forall i, j :: 0 <= i < j < |r.archs| ==> r.archs[i] != r.archs[j]
  {
    if ci then BuildArgs(true, false, [Arm64])
    else
      var archs := if arch.Some? then [arch.value] else [Arm64, Arm, X86_64];
      BuildArgs(release, release, archs)
  }

  const U32_MAX: nat := 0xFFFF_FFFF

  /** `part.parse::<u32>().unwrap_or(0)`. */
  function PartOrZero(part: string): (n: nat)
    ensures n <= U32_MAX
  {
    ParseUnsigned(part, 10, U32_MAX).GetOr(0)
  }

  /** `format!("{}{:02}{:02}", major, minor, patch)`. */
  function FormatVersionCode(major: nat, minor: nat, patch: nat): string {
    Decimal(major) + Pad2(minor) + Pad2(patch)
  }

  /** `calculate_version_code`: "0" unless the version has three '.'-parts;
      parts after the third are ignored, unparsable parts count as 0. */
  function CalculateVersionCode(version: string): (r: string)
    ensures |Split(version, '.')| < 3 ==> r == "0"
    ensures |Split(version, '.')| >= 3 ==>
      var parts := Split(version, '.');
      r == FormatVersionCode(PartOrZero(parts[0]), PartOrZero(parts[1]), PartOrZero(parts[2]))
  {
    var parts := Split(version, '.');
    if |parts| >= 3 then
      FormatVersionCode(PartOrZero(parts[0]), PartOrZero(parts[1]), PartOrZero(parts[2]))
    else "0"
  }

  lemma PadTwoDigits(ds: string, v: nat, n: nat)
    requires n < 100
    requires DigitsValue(ds, 10) == Some(v)
    ensures DigitsValue(ds + Pad2(n), 10) == Some(v * 100 + n)
  {
    AppendTwoDigits(ds, v, n / 10, n % 10);
    TwoDigitsValue(v, n);
  }

  /** Two digits appended to a decimal numeral shift it by two places. */
  lemma AppendTwoDigits(ds: string, v: nat, d1: nat, d0: nat)
    requires d1 < 10 && d0 < 10
    requires DigitsValue(ds, 10) == Some(v)
    ensures DigitsValue(ds + [DigitChar(d1), DigitChar(d0)], 10) == Some((v * 10 + d1) * 10 + d0)
  {
    assert ds + [DigitChar(d1), DigitChar(d0)] == (ds + [DigitChar(d1)]) + [DigitChar(d0)];
    DigitsValueAppend(ds, d1, v);
    DigitsValueAppend(ds + [DigitChar(d1)], d0, v * 10 + d1);
  }

  lemma TwoDigitsValue(v: nat, n: nat)
    requires n < 100
    ensures (v * 10 + n / 10) * 10 + n % 10 == v * 100 + n
  {
    assert n == n / 10 * 10 + n % 10;
    assert (v * 10 + n / 10) * 10 == v * 100 + n / 10 * 10;
  }

  /** Read as a decimal number, the code is 10000·major + 100·minor + patch, as
      long as minor and patch stay below 100. */
  lemma VersionCodeValue(major: nat, minor: nat, patch: nat)
    requires minor < 100 && patch < 100
    ensures DigitsValue(FormatVersionCode(major, minor, patch), 10)
      == Some(10000 * major + 100 * minor + patch)
  {
    DigitsValueDecimal(major);
    PadTwoDigits(Decimal(major), major, minor);
    PadTwoDigits(Decimal(major) + Pad2(minor), major * 100 + minor, patch);
    assert Decimal(major) + Pad2(minor) + Pad2(patch) == FormatVersionCode(major, minor, patch);
  }

  /** A later version (compared part by part) has a larger code, as long as minor
      and patch stay below 100. */
  lemma VersionCodeMonotonic(a: (nat, nat, nat), b: (nat, nat, nat))
    requires a.1 < 100 && a.2 < 100 && b.1 < 100 && b.2 < 100
    requires a.0 < b.0 || (a.0 == b.0 && (a.1 < b.1 || (a.1 == b.1 && a.2 < b.2)))
    ensures var x, y := DigitsValue(FormatVersionCode(a.0, a.1, a.2), 10),
                        DigitsValue(FormatVersionCode(b.0, b.1, b.2), 10);
      x.Some? && y.Some? && x.value < y.value
  {
    VersionCodeValue(a.0, a.1, a.2);
    VersionCodeValue(b.0, b.1, b.2);
  }

  /** Three dot-free parts joined by '.' split back into those parts. */
  lemma SplitThreeParts(a: string, b: string, c: string)
    requires '.' !in a && '.' !in b && '.' !in c
    ensures Split(a + "." + b + "." + c, '.') == [a, b, c]
  {
    var parts := [a, b, c];
    assert Join(parts[2..], '.') == c;
    assert Join(parts[1..], '.') == b + "." + c;
    assert Join(parts, '.') == a + "." + b + "." + c;
    SplitJoin(parts, '.');
  }

  lemma VersionCodeOfParts(major: nat, minor: nat, patch: nat)
    requires major <= U32_MAX && minor <= U32_MAX && patch <= U32_MAX
    ensures CalculateVersionCode(Decimal(major) + "." + Decimal(minor) + "." + Decimal(patch))
      == FormatVersionCode(major, minor, patch)
  {
    SplitThreeParts(Decimal(major), Decimal(minor), Decimal(patch));
    ParseDecimal(major, U32_MAX);
    ParseDecimal(minor, U32_MAX);
    ParseDecimal(patch, U32_MAX);
  }

  lemma DecimalHundred()
    ensures Decimal(100) == "100" && Pad2(100) == "100"
  {
    assert Decimal(10) == Decimal(1) + [DigitChar(0)];
    assert Decimal(100) == Decimal(10) + [DigitChar(0)];
  }

  lemma SmallDecimals()
    ensures Decimal(0) == "0" && Decimal(1) == "1" && Decimal(11) == "11"
    ensures Pad2(0) == "00"
  {
    assert Decimal(11) == Decimal(1) + [DigitChar(1)];
  }

  lemma FormatCollision()
    ensures FormatVersionCode(1, 100, 0) == "110000"
    ensures FormatVersionCode(11, 0, 0) == "110000"
  {
    DecimalHundred();
    SmallDecimals();
  }

  /** With a part of 100 or more the padding no longer separates the parts:
      versions 1.100.0 and 11.0.0 both get the code "110000". */
  lemma VersionCodeCollision()
    ensures FormatVersionCode(1, 100, 0) == FormatVersionCode(11, 0, 0) == "110000"
    ensures CalculateVersionCode(Decimal(1) + "." + Decimal(100) + "." + Decimal(0))
      == CalculateVersionCode(Decimal(11) + "." + Decimal(0) + "." + Decimal(0))
  {
    FormatCollision();
    VersionCodeOfParts(1, 100, 0);
    VersionCodeOfParts(11, 0, 0);
  }

  datatype VersionInfo = VersionInfo(cleanVersion: string, fullVersion: string, versionCode: string)

  /** Rendering of the signed commit count that `git rev-list --count` gives. */
  function SignedDecimal(n: int): string {
    if n < 0 then "-" + Decimal(-n) else Decimal(n)
  }

  /** `resolve_release_version` after the Cargo.toml rewrite: the tag without its
      leading 'v's, that plus "-" and the commit count, and the code of the
      clean version. */
  function ResolveReleaseVersion(tag: string, commitCount: int): (r: VersionInfo)
    ensures r.cleanVersion == [] || r.cleanVersion[0] != 'v'
    ensures |r.cleanVersion| <= |tag|
    ensures tag == seq(|tag| - |r.cleanVersion|, _ => 'v') + r.cleanVersion
    ensures r.fullVersion == r.cleanVersion + "-" + SignedDecimal(commitCount)
    ensures r.versionCode == CalculateVersionCode(r.cleanVersion)
  {
    var clean := TrimStartChar(tag, 'v');
    assert tag == tag[..|tag| - |clean|] + clean;
    assert tag[..|tag| - |clean|] == seq(|tag| - |clean|, _ => 'v');
    VersionInfo(clean, clean + "-" + SignedDecimal(commitCount), CalculateVersionCode(clean))
  }

  /** `resolve_local_or_ci_version` after Cargo.toml has been read and parsed:
      the package version as it stands, that plus "-" and the commit count, and
      the code of the package version. */
  function ResolveLocalVersion(packageVersion: string, commitCount: int): (r: VersionInfo)
    ensures r.cleanVersion == packageVersion && r.versionCode == CalculateVersionCode(packageVersion)
    ensures packageVersion == [] || packageVersion[0] != 'v' ==> r == ResolveReleaseVersion(packageVersion, commitCount)
  {
    assert packageVersion == [] || packageVersion[0] != 'v' ==>
      packageVersion == ResolveReleaseVersion(packageVersion, commitCount).cleanVersion by {
      var release := ResolveReleaseVersion(packageVersion, commitCount);
      var k := |packageVersion| - |release.cleanVersion|;
      if k > 0 && packageVersion != [] {
        assert packageVersion[0] == seq(k, _ => 'v')[0];
      }
    }
    VersionInfo(packageVersion, packageVersion + "-" + SignedDecimal(commitCount), CalculateVersionCode(packageVersion))
  }

  /** After a release build has written the clean tag into Cargo.toml, a local
      build at the same commit count resolves the same version information. */
  lemma LocalAgreesWithRelease(tag: string, commitCount: int)
    ensures ResolveLocalVersion(ResolveReleaseVersion(tag, commitCount).cleanVersion, commitCount)
      == ResolveReleaseVersion(tag, commitCount)
  {
  }

  /** The line `update_cargo_toml_version` writes in place of the old one. */
  function VersionLine(version: string): string {
    "version = \"" + version + "\""
  }

  predicate IsVersionLine(line: string) {
    StartsWith(line, "version =")
  }

  /** The lines with the first `version =` line replaced, the rest verbatim. */
  function ReplaceFirstVersionLine(lines: seq<string>, version: string): (r: seq<string>)
    ensures |r| == |lines|
  {
    if lines == [] then []
    else if IsVersionLine(lines[0]) then [VersionLine(version)] + lines[1..]
    else [lines[0]] + ReplaceFirstVersionLine(lines[1..], version)
  }

  /** Only the first line that starts with "version =" changes, and it becomes
      the new version line; when there is none, nothing changes. */
  lemma {:induction false} ReplaceFirstVersionLineSpec(lines: seq<string>, version: string, i: nat)
    requires i < |lines|
    ensures var r := ReplaceFirstVersionLine(lines, version);
      if IsVersionLine(lines[i]) && forall j :: 0 <= j < i ==> !IsVersionLine(lines[j])
      then r[i] == VersionLine(version)
      else r[i] == lines[i]
  {
    if i > 0 && !IsVersionLine(lines[0]) {
      ReplaceFirstVersionLineSpec(lines[1..], version, i - 1);
      assert forall j :: 0 <= j < i - 1 ==> lines[1..][j] == lines[j + 1];
    }
  }

  /** Rewriting a second time with the same version changes nothing more. */
  lemma {:induction false} ReplaceFirstVersionLineIdempotent(lines: seq<string>, version: string)
    ensures ReplaceFirstVersionLine(ReplaceFirstVersionLine(lines, version), version)
      == ReplaceFirstVersionLine(lines, version)
  {
    if lines != [] {
      if IsVersionLine(lines[0]) {
        assert IsVersionLine(VersionLine(version));
      } else {
        ReplaceFirstVersionLineIdempotent(lines[1..], version);
      }
    }
  }

  /** One step of the rewrite: the head line, then the rest. */
  lemma ReplaceFirstVersionLineStep(lines: seq<string>, version: string)
    requires lines != []
    ensures IsVersionLine(lines[0]) ==>
      ReplaceFirstVersionLine(lines, version) == [VersionLine(version)] + lines[1..]
    ensures !IsVersionLine(lines[0]) ==>
      ReplaceFirstVersionLine(lines, version) == [lines[0]] + ReplaceFirstVersionLine(lines[1..], version)
    ensures lines == [lines[0]] + lines[1..]
  {
  }

  /** `update_cargo_toml_version` on the file's text: walks the lines once with a
      `replaced` flag and writes every line back followed by '\n'. */
  method UpdateCargoTomlVersion(content: string, version: string) returns (written: string)
    ensures written == Unlines(ReplaceFirstVersionLine(Lines(content), version))
  {
    var lines := Lines(content);
    var newLines := RewriteVersionLine(lines, version);
    written := Unlines(newLines);
  }

  /** The line loop of `update_cargo_toml_version`. */
  method RewriteVersionLine(lines: seq<string>, version: string) returns (newLines: seq<string>)
    ensures newLines == ReplaceFirstVersionLine(lines, version)
  {
    newLines := [];
    var replaced := false;
    ghost var target := ReplaceFirstVersionLine(lines, version);
    assert lines[0..] == lines;
    var i := 0;
    while i < |lines|
      invariant 0 <= i <= |lines|
      invariant newLines + Remaining(lines, i, version, replaced) == target
    {
      RewriteStep(lines, i, version, replaced, newLines, target);
      var now := !replaced && IsVersionLine(lines[i]);
      var line := if now then VersionLine(version) else lines[i];
      newLines := newLines + [line];
      replaced := replaced || now;
      i := i + 1;
    }
    RemainingAtEnd(lines, version, replaced);
    assert newLines + [] == newLines;
  }

  /** One pass of the loop keeps what is written plus what remains equal to
      the whole rewrite. */
  lemma RewriteStep(lines: seq<string>, i: nat, version: string, replaced: bool,
                    newLines: seq<string>, target: seq<string>)
    requires i < |lines|
    requires newLines + Remaining(lines, i, version, replaced) == target
    ensures var now := !replaced && IsVersionLine(lines[i]);
      (newLines + [if now then VersionLine(version) else lines[i]]) + Remaining(lines, i + 1, version, replaced || now)
        == target
  {
    var now := !replaced && IsVersionLine(lines[i]);
    var line := if now then VersionLine(version) else lines[i];
    RemainingStep(lines, i, version, replaced);
    MoveHead(newLines, line, Remaining(lines, i, version, replaced), Remaining(lines, i + 1, version, replaced || now), target);
  }

  /** Moving the head of what remains to the end of what is written keeps
      their concatenation. */
  lemma MoveHead<T>(done: seq<T>, x: T, rest: seq<T>, rest': seq<T>, whole: seq<T>)
    requires done + rest == whole && rest == [x] + rest'
    ensures (done + [x]) + rest' == whole
  {
    assert done + ([x] + rest') == (done + [x]) + rest';
  }

  lemma RemainingAtEnd(lines: seq<string>, version: string, replaced: bool)
    ensures Remaining(lines, |lines|, version, replaced) == []
  {
    assert lines[|lines|..] == [];
  }

  /** What the loop still has to write from line `i` on. */
  ghost function Remaining(lines: seq<string>, i: nat, version: string, replaced: bool): seq<string>
    requires i <= |lines|
  {
    if replaced then lines[i..] else ReplaceFirstVersionLine(lines[i..], version)
  }

  lemma RemainingStep(lines: seq<string>, i: nat, version: string, replaced: bool)
    requires i < |lines|
    ensures var now := !replaced && IsVersionLine(lines[i]);
      Remaining(lines, i, version, replaced)
        == [if now then VersionLine(version) else lines[i]] + Remaining(lines, i + 1, version, replaced || now)
  {
    ReplaceFirstVersionLineStep(lines[i..], version);
    assert lines[i..][1..] == lines[i + 1..];
  }

  /** Reading the rewritten file back gives the rewritten lines, provided no
      line of the original ends in a carriage return. */
  lemma RewrittenFileReadsBack(content: string, version: string)
    requires forall l :: l in Lines(content) ==> !EndsWith(l, "\r")
    requires PlainLine(VersionLine(version))
    ensures Lines(Unlines(ReplaceFirstVersionLine(Lines(content), version)))
      == ReplaceFirstVersionLine(Lines(content), version)
  {
    var lines := Lines(content);
    var r := ReplaceFirstVersionLine(lines, version);
    forall k | 0 <= k < |r| ensures PlainLine(r[k]) {
      ReplaceFirstVersionLineSpec(lines, version, k);
      assert lines[k] in lines;
    }
    LinesUnlines(r);
  }

  /** `output/Hybrid-Mount-<full version>.zip`. */
  function ArchiveName(fullVersion: string): string {
    "Hybrid-Mount-" + fullVersion + ".zip"
  }

  /** The module.prop entries, in the order they are written. */
  function ModulePropLines(name: string, info: VersionInfo, description: string, update: string): seq<string> {
    [ "id=hybrid_mount",
      "name=" + name,
      "version=" + info.fullVersion,
      "versionCode=" + info.versionCode,
      "author=Hybrid Mount Developers",
      "description=" + description,
      "updateJson=" + update,
      "metamodule=1",
      "webuiIcon=launcher.png" ]
  }

  function ModuleProp(name: string, info: VersionInfo, description: string, update: string): string {
    Unlines(ModulePropLines(name, info, description, update))
  }

  /** Reading module.prop back gives exactly the lines written, in order (id,
      name, version, versionCode, author, description, updateJson, then the
      two flags), when no field spans lines or ends in a carriage return. */
  lemma ModulePropReadsBack(name: string, info: VersionInfo, description: string, update: string)
    requires forall l :: l in ModulePropLines(name, info, description, update) ==> PlainLine(l)
    ensures Lines(ModuleProp(name, info, description, update)) == ModulePropLines(name, info, description, update)
  {
    var ls := ModulePropLines(name, info, description, update);
    forall k | 0 <= k < |ls| ensures PlainLine(ls[k]) {
      assert ls[k] in ls;
    }
    LinesUnlines(ls);
  }
}
