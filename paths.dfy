/** Unix paths as Rust's `std::path` sees them: a path is compared, prefixed
    and hashed by its components, not by its text, and `join` adds a separator
    whenever the base does not already end in one. */
module Paths {
  import opened Wrappers
  import opened Strings

  datatype Component = RootDir | CurDir | ParentDir | Normal(name: string)

  /** Rust's `Component::as_os_str`. */
  function AsStr(c: Component): string {
    match c
    case RootDir => "/"
    case CurDir => "."
    case ParentDir => ".."
    case Normal(n) => n
  }

  function LastIndexOf(s: string, c: char): (r: Option<nat>)
    ensures r.None? <==> c !in s
    ensures r.Some? ==> r.value < |s| && s[r.value] == c && c !in s[r.value + 1..]
  {
    if s == [] then None
    else if s[|s| - 1] == c then Some(|s| - 1)
    else
      var r := LastIndexOf(s[..|s| - 1], c);
      assert forall i :: 0 <= i < |s| - 1 ==> s[..|s| - 1][i] == s[i];
      r
  }

  /** A piece between separators that names something: not empty and not ".". */
  function Keep(piece: string): seq<string> {
    if piece == [] || piece == "." then [] else [piece]
  }

  /** The pieces of `p` between '/' separators, with empty and "." pieces dropped. */
  function Segments(p: string): (r: seq<string>)
    ensures forall k :: 0 <= k < |r| ==> r[k] != [] && r[k] != "." && '/' !in r[k]
    decreases |p|
  {
    if p == [] then []
    else if p[|p| - 1] == '/' then Segments(p[..|p| - 1])
    else match LastIndexOf(p, '/')
      case None => Keep(p)
      case Some(i) => Segments(p[..i]) + Keep(p[i + 1..])
  }

  function ToComponent(piece: string): Component {
    if piece == ".." then ParentDir else Normal(piece)
  }

  /** The leading component that only the start of a path can produce. */
  function Leading(p: string): seq<Component> {
    if StartsWith(p, "/") then [RootDir]
    else if p == "." || StartsWith(p, "./") then [CurDir]
    else []
  }

  /** Rust's `Path::components` for a Unix path. */
  function Components(p: string): (r: seq<Component>)
    ensures StartsWith(p, "/") ==> r != [] && r[0] == RootDir
  {
    var segs := Segments(p);
    Leading(p) + seq(|segs|, i requires 0 <= i < |segs| => ToComponent(segs[i]))
  }

  /** Rust's `PartialEq`/`Hash` on paths: equal component sequences. */
  predicate SamePath(p: string, q: string) {
    Components(p) == Components(q)
  }

  /** Rust's `Path::starts_with`: `base`'s components are a prefix of `p`'s. */
  predicate PathStartsWith(p: string, base: string) {
    var cp, cb := Components(p), Components(base);
    |cb| <= |cp| && cp[..|cb|] == cb
  }

  /** `p` lies strictly below `base`: below it, and neither `base` nor one of its
      ancestors. */
  predicate StrictlyBelow(p: string, base: string) {
    PathStartsWith(p, base) && !PathStartsWith(base, p)
  }

  /** Rust's `Path::join`: an absolute `name` replaces the base; otherwise a '/' is
      inserted unless the base is empty or already ends in one. */
  function Join(base: string, name: string): (r: string)
    ensures StartsWith(name, "/") ==> r == name
    ensures !StartsWith(name, "/") ==> EndsWith(r, name) && StartsWith(r, base)
  {
    if StartsWith(name, "/") then name
    else if base == [] || base[|base| - 1] == '/' then base + name
    else base + "/" + name
  }

  /** `Path::new(t).join("")` names the same path as `t`: only a '/' is added. */
  lemma JoinEmptySamePath(t: string)
    ensures SamePath(Join(t, ""), t)
  {
    var j := Join(t, "");
    if t != [] && t[|t| - 1] != '/' {
      assert j == t + "/";
      assert j[..|j| - 1] == t;
      assert Segments(j) == Segments(t);
      assert StartsWith(j, "/") <==> StartsWith(t, "/");
      assert StartsWith(j, "./") <==> (t == "." || StartsWith(t, "./"));
    } else {
      assert j == t;
    }
  }

  /** The first component of a relative path that starts with '/' is the root,
      whose text with its leading '/'s trimmed is empty. */
  lemma FirstComponentOfSlashed(rel: string)
    requires StartsWith(rel, "/")
    ensures Components(rel)[0] == RootDir
    ensures TrimStartChar(AsStr(Components(rel)[0]), '/') == ""
  {
    assert AsStr(RootDir)[1..] == [];
  }
  /** The last `c` of `a + b` is the last `c` of `b` when `b` has one, else the last of `a`. */
  lemma {:induction false} LastIndexOfAppend(a: string, b: string, c: char)
    ensures c in b ==> LastIndexOf(a + b, c) == Some(|a| + LastIndexOf(b, c).value)
    ensures c !in b ==> LastIndexOf(a + b, c) == LastIndexOf(a, c)
    decreases |b|
  {
    if b == [] {
      assert a + b == a;
    } else if b[|b| - 1] != c {
      assert (a + b)[..|a + b| - 1] == a + b[..|b| - 1];
      assert c in b <==> c in b[..|b| - 1];
      LastIndexOfAppend(a, b[..|b| - 1], c);
    }
  }

  /** One unfolding of `Segments` on text that does not end in '/'. */
  lemma SegmentsAtLastSlash(s: string, k: nat)
    requires s != [] && s[|s| - 1] != '/' && LastIndexOf(s, '/') == Some(k)
    ensures Segments(s) == Segments(s[..k]) + Keep(s[k + 1..])
  {
  }

  /** A trailing '/' adds no segment. */
  lemma SegmentsTrailingSlash(s: string)
    requires s != [] && s[|s| - 1] == '/'
    ensures Segments(s) == Segments(s[..|s| - 1])
  {
  }

  /** Joining two texts with a '/' joins their segments. */
  lemma {:induction false} SegmentsAppend(p: string, q: string)
    ensures Segments(p + "/" + q) == Segments(p) + Segments(q)
    decreases |q|, 1
  {
    var s := p + "/" + q;
    if q == [] {
      assert s[..|s| - 1] == p;
      SegmentsTrailingSlash(s);
      assert Segments(p) + [] == Segments(p);
    } else if q[|q| - 1] == '/' {
      assert s[..|s| - 1] == p + "/" + q[..|q| - 1];
      SegmentsTrailingSlash(s);
      SegmentsTrailingSlash(q);
      SegmentsAppend(p, q[..|q| - 1]);
    } else {
      LastIndexOfAppend(p + "/", q, '/');
      if '/' in q {
        SegmentsAppendSlashInLast(p, q);
      } else {
        LastIndexOfAppend(p, "/", '/');
        assert s[..|p|] == p && s[|p| + 1..] == q;
        SegmentsAtLastSlash(s, |p|);
        assert Segments(q) == Keep(q);
      }
    }
  }

  /** The step of `SegmentsAppend` where the last piece of `q` follows a '/' of `q`. */
  lemma {:induction false} SegmentsAppendSlashInLast(p: string, q: string)
    requires q != [] && q[|q| - 1] != '/' && '/' in q
    requires LastIndexOf(p + "/" + q, '/') == Some(|p| + 1 + LastIndexOf(q, '/').value)
    ensures Segments(p + "/" + q) == Segments(p) + Segments(q)
    decreases |q|, 0
  {
    var s := p + "/" + q;
    var j := LastIndexOf(q, '/').value;
    var k := |p| + 1 + j;
    assert s[..k] == p + "/" + q[..j];
    assert s[k + 1..] == q[j + 1..];
    SegmentsAtLastSlash(s, k);
    SegmentsAtLastSlash(q, j);
    SegmentsAppend(p, q[..j]);
    assert Segments(p) + Segments(q[..j]) + Keep(q[j + 1..]) == Segments(p) + (Segments(q[..j]) + Keep(q[j + 1..]));
  }

  /** The first segment of "/" + name + rest is `name`, for a name that is a
      single segment and a rest that is empty or starts at a separator. */
  lemma FirstSegmentOfChild(name: string, rest: string)
    requires name != [] && name != "." && '/' !in name
    requires rest == [] || StartsWith(rest, "/")
    ensures Segments("/" + name + rest) != [] && Segments("/" + name + rest)[0] == name
  {
    assert "/" + name + rest == "/" + (name + rest);
    SegmentsRooted(name + rest);
    SegmentsNameFirst(name, rest);
  }

  /** A leading '/' adds no segment. */
  lemma SegmentsRooted(tail: string)
    ensures Segments("/" + tail) == Segments(tail)
  {
    assert "/" + tail == [] + "/" + tail;
    SegmentsAppend([], tail);
    assert Segments([]) == [];
  }

  lemma SegmentsNameFirst(name: string, rest: string)
    requires name != [] && name != "." && '/' !in name
    requires rest == [] || StartsWith(rest, "/")
    ensures Segments(name + rest) != [] && Segments(name + rest)[0] == name
  {
    SegmentsOfName(name);
    if rest == [] {
      assert name + rest == name;
    } else {
      assert name + rest == name + "/" + rest[1..];
      SegmentsAppend(name, rest[1..]);
    }
  }

  /** A single piece is its own only segment. */
  lemma SegmentsOfName(name: string)
    requires name != [] && name != "." && '/' !in name
    ensures Segments(name) == [name]
  {
  }

  /** `HashSet<PathBuf>::contains`: some member names the same path. */
  function ContainsPath(paths: seq<string>, p: string): (r: bool)
    ensures r <==> exists i :: 0 <= i < |paths| && SamePath(paths[i], p)
  {
    if paths == [] then false
    else SamePath(paths[0], p) || ContainsPath(paths[1..], p)
  }
}
