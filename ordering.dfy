/** Orders and sorting: the lexicographic order on strings that Rust's `Ord for str`
    and `PathBuf` comparisons use for plain names, a stable insertion sort by any
    total preorder (what `sort_by` / `Array.sort` promise), and Rust's
    `sort()` followed by `dedup()`. */
module Ordering {
  import opened Seqs

  /** Strict lexicographic order by character code. */
  predicate Less(a: string, b: string)
    decreases |a|
  {
    if a == [] then b != []
    else if b == [] then false
    else if a[0] != b[0] then a[0] < b[0]
    else Less(a[1..], b[1..])
  }

  predicate LessOrEqual(a: string, b: string) {
    a == b || Less(a, b)
  }

  lemma {:induction false} LessIrreflexive(a: string)
    ensures !Less(a, a)
    decreases |a|
  {
    if a != [] {
      LessIrreflexive(a[1..]);
    }
  }

  lemma {:induction false} LessTransitive(a: string, b: string, c: string)
    requires Less(a, b) && Less(b, c)
    ensures Less(a, c)
    decreases |a|
  {
    if a != [] && b != [] && c != [] && a[0] == b[0] && b[0] == c[0] {
      LessTransitive(a[1..], b[1..], c[1..]);
    }
  }

  lemma {:induction false} LessTotal(a: string, b: string)
    ensures a == b || Less(a, b) || Less(b, a)
    decreases |a|
  {
    if a != [] && b != [] && a[0] == b[0] {
      LessTotal(a[1..], b[1..]);
      if a[1..] == b[1..] {
        assert a == [a[0]] + a[1..] && b == [b[0]] + b[1..];
      }
    }
  }

  lemma LessAsymmetric(a: string, b: string)
    requires Less(a, b)
    ensures !Less(b, a)
  {
    if Less(b, a) {
      LessTransitive(a, b, a);
      LessIrreflexive(a);
    }
  }

  /** `le` is a total preorder: what a comparator passed to a sort must be. */
  ghost predicate TotalPreorder<T(!new)>(le: (T, T) -> bool) {
    (forall x, y :: le(x, y) || le(y, x)) &&
    (forall x, y, z :: le(x, y) && le(y, z) ==> le(x, z))
  }

  predicate SortedBy<T>(s: seq<T>, le: (T, T) -> bool) {
    forall i, j :: 0 <= i < j < |s| ==> le(s[i], s[j])
  }

  /** Inserts `x` after every element that is not strictly above it (keeps ties stable). */
  function InsertBy<T>(x: T, s: seq<T>, le: (T, T) -> bool): (r: seq<T>)
    ensures multiset(r) == multiset(s) + multiset{x}
    ensures |r| == |s| + 1
  {
    if s == [] then [x]
    else if le(s[0], x) then
      assert s == [s[0]] + s[1..];
      [s[0]] + InsertBy(x, s[1..], le)
    else [x] + s
  }

  lemma {:induction false} InsertBySorted<T(!new)>(x: T, s: seq<T>, le: (T, T) -> bool)
    requires TotalPreorder(le)
    requires SortedBy(s, le)
    ensures SortedBy(InsertBy(x, s, le), le)
  {
    if s != [] && le(s[0], x) {
      InsertBySorted(x, s[1..], le);
      var tail := InsertBy(x, s[1..], le);
      forall y | y in tail ensures le(s[0], y) {
        assert y in multiset(tail);
        assert y in s[1..] || y == x;
      }
    }
  }

  /** A stable insertion sort by `le`. */
  function SortBy<T>(s: seq<T>, le: (T, T) -> bool): (r: seq<T>)
    ensures multiset(r) == multiset(s)
    ensures |r| == |s|
  {
    if s == [] then []
    else
      assert s == [s[0]] + s[1..];
      InsertBy(s[0], SortBy(s[1..], le), le)
  }

  lemma {:induction false} SortBySorted<T(!new)>(s: seq<T>, le: (T, T) -> bool)
    requires TotalPreorder(le)
    ensures SortedBy(SortBy(s, le), le)
  {
    if s != [] {
      SortBySorted(s[1..], le);
      InsertBySorted(s[0], SortBy(s[1..], le), le);
    }
  }

  predicate StrictlyAscending(s: seq<string>) {
    forall i, j :: 0 <= i < j < |s| ==> Less(s[i], s[j])
  }

  /** Rust's `Vec::dedup`: a run of equal neighbours keeps its first element. */
  function DedupAdjacent(s: seq<string>): (r: seq<string>)
    ensures forall x :: x in r <==> x in s
    ensures s != [] ==> r != [] && r[0] == s[0]
  {
    if |s| <= 1 then s
    else if s[0] == s[1] then
      assert s == [s[0]] + s[1..];
      DedupAdjacent(s[1..])
    else
      assert s == [s[0]] + s[1..];
      [s[0]] + DedupAdjacent(s[1..])
  }

  lemma {:induction false} DedupSortedAscending(s: seq<string>)
    requires forall i, j :: 0 <= i < j < |s| ==> LessOrEqual(s[i], s[j])
    ensures StrictlyAscending(DedupAdjacent(s))
  {
    if |s| > 1 {
      DedupSortedAscending(s[1..]);
      if s[0] != s[1] {
        var tail := DedupAdjacent(s[1..]);
        forall j | 0 <= j < |tail| ensures Less(s[0], tail[j]) {
          assert Less(s[0], s[1]);
          if j > 0 {
            LessTransitive(s[0], tail[0], tail[j]);
          }
        }
      }
    }
  }

  /** The comparator of a sort by string value. */
  function StringLe(): (string, string) -> bool {
    (a: string, b: string) => LessOrEqual(a, b)
  }

  lemma StringLeTotalPreorder()
    ensures TotalPreorder(StringLe())
  {
    var le := StringLe();
    forall x, y ensures le(x, y) || le(y, x) {
      LessTotal(x, y);
    }
    forall x, y, z | le(x, y) && le(y, z) ensures le(x, z) {
      if x != y && y != z {
        LessTransitive(x, y, z);
      }
    }
  }

  /** Rust's `sort` (or `sort_by_key` on the name) of strings: ascending, the
      same values. */
  function SortStrings(s: seq<string>): (r: seq<string>)
    ensures multiset(r) == multiset(s)
    ensures forall i, j :: 0 <= i < j < |r| ==> LessOrEqual(r[i], r[j])
  {
    StringLeTotalPreorder();
    SortBySorted(s, StringLe());
    SortBy(s, StringLe())
  }

  /** Rust's `v.sort(); v.dedup();` on strings: ascending, each value once. */
  function SortDedup(s: seq<string>): (r: seq<string>)
    ensures StrictlyAscending(r)
    ensures forall x :: x in r <==> x in s
  {
    var sorted := SortStrings(s);
    DedupSortedAscending(sorted);
    assert forall x :: x in sorted <==> x in multiset(s);
    DedupAdjacent(sorted)
  }

  lemma StrictlyAscendingNoDuplicates(s: seq<string>)
    requires StrictlyAscending(s)
    ensures NoDuplicates(s)
  {
    forall i, j | 0 <= i < j < |s| ensures s[i] != s[j] {
      LessIrreflexive(s[i]);
    }
  }

  /** In a strictly ascending sequence the head is below every other element. */
  lemma HeadIsLeast(s: seq<string>, x: string)
    requires StrictlyAscending(s)
    requires x in s && x != s[0]
    ensures Less(s[0], x)
  {
    var k :| 0 <= k < |s| && s[k] == x;
  }

  lemma SameElementsBothEmpty(a: seq<string>, b: seq<string>)
    requires forall x :: x in a <==> x in b
    ensures a == [] <==> b == []
  {
    if a != [] {
      assert a[0] in b;
    }
    if b != [] {
      assert b[0] in a;
    }
  }

  /** Two strictly ascending sequences with the same elements are equal: the result
      of `sort(); dedup();` depends only on the set of values. */
  lemma {:induction false} StrictlyAscendingUnique(a: seq<string>, b: seq<string>)
    requires StrictlyAscending(a) && StrictlyAscending(b)
    requires forall x :: x in a <==> x in b
    ensures a == b
    decreases |a|
  {
    SameElementsBothEmpty(a, b);
    if a != [] {
      if a[0] != b[0] {
        HeadIsLeast(a, b[0]);
        HeadIsLeast(b, a[0]);
        LessAsymmetric(a[0], b[0]);
      }
      assert a == [a[0]] + a[1..] && b == [b[0]] + b[1..];
      forall x ensures x in a[1..] <==> x in b[1..] {
        LessIrreflexive(a[0]);
        if x in a[1..] {
          HeadIsLeast(a, x);
        }
        if x in b[1..] {
          HeadIsLeast(b, x);
        }
      }
      StrictlyAscendingUnique(a[1..], b[1..]);
    }
  }
}
