/** Order-preserving operations on sequences: `Array.filter` / `Iterator::filter`,
    and the first-occurrence de-duplication of `[...new Set(xs)]`. */
module Seqs {
  import opened Wrappers

  function Last<T>(s: seq<T>): T
    requires s != []
  {
    s[|s| - 1]
  }

  function Init<T>(s: seq<T>): seq<T>
    requires s != []
  {
    s[..|s| - 1]
  }

  /** `r` is `s` with some elements left out, the rest in their original order. */
  predicate IsSubsequence<T(==)>(r: seq<T>, s: seq<T>)
    decreases |s|
  {
    r == [] ||
    (s != [] &&
      ((Last(r) == Last(s) && IsSubsequence(Init(r), Init(s))) || IsSubsequence(r, Init(s))))
  }

  lemma {:induction false} SubsequenceRefl<T>(s: seq<T>)
    ensures IsSubsequence(s, s)
    decreases |s|
  {
    if s != [] {
      SubsequenceRefl(Init(s));
    }
  }

  /** Every element of a subsequence is an element of the whole. */
  lemma {:induction false} SubsequenceMembers<T>(r: seq<T>, s: seq<T>)
    requires IsSubsequence(r, s)
    ensures forall x :: x in r ==> x in s
    decreases |s|
  {
    if r != [] {
      assert forall x :: x in s <==> x in Init(s) || x == Last(s);
      if Last(r) == Last(s) && IsSubsequence(Init(r), Init(s)) {
        SubsequenceMembers(Init(r), Init(s));
        assert forall x :: x in r <==> x in Init(r) || x == Last(r);
      } else {
        SubsequenceMembers(r, Init(s));
      }
    }
  }

  /** A subsequence of a sequence ordered by `lt` is ordered by `lt`. */
  lemma {:induction false} SubsequenceOrdered<T>(r: seq<T>, s: seq<T>, lt: (T, T) -> bool)
    requires IsSubsequence(r, s)
    requires forall i, j :: 0 <= i < j < |s| ==> lt(s[i], s[j])
    ensures forall i, j :: 0 <= i < j < |r| ==> lt(r[i], r[j])
    decreases |s|
  {
    if r != [] {
      if Last(r) == Last(s) && IsSubsequence(Init(r), Init(s)) {
        SubsequenceOrdered(Init(r), Init(s), lt);
        SubsequenceMembers(Init(r), Init(s));
        forall i, j | 0 <= i < j < |r|
          ensures lt(r[i], r[j])
        {
          if j < |r| - 1 {
            assert r[i] == Init(r)[i] && r[j] == Init(r)[j];
          } else {
            assert r[i] in Init(s) by {
              assert r[i] == Init(r)[i];
            }
            var k :| 0 <= k < |Init(s)| && Init(s)[k] == r[i];
            assert s[k] == r[i] && s[|s| - 1] == r[j];
          }
        }
      } else {
        SubsequenceOrdered(r, Init(s), lt);
      }
    }
  }

  /** `s` back to front. */
  function Reverse<T>(s: seq<T>): (r: seq<T>)
    ensures |r| == |s|
    ensures forall i :: 0 <= i < |s| ==> r[i] == s[|s| - 1 - i]
    ensures multiset(r) == multiset(s)
  {
    if s == [] then []
    else
      assert s == [s[0]] + s[1..];
      Reverse(s[1..]) + [s[0]]
  }

  predicate NoDuplicates<T(==)>(s: seq<T>) {
    forall i, j :: 0 <= i < j < |s| ==> s[i] != s[j]
  }

  /** A permutation of a duplicate-free sequence has no value at two positions. */
  lemma PermutationPositions<T>(names: seq<T>, order: seq<T>, i: nat, j: nat)
    requires NoDuplicates(names) && multiset(order) == multiset(names)
    requires i < j < |order|
    ensures order[i] != order[j]
  {
    NoDuplicatesCountsOnce(names, order[i]);
    assert order == order[..i] + [order[i]] + order[i + 1..j] + [order[j]] + order[j + 1..];
    assert multiset{order[i], order[j]} <= multiset(order);
  }

  lemma {:induction false} NoDuplicatesCountsOnce<T>(s: seq<T>, x: T)
    requires NoDuplicates(s)
    ensures multiset(s)[x] <= 1
  {
    if s != [] {
      assert s == Init(s) + [Last(s)];
      NoDuplicatesCountsOnce(Init(s), x);
    }
  }

  /** A permutation of a duplicate-free sequence is duplicate-free. */
  lemma PermutationNoDuplicates<T>(names: seq<T>, order: seq<T>)
    requires NoDuplicates(names) && multiset(order) == multiset(names)
    ensures NoDuplicates(order)
  {
    forall i, j | 0 <= i < j < |order|
      ensures order[i] != order[j]
    {
      PermutationPositions(names, order, i, j);
    }
  }

  /** Two duplicate-free sequences with no common value join into one. */
  lemma NoDuplicatesAppend<T>(a: seq<T>, b: seq<T>)
    requires NoDuplicates(a) && NoDuplicates(b)
    requires forall x :: x in a ==> x !in b
    ensures NoDuplicates(a + b)
  {
    forall i, j | 0 <= i < j < |a + b|
      ensures (a + b)[i] != (a + b)[j]
    {
      if j >= |a| && i < |a| {
        assert (a + b)[i] in a && (a + b)[j] in b;
      }
    }
  }

  lemma AppendAssoc<T>(x: seq<T>, y: seq<T>, z: seq<T>)
    ensures x + y + z == x + (y + z)
  {
  }

  /** The elements of `s` satisfying `keep`, in their order in `s`. */
  function Filter<T(==,!new)>(s: seq<T>, keep: T -> bool): (r: seq<T>)
    ensures |r| <= |s|
    ensures forall x :: x in r <==> x in s && keep(x)
    ensures IsSubsequence(r, s)
    decreases |s|
  {
    if s == [] then []
    else
      var r := Filter(Init(s), keep);
      assert forall x :: x in s <==> x in Init(s) || x == Last(s);
      if keep(Last(s)) then
        assert Init(r + [Last(s)]) == r;
        r + [Last(s)]
      else r
  }

  /** One more element of a prefix: the filter grows by it exactly when it is kept. */
  lemma FilterPrefixStep<T(!new)>(s: seq<T>, i: nat, keep: T -> bool)
    requires i < |s|
    ensures Filter(s[..i + 1], keep) == Filter(s[..i], keep) + (if keep(s[i]) then [s[i]] else [])
  {
    assert Init(s[..i + 1]) == s[..i];
    assert Last(s[..i + 1]) == s[i];
  }

  /** A filter that keeps every element gives the sequence back. */
  lemma {:induction false} FilterKeepsAll<T(!new)>(s: seq<T>, keep: T -> bool)
    requires forall i :: 0 <= i < |s| ==> keep(s[i])
    ensures Filter(s, keep) == s
    decreases |s|
  {
    if s != [] {
      FilterKeepsAll(Init(s), keep);
      assert Init(s) + [Last(s)] == s;
    }
  }

  /** Filtering a duplicate-free sequence leaves it duplicate-free. */
  lemma {:induction false} FilterNoDuplicates<T(!new)>(s: seq<T>, keep: T -> bool)
    requires NoDuplicates(s)
    ensures NoDuplicates(Filter(s, keep))
    decreases |s|
  {
    if s != [] {
      FilterNoDuplicates(Init(s), keep);
      assert Last(s) !in Init(s);
    }
  }

  /** Index of the first occurrence of `x` in `s`. */
  function FirstIndex<T(==)>(s: seq<T>, x: T): (i: nat)
    requires x in s
    ensures i < |s| && s[i] == x && x !in s[..i]
  {
    if s[0] == x then 0
    else
      var i := FirstIndex(s[1..], x);
      assert s[..i + 1] == [s[0]] + s[1..][..i];
      i + 1
  }

  lemma FirstIndexOfPrefix<T>(s: seq<T>, x: T, y: T)
    requires x in s
    ensures FirstIndex(s + [y], x) == FirstIndex(s, x)
  {
    var i := FirstIndex(s, x);
    var j := FirstIndex(s + [y], x);
    assert (s + [y])[i] == x;
  }

  /** Order-preserving de-duplication: each element kept at its first occurrence,
      as `[...new Set(s)]` does. */
  function Distinct<T(==,!new)>(s: seq<T>): (r: seq<T>)
    ensures forall x :: x in r <==> x in s
    ensures NoDuplicates(r)
    ensures IsSubsequence(r, s)
    ensures forall i, j :: 0 <= i < j < |r| ==> FirstIndex(s, r[i]) < FirstIndex(s, r[j])
    decreases |s|
  {
    if s == [] then []
    else
      var x := Last(s);
      var r := Distinct(Init(s));
      assert s == Init(s) + [x];
      if x in r then
        DistinctKeepStep(Init(s), x, r);
        r
      else
        DistinctAddStep(Init(s), x, r);
        r + [x]
  }

  /** `r` lists the values of `s` once each, in the order they first occur. */
  ghost predicate DistinctOf<T(!new)>(r: seq<T>, s: seq<T>) {
    (forall x :: x in r <==> x in s) && NoDuplicates(r) && IsSubsequence(r, s)
    && forall i, j :: 0 <= i < j < |r| ==> FirstIndex(s, r[i]) < FirstIndex(s, r[j])
  }

  /** A value seen before adds nothing. */
  lemma DistinctKeepStep<T(!new)>(p: seq<T>, x: T, r: seq<T>)
    requires DistinctOf(r, p) && x in r
    ensures DistinctOf(r, p + [x])
  {
    var s := p + [x];
    assert Init(s) == p && Last(s) == x;
    forall y | y in p ensures FirstIndex(s, y) == FirstIndex(p, y) {
      FirstIndexOfPrefix(p, y, x);
    }
  }

  /** A new value goes last. */
  lemma DistinctAddStep<T(!new)>(p: seq<T>, x: T, r: seq<T>)
    requires DistinctOf(r, p) && x !in r
    ensures DistinctOf(r + [x], p + [x])
  {
    var s := p + [x];
    assert Init(s) == p && Last(s) == x;
    forall y | y in p ensures FirstIndex(s, y) == FirstIndex(p, y) {
      FirstIndexOfPrefix(p, y, x);
    }
    assert FirstIndex(s, x) == |s| - 1;
    assert Init(r + [x]) == r && Last(r + [x]) == x;
  }

  /** In `a + b`, elements of `a` occur first within `a`, the others after it. */
  lemma FirstIndexConcat<T>(a: seq<T>, b: seq<T>, x: T)
    requires x in a + b
    ensures x in a <==> FirstIndex(a + b, x) < |a|
  {
    var i := FirstIndex(a + b, x);
    if x in a {
      var k :| 0 <= k < |a| && a[k] == x;
      assert (a + b)[k] == x;
    }
  }

  /** Distinct leaves a sequence without duplicates as it is. */
  lemma {:induction false} DistinctOfDistinct<T(!new)>(s: seq<T>)
    requires NoDuplicates(s)
    ensures Distinct(s) == s
    decreases |s|
  {
    if s != [] {
      var x, rest := Last(s), Init(s);
      assert s == rest + [x];
      assert x !in rest;
      DistinctOfDistinct(rest);
      assert Distinct(s) == Distinct(rest) + [x];
    }
  }

  /** `Iterator::filter_map`: the values `f` yields, in order (unfolded from the end). */
  function FilterMap<T, U(==,!new)>(s: seq<T>, f: T -> Option<U>): (r: seq<U>)
    ensures |r| <= |s|
    ensures forall y :: y in r <==> exists i :: 0 <= i < |s| && f(s[i]) == Some(y)
  {
    if s == [] then []
    else
      var rest := FilterMap(Init(s), f);
      assert forall i :: 0 <= i < |s| - 1 ==> s[i] == Init(s)[i];
      match f(Last(s))
      case Some(y) => rest + [y]
      case None => rest
  }

  /** One more element of a prefix: the values grow by what `f` yields for it. */
  lemma FilterMapPrefixStep<T, U(!new)>(s: seq<T>, i: nat, f: T -> Option<U>)
    requires i < |s|
    ensures FilterMap(s[..i + 1], f) == FilterMap(s[..i], f) + (if f(s[i]).Some? then [f(s[i]).value] else [])
  {
    assert Init(s[..i + 1]) == s[..i];
    assert Last(s[..i + 1]) == s[i];
  }

  /** The index of the first element satisfying `p`, as a linear search that
      stops at the first hit. */
  function FirstMatch<T>(s: seq<T>, p: T -> bool): (r: Option<nat>)
    ensures r.None? <==> forall i :: 0 <= i < |s| ==> !p(s[i])
    ensures r.Some? ==> r.value < |s| && p(s[r.value]) && forall i :: 0 <= i < r.value ==> !p(s[i])
  {
    if s == [] then None
    else if p(s[0]) then Some(0)
    else match FirstMatch(s[1..], p)
      case None =>
        assert forall i :: 1 <= i < |s| ==> s[i] == s[1..][i - 1];
        None
      case Some(i) => Some(i + 1)
  }

  /** The number of elements of `s` satisfying `p`. */
  function Count<T>(s: seq<T>, p: T -> bool): (n: nat)
    ensures n <= |s|
  {
    if s == [] then 0 else (if p(s[0]) then 1 else 0) + Count(s[1..], p)
  }

  /** Counting over a sequence with one more element at the end. */
  lemma {:induction false} CountAppend<T>(s: seq<T>, x: T, p: T -> bool)
    ensures Count(s + [x], p) == Count(s, p) + (if p(x) then 1 else 0)
    decreases |s|
  {
    if s != [] {
      assert (s + [x])[1..] == s[1..] + [x];
      CountAppend(s[1..], x, p);
    }
  }

  /** The length of a filter is the number of elements it keeps. */
  lemma {:induction false} FilterLength<T(!new)>(s: seq<T>, p: T -> bool)
    ensures |Filter(s, p)| == Count(s, p)
    decreases |s|
  {
    if s != [] {
      FilterLength(Init(s), p);
      CountAppend(Init(s), Last(s), p);
      assert Init(s) + [Last(s)] == s;
    }
  }

  /** Counting a weaker property counts at least as many. */
  lemma {:induction false} CountMonotone<T>(s: seq<T>, p: T -> bool, q: T -> bool)
    requires forall x :: p(x) ==> q(x)
    ensures Count(s, p) <= Count(s, q)
  {
    if s != [] {
      CountMonotone(s[1..], p, q);
    }
  }

  /** Counting two disjoint properties never exceeds counting their union. */
  lemma {:induction false} CountDisjointSum<T>(s: seq<T>, p: T -> bool, q: T -> bool, both: T -> bool)
    requires forall x :: !(p(x) && q(x))
    requires forall x :: both(x) <==> p(x) || q(x)
    ensures Count(s, p) + Count(s, q) == Count(s, both)
  {
    if s != [] {
      CountDisjointSum(s[1..], p, q, both);
    }
  }
}
