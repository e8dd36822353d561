/** Text helpers shared by the models: prefixes, substrings, Rust's `trim`,
    `split`, `split_once` and `lines`, decimal rendering and Rust's unsigned
    integer parsing (`str::parse` / `from_str_radix`). Strings are `seq<char>`. */
module Strings {
  import opened Wrappers

  predicate StartsWith(s: string, prefix: string) {
    |prefix| <= |s| && s[..|prefix|] == prefix
  }

  predicate EndsWith(s: string, suffix: string) {
    |suffix| <= |s| && s[|s| - |suffix|..] == suffix
  }

  /** `s.includes(sub)` / `s.contains(sub)`: some window of `s` equals `sub`. */
  predicate HasSubstringAt(s: string, sub: string, i: int) {
    0 <= i && i + |sub| <= |s| && s[i..i + |sub|] == sub
  }

  function Contains(s: string, sub: string): (r: bool)
    ensures r <==> exists i :: HasSubstringAt(s, sub, i)
    decreases |s|
  {
    if StartsWith(s, sub) then
      assert HasSubstringAt(s, sub, 0);
      true
    else if |s| == 0 then
      assert forall i :: !HasSubstringAt(s, sub, i);
      false
    else
      var r := Contains(s[1..], sub);
      assert forall i :: HasSubstringAt(s[1..], sub, i) <==> HasSubstringAt(s, sub, i + 1);
      assert forall i :: HasSubstringAt(s, sub, i) && i > 0 ==> HasSubstringAt(s[1..], sub, i - 1);
      r
  }

  /** The first index at which `sub` occurs in `s`. */
  function FindSubstring(s: string, sub: string): (r: Option<nat>)
    ensures r.None? <==> forall i :: !HasSubstringAt(s, sub, i)
    ensures r.Some? ==> HasSubstringAt(s, sub, r.value) && forall i :: 0 <= i < r.value ==> !HasSubstringAt(s, sub, i)
    decreases |s|
  {
    if StartsWith(s, sub) then
      assert HasSubstringAt(s, sub, 0);
      Some(0)
    else if |s| == 0 then
      assert forall i :: !HasSubstringAt(s, sub, i);
      None
    else
      assert forall i :: HasSubstringAt(s[1..], sub, i) <==> HasSubstringAt(s, sub, i + 1);
      assert forall i :: HasSubstringAt(s, sub, i) && i > 0 ==> HasSubstringAt(s[1..], sub, i - 1);
      match FindSubstring(s[1..], sub)
      case None => None
      case Some(i) => Some(i + 1)
  }

  /** Rust's `s.replacen(pat, with, 1)`: only the first occurrence is replaced. */
  function ReplaceFirst(s: string, pat: string, with: string): (r: string)
    ensures FindSubstring(s, pat).None? ==> r == s
    ensures FindSubstring(s, pat).Some? ==>
      var i := FindSubstring(s, pat).value;
      r == s[..i] + with + s[i + |pat|..]
  {
    match FindSubstring(s, pat)
    case None => s
    case Some(i) => s[..i] + with + s[i + |pat|..]
  }

  /** Removing the first occurrence of a prefix leaves the rest of the text. */
  lemma RemoveLeadingOccurrence(s: string, pat: string)
    requires StartsWith(s, pat)
    ensures ReplaceFirst(s, pat, "") == s[|pat|..]
  {
    assert HasSubstringAt(s, pat, 0);
  }

  /** Rust's `char::is_whitespace` (the Unicode White_Space property). */
  predicate IsWhitespace(c: char) {
    ('\U{0009}' <= c <= '\U{000D}') || c == ' ' || c == '\U{0085}' || c == '\U{00A0}'
    || c == '\U{1680}' || ('\U{2000}' <= c <= '\U{200A}') || c == '\U{2028}' || c == '\U{2029}'
    || c == '\U{202F}' || c == '\U{205F}' || c == '\U{3000}'
  }

  /** Rust's `str::trim_start`. */
  function TrimStart(s: string): (r: string)
    ensures |r| <= |s| && r == s[|s| - |r|..]
    ensures r == [] || !IsWhitespace(r[0])
    ensures forall i :: 0 <= i < |s| - |r| ==> IsWhitespace(s[i])
  {
    if s != [] && IsWhitespace(s[0]) then TrimStart(s[1..]) else s
  }

  /** Rust's `str::trim_end`. */
  function TrimEnd(s: string): (r: string)
    ensures |r| <= |s| && r == s[..|r|]
    ensures r == [] || !IsWhitespace(r[|r| - 1])
    ensures forall i :: |r| <= i < |s| ==> IsWhitespace(s[i])
  {
    if s != [] && IsWhitespace(s[|s| - 1]) then TrimEnd(s[..|s| - 1]) else s
  }

  /** Rust's `str::trim`. */
  function Trim(s: string): string {
    TrimEnd(TrimStart(s))
  }

  /** Text that neither starts nor ends with whitespace is its own trim. */
  lemma TrimPlain(s: string)
    requires s != [] && !IsWhitespace(s[0]) && !IsWhitespace(s[|s| - 1])
    ensures Trim(s) == s
  {
    assert TrimStart(s) == s;
  }

  /** Rust's `trim_start_matches(c)` for one character: every leading `c` goes. */
  function TrimStartChar(s: string, c: char): (r: string)
    ensures |r| <= |s| && r == s[|s| - |r|..]
    ensures r == [] || r[0] != c
    ensures forall i :: 0 <= i < |s| - |r| ==> s[i] == c
  {
    if s != [] && s[0] == c then TrimStartChar(s[1..], c) else s
  }

  /** Rust's `trim_end_matches(c)` for one character: every trailing `c` goes. */
  function TrimEndChar(s: string, c: char): (r: string)
    ensures |r| <= |s| && r == s[..|r|]
    ensures r == [] || r[|r| - 1] != c
    ensures forall i :: |r| <= i < |s| ==> s[i] == c
  {
    if s != [] && s[|s| - 1] == c then TrimEndChar(s[..|s| - 1], c) else s
  }

  /** Index of the first `c` in `s`, when there is one. */
  function IndexOf(s: string, c: char): (r: Option<nat>)
    ensures r.None? <==> c !in s
    ensures r.Some? ==> r.value < |s| && s[r.value] == c && c !in s[..r.value]
  {
    if s == [] then None
    else if s[0] == c then Some(0)
    else match IndexOf(s[1..], c)
      case None => None
      case Some(i) =>
        assert s[..i + 1] == [s[0]] + s[1..][..i];
        Some(i + 1)
  }

  /** Rust's `str::split(c)`: the pieces between occurrences of `c`, empty ones kept. */
  function Split(s: string, c: char): (r: seq<string>)
    ensures |r| >= 1
    ensures forall k :: 0 <= k < |r| ==> c !in r[k]
    decreases |s|
  {
    match IndexOf(s, c)
    case None => [s]
    case Some(i) => [s[..i]] + Split(s[i + 1..], c)
  }

  /** Rust's `join` / JavaScript's `Array.join` with a one-character separator. */
  function Join(parts: seq<string>, c: char): string {
    if parts == [] then []
    else if |parts| == 1 then parts[0]
    else parts[0] + [c] + Join(parts[1..], c)
  }

  /** Splitting at every `c` and joining back with `c` loses nothing. */
  lemma {:induction false} JoinSplit(s: string, c: char)
    ensures Join(Split(s, c), c) == s
    decreases |s|
  {
    match IndexOf(s, c)
    case None =>
    case Some(i) =>
      var rest := Split(s[i + 1..], c);
      JoinSplit(s[i + 1..], c);
      var parts := [s[..i]] + rest;
      assert Split(s, c) == parts;
      assert parts[1..] == rest;
      calc {
        Join(parts, c);
        parts[0] + [c] + Join(rest, c);
        s[..i] + [c] + s[i + 1..];
        s;
      }
  }

  /** Joining parts that do not contain `c` and splitting again gives the parts back. */
  lemma {:induction false} SplitJoin(parts: seq<string>, c: char)
    requires |parts| >= 1
    requires forall k :: 0 <= k < |parts| ==> c !in parts[k]
    ensures Split(Join(parts, c), c) == parts
    decreases |parts|
  {
    if |parts| > 1 {
      var tail := Join(parts[1..], c);
      assert Join(parts, c) == parts[0] + [c] + tail;
      SplitAfterFree(parts[0], c, tail);
      SplitJoin(parts[1..], c);
      assert parts == [parts[0]] + parts[1..];
    }
  }

  /** Splitting text whose first `c` follows `head` gives `head` first. */
  lemma SplitAfterFree(head: string, c: char, tail: string)
    requires c !in head
    ensures Split(head + [c] + tail, c) == [head] + Split(tail, c)
  {
    var s := head + [c] + tail;
    IndexOfAfterFree(head, c, tail);
    assert s[..|head|] == head && s[|head| + 1..] == tail;
  }

  /** A character that is neither the separator nor in any part is not in the join. */
  lemma {:induction false} JoinAvoids(parts: seq<string>, sep: char, c: char)
    requires c != sep
    requires forall k :: 0 <= k < |parts| ==> c !in parts[k]
    ensures c !in Join(parts, sep)
    decreases |parts|
  {
    if |parts| > 1 {
      JoinAvoids(parts[1..], sep, c);
    }
  }

  lemma IndexOfAfterFree(head: string, c: char, tail: string)
    requires c !in head
    ensures IndexOf(head + [c] + tail, c) == Some(|head|)
    decreases |head|
  {
    if head != [] {
      assert (head + [c] + tail)[1..] == head[1..] + [c] + tail;
      IndexOfAfterFree(head[1..], c, tail);
    }
  }

  /** Rust's `split_once(c)`: the text before and after the FIRST `c`. */
  function SplitOnce(s: string, c: char): (r: Option<(string, string)>)
    ensures r.None? <==> c !in s
    ensures r.Some? ==> c !in r.value.0 && s == r.value.0 + [c] + r.value.1
  {
    match IndexOf(s, c)
    case None => None
    case Some(i) =>
      assert s == s[..i] + [c] + s[i + 1..];
      Some((s[..i], s[i + 1..]))
  }

  /** Rust's `str::lines`: split at '\n', a '\r' right before a '\n' belongs to the
      line ending, and a final empty line after a trailing '\n' is not a line. */
  function Lines(s: string): (r: seq<string>)
    ensures s == [] <==> r == []
    ensures forall k :: 0 <= k < |r| ==> '\n' !in r[k]
    decreases |s|
  {
    if s == [] then []
    else match IndexOf(s, '\n')
      case None => [s]
      case Some(i) => [StripCarriageReturn(s[..i])] + Lines(s[i + 1..])
  }

  function StripCarriageReturn(line: string): (r: string)
    ensures r == line || (line == r + ['\r'])
  {
    if line != [] && line[|line| - 1] == '\r' then line[..|line| - 1] else line
  }

  /** Each line followed by '\n', as `writeln!` in a loop writes them. */
  function Unlines(ls: seq<string>): string {
    if ls == [] then [] else ls[0] + "\n" + Unlines(ls[1..])
  }

  /** A line that `lines` gives back unchanged once it is written with a '\n'. */
  predicate PlainLine(l: string) {
    '\n' !in l && !EndsWith(l, "\r")
  }

  /** Reading back what `Unlines` wrote gives the same lines. */
  lemma {:induction false} LinesUnlines(ls: seq<string>)
    requires forall k :: 0 <= k < |ls| ==> PlainLine(ls[k])
    ensures Lines(Unlines(ls)) == ls
    decreases |ls|
  {
    if ls != [] {
      var rest := Unlines(ls[1..]);
      assert Unlines(ls) == ls[0] + ['\n'] + rest;
      LinesAfterPlain(ls[0], rest);
      LinesUnlines(ls[1..]);
      assert ls == [ls[0]] + ls[1..];
    }
  }

  /** Text whose first line is a plain `head` reads back `head` first. */
  lemma LinesAfterPlain(head: string, rest: string)
    requires PlainLine(head)
    ensures Lines(head + ['\n'] + rest) == [head] + Lines(rest)
  {
    var s := head + ['\n'] + rest;
    IndexOfAfterFree(head, '\n', rest);
    assert s[..|head|] == head && s[|head| + 1..] == rest;
    assert StripCarriageReturn(head) == head;
  }

  /** Parsing a decimal rendering gives the number back when it fits. */
  lemma ParseDecimal(n: nat, max: nat)
    requires n <= max
    ensures ParseUnsigned(Decimal(n), 10, max) == Some(n)
  {
    DigitsValueDecimal(n);
    var ds := Decimal(n);
    assert ds[0] != '+' && ds[0] != '-';
    assert ds != "+" && ds != "-";
  }

  /** ASCII case mapping (the part of JavaScript's `toLowerCase` the model keeps). */
  function LowerChar(c: char): char {
    if 'A' <= c <= 'Z' then (c as int + 32) as char else c
  }

  function UpperChar(c: char): char {
    if 'a' <= c <= 'z' then (c as int - 32) as char else c
  }

  function ToLower(s: string): (r: string)
    ensures |r| == |s| && forall i :: 0 <= i < |s| ==> r[i] == LowerChar(s[i])
  {
    seq(|s|, i requires 0 <= i < |s| => LowerChar(s[i]))
  }

  function ToUpper(s: string): (r: string)
    ensures |r| == |s| && forall i :: 0 <= i < |s| ==> r[i] == UpperChar(s[i])
  {
    seq(|s|, i requires 0 <= i < |s| => UpperChar(s[i]))
  }

  function DigitChar(d: nat): char
    requires d < 10
  {
    ('0' as int + d) as char
  }

  /** Decimal rendering of a natural number (`to_string`, `{}`), no leading zeros. */
  function Decimal(n: nat): (r: string)
    ensures |r| >= 1 && ('0' <= r[0] <= '9')
    ensures n > 0 ==> r[0] != '0'
    ensures forall i :: 0 <= i < |r| ==> '0' <= r[i] <= '9'
  {
    if n < 10 then [DigitChar(n)] else Decimal(n / 10) + [DigitChar(n % 10)]
  }

  /** Rust's `{:02}`: at least two digits, zero-padded on the left. */
  function Pad2(n: nat): (r: string)
    ensures |r| >= 2
    ensures n < 100 ==> r == [DigitChar(n / 10), DigitChar(n % 10)]
  {
    if n < 10 then ['0'] + Decimal(n)
    else
      assert n < 100 ==> Decimal(n) == Decimal(n / 10) + [DigitChar(n % 10)] == [DigitChar(n / 10), DigitChar(n % 10)];
      Decimal(n)
  }

  /** The value of one digit in `radix` (2..36), both letter cases, as Rust's `to_digit`. */
  function DigitValue(c: char, radix: nat): (r: Option<nat>)
    requires 2 <= radix <= 36
    ensures r.Some? ==> r.value < radix
  {
    var v: int :=
      if '0' <= c <= '9' then c as int - '0' as int
      else if 'a' <= c <= 'z' then c as int - 'a' as int + 10
      else if 'A' <= c <= 'Z' then c as int - 'A' as int + 10
      else 36;
    if v < radix then Some(v) else None
  }

  /** The value of a digit string read most significant digit first. */
  function DigitsValue(ds: string, radix: nat): Option<nat>
    requires 2 <= radix <= 36
  {
    if ds == [] then Some(0)
    else match (DigitsValue(ds[..|ds| - 1], radix), DigitValue(ds[|ds| - 1], radix))
      case (Some(hi), Some(lo)) => Some(hi * radix + lo)
      case _ => None
  }

  lemma DigitValueOfDigitChar(d: nat)
    requires d < 10
    ensures DigitValue(DigitChar(d), 10) == Some(d)
  {
  }

  /** Reading a decimal rendering back gives the number. */
  lemma {:induction false} DigitsValueDecimal(n: nat)
    ensures DigitsValue(Decimal(n), 10) == Some(n)
  {
    var ds := Decimal(n);
    if n < 10 {
      DigitValueOfDigitChar(n);
      assert ds[..0] == [];
    } else {
      DigitsValueDecimal(n / 10);
      DigitValueOfDigitChar(n % 10);
      assert ds[..|ds| - 1] == Decimal(n / 10);
    }
  }

  /** Appending one digit multiplies by the radix and adds the digit. */
  lemma DigitsValueAppend(ds: string, d: nat, v: nat)
    requires d < 10
    requires DigitsValue(ds, 10) == Some(v)
    ensures DigitsValue(ds + [DigitChar(d)], 10) == Some(v * 10 + d)
  {
    var e := ds + [DigitChar(d)];
    assert e[..|e| - 1] == ds;
    DigitValueOfDigitChar(d);
  }

  /** Rust's `from_str_radix` / `parse` for an unsigned type whose largest value is
      `max`: an optional '+' sign, then at least one digit, and no overflow. */
  function ParseUnsigned(s: string, radix: nat, max: nat): (r: Option<nat>)
    requires 2 <= radix <= 36
    ensures r.Some? ==> r.value <= max
    ensures s == [] || s == "+" ==> r.None?
    ensures r.Some? && s[0] != '+' ==> DigitsValue(s, radix) == r
  {
    if s == [] || s == "+" || s == "-" then None
    else
      var digits := if s[0] == '+' then s[1..] else s;
      match DigitsValue(digits, radix)
      case Some(v) => if v <= max then Some(v) else None
      case None => None
  }
}
