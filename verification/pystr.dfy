/** The Python `str` operations the bot relies on, written out over
    `seq<char>`: whitespace and line-boundary classes, `strip`, `split`,
    `join`, `replace`, `splitlines`, prefix tests, ASCII case mapping,
    decimal rendering of integers and code-point ordering of strings. */
module PyStr {
  import opened Wrappers

  /*** Character classes ***/

  /** `c.isspace()`: the characters Python's `str.split()` and `str.strip()`
      treat as whitespace (bidirectional class WS, B or S, or category Zs). */
  predicate IsSpace(c: char) {
    var n := c as int;
    (9 <= n <= 13) || (28 <= n <= 32) || n == 0x85 || n == 0xA0 || n == 0x1680
    || (0x2000 <= n <= 0x200A) || n == 0x2028 || n == 0x2029 || n == 0x202F
    || n == 0x205F || n == 0x3000
  }

  /** The single characters `str.splitlines` treats as line boundaries
      (`\r\n` is handled as one boundary by `LineBreakLength`). */
  predicate IsLineBoundary(c: char) {
    var n := c as int;
    n == 10 || n == 11 || n == 12 || n == 13 || n == 0x1C || n == 0x1D || n == 0x1E
    || n == 0x85 || n == 0x2028 || n == 0x2029
  }

  predicate IsAscii(c: char) { (c as int) < 128 }
  predicate IsAsciiDigit(c: char) { '0' <= c <= '9' }
  predicate IsAsciiAlpha(c: char) { ('a' <= c <= 'z') || ('A' <= c <= 'Z') }

  predicate NoSpace(s: string) {
    forall i :: 0 <= i < |s| ==> !IsSpace(s[i])
  }

  predicate AllSpace(s: string) {
    forall i :: 0 <= i < |s| ==> IsSpace(s[i])
  }

  /*** Stripping ***/

  /** `s.lstrip()`: removes the leading whitespace run. */
  function LStrip(s: string): (r: string)
    ensures |r| <= |s| && r == s[|s| - |r|..]
    ensures AllSpace(s[..|s| - |r|])
    ensures |r| > 0 ==> !IsSpace(r[0])
  {
    if |s| > 0 && IsSpace(s[0]) then LStrip(s[1..]) else s
  }

  lemma LStripNonSpace(s: string)
    requires |s| > 0 && !IsSpace(s[0])
    ensures LStrip(s) == s
  {
  }

  /** `s.rstrip()`: removes the trailing whitespace run. */
  function RStrip(s: string): (r: string)
    ensures |r| <= |s| && r == s[..|r|]
    ensures AllSpace(s[|r|..])
    ensures |r| > 0 ==> !IsSpace(r[|r| - 1])
  {
    if |s| > 0 && IsSpace(s[|s| - 1]) then RStrip(s[..|s| - 1]) else s
  }

  /** `s.strip()`: the text between the leading and the trailing whitespace runs. */
  function Strip(s: string): (r: string)
    ensures |r| > 0 ==> !IsSpace(r[0]) && !IsSpace(r[|r| - 1])
  {
    RStrip(LStrip(s))
  }

  /** Strip removes exactly a whitespace prefix and a whitespace suffix:
      the result is the slice of `s` between them. */
  lemma StripIsInnerSlice(s: string)
    ensures var k := |s| - |LStrip(s)|;
            var r := Strip(s);
            k + |r| <= |s| && r == s[k..k + |r|]
            && AllSpace(s[..k]) && AllSpace(s[k + |r|..])
  {
    var l := LStrip(s);
    var r := RStrip(l);
    var k := |s| - |l|;
    assert l == s[k..];
    assert r == l[..|r|];
    assert s[k + |r|..] == l[|r|..];
  }

  /** Stripping a string that has no whitespace at either end changes nothing. */
  lemma StripNoOp(s: string)
    requires |s| > 0 ==> !IsSpace(s[0]) && !IsSpace(s[|s| - 1])
    ensures Strip(s) == s
  {
  }

  lemma LStripAllSpace(s: string)
    requires AllSpace(s)
    ensures LStrip(s) == ""
  {
  }

  /** `s.strip()` is empty exactly when `s` is all whitespace. */
  lemma StripEmptyIffAllSpace(s: string)
    ensures Strip(s) == "" <==> AllSpace(s)
  {
    if AllSpace(s) {
      LStripAllSpace(s);
    }
    if Strip(s) == "" {
      var l := LStrip(s);
      assert l[0..] == l;
      assert |l| == 0;
      assert s[..|s|] == s;
    }
  }

  /** Leading whitespace is stripped away whatever follows it. */
  lemma {:induction false} LStripSpacePrefix(pre: string, s: string)
    requires AllSpace(pre)
    ensures LStrip(pre + s) == LStrip(s)
    decreases |pre|
  {
    if |pre| > 0 {
      assert (pre + s)[1..] == pre[1..] + s;
      LStripSpacePrefix(pre[1..], s);
    } else {
      assert pre + s == s;
    }
  }

  /** Trailing whitespace is stripped away whatever precedes it. */
  lemma {:induction false} RStripSpaceSuffix(s: string, post: string)
    requires AllSpace(post)
    ensures RStrip(s + post) == RStrip(s)
    decreases |post|
  {
    if |post| > 0 {
      var t := s + post;
      assert t[..|t| - 1] == s + post[..|post| - 1];
      RStripSpaceSuffix(s, post[..|post| - 1]);
    } else {
      assert s + post == s;
    }
  }

  /** Text after the first non-whitespace character survives `lstrip`. */
  lemma {:induction false} LStripAppend(s: string, t: string)
    requires !AllSpace(s)
    ensures LStrip(s + t) == LStrip(s) + t
    decreases |s|
  {
    assert (s + t)[0] == s[0];
    if IsSpace(s[0]) {
      assert (s + t)[1..] == s[1..] + t;
      LStripAppend(s[1..], t);
    }
  }

  /** Whitespace around a string does not change its `strip()`. */
  lemma StripPadded(pre: string, s: string, post: string)
    requires AllSpace(pre) && AllSpace(post)
    ensures Strip(pre + s + post) == Strip(s)
  {
    assert pre + s + post == pre + (s + post);
    LStripSpacePrefix(pre, s + post);
    if AllSpace(s) {
      assert AllSpace(s + post);
      LStripAllSpace(s + post);
      LStripAllSpace(s);
    } else {
      LStripAppend(s, post);
      RStripSpaceSuffix(LStrip(s), post);
    }
  }

  /*** Whitespace splitting (`str.split()` with no argument) ***/

  /** Length of the leading run of non-whitespace characters. */
  function WordLength(s: string): (n: nat)
    ensures n <= |s|
    ensures NoSpace(s[..n])
    ensures n < |s| ==> IsSpace(s[n])
  {
    if |s| == 0 || IsSpace(s[0]) then 0
    else
      var m := WordLength(s[1..]);
      assert s[..m + 1] == [s[0]] + s[1..][..m];
      m + 1
  }

  /** `s.split()`: the maximal runs of non-whitespace characters, in order. */
  function SplitWhitespace(s: string): (words: seq<string>)
    ensures forall i :: 0 <= i < |words| ==> |words[i]| > 0 && NoSpace(words[i])
    decreases |s|
  {
    if |s| == 0 then []
    else if IsSpace(s[0]) then SplitWhitespace(s[1..])
    else
      var n := WordLength(s);
      [s[..n]] + SplitWhitespace(s[n..])
  }

  function Concat(parts: seq<string>): string {
    if |parts| == 0 then "" else parts[0] + Concat(parts[1..])
  }

  /** The string with every whitespace character deleted. */
  function RemoveSpaces(s: string): string {
    if |s| == 0 then ""
    else (if IsSpace(s[0]) then "" else [s[0]]) + RemoveSpaces(s[1..])
  }

  lemma RemoveSpacesAppend(a: string, b: string)
    ensures RemoveSpaces(a + b) == RemoveSpaces(a) + RemoveSpaces(b)
  {
    if |a| == 0 {
      assert a + b == b;
    } else {
      assert (a + b)[1..] == a[1..] + b;
      RemoveSpacesAppend(a[1..], b);
    }
  }

  lemma RemoveSpacesOfAllSpace(s: string)
    requires AllSpace(s)
    ensures RemoveSpaces(s) == ""
  {
    if |s| > 0 {
      RemoveSpacesOfAllSpace(s[1..]);
    }
  }

  lemma RemoveSpacesOfNoSpace(s: string)
    requires NoSpace(s)
    ensures RemoveSpaces(s) == s
  {
    if |s| > 0 {
      RemoveSpacesOfNoSpace(s[1..]);
    }
  }

  /** Nothing but whitespace is lost by `split()`: the words, concatenated,
      are the input with its whitespace deleted. */
  lemma ConcatCons(w: string, rest: seq<string>)
    ensures Concat([w] + rest) == w + Concat(rest)
  {
    assert ([w] + rest)[1..] == rest;
  }

  lemma {:induction false} SplitWhitespaceKeepsText(s: string)
    ensures Concat(SplitWhitespace(s)) == RemoveSpaces(s)
    decreases |s|
  {
    if |s| > 0 {
      if IsSpace(s[0]) {
        SplitWhitespaceKeepsText(s[1..]);
      } else {
        var n := WordLength(s);
        var w := s[..n];
        var rest := SplitWhitespace(s[n..]);
        ConcatCons(w, rest);
        assert s == w + s[n..];
        RemoveSpacesAppend(w, s[n..]);
        RemoveSpacesOfNoSpace(w);
        SplitWhitespaceKeepsText(s[n..]);
      }
    }
  }

  /** A slice of a slice is a slice of the whole. */
  lemma SliceOfSlice<T>(s: seq<T>, a: nat, b: nat, c: nat, d: nat)
    requires a <= b <= |s| && c <= d <= b - a
    ensures s[a..b][c..d] == s[a + c..a + d]
  {
    assert |s[a..b][c..d]| == |s[a + c..a + d]|;
    forall k | 0 <= k < d - c
      ensures s[a..b][c..d][k] == s[a + c..a + d][k]
    {
    }
  }

  /*** Substring search ***/

  predicate OccursAt(s: string, sub: string, i: nat) {
    i + |sub| <= |s| && s[i..i + |sub|] == sub
  }

  /** `sub` occurs somewhere in `s`. */
  ghost predicate Occurs(s: string, sub: string) {
    exists i: nat :: OccursAt(s, sub, i)
  }

  /** First occurrence of `sub` in `s` at or after `from` (`s.find(sub, from)`). */
  function FindFrom(s: string, sub: string, from: nat): (r: Option<nat>)
    ensures r.Some? ==> from <= r.value && OccursAt(s, sub, r.value)
    decreases |s| - from
  {
    if from + |sub| > |s| then None
    else if s[from..from + |sub|] == sub then Some(from)
    else FindFrom(s, sub, from + 1)
  }

  /** The search misses nothing: no occurrence lies before the one found,
      and none at all when nothing is found. */
  lemma {:induction false} FindFromFirst(s: string, sub: string, from: nat)
    ensures var r := FindFrom(s, sub, from);
            (r.Some? ==> forall j: nat :: from <= j < r.value ==> !OccursAt(s, sub, j))
            && (r.None? ==> forall j: nat :: from <= j ==> !OccursAt(s, sub, j))
    decreases |s| - from
  {
    if from + |sub| <= |s| && s[from..from + |sub|] != sub {
      FindFromFirst(s, sub, from + 1);
    }
  }

  function Find(s: string, sub: string): (r: Option<nat>)
    ensures r.Some? ==> OccursAt(s, sub, r.value)
  {
    FindFrom(s, sub, 0)
  }

  /** `Find` returns the first occurrence, and finds one whenever there is one. */
  lemma FindFirst(s: string, sub: string)
    ensures Find(s, sub).Some? <==> Occurs(s, sub)
    ensures Find(s, sub).Some? ==> forall j: nat :: j < Find(s, sub).value ==> !OccursAt(s, sub, j)
  {
    FindFromFirst(s, sub, 0);
  }

  /** `sub in s`. */
  predicate Contains(s: string, sub: string)
    ensures Contains(s, sub) <==> Occurs(s, sub)
  {
    FindFirst(s, sub);
    Find(s, sub).Some?
  }

  /** An occurrence inside a prefix is an occurrence in the whole string. */
  lemma OccursInPrefix(s: string, n: nat, sub: string, j: nat)
    requires n <= |s| && OccursAt(s[..n], sub, j)
    ensures OccursAt(s, sub, j)
  {
    assert s[..n][j..j + |sub|] == s[j..j + |sub|];
  }

  /*** `str.split(sep)` and `sep.join(parts)` ***/

  /** `s.split(sep)` for a non-empty separator (Python raises ValueError for
      an empty one; callers model that case themselves). */
  function SplitOn(s: string, sep: string): (parts: seq<string>)
    requires |sep| > 0
    ensures |parts| >= 1
    decreases |s|
  {
    match Find(s, sep)
    case None => [s]
    case Some(i) => [s[..i]] + SplitOn(s[i + |sep|..], sep)
  }

  /** No part of a split contains the separator. */
  lemma {:induction false} SplitOnPartsLackSeparator(s: string, sep: string)
    requires |sep| > 0
    ensures forall k :: 0 <= k < |SplitOn(s, sep)| ==> !Contains(SplitOn(s, sep)[k], sep)
    decreases |s|
  {
    match Find(s, sep)
    case None =>
    case Some(i) =>
      var rest := s[i + |sep|..];
      FindFirst(s, sep);
      SplitOnPartsLackSeparator(rest, sep);
      assert !Contains(s[..i], sep) by {
        forall j: nat | OccursAt(s[..i], sep, j)
          ensures false
        {
          OccursInPrefix(s, i, sep, j);
        }
      }
      var parts := SplitOn(s, sep);
      assert parts == [s[..i]] + SplitOn(rest, sep);
      forall k | 1 <= k < |parts|
        ensures !Contains(parts[k], sep)
      {
        assert parts[k] == SplitOn(rest, sep)[k - 1];
      }
  }

  /** `sep.join(parts)`. */
  function Join(parts: seq<string>, sep: string): string {
    if |parts| == 0 then ""
    else if |parts| == 1 then parts[0]
    else parts[0] + sep + Join(parts[1..], sep)
  }

  lemma JoinCons(first: string, rest: seq<string>, sep: string)
    requires |rest| >= 1
    ensures Join([first] + rest, sep) == first + sep + Join(rest, sep)
  {
    assert ([first] + rest)[1..] == rest;
  }

  /** Splitting on a separator and joining with it again gives back the
      original string. */
  lemma {:induction false} JoinSplitRoundTrip(s: string, sep: string)
    requires |sep| > 0
    ensures Join(SplitOn(s, sep), sep) == s
    decreases |s|
  {
    match Find(s, sep)
    case None =>
    case Some(i) =>
      var head := s[..i];
      var rest := s[i + |sep|..];
      assert OccursAt(s, sep, i);
      assert head + sep + rest == s by {
        assert s[i..i + |sep|] == sep;
        assert s == head + s[i..i + |sep|] + rest;
      }
      var tail := SplitOn(rest, sep);
      assert SplitOn(s, sep) == [head] + tail;
      JoinSplitRoundTrip(rest, sep);
      JoinCons(head, tail, sep);
  }

  /** A search that meets no occurrence before `j` and one at `j` returns `j`. */
  lemma FindFromAt(s: string, sub: string, from: nat, j: nat)
    requires from <= j && OccursAt(s, sub, j)
    requires forall k: nat :: from <= k < j ==> !OccursAt(s, sub, k)
    ensures FindFrom(s, sub, from) == Some(j)
  {
    FindFromFirst(s, sub, from);
  }

  /** A string without the separator's first character splits into just
      itself. */
  lemma SplitOnNoFirst(s: string, sep: string)
    requires |sep| > 0 && forall k :: 0 <= k < |s| ==> s[k] != sep[0]
    ensures SplitOn(s, sep) == [s]
  {
    forall k: nat | k + |sep| <= |s| ensures !OccursAt(s, sep, k) {
      assert s[k..k + |sep|][0] == s[k];
    }
    assert Find(s, sep).None?;
  }

  /** The first separator after a part without its first character ends
      that part. */
  lemma SplitOnHead(head: string, sep: string, tail: string)
    requires |sep| > 0 && forall k :: 0 <= k < |head| ==> head[k] != sep[0]
    ensures SplitOn(head + sep + tail, sep) == [head] + SplitOn(tail, sep)
  {
    var s := head + sep + tail;
    forall k: nat | k < |head| ensures !OccursAt(s, sep, k) {
      assert s[k] == head[k];
      assert k + |sep| <= |s| ==> s[k..k + |sep|][0] == s[k];
    }
    assert s[|head|..|head| + |sep|] == sep;
    FindFromAt(s, sep, 0, |head|);
    assert s[..|head|] == head;
    assert s[|head| + |sep|..] == tail;
  }

  /** Joining parts in which the separator's first character never occurs
      and splitting again gives the parts back. */
  lemma {:induction false} SplitOnJoin(parts: seq<string>, sep: string)
    requires |sep| > 0 && |parts| > 0
    requires forall i, k :: 0 <= i < |parts| && 0 <= k < |parts[i]| ==> parts[i][k] != sep[0]
    ensures SplitOn(Join(parts, sep), sep) == parts
    decreases |parts|
  {
    if |parts| == 1 {
      SplitOnNoFirst(parts[0], sep);
    } else {
      var rest := parts[1..];
      SplitOnHead(parts[0], sep, Join(rest, sep));
      assert forall i, k :: 0 <= i < |rest| && 0 <= k < |rest[i]| ==> rest[i][k] == parts[i + 1][k];
      SplitOnJoin(rest, sep);
      assert parts == [parts[0]] + rest;
    }
  }

  /** A string without the separator splits into just itself. */
  lemma SplitWithoutSeparator(s: string, sep: string)
    requires |sep| > 0 && !Contains(s, sep)
    ensures SplitOn(s, sep) == [s]
  {
  }

  /*** `str.replace` ***/

  /** `s.replace("", replacement)`: `replacement` before every character and at the end. */
  function ReplaceEmpty(s: string, replacement: string): (r: string)
    ensures |r| == |s| + (|s| + 1) * |replacement|
  {
    if |s| == 0 then replacement else replacement + [s[0]] + ReplaceEmpty(s[1..], replacement)
  }

  /** `s.replace(target, replacement)`: every non-overlapping occurrence of `target`,
      scanning left to right, is replaced by `replacement`. */
  function Replace(s: string, target: string, replacement: string): (r: string)
    decreases |s|
  {
    if |target| == 0 then ReplaceEmpty(s, replacement)
    else
      match Find(s, target)
      case None => s
      case Some(i) => s[..i] + replacement + Replace(s[i + |target|..], target, replacement)
  }

  /** Replacement is splitting on `target` and joining with `replacement`. */
  lemma {:induction false} ReplaceIsJoinOfSplit(s: string, target: string, replacement: string)
    requires |target| > 0
    ensures Replace(s, target, replacement) == Join(SplitOn(s, target), replacement)
    decreases |s|
  {
    match Find(s, target)
    case None =>
    case Some(i) =>
      var rest := s[i + |target|..];
      ReplaceIsJoinOfSplit(rest, target, replacement);
      assert SplitOn(s, target) == [s[..i]] + SplitOn(rest, target);
      JoinCons(s[..i], SplitOn(rest, target), replacement);
  }

  /** A string that does not contain `target` is left unchanged. */
  lemma ReplaceAbsent(s: string, target: string, replacement: string)
    requires |target| > 0 && !Contains(s, target)
    ensures Replace(s, target, replacement) == s
  {
  }

  /** Replacing a pattern by itself changes nothing. */
  lemma ReplaceBySelf(s: string, p: string)
    requires |p| > 0
    ensures Replace(s, p, p) == s
  {
    ReplaceIsJoinOfSplit(s, p, p);
    JoinSplitRoundTrip(s, p);
  }

  /*** Prefixes and suffixes ***/

  predicate StartsWith(s: string, p: string) {
    |p| <= |s| && s[..|p|] == p
  }

  predicate EndsWith(s: string, p: string) {
    |p| <= |s| && s[|s| - |p|..] == p
  }

  /** `s.removeprefix(p)`. */
  function RemovePrefix(s: string, p: string): (r: string)
    ensures StartsWith(s, p) ==> s == p + r
    ensures !StartsWith(s, p) ==> r == s
  {
    if StartsWith(s, p) then s[|p|..] else s
  }

  /*** ASCII case mapping ***/

  function LowerChar(c: char): (d: char)
    ensures ('A' <= c <= 'Z') ==> d as int == c as int + 32
    ensures !('A' <= c <= 'Z') ==> d == c
  {
    if 'A' <= c <= 'Z' then (c as int + 32) as char else c
  }

  function UpperChar(c: char): (d: char)
    ensures ('a' <= c <= 'z') ==> d as int == c as int - 32
    ensures !('a' <= c <= 'z') ==> d == c
  {
    if 'a' <= c <= 'z' then (c as int - 32) as char else c
  }

  /** `s.lower()` (case mapping of ASCII letters). */
  function Lower(s: string): (r: string)
    ensures |r| == |s|
    ensures forall i :: 0 <= i < |s| ==> r[i] == LowerChar(s[i])
  {
    if |s| == 0 then "" else [LowerChar(s[0])] + Lower(s[1..])
  }

  /** `s.upper()` (case mapping of ASCII letters). */
  function Upper(s: string): (r: string)
    ensures |r| == |s|
    ensures forall i :: 0 <= i < |s| ==> r[i] == UpperChar(s[i])
  {
    if |s| == 0 then "" else [UpperChar(s[0])] + Upper(s[1..])
  }

  lemma LowerIdempotent(s: string)
    ensures Lower(Lower(s)) == Lower(s)
  {
  }

  /** A word without upper-case letters is its own lower case. */
  lemma LowerOfLowerCase(s: string)
    requires forall i :: 0 <= i < |s| ==> !('A' <= s[i] <= 'Z')
    ensures Lower(s) == s
  {
  }

  /** Case-insensitive equality as the bot tests it: `a.lower() == b.lower()`. */
  predicate EqualsIgnoreCase(a: string, b: string) {
    Lower(a) == Lower(b)
  }

  /*** Lines (`str.splitlines`) ***/

  /** Length of the line terminator at the start of `s` (0 if none). */
  function LineBreakLength(s: string): (n: nat)
    ensures n <= |s| && n <= 2
  {
    if |s| >= 2 && s[0] == '\r' && s[1] == '\n' then 2
    else if |s| >= 1 && IsLineBoundary(s[0]) then 1
    else 0
  }

  /** Length of the first line of a non-empty string, terminator included. */
  function FirstLineLength(s: string): (n: nat)
    requires |s| > 0
    ensures 0 < n <= |s|
  {
    if LineBreakLength(s) > 0 then LineBreakLength(s)
    else if |s| == 1 then 1
    else 1 + FirstLineLength(s[1..])
  }

  /** `s.splitlines(keepends=True)`. */
  function SplitLinesKeepEnds(s: string): (lines: seq<string>)
    ensures forall i :: 0 <= i < |lines| ==> |lines[i]| > 0
    decreases |s|
  {
    if |s| == 0 then []
    else
      var n := FirstLineLength(s);
      [s[..n]] + SplitLinesKeepEnds(s[n..])
  }

  /** Keeping the line ends, the lines concatenate back to the input. */
  lemma {:induction false} SplitLinesKeepEndsConcat(s: string)
    ensures Concat(SplitLinesKeepEnds(s)) == s
    decreases |s|
  {
    if |s| > 0 {
      var n := FirstLineLength(s);
      SplitLinesKeepEndsConcat(s[n..]);
      assert SplitLinesKeepEnds(s)[1..] == SplitLinesKeepEnds(s[n..]);
      assert s == s[..n] + s[n..];
    }
  }

  /** The terminator a line ends with: `\r\n`, one boundary character, or nothing. */
  function LineEndingLength(line: string): (n: nat)
    ensures n <= |line| && n <= 2
  {
    if |line| >= 2 && line[|line| - 2] == '\r' && line[|line| - 1] == '\n' then 2
    else if |line| >= 1 && IsLineBoundary(line[|line| - 1]) then 1
    else 0
  }

  function DropLineEnding(line: string): string {
    line[..|line| - LineEndingLength(line)]
  }

  /** `s.splitlines()` (keepends=False). */
  function SplitLines(s: string): (lines: seq<string>)
    ensures |lines| == |SplitLinesKeepEnds(s)|
  {
    var kept := SplitLinesKeepEnds(s);
    seq(|kept|, i requires 0 <= i < |kept| => DropLineEnding(kept[i]))
  }

  predicate NoLineBoundary(s: string) {
    forall k :: 0 <= k < |s| ==> !IsLineBoundary(s[k])
  }

  /** The first line, its terminator dropped, holds no line boundary. */
  lemma {:induction false} FirstLineHasNoBoundary(s: string)
    requires |s| > 0
    ensures NoLineBoundary(DropLineEnding(s[..FirstLineLength(s)]))
    decreases |s|
  {
    var n := FirstLineLength(s);
    var line := s[..n];
    if LineBreakLength(s) == 0 && |s| > 1 {
      var tail := s[1..];
      var n' := FirstLineLength(tail);
      FirstLineHasNoBoundary(tail);
      var line' := tail[..n'];
      assert line == [s[0]] + line';
      assert LineEndingLength(line) == LineEndingLength(line') by {
        if |line'| == 1 {
          assert line[0] == s[0] && line[1] == line'[0];
        }
      }
      assert DropLineEnding(line) == [s[0]] + DropLineEnding(line');
    }
  }

  /** No line of `s.splitlines()` holds a line boundary. */
  lemma {:induction false} SplitLinesHaveNoBoundary(s: string)
    ensures forall i :: 0 <= i < |SplitLines(s)| ==> NoLineBoundary(SplitLines(s)[i])
    decreases |s|
  {
    if |s| > 0 {
      var n := FirstLineLength(s);
      FirstLineHasNoBoundary(s);
      SplitLinesHaveNoBoundary(s[n..]);
      var kept := SplitLinesKeepEnds(s);
      assert kept == [s[..n]] + SplitLinesKeepEnds(s[n..]);
      forall i | 0 <= i < |SplitLines(s)| ensures NoLineBoundary(SplitLines(s)[i]) {
        if i > 0 {
          assert SplitLines(s)[i] == SplitLines(s[n..])[i - 1];
        }
      }
    }
  }
  /*** Lines put back together ***/

  /** A non-empty string that `splitlines` leaves in one piece. */
  predicate IsLine(l: string) {
    |l| > 0 && FirstLineLength(l) == |l|
  }

  predicate EndsWithCr(l: string) { |l| > 0 && l[|l| - 1] == '\r' }

  predicate StartsWithLf(l: string) { |l| > 0 && l[0] == '\n' }

  /** Lines that concatenate without merging or splitting: each is a single
      line, every one but the last is terminated, and no line ending in `\r`
      is followed by one starting with `\n` (the two would read as `\r\n`). */
  predicate SeparateLines(ls: seq<string>) {
    (forall i :: 0 <= i < |ls| ==> IsLine(ls[i]))
    && (forall i :: 0 <= i < |ls| - 1 ==>
          LineEndingLength(ls[i]) > 0 && !(EndsWithCr(ls[i]) && StartsWithLf(ls[i + 1])))
  }

  lemma LineEndingOfCons(c: char, l: string)
    requires !IsLineBoundary(c) && |l| > 0
    ensures LineEndingLength([c] + l) == LineEndingLength(l)
  {
    var s := [c] + l;
    assert s[|s| - 1] == l[|l| - 1];
    if |l| >= 2 {
      assert s[|s| - 2] == l[|l| - 2];
    }
  }

  /** Text without line boundaries is one line, alone or with a `\n` after it. */
  lemma {:induction false} PlainLine(b: string)
    requires NoLineBoundary(b)
    ensures IsLine(b + "\n") && LineEndingLength(b + "\n") == 1
    ensures |b| > 0 ==> IsLine(b) && LineEndingLength(b) == 0
    decreases |b|
  {
    if |b| > 0 {
      assert NoLineBoundary(b[1..]) by {
        forall k | 0 <= k < |b| - 1 ensures !IsLineBoundary(b[1..][k]) {
          assert b[1..][k] == b[k + 1];
        }
      }
      PlainLine(b[1..]);
      assert (b + "\n")[1..] == b[1..] + "\n";
      assert (b + "\n")[0] == b[0];
      if |b| >= 2 {
        assert !IsLineBoundary(b[|b| - 2]);
      }
    }
  }

  /** Text without line boundaries ended by any one boundary character is
      one terminated line. */
  lemma {:induction false} LineEndedBy(b: string, c: char)
    requires NoLineBoundary(b) && IsLineBoundary(c)
    ensures IsLine(b + [c]) && LineEndingLength(b + [c]) > 0
    decreases |b|
  {
    if |b| > 0 {
      assert NoLineBoundary(b[1..]) by {
        forall k | 0 <= k < |b| - 1 ensures !IsLineBoundary(b[1..][k]) {
          assert b[1..][k] == b[k + 1];
        }
      }
      LineEndedBy(b[1..], c);
      assert (b + [c])[1..] == b[1..] + [c];
      assert (b + [c])[0] == b[0];
    }
  }

  lemma OneLine(l: string)
    requires IsLine(l)
    ensures SplitLinesKeepEnds(l) == [l]
  {
    assert l[..|l|] == l;
    assert l[|l|..] == [];
  }

  /** Two lines, the first terminated by anything but a lone `\r`, split
      back into the same two lines. */
  lemma TwoLines(a: string, b: string)
    requires IsLine(a) && IsLine(b) && LineEndingLength(a) > 0 && !EndsWithCr(a)
    ensures SplitLinesKeepEnds(a + b) == [a, b]
  {
    var s := a + b;
    FirstLineOfConcat(a, b);
    assert s[..|a|] == a && s[|a|..] == b;
    OneLine(b);
    assert SplitLinesKeepEnds(s) == [a] + SplitLinesKeepEnds(b);
  }

  /** A line followed by more text is still read as the first line, as long
      as it is terminated and does not split a `\r\n`. */
  lemma {:induction false} FirstLineOfConcat(l: string, t: string)
    requires IsLine(l)
    requires |t| > 0 ==> LineEndingLength(l) > 0 && !(EndsWithCr(l) && StartsWithLf(t))
    ensures FirstLineLength(l + t) == |l|
    decreases |l|
  {
    var s := l + t;
    if LineBreakLength(l) > 0 {
      assert s[0] == l[0];
      if |l| == 2 {
        assert s[1] == l[1];
      } else if |t| > 0 {
        assert s[1] == t[0];
      }
    } else if |l| > 1 {
      LineEndingOfCons(l[0], l[1..]);
      assert l == [l[0]] + l[1..];
      assert s[1..] == l[1..] + t;
      FirstLineOfConcat(l[1..], t);
    } else {
      assert t == [];
      assert s == l;
    }
  }

  lemma ConcatHead(ls: seq<string>)
    requires |ls| > 0 && |ls[0]| > 0
    ensures |Concat(ls)| > 0 && Concat(ls)[0] == ls[0][0]
  {
  }

  lemma SeparateTail(ls: seq<string>)
    requires |ls| > 0 && SeparateLines(ls)
    ensures SeparateLines(ls[1..])
  {
    assert forall i :: 0 <= i < |ls| - 1 ==> ls[1..][i] == ls[i + 1];
  }

  /** Separate lines are exactly what `splitlines(keepends=True)` recovers
      from their concatenation. */
  lemma {:induction false} SplitLinesOfSeparate(ls: seq<string>)
    requires SeparateLines(ls)
    ensures SplitLinesKeepEnds(Concat(ls)) == ls
    decreases |ls|
  {
    if |ls| > 0 {
      var rest := Concat(ls[1..]);
      if |ls| > 1 {
        assert ls[1..][0] == ls[1];
        ConcatHead(ls[1..]);
      }
      assert |rest| > 0 ==> |ls| > 1;
      FirstLineOfConcat(ls[0], rest);
      var s := Concat(ls);
      assert s == ls[0] + rest;
      assert s[..|ls[0]|] == ls[0];
      assert s[|ls[0]|..] == rest;
      SeparateTail(ls);
      SplitLinesOfSeparate(ls[1..]);
      assert ls == [ls[0]] + ls[1..];
    }
  }

  /** The first line of a string is a line; when more follows, it is
      terminated and the rest does not continue a `\r` into `\r\n`. */
  lemma {:induction false} FirstLineFacts(s: string)
    requires |s| > 0
    ensures IsLine(s[..FirstLineLength(s)])
    ensures FirstLineLength(s) < |s| ==>
              LineEndingLength(s[..FirstLineLength(s)]) > 0
              && !(EndsWithCr(s[..FirstLineLength(s)]) && s[FirstLineLength(s)] == '\n')
    decreases |s|
  {
    var n := FirstLineLength(s);
    var line := s[..n];
    if LineBreakLength(s) > 0 {
      assert line[0] == s[0];
      if n == 2 {
        assert line[1] == s[1];
      }
    } else if |s| > 1 {
      var tail := s[1..];
      FirstLineFacts(tail);
      var n' := FirstLineLength(tail);
      var line' := tail[..n'];
      assert line == [s[0]] + line';
      LineEndingOfCons(s[0], line');
      assert line[1..] == line';
      assert line[|line| - 1] == line'[|line'| - 1];
      if n < |s| {
        assert s[n] == tail[n'];
      }
    }
  }

  /** What `splitlines(keepends=True)` returns is always separate lines. */
  lemma {:induction false} SplitLinesAreSeparate(s: string)
    ensures SeparateLines(SplitLinesKeepEnds(s))
    decreases |s|
  {
    if |s| > 0 {
      var n := FirstLineLength(s);
      FirstLineFacts(s);
      SplitLinesAreSeparate(s[n..]);
      var rest := SplitLinesKeepEnds(s[n..]);
      var ls := SplitLinesKeepEnds(s);
      assert ls == [s[..n]] + rest;
      if |rest| > 0 {
        assert rest[0] == s[n..][..FirstLineLength(s[n..])];
        assert rest[0][0] == s[n];
      }
      forall i | 0 <= i < |ls| ensures IsLine(ls[i]) {
        if i > 0 {
          assert ls[i] == rest[i - 1];
        }
      }
      forall i | 0 <= i < |ls| - 1
        ensures LineEndingLength(ls[i]) > 0 && !(EndsWithCr(ls[i]) && StartsWithLf(ls[i + 1]))
      {
        if i > 0 {
          assert ls[i] == rest[i - 1] && ls[i + 1] == rest[i];
        }
      }
    }
  }

  lemma SeparatePrefix(ls: seq<string>, k: nat)
    requires SeparateLines(ls) && k <= |ls|
    ensures SeparateLines(ls[..k])
  {
    assert forall i :: 0 <= i < k ==> ls[..k][i] == ls[i];
  }

  /** Two runs of separate lines stay separate when the first ends in a
      terminator that the second cannot extend. */
  lemma SeparateAppend(a: seq<string>, b: seq<string>)
    requires SeparateLines(a) && SeparateLines(b)
    requires |a| > 0 && |b| > 0 ==>
               LineEndingLength(a[|a| - 1]) > 0 && !(EndsWithCr(a[|a| - 1]) && StartsWithLf(b[0]))
    ensures SeparateLines(a + b)
  {
    var ab := a + b;
    forall i | 0 <= i < |ab| ensures IsLine(ab[i]) {
      if i >= |a| {
        assert ab[i] == b[i - |a|];
      }
    }
    forall i | 0 <= i < |ab| - 1
      ensures LineEndingLength(ab[i]) > 0 && !(EndsWithCr(ab[i]) && StartsWithLf(ab[i + 1]))
    {
      if i >= |a| {
        assert ab[i] == b[i - |a|] && ab[i + 1] == b[i + 1 - |a|];
      } else if i == |a| - 1 {
        assert ab[i + 1] == b[0];
      }
    }
  }

  /** Everything in a line before a non-space character lies in front of its
      terminator, so it holds no line boundary. */
  lemma LeadIsPlain(l: string, p: nat)
    requires IsLine(l) && p < |l| && !IsSpace(l[p])
    ensures NoLineBoundary(l[..p])
  {
    FirstLineHasNoBoundary(l);
    assert l[..FirstLineLength(l)] == l;
    var body := DropLineEnding(l);
    assert p < |body| by {
      if LineEndingLength(l) >= 1 {
        assert IsSpace(l[|l| - 1]);
      }
      if LineEndingLength(l) == 2 {
        assert IsSpace(l[|l| - 2]);
      }
    }
    forall k | 0 <= k < p ensures !IsLineBoundary(l[..p][k]) {
      assert l[..p][k] == body[k];
    }
  }

  /** An unterminated line is still one line once `\n` is added. */
  lemma TerminatedLine(l: string)
    requires IsLine(l) && LineEndingLength(l) == 0
    ensures IsLine(l + "\n") && LineEndingLength(l + "\n") == 1
    ensures !EndsWithCr(l + "\n") && StartsWithLf(l + "\n") == StartsWithLf(l)
  {
    FirstLineHasNoBoundary(l);
    assert l[..FirstLineLength(l)] == l;
    assert DropLineEnding(l) == l;
    PlainLine(l);
  }


  /*** Integers in decimal (`str(int)`) ***/

  function DigitChar(d: nat): (c: char)
    requires d < 10
    ensures IsAsciiDigit(c)
  {
    ('0' as int + d) as char
  }

  /** `str(n)` for a natural number. */
  function NatToString(n: nat): (s: string)
    ensures |s| > 0
    ensures forall i :: 0 <= i < |s| ==> IsAsciiDigit(s[i])
    ensures |s| > 1 ==> s[0] != '0'
  {
    if n < 10 then [DigitChar(n)]
    else NatToString(n / 10) + [DigitChar(n % 10)]
  }

  /** `str(i)` for an integer: a minus sign for negatives. */
  function IntToString(i: int): (s: string)
    ensures |s| > 0
    ensures i < 0 <==> s[0] == '-'
  {
    if i < 0 then "-" + NatToString(-i) else NatToString(i)
  }

  /** The value of a run of decimal digits. */
  function DigitsValue(s: string): nat
    requires forall i :: 0 <= i < |s| ==> IsAsciiDigit(s[i])
  {
    if |s| == 0 then 0
    else
      assert IsAsciiDigit(s[|s| - 1]);
      DigitsValue(s[..|s| - 1]) * 10 + (s[|s| - 1] as int - '0' as int)
  }

  /** Reading back the decimal rendering of a natural number gives the number. */
  lemma {:induction false} NatToStringRoundTrip(n: nat)
    ensures DigitsValue(NatToString(n)) == n
  {
    if n >= 10 {
      NatToStringRoundTrip(n / 10);
      var s := NatToString(n);
      assert s[..|s| - 1] == NatToString(n / 10);
    }
  }

  /** `str(int)` is injective: different integers render differently. */
  lemma IntToStringInjective(a: int, b: int)
    requires IntToString(a) == IntToString(b)
    ensures a == b
  {
    if a < 0 {
      assert b < 0;
      assert IntToString(a)[1..] == NatToString(-a);
      assert IntToString(b)[1..] == NatToString(-b);
      NatToStringRoundTrip(-a);
      NatToStringRoundTrip(-b);
    } else {
      assert b >= 0;
      NatToStringRoundTrip(a);
      NatToStringRoundTrip(b);
    }
  }

  /*** Code-point ordering of strings (Python's `<` on `str`) ***/

  /** `a < b` on Python strings: at the first difference the smaller code
      point wins, and a proper prefix is smaller. */
  predicate LexLess(a: string, b: string) {
    if |a| == 0 then |b| > 0
    else if |b| == 0 then false
    else if a[0] != b[0] then a[0] < b[0]
    else LexLess(a[1..], b[1..])
  }

  lemma LexLessIrreflexive(a: string)
    ensures !LexLess(a, a)
  {
  }

  lemma {:induction false} LexLessTransitive(a: string, b: string, c: string)
    requires LexLess(a, b) && LexLess(b, c)
    ensures LexLess(a, c)
    decreases |a|
  {
    if |a| > 0 && |b| > 0 && |c| > 0 && a[0] == b[0] && b[0] == c[0] {
      LexLessTransitive(a[1..], b[1..], c[1..]);
    }
  }

  lemma {:induction false} LexLessTotal(a: string, b: string)
    ensures a == b || LexLess(a, b) || LexLess(b, a)
    decreases |a|
  {
    if |a| > 0 && |b| > 0 && a[0] == b[0] {
      LexLessTotal(a[1..], b[1..]);
      if a[1..] == b[1..] {
        assert a == [a[0]] + a[1..] && b == [b[0]] + b[1..];
      }
    }
  }

  /*** Words and whitespace ***/

  /** A word followed by whitespace (or by nothing) is read as one word. */
  lemma {:induction false} WordLengthOfWord(w: string, rest: string)
    requires NoSpace(w) && (|rest| > 0 ==> IsSpace(rest[0]))
    ensures WordLength(w + rest) == |w|
    decreases |w|
  {
    if |w| > 0 {
      assert (w + rest)[1..] == w[1..] + rest;
      WordLengthOfWord(w[1..], rest);
    } else {
      assert w + rest == rest;
    }
  }

  /** Joining non-empty words with single spaces and splitting on whitespace
      gives the words back. */
  lemma {:induction false} SplitWhitespaceOfJoin(words: seq<string>)
    requires forall i :: 0 <= i < |words| ==> |words[i]| > 0 && NoSpace(words[i])
    ensures SplitWhitespace(Join(words, " ")) == words
    decreases |words|
  {
    if |words| == 1 {
      WordLengthOfWord(words[0], "");
      assert words[0] + "" == words[0];
      assert words[0][|words[0]|..] == "";
    } else if |words| > 1 {
      var w := words[0];
      var rest := Join(words[1..], " ");
      var s := w + " " + rest;
      assert Join(words, " ") == s;
      assert s == w + (" " + rest);
      WordLengthOfWord(w, " " + rest);
      assert s[..|w|] == w;
      assert s[|w|..] == " " + rest;
      assert (" " + rest)[1..] == rest;
      SplitWhitespaceOfJoin(words[1..]);
      assert words == [w] + words[1..];
    }
  }

  /** Any slice of a string without whitespace has none either. */
  lemma NoSpaceSlice(s: string, a: nat, b: nat)
    requires NoSpace(s) && a <= b <= |s|
    ensures NoSpace(s[a..b])
  {
    forall i | 0 <= i < b - a ensures !IsSpace(s[a..b][i]) {
      assert s[a..b][i] == s[a + i];
    }
  }

  /** Stripping loses only whitespace. */
  lemma RemoveSpacesOfStrip(s: string)
    ensures RemoveSpaces(Strip(s)) == RemoveSpaces(s)
  {
    StripIsInnerSlice(s);
    var k := |s| - |LStrip(s)|;
    var r := Strip(s);
    SliceThree(s, k, k + |r|);
    RemoveSpacesAround(s[..k], s[k..k + |r|], s[k + |r|..]);
  }

  lemma SliceThree(s: string, i: nat, j: nat)
    requires i <= j <= |s|
    ensures s == s[..i] + s[i..j] + s[j..]
  {
  }

  /** Whitespace on either side of a text is lost to `RemoveSpaces`. */
  lemma RemoveSpacesAround(front: string, r: string, back: string)
    requires AllSpace(front) && AllSpace(back)
    ensures RemoveSpaces(front + r + back) == RemoveSpaces(r)
  {
    RemoveSpacesAppend(front + r, back);
    RemoveSpacesAppend(front, r);
    RemoveSpacesOfAllSpace(front);
    RemoveSpacesOfAllSpace(back);
    var rr := RemoveSpaces(r);
    assert RemoveSpaces(front + r) == rr by {
      assert RemoveSpaces(front + r) == "" + rr;
    }
    assert RemoveSpaces(front + r + back) == rr + "";
  }
}
