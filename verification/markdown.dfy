/** `quote_braced_with_backticks`: every single-level `{...}` outside code
    spans is wrapped in backticks so that Markdown shows it verbatim. The
    two regular expressions are written out as scanners. */
module Markdown {
  import opened Wrappers
  import opened PyStr

  /*** The code-span expression ``(```[\s\S]*?```|`[^`]*`)`` ***/

  const Fence: string := "```"

  /** The first backtick at or after `from`. */
  function NextTick(s: string, from: nat): (r: Option<nat>)
    ensures r.Some? ==> from <= r.value < |s| && s[r.value] == '`'
    ensures r.Some? ==> forall k :: from <= k < r.value ==> s[k] != '`'
    ensures r.None? ==> forall k :: from <= k < |s| ==> s[k] != '`'
    decreases |s| - from
  {
    if from >= |s| then None
    else if s[from] == '`' then Some(from)
    else NextTick(s, from + 1)
  }

  /** Length of an inline span `` `...` `` at the start of `s`: up to the
      next backtick. */
  function InlineLength(s: string): (r: Option<nat>)
    ensures r.Some? ==> 2 <= r.value <= |s| && s[0] == '`' && s[r.value - 1] == '`'
    ensures r.Some? ==> forall k :: 1 <= k < r.value - 1 ==> s[k] != '`'
    ensures r.None? <==> !(|s| > 0 && s[0] == '`' && exists k :: 1 <= k < |s| && s[k] == '`')
  {
    if |s| == 0 || s[0] != '`' then None
    else
      match NextTick(s, 1)
      case None => None
      case Some(j) => Some(j + 1)
  }

  /** Length of the code span at the start of `s`: a fenced block up to the
      nearest closing fence if there is one, else an inline span (which, on
      an unclosed fence, is the empty span ` `` `). */
  function CodeSpanLength(s: string): (r: Option<nat>)
    ensures r.Some? ==> 2 <= r.value <= |s| && s[0] == '`'
    ensures r.None? <==> InlineLength(s).None?
    ensures StartsWith(s, Fence) && FindFrom(s, Fence, 3).Some? ==> r == Some(FindFrom(s, Fence, 3).value + 3)
  {
    if StartsWith(s, Fence) && FindFrom(s, Fence, 3).Some? then
      assert s[1] == '`' && s[0] == '`';
      Some(FindFrom(s, Fence, 3).value + 3)
    else InlineLength(s)
  }

  /*** The braced expression `\{[^{}\n]*}` ***/

  predicate Special(c: char) {
    c == '{' || c == '}' || c == '\n'
  }

  /** The first brace or newline at or after `from`. */
  function NextSpecial(s: string, from: nat): (r: Option<nat>)
    ensures r.Some? ==> from <= r.value < |s| && Special(s[r.value])
    ensures r.Some? ==> forall k :: from <= k < r.value ==> !Special(s[k])
    ensures r.None? ==> forall k :: from <= k < |s| ==> !Special(s[k])
    decreases |s| - from
  {
    if from >= |s| then None
    else if Special(s[from]) then Some(from)
    else NextSpecial(s, from + 1)
  }

  /** A whole single-level braced span. */
  predicate IsBraced(b: string) {
    |b| >= 2 && b[0] == '{' && b[|b| - 1] == '}' && forall k :: 1 <= k < |b| - 1 ==> !Special(b[k])
  }

  /** Length of the braced span at the start of `s`, if it starts with one
      (there is at most one, since the first `}` closes it). */
  function BraceLength(s: string): (r: Option<nat>)
    ensures r.Some? ==> r.value <= |s| && IsBraced(s[..r.value])
    ensures r.None? ==> forall n :: 0 <= n <= |s| ==> !IsBraced(s[..n])
  {
    if |s| == 0 || s[0] != '{' then None
    else
      match NextSpecial(s, 1)
      case None =>
        assert forall n :: 0 <= n <= |s| ==> !IsBraced(s[..n]) by {
          forall n | 0 <= n <= |s| && n >= 2 ensures !IsBraced(s[..n]) {
            assert Special(s[..n][n - 1]) || s[..n][n - 1] != '}';
          }
        }
        None
      case Some(j) =>
        if s[j] == '}' then
          assert forall k :: 1 <= k < j ==> s[..j + 1][k] == s[k];
          Some(j + 1)
        else
          assert forall n :: 0 <= n <= |s| ==> !IsBraced(s[..n]) by {
            forall n | 0 <= n <= |s| && n >= 2 && s[n - 1] == '}' ensures !IsBraced(s[..n]) {
              assert j < n - 1;
              assert s[..n][j] == s[j];
            }
          }
          None
  }

  /*** Wrapping ***/

  /** `_should_wrap`: every span, or with `only_these` only a span whose
      inner text, stripped, is one of them. */
  predicate ShouldWrap(braced: string, only: Option<set<string>>)
    requires |braced| >= 2
  {
    only.None? || Strip(braced[1..|braced| - 1]) in only.value
  }

  /** `_wrap_segment`: the braced substitution over a text without code
      spans. */
  function Wrap(s: string, only: Option<set<string>>): string
    decreases |s|
  {
    if |s| == 0 then ""
    else
      match BraceLength(s)
      case Some(n) =>
        var b := s[..n];
        (if ShouldWrap(b, only) then "`" + b + "`" else b) + Wrap(s[n..], only)
      case None => [s[0]] + Wrap(s[1..], only)
  }

  /** The scan for code spans: `pending` is the text since the last span,
      wrapped once the next span (or the end) is reached; spans are copied
      as they are. */
  function Scan(pending: string, s: string, only: Option<set<string>>): string
    decreases |s|
  {
    if |s| == 0 then Wrap(pending, only)
    else
      match CodeSpanLength(s)
      case Some(n) => Wrap(pending, only) + s[..n] + Scan("", s[n..], only)
      case None => Scan(pending + [s[0]], s[1..], only)
  }

  /** `quote_braced_with_backticks`. */
  function Quote(text: Option<string>, only: Option<set<string>>): (r: string)
    ensures text.None? || text == Some("") ==> r == ""
  {
    if text.None? || text.value == "" then "" else Scan("", text.value, only)
  }

  /*** Laws ***/

  /** The text with its backticks deleted. */
  function DropTicks(s: string): string {
    if |s| == 0 then ""
    else (if s[0] == '`' then "" else [s[0]]) + DropTicks(s[1..])
  }

  lemma {:induction false} DropTicksAppend(a: string, b: string)
    ensures DropTicks(a + b) == DropTicks(a) + DropTicks(b)
    decreases |a|
  {
    if |a| == 0 {
      assert a + b == b;
    } else {
      assert (a + b)[0] == a[0];
      assert (a + b)[1..] == a[1..] + b;
      DropTicksAppend(a[1..], b);
    }
  }

  lemma DropTicksAppend3(a: string, b: string, c: string)
    ensures DropTicks(a + b + c) == DropTicks(a) + DropTicks(b) + DropTicks(c)
  {
    DropTicksAppend(a + b, c);
    DropTicksAppend(a, b);
  }

  /** Wrapping only inserts backticks: deleting every backtick gives the
      same text before and after. */
  lemma {:induction false} WrapOnlyAddsTicks(s: string, only: Option<set<string>>)
    ensures DropTicks(Wrap(s, only)) == DropTicks(s)
    decreases |s|
  {
    if |s| > 0 {
      if BraceLength(s).Some? {
        var n := BraceLength(s).value;
        WrapOnlyAddsTicks(s[n..], only);
        BracedOnlyAddsTicks(s, n, only);
      } else {
        WrapOnlyAddsTicks(s[1..], only);
        CharOnlyAddsTicks(s, only);
      }
    }
  }

  /** The step of `WrapOnlyAddsTicks` past a braced group. */
  lemma BracedOnlyAddsTicks(s: string, n: nat, only: Option<set<string>>)
    requires |s| > 0 && BraceLength(s) == Some(n)
    requires DropTicks(Wrap(s[n..], only)) == DropTicks(s[n..])
    ensures DropTicks(Wrap(s, only)) == DropTicks(s)
  {
    var b := s[..n];
    var w := if ShouldWrap(b, only) then "`" + b + "`" else b;
    WrapPastBraces(s, n, only);
    DropTicksAppend(w, Wrap(s[n..], only));
    if ShouldWrap(b, only) {
      TicksAroundDropped(b);
    }
    SplitAt(s, n);
    DropTicksAppend(b, s[n..]);
  }

  /** Wrapping a text that starts with a braced group. */
  lemma WrapPastBraces(s: string, n: nat, only: Option<set<string>>)
    requires |s| > 0 && BraceLength(s) == Some(n)
    ensures n >= 2 && Wrap(s, only) == (if ShouldWrap(s[..n], only) then "`" + s[..n] + "`" else s[..n]) + Wrap(s[n..], only)
  {
  }

  lemma TicksAroundDropped(b: string)
    ensures DropTicks("`" + b + "`") == DropTicks(b)
  {
    DropTicksAppend("`" + b, "`");
    DropTicksAppend("`", b);
  }

  /** The step of `WrapOnlyAddsTicks` past a character outside a group. */
  lemma CharOnlyAddsTicks(s: string, only: Option<set<string>>)
    requires |s| > 0 && BraceLength(s).None?
    requires DropTicks(Wrap(s[1..], only)) == DropTicks(s[1..])
    ensures DropTicks(Wrap(s, only)) == DropTicks(s)
  {
    assert s == [s[0]] + s[1..];
    DropTicksAppend([s[0]], s[1..]);
    DropTicksAppend([s[0]], Wrap(s[1..], only));
  }

  /** The step of `ScanOnlyAddsTicks` past a code span. */
  lemma SpanOnlyAddsTicks(pending: string, s: string, n: nat, only: Option<set<string>>)
    requires |s| > 0 && CodeSpanLength(s) == Some(n)
    requires DropTicks(Scan("", s[n..], only)) == DropTicks(s[n..])
    ensures DropTicks(Scan(pending, s, only)) == DropTicks(pending + s)
  {
    WrapOnlyAddsTicks(pending, only);
    DropTicksAppend3(Wrap(pending, only), s[..n], Scan("", s[n..], only));
    assert pending + s == pending + s[..n] + s[n..];
    DropTicksAppend3(pending, s[..n], s[n..]);
  }

  /** The whole quoting only inserts backticks. */
  lemma {:induction false} ScanOnlyAddsTicks(pending: string, s: string, only: Option<set<string>>)
    ensures DropTicks(Scan(pending, s, only)) == DropTicks(pending + s)
    decreases |s|
  {
    if |s| == 0 {
      WrapOnlyAddsTicks(pending, only);
      assert pending + s == pending;
    } else {
      match CodeSpanLength(s)
      case Some(n) =>
        ScanOnlyAddsTicks("", s[n..], only);
        assert "" + s[n..] == s[n..];
        SpanOnlyAddsTicks(pending, s, n, only);
      case None =>
        ScanOnlyAddsTicks(pending + [s[0]], s[1..], only);
        assert (pending + [s[0]]) + s[1..] == pending + s;
    }
  }

  lemma QuoteOnlyAddsTicks(text: string, only: Option<set<string>>)
    ensures DropTicks(Quote(Some(text), only)) == DropTicks(text)
  {
    if text != "" {
      ScanOnlyAddsTicks("", text, only);
      assert "" + text == text;
    }
  }

  /** With an empty `only_these` nothing is wrapped. */
  lemma {:induction false} WrapNothingAllowed(s: string)
    ensures Wrap(s, Some({})) == s
    decreases |s|
  {
    if |s| > 0 {
      match BraceLength(s)
      case Some(n) =>
        WrapNothingAllowed(s[n..]);
        assert s == s[..n] + s[n..];
      case None =>
        WrapNothingAllowed(s[1..]);
        assert s == [s[0]] + s[1..];
    }
  }

  lemma {:induction false} ScanNothingAllowed(pending: string, s: string)
    ensures Scan(pending, s, Some({})) == pending + s
    decreases |s|
  {
    if |s| == 0 {
      WrapNothingAllowed(pending);
      assert pending + s == pending;
    } else if CodeSpanLength(s).Some? {
      var n := CodeSpanLength(s).value;
      ScanNothingAllowed("", s[n..]);
      SpanNothingAllowed(pending, s, n);
    } else {
      ScanNothingAllowed(pending + [s[0]], s[1..]);
      CharNothingAllowed(pending, s);
    }
  }

  /** The step of `ScanNothingAllowed` past a code span. */
  lemma SpanNothingAllowed(pending: string, s: string, n: nat)
    requires |s| > 0 && CodeSpanLength(s) == Some(n)
    requires Scan("", s[n..], Some({})) == s[n..]
    ensures Scan(pending, s, Some({})) == pending + s
  {
    WrapNothingAllowed(pending);
    assert s == s[..n] + s[n..];
  }

  /** The step of `ScanNothingAllowed` past a character outside a span. */
  lemma CharNothingAllowed(pending: string, s: string)
    requires |s| > 0 && CodeSpanLength(s).None?
    requires Scan(pending + [s[0]], s[1..], Some({})) == (pending + [s[0]]) + s[1..]
    ensures Scan(pending, s, Some({})) == pending + s
  {
    ScanPastChar(pending, s, Some({}));
    MoveFirst(pending, s);
  }

  lemma MoveFirst(p: string, s: string)
    requires |s| > 0
    ensures (p + [s[0]]) + s[1..] == p + s
  {
    assert s == [s[0]] + s[1..];
  }

  lemma SplitAt(s: string, n: nat)
    requires n <= |s|
    ensures s[..n] + s[n..] == s
  {
  }

  /** Scanning past a character outside a code span. */
  lemma ScanPastChar(pending: string, s: string, only: Option<set<string>>)
    requires |s| > 0 && CodeSpanLength(s).None?
    ensures Scan(pending, s, only) == Scan(pending + [s[0]], s[1..], only)
  {
  }

  /** With an empty `only_these` the text comes back unchanged. */
  lemma QuoteNothingAllowed(text: string)
    ensures Quote(Some(text), Some({})) == text
  {
    if text != "" {
      ScanNothingAllowed("", text);
      assert "" + text == text;
    }
  }

  /** A text without an opening brace is not changed by wrapping. */
  lemma {:induction false} WrapWithoutBraces(s: string, only: Option<set<string>>)
    requires forall k :: 0 <= k < |s| ==> s[k] != '{'
    ensures Wrap(s, only) == s
    decreases |s|
  {
    if |s| > 0 {
      assert BraceLength(s).None?;
      WrapWithoutBraces(s[1..], only);
      assert s == [s[0]] + s[1..];
    }
  }

  /** Inside a braced span the only `}` is the last character. */
  lemma BracedCloses(s: string, n: nat)
    requires n <= |s| && IsBraced(s[..n])
    ensures s[n - 1] == '}' && forall k :: 1 <= k < n - 1 ==> s[k] != '}'
  {
    assert s[..n][n - 1] == s[n - 1];
    forall k | 1 <= k < n - 1 ensures s[k] != '}' {
      assert s[..n][k] == s[k];
    }
  }

  /** A braced span at the front is wrapped, or with `only_these` kept as
      it is when its stripped inner text is not listed, and the scan goes
      on after it. */
  lemma WrapBraced(b: string, rest: string, only: Option<set<string>>)
    requires IsBraced(b)
    ensures Wrap(b + rest, only)
            == (if ShouldWrap(b, only) then "`" + b + "`" else b) + Wrap(rest, only)
  {
    var s := b + rest;
    assert s[..|b|] == b;
    assert BraceLength(s).Some?;
    var n := BraceLength(s).value;
    BracedCloses(s, n);
    BracedCloses(s, |b|);
    assert n == |b|;
    assert s[n..] == rest;
  }

  /** An inline code span at the front is copied untouched, braces and
      all, and the scan goes on after it. */
  lemma InlineCodeKept(pending: string, code: string, rest: string, only: Option<set<string>>)
    requires |code| > 0 && forall k :: 0 <= k < |code| ==> code[k] != '`'
    ensures Scan(pending, "`" + code + "`" + rest, only)
            == Wrap(pending, only) + ("`" + code + "`") + Scan("", rest, only)
  {
    var span := "`" + code + "`";
    var s := span + rest;
    assert s[1] == code[0];
    assert !StartsWith(s, Fence);
    assert forall k :: 1 <= k < |code| + 1 ==> s[k] == code[k - 1];
    assert s[|code| + 1] == '`';
    assert NextTick(s, 1) == Some(|code| + 1);
    assert s[..|span|] == span && s[|span|..] == rest;
  }

  /** A fenced block whose body has no backtick is copied untouched. */
  lemma FencedCodeKept(pending: string, code: string, rest: string, only: Option<set<string>>)
    requires forall k :: 0 <= k < |code| ==> code[k] != '`'
    ensures Scan(pending, Fence + code + Fence + rest, only)
            == Wrap(pending, only) + (Fence + code + Fence) + Scan("", rest, only)
  {
    var block := Fence + code + Fence;
    var s := block + rest;
    assert s[..3] == Fence;
    forall k: nat | 3 <= k < 3 + |code| ensures !OccursAt(s, Fence, k) {
      assert s[k] == code[k - 3];
      assert s[k..k + 3][0] == s[k];
    }
    assert s[3 + |code|..3 + |code| + 3] == Fence;
    FindFromAt(s, Fence, 3, 3 + |code|);
    assert s[..|block|] == block && s[|block|..] == rest;
  }
}
