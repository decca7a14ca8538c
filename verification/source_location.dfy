/** Where a token sits in a script's source text: the lexeme it covers and
    the 1-based line/column range shown in error messages. */
module Locations {
  import opened PyStr

  datatype Position = Position(line: int, column: int)

  datatype Range = Range(start: Position, end: Position)

  /** A span of `length` characters of `source` starting at `offset`. */
  datatype SourceLocation = SourceLocation(source: string, offset: nat, length: nat)
  {
    /** The text the span covers; empty when the span starts past the end,
        and cut at the end of the source like a Python slice. */
    function Lexeme(): (r: string)
      ensures offset >= |source| ==> r == ""
      ensures offset < |source| ==>
                |r| == Min(length, |source| - offset)
                && r == source[offset..offset + |r|]
    {
      if offset >= |source| then ""
      else source[offset..offset + Min(length, |source| - offset)]
    }

    /** Start and end positions of the span. */
    function Range(): (r: Range)
    {
      var lines := SplitLinesKeepEnds(source);
      ScanLines(lines, 0, 0, offset, length, Position(0, 0))
    }
  }

  function Min(a: nat, b: nat): nat { if a <= b then a else b }

  /** Offset at which line `i` (0-based) of `lines` begins. */
  function LineStart(lines: seq<string>, i: nat): nat
    requires i <= |lines|
  {
    |Concat(lines[..i])|
  }

  lemma ConcatSnoc(parts: seq<string>, last: string)
    ensures Concat(parts + [last]) == Concat(parts) + last
  {
    if |parts| == 0 {
      assert parts + [last] == [last];
    } else {
      assert (parts + [last])[1..] == parts[1..] + [last];
      ConcatSnoc(parts[1..], last);
    }
  }

  lemma LineStartNext(lines: seq<string>, i: nat)
    requires i < |lines|
    ensures LineStart(lines, i + 1) == LineStart(lines, i) + |lines[i]|
  {
    assert lines[..i + 1] == lines[..i] + [lines[i]];
    ConcatSnoc(lines[..i], lines[i]);
  }

  /** The loop over the lines: `current` is where line `i` starts, `start`
      stays (0, 0) until a line reaching past `offset` is found, and the scan
      stops at the first line whose end reaches `offset + length`. */
  function ScanLines(lines: seq<string>, i: nat, current: nat, offset: nat, length: nat,
                     start: Position): Range
    requires i <= |lines|
    decreases |lines| - i
  {
    if i == |lines| then Range(start, Position(0, 0))
    else
      var lineLength := |lines[i]|;
      var start' :=
        if current + lineLength > offset && start.line == 0
        then Position(i + 1, offset + 1 - current)
        else start;
      if current + lineLength >= offset + length then
        Range(start', Position(i + 1, offset + length + 1 - current))
      else
        ScanLines(lines, i + 1, current + lineLength, offset, length, start')
  }

  /** Where the scan ends: the first line whose end reaches
      `offset + length`, or (0, 0) when no line does. */
  lemma {:induction false} ScanLinesFindsEnd(lines: seq<string>, i: nat, current: nat, offset: nat,
                                             length: nat, start: Position)
    requires i <= |lines| && current == LineStart(lines, i)
    requires forall j :: 1 <= j <= i ==> LineStart(lines, j) < offset + length
    ensures var r := ScanLines(lines, i, current, offset, length, start);
            r.end.line >= 0
            && (r.end.line == 0 ==> r.end == Position(0, 0))
            && (r.end.line == 0 ==> forall j :: 1 <= j <= |lines| ==> LineStart(lines, j) < offset + length)
            && (r.end.line > 0 ==>
                  i + 1 <= r.end.line <= |lines|
                  && offset + length <= LineStart(lines, r.end.line)
                  && (forall j :: 1 <= j < r.end.line ==> LineStart(lines, j) < offset + length)
                  && r.end.column == offset + length - LineStart(lines, r.end.line - 1) + 1)
    decreases |lines| - i
  {
    if i < |lines| {
      LineStartNext(lines, i);
      var lineLength := |lines[i]|;
      var start' :=
        if current + lineLength > offset && start.line == 0
        then Position(i + 1, offset + 1 - current)
        else start;
      if current + lineLength < offset + length {
        ScanLinesFindsEnd(lines, i + 1, current + lineLength, offset, length, start');
      }
    }
  }

  /** Where the scan starts: the first scanned line reaching past `offset`,
      or (0, 0) when none of the scanned lines does. */
  lemma {:induction false} ScanLinesFindsStart(lines: seq<string>, i: nat, current: nat, offset: nat,
                                               length: nat, start: Position)
    requires i <= |lines| && current == LineStart(lines, i)
    requires start.line >= 0
    requires start.line == 0 ==> start == Position(0, 0)
    requires start.line > 0 ==>
               1 <= start.line <= i
               && LineStart(lines, start.line - 1) <= offset < LineStart(lines, start.line)
               && start.column == offset - LineStart(lines, start.line - 1) + 1
    requires start.line == 0 ==> forall j :: 1 <= j <= i ==> LineStart(lines, j) <= offset
    ensures var r := ScanLines(lines, i, current, offset, length, start);
            var last := if r.end.line > 0 then r.end.line else |lines|;
            r.start.line >= 0
            && (r.start.line == 0 ==> r.start == Position(0, 0))
            && (r.start.line == 0 ==>
                  forall j :: 1 <= j <= |lines| && j <= last ==> LineStart(lines, j) <= offset)
            && (r.start.line > 0 ==>
                  1 <= r.start.line <= |lines| && r.start.line <= last
                  && LineStart(lines, r.start.line - 1) <= offset < LineStart(lines, r.start.line)
                  && r.start.column == offset - LineStart(lines, r.start.line - 1) + 1)
    decreases |lines| - i
  {
    if i < |lines| {
      LineStartNext(lines, i);
      assert i > 0 && start.line == 0 ==> LineStart(lines, i) <= offset;
      var lineLength := |lines[i]|;
      var start' :=
        if current + lineLength > offset && start.line == 0
        then Position(i + 1, offset + 1 - current)
        else start;
      if current + lineLength < offset + length {
        ScanLinesFindsStart(lines, i + 1, current + lineLength, offset, length, start');
      }
    }
  }

  /** Line starts grow with the line index (every line holds a character). */
  lemma LineStartMonotone(lines: seq<string>, i: nat, j: nat)
    requires i <= j <= |lines|
    requires forall k :: 0 <= k < |lines| ==> |lines[k]| > 0
    ensures LineStart(lines, i) + (j - i) <= LineStart(lines, j)
    decreases j - i
  {
    if i < j {
      LineStartNext(lines, i);
      LineStartMonotone(lines, i + 1, j);
    }
  }

  /** For a span that lies inside the source and covers at least one
      character, both positions are found: the start is the line holding
      `offset` with a 1-based column, the end the line holding the span's last
      character, its column one past that character. */
  lemma {:induction false} RangeOfSpanInside(loc: SourceLocation)
    requires loc.length >= 1 && loc.offset + loc.length <= |loc.source|
    ensures var lines := SplitLinesKeepEnds(loc.source);
            var r := loc.Range();
            1 <= r.start.line <= r.end.line <= |lines|
            && LineStart(lines, r.start.line - 1) <= loc.offset < LineStart(lines, r.start.line)
            && r.start.column == loc.offset - LineStart(lines, r.start.line - 1) + 1
            && LineStart(lines, r.end.line - 1) < loc.offset + loc.length <= LineStart(lines, r.end.line)
            && r.end.column == loc.offset + loc.length - LineStart(lines, r.end.line - 1) + 1
  {
    var lines := SplitLinesKeepEnds(loc.source);
    var r := loc.Range();
    SplitLinesKeepEndsConcat(loc.source);
    assert lines[..|lines|] == lines;
    assert LineStart(lines, |lines|) == |loc.source|;
    assert |lines| > 0;
    ScanLinesFindsEnd(lines, 0, 0, loc.offset, loc.length, Position(0, 0));
    ScanLinesFindsStart(lines, 0, 0, loc.offset, loc.length, Position(0, 0));
    assert r == ScanLines(lines, 0, 0, loc.offset, loc.length, Position(0, 0));
    assert r.end.line > 0;
    assert r.start.line > 0;
    assert LineStart(lines, 0) == 0;
  }

  /** A span starting at or past the end of the source (the end-of-input
      token's span, for one) is located nowhere: both positions stay (0, 0). */
  lemma RangeOfSpanPastEnd(loc: SourceLocation)
    requires loc.offset >= |loc.source| && loc.length >= 1
    ensures loc.Range() == Range(Position(0, 0), Position(0, 0))
  {
    var lines := SplitLinesKeepEnds(loc.source);
    SplitLinesKeepEndsConcat(loc.source);
    assert lines[..|lines|] == lines;
    var r := loc.Range();
    ScanLinesFindsEnd(lines, 0, 0, loc.offset, loc.length, Position(0, 0));
    ScanLinesFindsStart(lines, 0, 0, loc.offset, loc.length, Position(0, 0));
    assert r == ScanLines(lines, 0, 0, loc.offset, loc.length, Position(0, 0));
    if r.end.line > 0 {
      LineStartMonotone(lines, r.end.line, |lines|);
    }
    if r.start.line > 0 {
      LineStartMonotone(lines, r.start.line, |lines|);
    }
  }
}
