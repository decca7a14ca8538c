/** The bot's settings: reading environment variables, and rewriting
    `KEY=value` lines of the `.env` file when tokens are refreshed. */
module Config {
  import opened Wrappers
  import opened PyStr

  /*** Environment variables ***/

  /** The process environment after `.env` has been loaded. */
  type Env = map<string, string>

  datatype ValueError = ValueError(message: string)

  /** A variable counts as set when it holds something besides whitespace. */
  predicate IsSet(env: Env, key: string) {
    key in env && !AllSpace(env[key])
  }

  lemma StripIdempotent(s: string)
    ensures Strip(Strip(s)) == Strip(s)
  {
    StripNoOp(Strip(s));
  }

  /** `get_environment_variable_or_raise`: the value without surrounding
      whitespace, or an error naming the variable when it is missing or
      blank. */
  function GetOrRaise(env: Env, key: string): (r: Result<string, ValueError>)
    ensures r.Success? <==> IsSet(env, key)
    ensures r.Success? ==> r.value != "" && Strip(r.value) == r.value
    ensures r.Success? ==> Strip(env[key]) == r.value
    ensures r.Failure? ==> r.error.message == "Environment variable '" + key + "' is not set."
  {
    if key !in env then Failure(ValueError("Environment variable '" + key + "' is not set."))
    else
      var value := env[key];
      StripEmptyIffAllSpace(value);
      StripIdempotent(value);
      if Strip(value) == "" then Failure(ValueError("Environment variable '" + key + "' is not set."))
      else Success(Strip(value))
  }

  /** `get_environment_variable_or_default`. */
  function GetOrDefault(env: Env, key: string, default: Option<string>): (r: Option<string>)
    ensures !IsSet(env, key) ==> r == default
    ensures IsSet(env, key) ==> r.Some? && r.value != "" && Strip(r.value) == r.value
  {
    if key !in env then default
    else
      var value := env[key];
      StripEmptyIffAllSpace(value);
      StripIdempotent(value);
      if Strip(value) == "" then default else Some(Strip(value))
  }

  /** The two readers agree: the default stands in exactly for the error. */
  lemma DefaultReplacesError(env: Env, key: string, default: Option<string>)
    ensures GetOrDefault(env, key, default)
            == (match GetOrRaise(env, key) case Success(v) => Some(v) case Failure(_) => default)
  {
  }

  /** Whitespace around a value is never part of it. */
  lemma PaddedValueReadsTheSame(env: Env, key: string, value: string)
    ensures GetOrRaise(env[key := " " + value + "\n"], key) == GetOrRaise(env[key := value], key)
  {
    var padded := " " + value + "\n";
    StripPadded(" ", value, "\n");
    StripEmptyIffAllSpace(value);
    StripEmptyIffAllSpace(padded);
    var e1 := env[key := padded];
    var e2 := env[key := value];
    assert e1[key] == padded && e2[key] == value;
    assert IsSet(e1, key) == IsSet(e2, key);
  }

  /*** Rewriting the `.env` file (`_update_env_file`) ***/

  /** One `KEY=value` pair to write. The updates are the items of a dict, so
      their keys are distinct and come in insertion order. */
  datatype Update = Update(key: string, value: string)

  const ExportPrefix: string := "export "

  /** `key=value`. */
  function Assignment(u: Update): string {
    u.key + "=" + u.value
  }

  /** A stripped line assigns `key` when it starts with `key=` or
      `export key=`. */
  predicate Assigns(stripped: string, key: string) {
    StartsWith(stripped, key + "=") || StartsWith(stripped, ExportPrefix + key + "=")
  }

  /** The inner loop over the updates, from position `from` on: the first
      one whose key the stripped line assigns (the loop's `break`). */
  function FirstMatchFrom(stripped: string, updates: seq<Update>, from: nat): (r: Option<nat>)
    requires from <= |updates|
    ensures r.Some? ==> from <= r.value < |updates| && Assigns(stripped, updates[r.value].key)
    ensures r.Some? ==> forall j :: from <= j < r.value ==> !Assigns(stripped, updates[j].key)
    ensures r.None? ==> forall j :: from <= j < |updates| ==> !Assigns(stripped, updates[j].key)
    decreases |updates| - from
  {
    if from == |updates| then None
    else if Assigns(stripped, updates[from].key) then Some(from)
    else FirstMatchFrom(stripped, updates, from + 1)
  }

  function FirstMatch(stripped: string, updates: seq<Update>): Option<nat> {
    FirstMatchFrom(stripped, updates, 0)
  }

  /** Which test decides that a line is terminated: the one the code applies
      (`endswith(("\r\n", "\n"))`), or the one that agrees with `splitlines`,
      for which every line boundary terminates a line. */
  datatype EndTest = AsWritten | Intended

  predicate Terminated(line: string, test: EndTest) {
    match test
    case AsWritten => EndsWith(line, "\r\n") || EndsWith(line, "\n")
    case Intended => LineEndingLength(line) > 0
  }

  /** The replacement for a line that assigns `u.key`: its leading whitespace
      and `export ` prefix, then `key=value`, then `\n` if the line was
      terminated. */
  function RewriteLine(line: string, u: Update, test: EndTest): string {
    var stripped := LStrip(line);
    var lead := line[..|line| - |stripped|];
    var prefix := if StartsWith(stripped, ExportPrefix) then ExportPrefix else "";
    lead + prefix + Assignment(u) + (if Terminated(line, test) then "\n" else "")
  }

  /** The main loop: each line that assigns one of the keys is rewritten with
      the first such update, every other line is copied. */
  function RewriteLines(lines: seq<string>, updates: seq<Update>, test: EndTest): (r: seq<string>)
    ensures |r| == |lines|
    ensures forall i :: 0 <= i < |lines| ==> r[i] == Rewrite(lines[i], updates, test)
  {
    seq(|lines|, i requires 0 <= i < |lines| => Rewrite(lines[i], updates, test))
  }

  /** One pass of the loop body: the line rewritten with the first update
      whose key it assigns, or the line itself. */
  function Rewrite(line: string, updates: seq<Update>, test: EndTest): string {
    match FirstMatch(LStrip(line), updates)
    case None => line
    case Some(j) => RewriteLine(line, updates[j], test)
  }

  /** `found[key]`: some line was rewritten with update `j`. */
  predicate Found(lines: seq<string>, updates: seq<Update>, j: nat) {
    exists i :: 0 <= i < |lines| && FirstMatch(LStrip(lines[i]), updates) == Some(j)
  }

  /** The line appended for a key no line assigned. */
  function EntryLine(u: Update): string {
    Assignment(u) + "\n"
  }

  /** The appended lines, for the updates from position `from` on. */
  function Missing(lines: seq<string>, updates: seq<Update>, from: nat): (r: seq<string>)
    requires from <= |updates|
    ensures forall j :: from <= j < |updates| && !Found(lines, updates, j) ==> EntryLine(updates[j]) in r
    ensures forall e :: e in r ==> exists j :: from <= j < |updates| && !Found(lines, updates, j) && e == EntryLine(updates[j])
    decreases |updates| - from
  {
    if from == |updates| then []
    else (if Found(lines, updates, from) then [] else [EntryLine(updates[from])]) + Missing(lines, updates, from + 1)
  }

  /** Before anything is appended, an unterminated last line gets a `\n`. */
  function TerminateLast(lines: seq<string>, test: EndTest): (r: seq<string>)
    ensures |r| == |lines|
    ensures forall i :: 0 <= i < |lines| - 1 ==> r[i] == lines[i]
    ensures |lines| > 0 ==> Terminated(r[|r| - 1], test)
    ensures |lines| > 0 ==>
              r[|r| - 1] == lines[|lines| - 1]
              || (!Terminated(lines[|lines| - 1], test) && r[|r| - 1] == lines[|lines| - 1] + "\n")
  {
    if |lines| == 0 || Terminated(lines[|lines| - 1], test) then lines
    else lines[..|lines| - 1] + [lines[|lines| - 1] + "\n"]
  }

  /** The lines of the new file. `original` is the text `read_text` returns
      (universal newlines already turned into `\n`), or `""` when there is no
      file. */
  function UpdatedLines(original: string, updates: seq<Update>, test: EndTest): seq<string> {
    var lines := SplitLinesKeepEnds(original);
    TerminateLast(RewriteLines(lines, updates, test), test) + Missing(lines, updates, 0)
  }

  /** `_update_env_file` as written: the new content of the file. */
  function UpdateEnvFileAsWritten(original: string, updates: seq<Update>): string {
    Concat(UpdatedLines(original, updates, AsWritten))
  }

  /** `_update_env_file` with a rewritten line keeping whatever line break it
      had, as `splitlines` saw it. */
  function UpdateEnvFile(original: string, updates: seq<Update>): string {
    Concat(UpdatedLines(original, updates, Intended))
  }

  /*** Reading entries back ***/

  /** How a line of a `.env` file reads: after the indentation and an
      optional `export `, the key up to the first `=` and the value after
      it. */
  function ReadEntry(line: string): Option<Update> {
    ReadStripped(LStrip(DropLineEnding(line)))
  }

  function ReadStripped(text: string): Option<Update> {
    var t := RemovePrefix(text, ExportPrefix);
    match Find(t, "=")
    case None => None
    case Some(i) => Some(Update(t[..i], t[i + 1..]))
  }

  /** A key that can be written and read back: non-empty, without whitespace
      and without `=`. */
  predicate PlainKey(key: string) {
    |key| > 0 && NoSpace(key) && forall k :: 0 <= k < |key| ==> key[k] != '='
  }

  predicate PlainUpdate(u: Update) {
    PlainKey(u.key) && NoLineBoundary(u.value)
  }

  lemma NoBoundaryAppend(a: string, b: string)
    requires NoLineBoundary(a) && NoLineBoundary(b)
    ensures NoLineBoundary(a + b)
  {
    forall k | 0 <= k < |a + b| ensures !IsLineBoundary((a + b)[k]) {
      if k >= |a| {
        assert (a + b)[k] == b[k - |a|];
      }
    }
  }

  /** `key=value` of a plain update holds no line boundary and starts with
      the key's first character. */
  lemma AssignmentIsPlain(u: Update)
    requires PlainUpdate(u)
    ensures NoLineBoundary(Assignment(u)) && |Assignment(u)| > 0
    ensures Assignment(u)[0] == u.key[0] && !IsSpace(u.key[0])
  {
    assert NoLineBoundary(u.key);
    NoBoundaryAppend(u.key, "=");
    NoBoundaryAppend(u.key + "=", u.value);
  }

  /** `key=value` never begins with `export `, so no part of the key is
      taken for the prefix. */
  lemma NotExportPrefixed(u: Update)
    requires PlainKey(u.key)
    ensures !StartsWith(Assignment(u), ExportPrefix)
  {
    var a := Assignment(u);
    if |a| >= |ExportPrefix| {
      if |u.key| < |ExportPrefix| {
        assert a[..|ExportPrefix|][|u.key|] == '=' != ExportPrefix[|u.key|];
      } else {
        assert a[..|ExportPrefix|][6] == u.key[6] != ExportPrefix[6];
      }
    }
  }

  /** `key=value`, with or without `export ` in front, reads as the key and
      the value. */
  lemma AssignmentReads(prefix: string, u: Update)
    requires prefix == "" || prefix == ExportPrefix
    requires PlainKey(u.key)
    ensures ReadStripped(prefix + Assignment(u)) == Some(u)
  {
    var a := Assignment(u);
    if prefix == "" {
      NotExportPrefixed(u);
      assert prefix + a == a;
    } else {
      assert (prefix + a)[..|ExportPrefix|] == ExportPrefix;
      assert (prefix + a)[|ExportPrefix|..] == a;
    }
    assert RemovePrefix(prefix + a, ExportPrefix) == a;
    forall k: nat | k < |u.key| ensures !OccursAt(a, "=", k) {
      assert a[k..k + 1][0] == u.key[k];
    }
    assert a[|u.key|..|u.key| + 1] == "=";
    FindFromAt(a, "=", 0, |u.key|);
    assert a[..|u.key|] == u.key && a[|u.key| + 1..] == u.value;
  }

  /** Text without line boundaries followed by `\n` or nothing is one line,
      terminated exactly when the `\n` is there. */
  lemma LineShape(body: string, nl: string)
    requires NoLineBoundary(body) && |body| > 0 && (nl == "" || nl == "\n")
    ensures IsLine(body + nl) && !EndsWithCr(body + nl) && !StartsWithLf(body + nl)
    ensures DropLineEnding(body + nl) == body
    ensures LineEndingLength(body + nl) > 0 <==> nl == "\n"
    ensures (EndsWith(body + nl, "\r\n") || EndsWith(body + nl, "\n")) <==> nl == "\n"
  {
    PlainLine(body);
    if nl == "" {
      assert body + nl == body;
    } else {
      assert (body + nl)[..|body|] == body;
    }
    assert (body + nl)[0] == body[0];
  }

  /** Stripping the indentation leaves the text from the optional `export `
      on. */
  lemma IndentedText(lead: string, prefix: string, u: Update)
    requires AllSpace(lead) && (prefix == "" || prefix == ExportPrefix) && PlainKey(u.key)
    ensures LStrip(lead + (prefix + Assignment(u))) == prefix + Assignment(u)
  {
    var text := prefix + Assignment(u);
    TextStartsSolid(prefix, u);
    LStripSpacePrefix(lead, text);
    LStripNonSpace(text);
  }

  /** `key=value`, with or without `export `, starts with a non-space. */
  lemma TextStartsSolid(prefix: string, u: Update)
    requires (prefix == "" || prefix == ExportPrefix) && PlainKey(u.key)
    ensures |prefix + Assignment(u)| > 0 && !IsSpace((prefix + Assignment(u))[0])
  {
    if prefix == "" {
      assert prefix + Assignment(u) == Assignment(u);
      assert Assignment(u)[0] == u.key[0];
    } else {
      assert (prefix + Assignment(u))[0] == ExportPrefix[0];
    }
  }

  /** A written line, with any indentation, optional `export ` and optional
      `\n`, is one line that reads back as the update. */
  lemma WrittenLineReads(r: string, lead: string, prefix: string, u: Update, nl: string)
    requires AllSpace(lead) && NoLineBoundary(lead)
    requires prefix == "" || prefix == ExportPrefix
    requires nl == "" || nl == "\n"
    requires PlainUpdate(u)
    requires r == lead + prefix + Assignment(u) + nl
    ensures IsLine(r) && ReadEntry(r) == Some(u) && !EndsWithCr(r) && !StartsWithLf(r)
    ensures LineEndingLength(r) > 0 <==> nl == "\n"
    ensures (EndsWith(r, "\r\n") || EndsWith(r, "\n")) <==> nl == "\n"
  {
    var text := prefix + Assignment(u);
    var body := lead + text;
    assert r == body + nl;
    AssignmentIsPlain(u);
    NoBoundaryAppend(prefix, Assignment(u));
    NoBoundaryAppend(lead, text);
    LineShape(body, nl);
    IndentedText(lead, prefix, u);
    AssignmentReads(prefix, u);
  }

  /** A rewritten line is one line that reads back as the update; it is
      terminated exactly when the original was, by the test in use, and it
      still reads back once `\n` is added to an unterminated one. */
  lemma RewrittenLineReads(line: string, u: Update, test: EndTest)
    requires IsLine(line) && Assigns(LStrip(line), u.key) && PlainUpdate(u)
    ensures var r := RewriteLine(line, u, test);
            IsLine(r) && ReadEntry(r) == Some(u) && !EndsWithCr(r) && !StartsWithLf(r)
            && (LineEndingLength(r) > 0 <==> Terminated(line, test))
            && (Terminated(r, test) <==> Terminated(line, test))
    ensures !Terminated(line, test) ==> ReadEntry(RewriteLine(line, u, test) + "\n") == Some(u)
  {
    var stripped := LStrip(line);
    var p := |line| - |stripped|;
    var lead := line[..p];
    assert stripped[0] == line[p];
    LeadIsPlain(line, p);
    var prefix := if StartsWith(stripped, ExportPrefix) then ExportPrefix else "";
    var nl := if Terminated(line, test) then "\n" else "";
    var w := lead + prefix + Assignment(u);
    var r := RewriteLine(line, u, test);
    assert r == w + nl;
    WrittenLineReads(r, lead, prefix, u, nl);
    if !Terminated(line, test) {
      assert r == w;
      WrittenLineReads(r + "\n", lead, prefix, u, "\n");
    }
  }

  /** An appended line is one terminated line that reads back as its update. */
  lemma EntryLineReads(u: Update)
    requires PlainUpdate(u)
    ensures IsLine(EntryLine(u)) && ReadEntry(EntryLine(u)) == Some(u)
    ensures LineEndingLength(EntryLine(u)) > 0 && !EndsWithCr(EntryLine(u)) && !StartsWithLf(EntryLine(u))
  {
    WrittenLineReads(EntryLine(u), "", "", u, "\n");
  }

  /*** What the rewrite promises ***/

  /** Some line reads back as `u`. */
  predicate WrittenIn(lines: seq<string>, u: Update) {
    exists l :: l in lines && ReadEntry(l) == Some(u)
  }

  /** Every update ends up in a line of the output that reads back as it:
      the line that assigned its key, rewritten, or a line appended at the
      end. This holds line by line under either test. */
  lemma UpdatesAreWritten(original: string, updates: seq<Update>, test: EndTest)
    requires forall j :: 0 <= j < |updates| ==> PlainUpdate(updates[j])
    ensures forall j :: 0 <= j < |updates| ==>
              WrittenIn(UpdatedLines(original, updates, test), updates[j])
  {
    forall j | 0 <= j < |updates|
      ensures WrittenIn(UpdatedLines(original, updates, test), updates[j])
    {
      UpdateWritten(original, updates, test, j);
    }
  }

  lemma UpdateWritten(original: string, updates: seq<Update>, test: EndTest, j: nat)
    requires j < |updates| && PlainUpdate(updates[j])
    ensures WrittenIn(UpdatedLines(original, updates, test), updates[j])
  {
    if Found(SplitLinesKeepEnds(original), updates, j) {
      FoundUpdateWritten(original, updates, test, j);
    } else {
      MissingUpdateWritten(original, updates, test, j);
    }
  }

  /** An update whose key some line assigned is written into that line. */
  lemma FoundUpdateWritten(original: string, updates: seq<Update>, test: EndTest, j: nat)
    requires j < |updates| && PlainUpdate(updates[j])
    requires Found(SplitLinesKeepEnds(original), updates, j)
    ensures WrittenIn(UpdatedLines(original, updates, test), updates[j])
  {
    var lines := SplitLinesKeepEnds(original);
    SplitLinesAreSeparate(original);
    var i :| 0 <= i < |lines| && FirstMatch(LStrip(lines[i]), updates) == Some(j);
    var terminated := TerminateLast(RewriteLines(lines, updates, test), test);
    RewrittenAt(lines, updates, test, i, j);
    var out := UpdatedLines(original, updates, test);
    assert out == terminated + Missing(lines, updates, 0);
    assert out[i] == terminated[i];
  }

  /** The `i`-th line, which assigned the key of update `j`, reads back as
      that update once rewritten and, if last, terminated. */
  lemma RewrittenAt(lines: seq<string>, updates: seq<Update>, test: EndTest, i: nat, j: nat)
    requires i < |lines| && IsLine(lines[i])
    requires j < |updates| && PlainUpdate(updates[j])
    requires FirstMatch(LStrip(lines[i]), updates) == Some(j)
    ensures ReadEntry(TerminateLast(RewriteLines(lines, updates, test), test)[i]) == Some(updates[j])
  {
    var rewritten := RewriteLines(lines, updates, test);
    assert rewritten[i] == RewriteLine(lines[i], updates[j], test);
    RewriteReadsEitherWay(lines[i], updates[j], test);
    TerminateLastAt(rewritten, test, i);
  }

  /** A rewritten line reads back as its update, and so does it with a `\n`
      added when it is unterminated. */
  lemma RewriteReadsEitherWay(line: string, u: Update, test: EndTest)
    requires IsLine(line) && Assigns(LStrip(line), u.key) && PlainUpdate(u)
    ensures var w := RewriteLine(line, u, test);
            ReadEntry(w) == Some(u) && (!Terminated(w, test) ==> ReadEntry(w + "\n") == Some(u))
  {
    RewrittenLineReads(line, u, test);
  }

  /** Each line after `TerminateLast` is the line, or an unterminated line
      with `\n` added. */
  lemma TerminateLastAt(lines: seq<string>, test: EndTest, i: nat)
    requires i < |lines|
    ensures TerminateLast(lines, test)[i] == lines[i]
            || (!Terminated(lines[i], test) && TerminateLast(lines, test)[i] == lines[i] + "\n")
  {
  }

  /** An update whose key no line assigned is written into an appended line. */
  lemma MissingUpdateWritten(original: string, updates: seq<Update>, test: EndTest, j: nat)
    requires j < |updates| && PlainUpdate(updates[j])
    requires !Found(SplitLinesKeepEnds(original), updates, j)
    ensures WrittenIn(UpdatedLines(original, updates, test), updates[j])
  {
    var lines := SplitLinesKeepEnds(original);
    var missing := Missing(lines, updates, 0);
    var out := UpdatedLines(original, updates, test);
    assert out == TerminateLast(RewriteLines(lines, updates, test), test) + missing;
    EntryLineReads(updates[j]);
    assert EntryLine(updates[j]) in missing;
    assert EntryLine(updates[j]) in out;
  }

  /** Lines that assign none of the keys are copied unchanged, except that
      the last one may gain a `\n`. */
  lemma OtherLinesKept(original: string, updates: seq<Update>, test: EndTest, i: nat)
    requires i < |SplitLinesKeepEnds(original)|
    requires FirstMatch(LStrip(SplitLinesKeepEnds(original)[i]), updates).None?
    ensures var line := SplitLinesKeepEnds(original)[i];
            var out := UpdatedLines(original, updates, test);
            out[i] == line || (i == |SplitLinesKeepEnds(original)| - 1 && out[i] == line + "\n")
  {
    var lines := SplitLinesKeepEnds(original);
    var rewritten := RewriteLines(lines, updates, test);
    assert rewritten[i] == lines[i];
    assert UpdatedLines(original, updates, test)[i] == TerminateLast(rewritten, test)[i];
  }

  /** Rewriting lines that are separate keeps them separate: a rewritten
      line keeps its terminator and neither ends in `\r` nor starts with
      `\n`. */
  lemma RewrittenSeparate(lines: seq<string>, updates: seq<Update>)
    requires SeparateLines(lines)
    requires forall j :: 0 <= j < |updates| ==> PlainUpdate(updates[j])
    ensures SeparateLines(RewriteLines(lines, updates, Intended))
  {
    var rewritten := RewriteLines(lines, updates, Intended);
    forall i | 0 <= i < |lines|
      ensures IsLine(rewritten[i])
      ensures LineEndingLength(rewritten[i]) > 0 <==> LineEndingLength(lines[i]) > 0
      ensures rewritten[i] != lines[i] ==> !EndsWithCr(rewritten[i]) && !StartsWithLf(rewritten[i])
    {
      match FirstMatch(LStrip(lines[i]), updates)
      case None =>
      case Some(j) =>
        RewrittenLineReads(lines[i], updates[j], Intended);
    }
  }

  /** Adding the `\n` to the last line keeps the lines separate. */
  lemma TerminatedSeparate(lines: seq<string>)
    requires SeparateLines(lines)
    ensures SeparateLines(TerminateLast(lines, Intended))
  {
    var terminated := TerminateLast(lines, Intended);
    if terminated != lines {
      var n := |lines|;
      TerminatedLine(lines[n - 1]);
      SeparatePrefix(lines, n - 1);
      assert terminated == lines[..n - 1] + [lines[n - 1] + "\n"];
      SeparateAppend(lines[..n - 1], [lines[n - 1] + "\n"]);
    }
  }

  /** The appended lines are separate lines, none starting with `\n`. */
  lemma MissingSeparate(lines: seq<string>, updates: seq<Update>)
    requires forall j :: 0 <= j < |updates| ==> PlainUpdate(updates[j])
    ensures SeparateLines(Missing(lines, updates, 0))
    ensures |Missing(lines, updates, 0)| > 0 ==> !StartsWithLf(Missing(lines, updates, 0)[0])
  {
    var missing := Missing(lines, updates, 0);
    forall i | 0 <= i < |missing|
      ensures IsLine(missing[i]) && LineEndingLength(missing[i]) > 0
      ensures !EndsWithCr(missing[i]) && !StartsWithLf(missing[i])
    {
      assert missing[i] in missing;
      var j :| 0 <= j < |updates| && !Found(lines, updates, j) && missing[i] == EntryLine(updates[j]);
      EntryLineReads(updates[j]);
    }
  }

  /** With the intended test the output lines stay separate lines: no
      rewritten line runs into the line after it. */
  lemma UpdatedLinesSeparate(original: string, updates: seq<Update>)
    requires forall j :: 0 <= j < |updates| ==> PlainUpdate(updates[j])
    ensures SeparateLines(UpdatedLines(original, updates, Intended))
  {
    var lines := SplitLinesKeepEnds(original);
    SplitLinesAreSeparate(original);
    RewrittenSeparate(lines, updates);
    var terminated := TerminateLast(RewriteLines(lines, updates, Intended), Intended);
    TerminatedSeparate(RewriteLines(lines, updates, Intended));
    MissingSeparate(lines, updates);
    SeparateAppend(terminated, Missing(lines, updates, 0));
  }

  /** The corrected rewrite: reading the new file back with `splitlines`
      gives exactly the lines it was written from, so every update is found
      there, each on a line of its own. */
  lemma UpdatedFileReadsBack(original: string, updates: seq<Update>)
    requires forall j :: 0 <= j < |updates| ==> PlainUpdate(updates[j])
    ensures SplitLinesKeepEnds(UpdateEnvFile(original, updates)) == UpdatedLines(original, updates, Intended)
    ensures forall j :: 0 <= j < |updates| ==>
              exists l :: l in SplitLinesKeepEnds(UpdateEnvFile(original, updates)) && ReadEntry(l) == Some(updates[j])
  {
    UpdatedFileSplits(original, updates);
    UpdatesAreWritten(original, updates, Intended);
  }

  /** The corrected file splits back into the lines it was written from. */
  lemma UpdatedFileSplits(original: string, updates: seq<Update>)
    requires forall j :: 0 <= j < |updates| ==> PlainUpdate(updates[j])
    ensures SplitLinesKeepEnds(UpdateEnvFile(original, updates)) == UpdatedLines(original, updates, Intended)
  {
    UpdatedLinesSeparate(original, updates);
    SplitLinesOfSeparate(UpdatedLines(original, updates, Intended));
  }

  /*** A line boundary other than `\n` ***/

  /* `splitlines` also ends a line at `\v`, `\f`, `\x1c`-`\x1e`, `\x85`,
     `\u2028` and `\u2029`, which `read_text` leaves alone, while the
     rewrite only recognises `\n` and `\r\n`. The lemmas below take a file
     of two lines, `key=stale` ended by such a character `feed` and
     `body\n`, and update `key`. */

  function FeedFile(key: string, stale: string, feed: char, body: string): string {
    key + "=" + stale + [feed] + body + "\n"
  }

  /** A feed that is a line boundary for `splitlines` but none of the
      characters `read_text` turns into `\n`. */
  predicate OtherBoundary(feed: char) {
    IsLineBoundary(feed) && feed != '\n' && feed != '\r'
  }

  /** The first line assigns the key, with no indentation and no `export `. */
  lemma FeedLineAssigns(u: Update, stale: string, feed: char)
    requires PlainUpdate(u)
    ensures var line := Assignment(Update(u.key, stale)) + [feed];
            LStrip(line) == line && !StartsWith(line, ExportPrefix)
            && FirstMatch(LStrip(line), [u]) == Some(0)
  {
    var line := Assignment(Update(u.key, stale)) + [feed];
    assert line == Assignment(Update(u.key, stale + [feed]));
    NotExportPrefixed(Update(u.key, stale + [feed]));
    assert line[0] == u.key[0];
    LStripNonSpace(line);
    assert line[..|u.key| + 1] == u.key + "=";
  }

  /** It is rewritten, and counts as terminated only for the intended test. */
  lemma FeedLineRewritten(u: Update, stale: string, feed: char, test: EndTest)
    requires PlainUpdate(u) && OtherBoundary(feed)
    ensures var line := Assignment(Update(u.key, stale)) + [feed];
            FirstMatch(LStrip(line), [u]) == Some(0)
            && Rewrite(line, [u], test) == Assignment(u) + (if test == Intended then "\n" else "")
  {
    var line := Assignment(Update(u.key, stale)) + [feed];
    FeedLineAssigns(u, stale, feed);
    assert line[..|line| - |LStrip(line)|] == "";
    assert line[|line| - 1] == feed;
    var nl := if test == Intended then "\n" else "";
    assert Terminated(line, test) <==> test == Intended;
    assert RewriteLine(line, u, test) == "" + "" + Assignment(u) + nl;
  }

  /** The second line assigns nothing and is copied; it is terminated. */
  lemma NextLineKept(u: Update, body: string, test: EndTest)
    requires NoLineBoundary(body) && !Assigns(LStrip(body + "\n"), u.key)
    ensures Rewrite(body + "\n", [u], test) == body + "\n" && Terminated(body + "\n", test)
  {
    assert FirstMatch(LStrip(body + "\n"), [u]) == None;
    PlainLine(body);
    assert (body + "\n")[|body|] == '\n';
  }

  lemma FeedFileLines(u: Update, stale: string, feed: char, body: string)
    requires PlainUpdate(u) && NoLineBoundary(stale) && OtherBoundary(feed) && NoLineBoundary(body)
    ensures SplitLinesKeepEnds(FeedFile(u.key, stale, feed, body))
            == [Assignment(Update(u.key, stale)) + [feed], body + "\n"]
  {
    var first := Update(u.key, stale);
    var line := Assignment(first) + [feed];
    assert FeedFile(u.key, stale, feed, body) == line + (body + "\n");
    AssignmentIsPlain(first);
    LineEndedBy(Assignment(first), feed);
    PlainLine(body);
    TwoLines(line, body + "\n");
  }

  /** Both tests rewrite the first line and copy the second; only the
      intended one keeps a terminator on the first. */
  lemma FeedFileUpdated(u: Update, stale: string, feed: char, body: string, test: EndTest)
    requires PlainUpdate(u) && NoLineBoundary(stale) && OtherBoundary(feed)
    requires NoLineBoundary(body) && !Assigns(LStrip(body + "\n"), u.key)
    ensures UpdatedLines(FeedFile(u.key, stale, feed, body), [u], test)
            == [Assignment(u) + (if test == Intended then "\n" else ""), body + "\n"]
  {
    var line := Assignment(Update(u.key, stale)) + [feed];
    var next := body + "\n";
    var rewritten := Assignment(u) + (if test == Intended then "\n" else "");
    FeedFileLines(u, stale, feed, body);
    FeedLineRewritten(u, stale, feed, test);
    NextLineKept(u, body, test);
    RewriteTwo(line, next, [u], test);
    assert TerminateLast([rewritten, next], test) == [rewritten, next];
    assert Found([line, next], [u], 0) by {
      assert FirstMatch(LStrip([line, next][0]), [u]) == Some(0);
    }
    assert Missing([line, next], [u], 0) == [];
  }

  /** A written `key=value\n` is read back by `splitlines` as one line. */
  lemma EntryLineAlone(u: Update)
    requires PlainUpdate(u)
    ensures SplitLinesKeepEnds(EntryLine(u)) == [EntryLine(u)]
  {
    EntryLineReads(u);
    OneLine(EntryLine(u));
  }

  /** As written, the output is the new assignment with the second line's
      text run onto its value. */
  lemma FeedFileAsWritten(u: Update, stale: string, feed: char, body: string)
    requires PlainUpdate(u) && NoLineBoundary(stale) && OtherBoundary(feed)
    requires NoLineBoundary(body) && !Assigns(LStrip(body + "\n"), u.key)
    ensures UpdateEnvFileAsWritten(FeedFile(u.key, stale, feed, body), [u])
            == EntryLine(Update(u.key, u.value + body))
  {
    FeedFileUpdated(u, stale, feed, body, AsWritten);
    FeedAsWrittenJoined(FeedFile(u.key, stale, feed, body), u, body);
  }

  /** Joining the two lines runs the second onto the first's value. */
  lemma FeedAsWrittenJoined(original: string, u: Update, body: string)
    requires UpdatedLines(original, [u], AsWritten) == [Assignment(u) + "", body + "\n"]
    ensures UpdateEnvFileAsWritten(original, [u]) == EntryLine(Update(u.key, u.value + body))
  {
    assert Assignment(u) + "" == Assignment(u);
    AsWrittenOfTwoLines(original, [u], Assignment(u), body + "\n");
    EntryLineOfLongerValue(u, body);
  }

  lemma AsWrittenOfTwoLines(original: string, updates: seq<Update>, a: string, b: string)
    requires UpdatedLines(original, updates, AsWritten) == [a, b]
    ensures UpdateEnvFileAsWritten(original, updates) == a + b
  {
    ConcatTwo(a, b);
  }

  lemma EntryLineOfLongerValue(u: Update, more: string)
    ensures EntryLine(Update(u.key, u.value + more)) == Assignment(u) + (more + "\n")
  {
  }

  /** As written, the rewritten first line loses its terminator and runs
      into the second: the file reads back as a single line that gives the
      key the value followed by the second line's text, and the second line
      is gone. */
  lemma FeedMergesLines(u: Update, stale: string, feed: char, body: string)
    requires PlainUpdate(u) && NoLineBoundary(stale) && OtherBoundary(feed)
    requires NoLineBoundary(body) && |body| > 0 && !Assigns(LStrip(body + "\n"), u.key)
    ensures var written := UpdateEnvFileAsWritten(FeedFile(u.key, stale, feed, body), [u]);
            SplitLinesKeepEnds(written) == [written]
            && ReadEntry(written) == Some(Update(u.key, u.value + body))
            && u.value + body != u.value
  {
    var merged := Update(u.key, u.value + body);
    NoBoundaryAppend(u.value, body);
    FeedFileAsWritten(u, stale, feed, body);
    EntryLineReads(merged);
    EntryLineAlone(merged);
    assert |u.value + body| > |u.value|;
  }

  /** With the intended test the feed is replaced by `\n` and both lines
      survive: the updated first line and the unchanged second. */
  lemma FeedLinesKept(u: Update, stale: string, feed: char, body: string)
    requires PlainUpdate(u) && NoLineBoundary(stale) && OtherBoundary(feed)
    requires NoLineBoundary(body) && !Assigns(LStrip(body + "\n"), u.key)
    ensures var written := UpdateEnvFile(FeedFile(u.key, stale, feed, body), [u]);
            SplitLinesKeepEnds(written) == [EntryLine(u), body + "\n"]
            && ReadEntry(EntryLine(u)) == Some(u)
  {
    FeedIntendedLines(u, stale, feed, body);
    UpdatedFileSplitsAs(FeedFile(u.key, stale, feed, body), [u], [EntryLine(u), body + "\n"]);
    EntryLineReads(u);
  }

  lemma FeedIntendedLines(u: Update, stale: string, feed: char, body: string)
    requires PlainUpdate(u) && NoLineBoundary(stale) && OtherBoundary(feed)
    requires NoLineBoundary(body) && !Assigns(LStrip(body + "\n"), u.key)
    ensures UpdatedLines(FeedFile(u.key, stale, feed, body), [u], Intended) == [EntryLine(u), body + "\n"]
  {
    FeedFileUpdated(u, stale, feed, body, Intended);
    assert Assignment(u) + "\n" == EntryLine(u);
  }

  lemma UpdatedFileSplitsAs(original: string, updates: seq<Update>, lines: seq<string>)
    requires forall j :: 0 <= j < |updates| ==> PlainUpdate(updates[j])
    requires UpdatedLines(original, updates, Intended) == lines
    ensures SplitLinesKeepEnds(UpdateEnvFile(original, updates)) == lines
  {
    UpdatedFileSplits(original, updates);
  }

  lemma RewriteTwo(a: string, b: string, updates: seq<Update>, test: EndTest)
    ensures RewriteLines([a, b], updates, test) == [Rewrite(a, updates, test), Rewrite(b, updates, test)]
  {
  }

  lemma ConcatTwo(a: string, b: string)
    ensures Concat([a, b]) == a + b
  {
    assert [a, b][1..] == [b];
    assert Concat([b]) == b + Concat([]);
  }
}
