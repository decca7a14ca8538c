/** Parameterized response commands: a response template whose `{p}`
    placeholders are filled, by position, with the arguments of the chat
    command that invoked it. */
module ParameterizedResponses {
  import opened Wrappers
  import opened PyStr
  import opened ChatCommands
  import opened BroadcastText

  datatype ParameterizedCommand = ParameterizedCommand(name: string, placeholders: seq<string>, format: string)

  datatype ChatResponse = ChatResponse(text: string, chatMessage: ChatMessage)

  /** A Python dict of replacements, as its (key, value) items in insertion
      order. */
  type Items = seq<(string, string)>

  predicate HasKey(d: Items, k: string) {
    exists i :: 0 <= i < |d| && d[i].0 == k
  }

  /** `d[k] = v`: a present key keeps its position and takes the new value;
      a new key goes to the end. */
  function Put(d: Items, k: string, v: string): (r: Items)
    ensures HasKey(d, k) ==> |r| == |d|
    ensures !HasKey(d, k) ==> r == d + [(k, v)]
    ensures forall i :: 0 <= i < |r| ==> r[i] == (if i < |d| && d[i].0 == k then (k, v) else if i < |d| then d[i] else (k, v))
  {
    if HasKey(d, k) then seq(|d|, i requires 0 <= i < |d| => if d[i].0 == k then (k, v) else d[i])
    else d + [(k, v)]
  }

  /** The replacements dict built from `zip(placeholders, arguments)`. */
  function Replacements(placeholders: seq<string>, args: seq<string>): Items
    requires |args| >= |placeholders|
    decreases |placeholders|
  {
    if |placeholders| == 0 then []
    else
      var n := |placeholders| - 1;
      Put(Replacements(placeholders[..n], args), Braced(placeholders[n]), args[n])
  }

  /** Each replacement in turn, over the whole text. */
  function ApplyAll(text: string, d: Items): string
    decreases |d|
  {
    if |d| == 0 then text else ApplyAll(Replace(text, d[0].0, d[0].1), d[1..])
  }

  /** `_inject_arguments`. */
  function InjectArguments(c: ParameterizedCommand, args: seq<string>): (r: Option<string>)
    ensures r.None? <==> |args| < |c.placeholders|
  {
    if |args| < |c.placeholders| then None
    else Some(ApplyAll(c.format, Replacements(c.placeholders, args)))
  }

  /** `handle_command`: no response when the arguments do not suffice;
      otherwise one response whose text is the injected template after
      `finish` (the message-level placeholder substitution, which reads the
      clock and the locale and is not part of this model). */
  function HandleCommand(c: ParameterizedCommand, cmd: ChatCommand, finish: string -> string): (r: Option<seq<ChatResponse>>)
    ensures r.None? <==> InjectArguments(c, cmd.arguments).None?
    ensures r.Some? ==> r.value == [ChatResponse(finish(InjectArguments(c, cmd.arguments).value), cmd.sourceMessage)]
  {
    match InjectArguments(c, cmd.arguments)
    case None => None
    case Some(text) => Some([ChatResponse(finish(text), cmd.sourceMessage)])
  }

  /** Only as many arguments as there are placeholders are used. */
  lemma {:induction false} ReplacementsUsePrefix(placeholders: seq<string>, args: seq<string>)
    requires |args| >= |placeholders|
    ensures Replacements(placeholders, args) == Replacements(placeholders, args[..|placeholders|])
    decreases |placeholders|
  {
    if |placeholders| > 0 {
      var n := |placeholders| - 1;
      ReplacementsUsePrefix(placeholders[..n], args);
      ReplacementsUsePrefix(placeholders[..n], args[..|placeholders|]);
      assert args[..|placeholders|][..n] == args[..n];
    }
  }

  lemma ExtraArgumentsIgnored(c: ParameterizedCommand, args: seq<string>)
    requires |args| >= |c.placeholders|
    ensures InjectArguments(c, args) == InjectArguments(c, args[..|c.placeholders|])
  {
    ReplacementsUsePrefix(c.placeholders, args);
  }

  /** The zip of placeholders and arguments as replacement pairs. */
  function Pairs(placeholders: seq<string>, args: seq<string>): (r: Items)
    requires |args| >= |placeholders|
    ensures |r| == |placeholders|
    decreases |placeholders|
  {
    if |placeholders| == 0 then []
    else
      var n := |placeholders| - 1;
      Pairs(placeholders[..n], args) + [(Braced(placeholders[n]), args[n])]
  }

  lemma PairsKeys(placeholders: seq<string>, args: seq<string>)
    requires |args| >= |placeholders|
    ensures forall i :: 0 <= i < |placeholders| ==> Pairs(placeholders, args)[i] == (Braced(placeholders[i]), args[i])
    decreases |placeholders|
  {
    if |placeholders| > 0 {
      var n := |placeholders| - 1;
      PairsKeys(placeholders[..n], args);
    }
  }

  /** With distinct placeholders the dict holds one entry per placeholder,
      in order, with its positional argument. */
  lemma {:induction false} DistinctReplacements(placeholders: seq<string>, args: seq<string>)
    requires |args| >= |placeholders|
    requires forall i, j :: 0 <= i < j < |placeholders| ==> placeholders[i] != placeholders[j]
    ensures Replacements(placeholders, args) == Pairs(placeholders, args)
    decreases |placeholders|
  {
    if |placeholders| > 0 {
      var n := |placeholders| - 1;
      var front := placeholders[..n];
      DistinctReplacements(front, args);
      PairsKeys(front, args);
      if HasKey(Pairs(front, args), Braced(placeholders[n])) {
        var i :| 0 <= i < n && Pairs(front, args)[i].0 == Braced(placeholders[n]);
        BracedInjective(front[i], placeholders[n]);
        assert false;
      }
    }
  }

  /** A placeholder named twice takes the later of its arguments: a dict
      keeps one entry per key, at the key's first position. */
  lemma RepeatedPlaceholderTakesLastArgument(p: string, first: string, second: string)
    ensures Replacements([p, p], [first, second]) == [(Braced(p), second)]
  {
    var ph := [p, p];
    assert ph[..1] == [p];
    assert [p][..0] == [];
    assert Replacements([p][..0], [first, second]) == [];
    assert !HasKey([], Braced(p));
    var one := Replacements([p], [first, second]);
    assert one == [(Braced(p), first)];
    assert one[0].0 == Braced(p);
    assert HasKey(one, Braced(p));
  }

  /** Substituting each placeholder by itself gives the template back. */
  lemma {:induction false} ApplyAllIdentity(text: string, d: Items)
    requires forall i :: 0 <= i < |d| ==> d[i].0 == d[i].1 && |d[i].0| > 0
    ensures ApplyAll(text, d) == text
    decreases |d|
  {
    if |d| > 0 {
      ReplaceBySelf(text, d[0].0);
      assert forall i :: 0 <= i < |d| - 1 ==> d[1..][i] == d[i + 1];
      ApplyAllIdentity(text, d[1..]);
    }
  }

  function BracedAll(placeholders: seq<string>): (r: seq<string>)
    ensures |r| == |placeholders|
    ensures forall i :: 0 <= i < |r| ==> r[i] == Braced(placeholders[i])
  {
    seq(|placeholders|, i requires 0 <= i < |placeholders| => Braced(placeholders[i]))
  }

  lemma {:induction false} SelfReplacements(placeholders: seq<string>, args: seq<string>)
    requires |args| >= |placeholders|
    requires forall i :: 0 <= i < |placeholders| ==> args[i] == Braced(placeholders[i])
    ensures forall i :: 0 <= i < |Replacements(placeholders, args)| ==>
              Replacements(placeholders, args)[i].0 == Replacements(placeholders, args)[i].1 && |Replacements(placeholders, args)[i].0| > 0
    decreases |placeholders|
  {
    if |placeholders| > 0 {
      var n := |placeholders| - 1;
      var d := Replacements(placeholders[..n], args);
      SelfReplacements(placeholders[..n], args);
      var k := Braced(placeholders[n]);
      assert args[n] == k;
      var r := Put(d, k, args[n]);
      assert r == Replacements(placeholders, args);
      forall i | 0 <= i < |r| ensures r[i].0 == r[i].1 && |r[i].0| > 0 {
        if i < |d| && d[i].0 != k {
          assert r[i] == d[i];
        } else {
          assert r[i] == (k, k);
        }
      }
    }
  }

  /** Invoking a command with its own placeholders as the arguments echoes
      the template. */
  lemma InjectPlaceholdersEchoes(c: ParameterizedCommand)
    ensures InjectArguments(c, BracedAll(c.placeholders)) == Some(c.format)
  {
    SelfReplacements(c.placeholders, BracedAll(c.placeholders));
    ApplyAllIdentity(c.format, Replacements(c.placeholders, BracedAll(c.placeholders)));
  }

  /** With one placeholder every occurrence of it becomes the first argument
      and the rest of the template is kept. */
  lemma InjectOne(name: string, p: string, format: string, args: seq<string>)
    requires |args| >= 1
    ensures InjectArguments(ParameterizedCommand(name, [p], format), args)
            == Some(Join(SplitOn(format, Braced(p)), args[0]))
  {
    var d := Replacements([p], args);
    assert [p][..0] == [];
    assert Replacements([p][..0], args) == [];
    assert !HasKey([], Braced(p));
    assert d == [(Braced(p), args[0])];
    assert d[1..] == [];
    assert ApplyAll(format, d) == Replace(format, Braced(p), args[0]);
    ReplaceIsJoinOfSplit(format, Braced(p), args[0]);
  }

  /*** Usage ***/

  /** `usage`: `!name {p1} {p2} ...` (with a space after the name even when
      there are no placeholders). */
  function Usage(c: ParameterizedCommand): string {
    "!" + c.name + " " + Join(BracedAll(c.placeholders), " ")
  }

  lemma JoinPrepend(w: string, ws: seq<string>)
    ensures Join([w] + ws, " ") == w + (if |ws| == 0 then "" else " " + Join(ws, " "))
  {
    if |ws| > 0 {
      JoinCons(w, ws, " ");
    }
  }

  /** The first and last characters of words joined by spaces are the outer
      words' own. */
  lemma JoinEnds(words: seq<string>)
    requires |words| > 0 && Words(words)
    ensures var j := Join(words, " "); |j| > 0 && !IsSpace(j[0]) && !IsSpace(j[|j| - 1])
    decreases |words|
  {
    if |words| > 1 {
      JoinEnds(words[1..]);
      JoinCons(words[0], words[1..], " ");
      assert words == [words[0]] + words[1..];
    }
  }

  lemma BangWord(name: string)
    requires |name| > 0 && NoSpace(name)
    ensures |"!" + name| > 0 && NoSpace("!" + name)
  {
    var head := "!" + name;
    forall i | 0 <= i < |head| ensures !IsSpace(head[i]) {
      if i > 0 { assert head[i] == name[i - 1]; }
    }
  }

  lemma BracedWords(placeholders: seq<string>)
    requires forall i :: 0 <= i < |placeholders| ==> NoSpace(placeholders[i])
    ensures Words(BracedAll(placeholders))
  {
    var args := BracedAll(placeholders);
    forall i | 0 <= i < |args| ensures |args[i]| > 0 && NoSpace(args[i]) {
      var b := args[i];
      assert b == "{" + placeholders[i] + "}";
      forall j | 0 <= j < |b| ensures !IsSpace(b[j]) {
        if 0 < j < |b| - 1 { assert b[j] == placeholders[i][j - 1]; }
      }
    }
  }

  lemma WordsCons(w: string, ws: seq<string>)
    requires |w| > 0 && NoSpace(w) && Words(ws)
    ensures Words([w] + ws)
  {
    var words := [w] + ws;
    forall i | 0 <= i < |words| ensures |words[i]| > 0 && NoSpace(words[i]) {
      if i > 0 { assert words[i] == ws[i - 1]; }
    }
  }

  /** A trailing space is all that separates the usage line from its words
      joined by spaces. */
  lemma StripUsage(c: ParameterizedCommand)
    requires |c.name| > 0 && NoSpace(c.name)
    requires forall i :: 0 <= i < |c.placeholders| ==> NoSpace(c.placeholders[i])
    ensures Words(["!" + c.name] + BracedAll(c.placeholders))
    ensures Strip(Usage(c)) == Join(["!" + c.name] + BracedAll(c.placeholders), " ")
  {
    var args := BracedAll(c.placeholders);
    var head := "!" + c.name;
    BangWord(c.name);
    BracedWords(c.placeholders);
    WordsCons(head, args);
    var words := [head] + args;
    JoinPrepend(head, args);
    JoinEnds(words);
    var joined := Join(words, " ");
    StripNoOp(joined);
    if |args| == 0 {
      assert Usage(c) == joined + " ";
      TrailingSpaceStrips(joined);
    } else {
      assert Usage(c) == joined;
    }
  }

  lemma TrailingSpaceStrips(s: string)
    requires |s| > 0 && !IsSpace(s[0]) && !IsSpace(s[|s| - 1])
    ensures Strip(s + " ") == s
  {
    StripNoOp(s);
    assert (s + " ")[..|s|] == s;
  }

  /** The usage line, typed into a chat, is recognised as this command with
      the braced placeholders as its arguments. */
  lemma UsageParses(c: ParameterizedCommand, sender: string)
    requires |c.name| > 0 && NoSpace(c.name)
    requires forall i :: 0 <= i < |c.placeholders| ==> NoSpace(c.placeholders[i])
    ensures var m := ChatMessage(Usage(c), sender);
            FromChatMessage(m) == Some(ChatCommand(c.name, BracedAll(c.placeholders), m))
  {
    var m := ChatMessage(Usage(c), sender);
    var words := ["!" + c.name] + BracedAll(c.placeholders);
    StripUsage(c);
    BangWord(c.name);
    SplitWhitespaceOfJoin(words);
    FromChatMessageWords(m);
    assert words[1..] == BracedAll(c.placeholders);
    assert "!" + FromChatMessage(m).value.name == "!" + c.name;
    assert FromChatMessage(m).value.name == ("!" + c.name)[1..];
  }
}
