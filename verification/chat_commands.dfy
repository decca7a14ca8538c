/** Chat commands: a chat message that starts with `!` is split into a
    command name and its whitespace-separated arguments. */
module ChatCommands {
  import opened Wrappers
  import opened PyStr

  /** A message as a chat delivers it; the platform metadata is not part of
      this model. */
  datatype ChatMessage = ChatMessage(text: string, senderName: string)

  datatype ChatCommand = ChatCommand(name: string, arguments: seq<string>, sourceMessage: ChatMessage)

  predicate Words(ws: seq<string>) {
    forall i :: 0 <= i < |ws| ==> |ws[i]| > 0 && NoSpace(ws[i])
  }

  /** The arguments kept from the words after the name: each is stripped,
      and empty ones are dropped. */
  function Arguments(parts: seq<string>): (r: seq<string>)
    ensures |r| <= |parts|
    ensures forall i :: 0 <= i < |r| ==> |r[i]| > 0
  {
    if |parts| == 0 then []
    else
      var p := Strip(parts[0]);
      (if p == "" then [] else [p]) + Arguments(parts[1..])
  }

  /** Words that are already non-empty and free of whitespace are kept as
      they are. */
  lemma ArgumentsOfWords(parts: seq<string>)
    requires Words(parts)
    ensures Arguments(parts) == parts
  {
    if |parts| > 0 {
      StripNoOp(parts[0]);
      ArgumentsOfWords(parts[1..]);
      assert parts == [parts[0]] + parts[1..];
    }
  }

  /** A string that starts with a non-space character splits into at least
      one word, the first of which is its leading run. */
  lemma FirstWord(text: string)
    requires |text| > 0 && !IsSpace(text[0])
    ensures var parts := SplitWhitespace(text);
            |parts| > 0 && parts[0] == text[..WordLength(text)] && WordLength(text) > 0
  {
  }

  /** `ChatCommand.from_chat_message`. */
  function FromChatMessage(m: ChatMessage): (r: Option<ChatCommand>)
    ensures r.Some? ==> StartsWith(Strip(m.text), "!") && r.value.sourceMessage == m
    ensures r.Some? ==> |r.value.name| > 0
  {
    var text := Strip(m.text);
    if !StartsWith(text, "!") then None
    else
      FirstWord(text);
      var parts := SplitWhitespace(text);
      var name := Strip(RemovePrefix(parts[0], "!"));
      if name == "" then None
      else Some(ChatCommand(name, Arguments(parts[1..]), m))
  }

  /** The name read from a first word `!name`. */
  lemma NameOfWord(w: string)
    requires |w| > 0 && w[0] == '!' && NoSpace(w)
    ensures Strip(RemovePrefix(w, "!")) == w[1..] && w == "!" + w[1..]
  {
    assert StartsWith(w, "!");
    NoSpaceSlice(w, 1, |w|);
    StripNoOp(w[1..]);
  }

  /** The command read from the words of a text that starts with `!`: the
      name is the first word without its `!`, empty exactly for a bare `!`,
      and the other words are the arguments as they are. */
  lemma CommandOfWords(parts: seq<string>)
    requires |parts| > 0 && Words(parts) && parts[0][0] == '!'
    ensures var name := Strip(RemovePrefix(parts[0], "!"));
            "!" + name == parts[0] && NoSpace(name)
            && (name == "" <==> parts[0] == "!")
            && Arguments(parts[1..]) == parts[1..] && Words(parts[1..])
  {
    NameOfWord(parts[0]);
    NoSpaceSlice(parts[0], 1, |parts[0]|);
    assert Words(parts[1..]) by {
      forall i | 0 <= i < |parts| - 1 ensures |parts[1..][i]| > 0 && NoSpace(parts[1..][i]) {
        assert parts[1..][i] == parts[i + 1];
      }
    }
    ArgumentsOfWords(parts[1..]);
  }

  /** A command is recognised exactly when the trimmed text starts with `!`
      and its first word is more than the bare `!`; the name is that word
      without the `!`, and the arguments are the remaining words. */
  lemma FromChatMessageWords(m: ChatMessage)
    ensures var text := Strip(m.text);
            var r := FromChatMessage(m);
            (r.Some? <==> StartsWith(text, "!") && SplitWhitespace(text)[0] != "!")
            && (r.Some? ==> "!" + r.value.name == SplitWhitespace(text)[0]
                            && r.value.arguments == SplitWhitespace(text)[1..]
                            && NoSpace(r.value.name) && Words(r.value.arguments))
  {
    var text := Strip(m.text);
    if StartsWith(text, "!") {
      FirstWord(text);
      var parts := SplitWhitespace(text);
      assert parts[0][0] == text[0] == '!';
      assert Words(parts);
      CommandOfWords(parts);
    }
  }

  /** Nothing but whitespace is lost: the message text without its
      whitespace is `!`, the name and the arguments run together. */
  lemma CommandKeepsText(m: ChatMessage)
    requires FromChatMessage(m).Some?
    ensures var c := FromChatMessage(m).value;
            RemoveSpaces(m.text) == "!" + c.name + Concat(c.arguments)
  {
    var text := Strip(m.text);
    var c := FromChatMessage(m).value;
    FromChatMessageWords(m);
    var parts := SplitWhitespace(text);
    RemoveSpacesOfStrip(m.text);
    SplitWhitespaceKeepsText(text);
    assert parts == [parts[0]] + parts[1..];
    ConcatCons(parts[0], parts[1..]);
  }

  /** A bare `!` is not a command. */
  lemma BareBangIsNoCommand(sender: string)
    ensures FromChatMessage(ChatMessage("!", sender)).None?
  {
    var m := ChatMessage("!", sender);
    StripNoOp("!");
    FirstWord("!");
    assert WordLength("!") == 1;
    FromChatMessageWords(m);
  }
}
