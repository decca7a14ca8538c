/** String literals of the scripting language: the escape table shared by
    the lexer and the parser, the decoding of a quoted lexeme into its value,
    and the quoting that inverts it. */
module StringLiterals {
  import opened Wrappers

  /** The escape table: the character after a backslash and what it stands for. */
  function EscapeOf(c: char): (r: Option<char>)
    ensures r.Some? <==> c in {'n', '\'', '\\'}
  {
    if c == 'n' then Some('\n')
    else if c == '\'' then Some('\'')
    else if c == '\\' then Some('\\')
    else None
  }

  /** The body of a quoted literal the lexer accepts: no bare quote, and
      every backslash followed by a character of the escape table. */
  predicate ValidBody(b: string) {
    if |b| == 0 then true
    else if b[0] == '\\' then |b| >= 2 && EscapeOf(b[1]).Some? && ValidBody(b[2..])
    else b[0] != '\'' && ValidBody(b[1..])
  }

  /** Decodes the characters between the quotes. A backslash that is the last
      character of the body is copied as it is; a backslash followed by a
      character outside the table is an internal error (`None`). */
  function DecodeBody(b: string): (r: Option<string>)
    ensures ValidBody(b) ==> r.Some?
    ensures r.Some? ==> |r.value| <= |b|
  {
    if |b| == 0 then Some("")
    else if b[0] == '\\' && 1 < |b| then
      var c :- EscapeOf(b[1]);
      var rest :- DecodeBody(b[2..]);
      Some([c] + rest)
    else
      var rest :- DecodeBody(b[1..]);
      Some([b[0]] + rest)
  }

  /** A literal lexeme to its value: the lexeme must start and end with a
      quote (a lone quote decodes to the empty string). */
  function FromLexeme(lexeme: string): (r: Option<string>)
    ensures r.Some? ==> |lexeme| >= 1 && lexeme[0] == '\'' && lexeme[|lexeme| - 1] == '\''
    ensures (|lexeme| >= 2 && lexeme[0] == '\'' && lexeme[|lexeme| - 1] == '\''
             && ValidBody(lexeme[1..|lexeme| - 1])) ==> r.Some?
  {
    if |lexeme| == 0 || lexeme[0] != '\'' || lexeme[|lexeme| - 1] != '\'' then None
    else if |lexeme| == 1 then Some("")
    else DecodeBody(lexeme[1..|lexeme| - 1])
  }

  /** The escaped spelling of one character. */
  function EscapeChar(c: char): (r: string)
    ensures |r| >= 1
  {
    if c == '\n' then "\\n"
    else if c == '\'' then "\\'"
    else if c == '\\' then "\\\\"
    else [c]
  }

  function EscapeString(s: string): (r: string)
    ensures |r| >= |s|
  {
    if |s| == 0 then "" else EscapeChar(s[0]) + EscapeString(s[1..])
  }

  /** A literal whose value is `s`. */
  function Quote(s: string): (r: string)
    ensures |r| >= 2 && r[0] == '\'' && r[|r| - 1] == '\''
  {
    "'" + EscapeString(s) + "'"
  }

  /** Escaping only produces bodies the lexer accepts. */
  lemma {:induction false} EscapeStringValid(s: string)
    ensures ValidBody(EscapeString(s))
  {
    if |s| > 0 {
      EscapeStringValid(s[1..]);
      var e := EscapeChar(s[0]);
      var r := EscapeString(s[1..]);
      assert EscapeString(s) == e + r;
      if |e| == 2 {
        assert (e + r)[2..] == r;
      } else {
        assert (e + r)[1..] == r;
      }
    }
  }

  /** Decoding undoes escaping. */
  lemma {:induction false} DecodeEscape(s: string)
    ensures DecodeBody(EscapeString(s)) == Some(s)
  {
    if |s| > 0 {
      DecodeEscape(s[1..]);
      var e := EscapeChar(s[0]);
      var r := EscapeString(s[1..]);
      assert EscapeString(s) == e + r;
      if |e| == 2 {
        assert (e + r)[2..] == r;
      } else {
        assert (e + r)[1..] == r;
      }
      assert s == [s[0]] + s[1..];
    }
  }

  /** The quoting round trip: the value of `Quote(s)` is `s`. */
  lemma QuoteRoundTrip(s: string)
    ensures FromLexeme(Quote(s)) == Some(s)
  {
    var q := Quote(s);
    assert q[1..|q| - 1] == EscapeString(s);
    DecodeEscape(s);
  }
}
