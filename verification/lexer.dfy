/** The lexer: source text to tokens. Whitespace between tokens is skipped,
    numbers carry no sign, string literals are single-quoted with the escapes
    of `StringLiterals.EscapeOf`, letters start identifiers, and exactly
    `STORE`, `PARAMS`, `PRINT` and `LET` are keywords. The token list ends
    with one end-of-input token placed at the end of the source. */
module Lexer {
  import opened Wrappers
  import opened PyStr
  import opened Locations
  import opened Tokens
  import opened StringLiterals

  datatype LexErrorReason =
    | InvalidNumberFormat
    | InvalidEscapeSequence(escaped: char)
    | UnterminatedStringLiteral
    | InvalidCharacter(character: char)
    | UnexpectedCharacter(character: char)

  /** A lexer error points at the one character where lexing stopped. */
  datatype LexError = LexError(reason: LexErrorReason, location: SourceLocation)

  /** The tokens spelled by one character. */
  function SingleCharKind(c: char): (r: Option<TokenType>)
    ensures r.Some? ==> !IsWordOrLiteral(r.value) && r.value != EndOfInput
  {
    match c
    case ',' => Some(Comma)
    case '!' => Some(ExclamationMark)
    case '$' => Some(Dollar)
    case ';' => Some(Semicolon)
    case '=' => Some(Equals)
    case '+' => Some(Plus)
    case '-' => Some(Minus)
    case '*' => Some(Asterisk)
    case '/' => Some(Slash)
    case '(' => Some(LeftParenthesis)
    case ')' => Some(RightParenthesis)
    case _ => None
  }

  /** The keywords, matched case-sensitively against a whole identifier. */
  function KeywordKind(lexeme: string): (r: Option<TokenType>)
    ensures r.Some? ==> IsKeyword(r.value)
  {
    if lexeme == "STORE" then Some(Store)
    else if lexeme == "PARAMS" then Some(Params)
    else if lexeme == "PRINT" then Some(Print)
    else if lexeme == "LET" then Some(Let)
    else None
  }

  predicate IsKeyword(k: TokenType) { k.Store? || k.Params? || k.Print? || k.Let? }

  /** The kinds whose lexeme is longer than one fixed character. */
  predicate IsWordOrLiteral(k: TokenType) {
    IsKeyword(k) || k.Identifier? || k.NumberLiteral? || k.StringLiteral?
  }

  predicate IsDigit(c: char) { IsAsciiDigit(c) }
  predicate IsIdentifierStart(c: char) { IsAscii(c) && IsAsciiAlpha(c) }
  predicate IsIdentifierContinuation(c: char) { IsIdentifierStart(c) || IsDigit(c) || c == '_' }

  /** The character under the cursor; NUL once the cursor is past the end. */
  function Current(src: string, p: nat): char {
    if p >= |src| then '\0' else src[p]
  }

  /** Advances the cursor while `f` holds of the character under it. */
  function SkipWhile(src: string, p: nat, f: char -> bool): (q: nat)
    requires p <= |src|
    ensures p <= q <= |src|
    ensures forall i :: p <= i < q ==> f(src[i])
    ensures q < |src| ==> !f(src[q])
    decreases |src| - p
  {
    if p < |src| && f(src[p]) then SkipWhile(src, p + 1, f) else p
  }

  function ErrorAt(src: string, p: nat, reason: LexErrorReason): LexError {
    LexError(reason, SourceLocation(src, p, 1))
  }

  /*** Lexeme shapes ***/

  predicate AllDigits(s: string) {
    forall i :: 0 <= i < |s| ==> IsDigit(s[i])
  }

  /** Digits, optionally followed by a point and at least one more digit. */
  ghost predicate IsNumberLexeme(lx: string) {
    (|lx| >= 1 && AllDigits(lx))
    || exists d :: 1 <= d && d + 1 < |lx| && lx[d] == '.' && AllDigits(lx[..d]) && AllDigits(lx[d + 1..])
  }

  predicate IsIdentifierLexeme(lx: string) {
    |lx| >= 1 && IsIdentifierStart(lx[0])
    && forall i :: 1 <= i < |lx| ==> IsIdentifierContinuation(lx[i])
  }

  predicate IsStringLexeme(lx: string) {
    |lx| >= 2 && lx[0] == '\'' && lx[|lx| - 1] == '\'' && ValidBody(lx[1..|lx| - 1])
  }

  /** What the lexeme of a token of each kind looks like. */
  ghost predicate LexemeFits(kind: TokenType, lx: string) {
    if kind.Identifier? then IsIdentifierLexeme(lx) && KeywordKind(lx).None?
    else if IsKeyword(kind) then KeywordKind(lx) == Some(kind)
    else if kind.NumberLiteral? then IsNumberLexeme(lx)
    else if kind.StringLiteral? then IsStringLexeme(lx)
    else |lx| == 1 && SingleCharKind(lx[0]) == Some(kind)
  }

  /*** Scanning ***/

  /** Scans the body of a string literal starting at `p` (just after the
      opening quote) and returns the position of the closing quote. */
  function ScanString(src: string, p: nat): (r: Result<nat, LexError>)
    requires p <= |src|
    ensures r.Success? ==> p <= r.value < |src| && src[r.value] == '\'' && ValidBody(src[p..r.value])
    ensures r.Failure? ==> r.error.reason.InvalidEscapeSequence? || r.error.reason.UnterminatedStringLiteral?
    decreases |src| - p
  {
    if Current(src, p) == '\\' then
      var escaped := Current(src, p + 1);
      if EscapeOf(escaped).None? then Failure(ErrorAt(src, p + 1, InvalidEscapeSequence(escaped)))
      else
        var r := ScanString(src, p + 2);
        if r.Success? then
          assert src[p..r.value] == ['\\', escaped] + src[p + 2..r.value];
          r
        else r
    else if Current(src, p) == '\'' then Success(p)
    else if p >= |src| then Failure(ErrorAt(src, p, UnterminatedStringLiteral))
    else
      var r := ScanString(src, p + 1);
      if r.Success? then
        assert src[p..r.value] == [src[p]] + src[p + 1..r.value];
        r
      else r
  }

  /** Scans a number literal whose first digit is at `p`; returns the
      position after it. A point must be followed by a digit. */
  function ScanNumber(src: string, p: nat): (r: Result<nat, LexError>)
    requires p < |src| && IsDigit(src[p])
    ensures r.Success? ==> p < r.value <= |src| && IsDigit(src[r.value - 1])
    ensures r.Failure? ==> r.error.reason == InvalidNumberFormat
  {
    var q := SkipWhile(src, p + 1, IsDigit);
    if Current(src, q) == '.' then
      if !IsDigit(Current(src, q + 1)) then Failure(ErrorAt(src, q + 1, InvalidNumberFormat))
      else Success(SkipWhile(src, q + 2, IsDigit))
    else Success(q)
  }

  /** Reads the one token that starts at `p`, where the whitespace before it
      has been skipped; returns the token and the position after it. */
  function NextToken(src: string, p: nat): (r: Result<(Token, nat), LexError>)
    requires p <= |src|
    ensures r.Success? ==> p < r.value.1 <= |src|
  {
    var c := Current(src, p);
    if SingleCharKind(c).Some? then
      Success((Token(SingleCharKind(c).value, SourceLocation(src, p, 1)), p + 1))
    else if IsDigit(c) then
      var e :- ScanNumber(src, p);
      Success((Token(NumberLiteral, SourceLocation(src, p, e - p)), e))
    else if c == '\'' then
      var close :- ScanString(src, p + 1);
      Success((Token(StringLiteral, SourceLocation(src, p, close + 1 - p)), close + 1))
    else if IsIdentifierStart(c) then
      var q := SkipWhile(src, p + 1, IsIdentifierContinuation);
      var kind := KeywordKind(src[p..q]).GetOr(Identifier);
      Success((Token(kind, SourceLocation(src, p, q - p)), q))
    else if !IsAscii(c) then Failure(ErrorAt(src, p, InvalidCharacter(c)))
    else Failure(ErrorAt(src, p, UnexpectedCharacter(c)))
  }

  function EndToken(src: string, p: nat): Token {
    Token(EndOfInput, SourceLocation(src, p, 1))
  }

  /** The tokenizing loop from `pos`. It stops when the cursor reaches the
      end BEFORE skipping whitespace; `fixTrailing` adds the guard after the
      skip that the loop as written lacks. */
  function LexFrom(src: string, pos: nat, fixTrailing: bool): Result<seq<Token>, LexError>
    requires pos <= |src|
    decreases |src| - pos
  {
    if pos >= |src| then Success([EndToken(src, pos)])
    else
      var p := SkipWhile(src, pos, IsSpace);
      if fixTrailing && p == |src| then Success([EndToken(src, p)])
      else
        var next := NextToken(src, p);
        if next.Failure? then Failure(next.error)
        else
          var rest := LexFrom(src, next.value.1, fixTrailing);
          if rest.Failure? then rest
          else Success([next.value.0] + rest.value)
  }

  /** `Lexer(source).tokenize()` as written: a source that ends in
      whitespace reaches the end inside the loop and is rejected. */
  function TokenizeAsWritten(src: string): Result<seq<Token>, LexError> {
    LexFrom(src, 0, false)
  }

  /** The tokenizer with trailing whitespace skipped like any other
      whitespace; the corrected reading of `$` and `!` uses this one. */
  function Tokenize(src: string): Result<seq<Token>, LexError> {
    LexFrom(src, 0, true)
  }

  /*** Well-formed token lists ***/

  /** `t` is a token of `src` read after the whitespace starting at `from`:
      not the end-of-input token, spanning at least one character, with a
      lexeme of its kind's shape. */
  ghost predicate TokenAfter(src: string, t: Token, from: nat) {
    var off := t.location.offset;
    var len := t.location.length;
    t.location.source == src && t.kind != EndOfInput
    && from <= off && len >= 1 && off + len <= |src|
    && AllSpace(src[from..off])
    && LexemeFits(t.kind, src[off..off + len])
  }

  function EndOf(t: Token): nat { t.location.offset + t.location.length }

  /** `toks` tiles `src[from..]`: each token begins after a run of whitespace
      where the previous one ended, and the list ends with the single
      end-of-input token, placed at the end of the source with length 1,
      after nothing but whitespace. */
  ghost predicate Covers(src: string, toks: seq<Token>, from: nat)
    decreases |toks|
  {
    from <= |src| && |toks| >= 1
    && if |toks| == 1 then toks[0] == EndToken(src, |src|) && AllSpace(src[from..])
       else TokenAfter(src, toks[0], from) && Covers(src, toks[1..], EndOf(toks[0]))
  }

  lemma DigitsSlice(src: string, a: nat, b: nat)
    requires a <= b <= |src|
    requires forall i :: a <= i < b ==> IsDigit(src[i])
    ensures AllDigits(src[a..b])
  {
    forall i | 0 <= i < b - a
      ensures IsDigit(src[a..b][i])
    {
      assert src[a..b][i] == src[a + i];
    }
  }

  lemma ScanNumberFits(src: string, p: nat)
    requires p < |src| && IsDigit(src[p])
    ensures ScanNumber(src, p).Success? ==> IsNumberLexeme(src[p..ScanNumber(src, p).value])
  {
    var q := SkipWhile(src, p + 1, IsDigit);
    DigitsSlice(src, p, q);
    if Current(src, q) == '.' {
      if IsDigit(Current(src, q + 1)) {
        var e := SkipWhile(src, q + 2, IsDigit);
        DigitsSlice(src, q + 1, e);
        var lx := src[p..e];
        var d := q - p;
        assert lx[..d] == src[p..q];
        assert lx[d + 1..] == src[q + 1..e];
        assert lx[d] == '.';
      }
    }
  }

  lemma IdentifierFits(src: string, p: nat)
    requires p < |src| && IsIdentifierStart(src[p])
    ensures var q := SkipWhile(src, p + 1, IsIdentifierContinuation);
            IsIdentifierLexeme(src[p..q]) && IsIdentifierContinuation(src[q - 1])
  {
    var q := SkipWhile(src, p + 1, IsIdentifierContinuation);
    forall i | 1 <= i < q - p
      ensures IsIdentifierContinuation(src[p..q][i])
    {
      assert src[p..q][i] == src[p + i];
    }
  }

  lemma StringFits(src: string, p: nat)
    requires p < |src| && src[p] == '\''
    requires ScanString(src, p + 1).Success?
    ensures var close := ScanString(src, p + 1).value;
            IsStringLexeme(src[p..close + 1])
  {
    var close := ScanString(src, p + 1).value;
    QuotedSlice(src, p, close, src[p..close + 1], src[p + 1..close]);
  }

  /** A quoted slice whose body the lexer accepts is a string lexeme. */
  lemma QuotedSlice(src: string, p: nat, close: nat, lx: string, body: string)
    requires p < close < |src| && src[p] == '\'' && src[close] == '\''
    requires lx == src[p..close + 1] && body == src[p + 1..close] && ValidBody(body)
    ensures IsStringLexeme(lx)
  {
    assert |lx| == close + 1 - p && lx[0] == '\'' && lx[|lx| - 1] == '\'';
    assert lx[1..|lx| - 1] == body by {
      SliceOfSlice(src, p, close + 1, 1, close - p);
    }
  }

  /** What `NextToken` promises of a token it read at `p` ending at `q`. */
  ghost predicate ReadToken(src: string, p: nat, tok: Token, q: nat) {
    p < q <= |src| && tok.location == SourceLocation(src, p, q - p)
    && tok.kind != EndOfInput && !IsSpace(src[q - 1])
    && LexemeFits(tok.kind, src[p..q])
  }

  lemma SingleCharRead(src: string, p: nat)
    requires p <= |src| && SingleCharKind(Current(src, p)).Some?
    ensures NextToken(src, p).Success?
            && ReadToken(src, p, NextToken(src, p).value.0, NextToken(src, p).value.1)
  {
    var c := Current(src, p);
    var kind := SingleCharKind(c).value;
    assert NextToken(src, p) == Success((Token(kind, SourceLocation(src, p, 1)), p + 1));
    assert src[p..p + 1] == [c];
  }

  lemma NumberRead(src: string, p: nat)
    requires p <= |src| && SingleCharKind(Current(src, p)).None? && IsDigit(Current(src, p))
    ensures NextToken(src, p).Success? ==>
              ReadToken(src, p, NextToken(src, p).value.0, NextToken(src, p).value.1)
  {
    var e := ScanNumber(src, p);
    if e.Success? {
      ScanNumberFits(src, p);
      assert NextToken(src, p) == Success((Token(NumberLiteral, SourceLocation(src, p, e.value - p)), e.value));
    }
  }

  lemma StringToken(src: string, p: nat)
    requires p <= |src| && Current(src, p) == '\'' && ScanString(src, p + 1).Success?
    ensures var close := ScanString(src, p + 1).value;
            NextToken(src, p)
            == Success((Token(StringLiteral, SourceLocation(src, p, close + 1 - p)), close + 1))
  {
    assert SingleCharKind(Current(src, p)).None?;
    assert !IsDigit(Current(src, p));
  }

  lemma StringRead(src: string, p: nat)
    requires p <= |src| && Current(src, p) == '\''
    ensures NextToken(src, p).Success? ==>
              ReadToken(src, p, NextToken(src, p).value.0, NextToken(src, p).value.1)
  {
    var close := ScanString(src, p + 1);
    if close.Success? {
      StringFits(src, p);
      StringToken(src, p);
      var lx := src[p..close.value + 1];
      assert IsStringLexeme(lx);
      assert LexemeFits(StringLiteral, lx);
    } else {
      assert NextToken(src, p).Failure?;
    }
  }

  lemma IdentifierToken(src: string, p: nat)
    requires p <= |src| && IsIdentifierStart(Current(src, p))
    ensures var q := SkipWhile(src, p + 1, IsIdentifierContinuation);
            NextToken(src, p)
            == Success((Token(KeywordKind(src[p..q]).GetOr(Identifier), SourceLocation(src, p, q - p)), q))
  {
    assert SingleCharKind(Current(src, p)).None?;
    assert !IsDigit(Current(src, p)) && Current(src, p) != '\'';
  }

  lemma IdentifierRead(src: string, p: nat)
    requires p <= |src| && IsIdentifierStart(Current(src, p))
    ensures NextToken(src, p).Success?
            && ReadToken(src, p, NextToken(src, p).value.0, NextToken(src, p).value.1)
  {
    IdentifierFits(src, p);
    IdentifierToken(src, p);
    var q := SkipWhile(src, p + 1, IsIdentifierContinuation);
    var lx := src[p..q];
    var kind := KeywordKind(lx).GetOr(Identifier);
    if KeywordKind(lx).Some? {
      assert LexemeFits(kind, lx);
    } else {
      assert LexemeFits(kind, lx);
    }
  }

  /** The token read at `p` spans `src[p..q]`, has a lexeme of its kind's
      shape and ends on a character that is not whitespace. */
  lemma NextTokenFits(src: string, p: nat)
    requires p <= |src|
    ensures NextToken(src, p).Success? ==>
              ReadToken(src, p, NextToken(src, p).value.0, NextToken(src, p).value.1)
  {
    var c := Current(src, p);
    if SingleCharKind(c).Some? {
      SingleCharRead(src, p);
    } else if IsDigit(c) {
      NumberRead(src, p);
    } else if c == '\'' {
      StringRead(src, p);
    } else if IsIdentifierStart(c) {
      IdentifierRead(src, p);
    }
  }

  /** A token read after whitespace is a token of the source after it. */
  lemma ReadTokenAfter(src: string, pos: nat, p: nat, tok: Token, q: nat)
    requires pos <= p <= |src| && AllSpace(src[pos..p])
    requires ReadToken(src, p, tok, q)
    ensures TokenAfter(src, tok, pos) && EndOf(tok) == q
  {
    var lx := src[p..q];
    assert LexemeFits(tok.kind, lx);
    assert tok.location.offset == p && tok.location.offset + tok.location.length == q;
    assert src[tok.location.offset..tok.location.offset + tok.location.length] == lx;
  }

  /** A token read after whitespace, followed by a tiling of the rest. */
  lemma CoversCons(src: string, pos: nat, tok: Token, rest: seq<Token>)
    requires pos <= |src| && TokenAfter(src, tok, pos) && Covers(src, rest, EndOf(tok))
    ensures Covers(src, [tok] + rest, pos)
  {
    assert ([tok] + rest)[1..] == rest;
  }

  lemma {:induction false} LexFromCovers(src: string, pos: nat, fixTrailing: bool)
    requires pos <= |src|
    ensures LexFrom(src, pos, fixTrailing).Success? ==> Covers(src, LexFrom(src, pos, fixTrailing).value, pos)
    decreases |src| - pos
  {
    if pos < |src| {
      var p := SkipWhile(src, pos, IsSpace);
      assert AllSpace(src[pos..p]);
      if fixTrailing && p == |src| {
        assert src[pos..] == src[pos..p];
      } else {
        var next := NextToken(src, p);
        if next.Success? {
          var tok := next.value.0;
          var q := next.value.1;
          NextTokenFits(src, p);
          LexFromCovers(src, q, fixTrailing);
          var r := LexFrom(src, q, fixTrailing);
          if r.Success? {
            ReadTokenAfter(src, pos, p, tok, q);
            CoversCons(src, pos, tok, r.value);
          }
        }
      }
    } else {
      assert src[pos..] == [];
    }
  }

  /** A token of a covering list, wherever it sits: its lexeme is the
      source slice its span names and has its kind's shape. */
  ghost predicate WellFormedToken(src: string, t: Token) {
    var off := t.location.offset;
    var len := t.location.length;
    t.location.source == src && t.kind != EndOfInput
    && len >= 1 && off + len <= |src|
    && t.Lexeme() == src[off..off + len]
    && LexemeFits(t.kind, t.Lexeme())
  }

  lemma TokenAfterWellFormed(src: string, t: Token, from: nat)
    requires TokenAfter(src, t, from)
    ensures WellFormedToken(src, t)
  {
    assert t.Lexeme() == src[t.location.offset..EndOf(t)];
  }

  /** A covering list ends with the end-of-input token at the end of the source. */
  lemma {:induction false} CoversEndsWithEndToken(src: string, toks: seq<Token>, from: nat)
    requires Covers(src, toks, from)
    ensures toks[|toks| - 1] == EndToken(src, |src|)
    decreases |toks|
  {
    if |toks| > 1 {
      CoversEndsWithEndToken(src, toks[1..], EndOf(toks[0]));
    }
  }

  /** Every token of a covering list but the last is a well-formed token of
      the source, so none of them is an end-of-input token. */
  lemma {:induction false} CoversTokensWellFormed(src: string, toks: seq<Token>, from: nat)
    requires Covers(src, toks, from)
    ensures forall i :: 0 <= i < |toks| - 1 ==> WellFormedToken(src, toks[i])
    decreases |toks|
  {
    if |toks| > 1 {
      var t := toks[0];
      CoversTokensWellFormed(src, toks[1..], EndOf(t));
      TokenAfterWellFormed(src, t, from);
      forall i | 1 <= i < |toks| - 1
        ensures WellFormedToken(src, toks[i])
      {
        assert toks[i] == toks[1..][i - 1];
      }
    }
  }

  /** Every list the tokenizer returns tiles the whole source. */
  lemma TokenizeCovers(src: string)
    ensures Tokenize(src).Success? ==> Covers(src, Tokenize(src).value, 0)
    ensures TokenizeAsWritten(src).Success? ==> Covers(src, TokenizeAsWritten(src).value, 0)
  {
    LexFromCovers(src, 0, true);
    LexFromCovers(src, 0, false);
  }

  /*** Trailing whitespace ***/

  /** As written, a source whose last character is whitespace is always
      rejected: every token ends on a non-space character, so the loop is
      still running when the whitespace skip reaches the end, and the NUL
      read there is an unexpected character. */
  lemma {:induction false} TrailingWhitespaceRejected(src: string, pos: nat)
    requires pos < |src| && IsSpace(src[|src| - 1])
    ensures LexFrom(src, pos, false).Failure?
    decreases |src| - pos
  {
    var p := SkipWhile(src, pos, IsSpace);
    var t := NextToken(src, p);
    if t.Success? {
      var (tok, q) := t.value;
      NextTokenFits(src, p);
      TrailingWhitespaceRejected(src, q);
    }
  }

  /** The smallest such source: a single space. */
  lemma SingleSpaceRejected()
    ensures TokenizeAsWritten(" ") == Failure(LexError(UnexpectedCharacter('\0'), SourceLocation(" ", 1, 1)))
    ensures Tokenize(" ") == Success([EndToken(" ", 1)])
  {
    assert SkipWhile(" ", 0, IsSpace) == 1;
  }

  /** With the fix, a source of only whitespace is just the end-of-input token. */
  lemma AllSpaceTokenizes(src: string)
    requires AllSpace(src)
    ensures Tokenize(src) == Success([EndToken(src, |src|)])
  {
    if |src| > 0 {
      var p := SkipWhile(src, 0, IsSpace);
      assert p == |src|;
    }
  }

  /** On every source that does not end in whitespace the fix changes
      nothing: both tokenizers give the same result. */
  lemma {:induction false} FixAgreesFrom(src: string, pos: nat)
    requires pos <= |src|
    requires |src| > 0 ==> !IsSpace(src[|src| - 1])
    ensures LexFrom(src, pos, false) == LexFrom(src, pos, true)
    decreases |src| - pos
  {
    if pos < |src| {
      var p := SkipWhile(src, pos, IsSpace);
      assert p < |src|;
      var t := NextToken(src, p);
      if t.Success? {
        var (tok, q) := t.value;
        FixAgreesFrom(src, q);
      }
    }
  }

  lemma FixAgrees(src: string)
    requires |src| > 0 ==> !IsSpace(src[|src| - 1])
    ensures TokenizeAsWritten(src) == Tokenize(src)
  {
    FixAgreesFrom(src, 0);
  }

  /** Wherever the tokenizer as written succeeds, the corrected one gives
      the same tokens: the fix only accepts more sources. */
  lemma AsWrittenSuccessAgrees(src: string)
    ensures TokenizeAsWritten(src).Success? ==> TokenizeAsWritten(src) == Tokenize(src)
  {
    if |src| > 0 && IsSpace(src[|src| - 1]) {
      TrailingWhitespaceRejected(src, 0);
    } else {
      FixAgrees(src);
    }
  }

  /*** Literals ***/

  /** A quoted string is read as one string-literal token spanning it, and
      the token's lexeme decodes back to the string. */
  lemma QuotedStringIsOneToken(s: string)
    ensures var q := Quote(s);
            Tokenize(q) == Success([Token(StringLiteral, SourceLocation(q, 0, |q|)), EndToken(q, |q|)])
            && FromLexeme(Token(StringLiteral, SourceLocation(q, 0, |q|)).Lexeme()) == Some(s)
  {
    var q := Quote(s);
    var tok := Token(StringLiteral, SourceLocation(q, 0, |q|));
    QuoteRoundTrip(s);
    QuotedStringFirstToken(s);
    assert SkipWhile(q, 0, IsSpace) == 0;
    assert LexFrom(q, |q|, true) == Success([EndToken(q, |q|)]);
    assert LexFrom(q, 0, true) == Success([tok] + [EndToken(q, |q|)]);
    assert [tok] + [EndToken(q, |q|)] == [tok, EndToken(q, |q|)];
    assert q[0..|q|] == q;
    assert tok.Lexeme() == q;
  }

  lemma QuotedStringFirstToken(s: string)
    ensures var q := Quote(s);
            NextToken(q, 0) == Success((Token(StringLiteral, SourceLocation(q, 0, |q|)), |q|))
  {
    var q := Quote(s);
    var body := EscapeString(s);
    EscapeStringValid(s);
    assert q[1..1 + |body|] == body;
    ScanEscapedBody(q, 1, body);
    assert ScanString(q, 1) == Success(|q| - 1);
  }

  /** Scanning a valid body followed by a quote stops at that quote. */
  lemma {:induction false} ScanEscapedBody(src: string, p: nat, body: string)
    requires p + |body| < |src| && src[p..p + |body|] == body && src[p + |body|] == '\''
    requires ValidBody(body)
    ensures ScanString(src, p) == Success(p + |body|)
    decreases |body|
  {
    if |body| > 0 {
      if body[0] == '\\' {
        assert src[p + 2..p + |body|] == body[2..];
        ScanEscapedBody(src, p + 2, body[2..]);
      } else {
        assert src[p + 1..p + |body|] == body[1..];
        ScanEscapedBody(src, p + 1, body[1..]);
      }
    }
  }

  /** Keywords are case-sensitive: their lower-case spellings are identifiers. */
  lemma KeywordsAreCaseSensitive()
    ensures KeywordKind("STORE") == Some(Store) && KeywordKind("store").None?
    ensures KeywordKind("PARAMS") == Some(Params) && KeywordKind("params").None?
    ensures KeywordKind("PRINT") == Some(Print) && KeywordKind("print").None?
    ensures KeywordKind("LET") == Some(Let) && KeywordKind("let").None?
  {
  }

  /*** Digit runs ***/

  /** A run of digits reaching the end of the source is one number token. */
  lemma DigitTailTokens(src: string, p: nat)
    requires p < |src| && forall i :: p <= i < |src| ==> IsDigit(src[i])
    ensures LexFrom(src, p, true) ==
              Success([Token(NumberLiteral, SourceLocation(src, p, |src| - p)), EndToken(src, |src|)])
  {
    assert IsDigit(src[p]);
    assert SkipWhile(src, p, IsSpace) == p;
    assert SingleCharKind(src[p]).None?;
    assert SkipWhile(src, p + 1, IsDigit) == |src|;
    assert ScanNumber(src, p) == Success(|src|);
    var tok := Token(NumberLiteral, SourceLocation(src, p, |src| - p));
    assert NextToken(src, p) == Success((tok, |src|));
    assert LexFrom(src, |src|, true) == Success([EndToken(src, |src|)]);
    assert [tok] + [EndToken(src, |src|)] == [tok, EndToken(src, |src|)];
  }

  /** One step of the tokenizing loop at a non-space character. */
  lemma LexStep(src: string, p: nat, fixTrailing: bool)
    requires p < |src| && !IsSpace(src[p]) && NextToken(src, p).Success?
    ensures var (tok, q) := NextToken(src, p).value;
            LexFrom(src, q, fixTrailing).Success? ==>
              LexFrom(src, p, fixTrailing) == Success([tok] + LexFrom(src, q, fixTrailing).value)
  {
    assert SkipWhile(src, p, IsSpace) == p;
  }
}
