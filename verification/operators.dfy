/** The value-level meaning of the operators: unary conversions, binary
    arithmetic, comparison and concatenation, ranges and subscripts. The
    `!` operator runs a nested script and lives with the interpreter. */
module Operators {
  import opened Wrappers
  import opened PyStr
  import opened Numbers
  import opened DataTypes
  import opened Values
  import opened Tokens
  import opened Lexer
  import opened Locations
  import opened Errors
  import opened Ast

  function ExecError(kind: ExecErrorKind): Error { ExecFailure(kind) }

  /*** `$` on a string ***/

  /** The value of a number-literal token; `None` cannot arise for tokens
      the lexer produced (see `TextToNumberValue`). */
  function TokenNumber(t: Token): Option<real> {
    LexemeValue(t.Lexeme())
  }

  function SignedNumber(t: Token, negate: bool): Result<Value, Error> {
    match TokenNumber(t)
    case None => Failure(InternalFailure)
    case Some(x) => Success(NumberValue(if negate then -x else x))
  }

  /** The first two tokens the conversion as written looks at: a number
      followed by the end, or a sign followed by a number. */
  predicate StartsAsNumber(toks: seq<Token>) {
    |toks| >= 2
    && ((toks[0].kind.NumberLiteral? && toks[1].kind.EndOfInput?)
        || ((toks[0].kind.Plus? || toks[0].kind.Minus?) && toks[1].kind.NumberLiteral?))
  }

  /** `$s` as written: the text must lex with the tokenizer as written, and
      its first two tokens must be a number followed by the end, or a sign
      followed by a number. Tokens after a signed number are not looked at. */
  function TextToNumberAsWritten(s: string): (r: Result<Value, Error>)
    ensures r.Success? ==> r.value.NumberValue? && TokenizeAsWritten(s).Success? && StartsAsNumber(TokenizeAsWritten(s).value)
    ensures TokenizeAsWritten(s).Success? && !StartsAsNumber(TokenizeAsWritten(s).value) ==> r == Failure(ExecError(NotANumber(s)))
    ensures TokenizeAsWritten(s).Failure? ==> r == Failure(ExecError(NumberConversionLexFailed(s)))
  {
    match TokenizeAsWritten(s)
    case Failure(_) => Failure(ExecError(NumberConversionLexFailed(s)))
    case Success(toks) =>
      if |toks| < 2 then Failure(ExecError(NotANumber(s)))
      else if toks[0].kind.NumberLiteral? && toks[1].kind.EndOfInput? then SignedNumber(toks[0], false)
      else if toks[0].kind.Plus? && toks[1].kind.NumberLiteral? then SignedNumber(toks[1], false)
      else if toks[0].kind.Minus? && toks[1].kind.NumberLiteral? then SignedNumber(toks[1], true)
      else Failure(ExecError(NotANumber(s)))
  }

  /** The token kinds a number text consists of: an unsigned literal, or a
      sign and a literal, then the end. */
  predicate IsNumberText(toks: seq<Token>) {
    (|toks| == 2 && toks[0].kind.NumberLiteral? && toks[1].kind.EndOfInput?)
    || (|toks| == 3 && (toks[0].kind.Plus? || toks[0].kind.Minus?)
        && toks[1].kind.NumberLiteral? && toks[2].kind.EndOfInput?)
  }

  /** `$s` as evidently intended: the whole text must be one number,
      optionally signed. */
  function TextToNumber(s: string): (r: Result<Value, Error>)
    ensures r.Success? ==> r.value.NumberValue? && Tokenize(s).Success? && IsNumberText(Tokenize(s).value)
    ensures Tokenize(s).Success? && !IsNumberText(Tokenize(s).value) ==> r == Failure(ExecError(NotANumber(s)))
    ensures Tokenize(s).Failure? ==> r == Failure(ExecError(NumberConversionLexFailed(s)))
  {
    match Tokenize(s)
    case Failure(_) => Failure(ExecError(NumberConversionLexFailed(s)))
    case Success(toks) =>
      if !IsNumberText(toks) then Failure(ExecError(NotANumber(s)))
      else SignedNumber(toks[|toks| - 2], toks[0].kind.Minus?)
  }

  /** The first point of a text whose characters before `d` are digits is
      the one at `d`. */
  lemma FirstPoint(lx: string, d: nat)
    requires d < |lx| && lx[d] == '.' && AllDigits(lx[..d])
    ensures Find(lx, ".") == Some(d)
  {
    assert OccursAt(lx, ".", d) by { assert lx[d..d + 1] == [lx[d]]; }
    FindFirst(lx, ".");
    var f := Find(lx, ".").value;
    assert f <= d;
    assert lx[f] == '.' by { assert lx[f..f + 1] == "."; }
  }

  lemma PointedLexemeHasValue(lx: string, d: nat)
    requires 1 <= d && d + 1 < |lx| && lx[d] == '.' && AllDigits(lx[..d]) && AllDigits(lx[d + 1..])
    ensures LexemeValue(lx).Some?
  {
    assert !AllAsciiDigits(lx) by { assert !IsAsciiDigit(lx[d]); }
    FirstPoint(lx, d);
    assert AllAsciiDigits(lx[..d]) && AllAsciiDigits(lx[d + 1..]);
  }

  /** Every number lexeme has a value, so `SignedNumber` never reports an
      internal failure for a token the lexer produced. */
  lemma NumberLexemeHasValue(lx: string)
    requires IsNumberLexeme(lx)
    ensures LexemeValue(lx).Some?
  {
    if !(|lx| >= 1 && AllDigits(lx)) {
      var d :| 1 <= d && d + 1 < |lx| && lx[d] == '.' && AllDigits(lx[..d]) && AllDigits(lx[d + 1..]);
      PointedLexemeHasValue(lx, d);
    } else {
      assert AllAsciiDigits(lx);
    }
  }

  /** On a text the lexer accepts, the corrected conversion yields exactly
      the value of its number lexeme, negated after a minus sign. */
  lemma TextToNumberValue(s: string)
    requires Tokenize(s).Success? && IsNumberText(Tokenize(s).value)
    ensures var toks := Tokenize(s).value;
            var lx := toks[|toks| - 2].Lexeme();
            LexemeValue(lx).Some?
            && TextToNumber(s) == Success(NumberValue(if toks[0].kind.Minus? then -LexemeValue(lx).value else LexemeValue(lx).value))
  {
    var toks := Tokenize(s).value;
    var i := |toks| - 2;
    TokenizeCovers(s);
    CoversTokensWellFormed(s, toks, 0);
    assert WellFormedToken(s, toks[i]);
    assert toks[i].kind.NumberLiteral?;
    assert IsNumberLexeme(toks[i].Lexeme());
    NumberLexemeHasValue(toks[i].Lexeme());
  }

  /** As written, the conversion accepts every text that starts as a number
      and yields the value of that number, negated after a minus sign. */
  lemma TextToNumberAsWrittenValue(s: string)
    requires TokenizeAsWritten(s).Success? && StartsAsNumber(TokenizeAsWritten(s).value)
    ensures var toks := TokenizeAsWritten(s).value;
            var lx := toks[if toks[0].kind.NumberLiteral? then 0 else 1].Lexeme();
            LexemeValue(lx).Some?
            && TextToNumberAsWritten(s) == Success(NumberValue(if toks[0].kind.Minus? then -LexemeValue(lx).value else LexemeValue(lx).value))
  {
    var toks := TokenizeAsWritten(s).value;
    var i := if toks[0].kind.NumberLiteral? then 0 else 1;
    TokenizeCovers(s);
    CoversTokensWellFormed(s, toks, 0);
    assert WellFormedToken(s, toks[i]);
    NumberLexemeHasValue(toks[i].Lexeme());
  }

  /** The two conversions agree on every text the corrected one accepts,
      unless the tokenizer as written rejects it: the corrections only
      reject more, and the lexer fix only accepts more. */
  lemma TextToNumberRefines(s: string)
    requires TextToNumber(s).Success?
    ensures TokenizeAsWritten(s).Success? ==> TextToNumberAsWritten(s) == TextToNumber(s)
    ensures TokenizeAsWritten(s).Failure? ==> TextToNumberAsWritten(s) == Failure(ExecError(NumberConversionLexFailed(s)))
  {
    AsWrittenSuccessAgrees(s);
  }

  /** As written, a text ending in whitespace, such as `$'3 '`, is never a
      number: the tokenizer as written rejects it. */
  lemma TrailingSpaceNumberRejected(s: string)
    requires |s| > 0 && IsSpace(s[|s| - 1])
    ensures TextToNumberAsWritten(s) == Failure(ExecError(NumberConversionLexFailed(s)))
  {
    TrailingWhitespaceRejected(s, 0);
  }

  function PairToken(p: nat): Token {
    Token(if p == 0 then TokenType.Plus else NumberLiteral, SourceLocation("+3 4", p, 1))
  }

  /** The tokens of `4` at the end of `+3 4`. */
  lemma PairTailTokens()
    ensures LexFrom("+3 4", 2, true) == Success([PairToken(3), EndToken("+3 4", 4)])
  {
    var src := "+3 4";
    assert SkipWhile(src, 4, IsSpace) == 4;
    assert LexFrom(src, 4, true) == Success([EndToken(src, 4)]);
    assert SkipWhile(src, 3, IsSpace) == 3;
    assert ScanNumber(src, 3) == Success(4);
    assert SingleCharKind('4').None?;
    assert NextToken(src, 3) == Success((PairToken(3), 4));
    assert [PairToken(3)] + [EndToken(src, 4)] == [PairToken(3), EndToken(src, 4)];
    assert LexFrom(src, 3, true) == Success([PairToken(3), EndToken(src, 4)]);
    assert SkipWhile(src, 2, IsSpace) == 3;
  }

  /** The tokens of `+3 4`: a plus, two numbers and the end. */
  lemma SignedPairTokens()
    ensures Tokenize("+3 4") == Success([PairToken(0), PairToken(1), PairToken(3), EndToken("+3 4", 4)])
  {
    var src := "+3 4";
    PairTailTokens();
    assert SkipWhile(src, 1, IsSpace) == 1;
    assert ScanNumber(src, 1) == Success(2);
    assert SingleCharKind('3').None?;
    assert NextToken(src, 1) == Success((PairToken(1), 2));
    var tail := [PairToken(3), EndToken(src, 4)];
    assert [PairToken(1)] + tail == [PairToken(1), PairToken(3), EndToken(src, 4)];
    assert LexFrom(src, 1, true) == Success([PairToken(1)] + tail);
    assert SkipWhile(src, 0, IsSpace) == 0;
    assert NextToken(src, 0) == Success((PairToken(0), 1));
    assert [PairToken(0)] + ([PairToken(1)] + tail) == [PairToken(0), PairToken(1), PairToken(3), EndToken(src, 4)];
  }

  /** As written, `$'+3 4'` is the number 3: after a sign the conversion
      looks at one number only and ignores what follows. The corrected
      conversion rejects the text. */
  lemma SignedPairAccepted()
    ensures TextToNumberAsWritten("+3 4") == Success(NumberValue(3.0))
    ensures TextToNumber("+3 4") == Failure(ExecError(NotANumber("+3 4")))
  {
    SignedPairTokens();
    FixAgrees("+3 4");
    assert PairToken(1).Lexeme() == "3";
    assert LexemeValue("3") == Some(3.0) by {
      assert AllAsciiDigits("3");
      assert DigitsValue("3") == 3;
    }
  }

  /*** Unary operators ***/

  /** Every unary operator but `!` on an evaluated operand. */
  function ApplyUnary(op: UnaryOp, v: Value): (r: Result<Value, Error>)
    requires !op.Evaluate?
  {
    match (op, v)
    case (Plus, NumberValue(x)) => Success(NumberValue(x))
    case (ToNumber, NumberValue(x)) => Success(NumberValue(x))
    case (Negate, NumberValue(x)) => Success(NumberValue(-x))
    case (Not, BoolValue(b)) => Success(BoolValue(!b))
    case (ToNumber, BoolValue(b)) => Success(NumberValue(if b then 1.0 else 0.0))
    case (ToNumber, StringValue(s)) => TextToNumber(s)
    case (ToText, BoolValue(b)) => Success(StringValue(if b then "true" else "false"))
    case (ToText, NumberValue(x)) => Success(StringValue(FormatNumber(x)))
    case (ToText, StringValue(s)) => Success(StringValue(s))
    case (ToBool, BoolValue(b)) => Success(BoolValue(b))
    case (ToBool, NumberValue(x)) => Success(BoolValue(x != 0.0))
    case (ToBool, StringValue(s)) =>
      if ParseBool(s).Some? then Success(BoolValue(ParseBool(s).value))
      else Failure(ExecError(NotABool(s)))
    case _ => Failure(ExecError(UnsupportedUnaryOperand))
  }

  /** The tokens of a digit run: one number literal spanning it. */
  lemma DigitsTextTokens(digits: string)
    requires |digits| > 0 && AllDigits(digits)
    ensures Tokenize(digits) ==
              Success([Token(NumberLiteral, SourceLocation(digits, 0, |digits|)), EndToken(digits, |digits|)])
    ensures Token(NumberLiteral, SourceLocation(digits, 0, |digits|)).Lexeme() == digits
  {
    DigitTailTokens(digits, 0);
    assert digits[0..|digits|] == digits;
  }

  /** The tokens of a minus and a digit run: the minus, then one number
      literal spanning the digits. */
  lemma NegativeTextTokens(text: string)
    requires |text| > 1 && text[0] == '-' && forall i :: 1 <= i < |text| ==> IsDigit(text[i])
    ensures Tokenize(text) == Success([Token(TokenType.Minus, SourceLocation(text, 0, 1)),
                                       Token(NumberLiteral, SourceLocation(text, 1, |text| - 1)),
                                       EndToken(text, |text|)])
  {
    var minus := Token(TokenType.Minus, SourceLocation(text, 0, 1));
    var tail := [Token(NumberLiteral, SourceLocation(text, 1, |text| - 1)), EndToken(text, |text|)];
    DigitTailTokens(text, 1);
    assert LexFrom(text, 1, true) == Success(tail);
    assert !IsSpace('-');
    assert SingleCharKind('-') == Some(TokenType.Minus);
    assert NextToken(text, 0) == Success((minus, 1));
    LexStep(text, 0, true);
    assert LexFrom(text, 0, true) == Success([minus] + tail);
    assert [minus] + tail == [minus, tail[0], tail[1]];
  }

  /** The tokens of a minus and a digit run read as the negated digits. */
  lemma NegativeTokensValue(text: string, toks: seq<Token>, m: nat)
    requires |text| > 1 && text[1..] == NatToString(m)
    requires toks == [Token(TokenType.Minus, SourceLocation(text, 0, 1)),
                      Token(NumberLiteral, SourceLocation(text, 1, |text| - 1)),
                      EndToken(text, |text|)]
    ensures IsNumberText(toks) && SignedNumber(toks[1], true) == Success(NumberValue(-(m as real)))
  {
    NatToStringRoundTrip(m);
    assert toks[1].Lexeme() == text[1..|text|];
    assert text[1..|text|] == text[1..];
  }

  /** `$` of the rendering of a negative integer is the integer. */
  lemma NegativeTextValue(n: int)
    requires n < 0
    ensures TextToNumber(IntToString(n)) == Success(NumberValue(n as real))
  {
    var m: nat := -n;
    var text := IntToString(n);
    NegativeTextShape(n);
    NegativeTextTokens(text);
    var toks := Tokenize(text).value;
    NegativeTokensValue(text, toks, m);
  }

  /** The rendering of a negative integer is a minus and the digits of
      its magnitude. */
  lemma NegativeTextShape(n: int)
    requires n < 0
    ensures var text := IntToString(n);
            |text| > 1 && text[0] == '-' && text[1..] == NatToString(-n)
            && forall i :: 1 <= i < |text| ==> IsDigit(text[i])
  {
    var m: nat := -n;
    var text := IntToString(n);
    assert text == "-" + NatToString(m);
    assert text[1..] == NatToString(m);
    assert forall i :: 1 <= i < |text| ==> text[i] == NatToString(m)[i - 1];
  }

  /** `$` of the rendering of an integer is the integer. */
  lemma IntegerTextValue(n: int)
    ensures TextToNumber(IntToString(n)) == Success(NumberValue(n as real))
  {
    if n < 0 {
      NegativeTextValue(n);
    } else {
      var m: nat := n;
      NatToStringRoundTrip(m);
      assert LexemeValue(NatToString(m)) == Some(m as real);
      DigitsTextTokens(NatToString(m));
    }
  }

  /** `$` reads back what `#` printed for an integral number. */
  lemma IntegralTextRoundTrip(x: real)
    requires IsIntegral(x)
    ensures ApplyUnary(ToNumber, ApplyUnary(ToText, NumberValue(x)).value) == Success(NumberValue(x))
  {
    var n := x.Floor;
    assert FormatNumber(x) == IntToString(n);
    IntegerTextValue(n);
  }

  /** `?` reads back what `#` printed for a Bool. */
  lemma BoolTextRoundTrip(b: bool)
    ensures ApplyUnary(ToBool, ApplyUnary(ToText, BoolValue(b)).value) == Success(BoolValue(b))
  {
  }

  /*** Ranges ***/

  /** Python's `range(start, stop, step)` for a step of 1 or -1. */
  function PyRange(start: int, stop: int, step: int): (r: seq<int>)
    requires step == 1 || step == -1
    decreases if step == 1 then stop - start else start - stop
  {
    if (step == 1 && start >= stop) || (step == -1 && start <= stop) then []
    else [start] + PyRange(start + step, stop, step)
  }

  /** The integers of `start..=end` (inclusive) or `start..<end`, counting
      down when the start is above the end. */
  function RangeInts(start: int, end: int, inclusive: bool): seq<int> {
    if start <= end then PyRange(start, if inclusive then end + 1 else end, 1)
    else PyRange(start, if inclusive then end - 1 else end, -1)
  }

  function NumberList(xs: seq<int>): (r: seq<Value>)
    ensures |r| == |xs|
    ensures forall i :: 0 <= i < |xs| ==> r[i] == NumberValue(xs[i] as real)
  {
    seq(|xs|, i requires 0 <= i < |xs| => NumberValue(xs[i] as real))
  }

  /** `..=` and `..<` on evaluated bounds. */
  function ApplyRange(l: real, r: real, inclusive: bool): (v: Result<Value, Error>)
    ensures v.Success? <==> IsIntegral(l) && IsIntegral(r)
  {
    if !IsIntegral(l) then Failure(ExecError(NonIntegralRangeStart))
    else if !IsIntegral(r) then Failure(ExecError(NonIntegralRangeEnd))
    else Success(ListValue(NumberList(RangeInts(Truncate(l), Truncate(r), inclusive)), NumberType))
  }

  /** The closed form of `PyRange`: `|stop - start|` steps from `start`. */
  lemma {:induction false} PyRangeContents(start: int, stop: int, step: int)
    requires step == 1 || step == -1
    ensures var n := if step == 1 then stop - start else start - stop;
            |PyRange(start, stop, step)| == (if n > 0 then n else 0)
            && forall i :: 0 <= i < |PyRange(start, stop, step)| ==> PyRange(start, stop, step)[i] == start + i * step
    decreases if step == 1 then stop - start else start - stop
  {
    if !((step == 1 && start >= stop) || (step == -1 && start <= stop)) {
      PyRangeContents(start + step, stop, step);
      var rest := PyRange(start + step, stop, step);
      assert PyRange(start, stop, step) == [start] + rest;
      forall i | 0 < i < 1 + |rest|
        ensures ([start] + rest)[i] == start + i * step
      {
        assert ([start] + rest)[i] == rest[i - 1];
      }
    }
  }

  /** Ranges step by one from the start toward the end: an inclusive range
      holds `|end - start| + 1` numbers, an exclusive one `|end - start|`. */
  lemma RangeContents(start: int, end: int, inclusive: bool)
    ensures var xs := RangeInts(start, end, inclusive);
            var distance := if start <= end then end - start else start - end;
            |xs| == (if inclusive then distance + 1 else distance)
            && (forall i :: 0 <= i < |xs| ==> xs[i] == (if start <= end then start + i else start - i))
  {
    if start <= end {
      PyRangeContents(start, if inclusive then end + 1 else end, 1);
    } else {
      PyRangeContents(start, if inclusive then end - 1 else end, -1);
    }
  }

  /** An inclusive range ends at `end`; an exclusive one stops one short. */
  lemma RangeEnds(start: int, end: int, inclusive: bool)
    ensures var xs := RangeInts(start, end, inclusive);
            (inclusive ==> |xs| > 0 && xs[0] == start && xs[|xs| - 1] == end)
            && (!inclusive ==> (|xs| == 0 <==> start == end))
            && (!inclusive && start != end ==> xs[0] == start && xs[|xs| - 1] == (if start < end then end - 1 else end + 1))
  {
    RangeContents(start, end, inclusive);
  }

  /*** Binary operators ***/

  /** Python's `<=` on strings. */
  predicate TextLessOrEqual(a: string, b: string) { LexLess(a, b) || a == b }

  function ApplyBinary(l: Value, op: BinaryOp, r: Value): (v: Result<Value, Error>) {
    match (l, op, r)
    case (BoolValue(a), Equals, BoolValue(b)) => Success(BoolValue(a == b))
    case (NumberValue(a), Equals, NumberValue(b)) => Success(BoolValue(a == b))
    case (StringValue(a), Equals, StringValue(b)) => Success(BoolValue(a == b))
    case (BoolValue(a), NotEquals, BoolValue(b)) => Success(BoolValue(a != b))
    case (NumberValue(a), NotEquals, NumberValue(b)) => Success(BoolValue(a != b))
    case (StringValue(a), NotEquals, StringValue(b)) => Success(BoolValue(a != b))
    case (NumberValue(a), LessThan, NumberValue(b)) => Success(BoolValue(a < b))
    case (NumberValue(a), LessThanOrEqual, NumberValue(b)) => Success(BoolValue(a <= b))
    case (NumberValue(a), GreaterThan, NumberValue(b)) => Success(BoolValue(a > b))
    case (NumberValue(a), GreaterThanOrEqual, NumberValue(b)) => Success(BoolValue(a >= b))
    case (StringValue(a), LessThan, StringValue(b)) => Success(BoolValue(LexLess(a, b)))
    case (StringValue(a), LessThanOrEqual, StringValue(b)) => Success(BoolValue(TextLessOrEqual(a, b)))
    case (StringValue(a), GreaterThan, StringValue(b)) => Success(BoolValue(LexLess(b, a)))
    case (StringValue(a), GreaterThanOrEqual, StringValue(b)) => Success(BoolValue(TextLessOrEqual(b, a)))
    case (BoolValue(a), And, BoolValue(b)) => Success(BoolValue(a && b))
    case (BoolValue(a), Or, BoolValue(b)) => Success(BoolValue(a || b))
    case (NumberValue(a), Add, NumberValue(b)) => Success(NumberValue(a + b))
    case (NumberValue(a), Subtract, NumberValue(b)) => Success(NumberValue(a - b))
    case (NumberValue(a), Multiply, NumberValue(b)) => Success(NumberValue(a * b))
    case (NumberValue(a), Divide, NumberValue(b)) =>
      if b == 0.0 then Failure(ExecError(DivisionByZero)) else Success(NumberValue(a / b))
    case (NumberValue(a), Modulo, NumberValue(b)) =>
      if b == 0.0 then Failure(ExecError(ModuloByZero)) else Success(NumberValue(FloorMod(a, b)))
    case (StringValue(a), Add, StringValue(b)) => Success(StringValue(a + b))
    case (NumberValue(a), RangeInclusive, NumberValue(b)) => ApplyRange(a, b, true)
    case (NumberValue(a), RangeExclusive, NumberValue(b)) => ApplyRange(a, b, false)
    case (ListValue(a, at), Add, ListValue(b, bt)) =>
      if at != bt then Failure(ExecError(ListConcatenationTypeMismatch))
      else Success(ListValue(a + b, at))
    case _ => Failure(ExecError(UnsupportedBinaryOperands))
  }

  /** The evaluator agrees with the type checker: operands whose types
      admit no operator fail at run time, lists of different element
      types with their own error ... */
  lemma BinaryRejectsIllTyped(l: Value, op: BinaryOp, r: Value)
    requires BinaryType(Values.TypeOf(l), op, Values.TypeOf(r)).None?
    ensures ApplyBinary(l, op, r) == Failure(ExecError(
              if op.Add? && l.ListValue? && r.ListValue? then ListConcatenationTypeMismatch
              else UnsupportedBinaryOperands))
  {
    match l {
      case NumberValue(_) =>
      case StringValue(_) =>
      case BoolValue(_) =>
      case ListValue(_, _) =>
    }
  }

  /** ... and operands the type checker admits yield a value of the promised
      type, unless the operation divides by zero or ranges over a fraction. */
  lemma BinaryResultType(l: Value, op: BinaryOp, r: Value)
    requires BinaryType(Values.TypeOf(l), op, Values.TypeOf(r)).Some?
    ensures match ApplyBinary(l, op, r)
            case Success(v) => Values.TypeOf(v) == BinaryType(Values.TypeOf(l), op, Values.TypeOf(r)).value
            case Failure(e) =>
              e == ExecError(DivisionByZero) || e == ExecError(ModuloByZero)
              || e == ExecError(NonIntegralRangeStart) || e == ExecError(NonIntegralRangeEnd)
  {
    match l {
      case NumberValue(_) =>
        assert r.NumberValue?;
        if IsRange(op) {
        } else if op.Divide? || op.Modulo? {
        }
      case StringValue(_) =>
        assert r.StringValue?;
      case BoolValue(_) =>
        assert r.BoolValue?;
      case ListValue(_, _) =>
        assert r.ListValue?;
    }
  }

  /** `/` and `%` fail exactly on a zero divisor. */
  lemma DivisionFailsOnZero(a: real, b: real)
    ensures ApplyBinary(NumberValue(a), Divide, NumberValue(b)).Failure? <==> b == 0.0
    ensures ApplyBinary(NumberValue(a), Modulo, NumberValue(b)).Failure? <==> b == 0.0
  {
  }

  /** The unary operators likewise agree with `UnaryType`. */
  lemma UnaryAgreesWithTypes(op: UnaryOp, v: Value)
    requires !op.Evaluate?
    ensures UnaryType(op, Values.TypeOf(v)).None? ==> ApplyUnary(op, v) == Failure(ExecError(UnsupportedUnaryOperand))
    ensures UnaryType(op, Values.TypeOf(v)).Some? && ApplyUnary(op, v).Success? ==>
              Values.TypeOf(ApplyUnary(op, v).value) == UnaryType(op, Values.TypeOf(v)).value
  {
  }

  /*** Subscripts ***/

  /** `operand[index]` on evaluated values: an integral index inside the
      string or list; negative indices are out of range. */
  function ApplySubscript(operand: Value, index: Value): (r: Result<Value, Error>)
    ensures r.Success? <==>
              (operand.StringValue? || operand.ListValue?) && index.NumberValue?
              && IsIntegral(index.number)
              && 0 <= Truncate(index.number)
                 < (if operand.StringValue? then |operand.text| else |operand.elements|)
    ensures r.Success? && operand.StringValue? ==>
              r.value == StringValue([operand.text[Truncate(index.number)]])
    ensures r.Success? && operand.ListValue? ==>
              r.value == operand.elements[Truncate(index.number)]
  {
    match (operand, index)
    case (StringValue(s), NumberValue(i)) =>
      if !IsIntegral(i) then Failure(ExecError(IndexNotIntegral))
      else if !(0 <= Truncate(i) < |s|) then Failure(ExecError(IndexOutOfRange(Truncate(i), |s|)))
      else Success(StringValue([s[Truncate(i)]]))
    case (ListValue(es, _), NumberValue(i)) =>
      if !IsIntegral(i) then Failure(ExecError(IndexNotIntegral))
      else if !(0 <= Truncate(i) < |es|) then Failure(ExecError(IndexOutOfRange(Truncate(i), |es|)))
      else Success(es[Truncate(i)])
    case _ => Failure(ExecError(SubscriptUnsupported))
  }
}
