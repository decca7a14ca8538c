# chatbot2k core in Dafny

A Dafny model of the core of chatbot2k, a chat bot for Twitch and Discord. The model covers two things. The larger part is the bot's embedded scripting language: its lexer, parser and interpreter. The rest is the command handlers and utilities that turn chat messages into replies and state changes. Every operation is a pure function over immutable data. The lemmas state what the Python code promises.

## What is modelled

**Scripting engine.** `source_location`, `tokens`, `lexer`, `string_literals`, `numbers`, `precedence`, `data_types`, `values`, `stores`, `ast`, `parser`, `operators`, `builtins`, `sorting`, `interpreter`.

- Source text is tokenized and then parsed by a Pratt parser into a statically checked script.
- Parsing resolves every name to a store, a parameter or a variable in scope. It also checks the types a statement needs, and refuses shadowing.
- The interpreter executes the script against the persistent store and returns the concatenated output of its `PRINT` statements.
- The laws about the engine are in `parser_laws`, `interpreter_laws`, `statement_laws` and `interpreter_findings`.
- A parsed expression is *well formed* when two things hold: every node passed the validation its parser rule performs, and every name in it refers to a store, parameter or variable in scope at that point. The parser produces only well-formed expressions, and the evaluation laws assume them.

**Handlers and utilities.**

| module | what it covers |
|---|---|
| `chat_commands` | recognising a `!command` |
| `parameterized_response` | placeholder injection and the usage line |
| `broadcast_text` | constants and live-notification templates |
| `giveaway` | the giveaway state machine |
| `command_management` | `!command add/add-clip/update/remove` over the command tables |
| `dictionary` | explanations with per-platform cooldowns, and `!dict` |
| `soundboard` | the soundboard switch |
| `entrance_sounds` | once-per-session entrance sounds |
| `markdown` | quoting braced names with backticks outside code spans |
| `sse` | server-sent-event framing |
| `smtp` | the SMTP crypto setting |
| `config` | the environment-variable readers and the `.env` rewrite |
| `timezones` | the common time zones |

`pystr` models the Python string methods these rely on: `strip`, `split`, `splitlines`, `replace`, `lower`, `removeprefix`, `find`, `join`, and string order. `wrappers` holds `Option` and `Result`.

## Modelling choices

- **Grammar.** The token grammar is that of `scripting_engine/lexer.py`. Types and evaluation follow `types/expressions.py` and `parser.py`. Lists are first-class, as in that code: a `ListType` data type and a `ListValue` value. `ListType` prints as `list<T>`.
- **Lexer and parser versions.** `lexer.py` is older than `parser.py` and `token_types.py`. It produces only the single-character tokens `, ! $ ; = + - * / ( )`, the keywords `STORE`, `PARAMS`, `PRINT` and `LET`, identifiers, and number and string literals. The parser also handles the ternary `? :`, the conversions `#` and `?`, comparisons, list literals and subscripts, comprehensions (`for … as … if … yeet`), `collect … with`, Boolean literals, `and`, `or`, `not` and the type keywords. No source text reaches these through `lexer.py`: they are reachable only from token lists built directly, and the parser laws about them are stated over such lists.
- **Statements and `Script.execute`.** Statements take the script name, the stores, the parameters and the variables. `Script.execute` in `types/ast.py` calls them with three arguments and no parameters, which does not match the four-argument statements. The model passes the parameters explicitly.
- **Reductions.** The parser has one reduction form, `collect <iterable> as <acc>, <element> with <body>`. It is seeded from the first element of a list, or from the empty string for a string, as `FoldExpression.evaluate` does.
- **`%`.** `lexer.py` has no `%` token, and the parser's table has no row for `PERCENT`, so no parsed script contains `%`. Modulo is evaluated, with Python's floored semantics, only in expressions built directly. Because `token_types.py` declares `PERCENT` and the table lacks it, the check in the body of `Parser` that every token type has a table row (`parser.py`, lines 952-955) raises `AssertionError` when `parser.py` is imported: in this revision the parser never loads. The model assumes that check passes and treats a `%` token reaching the parser as a missing table row, which fails with an internal error.
- **`split`, `join` and `sort`.** These are expression classes with no parser rule, so they are modelled at the expression level only.
- **Numbers.** Numbers are exact reals rather than IEEE doubles. `int`, `is_integer`, floored `%`, `round` (ties to even), `floor`, `ceil` and the number rendering are written out.
- **`!` and fuel.** `!` (evaluate a string as a script) makes evaluation recursive. Evaluation therefore takes a `fuel` bound, and running out is an explicit error.
- **`Mode`.** The interpreter takes a `Mode`. In `AsWritten` it follows the code: loop variables stay bound after their loop, a script call pushes the callee before evaluating the arguments, `$` and `!` tokenize with the tokenizer as written, and `$` looks only at the first two tokens. `Corrected` does the opposite in each case: loop variables are scoped, arguments are evaluated in the caller, trailing whitespace is skipped, and `$` demands exactly one optionally signed number. The laws about evaluation are stated for `Corrected`, and each Findings row relates the two.
- **Handlers.** The command handlers are modelled as written. Where a handler misbehaves, a corrected function sits next to the as-written one and the Findings table names both.
- **Outside world.** Randomness, the clock, date formatting, file reads, `sqrt`, `pow` and calls into other scripts come from a `Host` parameter. The database is a set of tables passed as values. The regular expression that finds dictionary words is a `Matcher` parameter.
- **Store write-back.** `Script.execute` only reads the stores and returns the output. Writing changed stores back is the caller's job and is outside this model.
- **`read_file`.** `read_file` is a builtin of the table in `types/builtins.py`; it reads through the host.

## Model

| member | source | states |
|---|---|---|
| Locations.SourceLocation.Lexeme | src/chatbot2k/scripting_engine/source_location.py:24-28 | A span starting at or past the end of the source has the empty lexeme; otherwise the lexeme is the source text from the offset, of the span's length or up to the end of the source, whichever is shorter |
| Locations.ScanLinesFindsEnd | src/chatbot2k/scripting_engine/source_location.py:39-48 | The end position is on the first line whose end reaches the span's end, with column offset plus length minus that line's start plus one; when no line reaches it the end stays (0, 0) |
| Locations.ScanLinesFindsStart | src/chatbot2k/scripting_engine/source_location.py:39-48 | The start position is on the line holding the offset (searched no further than the end line), with 1-based column offset minus line start plus one; otherwise it stays (0, 0) |
| Locations.LineStartMonotone | src/chatbot2k/scripting_engine/source_location.py:32-48 | With lines that each hold a character, the start offset of a later line lies at least as many characters further on as the lines in between |
| Locations.RangeOfSpanInside | src/chatbot2k/scripting_engine/source_location.py:30-53 | For a non-empty span inside the source both positions are found: the start on the line holding the offset, the end on the line holding the span's last character, start line no later than end line, columns 1-based |
| Locations.RangeOfSpanPastEnd | src/chatbot2k/scripting_engine/source_location.py:33-53 | A span starting at or past the end of the source, such as the end-of-input token's, keeps both positions at their default (0, 0) |
| Precedences.Rank | src/chatbot2k/scripting_engine/precedence.py:6-18 | Every level has a position in the declaration order from UNKNOWN to CALL, and that position identifies the level |
| Precedences.RankFollowsDeclarationOrder | src/chatbot2k/scripting_engine/precedence.py:8-18 | Of two levels, the one declared earlier binds strictly more weakly |
| Precedences.RankInjective | src/chatbot2k/scripting_engine/precedence.py:8-18 | Distinct levels never compare equal |
| Precedences.OperatorLevels | src/chatbot2k/scripting_engine/precedence.py:9-18 | TERNARY sits directly above UNKNOWN and below every other level; OR < AND < EQUALITY < COMPARISON < SUM < PRODUCT < UNARY < CALL |
| DataTypes.DataType.Name | src/chatbot2k/scripting_engine/types/data_types.py:24-53 | Every type name has at least four characters, and exactly the list types have a name starting with "l" ("number", "string" and "bool" for the scalars) |
| DataTypes.NameInjective | src/chatbot2k/scripting_engine/types/data_types.py:56-59 | Two type descriptors are equal exactly when their printed names are equal, so the text tells the kinds apart |
| Values.TypeOf | src/chatbot2k/scripting_engine/types/value.py:41-77 | A Number reports the number type, a String the string type, a Bool the bool type and a list a list type, and no variant reports another's |
| Values.ParseBool | src/chatbot2k/scripting_engine/types/expressions.py:377-386 | The `?` conversion of a string succeeds exactly on "true" and "false" |
| Values.BoolRoundTrip | src/chatbot2k/scripting_engine/types/value.py:79-81 | A Bool prints as "true" exactly when it is true, and reading the printed text back with `?` yields the Bool again |
| Values.StringPrintsAsItself | src/chatbot2k/scripting_engine/types/value.py:63-65 | A String prints as its own text |
| Values.IntegralPrintsAsInteger | src/chatbot2k/scripting_engine/types/value.py:45-49 | An integral Number prints as the decimal text of the integer, which contains no decimal point (3.0 prints as "3") |
| Values.ToString | src/chatbot2k/scripting_engine/types/value.py:41-81 | The printed form of a value. StringPrintsAsItself, IntegralPrintsAsInteger and BoolRoundTrip state how Strings, integral Numbers and Bools print |
| Stores.ReadValues | src/chatbot2k/scripting_engine/stores.py:23-26 | Reading returns only requested keys; the always-empty store returns nothing, and a backed store returns every requested key it holds with its stored value |
| Stores.StoreValues | src/chatbot2k/scripting_engine/stores.py:28-29 | Storing into the always-empty store leaves it always-empty; a backed store holds the stored values and keeps every other entry |
| Stores.StoreThenReadEmpty | src/chatbot2k/scripting_engine/stores.py:25-29 | After storing through the always-empty store, reading any keys still returns the empty map |
| Stores.StoreThenReadBacked | src/chatbot2k/scripting_engine/stores.py:15-20 | A backed store reads back every value just stored under a requested key |
| StringLiterals.EscapeOf | src/chatbot2k/scripting_engine/escape_characters.py:5-9 | Exactly the three characters n, quote and backslash may follow a backslash |
| StringLiterals.DecodeBody | src/chatbot2k/scripting_engine/types/expressions.py:86-108 | Decoding succeeds on every body the lexer accepts and never lengthens it |
| StringLiterals.FromLexeme | src/chatbot2k/scripting_engine/types/expressions.py:86-108 | A lexeme decodes only when it starts and ends with a quote, and every quoted lexeme whose body the lexer accepts does decode |
| StringLiterals.EscapeStringValid | src/chatbot2k/scripting_engine/lexer.py:69-91 | Escaping any text yields a string-literal body the lexer accepts |
| StringLiterals.DecodeEscape | src/chatbot2k/scripting_engine/types/expressions.py:91-108 | Decoding an escaped text gives back the text |
| StringLiterals.QuoteRoundTrip | src/chatbot2k/scripting_engine/types/expressions.py:86-108 | Quoting a text and reading the literal back yields the same text |
| StringLiterals.Quote | src/chatbot2k/scripting_engine/types/expressions.py:86-108 | A quoted literal of a text: QuoteRoundTrip states that reading it back gives the text, and Lexer.QuotedStringIsOneToken that it tokenizes as one string literal |
| Lexer.SingleCharKind | src/chatbot2k/scripting_engine/lexer.py:17-29 | A single-character token is never an identifier, keyword, literal or end-of-input token |
| Lexer.KeywordKind | src/chatbot2k/scripting_engine/lexer.py:10-15 | Only the four keyword spellings map to a token kind, and that kind is a keyword |
| Lexer.SkipWhile | src/chatbot2k/scripting_engine/lexer.py:146-148 | Skipping stops at the first character that fails the test (or the end) and every skipped character passes it |
| Lexer.ScanString | src/chatbot2k/scripting_engine/lexer.py:69-88 | A string body scan that succeeds stops at a closing quote with a body of permitted escapes in between; it fails only with an invalid escape or an unterminated literal |
| Lexer.ScanNumber | src/chatbot2k/scripting_engine/lexer.py:53-68 | A number scan consumes at least one character and ends on a digit; its only failure is an invalid number format (a point not followed by a digit) |
| Lexer.NextToken | src/chatbot2k/scripting_engine/lexer.py:49-109 | Reading one token always moves the cursor forward and never past the end of the source |
| Lexer.ScanNumberFits | src/chatbot2k/scripting_engine/lexer.py:53-68 | A scanned number lexeme is a digit run, optionally followed by a point and at least one more digit, and carries no sign |
| Lexer.IdentifierFits | src/chatbot2k/scripting_engine/lexer.py:92-103 | An identifier lexeme starts with an ASCII letter and continues with ASCII letters, digits or underscores up to the first other character |
| Lexer.StringFits | src/chatbot2k/scripting_engine/lexer.py:69-91 | A scanned string lexeme runs from the opening to the closing single quote with only permitted escapes in between |
| Lexer.SingleCharRead | src/chatbot2k/scripting_engine/lexer.py:50-52 | A character of the single-character table always yields its token of length one |
| Lexer.NumberRead | src/chatbot2k/scripting_engine/lexer.py:53-68 | A number token spans exactly the characters consumed, starting where it began, and its lexeme has the number shape |
| Lexer.StringToken | src/chatbot2k/scripting_engine/lexer.py:69-91 | A string literal token runs from its opening quote up to and including the closing quote, and the cursor moves past that quote |
| Lexer.StringRead | src/chatbot2k/scripting_engine/lexer.py:69-91 | A string token's lexeme is the quoted source slice it consumed |
| Lexer.IdentifierToken | src/chatbot2k/scripting_engine/lexer.py:92-103 | A word is a keyword token when its whole lexeme is a keyword and an identifier token otherwise, spanning the whole word |
| Lexer.IdentifierRead | src/chatbot2k/scripting_engine/lexer.py:92-103 | A character that starts an identifier always yields a word token whose lexeme has the identifier shape |
| Lexer.NextTokenFits | src/chatbot2k/scripting_engine/lexer.py:134-144 | Every token read starts at the cursor, its length is the number of characters consumed and its lexeme has the shape its kind demands |
| Lexer.LexFromCovers | src/chatbot2k/scripting_engine/lexer.py:45-116 | A successful tokenizing loop yields tokens that tile the rest of the source: each begins after whitespace where the previous one ended, and the last is the end-of-input token |
| Lexer.CoversEndsWithEndToken | src/chatbot2k/scripting_engine/lexer.py:110-115 | A tiling token list ends with the end-of-input token, located at the final offset |
| Lexer.CoversTokensWellFormed | src/chatbot2k/scripting_engine/lexer.py:134-144 | In a tiling list, every token but the last spans at least one character of the source and has the lexeme shape of its kind |
| Lexer.TokenizeCovers | src/chatbot2k/scripting_engine/lexer.py:45-116 | Tokenizing, as written and as corrected, yields a list of well-formed tokens separated only by whitespace and ending with exactly one end-of-input token at the end of the source |
| Lexer.TrailingWhitespaceRejected | src/chatbot2k/scripting_engine/lexer.py:46-50 | As written, a source ending in whitespace is rejected, because the loop's end test comes before the whitespace is skipped |
| Lexer.SingleSpaceRejected | src/chatbot2k/scripting_engine/lexer.py:107-109 | As written, a single space is rejected with "unexpected character" at offset 1; the corrected tokenizer yields just the end-of-input token |
| Lexer.AllSpaceTokenizes | src/chatbot2k/scripting_engine/lexer.py:46-48 | With the correction, a source of only whitespace tokenizes to the single end-of-input token |
| Lexer.FixAgrees | src/chatbot2k/scripting_engine/lexer.py:45-116 | The correction changes nothing for a source that does not end in whitespace |
| Lexer.QuotedStringIsOneToken | src/chatbot2k/scripting_engine/lexer.py:69-91 | A quoted text tokenizes to one string literal token spanning it, and that lexeme decodes back to the text |
| Lexer.ScanEscapedBody | src/chatbot2k/scripting_engine/lexer.py:72-83 | A body of permitted escapes followed by a quote is scanned up to that quote |
| Lexer.KeywordsAreCaseSensitive | src/chatbot2k/scripting_engine/lexer.py:10-15 | STORE, PARAMS, PRINT and LET are keywords, while their lower-case spellings are not |
| Lexer.DigitTailTokens | src/chatbot2k/scripting_engine/lexer.py:53-68 | A run of digits reaching the end of the source is one number token followed by the end-of-input token |
| Lexer.LexStep | src/chatbot2k/scripting_engine/lexer.py:47-109 | The tokenizing loop emits the next token, then the tokens of the rest of the source |
| Lexer.Tokenize | src/chatbot2k/scripting_engine/lexer.py:45-116 | The tokenizer with the trailing-whitespace fix. TokenizeCovers gives the shape of its result, AllSpaceTokenizes its behaviour on whitespace, and FixAgrees that it differs from the one as written only on sources ending in whitespace |
| Lexer.TokenizeAsWritten | src/chatbot2k/scripting_engine/lexer.py:45-116 | `Lexer.tokenize` as written. TokenizeCovers gives the shape of its result, TrailingWhitespaceRejected its rejection of trailing whitespace, and AsWrittenSuccessAgrees its agreement with the fixed tokenizer |
| Lexer.AsWrittenSuccessAgrees | src/chatbot2k/scripting_engine/lexer.py:45-116 | Wherever the tokenizer as written succeeds, the fixed tokenizer gives the same tokens |
| Numbers.Abs | src/chatbot2k/scripting_engine/types/builtins.py:312-327 | The absolute value is non-negative and is the number or its negation |
| Numbers.Floor | src/chatbot2k/scripting_engine/types/builtins.py:418-433 | `floor` gives the greatest integer not above the number |
| Numbers.Ceil | src/chatbot2k/scripting_engine/types/builtins.py:437-452 | `ceil` gives the least integer not below the number |
| Numbers.Truncate | src/chatbot2k/scripting_engine/types/value.py:45-49 | `int(v)` rounds toward zero and is exact on integral numbers |
| Numbers.FloorMod | src/chatbot2k/scripting_engine/types/expressions.py:537-541 | Python's `%` on numbers: a non-zero divisor gives a remainder with the divisor's sign, smaller in magnitude than the divisor, and the left operand minus it is an integral multiple of the divisor |
| Numbers.RoundHalfEven | src/chatbot2k/scripting_engine/types/builtins.py:399-414 | `round` gives an integer at most one half away from the number, and the even one on a tie |
| Numbers.FractionDigits | src/chatbot2k/scripting_engine/types/value.py:45-49 | The fractional digits of a number are decimal digits, as many as requested |
| Numbers.DropTrailingZeros | src/chatbot2k/scripting_engine/types/value.py:45-49 | Dropping trailing zeros keeps a prefix that does not end in zero |
| Numbers.FractionalString | src/chatbot2k/scripting_engine/types/value.py:45-49 | A non-integral number prints with a decimal point, led by a minus sign exactly when it is negative |
| Numbers.FormatNumber | src/chatbot2k/scripting_engine/types/builtins.py:33-35 | A number prints without a decimal point exactly when it is integral, and starts with a minus sign exactly when it is negative |
| Numbers.LexemeValue | src/chatbot2k/scripting_engine/parser.py:555-557 | A number lexeme's value is never negative, and a digit run has its decimal value |
| Numbers.FormatReadsBack | src/chatbot2k/scripting_engine/parser.py:555-557 | Printing a natural number and reading the text as a number lexeme gives the number back |
| Numbers.FormatIntegralInjective | src/chatbot2k/scripting_engine/types/builtins.py:33-35 | Two integers that print the same are equal |
| Operators.TextToNumberAsWritten | src/chatbot2k/scripting_engine/types/expressions.py:331-353 | As written, the conversion uses the tokenizer as written and looks only at the first two tokens: it yields a Number exactly when they are a number then the end, or a sign then a number; a text that does not tokenize fails with a lexer-failure error and any other shape with "not a valid number" |
| Operators.TextToNumber | src/chatbot2k/scripting_engine/types/expressions.py:331-353 | The conversion succeeds only on a text whose tokens are a number, or a sign and a number, followed by the end of input; it fails with a lexer-failure error when the text does not tokenize, and with "not a valid number" when the tokens have another shape |
| Operators.NumberLexemeHasValue | src/chatbot2k/scripting_engine/types/expressions.py:343-348 | Every lexeme of the number shape has a value |
| Operators.TextToNumberValue | src/chatbot2k/scripting_engine/types/expressions.py:343-348 | A number text converts to the value of its number lexeme, negated exactly when the text starts with a minus sign |
| Operators.TextToNumberAsWrittenValue | src/chatbot2k/scripting_engine/types/expressions.py:343-348 | As written, a text whose tokens start as a number converts to the value of the first number lexeme, negated exactly after a leading minus sign |
| Operators.TextToNumberRefines | src/chatbot2k/scripting_engine/types/expressions.py:331-353 | Wherever the corrected conversion succeeds, the conversion as written gives the same Number if its tokenizer accepts the text, and otherwise a lexer failure |
| Operators.TrailingSpaceNumberRejected | src/chatbot2k/scripting_engine/types/expressions.py:331-336 | As written, a text ending in whitespace, such as `$'3 '`, fails with a lexer-failure error |
| Operators.SignedPairAccepted | src/chatbot2k/scripting_engine/types/expressions.py:345-346 | As written, `$'+3 4'` yields 3, because the tokens after the sign and the number are not checked; the corrected conversion rejects the text |
| Operators.NegativeTextValue | src/chatbot2k/scripting_engine/types/expressions.py:347-348 | The text of a negative integer converts back to that integer |
| Operators.IntegerTextValue | src/chatbot2k/scripting_engine/types/expressions.py:331-348 | The text of every integer converts back to that integer |
| Operators.IntegralTextRoundTrip | src/chatbot2k/scripting_engine/types/expressions.py:370-371 | For an integral Number, converting to text and back to a Number gives the Number again |
| Operators.BoolTextRoundTrip | src/chatbot2k/scripting_engine/types/expressions.py:368-383 | For a Bool, converting to text and back to a Bool gives the Bool again |
| Operators.NumberList | src/chatbot2k/scripting_engine/types/expressions.py:556-559 | A list of integers becomes Numbers with the same values in the same order |
| Operators.ApplyRange | src/chatbot2k/scripting_engine/types/expressions.py:545-550 | A range succeeds exactly when both bounds are integral |
| Operators.PyRangeContents | src/chatbot2k/scripting_engine/types/expressions.py:556-559 | Python's `range` with step 1 or -1 holds the distance between start and stop many integers (none if the stop is not ahead), the i-th being start plus i steps |
| Operators.RangeContents | src/chatbot2k/scripting_engine/types/expressions.py:545-577 | A range steps by one from the start toward the end, upward or downward; the inclusive range has one element more than the distance, the exclusive range exactly the distance |
| Operators.RangeEnds | src/chatbot2k/scripting_engine/types/expressions.py:545-577 | An inclusive range starts at the start and ends at the end; an exclusive range is empty exactly when the bounds are equal, and otherwise stops one short of the end |
| Operators.BinaryRejectsIllTyped | src/chatbot2k/scripting_engine/types/expressions.py:578-592 | Operands the type rules reject fail at run time: mismatched list concatenation with its own error, anything else as unsupported operands |
| Operators.BinaryResultType | src/chatbot2k/scripting_engine/types/expressions.py:487-586 | For well-typed operands the result has the type the type rules give, and the only run-time failures are division or modulo by zero and non-integral range bounds |
| Operators.DivisionFailsOnZero | src/chatbot2k/scripting_engine/types/expressions.py:532-541 | Division and modulo of two Numbers fail exactly when the divisor is zero |
| Operators.ApplyBinary | src/chatbot2k/scripting_engine/types/expressions.py:487-592 | Runs a binary operator on two values. BinaryResultType states that well-typed operands give the type the rules assign, BinaryRejectsIllTyped that others fail, and DivisionFailsOnZero, RangeContents and RangeEnds what the arithmetic and ranges yield |
| Operators.UnaryAgreesWithTypes | src/chatbot2k/scripting_engine/types/expressions.py:285-400 | A unary operator the type rules reject for an operand fails at run time, and an accepted one yields a value of the type the rules give |
| Operators.ApplyUnary | src/chatbot2k/scripting_engine/types/expressions.py:314-400 | Runs a unary operator other than `!` on a value, with the corrected `$`. UnaryAgreesWithTypes states that it fails exactly where the type rules reject the operand and otherwise yields the type they give, and IntegralTextRoundTrip and BoolTextRoundTrip that `#` is undone by `$` and `?` |
| Operators.ApplySubscript | src/chatbot2k/scripting_engine/types/expressions.py:722-752 | Subscript succeeds exactly for a string or a list and an integral index with 0 <= i < length; the result is the one-character string at i, or the i-th element |
| Ast.UnaryType | src/chatbot2k/scripting_engine/types/expressions.py:285-311 | `+` and `-` need a Number, `not` a Bool, `$`, `#` and `?` any scalar, `!` a String; every other operand is a type error, and the result is always a scalar type |
| Ast.BinaryType | src/chatbot2k/scripting_engine/types/expressions.py:413-492 | The type rule of binary operators. BoolOperators, ComparisonsGiveBool, ArithmeticTypes, RangeTypes and ListOperands state which operand types each operator admits and what it yields |
| Ast.ExprType | src/chatbot2k/scripting_engine/types/expressions.py:60-68 | `get_data_type` of each expression class. Operators.UnaryAgreesWithTypes and Operators.BinaryResultType state that evaluation yields values of this type, and StatementLaws.TypeIsStatic that `type` reports it |
| Ast.ElementTypeOf | src/chatbot2k/scripting_engine/parser.py:782-790 | Only strings and lists are iterable: a string yields string elements, a list its element type |
| Ast.BoolOperators | src/chatbot2k/scripting_engine/types/expressions.py:413-433 | Bool operands admit exactly `==`, `!=`, `and` and `or`, each giving Bool |
| Ast.ComparisonsGiveBool | src/chatbot2k/scripting_engine/types/expressions.py:413-431 | Two Numbers or two Strings admit equality and all four orderings, each giving Bool |
| Ast.ArithmeticTypes | src/chatbot2k/scripting_engine/types/expressions.py:434-443 | Arithmetic is defined on two Numbers (giving a Number), `+` also on two Strings and on two lists of the same element type, and on nothing else |
| Ast.RangeTypes | src/chatbot2k/scripting_engine/types/expressions.py:444-458 | The range operators accept exactly two Numbers and give a list of Numbers |
| Ast.ListOperands | src/chatbot2k/scripting_engine/types/expressions.py:459-478 | An operator with a list operand is accepted only as `+` of two lists of the same element type |
| Builtins.ArityOf | src/chatbot2k/scripting_engine/types/builtins.py:588-610 | Only the names of the builtin table have an arity |
| Builtins.ApplyBuiltin | src/chatbot2k/scripting_engine/types/builtins.py:91-587 | Runs a builtin other than `type` on evaluated arguments. LengthCounts, ContainsMeaning, ExtremumOfNumbers, ExtremumOfList, SqrtDomain, RoundingPrintsIntegers, CaseMapping, TrimMeaning, ReplaceMeaning, AffixMeaning, AbsMeaning, AbsOfNegation and ReadFileMeaning state what each builtin yields on well-kinded arguments; StringArgumentRequired, StringArgumentsRequired and NumberArgumentRequired state the type error on an argument of the wrong kind |
| Builtins.CheckArity | src/chatbot2k/scripting_engine/types/builtins.py:62-72 | A builtin call passes the arity check exactly when a fixed-arity builtin gets that many arguments or a variadic one at least its minimum |
| Builtins.ValueEqualsIsEquality | src/chatbot2k/scripting_engine/types/builtins.py:242-260 | On well-typed values of one type, `equals` never fails and is structural equality: scalars by value, lists by type, length and pairwise equality |
| Builtins.ValueEquals | src/chatbot2k/scripting_engine/types/builtins.py:242-260 | The comparison behind `equals` and `contains`. ValueEqualsIsEquality states that on values of one type it never fails and is structural equality |
| Builtins.AllEqualIsEquality | src/chatbot2k/scripting_engine/types/builtins.py:252-260 | Two equally long lists of one type compare element by element to plain equality |
| Builtins.AnyEqualIsMembership | src/chatbot2k/scripting_engine/types/builtins.py:228-239 | The list search of `contains` finds a needle of the element type exactly when it is among the elements |
| Builtins.NumbersOf | src/chatbot2k/scripting_engine/types/builtins.py:340-361 | The number arguments of `min` and `max` are read in order, and reading fails exactly when one argument is not a Number |
| Builtins.Minimum | src/chatbot2k/scripting_engine/types/builtins.py:331-361 | The minimum is one of the numbers and at most each of them |
| Builtins.Maximum | src/chatbot2k/scripting_engine/types/builtins.py:365-395 | The maximum is one of the numbers and at least each of them |
| Builtins.LengthCounts | src/chatbot2k/scripting_engine/types/builtins.py:91-110 | `length` of a string or list prints, in decimal, the number of characters or of elements |
| Builtins.ContainsMeaning | src/chatbot2k/scripting_engine/types/builtins.py:208-239 | `contains` tests substring on two strings, membership for a needle of a list's element type, and fails for a needle of another type |
| Builtins.ExtremumOfNumbers | src/chatbot2k/scripting_engine/types/builtins.py:340-395 | `min` and `max` of Number arguments succeed with one of the arguments that is at most (at least) every argument |
| Builtins.ExtremumOfList | src/chatbot2k/scripting_engine/types/builtins.py:340-395 | A single list argument must hold Numbers (else a type error) and must be non-empty (else a value error); then the result is its smallest (largest) element |
| Builtins.SqrtDomain | src/chatbot2k/scripting_engine/types/builtins.py:456-474 | `sqrt` fails exactly on a negative number |
| Builtins.RoundingPrintsIntegers | src/chatbot2k/scripting_engine/types/builtins.py:399-452 | `round` prints the nearest integer with ties to even, `floor` the integer below, `ceil` the integer above, all without a fractional part |
| Builtins.CaseMapping | src/chatbot2k/scripting_engine/types/builtins.py:114-148 | `upper` and `lower` of a string print it with the case of every ASCII letter changed and its length kept; lower-casing what `upper` printed is lower-casing the argument |
| Builtins.TrimMeaning | src/chatbot2k/scripting_engine/types/builtins.py:152-167 | `trim` prints the string stripped, so that the result neither starts nor ends with whitespace |
| Builtins.ReplaceMeaning | src/chatbot2k/scripting_engine/types/builtins.py:171-204 | `replace` with a non-empty target prints the text split on the target and joined with the replacement; a text without the target comes back unchanged |
| Builtins.AffixMeaning | src/chatbot2k/scripting_engine/types/builtins.py:264-308 | `starts_with` (`ends_with`) prints `true` exactly when the second string is a prefix (suffix) of the first, and `false` otherwise |
| Builtins.AffixOfConcatenation | src/chatbot2k/scripting_engine/types/builtins.py:264-308 | A string built as `p + t` starts with `p`, and one built as `t + p` ends with `p` |
| Builtins.AbsMeaning | src/chatbot2k/scripting_engine/types/builtins.py:312-327 | `abs` of a Number prints its magnitude, never with a minus sign |
| Builtins.AbsOfNegation | src/chatbot2k/scripting_engine/types/builtins.py:312-327 | `abs` prints the same text for a number and its negation |
| Builtins.ReadFileMeaning | src/chatbot2k/scripting_engine/types/builtins.py:563-587 | `read_file` succeeds exactly when the host has contents for the path, prints those contents, and otherwise fails naming the path |
| Builtins.StringArgumentRequired | src/chatbot2k/scripting_engine/types/builtins.py:114-167 | `upper`, `lower`, `trim`, `date` and `read_file` give a type error for an argument that is not a String |
| Builtins.StringArgumentsRequired | src/chatbot2k/scripting_engine/types/builtins.py:171-308 | `starts_with`, `ends_with` and `replace` give a type error when any of their checked arguments is not a String |
| Builtins.NumberArgumentRequired | src/chatbot2k/scripting_engine/types/builtins.py:312-525 | `abs`, `round`, `floor`, `ceil`, `sqrt`, `pow` and `random` give a type error for an argument that is not a Number |
| Sorting.Merge | src/chatbot2k/scripting_engine/types/expressions.py:1006-1019 | A merge that succeeds holds exactly the elements of both runs |
| Sorting.MergeSort | src/chatbot2k/scripting_engine/types/expressions.py:998-1020 | A merge sort that succeeds is a permutation of its input |
| Sorting.NumericCompare | src/chatbot2k/scripting_engine/types/expressions.py:987-995 | The default comparison succeeds exactly on two Numbers, and puts the left one first exactly when it is not greater |
| Sorting.MergeSorted | src/chatbot2k/scripting_engine/types/expressions.py:1006-1019 | Merging two ascending runs of Numbers succeeds and yields an ascending run of their combined length starting with one of the two heads |
| Sorting.SortNumbersSorted | src/chatbot2k/scripting_engine/types/expressions.py:984-1023 | The default sort of a list of Numbers succeeds with an ascending permutation of the list |
| Sorting.SortNumbers | src/chatbot2k/scripting_engine/types/expressions.py:984-1023 | The default sort. SortNumbersSorted states it gives an ascending permutation of a list of Numbers, SortNumbersNeedsNumbers that it fails on anything else, and SortNumbersIdempotent that sorting twice is sorting once |
| Sorting.SortNumbersStep | src/chatbot2k/scripting_engine/types/expressions.py:998-1004 | The default sort of two or more values sorts the halves split at the middle and merges them, and fails if either step fails |
| Sorting.SortNumbersNeedsNumbers | src/chatbot2k/scripting_engine/types/expressions.py:987-990 | The default sort of two or more values fails when any of them is not a Number |
| Sorting.SortNumbersIdempotent | src/chatbot2k/scripting_engine/types/expressions.py:984-1023 | Sorting a sorted list of Numbers again changes nothing |
| Sorting.SortedUnchanged | src/chatbot2k/scripting_engine/types/expressions.py:998-1020 | Sorting a list already in ascending order returns it unchanged, because ties keep the left element first |
| Sorting.MergeOrderedRuns | src/chatbot2k/scripting_engine/types/expressions.py:1010-1019 | Two runs whose concatenation is ascending merge into that concatenation |
| Ast.IsNotEmpty | src/chatbot2k/scripting_engine/types/statements.py:155-158 | The statement-list validator accepts exactly the non-empty lists, returning them unchanged, and raises a value error on the empty one |
| Parser.Peek | src/chatbot2k/scripting_engine/parser.py:608-609 | Any token the cursor shows other than end-of-input is the token at the cursor |
| Parser.Accept | src/chatbot2k/scripting_engine/parser.py:617-620 | Matching succeeds exactly when the token at the cursor has the kind, and then moves one token on |
| Parser.Expect | src/chatbot2k/scripting_engine/parser.py:622-626 | Expecting succeeds exactly when matching does, yielding that token; otherwise the error names what was wanted at the cursor |
| Parser.BinaryOpOf | src/chatbot2k/scripting_engine/parser.py:213-229 | Every token that names a binary operator has an infix rule in the parser table |
| Parser.FindStore | src/chatbot2k/scripting_engine/parser.py:526-529 | The store search finds a declaration exactly when the name is a declared store, and then the declaration of that name |
| Parser.FindVar | src/chatbot2k/scripting_engine/parser.py:539-542 | The variable search finds a definition exactly when the name is a variable in scope, and then that definition |
| Parser.ResolveIdentifier | src/chatbot2k/scripting_engine/parser.py:520-550 | A name resolves to a store first, then a parameter, then a variable in scope, carrying the declared type; a name that is none of these is an unknown-variable error |
| Parser.EnsureFresh | src/chatbot2k/scripting_engine/parser.py:880-903 | A new variable is accepted exactly when its name is no store, no parameter and no variable in scope, and each clash has its own error, stores checked first |
| Parser.Reify | src/chatbot2k/scripting_engine/parser.py:958-971 | Giving an empty-list literal a list type yields a list literal of that type with well-formed, name-free elements; below a list of scalars it succeeds only for a literal with no inner lists |
| Parser.ReifyAll | src/chatbot2k/scripting_engine/parser.py:958-971 | Every inner empty-list literal is given the element type, with one result per literal |
| Parser.InferElementType | src/chatbot2k/scripting_engine/parser.py:709-725 | The inferred element type is the type of the first element that is not an empty-list literal, and every other such element has it; none is inferred only when all elements are empty-list literals |
| Parser.ReifyElements | src/chatbot2k/scripting_engine/parser.py:737-745 | Empty-list elements are given the element type and every other element is kept |
| Parser.BuildList | src/chatbot2k/scripting_engine/parser.py:689-748 | `[]` and lists of only empty-list literals stay untyped empty-list literals; any other list literal keeps its typed elements and gives every element the common element type |
| Parser.CheckCondition | src/chatbot2k/scripting_engine/parser.py:642-665 | A ternary condition is accepted exactly when it is a Bool, and another type is reported as a ternary-condition type error |
| Parser.MakeTernary | src/chatbot2k/scripting_engine/parser.py:642-665 | A ternary is built exactly when both branches have one type, which becomes the ternary's type; different branch types are an error naming both |
| Parser.MakeCall | src/chatbot2k/scripting_engine/parser.py:667-687 | A call is built exactly when the callee is a String; another callee type is not callable |
| Parser.MakeSubscript | src/chatbot2k/scripting_engine/parser.py:750-774 | A subscript is built exactly for a string or list operand and a Number index, with the type of a character or an element |
| Parser.IterationType | src/chatbot2k/scripting_engine/parser.py:782-790 | A `for` or `collect` variable gets the element type of an iterable string or list, and any other iterable is rejected |
| Parser.ParseExpr | src/chatbot2k/scripting_engine/parser.py:503-518 | A parsed expression consumes at least one token, every node passed its type check and every name in it is a store, parameter or variable in scope |
| Parser.ParseInfixLoop | src/chatbot2k/scripting_engine/parser.py:510-518 | The infix loop keeps the expression well formed and never moves backwards |
| Parser.ParsePrefix | src/chatbot2k/scripting_engine/parser.py:905-950 | A prefix rule consumes at least one token and yields a well-formed expression |
| Parser.ParseListLiteral | src/chatbot2k/scripting_engine/parser.py:689-748 | A list literal is well formed: its elements have one type and its names are in scope |
| Parser.Literal | src/chatbot2k/scripting_engine/parser.py:552-580 | A literal token gives a string, number or bool literal: the Bool of "true" or "false", the value of a number lexeme, the decoded text of a string lexeme |
| Parser.ParseInfix | src/chatbot2k/scripting_engine/parser.py:905-950 | An infix rule consumes its token and more, and yields a well-formed expression |
| Parser.ParseBinary | src/chatbot2k/scripting_engine/parser.py:628-640 | The right operand is read at the operator's own level and the binary node is well formed |
| Parser.ParseCall | src/chatbot2k/scripting_engine/parser.py:667-687 | A call is well formed: a String callee and arguments whose names are in scope |
| Parser.ParseTernary | src/chatbot2k/scripting_engine/parser.py:642-665 | A ternary is well formed: a Bool condition and branches of one type |
| Parser.ParseSubscript | src/chatbot2k/scripting_engine/parser.py:750-774 | A subscript is well formed: an indexable operand and a Number index |
| Parser.ParseElements | src/chatbot2k/scripting_engine/parser.py:689-706 | Every element read is well formed and at least the closing token is consumed |
| Parser.ParseComprehension | src/chatbot2k/scripting_engine/parser.py:776-822 | A comprehension is well formed, its variable in scope only in the filter and the body |
| Parser.ParseComprehensionRest | src/chatbot2k/scripting_engine/parser.py:795-822 | With the variable pushed for the filter and the body only, the comprehension built is well formed in the outer scope |
| Parser.ParseFilter | src/chatbot2k/scripting_engine/parser.py:808-812 | A filter, when present, is a well-formed Bool |
| Parser.ParseCollect | src/chatbot2k/scripting_engine/parser.py:824-878 | A `collect` is well formed: accumulator and element in scope only in the body, which has the element type |
| Parser.ListGood | src/chatbot2k/scripting_engine/parser.py:689-748 | A list literal built from well-formed elements is well formed |
| Parser.ParseDataType | src/chatbot2k/scripting_engine/parser.py:483-501 | A type spelling consumes at least one token |
| Parser.ResolveTarget | src/chatbot2k/scripting_engine/parser.py:379-424 | An assignment target is the store of that name with its type, else the parameter, else the variable in scope; a name that is none is an unknown-variable error |
| Parser.MakeAssignment | src/chatbot2k/scripting_engine/parser.py:379-424 | An assignment is built exactly when the value has the target's type, and otherwise is an assignment type error naming both types |
| Parser.MakeDefinition | src/chatbot2k/scripting_engine/parser.py:447-481 | A `LET` binds its name at the initializer's type, which must equal the annotation; an empty-list literal needs a list annotation, and without one it is an error |
| Parser.DefinitionGood | src/chatbot2k/scripting_engine/parser.py:447-481 | The initializer of a built `LET` stays well formed in the scope it was read in |
| Parser.ParseAnnotation | src/chatbot2k/scripting_engine/parser.py:456-460 | An optional annotation never moves backwards |
| Parser.ParseStatement | src/chatbot2k/scripting_engine/parser.py:349-364 | A statement is a well-formed `PRINT`, assignment or `LET`; any other leading token is an expected-statement error |
| Parser.ParsePrint | src/chatbot2k/scripting_engine/parser.py:366-377 | `PRINT` takes a well-formed expression that has a type |
| Parser.ParseAssignment | src/chatbot2k/scripting_engine/parser.py:379-424 | An assignment's value is well formed and has the target's type, and the target resolves with stores before parameters before variables |
| Parser.ParseDefinition | src/chatbot2k/scripting_engine/parser.py:426-481 | A `LET` is well formed and its name is new in its scope |
| Parser.ParseStatements | src/chatbot2k/scripting_engine/parser.py:331-347 | Statements are read up to the end of input, each well formed in the scope left by the ones before it |
| Parser.DefinedNamesFresh | src/chatbot2k/scripting_engine/parser.py:433-445 | The names bound by `LET`s are pairwise distinct and none is a store, a parameter or an outer variable |
| Parser.ParseStore | src/chatbot2k/scripting_engine/parser.py:289-311 | A store's name is new among the earlier stores, and its initializer sees only the earlier stores (no parameters, no variables) |
| Parser.ParseStores | src/chatbot2k/scripting_engine/parser.py:283-287 | The store list grows from the stores given, keeps names distinct and initializers in scope, and stops before any `STORE` |
| Parser.ParseParamNames | src/chatbot2k/scripting_engine/parser.py:313-329 | The parameter names are distinct and none is a store |
| Parser.ParseParams | src/chatbot2k/scripting_engine/parser.py:313-329 | Without `PARAMS` there are no parameters; otherwise they are distinct and none is a store |
| Parser.Parse | src/chatbot2k/scripting_engine/parser.py:272-281 | A parsed script has its name and at least one statement; stores are distinct and see only earlier stores; parameters are distinct and no store; statements are well formed; `LET` names are distinct and clash with no store or parameter |
| ParserLaws.BinaryGood | src/chatbot2k/scripting_engine/parser.py:628-640 | The parser makes no type check on a binary node: two well-formed operands make a well-formed binary expression |
| ParserLaws.LiteralPrefix | src/chatbot2k/scripting_engine/parser.py:503-518 | An expression that starts with a literal reads the literal, then runs the infix loop on it |
| ParserLaws.LoopAtEnd | src/chatbot2k/scripting_engine/parser.py:510-518 | The infix loop stops at the end of input and returns what it has |
| ParserLaws.LoopStops | src/chatbot2k/scripting_engine/parser.py:510-518 | The infix loop stops before an operator that binds no tighter than the level it runs at |
| ParserLaws.BinaryToken | src/chatbot2k/scripting_engine/parser.py:905-950 | Every binary operator token is in the parser table, starts no other infix rule and binds tighter than UNKNOWN |
| ParserLaws.InfixIsBinary | src/chatbot2k/scripting_engine/parser.py:628-640 | A binary operator's infix rule reads the right operand at the operator's own level |
| ParserLaws.LoopTakes | src/chatbot2k/scripting_engine/parser.py:510-518 | The infix loop takes an operator that binds tighter than its level and continues with the combined expression |
| ParserLaws.BinaryOperand | src/chatbot2k/scripting_engine/parser.py:628-640 | A binary rule builds the node of the left operand, the operator and the operand read next |
| ParserLaws.TakeOperator | src/chatbot2k/scripting_engine/parser.py:510-518 | Taking an operator continues the loop after its right operand with the combined, well-formed expression |
| ParserLaws.GroupsLeft | src/chatbot2k/scripting_engine/parser.py:628-640 | In `a o1 b o2 c` with `o1` binding at least as tightly as `o2`, the result is `(a o1 b) o2 c` |
| ParserLaws.GroupsRight | src/chatbot2k/scripting_engine/parser.py:628-640 | In `a o1 b o2 c` with `o2` binding more tightly, the result is `a o1 (b o2 c)` |
| ParserLaws.OperatorGrouping | src/chatbot2k/scripting_engine/parser.py:503-518 | Binary operators of one level group to the left, and a tighter operator takes its operands first, for every pair of binary operators between three literals |
| ParserLaws.TypeTokens | src/chatbot2k/scripting_engine/parser.py:483-501 | Every type is spelled with at least one token |
| ParserLaws.ListTypeStep | src/chatbot2k/scripting_engine/parser.py:495-499 | `list<t>` reads as the list type of whatever `t` reads as |
| ParserLaws.ListSpelling | src/chatbot2k/scripting_engine/parser.py:495-499 | A list type is spelled `list`, `<`, its element type's spelling, `>` |
| ParserLaws.DataTypeRoundTrip | src/chatbot2k/scripting_engine/parser.py:483-501 | Reading the spelling of any type gives the type back and stops right after the spelling, wherever it sits |
| ParserLaws.StoreAfterParams | src/chatbot2k/scripting_engine/parser.py:272-281 | A `STORE` after the parameter list is rejected as an expected statement |
| ParserLaws.NoStatements | src/chatbot2k/scripting_engine/parser.py:343-347 | Declarations followed by the end of input are rejected: at least one statement is expected |
| ParserLaws.EmptyScript | src/chatbot2k/scripting_engine/parser.py:343-347 | An empty script is rejected for lack of a statement |
| ParserLaws.NestedComprehensionRejected | src/chatbot2k/scripting_engine/parser.py:813-816 | A comprehension body that starts with `for` is rejected: nested comprehensions need parentheses |
| ParserLaws.ParsedStatementsValidate | src/chatbot2k/scripting_engine/types/ast.py:37 | A parsed script always has at least one statement, so it passes the statement-list validator unchanged |
| Interpreter.CurrentScript | src/chatbot2k/scripting_engine/types/expressions.py:166-169 | The running script is the top of the call stack, and there is none on an empty stack |
| Interpreter.LookupStore | src/chatbot2k/scripting_engine/types/expressions.py:162-180 | A store reads successfully exactly when the current script has a value under that store name of the declared type, and yields that value |
| Interpreter.LookupParam | src/chatbot2k/scripting_engine/types/expressions.py:196-210 | A parameter reads successfully exactly when it is defined and holds a String, and yields it |
| Interpreter.LookupVar | src/chatbot2k/scripting_engine/types/expressions.py:226-240 | A variable reads successfully exactly when it is bound to a value of the declared type, and yields it |
| Interpreter.Items | src/chatbot2k/scripting_engine/types/expressions.py:781-806 | Only strings and lists can be iterated: a list yields its elements, a string its one-character strings in order |
| Interpreter.Eval | src/chatbot2k/scripting_engine/types/expressions.py:60-68 | In the corrected reading no expression changes the variables (the as-written reading leaves loop variables bound) |
| Interpreter.EvalUnary | src/chatbot2k/scripting_engine/types/expressions.py:314-400 | A unary operation, `!` included, leaves the variables unchanged in the corrected reading; UnaryResultKind gives the kind of value each operator yields, and in the as-written reading `$` is the conversion as written |
| Interpreter.UnaryResultKind | src/chatbot2k/scripting_engine/types/expressions.py:314-400 | A unary operation that succeeds yields a String for `!` and `#`, a Number for `+`, `-` and `$`, and a Bool for `not` and `?` |
| Interpreter.EvalCall | src/chatbot2k/scripting_engine/types/expressions.py:637-657 | A call, to a builtin or another script, leaves the variables unchanged in the corrected reading |
| Interpreter.EvalFor | src/chatbot2k/scripting_engine/types/expressions.py:781-806 | A comprehension leaves the variables unchanged in the corrected reading: its variable is scoped to the filter and body |
| Interpreter.EvalCollect | src/chatbot2k/scripting_engine/types/expressions.py:831-856 | A `collect` leaves the variables unchanged in the corrected reading: accumulator and element are scoped to the body |
| Interpreter.EvalSplit | src/chatbot2k/scripting_engine/types/expressions.py:878-899 | `split` leaves the variables unchanged in the corrected reading |
| Interpreter.EvalJoin | src/chatbot2k/scripting_engine/types/expressions.py:920-946 | `join` leaves the variables unchanged in the corrected reading |
| Interpreter.EvalSort | src/chatbot2k/scripting_engine/types/expressions.py:971-1083 | `sort` leaves the variables unchanged in the corrected reading: its two comparison variables are scoped |
| Interpreter.EvalSeq | src/chatbot2k/scripting_engine/types/expressions.py:698-705 | Evaluating a list of expressions left to right yields one value per expression |
| Interpreter.EvalTextArgs | src/chatbot2k/scripting_engine/types/builtins.py:171-204 | The arguments of `replace` are checked as they are evaluated: each must be a String |
| Interpreter.CallBuiltin | src/chatbot2k/scripting_engine/types/builtins.py:62-87 | With an accepted argument count, `type` reports its argument's static type without evaluating it, `replace` reads its arguments as Strings and every other builtin evaluates its arguments in order; in the corrected reading no builtin changes the variables. The contract gives that frame; StatementLaws.TypeIsStatic and StatementLaws.ArityCheckedFirst give the `type` case and the arity check |
| Interpreter.CallScript | src/chatbot2k/scripting_engine/types/expressions.py:650-657 | Calling another script leaves the variables unchanged in the corrected reading |
| Interpreter.EvalDelimiter | src/chatbot2k/scripting_engine/types/expressions.py:878-899 | A missing delimiter is the default one and evaluates nothing |
| Interpreter.EvalComprehension | src/chatbot2k/scripting_engine/types/expressions.py:787-805 | A comprehension yields at most one value per item, and exactly one per item when it has no filter |
| Interpreter.EvalFilter | src/chatbot2k/scripting_engine/types/expressions.py:789-798 | A comprehension without filter keeps every item |
| Interpreter.EvalKept | src/chatbot2k/scripting_engine/types/expressions.py:795-798 | An item that passes the filter contributes one value, and one that fails contributes none |
| Interpreter.EvalFold | src/chatbot2k/scripting_engine/types/expressions.py:838-856 | A fold over no items yields its seed |
| Interpreter.CompareWith | src/chatbot2k/scripting_engine/types/expressions.py:1026-1051 | A custom comparison yields -1, 0 or 1 |
| Interpreter.EvaluateCode | src/chatbot2k/scripting_engine/types/expressions.py:350-369 | `!code` succeeds only for code that the mode's tokenizer accepts: as written the tokenizer as written, corrected the fixed one; EvaluateCodeChecks states the failures |
| Interpreter.Lex | src/chatbot2k/scripting_engine/types/expressions.py:350-353 | The tokenizer a mode uses for `!`: the one as written in the as-written reading, the fixed one in the corrected reading |
| Interpreter.EvaluateCodeChecks | src/chatbot2k/scripting_engine/types/expressions.py:350-369 | `!code` fails with "evaluation failed" when the code does not tokenize or does not parse; when it succeeds, the code parsed as a script without stores or parameters |
| Interpreter.TokenizeReady | src/chatbot2k/scripting_engine/lexer.py:110-115 | Every token list either tokenizer returns ends with the end-of-input token, as the parser requires |
| Interpreter.ExecStmt | src/chatbot2k/scripting_engine/types/statements.py:26-152 | A statement prints exactly when it is a `PRINT`, and no statement changes the call stack |
| Interpreter.AppendOutput | src/chatbot2k/scripting_engine/types/ast.py:42-45 | The collected output is absent exactly when nothing has been printed so far |
| Interpreter.ExecStmts | src/chatbot2k/scripting_engine/types/ast.py:42-45 | Running the statements in order never changes the call stack |
| Interpreter.RequiredStores | src/chatbot2k/scripting_engine/types/ast.py:48-54 | The required store keys are exactly the pairs of the script's name and a declared store's name |
| Interpreter.RunScript | src/chatbot2k/scripting_engine/types/ast.py:39-46 | Runs a script's statements on the stores and parameters and returns the collected output. StatementLaws.RunScriptOutputs states that the output is absent exactly when the script has no `PRINT`, and StatementLaws.RunScriptPrints what a script of literal `PRINT`s returns |
| InterpreterLaws.ReadBound | src/chatbot2k/scripting_engine/types/expressions.py:226-240 | A variable just bound reads back as its value |
| InterpreterLaws.ComprehensionStep | src/chatbot2k/scripting_engine/types/expressions.py:794-798 | A comprehension binds its variable to the first item, tests the filter, evaluates the body when it passes, then continues with the other items |
| InterpreterLaws.ComprehensionCopies | src/chatbot2k/scripting_engine/types/expressions.py:794-798 | `for xs as x yeet x` over items of one type yields the items unchanged |
| InterpreterLaws.ForYieldsElements | src/chatbot2k/scripting_engine/types/expressions.py:781-806 | The identity comprehension over a list variable yields that list |
| InterpreterLaws.ForSplitsString | src/chatbot2k/scripting_engine/types/expressions.py:788-792 | The identity comprehension over a string yields its characters, in order, as one-character strings |
| InterpreterLaws.ImagesAppend | src/chatbot2k/scripting_engine/types/expressions.py:794-798 | Mapping the body over two runs of items is mapping it over each and concatenating |
| InterpreterLaws.ComprehensionIsFilterThenMap | src/chatbot2k/scripting_engine/types/expressions.py:781-806 | Where filter and body are defined on every item, a comprehension is the body mapped over exactly the items that pass the filter, in iteration order |
| InterpreterLaws.FalseFilterKeepsNothing | src/chatbot2k/scripting_engine/types/expressions.py:790-797 | A filter that is always false yields the empty list |
| InterpreterLaws.FoldStep | src/chatbot2k/scripting_engine/types/expressions.py:849-852 | A fold binds the accumulator and the element, and the body's value becomes the next accumulator |
| InterpreterLaws.FoldSumsFrom | src/chatbot2k/scripting_engine/types/expressions.py:849-853 | Folding with `acc + x` over Numbers from a seed gives the seed plus their total |
| InterpreterLaws.CollectListSeeds | src/chatbot2k/scripting_engine/types/expressions.py:845-853 | A fold over a non-empty list is a left fold seeded with the first element over the remaining ones |
| InterpreterLaws.CollectSums | src/chatbot2k/scripting_engine/types/expressions.py:845-853 | `collect xs as acc, x with acc + x` over a non-empty list of Numbers gives their total |
| InterpreterLaws.CollectEmptyFails | src/chatbot2k/scripting_engine/types/expressions.py:845-848 | A fold over the empty list fails |
| InterpreterLaws.FoldConcatenates | src/chatbot2k/scripting_engine/types/expressions.py:838-844 | Folding a string with `acc + x` appends its characters, in order, to the accumulator |
| InterpreterLaws.CollectRebuildsString | src/chatbot2k/scripting_engine/types/expressions.py:838-844 | A fold over a string is seeded with the empty string, so `acc + x` rebuilds the string |
| InterpreterLaws.TextsOfStringValues | src/chatbot2k/scripting_engine/types/expressions.py:895-897 | Turning the parts of a split into Strings and back gives the parts |
| InterpreterLaws.SplitParts | src/chatbot2k/scripting_engine/types/expressions.py:878-899 | `split(s, d)` is the list of the parts of s between occurrences of d, as Strings |
| InterpreterLaws.JoinSplitRoundTrip | src/chatbot2k/scripting_engine/types/expressions.py:920-946 | Joining the parts of `split(s, d)` with d gives s back |
| InterpreterLaws.SplitEmptyDelimiter | src/chatbot2k/scripting_engine/types/expressions.py:895 | Splitting on the empty delimiter fails, as Python's `split` raises a value error |
| InterpreterLaws.SortOrders | src/chatbot2k/scripting_engine/types/expressions.py:971-1023 | Sorting a list of Numbers with the default comparison gives an ascending permutation of it, still a list of Numbers |
| InterpreterFindings.LoopOverA | src/chatbot2k/scripting_engine/types/expressions.py:794-798 | As written a comprehension leaves its variable bound to the last item; corrected, the variables are as before |
| InterpreterFindings.ListingRuns | src/chatbot2k/scripting_engine/types/expressions.py:794-798 | A `LET` whose initializer is a comprehension over 'a' binds its name and, as written, the loop variable too |
| InterpreterFindings.LoopVariableLeaks | src/chatbot2k/scripting_engine/types/expressions.py:794-798 | As written, a `LET x` after a comprehension over x fails with "already defined", although the parser accepted it |
| InterpreterFindings.LoopVariableScoped | src/chatbot2k/scripting_engine/types/expressions.py:781-806 | With the loop variable scoped, the same script runs and prints |
| InterpreterFindings.StatementsBindOnlyTheirName | src/chatbot2k/scripting_engine/types/statements.py:134-152 | Corrected, a statement binds no variable except the one a `LET` defines |
| InterpreterFindings.ArgumentReadInCallee | src/chatbot2k/scripting_engine/types/expressions.py:650-651 | As written, a store argument of a script call is read after the callee is pushed on the call stack, so it is looked up under the callee and not found |
| InterpreterFindings.ArgumentReadInCaller | src/chatbot2k/scripting_engine/types/expressions.py:637-657 | With the arguments evaluated first, the store argument is read in the caller and the call returns the callee's output or its failure |
| StatementLaws.AssignStoreFrame | src/chatbot2k/scripting_engine/types/statements.py:79-95 | Assigning a store overwrites exactly the running script's key for that store, keeps every other key, parameter and variable, and prints nothing |
| StatementLaws.AssignStoreChecked | src/chatbot2k/scripting_engine/types/statements.py:79-95 | A store assignment fails when the running script has no such store, or when the stored value's type differs from the expression type |
| StatementLaws.AssignVarFrame | src/chatbot2k/scripting_engine/types/statements.py:110-122 | Assigning a variable overwrites exactly that variable and keeps every other variable, the stores and the parameters |
| StatementLaws.AssignVarChecked | src/chatbot2k/scripting_engine/types/statements.py:110-122 | A variable assignment fails when the variable is unbound, or bound to a value of another type |
| StatementLaws.AssignParamFrame | src/chatbot2k/scripting_engine/types/statements.py:96-109 | Assigning a parameter overwrites exactly that parameter and keeps the stores and variables |
| StatementLaws.VarDefBinds | src/chatbot2k/scripting_engine/types/statements.py:134-152 | A `LET` of a fresh name binds it to the initializer's value and changes nothing else |
| StatementLaws.VarDefRejects | src/chatbot2k/scripting_engine/types/statements.py:142-150 | A `LET` of a bound name fails with "already defined", and one whose initializer has another type fails with a type mismatch |
| StatementLaws.PrintEmits | src/chatbot2k/scripting_engine/types/statements.py:50-59 | `PRINT` yields the printed form of the value and leaves the context as it was |
| StatementLaws.ExecStmtsAppend | src/chatbot2k/scripting_engine/types/ast.py:42-45 | Running `a + b` is running a, then b from where a left off with a's output |
| StatementLaws.ExecStmtsOutputs | src/chatbot2k/scripting_engine/types/ast.py:42-46 | The output is present exactly when there was output before or some statement is a `PRINT` |
| StatementLaws.RunScriptOutputs | src/chatbot2k/scripting_engine/types/ast.py:39-46 | A script's result is `None` exactly when it has no `PRINT` |
| StatementLaws.RunScriptPrints | src/chatbot2k/scripting_engine/types/ast.py:39-46 | A script of `PRINT`s of string literals returns their in-order concatenation, whatever the stores and parameters hold |
| StatementLaws.PrintsConcatenate | src/chatbot2k/scripting_engine/types/ast.py:42-45 | Printing texts one after the other appends each to the output in order |
| StatementLaws.ArityCheckedFirst | src/chatbot2k/scripting_engine/types/builtins.py:62-72 | A builtin called with a wrong argument count fails with the arity error before any argument is evaluated |
| StatementLaws.TypeIsStatic | src/chatbot2k/scripting_engine/types/builtins.py:76-87 | `type(e)` is the name of e's static type, and e is not evaluated |
| ChatCommands.Arguments | src/chatbot2k/types/chat_command.py:25-26 | Empty parts are dropped, so there are no more arguments than parts and none is empty |
| ChatCommands.ArgumentsOfWords | src/chatbot2k/types/chat_command.py:25-26 | Words that are already non-empty and space-free pass through unchanged, so the argument list is the words after the name |
| ChatCommands.FirstWord | src/chatbot2k/types/chat_command.py:21-22 | A text starting with a non-space character has at least one word, and the first word is its leading non-space run |
| ChatCommands.FromChatMessage | src/chatbot2k/types/chat_command.py:17-31 | No command unless the stripped text starts with `!` and has a non-empty name; a command's name is non-empty and keeps the source message |
| ChatCommands.NameOfWord | src/chatbot2k/types/chat_command.py:22 | The name read from a first word `!name` is the word without its one leading `!` |
| ChatCommands.FromChatMessageWords | src/chatbot2k/types/chat_command.py:17-31 | A command is recognised exactly when the stripped text starts with `!` and its first word is more than a bare `!`; the name is that word without the `!`, and the arguments are the remaining words |
| ChatCommands.CommandOfWords | src/chatbot2k/types/chat_command.py:21-26 | When the first word starts with `!`, the name is that word without the `!`, has no whitespace and is empty exactly for a bare `!`; the remaining words are the arguments unchanged |
| ChatCommands.CommandKeepsText | src/chatbot2k/types/chat_command.py:17-31 | Only whitespace is lost: the text without whitespace is `!`, the name and the arguments run together |
| ChatCommands.BareBangIsNoCommand | src/chatbot2k/types/chat_command.py:22-24 | A message that is just `!` is not a command |
| ParameterizedResponses.Put | src/chatbot2k/command_handlers/parameterized_response_command.py:97-100 | Writing a dict key keeps a present key at its position with the new value and appends a new key at the end |
| ParameterizedResponses.InjectArguments | src/chatbot2k/command_handlers/parameterized_response_command.py:95-96 | Injection fails exactly when there are fewer arguments than placeholders |
| ParameterizedResponses.HandleCommand | src/chatbot2k/command_handlers/parameterized_response_command.py:33-47 | No response exactly when injection fails; otherwise one response, to the source message, whose text is the injected template after message-level substitution |
| ParameterizedResponses.ReplacementsUsePrefix | src/chatbot2k/command_handlers/parameterized_response_command.py:97-100 | `zip` stops at the shorter list, so only the first arguments, one per placeholder, are used |
| ParameterizedResponses.ExtraArgumentsIgnored | src/chatbot2k/command_handlers/parameterized_response_command.py:95-105 | Arguments beyond the placeholders do not change the injected text |
| ParameterizedResponses.Pairs | src/chatbot2k/command_handlers/parameterized_response_command.py:97-100 | There is one replacement pair per placeholder |
| ParameterizedResponses.PairsKeys | src/chatbot2k/command_handlers/parameterized_response_command.py:97-100 | Pair i is the braced placeholder i with argument i |
| ParameterizedResponses.DistinctReplacements | src/chatbot2k/command_handlers/parameterized_response_command.py:97-100 | With distinct placeholders the replacement dict has one entry per placeholder, in order, with its positional argument |
| ParameterizedResponses.RepeatedPlaceholderTakesLastArgument | src/chatbot2k/command_handlers/parameterized_response_command.py:97-100 | A placeholder named twice keeps one entry, holding the later argument |
| ParameterizedResponses.ApplyAllIdentity | src/chatbot2k/command_handlers/parameterized_response_command.py:101-103 | Replacing each non-empty key by itself leaves the text unchanged |
| ParameterizedResponses.InjectPlaceholdersEchoes | src/chatbot2k/command_handlers/parameterized_response_command.py:95-105 | Passing the braced placeholders as the arguments gives back the template |
| ParameterizedResponses.InjectOne | src/chatbot2k/command_handlers/parameterized_response_command.py:95-105 | With one placeholder, every occurrence of it becomes the first argument and the rest of the template is kept |
| ParameterizedResponses.JoinEnds | src/chatbot2k/command_handlers/parameterized_response_command.py:57 | Words joined by spaces begin and end with a non-space character |
| ParameterizedResponses.StripUsage | src/chatbot2k/command_handlers/parameterized_response_command.py:57 | The usage line is `!name` and the braced placeholders joined by spaces, plus at most trailing space |
| ParameterizedResponses.UsageParses | src/chatbot2k/command_handlers/parameterized_response_command.py:57 | The usage line, sent as a chat message, is recognised as this command with the braced placeholders as its arguments |
| BroadcastText.Braced | src/chatbot2k/broadcasters/utils.py:6 | A placeholder is the name between one `{` and one `}` |
| BroadcastText.BracedInjective | src/chatbot2k/broadcasters/utils.py:6 | Different names give different placeholders |
| BroadcastText.ReplaceConstantsAppend | src/chatbot2k/broadcasters/utils.py:4-7 | Substituting constants a then b equals substituting a + b: later constants see what earlier ones wrote |
| BroadcastText.ReplaceOneConstant | src/chatbot2k/broadcasters/utils.py:4-7 | One constant keeps the text between occurrences of its placeholder and puts its text at each occurrence |
| BroadcastText.ReplaceConstantsAbsent | src/chatbot2k/broadcasters/utils.py:4-7 | A text mentioning none of the placeholders is unchanged |
| BroadcastText.ReplaceConstants | src/chatbot2k/broadcasters/utils.py:4-7 | Substitutes each constant's placeholder in turn. ReplaceConstantsAppend, ReplaceOneConstant, ReplaceConstantsAbsent and SelfReferentialConstants state what the substitution keeps and what it writes |
| BroadcastText.SelfReferentialConstants | src/chatbot2k/broadcasters/utils.py:4-7 | Constants whose text is their own placeholder change nothing |
| BroadcastText.RenderFillsBroadcaster | src/chatbot2k/types/live_notification.py:12-19 | Every `{broadcaster}` becomes the name and everything else, other placeholders included, stays verbatim |
| BroadcastText.RenderWithoutPlaceholder | src/chatbot2k/types/live_notification.py:12-19 | A template without `{broadcaster}` renders to itself |
| BroadcastText.Render | src/chatbot2k/types/live_notification.py:12-19 | Fills a template. RenderFillsBroadcaster states that every `{broadcaster}` becomes the name and nothing else changes, RenderWithoutPlaceholder that a template without it renders to itself |
| BroadcastText.RenderText | src/chatbot2k/types/live_notification.py:38-39 | A notification's text. RenderTextUsesDisplayName states that the display name fills the placeholder |
| BroadcastText.RenderTextUsesDisplayName | src/chatbot2k/types/live_notification.py:38-39 | A notification puts the broadcaster's display name, not the login or id, at every placeholder |
| Giveaway.Without | src/chatbot2k/command_handlers/giveaway_handler.py:136 | Removing the winner leaves exactly the other participants, one fewer, still without repetitions |
| Giveaway.Enter | src/chatbot2k/command_handlers/giveaway_handler.py:99-105 | Outside a running giveaway entry is refused; a repeated entry says nothing and changes nothing; a new entrant is announced and added, and nothing else changes |
| Giveaway.Start | src/chatbot2k/command_handlers/giveaway_handler.py:107-117 | A giveaway starts exactly when none is running, and then it is running with nobody in it; a running one is left as it is with the already-running reply |
| Giveaway.End | src/chatbot2k/command_handlers/giveaway_handler.py:119-123 | Only a running giveaway can end; ending keeps the participants |
| Giveaway.Pick | src/chatbot2k/command_handlers/giveaway_handler.py:125-137 | No pick while running, when idle or with no participants; otherwise the winner is one of the participants and is removed from them |
| Giveaway.Handle | src/chatbot2k/command_handlers/giveaway_handler.py:57-73 | Chats without giveaways get an empty reply; a missing or unknown subcommand gets none; `start`, `end` and `pick`, in any case, get exactly their one reply |
| Giveaway.HandleEnter | src/chatbot2k/command_handlers/giveaway_enter_handler.py:24-34 | The sender enters under their name and platform, on chats that support giveaways |
| Giveaway.EnterIdempotent | src/chatbot2k/command_handlers/giveaway_handler.py:102-103 | Entering a second time says nothing and changes nothing |
| Giveaway.SingleEntrantWins | src/chatbot2k/command_handlers/giveaway_handler.py:99-137 | After start, one entry and end, the only entrant wins whatever the draw, and a second pick finds nobody |
| Giveaway.StepsKeepValid | src/chatbot2k/command_handlers/giveaway_handler.py:99-137 | Any sequence of operations keeps the participants free of repetitions |
| Giveaway.RunningOnlyGrows | src/chatbot2k/command_handlers/giveaway_handler.py:57-73 | While a giveaway runs, no command removes a participant |
| CommandManagement.StripBangs | src/chatbot2k/command_handlers/command_management_command.py:92 | `lstrip("!")` removes exactly the leading run of `!`: what remains is a suffix that does not start with `!` |
| CommandManagement.FirstMatch | src/chatbot2k/command_handlers/command_management_command.py:105 | The first row whose name equals the given one ignoring case, or none exactly when no row matches |
| CommandManagement.RemoveFrom | src/chatbot2k/database/engine.py:216-221 | A table with one case-insensitive match loses exactly that row; with none it is unchanged and reports no removal; with two the one-or-none query fails |
| CommandManagement.RemoveCaseInsensitive | src/chatbot2k/database/engine.py:214-234 | Nothing is removed, and the tables are unchanged, exactly when no table of the four has a case-insensitive match |
| CommandManagement.AddTo | src/chatbot2k/database/engine.py:123-132 | Adding fails exactly when the exact name is already a primary key; otherwise the row is appended |
| CommandManagement.StripAll | src/chatbot2k/database/engine.py:159-160 | Each parameter is stripped, position by position |
| CommandManagement.Dedup | src/chatbot2k/database/engine.py:158-163 | The kept parameters are non-empty, pairwise distinct, and exactly the non-empty inputs |
| CommandManagement.CleanParameters | src/chatbot2k/database/engine.py:158-163 | A parameterized command keeps exactly the non-empty stripped parameters, each once |
| CommandManagement.AddOrUpdate | src/chatbot2k/command_handlers/command_management_command.py:86-146 | A name held by a soundboard command, ignoring case, is refused with the tables untouched; a refusal never changes the tables; success is reported exactly by the added or updated reply |
| CommandManagement.AddClip | src/chatbot2k/command_handlers/command_management_command.py:149-169 | Corrected: a built-in or handler name is refused as already existing; otherwise the clip row is appended, and the database fails exactly when the exact name is already a soundboard key |
| CommandManagement.AddClipAsWritten | src/chatbot2k/command_handlers/command_management_command.py:149-164 | As written, a handler name is refused as already existing, and every other name makes the call to the database fail, because `add_soundboard_command` takes no `clip_url` argument |
| CommandManagement.Remove | src/chatbot2k/command_handlers/command_management_command.py:172-192 | Success exactly when a row was removed; otherwise the tables are untouched and the reply tells a built-in apart from an unknown name |
| CommandManagement.Handle | src/chatbot2k/command_handlers/command_management_command.py:28-64 | No reply exactly when the subcommand is missing, unknown or short of arguments; otherwise `add`, `add-clip` (as written), `update` and `remove`, in any case, act on the name without its leading `!`s |
| CommandManagement.BangIsOptional | src/chatbot2k/command_handlers/command_management_command.py:92 | `!name` and `name` address the same command |
| CommandManagement.SubcommandIgnoresCase | src/chatbot2k/command_handlers/command_management_command.py:32 | The subcommand is matched ignoring case |
| CommandManagement.BuiltinsProtected | src/chatbot2k/command_handlers/command_management_command.py:110-114 | A handler's name that no table holds can be neither added, updated, clipped nor removed, and the tables stay as they were |
| CommandManagement.AddRemoveRoundTrip | src/chatbot2k/command_handlers/command_management_command.py:86-192 | Adding a static command and then removing it restores the tables |
| CommandManagement.ClipNeverAdded | src/chatbot2k/command_handlers/command_management_command.py:161-164 | As written, `!command add-clip name url` never changes the tables: it is refused or fails on the unexpected keyword |
| CommandManagement.ClipAddRemoveRoundTrip | src/chatbot2k/command_handlers/command_management_command.py:149-192 | Corrected, adding a clip under a free name succeeds, and removing it again restores the tables |
| CommandManagement.ChatAddRemoveRoundTrip | src/chatbot2k/command_handlers/command_management_command.py:28-64 | `!command add name text` followed by `!command remove name` restores the tables |
| CommandManagement.NoMatchNoName | src/chatbot2k/database/engine.py:216-218 | A table without a case-insensitive match has no exact one either |
| CommandManagement.RemoveFromSingle | src/chatbot2k/database/engine.py:216-221 | Removing a name that exactly one row matches deletes that row |
| CommandManagement.OnlyMatch | src/chatbot2k/command_handlers/command_management_command.py:101-105 | In tables whose names are distinct ignoring case, the matching row is the only one |
| CommandManagement.UpdateStaticNeverRaises | src/chatbot2k/command_handlers/command_management_command.py:126-133 | Updating a static command removes exactly its row, and the new name is then free in both tables |
| CommandManagement.UpdateParameterizedNeverRaises | src/chatbot2k/command_handlers/command_management_command.py:126-140 | Updating a parameterized command removes exactly its row, and the new name is then free in both tables |
| CommandManagement.AddOrUpdateNeverRaises | src/chatbot2k/command_handlers/command_management_command.py:86-146 | When static and parameterized names are distinct ignoring case, adding or updating never makes the database raise |
| Dictionaries.Due | src/chatbot2k/dictionary.py:55-63 | The due entries are exactly the entries the message mentions that are not in cooldown on its platform |
| Dictionaries.Explanations | src/chatbot2k/dictionary.py:76-82 | One `word: explanation` line per shown entry, in order |
| Dictionaries.Stamp | src/chatbot2k/dictionary.py:73-74 | Every shown word is stamped with the current instant; every other stamp is kept |
| Dictionaries.GetExplanations | src/chatbot2k/dictionary.py:53-94 | No reply, and no change, exactly when nothing is due; otherwise the due explanations, or the first three plus a note when more than four are due, between one and four lines; entries and cooldown are kept, and other platforms' stamps are untouched |
| Dictionaries.AddEntry | src/chatbot2k/dictionary.py:99-107 | Adding a word already present in any case violates the assertion; otherwise the entry is appended and no stamp changes |
| Dictionaries.Without | src/chatbot2k/dictionary.py:110 | The remaining entries are exactly those whose word differs from the removed one ignoring case |
| Dictionaries.RemoveEntryAsWritten | src/chatbot2k/dictionary.py:109-112 | As written, every case of the word leaves the entries, but only the platform's stamp filed under the exact spelling is dropped; the others are kept with their instants, and other platforms are untouched |
| Dictionaries.DropStamps | src/chatbot2k/dictionary.py:111 | Corrected: the stamps of every case of the word are dropped and the others kept |
| Dictionaries.RemoveEntry | src/chatbot2k/dictionary.py:109-112 | Corrected: the entries lose every case of the word, so do the platform's stamps, and other platforms are untouched |
| Dictionaries.RemoveEntryAgrees | src/chatbot2k/dictionary.py:109-112 | When the platform has no stamp under another case of the word, the removal as written and the corrected one agree |
| Dictionaries.Add | src/chatbot2k/command_handlers/dictionary_handler.py:66-78 | The word is added, with the added reply, exactly when no case of it is present; otherwise the dictionary is unchanged |
| Dictionaries.Remove | src/chatbot2k/command_handlers/dictionary_handler.py:80-88 | The word is removed, with the removed reply, exactly when some case of it is present, by `remove_entry` as written; otherwise the dictionary is unchanged and the reply says it cannot be removed |
| Dictionaries.Handle | src/chatbot2k/command_handlers/dictionary_handler.py:22-45 | Only `add` with three arguments and `remove` with two, subcommand in any case, are handled, and `remove` passes the lower-cased word on |
| Dictionaries.CooldownExpires | src/chatbot2k/dictionary.py:114-118 | A word never stamped, or stamped a cooldown or more ago, is not in cooldown |
| Dictionaries.RepeatIsQuiet | src/chatbot2k/dictionary.py:53-94 | Asking again at the same instant is quiet when nothing was capped: every explained word is then in cooldown |
| Dictionaries.PlatformsIndependent | src/chatbot2k/dictionary.py:73-74 | Explaining on one platform leaves every other platform's cooldowns as they were |
| Dictionaries.AddStep | src/chatbot2k/command_handlers/dictionary_handler.py:28-35 | `!dict add word text` for a new word appends it and replies that it was added |
| Dictionaries.RemoveStep | src/chatbot2k/command_handlers/dictionary_handler.py:36-43 | `!dict remove word` for a present word removes its lower-cased form with `remove_entry` as written |
| Dictionaries.AddThenRemove | src/chatbot2k/command_handlers/dictionary_handler.py:22-88 | Adding a word and removing it again, in any case, leaves it unknown |
| Dictionaries.SingleDue | src/chatbot2k/dictionary.py:64-94 | With exactly one entry due the reply is its single explanation |
| Dictionaries.RemovedWordKeepsStamp | src/chatbot2k/dictionary.py:109-112 | As written, `!dict remove API` lower-cases the word and so leaves the stamp filed under `API`; the re-added `API` stays silent while the old cooldown runs |
| Dictionaries.RemovedWordDropsStamp | src/chatbot2k/dictionary.py:109-112 | Corrected, the re-added `API` is explained at once |
| Soundboard.Handle | src/chatbot2k/command_handlers/soundboard_handlers.py:21-44 | No reply, and the switch is untouched, exactly when the subcommand is missing or neither `enable` nor `disable` in any case; otherwise the switch takes the requested value and the reply says which |
| Soundboard.LastCommandWins | src/chatbot2k/command_handlers/soundboard_handlers.py:21-44 | After a run of commands the soundboard is enabled exactly as the last recognised one asked, or as before when none was recognised |
| Soundboard.HandleIdempotent | src/chatbot2k/command_handlers/soundboard_handlers.py:21-44 | Repeating a command gives the same reply and state |
| EntranceSounds.ClipUrl | src/chatbot2k/entrance_sounds.py:65 | The clip address is `/`, the soundboard directory, `/` and the file name |
| EntranceSounds.ClipUrlInjective | src/chatbot2k/entrance_sounds.py:65 | Different file names give different clip addresses |
| EntranceSounds.GetEntranceSound | src/chatbot2k/entrance_sounds.py:43-71 | A sound is due exactly for a Twitch message from a sender not yet played this session who has an entrance sound; it is that sender's clip |
| EntranceSounds.Trigger | src/chatbot2k/entrance_sounds.py:35-37 | Triggering marks the sender as played and queues the clip at full volume |
| EntranceSounds.Reset | src/chatbot2k/entrance_sounds.py:73-75 | After a reset nobody counts as played |
| EntranceSounds.OncePerSession | src/chatbot2k/entrance_sounds.py:35-71 | Across a session each sender's sound plays at most once, only for senders not played before, and the played set only grows |
| EntranceSounds.TriggerSilencesUntilReset | src/chatbot2k/entrance_sounds.py:35-75 | Once triggered, the sender's sound is not due again until a reset, after which it is due as in a fresh session |
| Markdown.NextTick | src/chatbot2k/utils/markdown.py:95 | The position of the next backtick at or after a point, or none when no backtick follows |
| Markdown.InlineLength | src/chatbot2k/utils/markdown.py:95 | An inline code span is a backtick, non-backticks and the next backtick; there is none exactly when the text does not start with a backtick that a later one closes |
| Markdown.CodeSpanLength | src/chatbot2k/utils/markdown.py:95 | A code span starts with a backtick; a fence that a later fence closes is preferred, and there is a span exactly when there is an inline one |
| Markdown.NextSpecial | src/chatbot2k/utils/markdown.py:97 | The next `{`, `}` or newline at or after a point, or none |
| Markdown.BraceLength | src/chatbot2k/utils/markdown.py:97 | A braced group is `{`, characters other than braces and newlines, and `}`; there is none exactly when no prefix is one |
| Markdown.Wrap | src/chatbot2k/utils/markdown.py:114-125 | Wraps the allowed braced groups of a segment in backticks. WrapOnlyAddsTicks, WrapNothingAllowed, WrapWithoutBraces and WrapBraced state what it inserts and where |
| Markdown.Scan | src/chatbot2k/utils/markdown.py:127-135 | Walks the text past code spans and wraps what lies between them. ScanOnlyAddsTicks, ScanNothingAllowed, InlineCodeKept and FencedCodeKept state that code spans are kept verbatim and only backticks are added |
| Markdown.Quote | src/chatbot2k/utils/markdown.py:111-112 | No text or the empty text gives the empty string |
| Markdown.WrapOnlyAddsTicks | src/chatbot2k/utils/markdown.py:120-125 | Wrapping braced groups only inserts backticks: without them the text is unchanged |
| Markdown.ScanOnlyAddsTicks | src/chatbot2k/utils/markdown.py:127-135 | Scanning past code spans only inserts backticks |
| Markdown.QuoteOnlyAddsTicks | src/chatbot2k/utils/markdown.py:100-135 | Quoting only inserts backticks: removing every backtick from the result and from the input gives the same text |
| Markdown.WrapNothingAllowed | src/chatbot2k/utils/markdown.py:114-118 | With an empty set of names to wrap, a segment is unchanged |
| Markdown.ScanNothingAllowed | src/chatbot2k/utils/markdown.py:127-135 | With an empty set of names, the scanned text is unchanged |
| Markdown.QuoteNothingAllowed | src/chatbot2k/utils/markdown.py:100-135 | With an empty set of names, quoting returns the text unchanged |
| Markdown.WrapWithoutBraces | src/chatbot2k/utils/markdown.py:120-125 | A segment without `{` is unchanged |
| Markdown.BracedCloses | src/chatbot2k/utils/markdown.py:97 | A braced group ends at its first `}` |
| Markdown.WrapBraced | src/chatbot2k/utils/markdown.py:120-125 | A leading braced group is wrapped in backticks exactly when it should be, and the rest is wrapped on its own |
| Markdown.InlineCodeKept | src/chatbot2k/utils/markdown.py:129-133 | An inline code span is copied verbatim, the text before it wrapped and the text after it scanned afresh |
| Markdown.FencedCodeKept | src/chatbot2k/utils/markdown.py:129-133 | A fenced block is copied verbatim, the text before it wrapped and the text after it scanned afresh |
| Sse.PayloadLines | src/chatbot2k/utils/sse.py:7 | A payload always gives at least one data line: `splitlines` of the empty payload is replaced by one empty line |
| Sse.DataLines | src/chatbot2k/utils/sse.py:7-8 | Each payload line becomes one `data: ` line, in order |
| Sse.EncodeFraming | src/chatbot2k/utils/sse.py:4-11 | An event starts with `event: message` and CRLF and ends with two CRLFs |
| Sse.EncodeEmpty | src/chatbot2k/utils/sse.py:4-11 | The empty payload encodes as one event with an empty data line |
| Sse.PartsHaveNoBreak | src/chatbot2k/utils/sse.py:5-10 | No part of the event contains a carriage return, so the parts can be recovered by splitting on CRLF |
| Sse.DecodeEncode | src/chatbot2k/utils/sse.py:4-11 | Splitting the event on CRLF and stripping the `data: ` prefixes recovers the payload lines |
| Sse.Encode | src/chatbot2k/utils/sse.py:4-11 | Frames a payload as an event. EncodeFraming states the framing, EncodeEmpty the empty payload, and DecodeEncode that the payload lines are recovered |
| Smtp.FromString | src/chatbot2k/types/smtp_settings.py:15-25 | After stripping and lower-casing, empty, `tls` and `ssl` give no encryption, TLS and SSL, each exactly then; anything else fails with a message naming the raw value |
| Smtp.FromSpelling | src/chatbot2k/types/smtp_settings.py:15-25 | Each kind's spelling reads back as that kind |
| Smtp.PaddingIgnored | src/chatbot2k/types/smtp_settings.py:16 | Surrounding whitespace does not change the result |
| Config.StripIdempotent | src/chatbot2k/config.py:21 | Stripping twice is stripping once |
| Config.GetOrRaise | src/chatbot2k/config.py:17-21 | A value is returned exactly when the variable is set and not blank; it is the stripped value, non-empty and without surrounding whitespace; otherwise the error names the variable |
| Config.GetOrDefault | src/chatbot2k/config.py:24-31 | A missing or blank variable gives the default; a set one gives its non-empty stripped value |
| Config.DefaultReplacesError | src/chatbot2k/config.py:17-31 | The two readers agree: the default stands in exactly where the strict reader raises |
| Config.PaddedValueReadsTheSame | src/chatbot2k/config.py:19-21 | Whitespace around a value is never part of it |
| Config.FirstMatchFrom | src/chatbot2k/config.py:169-178 | The update a line is rewritten with is the first whose key the stripped line assigns, with or without `export ` |
| Config.RewriteLines | src/chatbot2k/config.py:166-180 | There is one output line per input line, each rewritten on its own |
| Config.Missing | src/chatbot2k/config.py:185-187 | The appended lines are exactly the `key=value` lines of the updates no line assigned |
| Config.TerminateLast | src/chatbot2k/config.py:183-184 | Only the last line can change, and only by gaining a `\n` when it was unterminated; afterwards it is terminated |
| Config.AssignmentReads | src/chatbot2k/config.py:171-175 | `key=value`, with or without `export `, reads back as that key and value |
| Config.WrittenLineReads | src/chatbot2k/config.py:172-175 | A written line, with any indentation, optional `export ` and optional `\n`, is one line that reads back as its update, terminated exactly when the `\n` is there |
| Config.RewrittenLineReads | src/chatbot2k/config.py:171-175 | A rewritten line reads back as its update and is terminated exactly when the original was, by the test in use |
| Config.EntryLineReads | src/chatbot2k/config.py:187 | An appended line is one terminated line that reads back as its update |
| Config.UpdatesAreWritten | src/chatbot2k/config.py:149-189 | Every update ends up in some output line that reads back as it, either rewritten in place or appended |
| Config.FoundUpdateWritten | src/chatbot2k/config.py:166-181 | An update whose key some line assigned is written into that line |
| Config.MissingUpdateWritten | src/chatbot2k/config.py:185-187 | An update whose key no line assigned is written into an appended line |
| Config.RewrittenAt | src/chatbot2k/config.py:166-184 | The line that first assigned an update's key reads back as that update after rewriting and terminating |
| Config.OtherLinesKept | src/chatbot2k/config.py:179-184 | Comments, blank lines and other assignments are copied unchanged, except that the last one may gain a `\n` |
| Config.UpdatedLinesSeparate | src/chatbot2k/config.py:162-187 | With the intended line-end test the output lines stay separate: none runs into the next |
| Config.UpdatedFileReadsBack | src/chatbot2k/config.py:149-189 | Corrected: splitting the written file gives back exactly the lines it was joined from, and every update is on a line of its own |
| Config.UpdatedFileSplits | src/chatbot2k/config.py:162-189 | Corrected: the written file splits back into the lines it was written from |
| Config.UpdateEnvFile | src/chatbot2k/config.py:149-189 | The `.env` rewrite with the intended line-end test. UpdatedFileReadsBack states that every update is on a line of its own and the lines split back, and OtherLinesKept that other lines are copied |
| Config.UpdateEnvFileAsWritten | src/chatbot2k/config.py:149-189 | The `.env` rewrite as written. FeedFileAsWritten and FeedMergesLines state that a line ended by a form feed runs into the next |
| Config.FeedFileUpdated | src/chatbot2k/config.py:174 | On a line ended by a form feed or another non-`\n` boundary, only the intended test keeps a terminator on the rewritten line |
| Config.FeedFileAsWritten | src/chatbot2k/config.py:174-189 | As written, such a line is rewritten without terminator and the next line's text runs onto the new value |
| Config.FeedMergesLines | src/chatbot2k/config.py:174 | As written, the file reads back as one line whose value is the new value followed by the next line's text, and the next line is lost |
| Config.FeedLinesKept | src/chatbot2k/config.py:174 | Corrected, both lines survive: the updated one and the next one unchanged |
| Timezones.Common | src/chatbot2k/utils/time_and_locale.py:17-18 | The kept zones are exactly those with one of the six region prefixes, or `UTC`; no repeats are introduced |
| Timezones.Insert | src/chatbot2k/utils/time_and_locale.py:17-19 | Inserting into a strictly sorted list keeps it strictly sorted, one longer, with the same members plus the new one |
| Timezones.Sort | src/chatbot2k/utils/time_and_locale.py:17-19 | `sorted` of distinct zones is strictly ascending with the same members |
| Timezones.Remove | src/chatbot2k/utils/time_and_locale.py:22 | Removing `UTC` from a sorted list of distinct zones leaves the other members, still sorted |
| Timezones.SortedDistinct | src/chatbot2k/utils/time_and_locale.py:17-19 | A strictly sorted list has no repeats |
| Timezones.CommonTimezones | src/chatbot2k/utils/time_and_locale.py:5-24 | Exactly the common zones, without repeats; `UTC`, when available, comes first and the rest ascend; without it the whole list ascends |
| Timezones.SortedUnique | src/chatbot2k/utils/time_and_locale.py:17-19 | Two strictly sorted lists with the same members are equal |
| Timezones.OrderIndependent | src/chatbot2k/utils/time_and_locale.py:7-24 | The result depends only on the set of available zones, not on the order they are enumerated in |
| PyStr.Strip | src/chatbot2k/config.py:21 | A stripped string neither starts nor ends with whitespace |
| PyStr.StripIsInnerSlice | src/chatbot2k/types/chat_command.py:18 | `strip` removes only whitespace, from both ends: the result is a slice of the input between all-space runs |
| PyStr.StripEmptyIffAllSpace | src/chatbot2k/config.py:19 | A string strips to the empty string exactly when it is all whitespace |
| PyStr.SplitWhitespace | src/chatbot2k/types/chat_command.py:21 | `split()` yields non-empty words without whitespace |
| PyStr.SplitWhitespaceKeepsText | src/chatbot2k/types/chat_command.py:21 | The words of `split()`, run together, are the text without its whitespace |
| PyStr.SplitWhitespaceOfJoin | src/chatbot2k/types/chat_command.py:21 | Splitting non-empty space-free words joined by single spaces gives the words back |
| PyStr.Find | src/chatbot2k/scripting_engine/types/expressions.py:895 | A found position is an occurrence of the substring |
| PyStr.FindFirst | src/chatbot2k/scripting_engine/types/expressions.py:895 | A position is found exactly when the substring occurs, and it is the first occurrence |
| PyStr.SplitOnPartsLackSeparator | src/chatbot2k/scripting_engine/types/expressions.py:895 | No part of `split(sep)` contains the separator |
| PyStr.SplitOn | src/chatbot2k/scripting_engine/types/expressions.py:895 | Python's `str.split(sep)`. SplitOnPartsLackSeparator states that no part contains the separator, JoinSplitRoundTrip that joining the parts gives the text back |
| PyStr.JoinSplitRoundTrip | src/chatbot2k/scripting_engine/types/expressions.py:895-946 | `sep.join(s.split(sep))` is s |
| PyStr.ReplaceIsJoinOfSplit | src/chatbot2k/broadcasters/utils.py:6 | `s.replace(t, r)` is the parts of s between occurrences of t joined with r |
| PyStr.ReplaceAbsent | src/chatbot2k/broadcasters/utils.py:6 | Replacing a substring that does not occur changes nothing |
| PyStr.ReplaceBySelf | src/chatbot2k/broadcasters/utils.py:6 | Replacing a substring by itself changes nothing |
| PyStr.Replace | src/chatbot2k/broadcasters/utils.py:6 | Python's `str.replace`. ReplaceIsJoinOfSplit states it is the parts between occurrences joined with the replacement, ReplaceAbsent and ReplaceBySelf when it changes nothing |
| PyStr.RemovePrefix | src/chatbot2k/types/chat_command.py:22 | `removeprefix` drops the prefix exactly when the string starts with it |
| PyStr.Lower | src/chatbot2k/command_handlers/command_management_command.py:32 | `lower` maps each ASCII capital to its small letter and keeps every other character, position by position |
| PyStr.Upper | src/chatbot2k/scripting_engine/types/builtins.py:129 | `upper` maps each ASCII small letter to its capital and keeps every other character, position by position, so the length is kept; Builtins.CaseMapping states that lower-casing the result is lower-casing the input |
| PyStr.LowerIdempotent | src/chatbot2k/command_handlers/dictionary_handler.py:84-85 | Lower-casing twice is lower-casing once |
| PyStr.SplitLinesKeepEnds | src/chatbot2k/config.py:162 | `splitlines(keepends=True)` yields non-empty lines |
| PyStr.SplitLinesKeepEndsConcat | src/chatbot2k/config.py:162 | The lines with their endings, joined, are the original text |
| PyStr.SplitLines | src/chatbot2k/utils/sse.py:7 | `splitlines()` yields as many lines as with the endings kept |
| PyStr.SplitLinesHaveNoBoundary | src/chatbot2k/utils/sse.py:7 | No line of `splitlines()` contains a line boundary |
| PyStr.SplitLinesAreSeparate | src/chatbot2k/config.py:162 | The lines of `splitlines(keepends=True)` do not run into each other: only a line's own ending can be a boundary |
| PyStr.IntToString | src/chatbot2k/scripting_engine/types/builtins.py:33-35 | An integer prints as a non-empty string that starts with `-` exactly when it is negative |
| PyStr.NatToStringRoundTrip | src/chatbot2k/scripting_engine/types/builtins.py:33-35 | The decimal digits of a natural number read back as that number |
| PyStr.IntToStringInjective | src/chatbot2k/scripting_engine/types/builtins.py:33-35 | Different integers print differently |
| PyStr.LexLessTransitive | src/chatbot2k/utils/time_and_locale.py:17 | Python's string order is transitive |
| PyStr.LexLessTotal | src/chatbot2k/utils/time_and_locale.py:17 | Any two different strings are ordered one way or the other |

## Left out

- Chat platforms, the web layer, email, the async main loop and live-notification scheduling are I/O and concurrency, not part of this model.
- The database is not modelled. Command tables, dictionary entries, entrance sounds and stored script values are plain values passed in and out. SQL uniqueness appears only where a handler depends on it: the primary key on add, and the one-or-none query on removal.
- The script-store write-back that follows a run, and `database_persistent_store.py`, are not part of this model. `Script.execute` only reads the stores.
- The `.env` file is not read, and the atomic write (temporary file, `fsync`, `os.replace`) is not modelled. `_update_env_file` is modelled on the file's text as `read_text` returns it, after universal-newline translation. `load_dotenv`, the `Config` properties and `reload` read the process environment, which is a map parameter here.
- The clock, the random source, `date` and its locale, `read_file`, `sqrt` and `pow` are supplied by the host as functions. Only what the engine does around them is modelled.
- Calls from a script to another script (`call_script`) go to the host's `callScript`. The callee's own run is not modelled there.
- Python's `str` of a non-integral float, IEEE rounding and overflow are left out, because numbers are exact reals.
- Numbers.FormatNumber: a non-integral number prints as its sign, integer part, a point and at most sixteen fractional digits with trailing zeros dropped. This is not Python's shortest round-trip representation of the double.
- Builtins.ApplyBuiltin: for `sqrt`, `pow`, `random`, `timestamp` and `date` on well-kinded arguments, the printed text is whatever the host function returns, formatted as a number for all but `date`; no lemma states more about those values, since the host stands for the math library, the random source and the clock.
- Interpreter.Eval: evaluation is bounded by `fuel`, and `OutOfFuel` stands for recursion the Python code would run until the script timeout or a recursion error. Its own contract states only that the corrected reading keeps the variables; what each kind of expression yields is stated by the laws in `interpreter_laws`, `statement_laws` and `interpreter_findings`.
- Interpreter.EvalUnary: its contract states only the frame. The value kinds are stated by Interpreter.UnaryResultKind, and the operator semantics by Operators.UnaryAgreesWithTypes on the corrected conversion.
- Interpreter.EvaluateCode: its contract states only that success needs the code to tokenize. The parse failure, the store and parameter checks are stated by Interpreter.EvaluateCodeChecks; the empty-output error is not stated separately.
- PyStr.Lower: only ASCII letters change case. Python's `lower` and `upper` also map non-ASCII letters.
- PyStr.Upper: only ASCII letters change case. Python's `upper` also maps non-ASCII letters, and some of them to several characters (`'ß'.upper()` is `'SS'`).
- Builtins.CaseMapping: the kept length and `Lower(Upper(s)) == Lower(s)` hold for the ASCII case mapping only. With Python's full mapping, `upper` of `'ß'` is `'SS'`, which is longer and lower-cases to `'ss'`.
- Interpreter.ExecStmt: an assignment to a parameter also prints `Assigned '…' to parameter …` to the process's standard output (`statements.py`, line 108). That diagnostic line is not part of the script's output and is not modelled.
- Parser: in this revision `parser.py` raises `AssertionError` on import, because its table has no row for `PERCENT`. The model assumes the parser loads and treats a `%` token as a missing table row.
- Lexer.Tokenize: `isdigit` and `isascii` are taken on ASCII digits and letters. Unicode digits, which Python's `isdigit` accepts, are not modelled.
- Values.ToString: the revision shown has no `to_string` for lists. The model prints a list as `[a, b]`, with its elements' printed forms separated by `, `.
- Giveaway.Pick: `random.choice(list(set))` is replaced by a `roll` parameter. The winner is the participant at `roll` modulo the number of participants, in an arbitrary fixed order.
- InterpreterLaws.SortOrders: ordering and permutation are proved for the default numeric comparison only. A sort with a script-supplied comparison runs the same merge sort in the model, but no ordering law is stated for it, because the comparison need not be a total order.
- Markdown.Quote: its own contract covers only the empty input. What quoting does to other text is stated by QuoteOnlyAddsTicks, QuoteNothingAllowed, InlineCodeKept and FencedCodeKept.
- `markdown_to_sanitized_html` and `_force_new_tab` depend on HTML libraries and are not part of this model.
- Dictionaries.GetExplanations: the regular expression `\bword\b`, matched ignoring case, is the `Matcher` parameter. Loading and persisting the dictionary file are left out.
- `get_common_locales` is a constant table and is not modelled.
- `token_types.py` and `constants.py` are not part of this model. The token kinds are those of `token_types.py`, which lists more kinds than `lexer.py` produces; the parser laws reach the rest through token lists built directly.
- The pydantic models, their JSON serialisation and the `description` texts of the handlers are left out. `sse_encode` is modelled on the payload's JSON text.

## Findings

| source | as written | input that shows it | evidently intended | confidence | as-written member | corrected member |
|---|---|---|---|---|---|---|
| src/chatbot2k/scripting_engine/lexer.py:46-50 | The loop tests for the end of input before skipping whitespace, so trailing whitespace leaves the lexer reading the end-of-input character `\0`, which is an unexpected character. The `AsWritten` mode uses this tokenizer for `$` and `!` | `"PRINT 1; "`, or a single space | Trailing whitespace is skipped like whitespace between tokens, and the end-of-input token follows | high; not executed | Lexer.TrailingWhitespaceRejected | Lexer.AllSpaceTokenizes |
| src/chatbot2k/scripting_engine/types/expressions.py:343-348 | The number conversion accepts a sign and a number without checking that the end of input follows | `$'+3 4'` yields 3 | Text that is not exactly a number, with an optional sign, is "not a valid number" | high; not executed | Operators.SignedPairAccepted | Operators.TextToNumberRefines |
| src/chatbot2k/scripting_engine/types/expressions.py:788-798 | A comprehension binds its loop variable in the shared variable map and never removes it, and a fold does the same with its names | `LET n = for 'a' as x yeet x; LET x = 'b'; PRINT x;` is accepted by the parser, then fails with "already defined" | The loop variable is scoped to its loop, as the parser's scope rules assume | high; not executed | InterpreterFindings.LoopVariableLeaks | InterpreterFindings.LoopVariableScoped |
| src/chatbot2k/scripting_engine/types/expressions.py:649-650 | A script call pushes the callee on the call stack before evaluating the arguments | A call `other(n)` with `n` a store of the caller looks `n` up under `other` and fails | The arguments are evaluated in the caller's frame | medium; not executed | InterpreterFindings.ArgumentReadInCallee | InterpreterFindings.ArgumentReadInCaller |
| src/chatbot2k/dictionary.py:109-112 | `remove_entry` drops every case of the word from the entries, but pops only the stamp stored under the exact spelling passed in, which the handler has lower-cased. The `!dict remove` handler is modelled with this removal | Explain `API`, `!dict remove API`, re-add `API`: it stays silent until the old cooldown runs out | The stamps of the removed entries go with them | medium; not executed | Dictionaries.RemovedWordKeepsStamp | Dictionaries.RemovedWordDropsStamp |
| src/chatbot2k/config.py:174 | A rewritten line keeps a terminator only when it ends in `\r\n` or `\n`, but `splitlines` also ends lines at a form feed, vertical tab and other boundaries | `"A=1\x0cB=2\n"` updated with `A=9` writes `"A=9B=2\n"`, which reads back as `A` set to `9B=2`, and `B` is lost | Every line keeps a terminator, so the rewritten line stays separate | high; not executed | Config.FeedMergesLines | Config.UpdatedFileReadsBack |
| src/chatbot2k/command_handlers/command_management_command.py:161-164 | `!command add-clip` calls `add_soundboard_command` with `clip_url=`, but the method in `database/engine.py:190-197` takes only the keyword arguments `name`, `filename` and three uploader fields, so Python raises a TypeError and no clip is ever added | `!command add-clip name url` for a name that is not a handler | The clip row is added under the name, as the added reply says | high; not executed | CommandManagement.ClipNeverAdded | CommandManagement.ClipAddRemoveRoundTrip |
