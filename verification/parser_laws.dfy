/** Laws of the parser stated over small token lists: how binary operators
    group, how type annotations read back, and the shape a script must
    have. Token positions do not matter to the parser, so the tokens built
    here carry a placeholder location. */
module ParserLaws {
  import opened Wrappers
  import opened Locations
  import opened Tokens
  import opened DataTypes
  import opened Precedences
  import opened Errors
  import opened Ast
  import opened Parser

  function Tok(k: TokenType): Token {
    Token(k, SourceLocation("", 0, 0))
  }

  /*** Operator grouping ***/

  /** A string, number or boolean literal token the parser can read. */
  predicate IsLiteral(t: Token) {
    t.kind in {StringLiteral, NumberLiteral, BoolLiteral} && Literal(t).Success?
  }

  function Operand(t: Token): Expr
    requires IsLiteral(t)
  {
    Literal(t).value
  }

  /** The operator a binary token stands for, and its level. */
  function Op(k: TokenType): BinaryOp
    requires BinaryOpOf(k).Some?
  {
    BinaryOpOf(k).value
  }

  function Level(k: TokenType): Precedence
    requires BinaryOpOf(k).Some?
  {
    InfixPrecedence(k).value
  }

  /** A binary node of well-formed operands is well formed: the parser
      makes no check on it. */
  lemma BinaryGood(l: Expr, op: BinaryOp, r: Expr, ctx: Context)
    requires Good(l, ctx) && Good(r, ctx)
    ensures Good(Binary(l, op, r), ctx)
  {
  }

  /** A literal is well formed in any scope. */
  lemma LiteralGood(t: Token, ctx: Context)
    requires IsLiteral(t)
    ensures Good(Operand(t), ctx)
  {
  }

  /** A literal is read, then the infix loop runs on it. */
  lemma LiteralPrefix(toks: seq<Token>, ctx: Context, p: nat, prec: Precedence)
    requires Ready(toks) && p < |toks| && IsLiteral(toks[p])
    ensures Good(Operand(toks[p]), ctx)
    ensures ParseExpr(toks, ctx, p, prec) == ParseInfixLoop(toks, ctx, Operand(toks[p]), p + 1, prec)
  {
    LiteralRead(toks, ctx, p);
  }

  /** The prefix rule reads a literal as its value. */
  lemma LiteralRead(toks: seq<Token>, ctx: Context, p: nat)
    requires Ready(toks) && p < |toks| && IsLiteral(toks[p])
    ensures ParsePrefix(toks, ctx, p) == Success(Parsed(Operand(toks[p]), p + 1))
  {
    assert Peek(toks, p) == toks[p];
  }

  /** The infix loop stops at the end of input. */
  lemma LoopAtEnd(toks: seq<Token>, ctx: Context, left: Expr, p: nat, prec: Precedence)
    requires Ready(toks) && p <= |toks| && AtEnd(toks, p) && Good(left, ctx)
    ensures ParseInfixLoop(toks, ctx, left, p, prec) == Success(Parsed(left, p))
  {
    assert Peek(toks, p).kind == EndOfInput;
  }

  /** The infix loop stops before an operator that binds no tighter than
      the level it runs at. */
  lemma LoopStops(toks: seq<Token>, ctx: Context, left: Expr, p: nat, prec: Precedence)
    requires Ready(toks) && p < |toks| && Good(left, ctx)
    requires BinaryOpOf(toks[p].kind).Some? && Rank(Level(toks[p].kind)) <= Rank(prec)
    ensures ParseInfixLoop(toks, ctx, left, p, prec) == Success(Parsed(left, p))
  {
    assert Peek(toks, p) == toks[p];
  }

  /** A binary operator's token is in the table, starts no other infix
      rule, and binds tighter than the outermost level. */
  lemma BinaryToken(k: TokenType)
    requires BinaryOpOf(k).Some?
    ensures k != EndOfInput && InTable(k)
    ensures !k.QuestionMark? && !k.LeftParenthesis? && !k.LeftSquareBracket?
    ensures Rank(Level(k)) > Rank(Unknown)
  {
  }

  /** A binary operator's infix rule reads the right operand. */
  lemma InfixIsBinary(toks: seq<Token>, ctx: Context, left: Expr, p: nat)
    requires Ready(toks) && p < |toks| && Good(left, ctx)
    requires BinaryOpOf(toks[p].kind).Some?
    ensures ParseInfix(toks, ctx, left, p) == ParseBinary(toks, ctx, left, Op(toks[p].kind), Level(toks[p].kind), p + 1)
  {
    BinaryToken(toks[p].kind);
    assert Peek(toks, p) == toks[p];
  }

  /** The infix loop takes an operator that binds tighter than its level. */
  lemma LoopTakes(toks: seq<Token>, ctx: Context, left: Expr, p: nat, prec: Precedence)
    requires Ready(toks) && p < |toks| && Good(left, ctx)
    requires BinaryOpOf(toks[p].kind).Some? && Rank(Level(toks[p].kind)) > Rank(prec)
    ensures var step := ParseBinary(toks, ctx, left, Op(toks[p].kind), Level(toks[p].kind), p + 1);
            step.Success? ==>
              step.value.next <= |toks|
              && ParseInfixLoop(toks, ctx, left, p, prec) == ParseInfixLoop(toks, ctx, step.value.value, step.value.next, prec)
  {
    BinaryToken(toks[p].kind);
    assert Peek(toks, p) == toks[p];
    InfixIsBinary(toks, ctx, left, p);
  }

  /** The right operand of a binary operator is read at the operator's own
      level, so an operator of the same level ends it. */
  lemma BinaryOperand(toks: seq<Token>, ctx: Context, left: Expr, op: BinaryOp, prec: Precedence, p: nat, right: Expr, next: nat)
    requires Ready(toks) && p <= |toks| && Good(left, ctx)
    requires ParseExpr(toks, ctx, p, prec) == Success(Parsed(right, next))
    ensures ParseBinary(toks, ctx, left, op, prec, p) == Success(Parsed(Binary(left, op, right), next))
  {
  }

  /** The loop at `p` takes the operator there with the right operand read
      from `p + 1`, and continues after it with `left o right`. */
  lemma TakeOperator(toks: seq<Token>, ctx: Context, left: Expr, p: nat, prec: Precedence, right: Expr, next: nat)
    requires Ready(toks) && p < |toks| && Good(left, ctx)
    requires BinaryOpOf(toks[p].kind).Some? && Rank(Level(toks[p].kind)) > Rank(prec)
    requires ParseExpr(toks, ctx, p + 1, Level(toks[p].kind)) == Success(Parsed(right, next))
    ensures next <= |toks| && Good(Binary(left, Op(toks[p].kind), right), ctx)
    ensures ParseInfixLoop(toks, ctx, left, p, prec)
            == ParseInfixLoop(toks, ctx, Binary(left, Op(toks[p].kind), right), next, prec)
  {
    BinaryOperand(toks, ctx, left, Op(toks[p].kind), Level(toks[p].kind), p + 1, right, next);
    LoopTakes(toks, ctx, left, p, prec);
  }

  /** The token list `a o1 b o2 c` followed by the end of input, where
      `a`, `b` and `c` are literals. */
  predicate ThreeOperands(toks: seq<Token>) {
    |toks| == 6 && IsLiteral(toks[0]) && IsLiteral(toks[2]) && IsLiteral(toks[4])
    && BinaryOpOf(toks[1].kind).Some? && BinaryOpOf(toks[3].kind).Some? && toks[5].kind == EndOfInput
  }

  /** The last operand, read at the level of `o2`. */
  lemma LastOperand(toks: seq<Token>, ctx: Context)
    requires ThreeOperands(toks)
    ensures Ready(toks)
    ensures ParseExpr(toks, ctx, 4, Level(toks[3].kind)) == Success(Parsed(Operand(toks[4]), 5))
  {
    LiteralPrefix(toks, ctx, 4, Level(toks[3].kind));
    LoopAtEnd(toks, ctx, Operand(toks[4]), 5, Level(toks[3].kind));
  }

  /** The middle operand alone, when `o2` binds no tighter than `o1`. */
  lemma MiddleAlone(toks: seq<Token>, ctx: Context)
    requires ThreeOperands(toks)
    requires Rank(Level(toks[1].kind)) >= Rank(Level(toks[3].kind))
    ensures Ready(toks)
    ensures ParseExpr(toks, ctx, 2, Level(toks[1].kind)) == Success(Parsed(Operand(toks[2]), 3))
  {
    LiteralPrefix(toks, ctx, 2, Level(toks[1].kind));
    LoopStops(toks, ctx, Operand(toks[2]), 3, Level(toks[1].kind));
  }

  /** The middle operand with the last, when `o2` binds tighter than `o1`. */
  lemma MiddleWithLast(toks: seq<Token>, ctx: Context)
    requires ThreeOperands(toks)
    requires Rank(Level(toks[1].kind)) < Rank(Level(toks[3].kind))
    ensures Ready(toks)
    ensures ParseExpr(toks, ctx, 2, Level(toks[1].kind))
            == Success(Parsed(Binary(Operand(toks[2]), Op(toks[3].kind), Operand(toks[4])), 5))
  {
    var p1 := Level(toks[1].kind);
    var yz := Binary(Operand(toks[2]), Op(toks[3].kind), Operand(toks[4]));
    LiteralPrefix(toks, ctx, 2, p1);
    LastOperand(toks, ctx);
    TakeOperator(toks, ctx, Operand(toks[2]), 3, p1, Operand(toks[4]), 5);
    LoopAtEnd(toks, ctx, yz, 5, p1);
    assert ParseExpr(toks, ctx, 2, p1) == ParseInfixLoop(toks, ctx, Operand(toks[2]), 3, p1);
    assert ParseInfixLoop(toks, ctx, Operand(toks[2]), 3, p1) == ParseInfixLoop(toks, ctx, yz, 5, p1);
  }

  /** When `o1` binds at least as tightly as `o2`, the first operator takes
      `b` alone. */
  lemma FirstTakesMiddle(toks: seq<Token>, ctx: Context)
    requires ThreeOperands(toks)
    requires Rank(Level(toks[1].kind)) >= Rank(Level(toks[3].kind))
    ensures Ready(toks) && Good(Operand(toks[0]), ctx)
    ensures var xy := Binary(Operand(toks[0]), Op(toks[1].kind), Operand(toks[2]));
            Good(xy, ctx)
            && ParseInfixLoop(toks, ctx, Operand(toks[0]), 1, Unknown) == ParseInfixLoop(toks, ctx, xy, 3, Unknown)
  {
    BinaryToken(toks[1].kind);
    LiteralGood(toks[0], ctx);
    MiddleAlone(toks, ctx);
    TakeOperator(toks, ctx, Operand(toks[0]), 1, Unknown, Operand(toks[2]), 3);
  }

  /** The second operator then takes `c`, and the loop ends. */
  lemma SecondTakesLast(toks: seq<Token>, ctx: Context)
    requires ThreeOperands(toks)
    ensures Ready(toks)
    ensures var xy := Binary(Operand(toks[0]), Op(toks[1].kind), Operand(toks[2]));
            Good(xy, ctx)
            && ParseInfixLoop(toks, ctx, xy, 3, Unknown) == Success(Parsed(Binary(xy, Op(toks[3].kind), Operand(toks[4])), 5))
  {
    var xy := Binary(Operand(toks[0]), Op(toks[1].kind), Operand(toks[2]));
    LiteralGood(toks[0], ctx);
    LiteralGood(toks[2], ctx);
    BinaryGood(Operand(toks[0]), Op(toks[1].kind), Operand(toks[2]), ctx);
    BinaryToken(toks[3].kind);
    LastOperand(toks, ctx);
    TakeOperator(toks, ctx, xy, 3, Unknown, Operand(toks[4]), 5);
    LoopAtEnd(toks, ctx, Binary(xy, Op(toks[3].kind), Operand(toks[4])), 5, Unknown);
  }

  /** When `o1` binds at least as tightly as `o2`, `a o1 b` is the left
      operand of `o2`. */
  lemma GroupsLeft(toks: seq<Token>, ctx: Context)
    requires ThreeOperands(toks)
    requires Rank(Level(toks[1].kind)) >= Rank(Level(toks[3].kind))
    ensures Ready(toks) && Good(Operand(toks[0]), ctx)
    ensures ParseInfixLoop(toks, ctx, Operand(toks[0]), 1, Unknown)
            == Success(Parsed(Binary(Binary(Operand(toks[0]), Op(toks[1].kind), Operand(toks[2])), Op(toks[3].kind), Operand(toks[4])), 5))
  {
    FirstTakesMiddle(toks, ctx);
    SecondTakesLast(toks, ctx);
  }

  /** When `o2` binds more tightly than `o1`, `b o2 c` is the right operand
      of `o1`, and the loop ends there. */
  lemma GroupsRight(toks: seq<Token>, ctx: Context)
    requires ThreeOperands(toks)
    requires Rank(Level(toks[1].kind)) < Rank(Level(toks[3].kind))
    ensures Ready(toks) && Good(Operand(toks[0]), ctx)
    ensures ParseInfixLoop(toks, ctx, Operand(toks[0]), 1, Unknown)
            == Success(Parsed(Binary(Operand(toks[0]), Op(toks[1].kind), Binary(Operand(toks[2]), Op(toks[3].kind), Operand(toks[4]))), 5))
  {
    var x := Operand(toks[0]);
    var yz := Binary(Operand(toks[2]), Op(toks[3].kind), Operand(toks[4]));
    BinaryToken(toks[1].kind);
    LiteralGood(toks[0], ctx);
    MiddleWithLast(toks, ctx);
    TakeOperator(toks, ctx, x, 1, Unknown, yz, 5);
    LoopAtEnd(toks, ctx, Binary(x, Op(toks[1].kind), yz), 5, Unknown);
  }

  /** `a o1 b o2 c` groups to the left when `o1` binds at least as tightly
      as `o2`, and to the right otherwise: operators of one level are
      left-associative, and a tighter operator takes its operands first. */
  lemma OperatorGrouping(toks: seq<Token>, ctx: Context)
    requires ThreeOperands(toks)
    ensures Ready(toks)
    ensures var x, y, z := Operand(toks[0]), Operand(toks[2]), Operand(toks[4]);
            var o1, o2 := Op(toks[1].kind), Op(toks[3].kind);
            var r := ParseExpr(toks, ctx, 0, Unknown);
            var leftFirst := Rank(Level(toks[1].kind)) >= Rank(Level(toks[3].kind));
            (leftFirst ==> r == Success(Parsed(Binary(Binary(x, o1, y), o2, z), 5)))
            && (!leftFirst ==> r == Success(Parsed(Binary(x, o1, Binary(y, o2, z)), 5)))
  {
    if Rank(Level(toks[1].kind)) >= Rank(Level(toks[3].kind)) {
      ExprGroupsLeft(toks, ctx);
    } else {
      ExprGroupsRight(toks, ctx);
    }
  }

  /** What the infix loop after the first operand yields, the whole
      expression yields. */
  lemma ExprIsLoop(toks: seq<Token>, ctx: Context, e: Result<Parsed<Expr>, Error>)
    requires ThreeOperands(toks)
    requires ParseInfixLoop(toks, ctx, Operand(toks[0]), 1, Unknown) == e
    ensures ParseExpr(toks, ctx, 0, Unknown) == e
  {
    LiteralPrefix(toks, ctx, 0, Unknown);
  }

  /** The left grouping, read from the first token. */
  lemma ExprGroupsLeft(toks: seq<Token>, ctx: Context)
    requires ThreeOperands(toks)
    requires Rank(Level(toks[1].kind)) >= Rank(Level(toks[3].kind))
    ensures Ready(toks)
    ensures ParseExpr(toks, ctx, 0, Unknown)
            == Success(Parsed(Binary(Binary(Operand(toks[0]), Op(toks[1].kind), Operand(toks[2])), Op(toks[3].kind), Operand(toks[4])), 5))
  {
    GroupsLeft(toks, ctx);
    ExprIsLoop(toks, ctx, ParseInfixLoop(toks, ctx, Operand(toks[0]), 1, Unknown));
  }

  /** The right grouping, read from the first token. */
  lemma ExprGroupsRight(toks: seq<Token>, ctx: Context)
    requires ThreeOperands(toks)
    requires Rank(Level(toks[1].kind)) < Rank(Level(toks[3].kind))
    ensures Ready(toks)
    ensures ParseExpr(toks, ctx, 0, Unknown)
            == Success(Parsed(Binary(Operand(toks[0]), Op(toks[1].kind), Binary(Operand(toks[2]), Op(toks[3].kind), Operand(toks[4]))), 5))
  {
    GroupsRight(toks, ctx);
    ExprIsLoop(toks, ctx, ParseInfixLoop(toks, ctx, Operand(toks[0]), 1, Unknown));
  }

  /*** Type annotations ***/

  /** How a type is spelled in an annotation. */
  function TypeTokens(t: DataType): (r: seq<Token>)
    ensures |r| >= 1
  {
    match t
    case StringType => [Tok(StringKw)]
    case NumberType => [Tok(NumberKw)]
    case BoolType => [Tok(BoolKw)]
    case ListType(of) => [Tok(ListKw), Tok(TokenType.LessThan)] + TypeTokens(of) + [Tok(TokenType.GreaterThan)]
  }

  /** `list<t>` reads as a list of whatever `t` reads as. */
  lemma ListTypeStep(toks: seq<Token>, i: nat, t: DataType, j: nat)
    requires Ready(toks) && i + 2 <= |toks| && j < |toks|
    requires toks[i].kind == ListKw && toks[i + 1].kind == TokenType.LessThan
    requires ParseDataType(toks, i + 2) == Success(Parsed(t, j))
    requires toks[j].kind == TokenType.GreaterThan
    ensures ParseDataType(toks, i) == Success(Parsed(ListType(t), j + 1))
  {
    assert Peek(toks, i) == toks[i];
  }

  /** The parts of a slice spelled `a`, `b`, `inner`, `c`. */
  lemma BracketedSlice(toks: seq<Token>, i: nat, a: Token, b: Token, inner: seq<Token>, c: Token)
    requires i + |inner| + 3 <= |toks|
    requires toks[i..i + |inner| + 3] == [a, b] + inner + [c]
    ensures toks[i] == a && toks[i + 1] == b && toks[i + 2 + |inner|] == c
    ensures toks[i + 2..i + 2 + |inner|] == inner
  {
    var n := |inner|;
    var s := toks[i..i + n + 3];
    var w := [a, b] + inner + [c];
    assert toks[i] == s[0] == w[0];
    assert toks[i + 1] == s[1] == w[1];
    assert toks[i + 2 + n] == s[2 + n] == w[2 + n];
    forall k | 0 <= k < n
      ensures toks[i + 2..i + 2 + n][k] == inner[k]
    {
      assert toks[i + 2 + k] == s[2 + k] == w[2 + k];
    }
  }

  /** Where a list type's spelling sits, its element type's spelling sits
      two tokens in, between `list<` and `>`. */
  lemma ListSpelling(toks: seq<Token>, i: nat, t: DataType)
    requires t.ListType? && i + |TypeTokens(t)| <= |toks|
    requires toks[i..i + |TypeTokens(t)|] == TypeTokens(t)
    ensures var n := |TypeTokens(t.ofType)|;
            |TypeTokens(t)| == n + 3
            && toks[i].kind == ListKw && toks[i + 1].kind == TokenType.LessThan
            && toks[i + 2..i + 2 + n] == TypeTokens(t.ofType)
            && toks[i + 2 + n].kind == TokenType.GreaterThan
  {
    var inner := TypeTokens(t.ofType);
    assert TypeTokens(t) == [Tok(ListKw), Tok(TokenType.LessThan)] + inner + [Tok(TokenType.GreaterThan)];
    BracketedSlice(toks, i, Tok(ListKw), Tok(TokenType.LessThan), inner, Tok(TokenType.GreaterThan));
  }

  /** Reading a type's spelling gives the type back and stops right after
      the spelling, wherever it sits in the token list. */
  lemma {:induction false} DataTypeRoundTrip(toks: seq<Token>, i: nat, t: DataType)
    requires Ready(toks) && i + |TypeTokens(t)| <= |toks|
    requires toks[i..i + |TypeTokens(t)|] == TypeTokens(t)
    ensures ParseDataType(toks, i) == Success(Parsed(t, i + |TypeTokens(t)|))
    decreases t
  {
    if t.ListType? {
      ListSpelling(toks, i, t);
      DataTypeRoundTrip(toks, i + 2, t.ofType);
      ListTypeRead(toks, i, t);
    } else {
      ScalarTypeRead(toks, i, t);
    }
  }

  /** A list type's spelling reads back once its element type's does. */
  lemma ListTypeRead(toks: seq<Token>, i: nat, t: DataType)
    requires t.ListType? && Ready(toks) && i + |TypeTokens(t)| <= |toks|
    requires toks[i..i + |TypeTokens(t)|] == TypeTokens(t)
    requires ParseDataType(toks, i + 2) == Success(Parsed(t.ofType, i + 2 + |TypeTokens(t.ofType)|))
    ensures ParseDataType(toks, i) == Success(Parsed(t, i + |TypeTokens(t)|))
  {
    ListSpelling(toks, i, t);
    ListTypeStep(toks, i, t.ofType, i + 2 + |TypeTokens(t.ofType)|);
  }

  /** A type that is not a list is spelled by one keyword. */
  lemma ScalarTypeRead(toks: seq<Token>, i: nat, t: DataType)
    requires !t.ListType? && Ready(toks) && i + |TypeTokens(t)| <= |toks|
    requires toks[i..i + |TypeTokens(t)|] == TypeTokens(t)
    ensures ParseDataType(toks, i) == Success(Parsed(t, i + |TypeTokens(t)|))
  {
    assert toks[i] == TypeTokens(t)[0];
    assert Peek(toks, i) == toks[i];
  }

  /*** Script shape ***/

  /** A `STORE` after the parameter list is not a statement. */
  lemma StoreAfterParams(name: string, toks: seq<Token>, params: seq<string>, j: nat)
    requires Ready(toks) && toks[0].kind == Params
    requires ParseParams(toks, [], 0) == Success(Parsed(params, j))
    requires Peek(toks, j).kind == Store
    ensures Parse(name, toks) == Failure(Expected(toks, j, "statement"))
  {
    assert ParseStores(toks, [], 0) == Success(Parsed([], 0));
    StoreIsNoStatement(toks, Context([], params, []), j);
  }

  /** A `STORE` where a statement should start is reported as such. */
  lemma StoreIsNoStatement(toks: seq<Token>, ctx: Context, j: nat)
    requires Ready(toks) && j <= |toks| && Peek(toks, j).kind == Store
    ensures ParseStatements(toks, ctx, j) == Failure(Expected(toks, j, "statement"))
  {
    assert !AtEnd(toks, j);
  }

  /** A script whose declarations are followed by the end of input has no
      statement, which is an error. */
  lemma NoStatements(name: string, toks: seq<Token>, stores: seq<StoreDecl>, i: nat, params: seq<string>, j: nat)
    requires Ready(toks)
    requires ParseStores(toks, [], 0) == Success(Parsed(stores, i))
    requires ParseParams(toks, stores, i) == Success(Parsed(params, j))
    requires AtEnd(toks, j)
    ensures Parse(name, toks) == Failure(Expected(toks, j, "at least one statement"))
  {
  }

  /** An empty source has no statement. */
  lemma EmptyScript(name: string)
    ensures Parse(name, [Tok(EndOfInput)]) == Failure(Expected([Tok(EndOfInput)], 0, "at least one statement"))
  {
    NoStatements(name, [Tok(EndOfInput)], [], 0, [], 0);
  }

  /** Every script the parser returns passes the statement-list validator,
      which leaves its statements as they are. */
  lemma ParsedStatementsValidate(name: string, toks: seq<Token>)
    requires Ready(toks) && Parse(name, toks).Success?
    ensures var s := Parse(name, toks).value;
            IsNotEmpty(s.statements) == Success(s.statements)
  {
  }

  /** A comprehension whose body starts with `for` is refused: nested
      comprehensions need parentheses. Here the variable is followed by
      `yeet for`, with no filter. */
  lemma NestedComprehensionRejected(toks: seq<Token>, ctx: Context, iterable: Expr, elementType: DataType, name: string, i: nat)
    requires Ready(toks) && i + 1 < |toks| && Good(iterable, ctx)
    requires IterationType(iterable) == Success(elementType)
    requires toks[i].kind == Yeet && toks[i + 1].kind == For
    ensures ParseComprehensionRest(toks, ctx, iterable, elementType, name, i)
            == Failure(ParseFailure(NestedListComprehensionsWithoutParentheses))
  {
    var inner := ctx.(vars := ctx.vars + [VarDecl(name, elementType)]);
    NoFilter(toks, inner, i);
    assert Expect(toks, i, Yeet, "'yeet' in list comprehension") == Success(Parsed(toks[i], i + 1));
    assert Peek(toks, i + 1) == toks[i + 1];
  }

  /** A comprehension without `if` has no filter, and its rest starts
      where the filter would have. */
  lemma NoFilter(toks: seq<Token>, ctx: Context, i: nat)
    requires Ready(toks) && i < |toks| && toks[i].kind != If
    ensures ParseFilter(toks, ctx, i) == Success(Parsed(None, i))
  {
  }
}
