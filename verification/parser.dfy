/** The parser: a Pratt parser from tokens to a statically checked script.
    A script is the `STORE` declarations, then an optional `PARAMS` list,
    then at least one statement. Names are resolved while parsing (a store,
    then a parameter, then a variable), and the checks that need types
    (conditions, branches, callees, subscripts, list elements, definitions
    and assignments) are made on the spot. Unary and binary operands are not
    type checked here: their types are only computed when something asks
    for them. */
module Parser {
  import opened Wrappers
  import opened Locations
  import opened Tokens
  import opened DataTypes
  import opened Precedences
  import opened Errors
  import opened Ast
  import Numbers
  import StringLiterals

  /** A variable the parser knows: a `LET` before the statement, or the
      variable of an enclosing `for` or `collect`. */
  datatype VarDecl = VarDecl(name: string, ty: DataType)

  /** What an expression may refer to. */
  datatype Context = Context(stores: seq<StoreDecl>, params: seq<string>, vars: seq<VarDecl>)

  /** A parsed item and the position of the first token after it. */
  datatype Parsed<T> = Parsed(value: T, next: nat)

  /** A token list as the lexer hands it over: non-empty, ending with the
      end-of-input token. */
  predicate Ready(toks: seq<Token>) {
    |toks| > 0 && toks[|toks| - 1].kind == EndOfInput
  }

  /*** The cursor ***/

  predicate AtEnd(toks: seq<Token>, i: nat) {
    i >= |toks| || toks[i].kind == EndOfInput
  }

  /** `_current`: the token under the cursor, the last token once at the end. */
  function Peek(toks: seq<Token>, i: nat): (t: Token)
    requires Ready(toks)
    ensures t.kind != EndOfInput ==> !AtEnd(toks, i) && t == toks[i]
  {
    if AtEnd(toks, i) then toks[|toks| - 1] else toks[i]
  }

  /** `_match`: the position after the token when it has the kind. */
  function Accept(toks: seq<Token>, i: nat, kind: TokenType): (r: Option<nat>)
    requires Ready(toks)
    ensures r.Some? <==> !AtEnd(toks, i) && toks[i].kind == kind
    ensures r.Some? ==> r.value == i + 1 && i < |toks|
  {
    if AtEnd(toks, i) || toks[i].kind != kind then None else Some(i + 1)
  }

  function Expected(toks: seq<Token>, i: nat, what: string): Error
    requires Ready(toks)
  {
    ParseFailure(ExpectedToken(Peek(toks, i), what))
  }

  /** `_expect`: the token of that kind, or `ExpectedTokenError` naming
      what was wanted and the token found. */
  function Expect(toks: seq<Token>, i: nat, kind: TokenType, what: string): (r: Result<Parsed<Token>, Error>)
    requires Ready(toks)
    ensures r.Success? <==> Accept(toks, i, kind).Some?
    ensures r.Success? ==> r.value == Parsed(toks[i], i + 1) && i < |toks|
    ensures r.Failure? ==> r.error == Expected(toks, i, what)
  {
    if Accept(toks, i, kind).None? then Failure(Expected(toks, i, what)) else Success(Parsed(toks[i], i + 1))
  }

  /*** The operator tables ***/

  /** `%` has no row in the parser table. As written, the table check in the
      class body then raises `AssertionError` as soon as the parser module is
      loaded, so no lookup happens at all. The model assumes the parser loads
      and treats a `%` token as a missing row: an internal failure. */
  predicate InTable(k: TokenType) { !k.Percent? }

  /** The binding strength of the infix rule a token starts, if any. */
  function InfixPrecedence(k: TokenType): Option<Precedence> {
    match k
    case QuestionMark => Some(Precedence.Ternary)
    case EqualsEquals | ExclamationMarkEquals => Some(Equality)
    case LessThan | LessThanEquals | GreaterThan | GreaterThanEquals => Some(Comparison)
    case Plus | Minus => Some(Sum)
    case Asterisk | Slash => Some(Product)
    case LeftParenthesis | LeftSquareBracket => Some(Precedence.Call)
    case And => Some(Precedence.And)
    case Or => Some(Precedence.Or)
    case _ => None
  }

  function BinaryOpOf(k: TokenType): (r: Option<BinaryOp>)
    ensures r.Some? ==> InfixPrecedence(k).Some?
  {
    match k
    case Plus => Some(Add)
    case Minus => Some(Subtract)
    case Asterisk => Some(Multiply)
    case Slash => Some(Divide)
    case EqualsEquals => Some(BinaryOp.Equals)
    case ExclamationMarkEquals => Some(NotEquals)
    case LessThan => Some(BinaryOp.LessThan)
    case LessThanEquals => Some(LessThanOrEqual)
    case GreaterThan => Some(BinaryOp.GreaterThan)
    case GreaterThanEquals => Some(GreaterThanOrEqual)
    case And => Some(BinaryOp.And)
    case Or => Some(BinaryOp.Or)
    case _ => None
  }

  function UnaryOpOf(k: TokenType): Option<UnaryOp> {
    match k
    case Plus => Some(UnaryOp.Plus)
    case Minus => Some(Negate)
    case Not => Some(UnaryOp.Not)
    case Dollar => Some(ToNumber)
    case ExclamationMark => Some(Evaluate)
    case QuestionMark => Some(ToBool)
    case Hash => Some(ToText)
    case _ => None
  }

  /*** Names ***/

  function StoreNames(stores: seq<StoreDecl>): set<string> {
    set s | s in stores :: s.name
  }

  function ParamNames(params: seq<string>): set<string> {
    set p | p in params
  }

  function VarNames(vars: seq<VarDecl>): set<string> {
    set v | v in vars :: v.name
  }

  function FindStore(stores: seq<StoreDecl>, name: string): (r: Option<StoreDecl>)
    ensures r.Some? <==> name in StoreNames(stores)
    ensures r.Some? ==> r.value in stores && r.value.name == name
  {
    if |stores| == 0 then None
    else if stores[0].name == name then Some(stores[0])
    else
      var r := FindStore(stores[1..], name);
      assert forall s :: s in stores ==> s == stores[0] || s in stores[1..];
      r
  }

  function FindVar(vars: seq<VarDecl>, name: string): (r: Option<VarDecl>)
    ensures r.Some? <==> name in VarNames(vars)
    ensures r.Some? ==> r.value in vars && r.value.name == name
  {
    if |vars| == 0 then None
    else if vars[0].name == name then Some(vars[0])
    else
      var r := FindVar(vars[1..], name);
      assert forall v :: v in vars ==> v == vars[0] || v in vars[1..];
      r
  }

  /** `_identifier`: a store first, then a parameter, then a variable. */
  function ResolveIdentifier(ctx: Context, name: string): (r: Result<Expr, Error>)
    ensures r.Failure? && name !in StoreNames(ctx.stores) ==> r.error == ParseFailure(UnknownVariable(name))
    ensures r.Success? <==>
              (name in StoreNames(ctx.stores) && StoreType(FindStore(ctx.stores, name).value).Success?)
              || (name !in StoreNames(ctx.stores) && (name in ctx.params || name in VarNames(ctx.vars)))
    ensures r.Success? && name in StoreNames(ctx.stores) ==>
              r.value.StoreRef? && r.value.name == name
    ensures r.Success? && name !in StoreNames(ctx.stores) && name in ctx.params ==> r.value == ParamRef(name)
    ensures r.Success? && name !in StoreNames(ctx.stores) && name !in ctx.params ==>
              r.value.VarRef? && r.value.name == name && VarDecl(name, r.value.ty) in ctx.vars
  {
    match FindStore(ctx.stores, name)
    case Some(s) =>
      var t :- StoreType(s);
      Success(StoreRef(name, t))
    case None =>
      if name in ctx.params then Success(ParamRef(name))
      else
        match FindVar(ctx.vars, name)
        case Some(v) => Success(VarRef(name, v.ty))
        case None => Failure(ParseFailure(UnknownVariable(name)))
  }

  /** `_ensure_not_shadowed`: a new variable may not reuse the name of a
      store, a parameter or a variable in scope. */
  function EnsureFresh(ctx: Context, name: string): (r: Result<(), Error>)
    ensures r.Success? <==>
              name !in StoreNames(ctx.stores) && name !in ctx.params && name !in VarNames(ctx.vars)
    ensures name in StoreNames(ctx.stores) ==> r == Failure(ParseFailure(VariableShadowsStore(name)))
    ensures name !in StoreNames(ctx.stores) && name in ctx.params ==>
              r == Failure(ParseFailure(VariableShadowsParameter(name)))
    ensures name !in StoreNames(ctx.stores) && name !in ctx.params && name in VarNames(ctx.vars) ==>
              r == Failure(ParseFailure(VariableRedefinition(name)))
  {
    if FindStore(ctx.stores, name).Some? then Failure(ParseFailure(VariableShadowsStore(name)))
    else if name in ctx.params then Failure(ParseFailure(VariableShadowsParameter(name)))
    else if FindVar(ctx.vars, name).Some? then Failure(ParseFailure(VariableRedefinition(name)))
    else Success(())
  }

  /*** The checks made while building expressions ***/

  /** The static checks the parser makes on the node at the top of `e`.
      Unary and binary nodes carry none, and the parser never builds
      `split`, `join` or `sort` nodes. */
  ghost predicate NodeChecked(e: Expr) {
    match e
    case Ternary(c, t, f, ty) =>
      ExprType(c) == Success(BoolType) && ExprType(t) == Success(ty) && ExprType(f) == Success(ty)
    case Call(callee, _) => ExprType(callee) == Success(StringType)
    case ListLit(es, t) => forall k :: 0 <= k < |es| ==> ExprType(es[k]) == Success(t)
    case Subscript(o, ix, ty) =>
      ExprType(ix) == Success(NumberType) && ExprType(o).Success? && ElementTypeOf(ExprType(o).value) == Some(ty)
    case Comprehension(it, _, filter, _) =>
      ExprType(it).Success? && ElementTypeOf(ExprType(it).value).Some?
      && (filter.Some? ==> ExprType(filter.value) == Success(BoolType))
    case Fold(it, _, _, body) =>
      ExprType(it).Success? && ElementTypeOf(ExprType(it).value).Some?
      && ExprType(body) == Success(ElementTypeOf(ExprType(it).value).value)
    case Split(_, _) => false
    case Join(_, _) => false
    case Sort(_, _, _, _) => false
    case _ => true
  }

  /** Every node of `e` passed its check. */
  ghost predicate Checked(e: Expr)
    decreases e
  {
    NodeChecked(e)
    && match e
       case Unary(_, x) => Checked(x)
       case Binary(l, _, r) => Checked(l) && Checked(r)
       case Ternary(c, t, f, _) => Checked(c) && Checked(t) && Checked(f)
       case Call(callee, args) => Checked(callee) && forall a :: a in args ==> Checked(a)
       case ListLit(es, _) => forall a :: a in es ==> Checked(a)
       case Subscript(o, ix, _) => Checked(o) && Checked(ix)
       case Comprehension(it, _, filter, body) =>
         Checked(it) && (filter.Some? ==> Checked(filter.value)) && Checked(body)
       case Fold(it, _, _, body) => Checked(it) && Checked(body)
       case _ => true
  }

  /** Every name in `e` refers to something in scope: a store or parameter
      of the context, or a variable of the context or of an enclosing
      `for` (its variable) or `collect` (its accumulator and element). */
  ghost predicate Resolved(e: Expr, stores: set<string>, params: set<string>, vars: set<string>)
    decreases e
  {
    match e
    case StoreRef(n, _) => n in stores
    case ParamRef(n) => n in params
    case VarRef(n, _) => n in vars
    case Unary(_, x) => Resolved(x, stores, params, vars)
    case Binary(l, _, r) => Resolved(l, stores, params, vars) && Resolved(r, stores, params, vars)
    case Ternary(c, t, f, _) =>
      Resolved(c, stores, params, vars) && Resolved(t, stores, params, vars) && Resolved(f, stores, params, vars)
    case Call(callee, args) =>
      Resolved(callee, stores, params, vars) && forall a :: a in args ==> Resolved(a, stores, params, vars)
    case ListLit(es, _) => forall a :: a in es ==> Resolved(a, stores, params, vars)
    case Subscript(o, ix, _) => Resolved(o, stores, params, vars) && Resolved(ix, stores, params, vars)
    case Comprehension(it, v, filter, body) =>
      Resolved(it, stores, params, vars)
      && (filter.Some? ==> Resolved(filter.value, stores, params, vars + {v}))
      && Resolved(body, stores, params, vars + {v})
    case Fold(it, acc, el, body) =>
      Resolved(it, stores, params, vars) && Resolved(body, stores, params, vars + {acc, el})
    case Split(s, d) =>
      Resolved(s, stores, params, vars) && (d.Some? ==> Resolved(d.value, stores, params, vars))
    case Join(l, d) =>
      Resolved(l, stores, params, vars) && (d.Some? ==> Resolved(d.value, stores, params, vars))
    case Sort(l, _, _, c) => Resolved(l, stores, params, vars) && c.None?
    case _ => true
  }

  ghost predicate ResolvedIn(e: Expr, ctx: Context) {
    Resolved(e, StoreNames(ctx.stores), ParamNames(ctx.params), VarNames(ctx.vars))
  }

  /** What every expression the parser returns satisfies. */
  ghost predicate Good(e: Expr, ctx: Context) {
    Checked(e) && ResolvedIn(e, ctx)
  }

  ghost predicate AllGood(es: seq<Expr>, ctx: Context) {
    forall k :: 0 <= k < |es| ==> Good(es[k], ctx)
  }

  /** `_reify_list_of_empty_lists`: gives an empty-list literal the list
      type `t`. Only the innermost lists may be empty of lists. */
  function Reify(shape: EmptyShape, t: DataType): (r: Result<Expr, Error>)
    requires t.ListType?
    ensures r.Success? ==> r.value.ListLit? && ExprType(r.value) == Success(t) && Checked(r.value)
    ensures r.Success? ==> forall s, p, v :: Resolved(r.value, s, p, v)
    ensures !t.ofType.ListType? ==>
              (r.Success? <==> |shape.children| == 0)
              && (r.Failure? ==> r.error == ParseFailure(ExpectedEmptyListLiteral(|shape.children|)))
    decreases shape
  {
    if t.ofType.ListType? then
      var items :- ReifyAll(shape.children, t.ofType);
      Success(ListLit(items, t.ofType))
    else if |shape.children| > 0 then Failure(ParseFailure(ExpectedEmptyListLiteral(|shape.children|)))
    else Success(ListLit([], t.ofType))
  }

  function ReifyAll(shapes: seq<EmptyShape>, t: DataType): (r: Result<seq<Expr>, Error>)
    requires t.ListType?
    ensures r.Success? ==> |r.value| == |shapes|
    ensures r.Success? ==> forall k :: 0 <= k < |r.value| ==>
              ExprType(r.value[k]) == Success(t) && Checked(r.value[k])
              && forall s, p, v :: Resolved(r.value[k], s, p, v)
    decreases shapes
  {
    if |shapes| == 0 then Success([])
    else
      var first :- Reify(shapes[0], t);
      var rest :- ReifyAll(shapes[1..], t);
      Success([first] + rest)
  }

  /** The element type of a list literal: the type of its first element
      that is not an empty-list literal, which every other such element
      must share. `None` when every element is an empty-list literal. */
  function InferElementType(es: seq<Expr>, inferred: Option<DataType>): (r: Result<Option<DataType>, Error>)
    ensures (forall k :: 0 <= k < |es| ==> es[k].EmptyLists?) ==> r == Success(inferred)
    ensures r.Success? && r.value.None? ==> inferred.None? && forall k :: 0 <= k < |es| ==> es[k].EmptyLists?
    ensures r.Success? && r.value.Some? ==>
              (inferred.Some? ==> r.value == inferred)
              && forall k :: 0 <= k < |es| && !es[k].EmptyLists? ==> ExprType(es[k]) == Success(r.value.value)
    decreases |es|
  {
    if |es| == 0 then Success(inferred)
    else
      assert forall k :: 1 <= k < |es| ==> es[k] == es[1..][k - 1];
      if es[0].EmptyLists? then InferElementType(es[1..], inferred)
      else
        var t :- ExprType(es[0]);
        if inferred.Some? && inferred.value != t then
          Failure(ParseFailure(ListElementTypeMismatch(inferred.value, t)))
        else InferElementType(es[1..], Some(t))
  }

  /** Replaces each empty-list literal among `es` by a list of type `t`. */
  function ReifyElements(es: seq<Expr>, t: DataType): (r: Result<seq<Expr>, Error>)
    requires t.ListType?
    ensures r.Success? ==> |r.value| == |es|
    ensures r.Success? ==> forall k :: 0 <= k < |es| ==>
              (es[k].EmptyLists? ==> ExprType(r.value[k]) == Success(t) && Checked(r.value[k])
                                     && forall s, p, v :: Resolved(r.value[k], s, p, v))
              && (!es[k].EmptyLists? ==> r.value[k] == es[k])
    decreases |es|
  {
    if |es| == 0 then Success([])
    else
      var first :- if es[0].EmptyLists? then Reify(es[0].shape, t) else Success(es[0]);
      var rest :- ReifyElements(es[1..], t);
      Success([first] + rest)
  }

  /** The shape of a list of empty-list literals. */
  function Shapes(es: seq<Expr>): (r: seq<EmptyShape>)
    requires forall k :: 0 <= k < |es| ==> es[k].EmptyLists?
    ensures |r| == |es| && forall k :: 0 <= k < |es| ==> r[k] == es[k].shape
  {
    seq(|es|, k requires 0 <= k < |es| && es[k].EmptyLists? => es[k].shape)
  }

  /** The type checks of `_list_literal` once its elements are parsed. */
  function BuildList(es: seq<Expr>): (r: Result<Expr, Error>)
    ensures |es| == 0 ==> r == Success(EmptyLists(EmptyShape([])))
    ensures (forall k :: 0 <= k < |es| ==> es[k].EmptyLists?) ==> r.Success? && r.value.EmptyLists?
    ensures r.Success? && r.value.ListLit? ==>
              |r.value.elements| == |es| && NodeChecked(r.value)
              && forall k :: 0 <= k < |es| && !es[k].EmptyLists? ==> r.value.elements[k] == es[k]
  {
    if |es| == 0 then Success(EmptyLists(EmptyShape([])))
    else
      var inferred :- InferElementType(es, None);
      if inferred.None? then Success(EmptyLists(EmptyShape(Shapes(es))))
      else
        var t := inferred.value;
        if (exists k :: 0 <= k < |es| && es[k].EmptyLists?) && !t.ListType? then
          Failure(ParseFailure(ListElementTypeMismatch(ListType(t), t)))
        else if !t.ListType? then
          Success(ListLit(es, t))
        else
          var items :- ReifyElements(es, t);
          Success(ListLit(items, t))
  }

  /** `_ternary_expression`'s check of the condition, made before the
      branches are read. */
  function CheckCondition(cond: Expr): (r: Result<(), Error>)
    ensures r.Success? <==> ExprType(cond) == Success(BoolType)
    ensures ExprType(cond).Success? && ExprType(cond).value != BoolType ==>
              r == Failure(ParseFailure(TernaryConditionType(ExprType(cond).value)))
  {
    var t :- ExprType(cond);
    if t != BoolType then Failure(ParseFailure(TernaryConditionType(t))) else Success(())
  }

  /** The branches of `c ? t : f` must have one type, which is the type of
      the whole. */
  function MakeTernary(cond: Expr, t: Expr, f: Expr): (r: Result<Expr, Error>)
    ensures r.Success? <==> ExprType(t).Success? && ExprType(t) == ExprType(f)
    ensures r.Success? ==> r.value == Expr.Ternary(cond, t, f, ExprType(t).value)
    ensures ExprType(t).Success? && ExprType(f).Success? && ExprType(t) != ExprType(f) ==>
              r == Failure(ParseFailure(TernaryOperatorType(ExprType(t).value, ExprType(f).value)))
  {
    var tt :- ExprType(t);
    var ft :- ExprType(f);
    if tt != ft then Failure(ParseFailure(TernaryOperatorType(tt, ft)))
    else Success(Expr.Ternary(cond, t, f, tt))
  }

  /** Only a String can be called: the callee is a script or builtin name. */
  function MakeCall(callee: Expr, args: seq<Expr>): (r: Result<Expr, Error>)
    ensures r.Success? <==> ExprType(callee) == Success(StringType)
    ensures r.Success? ==> r.value == Expr.Call(callee, args)
    ensures ExprType(callee).Success? && ExprType(callee).value != StringType ==>
              r == Failure(ParseFailure(TypeNotCallable(ExprType(callee).value)))
  {
    var t :- ExprType(callee);
    if t != StringType then Failure(ParseFailure(TypeNotCallable(t))) else Success(Expr.Call(callee, args))
  }

  /** A String or a list can be indexed by a Number; the result has the
      type of a character or of an element. */
  function MakeSubscript(operand: Expr, index: Expr): (r: Result<Expr, Error>)
    ensures r.Success? <==>
              ExprType(operand).Success? && ExprType(index) == Success(NumberType)
              && ElementTypeOf(ExprType(operand).value).Some?
    ensures r.Success? ==>
              r.value == Subscript(operand, index, ElementTypeOf(ExprType(operand).value).value)
  {
    var ot :- ExprType(operand);
    var it :- ExprType(index);
    if ot == StringType && it == NumberType then Success(Subscript(operand, index, StringType))
    else if ot.ListType? && it == NumberType then Success(Subscript(operand, index, ot.ofType))
    else Failure(ParseFailure(SubscriptOperatorType(ot, it)))
  }

  /** The type of the variable of a `for` or `collect` over `iterable`. */
  function IterationType(iterable: Expr): (r: Result<DataType, Error>)
    ensures r.Success? <==> ExprType(iterable).Success? && ElementTypeOf(ExprType(iterable).value).Some?
    ensures r.Success? ==> r.value == ElementTypeOf(ExprType(iterable).value).value
  {
    var t :- ExprType(iterable);
    if ElementTypeOf(t).None? then Failure(ParseFailure(TypeNotIterable(t))) else Success(ElementTypeOf(t).value)
  }

  /*** Expressions ***/

  /** `_expression(context, precedence)`: a prefix rule, then infix rules
      while they bind tighter than `prec`. */
  function ParseExpr(toks: seq<Token>, ctx: Context, i: nat, prec: Precedence): (r: Result<Parsed<Expr>, Error>)
    requires Ready(toks) && i <= |toks|
    ensures r.Success? ==> i < r.value.next <= |toks| && Good(r.value.value, ctx)
    decreases |toks| - i, 3
  {
    if !InTable(Peek(toks, i).kind) then Failure(InternalFailure)
    else
      var left :- ParsePrefix(toks, ctx, i);
      ParseInfixLoop(toks, ctx, left.value, left.next, prec)
  }

  /** The infix loop of `_expression`. */
  function ParseInfixLoop(toks: seq<Token>, ctx: Context, left: Expr, i: nat, prec: Precedence): (r: Result<Parsed<Expr>, Error>)
    requires Ready(toks) && i <= |toks| && Good(left, ctx)
    ensures r.Success? ==> i <= r.value.next <= |toks| && Good(r.value.value, ctx)
    decreases |toks| - i, 1
  {
    var k := Peek(toks, i).kind;
    if !InTable(k) then Failure(InternalFailure)
    else if InfixPrecedence(k).None? || Rank(InfixPrecedence(k).value) <= Rank(prec) then Success(Parsed(left, i))
    else
      var step :- ParseInfix(toks, ctx, left, i);
      ParseInfixLoop(toks, ctx, step.value, step.next, prec)
  }

  /** The prefix rules: operators, literals, names, groups, list literals,
      comprehensions and `collect`. */
  function ParsePrefix(toks: seq<Token>, ctx: Context, i: nat): (r: Result<Parsed<Expr>, Error>)
    requires Ready(toks) && i <= |toks|
    ensures r.Success? ==> i < r.value.next <= |toks| && Good(r.value.value, ctx)
    decreases |toks| - i, 2
  {
    var tok := Peek(toks, i);
    if UnaryOpOf(tok.kind).Some? && tok.kind != EndOfInput then
      var operand :- ParseExpr(toks, ctx, i + 1, Precedence.Unary);
      Success(Parsed(Expr.Unary(UnaryOpOf(tok.kind).value, operand.value), operand.next))
    else if tok.kind == LeftParenthesis then
      var inner :- ParseExpr(toks, ctx, i + 1, Unknown);
      var close :- Expect(toks, inner.next, RightParenthesis, "')' after grouped expression");
      Success(Parsed(inner.value, close.next))
    else if tok.kind == LeftSquareBracket then ParseListLiteral(toks, ctx, i + 1)
    else if tok.kind == Identifier then
      var e :- ResolveIdentifier(ctx, tok.Lexeme());
      Success(Parsed(e, i + 1))
    else if tok.kind in {StringLiteral, NumberLiteral, BoolLiteral} then
      var e :- Literal(tok);
      Success(Parsed(e, i + 1))
    else if tok.kind == For then ParseComprehension(toks, ctx, i + 1)
    else if tok.kind == Collect then ParseCollect(toks, ctx, i + 1)
    else Failure(Expected(toks, i, "expression"))
  }

  /** `[<items>]` after the `[`. */
  function ParseListLiteral(toks: seq<Token>, ctx: Context, i: nat): (r: Result<Parsed<Expr>, Error>)
    requires Ready(toks) && i <= |toks|
    ensures r.Success? ==> i < r.value.next <= |toks| && Good(r.value.value, ctx)
    decreases |toks| - i, 5
  {
    var items :- ParseElements(toks, ctx, i, RightSquareBracket, "']' after list literal elements");
    var list :- BuildList(items.value);
    ListGood(items.value, list, ctx);
    Success(Parsed(list, items.next))
  }

  /** The value of a string, number or boolean literal token. A lexeme the
      lexer cannot produce is an internal error. */
  function Literal(tok: Token): (r: Result<Expr, Error>)
    ensures r.Success? ==> r.value.StringLit? || r.value.NumberLit? || r.value.BoolLit?
    ensures tok.kind == BoolLiteral ==>
              (r.Success? <==> tok.Lexeme() in {"true", "false"})
              && (r.Success? ==> r.value == BoolLit(tok.Lexeme() == "true"))
    ensures tok.kind == NumberLiteral ==>
              (r.Success? <==> Numbers.LexemeValue(tok.Lexeme()).Some?)
              && (r.Success? ==> r.value == NumberLit(Numbers.LexemeValue(tok.Lexeme()).value))
    ensures tok.kind == StringLiteral ==>
              (r.Success? <==> StringLiterals.FromLexeme(tok.Lexeme()).Some?)
              && (r.Success? ==> r.value == StringLit(StringLiterals.FromLexeme(tok.Lexeme()).value))
  {
    match tok.kind
    case StringLiteral =>
      var text := StringLiterals.FromLexeme(tok.Lexeme());
      if text.None? then Failure(InternalFailure) else Success(StringLit(text.value))
    case NumberLiteral =>
      var x := Numbers.LexemeValue(tok.Lexeme());
      if x.None? then Failure(InternalFailure) else Success(NumberLit(x.value))
    case BoolLiteral =>
      if tok.Lexeme() == "true" then Success(BoolLit(true))
      else if tok.Lexeme() == "false" then Success(BoolLit(false))
      else Failure(InternalFailure)
    case _ => Failure(InternalFailure)
  }

  /** One infix rule: a binary operator, `? :`, a call or a subscript.
      The rule's token is consumed before the rest is read. */
  function ParseInfix(toks: seq<Token>, ctx: Context, left: Expr, i: nat): (r: Result<Parsed<Expr>, Error>)
    requires Ready(toks) && i <= |toks| && Good(left, ctx)
    ensures r.Success? ==> i < r.value.next <= |toks| && Good(r.value.value, ctx)
    decreases |toks| - i, 0
  {
    var k := Peek(toks, i).kind;
    if k.QuestionMark? then ParseTernary(toks, ctx, left, i + 1)
    else if k.LeftParenthesis? then ParseCall(toks, ctx, left, i + 1)
    else if k.LeftSquareBracket? then ParseSubscript(toks, ctx, left, i + 1)
    else if BinaryOpOf(k).Some? && k != EndOfInput then
      ParseBinary(toks, ctx, left, BinaryOpOf(k).value, InfixPrecedence(k).value, i + 1)
    else Failure(InternalFailure)
  }

  /** The right operand of a binary operator of level `prec`, read at that
      level so that operators of the same level group to the left. */
  function ParseBinary(toks: seq<Token>, ctx: Context, left: Expr, op: BinaryOp, prec: Precedence, i: nat): (r: Result<Parsed<Expr>, Error>)
    requires Ready(toks) && i <= |toks| && Good(left, ctx)
    ensures r.Success? ==> i < r.value.next <= |toks| && Good(r.value.value, ctx)
    decreases |toks| - i, 4
  {
    var right :- ParseExpr(toks, ctx, i, prec);
    Success(Parsed(Binary(left, op, right.value), right.next))
  }

  /** `<callee>(<arguments>)` after the `(`. The callee's type is checked
      once the arguments are read. */
  function ParseCall(toks: seq<Token>, ctx: Context, callee: Expr, i: nat): (r: Result<Parsed<Expr>, Error>)
    requires Ready(toks) && i <= |toks| && Good(callee, ctx)
    ensures r.Success? ==> i < r.value.next <= |toks| && Good(r.value.value, ctx)
    decreases |toks| - i, 5
  {
    var args :- ParseElements(toks, ctx, i, RightParenthesis, "')' after function call arguments");
    var e :- MakeCall(callee, args.value);
    Success(Parsed(e, args.next))
  }

  /** `<cond> ? <t> : <f>` after the `?`. The condition is checked before
      the branches are read; each branch binds tighter than `?`. */
  function ParseTernary(toks: seq<Token>, ctx: Context, cond: Expr, i: nat): (r: Result<Parsed<Expr>, Error>)
    requires Ready(toks) && i <= |toks| && Good(cond, ctx)
    ensures r.Success? ==> i < r.value.next <= |toks| && Good(r.value.value, ctx)
    decreases |toks| - i, 4
  {
    var _ :- CheckCondition(cond);
    var t :- ParseExpr(toks, ctx, i, Precedence.Ternary);
    var colon :- Expect(toks, t.next, Colon, "':' in ternary expression");
    var f :- ParseExpr(toks, ctx, colon.next, Precedence.Ternary);
    var e :- MakeTernary(cond, t.value, f.value);
    Success(Parsed(e, f.next))
  }

  /** `<operand>[<index>]` after the `[`. */
  function ParseSubscript(toks: seq<Token>, ctx: Context, operand: Expr, i: nat): (r: Result<Parsed<Expr>, Error>)
    requires Ready(toks) && i <= |toks| && Good(operand, ctx)
    ensures r.Success? ==> i < r.value.next <= |toks| && Good(r.value.value, ctx)
    decreases |toks| - i, 4
  {
    var index :- ParseExpr(toks, ctx, i, Unknown);
    var close :- Expect(toks, index.next, RightSquareBracket, "']' after subscript index");
    var e :- MakeSubscript(operand, index.value);
    Success(Parsed(e, close.next))
  }

  /** The comma-separated items of a call or list literal up to `close`;
      a trailing comma is allowed. */
  function ParseElements(toks: seq<Token>, ctx: Context, i: nat, close: TokenType, what: string): (r: Result<Parsed<seq<Expr>>, Error>)
    requires Ready(toks) && i <= |toks|
    ensures r.Success? ==> i < r.value.next <= |toks| && AllGood(r.value.value, ctx)
    decreases |toks| - i, 4
  {
    if Accept(toks, i, close).Some? then Success(Parsed([], i + 1))
    else
      var first :- ParseExpr(toks, ctx, i, Unknown);
      if Accept(toks, first.next, Comma).None? then
        var end :- Expect(toks, first.next, close, what);
        Success(Parsed([first.value], end.next))
      else
        var rest :- ParseElements(toks, ctx, first.next + 1, close, what);
        Success(Parsed([first.value] + rest.value, rest.next))
  }

  /** `for <iterable> as <name> [if <filter>] yeet <body>`, after `for`. The
      variable is in scope in the filter and the body only. */
  function ParseComprehension(toks: seq<Token>, ctx: Context, i: nat): (r: Result<Parsed<Expr>, Error>)
    requires Ready(toks) && i <= |toks|
    ensures r.Success? ==> i < r.value.next <= |toks| && Good(r.value.value, ctx)
    decreases |toks| - i, 4
  {
    var iterable :- ParseExpr(toks, ctx, i, Unknown);
    var elementType :- IterationType(iterable.value);
    var as_ :- Expect(toks, iterable.next, As, "'as' in list comprehension");
    var id :- Expect(toks, as_.next, Identifier, "loop variable name");
    var name := id.value.Lexeme();
    var _ :- EnsureFresh(ctx, name);
    ParseComprehensionRest(toks, ctx, iterable.value, elementType, name, id.next)
  }

  /** The rest of a comprehension once its variable `name` is read: the
      optional filter, `yeet` and the body. A body that starts with `for`
      is refused. */
  function ParseComprehensionRest(toks: seq<Token>, ctx: Context, iterable: Expr, elementType: DataType, name: string, i: nat)
    : (r: Result<Parsed<Expr>, Error>)
    requires Ready(toks) && i <= |toks| && Good(iterable, ctx)
    requires IterationType(iterable) == Success(elementType)
    ensures r.Success? ==> i < r.value.next <= |toks| && Good(r.value.value, ctx)
    decreases |toks| - i, 5
  {
    var inner := ctx.(vars := ctx.vars + [VarDecl(name, elementType)]);
    var filter :- ParseFilter(toks, inner, i);
    var yeet :- Expect(toks, filter.next, Yeet, "'yeet' in list comprehension");
    if Peek(toks, yeet.next).kind == For then Failure(ParseFailure(NestedListComprehensionsWithoutParentheses))
    else
      var body :- ParseExpr(toks, inner, yeet.next, Unknown);
      ScopeWithVar(ctx, name, elementType);
      Success(Parsed(Comprehension(iterable, name, filter.value, body.value), body.next))
  }

  /** The optional `if <filter>` of a comprehension, which must be a Bool. */
  function ParseFilter(toks: seq<Token>, ctx: Context, i: nat): (r: Result<Parsed<Option<Expr>>, Error>)
    requires Ready(toks) && i <= |toks|
    ensures r.Success? ==> i <= r.value.next <= |toks|
    ensures r.Success? && r.value.value.Some? ==>
              Good(r.value.value.value, ctx) && ExprType(r.value.value.value) == Success(BoolType)
    decreases |toks| - i, 4
  {
    if Accept(toks, i, If).None? then Success(Parsed(None, i))
    else
      var c :- ParseExpr(toks, ctx, i + 1, Unknown);
      var t :- ExprType(c.value);
      if t != BoolType then Failure(ParseFailure(ListComprehensionConditionType(t)))
      else Success(Parsed(Some(c.value), c.next))
  }

  /** `collect <iterable> as <acc>, <element> with <body>`, after `collect`.
      Both names are in scope in the body only, which must have the
      element type. */
  function ParseCollect(toks: seq<Token>, ctx: Context, i: nat): (r: Result<Parsed<Expr>, Error>)
    requires Ready(toks) && i <= |toks|
    ensures r.Success? ==> i < r.value.next <= |toks| && Good(r.value.value, ctx)
    decreases |toks| - i, 4
  {
    var iterable :- ParseExpr(toks, ctx, i, Unknown);
    var elementType :- IterationType(iterable.value);
    var as_ :- Expect(toks, iterable.next, As, "'as' in collect expression");
    var accId :- Expect(toks, as_.next, Identifier, "accumulator identifier");
    var acc := accId.value.Lexeme();
    var _ :- EnsureFresh(ctx, acc);
    var comma :- Expect(toks, accId.next, Comma, "',' in collect expression");
    var elId :- Expect(toks, comma.next, Identifier, "element identifier");
    var el := elId.value.Lexeme();
    var _ :- EnsureFresh(ctx, el);
    var inner := ctx.(vars := ctx.vars + [VarDecl(acc, elementType), VarDecl(el, elementType)]);
    var with_ :- Expect(toks, elId.next, With, "'with' in collect expression");
    var body :- ParseExpr(toks, inner, with_.next, Unknown);
    var bodyType :- ExprType(body.value);
    if bodyType != elementType then Failure(ParseFailure(CollectExpressionType(elementType, bodyType)))
    else
      ScopeWithTwoVars(ctx, acc, el, elementType);
      Success(Parsed(Fold(iterable.value, acc, el, body.value), body.next))
  }

  lemma ScopeWithVar(ctx: Context, name: string, t: DataType)
    ensures VarNames(ctx.vars + [VarDecl(name, t)]) == VarNames(ctx.vars) + {name}
  {
    var vs := ctx.vars + [VarDecl(name, t)];
    assert forall v :: v in vs <==> v in ctx.vars || v == VarDecl(name, t);
  }

  lemma ScopeWithTwoVars(ctx: Context, a: string, b: string, t: DataType)
    ensures VarNames(ctx.vars + [VarDecl(a, t), VarDecl(b, t)]) == VarNames(ctx.vars) + {a, b}
  {
    var vs := ctx.vars + [VarDecl(a, t), VarDecl(b, t)];
    assert forall v :: v in vs <==> v in ctx.vars || v == VarDecl(a, t) || v == VarDecl(b, t);
  }

  /** A list literal built from good elements is good. */
  lemma ListGood(es: seq<Expr>, list: Expr, ctx: Context)
    requires AllGood(es, ctx)
    requires BuildList(es) == Success(list)
    ensures Good(list, ctx)
  {
    if list.ListLit? {
      forall a | a in list.elements
        ensures Checked(a) && ResolvedIn(a, ctx)
      {
        var k :| 0 <= k < |list.elements| && list.elements[k] == a;
        if !es[k].EmptyLists? {
          assert a == es[k];
        } else {
          ReifiedElement(es, list.elementType, k);
        }
      }
    }
  }

  lemma ReifiedElement(es: seq<Expr>, t: DataType, k: nat)
    requires BuildList(es).Success? && BuildList(es).value.ListLit? && BuildList(es).value.elementType == t
    requires k < |es| && es[k].EmptyLists?
    ensures k < |BuildList(es).value.elements|
    ensures var a := BuildList(es).value.elements[k];
            Checked(a) && forall s, p, v :: Resolved(a, s, p, v)
  {
    var inferred := InferElementType(es, None).value;
    assert inferred.Some? && inferred.value == t;
    assert t.ListType?;
    assert BuildList(es) == Success(ListLit(ReifyElements(es, t).value, t));
  }

  /*** Types ***/

  /** `_data_type`: `string`, `number`, `bool` or `list<...>`. */
  function ParseDataType(toks: seq<Token>, i: nat): (r: Result<Parsed<DataType>, Error>)
    requires Ready(toks) && i <= |toks|
    ensures r.Success? ==> i < r.value.next <= |toks|
    decreases |toks| - i
  {
    match Peek(toks, i).kind
    case StringKw => Success(Parsed(StringType, i + 1))
    case NumberKw => Success(Parsed(NumberType, i + 1))
    case BoolKw => Success(Parsed(BoolType, i + 1))
    case ListKw =>
      var open :- Expect(toks, i + 1, TokenType.LessThan, "'<' in list type");
      var inner :- ParseDataType(toks, open.next);
      var close :- Expect(toks, inner.next, TokenType.GreaterThan, "'>' in list type");
      Success(Parsed(ListType(inner.value), close.next))
    case _ => Failure(Expected(toks, i, "data type"))
  }

  /*** Statements ***/

  /** `_assignment`'s target: a store, a parameter or a variable. */
  function ResolveTarget(ctx: Context, name: string): (r: Result<Target, Error>)
    ensures r.Success? ==> r.value.name == name
    ensures name !in StoreNames(ctx.stores) && name !in ctx.params && name !in VarNames(ctx.vars) ==>
              r == Failure(ParseFailure(UnknownVariable(name)))
    ensures r.Success? && name in StoreNames(ctx.stores) ==>
              StoreType(FindStore(ctx.stores, name).value).Success?
              && r.value == StoreTarget(name, StoreType(FindStore(ctx.stores, name).value).value)
    ensures r.Success? && name !in StoreNames(ctx.stores) ==>
              (name in ctx.params <==> r.value.ParamTarget?)
  {
    match FindStore(ctx.stores, name)
    case Some(s) =>
      var t :- StoreType(s);
      Success(StoreTarget(name, t))
    case None =>
      if name in ctx.params then Success(ParamTarget(name))
      else
        match FindVar(ctx.vars, name)
        case Some(v) => Success(VarTarget(name, v.ty))
        case None => Failure(ParseFailure(UnknownVariable(name)))
  }

  /** An assignment's value must have exactly the target's type. */
  function MakeAssignment(target: Target, value: Expr): (r: Result<Stmt, Error>)
    ensures r.Success? <==> ExprType(value) == Success(target.TargetType())
    ensures r.Success? ==> r.value == Assign(target, value)
    ensures ExprType(value).Success? && ExprType(value).value != target.TargetType() ==>
              r == Failure(ParseFailure(AssignmentType(target.TargetType(), ExprType(value).value)))
  {
    var t :- ExprType(value);
    if t != target.TargetType() then Failure(ParseFailure(AssignmentType(target.TargetType(), t)))
    else Success(Assign(target, value))
  }

  /** A `LET` takes the type of its initializer, which must equal the
      annotation when there is one; an empty-list literal needs a list
      annotation and is given that type. */
  function MakeDefinition(name: string, annotation: Option<DataType>, init: Expr): (r: Result<Stmt, Error>)
    ensures r.Success? ==> r.value.VarDef? && r.value.name == name
    ensures r.Success? ==> ExprType(r.value.init) == Success(r.value.ty)
    ensures r.Success? && annotation.Some? ==> r.value.ty == annotation.value
    ensures r.Success? && !init.EmptyLists? ==> r.value.init == init
    ensures init.EmptyLists? && annotation.None? ==>
              r == Failure(ParseFailure(EmptyListLiteralWithoutTypeAnnotation))
    ensures init.EmptyLists? && annotation.Some? && !annotation.value.ListType? ==>
              r == Failure(ParseFailure(InitializationType(name, annotation.value, None)))
    ensures !init.EmptyLists? && annotation.Some? && ExprType(init).Success? ==>
              (r.Success? <==> ExprType(init).value == annotation.value)
  {
    if init.EmptyLists? then
      if annotation.None? then Failure(ParseFailure(EmptyListLiteralWithoutTypeAnnotation))
      else if !annotation.value.ListType? then Failure(ParseFailure(InitializationType(name, annotation.value, None)))
      else
        var value :- Reify(init.shape, annotation.value);
        Success(VarDef(name, annotation.value, value))
    else
      var t :- ExprType(init);
      if annotation.Some? && annotation.value != t then
        Failure(ParseFailure(InitializationType(name, annotation.value, Some(t))))
      else Success(VarDef(name, t, init))
  }

  lemma DefinitionGood(name: string, annotation: Option<DataType>, init: Expr, ctx: Context)
    requires Good(init, ctx) && MakeDefinition(name, annotation, init).Success?
    ensures var d := MakeDefinition(name, annotation, init).value;
            Checked(d.init) && ResolvedIn(d.init, ctx)
  {
    if init.EmptyLists? {
      var v := Reify(init.shape, annotation.value).value;
      assert Resolved(v, StoreNames(ctx.stores), ParamNames(ctx.params), VarNames(ctx.vars));
    }
  }

  /** The optional `: <type>` of a `LET`. */
  function ParseAnnotation(toks: seq<Token>, i: nat): (r: Result<Parsed<Option<DataType>>, Error>)
    requires Ready(toks) && i <= |toks|
    ensures r.Success? ==> i <= r.value.next <= |toks|
  {
    if Accept(toks, i, Colon).None? then Success(Parsed(None, i))
    else
      var t :- ParseDataType(toks, i + 1);
      Success(Parsed(Some(t.value), t.next))
  }

  /** What the parser guarantees of a statement it returns. */
  ghost predicate StmtGood(s: Stmt, ctx: Context) {
    match s
    case Print(e) => Good(e, ctx) && ExprType(e).Success?
    case Assign(target, e) =>
      Good(e, ctx) && ExprType(e) == Success(target.TargetType())
      && (target.StoreTarget? ==> target.name in StoreNames(ctx.stores))
      && (target.ParamTarget? ==> target.name !in StoreNames(ctx.stores) && target.name in ctx.params)
      && (target.VarTarget? ==> target.name !in StoreNames(ctx.stores) && target.name !in ctx.params
                                && VarDecl(target.name, target.ty) in ctx.vars)
    case VarDef(name, t, init) =>
      ExprType(init) == Success(t) && Checked(init) && ResolvedIn(init, ctx)
      && name !in StoreNames(ctx.stores) && name !in ctx.params && name !in VarNames(ctx.vars)
  }

  /** `_statement`: a `PRINT`, an assignment or a `LET`, then `;`. */
  function ParseStatement(toks: seq<Token>, ctx: Context, i: nat): (r: Result<Parsed<Stmt>, Error>)
    requires Ready(toks) && i <= |toks|
    ensures r.Success? ==> i < r.value.next <= |toks| && StmtGood(r.value.value, ctx)
    ensures !(Peek(toks, i).kind in {TokenType.Print, Identifier, Let}) ==> r == Failure(Expected(toks, i, "statement"))
  {
    var kind := Peek(toks, i).kind;
    var s :-
      if kind == TokenType.Print then ParsePrint(toks, ctx, i + 1)
      else if kind == Identifier then ParseAssignment(toks, ctx, i)
      else if kind == Let then ParseDefinition(toks, ctx, i + 1)
      else Failure(Expected(toks, i, "statement"));
    var semi :- Expect(toks, s.next, Semicolon, "';' after statement");
    Success(Parsed(s.value, semi.next))
  }

  /** `PRINT <expression>`, after `PRINT`: the expression must have a type. */
  function ParsePrint(toks: seq<Token>, ctx: Context, i: nat): (r: Result<Parsed<Stmt>, Error>)
    requires Ready(toks) && i <= |toks|
    ensures r.Success? ==> i < r.value.next <= |toks| && StmtGood(r.value.value, ctx) && r.value.value.Print?
  {
    var arg :- ParseExpr(toks, ctx, i, Unknown);
    var _ :- ExprType(arg.value);
    Success(Parsed(Stmt.Print(arg.value), arg.next))
  }

  /** `<name> = <expression>`, with the name at `i`. */
  function ParseAssignment(toks: seq<Token>, ctx: Context, i: nat): (r: Result<Parsed<Stmt>, Error>)
    requires Ready(toks) && i < |toks| && toks[i].kind == Identifier
    ensures r.Success? ==> i < r.value.next <= |toks| && StmtGood(r.value.value, ctx) && r.value.value.Assign?
  {
    var name := toks[i].Lexeme();
    var target :- ResolveTarget(ctx, name);
    var eq :- Expect(toks, i + 1, TokenType.Equals, "'=' in assignment");
    var value :- ParseExpr(toks, ctx, eq.next, Unknown);
    var s :- MakeAssignment(target, value.value);
    Success(Parsed(s, value.next))
  }

  /** `LET <name> [: <type>] = <expression>`, after `LET`. */
  function ParseDefinition(toks: seq<Token>, ctx: Context, i: nat): (r: Result<Parsed<Stmt>, Error>)
    requires Ready(toks) && i <= |toks|
    ensures r.Success? ==> i < r.value.next <= |toks| && StmtGood(r.value.value, ctx) && r.value.value.VarDef?
  {
    var id :- Expect(toks, i, Identifier, "variable name");
    var name := id.value.Lexeme();
    var _ :- EnsureFresh(ctx, name);
    var annotation :- ParseAnnotation(toks, id.next);
    var eq :- Expect(toks, annotation.next, TokenType.Equals, "'=' in variable definition");
    var init :- ParseExpr(toks, ctx, eq.next, Unknown);
    var s :- MakeDefinition(name, annotation.value, init.value);
    DefinitionGood(name, annotation.value, init.value, ctx);
    Success(Parsed(s, init.next))
  }

  /** The variables in scope after statement `s`. */
  function Declare(vars: seq<VarDecl>, s: Stmt): seq<VarDecl> {
    if s.VarDef? then vars + [VarDecl(s.name, s.ty)] else vars
  }

  /** The names `LET` statements define, in order. */
  function DefinedNames(stmts: seq<Stmt>): seq<string> {
    if |stmts| == 0 then []
    else (if stmts[0].VarDef? then [stmts[0].name] else []) + DefinedNames(stmts[1..])
  }

  /** Each statement is good in the scope its predecessors leave. */
  ghost predicate StmtsGood(stmts: seq<Stmt>, ctx: Context)
    decreases |stmts|
  {
    |stmts| == 0
    || (StmtGood(stmts[0], ctx) && StmtsGood(stmts[1..], ctx.(vars := Declare(ctx.vars, stmts[0]))))
  }

  /** `_statements`: statements until the end of input; each sees the
      variables defined before it. */
  function ParseStatements(toks: seq<Token>, ctx: Context, i: nat): (r: Result<Parsed<seq<Stmt>>, Error>)
    requires Ready(toks) && i <= |toks|
    ensures r.Success? ==> i <= r.value.next <= |toks| && AtEnd(toks, r.value.next)
    ensures r.Success? && |r.value.value| == 0 ==> r.value.next == i
    ensures r.Success? ==> StmtsGood(r.value.value, ctx)
    decreases |toks| - i
  {
    if AtEnd(toks, i) then Success(Parsed([], i))
    else
      var s :- ParseStatement(toks, ctx, i);
      var rest :- ParseStatements(toks, ctx.(vars := Declare(ctx.vars, s.value)), s.next);
      assert ([s.value] + rest.value)[1..] == rest.value;
      Success(Parsed([s.value] + rest.value, rest.next))
  }

  /** The names the `LET`s of a good statement list define are distinct,
      and none is a store, a parameter or a variable already in scope. */
  lemma {:induction false} DefinedNamesFresh(stmts: seq<Stmt>, ctx: Context)
    requires StmtsGood(stmts, ctx)
    ensures forall n :: n in DefinedNames(stmts) ==>
              n !in StoreNames(ctx.stores) && n !in ctx.params && n !in VarNames(ctx.vars)
    ensures Distinct(DefinedNames(stmts))
    decreases |stmts|
  {
    if |stmts| > 0 {
      var next := ctx.(vars := Declare(ctx.vars, stmts[0]));
      DefinedNamesFresh(stmts[1..], next);
      DeclareNames(ctx.vars, stmts[0]);
      var rest := DefinedNames(stmts[1..]);
      if stmts[0].VarDef? {
        assert DefinedNames(stmts) == [stmts[0].name] + rest;
        assert stmts[0].name !in rest;
        forall j, k | 0 <= j < k < |DefinedNames(stmts)|
          ensures DefinedNames(stmts)[j] != DefinedNames(stmts)[k]
        {
          assert DefinedNames(stmts)[k] == rest[k - 1];
          if j > 0 { assert DefinedNames(stmts)[j] == rest[j - 1]; }
        }
      } else {
        assert DefinedNames(stmts) == rest;
      }
    }
  }

  predicate Distinct(names: seq<string>) {
    forall j, k :: 0 <= j < k < |names| ==> names[j] != names[k]
  }

  lemma DeclareNames(vars: seq<VarDecl>, s: Stmt)
    ensures VarNames(Declare(vars, s)) == VarNames(vars) + (if s.VarDef? then {s.name} else {})
  {
    if s.VarDef? {
      var vs := vars + [VarDecl(s.name, s.ty)];
      assert forall v :: v in vs <==> v in vars || v == VarDecl(s.name, s.ty);
    }
  }

  /** `_store`: `<name> = <expression>;`, after `STORE`. The initializer
      sees the earlier stores only. */
  function ParseStore(toks: seq<Token>, stores: seq<StoreDecl>, i: nat): (r: Result<Parsed<StoreDecl>, Error>)
    requires Ready(toks) && i <= |toks|
    ensures r.Success? ==> i < r.value.next <= |toks|
    ensures r.Success? ==> r.value.value.name !in StoreNames(stores)
                           && Good(r.value.value.init, Context(stores, [], []))
  {
    var id :- Expect(toks, i, Identifier, "store name");
    var name := id.value.Lexeme();
    if FindStore(stores, name).Some? then Failure(ParseFailure(StoreRedefinition(name)))
    else
      var eq :- Expect(toks, id.next, TokenType.Equals, "'=' after store name");
      var init :- ParseExpr(toks, Context(stores, [], []), eq.next, Unknown);
      var semi :- Expect(toks, init.next, Semicolon, "';' after store declaration");
      Success(Parsed(StoreDecl(name, init.value), semi.next))
  }

  /** Store names are distinct, and each initializer refers to earlier
      stores only: no parameter, no variable outside its own binders. */
  ghost predicate StoresGood(stores: seq<StoreDecl>) {
    forall k :: 0 <= k < |stores| ==>
      stores[k].name !in StoreNames(stores[..k]) && Good(stores[k].init, Context(stores[..k], [], []))
  }

  /** `_stores`: the `STORE` declarations at the head of the script. */
  function ParseStores(toks: seq<Token>, stores: seq<StoreDecl>, i: nat): (r: Result<Parsed<seq<StoreDecl>>, Error>)
    requires Ready(toks) && i <= |toks| && StoresGood(stores)
    ensures r.Success? ==> i <= r.value.next <= |toks| && StoresGood(r.value.value)
    ensures r.Success? ==> Accept(toks, r.value.next, Store).None?
    ensures r.Success? ==> stores <= r.value.value
    decreases |toks| - i
  {
    if Accept(toks, i, Store).None? then Success(Parsed(stores, i))
    else
      var s :- ParseStore(toks, stores, i + 1);
      StoresGoodAppend(stores, s.value);
      var more :- ParseStores(toks, stores + [s.value], s.next);
      Success(more)
  }

  lemma StoresGoodAppend(stores: seq<StoreDecl>, s: StoreDecl)
    requires StoresGood(stores)
    requires s.name !in StoreNames(stores) && Good(s.init, Context(stores, [], []))
    ensures StoresGood(stores + [s])
  {
    var all := stores + [s];
    assert all[..|stores|] == stores;
    forall k | 0 <= k < |stores|
      ensures all[..k] == stores[..k] && all[k] == stores[k]
    {
    }
  }

  /** The names after `PARAMS`, comma-separated; a trailing comma before
      `;` is allowed. */
  function ParseParamNames(toks: seq<Token>, stores: seq<StoreDecl>, params: seq<string>, i: nat): (r: Result<Parsed<seq<string>>, Error>)
    requires Ready(toks) && i <= |toks|
    requires Distinct(params) && forall p :: p in params ==> p !in StoreNames(stores)
    ensures r.Success? ==> i < r.value.next <= |toks| && params <= r.value.value
    ensures r.Success? ==> Distinct(r.value.value) && forall p :: p in r.value.value ==> p !in StoreNames(stores)
    decreases |toks| - i
  {
    var id :- Expect(toks, i, Identifier, "parameter name");
    var name := id.value.Lexeme();
    if FindStore(stores, name).Some? then Failure(ParseFailure(ParameterShadowsStore(name)))
    else if name in params then Failure(ParseFailure(DuplicateParameterName(name)))
    else
      var more := params + [name];
      if Accept(toks, id.next, Comma).None? then Success(Parsed(more, id.next))
      else if Peek(toks, id.next + 1).kind == Semicolon then Success(Parsed(more, id.next + 1))
      else ParseParamNames(toks, stores, more, id.next + 1)
  }

  /** `_parameters`: an optional `PARAMS <names>;`. */
  function ParseParams(toks: seq<Token>, stores: seq<StoreDecl>, i: nat): (r: Result<Parsed<seq<string>>, Error>)
    requires Ready(toks) && i <= |toks|
    ensures r.Success? ==> i <= r.value.next <= |toks|
    ensures r.Success? ==> Distinct(r.value.value) && forall p :: p in r.value.value ==> p !in StoreNames(stores)
    ensures Accept(toks, i, Params).None? ==> r == Success(Parsed([], i))
  {
    if Accept(toks, i, Params).None? then Success(Parsed([], i))
    else
      var names :- ParseParamNames(toks, stores, [], i + 1);
      var semi :- Expect(toks, names.next, Semicolon, "';' after parameter list");
      Success(Parsed(names.value, semi.next))
  }

  /** `Parser(name, tokens).parse()`. */
  function Parse(name: string, toks: seq<Token>): (r: Result<Script, Error>)
    requires Ready(toks)
    ensures r.Success? ==> r.value.name == name && |r.value.statements| >= 1
    ensures r.Success? ==> StoresGood(r.value.stores)
    ensures r.Success? ==> Distinct(r.value.parameters)
                           && forall p :: p in r.value.parameters ==> p !in StoreNames(r.value.stores)
    ensures r.Success? ==> StmtsGood(r.value.statements, Context(r.value.stores, r.value.parameters, []))
    ensures r.Success? ==> Distinct(DefinedNames(r.value.statements))
                           && forall n :: n in DefinedNames(r.value.statements) ==>
                                n !in StoreNames(r.value.stores) && n !in r.value.parameters
  {
    var stores :- ParseStores(toks, [], 0);
    var params :- ParseParams(toks, stores.value, stores.next);
    var stmts :- ParseStatements(toks, Context(stores.value, params.value, []), params.next);
    if |stmts.value| == 0 then Failure(Expected(toks, stmts.next, "at least one statement"))
    else
      DefinedNamesFresh(stmts.value, Context(stores.value, params.value, []));
      Success(Script(name, stores.value, params.value, stmts.value))
  }
}
