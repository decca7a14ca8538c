/** The syntax tree the parser builds, and the static types
    (`get_data_type`) of its expressions. */
module Ast {
  import opened Wrappers
  import opened DataTypes
  import opened Errors

  datatype UnaryOp = Plus | Negate | ToNumber | ToText | ToBool | Evaluate | Not

  datatype BinaryOp =
    | Add | Subtract | Multiply | Divide | Modulo
    | Equals | NotEquals | LessThan | LessThanOrEqual | GreaterThan | GreaterThanOrEqual
    | And | Or
    | RangeInclusive | RangeExclusive

  predicate IsArithmetic(op: BinaryOp) {
    op.Add? || op.Subtract? || op.Multiply? || op.Divide? || op.Modulo?
  }

  predicate IsOrdering(op: BinaryOp) {
    op.LessThan? || op.LessThanOrEqual? || op.GreaterThan? || op.GreaterThanOrEqual?
  }

  predicate IsRange(op: BinaryOp) { op.RangeInclusive? || op.RangeExclusive? }

  /** A list literal made only of empty lists, before its type is known:
      `[]` has no children, `[[], []]` two. */
  datatype EmptyShape = EmptyShape(children: seq<EmptyShape>)

  datatype Expr =
    | StringLit(text: string)
    | NumberLit(number: real)
    | BoolLit(flag: bool)
    | StoreRef(name: string, ty: DataType)
    | ParamRef(name: string)
    | VarRef(name: string, ty: DataType)
    | Unary(uop: UnaryOp, operand: Expr)
    | Binary(left: Expr, bop: BinaryOp, right: Expr)
    | Ternary(condition: Expr, whenTrue: Expr, whenFalse: Expr, ty: DataType)
    | Call(callee: Expr, arguments: seq<Expr>)
    | EmptyLists(shape: EmptyShape)
    | ListLit(elements: seq<Expr>, elementType: DataType)
    | Subscript(operand: Expr, index: Expr, ty: DataType)
    | Comprehension(iterable: Expr, variable: string, filter: Option<Expr>, body: Expr)
    | Fold(iterable: Expr, accumulator: string, element: string, body: Expr)
    | Split(source: Expr, delimiter: Option<Expr>)
    | Join(list: Expr, delimiter: Option<Expr>)
    | Sort(list: Expr, lhs: Option<string>, rhs: Option<string>, comparison: Option<Expr>)

  /** What a unary operator accepts and yields; `None` is a `TypeError`. */
  function UnaryType(op: UnaryOp, t: DataType): (r: Option<DataType>)
    ensures r.Some? <==>
              ((op.Plus? || op.Negate?) && t == NumberType)
              || (op.Not? && t == BoolType)
              || ((op.ToNumber? || op.ToText? || op.ToBool?) && t.IsScalar())
              || (op.Evaluate? && t == StringType)
    ensures r.Some? ==> r.value.IsScalar()
  {
    match op
    case Plus | Negate => if t == NumberType then Some(NumberType) else None
    case Not => if t == BoolType then Some(BoolType) else None
    case ToNumber => if t.IsScalar() then Some(NumberType) else None
    case ToText => if t.IsScalar() then Some(StringType) else None
    case ToBool => if t.IsScalar() then Some(BoolType) else None
    case Evaluate => if t == StringType then Some(StringType) else None
  }

  /** What a binary operator accepts and yields; `None` is a `TypeError`. */
  function BinaryType(l: DataType, op: BinaryOp, r: DataType): Option<DataType> {
    if (op.Equals? || op.NotEquals?) && l == r && l.IsScalar() then Some(BoolType)
    else if IsOrdering(op) && l == r && (l == NumberType || l == StringType) then Some(BoolType)
    else if (op.And? || op.Or?) && l == BoolType && r == BoolType then Some(BoolType)
    else if IsArithmetic(op) && l == NumberType && r == NumberType then Some(NumberType)
    else if op.Add? && l == StringType && r == StringType then Some(StringType)
    else if IsRange(op) && l == NumberType && r == NumberType then Some(ListType(NumberType))
    else if op.Add? && l.ListType? && r.ListType? && l.ofType == r.ofType then Some(l)
    else None
  }

  /** `get_data_type` of every expression class. */
  function ExprType(e: Expr): Result<DataType, Error> {
    match e
    case StringLit(_) => Success(StringType)
    case NumberLit(_) => Success(NumberType)
    case BoolLit(_) => Success(BoolType)
    case StoreRef(_, t) => Success(t)
    case ParamRef(_) => Success(StringType)
    case VarRef(_, t) => Success(t)
    case Unary(op, x) =>
      var t :- ExprType(x);
      if UnaryType(op, t).Some? then Success(UnaryType(op, t).value) else Failure(TypeFailure)
    case Binary(l, op, r) =>
      var lt :- ExprType(l);
      var rt :- ExprType(r);
      if BinaryType(lt, op, rt).Some? then Success(BinaryType(lt, op, rt).value) else Failure(TypeFailure)
    case Ternary(_, _, _, t) => Success(t)
    case Call(_, _) => Success(StringType)
    case EmptyLists(_) => Failure(ExecFailure(EmptyListTypeUnknown))
    case ListLit(_, t) => Success(ListType(t))
    case Subscript(_, _, t) => Success(t)
    case Comprehension(_, _, _, body) =>
      var t :- ExprType(body);
      Success(ListType(t))
    case Fold(_, _, _, body) => ExprType(body)
    case Split(_, _) => Success(ListType(StringType))
    case Join(_, _) => Success(StringType)
    case Sort(list, _, _, _) => ExprType(list)
  }

  /** The type a `for` or `collect` variable gets from the iterable's type:
      one-character strings from a string, the elements of a list. */
  function ElementTypeOf(t: DataType): (r: Option<DataType>)
    ensures r.Some? <==> t == StringType || t.ListType?
  {
    match t
    case StringType => Some(StringType)
    case ListType(of) => Some(of)
    case _ => None
  }

  /** The assignable names: a store, a parameter or a variable. */
  datatype Target =
    | StoreTarget(name: string, ty: DataType)
    | ParamTarget(name: string)
    | VarTarget(name: string, ty: DataType)
  {
    function TargetType(): DataType {
      match this
      case StoreTarget(_, t) => t
      case ParamTarget(_) => StringType
      case VarTarget(_, t) => t
    }
  }

  datatype Stmt =
    | Print(argument: Expr)
    | Assign(target: Target, value: Expr)
    | VarDef(name: string, ty: DataType, init: Expr)

  datatype StoreDecl = StoreDecl(name: string, init: Expr)

  /** A parsed script; the statement list is non-empty by construction. */
  datatype Script = Script(name: string, stores: seq<StoreDecl>, parameters: seq<string>, statements: seq<Stmt>)

  /** `is_not_empty`, the validator on a script's statement list. */
  function IsNotEmpty<T>(values: seq<T>): (r: Result<seq<T>, Error>)
    ensures r.Success? <==> |values| > 0
    ensures r.Success? ==> r.value == values
    ensures r.Failure? ==> r.error == ValueFailure
  {
    if |values| == 0 then Failure(ValueFailure) else Success(values)
  }

  /** `Store.data_type`: the type of the initializer. */
  function StoreType(s: StoreDecl): Result<DataType, Error> {
    ExprType(s.init)
  }

  /*** Static typing facts ***/

  /** Bool operands admit exactly `==`, `!=`, `and`, `or`, all giving Bool. */
  lemma BoolOperators(op: BinaryOp)
    ensures BinaryType(BoolType, op, BoolType).Some? <==>
              op.Equals? || op.NotEquals? || op.And? || op.Or?
    ensures BinaryType(BoolType, op, BoolType).Some? ==> BinaryType(BoolType, op, BoolType) == Some(BoolType)
  {
  }

  /** Numbers and strings admit all six comparisons, each giving Bool. */
  lemma ComparisonsGiveBool(t: DataType, op: BinaryOp)
    requires t == NumberType || t == StringType
    requires op.Equals? || op.NotEquals? || IsOrdering(op)
    ensures BinaryType(t, op, t) == Some(BoolType)
  {
  }

  /** Arithmetic is Number-to-Number only; on strings only `+` is defined. */
  lemma ArithmeticTypes(op: BinaryOp, l: DataType, r: DataType)
    requires IsArithmetic(op)
    ensures BinaryType(l, op, r).Some? <==>
              (l == NumberType && r == NumberType)
              || (op.Add? && l == StringType && r == StringType)
              || (op.Add? && l.ListType? && r.ListType? && l.ofType == r.ofType)
    ensures l == NumberType && r == NumberType ==> BinaryType(l, op, r) == Some(NumberType)
  {
  }

  /** Ranges take two Numbers and give a list of Numbers; nothing else. */
  lemma RangeTypes(op: BinaryOp, l: DataType, r: DataType)
    requires IsRange(op)
    ensures BinaryType(l, op, r).Some? <==> l == NumberType && r == NumberType
    ensures BinaryType(l, op, r).Some? ==> BinaryType(l, op, r) == Some(ListType(NumberType))
  {
  }

  /** Lists of different element types cannot be concatenated, and no
      operator but `+` applies to lists. */
  lemma ListOperands(l: DataType, op: BinaryOp, r: DataType)
    requires l.ListType? || r.ListType?
    ensures BinaryType(l, op, r).Some? <==> op.Add? && l.ListType? && r.ListType? && l.ofType == r.ofType
  {
  }
}
