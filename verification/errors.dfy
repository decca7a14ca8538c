/** The failures of the scripting engine: lexer errors, the parser's error
    classes, type errors raised while computing static types, execution
    errors, and the few Python exceptions that escape unwrapped. */
module Errors {
  import opened Wrappers
  import opened Tokens
  import opened DataTypes
  import opened Lexer

  /** One constructor per `ParserError` subclass. */
  datatype ParseErrorKind =
    | ExpectedToken(found: Token, what: string)
    | StoreRedefinition(name: string)
    | VariableRedefinition(name: string)
    | InitializationType(name: string, annotated: DataType, inferred: Option<DataType>)
    | UnknownVariable(name: string)
    | ParameterShadowsStore(name: string)
    | VariableShadowsParameter(name: string)
    | VariableShadowsStore(name: string)
    | DuplicateParameterName(name: string)
    | TernaryConditionType(condition: DataType)
    | TernaryOperatorType(whenTrue: DataType, whenFalse: DataType)
    | SubscriptOperatorType(operand: DataType, index: DataType)
    | AssignmentType(target: DataType, value: DataType)
    | TypeNotCallable(callee: DataType)
    | EmptyListLiteralWithoutTypeAnnotation
    | ListElementTypeMismatch(expected: DataType, actual: DataType)
    | ExpectedEmptyListLiteral(count: nat)
    | TypeNotIterable(iterable: DataType)
    | NestedListComprehensionsWithoutParentheses
    | ListComprehensionConditionType(condition: DataType)
    | CollectExpressionType(expected: DataType, actual: DataType)

  /** The causes of `ExecutionError`. */
  datatype ExecErrorKind =
    | StoreNotFound(name: string)
    | StoreTypeMismatch(name: string)
    | ParameterNotDefined(name: string)
    | ParameterTypeMismatch(name: string)
    | VariableNotDefined(name: string)
    | VariableTypeMismatch(name: string)
    | UnsupportedUnaryOperand
    | NumberConversionLexFailed(text: string)
    | NotANumber(text: string)
    | NotABool(text: string)
    | EvaluationFailed
    | StoresInEvaluatedCode
    | ParametersInEvaluatedCode
    | NoOutputFromEvaluatedCode
    | UnsupportedBinaryOperands
    | DivisionByZero
    | ModuloByZero
    | NonIntegralRangeStart
    | NonIntegralRangeEnd
    | ListConcatenationTypeMismatch
    | TernaryConditionNotBool
    | CalleeNotString
    | EmptyListTypeUnknown
    | IndexNotIntegral
    | IndexOutOfRange(index: int, length: nat)
    | SubscriptUnsupported
    | NotIterable
    | EmptyFold
    | SplitNeedsStrings
    | JoinNeedsList
    | JoinNeedsStrings
    | SortNeedsList
    | SortNeedsNumbers
    | ComparatorNotBool
    | ComparatorIncomplete
    | WrongArgumentCount(expected: nat, actual: nat)
    | TooFewArguments(minimum: nat, actual: nat)
    | BuiltinArgumentType(builtin: string)
    | NegativeSqrt
    | ReadFileFailed(path: string)
    | ContainsElementTypeMismatch
    | AlreadyDefined(name: string)
    | DefinitionTypeMismatch(name: string)
    | AssignmentTypeMismatch(name: string)
    | CalledScriptFailed(reason: string)

  datatype Error =
    | LexFailure(lex: LexError)
    | ParseFailure(parse: ParseErrorKind)
      /** Python `TypeError` from `get_data_type`. */
    | TypeFailure
    | ExecFailure(exec: ExecErrorKind)
      /** Python `ValueError`: `min`/`max` over an empty list. */
    | ValueFailure
      /** Python `AssertionError`: states the parser never produces. */
    | InternalFailure
      /** The evaluation depth bound of the model ran out. */
    | OutOfFuel

}
