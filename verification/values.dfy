/** Runtime values of the scripting language, their types and their text. */
module Values {
  import opened Wrappers
  import opened PyStr
  import opened Numbers
  import opened DataTypes

  datatype Value =
    | NumberValue(number: real)
    | StringValue(text: string)
    | BoolValue(flag: bool)
    | ListValue(elements: seq<Value>, elementType: DataType)

  /** `get_data_type`: each variant reports its own descriptor. */
  function TypeOf(v: Value): (t: DataType)
    ensures v.NumberValue? <==> t == NumberType
    ensures v.StringValue? <==> t == StringType
    ensures v.BoolValue? <==> t == BoolType
    ensures v.ListValue? <==> t.ListType?
  {
    match v
    case NumberValue(_) => NumberType
    case StringValue(_) => StringType
    case BoolValue(_) => BoolType
    case ListValue(_, t) => ListType(t)
  }

  /** Every element of every list has the list's element type. */
  predicate WellTyped(v: Value)
    decreases v
  {
    match v
    case ListValue(es, t) => AllOfType(es, t)
    case _ => true
  }

  predicate AllOfType(es: seq<Value>, t: DataType)
    decreases es
  {
    forall i :: 0 <= i < |es| ==> TypeOf(es[i]) == t && WellTyped(es[i])
  }

  /** `to_string`. A list prints its elements between brackets, separated
      by ", ". */
  function ToString(v: Value): (s: string)
    decreases v
  {
    match v
    case NumberValue(n) => FormatNumber(n)
    case StringValue(s) => s
    case BoolValue(b) => if b then "true" else "false"
    case ListValue(es, _) => "[" + Join(ElementStrings(es), ", ") + "]"
  }

  function ElementStrings(es: seq<Value>): (r: seq<string>)
    ensures |r| == |es|
    decreases es
  {
    if |es| == 0 then [] else [ToString(es[0])] + ElementStrings(es[1..])
  }

  /** The text of `?s`: only the two spellings a Bool prints as. */
  function ParseBool(s: string): (r: Option<bool>)
    ensures r.Some? <==> s == "true" || s == "false"
  {
    if s == "true" then Some(true) else if s == "false" then Some(false) else None
  }

  /** A Bool prints as `true` or `false`, and reading that text back with
      the `?` conversion gives the Bool again. */
  lemma BoolRoundTrip(b: bool)
    ensures ParseBool(ToString(BoolValue(b))) == Some(b)
    ensures ToString(BoolValue(b)) == "true" <==> b
  {
  }

  /** A String prints as itself. */
  lemma StringPrintsAsItself(s: string)
    ensures ToString(StringValue(s)) == s
  {
  }

  /** An integral Number prints without a fractional part, as `str(int(v))`. */
  lemma IntegralPrintsAsInteger(x: real)
    requires IsIntegral(x)
    ensures ToString(NumberValue(x)) == IntToString(Truncate(x))
    ensures forall i :: 0 <= i < |ToString(NumberValue(x))| ==> ToString(NumberValue(x))[i] != '.'
  {
  }
}
