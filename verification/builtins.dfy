/** The builtin functions a call can name (`BUILTIN_FUNCTIONS`), applied to
    evaluated arguments. `type` needs the unevaluated argument and `replace`
    checks each argument as soon as it is evaluated; the interpreter handles
    those two parts. Every builtin returns a string. */
module Builtins {
  import opened Wrappers
  import opened PyStr
  import opened Numbers
  import opened DataTypes
  import opened Values
  import opened Errors

  /** What the engine takes from its surroundings: floating-point functions
      it cannot compute exactly, the random source, the clock, the files
      under the data root, and the other scripts of the bot. */
  datatype Host = Host(
    sqrt: real -> real,
    pow: (real, real) -> Option<real>,
    random: (real, real) -> real,
    timestamp: real,
    date: string -> string,
    readFile: string -> Option<string>,
    callScript: (string, seq<string>) -> Result<string, string>)

  datatype Arity = Exactly(count: nat) | AtLeast(minimum: nat)

  /** The arity of every builtin; `None` for a name that is not a builtin. */
  function ArityOf(name: string): (r: Option<Arity>)
    ensures r.Some? ==> |name| >= 3
  {
    match name
    case "type" => Some(Exactly(1))
    case "length" => Some(Exactly(1))
    case "upper" => Some(Exactly(1))
    case "lower" => Some(Exactly(1))
    case "trim" => Some(Exactly(1))
    case "replace" => Some(Exactly(3))
    case "contains" => Some(Exactly(2))
    case "starts_with" => Some(Exactly(2))
    case "ends_with" => Some(Exactly(2))
    case "abs" => Some(Exactly(1))
    case "min" => Some(AtLeast(1))
    case "max" => Some(AtLeast(1))
    case "round" => Some(Exactly(1))
    case "floor" => Some(Exactly(1))
    case "ceil" => Some(Exactly(1))
    case "sqrt" => Some(Exactly(1))
    case "pow" => Some(Exactly(2))
    case "random" => Some(Exactly(2))
    case "timestamp" => Some(Exactly(0))
    case "date" => Some(Exactly(1))
    case "read_file" => Some(Exactly(1))
    case _ => None
  }

  predicate IsBuiltin(name: string) { ArityOf(name).Some? }

  predicate Accepts(a: Arity, count: nat) {
    match a
    case Exactly(n) => count == n
    case AtLeast(n) => count >= n
  }

  /** `BuiltinFunction.__call__`: the argument count is checked before any
      argument is evaluated. */
  function CheckArity(name: string, count: nat): (r: Result<(), Error>)
    requires IsBuiltin(name)
    ensures r.Success? <==> Accepts(ArityOf(name).value, count)
  {
    match ArityOf(name).value
    case Exactly(n) =>
      if count != n then Failure(ExecFailure(WrongArgumentCount(n, count))) else Success(())
    case AtLeast(n) =>
      if count < n then Failure(ExecFailure(TooFewArguments(n, count))) else Success(())
  }

  function TypeError(name: string): Error { ExecFailure(BuiltinArgumentType(name)) }

  function BoolText(b: bool): string { if b then "true" else "false" }

  /*** Equality of values for `contains` ***/

  /** `_ContainsFunction.equals`: values of the same kind compare by
      contents, lists also by type and length; values of different kinds
      are an assertion failure. */
  function ValueEquals(a: Value, b: Value): (r: Result<bool, Error>)
    decreases a
  {
    match (a, b)
    case (StringValue(x), StringValue(y)) => Success(x == y)
    case (NumberValue(x), NumberValue(y)) => Success(x == y)
    case (BoolValue(x), BoolValue(y)) => Success(x == y)
    case (ListValue(xs, s), ListValue(ys, t)) =>
      if s != t || |xs| != |ys| then Success(false)
      else AllEqual(xs, ys)
    case _ => Failure(InternalFailure)
  }

  /** `all(equals(l, r) for l, r in zip(xs, ys))`, stopping at the first
      mismatch. */
  function AllEqual(xs: seq<Value>, ys: seq<Value>): (r: Result<bool, Error>)
    requires |xs| == |ys|
    decreases xs
  {
    if |xs| == 0 then Success(true)
    else
      var first :- ValueEquals(xs[0], ys[0]);
      if !first then Success(false) else AllEqual(xs[1..], ys[1..])
  }

  /** `any(equals(needle, e) for e in elements)`. */
  function AnyEqual(needle: Value, elements: seq<Value>): Result<bool, Error>
    decreases |elements|
  {
    if |elements| == 0 then Success(false)
    else
      var first :- ValueEquals(needle, elements[0]);
      if first then Success(true) else AnyEqual(needle, elements[1..])
  }

  /** On well-typed values of the same type the comparison never fails and
      is equality. */
  lemma {:induction false} ValueEqualsIsEquality(a: Value, b: Value)
    requires WellTyped(a) && WellTyped(b) && Values.TypeOf(a) == Values.TypeOf(b)
    ensures ValueEquals(a, b) == Success(a == b)
    decreases a
  {
    if a.ListValue? {
      if |a.elements| == |b.elements| {
        AllEqualIsEquality(a.elements, b.elements, a.elementType);
      }
    }
  }

  lemma {:induction false} AllEqualIsEquality(xs: seq<Value>, ys: seq<Value>, t: DataType)
    requires |xs| == |ys| && AllOfType(xs, t) && AllOfType(ys, t)
    ensures AllEqual(xs, ys) == Success(xs == ys)
    decreases xs
  {
    if |xs| > 0 {
      ValueEqualsIsEquality(xs[0], ys[0]);
      assert AllOfType(xs[1..], t) && AllOfType(ys[1..], t) by {
        assert forall i :: 0 <= i < |xs| - 1 ==> xs[1..][i] == xs[i + 1] && ys[1..][i] == ys[i + 1];
      }
      AllEqualIsEquality(xs[1..], ys[1..], t);
      if xs[0] == ys[0] && xs[1..] == ys[1..] {
        assert xs == [xs[0]] + xs[1..] && ys == [ys[0]] + ys[1..];
      } else if xs[0] != ys[0] {
      } else {
        assert xs[1..] != ys[1..];
      }
    }
  }

  /** A needle of a well-typed list's element type is found exactly when it
      is one of the elements. */
  lemma {:induction false} AnyEqualIsMembership(needle: Value, elements: seq<Value>, t: DataType)
    requires WellTyped(needle) && Values.TypeOf(needle) == t && AllOfType(elements, t)
    ensures AnyEqual(needle, elements) == Success(needle in elements)
    decreases |elements|
  {
    if |elements| > 0 {
      ValueEqualsIsEquality(needle, elements[0]);
      assert AllOfType(elements[1..], t) by {
        assert forall i :: 0 <= i < |elements| - 1 ==> elements[1..][i] == elements[i + 1];
      }
      AnyEqualIsMembership(needle, elements[1..], t);
      assert elements == [elements[0]] + elements[1..];
    }
  }

  /*** min and max ***/

  /** The numbers among `values`, or `None` when one of them is not a
      number. */
  function NumbersOf(values: seq<Value>): (r: Option<seq<real>>)
    ensures r.Some? <==> forall i :: 0 <= i < |values| ==> values[i].NumberValue?
    ensures r.Some? ==> |r.value| == |values|
                        && forall i :: 0 <= i < |values| ==> r.value[i] == values[i].number
  {
    if |values| == 0 then Some([])
    else if !values[0].NumberValue? then None
    else
      match NumbersOf(values[1..])
      case None => None
      case Some(rest) => Some([values[0].number] + rest)
  }

  function Minimum(xs: seq<real>): (m: real)
    requires |xs| > 0
    ensures m in xs && forall i :: 0 <= i < |xs| ==> m <= xs[i]
  {
    if |xs| == 1 then xs[0]
    else
      var rest := Minimum(xs[1..]);
      assert forall i :: 1 <= i < |xs| ==> xs[i] == xs[1..][i - 1];
      if xs[0] <= rest then xs[0] else rest
  }

  function Maximum(xs: seq<real>): (m: real)
    requires |xs| > 0
    ensures m in xs && forall i :: 0 <= i < |xs| ==> xs[i] <= m
  {
    if |xs| == 1 then xs[0]
    else
      var rest := Maximum(xs[1..]);
      assert forall i :: 1 <= i < |xs| ==> xs[i] == xs[1..][i - 1];
      if xs[0] >= rest then xs[0] else rest
  }

  /** `min(...)` and `max(...)`: one list of numbers, or numbers only. An
      empty list is Python's `ValueError`. */
  function Extremum(name: string, args: seq<Value>, smallest: bool): (r: Result<real, Error>)
    requires |args| >= 1
  {
    var numbers :-
      if |args| == 1 && args[0].ListValue? then
        if args[0].elementType != NumberType then Failure(TypeError(name))
        else if |args[0].elements| == 0 then Failure(ValueFailure)
        else match NumbersOf(args[0].elements)
             case None => Failure(InternalFailure)
             case Some(xs) => Success(xs)
      else
        match NumbersOf(args)
        case None => Failure(TypeError(name))
        case Some(xs) => Success(xs);
    Success(if smallest then Minimum(numbers) else Maximum(numbers))
  }

  /*** Applying a builtin ***/

  /** Every builtin but `type`, applied to its evaluated arguments. */
  function ApplyBuiltin(host: Host, name: string, args: seq<Value>): (r: Result<string, Error>)
    requires IsBuiltin(name) && name != "type" && Accepts(ArityOf(name).value, |args|)
  {
    match name
    case "length" =>
      if args[0].StringValue? then Success(NatToString(|args[0].text|))
      else if args[0].ListValue? then Success(NatToString(|args[0].elements|))
      else Failure(TypeError(name))
    case "upper" => if args[0].StringValue? then Success(Upper(args[0].text)) else Failure(TypeError(name))
    case "lower" => if args[0].StringValue? then Success(Lower(args[0].text)) else Failure(TypeError(name))
    case "trim" => if args[0].StringValue? then Success(Strip(args[0].text)) else Failure(TypeError(name))
    case "replace" =>
      if args[0].StringValue? && args[1].StringValue? && args[2].StringValue?
      then Success(Replace(args[0].text, args[1].text, args[2].text))
      else Failure(TypeError(name))
    case "contains" =>
      var haystack := args[0];
      var needle := args[1];
      if needle.StringValue? && haystack.StringValue? then Success(BoolText(Contains(haystack.text, needle.text)))
      else if haystack.ListValue? then
        if Values.TypeOf(needle) != haystack.elementType then Failure(ExecFailure(ContainsElementTypeMismatch))
        else
          var found :- AnyEqual(needle, haystack.elements);
          Success(BoolText(found))
      else Failure(TypeError(name))
    case "starts_with" =>
      if args[0].StringValue? && args[1].StringValue? then Success(BoolText(StartsWith(args[0].text, args[1].text)))
      else Failure(TypeError(name))
    case "ends_with" =>
      if args[0].StringValue? && args[1].StringValue? then Success(BoolText(EndsWith(args[0].text, args[1].text)))
      else Failure(TypeError(name))
    case "abs" => if args[0].NumberValue? then Success(FormatNumber(Abs(args[0].number))) else Failure(TypeError(name))
    case "min" =>
      var m :- Extremum(name, args, true);
      Success(FormatNumber(m))
    case "max" =>
      var m :- Extremum(name, args, false);
      Success(FormatNumber(m))
    case "round" =>
      if args[0].NumberValue? then Success(FormatNumber(RoundHalfEven(args[0].number) as real)) else Failure(TypeError(name))
    case "floor" =>
      if args[0].NumberValue? then Success(FormatNumber(Floor(args[0].number) as real)) else Failure(TypeError(name))
    case "ceil" =>
      if args[0].NumberValue? then Success(FormatNumber(Ceil(args[0].number) as real)) else Failure(TypeError(name))
    case "sqrt" =>
      if !args[0].NumberValue? then Failure(TypeError(name))
      else if args[0].number < 0.0 then Failure(ExecFailure(NegativeSqrt))
      else Success(FormatNumber(host.sqrt(args[0].number)))
    case "pow" =>
      if !args[0].NumberValue? || !args[1].NumberValue? then Failure(TypeError(name))
      else if host.pow(args[0].number, args[1].number).None? then Failure(InternalFailure)
      else Success(FormatNumber(host.pow(args[0].number, args[1].number).value))
    case "random" =>
      if !args[0].NumberValue? || !args[1].NumberValue? then Failure(TypeError(name))
      else Success(FormatNumber(host.random(args[0].number, args[1].number)))
    case "timestamp" => Success(FormatNumber(host.timestamp))
    case "date" => if args[0].StringValue? then Success(host.date(args[0].text)) else Failure(TypeError(name))
    case "read_file" =>
      if !args[0].StringValue? then Failure(TypeError(name))
      else if host.readFile(args[0].text).None? then Failure(ExecFailure(ReadFileFailed(args[0].text)))
      else Success(host.readFile(args[0].text).value)
  }

  /*** Properties ***/

  /** `length` prints the number of characters or elements, in decimal. */
  lemma LengthCounts(host: Host, v: Value)
    requires v.StringValue? || v.ListValue?
    ensures var r := ApplyBuiltin(host, "length", [v]);
            r.Success? && (forall i :: 0 <= i < |r.value| ==> IsAsciiDigit(r.value[i]))
            && DigitsValue(r.value) == (if v.StringValue? then |v.text| else |v.elements|)
  {
    NatToStringRoundTrip(if v.StringValue? then |v.text| else |v.elements|);
  }

  /** `contains` on two strings is the substring test; on a well-typed list
      and a needle of its element type it is membership, and a needle of
      another type is an error. */
  lemma ContainsMeaning(host: Host, haystack: Value, needle: Value)
    requires WellTyped(haystack) && WellTyped(needle)
    ensures haystack.StringValue? && needle.StringValue? ==>
              ApplyBuiltin(host, "contains", [haystack, needle]) == Success(BoolText(Occurs(haystack.text, needle.text)))
    ensures haystack.ListValue? && Values.TypeOf(needle) == haystack.elementType ==>
              ApplyBuiltin(host, "contains", [haystack, needle]) == Success(BoolText(needle in haystack.elements))
    ensures haystack.ListValue? && Values.TypeOf(needle) != haystack.elementType ==>
              ApplyBuiltin(host, "contains", [haystack, needle]) == Failure(ExecFailure(ContainsElementTypeMismatch))
  {
    if haystack.ListValue? && Values.TypeOf(needle) == haystack.elementType {
      AnyEqualIsMembership(needle, haystack.elements, haystack.elementType);
    }
  }

  /** `min` and `max` of numbers print a smallest (largest) argument. */
  lemma ExtremumOfNumbers(args: seq<Value>, smallest: bool)
    requires |args| >= 1 && forall i :: 0 <= i < |args| ==> args[i].NumberValue?
    ensures var r := Extremum(if smallest then "min" else "max", args, smallest);
            r.Success?
            && (exists i :: 0 <= i < |args| && args[i].number == r.value)
            && forall i :: 0 <= i < |args| ==> (if smallest then r.value <= args[i].number else args[i].number <= r.value)
  {
    var xs := NumbersOf(args).value;
    var m := if smallest then Minimum(xs) else Maximum(xs);
    var k :| 0 <= k < |xs| && xs[k] == m;
    assert args[k].number == m;
  }

  /** A single list argument must be a non-empty list of numbers. */
  lemma ExtremumOfList(name: string, list: Value, smallest: bool)
    requires list.ListValue? && WellTyped(list)
    ensures list.elementType != NumberType ==> Extremum(name, [list], smallest) == Failure(TypeError(name))
    ensures list.elementType == NumberType && |list.elements| == 0 ==> Extremum(name, [list], smallest) == Failure(ValueFailure)
    ensures list.elementType == NumberType && |list.elements| > 0 ==>
              var r := Extremum(name, [list], smallest);
              r.Success?
              && (exists i :: 0 <= i < |list.elements| && list.elements[i].number == r.value)
              && forall i :: 0 <= i < |list.elements| ==>
                   (if smallest then r.value <= list.elements[i].number else list.elements[i].number <= r.value)
  {
    if list.elementType == NumberType && |list.elements| > 0 {
      var es := list.elements;
      assert forall i :: 0 <= i < |es| ==> es[i].NumberValue? by {
        forall i | 0 <= i < |es| ensures es[i].NumberValue? {
          assert Values.TypeOf(es[i]) == NumberType;
        }
      }
      var xs := NumbersOf(es).value;
      var m := if smallest then Minimum(xs) else Maximum(xs);
      var k :| 0 <= k < |xs| && xs[k] == m;
      assert es[k].number == m;
    }
  }

  /** `sqrt` rejects exactly the negative numbers. */
  lemma SqrtDomain(host: Host, x: real)
    ensures ApplyBuiltin(host, "sqrt", [NumberValue(x)]).Failure? <==> x < 0.0
  {
  }

  /** `round`, `floor` and `ceil` print integers: the nearest one (ties to
      even), the one below and the one above. */
  lemma RoundingPrintsIntegers(host: Host, x: real)
    ensures ApplyBuiltin(host, "round", [NumberValue(x)]) == Success(IntToString(RoundHalfEven(x)))
    ensures ApplyBuiltin(host, "floor", [NumberValue(x)]) == Success(IntToString(Floor(x)))
    ensures ApplyBuiltin(host, "ceil", [NumberValue(x)]) == Success(IntToString(Ceil(x)))
  {
    assert (RoundHalfEven(x) as real).Floor == RoundHalfEven(x);
    assert (Floor(x) as real).Floor == Floor(x);
    assert (Ceil(x) as real).Floor == Ceil(x);
  }

  /** `upper` and `lower` change the case of every ASCII letter of a string
      and keep its length; lower-casing what `upper` printed gives the same
      text as lower-casing the argument. Both facts are about the ASCII case
      mapping of `PyStr`. */
  lemma CaseMapping(host: Host, s: string)
    ensures ApplyBuiltin(host, "upper", [StringValue(s)]) == Success(Upper(s))
    ensures ApplyBuiltin(host, "lower", [StringValue(s)]) == Success(Lower(s))
    ensures |Upper(s)| == |s| && Lower(Upper(s)) == Lower(s)
  {
    LowerUndoesUpper(s);
  }

  lemma LowerUndoesUpper(s: string)
    ensures Lower(Upper(s)) == Lower(s)
  {
    var u := Upper(s);
    forall i | 0 <= i < |s|
      ensures Lower(u)[i] == Lower(s)[i]
    {
      assert u[i] == UpperChar(s[i]);
    }
  }

  /** `trim` prints its argument without surrounding whitespace. */
  lemma TrimMeaning(host: Host, s: string)
    ensures var r := ApplyBuiltin(host, "trim", [StringValue(s)]);
            r == Success(Strip(s))
            && (|r.value| > 0 ==> !IsSpace(r.value[0]) && !IsSpace(r.value[|r.value| - 1]))
  {
  }

  /** `replace` replaces every occurrence of a non-empty target: the text is
      split on the target and joined with the replacement, and a text
      without the target is printed unchanged. */
  lemma ReplaceMeaning(host: Host, s: string, target: string, replacement: string)
    requires |target| > 0
    ensures ApplyBuiltin(host, "replace", [StringValue(s), StringValue(target), StringValue(replacement)])
              == Success(Join(SplitOn(s, target), replacement))
    ensures !Contains(s, target) ==>
              ApplyBuiltin(host, "replace", [StringValue(s), StringValue(target), StringValue(replacement)]) == Success(s)
  {
    ReplaceIsJoinOfSplit(s, target, replacement);
    if !Contains(s, target) {
      ReplaceAbsent(s, target, replacement);
    }
  }

  /** `starts_with` and `ends_with` print `true` exactly when the second
      string is a prefix (suffix) of the first, and `false` otherwise. */
  lemma AffixMeaning(host: Host, s: string, p: string)
    ensures var r := ApplyBuiltin(host, "starts_with", [StringValue(s), StringValue(p)]);
            r.Success? && (r.value == "true" || r.value == "false")
            && (r.value == "true" <==> |p| <= |s| && s[..|p|] == p)
    ensures var r := ApplyBuiltin(host, "ends_with", [StringValue(s), StringValue(p)]);
            r.Success? && (r.value == "true" || r.value == "false")
            && (r.value == "true" <==> |p| <= |s| && s[|s| - |p|..] == p)
  {
  }

  /** A string starts with its own front part and ends with its own back part. */
  lemma AffixOfConcatenation(host: Host, p: string, t: string)
    ensures ApplyBuiltin(host, "starts_with", [StringValue(p + t), StringValue(p)]) == Success("true")
    ensures ApplyBuiltin(host, "ends_with", [StringValue(t + p), StringValue(p)]) == Success("true")
  {
    assert (p + t)[..|p|] == p;
    assert (t + p)[|t + p| - |p|..] == p;
  }

  /** `abs` prints the magnitude of a number, never with a minus sign. */
  lemma AbsMeaning(host: Host, x: real)
    ensures var r := ApplyBuiltin(host, "abs", [NumberValue(x)]);
            r.Success? && r.value == FormatNumber(if x < 0.0 then -x else x) && r.value[0] != '-'
  {
    AbsPrints(host, x);
    UnsignedPrint(Abs(x));
  }

  /** `abs` prints the same text for a number and its negation. */
  lemma AbsOfNegation(host: Host, x: real)
    ensures ApplyBuiltin(host, "abs", [NumberValue(-x)]) == ApplyBuiltin(host, "abs", [NumberValue(x)])
  {
    AbsPrints(host, x);
    AbsPrints(host, -x);
    assert Abs(-x) == Abs(x);
  }

  lemma AbsPrints(host: Host, x: real)
    ensures ApplyBuiltin(host, "abs", [NumberValue(x)]) == Success(FormatNumber(Abs(x)))
  {
  }

  lemma UnsignedPrint(m: real)
    requires m >= 0.0
    ensures FormatNumber(m)[0] != '-'
  {
  }

  /** `read_file` prints the contents the host gives for the path, and fails
      naming the path when there are none. */
  lemma ReadFileMeaning(host: Host, path: string)
    ensures var r := ApplyBuiltin(host, "read_file", [StringValue(path)]);
            (r.Success? <==> host.readFile(path).Some?)
            && (r.Success? ==> r.value == host.readFile(path).value)
            && (r.Failure? ==> r.error == ExecFailure(ReadFileFailed(path)))
  {
  }

  /** A builtin that takes one string rejects any other kind of value. */
  lemma StringArgumentRequired(host: Host, name: string, v: Value)
    requires name in {"upper", "lower", "trim", "date", "read_file"} && !v.StringValue?
    ensures ApplyBuiltin(host, name, [v]) == Failure(TypeError(name))
  {
  }

  /** `starts_with`, `ends_with` and `replace` reject any argument that is
      not a string. */
  lemma StringArgumentsRequired(host: Host, a: Value, b: Value, c: Value)
    requires !a.StringValue? || !b.StringValue?
    ensures ApplyBuiltin(host, "starts_with", [a, b]) == Failure(TypeError("starts_with"))
    ensures ApplyBuiltin(host, "ends_with", [a, b]) == Failure(TypeError("ends_with"))
    ensures ApplyBuiltin(host, "replace", [a, b, c]) == Failure(TypeError("replace"))
    ensures ApplyBuiltin(host, "replace", [c, a, b]) == Failure(TypeError("replace"))
  {
  }

  /** A builtin that takes numbers rejects any other kind of value. */
  lemma NumberArgumentRequired(host: Host, name: string, v: Value, w: Value)
    requires name in {"abs", "round", "floor", "ceil", "sqrt"} && !v.NumberValue?
    ensures ApplyBuiltin(host, name, [v]) == Failure(TypeError(name))
    ensures ApplyBuiltin(host, "pow", [v, w]) == Failure(TypeError("pow"))
    ensures ApplyBuiltin(host, "pow", [w, v]) == Failure(TypeError("pow"))
    ensures ApplyBuiltin(host, "random", [v, w]) == Failure(TypeError("random"))
    ensures ApplyBuiltin(host, "random", [w, v]) == Failure(TypeError("random"))
  {
  }
}
