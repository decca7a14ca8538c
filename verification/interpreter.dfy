/** Evaluation of expressions (`evaluate` of every expression class),
    execution of statements (`execute`) and of whole scripts
    (`Script.execute`).

    The Python evaluator mutates one `ExecutionContext`; here the context is
    an `Env` value and every evaluation returns the variables as they are
    afterwards, because the binding forms (`for`, `fold`, a custom `sort`
    comparison) write the variable map. Evaluation depth is bounded by
    `fuel`: every nested evaluation spends one unit, loops over elements do
    not, and running out is `OutOfFuel`.

    `Mode` selects between the code as written and the code with the
    corrections the findings describe; the rest of the model runs
    `Corrected`. */
module Interpreter {
  import opened Wrappers
  import PyStr
  import opened DataTypes
  import opened Values
  import opened Errors
  import opened Ast
  import opened Stores
  import Tokens
  import Lexer
  import Parser
  import opened Operators
  import opened Builtins
  import opened Sorting

  /** `AsWritten`: loop variables stay bound after a comprehension, fold or
      custom sort; a call pushes the callee before its arguments are
      evaluated; `$` and `!` lex with the tokenizer as written, and `$`
      looks only at the first two tokens. `Corrected`: loop variables are
      scoped to their loop, arguments are evaluated in the caller's frame,
      trailing whitespace is skipped, and `$` needs the whole text to be one
      number. */
  datatype Mode = AsWritten | Corrected

  type Vars = map<string, Value>

  /** `ExecutionContext` without the application state and the script
      caller (which is part of `Host`). */
  datatype Env = Env(callStack: seq<string>, stores: map<StoreKey, Value>, params: map<string, Value>, vars: Vars)

  /** `call_stack[-1]`: the running script; an empty stack is an
      `IndexError`, which no execution produces. */
  function CurrentScript(env: Env): (r: Result<string, Error>)
    ensures r.Success? <==> |env.callStack| > 0
    ensures r.Success? ==> r.value == env.callStack[|env.callStack| - 1]
  {
    if |env.callStack| == 0 then Failure(InternalFailure)
    else Success(env.callStack[|env.callStack| - 1])
  }

  /*** Identifiers ***/

  /** A store reads under the running script's name and must still hold a
      value of the declared type. */
  function LookupStore(env: Env, name: string, ty: DataType): (r: Result<Value, Error>)
    ensures r.Success? <==>
              |env.callStack| > 0 && StoreKey(env.callStack[|env.callStack| - 1], name) in env.stores
              && TypeOf(env.stores[StoreKey(env.callStack[|env.callStack| - 1], name)]) == ty
    ensures r.Success? ==> r.value == env.stores[StoreKey(env.callStack[|env.callStack| - 1], name)]
  {
    var script :- CurrentScript(env);
    var key := StoreKey(script, name);
    if key !in env.stores then Failure(ExecError(StoreNotFound(name)))
    else if TypeOf(env.stores[key]) != ty then Failure(ExecError(StoreTypeMismatch(name)))
    else Success(env.stores[key])
  }

  /** Parameters are always strings. */
  function LookupParam(env: Env, name: string): (r: Result<Value, Error>)
    ensures r.Success? <==> name in env.params && env.params[name].StringValue?
    ensures r.Success? ==> r.value == env.params[name]
  {
    if name !in env.params then Failure(ExecError(ParameterNotDefined(name)))
    else if !env.params[name].StringValue? then Failure(ExecError(ParameterTypeMismatch(name)))
    else Success(env.params[name])
  }

  function LookupVar(env: Env, name: string, ty: DataType): (r: Result<Value, Error>)
    ensures r.Success? <==> name in env.vars && TypeOf(env.vars[name]) == ty
    ensures r.Success? ==> r.value == env.vars[name]
  {
    if name !in env.vars then Failure(ExecError(VariableNotDefined(name)))
    else if TypeOf(env.vars[name]) != ty then Failure(ExecError(VariableTypeMismatch(name)))
    else Success(env.vars[name])
  }

  /*** Iteration ***/

  /** The one-character strings of a string, in order. */
  function Chars(s: string): (r: seq<Value>)
    ensures |r| == |s|
    ensures forall i :: 0 <= i < |s| ==> r[i] == StringValue([s[i]])
  {
    seq(|s|, i requires 0 <= i < |s| => StringValue([s[i]]))
  }

  /** What `for` and `fold` iterate over: the characters of a string or the
      elements of a list. */
  function Items(v: Value): (r: Result<seq<Value>, Error>)
    ensures r.Success? <==> v.StringValue? || v.ListValue?
    ensures v.ListValue? ==> r == Success(v.elements)
    ensures v.StringValue? ==> r == Success(Chars(v.text))
  {
    match v
    case StringValue(s) => Success(Chars(s))
    case ListValue(es, _) => Success(es)
    case _ => Failure(ExecError(NotIterable))
  }

  predicate AllStrings(vs: seq<Value>) {
    forall i :: 0 <= i < |vs| ==> vs[i].StringValue?
  }

  function Texts(vs: seq<Value>): (r: seq<string>)
    requires AllStrings(vs)
    ensures |r| == |vs|
    ensures forall i :: 0 <= i < |vs| ==> r[i] == vs[i].text
  {
    seq(|vs|, i requires 0 <= i < |vs| => vs[i].text)
  }

  function StringValues(parts: seq<string>): (r: seq<Value>)
    ensures |r| == |parts|
    ensures forall i :: 0 <= i < |parts| ==> r[i] == StringValue(parts[i])
  {
    seq(|parts|, i requires 0 <= i < |parts| => StringValue(parts[i]))
  }

  /*** Expressions ***/

  /** `evaluate`: the value of `e` and the variables afterwards. In the
      corrected reading no expression changes the variables. */
  function Eval(mode: Mode, h: Host, env: Env, e: Expr, fuel: nat): (r: Result<(Value, Vars), Error>)
    ensures mode.Corrected? && r.Success? ==> r.value.1 == env.vars
    decreases fuel, 0, 0
  {
    if fuel == 0 then Failure(OutOfFuel)
    else
      var f := fuel - 1;
      match e
      case StringLit(s) => Success((StringValue(s), env.vars))
      case NumberLit(x) => Success((NumberValue(x), env.vars))
      case BoolLit(b) => Success((BoolValue(b), env.vars))
      case StoreRef(name, ty) =>
        var v :- LookupStore(env, name, ty);
        Success((v, env.vars))
      case ParamRef(name) =>
        var v :- LookupParam(env, name);
        Success((v, env.vars))
      case VarRef(name, ty) =>
        var v :- LookupVar(env, name, ty);
        Success((v, env.vars))
      case Unary(op, x) => EvalUnary(mode, h, env, op, x, f)
      case Binary(l, op, r) =>
        var a :- Eval(mode, h, env, l, f);
        var b :- Eval(mode, h, env.(vars := a.1), r, f);
        var v :- ApplyBinary(a.0, op, b.0);
        Success((v, b.1))
      case Ternary(c, t, el, _) =>
        var p :- Eval(mode, h, env, c, f);
        if !p.0.BoolValue? then Failure(ExecError(TernaryConditionNotBool))
        else Eval(mode, h, env.(vars := p.1), if p.0.flag then t else el, f)
      case Call(callee, args) => EvalCall(mode, h, env, callee, args, f)
      case EmptyLists(_) => Failure(InternalFailure)
      case ListLit(es, t) =>
        var vs :- EvalSeq(mode, h, env, es, f);
        Success((ListValue(vs.0, t), vs.1))
      case Subscript(x, i, _) =>
        var a :- Eval(mode, h, env, x, f);
        var b :- Eval(mode, h, env.(vars := a.1), i, f);
        var v :- ApplySubscript(a.0, b.0);
        Success((v, b.1))
      case Comprehension(iterable, x, filter, body) => EvalFor(mode, h, env, iterable, x, filter, body, f)
      case Fold(iterable, acc, x, body) => EvalCollect(mode, h, env, iterable, acc, x, body, f)
      case Split(source, delimiter) => EvalSplit(mode, h, env, source, delimiter, f)
      case Join(list, delimiter) => EvalJoin(mode, h, env, list, delimiter, f)
      case Sort(list, lhs, rhs, comparison) => EvalSort(mode, h, env, list, lhs, rhs, comparison, f)
  }

  /** A unary operation; `!` runs its operand as code. */
  function EvalUnary(mode: Mode, h: Host, env: Env, op: UnaryOp, x: Expr, fuel: nat): (r: Result<(Value, Vars), Error>)
    ensures mode.Corrected? && r.Success? ==> r.value.1 == env.vars
    decreases fuel, 5, 0
  {
    var o :- Eval(mode, h, env, x, fuel);
    if op.Evaluate? then
      if !o.0.StringValue? then Failure(ExecError(UnsupportedUnaryOperand))
      else
        var out :- EvaluateCode(mode, h, o.0.text, fuel);
        Success((StringValue(out), o.1))
    else if mode.AsWritten? && op.ToNumber? && o.0.StringValue? then
      var v :- TextToNumberAsWritten(o.0.text);
      Success((v, o.1))
    else
      var v :- ApplyUnary(op, o.0);
      Success((v, o.1))
  }

  /** `!` and `str` give a string, `+`, `-` and `$` a number, `not` and
      `bool` a Boolean, whichever reading of `$` is in force. */
  lemma UnaryResultKind(mode: Mode, h: Host, env: Env, op: UnaryOp, x: Expr, fuel: nat)
    ensures var r := EvalUnary(mode, h, env, op, x, fuel);
            (r.Success? && (op.Evaluate? || op.ToText?) ==> r.value.0.StringValue?)
            && (r.Success? && (op.Plus? || op.Negate? || op.ToNumber?) ==> r.value.0.NumberValue?)
            && (r.Success? && (op.Not? || op.ToBool?) ==> r.value.0.BoolValue?)
  {
  }

  /** A call: the callee must be a string naming a builtin, whose argument
      count is checked before any argument is evaluated, or another script. */
  function EvalCall(mode: Mode, h: Host, env: Env, callee: Expr, args: seq<Expr>, fuel: nat): (r: Result<(Value, Vars), Error>)
    ensures mode.Corrected? && r.Success? ==> r.value.1 == env.vars
    decreases fuel, 3, 0
  {
    var c :- Eval(mode, h, env, callee, fuel);
    if !c.0.StringValue? then Failure(ExecError(CalleeNotString))
    else if IsBuiltin(c.0.text) then
      var _ :- CheckArity(c.0.text, |args|);
      var out :- CallBuiltin(mode, h, env.(vars := c.1), c.0.text, args, fuel);
      Success((StringValue(out.0), out.1))
    else CallScript(mode, h, env.(vars := c.1), c.0.text, args, fuel)
  }

  /** `for iterable as x if filter yeet body`: the list of the body's values
      for the items the filter keeps, typed by the body's static type. */
  function EvalFor(mode: Mode, h: Host, env: Env, iterable: Expr, x: string, filter: Option<Expr>, body: Expr,
                   fuel: nat): (r: Result<(Value, Vars), Error>)
    ensures mode.Corrected? && r.Success? ==> r.value.1 == env.vars
    decreases fuel, 2, 0
  {
    var it :- Eval(mode, h, env, iterable, fuel);
    var items :- Items(it.0);
    var loop :- EvalComprehension(mode, h, env.(vars := it.1), x, filter, body, items, fuel);
    var t :- ExprType(body);
    Success((ListValue(loop.0, t), loop.1))
  }

  /** `fold`/`collect`: over a string the accumulator starts at `""`, over a
      list at its first element, and an empty list is an error. */
  function EvalCollect(mode: Mode, h: Host, env: Env, iterable: Expr, acc: string, x: string, body: Expr,
                       fuel: nat): (r: Result<(Value, Vars), Error>)
    ensures mode.Corrected? && r.Success? ==> r.value.1 == env.vars
    decreases fuel, 2, 0
  {
    var it :- Eval(mode, h, env, iterable, fuel);
    if it.0.StringValue? then
      EvalFold(mode, h, env.(vars := it.1), acc, x, body, StringValue(""), Chars(it.0.text), fuel)
    else if !it.0.ListValue? then Failure(ExecError(NotIterable))
    else if |it.0.elements| == 0 then Failure(ExecError(EmptyFold))
    else EvalFold(mode, h, env.(vars := it.1), acc, x, body, it.0.elements[0], it.0.elements[1..], fuel)
  }

  /** `split(s)` on single spaces, or `split(s, d)`. */
  function EvalSplit(mode: Mode, h: Host, env: Env, source: Expr, delimiter: Option<Expr>, fuel: nat): (r: Result<(Value, Vars), Error>)
    ensures mode.Corrected? && r.Success? ==> r.value.1 == env.vars
    decreases fuel, 2, 0
  {
    var s :- Eval(mode, h, env, source, fuel);
    if !s.0.StringValue? then Failure(ExecError(SplitNeedsStrings))
    else
      var d :- EvalDelimiter(mode, h, env.(vars := s.1), delimiter, " ", SplitNeedsStrings, fuel);
      if |d.0| == 0 then Failure(ValueFailure)
      else Success((ListValue(StringValues(PyStr.SplitOn(s.0.text, d.0)), StringType), d.1))
  }

  /** `join(list)` with no separator, or `join(list, d)`; every element is
      checked to be a string before the delimiter is evaluated. */
  function EvalJoin(mode: Mode, h: Host, env: Env, list: Expr, delimiter: Option<Expr>, fuel: nat): (r: Result<(Value, Vars), Error>)
    ensures mode.Corrected? && r.Success? ==> r.value.1 == env.vars
    decreases fuel, 2, 0
  {
    var l :- Eval(mode, h, env, list, fuel);
    if !l.0.ListValue? then Failure(ExecError(JoinNeedsList))
    else if !AllStrings(l.0.elements) then Failure(ExecError(JoinNeedsStrings))
    else
      var d :- EvalDelimiter(mode, h, env.(vars := l.1), delimiter, "", JoinNeedsStrings, fuel);
      Success((StringValue(PyStr.Join(Texts(l.0.elements), d.0)), d.1))
  }

  /** `sort(list)` in ascending numeric order, or `sort(list; a, b yeet cmp)`
      with `cmp` meaning "a before b". A list of at most one element is
      returned without any comparison. */
  function EvalSort(mode: Mode, h: Host, env: Env, list: Expr, lhs: Option<string>, rhs: Option<string>,
                    comparison: Option<Expr>, fuel: nat): (r: Result<(Value, Vars), Error>)
    ensures mode.Corrected? && r.Success? ==> r.value.1 == env.vars
    decreases fuel, 2, 0
  {
    var l :- Eval(mode, h, env, list, fuel);
    if !l.0.ListValue? then Failure(ExecError(SortNeedsList))
    else if |l.0.elements| <= 1 then Success(l)
    else if comparison.None? then
      var sorted :- SortNumbers(l.0.elements);
      Success((ListValue(sorted, l.0.elementType), l.1))
    else
      var inner := env.(vars := l.1);
      var sorted :- MergeSort(l.0.elements, l.1,
                      (vs: Vars, a: Value, b: Value) => CompareWith(mode, h, inner, lhs, rhs, comparison.value, vs, a, b, fuel));
      Success((ListValue(sorted.0, l.0.elementType), if mode.AsWritten? then sorted.1 else l.1))
  }

  /** The elements of a list literal or an argument list, left to right. */
  function EvalSeq(mode: Mode, h: Host, env: Env, es: seq<Expr>, fuel: nat): (r: Result<(seq<Value>, Vars), Error>)
    ensures r.Success? ==> |r.value.0| == |es|
    ensures mode.Corrected? && r.Success? ==> r.value.1 == env.vars
    decreases fuel, 1, |es|
  {
    if |es| == 0 then Success(([], env.vars))
    else
      var first :- Eval(mode, h, env, es[0], fuel);
      var rest :- EvalSeq(mode, h, env.(vars := first.1), es[1..], fuel);
      Success(([first.0] + rest.0, rest.1))
  }

  /** `replace` checks each argument is a string as soon as it has been
      evaluated. */
  function EvalTextArgs(mode: Mode, h: Host, env: Env, es: seq<Expr>, fuel: nat): (r: Result<(seq<Value>, Vars), Error>)
    ensures r.Success? ==> |r.value.0| == |es| && AllStrings(r.value.0)
    ensures mode.Corrected? && r.Success? ==> r.value.1 == env.vars
    decreases fuel, 1, |es|
  {
    if |es| == 0 then Success(([], env.vars))
    else
      var first :- Eval(mode, h, env, es[0], fuel);
      if !first.0.StringValue? then Failure(Builtins.TypeError("replace"))
      else
        var rest :- EvalTextArgs(mode, h, env.(vars := first.1), es[1..], fuel);
        Success(([first.0] + rest.0, rest.1))
  }

  /** A builtin whose argument count has been checked. `type` reports the
      static type of its unevaluated argument. */
  function CallBuiltin(mode: Mode, h: Host, env: Env, name: string, args: seq<Expr>, fuel: nat): (r: Result<(string, Vars), Error>)
    requires IsBuiltin(name) && Accepts(ArityOf(name).value, |args|)
    ensures mode.Corrected? && r.Success? ==> r.value.1 == env.vars
    decreases fuel, 2, 0
  {
    if name == "type" then
      var t :- ExprType(args[0]);
      Success((t.Name(), env.vars))
    else if name == "replace" then
      var vs :- EvalTextArgs(mode, h, env, args, fuel);
      var out :- ApplyBuiltin(h, name, vs.0);
      Success((out, vs.1))
    else
      var vs :- EvalSeq(mode, h, env, args, fuel);
      var out :- ApplyBuiltin(h, name, vs.0);
      Success((out, vs.1))
  }

  /** A call of another script: the arguments are passed as their text and
      the callee's output is the value. As written, the callee is pushed on
      the call stack before the arguments are evaluated, so a store read in
      an argument is looked up under the callee's name. */
  function CallScript(mode: Mode, h: Host, env: Env, name: string, args: seq<Expr>, fuel: nat): (r: Result<(Value, Vars), Error>)
    ensures mode.Corrected? && r.Success? ==> r.value.1 == env.vars
    decreases fuel, 2, 0
  {
    var frame := if mode.AsWritten? then env.(callStack := env.callStack + [name]) else env;
    var vs :- EvalSeq(mode, h, frame, args, fuel);
    match h.callScript(name, ElementStrings(vs.0))
    case Failure(reason) => Failure(ExecError(CalledScriptFailed(reason)))
    case Success(out) => Success((StringValue(out), vs.1))
  }

  /** The optional delimiter of `split` and `join`. */
  function EvalDelimiter(mode: Mode, h: Host, env: Env, delimiter: Option<Expr>, default: string,
                         err: ExecErrorKind, fuel: nat): (r: Result<(string, Vars), Error>)
    ensures delimiter.None? ==> r == Success((default, env.vars))
    ensures mode.Corrected? && r.Success? ==> r.value.1 == env.vars
    decreases fuel, 1, 0
  {
    if delimiter.None? then Success((default, env.vars))
    else
      var d :- Eval(mode, h, env, delimiter.value, fuel);
      if !d.0.StringValue? then Failure(ExecError(err)) else Success((d.0.text, d.1))
  }

  /** One pass of `for iterable as x if filter yeet body` over `items`: the
      filter must yield exactly `true` (any other value skips the item). */
  function EvalComprehension(mode: Mode, h: Host, env: Env, x: string, filter: Option<Expr>, body: Expr,
                             items: seq<Value>, fuel: nat): (r: Result<(seq<Value>, Vars), Error>)
    ensures r.Success? ==> |r.value.0| <= |items|
    ensures filter.None? && r.Success? ==> |r.value.0| == |items|
    ensures mode.Corrected? && r.Success? ==> r.value.1 == env.vars
    decreases fuel, 1, |items|
  {
    if |items| == 0 then Success(([], env.vars))
    else
      var inner := env.(vars := env.vars[x := items[0]]);
      var keep :- EvalFilter(mode, h, inner, filter, fuel);
      var head :- EvalKept(mode, h, inner.(vars := keep.1), keep.0, body, fuel);
      var next := if mode.AsWritten? then env.(vars := head.1) else env;
      var rest :- EvalComprehension(mode, h, next, x, filter, body, items[1..], fuel);
      Success((head.0 + rest.0, rest.1))
  }

  /** Whether the filter lets the current item through. */
  function EvalFilter(mode: Mode, h: Host, env: Env, filter: Option<Expr>, fuel: nat): (r: Result<(bool, Vars), Error>)
    ensures filter.None? ==> r == Success((true, env.vars))
    ensures mode.Corrected? && r.Success? ==> r.value.1 == env.vars
    decreases fuel, 1, 0
  {
    if filter.None? then Success((true, env.vars))
    else
      var c :- Eval(mode, h, env, filter.value, fuel);
      Success((c.0 == BoolValue(true), c.1))
  }

  /** The body's value for a kept item, nothing for a skipped one. */
  function EvalKept(mode: Mode, h: Host, env: Env, keep: bool, body: Expr, fuel: nat): (r: Result<(seq<Value>, Vars), Error>)
    ensures r.Success? ==> |r.value.0| == (if keep then 1 else 0)
    ensures mode.Corrected? && r.Success? ==> r.value.1 == env.vars
    decreases fuel, 1, 0
  {
    if !keep then Success(([], env.vars))
    else
      var b :- Eval(mode, h, env, body, fuel);
      Success(([b.0], b.1))
  }

  /** `fold`: the accumulator starts at `seed` and is replaced by the
      body's value for each item in turn. */
  function EvalFold(mode: Mode, h: Host, env: Env, acc: string, x: string, body: Expr, seed: Value,
                    items: seq<Value>, fuel: nat): (r: Result<(Value, Vars), Error>)
    ensures |items| == 0 ==> r == Success((seed, env.vars))
    ensures mode.Corrected? && r.Success? ==> r.value.1 == env.vars
    decreases fuel, 1, |items|
  {
    if |items| == 0 then Success((seed, env.vars))
    else
      var inner := env.(vars := env.vars[acc := seed][x := items[0]]);
      var b :- Eval(mode, h, inner, body, fuel);
      var next := if mode.AsWritten? then env.(vars := b.1) else env;
      EvalFold(mode, h, next, acc, x, body, b.0, items[1..], fuel)
  }

  /** The custom `sort` comparison of `a` with `b`: -1 when `a < b` holds,
      otherwise 1 when `b < a` holds, otherwise 0. The variables are the
      comparator's threaded state. */
  function CompareWith(mode: Mode, h: Host, env: Env, lhs: Option<string>, rhs: Option<string>, comparison: Expr,
                       vars: Vars, a: Value, b: Value, fuel: nat): (r: Result<(int, Vars), Error>)
    ensures r.Success? ==> -1 <= r.value.0 <= 1
    ensures mode.Corrected? && r.Success? ==> r.value.1 == vars
    decreases fuel, 1, 0
  {
    if lhs.None? || rhs.None? then Failure(ExecError(ComparatorIncomplete))
    else
      var forward :- Eval(mode, h, env.(vars := vars[lhs.value := a][rhs.value := b]), comparison, fuel);
      if !forward.0.BoolValue? then Failure(ExecError(ComparatorNotBool))
      else if forward.0.flag then Success((-1, if mode.AsWritten? then forward.1 else vars))
      else
        var backward :- Eval(mode, h, env.(vars := forward.1[lhs.value := b][rhs.value := a]), comparison, fuel);
        if !backward.0.BoolValue? then Failure(ExecError(ComparatorNotBool))
        else Success((if backward.0.flag then 1 else 0, if mode.AsWritten? then backward.1 else vars))
  }

  /** `!code`: the text is lexed and parsed as a script of its own, which
      may declare neither stores nor parameters, runs with an always-empty
      store, and must print something. */
  function EvaluateCode(mode: Mode, h: Host, code: string, fuel: nat): (r: Result<string, Error>)
    ensures r.Success? ==> Lex(mode, code).Success?
    decreases fuel, 4, 0
  {
    TokenizeReady(mode, code);
    match Lex(mode, code)
    case Failure(_) => Failure(ExecError(EvaluationFailed))
    case Success(toks) =>
      match Parser.Parse("", toks)
      case Failure(_) => Failure(ExecError(EvaluationFailed))
      case Success(script) =>
        if |script.stores| > 0 then Failure(ExecError(StoresInEvaluatedCode))
        else if |script.parameters| > 0 then Failure(ExecError(ParametersInEvaluatedCode))
        else
          var out :- RunScript(mode, h, script, AlwaysEmpty, map[], fuel);
          if out.None? then Failure(ExecError(NoOutputFromEvaluatedCode)) else Success(out.value)
  }

  /** `!` fails when the text does not lex or does not parse, and runs
      only a script that declares neither stores nor parameters. */
  lemma EvaluateCodeChecks(mode: Mode, h: Host, code: string, fuel: nat)
    ensures var r := EvaluateCode(mode, h, code, fuel);
            (Lex(mode, code).Failure? ==> r == Failure(ExecError(EvaluationFailed)))
            && ((Lex(mode, code).Success? && Parser.Ready(Lex(mode, code).value)
                 && Parser.Parse("", Lex(mode, code).value).Failure?) ==> r == Failure(ExecError(EvaluationFailed)))
            && (r.Success? ==>
                  Lex(mode, code).Success? && Parser.Ready(Lex(mode, code).value)
                  && Parser.Parse("", Lex(mode, code).value).Success?
                  && Parser.Parse("", Lex(mode, code).value).value.stores == []
                  && Parser.Parse("", Lex(mode, code).value).value.parameters == [])
  {
    TokenizeReady(mode, code);
  }

  /** The tokenizer `!` and `$` run with: as written, or with trailing
      whitespace skipped. */
  function Lex(mode: Mode, code: string): Result<seq<Tokens.Token>, Lexer.LexError> {
    if mode.AsWritten? then Lexer.TokenizeAsWritten(code) else Lexer.Tokenize(code)
  }

  /** Whatever either tokenizer returns ends with the end-of-input token, as
      the parser requires. */
  lemma TokenizeReady(mode: Mode, code: string)
    ensures Lex(mode, code).Success? ==> Parser.Ready(Lex(mode, code).value)
  {
    Lexer.TokenizeCovers(code);
    if Lex(mode, code).Success? {
      Lexer.CoversEndsWithEndToken(code, Lex(mode, code).value, 0);
    }
  }

  /*** Statements ***/

  /** `execute` of one statement: the text it prints, if any, and the
      context afterwards. Targets are checked against the static type of
      the right-hand side before it is evaluated. */
  function ExecStmt(mode: Mode, h: Host, env: Env, s: Stmt, fuel: nat): (r: Result<(Option<string>, Env), Error>)
    ensures r.Success? ==> (r.value.0.Some? <==> s.Print?)
    ensures r.Success? ==> r.value.1.callStack == env.callStack
    decreases fuel, 1, 0
  {
    match s
    case Print(x) =>
      var v :- Eval(mode, h, env, x, fuel);
      Success((Some(ToString(v.0)), env.(vars := v.1)))
    case Assign(StoreTarget(name, _), x) =>
      var script :- CurrentScript(env);
      var key := StoreKey(script, name);
      if key !in env.stores then Failure(ExecError(StoreNotFound(name)))
      else
        var t :- ExprType(x);
        if TypeOf(env.stores[key]) != t then Failure(ExecError(AssignmentTypeMismatch(name)))
        else
          var v :- Eval(mode, h, env, x, fuel);
          Success((None, env.(stores := env.stores[key := v.0], vars := v.1)))
    case Assign(ParamTarget(name), x) =>
      if name !in env.params then Failure(ExecError(ParameterNotDefined(name)))
      else
        var t :- ExprType(x);
        if TypeOf(env.params[name]) != t then Failure(ExecError(AssignmentTypeMismatch(name)))
        else
          var v :- Eval(mode, h, env, x, fuel);
          Success((None, env.(params := env.params[name := v.0], vars := v.1)))
    case Assign(VarTarget(name, _), x) =>
      if name !in env.vars then Failure(ExecError(VariableNotDefined(name)))
      else
        var t :- ExprType(x);
        if TypeOf(env.vars[name]) != t then Failure(ExecError(AssignmentTypeMismatch(name)))
        else
          var v :- Eval(mode, h, env, x, fuel);
          Success((None, env.(vars := v.1[name := v.0])))
    case VarDef(name, ty, x) =>
      if name in env.vars then Failure(ExecError(AlreadyDefined(name)))
      else
        var t :- ExprType(x);
        if t != ty then Failure(ExecError(DefinitionTypeMismatch(name)))
        else
          var v :- Eval(mode, h, env, x, fuel);
          Success((None, env.(vars := v.1[name := v.0])))
  }

  /** `output = result if output is None else f"{output}{result}"`. */
  function AppendOutput(out: Option<string>, piece: Option<string>): (r: Option<string>)
    ensures r.None? <==> out.None? && piece.None?
  {
    if piece.None? then out
    else if out.None? then piece
    else Some(out.value + piece.value)
  }

  /** The statements in order, each seeing the context the previous one
      left, collecting the printed text. */
  function ExecStmts(mode: Mode, h: Host, env: Env, stmts: seq<Stmt>, out: Option<string>, fuel: nat): (r: Result<(Option<string>, Env), Error>)
    ensures r.Success? ==> r.value.1.callStack == env.callStack
    decreases fuel, 2, |stmts|
  {
    if |stmts| == 0 then Success((out, env))
    else
      var first :- ExecStmt(mode, h, env, stmts[0], fuel);
      ExecStmts(mode, h, first.1, stmts[1..], AppendOutput(out, first.0), fuel)
  }

  /** `_collect_required_stores`: the keys of the script's own stores. */
  function RequiredStores(script: Script): (r: set<StoreKey>)
    ensures forall k :: k in r <==> k.script == script.name && exists d :: d in script.stores && d.name == k.store
  {
    set d | d in script.stores :: StoreKey(script.name, d.name)
  }

  /** `Script.execute`: the script's store values are read from the
      persistent store, the variables start empty and the call stack holds
      only the script. The result is the concatenated output, `None` when
      nothing was printed. */
  function RunScript(mode: Mode, h: Host, script: Script, store: PersistentStore, params: map<string, Value>,
                     fuel: nat): (r: Result<Option<string>, Error>)
    decreases fuel, 3, 0
  {
    var env := Env([script.name], ReadValues(store, RequiredStores(script)), params, map[]);
    var done :- ExecStmts(mode, h, env, script.statements, None, fuel);
    Success(done.0)
  }
}
