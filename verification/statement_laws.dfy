/** Properties of statements and calls: what an assignment changes and
    what it leaves alone, when a definition is refused, how the outputs of
    a statement list are put together, and the checks a builtin call makes
    before any argument is evaluated. */
module StatementLaws {
  import opened Wrappers
  import opened DataTypes
  import opened Values
  import opened Errors
  import opened Ast
  import opened Stores
  import opened Builtins
  import opened Interpreter

  /** The key a store assignment writes in the running script. */
  function RunningKey(env: Env, name: string): StoreKey
    requires |env.callStack| > 0
  {
    StoreKey(env.callStack[|env.callStack| - 1], name)
  }

  /*** Assignments ***/

  /** A store assignment replaces the value of that one store of the running
      script: no store appears or disappears, the others keep their values,
      and parameters and variables are untouched. */
  lemma AssignStoreFrame(h: Host, env: Env, name: string, ty: DataType, x: Expr, fuel: nat)
    requires |env.callStack| > 0 && RunningKey(env, name) in env.stores
    requires ExprType(x) == Success(TypeOf(env.stores[RunningKey(env, name)]))
    requires Eval(Corrected, h, env, x, fuel).Success?
    ensures var r := ExecStmt(Corrected, h, env, Assign(StoreTarget(name, ty), x), fuel);
            var key := RunningKey(env, name);
            r.Success? && r.value.0.None?
            && r.value.1.stores.Keys == env.stores.Keys
            && r.value.1.stores[key] == Eval(Corrected, h, env, x, fuel).value.0
            && (forall k :: k in env.stores && k != key ==> r.value.1.stores[k] == env.stores[k])
            && r.value.1.params == env.params && r.value.1.vars == env.vars
  {
  }

  /** A store assignment fails without evaluating its right-hand side when
      the running script has no such store, or when the store's value has
      another type than the right-hand side. */
  lemma AssignStoreChecked(h: Host, env: Env, name: string, ty: DataType, x: Expr, t: DataType, fuel: nat)
    requires |env.callStack| > 0 && ExprType(x) == Success(t)
    ensures var r := ExecStmt(Corrected, h, env, Assign(StoreTarget(name, ty), x), fuel);
            var key := RunningKey(env, name);
            (key !in env.stores ==> r == Failure(ExecFailure(StoreNotFound(name))))
            && (key in env.stores && TypeOf(env.stores[key]) != t ==> r == Failure(ExecFailure(AssignmentTypeMismatch(name))))
  {
  }

  /** A variable assignment rebinds that one variable and nothing else. */
  lemma AssignVarFrame(h: Host, env: Env, name: string, ty: DataType, x: Expr, fuel: nat)
    requires name in env.vars && ExprType(x) == Success(TypeOf(env.vars[name]))
    requires Eval(Corrected, h, env, x, fuel).Success?
    ensures var r := ExecStmt(Corrected, h, env, Assign(VarTarget(name, ty), x), fuel);
            r.Success? && r.value.0.None?
            && r.value.1.vars.Keys == env.vars.Keys
            && r.value.1.vars[name] == Eval(Corrected, h, env, x, fuel).value.0
            && (forall y :: y in env.vars && y != name ==> r.value.1.vars[y] == env.vars[y])
            && r.value.1.stores == env.stores && r.value.1.params == env.params
  {
  }

  /** A variable must be defined, and keep its type, to be assigned. */
  lemma AssignVarChecked(h: Host, env: Env, name: string, ty: DataType, x: Expr, t: DataType, fuel: nat)
    requires ExprType(x) == Success(t)
    ensures var r := ExecStmt(Corrected, h, env, Assign(VarTarget(name, ty), x), fuel);
            (name !in env.vars ==> r == Failure(ExecFailure(VariableNotDefined(name))))
            && (name in env.vars && TypeOf(env.vars[name]) != t ==> r == Failure(ExecFailure(AssignmentTypeMismatch(name))))
  {
  }

  /** A parameter assignment rebinds that one parameter. */
  lemma AssignParamFrame(h: Host, env: Env, name: string, x: Expr, fuel: nat)
    requires name in env.params && ExprType(x) == Success(TypeOf(env.params[name]))
    requires Eval(Corrected, h, env, x, fuel).Success?
    ensures var r := ExecStmt(Corrected, h, env, Assign(ParamTarget(name), x), fuel);
            r.Success? && r.value.0.None?
            && r.value.1.params == env.params[name := Eval(Corrected, h, env, x, fuel).value.0]
            && r.value.1.stores == env.stores && r.value.1.vars == env.vars
  {
  }

  /*** Definitions ***/

  /** `let` binds a fresh name to the value of a right-hand side of the
      declared type. */
  lemma VarDefBinds(h: Host, env: Env, name: string, ty: DataType, x: Expr, fuel: nat)
    requires name !in env.vars && ExprType(x) == Success(ty)
    requires Eval(Corrected, h, env, x, fuel).Success?
    ensures var r := ExecStmt(Corrected, h, env, VarDef(name, ty, x), fuel);
            r.Success? && r.value.0.None?
            && r.value.1.vars == env.vars[name := Eval(Corrected, h, env, x, fuel).value.0]
            && r.value.1.stores == env.stores && r.value.1.params == env.params
  {
  }

  /** `let` refuses a name that is already bound, whatever the right-hand
      side, and a right-hand side of another type than declared. */
  lemma VarDefRejects(h: Host, env: Env, name: string, ty: DataType, x: Expr, fuel: nat)
    ensures name in env.vars ==> ExecStmt(Corrected, h, env, VarDef(name, ty, x), fuel) == Failure(ExecFailure(AlreadyDefined(name)))
    ensures name !in env.vars && ExprType(x).Success? && ExprType(x).value != ty ==>
              ExecStmt(Corrected, h, env, VarDef(name, ty, x), fuel) == Failure(ExecFailure(DefinitionTypeMismatch(name)))
  {
  }

  /** `print` emits the string form of the value and changes nothing. */
  lemma PrintEmits(h: Host, env: Env, x: Expr, fuel: nat)
    requires Eval(Corrected, h, env, x, fuel).Success?
    ensures ExecStmt(Corrected, h, env, Print(x), fuel) == Success((Some(ToString(Eval(Corrected, h, env, x, fuel).value.0)), env))
  {
    assert env.(vars := env.vars) == env;
  }

  /*** Statement lists ***/

  /** Running `a + b` is running `a`, then `b` from where `a` left off. */
  lemma {:induction false} ExecStmtsAppend(mode: Mode, h: Host, env: Env, a: seq<Stmt>, b: seq<Stmt>, out: Option<string>, fuel: nat)
    ensures var first := ExecStmts(mode, h, env, a, out, fuel);
            ExecStmts(mode, h, env, a + b, out, fuel)
            == if first.Failure? then Failure(first.error)
               else ExecStmts(mode, h, first.value.1, b, first.value.0, fuel)
    decreases |a|
  {
    if |a| == 0 {
      assert a + b == b;
    } else {
      assert (a + b)[0] == a[0];
      assert (a + b)[1..] == a[1..] + b;
      var s := ExecStmt(mode, h, env, a[0], fuel);
      if s.Success? {
        ExecStmtsAppend(mode, h, s.value.1, a[1..], b, AppendOutput(out, s.value.0), fuel);
      }
    }
  }

  predicate HasPrint(stmts: seq<Stmt>) {
    exists i :: 0 <= i < |stmts| && stmts[i].Print?
  }

  /** A statement list produces output exactly when there was output before
      it or it prints. */
  lemma {:induction false} ExecStmtsOutputs(mode: Mode, h: Host, env: Env, stmts: seq<Stmt>, out: Option<string>, fuel: nat)
    ensures var r := ExecStmts(mode, h, env, stmts, out, fuel);
            r.Success? ==> (r.value.0.Some? <==> out.Some? || HasPrint(stmts))
    decreases |stmts|
  {
    if |stmts| > 0 {
      var s := ExecStmt(mode, h, env, stmts[0], fuel);
      if s.Success? {
        ExecStmtsOutputs(mode, h, s.value.1, stmts[1..], AppendOutput(out, s.value.0), fuel);
        assert HasPrint(stmts) <==> stmts[0].Print? || HasPrint(stmts[1..]) by {
          if HasPrint(stmts) && !stmts[0].Print? {
            var i :| 0 <= i < |stmts| && stmts[i].Print?;
            assert stmts[1..][i - 1].Print?;
          }
          if HasPrint(stmts[1..]) {
            var i :| 0 <= i < |stmts[1..]| && stmts[1..][i].Print?;
            assert stmts[i + 1].Print?;
          }
        }
      }
    }
  }

  /** `Script.execute` returns `None` exactly when the script has no
      `print` statement; a script that only prints string literals returns
      their concatenation, whatever the stores hold. */
  lemma RunScriptOutputs(mode: Mode, h: Host, script: Script, store: PersistentStore, params: map<string, Value>, fuel: nat)
    ensures var r := RunScript(mode, h, script, store, params, fuel);
            r.Success? ==> (r.value.Some? <==> HasPrint(script.statements))
  {
    var env := Env([script.name], ReadValues(store, RequiredStores(script)), params, map[]);
    ExecStmtsOutputs(mode, h, env, script.statements, None, fuel);
  }

  lemma RunScriptPrints(h: Host, script: Script, store: PersistentStore, params: map<string, Value>, texts: seq<string>, fuel: nat)
    requires fuel >= 1 && |texts| > 0 && script.statements == PrintAll(texts)
    ensures RunScript(Corrected, h, script, store, params, fuel) == Success(Some(Concat(texts)))
  {
    var env := Env([script.name], ReadValues(store, RequiredStores(script)), params, map[]);
    var stmts := PrintAll(texts);
    assert stmts[0] == Print(StringLit(texts[0]));
    assert stmts[1..] == PrintAll(texts[1..]);
    assert ExecStmt(Corrected, h, env, stmts[0], fuel) == Success((Some(texts[0]), env)) by {
      assert env.(vars := env.vars) == env;
    }
    PrintsConcatenate(h, env, texts[1..], texts[0], fuel);
  }

  function PrintAll(texts: seq<string>): seq<Stmt> {
    if |texts| == 0 then [] else [Print(StringLit(texts[0]))] + PrintAll(texts[1..])
  }

  function Concat(texts: seq<string>): string {
    if |texts| == 0 then "" else texts[0] + Concat(texts[1..])
  }

  /** A list of `print` statements of string literals outputs their
      concatenation after what was output before. */
  lemma {:induction false} PrintsConcatenate(h: Host, env: Env, texts: seq<string>, before: string, fuel: nat)
    requires fuel >= 1
    ensures ExecStmts(Corrected, h, env, PrintAll(texts), Some(before), fuel) == Success((Some(before + Concat(texts)), env))
    decreases |texts|
  {
    if |texts| > 0 {
      var stmts := PrintAll(texts);
      assert stmts[0] == Print(StringLit(texts[0]));
      assert stmts[1..] == PrintAll(texts[1..]);
      assert ExecStmt(Corrected, h, env, stmts[0], fuel) == Success((Some(texts[0]), env)) by {
        assert env.(vars := env.vars) == env;
      }
      PrintsConcatenate(h, env, texts[1..], before + texts[0], fuel);
      assert before + texts[0] + Concat(texts[1..]) == before + Concat(texts);
    } else {
      assert before + Concat(texts) == before;
    }
  }

  /*** Builtin calls ***/

  /** A builtin called with the wrong number of arguments fails with the
      arity error before any argument is evaluated. */
  lemma ArityCheckedFirst(mode: Mode, h: Host, env: Env, name: string, args: seq<Expr>, fuel: nat)
    requires fuel >= 2 && IsBuiltin(name) && !Accepts(ArityOf(name).value, |args|)
    ensures Eval(mode, h, env, Call(StringLit(name), args), fuel) == Failure(CheckArity(name, |args|).error)
  {
    assert Eval(mode, h, env, StringLit(name), fuel - 1) == Success((StringValue(name), env.vars));
  }

  /** `type(e)` is the name of e's static type; e itself is not evaluated,
      so it may be an expression whose evaluation would fail. */
  lemma TypeIsStatic(mode: Mode, h: Host, env: Env, e: Expr, t: DataType, fuel: nat)
    requires fuel >= 2 && ExprType(e) == Success(t)
    ensures Eval(mode, h, env, Call(StringLit("type"), [e]), fuel) == Success((StringValue(t.Name()), env.vars))
  {
    assert Eval(mode, h, env, StringLit("type"), fuel - 1) == Success((StringValue("type"), env.vars));
    assert env.(vars := env.vars) == env;
    assert CallBuiltin(mode, h, env, "type", [e], fuel - 1) == Success((t.Name(), env.vars));
  }
}
