/** The two places where the evaluator as written departs from what its
    design evidently intends, each shown on a concrete script, next to the
    corrected reading the rest of the model uses.

    1. A comprehension writes its loop variable into the script's variables
       and never removes it, so a later `let` of the same name is refused.
    2. A call to another script pushes the callee onto the call stack before
       the arguments are evaluated, so a store named in an argument is looked
       up under the callee's name instead of the caller's. */
module InterpreterFindings {
  import opened Wrappers
  import opened DataTypes
  import opened Values
  import opened Errors
  import opened Ast
  import opened Stores
  import opened Builtins
  import opened Interpreter

  /*** The loop variable outlives its comprehension ***/

  /** `let n: list<string> = for "a" as x yeet x`. */
  function Listing(): Stmt {
    VarDef("n", ListType(StringType), Comprehension(StringLit("a"), "x", None, VarRef("x", StringType)))
  }

  /** The script: the comprehension, then `let x: string = "b"` and
      `print x`. */
  function LoopThenLet(): seq<Stmt> {
    [Listing(), VarDef("x", StringType, StringLit("b")), Print(VarRef("x", StringType))]
  }

  function Start(): Env { Env(["s"], map[], map[], map[]) }

  /** One pass of the loop over `"a"` in a given mode: the item list and the
      variables afterwards. */
  lemma LoopOverA(mode: Mode, h: Host, fuel: nat)
    requires fuel >= 1
    ensures EvalComprehension(mode, h, Start(), "x", None, VarRef("x", StringType), [StringValue("a")], fuel)
            == Success(([StringValue("a")], if mode.AsWritten? then map["x" := StringValue("a")] else map[]))
  {
    var items := [StringValue("a")];
    var inner := Start().(vars := map["x" := StringValue("a")]);
    assert Start().(vars := Start().vars["x" := items[0]]) == inner;
    assert EvalFilter(mode, h, inner, None, fuel) == Success((true, inner.vars));
    assert inner.(vars := inner.vars) == inner;
    assert Eval(mode, h, inner, VarRef("x", StringType), fuel) == Success((StringValue("a"), inner.vars));
    assert EvalKept(mode, h, inner, true, VarRef("x", StringType), fuel) == Success(([StringValue("a")], inner.vars));
    var next := if mode.AsWritten? then Start().(vars := inner.vars) else Start();
    assert items[1..] == [];
    assert EvalComprehension(mode, h, next, "x", None, VarRef("x", StringType), [], fuel) == Success(([], next.vars));
    assert [StringValue("a")] + [] == [StringValue("a")];
  }

  /** The comprehension statement itself, in a given mode. */
  lemma ListingRuns(mode: Mode, h: Host, fuel: nat)
    requires fuel >= 2
    ensures var vars := if mode.AsWritten? then map["x" := StringValue("a")] else map[];
            ExecStmt(mode, h, Start(), Listing(), fuel)
            == Success((None, Start().(vars := vars["n" := ListValue([StringValue("a")], StringType)])))
  {
    var f := fuel - 1;
    var comp := Comprehension(StringLit("a"), "x", None, VarRef("x", StringType));
    var vars: Vars := if mode.AsWritten? then map["x" := StringValue("a")] else map[];
    var list := ListValue([StringValue("a")], StringType);
    assert Eval(mode, h, Start(), StringLit("a"), f) == Success((StringValue("a"), Start().vars));
    assert Chars("a")[0] == StringValue(["a"[0]]);
    assert Chars("a") == [StringValue("a")];
    assert Start().(vars := Start().vars) == Start();
    LoopOverA(mode, h, f);
    assert EvalFor(mode, h, Start(), StringLit("a"), "x", None, VarRef("x", StringType), f) == Success((list, vars));
    assert Eval(mode, h, Start(), comp, fuel) == Success((list, vars));
    assert ExprType(comp) == Success(ListType(StringType));
  }

  /** As written, the loop variable `x` is still bound when the next
      statement defines `x`, which is refused. */
  lemma LoopVariableLeaks(h: Host, fuel: nat)
    requires fuel >= 2
    ensures ExecStmts(AsWritten, h, Start(), LoopThenLet(), None, fuel) == Failure(ExecFailure(AlreadyDefined("x")))
  {
    ListingRuns(AsWritten, h, fuel);
    var after := Start().(vars := map["x" := StringValue("a")]["n" := ListValue([StringValue("a")], StringType)]);
    assert LoopThenLet()[1..] == [VarDef("x", StringType, StringLit("b")), Print(VarRef("x", StringType))];
    assert ExecStmt(AsWritten, h, after, VarDef("x", StringType, StringLit("b")), fuel) == Failure(ExecFailure(AlreadyDefined("x")));
  }

  /** With the loop variable scoped to its loop, the same script prints
      `b`. */
  lemma LoopVariableScoped(h: Host, fuel: nat)
    requires fuel >= 2
    ensures ExecStmts(Corrected, h, Start(), LoopThenLet(), None, fuel).Success?
    ensures ExecStmts(Corrected, h, Start(), LoopThenLet(), None, fuel).value.0 == Some("b")
  {
    ListingRuns(Corrected, h, fuel);
    var env1 := Start().(vars := map["n" := ListValue([StringValue("a")], StringType)]);
    var rest := LoopThenLet()[1..];
    assert rest == [VarDef("x", StringType, StringLit("b")), Print(VarRef("x", StringType))];
    assert Eval(Corrected, h, env1, StringLit("b"), fuel) == Success((StringValue("b"), env1.vars));
    var env2 := env1.(vars := env1.vars["x" := StringValue("b")]);
    assert ExecStmt(Corrected, h, env1, rest[0], fuel) == Success((None, env2));
    assert rest[1..] == [Print(VarRef("x", StringType))];
    assert Eval(Corrected, h, env2, VarRef("x", StringType), fuel) == Success((StringValue("b"), env2.vars));
    assert ExecStmt(Corrected, h, env2, rest[1], fuel) == Success((Some("b"), env2));
    assert rest[1..][1..] == [];
    assert ExecStmts(Corrected, h, env2, rest[1..], None, fuel) == Success((Some("b"), env2));
    assert ExecStmts(Corrected, h, env1, rest, None, fuel) == Success((Some("b"), env2));
  }

  /** In the corrected reading no expression binds a variable, so a
      statement binds at most the name it defines. */
  lemma StatementsBindOnlyTheirName(h: Host, env: Env, s: Stmt, fuel: nat)
    ensures var r := ExecStmt(Corrected, h, env, s, fuel);
            r.Success? ==> r.value.1.vars.Keys == env.vars.Keys + (if s.VarDef? then {s.name} else {})
  {
  }

  /*** The callee is pushed before the arguments are evaluated ***/

  /** Script `s` holds the store `n`. */
  function Caller(): Env {
    Env(["s"], map[StoreKey("s", "n") := StringValue("hi")], map[], map[])
  }

  /** `other(store n)`, the store argument read by the caller. */
  function CallWithStore(): Expr {
    Call(StringLit("other"), [StoreRef("n", StringType)])
  }

  lemma OtherIsNoBuiltin()
    ensures !IsBuiltin("other")
  {
  }

  /** As written, `n` is looked up as a store of `other`, which has none. */
  lemma ArgumentReadInCallee(h: Host, fuel: nat)
    requires fuel >= 3
    ensures Eval(AsWritten, h, Caller(), CallWithStore(), fuel) == Failure(ExecFailure(StoreNotFound("n")))
  {
    var f := fuel - 1;
    OtherIsNoBuiltin();
    assert Eval(AsWritten, h, Caller(), StringLit("other"), f) == Success((StringValue("other"), map[]));
    assert Caller().(vars := map[]) == Caller();
    var frame := Caller().(callStack := ["s", "other"]);
    assert Caller().callStack + ["other"] == frame.callStack;
    assert StoreKey("other", "n") !in frame.stores;
    assert LookupStore(frame, "n", StringType) == Failure(ExecFailure(StoreNotFound("n")));
    assert Eval(AsWritten, h, frame, StoreRef("n", StringType), f) == Failure(ExecFailure(StoreNotFound("n")));
    assert EvalSeq(AsWritten, h, frame, [StoreRef("n", StringType)], f) == Failure(ExecFailure(StoreNotFound("n")));
    assert CallScript(AsWritten, h, Caller(), "other", [StoreRef("n", StringType)], f) == Failure(ExecFailure(StoreNotFound("n")));
  }

  /** Evaluated in the caller's frame, the argument is the caller's store
      value, and the callee receives its text. */
  lemma ArgumentReadInCaller(h: Host, fuel: nat)
    requires fuel >= 3
    ensures var r := Eval(Corrected, h, Caller(), CallWithStore(), fuel);
            match h.callScript("other", ["hi"])
            case Success(out) => r == Success((StringValue(out), map[]))
            case Failure(reason) => r == Failure(ExecFailure(CalledScriptFailed(reason)))
  {
    var f := fuel - 1;
    OtherIsNoBuiltin();
    assert Eval(Corrected, h, Caller(), StringLit("other"), f) == Success((StringValue("other"), map[]));
    assert Caller().(vars := map[]) == Caller();
    assert LookupStore(Caller(), "n", StringType) == Success(StringValue("hi"));
    assert Eval(Corrected, h, Caller(), StoreRef("n", StringType), f) == Success((StringValue("hi"), map[]));
    var args := [StoreRef("n", StringType)];
    assert args[1..] == [];
    assert EvalSeq(Corrected, h, Caller(), args[1..], f) == Success(([], map[]));
    assert Eval(Corrected, h, Caller(), args[0], f) == Success((StringValue("hi"), map[]));
    assert [StringValue("hi")] + [] == [StringValue("hi")];
    assert EvalSeq(Corrected, h, Caller(), args, f) == Success(([StringValue("hi")], map[]));
    assert ElementStrings([StringValue("hi")]) == ["hi"];
    assert EvalCall(Corrected, h, Caller(), StringLit("other"), args, f) == CallScript(Corrected, h, Caller(), "other", args, f);
  }
}
