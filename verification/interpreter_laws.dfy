/** Properties of the interpreter: what the binding forms compute, the
    `split`/`join` round trip, sorting, and the statements' effects. All are
    stated for the corrected reading unless they name `AsWritten`. */
module InterpreterLaws {
  import opened Wrappers
  import PyStr
  import opened DataTypes
  import opened Values
  import opened Errors
  import opened Ast
  import opened Stores
  import opened Builtins
  import Sorting
  import opened Interpreter

  /** The context with one variable (re)bound. */
  function Bound(env: Env, x: string, v: Value): Env {
    env.(vars := env.vars[x := v])
  }

  /** A variable reference reads the bound value when its type is right. */
  lemma ReadBound(h: Host, env: Env, x: string, v: Value, fuel: nat)
    requires fuel >= 1
    ensures Eval(Corrected, h, Bound(env, x, v), VarRef(x, TypeOf(v)), fuel) == Success((v, Bound(env, x, v).vars))
  {
  }

  /*** Comprehensions ***/

  /** One item of a comprehension in the corrected reading: the filter and
      the body see the item bound, and the rest of the loop sees the
      variables as they were. */
  lemma ComprehensionStep(h: Host, env: Env, x: string, filter: Option<Expr>, body: Expr, items: seq<Value>, fuel: nat)
    requires |items| > 0
    ensures var pass := EvalFilter(Corrected, h, Bound(env, x, items[0]), filter, fuel);
            EvalComprehension(Corrected, h, env, x, filter, body, items, fuel)
            == if pass.Failure? then Failure(pass.error)
               else
                 var kept := EvalKept(Corrected, h, Bound(env, x, items[0]), pass.value.0, body, fuel);
                 if kept.Failure? then Failure(kept.error)
                 else
                   var rest := EvalComprehension(Corrected, h, env, x, filter, body, items[1..], fuel);
                   if rest.Failure? then Failure(rest.error)
                   else Success((kept.value.0 + rest.value.0, env.vars))
  {
  }

  /** `for xs as x yeet x` copies the items when each has the loop
      variable's type. */
  lemma {:induction false} ComprehensionCopies(h: Host, env: Env, x: string, t: DataType, items: seq<Value>, fuel: nat)
    requires fuel >= 1 && AllOfType(items, t)
    ensures EvalComprehension(Corrected, h, env, x, None, VarRef(x, t), items, fuel) == Success((items, env.vars))
    decreases |items|
  {
    if |items| > 0 {
      assert AllOfType(items[1..], t) by {
        forall i | 0 <= i < |items| - 1 ensures TypeOf(items[1..][i]) == t && WellTyped(items[1..][i]) {
          assert items[1..][i] == items[i + 1];
        }
      }
      ComprehensionCopies(h, env, x, t, items[1..], fuel);
      var inner := Bound(env, x, items[0]);
      ReadBound(h, env, x, items[0], fuel);
      assert EvalKept(Corrected, h, inner, true, VarRef(x, t), fuel) == Success(([items[0]], inner.vars));
      ComprehensionStep(h, env, x, None, VarRef(x, t), items, fuel);
      assert [items[0]] + items[1..] == items;
    }
  }

  /** The identity comprehension over a list variable gives the list back. */
  lemma ForYieldsElements(h: Host, env: Env, name: string, x: string, t: DataType, es: seq<Value>, fuel: nat)
    requires fuel >= 2
    requires name in env.vars && env.vars[name] == ListValue(es, t) && AllOfType(es, t)
    ensures Eval(Corrected, h, env, Comprehension(VarRef(name, ListType(t)), x, None, VarRef(x, t)), fuel)
            == Success((ListValue(es, t), env.vars))
  {
    var f := fuel - 1;
    assert Eval(Corrected, h, env, VarRef(name, ListType(t)), f) == Success((ListValue(es, t), env.vars));
    ComprehensionCopies(h, env, x, t, es, f);
    assert env.(vars := env.vars) == env;
    assert EvalFor(Corrected, h, env, VarRef(name, ListType(t)), x, None, VarRef(x, t), f) == Success((ListValue(es, t), env.vars));
  }

  /** The one-character strings all have type string. */
  lemma CharsAreStrings(s: string)
    ensures AllOfType(Chars(s), StringType)
  {
  }

  /** Over a string, the identity comprehension lists its characters. */
  lemma ForSplitsString(h: Host, env: Env, s: string, x: string, fuel: nat)
    requires fuel >= 2
    ensures Eval(Corrected, h, env, Comprehension(StringLit(s), x, None, VarRef(x, StringType)), fuel)
            == Success((ListValue(Chars(s), StringType), env.vars))
  {
    var f := fuel - 1;
    CharsAreStrings(s);
    ComprehensionCopies(h, env, x, StringType, Chars(s), f);
    assert env.(vars := env.vars) == env;
    assert EvalFor(Corrected, h, env, StringLit(s), x, None, VarRef(x, StringType), f) == Success((ListValue(Chars(s), StringType), env.vars));
  }

  /** The reference reading of a comprehension: first keep the items the
      filter accepts, then map the body over them. */
  function Passing(h: Host, env: Env, x: string, filter: Option<Expr>, items: seq<Value>, fuel: nat): seq<Value>
  {
    if |items| == 0 then []
    else
      var pass := EvalFilter(Corrected, h, Bound(env, x, items[0]), filter, fuel);
      (if pass.Success? && pass.value.0 then [items[0]] else []) + Passing(h, env, x, filter, items[1..], fuel)
  }

  function Images(h: Host, env: Env, x: string, body: Expr, items: seq<Value>, fuel: nat): seq<Value>
  {
    if |items| == 0 then []
    else
      var b := Eval(Corrected, h, Bound(env, x, items[0]), body, fuel);
      (if b.Success? then [b.value.0] else []) + Images(h, env, x, body, items[1..], fuel)
  }

  /** The filter is defined on the item, and so is the body if the filter
      keeps it. */
  predicate DefinedOn(h: Host, env: Env, x: string, filter: Option<Expr>, body: Expr, item: Value, fuel: nat)
  {
    EvalFilter(Corrected, h, Bound(env, x, item), filter, fuel).Success?
    && (EvalFilter(Corrected, h, Bound(env, x, item), filter, fuel).value.0 ==>
          Eval(Corrected, h, Bound(env, x, item), body, fuel).Success?)
  }

  predicate Defined(h: Host, env: Env, x: string, filter: Option<Expr>, body: Expr, items: seq<Value>, fuel: nat)
  {
    forall i :: 0 <= i < |items| ==> DefinedOn(h, env, x, filter, body, items[i], fuel)
  }

  lemma ImagesAppend(h: Host, env: Env, x: string, body: Expr, a: seq<Value>, b: seq<Value>, fuel: nat)
    ensures Images(h, env, x, body, a + b, fuel) == Images(h, env, x, body, a, fuel) + Images(h, env, x, body, b, fuel)
    decreases |a|
  {
    if |a| > 0 {
      assert (a + b)[1..] == a[1..] + b;
      ImagesAppend(h, env, x, body, a[1..], b, fuel);
    } else {
      assert a + b == b;
    }
  }

  /** The first item's contribution: the body's value if the filter keeps
      it, nothing otherwise. */
  lemma FirstContribution(h: Host, env: Env, x: string, filter: Option<Expr>, body: Expr, item: Value, fuel: nat)
    requires DefinedOn(h, env, x, filter, body, item, fuel)
    ensures var pass := EvalFilter(Corrected, h, Bound(env, x, item), filter, fuel).value.0;
            var kept := if pass then [item] else [];
            EvalKept(Corrected, h, Bound(env, x, item), pass, body, fuel)
            == Success((Images(h, env, x, body, kept, fuel), Bound(env, x, item).vars))
  {
    var pass := EvalFilter(Corrected, h, Bound(env, x, item), filter, fuel).value.0;
    if pass {
      var b := Eval(Corrected, h, Bound(env, x, item), body, fuel);
      assert [item][1..] == [];
      assert Images(h, env, x, body, [], fuel) == [];
      assert Images(h, env, x, body, [item], fuel) == [b.value.0];
      assert EvalKept(Corrected, h, Bound(env, x, item), pass, body, fuel) == Success(([b.value.0], b.value.1));
    } else {
      assert Images(h, env, x, body, [], fuel) == [];
    }
  }

  /** The loop, which evaluates the filter and the body item by item, yields
      the body's values over the filtered items, in order. */
  lemma {:induction false} ComprehensionIsFilterThenMap(h: Host, env: Env, x: string, filter: Option<Expr>, body: Expr,
                                                         items: seq<Value>, fuel: nat)
    requires Defined(h, env, x, filter, body, items, fuel)
    ensures EvalComprehension(Corrected, h, env, x, filter, body, items, fuel)
            == Success((Images(h, env, x, body, Passing(h, env, x, filter, items, fuel), fuel), env.vars))
    decreases |items|
  {
    if |items| > 0 {
      assert Defined(h, env, x, filter, body, items[1..], fuel) by {
        forall i | 0 <= i < |items| - 1 ensures items[1..][i] == items[i + 1] { }
      }
      ComprehensionIsFilterThenMap(h, env, x, filter, body, items[1..], fuel);
      assert DefinedOn(h, env, x, filter, body, items[0], fuel);
      var pass := EvalFilter(Corrected, h, Bound(env, x, items[0]), filter, fuel).value.0;
      var kept := if pass then [items[0]] else [];
      var later := Passing(h, env, x, filter, items[1..], fuel);
      assert Passing(h, env, x, filter, items, fuel) == kept + later;
      ImagesAppend(h, env, x, body, kept, later, fuel);
      FirstContribution(h, env, x, filter, body, items[0], fuel);
      ComprehensionStep(h, env, x, filter, body, items, fuel);
    }
  }

  /** A filter that is never true gives the empty list. */
  lemma {:induction false} FalseFilterKeepsNothing(h: Host, env: Env, x: string, body: Expr, items: seq<Value>, fuel: nat)
    requires fuel >= 1
    ensures EvalComprehension(Corrected, h, env, x, Some(BoolLit(false)), body, items, fuel) == Success(([], env.vars))
    decreases |items|
  {
    if |items| > 0 {
      FalseFilterKeepsNothing(h, env, x, body, items[1..], fuel);
      var inner := Bound(env, x, items[0]);
      assert EvalFilter(Corrected, h, inner, Some(BoolLit(false)), fuel) == Success((false, inner.vars));
      ComprehensionStep(h, env, x, Some(BoolLit(false)), body, items, fuel);
    }
  }

  /*** Folds ***/

  /** One step of a fold in the corrected reading. */
  lemma FoldStep(h: Host, env: Env, acc: string, x: string, body: Expr, seed: Value, items: seq<Value>, fuel: nat)
    requires |items| > 0
    ensures var b := Eval(Corrected, h, Bound(Bound(env, acc, seed), x, items[0]), body, fuel);
            EvalFold(Corrected, h, env, acc, x, body, seed, items, fuel)
            == if b.Failure? then Failure(b.error) else EvalFold(Corrected, h, env, acc, x, body, b.value.0, items[1..], fuel)
  {
  }

  /** The sum of numbers, added from the right: an independent reference for
      the left fold `collect xs as acc, x with acc + x`. */
  function Total(xs: seq<Value>): real
  {
    if |xs| == 0 then 0.0
    else Total(xs[..|xs| - 1]) + (if xs[|xs| - 1].NumberValue? then xs[|xs| - 1].number else 0.0)
  }

  function Sum(acc: string, x: string): Expr {
    Binary(VarRef(acc, NumberType), Add, VarRef(x, NumberType))
  }

  /** The summing body adds the two bound numbers. */
  lemma SumStep(h: Host, env: Env, acc: string, x: string, a: real, b: real, fuel: nat)
    requires fuel >= 2 && acc != x
    ensures var inner := Bound(Bound(env, acc, NumberValue(a)), x, NumberValue(b));
            Eval(Corrected, h, inner, Sum(acc, x), fuel) == Success((NumberValue(a + b), inner.vars))
  {
    var inner := Bound(Bound(env, acc, NumberValue(a)), x, NumberValue(b));
    assert Eval(Corrected, h, inner, VarRef(acc, NumberType), fuel - 1) == Success((NumberValue(a), inner.vars));
    assert Eval(Corrected, h, inner, VarRef(x, NumberType), fuel - 1) == Success((NumberValue(b), inner.vars));
  }

  /** One step of the summing fold adds the next number to the seed. */
  lemma SumFoldStep(h: Host, env: Env, acc: string, x: string, seed: real, items: seq<Value>, fuel: nat)
    requires fuel >= 2 && acc != x && |items| > 0 && items[0].NumberValue?
    ensures EvalFold(Corrected, h, env, acc, x, Sum(acc, x), NumberValue(seed), items, fuel)
            == EvalFold(Corrected, h, env, acc, x, Sum(acc, x), NumberValue(seed + items[0].number), items[1..], fuel)
  {
    assert items[0] == NumberValue(items[0].number);
    SumStep(h, env, acc, x, seed, items[0].number, fuel);
    FoldStep(h, env, acc, x, Sum(acc, x), NumberValue(seed), items, fuel);
  }

  lemma TotalCons(x: real, rest: seq<Value>)
    requires Sorting.AllNumbers(rest)
    ensures Total([NumberValue(x)] + rest) == x + Total(rest)
    decreases |rest|
  {
    if |rest| > 0 {
      var m := [NumberValue(x)] + rest;
      assert m[..|m| - 1] == [NumberValue(x)] + rest[..|rest| - 1];
      assert Sorting.AllNumbers(rest[..|rest| - 1]) by {
        forall i | 0 <= i < |rest| - 1 ensures rest[..|rest| - 1][i] == rest[i] { }
      }
      TotalCons(x, rest[..|rest| - 1]);
    } else {
      assert [NumberValue(x)] + rest == [NumberValue(x)];
      assert [NumberValue(x)][..0] == [];
    }
  }

  /** From any numeric seed, the summing fold adds the seed to the total of
      the remaining items. */
  lemma {:induction false} FoldSumsFrom(h: Host, env: Env, acc: string, x: string, seed: real, items: seq<Value>, fuel: nat)
    requires fuel >= 2 && acc != x && Sorting.AllNumbers(items)
    ensures EvalFold(Corrected, h, env, acc, x, Sum(acc, x), NumberValue(seed), items, fuel)
            == Success((NumberValue(seed + Total(items)), env.vars))
    decreases |items|
  {
    if |items| > 0 {
      var next := seed + items[0].number;
      SumFoldStep(h, env, acc, x, seed, items, fuel);
      assert Sorting.AllNumbers(items[1..]) by {
        forall i | 0 <= i < |items| - 1 ensures items[1..][i] == items[i + 1] { }
      }
      FoldSumsFrom(h, env, acc, x, next, items[1..], fuel);
      assert items == [items[0]] + items[1..];
      TotalCons(items[0].number, items[1..]);
    }
  }

  /** `collect` over a variable holding a non-empty list folds its tail,
      seeded with its first element. */
  lemma CollectListSeeds(h: Host, env: Env, name: string, t: DataType, acc: string, x: string, body: Expr,
                         es: seq<Value>, fuel: nat)
    requires fuel >= 2 && |es| > 0
    requires name in env.vars && env.vars[name] == ListValue(es, t)
    ensures Eval(Corrected, h, env, Fold(VarRef(name, ListType(t)), acc, x, body), fuel)
            == EvalFold(Corrected, h, env, acc, x, body, es[0], es[1..], fuel - 1)
  {
    assert Eval(Corrected, h, env, VarRef(name, ListType(t)), fuel - 1) == Success((ListValue(es, t), env.vars));
    assert env.(vars := env.vars) == env;
  }

  /** `collect xs as acc, x with acc + x` over a non-empty list of numbers is
      their sum: the fold is seeded with the first element. */
  lemma CollectSums(h: Host, env: Env, name: string, acc: string, x: string, es: seq<Value>, fuel: nat)
    requires fuel >= 3 && acc != x && |es| > 0 && Sorting.AllNumbers(es)
    requires name in env.vars && env.vars[name] == ListValue(es, NumberType)
    ensures Eval(Corrected, h, env, Fold(VarRef(name, ListType(NumberType)), acc, x, Sum(acc, x)), fuel)
            == Success((NumberValue(Total(es)), env.vars))
  {
    assert Sorting.AllNumbers(es[1..]) by {
      forall i | 0 <= i < |es| - 1 ensures es[1..][i] == es[i + 1] { }
    }
    CollectListSeeds(h, env, name, NumberType, acc, x, Sum(acc, x), es, fuel);
    assert es[0] == NumberValue(es[0].number);
    FoldSumsFrom(h, env, acc, x, es[0].number, es[1..], fuel - 1);
    assert es == [es[0]] + es[1..];
    TotalCons(es[0].number, es[1..]);
  }

  /** An empty list cannot be folded. */
  lemma CollectEmptyFails(h: Host, env: Env, name: string, t: DataType, acc: string, x: string, body: Expr, fuel: nat)
    requires fuel >= 2
    requires name in env.vars && env.vars[name] == ListValue([], t)
    ensures Eval(Corrected, h, env, Fold(VarRef(name, ListType(t)), acc, x, body), fuel) == Failure(ExecFailure(EmptyFold))
  {
    assert Eval(Corrected, h, env, VarRef(name, ListType(t)), fuel - 1) == Success((ListValue([], t), env.vars));
  }

  function Concat(acc: string, x: string): Expr {
    Binary(VarRef(acc, StringType), Add, VarRef(x, StringType))
  }

  /** The concatenating body appends the bound character. */
  lemma ConcatStep(h: Host, env: Env, acc: string, x: string, a: string, c: char, fuel: nat)
    requires fuel >= 2 && acc != x
    ensures var inner := Bound(Bound(env, acc, StringValue(a)), x, StringValue([c]));
            Eval(Corrected, h, inner, Concat(acc, x), fuel) == Success((StringValue(a + [c]), inner.vars))
  {
    var inner := Bound(Bound(env, acc, StringValue(a)), x, StringValue([c]));
    assert Eval(Corrected, h, inner, VarRef(acc, StringType), fuel - 1) == Success((StringValue(a), inner.vars));
    assert Eval(Corrected, h, inner, VarRef(x, StringType), fuel - 1) == Success((StringValue([c]), inner.vars));
  }

  /** Folding a string with `acc + c` appends its characters one by one. */
  lemma {:induction false} FoldConcatenates(h: Host, env: Env, acc: string, x: string, prefix: string, s: string, fuel: nat)
    requires fuel >= 2 && acc != x
    ensures EvalFold(Corrected, h, env, acc, x, Concat(acc, x), StringValue(prefix), Chars(s), fuel)
            == Success((StringValue(prefix + s), env.vars))
    decreases |s|
  {
    if |s| > 0 {
      assert Chars(s)[1..] == Chars(s[1..]);
      ConcatStep(h, env, acc, x, prefix, s[0], fuel);
      FoldStep(h, env, acc, x, Concat(acc, x), StringValue(prefix), Chars(s), fuel);
      FoldConcatenates(h, env, acc, x, prefix + [s[0]], s[1..], fuel);
      assert prefix + [s[0]] + s[1..] == prefix + s;
    } else {
      assert prefix + s == prefix;
    }
  }

  /** `collect s as acc, c with acc + c` rebuilds `s`: the fold over a string
      is seeded with the empty string. */
  lemma CollectRebuildsString(h: Host, env: Env, s: string, acc: string, x: string, fuel: nat)
    requires fuel >= 3 && acc != x
    ensures Eval(Corrected, h, env, Fold(StringLit(s), acc, x, Concat(acc, x)), fuel) == Success((StringValue(s), env.vars))
  {
    var f := fuel - 1;
    FoldConcatenates(h, env, acc, x, "", s, f);
    assert "" + s == s;
    assert env.(vars := env.vars) == env;
    assert EvalCollect(Corrected, h, env, StringLit(s), acc, x, Concat(acc, x), f) == Success((StringValue(s), env.vars));
  }

  /*** split and join ***/

  lemma TextsOfStringValues(parts: seq<string>)
    ensures AllStrings(StringValues(parts)) && Texts(StringValues(parts)) == parts
  {
  }

  /** `split(s, d)` for a non-empty delimiter is the list of the parts. */
  lemma SplitParts(h: Host, env: Env, s: string, d: string, fuel: nat)
    requires fuel >= 2 && |d| > 0
    ensures Eval(Corrected, h, env, Split(StringLit(s), Some(StringLit(d))), fuel)
            == Success((ListValue(StringValues(PyStr.SplitOn(s, d)), StringType), env.vars))
  {
    var f := fuel - 1;
    assert env.(vars := env.vars) == env;
    assert EvalDelimiter(Corrected, h, env, Some(StringLit(d)), " ", SplitNeedsStrings, f) == Success((d, env.vars));
    assert EvalSplit(Corrected, h, env, StringLit(s), Some(StringLit(d)), f)
           == Success((ListValue(StringValues(PyStr.SplitOn(s, d)), StringType), env.vars));
  }

  /** `join(split(s, d), d)` is `s` for a non-empty delimiter. */
  lemma JoinSplitRoundTrip(h: Host, env: Env, s: string, d: string, fuel: nat)
    requires fuel >= 3 && |d| > 0
    ensures Eval(Corrected, h, env, Join(Split(StringLit(s), Some(StringLit(d))), Some(StringLit(d))), fuel)
            == Success((StringValue(s), env.vars))
  {
    var f := fuel - 1;
    var parts := PyStr.SplitOn(s, d);
    SplitParts(h, env, s, d, f);
    TextsOfStringValues(parts);
    PyStr.JoinSplitRoundTrip(s, d);
    assert env.(vars := env.vars) == env;
    assert EvalDelimiter(Corrected, h, env, Some(StringLit(d)), "", JoinNeedsStrings, f) == Success((d, env.vars));
    assert EvalJoin(Corrected, h, env, Split(StringLit(s), Some(StringLit(d))), Some(StringLit(d)), f)
           == Success((StringValue(s), env.vars));
  }

  /** Splitting with an empty delimiter is Python's `ValueError`. */
  lemma SplitEmptyDelimiter(h: Host, env: Env, s: string, fuel: nat)
    requires fuel >= 2
    ensures Eval(Corrected, h, env, Split(StringLit(s), Some(StringLit(""))), fuel) == Failure(ValueFailure)
  {
    var f := fuel - 1;
    assert env.(vars := env.vars) == env;
    assert EvalDelimiter(Corrected, h, env, Some(StringLit("")), " ", SplitNeedsStrings, f) == Success(("", env.vars));
    assert EvalSplit(Corrected, h, env, StringLit(s), Some(StringLit("")), f) == Failure(ValueFailure);
  }

  /*** Sorting ***/

  /** `sort(xs)` of a list of numbers is its ascending permutation. */
  lemma SortOrders(h: Host, env: Env, name: string, es: seq<Value>, fuel: nat)
    requires fuel >= 2 && Sorting.AllNumbers(es)
    requires name in env.vars && env.vars[name] == ListValue(es, NumberType)
    ensures var r := Eval(Corrected, h, env, Sort(VarRef(name, ListType(NumberType)), None, None, None), fuel);
            r.Success? && r.value.0.ListValue? && r.value.0.elementType == NumberType
            && Sorting.SortedNumbers(r.value.0.elements) && multiset(r.value.0.elements) == multiset(es)
  {
    var f := fuel - 1;
    var list := VarRef(name, ListType(NumberType));
    assert Eval(Corrected, h, env, list, f) == Success((ListValue(es, NumberType), env.vars));
    SortOfNumbers(h, env, list, es, f);
    SortNode(h, env, list, fuel, EvalSort(Corrected, h, env, list, None, None, None, f));
  }

  /** A `sort` without comparison evaluates as `EvalSort` one level down. */
  lemma SortNode(h: Host, env: Env, list: Expr, fuel: nat, r: Result<(Value, Vars), Error>)
    requires fuel >= 1 && EvalSort(Corrected, h, env, list, None, None, None, fuel - 1) == r
    ensures Eval(Corrected, h, env, Sort(list, None, None, None), fuel) == r
  {
  }

  /** The step of `SortOrders` once the list is evaluated. */
  lemma SortOfNumbers(h: Host, env: Env, list: Expr, es: seq<Value>, f: nat)
    requires Sorting.AllNumbers(es)
    requires Eval(Corrected, h, env, list, f) == Success((ListValue(es, NumberType), env.vars))
    ensures var r := EvalSort(Corrected, h, env, list, None, None, None, f);
            r.Success? && r.value.0.ListValue? && r.value.0.elementType == NumberType
            && Sorting.SortedNumbers(r.value.0.elements) && multiset(r.value.0.elements) == multiset(es)
  {
    if |es| > 1 {
      Sorting.SortNumbersSorted(es);
      var sorted := Sorting.SortNumbers(es).value;
      assert EvalSort(Corrected, h, env, list, None, None, None, f) == Success((ListValue(sorted, NumberType), env.vars));
    }
  }
}
