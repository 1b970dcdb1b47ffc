/**
  Two places where `ValidatedFunction` as written departs from what it
  evidently means to do, each shown on a concrete signature and call, next
  to the corrected behaviour the rest of the model uses.

  1. The parameter scan stores a declared `*` / `**` name in
     `_args_field_name` / `_kwargs_field_name`, which nothing reads, so the
     overflow carriers stay `args` / `kwargs`.  With `def f(a, *rest)` the
     overflow lands under `args`, which is no field, and `Extra.forbid`
     rejects the call; with `def f(args, *rest)` the overflow list replaces
     the first positional argument.
  2. `build_values` lets a keyword overwrite the value a positional argument
     already gave the same field, so `f(1, a=2)` on `def f(a, b=0)` calls
     `f(a=2)` where Python raises "got multiple values for argument 'a'".
 */
module Findings {
  import opened Wrappers
  import opened OrderedDict
  import opened Signature
  import opened Analysis
  import opened Validator
  import opened Binding
  import opened Execution
  import opened Calling
  import opened Decorator

  /** `def f(a, *rest)`. */
  const StarRest: seq<Param> := [Param("a", PositionalOrKeyword, None, None), Param("rest", VarPositional, None, None)]

  /** `def f(args, *rest)`. */
  const ArgsStarRest: seq<Param> := [Param("args", PositionalOrKeyword, None, None), Param("rest", VarPositional, None, None)]

  /** `def f(a, b=0)`. */
  const WithDefault: seq<Param> :=
    [Param("a", PositionalOrKeyword, None, None), Param("b", PositionalOrKeyword, None, Some(Atom(0)))]

  const AnyField: FieldSpec := FieldSpec(Plain(AnyType), None)
  const RestField: FieldSpec := FieldSpec(TupleOf(AnyType), Some(NoneV))

  /** The scan of a two-parameter signature is the scan of its first parameter, stepped once more. */
  lemma {:induction false} ScanTwo(params: seq<Param>)
    requires |params| == 2
    ensures ScanParams(params) ==
      Step(Step(Scan(map[], {}, [], false, false, None, None), 0, params[0]), 1, params[1])
  {
    var one := params[..1];
    assert one[..0] == [] && one[0] == params[0];
    assert ScanParams(one) == Step(ScanParams(one[..0]), 0, one[0]);
    assert ScanParams(params) == Step(ScanParams(one), 1, params[1]);
  }

  /** The fields of a two-parameter signature with distinct names. */
  lemma {:induction false} ScanTwoFields(params: seq<Param>)
    requires |params| == 2 && params[0].name != params[1].name
    ensures ScanParams(params).fields == [(params[0].name, FieldOf(params[0])), (params[1].name, FieldOf(params[1]))]
    ensures Keys(ScanParams(params).fields) == [params[0].name, params[1].name]
  {
    ScanTwo(params);
    var f0: Dict<FieldSpec> := [];
    assert Keys(f0) == [];
    var f1 := Put(f0, params[0].name, FieldOf(params[0]));
    assert f1 == [(params[0].name, FieldOf(params[0]))];
    assert Keys(f1) == [params[0].name];
    var f2 := Put(f1, params[1].name, FieldOf(params[1]));
    assert f2 == [(params[0].name, FieldOf(params[0])), (params[1].name, FieldOf(params[1]))];
  }

  lemma {:induction false} NamesTwo(params: seq<Param>)
    requires |params| == 2
    ensures Names(params) == [params[0].name, params[1].name]
  {
  }

  /** The scan of `def f(a, *rest)`. */
  lemma StarRestScan()
    ensures ScanParams(StarRest) ==
      Scan(map[0 := "a"], {}, [("a", AnyField), ("rest", RestField)], true, false, Some("rest"), None)
  {
    ScanTwo(StarRest);
    ScanTwoFields(StarRest);
  }

  /** `def f(a, *rest)` is wrapped with `rest` carrying the overflow, or `args` as written. */
  lemma StarRestAnalysis()
    ensures Analyze(StarRest) == Success(StarRestCorrected)
    ensures AnalyzeAsWritten(StarRest) == Success(StarRestWritten)
  {
    StarRestScan();
    NamesTwo(StarRest);
    assert ALT_VAR_ARGS !in Names(StarRest) && ALT_VAR_KWARGS !in Names(StarRest);
    assert Keys(ScanParams(StarRest).fields) == Names(StarRest);
    assert "args" !in Keys(ScanParams(StarRest).fields);
    assert "kwargs" !in Keys(ScanParams(StarRest).fields);
  }

  /** The scan of `def f(args, *rest)`. */
  lemma ArgsStarRestScan()
    ensures ScanParams(ArgsStarRest) ==
      Scan(map[0 := "args"], {}, [("args", AnyField), ("rest", RestField)], true, false, Some("rest"), None)
  {
    ScanTwo(ArgsStarRest);
    ScanTwoFields(ArgsStarRest);
  }

  /** `def f(args, *rest)` is wrapped with `rest` carrying the overflow, or `args` as written. */
  lemma ArgsStarRestAnalysis()
    ensures Analyze(ArgsStarRest) == Success(ArgsStarRestCorrected)
    ensures AnalyzeAsWritten(ArgsStarRest) == Success(ArgsStarRestWritten)
  {
    ArgsStarRestScan();
    NamesTwo(ArgsStarRest);
    assert ALT_VAR_ARGS !in Names(ArgsStarRest) && ALT_VAR_KWARGS !in Names(ArgsStarRest);
    assert Keys(ScanParams(ArgsStarRest).fields) == Names(ArgsStarRest);
    assert "kwargs" !in Keys(ScanParams(ArgsStarRest).fields);
  }

  /** The scan of `def f(a, b=0)`. */
  lemma WithDefaultScan()
    ensures ScanParams(WithDefault) ==
      Scan(map[0 := "a", 1 := "b"], {}, WithDefaultWrapped.fields, false, false, None, None)
  {
    ScanTwo(WithDefault);
    ScanTwoFields(WithDefault);
  }

  /** `def f(a, b=0)` has no variadic parameter, so the carriers are `args` and `kwargs`. */
  lemma WithDefaultAnalysis()
    ensures Analyze(WithDefault) == Success(WithDefaultWrapped)
  {
    WithDefaultScan();
    NamesTwo(WithDefault);
    assert ALT_VAR_ARGS !in Names(WithDefault) && ALT_VAR_KWARGS !in Names(WithDefault);
    assert Keys(ScanParams(WithDefault).fields) == Names(WithDefault);
    assert "args" !in Keys(ScanParams(WithDefault).fields);
    assert "kwargs" !in Keys(ScanParams(WithDefault).fields);
  }

  const A1: Value := Atom(1)
  const A2: Value := Atom(2)
  const A3: Value := Atom(3)

  /** `def f(a, *rest)` wrapped as the code does it, with `args` as the positional carrier. */
  const StarRestWritten: ValidatedFunction :=
    ValidatedFunction(map[0 := "a"], "args", "kwargs", {}, [("a", AnyField), ("rest", RestField)])

  /** `def f(a, *rest)` wrapped with `rest` as the positional carrier. */
  const StarRestCorrected: ValidatedFunction :=
    ValidatedFunction(map[0 := "a"], "rest", "kwargs", {}, [("a", AnyField), ("rest", RestField)])

  /** A call without a keyword `self` that binds with no repeated keyword, validates and is rebuilt reaches `f` as rebuilt. */
  lemma CallStages(vf: ValidatedFunction, coerce: Coerce, args: seq<Value>, kwargs: Dict<Value>,
                   b: Bound, inst: Instance, rec: CallRecord)
    requires !ClashesWithSelf(kwargs)
    requires BuildValues(vf, args, kwargs) == Success(b)
    requires Repeated(vf, args, kwargs) == {}
    requires Validate(vf.fields, b.values, coerce) == Success(inst)
    requires Execute(vf, inst, b.hasVarArgs, b.hasVarKwargs) == Success(rec)
    ensures Call(vf, coerce, args, kwargs) == Success(rec)
  {
    assert BuildValuesChecked(vf, args, kwargs) == Success(b);
    assert Validated(vf, coerce, args, kwargs) == Success((b, inst));
  }

  /** As written, a call without a keyword `self` that binds, validates and is rebuilt reaches `f` as rebuilt. */
  lemma WrittenCallStages(vf: ValidatedFunction, coerce: Coerce, args: seq<Value>, kwargs: Dict<Value>,
                          b: Bound, inst: Instance, rec: CallRecord)
    requires !ClashesWithSelf(kwargs)
    requires BuildValues(vf, args, kwargs) == Success(b)
    requires Validate(vf.fields, b.values, coerce) == Success(inst)
    requires Execute(vf, inst, b.hasVarArgs, b.hasVarKwargs) == Success(rec)
    ensures CallAsWritten(vf, coerce, args, kwargs) == Success(rec)
  {
    assert ValidatedAsWritten(vf, coerce, args, kwargs) == Success((b, inst));
  }

  /** As written, a call without a keyword `self` that binds and fails validation fails with that validation error. */
  lemma WrittenCallRejected(vf: ValidatedFunction, coerce: Coerce, args: seq<Value>, kwargs: Dict<Value>,
                            b: Bound, e: ValidationError)
    requires !ClashesWithSelf(kwargs)
    requires BuildValues(vf, args, kwargs) == Success(b)
    requires Validate(vf.fields, b.values, coerce) == Failure(e)
    ensures CallAsWritten(vf, coerce, args, kwargs) == Failure(ValidationFailed(e))
  {
    assert ValidatedAsWritten(vf, coerce, args, kwargs) == Failure(ValidationFailed(e));
  }

  /** `f(1, 2)` binds `a` and carries `[2]`, under whichever name the positional carrier has. */
  lemma {:induction false} StarRestBinds(vf: ValidatedFunction)
    requires vf == StarRestWritten || vf == StarRestCorrected
    ensures BuildValues(vf, [A1, A2], []) == Success(Bound(map["a" := A1, vf.argsFieldName := ListV([A2])], true, false))
    ensures Repeated(vf, [A1, A2], []) == {}
  {
    var args := [A1, A2];
    var m := vf.argMapping;
    var c := vf.argsFieldName;
    assert args[1..] == [A2];
    assert BindFrom(m, c, args, 1, map["a" := A1]) == (map["a" := A1, c := ListV([A2])], true);
    assert BindFrom(m, c, args, 0, map[]) == BindFrom(m, c, args, 1, map["a" := A1]);
    assert BindPositional(vf.argMapping, vf.argsFieldName, args) == (map["a" := A1, vf.argsFieldName := ListV([A2])], true);
  }

  /** Under `Extra.forbid` the `args` entry is unknown: it is the one extra key, and nothing is missing or invalid. */
  lemma StarRestWrittenInvalid(coerce: Coerce)
    ensures Validate(StarRestWritten.fields, map["a" := A1, "args" := ListV([A2])], coerce) ==
      Failure(ValidationError({"args"}, {}, {}))
  {
    var fields := StarRestWritten.fields;
    var values := map["a" := A1, "args" := ListV([A2])];
    assert Keys(fields) == ["a", "rest"];
    assert Get(fields, "a") == Some(AnyField);
    assert (set k | k in values && k !in Keys(fields)) == {"args"};
    assert (set k | k in Keys(fields) && k !in values && Get(fields, k).value.default.None?) == {};
    assert (set k | k in Keys(fields) && k in values && CheckField(Get(fields, k).value, values[k], coerce).None?) == {};
  }

  /** With `rest` as the carrier, `a` and `rest` both validate as they are. */
  lemma StarRestCorrectedValid(coerce: Coerce)
    ensures Validate(StarRestCorrected.fields, map["a" := A1, "rest" := ListV([A2])], coerce) ==
      Success(Instance([("a", A1), ("rest", ListV([A2]))], {"a", "rest"}))
  {
    var fields := StarRestCorrected.fields;
    var values := map["a" := A1, "rest" := ListV([A2])];
    assert Keys(fields) == ["a", "rest"];
    assert CheckItems(AnyType, [A2], coerce) == Some([A2]) by {
      assert [A2][1..] == [];
      assert CheckItems(AnyType, [], coerce) == Some([]);
      assert CheckType(AnyType, A2, coerce) == Some(A2);
      assert [A2] + [] == [A2];
    }
    assert FieldOk(fields[0], values, coerce) && FieldOk(fields[1], values, coerce);
    assert FieldValue(fields[1], values, coerce) == ListV([A2]);
    var r := Validate(fields, values, coerce);
    assert r.Success?;
    assert r.value.data[0] == ("a", A1) && r.value.data[1] == ("rest", ListV([A2]));
    assert r.value.data == [("a", A1), ("rest", ListV([A2]))];
    assert values.Keys == {"a", "rest"};
  }

  /** The validated `a` goes first and the carried list is spliced in after it. */
  lemma StarRestCorrectedRebuilt()
    ensures Execute(StarRestCorrected, Instance([("a", A1), ("rest", ListV([A2]))], {"a", "rest"}), true, false) ==
      Success(CallRecord([A1, A2], []))
  {
    var d := [("a", A1), ("rest", ListV([A2]))];
    var inst := Instance(d, {"a", "rest"});
    assert Filter(d[1..][1..], {"a", "rest"}, true) == [];
    assert Filter(d, {"a", "rest"}, true) == d;
    assert Prepared(StarRestCorrected, inst, false) == Success(d);
    assert IndexOf(d, "rest") == 1;
    assert Values(d[..1]) == [A1];
    assert d[2..] == [];
    assert Values(d[..1]) + d[1].1.items == [A1, A2];
    assert Splice(d, "rest") == Success(CallRecord([A1, A2], []));
  }

  /**
    As written, `def f(a, *rest)` cannot take an overflow argument: `f(1, 2)`
    puts `[2]` under `args`, which is not a field, and validation rejects it.
   */
  lemma UnreadCarrierRejects(coerce: Coerce)
    ensures AnalyzeAsWritten(StarRest) == Success(StarRestWritten)
    ensures "args" !in Keys(StarRestWritten.fields)
    ensures CallAsWritten(StarRestWritten, coerce, [A1, A2], []) ==
      Failure(ValidationFailed(ValidationError({"args"}, {}, {})))
  {
    StarRestAnalysis();
    StarRestBinds(StarRestWritten);
    StarRestWrittenInvalid(coerce);
    WrittenCallRejected(StarRestWritten, coerce, [A1, A2], [], Bound(map["a" := A1, "args" := ListV([A2])], true, false),
                 ValidationError({"args"}, {}, {}));
  }

  /** With `rest` as the carrier, `f(1, 2)` reaches `f` as `f(1, 2)`, whatever the annotations' validators. */
  lemma DeclaredCarrierAccepts(coerce: Coerce)
    ensures Analyze(StarRest) == Success(StarRestCorrected)
    ensures Call(StarRestCorrected, coerce, [A1, A2], []) == Success(CallRecord([A1, A2], []))
  {
    StarRestAnalysis();
    StarRestBinds(StarRestCorrected);
    StarRestCorrectedValid(coerce);
    StarRestCorrectedRebuilt();
    CallStages(StarRestCorrected, coerce, [A1, A2], [], Bound(map["a" := A1, "rest" := ListV([A2])], true, false),
               Instance([("a", A1), ("rest", ListV([A2]))], {"a", "rest"}), CallRecord([A1, A2], []));
  }

  /** `def f(args, *rest)` wrapped as the code does it: `args` is both a field and the positional carrier. */
  const ArgsStarRestWritten: ValidatedFunction :=
    ValidatedFunction(map[0 := "args"], "args", "kwargs", {}, [("args", AnyField), ("rest", RestField)])

  /** `def f(args, *rest)` wrapped with `rest` as the positional carrier. */
  const ArgsStarRestCorrected: ValidatedFunction :=
    ValidatedFunction(map[0 := "args"], "rest", "kwargs", {}, [("args", AnyField), ("rest", RestField)])

  /** `f(1, 2, 3)` stores 1 under `args` and then the carried `[2, 3]` under the carrier name. */
  lemma {:induction false} ArgsStarRestBinds(vf: ValidatedFunction)
    requires vf == ArgsStarRestWritten || vf == ArgsStarRestCorrected
    ensures vf == ArgsStarRestWritten ==>
      BuildValues(vf, [A1, A2, A3], []) == Success(Bound(map["args" := ListV([A2, A3])], true, false))
    ensures vf == ArgsStarRestCorrected ==>
      BuildValues(vf, [A1, A2, A3], []) == Success(Bound(map["args" := A1, "rest" := ListV([A2, A3])], true, false))
    ensures Repeated(vf, [A1, A2, A3], []) == {}
  {
    var args := [A1, A2, A3];
    var m := vf.argMapping;
    var c := vf.argsFieldName;
    assert args[1..] == [A2, A3];
    assert BindFrom(m, c, args, 1, map["args" := A1]) == (map["args" := A1][c := ListV([A2, A3])], true);
    assert BindFrom(m, c, args, 0, map[]) == BindFrom(m, c, args, 1, map["args" := A1]);
    assert BindPositional(m, c, args) == (map["args" := A1][c := ListV([A2, A3])], true);
    assert map["args" := A1]["args" := ListV([A2, A3])] == map["args" := ListV([A2, A3])];
  }

  /** As written only the carried list is left under `args`; `rest` falls back to its default. */
  lemma ArgsStarRestWrittenValid(coerce: Coerce)
    ensures Validate(ArgsStarRestWritten.fields, map["args" := ListV([A2, A3])], coerce) ==
      Success(Instance([("args", ListV([A2, A3])), ("rest", NoneV)], {"args"}))
  {
    var fields := ArgsStarRestWritten.fields;
    var values := map["args" := ListV([A2, A3])];
    assert Keys(fields) == ["args", "rest"];
    assert FieldOk(fields[0], values, coerce) && FieldOk(fields[1], values, coerce);
    var r := Validate(fields, values, coerce);
    assert r.Success?;
    assert r.value.data[0] == ("args", ListV([A2, A3])) && r.value.data[1] == ("rest", NoneV);
    assert r.value.data == [("args", ListV([A2, A3])), ("rest", NoneV)];
    assert values.Keys == {"args"};
  }

  /** Only `args` was supplied, and it is the carrier: its list becomes the whole call. */
  lemma ArgsStarRestWrittenRebuilt()
    ensures Execute(ArgsStarRestWritten, Instance([("args", ListV([A2, A3])), ("rest", NoneV)], {"args"}), true, false) ==
      Success(CallRecord([A2, A3], []))
  {
    var data := [("args", ListV([A2, A3])), ("rest", NoneV)];
    var d := [("args", ListV([A2, A3]))];
    assert data[1..][1..] == [];
    assert Filter(data[1..], {"args"}, true) == [];
    assert Filter(data, {"args"}, true) == d;
    assert Prepared(ArgsStarRestWritten, Instance(data, {"args"}), false) == Success(d);
    assert IndexOf(d, "args") == 0;
    assert Values(d[..0]) + d[0].1.items == [A2, A3];
    assert d[1..] == [];
    assert Splice(d, "args") == Success(CallRecord([A2, A3], []));
  }

  /** With `rest` as the carrier, `args` keeps 1 and `rest` holds `[2, 3]`. */
  lemma ArgsStarRestCorrectedValid(coerce: Coerce)
    ensures Validate(ArgsStarRestCorrected.fields, map["args" := A1, "rest" := ListV([A2, A3])], coerce) ==
      Success(Instance([("args", A1), ("rest", ListV([A2, A3]))], {"args", "rest"}))
  {
    var fields := ArgsStarRestCorrected.fields;
    var values := map["args" := A1, "rest" := ListV([A2, A3])];
    assert Keys(fields) == ["args", "rest"];
    assert CheckItems(AnyType, [A2, A3], coerce) == Some([A2, A3]) by {
      assert [A2, A3][1..] == [A3] && [A3][1..] == [];
      assert CheckItems(AnyType, [], coerce) == Some([]);
      assert CheckType(AnyType, A3, coerce) == Some(A3) && [A3] + [] == [A3];
      assert CheckItems(AnyType, [A3], coerce) == Some([A3]);
      assert [A2] + [A3] == [A2, A3];
    }
    assert FieldOk(fields[0], values, coerce) && FieldOk(fields[1], values, coerce);
    assert FieldValue(fields[1], values, coerce) == ListV([A2, A3]);
    var r := Validate(fields, values, coerce);
    assert r.Success?;
    assert r.value.data[0] == ("args", A1) && r.value.data[1] == ("rest", ListV([A2, A3]));
    assert r.value.data == [("args", A1), ("rest", ListV([A2, A3]))];
    assert values.Keys == {"args", "rest"};
  }

  /** The validated 1 goes first and the carried `[2, 3]` is spliced in after it. */
  lemma ArgsStarRestCorrectedRebuilt()
    ensures Execute(ArgsStarRestCorrected, Instance([("args", A1), ("rest", ListV([A2, A3]))], {"args", "rest"}), true, false) ==
      Success(CallRecord([A1, A2, A3], []))
  {
    var d := [("args", A1), ("rest", ListV([A2, A3]))];
    assert Filter(d[1..][1..], {"args", "rest"}, true) == [];
    assert Filter(d, {"args", "rest"}, true) == d;
    assert Prepared(ArgsStarRestCorrected, Instance(d, {"args", "rest"}), false) == Success(d);
    assert IndexOf(d, "rest") == 1;
    assert Values(d[..1]) + d[1].1.items == [A1, A2, A3];
    assert d[2..] == [];
    assert Splice(d, "rest") == Success(CallRecord([A1, A2, A3], []));
  }

  /**
    As written, `f(1, 2, 3)` on `def f(args, *rest)` calls `f(2, 3)`: the
    carried list overwrites the first argument, and the 1 is lost.
   */
  lemma UnreadCarrierOverwrites(coerce: Coerce)
    ensures AnalyzeAsWritten(ArgsStarRest) == Success(ArgsStarRestWritten)
    ensures CallAsWritten(ArgsStarRestWritten, coerce, [A1, A2, A3], []) == Success(CallRecord([A2, A3], []))
  {
    ArgsStarRestAnalysis();
    ArgsStarRestBinds(ArgsStarRestWritten);
    ArgsStarRestWrittenValid(coerce);
    ArgsStarRestWrittenRebuilt();
    WrittenCallStages(ArgsStarRestWritten, coerce, [A1, A2, A3], [], Bound(map["args" := ListV([A2, A3])], true, false),
               Instance([("args", ListV([A2, A3])), ("rest", NoneV)], {"args"}), CallRecord([A2, A3], []));
  }

  /** With `rest` as the carrier, `f(1, 2, 3)` reaches `f` unchanged. */
  lemma DeclaredCarrierKeepsArguments(coerce: Coerce)
    ensures Analyze(ArgsStarRest) == Success(ArgsStarRestCorrected)
    ensures Call(ArgsStarRestCorrected, coerce, [A1, A2, A3], []) == Success(CallRecord([A1, A2, A3], []))
  {
    ArgsStarRestAnalysis();
    ArgsStarRestBinds(ArgsStarRestCorrected);
    ArgsStarRestCorrectedValid(coerce);
    ArgsStarRestCorrectedRebuilt();
    CallStages(ArgsStarRestCorrected, coerce, [A1, A2, A3], [],
               Bound(map["args" := A1, "rest" := ListV([A2, A3])], true, false),
               Instance([("args", A1), ("rest", ListV([A2, A3]))], {"args", "rest"}), CallRecord([A1, A2, A3], []));
  }

  /** `def f(a, b=0)` wrapped: both parameters are positional, neither is positional-only. */
  const WithDefaultWrapped: ValidatedFunction :=
    ValidatedFunction(map[0 := "a", 1 := "b"], "args", "kwargs", {},
                      [("a", AnyField), ("b", FieldSpec(Plain(AnyType), Some(Atom(0))))])

  /** `f(1, a=2)`: the positional 1 is stored under `a`, then the keyword 2 replaces it. */
  lemma {:induction false} WithDefaultBinds()
    ensures BindPositional(WithDefaultWrapped.argMapping, "args", [A1]) == (map["a" := A1], false)
    ensures BuildValues(WithDefaultWrapped, [A1], [("a", A2)]) == Success(Bound(map["a" := A2], false, false))
  {
    var vf := WithDefaultWrapped;
    var m := vf.argMapping;
    var kwargs: Dict<Value> := [("a", A2)];
    assert BindFrom(m, "args", [A1], 0, map[]) == BindFrom(m, "args", [A1], 1, map["a" := A1]);
    assert Keys(kwargs) == ["a"];
    assert "a" in vf.FieldNames() by {
      assert Keys(vf.fields)[0] == "a";
    }
    assert Filter(kwargs[1..], vf.FieldNames(), false) == [];
    assert Filter(kwargs, vf.FieldNames(), false) == [];
    var r := BindKeywords(vf.FieldNames(), {}, kwargs, map["a" := A1]);
    assert r.Success?;
    assert r.value.0 == map["a" := A2];
  }

  /** The keyword `a` repeats the name the positional argument reached. */
  lemma WithDefaultRepeats()
    ensures Repeated(WithDefaultWrapped, [A1], [("a", A2)]) == {"a"}
  {
    WithDefaultBinds();
    assert "a" in WithDefaultWrapped.FieldNames() by {
      assert Keys(WithDefaultWrapped.fields)[0] == "a";
    }
  }

  /** Only `a` was supplied; `b` takes its default. */
  lemma WithDefaultValid(coerce: Coerce)
    ensures Validate(WithDefaultWrapped.fields, map["a" := A2], coerce) ==
      Success(Instance([("a", A2), ("b", Atom(0))], {"a"}))
  {
    var fields := WithDefaultWrapped.fields;
    var values := map["a" := A2];
    assert Keys(fields) == ["a", "b"];
    assert FieldOk(fields[0], values, coerce) && FieldOk(fields[1], values, coerce);
    var r := Validate(fields, values, coerce);
    assert r.Success?;
    assert r.value.data[0] == ("a", A2) && r.value.data[1] == ("b", Atom(0));
    assert r.value.data == [("a", A2), ("b", Atom(0))];
    assert values.Keys == {"a"};
  }

  /** With no positional-only parameter and no overflow, the supplied `a` goes by keyword. */
  lemma WithDefaultRebuilt()
    ensures Execute(WithDefaultWrapped, Instance([("a", A2), ("b", Atom(0))], {"a"}), false, false) ==
      Success(CallRecord([], [("a", A2)]))
  {
    var data := [("a", A2), ("b", Atom(0))];
    var d := [("a", A2)];
    assert data[1..][1..] == [];
    assert Filter(data[1..], {"a"}, true) == [];
    assert Filter(data, {"a"}, true) == d;
    assert Prepared(WithDefaultWrapped, Instance(data, {"a"}), false) == Success(d);
    assert Filter(d[1..], {}, true) == [] && Filter(d[1..], {}, false) == [];
    assert Filter(d, {}, true) == [];
    assert Filter(d, {}, false) == d;
    assert Values(Filter(d, {}, true)) == [];
  }

  /** Python rejects `f(1, a=2)` on `def f(a, b=0)`: the positional 1 already took `a`. */
  lemma PythonRejectsRepeat()
    ensures !Accepts(WithDefault, CallRecord([A1], [("a", A2)]))
  {
    var rec := CallRecord([A1], [("a", A2)]);
    assert !KeywordTarget(WithDefault, 1, "a") by {
      assert forall i :: 1 <= i < |WithDefault| ==> WithDefault[i].name == "b";
    }
    assert rec.kwargs[0].0 == "a";
  }

  /**
    As written, `f(1, a=2)` on `def f(a, b=0)` calls `f(a=2)`, although
    Python itself rejects `f(1, a=2)` for giving `a` two values.
   */
  lemma KeywordOverwritesPositional(coerce: Coerce)
    ensures Analyze(WithDefault) == Success(WithDefaultWrapped)
    ensures !Accepts(WithDefault, CallRecord([A1], [("a", A2)]))
    ensures CallAsWritten(WithDefaultWrapped, coerce, [A1], [("a", A2)]) == Success(CallRecord([], [("a", A2)]))
  {
    WithDefaultAnalysis();
    WithDefaultBinds();
    WithDefaultValid(coerce);
    WithDefaultRebuilt();
    WrittenCallStages(WithDefaultWrapped, coerce, [A1], [("a", A2)], Bound(map["a" := A2], false, false),
                      Instance([("a", A2), ("b", Atom(0))], {"a"}), CallRecord([], [("a", A2)]));
    PythonRejectsRepeat();
  }

  /** With the repeat check, `f(1, a=2)` fails in binding, naming `a`, before validation. */
  lemma RepeatedKeywordRejected(coerce: Coerce)
    ensures Call(WithDefaultWrapped, coerce, [A1], [("a", A2)]) == Failure(BindingFailed(MultipleValues({"a"})))
  {
    WithDefaultBinds();
    WithDefaultRepeats();
    assert BuildValuesChecked(WithDefaultWrapped, [A1], [("a", A2)]) == Failure(MultipleValues({"a"}));
  }
}
