/**
  Signature analysis done once by `ValidatedFunction.__init__`: the model's
  fields, the index-to-name table, the positional-only names, and the names
  under which overflow positional and keyword arguments are carried.
 */
module Analysis {
  import opened Wrappers
  import opened OrderedDict
  import opened Signature

  /** The reserved names substituted for `args` and `kwargs` when those are ordinary fields. */
  const ALT_VAR_ARGS: string := "var__args"
  const ALT_VAR_KWARGS: string := "var__kwargs"

  const SETUP_MESSAGE: string :=
    "\"var__args\" and \"var__kwargs\" are not permitted as argument names when using the \"validate_arguments\" decorator"

  /** A field's type as handed to the validator: `T`, `Tuple[T, ...]` or `Dict[str, T]`. */
  datatype Annotation = Plain(t: TypeToken) | TupleOf(item: TypeToken) | DictOf(item: TypeToken)

  /** A field declaration `(annotation, default)`; a `None` default is `...`, a required field. */
  datatype FieldSpec = FieldSpec(annotation: Annotation, default: Option<Value>)

  /** `DecoratorSetupError`, a `TypeError` raised while wrapping. */
  datatype SetupError = DecoratorSetupError(message: string)

  /**
    The state `__init__` leaves behind: `arg_mapping`, `args_field_name`,
    `kwargs_field_name`, `positional_only_args` and the model's fields.
   */
  datatype ValidatedFunction = ValidatedFunction(
    argMapping: map<nat, string>,
    argsFieldName: string,
    kwargsFieldName: string,
    positionalOnlyArgs: set<string>,
    fields: Dict<FieldSpec>)
  {
    /** The keys of the model's `__fields__`. */
    function FieldNames(): set<string> {
      set k | k in Keys(fields)
    }
  }

  /** The field one parameter contributes. */
  function FieldOf(p: Param): FieldSpec {
    var t := if p.annotation.None? then AnyType else Named(p.annotation.value);
    match p.kind
    case VarPositional => FieldSpec(TupleOf(t), Some(NoneV))
    case VarKeyword => FieldSpec(DictOf(t), Some(NoneV))
    case _ => FieldSpec(Plain(t), p.default)
  }

  /**
    The loop state of the parameter scan.  `declaredArgsName` and
    `declaredKwargsName` are the names the loop stores in
    `_args_field_name` and `_kwargs_field_name`.
   */
  datatype Scan = Scan(
    argMapping: map<nat, string>,
    positionalOnly: set<string>,
    fields: Dict<FieldSpec>,
    allowsVarArgs: bool,
    allowsVarKwargs: bool,
    declaredArgsName: Option<string>,
    declaredKwargsName: Option<string>)

  /**
    One iteration of the scan, for parameter `p` at index `i`: every kind adds
    a field; positional kinds get an index; positional-only names are
    collected; a variadic parameter sets its flag and its recorded name.
   */
  function Step(s: Scan, i: nat, p: Param): Scan {
    Scan(
      if p.kind.Positional() then s.argMapping[i := p.name] else s.argMapping,
      if p.kind == PositionalOnly then s.positionalOnly + {p.name} else s.positionalOnly,
      Put(s.fields, p.name, FieldOf(p)),
      s.allowsVarArgs || p.kind == VarPositional,
      s.allowsVarKwargs || p.kind == VarKeyword,
      if p.kind == VarPositional then Some(p.name) else s.declaredArgsName,
      if p.kind == VarKeyword then Some(p.name) else s.declaredKwargsName)
  }

  /** The scan over all parameters in declaration order. */
  function ScanParams(params: seq<Param>): Scan
    decreases |params|
  {
    if |params| == 0 then
      Scan(map[], {}, [], false, false, None, None)
    else
      var n := |params| - 1;
      Step(ScanParams(params[..n]), n, params[n])
  }

  /** Exactly the positional-capable parameters get an index, and the index is their position. */
  lemma {:induction false} ScanMapping(params: seq<Param>)
    ensures forall i: nat :: i in ScanParams(params).argMapping <==> i < |params| && params[i].kind.Positional()
    ensures forall i: nat :: i in ScanParams(params).argMapping ==> ScanParams(params).argMapping[i] == params[i].name
    decreases |params|
  {
    if |params| > 0 {
      var n := |params| - 1;
      var pre := params[..n];
      ScanMapping(pre);
      var m := ScanParams(pre).argMapping;
      var m' := ScanParams(params).argMapping;
      assert m' == if params[n].kind.Positional() then m[n := params[n].name] else m;
      forall i: nat
        ensures i in m' <==> i < |params| && params[i].kind.Positional()
        ensures i in m' ==> m'[i] == params[i].name
      {
        if i < n {
          assert pre[i] == params[i];
        }
      }
    }
  }

  /** `positional_only_args` holds exactly the names of the positional-only parameters. */
  lemma {:induction false} ScanPositionalOnly(params: seq<Param>)
    ensures forall x :: x in ScanParams(params).positionalOnly <==> Declares(params, PositionalOnly, x)
    decreases |params|
  {
    if |params| > 0 {
      var n := |params| - 1;
      ScanPositionalOnly(params[..n]);
      forall x
        ensures x in ScanParams(params).positionalOnly <==> Declares(params, PositionalOnly, x)
      {
        DeclaresSnoc(params, PositionalOnly, x);
      }
    }
  }

  /** The flags `allows_var_args` and `allows_var_kwargs` record whether such a parameter is declared. */
  lemma {:induction false} ScanVariadic(params: seq<Param>)
    ensures ScanParams(params).allowsVarArgs <==> HasKind(params, VarPositional)
    ensures ScanParams(params).allowsVarKwargs <==> HasKind(params, VarKeyword)
    decreases |params|
  {
    if |params| > 0 {
      var n := |params| - 1;
      ScanVariadic(params[..n]);
      HasKindSnoc(params, VarPositional);
      HasKindSnoc(params, VarKeyword);
    }
  }

  /** Every parameter, and nothing else, names a field. */
  lemma {:induction false} ScanFieldNames(params: seq<Param>)
    ensures forall n :: n in Keys(ScanParams(params).fields) <==> n in Names(params)
    decreases |params|
  {
    if |params| > 0 {
      var n := |params| - 1;
      ScanFieldNames(params[..n]);
      NamesSnoc(params);
    }
  }

  /** With distinct names, the fields are the parameters, one each, in declaration order. */
  lemma {:induction false} ScanFields(params: seq<Param>)
    requires UniqueNames(params)
    ensures |ScanParams(params).fields| == |params|
    ensures forall i :: 0 <= i < |params| ==> ScanParams(params).fields[i] == (params[i].name, FieldOf(params[i]))
    decreases |params|
  {
    if |params| > 0 {
      var n := |params| - 1;
      var pre := params[..n];
      ScanFields(pre);
      ScanFieldNames(pre);
      assert params[n].name !in Names(pre);
      assert ScanParams(params).fields == ScanParams(pre).fields + [(params[n].name, FieldOf(params[n]))];
      forall i | 0 <= i < n
        ensures ScanParams(params).fields[i] == (params[i].name, FieldOf(params[i]))
      {
        assert pre[i] == params[i];
      }
    }
  }

  /** The name recorded for the `*` parameter is declared with that kind, and recorded when one is. */
  lemma {:induction false} ScanDeclaredArgs(params: seq<Param>)
    ensures ScanParams(params).declaredArgsName.Some? <==> HasKind(params, VarPositional)
    ensures ScanParams(params).declaredArgsName.Some? ==>
      Declares(params, VarPositional, ScanParams(params).declaredArgsName.value)
    decreases |params|
  {
    if |params| > 0 {
      var n := |params| - 1;
      var d := ScanParams(params[..n]).declaredArgsName;
      ScanDeclaredArgs(params[..n]);
      HasKindSnoc(params, VarPositional);
      assert ScanParams(params).declaredArgsName == if params[n].kind == VarPositional then Some(params[n].name) else d;
      if params[n].kind == VarPositional {
        DeclaresSnoc(params, VarPositional, params[n].name);
      } else if d.Some? {
        DeclaresSnoc(params, VarPositional, d.value);
      }
    }
  }

  /** The name recorded for the `**` parameter is declared with that kind, and recorded when one is. */
  lemma {:induction false} ScanDeclaredKwargs(params: seq<Param>)
    ensures ScanParams(params).declaredKwargsName.Some? <==> HasKind(params, VarKeyword)
    ensures ScanParams(params).declaredKwargsName.Some? ==>
      Declares(params, VarKeyword, ScanParams(params).declaredKwargsName.value)
    decreases |params|
  {
    if |params| > 0 {
      var n := |params| - 1;
      var d := ScanParams(params[..n]).declaredKwargsName;
      ScanDeclaredKwargs(params[..n]);
      HasKindSnoc(params, VarKeyword);
      assert ScanParams(params).declaredKwargsName == if params[n].kind == VarKeyword then Some(params[n].name) else d;
      if params[n].kind == VarKeyword {
        DeclaresSnoc(params, VarKeyword, params[n].name);
      } else if d.Some? {
        DeclaresSnoc(params, VarKeyword, d.value);
      }
    }
  }

  /**
    `ValidatedFunction(function)`, given the parameters of `signature(function)`,
    with the carrier names `__init__` evidently means to set: a declared `*`
    parameter carries the overflow positional arguments and a declared `**`
    parameter the unknown keywords; otherwise `args` and `kwargs` are used,
    renamed to the reserved names when a parameter already has that name.
    `AnalyzeAsWritten` is the naming the code actually does.
   */
  function Analyze(params: seq<Param>): (r: Result<ValidatedFunction, SetupError>)
    ensures r.Failure? <==> ALT_VAR_ARGS in Names(params) || ALT_VAR_KWARGS in Names(params)
    ensures r.Failure? ==> r.error == DecoratorSetupError(SETUP_MESSAGE)
    ensures r.Success? ==> forall i: nat ::
      i in r.value.argMapping <==> i < |params| && params[i].kind.Positional()
    ensures r.Success? ==> forall i: nat ::
      i in r.value.argMapping ==> r.value.argMapping[i] == params[i].name
    ensures r.Success? ==> forall x :: x in r.value.positionalOnlyArgs <==> Declares(params, PositionalOnly, x)
    ensures r.Success? ==> r.value.FieldNames() == set n | n in Names(params)
    ensures r.Success? && HasKind(params, VarPositional) ==> Declares(params, VarPositional, r.value.argsFieldName)
    ensures r.Success? && HasKind(params, VarKeyword) ==> Declares(params, VarKeyword, r.value.kwargsFieldName)
    ensures r.Success? && !HasKind(params, VarPositional) ==>
      r.value.argsFieldName == (if "args" in Names(params) then ALT_VAR_ARGS else "args")
    ensures r.Success? && !HasKind(params, VarKeyword) ==>
      r.value.kwargsFieldName == (if "kwargs" in Names(params) then ALT_VAR_KWARGS else "kwargs")
    ensures r.Success? && !HasKind(params, VarPositional) ==> r.value.argsFieldName !in Names(params)
    ensures r.Success? && !HasKind(params, VarKeyword) ==> r.value.kwargsFieldName !in Names(params)
  {
    if ALT_VAR_ARGS in Names(params) || ALT_VAR_KWARGS in Names(params) then
      Failure(DecoratorSetupError(SETUP_MESSAGE))
    else
      var s := ScanParams(params);
      ScanMapping(params);
      ScanPositionalOnly(params);
      ScanVariadic(params);
      ScanFieldNames(params);
      ScanDeclaredArgs(params);
      ScanDeclaredKwargs(params);
      var argsName :=
        match s.declaredArgsName
        case Some(name) => name
        case None => if "args" in Keys(s.fields) then ALT_VAR_ARGS else "args";
      var kwargsName :=
        match s.declaredKwargsName
        case Some(name) => name
        case None => if "kwargs" in Keys(s.fields) then ALT_VAR_KWARGS else "kwargs";
      Success(ValidatedFunction(s.argMapping, argsName, kwargsName, s.positionalOnly, s.fields))
  }

  /**
    `ValidatedFunction(function)` as the code is written: the loop stores a
    declared variadic name in `_args_field_name` / `_kwargs_field_name`,
    which nothing reads, so the carriers stay `args` and `kwargs` (or their
    reserved renamings) even when `*` or `**` parameters are declared.
    Everything else is as in `Analyze`.
   */
  function AnalyzeAsWritten(params: seq<Param>): (r: Result<ValidatedFunction, SetupError>)
    ensures r.Failure? <==> Analyze(params).Failure?
    ensures r.Failure? ==> r.error == Analyze(params).error
    ensures r.Success? ==> (r.value.argsFieldName ==
      if !HasKind(params, VarPositional) && "args" in Names(params) then ALT_VAR_ARGS else "args")
    ensures r.Success? ==> (r.value.kwargsFieldName ==
      if !HasKind(params, VarKeyword) && "kwargs" in Names(params) then ALT_VAR_KWARGS else "kwargs")
    ensures r.Success? ==>
      r.value.(argsFieldName := Analyze(params).value.argsFieldName,
               kwargsFieldName := Analyze(params).value.kwargsFieldName) == Analyze(params).value
  {
    match Analyze(params)
    case Failure(e) => Failure(e)
    case Success(vf) =>
      var s := ScanParams(params);
      ScanVariadic(params);
      ScanFieldNames(params);
      var argsName := if !s.allowsVarArgs && "args" in Keys(s.fields) then ALT_VAR_ARGS else "args";
      var kwargsName := if !s.allowsVarKwargs && "kwargs" in Keys(s.fields) then ALT_VAR_KWARGS else "kwargs";
      Success(vf.(argsFieldName := argsName, kwargsFieldName := kwargsName))
  }
}
