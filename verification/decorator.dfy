/**
  `ValidatedFunction.__call__`: bind the arguments to fields, validate them
  with the model, and rebuild the call to the wrapped function.  A failure
  at any stage ends the call before the wrapped function is reached.
 */
module Decorator {
  import opened Wrappers
  import opened OrderedDict
  import opened Signature
  import opened Analysis
  import opened Validator
  import opened Binding
  import opened Execution

  /**
    Why a call ends before the wrapped function runs.  `SelfByKeyword` is the
    `TypeError` Python raises when a keyword `self` meets the instance that
    `__call__(self, *args, **kwargs)` already takes as `self`.
   */
  datatype CallError = SelfByKeyword | BindingFailed(binding: BindError) | ValidationFailed(validation: ValidationError)
                     | ExecutionFailed(execution: ExecError)

  /** A keyword named `self` gives `__call__` two values for its own `self` parameter. */
  predicate ClashesWithSelf(kwargs: Dict<Value>) {
    "self" in Keys(kwargs)
  }

  /**
    `values, has_var_args, has_var_kwargs = self.build_values(args, kwargs)`
    and `m = self.model(**values)`, with the binding check for a keyword
    repeating a positional argument (`BuildValuesChecked`).
   */
  function Validated(vf: ValidatedFunction, coerce: Coerce, args: seq<Value>, kwargs: Dict<Value>)
    : (r: Result<(Bound, Instance), CallError>)
    ensures (r.Failure? && r.error.BindingFailed?) <==>
      || (exists j :: 0 <= j < |kwargs| && kwargs[j].0 in vf.FieldNames() && kwargs[j].0 in vf.positionalOnlyArgs)
      || Repeated(vf, args, kwargs) != {}
    ensures r.Success? ==> BuildValues(vf, args, kwargs) == Success(r.value.0) && Repeated(vf, args, kwargs) == {}
    ensures r.Success? ==> Validate(vf.fields, r.value.0.values, coerce) == Success(r.value.1)
    ensures r.Success? ==> r.value.1.fieldsSet == r.value.0.values.Keys && r.value.1.fieldsSet <= vf.FieldNames()
    ensures (r.Failure? && r.error.ValidationFailed?) ==>
      (&& BuildValues(vf, args, kwargs).Success?
       && Validate(vf.fields, BuildValues(vf, args, kwargs).value.values, coerce) == Failure(r.error.validation))
  {
    var b :- BuildValuesChecked(vf, args, kwargs).MapFailure(e => BindingFailed(e));
    Instantiated(vf, coerce, b)
  }

  /** `Validated` as the code is written: a keyword may silently replace a positional argument. */
  function ValidatedAsWritten(vf: ValidatedFunction, coerce: Coerce, args: seq<Value>, kwargs: Dict<Value>)
    : (r: Result<(Bound, Instance), CallError>)
    ensures (r.Failure? && r.error.BindingFailed?) <==>
      exists j :: 0 <= j < |kwargs| && kwargs[j].0 in vf.FieldNames() && kwargs[j].0 in vf.positionalOnlyArgs
    ensures r.Success? ==> BuildValues(vf, args, kwargs) == Success(r.value.0)
    ensures r.Success? ==> Validate(vf.fields, r.value.0.values, coerce) == Success(r.value.1)
  {
    var b :- BuildValues(vf, args, kwargs).MapFailure(e => BindingFailed(e));
    Instantiated(vf, coerce, b)
  }

  /** `m = self.model(**values)`: the instance, or the validation error. */
  function Instantiated(vf: ValidatedFunction, coerce: Coerce, b: Bound): (r: Result<(Bound, Instance), CallError>)
    ensures r.Success? <==> Validate(vf.fields, b.values, coerce).Success?
    ensures r.Success? ==> r.value == (b, Validate(vf.fields, b.values, coerce).value)
    ensures r.Success? ==> r.value.1.fieldsSet == b.values.Keys && r.value.1.fieldsSet <= vf.FieldNames()
    ensures r.Failure? ==> r.error == ValidationFailed(Validate(vf.fields, b.values, coerce).error)
  {
    var m := Validate(vf.fields, b.values, coerce);
    if m.Failure? then Failure(ValidationFailed(m.error))
    else
      assert m.value.fieldsSet <= vf.FieldNames() by {
        forall k | k in m.value.fieldsSet
          ensures k in vf.FieldNames()
        {
          assert k in Keys(vf.fields);
        }
      }
      Success((b, m.value))
  }

  /** `return self.execute(m, has_var_args, has_var_kwargs)`, after a successful validation. */
  function Executed(vf: ValidatedFunction, v: (Bound, Instance)): Result<CallRecord, CallError> {
    match Execute(vf, v.1, v.0.hasVarArgs, v.0.hasVarKwargs)
    case Success(rec) => Success(rec)
    case Failure(e) => Failure(ExecutionFailed(e))
  }

  /**
    `validated_function(*args, **kwargs)`, as the call it makes: a keyword
    `self` fails before `__call__` runs; a keyword naming a positional-only
    parameter, or repeating a positional argument, fails before validation;
    a failed validation fails before `execute`; and otherwise the call is
    what `execute` rebuilds from the validated instance.
   */
  function Call(vf: ValidatedFunction, coerce: Coerce, args: seq<Value>, kwargs: Dict<Value>)
    : (r: Result<CallRecord, CallError>)
    ensures ClashesWithSelf(kwargs) ==> r == Failure(SelfByKeyword)
    ensures (r.Failure? && r.error.BindingFailed?) <==>
      && !ClashesWithSelf(kwargs)
      && (|| (exists j :: 0 <= j < |kwargs| && kwargs[j].0 in vf.FieldNames() && kwargs[j].0 in vf.positionalOnlyArgs)
          || Repeated(vf, args, kwargs) != {})
    ensures !ClashesWithSelf(kwargs) && Validated(vf, coerce, args, kwargs).Failure? ==>
      r == Failure(Validated(vf, coerce, args, kwargs).error)
    ensures r.Success? <==>
      (&& !ClashesWithSelf(kwargs)
       && Validated(vf, coerce, args, kwargs).Success?
       && var (b, inst) := Validated(vf, coerce, args, kwargs).value;
          Execute(vf, inst, b.hasVarArgs, b.hasVarKwargs).Success?)
    ensures r.Success? ==>
      var (b, inst) := Validated(vf, coerce, args, kwargs).value;
      r.value == Execute(vf, inst, b.hasVarArgs, b.hasVarKwargs).value
  {
    if ClashesWithSelf(kwargs) then Failure(SelfByKeyword)
    else
      var v :- Validated(vf, coerce, args, kwargs);
      Executed(vf, v)
  }

  /** `validated_function(*args, **kwargs)` as the code is written. */
  function CallAsWritten(vf: ValidatedFunction, coerce: Coerce, args: seq<Value>, kwargs: Dict<Value>)
    : (r: Result<CallRecord, CallError>)
    ensures ClashesWithSelf(kwargs) ==> r == Failure(SelfByKeyword)
    ensures (r.Failure? && r.error.BindingFailed?) <==>
      && !ClashesWithSelf(kwargs)
      && exists j :: 0 <= j < |kwargs| && kwargs[j].0 in vf.FieldNames() && kwargs[j].0 in vf.positionalOnlyArgs
    ensures !ClashesWithSelf(kwargs) && ValidatedAsWritten(vf, coerce, args, kwargs).Failure? ==>
      r == Failure(ValidatedAsWritten(vf, coerce, args, kwargs).error)
    ensures r.Success? <==>
      (&& !ClashesWithSelf(kwargs)
       && ValidatedAsWritten(vf, coerce, args, kwargs).Success?
       && var (b, inst) := ValidatedAsWritten(vf, coerce, args, kwargs).value;
          Execute(vf, inst, b.hasVarArgs, b.hasVarKwargs).Success?)
    ensures r.Success? ==>
      var (b, inst) := ValidatedAsWritten(vf, coerce, args, kwargs).value;
      r.value == Execute(vf, inst, b.hasVarArgs, b.hasVarKwargs).value
  {
    if ClashesWithSelf(kwargs) then Failure(SelfByKeyword)
    else
      var v :- ValidatedAsWritten(vf, coerce, args, kwargs);
      Executed(vf, v)
  }

  /** The two differ only on calls where a keyword repeats a positional argument. */
  lemma CallsAgreeWithoutRepeats(vf: ValidatedFunction, coerce: Coerce, args: seq<Value>, kwargs: Dict<Value>)
    requires Repeated(vf, args, kwargs) == {}
    ensures CallAsWritten(vf, coerce, args, kwargs) == Call(vf, coerce, args, kwargs)
  {
    assert BuildValuesChecked(vf, args, kwargs) == BuildValues(vf, args, kwargs);
    assert ValidatedAsWritten(vf, coerce, args, kwargs) == Validated(vf, coerce, args, kwargs);
  }

  /** Once validation has succeeded, the call is exactly what `execute` returns. */
  lemma CallExecutes(vf: ValidatedFunction, coerce: Coerce, args: seq<Value>, kwargs: Dict<Value>, b: Bound, inst: Instance)
    requires !ClashesWithSelf(kwargs)
    requires Validated(vf, coerce, args, kwargs) == Success((b, inst))
    ensures Call(vf, coerce, args, kwargs) ==
      match Execute(vf, inst, b.hasVarArgs, b.hasVarKwargs)
      case Success(rec) => Success(rec)
      case Failure(e) => Failure(ExecutionFailed(e))
  {
  }

  /** A validated call is one whose binding and validation both succeeded, with no repeated keyword. */
  lemma ValidatedStages(vf: ValidatedFunction, coerce: Coerce, args: seq<Value>, kwargs: Dict<Value>, b: Bound, inst: Instance)
    requires Validated(vf, coerce, args, kwargs) == Success((b, inst))
    ensures BuildValues(vf, args, kwargs) == Success(b)
    ensures Repeated(vf, args, kwargs) == {}
    ensures Validate(vf.fields, b.values, coerce) == Success(inst)
  {
  }
}
