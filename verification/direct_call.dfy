/**
  The converse direction for a function without `*` or `**` parameters:
  when validation leaves every value as it is, a call Python accepts goes
  through the wrapper unchanged, every parameter receiving what the direct
  call would have given it.
 */
module DirectCall {
  import opened Wrappers
  import opened OrderedDict
  import opened Signature
  import opened Analysis
  import opened Validator
  import opened Binding
  import opened Execution
  import opened Calling
  import opened Decorator
  import opened Agreement

  /** Every annotation accepts every value as it is. */
  ghost predicate Identity(coerce: Coerce) {
    forall id, v :: coerce(id, v) == Some(v)
  }

  /** The value bound to a name, if any. */
  function Lookup(values: map<string, Value>, k: string): Option<Value> {
    if k in values then Some(values[k]) else None
  }

  /** Every keyword of an accepted call names a field that is not positional-only. */
  lemma AcceptedKeywords(params: seq<Param>, vf: ValidatedFunction, args: seq<Value>, kwargs: Dict<Value>)
    requires AnalysisFacts(params, vf)
    requires Accepts(params, CallRecord(args, kwargs))
    ensures forall j :: 0 <= j < |kwargs| ==> kwargs[j].0 in vf.FieldNames() && kwargs[j].0 !in vf.positionalOnlyArgs
    ensures forall i, j :: 0 <= i < |args| && 0 <= j < |kwargs| ==> kwargs[j].0 != params[i].name
  {
    forall j | 0 <= j < |kwargs|
      ensures kwargs[j].0 in vf.FieldNames() && kwargs[j].0 !in vf.positionalOnlyArgs
      ensures forall i :: 0 <= i < |args| ==> kwargs[j].0 != params[i].name
    {
      var t :| |args| <= t < |params| && params[t].name == kwargs[j].0 &&
               (params[t].kind == PositionalOrKeyword || params[t].kind == KeywordOnly);
      assert params[t].name !in vf.positionalOnlyArgs;
    }
  }

  /** The positional arguments of an accepted call reach, in order, distinct parameter names. */
  lemma AcceptedPositional(params: seq<Param>, vf: ValidatedFunction, args: seq<Value>, kwargs: Dict<Value>)
    requires AnalysisFacts(params, vf)
    requires Accepts(params, CallRecord(args, kwargs))
    ensures Injective(vf.argMapping)
    ensures forall j :: 0 <= j < |args| ==> j in vf.argMapping && vf.argMapping[j] == params[j].name
  {
  }

  /** Binding an accepted call binds each positional argument and each keyword under its own name. */
  lemma AcceptedBinds(params: seq<Param>, vf: ValidatedFunction, args: seq<Value>, kwargs: Dict<Value>)
    requires AnalysisFacts(params, vf)
    requires Accepts(params, CallRecord(args, kwargs))
    ensures BuildValues(vf, args, kwargs).Success?
    ensures var b := BuildValues(vf, args, kwargs).value;
            && !b.hasVarArgs && !b.hasVarKwargs
            && (forall n :: n in b.values <==> (exists i :: 0 <= i < |args| && vf.argMapping[i] == n) || n in Keys(kwargs))
            && (forall i :: 0 <= i < |args| ==> vf.argMapping[i] in b.values && b.values[vf.argMapping[i]] == args[i])
            && (forall j :: 0 <= j < |kwargs| ==> kwargs[j].0 in b.values && b.values[kwargs[j].0] == kwargs[j].1)
  {
    AcceptedKeywords(params, vf, args, kwargs);
    AcceptedPositional(params, vf, args, kwargs);
    BuildValuesExact(vf, args, kwargs);
  }

  /** No keyword of an accepted call repeats a positional argument. */
  lemma AcceptedNotRepeated(params: seq<Param>, vf: ValidatedFunction, args: seq<Value>, kwargs: Dict<Value>)
    requires AnalysisFacts(params, vf)
    requires Accepts(params, CallRecord(args, kwargs))
    ensures Repeated(vf, args, kwargs) == {}
  {
    AcceptedKeywords(params, vf, args, kwargs);
    AcceptedPositional(params, vf, args, kwargs);
    BuildValuesNoOverflow(vf, args, kwargs);
    RepeatedNames(vf, args, kwargs);
    InKeys(kwargs);
  }

  /** Each parameter of an accepted call is bound to the value the direct call gives it. */
  lemma AcceptedValues(params: seq<Param>, args: seq<Value>, kwargs: Dict<Value>, values: map<string, Value>)
    requires UniqueNames(params) && Accepts(params, CallRecord(args, kwargs))
    requires forall n :: n in values <==> (exists i :: 0 <= i < |args| && params[i].name == n) || n in Keys(kwargs)
    requires forall i :: 0 <= i < |args| ==> params[i].name in values && values[params[i].name] == args[i]
    requires forall j :: 0 <= j < |kwargs| ==> kwargs[j].0 in values && values[kwargs[j].0] == kwargs[j].1
    ensures forall i :: 0 <= i < |params| ==> Lookup(values, params[i].name) == Receives(params, CallRecord(args, kwargs), i)
  {
    InKeys(kwargs);
    forall i | 0 <= i < |params|
      ensures Lookup(values, params[i].name) == Receives(params, CallRecord(args, kwargs), i)
    {
      var n := params[i].name;
      if |args| <= i && n in Keys(kwargs) {
        var j :| 0 <= j < |kwargs| && kwargs[j].0 == n;
        GetAt(kwargs, j);
      }
    }
  }

  /** The names bound for an accepted call are all fields, and include every required one. */
  lemma AcceptedFields(params: seq<Param>, vf: ValidatedFunction, args: seq<Value>, kwargs: Dict<Value>,
                       values: map<string, Value>)
    requires AnalysisFacts(params, vf) && Accepts(params, CallRecord(args, kwargs))
    requires forall n :: n in values <==> (exists i :: 0 <= i < |args| && params[i].name == n) || n in Keys(kwargs)
    ensures forall k :: k in values ==> k in Keys(vf.fields)
    ensures forall i :: 0 <= i < |params| && params[i].default.None? ==> params[i].name in values
  {
    AcceptedKeywords(params, vf, args, kwargs);
    InKeys(kwargs);
    forall k | k in values
      ensures k in vf.FieldNames()
    {
      if exists i :: 0 <= i < |args| && params[i].name == k {
        var i :| 0 <= i < |args| && params[i].name == k;
        assert vf.fields[i].0 == k;
      }
    }
  }

  /** A field of such a signature keeps any value when every annotation accepts every value. */
  lemma PlainIdentity(spec: FieldSpec, v: Value, coerce: Coerce)
    requires spec.annotation.Plain? && Identity(coerce)
    ensures CheckField(spec, v, coerce) == Some(v)
  {
  }

  /**
    When every annotation is plain and accepts every value as it is,
    validating values that name only fields and cover the required ones
    succeeds and keeps each supplied value.
   */
  lemma IdentityValidates(fields: Dict<FieldSpec>, coerce: Coerce, values: map<string, Value>)
    requires Identity(coerce)
    requires forall i :: 0 <= i < |fields| ==> fields[i].1.annotation.Plain?
    requires forall k :: k in values ==> k in Keys(fields)
    requires forall i :: 0 <= i < |fields| && fields[i].1.default.None? ==> fields[i].0 in values
    ensures Validate(fields, values, coerce).Success?
    ensures var inst := Validate(fields, values, coerce).value;
            && |inst.data| == |fields|
            && inst.fieldsSet == values.Keys
            && forall i :: 0 <= i < |fields| && fields[i].0 in values ==> inst.data[i].1 == values[fields[i].0]
  {
    forall i | 0 <= i < |fields|
      ensures FieldOk(fields[i], values, coerce)
      ensures fields[i].0 in values ==> FieldValue(fields[i], values, coerce) == values[fields[i].0]
    {
      if fields[i].0 in values {
        PlainIdentity(fields[i].1, values[fields[i].0], coerce);
      }
    }
  }

  /** The fields of a signature without `*` or `**` are plain, named and defaulted as their parameters. */
  lemma FixedFields(params: seq<Param>, vf: ValidatedFunction)
    requires AnalysisFacts(params, vf)
    ensures forall i :: 0 <= i < |params| ==>
              && vf.fields[i].0 == params[i].name
              && vf.fields[i].1.annotation.Plain?
              && vf.fields[i].1.default == params[i].default
  {
  }

  /** Binding an accepted call gives each parameter name the value the direct call gives it. */
  lemma DirectBound(params: seq<Param>, vf: ValidatedFunction, args: seq<Value>, kwargs: Dict<Value>)
    requires AnalysisFacts(params, vf) && Accepts(params, CallRecord(args, kwargs))
    ensures BuildValues(vf, args, kwargs).Success?
    ensures var b := BuildValues(vf, args, kwargs).value;
            && !b.hasVarArgs && !b.hasVarKwargs
            && (forall i :: 0 <= i < |params| ==>
                  Lookup(b.values, params[i].name) == Receives(params, CallRecord(args, kwargs), i))
            && (forall k :: k in b.values ==> k in Keys(vf.fields))
            && (forall i :: 0 <= i < |params| && params[i].default.None? ==> params[i].name in b.values)
  {
    AcceptedBinds(params, vf, args, kwargs);
    AcceptedPositional(params, vf, args, kwargs);
    var b := BuildValues(vf, args, kwargs).value;
    BoundNames(params, vf.argMapping, |args|, b.values.Keys, set k | k in Keys(kwargs));
    AcceptedValues(params, args, kwargs, b.values);
    AcceptedFields(params, vf, args, kwargs, b.values);
  }

  /** Validating those values succeeds and keeps each of them. */
  lemma DirectInstance(params: seq<Param>, vf: ValidatedFunction, coerce: Coerce, values: map<string, Value>)
    requires AnalysisFacts(params, vf) && Identity(coerce)
    requires forall k :: k in values ==> k in Keys(vf.fields)
    requires forall i :: 0 <= i < |params| && params[i].default.None? ==> params[i].name in values
    ensures Validate(vf.fields, values, coerce).Success?
    ensures var inst := Validate(vf.fields, values, coerce).value;
            && |inst.data| == |params|
            && inst.fieldsSet == values.Keys
            && forall i :: 0 <= i < |params| && params[i].name in values ==> inst.data[i].1 == values[params[i].name]
  {
    FixedFields(params, vf);
    IdentityValidates(vf.fields, coerce, values);
  }

  /** An accepted call passes binding and validation, and the instance holds the direct call's values. */
  lemma DirectValidated(params: seq<Param>, vf: ValidatedFunction, coerce: Coerce, args: seq<Value>, kwargs: Dict<Value>)
    requires Wrappable(params) && Analyze(params) == Success(vf)
    requires Identity(coerce)
    requires Accepts(params, CallRecord(args, kwargs))
    ensures Validated(vf, coerce, args, kwargs).Success?
    ensures var (b, inst) := Validated(vf, coerce, args, kwargs).value;
            && !b.hasVarArgs && !b.hasVarKwargs
            && |inst.data| == |params|
            && forall i :: 0 <= i < |params| ==>
                 (if params[i].name in inst.fieldsSet then Some(inst.data[i].1) else None) ==
                 Receives(params, CallRecord(args, kwargs), i)
  {
    AnalyzeFixed(params);
    DirectBound(params, vf, args, kwargs);
    AcceptedNotRepeated(params, vf, args, kwargs);
    var b := BuildValues(vf, args, kwargs).value;
    DirectInstance(params, vf, coerce, b.values);
  }

  /**
    For a function without `*` or `**` parameters whose annotations accept
    every value as it is, a call Python accepts passes the wrapper unless it
    has a keyword `self`, which `__call__` itself rejects; each parameter
    then receives the same value as in the direct call, or is left to its
    default in both.
   */
  lemma WrapperPreservesDirectCall(params: seq<Param>, vf: ValidatedFunction, coerce: Coerce,
                                   args: seq<Value>, kwargs: Dict<Value>)
    requires Wrappable(params) && Analyze(params) == Success(vf)
    requires Identity(coerce)
    requires Accepts(params, CallRecord(args, kwargs)) && !ClashesWithSelf(kwargs)
    ensures Call(vf, coerce, args, kwargs).Success?
    ensures forall i :: 0 <= i < |params| ==>
              Receives(params, Call(vf, coerce, args, kwargs).value, i) == Receives(params, CallRecord(args, kwargs), i)
  {
    DirectValidated(params, vf, coerce, args, kwargs);
    var (b, inst) := Validated(vf, coerce, args, kwargs).value;
    assert Prepared(vf, inst, false).Success?;
    CallExecutes(vf, coerce, args, kwargs, b, inst);
    var rec := Call(vf, coerce, args, kwargs).value;
    CallIsAccepted(params, vf, coerce, args, kwargs, b, inst, rec);
  }

  /** A validated call of such a signature has no stray keyword and repeats no positional argument. */
  lemma ValidatedKeywords(params: seq<Param>, vf: ValidatedFunction, coerce: Coerce, args: seq<Value>,
                          kwargs: Dict<Value>, b: Bound, inst: Instance)
    requires Wrappable(params) && Analyze(params) == Success(vf)
    requires Validated(vf, coerce, args, kwargs) == Success((b, inst))
    ensures forall j :: 0 <= j < |kwargs| ==> kwargs[j].0 in vf.FieldNames()
    ensures Repeated(vf, args, kwargs) == {}
    ensures CallFacts(params, vf, coerce, args, kwargs, b, inst)
    ensures NoOverflow(params, vf, args, b)
  {
    ValidatedStages(vf, coerce, args, kwargs, b, inst);
    EstablishFacts(params, vf, coerce, args, kwargs, b, inst);
  }

  /** From the facts of a validated call to Python accepting the caller's call. */
  lemma FactsAccepted(params: seq<Param>, vf: ValidatedFunction, coerce: Coerce, args: seq<Value>,
                      kwargs: Dict<Value>, b: Bound, inst: Instance)
    requires CallFacts(params, vf, coerce, args, kwargs, b, inst)
    requires forall j :: 0 <= j < |kwargs| ==> kwargs[j].0 in vf.FieldNames()
    requires forall j :: 0 <= j < |kwargs| ==> forall i :: 0 <= i < |args| ==> kwargs[j].0 != params[i].name
    ensures Accepts(params, CallRecord(args, kwargs))
  {
    InKeys(kwargs);
    forall j | 0 <= j < |kwargs|
      ensures KeywordTarget(params, |args|, kwargs[j].0)
    {
      var i :| 0 <= i < |params| && params[i].name == kwargs[j].0;
      assert !(i < |args|);
    }
  }

  /** No keyword of a validated call names a parameter that a positional argument reached. */
  lemma NotRepeatedPositional(params: seq<Param>, vf: ValidatedFunction, args: seq<Value>, kwargs: Dict<Value>)
    requires Repeated(vf, args, kwargs) == {}
    requires FirstUnmapped(vf.argMapping, |args|) == |args| && |args| <= |params|
    requires ReachesOwn(params, vf.argMapping, |args|)
    requires forall j :: 0 <= j < |kwargs| ==> kwargs[j].0 in vf.FieldNames()
    ensures forall j :: 0 <= j < |kwargs| ==> forall i :: 0 <= i < |args| ==> kwargs[j].0 != params[i].name
  {
    var positional := BindPositional(vf.argMapping, vf.argsFieldName, args).0;
    assert forall j :: 0 <= j < |kwargs| ==> kwargs[j].0 !in positional by {
      forall j | 0 <= j < |kwargs|
        ensures kwargs[j].0 !in positional
      {
        assert kwargs[j].0 !in Repeated(vf, args, kwargs);
      }
    }
    assert forall i :: 0 <= i < |args| ==> params[i].name in positional by {
      forall i | 0 <= i < |args|
        ensures params[i].name in positional
      {
        assert vf.argMapping[i] == params[i].name;
      }
    }
  }

  /**
    Whatever the annotations accept, every call the wrapper passes on for
    such a signature is a call Python itself accepts: no keyword repeats a
    positional argument, names an unknown or positional-only parameter, and
    no required parameter is left out.
   */
  lemma PassedCallsAccepted(params: seq<Param>, vf: ValidatedFunction, coerce: Coerce, args: seq<Value>,
                            kwargs: Dict<Value>)
    requires Wrappable(params) && Analyze(params) == Success(vf)
    requires Call(vf, coerce, args, kwargs).Success?
    ensures Accepts(params, CallRecord(args, kwargs))
  {
    var (b, inst) := Validated(vf, coerce, args, kwargs).value;
    ValidatedKeywords(params, vf, coerce, args, kwargs, b, inst);
    NotRepeatedPositional(params, vf, args, kwargs);
    FactsAccepted(params, vf, coerce, args, kwargs, b, inst);
  }

  /**
    For a function without `*` or `**` parameters whose annotations accept
    every value as it is, the wrapper passes a call on exactly when Python
    accepts it directly and it has no keyword `self`, and then every
    parameter receives what the direct call would have given it.
   */
  lemma WrapperAgreesWithPython(params: seq<Param>, vf: ValidatedFunction, coerce: Coerce,
                                args: seq<Value>, kwargs: Dict<Value>)
    requires Wrappable(params) && Analyze(params) == Success(vf)
    requires Identity(coerce)
    ensures Call(vf, coerce, args, kwargs).Success? <==> Accepts(params, CallRecord(args, kwargs)) && !ClashesWithSelf(kwargs)
    ensures Call(vf, coerce, args, kwargs).Success? ==> forall i :: 0 <= i < |params| ==>
              Receives(params, Call(vf, coerce, args, kwargs).value, i) == Receives(params, CallRecord(args, kwargs), i)
  {
    if Call(vf, coerce, args, kwargs).Success? {
      PassedCallsAccepted(params, vf, coerce, args, kwargs);
    }
    if Accepts(params, CallRecord(args, kwargs)) && !ClashesWithSelf(kwargs) {
      WrapperPreservesDirectCall(params, vf, coerce, args, kwargs);
    }
  }

  /**
    On a call Python accepts, the code as written makes the same call as
    the corrected wrapper: no keyword repeats a positional argument, so the
    missing check makes no difference.  For such a signature the two ways
    of naming the carriers also agree.
   */
  lemma AcceptedCallsAgree(params: seq<Param>, vf: ValidatedFunction, coerce: Coerce,
                           args: seq<Value>, kwargs: Dict<Value>)
    requires Wrappable(params) && AnalyzeAsWritten(params) == Success(vf)
    requires Accepts(params, CallRecord(args, kwargs))
    ensures Analyze(params) == Success(vf)
    ensures CallAsWritten(vf, coerce, args, kwargs) == Call(vf, coerce, args, kwargs)
  {
    AnalyzeFixedAsWritten(params);
    AnalyzeFixed(params);
    AcceptedNotRepeated(params, vf, args, kwargs);
    CallsAgreeWithoutRepeats(vf, coerce, args, kwargs);
  }

  /**
    The round trip of the code as written.  For a function without `*`,
    `**` or positional-only parameters whose annotations accept every value
    as it is, a call Python accepts, without a keyword `self`, reaches the
    function with every argument passed by name, and each parameter
    receives the value the direct call gives it, or is left to its default
    in both.
   */
  lemma WrittenRoundTrip(params: seq<Param>, vf: ValidatedFunction, coerce: Coerce,
                         args: seq<Value>, kwargs: Dict<Value>)
    requires Wrappable(params) && AnalyzeAsWritten(params) == Success(vf)
    requires forall i :: 0 <= i < |params| ==> params[i].kind != PositionalOnly
    requires Identity(coerce)
    requires Accepts(params, CallRecord(args, kwargs)) && !ClashesWithSelf(kwargs)
    ensures CallAsWritten(vf, coerce, args, kwargs).Success?
    ensures CallAsWritten(vf, coerce, args, kwargs).value.args == []
    ensures forall i :: 0 <= i < |params| ==>
              Receives(params, CallAsWritten(vf, coerce, args, kwargs).value, i) ==
              Receives(params, CallRecord(args, kwargs), i)
  {
    AcceptedCallsAgree(params, vf, coerce, args, kwargs);
    WrapperPreservesDirectCall(params, vf, coerce, args, kwargs);
    var rec := Call(vf, coerce, args, kwargs).value;
    ByName(params, vf, coerce, args, kwargs, rec);
  }
}
