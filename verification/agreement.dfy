/**
  For a function without `*` or `**` parameters: the call the wrapper makes
  is one Python accepts, and each parameter receives the validated value
  the caller supplied for it, or nothing when the caller left it out.
 */
module Agreement {
  import opened Wrappers
  import opened OrderedDict
  import opened Signature
  import opened Analysis
  import opened Validator
  import opened Binding
  import opened Execution
  import opened Calling
  import opened Decorator

  /** A signature of a function without `*` or `**` parameters that the decorator accepts. */
  predicate Wrappable(params: seq<Param>) {
    UniqueNames(params) && Fixed(params) && KindsOrdered(params) && Analyze(params).Success?
  }

  /** What `__init__` makes of a signature without `*` or `**` parameters, parameter by parameter. */
  ghost predicate AnalysisFacts(params: seq<Param>, vf: ValidatedFunction) {
    && UniqueNames(params) && Fixed(params) && KindsOrdered(params)
    && |vf.fields| == |params|
    && (forall i :: 0 <= i < |params| ==> vf.fields[i] == (params[i].name, FieldOf(params[i])))
    && (forall i :: 0 <= i < |params| ==>
          (params[i].name in vf.positionalOnlyArgs <==> params[i].kind == PositionalOnly))
    && (forall i: nat :: i in vf.argMapping <==> i < |params| && params[i].kind.Positional())
    && (forall i: nat :: i in vf.argMapping ==> vf.argMapping[i] == params[i].name)
    && (forall n :: n in vf.FieldNames() <==> exists i :: 0 <= i < |params| && params[i].name == n)
    && vf.argsFieldName !in vf.FieldNames() && vf.kwargsFieldName !in vf.FieldNames()
  }

  lemma AnalyzeFixed(params: seq<Param>)
    requires Wrappable(params)
    ensures AnalysisFacts(params, Analyze(params).value)
  {
    var vf := Analyze(params).value;
    ScanFields(params);
    assert vf.fields == ScanParams(params).fields;
    assert !HasKind(params, VarPositional) && !HasKind(params, VarKeyword);
    DeclaresOwnKind(params, PositionalOnly);
    NamesIndex(params);
  }

  /** Without `*` or `**` parameters there is no declared carrier, so both namings of the carriers agree. */
  lemma AnalyzeFixedAsWritten(params: seq<Param>)
    requires Fixed(params)
    ensures AnalyzeAsWritten(params) == Analyze(params)
  {
    assert !HasKind(params, VarPositional) && !HasKind(params, VarKeyword);
  }

  /** What `build_values` guarantees about a call it does not reject. */
  ghost predicate BindingFacts(vf: ValidatedFunction, args: seq<Value>, kwargs: Dict<Value>, b: Bound) {
    && (b.hasVarArgs <==> FirstUnmapped(vf.argMapping, |args|) < |args|)
    && (forall n :: n in b.values <==>
          || (exists j :: 0 <= j < FirstUnmapped(vf.argMapping, |args|) && vf.argMapping[j] == n)
          || (b.hasVarArgs && n == vf.argsFieldName)
          || (n in vf.FieldNames() && n in Keys(kwargs))
          || (b.hasVarKwargs && n == vf.kwargsFieldName))
    && (forall j :: 0 <= j < |kwargs| && kwargs[j].0 in vf.FieldNames() ==> kwargs[j].0 !in vf.positionalOnlyArgs)
  }

  lemma BindingFactsHold(vf: ValidatedFunction, args: seq<Value>, kwargs: Dict<Value>)
    requires BuildValues(vf, args, kwargs).Success?
    ensures BindingFacts(vf, args, kwargs, BuildValues(vf, args, kwargs).value)
  {
    BuildValuesKeys(vf, args, kwargs);
  }

  /** What a successful `model(**values)` guarantees about which fields are supplied. */
  ghost predicate ValidationFacts(fields: Dict<FieldSpec>, values: map<string, Value>, inst: Instance) {
    && inst.fieldsSet == values.Keys
    && (forall k :: k in values ==> k in Keys(fields))
    && |inst.data| == |fields|
    && (forall i :: 0 <= i < |fields| ==> inst.data[i].0 == fields[i].0)
    && (forall i :: 0 <= i < |fields| && fields[i].1.default.None? ==> fields[i].0 in values)
  }

  lemma ValidationFactsHold(fields: Dict<FieldSpec>, values: map<string, Value>, coerce: Coerce)
    requires Validate(fields, values, coerce).Success?
    ensures ValidationFacts(fields, values, Validate(fields, values, coerce).value)
  {
  }

  /** How many leading parameters are positional-only, counting at most `n`. */
  function LeadingPositionalOnly(params: seq<Param>, n: nat): (q: nat)
    ensures q <= n && q <= |params|
    ensures forall i :: 0 <= i < q ==> params[i].kind == PositionalOnly
    ensures q < n && q < |params| ==> params[q].kind != PositionalOnly
  {
    if n == 0 || |params| == 0 || params[0].kind != PositionalOnly then 0
    else 1 + LeadingPositionalOnly(params[1..], n - 1)
  }

  /** In a well-ordered signature the positional-only parameters below `n` are exactly the leading ones. */
  lemma PositionalOnlyPrefix(params: seq<Param>, n: nat)
    requires KindsOrdered(params)
    ensures forall i :: 0 <= i < |params| ==>
      (params[i].kind == PositionalOnly && i < n <==> i < LeadingPositionalOnly(params, n))
  {
    var q := LeadingPositionalOnly(params, n);
    forall i | q <= i < |params| && i < n
      ensures params[i].kind != PositionalOnly
    {
      assert Rank(params[q].kind) <= Rank(params[i].kind);
    }
  }

  /** The facts about the signature that the agreement proofs rest on. */
  ghost predicate SignatureFacts(params: seq<Param>, vf: ValidatedFunction) {
    && UniqueNames(params) && Fixed(params) && KindsOrdered(params)
    && |vf.fields| == |params|
    && (forall i :: 0 <= i < |params| ==>
          (params[i].name in vf.positionalOnlyArgs <==> params[i].kind == PositionalOnly))
    && (forall n :: n in vf.FieldNames() <==> exists i :: 0 <= i < |params| && params[i].name == n)
  }

  /** The facts about the arguments of one call that bound without overflow. */
  ghost predicate ArgumentFacts(params: seq<Param>, vf: ValidatedFunction, args: seq<Value>, kwargs: Dict<Value>, b: Bound) {
    && |args| <= |params|
    && (forall j :: 0 <= j < |args| ==> params[j].kind.Positional())
    && (forall n :: n in b.values <==>
          (exists j :: 0 <= j < |args| && params[j].name == n) || (n in vf.FieldNames() && n in Keys(kwargs)))
    && (forall j :: 0 <= j < |kwargs| && kwargs[j].0 in vf.FieldNames() ==> kwargs[j].0 !in vf.positionalOnlyArgs)
  }

  /** The facts about the validated instance of one call. */
  ghost predicate InstanceFacts(params: seq<Param>, b: Bound, inst: Instance) {
    && inst.fieldsSet == b.values.Keys
    && |inst.data| == |params|
    && (forall i :: 0 <= i < |params| ==> inst.data[i].0 == params[i].name)
    && (forall i :: 0 <= i < |params| && params[i].default.None? ==> params[i].name in b.values)
  }

  /** The facts about one validated call of such a signature that the agreement proofs rest on. */
  ghost predicate CallFacts(params: seq<Param>, vf: ValidatedFunction, coerce: Coerce, args: seq<Value>, kwargs: Dict<Value>,
                      b: Bound, inst: Instance)
  {
    SignatureFacts(params, vf) && ArgumentFacts(params, vf, args, kwargs, b) && InstanceFacts(params, b, inst)
  }

  /** Positional argument `j` reaches parameter `j`, for each of the first `count` arguments. */
  ghost predicate ReachesOwn(params: seq<Param>, m: map<nat, string>, count: nat) {
    count <= |params| && forall j :: 0 <= j < count ==> j in m && m[j] == params[j].name
  }

  /** Neither carrier is bound, and every positional argument reaches the parameter in its own position. */
  ghost predicate NoOverflow(params: seq<Param>, vf: ValidatedFunction, args: seq<Value>, b: Bound) {
    && !b.hasVarArgs && !b.hasVarKwargs
    && FirstUnmapped(vf.argMapping, |args|) == |args|
    && ReachesOwn(params, vf.argMapping, |args|)
  }

  /**
    With `Extra.forbid` a validated call has no overflow, since neither
    carrier is a field: every positional argument reached a mapped name.
   */
  lemma NoOverflowFacts(params: seq<Param>, vf: ValidatedFunction, args: seq<Value>, kwargs: Dict<Value>, b: Bound)
    requires AnalysisFacts(params, vf)
    requires BindingFacts(vf, args, kwargs, b)
    requires forall k :: k in b.values ==> k in Keys(vf.fields)
    ensures NoOverflow(params, vf, args, b)
  {
    assert vf.argsFieldName !in b.values;
    assert vf.kwargsFieldName !in b.values;
    if |args| > 0 {
      assert |args| - 1 in vf.argMapping;
    }
  }

  /**
    When positional argument `j` always reaches parameter `j`, the names
    the positional arguments reach are the first `|args|` parameter names.
   */
  lemma BoundNames(params: seq<Param>, m: map<nat, string>, count: nat, values: set<string>, keyworded: set<string>)
    requires count <= |params|
    requires forall j :: 0 <= j < count ==> j in m && m[j] == params[j].name
    requires forall n :: n in values <==> (exists j :: 0 <= j < count && m[j] == n) || n in keyworded
    ensures forall n :: n in values <==> (exists j :: 0 <= j < count && params[j].name == n) || n in keyworded
  {
    forall n
      ensures n in values <==> (exists j :: 0 <= j < count && params[j].name == n) || n in keyworded
    {
      if exists j :: 0 <= j < count && params[j].name == n {
        var j :| 0 <= j < count && params[j].name == n;
        assert m[j] == n;
      }
    }
  }

  lemma SignatureFactsHold(params: seq<Param>, vf: ValidatedFunction)
    requires AnalysisFacts(params, vf)
    ensures SignatureFacts(params, vf)
  {
  }

  /** Without overflow, the bound names are those the positional arguments reached and the field keywords. */
  lemma ArgumentNames(params: seq<Param>, vf: ValidatedFunction, args: seq<Value>, kwargs: Dict<Value>, b: Bound)
    requires BindingFacts(vf, args, kwargs, b)
    requires NoOverflow(params, vf, args, b)
    ensures forall n :: n in b.values <==>
              (exists j :: 0 <= j < |args| && params[j].name == n) || (n in vf.FieldNames() && n in Keys(kwargs))
  {
    var keyworded := set n | n in vf.FieldNames() && n in Keys(kwargs);
    BoundNames(params, vf.argMapping, |args|, b.values.Keys, keyworded);
  }

  lemma ArgumentFactsHold(params: seq<Param>, vf: ValidatedFunction, args: seq<Value>, kwargs: Dict<Value>, b: Bound)
    requires AnalysisFacts(params, vf)
    requires BindingFacts(vf, args, kwargs, b)
    requires forall k :: k in b.values ==> k in Keys(vf.fields)
    ensures NoOverflow(params, vf, args, b)
    ensures ArgumentFacts(params, vf, args, kwargs, b)
  {
    NoOverflowFacts(params, vf, args, kwargs, b);
    ArgumentNames(params, vf, args, kwargs, b);
  }

  lemma InstanceFactsHold(params: seq<Param>, vf: ValidatedFunction, b: Bound, inst: Instance)
    requires AnalysisFacts(params, vf)
    requires ValidationFacts(vf.fields, b.values, inst)
    ensures InstanceFacts(params, b, inst)
  {
    assert forall i :: 0 <= i < |params| ==> FieldOf(params[i]).default == params[i].default;
  }

  /** Every successfully validated call of a wrappable signature meets `CallFacts`, without overflow. */
  lemma EstablishFacts(params: seq<Param>, vf: ValidatedFunction, coerce: Coerce, args: seq<Value>, kwargs: Dict<Value>,
                       b: Bound, inst: Instance)
    requires Wrappable(params) && Analyze(params) == Success(vf)
    requires BuildValues(vf, args, kwargs) == Success(b)
    requires Validate(vf.fields, b.values, coerce) == Success(inst)
    ensures NoOverflow(params, vf, args, b)
    ensures CallFacts(params, vf, coerce, args, kwargs, b, inst)
  {
    AnalyzeFixed(params);
    BindingFactsHold(vf, args, kwargs);
    ValidationFactsHold(vf.fields, b.values, coerce);
    SignatureFactsHold(params, vf);
    ArgumentFactsHold(params, vf, args, kwargs, b);
    InstanceFactsHold(params, vf, b, inst);
  }

  /**
    A positional-only parameter ends up supplied exactly when a positional
    argument reaches it: no keyword can supply it without failing the call.
   */
  lemma SuppliedPositionalOnly(params: seq<Param>, vf: ValidatedFunction, coerce: Coerce, args: seq<Value>,
                               kwargs: Dict<Value>, b: Bound, inst: Instance)
    requires CallFacts(params, vf, coerce, args, kwargs, b, inst)
    ensures forall i :: 0 <= i < |params| && params[i].kind == PositionalOnly ==>
              (params[i].name in inst.fieldsSet <==> i < |args|)
  {
    InKeys(kwargs);
    forall i | 0 <= i < |params| && params[i].kind == PositionalOnly
      ensures params[i].name in inst.fieldsSet <==> i < |args|
    {
      var n := params[i].name;
      assert n in vf.FieldNames();
      assert forall j :: 0 <= j < |kwargs| ==> kwargs[j].0 != n;
      if n in b.values {
        var j :| 0 <= j < |args| && params[j].name == n;
        assert j == i;
      }
    }
  }

  /**
    The call the wrapper makes for such a signature: the leading supplied
    positional-only fields positionally, every other supplied field by
    keyword, each with its validated value, in declaration order.
   */
  lemma RecordShape(params: seq<Param>, vf: ValidatedFunction, coerce: Coerce, args: seq<Value>, kwargs: Dict<Value>,
                    b: Bound, inst: Instance, rec: CallRecord)
    requires Wrappable(params) && Analyze(params) == Success(vf)
    requires Validated(vf, coerce, args, kwargs) == Success((b, inst))
    requires Call(vf, coerce, args, kwargs) == Success(rec)
    ensures LeadingPositionalOnly(params, |args|) <= |inst.data|
    ensures rec == CallRecord(Values(inst.data[..LeadingPositionalOnly(params, |args|)]),
                              Filter(inst.data, inst.fieldsSet - vf.positionalOnlyArgs, true))
  {
    ValidatedStages(vf, coerce, args, kwargs, b, inst);
    EstablishFacts(params, vf, coerce, args, kwargs, b, inst);
    ExecuteShape(params, vf, coerce, args, kwargs, b, inst);
    CallExecutes(vf, coerce, args, kwargs, b, inst);
  }

  /** `execute` on a validated call of such a signature, neither carrier being present. */
  lemma ExecuteShape(params: seq<Param>, vf: ValidatedFunction, coerce: Coerce, args: seq<Value>, kwargs: Dict<Value>,
                     b: Bound, inst: Instance)
    requires CallFacts(params, vf, coerce, args, kwargs, b, inst)
    ensures LeadingPositionalOnly(params, |args|) <= |inst.data|
    ensures Execute(vf, inst, false, false) ==
              Success(CallRecord(Values(inst.data[..LeadingPositionalOnly(params, |args|)]),
                                 Filter(inst.data, inst.fieldsSet - vf.positionalOnlyArgs, true)))
  {
    RecordFilters(params, vf, coerce, args, kwargs, b, inst);
    assert Prepared(vf, inst, false) == Success(Filter(inst.data, inst.fieldsSet, true));
  }

  /** The two filters `execute` applies, for a validated call of such a signature. */
  lemma RecordFilters(params: seq<Param>, vf: ValidatedFunction, coerce: Coerce, args: seq<Value>,
                      kwargs: Dict<Value>, b: Bound, inst: Instance)
    requires CallFacts(params, vf, coerce, args, kwargs, b, inst)
    ensures var S := inst.fieldsSet;
            var po := vf.positionalOnlyArgs;
            && Filter(Filter(inst.data, S, true), po, true) == inst.data[..LeadingPositionalOnly(params, |args|)]
            && Filter(Filter(inst.data, S, true), po, false) == Filter(inst.data, S - po, true)
  {
    var S := inst.fieldsSet;
    var po := vf.positionalOnlyArgs;
    var q := LeadingPositionalOnly(params, |args|);
    SuppliedPositionalOnly(params, vf, coerce, args, kwargs, b, inst);
    PositionalOnlyPrefix(params, |args|);
    FilterTwice(inst.data, S, po, true);
    FilterTwice(inst.data, S, po, false);
    FilterPrefix(inst.data, S * po, q);
  }

  /**
    Which supplied fields go by keyword: those at or after the leading
    positional-only run, none of which is positional-only.
   */
  lemma KeywordSupplied(params: seq<Param>, vf: ValidatedFunction, coerce: Coerce, args: seq<Value>,
                        kwargs: Dict<Value>, b: Bound, inst: Instance)
    requires CallFacts(params, vf, coerce, args, kwargs, b, inst)
    ensures var q := LeadingPositionalOnly(params, |args|);
            && (forall i :: 0 <= i < q ==> params[i].name in inst.fieldsSet)
            && (forall i :: 0 <= i < |params| ==>
                  (params[i].name in inst.fieldsSet - vf.positionalOnlyArgs <==>
                   params[i].name in inst.fieldsSet && q <= i))
            && (forall i :: q <= i < |params| && params[i].name in inst.fieldsSet ==>
                  params[i].kind == PositionalOrKeyword || params[i].kind == KeywordOnly)
  {
    SuppliedPositionalOnly(params, vf, coerce, args, kwargs, b, inst);
    PositionalOnlyPrefix(params, |args|);
  }

  /** Python accepts the call `execute` rebuilds for a validated call of such a signature. */
  lemma RebuiltAccepted(params: seq<Param>, vf: ValidatedFunction, coerce: Coerce, args: seq<Value>,
                        kwargs: Dict<Value>, b: Bound, inst: Instance)
    requires CallFacts(params, vf, coerce, args, kwargs, b, inst)
    ensures LeadingPositionalOnly(params, |args|) <= |inst.data|
    ensures Accepts(params, CallRecord(Values(inst.data[..LeadingPositionalOnly(params, |args|)]),
                                       Filter(inst.data, inst.fieldsSet - vf.positionalOnlyArgs, true)))
  {
    var q := LeadingPositionalOnly(params, |args|);
    var S := inst.fieldsSet - vf.positionalOnlyArgs;
    var kw := Filter(inst.data, S, true);
    KeywordSupplied(params, vf, coerce, args, kwargs, b, inst);
    InKeys(inst.data);
    forall j | 0 <= j < |kw|
      ensures KeywordTarget(params, q, kw[j].0)
    {
      assert Keys(kw)[j] == kw[j].0;
      assert kw[j].0 in Keys(inst.data);
      var i :| 0 <= i < |inst.data| && inst.data[i].0 == kw[j].0;
      assert params[i].name == kw[j].0;
    }
    forall i | q <= i < |params| && params[i].default.None?
      ensures params[i].name in Keys(kw)
    {
      assert inst.data[i].0 == params[i].name;
    }
  }

  /** Each parameter of the rebuilt call receives its validated value exactly when it was supplied. */
  lemma RebuiltReceives(params: seq<Param>, vf: ValidatedFunction, coerce: Coerce, args: seq<Value>,
                        kwargs: Dict<Value>, b: Bound, inst: Instance)
    requires CallFacts(params, vf, coerce, args, kwargs, b, inst)
    ensures LeadingPositionalOnly(params, |args|) <= |inst.data| == |params|
    ensures var rec := CallRecord(Values(inst.data[..LeadingPositionalOnly(params, |args|)]),
                                  Filter(inst.data, inst.fieldsSet - vf.positionalOnlyArgs, true));
            forall i :: 0 <= i < |params| ==>
              Receives(params, rec, i) == if params[i].name in inst.fieldsSet then Some(inst.data[i].1) else None
  {
    var q := LeadingPositionalOnly(params, |args|);
    var S := inst.fieldsSet - vf.positionalOnlyArgs;
    var rec := CallRecord(Values(inst.data[..q]), Filter(inst.data, S, true));
    KeywordSupplied(params, vf, coerce, args, kwargs, b, inst);
    forall i | 0 <= i < |params|
      ensures Receives(params, rec, i) == if params[i].name in inst.fieldsSet then Some(inst.data[i].1) else None
    {
      var n := params[i].name;
      if q <= i {
        GetAt(inst.data, i);
        if n in S {
          FilterGet(inst.data, S, true, n);
        } else {
          assert n !in Keys(rec.kwargs);
        }
      }
    }
  }

  /**
    For a function without `*` or `**` parameters, every call the wrapper
    lets through is one Python accepts, and each parameter receives the
    validated value of its field when the caller supplied it, and its own
    default otherwise.
   */
  lemma CallIsAccepted(params: seq<Param>, vf: ValidatedFunction, coerce: Coerce, args: seq<Value>,
                       kwargs: Dict<Value>, b: Bound, inst: Instance, rec: CallRecord)
    requires Wrappable(params) && Analyze(params) == Success(vf)
    requires Validated(vf, coerce, args, kwargs) == Success((b, inst))
    requires Call(vf, coerce, args, kwargs) == Success(rec)
    ensures Accepts(params, rec)
    ensures |inst.data| == |params|
    ensures forall i :: 0 <= i < |params| ==>
              Receives(params, rec, i) == if params[i].name in inst.fieldsSet then Some(inst.data[i].1) else None
  {
    ValidatedStages(vf, coerce, args, kwargs, b, inst);
    EstablishFacts(params, vf, coerce, args, kwargs, b, inst);
    RecordShape(params, vf, coerce, args, kwargs, b, inst, rec);
    RebuiltAccepted(params, vf, coerce, args, kwargs, b, inst);
    RebuiltReceives(params, vf, coerce, args, kwargs, b, inst);
  }

  /**
    The same holds of the code as written: for a function without `*` or
    `**` parameters, every call `CallAsWritten` makes is one Python accepts,
    and each parameter receives its validated value when supplied and its
    own default otherwise.  The missing repeat check cannot produce an
    unacceptable call, since the overwritten positional argument is simply
    not passed.
   */
  lemma WrittenCallIsAccepted(params: seq<Param>, vf: ValidatedFunction, coerce: Coerce, args: seq<Value>,
                              kwargs: Dict<Value>, rec: CallRecord)
    requires Wrappable(params) && AnalyzeAsWritten(params) == Success(vf)
    requires CallAsWritten(vf, coerce, args, kwargs) == Success(rec)
    ensures Accepts(params, rec)
    ensures var inst := ValidatedAsWritten(vf, coerce, args, kwargs).value.1;
            && |inst.data| == |params|
            && forall i :: 0 <= i < |params| ==>
                 Receives(params, rec, i) == if params[i].name in inst.fieldsSet then Some(inst.data[i].1) else None
  {
    AnalyzeFixedAsWritten(params);
    var (b, inst) := ValidatedAsWritten(vf, coerce, args, kwargs).value;
    EstablishFacts(params, vf, coerce, args, kwargs, b, inst);
    ExecuteShape(params, vf, coerce, args, kwargs, b, inst);
    RebuiltAccepted(params, vf, coerce, args, kwargs, b, inst);
    RebuiltReceives(params, vf, coerce, args, kwargs, b, inst);
  }

  /**
    Without positional-only parameters the wrapper passes every argument by
    name: the call is `raw_function(**d)`.
   */
  lemma ByName(params: seq<Param>, vf: ValidatedFunction, coerce: Coerce, args: seq<Value>,
               kwargs: Dict<Value>, rec: CallRecord)
    requires Wrappable(params) && Analyze(params) == Success(vf)
    requires forall i :: 0 <= i < |params| ==> params[i].kind != PositionalOnly
    requires Call(vf, coerce, args, kwargs) == Success(rec)
    ensures rec.args == []
  {
    var (b, inst) := Validated(vf, coerce, args, kwargs).value;
    RecordShape(params, vf, coerce, args, kwargs, b, inst, rec);
    assert LeadingPositionalOnly(params, |args|) == 0;
  }
}
