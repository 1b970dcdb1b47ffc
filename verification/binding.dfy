/**
  `ValidatedFunction.build_values`: positional arguments go to the fields
  `arg_mapping` names until the first index it lacks, from where the rest
  form one list under `args_field_name`; keyword arguments go to the field
  of that name, or else into the overflow dict stored under
  `kwargs_field_name`.
 */
module Binding {
  import opened Wrappers
  import opened OrderedDict
  import opened Signature
  import opened Analysis

  /** The `NotImplementedError` raised for a keyword that names a positional-only parameter. */
  datatype BindError = PositionalOnlyByKeyword(name: string) | MultipleValues(names: set<string>)

  /** What `build_values` returns: `values`, `has_var_args`, `has_var_kwargs`. */
  datatype Bound = Bound(values: map<string, Value>, hasVarArgs: bool, hasVarKwargs: bool)

  /** No two indices share a name. */
  predicate Injective(m: map<nat, string>) {
    forall i, j :: i in m && j in m && i != j ==> m[i] != m[j]
  }

  /** The first index below `n` that `m` lacks, or `n` when `m` covers them all. */
  function FirstUnmapped(m: map<nat, string>, n: nat): (k: nat)
    ensures k <= n
    ensures forall i :: 0 <= i < k ==> i in m
    ensures k < n ==> k !in m
  {
    if n == 0 then 0
    else
      var k := FirstUnmapped(m, n - 1);
      if k < n - 1 then k
      else if n - 1 in m then n
      else n - 1
  }

  /** The `while True` loop over `enumerate(args)`, from index `i` on. */
  function BindFrom(m: map<nat, string>, carrier: string, args: seq<Value>, i: nat, values: map<string, Value>)
    : (map<string, Value>, bool)
    requires i <= |args|
    decreases |args| - i
  {
    if i == |args| then (values, false)
    else if i in m then BindFrom(m, carrier, args, i + 1, values[m[i] := args[i]])
    else (values[carrier := ListV(args[i..])], true)
  }

  /**
    From index `i` on, the loop stores each mapped argument under its name
    and, at the first unmapped index `k`, the whole rest `args[k..]` under
    the carrier; nothing else in `values` changes.
   */
  lemma {:induction false} BindFromSpec(m: map<nat, string>, carrier: string, args: seq<Value>, i: nat,
                                        values: map<string, Value>)
    requires i <= |args|
    requires forall j :: 0 <= j < i ==> j in m
    ensures var k := FirstUnmapped(m, |args|);
            var r := BindFrom(m, carrier, args, i, values);
            && i <= k
            && (r.1 <==> k < |args|)
            && (r.1 ==> carrier in r.0 && r.0[carrier] == ListV(args[k..]))
            && (forall n :: n in r.0 <==> n in values || (exists j :: i <= j < k && m[j] == n) || (r.1 && n == carrier))
            && (Injective(m) ==> forall j :: i <= j < k && !(r.1 && m[j] == carrier) ==> r.0[m[j]] == args[j])
            && (forall n :: n in values && (forall j :: i <= j < k ==> m[j] != n) && !(r.1 && n == carrier) ==>
                  r.0[n] == values[n])
    decreases |args| - i
  {
    var k := FirstUnmapped(m, |args|);
    if i == |args| {
    } else if i in m {
      BindFromSpec(m, carrier, args, i + 1, values[m[i] := args[i]]);
    } else {
      assert k == i;
    }
  }

  /** The positional half of `build_values`. */
  function BindPositional(m: map<nat, string>, carrier: string, args: seq<Value>): (r: (map<string, Value>, bool))
    ensures var k := FirstUnmapped(m, |args|);
            && (r.1 <==> k < |args|)
            && (r.1 ==> carrier in r.0 && r.0[carrier] == ListV(args[k..]))
            && (forall n :: n in r.0 <==> (exists j :: 0 <= j < k && m[j] == n) || (r.1 && n == carrier))
            && (Injective(m) ==> forall j :: 0 <= j < k && !(r.1 && m[j] == carrier) ==> r.0[m[j]] == args[j])
  {
    BindFromSpec(m, carrier, args, 0, map[]);
    BindFrom(m, carrier, args, 0, map[])
  }

  /**
    No positional argument is lost: the mapped ones read back in index
    order, followed by the carried list, give `args` again.
   */
  lemma PositionalNoneDropped(m: map<nat, string>, carrier: string, args: seq<Value>)
    requires Injective(m)
    requires forall j :: 0 <= j < FirstUnmapped(m, |args|) ==> m[j] != carrier
    ensures var k := FirstUnmapped(m, |args|);
            var r := BindPositional(m, carrier, args);
            && (forall j :: 0 <= j < k ==> m[j] in r.0)
            && seq(k, j requires 0 <= j < k => r.0[m[j]]) + (if r.1 then r.0[carrier].items else []) == args
  {
    var k := FirstUnmapped(m, |args|);
    var r := BindPositional(m, carrier, args);
    var front := seq(k, j requires 0 <= j < k => r.0[m[j]]);
    assert front == args[..k];
  }

  /** The loop over `kwargs.items()` from entry `i` on, with the values and `var_kwargs` built so far. */
  function BindKeywordsFrom(fieldNames: set<string>, positionalOnly: set<string>, kwargs: Dict<Value>, i: nat,
                            values: map<string, Value>, varKwargs: Dict<Value>)
    : Result<(map<string, Value>, Dict<Value>), BindError>
    requires i <= |kwargs|
    decreases |kwargs| - i
  {
    if i == |kwargs| then Success((values, varKwargs))
    else
      var (k, v) := kwargs[i];
      if k in fieldNames then
        if k in positionalOnly then Failure(PositionalOnlyByKeyword(k))
        else BindKeywordsFrom(fieldNames, positionalOnly, kwargs, i + 1, values[k := v], varKwargs)
      else BindKeywordsFrom(fieldNames, positionalOnly, kwargs, i + 1, values, Put(varKwargs, k, v))
  }

  /** From entry `i` on, the loop fails exactly when some later keyword names a positional-only field. */
  lemma {:induction false} BindKeywordsFromFails(fieldNames: set<string>, positionalOnly: set<string>,
                                                 kwargs: Dict<Value>, i: nat,
                                                 values: map<string, Value>, varKwargs: Dict<Value>)
    requires i <= |kwargs|
    ensures var r := BindKeywordsFrom(fieldNames, positionalOnly, kwargs, i, values, varKwargs);
            && (r.Failure? <==>
                  exists j :: i <= j < |kwargs| && kwargs[j].0 in fieldNames && kwargs[j].0 in positionalOnly)
            && (r.Failure? ==> r.error.PositionalOnlyByKeyword? && r.error.name in fieldNames && r.error.name in positionalOnly)
    decreases |kwargs| - i
  {
    if i < |kwargs| {
      var (k, v) := kwargs[i];
      if k in fieldNames {
        if k !in positionalOnly {
          BindKeywordsFromFails(fieldNames, positionalOnly, kwargs, i + 1, values[k := v], varKwargs);
        }
      } else {
        BindKeywordsFromFails(fieldNames, positionalOnly, kwargs, i + 1, values, Put(varKwargs, k, v));
      }
    }
  }

  /**
    From entry `i` on, when the loop succeeds, each later keyword naming a
    field is stored under that name, and nothing else is added or changed.
   */
  lemma {:induction false} BindKeywordsFromValues(fieldNames: set<string>, positionalOnly: set<string>,
                                                  kwargs: Dict<Value>, i: nat,
                                                  values: map<string, Value>, varKwargs: Dict<Value>)
    requires i <= |kwargs|
    ensures var r := BindKeywordsFrom(fieldNames, positionalOnly, kwargs, i, values, varKwargs);
            && (r.Success? ==> forall n :: n in r.value.0 <==>
                  n in values || exists j :: i <= j < |kwargs| && kwargs[j].0 == n && n in fieldNames)
            && (r.Success? ==> forall j :: i <= j < |kwargs| && kwargs[j].0 in fieldNames ==>
                  r.value.0[kwargs[j].0] == kwargs[j].1)
            && (r.Success? ==> forall n :: n in values && (forall j :: i <= j < |kwargs| ==> kwargs[j].0 != n) ==>
                  r.value.0[n] == values[n])
    decreases |kwargs| - i
  {
    if i < |kwargs| {
      var (k, v) := kwargs[i];
      if k in fieldNames {
        if k !in positionalOnly {
          BindKeywordsFromValues(fieldNames, positionalOnly, kwargs, i + 1, values[k := v], varKwargs);
        }
      } else {
        BindKeywordsFromValues(fieldNames, positionalOnly, kwargs, i + 1, values, Put(varKwargs, k, v));
      }
    }
  }

  /** From entry `i` on, when the loop succeeds, the keywords naming no field are appended to `var_kwargs` in order. */
  lemma {:induction false} BindKeywordsFromRest(fieldNames: set<string>, positionalOnly: set<string>,
                                                kwargs: Dict<Value>, i: nat,
                                                values: map<string, Value>, varKwargs: Dict<Value>)
    requires i <= |kwargs|
    requires forall k :: k in Keys(varKwargs) ==> k in Keys(kwargs[..i])
    ensures var r := BindKeywordsFrom(fieldNames, positionalOnly, kwargs, i, values, varKwargs);
            r.Success? ==> r.value.1 == varKwargs + Filter(kwargs[i..], fieldNames, false)
    decreases |kwargs| - i
  {
    if i < |kwargs| {
      var (k, v) := kwargs[i];
      assert kwargs[i..][1..] == kwargs[i + 1..];
      KeysTail(kwargs[i..]);
      KeysPrefix(kwargs, i);
      if k in fieldNames {
        if k !in positionalOnly {
          BindKeywordsFromRest(fieldNames, positionalOnly, kwargs, i + 1, values[k := v], varKwargs);
        }
      } else {
        KeyNotBefore(kwargs, i);
        BindKeywordsFromRest(fieldNames, positionalOnly, kwargs, i + 1, values, Put(varKwargs, k, v));
      }
    } else {
      assert kwargs[i..] == [];
    }
  }

  /** The keyword half of `build_values`, continuing from the positional values. */
  function BindKeywords(fieldNames: set<string>, positionalOnly: set<string>, kwargs: Dict<Value>,
                        values: map<string, Value>)
    : (r: Result<(map<string, Value>, Dict<Value>), BindError>)
    ensures r.Failure? <==> exists j :: 0 <= j < |kwargs| && kwargs[j].0 in fieldNames && kwargs[j].0 in positionalOnly
    ensures r.Failure? ==> r.error.PositionalOnlyByKeyword? && r.error.name in fieldNames && r.error.name in positionalOnly
    ensures r.Success? ==> forall n :: n in r.value.0 <==> n in values || (n in fieldNames && n in Keys(kwargs))
    ensures r.Success? ==> forall j :: 0 <= j < |kwargs| && kwargs[j].0 in fieldNames ==>
      kwargs[j].0 in r.value.0 && r.value.0[kwargs[j].0] == kwargs[j].1
    ensures r.Success? ==> forall n :: n in values && n !in Keys(kwargs) ==> r.value.0[n] == values[n]
    ensures r.Success? ==> r.value.1 == Filter(kwargs, fieldNames, false)
  {
    BindKeywordsFromFails(fieldNames, positionalOnly, kwargs, 0, values, []);
    BindKeywordsFromValues(fieldNames, positionalOnly, kwargs, 0, values, []);
    BindKeywordsFromRest(fieldNames, positionalOnly, kwargs, 0, values, []);
    assert kwargs[0..] == kwargs;
    InKeys(kwargs);
    BindKeywordsFrom(fieldNames, positionalOnly, kwargs, 0, values, [])
  }

  /**
    `build_values(args, kwargs)`.  A keyword naming a positional-only field
    raises; otherwise positional arguments up to the first unmapped index
    land under their names and the rest under `args_field_name`; keywords
    naming fields land under their names; the remaining keywords, in order,
    form the dict under `kwargs_field_name`.
   */
  function BuildValues(vf: ValidatedFunction, args: seq<Value>, kwargs: Dict<Value>): (r: Result<Bound, BindError>)
    ensures r.Failure? <==> exists j :: 0 <= j < |kwargs| && kwargs[j].0 in vf.FieldNames() && kwargs[j].0 in vf.positionalOnlyArgs
    ensures r.Success? ==> (r.value.hasVarArgs <==> FirstUnmapped(vf.argMapping, |args|) < |args|)
    ensures r.Success? ==> (r.value.hasVarKwargs <==> exists j :: 0 <= j < |kwargs| && kwargs[j].0 !in vf.FieldNames())
    ensures r.Success? && r.value.hasVarKwargs ==>
      vf.kwargsFieldName in r.value.values &&
      r.value.values[vf.kwargsFieldName] == DictV(Filter(kwargs, vf.FieldNames(), false))
  {
    var (positional, hasVarArgs) := BindPositional(vf.argMapping, vf.argsFieldName, args);
    var (values, varKwargs) :- BindKeywords(vf.FieldNames(), vf.positionalOnlyArgs, kwargs, positional);
    InKeys(kwargs);
    InKeys(varKwargs);
    if |varKwargs| > 0 then
      assert varKwargs[0].0 in Keys(varKwargs);
      Success(Bound(values[vf.kwargsFieldName := DictV(varKwargs)], hasVarArgs, true))
    else
      Success(Bound(values, hasVarArgs, false))
  }

  /**
    The names `build_values` fills: the mapped positional names, the
    `args` carrier when positional arguments overflow, every keyword that
    names a field, and the `kwargs` carrier when keywords overflow.
   */
  lemma BuildValuesKeys(vf: ValidatedFunction, args: seq<Value>, kwargs: Dict<Value>)
    ensures var r := BuildValues(vf, args, kwargs);
            r.Success? ==> forall n :: n in r.value.values <==>
              || (exists j :: 0 <= j < FirstUnmapped(vf.argMapping, |args|) && vf.argMapping[j] == n)
              || (r.value.hasVarArgs && n == vf.argsFieldName)
              || (n in vf.FieldNames() && n in Keys(kwargs))
              || (r.value.hasVarKwargs && n == vf.kwargsFieldName)
  {
  }

  /** A keyword naming a field is stored under that name, unless the `kwargs` carrier overwrites it. */
  lemma BuildValuesKeywords(vf: ValidatedFunction, args: seq<Value>, kwargs: Dict<Value>)
    ensures var r := BuildValues(vf, args, kwargs);
            r.Success? ==> forall j ::
              (0 <= j < |kwargs| && kwargs[j].0 in vf.FieldNames() && !(r.value.hasVarKwargs && kwargs[j].0 == vf.kwargsFieldName))
              ==> kwargs[j].0 in r.value.values && r.value.values[kwargs[j].0] == kwargs[j].1
  {
    var (positional, hasVarArgs) := BindPositional(vf.argMapping, vf.argsFieldName, args);
    var b := BindKeywords(vf.FieldNames(), vf.positionalOnlyArgs, kwargs, positional);
    if b.Success? {
      var r := BuildValues(vf, args, kwargs);
      var (values, varKwargs) := b.value;
      assert r.value.values == if |varKwargs| > 0 then values[vf.kwargsFieldName := DictV(varKwargs)] else values;
    }
  }

  /**
    The overflowing positional arguments are stored as one list under
    `args_field_name`, unless a keyword or the `kwargs` carrier of the same
    name overwrites it.
   */
  lemma BuildValuesCarriedArgs(vf: ValidatedFunction, args: seq<Value>, kwargs: Dict<Value>)
    ensures var r := BuildValues(vf, args, kwargs);
            r.Success? && r.value.hasVarArgs && vf.argsFieldName !in Keys(kwargs) && vf.argsFieldName != vf.kwargsFieldName ==>
              vf.argsFieldName in r.value.values &&
              r.value.values[vf.argsFieldName] == ListV(args[FirstUnmapped(vf.argMapping, |args|)..])
  {
  }

  /**
    With distinct positional names, each mapped positional argument is
    stored under its name unless a keyword or a carrier of that name
    overwrites it.
   */
  lemma BuildValuesPositional(vf: ValidatedFunction, args: seq<Value>, kwargs: Dict<Value>)
    requires Injective(vf.argMapping)
    ensures var r := BuildValues(vf, args, kwargs);
            r.Success? ==> forall j ::
              (&& 0 <= j < FirstUnmapped(vf.argMapping, |args|)
               && vf.argMapping[j] !in Keys(kwargs)
               && !(r.value.hasVarArgs && vf.argMapping[j] == vf.argsFieldName)
               && !(r.value.hasVarKwargs && vf.argMapping[j] == vf.kwargsFieldName))
              ==> vf.argMapping[j] in r.value.values && r.value.values[vf.argMapping[j]] == args[j]
  {
  }

  /**
    When every positional argument reaches a named parameter and every
    keyword names a field that is not positional-only, binding succeeds
    without overflow.
   */
  lemma BuildValuesNoOverflow(vf: ValidatedFunction, args: seq<Value>, kwargs: Dict<Value>)
    requires forall j :: 0 <= j < |args| ==> j in vf.argMapping
    requires forall j :: 0 <= j < |kwargs| ==> kwargs[j].0 in vf.FieldNames() && kwargs[j].0 !in vf.positionalOnlyArgs
    ensures BuildValues(vf, args, kwargs).Success?
    ensures !BuildValues(vf, args, kwargs).value.hasVarArgs && !BuildValues(vf, args, kwargs).value.hasVarKwargs
    ensures FirstUnmapped(vf.argMapping, |args|) == |args|
  {
  }

  /**
    Moreover, when no keyword repeats a name a positional argument reached,
    the bound values are exactly the positional arguments under their
    parameter names and the keywords under theirs.
   */
  lemma BuildValuesExact(vf: ValidatedFunction, args: seq<Value>, kwargs: Dict<Value>)
    requires Injective(vf.argMapping)
    requires forall j :: 0 <= j < |args| ==> j in vf.argMapping
    requires forall j :: 0 <= j < |kwargs| ==> kwargs[j].0 in vf.FieldNames() && kwargs[j].0 !in vf.positionalOnlyArgs
    requires forall i, j :: 0 <= i < |args| && 0 <= j < |kwargs| ==> kwargs[j].0 != vf.argMapping[i]
    ensures BuildValues(vf, args, kwargs).Success?
    ensures var b := BuildValues(vf, args, kwargs).value;
            && !b.hasVarArgs && !b.hasVarKwargs
            && (forall n :: n in b.values <==> (exists i :: 0 <= i < |args| && vf.argMapping[i] == n) || n in Keys(kwargs))
            && (forall i :: 0 <= i < |args| ==> vf.argMapping[i] in b.values && b.values[vf.argMapping[i]] == args[i])
            && (forall j :: 0 <= j < |kwargs| ==> kwargs[j].0 in b.values && b.values[kwargs[j].0] == kwargs[j].1)
  {
    BuildValuesNoOverflow(vf, args, kwargs);
    BuildValuesKeys(vf, args, kwargs);
    BuildValuesKeywords(vf, args, kwargs);
    BuildValuesPositional(vf, args, kwargs);
    InKeys(kwargs);
  }

  /** The keywords naming a field that the positional arguments have already bound. */
  function Repeated(vf: ValidatedFunction, args: seq<Value>, kwargs: Dict<Value>): set<string> {
    var positional := BindPositional(vf.argMapping, vf.argsFieldName, args).0;
    set j | 0 <= j < |kwargs| && kwargs[j].0 in vf.FieldNames() && kwargs[j].0 in positional :: kwargs[j].0
  }

  /**
    A keyword is repeated exactly when it names a field that a positional
    argument reached, or the carrier that took the overflow.
   */
  lemma RepeatedNames(vf: ValidatedFunction, args: seq<Value>, kwargs: Dict<Value>)
    ensures var k := FirstUnmapped(vf.argMapping, |args|);
            forall n :: n in Repeated(vf, args, kwargs) <==>
              && n in Keys(kwargs) && n in vf.FieldNames()
              && ((exists j :: 0 <= j < k && vf.argMapping[j] == n) || (k < |args| && n == vf.argsFieldName))
  {
    InKeys(kwargs);
  }

  /**
    `build_values` with the check Python's own binding makes: a keyword
    may not supply a parameter a positional argument already supplied.
    A keyword naming a positional-only field is still reported first.
   */
  function BuildValuesChecked(vf: ValidatedFunction, args: seq<Value>, kwargs: Dict<Value>): (r: Result<Bound, BindError>)
    ensures r.Success? <==> BuildValues(vf, args, kwargs).Success? && Repeated(vf, args, kwargs) == {}
    ensures r.Success? ==> r == BuildValues(vf, args, kwargs)
    ensures r.Failure? ==> (r.error.MultipleValues? <==> BuildValues(vf, args, kwargs).Success?)
    ensures r.Failure? && r.error.MultipleValues? ==> r.error.names == Repeated(vf, args, kwargs) != {}
  {
    var b :- BuildValues(vf, args, kwargs);
    var repeated := Repeated(vf, args, kwargs);
    if repeated == {} then Success(b) else Failure(MultipleValues(repeated))
  }
}
