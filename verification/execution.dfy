/**
  `ValidatedFunction.execute`: the explicitly supplied fields of a validated
  instance, in declaration order, turned back into a positional list and a
  keyword dict for the wrapped function.  The call itself is not made; the
  result is the call that would be made.
 */
module Execution {
  import opened Wrappers
  import opened OrderedDict
  import opened Signature
  import opened Analysis
  import opened Validator

  /**
    What Python raises when a carrier holds the wrong thing: `KeyError` from
    `d.pop`, or a `TypeError` when the carried keywords are not a dict or the
    carried positional arguments are not a list.
   */
  datatype ExecError = MissingCarrier(name: string) | NotAMapping(name: string) | NotASequence(name: string)

  /** `raw_function(*args, **kwargs)`, as the arguments it receives. */
  datatype CallRecord = CallRecord(args: seq<Value>, kwargs: Dict<Value>)

  /** `{k: v for k, v in m._iter() if k in m.__fields_set__}`. */
  function Explicit(inst: Instance): (d: Dict<Value>)
    ensures forall k :: k in Keys(d) <==> k in Keys(inst.data) && k in inst.fieldsSet
    ensures forall k :: k in inst.fieldsSet ==> Get(d, k) == Get(inst.data, k)
  {
    forall k | k in inst.fieldsSet
      ensures Get(Filter(inst.data, inst.fieldsSet, true), k) == Get(inst.data, k)
    {
      FilterGet(inst.data, inst.fieldsSet, true, k);
    }
    Filter(inst.data, inst.fieldsSet, true)
  }

  /**
    `d.update(d.pop(kwargs_field_name))`: the carried dict replaces its
    carrier entry; when its keys are new they follow every other field.
   */
  function Spread(d: Dict<Value>, carrier: string): (r: Result<Dict<Value>, ExecError>)
    ensures r.Success? <==> Get(d, carrier).Some? && Get(d, carrier).value.DictV?
    ensures carrier !in Keys(d) ==> r == Failure(MissingCarrier(carrier))
    ensures r.Success? ==>
      var e := Get(d, carrier).value.entries;
      && (forall k :: Get(r.value, k) == if k in Keys(e) then Get(e, k) else if k == carrier then None else Get(d, k))
      && ((forall k :: k in Keys(e) ==> k !in Keys(d)) ==> r.value == Remove(d, carrier) + e)
  {
    match Get(d, carrier)
    case None => Failure(MissingCarrier(carrier))
    case Some(v) =>
      if !v.DictV? then Failure(NotAMapping(carrier))
      else
        var rest := Remove(d, carrier);
        forall k ensures Get(Update(rest, v.entries), k) == if k in Keys(v.entries) then Get(v.entries, k) else Get(rest, k) {
          UpdateGet(rest, v.entries, k);
        }
        assert (forall k :: k in Keys(v.entries) ==> k !in Keys(d)) ==> Update(rest, v.entries) == rest + v.entries by {
          if forall k :: k in Keys(v.entries) ==> k !in Keys(d) {
            UpdateFresh(rest, v.entries);
          }
        }
        Success(Update(rest, v.entries))
  }

  /** The loop state of the `has_var_args` reconstruction: `args_`, `in_kwargs`, `kwargs`. */
  datatype Splicing = Splicing(args: seq<Value>, inKwargs: bool, kwargs: Dict<Value>)

  /** The `has_var_args` loop over `d.items()` from entry `i` on. */
  function SpliceFrom(d: Dict<Value>, carrier: string, i: nat, st: Splicing): Result<Splicing, ExecError>
    requires i <= |d|
    decreases |d| - i
  {
    if i == |d| then Success(st)
    else
      var (name, value) := d[i];
      if st.inKwargs then SpliceFrom(d, carrier, i + 1, st.(kwargs := Put(st.kwargs, name, value)))
      else if name == carrier then
        if value.ListV? then SpliceFrom(d, carrier, i + 1, st.(args := st.args + value.items, inKwargs := true))
        else Failure(NotASequence(name))
      else SpliceFrom(d, carrier, i + 1, st.(args := st.args + [value]))
  }

  /** Once past the carrier, every remaining entry becomes a keyword argument, in order. */
  lemma {:induction false} SpliceAfterCarrier(d: Dict<Value>, carrier: string, i: nat, st: Splicing)
    requires i <= |d|
    requires st.inKwargs
    requires forall k :: k in Keys(st.kwargs) ==> k in Keys(d[..i])
    ensures var r := SpliceFrom(d, carrier, i, st);
            r.Success? && r.value.args == st.args && r.value.kwargs == st.kwargs + d[i..]
    decreases |d| - i
  {
    if i < |d| {
      var (k, v) := d[i];
      KeyNotBefore(d, i);
      KeysPrefix(d, i);
      SpliceAfterCarrier(d, carrier, i + 1, st.(kwargs := Put(st.kwargs, k, v)));
      AppendSlice(st.kwargs, d, i);
    }
  }

  /**
    Before the carrier, each value is appended to the positional list; at
    the carrier its list is spliced in, or the loop fails on a non-list.
   */
  lemma {:induction false} SpliceBeforeCarrier(d: Dict<Value>, carrier: string, i: nat, st: Splicing)
    requires i <= |d|
    requires !st.inKwargs && st.kwargs == []
    requires st.args == Values(d[..i])
    requires forall j :: 0 <= j < i ==> d[j].0 != carrier
    ensures var r := SpliceFrom(d, carrier, i, st);
            var c := IndexOf(d, carrier);
            && (c == |d| ==> r.Success? && r.value.args == Values(d) && r.value.kwargs == [])
            && (c < |d| && d[c].1.ListV? ==>
                  r.Success? && r.value.args == Values(d[..c]) + d[c].1.items && r.value.kwargs == d[c + 1..])
            && (c < |d| && !d[c].1.ListV? ==> r == Failure(NotASequence(carrier)))
    decreases |d| - i
  {
    if i == |d| {
      assert d[..i] == d;
    } else {
      var (k, v) := d[i];
      if k == carrier {
        if v.ListV? {
          SpliceAfterCarrier(d, carrier, i + 1, st.(args := st.args + v.items, inKwargs := true));
        }
      } else {
        ValuesPrefix(d, i);
        SpliceBeforeCarrier(d, carrier, i + 1, st.(args := st.args + [v]));
      }
    }
  }

  /**
    The `has_var_args` branch: fields before the args carrier go
    positionally, the carried list is spliced in their place, and every
    later field goes by keyword.  Without a carrier entry all go positionally.
   */
  function Splice(d: Dict<Value>, carrier: string): (r: Result<CallRecord, ExecError>)
    ensures var c := IndexOf(d, carrier);
            && (c == |d| ==> r == Success(CallRecord(Values(d), [])))
            && (c < |d| && d[c].1.ListV? ==> r == Success(CallRecord(Values(d[..c]) + d[c].1.items, d[c + 1..])))
            && (c < |d| && !d[c].1.ListV? ==> r == Failure(NotASequence(carrier)))
  {
    SpliceBeforeCarrier(d, carrier, 0, Splicing([], false, []));
    assert Values(d[..0]) == [];
    var st :- SpliceFrom(d, carrier, 0, Splicing([], false, []));
    Success(CallRecord(st.args, st.kwargs))
  }

  /** The positional-only loop over `d.items()` from entry `i` on. */
  function PartitionFrom(d: Dict<Value>, positionalOnly: set<string>, i: nat, args: seq<Value>, kwargs: Dict<Value>)
    : (seq<Value>, Dict<Value>)
    requires i <= |d|
    decreases |d| - i
  {
    if i == |d| then (args, kwargs)
    else if d[i].0 in positionalOnly then PartitionFrom(d, positionalOnly, i + 1, args + [d[i].1], kwargs)
    else PartitionFrom(d, positionalOnly, i + 1, args, Put(kwargs, d[i].0, d[i].1))
  }

  /** Filtering a suffix that starts at entry `i`: that entry, if it passes, then the rest. */
  lemma FilterStep(d: Dict<Value>, s: set<string>, inside: bool, i: nat)
    requires i < |d|
    ensures Filter(d[i..], s, inside) ==
            (if (d[i].0 in s) == inside then [d[i]] else []) + Filter(d[i + 1..], s, inside)
  {
    assert d[i..][1..] == d[i + 1..];
  }

  /** From entry `i` on, the positional-only values are appended to `args` in order. */
  lemma {:induction false} PartitionFromArgs(d: Dict<Value>, positionalOnly: set<string>, i: nat,
                                             args: seq<Value>, kwargs: Dict<Value>)
    requires i <= |d|
    ensures PartitionFrom(d, positionalOnly, i, args, kwargs).0 == args + Values(Filter(d[i..], positionalOnly, true))
    decreases |d| - i
  {
    if i < |d| {
      FilterStep(d, positionalOnly, true, i);
      if d[i].0 in positionalOnly {
        PartitionFromArgs(d, positionalOnly, i + 1, args + [d[i].1], kwargs);
        ValuesCons(d[i], Filter(d[i + 1..], positionalOnly, true));
      } else {
        PartitionFromArgs(d, positionalOnly, i + 1, args, Put(kwargs, d[i].0, d[i].1));
      }
    } else {
      assert d[i..] == [];
    }
  }

  /** From entry `i` on, the other entries are appended to `kwargs` in order. */
  lemma {:induction false} PartitionFromKwargs(d: Dict<Value>, positionalOnly: set<string>, i: nat,
                                               args: seq<Value>, kwargs: Dict<Value>)
    requires i <= |d|
    requires forall k :: k in Keys(kwargs) ==> k in Keys(d[..i])
    ensures PartitionFrom(d, positionalOnly, i, args, kwargs).1 == kwargs + Filter(d[i..], positionalOnly, false)
    decreases |d| - i
  {
    if i < |d| {
      FilterStep(d, positionalOnly, false, i);
      KeysPrefix(d, i);
      if d[i].0 in positionalOnly {
        PartitionFromKwargs(d, positionalOnly, i + 1, args + [d[i].1], kwargs);
      } else {
        KeyNotBefore(d, i);
        PartitionFromKwargs(d, positionalOnly, i + 1, args, Put(kwargs, d[i].0, d[i].1));
        assert (kwargs + [d[i]]) + Filter(d[i + 1..], positionalOnly, false) ==
               kwargs + ([d[i]] + Filter(d[i + 1..], positionalOnly, false));
      }
    } else {
      assert d[i..] == [];
    }
  }

  /**
    The positional-only branch: positional-only fields go positionally in
    declaration order, all others by keyword in declaration order.
   */
  function Partition(d: Dict<Value>, positionalOnly: set<string>): (r: CallRecord)
    ensures r.args == Values(Filter(d, positionalOnly, true))
    ensures r.kwargs == Filter(d, positionalOnly, false)
  {
    PartitionFromArgs(d, positionalOnly, 0, [], []);
    PartitionFromKwargs(d, positionalOnly, 0, [], []);
    assert d[0..] == d;
    var (args, kwargs) := PartitionFrom(d, positionalOnly, 0, [], []);
    CallRecord(args, kwargs)
  }

  /** The keywords a validated instance carries under `carrier`, when it holds a dict there. */
  function Carried(inst: Instance, carrier: string): Option<Dict<Value>> {
    match Get(inst.data, carrier)
    case Some(v) => if v.DictV? && carrier in inst.fieldsSet then Some(v.entries) else None
    case None => None
  }

  /**
    The dict `execute` rebuilds the call from: the explicitly supplied
    fields, and, after a keyword overflow, the carried keywords in place of
    their carrier, overriding fields of the same name.
   */
  function Prepared(vf: ValidatedFunction, inst: Instance, hasVarKwargs: bool): (r: Result<Dict<Value>, ExecError>)
    ensures r.Success? <==> !hasVarKwargs || Carried(inst, vf.kwargsFieldName).Some?
    ensures r.Success? ==> forall k ::
      Get(r.value, k) == (if hasVarKwargs && k in Keys(Carried(inst, vf.kwargsFieldName).value) then
                            Get(Carried(inst, vf.kwargsFieldName).value, k)
                          else if hasVarKwargs && k == vf.kwargsFieldName then None
                          else if k in inst.fieldsSet then Get(inst.data, k)
                          else None)
  {
    var d := Explicit(inst);
    if hasVarKwargs then Spread(d, vf.kwargsFieldName) else Success(d)
  }

  /** Filtering with a set that no key is in keeps nothing. */
  lemma {:induction false} FilterEmpty(d: Dict<Value>)
    ensures Filter(d, {}, true) == []
    decreases |d|
  {
    if |d| > 0 {
      FilterEmpty(d[1..]);
    }
  }

  /**
    `execute(m, has_var_args, has_var_kwargs)`, as the call it makes.  After
    a positional overflow the prepared fields before the args carrier go
    positionally, the carried list is spliced in, and every later field goes
    by keyword.  Otherwise the positional-only fields go positionally and
    the others by keyword, each in declaration order; with no positional-only
    field that is a call with keywords only.
   */
  function Execute(vf: ValidatedFunction, inst: Instance, hasVarArgs: bool, hasVarKwargs: bool)
    : (r: Result<CallRecord, ExecError>)
    ensures Prepared(vf, inst, hasVarKwargs).Failure? ==> r.Failure? && (r.error.MissingCarrier? || r.error.NotAMapping?)
    ensures !hasVarArgs && Prepared(vf, inst, hasVarKwargs).Success? ==>
      var d := Prepared(vf, inst, hasVarKwargs).value;
      && r.Success?
      && r.value.args == Values(Filter(d, vf.positionalOnlyArgs, true))
      && r.value.kwargs == Filter(d, vf.positionalOnlyArgs, false)
    ensures hasVarArgs && Prepared(vf, inst, hasVarKwargs).Success? ==>
      r == Splice(Prepared(vf, inst, hasVarKwargs).value, vf.argsFieldName)
  {
    var d :- Prepared(vf, inst, hasVarKwargs);
    if hasVarArgs then Splice(d, vf.argsFieldName)
    else if vf.positionalOnlyArgs != {} then Success(Partition(d, vf.positionalOnlyArgs))
    else
      FilterEmpty(d);
      FilterNothing(d, {}, false);
      Success(CallRecord([], d))
  }
}
