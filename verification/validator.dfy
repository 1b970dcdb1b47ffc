/**
  The model class built by `create_model` with `extra = Extra.forbid`, as far
  as the decorator relies on it.  Its fields are exactly the declared
  fields; an unknown keyword, a missing required field or a value its type
  rejects makes validation fail; an instance lists every field in
  declaration order and remembers which fields were supplied.  What a
  declared annotation accepts is an opaque `coerce` function.
 */
module Validator {
  import opened Wrappers
  import opened OrderedDict
  import opened Signature
  import opened Analysis

  /** What a declared annotation makes of a value: `Some` of the coerced value, or `None` to reject it. */
  type Coerce = (nat, Value) -> Option<Value>

  /** `ValidationError`: the unknown keys, the absent required fields and the rejected fields. */
  datatype ValidationError = ValidationError(extra: set<string>, missing: set<string>, invalid: set<string>)

  /** A model instance: every field and its value in declaration order (`_iter()`), and `__fields_set__`. */
  datatype Instance = Instance(data: Dict<Value>, fieldsSet: set<string>)

  function CheckType(t: TypeToken, v: Value, coerce: Coerce): Option<Value> {
    match t
    case AnyType => Some(v)
    case Named(id) => coerce(id, v)
  }

  /** `Tuple[t, ...]` applied to the items of a list: all are accepted, or the list is rejected. */
  function CheckItems(t: TypeToken, items: seq<Value>, coerce: Coerce): (r: Option<seq<Value>>)
    ensures r.Some? ==> |r.value| == |items|
    decreases |items|
  {
    if |items| == 0 then Some([])
    else
      match (CheckType(t, items[0], coerce), CheckItems(t, items[1..], coerce))
      case (Some(x), Some(xs)) => Some([x] + xs)
      case _ => None
  }

  /** `Dict[str, t]` applied to the values of a dict, keeping its keys and their order. */
  function CheckEntries(t: TypeToken, entries: Dict<Value>, coerce: Coerce): (r: Option<Dict<Value>>)
    ensures r.Some? ==> Keys(r.value) == Keys(entries)
    decreases |entries|
  {
    if |entries| == 0 then Some([])
    else
      match (CheckType(t, entries[0].1, coerce), CheckEntries(t, entries[1..], coerce))
      case (Some(x), Some(xs)) =>
        assert Keys(entries) == [entries[0].0] + Keys(entries[1..]);
        var r := [(entries[0].0, x)] + xs;
        assert Keys(r) == [entries[0].0] + Keys(xs);
        assert forall i :: 0 <= i < |r| ==> r[i].0 == Keys(entries)[i];
        Some(r)
      case _ => None
  }

  /**
    One supplied value against its field.  A field whose default is `None`
    also accepts `None`; a tuple field wants a list and a dict field a dict.
   */
  function CheckField(spec: FieldSpec, v: Value, coerce: Coerce): Option<Value> {
    if v == NoneV && spec.default == Some(NoneV) then Some(NoneV)
    else
      match spec.annotation
      case Plain(t) => CheckType(t, v, coerce)
      case TupleOf(t) =>
        if !v.ListV? then None
        else
          (match CheckItems(t, v.items, coerce)
           case Some(xs) => Some(ListV(xs))
           case None => None)
      case DictOf(t) =>
        if !v.DictV? then None
        else
          (match CheckEntries(t, v.entries, coerce)
           case Some(e) => Some(DictV(e))
           case None => None)
  }

  /** The field is supplied with an acceptable value, or has a default. */
  predicate FieldOk(f: (string, FieldSpec), values: map<string, Value>, coerce: Coerce) {
    if f.0 in values then CheckField(f.1, values[f.0], coerce).Some? else f.1.default.Some?
  }

  /** The value an instance holds for an acceptable field. */
  function FieldValue(f: (string, FieldSpec), values: map<string, Value>, coerce: Coerce): Value
    requires FieldOk(f, values, coerce)
  {
    if f.0 in values then CheckField(f.1, values[f.0], coerce).value else f.1.default.value
  }

  /** Every field's value, in declaration order. */
  function Instantiate(fields: Dict<FieldSpec>, values: map<string, Value>, coerce: Coerce): (data: Dict<Value>)
    requires forall i :: 0 <= i < |fields| ==> FieldOk(fields[i], values, coerce)
    ensures |data| == |fields|
    ensures forall i :: 0 <= i < |fields| ==> data[i] == (fields[i].0, FieldValue(fields[i], values, coerce))
    decreases |fields|
  {
    if |fields| == 0 then []
    else
      var rest := Instantiate(fields[1..], values, coerce);
      var data := [(fields[0].0, FieldValue(fields[0], values, coerce))] + rest;
      assert forall i :: 0 <= i < |data| ==> data[i].0 == fields[i].0;
      data
  }

  /** `model(**values)`. */
  function Validate(fields: Dict<FieldSpec>, values: map<string, Value>, coerce: Coerce): (r: Result<Instance, ValidationError>)
    ensures r.Success? <==>
      (forall k :: k in values ==> k in Keys(fields)) && (forall i :: 0 <= i < |fields| ==> FieldOk(fields[i], values, coerce))
    ensures r.Success? ==> r.value.fieldsSet == values.Keys
    ensures r.Success? ==> |r.value.data| == |fields|
    ensures r.Success? ==> forall i :: 0 <= i < |fields| ==>
      r.value.data[i] == (fields[i].0, FieldValue(fields[i], values, coerce))
    ensures r.Failure? ==> forall k :: k in r.error.extra <==> k in values && k !in Keys(fields)
  {
    var extra := set k | k in values && k !in Keys(fields);
    var missing := set k | k in Keys(fields) && k !in values && Get(fields, k).value.default.None?;
    var invalid := set k | k in Keys(fields) && k in values && CheckField(Get(fields, k).value, values[k], coerce).None?;
    if extra == {} && missing == {} && invalid == {} then
      assert forall i :: 0 <= i < |fields| ==> FieldOk(fields[i], values, coerce) by {
        forall i | 0 <= i < |fields|
          ensures FieldOk(fields[i], values, coerce)
        {
          GetAt(fields, i);
          var k := fields[i].0;
          assert Keys(fields)[i] == k;
          assert k !in missing && k !in invalid;
        }
      }
      assert forall k :: k in values ==> k in Keys(fields) by {
        forall k | k in values
          ensures k in Keys(fields)
        {
          assert k !in extra;
        }
      }
      Success(Instance(Instantiate(fields, values, coerce), values.Keys))
    else
      assert !(forall i :: 0 <= i < |fields| ==> FieldOk(fields[i], values, coerce)) || extra != {} by {
        if missing != {} || invalid != {} {
          var k :| k in missing || k in invalid;
          var i := IndexOf(fields, k);
          GetAt(fields, i);
          assert !FieldOk(fields[i], values, coerce);
        }
      }
      Failure(ValidationError(extra, missing, invalid))
  }
}
