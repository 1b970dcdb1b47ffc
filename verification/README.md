# validate_arguments, modelled in Dafny

pydantic's `validate_arguments` decorator wraps a function in a
`ValidatedFunction`. When the function is wrapped, `__init__` reads its
signature. It builds a model class with one field per parameter, a table
from positional index to parameter name, the set of positional-only names,
and the names of two overflow carriers: one for surplus positional
arguments (`args`) and one for unknown keywords (`kwargs`). A carrier is
renamed to `var__args` / `var__kwargs` when an ordinary parameter already
uses its name and no `*` / `**` parameter is declared.

Each call goes through three stages, once Python has bound the call to
`__call__(self, *args, **kwargs)` itself (a keyword `self` fails there,
since `self` is already the wrapper instance):

- `build_values` binds the arguments to field names;
- the model validates them (`Extra.forbid`, so an unknown name is an error);
- `execute` rebuilds the call to the wrapped function from the fields the
  caller actually supplied.

Modules, one per concern:

- `Wrappers`: `Option` and `Result`.
- `OrderedDict`: Python's insertion-ordered `dict` as a sequence of pairs
  with unique keys.
- `Signature`: parameters and values.
- `Analysis`: `__init__`.
- `Validator`: the model class, as far as the decorator relies on it.
- `Binding`: `build_values`.
- `Execution`: `execute`.
- `Decorator`: `__call__`.
- `Calling`: how Python itself binds a call to a function without `*` or
  `**`, following section 6.3.4 ("Calls") of the Python Language Reference.
- `Agreement` and `DirectCall`: theorems relating the wrapper to that
  reference binding.
- `Findings`: two defects of the code as written, each shown on a concrete
  call.

The call to the wrapped function is not made. `Execute` returns the
`CallRecord` (positional list and keyword dict) the function would receive.
The model class is an oracle. A `coerce` function says what each declared
annotation makes of a value, and the model fixes what the decorator relies
on: unknown names are rejected, required fields must be present, the
instance lists every field in declaration order, and it records which
fields the caller supplied.

No carrier field exists unless the function declares `*`/`**`. The code
adds a field only per declared parameter (`pydantic/decorator.py:58-91`),
not an empty carrier field with a default, and the model does the same. So
overflow arguments to a function without `*args` fail validation as
unknown names, rather than landing in a hidden carrier field.

## Model

| member | source | states |
|---|---|---|
| Analysis.Analyze | pydantic/decorator.py:42-91 | The corrected `__init__` (first finding below). Fails with `DecoratorSetupError` exactly when a parameter is named `var__args` or `var__kwargs`. Otherwise, exactly the positional-capable parameters get an index, mapped to their own names. `positional_only_args` is exactly the positional-only names. The fields are exactly the parameter names. Corrected naming: a declared `*`/`**` parameter is its own carrier, where lines 76 and 81 as written leave it unused. Without one, the carrier is `args`/`kwargs`, or the reserved name when that name is taken, and never a parameter name. |
| Analysis.AnalyzeAsWritten | pydantic/decorator.py:75-91 | Fails exactly when `Analyze` fails. The carriers are `args`/`kwargs` even when `*`/`**` is declared, because the declared name is stored in an attribute nothing reads. They are renamed only when no such parameter exists and the name is taken. Everything else equals `Analyze`. |
| Analysis.ScanMapping | pydantic/decorator.py:58-72 | After the loop, index `i` is in `arg_mapping` iff parameter `i` is positional-only or positional-or-keyword, and it maps to that parameter's name. |
| Analysis.ScanPositionalOnly | pydantic/decorator.py:66-69 | A name is in `positional_only_args` iff some parameter of kind `POSITIONAL_ONLY` has it. |
| Analysis.ScanVariadic | pydantic/decorator.py:75-83 | `allows_var_args` / `allows_var_kwargs` hold iff a `*` / `**` parameter is declared. |
| Analysis.ScanFieldNames | pydantic/decorator.py:58-83 | Every parameter, and nothing else, names a model field. |
| Analysis.ScanFields | pydantic/decorator.py:58-83 | With distinct names, field `i` is parameter `i` with its annotation (`Any` when missing, `Tuple[T, ...]` / `Dict[str, T]` for `*`/`**`) and its default (`...` when missing, `None` for `*`/`**`). |
| Analysis.ScanDeclaredArgs | pydantic/decorator.py:75-77 | The name the loop records for `*` exists iff a `*` parameter is declared, and it is that parameter's name. |
| Analysis.ScanDeclaredKwargs | pydantic/decorator.py:79-83 | The name the loop records for `**` exists iff a `**` parameter is declared, and it is that parameter's name. |
| Validator.Validate | pydantic/decorator.py:29-30 | `model(**values)` succeeds iff every supplied name is a field and every field is supplied with a value its annotation accepts or has a default. An instance lists every field in order with its coerced or default value, and its set of supplied fields is exactly the supplied names. A failure reports exactly the unknown names. |
| Validator.CheckEntries | pydantic/decorator.py:83 | A `Dict[str, T]` field that accepts a dict keeps its keys in order. |
| Binding.FirstUnmapped | pydantic/decorator.py:104-117 | The index where the positional walk stops: every earlier index is mapped, and it is unmapped unless it equals the number of arguments. |
| Binding.BindPositional | pydantic/decorator.py:104-117 | Positional arguments before the first unmapped index land under their mapped names. From that index on, all of them form one list under the args carrier, and `has_var_args` says whether that happened. No other name is set. |
| Binding.PositionalNoneDropped | pydantic/decorator.py:104-117 | Provided distinct indices map to distinct names and no mapped name reached is the args carrier itself, reading the mapped names in index order, then the carried list, gives back exactly the positional arguments. When a mapped name is the carrier, as `args` is for `def f(args, *rest)` as written, the carried list overwrites that argument (first finding below). |
| Binding.BindKeywords | pydantic/decorator.py:119-126 | Fails iff a keyword names a positional-only field. Otherwise keywords naming fields are stored under those names with their values, overriding earlier values. Other entries are untouched, and the keywords naming no field form `var_kwargs` in call order. |
| Binding.BuildValues | pydantic/decorator.py:100-130 | Fails iff a keyword names a positional-only field. `has_var_args` holds iff the positional arguments outrun `arg_mapping`. `has_var_kwargs` holds iff some keyword names no field, and then the kwargs carrier holds exactly those keywords, in order. |
| Binding.BuildValuesKeys | pydantic/decorator.py:100-130 | The bound names are exactly: the mapped positional names reached, the args carrier on overflow, the keywords naming fields, and the kwargs carrier on keyword overflow. |
| Binding.BuildValuesKeywords | pydantic/decorator.py:119-129 | A keyword naming a field is bound to its value unless the kwargs carrier has the same name. |
| Binding.BuildValuesCarriedArgs | pydantic/decorator.py:115-116 | On overflow, the args carrier holds exactly the positional arguments from the first unmapped index on, unless a keyword or the kwargs carrier has its name. |
| Binding.BuildValuesPositional | pydantic/decorator.py:111-113 | Each mapped positional argument is bound to its name unless a keyword or a carrier has that name. |
| Binding.BuildValuesExact | pydantic/decorator.py:100-130 | When every positional argument is mapped, and every keyword names a field that is not positional-only and not already filled positionally, binding succeeds without overflow. The bound values are then exactly the arguments under their names. |
| Binding.RepeatedNames | pydantic/decorator.py:119-124 | A keyword overwrites a positional value exactly when it names a field that a positional argument reached, or the args carrier that took the overflow. |
| Binding.BuildValuesChecked | pydantic/decorator.py:119-124 | Binding with Python's "multiple values" check. It succeeds exactly when `build_values` succeeds and no keyword repeats a positional argument, and then it returns the same binding. The repeated names are reported. |
| Execution.Explicit | pydantic/decorator.py:133 | `d` holds exactly the fields the caller supplied, with the instance's values for them. |
| Execution.Spread | pydantic/decorator.py:134-135 | `d.update(d.pop(kwargs_field_name))` raises when the carrier is missing or not a dict. Otherwise the carrier disappears and each carried keyword overrides the entry of the same name. With fresh keys, the carried keywords follow the other entries in order. |
| Execution.Prepared | pydantic/decorator.py:133-135 | The dict `execute` rebuilds from: each name maps to the carried keyword, else the supplied field's value, else nothing. The carrier itself is gone. |
| Execution.SpliceBeforeCarrier | pydantic/decorator.py:137-149 | Entries before the args carrier go positionally. The carried list is spliced in at the carrier, and a carrier value that is not a list raises. |
| Execution.SpliceAfterCarrier | pydantic/decorator.py:141-143 | After the carrier, every remaining entry goes by keyword, in order. |
| Execution.Splice | pydantic/decorator.py:137-149 | The call is the values before the carrier plus the carried list, with every later entry as a keyword. Without a carrier entry, all values go positionally. |
| Execution.PartitionFromArgs | pydantic/decorator.py:153-155 | The positional-only values are appended in declaration order. |
| Execution.Partition | pydantic/decorator.py:150-158 | Positional-only fields go positionally and all others by keyword, each in declaration order. |
| Execution.Execute | pydantic/decorator.py:132-160 | With `has_var_args`, the call is `Splice` of the prepared dict. Otherwise positional-only fields go positionally and the rest by keyword, which with no positional-only field is a keywords-only call. A bad kwargs carrier fails. |
| Decorator.Validated | pydantic/decorator.py:96-97 | The corrected binding and validation (second finding below): lines 96-97 make no repeat check. Binding fails iff a keyword names a positional-only field or repeats a positional argument. On success, the instance comes from validating the bound values, and its supplied fields are the bound names, all of them fields. A validation failure carries the model's error. |
| Decorator.ValidatedAsWritten | pydantic/decorator.py:96-97 | As `Validated`, but binding fails only for a keyword naming a positional-only field. |
| Decorator.Call | pydantic/decorator.py:95-98 | The corrected call (second finding below), built on `Validated`. A keyword `self` fails with the `TypeError` of line 95's own signature. Binding fails iff a keyword names a positional-only field or repeats a positional argument. A binding or validation failure ends the call before `execute`. Otherwise the call is exactly what `execute` rebuilds from the validated instance. |
| Decorator.CallAsWritten | pydantic/decorator.py:95-98 | The call as lines 95-98 make it. A keyword `self` fails as in `Call`. Binding fails iff a keyword names a positional-only field. Otherwise the stages are as in `Call`, over `ValidatedAsWritten`. |
| Decorator.CallsAgreeWithoutRepeats | pydantic/decorator.py:119-124 | When no keyword repeats a positional argument, the corrected call and the call as written are identical. |
| Agreement.SuppliedPositionalOnly | pydantic/decorator.py:122-123 | For a function without `*`/`**`, a positional-only parameter is supplied exactly when a positional argument reaches it. |
| Agreement.RecordShape | pydantic/decorator.py:150-160 | For a function without `*`/`**`, the rebuilt call passes the leading supplied positional-only fields positionally and every other supplied field by keyword, in declaration order. |
| Agreement.CallIsAccepted | pydantic/decorator.py:95-160 | For a function without `*`/`**`, every call the wrapper makes is one Python accepts. Each parameter receives its validated value when supplied, and is left to its own default otherwise. |
| DirectCall.PassedCallsAccepted | pydantic/decorator.py:95-160 | For a function without `*`/`**`, any call the wrapper lets through is one Python would accept directly, whatever the annotations do. |
| DirectCall.WrapperPreservesDirectCall | pydantic/decorator.py:95-160 | For a function without `*`/`**` whose annotations keep values as they are, a call Python accepts passes the wrapper unless it has a keyword `self`. Every parameter receives what the direct call gives it. |
| DirectCall.WrapperAgreesWithPython | pydantic/decorator.py:95-160 | Under the same conditions, the wrapper passes a call on iff Python accepts it directly and it has no keyword `self`, and then with the same value for every parameter. |
| Agreement.WrittenCallIsAccepted | pydantic/decorator.py:95-160 | The code as written, for a function without `*`/`**`: every call it makes is one Python accepts, and each parameter receives its validated value when supplied and its own default otherwise. |
| Agreement.ByName | pydantic/decorator.py:159-160 | For a function without `*`/`**` or positional-only parameters, the wrapper passes no argument positionally. |
| DirectCall.AcceptedCallsAgree | pydantic/decorator.py:119-124 | For a function without `*`/`**`, on every call Python accepts, the code as written makes the same call as the corrected wrapper, and the two carrier namings agree. |
| DirectCall.WrittenRoundTrip | pydantic/decorator.py:95-160 | The round trip of the code as written. Take a function without `*`, `**` or positional-only parameters, with annotations that keep values. A call Python accepts, without a keyword `self`, reaches the function with every argument passed by name, and each parameter receives the value the direct call gives it. |
| Findings.UnreadCarrierRejects | pydantic/decorator.py:75-78 | As written, `def f(a, *rest)` called as `f(1, 2)` puts the overflow under `args`, which is no field, and validation rejects it. |
| Findings.DeclaredCarrierAccepts | pydantic/decorator.py:75-78 | Corrected, the same call reaches the function as `f(1, 2)`. |
| Findings.UnreadCarrierOverwrites | pydantic/decorator.py:75-78 | As written, `def f(args, *rest)` called as `f(1, 2, 3)` overwrites `args` with the overflow and calls `f(2, 3)`. |
| Findings.DeclaredCarrierKeepsArguments | pydantic/decorator.py:75-78 | Corrected, the same call reaches the function as `f(1, 2, 3)`. |
| Findings.KeywordOverwritesPositional | pydantic/decorator.py:119-124 | As written, `def f(a, b=0)` called as `f(1, a=2)`, which Python rejects, silently calls `f(a=2)`. |
| Findings.RepeatedKeywordRejected | pydantic/decorator.py:119-124 | Corrected, the same call fails with "multiple values" for `a`. |

## Left out

- Annotations are opaque. A `coerce` function stands in for what pydantic
  does with a declared type. String annotations and forward references
  (line 62) are not modelled.
- `validate_arguments` (lines 16-22): `update_wrapper` only copies metadata.
  The decorator is `ValidatedFunction` itself.
- `create_model` and `to_camel` (line 93): the model class is reduced to
  what the decorator relies on (`Validator`). The class name is irrelevant
  to the call.
- `inspect.signature` (line 47): the parameter list is the input.
- Calling `raw_function` and its return value (lines 149, 158, 160): the
  model returns the call it would make. Exceptions raised inside the
  function are out of scope.
- `NotImplementedError` on a keyword naming a positional-only parameter
  (line 123) is the error `PositionalOnlyByKeyword`.
- `execute` on a carrier of the wrong shape: `args_ += value` accepts any
  iterable in Python, and `d.pop` on a missing key raises `KeyError`. Both
  are modelled as an `ExecError`.
- Error contents: `ValidationError` records only which names were unknown,
  missing or rejected, not pydantic's messages or their order.
- Agreement.CallIsAccepted: the theorems comparing the wrapper with
  Python's own binding cover only functions without `*`/`**` parameters,
  because with carriers the wrapper's behaviour depends on the findings
  below. Those cases are covered by the `Binding`, `Execution` and
  `Findings` members instead.
- DirectCall.WrapperAgreesWithPython: assumes annotations that keep every
  value as it is. With coercing annotations, only the direction in
  `DirectCall.PassedCallsAccepted` holds.
- DirectCall.WrittenRoundTrip: stated for functions without
  positional-only parameters, where every argument goes by name. With
  positional-only parameters the shape of the call is given by
  `Agreement.RecordShape` and the values by `Agreement.WrittenCallIsAccepted`.

## Findings

| source | as written | input that shows it | evidently intended | confidence | as-written member | corrected member |
|---|---|---|---|---|---|---|
| pydantic/decorator.py:75-81 | The declared `*` / `**` name goes into `_args_field_name` / `_kwargs_field_name` (lines 76, 81), which nothing reads. So the overflow carriers stay `args` / `kwargs`. | `def f(a, *rest)` called as `f(1, 2)`: the overflow goes to `args`, no such field exists, and the call is rejected. `def f(args, *rest)` called as `f(1, 2, 3)` calls `f(2, 3)`. | The declared `*` / `**` parameter carries the overflow: `f(1, 2)` and `f(1, 2, 3)` go through unchanged. | not executed | Analysis.AnalyzeAsWritten, Findings.UnreadCarrierRejects, Findings.UnreadCarrierOverwrites | Analysis.Analyze, Findings.DeclaredCarrierAccepts, Findings.DeclaredCarrierKeepsArguments |
| pydantic/decorator.py:119-124 | A keyword naming a field overwrites the value a positional argument already bound to it. | `def f(a, b=0)` called as `f(1, a=2)` calls `f(a=2)`. Python raises "got multiple values for argument 'a'". | Reject the call, as Python does. With that check and annotations that keep values, the wrapper accepts exactly the calls Python accepts. | not executed | Decorator.ValidatedAsWritten, Decorator.CallAsWritten, Findings.KeywordOverwritesPositional | Binding.BuildValuesChecked, Decorator.Validated, Decorator.Call, Findings.RepeatedKeywordRejected, DirectCall.WrapperAgreesWithPython |
