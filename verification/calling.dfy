/**
  How Python itself binds a call `f(*args, **kwargs)` to the parameters of a
  function without `*` or `**` parameters, following section 6.3.4
  ("Calls") of the Python Language Reference.  This is the reference the
  call rebuilt by `execute` is compared with: it says which call Python
  accepts without a `TypeError`, and which value each parameter receives.
 */
module Calling {
  import opened Wrappers
  import opened OrderedDict
  import opened Signature
  import opened Execution

  /** Neither a `*` nor a `**` parameter is declared. */
  predicate Fixed(params: seq<Param>) {
    forall i :: 0 <= i < |params| ==> params[i].kind != VarPositional && params[i].kind != VarKeyword
  }

  /** Where a kind may appear in a `def`: positional-only first, then positional-or-keyword, `*`, keyword-only, `**`. */
  function Rank(k: ParamKind): nat {
    match k
    case PositionalOnly => 0
    case PositionalOrKeyword => 1
    case VarPositional => 2
    case KeywordOnly => 3
    case VarKeyword => 4
  }

  /** The parameters are listed in an order Python's grammar allows, as `inspect.signature` reports them. */
  predicate KindsOrdered(params: seq<Param>) {
    forall i, j :: 0 <= i < j < |params| ==> Rank(params[i].kind) <= Rank(params[j].kind)
  }

  /** A keyword `k` can bind a parameter that no positional argument has taken and that is not positional-only. */
  predicate KeywordTarget(params: seq<Param>, taken: nat, k: string) {
    exists i :: taken <= i < |params| && params[i].name == k &&
      (params[i].kind == PositionalOrKeyword || params[i].kind == KeywordOnly)
  }

  /**
    Python accepts the call: there are not more positional arguments than
    positional parameters, every keyword names a parameter it may bind and
    that no positional argument took, and every parameter without a default
    receives a value.
   */
  predicate Accepts(params: seq<Param>, rec: CallRecord) {
    && |rec.args| <= |params|
    && (forall i :: 0 <= i < |rec.args| ==> params[i].kind.Positional())
    && (forall j :: 0 <= j < |rec.kwargs| ==> KeywordTarget(params, |rec.args|, rec.kwargs[j].0))
    && (forall i :: |rec.args| <= i < |params| && params[i].default.None? ==> params[i].name in Keys(rec.kwargs))
  }

  /** The value parameter `i` receives, or `None` when it is left to its default. */
  function Receives(params: seq<Param>, rec: CallRecord, i: nat): Option<Value>
    requires i < |params|
  {
    if i < |rec.args| then Some(rec.args[i]) else Get(rec.kwargs, params[i].name)
  }
}
