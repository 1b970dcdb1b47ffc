/**
  What `inspect.signature` reports about the wrapped function, and the values
  that flow through a call.  Annotations and defaults are opaque tokens.
 */
module Signature {
  import opened Wrappers
  import opened OrderedDict

  /** `inspect.Parameter.kind`. */
  datatype ParamKind = PositionalOnly | PositionalOrKeyword | KeywordOnly | VarPositional | VarKeyword {

    /** The kinds a positional argument can fill, and so the kinds that get an index. */
    predicate Positional() {
      PositionalOnly? || PositionalOrKeyword?
    }
  }

  /** A type for the validator: `Any` or an opaque declared annotation. */
  datatype TypeToken = AnyType | Named(id: nat)

  /** A Python value as far as the decorator can tell: opaque, `None`, a list or tuple, a keyword dict. */
  datatype Value = Atom(id: int) | NoneV | ListV(items: seq<Value>) | DictV(entries: Dict<Value>)

  /**
    One `inspect.Parameter`; `annotation` and `default` are `None` where the
    parameter has `Parameter.empty`.
   */
  datatype Param = Param(name: string, kind: ParamKind, annotation: Option<nat>, default: Option<Value>)

  /** The parameter names in declaration order, `list(parameters)`. */
  function Names(params: seq<Param>): seq<string> {
    seq(|params|, i requires 0 <= i < |params| => params[i].name)
  }

  /** A name is in `Names(params)` exactly when some parameter carries it. */
  lemma NamesIndex(params: seq<Param>)
    ensures forall n :: n in Names(params) <==> exists i :: 0 <= i < |params| && params[i].name == n
  {
    forall n
      ensures n in Names(params) <==> exists i :: 0 <= i < |params| && params[i].name == n
    {
      if exists i :: 0 <= i < |params| && params[i].name == n {
        var i :| 0 <= i < |params| && params[i].name == n;
        assert Names(params)[i] == n;
      }
    }
  }

  /** With unique names, a parameter is declared with kind `k` exactly when its own kind is `k`. */
  lemma DeclaresOwnKind(params: seq<Param>, k: ParamKind)
    requires UniqueNames(params)
    ensures forall i :: 0 <= i < |params| ==> (Declares(params, k, params[i].name) <==> params[i].kind == k)
  {
  }

  lemma NamesSnoc(params: seq<Param>)
    requires |params| > 0
    ensures Names(params) == Names(params[..|params| - 1]) + [params[|params| - 1].name]
  {
  }

  /** Some parameter has kind `k`. */
  predicate HasKind(params: seq<Param>, k: ParamKind) {
    exists i :: 0 <= i < |params| && params[i].kind == k
  }

  lemma HasKindSnoc(params: seq<Param>, k: ParamKind)
    requires |params| > 0
    ensures HasKind(params, k) <==> HasKind(params[..|params| - 1], k) || params[|params| - 1].kind == k
  {
    var n := |params| - 1;
    if HasKind(params, k) {
      var i :| 0 <= i < |params| && params[i].kind == k;
      if i < n {
        assert params[..n][i].kind == k;
      }
    }
    if HasKind(params[..n], k) {
      var i :| 0 <= i < n && params[..n][i].kind == k;
      assert params[i].kind == k;
    }
  }

  /** A parameter named `x` of kind `k` is declared. */
  predicate Declares(params: seq<Param>, k: ParamKind, x: string) {
    exists i :: 0 <= i < |params| && params[i].kind == k && params[i].name == x
  }

  lemma DeclaresSnoc(params: seq<Param>, k: ParamKind, x: string)
    requires |params| > 0
    ensures Declares(params, k, x) <==>
      Declares(params[..|params| - 1], k, x) || (params[|params| - 1].kind == k && params[|params| - 1].name == x)
  {
    var n := |params| - 1;
    if Declares(params, k, x) {
      var i :| 0 <= i < |params| && params[i].kind == k && params[i].name == x;
      if i < n {
        assert params[..n][i] == params[i];
      }
    }
    if Declares(params[..n], k, x) {
      var i :| 0 <= i < n && params[..n][i].kind == k && params[..n][i].name == x;
      assert params[..n][i] == params[i];
    }
  }

  /** Parameter names are distinct, as they are in every Python signature. */
  predicate UniqueNames(params: seq<Param>) {
    forall i, j :: 0 <= i < j < |params| ==> params[i].name != params[j].name
  }
}
