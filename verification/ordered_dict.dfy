/**
  Python's insertion-ordered `dict` with string keys, as a sequence of
  (key, value) entries whose keys are pairwise distinct.  Assigning to an
  existing key keeps its position; assigning to a new key appends it.
 */
module OrderedDict {
  import opened Wrappers

  /** No key occurs twice. */
  predicate UniqueKeys<V>(d: seq<(string, V)>) {
    forall i, j :: 0 <= i < j < |d| ==> d[i].0 != d[j].0
  }

  type Dict<V> = d: seq<(string, V)> | UniqueKeys(d) witness []

  /** The keys in insertion order, as `list(d)` yields them. */
  function Keys<V>(d: seq<(string, V)>): seq<string> {
    seq(|d|, i requires 0 <= i < |d| => d[i].0)
  }

  /** The keys of a sequence that starts with `x`. */
  lemma KeysCons<V>(x: (string, V), d: seq<(string, V)>)
    ensures Keys([x] + d) == [x.0] + Keys(d)
  {
  }

  /** The keys of a non-empty sequence: its first key, then the rest. */
  lemma KeysTail<V>(d: seq<(string, V)>)
    requires |d| > 0
    ensures Keys(d) == [d[0].0] + Keys(d[1..])
  {
  }

  /** A key is present exactly when some entry carries it. */
  lemma InKeys<V>(d: seq<(string, V)>)
    ensures forall k :: k in Keys(d) <==> exists j :: 0 <= j < |d| && d[j].0 == k
  {
    forall k | k in Keys(d)
      ensures exists j :: 0 <= j < |d| && d[j].0 == k
    {
      var j :| 0 <= j < |d| && Keys(d)[j] == k;
    }
    forall k, j | 0 <= j < |d| && d[j].0 == k
      ensures k in Keys(d)
    {
      assert Keys(d)[j] == k;
    }
  }

  /** The values in insertion order, as `list(d.values())` yields them. */
  function Values<V>(d: seq<(string, V)>): seq<V> {
    seq(|d|, i requires 0 <= i < |d| => d[i].1)
  }

  /** Reading values one entry further. */
  lemma ValuesPrefix<V>(d: seq<(string, V)>, i: nat)
    requires i < |d|
    ensures Values(d[..i + 1]) == Values(d[..i]) + [d[i].1]
  {
  }

  /** The values of a sequence that starts with `x`. */
  lemma ValuesCons<V>(x: (string, V), d: seq<(string, V)>)
    ensures Values([x] + d) == [x.1] + Values(d)
  {
  }

  /** Position of the first entry with key `k`, or `|d|` when there is none. */
  function IndexOf<V>(d: seq<(string, V)>, k: string): (i: nat)
    ensures i <= |d|
    ensures i < |d| ==> d[i].0 == k
    ensures forall j :: 0 <= j < i ==> d[j].0 != k
    ensures i == |d| <==> k !in Keys(d)
  {
    if |d| == 0 then 0
    else if d[0].0 == k then
      assert Keys(d)[0] == k;
      0
    else
      var i := 1 + IndexOf(d[1..], k);
      assert Keys(d) == [d[0].0] + Keys(d[1..]);
      i
  }

  /** `d.get(k)`. */
  function Get<V>(d: seq<(string, V)>, k: string): (r: Option<V>)
    ensures r.Some? <==> k in Keys(d)
  {
    var i := IndexOf(d, k);
    if i < |d| then Some(d[i].1) else None
  }

  /** In a dictionary, the entry at position `i` is what a lookup of its key finds. */
  lemma GetAt<V>(d: Dict<V>, i: nat)
    requires i < |d|
    ensures Get(d, d[i].0) == Some(d[i].1)
  {
  }

  /** Looking past the first entry does not change a lookup of another key. */
  lemma GetTail<V>(d: Dict<V>, k: string)
    requires |d| > 0 && k != d[0].0
    ensures Get(d, k) == Get(d[1..], k)
  {
    assert Keys(d) == [d[0].0] + Keys(d[1..]);
    if k in Keys(d[1..]) {
      var a := IndexOf(d[1..], k);
      GetAt(d[1..], a);
      GetAt(d, a + 1);
    }
  }

  /**
    A dictionary `r` that keeps every entry of `d` whose key is not `k`,
    keeps every key of `d` in place, and adds only entries for `k`, agrees
    with `d` on every lookup of another key.
   */
  lemma GetOthers<V>(d: Dict<V>, r: Dict<V>, k: string)
    requires |d| <= |r|
    requires forall i :: 0 <= i < |d| ==> r[i].0 == d[i].0 && (d[i].0 != k ==> r[i] == d[i])
    requires forall i :: |d| <= i < |r| ==> r[i].0 == k
    ensures forall j :: j != k ==> Get(r, j) == Get(d, j)
  {
    forall j | j != k
      ensures Get(r, j) == Get(d, j)
    {
      if j in Keys(d) {
        var a := IndexOf(d, j);
        GetAt(d, a);
        GetAt(r, a);
      } else if j in Keys(r) {
        var a := IndexOf(r, j);
        assert Keys(d)[a] == j;
      }
    }
  }

  /** `d[k] = v`. */
  function Put<V>(d: Dict<V>, k: string, v: V): (r: Dict<V>)
    ensures Get(r, k) == Some(v)
    ensures forall j :: j != k ==> Get(r, j) == Get(d, j)
    ensures k in Keys(d) ==> Keys(r) == Keys(d)
    ensures k !in Keys(d) ==> r == d + [(k, v)] && Keys(r) == Keys(d) + [k]
  {
    var i := IndexOf(d, k);
    if i < |d| then
      var r := d[i := (k, v)];
      assert Keys(r) == Keys(d);
      GetOthers(d, r, k);
      GetAt(r, i);
      r
    else
      var r := d + [(k, v)];
      assert Keys(r) == Keys(d) + [k];
      GetAt(r, |d|);
      GetOthers(d, r, k);
      r
  }

  /** `d.update(e)`: every entry of `e`, in order, assigned into `d`. */
  function Update<V>(d: Dict<V>, e: Dict<V>): Dict<V>
    decreases |e|
  {
    if |e| == 0 then d else Update(Put(d, e[0].0, e[0].1), e[1..])
  }

  /** After `d.update(e)` a key of `e` maps to its value in `e`; any other key keeps its value in `d`. */
  lemma {:induction false} UpdateGet<V>(d: Dict<V>, e: Dict<V>, k: string)
    ensures Get(Update(d, e), k) == (if k in Keys(e) then Get(e, k) else Get(d, k))
    decreases |e|
  {
    if |e| > 0 {
      assert Keys(e) == [e[0].0] + Keys(e[1..]);
      UpdateGet(Put(d, e[0].0, e[0].1), e[1..], k);
      if k != e[0].0 {
        GetTail(e, k);
      } else {
        GetAt(e, 0);
      }
    }
  }

  /** Appending `s[i]` and then `s[i + 1..]` appends `s[i..]`. */
  lemma AppendSlice<T>(a: seq<T>, s: seq<T>, i: nat)
    requires i < |s|
    ensures (a + [s[i]]) + s[i + 1..] == a + s[i..]
  {
  }

  /** Reading keys one entry further. */
  lemma KeysPrefix<V>(d: seq<(string, V)>, i: nat)
    requires i < |d|
    ensures Keys(d[..i + 1]) == Keys(d[..i]) + [d[i].0]
  {
  }

  /** In a dictionary no earlier entry carries the key of entry `i`. */
  lemma KeyNotBefore<V>(d: Dict<V>, i: nat)
    requires i < |d|
    ensures d[i].0 !in Keys(d[..i])
  {
    forall j | 0 <= j < i
      ensures d[..i][j].0 != d[i].0
    {
      assert d[..i][j] == d[j];
    }
    InKeys(d[..i]);
  }

  /** When no key of `e` is already in `d`, `d.update(e)` appends `e` in its order. */
  lemma {:induction false} UpdateFresh<V>(d: Dict<V>, e: Dict<V>)
    requires forall k :: k in Keys(e) ==> k !in Keys(d)
    ensures Update(d, e) == d + e
    decreases |e|
  {
    if |e| > 0 {
      TailFresh(d, e);
      var d' := Put(d, e[0].0, e[0].1);
      UpdateFresh(d', e[1..]);
      AppendSlice(d, e, 0);
      assert e[0..] == e;
    }
  }

  /** After putting the first fresh entry of `e`, the rest of `e` is still fresh. */
  lemma TailFresh<V>(d: Dict<V>, e: Dict<V>)
    requires |e| > 0
    requires forall k :: k in Keys(e) ==> k !in Keys(d)
    ensures Put(d, e[0].0, e[0].1) == d + [e[0]]
    ensures forall k :: k in Keys(e[1..]) ==> k !in Keys(d + [e[0]])
  {
    KeysTail(e);
    InKeys(e[1..]);
    assert Keys(d + [e[0]]) == Keys(d) + [e[0].0];
    forall k | k in Keys(e[1..])
      ensures k !in Keys(d + [e[0]])
    {
      var j :| 0 <= j < |e[1..]| && e[1..][j].0 == k;
      assert Keys(e)[j + 1] == k;
      assert k != e[0].0;
    }
  }

  /**
    The entries whose key is (when `inside`) or is not (otherwise) in `s`,
    in their original order: a dict comprehension with an `if` on the key.
   */
  function Filter<V>(d: Dict<V>, s: set<string>, inside: bool): (r: Dict<V>)
    ensures forall k :: k in Keys(r) <==> k in Keys(d) && (k in s) == inside
    decreases |d|
  {
    if |d| == 0 then []
    else
      var rest := Filter(d[1..], s, inside);
      KeysTail(d);
      if (d[0].0 in s) == inside then
        assert d[0].0 !in Keys(rest);
        InKeys(rest);
        KeysCons(d[0], rest);
        [d[0]] + rest
      else
        rest
  }

  /** Filtering keeps the value of every key it keeps. */
  lemma {:induction false} FilterGet<V>(d: Dict<V>, s: set<string>, inside: bool, k: string)
    requires (k in s) == inside
    ensures Get(Filter(d, s, inside), k) == Get(d, k)
    decreases |d|
  {
    if |d| > 0 {
      FilterGet(d[1..], s, inside, k);
      var rest := Filter(d[1..], s, inside);
      if k == d[0].0 {
        GetAt(d, 0);
        GetAt(Filter(d, s, inside), 0);
      } else {
        GetTail(d, k);
        if (d[0].0 in s) == inside {
          GetTail(Filter(d, s, inside), k);
        }
      }
    }
  }

  /** `d.pop(k)` without the returned value; a missing key leaves `d` as it is. */
  function Remove<V>(d: Dict<V>, k: string): (r: Dict<V>)
    ensures k !in Keys(r)
    ensures forall j :: j != k ==> Get(r, j) == Get(d, j)
    ensures forall j :: j in Keys(r) <==> j in Keys(d) && j != k
    ensures k !in Keys(d) ==> r == d
  {
    forall j | j != k
      ensures Get(Filter(d, {k}, false), j) == Get(d, j)
    {
      FilterGet(d, {k}, false, j);
    }
    if k !in Keys(d) then
      FilterNothing(d, {k}, false);
      Filter(d, {k}, false)
    else
      Filter(d, {k}, false)
  }

  /** A filter that every key passes keeps the dictionary as it is. */
  lemma {:induction false} FilterNothing<V>(d: Dict<V>, s: set<string>, inside: bool)
    requires forall k :: k in Keys(d) ==> (k in s) == inside
    ensures Filter(d, s, inside) == d
    decreases |d|
  {
    if |d| > 0 {
      assert Keys(d) == [d[0].0] + Keys(d[1..]);
      FilterNothing(d[1..], s, inside);
    }
  }

  /** Filtering a filtered dictionary is one filter with the combined condition. */
  lemma {:induction false} FilterTwice<V>(d: Dict<V>, a: set<string>, b: set<string>, inside: bool)
    ensures Filter(Filter(d, a, true), b, inside) == Filter(d, if inside then a * b else a - b, true)
    decreases |d|
  {
    if |d| > 0 {
      FilterTwice(d[1..], a, b, inside);
    }
  }

  /** When exactly the first `q` keys pass, the filter keeps the first `q` entries. */
  lemma {:induction false} FilterPrefix<V>(d: Dict<V>, a: set<string>, q: nat)
    requires q <= |d|
    requires forall i :: 0 <= i < |d| ==> (d[i].0 in a <==> i < q)
    ensures Filter(d, a, true) == d[..q]
    decreases |d|
  {
    if |d| > 0 {
      if q > 0 {
        FilterPrefix(d[1..], a, q - 1);
        assert [d[0]] + d[1..][..q - 1] == d[..q];
      } else {
        FilterPrefix(d[1..], a, 0);
      }
    }
  }
}
