/**
 * Python dictionaries with string keys, as the weight tables and parsers use them:
 * a sequence of (key, value) entries in insertion order. Assigning to a key that is
 * already present replaces its value in place; a new key goes to the end.
 */
module Dicts {
  import opened Wrappers

  type Dict<V> = seq<(string, V)>

  /** The first components of a sequence of pairs, in order: the keys of a dictionary. */
  function Keys<K, V>(d: seq<(K, V)>): (ks: seq<K>)
    ensures |ks| == |d| && forall i :: 0 <= i < |d| ==> ks[i] == d[i].0
  {
    seq(|d|, i requires 0 <= i < |d| => d[i].0)
  }

  predicate DistinctKeys<V>(d: Dict<V>) {
    forall i, j :: 0 <= i < j < |d| ==> d[i].0 != d[j].0
  }

  /** Position of `k` in `d`, if present. */
  function KeyIndex<V>(d: Dict<V>, k: string): (r: Option<nat>)
    ensures r.None? <==> forall i :: 0 <= i < |d| ==> d[i].0 != k
    ensures r.Some? ==> r.value < |d| && d[r.value].0 == k
  {
    if |d| == 0 then None
    else if d[0].0 == k then Some(0)
    else match KeyIndex(d[1..], k)
      case None => None
      case Some(i) => Some(i + 1)
  }

  /** `d[k] = v` */
  function Assign<V>(d: Dict<V>, k: string, v: V): (r: Dict<V>)
    ensures |r| == (if k in Keys(d) then |d| else |d| + 1)
    ensures forall i :: 0 <= i < |d| ==> r[i].0 == d[i].0
    ensures forall i :: 0 <= i < |d| && d[i].0 != k ==> r[i] == d[i]
    ensures KeyIndex(r, k).Some? && r[KeyIndex(r, k).value].1 == v
    ensures k in Keys(r)
    ensures k !in Keys(d) ==> r == d + [(k, v)]
    ensures DistinctKeys(d) ==> DistinctKeys(r)
  {
    match KeyIndex(d, k)
    case Some(i) =>
      var r := d[i := (k, v)];
      assert Keys(r)[i] == k;
      KeyIndexOnlyReadsKeys(d, r, k);
      r
    case None =>
      var r := d + [(k, v)];
      assert Keys(r)[|d|] == k;
      assert k !in Keys(d);
      assert KeyIndex(r, k) == Some(|d|) by { KeyIndexAppend(d, k, v); }
      r
  }

  lemma {:induction false} KeyIndexOnlyReadsKeys<V>(a: Dict<V>, b: Dict<V>, k: string)
    requires |a| == |b| && forall i :: 0 <= i < |a| ==> a[i].0 == b[i].0
    ensures KeyIndex(a, k) == KeyIndex(b, k)
  {
    if |a| > 0 {
      KeyIndexOnlyReadsKeys(a[1..], b[1..], k);
    }
  }

  lemma {:induction false} KeyIndexAppend<V>(d: Dict<V>, k: string, v: V)
    requires KeyIndex(d, k).None?
    ensures KeyIndex(d + [(k, v)], k) == Some(|d|)
  {
    if |d| > 0 {
      assert (d + [(k, v)])[1..] == d[1..] + [(k, v)];
      KeyIndexAppend(d[1..], k, v);
    }
  }

  /** `dict(pairs)`: the entries assigned one after another, so a later duplicate wins. */
  function FromPairs<V>(pairs: seq<(string, V)>): (r: Dict<V>)
    ensures DistinctKeys(r)
    ensures forall k :: k in Keys(r) <==> k in Keys(pairs)
    decreases |pairs|
  {
    if |pairs| == 0 then []
    else
      var init := FromPairs(pairs[..|pairs| - 1]);
      var last := pairs[|pairs| - 1];
      KeysSnoc(pairs);
      AssignKeys(init, last.0, last.1);
      Assign(init, last.0, last.1)
  }

  /** Assigning adds the key to the key set and nothing else. */
  lemma AssignKeys<V>(d: Dict<V>, k: string, v: V)
    ensures forall x :: x in Keys(Assign(d, k, v)) <==> x in Keys(d) || x == k
  {
    var r := Assign(d, k, v);
    forall x | x in Keys(r)
      ensures x in Keys(d) || x == k
    {
      var i :| 0 <= i < |r| && Keys(r)[i] == x;
      if i < |d| {
        assert Keys(d)[i] == x;
      }
    }
    forall x | x in Keys(d)
      ensures x in Keys(r)
    {
      var i :| 0 <= i < |d| && Keys(d)[i] == x;
      assert Keys(r)[i] == x;
    }
  }

  lemma KeysSnoc<K, V>(pairs: seq<(K, V)>)
    requires |pairs| > 0
    ensures Keys(pairs) == Keys(pairs[..|pairs| - 1]) + [pairs[|pairs| - 1].0]
  {
  }

  /** A dictionary built from pairs with distinct keys holds exactly those pairs, in order. */
  lemma {:induction false} FromPairsDistinct<V>(pairs: seq<(string, V)>)
    requires DistinctKeys(pairs)
    ensures FromPairs(pairs) == pairs
    decreases |pairs|
  {
    if |pairs| > 0 {
      var init := pairs[..|pairs| - 1];
      var last := pairs[|pairs| - 1];
      assert forall i :: 0 <= i < |init| ==> init[i] == pairs[i];
      FromPairsDistinct(init);
      assert last.0 !in Keys(init) by {
        forall i | 0 <= i < |init|
          ensures Keys(init)[i] != last.0
        {
          assert init[i] == pairs[i];
        }
      }
      assert FromPairs(pairs) == Assign(init, last.0, last.1);
      InitLast(pairs);
    }
  }

  lemma InitLast<T>(s: seq<T>)
    requires |s| > 0
    ensures s[..|s| - 1] + [s[|s| - 1]] == s
  {
  }

  /** Extending a dictionary that holds `k`, keys kept in place, leaves the position of `k` alone. */
  lemma {:induction false} KeyIndexExtend<V>(d: Dict<V>, r: Dict<V>, k: string)
    requires |d| <= |r| && forall i :: 0 <= i < |d| ==> r[i].0 == d[i].0
    requires KeyIndex(d, k).Some?
    ensures KeyIndex(r, k) == KeyIndex(d, k)
    decreases |d|
  {
    if d[0].0 != k {
      KeyIndexExtend(d[1..], r[1..], k);
    }
  }

  /** In `dict(pairs)` every key holds the value of its last pair: a later duplicate wins. */
  lemma {:induction false} FromPairsLastWins<V>(pairs: seq<(string, V)>, i: nat)
    requires i < |pairs|
    requires forall j :: i < j < |pairs| ==> pairs[j].0 != pairs[i].0
    ensures var d := FromPairs(pairs);
      KeyIndex(d, pairs[i].0).Some? && d[KeyIndex(d, pairs[i].0).value].1 == pairs[i].1
    decreases |pairs|
  {
    var n := |pairs| - 1;
    var init := pairs[..n];
    var last := pairs[n];
    var before := FromPairs(init);
    var after := Assign(before, last.0, last.1);
    assert FromPairs(pairs) == after;
    if i == n {
      assert KeyIndex(after, last.0).Some? && after[KeyIndex(after, last.0).value].1 == last.1;
    } else {
      assert forall j :: 0 <= j < n ==> init[j] == pairs[j];
      FromPairsLastWins(init, i);
      AssignOtherKey(before, pairs[i].0, last.0, last.1);
      var p := KeyIndex(before, pairs[i].0).value;
      assert KeyIndex(after, pairs[i].0) == Some(p);
      assert after[p].1 == pairs[i].1;
    }
  }

  /** Assigning to one key moves no other key and changes no other value. */
  lemma AssignOtherKey<V>(d: Dict<V>, k: string, other: string, v: V)
    requires KeyIndex(d, k).Some? && other != k
    ensures KeyIndex(Assign(d, other, v), k) == KeyIndex(d, k)
    ensures Assign(d, other, v)[KeyIndex(d, k).value] == d[KeyIndex(d, k).value]
  {
    KeyIndexExtend(d, Assign(d, other, v), k);
  }

  /** `sum(d.values())` */
  function Sum(d: Dict<real>): real
    decreases |d|
  {
    if |d| == 0 then 0.0 else d[0].1 + Sum(d[1..])
  }

  /** `{k: v / t for k, v in d.items()}` */
  function Scale(d: Dict<real>, t: real): (r: Dict<real>)
    requires t != 0.0
    ensures |r| == |d| && forall i :: 0 <= i < |d| ==> r[i] == (d[i].0, d[i].1 / t)
  {
    seq(|d|, i requires 0 <= i < |d| => (d[i].0, d[i].1 / t))
  }

  lemma {:induction false} SumAppend(d: Dict<real>, e: (string, real))
    ensures Sum(d + [e]) == Sum(d) + e.1
    decreases |d|
  {
    if |d| > 0 {
      assert (d + [e])[1..] == d[1..] + [e];
      SumAppend(d[1..], e);
    }
  }

  /** Dividing every weight by `t` divides the total by `t`. */
  lemma {:induction false} SumScale(d: Dict<real>, t: real)
    requires t != 0.0
    ensures Sum(Scale(d, t)) == Sum(d) / t
    decreases |d|
  {
    if |d| > 0 {
      assert Scale(d, t)[1..] == Scale(d[1..], t);
      SumScale(d[1..], t);
    }
  }

  /** The running total of the first `k` weights. */
  function PrefixSum(d: Dict<real>, k: nat): real
    requires k <= |d|
  {
    Sum(d[..k])
  }

  lemma PrefixSumStep(d: Dict<real>, k: nat)
    requires k < |d|
    ensures PrefixSum(d, k + 1) == PrefixSum(d, k) + d[k].1
  {
    assert d[..k + 1] == d[..k] + [d[k]];
    SumAppend(d[..k], d[k]);
  }

  /** What `json.loads` hands the parsers: an object whose values `float()` either
      converts (`Some`) or rejects (`None`), an array of elements as `str(x)` renders
      them, or any other JSON value. A string that is not JSON is `None` at the call site. */
  datatype Json = JObject(entries: seq<(string, Option<real>)>) | JArray(items: seq<string>) | JOther

  /** `{str(k): float(v) for k, v in obj.items()}`: `None` as soon as one value is rejected. */
  function AllNumbers(entries: seq<(string, Option<real>)>): (r: Option<Dict<real>>)
    ensures r.Some? <==> forall i :: 0 <= i < |entries| ==> entries[i].1.Some?
    ensures r.Some? ==> |r.value| == |entries|
    ensures r.Some? ==> forall i :: 0 <= i < |entries| ==> r.value[i] == (entries[i].0, entries[i].1.value)
  {
    if forall i :: 0 <= i < |entries| ==> entries[i].1.Some? then
      Some(seq(|entries|, i requires 0 <= i < |entries| => (entries[i].0, entries[i].1.value)))
    else None
  }
}
