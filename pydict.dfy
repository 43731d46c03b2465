/**
 * Python's `dict`: an insertion-ordered mapping. Assigning to an existing key
 * keeps its position and replaces the value; a new key goes to the end.
 */
module PyDict {
  import opened Wrappers

  type Dict<K, V> = seq<(K, V)>

  /** `list(d.keys())`, in insertion order. */
  function Keys<K(==), V>(d: Dict<K, V>): seq<K>
  {
    seq(|d|, i requires 0 <= i < |d| => d[i].0)
  }

  /** The set of keys of `d`. */
  function KeySet<K(==), V>(d: Dict<K, V>): set<K>
  {
    set i | 0 <= i < |d| :: d[i].0
  }

  /** Keys occur at most once: what every Python `dict` satisfies. */
  ghost predicate DistinctKeys<K, V>(d: Dict<K, V>)
  {
    forall i, j :: 0 <= i < j < |d| ==> d[i].0 != d[j].0
  }

  /** `d.get(k)`: the value of the first entry with key `k`. */
  function Get<K(==), V>(d: Dict<K, V>, k: K): Option<V>
    decreases |d|
  {
    if |d| == 0 then None
    else if d[0].0 == k then Some(d[0].1)
    else Get(d[1..], k)
  }

  /** `d.get(k)` finds something exactly when `k` is a key of `d`, and what it finds is stored under `k`. */
  lemma {:induction false} GetSomeIff<K, V>(d: Dict<K, V>, k: K)
    ensures Get(d, k).Some? <==> k in KeySet(d)
    ensures Get(d, k).Some? ==> exists p :: 0 <= p < |d| && d[p] == (k, Get(d, k).value)
    decreases |d|
  {
    if |d| > 0 {
      KeySetCons(d[0], d[1..]);
      assert d == [d[0]] + d[1..];
      GetSomeIff(d[1..], k);
      if d[0].0 != k && Get(d, k).Some? {
        var p :| 0 <= p < |d[1..]| && d[1..][p] == (k, Get(d, k).value);
        assert d[p + 1] == d[1..][p];
      }
    }
  }

  /** `d[k] = v`. */
  function Set<K(==), V>(d: Dict<K, V>, k: K, v: V): (r: Dict<K, V>)
    decreases |d|
  {
    if |d| == 0 then [(k, v)]
    else if d[0].0 == k then [(k, v)] + d[1..]
    else [d[0]] + Set(d[1..], k, v)
  }

  /** `dict(zip(ks, vs))`: pairs in order, up to the shorter of the two. */
  function FromZip<K(==), V>(ks: seq<K>, vs: seq<V>): Dict<K, V>
    decreases |ks|
  {
    var n := if |ks| < |vs| then |ks| else |vs|;
    if n == 0 then [] else Set(FromZip(ks[..n - 1], vs[..n - 1]), ks[n - 1], vs[n - 1])
  }

  lemma {:induction false} KeySetCons<K, V>(e: (K, V), d: Dict<K, V>)
    ensures KeySet([e] + d) == {e.0} + KeySet(d)
  {
    var d' := [e] + d;
    forall x | x in KeySet(d') ensures x in {e.0} + KeySet(d) {
      var i :| 0 <= i < |d'| && d'[i].0 == x;
      if i > 0 { assert d[i - 1].0 == x; }
    }
    forall x | x in KeySet(d) ensures x in KeySet(d') {
      var i :| 0 <= i < |d| && d[i].0 == x;
      assert d'[i + 1].0 == x;
    }
    assert d'[0].0 == e.0;
  }

  /** After `d[k] = v`, looking up `k` gives `v` and every other key is as before. */
  lemma {:induction false} GetSet<K, V>(d: Dict<K, V>, k: K, v: V, k': K)
    ensures Get(Set(d, k, v), k') == if k' == k then Some(v) else Get(d, k')
    decreases |d|
  {
    if |d| > 0 && d[0].0 != k {
      GetSet(d[1..], k, v, k');
    }
  }

  lemma KeysCons<K, V>(e: (K, V), d: Dict<K, V>)
    ensures Keys([e] + d) == [e.0] + Keys(d)
  {
  }

  /** `d[k] = v` keeps the position of an existing key and appends a new one. */
  lemma {:induction false} KeysSet<K, V>(d: Dict<K, V>, k: K, v: V)
    ensures Keys(Set(d, k, v)) == if k in KeySet(d) then Keys(d) else Keys(d) + [k]
    decreases |d|
  {
    if |d| == 0 {
      KeySetCons((k, v), d);
    } else {
      KeySetCons(d[0], d[1..]);
      assert d == [d[0]] + d[1..];
      if d[0].0 == k {
        KeysCons(d[0], d[1..]);
        KeysCons((k, v), d[1..]);
      } else {
        KeysSet(d[1..], k, v);
        KeysCons(d[0], d[1..]);
        KeysCons(d[0], Set(d[1..], k, v));
      }
    }
  }

  lemma KeySetSet<K, V>(d: Dict<K, V>, k: K, v: V)
    ensures KeySet(Set(d, k, v)) == KeySet(d) + {k}
  {
    KeysSet(d, k, v);
    var r := Set(d, k, v);
    assert forall i :: 0 <= i < |r| ==> Keys(r)[i] == r[i].0;
    assert forall i :: 0 <= i < |d| ==> Keys(d)[i] == d[i].0;
    if k in KeySet(d) {
      assert |r| == |d|;
      assert forall i :: 0 <= i < |d| ==> r[i].0 == d[i].0;
    } else {
      assert |r| == |d| + 1;
      assert forall i :: 0 <= i < |d| ==> r[i].0 == d[i].0;
      assert r[|d|].0 == k;
    }
  }

  /**
   * With distinct column names and as many values as names, `dict(zip(ks, vs))`
   * is exactly the pairs `(ks[i], vs[i])` in order.
   */
  lemma {:induction false} FromZipExact<K, V>(ks: seq<K>, vs: seq<V>)
    requires |ks| == |vs|
    requires forall i, j :: 0 <= i < j < |ks| ==> ks[i] != ks[j]
    ensures FromZip(ks, vs) == seq(|ks|, i requires 0 <= i < |ks| => (ks[i], vs[i]))
    decreases |ks|
  {
    var n := |ks|;
    if n > 0 {
      var ks', vs' := ks[..n - 1], vs[..n - 1];
      FromZipExact(ks', vs');
      var prev := FromZip(ks', vs');
      assert forall i :: 0 <= i < |prev| ==> prev[i].0 != ks[n - 1];
      AppendNewKey(prev, ks[n - 1], vs[n - 1]);
    }
  }

  lemma {:induction false} AppendNewKey<K, V>(d: Dict<K, V>, k: K, v: V)
    requires k !in KeySet(d)
    ensures Set(d, k, v) == d + [(k, v)]
    decreases |d|
  {
    if |d| > 0 {
      KeySetCons(d[0], d[1..]);
      assert d == [d[0]] + d[1..];
      AppendNewKey(d[1..], k, v);
    }
  }

  /** With distinct keys, `Get` finds the value stored at the key's position. */
  lemma {:induction false} GetAt<K, V>(d: Dict<K, V>, i: nat)
    requires DistinctKeys(d) && i < |d|
    ensures Get(d, d[i].0) == Some(d[i].1)
    decreases i
  {
    if i > 0 {
      GetAt(d[1..], i - 1);
    }
  }
}
