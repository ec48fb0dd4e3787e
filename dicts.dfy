/**
 * A string-keyed Python `dict`: its entries in insertion order, each key once.
 * Assigning to a present key replaces its value where it stands; a new key goes at the end.
 */
module Dicts {
  import opened Wrappers

  type Dict<V> = seq<(string, V)>

  function Keys<V>(d: Dict<V>): set<string> {
    set i | 0 <= i < |d| :: d[i].0
  }

  lemma KeysCons<V>(e: (string, V), d: Dict<V>)
    ensures Keys([e] + d) == {e.0} + Keys(d)
  {
    var c := [e] + d;
    forall k | k in Keys(d) ensures k in Keys(c) {
      var i :| 0 <= i < |d| && d[i].0 == k;
      assert c[i + 1] == d[i];
    }
    assert c[0] == e;
  }

  ghost predicate DistinctKeys<V>(d: Dict<V>) {
    forall i, j :: 0 <= i < j < |d| ==> d[i].0 != d[j].0
  }

  /** `d.get(k)` */
  function Get<V>(d: Dict<V>, k: string): (r: Option<V>)
    ensures r.Some? <==> k in Keys(d)
    ensures r.Some? ==> (k, r.value) in d
  {
    if d == [] then None
    else if d[0].0 == k then Some(d[0].1)
    else
      KeysCons(d[0], d[1..]);
      assert d == [d[0]] + d[1..];
      Get(d[1..], k)
  }

  /** `d[k] = v`: a new key is appended; a present key keeps its place and every other entry its own. */
  function Put<V>(d: Dict<V>, k: string, v: V): (r: Dict<V>)
    ensures Keys(r) == Keys(d) + {k}
    ensures k !in Keys(d) ==> r == d + [(k, v)]
    ensures k in Keys(d) ==> |r| == |d| && forall i :: 0 <= i < |d| && d[i].0 != k ==> r[i] == d[i]
  {
    if d == [] then
      KeysCons((k, v), []);
      [(k, v)]
    else
      KeysCons(d[0], d[1..]);
      assert d == [d[0]] + d[1..];
      if d[0].0 == k then
        KeysCons((k, v), d[1..]);
        [(k, v)] + d[1..]
      else
        var rest := Put(d[1..], k, v);
        KeysCons(d[0], rest);
        [d[0]] + rest
  }

  /** After `d[k] = v`, looking up `k` gives `v` and every other key gives what it gave before. */
  lemma {:induction false} PutGet<V>(d: Dict<V>, k: string, v: V, k': string)
    ensures Get(Put(d, k, v), k') == if k' == k then Some(v) else Get(d, k')
  {
    if d != [] && d[0].0 != k {
      PutGet(d[1..], k, v, k');
    }
  }

  /** Assignment keeps every key at most once. */
  lemma {:induction false} PutDistinct<V>(d: Dict<V>, k: string, v: V)
    requires DistinctKeys(d)
    ensures DistinctKeys(Put(d, k, v))
  {
    if d != [] && d[0].0 != k {
      assert d == [d[0]] + d[1..];
      DistinctCons(d[0], d[1..]);
      PutDistinct(d[1..], k, v);
      DistinctCons(d[0], Put(d[1..], k, v));
    }
  }

  /** A dict with a first entry has distinct keys iff its first key is not among the rest and the rest are distinct. */
  lemma DistinctCons<V>(e: (string, V), t: Dict<V>)
    ensures DistinctKeys([e] + t) <==> e.0 !in Keys(t) && DistinctKeys(t)
  {
    var c := [e] + t;
    if DistinctKeys(c) {
      forall x | x in Keys(t) ensures x != e.0 {
        var i :| 0 <= i < |t| && t[i].0 == x;
        assert c[0] == e && c[i + 1] == t[i];
        assert c[0].0 != c[i + 1].0;
      }
      forall i, j | 0 <= i < j < |t| ensures t[i].0 != t[j].0 {
        assert c[i + 1] == t[i] && c[j + 1] == t[j];
      }
    }
    if e.0 !in Keys(t) && DistinctKeys(t) {
      forall i, j | 0 <= i < j < |c| ensures c[i].0 != c[j].0 {
        assert c[j] == t[j - 1];
        if i == 0 {
          assert t[j - 1].0 in Keys(t);
        } else {
          assert c[i] == t[i - 1];
        }
      }
    }
  }
}
