/**
 * Python's `dict` keeps its keys in insertion order, and several operations of the
 * system depend on that order (ranking ties, listing, parsing). A dictionary is
 * modelled as a sequence of key/value pairs: `Get` is `d.get(k)`, `Set` is
 * `d[k] = v` (a new key goes to the end, an existing key keeps its place).
 */
module Dicts {
  import opened Wrappers

  type Dict<K, V> = seq<(K, V)>

  /** The keys in iteration order. */
  function Keys<K, V>(d: Dict<K, V>): (ks: seq<K>)
    ensures |ks| == |d|
    ensures forall i :: 0 <= i < |d| ==> ks[i] == d[i].0
  {
    if d == [] then [] else [d[0].0] + Keys(d[1..])
  }

  predicate HasKey<K(==), V>(d: Dict<K, V>, k: K) {
    k in Keys(d)
  }

  /** Every key occurs once, which every Python dict satisfies. */
  ghost predicate DistinctKeys<K, V>(d: Dict<K, V>) {
    forall i, j :: 0 <= i < j < |d| ==> d[i].0 != d[j].0
  }

  /** `d.get(k)`: the value stored under the first occurrence of `k`. */
  function Get<K(==), V>(d: Dict<K, V>, k: K): Option<V> {
    if d == [] then None
    else if d[0].0 == k then Some(d[0].1)
    else Get(d[1..], k)
  }

  /** `d.get(k)` finds a value exactly when `k` is a key. */
  lemma {:induction false} GetSomeIffHasKey<K, V>(d: Dict<K, V>, k: K)
    ensures Get(d, k).Some? <==> HasKey(d, k)
  {
    if d != [] {
      GetSomeIffHasKey(d[1..], k);
      assert Keys(d) == [d[0].0] + Keys(d[1..]);
    }
  }

  /** `d[k] = v`. */
  function Set<K(==), V>(d: Dict<K, V>, k: K, v: V): (r: Dict<K, V>)
    ensures HasKey(d, k) ==> |r| == |d|
    ensures !HasKey(d, k) ==> r == d + [(k, v)]
  {
    if d == [] then [(k, v)]
    else if d[0].0 == k then [(k, v)] + d[1..]
    else [d[0]] + Set(d[1..], k, v)
  }

  /** Reading back the key just written gives the new value. */
  lemma {:induction false} GetSetSame<K, V>(d: Dict<K, V>, k: K, v: V)
    ensures Get(Set(d, k, v), k) == Some(v)
  {
    if d != [] && d[0].0 != k {
      GetSetSame(d[1..], k, v);
    }
  }

  /** Writing one key leaves every other key's value as it was. */
  lemma {:induction false} GetSetOther<K, V>(d: Dict<K, V>, k: K, v: V, j: K)
    requires j != k
    ensures Get(Set(d, k, v), j) == Get(d, j)
  {
    if d != [] && d[0].0 != k {
      GetSetOther(d[1..], k, v, j);
    }
  }

  /** The keys after `d[k] = v` are the old keys plus `k`. */
  lemma {:induction false} SetKeys<K, V>(d: Dict<K, V>, k: K, v: V)
    ensures forall j :: HasKey(Set(d, k, v), j) <==> HasKey(d, j) || j == k
  {
    forall j ensures HasKey(Set(d, k, v), j) <==> HasKey(d, j) || j == k {
      GetSomeIffHasKey(Set(d, k, v), j);
      GetSomeIffHasKey(d, j);
      if j == k {
        GetSetSame(d, k, v);
      } else {
        GetSetOther(d, k, v, j);
      }
    }
  }

  /** Assignment keeps a dictionary's keys distinct. */
  lemma {:induction false} SetDistinct<K, V>(d: Dict<K, V>, k: K, v: V)
    requires DistinctKeys(d)
    ensures DistinctKeys(Set(d, k, v))
  {
    if d == [] {
      assert Set(d, k, v) == [(k, v)];
    } else if d[0].0 == k {
      TailDistinct(d);
      ConsDistinct((k, v), d[1..]);
    } else {
      TailDistinct(d);
      SetDistinct(d[1..], k, v);
      SetKeys(d[1..], k, v);
      ConsDistinct(d[0], Set(d[1..], k, v));
    }
  }

  /** The tail of a dictionary with distinct keys has distinct keys, none of them the head's. */
  lemma TailDistinct<K, V>(d: Dict<K, V>)
    requires DistinctKeys(d) && d != []
    ensures DistinctKeys(d[1..]) && !HasKey(d[1..], d[0].0)
  {
    forall i, j | 0 <= i < j < |d| - 1 ensures d[1..][i].0 != d[1..][j].0 {
      assert d[1..][i] == d[i + 1] && d[1..][j] == d[j + 1];
    }
    forall m | 0 <= m < |d| - 1 ensures Keys(d[1..])[m] != d[0].0 {
      assert d[1..][m] == d[m + 1];
    }
  }

  /** Putting an entry with a new key in front keeps the keys distinct. */
  lemma ConsDistinct<K, V>(x: (K, V), t: Dict<K, V>)
    requires DistinctKeys(t) && !HasKey(t, x.0)
    ensures DistinctKeys([x] + t)
  {
    var r := [x] + t;
    forall i, j | 0 <= i < j < |r| ensures r[i].0 != r[j].0 {
      assert r[j] == t[j - 1];
      if i == 0 {
        assert Keys(t)[j - 1] == t[j - 1].0;
      } else {
        assert r[i] == t[i - 1];
      }
    }
  }

  /** Every entry after an assignment was there before or is the new one. */
  lemma {:induction false} SetEntries<K, V>(d: Dict<K, V>, k: K, v: V)
    ensures forall e :: e in Set(d, k, v) ==> e in d || e == (k, v)
  {
    if d != [] && d[0].0 != k {
      SetEntries(d[1..], k, v);
      forall e | e in Set(d, k, v) ensures e in d || e == (k, v) {
        if e != d[0] {
          assert e in Set(d[1..], k, v);
        }
      }
    } else if d != [] {
      forall e | e in Set(d, k, v) ensures e in d || e == (k, v) {
        if e != (k, v) {
          assert e in d[1..];
        }
      }
    }
  }

  /** In a dictionary with distinct keys, `Get` finds the value at the key's position. */
  lemma {:induction false} GetAt<K, V>(d: Dict<K, V>, i: nat)
    requires DistinctKeys(d) && i < |d|
    ensures Get(d, d[i].0) == Some(d[i].1)
  {
    if i > 0 {
      GetAt(d[1..], i - 1);
    }
  }
}
