/** A Python `dict` with string keys, as a list of (key, value) pairs in
    insertion order: assigning an existing key keeps its position, a new
    key goes to the end. */
module OrderedDict {
  import opened Wrappers

  type Dict<V> = seq<(string, V)>

  function Keys<V>(d: Dict<V>): (ks: seq<string>)
    ensures |ks| == |d|
  {
    if d == [] then [] else [d[0].0] + Keys(d[1..])
  }

  lemma {:induction false} KeysAt<V>(d: Dict<V>, i: nat)
    requires i < |d|
    ensures Keys(d)[i] == d[i].0
  {
    if i > 0 { KeysAt(d[1..], i - 1); }
  }

  predicate DistinctKeys<V>(d: Dict<V>)
  {
    forall i, j :: 0 <= i < j < |d| ==> d[i].0 != d[j].0
  }

  /** `d.get(k)`: the value stored under `k`, None when `k` is not a key. */
  function Get<V>(d: Dict<V>, k: string): Option<V>
  {
    if d == [] then None
    else if d[0].0 == k then Some(d[0].1)
    else Get(d[1..], k)
  }

  /** A lookup fails exactly for the keys the dictionary does not hold. */
  lemma {:induction false} GetNone<V>(d: Dict<V>, k: string)
    ensures Get(d, k).None? <==> k !in Keys(d)
  {
    if d != [] && d[0].0 != k {
      GetNone(d[1..], k);
    }
  }

  /** `d[k] = v`. */
  function Set<V>(d: Dict<V>, k: string, v: V): (r: Dict<V>)
    ensures Get(r, k) == Some(v)
    ensures forall k' :: k' != k ==> Get(r, k') == Get(d, k')
  {
    if d == [] then [(k, v)]
    else if d[0].0 == k then [(k, v)] + d[1..]
    else [d[0]] + Set(d[1..], k, v)
  }

  /** Assigning a present key keeps the key order; a new key is appended. */
  lemma {:induction false} SetKeys<V>(d: Dict<V>, k: string, v: V)
    ensures Keys(Set(d, k, v)) == if Get(d, k).Some? then Keys(d) else Keys(d) + [k]
  {
    if d == [] {
    } else if d[0].0 == k {
      assert Keys([(k, v)] + d[1..]) == Keys(d);
    } else {
      SetKeys(d[1..], k, v);
      assert Keys([d[0]] + Set(d[1..], k, v)) == [d[0].0] + Keys(Set(d[1..], k, v));
      assert Keys(d) == [d[0].0] + Keys(d[1..]);
    }
  }

  /** Assignment never duplicates a key. */
  lemma {:induction false} SetDistinct<V>(d: Dict<V>, k: string, v: V)
    requires DistinctKeys(d)
    ensures DistinctKeys(Set(d, k, v))
  {
    var r := Set(d, k, v);
    SetKeys(d, k, v);
    forall i, j | 0 <= i < j < |r| ensures r[i].0 != r[j].0 {
      KeysAt(r, i); KeysAt(r, j);
      if j < |d| {
        KeysAt(d, i); KeysAt(d, j);
      } else {
        KeysAt(d, i);
        GetNone(d, k);
        assert Keys(r)[j] == k && k !in Keys(d);
        assert Keys(d)[i] in Keys(d);
      }
    }
  }

  /** Assigning a key the value it already has changes nothing. */
  lemma {:induction false} SetIdem<V>(d: Dict<V>, k: string, v: V)
    ensures Set(Set(d, k, v), k, v) == Set(d, k, v)
  {
    if d != [] && d[0].0 != k {
      SetIdem(d[1..], k, v);
      assert ([d[0]] + Set(d[1..], k, v))[1..] == Set(d[1..], k, v);
    } else if d != [] {
      assert ([(k, v)] + d[1..])[1..] == d[1..];
    }
  }

  /** Each entry after an assignment is the assigned pair or the entry
      that was at that position. */
  lemma {:induction false} SetAt<V>(d: Dict<V>, k: string, v: V, i: nat)
    requires i < |Set(d, k, v)|
    ensures Set(d, k, v)[i] == (k, v) || (i < |d| && Set(d, k, v)[i] == d[i])
  {
    if d != [] && d[0].0 != k && i > 0 {
      SetAt(d[1..], k, v, i - 1);
    }
  }

  /** A second assignment to a key overrides the first. */
  lemma {:induction false} SetTwice<V>(d: Dict<V>, k: string, v: V, w: V)
    ensures Set(Set(d, k, v), k, w) == Set(d, k, w)
  {
    if d != [] && d[0].0 != k {
      SetTwice(d[1..], k, v, w);
      assert ([d[0]] + Set(d[1..], k, v))[1..] == Set(d[1..], k, v);
    } else if d != [] {
      assert ([(k, v)] + d[1..])[1..] == d[1..];
    }
  }
}
