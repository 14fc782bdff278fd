/**
 * PHP's string- or integer-keyed arrays as ordered dictionaries: a list of
 * (key, value) pairs in insertion order. `$a[$k] = $v` replaces the value in
 * place when the key exists and appends otherwise; `array_merge` applies the
 * right-hand entries one after another.
 */
module Dict {
  import opened Wrappers

  type Dict<K, V> = seq<(K, V)>

  function Keys<K, V>(d: Dict<K, V>): (ks: seq<K>)
    ensures |ks| == |d|
    ensures forall i | 0 <= i < |d| :: ks[i] == d[i].0
  {
    seq(|d|, i requires 0 <= i < |d| => d[i].0)
  }

  predicate HasKey<K(==), V>(d: Dict<K, V>, k: K)
  {
    k in Keys(d)
  }

  /** A PHP array never holds a key twice. */
  predicate UniqueKeys<K(==), V>(d: Dict<K, V>)
  {
    forall i, j | 0 <= i < j < |d| :: d[i].0 != d[j].0
  }

  /** `$d[$k] ?? null`: the value stored under `k`, if any. */
  function Get<K(==), V>(d: Dict<K, V>, k: K): (r: Option<V>)
    ensures r.None? <==> !HasKey(d, k)
    ensures r.Some? ==> (k, r.value) in d
  {
    if |d| == 0 then None
    else if d[0].0 == k then Some(d[0].1)
    else
      assert Keys(d) == [d[0].0] + Keys(d[1..]);
      Get(d[1..], k)
  }

  /** `$d[$k] = $v`: replaced in place when the key exists, appended otherwise. */
  function Set<K(==,!new), V>(d: Dict<K, V>, k: K, v: V): (r: Dict<K, V>)
    ensures Get(r, k) == Some(v)
    ensures forall k' | k' != k :: Get(r, k') == Get(d, k')
    ensures HasKey(d, k) ==> |r| == |d| && forall i | 0 <= i < |d| :: r[i].0 == d[i].0
    ensures !HasKey(d, k) ==> r == d + [(k, v)]
  {
    AssignGet(d, k, v);
    AssignOther(d, k, v);
    AssignShape(d, k, v);
    Assign(d, k, v)
  }

  /** The entry-by-entry definition behind `Set`. */
  function Assign<K(==), V>(d: Dict<K, V>, k: K, v: V): Dict<K, V>
  {
    if |d| == 0 then [(k, v)]
    else if d[0].0 == k then [(k, v)] + d[1..]
    else [d[0]] + Assign(d[1..], k, v)
  }

  lemma {:induction false} AssignGet<K, V>(d: Dict<K, V>, k: K, v: V)
    ensures Get(Assign(d, k, v), k) == Some(v)
  {
    if |d| > 0 && d[0].0 != k {
      AssignGet(d[1..], k, v);
      assert Assign(d, k, v)[1..] == Assign(d[1..], k, v);
    }
  }

  lemma {:induction false} AssignOther<K, V>(d: Dict<K, V>, k: K, v: V)
    ensures forall k' | k' != k :: Get(Assign(d, k, v), k') == Get(d, k')
  {
    if |d| > 0 {
      var r := Assign(d, k, v);
      if d[0].0 == k {
        assert r[1..] == d[1..];
      } else {
        AssignOther(d[1..], k, v);
        assert r[1..] == Assign(d[1..], k, v);
      }
    }
  }

  lemma {:induction false} AssignShape<K, V>(d: Dict<K, V>, k: K, v: V)
    ensures HasKey(d, k) ==> |Assign(d, k, v)| == |d| && forall i | 0 <= i < |d| :: Assign(d, k, v)[i].0 == d[i].0
    ensures !HasKey(d, k) ==> Assign(d, k, v) == d + [(k, v)]
  {
    if |d| > 0 {
      assert Keys(d) == [d[0].0] + Keys(d[1..]);
      if d[0].0 != k {
        AssignShape(d[1..], k, v);
        assert d == [d[0]] + d[1..];
      }
    }
  }

  /** `array_merge($a, $b)` for string keys: entries of `b` overwrite or extend `a`. */
  function Merge<K(==,!new), V>(a: Dict<K, V>, b: Dict<K, V>): (r: Dict<K, V>)
    ensures forall k | !HasKey(b, k) :: Get(r, k) == Get(a, k)
    ensures forall k | HasKey(a, k) || HasKey(b, k) :: HasKey(r, k)
    decreases |b|
  {
    if |b| == 0 then a
    else
      assert Keys(b) == [b[0].0] + Keys(b[1..]);
      Merge(Set(a, b[0].0, b[0].1), b[1..])
  }

  /** An entry of the right-hand array always wins the merge. */
  lemma {:induction false} MergeRightWins<K(!new), V>(a: Dict<K, V>, b: Dict<K, V>, k: K)
    requires UniqueKeys(b) && HasKey(b, k)
    ensures Get(Merge(a, b), k) == Get(b, k)
    decreases |b|
  {
    UniqueTail(b);
    KeysCons(b);
    var a' := Set(a, b[0].0, b[0].1);
    assert Merge(a, b) == Merge(a', b[1..]);
    if b[0].0 != k {
      MergeRightWins(a', b[1..], k);
    }
  }

  /** The entries after the first of a PHP array have unique keys, none of them the first key. */
  lemma UniqueTail<K, V>(d: Dict<K, V>)
    requires UniqueKeys(d) && |d| > 0
    ensures UniqueKeys(d[1..])
    ensures !HasKey(d[1..], d[0].0)
  {
    forall j | 0 <= j < |d| - 1
      ensures Keys(d[1..])[j] != d[0].0
    {
      assert d[1..][j] == d[j + 1];
    }
  }

  lemma KeysCons<K, V>(d: Dict<K, V>)
    requires |d| > 0
    ensures Keys(d) == [d[0].0] + Keys(d[1..])
  {
  }
}
