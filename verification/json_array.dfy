/**
 * Reading a decoded JSON request body the way the controllers do: through a
 * `JsonArray` whose `has('a/b')` and `get('a/b')` walk nested arrays one
 * path segment at a time, and through plain PHP indexing `$info['k']`.
 * A path is given here as its list of segments.
 */
module JsonArray {
  import opened Wrappers
  import opened Php
  import Dict

  /** The entry stored under the string key `k`, when `v` is an array holding that key. */
  function Child(v: Value, k: string): (r: Option<Value>)
    ensures r.None? <==> !v.Arr? || !Dict.HasKey(v.entries, StrKey(k))
    ensures r.Some? ==> v.Arr? && (StrKey(k), r.value) in v.entries
  {
    if v.Arr? then Dict.Get(v.entries, StrKey(k)) else None
  }

  /** `$v['k']`: the entry, or null when there is none. */
  function Index(v: Value, k: string): (r: Value)
    ensures Child(v, k).Some? ==> r == Child(v, k).value
    ensures Child(v, k).None? ==> r == Null
  {
    Child(v, k).GetOr(Null)
  }

  /** The value reached by following `path` from `v`, if every step exists. */
  function At(v: Value, path: seq<string>): (r: Option<Value>)
    ensures |path| == 0 ==> r == Some(v)
    ensures |path| > 0 && Child(v, path[0]).None? ==> r.None?
    decreases |path|
  {
    if |path| == 0 then Some(v)
    else
      match Child(v, path[0])
      case None => None
      case Some(c) => At(c, path[1..])
  }

  /** `JsonArray::has($path)`. */
  predicate Has(v: Value, path: seq<string>)
  {
    At(v, path).Some?
  }

  /** `JsonArray::get($path)`: the value at `path`, null when it is missing. */
  function Get(v: Value, path: seq<string>): (r: Value)
    ensures Has(v, path) ==> Some(r) == At(v, path)
    ensures !Has(v, path) ==> r == Null
  {
    At(v, path).GetOr(Null)
  }

  /** Walking `p + q` is walking `p`, then `q` from where `p` ended. */
  lemma {:induction false} AtAppend(v: Value, p: seq<string>, q: seq<string>)
    ensures At(v, p + q) == (if At(v, p).Some? then At(At(v, p).value, q) else None)
    decreases |p|
  {
    if |p| > 0 {
      assert (p + q)[0] == p[0];
      assert (p + q)[1..] == p[1..] + q;
      match Child(v, p[0])
      case None =>
      case Some(c) => AtAppend(c, p[1..], q);
    } else {
      assert p + q == q;
    }
  }

  /** A path that exists passes through every one of its prefixes. */
  lemma HasPrefix(v: Value, p: seq<string>, q: seq<string>)
    requires Has(v, p + q)
    ensures Has(v, p)
  {
    AtAppend(v, p, q);
  }

  /** A two-segment path is two single steps. */
  lemma AtPair(v: Value, a: string, b: string)
    ensures At(v, [a, b]) == (if Child(v, a).Some? then Child(Child(v, a).value, b) else None)
  {
    if Child(v, a).Some? {
      var c := Child(v, a).value;
      assert [a, b][1..] == [b];
      assert [b][1..] == [];
    }
  }
}
