/**
 * AddTaskFactoryPass: the container compiler pass that registers every
 * service tagged 'tenside.taskfactory' with the task factory, highest
 * priority first and, within one priority, in discovery order.
 */
module TaskFactoryPass {
  import opened Wrappers

  /** A tagged service: its id and the 'priority' attribute of its first tag, if set. */
  datatype Tagged = Tagged(id: string, firstPriority: Option<int>)

  /** The factory definition's registered `add` calls, by service id; `None` when the container has no such definition. */
  datatype Container = Container(factoryCalls: Option<seq<string>>)

  function Priority(t: Tagged): int
  {
    t.firstPriority.GetOr(0)
  }

  /** The services of priority `p`, in their order. */
  function Filter(s: seq<Tagged>, p: int): (r: seq<Tagged>)
    ensures |r| <= |s|
    ensures forall i | 0 <= i < |r| :: Priority(r[i]) == p
  {
    if |s| == 0 then []
    else (if Priority(s[0]) == p then [s[0]] else []) + Filter(s[1..], p)
  }

  lemma {:induction false} FilterAppend(a: seq<Tagged>, b: seq<Tagged>, p: int)
    ensures Filter(a + b, p) == Filter(a, p) + Filter(b, p)
  {
    if |a| == 0 {
      assert a + b == b;
    } else {
      assert (a + b)[0] == a[0];
      assert (a + b)[1..] == a[1..] + b;
      FilterAppend(a[1..], b, p);
    }
  }

  lemma {:induction false} FilterFilter(s: seq<Tagged>, k: int, p: int)
    ensures Filter(Filter(s, k), p) == if k == p then Filter(s, k) else []
  {
    if |s| > 0 {
      FilterFilter(s[1..], k, p);
      var tail := Filter(s[1..], k);
      if Priority(s[0]) == k {
        assert Filter(s, k) == [s[0]] + tail;
        assert ([s[0]] + tail)[1..] == tail;
      } else {
        assert Filter(s, k) == tail;
      }
    }
  }

  lemma {:induction false} FilterOfAbsent(s: seq<Tagged>, p: int)
    requires forall i | 0 <= i < |s| :: Priority(s[i]) != p
    ensures Filter(s, p) == []
  {
    if |s| > 0 {
      FilterOfAbsent(s[1..], p);
    }
  }

  predicate StrictlyDescending(keys: seq<int>)
  {
    forall i, j | 0 <= i < j < |keys| :: keys[i] > keys[j]
  }

  /** `k` placed into a strictly descending list, unless it is there already. */
  function Insert(keys: seq<int>, k: int): (r: seq<int>)
    requires StrictlyDescending(keys)
    ensures StrictlyDescending(r)
    ensures forall x :: x in r <==> x in keys || x == k
  {
    if |keys| == 0 then [k]
    else if keys[0] == k then keys
    else if keys[0] < k then [k] + keys
    else
      var rest := Insert(keys[1..], k);
      assert forall x | x in keys[1..] :: x < keys[0];
      assert forall i | 0 <= i < |rest| :: rest[i] < keys[0] by {
        forall i | 0 <= i < |rest|
          ensures rest[i] < keys[0]
        {
          assert rest[i] in rest;
        }
      }
      [keys[0]] + rest
  }

  /** The keys of the priority groups after `krsort`: every priority once, highest first. */
  function SortedPriorities(s: seq<Tagged>): (keys: seq<int>)
    ensures StrictlyDescending(keys)
    ensures forall p :: p in keys <==> exists i | 0 <= i < |s| :: Priority(s[i]) == p
    decreases |s|
  {
    if |s| == 0 then []
    else
      var prev := SortedPriorities(s[..|s| - 1]);
      var r := Insert(prev, Priority(s[|s| - 1]));
      assert forall i | 0 <= i < |s| - 1 :: s[..|s| - 1][i] == s[i];
      r
  }

  /** The groups in the order of `keys`, concatenated (`array_merge` over the sorted groups). */
  function Flatten(s: seq<Tagged>, keys: seq<int>): (r: seq<Tagged>)
    ensures forall i | 0 <= i < |r| :: Priority(r[i]) in keys
  {
    if |keys| == 0 then []
    else
      var head := Filter(s, keys[0]);
      var rest := Flatten(s, keys[1..]);
      assert forall i | 0 <= i < |rest| :: Priority(rest[i]) in keys;
      head + rest
  }

  /** Taking the services of one priority from the flattened groups gives that priority's group, or nothing. */
  lemma {:induction false} FilterOfFlatten(s: seq<Tagged>, keys: seq<int>, p: int)
    requires StrictlyDescending(keys)
    ensures Filter(Flatten(s, keys), p) == if p in keys then Filter(s, p) else []
  {
    if |keys| > 0 {
      FilterAppend(Filter(s, keys[0]), Flatten(s, keys[1..]), p);
      FilterFilter(s, keys[0], p);
      FilterOfFlatten(s, keys[1..], p);
      if p == keys[0] {
        assert p !in keys[1..];
      }
    }
  }

  /** Priorities never rise along the list. */
  predicate ByDescendingPriority(r: seq<Tagged>)
  {
    forall i, j | 0 <= i < j < |r| :: Priority(r[i]) >= Priority(r[j])
  }

  /** The flattened groups never rise in priority. */
  lemma {:induction false} FlattenDescending(s: seq<Tagged>, keys: seq<int>)
    requires StrictlyDescending(keys)
    ensures ByDescendingPriority(Flatten(s, keys))
  {
    if |keys| > 0 {
      FlattenDescending(s, keys[1..]);
      var head := Filter(s, keys[0]);
      var rest := Flatten(s, keys[1..]);
      var r := head + rest;
      forall i, j | 0 <= i < j < |r|
        ensures Priority(r[i]) >= Priority(r[j])
      {
        if j < |head| {
          assert r[i] == head[i] && r[j] == head[j];
          assert Priority(head[i]) == keys[0] && Priority(head[j]) == keys[0];
        } else if i < |head| {
          assert r[i] == head[i];
          assert Priority(head[i]) == keys[0];
          assert rest[j - |head|] == r[j];
          assert Priority(r[j]) in keys[1..];
          var m :| 0 <= m < |keys| - 1 && keys[1..][m] == Priority(r[j]);
          assert keys[m + 1] == Priority(r[j]);
          assert keys[0] > keys[m + 1];
        } else {
          assert r[i] == rest[i - |head|] && r[j] == rest[j - |head|];
        }
      }
    }
  }

  /** The services in the order the pass registers them. */
  function Ordered(s: seq<Tagged>): seq<Tagged>
  {
    Flatten(s, SortedPriorities(s))
  }

  /** `process`: the container after the pass. */
  function Process(c: Container, tagged: seq<Tagged>): (r: Container)
    ensures c.factoryCalls.None? || |tagged| == 0 ==> r == c
    ensures c.factoryCalls.Some? ==> exists added: seq<Tagged> ::
      && |added| == |tagged|
      && r.factoryCalls == Some(c.factoryCalls.value + seq(|added|, i requires 0 <= i < |added| => added[i].id))
      && ByDescendingPriority(added)
      && (forall p :: Filter(added, p) == Filter(tagged, p))
  {
    if c.factoryCalls.None? then c
    else if |tagged| == 0 then
      var added: seq<Tagged> := [];
      assert c.factoryCalls.value + seq(|added|, i requires 0 <= i < |added| => added[i].id) == c.factoryCalls.value;
      c
    else
      var added := Ordered(tagged);
      OrderedIsStableSort(tagged);
      Container(Some(c.factoryCalls.value + seq(|added|, i requires 0 <= i < |added| => added[i].id)))
  }

  /**
   * The registration order is a stable sort by descending priority: it never
   * rises in priority, each priority keeps exactly its services in discovery
   * order, and so every tagged service is registered exactly once.
   */
  lemma OrderedIsStableSort(s: seq<Tagged>)
    ensures ByDescendingPriority(Ordered(s))
    ensures forall p :: Filter(Ordered(s), p) == Filter(s, p)
    ensures multiset(Ordered(s)) == multiset(s)
    ensures |Ordered(s)| == |s|
  {
    FlattenDescending(s, SortedPriorities(s));
    assert Ordered(s) == Flatten(s, SortedPriorities(s));
    forall p
      ensures Filter(Ordered(s), p) == Filter(s, p)
    {
      OrderedKeepsGroup(s, p);
    }
    SameFiltersSameMultiset(Ordered(s), s);
  }

  lemma OrderedKeepsGroup(s: seq<Tagged>, p: int)
    ensures Filter(Ordered(s), p) == Filter(s, p)
  {
    var keys := SortedPriorities(s);
    FilterOfFlatten(s, keys, p);
    if p !in keys {
      FilterOfAbsent(s, p);
    }
  }

  /** How often `t` occurs among the services of priority `p`. */
  lemma {:induction false} MultisetOfFilter(s: seq<Tagged>, t: Tagged)
    ensures multiset(Filter(s, Priority(t)))[t] == multiset(s)[t]
  {
    if |s| > 0 {
      MultisetOfFilter(s[1..], t);
      assert s == [s[0]] + s[1..];
    }
  }

  /** Two lists with the same services at every priority are permutations of each other. */
  lemma SameFiltersSameMultiset(a: seq<Tagged>, b: seq<Tagged>)
    requires forall p :: Filter(a, p) == Filter(b, p)
    ensures multiset(a) == multiset(b)
    ensures |a| == |b|
  {
    forall t
      ensures multiset(a)[t] == multiset(b)[t]
    {
      MultisetOfFilter(a, t);
      MultisetOfFilter(b, t);
    }
    assert multiset(a) == multiset(b);
    assert |multiset(a)| == |a| && |multiset(b)| == |b|;
  }
}
