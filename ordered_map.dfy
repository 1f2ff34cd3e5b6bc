/** A JavaScript `Map<number, T>` as a value: its entries together with the
    order in which their keys were first inserted, which is the order of
    `map.values()`. `set` on a present key replaces the value in place. */
module OrderedMap {
  import opened Wrappers
  import opened Sequences

  datatype OMap<T> = OMap(keys: seq<int>, entries: map<int, T>)

  /** No element occurs twice. */
  ghost predicate Distinct(s: seq<int>) {
    s == [] || (s[0] !in s[1..] && Distinct(s[1..]))
  }

  /** Every key appears once in the order, and the order lists exactly the keys. */
  ghost predicate Wf<T>(m: OMap<T>) {
    && Distinct(m.keys)
    && (forall i :: 0 <= i < |m.keys| ==> m.keys[i] in m.entries)
    && (forall k :: k in m.entries ==> k in m.keys)
  }

  /** `new Map()`. */
  function Empty<T>(): (m: OMap<T>)
    ensures Wf(m) && m.entries == map[]
  {
    OMap([], map[])
  }

  /** The values at `keys`, in that order. */
  function Project<T>(entries: map<int, T>, keys: seq<int>): (r: seq<T>)
    requires forall i :: 0 <= i < |keys| ==> keys[i] in entries
    ensures |r| == |keys|
    ensures forall i :: 0 <= i < |keys| ==> r[i] == entries[keys[i]]
  {
    seq(|keys|, i requires 0 <= i < |keys| => entries[keys[i]])
  }

  /** `Array.from(map.values())`: the values in insertion order. */
  function Values<T>(m: OMap<T>): seq<T>
    requires Wf(m)
  {
    Project(m.entries, m.keys)
  }

  /** The values are exactly the values of the entries. */
  lemma ValuesAreEntries<T>(m: OMap<T>, v: T)
    requires Wf(m)
    ensures v in Values(m) <==> exists k :: k in m.entries && m.entries[k] == v
  {
    if exists k :: k in m.entries && m.entries[k] == v {
      var k :| k in m.entries && m.entries[k] == v;
      var i :| 0 <= i < |m.keys| && m.keys[i] == k;
      assert Values(m)[i] == v;
    }
  }

  /** `map.get(k)`. */
  function Get<T>(m: OMap<T>, k: int): (r: Option<T>)
    ensures r.Some? <==> k in m.entries
    ensures r.Some? ==> r.value == m.entries[k]
  {
    if k in m.entries then Some(m.entries[k]) else None
  }

  /** `map.set(k, v)`: a new key goes to the end of the order, a present key keeps its place. */
  function Set<T>(m: OMap<T>, k: int, v: T): (r: OMap<T>)
    requires Wf(m)
    ensures Wf(r)
    ensures r.entries == m.entries[k := v]
    ensures r.keys == if k in m.entries then m.keys else m.keys + [k]
  {
    if k in m.entries then OMap(m.keys, m.entries[k := v])
    else
      DistinctAppend(m.keys, k);
      OMap(m.keys + [k], m.entries[k := v])
  }

  /** Appending a fresh element keeps a sequence distinct. */
  lemma {:induction false} DistinctAppend(s: seq<int>, k: int)
    requires Distinct(s) && k !in s
    ensures Distinct(s + [k])
    decreases |s|
  {
    if s != [] {
      DistinctAppend(s[1..], k);
      assert (s + [k])[1..] == s[1..] + [k];
    }
  }

  /** After `set`, `get` of that key yields the new value and every other key is unaffected. */
  lemma GetAfterSet<T>(m: OMap<T>, k: int, v: T, k': int)
    requires Wf(m)
    ensures Get(Set(m, k, v), k') == if k' == k then Some(v) else Get(m, k')
  {
  }

  /** Setting a new key appends its value to the values. */
  lemma ValuesAfterInsert<T>(m: OMap<T>, k: int, v: T)
    requires Wf(m) && k !in m.entries
    ensures Values(Set(m, k, v)) == Values(m) + [v]
  {
    var r := Set(m, k, v);
    assert forall i :: 0 <= i < |m.keys| ==> m.keys[i] != k;
    assert forall i :: 0 <= i < |m.keys| ==> Values(r)[i] == Values(m)[i];
  }

  /** Setting a present key replaces its value where it stands. */
  lemma ValuesAfterReplace<T>(m: OMap<T>, k: int, v: T)
    requires Wf(m) && k in m.entries
    ensures |Values(Set(m, k, v))| == |Values(m)|
    ensures forall i :: 0 <= i < |m.keys| ==>
      Values(Set(m, k, v))[i] == if m.keys[i] == k then v else Values(m)[i]
  {
  }

  /** Selects the keys other than `k`. */
  function OtherThan(k: int): int -> bool {
    (x: int) => x != k
  }

  /** Selects the values whose key, as `key` reads it, is other than `k`. */
  function KeyOtherThan<T>(key: T -> int, k: int): T -> bool {
    (v: T) => key(v) != k
  }

  /** `map.delete(k)`: reports whether `k` was present and removes it from entries and order. */
  function Delete<T>(m: OMap<T>, k: int): (result: (bool, OMap<T>))
    requires Wf(m)
    ensures result.0 <==> k in m.entries
    ensures Wf(result.1)
    ensures result.1.entries == m.entries - {k}
    ensures result.1.keys == Filter(m.keys, OtherThan(k))
  {
    var keys := Filter(m.keys, OtherThan(k));
    FilterKeepsDistinct(m.keys, k);
    (k in m.entries, OMap(keys, m.entries - {k}))
  }

  /** Filtering out one key keeps the remaining keys distinct. */
  lemma {:induction false} FilterKeepsDistinct(keys: seq<int>, k: int)
    requires Distinct(keys)
    ensures Distinct(Filter(keys, OtherThan(k)))
    decreases |keys|
  {
    if keys != [] {
      FilterKeepsDistinct(keys[1..], k);
    }
  }

  /** When every value records its own key (`key(v) == k`), deleting a key
      drops exactly the values with that key and keeps the order of the rest. */
  lemma {:induction false} ValuesAfterDelete<T>(m: OMap<T>, k: int, key: T -> int)
    requires Wf(m)
    requires forall x :: x in m.entries ==> key(m.entries[x]) == x
    ensures Values(Delete(m, k).1) == Filter(Values(m), KeyOtherThan(key, k))
  {
    ProjectFilter(m.entries, m.keys, k, key);
  }

  lemma {:induction false} ProjectFilter<T>(entries: map<int, T>, keys: seq<int>, k: int, key: T -> int)
    requires forall i :: 0 <= i < |keys| ==> keys[i] in entries
    requires forall x :: x in entries ==> key(entries[x]) == x
    ensures Project(entries - {k}, Filter(keys, OtherThan(k)))
         == Filter(Project(entries, keys), KeyOtherThan(key, k))
    decreases |keys|
  {
    if keys != [] {
      ProjectFilter(entries, keys[1..], k, key);
      var p := Project(entries, keys);
      assert p[1..] == Project(entries, keys[1..]);
      assert key(p[0]) == keys[0];
      var fk := Filter(keys[1..], OtherThan(k));
      if keys[0] != k {
        assert Filter(keys, OtherThan(k)) == [keys[0]] + fk;
        assert Project(entries - {k}, [keys[0]] + fk) == [entries[keys[0]]] + Project(entries - {k}, fk);
      } else {
        assert Filter(keys, OtherThan(k)) == fk;
      }
    }
  }
}
