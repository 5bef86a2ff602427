/**
 * A JavaScript `Map` as a value: the entries, and the insertion order in
 * which `forEach` visits them. `set` on a present key keeps its position,
 * `set` on a new key appends it, `delete` removes it, `size` counts entries.
 */
module JsMap {

  datatype OrderedMap<K, V> = OrderedMap(keys: seq<K>, entries: map<K, V>)

  ghost predicate Distinct<K>(s: seq<K>) {
    forall i, j :: 0 <= i < j < |s| ==> s[i] != s[j]
  }

  /** The order lists every key of the map exactly once. */
  ghost predicate Valid<K(!new), V>(m: OrderedMap<K, V>) {
    Distinct(m.keys) && forall k :: k in m.entries <==> k in m.keys
  }

  /** `map.size`. */
  function Size<K(==, !new), V>(m: OrderedMap<K, V>): nat {
    |m.keys|
  }

  /** `new Map()`. */
  function Empty<K(==, !new), V>(): (m: OrderedMap<K, V>)
    ensures Valid(m) && Size(m) == 0
    ensures forall k :: k !in m.entries
  {
    OrderedMap([], map[])
  }

  /** `map.set(k, v)`. */
  function Set<K(==, !new), V>(m: OrderedMap<K, V>, k: K, v: V): (r: OrderedMap<K, V>)
    requires Valid(m)
    ensures Valid(r)
    ensures k in r.entries && r.entries[k] == v
    ensures forall j :: j != k ==> (j in r.entries <==> j in m.entries)
    ensures forall j :: j != k && j in m.entries ==> r.entries[j] == m.entries[j]
    ensures Size(r) == Size(m) + (if k in m.entries then 0 else 1)
    ensures r.keys[..Size(m)] == m.keys
  {
    if k in m.entries then OrderedMap(m.keys, m.entries[k := v])
    else OrderedMap(m.keys + [k], m.entries[k := v])
  }

  /** The order `s` with `k` taken out and every other key kept in place. */
  function Without<K(==, !new)>(s: seq<K>, k: K): (r: seq<K>)
    ensures forall x :: x in r <==> x in s && x != k
    ensures Distinct(s) ==> Distinct(r) && |r| == |s| - (if k in s then 1 else 0)
    decreases |s|
  {
    if s == [] then []
    else
      var rest := Without(s[1..], k);
      assert Distinct(s) ==> Distinct(s[1..]) && s[0] !in s[1..];
      if s[0] == k then rest else [s[0]] + rest
  }

  /** `map.delete(k)`; the JavaScript result, whether `k` was present, is `k in m.entries`. */
  function Delete<K(==, !new), V>(m: OrderedMap<K, V>, k: K): (r: OrderedMap<K, V>)
    requires Valid(m)
    ensures Valid(r)
    ensures k !in r.entries
    ensures forall j :: j != k ==> (j in r.entries <==> j in m.entries)
    ensures forall j :: j != k && j in m.entries ==> r.entries[j] == m.entries[j]
    ensures Size(r) == Size(m) - (if k in m.entries then 1 else 0)
  {
    OrderedMap(Without(m.keys, k), m.entries - {k})
  }

  /** `map.forEach(v => f(v))` where `f` rewrites each entry, keeping keys and order. */
  function MapValues<K(==, !new), V>(m: OrderedMap<K, V>, f: V -> V): (r: OrderedMap<K, V>)
    requires Valid(m)
    ensures Valid(r) && r.keys == m.keys
    ensures forall k :: k in r.entries <==> k in m.entries
    ensures forall k :: k in m.entries ==> r.entries[k] == f(m.entries[k])
  {
    OrderedMap(m.keys, map k | k in m.entries :: f(m.entries[k]))
  }

  /** `map.size` counts the entries: the order has no duplicates and no strays. */
  lemma {:induction false} SizeCountsEntries<K(!new), V>(m: OrderedMap<K, V>)
    requires Valid(m)
    ensures Size(m) == |m.entries.Keys|
    decreases |m.keys|
  {
    if m.keys != [] {
      var k := m.keys[0];
      var rest := OrderedMap(m.keys[1..], m.entries - {k});
      assert Valid(rest) by {
        forall j ensures j in rest.entries <==> j in rest.keys {
          assert j in m.keys <==> j == k || j in m.keys[1..];
        }
      }
      SizeCountsEntries(rest);
      assert rest.entries.Keys == m.entries.Keys - {k};
    }
  }
}
