/** The JavaScript built-in `Map` keyed by strings: insertion-ordered entries. */
module JsMap {
  import opened Wrappers

  /** The keys in insertion order, and the value under each key. */
  datatype Map<V> = Map(keys: seq<string>, at: map<string, V>)

  /** Every key is listed once, and exactly the listed keys have a value. */
  ghost predicate Valid<V>(m: Map<V>) {
    (forall i, j :: 0 <= i < j < |m.keys| ==> m.keys[i] != m.keys[j])
    && (forall k :: k in m.at <==> k in m.keys)
  }

  function Empty<V>(): (m: Map<V>)
    ensures Valid(m) && m.keys == []
  {
    Map([], map[])
  }

  /** `m.has(k)`. */
  predicate Has<V>(m: Map<V>, k: string) {
    k in m.at
  }

  /** `m.get(k)`: `None` for a missing key. */
  function Get<V>(m: Map<V>, k: string): (r: Option<V>)
    ensures r.Some? <==> Has(m, k)
    ensures r.Some? ==> r.value == m.at[k]
  {
    if k in m.at then Some(m.at[k]) else None
  }

  /** `m.set(k, v)`: a new key goes last, an existing key keeps its place. */
  function Set<V>(m: Map<V>, k: string, v: V): (r: Map<V>)
    requires Valid(m)
    ensures Valid(r)
    ensures r.at == m.at[k := v]
    ensures k in m.at ==> r.keys == m.keys
    ensures k !in m.at ==> r.keys == m.keys + [k]
  {
    if k in m.at then Map(m.keys, m.at[k := v]) else Map(m.keys + [k], m.at[k := v])
  }

  /** The keys without `k`, order kept. */
  function Without(keys: seq<string>, k: string): (r: seq<string>)
    ensures k !in r
    ensures forall x :: x in r <==> x in keys && x != k
    decreases |keys|
  {
    if keys == [] then []
    else if keys[0] == k then Without(keys[1..], k)
    else [keys[0]] + Without(keys[1..], k)
  }

  lemma {:induction false} WithoutDistinct(keys: seq<string>, k: string)
    requires forall i, j :: 0 <= i < j < |keys| ==> keys[i] != keys[j]
    ensures forall i, j :: 0 <= i < j < |Without(keys, k)| ==> Without(keys, k)[i] != Without(keys, k)[j]
    decreases |keys|
  {
    if keys != [] {
      WithoutDistinct(keys[1..], k);
      var rest := Without(keys[1..], k);
      assert keys[0] !in keys[1..] by {
        forall j | 1 <= j < |keys| ensures keys[j] != keys[0] { }
      }
      assert keys[0] !in rest;
      if keys[0] != k {
        var r := [keys[0]] + rest;
        forall i, j | 0 <= i < j < |r| ensures r[i] != r[j] {
          if i == 0 {
            assert r[j] == rest[j - 1];
          } else {
            assert r[i] == rest[i - 1] && r[j] == rest[j - 1];
          }
        }
      }
    }
  }

  /** `m.delete(k)`: the entry goes, the other entries keep their order. */
  function Delete<V>(m: Map<V>, k: string): (r: Map<V>)
    requires Valid(m)
    ensures Valid(r)
    ensures r.at == m.at - {k}
    ensures r.keys == Without(m.keys, k)
  {
    WithoutDistinct(m.keys, k);
    Map(Without(m.keys, k), m.at - {k})
  }
}
