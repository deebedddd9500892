/** The insertion-ordered map with a size limit that the registries use, as a value. A new
    key over the limit evicts the oldest entry; setting an existing key evicts nothing. */
module BoundedMaps {
  import opened Optional

  /** `order` lists the keys, oldest first. */
  datatype BoundedMap<K(==), V> = BoundedMap(maxSize: nat, order: seq<K>, entries: map<K, V>)

  ghost predicate Distinct<T>(items: seq<T>) {
    forall i, j :: 0 <= i < j < |items| ==> items[i] != items[j]
  }

  lemma DistinctAppend<T>(items: seq<T>, item: T)
    requires Distinct(items) && item !in items
    ensures Distinct(items + [item])
  {
  }

  ghost predicate Valid<K, V>(m: BoundedMap<K, V>) {
    && 1 <= m.maxSize && |m.order| <= m.maxSize && Distinct(m.order)
    && (forall k | k in m.order :: k in m.entries) && (forall k | k in m.entries :: k in m.order)
  }

  function Create<K, V>(maxSize: nat): BoundedMap<K, V> {
    BoundedMap(maxSize, [], map[])
  }

  function Without<K(==)>(order: seq<K>, key: K): seq<K> {
    if order == [] then []
    else if order[0] == key then Without(order[1..], key)
    else [order[0]] + Without(order[1..], key)
  }

  function Delete<K, V>(m: BoundedMap<K, V>, key: K): BoundedMap<K, V> {
    if key in m.entries then m.(order := Without(m.order, key), entries := m.entries - {key}) else m
  }

  /** The key that setting `key` evicts, if any. */
  function EvictedBy<K, V>(m: BoundedMap<K, V>, key: K): Option<K> {
    if key in m.entries || |m.order| < m.maxSize || m.order == [] then None else Some(m.order[0])
  }

  function Put<K, V>(m: BoundedMap<K, V>, key: K, value: V): BoundedMap<K, V> {
    if key in m.entries then m.(entries := m.entries[key := value])
    else
      match EvictedBy(m, key)
      case None => m.(order := m.order + [key], entries := m.entries[key := value])
      case Some(oldest) => m.(order := m.order[1..] + [key], entries := (m.entries - {oldest})[key := value])
  }

  lemma {:induction false} WithoutKeeps<K(!new)>(order: seq<K>, key: K)
    requires Distinct(order)
    ensures Distinct(Without(order, key)) && |Without(order, key)| == |order| - (if key in order then 1 else 0)
    ensures forall k :: k in Without(order, key) <==> k in order && k != key
  {
    if order != [] {
      var rest := Without(order[1..], key);
      WithoutKeeps(order[1..], key);
      assert order == [order[0]] + order[1..];
      assert order[0] !in order[1..];
      assert order[0] !in rest;
      assert Distinct([order[0]] + rest);
    }
  }

  lemma DeleteKeeps<K(!new), V>(m: BoundedMap<K, V>, key: K)
    requires Valid(m)
    ensures Valid(Delete(m, key)) && Delete(m, key).entries == m.entries - {key} && Delete(m, key).maxSize == m.maxSize
    ensures |Delete(m, key).order| == |m.order| - (if key in m.entries then 1 else 0)
  {
    WithoutKeeps(m.order, key);
  }

  /** Among distinct items, taking one out is splicing out its first occurrence. */
  lemma {:induction false} WithoutIsSplice<K(!new)>(items: seq<K>, item: K, index: nat)
    requires Distinct(items) && index <= |items| && forall k | 0 <= k < index :: items[k] != item
    requires index < |items| ==> items[index] == item
    ensures Without(items, item) == if index < |items| then items[..index] + items[index + 1..] else items
  {
    if items != [] {
      var rest := items[1..];
      if index == 0 {
        WithoutIsSplice(rest, item, |rest|);
      } else {
        WithoutIsSplice(rest, item, index - 1);
        assert index < |items| ==>
            items[..index] + items[index + 1..] == [items[0]] + (rest[..index - 1] + rest[index..]);
      }
    }
  }

  /** Deleting splices the key out and leaves the others in their order. */
  lemma DeleteKeepsOrder<K(!new), V>(m: BoundedMap<K, V>, key: K, index: nat)
    requires Valid(m) && (if key in m.entries then index < |m.order| && m.order[index] == key else index == |m.order|)
    ensures Delete(m, key).order == m.order[..index] + (if index < |m.order| then m.order[index + 1..] else [])
  {
    WithoutIsSplice(m.order, key, index);
  }

  lemma PutKeeps<K(!new), V>(m: BoundedMap<K, V>, key: K, value: V)
    requires Valid(m)
    ensures Valid(Put(m, key, value)) && Put(m, key, value).maxSize == m.maxSize
    ensures EvictedBy(m, key).Some? ==> EvictedBy(m, key).value in m.entries && EvictedBy(m, key).value != key
    ensures Put(m, key, value).entries ==
              (if EvictedBy(m, key).Some? then m.entries - {EvictedBy(m, key).value} else m.entries)[key := value]
  {
    var result := Put(m, key, value);
    if key !in m.entries {
      assert key !in m.order;
      if EvictedBy(m, key).Some? {
        var oldest, rest := m.order[0], m.order[1..];
        assert m.order == [oldest] + rest;
        assert oldest in m.order && oldest !in rest;
        forall i | 0 <= i < |rest| ensures rest[i] in m.order && rest[i] != key {
          assert rest[i] == m.order[i + 1];
        }
        assert Distinct(rest + [key]);
      } else {
        forall i | 0 <= i < |m.order| ensures m.order[i] != key {
          assert m.order[i] in m.order;
        }
        assert Distinct(m.order + [key]);
      }
    }
  }

  lemma OrderIsSize<K(!new), V>(m: BoundedMap<K, V>)
    requires Valid(m)
    ensures |m.entries| == |m.order|
  {
    DistinctSize(m.order, m.entries.Keys);
  }

  lemma {:induction false} DistinctSize<K(!new)>(order: seq<K>, keys: set<K>)
    requires Distinct(order) && forall k :: k in order <==> k in keys
    ensures |keys| == |order|
  {
    if order == [] {
      assert keys == {};
    } else {
      assert order == [order[0]] + order[1..];
      DistinctSize(order[1..], keys - {order[0]});
    }
  }
}
