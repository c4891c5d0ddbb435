/** A JavaScript Map: entries with an insertion order, which is the order it is walked in. */
module OrderedMap {
  import opened Prelude

  function Filter<K(!new)>(keys: seq<K>, drop: set<K>): (r: seq<K>)
    ensures forall k :: k in r <==> k in keys && k !in drop
  {
    if keys == [] then []
    else
      var rest := Filter(keys[..|keys| - 1], drop);
      var last := keys[|keys| - 1];
      assert keys == keys[..|keys| - 1] + [last];
      if last in drop then rest else rest + [last]
  }

  datatype OrderedMap<K(!new), V> = OrderedMap(keys: seq<K>, entries: map<K, V>) {

    ghost predicate Valid() {
      Distinct(keys) && Elements(keys) == entries.Keys
    }

    function Size(): nat {
      |keys|
    }

    function Get(k: K): Option<V> {
      if k in entries then Some(entries[k]) else None
    }

    /** `set` keeps the place of a key that is there and puts a new one last. */
    function Set(k: K, v: V): OrderedMap<K, V> {
      OrderedMap(if k in entries then keys else keys + [k], entries[k := v])
    }

    function Without(drop: set<K>): OrderedMap<K, V> {
      OrderedMap(Filter(keys, drop), entries - drop)
    }

    function Delete(k: K): OrderedMap<K, V> {
      Without({k})
    }

    lemma SetValid(k: K, v: V)
      requires Valid()
      ensures Set(k, v).Valid()
      ensures Set(k, v).Size() == Size() + if k in entries then 0 else 1
    {
      if k !in entries {
        AppendDistinct(keys, k);
      }
    }

    lemma WithoutValid(drop: set<K>)
      requires Valid()
      ensures Without(drop).Valid()
      ensures drop <= entries.Keys ==> Without(drop).Size() == Size() - |drop|
    {
      FilterDistinct(keys, drop);
      assert Elements(Filter(keys, drop)) == entries.Keys - drop;
      if drop <= entries.Keys {
        DistinctCard(keys);
        DistinctCard(Filter(keys, drop));
        CardMinus(entries.Keys, drop);
      }
    }

    lemma WithoutTwice(a: set<K>, b: set<K>)
      ensures Without(a).Without(b) == Without(a + b)
    {
      FilterTwice(keys, a, b);
      assert entries - a - b == entries - (a + b);
    }

    lemma WithoutNothing()
      ensures Without({}) == this
    {
      FilterNothing(keys);
      assert entries - {} == entries;
    }
  }

  lemma {:induction false} FilterDistinct<K(!new)>(keys: seq<K>, drop: set<K>)
    requires Distinct(keys)
    ensures Distinct(Filter(keys, drop))
  {
    if keys != [] {
      var front, last := keys[..|keys| - 1], keys[|keys| - 1];
      FilterDistinct(front, drop);
      assert last !in Filter(front, drop);
    }
  }

  lemma {:induction false} FilterTwice<K(!new)>(keys: seq<K>, a: set<K>, b: set<K>)
    ensures Filter(Filter(keys, a), b) == Filter(keys, a + b)
  {
    if keys != [] {
      var front, last := keys[..|keys| - 1], keys[|keys| - 1];
      FilterTwice(front, a, b);
      if last !in a {
        var rest := Filter(front, a);
        assert (rest + [last])[..|rest|] == rest;
      }
    }
  }

  lemma {:induction false} FilterNothing<K(!new)>(keys: seq<K>)
    ensures Filter(keys, {}) == keys
  {
    if keys != [] {
      FilterNothing(keys[..|keys| - 1]);
    }
  }

  lemma NextKey<K>(order: seq<K>, i: nat)
    requires Distinct(order) && i < |order|
    ensures Elements(order[..i + 1]) == Elements(order[..i]) + {order[i]}
    ensures order[i] in Elements(order) && order[i] !in Elements(order[..i])
  {
    assert order[..i + 1] == order[..i] + [order[i]];
  }

  lemma DeleteOne<K(!new), V>(m: OrderedMap<K, V>, gone: set<K>, key: K)
    ensures m.Without(gone).Delete(key) == m.Without(gone + {key})
  {
    m.WithoutTwice(gone, {key});
  }

  lemma DropFirst<K(!new), V>(m: OrderedMap<K, V>, n: nat)
    requires m.Valid() && n <= m.Size()
    ensures var rest := m.Without(Elements(m.keys[..n]));
            rest.Valid() && rest.Size() == m.Size() - n
  {
    FirstKeys(m.keys, n);
    m.WithoutValid(Elements(m.keys[..n]));
  }

  /** Dropping the first keys leaves the others in their order. */
  lemma {:induction false} FilterFirst<K(!new)>(keys: seq<K>, n: nat)
    requires Distinct(keys) && n <= |keys|
    ensures Filter(keys, Elements(keys[..n])) == keys[n..]
  {
    if n == |keys| {
      FilterAll(keys, Elements(keys[..n]));
    } else {
      var front, last := keys[..|keys| - 1], keys[|keys| - 1];
      assert front[..n] == keys[..n] && last !in Elements(keys[..n]);
      FilterFirst(front, n);
      assert keys[n..] == front[n..] + [last];
    }
  }

  lemma {:induction false} FilterAll<K(!new)>(keys: seq<K>, drop: set<K>)
    requires forall k <- keys :: k in drop
    ensures Filter(keys, drop) == []
  {
    if keys != [] {
      assert keys[|keys| - 1] in keys;
      assert forall k <- keys[..|keys| - 1] :: k in keys;
      FilterAll(keys[..|keys| - 1], drop);
    }
  }

  lemma FirstKeys<K>(keys: seq<K>, n: nat)
    requires Distinct(keys) && n <= |keys|
    ensures Elements(keys[..n]) <= Elements(keys) && |Elements(keys[..n])| == n
  {
    DistinctCard(keys[..n]);
  }

  lemma {:induction false} FilterShrinks<K(!new)>(keys: seq<K>, drop: set<K>)
    ensures |Filter(keys, drop)| <= |keys|
  {
    if keys != [] {
      FilterShrinks(keys[..|keys| - 1], drop);
    }
  }
}
