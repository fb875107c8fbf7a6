/**
 A bounded, insertion-ordered dict that evicts its oldest entry, as both schema caches use it.
 The value of a key is determined by a function of the key; `inserted` is the list of all keys
 ever inserted.
 */
module FifoCache {
  import opened Wrappers

  datatype Cached<K, V> = Cached(key: K, value: V)

  function Get<K(==), V>(cache: seq<Cached<K, V>>, key: K): (r: Option<V>)
    ensures r.Some? ==> Cached(key, r.value) in cache
    ensures r.None? ==> forall e | e in cache :: e.key != key
  {
    if cache == [] then None
    else if cache[0].key == key then Some(cache[0].value)
    else Get(cache[1..], key)
  }

  // Assignment to a key: in place if the key is present, at the end otherwise.
  function Put<K(==), V>(cache: seq<Cached<K, V>>, key: K, v: V): seq<Cached<K, V>> {
    if cache == [] then [Cached(key, v)]
    else if cache[0].key == key then [Cached(key, v)] + cache[1..]
    else [cache[0]] + Put(cache[1..], key, v)
  }

  function Evict<K, V>(cache: seq<Cached<K, V>>, limit: nat): seq<Cached<K, V>>
    requires limit > 0
  {
    if |cache| >= limit then cache[1..] else cache
  }

  function Keys<K, V>(cache: seq<Cached<K, V>>): seq<K> {
    seq(|cache|, i requires 0 <= i < |cache| => cache[i].key)
  }

  ghost predicate Absent<K, V>(cache: seq<Cached<K, V>>, key: K) {
    forall e | e in cache :: e.key != key
  }

  // Bounded, correct, without duplicates, and holding exactly the latest insertions in order.
  ghost predicate ContentsOk<K, V>(compute: K -> Option<V>, limit: nat, cache: seq<Cached<K, V>>, inserted: seq<K>) {
    && |cache| <= limit
    && (forall e | e in cache :: compute(e.key) == Some(e.value))
    && (forall i, j | 0 <= i < j < |cache| :: cache[i].key != cache[j].key)
    && |cache| <= |inserted|
    && Keys(cache) == inserted[|inserted| - |cache|..]
  }

  lemma {:induction false} PutAbsent<K, V>(cache: seq<Cached<K, V>>, key: K, v: V)
    requires Absent(cache, key)
    ensures Put(cache, key, v) == cache + [Cached(key, v)]
  {
    if cache != [] {
      PutAbsent(cache[1..], key, v);
      assert cache == [cache[0]] + cache[1..];
    }
  }

  lemma KeysRest<K, V>(cache: seq<Cached<K, V>>)
    requires cache != []
    ensures Keys(cache[1..]) == Keys(cache)[1..] && |Keys(cache)| == |cache|
  {
  }

  lemma EvictKeeps<K, V>(compute: K -> Option<V>, limit: nat, cache: seq<Cached<K, V>>, inserted: seq<K>)
    requires limit > 0 && ContentsOk(compute, limit, cache, inserted)
    ensures ContentsOk(compute, limit, Evict(cache, limit), inserted) && |Evict(cache, limit)| < limit
    ensures forall e | e in Evict(cache, limit) :: e in cache
    ensures |cache| < limit ==> Evict(cache, limit) == cache
    ensures |cache| == limit ==> Evict(cache, limit) == cache[1..]
  {
    hide Keys;
    assert forall e | e in Evict(cache, limit) :: e in cache;
    if |cache| >= limit {
      KeysRest(cache);
    }
  }

  lemma AppendKeys<K, V>(cache: seq<Cached<K, V>>, inserted: seq<K>, e: Cached<K, V>)
    requires |cache| <= |inserted| && Keys(cache) == inserted[|inserted| - |cache|..]
    ensures Keys(cache + [e]) == (inserted + [e.key])[|inserted| - |cache|..]
  {
    assert Keys(cache + [e]) == Keys(cache) + [e.key];
  }

  lemma AppendDistinct<K, V>(cache: seq<Cached<K, V>>, e: Cached<K, V>)
    requires forall i, j | 0 <= i < j < |cache| :: cache[i].key != cache[j].key
    requires Absent(cache, e.key)
    ensures forall i, j | 0 <= i < j < |cache + [e]| :: (cache + [e])[i].key != (cache + [e])[j].key
  {
    var c := cache + [e];
    forall i, j | 0 <= i < j < |c|
      ensures c[i].key != c[j].key
    {
      assert c[i] == cache[i] && cache[i] in cache;
    }
  }

  lemma PutKeeps<K, V>(compute: K -> Option<V>, limit: nat, cache: seq<Cached<K, V>>, inserted: seq<K>, key: K, v: V)
    requires ContentsOk(compute, limit, cache, inserted) && |cache| < limit
    requires compute(key) == Some(v) && Absent(cache, key)
    ensures ContentsOk(compute, limit, Put(cache, key, v), inserted + [key])
    ensures Put(cache, key, v) == cache + [Cached(key, v)]
  {
    hide Put, Keys, Absent;
    var e := Cached(key, v);
    PutAbsent(cache, key, v);
    AppendKeys(cache, inserted, e);
    AppendDistinct(cache, e);
    assert |inserted + [key]| - |cache + [e]| == |inserted| - |cache|;
    forall x | x in cache + [e]
      ensures compute(x.key) == Some(x.value)
    {
      assert x in cache || x == e;
    }
  }
}
