/** Collection addressing. Every route handler names the Redis key of its
    collection as `[namespace, collection].join(':')`. */
module Keys {

  import opened Wrappers

  /** The Redis key under which the sorted set of a collection is stored. */
  function CollectionKey(namespace: string, collection: string): (key: string)
    ensures |key| == |namespace| + 1 + |collection|
  {
    namespace + ":" + collection
  }

  /** The position of the first ':' in s, or |s| when there is none. */
  function ColonIndex(s: string): (i: nat)
    ensures i <= |s|
    ensures forall k :: 0 <= k < i ==> s[k] != ':'
    ensures i < |s| ==> s[i] == ':'
  {
    if s == [] then 0 else if s[0] == ':' then 0 else 1 + ColonIndex(s[1..])
  }

  /** Reads a key back as (namespace, collection), cutting at the first ':'. */
  function SplitKey(key: string): (r: Option<(string, string)>)
    ensures r.None? <==> ':' !in key
    ensures r.Some? ==> ':' !in r.value.0 && CollectionKey(r.value.0, r.value.1) == key
  {
    var i := ColonIndex(key);
    if i == |key| then None
    else
      assert key == key[..i] + ":" + key[i + 1..];
      Some((key[..i], key[i + 1..]))
  }

  /** A namespace without ':' is recovered from the key together with the
      collection, whatever the collection contains. */
  lemma KeyRoundTrip(namespace: string, collection: string)
    requires ':' !in namespace
    ensures SplitKey(CollectionKey(namespace, collection)) == Some((namespace, collection))
  {
    var key := CollectionKey(namespace, collection);
    assert key[|namespace|] == ':';
    assert forall k :: 0 <= k < |namespace| ==> key[k] == namespace[k];
    assert ColonIndex(key) == |namespace|;
    assert key[..|namespace|] == namespace;
    assert key[|namespace| + 1..] == collection;
  }

  /** Distinct (namespace, collection) pairs whose namespaces hold no ':'
      address distinct sorted sets. */
  lemma KeyInjective(ns1: string, c1: string, ns2: string, c2: string)
    requires ':' !in ns1 && ':' !in ns2
    requires CollectionKey(ns1, c1) == CollectionKey(ns2, c2)
    ensures ns1 == ns2 && c1 == c2
  {
    KeyRoundTrip(ns1, c1);
    KeyRoundTrip(ns2, c2);
  }

  /** Without that restriction two different collections share one key. */
  lemma KeyCollision()
    ensures CollectionKey("app:todo", "list") == CollectionKey("app", "todo:list")
  {
  }
}
