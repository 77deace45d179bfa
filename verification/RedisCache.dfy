// Sidecar caches kept in step by broadcast invalidation: one cache per node, and
// the cluster with its messages in flight.
module RedisCache {
  import opened Hierarchy
  import opened Graphs

  type Key = int
  type Value = int
  type Node = int
  type Store = map<Key, Value>

  // An invalidation: the keys and the CLUSTER_HOST_ID of the node that wrote.
  datatype Msg = Msg(keys: set<Key>, origin: string)

  function WithoutKeys(store: Store, keys: set<Key>): Store {
    map k | k in store && k !in keys :: store[k]
  }

  // ---- One node ----

  class DabRedisCache {
    const hostId: string
    const autoInvalidate: bool
    const hasDispatcherd: bool
    var store: Store
    var guardActive: bool
    var sent: seq<Msg>

    constructor (hostId: string, autoInvalidate: bool, hasDispatcherd: bool)
      ensures this.hostId == hostId && this.autoInvalidate == autoInvalidate && this.hasDispatcherd == hasDispatcherd
      ensures store == map[] && !guardActive && sent == []
    {
      this.hostId, this.autoInvalidate, this.hasDispatcherd := hostId, autoInvalidate, hasDispatcherd;
      store, guardActive, sent := map[], false, [];
    }

    predicate ShouldBroadcast()
      reads this
    {
      autoInvalidate && !guardActive
    }

    // The messages a write of keys publishes.
    function Published(keys: set<Key>): seq<Msg>
      reads this
    {
      if ShouldBroadcast() && hasDispatcherd then [Msg(keys, hostId)] else []
    }

    method BroadcastInvalidation(keys: set<Key>)
      modifies this`guardActive, this`sent
      ensures sent == old(sent) + old(Published(keys)) && guardActive == old(guardActive)
      ensures sent == old(sent) +
        if autoInvalidate && !old(guardActive) && hasDispatcherd then [Msg(keys, hostId)] else []
    {
      if !ShouldBroadcast() { return; }
      if !hasDispatcherd { return; }
      guardActive := true;
      sent := sent + [Msg(keys, hostId)];
      guardActive := false;
    }

    // Writes and publishes only if the key was absent.
    method Add(k: Key, v: Value) returns (added: bool)
      modifies this
      ensures added == (k !in old(store)) && guardActive == old(guardActive)
      ensures store == if added then old(store)[k := v] else old(store)
      ensures sent == old(sent) + if added then old(Published({k})) else []
      ensures added && autoInvalidate && !guardActive && hasDispatcherd ==> sent == old(sent) + [Msg({k}, hostId)]
    {
      added := k !in store;
      if added {
        store := store[k := v];
        BroadcastInvalidation({k});
      }
    }

    method Set(k: Key, v: Value)
      modifies this
      ensures store == old(store)[k := v] && sent == old(sent) + old(Published({k})) && guardActive == old(guardActive)
      ensures autoInvalidate && !guardActive && hasDispatcherd ==> sent == old(sent) + [Msg({k}, hostId)]
    {
      store := store[k := v];
      BroadcastInvalidation({k});
    }

    method Delete(k: Key) returns (deleted: bool)
      modifies this
      ensures deleted == (k in old(store)) && guardActive == old(guardActive)
      ensures store == WithoutKeys(old(store), {k}) && sent == old(sent) + old(Published({k}))
      ensures forall j :: j in store <==> j in old(store) && j != k
      ensures forall j :: j in store ==> store[j] == old(store)[j]
      ensures autoInvalidate && !guardActive && hasDispatcherd ==> sent == old(sent) + [Msg({k}, hostId)]
    {
      deleted := k in store;
      store := WithoutKeys(store, {k});
      BroadcastInvalidation({k});
    }

    // Bulk deletion does not publish; the receiving side relies on that.
    method DeleteMany(keys: set<Key>)
      modifies this`store
      ensures store == WithoutKeys(old(store), keys)
      ensures forall j :: j in store <==> j in old(store) && j !in keys
      ensures forall j :: j in store ==> store[j] == old(store)[j]
    {
      store := WithoutKeys(store, keys);
    }
  }

  // What a resolver yields for one key; it may fail after some keys, which count.
  datatype Resolution = Resolution(yielded: seq<Key>, failed: bool)

  // The keys one call of clear_cache removes: the given ones and what the resolver
  // yields for each of them, one level deep.
  function Dependents(keys: seq<Key>, resolver: Key -> Resolution): set<Key> {
    set i, d | 0 <= i < |keys| && d in resolver(keys[i]).yielded :: d
  }

  function DependentsOf(keys: seq<Key>, resolver: Option<Key -> Resolution>): set<Key> {
    if resolver.Some? then Dependents(keys, resolver.value) else {}
  }

  function KeySet(keys: seq<Key>): set<Key> {
    set k | k in keys
  }

  // The hook, if there is one, is told every key removed.
  method ClearCache(cache: DabRedisCache, cacheKeys: seq<Key>, resolver: Option<Key -> Resolution>, hasHook: bool)
    returns (invalidated: set<Key>, told: Option<set<Key>>)
    modifies cache`store
    ensures invalidated == KeySet(cacheKeys) + DependentsOf(cacheKeys, resolver)
    ensures forall k :: k in invalidated <==>
      k in cacheKeys ||
        (resolver.Some? && exists i :: 0 <= i < |cacheKeys| && k in resolver.value(cacheKeys[i]).yielded)
    ensures cache.store == WithoutKeys(old(cache.store), invalidated)
    ensures forall k :: k in cache.store <==> k in old(cache.store) && k !in invalidated
    ensures forall k :: k in cache.store ==> cache.store[k] == old(cache.store)[k]
    ensures told == if hasHook then Some(invalidated) else None
  {
    var allKeys := cacheKeys;
    if resolver.Some? {
      for i := 0 to |cacheKeys|
        invariant cacheKeys <= allKeys && cache.store == old(cache.store)
        invariant forall k :: k in allKeys <==> k in cacheKeys || k in Dependents(cacheKeys[..i], resolver.value)
      {
        ghost var before := allKeys;
        var deps := resolver.value(allKeys[i]);
        for j := 0 to |deps.yielded|
          invariant cacheKeys <= allKeys && forall k :: k in allKeys <==> k in before || k in deps.yielded[..j]
        {
          allKeys := allKeys + [deps.yielded[j]];
          assert deps.yielded[..j + 1] == deps.yielded[..j] + [deps.yielded[j]];
        }
        assert deps.yielded[..|deps.yielded|] == deps.yielded;
        DependentsOneMore(cacheKeys, i, resolver.value);
      }
      assert cacheKeys[..|cacheKeys|] == cacheKeys;
    }
    invalidated := KeySet(allKeys);
    forall k ensures k in invalidated <==> k in KeySet(cacheKeys) || k in DependentsOf(cacheKeys, resolver) {}
    cache.DeleteMany(invalidated);
    told := if hasHook then Some(invalidated) else None;
  }

  lemma DependentsOneMore(keys: seq<Key>, i: nat, resolver: Key -> Resolution)
    requires i < |keys|
    ensures forall d :: d in Dependents(keys[..i + 1], resolver) <==>
      d in Dependents(keys[..i], resolver) || d in resolver(keys[i]).yielded
  {
    forall d | d in resolver(keys[i]).yielded ensures d in Dependents(keys[..i + 1], resolver) {
      assert keys[..i + 1][i] == keys[i];
    }
    forall d | d in Dependents(keys[..i], resolver) ensures d in Dependents(keys[..i + 1], resolver) {
      var j :| 0 <= j < i && d in resolver(keys[j]).yielded;
      assert keys[..i + 1][j] == keys[j];
    }
  }

  // Whether a node acts on a message: not when it is its own.
  predicate Effective(origin: string, local: string) {
    !(origin != "" && origin == local)
  }

  // The broadcast task on a receiving node.
  method ReceiveInvalidation(cache: DabRedisCache, msg: Msg, keys: seq<Key>)
    requires KeySet(keys) == msg.keys
    modifies cache`store
    ensures cache.store == if Effective(msg.origin, cache.hostId) then WithoutKeys(old(cache.store), msg.keys)
                           else old(cache.store)
    ensures forall k :: k in cache.store <==>
      k in old(cache.store) && !(k in msg.keys && !(msg.origin != "" && msg.origin == cache.hostId))
    ensures forall k :: k in cache.store ==> cache.store[k] == old(cache.store)[k]
  {
    if msg.origin != "" && msg.origin == cache.hostId { return; }
    var cleared, told := ClearCache(cache, keys, None, false);
  }
}
