// All nodes together: every write goes to one node and is announced to every node;
// announcements arrive in any order.
module CacheCluster {
  import opened RedisCache
  import opened Graphs

  // The last write to a key: its number, what it left, and where it was made.
  datatype Write = Write(stamp: nat, kept: bool, value: Value, at: Node)

  // stores, flight and ids are the system. clock, stamps and latest only record
  // history: how many writes there were, which write each stored value came from,
  // and the last write to each key.
  datatype Cluster = Cluster(
    ids: map<Node, string>,
    stores: map<Node, Store>,
    flight: multiset<(Node, Msg)>,
    clock: nat,
    stamps: map<(Node, Key), nat>,
    latest: map<Key, Write>)

  datatype Event =
    | SetAt(n: Node, k: Key, v: Value)
    | AddAt(n: Node, k: Key, v: Value)
    | DeleteAt(n: Node, k: Key)
    | Deliver(m: Node, msg: Msg)

  ghost function Start(ids: map<Node, string>): Cluster {
    Cluster(ids, map n | n in ids :: map[], multiset{}, 0, map[], map[])
  }

  // One copy for every node, the sender included.
  ghost function Copies(nodes: set<Node>, msg: Msg): multiset<(Node, Msg)> {
    multiset(set n | n in nodes :: (n, msg))
  }

  ghost function Announced(c: Cluster, n: Node, k: Key): multiset<(Node, Msg)>
    requires n in c.ids
  {
    c.flight + Copies(c.ids.Keys, Msg({k}, c.ids[n]))
  }

  // A write of v at n; Set, and Add of an absent key.
  ghost function Written(c: Cluster, n: Node, k: Key, v: Value): Cluster
    requires n in c.ids && n in c.stores
  {
    c.(stores := c.stores[n := c.stores[n][k := v]],
       flight := Announced(c, n, k),
       clock := c.clock + 1,
       stamps := c.stamps[(n, k) := c.clock + 1],
       latest := c.latest[k := Write(c.clock + 1, true, v, n)])
  }

  ghost function Deleted(c: Cluster, n: Node, k: Key): Cluster
    requires n in c.ids && n in c.stores
  {
    c.(stores := c.stores[n := WithoutKeys(c.stores[n], {k})],
       flight := Announced(c, n, k),
       clock := c.clock + 1,
       latest := c.latest[k := Write(c.clock + 1, false, 0, n)])
  }

  ghost function Delivered(c: Cluster, m: Node, msg: Msg): Cluster
    requires m in c.ids && m in c.stores
  {
    c.(stores := if Effective(msg.origin, c.ids[m]) then c.stores[m := WithoutKeys(c.stores[m], msg.keys)]
                 else c.stores,
       flight := c.flight - multiset{(m, msg)})
  }

  // Events at unknown nodes and deliveries of nothing change nothing.
  ghost function Apply(c: Cluster, e: Event): Cluster {
    match e
    case SetAt(n, k, v) => if n in c.ids && n in c.stores then Written(c, n, k, v) else c
    case AddAt(n, k, v) => if n in c.ids && n in c.stores && k !in c.stores[n] then Written(c, n, k, v) else c
    case DeleteAt(n, k) => if n in c.ids && n in c.stores then Deleted(c, n, k) else c
    case Deliver(m, msg) => if m in c.ids && m in c.stores && (m, msg) in c.flight then Delivered(c, m, msg) else c
  }

  ghost function ApplyAll(c: Cluster, events: seq<Event>): Cluster
    decreases |events|
  {
    if events == [] then c else ApplyAll(Apply(c, events[0]), events[1..])
  }

  ghost function Run(ids: map<Node, string>, events: seq<Event>): Cluster {
    ApplyAll(Start(ids), events)
  }

  lemma WrittenAt(c: Cluster, n: Node, j: Key, v: Value, m: Node, k: Key)
    requires c.stores.Keys == c.ids.Keys && n in c.ids && m in c.ids
    ensures m in Written(c, n, j, v).stores
    ensures k in Written(c, n, j, v).stores[m] <==> k in c.stores[m] || (m == n && k == j)
    ensures k in Written(c, n, j, v).stores[m] ==>
      Written(c, n, j, v).stores[m][k] == if m == n && k == j then v else c.stores[m][k]
  {
  }

  lemma DeletedAt(c: Cluster, n: Node, j: Key, m: Node, k: Key)
    requires c.stores.Keys == c.ids.Keys && n in c.ids && m in c.ids
    ensures m in Deleted(c, n, j).stores
    ensures k in Deleted(c, n, j).stores[m] <==> k in c.stores[m] && !(m == n && k == j)
    ensures k in Deleted(c, n, j).stores[m] ==> Deleted(c, n, j).stores[m][k] == c.stores[m][k]
  {
  }

  lemma DeliveredAt(c: Cluster, n: Node, msg: Msg, m: Node, k: Key)
    requires c.stores.Keys == c.ids.Keys && n in c.ids && m in c.ids
    ensures m in Delivered(c, n, msg).stores
    ensures k in Delivered(c, n, msg).stores[m] <==>
      k in c.stores[m] && !(m == n && k in msg.keys && (msg.origin == "" || msg.origin != c.ids[m]))
    ensures k in Delivered(c, n, msg).stores[m] ==> Delivered(c, n, msg).stores[m][k] == c.stores[m][k]
  {
  }

  // A value leaves a store only by a delete at its node or by a delivered message that names its
  // key and is not the node's own; it enters and changes only by a write at its node.
  lemma StepEffect(c: Cluster, e: Event, m: Node, k: Key)
    requires c.stores.Keys == c.ids.Keys && m in c.ids
    ensures m in Apply(c, e).stores
    ensures k in c.stores[m] ==> (k !in Apply(c, e).stores[m] <==> (
      || (e.DeleteAt? && e.n == m && e.k == k)
      || (e.Deliver? && e.m == m && (m, e.msg) in c.flight && k in e.msg.keys &&
          (e.msg.origin == "" || e.msg.origin != c.ids[m]))))
    ensures k !in c.stores[m] ==>
      (k in Apply(c, e).stores[m] <==> (e.SetAt? || e.AddAt?) && e.n == m && e.k == k)
    ensures k in Apply(c, e).stores[m] ==>
      Apply(c, e).stores[m][k] ==
        if (e.SetAt? && e.n == m && e.k == k) || k !in c.stores[m] then e.v else c.stores[m][k]
  {
    match e {
      case SetAt(n, j, v) => if n in c.ids { WrittenAt(c, n, j, v, m, k); }
      case AddAt(n, j, v) => if n in c.ids { WrittenAt(c, n, j, v, m, k); }
      case DeleteAt(n, j) => if n in c.ids { DeletedAt(c, n, j, m, k); }
      case Deliver(n, msg) => if n in c.ids { DeliveredAt(c, n, msg, m, k); }
    }
  }

  // A write puts one copy for every node in flight, with its key and the name of its node; a
  // delivery takes one copy out; nothing else moves.
  lemma FlightEffect(c: Cluster, e: Event, x: (Node, Msg))
    requires c.stores.Keys == c.ids.Keys
    ensures e.Deliver? ==>
      Apply(c, e).flight[x] ==
        if x == (e.m, e.msg) && x.0 in c.ids && x in c.flight then c.flight[x] - 1 else c.flight[x]
    ensures !e.Deliver? && e.n in c.ids && !(e.AddAt? && e.k in c.stores[e.n]) ==>
      Apply(c, e).flight[x] == c.flight[x] + if x.0 in c.ids && x.1 == Msg({e.k}, c.ids[e.n]) then 1 else 0
    ensures !e.Deliver? && (e.n !in c.ids || (e.AddAt? && e.k in c.stores[e.n])) ==> Apply(c, e) == c
  {
    if !e.Deliver? && e.n in c.ids { CopiesOnce(c.ids.Keys, Msg({e.k}, c.ids[e.n]), x); }
  }

  lemma CopiesOnce(nodes: set<Node>, msg: Msg, x: (Node, Msg))
    ensures Copies(nodes, msg)[x] == if x.0 in nodes && x.1 == msg then 1 else 0
  {
    var m := x.0;
    if m in nodes { assert (m, msg) in set n | n in nodes :: (n, msg); }
    assert x == (m, x.1);
  }

  // latest records the last write to each key.
  lemma LatestEffect(c: Cluster, e: Event, k: Key)
    requires c.stores.Keys == c.ids.Keys
    ensures !e.Deliver? && e.k == k && e.n in c.ids && !(e.AddAt? && k in c.stores[e.n]) ==>
      var d := Apply(c, e);
      && k in d.latest && d.latest[k].at == e.n
      && (d.latest[k].kept <==> !e.DeleteAt?) && (!e.DeleteAt? ==> d.latest[k].value == e.v)
    ensures e.Deliver? || e.k != k || e.n !in c.ids || (e.AddAt? && k in c.stores[e.n]) ==>
      (k in Apply(c, e).latest <==> k in c.latest) && (k in c.latest ==> Apply(c, e).latest[k] == c.latest[k])
  {
  }

  // ---- The protocol's invariant ----

  ghost predicate Holds(c: Cluster, m: Node, k: Key) {
    m in c.stores && k in c.stores[m]
  }

  // m still has to act on an announcement about k.
  ghost predicate Pending(c: Cluster, m: Node, k: Key) {
    exists msg :: (m, msg) in c.flight && k in msg.keys && m in c.ids && Effective(msg.origin, c.ids[m])
  }

  // What m holds for k is the last write to k, made at m.
  ghost predicate Current(c: Cluster, m: Node, k: Key) {
    Holds(c, m, k) && k in c.latest && c.latest[k].kept && c.latest[k].at == m && c.stores[m][k] == c.latest[k].value
  }

  // Every value held anywhere is the last write, or its node is about to drop it.
  ghost predicate Safe(c: Cluster) {
    forall m, k :: Holds(c, m, k) ==> Current(c, m, k) || Pending(c, m, k)
  }

  // A held value is the last write, or older and announced as superseded.
  ghost predicate Accounted(c: Cluster, m: Node, k: Key) {
    && (m, k) in c.stamps && k in c.latest && c.stamps[(m, k)] <= c.latest[k].stamp
    && (c.stamps[(m, k)] == c.latest[k].stamp ==> Current(c, m, k))
    && (c.stamps[(m, k)] < c.latest[k].stamp ==> Pending(c, m, k))
  }

  // The bookkeeping that makes Safe inductive.
  ghost predicate Inv(c: Cluster) {
    && c.stores.Keys == c.ids.Keys
    && (forall m, k :: Holds(c, m, k) ==> Accounted(c, m, k))
    && (forall k :: k in c.latest ==> c.latest[k].stamp <= c.clock)
    && (forall x :: x in c.flight ==> x.0 in c.ids)
  }

  // No two nodes announce themselves under the same non-empty name.
  ghost predicate DistinctHosts(ids: map<Node, string>) {
    forall m, n :: m in ids && n in ids && m != n && ids[m] != "" ==> ids[m] != ids[n]
  }

  lemma CopiesReachEveryone(c: Cluster, n: Node, k: Key, m: Node)
    requires n in c.ids && m in c.ids && m != n && DistinctHosts(c.ids)
    ensures (m, Msg({k}, c.ids[n])) in Announced(c, n, k) && Effective(c.ids[n], c.ids[m])
  {
    assert (m, Msg({k}, c.ids[n])) in set x | x in c.ids.Keys :: (x, Msg({k}, c.ids[n]));
  }

  lemma PendingKept(c: Cluster, d: Cluster, m: Node, k: Key)
    requires Pending(c, m, k) && c.ids == d.ids && c.flight <= d.flight
    ensures Pending(d, m, k)
  {
    var msg :| (m, msg) in c.flight && k in msg.keys && m in c.ids && Effective(msg.origin, c.ids[m]);
    assert (m, msg) in d.flight;
  }

  // A write or delete at n makes every other copy of k superseded and announced.
  lemma WriteKeepsInv(c: Cluster, d: Cluster, n: Node, k: Key)
    requires Inv(c) && DistinctHosts(c.ids) && n in c.ids
    requires (exists v :: d == Written(c, n, k, v)) || d == Deleted(c, n, k)
    ensures Inv(d)
  {
    forall m, j | Holds(d, m, j)
      ensures Accounted(d, m, j)
    {
      WriteKeepsEntry(c, d, n, k, m, j);
    }
    AnnouncedToKnownNodes(c, n, k);
  }

  lemma AnnouncedToKnownNodes(c: Cluster, n: Node, k: Key)
    requires n in c.ids && forall x :: x in c.flight ==> x.0 in c.ids
    ensures forall x :: x in Announced(c, n, k) ==> x.0 in c.ids
  {
    forall x | x in Announced(c, n, k) ensures x.0 in c.ids {
      if x !in c.flight { assert x in Copies(c.ids.Keys, Msg({k}, c.ids[n])); }
    }
  }

  lemma WriteKeepsEntry(c: Cluster, d: Cluster, n: Node, k: Key, m: Node, j: Key)
    requires Inv(c) && DistinctHosts(c.ids) && n in c.ids && Holds(d, m, j)
    requires (exists v :: d == Written(c, n, k, v)) || d == Deleted(c, n, k)
    ensures Accounted(d, m, j)
  {
    if d == Deleted(c, n, k) {
      DeletedAt(c, n, k, m, j);
    } else {
      var v :| d == Written(c, n, k, v);
      WrittenAt(c, n, k, v, m, j);
    }
    if m != n || j != k {
      assert Holds(c, m, j) && Accounted(c, m, j);
      if j == k {
        CopiesReachEveryone(c, n, k, m);
        var msg := Msg({k}, c.ids[n]);
        assert (m, msg) in d.flight && k in msg.keys;
      } else if Pending(c, m, j) {
        PendingKept(c, d, m, j);
      }
    }
  }

  lemma DeliverKeepsInv(c: Cluster, m: Node, msg: Msg)
    requires Inv(c) && m in c.ids && (m, msg) in c.flight
    ensures Inv(Delivered(c, m, msg))
  {
    var d := Delivered(c, m, msg);
    forall n, k | Holds(d, n, k) && Pending(c, n, k) ensures Pending(d, n, k) {
      var other :| (n, other) in c.flight && k in other.keys && n in c.ids && Effective(other.origin, c.ids[n]);
      if n == m && other == msg {
        assert false;
      }
      assert (n, other) in d.flight;
    }
    forall n, k | Holds(d, n, k) ensures Accounted(d, n, k) {
      assert Holds(c, n, k) && Accounted(c, n, k);
    }
  }

  lemma StepKeepsInv(c: Cluster, e: Event)
    requires Inv(c) && DistinctHosts(c.ids)
    ensures Inv(Apply(c, e)) && Apply(c, e).ids == c.ids
  {
    var d := Apply(c, e);
    if d != c {
      match e
      case SetAt(n, k, v) => assert d == Written(c, n, k, v); WriteKeepsInv(c, d, n, k);
      case AddAt(n, k, v) => assert d == Written(c, n, k, v); WriteKeepsInv(c, d, n, k);
      case DeleteAt(n, k) => WriteKeepsInv(c, d, n, k);
      case Deliver(m, msg) => DeliverKeepsInv(c, m, msg);
    }
  }

  lemma {:induction false} AllStepsKeepInv(c: Cluster, events: seq<Event>)
    requires Inv(c) && DistinctHosts(c.ids)
    ensures Inv(ApplyAll(c, events)) && ApplyAll(c, events).ids == c.ids
    decreases |events|
  {
    if events != [] {
      StepKeepsInv(c, events[0]);
      AllStepsKeepInv(Apply(c, events[0]), events[1..]);
    }
  }

  lemma RunKeepsInv(ids: map<Node, string>, events: seq<Event>)
    requires DistinctHosts(ids)
    ensures Inv(Run(ids, events)) && Run(ids, events).ids == ids
  {
    AllStepsKeepInv(Start(ids), events);
  }

  lemma InvIsSafe(c: Cluster)
    requires Inv(c)
    ensures Safe(c)
  {
  }

  // ---- Exactly when the protocol is safe ----

  // All runs are safe if and only if no two nodes share a non-empty host id.
  lemma SafeIffDistinctHosts(ids: map<Node, string>)
    ensures (forall events :: Safe(Run(ids, events))) <==> DistinctHosts(ids)
  {
    if DistinctHosts(ids) {
      forall events ensures Safe(Run(ids, events)) {
        RunKeepsInv(ids, events);
        InvIsSafe(Run(ids, events));
      }
    } else {
      var m, n :| m in ids && n in ids && m != n && ids[m] != "" && ids[m] == ids[n];
      SharedNameRun(ids, m, n);
    }
  }

  // m caches a value, n overwrites it; m mistakes the announcement for its own.
  lemma SharedNameRun(ids: map<Node, string>, m: Node, n: Node)
    requires m in ids && n in ids && m != n && ids[m] != "" && ids[m] == ids[n]
    ensures !Safe(Run(ids, [SetAt(m, 0, 1), SetAt(n, 0, 2)]))
  {
    var first, second := SetAt(m, 0, 1), SetAt(n, 0, 2);
    var c1 := Apply(Start(ids), first);
    assert c1 == Written(Start(ids), m, 0, 1);
    var c := Apply(c1, second);
    assert c == Written(c1, n, 0, 2);
    assert [first, second][1..] == [second] && [second][1..] == [];
    assert Run(ids, [first, second]) == ApplyAll(c1, [second]) == ApplyAll(c, []);
    assert Holds(c, m, 0) && !Current(c, m, 0);
    forall msg | (m, msg) in c.flight ensures msg.origin == ids[m] {}
    assert !Pending(c, m, 0);
  }

  // ---- Draining ----

  // Delivery consumes one message and never creates one.
  lemma DeliveryShrinksFlight(c: Cluster, m: Node, msg: Msg)
    requires m in c.ids && m in c.stores && (m, msg) in c.flight
    ensures |Apply(c, Deliver(m, msg)).flight| == |c.flight| - 1
  {
  }

  // Once nothing is in flight, a key is held by at most one node, and that node
  // holds the last write.
  lemma DrainedClusterAgrees(ids: map<Node, string>, events: seq<Event>, m: Node, k: Key)
    requires DistinctHosts(ids) && Run(ids, events).flight == multiset{} && Holds(Run(ids, events), m, k)
    ensures var c := Run(ids, events);
      Current(c, m, k) && forall n :: Holds(c, n, k) ==> n == m
  {
    RunKeepsInv(ids, events);
    var c := Run(ids, events);
    InvIsSafe(c);
    forall n | Holds(c, n, k) ensures Current(c, n, k) { assert !Pending(c, n, k); }
  }

  // Every reachable cluster can be drained by deliveries alone, one per message.
  lemma {:induction false} Drain(c: Cluster) returns (deliveries: seq<Event>)
    requires Inv(c) && DistinctHosts(c.ids)
    ensures |deliveries| == |c.flight| && forall e :: e in deliveries ==> e.Deliver?
    ensures ApplyAll(c, deliveries).flight == multiset{}
    decreases |c.flight|
  {
    if c.flight == multiset{} {
      deliveries := [];
    } else {
      var x := SomeMessage(c.flight);
      var e := Deliver(x.0, x.1);
      DeliveryShrinksFlight(c, x.0, x.1);
      StepKeepsInv(c, e);
      var rest := Drain(Apply(c, e));
      deliveries := [e] + rest;
      assert deliveries[1..] == rest;
    }
  }

  lemma SomeMessage(flight: multiset<(Node, Msg)>) returns (x: (Node, Msg))
    requires flight != multiset{}
    ensures x in flight
  {
    x :| x in flight;
  }

  // ---- What becomes of one write ----

  // Only the announcement of n's write of v is in flight. A named node keeps what it wrote; a
  // nameless one has dropped it or has its own announcement still to come.
  ghost predicate OneWriteOut(d: Cluster, n: Node, k: Key, v: Value) {
    && n in d.ids && n in d.stores
    && (forall x :: x in d.flight ==> x.1 == Msg({k}, d.ids[n]))
    && (d.ids[n] != "" ==> k in d.stores[n] && d.stores[n][k] == v)
    && (d.ids[n] == "" ==> k !in d.stores[n] || (n, Msg({k}, d.ids[n])) in d.flight)
  }

  lemma {:induction false} DeliveriesKeepOneWriteOut(d: Cluster, n: Node, k: Key, v: Value, deliveries: seq<Event>)
    requires OneWriteOut(d, n, k, v) && forall e :: e in deliveries ==> e.Deliver?
    ensures OneWriteOut(ApplyAll(d, deliveries), n, k, v) && ApplyAll(d, deliveries).ids == d.ids
    decreases |deliveries|
  {
    if deliveries != [] {
      var e := deliveries[0];
      assert e in deliveries;
      DeliveriesKeepOneWriteOut(Apply(d, e), n, k, v, deliveries[1..]);
    }
  }

  // After a write into a drained cluster and deliveries that drain it again, in any order, the
  // writer holds what it wrote if and only if it has a name.
  lemma WriteKeptIffNamed(c: Cluster, n: Node, k: Key, v: Value, deliveries: seq<Event>)
    requires n in c.ids && n in c.stores && c.flight == multiset{}
    requires forall e :: e in deliveries ==> e.Deliver?
    requires ApplyAll(Apply(c, SetAt(n, k, v)), deliveries).flight == multiset{}
    ensures var d := ApplyAll(Apply(c, SetAt(n, k, v)), deliveries);
      if c.ids[n] != "" then Holds(d, n, k) && d.stores[n][k] == v else !Holds(d, n, k)
  {
    var msg := Msg({k}, c.ids[n]);
    assert (n, msg) in set x | x in c.ids.Keys :: (x, msg);
    DeliveriesKeepOneWriteOut(Apply(c, SetAt(n, k, v)), n, k, v, deliveries);
  }

  // ---- The node's own methods make these steps ----

  // The cache object of node n holds what the cluster says n holds.
  ghost predicate StandsFor(cache: DabRedisCache, c: Cluster, n: Node)
    reads cache
  {
    && n in c.ids && n in c.stores && cache.hostId == c.ids[n] && cache.store == c.stores[n]
    && cache.ShouldBroadcast() && cache.hasDispatcherd
  }

  ghost predicate HappensAt(c: Cluster, e: Event, n: Node, keys: seq<Key>) {
    match e
    case SetAt(x, _, _) => x == n
    case AddAt(x, _, _) => x == n
    case DeleteAt(x, _) => x == n
    case Deliver(m, msg) => m == n && (m, msg) in c.flight && KeySet(keys) == msg.keys
  }

  // Carrying an event out with the methods of the cache keeps object and cluster in
  // step, and what the object publishes is what enters the flight, one copy per node.
  method Perform(ghost c: Cluster, e: Event, n: Node, cache: DabRedisCache, keys: seq<Key>)
    requires StandsFor(cache, c, n) && HappensAt(c, e, n, keys)
    modifies cache
    ensures StandsFor(cache, Apply(c, e), n)
    ensures old(cache.sent) <= cache.sent
    ensures var published := cache.sent[|old(cache.sent)|..];
            Apply(c, e).flight ==
              if e.Deliver? then c.flight - multiset{(e.m, e.msg)}
              else if published == [] then c.flight else c.flight + Copies(c.ids.Keys, published[0])
    ensures |cache.sent| == |old(cache.sent)| + if e.Deliver? || (e.AddAt? && e.k in old(cache.store)) then 0 else 1
  {
    match e {
      case SetAt(_, k, v) => cache.Set(k, v);
      case AddAt(_, k, v) => var added := cache.Add(k, v);
      case DeleteAt(_, k) => var deleted := cache.Delete(k);
      case Deliver(_, msg) => ReceiveInvalidation(cache, msg, keys);
    }
  }
}
