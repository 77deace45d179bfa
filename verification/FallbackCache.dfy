// A cache with a primary and a fallback store, switched by a marker file that every
// process sees. Recovery clears both stores before the marker goes.
module FallbackCache {
  import opened Hierarchy

  // The fallback store also holds the two entries that coordinate recovery.
  datatype CacheKey = User(name: int) | RecoveryThreadId | RecoveryInProgress

  type Store = map<CacheKey, int>

  datatype Op =
    | Add(name: int, value: int)
    | Get(name: int)
    | Set(name: int, value: int)
    | Delete(name: int)
    | Clear

  datatype Response = Flag(ok: bool) | Found(value: Option<int>) | Done

  function Without(store: Store, k: CacheKey): Store {
    map j | j in store && j != k :: store[j]
  }

  // What one operation does to the store it lands on.
  function Effect(store: Store, op: Op): Store {
    match op
    case Add(n, v) => if User(n) in store then store else store[User(n) := v]
    case Get(n) => store
    case Set(n, v) => store[User(n) := v]
    case Delete(n) => Without(store, User(n))
    case Clear => map[]
  }

  function Reply(store: Store, op: Op): Response {
    match op
    case Add(n, v) => Flag(User(n) !in store)
    case Get(n) => Found(if User(n) in store then Some(store[User(n)]) else None)
    case Set(n, v) => Done
    case Delete(n) => Flag(User(n) in store)
    case Clear => Done
  }

  // What later gets see of one operation.
  lemma StoreLaws(store: Store, op: Op, n: int)
    ensures Reply(store, Get(n)) == Found(if User(n) in store then Some(store[User(n)]) else None)
    ensures op.Get? ==> Effect(store, op) == store
    ensures op.Set? ==>
      Reply(Effect(store, op), Get(n)) == if n == op.name then Found(Some(op.value)) else Reply(store, Get(n))
    ensures op.Add? ==>
      Reply(Effect(store, op), Get(n)) ==
        if n == op.name && Reply(store, Get(n)) == Found(None) then Found(Some(op.value)) else Reply(store, Get(n))
    ensures op.Delete? ==>
      Reply(Effect(store, op), Get(n)) == if n == op.name then Found(None) else Reply(store, Get(n))
    ensures op.Clear? ==> Effect(store, op) == map[]
    ensures op.Add? ==> Reply(store, op) == Flag(Reply(store, Get(op.name)) == Found(None))
    ensures op.Delete? ==> Reply(store, op) == Flag(Reply(store, Get(op.name)) != Found(None))
    ensures op.Set? || op.Clear? ==> Reply(store, op) == Done
    ensures forall k: CacheKey :: !k.User? && !op.Clear? ==>
      (k in Effect(store, op) <==> k in store) && (k in store ==> Effect(store, op)[k] == store[k])
  {
  }

  // The system as a value: both stores, the marker, whether the primary answers, and
  // how many recovery checks are queued. latest is the history of what was last written.
  datatype System = System(
    primary: Store,
    fallback: Store,
    marker: bool,
    up: bool,
    queued: nat,
    latest: map<int, int>)

  const START := System(map[], map[], false, true, 0, map[])

  // What a client believes after the reply it got.
  function Believed(latest: map<int, int>, op: Op, reply: Response): map<int, int> {
    match op
    case Add(n, v) => if reply == Flag(true) then latest[n := v] else latest
    case Get(n) => latest
    case Set(n, v) => latest[n := v]
    case Delete(n) => map j | j in latest && j != n :: latest[j]
    case Clear => map[]
  }

  // Against a store that holds exactly what is believed, belief follows the store.
  lemma BeliefFollowsStore(store: Store, latest: map<int, int>, op: Op)
    requires forall n :: User(n) in store <==> n in latest
    requires forall n :: n in latest ==> store[User(n)] == latest[n]
    ensures var after := Effect(store, op);
            var believed := Believed(latest, op, Reply(store, op));
            && (forall n :: User(n) in after <==> n in believed)
            && (forall n :: n in believed ==> after[User(n)] == believed[n])
  {
  }

  // start_recovery: claim the recovery, and queue one check unless one is running.
  function RecoveryStarted(s: System, self: int): System {
    var claimed := if RecoveryThreadId in s.fallback then s.fallback else s.fallback[RecoveryThreadId := self];
    if claimed[RecoveryThreadId] == self && RecoveryInProgress !in claimed then
      s.(fallback := claimed[RecoveryInProgress := 1], queued := s.queued + 1)
    else s.(fallback := claimed)
  }

  function Served(s: System, op: Op, self: int): (System, Response) {
    if s.marker then
      var after := s.(fallback := Effect(s.fallback, op), latest := Believed(s.latest, op, Reply(s.fallback, op)));
      (RecoveryStarted(after, self), Reply(s.fallback, op))
    else if s.up then
      (s.(primary := Effect(s.primary, op), latest := Believed(s.latest, op, Reply(s.primary, op))),
       Reply(s.primary, op))
    else
      (s.(marker := true, fallback := Effect(s.fallback, op), latest := Believed(s.latest, op, Reply(s.fallback, op))),
       Reply(s.fallback, op))
  }

  // check_primary_cache
  function Checked(s: System): System {
    if !s.up then s.(fallback := Without(s.fallback, RecoveryInProgress))
    else if s.marker then s.(primary := map[], fallback := map[], marker := false)
    else s.(fallback := Without(s.fallback, RecoveryInProgress))
  }

  datatype Event =
    | Client(op: Op, self: int)
    | PrimaryFails
    | PrimaryReturns
    | CheckRuns
    | ExpirePrimary(k: CacheKey)
    | ExpireFallback(k: CacheKey)
    | Restarts(left: nat)

  // Starting a process removes the marker file without clearing anything. Checks queued
  // by a process that ended are lost; at most left of them are still to run.
  function Restarted(s: System, left: nat): System {
    s.(marker := false, queued := if left < s.queued then left else s.queued)
  }

  function Apply(s: System, e: Event): System {
    match e
    case Client(op, self) => Served(s, op, self).0
    case PrimaryFails => s.(up := false)
    case PrimaryReturns => s.(up := true)
    case CheckRuns => if s.queued > 0 then Checked(s).(queued := s.queued - 1) else s
    case ExpirePrimary(k) => s.(primary := Without(s.primary, k))
    case ExpireFallback(k) => s.(fallback := Without(s.fallback, k))
    case Restarts(left) => Restarted(s, left)
  }

  function ApplyAll(s: System, events: seq<Event>): System
    decreases |events|
  {
    if events == [] then s else ApplyAll(Apply(s, events[0]), events[1..])
  }

  // ---- Nothing stale is ever served ----

  // Every user entry of the store is the latest write to its key.
  ghost predicate UpToDate(store: Store, latest: map<int, int>) {
    forall n :: User(n) in store ==> n in latest && store[User(n)] == latest[n]
  }

  ghost predicate NoUserData(store: Store) {
    forall n :: User(n) !in store
  }

  // Without the marker the fallback holds no user data; with it the primary does not
  // matter, because it is cleared before anybody reads it again.
  ghost predicate Inv(s: System) {
    if s.marker then UpToDate(s.fallback, s.latest)
    else NoUserData(s.fallback) && UpToDate(s.primary, s.latest)
  }

  lemma EffectKeepsUpToDate(store: Store, latest: map<int, int>, op: Op)
    requires UpToDate(store, latest)
    ensures UpToDate(Effect(store, op), Believed(latest, op, Reply(store, op)))
  {
  }

  lemma RecoveryStartKeepsInv(s: System, self: int)
    requires Inv(s) && s.marker
    ensures Inv(RecoveryStarted(s, self)) && RecoveryStarted(s, self).latest == s.latest &&
      RecoveryStarted(s, self).marker
  {
  }

  // No outage, or an outage that left nothing: no user data in the fallback and no
  // outdated entry in the primary.
  ghost predicate Harmless(s: System) {
    !s.marker || (NoUserData(s.fallback) && UpToDate(s.primary, s.latest))
  }

  lemma StepKeepsInv(s: System, e: Event)
    requires Inv(s) && (e.Restarts? ==> Harmless(s))
    ensures Inv(Apply(s, e))
  {
    match e
    case Client(op, self) =>
      if s.marker {
        EffectKeepsUpToDate(s.fallback, s.latest, op);
        var after := s.(fallback := Effect(s.fallback, op), latest := Believed(s.latest, op, Reply(s.fallback, op)));
        RecoveryStartKeepsInv(after, self);
      } else if s.up {
        EffectKeepsUpToDate(s.primary, s.latest, op);
      } else {
        EffectKeepsUpToDate(s.fallback, s.latest, op);
      }
    case _ =>
  }

  // Every restart of the run happens in a harmless state.
  ghost predicate RestartsHarmlessly(s: System, events: seq<Event>)
    decreases |events|
  {
    events != [] ==> (events[0].Restarts? ==> Harmless(s)) && RestartsHarmlessly(Apply(s, events[0]), events[1..])
  }

  lemma {:induction false} RunKeepsInv(s: System, events: seq<Event>)
    requires Inv(s) && RestartsHarmlessly(s, events)
    ensures Inv(ApplyAll(s, events))
    decreases |events|
  {
    if events != [] {
      StepKeepsInv(s, events[0]);
      RunKeepsInv(Apply(s, events[0]), events[1..]);
    }
  }

  // What a get answers is a miss or the latest write.
  ghost predicate MissOrLatest(s: System, n: int, self: int) {
    var reply := Served(s, Get(n), self).1;
    reply == Found(None) || (n in s.latest && reply == Found(Some(s.latest[n])))
  }

  // In every run of operations, failures, recoveries, expiries and harmless restarts, a get
  // answers a miss or the latest write: never a value from before an outage or a deleted one.
  lemma GetIsMissOrLatest(events: seq<Event>, n: int, self: int)
    requires RestartsHarmlessly(START, events)
    ensures MissOrLatest(ApplyAll(START, events), n, self)
  {
    RunKeepsInv(START, events);
  }

  // ---- The end of an outage ----

  // A check that finds the primary answering ends the outage with both stores empty; any other
  // check leaves the marker and both stores, and lets the next operation queue another one.
  lemma CheckEndsOutageIff(s: System)
    requires s.queued > 0
    ensures var d := Apply(s, CheckRuns);
      && d.queued == s.queued - 1 && d.up == s.up && d.latest == s.latest && RecoveryInProgress !in d.fallback
      && (s.marker && s.up ==> !d.marker && d.primary == map[] && d.fallback == map[])
      && (!(s.marker && s.up) ==>
            d.marker == s.marker && d.primary == s.primary &&
            forall k :: k != RecoveryInProgress ==>
              (k in d.fallback <==> k in s.fallback) && (k in s.fallback ==> d.fallback[k] == s.fallback[k]))
  {
  }

  // An operation during an outage queues a check exactly when recovery is not claimed by another
  // process and no check is marked as running, or when it clears those entries itself.
  lemma QueuesCheckIff(s: System, op: Op, self: int)
    requires s.marker
    ensures Apply(s, Client(op, self)).queued == s.queued +
      if op.Clear? ||
         ((RecoveryThreadId in s.fallback ==> s.fallback[RecoveryThreadId] == self) &&
          RecoveryInProgress !in s.fallback)
      then 1 else 0
    ensures var d := Apply(s, Client(op, self));
      && d.marker && d.up == s.up && d.primary == s.primary && RecoveryThreadId in d.fallback
      && (op.Clear? || RecoveryThreadId !in s.fallback ==> d.fallback[RecoveryThreadId] == self)
      && (!op.Clear? && RecoveryThreadId in s.fallback ==>
            d.fallback[RecoveryThreadId] == s.fallback[RecoveryThreadId])
  {
  }

  // With the primary back, one operation and the check it may have queued end the outage
  // exactly when a check was queued before or the operation queues one ...
  lemma OutageEndsIff(s: System, op: Op, self: int)
    requires s.marker && s.up
    ensures !Apply(Apply(s, Client(op, self)), CheckRuns).marker <==>
      || s.queued > 0 || op.Clear?
      || ((RecoveryThreadId in s.fallback ==> s.fallback[RecoveryThreadId] == self) &&
          RecoveryInProgress !in s.fallback)
  {
    QueuesCheckIff(s, op, self);
  }

  // ... and always once the claim and the mark of a process that died have expired.
  lemma OutageEndsAfterExpiry(s: System, op: Op, self: int)
    requires s.marker && s.up
    ensures var expired := Apply(Apply(s, ExpireFallback(RecoveryThreadId)), ExpireFallback(RecoveryInProgress));
      !Apply(Apply(expired, Client(op, self)), CheckRuns).marker
  {
    var expired := Apply(Apply(s, ExpireFallback(RecoveryThreadId)), ExpireFallback(RecoveryInProgress));
    assert RecoveryThreadId !in expired.fallback && RecoveryInProgress !in expired.fallback;
    OutageEndsIff(expired, op, self);
  }

  // ---- Restarting a process ----

  ghost predicate NoRestart(events: seq<Event>) {
    forall e :: e in events ==> !e.Restarts?
  }

  lemma {:induction false} NoRestartIsHarmless(s: System, events: seq<Event>)
    requires NoRestart(events)
    ensures RestartsHarmlessly(s, events)
    decreases |events|
  {
    if events != [] {
      assert events[0] in events;
      NoRestartIsHarmless(Apply(s, events[0]), events[1..]);
    }
  }

  // Whatever happens next, short of another restart, no get is wrong.
  ghost predicate SafeFromHere(s: System) {
    forall events, n, self :: NoRestart(events) ==> MissOrLatest(ApplyAll(s, events), n, self)
  }

  lemma InTurn(s: System, a: Event, b: Event, c: Event)
    ensures ApplyAll(s, [a]) == Apply(s, a)
    ensures ApplyAll(s, [a, b, c]) == Apply(Apply(Apply(s, a), b), c)
  {
    assert [a][1..] == [];
    var events := [a, b, c];
    assert events[1..] == [b, c] && [b, c][1..] == [c] && [c][1..] == [];
    assert ApplyAll(s, events) == ApplyAll(Apply(s, a), [b, c]) == ApplyAll(Apply(Apply(s, a), b), [c]);
    assert ApplyAll(Apply(Apply(s, a), b), [c]) == Apply(Apply(Apply(s, a), b), c);
  }

  // An outdated entry of the primary is served as soon as the primary is back.
  lemma OutdatedEntryIsServed(s: System, n: int)
    requires !s.marker && User(n) in s.primary && !(n in s.latest && s.primary[User(n)] == s.latest[n])
    ensures !SafeFromHere(s)
  {
    var events := [PrimaryReturns];
    InTurn(s, PrimaryReturns, PrimaryReturns, PrimaryReturns);
    assert NoRestart(events) && !MissOrLatest(ApplyAll(s, events), n, 0);
  }

  // User data left in the fallback is served in the next outage, over what was written since.
  lemma LeftoverIsServed(s: System, n: int)
    requires !s.marker && User(n) in s.fallback
    ensures !SafeFromHere(s)
  {
    var write := Client(Set(n, s.fallback[User(n)] + 1), 0);
    var events := [PrimaryReturns, write, PrimaryFails];
    InTurn(s, PrimaryReturns, write, PrimaryFails);
    assert NoRestart(events) && !MissOrLatest(ApplyAll(s, events), n, 0);
  }

  // A restart in a reachable state makes no later get wrong if and only if that state is harmless.
  lemma RestartSafeIff(events: seq<Event>, left: nat)
    requires RestartsHarmlessly(START, events)
    ensures SafeFromHere(Restarted(ApplyAll(START, events), left)) <==> Harmless(ApplyAll(START, events))
  {
    var s := ApplyAll(START, events);
    var r := Restarted(s, left);
    RunKeepsInv(START, events);
    if Harmless(s) {
      forall more, n, self | NoRestart(more) ensures MissOrLatest(ApplyAll(r, more), n, self) {
        NoRestartIsHarmless(r, more);
        RunKeepsInv(r, more);
      }
    } else if n :| User(n) in s.fallback {
      LeftoverIsServed(r, n);
    } else {
      var n :| User(n) in s.primary && !(n in s.latest && s.primary[User(n)] == s.latest[n]);
      OutdatedEntryIsServed(r, n);
    }
  }

  // Written before the outage, overwritten during it, then read after a restart: the old value.
  lemma RestartServesStaleValue()
    ensures var events := [Client(Set(7, 1), 0), PrimaryFails, Client(Set(7, 2), 0), PrimaryReturns];
      var s := Restarted(ApplyAll(START, events), 0);
      s.latest[7] == 2 && Served(s, Get(7), 0).1 == Found(Some(1))
  {
    var events := [Client(Set(7, 1), 0), PrimaryFails, Client(Set(7, 2), 0), PrimaryReturns];
    var s1 := Apply(START, events[0]);
    var s2 := Apply(s1, events[1]);
    var s3 := Apply(s2, events[2]);
    var s4 := Apply(s3, events[3]);
    assert events[1..] == [PrimaryFails, Client(Set(7, 2), 0), PrimaryReturns];
    assert events[1..][1..] == [Client(Set(7, 2), 0), PrimaryReturns];
    assert events[1..][1..][1..] == [PrimaryReturns];
    assert events[1..][1..][1..][1..] == [];
    assert ApplyAll(START, events) == ApplyAll(s1, events[1..]) == ApplyAll(s2, events[1..][1..]);
    assert ApplyAll(s2, events[1..][1..]) == ApplyAll(s3, events[1..][1..][1..]) == s4;
  }

  // ---- The object whose methods switch stores ----

  class DabCacheWithFallback {
    const self: int
    var primary: Store
    var fallback: Store
    var marker: bool
    var up: bool
    var queued: nat
    ghost var latest: map<int, int>

    ghost function View(): System
      reads this
    {
      System(primary, fallback, marker, up, queued, latest)
    }

    // A new process: the marker file is removed if it is there.
    constructor (self: int, primary: Store, fallback: Store, marker: bool, up: bool, ghost latest: map<int, int>)
      ensures this.self == self && View() == Restarted(System(primary, fallback, marker, up, 0, latest), 0)
    {
      this.self := self;
      this.primary, this.fallback, this.up, this.latest := primary, fallback, up, latest;
      this.marker, this.queued := false, 0;
    }

    method OpWithFallback(op: Op) returns (response: Response)
      modifies this
      ensures (View(), response) == Served(old(View()), op, self)
      ensures up == old(up) && marker == (old(marker) || !old(up))
      ensures response == Reply(if marker then old(fallback) else old(primary), op)
      ensures primary == if marker then old(primary) else Effect(old(primary), op)
      ensures !old(marker) ==> queued == old(queued)
      ensures !old(marker) ==> fallback == if marker then Effect(old(fallback), op) else old(fallback)
      ensures forall n ::
        User(n) in fallback <==> User(n) in if marker then Effect(old(fallback), op) else old(fallback)
      ensures forall n :: marker && User(n) in fallback ==> fallback[User(n)] == Effect(old(fallback), op)[User(n)]
      ensures old(Inv(View())) ==> Inv(View())
      ensures old(Inv(View())) && op.Get? ==>
        response == Found(None) || (op.name in old(latest) && response == Found(Some(old(latest)[op.name])))
    {
      ghost var before := View();
      if marker {
        response := Reply(fallback, op);
        fallback := Effect(fallback, op);
        latest := Believed(latest, op, response);
        StartRecovery();
      } else if up {
        response := Reply(primary, op);
        primary := Effect(primary, op);
        latest := Believed(latest, op, response);
      } else {
        marker := true;
        response := Reply(fallback, op);
        fallback := Effect(fallback, op);
        latest := Believed(latest, op, response);
      }
      if Inv(before) { StepKeepsInv(before, Client(op, self)); }
    }

    method StartRecovery()
      modifies this`fallback, this`queued
      ensures View() == RecoveryStarted(old(View()), self)
    {
      if RecoveryThreadId !in fallback { fallback := fallback[RecoveryThreadId := self]; }
      var recoverer := fallback[RecoveryThreadId];
      if recoverer == self {
        var rip := RecoveryInProgress in fallback;
        if !rip {
          fallback := fallback[RecoveryInProgress := 1];
          queued := queued + 1;
        }
      }
    }

    // Runs on the thread pool; any failure of the primary leaves everything as it is.
    method CheckPrimaryCache()
      requires queued > 0
      modifies this
      ensures View() == Apply(old(View()), CheckRuns)
      ensures queued == old(queued) - 1 && up == old(up) && RecoveryInProgress !in fallback
      ensures up && old(marker) ==> !marker && primary == map[] && fallback == map[]
      ensures !(up && old(marker)) ==> marker == old(marker) && primary == old(primary)
      ensures !(up && old(marker)) ==> forall k :: k != RecoveryInProgress ==>
        (k in fallback <==> k in old(fallback)) && (k in fallback ==> fallback[k] == old(fallback)[k])
      ensures old(Inv(View())) ==> Inv(View())
    {
      ghost var before := View();
      queued := queued - 1;
      if up && marker {
        primary := map[];
        fallback := map[];
        marker := false;
      }
      fallback := Without(fallback, RecoveryInProgress);
      if Inv(before) { StepKeepsInv(before, CheckRuns); }
    }
  }
}
