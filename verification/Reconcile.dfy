// Reconciling a user's role assignments with the claims of a login: a status per
// assignment, changed by claims, then carried out.
module Reconcile {
  import opened Graphs
  import opened Hierarchy

  type Role = string

  // The object_id column is text; only integers can be cached.
  datatype IdText = Numeric(n: int) | Other(text: string)

  datatype Scope = Global | OnObject(ct: TypeId, id: IdText)

  datatype Assignment = Assignment(role: Role, scope: Scope)

  datatype Status = Noop | Existing | ToAdd | ToRemove

  // The object an entry was cached with; None also when the target no longer exists.
  datatype Entry = Entry(target: Option<Obj>, status: Status)

  // Role name, content type and object id; the last two are absent for system roles.
  datatype Key = Key(role: Role, at: Option<Obj>)

  // What the tables and settings say while one login is processed; a role without a type
  // is a system role.
  datatype World = World(
    localTypes: set<TypeId>,
    resolvable: set<Obj>,
    roleType: map<Role, Option<TypeId>>,
    systemRolesForUsers: bool,
    orgType: TypeId,
    teamType: TypeId,
    orgByName: map<string, int>,
    teamByName: map<(int, string), int>)

  // One claim, resolved to an existing organization or team, or to the system.
  datatype Claim = Claim(role: Role, granted: bool, at: Option<Obj>)

  type Cache = map<Key, Entry>

  // ---- cache_existing ----

  predicate Cacheable(w: World, a: Assignment) {
    a.scope.Global? || (a.scope.ct in w.localTypes && a.scope.id.Numeric?)
  }

  function KeyOf(a: Assignment): Key
    requires a.scope.OnObject? ==> a.scope.id.Numeric?
  {
    match a.scope
    case Global => Key(a.role, None)
    case OnObject(ct, id) => Key(a.role, Some(Obj(ct, id.n)))
  }

  function AssignmentOf(k: Key): Assignment {
    match k.at
    case None => Assignment(k.role, Global)
    case Some(o) => Assignment(k.role, OnObject(o.ct, Numeric(o.pk)))
  }

  // An assignment and its key name each other; those on objects of other services, or with ids
  // that are not numbers, are not cached.
  lemma KeyNames(w: World, a: Assignment, k: Key)
    ensures Cacheable(w, a) <==>
      a.scope == Global || exists ct, n :: ct in w.localTypes && a.scope == OnObject(ct, Numeric(n))
    ensures a.scope == Global || a.scope.id.Numeric? ==> (KeyOf(a) == k <==> AssignmentOf(k) == a)
    ensures AssignmentOf(k).role == k.role
    ensures AssignmentOf(k).scope == match k.at case None => Global case Some(o) => OnObject(o.ct, Numeric(o.pk))
  {
    if Cacheable(w, a) && a.scope.OnObject? {
      assert a.scope == OnObject(a.scope.ct, Numeric(a.scope.id.n));
    }
  }

  function ExistingEntry(w: World, k: Key): Entry {
    Entry(if k.at.Some? && k.at.value in w.resolvable then k.at else None, Existing)
  }

  ghost predicate CachesExisting(w: World, held: set<Assignment>, cache: Cache) {
    forall k :: (
      && (k in cache <==> AssignmentOf(k) in held && Cacheable(w, AssignmentOf(k)))
      && (k in cache ==> cache[k] == ExistingEntry(w, k)))
  }

  // ---- add_or_remove ----

  function Marked(cache: Cache, c: Claim): Cache {
    var k := Key(c.role, c.at);
    if c.granted then
      if k !in cache then cache[k := Entry(c.at, ToAdd)]
      else if cache[k].status == Existing || cache[k].status == Noop then cache[k := Entry(c.at, Noop)]
      else cache
    else
      if k !in cache || cache[k].status == Noop then cache[k := Entry(c.at, Noop)]
      else if cache[k].status == Existing then cache[k := Entry(c.at, ToRemove)]
      else cache
  }

  ghost function MarkedAll(cache: Cache, claims: seq<Claim>): Cache
    decreases |claims|
  {
    if claims == [] then cache else MarkedAll(Marked(cache, claims[0]), claims[1..])
  }

  // The first claim about an assignment, if any.
  function FirstClaim(claims: seq<Claim>, k: Key): Option<bool>
    decreases |claims|
  {
    if claims == [] then None
    else if Key(claims[0].role, claims[0].at) == k then Some(claims[0].granted)
    else FirstClaim(claims[1..], k)
  }

  // Whether an entry is absent, untouched, or already decided by a claim.
  ghost predicate Settled(cache: Cache, k: Key, existed: bool, claim: Option<bool>) {
    match claim
    case None => if existed then k in cache && cache[k].status == Existing else k !in cache
    case Some(true) => k in cache && cache[k] == Entry(k.at, if existed then Noop else ToAdd)
    case Some(false) => k in cache && cache[k] == Entry(k.at, if existed then ToRemove else Noop)
  }

  // Later claims about the same assignment never change what the first one decided.
  lemma {:induction false} FirstClaimWins(cache: Cache, claims: seq<Claim>, k: Key, existed: bool,
    earlier: Option<bool>)
    requires Settled(cache, k, existed, earlier)
    ensures Settled(MarkedAll(cache, claims), k, existed, if earlier.Some? then earlier else FirstClaim(claims, k))
    ensures earlier.None? && FirstClaim(claims, k).None? && existed ==> MarkedAll(cache, claims)[k] == cache[k]
    decreases |claims|
  {
    if claims != [] {
      var c := claims[0];
      var next := if earlier.None? && Key(c.role, c.at) == k then Some(c.granted) else earlier;
      FirstClaimWins(Marked(cache, c), claims[1..], k, existed, next);
    }
  }

  // ---- the claims of a login, nested by organization and team ----

  type RoleClaims = seq<(Role, bool)>

  datatype OrgClaims = OrgClaims(roles: RoleClaims, teams: seq<(string, RoleClaims)>)

  datatype LoginClaims = LoginClaims(system: RoleClaims, organizations: seq<(string, OrgClaims)>)

  function ClaimsAt(roles: RoleClaims, at: Option<Obj>): (claims: seq<Claim>) {
    seq(|roles|, i requires 0 <= i < |roles| => Claim(roles[i].0, roles[i].1, at))
  }

  // Organizations that do not exist are skipped, with their teams.
  ghost function OrgRoleClaims(w: World, orgs: seq<(string, OrgClaims)>): seq<Claim> {
    if orgs == [] then []
    else
      (if orgs[0].0 in w.orgByName
       then ClaimsAt(orgs[0].1.roles, Some(Obj(w.orgType, w.orgByName[orgs[0].0]))) else [])
      + OrgRoleClaims(w, orgs[1..])
  }

  ghost function TeamClaims(w: World, org: int, teams: seq<(string, RoleClaims)>): seq<Claim> {
    if teams == [] then []
    else
      (if (org, teams[0].0) in w.teamByName
       then ClaimsAt(teams[0].1, Some(Obj(w.teamType, w.teamByName[(org, teams[0].0)]))) else [])
      + TeamClaims(w, org, teams[1..])
  }

  ghost function TeamRoleClaims(w: World, orgs: seq<(string, OrgClaims)>): seq<Claim> {
    if orgs == [] then []
    else
      (if orgs[0].0 in w.orgByName then TeamClaims(w, w.orgByName[orgs[0].0], orgs[0].1.teams) else [])
      + TeamRoleClaims(w, orgs[1..])
  }

  // System roles, then every organization's roles, then every team's.
  ghost function AllClaims(w: World, login: LoginClaims): seq<Claim> {
    ClaimsAt(login.system, None) + OrgRoleClaims(w, login.organizations) + TeamRoleClaims(w, login.organizations)
  }

  lemma {:induction false} MarkedInTurn(cache: Cache, a: seq<Claim>, b: seq<Claim>)
    ensures MarkedAll(cache, a + b) == MarkedAll(MarkedAll(cache, a), b)
    decreases |a|
  {
    if a == [] {
      assert a + b == b;
    } else {
      assert (a + b)[1..] == a[1..] + b;
      MarkedInTurn(Marked(cache, a[0]), a[1..], b);
    }
  }

  // ---- what reconciliation should leave ----

  predicate HasKey(a: Assignment) {
    a.scope.Global? || a.scope.id.Numeric?
  }

  // Claimed assignments follow the first claim about them, unclaimed ones are
  // kept unless the authenticator removes users, all others stay as they were.
  ghost predicate Wanted(w: World, held: set<Assignment>, claims: seq<Claim>, removeUsers: bool, a: Assignment) {
    if !HasKey(a) || a.role !in w.roleType then a in held
    else match FirstClaim(claims, KeyOf(a))
      case Some(granted) => granted
      case None => a in held && (removeUsers ==> !Cacheable(w, a))
  }

  ghost predicate AsWanted(w: World, before: set<Assignment>, claims: seq<Claim>, removeUsers: bool,
    after: set<Assignment>) {
    forall a :: a in after <==> Wanted(w, before, claims, removeUsers, a)
  }

  // A held, unclaimed assignment whose object cannot be loaded.
  ghost predicate Dangling(w: World, held: set<Assignment>, claims: seq<Claim>, k: Key) {
    && AssignmentOf(k) in held && Cacheable(w, AssignmentOf(k))
    && k.at.Some? && k.at.value !in w.resolvable && FirstClaim(claims, k).None?
  }

  ghost predicate NothingDangles(w: World, held: set<Assignment>, claims: seq<Claim>) {
    forall k :: !Dangling(w, held, claims, k)
  }

  // The organizations and teams claimed are of types this service owns.
  ghost predicate ClaimsAreLocal(w: World, claims: seq<Claim>) {
    forall c :: c in claims && c.at.Some? ==> c.at.value.ct in w.localTypes
  }

  // A role fits the system if it has no type and the setting allows it, and an object of its own type.
  predicate Fits(w: World, k: Key)
    requires k.role in w.roleType
  {
    match k.at
    case None => w.roleType[k.role].None? && w.systemRolesForUsers
    case Some(o) => w.roleType[k.role] == Some(o.ct)
  }

  // Assignments in the tables passed the check when they were made.
  ghost predicate HeldFits(w: World, held: set<Assignment>) {
    forall a :: a in held ==> (
      && a.role in w.roleType
      && w.roleType[a.role] == if a.scope.Global? then None else Some(a.scope.ct))
  }

  // A claim that asks for a new assignment, which the check refuses.
  ghost predicate Misfit(w: World, held: set<Assignment>, claims: seq<Claim>, k: Key) {
    k.role in w.roleType && FirstClaim(claims, k) == Some(true) && AssignmentOf(k) !in held && !Fits(w, k)
  }

  ghost predicate AddsFit(w: World, held: set<Assignment>, claims: seq<Claim>) {
    forall k :: !Misfit(w, held, claims, k)
  }

  // The cache that marking leaves, in terms of what was held and first claimed.
  ghost predicate Decided(w: World, held: set<Assignment>, claims: seq<Claim>, cache: Cache) {
    forall k :: (
      && Settled(cache, k, AssignmentOf(k) in held && Cacheable(w, AssignmentOf(k)), FirstClaim(claims, k))
      && (k in cache && FirstClaim(claims, k).None? ==> cache[k] == ExistingEntry(w, k)))
  }

  lemma MarkingDecides(w: World, held: set<Assignment>, start: Cache, claims: seq<Claim>)
    requires CachesExisting(w, held, start)
    ensures Decided(w, held, claims, MarkedAll(start, claims))
  {
    forall k
      ensures Settled(MarkedAll(start, claims), k, AssignmentOf(k) in held && Cacheable(w, AssignmentOf(k)),
                      FirstClaim(claims, k))
      ensures k in MarkedAll(start, claims) && FirstClaim(claims, k).None? ==>
                MarkedAll(start, claims)[k] == ExistingEntry(w, k)
    {
      FirstClaimWins(start, claims, k, k in start, None);
    }
  }

  lemma {:induction false} FirstClaimIsLocal(w: World, claims: seq<Claim>, k: Key)
    requires ClaimsAreLocal(w, claims)
    ensures FirstClaim(claims, k).Some? ==> Cacheable(w, AssignmentOf(k))
    decreases |claims|
  {
    if claims != [] {
      if Key(claims[0].role, claims[0].at) == k {
        assert claims[0] in claims;
      } else {
        FirstClaimIsLocal(w, claims[1..], k);
      }
    }
  }

  // The assignment an entry's call gives or removes: a missing target means the system role.
  function Acts(k: Key, e: Entry): Assignment {
    AssignmentOf(Key(k.role, e.target))
  }

  predicate Gives(w: World, k: Key, e: Entry) {
    k.role in w.roleType && e.status == ToAdd
  }

  predicate Raises(w: World, k: Key, e: Entry) {
    Gives(w, k, e) && !Fits(w, k)
  }

  predicate Removes(w: World, removeUsers: bool, k: Key, e: Entry) {
    k.role in w.roleType && (e.status == ToRemove || (e.status == Existing && removeUsers))
  }

  // Every call acts on the very assignment its entry is about, except the removal of a
  // dangling one, which looks for the system-wide assignment of the role.
  lemma ActsOnItself(w: World, held: set<Assignment>, claims: seq<Claim>, removeUsers: bool, cache: Cache, k: Key)
    requires Decided(w, held, claims, cache) && k in cache
    ensures Gives(w, k, cache[k]) ==> Acts(k, cache[k]) == AssignmentOf(k)
    ensures Removes(w, removeUsers, k, cache[k]) && cache[k].target == k.at ==> Acts(k, cache[k]) == AssignmentOf(k)
    ensures Removes(w, removeUsers, k, cache[k]) && cache[k].target != k.at ==>
              removeUsers && Dangling(w, held, claims, k) && Acts(k, cache[k]) == Assignment(k.role, Global)
  {
    assert Settled(cache, k, AssignmentOf(k) in held && Cacheable(w, AssignmentOf(k)), FirstClaim(claims, k));
  }

  lemma DecidedIsWanted(w: World, held: set<Assignment>, claims: seq<Claim>, removeUsers: bool, cache: Cache,
    a: Assignment)
    requires HeldFits(w, held) && ClaimsAreLocal(w, claims) && Decided(w, held, claims, cache)
    requires HasKey(a)
    ensures Wanted(w, held, claims, removeUsers, a) <==>
              if KeyOf(a) in cache && Gives(w, KeyOf(a), cache[KeyOf(a)]) then true
              else if KeyOf(a) in cache && Removes(w, removeUsers, KeyOf(a), cache[KeyOf(a)]) then false
              else a in held
  {
    var k := KeyOf(a);
    assert AssignmentOf(k) == a;
    FirstClaimIsLocal(w, claims, k);
    assert Settled(cache, k, a in held && Cacheable(w, a), FirstClaim(claims, k));
  }

  // The entry of a claim that the check refuses is the one whose call raises.
  lemma MisfitRaises(w: World, held: set<Assignment>, claims: seq<Claim>, cache: Cache, k: Key)
    requires ClaimsAreLocal(w, claims) && Decided(w, held, claims, cache)
    ensures Misfit(w, held, claims, k) <==> k in cache && Raises(w, k, cache[k])
  {
    FirstClaimIsLocal(w, claims, k);
    assert Settled(cache, k, AssignmentOf(k) in held && Cacheable(w, AssignmentOf(k)), FirstClaim(claims, k));
  }

  // The assignments after one entry is carried out; a call that raises changes nothing.
  function Applied(w: World, removeUsers: bool, k: Key, e: Entry, held: set<Assignment>): set<Assignment> {
    if Raises(w, k, e) then held
    else if Gives(w, k, e) then held + {Acts(k, e)}
    else if Removes(w, removeUsers, k, e) then held - {Acts(k, e)}
    else held
  }

  ghost predicate HeldAfter(w: World, removeUsers: bool, cache: Cache, done: set<Key>, before: set<Assignment>, k: Key)
    requires done <= cache.Keys
  {
    if k in done && Gives(w, k, cache[k]) && Fits(w, k) then true
    else if k in done && Removes(w, removeUsers, k, cache[k]) && cache[k].target == k.at then false
    else AssignmentOf(k) in before
  }

  // The entries done have had their effect and no other assignment changed.
  ghost predicate AppliedTo(w: World, removeUsers: bool, cache: Cache, done: set<Key>, before: set<Assignment>,
    held: set<Assignment>)
    requires done <= cache.Keys
  {
    && (forall a :: !HasKey(a) ==> (a in held <==> a in before))
    && (forall k :: AssignmentOf(k) in held <==> HeldAfter(w, removeUsers, cache, done, before, k))
  }

  lemma ApplyOne(w: World, removeUsers: bool, cache: Cache, done: set<Key>, k: Key, before: set<Assignment>,
    claims: seq<Claim>, held: set<Assignment>)
    requires Decided(w, before, claims, cache) && HeldFits(w, before) && HeldFits(w, held)
    requires done <= cache.Keys && k in cache && k !in done
    requires AppliedTo(w, removeUsers, cache, done, before, held)
    ensures HeldFits(w, Applied(w, removeUsers, k, cache[k], held))
    ensures AppliedTo(w, removeUsers, cache, done + {k}, before, Applied(w, removeUsers, k, cache[k], held))
  {
    var after := Applied(w, removeUsers, k, cache[k], held);
    ActsOnItself(w, before, claims, removeUsers, cache, k);
    if Removes(w, removeUsers, k, cache[k]) && cache[k].target != k.at {
      assert AssignmentOf(k) in before && Assignment(k.role, Global) !in held;
    }
    forall x
      ensures AssignmentOf(x) in after <==> HeldAfter(w, removeUsers, cache, done + {k}, before, x)
    {
      assert AssignmentOf(x) in held <==> HeldAfter(w, removeUsers, cache, done, before, x);
      assert AssignmentOf(x) == AssignmentOf(k) ==> x == k;
    }
  }

  // A dangling assignment is what removing users leaves behind.
  ghost predicate LeftBehind(w: World, held: set<Assignment>, claims: seq<Claim>, removeUsers: bool, a: Assignment) {
    removeUsers && HasKey(a) && Dangling(w, held, claims, KeyOf(a))
  }

  // However far the entries are carried out, an assignment is as it was or as wanted; all the
  // way, it is as wanted or left behind.
  lemma ResultOf(w: World, removeUsers: bool, cache: Cache, done: set<Key>, before: set<Assignment>,
    claims: seq<Claim>, held: set<Assignment>, a: Assignment)
    requires Decided(w, before, claims, cache) && HeldFits(w, before) && ClaimsAreLocal(w, claims)
    requires done <= cache.Keys && AppliedTo(w, removeUsers, cache, done, before, held)
    ensures (a in held <==> a in before) || (a in held <==> Wanted(w, before, claims, removeUsers, a))
    ensures LeftBehind(w, before, claims, removeUsers, a) ==> a in held && !Wanted(w, before, claims, removeUsers, a)
    ensures done == cache.Keys && AddsFit(w, before, claims) ==>
              (a in held <==>
                Wanted(w, before, claims, removeUsers, a) || LeftBehind(w, before, claims, removeUsers, a))
    ensures HasKey(a) && Misfit(w, before, claims, KeyOf(a)) ==>
              a !in held && Wanted(w, before, claims, removeUsers, a)
  {
    if HasKey(a) {
      var k := KeyOf(a);
      assert AssignmentOf(k) == a;
      DecidedIsWanted(w, before, claims, removeUsers, cache, a);
      MisfitRaises(w, before, claims, cache, k);
      assert Settled(cache, k, a in before && Cacheable(w, a), FirstClaim(claims, k));
      assert a in held <==> HeldAfter(w, removeUsers, cache, done, before, k);
      if k in cache {
        ActsOnItself(w, before, claims, removeUsers, cache, k);
      }
    }
  }

  // What carrying out the entries leaves, completely or until a call raises.
  ghost predicate Reconciled(w: World, before: set<Assignment>, claims: seq<Claim>, removeUsers: bool,
    after: set<Assignment>, raised: bool) {
    && (raised <==> !AddsFit(w, before, claims))
    && (AsWanted(w, before, claims, removeUsers, after) <==>
          AddsFit(w, before, claims) && (removeUsers ==> NothingDangles(w, before, claims)))
    && (!raised ==> forall a :: a in after <==>
          Wanted(w, before, claims, removeUsers, a) || LeftBehind(w, before, claims, removeUsers, a))
    && (forall a :: (a in after <==> a in before) || (a in after <==> Wanted(w, before, claims, removeUsers, a)))
  }

  lemma AllApplied(w: World, removeUsers: bool, cache: Cache, done: set<Key>, before: set<Assignment>,
    claims: seq<Claim>, held: set<Assignment>, raised: bool)
    requires Decided(w, before, claims, cache) && HeldFits(w, before) && ClaimsAreLocal(w, claims)
    requires done <= cache.Keys && AppliedTo(w, removeUsers, cache, done, before, held)
    requires if raised then exists k :: k in cache && Raises(w, k, cache[k])
             else done == cache.Keys && forall k :: k in done ==> !Raises(w, k, cache[k])
    ensures Reconciled(w, before, claims, removeUsers, held, raised)
  {
    forall k ensures Misfit(w, before, claims, k) <==> k in cache && Raises(w, k, cache[k]) {
      MisfitRaises(w, before, claims, cache, k);
    }
    forall a
      ensures (a in held <==> a in before) || (a in held <==> Wanted(w, before, claims, removeUsers, a))
      ensures !raised ==> (a in held <==>
                Wanted(w, before, claims, removeUsers, a) || LeftBehind(w, before, claims, removeUsers, a))
    {
      ResultOf(w, removeUsers, cache, done, before, claims, held, a);
    }
    if !AddsFit(w, before, claims) {
      var k :| Misfit(w, before, claims, k);
      assert KeyOf(AssignmentOf(k)) == k;
      ResultOf(w, removeUsers, cache, done, before, claims, held, AssignmentOf(k));
    } else if removeUsers && !NothingDangles(w, before, claims) {
      var k :| Dangling(w, before, claims, k);
      assert KeyOf(AssignmentOf(k)) == k;
      ResultOf(w, removeUsers, cache, done, before, claims, held, AssignmentOf(k));
    } else {
      assert forall a :: !LeftBehind(w, before, claims, removeUsers, a);
    }
  }

  class RoleUserAssignmentsCache {
    var cache: Cache

    constructor ()
      ensures cache == map[]
    {
      cache := map[];
    }

    method CacheExisting(w: World, held: set<Assignment>)
      requires cache == map[]
      modifies this
      ensures CachesExisting(w, held, cache)
    {
      var rest := held;
      while rest != {}
        invariant rest <= held
        invariant forall k :: (
          && (k in cache <==> AssignmentOf(k) in held - rest && Cacheable(w, AssignmentOf(k)))
          && (k in cache ==> cache[k] == ExistingEntry(w, k)))
        decreases rest
      {
        var a :| a in rest;
        rest := rest - {a};
        if Cacheable(w, a) {
          assert AssignmentOf(KeyOf(a)) == a;
          assert forall k :: AssignmentOf(k) == a ==> k == KeyOf(a);
          cache := cache[KeyOf(a) := ExistingEntry(w, KeyOf(a))];
        }
      }
    }

    method AddOrRemove(role: Role, granted: bool, at: Option<Obj>)
      modifies this
      ensures cache == Marked(old(cache), Claim(role, granted, at))
    {
      var k := Key(role, at);
      if granted {
        if k in cache && (cache[k].status == Existing || cache[k].status == Noop) {
          cache := cache[k := Entry(at, Noop)];
        } else if k !in cache {
          cache := cache[k := Entry(at, ToAdd)];
        }
      } else {
        if k !in cache || cache[k].status == Noop {
          cache := cache[k := Entry(at, Noop)];
        } else if cache[k].status == Existing {
          cache := cache[k := Entry(at, ToRemove)];
        }
      }
    }

    // The loop over one dictionary of role claims.
    method AddOrRemoveAll(roles: RoleClaims, at: Option<Obj>)
      modifies this
      ensures cache == MarkedAll(old(cache), ClaimsAt(roles, at))
    {
      ghost var all := ClaimsAt(roles, at);
      for i := 0 to |roles|
        invariant cache == MarkedAll(old(cache), all[..i])
      {
        AddOrRemove(roles[i].0, roles[i].1, at);
        MarkedInTurn(old(cache), all[..i], [all[i]]);
        assert all[..i + 1] == all[..i] + [all[i]];
      }
      assert all[..|roles|] == all;
    }
  }

  class ReconcileUser {
    const world: World
    const removeUsers: bool
    const permissions: RoleUserAssignmentsCache
    var held: set<Assignment>

    constructor (world: World, removeUsers: bool, held: set<Assignment>)
      ensures this.world == world && this.removeUsers == removeUsers && this.held == held
      ensures fresh(permissions) && permissions.cache == map[]
    {
      this.world, this.removeUsers, this.held := world, removeUsers, held;
      permissions := new RoleUserAssignmentsCache();
    }

    method ComputeOrganizationPermissions(orgs: seq<(string, OrgClaims)>)
      returns (found: seq<(int, seq<(string, RoleClaims)>)>)
      modifies permissions
      ensures permissions.cache == MarkedAll(old(permissions.cache), OrgRoleClaims(world, orgs))
      ensures found == FoundOrgs(orgs)
    {
      found := [];
      ghost var all := OrgRoleClaims(world, orgs);
      ghost var start := permissions.cache;
      assert orgs[0..] == orgs;
      for i := 0 to |orgs|
        invariant found + FoundOrgs(orgs[i..]) == FoundOrgs(orgs)
        invariant MarkedAll(permissions.cache, OrgRoleClaims(world, orgs[i..])) == MarkedAll(start, all)
      {
        assert orgs[i..][1..] == orgs[i + 1..];
        if orgs[i].0 in world.orgByName {
          var at := Some(Obj(world.orgType, world.orgByName[orgs[i].0]));
          MarkedInTurn(permissions.cache, ClaimsAt(orgs[i].1.roles, at), OrgRoleClaims(world, orgs[i + 1..]));
          permissions.AddOrRemoveAll(orgs[i].1.roles, at);
          found := found + [(world.orgByName[orgs[i].0], orgs[i].1.teams)];
        } else {
          assert OrgRoleClaims(world, orgs[i..]) == OrgRoleClaims(world, orgs[i + 1..]);
        }
      }
    }

    ghost function FoundOrgs(orgs: seq<(string, OrgClaims)>): seq<(int, seq<(string, RoleClaims)>)> {
      if orgs == [] then []
      else (if orgs[0].0 in world.orgByName then [(world.orgByName[orgs[0].0], orgs[0].1.teams)] else [])
           + FoundOrgs(orgs[1..])
    }

    method ComputeTeamPermissions(org: int, teams: seq<(string, RoleClaims)>)
      modifies permissions
      ensures permissions.cache == MarkedAll(old(permissions.cache), TeamClaims(world, org, teams))
    {
      ghost var start := permissions.cache;
      assert teams[0..] == teams;
      for i := 0 to |teams|
        invariant MarkedAll(permissions.cache, TeamClaims(world, org, teams[i..])) ==
                  MarkedAll(start, TeamClaims(world, org, teams))
      {
        assert teams[i..][1..] == teams[i + 1..];
        if (org, teams[i].0) in world.teamByName {
          var at := Some(Obj(world.teamType, world.teamByName[(org, teams[i].0)]));
          MarkedInTurn(permissions.cache, ClaimsAt(teams[i].1, at), TeamClaims(world, org, teams[i + 1..]));
          permissions.AddOrRemoveAll(teams[i].1, at);
        } else {
          assert TeamClaims(world, org, teams[i..]) == TeamClaims(world, org, teams[i + 1..]);
        }
      }
    }

    ghost function FoundTeamClaims(found: seq<(int, seq<(string, RoleClaims)>)>): seq<Claim> {
      if found == [] then []
      else TeamClaims(world, found[0].0, found[0].1) + FoundTeamClaims(found[1..])
    }

    lemma {:induction false} FoundTeams(orgs: seq<(string, OrgClaims)>)
      ensures FoundTeamClaims(FoundOrgs(orgs)) == TeamRoleClaims(world, orgs)
    {
      if orgs != [] {
        FoundTeams(orgs[1..]);
        if orgs[0].0 in world.orgByName {
          var head := (world.orgByName[orgs[0].0], orgs[0].1.teams);
          assert FoundOrgs(orgs) == [head] + FoundOrgs(orgs[1..]);
          assert FoundOrgs(orgs)[1..] == FoundOrgs(orgs[1..]);
        } else {
          assert FoundOrgs(orgs) == FoundOrgs(orgs[1..]);
          assert TeamRoleClaims(world, orgs) == TeamRoleClaims(world, orgs[1..]);
        }
      }
    }

    method ComputePermissions(login: LoginClaims)
      modifies permissions
      ensures permissions.cache == MarkedAll(old(permissions.cache), AllClaims(world, login))
    {
      ghost var start := permissions.cache;
      ghost var system := ClaimsAt(login.system, None);
      ghost var orgClaims := OrgRoleClaims(world, login.organizations);
      permissions.AddOrRemoveAll(login.system, None);
      var found := ComputeOrganizationPermissions(login.organizations);
      MarkedInTurn(start, system, orgClaims);
      ghost var middle := permissions.cache;
      assert found[0..] == found;
      for i := 0 to |found|
        invariant MarkedAll(permissions.cache, FoundTeamClaims(found[i..])) == MarkedAll(middle, FoundTeamClaims(found))
      {
        assert found[i..][1..] == found[i + 1..];
        MarkedInTurn(permissions.cache, TeamClaims(world, found[i].0, found[i].1), FoundTeamClaims(found[i + 1..]));
        ComputeTeamPermissions(found[i].0, found[i].1);
      }
      FoundTeams(login.organizations);
      MarkedInTurn(start, system + orgClaims, TeamRoleClaims(world, login.organizations));
    }

    method ApplyPermission(k: Key, e: Entry) returns (raised: bool, gave: set<Assignment>, took: set<Assignment>)
      modifies `held
      ensures held == Applied(world, removeUsers, k, e, old(held)) && raised == Raises(world, k, e)
      ensures !Gives(world, k, e) ==> gave == {}
      ensures !Removes(world, removeUsers, k, e) ==> took == {}
    {
      raised, gave, took := false, {}, {};
      if k.role !in world.roleType {
        return;
      }
      if e.status == ToAdd {
        if !Fits(world, k) {
          return true, {}, {};
        }
        held, gave := held + {Acts(k, e)}, {Acts(k, e)};
      } else if e.status == ToRemove {
        held, took := held - {Acts(k, e)}, {Acts(k, e)};
      } else if e.status == Existing && removeUsers {
        held, took := held - {Acts(k, e)}, {Acts(k, e)};
      }
    }

    // Carries the statuses out, in any order of the entries, until a call raises; gave and
    // took record the calls made.
    method ApplyPermissions(ghost claims: seq<Claim>)
      returns (raised: bool, gave: set<Assignment>, took: set<Assignment>)
      requires Decided(world, held, claims, permissions.cache)
      requires HeldFits(world, held) && ClaimsAreLocal(world, claims)
      modifies `held
      ensures HeldFits(world, held) && Reconciled(world, old(held), claims, removeUsers, held, raised)
      ensures (forall k :: k in permissions.cache ==>
                !Gives(world, k, permissions.cache[k]) && !Removes(world, removeUsers, k, permissions.cache[k])) ==>
              gave == {} && took == {}
    {
      raised, gave, took := false, {}, {};
      var cache := permissions.cache;
      ghost var before := held;
      ghost var quiet := forall k :: k in cache ==>
        !Gives(world, k, cache[k]) && !Removes(world, removeUsers, k, cache[k]);
      var rest := cache.Keys;
      while rest != {} && !raised
        invariant rest <= cache.Keys
        invariant permissions.cache == cache
        invariant HeldFits(world, held) && AppliedTo(world, removeUsers, cache, cache.Keys - rest, before, held)
        invariant raised ==> exists k :: k in cache && Raises(world, k, cache[k])
        invariant !raised ==> forall k :: k in cache.Keys - rest ==> !Raises(world, k, cache[k])
        invariant quiet ==> gave == {} && took == {}
        decreases rest
      {
        var k :| k in rest;
        ApplyOne(world, removeUsers, cache, cache.Keys - rest, k, before, claims, held);
        assert cache.Keys - (rest - {k}) == (cache.Keys - rest) + {k};
        rest := rest - {k};
        var given, taken;
        raised, given, taken := ApplyPermission(k, cache[k]);
        gave, took := gave + given, took + taken;
      }
      AllApplied(world, removeUsers, cache, cache.Keys - rest, before, claims, held, raised);
    }

    // The whole reconciliation of one login.
    method ManagePermissions(login: LoginClaims) returns (raised: bool, gave: set<Assignment>, took: set<Assignment>)
      requires permissions.cache == map[]
      requires HeldFits(world, held) && ClaimsAreLocal(world, AllClaims(world, login))
      modifies this, permissions
      ensures HeldFits(world, held) && Reconciled(world, old(held), AllClaims(world, login), removeUsers, held, raised)
      ensures AlreadyThere(world, old(held), AllClaims(world, login), removeUsers) ==> gave == {} && took == {}
    {
      permissions.CacheExisting(world, held);
      MarkingDecides(world, held, permissions.cache, AllClaims(world, login));
      ComputePermissions(login);
      if AlreadyThere(world, held, AllClaims(world, login), removeUsers) {
        NothingToDo(world, held, AllClaims(world, login), removeUsers, permissions.cache);
      }
      raised, gave, took := ApplyPermissions(AllClaims(world, login));
    }
  }

  // The assignments already agree with the claims.
  ghost predicate AlreadyThere(w: World, held: set<Assignment>, claims: seq<Claim>, removeUsers: bool) {
    AsWanted(w, held, claims, removeUsers, held)
  }

  lemma NothingToDo(w: World, held: set<Assignment>, claims: seq<Claim>, removeUsers: bool, cache: Cache)
    requires AlreadyThere(w, held, claims, removeUsers)
    requires HeldFits(w, held) && ClaimsAreLocal(w, claims) && Decided(w, held, claims, cache)
    ensures forall k :: k in cache ==> !Gives(w, k, cache[k]) && !Removes(w, removeUsers, k, cache[k])
  {
    forall k | k in cache
      ensures !Gives(w, k, cache[k]) && !Removes(w, removeUsers, k, cache[k])
    {
      var a := AssignmentOf(k);
      assert KeyOf(a) == k;
      DecidedIsWanted(w, held, claims, removeUsers, cache, a);
      assert Settled(cache, k, a in held && Cacheable(w, a), FirstClaim(claims, k));
      FirstClaimIsLocal(w, claims, k);
    }
  }

  // What one reconciliation wants is a fixed point: wanting it again asks for no change.
  lemma SecondRunIsQuiet(w: World, before: set<Assignment>, claims: seq<Claim>, removeUsers: bool,
    after: set<Assignment>)
    requires AsWanted(w, before, claims, removeUsers, after)
    ensures AlreadyThere(w, after, claims, removeUsers)
  {
    forall a
      ensures a in after <==> Wanted(w, after, claims, removeUsers, a)
    {
      assert a in after <==> Wanted(w, before, claims, removeUsers, a);
    }
  }
}
