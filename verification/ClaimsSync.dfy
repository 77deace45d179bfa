// Saving the claims received about a user: missing organizations and teams are
// created, claimed roles given, and stale managed assignments removed.
module ClaimsSync {
  import opened Graphs
  import opened Hierarchy
  import opened SortedText
  import opened ClaimsEncoding

  datatype Target = Target(model: string, pk: int)

  // One role assignment of the user; without a target it is system-wide.
  datatype Grant = Grant(role: string, at: Option<Target>)

  // Role names managed through claims, the content type of every role definition that
  // exists or can be constructed (None for system roles), and whether users may have system roles.
  datatype RoleTable = RoleTable(managed: set<string>, modelOf: map<string, Option<string>>, systemRolesForUsers: bool)

  predicate Applies(t: RoleTable, role: string) {
    role in t.modelOf && role in t.managed
  }

  // ---- what the code demands of the claims ----

  // Every object has an id, and an id names one object.
  ghost predicate ObjectsFit(claims: Claims) {
    && (forall m, i :: m in claims.objects && 0 <= i < |claims.objects[m]| ==> claims.objects[m][i].id != "")
    && (forall m, i, n, j ::
          (m in claims.objects && n in claims.objects && 0 <= i < |claims.objects[m]| && 0 <= j < |claims.objects[n]| &&
           claims.objects[m][i].id == claims.objects[n][j].id) ==> m == n)
  }

  // A team that is not known yet points at an organization.
  ghost predicate EntryFits(claims: Claims, known: map<string, Target>, entry: ObjectData, model: string) {
    model == TEAM && entry.id !in known ==> entry.org.Some? && entry.org.value < |ObjectsOf(claims, ORGANIZATION)|
  }

  ghost predicate RoleFits(t: RoleTable, claims: Claims, known: map<string, Target>, role: string)
    requires role in claims.objectRoles
  {
    var data := claims.objectRoles[role];
    && (forall i :: i in data.objects ==>
          i < |ObjectsOf(claims, data.model)| && EntryFits(claims, known, claims.objects[data.model][i], data.model))
    && (data.objects != [] ==> role in t.modelOf && t.modelOf[role] == Some(data.model))
  }

  // Nothing is asked of roles that do not apply here.
  ghost predicate ClaimsFit(t: RoleTable, claims: Claims, known: map<string, Target>) {
    && ObjectsFit(claims)
    && (forall r :: r in claims.objectRoles && Applies(t, r) ==> RoleFits(t, claims, known, r))
    && (forall g :: g in claims.globalRoles && Applies(t, g) ==> t.modelOf[g].None? && t.systemRolesForUsers)
  }

  // ---- what the database guarantees ----

  // No two resources are the same object, and new keys are unused.
  ghost predicate RegistryValid(resources: map<string, Target>, nextPk: int) {
    && (forall a, b :: a in resources && b in resources && resources[a] == resources[b] ==> a == b)
    && (forall a :: a in resources ==> resources[a].pk < nextPk)
  }

  // Known ids name objects of the type the claims say.
  ghost predicate Typed(resources: map<string, Target>, claims: Claims) {
    forall m, i :: m in claims.objects && 0 <= i < |claims.objects[m]| && claims.objects[m][i].id in resources ==>
                     resources[claims.objects[m][i].id].model == m
  }

  ghost predicate GrantFits(t: RoleTable, g: Grant) {
    g.role in t.modelOf && t.modelOf[g.role] == if g.at.Some? then Some(g.at.value.model) else None
  }

  ghost predicate HeldFits(t: RoleTable, held: set<Grant>) {
    forall g :: g in held ==> GrantFits(t, g)
  }

  // ---- the outcome ----

  predicate Creatable(model: string) {
    model == ORGANIZATION || model == TEAM
  }

  // Nothing known is forgotten.
  ghost predicate Extends(before: map<string, Target>, after: map<string, Target>) {
    forall a :: a in before ==> a in after && after[a] == before[a]
  }

  ghost function ClaimedIds(claims: Claims): set<string> {
    set m, i | m in claims.objects && 0 <= i < |claims.objects[m]| :: claims.objects[m][i].id
  }

  // Only organizations and teams of the claims are added.
  ghost predicate OnlyClaimedAdded(before: map<string, Target>, after: map<string, Target>, claims: Claims) {
    forall a :: a in after && a !in before ==> a in ClaimedIds(claims) && Creatable(after[a].model)
  }

  // What the claimed ids of a role stand for, as far as they are known.
  ghost function DesiredFor(role: string, ids: seq<string>, resources: map<string, Target>): set<Grant> {
    set id | id in ids && id in resources :: Grant(role, Some(resources[id]))
  }

  // The assignments a user ends with: unmanaged ones as before, and of the
  // managed ones exactly those claimed.
  ghost predicate Claimed(t: RoleTable, claims: Claims, resources: map<string, Target>, g: Grant) {
    && Applies(t, g.role)
    && (g.at.None? ==> g.role in claims.globalRoles)
    && (g.at.Some? ==> g.role in claims.objectRoles && g in DesiredFor(g.role, DecodedRole(claims, g.role), resources))
  }

  ghost predicate Saved(t: RoleTable, claims: Claims, before: set<Grant>, resources: map<string, Target>,
    after: set<Grant>)
  {
    forall g :: g in after <==>
      if g.role in t.managed then Claimed(t, claims, resources, g) else g in before
  }

  lemma {:induction false} DecodedInRange(objects: seq<ObjectData>, indexes: seq<nat>, id: string)
    requires forall i :: i in indexes ==> i < |objects|
    requires forall o :: o in objects ==> o.id != ""
    ensures id in Decoded(objects, indexes) <==> exists i :: i in indexes && objects[i].id == id
  {
    if indexes != [] {
      var n := |indexes| - 1;
      assert forall i :: i in indexes[..n] ==> i in indexes;
      assert indexes[n] in indexes;
      DecodedInRange(objects, indexes[..n], id);
      assert indexes == indexes[..n] + [indexes[n]];
      assert objects[indexes[n]] in objects;
      if i :| i in indexes && objects[i].id == id {
        assert i in indexes[..n] || i == indexes[n];
      }
    }
  }

  class Database {
    const roles: RoleTable
    var resources: map<string, Target>
    var nextPk: int
    var held: set<Grant>

    constructor (roles: RoleTable, resources: map<string, Target>, nextPk: int, held: set<Grant>)
      ensures this.roles == roles && this.resources == resources && this.nextPk == nextPk && this.held == held
    {
      this.roles, this.resources, this.nextPk, this.held := roles, resources, nextPk, held;
    }

    method CreateResource(model: string, id: string) returns (target: Target)
      requires RegistryValid(resources, nextPk) && id !in resources
      modifies `resources, `nextPk
      ensures RegistryValid(resources, nextPk)
      ensures resources == old(resources)[id := target] && target.model == model
    {
      target := Target(model, nextPk);
      resources, nextPk := resources[id := target], nextPk + 1;
    }

    // Finds the object, or creates it; a team's organization comes first.
    method GetOrCreateResource(claims: Claims, model: string, entry: ObjectData) returns (found: Option<Target>)
      requires RegistryValid(resources, nextPk) && ObjectsFit(claims) && Typed(resources, claims)
      requires model in claims.objects && entry in claims.objects[model] && EntryFits(claims, resources, entry, model)
      modifies `resources, `nextPk
      ensures RegistryValid(resources, nextPk) && Typed(resources, claims)
      ensures Extends(old(resources), resources) && OnlyClaimedAdded(old(resources), resources, claims)
      ensures found.Some? <==> entry.id in old(resources) || model == "organization" || model == "team"
      ensures found.Some? <==> entry.id in resources
      ensures found.Some? ==> resources[entry.id] == found.value && found.value.model == model
      ensures entry.id in old(resources) || (model != "organization" && model != "team") ==>
        resources == old(resources)
      ensures model == ORGANIZATION ==> resources.Keys == old(resources).Keys + {entry.id}
      decreases model == TEAM
    {
      ghost var at :| 0 <= at < |claims.objects[model]| && claims.objects[model][at] == entry;
      if entry.id in resources {
        return Some(resources[entry.id]);
      }
      if model == TEAM {
        var org := claims.objects[ORGANIZATION][entry.org.value];
        var _ := GetOrCreateResource(claims, ORGANIZATION, org);
      }
      if Creatable(model) {
        var target := CreateResource(model, entry.id);
        found := Some(target);
      } else {
        found := None;
      }
    }

    // Pass 1 for one role: resolves its objects.
    method ResolveRole(claims: Claims, role: string) returns (desired: set<Grant>)
      requires ObjectsFit(claims) && role in claims.objectRoles && RoleFits(roles, claims, resources, role)
      requires RegistryValid(resources, nextPk) && Typed(resources, claims)
      modifies `resources, `nextPk
      ensures Advances(claims, old(resources), resources, nextPk)
      ensures desired == DesiredFor(role, DecodedRole(claims, role), resources)
      ensures Attempted(DecodedRole(claims, role), claims.objectRoles[role].model, resources)
      ensures Attempted(DecodedRole(claims, role), claims.objectRoles[role].model, old(resources)) ==>
                resources == old(resources)
    {
      desired := {};
      var data := claims.objectRoles[role];
      var objects := ObjectsOf(claims, data.model);
      ghost var start := resources;
      for n := 0 to |data.objects|
        invariant Advances(claims, start, resources, nextPk)
        invariant Collected(role, data.model, Decoded(objects, data.objects[..n]), start, resources, desired)
      {
        ghost var soFar, before := resources, desired;
        assert data.objects[n] in data.objects;
        var entry := objects[data.objects[n]];
        var found := GetOrCreateResource(claims, data.model, entry);
        if found.Some? {
          desired := desired + {Grant(role, Some(found.value))};
        }
        CollectedOneMore(claims, role, data.model, data.objects, n, start, soFar, resources, before);
      }
      assert data.objects[..|data.objects|] == data.objects;
    }

    // Pass 1: every applicable role, in any order.
    method ResolveClaims(claims: Claims) returns (desired: set<Grant>)
      requires ClaimsFit(roles, claims, resources)
      requires RegistryValid(resources, nextPk) && Typed(resources, claims)
      modifies `resources, `nextPk
      ensures Advances(claims, old(resources), resources, nextPk)
      ensures Desires(roles, claims, resources, claims.objectRoles.Keys, desired)
      ensures AllAttempted(roles, claims, resources)
      ensures AllAttempted(roles, claims, old(resources)) ==> resources == old(resources)
    {
      desired := {};
      var rest := claims.objectRoles.Keys;
      ghost var start := resources;
      while rest != {}
        invariant rest <= claims.objectRoles.Keys
        invariant Advances(claims, start, resources, nextPk)
        invariant Desires(roles, claims, resources, claims.objectRoles.Keys - rest, desired)
        invariant RolesAttempted(roles, claims, claims.objectRoles.Keys - rest, resources)
        invariant AllAttempted(roles, claims, start) ==> resources == start
        decreases rest
      {
        var role :| role in rest;
        ghost var done := claims.objectRoles.Keys - rest;
        rest := rest - {role};
        assert claims.objectRoles.Keys - rest == done + {role};
        ghost var soFar := resources;
        if Applies(roles, role) {
          StillFits(roles, claims, start, soFar, role);
          var more := ResolveRole(claims, role);
          DesiresOneMore(roles, claims, start, soFar, resources, done, role, desired);
          desired := desired + more;
        }
        OneMoreAttempted(roles, claims, done, role, soFar, resources);
      }
      assert claims.objectRoles.Keys - rest == claims.objectRoles.Keys;
    }

    // Global roles are given one by one.
    method GiveGlobalRoles(claims: Claims) returns (kept: set<Grant>)
      modifies `held
      ensures held == old(held) + kept
      ensures forall g :: g in kept <==> g.at.None? && g.role in claims.globalRoles && Applies(roles, g.role)
    {
      kept := {};
      for n := 0 to |claims.globalRoles|
        invariant held == old(held) + kept
        invariant forall g :: g in kept <==> g.at.None? && g.role in claims.globalRoles[..n] && Applies(roles, g.role)
      {
        var role := claims.globalRoles[n];
        if Applies(roles, role) {
          held, kept := held + {Grant(role, None)}, kept + {Grant(role, None)};
        }
      }
      assert claims.globalRoles[..|claims.globalRoles|] == claims.globalRoles;
    }

    // Pass 3: managed assignments that are not wanted any more. Object-scoped
    // ones are compared by role and primary key alone.
    method RemoveStale(kept: set<Grant>, desired: set<Grant>)
      requires HeldFits(roles, held) && HeldFits(roles, desired)
      requires forall g :: g in desired ==> g.at.Some?
      modifies `held
      ensures forall g :: g in held <==> g in old(held) && (g.role in roles.managed ==> g in kept || g in desired)
    {
      var desiredKeys := set g | g in desired :: (g.role, g.at.value.pk);
      var rest := held;
      while rest != {}
        invariant rest <= old(held)
        invariant forall g :: g in held <==> g in old(held) &&
                                             (g.role in roles.managed ==> g in rest || g in kept || g in desired)
        decreases rest
      {
        var g :| g in rest;
        rest := rest - {g};
        if g.role in roles.managed && g !in kept {
          if g.at.None? || (g.role, g.at.value.pk) !in desiredKeys {
            held := held - {g};
          } else {
            var d :| d in desired && (d.role, d.at.value.pk) == (g.role, g.at.value.pk);
            assert GrantFits(roles, d) && GrantFits(roles, g);
          }
        }
      }
    }

    method SaveUserClaims(claims: Claims)
      requires ClaimsFit(roles, claims, resources) && HeldFits(roles, held)
      requires RegistryValid(resources, nextPk) && Typed(resources, claims)
      modifies this
      ensures RegistryValid(resources, nextPk) && Typed(resources, claims) && HeldFits(roles, held)
      ensures SaveOutcome(roles, claims, old(resources), old(held), resources, held)
    {
      var kept := GiveGlobalRoles(claims);
      var desired := ResolveClaims(claims);
      DesiredFits(roles, claims, old(resources), resources, desired);
      assert HeldFits(roles, held);
      if desired != {} {
        held := held + desired;
      }
      RemoveStale(kept, desired);
      AllKnownOrCreated(roles, claims, old(resources), resources);
    }
  }

  ghost predicate AllKnown(ids: seq<string>, resources: map<string, Target>) {
    forall id :: id in ids ==> id in resources
  }

  // Everything that can be created has been.
  ghost predicate Attempted(ids: seq<string>, model: string, resources: map<string, Target>) {
    Creatable(model) ==> AllKnown(ids, resources)
  }

  ghost predicate RolesAttempted(t: RoleTable, claims: Claims, done: set<string>, resources: map<string, Target>)
    requires done <= claims.objectRoles.Keys
  {
    forall r :: r in done && Applies(t, r) ==> Attempted(DecodedRole(claims, r), claims.objectRoles[r].model, resources)
  }

  ghost predicate AllAttempted(t: RoleTable, claims: Claims, resources: map<string, Target>) {
    RolesAttempted(t, claims, claims.objectRoles.Keys, resources)
  }

  lemma OneMoreAttempted(t: RoleTable, claims: Claims, done: set<string>, role: string,
    before: map<string, Target>, after: map<string, Target>)
    requires done <= claims.objectRoles.Keys && role in claims.objectRoles
    requires RolesAttempted(t, claims, done, before) && Extends(before, after)
    requires Applies(t, role) ==> Attempted(DecodedRole(claims, role), claims.objectRoles[role].model, after)
    ensures RolesAttempted(t, claims, done + {role}, after)
  {
  }

  // Of the ids claimed by an applicable role, exactly those known before and those of
  // organizations and teams are known afterwards.
  ghost predicate CreatesWhatItCan(t: RoleTable, claims: Claims, known: map<string, Target>,
    resources: map<string, Target>)
  {
    forall r, id :: r in claims.objectRoles && Applies(t, r) && id in DecodedRole(claims, r) ==>
      (id in resources <==> id in known || Creatable(claims.objectRoles[r].model))
  }

  // What one save leaves: known resources stay known, organizations and teams claimed by an
  // applicable role are created, nothing is created when all of them exist, and the
  // assignments are as claimed.
  ghost predicate SaveOutcome(t: RoleTable, claims: Claims, known: map<string, Target>, before: set<Grant>,
    resources: map<string, Target>, after: set<Grant>)
  {
    && Extends(known, resources) && OnlyClaimedAdded(known, resources, claims)
    && CreatesWhatItCan(t, claims, known, resources)
    && (AllAttempted(t, claims, known) ==> resources == known)
    && Saved(t, claims, before, resources, after)
  }

  // One assignment after saving. A managed one on an object is there exactly when the role exists
  // here and an index claimed for it leads to an object whose id is known to be the target.
  lemma SavedMeans(t: RoleTable, claims: Claims, known: map<string, Target>, before: set<Grant>,
    resources: map<string, Target>, after: set<Grant>, role: string, target: Target)
    requires ClaimsFit(t, claims, known) && SaveOutcome(t, claims, known, before, resources, after)
    ensures role !in t.managed ==>
      (Grant(role, None) in after <==> Grant(role, None) in before) &&
      (Grant(role, Some(target)) in after <==> Grant(role, Some(target)) in before)
    ensures role in t.managed ==>
      (Grant(role, None) in after <==> role in t.modelOf && role in claims.globalRoles)
    ensures role in t.managed ==>
      (Grant(role, Some(target)) in after <==>
       role in t.modelOf && role in claims.objectRoles &&
       var data := claims.objectRoles[role];
       data.model in claims.objects && exists i :: (
         i in data.objects && i < |claims.objects[data.model]| &&
         claims.objects[data.model][i].id in resources && resources[claims.objects[data.model][i].id] == target))
  {
    if role in t.managed && role in t.modelOf && role in claims.objectRoles {
      var data := claims.objectRoles[role];
      assert RoleFits(t, claims, known, role);
      forall id { DecodedInRole(t, claims, known, role, id); }
    }
  }

  lemma DecodedInRole(t: RoleTable, claims: Claims, known: map<string, Target>, role: string, id: string)
    requires ObjectsFit(claims) && role in claims.objectRoles && RoleFits(t, claims, known, role)
    ensures var data := claims.objectRoles[role];
            id in DecodedRole(claims, role) <==>
              data.model in claims.objects && exists i :: (
                i in data.objects && i < |claims.objects[data.model]| && claims.objects[data.model][i].id == id)
  {
    var data := claims.objectRoles[role];
    var objects := ObjectsOf(claims, data.model);
    forall o | o in objects ensures o.id != "" {
      var i :| 0 <= i < |objects| && objects[i] == o;
      assert claims.objects[data.model][i].id != "";
    }
    DecodedInRange(objects, data.objects, id);
  }

  // What a claimed index leads to is known after saving if it was before, or if it is an
  // organization or a team ...
  lemma CreatedIff(t: RoleTable, claims: Claims, known: map<string, Target>, before: set<Grant>,
    resources: map<string, Target>, after: set<Grant>, role: string, i: nat)
    requires ClaimsFit(t, claims, known) && SaveOutcome(t, claims, known, before, resources, after)
    requires role in claims.objectRoles && role in t.modelOf && role in t.managed
    requires i in claims.objectRoles[role].objects
    ensures var data := claims.objectRoles[role];
      && data.model in claims.objects && i < |claims.objects[data.model]|
      && (claims.objects[data.model][i].id in resources <==>
          claims.objects[data.model][i].id in known || data.model == "organization" || data.model == "team")
  {
    var data := claims.objectRoles[role];
    assert RoleFits(t, claims, known, role);
    DecodedInRole(t, claims, known, role, claims.objects[data.model][i].id);
  }

  // ... and nothing else is new.
  lemma OnlyClaimedNew(t: RoleTable, claims: Claims, known: map<string, Target>, before: set<Grant>,
    resources: map<string, Target>, after: set<Grant>, id: string)
    requires SaveOutcome(t, claims, known, before, resources, after)
    ensures id in known ==> id in resources && resources[id] == known[id]
    ensures id in resources && id !in known ==>
      (resources[id].model == "organization" || resources[id].model == "team") &&
      exists m, j :: m in claims.objects && 0 <= j < |claims.objects[m]| && claims.objects[m][j].id == id
  {
  }

  lemma KnownOrCreated(t: RoleTable, claims: Claims, known: map<string, Target>, resources: map<string, Target>,
    role: string)
    requires ObjectsFit(claims) && role in claims.objectRoles && RoleFits(t, claims, known, role)
    requires Extends(known, resources) && OnlyClaimedAdded(known, resources, claims) && Typed(resources, claims)
    requires Attempted(DecodedRole(claims, role), claims.objectRoles[role].model, resources)
    ensures forall id :: id in DecodedRole(claims, role) ==>
              (id in resources <==> id in known || Creatable(claims.objectRoles[role].model))
  {
    DecodedAreEntries(claims, claims.objectRoles[role].model, claims.objectRoles[role].objects);
    if !Creatable(claims.objectRoles[role].model) {
      SameMeaning(claims, claims.objectRoles[role].model, DecodedRole(claims, role), known, resources);
    }
  }

  lemma AllKnownOrCreated(t: RoleTable, claims: Claims, known: map<string, Target>, resources: map<string, Target>)
    requires ClaimsFit(t, claims, known) && AllAttempted(t, claims, resources)
    requires Extends(known, resources) && OnlyClaimedAdded(known, resources, claims) && Typed(resources, claims)
    ensures CreatesWhatItCan(t, claims, known, resources)
  {
    forall r | r in claims.objectRoles && Applies(t, r)
      ensures forall id :: id in DecodedRole(claims, r) ==>
                (id in resources <==> id in known || Creatable(claims.objectRoles[r].model))
    {
      KnownOrCreated(t, claims, known, resources, r);
    }
  }

  lemma StillFits(t: RoleTable, claims: Claims, known: map<string, Target>, resources: map<string, Target>,
    role: string)
    requires role in claims.objectRoles && RoleFits(t, claims, known, role) && Extends(known, resources)
    ensures RoleFits(t, claims, resources, role)
  {
  }

  ghost predicate Advances(claims: Claims, before: map<string, Target>, after: map<string, Target>, nextPk: int) {
    && RegistryValid(after, nextPk) && Typed(after, claims)
    && Extends(before, after) && OnlyClaimedAdded(before, after, claims)
  }

  ghost predicate Desires(t: RoleTable, claims: Claims, resources: map<string, Target>, done: set<string>,
    desired: set<Grant>)
    requires done <= claims.objectRoles.Keys
  {
    forall g :: g in desired <==>
      g.role in done && Applies(t, g.role) && g in DesiredFor(g.role, DecodedRole(claims, g.role), resources)
  }

  lemma DecodedAreEntries(claims: Claims, model: string, indexes: seq<nat>)
    requires ObjectsFit(claims) && forall i :: i in indexes ==> i < |ObjectsOf(claims, model)|
    ensures forall id :: id in Decoded(ObjectsOf(claims, model), indexes) ==>
              exists i :: 0 <= i < |ObjectsOf(claims, model)| && ObjectsOf(claims, model)[i].id == id
  {
    var objects := ObjectsOf(claims, model);
    forall o | o in objects
      ensures o.id != ""
    {
      var i :| 0 <= i < |objects| && objects[i] == o;
      assert claims.objects[model][i].id != "";
    }
    forall id | id in Decoded(objects, indexes)
      ensures exists i :: 0 <= i < |objects| && objects[i].id == id
    {
      DecodedInRange(objects, indexes, id);
    }
  }

  // An id already tried gets no meaning later: what cannot be created never appears.
  lemma SameMeaning(claims: Claims, model: string, ids: seq<string>, before: map<string, Target>,
    after: map<string, Target>)
    requires Typed(after, claims) && Extends(before, after) && OnlyClaimedAdded(before, after, claims)
    requires forall id :: id in ids ==>
               exists i :: 0 <= i < |ObjectsOf(claims, model)| && ObjectsOf(claims, model)[i].id == id
    requires Attempted(ids, model, before)
    ensures forall id :: id in ids ==> (id in after <==> id in before)
  {
    forall id | id in ids && id in after
      ensures id in before
    {
      var i :| 0 <= i < |ObjectsOf(claims, model)| && ObjectsOf(claims, model)[i].id == id;
      assert claims.objects[model][i].id == id && after[id].model == model;
    }
  }

  lemma SameDesired(role: string, ids: seq<string>, before: map<string, Target>, after: map<string, Target>)
    requires Extends(before, after) && forall id :: id in ids ==> (id in after <==> id in before)
    ensures DesiredFor(role, ids, before) == DesiredFor(role, ids, after)
  {
  }

  lemma DesiredOneMore(claims: Claims, role: string, model: string, ids: seq<string>, id: string,
    before: map<string, Target>, after: map<string, Target>)
    requires Typed(after, claims) && Extends(before, after) && OnlyClaimedAdded(before, after, claims)
    requires forall x :: x in ids ==>
               exists i :: 0 <= i < |ObjectsOf(claims, model)| && ObjectsOf(claims, model)[i].id == x
    requires Attempted(ids, model, before)
    ensures DesiredFor(role, ids + [id], after) ==
            DesiredFor(role, ids, before) + if id in after then {Grant(role, Some(after[id]))} else {}
  {
    SameMeaning(claims, model, ids, before, after);
    SameDesired(role, ids, before, after);
    assert forall x :: x in ids + [id] <==> x in ids || x == id;
  }

  // The loop over one role's indexes, when the given ids have been tried.
  ghost predicate Collected(role: string, model: string, ids: seq<string>, start: map<string, Target>,
    resources: map<string, Target>, desired: set<Grant>)
  {
    && desired == DesiredFor(role, ids, resources)
    && Attempted(ids, model, resources)
    && (Attempted(ids, model, start) ==> resources == start)
  }

  lemma CollectedOneMore(claims: Claims, role: string, model: string, indexes: seq<nat>, n: nat,
    start: map<string, Target>, before: map<string, Target>, after: map<string, Target>, desired: set<Grant>)
    requires ObjectsFit(claims) && model in claims.objects && n < |indexes|
    requires indexes[n] < |claims.objects[model]| && forall i :: i in indexes ==> i < |claims.objects[model]|
    requires Typed(after, claims) && Extends(before, after) && OnlyClaimedAdded(before, after, claims)
    requires Collected(role, model, Decoded(claims.objects[model], indexes[..n]), start, before, desired)
    requires var id := claims.objects[model][indexes[n]].id;
             && (id in after <==> id in before || Creatable(model))
             && (id in before || !Creatable(model) ==> after == before)
    ensures var id := claims.objects[model][indexes[n]].id;
            Collected(role, model, Decoded(claims.objects[model], indexes[..n + 1]), start, after,
                      desired + if id in after then {Grant(role, Some(after[id]))} else {})
  {
    var objects := claims.objects[model];
    assert ObjectsOf(claims, model) == objects;
    var ids := Decoded(objects, indexes[..n]);
    var id := objects[indexes[n]].id;
    assert id != "";
    assert indexes[..n + 1][..n] == indexes[..n];
    assert Decoded(objects, indexes[..n + 1]) == ids + [id];
    assert forall i :: i in indexes[..n] ==> i in indexes;
    DecodedAreEntries(claims, model, indexes[..n]);
    DesiredOneMore(claims, role, model, ids, id, before, after);
    if Attempted(ids + [id], model, start) {
      assert Attempted(ids, model, start) by {
        if Creatable(model) {
          forall x | x in ids ensures x in start { assert x in ids + [id]; }
        }
      }
      assert id in ids + [id];
    }
  }

  lemma DesiresOneMore(t: RoleTable, claims: Claims, start: map<string, Target>, before: map<string, Target>,
    after: map<string, Target>, done: set<string>, role: string, desired: set<Grant>)
    requires ClaimsFit(t, claims, start) && done <= claims.objectRoles.Keys && role in claims.objectRoles &&
      role !in done
    requires Applies(t, role) && Typed(after, claims)
    requires Extends(before, after) && OnlyClaimedAdded(before, after, claims)
    requires Desires(t, claims, before, done, desired)
    requires RolesAttempted(t, claims, done, before)
    ensures Desires(t, claims, after, done + {role}, desired + DesiredFor(role, DecodedRole(claims, role), after))
  {
    forall r | r in done && Applies(t, r)
      ensures DesiredFor(r, DecodedRole(claims, r), before) == DesiredFor(r, DecodedRole(claims, r), after)
    {
      assert RoleFits(t, claims, start, r);
      DecodedAreEntries(claims, claims.objectRoles[r].model, claims.objectRoles[r].objects);
      SameMeaning(claims, claims.objectRoles[r].model, DecodedRole(claims, r), before, after);
      SameDesired(r, DecodedRole(claims, r), before, after);
    }
  }

  lemma DesiredFits(t: RoleTable, claims: Claims, known: map<string, Target>, resources: map<string, Target>,
    desired: set<Grant>)
    requires ClaimsFit(t, claims, known) && Typed(resources, claims)
    requires Desires(t, claims, resources, claims.objectRoles.Keys, desired)
    ensures HeldFits(t, desired) && forall g :: g in desired ==> g.at.Some?
  {
    forall g | g in desired
      ensures GrantFits(t, g) && g.at.Some?
    {
      var data := claims.objectRoles[g.role];
      assert RoleFits(t, claims, known, g.role);
      DecodedAreEntries(claims, data.model, data.objects);
      var id :| id in DecodedRole(claims, g.role) && id in resources && g == Grant(g.role, Some(resources[id]));
      var i :| 0 <= i < |ObjectsOf(claims, data.model)| && ObjectsOf(claims, data.model)[i].id == id;
      assert claims.objects[data.model][i].id == id && data.objects != [];
    }
  }

  // ---- the hash computed here after saving, against the hash of the claims received ----

  // The managed, object-scoped assignments with their resource ids, each once, in some order.
  ghost predicate ListsHeld(t: RoleTable, held: set<Grant>, resources: map<string, Target>, list: seq<Held>) {
    && (forall h :: h in list ==>
          h.role in t.managed && h.id in resources && h.model == resources[h.id].model &&
          Grant(h.role, Some(resources[h.id])) in held)
    && (forall g :: g in held && g.role in t.managed && g.at.Some? ==>
          exists h :: h in list && h.role == g.role && h.id in resources && resources[h.id] == g.at.value)
    && (forall i, j :: 0 <= i < j < |list| ==> list[i].role != list[j].role || list[i].id != list[j].id)
  }

  ghost predicate ListsGlobals(t: RoleTable, held: set<Grant>, list: seq<string>) {
    && (forall r :: r in list <==> r in t.managed && Grant(r, None) in held)
    && NoRepeats(list)
  }

  ghost predicate NoRepeats(xs: seq<string>) {
    forall i, j :: 0 <= i < j < |xs| ==> xs[i] != xs[j]
  }

  // What the claims must be for both sides to hash alike: every role applies
  // here, is claimed on something, and nothing is claimed twice or out of reach.
  ghost predicate Hashable(t: RoleTable, claims: Claims, before: map<string, Target>) {
    && NoRepeats(claims.globalRoles)
    && (forall g :: g in claims.globalRoles ==> Applies(t, g))
    && (forall r :: r in claims.objectRoles ==> RoleHashable(t, claims, before, r))
  }

  ghost predicate RoleHashable(t: RoleTable, claims: Claims, before: map<string, Target>, role: string)
    requires role in claims.objectRoles
  {
    && Applies(t, role)
    && DecodedRole(claims, role) != [] && NoRepeats(DecodedRole(claims, role))
    && (forall id :: id in DecodedRole(claims, role) ==> id in before || Creatable(claims.objectRoles[role].model))
  }

  lemma {:induction false} CountOnce(xs: seq<string>, x: string)
    requires NoRepeats(xs)
    ensures multiset(xs)[x] == if x in xs then 1 else 0
  {
    if xs != [] {
      CountOnce(xs[1..], x);
      assert xs == [xs[0]] + xs[1..];
      if xs[0] in xs[1..] {
        var j :| 0 <= j < |xs[1..]| && xs[1..][j] == xs[0];
        assert xs[j + 1] == xs[0];
      }
    }
  }

  lemma RepeatsCount(xs: seq<string>, i: nat, j: nat)
    requires i < j < |xs| && xs[i] == xs[j]
    ensures multiset(xs)[xs[i]] >= 2
  {
    assert xs == xs[..j] + [xs[j]] + xs[j + 1..];
    assert xs[..j][i] == xs[i];
    assert xs[i] in multiset(xs[..j]);
  }

  // Against a list without repeats, the same contents means the same members and no repeats.
  lemma SameContentsIff(xs: seq<string>, ys: seq<string>)
    requires NoRepeats(xs)
    ensures multiset(xs) == multiset(ys) <==> NoRepeats(ys) && (forall x :: x in xs <==> x in ys)
  {
    if multiset(xs) == multiset(ys) {
      forall i, j | 0 <= i < j < |ys|
        ensures ys[i] != ys[j]
      {
        CountOnce(xs, ys[i]);
        if ys[i] == ys[j] {
          RepeatsCount(ys, i, j);
        }
      }
      forall x
        ensures x in xs <==> x in ys
      {
        assert x in multiset(xs) <==> x in multiset(ys);
      }
    } else if NoRepeats(ys) && forall x :: x in xs <==> x in ys {
      forall x
        ensures multiset(xs)[x] == multiset(ys)[x]
      {
        CountOnce(xs, x);
        CountOnce(ys, x);
      }
    }
  }

  lemma {:induction false} IdsAreListed(list: seq<Held>, role: string, id: string)
    ensures id in IdsOf(list, role) <==> exists h :: h in list && h.role == role && h.id == id
  {
    if list != [] {
      var n := |list| - 1;
      IdsAreListed(list[..n], role, id);
      assert list == list[..n] + [list[n]];
      assert list[n] in list;
      if h :| h in list && h.role == role && h.id == id {
        assert h in list[..n] || h == list[n];
      }
    }
  }

  lemma {:induction false} IdsDoNotRepeat(list: seq<Held>, role: string)
    requires forall i, j :: 0 <= i < j < |list| ==> list[i].role != list[j].role || list[i].id != list[j].id
    ensures NoRepeats(IdsOf(list, role))
  {
    if list != [] {
      var n := |list| - 1;
      IdsDoNotRepeat(list[..n], role);
      IdsAreListed(list[..n], role, list[n].id);
    }
  }

  // The ids listed for a managed role are its claimed ids that are known.
  lemma ListedIds(t: RoleTable, claims: Claims, before: set<Grant>, held: set<Grant>, resources: map<string, Target>,
    list: seq<Held>, role: string, id: string)
    requires Saved(t, claims, before, resources, held) && ListsHeld(t, held, resources, list)
    requires forall a, b :: a in resources && b in resources && resources[a] == resources[b] ==> a == b
    ensures id in IdsOf(list, role) <==>
              role in claims.objectRoles && Applies(t, role) && id in DecodedRole(claims, role) && id in resources
  {
    IdsAreListed(list, role, id);
    if h :| h in list && h.role == role && h.id == id {
      var g := Grant(role, Some(resources[id]));
      assert Claimed(t, claims, resources, g);
      var x :| x in DecodedRole(claims, role) && x in resources && g == Grant(role, Some(resources[x]));
      assert x == id;
    }
    if role in claims.objectRoles && Applies(t, role) && id in DecodedRole(claims, role) && id in resources {
      var g := Grant(role, Some(resources[id]));
      assert g in DesiredFor(role, DecodedRole(claims, role), resources);
      assert Claimed(t, claims, resources, g) && g in held;
      var h :| h in list && h.role == role && h.id in resources && resources[h.id] == resources[id];
      assert h.id == id;
    }
  }

  // Role by role, the ids listed here and the ids received sort alike exactly
  // for a claim that is hashable.
  lemma RoleHashesAlikeIff(t: RoleTable, claims: Claims, before: set<Grant>, known: map<string, Target>,
    resources: map<string, Target>, held: set<Grant>, list: seq<Held>, role: string)
    requires Saved(t, claims, before, resources, held) && ListsHeld(t, held, resources, list)
    requires forall a, b :: a in resources && b in resources && resources[a] == resources[b] ==> a == b
    requires role in claims.objectRoles
    requires Applies(t, role) ==> forall id :: id in DecodedRole(claims, role) ==>
               (id in resources <==> id in known || Creatable(claims.objectRoles[role].model))
    ensures RoleHashable(t, claims, known, role) <==>
              role in RolesOf(list) && Sorted(IdsOf(list, role)) == Sorted(DecodedRole(claims, role))
  {
    var mine, theirs := IdsOf(list, role), DecodedRole(claims, role);
    IdsDoNotRepeat(list, role);
    SameSortedIffSameContents(mine, theirs);
    SameContentsIff(mine, theirs);
    forall id
      ensures id in mine <==> Applies(t, role) && id in theirs && id in resources
    {
      ListedIds(t, claims, before, held, resources, list, role, id);
    }
    if role in RolesOf(list) {
      var h :| h in list && h.role == role;
      IdsAreListed(list, role, h.id);
    }
    if RoleHashable(t, claims, known, role) {
      assert theirs[0] in theirs && theirs[0] in mine;
      IdsAreListed(list, role, theirs[0]);
    }
  }

  // After saving, the hash form computed here equals that of the received
  // claims if and only if the claims are hashable.
  lemma HashesAgreeIff(t: RoleTable, claims: Claims, before: set<Grant>, known: map<string, Target>,
    resources: map<string, Target>, held: set<Grant>, list: seq<Held>, globals: seq<string>)
    requires Saved(t, claims, before, resources, held)
    requires ListsHeld(t, held, resources, list) && ListsGlobals(t, held, globals)
    requires forall a, b :: a in resources && b in resources && resources[a] == resources[b] ==> a == b
    requires CreatesWhatItCan(t, claims, known, resources)
    ensures FormOf(list, globals) == FormOfClaims(claims) <==> Hashable(t, claims, known)
  {
    var here, there := FormOf(list, globals), FormOfClaims(claims);
    GlobalsHashAlikeIff(t, claims, before, resources, held, globals);
    forall r | r in claims.objectRoles
      ensures RoleHashable(t, claims, known, r) <==>
                r in RolesOf(list) && Sorted(IdsOf(list, r)) == Sorted(DecodedRole(claims, r))
    {
      RoleHashesAlikeIff(t, claims, before, known, resources, held, list, r);
    }
    forall r | r in RolesOf(list)
      ensures r in claims.objectRoles
    {
      var h :| h in list && h.role == r;
      IdsAreListed(list, r, h.id);
      ListedIds(t, claims, before, held, resources, list, r, h.id);
    }
    SameFormByRole(list, globals, claims);
  }

  lemma SameFormByRole(list: seq<Held>, globals: seq<string>, claims: Claims)
    requires RolesOf(list) <= claims.objectRoles.Keys
    ensures FormOf(list, globals) == FormOfClaims(claims) <==>
              && Sorted(globals) == Sorted(claims.globalRoles)
              && (forall r :: r in claims.objectRoles ==>
                    r in RolesOf(list) && Sorted(IdsOf(list, r)) == Sorted(DecodedRole(claims, r)))
  {
    var here, there := FormOf(list, globals), FormOfClaims(claims);
    assert here.objectRoles.Keys == RolesOf(list) && there.objectRoles.Keys == claims.objectRoles.Keys;
    if here == there {
      forall r | r in claims.objectRoles
        ensures r in RolesOf(list) && Sorted(IdsOf(list, r)) == Sorted(DecodedRole(claims, r))
      {
        assert r in there.objectRoles;
        assert here.objectRoles[r] == there.objectRoles[r];
      }
    }
  }

  lemma GlobalsHashAlikeIff(t: RoleTable, claims: Claims, before: set<Grant>, resources: map<string, Target>,
    held: set<Grant>, globals: seq<string>)
    requires Saved(t, claims, before, resources, held) && ListsGlobals(t, held, globals)
    ensures Sorted(globals) == Sorted(claims.globalRoles) <==>
              NoRepeats(claims.globalRoles) && forall g :: g in claims.globalRoles ==> Applies(t, g)
  {
    SameSortedIffSameContents(globals, claims.globalRoles);
    SameContentsIff(globals, claims.globalRoles);
    forall r
      ensures r in globals <==> r in claims.globalRoles && Applies(t, r)
    {
      assert r in globals ==> Claimed(t, claims, resources, Grant(r, None));
      assert r in t.managed ==> (Grant(r, None) in held <==> Claimed(t, claims, resources, Grant(r, None)));
    }
  }

  // Saving the same claims again is allowed, creates nothing and changes no assignment.
  lemma SavingAgainChangesNothing(t: RoleTable, claims: Claims, known: map<string, Target>, before: set<Grant>,
    resources: map<string, Target>, held: set<Grant>, resourcesAgain: map<string, Target>, heldAgain: set<Grant>)
    requires ClaimsFit(t, claims, known)
    requires SaveOutcome(t, claims, known, before, resources, held)
    ensures ClaimsFit(t, claims, resources)
    ensures SaveOutcome(t, claims, resources, held, resourcesAgain, heldAgain) ==>
              resourcesAgain == resources && heldAgain == held
  {
    forall r | r in claims.objectRoles && Applies(t, r) ensures RoleFits(t, claims, resources, r) {
      StillFits(t, claims, known, resources, r);
    }
    assert AllAttempted(t, claims, resources);
    if SaveOutcome(t, claims, resources, held, resourcesAgain, heldAgain) {
      assert forall g :: g in heldAgain <==> g in held;
    }
  }
}
