// Bulk assignment: create the missing object roles, insert or delete the assignment
// rows, and run the narrow recompute.
module Pipeline {
  import opened Graphs
  import opened Membership
  import opened Hierarchy
  import opened RbacModel
  import opened Refresh
  import opened Assignments
  import opened MemberCache
  import opened EvalCache

  // A validated request: a role definition for an actor on one object.
  datatype Resolved = Resolved(rd: int, actor: int, target: Obj)

  // One row per role definition and object.
  ghost predicate UniqueRoles(roles: map<RoleId, RoleRow>) {
    forall r, q :: r in roles && q in roles && roles[r] == roles[q] ==> r == q
  }

  // Requests of one role definition are all for its content type.
  ghost predicate OneTypePerDefinition(reqs: seq<Resolved>) {
    forall i, j :: 0 <= i < |reqs| && 0 <= j < |reqs| && reqs[i].rd == reqs[j].rd ==>
      reqs[i].target.ct == reqs[j].target.ct
  }

  type Lookup = map<(int, int), RoleId>

  // Every request finds, under its definition and object id, the role on its object.
  ghost predicate Resolves(lookup: Lookup, roles: map<RoleId, RoleRow>, reqs: seq<Resolved>) {
    forall i :: 0 <= i < |reqs| ==>
      var key := (reqs[i].rd, reqs[i].target.pk);
      key in lookup && lookup[key] in roles && roles[lookup[key]] == RoleRow(reqs[i].rd, reqs[i].target)
  }

  // roles grew only by rows that lookup names; old rows are untouched.
  ghost predicate Extended(before: map<RoleId, RoleRow>, after: map<RoleId, RoleRow>, lookup: Lookup) {
    && (forall r :: r in before ==> r in after && after[r] == before[r])
    && (forall r :: r in after ==> r in before || r in lookup.Values)
    && lookup.Values <= after.Keys
  }

  // A primary key nobody uses.
  method NextKey(keys: set<int>) returns (k: int)
    ensures k > 0 && k !in keys
  {
    k := 1;
    var rest := keys;
    while rest != {}
      invariant k > 0 && rest <= keys && forall j :: j in keys && j !in rest ==> j < k
      decreases rest
    {
      ghost var pick := AnyOf(rest);
      var j :| j in rest;
      rest := rest - {j};
      if j >= k { k := j + 1; }
    }
  }

  // The requested object ids of each definition, with the content type of its first request.
  type Groups = map<int, (TypeId, set<int>)>

  ghost predicate Requests(reqs: seq<Resolved>, n: nat, rd: int, pk: int)
    requires n <= |reqs|
  {
    exists i :: 0 <= i < n && reqs[i].rd == rd && reqs[i].target.pk == pk
  }

  // groups holds exactly the first n requests.
  ghost predicate GroupsRequests(groups: Groups, reqs: seq<Resolved>, n: nat)
    requires n <= |reqs|
  {
    && (forall i :: 0 <= i < n ==>
          reqs[i].rd in groups && groups[reqs[i].rd].0 == reqs[i].target.ct &&
            reqs[i].target.pk in groups[reqs[i].rd].1)
    && (forall rd, pk :: rd in groups && pk in groups[rd].1 ==> Requests(reqs, n, rd, pk))
    && (forall rd :: rd in groups ==> exists i :: 0 <= i < n && reqs[i].rd == rd)
  }

  method GroupRequests(reqs: seq<Resolved>) returns (groups: Groups)
    requires OneTypePerDefinition(reqs)
    ensures GroupsRequests(groups, reqs, |reqs|)
  {
    groups := map[];
    for i := 0 to |reqs|
      invariant GroupsRequests(groups, reqs, i)
    {
      var ra := reqs[i];
      var entry := if ra.rd in groups then groups[ra.rd] else (ra.target.ct, {});
      GroupOneMore(groups, reqs, i, entry);
      groups := groups[ra.rd := (entry.0, entry.1 + {ra.target.pk})];
    }
  }

  lemma GroupOneMore(groups: Groups, reqs: seq<Resolved>, i: nat, entry: (TypeId, set<int>))
    requires OneTypePerDefinition(reqs) && i < |reqs| && GroupsRequests(groups, reqs, i)
    requires entry == if reqs[i].rd in groups then groups[reqs[i].rd] else (reqs[i].target.ct, {})
    ensures GroupsRequests(groups[reqs[i].rd := (entry.0, entry.1 + {reqs[i].target.pk})], reqs, i + 1)
  {
    EntryFits(groups, reqs, i, entry);
    GroupedAreRequests(groups, reqs, i, entry.0, entry.1);
  }

  lemma EntryFits(groups: Groups, reqs: seq<Resolved>, i: nat, entry: (TypeId, set<int>))
    requires OneTypePerDefinition(reqs) && i < |reqs| && GroupsRequests(groups, reqs, i)
    requires entry == if reqs[i].rd in groups then groups[reqs[i].rd] else (reqs[i].target.ct, {})
    ensures var after := groups[reqs[i].rd := (entry.0, entry.1 + {reqs[i].target.pk})];
            forall k :: 0 <= k < i + 1 ==>
              reqs[k].rd in after && after[reqs[k].rd].0 == reqs[k].target.ct &&
                reqs[k].target.pk in after[reqs[k].rd].1
  {
    if reqs[i].rd in groups {
      var j :| 0 <= j < i && reqs[j].rd == reqs[i].rd;
      assert entry.0 == reqs[j].target.ct;
    }
  }

  lemma GroupedAreRequests(groups: Groups, reqs: seq<Resolved>, i: nat, ct: TypeId, ids: set<int>)
    requires i < |reqs| && GroupsRequests(groups, reqs, i)
    requires ids == if reqs[i].rd in groups then groups[reqs[i].rd].1 else {}
    ensures var after := groups[reqs[i].rd := (ct, ids + {reqs[i].target.pk})];
            && (forall rd, pk :: rd in after && pk in after[rd].1 ==> Requests(reqs, i + 1, rd, pk))
            && (forall rd :: rd in after ==> exists k :: 0 <= k < i + 1 && reqs[k].rd == rd)
  {
    var after := groups[reqs[i].rd := (ct, ids + {reqs[i].target.pk})];
    forall rd, pk | rd in after && pk in after[rd].1 ensures Requests(reqs, i + 1, rd, pk) {
      RequestsOneMore(reqs, i, rd, pk);
    }
    forall rd | rd in after ensures exists k :: 0 <= k < i + 1 && reqs[k].rd == rd {
      if rd in groups {
        var k :| 0 <= k < i && reqs[k].rd == rd;
      }
    }
  }

  lemma RequestsOneMore(reqs: seq<Resolved>, i: nat, rd: int, pk: int)
    requires i < |reqs|
    ensures Requests(reqs, i + 1, rd, pk) <==>
      Requests(reqs, i, rd, pk) || (rd == reqs[i].rd && pk == reqs[i].target.pk)
  {
    if Requests(reqs, i + 1, rd, pk) {
      var k :| 0 <= k < i + 1 && reqs[k].rd == rd && reqs[k].target.pk == pk;
      assert k < i ==> Requests(reqs, i, rd, pk);
    }
  }

  // The roles of one definition on the given ids: found, or created.
  method EnsureForDefinition(roles0: map<RoleId, RoleRow>, lookup0: Lookup, rd: int, ct: TypeId, ids: set<int>)
    returns (roles: map<RoleId, RoleRow>, lookup: Lookup)
    requires UniqueRoles(roles0) && lookup0.Values <= roles0.Keys && forall key :: key in lookup0 ==> key.0 != rd
    ensures UniqueRoles(roles) && lookup.Keys == lookup0.Keys + set pk | pk in ids :: (rd, pk)
    ensures forall key :: key in lookup0 ==> lookup[key] == lookup0[key]
    ensures forall pk :: pk in ids ==> lookup[(rd, pk)] in roles && roles[lookup[(rd, pk)]] == RoleRow(rd, Obj(ct, pk))
    ensures forall r :: r in roles0 ==> r in roles && roles[r] == roles0[r]
    ensures forall r :: r in roles && r !in roles0 ==> exists pk :: pk in ids && lookup[(rd, pk)] == r
  {
    roles, lookup := roles0, lookup0;
    var rest := ids;
    while rest != {}
      invariant rest <= ids && UniqueRoles(roles)
      invariant lookup.Keys == lookup0.Keys + set pk | pk in ids && pk !in rest :: (rd, pk)
      invariant forall key :: key in lookup0 ==> lookup[key] == lookup0[key]
      invariant forall pk :: pk in ids && pk !in rest ==>
        (rd, pk) in lookup && lookup[(rd, pk)] in roles && roles[lookup[(rd, pk)]] == RoleRow(rd, Obj(ct, pk))
      invariant forall r :: r in roles0 ==> r in roles && roles[r] == roles0[r]
      invariant forall r :: r in roles && r !in roles0 ==>
        exists pk :: pk in ids && pk !in rest && (rd, pk) in lookup && lookup[(rd, pk)] == r
      decreases rest
    {
      ghost var pick := AnyOf(rest);
      var pk :| pk in rest;
      rest := rest - {pk};
      var id;
      roles, id := FindOrCreate(roles, RoleRow(rd, Obj(ct, pk)));
      lookup := lookup[(rd, pk) := id];
    }
  }

  // The role with the given definition and target, which is created if there is none.
  method FindOrCreate(roles0: map<RoleId, RoleRow>, row: RoleRow) returns (roles: map<RoleId, RoleRow>, id: RoleId)
    requires UniqueRoles(roles0)
    ensures UniqueRoles(roles) && id in roles && roles[id] == row
    ensures roles == roles0 || (id !in roles0 && roles == roles0[id := row])
  {
    roles := roles0;
    var found := set r | r in roles && roles[r] == row;
    if found != {} {
      ghost var pick := AnyOf(found);
      id :| id in found;
    } else {
      assert forall r :: r in roles && roles[r] == row ==> r in found;
      id := NextKey(roles.Keys);
      roles := roles[id := row];
    }
  }

  // Look up the object roles of all requests, creating the missing ones.
  method EnsureObjectRoles(store: RbacStore, reqs: seq<Resolved>) returns (lookup: Lookup)
    requires UniqueRoles(store.roles) && OneTypePerDefinition(reqs)
    modifies store`roles
    ensures UniqueRoles(store.roles) && Extended(old(store.roles), store.roles, lookup)
    ensures Resolves(lookup, store.roles, reqs)
    ensures forall rd, pk :: (rd, pk) in lookup ==> Requests(reqs, |reqs|, rd, pk)
  {
    var groups := GroupRequests(reqs);
    lookup := map[];
    var roles := store.roles;
    ghost var first := roles;
    var rest := groups.Keys;
    while rest != {}
      invariant rest <= groups.Keys && UniqueRoles(roles) && Extended(first, roles, lookup) && first == store.roles
      invariant LookupOf(groups, rest, roles, lookup)
      decreases rest
    {
      ghost var pick := AnyOf(rest);
      var rd :| rd in rest;
      forall key | key in lookup ensures key.0 != rd {
        var e, pk := key.0, key.1;
        assert (e, pk) in lookup;
      }
      var roles', lookup' := EnsureForDefinition(roles, lookup, rd, groups[rd].0, groups[rd].1);
      ExtendedFurther(first, roles, roles', lookup, lookup', rd, groups[rd].1);
      LookupFurther(groups, rest, roles, roles', lookup, lookup', rd);
      rest := rest - {rd};
      roles, lookup := roles', lookup';
    }
    store.roles := roles;
    LookupResolves(groups, roles, lookup, reqs);
  }

  // lookup covers the definitions of groups that are not in rest.
  ghost predicate LookupOf(groups: Groups, rest: set<int>, roles: map<RoleId, RoleRow>, lookup: Lookup) {
    && (forall rd, pk :: (rd, pk) in lookup <==> rd in groups && rd !in rest && pk in groups[rd].1)
    && (forall rd, pk :: (rd, pk) in lookup ==>
          lookup[(rd, pk)] in roles && roles[lookup[(rd, pk)]] == RoleRow(rd, Obj(groups[rd].0, pk)))
  }

  lemma LookupFurther(groups: Groups, rest: set<int>, roles: map<RoleId, RoleRow>, roles': map<RoleId, RoleRow>,
                      lookup: Lookup, lookup': Lookup, rd: int)
    requires LookupOf(groups, rest, roles, lookup) && rd in rest && rd in groups
    requires lookup'.Keys == lookup.Keys + set pk | pk in groups[rd].1 :: (rd, pk)
    requires forall key :: key in lookup ==> lookup'[key] == lookup[key]
    requires forall pk :: pk in groups[rd].1 ==>
      lookup'[(rd, pk)] in roles' && roles'[lookup'[(rd, pk)]] == RoleRow(rd, Obj(groups[rd].0, pk))
    requires forall r :: r in roles ==> r in roles' && roles'[r] == roles[r]
    ensures LookupOf(groups, rest - {rd}, roles', lookup')
  {
    forall e, pk | (e, pk) in lookup'
      ensures e in groups && e !in rest - {rd} && pk in groups[e].1
      ensures lookup'[(e, pk)] in roles' && roles'[lookup'[(e, pk)]] == RoleRow(e, Obj(groups[e].0, pk))
    {
      if (e, pk) in lookup { assert lookup'[(e, pk)] == lookup[(e, pk)]; }
    }
    forall e, pk | e in groups && e !in rest - {rd} && pk in groups[e].1 ensures (e, pk) in lookup' {
      assert (e, pk) in lookup.Keys || e == rd;
    }
  }

  lemma LookupResolves(groups: Groups, roles: map<RoleId, RoleRow>, lookup: Lookup, reqs: seq<Resolved>)
    requires GroupsRequests(groups, reqs, |reqs|) && LookupOf(groups, {}, roles, lookup)
    ensures Resolves(lookup, roles, reqs)
    ensures forall rd, pk :: (rd, pk) in lookup ==> Requests(reqs, |reqs|, rd, pk)
  {
    forall i | 0 <= i < |reqs| ensures (reqs[i].rd, reqs[i].target.pk) in lookup {}
  }

  lemma ExtendedFurther(first: map<RoleId, RoleRow>, before: map<RoleId, RoleRow>, after: map<RoleId, RoleRow>,
                        lookup0: Lookup, lookup: Lookup, rd: int, ids: set<int>)
    requires Extended(first, before, lookup0) && forall key :: key in lookup0 ==> key.0 != rd
    requires lookup.Keys == lookup0.Keys + set pk | pk in ids :: (rd, pk)
    requires forall key :: key in lookup0 ==> lookup[key] == lookup0[key]
    requires forall pk :: pk in ids ==> lookup[(rd, pk)] in after
    requires forall r :: r in before ==> r in after && after[r] == before[r]
    requires forall r :: r in after && r !in before ==> exists pk :: pk in ids && lookup[(rd, pk)] == r
    ensures Extended(first, after, lookup)
  {
    forall r | r in lookup.Values ensures r in after {
      var key :| key in lookup && lookup[key] == r;
      if key in lookup0 { assert lookup0[key] in lookup0.Values; }
    }
    forall r | r in after && r !in first ensures r in lookup.Values {
      if r in before {
        var key :| key in lookup0 && lookup0[key] == r;
        assert key in lookup && lookup[key] == r;
      } else {
        var pk :| pk in ids && lookup[(rd, pk)] == r;
        assert (rd, pk) in lookup.Keys;
      }
    }
  }

  // The (actor, role) pairs the requests stand for.
  function Pairs(lookup: Lookup, reqs: seq<Resolved>): set<(int, RoleId)>
    requires forall i :: 0 <= i < |reqs| ==> (reqs[i].rd, reqs[i].target.pk) in lookup
  {
    set i | 0 <= i < |reqs| :: (reqs[i].actor, lookup[(reqs[i].rd, reqs[i].target.pk)])
  }

  method AssignmentRows(lookup: Lookup, reqs: seq<Resolved>) returns (rows: set<(int, RoleId)>)
    requires forall i :: 0 <= i < |reqs| ==> (reqs[i].rd, reqs[i].target.pk) in lookup
    ensures rows == Pairs(lookup, reqs)
  {
    rows := {};
    for i := 0 to |reqs|
      invariant rows == set j | 0 <= j < i :: (reqs[j].actor, lookup[(reqs[j].rd, reqs[j].target.pk)])
    {
      rows := rows + {(reqs[i].actor, lookup[(reqs[i].rd, reqs[i].target.pk)])};
    }
  }

  // Bulk insert of the assignment rows; rows already there are kept.
  method CreateAssignments(store: RbacStore, users: seq<Resolved>, teams: seq<Resolved>, lookup: Lookup)
    returns (userRows: set<(int, RoleId)>, teamRows: set<(TeamId, RoleId)>)
    requires forall i :: 0 <= i < |users| ==> (users[i].rd, users[i].target.pk) in lookup
    requires forall i :: 0 <= i < |teams| ==> (teams[i].rd, teams[i].target.pk) in lookup
    modifies store`userHolds, store`teamHolds
    ensures userRows == Pairs(lookup, users) && store.userHolds == old(store.userHolds) + userRows
    ensures teamRows == Pairs(lookup, teams) && store.teamHolds == old(store.teamHolds) + teamRows
    ensures forall u, r :: (u, r) in userRows <==>
      exists i :: 0 <= i < |users| && users[i].actor == u && lookup[(users[i].rd, users[i].target.pk)] == r
    ensures forall t, r :: (t, r) in teamRows <==>
      exists i :: 0 <= i < |teams| && teams[i].actor == t && lookup[(teams[i].rd, teams[i].target.pk)] == r
  {
    userRows := AssignmentRows(lookup, users);
    store.userHolds := store.userHolds + userRows;
    teamRows := AssignmentRows(lookup, teams);
    store.teamHolds := store.teamHolds + teamRows;
  }

  // Loops over roles, remembering per definition whether it lists the team permission.
  method CollectRecomputeTeamIds(s: Schema, db: Db, rs: set<RoleId>) returns (teamIds: set<TeamId>)
    requires Valid(s, db)
    ensures teamIds == CollectTeamIds(s, db, rs)
  {
    teamIds := {};
    var known: map<int, bool> := map[];
    var existing := rs * db.roles.Keys;
    var rest := existing;
    while rest != {}
      invariant rest <= existing
      invariant forall rd :: rd in known ==> forall r :: r in db.roles && db.roles[r].rd == rd ==>
        known[rd] == GivesMembership(s, db.roles[r])
      invariant forall t :: t in teamIds <==>
        exists r :: r in existing && r !in rest && GivesMembership(s, db.roles[r]) &&
          t in TargetTeams(s, db.objects, db.roles[r])
      decreases rest
    {
      ghost var pick := AnyOf(rest);
      var r :| r in rest;
      rest := rest - {r};
      var row := db.roles[r];
      if row.rd !in known { known := known[row.rd := GivesMembership(s, row)]; }
      if known[row.rd] { teamIds := teamIds + TargetTeams(s, db.objects, row); }
    }
    forall t ensures t in teamIds <==> t in CollectTeamIds(s, db, rs) {
      if r :| r in existing && GivesMembership(s, db.roles[r]) && t in TargetTeams(s, db.objects, db.roles[r]) {
        assert t in CollectTeamIds(s, db, rs);
      }
    }
  }

  // The union of descendent_roles over a set of roles.
  method CollectDescendents(db: Db, rs: set<RoleId>) returns (found: set<RoleId>)
    ensures found == Descendents(db, rs)
  {
    found := {};
    var rest := rs;
    while rest != {}
      invariant rest <= rs
      invariant forall y :: y in found <==>
        exists r, h :: r in rs && r !in rest && h in db.teamHolds && (h.0, r) in db.memberRoles && h.1 == y
      decreases rest
    {
      ghost var pick := AnyOf(rest);
      var r :| r in rest;
      rest := rest - {r};
      var more := TeamRolesOf(db, r);
      found := found + more;
    }
    forall y ensures y in found <==> y in Descendents(db, rs) {
      if r, h :| r in rs && h in db.teamHolds && (h.0, r) in db.memberRoles && h.1 == y { }
    }
  }

  // ---- give_assignments ----

  // The thread-local state of defer_rbac_computations.
  class DeferState {
    var active: bool
    var created: seq<Obj>

    constructor ()
      ensures !active && created == []
    {
      active, created := false, [];
    }

    predicate Blocks()
      reads this
    {
      active && created != []
    }
  }

  function TeamsAmong(reqs: seq<Resolved>): set<TeamId> {
    set i | 0 <= i < |reqs| :: reqs[i].actor
  }

  // Callers resolve definitions and actors that exist.
  ghost predicate Acceptable(s: Schema, objs: Objects, users: seq<Resolved>, teams: seq<Resolved>) {
    && OneTypePerDefinition(users + teams)
    && (forall i :: 0 <= i < |users| ==> users[i].rd in s.rdPermissions)
    && (forall i :: 0 <= i < |teams| ==> teams[i].rd in s.rdPermissions && IsTeam(s, objs, teams[i].actor))
  }

  // The state right after the rows are inserted, before any recompute.
  ghost predicate RowsGiven(s: Schema, a: Db, b: Db, lookup: Lookup, users: seq<Resolved>, teams: seq<Resolved>) {
    && Extended(a.roles, b.roles, lookup) && Resolves(lookup, b.roles, users + teams)
    && (forall i :: 0 <= i < |users| ==> (users[i].rd, users[i].target.pk) in lookup)
    && (forall i :: 0 <= i < |teams| ==> (teams[i].rd, teams[i].target.pk) in lookup)
    && b == a.(roles := b.roles, userHolds := a.userHolds + Pairs(lookup, users),
         teamHolds := a.teamHolds + Pairs(lookup, teams))
  }

  // The role on whose row a request is found is the one with its definition and object.
  lemma PairsAreRequests(lookup: Lookup, roles: map<RoleId, RoleRow>, reqs: seq<Resolved>, actor: int, r: RoleId)
    requires UniqueRoles(roles) && Resolves(lookup, roles, reqs)
    requires forall i :: 0 <= i < |reqs| ==> (reqs[i].rd, reqs[i].target.pk) in lookup
    ensures (actor, r) in Pairs(lookup, reqs) <==> exists i :: (
      0 <= i < |reqs| && reqs[i].actor == actor && r in roles && roles[r] == RoleRow(reqs[i].rd, reqs[i].target))
  {
    if i :| 0 <= i < |reqs| && reqs[i].actor == actor && r in roles && roles[r] == RoleRow(reqs[i].rd, reqs[i].target) {
      assert lookup[(reqs[i].rd, reqs[i].target.pk)] == r;
    }
  }

  lemma SplitRequests(lookup: Lookup, roles: map<RoleId, RoleRow>, users: seq<Resolved>, teams: seq<Resolved>)
    requires Resolves(lookup, roles, users + teams)
    ensures Resolves(lookup, roles, users) && Resolves(lookup, roles, teams)
  {
    var all := users + teams;
    forall i | 0 <= i < |users| ensures all[i] == users[i] {}
    forall i | 0 <= i < |teams| ensures all[|users| + i] == teams[i] {}
  }

  lemma GivenRowsAreGave(s: Schema, a: Db, b: Db, lookup: Lookup, users: seq<Resolved>, teams: seq<Resolved>)
    requires Valid(s, a) && Acceptable(s, a.objects, users, teams) && RowsGiven(s, a, b, lookup, users, teams)
    requires forall rd, pk :: (rd, pk) in lookup ==> Requests(users + teams, |users + teams|, rd, pk)
    ensures Gave(s, a, b, lookup.Values, TeamsAmong(teams))
  {
    SplitRequests(lookup, b.roles, users, teams);
    forall r | r in b.roles && r !in a.roles ensures b.roles[r].rd in s.rdPermissions {
      var key :| key in lookup && lookup[key] == r;
      var rd, pk := key.0, key.1;
      var all := users + teams;
      assert (rd, pk) in lookup && Requests(all, |all|, rd, pk);
      var i :| 0 <= i < |all| && all[i].rd == rd && all[i].target.pk == pk;
      assert b.roles[r] == RoleRow(all[i].rd, all[i].target);
      if i < |users| { assert all[i] == users[i]; } else { assert all[i] == teams[i - |users|]; }
      assert (all[i].rd, all[i].target.pk) == key;
    }
    forall h | h in Pairs(lookup, teams)
      ensures h.0 in TeamsAmong(teams) && h.1 in lookup.Values && IsTeam(s, a.objects, h.0)
    {
      var i :| 0 <= i < |teams| && h == (teams[i].actor, lookup[(teams[i].rd, teams[i].target.pk)]);
    }
    forall h | h in Pairs(lookup, users) ensures h.1 in lookup.Values {
      var i :| 0 <= i < |users| && h == (users[i].actor, lookup[(users[i].rd, users[i].target.pk)]);
    }
    assert forall r :: r in a.roles ==> r in b.roles;
  }

  // The recompute pass after a bulk assignment; raises when deferred work is pending.
  method RecomputeAfterGive(store: RbacStore, defer: DeferState, roles: set<RoleId>, actorTeams: set<TeamId>)
    returns (ok: bool)
    requires store.Ready()
    modifies store`memberRoles, store`evals
    ensures store.Ready() && ok == !(defer.active && defer.created != [])
    ensures !ok ==> store.View() == old(store.View())
    ensures ok ==> Recomputed(store.s, old(store.View()), store.View(), roles, actorTeams)
  {
    if defer.Blocks() { return false; }
    var s, db := store.s, store.View();
    var recomputeTeamIds := CollectRecomputeTeamIds(s, db, roles);
    var toUpdate := roles;
    if actorTeams != {} {
      var below := CollectDescendents(db, roles);
      toUpdate := toUpdate + below + BulkAncestors(s, db, actorTeams);
    }
    assert toUpdate == RolesToUpdate(s, db, roles, actorTeams);
    if recomputeTeamIds != {} {
      ComputeTeamMemberRoles(store, Some(recomputeTeamIds));
    } else {
      NothingInScope(s, db);
    }
    ghost var mid := store.View();
    RecomputeRoleEvaluations(store, toUpdate, None);
    assert MembersRewritten(s, db, mid, CollectTeamIds(s, db, roles)) &&
      EvalsRewritten(s, mid, store.View(), RolesToUpdate(s, db, roles, actorTeams));
    return true;
  }

  lemma NothingInScope(s: Schema, db: Db)
    requires Valid(s, db)
    ensures MembersRewritten(s, db, db, {})
  {
  }

  // d is b after the narrow recompute for changed assignments of roles.
  ghost predicate Recomputed(s: Schema, b: Db, d: Db, roles: set<RoleId>, actors: set<TeamId>)
    requires Valid(s, b)
  {
    exists c :: MembersRewritten(s, b, c, CollectTeamIds(s, b, roles)) &&
      EvalsRewritten(s, c, d, RolesToUpdate(s, b, roles, actors))
  }

  lemma NewRolesAreRequested(before: map<RoleId, RoleRow>, after: map<RoleId, RoleRow>, lookup: Lookup,
                             reqs: seq<Resolved>)
    requires Extended(before, after, lookup) && Resolves(lookup, after, reqs)
    requires forall rd, pk :: (rd, pk) in lookup ==> Requests(reqs, |reqs|, rd, pk)
    ensures forall r :: r in after && r !in before ==>
      exists q :: q in reqs && after[r] == RoleRow(q.rd, q.target)
  {
    forall r | r in after && r !in before ensures exists q :: q in reqs && after[r] == RoleRow(q.rd, q.target) {
      var key :| key in lookup && lookup[key] == r;
      var rd, pk := key.0, key.1;
      assert (rd, pk) in lookup && Requests(reqs, |reqs|, rd, pk);
      var i :| 0 <= i < |reqs| && reqs[i].rd == rd && reqs[i].target.pk == pk;
      assert (reqs[i].rd, reqs[i].target.pk) == key && reqs[i] in reqs;
    }
  }

  lemma RequestsHaveRoles(roles: map<RoleId, RoleRow>, lookup: Lookup, reqs: seq<Resolved>)
    requires Resolves(lookup, roles, reqs)
    ensures forall q :: q in reqs ==> exists r :: r in roles && roles[r] == RoleRow(q.rd, q.target)
  {
    forall q | q in reqs ensures exists r :: r in roles && roles[r] == RoleRow(q.rd, q.target) {
      var i :| 0 <= i < |reqs| && reqs[i] == q;
      var r := lookup[(reqs[i].rd, reqs[i].target.pk)];
      assert r in roles && roles[r] == RoleRow(q.rd, q.target);
    }
  }

  lemma NothingAsked(s: Schema, a: Db)
    ensures RowsGiven(s, a, a, map[], [], [])
  {
  }

  lemma RowsAsked(s: Schema, a: Db, b: Db, lookup: Lookup, users: seq<Resolved>, teams: seq<Resolved>)
    requires UniqueRoles(b.roles) && RowsGiven(s, a, b, lookup, users, teams)
    requires forall rd, pk :: (rd, pk) in lookup ==> Requests(users + teams, |users + teams|, rd, pk)
    ensures forall u, r :: (u, r) in b.userHolds <==> (u, r) in a.userHolds || exists i :: (
      0 <= i < |users| && users[i].actor == u && r in b.roles && b.roles[r] == RoleRow(users[i].rd, users[i].target))
    ensures forall t, r :: (t, r) in b.teamHolds <==> (t, r) in a.teamHolds || exists i :: (
      0 <= i < |teams| && teams[i].actor == t && r in b.roles && b.roles[r] == RoleRow(teams[i].rd, teams[i].target))
    ensures forall r :: r in b.roles && r !in a.roles ==>
      exists q :: q in users + teams && b.roles[r] == RoleRow(q.rd, q.target)
    ensures forall q :: q in users + teams ==> exists r :: r in b.roles && b.roles[r] == RoleRow(q.rd, q.target)
  {
    SplitRequests(lookup, b.roles, users, teams);
    forall u, r { PairsAreRequests(lookup, b.roles, users, u, r); }
    forall t, r { PairsAreRequests(lookup, b.roles, teams, t, r); }
    NewRolesAreRequested(a.roles, b.roles, lookup, users + teams);
    RequestsHaveRoles(b.roles, lookup, users + teams);
  }

  lemma GivenIsCorrect(s: Schema, a: Db, b: Db, d: Db, lookup: set<RoleId>, actors: set<TeamId>)
    requires WellFormed(s) && Correct(s, a) && Gave(s, a, b, lookup, actors)
    requires Recomputed(s, b, d, lookup, actors)
    ensures Correct(s, d)
  {
    var c :| MembersRewritten(s, b, c, CollectTeamIds(s, b, lookup)) &&
             EvalsRewritten(s, c, d, RolesToUpdate(s, b, lookup, actors));
    GiveKeepsTablesCorrect(s, a, b, c, d, lookup, actors);
  }

  lemma ActorsOfPairs(lookup: Lookup, teams: seq<Resolved>)
    requires forall i :: 0 <= i < |teams| ==> (teams[i].rd, teams[i].target.pk) in lookup
    ensures (set h | h in Pairs(lookup, teams) :: h.0) == TeamsAmong(teams)
  {
    forall t | t in TeamsAmong(teams) ensures exists h :: h in Pairs(lookup, teams) && h.0 == t {
      var i :| 0 <= i < |teams| && teams[i].actor == t;
      var h := (teams[i].actor, lookup[(teams[i].rd, teams[i].target.pk)]);
      assert h in Pairs(lookup, teams);
    }
  }

  // The rows of a batch: each actor ends with exactly the roles it had and those of the
  // definitions and objects asked for it, and roles are created only for requests.
  method InsertRows(store: RbacStore, users: seq<Resolved>, teams: seq<Resolved>)
    returns (lookup: Lookup, actorTeams: set<TeamId>)
    requires store.Ready() && UniqueRoles(store.roles) && Acceptable(store.s, store.objects, users, teams)
    modifies store`roles, store`userHolds, store`teamHolds
    ensures store.Ready() && UniqueRoles(store.roles)
    ensures forall u, r :: (u, r) in store.userHolds <==> (u, r) in old(store.userHolds) || exists i :: (
      0 <= i < |users| && users[i].actor == u && r in store.roles &&
      store.roles[r] == RoleRow(users[i].rd, users[i].target))
    ensures forall t, r :: (t, r) in store.teamHolds <==> (t, r) in old(store.teamHolds) || exists i :: (
      0 <= i < |teams| && teams[i].actor == t && r in store.roles &&
      store.roles[r] == RoleRow(teams[i].rd, teams[i].target))
    ensures forall r :: r in old(store.roles) ==> r in store.roles && store.roles[r] == old(store.roles)[r]
    ensures forall r :: r in store.roles && r !in old(store.roles) ==>
      exists q :: q in users + teams && store.roles[r] == RoleRow(q.rd, q.target)
    ensures forall q :: q in users + teams ==>
      exists r :: r in store.roles && store.roles[r] == RoleRow(q.rd, q.target)
    ensures RowsGiven(store.s, old(store.View()), store.View(), lookup, users, teams)
    ensures Gave(store.s, old(store.View()), store.View(), lookup.Values, actorTeams)
  {
    ghost var s, a := store.s, store.View();
    lookup := EnsureObjectRoles(store, users + teams);
    SplitRequests(lookup, store.roles, users, teams);
    var userRows, teamRows := CreateAssignments(store, users, teams, lookup);
    ghost var b := store.View();
    GivenRowsAreGave(s, a, b, lookup, users, teams);
    RowsAsked(s, a, b, lookup, users, teams);
    actorTeams := set h | h in teamRows :: h.0;
    assert actorTeams == TeamsAmong(teams) by { ActorsOfPairs(lookup, teams); }
  }

  // Any batch of user and team assignments: the rows are those asked for, and both derived
  // tables end as a recompute of everything would leave them.
  method GiveAssignments(store: RbacStore, defer: DeferState, users: seq<Resolved>, teams: seq<Resolved>)
    returns (ok: bool, lookup: Lookup)
    requires store.Ready() && UniqueRoles(store.roles) && Acceptable(store.s, store.objects, users, teams)
    modifies store`roles, store`userHolds, store`teamHolds, store`memberRoles, store`evals
    ensures store.Ready() && UniqueRoles(store.roles)
    ensures forall u, r :: (u, r) in store.userHolds <==> (u, r) in old(store.userHolds) || exists i :: (
      0 <= i < |users| && users[i].actor == u && r in store.roles &&
      store.roles[r] == RoleRow(users[i].rd, users[i].target))
    ensures forall t, r :: (t, r) in store.teamHolds <==> (t, r) in old(store.teamHolds) || exists i :: (
      0 <= i < |teams| && teams[i].actor == t && r in store.roles &&
      store.roles[r] == RoleRow(teams[i].rd, teams[i].target))
    ensures forall r :: r in old(store.roles) ==> r in store.roles && store.roles[r] == old(store.roles)[r]
    ensures forall r :: r in store.roles && r !in old(store.roles) ==>
      exists q :: q in users + teams && store.roles[r] == RoleRow(q.rd, q.target)
    ensures forall q :: q in users + teams ==>
      exists r :: r in store.roles && store.roles[r] == RoleRow(q.rd, q.target)
    ensures RowsGiven(store.s, old(store.View()),
              store.View().(memberRoles := old(store.memberRoles), evals := old(store.evals)), lookup, users, teams)
    ensures ok == (!(defer.active && defer.created != []) || (users == [] && teams == []))
    ensures ok && old(Correct(store.s, store.View())) ==> Correct(store.s, store.View())
    ensures !ok ==> store.memberRoles == old(store.memberRoles) && store.evals == old(store.evals)
  {
    ghost var s, a := store.s, store.View();
    if users == [] && teams == [] {
      NothingAsked(s, a);
      return true, map[];
    }
    var actorTeams;
    lookup, actorTeams := InsertRows(store, users, teams);
    ghost var b := store.View();
    ok := RecomputeAfterGive(store, defer, lookup.Values, actorTeams);
    if ok && Correct(s, a) {
      GivenIsCorrect(s, a, b, store.View(), lookup.Values, actorTeams);
    }
  }

  // ---- remove_assignments ----

  // Deletes the given assignments, recomputes, then drops the roles left without actors.
  method RemoveAssignments(store: RbacStore, defer: DeferState, users: set<(int, RoleId)>, teams: set<(TeamId, RoleId)>)
    returns (ok: bool)
    requires store.Ready()
    modifies store`roles, store`userHolds, store`teamHolds, store`memberRoles, store`evals
    ensures store.Ready()
    ensures store.objects == old(store.objects)
    ensures store.userHolds == old(store.userHolds) - users && store.teamHolds == old(store.teamHolds) - teams
    ensures ok == (!(defer.active && defer.created != []) || (users == {} && teams == {}))
    ensures ok && old(Correct(store.s, store.View())) ==> Correct(store.s, store.View())
    ensures ok ==> forall r :: r in store.roles <==>
      r in old(store.roles) &&
      !((exists h :: (h in users || h in teams) && h.1 == r) &&
        forall h :: h in store.userHolds || h in store.teamHolds ==> h.1 != r)
    ensures forall r :: r in store.roles ==> r in old(store.roles) && store.roles[r] == old(store.roles)[r]
    ensures !ok ==> store.View() == old(store.View()).(userHolds := store.userHolds, teamHolds := store.teamHolds)
  {
    var s := store.s;
    ghost var a := store.View();
    if users == {} && teams == {} { return true; }
    var roleIds := Touched(users, teams);
    var actorTeams := set h | h in teams :: h.0;
    store.userHolds := store.userHolds - users;
    store.teamHolds := store.teamHolds - teams;
    ghost var b := store.View();
    assert Removed(s, a, b, roleIds, actorTeams);
    ok := RecomputeAfterGive(store, defer, roleIds, actorTeams);
    if !ok { return; }
    ghost var d := store.View();
    OrphansOfRemoved(d, users, teams);
    DeleteRoles(store, Orphans(store.View(), roleIds));
    if Correct(s, a) {
      RemovedIsCorrect(s, a, b, d, roleIds, actorTeams);
    }
  }

  lemma OrphansOfRemoved(d: Db, users: set<(int, RoleId)>, teams: set<(TeamId, RoleId)>)
    ensures forall r :: r in Orphans(d, Touched(users, teams)) <==>
      r in d.roles && (exists h :: (h in users || h in teams) && h.1 == r) &&
      forall h :: h in d.userHolds || h in d.teamHolds ==> h.1 != r
  {
  }

  lemma RemovedIsCorrect(s: Schema, a: Db, b: Db, d: Db, roleIds: set<RoleId>, actors: set<TeamId>)
    requires WellFormed(s) && Correct(s, a) && Removed(s, a, b, roleIds, actors)
    requires Recomputed(s, b, d, roleIds, actors)
    ensures Correct(s, WithoutRoles(d, Orphans(d, roleIds)))
  {
    var c :| MembersRewritten(s, b, c, CollectTeamIds(s, b, roleIds)) &&
             EvalsRewritten(s, c, d, RolesToUpdate(s, b, roleIds, actors));
    RemoveKeepsTablesCorrect(s, a, b, c, d, roleIds, actors);
  }

  function Touched(users: set<(int, RoleId)>, teams: set<(TeamId, RoleId)>): set<RoleId> {
    (set h | h in users :: h.1) + set h | h in teams :: h.1
  }

  // Deletes object roles with everything that cascades from them.
  method DeleteRoles(store: RbacStore, dead: set<RoleId>)
    requires store.Ready()
    modifies store`roles, store`userHolds, store`teamHolds, store`memberRoles, store`evals
    ensures store.Ready() && store.View() == WithoutRoles(old(store.View()), dead)
  {
    var after := WithoutRoles(store.View(), dead);
    store.roles, store.userHolds, store.teamHolds := after.roles, after.userHolds, after.teamHolds;
    store.memberRoles, store.evals := after.memberRoles, after.evals;
  }
}
