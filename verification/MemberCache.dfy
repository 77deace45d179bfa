// compute_team_member_roles: dictionaries are filled from the tables, the team
// graph is crawled, and the member_roles rows in scope are rewritten.
module MemberCache {
  import opened Graphs
  import opened Membership
  import opened Hierarchy
  import opened Walks
  import opened RbacModel
  import opened Refresh

  type OrgTeams = map<Option<int>, seq<TeamId>>

  function TeamsUnder(m: OrgTeams, k: Option<int>): seq<TeamId> {
    if k in m then m[k] else []
  }

  // m lists the teams of every organization.
  ghost predicate ListsOrgTeams(s: Schema, objs: Objects, m: OrgTeams) {
    forall org, t :: t in TeamsUnder(m, Some(org)) <==>
      IsTeam(s, objs, t) && objs[TeamObj(s, t)] == Some(Obj(s.orgCt, org))
  }

  method GetOrgTeamMapping(s: Schema, objs: Objects) returns (m: OrgTeams)
    requires WellFormed(s) && WellTyped(s.reg, objs)
    ensures ListsOrgTeams(s, objs, m)
  {
    m := map[];
    if ParentField(s.reg, s.teamCt).None? { return; }
    var rest := Teams(s, objs);
    forall t { TeamsExist(s, objs, t); }
    while rest != {}
      invariant rest <= Teams(s, objs)
      invariant forall org, t :: t in TeamsUnder(m, Some(org)) <==>
        t !in rest && IsTeam(s, objs, t) && objs[TeamObj(s, t)] == Some(Obj(s.orgCt, org))
      decreases rest
    {
      var t :| t in rest;
      rest := rest - {t};
      var parent := objs[TeamObj(s, t)];
      assert parent.Some? ==> parent.value == Obj(s.orgCt, parent.value.pk);
      var key := if parent.Some? then Some(parent.value.pk) else None;
      ghost var before := m;
      m := m[key := TeamsUnder(m, key) + [t]];
      forall org, u
        ensures u in TeamsUnder(m, Some(org)) <==>
          u in TeamsUnder(before, Some(org)) || (u == t && parent == Some(Obj(s.orgCt, org)))
      {
        if Some(org) == key { assert TeamsUnder(m, Some(org)) == TeamsUnder(before, Some(org)) + [t]; }
      }
    }
  }

  lemma TeamsExist(s: Schema, objs: Objects, t: TeamId)
    ensures t in Teams(s, objs) <==> IsTeam(s, objs, t)
  {
    if IsTeam(s, objs, t) {
      var o := TeamObj(s, t);
      assert o in objs && o.ct == s.teamCt && o.pk == t;
    }
  }

  // The teams a member-giving role is about, through the prefetched mapping.
  function TargetIds(s: Schema, row: RoleRow, orgTeams: OrgTeams): seq<TeamId> {
    if row.target.ct == s.teamCt then [row.target.pk]
    else if row.target.ct == s.orgCt then TeamsUnder(orgTeams, Some(row.target.pk))
    else []
  }

  lemma TargetIdsAreTargets(s: Schema, objs: Objects, row: RoleRow, orgTeams: OrgTeams, t: TeamId)
    requires ListsOrgTeams(s, objs, orgTeams)
    ensures t in TargetIds(s, row, orgTeams) <==> t in TargetTeams(s, objs, row)
  {
    if row.target.ct == s.orgCt && row.target.ct != s.teamCt {
      assert row.target == Obj(s.orgCt, row.target.pk);
      if IsTeam(s, objs, t) && objs[TeamObj(s, t)] == Some(row.target) {
        var o := TeamObj(s, t);
        assert o in objs && o.ct == s.teamCt && objs[o] == Some(row.target) && o.pk == t;
      }
    }
  }

  // d[k].append(v) for every k of keys
  method AppendForEach(d: Neighbours, keys: seq<int>, v: int) returns (e: Neighbours)
    ensures forall k, x :: x in NeighboursOf(e, k) <==> x in NeighboursOf(d, k) || (k in keys && x == v)
  {
    e := d;
    for i := 0 to |keys|
      invariant forall k, x :: x in NeighboursOf(e, k) <==> x in NeighboursOf(d, k) || (k in keys[..i] && x == v)
    {
      assert keys[..i + 1] == keys[..i] + [keys[i]];
      ghost var before := e;
      e := e[keys[i] := NeighboursOf(e, keys[i]) + [v]];
      forall k ensures NeighboursOf(e, k) == NeighboursOf(before, k) + if k == keys[i] then [v] else [] {}
    }
    assert keys[..|keys|] == keys;
  }

  // The roles whose definition lists the team permission.
  function MemberGiving(s: Schema, db: Db): set<RoleId>
    requires Valid(s, db)
  {
    set r | r in db.roles && GivesMembership(s, db.roles[r])
  }

  method GetDirectTeamMemberRoles(s: Schema, db: Db, orgTeams: OrgTeams) returns (direct: Neighbours)
    requires Valid(s, db) && ListsOrgTeams(s, db.objects, orgTeams)
    ensures forall t, r :: r in NeighboursOf(direct, t) <==> GivesTo(CoreOf(s, db), r, t)
  {
    direct := map[];
    var rest := MemberGiving(s, db);
    while rest != {}
      invariant rest <= MemberGiving(s, db)
      invariant forall t, r :: r in NeighboursOf(direct, t) <==> r !in rest && GivesTo(CoreOf(s, db), r, t)
      decreases rest
    {
      ghost var pick := AnyOf(rest);
      var r :| r in rest;
      rest := rest - {r};
      forall t { TargetIdsAreTargets(s, db.objects, db.roles[r], orgTeams, t); }
      direct := AppendForEach(direct, TargetIds(s, db.roles[r], orgTeams), r);
    }
  }

  method GetParentTeamsOfTeams(s: Schema, db: Db, orgTeams: OrgTeams) returns (parents: Neighbours)
    requires Valid(s, db) && ListsOrgTeams(s, db.objects, orgTeams)
    ensures DictGraph(parents) == ParentGraph(CoreOf(s, db))
  {
    parents := map[];
    ghost var c := CoreOf(s, db);
    var rest := set h | h in db.teamHolds && h.1 in MemberGiving(s, db);
    ghost var all := rest;
    while rest != {}
      invariant rest <= all
      invariant forall t, p :: p in NeighboursOf(parents, t) <==>
        exists h :: h in all - rest && h.0 == p && GivesTo(c, h.1, t)
      decreases rest
    {
      var h :| h in rest;
      rest := rest - {h};
      forall t { TargetIdsAreTargets(s, db.objects, db.roles[h.1], orgTeams, t); }
      parents := AppendForEach(parents, TargetIds(s, db.roles[h.1], orgTeams), h.0);
    }
    forall t, p ensures (t, p) in DictGraph(parents) <==> (t, p) in ParentGraph(c) {
      DictEdge(parents, t, p);
      ParentEdge(c, t, p);
    }
    assert forall e :: e in DictGraph(parents) ==> e == (e.0, e.1);
    assert forall e :: e in ParentGraph(c) ==> e == (e.0, e.1);
  }

  function ToSet(xs: seq<int>): set<int> {
    set x | x in xs
  }

  // The full list of roles giving access to each team: its own and those of all its parents.
  method BuildMemberRoles(direct: Neighbours, parents: Neighbours, ghost c: Core)
    returns (all: map<TeamId, set<RoleId>>)
    requires forall t, r :: r in NeighboursOf(direct, t) <==> GivesTo(c, r, t)
    requires DictGraph(parents) == ParentGraph(c)
    ensures forall t :: (if t in all then all[t] else {}) == MemberRolesOf(c, t)
  {
    all := map[];
    var rest := direct.Keys;
    while rest != {}
      invariant rest <= direct.Keys
      invariant forall t :: t in direct && t !in rest ==> t in all && all[t] == MemberRolesOf(c, t)
      invariant forall t :: t in all ==> t in direct
      decreases rest
    {
      ghost var pick := AnyOf(rest);
      var t :| t in rest;
      rest := rest - {t};
      var found := AllReachable(t, parents);
      var roles := CollectRoles(ToSet(direct[t]), found, direct);
      forall r ensures r in roles <==> r in MemberRolesOf(c, t) {
        MemberRoleCases(c, t, r);
        assert r in NeighboursOf(direct, t) <==> r in ToSet(direct[t]);
      }
      all := all[t := roles];
    }
    forall t | t !in direct ensures MemberRolesOf(c, t) == {} {
      forall r ensures r !in MemberRolesOf(c, t) {
        assert NeighboursOf(direct, t) == [];
        NobodyGives(c, t, r);
      }
    }
  }

  method CollectRoles(own: set<RoleId>, teams: set<TeamId>, direct: Neighbours) returns (roles: set<RoleId>)
    ensures forall r :: r in roles <==> r in own || exists p :: p in teams && r in NeighboursOf(direct, p)
  {
    roles := own;
    var rest := teams;
    while rest != {}
      invariant rest <= teams
      invariant forall r :: r in roles <==> r in own || exists p :: p in teams - rest && r in NeighboursOf(direct, p)
      decreases rest
    {
      ghost var pick := AnyOf(rest);
      var p :| p in rest;
      rest := rest - {p};
      roles := roles + ToSet(NeighboursOf(direct, p));
    }
  }

  // team_team_children: the parent dictionary turned round.
  method ReverseDict(parents: Neighbours) returns (children: Neighbours)
    ensures DictGraph(children) == Reverse(DictGraph(parents))
  {
    children := map[];
    var rest := parents.Keys;
    while rest != {}
      invariant rest <= parents.Keys
      invariant forall p, t :: t in NeighboursOf(children, p) <==> t !in rest && p in NeighboursOf(parents, t)
      decreases rest
    {
      ghost var pick := AnyOf(rest);
      var t :| t in rest;
      rest := rest - {t};
      children := AppendForEach(children, parents[t], t);
    }
    forall e | e in DictGraph(children) ensures e in Reverse(DictGraph(parents)) {
      DictEdge(children, e.0, e.1);
      DictEdge(parents, e.1, e.0);
      assert (e.1, e.0) in DictGraph(parents);
    }
    forall e | e in Reverse(DictGraph(parents)) ensures e in DictGraph(children) {
      assert (e.1, e.0) in DictGraph(parents);
      DictEdge(parents, e.1, e.0);
      DictEdge(children, e.0, e.1);
    }
  }

  // The given teams and their descendants in the team-of-team graph.
  method ExpandScope(teamIds: set<TeamId>, parents: Neighbours, ghost c: Core) returns (expanded: set<TeamId>)
    requires DictGraph(parents) == ParentGraph(c)
    ensures forall t :: t in expanded <==> InScope(c, teamIds, t)
  {
    var children := ReverseDict(parents);
    expanded := teamIds;
    var rest := teamIds;
    while rest != {}
      invariant rest <= teamIds
      invariant forall t :: t in expanded <==>
        t in teamIds || exists a :: a in teamIds - rest && a in Reach(ParentGraph(c), t)
      decreases rest
    {
      ghost var pick := AnyOf(rest);
      var a :| a in rest;
      rest := rest - {a};
      var below := AllReachable(a, children);
      forall t { ReverseReach(ParentGraph(c), a, t); }
      expanded := expanded + below;
    }
  }

  // ---- The tables as one mutable store ----

  class RbacStore {
    const s: Schema
    var objects: Objects
    var roles: map<RoleId, RoleRow>
    var userHolds: set<(int, RoleId)>
    var teamHolds: set<(TeamId, RoleId)>
    var memberRoles: set<(TeamId, RoleId)>
    var evals: set<(RoleId, Perm)>

    constructor (s: Schema)
      ensures this.s == s && View() == Db(map[], map[], {}, {}, {}, {})
    {
      this.s := s;
      objects, roles, userHolds, teamHolds, memberRoles, evals := map[], map[], {}, {}, {}, {};
    }

    function View(): Db
      reads this
    {
      Db(objects, roles, userHolds, teamHolds, memberRoles, evals)
    }

    ghost predicate Ready()
      reads this
    {
      WellFormed(s) && Valid(s, View())
    }
  }

  ghost function ScopeOf(s: Schema, db: Db, teamIds: Option<set<TeamId>>): set<TeamId> {
    match teamIds
    case Some(ts) => ts
    case None => Teams(s, db.objects)
  }

  method ComputeTeamMemberRoles(store: RbacStore, teamIds: Option<set<TeamId>>)
    requires store.Ready()
    modifies store`memberRoles
    ensures store.Ready()
    ensures MembersRewritten(store.s, old(store.View()), store.View(), ScopeOf(store.s, old(store.View()), teamIds))
    ensures teamIds.None? ==> MembersCorrect(store.s, store.View())
  {
    var s, db := store.s, store.View();
    ghost var c := CoreOf(s, db);
    var orgTeams := GetOrgTeamMapping(s, db.objects);
    var direct := GetDirectTeamMemberRoles(s, db, orgTeams);
    var parents := GetParentTeamsOfTeams(s, db, orgTeams);
    var all := BuildMemberRoles(direct, parents, c);
    var scope := Teams(s, db.objects);
    if teamIds.Some? {
      var expanded := ExpandScope(teamIds.value, parents, c);
      scope := scope * expanded;
    }
    forall t { TeamsExist(s, db.objects, t); }
    WriteMemberRoles(store, scope, all);
    WrittenAsSpecified(s, db, store.memberRoles, teamIds, scope, all);
    if teamIds.None? { AllRewritten(s, db, store.View()); }
  }

  lemma AllRewritten(s: Schema, b: Db, c: Db)
    requires Valid(s, b) && MembersRewritten(s, b, c, Teams(s, b.objects))
    ensures MembersCorrect(s, c)
  {
    assert CoreOf(s, c) == CoreOf(s, b);
    forall t | IsTeam(s, b.objects, t) ensures InScope(CoreOf(s, b), Teams(s, b.objects), t) {
      TeamsExist(s, b.objects, t);
    }
  }

  lemma WrittenAsSpecified(s: Schema, b: Db, rows: set<(TeamId, RoleId)>, teamIds: Option<set<TeamId>>,
                           scope: set<TeamId>, all: map<TeamId, set<RoleId>>)
    requires Valid(s, b)
    requires forall t :: (if t in all then all[t] else {}) == MemberRolesOf(CoreOf(s, b), t)
    requires forall t :: t in scope <==> IsTeam(s, b.objects, t) && InScope(CoreOf(s, b), ScopeOf(s, b, teamIds), t)
    requires forall t, r :: (t, r) in rows <==> if t in scope then t in all && r in all[t] else (t, r) in b.memberRoles
    ensures MembersRewritten(s, b, b.(memberRoles := rows), ScopeOf(s, b, teamIds))
  {
    forall m | m in rows ensures IsTeam(s, b.objects, m.0) && m.1 in b.roles {
      var t, r := m.0, m.1;
      assert (t, r) in rows;
      if t in scope { MemberRolesExist(s, b, r, t); }
    }
    forall t, r | IsTeam(s, b.objects, t) && InScope(CoreOf(s, b), ScopeOf(s, b, teamIds), t)
      ensures (t, r) in rows <==> r in MemberRolesOf(CoreOf(s, b), t)
    {
      assert t in scope;
    }
  }

  // Each team in scope gets the expected rows it lacks and loses the ones it should not have.
  method WriteMemberRoles(store: RbacStore, scope: set<TeamId>, all: map<TeamId, set<RoleId>>)
    modifies store`memberRoles
    ensures forall t, r :: (t, r) in store.memberRoles <==>
      if t in scope then t in all && r in all[t] else (t, r) in old(store.memberRoles)
  {
    var rest := scope;
    while rest != {}
      invariant rest <= scope
      invariant forall t, r :: (t, r) in store.memberRoles <==>
        if t in scope && t !in rest then t in all && r in all[t] else (t, r) in old(store.memberRoles)
      decreases rest
    {
      ghost var pick := AnyOf(rest);
      var t :| t in rest;
      rest := rest - {t};
      var existing := set m | m in store.memberRoles && m.0 == t :: m.1;
      var expected := if t in all then all[t] else {};
      var toAdd := expected - existing;
      var toRemove := existing - expected;
      ghost var before := store.memberRoles;
      store.memberRoles := store.memberRoles + (set r | r in toAdd :: (t, r)) - (set r | r in toRemove :: (t, r));
      forall u, r ensures (u, r) in store.memberRoles <==> if u == t then r in expected else (u, r) in before {
        assert (t, r) in before ==> r in existing;
      }
    }
  }
}
