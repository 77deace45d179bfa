// Why giving and removing assignments in bulk, with the narrow recompute that
// follows, leaves both derived tables correct.
module Assignments {
  import opened Graphs
  import opened Membership
  import opened Hierarchy
  import opened RbacModel
  import opened Refresh

  // _collect_recompute_team_ids
  function CollectTeamIds(s: Schema, db: Db, rs: set<RoleId>): set<TeamId> {
    set r, t | r in rs && r in db.roles && db.roles[r].rd in s.rdPermissions && GivesMembership(s, db.roles[r]) &&
      t in TargetTeams(s, db.objects, db.roles[r]) :: t
  }

  // The roles whose evaluations are recomputed when assignments of `roles` change
  // and `actors` are the teams among the actors.
  function RolesToUpdate(s: Schema, db: Db, roles: set<RoleId>, actors: set<TeamId>): set<RoleId> {
    roles + if actors == {} then {} else Descendents(db, roles) + BulkAncestors(s, db, actors)
  }

  // b is a with the missing roles of lookup created and assignments of lookup added.
  ghost predicate Gave(s: Schema, a: Db, b: Db, lookup: set<RoleId>, actors: set<TeamId>) {
    && Valid(s, b)
    && b == a.(roles := b.roles, userHolds := b.userHolds, teamHolds := b.teamHolds)
    && (forall r :: r in a.roles ==> r in b.roles && b.roles[r] == a.roles[r])
    && (forall r :: r in b.roles ==> r in a.roles || r in lookup)
    && lookup <= b.roles.Keys
    && a.teamHolds <= b.teamHolds && a.userHolds <= b.userHolds
    && forall h :: h in b.teamHolds && h !in a.teamHolds ==> h.0 in actors && h.1 in lookup
  }

  // b is a with some assignments of roleIds deleted.
  ghost predicate Removed(s: Schema, a: Db, b: Db, roleIds: set<RoleId>, actors: set<TeamId>) {
    && Valid(s, b)
    && b == a.(userHolds := b.userHolds, teamHolds := b.teamHolds)
    && b.teamHolds <= a.teamHolds && b.userHolds <= a.userHolds
    && forall h :: h in a.teamHolds && h !in b.teamHolds ==> h.0 in actors && h.1 in roleIds
  }

  lemma CollectedTeams(s: Schema, db: Db, rs: set<RoleId>, r: RoleId, t: TeamId)
    requires Valid(s, db) && r in rs && GivesTo(CoreOf(s, db), r, t)
    ensures t in CollectTeamIds(s, db, rs)
  {
  }

  // Teams whose direct member roles or parents changed are collected, whichever
  // way the assignments moved.
  lemma UncollectedTeamsSame(s: Schema, a: Db, b: Db, roles: set<RoleId>, u: TeamId)
    requires Valid(s, a) && Valid(s, b) && a.objects == b.objects
    requires forall r :: r !in roles ==> (r in a.roles <==> r in b.roles)
    requires forall r :: r in a.roles ==> r in b.roles && a.roles[r] == b.roles[r]
    requires forall h: (TeamId, RoleId) :: h.1 !in roles ==> (h in a.teamHolds <==> h in b.teamHolds)
    requires u !in CollectTeamIds(s, b, roles)
    ensures SameAt(CoreOf(s, a), CoreOf(s, b), u)
  {
    var ca, cb := CoreOf(s, a), CoreOf(s, b);
    forall r | r in roles ensures !GivesTo(ca, r, u) && !GivesTo(cb, r, u) {
      if GivesTo(cb, r, u) { CollectedTeams(s, b, roles, r, u); }
    }
    forall r | r !in roles ensures GivesTo(ca, r, u) <==> GivesTo(cb, r, u) {}
    forall p ensures (u, p) in ParentGraph(ca) <==> (u, p) in ParentGraph(cb) {
      ParentEdge(ca, u, p);
      ParentEdge(cb, u, p);
    }
    forall r ensures r in DirectRoles(ca, u) <==> r in DirectRoles(cb, u) {
      assert GivesTo(ca, r, u) <==> GivesTo(cb, r, u);
    }
  }

  // A role outside the update set sat above none of the actor teams.
  lemma NotUpdatedNotMember(s: Schema, a: Db, b: Db, roles: set<RoleId>, actors: set<TeamId>, r: RoleId, t: TeamId)
    requires WellFormed(s) && Correct(s, a) && a.evals == b.evals && r in a.roles
    requires r !in RolesToUpdate(s, b, roles, actors) && t in actors
    ensures r !in MemberRolesOf(CoreOf(s, a), t)
  {
    assert BulkAncestors(s, b, actors) == BulkAncestors(s, a, actors);
    if r in MemberRolesOf(CoreOf(s, a), t) { AncestorsCoverMembers(s, a, actors, r, t); }
  }

  // give_assignments: any batch, new roles and new team-of-team edges included.
  lemma GiveKeepsTablesCorrect(s: Schema, a: Db, b: Db, c: Db, d: Db, lookup: set<RoleId>, actors: set<TeamId>)
    requires WellFormed(s) && Correct(s, a) && Gave(s, a, b, lookup, actors)
    requires MembersRewritten(s, b, c, CollectTeamIds(s, b, lookup))
    requires EvalsRewritten(s, c, d, RolesToUpdate(s, b, lookup, actors))
    ensures Correct(s, d)
  {
    var created := b.roles.Keys - a.roles.Keys;
    forall u | u !in CollectTeamIds(s, b, lookup) ensures SameAt(CoreOf(s, a), CoreOf(s, b), u) {
      UncollectedTeamsSame(s, a, b, lookup, u);
    }
    ScopedEqualsGlobal(s, a, b, c, CollectTeamIds(s, b, lookup));
    var rs := RolesToUpdate(s, b, lookup, actors);
    forall r | r in b.roles && r !in rs ensures LeftAlone(s, a, b, actors, created, {}, r) {
      NotUpdatedLeftAlone(s, a, b, lookup, actors, r);
    }
    ScopedEvaluationsCorrect(s, a, b, c, d, rs, actors, created, {});
  }

  lemma NotUpdatedLeftAlone(s: Schema, a: Db, b: Db, lookup: set<RoleId>, actors: set<TeamId>, r: RoleId)
    requires WellFormed(s) && Correct(s, a) && Gave(s, a, b, lookup, actors)
    requires r in b.roles && r !in RolesToUpdate(s, b, lookup, actors)
    ensures LeftAlone(s, a, b, actors, b.roles.Keys - a.roles.Keys, {}, r)
  {
    forall t | t in actors { NotUpdatedNotMember(s, a, b, lookup, actors, r, t); }
    forall x | x in Implied(CoreOf(s, a), r) { ImpliedRolesExist(s, a, r, x); }
  }

  // remove_assignments up to and including the recompute.
  lemma RemoveRecomputeCorrect(s: Schema, a: Db, b: Db, c: Db, d: Db, roleIds: set<RoleId>, actors: set<TeamId>)
    requires WellFormed(s) && Correct(s, a) && Removed(s, a, b, roleIds, actors)
    requires MembersRewritten(s, b, c, CollectTeamIds(s, b, roleIds))
    requires EvalsRewritten(s, c, d, RolesToUpdate(s, b, roleIds, actors))
    ensures Correct(s, d)
  {
    forall u | u !in CollectTeamIds(s, b, roleIds) ensures SameAt(CoreOf(s, a), CoreOf(s, b), u) {
      UncollectedTeamsSame(s, a, b, roleIds, u);
    }
    ScopedEqualsGlobal(s, a, b, c, CollectTeamIds(s, b, roleIds));
    var rs := RolesToUpdate(s, b, roleIds, actors);
    forall r | r in b.roles && r !in rs ensures LeftAlone(s, a, b, actors, {}, {}, r) {
      forall t | t in actors { NotUpdatedNotMember(s, a, b, roleIds, actors, r, t); }
    }
    ScopedEvaluationsCorrect(s, a, b, c, d, rs, actors, {}, {});
  }

  // Roles of rs that neither a user nor a team holds.
  function Orphans(db: Db, rs: set<RoleId>): set<RoleId> {
    set r | r in rs && r in db.roles && (forall h :: h in db.userHolds ==> h.1 != r) &&
      (forall h :: h in db.teamHolds ==> h.1 != r)
  }

  // remove_assignments: recompute first, delete the roles left without actors after.
  lemma RemoveKeepsTablesCorrect(s: Schema, a: Db, b: Db, c: Db, d: Db, roleIds: set<RoleId>, actors: set<TeamId>)
    requires WellFormed(s) && Correct(s, a) && Removed(s, a, b, roleIds, actors)
    requires MembersRewritten(s, b, c, CollectTeamIds(s, b, roleIds))
    requires EvalsRewritten(s, c, d, RolesToUpdate(s, b, roleIds, actors))
    ensures Correct(s, WithoutRoles(d, Orphans(d, roleIds)))
  {
    RemoveRecomputeCorrect(s, a, b, c, d, roleIds, actors);
    DeleteUnheldKeepsCorrect(s, d, Orphans(d, roleIds), {});
  }
}
