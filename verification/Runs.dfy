// Whole runs of the RBAC tables: every reachable state equals its own from-scratch
// recompute, and an access check answers exactly what the assignments mean.
module Runs {
  import opened Graphs
  import opened Membership
  import opened Hierarchy
  import opened RbacModel
  import opened Refresh
  import opened Assignments
  import opened Creation
  import opened Deletion
  import opened BatchDeletion
  import opened Cascades
  import opened Pipeline

  // Both derived tables computed from the base tables alone.
  ghost function FromScratch(s: Schema, db: Db): Db
    requires Valid(s, db)
  {
    var c := CoreOf(s, db);
    db.(memberRoles := (set t, r | t in Teams(s, db.objects) && r in db.roles && r in MemberRolesOf(c, t) :: (t, r)),
        evals := (set r, x, q | r in db.roles && x in db.roles && db.roles[x].rd in s.rdPermissions &&
                    q in Direct(s, db.objects, db.roles[x]) && x in Implied(c, r) :: (r, q)))
  }

  lemma ScratchRows(s: Schema, db: Db)
    requires Valid(s, db)
    ensures forall t, r :: (t, r) in FromScratch(s, db).memberRoles <==>
      IsTeam(s, db.objects, t) && r in MemberRolesOf(CoreOf(s, db), t)
    ensures forall r, q :: (r, q) in FromScratch(s, db).evals <==> r in db.roles && Granted(s, db, r, q)
  {
    forall t, r | IsTeam(s, db.objects, t) && r in MemberRolesOf(CoreOf(s, db), t)
      ensures (t, r) in FromScratch(s, db).memberRoles
    {
      MemberRolesExist(s, db, r, t);
      assert TeamObj(s, t).pk == t && TeamObj(s, t) in db.objects;
    }
    forall r, q | r in db.roles && Granted(s, db, r, q) ensures (r, q) in FromScratch(s, db).evals {
      var x :| x in Implied(CoreOf(s, db), r) && Confers(s, db, x, q);
    }
  }

  // Correct is the same as equal to the from-scratch recompute.
  lemma CorrectIffFromScratch(s: Schema, db: Db)
    requires Valid(s, db)
    ensures Correct(s, db) <==> db == FromScratch(s, db)
  {
    var f := FromScratch(s, db);
    ScratchRows(s, db);
    if Correct(s, db) {
      forall m | m in db.memberRoles || m in f.memberRoles ensures m in db.memberRoles && m in f.memberRoles {
        var t, r := m.0, m.1;
        assert (t, r) in db.memberRoles <==> (t, r) in f.memberRoles;
      }
      forall e | e in db.evals || e in f.evals ensures e in db.evals && e in f.evals {
        var r, q := e.0, e.1;
        assert (r, q) in db.evals <==> (r, q) in f.evals;
      }
      assert db.memberRoles == f.memberRoles && db.evals == f.evals;
    }
  }

  lemma ScratchIsCorrect(s: Schema, db: Db)
    requires Valid(s, db)
    ensures Correct(s, FromScratch(s, db))
  {
    var f := FromScratch(s, db);
    ScratchRows(s, db);
    forall m | m in f.memberRoles ensures IsTeam(s, db.objects, m.0) && m.1 in db.roles {
      var t, r := m.0, m.1;
      assert (t, r) in f.memberRoles;
      MemberRolesExist(s, db, r, t);
    }
    assert Valid(s, f);
    assert CoreOf(s, f) == CoreOf(s, db);
    ConfersSame(s, db, f);
    forall r, q ensures Granted(s, f, r, q) <==> Granted(s, db, r, q) {}
  }

  // The base tables can always be completed to correct ones.
  lemma CompleteTables(s: Schema, db: Db) returns (a: Db)
    requires Valid(s, db)
    ensures Correct(s, a) && a == db.(memberRoles := a.memberRoles, evals := a.evals)
    ensures forall r, q :: (r, q) in a.evals <==> r in db.roles && Granted(s, db, r, q)
    ensures forall t, r :: (t, r) in a.memberRoles <==> IsTeam(s, db.objects, t) && r in MemberRolesOf(CoreOf(s, db), t)
  {
    ScratchRows(s, db);
    ScratchIsCorrect(s, db);
    a := FromScratch(s, db);
  }

  // ---- Steps ----

  ghost predicate GiveStep(s: Schema, a: Db, d: Db) {
    exists b, c, lookup, actors :: Gave(s, a, b, lookup, actors) &&
      MembersRewritten(s, b, c, CollectTeamIds(s, b, lookup)) &&
      EvalsRewritten(s, c, d, RolesToUpdate(s, b, lookup, actors))
  }

  ghost predicate RemoveStep(s: Schema, a: Db, e: Db) {
    exists b, c, d, roleIds, actors :: Removed(s, a, b, roleIds, actors) &&
      MembersRewritten(s, b, c, CollectTeamIds(s, b, roleIds)) &&
      EvalsRewritten(s, c, d, RolesToUpdate(s, b, roleIds, actors)) &&
      e == WithoutRoles(d, Orphans(d, roleIds))
  }

  ghost predicate CreateStep(s: Schema, a: Db, d: Db)
    requires WellFormed(s)
  {
    exists b, c, x :: Created(s, a, b) && NewObjects(a, b) == {x} && MembersRewritten(s, b, c, NewTeams(s, a, b)) &&
      EvalsRewrittenAt(s, c, d, RolesForParents(b, ParentsOf(s, b.objects, {x})), x)
  }

  // A deferred batch of creations, recomputed when the block is left.
  ghost predicate FlushStep(s: Schema, a: Db, e: Db)
    requires WellFormed(s)
  {
    exists b, c, d :: Created(s, a, b) && MembersRewritten(s, b, c, NewTeams(s, a, b)) &&
      EvalsRewritten(s, c, d, RolesForParents(b, ParentsOf(s, b.objects, NewObjects(a, b)))) &&
      e == WithoutRoles(d, Orphans(d, d.roles.Keys))
  }

  // The rows on a deleted team are cleared, or nobody has any.
  ghost predicate TeamRowsGo(s: Schema, a: Db, t: TeamId) {
    ParentField(s.reg, s.teamCt).Some? || NothingLeadsToTeam(s, a, t)
  }

  ghost predicate TeamDeleteStep(s: Schema, a: Db, e: Db) {
    exists t, c, d :: DeletableTeam(s, a, t) && TeamRowsGo(s, a, t) && Valid(s, AfterCascade(s, a, {t})) &&
      MembersRewritten(s, AfterCascade(s, a, {t}), c, StashedTeamIds(s, a, t)) &&
      EvalsRewritten(s, c, d, NamedBy(s, a, AfterCascade(s, a, {t}), t)) && e == AfterTeamDelete(s, d, t)
  }

  // Several teams by one query, whose handlers' last readings are right.
  ghost predicate BatchDeleteStep(s: Schema, a: Db, e: Db) {
    exists order, states :: DeletableTeams(s, a, TeamsIn(order)) && NoTeamTwice(order) &&
      Valid(s, AfterCascade(s, a, TeamsIn(order))) && Handlers(s, a, order, states) &&
      LastReadingsRight(s, a, order) && e == states[|order|]
  }

  ghost predicate ObjectDeleteStep(s: Schema, a: Db, e: Db) {
    exists xs :: DeletableObjects(s, a, xs) && RowsGo(s, a, xs) && e == AfterObjectDelete(s, a, xs)
  }

  ghost predicate UserDeleteStep(a: Db, e: Db) {
    exists user :: e == AfterUserDelete(a, user)
  }

  // Deletes that leave rows behind are no steps.
  ghost predicate Step(s: Schema, a: Db, b: Db)
    requires WellFormed(s)
  {
    || GiveStep(s, a, b) || RemoveStep(s, a, b) || CreateStep(s, a, b) || FlushStep(s, a, b)
    || TeamDeleteStep(s, a, b) || BatchDeleteStep(s, a, b) || ObjectDeleteStep(s, a, b) || UserDeleteStep(a, b)
  }

  lemma StepKeepsCorrect(s: Schema, a: Db, e: Db)
    requires WellFormed(s) && Correct(s, a) && Step(s, a, e)
    ensures Correct(s, e)
  {
    if GiveStep(s, a, e) || RemoveStep(s, a, e) {
      AssignmentStepCorrect(s, a, e);
    } else if CreateStep(s, a, e) || FlushStep(s, a, e) {
      CreationStepCorrect(s, a, e);
    } else {
      DeleteStepCorrect(s, a, e);
    }
  }

  lemma AssignmentStepCorrect(s: Schema, a: Db, e: Db)
    requires WellFormed(s) && Correct(s, a) && (GiveStep(s, a, e) || RemoveStep(s, a, e))
    ensures Correct(s, e)
  {
    if GiveStep(s, a, e) {
      var b, c, lookup, actors :| Gave(s, a, b, lookup, actors) &&
        MembersRewritten(s, b, c, CollectTeamIds(s, b, lookup)) &&
        EvalsRewritten(s, c, e, RolesToUpdate(s, b, lookup, actors));
      GiveKeepsTablesCorrect(s, a, b, c, e, lookup, actors);
    } else {
      var b, c, d, roleIds, actors :| Removed(s, a, b, roleIds, actors) &&
        MembersRewritten(s, b, c, CollectTeamIds(s, b, roleIds)) &&
        EvalsRewritten(s, c, d, RolesToUpdate(s, b, roleIds, actors)) &&
        e == WithoutRoles(d, Orphans(d, roleIds));
      RemoveKeepsTablesCorrect(s, a, b, c, d, roleIds, actors);
    }
  }

  lemma CreationStepCorrect(s: Schema, a: Db, e: Db)
    requires WellFormed(s) && Correct(s, a) && (CreateStep(s, a, e) || FlushStep(s, a, e))
    ensures Correct(s, e)
  {
    if CreateStep(s, a, e) {
      var b, c, x :| Created(s, a, b) && NewObjects(a, b) == {x} && MembersRewritten(s, b, c, NewTeams(s, a, b)) &&
        EvalsRewrittenAt(s, c, e, RolesForParents(b, ParentsOf(s, b.objects, {x})), x);
      CreateOneCorrect(s, a, b, c, e, x);
    } else {
      var b, c, d :| Created(s, a, b) && MembersRewritten(s, b, c, NewTeams(s, a, b)) &&
        EvalsRewritten(s, c, d, RolesForParents(b, ParentsOf(s, b.objects, NewObjects(a, b)))) &&
        e == WithoutRoles(d, Orphans(d, d.roles.Keys));
      CreationFlushCorrect(s, a, b, c, d);
      DeleteUnheldKeepsCorrect(s, d, Orphans(d, d.roles.Keys), {});
    }
  }

  lemma DeleteStepCorrect(s: Schema, a: Db, e: Db)
    requires WellFormed(s) && Correct(s, a)
    requires TeamDeleteStep(s, a, e) || BatchDeleteStep(s, a, e) || ObjectDeleteStep(s, a, e) || UserDeleteStep(a, e)
    ensures Correct(s, e)
  {
    if TeamDeleteStep(s, a, e) {
      var t, c, d :| DeletableTeam(s, a, t) && TeamRowsGo(s, a, t) && Valid(s, AfterCascade(s, a, {t})) &&
        MembersRewritten(s, AfterCascade(s, a, {t}), c, StashedTeamIds(s, a, t)) &&
        EvalsRewritten(s, c, d, NamedBy(s, a, AfterCascade(s, a, {t}), t)) && e == AfterTeamDelete(s, d, t);
      TeamDeleteKeepsTablesCorrect(s, a, t, c, d);
    } else if BatchDeleteStep(s, a, e) {
      var order, states :| DeletableTeams(s, a, TeamsIn(order)) && NoTeamTwice(order) &&
        Valid(s, AfterCascade(s, a, TeamsIn(order))) && Handlers(s, a, order, states) &&
        LastReadingsRight(s, a, order) && e == states[|order|];
      BatchDeleteCorrectIff(s, a, order, states);
    } else if ObjectDeleteStep(s, a, e) {
      var xs :| DeletableObjects(s, a, xs) && RowsGo(s, a, xs) && e == AfterObjectDelete(s, a, xs);
      ObjectDeleteCorrectIff(s, a, xs);
    } else {
      var user :| e == AfterUserDelete(a, user);
      UserDeleteCorrect(s, a, user);
    }
  }

  // From any state with correct tables; an empty database is one.
  ghost predicate IsRun(s: Schema, run: seq<Db>)
    requires WellFormed(s)
  {
    run != [] && Correct(s, run[0]) && forall i :: 0 <= i < |run| - 1 ==> Step(s, run[i], run[i + 1])
  }

  // Every state of every run is what recomputing everything would give.
  lemma {:induction false} RunsEqualFromScratch(s: Schema, run: seq<Db>, i: nat)
    requires WellFormed(s) && IsRun(s, run) && i < |run|
    ensures Correct(s, run[i]) && run[i] == FromScratch(s, run[i])
  {
    if i > 0 {
      RunsEqualFromScratch(s, run, i - 1);
      assert Step(s, run[i - 1], run[i - 1 + 1]);
      StepKeepsCorrect(s, run[i - 1], run[i]);
    }
    CorrectIffFromScratch(s, run[i]);
  }

  // ---- What an access check answers ----

  // The check reads the evaluation rows of the roles the user holds.
  ghost predicate UserCan(db: Db, user: int, q: Perm) {
    exists h :: h in db.userHolds && h.0 == user && (h.1, q) in db.evals
  }

  // Role y is held by a team on which x confers the team permission.
  ghost predicate Leads(s: Schema, db: Db, x: RoleId, y: RoleId) {
    exists h :: h in db.teamHolds && h.1 == y && Confers(s, db, x, MemberPerm(s, h.0))
  }

  // A chain of roles: the first is held by the user, each leads to the next, and the last
  // confers q itself.
  ghost predicate Chain(s: Schema, db: Db, user: int, roles: seq<RoleId>, q: Perm) {
    && roles != [] && (user, roles[0]) in db.userHolds && Confers(s, db, roles[|roles| - 1], q)
    && forall i :: 0 <= i < |roles| - 1 ==> Leads(s, db, roles[i], roles[i + 1])
  }

  lemma LeadsIsEdge(s: Schema, db: Db, x: RoleId, y: RoleId)
    requires WellFormed(s) && Valid(s, db)
    ensures (x, y) in RoleGraph(CoreOf(s, db)) <==> Leads(s, db, x, y)
  {
    RoleEdge(CoreOf(s, db), x, y);
    forall h | h in db.teamHolds
      ensures Confers(s, db, x, MemberPerm(s, h.0)) <==> GivesTo(CoreOf(s, db), x, h.0)
    {
      if x in db.roles { MemberPermIsTarget(s, db.objects, db.roles[x], h.0); }
    }
  }

  lemma PathIsChain(s: Schema, db: Db, user: int, roles: seq<RoleId>, q: Perm)
    requires WellFormed(s) && Valid(s, db) && IsPath(RoleGraph(CoreOf(s, db)), roles)
    requires (user, roles[0]) in db.userHolds && Confers(s, db, roles[|roles| - 1], q)
    ensures Chain(s, db, user, roles, q)
  {
    forall i | 0 <= i < |roles| - 1 ensures Leads(s, db, roles[i], roles[i + 1]) {
      LeadsIsEdge(s, db, roles[i], roles[i + 1]);
    }
  }

  lemma AccessHasChain(s: Schema, db: Db, user: int, q: Perm)
    requires WellFormed(s) && Correct(s, db) && UserCan(db, user, q)
    ensures exists roles :: Chain(s, db, user, roles, q)
  {
    var h :| h in db.userHolds && h.0 == user && (h.1, q) in db.evals;
    assert Granted(s, db, h.1, q);
    var x :| x in Implied(CoreOf(s, db), h.1) && Confers(s, db, x, q);
    if x == h.1 {
      assert Chain(s, db, user, [x], q);
    } else {
      var g := RoleGraph(CoreOf(s, db));
      ReachMeansConnects(g, h.1, x);
      var p :| IsPath(g, p) && p[0] == h.1 && p[|p| - 1] == x;
      PathIsChain(s, db, user, p, q);
    }
  }

  lemma ChainGivesAccess(s: Schema, db: Db, user: int, roles: seq<RoleId>, q: Perm)
    requires WellFormed(s) && Correct(s, db) && Chain(s, db, user, roles, q)
    ensures UserCan(db, user, q)
  {
    var r, x := roles[0], roles[|roles| - 1];
    if |roles| > 1 {
      forall i | 0 <= i < |roles| - 1 ensures (roles[i], roles[i + 1]) in RoleGraph(CoreOf(s, db)) {
        LeadsIsEdge(s, db, roles[i], roles[i + 1]);
      }
      assert IsPath(RoleGraph(CoreOf(s, db)), roles);
      ReachMeansConnects(RoleGraph(CoreOf(s, db)), r, x);
    }
    assert x in Implied(CoreOf(s, db), r);
    assert Granted(s, db, r, q) && (user, r) in db.userHolds && r in db.roles;
  }

  // In every reachable state a user has a permission exactly when such a chain exists,
  // however long it is and whatever cycles the teams form.
  lemma AccessMeansChain(s: Schema, run: seq<Db>, i: nat, user: int, q: Perm)
    requires WellFormed(s) && IsRun(s, run) && i < |run|
    ensures Correct(s, run[i])
    ensures UserCan(run[i], user, q) <==> exists roles :: Chain(s, run[i], user, roles, q)
  {
    RunsEqualFromScratch(s, run, i);
    if UserCan(run[i], user, q) {
      AccessHasChain(s, run[i], user, q);
    }
    if roles :| Chain(s, run[i], user, roles, q) {
      ChainGivesAccess(s, run[i], user, roles, q);
    }
  }
}
