// Two deletes that leave an access row behind, each on a concrete database.
module StaleRows {
  import opened Graphs
  import opened Membership
  import opened Hierarchy
  import opened RbacModel
  import opened Refresh
  import opened Assignments
  import opened Creation
  import opened Deletion
  import opened BatchDeletion
  import opened Runs

  const ORG: TypeId := 1
  const TEAM: TypeId := 2
  const MEMBER := PermDef("member_team", TEAM)
  const VIEW_ORG := PermDef("view_organization", ORG)

  // Teams under organizations; definition 1 gives team membership, definition 2 views an organization.
  function DemoSchema(): Schema {
    Schema(Registry(map[TEAM := Some("organization")], map[(TEAM, "organization") := ORG]),
           TEAM, ORG, "member_team", false, map[1 := {MEMBER}, 2 := {VIEW_ORG}])
  }

  lemma DemoSchemaWellFormed()
    ensures WellFormed(DemoSchema())
  {
    var s := DemoSchema();
    DemoTypes();
    NotAnAddPerm("member_team");
    assert s.teamPermission == "member_team" && s.teamCt == TEAM && s.orgCt == ORG;
    forall rd, p | rd in s.rdPermissions && p in s.rdPermissions[rd] && p.codename == s.teamPermission
      ensures p.ct == s.teamCt
    {
      DemoDefinitions(rd, p);
    }
  }

  lemma DemoDefinitions(rd: int, p: PermDef)
    ensures rd in DemoSchema().rdPermissions && p in DemoSchema().rdPermissions[rd] <==>
      (rd == 1 && p == MEMBER) || (rd == 2 && p == VIEW_ORG)
    ensures MEMBER.codename != VIEW_ORG.codename
  {
    assert |MEMBER.codename| == 11 && |VIEW_ORG.codename| == 17;
  }

  lemma DemoTypes()
    ensures var reg := DemoSchema().reg; ValidRegistry(reg) && Acyclic(reg)
    ensures var reg := DemoSchema().reg;
            ParentType(reg, TEAM) == Some(ORG) && forall t :: t != TEAM ==> ParentType(reg, t) == None
  {
    var reg := DemoSchema().reg;
    forall t ensures t !in Reach(TypeGraph(reg), t) {
      TypeReach(reg, t);
      TypeReach(reg, ORG);
    }
  }

  lemma NotAnAddPerm(codename: string)
    requires '.' !in codename && codename != [] && codename[0] != 'a'
    ensures !IsAddPerm(codename)
  {
    NoDots(codename);
    assert "add_"[0] == 'a';
  }

  lemma {:induction false} NoDots(s: string)
    requires '.' !in s
    ensures DotCount(s) == 0
  {
    if s != [] { NoDots(s[1..]); }
  }

  // ---- An organization that a team of another organization has a role on ----

  const ORG_A := Obj(ORG, 1)
  const ORG_B := Obj(ORG, 2)
  const TEAM_T := Obj(TEAM, 5)

  // Role 10 makes its holder a member of the team; the team holds role 11, which views organization B.
  function OrgDemo(): Db {
    Db(map[ORG_A := None, ORG_B := None, TEAM_T := Some(ORG_A)],
       map[10 := RoleRow(1, TEAM_T), 11 := RoleRow(2, ORG_B)],
       {(1, 10)}, {(5, 11)}, {}, {})
  }

  lemma OrgDemoValid()
    ensures Valid(DemoSchema(), OrgDemo())
  {
    DemoTypes();
    assert IsTeam(DemoSchema(), OrgDemo().objects, 5);
  }

  // Role 10 reaches the permission on organization B through the team.
  lemma OrgDemoGrants()
    ensures Valid(DemoSchema(), OrgDemo()) && Granted(DemoSchema(), OrgDemo(), 10, Perm("view_organization", ORG_B))
  {
    var s, db := DemoSchema(), OrgDemo();
    OrgDemoValid();
    var c := CoreOf(s, db);
    DemoDefinitions(1, MEMBER);
    DemoDefinitions(2, VIEW_ORG);
    assert GivesMembership(s, db.roles[10]) && GivesTo(c, 10, 5);
    assert (5, 11) in c.holds && (5, 11).0 == 5;
    RoleEdge(c, 10, 11);
    EdgeReaches(RoleGraph(c), 10, 11);
    GrantsIsDirect(s, db.objects, db.roles[11], Perm("view_organization", ORG_B));
    assert Grants(s, db.objects, ORG_B, VIEW_ORG, ORG_B);
    assert Confers(s, db, 11, Perm("view_organization", ORG_B));
  }

  // Deleting organization B removes role 11 but not the row that role 10 got from it:
  // organizations have no parent field, so rows on them are not cleared.
  lemma OrganizationDeleteLeavesStaleRow() returns (a: Db)
    ensures DeletableObjects(DemoSchema(), a, {ORG_B})
    ensures (10, Perm("view_organization", ORG_B)) in a.evals && 10 !in RolesOn(a, {ORG_B})
    ensures !Correct(DemoSchema(), AfterObjectDelete(DemoSchema(), a, {ORG_B}))
  {
    a := OrgDemoTables();
    var e := (10, Perm("view_organization", ORG_B));
    assert e in a.evals && e.1.obj == ORG_B && e.0 !in RolesOn(a, {ORG_B});
    assert ParentField(DemoSchema().reg, ORG_B.ct).None?;
    ObjectDeleteCorrectIff(DemoSchema(), a, {ORG_B});
  }

  lemma OrgDemoTables() returns (a: Db)
    ensures DeletableObjects(DemoSchema(), a, {ORG_B})
    ensures (10, Perm("view_organization", ORG_B)) in a.evals && 10 !in RolesOn(a, {ORG_B})
  {
    DemoSchemaWellFormed();
    OrgDemoGrants();
    OrgDemoShape();
    a := Completed(DemoSchema(), OrgDemo(), 10, Perm("view_organization", ORG_B));
    OrgDemoDeletable(a);
  }

  lemma OrgDemoDeletable(a: Db)
    requires WellFormed(DemoSchema()) && Correct(DemoSchema(), a) && a.objects == OrgDemo().objects &&
      a.roles == OrgDemo().roles
    ensures DeletableObjects(DemoSchema(), a, {ORG_B}) && 10 !in RolesOn(a, {ORG_B})
  {
    OrgDemoShape();
    OneObjectDeletable(DemoSchema(), a, ORG_B, 10);
  }

  lemma OneObjectDeletable(s: Schema, a: Db, x: Obj, r: RoleId)
    requires WellFormed(s) && Correct(s, a) && NothingUnder(a.objects, {x}) && x.ct != s.teamCt
    requires r in a.roles && a.roles[r].target != x
    ensures DeletableObjects(s, a, {x}) && r !in RolesOn(a, {x})
  {
  }

  lemma OrgDemoShape()
    ensures var db := OrgDemo();
            ORG_B in db.objects && NothingUnder(db.objects, {ORG_B}) && 10 in db.roles && db.roles[10].target == TEAM_T
  {
  }

  lemma Completed(s: Schema, db: Db, r: RoleId, q: Perm) returns (a: Db)
    requires Valid(s, db) && Granted(s, db, r, q) && r in db.roles
    ensures Correct(s, a) && a == db.(memberRoles := a.memberRoles, evals := a.evals) && (r, q) in a.evals
  {
    a := CompleteTables(s, db);
  }

  // ---- Two teams deleted by one query ----

  const ORG_O := Obj(ORG, 1)
  const ORG_P := Obj(ORG, 2)
  const TEAM_1 := Obj(TEAM, 1)
  const TEAM_2 := Obj(TEAM, 2)
  const TEAM_U := Obj(TEAM, 3)
  const VIEW_P := Perm("view_organization", ORG_P)

  // Role 10 gives membership of both teams of organization O and is held by a user. Team 2
  // holds role 11, membership of team 3; team 3 holds role 12, which views organization P.
  function BatchDemo(): Db {
    Db(map[ORG_O := None, ORG_P := None, TEAM_1 := Some(ORG_O), TEAM_2 := Some(ORG_O), TEAM_U := Some(ORG_P)],
       map[10 := RoleRow(1, ORG_O), 11 := RoleRow(1, TEAM_U), 12 := RoleRow(2, ORG_P)],
       {(1, 10)}, {(2, 11), (3, 12)}, {}, {})
  }

  lemma BatchDemoValid()
    ensures Valid(DemoSchema(), BatchDemo())
  {
    DemoTypes();
    var objs := BatchDemo().objects;
    assert TeamObj(DemoSchema(), 2) == TEAM_2 && TeamObj(DemoSchema(), 3) == TEAM_U;
  }

  // What the argument needs of the tables before the delete.
  ghost predicate BeforeBatch(a: Db) {
    && Correct(DemoSchema(), a) && a == BatchDemo().(memberRoles := a.memberRoles, evals := a.evals)
    && (3, 10) in a.memberRoles && (10, MemberPerm(DemoSchema(), 1)) in a.evals
    && StashedTeamIds(DemoSchema(), a, 1) == {}
  }

  lemma BatchMembers()
    ensures Valid(DemoSchema(), BatchDemo())
    ensures 10 in MemberRolesOf(CoreOf(DemoSchema(), BatchDemo()), 3) &&
      10 in MemberRolesOf(CoreOf(DemoSchema(), BatchDemo()), 1)
  {
    BatchDemoValid();
    var c := CoreOf(DemoSchema(), BatchDemo());
    BatchGives(1);
    BatchGives(2);
    assert (2, 11) in c.holds && (2, 11).0 == 2;
    RoleEdge(c, 10, 11);
    EdgeReaches(RoleGraph(c), 10, 11);
    MemberIffImplied(c, 10, 3);
    MemberIffImplied(c, 10, 1);
  }

  lemma BatchDemoTables() returns (a: Db)
    ensures BeforeBatch(a)
  {
    BatchMembers();
    BatchGives(1);
    BatchDemoShape();
    DemoSchemaWellFormed();
    a := WithMembers(DemoSchema(), BatchDemo(), 10, 3, 1);
    assert a.teamHolds == BatchDemo().teamHolds;
  }

  lemma BatchDemoShape()
    ensures 10 in BatchDemo().roles && forall h :: h in BatchDemo().teamHolds ==> h.0 != 1
  {
  }

  lemma WithMembers(s: Schema, db: Db, r: RoleId, t: TeamId, u: TeamId) returns (a: Db)
    requires WellFormed(s) && Valid(s, db) && r in db.roles && IsTeam(s, db.objects, t)
    requires r in MemberRolesOf(CoreOf(s, db), t) && r in MemberRolesOf(CoreOf(s, db), u)
    ensures Correct(s, a) && a == db.(memberRoles := a.memberRoles, evals := a.evals)
    ensures (t, r) in a.memberRoles && (r, MemberPerm(s, u)) in a.evals
  {
    a := CompleteTables(s, db);
    assert CoreOf(s, a) == CoreOf(s, db);
    EvalsNameMembers(s, a, r, u);
  }

  lemma BatchGives(t: TeamId)
    ensures Valid(DemoSchema(), BatchDemo())
    ensures (t == 1 || t == 2) ==> GivesTo(CoreOf(DemoSchema(), BatchDemo()), 10, t)
    ensures GivesTo(CoreOf(DemoSchema(), BatchDemo()), 11, 3)
    ensures IsTeam(DemoSchema(), BatchDemo().objects, 3)
  {
    BatchDemoValid();
    DemoDefinitions(1, MEMBER);
    var s, db := DemoSchema(), BatchDemo();
    assert GivesMembership(s, db.roles[10]) && GivesMembership(s, db.roles[11]);
    InOrg(s, db.objects, db.roles[10], t);
    assert TeamObj(s, 1) == TEAM_1 && TeamObj(s, 2) == TEAM_2 && TeamObj(s, 3) == TEAM_U;
  }

  // Both teams gone, neither handler run.
  function BatchCascade(a: Db): Db {
    AfterCascade(DemoSchema(), a, {1, 2})
  }

  // With both teams gone, role 10 confers nothing by itself and leads nowhere.
  ghost predicate Emptied(db: Db) {
    && Valid(DemoSchema(), db)
    && db.objects == map[ORG_O := None, ORG_P := None, TEAM_U := Some(ORG_P)]
    && 10 in db.roles && 12 in db.roles && db.teamHolds == {(3, 12)}
    && (1, 10) in db.userHolds
    && forall r :: r in db.roles ==> r in BatchDemo().roles && db.roles[r] == BatchDemo().roles[r]
  }

  lemma RoleTenIsEmpty(db: Db)
    requires Emptied(db)
    ensures !Confers(DemoSchema(), db, 10, VIEW_P)
  {
    var s := DemoSchema();
    GrantsIsDirect(s, db.objects, db.roles[10], VIEW_P);
    DemoDefinitions(1, MEMBER);
    forall p | p in s.rdPermissions[1] ensures p.codename != "view_organization" { DemoDefinitions(1, p); }
  }

  lemma NothingOnAbsentObject(s: Schema, db: Db, x: RoleId, q: Perm)
    requires q.obj !in db.objects && (x in db.roles ==> db.roles[x].target != q.obj)
    ensures !Confers(s, db, x, q)
  {
  }

  lemma NoTeamTwo(db: Db, x: RoleId)
    requires Emptied(db)
    ensures !Confers(DemoSchema(), db, x, MemberPerm(DemoSchema(), 2))
  {
    assert MemberPerm(DemoSchema(), 2).obj == TEAM_2;
    if x in db.roles { assert x == 10 || x == 11 || x == 12; }
    NothingOnAbsentObject(DemoSchema(), db, x, MemberPerm(DemoSchema(), 2));
  }

  lemma NotGrantedOnceEmpty(db: Db)
    requires Emptied(db)
    ensures !Granted(DemoSchema(), db, 10, VIEW_P)
  {
    var s := DemoSchema();
    var c := CoreOf(s, db);
    DemoSchemaWellFormed();
    RoleTenIsEmpty(db);
    TenLeadsNowhere(db);
    ReachOfRoot(RoleGraph(c), 10);
  }

  lemma TenLeadsNowhere(db: Db)
    requires Emptied(db)
    ensures forall e :: e in RoleGraph(CoreOf(DemoSchema(), db)) ==> e.0 != 10
  {
    var c := CoreOf(DemoSchema(), db);
    forall e | e in RoleGraph(c) ensures e.0 != 10 {
      RoleEdge(c, e.0, e.1);
      InOrg(DemoSchema(), db.objects, db.roles[10], 3);
    }
  }

  // After the cascade of both deletes the tables are emptied, and role 10's stored row on team 3 survives.
  lemma CascadeEmpties(a: Db)
    requires BeforeBatch(a)
    ensures Emptied(BatchCascade(a)) && (3, 10) in BatchCascade(a).memberRoles && BatchCascade(a).evals == a.evals
  {
    var b := BatchCascade(a);
    CascadeObjects(a);
    CascadeHolds(a);
    CascadeValid(a);
    assert b.roles == a.roles && b.userHolds == a.userHolds;
    BatchRoles(a);
  }

  lemma BatchRoles(a: Db)
    requires a.roles == BatchDemo().roles && a.userHolds == BatchDemo().userHolds
    ensures 10 in a.roles && 12 in a.roles && (1, 10) in a.userHolds
  {
  }

  lemma BatchLeaves(a: Db)
    requires a.objects == BatchDemo().objects
    ensures TeamObjs(DemoSchema(), {1, 2}) == {TEAM_1, TEAM_2} && NothingUnder(a.objects, {TEAM_1, TEAM_2})
    ensures IsTeam(DemoSchema(), a.objects, 1) && IsTeam(DemoSchema(), a.objects, 2) &&
      IsTeam(DemoSchema(), a.objects, 3)
  {
    var s := DemoSchema();
    assert TeamObj(s, 1) == TEAM_1 && TeamObj(s, 2) == TEAM_2 && TeamObj(s, 3) == TEAM_U;
  }

  lemma CascadeValid(a: Db)
    requires Valid(DemoSchema(), a) && a.objects == BatchDemo().objects
    ensures Valid(DemoSchema(), BatchCascade(a))
  {
    BatchLeaves(a);
    CascadeIsValid(DemoSchema(), a, {1, 2});
  }

  lemma CascadeObjects(a: Db)
    requires a.objects == BatchDemo().objects
    ensures BatchCascade(a).objects == map[ORG_O := None, ORG_P := None, TEAM_U := Some(ORG_P)]
  {
    BatchLeaves(a);
    var objs := BatchCascade(a).objects;
    assert objs.Keys == {ORG_O, ORG_P, TEAM_U};
  }

  lemma CascadeHolds(a: Db)
    requires a.teamHolds == BatchDemo().teamHolds
    ensures BatchCascade(a).teamHolds == {(3, 12)}
  {
  }

  lemma AncestorOfTeam(s: Schema, b: Db, r: RoleId, t: TeamId)
    ensures (r, MemberPerm(s, t)) in b.evals <==> r in BulkAncestors(s, b, {t})
  {
    var e := (r, MemberPerm(s, t));
    if e in b.evals {
      assert e.1.codename == s.teamPermission && e.1.obj.ct == s.teamCt && e.1.obj.pk in {t};
    }
    if r in BulkAncestors(s, b, {t}) {
      var v :| v in b.evals && v.1.codename == s.teamPermission && v.1.obj.ct == s.teamCt && v.1.obj.pk in {t} &&
        v.0 == r;
      assert v.1.obj == TeamObj(s, t);
      assert v == e;
    }
  }

  lemma RoleTwelveViews(c: Db)
    requires Emptied(c)
    ensures Confers(DemoSchema(), c, 12, VIEW_P)
  {
    DemoDefinitions(2, VIEW_ORG);
    GrantsIsDirect(DemoSchema(), c.objects, c.roles[12], VIEW_P);
    assert Grants(DemoSchema(), c.objects, ORG_P, VIEW_ORG, ORG_P);
  }

  lemma HeldIsNoOrphan(b: Db, user: int, r: RoleId)
    requires (user, r) in b.userHolds
    ensures r !in Orphans(b, b.roles.Keys)
  {
    assert (user, r).1 == r;
  }

  lemma StoredRowSeesThrough(s: Schema, b: Db, u: TeamId, r: RoleId, y: RoleId, q: Perm)
    requires Valid(s, b) && (u, r) in b.memberRoles && (u, y) in b.teamHolds && Confers(s, b, y, q)
    ensures SeesThrough(s, b, {}, r, q)
  {
    var h := (u, y);
    assert h in b.teamHolds && Stored(s, b, {}, h.0, r) && Confers(s, b, h.1, q);
  }

  lemma TenTarget(b: Db)
    requires Emptied(b)
    ensures b.roles[10].target == ORG_O
  {
  }

  lemma TenSurvives(b: Db, gone: set<Obj>)
    requires Emptied(b) && gone == {TEAM_1, TEAM_2}
    ensures 10 !in Orphans(b, b.roles.Keys) && 10 !in RolesOn(b, gone) && VIEW_P.obj !in gone
  {
    HeldIsNoOrphan(b, 1, 10);
    TenTarget(b);
  }

  // The handler of team 1, run first, sees role 12 through the outdated row on team 3 ...
  lemma ReadTooEarly(a: Db)
    requires BeforeBatch(a) && Valid(DemoSchema(), BatchCascade(a))
    ensures WrongRow(DemoSchema(), a, {1, 2}, 1, 10, VIEW_P)
  {
    CascadeEmpties(a);
    BatchLeaves(a);
    TenSurvives(BatchCascade(a), TeamObjs(DemoSchema(), {1, 2}));
    AncestorOfTeam(DemoSchema(), BatchCascade(a), 10, 1);
    RoleTwelveViews(BatchCascade(a));
    StoredRowSeesThrough(DemoSchema(), BatchCascade(a), 3, 10, 12, VIEW_P);
    NotGrantedOnceEmpty(BatchCascade(a));
  }

  // ... and drops the row that would make the handler of team 2 name role 10 again.
  lemma NotAgain(a: Db)
    requires BeforeBatch(a) && Valid(DemoSchema(), BatchCascade(a))
    ensures !NamedAgain(DemoSchema(), a, {1, 2}, 1, 10)
  {
    CascadeEmpties(a);
    OnlyTwelveHeld(BatchCascade(a));
    NeverNamedAgain(DemoSchema(), a, {1, 2}, BatchCascade(a), 1, 2, 10);
  }

  lemma OnlyTwelveHeld(b: Db)
    requires Emptied(b)
    ensures forall x :: !Confers(DemoSchema(), b, x, MemberPerm(DemoSchema(), 2))
    ensures forall h :: h in b.teamHolds ==> h.1 != 10
  {
    forall x ensures !Confers(DemoSchema(), b, x, MemberPerm(DemoSchema(), 2)) { NoTeamTwo(b, x); }
  }

  lemma NeverNamedAgain(s: Schema, a: Db, ts: set<TeamId>, b: Db, t: TeamId, v: TeamId, r: RoleId)
    requires ts == {t, v} && b == AfterCascade(s, a, ts) && Valid(s, b)
    requires forall x :: !Confers(s, b, x, MemberPerm(s, v))
    requires forall h :: h in b.teamHolds ==> h.1 != r
    ensures !NamedAgain(s, a, ts, t, r)
  {
  }

  // Two teams deleted by one query, both gone before the first of the two handlers
  // runs: a user is left with a permission that nothing grants any more.
  lemma BatchTeamDeleteLeavesStaleRow() returns (a: Db)
    ensures DeletableTeams(DemoSchema(), a, {1, 2})
    ensures StaleWhenFirst(DemoSchema(), a, {1, 2}, 1, 10, VIEW_P)
  {
    a := BatchDemoTables();
    BatchDeletable(a);
    ReadTooEarly(a);
    NotAgain(a);
    AlwaysStale(DemoSchema(), a, {1, 2}, 1, 10, VIEW_P);
  }

  lemma BatchDeletable(a: Db)
    requires BeforeBatch(a)
    ensures DeletableTeams(DemoSchema(), a, {1, 2}) && Valid(DemoSchema(), BatchCascade(a))
  {
    DemoSchemaWellFormed();
    BatchLeaves(a);
    CascadeValid(a);
    TwoTeamsDeletable(DemoSchema(), a, 1, 2);
  }

  lemma TwoTeamsDeletable(s: Schema, a: Db, t: TeamId, v: TeamId)
    requires WellFormed(s) && Correct(s, a) && IsTeam(s, a.objects, t) && IsTeam(s, a.objects, v)
    requires NothingUnder(a.objects, TeamObjs(s, {t, v}))
    ensures DeletableTeams(s, a, {t, v})
  {
  }

  // Every run of the handlers that begins with that of t ends with a row that nothing grants.
  ghost predicate StaleWhenFirst(s: Schema, a: Db, ts: set<TeamId>, t: TeamId, r: RoleId, q: Perm) {
    forall order, states ::
      TeamsIn(order) == ts && NoTeamTwice(order) && order != [] && order[0] == t && Handlers(s, a, order, states) ==>
      StaleRow(s, states[|order|], r, q)
  }

  ghost predicate StaleRow(s: Schema, g: Db, r: RoleId, q: Perm) {
    Valid(s, g) && r in g.roles && (r, q) in g.evals && !Granted(s, g, r, q)
  }

  lemma AlwaysStale(s: Schema, a: Db, ts: set<TeamId>, t: TeamId, r: RoleId, q: Perm)
    requires DeletableTeams(s, a, ts) && Valid(s, AfterCascade(s, a, ts))
    requires WrongRow(s, a, ts, t, r, q) && !NamedAgain(s, a, ts, t, r)
    ensures StaleWhenFirst(s, a, ts, t, r, q)
  {
    forall order, states | TeamsIn(order) == ts && NoTeamTwice(order) && order != [] && order[0] == t &&
      Handlers(s, a, order, states)
      ensures StaleRow(s, states[|order|], r, q)
    {
      ReadTooEarlyStays(s, a, order, states, r, q);
    }
  }
}
