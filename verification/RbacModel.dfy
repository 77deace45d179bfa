// The RBAC tables: objects, object roles, assignments, and the two derived tables
// (member_roles / provides_teams and RoleEvaluation) with their from-scratch meaning.
module RbacModel {
  import opened Graphs
  import opened Membership
  import opened Hierarchy

  // A permission of a role definition, and one granted on an object.
  datatype PermDef = PermDef(codename: string, ct: TypeId)
  datatype Perm = Perm(codename: string, obj: Obj)

  // An ObjectRole: a role definition applied to one object.
  datatype RoleRow = RoleRow(rd: int, target: Obj)

  // What does not change at run time: registered types, settings, role definitions.
  datatype Schema = Schema(
    reg: Registry,
    teamCt: TypeId,
    orgCt: TypeId,
    teamPermission: string,
    cacheParentPermissions: bool,
    rdPermissions: map<int, set<PermDef>>)

  datatype Db = Db(
    objects: Objects,
    roles: map<RoleId, RoleRow>,
    userHolds: set<(int, RoleId)>,
    teamHolds: set<(TeamId, RoleId)>,
    memberRoles: set<(TeamId, RoleId)>,
    evals: set<(RoleId, Perm)>)

  function DotCount(s: string): nat {
    if s == [] then 0 else (if s[0] == '.' then 1 else 0) + DotCount(s[1..])
  }

  function AfterDot(s: string): string {
    if s == [] then [] else if s[0] == '.' then s[1..] else AfterDot(s[1..])
  }

  // A codename such as add_inventory or awx.add_inventory.
  predicate IsAddPerm(codename: string) {
    "add_" <= (if DotCount(codename) == 1 then AfterDot(codename) else codename)
  }

  // Teams sit directly under organizations or nowhere, organizations have no
  // parent, and the team membership codename belongs to the team type alone.
  ghost predicate WellFormed(s: Schema) {
    && ValidRegistry(s.reg) && Acyclic(s.reg)
    && s.teamCt != s.orgCt
    && ParentType(s.reg, s.orgCt) == None
    && (ParentType(s.reg, s.teamCt) == None || ParentType(s.reg, s.teamCt) == Some(s.orgCt))
    && !IsAddPerm(s.teamPermission)
    && (forall rd, p :: rd in s.rdPermissions && p in s.rdPermissions[rd] && p.codename == s.teamPermission ==>
         p.ct == s.teamCt)
  }

  function TeamObj(s: Schema, t: TeamId): Obj {
    Obj(s.teamCt, t)
  }

  predicate IsTeam(s: Schema, objs: Objects, t: TeamId) {
    TeamObj(s, t) in objs
  }

  function Teams(s: Schema, objs: Objects): set<TeamId> {
    set o | o in objs && o.ct == s.teamCt :: o.pk
  }

  // Foreign keys between the tables.
  ghost predicate Valid(s: Schema, db: Db) {
    && WellTyped(s.reg, db.objects)
    && (forall r :: r in db.roles ==> db.roles[r].rd in s.rdPermissions)
    && (forall h :: h in db.teamHolds ==> IsTeam(s, db.objects, h.0) && h.1 in db.roles)
    && (forall h :: h in db.userHolds ==> h.1 in db.roles)
    && (forall m :: m in db.memberRoles ==> IsTeam(s, db.objects, m.0) && m.1 in db.roles)
    && (forall e :: e in db.evals ==> e.0 in db.roles)
  }

  // ---- Membership conferred by a role ----

  predicate GivesMembership(s: Schema, row: RoleRow)
    requires row.rd in s.rdPermissions
  {
    exists p :: p in s.rdPermissions[row.rd] && p.codename == s.teamPermission
  }

  // The teams a member_team role targets, derived from its content type.
  function TargetTeams(s: Schema, objs: Objects, row: RoleRow): set<TeamId> {
    if row.target.ct == s.teamCt then {row.target.pk}
    else if row.target.ct == s.orgCt then set o | o in objs && o.ct == s.teamCt && objs[o] == Some(row.target) :: o.pk
    else {}
  }

  function CoreOf(s: Schema, db: Db): Core
    requires forall r :: r in db.roles ==> db.roles[r].rd in s.rdPermissions
  {
    var gives := map r | r in db.roles && GivesMembership(s, db.roles[r]) :: TargetTeams(s, db.objects, db.roles[r]);
    Core(gives, db.teamHolds)
  }

  // ---- Permissions conferred by a role ----

  // The type whose objects below the role's target receive the permission, for a
  // permission that is not about the target's own type.
  ghost function EvalType(s: Schema, roleCt: TypeId, p: PermDef): Option<TypeId> {
    if IsAddPerm(p.codename) then
      match ParentType(s.reg, p.ct)
      case Some(above) => if roleCt in Reach(TypeGraph(s.reg), above) then Some(above) else None
      case None => None
    else if roleCt in Reach(TypeGraph(s.reg), p.ct) then Some(p.ct)
    else None
  }

  ghost function Below(objs: Objects, x: Obj, ct: TypeId): set<Obj> {
    set o | o in objs && o.ct == ct && x in Reach(ObjectGraph(objs), o)
  }

  // Whether permission p of a role definition, applied to target, grants codename on o.
  ghost predicate Grants(s: Schema, objs: Objects, target: Obj, p: PermDef, o: Obj) {
    if p.ct == target.ct then o == target
    else
      || (o == target && (IsAddPerm(p.codename) || s.cacheParentPermissions))
      || (EvalType(s, target.ct, p).Some? && o in Below(objs, target, EvalType(s, target.ct, p).value))
  }

  // expected_direct_permissions: what the role confers by itself.
  ghost function Direct(s: Schema, objs: Objects, row: RoleRow): set<Perm>
    requires row.rd in s.rdPermissions
  {
    set p, o | p in s.rdPermissions[row.rd] && o in objs.Keys + {row.target} &&
      Grants(s, objs, row.target, p, o) :: Perm(p.codename, o)
  }

  ghost predicate Confers(s: Schema, db: Db, r: RoleId, q: Perm) {
    r in db.roles && db.roles[r].rd in s.rdPermissions && q in Direct(s, db.objects, db.roles[r])
  }

  // The roles found one hop through the stored provides_teams.
  ghost predicate Hop(db: Db, r: RoleId, x: RoleId) {
    x == r || exists h :: h in db.teamHolds && (h.0, r) in db.memberRoles && h.1 == x
  }

  // What the stored member_roles table makes of a role.
  ghost predicate ExpectedHas(s: Schema, db: Db, r: RoleId, q: Perm) {
    exists x :: Hop(db, r, x) && Confers(s, db, x, q)
  }

  // The meaning: everything conferred by the roles implied by r.
  ghost predicate Granted(s: Schema, db: Db, r: RoleId, q: Perm)
    requires Valid(s, db)
  {
    exists x :: x in Implied(CoreOf(s, db), r) && Confers(s, db, x, q)
  }

  ghost predicate MembersCorrect(s: Schema, db: Db)
    requires Valid(s, db)
  {
    forall t, r :: IsTeam(s, db.objects, t) ==> ((t, r) in db.memberRoles <==> r in MemberRolesOf(CoreOf(s, db), t))
  }

  ghost predicate EvalsCorrect(s: Schema, db: Db)
    requires Valid(s, db)
  {
    forall r, q :: r in db.roles ==> ((r, q) in db.evals <==> Granted(s, db, r, q))
  }

  ghost predicate Correct(s: Schema, db: Db) {
    Valid(s, db) && MembersCorrect(s, db) && EvalsCorrect(s, db)
  }

  // Correct apart from evaluation rows on objects that are being deleted.
  ghost predicate CorrectExcept(s: Schema, db: Db, gone: set<Obj>) {
    && Valid(s, db) && MembersCorrect(s, db)
    && forall r, q: Perm :: r in db.roles && q.obj !in gone ==> ((r, q) in db.evals <==> Granted(s, db, r, q))
  }

  // ---- The meaning and the stored one-hop form agree ----

  lemma ImpliedRolesExist(s: Schema, db: Db, r: RoleId, x: RoleId)
    requires Valid(s, db) && x in Implied(CoreOf(s, db), r) && r in db.roles
    ensures x in db.roles
  {
    HeldUnlessSource(CoreOf(s, db), r, x);
  }

  lemma HopIsImplied(s: Schema, db: Db, r: RoleId, x: RoleId)
    requires Valid(s, db) && MembersCorrect(s, db)
    ensures Hop(db, r, x) <==> x in Implied(CoreOf(s, db), r)
  {
    OneHopIsClosure(CoreOf(s, db), r);
  }

  // Once member_roles is right, what one hop finds is exactly what the role means.
  lemma ExpectedIsGranted(s: Schema, db: Db, r: RoleId, q: Perm)
    requires Valid(s, db) && MembersCorrect(s, db)
    ensures ExpectedHas(s, db, r, q) <==> Granted(s, db, r, q)
  {
    forall x { HopIsImplied(s, db, r, x); }
  }

  // ---- Evaluations name the members ----

  function MemberPerm(s: Schema, t: TeamId): Perm {
    Perm(s.teamPermission, TeamObj(s, t))
  }

  lemma TeamAncestor(s: Schema, objs: Objects, t: TeamId, x: Obj)
    requires WellFormed(s) && WellTyped(s.reg, objs) && IsTeam(s, objs, t)
    ensures x in Reach(ObjectGraph(objs), TeamObj(s, t)) <==> objs[TeamObj(s, t)] == Some(x)
  {
    ObjectReach(objs, TeamObj(s, t));
    if objs[TeamObj(s, t)].Some? { ObjectReach(objs, objs[TeamObj(s, t)].value); }
  }

  // A role confers member permission on team t exactly when t is one of its target teams.
  lemma MemberPermIsTarget(s: Schema, objs: Objects, row: RoleRow, t: TeamId)
    requires WellFormed(s) && WellTyped(s.reg, objs) && row.rd in s.rdPermissions
    ensures MemberPerm(s, t) in Direct(s, objs, row) <==> GivesMembership(s, row) && t in TargetTeams(s, objs, row)
  {
    var o := TeamObj(s, t);
    if o in objs { TeamAncestor(s, objs, t, row.target); }
    TypeReach(s.reg, s.teamCt);
    if ParentType(s.reg, s.teamCt).Some? { TypeReach(s.reg, s.orgCt); }
    forall p | p in s.rdPermissions[row.rd] && p.codename == s.teamPermission
      ensures Grants(s, objs, row.target, p, o) <==> t in TargetTeams(s, objs, row)
    {
      assert p.ct == s.teamCt;
    }
    if MemberPerm(s, t) in Direct(s, objs, row) {
      var p, x :| p in s.rdPermissions[row.rd] && x in objs.Keys + {row.target} && Grants(s, objs, row.target, p, x) &&
        Perm(p.codename, x) == MemberPerm(s, t);
    }
    if GivesMembership(s, row) && t in TargetTeams(s, objs, row) {
      var p :| p in s.rdPermissions[row.rd] && p.codename == s.teamPermission;
      assert Grants(s, objs, row.target, p, o);
      assert o in objs.Keys + {row.target};
    }
  }

  // So the evaluation table answers "which roles make their holder a member of t".
  lemma EvalsNameMembers(s: Schema, db: Db, r: RoleId, t: TeamId)
    requires WellFormed(s) && Valid(s, db) && EvalsCorrect(s, db) && r in db.roles
    ensures (r, MemberPerm(s, t)) in db.evals <==> r in MemberRolesOf(CoreOf(s, db), t)
  {
    var c := CoreOf(s, db);
    MemberIffImplied(c, r, t);
    forall x ensures Confers(s, db, x, MemberPerm(s, t)) <==> GivesTo(c, x, t) {
      if x in db.roles { MemberPermIsTarget(s, db.objects, db.roles[x], t); }
    }
  }

  // bulk_ancestor_roles: the roles with a member permission on one of the teams.
  function BulkAncestors(s: Schema, db: Db, ts: set<TeamId>): set<RoleId> {
    set e | e in db.evals && e.1.codename == s.teamPermission && e.1.obj.ct == s.teamCt && e.1.obj.pk in ts :: e.0
  }

  lemma AncestorsCoverMembers(s: Schema, db: Db, ts: set<TeamId>, r: RoleId, t: TeamId)
    requires WellFormed(s) && Valid(s, db) && EvalsCorrect(s, db) && r in db.roles && t in ts
    requires r in MemberRolesOf(CoreOf(s, db), t)
    ensures r in BulkAncestors(s, db, ts)
  {
    EvalsNameMembers(s, db, r, t);
    var e := (r, MemberPerm(s, t));
    assert e in db.evals && e.1.codename == s.teamPermission && e.1.obj.ct == s.teamCt && e.1.obj.pk in ts;
  }

  // descendent_roles of a set of roles.
  function Descendents(db: Db, rs: set<RoleId>): set<RoleId> {
    set r, h | r in rs && h in db.teamHolds && (h.0, r) in db.memberRoles :: h.1
  }
}
