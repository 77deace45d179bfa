// Deleting a team or another object: which rows the handlers repair, and the one
// case in which stale evaluations survive.
module Deletion {
  import opened Graphs
  import opened Membership
  import opened Hierarchy
  import opened RbacModel
  import opened Refresh
  import opened Assignments
  import opened Creation

  // ---- Removing objects together with everything under them ----

  function WithoutObjs(objs: Objects, xs: set<Obj>): Objects {
    map o | o in objs && o !in xs :: objs[o]
  }

  // Nothing that stays has its parent among the objects that go.
  ghost predicate NothingUnder(objs: Objects, xs: set<Obj>) {
    forall o :: o in objs && o !in xs && objs[o].Some? ==> objs[o].value !in xs
  }

  lemma OtherChainsKept(objs: Objects, xs: set<Obj>, o: Obj)
    requires NothingUnder(objs, xs) && o !in xs
    ensures Reach(ObjectGraph(WithoutObjs(objs, xs)), o) == Reach(ObjectGraph(objs), o)
    ensures Reach(ObjectGraph(objs), o) !! xs
  {
    var g, h := ObjectGraph(objs), ObjectGraph(WithoutObjs(objs, xs));
    ReachIsClosed(g, o);
    ReachIsLeast(h, o, Reach(g, o));
    ReachIsClosed(h, o);
    var s := Reach(h, o) - xs;
    forall e | e in g && (e.0 == o || e.0 in s) ensures e.1 in s {
      ObjectEdge(objs, e.0, e.1);
      ObjectEdge(WithoutObjs(objs, xs), e.0, e.1);
      assert (e.0, e.1) in h;
    }
    ReachIsLeast(g, o, s);
  }

  // Permissions on the objects that stay do not depend on those that go.
  lemma OtherPermsKept(s: Schema, db: Db, xs: set<Obj>, r: RoleId, q: Perm)
    requires NothingUnder(db.objects, xs) && q.obj !in xs
    ensures Confers(s, db, r, q) <==> Confers(s, db.(objects := WithoutObjs(db.objects, xs)), r, q)
  {
    if r in db.roles && db.roles[r].rd in s.rdPermissions {
      OtherChainsKept(db.objects, xs, q.obj);
      GrantsIsDirect(s, db.objects, db.roles[r], q);
      GrantsIsDirect(s, WithoutObjs(db.objects, xs), db.roles[r], q);
    }
  }

  // A role on an object that goes confers nothing on one that stays.
  lemma RoleConfersOnlyThere(s: Schema, db: Db, xs: set<Obj>, r: RoleId, q: Perm)
    requires NothingUnder(db.objects, xs) && r in db.roles && db.roles[r].target in xs && Confers(s, db, r, q)
    ensures q.obj in xs
  {
    GrantsIsDirect(s, db.objects, db.roles[r], q);
    if q.obj !in xs { OtherChainsKept(db.objects, xs, q.obj); }
  }

  // Roles on the given objects.
  function RolesOn(db: Db, xs: set<Obj>): set<RoleId> {
    set r | r in db.roles && db.roles[r].target in xs
  }

  function WithoutEvalsOn(db: Db, xs: set<Obj>): Db {
    db.(evals := set e | e in db.evals && e.1.obj !in xs)
  }

  // No role of dead that anybody's team holds confers a team that holds anything, so
  // nothing is implied through them.
  ghost predicate DeadEnds(c: Core, dead: set<RoleId>) {
    forall k, h :: k in c.holds && k.1 in dead && h in c.holds ==> !GivesTo(c, k.1, h.0)
  }

  // b is a without the roles of dead.
  ghost predicate CoreWithout(a: Core, b: Core, dead: set<RoleId>) {
    && (forall r, t :: r !in dead ==> (GivesTo(a, r, t) <==> GivesTo(b, r, t)))
    && (forall r, t :: r in dead ==> !GivesTo(b, r, t))
    && (forall h: (TeamId, RoleId) :: h in b.holds <==> h in a.holds && h.1 !in dead)
  }

  lemma DeadEndsDropOut(a: Core, b: Core, dead: set<RoleId>, r: RoleId)
    requires DeadEnds(a, dead) && CoreWithout(a, b, dead) && r !in dead
    ensures Implied(b, r) == Implied(a, r) - dead
  {
    var ga, gb := RoleGraph(a), RoleGraph(b);
    ReachIsClosed(ga, r);
    ReachIsClosed(gb, r);
    var s := set x | x in Reach(ga, r) && x !in dead;
    forall e | e in gb && (e.0 == r || e.0 in s) ensures e.1 in s {
      RoleEdge(b, e.0, e.1);
      RoleEdge(a, e.0, e.1);
      assert (e.0, e.1) in ga;
    }
    ReachIsLeast(gb, r, s);
    var s' := set x | x in Reach(ga, r) && (x in dead || x in Reach(gb, r));
    forall e | e in ga && (e.0 == r || e.0 in s') ensures e.1 in s' {
      RoleEdge(a, e.0, e.1);
      RoleEdge(b, e.0, e.1);
      if e.0 in dead { HeldUnlessSource(a, r, e.0); }
      if e.1 !in dead { assert (e.0, e.1) in gb; }
    }
    ReachIsLeast(ga, r, s');
  }

  // Deleting the roles on objects that are gone, when they lead to no team that
  // holds anything, keeps everything right but the rows on those objects.
  lemma DeleteRolesOnGoneObjects(s: Schema, db: Db, xs: set<Obj>)
    requires CorrectExcept(s, db, xs) && xs !! db.objects.Keys
    requires DeadEnds(CoreOf(s, db), RolesOn(db, xs))
    requires forall r, t :: r in RolesOn(db, xs) && IsTeam(s, db.objects, t) ==> !GivesTo(CoreOf(s, db), r, t)
    ensures CorrectExcept(s, WithoutRoles(db, RolesOn(db, xs)), xs)
  {
    var dead := RolesOn(db, xs);
    var after := WithoutRoles(db, dead);
    assert CoreWithout(CoreOf(s, db), CoreOf(s, after), dead);
    MembersWithoutDead(s, db, dead);
    forall r, q: Perm | r in after.roles && q.obj !in xs ensures (r, q) in after.evals <==> Granted(s, after, r, q) {
      GrantedWithoutDead(s, db, xs, r, q);
    }
  }

  lemma MembersWithoutDead(s: Schema, db: Db, dead: set<RoleId>)
    requires Valid(s, db) && MembersCorrect(s, db) && DeadEnds(CoreOf(s, db), dead)
    requires CoreWithout(CoreOf(s, db), CoreOf(s, WithoutRoles(db, dead)), dead)
    requires forall r, t :: r in dead && IsTeam(s, db.objects, t) ==> !GivesTo(CoreOf(s, db), r, t)
    ensures Valid(s, WithoutRoles(db, dead)) && MembersCorrect(s, WithoutRoles(db, dead))
  {
    var after := WithoutRoles(db, dead);
    forall t, r | IsTeam(s, after.objects, t)
      ensures (t, r) in after.memberRoles <==> r in MemberRolesOf(CoreOf(s, after), t)
    {
      if r in dead {
        if r in MemberRolesOf(CoreOf(s, after), t) { MemberRolesExist(s, after, r, t); }
      } else {
        SameMemberWithout(CoreOf(s, db), CoreOf(s, after), dead, r, t);
      }
    }
  }

  lemma GrantedWithoutDead(s: Schema, db: Db, xs: set<Obj>, r: RoleId, q: Perm)
    requires Valid(s, db) && xs !! db.objects.Keys && r in db.roles && r !in RolesOn(db, xs) && q.obj !in xs
    requires DeadEnds(CoreOf(s, db), RolesOn(db, xs))
    requires CoreWithout(CoreOf(s, db), CoreOf(s, WithoutRoles(db, RolesOn(db, xs))), RolesOn(db, xs))
    requires Valid(s, WithoutRoles(db, RolesOn(db, xs)))
    ensures Granted(s, db, r, q) <==> Granted(s, WithoutRoles(db, RolesOn(db, xs)), r, q)
  {
    var dead := RolesOn(db, xs);
    var after := WithoutRoles(db, dead);
    DeadEndsDropOut(CoreOf(s, db), CoreOf(s, after), dead, r);
    forall y ensures Confers(s, db, y, q) <==> Confers(s, after, y, q) {
      if y in dead && Confers(s, db, y, q) { RoleConfersOnlyThere(s, db, xs, y, q); }
    }
  }

  // Roles that drop out without giving membership of t leave every other role's membership of t.
  lemma SameMemberWithout(a: Core, b: Core, dead: set<RoleId>, r: RoleId, t: TeamId)
    requires CoreWithout(a, b, dead) && DeadEnds(a, dead) && r !in dead
    requires forall k :: k in a.holds && k.1 in dead ==> !GivesTo(a, k.1, t)
    ensures r in MemberRolesOf(a, t) <==> r in MemberRolesOf(b, t)
  {
    DeadEndsDropOut(a, b, dead, r);
    MemberIffImplied(a, r, t);
    MemberIffImplied(b, r, t);
    forall y | y in Implied(a, r) { HeldUnlessSource(a, r, y); }
    assert forall y :: y in Implied(a, r) && GivesTo(a, y, t) ==> y in Implied(b, r) && GivesTo(b, y, t);
  }

  // Nothing is granted on an object that is gone and that no role targets.
  lemma NothingGrantedOnGone(s: Schema, db: Db, xs: set<Obj>, r: RoleId, q: Perm)
    requires Valid(s, db) && xs !! db.objects.Keys && RolesOn(db, xs) == {} && q.obj in xs
    ensures !Granted(s, db, r, q)
  {
    forall y ensures !Confers(s, db, y, q) {
      if y in db.roles && db.roles[y].rd in s.rdPermissions {
        assert y !in RolesOn(db, xs);
        GrantsIsDirect(s, db.objects, db.roles[y], q);
      }
    }
  }

  // With the roles on gone objects dropped, only rows on those objects can be wrong,
  // and they are wrong exactly when they are there.
  lemma ClearRowsOnGone(s: Schema, db: Db, xs: set<Obj>, cleared: set<Obj>)
    requires CorrectExcept(s, db, xs) && xs !! db.objects.Keys && RolesOn(db, xs) == {} && cleared <= xs
    ensures Correct(s, WithoutEvalsOn(db, cleared)) <==>
      forall e :: e in db.evals && e.1.obj in xs ==> e.1.obj in cleared
  {
    var after := WithoutEvalsOn(db, cleared);
    assert Valid(s, after) && CoreOf(s, after) == CoreOf(s, db);
    ConfersSame(s, db, after);
    forall r, q: Perm | q.obj in xs ensures !Granted(s, after, r, q) {
      NothingGrantedOnGone(s, after, xs, r, q);
    }
    forall r, q: Perm | r in db.roles && q.obj !in xs ensures (r, q) in after.evals <==> Granted(s, after, r, q) {
      assert Granted(s, db, r, q) <==> Granted(s, after, r, q);
    }
    if e :| e in db.evals && e.1.obj in xs && e.1.obj !in cleared {
      var r, q := e.0, e.1;
      assert (r, q) in after.evals && r in after.roles && !Granted(s, after, r, q);
    }
  }

  // ---- Deleting objects that are not teams ----

  // Those whose evaluation rows the handler deletes.
  function ClearedOn(s: Schema, xs: set<Obj>): set<Obj> {
    set x | x in xs && ParentField(s.reg, x.ct).Some?
  }

  // post_delete for all of them: their roles go; their rows go where the type has a parent field.
  function AfterObjectDelete(s: Schema, a: Db, xs: set<Obj>): Db {
    var b := a.(objects := WithoutObjs(a.objects, xs));
    WithoutEvalsOn(WithoutRoles(b, RolesOn(b, xs)), ClearedOn(s, xs))
  }

  // A delete takes what is under its objects along; teams are treated below.
  ghost predicate DeletableObjects(s: Schema, a: Db, xs: set<Obj>) {
    WellFormed(s) && Correct(s, a) && NothingUnder(a.objects, xs) && forall x :: x in xs ==> x.ct != s.teamCt
  }

  lemma ObjectsLeaveTeamsAlone(s: Schema, a: Db, xs: set<Obj>)
    requires DeletableObjects(s, a, xs)
    ensures var b := a.(objects := WithoutObjs(a.objects, xs));
      Valid(s, b) && CoreOf(s, b) == CoreOf(s, a) && forall t :: IsTeam(s, b.objects, t) <==> IsTeam(s, a.objects, t)
  {
    var b := a.(objects := WithoutObjs(a.objects, xs));
    assert forall t :: IsTeam(s, b.objects, t) <==> IsTeam(s, a.objects, t);
    forall r | r in a.roles ensures TargetTeams(s, b.objects, a.roles[r]) == TargetTeams(s, a.objects, a.roles[r]) {
      forall t | a.roles[r].target.ct != s.teamCt
        ensures t in TargetTeams(s, b.objects, a.roles[r]) <==> t in TargetTeams(s, a.objects, a.roles[r])
      {
        InOrg(s, a.objects, a.roles[r], t);
        InOrg(s, b.objects, a.roles[r], t);
      }
    }
  }

  lemma AfterObjectDeleteNearlyRight(s: Schema, a: Db, xs: set<Obj>)
    requires DeletableObjects(s, a, xs)
    ensures var b := a.(objects := WithoutObjs(a.objects, xs));
      CorrectExcept(s, WithoutRoles(b, RolesOn(b, xs)), xs)
  {
    var b := a.(objects := WithoutObjs(a.objects, xs));
    ObjectsLeaveTeamsAlone(s, a, xs);
    forall r, q: Perm | r in b.roles && q.obj !in xs ensures Granted(s, a, r, q) <==> Granted(s, b, r, q) {
      forall y { OtherPermsKept(s, a, xs, y, q); }
    }
    assert CorrectExcept(s, b, xs);
    forall r, t | r in RolesOn(b, xs) && IsTeam(s, b.objects, t) ensures !GivesTo(CoreOf(s, b), r, t) {
      InOrg(s, b.objects, b.roles[r], t);
    }
    DeleteRolesOnGoneObjects(s, b, xs);
  }

  // The tables stay correct exactly when every row on an object that goes belongs to
  // a role on those objects, apart from objects whose type has a parent field.
  lemma ObjectDeleteCorrectIff(s: Schema, a: Db, xs: set<Obj>)
    requires DeletableObjects(s, a, xs)
    ensures Correct(s, AfterObjectDelete(s, a, xs)) <==>
      forall e :: e in a.evals && e.1.obj in xs ==> ParentField(s.reg, e.1.obj.ct).Some? || e.0 in RolesOn(a, xs)
  {
    AfterObjectDeleteNearlyRight(s, a, xs);
    var b := a.(objects := WithoutObjs(a.objects, xs));
    var c := WithoutRoles(b, RolesOn(b, xs));
    assert RolesOn(b, xs) == RolesOn(a, xs);
    ClearRowsOnGone(s, c, xs, ClearedOn(s, xs));
    assert forall e :: e in c.evals <==> e in a.evals && e.0 !in RolesOn(a, xs);
  }

  // ---- Deleting a team, outside deferral ----

  function TeamObjs(s: Schema, ts: set<TeamId>): set<Obj> {
    set t | t in ts :: TeamObj(s, t)
  }

  // Objects under the teams, if any, are deleted before them.
  ghost predicate DeletableTeams(s: Schema, a: Db, ts: set<TeamId>) {
    && WellFormed(s) && Correct(s, a) && (forall t :: t in ts ==> IsTeam(s, a.objects, t))
    && NothingUnder(a.objects, TeamObjs(s, ts))
  }

  // The rows that go with the teams by cascade; roles on the teams are not foreign keys and stay.
  function AfterCascade(s: Schema, a: Db, ts: set<TeamId>): Db {
    a.(objects := WithoutObjs(a.objects, TeamObjs(s, ts)),
       teamHolds := (set h | h in a.teamHolds && h.0 !in ts),
       memberRoles := (set m | m in a.memberRoles && m.0 !in ts))
  }

  lemma CascadeIsValid(s: Schema, a: Db, ts: set<TeamId>)
    requires Valid(s, a) && NothingUnder(a.objects, TeamObjs(s, ts))
    ensures Valid(s, AfterCascade(s, a, ts))
    ensures forall u :: IsTeam(s, AfterCascade(s, a, ts).objects, u) <==> IsTeam(s, a.objects, u) && u !in ts
  {
    forall u ensures TeamObj(s, u) in TeamObjs(s, ts) <==> u in ts {
      if TeamObj(s, u) in TeamObjs(s, ts) {
        var t :| t in ts && TeamObj(s, t) == TeamObj(s, u);
      }
    }
  }

  lemma CascadeTargets(s: Schema, a: Db, ts: set<TeamId>, r: RoleId, u: TeamId)
    requires DeletableTeams(s, a, ts) && u !in ts
    ensures Valid(s, AfterCascade(s, a, ts))
    ensures GivesTo(CoreOf(s, a), r, u) <==> GivesTo(CoreOf(s, AfterCascade(s, a, ts)), r, u)
  {
    CascadeIsValid(s, a, ts);
    if r in a.roles && a.roles[r].target.ct != s.teamCt {
      InOrg(s, a.objects, a.roles[r], u);
      InOrg(s, AfterCascade(s, a, ts).objects, a.roles[r], u);
    }
  }

  // team_pre_delete, while all the teams still exist: the teams provided by the
  // member-giving roles t holds ...
  function StashedTeamIds(s: Schema, a: Db, t: TeamId): set<TeamId> {
    set h, m | h in a.teamHolds && m in a.memberRoles && h.0 == t && m.1 == h.1 && m.0 != t &&
      h.1 in a.roles && a.roles[h.1].rd in s.rdPermissions && GivesMembership(s, a.roles[h.1]) :: m.0
  }

  // ... and the roles that gave membership of it.
  function StashedMemberRoles(a: Db, t: TeamId): set<RoleId> {
    set m | m in a.memberRoles && m.0 == t :: m.1
  }

  // What all the deleted teams stashed together.
  function AllStashed(s: Schema, a: Db, ts: set<TeamId>): set<TeamId> {
    set t, u | t in ts && u in StashedTeamIds(s, a, t) :: u
  }

  // A team that loses a parent is among the stashed ones.
  lemma OtherTeamsSame(s: Schema, a: Db, ts: set<TeamId>, u: TeamId)
    requires DeletableTeams(s, a, ts) && u !in ts && u !in AllStashed(s, a, ts) && IsTeam(s, a.objects, u)
    ensures Valid(s, AfterCascade(s, a, ts))
    ensures SameAt(CoreOf(s, a), CoreOf(s, AfterCascade(s, a, ts)), u)
  {
    CascadeIsValid(s, a, ts);
    var b := AfterCascade(s, a, ts);
    var ca, cb := CoreOf(s, a), CoreOf(s, b);
    forall r ensures GivesTo(ca, r, u) <==> GivesTo(cb, r, u) { CascadeTargets(s, a, ts, r, u); }
    forall r ensures r in DirectRoles(ca, u) <==> r in DirectRoles(cb, u) {
      assert GivesTo(ca, r, u) <==> GivesTo(cb, r, u);
    }
    forall h | h in ca.holds && h.0 in ts ensures !GivesTo(ca, h.1, u) {
      if GivesTo(ca, h.1, u) { GivenTeamIsStashed(s, a, h.0, h.1, u); }
    }
    forall p ensures (u, p) in ParentGraph(ca) <==> (u, p) in ParentGraph(cb) {
      ParentEdge(ca, u, p);
      ParentEdge(cb, u, p);
    }
  }

  // A role held by t that makes its holder a member of u is stored as such.
  lemma GivenTeamIsStashed(s: Schema, a: Db, t: TeamId, r: RoleId, u: TeamId)
    requires Correct(s, a) && GivesTo(CoreOf(s, a), r, u) && IsTeam(s, a.objects, u) && u != t && (t, r) in a.teamHolds
    ensures u in StashedTeamIds(s, a, t)
  {
    MemberRoleCases(CoreOf(s, a), u, r);
    var h, m := (t, r), (u, r);
    assert h in a.teamHolds && m in a.memberRoles && h.0 == t && m.1 == h.1 && m.0 == u;
  }

  lemma AncestorsAreTeams(s: Schema, b: Db, u: TeamId, p: TeamId)
    requires Valid(s, b) && p in Reach(ParentGraph(CoreOf(s, b)), u)
    ensures IsTeam(s, b.objects, p)
  {
    var g := ParentGraph(CoreOf(s, b));
    var teams := set q | q in Reach(g, u) && IsTeam(s, b.objects, q);
    ReachIsClosed(g, u);
    forall e | e in g && (e.0 == u || e.0 in teams) ensures e.1 in teams { ParentEdge(CoreOf(s, b), e.0, e.1); }
    ReachIsLeast(g, u, teams);
  }

  // The deleted teams and ids that roles target although no such team exists.
  function StrayIds(s: Schema, a: Db, ts: set<TeamId>): set<TeamId>
    requires Valid(s, a)
  {
    ts + set r, u | r in CoreOf(s, a).gives && u in CoreOf(s, a).gives[r] && !IsTeam(s, a.objects, u) :: u
  }

  lemma StrayCollected(s: Schema, a: Db, ts: set<TeamId>, r: RoleId, u: TeamId)
    requires Valid(s, a) && GivesTo(CoreOf(s, a), r, u) && !IsTeam(s, a.objects, u)
    ensures u in StrayIds(s, a, ts)
  {
  }

  lemma GivenByNone(a: Core, b: Core, u: TeamId)
    requires forall r :: !GivesTo(a, r, u) && !GivesTo(b, r, u)
    ensures SameAt(a, b, u)
  {
    forall r ensures r !in DirectRoles(a, u) && r !in DirectRoles(b, u) {
      assert !GivesTo(a, r, u) && !GivesTo(b, r, u);
    }
    forall p ensures (u, p) !in ParentGraph(a) && (u, p) !in ParentGraph(b) {
      ParentEdge(a, u, p);
      ParentEdge(b, u, p);
    }
  }

  lemma UnstashedSame(s: Schema, a: Db, ts: set<TeamId>, u: TeamId)
    requires DeletableTeams(s, a, ts) && Valid(s, AfterCascade(s, a, ts)) &&
      u !in AllStashed(s, a, ts) + StrayIds(s, a, ts)
    ensures SameAt(CoreOf(s, a), CoreOf(s, AfterCascade(s, a, ts)), u)
  {
    var ca, cb := CoreOf(s, a), CoreOf(s, AfterCascade(s, a, ts));
    if IsTeam(s, a.objects, u) {
      OtherTeamsSame(s, a, ts, u);
    } else {
      forall r ensures !GivesTo(ca, r, u) && !GivesTo(cb, r, u) {
        if GivesTo(ca, r, u) { StrayCollected(s, a, ts, r, u); }
        CascadeTargets(s, a, ts, r, u);
      }
      GivenByNone(ca, cb, u);
    }
  }

  // Rows of a surviving team below none of the stashed ones are still right.
  lemma OutsideStash(s: Schema, a: Db, ts: set<TeamId>, u: TeamId)
    requires DeletableTeams(s, a, ts) && Valid(s, AfterCascade(s, a, ts)) &&
      IsTeam(s, AfterCascade(s, a, ts).objects, u)
    requires !InScope(CoreOf(s, AfterCascade(s, a, ts)), AllStashed(s, a, ts), u)
    ensures MemberRolesOf(CoreOf(s, a), u) == MemberRolesOf(CoreOf(s, AfterCascade(s, a, ts)), u)
  {
    var b := AfterCascade(s, a, ts);
    var ids := AllStashed(s, a, ts) + StrayIds(s, a, ts);
    CascadeIsValid(s, a, ts);
    forall v | v !in ids ensures SameAt(CoreOf(s, a), CoreOf(s, b), v) { UnstashedSame(s, a, ts, v); }
    forall p | p in Reach(ParentGraph(CoreOf(s, b)), u)
      ensures p !in StrayIds(s, a, ts)
    {
      AncestorsAreTeams(s, b, u, p);
    }
    OutOfScopeUnchanged(CoreOf(s, a), CoreOf(s, b), ids, u);
  }

  // Rewriting everything stashed makes the whole table right.
  lemma TeamDeleteMembers(s: Schema, a: Db, ts: set<TeamId>, c: Db)
    requires DeletableTeams(s, a, ts) && Valid(s, AfterCascade(s, a, ts))
    requires MembersRewritten(s, AfterCascade(s, a, ts), c, AllStashed(s, a, ts))
    ensures MembersCorrect(s, c)
  {
    var b := AfterCascade(s, a, ts);
    CascadeIsValid(s, a, ts);
    assert CoreOf(s, c) == CoreOf(s, b);
    forall u, r | IsTeam(s, c.objects, u) ensures (u, r) in c.memberRoles <==> r in MemberRolesOf(CoreOf(s, c), u) {
      if !InScope(CoreOf(s, b), AllStashed(s, a, ts), u) { OutsideStash(s, a, ts, u); }
    }
  }

  // ---- One post_delete handler ----

  // The roles whose evaluations the handler of t recomputes, found in the state g it runs in.
  function NamedBy(s: Schema, a: Db, g: Db, t: TeamId): set<RoleId> {
    BulkAncestors(s, g, {t}) + Descendents(g, StashedMemberRoles(a, t))
  }

  // What follows the recompute: roles without actors, roles on the team, rows on the team.
  function AfterTeamDelete(s: Schema, d: Db, t: TeamId): Db {
    var e := WithoutRoles(d, Orphans(d, d.roles.Keys));
    WithoutEvalsOn(WithoutRoles(e, RolesOn(e, {TeamObj(s, t)})), ClearedOn(s, {TeamObj(s, t)}))
  }

  // ---- Deleting one team, outside deferral ----

  ghost predicate DeletableTeam(s: Schema, a: Db, t: TeamId) {
    DeletableTeams(s, a, {t})
  }

  lemma OneTeam(s: Schema, a: Db, t: TeamId)
    ensures TeamObjs(s, {t}) == {TeamObj(s, t)} && AllStashed(s, a, {t}) == StashedTeamIds(s, a, t)
  {
  }

  // A role above none of the deleted teams keeps its closure.
  lemma UnnamedClosure(s: Schema, a: Db, ts: set<TeamId>, r: RoleId)
    requires DeletableTeams(s, a, ts) && Valid(s, AfterCascade(s, a, ts))
    requires forall t :: t in ts ==> r !in MemberRolesOf(CoreOf(s, a), t)
    ensures DiffersOnlyAt(CoreOf(s, a), CoreOf(s, AfterCascade(s, a, ts)), ts, {})
    ensures Implied(CoreOf(s, a), r) == Implied(CoreOf(s, AfterCascade(s, a, ts)), r)
  {
    var b := AfterCascade(s, a, ts);
    forall r, u | u !in ts
      ensures GivesTo(CoreOf(s, a), r, u) <==> GivesTo(CoreOf(s, b), r, u)
    {
      CascadeTargets(s, a, ts, r, u);
    }
    UntouchedClosure(CoreOf(s, a), CoreOf(s, b), ts, {}, r);
  }

  lemma CascadeConfers(s: Schema, a: Db, ts: set<TeamId>, y: RoleId, q: Perm)
    requires NothingUnder(a.objects, TeamObjs(s, ts)) && q.obj !in TeamObjs(s, ts)
    ensures Confers(s, a, y, q) <==> Confers(s, AfterCascade(s, a, ts), y, q)
  {
    OtherPermsKept(s, a, TeamObjs(s, ts), y, q);
  }

  lemma TeamDeleteEvaluations(s: Schema, a: Db, t: TeamId, c: Db, d: Db)
    requires DeletableTeam(s, a, t) && Valid(s, AfterCascade(s, a, {t}))
    requires MembersRewritten(s, AfterCascade(s, a, {t}), c, StashedTeamIds(s, a, t))
    requires EvalsRewritten(s, c, d, NamedBy(s, a, AfterCascade(s, a, {t}), t))
    ensures CorrectExcept(s, d, {TeamObj(s, t)})
  {
    var b := AfterCascade(s, a, {t});
    var named := NamedBy(s, a, b, t);
    OneTeam(s, a, t);
    TeamDeleteMembers(s, a, {t}, c);
    forall r, u | u != t
      ensures GivesTo(CoreOf(s, a), r, u) <==> GivesTo(CoreOf(s, b), r, u)
    {
      CascadeTargets(s, a, {t}, r, u);
    }
    assert DiffersOnlyAt(CoreOf(s, a), CoreOf(s, b), {t}, {});
    forall r | r in b.roles && r !in named ensures LeftAlone(s, a, b, {t}, {}, {TeamObj(s, t)}, r) {
      assert BulkAncestors(s, b, {t}) == BulkAncestors(s, a, {t});
      if r in MemberRolesOf(CoreOf(s, a), t) { AncestorsCoverMembers(s, a, {t}, r, t); }
      forall y, q: Perm | q.obj != TeamObj(s, t) ensures Confers(s, a, y, q) <==> Confers(s, b, y, q) {
        CascadeConfers(s, a, {t}, y, q);
      }
    }
    ScopedEvaluationsCorrect(s, a, b, c, d, named, {t}, {}, {TeamObj(s, t)});
  }

  // With the team gone from the base tables, no role that survives the clean-up
  // (held by somebody, and not itself on the team) still leads to a role on it.
  ghost predicate NothingLeadsToTeam(s: Schema, a: Db, t: TeamId) {
    var b := AfterCascade(s, a, {t});
    Valid(s, b) &&
    forall r, q: Perm :: Survives(s, b, t, r) && q.obj == TeamObj(s, t) ==> !Granted(s, b, r, q)
  }

  ghost predicate Survives(s: Schema, b: Db, t: TeamId, r: RoleId) {
    r in b.roles && r !in Orphans(b, b.roles.Keys) && r !in RolesOn(b, {TeamObj(s, t)})
  }

  // A team without a parent receives permissions only from roles on itself.
  lemma OnlyOwnRolesConferOnRoot(s: Schema, a: Db, t: TeamId, y: RoleId, q: Perm)
    requires DeletableTeam(s, a, t) && ParentField(s.reg, s.teamCt).None? && q.obj == TeamObj(s, t)
    ensures Confers(s, a, y, q) <==> Confers(s, AfterCascade(s, a, {t}), y, q)
  {
    var x := TeamObj(s, t);
    ObjectReach(a.objects, x);
    assert a.objects[x].None?;
    if y in a.roles && a.roles[y].rd in s.rdPermissions {
      GrantsIsDirect(s, a.objects, a.roles[y], q);
      GrantsIsDirect(s, AfterCascade(s, a, {t}).objects, a.roles[y], q);
      forall p ensures Grants(s, a.objects, a.roles[y].target, p, x) ==> a.roles[y].target == x {}
      forall p ensures Grants(s, AfterCascade(s, a, {t}).objects, a.roles[y].target, p, x) ==> a.roles[y].target == x {}
    }
  }

  // The rows on the team that the recompute leaves are those still granted.
  lemma RowsOnTeam(s: Schema, a: Db, t: TeamId, c: Db, d: Db, r: RoleId, q: Perm)
    requires DeletableTeam(s, a, t) && Valid(s, AfterCascade(s, a, {t})) && ParentField(s.reg, s.teamCt).None?
    requires MembersRewritten(s, AfterCascade(s, a, {t}), c, StashedTeamIds(s, a, t))
    requires EvalsRewritten(s, c, d, NamedBy(s, a, AfterCascade(s, a, {t}), t))
    requires r in a.roles && q.obj == TeamObj(s, t)
    ensures (r, q) in d.evals <==> Granted(s, AfterCascade(s, a, {t}), r, q)
  {
    var b := AfterCascade(s, a, {t});
    if r in NamedBy(s, a, AfterCascade(s, a, {t}), t) {
      OneTeam(s, a, t);
      TeamDeleteMembers(s, a, {t}, c);
      ExpectedIsGranted(s, c, r, q);
      assert CoreOf(s, c) == CoreOf(s, b);
      ConfersSame(s, b, c);
    } else {
      forall r, u | u != t
        ensures GivesTo(CoreOf(s, a), r, u) <==> GivesTo(CoreOf(s, b), r, u)
      {
        CascadeTargets(s, a, {t}, r, u);
      }
      assert DiffersOnlyAt(CoreOf(s, a), CoreOf(s, b), {t}, {});
      assert BulkAncestors(s, b, {t}) == BulkAncestors(s, a, {t});
      if r in MemberRolesOf(CoreOf(s, a), t) { AncestorsCoverMembers(s, a, {t}, r, t); }
      UntouchedClosure(CoreOf(s, a), CoreOf(s, b), {t}, {}, r);
      forall y ensures Confers(s, a, y, q) <==> Confers(s, b, y, q) { OnlyOwnRolesConferOnRoot(s, a, t, y, q); }
    }
  }

  lemma RowsLeftIff(s: Schema, a: Db, t: TeamId, c: Db, d: Db)
    requires DeletableTeam(s, a, t) && Valid(s, AfterCascade(s, a, {t})) && ParentField(s.reg, s.teamCt).None?
    requires MembersRewritten(s, AfterCascade(s, a, {t}), c, StashedTeamIds(s, a, t))
    requires EvalsRewritten(s, c, d, NamedBy(s, a, AfterCascade(s, a, {t}), t)) && Valid(s, d)
    ensures (forall e :: e in AfterTeamDelete(s, d, t).evals ==> e.1.obj != TeamObj(s, t)) <==>
      NothingLeadsToTeam(s, a, t)
  {
    var b, f := AfterCascade(s, a, {t}), AfterTeamDelete(s, d, t);
    assert Orphans(d, d.roles.Keys) == Orphans(b, b.roles.Keys);
    forall r, q: Perm | q.obj == TeamObj(s, t)
      ensures (r, q) in f.evals <==> Survives(s, b, t, r) && Granted(s, b, r, q)
    {
      if r in a.roles { RowsOnTeam(s, a, t, c, d, r, q); }
      var e := WithoutRoles(d, Orphans(d, d.roles.Keys));
      assert (r, q) in f.evals <==> (r, q) in e.evals && r !in RolesOn(e, {TeamObj(s, t)});
    }
  }

  // Deleting one team keeps both tables correct, whatever hung below or above it,
  // when the team type has a parent field; otherwise exactly when nothing that
  // survives leads to the team.
  lemma TeamDeleteKeepsTablesCorrect(s: Schema, a: Db, t: TeamId, c: Db, d: Db)
    requires DeletableTeam(s, a, t) && Valid(s, AfterCascade(s, a, {t}))
    requires MembersRewritten(s, AfterCascade(s, a, {t}), c, StashedTeamIds(s, a, t))
    requires EvalsRewritten(s, c, d, NamedBy(s, a, AfterCascade(s, a, {t}), t))
    ensures Correct(s, AfterTeamDelete(s, d, t)) <==>
      ParentField(s.reg, s.teamCt).Some? || NothingLeadsToTeam(s, a, t)
  {
    var x := TeamObj(s, t);
    TeamDeleteEvaluations(s, a, t, c, d);
    DeleteUnheldKeepsCorrect(s, d, Orphans(d, d.roles.Keys), {x});
    var e := WithoutRoles(d, Orphans(d, d.roles.Keys));
    forall h | h in e.teamHolds ensures h.0 != t {}
    DeleteRolesOnGoneObjects(s, e, {x});
    ClearRowsOnGone(s, WithoutRoles(e, RolesOn(e, {x})), {x}, ClearedOn(s, {x}));
    if ParentField(s.reg, s.teamCt).None? { RowsLeftIff(s, a, t, c, d); }
  }

  // ---- Deleting a user ----

  function WithoutUser(a: Db, user: int): Db {
    a.(userHolds := set h | h in a.userHolds && h.0 != user)
  }

  function AfterUserDelete(a: Db, user: int): Db {
    var b := WithoutUser(a, user);
    WithoutRoles(b, Orphans(b, b.roles.Keys))
  }

  lemma UsersDoNotMatter(s: Schema, a: Db, user: int)
    requires Correct(s, a)
    ensures CorrectExcept(s, WithoutUser(a, user), {})
  {
    var b := WithoutUser(a, user);
    assert Valid(s, b) && CoreOf(s, b) == CoreOf(s, a);
    ConfersSame(s, a, b);
  }

  lemma UserDeleteCorrect(s: Schema, a: Db, user: int)
    requires Correct(s, a)
    ensures Correct(s, AfterUserDelete(a, user))
  {
    UsersDoNotMatter(s, a, user);
    var b := WithoutUser(a, user);
    DeleteUnheldKeepsCorrect(s, b, Orphans(b, b.roles.Keys), {});
  }
}
