// The signal handlers around object creation and deletion, and deferral of the
// recompute while a batch of objects is created.
module Triggers {
  import opened Graphs
  import opened Membership
  import opened Hierarchy
  import opened RbacModel
  import opened Refresh
  import opened Assignments
  import opened Creation
  import opened Deletion
  import opened BatchDeletion
  import opened Cascades
  import opened BaseTables
  import opened MemberCache
  import opened EvalCache
  import opened Pipeline

  // ---- Creating objects ----

  // A save that inserts x under an existing parent, or under none.
  ghost predicate Insertable(s: Schema, db: Db, x: Obj, parent: Option<Obj>) {
    && x !in db.objects && RolesOn(db, {x}) == {}
    && (parent.Some? ==> parent.value in db.objects && ParentType(s.reg, x.ct) == Some(parent.value.ct))
  }

  ghost predicate Inserted(a: Db, b: Db, x: Obj, parent: Option<Obj>) {
    b == a.(objects := a.objects[x := parent])
  }

  lemma InsertIsCreated(s: Schema, base: Db, a: Db, b: Db, x: Obj, parent: Option<Obj>)
    requires Created(s, base, a) && Insertable(s, a, x, parent) && Inserted(a, b, x, parent)
    ensures Created(s, base, b) && NewObjects(base, b) == NewObjects(base, a) + {x}
  {
    assert WellTyped(s.reg, b.objects);
    assert forall t :: IsTeam(s, a.objects, t) ==> IsTeam(s, b.objects, t);
    assert forall r :: r in a.roles ==> a.roles[r].target != x by {
      assert forall r :: r in a.roles ==> r !in RolesOn(a, {x});
    }
  }

  // New objects without a registered parent change nothing in either table.
  lemma RootObjectsNeedNothing(s: Schema, a: Db, b: Db)
    requires WellFormed(s) && Correct(s, a) && Created(s, a, b)
    requires forall x :: x in NewObjects(a, b) ==> ParentField(s.reg, x.ct).None?
    ensures Correct(s, b)
  {
    var parents := ParentsOf(s, b.objects, NewObjects(a, b));
    assert parents == {};
    assert RolesForParents(b, parents) == {};
    if NewTeams(s, a, b) != {} {
      var x :| x in NewObjects(a, b) && x.ct == s.teamCt;
    }
    NewRootTeamsHaveNoMembers(s, a, b);
    CreationFlushCorrect(s, a, b, b, b);
  }

  lemma NewRootTeamsHaveNoMembers(s: Schema, a: Db, b: Db)
    requires WellFormed(s) && Correct(s, a) && Created(s, a, b)
    requires NewTeams(s, a, b) != {} ==> ParentField(s.reg, s.teamCt).None?
    ensures MembersRewritten(s, b, b, NewTeams(s, a, b))
  {
    var ca, cb := CoreOf(s, a), CoreOf(s, b);
    forall t | t in NewTeams(s, a, b) ensures forall r :: r !in MemberRolesOf(cb, t) && (t, r) !in b.memberRoles {
      assert TeamObj(s, t) in NewObjects(a, b);
      assert b.objects[TeamObj(s, t)] == None;
      forall r ensures !GivesTo(cb, r, t) {
        if r in b.roles && b.roles[r].target.ct != s.teamCt { InOrg(s, b.objects, b.roles[r], t); }
      }
      forall r ensures r !in MemberRolesOf(cb, t) { NobodyGives(cb, t, r); }
    }
    forall h | h in cb.holds ensures h.0 !in NewTeams(s, a, b) { assert IsTeam(s, a.objects, h.0); }
    forall t, n | n in NewTeams(s, a, b) ensures n !in Reach(ParentGraph(cb), t) {
      if n in Reach(ParentGraph(cb), t) { ParentsHold(cb, t, n); }
    }
  }

  // Whatever is above a team holds a role.
  lemma ParentsHold(c: Core, t: TeamId, p: TeamId)
    requires p in Reach(ParentGraph(c), t)
    ensures exists h :: h in c.holds && h.0 == p
  {
    var g := ParentGraph(c);
    var s := set q | q in Reach(g, t) && exists h :: h in c.holds && h.0 == q;
    ReachIsClosed(g, t);
    forall e | e in g && (e.0 == t || e.0 in s) ensures e.1 in s { ParentEdge(c, e.0, e.1); }
    ReachIsLeast(g, t, s);
  }

  function SetOf(xs: seq<Obj>): set<Obj> {
    set x | x in xs
  }

  // object_roles_for_parents over the chain above each object.
  method RolesForCreated(s: Schema, db: Db, created: seq<Obj>) returns (teamIds: set<TeamId>, toUpdate: set<RoleId>)
    requires WellFormed(s) && Valid(s, db)
    ensures teamIds == set x | x in created && x.ct == s.teamCt :: x.pk
    ensures toUpdate == RolesForParents(db, ParentsOf(s, db.objects, SetOf(created)))
  {
    teamIds := {};
    var parents: set<Obj> := {};
    for i := 0 to |created|
      invariant teamIds == set x | x in created[..i] && x.ct == s.teamCt :: x.pk
      invariant parents == ParentsOf(s, db.objects, SetOf(created[..i]))
    {
      assert created[..i + 1] == created[..i] + [created[i]];
      var chain := ParentIds(s.reg, db.objects, created[i]);
      parents := parents + SetOf(chain);
      if created[i].ct == s.teamCt { teamIds := teamIds + {created[i].pk}; }
    }
    assert created[..|created|] == created;
    toUpdate := if parents == {} then {} else RolesForParents(db, parents);
    assert parents == {} ==> RolesForParents(db, parents) == {};
  }

  lemma OnlyNewTeam(s: Schema, a: Db, db: Db, x: Obj)
    requires NewObjects(a, db) == {x}
    ensures NewTeams(s, a, db) == (set y | y in [x] && y.ct == s.teamCt :: y.pk)
    ensures NewTeams(s, a, db) == if x.ct == s.teamCt then {x.pk} else {}
    ensures SetOf([x]) == {x}
  {
  }

  // post_save for a created object, outside deferral.
  method PostSaveUpdate(store: RbacStore, x: Obj, ghost a: Db)
    requires store.Ready() && Correct(store.s, a) && Created(store.s, a, store.View()) &&
      NewObjects(a, store.View()) == {x}
    modifies store`memberRoles, store`evals
    ensures store.Ready() && Correct(store.s, store.View())
    ensures store.View() == old(store.View()).(memberRoles := store.memberRoles, evals := store.evals)
  {
    var s, db := store.s, store.View();
    var teamIds, toUpdate := RolesForCreated(s, db, [x]);
    OnlyNewTeam(s, a, db, x);
    if x.ct == s.teamCt { ComputeTeamMemberRoles(store, Some({x.pk})); } else { NothingInScope(s, db); }
    ghost var mid := store.View();
    RecomputeRoleEvaluations(store, toUpdate, Some(x));
    CreateOneCorrect(s, a, db, mid, store.View(), x);
  }

  // ---- Deferral ----

  // Outside deferral both tables are correct. Inside, they were correct at `base`,
  // and only objects have been added since, the ones with a parent field recorded.
  ghost predicate Tracks(store: RbacStore, defer: DeferState, base: Db)
    reads store, defer
  {
    && store.Ready()
    && Correct(store.s, base) && Created(store.s, base, store.View())
    && (forall x :: x in defer.created ==> x in NewObjects(base, store.View()) && ParentField(store.s.reg, x.ct).Some?)
    && (forall x :: x in NewObjects(base, store.View()) && ParentField(store.s.reg, x.ct).Some? ==> x in defer.created)
    && (!defer.active ==> defer.created == [])
  }

  // While nothing recorded is pending the tables are correct.
  lemma NothingPendingMeansCorrect(store: RbacStore, defer: DeferState, base: Db)
    requires Tracks(store, defer, base) && defer.created == []
    ensures Correct(store.s, store.View())
  {
    RootObjectsNeedNothing(store.s, base, store.View());
  }

  // Saving a new object.
  method CreateObject(store: RbacStore, defer: DeferState, x: Obj, parent: Option<Obj>, ghost base: Db)
    returns (ghost base': Db)
    requires Tracks(store, defer, base) && Insertable(store.s, store.View(), x, parent)
    modifies store`objects, store`memberRoles, store`evals, defer`created
    ensures Tracks(store, defer, base')
    ensures store.objects == old(store.objects)[x := parent]
    ensures store.View() ==
      old(store.View()).(objects := store.objects, memberRoles := store.memberRoles, evals := store.evals)
    ensures defer.active ==> store.memberRoles == old(store.memberRoles) && store.evals == old(store.evals)
    ensures !defer.active ==> Correct(store.s, store.View()) && defer.created == old(defer.created)
    ensures defer.active ==>
      defer.created == old(defer.created) + if ParentField(store.s.reg, x.ct).Some? then [x] else []
  {
    var s := store.s;
    ghost var a := store.View();
    base' := base;
    if !defer.active { NothingPendingMeansCorrect(store, defer, base); }
    store.objects := store.objects[x := parent];
    ghost var b := store.View();
    InsertIsCreated(s, base, a, b, x, parent);
    if ParentField(s.reg, x.ct).None? {
      if !defer.active { RootObjectsNeedNothing(s, base, b); }
      return;
    }
    if defer.active {
      defer.created := defer.created + [x];
      return;
    }
    assert Created(s, a, a);
    InsertIsCreated(s, a, a, b, x, parent);
    PostSaveUpdate(store, x, a);
    base' := store.View();
  }

  // Blocks cannot be nested.
  method EnterDefer(defer: DeferState) returns (ok: bool)
    modifies defer`active
    ensures ok == !old(defer.active) && defer.active
  {
    if defer.active { return false; }
    defer.active := true;
    return true;
  }

  // Leaving the block: the state is reset, then everything pending is recomputed at once.
  method ExitDefer(store: RbacStore, defer: DeferState, ghost base: Db)
    requires Tracks(store, defer, base)
    modifies store`roles, store`userHolds, store`teamHolds, store`memberRoles, store`evals, defer
    ensures !defer.active && defer.created == [] && store.Ready() && Correct(store.s, store.View())
    ensures store.objects == old(store.objects)
    ensures forall r :: r in store.roles <==>
      r in old(store.roles) &&
      (old(defer.created) != [] ==>
         exists k :: (k in old(store.userHolds) || k in old(store.teamHolds)) && k.1 == r)
    ensures store.userHolds == old(store.userHolds) && store.teamHolds == old(store.teamHolds)
    ensures forall r :: r in store.roles ==> store.roles[r] == old(store.roles)[r]
    ensures Tracks(store, defer, store.View())
  {
    ghost var b := store.View();
    if defer.created == [] { NothingPendingMeansCorrect(store, defer, base); }
    var created := defer.created;
    defer.active, defer.created := false, [];
    if created != [] { FlushCreated(store, created, base); }
    assert Created(store.s, store.View(), store.View());
  }

  // Each object can be inserted once those before it are there.
  ghost predicate InsertableInTurn(s: Schema, db: Db, xs: seq<(Obj, Option<Obj>)>)
    decreases |xs|
  {
    xs != [] ==>
      Insertable(s, db, xs[0].0, xs[0].1) &&
      InsertableInTurn(s, db.(objects := db.objects[xs[0].0 := xs[0].1]), xs[1..])
  }

  ghost function InsertedInTurn(objs: Objects, xs: seq<(Obj, Option<Obj>)>): Objects
    decreases |xs|
  {
    if xs == [] then objs else InsertedInTurn(objs[xs[0].0 := xs[0].1], xs[1..])
  }

  lemma {:induction false} InsertedMeans(s: Schema, db: Db, xs: seq<(Obj, Option<Obj>)>)
    requires InsertableInTurn(s, db, xs)
    ensures var objs := InsertedInTurn(db.objects, xs);
      && (forall o :: o in objs <==> o in db.objects || exists i :: 0 <= i < |xs| && xs[i].0 == o)
      && (forall o :: o in db.objects ==> o in objs && objs[o] == db.objects[o])
      && (forall i :: 0 <= i < |xs| ==> xs[i].0 !in db.objects && xs[i].0 in objs && objs[xs[i].0] == xs[i].1)
    decreases |xs|
  {
    if xs != [] {
      InsertedMeans(s, db.(objects := db.objects[xs[0].0 := xs[0].1]), xs[1..]);
      forall i | 0 <= i < |xs| ensures xs[i] == if i == 0 then xs[0] else xs[1..][i - 1] {}
    }
  }

  // A whole block: entering, saving new objects, leaving. A block inside a block is refused and
  // changes nothing; otherwise all the objects are there at the end and both tables are correct.
  method CreateInBlock(store: RbacStore, defer: DeferState, xs: seq<(Obj, Option<Obj>)>, ghost base: Db)
    returns (ok: bool)
    requires Tracks(store, defer, base) && InsertableInTurn(store.s, store.View(), xs)
    modifies store`objects, store`roles, store`userHolds, store`teamHolds, store`memberRoles, store`evals, defer
    ensures ok == !old(defer.active)
    ensures !ok ==> store.View() == old(store.View()) && defer.active && defer.created == old(defer.created)
    ensures ok ==> !defer.active && defer.created == []
    ensures ok ==> forall o :: o in store.objects <==>
      o in old(store.objects) || exists i :: 0 <= i < |xs| && xs[i].0 == o
    ensures ok ==> forall o :: o in old(store.objects) ==>
      o in store.objects && store.objects[o] == old(store.objects)[o]
    ensures ok ==> forall i :: 0 <= i < |xs| ==> xs[i].0 in store.objects && store.objects[xs[i].0] == xs[i].1
    ensures store.userHolds == old(store.userHolds) && store.teamHolds == old(store.teamHolds)
    ensures ok ==> forall r :: r in store.roles <==>
      r in old(store.roles) &&
      ((exists i :: 0 <= i < |xs| && ParentField(store.s.reg, xs[i].0.ct).Some?) ==>
         exists k :: (k in store.userHolds || k in store.teamHolds) && k.1 == r)
    ensures forall r :: r in store.roles ==> store.roles[r] == old(store.roles)[r]
    ensures ok ==> Correct(store.s, store.View()) && Tracks(store, defer, store.View())
  {
    ok := EnterDefer(defer);
    if !ok { return; }
    ghost var now := base;
    InsertedMeans(store.s, store.View(), xs);
    assert xs[0..] == xs;
    for i := 0 to |xs|
      invariant defer.active && Tracks(store, defer, now)
      invariant InsertableInTurn(store.s, store.View(), xs[i..])
      invariant InsertedInTurn(store.objects, xs[i..]) == InsertedInTurn(old(store.objects), xs)
      invariant store.roles == old(store.roles)
      invariant store.userHolds == old(store.userHolds) && store.teamHolds == old(store.teamHolds)
      invariant defer.created != [] <==> exists j :: 0 <= j < i && ParentField(store.s.reg, xs[j].0.ct).Some?
    {
      assert xs[i..][1..] == xs[i + 1..];
      now := CreateObject(store, defer, xs[i].0, xs[i].1, now);
    }
    ExitDefer(store, defer, now);
  }

  method FlushCreated(store: RbacStore, created: seq<Obj>, ghost base: Db)
    requires store.Ready() && Correct(store.s, base) && Created(store.s, base, store.View())
    requires forall x :: x in created ==> x in NewObjects(base, store.View()) && ParentField(store.s.reg, x.ct).Some?
    requires forall x :: x in NewObjects(base, store.View()) && ParentField(store.s.reg, x.ct).Some? ==> x in created
    modifies store`roles, store`userHolds, store`teamHolds, store`memberRoles, store`evals
    ensures store.Ready() && Correct(store.s, store.View())
    ensures forall r :: r in store.roles <==>
      r in old(store.roles) && exists k :: (k in old(store.userHolds) || k in old(store.teamHolds)) && k.1 == r
    ensures store.userHolds == old(store.userHolds) && store.teamHolds == old(store.teamHolds)
    ensures forall r :: r in store.roles ==> store.roles[r] == old(store.roles)[r]
  {
    var s, db := store.s, store.View();
    var teamIds, toUpdate := RolesForCreated(s, db, created);
    SameParents(s, base, db, created);
    if teamIds != {} { ComputeTeamMemberRoles(store, Some(teamIds)); } else { NothingInScope(s, db); }
    ghost var mid := store.View();
    RecordedTeamsSuffice(s, base, db, mid, created, teamIds);
    RecomputeRoleEvaluations(store, toUpdate, None);
    CreationFlushCorrect(s, base, db, mid, store.View());
    CleanupOrphanedObjectRoles(store, {});
  }

  // Either every new team was recorded, or teams have no parent field and new ones
  // have no members.
  lemma RecordedTeamsSuffice(s: Schema, a: Db, b: Db, c: Db, created: seq<Obj>, teamIds: set<TeamId>)
    requires WellFormed(s) && Correct(s, a) && Created(s, a, b)
    requires forall x :: x in created ==> x in NewObjects(a, b) && ParentField(s.reg, x.ct).Some?
    requires forall x :: x in NewObjects(a, b) && ParentField(s.reg, x.ct).Some? ==> x in created
    requires teamIds == set x | x in created && x.ct == s.teamCt :: x.pk
    requires MembersRewritten(s, b, c, teamIds) && (teamIds == {} ==> c == b)
    ensures MembersRewritten(s, b, c, NewTeams(s, a, b))
  {
    if ParentField(s.reg, s.teamCt).Some? {
      assert teamIds == NewTeams(s, a, b);
    } else {
      forall x | x in created ensures x.ct != s.teamCt {}
      assert teamIds == {};
      NewRootTeamsHaveNoMembers(s, a, b);
    }
  }

  // Roles that neither a user nor a team holds are dropped.
  method CleanupOrphanedObjectRoles(store: RbacStore, ghost gone: set<Obj>)
    requires store.Ready()
    modifies store`roles, store`userHolds, store`teamHolds, store`memberRoles, store`evals
    ensures store.Ready() && store.objects == old(store.objects)
    ensures store.View() == WithoutRoles(old(store.View()), Orphans(old(store.View()), old(store.roles.Keys)))
    ensures forall r :: r in store.roles <==>
      r in old(store.roles) && exists k :: (k in old(store.userHolds) || k in old(store.teamHolds)) && k.1 == r
    ensures forall r :: r in store.roles ==> store.roles[r] == old(store.roles)[r]
    ensures store.userHolds == old(store.userHolds) && store.teamHolds == old(store.teamHolds)
    ensures forall m :: m in store.memberRoles <==> m in old(store.memberRoles) && m.1 in store.roles
    ensures forall e :: e in store.evals <==> e in old(store.evals) && e.0 in store.roles
    ensures old(CorrectExcept(store.s, store.View(), gone)) ==> CorrectExcept(store.s, store.View(), gone)
  {
    ghost var before := store.View();
    DeleteRoles(store, Orphans(store.View(), store.roles.Keys));
    forall r, k { CleanupRows(before, store.View(), r, k); }
    assert store.userHolds == before.userHolds && store.teamHolds == before.teamHolds;
    if CorrectExcept(store.s, before, gone) {
      DeleteUnheldKeepsCorrect(store.s, before, Orphans(before, before.roles.Keys), gone);
    }
  }

  // Objects that were not recorded have no parents to look at.
  lemma SameParents(s: Schema, a: Db, b: Db, created: seq<Obj>)
    requires WellFormed(s) && Created(s, a, b)
    requires forall x :: x in created ==> x in NewObjects(a, b)
    requires forall x :: x in NewObjects(a, b) && ParentField(s.reg, x.ct).Some? ==> x in created
    ensures ParentsOf(s, b.objects, SetOf(created)) == ParentsOf(s, b.objects, NewObjects(a, b))
  {
  }

  // ---- Deleting a team, outside deferral ----

  // team_pre_delete: runs while the team and its rows still exist.
  method TeamPreDelete(s: Schema, db: Db, t: TeamId) returns (memberRoles: set<RoleId>, teamIds: set<TeamId>)
    requires Valid(s, db)
    ensures memberRoles == StashedMemberRoles(db, t) && teamIds == StashedTeamIds(s, db, t)
    ensures forall r :: r in memberRoles <==> (t, r) in db.memberRoles
    ensures forall u :: u in teamIds <==> u != t && exists r, p ::
      (t, r) in db.teamHolds && p in s.rdPermissions[db.roles[r].rd] && p.codename == s.teamPermission &&
      (u, r) in db.memberRoles
  {
    memberRoles := set m | m in db.memberRoles && m.0 == t :: m.1;
    teamIds := {};
    var held := set h | h in db.teamHolds && h.0 == t && h.1 in MemberGiving(s, db) :: h.1;
    var rest := held;
    while rest != {}
      invariant rest <= held
      invariant forall u :: u in teamIds <==> exists r :: r in held && r !in rest && (u, r) in db.memberRoles
      decreases rest
    {
      ghost var pick := AnyOf(rest);
      var r :| r in rest;
      rest := rest - {r};
      ghost var before := teamIds;
      teamIds := teamIds + set m | m in db.memberRoles && m.1 == r :: m.0;
      forall u ensures u in teamIds <==> u in before || (u, r) in db.memberRoles {
        assert (u, r) in db.memberRoles ==> (u, r).1 == r && (u, r).0 == u;
      }
    }
    teamIds := teamIds - {t};
    forall u ensures u in teamIds <==> u in StashedTeamIds(s, db, t) { StashedTeam(s, db, t, u); }
    StashedMeans(s, db, t);
  }

  lemma StashedTeam(s: Schema, db: Db, t: TeamId, u: TeamId)
    requires Valid(s, db)
    ensures u in StashedTeamIds(s, db, t) <==>
      u != t && exists r :: (t, r) in db.teamHolds && r in MemberGiving(s, db) && (u, r) in db.memberRoles
  {
    if r :| u != t && (t, r) in db.teamHolds && r in MemberGiving(s, db) && (u, r) in db.memberRoles {
      var h, m := (t, r), (u, r);
      assert h in db.teamHolds && m in db.memberRoles && h.0 == t && m.1 == h.1 && m.0 == u;
    }
    if u in StashedTeamIds(s, db, t) {
      var h, m :| h in db.teamHolds && m in db.memberRoles && h.0 == t && m.1 == h.1 && m.0 != t &&
        h.1 in db.roles && db.roles[h.1].rd in s.rdPermissions && GivesMembership(s, db.roles[h.1]) && m.0 == u;
      assert (t, h.1) in db.teamHolds && (u, h.1) in db.memberRoles;
    }
  }

  lemma StashedMeans(s: Schema, db: Db, t: TeamId)
    requires Valid(s, db)
    ensures forall r :: r in StashedMemberRoles(db, t) <==> (t, r) in db.memberRoles
    ensures forall u :: u in StashedTeamIds(s, db, t) <==> u != t && exists r, p ::
      (t, r) in db.teamHolds && p in s.rdPermissions[db.roles[r].rd] && p.codename == s.teamPermission &&
      (u, r) in db.memberRoles
  {
    forall r | (t, r) in db.memberRoles ensures r in StashedMemberRoles(db, t) {
      assert r == (t, r).1;
    }
    forall u { StashedTeam(s, db, t, u); }
    forall r ensures r in MemberGiving(s, db) <==>
      r in db.roles && exists p :: p in s.rdPermissions[db.roles[r].rd] && p.codename == s.teamPermission
    {
    }
  }

  // The delete itself with its cascades, between the two rounds of signal handlers.
  method CascadeTeams(store: RbacStore, ts: set<TeamId>)
    modifies store`objects, store`teamHolds, store`memberRoles
    ensures store.View() == AfterCascade(store.s, old(store.View()), ts)
  {
    store.objects := WithoutObjs(store.objects, TeamObjs(store.s, ts));
    store.teamHolds := set h | h in store.teamHolds && h.0 !in ts;
    store.memberRoles := set m | m in store.memberRoles && m.0 !in ts;
  }

  // The tail shared by all post_delete handlers: roles on the object, then rows on it.
  method RemoveObjectRoles(store: RbacStore, x: Obj)
    requires store.Ready()
    modifies store`roles, store`userHolds, store`teamHolds, store`memberRoles, store`evals
    ensures store.Ready() && store.objects == old(store.objects)
    ensures store.View() ==
      WithoutEvalsOn(WithoutRoles(old(store.View()), RolesOn(old(store.View()), {x})), ClearedOn(store.s, {x}))
  {
    DeleteRoles(store, RolesOn(store.View(), {x}));
    if ParentField(store.s.reg, x.ct).Some? {
      assert ClearedOn(store.s, {x}) == {x};
      store.evals := set e | e in store.evals && e.1.obj != x;
    } else {
      assert WithoutEvalsOn(store.View(), {}).evals == store.evals;
    }
  }

  // post_delete for one team; its stash was taken in the state a.
  method TeamPostDelete(store: RbacStore, t: TeamId, memberRoles: set<RoleId>, teamIds: set<TeamId>, ghost a: Db)
    requires store.Ready() && memberRoles == StashedMemberRoles(a, t) && teamIds == StashedTeamIds(store.s, a, t)
    modifies store`roles, store`userHolds, store`teamHolds, store`memberRoles, store`evals
    ensures store.Ready() && store.objects == old(store.objects)
    ensures Handled(store.s, a, old(store.View()), store.View(), t)
  {
    var s, g := store.s, store.View();
    var below := CollectDescendents(g, memberRoles);
    var affected := BulkAncestors(s, g, {t}) + below;
    ComputeTeamMemberRoles(store, Some(teamIds));
    ghost var c := store.View();
    RecomputeRoleEvaluations(store, affected, None);
    ghost var d := store.View();
    assert MembersRewritten(s, g, c, StashedTeamIds(s, a, t)) && EvalsRewritten(s, c, d, NamedBy(s, a, g, t));
    CleanupOrphanedObjectRoles(store, {TeamObj(s, t)});
    RemoveObjectRoles(store, TeamObj(s, t));
    assert store.View() == AfterTeamDelete(s, d, t);
  }

  // Deleting a team, from correct tables, leaves them correct for all remaining teams
  // and roles, if its type has a parent field or nothing that survives leads to it.
  method DeleteTeam(store: RbacStore, t: TeamId)
    requires store.Ready() && DeletableTeam(store.s, store.View(), t)
    modifies store
    ensures forall o :: o in store.objects <==> o in old(store.objects) && o != Obj(store.s.teamCt, t)
    ensures forall o :: o in store.objects ==> store.objects[o] == old(store.objects)[o]
    ensures forall r :: r in store.roles <==>
      r in old(store.roles) && old(store.roles)[r].target != Obj(store.s.teamCt, t) &&
      exists k :: (k in old(store.userHolds) || (k in old(store.teamHolds) && k.0 != t)) && k.1 == r
    ensures forall r :: r in store.roles ==> store.roles[r] == old(store.roles)[r]
    ensures forall k :: k in store.userHolds <==> k in old(store.userHolds) && k.1 in store.roles
    ensures forall k :: k in store.teamHolds <==> k in old(store.teamHolds) && k.0 != t && k.1 in store.roles
    ensures Correct(store.s, store.View()) <==>
      ParentField(store.s.reg, store.s.teamCt).Some? || NothingLeadsToTeam(store.s, old(store.View()), t)
  {
    var s := store.s;
    ghost var a := store.View();
    var memberRoles, teamIds := TeamPreDelete(s, store.View(), t);
    CascadeIsValid(s, a, {t});
    OneTeam(s, a, t);
    CascadeTeams(store, {t});
    TeamPostDelete(store, t, memberRoles, teamIds, a);
    ghost var b := AfterCascade(s, a, {t});
    assert Handled(s, a, b, store.View(), t);
    TeamDeleteRows(s, a, t, store.View());
    ghost var c, d :| MembersRewritten(s, b, c, StashedTeamIds(s, a, t)) &&
      EvalsRewritten(s, c, d, NamedBy(s, a, b, t)) &&
      store.View() == AfterTeamDelete(s, d, t);
    TeamDeleteKeepsTablesCorrect(s, a, t, c, d);
  }

  lemma TeamDeleteObjects(s: Schema, a: Db, t: TeamId, h: Db)
    requires Valid(s, AfterCascade(s, a, {t})) && Handled(s, a, AfterCascade(s, a, {t}), h, t)
    ensures forall o :: o in h.objects <==> o in a.objects && o != Obj(s.teamCt, t)
    ensures forall o :: o in h.objects ==> h.objects[o] == a.objects[o]
  {
    OneTeam(s, a, t);
    HandlerRows(s, a, AfterCascade(s, a, {t}), h, t, 0, (0, 0));
  }

  lemma TeamDeleteRows(s: Schema, a: Db, t: TeamId, h: Db)
    requires Valid(s, a) && Valid(s, AfterCascade(s, a, {t})) && Handled(s, a, AfterCascade(s, a, {t}), h, t)
    ensures forall o :: o in h.objects <==> o in a.objects && o != Obj(s.teamCt, t)
    ensures forall o :: o in h.objects ==> h.objects[o] == a.objects[o]
    ensures forall r :: r in h.roles <==>
      r in a.roles && a.roles[r].target != Obj(s.teamCt, t) &&
      exists k :: (k in a.userHolds || (k in a.teamHolds && k.0 != t)) && k.1 == r
    ensures forall r :: r in h.roles ==> h.roles[r] == a.roles[r]
    ensures forall k :: k in h.userHolds <==> k in a.userHolds && k.1 in h.roles
    ensures forall k :: k in h.teamHolds <==> k in a.teamHolds && k.0 != t && k.1 in h.roles
  {
    TeamDeleteObjects(s, a, t, h);
    forall r, k { HandlerRows(s, a, AfterCascade(s, a, {t}), h, t, r, k); }
  }

  // Deleting several teams by one query: all the stashes, then the delete, then all the handlers.
  method DeleteTeams(store: RbacStore, order: seq<TeamId>) returns (ghost states: seq<Db>)
    requires store.Ready() && DeletableTeams(store.s, store.View(), TeamsIn(order)) && NoTeamTwice(order)
    modifies store
    ensures store.Ready()
    ensures forall o :: o in store.objects <==>
      o in old(store.objects) && !(o.ct == store.s.teamCt && o.pk in order)
    ensures forall o :: o in store.objects ==> store.objects[o] == old(store.objects)[o]
    ensures forall r :: r in store.roles <==>
      r in old(store.roles) &&
      (forall j :: 0 <= j < |order| ==> old(store.roles)[r].target != Obj(store.s.teamCt, order[j])) &&
      (order != [] ==>
         exists k :: (k in old(store.userHolds) || (k in old(store.teamHolds) && k.0 !in order)) && k.1 == r)
    ensures forall r :: r in store.roles ==> store.roles[r] == old(store.roles)[r]
    ensures forall k :: k in store.userHolds <==> k in old(store.userHolds) && k.1 in store.roles
    ensures forall k :: k in store.teamHolds <==> k in old(store.teamHolds) && k.0 !in order && k.1 in store.roles
    ensures Handlers(store.s, old(store.View()), order, states) && store.View() == states[|order|]
    ensures Valid(store.s, AfterCascade(store.s, old(store.View()), TeamsIn(order)))
    ensures Correct(store.s, store.View()) <==> LastReadingsRight(store.s, old(store.View()), order)
  {
    var s := store.s;
    ghost var a := store.View();
    var stash := StashAll(s, store.View(), order);
    CascadeIsValid(s, a, TeamsIn(order));
    CascadeTeams(store, TeamsIn(order));
    states := PostDeleteAll(store, order, stash, a);
    BatchEnd(s, a, order, states);
  }

  lemma BatchEnd(s: Schema, a: Db, order: seq<TeamId>, states: seq<Db>)
    requires DeletableTeams(s, a, TeamsIn(order)) && NoTeamTwice(order) && Handlers(s, a, order, states)
    requires Valid(s, AfterCascade(s, a, TeamsIn(order)))
    requires states[|order|].objects == AfterCascade(s, a, TeamsIn(order)).objects
    ensures var h := states[|order|];
      && (forall o :: o in h.objects <==> o in a.objects && !(o.ct == s.teamCt && o.pk in order))
      && (forall o :: o in h.objects ==> h.objects[o] == a.objects[o])
      && (forall r :: r in h.roles <==>
            r in a.roles && (forall j :: 0 <= j < |order| ==> a.roles[r].target != Obj(s.teamCt, order[j])) &&
            (order != [] ==>
               exists k :: (k in a.userHolds || (k in a.teamHolds && k.0 !in order)) && k.1 == r))
      && (forall r :: r in h.roles ==> h.roles[r] == a.roles[r])
      && (forall k :: k in h.userHolds <==> k in a.userHolds && k.1 in h.roles)
      && (forall k :: k in h.teamHolds <==> k in a.teamHolds && k.0 !in order && k.1 in h.roles)
    ensures Correct(s, states[|order|]) <==> LastReadingsRight(s, a, order)
  {
    BatchRows(s, a, order, states);
    BatchObjects(s, a, order);
    BatchDeleteCorrectIff(s, a, order, states);
  }

  ghost predicate Stashes(s: Schema, a: Db, ts: seq<TeamId>, stash: map<TeamId, (set<RoleId>, set<TeamId>)>) {
    forall t :: t in ts ==> t in stash && stash[t] == (StashedMemberRoles(a, t), StashedTeamIds(s, a, t))
  }

  // pre_delete for every team, before any of them is gone.
  method StashAll(s: Schema, db: Db, order: seq<TeamId>) returns (stash: map<TeamId, (set<RoleId>, set<TeamId>)>)
    requires Valid(s, db)
    ensures Stashes(s, db, order, stash)
  {
    stash := map[];
    for i := 0 to |order|
      invariant Stashes(s, db, order[..i], stash)
    {
      var memberRoles, teamIds := TeamPreDelete(s, db, order[i]);
      stash := stash[order[i] := (memberRoles, teamIds)];
      assert order[..i + 1] == order[..i] + [order[i]];
    }
    assert order[..|order|] == order;
  }

  // post_delete for every team, one after the other.
  method PostDeleteAll(store: RbacStore, order: seq<TeamId>, stash: map<TeamId, (set<RoleId>, set<TeamId>)>,
    ghost a: Db)
    returns (ghost states: seq<Db>)
    requires store.Ready() && Stashes(store.s, a, order, stash) &&
      store.View() == AfterCascade(store.s, a, TeamsIn(order))
    modifies store`roles, store`userHolds, store`teamHolds, store`memberRoles, store`evals
    ensures store.Ready() && store.objects == old(store.objects)
    ensures Handlers(store.s, a, order, states) && store.View() == states[|order|]
  {
    states := [store.View()];
    for i := 0 to |order|
      invariant store.Ready() && store.objects == old(store.objects)
      invariant |states| == i + 1 && states[0] == old(store.View()) && states[i] == store.View()
      invariant forall j :: 0 <= j < i ==>
        Valid(store.s, states[j]) && Handled(store.s, a, states[j], states[j + 1], order[j])
    {
      assert order[i] in order;
      ghost var before := store.View();
      TeamPostDelete(store, order[i], stash[order[i]].0, stash[order[i]].1, a);
      states := states + [store.View()];
      assert Handled(store.s, a, before, states[i + 1], order[i]);
    }
  }

  // Roles and rows go object by object; the order does not show.
  lemma ObjectAfterObjects(s: Schema, b: Db, xs: set<Obj>, x: Obj)
    ensures var c := WithoutEvalsOn(WithoutRoles(b, RolesOn(b, xs)), ClearedOn(s, xs));
      WithoutEvalsOn(WithoutRoles(c, RolesOn(c, {x})), ClearedOn(s, {x})) ==
      WithoutEvalsOn(WithoutRoles(b, RolesOn(b, xs + {x})), ClearedOn(s, xs + {x}))
  {
    var c := WithoutEvalsOn(WithoutRoles(b, RolesOn(b, xs)), ClearedOn(s, xs));
    var d := WithoutEvalsOn(WithoutRoles(c, RolesOn(c, {x})), ClearedOn(s, {x}));
    var e := WithoutEvalsOn(WithoutRoles(b, RolesOn(b, xs + {x})), ClearedOn(s, xs + {x}));
    assert RolesOn(b, xs + {x}) == RolesOn(b, xs) + RolesOn(c, {x});
    assert ClearedOn(s, xs + {x}) == ClearedOn(s, xs) + ClearedOn(s, {x});
    assert d.roles == e.roles && d.userHolds == e.userHolds && d.teamHolds == e.teamHolds;
    assert d.memberRoles == e.memberRoles && d.evals == e.evals;
  }

  // Deleting objects of other types together with everything under them.
  method DeleteObjects(store: RbacStore, xs: set<Obj>)
    requires store.Ready() && NothingUnder(store.objects, xs) && forall x :: x in xs ==> x.ct != store.s.teamCt
    modifies store
    ensures store.View() == AfterObjectDelete(store.s, old(store.View()), xs)
    ensures forall o :: o in store.objects <==> o in old(store.objects) && o !in xs
    ensures forall o :: o in store.objects ==> store.objects[o] == old(store.objects)[o]
    ensures forall r :: r in store.roles <==> r in old(store.roles) && old(store.roles)[r].target !in xs
    ensures forall r :: r in store.roles ==> store.roles[r] == old(store.roles)[r]
    ensures forall k :: k in store.userHolds <==> k in old(store.userHolds) && k.1 in store.roles
    ensures forall k :: k in store.teamHolds <==> k in old(store.teamHolds) && k.1 in store.roles
    ensures forall m :: m in store.memberRoles <==> m in old(store.memberRoles) && m.1 in store.roles
    ensures forall e :: e in store.evals <==>
      e in old(store.evals) && e.0 in store.roles &&
      !(e.1.obj in xs && ParentField(store.s.reg, e.1.obj.ct).Some?)
    ensures old(Correct(store.s, store.View())) ==>
      (Correct(store.s, store.View()) <==> RowsGo(store.s, old(store.View()), xs))
  {
    var s := store.s;
    ghost var a := store.View();
    store.objects := WithoutObjs(store.objects, xs);
    assert forall t :: IsTeam(s, a.objects, t) ==> IsTeam(s, store.objects, t);
    ghost var b := store.View();
    assert WithoutEvalsOn(WithoutRoles(b, RolesOn(b, {})), ClearedOn(s, {})) == b by { NothingWithout(s, b); }
    var rest := xs;
    while rest != {}
      invariant rest <= xs && store.Ready() && store.s == s
      invariant store.View() == WithoutEvalsOn(WithoutRoles(b, RolesOn(b, xs - rest)), ClearedOn(s, xs - rest))
      decreases rest
    {
      var x :| x in rest;
      ObjectAfterObjects(s, b, xs - rest, x);
      RemoveObjectRoles(store, x);
      assert xs - (rest - {x}) == (xs - rest) + {x};
      rest := rest - {x};
    }
    assert xs - rest == xs;
    ObjectDeleteRows(s, a, xs);
    if Correct(s, a) { ObjectDeleteCorrectIff(s, a, xs); }
  }

  lemma NothingWithout(s: Schema, b: Db)
    ensures WithoutEvalsOn(WithoutRoles(b, RolesOn(b, {})), ClearedOn(s, {})) == b
  {
    var c := WithoutEvalsOn(WithoutRoles(b, RolesOn(b, {})), ClearedOn(s, {}));
    assert c.roles == b.roles && c.userHolds == b.userHolds && c.teamHolds == b.teamHolds;
    assert c.memberRoles == b.memberRoles && c.evals == b.evals;
  }

  // Deleting a user: the assignments go by cascade, then the roles nobody holds any more.
  method DeleteUser(store: RbacStore, user: int)
    requires store.Ready()
    modifies store`roles, store`userHolds, store`teamHolds, store`memberRoles, store`evals
    ensures store.Ready() && store.View() == AfterUserDelete(old(store.View()), user)
    ensures store.objects == old(store.objects) && store.teamHolds == old(store.teamHolds)
    ensures forall k :: k in store.userHolds <==> k in old(store.userHolds) && k.0 != user
    ensures forall r :: r in store.roles <==>
      r in old(store.roles) &&
      exists k :: ((k in old(store.userHolds) && k.0 != user) || k in old(store.teamHolds)) && k.1 == r
    ensures forall r :: r in store.roles ==> store.roles[r] == old(store.roles)[r]
    ensures forall m :: m in store.memberRoles <==> m in old(store.memberRoles) && m.1 in store.roles
    ensures forall e :: e in store.evals <==> e in old(store.evals) && e.0 in store.roles
    ensures old(Correct(store.s, store.View())) ==> Correct(store.s, store.View())
  {
    ghost var a := store.View();
    store.userHolds := set h | h in store.userHolds && h.0 != user;
    ghost var b := store.View();
    if Correct(store.s, a) { assert CorrectExcept(store.s, b, {}) by { UsersDoNotMatter(store.s, a, user); } }
    CleanupOrphanedObjectRoles(store, {});
    UserDeleteRows(store.s, a, user);
  }
}
