// Creating objects under existing parents: the roles found through the parent
// chains are the only ones whose evaluations change.
module Creation {
  import opened Graphs
  import opened Membership
  import opened Hierarchy
  import opened RbacModel
  import opened Refresh

  // b is a with new objects added. No role targets a new object yet.
  ghost predicate Created(s: Schema, a: Db, b: Db) {
    && Valid(s, a) && Valid(s, b)
    && b == a.(objects := b.objects)
    && (forall o :: o in a.objects ==> o in b.objects && b.objects[o] == a.objects[o])
    && (forall r :: r in a.roles ==> a.roles[r].target in b.objects ==> a.roles[r].target in a.objects)
  }

  function NewObjects(a: Db, b: Db): set<Obj> {
    b.objects.Keys - a.objects.Keys
  }

  function NewTeams(s: Schema, a: Db, b: Db): set<TeamId> {
    set o | o in NewObjects(a, b) && o.ct == s.teamCt :: o.pk
  }

  // object_roles_for_parents: roles on the parents, then the roles one hop above them.
  function RolesForParents(db: Db, parents: set<Obj>): set<RoleId> {
    var first := set r | r in db.roles && db.roles[r].target in parents;
    first + set m, h | m in db.memberRoles && h in db.teamHolds && h.0 == m.0 && h.1 in first :: m.1
  }

  ghost function ParentsOf(s: Schema, objs: Objects, created: set<Obj>): set<Obj>
    requires WellFormed(s) && WellTyped(s.reg, objs)
  {
    set x, p | x in created && p in ParentIds(s.reg, objs, x) :: p
  }

  // The chain above an old object is what it was.
  lemma OldChainsKept(s: Schema, a: Db, b: Db, o: Obj)
    requires Created(s, a, b) && o !in NewObjects(a, b)
    ensures Reach(ObjectGraph(b.objects), o) == Reach(ObjectGraph(a.objects), o)
  {
    var ga, gb := ObjectGraph(a.objects), ObjectGraph(b.objects);
    ReachIsClosed(gb, o);
    ReachIsLeast(ga, o, Reach(gb, o));
    ReachIsClosed(ga, o);
    var s' := set y | y in Reach(ga, o) && y !in NewObjects(a, b);
    forall e | e in gb && (e.0 == o || e.0 in s') ensures e.1 in s' {
      ObjectEdge(b.objects, e.0, e.1);
      assert e.0 in a.objects && a.objects[e.0] == Some(e.1);
      ObjectEdge(a.objects, e.0, e.1);
      assert (e.0, e.1) in ga;
    }
    ReachIsLeast(gb, o, s');
  }

  // On old objects every role confers what it did.
  lemma OldPermsKept(s: Schema, a: Db, b: Db, x: RoleId, q: Perm)
    requires Created(s, a, b) && q.obj !in NewObjects(a, b)
    ensures Confers(s, a, x, q) <==> Confers(s, b, x, q)
  {
    if x in a.roles {
      var row := a.roles[x];
      OldChainsKept(s, a, b, q.obj);
      forall p | p in s.rdPermissions[row.rd]
        ensures Grants(s, a.objects, row.target, p, q.obj) <==> Grants(s, b.objects, row.target, p, q.obj)
      {
      }
      GrantsIsDirect(s, a.objects, row, q);
      GrantsIsDirect(s, b.objects, row, q);
    }
  }

  lemma GrantsIsDirect(s: Schema, objs: Objects, row: RoleRow, q: Perm)
    requires row.rd in s.rdPermissions
    ensures q in Direct(s, objs, row) <==>
      exists p :: p in s.rdPermissions[row.rd] && p.codename == q.codename && Grants(s, objs, row.target, p, q.obj)
  {
    if p :| p in s.rdPermissions[row.rd] && p.codename == q.codename && Grants(s, objs, row.target, p, q.obj) {
      assert q == Perm(p.codename, q.obj);
      assert q.obj in objs.Keys + {row.target};
    }
  }

  // A role confers something on a new object only if its target is above it.
  lemma NewPermsComeFromParents(s: Schema, a: Db, b: Db, x: RoleId, q: Perm)
    requires WellFormed(s) && Created(s, a, b) && q.obj in NewObjects(a, b) && Confers(s, b, x, q)
    ensures b.roles[x].target in ParentsOf(s, b.objects, NewObjects(a, b))
  {
    var row := b.roles[x];
    GrantsIsDirect(s, b.objects, row, q);
    var p :| p in s.rdPermissions[row.rd] && p.codename == q.codename && Grants(s, b.objects, row.target, p, q.obj);
    assert row.target in Reach(ObjectGraph(b.objects), q.obj);
    ParentIdsAreAncestors(s.reg, b.objects, q.obj);
  }

  lemma NewPermsAreNew(s: Schema, a: Db, b: Db, x: RoleId, q: Perm)
    requires Created(s, a, b) && q.obj in NewObjects(a, b)
    ensures !Confers(s, a, x, q)
  {
    if Confers(s, a, x, q) { GrantsIsDirect(s, a.objects, a.roles[x], q); }
  }

  // New teams hold nothing, so the closure over roles is what it was.
  lemma NewTeamsHoldNothing(s: Schema, a: Db, b: Db, r: RoleId)
    requires WellFormed(s) && Created(s, a, b)
    ensures Implied(CoreOf(s, a), r) == Implied(CoreOf(s, b), r)
    ensures DiffersOnlyAt(CoreOf(s, a), CoreOf(s, b), NewTeams(s, a, b), {})
    ensures forall t, x :: t in NewTeams(s, a, b) ==> x !in MemberRolesOf(CoreOf(s, a), t)
  {
    var ca, cb := CoreOf(s, a), CoreOf(s, b);
    forall x, t | t !in NewTeams(s, a, b) ensures GivesTo(ca, x, t) <==> GivesTo(cb, x, t) {
      OldTargetsKept(s, a, b, x, t);
    }
    forall x, t | t in NewTeams(s, a, b) ensures !GivesTo(ca, x, t) {
      assert TeamObj(s, t) in NewObjects(a, b);
    }
    forall h | h in ca.holds ensures h.0 !in NewTeams(s, a, b) {
      assert TeamObj(s, h.0) in a.objects;
    }
    assert DiffersOnlyAt(ca, cb, NewTeams(s, a, b), {});
    forall t, x | t in NewTeams(s, a, b) ensures x !in MemberRolesOf(ca, t) {
      NobodyGives(ca, t, x);
    }
    UntouchedClosure(ca, cb, NewTeams(s, a, b), {}, r);
  }

  lemma OldTargetsKept(s: Schema, a: Db, b: Db, x: RoleId, t: TeamId)
    requires s.orgCt != s.teamCt && Created(s, a, b) && t !in NewTeams(s, a, b)
    ensures GivesTo(CoreOf(s, a), x, t) <==> GivesTo(CoreOf(s, b), x, t)
  {
    if x in a.roles {
      var row := a.roles[x];
      if row.target.ct == s.orgCt {
        assert TeamObj(s, t) in b.objects ==> TeamObj(s, t) in a.objects;
        InOrg(s, a.objects, row, t);
        InOrg(s, b.objects, row, t);
      }
    }
  }

  lemma InOrg(s: Schema, objs: Objects, row: RoleRow, t: TeamId)
    requires row.target.ct != s.teamCt
    ensures t in TargetTeams(s, objs, row) <==>
      row.target.ct == s.orgCt && TeamObj(s, t) in objs && objs[TeamObj(s, t)] == Some(row.target)
  {
    if row.target.ct == s.orgCt && TeamObj(s, t) in objs && objs[TeamObj(s, t)] == Some(row.target) {
      var o := TeamObj(s, t);
      assert o in objs && o.ct == s.teamCt && objs[o] == Some(row.target) && o.pk == t;
    }
  }

  lemma OldTeamsSame(s: Schema, a: Db, b: Db, u: TeamId)
    requires s.orgCt != s.teamCt && Created(s, a, b) && u !in NewTeams(s, a, b)
    ensures SameAt(CoreOf(s, a), CoreOf(s, b), u)
  {
    var ca, cb := CoreOf(s, a), CoreOf(s, b);
    forall r ensures r in DirectRoles(ca, u) <==> r in DirectRoles(cb, u) {
      OldTargetsKept(s, a, b, r, u);
    }
    forall p ensures (u, p) in ParentGraph(ca) <==> (u, p) in ParentGraph(cb) {
      ParentEdge(ca, u, p);
      ParentEdge(cb, u, p);
      forall r { OldTargetsKept(s, a, b, r, u); }
    }
  }

  lemma NewTeamRecomputeCorrect(s: Schema, a: Db, b: Db, c: Db, teamIds: set<TeamId>)
    requires WellFormed(s) && Created(s, a, b) && Correct(s, a)
    requires NewTeams(s, a, b) <= teamIds && MembersRewritten(s, b, c, teamIds)
    ensures MembersCorrect(s, c)
  {
    forall u | u !in teamIds ensures SameAt(CoreOf(s, a), CoreOf(s, b), u) { OldTeamsSame(s, a, b, u); }
    forall u | IsTeam(s, b.objects, u) && u !in teamIds ensures IsTeam(s, a.objects, u) {
      assert TeamObj(s, u) !in NewObjects(a, b);
    }
    ScopedEqualsGlobal(s, a, b, c, teamIds);
  }

  // A role outside the update set confers nothing on the new objects, even through teams.
  lemma OtherRolesUnaffected(s: Schema, a: Db, b: Db, r: RoleId)
    requires WellFormed(s) && Created(s, a, b) && Correct(s, a) && r in a.roles
    requires r !in RolesForParents(b, ParentsOf(s, b.objects, NewObjects(a, b)))
    ensures LeftAlone(s, a, b, NewTeams(s, a, b), {}, NewObjects(a, b), r)
    ensures LeftAlone(s, a, b, NewTeams(s, a, b), {}, {}, r)
  {
    NewTeamsHoldNothing(s, a, b, r);
    forall x, q: Perm | x in Implied(CoreOf(s, a), r) ensures Confers(s, a, x, q) <==> Confers(s, b, x, q) {
      if q.obj !in NewObjects(a, b) {
        OldPermsKept(s, a, b, x, q);
      } else {
        NewPermsAreNew(s, a, b, x, q);
        HopIsImplied(s, a, r, x);
        if Confers(s, b, x, q) { NewPermsComeFromParents(s, a, b, x, q); }
      }
    }
  }

  // A batch of creations recomputed once: new teams' member roles, then every role
  // found through the parents of any new object, in full.
  lemma CreationFlushCorrect(s: Schema, a: Db, b: Db, c: Db, d: Db)
    requires WellFormed(s) && Created(s, a, b) && Correct(s, a)
    requires MembersRewritten(s, b, c, NewTeams(s, a, b))
    requires EvalsRewritten(s, c, d, RolesForParents(b, ParentsOf(s, b.objects, NewObjects(a, b))))
    ensures Correct(s, d)
  {
    var rs := RolesForParents(b, ParentsOf(s, b.objects, NewObjects(a, b)));
    NewTeamRecomputeCorrect(s, a, b, c, NewTeams(s, a, b));
    NewTeamsHoldNothing(s, a, b, 0);
    forall r | r in b.roles && r !in rs ensures LeftAlone(s, a, b, NewTeams(s, a, b), {}, {}, r) {
      OtherRolesUnaffected(s, a, b, r);
    }
    ScopedEvaluationsCorrect(s, a, b, c, d, rs, NewTeams(s, a, b), {}, {});
  }

  // ---- The recompute narrowed to one object ----

  // expected_direct_permissions with a look-ahead object x: only permissions on x,
  // except that a role on an object of the same type still proposes its own target.
  ghost predicate ConfersNarrow(s: Schema, db: Db, r: RoleId, q: Perm, x: Obj) {
    Confers(s, db, r, q) && (q.obj == x || (db.roles[r].target.ct == x.ct && q.obj == db.roles[r].target))
  }

  ghost predicate NarrowHas(s: Schema, db: Db, r: RoleId, q: Perm, x: Obj) {
    exists y :: Hop(db, r, y) && ConfersNarrow(s, db, y, q, x)
  }

  // Rows on x are rewritten for the given roles; rows proposed elsewhere are inserted.
  ghost predicate EvalsRewrittenAt(s: Schema, b: Db, c: Db, rs: set<RoleId>, x: Obj) {
    && c == b.(evals := c.evals)
    && forall r, q: Perm :: (r, q) in c.evals <==>
         if r in rs && r in b.roles then NarrowHas(s, b, r, q, x) || (q.obj != x && (r, q) in b.evals)
         else (r, q) in b.evals
  }

  lemma EvalsRewrittenAtValid(s: Schema, b: Db, c: Db, rs: set<RoleId>, x: Obj)
    requires Valid(s, b) && EvalsRewrittenAt(s, b, c, rs, x)
    ensures Valid(s, c)
  {
    forall e | e in c.evals ensures e.0 in c.roles {
      var r, q := e.0, e.1;
      assert (r, q) in c.evals;
    }
  }

  // On x the narrowed recompute finds what the full one does.
  lemma NarrowAgreesOnObject(s: Schema, db: Db, r: RoleId, q: Perm, x: Obj)
    ensures q.obj == x ==> (NarrowHas(s, db, r, q, x) <==> ExpectedHas(s, db, r, q))
    ensures NarrowHas(s, db, r, q, x) ==> ExpectedHas(s, db, r, q)
  {
  }

  // One created object, recomputed only for that object.
  lemma CreateOneCorrect(s: Schema, a: Db, b: Db, c: Db, d: Db, x: Obj)
    requires WellFormed(s) && Created(s, a, b) && Correct(s, a) && NewObjects(a, b) == {x}
    requires MembersRewritten(s, b, c, NewTeams(s, a, b))
    requires EvalsRewrittenAt(s, c, d, RolesForParents(b, ParentsOf(s, b.objects, {x})), x)
    ensures Correct(s, d)
  {
    var rs := RolesForParents(b, ParentsOf(s, b.objects, {x}));
    NewTeamRecomputeCorrect(s, a, b, c, NewTeams(s, a, b));
    EvalsRewrittenAtValid(s, c, d, rs, x);
    assert CoreOf(s, d) == CoreOf(s, c) == CoreOf(s, b);
    ConfersSame(s, c, d);
    forall r, q: Perm | r in d.roles ensures (r, q) in d.evals <==> Granted(s, d, r, q) {
      NarrowAgreesOnObject(s, c, r, q, x);
      ExpectedIsGranted(s, c, r, q);
      assert Granted(s, c, r, q) <==> Granted(s, d, r, q);
      if r !in rs {
        OtherRolesUnaffected(s, a, b, r);
        NewTeamsHoldNothing(s, a, b, r);
        LeftAloneStillRight(s, a, b, NewTeams(s, a, b), {}, {}, r, q);
        ConfersSame(s, b, d);
      } else if q.obj != x {
        OldGrantsKept(s, a, b, r, q);
        ConfersSame(s, b, d);
      }
    }
  }

  lemma OldGrantsKept(s: Schema, a: Db, b: Db, r: RoleId, q: Perm)
    requires WellFormed(s) && Created(s, a, b) && q.obj !in NewObjects(a, b)
    ensures Granted(s, a, r, q) <==> Granted(s, b, r, q)
  {
    NewTeamsHoldNothing(s, a, b, r);
    forall x { OldPermsKept(s, a, b, x, q); }
  }

  // The narrowed recompute proposes a row that is already stored exactly when some
  // role implied by r sits on another object of the new object's type. Such inserts
  // conflict, which is why they rely on conflicts being ignored.
  lemma NarrowProposesStoredRow(s: Schema, a: Db, b: Db, r: RoleId, x: Obj)
    requires WellFormed(s) && Created(s, a, b) && Correct(s, a) && NewObjects(a, b) == {x} && r in a.roles
    ensures (exists q :: NarrowHas(s, b, r, q, x) && (r, q) in b.evals) <==>
      exists y, q :: Hop(b, r, y) && Confers(s, b, y, q) && b.roles[y].target.ct == x.ct && q.obj == b.roles[y].target
  {
    assert Hop(b, r, r);
    forall y, q | Hop(b, r, y) && Confers(s, b, y, q) && b.roles[y].target.ct == x.ct && q.obj == b.roles[y].target
      ensures NarrowHas(s, b, r, q, x) && (r, q) in b.evals
    {
      assert ConfersNarrow(s, b, y, q, x);
      OldPermsKept(s, a, b, y, q);
      HopIsImplied(s, a, r, y);
      assert Hop(a, r, y);
      assert Granted(s, a, r, q);
    }
    forall q | NarrowHas(s, b, r, q, x) && (r, q) in b.evals
      ensures exists y :: (
        && Hop(b, r, y) && Confers(s, b, y, q)
        && b.roles[y].target.ct == x.ct && q.obj == b.roles[y].target)
    {
      var y :| Hop(b, r, y) && ConfersNarrow(s, b, y, q, x);
      if q.obj == x {
        assert Granted(s, a, r, q);
        var z :| z in Implied(CoreOf(s, a), r) && Confers(s, a, z, q);
        NewPermsAreNew(s, a, b, z, q);
      }
    }
  }
}
