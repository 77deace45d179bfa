// What a scoped recompute writes, and why scoped recomputes leave both derived
// tables equal to a recompute of everything.
module Refresh {
  import opened Graphs
  import opened Membership
  import opened Hierarchy
  import opened RbacModel

  // compute_team_member_roles: rows of the scoped teams are rewritten, others kept.
  ghost predicate MembersRewritten(s: Schema, b: Db, c: Db, teamIds: set<TeamId>)
    requires Valid(s, b)
  {
    && c == b.(memberRoles := c.memberRoles)
    && Valid(s, c)
    && forall t, r :: IsTeam(s, b.objects, t) ==>
         ((t, r) in c.memberRoles <==>
          if InScope(CoreOf(s, b), teamIds, t) then r in MemberRolesOf(CoreOf(s, b), t) else (t, r) in b.memberRoles)
  }

  // recompute_role_evaluations: rows of the given roles are rewritten, others kept.
  ghost predicate EvalsRewritten(s: Schema, b: Db, c: Db, rs: set<RoleId>) {
    && c == b.(evals := c.evals)
    && forall r, q :: (r, q) in c.evals <==>
         if r in rs && r in b.roles then ExpectedHas(s, b, r, q) else (r, q) in b.evals
  }

  lemma EvalsRewrittenValid(s: Schema, b: Db, c: Db, rs: set<RoleId>)
    requires Valid(s, b) && EvalsRewritten(s, b, c, rs)
    ensures Valid(s, c)
  {
    forall e | e in c.evals ensures e.0 in c.roles {
      var r, q := e.0, e.1;
      assert (r, q) in c.evals;
    }
  }

  // Both rewrites have a result.
  ghost function RewriteMembers(s: Schema, b: Db, teamIds: set<TeamId>): (c: Db)
    requires Valid(s, b)
    ensures MembersRewritten(s, b, c, teamIds)
  {
    var core := CoreOf(s, b);
    var c := b.(memberRoles := set t, r | t in Teams(s, b.objects) && r in b.roles &&
                  (if InScope(core, teamIds, t) then r in MemberRolesOf(core, t) else (t, r) in b.memberRoles) ::
                    (t, r));
    assert MembersRewritten(s, b, c, teamIds) by {
      forall t, r | IsTeam(s, b.objects, t)
        ensures (t, r) in c.memberRoles <==>
                if InScope(core, teamIds, t) then r in MemberRolesOf(core, t) else (t, r) in b.memberRoles
      {
        assert TeamObj(s, t).pk == t && t in Teams(s, b.objects);
        if r in MemberRolesOf(core, t) { MemberRolesExist(s, b, r, t); }
      }
    }
    c
  }

  ghost function RewriteEvals(s: Schema, b: Db, rs: set<RoleId>): (c: Db)
    requires Valid(s, b)
    ensures EvalsRewritten(s, b, c, rs)
  {
    var fromRoles := set r, x, q | r in rs && r in b.roles && x in b.roles && q in Direct(s, b.objects, b.roles[x]) &&
      Hop(b, r, x) :: (r, q);
    var c := b.(evals := (set e | e in b.evals && !(e.0 in rs && e.0 in b.roles)) + fromRoles);
    assert EvalsRewritten(s, b, c, rs) by {
      forall r, q | r in rs && r in b.roles ensures (r, q) in fromRoles <==> ExpectedHas(s, b, r, q) {
        if ExpectedHas(s, b, r, q) { var x :| Hop(b, r, x) && Confers(s, b, x, q); }
      }
    }
    c
  }

  // Rewriting every row from scratch is what correctness means.
  lemma GlobalRecomputeIsCorrect(s: Schema, b: Db, c: Db, d: Db)
    requires WellFormed(s) && Valid(s, b)
    requires MembersRewritten(s, b, c, Teams(s, b.objects)) && EvalsRewritten(s, c, d, c.roles.Keys)
    ensures Correct(s, d)
  {
    EvalsRewrittenValid(s, c, d, c.roles.Keys);
    forall t | IsTeam(s, b.objects, t) ensures InScope(CoreOf(s, b), Teams(s, b.objects), t) {
      assert TeamObj(s, t) in b.objects;
    }
    assert CoreOf(s, d) == CoreOf(s, b) == CoreOf(s, c);
    forall r, q | r in d.roles ensures (r, q) in d.evals <==> Granted(s, d, r, q) {
      ExpectedIsGranted(s, c, r, q);
      ConfersSame(s, c, d);
    }
  }

  lemma ConfersSame(s: Schema, b: Db, c: Db)
    requires b.objects == c.objects && b.roles == c.roles
    ensures forall x, q :: Confers(s, b, x, q) <==> Confers(s, c, x, q)
  {
  }

  // ---- The scoped form equals the global one ----

  // From the correct table of a, through base-table changes to b, the scoped
  // rewrite gives the correct table of b.
  lemma ScopedEqualsGlobal(s: Schema, a: Db, b: Db, c: Db, teamIds: set<TeamId>)
    requires Valid(s, a) && Valid(s, b) && MembersCorrect(s, a)
    requires forall u :: u !in teamIds ==> SameAt(CoreOf(s, a), CoreOf(s, b), u)
    requires forall u, r :: IsTeam(s, b.objects, u) && u !in teamIds ==>
      IsTeam(s, a.objects, u) && ((u, r) in b.memberRoles <==> (u, r) in a.memberRoles)
    requires MembersRewritten(s, b, c, teamIds)
    ensures MembersCorrect(s, c)
  {
    assert CoreOf(s, c) == CoreOf(s, b);
    forall t, r | IsTeam(s, c.objects, t) ensures (t, r) in c.memberRoles <==> r in MemberRolesOf(CoreOf(s, c), t) {
      if !InScope(CoreOf(s, b), teamIds, t) {
        OutOfScopeUnchanged(CoreOf(s, a), CoreOf(s, b), teamIds, t);
      }
    }
  }

  // A role left out of the recompute: its rows were right for a and are right for b,
  // apart from rows on objects that are gone.
  ghost predicate LeftAlone(s: Schema, a: Db, b: Db, touched: set<TeamId>, unheld: set<RoleId>, gone: set<Obj>,
    r: RoleId)
    requires Valid(s, a)
  {
    && r in a.roles && r !in unheld
    && (forall t :: t in touched ==> r !in MemberRolesOf(CoreOf(s, a), t))
    && (forall q :: (r, q) in b.evals <==> (r, q) in a.evals)
    && (forall x, q: Perm :: x in Implied(CoreOf(s, a), r) && q.obj !in gone ==>
         (Confers(s, a, x, q) <==> Confers(s, b, x, q)))
  }

  lemma ScopedEvaluationsCorrect(s: Schema, a: Db, b: Db, c: Db, d: Db,
                                 rs: set<RoleId>, touched: set<TeamId>, unheld: set<RoleId>, gone: set<Obj>)
    requires Correct(s, a) && Valid(s, b) && Valid(s, c)
    requires c == b.(memberRoles := c.memberRoles) && MembersCorrect(s, c)
    requires DiffersOnlyAt(CoreOf(s, a), CoreOf(s, b), touched, unheld)
    requires forall r :: r in b.roles && r !in rs ==> LeftAlone(s, a, b, touched, unheld, gone, r)
    requires EvalsRewritten(s, c, d, rs)
    ensures CorrectExcept(s, d, gone)
  {
    EvalsRewrittenValid(s, c, d, rs);
    assert CoreOf(s, d) == CoreOf(s, c) == CoreOf(s, b);
    ConfersSame(s, c, d);
    forall r, q: Perm | r in d.roles && q.obj !in gone ensures (r, q) in d.evals <==> Granted(s, d, r, q) {
      if r in rs {
        ExpectedIsGranted(s, c, r, q);
      } else {
        LeftAloneStillRight(s, a, b, touched, unheld, gone, r, q);
        ConfersSame(s, b, d);
      }
    }
  }

  lemma LeftAloneStillRight(s: Schema, a: Db, b: Db, touched: set<TeamId>, unheld: set<RoleId>, gone: set<Obj>,
    r: RoleId, q: Perm)
    requires Correct(s, a) && Valid(s, b)
    requires DiffersOnlyAt(CoreOf(s, a), CoreOf(s, b), touched, unheld)
    requires LeftAlone(s, a, b, touched, unheld, gone, r) && q.obj !in gone
    ensures (r, q) in b.evals <==> Granted(s, b, r, q)
  {
    UntouchedClosure(CoreOf(s, a), CoreOf(s, b), touched, unheld, r);
    assert Granted(s, a, r, q) <==> Granted(s, b, r, q);
  }

  // ---- Roles that nobody holds can be deleted at any time ----

  function WithoutRoles(db: Db, dead: set<RoleId>): Db {
    db.(roles := (map r | r in db.roles && r !in dead :: db.roles[r]),
        userHolds := (set h | h in db.userHolds && h.1 !in dead),
        teamHolds := (set h | h in db.teamHolds && h.1 !in dead),
        memberRoles := (set m | m in db.memberRoles && m.1 !in dead),
        evals := (set e | e in db.evals && e.0 !in dead))
  }

  // Deleting roles that no team holds commutes with the closure.
  lemma DeleteUnheldKeepsCorrect(s: Schema, db: Db, dead: set<RoleId>, gone: set<Obj>)
    requires CorrectExcept(s, db, gone) && forall h :: h in db.teamHolds ==> h.1 !in dead
    ensures CorrectExcept(s, WithoutRoles(db, dead), gone)
  {
    var after := WithoutRoles(db, dead);
    var a, b := CoreOf(s, db), CoreOf(s, after);
    assert after.teamHolds == db.teamHolds;
    assert DiffersOnlyAt(a, b, {}, dead);
    forall r | r in after.roles ensures Implied(a, r) == Implied(b, r) {
      UntouchedClosure(a, b, {}, dead, r);
    }
    forall r, x, q | r in after.roles && x in Implied(a, r) ensures Confers(s, db, x, q) <==> Confers(s, after, x, q) {
      HeldUnlessSource(a, r, x);
    }
    forall t, r | IsTeam(s, after.objects, t) ensures (t, r) in after.memberRoles <==> r in MemberRolesOf(b, t) {
      MemberIffImplied(a, r, t);
      MemberIffImplied(b, r, t);
      if r in after.roles {
        forall x | x in Implied(a, r) { HeldUnlessSource(a, r, x); }
      } else if r in MemberRolesOf(b, t) {
        MemberRolesExist(s, after, r, t);
      }
    }
    forall r, q: Perm | r in after.roles && q.obj !in gone ensures (r, q) in after.evals <==> Granted(s, after, r, q) {
      assert Granted(s, db, r, q) <==> Granted(s, after, r, q);
    }
  }

  lemma MemberRolesExist(s: Schema, db: Db, r: RoleId, t: TeamId)
    requires Valid(s, db) && r in MemberRolesOf(CoreOf(s, db), t)
    ensures r in db.roles
  {
    MemberRoleCases(CoreOf(s, db), t, r);
  }
}
