// Deletes that take other objects along: what is under a team goes before the teams,
// the teams before what they sit under. What the handlers need is stashed at the very
// start, before anything is gone.
module Cascades {
  import opened Graphs
  import opened Membership
  import opened Hierarchy
  import opened RbacModel
  import opened Refresh
  import opened Assignments
  import opened Creation
  import opened Deletion
  import opened BatchDeletion

  // A delete of non-team objects spares the rows that nothing clears.
  ghost predicate RowsGo(s: Schema, a: Db, xs: set<Obj>) {
    forall e :: e in a.evals && e.1.obj in xs ==> ParentField(s.reg, e.1.obj.ct).Some? || e.0 in RolesOn(a, xs)
  }

  ghost predicate NoOrganization(s: Schema, xs: set<Obj>) {
    forall x :: x in xs ==> x.ct != s.orgCt
  }

  // The handlers of the teams, with stashes from the state p before the whole delete.
  ghost predicate HandlersStashed(s: Schema, p: Db, a: Db, order: seq<TeamId>, states: seq<Db>) {
    && |states| == |order| + 1 && states[0] == AfterCascade(s, a, TeamsIn(order))
    && forall i :: 0 <= i < |order| ==> Valid(s, states[i]) && Handled(s, p, states[i], states[i + 1], order[i])
  }

  // A whole delete: the objects in below, the teams of order, then the objects in rest.
  ghost predicate CascadeDelete(s: Schema, a: Db, below: set<Obj>, order: seq<TeamId>, rest: set<Obj>, states: seq<Db>,
    final: Db)
  {
    && HandlersStashed(s, a, AfterObjectDelete(s, a, below), order, states)
    && final == AfterObjectDelete(s, states[|order|], rest)
  }

  // Roles on objects that are neither teams nor organizations make nobody a member.
  lemma NoMembership(s: Schema, a: Db, xs: set<Obj>, r: RoleId, u: TeamId)
    requires DeletableObjects(s, a, xs) && NoOrganization(s, xs) && r in RolesOn(a, xs)
    ensures (u, r) !in a.memberRoles
  {
    assert (u, r) in a.memberRoles ==> IsTeam(s, a.objects, (u, r).0);
    MemberRoleCases(CoreOf(s, a), u, r);
    assert forall t :: !GivesTo(CoreOf(s, a), r, t);
  }

  // So deleting them first disturbs no stash.
  lemma StashKept(s: Schema, a: Db, xs: set<Obj>, t: TeamId)
    requires DeletableObjects(s, a, xs) && NoOrganization(s, xs)
    ensures StashedMemberRoles(AfterObjectDelete(s, a, xs), t) == StashedMemberRoles(a, t)
    ensures StashedTeamIds(s, AfterObjectDelete(s, a, xs), t) == StashedTeamIds(s, a, t)
  {
    var b := AfterObjectDelete(s, a, xs);
    forall m | m in a.memberRoles ensures m in b.memberRoles {
      assert m == (m.0, m.1);
      if m.1 in RolesOn(a, xs) { NoMembership(s, a, xs, m.1, m.0); }
    }
    assert b.memberRoles == a.memberRoles;
    forall h, m | h in a.teamHolds && m in a.memberRoles && m.1 == h.1
      ensures h in b.teamHolds && h.1 !in RolesOn(a, xs)
    {
      assert m == (m.0, h.1);
      if h.1 in RolesOn(a, xs) { NoMembership(s, a, xs, h.1, m.0); }
    }
  }

  lemma SameHandlers(s: Schema, a: Db, below: set<Obj>, order: seq<TeamId>, states: seq<Db>)
    requires DeletableObjects(s, a, below) && NoOrganization(s, below)
    requires HandlersStashed(s, a, AfterObjectDelete(s, a, below), order, states)
    ensures Handlers(s, AfterObjectDelete(s, a, below), order, states)
  {
    var b := AfterObjectDelete(s, a, below);
    forall i | 0 <= i < |order| ensures Handled(s, b, states[i], states[i + 1], order[i]) {
      StashKept(s, a, below, order[i]);
      assert Handled(s, a, states[i], states[i + 1], order[i]);
    }
  }

  // ---- Deleting objects from a state with rows that nothing grants ----

  // Besides what an object delete itself leaves, exactly the wrong rows that neither belong to a
  // role on the objects nor are on one of them stay.
  ghost predicate OthersGranted(s: Schema, g: Db, xs: set<Obj>)
    requires Valid(s, g)
  {
    forall r, q: Perm :: r in g.roles && r !in RolesOn(g, xs) && q.obj !in xs && (r, q) in g.evals ==>
      Granted(s, g, r, q)
  }

  // All but the evaluation rows is right, and what is granted is there.
  ghost predicate RowsSuffice(s: Schema, g: Db) {
    Valid(s, g) && MembersCorrect(s, g) && forall r, q :: r in g.roles && Granted(s, g, r, q) ==> (r, q) in g.evals
  }

  lemma GrantsWithoutObjects(s: Schema, g: Db, xs: set<Obj>)
    requires WellFormed(s) && RowsSuffice(s, g)
    requires NothingUnder(g.objects, xs) && forall x :: x in xs ==> x.ct != s.teamCt
    ensures var f := AfterObjectDelete(s, g, xs);
            Valid(s, f) && MembersCorrect(s, f) && forall r, q: Perm :: r in f.roles ==>
              (Granted(s, f, r, q) <==> q.obj !in xs && Granted(s, g, r, q))
  {
    var f, g' := AfterObjectDelete(s, g, xs), RewriteEvals(s, g, g.roles.Keys);
    EvalsRewrittenValid(s, g, g', g.roles.Keys);
    assert CoreOf(s, g') == CoreOf(s, g);
    ConfersSame(s, g, g');
    forall r, q | r in g.roles ensures (r, q) in g'.evals <==> Granted(s, g, r, q) { ExpectedIsGranted(s, g, r, q); }
    assert Correct(s, g');
    AfterObjectDeleteNearlyRight(s, g', xs);
    var b := g'.(objects := WithoutObjs(g'.objects, xs));
    var c := WithoutRoles(b, RolesOn(b, xs));
    assert f == c.(evals := f.evals);
    assert CoreOf(s, f) == CoreOf(s, c);
    ConfersSame(s, c, f);
    forall r, q: Perm | r in f.roles ensures Granted(s, f, r, q) <==> q.obj !in xs && Granted(s, g, r, q) {
      if q.obj in xs {
        NothingGrantedOnGone(s, f, xs, r, q);
      } else {
        assert Granted(s, f, r, q) <==> Granted(s, c, r, q);
        assert (r, q) in c.evals <==> (r, q) in g'.evals;
      }
    }
  }

  lemma ObjectDeleteFromIff(s: Schema, g: Db, xs: set<Obj>)
    requires WellFormed(s) && RowsSuffice(s, g)
    requires NothingUnder(g.objects, xs) && forall x :: x in xs ==> x.ct != s.teamCt
    ensures Correct(s, AfterObjectDelete(s, g, xs)) <==> RowsGo(s, g, xs) && OthersGranted(s, g, xs)
  {
    var f := AfterObjectDelete(s, g, xs);
    GrantsWithoutObjects(s, g, xs);
    assert RolesOn(g.(objects := WithoutObjs(g.objects, xs)), xs) == RolesOn(g, xs);
    assert forall r :: r in f.roles <==> r in g.roles && r !in RolesOn(g, xs);
    forall r, q: Perm | r in f.roles
      ensures (r, q) in f.evals <==> (r, q) in g.evals && q.obj !in ClearedOn(s, xs)
    {
    }
    if RowsGo(s, g, xs) && OthersGranted(s, g, xs) {
      forall r, q: Perm | r in f.roles ensures (r, q) in f.evals <==> Granted(s, f, r, q) {
        assert (r, q) in g.evals ==> (r, q).0 !in RolesOn(g, xs);
      }
    } else if !RowsGo(s, g, xs) {
      var e :| e in g.evals && e.1.obj in xs && ParentField(s.reg, e.1.obj.ct).None? && e.0 !in RolesOn(g, xs);
      assert (e.0, e.1) in f.evals && e.0 in f.roles && !Granted(s, f, e.0, e.1);
    }
  }

  // ---- The whole delete ----

  // The last readings of the handlers, apart from roles that go with the rest; a row on the rest
  // is cleared where its type has a parent field.
  ghost predicate ReadingsRightBut(s: Schema, a: Db, order: seq<TeamId>, rest: set<Obj>)
    requires Valid(s, AfterCascade(s, a, TeamsIn(order)))
  {
    var b := AfterCascade(s, a, TeamsIn(order));
    forall r, q: Perm :: (
      && r in b.roles && r !in Gone(s, b, order, |order|) && r !in RolesOn(b, rest)
      && RowNow(s, a, b, order, |order|, r, q)) ==>
        if q.obj in rest then ParentField(s.reg, q.obj.ct).Some? else RightOrCleared(s, b, TeamsIn(order), r, q)
  }

  // The delete is the three deletes one after the other. The first two leave both tables correct
  // exactly when the last readings of the handlers are right; the whole does exactly when they are
  // right apart from what the third takes along, and no row on an object of rest is left.
  lemma CascadeDeleteCorrectIff(s: Schema, a: Db, below: set<Obj>, order: seq<TeamId>, rest: set<Obj>,
    states: seq<Db>, final: Db)
    requires DeletableObjects(s, a, below) && NoOrganization(s, below)
    requires CascadeDelete(s, a, below, order, rest, states, final) && NoTeamTwice(order)
    requires var b := AfterObjectDelete(s, a, below);
             DeletableTeams(s, b, TeamsIn(order)) && Valid(s, AfterCascade(s, b, TeamsIn(order)))
    requires NothingUnder(states[|order|].objects, rest) && forall x :: x in rest ==> x.ct != s.teamCt
    ensures Correct(s, states[|order|]) <==> LastReadingsRight(s, AfterObjectDelete(s, a, below), order)
    ensures Correct(s, final) <==> ReadingsRightBut(s, AfterObjectDelete(s, a, below), order, rest)
  {
    var p, g := AfterObjectDelete(s, a, below), states[|order|];
    var b := AfterCascade(s, p, TeamsIn(order));
    SameHandlers(s, a, below, order, states);
    BatchDeleteCorrectIff(s, p, order, states);
    StatesAreExact(s, p, b, order, states, |order|);
    EndOfBatch(s, p, b, order, g, rest);
    ObjectDeleteFromIff(s, g, rest);
  }

  lemma EndOfBatch(s: Schema, p: Db, b: Db, order: seq<TeamId>, g: Db, rest: set<Obj>)
    requires Batch(s, p, order, b) && Exact(s, p, b, order, |order|, g)
    requires forall x :: x in rest ==> x.ct != s.teamCt
    ensures RowsSuffice(s, g)
    ensures RowsGo(s, g, rest) && OthersGranted(s, g, rest) <==> ReadingsRightBut(s, p, order, rest)
  {
    MembersEndCorrect(s, p, b, order, g);
    AllDone(order);
    forall r, q | r in g.roles
      ensures Granted(s, g, r, q) ==> (r, q) in g.evals
      ensures (r, q) in g.evals && !Granted(s, g, r, q) <==>
              RowNow(s, p, b, order, |order|, r, q) && !RightOrCleared(s, b, TeamsIn(order), r, q)
    {
      RowEndsRightIff(s, p, b, order, g, r, q);
    }
    forall r, q: Perm | r in g.roles && q.obj in rest
      ensures (r, q) in g.evals <==> RowNow(s, p, b, order, |order|, r, q)
    {
    }
    assert forall r :: r in RolesOn(g, rest) <==> r in g.roles && r in RolesOn(b, rest);
    RowsGoByRow(s, g, rest);
  }

  lemma RowsGoByRow(s: Schema, g: Db, rest: set<Obj>)
    requires Valid(s, g)
    ensures RowsGo(s, g, rest) <==> forall r, q: Perm ::
              r in g.roles && r !in RolesOn(g, rest) && q.obj in rest && (r, q) in g.evals ==>
                ParentField(s.reg, q.obj.ct).Some?
  {
    if RowsGo(s, g, rest) {
      forall r, q: Perm | r in g.roles && r !in RolesOn(g, rest) && q.obj in rest && (r, q) in g.evals
        ensures ParentField(s.reg, q.obj.ct).Some?
      {
        assert (r, q).1.obj in rest;
      }
    } else {
      var e :| e in g.evals && e.1.obj in rest && ParentField(s.reg, e.1.obj.ct).None? && e.0 !in RolesOn(g, rest);
      var r, q := e.0, e.1;
      assert r in g.roles && r !in RolesOn(g, rest) && q.obj in rest && (r, q) in g.evals;
    }
  }
}
