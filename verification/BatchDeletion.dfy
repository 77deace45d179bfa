// Several teams deleted by one query: all of them are gone before the first of the
// handlers runs, and the handlers run one after the other.
module BatchDeletion {
  import opened Graphs
  import opened Membership
  import opened Hierarchy
  import opened RbacModel
  import opened Refresh
  import opened Assignments
  import opened Creation
  import opened Deletion

  // The handler of t, with what was stashed in the state a before the delete.
  ghost predicate Handled(s: Schema, a: Db, g: Db, h: Db, t: TeamId)
    requires Valid(s, g)
  {
    exists c, d :: MembersRewritten(s, g, c, StashedTeamIds(s, a, t)) &&
      EvalsRewritten(s, c, d, NamedBy(s, a, g, t)) && h == AfterTeamDelete(s, d, t)
  }

  function TeamsIn(order: seq<TeamId>): set<TeamId> {
    set t | t in order
  }

  ghost predicate NoTeamTwice(order: seq<TeamId>) {
    forall i, j :: 0 <= i < j < |order| ==> order[i] != order[j]
  }

  // The delete of the teams of order, and their handlers in that order.
  ghost predicate Handlers(s: Schema, a: Db, order: seq<TeamId>, states: seq<Db>) {
    && |states| == |order| + 1 && states[0] == AfterCascade(s, a, TeamsIn(order))
    && forall i :: 0 <= i < |order| ==> Valid(s, states[i]) && Handled(s, a, states[i], states[i + 1], order[i])
  }

  // ---- What the delete itself does ----

  ghost predicate Member(s: Schema, b: Db, u: TeamId, r: RoleId)
    requires Valid(s, b)
  {
    r in MemberRolesOf(CoreOf(s, b), u)
  }

  // Surviving teams only lose member roles.
  lemma MembersShrink(s: Schema, a: Db, ts: set<TeamId>, u: TeamId, r: RoleId)
    requires DeletableTeams(s, a, ts) && Valid(s, AfterCascade(s, a, ts)) && u !in ts
    requires Member(s, AfterCascade(s, a, ts), u, r)
    ensures Member(s, a, u, r)
  {
    var ca, cb := CoreOf(s, a), CoreOf(s, AfterCascade(s, a, ts));
    MemberIffImplied(cb, r, u);
    MemberIffImplied(ca, r, u);
    ReachIsClosed(RoleGraph(ca), r);
    forall e | e in RoleGraph(cb) ensures e in RoleGraph(ca) {
      RoleEdge(cb, e.0, e.1);
      var h :| h in cb.holds && h.1 == e.1 && GivesTo(cb, e.0, h.0);
      CascadeTargets(s, a, ts, e.0, h.0);
      RoleEdge(ca, e.0, e.1);
    }
    ReachIsLeast(RoleGraph(cb), r, Reach(RoleGraph(ca), r));
    var x :| x in Implied(cb, r) && GivesTo(cb, x, u);
    CascadeTargets(s, a, ts, x, u);
  }

  // Roles that the handlers will delete: held by nobody, or on a deleted team.
  function DeadRoles(s: Schema, b: Db, ts: set<TeamId>): set<RoleId> {
    Orphans(b, b.roles.Keys) + RolesOn(b, TeamObjs(s, ts))
  }

  // g is b without some roles, whatever its derived rows are.
  ghost predicate Reduced(s: Schema, b: Db, g: Db, dead: set<RoleId>) {
    Valid(s, g) && g == WithoutRoles(b, dead).(memberRoles := g.memberRoles, evals := g.evals)
  }

  // ---- Dropping those roles changes nothing for the others ----

  lemma GivesOnlyItsTeam(s: Schema, b: Db, ts: set<TeamId>, r: RoleId, u: TeamId)
    requires Valid(s, b) && r in RolesOn(b, TeamObjs(s, ts)) && GivesTo(CoreOf(s, b), r, u)
    ensures u in ts
  {
    var t :| t in ts && b.roles[r].target == TeamObj(s, t);
  }

  lemma DeadAreDeadEnds(s: Schema, b: Db, ts: set<TeamId>, dead: set<RoleId>)
    requires Valid(s, b) && dead <= DeadRoles(s, b, ts) && forall u :: u in ts ==> !IsTeam(s, b.objects, u)
    ensures DeadEnds(CoreOf(s, b), dead)
    ensures forall k, u :: k in b.teamHolds && k.1 in dead && IsTeam(s, b.objects, u) ==> !GivesTo(CoreOf(s, b), k.1, u)
  {
    forall k, u | k in b.teamHolds && k.1 in dead && IsTeam(s, b.objects, u)
      ensures !GivesTo(CoreOf(s, b), k.1, u)
    {
      if GivesTo(CoreOf(s, b), k.1, u) { GivesOnlyItsTeam(s, b, ts, k.1, u); }
    }
  }

  lemma ReducedCore(s: Schema, b: Db, g: Db, dead: set<RoleId>)
    requires Valid(s, b) && Reduced(s, b, g, dead)
    ensures CoreWithout(CoreOf(s, b), CoreOf(s, g), dead)
  {
  }

  // The situation all the lemmas below are about.
  ghost predicate Setting(s: Schema, a: Db, ts: set<TeamId>, b: Db, g: Db, dead: set<RoleId>) {
    && DeletableTeams(s, a, ts) && b == AfterCascade(s, a, ts) && Valid(s, b)
    && Reduced(s, b, g, dead) && dead <= DeadRoles(s, b, ts)
  }

  lemma SettingTeams(s: Schema, a: Db, ts: set<TeamId>, b: Db, g: Db, dead: set<RoleId>)
    requires Setting(s, a, ts, b, g, dead)
    ensures forall u :: IsTeam(s, b.objects, u) <==> IsTeam(s, a.objects, u) && u !in ts
    ensures DeadEnds(CoreOf(s, b), dead) && CoreWithout(CoreOf(s, b), CoreOf(s, g), dead)
    ensures TeamObjs(s, ts) !! b.objects.Keys
  {
    CascadeIsValid(s, a, ts);
    DeadAreDeadEnds(s, b, ts, dead);
    ReducedCore(s, b, g, dead);
  }

  lemma SameMembers(s: Schema, a: Db, ts: set<TeamId>, b: Db, g: Db, dead: set<RoleId>, u: TeamId, r: RoleId)
    requires Setting(s, a, ts, b, g, dead) && r !in dead && IsTeam(s, b.objects, u)
    ensures Member(s, g, u, r) <==> Member(s, b, u, r)
  {
    SettingTeams(s, a, ts, b, g, dead);
    DeadAreDeadEnds(s, b, ts, dead);
    SameMemberWithout(CoreOf(s, b), CoreOf(s, g), dead, r, u);
  }

  // A dropped role that somebody's team holds confers nothing on the objects that stay.
  lemma DeadConfersNothing(s: Schema, a: Db, ts: set<TeamId>, b: Db, k: (TeamId, RoleId), q: Perm)
    requires DeletableTeams(s, a, ts) && b == AfterCascade(s, a, ts)
    requires k in b.teamHolds && k.1 in DeadRoles(s, b, ts) && q.obj !in TeamObjs(s, ts)
    ensures !Confers(s, b, k.1, q)
  {
    CascadeConfers(s, a, ts, k.1, q);
    if Confers(s, a, k.1, q) { RoleConfersOnlyThere(s, a, TeamObjs(s, ts), k.1, q); }
  }

  lemma SameGrants(s: Schema, a: Db, ts: set<TeamId>, b: Db, g: Db, dead: set<RoleId>, r: RoleId, q: Perm)
    requires Setting(s, a, ts, b, g, dead) && r in b.roles && r !in dead && q.obj !in TeamObjs(s, ts)
    ensures Granted(s, g, r, q) <==> Granted(s, b, r, q)
  {
    SettingTeams(s, a, ts, b, g, dead);
    DeadEndsDropOut(CoreOf(s, b), CoreOf(s, g), dead, r);
    forall y | y in Implied(CoreOf(s, b), r)
      ensures Confers(s, b, y, q) <==> y !in dead && Confers(s, g, y, q)
    {
      HeldUnlessSource(CoreOf(s, b), r, y);
      if k :| k in b.teamHolds && k.1 == y && y in dead { DeadConfersNothing(s, a, ts, b, k, q); }
    }
  }

  lemma SameScope(s: Schema, a: Db, ts: set<TeamId>, b: Db, g: Db, dead: set<RoleId>, ids: set<TeamId>, u: TeamId)
    requires Setting(s, a, ts, b, g, dead) && IsTeam(s, b.objects, u)
    ensures InScope(CoreOf(s, g), ids, u) <==> InScope(CoreOf(s, b), ids, u)
  {
    SettingTeams(s, a, ts, b, g, dead);
    DeadAreDeadEnds(s, b, ts, dead);
    var gb, gg := ParentGraph(CoreOf(s, b)), ParentGraph(CoreOf(s, g));
    forall v, p | IsTeam(s, b.objects, v) ensures (v, p) in gb <==> (v, p) in gg {
      ParentEdge(CoreOf(s, b), v, p);
      ParentEdge(CoreOf(s, g), v, p);
    }
    forall p | p in Reach(gb, u) ensures IsTeam(s, b.objects, p) { AncestorsAreTeams(s, b, u, p); }
    forall p | p in Reach(gg, u) ensures IsTeam(s, b.objects, p) { AncestorsAreTeams(s, g, u, p); }
    ReachIsClosed(gb, u);
    ReachIsClosed(gg, u);
    ReachIsLeast(gb, u, Reach(gg, u));
    ReachIsLeast(gg, u, Reach(gb, u));
  }

  // ---- What a handler reads ----

  // The row of u and r once everything below the stash has been rewritten.
  ghost predicate Stored(s: Schema, b: Db, stash: set<TeamId>, u: TeamId, r: RoleId)
    requires Valid(s, b)
  {
    (u, r) in b.memberRoles && (InScope(CoreOf(s, b), stash, u) ==> Member(s, b, u, r))
  }

  // So a recompute of r writes q.
  ghost predicate SeesThrough(s: Schema, b: Db, stash: set<TeamId>, r: RoleId, q: Perm)
    requires Valid(s, b)
  {
    Confers(s, b, r, q) || exists h :: h in b.teamHolds && Stored(s, b, stash, h.0, r) && Confers(s, b, h.1, q)
  }

  // The handler of t, run first, writes a row that nothing grants any more, for a role that stays.
  ghost predicate WrongRow(s: Schema, a: Db, ts: set<TeamId>, t: TeamId, r: RoleId, q: Perm)
    requires Valid(s, AfterCascade(s, a, ts))
  {
    var b := AfterCascade(s, a, ts);
    && r in NamedBy(s, a, b, t) && r in b.roles && r !in DeadRoles(s, b, ts) && q.obj !in TeamObjs(s, ts)
    && SeesThrough(s, b, StashedTeamIds(s, a, t), r, q) && !Granted(s, b, r, q)
  }

  // Run first, the handler of t reads nothing that is outdated.
  ghost predicate SeesRight(s: Schema, a: Db, ts: set<TeamId>, t: TeamId)
    requires Valid(s, AfterCascade(s, a, ts))
  {
    forall r, q :: !WrongRow(s, a, ts, t, r, q)
  }

  // ---- What the handlers leave, computed from the state before them ----

  // The teams whose handlers run before the i-th.
  function Done(order: seq<TeamId>, i: nat): set<TeamId>
    requires i <= |order|
  {
    TeamsIn(order[..i])
  }

  // The roles dropped by then: with the first handler all that nobody holds, with each those on its team.
  function Gone(s: Schema, b: Db, order: seq<TeamId>, i: nat): set<RoleId>
    requires i <= |order|
  {
    if i == 0 then {} else Orphans(b, b.roles.Keys) + RolesOn(b, TeamObjs(s, Done(order, i)))
  }

  // The handlers before the i-th have rewritten the member rows below this.
  function StashBefore(s: Schema, a: Db, order: seq<TeamId>, i: nat): set<TeamId>
    requires i <= |order|
  {
    AllStashed(s, a, Done(order, i))
  }

  // The i-th handler recomputes r: the row that makes r an ancestor of the team is there by
  // then, or a team that holds r is stored for a stashed role that is not dropped yet.
  ghost predicate Names(s: Schema, a: Db, b: Db, order: seq<TeamId>, i: nat, r: RoleId)
    requires Valid(s, b) && i < |order|
    decreases i, 2
  {
    || RowNow(s, a, b, order, i, r, MemberPerm(s, order[i]))
    || exists h, m :: h in b.teamHolds && h.1 == r && m in StashedMemberRoles(a, order[i]) &&
         m !in Gone(s, b, order, i) && Stored(s, b, StashBefore(s, a, order, i), h.0, m)
  }

  // The last handler before the i-th that recomputes r.
  ghost function LastNaming(s: Schema, a: Db, b: Db, order: seq<TeamId>, i: nat, r: RoleId): (k: Option<nat>)
    requires Valid(s, b) && i <= |order|
    ensures k.Some? ==> k.value < i
    decreases i, 0
  {
    if i == 0 then None
    else if Names(s, a, b, order, i - 1, r) then Some(i - 1)
    else LastNaming(s, a, b, order, i - 1, r)
  }

  // What the k-th handler reads for r.
  ghost predicate Reading(s: Schema, a: Db, b: Db, order: seq<TeamId>, k: nat, r: RoleId, q: Perm)
    requires Valid(s, b) && k < |order|
  {
    q.obj !in TeamObjs(s, Done(order, k)) && SeesThrough(s, b, StashBefore(s, a, order, k + 1), r, q)
  }

  // The rows of r before the i-th handler: those of its last reading, or those from before the delete.
  ghost predicate RowNow(s: Schema, a: Db, b: Db, order: seq<TeamId>, i: nat, r: RoleId, q: Perm)
    requires Valid(s, b) && i <= |order|
    decreases i, 1
  {
    match LastNaming(s, a, b, order, i, r)
    case None => (r, q) in b.evals
    case Some(k) => Reading(s, a, b, order, k, r, q)
  }

  // A row of a surviving role is right if it is granted, or goes with the team it is on.
  ghost predicate RightOrCleared(s: Schema, b: Db, ts: set<TeamId>, r: RoleId, q: Perm)
    requires Valid(s, b)
  {
    if q.obj in TeamObjs(s, ts) then ParentField(s.reg, s.teamCt).Some? else Granted(s, b, r, q)
  }

  // The last readings of all handlers, run in this order, grant only what is granted.
  ghost predicate LastReadingsRight(s: Schema, a: Db, order: seq<TeamId>)
    requires Valid(s, AfterCascade(s, a, TeamsIn(order)))
  {
    var b := AfterCascade(s, a, TeamsIn(order));
    forall r, q :: r in b.roles && r !in Gone(s, b, order, |order|) && RowNow(s, a, b, order, |order|, r, q) ==>
      RightOrCleared(s, b, TeamsIn(order), r, q)
  }

  // ---- The state between two handlers is exactly that ----

  ghost predicate Batch(s: Schema, a: Db, order: seq<TeamId>, b: Db) {
    && DeletableTeams(s, a, TeamsIn(order)) && NoTeamTwice(order)
    && b == AfterCascade(s, a, TeamsIn(order)) && Valid(s, b)
  }

  ghost predicate ExactMembers(s: Schema, b: Db, g: Db, dead: set<RoleId>, stash: set<TeamId>)
    requires Valid(s, b)
  {
    forall u, r :: IsTeam(s, b.objects, u) && r in b.roles && r !in dead ==>
      ((u, r) in g.memberRoles <==> Stored(s, b, stash, u, r))
  }

  ghost predicate ExactRows(s: Schema, a: Db, b: Db, order: seq<TeamId>, i: nat, g: Db)
    requires Valid(s, b) && i <= |order|
  {
    forall r, q :: r in b.roles && r !in Gone(s, b, order, i) ==>
      ((r, q) in g.evals <==>
       RowNow(s, a, b, order, i, r, q) && q.obj !in ClearedOn(s, TeamObjs(s, Done(order, i))))
  }

  ghost predicate Exact(s: Schema, a: Db, b: Db, order: seq<TeamId>, i: nat, g: Db)
    requires Batch(s, a, order, b) && i <= |order|
  {
    && Setting(s, a, TeamsIn(order), b, g, Gone(s, b, order, i))
    && ExactMembers(s, b, g, Gone(s, b, order, i), StashBefore(s, a, order, i))
    && ExactRows(s, a, b, order, i, g)
  }

  lemma DoneGrows(order: seq<TeamId>, i: nat)
    requires i < |order| && NoTeamTwice(order)
    ensures Done(order, i + 1) == Done(order, i) + {order[i]} && order[i] !in Done(order, i)
    ensures Done(order, i) <= TeamsIn(order) && order[i] in TeamsIn(order)
  {
    assert order[..i + 1] == order[..i] + [order[i]];
  }

  lemma AllDone(order: seq<TeamId>)
    ensures Done(order, |order|) == TeamsIn(order) && Done(order, 0) == {}
  {
    assert order[..|order|] == order;
  }

  lemma BeforeHandlers(s: Schema, a: Db, order: seq<TeamId>, b: Db)
    requires Batch(s, a, order, b)
    ensures Exact(s, a, b, order, 0, b)
  {
    AllDone(order);
    assert WithoutRoles(b, {}) == b by {
      assert WithoutRoles(b, {}).roles == b.roles && WithoutRoles(b, {}).userHolds == b.userHolds;
      assert WithoutRoles(b, {}).teamHolds == b.teamHolds && WithoutRoles(b, {}).memberRoles == b.memberRoles;
      assert WithoutRoles(b, {}).evals == b.evals;
    }
    assert StashBefore(s, a, order, 0) == {} && TeamObjs(s, {}) == {};
  }

  // Its rewrite of member_roles.
  lemma MembersStep(s: Schema, a: Db, ts: set<TeamId>, b: Db, g: Db, dead: set<RoleId>, stash: set<TeamId>, t: TeamId,
    c: Db)
    requires Setting(s, a, ts, b, g, dead) && ExactMembers(s, b, g, dead, stash)
    requires MembersRewritten(s, g, c, StashedTeamIds(s, a, t))
    ensures Setting(s, a, ts, b, c, dead) && ExactMembers(s, b, c, dead, stash + StashedTeamIds(s, a, t))
  {
    var more := StashedTeamIds(s, a, t);
    SettingTeams(s, a, ts, b, g, dead);
    forall u, r | IsTeam(s, b.objects, u) && r in b.roles && r !in dead
      ensures (u, r) in c.memberRoles <==> Stored(s, b, stash + more, u, r)
    {
      SameScope(s, a, ts, b, g, dead, more, u);
      SameMembers(s, a, ts, b, g, dead, u, r);
      if Member(s, b, u, r) { MemberWasStored(s, a, ts, b, stash, u, r); }
    }
  }

  lemma MemberWasStored(s: Schema, a: Db, ts: set<TeamId>, b: Db, stash: set<TeamId>, u: TeamId, r: RoleId)
    requires DeletableTeams(s, a, ts) && b == AfterCascade(s, a, ts) && Valid(s, b) && IsTeam(s, b.objects, u)
    requires Member(s, b, u, r)
    ensures Stored(s, b, stash, u, r)
  {
    CascadeIsValid(s, a, ts);
    MembersShrink(s, a, ts, u, r);
  }

  // A role on an object that is gone confers nothing on another object.
  lemma OnlyOnItself(s: Schema, b: Db, y: RoleId, q: Perm)
    requires Valid(s, b) && y in b.roles && b.roles[y].target !in b.objects && Confers(s, b, y, q)
    ensures q.obj == b.roles[y].target
  {
    GrantsIsDirect(s, b.objects, b.roles[y], q);
    if b.roles[y].target in Reach(ObjectGraph(b.objects), q.obj) {
      AncestorsExist(s.reg, b.objects, q.obj, b.roles[y].target);
    }
  }

  // The roles of dead are those dropped with the handlers of done.
  ghost predicate DroppedWith(s: Schema, b: Db, dead: set<RoleId>, done: set<TeamId>) {
    RolesOn(b, TeamObjs(s, done)) <= dead <= DeadRoles(s, b, done)
  }

  // Its recompute of r.
  lemma RecomputeReads(s: Schema, a: Db, ts: set<TeamId>, b: Db, c: Db, dead: set<RoleId>, done: set<TeamId>,
    stash: set<TeamId>, r: RoleId, q: Perm)
    requires Setting(s, a, ts, b, c, dead) && ExactMembers(s, b, c, dead, stash) && done <= ts
    requires DroppedWith(s, b, dead, done) && r in b.roles && r !in dead
    ensures ExpectedHas(s, c, r, q) <==> q.obj !in TeamObjs(s, done) && SeesThrough(s, b, stash, r, q)
  {
    SettingTeams(s, a, ts, b, c, dead);
    assert TeamObjs(s, done) <= TeamObjs(s, ts);
    forall x ensures Confers(s, c, x, q) <==> Confers(s, b, x, q) && x !in dead {}
    if ExpectedHas(s, c, r, q) {
      var x :| Hop(c, r, x) && Confers(s, c, x, q);
      if q.obj in TeamObjs(s, done) { NothingConferredOnGone(s, c, TeamObjs(s, done), x, q); }
      HopIsStored(s, b, c, dead, stash, r, x, q);
    }
    if q.obj !in TeamObjs(s, done) && SeesThrough(s, b, stash, r, q) {
      StoredIsHop(s, b, c, dead, done, stash, r, q);
    }
  }

  lemma HopIsStored(s: Schema, b: Db, c: Db, dead: set<RoleId>, stash: set<TeamId>, r: RoleId, x: RoleId, q: Perm)
    requires Valid(s, b) && Reduced(s, b, c, dead) && ExactMembers(s, b, c, dead, stash) && r in b.roles && r !in dead
    requires Hop(c, r, x) && Confers(s, b, x, q)
    ensures SeesThrough(s, b, stash, r, q)
  {
    if x != r {
      var h :| h in c.teamHolds && (h.0, r) in c.memberRoles && h.1 == x;
      assert h in b.teamHolds && Stored(s, b, stash, h.0, r);
    }
  }

  lemma StoredIsHop(s: Schema, b: Db, c: Db, dead: set<RoleId>, done: set<TeamId>, stash: set<TeamId>, r: RoleId,
    q: Perm)
    requires Valid(s, b) && Reduced(s, b, c, dead) && ExactMembers(s, b, c, dead, stash) && r in b.roles && r !in dead
    requires TeamObjs(s, done) !! b.objects.Keys && DroppedWith(s, b, dead, done)
    requires q.obj !in TeamObjs(s, done) && SeesThrough(s, b, stash, r, q)
    requires forall x :: Confers(s, c, x, q) <==> Confers(s, b, x, q) && x !in dead
    ensures ExpectedHas(s, c, r, q)
  {
    if Confers(s, b, r, q) {
      assert Hop(c, r, r);
    } else {
      var h :| h in b.teamHolds && Stored(s, b, stash, h.0, r) && Confers(s, b, h.1, q);
      if h.1 in dead {
        assert h.1 in RolesOn(b, TeamObjs(s, done));
        OnlyOnItself(s, b, h.1, q);
      }
      assert h in c.teamHolds && (h.0, r) in c.memberRoles && Hop(c, r, h.1);
    }
  }

  // The roles it recomputes.
  lemma NamedExactly(s: Schema, a: Db, b: Db, order: seq<TeamId>, i: nat, g: Db, r: RoleId)
    requires Batch(s, a, order, b) && i < |order| && Exact(s, a, b, order, i, g)
    requires r in b.roles && r !in Gone(s, b, order, i)
    ensures r in NamedBy(s, a, g, order[i]) <==> Names(s, a, b, order, i, r)
  {
    var t := order[i];
    DoneGrows(order, i);
    AncestorExactly(s, g, r, t);
    assert TeamObj(s, t) !in TeamObjs(s, Done(order, i));
    assert (r, MemberPerm(s, t)) in g.evals <==> RowNow(s, a, b, order, i, r, MemberPerm(s, t));
    DescendentExactly(s, a, b, order, i, g, r);
  }

  lemma AncestorExactly(s: Schema, g: Db, r: RoleId, t: TeamId)
    ensures r in BulkAncestors(s, g, {t}) <==> (r, MemberPerm(s, t)) in g.evals
  {
    if r in BulkAncestors(s, g, {t}) {
      var e :| e in g.evals && e.1.codename == s.teamPermission && e.1.obj.ct == s.teamCt && e.1.obj.pk in {t} &&
        e.0 == r;
      assert e == (r, MemberPerm(s, t));
    }
    if (r, MemberPerm(s, t)) in g.evals {
      var e := (r, MemberPerm(s, t));
      assert e in g.evals && e.1.codename == s.teamPermission && e.1.obj.ct == s.teamCt && e.1.obj.pk in {t} &&
        e.0 == r;
    }
  }

  lemma DescendentExactly(s: Schema, a: Db, b: Db, order: seq<TeamId>, i: nat, g: Db, r: RoleId)
    requires Batch(s, a, order, b) && i < |order| && r !in Gone(s, b, order, i)
    requires Setting(s, a, TeamsIn(order), b, g, Gone(s, b, order, i))
    requires ExactMembers(s, b, g, Gone(s, b, order, i), StashBefore(s, a, order, i))
    ensures r in Descendents(g, StashedMemberRoles(a, order[i])) <==>
            exists h, m :: h in b.teamHolds && h.1 == r && m in StashedMemberRoles(a, order[i]) &&
              m !in Gone(s, b, order, i) && Stored(s, b, StashBefore(s, a, order, i), h.0, m)
  {
    var ms, dead, stash := StashedMemberRoles(a, order[i]), Gone(s, b, order, i), StashBefore(s, a, order, i);
    forall h, m | h in g.teamHolds && (h.0, m) in g.memberRoles
      ensures h in b.teamHolds && m !in dead && Stored(s, b, stash, h.0, m)
    {
      assert (h.0, m).1 in g.roles;
    }
    forall h, m | h in b.teamHolds && h.1 == r && m !in dead && Stored(s, b, stash, h.0, m)
      ensures h in g.teamHolds && (h.0, m) in g.memberRoles
    {
      assert (h.0, m).1 in b.roles;
    }
  }

  // ---- What follows the recompute ----

  // The roles it drops besides those already gone.
  function Dropped(s: Schema, d: Db, t: TeamId): set<RoleId> {
    Orphans(d, d.roles.Keys) + RolesOn(WithoutRoles(d, Orphans(d, d.roles.Keys)), {TeamObj(s, t)})
  }

  // A role without holders lost none: those dropped so far took theirs along.
  lemma OrphansStay(s: Schema, a: Db, ts: set<TeamId>, b: Db, d: Db, dead: set<RoleId>)
    requires Setting(s, a, ts, b, d, dead)
    ensures Orphans(d, d.roles.Keys) == Orphans(b, b.roles.Keys) - dead
  {
    forall r | r in Orphans(d, d.roles.Keys) ensures r in Orphans(b, b.roles.Keys) {
      assert forall k :: k in b.teamHolds && k.1 == r ==> k in d.teamHolds;
      assert forall k :: k in b.userHolds && k.1 == r ==> k in d.userHolds;
    }
  }

  lemma TailTables(s: Schema, b: Db, d: Db, dead: set<RoleId>, t: TeamId)
    requires Reduced(s, b, d, dead)
    ensures Reduced(s, b, AfterTeamDelete(s, d, t), dead + Dropped(s, d, t))
  {
    var h, kept := AfterTeamDelete(s, d, t), WithoutRoles(b, dead + Dropped(s, d, t));
    assert h.roles == kept.roles && h.userHolds == kept.userHolds && h.teamHolds == kept.teamHolds &&
      h.objects == kept.objects;
  }

  lemma TailIsReduced(s: Schema, a: Db, ts: set<TeamId>, b: Db, d: Db, dead: set<RoleId>, t: TeamId)
    requires Setting(s, a, ts, b, d, dead) && t in ts
    ensures Setting(s, a, ts, b, AfterTeamDelete(s, d, t), dead + Dropped(s, d, t))
    ensures Orphans(b, b.roles.Keys) <= dead + Dropped(s, d, t)
    ensures RolesOn(AfterTeamDelete(s, d, t), {TeamObj(s, t)}) == {}
  {
    var h := AfterTeamDelete(s, d, t);
    var now := dead + Dropped(s, d, t);
    TailTables(s, b, d, dead, t);
    OrphansStay(s, a, ts, b, d, dead);
    assert TeamObj(s, t) in TeamObjs(s, ts);
  }

  lemma DropsExactly(s: Schema, a: Db, order: seq<TeamId>, b: Db, i: nat, d: Db)
    requires Batch(s, a, order, b) && i < |order| && Setting(s, a, TeamsIn(order), b, d, Gone(s, b, order, i))
    ensures Gone(s, b, order, i) + Dropped(s, d, order[i]) == Gone(s, b, order, i + 1)
  {
    var dead, t := Gone(s, b, order, i), order[i];
    DoneGrows(order, i);
    OrphansStay(s, a, TeamsIn(order), b, d, dead);
    TeamObjsGrow(s, Done(order, i), t);
    forall r ensures r in dead + Dropped(s, d, t) <==> r in Gone(s, b, order, i + 1) {
      if r in b.roles && b.roles[r].target == TeamObj(s, t) && r !in dead && r !in Orphans(b, b.roles.Keys) {
        assert r in RolesOn(WithoutRoles(d, Orphans(d, d.roles.Keys)), {TeamObj(s, t)});
      }
    }
  }

  lemma TeamObjsGrow(s: Schema, done: set<TeamId>, t: TeamId)
    ensures TeamObjs(s, done + {t}) == TeamObjs(s, done) + {TeamObj(s, t)}
    ensures ClearedOn(s, TeamObjs(s, done + {t})) == ClearedOn(s, TeamObjs(s, done)) + ClearedOn(s, {TeamObj(s, t)})
  {
    forall x | x in TeamObjs(s, done + {t}) ensures x in TeamObjs(s, done) + {TeamObj(s, t)} {
      var v :| v in done + {t} && x == TeamObj(s, v);
    }
  }

  lemma TailRow(s: Schema, d: Db, t: TeamId, r: RoleId, q: Perm)
    requires r !in Dropped(s, d, t)
    ensures (r, q) in AfterTeamDelete(s, d, t).evals <==> (r, q) in d.evals && q.obj !in ClearedOn(s, {TeamObj(s, t)})
  {
  }

  lemma TailMembers(s: Schema, b: Db, d: Db, dead: set<RoleId>, stash: set<TeamId>, t: TeamId)
    requires Valid(s, b) && ExactMembers(s, b, d, dead, stash)
    ensures ExactMembers(s, b, AfterTeamDelete(s, d, t), dead + Dropped(s, d, t), stash)
  {
    var h := AfterTeamDelete(s, d, t);
    forall u, r | r !in Dropped(s, d, t) ensures (u, r) in h.memberRoles <==> (u, r) in d.memberRoles {}
  }

  // ---- One handler ----

  lemma HandlerStep(s: Schema, a: Db, b: Db, order: seq<TeamId>, i: nat, g: Db, h: Db)
    requires Batch(s, a, order, b) && i < |order| && Exact(s, a, b, order, i, g) && Handled(s, a, g, h, order[i])
    ensures Exact(s, a, b, order, i + 1, h)
  {
    var t := order[i];
    var c, d :| MembersRewritten(s, g, c, StashedTeamIds(s, a, t)) && EvalsRewritten(s, c, d, NamedBy(s, a, g, t)) &&
      h == AfterTeamDelete(s, d, t);
    RecomputeStep(s, a, b, order, i, g, c, d);
    TailStep(s, a, b, order, i, d);
    RowsStep(s, a, b, order, i, g, c, d);
  }

  lemma RowsStep(s: Schema, a: Db, b: Db, order: seq<TeamId>, i: nat, g: Db, c: Db, d: Db)
    requires Batch(s, a, order, b) && i < |order| && Exact(s, a, b, order, i, g)
    requires MembersRewritten(s, g, c, StashedTeamIds(s, a, order[i]))
    requires EvalsRewritten(s, c, d, NamedBy(s, a, g, order[i]))
    ensures ExactRows(s, a, b, order, i + 1, AfterTeamDelete(s, d, order[i]))
  {
    RecomputeStep(s, a, b, order, i, g, c, d);
    TailStep(s, a, b, order, i, d);
    forall r, q | r in b.roles && r !in Gone(s, b, order, i + 1)
      ensures (r, q) in AfterTeamDelete(s, d, order[i]).evals <==>
              RowNow(s, a, b, order, i + 1, r, q) && q.obj !in ClearedOn(s, TeamObjs(s, Done(order, i + 1)))
    {
      RowStep(s, a, b, order, i, g, c, d, r, q);
    }
  }

  // Both rewrites.
  lemma RecomputeStep(s: Schema, a: Db, b: Db, order: seq<TeamId>, i: nat, g: Db, c: Db, d: Db)
    requires Batch(s, a, order, b) && i < |order| && Exact(s, a, b, order, i, g)
    requires MembersRewritten(s, g, c, StashedTeamIds(s, a, order[i]))
    requires EvalsRewritten(s, c, d, NamedBy(s, a, g, order[i]))
    ensures Setting(s, a, TeamsIn(order), b, c, Gone(s, b, order, i))
    ensures Setting(s, a, TeamsIn(order), b, d, Gone(s, b, order, i))
    ensures ExactMembers(s, b, c, Gone(s, b, order, i), StashBefore(s, a, order, i + 1))
    ensures ExactMembers(s, b, d, Gone(s, b, order, i), StashBefore(s, a, order, i + 1))
  {
    StashGrows(s, a, order, i);
    MembersStep(s, a, TeamsIn(order), b, g, Gone(s, b, order, i), StashBefore(s, a, order, i), order[i], c);
    EvalsRewrittenValid(s, c, d, NamedBy(s, a, g, order[i]));
  }

  // What follows them.
  lemma TailStep(s: Schema, a: Db, b: Db, order: seq<TeamId>, i: nat, d: Db)
    requires Batch(s, a, order, b) && i < |order| && Setting(s, a, TeamsIn(order), b, d, Gone(s, b, order, i))
    requires ExactMembers(s, b, d, Gone(s, b, order, i), StashBefore(s, a, order, i + 1))
    ensures var h := AfterTeamDelete(s, d, order[i]);
            Setting(s, a, TeamsIn(order), b, h, Gone(s, b, order, i + 1)) &&
            ExactMembers(s, b, h, Gone(s, b, order, i + 1), StashBefore(s, a, order, i + 1)) &&
            forall r, q: Perm :: r !in Gone(s, b, order, i + 1) ==>
              ((r, q) in h.evals <==> (r, q) in d.evals && q.obj !in ClearedOn(s, {TeamObj(s, order[i])}))
    ensures ClearedOn(s, TeamObjs(s, Done(order, i + 1))) ==
            ClearedOn(s, TeamObjs(s, Done(order, i))) + ClearedOn(s, {TeamObj(s, order[i])})
    ensures Gone(s, b, order, i) <= Gone(s, b, order, i + 1)
  {
    var t, dead := order[i], Gone(s, b, order, i);
    DoneGrows(order, i);
    DropsExactly(s, a, order, b, i, d);
    TailIsReduced(s, a, TeamsIn(order), b, d, dead, t);
    TailMembers(s, b, d, dead, StashBefore(s, a, order, i + 1), t);
    TeamObjsGrow(s, Done(order, i), t);
    forall r, q: Perm | r !in Gone(s, b, order, i + 1)
      ensures (r, q) in AfterTeamDelete(s, d, t).evals <==> (r, q) in d.evals && q.obj !in ClearedOn(s, {TeamObj(s, t)})
    {
      TailRow(s, d, t, r, q);
    }
  }

  lemma StashGrows(s: Schema, a: Db, order: seq<TeamId>, i: nat)
    requires i < |order| && NoTeamTwice(order)
    ensures StashBefore(s, a, order, i + 1) == StashBefore(s, a, order, i) + StashedTeamIds(s, a, order[i])
  {
    DoneGrows(order, i);
  }

  lemma GoneIsDroppedWith(s: Schema, b: Db, order: seq<TeamId>, i: nat)
    requires i <= |order|
    ensures DroppedWith(s, b, Gone(s, b, order, i), Done(order, i))
  {
    if i == 0 { assert TeamObjs(s, Done(order, 0)) == {}; }
  }

  // The row of r and q after the recompute.
  lemma RowStep(s: Schema, a: Db, b: Db, order: seq<TeamId>, i: nat, g: Db, c: Db, d: Db, r: RoleId, q: Perm)
    requires Batch(s, a, order, b) && i < |order| && Exact(s, a, b, order, i, g)
    requires Setting(s, a, TeamsIn(order), b, c, Gone(s, b, order, i))
    requires ExactMembers(s, b, c, Gone(s, b, order, i), StashBefore(s, a, order, i + 1))
    requires c == g.(memberRoles := c.memberRoles) && EvalsRewritten(s, c, d, NamedBy(s, a, g, order[i]))
    requires r in b.roles && r !in Gone(s, b, order, i)
    ensures (r, q) in d.evals <==>
            RowNow(s, a, b, order, i + 1, r, q) && q.obj !in ClearedOn(s, TeamObjs(s, Done(order, i)))
  {
    NamedExactly(s, a, b, order, i, g, r);
    if Names(s, a, b, order, i, r) {
      DoneGrows(order, i);
      GoneIsDroppedWith(s, b, order, i);
      RecomputeReads(s, a, TeamsIn(order), b, c, Gone(s, b, order, i), Done(order, i), StashBefore(s, a, order, i + 1),
        r, q);
      assert LastNaming(s, a, b, order, i + 1, r) == Some(i);
      assert RowNow(s, a, b, order, i + 1, r, q) <==> Reading(s, a, b, order, i, r, q);
    } else {
      assert LastNaming(s, a, b, order, i + 1, r) == LastNaming(s, a, b, order, i, r);
      assert RowNow(s, a, b, order, i + 1, r, q) <==> RowNow(s, a, b, order, i, r, q);
    }
  }

  // Nothing is conferred on an object that is gone and that no role targets.
  lemma NothingConferredOnGone(s: Schema, db: Db, xs: set<Obj>, x: RoleId, q: Perm)
    requires xs !! db.objects.Keys && RolesOn(db, xs) == {} && q.obj in xs
    ensures !Confers(s, db, x, q)
  {
    if x in db.roles && db.roles[x].rd in s.rdPermissions {
      assert x !in RolesOn(db, xs);
      GrantsIsDirect(s, db.objects, db.roles[x], q);
    }
  }

  // ---- All handlers ----

  lemma StatesAreExact(s: Schema, a: Db, b: Db, order: seq<TeamId>, states: seq<Db>, i: nat)
    requires Batch(s, a, order, b) && Handlers(s, a, order, states) && i <= |order|
    ensures Exact(s, a, b, order, i, states[i])
  {
    BeforeHandlers(s, a, order, b);
    for j := 0 to i
      invariant Exact(s, a, b, order, j, states[j])
    {
      assert Handled(s, a, states[j], states[j + 1], order[j]);
      HandlerStep(s, a, b, order, j, states[j], states[j + 1]);
    }
  }

  lemma MembersEndCorrect(s: Schema, a: Db, b: Db, order: seq<TeamId>, g: Db)
    requires Batch(s, a, order, b) && Exact(s, a, b, order, |order|, g)
    ensures MembersCorrect(s, g)
  {
    var ts, dead := TeamsIn(order), Gone(s, b, order, |order|);
    AllDone(order);
    SettingTeams(s, a, ts, b, g, dead);
    forall u, r | IsTeam(s, g.objects, u)
      ensures (u, r) in g.memberRoles <==> r in MemberRolesOf(CoreOf(s, g), u)
    {
      if r in g.roles {
        SameMembers(s, a, ts, b, g, dead, u, r);
        StoredIsMember(s, a, ts, b, u, r);
      } else {
        if r in MemberRolesOf(CoreOf(s, g), u) { MemberRolesExist(s, g, r, u); }
        assert (u, r) in g.memberRoles ==> (u, r).1 in g.roles;
      }
    }
  }

  // With every stash rewritten the rows are right.
  lemma StoredIsMember(s: Schema, a: Db, ts: set<TeamId>, b: Db, u: TeamId, r: RoleId)
    requires DeletableTeams(s, a, ts) && b == AfterCascade(s, a, ts) && Valid(s, b) && IsTeam(s, b.objects, u)
    ensures Stored(s, b, AllStashed(s, a, ts), u, r) <==> Member(s, b, u, r)
  {
    CascadeIsValid(s, a, ts);
    if Member(s, b, u, r) { MemberWasStored(s, a, ts, b, {}, u, r); }
    if !InScope(CoreOf(s, b), AllStashed(s, a, ts), u) { OutsideStash(s, a, ts, u); }
  }

  // A role above none of the deleted teams had the right rows all along.
  lemma NeverAbove(s: Schema, a: Db, ts: set<TeamId>, b: Db, r: RoleId, q: Perm)
    requires DeletableTeams(s, a, ts) && b == AfterCascade(s, a, ts) && Valid(s, b) && r in b.roles
    requires q.obj !in TeamObjs(s, ts) && forall t :: t in ts ==> (t, r) !in a.memberRoles
    ensures (r, q) in b.evals <==> Granted(s, b, r, q)
  {
    forall t | t in ts ensures r !in MemberRolesOf(CoreOf(s, a), t) {
      assert IsTeam(s, a.objects, t) && (t, r) !in a.memberRoles;
    }
    UnnamedClosure(s, a, ts, r);
    forall y ensures Confers(s, a, y, q) <==> Confers(s, b, y, q) { CascadeConfers(s, a, ts, y, q); }
    assert (r, q) in a.evals <==> Granted(s, a, r, q);
  }

  lemma {:induction false} NeverNamed(s: Schema, a: Db, b: Db, order: seq<TeamId>, i: nat, r: RoleId, k: nat)
    requires Valid(s, b) && k < i <= |order| && LastNaming(s, a, b, order, i, r).None?
    ensures LastNaming(s, a, b, order, k, r).None? && !Names(s, a, b, order, k, r)
  {
    if k < i - 1 { NeverNamed(s, a, b, order, i - 1, r, k); }
  }

  // A role above a deleted team is named at the latest by the handler of that team.
  lemma UnnamedIsNeverAbove(s: Schema, a: Db, b: Db, order: seq<TeamId>, r: RoleId, t: TeamId)
    requires Batch(s, a, order, b) && r in b.roles && t in order && LastNaming(s, a, b, order, |order|, r).None?
    ensures (t, r) !in a.memberRoles
  {
    var k :| 0 <= k < |order| && order[k] == t;
    NeverNamed(s, a, b, order, |order|, r, k);
    assert RowNow(s, a, b, order, k, r, MemberPerm(s, t)) <==> (r, MemberPerm(s, t)) in b.evals;
    EvalsNameMembers(s, a, r, t);
    assert (t, r) in a.memberRoles ==> IsTeam(s, a.objects, (t, r).0);
  }

  // What is granted is read, whatever has been rewritten.
  lemma GrantedIsRead(s: Schema, a: Db, ts: set<TeamId>, b: Db, stash: set<TeamId>, r: RoleId, q: Perm)
    requires DeletableTeams(s, a, ts) && b == AfterCascade(s, a, ts) && Valid(s, b) && Granted(s, b, r, q)
    ensures SeesThrough(s, b, stash, r, q)
  {
    CascadeIsValid(s, a, ts);
    var x :| x in Implied(CoreOf(s, b), r) && Confers(s, b, x, q);
    OneHopIsClosure(CoreOf(s, b), r);
    if x != r {
      var h :| h in b.teamHolds && r in MemberRolesOf(CoreOf(s, b), h.0) && h.1 == x;
      assert Member(s, b, h.0, r);
      MemberWasStored(s, a, ts, b, stash, h.0, r);
    }
  }

  lemma GrantedIsThere(s: Schema, a: Db, b: Db, order: seq<TeamId>, r: RoleId, q: Perm)
    requires Batch(s, a, order, b) && r in b.roles && q.obj !in TeamObjs(s, TeamsIn(order)) && Granted(s, b, r, q)
    ensures RowNow(s, a, b, order, |order|, r, q)
  {
    match LastNaming(s, a, b, order, |order|, r)
    case None =>
      forall t | t in TeamsIn(order) ensures (t, r) !in a.memberRoles { UnnamedIsNeverAbove(s, a, b, order, r, t); }
      NeverAbove(s, a, TeamsIn(order), b, r, q);
    case Some(k) =>
      GrantedIsRead(s, a, TeamsIn(order), b, StashBefore(s, a, order, k + 1), r, q);
      assert TeamObjs(s, Done(order, k)) <= TeamObjs(s, TeamsIn(order));
  }

  // One row at the end: it is right exactly when the last reading of its role is.
  lemma RowEndsRightIff(s: Schema, a: Db, b: Db, order: seq<TeamId>, g: Db, r: RoleId, q: Perm)
    requires Batch(s, a, order, b) && Exact(s, a, b, order, |order|, g) && r in g.roles
    ensures q.obj !in TeamObjs(s, TeamsIn(order)) ==> (Granted(s, g, r, q) <==> Granted(s, b, r, q))
    ensures Granted(s, g, r, q) ==> (r, q) in g.evals
    ensures (r, q) in g.evals && !Granted(s, g, r, q) <==>
            RowNow(s, a, b, order, |order|, r, q) && !RightOrCleared(s, b, TeamsIn(order), r, q)
  {
    var ts, dead := TeamsIn(order), Gone(s, b, order, |order|);
    AllDone(order);
    SettingTeams(s, a, ts, b, g, dead);
    if q.obj in TeamObjs(s, ts) {
      assert RolesOn(g, TeamObjs(s, ts)) == {} by { GoneIsDroppedWith(s, b, order, |order|); }
      NothingGrantedOnGone(s, g, TeamObjs(s, ts), r, q);
    } else {
      SameGrants(s, a, ts, b, g, dead, r, q);
      if Granted(s, b, r, q) { GrantedIsThere(s, a, b, order, r, q); }
    }
  }

  lemma Survivors(s: Schema, a: Db, b: Db, order: seq<TeamId>, g: Db)
    requires Batch(s, a, order, b) && Exact(s, a, b, order, |order|, g) && order != []
    ensures forall r :: r in g.roles <==> r in b.roles && r !in DeadRoles(s, b, TeamsIn(order))
  {
    AllDone(order);
  }

  // Deleting several teams by one query, in this order of the handlers: both tables end
  // correct if and only if the last reading of every surviving role grants only what is granted.
  lemma BatchDeleteCorrectIff(s: Schema, a: Db, order: seq<TeamId>, states: seq<Db>)
    requires DeletableTeams(s, a, TeamsIn(order)) && NoTeamTwice(order)
    requires Valid(s, AfterCascade(s, a, TeamsIn(order))) && Handlers(s, a, order, states)
    ensures Correct(s, states[|order|]) <==> LastReadingsRight(s, a, order)
  {
    var b, g := AfterCascade(s, a, TeamsIn(order)), states[|order|];
    StatesAreExact(s, a, b, order, states, |order|);
    MembersEndCorrect(s, a, b, order, g);
    forall r, q | r in g.roles
      ensures ((r, q) in g.evals <==> Granted(s, g, r, q)) <==>
              (RowNow(s, a, b, order, |order|, r, q) ==> RightOrCleared(s, b, TeamsIn(order), r, q))
    {
      RowEndsRightIff(s, a, b, order, g, r, q);
    }
  }

  // ---- Enough: no handler, run first, reads anything outdated ----

  // Rewriting more shows less.
  lemma ReadsLess(s: Schema, b: Db, stash: set<TeamId>, more: set<TeamId>, r: RoleId, q: Perm)
    requires Valid(s, b) && stash <= more && SeesThrough(s, b, more, r, q)
    ensures SeesThrough(s, b, stash, r, q)
  {
    if !Confers(s, b, r, q) {
      var h :| h in b.teamHolds && Stored(s, b, more, h.0, r) && Confers(s, b, h.1, q);
      assert Stored(s, b, stash, h.0, r);
    }
  }

  lemma {:induction false} FirstNaming(s: Schema, a: Db, b: Db, order: seq<TeamId>, i: nat, r: RoleId) returns (j: nat)
    requires Valid(s, b) && i <= |order| && LastNaming(s, a, b, order, i, r).Some?
    ensures j <= LastNaming(s, a, b, order, i, r).value
    ensures LastNaming(s, a, b, order, j, r).None? && Names(s, a, b, order, j, r)
  {
    if LastNaming(s, a, b, order, i - 1, r).Some? {
      j := FirstNaming(s, a, b, order, i - 1, r);
    } else {
      j := i - 1;
    }
  }

  lemma StoredDescends(s: Schema, b: Db, stash: set<TeamId>, ms: set<RoleId>, h: (TeamId, RoleId), m: RoleId)
    requires Valid(s, b) && h in b.teamHolds && m in ms && Stored(s, b, stash, h.0, m)
    ensures h.1 in Descendents(b, ms)
  {
  }

  // A role named for the first time by a later handler would have been named at once.
  lemma NamedEarly(s: Schema, a: Db, b: Db, order: seq<TeamId>, j: nat, r: RoleId)
    requires Valid(s, b) && j < |order| && LastNaming(s, a, b, order, j, r).None? && Names(s, a, b, order, j, r)
    ensures r in NamedBy(s, a, b, order[j])
  {
    AncestorExactly(s, b, r, order[j]);
    forall h, m | h in b.teamHolds && m in StashedMemberRoles(a, order[j]) &&
      Stored(s, b, StashBefore(s, a, order, j), h.0, m)
      ensures h.1 in Descendents(b, StashedMemberRoles(a, order[j]))
    {
      StoredDescends(s, b, StashBefore(s, a, order, j), StashedMemberRoles(a, order[j]), h, m);
    }
  }

  lemma SeesRightReadsRight(s: Schema, a: Db, b: Db, order: seq<TeamId>, i: nat, r: RoleId, q: Perm)
    requires Batch(s, a, order, b) && i <= |order| && LastNaming(s, a, b, order, i, r).Some?
    requires r in b.roles && r !in DeadRoles(s, b, TeamsIn(order)) && q.obj !in TeamObjs(s, TeamsIn(order))
    requires forall t :: t in order ==> SeesRight(s, a, TeamsIn(order), t)
    requires RowNow(s, a, b, order, i, r, q)
    ensures Granted(s, b, r, q)
  {
    var k := LastNaming(s, a, b, order, i, r).value;
    var j := FirstNaming(s, a, b, order, i, r);
    var t := order[j];
    NamedEarly(s, a, b, order, j, r);
    assert order[..k + 1][j] == t && t in Done(order, k + 1);
    ReadsLess(s, b, StashedTeamIds(s, a, t), StashBefore(s, a, order, k + 1), r, q);
    assert SeesRight(s, a, TeamsIn(order), t) && !WrongRow(s, a, TeamsIn(order), t, r, q);
  }

  // Rows on the deleted teams that nothing clears.
  ghost predicate NoRowsLeft(s: Schema, a: Db, order: seq<TeamId>)
    requires Valid(s, AfterCascade(s, a, TeamsIn(order)))
  {
    var b := AfterCascade(s, a, TeamsIn(order));
    forall r, q: Perm ::
      r in b.roles && r !in Gone(s, b, order, |order|) && q.obj in TeamObjs(s, TeamsIn(order)) ==>
        !RowNow(s, a, b, order, |order|, r, q)
  }

  // Then both tables end correct, in every order of the handlers, if the rows on the teams are
  // cleared or there are none.
  lemma BatchDeleteCorrect(s: Schema, a: Db, order: seq<TeamId>, states: seq<Db>)
    requires DeletableTeams(s, a, TeamsIn(order)) && NoTeamTwice(order)
    requires Valid(s, AfterCascade(s, a, TeamsIn(order))) && Handlers(s, a, order, states)
    requires forall t :: t in order ==> SeesRight(s, a, TeamsIn(order), t)
    ensures Correct(s, states[|order|]) <==> ParentField(s.reg, s.teamCt).Some? || NoRowsLeft(s, a, order)
  {
    var ts := TeamsIn(order);
    var b := AfterCascade(s, a, ts);
    BatchDeleteCorrectIff(s, a, order, states);
    AllDone(order);
    forall r, q: Perm | r in b.roles && r !in Gone(s, b, order, |order|) && q.obj !in TeamObjs(s, ts) &&
        RowNow(s, a, b, order, |order|, r, q)
      ensures Granted(s, b, r, q)
    {
      if LastNaming(s, a, b, order, |order|, r).None? {
        forall t | t in ts ensures (t, r) !in a.memberRoles { UnnamedIsNeverAbove(s, a, b, order, r, t); }
        NeverAbove(s, a, ts, b, r, q);
      } else {
        SeesRightReadsRight(s, a, b, order, |order|, r, q);
      }
    }
  }

  // It is enough that rewriting the stash of t alone would leave no outdated member row.
  lemma ExactRowsSeeRight(s: Schema, a: Db, ts: set<TeamId>, t: TeamId)
    requires DeletableTeams(s, a, ts) && Valid(s, AfterCascade(s, a, ts))
    requires var b := AfterCascade(s, a, ts);
             forall u, r :: IsTeam(s, b.objects, u) && Stored(s, b, StashedTeamIds(s, a, t), u, r) ==>
               Member(s, b, u, r)
    ensures SeesRight(s, a, ts, t)
  {
    var b := AfterCascade(s, a, ts);
    forall r, q ensures !WrongRow(s, a, ts, t, r, q) {
      if SeesThrough(s, b, StashedTeamIds(s, a, t), r, q) && !Confers(s, b, r, q) {
        var h :| h in b.teamHolds && Stored(s, b, StashedTeamIds(s, a, t), h.0, r) && Confers(s, b, h.1, q);
        assert Member(s, b, h.0, r);
        OneHopIsClosure(CoreOf(s, b), r);
        assert h.1 in OneHop(CoreOf(s, b), r);
      }
    }
  }

  // So no surviving team may lose a parent ...
  lemma NoSurvivorLosesParent(s: Schema, a: Db, ts: set<TeamId>, t: TeamId)
    requires DeletableTeams(s, a, ts) && Valid(s, AfterCascade(s, a, ts))
    requires forall v :: v in ts ==> StashedTeamIds(s, a, v) <= ts
    ensures SeesRight(s, a, ts, t)
  {
    var b := AfterCascade(s, a, ts);
    CascadeIsValid(s, a, ts);
    forall u, r | IsTeam(s, b.objects, u) && Stored(s, b, StashedTeamIds(s, a, t), u, r) ensures Member(s, b, u, r) {
      StashIsGone(s, a, ts, u);
      OutsideStash(s, a, ts, u);
      assert (u, r) in a.memberRoles;
    }
    ExactRowsSeeRight(s, a, ts, t);
  }

  lemma StashIsGone(s: Schema, a: Db, ts: set<TeamId>, u: TeamId)
    requires DeletableTeams(s, a, ts) && Valid(s, AfterCascade(s, a, ts)) &&
      IsTeam(s, AfterCascade(s, a, ts).objects, u)
    requires forall v :: v in ts ==> StashedTeamIds(s, a, v) <= ts
    ensures !InScope(CoreOf(s, AfterCascade(s, a, ts)), AllStashed(s, a, ts), u)
  {
    var b := AfterCascade(s, a, ts);
    CascadeIsValid(s, a, ts);
    forall v | v in Reach(ParentGraph(CoreOf(s, b)), u) ensures v !in ts { AncestorsAreTeams(s, b, u, v); }
    forall v | v in AllStashed(s, a, ts) ensures v in ts {}
  }

  // ... or a single team is deleted.
  lemma OneTeamSeesRight(s: Schema, a: Db, t: TeamId)
    requires DeletableTeams(s, a, {t}) && Valid(s, AfterCascade(s, a, {t}))
    ensures SeesRight(s, a, {t}, t)
  {
    var b := AfterCascade(s, a, {t});
    OneTeam(s, a, t);
    CascadeIsValid(s, a, {t});
    forall u, r | IsTeam(s, b.objects, u) && Stored(s, b, StashedTeamIds(s, a, t), u, r) ensures Member(s, b, u, r) {
      if !InScope(CoreOf(s, b), StashedTeamIds(s, a, t), u) {
        OutsideStash(s, a, {t}, u);
        assert (u, r) in a.memberRoles;
      }
    }
    ExactRowsSeeRight(s, a, {t}, t);
  }

  // ---- A failing family ----

  // A later handler would name r again after the handler of t has run first.
  ghost predicate NamedAgain(s: Schema, a: Db, ts: set<TeamId>, t: TeamId, r: RoleId)
    requires Valid(s, AfterCascade(s, a, ts))
  {
    var b := AfterCascade(s, a, ts);
    exists v :: v in ts && v != t &&
      (SeesThrough(s, b, StashedTeamIds(s, a, t), r, MemberPerm(s, v)) || r in Descendents(b, StashedMemberRoles(a, v)))
  }

  lemma {:induction false} NamedOnlyFirst(s: Schema, a: Db, b: Db, order: seq<TeamId>, r: RoleId, i: nat)
    requires Batch(s, a, order, b) && 0 < i <= |order|
    requires r in NamedBy(s, a, b, order[0]) && !NamedAgain(s, a, TeamsIn(order), order[0], r)
    ensures LastNaming(s, a, b, order, i, r) == Some(0)
  {
    if i == 1 {
      AncestorExactly(s, b, r, order[0]);
      BeforeHandlers(s, a, order, b);
      DescendentExactly(s, a, b, order, 0, b, r);
      assert Names(s, a, b, order, 0, r);
    } else {
      NamedOnlyFirst(s, a, b, order, r, i - 1);
      NotNamedAgain(s, a, b, order, r, i - 1);
    }
  }

  lemma NotNamedAgain(s: Schema, a: Db, b: Db, order: seq<TeamId>, r: RoleId, i: nat)
    requires Batch(s, a, order, b) && 0 < i < |order| && LastNaming(s, a, b, order, i, r) == Some(0)
    requires !NamedAgain(s, a, TeamsIn(order), order[0], r)
    ensures !Names(s, a, b, order, i, r)
  {
    var v := order[i];
    FirstStash(s, a, order);
    assert v in TeamsIn(order) && v != order[0];
    forall h, m | h in b.teamHolds && m in StashedMemberRoles(a, v) && Stored(s, b, StashBefore(s, a, order, i), h.0, m)
      ensures h.1 in Descendents(b, StashedMemberRoles(a, v))
    {
      StoredDescends(s, b, StashBefore(s, a, order, i), StashedMemberRoles(a, v), h, m);
    }
  }

  lemma FirstStash(s: Schema, a: Db, order: seq<TeamId>)
    requires order != []
    ensures StashBefore(s, a, order, 1) == StashedTeamIds(s, a, order[0]) && Done(order, 0) == {}
  {
    assert order[..1] == [order[0]];
    assert Done(order, 1) == {order[0]};
  }

  // A role read too early by the first handler and not named again keeps a row that
  // nothing grants, through all the handlers.
  lemma ReadTooEarlyStays(s: Schema, a: Db, order: seq<TeamId>, states: seq<Db>, r: RoleId, q: Perm)
    requires DeletableTeams(s, a, TeamsIn(order)) && NoTeamTwice(order) && Handlers(s, a, order, states) && order != []
    requires Valid(s, AfterCascade(s, a, TeamsIn(order)))
    requires WrongRow(s, a, TeamsIn(order), order[0], r, q) && !NamedAgain(s, a, TeamsIn(order), order[0], r)
    ensures var g := states[|order|];
            Valid(s, g) && r in g.roles && (r, q) in g.evals && !Granted(s, g, r, q) && !Correct(s, g)
  {
    var b, g := AfterCascade(s, a, TeamsIn(order)), states[|order|];
    StatesAreExact(s, a, b, order, states, |order|);
    Survivors(s, a, b, order, g);
    NamedOnlyFirst(s, a, b, order, r, |order|);
    FirstStash(s, a, order);
    assert TeamObjs(s, {}) == {};
    assert RowNow(s, a, b, order, |order|, r, q);
    RowEndsRightIff(s, a, b, order, g, r, q);
  }

  // ---- In every order ----

  ghost function Handle(s: Schema, a: Db, g: Db, t: TeamId): (h: Db)
    requires Valid(s, g)
    ensures Handled(s, a, g, h, t) && Valid(s, h)
  {
    var c := RewriteMembers(s, g, StashedTeamIds(s, a, t));
    var d := RewriteEvals(s, c, NamedBy(s, a, g, t));
    EvalsRewrittenValid(s, c, d, NamedBy(s, a, g, t));
    AfterTeamDelete(s, d, t)
  }

  // Every order of the handlers has a run.
  lemma {:induction false} HandlersExist(s: Schema, a: Db, order: seq<TeamId>, n: nat) returns (states: seq<Db>)
    requires Valid(s, AfterCascade(s, a, TeamsIn(order))) && n <= |order|
    ensures |states| == n + 1 && states[0] == AfterCascade(s, a, TeamsIn(order)) && Valid(s, states[n])
    ensures forall i :: 0 <= i < n ==> Valid(s, states[i]) && Handled(s, a, states[i], states[i + 1], order[i])
  {
    if n == 0 {
      states := [AfterCascade(s, a, TeamsIn(order))];
    } else {
      var before := HandlersExist(s, a, order, n - 1);
      states := before + [Handle(s, a, before[n - 1], order[n - 1])];
    }
  }

  lemma {:induction false} OrderOf(ts: set<TeamId>) returns (order: seq<TeamId>)
    ensures TeamsIn(order) == ts && NoTeamTwice(order)
    decreases ts
  {
    if ts == {} {
      order := [];
    } else {
      var t := AnyOf(ts);
      var rest := OrderOf(ts - {t});
      order := [t] + rest;
      forall v | v in rest ensures v != t { assert v in TeamsIn(rest); }
      assert TeamsIn(order) == {t} + TeamsIn(rest);
    }
  }

  lemma OrderStartingWith(ts: set<TeamId>, t: TeamId) returns (order: seq<TeamId>)
    requires t in ts
    ensures TeamsIn(order) == ts && NoTeamTwice(order) && order != [] && order[0] == t
  {
    var rest := OrderOf(ts - {t});
    order := [t] + rest;
    forall v | v in rest ensures v != t { assert v in TeamsIn(rest); }
    assert TeamsIn(order) == {t} + TeamsIn(rest);
  }

  ghost predicate HarmlessInEveryOrder(s: Schema, a: Db, ts: set<TeamId>) {
    forall order, states :: TeamsIn(order) == ts && NoTeamTwice(order) && Handlers(s, a, order, states) ==>
      Correct(s, states[|order|])
  }

  // Every recompute of every handler writes the right rows for the roles that stay,
  // right away.
  ghost predicate RowsRightAfter(s: Schema, a: Db, ts: set<TeamId>, g: Db, h: Db, t: TeamId)
    requires Valid(s, AfterCascade(s, a, ts))
  {
    var b := AfterCascade(s, a, ts);
    forall r, q: Perm ::
      r in NamedBy(s, a, g, t) && r in b.roles && r !in DeadRoles(s, b, ts) && q.obj !in TeamObjs(s, ts) ==>
      ((r, q) in h.evals <==> Granted(s, b, r, q))
  }

  ghost predicate RightInEveryOrder(s: Schema, a: Db, ts: set<TeamId>)
    requires Valid(s, AfterCascade(s, a, ts))
  {
    forall order, states, i ::
      TeamsIn(order) == ts && NoTeamTwice(order) && Handlers(s, a, order, states) && 0 <= i < |order| ==>
      RowsRightAfter(s, a, ts, states[i], states[i + 1], order[i])
  }

  // Deleting teams by one query ends with correct tables in every order of the handlers if
  // and only if the last readings are right in every order.
  lemma BatchDeleteIff(s: Schema, a: Db, ts: set<TeamId>)
    requires DeletableTeams(s, a, ts) && Valid(s, AfterCascade(s, a, ts))
    ensures HarmlessInEveryOrder(s, a, ts) <==>
            forall order :: TeamsIn(order) == ts && NoTeamTwice(order) ==> LastReadingsRight(s, a, order)
  {
    forall order | TeamsIn(order) == ts && NoTeamTwice(order)
      ensures (forall states :: Handlers(s, a, order, states) ==> Correct(s, states[|order|])) <==>
              LastReadingsRight(s, a, order)
    {
      forall states | Handlers(s, a, order, states)
        ensures Correct(s, states[|order|]) <==> LastReadingsRight(s, a, order)
      {
        BatchDeleteCorrectIff(s, a, order, states);
      }
      var states := HandlersExist(s, a, order, |order|);
      assert Handlers(s, a, order, states);
    }
  }

  lemma HandlerWritesRight(s: Schema, a: Db, order: seq<TeamId>, states: seq<Db>, i: nat)
    requires DeletableTeams(s, a, TeamsIn(order)) && NoTeamTwice(order) && Handlers(s, a, order, states) && i < |order|
    requires Valid(s, AfterCascade(s, a, TeamsIn(order)))
    requires forall t :: t in order ==> SeesRight(s, a, TeamsIn(order), t)
    ensures RowsRightAfter(s, a, TeamsIn(order), states[i], states[i + 1], order[i])
  {
    var ts := TeamsIn(order);
    var b := AfterCascade(s, a, ts);
    StatesAreExact(s, a, b, order, states, i);
    StatesAreExact(s, a, b, order, states, i + 1);
    forall r, q: Perm | r in NamedBy(s, a, states[i], order[i]) && r in b.roles && r !in DeadRoles(s, b, ts) &&
      q.obj !in TeamObjs(s, ts)
      ensures (r, q) in states[i + 1].evals <==> Granted(s, b, r, q)
    {
      NamedRow(s, a, b, order, states, i, r, q);
      if Granted(s, b, r, q) { GrantedIsRead(s, a, ts, b, StashBefore(s, a, order, i + 1), r, q); }
      if RowNow(s, a, b, order, i + 1, r, q) { SeesRightReadsRight(s, a, b, order, i + 1, r, q); }
    }
  }

  lemma DoneWithin(s: Schema, b: Db, order: seq<TeamId>, i: nat)
    requires i <= |order|
    ensures TeamObjs(s, Done(order, i)) <= TeamObjs(s, TeamsIn(order))
    ensures Gone(s, b, order, i) <= DeadRoles(s, b, TeamsIn(order))
  {
    assert Done(order, i) <= TeamsIn(order);
  }

  // The row that the i-th handler writes for a role it names.
  lemma NamedRow(s: Schema, a: Db, b: Db, order: seq<TeamId>, states: seq<Db>, i: nat, r: RoleId, q: Perm)
    requires Batch(s, a, order, b) && Handlers(s, a, order, states) && i < |order|
    requires Exact(s, a, b, order, i, states[i]) && Exact(s, a, b, order, i + 1, states[i + 1])
    requires r in NamedBy(s, a, states[i], order[i]) && r in b.roles && r !in DeadRoles(s, b, TeamsIn(order))
    requires q.obj !in TeamObjs(s, TeamsIn(order))
    ensures LastNaming(s, a, b, order, i + 1, r) == Some(i)
    ensures RowNow(s, a, b, order, i + 1, r, q) <==> SeesThrough(s, b, StashBefore(s, a, order, i + 1), r, q)
    ensures (r, q) in states[i + 1].evals <==> RowNow(s, a, b, order, i + 1, r, q)
  {
    DoneWithin(s, b, order, i);
    DoneWithin(s, b, order, i + 1);
    NamedExactly(s, a, b, order, i, states[i], r);
    assert Reading(s, a, b, order, i, r, q) <==> SeesThrough(s, b, StashBefore(s, a, order, i + 1), r, q);
  }

  lemma FirstHandlerWrong(s: Schema, a: Db, ts: set<TeamId>, t: TeamId, r: RoleId, q: Perm)
    requires DeletableTeams(s, a, ts) && Valid(s, AfterCascade(s, a, ts)) && t in ts && WrongRow(s, a, ts, t, r, q)
    ensures !RightInEveryOrder(s, a, ts)
  {
    var b := AfterCascade(s, a, ts);
    var order := OrderStartingWith(ts, t);
    var states := HandlersExist(s, a, order, |order|);
    assert Handlers(s, a, order, states);
    StatesAreExact(s, a, b, order, states, 0);
    StatesAreExact(s, a, b, order, states, 0 + 1);
    NamedRow(s, a, b, order, states, 0, r, q);
    FirstStash(s, a, order);
    assert !RowsRightAfter(s, a, ts, states[0], states[0 + 1], order[0]);
  }

  // Every single recompute is right in every order of the handlers if and only if no handler,
  // run first, reads anything outdated.
  lemma RecomputesRightIff(s: Schema, a: Db, ts: set<TeamId>)
    requires DeletableTeams(s, a, ts) && Valid(s, AfterCascade(s, a, ts))
    ensures RightInEveryOrder(s, a, ts) <==> forall t :: t in ts ==> SeesRight(s, a, ts, t)
  {
    if forall t :: t in ts ==> SeesRight(s, a, ts, t) {
      forall order, states, i | TeamsIn(order) == ts && NoTeamTwice(order) && Handlers(s, a, order, states) &&
        0 <= i < |order|
        ensures RowsRightAfter(s, a, ts, states[i], states[i + 1], order[i])
      {
        forall v | v in order ensures SeesRight(s, a, ts, v) { assert v in TeamsIn(order); }
        HandlerWritesRight(s, a, order, states, i);
      }
    } else {
      var t, r, q :| t in ts && WrongRow(s, a, ts, t, r, q);
      FirstHandlerWrong(s, a, ts, t, r, q);
    }
  }
}
