// Team membership through roles, seen only as two relations: which roles make
// their holder a member of which team, and which team holds which role.
module Membership {
  import opened Graphs

  type RoleId = int
  type TeamId = int

  datatype Core = Core(gives: map<RoleId, set<TeamId>>, holds: set<(TeamId, RoleId)>)

  predicate GivesTo(c: Core, r: RoleId, t: TeamId) {
    r in c.gives && t in c.gives[r]
  }

  // Roles that confer membership of t without going through another team.
  function DirectRoles(c: Core, t: TeamId): set<RoleId> {
    set r | r in c.gives && t in c.gives[r]
  }

  // An edge from each team to every team that holds one of its member-giving roles.
  ghost function ParentGraph(c: Core): Graph<TeamId> {
    set h, t | h in c.holds && h.1 in c.gives && t in c.gives[h.1] :: (t, h.0)
  }

  // An edge from a role to every role its holder also has by being in a team.
  ghost function RoleGraph(c: Core): Graph<RoleId> {
    set h, r | h in c.holds && r in c.gives && h.0 in c.gives[r] :: (r, h.1)
  }

  // The correct value of team.member_roles.
  ghost function MemberRolesOf(c: Core, t: TeamId): set<RoleId> {
    DirectRoles(c, t) + set p, r | p in Reach(ParentGraph(c), t) && r in DirectRoles(c, p) :: r
  }

  // The roles somebody has once they have r: the least set closed under
  // "a role makes you a member of a team, and the team holds a role".
  ghost function Implied(c: Core, r: RoleId): set<RoleId> {
    {r} + Reach(RoleGraph(c), r)
  }

  // What the per-role recomputation looks at: r itself and the roles held by
  // the teams r is stored as a member role of.
  ghost function OneHop(c: Core, r: RoleId): set<RoleId> {
    {r} + set h | h in c.holds && r in MemberRolesOf(c, h.0) :: h.1
  }

  lemma ParentEdge(c: Core, t: TeamId, p: TeamId)
    ensures (t, p) in ParentGraph(c) <==> exists h :: h in c.holds && h.0 == p && GivesTo(c, h.1, t)
  {
  }

  lemma RoleEdge(c: Core, x: RoleId, y: RoleId)
    ensures (x, y) in RoleGraph(c) <==> exists h :: h in c.holds && h.1 == y && GivesTo(c, x, h.0)
  {
  }

  lemma MemberRoleCases(c: Core, t: TeamId, r: RoleId)
    ensures r in MemberRolesOf(c, t) <==>
      GivesTo(c, r, t) || exists p :: p in Reach(ParentGraph(c), t) && GivesTo(c, r, p)
  {
    if p :| p in Reach(ParentGraph(c), t) && GivesTo(c, r, p) {
      assert r in DirectRoles(c, p);
    }
  }

  // Membership is inherited downwards: members of a parent are members of the child.
  lemma ParentMembersAreMembers(c: Core, t: TeamId, p: TeamId)
    requires (t, p) in ParentGraph(c)
    ensures MemberRolesOf(c, p) <= MemberRolesOf(c, t)
  {
    EdgeReaches(ParentGraph(c), t, p);
    ReachIsTransitive(ParentGraph(c), t, p);
    forall r | r in MemberRolesOf(c, p) ensures r in MemberRolesOf(c, t) {
      MemberRoleCases(c, p, r);
      MemberRoleCases(c, t, r);
    }
  }

  // If r makes you a member of p, and p is t or above t, then every role held by t is implied by r.
  lemma TeamChainImplies(c: Core, r: RoleId, t: TeamId, p: TeamId, y: RoleId)
    requires p in Reach(ParentGraph(c), t) && GivesTo(c, r, p) && (t, y) in c.holds
    ensures y in Reach(RoleGraph(c), r)
  {
    var g := ParentGraph(c);
    var s := set q | q in Reach(g, t) &&
      forall x :: x in c.gives && q in c.gives[x] ==> y in Reach(RoleGraph(c), x);
    ReachIsClosed(g, t);
    forall e | e in g && (e.0 == t || e.0 in s) ensures e.1 in s {
      ParentEdge(c, e.0, e.1);
      var h :| h in c.holds && h.0 == e.1 && GivesTo(c, h.1, e.0);
      forall x | x in c.gives && e.1 in c.gives[x] ensures y in Reach(RoleGraph(c), x) {
        RoleEdge(c, x, h.1);
        if e.0 == t {
          RoleEdge(c, h.1, y);
          EdgeReaches(RoleGraph(c), h.1, y);
        }
        PrependEdge(RoleGraph(c), x, h.1, y);
      }
    }
    ReachIsLeast(g, t, s);
  }

  // One hop through the closed table sees exactly the roles of the unbounded closure.
  lemma OneHopIsClosure(c: Core, r: RoleId)
    ensures OneHop(c, r) == Implied(c, r)
  {
    var hop := set h | h in c.holds && r in MemberRolesOf(c, h.0) :: h.1;
    forall y | y in hop ensures y in Reach(RoleGraph(c), r) {
      var h :| h in c.holds && r in MemberRolesOf(c, h.0) && h.1 == y;
      MemberRoleCases(c, h.0, r);
      if GivesTo(c, r, h.0) {
        RoleEdge(c, r, y);
        EdgeReaches(RoleGraph(c), r, y);
      } else {
        var p :| p in Reach(ParentGraph(c), h.0) && GivesTo(c, r, p);
        TeamChainImplies(c, r, h.0, p, y);
      }
    }
    forall e | e in RoleGraph(c) && (e.0 == r || e.0 in hop) ensures e.1 in hop {
      RoleEdge(c, e.0, e.1);
      var h :| h in c.holds && h.1 == e.1 && GivesTo(c, e.0, h.0);
      if e.0 == r {
        MemberRoleCases(c, h.0, r);
      } else {
        var k :| k in c.holds && r in MemberRolesOf(c, k.0) && k.1 == e.0;
        ParentEdge(c, h.0, k.0);
        ParentMembersAreMembers(c, h.0, k.0);
      }
    }
    ReachIsLeast(RoleGraph(c), r, hop);
  }

  // r is a member role of t exactly when some role implied by r confers t directly.
  lemma MemberIffImplied(c: Core, r: RoleId, t: TeamId)
    ensures r in MemberRolesOf(c, t) <==> exists x :: x in Implied(c, r) && GivesTo(c, x, t)
  {
    MemberRoleCases(c, t, r);
    if x :| x in Implied(c, r) && GivesTo(c, x, t) {
      OneHopIsClosure(c, r);
      if x != r {
        var h :| h in c.holds && r in MemberRolesOf(c, h.0) && h.1 == x;
        ParentEdge(c, t, h.0);
        ParentMembersAreMembers(c, t, h.0);
      }
    }
    if p :| p in Reach(ParentGraph(c), t) && GivesTo(c, r, p) {
      MemberThroughParent(c, r, t, p);
    }
  }

  lemma MemberThroughParent(c: Core, r: RoleId, t: TeamId, p: TeamId)
    requires p in Reach(ParentGraph(c), t) && GivesTo(c, r, p)
    ensures exists x :: x in Implied(c, r) && GivesTo(c, x, t)
  {
    var g := ParentGraph(c);
    var direct := set q | q in Reach(g, t) && (t, q) in g;
    // p is a direct parent of t, or lies above one
    var s := set q | q in Reach(g, t) && (q in direct || exists d :: d in direct && q in Reach(g, d));
    ReachIsClosed(g, t);
    forall e | e in g && e.0 in s ensures e.1 in s {
      if e.0 in direct {
        EdgeReaches(g, e.0, e.1);
      } else {
        var d :| d in direct && e.0 in Reach(g, d);
        AppendEdge(g, d, e.0, e.1);
      }
    }
    ReachIsLeast(g, t, s);
    var d :| d in direct && (p == d || p in Reach(g, d));
    ParentEdge(c, t, d);
    var h :| h in c.holds && h.0 == d && GivesTo(c, h.1, t);
    if p == d {
      RoleEdge(c, r, h.1);
      EdgeReaches(RoleGraph(c), r, h.1);
    } else {
      TeamChainImplies(c, r, d, p, h.1);
    }
    assert h.1 in Implied(c, r);
  }

  // A team no role is about has no member roles, whoever holds what.
  lemma NobodyGives(c: Core, t: TeamId, x: RoleId)
    requires forall y :: !GivesTo(c, y, t)
    ensures x !in MemberRolesOf(c, t)
  {
    MemberIffImplied(c, x, t);
  }

  // member_roles solves M(t) = direct(t) + M(parents of t) ...
  lemma MemberRolesSolveEquation(c: Core, t: TeamId, r: RoleId)
    ensures r in MemberRolesOf(c, t) <==>
      GivesTo(c, r, t) || exists p :: (t, p) in ParentGraph(c) && r in MemberRolesOf(c, p)
  {
    if exists p :: (t, p) in ParentGraph(c) && r in MemberRolesOf(c, p) {
      var p :| (t, p) in ParentGraph(c) && r in MemberRolesOf(c, p);
      ParentMembersAreMembers(c, t, p);
    } else if r in MemberRolesOf(c, t) && !GivesTo(c, r, t) {
      var p := MemberOfSomeParent(c, t, r);
    }
  }

  lemma MemberOfSomeParent(c: Core, t: TeamId, r: RoleId) returns (p: TeamId)
    requires r in MemberRolesOf(c, t) && !GivesTo(c, r, t)
    ensures (t, p) in ParentGraph(c) && r in MemberRolesOf(c, p)
  {
    MemberIffImplied(c, r, t);
    var x :| x in Implied(c, r) && GivesTo(c, x, t);
    OneHopIsClosure(c, r);
    var h :| h in c.holds && r in MemberRolesOf(c, h.0) && h.1 == x;
    ParentEdge(c, t, h.0);
    p := h.0;
  }

  // ... and is contained in every other solution.
  lemma MemberRolesAreLeast(c: Core, m: map<TeamId, set<RoleId>>, t: TeamId)
    requires t in m && forall e :: e in ParentGraph(c) && e.0 in m ==> e.1 in m && m[e.1] <= m[e.0]
    requires forall u :: u in m ==> DirectRoles(c, u) <= m[u]
    ensures MemberRolesOf(c, t) <= m[t]
  {
    var g := ParentGraph(c);
    var s := set p | p in m && m[p] <= m[t];
    ReachIsLeast(g, t, s);
    forall r | r in MemberRolesOf(c, t) ensures r in m[t] {
      MemberRoleCases(c, t, r);
      if p :| p in Reach(g, t) && GivesTo(c, r, p) {
        assert r in DirectRoles(c, p);
      }
    }
  }

  // ---- What an edit of the two relations can disturb ----

  // b differs from a only in the roles listed in `unheld` and in what the teams
  // listed in `touched` hold. No team holds a `unheld` role in a.
  ghost predicate DiffersOnlyAt(a: Core, b: Core, touched: set<TeamId>, unheld: set<RoleId>) {
    && (forall h :: h in a.holds ==> h.1 !in unheld)
    && (forall h: (TeamId, RoleId) :: h.0 !in touched ==> (h in a.holds <==> h in b.holds))
    && (forall r, t :: r !in unheld && t !in touched ==> (GivesTo(a, r, t) <==> GivesTo(b, r, t)))
    && (forall h, r :: h in b.holds && h.0 in touched && r !in unheld && GivesTo(b, r, h.0) ==> GivesTo(a, r, h.0))
  }

  // A role whose holders were in none of the touched teams keeps its closure.
  lemma UntouchedClosure(a: Core, b: Core, touched: set<TeamId>, unheld: set<RoleId>, r: RoleId)
    requires DiffersOnlyAt(a, b, touched, unheld) && r !in unheld
    requires forall t :: t in touched ==> r !in MemberRolesOf(a, t)
    ensures Implied(a, r) == Implied(b, r)
  {
    var ga, gb := RoleGraph(a), RoleGraph(b);
    forall x | x in Implied(a, r) ensures x !in unheld { HeldUnlessSource(a, r, x); }
    ReachIsClosed(ga, r);
    ReachIsClosed(gb, r);
    forall e | e in gb && (e.0 == r || e.0 in Reach(ga, r)) ensures e.1 in Reach(ga, r) {
      RoleEdge(b, e.0, e.1);
      var h :| h in b.holds && h.1 == e.1 && GivesTo(b, e.0, h.0);
      if h.0 in touched { MemberIffImplied(a, r, h.0); }
      RoleEdge(a, e.0, e.1);
      assert e in ga;
    }
    ReachIsLeast(gb, r, Reach(ga, r));
    forall e | e in ga && (e.0 == r || e.0 in Reach(gb, r)) ensures e.1 in Reach(gb, r) {
      RoleEdge(a, e.0, e.1);
      var h :| h in a.holds && h.1 == e.1 && GivesTo(a, e.0, h.0);
      assert e.0 in Implied(a, r);
      if h.0 in touched { MemberIffImplied(a, r, h.0); }
      RoleEdge(b, e.0, e.1);
      assert e in gb;
    }
    ReachIsLeast(ga, r, Reach(gb, r));
  }

  lemma HeldUnlessSource(c: Core, r: RoleId, x: RoleId)
    requires x in Implied(c, r)
    ensures x == r || exists h :: h in c.holds && h.1 == x
  {
    OneHopIsClosure(c, r);
  }

  // ---- Scoped rewriting of member_roles ----

  // The teams a scoped recompute rewrites: the given ones and all their
  // descendants in the team-of-team graph.
  ghost predicate InScope(c: Core, teamIds: set<TeamId>, t: TeamId) {
    t in teamIds || exists a :: a in teamIds && a in Reach(ParentGraph(c), t)
  }

  ghost predicate SameAt(a: Core, b: Core, t: TeamId) {
    && DirectRoles(a, t) == DirectRoles(b, t)
    && forall p :: (t, p) in ParentGraph(a) <==> (t, p) in ParentGraph(b)
  }

  lemma SameEdge(a: Core, b: Core, t: TeamId, p: TeamId)
    requires SameAt(a, b, t)
    ensures (t, p) in ParentGraph(a) <==> (t, p) in ParentGraph(b)
  {
  }

  // Outside the scope nothing changes, provided every team whose direct roles
  // or parents changed is listed.
  lemma OutOfScopeUnchanged(a: Core, b: Core, teamIds: set<TeamId>, t: TeamId)
    requires forall u :: u !in teamIds ==> SameAt(a, b, u)
    requires !InScope(b, teamIds, t)
    ensures MemberRolesOf(a, t) == MemberRolesOf(b, t)
  {
    var ga, gb := ParentGraph(a), ParentGraph(b);
    ReachIsClosed(ga, t);
    ReachIsClosed(gb, t);
    forall e | e in ga && (e.0 == t || e.0 in Reach(gb, t)) ensures e.1 in Reach(gb, t) {
      SameEdge(a, b, e.0, e.1);
    }
    ReachIsLeast(ga, t, Reach(gb, t));
    var s := set p | p in Reach(gb, t) && p in Reach(ga, t);
    forall e | e in gb && (e.0 == t || e.0 in s) ensures e.1 in s {
      SameEdge(a, b, e.0, e.1);
    }
    ReachIsLeast(gb, t, s);
    assert Reach(ga, t) == Reach(gb, t);
    forall p | p == t || p in Reach(gb, t) ensures DirectRoles(a, p) == DirectRoles(b, p) {
      assert SameAt(a, b, p);
    }
  }
}
