// Recomputing the evaluations of every role: keyset pagination over primary keys,
// with the rows of each chunk loaded in batches.
module RecomputeAll {
  import opened Graphs
  import opened Membership
  import opened Hierarchy
  import opened Walks
  import opened RbacModel
  import opened Refresh
  import opened Creation
  import opened MemberCache
  import opened EvalCache

  // ---- EvaluationsPrefetch.from_roles ----

  method FetchEvaluations(db: Db, pks: set<RoleId>) returns (byRole: map<RoleId, set<Perm>>)
    ensures byRole.Keys == pks
    ensures forall r, q :: r in pks ==> (q in byRole[r] <==> (r, q) in db.evals)
  {
    byRole := map[];
    var rows := set e | e in db.evals && e.0 in pks;
    var rest := rows;
    while rest != {}
      invariant rest <= rows && byRole.Keys <= pks
      invariant forall r, q :: r in byRole && q in byRole[r] ==> (r, q) in rows
      invariant forall e :: e in rows && e !in rest ==> e.0 in byRole && e.1 in byRole[e.0]
      decreases rest
    {
      var e :| e in rest;
      rest := rest - {e};
      byRole := byRole[e.0 := (if e.0 in byRole then byRole[e.0] else {}) + {e.1}];
    }
    forall r, q | (r, q) in db.evals && r in pks ensures r in byRole && q in byRole[r] {
      assert (r, q) in rows;
    }
    byRole := map r | r in pks :: if r in byRole then byRole[r] else {};
  }

  method FetchRoleToTeams(db: Db, pks: set<RoleId>) returns (roleToTeams: Neighbours)
    ensures forall r, t :: t in NeighboursOf(roleToTeams, r) <==> r in pks && (t, r) in db.memberRoles
  {
    roleToTeams := map[];
    var rows := set m | m in db.memberRoles && m.1 in pks;
    var rest := rows;
    while rest != {}
      invariant rest <= rows
      invariant forall r, t :: t in NeighboursOf(roleToTeams, r) <==> (t, r) in rows && (t, r) !in rest
      decreases rest
    {
      var m :| m in rest;
      rest := rest - {m};
      assert m == (m.0, m.1);
      roleToTeams := AppendForEach(roleToTeams, [m.1], m.0);
    }
  }

  method FetchTeamToRolePks(db: Db, roleToTeams: Neighbours) returns (teamToRoles: Neighbours)
    ensures forall t, y :: y in NeighboursOf(teamToRoles, t) <==>
      (t, y) in db.teamHolds && exists r :: t in NeighboursOf(roleToTeams, r)
  {
    teamToRoles := map[];
    var teams := set r, t | r in roleToTeams && t in roleToTeams[r] :: t;
    forall t ensures t in teams <==> exists r :: t in NeighboursOf(roleToTeams, r) {
      if r :| t in NeighboursOf(roleToTeams, r) { assert r in roleToTeams; }
      if t in teams {
        var r :| r in roleToTeams && t in roleToTeams[r];
        assert t in NeighboursOf(roleToTeams, r);
      }
    }
    var rows := set h | h in db.teamHolds && h.0 in teams;
    var rest := rows;
    while rest != {}
      invariant rest <= rows
      invariant forall t, y :: y in NeighboursOf(teamToRoles, t) <==> (t, y) in rows && (t, y) !in rest
      decreases rest
    {
      var h :| h in rest;
      rest := rest - {h};
      assert h == (h.0, h.1);
      teamToRoles := AppendForEach(teamToRoles, [h.0], h.1);
    }
  }

  // The roles reachable from one role through the two dictionaries.
  method CandidatePks(teams: seq<TeamId>, teamToRoles: Neighbours) returns (found: set<RoleId>)
    ensures forall y :: y in found <==> exists t :: t in teams && y in NeighboursOf(teamToRoles, t)
  {
    found := {};
    for i := 0 to |teams|
      invariant forall y :: y in found <==> exists t :: t in teams[..i] && y in NeighboursOf(teamToRoles, t)
    {
      assert teams[..i + 1] == teams[..i] + [teams[i]];
      found := found + ToSet(NeighboursOf(teamToRoles, teams[i]));
    }
    assert teams[..|teams|] == teams;
  }

  method FromRoles(s: Schema, db: Db, pks: set<RoleId>) returns (p: EvaluationsPrefetch)
    requires Valid(s, db)
    ensures fresh(p) && p.LoadedFor(db, pks)
  {
    p := new EvaluationsPrefetch();
    if pks == {} { return; }
    var partials := FetchEvaluations(db, pks);
    var roleToTeams := FetchRoleToTeams(db, pks);
    var teamToRoles := FetchTeamToRolePks(db, roleToTeams);
    var teamRoles: map<RoleId, set<RoleId>> := map[];
    var rest := pks;
    while rest != {}
      invariant rest <= pks
      invariant forall r :: r in pks && r !in rest ==> r in teamRoles
      invariant forall r, y :: r in pks && r !in rest ==>
        (y in teamRoles[r] <==> exists h :: h in db.teamHolds && (h.0, r) in db.memberRoles && h.1 == y)
      decreases rest
    {
      ghost var pick := AnyOf(rest);
      var r :| r in rest;
      rest := rest - {r};
      var candidates := CandidatePks(NeighboursOf(roleToTeams, r), teamToRoles);
      forall y ensures y in candidates <==> exists h :: h in db.teamHolds && (h.0, r) in db.memberRoles && h.1 == y {
        BatchedIsPerRole(db, roleToTeams, teamToRoles, pks, r, y);
      }
      teamRoles := teamRoles[r := set y | y in candidates && y in db.roles];
    }
    p.partials, p.teamRoles := partials, teamRoles;
  }

  // Going through the batched dictionaries finds what the per-role queries find.
  lemma BatchedIsPerRole(db: Db, roleToTeams: Neighbours, teamToRoles: Neighbours, pks: set<RoleId>, r: RoleId,
    y: RoleId)
    requires r in pks
    requires forall r, t :: t in NeighboursOf(roleToTeams, r) <==> r in pks && (t, r) in db.memberRoles
    requires forall t, y :: y in NeighboursOf(teamToRoles, t) <==>
      (t, y) in db.teamHolds && exists r :: t in NeighboursOf(roleToTeams, r)
    ensures (exists t :: t in NeighboursOf(roleToTeams, r) && y in NeighboursOf(teamToRoles, t)) <==>
      exists h :: h in db.teamHolds && (h.0, r) in db.memberRoles && h.1 == y
  {
    if t :| t in NeighboursOf(roleToTeams, r) && y in NeighboursOf(teamToRoles, t) {
      assert (t, y) in db.teamHolds && (t, y).0 == t && (t, y).1 == y;
    }
    if h :| h in db.teamHolds && (h.0, r) in db.memberRoles && h.1 == y {
      var t := h.0;
      assert h == (t, y) && (t, r) in db.memberRoles;
      assert t in NeighboursOf(roleToTeams, r);
    }
  }

  // ---- Pagination ----

  function KeysAbove(keys: set<RoleId>, last: RoleId): set<RoleId> {
    set k | k in keys && k > last
  }

  ghost predicate Increasing(s: seq<int>) {
    forall i, j :: 0 <= i < j < |s| ==> s[i] < s[j]
  }

  method Smallest(keys: set<int>) returns (k: int)
    requires keys != {}
    ensures k in keys && forall j :: j in keys ==> k <= j
  {
    ghost var pick := AnyOf(keys);
    k :| k in keys;
    var rest := keys - {k};
    while rest != {}
      invariant rest <= keys && k in keys
      invariant forall j :: j in keys && j !in rest ==> k <= j
      decreases rest
    {
      ghost var pick := AnyOf(rest);
      var j :| j in rest;
      rest := rest - {j};
      if j < k { k := j; }
    }
  }

  // order_by('pk').filter(pk__gt=last)[:size]
  method NextChunk(keys: set<RoleId>, last: RoleId, size: nat) returns (chunk: seq<RoleId>)
    ensures Increasing(chunk) && |chunk| <= size && Elements(chunk) <= KeysAbove(keys, last)
    ensures forall k :: k in KeysAbove(keys, last) && k !in chunk ==>
      |chunk| == size && forall i :: 0 <= i < |chunk| ==> chunk[i] < k
  {
    chunk := [];
    var rest := KeysAbove(keys, last);
    while |chunk| < size && rest != {}
      invariant rest <= KeysAbove(keys, last)
      invariant Increasing(chunk) && |chunk| <= size && Elements(chunk) <= KeysAbove(keys, last)
      invariant forall k :: k in KeysAbove(keys, last) <==> k in rest || k in chunk
      invariant forall k, i :: k in rest && 0 <= i < |chunk| ==> chunk[i] < k
      decreases rest
    {
      var k := Smallest(rest);
      rest := rest - {k};
      IncreasingDistinct(chunk);
      ElementsAppend(chunk, k);
      chunk := chunk + [k];
    }
  }

  lemma IncreasingDistinct(s: seq<int>)
    requires Increasing(s)
    ensures Distinct(s)
  {
  }

  lemma ElementsJoin(a: seq<int>, b: seq<int>)
    ensures Elements(a + b) == Elements(a) + Elements(b)
  {
    forall x | x in Elements(a) + Elements(b) ensures x in Elements(a + b) {
      if x in Elements(a) {
        var i :| 0 <= i < |a| && a[i] == x;
        assert (a + b)[i] == x;
      } else {
        var i :| 0 <= i < |b| && b[i] == x;
        assert (a + b)[|a| + i] == x;
      }
    }
  }

  // One chunk moves the start key past exactly the roles it contains.
  lemma ChunkAdvances(keys: set<RoleId>, last: RoleId, chunk: seq<RoleId>, size: nat, visited: seq<RoleId>)
    requires chunk != [] && Increasing(chunk) && Elements(chunk) <= KeysAbove(keys, last)
    requires forall k :: k in KeysAbove(keys, last) && k !in chunk ==> forall i :: 0 <= i < |chunk| ==> chunk[i] < k
    requires Increasing(visited) && (forall k :: k in visited ==> k <= last) && last >= 0
    requires Elements(visited) == KeysAbove(keys, 0) - KeysAbove(keys, last)
    ensures var next := chunk[|chunk| - 1];
      && next > last
      && KeysAbove(keys, next) == KeysAbove(keys, last) - Elements(chunk) < KeysAbove(keys, last)
      && Increasing(visited + chunk) && (forall k :: k in visited + chunk ==> k <= next)
      && Elements(visited + chunk) == KeysAbove(keys, 0) - KeysAbove(keys, next)
  {
    var next := chunk[|chunk| - 1];
    forall i | 0 <= i < |chunk| ensures chunk[i] in Elements(chunk) && last < chunk[i] <= next {}
    forall i | 0 <= i < |visited| ensures visited[i] <= last { assert visited[i] in visited; }
    forall k | k in KeysAbove(keys, last) ensures k in Elements(chunk) <==> k <= next {
      if k in chunk { var i :| 0 <= i < |chunk| && chunk[i] == k; }
    }
    forall k | k in Elements(chunk) ensures k in chunk {}
    ElementsJoin(visited, chunk);
    assert next in Elements(chunk);
  }

  method CollectChunk(s: Schema, db: Db, chunk: seq<RoleId>, prefetch: EvaluationsPrefetch, updates: EvaluationUpdates,
                      ghost visited: seq<RoleId>)
    requires WellFormed(s) && Valid(s, db) && prefetch.LoadedFor(db, ToSet(chunk))
    requires Distinct(visited + chunk) && forall k :: k in chunk ==> k in db.roles
    requires updates.Collected(s, db, Elements(visited), None)
    modifies updates
    ensures updates.Collected(s, db, Elements(visited + chunk), None)
  {
    ghost var done := visited;
    for i := 0 to |chunk|
      invariant done == visited + chunk[..i]
      invariant updates.Collected(s, db, Elements(done), None)
    {
      assert chunk[i] in chunk && chunk[i] in ToSet(chunk);
      forall j | 0 <= j < |done| ensures done[j] != chunk[i] {
        assert done[j] == (visited + chunk)[j] && chunk[i] == (visited + chunk)[|visited| + i];
      }
      updates.Collect(s, db, chunk[i], prefetch, None, Elements(done));
      ElementsJoin(done, [chunk[i]]);
      assert Elements([chunk[i]]) == {chunk[i]} by { assert [chunk[i]][0] == chunk[i]; }
      done := done + [chunk[i]];
      assert chunk[..i + 1] == chunk[..i] + [chunk[i]];
    }
    assert chunk[..|chunk|] == chunk;
  }

  // Every role above the start key, once each, in chunks of any positive size; one
  // bulk write at the end. visited records the order of the visits.
  method RecomputeAllRoleEvaluations(store: RbacStore, chunkSize: nat) returns (ghost visited: seq<RoleId>)
    requires store.Ready() && chunkSize > 0
    modifies store`evals
    ensures store.Ready()
    ensures Increasing(visited) && Elements(visited) == KeysAbove(store.roles.Keys, 0)
    ensures forall k :: k in visited <==> k in store.roles && k > 0
    ensures EvalsRewritten(store.s, old(store.View()), store.View(), KeysAbove(store.roles.Keys, 0))
  {
    var s, db := store.s, store.View();
    var keys := db.roles.Keys;
    var updates := new EvaluationUpdates();
    var lastPk := 0;
    visited := [];
    while true
      invariant store.View() == db && 0 <= lastPk
      invariant Increasing(visited) && forall k :: k in visited ==> k <= lastPk
      invariant Elements(visited) == KeysAbove(keys, 0) - KeysAbove(keys, lastPk)
      invariant updates.Collected(s, db, Elements(visited), None)
      decreases KeysAbove(keys, lastPk)
    {
      var chunk := NextChunk(keys, lastPk, chunkSize);
      if chunk == [] { break; }
      ghost var before := lastPk;
      lastPk := chunk[|chunk| - 1];
      var prefetch := FromRoles(s, db, ToSet(chunk));
      ChunkAdvances(keys, before, chunk, chunkSize, visited);
      IncreasingDistinct(visited + chunk);
      forall k | k in chunk ensures k in keys { assert k in Elements(chunk); }
      CollectChunk(s, db, chunk, prefetch, updates, visited);
      visited := visited + chunk;
    }
    updates.Apply(store);
    forall k ensures k in visited <==> k in Elements(visited) {}
    assert Elements(visited) == KeysAbove(keys, 0) * db.roles.Keys;
    AppliedAsSpecified(s, db, KeysAbove(keys, 0), None, updates, store.View());
    EvalsRewrittenValid(s, db, store.View(), KeysAbove(keys, 0));
  }

  // Roles with non-positive keys are never visited, so with member_roles right the
  // run leaves every evaluation right exactly when those roles' rows were right before.
  lemma FullRunCorrectIff(s: Schema, b: Db, c: Db)
    requires Valid(s, b) && MembersCorrect(s, b) && EvalsRewritten(s, b, c, KeysAbove(b.roles.Keys, 0))
    ensures Correct(s, c) <==> forall r, q :: r in b.roles && r <= 0 ==> ((r, q) in b.evals <==> Granted(s, b, r, q))
  {
    EvalsRewrittenValid(s, b, c, KeysAbove(b.roles.Keys, 0));
    assert CoreOf(s, c) == CoreOf(s, b);
    ConfersSame(s, b, c);
    forall r, q | r in b.roles
      ensures Granted(s, c, r, q) <==> Granted(s, b, r, q)
      ensures r > 0 ==> ((r, q) in c.evals <==> Granted(s, c, r, q))
      ensures r <= 0 ==> ((r, q) in c.evals <==> (r, q) in b.evals)
    {
      ExpectedIsGranted(s, b, r, q);
    }
  }

  // A second run finds nothing to delete and nothing to add.
  lemma SecondRunFindsNothing(s: Schema, b: Db, c: Db, rs: set<RoleId>, r: RoleId, q: Perm)
    requires EvalsRewritten(s, b, c, rs) && r in rs && r in b.roles
    ensures Seen(c, r, q, None) <==> Wanted(s, c, r, q, None)
  {
    WantedForms(s, c, r, q, None);
    ConfersSame(s, b, c);
    assert forall y :: Hop(b, r, y) <==> Hop(c, r, y);
  }
}
