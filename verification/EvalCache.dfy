// RoleEvaluation rows: what one role confers, the difference to what is stored,
// and the bulk recompute per role set, per object, and over all roles in chunks.
module EvalCache {
  import opened Graphs
  import opened Membership
  import opened Hierarchy
  import opened Walks
  import opened RbacModel
  import opened Refresh
  import opened Creation
  import opened Permissions
  import opened MemberCache

  // ---- expected_direct_permissions ----

  // Which child type a permission is evaluated on, and the filter path up to the role's target.
  method GetChildFilters(s: Schema, roleCt: TypeId, p: PermDef) returns (r: Option<ChildFilter>)
    requires WellFormed(s)
    ensures r.None? <==> EvalType(s, roleCt, p).None?
    ensures r.Some? ==> EvalType(s, roleCt, p) == Some(r.value.1) && PathTo(s.reg, r.value.1, r.value.0, roleCt)
  {
    var filters := GetChildModels(s.reg, roleCt);
    ghost var found := set i | 0 <= i < |filters| && filters[i].1 == p.ct;
    for i := 0 to |filters|
      invariant forall j :: 0 <= j < i ==> filters[j].1 != p.ct || (IsAddPerm(p.codename) && |filters[j].0| <= 1)
    {
      var path, model := filters[i].0, filters[i].1;
      if model == p.ct {
        PathReaches(s.reg, model, path, roleCt);
        if !IsAddPerm(p.codename) {
          return Some((path, model));
        } else if |path| > 1 {
          var above := s.reg.related[(model, path[0])];
          PathReaches(s.reg, above, path[1..], roleCt);
          return Some((path[1..], above));
        }
      }
    }
    NoFilterNoType(s, roleCt, p, filters);
    return None;
  }

  lemma NoFilterNoType(s: Schema, roleCt: TypeId, p: PermDef, filters: seq<ChildFilter>)
    requires WellFormed(s) && PathsTo(s.reg, filters, roleCt)
    requires forall t :: t in Types(filters) <==> roleCt in Reach(TypeGraph(s.reg), t)
    requires forall j :: 0 <= j < |filters| ==> filters[j].1 != p.ct || (IsAddPerm(p.codename) && |filters[j].0| <= 1)
    ensures EvalType(s, roleCt, p).None?
  {
    TypeReach(s.reg, p.ct);
    if roleCt in Reach(TypeGraph(s.reg), p.ct) {
      assert p.ct in Types(filters);
      var j :| 0 <= j < |filters| && filters[j].1 == p.ct;
      assert PathTo(s.reg, filters[j].1, filters[j].0, roleCt);
      assert ParentType(s.reg, p.ct) == Some(roleCt);
    }
  }

  // The permissions of Direct that a look-ahead object lets through.
  predicate LetThrough(target: Obj, o: Obj, x: Option<Obj>) {
    x.None? || o == x.value || (target.ct == x.value.ct && o == target)
  }

  ghost predicate DirectHas(s: Schema, objs: Objects, row: RoleRow, q: Perm, x: Option<Obj>)
    requires row.rd in s.rdPermissions
  {
    q in Direct(s, objs, row) && LetThrough(row.target, q.obj, x)
  }

  // Objects on which permission p of a role on target is granted.
  ghost predicate GrantsVia(s: Schema, objs: Objects, target: Obj, p: PermDef, o: Obj, x: Option<Obj>) {
    Grants(s, objs, target, p, o) && LetThrough(target, o, x)
  }

  // The child ids below target, read by filter path or taken from the cache of this call.
  method ChildIds(s: Schema, objs: Objects, target: Obj, f: ChildFilter, cached: map<TypeId, set<Obj>>)
    returns (ids: set<Obj>, cached': map<TypeId, set<Obj>>)
    requires WellFormed(s) && WellTyped(s.reg, objs) && PathTo(s.reg, f.1, f.0, target.ct)
    requires forall ct :: ct in cached ==> cached[ct] == Below(objs, target, ct)
    ensures ids == Below(objs, target, f.1)
    ensures forall ct :: ct in cached' ==> cached'[ct] == Below(objs, target, ct)
  {
    if f.1 in cached { return cached[f.1], cached; }
    ids := set o | o in objs && o.ct == f.1 && Follow(s.reg, objs, o, f.0) == Some(target);
    forall o | o in objs && o.ct == f.1 { FollowIffAncestor(s.reg, objs, o, f.0, target); }
    cached' := cached[f.1 := ids];
  }

  // One permission of the role definition.
  method GrantedObjects(s: Schema, objs: Objects, target: Obj, p: PermDef, x: Option<Obj>,
    cached: map<TypeId, set<Obj>>)
    returns (granted: set<Obj>, cached': map<TypeId, set<Obj>>)
    requires WellFormed(s) && WellTyped(s.reg, objs)
    requires forall ct :: ct in cached ==> cached[ct] == Below(objs, target, ct)
    ensures forall o :: o in granted <==> GrantsVia(s, objs, target, p, o, x)
    ensures forall ct :: ct in cached' ==> cached'[ct] == Below(objs, target, ct)
  {
    cached' := cached;
    var skipRoleCt := x.Some? && target.ct != x.value.ct;
    granted := {};
    if p.ct == target.ct {
      if !skipRoleCt { granted := {target}; }
      return;
    }
    if !skipRoleCt && (IsAddPerm(p.codename) || s.cacheParentPermissions) { granted := {target}; }
    var filter := GetChildFilters(s, target.ct, p);
    if filter.None? { return; }
    ObjectsBelowDiffer(s, objs, target, filter.value);
    if x.Some? && filter.value.1 != x.value.ct { return; }
    var ids;
    ids, cached' := ChildIds(s, objs, target, filter.value, cached);
    granted := granted + set o | o in ids && (x.None? || o.pk == x.value.pk);
  }

  lemma ObjectsBelowDiffer(s: Schema, objs: Objects, target: Obj, f: ChildFilter)
    requires WellFormed(s) && WellTyped(s.reg, objs) && PathTo(s.reg, f.1, f.0, target.ct)
    ensures f.1 != target.ct
  {
    PathReaches(s.reg, f.1, f.0, target.ct);
  }

  method ExpectedDirectPermissions(s: Schema, objs: Objects, row: RoleRow, x: Option<Obj>) returns (expected: set<Perm>)
    requires WellFormed(s) && WellTyped(s.reg, objs) && row.rd in s.rdPermissions
    ensures forall q :: q in expected <==> DirectHas(s, objs, row, q, x)
    ensures forall q :: q in expected <==>
      (x.None? || q.obj == x.value || (row.target.ct == x.value.ct && q.obj == row.target)) && exists p :: (
      && p in s.rdPermissions[row.rd] && p.codename == q.codename
      && (|| (q.obj == row.target && (p.ct == row.target.ct || IsAddPerm(p.codename) || s.cacheParentPermissions))
          || (row.target in Reach(ObjectGraph(objs), q.obj) &&
              if IsAddPerm(p.codename) then ParentType(s.reg, p.ct) == Some(q.obj.ct) else q.obj.ct == p.ct)))
  {
    expected := {};
    var cached: map<TypeId, set<Obj>> := map[];
    var perms := s.rdPermissions[row.rd];
    var rest := perms;
    while rest != {}
      invariant rest <= perms
      invariant forall ct :: ct in cached ==> cached[ct] == Below(objs, row.target, ct)
      invariant forall q :: q in expected <==>
        exists p :: p in perms && p !in rest && p.codename == q.codename && GrantsVia(s, objs, row.target, p, q.obj, x)
      decreases rest
    {
      var p :| p in rest;
      rest := rest - {p};
      var granted;
      granted, cached := GrantedObjects(s, objs, row.target, p, x, cached);
      expected := expected + set o | o in granted :: Perm(p.codename, o);
    }
    forall q ensures q in expected <==> DirectHas(s, objs, row, q, x) {
      GrantsIsDirect(s, objs, row, q);
    }
    forall q { DirectMeans(s, objs, row, q); }
  }

  // ---- needed_cache_updates ----

  // Batch-loaded rows for a chunk of roles.
  class EvaluationsPrefetch {
    var partials: map<RoleId, set<Perm>>
    var teamRoles: map<RoleId, set<RoleId>>

    constructor ()
      ensures partials == map[] && teamRoles == map[]
    {
      partials, teamRoles := map[], map[];
    }

    // Loaded for every role of the chunk, as the tables have it.
    ghost predicate LoadedFor(db: Db, roles: set<RoleId>)
      reads this
    {
      forall r :: r in roles ==>
        r in partials && r in teamRoles &&
        (forall q :: q in partials[r] <==> (r, q) in db.evals) &&
        (forall y :: y in teamRoles[r] <==> exists h :: h in db.teamHolds && (h.0, r) in db.memberRoles && h.1 == y)
    }
  }

  ghost predicate Wanted(s: Schema, db: Db, r: RoleId, q: Perm, x: Option<Obj>) {
    exists y :: Hop(db, r, y) && Confers(s, db, y, q) && LetThrough(db.roles[y].target, q.obj, x)
  }

  // The stored rows a call looks at: all of them, or those on the look-ahead object.
  ghost predicate Seen(db: Db, r: RoleId, q: Perm, x: Option<Obj>) {
    (r, q) in db.evals && (x.None? || q.obj == x.value)
  }

  lemma WantedForms(s: Schema, db: Db, r: RoleId, q: Perm, x: Option<Obj>)
    ensures x.None? ==> (Wanted(s, db, r, q, x) <==> ExpectedHas(s, db, r, q))
    ensures x.Some? ==> (Wanted(s, db, r, q, x) <==> NarrowHas(s, db, r, q, x.value))
  {
    if x.Some? {
      forall y
        ensures Confers(s, db, y, q) && LetThrough(db.roles[y].target, q.obj, x) <==>
          ConfersNarrow(s, db, y, q, x.value)
      {
      }
    }
  }

  // The roles of the teams that r provides, team by team.
  method TeamRolesOf(db: Db, r: RoleId) returns (found: set<RoleId>)
    ensures forall y :: y in found <==> exists h :: h in db.teamHolds && (h.0, r) in db.memberRoles && h.1 == y
  {
    found := {};
    var provided := set m | m in db.memberRoles && m.1 == r :: m.0;
    forall t ensures t in provided <==> (t, r) in db.memberRoles {
      if (t, r) in db.memberRoles { assert (t, r).1 == r; }
    }
    var rest := provided;
    while rest != {}
      invariant rest <= provided
      invariant forall y :: y in found <==> exists h :: h in db.teamHolds && h.0 in provided && h.0 !in rest && h.1 == y
      decreases rest
    {
      ghost var pick := AnyOf(rest);
      var t :| t in rest;
      rest := rest - {t};
      found := found + set h | h in db.teamHolds && h.0 == t :: h.1;
    }
  }

  method ExpectedEvaluations(s: Schema, db: Db, r: RoleId, teamRoles: set<RoleId>, x: Option<Obj>)
    returns (expected: set<Perm>)
    requires WellFormed(s) && Valid(s, db) && r in db.roles
    requires forall y :: y in teamRoles <==> exists h :: h in db.teamHolds && (h.0, r) in db.memberRoles && h.1 == y
    ensures forall q :: q in expected <==> Wanted(s, db, r, q, x)
  {
    expected := ExpectedDirectPermissions(s, db.objects, db.roles[r], x);
    assert forall y :: Hop(db, r, y) <==> y == r || y in teamRoles;
    var rest := teamRoles;
    while rest != {}
      invariant rest <= teamRoles
      invariant forall q :: q in expected <==>
        exists y :: (y == r || (y in teamRoles && y !in rest)) && Confers(s, db, y, q) &&
          LetThrough(db.roles[y].target, q.obj, x)
      decreases rest
    {
      ghost var pick := AnyOf(rest);
      var y :| y in rest;
      rest := rest - {y};
      var more := ExpectedDirectPermissions(s, db.objects, db.roles[y], x);
      assert forall q :: q in more <==> Confers(s, db, y, q) && LetThrough(db.roles[y].target, q.obj, x);
      expected := expected + more;
    }
  }

  method NeededCacheUpdates(s: Schema, db: Db, r: RoleId, prefetch: EvaluationsPrefetch?, x: Option<Obj>)
    returns (toDelete: set<Perm>, toAdd: set<Perm>)
    requires WellFormed(s) && Valid(s, db) && r in db.roles
    requires prefetch != null ==> prefetch.LoadedFor(db, {r})
    ensures forall q :: q in toDelete <==> Seen(db, r, q, x) && !Wanted(s, db, r, q, x)
    ensures forall q :: q in toAdd <==> Wanted(s, db, r, q, x) && !Seen(db, r, q, x)
  {
    var existing: set<Perm>;
    if x.Some? {
      existing := set e | e in db.evals && e.0 == r && e.1.obj == x.value :: e.1;
    } else if prefetch != null {
      existing := prefetch.partials[r];
    } else {
      existing := set e | e in db.evals && e.0 == r :: e.1;
    }
    forall q ensures q in existing <==> Seen(db, r, q, x) {
      if (r, q) in db.evals { assert (r, q).0 == r && (r, q).1 == q; }
    }
    var teamRoles: set<RoleId>;
    if prefetch != null {
      teamRoles := prefetch.teamRoles[r];
    } else {
      teamRoles := TeamRolesOf(db, r);
    }
    var expected := ExpectedEvaluations(s, db, r, teamRoles, x);
    toDelete, toAdd := existing - expected, expected - existing;
  }

  // ---- Accumulating and applying updates ----

  class EvaluationUpdates {
    var toDelete: set<(RoleId, Perm)>
    var toAdd: set<(RoleId, Perm)>

    constructor ()
      ensures toDelete == {} && toAdd == {}
    {
      toDelete, toAdd := {}, {};
    }

    // Holds the differences of exactly the roles of done.
    ghost predicate Collected(s: Schema, db: Db, done: set<RoleId>, x: Option<Obj>)
      reads this
    {
      && (forall r, q :: (r, q) in toDelete <==> r in done && Seen(db, r, q, x) && !Wanted(s, db, r, q, x))
      && (forall r, q :: (r, q) in toAdd <==> r in done && Wanted(s, db, r, q, x) && !Seen(db, r, q, x))
    }

    method Collect(s: Schema, db: Db, r: RoleId, prefetch: EvaluationsPrefetch?, x: Option<Obj>,
      ghost done: set<RoleId>)
      requires WellFormed(s) && Valid(s, db) && r in db.roles && r !in done && Collected(s, db, done, x)
      requires prefetch != null ==> prefetch.LoadedFor(db, {r})
      modifies this
      ensures Collected(s, db, done + {r}, x)
    {
      var roleToDelete, roleToAdd := NeededCacheUpdates(s, db, r, prefetch, x);
      toDelete := toDelete + set q | q in roleToDelete :: (r, q);
      toAdd := toAdd + set q | q in roleToAdd :: (r, q);
    }

    // Additions first (rows already there are ignored), then deletions.
    method Apply(store: RbacStore)
      modifies store`evals
      ensures store.evals == old(store.evals) + toAdd - toDelete
    {
      store.evals := store.evals + toAdd;
      store.evals := store.evals - toDelete;
    }
  }

  // Applying the collected differences rewrites exactly the collected roles.
  lemma AppliedAsSpecified(s: Schema, b: Db, rs: set<RoleId>, x: Option<Obj>, u: EvaluationUpdates, c: Db)
    requires u.Collected(s, b, rs * b.roles.Keys, x)
    requires c == b.(evals := b.evals + u.toAdd - u.toDelete)
    ensures x.None? ==> EvalsRewritten(s, b, c, rs)
    ensures x.Some? ==> EvalsRewrittenAt(s, b, c, rs, x.value)
  {
    forall r, q ensures (r, q) in c.evals <==>
      if r in rs && r in b.roles then Wanted(s, b, r, q, x) || ((r, q) in b.evals && !Seen(b, r, q, x))
      else (r, q) in b.evals
    {
    }
    forall r, q { WantedForms(s, b, r, q, x); }
  }

  method RecomputeRoleEvaluations(store: RbacStore, objectRoles: set<RoleId>, x: Option<Obj>)
    requires store.Ready()
    modifies store`evals
    ensures store.Ready()
    ensures x.None? ==> EvalsRewritten(store.s, old(store.View()), store.View(), objectRoles)
    ensures x.Some? ==> EvalsRewrittenAt(store.s, old(store.View()), store.View(), objectRoles, x.value)
  {
    var s, db := store.s, store.View();
    var updates := new EvaluationUpdates();
    var existing := objectRoles * db.roles.Keys;
    var rest := existing;
    while rest != {}
      invariant rest <= existing && store.View() == db
      invariant updates.Collected(s, db, existing - rest, x)
      decreases rest
    {
      ghost var pick := AnyOf(rest);
      var r :| r in rest;
      updates.Collect(s, db, r, null, x, existing - rest);
      assert existing - (rest - {r}) == existing - rest + {r};
      rest := rest - {r};
    }
    updates.Apply(store);
    AppliedAsSpecified(s, db, objectRoles, x, updates, store.View());
    if x.None? {
      EvalsRewrittenValid(s, db, store.View(), objectRoles);
    } else {
      EvalsRewrittenAtValid(s, db, store.View(), objectRoles, x.value);
    }
  }
}
