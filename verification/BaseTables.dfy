// What deleting leaves of the base tables: objects, roles, and who holds them.
module BaseTables {
  import opened Hierarchy
  import opened Membership
  import opened RbacModel
  import opened Refresh
  import opened Assignments
  import opened Deletion
  import opened BatchDeletion

  // Dropping the roles nobody holds takes no assignment along.
  lemma CleanupRows(db: Db, after: Db, r: RoleId, k: (int, RoleId))
    requires after == WithoutRoles(db, Orphans(db, db.roles.Keys))
    requires (forall h :: h in db.userHolds ==> h.1 in db.roles) && forall h :: h in db.teamHolds ==> h.1 in db.roles
    ensures r in after.roles <==> r in db.roles && exists h :: (h in db.userHolds || h in db.teamHolds) && h.1 == r
    ensures r in after.roles ==> after.roles[r] == db.roles[r]
    ensures (k in after.userHolds <==> k in db.userHolds) && (k in after.teamHolds <==> k in db.teamHolds)
    ensures after.objects == db.objects
  {
  }

  // One post_delete handler of a team drops the roles on the team and the roles nobody holds.
  lemma HandlerRows(s: Schema, a: Db, g: Db, h: Db, t: TeamId, r: RoleId, k: (int, RoleId))
    requires Valid(s, g) && Handled(s, a, g, h, t)
    ensures h.objects == g.objects
    ensures r in h.roles <==>
      r in g.roles && g.roles[r].target != Obj(s.teamCt, t) &&
      exists x :: (x in g.userHolds || x in g.teamHolds) && x.1 == r
    ensures r in h.roles ==> h.roles[r] == g.roles[r]
    ensures (k in h.userHolds <==> k in g.userHolds && k.1 in h.roles) &&
      (k in h.teamHolds <==> k in g.teamHolds && k.1 in h.roles)
  {
    var c, d :| MembersRewritten(s, g, c, StashedTeamIds(s, a, t)) &&
      EvalsRewritten(s, c, d, NamedBy(s, a, g, t)) && h == AfterTeamDelete(s, d, t);
    assert d == g.(memberRoles := d.memberRoles, evals := d.evals);
    CleanupRows(d, WithoutRoles(d, Orphans(d, d.roles.Keys)), r, k);
    CleanupRows(d, WithoutRoles(d, Orphans(d, d.roles.Keys)), k.1, k);
  }

  // After the delete and i > 0 handlers.
  ghost predicate RowsAfter(s: Schema, a: Db, order: seq<TeamId>, i: nat, g: Db)
    requires i <= |order|
  {
    && (forall r :: r in g.roles <==>
          r in a.roles && (forall j :: 0 <= j < i ==> a.roles[r].target != Obj(s.teamCt, order[j])) &&
          (i > 0 ==> exists k :: (k in a.userHolds || (k in a.teamHolds && k.0 !in order)) && k.1 == r))
    && (forall r :: r in g.roles ==> g.roles[r] == a.roles[r])
    && (forall k :: k in g.userHolds <==> k in a.userHolds && k.1 in g.roles)
    && (forall k :: k in g.teamHolds <==> k in a.teamHolds && k.0 !in order && k.1 in g.roles)
  }

  lemma NextRows(s: Schema, a: Db, order: seq<TeamId>, i: nat, g: Db, h: Db)
    requires i < |order| && RowsAfter(s, a, order, i, g) && Valid(s, g) && Handled(s, a, g, h, order[i])
    ensures RowsAfter(s, a, order, i + 1, h)
  {
    forall r
      ensures r in h.roles <==>
        r in a.roles && (forall j :: 0 <= j < i + 1 ==> a.roles[r].target != Obj(s.teamCt, order[j])) &&
        exists k :: (k in a.userHolds || (k in a.teamHolds && k.0 !in order)) && k.1 == r
    {
      HandlerRows(s, a, g, h, order[i], r, (0, r));
      if x :| (x in g.userHolds || x in g.teamHolds) && x.1 == r {
        assert x in a.userHolds || (x in a.teamHolds && x.0 !in order);
      }
      if r in g.roles {
        if k :| (k in a.userHolds || (k in a.teamHolds && k.0 !in order)) && k.1 == r {
          assert k in g.userHolds || k in g.teamHolds;
        }
      }
    }
    forall r | r in h.roles ensures h.roles[r] == a.roles[r] { HandlerRows(s, a, g, h, order[i], r, (0, r)); }
    forall k ensures k in h.userHolds <==> k in a.userHolds && k.1 in h.roles {
      HandlerRows(s, a, g, h, order[i], k.1, k);
    }
    forall k ensures k in h.teamHolds <==> k in a.teamHolds && k.0 !in order && k.1 in h.roles {
      HandlerRows(s, a, g, h, order[i], k.1, k);
    }
  }

  // After all the handlers of a batch.
  lemma BatchRows(s: Schema, a: Db, order: seq<TeamId>, states: seq<Db>)
    requires Valid(s, a) && Handlers(s, a, order, states)
    ensures RowsAfter(s, a, order, |order|, states[|order|])
  {
    for i := 0 to |order|
      invariant RowsAfter(s, a, order, i, states[i])
    {
      assert Handled(s, a, states[i], states[i + 1], order[i]);
      NextRows(s, a, order, i, states[i], states[i + 1]);
    }
  }

  lemma BatchObjects(s: Schema, a: Db, order: seq<TeamId>)
    ensures var b := AfterCascade(s, a, TeamsIn(order));
      && (forall o :: o in b.objects <==> o in a.objects && !(o.ct == s.teamCt && o.pk in order))
      && (forall o :: o in b.objects ==> b.objects[o] == a.objects[o])
  {
    forall o ensures o in TeamObjs(s, TeamsIn(order)) <==> o.ct == s.teamCt && o.pk in order {
      if o.ct == s.teamCt && o.pk in order { assert o == TeamObj(s, o.pk) && o.pk in TeamsIn(order); }
    }
  }

  // Deleting objects of other types: the roles on them, with everything of those roles, and the
  // rows on those whose type has a parent field.
  lemma ObjectDeleteRows(s: Schema, a: Db, xs: set<Obj>)
    ensures var b := AfterObjectDelete(s, a, xs);
      && (forall o :: o in b.objects <==> o in a.objects && o !in xs)
      && (forall o :: o in b.objects ==> b.objects[o] == a.objects[o])
      && (forall r :: r in b.roles <==> r in a.roles && a.roles[r].target !in xs)
      && (forall r :: r in b.roles ==> b.roles[r] == a.roles[r])
      && (forall k :: k in b.userHolds <==> k in a.userHolds && !(k.1 in a.roles && a.roles[k.1].target in xs))
      && (forall k :: k in b.teamHolds <==> k in a.teamHolds && !(k.1 in a.roles && a.roles[k.1].target in xs))
      && (forall m :: m in b.memberRoles <==> m in a.memberRoles && !(m.1 in a.roles && a.roles[m.1].target in xs))
      && (forall e :: e in b.evals <==>
            e in a.evals && !(e.0 in a.roles && a.roles[e.0].target in xs) &&
            !(e.1.obj in xs && ParentField(s.reg, e.1.obj.ct).Some?))
  {
  }

  // Deleting a user: the user's assignments, and the roles that nobody else holds.
  lemma UserDeleteRows(s: Schema, a: Db, user: int)
    requires Valid(s, a)
    ensures var b := AfterUserDelete(a, user);
      && b.objects == a.objects && b.teamHolds == a.teamHolds
      && (forall k :: k in b.userHolds <==> k in a.userHolds && k.0 != user)
      && (forall r :: r in b.roles <==>
            r in a.roles && exists k :: ((k in a.userHolds && k.0 != user) || k in a.teamHolds) && k.1 == r)
      && (forall r :: r in b.roles ==> b.roles[r] == a.roles[r])
      && (forall m :: m in b.memberRoles <==> m in a.memberRoles && m.1 in b.roles)
      && (forall e :: e in b.evals <==> e in a.evals && e.0 in b.roles)
  {
    var w := WithoutUser(a, user);
    forall r, k { CleanupRows(w, AfterUserDelete(a, user), r, k); }
  }
}
