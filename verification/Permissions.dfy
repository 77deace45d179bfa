// What a role confers, permission by permission: on its target, and on the objects below it.
module Permissions {
  import opened Graphs
  import opened Hierarchy
  import opened RbacModel
  import opened Creation

  // ---- codenames that add ----

  lemma {:induction false} Dots(a: string, b: string)
    ensures DotCount(a + b) == DotCount(a) + DotCount(b)
    ensures DotCount(a) == 0 <==> '.' !in a
  {
    if a == [] {
      assert a + b == b;
    } else {
      assert (a + b)[1..] == a[1..] + b;
      Dots(a[1..], b);
      assert a == [a[0]] + a[1..];
    }
  }

  lemma {:induction false} AfterTheDot(a: string, b: string)
    requires '.' !in a
    ensures AfterDot(a + "." + b) == b
  {
    if a == [] {
      assert a + "." + b == "." + b;
    } else {
      assert (a + "." + b)[1..] == a[1..] + "." + b;
      AfterTheDot(a[1..], b);
    }
  }

  // One dot separates a service from the codename proper; without a dot, or with several, the
  // whole text counts.
  lemma AddPermMeans(service: string, name: string)
    requires '.' !in service
    ensures '.' !in name ==> (IsAddPerm(name) <==> "add_" <= name)
    ensures '.' !in name ==> (IsAddPerm(service + "." + name) <==> "add_" <= name)
    ensures '.' in name ==> (IsAddPerm(service + "." + name) <==> "add_" <= service)
  {
    var whole := service + "." + name;
    Dots(service + ".", name);
    Dots(service, ".");
    Dots(name, "");
    assert name + "" == name && service + "" == service;
    Dots(service, "");
    AfterTheDot(service, name);
    assert DotCount(".") == 1 by { assert "."[1..] == ""; }
    assert whole[|service|] == '.';
    if "add_" <= whole {
      assert forall i :: 0 <= i < 4 ==> whole[i] == "add_"[i] != '.';
      assert |service| >= 4 && whole[..4] == service[..4];
    }
  }

  // ---- rows of a role definition ----

  lemma AboveHasItsType(s: Schema, objs: Objects, o: Obj, x: Obj)
    requires WellFormed(s) && WellTyped(s.reg, objs) && x in Reach(ObjectGraph(objs), o)
    ensures o in objs && x.ct in Reach(TypeGraph(s.reg), o.ct) && x.ct != o.ct
  {
    ObjectReach(objs, o);
    AncestorsExist(s.reg, objs, o, x);
    assert o.ct !in Reach(TypeGraph(s.reg), o.ct);
  }

  // One permission of the definition and one object: below the target, a permission that adds
  // counts on the objects under which its own type is added, any other on the objects of its type.
  lemma GrantsMeans(s: Schema, objs: Objects, target: Obj, p: PermDef, o: Obj)
    requires WellFormed(s) && WellTyped(s.reg, objs)
    ensures Grants(s, objs, target, p, o) <==>
      || (o == target && (p.ct == target.ct || IsAddPerm(p.codename) || s.cacheParentPermissions))
      || (target in Reach(ObjectGraph(objs), o) &&
          if IsAddPerm(p.codename) then ParentType(s.reg, p.ct) == Some(o.ct) else o.ct == p.ct)
  {
    assert Acyclic(s.reg);
    if target in Reach(ObjectGraph(objs), o) {
      AboveHasItsType(s, objs, o, target);
      TypeReach(s.reg, p.ct);
      assert p.ct !in Reach(TypeGraph(s.reg), p.ct);
    }
  }

  // Everything a role confers.
  lemma DirectMeans(s: Schema, objs: Objects, row: RoleRow, q: Perm)
    requires WellFormed(s) && WellTyped(s.reg, objs) && row.rd in s.rdPermissions
    ensures q in Direct(s, objs, row) <==> exists p :: (
      && p in s.rdPermissions[row.rd] && p.codename == q.codename
      && (|| (q.obj == row.target && (p.ct == row.target.ct || IsAddPerm(p.codename) || s.cacheParentPermissions))
          || (row.target in Reach(ObjectGraph(objs), q.obj) &&
              if IsAddPerm(p.codename) then ParentType(s.reg, p.ct) == Some(q.obj.ct) else q.obj.ct == p.ct)))
  {
    GrantsIsDirect(s, objs, row, q);
    forall p { GrantsMeans(s, objs, row.target, p, q.obj); }
  }

  // Type by type, for a codename that the definition lists once: a permission that adds is held
  // on every object under which objects of its type sit, and any other on every object of its
  // type, whenever that object is the target or below it; elsewhere only the target has a row.
  lemma RowsByType(s: Schema, objs: Objects, row: RoleRow, p: PermDef, x: Obj)
    requires WellFormed(s) && WellTyped(s.reg, objs) && row.rd in s.rdPermissions && p in s.rdPermissions[row.rd]
    requires forall p' :: p' in s.rdPermissions[row.rd] && p'.codename == p.codename ==> p' == p
    ensures IsAddPerm(p.codename) && ParentType(s.reg, p.ct) == Some(x.ct) ==>
      (Perm(p.codename, x) in Direct(s, objs, row) <==> x == row.target || row.target in Reach(ObjectGraph(objs), x))
    ensures !IsAddPerm(p.codename) && x.ct == p.ct ==>
      (Perm(p.codename, x) in Direct(s, objs, row) <==> x == row.target || row.target in Reach(ObjectGraph(objs), x))
    ensures (if IsAddPerm(p.codename) then ParentType(s.reg, p.ct) != Some(x.ct) else x.ct != p.ct) ==>
      (Perm(p.codename, x) in Direct(s, objs, row) <==>
       x == row.target && (p.ct == row.target.ct || IsAddPerm(p.codename) || s.cacheParentPermissions))
  {
    DirectMeans(s, objs, row, Perm(p.codename, x));
    if x == row.target && x.ct == p.ct { assert p.ct == row.target.ct; }
  }

  // Caching parent permissions adds rows on the target only: those of permissions of other types
  // that do not add.
  lemma CachingAdds(s: Schema, objs: Objects, row: RoleRow, q: Perm)
    requires WellFormed(s) && WellTyped(s.reg, objs) && row.rd in s.rdPermissions
    ensures q in Direct(s.(cacheParentPermissions := true), objs, row) <==>
      || q in Direct(s.(cacheParentPermissions := false), objs, row)
      || (q.obj == row.target && exists p :: p in s.rdPermissions[row.rd] && p.codename == q.codename)
  {
    DirectMeans(s.(cacheParentPermissions := true), objs, row, q);
    DirectMeans(s.(cacheParentPermissions := false), objs, row, q);
  }
}
