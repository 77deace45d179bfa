// Registered model types, their parent fields, and the objects of those types.
module Hierarchy {
  import opened Graphs

  type TypeId = int

  datatype Option<+T> = None | Some(value: T)

  // One tracked object: its content type and primary key.
  datatype Obj = Obj(ct: TypeId, pk: int)

  // parentFields is the registry's own dictionary. related is the model metadata:
  // the type that a foreign key field of a model points at.
  datatype Registry = Registry(parentFields: map<TypeId, Option<string>>, related: map<(TypeId, string), TypeId>)

  // Every tracked object with the value of its parent field.
  type Objects = map<Obj, Option<Obj>>

  function ParentField(reg: Registry, t: TypeId): Option<string> {
    if t in reg.parentFields then reg.parentFields[t] else None
  }

  function ParentType(reg: Registry, t: TypeId): Option<TypeId> {
    match ParentField(reg, t)
    case None => None
    case Some(f) => if (t, f) in reg.related then Some(reg.related[(t, f)]) else None
  }

  // A registered parent field is a field of the model.
  ghost predicate ValidRegistry(reg: Registry) {
    forall t :: t in reg.parentFields && reg.parentFields[t].Some? ==> (t, reg.parentFields[t].value) in reg.related
  }

  // An edge from each type to its parent type.
  ghost function TypeGraph(reg: Registry): Graph<TypeId> {
    set t | t in reg.parentFields && ParentType(reg, t).Some? :: (t, ParentType(reg, t).value)
  }

  ghost predicate Acyclic(reg: Registry) {
    forall t :: t !in Reach(TypeGraph(reg), t)
  }

  // An edge from each object to its parent object.
  ghost function ObjectGraph(objs: Objects): Graph<Obj> {
    set o | o in objs && objs[o].Some? :: (o, objs[o].value)
  }

  // Foreign keys: a parent exists and has the registered parent type.
  ghost predicate WellTyped(reg: Registry, objs: Objects) {
    forall o :: o in objs && objs[o].Some? ==> objs[o].value in objs && ParentType(reg, o.ct) == Some(objs[o].value.ct)
  }

  lemma TypeEdge(reg: Registry, t: TypeId, p: TypeId)
    ensures (t, p) in TypeGraph(reg) <==> ParentType(reg, t) == Some(p)
  {
  }

  lemma ObjectEdge(objs: Objects, o: Obj, p: Obj)
    ensures (o, p) in ObjectGraph(objs) <==> o in objs && objs[o] == Some(p)
  {
  }

  // With a single successor, reachability is that successor and what it reaches.
  lemma ReachThroughOnly<N(!new)>(g: Graph<N>, a: N, p: N)
    requires (a, p) in g && forall e :: e in g && e.0 == a ==> e.1 == p
    ensures Reach(g, a) == {p} + Reach(g, p)
  {
    EdgeReaches(g, a, p);
    ReachIsTransitive(g, a, p);
    ReachIsClosed(g, p);
    ReachIsLeast(g, a, {p} + Reach(g, p));
  }

  lemma ReachOfRoot<N(!new)>(g: Graph<N>, a: N)
    requires forall e :: e in g ==> e.0 != a
    ensures Reach(g, a) == {}
  {
    ReachIsLeast(g, a, {});
  }

  lemma ObjectReach(objs: Objects, o: Obj)
    ensures Reach(ObjectGraph(objs), o) ==
      if o in objs && objs[o].Some? then {objs[o].value} + Reach(ObjectGraph(objs), objs[o].value) else {}
  {
    if o in objs && objs[o].Some? {
      ObjectEdge(objs, o, objs[o].value);
      ReachThroughOnly(ObjectGraph(objs), o, objs[o].value);
    } else {
      ReachOfRoot(ObjectGraph(objs), o);
    }
  }

  lemma TypeReach(reg: Registry, t: TypeId)
    ensures Reach(TypeGraph(reg), t) ==
      if ParentType(reg, t).Some? then {ParentType(reg, t).value} + Reach(TypeGraph(reg), ParentType(reg, t).value)
      else {}
  {
    if ParentType(reg, t).Some? {
      TypeEdge(reg, t, ParentType(reg, t).value);
      ReachThroughOnly(TypeGraph(reg), t, ParentType(reg, t).value);
    } else {
      ReachOfRoot(TypeGraph(reg), t);
    }
  }

  lemma AncestorsExist(reg: Registry, objs: Objects, o: Obj, x: Obj)
    requires WellTyped(reg, objs) && x in Reach(ObjectGraph(objs), o)
    ensures x in objs && x.ct in Reach(TypeGraph(reg), o.ct)
  {
    var s := set y | y in Reach(ObjectGraph(objs), o) && y in objs && y.ct in Reach(TypeGraph(reg), o.ct);
    ReachIsClosed(ObjectGraph(objs), o);
    forall e | e in ObjectGraph(objs) && (e.0 == o || e.0 in s) ensures e.1 in s {
      TypeEdge(reg, e.0.ct, e.1.ct);
      if e.0 == o {
        EdgeReaches(TypeGraph(reg), o.ct, e.1.ct);
      } else {
        AppendEdge(TypeGraph(reg), o.ct, e.0.ct, e.1.ct);
      }
    }
    ReachIsLeast(ObjectGraph(objs), o, s);
  }

  // ---- The upward walk used at save time ----

  function ParentIds(reg: Registry, objs: Objects, o: Obj): seq<Obj>
    requires WellTyped(reg, objs) && Acyclic(reg)
    decreases Reach(TypeGraph(reg), o.ct)
  {
    if ParentField(reg, o.ct).None? then []
    else if o in objs && objs[o].Some? then
      var parent := objs[o].value;
      if ParentField(reg, parent.ct).Some? then
        TypeShrinks(reg, o.ct, parent.ct);
        [parent] + ParentIds(reg, objs, parent)
      else [parent]
    else []
  }

  lemma TypeShrinks(reg: Registry, t: TypeId, p: TypeId)
    requires Acyclic(reg) && ParentType(reg, t) == Some(p)
    ensures Reach(TypeGraph(reg), p) < Reach(TypeGraph(reg), t)
  {
    TypeReach(reg, t);
    assert p !in Reach(TypeGraph(reg), p);
  }

  // It lists exactly the ancestors.
  lemma {:induction false} ParentIdsAreAncestors(reg: Registry, objs: Objects, o: Obj)
    requires WellTyped(reg, objs) && Acyclic(reg)
    ensures forall x :: x in ParentIds(reg, objs, o) <==> x in Reach(ObjectGraph(objs), o)
    decreases Reach(TypeGraph(reg), o.ct)
  {
    ObjectReach(objs, o);
    if o in objs && objs[o].Some? {
      var parent := objs[o].value;
      if ParentField(reg, parent.ct).Some? {
        TypeShrinks(reg, o.ct, parent.ct);
        ParentIdsAreAncestors(reg, objs, parent);
      } else {
        ObjectReach(objs, parent);
      }
    }
  }

  // ---- Filter paths, the downward direction ----

  // path is a chain of parent fields leading from type t up to type top.
  ghost predicate PathTo(reg: Registry, t: TypeId, path: seq<string>, top: TypeId)
    decreases |path|
  {
    && path != []
    && ParentField(reg, t) == Some(path[0])
    && ParentType(reg, t).Some?
    && (if |path| == 1 then ParentType(reg, t).value == top else PathTo(reg, ParentType(reg, t).value, path[1..], top))
  }

  // The object reached by reading the fields of path in turn, as a query filter does.
  function Follow(reg: Registry, objs: Objects, o: Obj, path: seq<string>): Option<Obj>
    decreases |path|
  {
    if path == [] then Some(o)
    else if o in objs && objs[o].Some? && ParentField(reg, o.ct) == Some(path[0]) then
      Follow(reg, objs, objs[o].value, path[1..])
    else None
  }

  lemma {:induction false} PathReaches(reg: Registry, t: TypeId, path: seq<string>, top: TypeId)
    requires PathTo(reg, t, path, top)
    ensures top in Reach(TypeGraph(reg), t)
    decreases |path|
  {
    TypeReach(reg, t);
    if |path| > 1 { PathReaches(reg, ParentType(reg, t).value, path[1..], top); }
  }

  lemma {:induction false} PathExtends(reg: Registry, t: TypeId, path: seq<string>, mid: TypeId, field: string,
    top: TypeId)
    requires PathTo(reg, t, path, mid) && ParentField(reg, mid) == Some(field) && ParentType(reg, mid) == Some(top)
    ensures PathTo(reg, t, path + [field], top)
    decreases |path|
  {
    if |path| == 1 {
      assert (path + [field])[1..] == [field];
    } else {
      PathExtends(reg, ParentType(reg, t).value, path[1..], mid, field, top);
      assert (path + [field])[1..] == path[1..] + [field];
    }
  }

  // The two directions agree: filtering by a path finds x from o exactly when
  // the upward walk from o meets x, as long as x's type is not above itself.
  lemma {:induction false} FollowIffAncestor(reg: Registry, objs: Objects, o: Obj, path: seq<string>, x: Obj)
    requires WellTyped(reg, objs) && PathTo(reg, o.ct, path, x.ct)
    requires x.ct !in Reach(TypeGraph(reg), x.ct)
    ensures Follow(reg, objs, o, path) == Some(x) <==> x in Reach(ObjectGraph(objs), o)
    decreases |path|
  {
    ObjectReach(objs, o);
    if o in objs && objs[o].Some? {
      var p := objs[o].value;
      if |path| == 1 {
        assert path[1..] == [];
        if x in Reach(ObjectGraph(objs), p) {
          AncestorsExist(reg, objs, p, x);
          assert false;
        }
      } else {
        PathReaches(reg, p.ct, path[1..], x.ct);
        FollowIffAncestor(reg, objs, p, path[1..], x);
      }
    }
  }

  // The agreement of one path on every database and every pair of objects.
  ghost predicate PathAgrees(reg: Registry, t: TypeId, path: seq<string>, top: TypeId) {
    forall objs: Objects, o: Obj, x: Obj :: WellTyped(reg, objs) && o.ct == t && x.ct == top ==>
      (Follow(reg, objs, o, path) == Some(x) <==> x in Reach(ObjectGraph(objs), o))
  }

  // Exactly the types that are not above themselves are safe to filter for.
  lemma PathAgreesIffTopIsNotAboveItself(reg: Registry, t: TypeId, path: seq<string>, top: TypeId)
    requires PathTo(reg, t, path, top)
    ensures PathAgrees(reg, t, path, top) <==> top !in Reach(TypeGraph(reg), top)
  {
    if top !in Reach(TypeGraph(reg), top) {
      forall objs: Objects, o: Obj, x: Obj | WellTyped(reg, objs) && o.ct == t && x.ct == top
        ensures Follow(reg, objs, o, path) == Some(x) <==> x in Reach(ObjectGraph(objs), o)
      {
        FollowIffAncestor(reg, objs, o, path, x);
      }
    } else {
      var cycle := ReachHasPath(reg, top, top);
      var x := Obj(top, 0);
      var objs0: Objects := map[x := None];
      var objs1, mid := Stack(reg, top, cycle, top, objs0, x, 0);
      var objs2, o := Stack(reg, t, path, top, objs1, mid, |cycle|);
      ObjectReach(objs2, o);
      ReachIsTransitive(ObjectGraph(objs2), o, mid);
      ObjectGraphGrows(objs1, objs2, mid, x);
      assert x in Reach(ObjectGraph(objs2), o) && Follow(reg, objs2, o, path) == Some(mid) && mid != x;
    }
  }

  lemma ObjectGraphGrows(objs: Objects, more: Objects, a: Obj, b: Obj)
    requires b in Reach(ObjectGraph(objs), a)
    requires forall o :: o in objs ==> o in more && more[o] == objs[o]
    ensures b in Reach(ObjectGraph(more), a)
  {
    ReachIsClosed(ObjectGraph(more), a);
    forall e | e in ObjectGraph(objs) ensures e in ObjectGraph(more) {}
    ReachIsLeast(ObjectGraph(objs), a, Reach(ObjectGraph(more), a));
  }

  lemma ReachHasPath(reg: Registry, t: TypeId, top: TypeId) returns (path: seq<string>)
    requires top in Reach(TypeGraph(reg), t)
    ensures PathTo(reg, t, path, top)
  {
    var g := TypeGraph(reg);
    var s := set p | p in Reach(g, t) && exists q :: PathTo(reg, t, q, p);
    ReachIsClosed(g, t);
    forall e | e in g && (e.0 == t || e.0 in s) ensures e.1 in s {
      TypeEdge(reg, e.0, e.1);
      var field := ParentField(reg, e.0).value;
      if e.0 == t {
        assert PathTo(reg, t, [field], e.1);
      } else {
        var q :| PathTo(reg, t, q, e.0);
        PathExtends(reg, t, q, e.0, field, e.1);
      }
    }
    ReachIsLeast(g, t, s);
    path :| PathTo(reg, t, path, top);
  }

  // Extends a database with one new object per field of path, below x.
  lemma {:induction false} Stack(reg: Registry, t: TypeId, path: seq<string>, top: TypeId, objs: Objects, x: Obj,
    n: nat)
    returns (more: Objects, o: Obj)
    requires PathTo(reg, t, path, top) && WellTyped(reg, objs)
    requires x in objs && x.ct == top && forall y :: y in objs ==> y.pk <= n
    ensures WellTyped(reg, more) && o.ct == t && o.pk == n + |path|
    ensures forall y :: y in objs ==> y in more && more[y] == objs[y]
    ensures forall y :: y in more ==> y.pk <= n + |path|
    ensures Follow(reg, more, o, path) == Some(x) && x in Reach(ObjectGraph(more), o)
    decreases |path|
  {
    o := Obj(t, n + |path|);
    if |path| == 1 {
      more := objs[o := Some(x)];
      assert path[1..] == [];
      assert Follow(reg, more, x, path[1..]) == Some(x);
      ObjectReach(more, o);
    } else {
      var below, p := Stack(reg, ParentType(reg, t).value, path[1..], top, objs, x, n);
      more := below[o := Some(p)];
      FollowUnchanged(reg, below, more, p, path[1..]);
      ObjectGraphGrows(below, more, p, x);
      ObjectReach(more, o);
    }
  }

  lemma {:induction false} FollowUnchanged(reg: Registry, objs: Objects, more: Objects, o: Obj, path: seq<string>)
    requires forall y :: y in objs ==> y in more && more[y] == objs[y]
    requires Follow(reg, objs, o, path).Some?
    ensures Follow(reg, more, o, path) == Follow(reg, objs, o, path)
    decreases |path|
  {
    if path != [] { FollowUnchanged(reg, objs, more, objs[o].value, path[1..]); }
  }
}
