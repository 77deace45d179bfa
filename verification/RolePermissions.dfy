// Which permission codenames a role definition of a type may hold: computed from
// the type tables of the database, and from the model classes.
module RolePermissions {
  import opened Graphs
  import opened Hierarchy
  import opened Walks
  import opened RbacModel

  type Codenames = map<TypeId, seq<string>>

  // defaultdict(list)
  function ListAt(m: Codenames, t: TypeId): seq<string> {
    if t in m then m[t] else []
  }

  function WithoutAdd(codenames: seq<string>): seq<string> {
    if codenames == [] then []
    else
      var last := codenames[|codenames| - 1];
      WithoutAdd(codenames[..|codenames| - 1]) + if IsAddPerm(last) then [] else [last]
  }

  // A role may hold every permission of the types below its own and, of its own
  // type, those that do not add objects; a type below itself keeps both.
  ghost predicate Allowed(reg: Registry, codenames: Codenames, cls: TypeId, r: Codenames) {
    forall t :: ListAt(r, t) ==
      (if t == cls then WithoutAdd(ListAt(codenames, t)) else [])
      + (if cls in Reach(TypeGraph(reg), t) then ListAt(codenames, t) else [])
  }

  // The types with content type rows, and those of them whose model is named team.
  datatype ContentTypes = ContentTypes(all: set<TypeId>, teams: set<TypeId>)

  predicate IsViewPerm(codename: string) {
    "view" <= codename
  }

  function OnlyView(codenames: seq<string>): seq<string> {
    if codenames == [] then []
    else
      var last := codenames[|codenames| - 1];
      OnlyView(codenames[..|codenames| - 1]) + if IsViewPerm(last) then [last] else []
  }

  function SystemCodenames(types: ContentTypes, codenames: Codenames, t: TypeId): seq<string> {
    if t in types.teams then OnlyView(ListAt(codenames, t)) else ListAt(codenames, t)
  }

  // A system-wide role may hold every permission, of teams only those to view them.
  ghost predicate AllowedSystemWide(types: ContentTypes, codenames: Codenames, r: Codenames) {
    forall t :: ListAt(r, t) == if t in types.all then SystemCodenames(types, codenames, t) else []
  }

  ghost predicate AllowedFor(reg: Registry, types: ContentTypes, codenames: Codenames, cls: Option<TypeId>,
    r: Codenames)
  {
    match cls
    case None => AllowedSystemWide(types, codenames, r)
    case Some(t) => Allowed(reg, codenames, t, r)
  }

  method PermissionsAllowedForSystemRole(types: ContentTypes, codenames: Codenames) returns (byModel: Codenames)
    ensures AllowedSystemWide(types, codenames, byModel)
  {
    byModel := map[];
    var rest := types.all;
    while rest != {}
      invariant rest <= types.all
      invariant forall t ::
        ListAt(byModel, t) == if t in types.all - rest then SystemCodenames(types, codenames, t) else []
      decreases rest
    {
      ghost var pick := AnyOf(rest);
      var t :| t in rest;
      ghost var done := types.all - rest;
      rest := rest - {t};
      assert types.all - rest == done + {t};
      var list := ListAt(codenames, t);
      var kept: seq<string> := [];
      for i := 0 to |list|
        invariant kept == if t in types.teams then OnlyView(list[..i]) else list[..i]
      {
        assert list[..i + 1][..i] == list[..i] && list[..i + 1][i] == list[i];
        if t in types.teams && !IsViewPerm(list[i]) {
          continue;
        }
        kept := kept + [list[i]];
      }
      assert list[..|list|] == list;
      assert kept == SystemCodenames(types, codenames, t);
      byModel := byModel[t := kept];
    }
  }

  // From the database; None stands for the error on a type that is not tracked, and no type
  // given means a system-wide role.
  method PermissionsAllowedForRole(ghost reg: Registry, registered: set<TypeId>, types: ContentTypes,
    children: Neighbours, codenames: Codenames, cls: Option<TypeId>) returns (r: Option<Codenames>)
    requires ValidRegistry(reg) && Mirrors(reg, children)
    ensures r.Some? <==> cls.None? || cls.value in registered
    ensures r.Some? ==> AllowedFor(reg, types, codenames, cls, r.value)
  {
    if cls.None? {
      var byModel := PermissionsAllowedForSystemRole(types, codenames);
      return Some(byModel);
    }
    if cls.value !in registered {
      return None;
    }
    var byModel := ObjectRolePermissions(reg, children, codenames, cls.value);
    r := Some(byModel);
  }

  // Of the type itself, then of every type found below it.
  method ObjectRolePermissions(ghost reg: Registry, children: Neighbours, codenames: Codenames, cls: TypeId)
    returns (byModel: Codenames)
    requires ValidRegistry(reg) && Mirrors(reg, children)
    ensures Allowed(reg, codenames, cls, byModel)
  {
    byModel := OwnPermissions(codenames, cls);
    var below := BreadthFirst(cls, children);
    MirrorSameGraph(reg, children);
    ghost var start := byModel;
    for i := 0 to |below|
      invariant AddedFor(start, codenames, Elements(below[..i]), byModel)
    {
      assert below[..i + 1] == below[..i] + [below[i]];
      ElementsAppend(below[..i], below[i]);
      assert below[i] !in Elements(below[..i]);
      AddedForOneMore(start, codenames, Elements(below[..i]), byModel, below[i]);
      byModel := AppendAll(byModel, below[i], ListAt(codenames, below[i]));
    }
    assert below[..|below|] == below;
    forall t
      ensures t in Elements(below) <==> cls in Reach(TypeGraph(reg), t)
    {
      ReverseReach(TypeGraph(reg), cls, t);
    }
  }

  // The loop over the permissions of the role's own type.
  method OwnPermissions(codenames: Codenames, cls: TypeId) returns (byModel: Codenames)
    ensures forall t :: ListAt(byModel, t) == if t == cls then WithoutAdd(ListAt(codenames, cls)) else []
  {
    byModel := map[];
    var own := ListAt(codenames, cls);
    for i := 0 to |own|
      invariant ListAt(byModel, cls) == WithoutAdd(own[..i])
      invariant byModel.Keys <= {cls}
    {
      assert own[..i + 1][..i] == own[..i] && own[..i + 1][i] == own[i];
      assert WithoutAdd(own[..i + 1]) == WithoutAdd(own[..i]) + if IsAddPerm(own[i]) then [] else [own[i]];
      if !IsAddPerm(own[i]) {
        byModel := byModel[cls := ListAt(byModel, cls) + [own[i]]];
      } else {
        assert WithoutAdd(own[..i + 1]) == WithoutAdd(own[..i]);
      }
    }
    assert own[..|own|] == own;
  }

  // The loop over the permissions of one descendent type.
  method AppendAll(m: Codenames, t: TypeId, more: seq<string>) returns (byModel: Codenames)
    ensures forall u :: ListAt(byModel, u) == ListAt(m[t := ListAt(m, t) + more], u)
  {
    byModel := m;
    for k := 0 to |more|
      invariant forall u :: ListAt(byModel, u) == ListAt(m, u) + if u == t then more[..k] else []
    {
      assert more[..k + 1] == more[..k] + [more[k]];
      byModel := byModel[t := ListAt(byModel, t) + [more[k]]];
    }
    assert more[..|more|] == more;
  }

  // From the registry and the model classes.
  method LocalPermissionsAllowedForRole(reg: Registry, registered: set<TypeId>, types: ContentTypes,
    codenames: Codenames, cls: Option<TypeId>) returns (r: Option<Codenames>)
    requires ValidRegistry(reg)
    ensures r.Some? <==> cls.None? || cls.value in registered
    ensures r.Some? ==> AllowedFor(reg, types, codenames, cls, r.value)
  {
    if cls.None? {
      var byModel := PermissionsAllowedForSystemRole(types, codenames);
      return Some(byModel);
    }
    if cls.value !in registered {
      return None;
    }
    var byModel := LocalObjectRolePermissions(reg, codenames, cls.value);
    r := Some(byModel);
  }

  method LocalObjectRolePermissions(reg: Registry, codenames: Codenames, cls: TypeId) returns (byModel: Codenames)
    requires ValidRegistry(reg)
    ensures Allowed(reg, codenames, cls, byModel)
  {
    byModel := map[cls := WithoutAdd(ListAt(codenames, cls))];
    var filters := GetChildModels(reg, cls);
    ghost var start := byModel;
    for i := 0 to |filters|
      invariant AddedFor(start, codenames, Types(filters[..i]), byModel)
    {
      var child := filters[i].1;
      NewType(filters, i);
      AddedForOneMore(start, codenames, Types(filters[..i]), byModel, child);
      byModel := byModel[child := ListAt(byModel, child) + ListAt(codenames, child)];
    }
    assert filters[..|filters|] == filters;
  }

  // The permissions of the given types have been appended to what there was.
  ghost predicate AddedFor(start: Codenames, codenames: Codenames, types: set<TypeId>, r: Codenames) {
    forall t :: ListAt(r, t) == ListAt(start, t) + if t in types then ListAt(codenames, t) else []
  }

  lemma AddedForOneMore(start: Codenames, codenames: Codenames, types: set<TypeId>, r: Codenames, child: TypeId)
    requires AddedFor(start, codenames, types, r) && child !in types
    ensures AddedFor(start, codenames, types + {child}, r[child := ListAt(r, child) + ListAt(codenames, child)])
  {
  }

  lemma NewType(filters: seq<ChildFilter>, i: nat)
    requires DistinctTypes(filters) && i < |filters|
    ensures filters[i].1 !in Types(filters[..i])
    ensures Types(filters[..i + 1]) == Types(filters[..i]) + {filters[i].1}
  {
    forall t | t in Types(filters[..i + 1])
      ensures t in Types(filters[..i]) + {filters[i].1}
    {
      var k :| 0 <= k < i + 1 && filters[..i + 1][k].1 == t;
      if k < i {
        assert filters[..i][k].1 == t;
      }
    }
    forall t | t in Types(filters[..i])
      ensures t in Types(filters[..i + 1]) && t != filters[i].1
    {
      var k :| 0 <= k < i && filters[..i][k].1 == t;
      assert filters[..i + 1][k].1 == t;
    }
    assert filters[..i + 1][i].1 == filters[i].1;
  }

  // Both sides allow the same permissions whenever the database mirrors the registry: below a
  // type all, of the type itself those that do not add, system-wide all but those that change teams.
  lemma SameAllowed(reg: Registry, types: ContentTypes, codenames: Codenames, cls: Option<TypeId>, fromDb: Codenames,
    local: Codenames, t: TypeId, c: string)
    requires AllowedFor(reg, types, codenames, cls, fromDb) && AllowedFor(reg, types, codenames, cls, local)
    ensures ListAt(fromDb, t) == ListAt(local, t)
    ensures cls.None? ==> (c in ListAt(fromDb, t) <==>
              c in ListAt(codenames, t) && t in types.all && (t in types.teams ==> "view" <= c))
    ensures cls.Some? ==> (c in ListAt(fromDb, t) <==>
              c in ListAt(codenames, t) && (cls.value in Reach(TypeGraph(reg), t) || (t == cls.value && !IsAddPerm(c))))
  {
    WithoutAddKeeps(ListAt(codenames, t), c);
    OnlyViewKeeps(ListAt(codenames, t), c);
  }

  lemma {:induction false} OnlyViewKeeps(codenames: seq<string>, c: string)
    ensures c in OnlyView(codenames) <==> c in codenames && IsViewPerm(c)
  {
    if codenames != [] {
      var n := |codenames| - 1;
      OnlyViewKeeps(codenames[..n], c);
      assert codenames == codenames[..n] + [codenames[n]];
    }
  }

  lemma {:induction false} WithoutAddKeeps(codenames: seq<string>, c: string)
    ensures c in WithoutAdd(codenames) <==> c in codenames && !IsAddPerm(c)
  {
    if codenames != [] {
      var n := |codenames| - 1;
      WithoutAddKeeps(codenames[..n], c);
      assert codenames == codenames[..n] + [codenames[n]];
    }
  }
}
