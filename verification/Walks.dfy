// The graph walks of the source: depth first over a dictionary of neighbours with
// a set shared by all recursive calls, breadth first with a queue, and the
// recursive listing of child types with their filter paths.
module Walks {
  import opened Graphs
  import opened Hierarchy

  type Neighbours = map<int, seq<int>>

  function NeighboursOf(d: Neighbours, n: int): seq<int> {
    if n in d then d[n] else []
  }

  ghost function DictGraph(d: Neighbours): Graph<int> {
    set n, i | n in d && 0 <= i < |d[n]| :: (n, d[n][i])
  }

  lemma DictEdge(d: Neighbours, a: int, b: int)
    ensures (a, b) in DictGraph(d) <==> b in NeighboursOf(d, a)
  {
    if b in NeighboursOf(d, a) {
      var i :| 0 <= i < |d[a]| && d[a][i] == b;
      assert a in d;
    }
  }

  ghost function Ends<N(!new)>(g: Graph<N>): set<N> {
    set e | e in g :: e.1
  }

  // A set that recursive calls extend in place.
  class SharedSet {
    var elems: set<int>

    constructor ()
      ensures elems == {}
    {
      elems := {};
    }
  }

  // Nothing reachable from `from` without passing through `before` is missing in `now`.
  ghost predicate Explored(g: Graph<int>, before: set<int>, now: set<int>) {
    forall e :: e in g && e.0 in now && e.0 !in before ==> e.1 in now
  }

  // Returns what this call newly adds to seen.
  method CollectReachable(start: int, d: Neighbours, seen: SharedSet) returns (found: set<int>)
    modifies seen
    ensures old(seen.elems) <= seen.elems && found == seen.elems - old(seen.elems)
    ensures found <= Reach(DictGraph(d), start)
    ensures HasSuccessors(DictGraph(d), start, seen.elems)
    ensures Explored(DictGraph(d), old(seen.elems), seen.elems)
    decreases Ends(DictGraph(d)) - seen.elems
  {
    ghost var g := DictGraph(d);
    found := {};
    var next := NeighboursOf(d, start);
    for i := 0 to |next|
      invariant old(seen.elems) <= seen.elems && found == seen.elems - old(seen.elems)
      invariant found <= Reach(g, start)
      invariant forall j :: 0 <= j < i ==> next[j] in seen.elems
      invariant Explored(g, old(seen.elems), seen.elems)
    {
      var n := next[i];
      DictEdge(d, start, n);
      EdgeReaches(g, start, n);
      if n in seen.elems { continue; }
      ghost var before := seen.elems;
      assert n == (start, n).1;
      found := found + {n};
      seen.elems := seen.elems + {n};
      var deeper := CollectReachable(n, d, seen);
      ReachIsTransitive(g, start, n);
      found := found + deeper;
      forall e | e in g && e.0 in seen.elems && e.0 !in old(seen.elems) ensures e.1 in seen.elems {
        if e.0 in before { assert e.1 in before; }
      }
    }
    forall e | e in g && e.0 == start ensures e.1 in seen.elems {
      DictEdge(d, e.0, e.1);
    }
  }

  // The call a caller makes: exactly the nodes one or more edges away.
  method AllReachable(start: int, d: Neighbours) returns (found: set<int>)
    ensures found == Reach(DictGraph(d), start)
  {
    var seen := new SharedSet();
    found := CollectReachable(start, d, seen);
    ReachIsLeast(DictGraph(d), start, found);
  }

  ghost function Elements(s: seq<int>): set<int> {
    set i | 0 <= i < |s| :: s[i]
  }

  ghost predicate Distinct(s: seq<int>) {
    forall i, j :: 0 <= i < j < |s| ==> s[i] != s[j]
  }

  // What holds between two steps of the breadth-first search. Every edge out of a
  // discovered node is followed, or its source still waits in the queue.
  ghost predicate Frontier(g: Graph<int>, start: int, seen: set<int>, result: seq<int>, queue: seq<int>) {
    && Distinct(result) && Elements(result) == seen
    && seen <= Reach(g, start) && seen <= Ends(g)
    && (forall n :: n in queue ==> n == start || n in seen)
    && (forall e :: e in g && (e.0 == start || e.0 in seen) ==> e.0 in queue || e.1 in seen)
  }

  // Breadth first with a queue; each reachable node is listed once.
  method BreadthFirst(start: int, d: Neighbours) returns (result: seq<int>)
    ensures Distinct(result) && Elements(result) == Reach(DictGraph(d), start)
  {
    ghost var g := DictGraph(d);
    var seen := {};
    result := [];
    var queue := [start];
    while queue != []
      invariant Frontier(g, start, seen, result, queue)
      decreases Ends(g) - seen, |queue|
    {
      var current := queue[0];
      assert queue == [current] + queue[1..];
      seen, result, queue := VisitChildren(start, d, seen, result, current, queue[1..]);
    }
    ReachIsLeast(g, start, seen);
  }

  // The loop over the children of the node just taken from the queue.
  method VisitChildren(start: int, d: Neighbours, seen0: set<int>, result0: seq<int>, current: int, queue0: seq<int>)
    returns (seen: set<int>, result: seq<int>, queue: seq<int>)
    requires Frontier(DictGraph(d), start, seen0, result0, [current] + queue0)
    ensures Frontier(DictGraph(d), start, seen, result, queue)
    ensures seen0 <= seen <= Ends(DictGraph(d)) && (seen == seen0 ==> queue == queue0)
  {
    seen, result, queue := seen0, result0, queue0;
    var children := NeighboursOf(d, current);
    for i := 0 to |children|
      invariant Frontier(DictGraph(d), start, seen, result, [current] + queue)
      invariant forall j :: 0 <= j < i ==> children[j] in seen
      invariant seen0 <= seen && (seen == seen0 ==> queue == queue0)
    {
      var child := children[i];
      if child !in seen {
        Discover(d, start, seen, result, current, queue, child);
        seen := seen + {child};
        result := result + [child];
        queue := queue + [child];
      }
    }
    Finish(d, start, seen, result, current, queue);
  }

  lemma Discover(d: Neighbours, start: int, seen: set<int>, result: seq<int>, current: int, queue: seq<int>, child: int)
    requires Frontier(DictGraph(d), start, seen, result, [current] + queue)
    requires child in NeighboursOf(d, current) && child !in seen
    ensures Frontier(DictGraph(d), start, seen + {child}, result + [child], [current] + (queue + [child]))
  {
    assert current in [current] + queue;
    StepReaches(d, start, current, child);
    ElementsAppend(result, child);
    assert [current] + (queue + [child]) == ([current] + queue) + [child];
  }

  lemma Finish(d: Neighbours, start: int, seen: set<int>, result: seq<int>, current: int, queue: seq<int>)
    requires Frontier(DictGraph(d), start, seen, result, [current] + queue)
    requires forall n :: n in NeighboursOf(d, current) ==> n in seen
    ensures Frontier(DictGraph(d), start, seen, result, queue)
  {
    forall e | e in DictGraph(d) && (e.0 == start || e.0 in seen) ensures e.0 in queue || e.1 in seen {
      if e.0 == current { DictEdge(d, e.0, e.1); }
    }
  }

  lemma StepReaches(d: Neighbours, start: int, current: int, child: int)
    requires current == start || current in Reach(DictGraph(d), start)
    requires child in NeighboursOf(d, current)
    ensures child in Reach(DictGraph(d), start) && child in Ends(DictGraph(d))
  {
    DictEdge(d, current, child);
    assert child == (current, child).1;
    if current == start {
      EdgeReaches(DictGraph(d), start, child);
    } else {
      AppendEdge(DictGraph(d), start, current, child);
    }
  }

  lemma ElementsAppend(s: seq<int>, x: int)
    requires Distinct(s) && x !in Elements(s)
    ensures Elements(s + [x]) == Elements(s) + {x} && Distinct(s + [x])
  {
    forall y | y in Elements(s) + {x} ensures y in Elements(s + [x]) {
      if y == x {
        assert (s + [x])[|s|] == x;
      } else {
        var i :| 0 <= i < |s| && s[i] == y;
        assert (s + [x])[i] == y;
      }
    }
    forall i | 0 <= i < |s| ensures s[i] in Elements(s) {}
  }

  // ---- Child types with their filter paths ----

  type ChildFilter = (seq<string>, TypeId)

  ghost function Types(filters: seq<ChildFilter>): set<TypeId> {
    set i | 0 <= i < |filters| :: filters[i].1
  }

  ghost predicate DistinctTypes(filters: seq<ChildFilter>) {
    forall i, j :: 0 <= i < j < |filters| ==> filters[i].1 != filters[j].1
  }

  ghost predicate PathsTo(reg: Registry, filters: seq<ChildFilter>, top: TypeId) {
    forall i :: 0 <= i < |filters| ==> PathTo(reg, filters[i].1, filters[i].0, top)
  }

  lemma JoinFilters(a: seq<ChildFilter>, b: seq<ChildFilter>)
    requires DistinctTypes(a) && DistinctTypes(b) && Types(a) !! Types(b)
    ensures Types(a + b) == Types(a) + Types(b) && DistinctTypes(a + b)
  {
    forall t | t in Types(a) + Types(b) ensures t in Types(a + b) {
      if t in Types(a) {
        var i :| 0 <= i < |a| && a[i].1 == t;
        assert (a + b)[i].1 == t;
      } else {
        var i :| 0 <= i < |b| && b[i].1 == t;
        assert (a + b)[|a| + i].1 == t;
      }
    }
    forall i | 0 <= i < |a| ensures a[i].1 in Types(a) {}
    forall i | 0 <= i < |b| ensures b[i].1 in Types(b) {}
  }

  // Appends one more parent field to every path.
  method ExtendPaths(reg: Registry, nested: seq<ChildFilter>, mid: TypeId, field: string, top: TypeId)
    returns (longer: seq<ChildFilter>)
    requires PathsTo(reg, nested, mid) && DistinctTypes(nested)
    requires ParentField(reg, mid) == Some(field) && ParentType(reg, mid) == Some(top)
    ensures |longer| == |nested| && forall i :: 0 <= i < |nested| ==> longer[i] == (nested[i].0 + [field], nested[i].1)
    ensures PathsTo(reg, longer, top) && DistinctTypes(longer) && Types(longer) == Types(nested)
  {
    longer := [];
    for i := 0 to |nested|
      invariant |longer| == i && forall j :: 0 <= j < i ==> longer[j] == (nested[j].0 + [field], nested[j].1)
      invariant PathsTo(reg, longer, top)
    {
      PathExtends(reg, nested[i].1, nested[i].0, mid, field, top);
      longer := longer + [(nested[i].0 + [field], nested[i].1)];
    }
    forall i | 0 <= i < |nested| ensures nested[i].1 in Types(longer) {
      assert longer[i].1 == nested[i].1;
    }
  }

  // Every type whose parent chain leads to the given type, newly recorded in seen.
  method CollectChildModels(reg: Registry, parent: TypeId, seen: SharedSet) returns (filters: seq<ChildFilter>)
    requires ValidRegistry(reg)
    modifies seen
    ensures old(seen.elems) <= seen.elems && DistinctTypes(filters)
    ensures Types(filters) == seen.elems - old(seen.elems)
    ensures PathsTo(reg, filters, parent)
    ensures HasSuccessors(Reverse(TypeGraph(reg)), parent, seen.elems)
    ensures Explored(Reverse(TypeGraph(reg)), old(seen.elems), seen.elems)
    decreases reg.parentFields.Keys - seen.elems, 1
  {
    ghost var g := Reverse(TypeGraph(reg));
    ghost var start := seen.elems;
    filters := [];
    var names := reg.parentFields.Keys;
    while names != {}
      invariant start <= seen.elems && names <= reg.parentFields.Keys
      invariant DistinctTypes(filters) && Types(filters) == seen.elems - start
      invariant PathsTo(reg, filters, parent)
      invariant forall t :: t in reg.parentFields.Keys - names && ParentType(reg, t) == Some(parent) ==> t in seen.elems
      invariant Explored(g, start, seen.elems)
      decreases names
    {
      ghost var pick := AnyOf(names);
      var name :| name in names;
      names := names - {name};
      var field := reg.parentFields[name];
      if field.Some? && reg.related[(name, field.value)] == parent && name !in seen.elems {
        ghost var before := seen.elems;
        var more := CollectBelow(reg, name, field.value, parent, seen);
        JoinFilters(filters, more);
        filters := filters + more;
        ExploredInTwoSteps(g, start, before, seen.elems);
      }
    }
    forall e | e in g && e.0 == parent ensures e.1 in seen.elems {
      assert (e.1, e.0) in TypeGraph(reg);
      TypeEdge(reg, e.1, e.0);
    }
  }

  // One unseen child type: its own entry, then everything below it.
  method CollectBelow(reg: Registry, name: TypeId, field: string, parent: TypeId, seen: SharedSet)
    returns (filters: seq<ChildFilter>)
    requires ValidRegistry(reg) && name in reg.parentFields && name !in seen.elems
    requires ParentField(reg, name) == Some(field) && ParentType(reg, name) == Some(parent)
    modifies seen
    ensures old(seen.elems) + {name} <= seen.elems && DistinctTypes(filters)
    ensures Types(filters) == seen.elems - old(seen.elems)
    ensures PathsTo(reg, filters, parent)
    ensures Explored(Reverse(TypeGraph(reg)), old(seen.elems), seen.elems)
    decreases reg.parentFields.Keys - seen.elems, 0
  {
    seen.elems := seen.elems + {name};
    var nested := CollectChildModels(reg, name, seen);
    var longer := ExtendPaths(reg, nested, name, field, parent);
    assert Types([([field], name)]) == {name} by { assert [([field], name)][0].1 == name; }
    JoinFilters([([field], name)], longer);
    filters := [([field], name)] + longer;
  }

  lemma ExploredInTwoSteps(g: Graph<int>, first: set<int>, second: set<int>, third: set<int>)
    requires Explored(g, first, second) && Explored(g, second, third) && second <= third
    ensures Explored(g, first, third)
  {
    forall e | e in g && e.0 in third && e.0 !in first ensures e.1 in third {
      if e.0 in second { assert e.1 in second; }
    }
  }

  // Each type below `parent` once, with a path of parent fields leading to it.
  method GetChildModels(reg: Registry, parent: TypeId) returns (filters: seq<ChildFilter>)
    requires ValidRegistry(reg)
    ensures DistinctTypes(filters) && PathsTo(reg, filters, parent)
    ensures Types(filters) == Reach(Reverse(TypeGraph(reg)), parent)
    ensures forall t :: t in Types(filters) <==> parent in Reach(TypeGraph(reg), t)
  {
    var seen := new SharedSet();
    filters := CollectChildModels(reg, parent, seen);
    var g := Reverse(TypeGraph(reg));
    ReachIsLeast(g, parent, Types(filters));
    forall t | t in Types(filters) ensures t in Reach(g, parent) {
      var i :| 0 <= i < |filters| && filters[i].1 == t;
      PathReaches(reg, t, filters[i].0, parent);
      ReverseReach(TypeGraph(reg), parent, t);
    }
    forall t { ReverseReach(TypeGraph(reg), parent, t); }
  }

  // One of the filters has o's type and leads from o to x, as a query by it finds.
  ghost predicate SomeFilterFinds(reg: Registry, objs: Objects, filters: seq<ChildFilter>, o: Obj, x: Obj) {
    exists i :: 0 <= i < |filters| && filters[i].1 == o.ct && Follow(reg, objs, o, filters[i].0) == Some(x)
  }

  // The two directions agree: the upward walk from o meets x exactly when a filter found by the
  // downward walk from x's type leads from o to x.
  lemma WalksAgree(reg: Registry, objs: Objects, filters: seq<ChildFilter>, o: Obj, x: Obj)
    requires WellTyped(reg, objs) && Acyclic(reg)
    requires PathsTo(reg, filters, x.ct) && forall t :: t in Types(filters) <==> x.ct in Reach(TypeGraph(reg), t)
    ensures x in ParentIds(reg, objs, o) <==> SomeFilterFinds(reg, objs, filters, o, x)
  {
    ParentIdsAreAncestors(reg, objs, o);
    if x in Reach(ObjectGraph(objs), o) {
      AncestorsExist(reg, objs, o, x);
      assert o.ct in Types(filters);
      var i :| 0 <= i < |filters| && filters[i].1 == o.ct;
      FollowIffAncestor(reg, objs, o, filters[i].0, x);
    }
    if i :| 0 <= i < |filters| && filters[i].1 == o.ct && Follow(reg, objs, o, filters[i].0) == Some(x) {
      FollowIffAncestor(reg, objs, o, filters[i].0, x);
    }
  }

  // The database lists as children of a type exactly the registry's child types.
  ghost predicate Mirrors(reg: Registry, children: Neighbours) {
    forall t, p :: t in NeighboursOf(children, p) <==> ParentType(reg, t) == Some(p)
  }

  lemma MirrorSameGraph(reg: Registry, children: Neighbours)
    requires Mirrors(reg, children)
    ensures DictGraph(children) == Reverse(TypeGraph(reg))
  {
    forall e | e in DictGraph(children) ensures e in Reverse(TypeGraph(reg)) {
      DictEdge(children, e.0, e.1);
      TypeEdge(reg, e.1, e.0);
      assert (e.1, e.0) in TypeGraph(reg);
    }
    forall e | e in Reverse(TypeGraph(reg)) ensures e in DictGraph(children) {
      assert (e.1, e.0) in TypeGraph(reg);
      TypeEdge(reg, e.1, e.0);
      DictEdge(children, e.0, e.1);
    }
  }

  // The registry walk and the database walk list the same types.
  method DescendentsAgree(reg: Registry, children: Neighbours, t: TypeId)
    returns (fromRegistry: seq<ChildFilter>, fromDb: seq<TypeId>)
    requires ValidRegistry(reg) && Mirrors(reg, children)
    ensures Types(fromRegistry) == Elements(fromDb) == Reach(Reverse(TypeGraph(reg)), t)
  {
    fromRegistry := GetChildModels(reg, t);
    fromDb := BreadthFirst(t, children);
    MirrorSameGraph(reg, children);
  }
}
