// Finite directed graphs as edge sets, with reachability by one or more edges.
// Every later proof about teams, roles, objects or model types uses the five
// lemmas below and never looks at a path again.
module Graphs {

  type Graph<!N(==)> = set<(N, N)>

  // Some element of a nonempty set, as a witness for choosing one.
  ghost function AnyOf<T>(s: set<T>): (x: T)
    requires s != {}
    ensures x in s
  {
    var x :| x in s; x
  }

  // A path visits at least two nodes, each joined to the next by an edge.
  ghost predicate IsPath<N>(g: Graph<N>, p: seq<N>) {
    |p| >= 2 && forall i :: 0 <= i < |p| - 1 ==> (p[i], p[i + 1]) in g
  }

  ghost predicate Connects<N(!new)>(g: Graph<N>, a: N, b: N) {
    exists p: seq<N> :: IsPath(g, p) && p[0] == a && p[|p| - 1] == b
  }

  // The nodes reached from a by one or more edges.
  ghost function Reach<N(!new)>(g: Graph<N>, a: N): set<N> {
    set e | e in g && Connects(g, a, e.1) :: e.1
  }

  ghost predicate Closed<N(!new)>(g: Graph<N>, s: set<N>) {
    forall e :: e in g && e.0 in s ==> e.1 in s
  }

  ghost predicate HasSuccessors<N(!new)>(g: Graph<N>, a: N, s: set<N>) {
    forall e :: e in g && e.0 == a ==> e.1 in s
  }

  ghost function Reverse<N>(g: Graph<N>): Graph<N> {
    set e | e in g :: (e.1, e.0)
  }

  lemma ReachMeansConnects<N(!new)>(g: Graph<N>, a: N, b: N)
    ensures b in Reach(g, a) <==> Connects(g, a, b)
  {
    if Connects(g, a, b) {
      var p :| IsPath(g, p) && p[0] == a && p[|p| - 1] == b;
      assert (p[|p| - 2], p[|p| - 2 + 1]) in g;
      assert (p[|p| - 2], b) in g;
      assert b == (p[|p| - 2], b).1;
    }
  }

  lemma EdgeReaches<N(!new)>(g: Graph<N>, a: N, b: N)
    requires (a, b) in g
    ensures b in Reach(g, a)
  {
    assert IsPath(g, [a, b]);
    ReachMeansConnects(g, a, b);
  }

  lemma PrependEdge<N(!new)>(g: Graph<N>, a: N, b: N, c: N)
    requires (a, b) in g && c in Reach(g, b)
    ensures c in Reach(g, a)
  {
    ReachMeansConnects(g, b, c);
    var p :| IsPath(g, p) && p[0] == b && p[|p| - 1] == c;
    var q := [a] + p;
    forall i | 0 <= i < |q| - 1 ensures (q[i], q[i + 1]) in g {
      if i > 0 { assert q[i] == p[i - 1] && q[i + 1] == p[i - 1 + 1]; }
    }
    assert IsPath(g, q) && q[0] == a && q[|q| - 1] == c;
    ReachMeansConnects(g, a, c);
  }

  lemma AppendEdge<N(!new)>(g: Graph<N>, a: N, b: N, c: N)
    requires b in Reach(g, a) && (b, c) in g
    ensures c in Reach(g, a)
  {
    ReachMeansConnects(g, a, b);
    var p :| IsPath(g, p) && p[0] == a && p[|p| - 1] == b;
    var q := p + [c];
    forall i | 0 <= i < |q| - 1 ensures (q[i], q[i + 1]) in g {
      if i < |p| - 1 { assert q[i] == p[i] && q[i + 1] == p[i + 1]; }
    }
    assert IsPath(g, q) && q[0] == a && q[|q| - 1] == c;
    ReachMeansConnects(g, a, c);
  }

  // Reach is closed under edges and contains the direct successors ...
  lemma ReachIsClosed<N(!new)>(g: Graph<N>, a: N)
    ensures Closed(g, Reach(g, a)) && HasSuccessors(g, a, Reach(g, a))
  {
    forall e | e in g && e.0 in Reach(g, a) ensures e.1 in Reach(g, a) {
      AppendEdge(g, a, e.0, e.1);
    }
    forall e | e in g && e.0 == a ensures e.1 in Reach(g, a) {
      EdgeReaches(g, a, e.1);
    }
  }

  // ... and it is the least such set.
  lemma ReachIsLeast<N(!new)>(g: Graph<N>, a: N, s: set<N>)
    requires HasSuccessors(g, a, s) && Closed(g, s)
    ensures Reach(g, a) <= s
  {
    forall b | b in Reach(g, a) ensures b in s {
      ReachMeansConnects(g, a, b);
      var p :| IsPath(g, p) && p[0] == a && p[|p| - 1] == b;
      PathStaysIn(g, p, s, |p| - 1);
    }
  }

  lemma {:induction false} PathStaysIn<N(!new)>(g: Graph<N>, p: seq<N>, s: set<N>, i: nat)
    requires IsPath(g, p) && HasSuccessors(g, p[0], s) && Closed(g, s)
    requires 1 <= i < |p|
    ensures p[i] in s
  {
    if i > 1 { PathStaysIn(g, p, s, i - 1); }
    assert (p[i - 1], p[i - 1 + 1]) in g;
    var e := (p[i - 1], p[i]);
    assert e in g;
  }

  lemma ReachIsTransitive<N(!new)>(g: Graph<N>, a: N, b: N)
    requires b in Reach(g, a)
    ensures Reach(g, b) <= Reach(g, a)
  {
    ReachIsClosed(g, a);
    ReachIsLeast(g, b, Reach(g, a));
  }

  // Walking the reversed edges reaches exactly the nodes that reach back.
  lemma ReverseReach<N(!new)>(g: Graph<N>, a: N, b: N)
    ensures b in Reach(Reverse(g), a) <==> a in Reach(g, b)
  {
    if b in Reach(Reverse(g), a) { ReverseReachOneWay(Reverse(g), a, b); }
    if a in Reach(g, b) { ReverseReachOneWay(g, b, a); }
    assert Reverse(Reverse(g)) == g by {
      forall e | e in g ensures e in Reverse(Reverse(g)) {
        assert (e.1, e.0) in Reverse(g);
      }
    }
  }

  lemma ReverseReachOneWay<N(!new)>(g: Graph<N>, a: N, b: N)
    requires b in Reach(g, a)
    ensures a in Reach(Reverse(g), b)
  {
    var s := set x | x in Reach(g, a) && a in Reach(Reverse(g), x);
    ReachIsClosed(g, a);
    forall e | e in g && e.0 == a ensures e.1 in s {
      assert (e.1, e.0) in Reverse(g);
      EdgeReaches(Reverse(g), e.1, a);
    }
    forall e | e in g && e.0 in s ensures e.1 in s {
      assert (e.1, e.0) in Reverse(g);
      PrependEdge(Reverse(g), e.1, e.0, a);
    }
    ReachIsLeast(g, a, s);
  }
}
