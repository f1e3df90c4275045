/**
 Finite directed graphs given by their out-edges, and what can be reached in them.

 Histedit's replacement map, fix's parent map and the import graph are all of this
 shape: a key is a node that has been rewritten (is being fixed, imports something),
 and a node that is no key is where following edges stops.
 */
module Digraph {
  import opened Lists

  ghost predicate Edge<N>(g: map<N, set<N>>, a: N, b: N) {
    a in g && b in g[a]
  }

  ghost predicate Meet<N>(a: set<N>, b: set<N>) {
    exists s :: s in a && s in b
  }

  /** A walk along one edge or more. */
  ghost predicate IsPath<N>(g: map<N, set<N>>, p: seq<N>) {
    && |p| >= 2
    && forall i :: 0 <= i < |p| - 1 ==> Edge(g, p[i], p[i + 1])
  }

  ghost predicate Joins<N>(g: map<N, set<N>>, p: seq<N>, a: N, b: N) {
    IsPath(g, p) && p[0] == a && p[|p| - 1] == b
  }

  ghost predicate Reaches<N(!new)>(g: map<N, set<N>>, a: N, b: N) {
    exists p :: Joins(g, p, a, b)
  }

  ghost predicate Acyclic<N(!new)>(g: map<N, set<N>>) {
    forall x :: x in g ==> !Reaches(g, x, x)
  }

  ghost function Targets<N>(g: map<N, set<N>>): set<N> {
    set k, s | k in g && s in g[k] :: s
  }

  /** The nodes reached from `x` at which following edges stops. */
  ghost function Sinks<N(!new)>(g: map<N, set<N>>, x: N): set<N> {
    set s | s in Targets(g) && s !in g && Reaches(g, x, s)
  }

  ghost function KeysBelow<N(!new)>(g: map<N, set<N>>, x: N): set<N> {
    set k | k in g && Reaches(g, x, k)
  }

  ghost function KeysAbove<N(!new)>(g: map<N, set<N>>, x: N): set<N> {
    set k | k in g && Reaches(g, k, x)
  }

  lemma EdgeReaches<N(!new)>(g: map<N, set<N>>, a: N, b: N)
    requires Edge(g, a, b)
    ensures Reaches(g, a, b)
  {
    assert Joins(g, [a, b], a, b);
  }

  lemma ReachesTransitive<N(!new)>(g: map<N, set<N>>, a: N, b: N, c: N)
    requires Reaches(g, a, b) && Reaches(g, b, c)
    ensures Reaches(g, a, c)
  {
    var p :| Joins(g, p, a, b);
    var q :| Joins(g, q, b, c);
    var r := p + q[1..];
    forall i | 0 <= i < |r| - 1
      ensures Edge(g, r[i], r[i + 1])
    {
      if i < |p| - 1 {
        assert Edge(g, p[i], p[i + 1]);
      } else {
        assert Edge(g, q[i + 1 - |p|], q[i + 1 - |p| + 1]);
      }
    }
    assert Joins(g, r, a, c);
  }

  /** Reaching is taking one edge, and then possibly reaching from there. */
  lemma ReachesByFirstEdge<N(!new)>(g: map<N, set<N>>, a: N, b: N) returns (s: N)
    requires Reaches(g, a, b)
    ensures Edge(g, a, s) && (s == b || Reaches(g, s, b))
  {
    var p :| Joins(g, p, a, b);
    s := p[1];
    assert Edge(g, p[0], p[1]);
    if s != b {
      var q := p[1..];
      forall i | 0 <= i < |q| - 1
        ensures Edge(g, q[i], q[i + 1])
      {
        assert Edge(g, p[i + 1], p[i + 2]);
      }
      assert Joins(g, q, s, b);
    }
  }

  lemma ReachesTargets<N(!new)>(g: map<N, set<N>>, a: N, b: N)
    requires Reaches(g, a, b)
    ensures a in g && b in Targets(g)
  {
    var p :| Joins(g, p, a, b);
    assert Edge(g, p[0], p[1]);
    assert Edge(g, p[|p| - 2], p[|p| - 2 + 1]);
  }

  /** In an acyclic graph the number of keys below a node shrinks along every edge. */
  lemma KeysBelowShrink<N(!new)>(g: map<N, set<N>>, a: N, b: N)
    requires Acyclic(g) && Edge(g, a, b) && b in g
    ensures |KeysBelow(g, b)| < |KeysBelow(g, a)|
  {
    EdgeReaches(g, a, b);
    forall k | k in KeysBelow(g, b)
      ensures k in KeysBelow(g, a)
    {
      ReachesTransitive(g, a, b, k);
    }
    assert b in KeysBelow(g, a) - KeysBelow(g, b);
    SmallerSet(KeysBelow(g, b), KeysBelow(g, a));
  }

  lemma KeysAboveShrink<N(!new)>(g: map<N, set<N>>, a: N, b: N)
    requires Acyclic(g) && Edge(g, a, b)
    ensures |KeysAbove(g, a)| < |KeysAbove(g, b)|
  {
    EdgeReaches(g, a, b);
    forall k | k in KeysAbove(g, a)
      ensures k in KeysAbove(g, b)
    {
      ReachesTransitive(g, k, a, b);
    }
    assert a in KeysAbove(g, b) - KeysAbove(g, a);
    SmallerSet(KeysAbove(g, a), KeysAbove(g, b));
  }

  /** Every set of keys has a member without an edge back into the set. */
  lemma LowestKey<N(!new)>(g: map<N, set<N>>, ks: set<N>) returns (x: N)
    requires Acyclic(g) && ks <= g.Keys && ks != {}
    ensures x in ks && !Meet(g[x], ks)
  {
    x :| x in ks;
    while exists s :: s in g[x] && s in ks
      invariant x in ks
      decreases |KeysBelow(g, x)|
    {
      var s :| s in g[x] && s in ks;
      KeysBelowShrink(g, x, s);
      x := s;
    }
  }

  /** The sinks below a node are those of its direct successors. */
  lemma SinksBySuccessor<N(!new)>(g: map<N, set<N>>, x: N, t: N)
    requires x in g && t !in g
    ensures t in Sinks(g, x) <==> t in g[x] || exists s :: s in g[x] && t in Sinks(g, s)
  {
    if t in Sinks(g, x) {
      var s := ReachesByFirstEdge(g, x, t);
      assert s in g[x];
      if s != t {
        assert t in Sinks(g, s);
      }
    }
    if t in g[x] {
      EdgeReaches(g, x, t);
      ReachesTargets(g, x, t);
    }
    if s :| s in g[x] && t in Sinks(g, s) {
      EdgeReaches(g, x, s);
      ReachesTransitive(g, x, s, t);
    }
  }

  /** Every target lies below a key that is itself nobody's target. */
  lemma RootAbove<N(!new)>(g: map<N, set<N>>, t: N) returns (root: N)
    requires Acyclic(g) && t in Targets(g)
    ensures root in g && root !in Targets(g) && Reaches(g, root, t)
  {
    root :| root in g && t in g[root];
    EdgeReaches(g, root, t);
    while root in Targets(g)
      invariant root in g && Reaches(g, root, t)
      decreases |KeysAbove(g, root)|
    {
      var k :| k in g && root in g[k];
      EdgeReaches(g, k, root);
      ReachesTransitive(g, k, root, t);
      KeysAboveShrink(g, k, root);
      root := k;
    }
  }
}
