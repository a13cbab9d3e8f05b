// Finite directed graphs over natural-number nodes: paths, reachability and
// acyclicity, and what adding an edge or a fresh leaf does to them.
module Graphs {

  type Graph = map<nat, set<nat>>

  ghost predicate Edge(g: Graph, a: nat, b: nat) {
    a in g && b in g && b in g[a]
  }

  ghost predicate Closed(g: Graph) {
    forall a :: a in g ==> g[a] <= g.Keys
  }

  ghost predicate Path(g: Graph, p: seq<nat>) {
    && p != []
    && p[0] in g
    && forall i {:trigger p[i]} :: 0 <= i < |p| - 1 ==> Edge(g, p[i], p[i + 1])
  }

  ghost predicate PathFromTo(g: Graph, p: seq<nat>, a: nat, b: nat) {
    Path(g, p) && p[0] == a && p[|p| - 1] == b
  }

  // b can be reached from a by following zero or more edges.
  ghost predicate Reaches(g: Graph, a: nat, b: nat) {
    exists p :: PathFromTo(g, p, a, b)
  }

  ghost predicate Acyclic(g: Graph) {
    forall a, b :: Edge(g, a, b) ==> !Reaches(g, b, a)
  }

  ghost function Descendants(g: Graph, a: nat): set<nat> {
    set b | b in g && Reaches(g, a, b)
  }

  // g' has every node and edge of g.
  ghost predicate Extends(g: Graph, g': Graph) {
    forall a :: a in g ==> a in g' && g[a] <= g'[a]
  }

  lemma ReachesSelf(g: Graph, a: nat)
    requires a in g
    ensures Reaches(g, a, a)
  {
    assert PathFromTo(g, [a], a, a);
  }

  lemma ReachesTransitive(g: Graph, a: nat, b: nat, c: nat)
    requires Reaches(g, a, b) && Reaches(g, b, c)
    ensures Reaches(g, a, c)
  {
    var p :| PathFromTo(g, p, a, b);
    var q :| PathFromTo(g, q, b, c);
    var r := p + q[1..];
    forall i | 0 <= i < |r| - 1
      ensures Edge(g, r[i], r[i + 1])
    {
      if i < |p| - 1 {
        assert Edge(g, p[i], p[i + 1]);
      } else {
        var k := i - |p| + 1;
        assert r[i] == q[k];
        assert r[i + 1] == q[k + 1];
      }
    }
    assert PathFromTo(g, r, a, c);
  }

  lemma ReachesByEdge(g: Graph, a: nat, b: nat)
    requires Edge(g, a, b)
    ensures Reaches(g, a, b)
  {
    assert PathFromTo(g, [a, b], a, b);
  }

  // A proper descendant is reached through one of the successors.
  lemma ReachesFirstStep(g: Graph, a: nat, b: nat) returns (c: nat)
    requires Reaches(g, a, b) && a != b
    ensures Edge(g, a, c) && Reaches(g, c, b)
  {
    var p :| PathFromTo(g, p, a, b);
    c := p[1];
    assert Edge(g, p[0], p[1]);
    var q := p[1..];
    forall i | 0 <= i < |q| - 1
      ensures Edge(g, q[i], q[i + 1])
    {
      assert Edge(g, p[i + 1], p[i + 2]);
    }
    assert PathFromTo(g, q, c, b);
  }

  lemma ReachesMonotone(g: Graph, g': Graph, a: nat, b: nat)
    requires Extends(g, g') && Reaches(g, a, b)
    ensures Reaches(g', a, b)
  {
    var p :| PathFromTo(g, p, a, b);
    forall i | 0 <= i < |p| - 1
      ensures Edge(g', p[i], p[i + 1])
    {
      assert Edge(g, p[i], p[i + 1]);
    }
    assert PathFromTo(g', p, a, b);
  }

  // In an acyclic graph the descendants shrink strictly along every edge:
  // the measure by which a recursive descent terminates.
  lemma DescendantsShrink(g: Graph, a: nat, b: nat)
    requires Acyclic(g) && Edge(g, a, b)
    ensures Descendants(g, b) < Descendants(g, a)
  {
    ReachesByEdge(g, a, b);
    forall d | d in Descendants(g, b)
      ensures d in Descendants(g, a)
    {
      ReachesTransitive(g, a, b, d);
    }
    ReachesSelf(g, a);
    assert a in Descendants(g, a) && a !in Descendants(g, b);
  }

  ghost function AddEdge(g: Graph, x: nat, y: nat): Graph
    requires x in g
  {
    g[x := g[x] + {y}]
  }

  lemma {:induction false} PathAfterAddEdge(g: Graph, x: nat, y: nat, p: seq<nat>)
    requires x in g && y in g && Path(AddEdge(g, x, y), p)
    ensures var a, b := p[0], p[|p| - 1];
            Reaches(g, a, b) || (Reaches(g, a, x) && Reaches(g, y, b))
    decreases |p|
  {
    var g' := AddEdge(g, x, y);
    var a, b := p[0], p[|p| - 1];
    if |p| == 1 {
      ReachesSelf(g, a);
    } else {
      var q := p[1..];
      assert Edge(g', p[0], p[1]);
      forall i | 0 <= i < |q| - 1
        ensures Edge(g', q[i], q[i + 1])
      {
        assert Edge(g', p[i + 1], p[i + 2]);
      }
      PathAfterAddEdge(g, x, y, q);
      var c := q[0];
      if Edge(g, a, c) {
        ReachesByEdge(g, a, c);
        if Reaches(g, c, b) {
          ReachesTransitive(g, a, c, b);
        } else {
          ReachesTransitive(g, a, c, x);
        }
      } else {
        assert a == x && c == y;
        ReachesSelf(g, x);
      }
    }
  }

  // A new edge x -> y makes b reachable from a only through that edge.
  lemma {:induction false} ReachesAfterAddEdge(g: Graph, x: nat, y: nat, a: nat, b: nat)
    requires x in g && y in g
    ensures Reaches(AddEdge(g, x, y), a, b) <==> Reaches(g, a, b) || (Reaches(g, a, x) && Reaches(g, y, b))
  {
    var g' := AddEdge(g, x, y);
    assert Extends(g, g');
    if Reaches(g, a, b) {
      ReachesMonotone(g, g', a, b);
    } else if Reaches(g, a, x) && Reaches(g, y, b) {
      ReachesMonotone(g, g', a, x);
      ReachesMonotone(g, g', y, b);
      ReachesByEdge(g', x, y);
      ReachesTransitive(g', a, x, y);
      ReachesTransitive(g', a, y, b);
    }
    if Reaches(g', a, b) {
      var p :| PathFromTo(g', p, a, b);
      PathAfterAddEdge(g, x, y, p);
    }
  }

  // An edge that does not close a cycle keeps the graph acyclic; one that
  // does would break it.
  lemma AddEdgeAcyclic(g: Graph, x: nat, y: nat)
    requires Acyclic(g) && x in g && y in g
    ensures Acyclic(AddEdge(g, x, y)) <==> !Reaches(g, y, x)
  {
    var g' := AddEdge(g, x, y);
    if Reaches(g, y, x) {
      ReachesAfterAddEdge(g, x, y, y, x);
      assert Edge(g', x, y);
    } else {
      forall a, b | Edge(g', a, b)
        ensures !Reaches(g', b, a)
      {
        ReachesAfterAddEdge(g, x, y, b, a);
        if Reaches(g', b, a) {
          if Edge(g, a, b) {
            ReachesByEdge(g, a, b);
            ReachesTransitive(g, y, a, b);
            ReachesTransitive(g, y, b, x);
          }
          assert false;
        }
      }
    }
  }

  lemma ReachesOnlyNodes(g: Graph, a: nat, b: nat)
    requires Reaches(g, a, b)
    ensures a in g
  {
    var p :| PathFromTo(g, p, a, b);
  }

  // n becomes a node without outgoing edges, below every node of parents.
  ghost function AddLeaf(g: Graph, n: nat, parents: set<nat>): Graph {
    map a | a in g.Keys + {n} :: if a == n then {} else if a in parents then g[a] + {n} else g[a]
  }

  lemma ReachesAfterAddLeaf(g: Graph, n: nat, parents: set<nat>, a: nat, b: nat)
    requires n !in g && parents <= g.Keys && a in g && b in g
    ensures Reaches(AddLeaf(g, n, parents), a, b) <==> Reaches(g, a, b)
  {
    var g' := AddLeaf(g, n, parents);
    if Reaches(g, a, b) {
      ReachesMonotone(g, g', a, b);
    }
    if Reaches(g', a, b) {
      var p :| PathFromTo(g', p, a, b);
      forall i | 0 <= i < |p| - 1
        ensures Edge(g, p[i], p[i + 1])
      {
        assert Edge(g', p[i], p[i + 1]);
        if i + 1 < |p| - 1 {
          assert Edge(g', p[i + 1], p[i + 2]);
        }
      }
      assert PathFromTo(g, p, a, b);
    }
  }

  // The last step to another node comes from one of its predecessors.
  lemma ReachesLastStep(g: Graph, a: nat, b: nat) returns (c: nat)
    requires Reaches(g, a, b) && a != b
    ensures Reaches(g, a, c) && Edge(g, c, b)
  {
    var p :| PathFromTo(g, p, a, b);
    var n := |p| - 1;
    c := p[n - 1];
    assert Edge(g, p[n - 1], p[n]);
    var q := p[..n];
    forall i | 0 <= i < |q| - 1
      ensures Edge(g, q[i], q[i + 1])
    {
      assert Edge(g, p[i], p[i + 1]);
    }
    assert PathFromTo(g, q, a, c);
  }

  // The new node is reached from itself and from what reaches a parent.
  lemma ReachesLeaf(g: Graph, n: nat, parents: set<nat>, a: nat)
    requires Closed(g) && n !in g && parents <= g.Keys
    ensures Reaches(AddLeaf(g, n, parents), a, n) <==> a == n || exists p :: p in parents && Reaches(g, a, p)
  {
    var g' := AddLeaf(g, n, parents);
    if a == n {
      ReachesSelf(g', n);
    } else {
      if Reaches(g', a, n) {
        var c := ReachesLastStep(g', a, n);
        assert c in parents;
        ReachesOnlyNodes(g', a, c);
        ReachesAfterAddLeaf(g, n, parents, a, c);
      }
      if p :| p in parents && Reaches(g, a, p) {
        ReachesOnlyNodes(g, a, p);
        ReachesAfterAddLeaf(g, n, parents, a, p);
        ReachesByEdge(g', p, n);
        ReachesTransitive(g', a, p, n);
      }
    }
  }

  lemma LeafReachesOnlyItself(g: Graph, n: nat, parents: set<nat>, b: nat)
    requires n !in g && parents <= g.Keys
    ensures Reaches(AddLeaf(g, n, parents), n, b) <==> n == b
  {
    var g' := AddLeaf(g, n, parents);
    ReachesSelf(g', n);
    if Reaches(g', n, b) && n != b {
      var c := ReachesFirstStep(g', n, b);
      assert false;
    }
  }

  lemma AddLeafAcyclic(g: Graph, n: nat, parents: set<nat>)
    requires n !in g && parents <= g.Keys && Acyclic(g)
    ensures Acyclic(AddLeaf(g, n, parents))
  {
    var g' := AddLeaf(g, n, parents);
    forall a, b | Edge(g', a, b)
      ensures !Reaches(g', b, a)
    {
      if b == n {
        LeafReachesOnlyItself(g, n, parents, a);
      } else {
        ReachesAfterAddLeaf(g, n, parents, b, a);
        assert Edge(g, a, b);
      }
    }
  }
}
