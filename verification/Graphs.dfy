/** Finite directed graphs over names, walks, reachability and cycles. */
module Graphs {

  type Graph = map<string, set<string>>

  /** Every edge ends at a known node. */
  ghost predicate Closed(g: Graph) {
    forall n :: n in g ==> g[n] <= g.Keys
  }

  /** `p` is a nonempty sequence of nodes from `a` to `b`, each an edge away from the previous. */
  ghost predicate Walk(g: Graph, p: seq<string>, a: string, b: string) {
    && |p| > 0 && p[0] == a && p[|p| - 1] == b
    && (forall i :: 0 <= i < |p| ==> p[i] in g)
    && (forall i, j :: 0 <= i < j < |p| && j == i + 1 ==> p[j] in g[p[i]])
  }

  ghost predicate Reach(g: Graph, a: string, b: string) {
    exists p :: Walk(g, p, a, b)
  }

  /** `a` lies on a cycle: some successor of `a` leads back to `a`. */
  ghost predicate OnCycle(g: Graph, a: string) {
    a in g && exists b :: b in g[a] && Reach(g, b, a)
  }

  ghost predicate Acyclic(g: Graph) {
    forall a :: a in g ==> !OnCycle(g, a)
  }

  /** The strongly connected component of `a`. */
  ghost function Component(g: Graph, a: string): set<string> {
    set b | b in g && Reach(g, a, b) && Reach(g, b, a)
  }

  ghost predicate SuccessorClosed(g: Graph, s: set<string>) {
    forall n :: n in s && n in g ==> g[n] <= s
  }

  lemma {:induction false} ReachSelf(g: Graph, a: string)
    requires a in g
    ensures Reach(g, a, a)
  {
    assert Walk(g, [a], a, a);
  }

  lemma {:induction false} ReachStep(g: Graph, a: string, b: string)
    requires a in g && b in g && b in g[a]
    ensures Reach(g, a, b)
  {
    assert Walk(g, [a, b], a, b);
  }

  lemma {:induction false} ReachTransitive(g: Graph, a: string, b: string, c: string)
    requires Reach(g, a, b) && Reach(g, b, c)
    ensures Reach(g, a, c)
  {
    var p :| Walk(g, p, a, b);
    var q :| Walk(g, q, b, c);
    var r := p + q[1..];
    forall i, j | 0 <= i < j < |r| && j == i + 1 ensures r[j] in g[r[i]] {
      if i >= |p| - 1 { assert r[j] == q[j - (|p| - 1)] && r[i] == q[i - (|p| - 1)]; }
    }
    assert Walk(g, r, a, c);
  }

  /** A walk never leaves a set that contains its start and all successors of its members. */
  lemma {:induction false} WalkStaysInside(g: Graph, s: set<string>, p: seq<string>, a: string, b: string)
    requires SuccessorClosed(g, s) && a in s && Walk(g, p, a, b)
    ensures b in s
  {
    if |p| > 1 {
      assert p[0] in g && p[1] in g[p[0]];
      WalkStaysInside(g, s, p[1..], p[1], b);
    }
  }

  lemma {:induction false} ReachStaysInside(g: Graph, s: set<string>, a: string, b: string)
    requires SuccessorClosed(g, s) && a in s && Reach(g, a, b)
    ensures b in s
  {
    var p :| Walk(g, p, a, b);
    WalkStaysInside(g, s, p, a, b);
  }

  /** Reaching another node means taking a first edge. */
  lemma {:induction false} ReachFirstEdge(g: Graph, a: string, b: string) returns (c: string)
    requires Reach(g, a, b) && a != b
    ensures a in g && c in g[a] && Reach(g, c, b)
  {
    var p :| Walk(g, p, a, b);
    c := p[1];
    assert p[0] in g;
    assert Walk(g, p[1..], c, b);
  }

  lemma {:induction false} ComponentSelf(g: Graph, a: string)
    requires a in g
    ensures a in Component(g, a)
  {
    ReachSelf(g, a);
  }

  /** A component is the same whichever member names it. */
  lemma {:induction false} ComponentShared(g: Graph, a: string, b: string)
    requires b in Component(g, a)
    ensures Component(g, b) == Component(g, a)
  {
    forall c | c in g ensures c in Component(g, b) <==> c in Component(g, a) {
      if c in Component(g, b) {
        ReachTransitive(g, a, b, c);
        ReachTransitive(g, c, b, a);
      }
      if c in Component(g, a) {
        ReachTransitive(g, b, a, c);
        ReachTransitive(g, c, a, b);
      }
    }
  }

  /** A node lies on a cycle exactly when its component has another member or it has a self loop. */
  lemma {:induction false} OnCycleIff(g: Graph, a: string)
    requires Closed(g) && a in g
    ensures OnCycle(g, a) <==> |Component(g, a)| > 1 || a in g[a]
  {
    ReachSelf(g, a);
    var c := Component(g, a);
    if OnCycle(g, a) {
      var b :| b in g[a] && Reach(g, b, a);
      ReachStep(g, a, b);
      if b != a {
        assert {a, b} <= c;
        assert |c - {a, b}| == |c| - 2;
      }
    }
    if |c| > 1 {
      assert c - {a} != {} by { assert c == (c - {a}) + {a}; }
      var b :| b in c - {a};
      var d := ReachFirstEdge(g, a, b);
      ReachTransitive(g, d, b, a);
    }
  }
}
