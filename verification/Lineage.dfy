/** Shortest lineage paths: the breadth-first search of `ConversationLineage.path`. */
module Lineage {
  import opened Basics
  import opened Ordering
  import opened Graphs

  datatype Edge = Edge(edgeId: string, relation: string, source: string, target: string)

  const PATH_RELATIONS: set<string> := {"leads_to", "supports", "reframes", "supersedes", "depends_on"}

  /** What `_validate_references` guarantees of a constructed lineage. */
  ghost predicate References(nodes: set<string>, edges: seq<Edge>) {
    forall e :: e in edges ==> e.source in nodes && e.target in nodes
  }

  /** The graph of edges whose relation type is allowed. */
  function PathGraph(nodes: set<string>, edges: seq<Edge>, allowed: set<string>): Graph {
    map n | n in nodes :: set e | e in edges && e.relation in allowed && e.source == n :: e.target
  }

  predicate EdgeLe(a: Edge, b: Edge) {
    StringLe(a.edgeId, b.edgeId)
  }

  /** The targets of a node's allowed edges, edge by edge. */
  function Targets(edges: seq<Edge>, allowed: set<string>, n: string): seq<string> {
    if edges == [] then []
    else
      var e := edges[|edges| - 1];
      Targets(edges[..|edges| - 1], allowed, n) + if e.relation in allowed && e.source == n then [e.target] else []
  }

  function ListOf(adjacency: map<string, seq<string>>, n: string): seq<string> {
    if n in adjacency then adjacency[n] else []
  }

  /** The adjacency lists, in edge-id order. */
  method BuildAdjacency(edges: seq<Edge>, allowed: set<string>) returns (adjacency: map<string, seq<string>>)
    ensures forall n :: ListOf(adjacency, n) == Targets(Sort(EdgeLe, edges), allowed, n)
  {
    hide EdgeLe, Sort;
    adjacency := map[];
    var sorted := Sort(EdgeLe, edges);
    for i := 0 to |sorted|
      invariant forall n :: ListOf(adjacency, n) == Targets(sorted[..i], allowed, n)
    {
      var e := sorted[i];
      assert sorted[..i + 1][..i] == sorted[..i];
      if e.relation in allowed {
        adjacency := adjacency[e.source := (if e.source in adjacency then adjacency[e.source] else []) + [e.target]];
      }
    }
    assert sorted[..|sorted|] == sorted;
  }

  ghost predicate Leads(e: Edge, allowed: set<string>, n: string, t: string) {
    e.relation in allowed && e.source == n && e.target == t
  }

  /** A target is listed exactly if an allowed edge leads to it. */
  lemma {:induction false} TargetsAre(edges: seq<Edge>, allowed: set<string>, n: string, t: string)
    ensures t in Targets(edges, allowed, n) <==> exists i :: 0 <= i < |edges| && Leads(edges[i], allowed, n, t)
  {
    if edges != [] {
      var front := edges[..|edges| - 1];
      TargetsAre(front, allowed, n, t);
      assert forall i :: 0 <= i < |front| ==> front[i] == edges[i];
      assert Leads(edges[|edges| - 1], allowed, n, t) ==> t in Targets(edges, allowed, n);
    }
  }

  // ------------------------------------------------------------ the search

  datatype Entry = Entry(node: string, path: seq<string>)

  ghost predicate InQueue(queue: seq<Entry>, x: string) {
    exists i :: 0 <= i < |queue| && queue[i].node == x
  }

  /** Queued paths are walks from the start, their lengths recorded in `dist`. */
  ghost predicate Routes(g: Graph, start: string, queue: seq<Entry>, dist: map<string, nat>) {
    forall i :: 0 <= i < |queue| ==>
      queue[i].node in dist && |queue[i].path| == dist[queue[i].node] && Walk(g, queue[i].path, start, queue[i].node)
  }

  /** The queue is ordered by length, and spans at most the lengths `d` and `d + 1`. */
  ghost predicate Layered(queue: seq<Entry>, dist: map<string, nat>, d: nat) {
    && (forall i :: 0 <= i < |queue| ==> queue[i].node in dist && d <= dist[queue[i].node] <= d + 1)
    && (forall i, j :: 0 <= i < j < |queue| && queue[i].node in dist && queue[j].node in dist ==>
        dist[queue[i].node] <= dist[queue[j].node])
  }

  /** Every encountered node is processed or queued. */
  ghost predicate Partition(queue: seq<Entry>, processed: set<string>, visited: set<string>) {
    && processed <= visited
    && (forall x :: x in visited && x !in processed ==> InQueue(queue, x))
    && (forall i :: 0 <= i < |queue| ==> queue[i].node in visited)
  }

  /** An edge out of a processed node leads to a visited node at most one step longer. */
  ghost predicate Relaxed(g: Graph, processed: set<string>, dist: map<string, nat>) {
    forall x, y {:trigger x in processed, y in g[x]} :: x in processed && x in g && y in g[x] ==>
           x in dist && y in dist && dist[y] <= dist[x] + 1
  }

  ghost predicate Searching(g: Graph, start: string, queue: seq<Entry>, visited: set<string>, processed: set<string>,
                            dist: map<string, nat>, d: nat) {
    && Closed(g) && start in g && visited <= g.Keys
    && dist.Keys == visited && start in dist && dist[start] == 1
    && Routes(g, start, queue, dist) && Layered(queue, dist, d) && Partition(queue, processed, visited)
    && (forall x :: x in processed && x in dist ==> dist[x] <= d)
  }

  lemma {:induction false} SearchStarts(g: Graph, start: string)
    requires Closed(g) && start in g
    ensures Searching(g, start, [Entry(start, [start])], {start}, {}, map[start := 1], 1)
    ensures Relaxed(g, {}, map[start := 1]) && Waiting([Entry(start, [start])], {})
  {
    assert [Entry(start, [start])][0].node == start;
    assert Walk(g, [start], start, start);
  }

  /** Along a walk, while only processed nodes are passed, recorded lengths never exceed the steps taken. */
  lemma {:induction false} WalkBound(g: Graph, start: string, processed: set<string>, dist: map<string, nat>,
                                     p: seq<string>, b: string, i: nat)
    requires Walk(g, p, start, b) && i < |p| && start in dist && dist[start] == 1 && Relaxed(g, processed, dist)
    requires forall j :: 0 <= j < i ==> p[j] in processed
    ensures p[i] in dist && dist[p[i]] <= i + 1
  {
    if i > 0 {
      WalkBound(g, start, processed, dist, p, b, i - 1);
      assert p[i - 1] in processed && p[i] in g[p[i - 1]];
    }
  }

  /** A walk to an unprocessed node passes a first unprocessed node. */
  lemma {:induction false} FirstUnprocessed(p: seq<string>, processed: set<string>) returns (i: nat)
    requires |p| > 0 && p[|p| - 1] !in processed
    ensures i < |p| && p[i] !in processed && forall j :: 0 <= j < i ==> p[j] in processed
  {
    i := 0;
    while p[i] in processed
      invariant i < |p| && forall j :: 0 <= j < i ==> p[j] in processed
      decreases |p| - i
    {
      i := i + 1;
    }
  }

  lemma {:induction false} PoppedParts(g: Graph, start: string, queue: seq<Entry>, dist: map<string, nat>,
                                       p: seq<string>)
    requires Routes(g, start, queue, dist) && |queue| > 0 && Walk(g, p, start, queue[0].node)
    ensures |p| > 0 && p[|p| - 1] == queue[0].node
    ensures queue[0].node in dist && |queue[0].path| == dist[queue[0].node]
  {
  }

  /** When the end is popped, no walk to it is shorter than the popped path. */
  lemma {:induction false} PoppedIsShortest(g: Graph, start: string, queue: seq<Entry>, visited: set<string>,
                                            processed: set<string>, dist: map<string, nat>, d: nat, p: seq<string>)
    requires Searching(g, start, queue, visited, processed, dist, d) && Relaxed(g, processed, dist)
    requires |queue| > 0 && queue[0].node !in processed && Walk(g, p, start, queue[0].node)
    ensures |queue[0].path| <= |p|
  {
    hide Walk, Routes;
    PoppedParts(g, start, queue, dist, p);
    var i := FirstUnprocessed(p, processed);
    WalkBound(g, start, processed, dist, p, queue[0].node, i);
    assert InQueue(queue, p[i]);
    var k :| 0 <= k < |queue| && queue[k].node == p[i];
    assert k == 0 || dist[queue[0].node] <= dist[queue[k].node];
  }

  /** With nothing left to process, everything reachable has been processed. */
  lemma {:induction false} ExhaustedUnreachable(g: Graph, start: string, visited: set<string>, processed: set<string>,
                                                dist: map<string, nat>, d: nat, end: string)
    requires Searching(g, start, [], visited, processed, dist, d) && Relaxed(g, processed, dist) && end !in processed
    ensures !Reach(g, start, end)
  {
    hide Routes, Layered;
    assert visited == processed by {
      forall x | x in visited ensures x in processed {
        assert !InQueue([], x);
      }
    }
    assert SuccessorClosed(g, processed);
    if Reach(g, start, end) {
      ReachStaysInside(g, processed, start, end);
    }
  }

  lemma {:induction false} PopParts(queue: seq<Entry>, processed: set<string>, visited: set<string>,
                                    dist: map<string, nat>, d: nat)
    requires Partition(queue, processed, visited) && Layered(queue, dist, d) && |queue| > 0
    ensures Partition(queue[1..], processed + {queue[0].node}, visited)
    ensures queue[0].node in dist && d <= dist[queue[0].node] && Layered(queue[1..], dist, dist[queue[0].node])
  {
    assert forall i :: 0 <= i < |queue| ==> queue[i].node in dist && dist[queue[0].node] <= dist[queue[i].node];
    var rest := queue[1..];
    assert queue[0].node in visited;
    forall x | x in visited && x !in processed + {queue[0].node} ensures InQueue(rest, x) {
      assert InQueue(queue, x);
      var i :| 0 <= i < |queue| && queue[i].node == x;
      assert rest[i - 1].node == x;
    }
    forall i | 0 <= i < |rest| ensures rest[i].node in visited { assert rest[i] == queue[i + 1]; }
  }

  /** Taking the head off the queue. */
  lemma {:induction false} PopKeeps(g: Graph, start: string, queue: seq<Entry>, visited: set<string>,
                                    processed: set<string>, dist: map<string, nat>, d: nat)
    requires Searching(g, start, queue, visited, processed, dist, d) && |queue| > 0
    ensures var u := queue[0].node;
            u in dist && u in g && Searching(g, start, queue[1..], visited, processed + {u}, dist, dist[u])
  {
    hide Walk, Partition, Layered;
    PopParts(queue, processed, visited, dist, d);
    assert forall i :: 0 <= i < |queue| - 1 ==> queue[1..][i] == queue[i + 1];
  }

  lemma {:induction false} PushParts(g: Graph, start: string, queue: seq<Entry>, processed: set<string>,
                                     visited: set<string>, dist: map<string, nat>, d: nat, e: Entry)
    requires Partition(queue, processed, visited) && Layered(queue, dist, d) && Routes(g, start, queue, dist)
    requires e.node !in dist && Walk(g, e.path, start, e.node) && |e.path| == d + 1
    ensures Partition(queue + [e], processed, visited + {e.node}) && processed <= visited
    ensures Layered(queue + [e], dist[e.node := d + 1], d) && Routes(g, start, queue + [e], dist[e.node := d + 1])
  {
    hide Walk;
    var q := queue + [e];
    assert q[|queue|] == e;
    assert forall i :: 0 <= i < |queue| ==> q[i] == queue[i];
    forall x | x in visited + {e.node} && x !in processed ensures InQueue(q, x) {
      if x == e.node {
        assert q[|queue|].node == x;
      } else {
        assert InQueue(queue, x);
        var i :| 0 <= i < |queue| && queue[i].node == x;
        assert q[i].node == x;
      }
    }
  }

  /** Queueing an unvisited successor of the node just popped. */
  lemma {:induction false} PushKeeps(g: Graph, start: string, queue: seq<Entry>, visited: set<string>,
                                     processed: set<string>, dist: map<string, nat>, u: string, path: seq<string>,
                                     t: string)
    requires u in dist && Searching(g, start, queue, visited, processed, dist, dist[u])
    requires Walk(g, path, start, u) && |path| == dist[u] && u in g && t in g[u] && t !in visited
    ensures Searching(g, start, queue + [Entry(t, path + [t])], visited + {t}, processed, dist[t := dist[u] + 1],
                      dist[u])
  {
    hide Walk, Partition, Layered, Routes;
    var e := Entry(t, path + [t]);
    assert t in g by { assert g[u] <= g.Keys; }
    ExtendWalk(g, path, start, u, t);
    PushParts(g, start, queue, processed, visited, dist, dist[u], e);
  }

  lemma {:induction false} ExtendWalk(g: Graph, p: seq<string>, a: string, b: string, t: string)
    requires Closed(g) && Walk(g, p, a, b) && b in g && t in g[b]
    ensures Walk(g, p + [t], a, t)
  {
    var q := p + [t];
    forall i, j | 0 <= i < j < |q| && j == i + 1 ensures q[j] in g[q[i]] {
      if j < |p| { assert q[i] == p[i] && q[j] == p[j]; }
    }
  }

  /** Queued nodes are distinct and not yet processed. */
  ghost predicate Waiting(queue: seq<Entry>, processed: set<string>) {
    && (forall i :: 0 <= i < |queue| ==> queue[i].node !in processed)
    && (forall i, j :: 0 <= i < j < |queue| ==> queue[i].node != queue[j].node)
  }

  lemma {:induction false} VisitedBound(g: Graph, start: string, queue: seq<Entry>, visited: set<string>,
                                        processed: set<string>, dist: map<string, nat>, d: nat, x: string)
    requires Searching(g, start, queue, visited, processed, dist, d) && x in visited
    ensures x in dist && dist[x] <= d + 1
  {
    hide Routes;
    if x !in processed {
      assert InQueue(queue, x);
    }
  }

  lemma {:induction false} WaitingGrows(queue: seq<Entry>, processed: set<string>, visited: set<string>, t: string,
                                        path: seq<string>)
    requires Waiting(queue, processed) && Partition(queue, processed, visited) && t !in visited
    ensures Waiting(queue + [Entry(t, path)], processed)
  {
    var q := queue + [Entry(t, path)];
    assert forall i :: 0 <= i < |queue| ==> q[i] == queue[i] && queue[i].node in visited;
  }

  ghost predicate Keeps(dist: map<string, nat>, dist': map<string, nat>) {
    forall x :: x in dist ==> x in dist' && dist'[x] == dist[x]
  }

  lemma {:induction false} SearchingParts(g: Graph, start: string, queue: seq<Entry>, visited: set<string>,
                                          processed: set<string>, dist: map<string, nat>, d: nat)
    ensures Searching(g, start, queue, visited, processed, dist, d) ==>
            Partition(queue, processed, visited) && dist.Keys == visited && visited <= g.Keys && Closed(g) && start in g
  {
  }

  // ------------------------------------------------------------ which of the shortest paths

  /** `a` comes up in `s` before `b` does, if `b` does. */
  ghost predicate Earlier(s: seq<string>, a: string, b: string) {
    exists j :: 0 <= j < |s| && s[j] == a && b !in s[..j + 1]
  }

  /** The paths are the same up to `i`, where `p` takes the earlier neighbour. */
  ghost predicate TurnsAt(adjacency: map<string, seq<string>>, p: seq<string>, q: seq<string>, i: nat) {
    0 < i < |p| && i < |q| && p[..i] == q[..i] && Earlier(ListOf(adjacency, p[i - 1]), p[i], q[i])
  }

  ghost predicate Before(adjacency: map<string, seq<string>>, p: seq<string>, q: seq<string>) {
    |p| == |q| && exists i: nat :: TurnsAt(adjacency, p, q, i)
  }

  ghost predicate Least(g: Graph, adjacency: map<string, seq<string>>, start: string, path: seq<string>, x: string) {
    forall p :: Walk(g, p, start, x) && |p| == |path| ==> p == path || Before(adjacency, path, p)
  }

  lemma {:induction false} EarlierOrder(s: seq<string>, a: string, b: string, c: string)
    requires Earlier(s, a, b)
    ensures a != b && (Earlier(s, b, c) ==> Earlier(s, a, c))
  {
    var j :| 0 <= j < |s| && s[j] == a && b !in s[..j + 1];
    assert s[..j + 1][j] == a;
    if Earlier(s, b, c) {
      var k :| 0 <= k < |s| && s[k] == b && c !in s[..k + 1];
      assert forall m :: 0 <= m <= j ==> s[..j + 1][m] == s[m];
      assert j < k;
      assert s[..k + 1][..j + 1] == s[..j + 1];
    }
  }

  lemma {:induction false} BeforeOrder(adjacency: map<string, seq<string>>, p: seq<string>, q: seq<string>,
                                       r: seq<string>)
    requires Before(adjacency, p, q) && Before(adjacency, q, r)
    ensures Before(adjacency, p, r)
  {
    hide Earlier;
    var i: nat :| TurnsAt(adjacency, p, q, i);
    var k: nat :| TurnsAt(adjacency, q, r, k);
    var m := if i < k then i else k;
    assert p[..m] == p[..i][..m] && q[..m] == q[..i][..m] && q[..m] == q[..k][..m] && r[..m] == r[..k][..m];
    if i < k {
      assert q[..k][i] == r[..k][i];
    } else if k < i {
      assert p[..i][k] == q[..i][k] && p[..i][k - 1] == q[..i][k - 1];
    } else {
      assert p[..i][i - 1] == q[..i][i - 1];
      EarlierOrder(ListOf(adjacency, p[i - 1]), p[i], q[i], r[i]);
    }
    assert TurnsAt(adjacency, p, r, m);
  }

  lemma {:induction false} BeforeOrSame(adjacency: map<string, seq<string>>, p: seq<string>, q: seq<string>,
                                        r: seq<string>)
    requires (p == q || Before(adjacency, p, q)) && (q == r || Before(adjacency, q, r))
    ensures p == r || Before(adjacency, p, r)
  {
    hide Before;
    if p != q && q != r { BeforeOrder(adjacency, p, q, r); }
  }

  lemma {:induction false} BeforeAppend(adjacency: map<string, seq<string>>, p: seq<string>, q: seq<string>, x: string,
                                        y: string)
    requires Before(adjacency, p, q)
    ensures Before(adjacency, p + [x], q + [y])
  {
    hide Earlier;
    var i: nat :| TurnsAt(adjacency, p, q, i);
    assert (p + [x])[..i] == p[..i] && (q + [y])[..i] == q[..i];
    assert TurnsAt(adjacency, p + [x], q + [y], i);
  }

  lemma {:induction false} TurnsLast(adjacency: map<string, seq<string>>, p: seq<string>, x: string, y: string)
    requires p != [] && Earlier(ListOf(adjacency, p[|p| - 1]), x, y)
    ensures Before(adjacency, p + [x], p + [y])
  {
    hide Earlier;
    assert (p + [x])[..|p|] == (p + [y])[..|p|];
    assert TurnsAt(adjacency, p + [x], p + [y], |p|);
  }

  /** Queued paths are least, ordered within their layer, and those of the second layer come from predecessors before
      all that is left of the first. */
  ghost predicate Ranked(g: Graph, adjacency: map<string, seq<string>>, start: string, queue: seq<Entry>) {
    && (forall i :: 0 <= i < |queue| ==> Least(g, adjacency, start, queue[i].path, queue[i].node))
    && (forall i, j :: 0 <= i < j < |queue| && |queue[i].path| == |queue[j].path| ==>
          Before(adjacency, queue[i].path, queue[j].path))
    && (forall i, j :: 0 <= i < |queue| && 0 <= j < |queue| && |queue[j].path| == |queue[i].path| + 1 ==>
          Before(adjacency, queue[j].path[..|queue[i].path|], queue[i].path))
  }

  /** While the neighbours of the last node of `path` are queued: what is left of its layer comes after it, and the
      paths of the next layer come from before it or extend it by a neighbour already met. */
  ghost predicate Extending(adjacency: map<string, seq<string>>, queue: seq<Entry>, path: seq<string>,
                            met: seq<string>) {
    && (forall i :: 0 <= i < |queue| ==> |path| <= |queue[i].path| <= |path| + 1)
    && (forall i :: 0 <= i < |queue| && |queue[i].path| == |path| ==> Before(adjacency, path, queue[i].path))
    && (forall i :: 0 <= i < |queue| && |queue[i].path| == |path| + 1 ==>
          Before(adjacency, queue[i].path[..|path|], path)
          || (queue[i].path[..|path|] == path && queue[i].path[|path|] in met))
  }

  lemma {:induction false} PopRanked(g: Graph, adjacency: map<string, seq<string>>, start: string, queue: seq<Entry>)
    requires Ranked(g, adjacency, start, queue) && |queue| > 0
    requires forall i :: 0 <= i < |queue| ==> |queue[0].path| <= |queue[i].path| <= |queue[0].path| + 1
    ensures Ranked(g, adjacency, start, queue[1..]) && Extending(adjacency, queue[1..], queue[0].path, [])
    ensures Least(g, adjacency, start, queue[0].path, queue[0].node)
  {
    hide Before, Least;
    var rest := queue[1..];
    assert forall i :: 0 <= i < |rest| ==> rest[i] == queue[i + 1];
  }

  lemma {:induction false} Meets(adjacency: map<string, seq<string>>, queue: seq<Entry>, path: seq<string>,
                                 met: seq<string>, t: string)
    requires Extending(adjacency, queue, path, met)
    ensures Extending(adjacency, queue, path, met + [t])
  {
    hide Before;
  }

  lemma {:induction false} ComesBefore(adjacency: map<string, seq<string>>, q: seq<string>, path: seq<string>, k: nat,
                                       t: string)
    requires path != [] && |q| == |path| + 1
    requires var targets := ListOf(adjacency, path[|path| - 1]);
             k < |targets| && targets[k] == t && t !in targets[..k]
             && (Before(adjacency, q[..|path|], path) || (q[..|path|] == path && q[|path|] in targets[..k]))
    ensures Before(adjacency, q, path + [t])
  {
    hide Before, Earlier;
    var n := |path|;
    var targets := ListOf(adjacency, path[n - 1]);
    assert q == q[..n] + [q[n]];
    if Before(adjacency, q[..n], path) {
      BeforeAppend(adjacency, q[..n], path, q[n], t);
    } else {
      var m :| 0 <= m < k && targets[..k][m] == q[n];
      assert targets[..k][..m + 1] == targets[..m + 1];
      Comes(targets, m, t);
      TurnsLast(adjacency, path, q[n], t);
    }
  }

  lemma {:induction false} Comes(s: seq<string>, j: nat, b: string)
    requires j < |s| && b !in s[..j + 1]
    ensures Earlier(s, s[j], b)
  {
  }

  /** Queueing the next unvisited neighbour. */
  lemma {:induction false} PushRanked(g: Graph, adjacency: map<string, seq<string>>, start: string, queue: seq<Entry>,
                                      path: seq<string>, k: nat, t: string)
    requires path != [] && Ranked(g, adjacency, start, queue)
    requires var targets := ListOf(adjacency, path[|path| - 1]);
             k < |targets| && targets[k] == t && t !in targets[..k] && Extending(adjacency, queue, path, targets[..k])
    requires Least(g, adjacency, start, path + [t], t)
    ensures Ranked(g, adjacency, start, queue + [Entry(t, path + [t])])
    ensures Extending(adjacency, queue + [Entry(t, path + [t])], path,
                      ListOf(adjacency, path[|path| - 1])[..k] + [t])
  {
    hide Before, Least;
    var e := Entry(t, path + [t]);
    var q := queue + [e];
    forall i | 0 <= i < |queue| && |queue[i].path| == |path| + 1 ensures Before(adjacency, queue[i].path, path + [t]) {
      ComesBefore(adjacency, queue[i].path, path, k, t);
    }
    assert (path + [t])[..|path|] == path;
    assert forall i :: 0 <= i < |queue| ==> q[i] == queue[i];
    assert q[|queue|] == e;
  }

  /** A path to an unvisited neighbour of the node at the head of the queue, through the head, is least. */
  lemma {:induction false} NextIsLeast(g: Graph, adjacency: map<string, seq<string>>, start: string, queue: seq<Entry>,
                                       visited: set<string>, processed: set<string>, dist: map<string, nat>, d: nat,
                                       t: string)
    requires Searching(g, start, queue, visited, processed, dist, d) && Relaxed(g, processed, dist)
    requires |queue| > 0 && queue[0].node in g && t in g[queue[0].node] && t !in visited
    requires Ranked(g, adjacency, start, queue)
    ensures Least(g, adjacency, start, queue[0].path + [t], t)
  {
    hide Walk, Before, Searching, Relaxed;
    var path := queue[0].path;
    forall w | Walk(g, w, start, t) && |w| == |path| + 1
      ensures w == path + [t] || Before(adjacency, path + [t], w) {
      HeadFacts(g, start, queue, visited, processed, dist, d);
      var v := BeforeLast(g, w, start, t);
      var k := LayerEntry(g, start, queue, visited, processed, dist, d, w[..|path|], v, t);
      BeforeOrSame(adjacency, path, queue[k].path, w[..|path|]);
      if w[..|path|] != path { BeforeAppend(adjacency, path, w[..|path|], t, t); }
    }
  }

  lemma {:induction false} BeforeLast(g: Graph, w: seq<string>, a: string, b: string) returns (v: string)
    requires Walk(g, w, a, b) && |w| > 1
    ensures Walk(g, w[..|w| - 1], a, v) && v in g && b in g[v] && w == w[..|w| - 1] + [b]
  {
    v := w[|w| - 2];
    var i, j := |w| - 2, |w| - 1;
    assert j == i + 1 && w[j] in g[w[i]];
  }

  /** The queue entry by which a walk as long as the head's path reaches the predecessor of an unvisited node. */
  lemma {:induction false} LayerEntry(g: Graph, start: string, queue: seq<Entry>, visited: set<string>,
                                      processed: set<string>, dist: map<string, nat>, d: nat, p: seq<string>, v: string,
                                      t: string) returns (k: nat)
    requires Searching(g, start, queue, visited, processed, dist, d) && Relaxed(g, processed, dist)
    requires |queue| > 0 && Walk(g, p, start, v) && |p| == |queue[0].path| && v in g && t in g[v] && t !in visited
    ensures k < |queue| && queue[k].node == v && |queue[k].path| == |p|
  {
    assert |p| > 0 && p[|p| - 1] == v;
    hide Walk;
    assert v !in processed;
    var i := FirstUnprocessed(p, processed);
    WalkBound(g, start, processed, dist, p, v, i);
    assert InQueue(queue, p[i]);
    k :| 0 <= k < |queue| && queue[k].node == p[i];
    assert k == 0 || dist[queue[0].node] <= dist[queue[k].node];
  }

  /** The loop over `adjacency.get(current, [])`. */
  method Expand(g: Graph, start: string, queue0: seq<Entry>, visited0: set<string>, ghost processed: set<string>,
                ghost dist0: map<string, nat>, u: string, path: seq<string>, targets: seq<string>,
                ghost adjacency: map<string, seq<string>>)
    returns (queue: seq<Entry>, visited: set<string>, ghost dist: map<string, nat>)
    requires u in dist0 && Searching(g, start, queue0, visited0, processed, dist0, dist0[u])
             && Waiting(queue0, processed)
    requires u in g && Elements(targets) == g[u] && Walk(g, path, start, u) && |path| == dist0[u]
    requires path != [] && path[|path| - 1] == u && targets == ListOf(adjacency, u)
    requires Ranked(g, adjacency, start, queue0) && Extending(adjacency, queue0, path, [])
    requires forall t :: t in g[u] && t !in visited0 ==> Least(g, adjacency, start, path + [t], t)
    ensures u in dist && dist[u] == dist0[u] && Searching(g, start, queue, visited, processed, dist, dist[u])
            && Waiting(queue, processed)
    ensures Keeps(dist0, dist)
    ensures forall t :: t in targets ==> t in dist && dist[t] <= dist[u] + 1
    ensures Ranked(g, adjacency, start, queue)
  {
    hide Walk, Searching, Waiting, Partition, Ranked, Extending, Least;
    queue, visited, dist := queue0, visited0, dist0;
    for k := 0 to |targets|
      invariant u in dist && dist[u] == dist0[u] && Searching(g, start, queue, visited, processed, dist, dist[u])
                && Waiting(queue, processed)
      invariant Keeps(dist0, dist)
      invariant forall j :: 0 <= j < k ==> targets[j] in dist && dist[targets[j]] <= dist[u] + 1
      invariant visited0 <= visited
      invariant Ranked(g, adjacency, start, queue) && Extending(adjacency, queue, path, targets[..k])
    {
      assert targets[..k + 1] == targets[..k] + [targets[k]];
      var t := targets[k];
      assert t in g[u] by { assert t in Elements(targets); }
      SearchingParts(g, start, queue, visited, processed, dist, dist[u]);
      if t in visited {
        VisitedBound(g, start, queue, visited, processed, dist, dist[u], t);
        Meets(adjacency, queue, path, targets[..k], t);
      } else {
        assert t !in targets[..k];
        PushRanked(g, adjacency, start, queue, path, k, t);
        WaitingGrows(queue, processed, visited, t, path + [t]);
        PushKeeps(g, start, queue, visited, processed, dist, u, path, t);
        visited := visited + {t};
        queue := queue + [Entry(t, path + [t])];
        dist := dist[t := dist[u] + 1];
      }
    }
  }

  lemma {:induction false} RelaxedAll(g: Graph, before: set<string>, u: string, dist0: map<string, nat>,
                                      dist: map<string, nat>, targets: seq<string>)
    requires Relaxed(g, before, dist0) && Keeps(dist0, dist) && u in g && u in dist
    requires Elements(targets) == g[u] && forall t :: t in targets ==> t in dist && dist[t] <= dist[u] + 1
    ensures Relaxed(g, before + {u}, dist)
  {
    forall x, y | x in before + {u} && x in g && y in g[x] ensures x in dist && y in dist && dist[y] <= dist[x] + 1 {
      if x == u {
        assert y in Elements(targets);
      } else {
        assert x in before && x in dist0 && y in dist0;
      }
    }
  }

  lemma {:induction false} WaitingPop(queue: seq<Entry>, processed: set<string>)
    requires Waiting(queue, processed) && |queue| > 0
    ensures queue[0].node !in processed && Waiting(queue[1..], processed + {queue[0].node})
  {
    assert forall i :: 0 <= i < |queue| - 1 ==> queue[1..][i] == queue[i + 1];
  }

  /** The queue and the loop that empties it. */
  method Search(g: Graph, adjacency: map<string, seq<string>>, start: string, end: string) returns (path: seq<string>)
    requires Closed(g) && start in g
    requires forall n :: n in g ==> Elements(ListOf(adjacency, n)) == g[n]
    ensures path == [] <==> !Reach(g, start, end)
    ensures path != [] ==> Least(g, adjacency, start, path, end)
    ensures path != [] ==> Walk(g, path, start, end) && forall p :: Walk(g, p, start, end) ==> |path| <= |p|
  {
    hide Walk, Reach, Relaxed, Closed, Searching, Waiting, Keeps, Ranked, Extending, Least, ListOf;
    var queue := [Entry(start, [start])];
    var visited := {start};
    ghost var processed: set<string> := {};
    ghost var dist: map<string, nat> := map[start := 1];
    ghost var d: nat := 1;
    SearchStarts(g, start);
    StartRanked(g, adjacency, start);
    while queue != []
      invariant Searching(g, start, queue, visited, processed, dist, d) && Relaxed(g, processed, dist)
      invariant end !in processed && Waiting(queue, processed) && Ranked(g, adjacency, start, queue)
      decreases g.Keys - processed
    {
      var current, currentPath := queue[0].node, queue[0].path;
      HeadFacts(g, start, queue, visited, processed, dist, d);
      WaitingPop(queue, processed);
      LayerLengths(g, start, queue, visited, processed, dist, d);
      PopRanked(g, adjacency, start, queue);
      if current == end {
        forall p | Walk(g, p, start, end) ensures |currentPath| <= |p| {
          PoppedIsShortest(g, start, queue, visited, processed, dist, d, p);
        }
        return currentPath;
      }
      forall t | t in g[current] && t !in visited ensures Least(g, adjacency, start, currentPath + [t], t) {
        NextIsLeast(g, adjacency, start, queue, visited, processed, dist, d, t);
      }
      PopKeeps(g, start, queue, visited, processed, dist, d);
      ghost var before, dist0 := processed, dist;
      queue := queue[1..];
      processed := processed + {current};
      var targets := ListOf(adjacency, current);
      queue, visited, dist := Expand(g, start, queue, visited, processed, dist, current, currentPath, targets,
                                     adjacency);
      d := dist[current];
      RelaxedAll(g, before, current, dist0, dist, targets);
    }
    ExhaustedUnreachable(g, start, visited, processed, dist, d, end);
    path := [];
  }

  /** `path`. `None` stands for the `KeyError` on a start node that is its own end and unknown. */
  method Path(nodes: set<string>, edges: seq<Edge>, start: string, end: string, relationTypes: set<string>)
    returns (r: Option<seq<string>>)
    requires References(nodes, edges)
    ensures var g := PathGraph(nodes, edges, if relationTypes == {} then PATH_RELATIONS else relationTypes);
            && (r.None? <==> start == end && start !in nodes)
            && (r.Some? ==> (r.value == [] <==> !Reach(g, start, end)))
            && (r.Some? && r.value != [] ==>
                  Walk(g, r.value, start, end) && forall p :: Walk(g, p, start, end) ==>
                    |r.value| < |p| || p == r.value
                    || TakesFirst(edges, if relationTypes == {} then PATH_RELATIONS else relationTypes, r.value, p))
  {
    hide Walk, Reach, References, Least, ListOf, Targets, TakesFirst;
    var allowed := if relationTypes == {} then PATH_RELATIONS else relationTypes;
    var adjacency := BuildAdjacency(edges, allowed);
    var g := PathGraph(nodes, edges, allowed);
    if start !in nodes {
      UnknownStart(g, start, end);
      if start == end {
        return None;
      }
      return Some([]);
    }
    AdjacencyIsGraph(nodes, edges, allowed, adjacency);
    var path := Search(g, adjacency, start, end);
    if path != [] { LeastTakesFirst(g, edges, allowed, adjacency, start, end, path); }
    r := Some(path);
  }

  lemma {:induction false} UnknownStart(g: Graph, start: string, end: string)
    requires start !in g
    ensures !Reach(g, start, end)
  {
    forall p ensures !Walk(g, p, start, end) {
    }
  }

  lemma {:induction false} AdjacencyIsGraph(nodes: set<string>, edges: seq<Edge>, allowed: set<string>,
                                            adjacency: map<string, seq<string>>)
    requires References(nodes, edges)
    requires forall n :: ListOf(adjacency, n) == Targets(Sort(EdgeLe, edges), allowed, n)
    ensures var g := PathGraph(nodes, edges, allowed);
            Closed(g) && forall n :: n in g ==> Elements(ListOf(adjacency, n)) == g[n]
  {
    hide Sort, ListOf, Targets;
    var g, sorted := PathGraph(nodes, edges, allowed), Sort(EdgeLe, edges);
    SortMembers(EdgeLe, edges);
    forall n | n in g ensures Elements(ListOf(adjacency, n)) == g[n] {
      forall t ensures t in ListOf(adjacency, n) <==> t in g[n] {
        TargetsAre(sorted, allowed, n, t);
        assert t in g[n] <==> exists e :: e in edges && Leads(e, allowed, n, t);
        assert forall i :: 0 <= i < |sorted| ==> sorted[i] in edges;
      }
    }
  }

  // ------------------------------------------------------------ the order said in terms of edges

  /** Some allowed edge from `n` to `a` has an identity no greater than any from `n` to `b`. */
  ghost predicate FirstEdge(edges: seq<Edge>, allowed: set<string>, n: string, a: string, b: string) {
    exists e :: e in edges && Leads(e, allowed, n, a) && NoneBefore(edges, allowed, n, b, e.edgeId)
  }

  ghost predicate NoneBefore(edges: seq<Edge>, allowed: set<string>, n: string, b: string, id: string) {
    forall f :: f in edges && Leads(f, allowed, n, b) ==> StringLe(id, f.edgeId)
  }

  ghost predicate LeavesFirst(edges: seq<Edge>, allowed: set<string>, p: seq<string>, q: seq<string>, i: nat) {
    0 < i < |p| && i < |q| && p[..i] == q[..i] && p[i] != q[i] && FirstEdge(edges, allowed, p[i - 1], p[i], q[i])
  }

  /** Two paths of one length: where they part, `p` takes the edge with the smaller identity. */
  ghost predicate TakesFirst(edges: seq<Edge>, allowed: set<string>, p: seq<string>, q: seq<string>) {
    |p| == |q| && exists i: nat :: LeavesFirst(edges, allowed, p, q, i)
  }

  /** A target listed before another has an edge before all edges to the other. */
  lemma {:induction false} EarlierEdge(edges: seq<Edge>, allowed: set<string>, n: string, a: string, b: string)
    returns (m: nat)
    requires Earlier(Targets(edges, allowed, n), a, b)
    ensures m < |edges| && Leads(edges[m], allowed, n, a)
    ensures forall k :: 0 <= k <= m ==> !Leads(edges[k], allowed, n, b)
  {
    var s := Targets(edges, allowed, n);
    var j :| 0 <= j < |s| && s[j] == a && b !in s[..j + 1];
    var front := edges[..|edges| - 1];
    var t := Targets(front, allowed, n);
    if j < |t| {
      assert s[..j + 1] == t[..j + 1];
      m := EarlierEdge(front, allowed, n, a, b);
      assert forall k :: 0 <= k < |front| ==> front[k] == edges[k];
    } else {
      m := |edges| - 1;
      assert s[..j + 1] == s && s == t + [a];
      TargetsAre(front, allowed, n, b);
      assert forall k :: 0 <= k < |front| ==> front[k] == edges[k];
    }
  }

  lemma {:induction false} EarlierIsFirst(edges: seq<Edge>, allowed: set<string>, n: string, a: string, b: string)
    requires Earlier(Targets(Sort(EdgeLe, edges), allowed, n), a, b)
    ensures a != b && FirstEdge(edges, allowed, n, a, b)
  {
    hide Targets, Sort, StringLe;
    var sorted := Sort(EdgeLe, edges);
    EarlierOrder(Targets(sorted, allowed, n), a, b, b);
    var m := EarlierEdge(sorted, allowed, n, a, b);
    SortMembers(EdgeLe, edges);
    StringOrder();
    SortSorts(EdgeLe, edges);
    forall f | f in edges && Leads(f, allowed, n, b) ensures StringLe(sorted[m].edgeId, f.edgeId) {
      var k :| 0 <= k < |sorted| && sorted[k] == f;
      assert m < k && EdgeLe(sorted[m], sorted[k]);
    }
  }

  lemma {:induction false} LeastTakesFirst(g: Graph, edges: seq<Edge>, allowed: set<string>,
                                           adjacency: map<string, seq<string>>, start: string, end: string,
                                           path: seq<string>)
    requires forall n :: ListOf(adjacency, n) == Targets(Sort(EdgeLe, edges), allowed, n)
    requires Least(g, adjacency, start, path, end)
    ensures forall p :: Walk(g, p, start, end) && |p| == |path| ==> p == path || TakesFirst(edges, allowed, path, p)
  {
    hide Walk, Targets, Sort, Earlier, FirstEdge, ListOf;
    forall p | Walk(g, p, start, end) && |p| == |path| && p != path ensures TakesFirst(edges, allowed, path, p) {
      var i: nat :| TurnsAt(adjacency, path, p, i);
      EarlierIsFirst(edges, allowed, path[i - 1], path[i], p[i]);
      assert LeavesFirst(edges, allowed, path, p, i);
    }
  }

  /** With distinct edge identities, two different paths cannot each take the smaller edge: `Path` has one answer. */
  lemma {:induction false} TakesFirstOnce(edges: seq<Edge>, allowed: set<string>, p: seq<string>, q: seq<string>)
    requires forall e, f :: e in edges && f in edges && e.edgeId == f.edgeId ==> e == f
    ensures !(TakesFirst(edges, allowed, p, q) && TakesFirst(edges, allowed, q, p))
  {
    hide FirstEdge;
    if TakesFirst(edges, allowed, p, q) && TakesFirst(edges, allowed, q, p) {
      var i: nat :| LeavesFirst(edges, allowed, p, q, i);
      var k: nat :| LeavesFirst(edges, allowed, q, p, k);
      assert (forall m :: 0 <= m < i ==> p[..i][m] == p[m] && q[..i][m] == q[m]);
      assert (forall m :: 0 <= m < k ==> p[..k][m] == p[m] && q[..k][m] == q[m]);
      assert i == k;
      assert p[..i][i - 1] == q[..i][i - 1];
      FirstEdgeOnce(edges, allowed, p[i - 1], p[i], q[i]);
    }
  }

  lemma {:induction false} FirstEdgeOnce(edges: seq<Edge>, allowed: set<string>, n: string, a: string, b: string)
    requires forall e, f :: e in edges && f in edges && e.edgeId == f.edgeId ==> e == f
    requires FirstEdge(edges, allowed, n, a, b) && FirstEdge(edges, allowed, n, b, a)
    ensures a == b
  {
    hide StringLe;
    StringOrder();
    var e :| e in edges && Leads(e, allowed, n, a) && NoneBefore(edges, allowed, n, b, e.edgeId);
    var f :| f in edges && Leads(f, allowed, n, b) && NoneBefore(edges, allowed, n, a, f.edgeId);
    assert StringLe(e.edgeId, f.edgeId) && StringLe(f.edgeId, e.edgeId);
  }

  lemma {:induction false} HeadFacts(g: Graph, start: string, queue: seq<Entry>, visited: set<string>,
                                     processed: set<string>, dist: map<string, nat>, d: nat)
    ensures Searching(g, start, queue, visited, processed, dist, d) && |queue| > 0 ==>
            queue[0].node in dist && queue[0].node in g && |queue[0].path| == dist[queue[0].node]
    ensures Searching(g, start, queue, visited, processed, dist, d) && |queue| > 0 ==>
            Walk(g, queue[0].path, start, queue[0].node) && queue[0].path != [] && Reach(g, start, queue[0].node)
            && queue[0].path[|queue[0].path| - 1] == queue[0].node
  {
  }

  lemma {:induction false} StartRanked(g: Graph, adjacency: map<string, seq<string>>, start: string)
    ensures Ranked(g, adjacency, start, [Entry(start, [start])])
  {
    hide Before;
    forall p | Walk(g, p, start, start) && |p| == 1 ensures p == [start] {
      assert p == [p[0]];
    }
  }

  lemma {:induction false} LayerLengths(g: Graph, start: string, queue: seq<Entry>, visited: set<string>,
                                        processed: set<string>, dist: map<string, nat>, d: nat)
    requires Searching(g, start, queue, visited, processed, dist, d) && |queue| > 0
    ensures forall i :: 0 <= i < |queue| ==> |queue[0].path| <= |queue[i].path| <= |queue[0].path| + 1
  {
    hide Walk, Partition;
    forall i | 0 <= i < |queue| ensures |queue[0].path| <= |queue[i].path| <= |queue[0].path| + 1 {
      assert i == 0 || dist[queue[0].node] <= dist[queue[i].node];
    }
  }

  /** The relations a path may take by default. */
  lemma {:induction false} PathRelationsAre(r: string)
    ensures r in PATH_RELATIONS <==>
              r == "leads_to" || r == "supports" || r == "reframes" || r == "supersedes" || r == "depends_on"
  {
  }

  /** A node's neighbours are the targets of its edges of an allowed type. */
  lemma {:induction false} PathGraphIs(nodes: set<string>, edges: seq<Edge>, allowed: set<string>, n: string, t: string)
    ensures PathGraph(nodes, edges, allowed).Keys == nodes
    ensures n in nodes ==>
              (t in PathGraph(nodes, edges, allowed)[n] <==>
                 exists e :: e in edges && e.source == n && e.target == t && e.relation in allowed)
  {
  }
}
