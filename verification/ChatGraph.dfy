/** Completeness of a captured conversation graph.

    Every node may name a parent and children. The capture checks that these links agree
    and walks up from each node, bounded by the number of nodes, to find parent cycles. */
module ChatGraph {
  import opened Basics
  import opened Ordering

  datatype Node = Node(parent: Option<string>, children: seq<string>, hasMessage: bool)
  type Nodes = map<string, Node>

  datatype Ref = Ref(source: string, relation: string, target: string)

  // ------------------------------------------------------------ links and ancestors

  ghost predicate ParentAgrees(nodes: Nodes, n: string)
    requires n in nodes
  {
    nodes[n].parent.Some? ==> nodes[n].parent.value in nodes && n in nodes[nodes[n].parent.value].children
  }

  ghost predicate ChildAgrees(nodes: Nodes, n: string, c: string) {
    c in nodes && nodes[c].parent == Some(n)
  }

  /** Parents and children name each other, and only known nodes. */
  ghost predicate LinksAgree(nodes: Nodes) {
    forall n :: n in nodes ==> ParentAgrees(nodes, n) && forall c :: c in nodes[n].children ==> ChildAgrees(nodes, n, c)
  }

  /** The name reached by `k` parent steps, while the nodes passed are known. */
  function Ancestor(nodes: Nodes, n: string, k: nat): Option<string> {
    if k == 0 then Some(n)
    else match Ancestor(nodes, n, k - 1)
      case None => None
      case Some(m) => if m in nodes then nodes[m].parent else None
  }

  ghost predicate KnownAt(nodes: Nodes, n: string, k: nat) {
    Ancestor(nodes, n, k).Some? && Ancestor(nodes, n, k).value in nodes
  }

  /** The walk up from `n` never leaves the known nodes. */
  ghost predicate Endless(nodes: Nodes, n: string) {
    forall k: nat :: KnownAt(nodes, n, k)
  }

  /** The walk up from `n` reaches a known node without a parent. */
  ghost predicate Rooted(nodes: Nodes, n: string) {
    exists k: nat :: KnownAt(nodes, n, k) && nodes[Ancestor(nodes, n, k).value].parent.None?
  }

  /** A rooted forest with mutually consistent links. */
  ghost predicate Forest(nodes: Nodes) {
    LinksAgree(nodes) && forall n :: n in nodes ==> Rooted(nodes, n)
  }

  lemma {:induction false} AncestorShift(nodes: Nodes, n: string, i: nat, m: nat)
    requires Ancestor(nodes, n, i).Some?
    ensures Ancestor(nodes, n, i + m) == Ancestor(nodes, Ancestor(nodes, n, i).value, m)
  {
    if m > 0 {
      AncestorShift(nodes, n, i, m - 1);
      assert i + m - 1 == i + (m - 1);
    }
  }

  lemma {:induction false} KnownBelow(nodes: Nodes, n: string, j: nat, k: nat)
    requires KnownAt(nodes, n, k) && j <= k
    ensures KnownAt(nodes, n, j)
    decreases k - j
  {
    if j < k {
      KnownBelow(nodes, n, j + 1, k);
    }
  }

  /** Meeting a node again makes the walk periodic, hence endless. */
  lemma {:induction false} RepeatIsEndless(nodes: Nodes, n: string, i: nat, j: nat, k: nat)
    requires i < j && KnownAt(nodes, n, j) && Ancestor(nodes, n, i) == Ancestor(nodes, n, j)
    ensures KnownAt(nodes, n, k)
    decreases k
  {
    if k <= j {
      KnownBelow(nodes, n, k, j);
    } else {
      RepeatIsEndless(nodes, n, i, j, k - (j - i));
      AncestorShift(nodes, n, j, k - j);
      AncestorShift(nodes, n, i, k - j);
      assert j + (k - j) == k && i + (k - j) == k - (j - i);
    }
  }

  /** With agreeing links, a walk ends exactly when it reaches a root. */
  lemma {:induction false} RootedIff(nodes: Nodes, n: string)
    requires LinksAgree(nodes) && n in nodes
    ensures Rooted(nodes, n) <==> !Endless(nodes, n)
  {
    if Rooted(nodes, n) {
      var k: nat :| KnownAt(nodes, n, k) && nodes[Ancestor(nodes, n, k).value].parent.None?;
      assert !KnownAt(nodes, n, k + 1);
    }
    if !Endless(nodes, n) {
      var k: nat :| !KnownAt(nodes, n, k);
      EndsAtRoot(nodes, n, k);
    }
  }

  lemma {:induction false} EndsAtRoot(nodes: Nodes, n: string, k: nat)
    requires LinksAgree(nodes) && n in nodes && !KnownAt(nodes, n, k)
    ensures Rooted(nodes, n)
  {
    if k > 0 {
      if KnownAt(nodes, n, k - 1) {
        var m := Ancestor(nodes, n, k - 1).value;
        assert ParentAgrees(nodes, m);
      } else {
        EndsAtRoot(nodes, n, k - 1);
      }
    }
  }

  ghost predicate Returns(nodes: Nodes, x: string, k: nat) {
    Ancestor(nodes, x, k) == Some(x)
  }

  ghost predicate OnParentCycle(nodes: Nodes, x: string) {
    x in nodes && exists k: nat :: k > 0 && Returns(nodes, x, k)
  }

  ghost predicate NotBackBefore(nodes: Nodes, start: string, n: nat) {
    forall p: nat :: 0 < p < n ==> !Returns(nodes, start, p)
  }

  /** If another node is met twice before the start is met again, the start is never met again. */
  lemma {:induction false} NeverBack(nodes: Nodes, start: string, i: nat, j: nat, p: nat)
    requires 0 < i < j && NotBackBefore(nodes, start, j)
    requires Ancestor(nodes, start, j).Some? && Ancestor(nodes, start, i) == Ancestor(nodes, start, j)
             && Ancestor(nodes, start, j) != Some(start)
    ensures p > 0 ==> !Returns(nodes, start, p)
  {
    if p > j {
      NeverBack(nodes, start, i, j, p - (j - i));
      AncestorShift(nodes, start, j, p - j);
      AncestorShift(nodes, start, i, p - j);
      assert j + (p - j) == p && i + (p - j) == p - (j - i);
    }
  }

  // ------------------------------------------------------------ the bounded walk

  ghost predicate MetBefore(nodes: Nodes, start: string, x: string, steps: nat) {
    exists i: nat :: i < steps && Ancestor(nodes, start, i) == Some(x)
  }

  ghost predicate Walked(nodes: Nodes, start: string, cursor: Option<string>, visited: set<string>, steps: nat) {
    && cursor == Ancestor(nodes, start, steps)
    && visited <= nodes.Keys && |visited| == steps
    && (forall x :: x in visited <==> MetBefore(nodes, start, x, steps))
    && (steps > 0 ==> KnownAt(nodes, start, steps - 1))
  }

  lemma {:induction false} WalkOn(nodes: Nodes, start: string, x: string, visited: set<string>, steps: nat)
    requires Walked(nodes, start, Some(x), visited, steps) && x in nodes && x !in visited
    ensures Walked(nodes, start, nodes[x].parent, visited + {x}, steps + 1)
  {
    var more := visited + {x};
    assert KnownAt(nodes, start, steps);
    hide MetBefore;
    forall y ensures y in more <==> MetBefore(nodes, start, y, steps + 1) {
    }
  }

  lemma {:induction false} RevisitIsEndless(nodes: Nodes, start: string, x: string, visited: set<string>, steps: nat)
    requires Walked(nodes, start, Some(x), visited, steps) && x in visited
    ensures Endless(nodes, start)
  {
    assert MetBefore(nodes, start, x, steps);
    var i: nat :| i < steps && Ancestor(nodes, start, i) == Some(x);
    assert KnownAt(nodes, start, steps);
    forall k: nat ensures KnownAt(nodes, start, k) {
      RepeatIsEndless(nodes, start, i, steps, k);
    }
  }

  /** A node met again lies on a cycle, and it is the start if the start lies on one. */
  lemma {:induction false} RevisitOnCycle(nodes: Nodes, start: string, x: string, visited: set<string>, steps: nat)
    requires Walked(nodes, start, Some(x), visited, steps) && x in visited && NotBackBefore(nodes, start, steps)
    ensures OnParentCycle(nodes, x)
    ensures OnParentCycle(nodes, start) ==> x == start
  {
    hide NotBackBefore;
    assert MetBefore(nodes, start, x, steps);
    var i: nat :| i < steps && Ancestor(nodes, start, i) == Some(x);
    AncestorShift(nodes, start, i, steps - i);
    assert Returns(nodes, x, steps - i);
    if i > 0 && x != start {
      forall p: nat | p > 0 ensures !Returns(nodes, start, p) {
        NeverBack(nodes, start, i, steps, p);
      }
    }
  }

  lemma {:induction false} NotBackYet(nodes: Nodes, start: string, x: string, visited: set<string>, steps: nat)
    requires Walked(nodes, start, Some(x), visited, steps) && x !in visited && NotBackBefore(nodes, start, steps)
    ensures NotBackBefore(nodes, start, steps + 1)
  {
    hide Ancestor;
    assert Ancestor(nodes, start, 0) == Some(start) by { StartWalk(nodes, start); }
    assert steps > 0 ==> MetBefore(nodes, start, start, steps);
  }

  /** A walk that leaves the nodes did not start on a cycle. */
  lemma {:induction false} CycleIsEndless(nodes: Nodes, start: string)
    requires OnParentCycle(nodes, start)
    ensures Endless(nodes, start)
  {
    var k: nat :| k > 0 && Returns(nodes, start, k);
    StartWalk(nodes, start);
    forall m: nat ensures KnownAt(nodes, start, m) {
      RepeatIsEndless(nodes, start, 0, k, m);
    }
  }

  /** Pigeonhole: an unvisited known node leaves room below the bound. */
  lemma {:induction false} BoundNotReached(keys: set<string>, visited: set<string>, x: string)
    requires visited <= keys && x in keys && x !in visited
    ensures |visited| < |keys|
  {
    SubsetSize(visited + {x}, keys);
  }

  /** The walk of `_graph_unresolved_refs` from one node; it reports the node it meets again. */
  method WalkUp(nodes: Nodes, start: string) returns (found: Option<Ref>)
    ensures found.Some? <==> Endless(nodes, start)
    ensures found.Some? ==> CycleRef(nodes, found.value)
    ensures OnParentCycle(nodes, start) ==> found == Some(Ref(start, "other", start))
  {
    hide Endless, Walked, OnParentCycle, NotBackBefore;
    if OnParentCycle(nodes, start) { CycleIsEndless(nodes, start); }
    var visited: set<string> := {};
    var cursor := Some(start);
    var steps := 0;
    StartWalk(nodes, start);
    while cursor.Some? && cursor.value in nodes
      invariant NotBackBefore(nodes, start, steps)
      invariant Walked(nodes, start, cursor, visited, steps) && |visited| == steps && visited <= nodes.Keys
      decreases |nodes.Keys| + 1 - steps
    {
      if cursor.value in visited {
        RevisitIsEndless(nodes, start, cursor.value, visited, steps);
        RevisitOnCycle(nodes, start, cursor.value, visited, steps);
        return Some(Ref(cursor.value, "other", cursor.value));
      }
      BoundNotReached(nodes.Keys, visited, cursor.value);
      if steps >= |nodes.Keys| {
        assert false;
      }
      WalkOn(nodes, start, cursor.value, visited, steps);
      NotBackYet(nodes, start, cursor.value, visited, steps);
      visited := visited + {cursor.value};
      steps := steps + 1;
      cursor := nodes[cursor.value].parent;
    }
    WalkEnds(nodes, start, cursor, visited, steps);
    found := None;
  }

  lemma {:induction false} StartWalk(nodes: Nodes, start: string)
    ensures Ancestor(nodes, start, 0) == Some(start)
    ensures start in nodes ==> BranchTo(nodes, [start], start)
    ensures Walked(nodes, start, Some(start), {}, 0) && NotBackBefore(nodes, start, 0) && NotBackBefore(nodes, start, 1)
  {
  }

  lemma {:induction false} WalkEnds(nodes: Nodes, start: string, cursor: Option<string>, visited: set<string>,
                                    steps: nat)
    requires Walked(nodes, start, cursor, visited, steps) && (cursor.None? || cursor.value !in nodes)
    ensures !Endless(nodes, start)
  {
    assert !KnownAt(nodes, start, steps);
  }

  // ------------------------------------------------------------ unresolved references

  /** A parent that is unknown or does not list the node as a child. */
  ghost predicate ParentBreak(nodes: Nodes, r: Ref) {
    && r.source in nodes && nodes[r.source].parent == Some(r.target)
    && if r.target !in nodes then r.relation == "parent"
       else r.relation == "other" && r.source !in nodes[r.target].children
  }

  /** A child that is unknown or names another parent. */
  ghost predicate ChildBreak(nodes: Nodes, r: Ref) {
    && r.source in nodes && r.target in nodes[r.source].children
    && if r.target !in nodes then r.relation == "child"
       else r.relation == "other" && nodes[r.target].parent != Some(r.source)
  }

  ghost predicate LinkBreak(nodes: Nodes, r: Ref) {
    ParentBreak(nodes, r) || ChildBreak(nodes, r)
  }

  ghost predicate CycleRef(nodes: Nodes, r: Ref) {
    r.source == r.target && r.relation == "other" && OnParentCycle(nodes, r.source)
  }

  ghost predicate Broken(nodes: Nodes, r: Ref) {
    LinkBreak(nodes, r) || CycleRef(nodes, r)
  }

  ghost predicate SourcesKnown(nodes: Nodes, refs: seq<Ref>) {
    forall r :: r in refs ==> r.source in nodes
  }

  /** The link checks for one node. */
  method CheckLinks(nodes: Nodes, n: string) returns (refs: seq<Ref>)
    requires n in nodes
    ensures forall r :: r in refs <==> r.source == n && LinkBreak(nodes, r)
  {
    refs := [];
    var node := nodes[n];
    if node.parent.Some? {
      var parent := node.parent.value;
      if parent !in nodes {
        refs := refs + [Ref(n, "parent", parent)];
      } else if n !in nodes[parent].children {
        refs := refs + [Ref(n, "other", parent)];
      }
    }
    for i := 0 to |node.children|
      invariant forall r :: r in refs <==>
                r.source == n && (ParentBreak(nodes, r) || (r.target in node.children[..i] && ChildBreak(nodes, r)))
    {
      var child := node.children[i];
      assert node.children[..i + 1] == node.children[..i] + [child];
      if child !in nodes {
        refs := refs + [Ref(n, "child", child)];
      } else if nodes[child].parent != Some(n) {
        refs := refs + [Ref(n, "other", child)];
      }
    }
    assert node.children[..|node.children|] == node.children;
  }

  /** The first loop of `_graph_unresolved_refs`. */
  method LinkRefs(nodes: Nodes) returns (refs: seq<Ref>)
    ensures forall r :: r in refs <==> LinkBreak(nodes, r)
  {
    hide StrictlySorted, LinkBreak;
    refs := [];
    var ids := SortedSet(nodes.Keys);
    for i := 0 to |ids|
      invariant forall r :: r in refs <==> r.source in ids[..i] && LinkBreak(nodes, r)
    {
      assert ids[..i + 1] == ids[..i] + [ids[i]];
      assert ids[i] in nodes by { assert ids[i] in Elements(ids); }
      var found := CheckLinks(nodes, ids[i]);
      refs := refs + found;
    }
    assert ids[..|ids|] == ids;
    forall r | LinkBreak(nodes, r) ensures r.source in Elements(ids) { BreakKnown(nodes, r); }
  }

  /** The links agree exactly if none is broken. */
  lemma {:induction false} NoBreaksIff(nodes: Nodes)
    ensures LinksAgree(nodes) <==> forall r :: !LinkBreak(nodes, r)
  {
    if forall r :: !LinkBreak(nodes, r) {
      forall n | n in nodes ensures ParentAgrees(nodes, n) {
        if nodes[n].parent.Some? {
          assert !LinkBreak(nodes, Ref(n, "parent", nodes[n].parent.value));
          assert !LinkBreak(nodes, Ref(n, "other", nodes[n].parent.value));
        }
      }
      forall n, c | n in nodes && c in nodes[n].children ensures ChildAgrees(nodes, n, c) {
        assert !LinkBreak(nodes, Ref(n, "child", c));
        assert !LinkBreak(nodes, Ref(n, "other", c));
      }
    }
  }

  lemma {:induction false} BreakKnown(nodes: Nodes, r: Ref)
    ensures Broken(nodes, r) ==> r.source in nodes
    ensures CycleRef(nodes, r) ==> r == Ref(r.source, "other", r.source) && OnParentCycle(nodes, r.source)
  {
  }

  /** The second loop: one bounded walk per node. */
  method CycleRefs(nodes: Nodes) returns (refs: seq<Ref>)
    ensures refs == [] <==> forall n :: n in nodes ==> !Endless(nodes, n)
    ensures forall r :: r in refs <==> CycleRef(nodes, r)
  {
    hide Endless, StrictlySorted, OnParentCycle, CycleRef;
    refs := [];
    var ids := SortedSet(nodes.Keys);
    for i := 0 to |ids|
      invariant refs == [] <==> forall j :: 0 <= j < i ==> !Endless(nodes, ids[j])
      invariant forall r :: r in refs ==> CycleRef(nodes, r)
      invariant forall j :: 0 <= j < i && OnParentCycle(nodes, ids[j]) ==> Ref(ids[j], "other", ids[j]) in refs
    {
      var found := WalkUp(nodes, ids[i]);
      if found.Some? {
        refs := refs + [found.value];
      }
    }
    forall j | 0 <= j < |ids| ensures ids[j] in nodes { assert ids[j] in Elements(ids); }
    forall n | n in nodes ensures exists j :: 0 <= j < |ids| && ids[j] == n { assert n in Elements(ids); }
    forall r | CycleRef(nodes, r) ensures r in refs { BreakKnown(nodes, r); }
  }

  /** `_graph_unresolved_refs`: exactly the broken links and the nodes on parent cycles, so none
      exactly for a forest. */
  method GraphUnresolvedRefs(nodes: Nodes) returns (refs: seq<Ref>)
    ensures refs == [] <==> Forest(nodes)
    ensures forall r :: r in refs <==> Broken(nodes, r)
    ensures SourcesKnown(nodes, refs)
  {
    hide Endless, LinksAgree, LinkBreak, CycleRef;
    var links := LinkRefs(nodes);
    var cycles := CycleRefs(nodes);
    refs := links + cycles;
    assert refs == [] <==> links == [] && cycles == [];
    ForestIff(nodes);
    NoBreaksIff(nodes);
    assert links != [] ==> links[0] in links;
    forall r | Broken(nodes, r) ensures r.source in nodes { BreakKnown(nodes, r); }
  }

  lemma {:induction false} ForestIff(nodes: Nodes)
    ensures Forest(nodes) <==> LinksAgree(nodes) && forall n :: n in nodes ==> !Endless(nodes, n)
  {
    hide Endless, Rooted, LinksAgree;
    if LinksAgree(nodes) {
      forall n | n in nodes ensures Rooted(nodes, n) <==> !Endless(nodes, n) { RootedIff(nodes, n); }
    }
  }

  // ------------------------------------------------------------ the active branch

  /** A path of parent links that ends at the current node and starts at a root or below an unknown parent. */
  ghost predicate BranchTo(nodes: Nodes, branch: seq<string>, current: string) {
    && |branch| > 0 && branch[|branch| - 1] == current
    && (forall i :: 0 <= i < |branch| ==> branch[i] in nodes)
    && (forall i, j :: 0 <= i < j < |branch| && j == i + 1 ==> nodes[branch[j]].parent == Some(branch[i]))
    && NoDuplicates(branch)
  }

  ghost predicate StartsAtTop(nodes: Nodes, branch: seq<string>)
    requires |branch| > 0
  {
    branch[0] in nodes && (nodes[branch[0]].parent.None? || nodes[branch[0]].parent.value !in nodes)
  }

  /** The branch starts at a root. */
  ghost predicate RootedBranch(nodes: Nodes, branch: seq<string>, current: string) {
    BranchTo(nodes, branch, current) && branch[0] in nodes && nodes[branch[0]].parent.None?
  }

  lemma {:induction false} BranchGrows(nodes: Nodes, branch: seq<string>, current: string, x: string)
    requires BranchTo(nodes, branch, current) && x in nodes && nodes[branch[0]].parent == Some(x)
             && x !in Elements(branch)
    ensures BranchTo(nodes, [x] + branch, current) && Elements([x] + branch) == Elements(branch) + {x}
  {
    var b := [x] + branch;
    forall i, j | 0 <= i < j < |b| ensures b[i] != b[j] {
      assert b[j] == branch[j - 1] && b[j] in branch;
      if i > 0 { assert b[i] == branch[i - 1]; }
    }
  }

  /** The current node is named but not among the nodes; the reference hangs off the least node. */
  ghost predicate LostCurrent(nodes: Nodes, current: Option<string>, r: Ref) {
    current.Some? && current.value !in nodes && nodes.Keys != {} && r == Ref(Least(nodes.Keys), "other", current.value)
  }

  /** `_active_branch`; the list is built root first instead of being reversed at the end. */
  method ActiveBranch(nodes: Nodes, current: Option<string>) returns (branch: seq<string>, refs: seq<Ref>)
    ensures refs == [] <==>
            current.None? || nodes.Keys == {} || (current.value in nodes && !Endless(nodes, current.value))
    ensures SourcesKnown(nodes, refs)
    ensures current.Some? && current.value in nodes ==> BranchTo(nodes, branch, current.value)
    ensures current.Some? && current.value in nodes && refs == [] ==> StartsAtTop(nodes, branch)
    ensures current.None? || current.value !in nodes ==> branch == []
    ensures forall r :: r in refs ==> CycleRef(nodes, r) || LostCurrent(nodes, current, r)
    ensures forall r :: LostCurrent(nodes, current, r) ==> r in refs
  {
    hide Endless, Walked, StrictlySorted, OnParentCycle;
    branch, refs := [], [];
    if current.None? {
      return;
    }
    var start := current.value;
    if start !in nodes {
      if |nodes.Keys| > 0 {
        refs := [Ref(Least(nodes.Keys), "other", start)];
      }
      return;
    }
    branch, refs := ClimbBranch(nodes, start);
  }

  method ClimbBranch(nodes: Nodes, start: string) returns (branch: seq<string>, refs: seq<Ref>)
    requires start in nodes
    ensures refs == [] <==> !Endless(nodes, start)
    ensures SourcesKnown(nodes, refs)
    ensures BranchTo(nodes, branch, start)
    ensures refs == [] ==> StartsAtTop(nodes, branch)
    ensures forall r :: r in refs ==> CycleRef(nodes, r)
    ensures refs != [] ==>
            branch[0] in nodes && nodes[branch[0]].parent.Some? && nodes[branch[0]].parent.value in branch
  {
    hide Endless, Walked, BranchTo, OnParentCycle, NotBackBefore;
    StartWalk(nodes, start);
    WalkOn(nodes, start, start, {}, 0);
    branch, refs := [start], [];
    var visited: set<string> := {start};
    var steps := 1;
    var cursor := start;
    while true
      invariant cursor in nodes && Walked(nodes, start, nodes[cursor].parent, visited, steps)
                && NotBackBefore(nodes, start, steps)
      invariant visited <= nodes.Keys && |visited| == steps && Elements(branch) == visited
      invariant BranchTo(nodes, branch, start) && branch != [] && branch[0] == cursor && refs == []
      decreases |nodes.Keys| + 1 - steps
    {
      var parent := nodes[cursor].parent;
      if parent.None? || parent.value !in nodes {
        WalkEnds(nodes, start, parent, visited, steps);
        return;
      }
      if parent.value in visited {
        RevisitIsEndless(nodes, start, parent.value, visited, steps);
        RevisitOnCycle(nodes, start, parent.value, visited, steps);
        assert parent.value in Elements(branch);
        refs := [Ref(parent.value, "other", parent.value)];
        return;
      }
      BoundNotReached(nodes.Keys, visited, parent.value);
      if steps >= |nodes.Keys| {
        assert false;
      }
      WalkOn(nodes, start, parent.value, visited, steps);
      NotBackYet(nodes, start, parent.value, visited, steps);
      BranchGrows(nodes, branch, start, parent.value);
      visited := visited + {parent.value};
      steps := steps + 1;
      branch := [parent.value] + branch;
      cursor := parent.value;
    }
  }

  // ------------------------------------------------------------ receipts

  datatype Continuation = Continuation(state: string, reason: string, outcomes: seq<string>)

  /** `_continuation_is_terminal_success`. */
  predicate TerminalSuccess(c: Continuation) {
    if c.state == "not_present" then c.reason == "source_terminal" && c.outcomes == []
    else if c.state == "resolved" then c.reason == "continuation_exhausted" && c.outcomes != []
            && forall o :: o in c.outcomes ==> o == "success"
    else false
  }

  datatype Receipt = Receipt(
    complete: bool,
    discoveredCount: nat, accountedCount: nat, messageCount: nat,
    discovered: seq<string>, accounted: seq<string>, messages: seq<string>, roots: seq<string>,
    current: Option<string>, active: seq<string>, nonActive: seq<string>,
    unresolved: seq<Ref>,
    continuation: Continuation)

  /** The cross-field checks of `validate_shared_chat_capture_receipt`. */
  predicate PassesCrossChecks(r: Receipt) {
    var discovered, accounted, messages := Elements(r.discovered), Elements(r.accounted), Elements(r.messages);
    var roots, active, nonActive := Elements(r.roots), Elements(r.active), Elements(r.nonActive);
    && r.discoveredCount == |discovered| && r.accountedCount == |accounted| && r.messageCount == |messages|
    && accounted <= discovered && messages <= discovered && roots <= discovered && active <= discovered
      && nonActive <= discovered
    && active * nonActive == {} && active + nonActive == discovered
    && (r.current.Some? ==> r.current.value in discovered)
    && (forall u :: u in r.unresolved ==> u.source in discovered)
    && (r.complete ==>
          && discovered != {} && messages != {} && roots != {} && accounted == discovered
          && r.unresolved == [] && TerminalSuccess(r.continuation))
  }

  predicate RefLe(a: Ref, b: Ref) {
    if a.source != b.source then StringLe(a.source, b.source)
    else if a.relation != b.relation then StringLe(a.relation, b.relation)
    else StringLe(a.target, b.target)
  }

  function Roots(nodes: Nodes): set<string> {
    set n | n in nodes && nodes[n].parent.None?
  }

  function Messages(nodes: Nodes): set<string> {
    set n | n in nodes && nodes[n].hasMessage
  }

  /** The graph and its current node leave no reference open. */
  ghost predicate Whole(nodes: Nodes, current: Option<string>) {
    Forest(nodes) && (current.None? || nodes.Keys == {} || current.value in nodes)
  }

  /** When a capture is complete, in terms of the graph. */
  ghost predicate CompleteCapture(nodes: Nodes, current: Option<string>, c: Continuation) {
    && Forest(nodes) && Messages(nodes) != {} && Roots(nodes) != {}
    && (current.Some? ==> current.value in nodes)
    && TerminalSuccess(c)
  }

  /** The part of a built receipt that the graph walks determine. */
  ghost predicate Derived(nodes: Nodes, r: Receipt) {
    && Elements(r.discovered) == nodes.Keys && r.accounted == r.discovered
      && r.discoveredCount == r.accountedCount == |nodes.Keys|
    && Elements(r.messages) == Messages(nodes) && r.messageCount == |Messages(nodes)|
    && Elements(r.roots) == Roots(nodes)
    && Elements(r.active) <= nodes.Keys && Elements(r.nonActive) == nodes.Keys - Elements(r.active)
    && (r.current.Some? ==> r.current.value in nodes)
    && SourcesKnown(nodes, r.unresolved)
    && (r.complete <==>
        nodes.Keys != {} && Messages(nodes) != {} && Roots(nodes) != {} && r.unresolved == []
        && TerminalSuccess(r.continuation))
  }

  /** The lists of a receipt, in name order. */
  ghost predicate Listed(nodes: Nodes, current: Option<string>, r: Receipt) {
    && r.discovered == SortedSet(nodes.Keys) && r.messages == SortedSet(Messages(nodes))
      && r.roots == SortedSet(Roots(nodes))
    && r.nonActive == SortedSet(nodes.Keys - Elements(r.active))
    && r.current == if current.Some? && current.value in nodes then current else None
  }

  lemma {:induction false} DerivedPasses(nodes: Nodes, r: Receipt)
    requires Derived(nodes, r)
    ensures PassesCrossChecks(r)
  {
    hide TerminalSuccess;
  }

  lemma {:induction false} DerivedComplete(nodes: Nodes, r: Receipt)
    requires Derived(nodes, r)
    ensures r.complete <==>
            nodes.Keys != {} && Messages(nodes) != {} && Roots(nodes) != {} && r.unresolved == []
            && TerminalSuccess(r.continuation)
  {
  }

  lemma {:induction false} RefOrder()
    ensures Preorder(RefLe)
  {
    hide StringLe;
    StringOrder();
  }

  lemma {:induction false} SortedRefs(nodes: Nodes, refs: seq<Ref>)
    requires SourcesKnown(nodes, refs)
    ensures SourcesKnown(nodes, Sort(RefLe, refs)) && |Sort(RefLe, refs)| == |refs|
    ensures Sorted(RefLe, Sort(RefLe, refs)) && forall r :: r in Sort(RefLe, refs) <==> r in refs
  {
    hide RefLe;
    RefOrder();
    SortSorts(RefLe, refs);
    SortMembers(RefLe, refs);
    SortPermutes(RefLe, refs);
  }

  /** Lists in order, counted, hold what the graph holds. */
  lemma {:induction false} ListedIsDerived(nodes: Nodes, current: Option<string>, r: Receipt)
    requires Listed(nodes, current, r) && SourcesKnown(nodes, r.unresolved) && Elements(r.active) <= nodes.Keys
    requires r.accounted == r.discovered && r.discoveredCount == r.accountedCount == |r.discovered|
             && r.messageCount == |r.messages|
    requires r.complete <==>
             |r.discovered| > 0 && |r.messages| > 0 && |r.roots| > 0 && |r.unresolved| == 0
             && TerminalSuccess(r.continuation)
    ensures Derived(nodes, r)
  {
    hide StrictlySorted, TerminalSuccess, Roots, Messages, SourcesKnown;
  }

  /** Assemble the receipt from the walks' results. */
  method Assemble(nodes: Nodes, current: Option<string>, active: seq<string>, refs: seq<Ref>, c: Continuation)
    returns (r: Receipt)
    requires Elements(active) <= nodes.Keys && SourcesKnown(nodes, refs)
    ensures Derived(nodes, r) && Listed(nodes, current, r) && r.active == active && r.continuation == c
    ensures r.unresolved == [] <==> refs == []
    ensures Sorted(RefLe, r.unresolved) && forall u :: u in r.unresolved <==> u in refs
  {
    hide StrictlySorted, Sort, TerminalSuccess, SourcesKnown, Roots, Messages, RefLe, Sorted, Derived, Elements;
    var unresolved := Sort(RefLe, refs);
    SortedRefs(nodes, refs);
    var discovered := SortedSet(nodes.Keys);
    var messages, roots := SortedSet(Messages(nodes)), SortedSet(Roots(nodes));
    var nonActive := SortedSet(nodes.Keys - Elements(active));
    var recorded := if current.Some? && current.value in nodes then current else None;
    var complete := |discovered| > 0 && |messages| > 0 && |roots| > 0 && |unresolved| == 0 && TerminalSuccess(c);
    r := Receipt(complete, |discovered|, |discovered|, |messages|, discovered, discovered, messages, roots,
                 recorded, active, nonActive, unresolved, c);
    ListedIsDerived(nodes, current, r);
  }

  /** `build_shared_chat_capture_receipt`: the receipt it derives always passes the validator's cross checks. */
  method BuildReceipt(nodes: Nodes, current: Option<string>, c: Continuation) returns (r: Receipt)
    ensures PassesCrossChecks(r)
    ensures r.complete <==> CompleteCapture(nodes, current, c)
    ensures Listed(nodes, current, r) && r.continuation == c
    ensures Sorted(RefLe, r.unresolved)
    ensures forall u :: u in r.unresolved <==> Broken(nodes, u) || LostCurrent(nodes, current, u)
    ensures if r.current.Some? then BranchTo(nodes, r.active, r.current.value) else r.active == []
    ensures r.unresolved == [] <==> Whole(nodes, current)
    ensures r.complete && current.Some? ==> RootedBranch(nodes, r.active, current.value)
  {
    hide Forest, StartsAtTop, Endless, PassesCrossChecks, TerminalSuccess, NoDuplicates, LostCurrent, LinkBreak,
         CycleRef, Sorted, RefLe, StrictlySorted, Derived;
    var refs := GraphUnresolvedRefs(nodes);
    var active, activeRefs := ActiveBranch(nodes, current);
    r := Assemble(nodes, current, active, refs + activeRefs, c);
    DerivedPasses(nodes, r);
    DerivedComplete(nodes, r);
    CompleteIff(nodes, current, refs, activeRefs);
    assert refs + activeRefs == [] <==> refs == [] && activeRefs == [];
    if r.complete && current.Some? { CompleteBranch(nodes, active); }
  }

  lemma {:induction false} CompleteIff(nodes: Nodes, current: Option<string>, refs: seq<Ref>, activeRefs: seq<Ref>)
    requires refs == [] <==> Forest(nodes)
    requires activeRefs == [] <==>
             current.None? || nodes.Keys == {} || (current.value in nodes && !Endless(nodes, current.value))
    ensures nodes.Keys != {} && refs == [] && activeRefs == [] <==>
              nodes.Keys != {} && Forest(nodes) && (current.Some? ==> current.value in nodes)
  {
    hide Endless, Rooted, LinksAgree;
    if Forest(nodes) && current.Some? && current.value in nodes {
      RootedIff(nodes, current.value);
    }
  }

  lemma {:induction false} CompleteBranch(nodes: Nodes, active: seq<string>)
    requires Forest(nodes) && |active| > 0 && StartsAtTop(nodes, active)
    ensures active[0] in nodes && nodes[active[0]].parent.None?
  {
    hide Rooted, ChildAgrees;
    assert ParentAgrees(nodes, active[0]);
  }

  // ------------------------------------------------------------ the receipt's rules, one by one

  /** A continuation ends in success in two ways: there was none and the source said so, or it was followed to its end
      with nothing but successes. */
  lemma {:induction false} TerminalSuccessIff(c: Continuation)
    ensures TerminalSuccess(c) <==>
              || (c.state == "not_present" && c.reason == "source_terminal" && |c.outcomes| == 0)
              || (c.state == "resolved" && c.reason == "continuation_exhausted" && |c.outcomes| > 0
                  && forall i :: 0 <= i < |c.outcomes| ==> c.outcomes[i] == "success")
  {
    if forall i :: 0 <= i < |c.outcomes| ==> c.outcomes[i] == "success" {
      forall o | o in c.outcomes ensures o == "success" {
        var i :| 0 <= i < |c.outcomes| && c.outcomes[i] == o;
      }
    }
    assert forall i :: 0 <= i < |c.outcomes| ==> c.outcomes[i] in c.outcomes;
  }

  /** The cross-field checks, name by name. */
  lemma {:induction false} CrossChecksIff(r: Receipt)
    ensures PassesCrossChecks(r) <==>
              && r.discoveredCount == |Elements(r.discovered)| && r.accountedCount == |Elements(r.accounted)|
              && r.messageCount == |Elements(r.messages)|
              && (forall x :: x in r.accounted || x in r.messages || x in r.roots ==> x in r.discovered)
              && (forall x :: x in r.discovered <==> x in r.active || x in r.nonActive)
              && (forall x :: !(x in r.active && x in r.nonActive))
              && (r.current.Some? ==> r.current.value in r.discovered)
              && (forall u :: u in r.unresolved ==> u.source in r.discovered)
              && (r.complete ==>
                    && r.discovered != [] && r.messages != [] && r.roots != [] && r.unresolved == []
                    && (forall x :: x in r.discovered ==> x in r.accounted)
                    && TerminalSuccess(r.continuation))
  {
    hide TerminalSuccess, Elements;
    Memberships(r.accounted, r.discovered);
    Memberships(r.messages, r.discovered);
    Memberships(r.roots, r.discovered);
    Memberships(r.active, r.discovered);
    Memberships(r.nonActive, r.discovered);
    Memberships(r.discovered, r.accounted);
    Halves(Elements(r.active), Elements(r.nonActive), Elements(r.discovered));
  }

  lemma {:induction false} Memberships(s: seq<string>, t: seq<string>)
    ensures (Elements(s) <= Elements(t) <==> forall x :: x in s ==> x in t) && (Elements(s) == {} <==> s == [])
    ensures forall x :: x in Elements(s) <==> x in s
  {
    if s != [] { assert s[0] in Elements(s); }
    assert forall x :: x in s <==> x in Elements(s);
  }

  lemma {:induction false} Halves(a: set<string>, b: set<string>, c: set<string>)
    ensures a * b == {} <==> forall x :: !(x in a && x in b)
    ensures a + b == c <==> forall x :: x in c <==> x in a || x in b
  {
    if forall x :: !(x in a && x in b) { assert a * b == {}; }
    if a * b == {} { assert forall x :: x in a && x in b ==> x in a * b; }
  }

  lemma {:induction false} RootsAndMessages(nodes: Nodes, n: string)
    ensures n in Roots(nodes) <==> n in nodes && nodes[n].parent == None
    ensures n in Messages(nodes) <==> n in nodes && nodes[n].hasMessage
  {
  }

  /** Unresolved references are ordered by source, then by relation, then by target. */
  lemma {:induction false} RefLeIs(a: Ref, b: Ref)
    ensures RefLe(a, b) <==> TupleLe([a.source, a.relation, a.target], [b.source, b.relation, b.target])
  {
    hide StringLe;
    var x, y := [a.source, a.relation, a.target], [b.source, b.relation, b.target];
    StringOrder();
    assert x[1..] == [a.relation, a.target] && y[1..] == [b.relation, b.target];
    assert x[1..][1..] == [a.target] && y[1..][1..] == [b.target];
    assert x[1..][1..][1..] == [] && y[1..][1..][1..] == [];
    assert TupleLe([a.target], [b.target]) <==> StringLe(a.target, b.target);
    assert TupleLe(x[1..], y[1..]) <==>
           if a.relation != b.relation then StringLe(a.relation, b.relation) else TupleLe([a.target], [b.target]);
  }
}
