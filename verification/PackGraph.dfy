/** Mounted pack dependencies: resolution, layering and acyclicity.

    Models `validate_pack_dependency_graph`. Its three-colour depth-first search keeps
    a state dictionary and a stack and raises on the first back edge. */
module PackGraph {
  import opened Basics
  import opened Ordering
  import opened Graphs

  datatype Dependency = Dependency(packId: string, required: bool)

  /** `rest` stands for every other manifest field. */
  datatype Manifest = Manifest(packId: string, kind: string, dependencies: seq<Dependency>, rest: string)

  type Catalog = map<string, Manifest>

  datatype PackError =
    | IdentityMismatch(packId: string)
    | DuplicateDependency(packId: string, target: string)
    | RequiredUnavailable(packId: string, target: string)
    | LayerViolation(packId: string, target: string)
    | DependencyCycle(cycle: seq<string>)
    | LockRejected(reason: string)

  datatype Outcome = Pass | Fail(error: PackError)

  // ------------------------------------------------------------ the laws

  const STANDARD_KINDS := {"common", "domain", "project"}

  /** Between standard kinds, a pack of kind `source` may depend on one of kind `target` only upstream. */
  predicate Upstream(source: string, target: string) {
    (source == "domain" && target == "common") || (source == "project" && (target == "common" || target == "domain"))
  }

  /** Packs of other kinds are free. */
  predicate LayerLaw(source: string, target: string) {
    source in STANDARD_KINDS && target in STANDARD_KINDS ==> Upstream(source, target)
  }

  ghost predicate DistinctTargets(m: Manifest) {
    forall i, j :: 0 <= i < j < |m.dependencies| ==> m.dependencies[i].packId != m.dependencies[j].packId
  }

  ghost predicate DependencyAllowed(ms: Catalog, packId: string, d: Dependency)
    requires packId in ms
  {
    if d.packId in ms then LayerLaw(ms[packId].kind, ms[d.packId].kind) else !d.required
  }

  ghost predicate PackAllowed(ms: Catalog, packId: string)
    requires packId in ms
  {
    && ms[packId].packId == packId
    && DistinctTargets(ms[packId])
    && forall d :: d in ms[packId].dependencies ==> DependencyAllowed(ms, packId, d)
  }

  function Targets(m: Manifest): set<string> {
    set d | d in m.dependencies :: d.packId
  }

  /** The graph of mounted dependencies, optional or required. */
  function Resolved(ms: Catalog): Graph {
    map p | p in ms :: Targets(ms[p]) * ms.Keys
  }

  /** An edge of that graph is a declared dependency of a mounted pack on a mounted pack. */
  lemma {:induction false} ResolvedIff(ms: Catalog, p: string, t: string)
    ensures p in Resolved(ms) <==> p in ms
    ensures p in ms ==>
              (t in Resolved(ms)[p] <==> t in ms && exists d :: d in ms[p].dependencies && d.packId == t)
  {
  }

  ghost predicate DependencyLaw(ms: Catalog) {
    && (forall p :: p in ms ==> PackAllowed(ms, p))
    && Acyclic(Resolved(ms))
  }

  /** In a lawful catalog every resolved edge between standard kinds points strictly upstream, every pack is filed
      under its own name, and every required target is mounted. */
  lemma {:induction false} LawfulEdges(ms: Catalog, p: string, t: string)
    requires DependencyLaw(ms) && p in ms
    ensures ms[p].packId == p && (Dependency(t, true) in ms[p].dependencies ==> t in ms)
    ensures t in Resolved(ms)[p] && ms[p].kind in {"common", "domain", "project"}
              && ms[t].kind in {"common", "domain", "project"} ==>
            (ms[p].kind == "domain" && ms[t].kind == "common")
            || (ms[p].kind == "project" && (ms[t].kind == "common" || ms[t].kind == "domain"))
  {
    hide Acyclic;
    assert PackAllowed(ms, p);
    if t in Resolved(ms)[p] {
      var d :| d in ms[p].dependencies && d.packId == t;
      assert DependencyAllowed(ms, p, d);
    }
    if Dependency(t, true) in ms[p].dependencies {
      assert DependencyAllowed(ms, p, Dependency(t, true));
    }
  }

  /** A cycle as the error message prints it: a walk back to its own start. */
  ghost predicate IsCycle(g: Graph, c: seq<string>) {
    |c| >= 2 && Walk(g, c, c[0], c[0])
  }

  /** A raised error names something that really breaks a law. */
  ghost predicate Explains(ms: Catalog, e: PackError) {
    match e
    case IdentityMismatch(p) => p in ms && ms[p].packId != p
    case DuplicateDependency(p, t) =>
      p in ms && exists i, j ::
        0 <= i < j < |ms[p].dependencies| && ms[p].dependencies[i].packId == t && ms[p].dependencies[j].packId == t
    case RequiredUnavailable(p, t) => p in ms && t !in ms && Dependency(t, true) in ms[p].dependencies
    case LayerViolation(p, t) => p in ms && t in ms && t in Targets(ms[p]) && !LayerLaw(ms[p].kind, ms[t].kind)
    case DependencyCycle(c) => IsCycle(Resolved(ms), c)
    case LockRejected(_) => false
  }

  lemma {:induction false} ExplainedBreaksLaw(ms: Catalog, e: PackError)
    requires Explains(ms, e)
    ensures !DependencyLaw(ms)
  {
    match e
    case IdentityMismatch(p) => assert !PackAllowed(ms, p);
    case DuplicateDependency(p, t) => assert !PackAllowed(ms, p);
    case RequiredUnavailable(p, t) => assert !DependencyAllowed(ms, p, Dependency(t, true)); assert !PackAllowed(ms, p);
    case LayerViolation(p, t) =>
      var d :| d in ms[p].dependencies && d.packId == t;
      assert !DependencyAllowed(ms, p, d);
      assert !PackAllowed(ms, p);
    case DependencyCycle(c) =>
      CycleMeansOnCycle(ms, c);
  }

  lemma {:induction false} CycleMeansOnCycle(ms: Catalog, c: seq<string>)
    requires IsCycle(Resolved(ms), c)
    ensures c[0] in Resolved(ms) && OnCycle(Resolved(ms), c[0])
    ensures Explains(ms, DependencyCycle(c))
  {
    var g := Resolved(ms);
    assert c[0] in g && c[1] in g[c[0]];
    assert Walk(g, c[1..], c[1], c[0]);
    assert Reach(g, c[1], c[0]);
  }

  // ------------------------------------------------------------ the three-colour search

  function Black(state: map<string, int>): set<string> {
    set n | n in state && state[n] == 2
  }

  ghost predicate Coloured(g: Graph, state: map<string, int>, stack: seq<string>) {
    && Closed(g) && state.Keys <= g.Keys
    && (forall n :: n in state ==> state[n] == 1 || state[n] == 2)
    && NoDuplicates(stack)
    && (forall n :: n in stack <==> n in state && state[n] == 1)
  }

  /** Finished nodes lead only to finished nodes and lie on no cycle. */
  ghost predicate Finished(g: Graph, black: set<string>) {
    SuccessorClosed(g, black) && forall n :: n in black ==> !OnCycle(g, n)
  }

  ghost predicate StackWalk(g: Graph, stack: seq<string>) {
    && (forall i :: 0 <= i < |stack| ==> stack[i] in g)
    && (forall i, j :: 0 <= i < j < |stack| && j == i + 1 ==> stack[j] in g[stack[i]])
  }

  lemma {:induction false} BlackenKeepsFinished(g: Graph, black: set<string>, p: string)
    requires Finished(g, black) && p in g && p !in black && g[p] <= black
    ensures Finished(g, black + {p})
  {
    hide Reach;
    if OnCycle(g, p) {
      var b :| b in g[p] && Reach(g, b, p);
      ReachStaysInside(g, black, b, p);
      assert false;
    }
  }

  lemma {:induction false} BackEdgeIsCycle(g: Graph, stack: seq<string>, p: string, i: nat)
    requires StackWalk(g, stack) && i < |stack| && stack[i] == p
    requires p in g[stack[|stack| - 1]]
    ensures IsCycle(g, stack[i..] + [p])
  {
    var c := stack[i..] + [p];
    forall a, b | 0 <= a < b < |c| && b == a + 1 ensures c[b] in g[c[a]] {
      assert c[a] == stack[i + a];
      if b < |c| - 1 { assert c[b] == stack[i + b]; }
    }
    forall a | 0 <= a < |c| ensures c[a] in g {
      if a < |c| - 1 { assert c[a] == stack[i + a]; }
    }
  }

  lemma {:induction false} PushColoured(g: Graph, state: map<string, int>, stack: seq<string>, p: string)
    requires Coloured(g, state, stack) && p in g && p !in state
    ensures Coloured(g, state[p := 1], stack + [p]) && Black(state[p := 1]) == Black(state)
  {
    assert forall n :: n in stack + [p] <==> n in stack || n == p;
  }

  lemma {:induction false} PopColoured(g: Graph, state: map<string, int>, stack: seq<string>, p: string)
    requires Coloured(g, state, stack + [p])
    ensures Coloured(g, state[p := 2], stack) && Black(state[p := 2]) == Black(state) + {p} && p !in Black(state)
  {
    assert forall n :: n in stack + [p] <==> n in stack || n == p;
    assert (stack + [p])[|stack|] == p;
    forall n | n in stack ensures n != p {
      var i :| 0 <= i < |stack| && stack[i] == n;
      assert (stack + [p])[i] == n;
    }
    forall i, j | 0 <= i < j < |stack| ensures stack[i] != stack[j] {
      assert (stack + [p])[i] == stack[i] && (stack + [p])[j] == stack[j];
    }
  }

  class CycleSearch {
    const graph: Graph
    const adjacency: map<string, seq<string>>
    var state: map<string, int>
    var stack: seq<string>

    constructor (graph: Graph, adjacency: map<string, seq<string>>)
      ensures this.graph == graph && this.adjacency == adjacency && state == map[] && stack == []
    {
      this.graph, this.adjacency := graph, adjacency;
      state, stack := map[], [];
    }

    /** The adjacency lists hold exactly the edges of the graph. */
    ghost predicate Faithful() {
      adjacency.Keys == graph.Keys && forall p :: p in graph ==> Elements(adjacency[p]) == graph[p]
    }

    ghost predicate Valid()
      reads this
    {
      Faithful() && Coloured(graph, state, stack) && Finished(graph, Black(state)) && StackWalk(graph, stack)
    }

    /** `stack.index(x)`; the grey nodes are the stack, so the search cannot come up empty. */
    method IndexOf(x: string) returns (i: nat)
      requires x in stack
      ensures i < |stack| && stack[i] == x
    {
      i := 0;
      while stack[i] != x
        invariant i < |stack| && x !in stack[..i]
        decreases |stack| - i
      {
        assert stack[..i + 1] == stack[..i] + [stack[i]];
        assert stack[..|stack|] == stack;
        i := i + 1;
      }
    }

    /** `visit(pack_id)`: a found cycle stands for the raised error. */
    method Visit(p: string) returns (found: Option<seq<string>>)
      requires Valid() && p in graph
      requires |stack| > 0 ==> p in graph[stack[|stack| - 1]]
      modifies this
      ensures found.Some? ==> IsCycle(graph, found.value)
      ensures found.None? ==> Valid() && stack == old(stack) && Black(old(state)) + {p} <= Black(state)
      ensures found.None? ==> old(state.Keys) <= state.Keys
      decreases graph.Keys - state.Keys
    {
      hide Finished, IsCycle;
      if p in state && state[p] == 2 {
        return None;
      }
      if p in state {
        var i := IndexOf(p);
        BackEdgeIsCycle(graph, stack, p, i);
        return Some(stack[i..] + [p]);
      }
      PushColoured(graph, state, stack, p);
      state := state[p := 1];
      stack := stack + [p];
      var targets := adjacency[p];
      for k := 0 to |targets|
        invariant Valid() && stack == old(stack) + [p]
        invariant Black(old(state)) <= Black(state)
        invariant forall j :: 0 <= j < k ==> targets[j] in Black(state)
        invariant old(state.Keys) + {p} <= state.Keys
      {
        assert targets[k] in graph[p] by { assert targets[k] in Elements(targets); }
        found := Visit(targets[k]);
        if found.Some? {
          return;
        }
      }
      forall t | t in graph[p] ensures t in Black(state) { assert t in Elements(targets); }
      PopColoured(graph, state, old(stack), p);
      BlackenKeepsFinished(graph, Black(state), p);
      stack := stack[..|stack| - 1];
      assert stack == old(stack);
      state := state[p := 2];
      found := None;
    }

    /** The driver over `sorted(adjacency)`. */
    method SearchAll() returns (found: Option<seq<string>>)
      requires Faithful() && Closed(graph) && state == map[] && stack == []
      modifies this
      ensures found.Some? ==> IsCycle(graph, found.value)
      ensures found.None? ==> Acyclic(graph)
    {
      hide Acyclic, IsCycle, StrictlySorted, Coloured, Finished, StackWalk, Black;
      var nodes := SortedSet(adjacency.Keys);
      SearchStarts(graph);
      for i := 0 to |nodes|
        invariant Valid() && stack == []
        invariant Elements(nodes[..i]) <= Black(state)
      {
        var p := nodes[i];
        assert p in graph by { assert p in Elements(nodes); }
        found := Visit(p);
        if found.Some? {
          return;
        }
        assert Elements(nodes[..i + 1]) == Elements(nodes[..i]) + {p} by { assert nodes[..i + 1] == nodes[..i] + [p]; }
      }
      assert nodes[..|nodes|] == nodes;
      AllFinished(graph, Black(state));
      found := None;
    }
  }

  lemma {:induction false} AllFinished(g: Graph, black: set<string>)
    ensures Finished(g, black) && g.Keys <= black ==> Acyclic(g)
  {
  }

  lemma {:induction false} SearchStarts(g: Graph)
    ensures Closed(g) ==> Coloured(g, map[], []) && Finished(g, Black(map[])) && StackWalk(g, [])
  {
  }

  // ------------------------------------------------------------ the whole validation

  predicate RequiredFlag(deps: seq<Dependency>, t: string)
    requires exists d :: d in deps && d.packId == t
  {
    if deps[0].packId == t then deps[0].required
    else
      assert exists d :: d in deps[1..] && d.packId == t by {
        var d :| d in deps && d.packId == t;
        assert deps == [deps[0]] + deps[1..];
      }
      RequiredFlag(deps[1..], t)
  }

  /** With distinct targets the flag found is the flag of the one dependency on that target. */
  lemma {:induction false} FlagIsTheFlag(deps: seq<Dependency>, d: Dependency)
    requires d in deps
    requires forall i, j :: 0 <= i < j < |deps| ==> deps[i].packId != deps[j].packId
    ensures RequiredFlag(deps, d.packId) == d.required
  {
    if deps[0] != d {
      assert deps == [deps[0]] + deps[1..];
      assert d in deps[1..];
      var k :| 0 <= k < |deps[1..]| && deps[1..][k] == d;
      assert deps[k + 1] == d && deps[0].packId != deps[k + 1].packId;
      FlagIsTheFlag(deps[1..], d);
    }
  }

  /** `_dependencies_by_target`: the loop that fills the dictionary and raises on a repeated key. */
  method DependenciesByTarget(m: Manifest) returns (duplicate: Option<string>, byTarget: map<string, Dependency>)
    ensures duplicate.None? <==> DistinctTargets(m)
    ensures duplicate.Some? ==>
      exists i, j :: 0 <= i < j < |m.dependencies|
        && m.dependencies[i].packId == duplicate.value == m.dependencies[j].packId
    ensures duplicate.None? ==> byTarget.Keys == Targets(m)
    ensures duplicate.None? ==> forall t :: t in byTarget ==> byTarget[t] in m.dependencies && byTarget[t].packId == t
  {
    byTarget := map[];
    ghost var at: map<string, nat> := map[];
    for k := 0 to |m.dependencies|
      invariant at.Keys == byTarget.Keys
      invariant forall t :: t in at ==> at[t] < k && byTarget[t] == m.dependencies[at[t]] && byTarget[t].packId == t
      invariant forall i :: 0 <= i < k ==> m.dependencies[i].packId in at && at[m.dependencies[i].packId] == i
    {
      var d := m.dependencies[k];
      if d.packId in byTarget {
        assert m.dependencies[at[d.packId]].packId == m.dependencies[k].packId;
        return Some(d.packId), byTarget;
      }
      byTarget := byTarget[d.packId := d];
      at := at[d.packId := k];
    }
    duplicate := None;
  }

  /** `_STANDARD_LAYER_RANK`. */
  function LayerRank(kind: string): Option<nat> {
    if kind == "common" then Some(0)
    else if kind == "domain" then Some(1)
    else if kind == "project" then Some(2)
    else None
  }

  predicate LayersAllow(source: string, target: string) {
    var s, t := LayerRank(source), LayerRank(target);
    s.Some? && t.Some? ==> t.value < s.value
  }

  /** Comparing ranks is the layer law. */
  lemma {:induction false} RanksAreTheLaw(source: string, target: string)
    ensures LayersAllow(source, target) <==> LayerLaw(source, target)
  {
  }

  /** One dependency on `t` in the loop of the validation. */
  function CheckTarget(ms: Catalog, packId: string, t: string, required: bool): Outcome
    requires packId in ms
  {
    if t !in ms then
      if required then Fail(RequiredUnavailable(packId, t)) else Pass
    else if LayersAllow(ms[packId].kind, ms[t].kind) then Pass
    else Fail(LayerViolation(packId, t))
  }

  lemma {:induction false} CheckTargetSound(ms: Catalog, packId: string, d: Dependency)
    requires packId in ms && d in ms[packId].dependencies
    ensures var r := CheckTarget(ms, packId, d.packId, d.required);
            (r.Pass? <==> DependencyAllowed(ms, packId, d)) && (r.Fail? ==> Explains(ms, r.error))
  {
    assert d == Dependency(d.packId, d.required);
    if d.packId in ms { RanksAreTheLaw(ms[packId].kind, ms[d.packId].kind); }
  }

  /** By kind name: which mounted targets pass, and which unmounted ones. */
  lemma {:induction false} CheckTargetIff(ms: Catalog, packId: string, t: string, required: bool)
    requires packId in ms
    ensures t !in ms ==> (CheckTarget(ms, packId, t, required).Pass? <==> !required)
    ensures t in ms ==>
              (CheckTarget(ms, packId, t, required).Pass? <==>
                 || ms[packId].kind !in {"common", "domain", "project"}
                 || ms[t].kind !in {"common", "domain", "project"}
                 || (ms[packId].kind == "domain" && ms[t].kind == "common")
                 || (ms[packId].kind == "project" && ms[t].kind in {"common", "domain"}))
  {
  }

  /** The checks for one manifest: identity, duplicates, availability, layers. */
  method CheckPack(ms: Catalog, packId: string) returns (r: Outcome, resolved: seq<string>)
    requires packId in ms
    ensures r.Pass? ==> PackResolved(ms, packId, resolved)
    ensures r.Fail? ==> Explains(ms, r.error)
  {
    resolved := [];
    var m := ms[packId];
    if m.packId != packId {
      return Fail(IdentityMismatch(packId)), resolved;
    }
    var duplicate, byTarget := DependenciesByTarget(m);
    if duplicate.Some? {
      return Fail(DuplicateDependency(packId, duplicate.value)), resolved;
    }
    r, resolved := CheckTargets(ms, packId, byTarget);
  }

  method CheckTargets(ms: Catalog, packId: string, byTarget: map<string, Dependency>)
    returns (r: Outcome, resolved: seq<string>)
    requires packId in ms && ms[packId].packId == packId && DistinctTargets(ms[packId])
    requires byTarget.Keys == Targets(ms[packId])
    requires forall t :: t in byTarget ==> byTarget[t] in ms[packId].dependencies && byTarget[t].packId == t
    ensures r.Pass? ==> PackAllowed(ms, packId) && Elements(resolved) == Resolved(ms)[packId]
    ensures r.Fail? ==> Explains(ms, r.error)
  {
    hide StrictlySorted, Explains, DependencyAllowed, PackAllowed, DistinctTargets, LayersAllow, LayerLaw, Resolved;
    resolved := [];
    var targets := SortedSet(byTarget.Keys);
    for k := 0 to |targets|
      invariant forall t :: t in byTarget && t in targets[..k] ==> DependencyAllowed(ms, packId, byTarget[t])
      invariant forall t :: t in resolved <==> t in targets[..k] && t in ms
    {
      var t := targets[k];
      assert targets[..k + 1] == targets[..k] + [t];
      assert t in byTarget by { assert t in Elements(targets); }
      CheckTargetSound(ms, packId, byTarget[t]);
      r := CheckTarget(ms, packId, t, byTarget[t].required);
      if r.Fail? {
        return;
      }
      if t in ms {
        resolved := resolved + [t];
      }
    }
    assert targets[..|targets|] == targets;
    CheckedPack(ms, packId, byTarget, targets, resolved);
    r := Pass;
  }

  lemma {:induction false} CheckedPack(ms: Catalog, packId: string, byTarget: map<string, Dependency>,
                                       targets: seq<string>, resolved: seq<string>)
    requires packId in ms && ms[packId].packId == packId && DistinctTargets(ms[packId])
    requires byTarget.Keys == Targets(ms[packId]) == Elements(targets)
    requires forall t :: t in byTarget ==> byTarget[t] in ms[packId].dependencies && byTarget[t].packId == t
    requires forall t :: t in byTarget && t in targets ==> DependencyAllowed(ms, packId, byTarget[t])
    requires forall t :: t in resolved <==> t in targets && t in ms
    ensures PackAllowed(ms, packId) && Elements(resolved) == Resolved(ms)[packId]
  {
    var deps := ms[packId].dependencies;
    forall d | d in deps ensures DependencyAllowed(ms, packId, d) {
      assert d.packId in Targets(ms[packId]);
      assert d.packId in Elements(targets);
      var e := byTarget[d.packId];
      var a :| 0 <= a < |deps| && deps[a] == d;
      var b :| 0 <= b < |deps| && deps[b] == e;
      assert a == b;
    }
    forall t ensures t in Elements(resolved) <==> t in Resolved(ms)[packId] {
      assert t in Elements(targets) <==> t in targets;
    }
  }

  ghost predicate PackResolved(ms: Catalog, p: string, resolved: seq<string>) {
    p in ms && PackAllowed(ms, p) && Elements(resolved) == Resolved(ms)[p]
  }

  /** Every law but acyclicity, checked pack by pack in name order. */
  method ResolveAll(ms: Catalog) returns (r: Outcome, adjacency: map<string, seq<string>>)
    ensures r.Pass? ==> adjacency.Keys == ms.Keys && forall p :: p in adjacency ==> PackResolved(ms, p, adjacency[p])
    ensures r.Fail? ==> Explains(ms, r.error)
  {
    hide StrictlySorted, Explains, PackResolved, Elements;
    var packs := SortedSet(ms.Keys);
    adjacency := map[];
    WholePrefix(packs);
    for i := 0 to |packs|
      invariant adjacency.Keys == Elements(packs[..i])
      invariant forall p :: p in adjacency ==> PackResolved(ms, p, adjacency[p])
    {
      PrefixElements(packs, i);
      var checked, resolved := CheckPack(ms, packs[i]);
      if checked.Fail? {
        return checked, adjacency;
      }
      adjacency := adjacency[packs[i] := resolved];
    }
    r := Pass;
  }

  /** `validate_pack_dependency_graph`. */
  method ValidatePackDependencyGraph(ms: Catalog) returns (r: Outcome)
    ensures r.Pass? <==> DependencyLaw(ms)
    ensures r.Fail? ==> Explains(ms, r.error)
  {
    hide StrictlySorted, Explains, PackAllowed, Targets, Acyclic, IsCycle;
    var adjacency;
    r, adjacency := ResolveAll(ms);
    if r.Fail? {
      ExplainedBreaksLaw(ms, r.error);
      return;
    }
    var search := new CycleSearch(Resolved(ms), adjacency);
    var found := search.SearchAll();
    if found.Some? {
      CycleMeansOnCycle(ms, found.value);
      ExplainedBreaksLaw(ms, DependencyCycle(found.value));
      r := Fail(DependencyCycle(found.value));
    }
  }
}
