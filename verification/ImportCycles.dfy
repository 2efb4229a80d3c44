/** Tarjan's search for first-party import cycles, as the architecture check runs it.

    The nested `visit` closure and the variables it shares become a class; what the
    search has established is stated on the values those variables hold. A node is
    active (`grey`) while its own `visit` call is running. */
module ImportCycles {
  import opened Ordering
  import opened Graphs

  type Numbering = map<string, nat>

  /** Active nodes reach every later stacked node, and every stacked node reaches an earlier active one. */
  ghost predicate Linked(g: Graph, num: Numbering, stacked: set<string>, grey: set<string>) {
    && grey <= stacked <= num.Keys
    && (forall a, x :: a in grey && x in stacked && num[a] <= num[x] ==> Reach(g, a, x))
    && (forall x {:trigger ReachesActive(g, num, grey, x)} :: x in stacked ==> ReachesActive(g, num, grey, x))
  }

  ghost predicate ReachesActive(g: Graph, num: Numbering, grey: set<string>, x: string) {
    exists a :: a in grey && a in num && x in num && num[a] <= num[x] && Reach(g, x, a)
  }

  /** Finished nodes have no unvisited successor, and popped nodes lead only to popped nodes. */
  ghost predicate Settled(g: Graph, visited: set<string>, stacked: set<string>, grey: set<string>) {
    && (forall n :: n in visited && n in g && n !in grey ==> g[n] <= visited)
    && SuccessorClosed(g, visited - stacked)
  }

  /** The reported components are those popped components that hold a cycle, each once. */
  ghost predicate Reports(g: Graph, popped: set<string>, components: seq<seq<string>>) {
    && (forall n :: n in popped ==> Component(g, n) <= popped)
    && (forall n :: n in popped && OnCycle(g, n) ==> Listed(components, Component(g, n)))
    && (forall k :: 0 <= k < |components| ==>
        StrictlySorted(components[k]) && Justified(g, popped, Elements(components[k])))
    && (forall j, k :: 0 <= j < k < |components| ==> Elements(components[j]) != Elements(components[k]))
  }

  ghost predicate Listed(components: seq<seq<string>>, c: set<string>) {
    exists k :: 0 <= k < |components| && Elements(components[k]) == c
  }

  ghost predicate Justified(g: Graph, popped: set<string>, c: set<string>) {
    exists n :: n in popped && OnCycle(g, n) && c == Component(g, n)
  }

  datatype Search = Search(
    index: nat,
    indices: Numbering,
    lowlinks: Numbering,
    stack: seq<string>,
    onStack: set<string>,
    components: seq<seq<string>>)

  ghost predicate Shape(g: Graph, s: Search) {
    && s.lowlinks.Keys == s.indices.Keys <= g.Keys
    && NoDuplicates(s.stack) && Elements(s.stack) == s.onStack <= s.indices.Keys
    && (forall n :: n in s.indices ==> s.indices[n] < s.index)
  }

  ghost predicate Inv(g: Graph, s: Search, grey: set<string>) {
    && Closed(g)
    && Shape(g, s)
    && Linked(g, s.indices, s.onStack, grey)
    && Settled(g, s.indices.Keys, s.onStack, grey)
    && Reports(g, s.indices.Keys - s.onStack, s.components)
  }

  /** Numbers already assigned stay, the old stack stays at the bottom, and newer stack entries have newer numbers. */
  ghost predicate Frame(s0: Search, s1: Search) {
    && s0.index <= s1.index
    && s0.stack <= s1.stack
    && s0.onStack <= s1.onStack
    && s0.indices.Keys <= s1.indices.Keys
    && s0.lowlinks.Keys <= s1.lowlinks.Keys
    && (forall n :: n in s0.indices ==> s1.indices[n] == s0.indices[n])
    && (forall n :: n in s0.lowlinks ==> s1.lowlinks[n] == s0.lowlinks[n])
    && (forall x :: x in s1.onStack - s0.onStack && x in s1.indices ==> s0.index <= s1.indices[x])
  }

  /** `low` bounds from below the numbers that edges from `from` into `base` lead to. */
  ghost predicate Floor(g: Graph, num: Numbering, from: set<string>, base: set<string>, low: nat) {
    forall x, y :: x in from && x in g && y in g[x] && y in base && y in num ==> low <= num[y]
  }

  /** `low` is the number of a node of `base` that `node` reaches. */
  ghost predicate Anchored(g: Graph, num: Numbering, base: set<string>, node: string, low: nat) {
    exists y :: y in base && y in num && num[y] == low && Reach(g, node, y)
  }

  /** What one call of `visit(node)` establishes about the state it leaves. */
  ghost predicate Visited(g: Graph, s0: Search, s1: Search, node: string) {
    && Frame(s0, s1)
    && node in s1.indices && s1.indices[node] == s0.index
    && node in s1.lowlinks && s1.lowlinks[node] <= s0.index
    && (s1.lowlinks[node] < s0.index ==> Anchored(g, s1.indices, s0.onStack, node, s1.lowlinks[node]))
    && Floor(g, s1.indices, s1.onStack - s0.onStack, s0.onStack, s1.lowlinks[node])
  }

  /** The part of the loop invariant that `lowlinks[node]` takes part in, after the targets in `done`. */
  ghost predicate LowSoFar(g: Graph, num: Numbering, stacked: set<string>, base: set<string>, node: string,
                           done: set<string>, low: nat) {
    && node in num && low <= num[node]
    && done <= num.Keys
    && Anchored(g, num, base + {node}, node, low)
    && Floor(g, num, stacked - base - {node}, base, low)
    && (forall y :: y in done && y in base && y in num ==> low <= num[y])
  }

  /** Invariant of the loop over `sorted(graph[node])` once the targets in `done` are processed. */
  ghost predicate Scanning(g: Graph, s0: Search, s: Search, grey: set<string>, node: string, done: set<string>) {
    && node in g && node !in s0.onStack && grey <= s0.onStack
    && Inv(g, s, grey + {node})
    && Frame(s0, s)
    && (forall n :: n in s0.onStack ==> n in s0.indices && s0.indices[n] < s0.index)
    && s0.stack + [node] <= s.stack && Elements(s0.stack) == s0.onStack
    && node in s.indices && s.indices[node] == s0.index
    && LowSoFar(g, s.indices, s.onStack, s0.onStack, node, done, s.lowlinks[node])
  }

  // ------------------------------------------------------------ entering a node

  function Entered(s: Search, node: string): Search {
    Search(s.index + 1, s.indices[node := s.index], s.lowlinks[node := s.index],
           s.stack + [node], s.onStack + {node}, s.components)
  }

  lemma {:induction false} EnterLinked(g: Graph, num: Numbering, stacked: set<string>, grey: set<string>, node: string,
                                       top: nat)
    requires Linked(g, num, stacked, grey) && node in g && node !in num
    requires forall n :: n in num ==> num[n] < top
    requires forall a :: a in grey ==> Reach(g, a, node)
    ensures Linked(g, num[node := top], stacked + {node}, grey + {node})
  {
    var num' := num[node := top];
    ReachSelf(g, node);
    forall x | x in stacked + {node} ensures ReachesActive(g, num', grey + {node}, x) {
      if x == node {
        assert node in grey + {node} && Reach(g, x, node);
      } else {
        assert ReachesActive(g, num, grey, x);
        var a :| a in grey && a in num && num[a] <= num[x] && Reach(g, x, a);
        assert a in grey + {node} && num'[a] <= num'[x];
      }
    }
  }

  lemma {:induction false} EnterInv(g: Graph, s0: Search, grey: set<string>, node: string)
    requires Inv(g, s0, grey) && node in g && node !in s0.indices
    requires forall a :: a in grey ==> Reach(g, a, node)
    ensures Inv(g, Entered(s0, node), grey + {node})
  {
    hide Linked, Reports, Reach;
    var s := Entered(s0, node);
    EnterLinked(g, s0.indices, s0.onStack, grey, node, s0.index);
    assert s.indices.Keys - s.onStack == s0.indices.Keys - s0.onStack;
  }

  lemma {:induction false} EnterLow(g: Graph, num: Numbering, base: set<string>, node: string)
    requires node in g && node in num
    ensures LowSoFar(g, num, base + {node}, base, node, {}, num[node])
  {
    ReachSelf(g, node);
    assert node in base + {node};
    assert base + {node} - base - {node} == {};
  }

  lemma {:induction false} EnterEstablishes(g: Graph, s0: Search, grey: set<string>, node: string)
    requires Inv(g, s0, grey) && node in g && node !in s0.indices
    requires forall a :: a in grey ==> Reach(g, a, node)
    ensures Scanning(g, s0, Entered(s0, node), grey, node, {})
  {
    hide Linked, Reports, Reach, Settled, LowSoFar, Closed, NoDuplicates;
    var s := Entered(s0, node);
    EnterInv(g, s0, grey, node);
    EnterLow(g, s.indices, s0.onStack, node);
    GreyStacked(g, s0.indices, s0.onStack, grey);
  }

  lemma {:induction false} GreyStacked(g: Graph, num: Numbering, stacked: set<string>, grey: set<string>)
    ensures Linked(g, num, stacked, grey) ==> grey <= stacked <= num.Keys
  {
  }

  // ------------------------------------------------------------ the loop over targets

  /** Every active node reaches each target of `node`. */
  lemma {:induction false} ActiveReachTarget(g: Graph, s0: Search, s: Search, grey: set<string>, node: string,
                                             done: set<string>, t: string)
    requires Scanning(g, s0, s, grey, node, done) && t in g[node]
    ensures t in g && forall a :: a in grey + {node} ==> Reach(g, a, t)
    ensures Inv(g, s, grey + {node})
  {
    hide Reports, Settled, LowSoFar;
    ReachStep(g, node, t);
    assert node in s.onStack;
    forall a | a in grey + {node} ensures Reach(g, a, t) {
      if a != node {
        assert s.indices[a] <= s.indices[node];
        ReachTransitive(g, a, node, t);
      }
    }
  }

  function Lower(s: Search, node: string, low: nat): Search
    requires node in s.lowlinks
  {
    s.(lowlinks := s.lowlinks[node := if low < s.lowlinks[node] then low else s.lowlinks[node]])
  }

  /** The bound after a recursive visit of target `t` that ended with `lowlinks[t] == tlow`. */
  lemma {:induction false} LowAfterVisit(g: Graph, num: Numbering, stacked: set<string>, num2: Numbering,
                                         stacked2: set<string>, base: set<string>, node: string, done: set<string>,
                                         low: nat, t: string, tlow: nat)
    requires LowSoFar(g, num, stacked, base, node, done, low)
    requires num.Keys <= num2.Keys && forall n :: n in num ==> num2[n] == num[n]
    requires base <= stacked <= num.Keys && t in num2 && t !in num
    requires node in g && t in g && t in g[node]
    requires forall x :: x in stacked - base ==> num[node] <= num[x]
    requires tlow < num[node] ==> Anchored(g, num2, stacked, t, tlow)
    requires Floor(g, num2, stacked2 - stacked, stacked, tlow)
    ensures LowSoFar(g, num2, stacked2, base, node, done + {t}, if tlow < low then tlow else low)
  {
    hide Reach;
    var low' := if tlow < low then tlow else low;
    assert Anchored(g, num2, base + {node}, node, low') by {
      if tlow < low {
        var y :| y in stacked && y in num2 && num2[y] == tlow && Reach(g, t, y);
        assert y !in stacked - base;
        ReachStep(g, node, t);
        ReachTransitive(g, node, t, y);
        assert y in base + {node} && num2[y] == low';
      } else {
        var y :| y in base + {node} && y in num && num[y] == low && Reach(g, node, y);
        assert num2[y] == low';
      }
    }
    forall x, y | x in stacked2 - base - {node} && x in g && y in g[x] && y in base && y in num2
      ensures low' <= num2[y]
    {
      if x in stacked { assert x in stacked - base - {node}; } else { assert x in stacked2 - stacked; }
    }
  }

  /** The bound after meeting a target `t` that is on the stack. */
  lemma {:induction false} LowAfterStacked(g: Graph, num: Numbering, stacked: set<string>, base: set<string>,
                                           node: string, done: set<string>, low: nat, t: string)
    requires LowSoFar(g, num, stacked, base, node, done, low)
    requires base <= stacked <= num.Keys && t in stacked
    requires node in g && t in g && t in g[node]
    requires forall x :: x in stacked - base ==> num[node] <= num[x]
    ensures LowSoFar(g, num, stacked, base, node, done + {t}, if num[t] < low then num[t] else low)
  {
    hide Reach;
    var low' := if num[t] < low then num[t] else low;
    assert Anchored(g, num, base + {node}, node, low') by {
      if num[t] < low {
        ReachStep(g, node, t);
        assert t !in stacked - base;
        assert t in base + {node} && num[t] == low';
      }
    }
  }

  lemma {:induction false} FrameTransitive(s0: Search, s: Search, s2: Search)
    requires Frame(s0, s) && Frame(s, s2) && s.onStack <= s.indices.Keys
    ensures Frame(s0, s2)
  {
    forall x | x in s2.onStack - s0.onStack && x in s2.indices ensures s0.index <= s2.indices[x] {
      if x in s.onStack { assert x in s.onStack - s0.onStack; } else { assert x in s2.onStack - s.onStack; }
    }
  }

  /** A target visited just now: `lowlinks[node] = min(lowlinks[node], lowlinks[target])`. */
  lemma {:induction false} AfterRecursion(g: Graph, s0: Search, s: Search, s2: Search, grey: set<string>, node: string,
                                          done: set<string>, t: string)
    requires Scanning(g, s0, s, grey, node, done) && t in g[node] && t !in s.indices && node !in s0.lowlinks
    requires Inv(g, s2, grey + {node}) && Visited(g, s, s2, t)
    ensures Scanning(g, s0, Lower(s2, node, s2.lowlinks[t]), grey, node, done + {t})
  {
    hide Linked, Reports, Settled, LowSoFar, Floor, Anchored;
    var low, tlow := s.lowlinks[node], s2.lowlinks[t];
    assert LowSoFar(g, s2.indices, s2.onStack, s0.onStack, node, done + {t}, if tlow < low then tlow else low) by {
      assert t in g by { assert g[node] <= g.Keys; }
      LowAfterVisit(g, s.indices, s.onStack, s2.indices, s2.onStack, s0.onStack, node, done, low, t, tlow);
    }
    assert Inv(g, Lower(s2, node, tlow), grey + {node}) && Frame(s0, Lower(s2, node, tlow)) by {
      FrameTransitive(s0, s, s2);
    }
  }

  /** A target already on the stack: `lowlinks[node] = min(lowlinks[node], indices[target])`. */
  lemma {:induction false} AfterStacked(g: Graph, s0: Search, s: Search, grey: set<string>, node: string,
                                        done: set<string>, t: string)
    requires Scanning(g, s0, s, grey, node, done) && t in g[node] && t in s.onStack && node !in s0.lowlinks
    ensures Scanning(g, s0, Lower(s, node, s.indices[t]), grey, node, done + {t})
  {
    hide Linked, Reports, Settled, LowSoFar;
    assert t in g by { assert g[node] <= g.Keys; }
    LowAfterStacked(g, s.indices, s.onStack, s0.onStack, node, done, s.lowlinks[node], t);
  }

  /** A target already popped changes nothing. */
  lemma {:induction false} AfterPopped(g: Graph, s0: Search, s: Search, grey: set<string>, node: string,
                                       done: set<string>, t: string)
    requires Scanning(g, s0, s, grey, node, done) && t in s.indices && t !in s.onStack
    ensures Scanning(g, s0, s, grey, node, done + {t})
  {
    hide Linked, Reports, Settled, Floor, Anchored;
  }

  // ------------------------------------------------------------ leaving a node

  /** The bound covers the edges of `node` itself once all its targets are processed. */
  lemma {:induction false} FullFloor(g: Graph, num: Numbering, stacked: set<string>, base: set<string>, node: string,
                                     low: nat)
    requires node in g && LowSoFar(g, num, stacked, base, node, g[node], low)
    ensures Floor(g, num, stacked - base, base, low)
  {
    forall x, y | x in stacked - base && x in g && y in g[x] && y in base && y in num ensures low <= num[y] {
      if x != node { assert x in stacked - base - {node}; }
    }
  }

  lemma {:induction false} BlackenOne(g: Graph, num: Numbering, grey: set<string>, node: string, b: string, x: string)
    requires ReachesActive(g, num, grey + {node}, x)
    requires b in grey && b in num && node in num && num[b] <= num[node] && Reach(g, node, b)
    ensures ReachesActive(g, num, grey, x)
  {
    var a :| a in grey + {node} && a in num && num[a] <= num[x] && Reach(g, x, a);
    if a == node {
      ReachTransitive(g, x, node, b);
    }
  }

  lemma {:induction false} BlackenLinked(g: Graph, num: Numbering, stacked: set<string>, grey: set<string>,
                                         node: string, y: string)
    requires Linked(g, num, stacked, grey + {node}) && grey <= stacked
    requires y in stacked && node in num && num[y] < num[node] && Reach(g, node, y)
    ensures Linked(g, num, stacked, grey)
  {
    assert ReachesActive(g, num, grey + {node}, y);
    var b :| b in grey + {node} && b in num && num[b] <= num[y] && Reach(g, y, b);
    ReachTransitive(g, node, y, b);
    hide Reach;
    forall x | x in stacked ensures ReachesActive(g, num, grey, x) {
      assert ReachesActive(g, num, grey + {node}, x);
      BlackenOne(g, num, grey, node, b, x);
    }
  }

  /** Leaving `node` on the stack, now finished. */
  lemma {:induction false} LeaveStacked(g: Graph, s0: Search, s: Search, grey: set<string>, node: string)
    requires node in g && Scanning(g, s0, s, grey, node, g[node]) && node !in grey
    requires s.lowlinks[node] != s.indices[node]
    ensures Inv(g, s, grey) && Visited(g, s0, s, node)
  {
    hide Reports, Floor, Linked;
    var low := s.lowlinks[node];
    FullFloor(g, s.indices, s.onStack, s0.onStack, node, low);
    var y :| y in s0.onStack + {node} && y in s.indices && s.indices[y] == low && Reach(g, node, y);
    assert y in s0.onStack;
    BlackenLinked(g, s.indices, s.onStack, grey, node, y);
    assert Anchored(g, s.indices, s0.onStack, node, low);
  }

  /** With `lowlinks[node] == indices[node]`, the stack from `node` up is exactly its component. */
  lemma {:induction false} SegmentIsComponent(g: Graph, num: Numbering, stacked: set<string>, base: set<string>,
                                              grey: set<string>, node: string)
    requires Linked(g, num, stacked, grey + {node})
    requires SuccessorClosed(g, num.Keys - base) && SuccessorClosed(g, num.Keys - stacked)
    requires grey <= base <= stacked && node in g && node in stacked && node !in base
    requires num.Keys <= g.Keys
    requires forall x :: x in stacked - base ==> num[node] <= num[x]
    ensures stacked - base == Component(g, node)
  {
    var hull := num.Keys - base;
    forall x | x in stacked - base ensures x in Component(g, node) {
      assert ReachesActive(g, num, grey + {node}, x);
      var a :| a in grey + {node} && a in num && num[a] <= num[x] && Reach(g, x, a);
      ReachStaysInside(g, hull, x, a);
      assert a == node;
    }
    forall x | x in Component(g, node) ensures x in stacked - base {
      ReachStaysInside(g, hull, node, x);
      if x !in stacked {
        ReachStaysInside(g, num.Keys - stacked, x, node);
      }
    }
  }

  lemma {:induction false} TrimLinked(g: Graph, num: Numbering, stacked: set<string>, base: set<string>,
                                      grey: set<string>, node: string)
    requires Linked(g, num, stacked, grey + {node})
    requires grey <= base <= stacked && node in num
    requires forall b :: b in base ==> b in num && num[b] < num[node]
    ensures Linked(g, num, base, grey)
  {
    forall x | x in base ensures ReachesActive(g, num, grey, x) {
      assert ReachesActive(g, num, grey + {node}, x);
      var a :| a in grey + {node} && a in num && num[a] <= num[x] && Reach(g, x, a);
      assert a in grey;
    }
  }

  function Report(g: Graph, components: seq<seq<string>>, node: string, ordered: seq<string>): seq<seq<string>>
    requires node in g
  {
    if |ordered| > 1 || node in g[node] then components + [ordered] else components
  }

  lemma {:induction false} ReportsGrow(g: Graph, popped: set<string>, components: seq<seq<string>>, node: string,
                                       ordered: seq<string>)
    requires Closed(g) && node in g && node !in popped
    requires Reports(g, popped, components)
    requires StrictlySorted(ordered) && Elements(ordered) == Component(g, node)
    ensures Reports(g, popped + Component(g, node), Report(g, components, node, ordered))
  {
    var c := Component(g, node);
    var grown := Report(g, components, node, ordered);
    NoDuplicatesCardinality(ordered);
    OnCycleIff(g, node);
    ComponentSelf(g, node);
    hide StrictlySorted, OnCycle, Reach;
    forall n | n in popped + c ensures Component(g, n) <= popped + c
           && (OnCycle(g, n) ==> Listed(grown, Component(g, n))) {
      if n in c {
        NewMemberListed(g, components, node, ordered, n);
      } else {
        OldMemberListed(g, components, node, ordered, n);
      }
    }
    forall k | 0 <= k < |grown| ensures StrictlySorted(grown[k]) && Justified(g, popped + c, Elements(grown[k])) {
      if k < |components| {
        assert grown[k] == components[k];
      } else {
        assert node in popped + c && OnCycle(g, node);
      }
    }
    forall j | 0 <= j < |components| ensures Elements(components[j]) != c {
      assert Justified(g, popped, Elements(components[j]));
      var n :| n in popped && OnCycle(g, n) && Elements(components[j]) == Component(g, n);
      assert node !in Component(g, n);
    }
  }

  lemma {:induction false} OldMemberListed(g: Graph, components: seq<seq<string>>, node: string, ordered: seq<string>,
                                           n: string)
    requires node in g
    ensures Listed(components, Component(g, n)) ==> Listed(Report(g, components, node, ordered), Component(g, n))
  {
    hide Component;
    var grown := Report(g, components, node, ordered);
    if Listed(components, Component(g, n)) {
      var k :| 0 <= k < |components| && Elements(components[k]) == Component(g, n);
      assert grown[k] == components[k];
    }
  }

  lemma {:induction false} NewMemberListed(g: Graph, components: seq<seq<string>>, node: string, ordered: seq<string>,
                                           n: string)
    requires Closed(g) && node in g && n in Component(g, node)
    requires |ordered| == |Component(g, node)| && Elements(ordered) == Component(g, node)
    ensures Component(g, n) == Component(g, node)
    ensures OnCycle(g, n) ==> Listed(Report(g, components, node, ordered), Component(g, n))
  {
    var c := Component(g, node);
    var grown := Report(g, components, node, ordered);
    ComponentShared(g, node, n);
    ComponentSelf(g, node);
    OnCycleIff(g, n);
    if OnCycle(g, n) {
      assert |c| > 1 || node in g[node] by {
        assert n == node || |c| > 1 by { assert n != node ==> |c - {n, node}| == |c| - 2; }
      }
      assert grown[|components|] == ordered;
    }
  }

  /** Popping the component of `node` off the stack. */
  lemma {:induction false} LeavePopped(g: Graph, s0: Search, s: Search, grey: set<string>, node: string)
    requires node in g && Scanning(g, s0, s, grey, node, g[node])
    requires s.lowlinks[node] == s.indices[node]
    ensures s.onStack - s0.onStack == Component(g, node)
    ensures Linked(g, s.indices, s0.onStack, grey)
    ensures SuccessorClosed(g, s.indices.Keys - s0.onStack)
  {
    var low := s.lowlinks[node];
    assert node in s.onStack by { assert s.stack[|s0.stack|] == node; }
    assert Settled(g, s.indices.Keys, s.onStack, grey + {node});
    hide Reports, Floor, Anchored, LowSoFar, Linked, Settled;
    TrimLinked(g, s.indices, s.onStack, s0.onStack, grey, node);
    assert SuccessorClosed(g, s.indices.Keys - s.onStack)
           by { SettledPopped(g, s.indices.Keys, s.onStack, grey + {node}); }
    SegmentIsComponent(g, s.indices, s.onStack, s0.onStack, grey, node);
  }

  lemma {:induction false} SettledPopped(g: Graph, visited: set<string>, stacked: set<string>, grey: set<string>)
    ensures Settled(g, visited, stacked, grey) ==> SuccessorClosed(g, visited - stacked)
  {
  }

  function Popped(g: Graph, s: Search, base: Search, node: string, ordered: seq<string>): Search
    requires node in g
  {
    Search(s.index, s.indices, s.lowlinks, base.stack, base.onStack, Report(g, s.components, node, ordered))
  }

  lemma {:induction false} PoppedKeeps(g: Graph, s0: Search, s: Search, grey: set<string>, node: string,
                                       ordered: seq<string>)
    requires node in g && Scanning(g, s0, s, grey, node, g[node]) && NoDuplicates(s0.stack)
    requires s.lowlinks[node] == s.indices[node]
    requires StrictlySorted(ordered) && Elements(ordered) == Component(g, node)
    ensures Inv(g, Popped(g, s, s0, node, ordered), grey) && Visited(g, s0, Popped(g, s, s0, node, ordered), node)
  {
    var r := Popped(g, s, s0, node, ordered);
    var c := Component(g, node);
    LeavePopped(g, s0, s, grey, node);
    hide Reports, Floor, Anchored, LowSoFar, Linked, Settled, StrictlySorted, Component;
    assert s.indices.Keys - s0.onStack == (s.indices.Keys - s.onStack) + c;
    ComponentSelf(g, node);
    assert node in s.onStack;
    ReportsGrow(g, s.indices.Keys - s.onStack, s.components, node, ordered);
    assert Shape(g, r);
    assert Floor(g, r.indices, r.onStack - s0.onStack, s0.onStack, r.lowlinks[node]) by {
      assert r.onStack - s0.onStack == {};
    }
  }

  lemma {:induction false} StackAbove(g: Graph, s0: Search, s: Search, grey: set<string>, node: string)
    requires node in g && Scanning(g, s0, s, grey, node, g[node])
    ensures |s0.stack| < |s.stack| && s.stack[|s0.stack|] == node && s.stack[..|s0.stack|] == s0.stack
    ensures NoDuplicates(s.stack) && Elements(s.stack) == s.onStack && Elements(s0.stack) == s0.onStack
  {
    hide Linked, Reports, Settled, LowSoFar;
  }

  /** Which nodes the dictionaries and the stack know, at each point of a search. */
  lemma {:induction false} KnownNodes(g: Graph, s0: Search, s: Search, grey: set<string>, node: string,
                                      done: set<string>)
    ensures Inv(g, s, grey) ==>
            s.lowlinks.Keys == s.indices.Keys && s.onStack <= s.indices.Keys && grey <= s.onStack
            && NoDuplicates(s.stack)
    ensures Visited(g, s0, s, node) ==>
            s0.indices.Keys + {node} <= s.indices.Keys && s0.lowlinks.Keys <= s.lowlinks.Keys
    ensures Scanning(g, s0, s, grey, node, done) ==>
            node in s.indices && node in s.lowlinks && s.indices.Keys == s.lowlinks.Keys && s.onStack <= s.indices.Keys
  {
    hide Reports, Settled, Reach, LowSoFar;
  }

  class ComponentFinder {
    const graph: Graph
    var index: nat
    var indices: Numbering
    var lowlinks: Numbering
    var stack: seq<string>
    var onStack: set<string>
    var components: seq<seq<string>>

    constructor (graph: Graph)
      ensures this.graph == graph
      ensures State() == Search(0, map[], map[], [], {}, [])
    {
      this.graph := graph;
      index, indices, lowlinks, stack, onStack, components := 0, map[], map[], [], {}, [];
    }

    ghost function State(): Search
      reads this
    {
      Search(index, indices, lowlinks, stack, onStack, components)
    }

    /** The head of `visit`: number the node and push it. */
    method Enter(node: string, ghost grey: set<string>)
      requires Inv(graph, State(), grey) && node in graph && node !in indices
      requires forall a :: a in grey ==> Reach(graph, a, node)
      modifies this
      ensures State() == Entered(old(State()), node)
      ensures Scanning(graph, old(State()), State(), grey, node, {})
    {
      hide Inv, Scanning, Reach;
      EnterEstablishes(graph, State(), grey, node);
      indices := indices[node := index];
      lowlinks := lowlinks[node := index];
      index := index + 1;
      stack := stack + [node];
      onStack := onStack + {node};
    }

    /** One round of the loop over `sorted(graph[node])`. */
    method Follow(node: string, target: string, ghost s0: Search, ghost grey: set<string>, ghost done: set<string>)
      requires node in graph && target in graph[node] && node !in s0.lowlinks
      requires node in indices && node in lowlinks && indices.Keys == lowlinks.Keys && onStack <= indices.Keys
      requires Scanning(graph, s0, State(), grey, node, done)
      modifies this
      ensures Scanning(graph, s0, State(), grey, node, done + {target})
      ensures old(indices.Keys) <= indices.Keys
      decreases graph.Keys - indices.Keys, 1
    {
      hide Inv, Scanning, Reach, Visited, Linked;
      ghost var s := State();
      if target !in indices {
        ActiveReachTarget(graph, s0, s, grey, node, done, target);
        Visit(target, grey + {node});
        ghost var s2 := State();
        KnownNodes(graph, s, s2, grey + {node}, target, {});
        AfterRecursion(graph, s0, s, s2, grey, node, done, target);
        lowlinks := lowlinks[node := if lowlinks[target] < lowlinks[node] then lowlinks[target] else lowlinks[node]];
        assert State() == Lower(s2, node, s2.lowlinks[target]);
      } else if target in onStack {
        AfterStacked(graph, s0, s, grey, node, done, target);
        lowlinks := lowlinks[node := if indices[target] < lowlinks[node] then indices[target] else lowlinks[node]];
        assert State() == Lower(s, node, s.indices[target]);
      } else {
        AfterPopped(graph, s0, s, grey, node, done, target);
      }
    }

    /** The tail of `visit`: return, or pop a whole component and report it. */
    method Leave(node: string, ghost s0: Search, ghost grey: set<string>)
      requires node in graph && node in indices && node in lowlinks && node !in grey
      requires NoDuplicates(s0.stack)
      requires Scanning(graph, s0, State(), grey, node, graph[node])
      modifies this
      ensures Inv(graph, State(), grey) && Visited(graph, s0, State(), node)
    {
      hide Inv, Scanning, Reach, Visited, StrictlySorted, Component, Linked, SuccessorClosed, StringLe, Sort,
        SortedSet, NoDuplicates, Elements;
      ghost var s := State();
      StackAbove(graph, s0, s, grey, node);
      if lowlinks[node] != indices[node] {
        LeaveStacked(graph, s0, s, grey, node);
        return;
      }
      LeavePopped(graph, s0, s, grey, node);
      var component := PopDownTo(node, |s0.stack|);
      var ordered := Sort(StringLe, component);
      SortOfDistinct(component);
      assert Elements(component) == Component(graph, node);
      PoppedKeeps(graph, s0, s, grey, node, ordered);
      if |ordered| > 1 || node in graph[node] {
        components := components + [ordered];
      }
      assert State() == Popped(graph, s, s0, node, ordered);
    }

    /** The popping loop: everything down to and including `node`. */
    method PopDownTo(node: string, ghost base: nat) returns (component: seq<string>)
      requires base < |stack| && stack[base] == node
      requires NoDuplicates(stack) && Elements(stack) == onStack
      modifies this`stack, this`onStack
      ensures NoDuplicates(component) && Elements(component) == old(onStack) - Elements(old(stack)[..base])
      ensures stack == old(stack)[..base] && onStack == Elements(stack)
    {
      component := [];
      while true
        invariant base < |stack| <= |old(stack)| && stack == old(stack)[..|stack|]
        invariant NoDuplicates(component)
        invariant Elements(component) == old(onStack) - Elements(stack)
        invariant onStack == Elements(stack)
        decreases |stack|
      {
        var member := stack[|stack| - 1];
        assert member !in component by { assert member !in Elements(component); }
        AppendElement(component, member);
        component := component + [member];
        stack := stack[..|stack| - 1];
        onStack := onStack - {member};
        if member == node {
          assert |stack| == base;
          break;
        }
      }
    }

    /** `visit(node)`; recursion ends because every call numbers a new node. */
    method Visit(node: string, ghost grey: set<string>)
      requires Inv(graph, State(), grey) && node in graph && node !in indices
      requires forall a :: a in grey ==> Reach(graph, a, node)
      modifies this
      ensures Inv(graph, State(), grey) && Visited(graph, old(State()), State(), node)
      decreases graph.Keys - indices.Keys, 0
    {
      hide Inv, Reach, StrictlySorted, Visited, Scanning, Linked, StringLe, SortedSet, NoDuplicates, Closed;
      ghost var s0 := State();
      KnownNodes(graph, s0, s0, grey, node, {});
      Enter(node, grey);
      var targets := SortedSet(graph[node]);
      assert Elements(targets[..0]) == {};

      for i := 0 to |targets|
        invariant Scanning(graph, s0, State(), grey, node, Elements(targets[..i]))
        invariant s0.indices.Keys + {node} <= indices.Keys
      {
        KnownNodes(graph, s0, State(), grey, node, Elements(targets[..i]));
        var target := targets[i];
        assert target in graph[node] by { assert target in Elements(targets); }
        assert Elements(targets[..i + 1]) == Elements(targets[..i]) + {target} by {
          assert targets[..i + 1] == targets[..i] + [target];
        }
        Follow(node, target, s0, grey, Elements(targets[..i]));
      }
      assert targets[..|targets|] == targets;
      KnownNodes(graph, s0, State(), grey, node, graph[node]);
      Leave(node, s0, grey);
    }

    /** The driver loop over `sorted(graph)`. */
    method SearchAll()
      requires Closed(graph) && State() == Search(0, map[], map[], [], {}, [])
      modifies this
      ensures Reports(graph, graph.Keys, components)
    {
      hide Inv, Reach, StrictlySorted, Visited, Linked, StringLe, Reports, Scanning, SortedSet, Closed;
      StartInv(graph);
      var nodes := SortedSet(graph.Keys);
      for i := 0 to |nodes|
        invariant Inv(graph, State(), {})
        invariant Elements(nodes[..i]) <= indices.Keys
      {
        var node := nodes[i];
        assert node in graph by { assert node in Elements(nodes); }
        assert Elements(nodes[..i + 1]) == Elements(nodes[..i]) + {node} by {
          assert nodes[..i + 1] == nodes[..i] + [node];
        }
        if node !in indices {
          ghost var s := State();
          Visit(node, {});
          KnownNodes(graph, s, State(), {}, node, {});
          assert s.indices.Keys <= indices.Keys;
        }
      }
      assert nodes[..|nodes|] == nodes;
      EndReports(graph, State());
    }
  }

  lemma {:induction false} StartInv(g: Graph)
    ensures Closed(g) ==> Inv(g, Search(0, map[], map[], [], {}, []), {})
  {
  }

  /** With no active node left nothing is stacked, so every node has been popped. */
  lemma {:induction false} EndReports(g: Graph, s: Search)
    requires Inv(g, s, {}) && g.Keys <= s.indices.Keys
    ensures Reports(g, g.Keys, s.components)
  {
    hide Reports, Reach, Settled;
    assert s.onStack == {} by {
      forall x ensures x !in s.onStack {
        assert x in s.onStack ==> ReachesActive(g, s.indices, {}, x);
      }
    }
    assert s.indices.Keys - s.onStack == g.Keys;
  }

  /** The names and edges of the import graph, restricted to known modules. */
  method Edges(modules: set<string>, imports: seq<(string, string)>) returns (graph: Graph)
    ensures graph.Keys == modules && Closed(graph)
    ensures forall a, b :: a in graph && b in graph[a] <==> a in modules && b in modules && (a, b) in imports
  {
    graph := map m | m in modules :: {};
    for i := 0 to |imports|
      invariant graph.Keys == modules
      invariant forall a, b :: a in graph && b in graph[a] <==> a in modules && b in modules && (a, b) in imports[..i]
    {
      var (source, target) := imports[i];
      assert imports[..i + 1] == imports[..i] + [(source, target)];
      if source in modules && target in modules {
        graph := graph[source := graph[source] + {target}];
      }
    }
    assert imports[..|imports|] == imports;
  }

  /** The reported list: exactly the sorted components that hold a cycle, each once, in tuple order. */
  ghost predicate ExactlyTheCycles(g: Graph, r: seq<seq<string>>) {
    && Sorted(TupleLe, r) && NoDuplicates(r)
    && (forall c :: c in r <==> IsCyclicComponent(g, c))
  }

  ghost predicate IsCyclicComponent(g: Graph, c: seq<string>) {
    exists n :: n in g && OnCycle(g, n) && c == SortedSet(Component(g, n))
  }

  lemma {:induction false} ReportsMembers(g: Graph, components: seq<seq<string>>, c: seq<string>)
    requires Reports(g, g.Keys, components)
    ensures c in components <==> IsCyclicComponent(g, c)
  {
    hide OnCycle, Component, StringLe;
    if c in components {
      var k :| 0 <= k < |components| && components[k] == c;
      assert Justified(g, g.Keys, Elements(c));
      var n :| n in g && OnCycle(g, n) && Elements(c) == Component(g, n);
      StrictlySortedUnique(c, SortedSet(Component(g, n)));
    }
    if IsCyclicComponent(g, c) {
      var n :| n in g && OnCycle(g, n) && c == SortedSet(Component(g, n));
      assert Listed(components, Component(g, n));
      var k :| 0 <= k < |components| && Elements(components[k]) == Component(g, n);
      StrictlySortedUnique(c, components[k]);
    }
  }

  lemma {:induction false} ReportsDistinct(g: Graph, components: seq<seq<string>>)
    ensures Reports(g, g.Keys, components) ==> NoDuplicates(components)
  {
  }

  lemma {:induction false} NoDuplicatesPermuted<T>(a: seq<T>, b: seq<T>)
    requires NoDuplicates(a) && multiset(a) == multiset(b)
    ensures NoDuplicates(b)
  {
    NoDuplicatesMultiset(a);
    forall i, j | 0 <= i < j < |b| ensures b[i] != b[j] {
      assert b == b[..i] + [b[i]] + b[i + 1..j] + [b[j]] + b[j + 1..];
      assert multiset(b)[b[i]] <= 1;
    }
  }

  /** A graph has no cyclic component exactly when it is acyclic. */
  lemma {:induction false} NoneIffAcyclic(g: Graph, r: seq<seq<string>>)
    requires ExactlyTheCycles(g, r)
    ensures r == [] <==> Acyclic(g)
  {
    hide OnCycle, Component, StrictlySorted, Sorted, TupleLe;
    if r == [] {
      forall a | a in g ensures !OnCycle(g, a) {
        assert !IsCyclicComponent(g, SortedSet(Component(g, a)));
      }
    } else {
      assert IsCyclicComponent(g, r[0]);
    }
  }

  /** `_strongly_connected_components`. */
  method StronglyConnectedComponents(graph: Graph) returns (r: seq<seq<string>>)
    requires Closed(graph)
    ensures ExactlyTheCycles(graph, r)
    ensures r == [] <==> Acyclic(graph)
  {
    hide Reports, IsCyclicComponent, Acyclic, TupleLe, Sort, Preorder;
    var finder := new ComponentFinder(graph);
    finder.SearchAll();
    r := Sort(TupleLe, finder.components);
    TupleOrder();
    SortSorts(TupleLe, finder.components);
    SortPermutes(TupleLe, finder.components);
    SortMembers(TupleLe, finder.components);
    ReportsDistinct(graph, finder.components);
    NoDuplicatesPermuted(finder.components, r);
    forall c ensures c in r <==> IsCyclicComponent(graph, c) {
      ReportsMembers(graph, finder.components, c);
    }
    NoneIffAcyclic(graph, r);
  }
}
