/** Concrete runs of brokers that get in each other's way, and when two of them can hold live claims on one task. */
module RivalBrokers {
  import opened Basics
  import opened ClaimLedger
  import opened WorkOrders
  import opened BrokerRuns

  // ------------------------------------------------------------ a broker that nobody disturbs

  /** A broker that goes from its first look to its reconciliation at one moment, on top of a given log. */
  datatype Solo = Solo(base: seq<Comment>, agent: string, now: int, index: nat, order: WorkOrder, policy: Policy)

  function AfterClaim(t: Solo): seq<Comment> {
    t.base + [ClaimComment(t.order.task, t.agent, t.now + LEASE)]
  }

  function AfterOrder(t: Solo): seq<Comment> {
    AfterClaim(t) + [Bare().(orders := [MarkOf(t.order)])]
  }

  /** Each of its checks passes. */
  ghost predicate Smooth(t: Solo) {
    && WinningClaim(t.base, t.now, t.order.task).None?
    && Winner(Claims(AfterClaim(t)), t.now, t.order.task) == Some(t.index)
    && t.index < |Claims(AfterClaim(t)).candidates| && Claims(AfterClaim(t)).candidates[t.index].agent == t.agent
    && t.order.deadline == Some(t.now + DURATION)
    && t.order.generation == NextGeneration(t.order.task, FenceLog(Trusted(AfterClaim(t))))
    && t.order.access == "CLOUD_SECRETLESS" && t.order.reviewedSha.None? && t.order.dispatchRef.None?
    && PolicyFor(t.policy, t.agent, t.order.task)
    && Authorize(t.order, ViewOf(AfterOrder(t), t.now, t.order.task), t.policy, t.now) == Granted(Secretless)
  }

  function SoloPhase(t: Solo, n: nat): Phase {
    var seen := |t.base|;
    if n == 0 then Idle
    else if n == 1 then Looked(seen)
    else if n == 2 then Chosen(t.order.task, t.now)
    else if n == 3 then Claimed(t.order.task)
    else if n == 4 then Reread(t.order.task, seen + 1)
    else Holding(t.order.task, seen + 1, t.now, t.index,
                 if n == 5 then Won
                 else if n == 6 then Made(t.order)
                 else if n == 7 then Ordered(t.order)
                 else if n == 8 then Viewed(t.order, seen + 2)
                 else if n == 9 then Admitted(t.order)
                 else if n == 10 then Stamped(t.order, t.now)
                 else Reconciled(t.order, Reading(seen + 2, t.now, t.policy)))
  }

  function SoloLog(t: Solo, n: nat): seq<Comment> {
    if n < 3 then t.base else if n < 7 then AfterClaim(t) else AfterOrder(t)
  }

  function SoloStep(t: Solo, n: nat): Step {
    if n == 0 then Look(t.agent)
    else if n == 1 then Choose(t.agent, t.order.task, t.now)
    else if n == 2 then PostClaim(t.agent)
    else if n == 3 then ReadBack(t.agent)
    else if n == 4 then CheckWin(t.agent, t.now)
    else if n == 5 then MakeOrder(t.agent, t.order, t.now)
    else if n == 6 then PostOrder(t.agent)
    else if n == 7 then ReadOrders(t.agent)
    else if n == 8 then Admit(t.agent, t.policy, t.now, t.now)
    else if n == 9 then Stamp(t.agent, t.now)
    else Reconcile(t.agent, t.policy)
  }

  function SoloWorld(t: Solo, others: map<string, Phase>, n: nat): World {
    World(SoloLog(t, n), t.now, 0, others[t.agent := SoloPhase(t, n)])
  }

  lemma {:induction false} SoloClaims(t: Solo, others: map<string, Phase>, n: nat)
    requires Smooth(t) && n < 5
    ensures Next(SoloWorld(t, others, n), SoloStep(t, n), SoloWorld(t, others, n + 1))
  {
    hide FoldLog, FirstLive, Trusted, FenceLog, Authorize, ViewOf, Claims, Winner, WinningClaim, NextGeneration,
      Working;
    var w := SoloWorld(t, others, n);
    assert t.base[..|t.base|] == t.base && AfterClaim(t)[..|t.base| + 1] == AfterClaim(t);
    assert w.brokers[t.agent := SoloPhase(t, n + 1)] == others[t.agent := SoloPhase(t, n + 1)];
  }

  lemma {:induction false} SoloWorks(t: Solo, others: map<string, Phase>, n: nat)
    requires Smooth(t) && 5 <= n < 11
    ensures Next(SoloWorld(t, others, n), SoloStep(t, n), SoloWorld(t, others, n + 1))
  {
    hide FoldLog, FirstLive, Trusted, FenceLog, Authorize, ViewOf, Claims, Winner, WinningClaim, NextGeneration,
      Claiming;
    var w := SoloWorld(t, others, n);
    assert AfterClaim(t)[..|t.base| + 1] == AfterClaim(t) && AfterOrder(t)[..|t.base| + 2] == AfterOrder(t);
    assert w.brokers[t.agent := SoloPhase(t, n + 1)] == others[t.agent := SoloPhase(t, n + 1)];
  }

  /** A run that leaves a broker idle goes on with that broker alone, as far as its reconciliation. */
  lemma {:induction false} SoloRun(t: Solo, others: map<string, Phase>, ws: seq<World>, steps: seq<Step>)
    returns (ws': seq<World>, steps': seq<Step>)
    requires Smooth(t) && Run(ws, steps) && ws[|steps|] == SoloWorld(t, others, 0)
    ensures Run(ws', steps') && ws' != [] && ws'[0] == ws[0] && ws'[|steps'|] == SoloWorld(t, others, 11)
  {
    hide Next, Smooth, SoloWorld, SoloStep;
    ws', steps' := ws, steps;
    for n := 0 to 11
      invariant Run(ws', steps') && ws'[0] == ws[0] && ws'[|steps'|] == SoloWorld(t, others, n)
    {
      if n < 5 { SoloClaims(t, others, n); } else { SoloWorks(t, others, n); }
      ws', steps' := ws' + [SoloWorld(t, others, n + 1)], steps' + [SoloStep(t, n)];
    }
  }

  // ------------------------------------------------------------ the first broker

  const ORDER_A := WorkOrder(true, "r", "t", "t-1", 0, "worker", "CLOUD_SECRETLESS", Some(DURATION), "sha", None, None)
  const SOLO_A := Solo([], "a", 0, 0, ORDER_A, Policy({"r"}, {"t"}, "a", {}, {"worker"}))
  const CLAIM_A := Claim("t", "a", LEASE)

  lemma {:induction false} EmptyLog()
    ensures Claims([]) == Fold([], {}) && FenceLog(Trusted([])) == Fences(map[], {}, {})
  {
  }

  lemma {:induction false} LogsOfA()
    ensures Claims(AfterClaim(SOLO_A)) == Claims(AfterOrder(SOLO_A)) == Fold([CLAIM_A], {})
    ensures FenceLog(Trusted(AfterClaim(SOLO_A))) == Fences(map[], {}, {})
    ensures FenceLog(Trusted(AfterOrder(SOLO_A))) == Fences(map["t" := 0], {}, {})
  {
    hide FoldLog, Trusted, FenceLog;
    EmptyLog();
    OneComment([], ClaimComment("t", "a", LEASE));
    OneComment(AfterClaim(SOLO_A), Bare().(orders := [MarkOf(ORDER_A)]));
    OneMark(Fences(map[], {}, {}), MarkOf(ORDER_A));
  }

  lemma {:induction false} OneMark(f: Fences, m: Mark)
    ensures ApplyMarks(f, Bare().(orders := [m])) == f.(latest := Raise(f.latest, m))
  {
    assert [m][..0] == [];
    assert RaiseAll(f.latest, [m]) == Raise(f.latest, m);
    assert Attempts([]) == {};
  }

  lemma {:induction false} SmoothA()
    ensures Smooth(SOLO_A)
  {
    hide FoldLog, Trusted, FenceLog, FirstLive, Claims;
    EmptyLog();
    LogsOfA();
    var f := Claims(AfterClaim(SOLO_A));
    WinnerIs(f, 0, "t", 0);
    NoWinner([], 0, "t");
    OrderGranted(SOLO_A);
  }

  lemma {:induction false} NoWinner(log: seq<Comment>, now: int, task: string)
    requires forall i :: !Live(Claims(log), now, task, i)
    ensures WinningClaim(log, now, task).None?
  {
    hide FirstLive, Claims;
    WinnerInRange(Claims(log), now, task);
  }

  /** Authorised: the claim is the task's first live one and no mark in the log is beyond the order's. */
  lemma {:induction false} OrderGranted(t: Solo)
    requires t.order.schemaOk && t.order.repo in t.policy.repos && t.order.task in t.policy.tasks
    requires t.order.role in t.policy.roles && t.order.deadline == Some(t.now + DURATION)
    requires t.order.access == "CLOUD_SECRETLESS" && t.policy.agent == t.agent
    requires Winner(Claims(AfterOrder(t)), t.now, t.order.task) == Some(t.index)
    requires t.index < |Claims(AfterOrder(t)).candidates| && Claims(AfterOrder(t)).candidates[t.index].agent == t.agent
    requires var f := FenceLog(Trusted(AfterOrder(t)));
             t.order.attempt !in f.terminal && t.order.attempt !in f.cancelled
             && t.order.task in f.latest && f.latest[t.order.task] <= t.order.generation
    ensures Authorize(t.order, ViewOf(AfterOrder(t), t.now, t.order.task), t.policy, t.now) == Granted(Secretless)
  {
    hide Claims, FirstLive, FenceLog, Trusted;
    WinnerIs(Claims(AfterOrder(t)), t.now, t.order.task, t.index);
  }

  /** One broker alone comes as far as its reconciliation. */
  lemma {:induction false} ReconciledRun() returns (ws: seq<World>, steps: seq<Step>)
    ensures Run(ws, steps) && ws[0].log == []
    ensures ws[|steps|] == SoloWorld(SOLO_A, map["b" := Idle], 11)
  {
    hide Next, Smooth;
    SmoothA();
    ws, steps := SoloRun(SOLO_A, map["b" := Idle], [SoloWorld(SOLO_A, map["b" := Idle], 0)], []);
  }

  /** So there is a run in which a cancelled order is pushed and its pull request opened. */
  lemma {:induction false} CancelledYetPublished() returns (ws: seq<World>, steps: seq<Step>, m: nat, o: WorkOrder)
    ensures Run(ws, steps) && m + 1 < |steps| && steps[m] == Push("a") && steps[m + 1] == OpenPull("a")
    ensures Cleared(ws[m], "a") && ws[m].brokers["a"].work.order == o && CancelOf(o) in ws[m].log
            && Fenced(ws[m].log, o)
    ensures Cleared(ws[m + 1], "a") && ws[m + 1].brokers["a"].work.order == o && Fenced(ws[m + 1].log, o)
  {
    hide Next, Fenced;
    var ws0, steps0 := ReconciledRun();
    o := ORDER_A;
    ws, steps := CancelledTooLate(ws0, steps0, "a");
    m := |steps0| + 1;
  }

  // ------------------------------------------------------------ two brokers publish one task

  const LAPSED := 130
  const ORDER_B := ORDER_A.(attempt := "t-2", generation := 1, deadline := Some(LAPSED + DURATION))
  const SOLO_B := Solo(AfterOrder(SOLO_A), "b", LAPSED, 1, ORDER_B, Policy({"r"}, {"t"}, "b", {}, {"worker"}))
  const CLAIM_B := Claim("t", "b", LAPSED + LEASE)

  lemma {:induction false} LogsOfB()
    ensures Claims(AfterClaim(SOLO_B)) == Claims(AfterOrder(SOLO_B)) == Fold([CLAIM_A, CLAIM_B], {})
    ensures FenceLog(Trusted(AfterClaim(SOLO_B))) == Fences(map["t" := 0], {}, {})
    ensures FenceLog(Trusted(AfterOrder(SOLO_B))) == Fences(map["t" := 1], {}, {})
  {
    hide FoldLog, Trusted, FenceLog, AfterOrder;
    LogsOfA();
    OneComment(AfterOrder(SOLO_A), ClaimComment("t", "b", LAPSED + LEASE));
    OneComment(AfterClaim(SOLO_B), Bare().(orders := [MarkOf(ORDER_B)]));
    assert AfterOrder(SOLO_B) == AfterClaim(SOLO_B) + [Bare().(orders := [MarkOf(ORDER_B)])] by { OrderLast(SOLO_B); }
    OneMark(Fences(map["t" := 0], {}, {}), MarkOf(ORDER_B));
  }

  lemma {:induction false} OrderLast(t: Solo)
    ensures AfterOrder(t) == AfterClaim(t) + [Bare().(orders := [MarkOf(t.order)])]
  {
  }

  lemma {:induction false} SmoothB()
    ensures Smooth(SOLO_B)
  {
    hide FoldLog, Trusted, FenceLog, FirstLive, Claims, AfterOrder, AfterClaim;
    LogsOfA();
    LogsOfB();
    WinnerIs(Claims(AfterClaim(SOLO_B)), LAPSED, "t", 1);
    NoWinner(AfterOrder(SOLO_A), LAPSED, "t");
    OrderGranted(SOLO_B);
  }

  /** A broker past its reconciliation may push and open its pull request, whatever stands in the log by then. */
  lemma {:induction false} Publishing(ws: seq<World>, steps: seq<Step>, a: string)
    returns (ws': seq<World>, steps': seq<Step>)
    requires Run(ws, steps) && WorkOf(ws[|steps|], a).Some? && WorkOf(ws[|steps|], a).value.Reconciled?
    ensures var k := ws[|steps|].brokers[a].work;
            && Run(ws', steps') && ws'[0] == ws[0]
            && ws'[|steps'|] == SetWork(ws[|steps|], a, Published(k.order, k.reading))
  {
    var w := ws[|steps|];
    var k := w.brokers[a].work;
    var w1 := SetWork(w, a, Pushed(k.order, k.reading));
    var w2 := SetWork(w, a, Published(k.order, k.reading));
    assert w2 == SetWork(w1, a, Published(k.order, k.reading));
    ws', steps' := ws + [w1] + [w2], steps + [Push(a)] + [OpenPull(a)];
  }

  /** Broker `a` has opened a pull request for the task. */
  ghost predicate PublishedTask(w: World, a: string, task: string) {
    var k := WorkOf(w, a); k.Some? && k.value.Published? && k.value.order.task == task
  }

  const RECONCILED_A := SoloPhase(SOLO_A, 11)
  const RECONCILED_B := SoloPhase(SOLO_B, 11)

  lemma {:induction false} LapsesBetween(ws: seq<World>, steps: seq<Step>)
    requires Run(ws, steps) && ws[|steps|] == SoloWorld(SOLO_A, map["b" := Idle], 11)
    ensures Run(ws + [SoloWorld(SOLO_B, map["a" := RECONCILED_A], 0)], steps + [Tick(LAPSED)])
  {
    hide AfterOrder;
    var w, w' := ws[|steps|], SoloWorld(SOLO_B, map["a" := RECONCILED_A], 0);
    assert w'.brokers == w.brokers;
  }

  /** A lease that lapses between reconciliation and push: both brokers open a pull request for one task. */
  lemma {:induction false} TwoPublishOneTask() returns (ws: seq<World>, steps: seq<Step>)
    ensures Run(ws, steps) && ws[0].log == []
    ensures BothHold(ws[|steps|], "a", "b", "t")
    ensures PublishedTask(ws[|steps|], "a", "t") && PublishedTask(ws[|steps|], "b", "t")
    ensures ws[|steps|].log == AfterOrder(SOLO_B) && ws[|steps|].clock == LAPSED && ws[|steps|].skew == 0
    ensures ws[|steps|].brokers["a"].index == 0 && ws[|steps|].brokers["b"].index == 1
  {
    hide Next, Smooth, AfterOrder, AfterClaim;
    var others := map["a" := RECONCILED_A];
    ws, steps := ReconciledRun();
    LapsesBetween(ws, steps);
    ws, steps := ws + [SoloWorld(SOLO_B, others, 0)], steps + [Tick(LAPSED)];
    SmoothB();
    ws, steps := SoloRun(SOLO_B, others, ws, steps);
    ws, steps := Publishing(ws, steps, "a");
    ws, steps := Publishing(ws, steps, "b");
  }

  // ------------------------------------------------------------ two live claims on one task

  /** `g` differs from `f` only in releases of later claims of this agent for the task. */
  ghost predicate OnlyNewerReleased(f: Fold, g: Fold, task: string, agent: string, i: nat) {
    && g.candidates == f.candidates && f.released <= g.released
    && forall k :: k in g.released && k !in f.released ==> i < k && Open(f, k, task, agent)
  }

  /** A release of a newer claim brings the newest open one down, not past `i`. */
  lemma {:induction false} ReleaseOne(f: Fold, task: string, agent: string, i: nat, m: nat)
    requires NewestOpen(f, task, agent, |f.candidates|) == Some(m) && Open(f, i, task, agent) && i != m
    ensures var g := ApplyRelease(f, Release(task, agent)); var r := NewestOpen(g, task, agent, |g.candidates|);
            && g == f.(released := f.released + {m}) && Open(g, i, task, agent) && Open(f, m, task, agent)
            && r.Some? && i <= r.value < m
  {
    hide NewestOpen;
    NewestOpenIs(f, task, agent, |f.candidates|);
    var g := ApplyRelease(f, Release(task, agent));
    NewestOpenIs(g, task, agent, |g.candidates|);
    assert Open(g, i, task, agent);
    forall k | m <= k < |f.candidates| ensures !Open(g, k, task, agent) {
      assert k > m ==> !Open(f, k, task, agent);
    }
  }

  /** Enough releases make an unreleased claim its agent's newest open one again. */
  lemma {:induction false} ReleasesReach(f: Fold, task: string, agent: string, i: nat) returns (rs: seq<Release>)
    requires Open(f, i, task, agent)
    ensures var g := ApplyReleases(f, rs);
            NewestOpen(g, task, agent, |g.candidates|) == Some(i) && OnlyNewerReleased(f, g, task, agent, i)
  {
    hide NewestOpen, ApplyRelease;
    rs := [];
    var g := f;
    NewestOpenIs(g, task, agent, |g.candidates|);
    while NewestOpen(g, task, agent, |g.candidates|) != Some(i)
      invariant g == ApplyReleases(f, rs) && OnlyNewerReleased(f, g, task, agent, i) && Open(g, i, task, agent)
      invariant NewestOpen(g, task, agent, |g.candidates|).Some?
      invariant i <= NewestOpen(g, task, agent, |g.candidates|).value < |g.candidates|
      decreases NewestOpen(g, task, agent, |g.candidates|).value
    {
      ReleaseOne(g, task, agent, i, NewestOpen(g, task, agent, |g.candidates|).value);
      assert (rs + [Release(task, agent)])[..|rs|] == rs;
      rs := rs + [Release(task, agent)];
      g := ApplyRelease(g, Release(task, agent));
    }
  }

  /** One comment gives an unreleased claim a new lease and leaves other agents' claims alone. */
  lemma {:induction false} Revive(f: Fold, task: string, agent: string, i: nat, lease: int) returns (c: Comment)
    requires Open(f, i, task, agent)
    ensures c.trusted
    ensures var g := ApplyComment(f, c);
            && |g.candidates| == |f.candidates| && i !in g.released
            && g.candidates[i] == f.candidates[i].(lease := lease)
            && forall k :: 0 <= k < |f.candidates| && f.candidates[k].agent != agent ==>
                 g.candidates[k] == f.candidates[k] && (k in g.released <==> k in f.released)
  {
    var rs := ReleasesReach(f, task, agent, i);
    c := Bare().(releases := rs, renews := [Renew(task, agent, Some(lease))]);
    OneDirective(ApplyReleases(f, rs), Release(task, agent), Renew(task, agent, Some(lease)));
  }

  ghost predicate Follows(ws: seq<World>, steps: seq<Step>) {
    && |ws| == |steps| + 1
    && forall i, j :: 0 <= i < |steps| && j == i + 1 && j < |ws| ==> Next(ws[i], steps[i], ws[j])
  }

  /** Both claims are live, by every clock. */
  ghost predicate BothLive(w: World, task: string, i: nat, j: nat) {
    Live(Claims(w.log), w.clock + w.skew, task, i) && Live(Claims(w.log), w.clock + w.skew, task, j)
  }

  ghost predicate LeadsToBothLive(ws: seq<World>, steps: seq<Step>, w: World, task: string, i: nat, j: nat) {
    Follows(ws, steps) && ws[0] == w && BothLive(ws[|steps|], task, i, j)
  }

  lemma {:induction false} ContinuationGrows(ws: seq<World>, steps: seq<Step>, m: nat)
    requires Follows(ws, steps) && m < |ws|
    ensures Grows(Claims(ws[0].log), Claims(ws[m].log))
  {
    hide Next, FoldLog, Trusted, HasRelease, HasRenewTo;
    if m > 0 {
      ContinuationGrows(ws, steps, m - 1);
      var log, log' := ws[m - 1].log, ws[m].log;
      StepIsLater(ws[m - 1], steps[m - 1], ws[m]);
      assert log' == log + log'[|log|..];
      TrustedExtends(log, log'[|log|..]);
      ExtensionEffect(Trusted(log), Trusted(log'[|log|..]));
    }
  }

  /** The claim a holder won with, as the whole log shows it. */
  lemma {:induction false} HeldClaim(w: World, a: string)
    requires a in w.brokers && w.brokers[a].Holding? && WonHonestly(w, a, w.brokers[a])
    ensures var p := w.brokers[a]; var f := Claims(w.log);
            p.index < |f.candidates| && f.candidates[p.index].agent == a && f.candidates[p.index].task == p.task
  {
    hide Trusted, FoldLog, FirstLive, HasRelease, HasRenewTo;
    var p := w.brokers[a];
    assert w.log[..|w.log|] == w.log && w.log[p.seen..|w.log|] == w.log[p.seen..];
    TrustedBetween(w.log, p.seen, |w.log|);
    ExtensionEffect(Trusted(w.log[..p.seen]), Trusted(w.log[p.seen..]));
    WinnerIs(Claims(w.log[..p.seen]), p.now, p.task, p.index);
  }

  /** Two comments by anyone give both claims of two holders time again. */
  lemma {:induction false} RevivedBoth(w: World, a: string, b: string, task: string)
    returns (c: Comment, d: Comment)
    requires a != b && BothHold(w, a, b, task)
    requires WonHonestly(w, a, w.brokers[a]) && WonHonestly(w, b, w.brokers[b])
    requires w.brokers[a].index !in Claims(w.log).released && w.brokers[b].index !in Claims(w.log).released
    ensures BothLive(Post(Post(w, c), d), task, w.brokers[a].index, w.brokers[b].index)
  {
    hide Claims, ApplyComment;
    var i, j, lease := w.brokers[a].index, w.brokers[b].index, w.clock + w.skew + 1;
    HeldClaim(w, a);
    HeldClaim(w, b);
    c := Revive(Claims(w.log), task, a, i, lease);
    OneComment(w.log, c);
    d := Revive(Claims(w.log + [c]), task, b, j, lease);
    OneComment(w.log + [c], d);
  }

  /** The claims of two holders of one task can both come to be live exactly if neither has been released. */
  lemma {:induction false} BothCanLiveIff(w: World, a: string, b: string, task: string)
    requires a != b && BothHold(w, a, b, task)
    requires WonHonestly(w, a, w.brokers[a]) && WonHonestly(w, b, w.brokers[b])
    ensures (exists ws, steps :: LeadsToBothLive(ws, steps, w, task, w.brokers[a].index, w.brokers[b].index)) <==>
              w.brokers[a].index !in Claims(w.log).released && w.brokers[b].index !in Claims(w.log).released
  {
    hide Claims, WonHonestly;
    var i, j := w.brokers[a].index, w.brokers[b].index;
    if i !in Claims(w.log).released && j !in Claims(w.log).released {
      var c, d := RevivedBoth(w, a, b, task);
      var ws, steps := [w, Post(w, c), Post(Post(w, c), d)], [Foreign(c), Foreign(d)];
      assert LeadsToBothLive(ws, steps, w, task, i, j);
    } else {
      forall ws, steps ensures !LeadsToBothLive(ws, steps, w, task, i, j) {
        if LeadsToBothLive(ws, steps, w, task, i, j) {
          HeldStayReleased(ws, steps, w, a, b, task);
        }
      }
    }
  }

  lemma {:induction false} HeldStayReleased(ws: seq<World>, steps: seq<Step>, w: World, a: string, b: string,
                                            task: string)
    requires a != b && BothHold(w, a, b, task) && Follows(ws, steps) && ws[0] == w
    requires WonHonestly(w, a, w.brokers[a]) && WonHonestly(w, b, w.brokers[b])
    requires w.brokers[a].index in Claims(w.log).released || w.brokers[b].index in Claims(w.log).released
    ensures !BothLive(ws[|steps|], task, w.brokers[a].index, w.brokers[b].index)
  {
    hide Next, Claims, WonHonestly;
    ContinuationGrows(ws, steps, |steps|);
  }

  /** In that run the first broker's lapsed claim is renewed: two agents hold live claims on one task and have both
      published it. */
  lemma {:induction false} TwoLiveClaims() returns (ws: seq<World>, steps: seq<Step>)
    ensures Run(ws, steps) && ws[0].log == []
    ensures BothHold(ws[|steps|], "a", "b", "t")
    ensures StillLive(ws[|steps|], ws[|steps|].brokers["a"]) && StillLive(ws[|steps|], ws[|steps|].brokers["b"])
    ensures PublishedTask(ws[|steps|], "a", "t") && PublishedTask(ws[|steps|], "b", "t")
  {
    hide Next, AfterOrder, Claims, FoldLog, Trusted, ApplyComment;
    ws, steps := TwoPublishOneTask();
    var w := ws[|steps|];
    var c := Bare().(renews := [Renew("t", "a", Some(LAPSED + DURATION))]);
    LogsOfB();
    OneComment(w.log, c);
    RenewsA(c);
    ForeignStep(w, c);
    ws, steps := ws + [Post(w, c)], steps + [Foreign(c)];
  }

  lemma {:induction false} RenewsA(c: Comment)
    requires c == Bare().(renews := [Renew("t", "a", Some(LAPSED + DURATION))])
    ensures ApplyComment(Fold([CLAIM_A, CLAIM_B], {}), c) ==
            Fold([CLAIM_A.(lease := LAPSED + DURATION), CLAIM_B], {})
  {
    hide NewestOpen;
    NewestOpenIs(Fold([CLAIM_A, CLAIM_B], {}), "t", "a", 2);
    OneDirective(Fold([CLAIM_A, CLAIM_B], {}), Release("", ""), c.renews[0]);
    assert Open(Fold([CLAIM_A, CLAIM_B], {}), 0, "t", "a");
  }

  lemma {:induction false} ForeignStep(w: World, c: Comment)
    ensures Next(w, Foreign(c), Post(w, c))
  {
  }
}
