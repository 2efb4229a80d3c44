/** Runs of many brokers over one shared comment log.

    `run_once` is split at every read of the log, every reading of a clock, every post and
    every publishing command. The steps of all brokers, foreign comments, time and aborted
    runs interleave freely. Each broker reads its own clock, at most `skew` off true time. */
module BrokerRuns {
  import opened Basics
  import opened ClaimLedger
  import opened WorkOrders

  const LEASE := 120
  const DURATION := 60

  datatype Phase =
    | Idle
    | Looked(seen: nat)
    | Chosen(task: string, at: int)
    | Claimed(task: string)
    | Reread(task: string, seen: nat)
    | Holding(task: string, seen: nat, now: int, index: nat, work: Work)

  /** What `reconcile_before_publication` went by: how much of the log, which clock, which policy. */
  datatype Reading = Reading(seen: nat, at: int, policy: Policy)

  datatype Work =
    | Won
    | Made(order: WorkOrder)
    | Ordered(order: WorkOrder)
    | Viewed(order: WorkOrder, seen: nat)
    | Admitted(order: WorkOrder)
    | Stamped(order: WorkOrder, at: int)
    | Reconciled(order: WorkOrder, reading: Reading)
    | Pushed(order: WorkOrder, reading: Reading)
    | Published(order: WorkOrder, reading: Reading)
    | Failed(order: WorkOrder)
    | Closing(order: WorkOrder)

  datatype World = World(log: seq<Comment>, clock: int, skew: nat, brokers: map<string, Phase>)

  datatype Step =
    | Tick(to: int)
    | Foreign(comment: Comment)
    | Look(agent: string)
    | Choose(agent: string, task: string, now: int)
    | PostClaim(agent: string)
    | ReadBack(agent: string)
    | CheckWin(agent: string, now: int)
    | MakeOrder(agent: string, order: WorkOrder, now: int)
    | PostOrder(agent: string)
    | ReadOrders(agent: string)
    | Admit(agent: string, policy: Policy, parsedAt: int, now: int)
    | Stamp(agent: string, now: int)
    | Reconcile(agent: string, policy: Policy)
    | Push(agent: string)
    | OpenPull(agent: string)
    | Fail(agent: string)
    | PostDone(agent: string)
    | PostRelease(agent: string)
    | Abort(agent: string)

  function Bare(): Comment {
    Comment(true, [], [], None, [], [], [])
  }

  function ClaimComment(task: string, agent: string, lease: int): Comment {
    Bare().(claim := Some(Claim(task, agent, lease)))
  }

  function MarkOf(w: WorkOrder): Mark {
    Mark(w.task, w.attempt, w.generation)
  }

  function Put(w: World, a: string, p: Phase): World {
    w.(brokers := w.brokers[a := p])
  }

  function Post(w: World, c: Comment): World {
    w.(log := w.log + [c])
  }

  /** A reading that some broker's clock may give. */
  predicate Near(w: World, now: int) {
    w.clock - w.skew <= now <= w.clock + w.skew
  }

  /** The policy `run_local_codex_task` and the reconciliation build for a task. */
  predicate PolicyFor(policy: Policy, a: string, task: string) {
    policy.agent == a && policy.tasks == {task} && policy.dispatchRefs == {}
  }

  function WorkOf(w: World, a: string): Option<Work> {
    if a in w.brokers && w.brokers[a].Holding? then Some(w.brokers[a].work) else None
  }

  function SetWork(w: World, a: string, work: Work): World
    requires WorkOf(w, a).Some?
  {
    Put(w, a, w.brokers[a].(work := work))
  }

  /** One atomic action of `run_once`, of time, or of anyone else who can comment. */
  ghost predicate Next(w: World, s: Step, w': World) {
    if s.Tick? then w.clock <= s.to && w' == w.(clock := s.to)
    else if s.Foreign? then w' == Post(w, s.comment)
    else if s.Abort? then s.agent in w.brokers && w' == Put(w, s.agent, Idle)
    else if ClaimStep(s) then Claiming(w, s, w')
    else Working(w, s, w')
  }

  predicate ClaimStep(s: Step) {
    s.Look? || s.Choose? || s.PostClaim? || s.ReadBack? || s.CheckWin?
  }

  /** From the first look at the queue to the win check. */
  ghost predicate Claiming(w: World, s: Step, w': World)
    requires ClaimStep(s)
  {
    s.agent in w.brokers &&
    var a := s.agent; var p := w.brokers[a];
    match s
    case Look(_) => p.Idle? && w' == Put(w, a, Looked(|w.log|))
    case Choose(_, t, now) =>
      && p.Looked? && p.seen <= |w.log| && Near(w, now)
      && WinningClaim(w.log[..p.seen], now, t).None?
      && w' == Put(w, a, Chosen(t, now))
    case PostClaim(_) => p.Chosen? && w' == Put(Post(w, ClaimComment(p.task, a, p.at + LEASE)), a, Claimed(p.task))
    case ReadBack(_) => p.Claimed? && w' == Put(w, a, Reread(p.task, |w.log|))
    case CheckWin(_, now) =>
      && p.Reread? && p.seen <= |w.log| && Near(w, now)
      && var f := Claims(w.log[..p.seen]); var winning := Winner(f, now, p.task);
         w' == Put(w, a,
                   if winning.Some? && winning.value < |f.candidates| && f.candidates[winning.value].agent == a
                   then Holding(p.task, p.seen, now, winning.value, Won) else Idle)
  }

  /** From making the work order to releasing the claim. */
  ghost predicate Working(w: World, s: Step, w': World)
    requires !s.Tick? && !s.Foreign?
  {
    var a := s.agent;
    WorkOf(w, a).Some? &&
    var p := w.brokers[a]; var k := p.work;
    match s
    case MakeOrder(_, o, now) =>
      && k.Won? && p.seen <= |w.log| && Near(w, now)
      && o.task == p.task && o.deadline == Some(now + DURATION)
      && o.generation == NextGeneration(p.task, FenceLog(Trusted(w.log[..p.seen])))
      && o.access == "CLOUD_SECRETLESS" && o.reviewedSha.None? && o.dispatchRef.None?
      && w' == SetWork(w, a, Made(o))
    case PostOrder(_) => k.Made? && w' == SetWork(Post(w, Bare().(orders := [MarkOf(k.order)])), a, Ordered(k.order))
    case ReadOrders(_) => k.Ordered? && w' == SetWork(w, a, Viewed(k.order, |w.log|))
    case Admit(_, policy, parsedAt, now) =>
      && k.Viewed? && k.seen <= |w.log| && Near(w, parsedAt) && Near(w, now) && PolicyFor(policy, a, p.task)
      && var granted := Authorize(k.order, ViewOf(w.log[..k.seen], parsedAt, k.order.task), policy, now) ==
        Granted(Secretless);
         w' == SetWork(w, a, if granted then Admitted(k.order) else Failed(k.order))
    case Stamp(_, now) => k.Admitted? && Near(w, now) && w' == SetWork(w, a, Stamped(k.order, now))
    case Reconcile(_, policy) =>
      && k.Stamped? && PolicyFor(policy, a, p.task)
      && var granted := Authorize(k.order, ViewOf(w.log, k.at, k.order.task), policy, k.at) == Granted(Secretless);
         w' == SetWork(w, a, if granted then Reconciled(k.order, Reading(|w.log|, k.at, policy)) else Failed(k.order))
    case Push(_) => k.Reconciled? && w' == SetWork(w, a, Pushed(k.order, k.reading))
    case OpenPull(_) => k.Pushed? && w' == SetWork(w, a, Published(k.order, k.reading))
    case Fail(_) => (k.Admitted? || k.Reconciled? || k.Pushed?) && w' == SetWork(w, a, Failed(k.order))
    case PostDone(_) =>
      (k.Published? || k.Failed?) && w' == SetWork(Post(w, Bare().(dones := [MarkOf(k.order)])), a, Closing(k.order))
    case PostRelease(_) => k.Closing? && w' == Put(Post(w, Bare().(releases := [Release(p.task, a)])), a, Idle)
    case _ => false
  }

  ghost predicate Init(w: World) {
    forall a :: a in w.brokers ==> w.brokers[a].Idle?
  }

  ghost predicate Run(ws: seq<World>, steps: seq<Step>) {
    && |ws| == |steps| + 1
    && Init(ws[0])
    && forall i, j :: 0 <= i < |steps| && j == i + 1 && j < |ws| ==> Next(ws[i], steps[i], ws[j])
  }

  // ------------------------------------------------------------ what every run keeps

  /** What a broker past the win check saw stays true of the log prefix it read. */
  ghost predicate WonHonestly(w: World, a: string, p: Phase) {
    && (p.Looked? || p.Reread? ==> p.seen <= |w.log|)
    && (p.Holding? ==>
          && p.seen <= |w.log| && p.now <= w.clock + w.skew
          && Winner(Claims(w.log[..p.seen]), p.now, p.task) == Some(p.index)
          && p.index < |Claims(w.log[..p.seen]).candidates|
          && Claims(w.log[..p.seen]).candidates[p.index].agent == a)
  }

  ghost predicate Honest(w: World) {
    forall a :: a in w.brokers ==> WonHonestly(w, a, w.brokers[a])
  }

  /** The log only grows and time never goes back. */
  ghost predicate Later(w: World, w': World) {
    |w.log| <= |w'.log| && w'.log[..|w.log|] == w.log && w.clock <= w'.clock && w'.skew == w.skew
  }

  lemma {:induction false} StepIsLater(w: World, s: Step, w': World)
    ensures Next(w, s, w') ==> Later(w, w')
  {
    hide Claims, Winner, WinningClaim, Authorize, FenceLog, Trusted, NextGeneration;
  }

  lemma {:induction false} PrefixOfPrefix(log: seq<Comment>, log': seq<Comment>, n: nat)
    requires n <= |log| <= |log'| && log'[..|log|] == log
    ensures log'[..n] == log[..n]
  {
    assert log'[..n] == log'[..|log|][..n];
  }

  lemma {:induction false} HonestStays(w: World, w': World, a: string, p: Phase)
    requires WonHonestly(w, a, p) && Later(w, w')
    ensures WonHonestly(w', a, p)
  {
    hide Claims, Winner;
    if p.Holding? { PrefixOfPrefix(w.log, w'.log, p.seen); }
  }

  lemma {:induction false} MovedHonestly(w: World, s: Step, w': World, a: string)
    requires Honest(w) && Next(w, s, w') && a in w'.brokers
    requires a !in w.brokers || w.brokers[a] != w'.brokers[a]
    ensures WonHonestly(w', a, w'.brokers[a])
  {
    hide Claims, Winner, WinningClaim, Authorize, ViewOf, FenceLog, Trusted, NextGeneration;
    StepIsLater(w, s, w');
    if a in w.brokers {
      assert WonHonestly(w, a, w.brokers[a]);
      HonestStays(w, w', a, w.brokers[a]);
    }
  }

  lemma {:induction false} StepKeepsHonest(w: World, s: Step, w': World)
    requires Honest(w) && Next(w, s, w')
    ensures Honest(w')
  {
    hide Next, WonHonestly, Later;
    StepIsLater(w, s, w');
    forall a | a in w'.brokers ensures WonHonestly(w', a, w'.brokers[a]) {
      if a in w.brokers && w.brokers[a] == w'.brokers[a] {
        HonestStays(w, w', a, w.brokers[a]);
      } else {
        MovedHonestly(w, s, w', a);
      }
    }
  }

  lemma {:induction false} RunIsHonest(ws: seq<World>, steps: seq<Step>, k: nat)
    requires Run(ws, steps) && k < |ws|
    ensures Honest(ws[k])
  {
    hide Next;
    if k > 0 {
      RunIsHonest(ws, steps, k - 1);
      StepKeepsHonest(ws[k - 1], steps[k - 1], ws[k]);
    }
  }

  lemma {:induction false} RunIsLater(ws: seq<World>, steps: seq<Step>, k: nat, m: nat)
    requires Run(ws, steps) && k <= m < |ws|
    ensures Later(ws[k], ws[m])
    decreases m
  {
    hide Next;
    if k < m {
      RunIsLater(ws, steps, k, m - 1);
      StepIsLater(ws[m - 1], steps[m - 1], ws[m]);
      PrefixOfPrefix(ws[m - 1].log, ws[m].log, |ws[k].log|);
    }
  }

  // ------------------------------------------------------------ separation and exclusion

  ghost predicate BothHold(w: World, a: string, b: string, task: string) {
    && a in w.brokers && w.brokers[a].Holding? && w.brokers[a].task == task
    && b in w.brokers && w.brokers[b].Holding? && w.brokers[b].task == task
  }

  lemma {:induction false} TrustedBetween(log: seq<Comment>, n: nat, m: nat)
    requires n <= m <= |log|
    ensures Trusted(log[..m]) == Trusted(log[..n]) + Trusted(log[n..m])
  {
    TrustedExtends(log[..n], log[n..m]);
    assert log[..m] == log[..n] + log[n..m];
  }

  /** In every run, two brokers holding one task won on either side of a release, a lapse or a revival. */
  lemma {:induction false} HoldersAreSeparated(ws: seq<World>, steps: seq<Step>, k: nat, a: string, b: string,
                                               task: string)
    requires Run(ws, steps) && k < |ws| && a != b && BothHold(ws[k], a, b, task)
    requires ws[k].brokers[a].seen <= ws[k].brokers[b].seen <= |ws[k].log|
    ensures var p, q := ws[k].brokers[a], ws[k].brokers[b];
            var log := Trusted(ws[k].log[..p.seen]);
            var e := Trusted(ws[k].log[p.seen..q.seen]);
            ReleasedSince(log, e, p.index) || LapsedBy(log + e, q.now, p.index)
              || RevivedBefore(log, e, task, p.index, p.now, q.now)
  {
    hide Next, Trusted, FoldLog, FirstLive, ReleasedSince, LapsedBy, RevivedBefore;
    RunIsHonest(ws, steps, k);
    var w := ws[k];
    var p, q := w.brokers[a], w.brokers[b];
    assert WonHonestly(w, a, p) && WonHonestly(w, b, q);
    TrustedBetween(w.log, p.seen, q.seen);
    TwoWinnersAreSeparated(Trusted(w.log[..p.seen]), Trusted(w.log[p.seen..q.seen]), task, p.now, q.now, p.index,
                           q.index);
  }

  /** The claim a broker won with is live in the log of `w`, by every clock. */
  ghost predicate StillLive(w: World, p: Phase)
    requires p.Holding?
  {
    Live(Claims(w.log), w.clock + w.skew, p.task, p.index)
  }

  /** If the claims of two holders are both live at once, the earlier claim had lapsed when the later holder won and
      was renewed afterwards. */
  lemma {:induction false} BothLiveMeansRenewed(ws: seq<World>, steps: seq<Step>, k: nat, a: string, b: string,
                                                task: string)
    requires Run(ws, steps) && k < |ws| && a != b && BothHold(ws[k], a, b, task)
    requires ws[k].brokers[a].index < ws[k].brokers[b].index
    requires StillLive(ws[k], ws[k].brokers[a]) && StillLive(ws[k], ws[k].brokers[b])
    requires ws[k].brokers[b].seen <= |ws[k].log|
    ensures var w := ws[k]; var q := w.brokers[b]; var i := w.brokers[a].index;
            && LapsedBy(Trusted(w.log[..q.seen]), q.now, i)
            && HasRenewTo(Trusted(w.log[q.seen..]), task, Claims(w.log).candidates[i].agent,
                          Claims(w.log).candidates[i].lease)
  {
    hide Next, Trusted, FoldLog, FirstLive, HasRenewTo, HasRelease;
    RunIsHonest(ws, steps, k);
    var w := ws[k];
    var p, q := w.brokers[a], w.brokers[b];
    assert WonHonestly(w, b, q);
    assert w.log[..|w.log|] == w.log && w.log[q.seen..|w.log|] == w.log[q.seen..];
    TrustedBetween(w.log, q.seen, |w.log|);
    var log, e := Trusted(w.log[..q.seen]), Trusted(w.log[q.seen..]);
    ExtensionEffect(log, e);
    WinnerIs(FoldLog(log), q.now, task, q.index);
    assert !Live(FoldLog(log), q.now, task, p.index);
  }

  lemma {:induction false} SameClaimSameAgent(ws: seq<World>, steps: seq<Step>, k: nat, a: string, b: string,
                                              task: string)
    requires Run(ws, steps) && k < |ws| && BothHold(ws[k], a, b, task)
    requires ws[k].brokers[a].index == ws[k].brokers[b].index
    ensures a == b
  {
    hide Next, Trusted, FoldLog, FirstLive;
    RunIsHonest(ws, steps, k);
    var w := ws[k];
    var p, q := w.brokers[a], w.brokers[b];
    assert WonHonestly(w, a, p) && WonHonestly(w, b, q);
    AgentIsFixed(w.log, p.seen, p.index);
    AgentIsFixed(w.log, q.seen, q.index);
  }

  lemma {:induction false} AgentIsFixed(log: seq<Comment>, n: nat, i: nat)
    requires n <= |log| && i < |Claims(log[..n]).candidates|
    ensures i < |Claims(log).candidates| && Claims(log).candidates[i].agent == Claims(log[..n]).candidates[i].agent
  {
    hide Trusted, FoldLog;
    assert log[..|log|] == log && log[n..|log|] == log[n..];
    TrustedBetween(log, n, |log|);
    ExtensionEffect(Trusted(log[..n]), Trusted(log[n..]));
  }

  /** No comment from position `n` on renews a claim on the task. */
  ghost predicate NeverRenewed(log: seq<Comment>, n: nat, task: string) {
    forall k, r :: n <= k < |log| && r in log[k].renews ==> r.task != task
  }

  lemma {:induction false} TrustedMembers(log: seq<Comment>)
    ensures forall c :: c in Trusted(log) ==> c in log
  {
    if log != [] {
      TrustedMembers(log[..|log| - 1]);
      assert log == log[..|log| - 1] + [log[|log| - 1]];
    }
  }

  lemma {:induction false} NoRenewMeansNone(log: seq<Comment>, n: nat, task: string, agent: string, lease: int)
    requires n <= |log| && NeverRenewed(log, n, task)
    ensures !HasRenewTo(Trusted(log[n..]), task, agent, lease)
  {
    hide Trusted;
    TrustedMembers(log[n..]);
    forall k | 0 <= k < |Trusted(log[n..])| ensures !RenewsTo(Trusted(log[n..])[k].renews, task, agent, lease) {
      var c := Trusted(log[n..])[k];
      assert c in log[n..];
      var j :| 0 <= j < |log[n..]| && log[n..][j] == c;
      assert log[n + j] == c;
    }
  }

  /** Mutual exclusion: with no renewal since both read the log, no two holders' claims are live at once. */
  lemma {:induction false} MutualExclusion(ws: seq<World>, steps: seq<Step>, k: nat, a: string, b: string, task: string)
    requires Run(ws, steps) && k < |ws| && BothHold(ws[k], a, b, task)
    requires NeverRenewed(ws[k].log, ws[k].brokers[a].seen, task)
             && NeverRenewed(ws[k].log, ws[k].brokers[b].seen, task)
    requires StillLive(ws[k], ws[k].brokers[a]) && StillLive(ws[k], ws[k].brokers[b])
    ensures a == b
  {
    hide Run, Next, StillLive, Claims, HasRenewTo, NeverRenewed;
    var w := ws[k];
    var p, q := w.brokers[a], w.brokers[b];
    SeenInLog(ws, steps, k, a);
    SeenInLog(ws, steps, k, b);
    if a != b {
      if p.index == q.index {
        SameClaimSameAgent(ws, steps, k, a, b, task);
      } else if p.index < q.index {
        BothLiveMeansRenewed(ws, steps, k, a, b, task);
        NoRenewMeansNone(w.log, q.seen, task, LiveAgent(w, p), LiveLease(w, p));
      } else {
        BothLiveMeansRenewed(ws, steps, k, b, a, task);
        NoRenewMeansNone(w.log, p.seen, task, LiveAgent(w, q), LiveLease(w, q));
      }
    }
  }

  ghost function LiveAgent(w: World, p: Phase): string
    requires p.Holding? && StillLive(w, p)
  {
    Claims(w.log).candidates[p.index].agent
  }

  ghost function LiveLease(w: World, p: Phase): int
    requires p.Holding? && StillLive(w, p)
  {
    Claims(w.log).candidates[p.index].lease
  }

  lemma {:induction false} SeenInLog(ws: seq<World>, steps: seq<Step>, k: nat, a: string)
    requires Run(ws, steps) && k < |ws| && a in ws[k].brokers && ws[k].brokers[a].Holding?
    ensures ws[k].brokers[a].seen <= |ws[k].log|
  {
    hide Next, Winner, Claims;
    RunIsHonest(ws, steps, k);
    assert WonHonestly(ws[k], a, ws[k].brokers[a]);
  }

  // ------------------------------------------------------------ runs of brokers alone

  ghost predicate BrokersOnly(steps: seq<Step>) {
    forall i :: 0 <= i < |steps| ==> !steps[i].Foreign?
  }

  /** No comment from position `n` on releases a claim of agent `a`. */
  ghost predicate NeverReleased(log: seq<Comment>, n: nat, a: string) {
    forall k, r :: n <= k < |log| && r in log[k].releases ==> r.agent != a
  }

  /** A broker past its re-read has read at least the first `base` comments and has released nothing since. */
  ghost predicate Unreleased(w: World, base: nat, a: string, p: Phase) {
    (p.Reread? || p.Holding?) ==> base <= p.seen && NeverReleased(w.log, p.seen, a)
  }

  ghost predicate Alone(w: World, base: nat) {
    && base <= |w.log|
    && (forall k :: base <= k < |w.log| ==> w.log[k].renews == [])
    && (forall a :: a in w.brokers ==> Unreleased(w, base, a, w.brokers[a]))
  }

  /** A broker never renews, and releases only under its own name, ending idle. */
  lemma {:induction false} StepPosts(w: World, s: Step, w': World)
    requires Next(w, s, w') && !s.Foreign?
    ensures w'.log == w.log || (|w'.log| == |w.log| + 1 && w'.log[|w.log|].renews == [])
    ensures forall r :: w'.log != w.log && r in w'.log[|w.log|].releases ==>
              s.PostRelease? && r.agent == s.agent && s.agent in w'.brokers && w'.brokers[s.agent].Idle?
  {
    hide Claims, Winner, WinningClaim, Authorize, ViewOf, FenceLog, Trusted, NextGeneration;
    StepIsLater(w, s, w');
  }

  /** A broker enters the re-read with the whole log before it, and keeps its mark while it holds. */
  lemma {:induction false} StepSeen(w: World, s: Step, w': World, a: string)
    requires Next(w, s, w') && a in w'.brokers && (w'.brokers[a].Reread? || w'.brokers[a].Holding?)
    ensures w'.brokers[a].seen == |w'.log|
            || (a in w.brokers && (w.brokers[a].Reread? || w.brokers[a].Holding?)
                && w'.brokers[a].seen == w.brokers[a].seen)
  {
    hide Claims, Winner, WinningClaim, Authorize, ViewOf, FenceLog, Trusted, NextGeneration;
  }

  lemma {:induction false} StepKeepsAlone(w: World, s: Step, w': World, base: nat)
    requires Alone(w, base) && Next(w, s, w') && !s.Foreign?
    ensures Alone(w', base)
  {
    hide Next;
    StepIsLater(w, s, w');
    StepPosts(w, s, w');
    assert forall k :: 0 <= k < |w.log| ==> w'.log[k] == w'.log[..|w.log|][k];
    forall a | a in w'.brokers ensures Unreleased(w', base, a, w'.brokers[a]) {
      if w'.brokers[a].Reread? || w'.brokers[a].Holding? {
        StepSeen(w, s, w', a);
        assert a in w.brokers ==> Unreleased(w, base, a, w.brokers[a]);
      }
    }
  }

  lemma {:induction false} RunIsAlone(ws: seq<World>, steps: seq<Step>, k: nat)
    requires Run(ws, steps) && BrokersOnly(steps) && k < |ws|
    ensures Alone(ws[k], |ws[0].log|)
  {
    hide Next;
    if k > 0 {
      RunIsAlone(ws, steps, k - 1);
      StepKeepsAlone(ws[k - 1], steps[k - 1], ws[k], |ws[0].log|);
    }
  }

  lemma {:induction false} TrustedReleases(log: seq<Comment>, n: nat, task: string, a: string)
    requires n <= |log| && NeverReleased(log, n, a)
    ensures !HasRelease(Trusted(log[n..]), task, a)
  {
    hide Trusted;
    TrustedMembers(log[n..]);
    forall k | 0 <= k < |Trusted(log[n..])| ensures Release(task, a) !in Trusted(log[n..])[k].releases {
      var c := Trusted(log[n..])[k];
      assert c in log[n..];
      var j :| 0 <= j < |log[n..]| && log[n..][j] == c;
      assert log[n + j] == c;
    }
  }

  /** A holder that has released nothing keeps its claim until the lease passes by some clock. */
  lemma {:induction false} HeldUntilLapse(w: World, a: string)
    requires a in w.brokers && w.brokers[a].Holding?
    requires WonHonestly(w, a, w.brokers[a]) && NeverReleased(w.log, w.brokers[a].seen, a)
    ensures var p := w.brokers[a];
            p.index < |Claims(w.log).candidates|
            && (StillLive(w, p) <==> Claims(w.log).candidates[p.index].lease > w.clock + w.skew)
  {
    hide Trusted, FoldLog, FirstLive, HasRelease, HasRenewTo;
    var p := w.brokers[a];
    assert w.log[..|w.log|] == w.log && w.log[p.seen..|w.log|] == w.log[p.seen..];
    TrustedBetween(w.log, p.seen, |w.log|);
    ExtensionEffect(Trusted(w.log[..p.seen]), Trusted(w.log[p.seen..]));
    WinnerIs(Claims(w.log[..p.seen]), p.now, p.task, p.index);
    TrustedReleases(w.log, p.seen, p.task, a);
  }

  /** In a run of brokers alone, whatever the log held before it, two holders of one task never both have time left on
      their leases by every clock. */
  lemma {:induction false} BrokersExclude(ws: seq<World>, steps: seq<Step>, k: nat, a: string, b: string, task: string)
    requires Run(ws, steps) && BrokersOnly(steps) && k < |ws| && BothHold(ws[k], a, b, task) && a != b
    ensures var w := ws[k]; var f := Claims(w.log); var i, j := w.brokers[a].index, w.brokers[b].index;
            i < |f.candidates| && j < |f.candidates|
              && (f.candidates[i].lease <= w.clock + w.skew || f.candidates[j].lease <= w.clock + w.skew)
  {
    hide Next, Claims, Winner, StillLive;
    var w := ws[k];
    RunIsAlone(ws, steps, k);
    RunIsHonest(ws, steps, k);
    assert Unreleased(w, |ws[0].log|, a, w.brokers[a]) && Unreleased(w, |ws[0].log|, b, w.brokers[b]);
    HeldUntilLapse(w, a);
    HeldUntilLapse(w, b);
    assert NeverRenewed(w.log, w.brokers[a].seen, task) && NeverRenewed(w.log, w.brokers[b].seen, task);
    if StillLive(w, w.brokers[a]) && StillLive(w, w.brokers[b]) {
      MutualExclusion(ws, steps, k, a, b, task);
    }
  }

  // ------------------------------------------------------------ fencing over runs

  /** Broker `a` is past its reconciliation: about to push, about to open the pull request, or done with both. */
  predicate Cleared(w: World, a: string) {
    var k := WorkOf(w, a); k.Some? && (k.value.Reconciled? || k.value.Pushed? || k.value.Published?)
  }

  /** The reading it went by granted the order. */
  ghost predicate ClearedHonestly(w: World, a: string) {
    Cleared(w, a) ==>
      var o, r := w.brokers[a].work.order, w.brokers[a].work.reading;
      && r.seen <= |w.log| && r.policy.agent == a
      && Authorize(o, ViewOf(w.log[..r.seen], r.at, o.task), r.policy, r.at) == Granted(Secretless)
  }

  /** Whether a step is part of `a`'s work on an order. */
  predicate Works(s: Step, a: string) {
    !s.Tick? && !s.Foreign? && !s.Abort? && !ClaimStep(s) && s.agent == a
  }

  lemma {:induction false} OtherwiseSame(w: World, s: Step, w': World, a: string)
    requires Next(w, s, w') && !Works(s, a) && Cleared(w', a)
    ensures a in w.brokers && w.brokers[a] == w'.brokers[a]
  {
    hide Claims, Winner, WinningClaim, Authorize, ViewOf, FenceLog, Trusted, NextGeneration;
  }

  /** Only a granting reconciliation clears a broker, and it reads the whole log as it stands. */
  lemma {:induction false} StepToCleared(w: World, s: Step, w': World, a: string)
    requires Next(w, s, w') && Cleared(w', a)
    ensures var k' := w'.brokers[a].work;
            if Cleared(w, a) then w.brokers[a].work.order == k'.order && w.brokers[a].work.reading == k'.reading
            else
              && s == Reconcile(a, k'.reading.policy) && k'.reading.seen == |w.log| && w'.log == w.log
              && k'.reading.policy.agent == a
              && Authorize(k'.order, ViewOf(w.log, k'.reading.at, k'.order.task), k'.reading.policy, k'.reading.at) ==
                Granted(Secretless)
  {
    hide Claims, Winner, WinningClaim, Authorize, ViewOf, FenceLog, Trusted, NextGeneration;
    if !Works(s, a) {
      OtherwiseSame(w, s, w', a);
    } else {
      hide Claiming;
      assert Working(w, s, w');
    }
  }

  lemma {:induction false} StepKeepsCleared(w: World, s: Step, w': World, a: string)
    requires ClearedHonestly(w, a) && Next(w, s, w')
    ensures ClearedHonestly(w', a)
  {
    hide Next, Authorize, ViewOf;
    StepIsLater(w, s, w');
    if Cleared(w', a) {
      StepToCleared(w, s, w', a);
      if Cleared(w, a) {
        PrefixOfPrefix(w.log, w'.log, w.brokers[a].work.reading.seen);
      }
      assert w.log[..|w.log|] == w.log;
    }
  }

  lemma {:induction false} RunIsCleared(ws: seq<World>, steps: seq<Step>, k: nat, a: string)
    requires Run(ws, steps) && k < |ws|
    ensures ClearedHonestly(ws[k], a)
  {
    hide Next, Authorize, ViewOf;
    if k > 0 {
      RunIsCleared(ws, steps, k - 1, a);
      StepKeepsCleared(ws[k - 1], steps[k - 1], ws[k], a);
    }
  }

  /** In every run, a published order was unfenced, unexpired and its task held in the log its reconciliation read, by
      the clock it used. */
  lemma {:induction false} PublishedWasCleared(ws: seq<World>, steps: seq<Step>, m: nat, a: string)
    requires Run(ws, steps) && m < |ws| && Cleared(ws[m], a)
    ensures var o, r := ws[m].brokers[a].work.order, ws[m].brokers[a].work.reading;
            && r.seen <= |ws[m].log| && !Fenced(ws[m].log[..r.seen], o)
            && HoldsTask(ws[m].log[..r.seen], r.at, o.task, a)
            && o.deadline.Some? && r.at < o.deadline.value
  {
    hide Next, Authorize, ViewOf, Fenced, HoldsTask;
    RunIsCleared(ws, steps, m, a);
    var o, r := ws[m].brokers[a].work.order, ws[m].brokers[a].work.reading;
    GrantedIff(ws[m].log[..r.seen], o, r.policy, r.at);
  }

  /** In every run, two brokers cleared for one task took their reconciling readings on either side of a release, a
      lapse or a revival: of the claim that won at the first. */
  lemma {:induction false} ClearedAreSeparated(ws: seq<World>, steps: seq<Step>, m: nat, a: string, b: string)
    returns (i: nat)
    requires Run(ws, steps) && m < |ws| && a != b && Cleared(ws[m], a) && Cleared(ws[m], b)
    requires ws[m].brokers[a].work.order.task == ws[m].brokers[b].work.order.task
    requires ws[m].brokers[a].work.reading.seen <= ws[m].brokers[b].work.reading.seen <= |ws[m].log|
    ensures var p, q := ws[m].brokers[a].work.reading, ws[m].brokers[b].work.reading;
            var task := ws[m].brokers[a].work.order.task;
            var log, e := Trusted(ws[m].log[..p.seen]), Trusted(ws[m].log[p.seen..q.seen]);
            && Winner(FoldLog(log), p.at, task) == Some(i)
            && i < |FoldLog(log).candidates| && FoldLog(log).candidates[i].agent == a
            && (ReleasedSince(log, e, i) || LapsedBy(log + e, q.at, i) || RevivedBefore(log, e, task, i, p.at, q.at))
  {
    hide Run, Trusted, FoldLog, FirstLive, ReleasedSince, LapsedBy, RevivedBefore, Fenced, HoldsTask;
    var w := ws[m];
    PublishedWasCleared(ws, steps, m, a);
    PublishedWasCleared(ws, steps, m, b);
    var p, q, task := w.brokers[a].work.reading, w.brokers[b].work.reading, w.brokers[a].work.order.task;
    i := HolderWins(w.log[..p.seen], p.at, task, a);
    var j := HolderWins(w.log[..q.seen], q.at, task, b);
    TrustedBetween(w.log, p.seen, q.seen);
    TwoWinnersAreSeparated(Trusted(w.log[..p.seen]), Trusted(w.log[p.seen..q.seen]), task, p.at, q.at, i, j);
  }

  lemma {:induction false} HolderWins(log: seq<Comment>, now: int, task: string, a: string) returns (i: nat)
    requires HoldsTask(log, now, task, a)
    ensures Winner(Claims(log), now, task) == Some(i)
    ensures i < |Claims(log).candidates| && Claims(log).candidates[i].agent == a
  {
    hide FirstLive, Claims;
    i :| Live(Claims(log), now, task, i) && Claims(log).candidates[i].agent == a
         && forall j :: 0 <= j < i ==> !Live(Claims(log), now, task, j);
    WinnerIs(Claims(log), now, task, i);
  }

  /** That log is what stood in the queue when the broker took its reconciling read. */
  lemma {:induction false} ClearedByRead(ws: seq<World>, steps: seq<Step>, m: nat, a: string) returns (k: nat)
    requires Run(ws, steps) && m < |ws| && Cleared(ws[m], a)
    ensures k < m && k < |steps| && steps[k] == Reconcile(a, ws[m].brokers[a].work.reading.policy)
    ensures ws[m].brokers[a].work.reading.seen <= |ws[m].log|
    ensures ws[k].log == ws[m].log[..ws[m].brokers[a].work.reading.seen]
  {
    hide Next, Authorize, ViewOf;
    assert m > 0 by { assert Init(ws[0]); }
    var w, s := ws[m - 1], steps[m - 1];
    StepIsLater(w, s, ws[m]);
    StepToCleared(w, s, ws[m], a);
    if Cleared(w, a) {
      k := ClearedByRead(ws, steps, m - 1, a);
      PrefixOfPrefix(w.log, ws[m].log, ws[m].brokers[a].work.reading.seen);
    } else {
      k := m - 1;
      assert w.log[..|w.log|] == w.log;
    }
  }

  ghost predicate Publishes(s: Step, a: string) {
    s == Push(a) || s == OpenPull(a)
  }

  /** The order a broker pushes or opens a pull request for is fenced at that moment exactly if
      a fencing comment landed after its reconciling read. */
  lemma {:induction false} FencedAtPublicationIff(ws: seq<World>, steps: seq<Step>, m: nat, a: string)
    requires Run(ws, steps) && m < |steps| && Publishes(steps[m], a)
    ensures Cleared(ws[m], a)
    ensures var o, r := ws[m].brokers[a].work.order, ws[m].brokers[a].work.reading;
            Fenced(ws[m].log, o) <==> FencedFrom(ws[m].log, r.seen, o)
  {
    hide Claims, Winner, WinningClaim, Authorize, ViewOf, FenceLog, Trusted, NextGeneration, Fenced, FencesOff,
      HoldsTask;
    assert Next(ws[m], steps[m], ws[m + 1]);
    PublishedWasCleared(ws, steps, m, a);
    var o, r, log := ws[m].brokers[a].work.order, ws[m].brokers[a].work.reading, ws[m].log;
    FencedIff(log, o);
    FencedIff(log[..r.seen], o);
    forall j | 0 <= j < r.seen ensures !FencesOff(log[j], o) {
      assert log[..r.seen][j] == log[j];
    }
  }

  // ------------------------------------------------------------ a cancellation that comes too late

  function CancelOf(o: WorkOrder): Comment {
    Bare().(cancels := [MarkOf(o)])
  }

  lemma {:induction false} CancelFences(log: seq<Comment>, o: WorkOrder)
    ensures Fenced(log + [CancelOf(o)], o)
  {
    hide Fenced;
    FencedIff(log + [CancelOf(o)], o);
    assert (log + [CancelOf(o)])[|log|] == CancelOf(o);
    assert MarkOf(o) in CancelOf(o).cancels;
    assert FencesOff(CancelOf(o), o);
  }

  /** Whatever happened before, once a broker has reconciled, a cancellation of its order can land and the order is
      still published. */
  lemma {:induction false} CancelledTooLate(ws: seq<World>, steps: seq<Step>, a: string)
    returns (ws': seq<World>, steps': seq<Step>)
    requires Run(ws, steps) && Cleared(ws[|steps|], a) && ws[|steps|].brokers[a].work.Reconciled?
    ensures var o := ws[|steps|].brokers[a].work.order; var n := |steps|;
            && Run(ws', steps') && steps' == steps + [Foreign(CancelOf(o)), Push(a), OpenPull(a)] && ws'[..|ws|] == ws
            && Cleared(ws'[n + 1], a) && ws'[n + 1].brokers[a].work.order == o && CancelOf(o) in ws'[n + 1].log
            && Cleared(ws'[n + 2], a) && ws'[n + 2].brokers[a].work.order == o
            && Fenced(ws'[n + 1].log, o) && Fenced(ws'[n + 2].log, o)
            && Cleared(ws'[n + 3], a) && ws'[n + 3].brokers[a].work == Published(o, ws[n].brokers[a].work.reading)
  {
    hide Fenced;
    var w := ws[|steps|];
    var o, r := w.brokers[a].work.order, w.brokers[a].work.reading;
    var w1 := Post(w, CancelOf(o));
    var w2 := SetWork(w1, a, Pushed(o, r));
    var w3 := SetWork(w2, a, Published(o, r));
    CancelFences(w.log, o);
    ws', steps' := ws + [w1] + [w2] + [w3], steps + [Foreign(CancelOf(o))] + [Push(a)] + [OpenPull(a)];
  }

  // ------------------------------------------------------------ fences that stand before the reconciliation

  ghost predicate ClearedFor(w: World, o: WorkOrder) {
    exists a :: Cleared(w, a) && w.brokers[a].work.order == o
  }

  lemma {:induction false} StepClearsNone(w: World, s: Step, w': World, o: WorkOrder)
    requires Next(w, s, w') && Fenced(w.log, o) && !ClearedFor(w, o)
    ensures !ClearedFor(w', o)
  {
    hide Next, Authorize, ViewOf, Fenced, HoldsTask;
    forall a ensures !(Cleared(w', a) && w'.brokers[a].work.order == o) {
      if Cleared(w', a) {
        StepToCleared(w, s, w', a);
        var k := w'.brokers[a].work;
        GrantedIff(w.log, k.order, k.reading.policy, k.reading.at);
      }
    }
  }

  /** Once the log fences an order that no broker has reconciled, no broker reconciles or publishes it at any later
      moment of the run. */
  lemma {:induction false} NoPublishAfterFence(ws: seq<World>, steps: seq<Step>, k: nat, m: nat, o: WorkOrder)
    requires Run(ws, steps) && k <= m < |ws|
    requires Fenced(ws[k].log, o) && !ClearedFor(ws[k], o)
    ensures !ClearedFor(ws[m], o)
    decreases m
  {
    hide Next, Fenced, ClearedFor;
    if k < m {
      NoPublishAfterFence(ws, steps, k, m - 1, o);
      RunIsLater(ws, steps, k, m - 1);
      FenceStays(ws[k].log, ws[m - 1].log[|ws[k].log|..], o);
      assert ws[k].log + ws[m - 1].log[|ws[k].log|..] == ws[m - 1].log;
      StepClearsNone(ws[m - 1], steps[m - 1], ws[m], o);
    }
  }

  // ------------------------------------------------------------ what a broker writes into the queue

  /** The one comment that a broker's step appends, if it appends one: a claim with a lease of 120 minutes, the order it
      made, the order's completion, or the release of its task. */
  lemma {:induction false} PostsAre(w: World, s: Step, w': World)
    requires Next(w, s, w') && w'.log != w.log && !s.Foreign?
    ensures !s.Tick? && s.agent in w.brokers && |w'.log| == |w.log| + 1 && w'.log[..|w.log|] == w.log
    ensures var a, p, c := s.agent, w.brokers[s.agent], w'.log[|w.log|];
            || (p.Chosen? && c == Comment(true, [], [], Some(Claim(p.task, a, p.at + 120)), [], [], []))
            || (p.Holding? && p.work.Made? && c == Comment(true, [], [], None, [OrderMark(p.work.order)], [], []))
            || (p.Holding? && (p.work.Published? || p.work.Failed?)
                && c == Comment(true, [], [], None, [], [OrderMark(p.work.order)], []))
            || (p.Holding? && p.work.Closing? && c == Comment(true, [Release(p.task, a)], [], None, [], [], []))
  {
    hide Claims, Winner, WinningClaim, Authorize, ViewOf, FenceLog, Trusted, NextGeneration;
  }

  ghost function OrderMark(o: WorkOrder): Mark {
    Mark(o.task, o.attempt, o.generation)
  }

  /** A broker about to claim a task saw nobody hold it, in some prefix of the queue, by the clock it claims with. */
  ghost predicate ChoseHonestly(w: World, a: string) {
    && (a in w.brokers && w.brokers[a].Looked? ==> w.brokers[a].seen <= |w.log|)
    && (a in w.brokers && w.brokers[a].Chosen? ==>
          w.brokers[a].at <= w.clock + w.skew && SawFree(w.log, w.brokers[a].task, w.brokers[a].at))
  }

  ghost predicate SawFree(log: seq<Comment>, task: string, now: int) {
    exists n: nat :: n <= |log| && NobodyHolds(log[..n], task, now)
  }

  ghost predicate NobodyHolds(log: seq<Comment>, task: string, now: int) {
    forall a :: !HoldsTask(log, now, task, a)
  }

  lemma {:induction false} FreeMeansNobody(log: seq<Comment>, task: string, now: int)
    requires WinningClaim(log, now, task).None?
    ensures NobodyHolds(log, task, now)
  {
    hide Claims, FirstLive, HoldsTask;
    forall a ensures !HoldsTask(log, now, task, a) {
      if HoldsTask(log, now, task, a) {
        var i := HolderWins(log, now, task, a);
      }
    }
  }

  lemma {:induction false} SawFreeStays(log: seq<Comment>, log': seq<Comment>, task: string, now: int)
    requires SawFree(log, task, now) && |log| <= |log'| && log'[..|log|] == log
    ensures SawFree(log', task, now)
  {
    hide NobodyHolds;
    var n: nat :| n <= |log| && NobodyHolds(log[..n], task, now);
    PrefixOfPrefix(log, log', n);
  }

  lemma {:induction false} StepKeepsChosen(w: World, s: Step, w': World, a: string)
    requires ChoseHonestly(w, a) && Next(w, s, w')
    ensures ChoseHonestly(w', a)
  {
    hide Claims, Winner, WinningClaim, Authorize, ViewOf, FenceLog, Trusted, NextGeneration, NobodyHolds;
    StepIsLater(w, s, w');
    if s.Choose? && s.agent == a {
      FreeMeansNobody(w.log[..w.brokers[a].seen], s.task, s.now);
    } else if a in w.brokers && w.brokers[a].Chosen? {
      SawFreeStays(w.log, w'.log, w.brokers[a].task, w.brokers[a].at);
    }
  }

  /** In every run, a broker claims only a task that it saw unheld. */
  lemma {:induction false} RunChoosesFree(ws: seq<World>, steps: seq<Step>, k: nat, a: string)
    requires Run(ws, steps) && k < |ws|
    ensures ChoseHonestly(ws[k], a)
  {
    hide Next, SawFree;
    if k > 0 {
      RunChoosesFree(ws, steps, k - 1, a);
      StepKeepsChosen(ws[k - 1], steps[k - 1], ws[k], a);
    }
  }

  /** What holds of the order that a broker is at work on. */
  ghost predicate WorksHonestly(w: World, a: string) {
    a in w.brokers && w.brokers[a].Holding? ==>
      && w.brokers[a].seen <= |w.log|
      && (!w.brokers[a].work.Won? ==>
            var p := w.brokers[a]; var o := p.work.order;
            && o.task == p.task && o.access == "CLOUD_SECRETLESS" && IsFresh(w.log[..p.seen], o)
            && o.deadline.Some? && o.deadline.value <= w.clock + w.skew + 60
            && (p.work.Made? || Posted(w.log, p.seen, Comment(true, [], [], None, [OrderMark(o)], [], [])))
            && (p.work.Closing? ==> Posted(w.log, p.seen, Comment(true, [], [], None, [], [OrderMark(o)], []))))
  }

  /** The order's generation is greater than every one that the log mentions for its task. */
  ghost predicate IsFresh(log: seq<Comment>, o: WorkOrder) {
    forall g: nat :: LogMentions(Trusted(log), o.task, g) ==> g < o.generation
  }

  ghost predicate Posted(log: seq<Comment>, n: nat, c: Comment) {
    exists k :: n <= k < |log| && log[k] == c
  }

  lemma {:induction false} PostedStays(log: seq<Comment>, log': seq<Comment>, n: nat, c: Comment)
    requires Posted(log, n, c) && |log| <= |log'| && log'[..|log|] == log
    ensures Posted(log', n, c)
  {
    var k :| n <= k < |log| && log[k] == c;
    assert log'[..|log|][k] == log'[k];
  }

  lemma {:induction false} NextIsFresh(log: seq<Comment>, o: WorkOrder)
    requires o.generation == NextGeneration(o.task, FenceLog(Trusted(log)))
    ensures IsFresh(log, o)
  {
    hide NextGeneration, FenceLog, Trusted, LogMentions;
    forall g: nat | LogMentions(Trusted(log), o.task, g) ensures g < o.generation {
      NextGenerationExceeds(Trusted(log), o.task, g);
    }
  }

  lemma {:induction false} WorkStays(w: World, w': World, a: string)
    requires WorksHonestly(w, a) && Later(w, w')
    requires a in w.brokers && a in w'.brokers && w'.brokers[a] == w.brokers[a]
    ensures WorksHonestly(w', a)
  {
    hide IsFresh, Posted;
    if w.brokers[a].Holding? && !w.brokers[a].work.Won? {
      var p := w.brokers[a];
      PrefixOfPrefix(w.log, w'.log, p.seen);
      if !p.work.Made? {
        PostedStays(w.log, w'.log, p.seen, Comment(true, [], [], None, [OrderMark(p.work.order)], [], []));
      }
      if p.work.Closing? {
        PostedStays(w.log, w'.log, p.seen, Comment(true, [], [], None, [], [OrderMark(p.work.order)], []));
      }
    }
  }

  /** A step that keeps the order keeps what is known of it. */
  lemma {:induction false} SameOrder(w: World, w': World, a: string)
    requires WorksHonestly(w, a) && Later(w, w') && WorkOf(w, a).Some? && WorkOf(w', a).Some?
    requires w'.brokers[a] == w.brokers[a].(work := w'.brokers[a].work)
    requires !w.brokers[a].work.Won? && !w.brokers[a].work.Made? && !w.brokers[a].work.Closing?
    requires !w'.brokers[a].work.Won? && !w'.brokers[a].work.Made? && !w'.brokers[a].work.Closing?
    requires w'.brokers[a].work.order == w.brokers[a].work.order
    ensures WorksHonestly(w', a)
  {
    hide IsFresh, Posted;
    var p := w.brokers[a];
    PrefixOfPrefix(w.log, w'.log, p.seen);
    PostedStays(w.log, w'.log, p.seen, Comment(true, [], [], None, [OrderMark(p.work.order)], [], []));
  }

  lemma {:induction false} StepMakes(w: World, s: Step, w': World, a: string)
    requires Next(w, s, w') && s.MakeOrder? && s.agent == a
    ensures WorksHonestly(w', a)
  {
    hide Claims, Authorize, ViewOf, FenceLog, Trusted, NextGeneration, IsFresh, Posted;
    NextIsFresh(w.log[..w.brokers[a].seen], s.order);
  }

  lemma {:induction false} StepPostsWork(w: World, s: Step, w': World, a: string)
    requires WorksHonestly(w, a) && Next(w, s, w') && (s.PostOrder? || s.PostDone?) && s.agent == a
    ensures WorksHonestly(w', a)
  {
    hide Claims, Authorize, ViewOf, FenceLog, Trusted, NextGeneration, IsFresh;
    var p := w.brokers[a];
    PrefixOfPrefix(w.log, w'.log, p.seen);
    if s.PostDone? {
      PostedStays(w.log, w'.log, p.seen, Comment(true, [], [], None, [OrderMark(p.work.order)], [], []));
    }
    assert w'.log[|w.log|] == w'.log[|w'.log| - 1];
  }

  lemma {:induction false} StepKeepsWork(w: World, s: Step, w': World, a: string)
    requires WorksHonestly(w, a) && Next(w, s, w')
    ensures WorksHonestly(w', a)
  {
    hide Claims, Winner, WinningClaim, Authorize, ViewOf, FenceLog, Trusted, NextGeneration, IsFresh, Posted,
         WorksHonestly;
    StepIsLater(w, s, w');
    if a in w.brokers && a in w'.brokers && w'.brokers[a] == w.brokers[a] {
      WorkStays(w, w', a);
    } else if WorkOf(w', a).None? || WorkOf(w, a).None? {
      NoWork(w, s, w', a);
    } else if s.MakeOrder? {
      StepMakes(w, s, w', a);
    } else if s.PostOrder? || s.PostDone? {
      StepPostsWork(w, s, w', a);
    } else {
      SameOrder(w, w', a);
    }
  }

  lemma {:induction false} NoWork(w: World, s: Step, w': World, a: string)
    requires Next(w, s, w') && (WorkOf(w', a).None? || WorkOf(w, a).None?)
    ensures WorksHonestly(w', a)
  {
    hide Claims, Winner, WinningClaim, Authorize, ViewOf, FenceLog, Trusted, NextGeneration, IsFresh, Posted;
  }

  /** In every run, the order that a broker is at work on is for its task, secretless and fresh in the log it won by;
      it is in the queue from the moment it was posted, and so is its completion before the task is released. */
  lemma {:induction false} RunWorksHonestly(ws: seq<World>, steps: seq<Step>, k: nat, a: string)
    requires Run(ws, steps) && k < |ws|
    ensures WorksHonestly(ws[k], a)
  {
    hide Next, IsFresh, Posted;
    if k > 0 {
      RunWorksHonestly(ws, steps, k - 1, a);
      StepKeepsWork(ws[k - 1], steps[k - 1], ws[k], a);
    }
  }

  /** In every run, a broker fences its own order off before it releases the task. */
  lemma {:induction false} ReleasedWasClosed(ws: seq<World>, steps: seq<Step>, k: nat, a: string)
    requires Run(ws, steps) && k < |ws| && WorkOf(ws[k], a).Some? && ws[k].brokers[a].work.Closing?
    ensures Fenced(ws[k].log, ws[k].brokers[a].work.order)
  {
    hide Next, IsFresh, Fenced;
    RunWorksHonestly(ws, steps, k, a);
    var log, p := ws[k].log, ws[k].brokers[a];
    var o := p.work.order;
    var i :| p.seen <= i < |log| && log[i] == Comment(true, [], [], None, [], [OrderMark(o)], []);
    assert OrderMark(o) in log[i].dones;
    assert FencesOff(log[i], o);
    FencedIff(log, o);
  }
}
