/** Generations, terminal attempts and the authorisation of a work order.

    Models `parse_broker_ledger`, `next_generation`, `make_work_order` and
    `authorize_work_order`, whose checks run in the order given here. */
module WorkOrders {
  import opened Basics
  import opened ClaimLedger

  /** `_trusted_comments`. */
  function Trusted(log: seq<Comment>): seq<Comment> {
    if log == [] then []
    else
      var front := Trusted(log[..|log| - 1]);
      if log[|log| - 1].trusted then front + [log[|log| - 1]] else front
  }

  lemma {:induction false} TrustedExtends(log: seq<Comment>, e: seq<Comment>)
    ensures Trusted(log + e) == Trusted(log) + Trusted(e)
  {
    if e == [] {
      assert log + e == log;
    } else {
      TrustedExtends(log, e[..|e| - 1]);
      assert (log + e)[..|log + e| - 1] == log + e[..|e| - 1];
    }
  }

  /** The claims a broker reads off the log. */
  function Claims(log: seq<Comment>): Fold {
    FoldLog(Trusted(log))
  }

  datatype Fences = Fences(latest: map<string, nat>, terminal: set<string>, cancelled: set<string>)

  function Raise(latest: map<string, nat>, m: Mark): map<string, nat> {
    latest[m.task := if m.task in latest && latest[m.task] > m.generation then latest[m.task] else m.generation]
  }

  function RaiseAll(latest: map<string, nat>, ms: seq<Mark>): map<string, nat> {
    if ms == [] then latest else Raise(RaiseAll(latest, ms[..|ms| - 1]), ms[|ms| - 1])
  }

  function Attempts(ms: seq<Mark>): set<string> {
    set m | m in ms :: m.attempt
  }

  function ApplyMarks(f: Fences, c: Comment): Fences {
    Fences(RaiseAll(RaiseAll(RaiseAll(f.latest, c.orders), c.dones), c.cancels),
           f.terminal + Attempts(c.dones),
           f.cancelled + Attempts(c.cancels))
  }

  function FenceLog(log: seq<Comment>): Fences {
    if log == [] then Fences(map[], {}, {}) else ApplyMarks(FenceLog(log[..|log| - 1]), log[|log| - 1])
  }

  lemma {:induction false} OneComment(log: seq<Comment>, c: Comment)
    requires c.trusted
    ensures Trusted(log + [c]) == Trusted(log) + [c] && Claims(log + [c]) == ApplyComment(Claims(log), c)
    ensures FenceLog(Trusted(log + [c])) == ApplyMarks(FenceLog(Trusted(log)), c)
  {
    hide ApplyComment, ApplyMarks;
    assert (log + [c])[..|log|] == log;
    assert (Trusted(log) + [c])[..|Trusted(log)|] == Trusted(log);
  }

  // ------------------------------------------------------------ what the fences mean

  ghost predicate Mentions(ms: seq<Mark>, task: string, generation: nat) {
    exists m :: m in ms && m.task == task && m.generation == generation
  }

  ghost predicate CommentMentions(c: Comment, task: string, generation: nat) {
    Mentions(c.orders, task, generation) || Mentions(c.dones, task, generation) || Mentions(c.cancels, task, generation)
  }

  /** Some comment of the log carries a mark with this task and generation. */
  ghost predicate LogMentions(log: seq<Comment>, task: string, generation: nat) {
    exists k :: 0 <= k < |log| && CommentMentions(log[k], task, generation)
  }

  ghost predicate Done(log: seq<Comment>, attempt: string) {
    exists k :: 0 <= k < |log| && attempt in Attempts(log[k].dones)
  }

  ghost predicate Cancelled(log: seq<Comment>, attempt: string) {
    exists k :: 0 <= k < |log| && attempt in Attempts(log[k].cancels)
  }

  /** Raising by a list of marks keeps, per task, the greatest generation seen. */
  lemma {:induction false} RaiseAllIsMax(latest: map<string, nat>, ms: seq<Mark>, t: string)
    ensures var r := RaiseAll(latest, ms);
            (t in latest ==> t in r && latest[t] <= r[t])
            && (forall g :: Mentions(ms, t, g) ==> t in r && g <= r[t])
            && (t in r ==> Mentions(ms, t, r[t]) || (t in latest && r[t] == latest[t]))
  {
    if ms != [] {
      var front, last := ms[..|ms| - 1], ms[|ms| - 1];
      RaiseAllIsMax(latest, front, t);
      assert ms == front + [last];
      forall g ensures Mentions(ms, t, g) <==> Mentions(front, t, g) || (last.task == t && last.generation == g) {
      }
    }
  }

  lemma {:induction false} ApplyMarksIsMax(f: Fences, c: Comment, t: string)
    ensures var r := ApplyMarks(f, c).latest;
            (t in f.latest ==> t in r && f.latest[t] <= r[t])
            && (forall g :: CommentMentions(c, t, g) ==> t in r && g <= r[t])
            && (t in r ==> CommentMentions(c, t, r[t]) || (t in f.latest && r[t] == f.latest[t]))
  {
    hide RaiseAll, Mentions;
    var a := RaiseAll(f.latest, c.orders);
    var b := RaiseAll(a, c.dones);
    RaiseAllIsMax(f.latest, c.orders, t);
    RaiseAllIsMax(a, c.dones, t);
    RaiseAllIsMax(b, c.cancels, t);
  }

  /** The latest generation of a task is the greatest that any comment mentions for it. */
  lemma {:induction false} LatestIsGreatest(log: seq<Comment>, t: string)
    ensures var latest := FenceLog(log).latest;
            (forall g :: LogMentions(log, t, g) ==> t in latest && g <= latest[t])
            && (t in latest ==> LogMentions(log, t, latest[t]))
  {
    if log != [] {
      hide ApplyMarks, CommentMentions;
      var front, c := log[..|log| - 1], log[|log| - 1];
      LatestIsGreatest(front, t);
      ApplyMarksIsMax(FenceLog(front), c, t);
      forall g ensures LogMentions(log, t, g) <==> LogMentions(front, t, g) || CommentMentions(c, t, g) {
      }
    }
  }

  /** The terminal and cancelled sets hold exactly the attempts the log closes. */
  lemma {:induction false} FencedAttempts(log: seq<Comment>, attempt: string)
    ensures attempt in FenceLog(log).terminal <==> Done(log, attempt)
    ensures attempt in FenceLog(log).cancelled <==> Cancelled(log, attempt)
  {
    if log != [] {
      hide Attempts, RaiseAll;
      var front, c := log[..|log| - 1], log[|log| - 1];
      FencedAttempts(front, attempt);
      assert forall k :: 0 <= k < |front| ==> front[k] == log[k];
      if Done(log, attempt) && attempt !in Attempts(c.dones) {
        var k :| 0 <= k < |log| && attempt in Attempts(log[k].dones);
        assert front[k] == log[k];
      }
      if Cancelled(log, attempt) && attempt !in Attempts(c.cancels) {
        var k :| 0 <= k < |log| && attempt in Attempts(log[k].cancels);
        assert front[k] == log[k];
      }
    }
  }

  /** `next_generation`. */
  function NextGeneration(task: string, f: Fences): nat {
    if task in f.latest then f.latest[task] + 1 else 0
  }

  /** A new work order's generation exceeds every generation in the log it was made from. */
  lemma {:induction false} NextGenerationExceeds(log: seq<Comment>, task: string, g: nat)
    requires LogMentions(log, task, g)
    ensures g < NextGeneration(task, FenceLog(log))
  {
    LatestIsGreatest(log, task);
  }

  /** It is the least such: 0 for a task that no trusted comment mentions, and one past the greatest otherwise. */
  lemma {:induction false} NextGenerationIs(log: seq<Comment>, task: string)
    ensures var n := NextGeneration(task, FenceLog(log));
            if n == 0 then forall g :: !LogMentions(log, task, g) else LogMentions(log, task, n - 1)
  {
    hide FenceLog, LogMentions;
    LatestIsGreatest(log, task);
  }

  // ------------------------------------------------------------ authorisation

  datatype WorkOrder = WorkOrder(
    schemaOk: bool, repo: string, task: string, attempt: string, generation: nat, role: string, access: string,
    deadline: Option<int>, startingRef: string, reviewedSha: Option<string>, dispatchRef: Option<string>)

  datatype Policy = Policy(
    repos: set<string>, tasks: set<string>, agent: string, dispatchRefs: set<string>, roles: set<string>)

  /** What the dispatcher knows: the winning claim of the task and the fences, or that the read failed. */
  datatype View = Unavailable | View(claim: Option<Claim>, fences: Fences)

  datatype Lane = Secretless | Privileged

  datatype Code =
    | Malformed | LedgerUnavailable | UnauthorizedRepository | UnauthorizedTask | BlockedPolicy | DeadlineExpired
    | ClaimInvalid | AttemptCancelled | DuplicateAttempt | StaleGeneration | ExactShaRequired | UntrustedDispatch

  datatype Decision = Granted(lane: Lane) | Refused(code: Code)

  function LaneFor(w: WorkOrder): Lane {
    if w.access == "CLOUD_SECRETLESS" then Secretless else Privileged
  }

  /** `authorize_work_order`. */
  function Authorize(w: WorkOrder, view: View, policy: Policy, now: int): Decision {
    if !w.schemaOk then Refused(Malformed)
    else if view.Unavailable? then Refused(LedgerUnavailable)
    else if w.repo !in policy.repos then Refused(UnauthorizedRepository)
    else if w.task !in policy.tasks then Refused(UnauthorizedTask)
    else if w.role !in policy.roles then Refused(BlockedPolicy)
    else if w.deadline.None? then Refused(Malformed)
    else if w.deadline.value <= now then Refused(DeadlineExpired)
    else if view.claim.None? || view.claim.value.lease <= now || view.claim.value.agent != policy.agent
            then Refused(ClaimInvalid)
    else if w.attempt in view.fences.cancelled then Refused(AttemptCancelled)
    else if w.attempt in view.fences.terminal then Refused(DuplicateAttempt)
    else if w.task in view.fences.latest && w.generation < view.fences.latest[w.task] then Refused(StaleGeneration)
    else if LaneFor(w).Privileged? && w.reviewedSha != Some(w.startingRef) then Refused(ExactShaRequired)
    else if LaneFor(w).Privileged? && (w.dispatchRef.None? || w.dispatchRef.value !in policy.dispatchRefs)
            then Refused(UntrustedDispatch)
    else Granted(LaneFor(w))
  }

  lemma {:induction false} WinnerInRange(f: Fold, now: int, task: string)
    ensures Winner(f, now, task).Some? ==> Live(f, now, task, Winner(f, now, task).value)
  {
    if Winner(f, now, task).Some? { WinnerIs(f, now, task, Winner(f, now, task).value); }
  }

  function WinningClaim(log: seq<Comment>, now: int, task: string): Option<Claim> {
    WinnerInRange(Claims(log), now, task);
    match Winner(Claims(log), now, task)
    case None => None
    case Some(i) => Some(Claims(log).candidates[i])
  }

  /** The view `parse_broker_ledger` gives of a log that could be read. */
  function ViewOf(log: seq<Comment>, now: int, task: string): View {
    View(WinningClaim(log, now, task), FenceLog(Trusted(log)))
  }

  /** A trusted comment closes the attempt, or names a later generation of its task. */
  ghost predicate Fenced(log: seq<Comment>, w: WorkOrder) {
    || Done(Trusted(log), w.attempt)
    || Cancelled(Trusted(log), w.attempt)
    || exists g :: LogMentions(Trusted(log), w.task, g) && w.generation < g
  }

  /** One trusted comment that closes the attempt or names a later generation of its task. */
  ghost predicate FencesOff(c: Comment, w: WorkOrder) {
    && c.trusted
    && (|| w.attempt in Attempts(c.dones)
        || w.attempt in Attempts(c.cancels)
        || exists g :: CommentMentions(c, w.task, g) && w.generation < g)
  }

  /** From position `n` on stands a comment that fences the order. */
  ghost predicate FencedFrom(log: seq<Comment>, n: nat, w: WorkOrder) {
    exists k :: n <= k < |log| && FencesOff(log[k], w)
  }

  lemma {:induction false} FencedByLast(log: seq<Comment>, w: WorkOrder)
    requires log != [] && log[|log| - 1].trusted
    ensures Fenced(log, w) <==> Fenced(log[..|log| - 1], w) || FencesOff(log[|log| - 1], w)
  {
    hide Attempts, CommentMentions;
    var a, b, c := Trusted(log[..|log| - 1]), Trusted(log), log[|log| - 1];
    assert b == a + [c];
    assert forall k :: 0 <= k < |a| ==> b[k] == a[k];
    assert b[|a|] == c;
    forall g ensures LogMentions(b, w.task, g) <==> LogMentions(a, w.task, g) || CommentMentions(c, w.task, g) {
    }
  }

  /** A work order is fenced exactly if some single comment fences it. */
  lemma {:induction false} FencedIff(log: seq<Comment>, w: WorkOrder)
    ensures Fenced(log, w) <==> FencedFrom(log, 0, w)
  {
    hide FencesOff;
    if log == [] {
    } else {
      var front, c := log[..|log| - 1], log[|log| - 1];
      FencedIff(front, w);
      assert log == front + [c];
      assert FencedFrom(log, 0, w) <==> FencedFrom(front, 0, w) || FencesOff(c, w) by {
        assert forall k :: 0 <= k < |front| ==> log[k] == front[k];
        assert log[|front|] == c;
      }
      if c.trusted {
        FencedByLast(log, w);
      } else {
        Untrusted(c, w);
      }
    }
  }

  lemma {:induction false} Untrusted(c: Comment, w: WorkOrder)
    requires !c.trusted
    ensures !FencesOff(c, w)
  {
  }

  /** Once fenced, a work order is fenced in every longer log. */
  lemma {:induction false} FenceStays(log: seq<Comment>, e: seq<Comment>, w: WorkOrder)
    requires Fenced(log, w)
    ensures Fenced(log + e, w)
  {
    hide Fenced, FencesOff;
    FencedIff(log, w);
    FencedIff(log + e, w);
    assert forall k :: 0 <= k < |log| ==> (log + e)[k] == log[k];
  }

  /** No clock, policy or later comment authorises a fenced attempt. */
  lemma {:induction false} FencedForever(log: seq<Comment>, e: seq<Comment>, w: WorkOrder, policy: Policy, now: int)
    requires Fenced(log, w)
    ensures Authorize(w, ViewOf(log + e, now, w.task), policy, now).Refused?
  {
    hide FenceLog, Attempts, Trusted, Claims, Winner;
    FenceStays(log, e, w);
    FencedAttempts(Trusted(log + e), w.attempt);
    LatestIsGreatest(Trusted(log + e), w.task);
  }

  /** A grant means exactly this, in terms of the log alone. */
  lemma {:induction false} GrantedIff(log: seq<Comment>, w: WorkOrder, policy: Policy, now: int)
    ensures Authorize(w, ViewOf(log, now, w.task), policy, now).Granted? <==>
      && w.schemaOk && w.repo in policy.repos && w.task in policy.tasks && w.role in policy.roles
      && w.deadline.Some? && now < w.deadline.value
      && HoldsTask(log, now, w.task, policy.agent)
      && !Fenced(log, w)
      && (w.access == "CLOUD_SECRETLESS" ||
          (w.reviewedSha == Some(w.startingRef) && w.dispatchRef.Some? && w.dispatchRef.value in policy.dispatchRefs))
  {
    hide FenceLog, Attempts, Trusted, FirstLive, FoldLog;
    var f := Claims(log);
    FencedAttempts(Trusted(log), w.attempt);
    LatestIsGreatest(Trusted(log), w.task);
    WinnerInRange(f, now, w.task);
    if HoldsTask(log, now, w.task, policy.agent) {
      var i: nat :| Live(f, now, w.task, i) && f.candidates[i].agent == policy.agent
                    && forall j :: 0 <= j < i ==> !Live(f, now, w.task, j);
      WinnerIs(f, now, w.task, i);
    }
    if Winner(f, now, w.task).Some? {
      WinnerIs(f, now, w.task, Winner(f, now, w.task).value);
    }
  }

  /** A granted order goes to the secretless lane exactly if it asks for that access class; any other is privileged. */
  lemma {:induction false} GrantedLaneIs(w: WorkOrder, view: View, policy: Policy, now: int)
    ensures Authorize(w, view, policy, now).Granted? ==>
              (Authorize(w, view, policy, now) == Granted(Secretless) <==> w.access == "CLOUD_SECRETLESS")
              && (Authorize(w, view, policy, now) == Granted(Privileged) <==> w.access != "CLOUD_SECRETLESS")
  {
  }

  /** The checks in their order, each with what makes it fail. */
  ghost predicate Fails(w: WorkOrder, view: View, policy: Policy, now: int, check: nat) {
    match check
    case 0 => !w.schemaOk
    case 1 => view == Unavailable
    case 2 => w.repo !in policy.repos
    case 3 => w.task !in policy.tasks
    case 4 => w.role !in policy.roles
    case 5 => w.deadline.None?
    case 6 => w.deadline.Some? && w.deadline.value <= now
    case 7 =>
      view.View? && (view.claim.None? || view.claim.value.lease <= now || view.claim.value.agent != policy.agent)
    case 8 => view.View? && w.attempt in view.fences.cancelled
    case 9 => view.View? && w.attempt in view.fences.terminal
    case 10 => view.View? && w.task in view.fences.latest && w.generation < view.fences.latest[w.task]
    case 11 => w.access != "CLOUD_SECRETLESS" && w.reviewedSha != Some(w.startingRef)
    case 12 => w.access != "CLOUD_SECRETLESS" && (w.dispatchRef.None? || w.dispatchRef.value !in policy.dispatchRefs)
    case _ => false
  }

  ghost function CodeOf(check: nat): Code
    requires check < 13
  {
    [Malformed, LedgerUnavailable, UnauthorizedRepository, UnauthorizedTask, BlockedPolicy, Malformed, DeadlineExpired,
     ClaimInvalid, AttemptCancelled, DuplicateAttempt, StaleGeneration, ExactShaRequired, UntrustedDispatch][check]
  }

  ghost predicate FailsFirst(w: WorkOrder, view: View, policy: Policy, now: int, check: nat) {
    Fails(w, view, policy, now, check) && forall k: nat :: k < check ==> !Fails(w, view, policy, now, k)
  }

  /** An order is refused exactly if some check fails, and then with the code of the first that does. */
  lemma {:induction false} RefusedIff(w: WorkOrder, view: View, policy: Policy, now: int)
    ensures Authorize(w, view, policy, now).Refused? <==> exists check: nat :: Fails(w, view, policy, now, check)
    ensures forall check: nat :: check < 13 && FailsFirst(w, view, policy, now, check) ==>
              Authorize(w, view, policy, now) == Refused(CodeOf(check))
  {
    forall check: nat | check < 13 && FailsFirst(w, view, policy, now, check)
      ensures Authorize(w, view, policy, now) == Refused(CodeOf(check)) {
      RefusedFirst(w, view, policy, now, check);
    }
    if Authorize(w, view, policy, now).Refused? {
      SomeFails(w, view, policy, now);
    }
    forall check: nat | Fails(w, view, policy, now, check) ensures Authorize(w, view, policy, now).Refused? {
    }
  }

  lemma {:induction false} RefusedFirst(w: WorkOrder, view: View, policy: Policy, now: int, check: nat)
    requires check < 13 && FailsFirst(w, view, policy, now, check)
    ensures Authorize(w, view, policy, now) == Refused(CodeOf(check))
  {
    NoneFailed(w, view, policy, now, check);
  }

  /** What the passed checks say. */
  lemma {:induction false} NoneFailed(w: WorkOrder, view: View, policy: Policy, now: int, n: nat)
    requires forall k: nat :: k < n ==> !Fails(w, view, policy, now, k)
    ensures n > 0 ==> !Fails(w, view, policy, now, 0)
    ensures n > 1 ==> !Fails(w, view, policy, now, 1)
    ensures n > 2 ==> !Fails(w, view, policy, now, 2)
    ensures n > 3 ==> !Fails(w, view, policy, now, 3)
    ensures n > 4 ==> !Fails(w, view, policy, now, 4)
    ensures n > 5 ==> !Fails(w, view, policy, now, 5)
    ensures n > 6 ==> !Fails(w, view, policy, now, 6)
    ensures n > 7 ==> !Fails(w, view, policy, now, 7)
    ensures n > 8 ==> !Fails(w, view, policy, now, 8)
    ensures n > 9 ==> !Fails(w, view, policy, now, 9)
    ensures n > 10 ==> !Fails(w, view, policy, now, 10)
    ensures n > 11 ==> !Fails(w, view, policy, now, 11)
    ensures n > 12 ==> !Fails(w, view, policy, now, 12)
  {
    hide Fails;
  }

  lemma {:induction false} SomeFails(w: WorkOrder, view: View, policy: Policy, now: int)
    requires Authorize(w, view, policy, now).Refused?
    ensures exists check: nat :: Fails(w, view, policy, now, check)
  {
    if forall check: nat :: !Fails(w, view, policy, now, check) {
      NoneFailed(w, view, policy, now, 13);
      assert false;
    }
  }

  /** The earliest live trusted claim for the task is the agent's. */
  ghost predicate HoldsTask(log: seq<Comment>, now: int, task: string, agent: string) {
    var f := Claims(log);
    exists i: nat ::
      Live(f, now, task, i) && f.candidates[i].agent == agent && forall j :: 0 <= j < i ==> !Live(f, now, task, j)
  }

  // ------------------------------------------------------------ the parser's loops

  method TrustedComments(comments: seq<Comment>) returns (r: seq<Comment>)
    ensures r == Trusted(comments)
  {
    r := [];
    for k := 0 to |comments|
      invariant r == Trusted(comments[..k])
    {
      assert comments[..k + 1][..k] == comments[..k];
      if comments[k].trusted {
        r := r + [comments[k]];
      }
    }
    assert comments[..|comments|] == comments;
  }

  lemma {:induction false} AttemptsAppend(ms: seq<Mark>, m: Mark)
    ensures Attempts(ms + [m]) == Attempts(ms) + {m.attempt} && Attempts([]) == {}
  {
    assert forall x :: x in ms + [m] <==> x in ms || x == m;
  }

  method RaiseMarks(latest0: map<string, nat>, ms: seq<Mark>) returns (latest: map<string, nat>, attempts: set<string>)
    ensures latest == RaiseAll(latest0, ms) && attempts == Attempts(ms)
  {
    hide Raise, Attempts;
    latest, attempts := latest0, {};
    assert Attempts(ms[..0]) == {} by { AttemptsAppend([], Mark("", "", 0)); }
    for k := 0 to |ms|
      invariant latest == RaiseAll(latest0, ms[..k]) && attempts == Attempts(ms[..k])
    {
      assert ms[..k + 1][..k] == ms[..k];
      assert ms[..k + 1] == ms[..k] + [ms[k]];
      AttemptsAppend(ms[..k], ms[k]);
      latest := Raise(latest, ms[k]);
      attempts := attempts + {ms[k].attempt};
    }
    assert ms[..|ms|] == ms;
  }

  /** `parse_broker_ledger`. */
  method ParseBrokerLedger(comments: seq<Comment>, now: int) returns (claims: map<string, Claim>, fences: Fences)
    ensures fences == FenceLog(Trusted(comments))
    ensures forall task :: (task in claims <==> WinningClaim(comments, now, task).Some?)
    ensures forall task :: task in claims ==> WinningClaim(comments, now, task) == Some(claims[task])
  {
    hide FoldLog, RaiseAll, Attempts, FirstLive;
    var trusted := TrustedComments(comments);
    claims := ParseClaimLedger(trusted, now);
    fences := Fences(map[], {}, {});
    for k := 0 to |trusted|
      invariant fences == FenceLog(trusted[..k])
    {
      assert trusted[..k + 1][..k] == trusted[..k];
      var latest, ordered := RaiseMarks(fences.latest, trusted[k].orders);
      var latest', done := RaiseMarks(latest, trusted[k].dones);
      var latest'', cancelled := RaiseMarks(latest', trusted[k].cancels);
      fences := Fences(latest'', fences.terminal + done, fences.cancelled + cancelled);
    }
    assert trusted[..|trusted|] == trusted;
    forall task ensures (task in claims <==> WinningClaim(comments, now, task).Some?)
                        && (task in claims ==> WinningClaim(comments, now, task) == Some(claims[task])) {
      WinnerInRange(Claims(comments), now, task);
    }
  }
}
