/** The claim ledger: a lease lock read off an append-only comment log.

    A comment is its parsed directives. Within one comment releases act first, then
    renewals, then the claim, as `parse_claim_ledger` does. Times are integers. */
module ClaimLedger {
  import opened Basics

  datatype Release = Release(task: string, agent: string)
  /** `lease` is `None` when the deadline does not parse. */
  datatype Renew = Renew(task: string, agent: string, lease: Option<int>)
  datatype Claim = Claim(task: string, agent: string, lease: int)
  datatype Mark = Mark(task: string, attempt: string, generation: nat)

  datatype Comment = Comment(
    trusted: bool,
    releases: seq<Release>,
    renews: seq<Renew>,
    claim: Option<Claim>,
    orders: seq<Mark>,
    dones: seq<Mark>,
    cancels: seq<Mark>)

  /** `candidates` and the indices in `released`. */
  datatype Fold = Fold(candidates: seq<Claim>, released: set<nat>)

  predicate Open(f: Fold, i: nat, task: string, agent: string) {
    i < |f.candidates| && i !in f.released && f.candidates[i].task == task && f.candidates[i].agent == agent
  }

  /** The newest open candidate of an agent for a task, below index `n`. */
  function NewestOpen(f: Fold, task: string, agent: string, n: nat): Option<nat> {
    if n == 0 then None
    else if Open(f, n - 1, task, agent) then Some(n - 1)
    else NewestOpen(f, task, agent, n - 1)
  }

  function ApplyRelease(f: Fold, r: Release): Fold {
    match NewestOpen(f, r.task, r.agent, |f.candidates|)
    case None => f
    case Some(i) => f.(released := f.released + {i})
  }

  lemma {:induction false} NewestOpenIsOpen(f: Fold, task: string, agent: string, n: nat)
    ensures NewestOpen(f, task, agent, n).Some? ==> Open(f, NewestOpen(f, task, agent, n).value, task, agent)
  {
    if n > 0 { NewestOpenIsOpen(f, task, agent, n - 1); }
  }

  function ApplyRenew(f: Fold, r: Renew): Fold {
    if r.lease.None? then f
    else
      NewestOpenIsOpen(f, r.task, r.agent, |f.candidates|);
      match NewestOpen(f, r.task, r.agent, |f.candidates|)
      case None => f
      case Some(i) => f.(candidates := f.candidates[i := f.candidates[i].(lease := r.lease.value)])
  }

  function ApplyReleases(f: Fold, rs: seq<Release>): Fold {
    if rs == [] then f else ApplyRelease(ApplyReleases(f, rs[..|rs| - 1]), rs[|rs| - 1])
  }

  function ApplyRenews(f: Fold, rs: seq<Renew>): Fold {
    if rs == [] then f else ApplyRenew(ApplyRenews(f, rs[..|rs| - 1]), rs[|rs| - 1])
  }

  function ApplyClaim(f: Fold, c: Option<Claim>): Fold {
    if c.None? then f else f.(candidates := f.candidates + [c.value])
  }

  function ApplyComment(f: Fold, c: Comment): Fold {
    ApplyClaim(ApplyRenews(ApplyReleases(f, c.releases), c.renews), c.claim)
  }

  function FoldLog(log: seq<Comment>): Fold {
    if log == [] then Fold([], {}) else ApplyComment(FoldLog(log[..|log| - 1]), log[|log| - 1])
  }

  // ------------------------------------------------------------ who holds a task

  predicate Live(f: Fold, now: int, task: string, i: nat) {
    i < |f.candidates| && i !in f.released && f.candidates[i].task == task && f.candidates[i].lease > now
  }

  /** The first live candidate at or after index `i`. */
  function FirstLive(f: Fold, now: int, task: string, i: nat): Option<nat>
    decreases |f.candidates| - i
  {
    if i >= |f.candidates| then None
    else if Live(f, now, task, i) then Some(i)
    else FirstLive(f, now, task, i + 1)
  }

  function Winner(f: Fold, now: int, task: string): Option<nat> {
    FirstLive(f, now, task, 0)
  }

  lemma {:induction false} FirstLiveIs(f: Fold, now: int, task: string, i: nat, k: nat)
    ensures FirstLive(f, now, task, i).None? && i <= k ==> !Live(f, now, task, k)
    ensures FirstLive(f, now, task, i) == Some(k) <==>
            i <= k && Live(f, now, task, k) && forall j :: i <= j < k ==> !Live(f, now, task, j)
    decreases |f.candidates| - i
  {
    if i < |f.candidates| && !Live(f, now, task, i) {
      FirstLiveIs(f, now, task, i + 1, k);
    }
  }

  /** The winner is the earliest live claim. */
  lemma {:induction false} WinnerIs(f: Fold, now: int, task: string, k: nat)
    ensures Winner(f, now, task) == Some(k) <==>
              Live(f, now, task, k) && forall j :: 0 <= j < k ==> !Live(f, now, task, j)
  {
    FirstLiveIs(f, now, task, 0, k);
  }

  /** The same in full: the first claim on the task that is neither released nor lapsed. */
  lemma {:induction false} WinnerIff(f: Fold, now: int, task: string, k: nat)
    ensures Winner(f, now, task) == Some(k) <==>
              && k < |f.candidates| && k !in f.released && f.candidates[k].task == task && now < f.candidates[k].lease
              && forall j :: 0 <= j < k && f.candidates[j].task == task ==>
                   j in f.released || f.candidates[j].lease <= now
  {
    WinnerIs(f, now, task, k);
    if k < |f.candidates| {
      forall j | 0 <= j < k
        ensures Live(f, now, task, j) <==>
                  f.candidates[j].task == task && !(j in f.released || f.candidates[j].lease <= now) {
      }
    }
  }

  // ------------------------------------------------------------ what later comments can do

  ghost predicate HasRelease(e: seq<Comment>, task: string, agent: string) {
    exists k :: 0 <= k < |e| && Release(task, agent) in e[k].releases
  }

  ghost predicate RenewsTo(rs: seq<Renew>, task: string, agent: string, lease: int) {
    Renew(task, agent, Some(lease)) in rs
  }

  ghost predicate HasRenewTo(e: seq<Comment>, task: string, agent: string, lease: int) {
    exists k :: 0 <= k < |e| && RenewsTo(e[k].renews, task, agent, lease)
  }

  /** Candidates keep their place, task and agent; releases are never undone. */
  ghost predicate Grows(f: Fold, g: Fold) {
    && |f.candidates| <= |g.candidates|
    && f.released <= g.released
    && (forall i :: 0 <= i < |f.candidates| ==>
        g.candidates[i].task == f.candidates[i].task && g.candidates[i].agent == f.candidates[i].agent)
  }

  lemma {:induction false} ReleasesEffect(f: Fold, rs: seq<Release>)
    ensures var g := ApplyReleases(f, rs);
            g.candidates == f.candidates && f.released <= g.released
            && forall i :: i in g.released && i !in f.released ==>
                 i < |f.candidates| && Release(f.candidates[i].task, f.candidates[i].agent) in rs
  {
    if rs != [] {
      var front := rs[..|rs| - 1];
      var r := rs[|rs| - 1];
      ReleasesEffect(f, front);
      var g := ApplyReleases(f, front);
      NewestOpenIsOpen(g, r.task, r.agent, |g.candidates|);
      assert rs == front + [r];
    }
  }

  lemma {:induction false} RenewsEffect(f: Fold, rs: seq<Renew>)
    ensures var g := ApplyRenews(f, rs);
            |g.candidates| == |f.candidates| && g.released == f.released && Grows(f, g)
            && forall i :: 0 <= i < |f.candidates| && g.candidates[i].lease != f.candidates[i].lease ==>
                 RenewsTo(rs, f.candidates[i].task, f.candidates[i].agent, g.candidates[i].lease)
  {
    if rs != [] {
      var front := rs[..|rs| - 1];
      var r := rs[|rs| - 1];
      RenewsEffect(f, front);
      var g := ApplyRenews(f, front);
      NewestOpenIsOpen(g, r.task, r.agent, |g.candidates|);
      assert rs == front + [r];
    }
  }

  /** One comment releases, renews or adds only what its directives name. */
  lemma {:induction false} CommentEffect(f: Fold, c: Comment)
    ensures var g := ApplyComment(f, c);
            Grows(f, g)
            && (forall i :: i in g.released && i !in f.released ==>
                  i < |f.candidates| && Release(f.candidates[i].task, f.candidates[i].agent) in c.releases)
            && (forall i :: 0 <= i < |f.candidates| && g.candidates[i].lease != f.candidates[i].lease ==>
                  RenewsTo(c.renews, f.candidates[i].task, f.candidates[i].agent, g.candidates[i].lease))
  {
    ReleasesEffect(f, c.releases);
    RenewsEffect(ApplyReleases(f, c.releases), c.renews);
  }

  /** Over any extension of the log: releases and lease changes trace back to directives in it. */
  lemma {:induction false} ExtensionEffect(log: seq<Comment>, e: seq<Comment>)
    ensures var f := FoldLog(log); var g := FoldLog(log + e);
            Grows(f, g)
            && (forall i :: 0 <= i < |f.candidates| && i in g.released && i !in f.released ==>
                  HasRelease(e, f.candidates[i].task, f.candidates[i].agent))
            && (forall i :: 0 <= i < |f.candidates| && g.candidates[i].lease != f.candidates[i].lease ==>
                  HasRenewTo(e, f.candidates[i].task, f.candidates[i].agent, g.candidates[i].lease))
  {
    if e == [] {
      assert log + e == log;
    } else {
      hide ApplyComment;
      var front := e[..|e| - 1];
      var c := e[|e| - 1];
      ExtensionEffect(log, front);
      assert log + e == (log + front) + [c];
      CommentEffect(FoldLog(log + front), c);
    }
  }

  // ------------------------------------------------------------ what a directive does

  const NOTHING := Comment(true, [], [], None, [], [], [])

  /** `i` is the last of the agent's open claims on the task. */
  ghost predicate Newest(f: Fold, i: nat, task: string, agent: string) {
    && i < |f.candidates| && i !in f.released && f.candidates[i].task == task && f.candidates[i].agent == agent
    && forall k :: i < k < |f.candidates| && f.candidates[k].task == task && f.candidates[k].agent == agent ==>
         k in f.released
  }

  lemma {:induction false} NewestOpenIs(f: Fold, task: string, agent: string, n: nat)
    ensures var r := NewestOpen(f, task, agent, n);
            if r.Some? then
              r.value < n && Open(f, r.value, task, agent) && forall k :: r.value < k < n ==> !Open(f, k, task, agent)
            else forall k :: 0 <= k < n ==> !Open(f, k, task, agent)
  {
    if n > 0 { NewestOpenIs(f, task, agent, n - 1); }
  }

  lemma {:induction false} NewestIs(f: Fold, i: nat, task: string, agent: string)
    ensures Newest(f, i, task, agent) <==>
              Open(f, i, task, agent) && forall k :: i < k < |f.candidates| ==> !Open(f, k, task, agent)
  {
    forall k | i < k < |f.candidates|
      ensures !Open(f, k, task, agent) <==>
                (f.candidates[k].task == task && f.candidates[k].agent == agent ==> k in f.released) {
    }
  }

  lemma {:induction false} OneDirective(f: Fold, r: Release, n: Renew)
    ensures ApplyReleases(f, [r]) == ApplyRelease(f, r) && ApplyRenews(f, [n]) == ApplyRenew(f, n)
  {
    assert [r][..0] == [] && [n][..0] == [];
  }

  /** A release closes exactly the agent's newest open claim on the task, and does nothing if there is none. */
  lemma {:induction false} ReleaseEffect(f: Fold, task: string, agent: string)
    ensures var g := ApplyComment(f, NOTHING.(releases := [Release(task, agent)]));
            && g.candidates == f.candidates
            && (forall i: nat :: Newest(f, i, task, agent) ==> g.released == f.released + {i})
            && ((forall i: nat :: !Open(f, i, task, agent)) ==> g.released == f.released)
  {
    OneDirective(f, Release(task, agent), Renew(task, agent, None));
    NewestOpenIs(f, task, agent, |f.candidates|);
    forall i: nat | Newest(f, i, task, agent) ensures NewestOpen(f, task, agent, |f.candidates|) == Some(i) {
      NewestIs(f, i, task, agent);
    }
  }

  /** A renewal gives exactly the agent's newest open claim on the task the new lease, and does nothing if there is
      none or the deadline does not parse. */
  lemma {:induction false} RenewEffect(f: Fold, task: string, agent: string, lease: Option<int>)
    ensures var g := ApplyComment(f, NOTHING.(renews := [Renew(task, agent, lease)]));
            && g.released == f.released
            && (forall i: nat :: Newest(f, i, task, agent) && lease.Some? ==>
                  g.candidates == f.candidates[i := Claim(task, agent, lease.value)])
            && (lease.None? || (forall i: nat :: !Open(f, i, task, agent)) ==> g.candidates == f.candidates)
  {
    OneDirective(f, Release(task, agent), Renew(task, agent, lease));
    NewestOpenIs(f, task, agent, |f.candidates|);
    forall i: nat | Newest(f, i, task, agent) ensures NewestOpen(f, task, agent, |f.candidates|) == Some(i) {
      NewestIs(f, i, task, agent);
    }
  }

  /** A claim becomes the last candidate, open whatever its lease. */
  lemma {:induction false} ClaimEffect(f: Fold, c: Claim)
    ensures ApplyComment(f, NOTHING.(claim := Some(c))) == Fold(f.candidates + [c], f.released)
    ensures ApplyComment(f, NOTHING) == f
  {
  }

  /** A comment acts as its directives one by one: releases first, then renewals, then the claim. */
  lemma {:induction false} CommentActsInOrder(f: Fold, c: Comment)
    ensures c.releases != [] ==>
              ApplyComment(f, c) ==
              ApplyComment(ApplyComment(f, NOTHING.(releases := [c.releases[0]])), c.(releases := c.releases[1..]))
    ensures c.releases == [] && c.renews != [] ==>
              ApplyComment(f, c) ==
              ApplyComment(ApplyComment(f, NOTHING.(renews := [c.renews[0]])), c.(renews := c.renews[1..]))
    ensures c.releases == [] && c.renews == [] ==> ApplyComment(f, c) == ApplyComment(f, NOTHING.(claim := c.claim))
  {
    if c.releases != [] { ReleasesFront(f, c.releases); }
    if c.renews != [] { RenewsFront(f, c.renews); }
  }

  lemma {:induction false} ReleasesFront(f: Fold, rs: seq<Release>)
    requires rs != []
    ensures ApplyReleases(f, rs) == ApplyReleases(ApplyReleases(f, [rs[0]]), rs[1..])
  {
    if |rs| == 1 {
      assert rs == [rs[0]];
    } else {
      var front := rs[..|rs| - 1];
      ReleasesFront(f, front);
      assert front[1..] == rs[1..][..|rs| - 2];
    }
  }

  lemma {:induction false} RenewsFront(f: Fold, rs: seq<Renew>)
    requires rs != []
    ensures ApplyRenews(f, rs) == ApplyRenews(ApplyRenews(f, [rs[0]]), rs[1..])
  {
    if |rs| == 1 {
      assert rs == [rs[0]];
    } else {
      var front := rs[..|rs| - 1];
      RenewsFront(f, front);
      assert front[1..] == rs[1..][..|rs| - 2];
    }
  }

  /** The agent's open claims on the task. */
  function OpenClaims(f: Fold, task: string, agent: string): set<nat> {
    set i | 0 <= i < |f.candidates| && Open(f, i, task, agent)
  }

  /** Each release of an agent's claim on a task leaves one open claim fewer, until none is left. */
  lemma {:induction false} ReleasesCount(f: Fold, rs: seq<Release>, task: string, agent: string)
    ensures var n, m := |OpenClaims(f, task, agent)|, multiset(rs)[Release(task, agent)];
            |OpenClaims(ApplyReleases(f, rs), task, agent)| == if m >= n then 0 else n - m
  {
    if rs != [] {
      var front, r := rs[..|rs| - 1], rs[|rs| - 1];
      ReleasesCount(f, front, task, agent);
      assert rs == front + [r];
      OneReleaseCount(ApplyReleases(f, front), r, task, agent);
    }
  }

  lemma {:induction false} OneReleaseCount(f: Fold, r: Release, task: string, agent: string)
    ensures var n := |OpenClaims(f, task, agent)|;
            |OpenClaims(ApplyRelease(f, r), task, agent)| ==
            if r == Release(task, agent) && n > 0 then n - 1 else n
  {
    hide NewestOpen;
    var s, g := OpenClaims(f, task, agent), ApplyRelease(f, r);
    NewestOpenIs(f, r.task, r.agent, |f.candidates|);
    var m := NewestOpen(f, r.task, r.agent, |f.candidates|);
    if m.None? {
      assert r == Release(task, agent) ==> s == {};
    } else if r == Release(task, agent) {
      assert m.value in s;
      assert OpenClaims(g, task, agent) == s - {m.value};
    } else {
      assert OpenClaims(g, task, agent) == s;
    }
  }

  lemma {:induction false} RenewsKeepOpen(f: Fold, rs: seq<Renew>, task: string, agent: string)
    ensures OpenClaims(ApplyRenews(f, rs), task, agent) == OpenClaims(f, task, agent)
  {
    RenewsEffect(f, rs);
  }

  /** After a comment that releases a task as often as the agent has open claims on it, none of its claims on the task
      is live, and none of them ever is again. */
  lemma {:induction false} ReleasedForGood(log: seq<Comment>, c: Comment, e: seq<Comment>, task: string, agent: string,
                                           now: int, i: nat)
    requires multiset(c.releases)[Release(task, agent)] >= |OpenClaims(FoldLog(log), task, agent)|
    requires i < |FoldLog(log).candidates| && FoldLog(log).candidates[i].agent == agent
    ensures !Live(FoldLog(log + [c] + e), now, task, i)
  {
    var f, g := FoldLog(log), FoldLog(log + [c]);
    assert (log + [c])[..|log|] == log;
    ReleasesCount(f, c.releases, task, agent);
    var r := ApplyReleases(f, c.releases);
    ReleasesEffect(f, c.releases);
    RenewsEffect(r, c.renews);
    assert OpenClaims(r, task, agent) == {};
    assert f.candidates[i].task == task ==> i in r.released by {
      assert i !in OpenClaims(r, task, agent);
      assert r.candidates == f.candidates;
    }
    ExtensionEffect(log + [c], e);
  }

  /** A claim in the log is its last candidate and wins as long as its lease runs and no earlier claim is live. */
  lemma {:induction false} ClaimWinsIff(log: seq<Comment>, c: Comment, now: int)
    requires c.claim.Some?
    ensures var g := FoldLog(log + [c]); var n := |FoldLog(log).candidates|;
            && |g.candidates| == n + 1 && g.candidates[n] == c.claim.value
            && (Winner(g, now, c.claim.value.task) == Some(n) <==>
                  c.claim.value.lease > now && forall j :: 0 <= j < n ==> !Live(g, now, c.claim.value.task, j))
  {
    hide FirstLive;
    assert (log + [c])[..|log|] == log;
    var f := FoldLog(log);
    ReleasesEffect(f, c.releases);
    RenewsEffect(ApplyReleases(f, c.releases), c.renews);
    ReleasedInRange(log);
    WinnerIs(FoldLog(log + [c]), now, c.claim.value.task, |f.candidates|);
  }

  lemma {:induction false} ReleasedInRange(log: seq<Comment>)
    ensures forall i :: i in FoldLog(log).released ==> i < |FoldLog(log).candidates|
  {
    hide ApplyComment;
    if log != [] {
      ReleasedInRange(log[..|log| - 1]);
      CommentEffect(FoldLog(log[..|log| - 1]), log[|log| - 1]);
    }
  }

  // ------------------------------------------------------------ stability of a win

  /** The winner's own agent released it. */
  ghost predicate ReleasedSince(log: seq<Comment>, e: seq<Comment>, i: nat) {
    var f, g := FoldLog(log), FoldLog(log + e);
    i < |f.candidates| && i in g.released && HasRelease(e, f.candidates[i].task, f.candidates[i].agent)
  }

  /** The lease the ledger now shows for it has passed. */
  ghost predicate LapsedBy(log: seq<Comment>, now: int, i: nat) {
    var g := FoldLog(log);
    i < |g.candidates| && g.candidates[i].lease <= now
  }

  /** An earlier claim that had lapsed is live again: renewed since, unless the second reading used an earlier clock. */
  ghost predicate RevivedBefore(log: seq<Comment>, e: seq<Comment>, task: string, i: nat, now: int, now': int) {
    var f, g := FoldLog(log), FoldLog(log + e);
    exists j :: 0 <= j < i && j < |f.candidates| && Live(g, now', task, j) && !Live(f, now, task, j)
                && f.candidates[j].lease <= now
                && (now <= now' ==> HasRenewTo(e, task, f.candidates[j].agent, g.candidates[j].lease))
  }

  /** A later reading of the log shows the same winner exactly when none of the three displacements happened. */
  lemma {:induction false} WinStability(log: seq<Comment>, e: seq<Comment>, task: string, now: int, now': int, i: nat)
    requires Winner(FoldLog(log), now, task) == Some(i)
    ensures Winner(FoldLog(log + e), now', task) == Some(i) <==>
              !ReleasedSince(log, e, i) && !LapsedBy(log + e, now', i) && !RevivedBefore(log, e, task, i, now, now')
  {
    hide FoldLog, FirstLive;
    var f, g := FoldLog(log), FoldLog(log + e);
    WinnerIs(f, now, task, i);
    WinnerIs(g, now', task, i);
    ExtensionEffect(log, e);
    assert Live(g, now', task, i) <==> !ReleasedSince(log, e, i) && !LapsedBy(log + e, now', i);
    forall j | 0 <= j < i && Live(g, now', task, j) ensures RevivedBefore(log, e, task, i, now, now') {
      assert !Live(f, now, task, j);
      assert now <= now' ==> g.candidates[j].lease != f.candidates[j].lease;
    }
  }

  /** Two agents that both pass the win check for one task are separated by one of the three. */
  lemma {:induction false} TwoWinnersAreSeparated(log: seq<Comment>, e: seq<Comment>, task: string, now: int,
                                                  now': int, i: nat, j: nat)
    requires Winner(FoldLog(log), now, task) == Some(i) && Winner(FoldLog(log + e), now', task) == Some(j)
    requires i < |FoldLog(log).candidates| && j < |FoldLog(log + e).candidates|
    requires FoldLog(log).candidates[i].agent != FoldLog(log + e).candidates[j].agent
    ensures ReleasedSince(log, e, i) || LapsedBy(log + e, now', i) || RevivedBefore(log, e, task, i, now, now')
  {
    hide FoldLog, FirstLive;
    WinStability(log, e, task, now, now', i);
    ExtensionEffect(log, e);
  }

  // ------------------------------------------------------------ the parser's loops

  method FindNewestOpen(candidates: seq<Claim>, released: set<nat>, task: string, agent: string)
    returns (r: Option<nat>)
    ensures r == NewestOpen(Fold(candidates, released), task, agent, |candidates|)
    ensures r.Some? ==> r.value < |candidates|
  {
    var index: nat := |candidates|;
    while index > 0
      invariant index <= |candidates|
      invariant NewestOpen(Fold(candidates, released), task, agent, |candidates|) ==
                NewestOpen(Fold(candidates, released), task, agent, index)
    {
      index := index - 1;
      var claim := candidates[index];
      if index !in released && claim.task == task && claim.agent == agent {
        return Some(index);
      }
    }
    r := None;
  }

  method FoldOneComment(candidates0: seq<Claim>, released0: set<nat>, c: Comment)
    returns (candidates: seq<Claim>, released: set<nat>)
    ensures Fold(candidates, released) == ApplyComment(Fold(candidates0, released0), c)
  {
    candidates, released := candidates0, released0;
    ghost var f0 := Fold(candidates0, released0);
    for k := 0 to |c.releases|
      invariant Fold(candidates, released) == ApplyReleases(f0, c.releases[..k])
    {
      assert c.releases[..k + 1][..k] == c.releases[..k];
      var found := FindNewestOpen(candidates, released, c.releases[k].task, c.releases[k].agent);
      if found.Some? {
        released := released + {found.value};
      }
    }
    assert c.releases[..|c.releases|] == c.releases;
    ghost var f1 := Fold(candidates, released);
    for k := 0 to |c.renews|
      invariant Fold(candidates, released) == ApplyRenews(f1, c.renews[..k])
    {
      assert c.renews[..k + 1][..k] == c.renews[..k];
      if c.renews[k].lease.Some? {
        var found := FindNewestOpen(candidates, released, c.renews[k].task, c.renews[k].agent);
        if found.Some? {
          candidates := candidates[found.value := candidates[found.value].(lease := c.renews[k].lease.value)];
        }
      }
    }
    assert c.renews[..|c.renews|] == c.renews;
    if c.claim.Some? {
      candidates := candidates + [c.claim.value];
    }
  }

  /** `parse_claim_ledger`: the dictionary maps each task to its earliest live claim. */
  method ParseClaimLedger(comments: seq<Comment>, now: int) returns (claims: map<string, Claim>)
    ensures forall task :: task in claims <==> Winner(FoldLog(comments), now, task).Some?
    ensures forall task, k :: Winner(FoldLog(comments), now, task) == Some(k) && k < |FoldLog(comments).candidates| ==>
              task in claims && claims[task] == FoldLog(comments).candidates[k]
  {
    hide ApplyComment;
    var candidates: seq<Claim> := [];
    var released: set<nat> := {};
    for k := 0 to |comments|
      invariant Fold(candidates, released) == FoldLog(comments[..k])
    {
      assert comments[..k + 1][..k] == comments[..k];
      candidates, released := FoldOneComment(candidates, released, comments[k]);
    }
    assert comments[..|comments|] == comments;
    claims := CollectWinners(candidates, released, now);
  }

  /** The final loop with `setdefault`. */
  method CollectWinners(candidates: seq<Claim>, released: set<nat>, now: int) returns (claims: map<string, Claim>)
    ensures forall task :: task in claims <==> Winner(Fold(candidates, released), now, task).Some?
    ensures forall task, k :: Winner(Fold(candidates, released), now, task) == Some(k) && k < |candidates| ==>
              task in claims && claims[task] == candidates[k]
  {
    hide FirstLive;
    claims := map[];
    ghost var f := Fold(candidates, released);
    ghost var at: map<string, nat> := map[];
    for k := 0 to |candidates|
      invariant at.Keys == claims.Keys
      invariant forall task :: task in at ==>
                at[task] < k && claims[task] == candidates[at[task]] && Live(f, now, task, at[task])
      invariant forall task, j :: task in at && 0 <= j < at[task] ==> !Live(f, now, task, j)
      invariant forall task, j :: task !in at && 0 <= j < k ==> !Live(f, now, task, j)
    {
      var claim := candidates[k];
      if k !in released && claim.lease > now && claim.task !in claims {
        claims := claims[claim.task := claim];
        at := at[claim.task := k];
      }
    }
    forall task ensures task in at <==> Winner(f, now, task).Some? {
      WinnerFound(f, now, task);
      if task in at { WinnerIs(f, now, task, at[task]); }
    }
    forall task, k | Winner(f, now, task) == Some(k) && k < |candidates|
           ensures task in claims && claims[task] == candidates[k] {
      WinnerIs(f, now, task, at[task]);
    }
  }

  lemma {:induction false} WinnerFound(f: Fold, now: int, task: string)
    ensures Winner(f, now, task).Some? <==> exists k: nat :: Live(f, now, task, k)
  {
    if Winner(f, now, task).Some? {
      WinnerIs(f, now, task, Winner(f, now, task).value);
    } else {
      forall k: nat ensures !Live(f, now, task, k) { FirstLiveIs(f, now, task, 0, k); }
    }
  }
}
