/** Projecting durable events into a graph: the adapter, its ledger and the worker's cycle.

    Call number `k` is answered by `reply(k)`, and an added episode is known by the number of
    the call that added it. Here the worker learns every answer; `Bookkeeping` has lost ones. */
module Projection {
  import opened Basics
  import opened Ordering

  datatype Event = Event(eventId: string, recordedAt: string, packId: string)

  /** The key `(recorded_at, event_id)` of `canonical_event_order`. */
  predicate EventLe(a: Event, b: Event) {
    if a.recordedAt != b.recordedAt then StringLe(a.recordedAt, b.recordedAt) else StringLe(a.eventId, b.eventId)
  }

  /** A client call fails, or succeeds with or without reporting the episode's UUID. */
  datatype Reply = Fails | Succeeds(uuid: bool)

  datatype Status = Applied | Skipped | Redacted | Failed
  datatype Receipt = Receipt(eventId: string, status: Status)

  /** Ledger records per event, live episodes by call number, and calls made so far. */
  datatype State = State(applied: map<string, Option<nat>>, redacted: set<string>, episodes: map<nat, string>,
                         calls: nat)

  const EMPTY := State(map[], {}, map[], 0)

  // ------------------------------------------------------------ the adapter

  function AddEpisode(p: State, id: string, reply: nat -> Reply): (State, Status) {
    match reply(p.calls)
    case Fails => (p.(calls := p.calls + 1), Failed)
    case Succeeds(uuid) =>
      (State(p.applied[id := if uuid then Some(p.calls) else None], p.redacted, p.episodes[p.calls := id],
             p.calls + 1), Applied)
  }

  /** `remove_event_async`. */
  function RemoveEvent(p: State, id: string, reply: nat -> Reply): (State, Status) {
    if id in p.redacted then (p, Skipped)
    else if id !in p.applied then (p.(redacted := p.redacted + {id}), Redacted)
    else if p.applied[id].None? then (p, Failed)
    else if reply(p.calls).Fails? then (p.(calls := p.calls + 1), Failed)
    else (State(p.applied, p.redacted + {id}, p.episodes - {p.applied[id].value}, p.calls + 1), Redacted)
  }

  /** `apply_event_async`. */
  function ApplyEvent(p: State, e: Event, visible: Event -> bool, reply: nat -> Reply): (State, Status) {
    if e.eventId in p.redacted then (p, Skipped)
    else if !visible(e) then
      if e.eventId in p.applied then RemoveEvent(p, e.eventId, reply)
      else (p.(redacted := p.redacted + {e.eventId}), Redacted)
    else if e.eventId in p.applied then (p, Skipped)
    else AddEpisode(p, e.eventId, reply)
  }

  /** `purge_event_redactions_async` over the tombstones in listing order. */
  function Purge(p: State, tombs: seq<string>, reply: nat -> Reply): (State, seq<Receipt>) {
    if tombs == [] then (p, [])
    else
      var before := Purge(p, tombs[..|tombs| - 1], reply);
      var id := tombs[|tombs| - 1];
      if id in before.0.redacted then before
      else
        var last := RemoveEvent(before.0, id, reply);
        (last.0, before.1 + [Receipt(id, last.1)])
  }

  predicate AnyFailed(receipts: seq<Receipt>) {
    exists r :: r in receipts && r.status.Failed?
  }

  /** One event of the worker's scan; it skips what the ledger already records. */
  function ScanEvent(p: State, e: Event, visible: Event -> bool, reply: nat -> Reply): (State, Status) {
    if e.eventId in p.redacted || e.eventId in p.applied then (p, Skipped) else ApplyEvent(p, e, visible, reply)
  }

  /** The scan of the first `n` events, none of which failed before the last. */
  function Scan(p: State, events: seq<Event>, visible: Event -> bool, reply: nat -> Reply): (State, seq<Receipt>)
    decreases |events|
  {
    if events == [] then (p, [])
    else
      var first := ScanEvent(p, events[0], visible, reply);
      if first.1.Failed? then (first.0, [Receipt(events[0].eventId, first.1)])
      else
        var rest := Scan(first.0, events[1..], visible, reply);
        (rest.0, [Receipt(events[0].eventId, first.1)] + rest.1)
  }

  /** `run_once_async`: purge, and unless that failed, scan in canonical order up to the first failure. */
  function Cycle(p: State, events: seq<Event>, tombs: seq<string>, visible: Event -> bool, reply: nat -> Reply)
    : (State, seq<Receipt>) {
    var purged := Purge(p, tombs, reply);
    if AnyFailed(purged.1) then purged
    else
      var scanned := Scan(purged.0, Sort(EventLe, events), visible, reply);
      (scanned.0, purged.1 + scanned.1)
  }

  // ------------------------------------------------------------ live episodes

  ghost predicate LiveEpisode(p: State, id: string) {
    exists h :: h in p.episodes && p.episodes[h] == id
  }

  /** Live episodes are exactly the events applied and not redacted, one episode each. */
  ghost predicate Mirrors(p: State) {
    && (forall h :: h in p.episodes ==> h < p.calls && p.episodes[h] in p.applied && p.episodes[h] !in p.redacted)
    && (forall h, k :: h in p.episodes && k in p.episodes && p.episodes[h] == p.episodes[k] ==> h == k)
    && (forall id :: id in p.applied && id !in p.redacted ==> LiveEpisode(p, id))
    && (forall id :: id in p.applied && id !in p.redacted && p.applied[id].Some? ==>
          p.applied[id].value in p.episodes && p.episodes[p.applied[id].value] == id)
  }

  lemma {:induction false} AddMirrors(p: State, id: string, reply: nat -> Reply)
    requires Mirrors(p) && id !in p.applied && id !in p.redacted
    ensures Mirrors(AddEpisode(p, id, reply).0)
  {
    var q := AddEpisode(p, id, reply).0;
    forall x | x in q.applied && x !in q.redacted ensures LiveEpisode(q, x) {
      if x == id && reply(p.calls).Succeeds? {
        assert q.episodes[p.calls] == id;
      } else {
        assert LiveEpisode(p, x);
        var h :| h in p.episodes && p.episodes[h] == x;
        assert q.episodes[h] == x;
      }
    }
  }

  lemma {:induction false} RemoveMirrors(p: State, id: string, reply: nat -> Reply)
    requires Mirrors(p)
    ensures Mirrors(RemoveEvent(p, id, reply).0)
  {
    var q := RemoveEvent(p, id, reply).0;
    forall x | x in q.applied && x !in q.redacted ensures LiveEpisode(q, x) {
      assert LiveEpisode(p, x);
      var h :| h in p.episodes && p.episodes[h] == x;
      assert h in q.episodes && q.episodes[h] == x;
    }
  }

  lemma {:induction false} ApplyMirrors(p: State, e: Event, visible: Event -> bool, reply: nat -> Reply)
    requires Mirrors(p)
    ensures Mirrors(ApplyEvent(p, e, visible, reply).0)
  {
    hide Mirrors, AddEpisode;
    var id := e.eventId;
    if id !in p.redacted && !visible(e) {
      RemoveMirrors(p, id, reply);
    } else if id !in p.redacted && id !in p.applied {
      AddMirrors(p, id, reply);
    }
  }

  lemma {:induction false} PurgeMirrors(p: State, tombs: seq<string>, reply: nat -> Reply)
    requires Mirrors(p)
    ensures Mirrors(Purge(p, tombs, reply).0)
  {
    hide Mirrors, RemoveEvent;
    if tombs != [] {
      PurgeMirrors(p, tombs[..|tombs| - 1], reply);
      RemoveMirrors(Purge(p, tombs[..|tombs| - 1], reply).0, tombs[|tombs| - 1], reply);
    }
  }

  lemma {:induction false} ScanMirrors(p: State, events: seq<Event>, visible: Event -> bool, reply: nat -> Reply)
    requires Mirrors(p)
    ensures Mirrors(Scan(p, events, visible, reply).0)
    decreases |events|
  {
    hide Mirrors, ApplyEvent;
    if events != [] {
      ApplyMirrors(p, events[0], visible, reply);
      ScanMirrors(ScanEvent(p, events[0], visible, reply).0, events[1..], visible, reply);
    }
  }

  /** Every cycle, whatever fails and whatever the visibility policy, keeps live episodes equal to applied minus
      redacted. */
  lemma {:induction false} CycleMirrors(p: State, events: seq<Event>, tombs: seq<string>, visible: Event -> bool,
                                        reply: nat -> Reply)
    requires Mirrors(p)
    ensures Mirrors(Cycle(p, events, tombs, visible, reply).0)
  {
    hide Mirrors, Purge, Scan, Sort, EventLe;
    PurgeMirrors(p, tombs, reply);
    ScanMirrors(Purge(p, tombs, reply).0, Sort(EventLe, events), visible, reply);
  }

  // ------------------------------------------------------------ progress

  function Done(p: State): set<string> {
    p.applied.Keys + p.redacted
  }

  function Ids(events: seq<Event>): set<string> {
    set e | e in events :: e.eventId
  }

  /** What a purge can change: only redaction records, of tombstoned events. */
  lemma {:induction false} PurgeEffect(p: State, tombs: seq<string>, reply: nat -> Reply)
    ensures var q := Purge(p, tombs, reply);
            && q.0.applied == p.applied && p.redacted <= q.0.redacted <= p.redacted + Elements(tombs)
            && (!AnyFailed(q.1) ==> Elements(tombs) <= q.0.redacted)
            && (Elements(tombs) <= p.redacted ==> q == (p, []))
  {
    if tombs != [] {
      var front, id := tombs[..|tombs| - 1], tombs[|tombs| - 1];
      PurgeEffect(p, front, reply);
      assert tombs == front + [id];
      assert Elements(tombs) == Elements(front) + {id};
      var before := Purge(p, front, reply);
      var last := RemoveEvent(before.0, id, reply);
      if id !in before.0.redacted {
        var receipts := before.1 + [Receipt(id, last.1)];
        assert receipts[|before.1|] == Receipt(id, last.1);
        assert AnyFailed(receipts) <==> AnyFailed(before.1) || last.1.Failed?;
      }
    }
  }

  /** One scanned event either fails and records nothing, or ends up recorded. */
  lemma {:induction false} ScanEventEffect(p: State, e: Event, visible: Event -> bool, reply: nat -> Reply)
    ensures var q := ScanEvent(p, e, visible, reply);
            && Done(q.0) == (if q.1.Failed? then Done(p) else Done(p) + {e.eventId})
            && p.redacted <= q.0.redacted && p.applied.Keys <= q.0.applied.Keys
            && q.0.applied.Keys <= p.applied.Keys + (if e.eventId in p.redacted then {} else {e.eventId})
            && (visible(e) ==> q.0.redacted == p.redacted)
            && (e.eventId in Done(p) ==> q == (p, Skipped))
  {
  }

  /** How far a scan got. */
  function Reached(p: State, events: seq<Event>, visible: Event -> bool, reply: nat -> Reply): (n: nat)
    ensures n <= |events|
    decreases |events|
  {
    if events == [] || ScanEvent(p, events[0], visible, reply).1.Failed? then 0
    else 1 + Reached(ScanEvent(p, events[0], visible, reply).0, events[1..], visible, reply)
  }

  /** A scan records exactly a prefix of the events it is given, on top of what was recorded. */
  lemma {:induction false} ScanEffect(p: State, events: seq<Event>, visible: Event -> bool, reply: nat -> Reply)
    ensures var q := Scan(p, events, visible, reply); var n := Reached(p, events, visible, reply);
            Done(q.0) == Done(p) + Ids(events[..n]) && (AnyFailed(q.1) <==> n < |events|)
    decreases |events|
  {
    hide ScanEvent, AnyFailed, Done;
    if events == [] {
      ReceiptsSplit(Receipt("", Skipped), []);
      assert Ids(events[..0]) == {};
    } else {
      var first := ScanEvent(p, events[0], visible, reply);
      var rest := events[1..];
      ScanEventEffect(p, events[0], visible, reply);
      if first.1.Failed? {
        ReceiptsSplit(Receipt(events[0].eventId, first.1), []);
        assert Ids(events[..0]) == {};
        assert [Receipt(events[0].eventId, first.1)] + [] == [Receipt(events[0].eventId, first.1)];
      } else {
        ScanEffect(first.0, rest, visible, reply);
        var n := Reached(first.0, rest, visible, reply);
        assert events[..n + 1][1..] == rest[..n];
        ReceiptsSplit(Receipt(events[0].eventId, first.1), Scan(first.0, rest, visible, reply).1);
      }
    }
  }

  /** A scan forgets nothing, newly applies only events that were not redacted, and with no policy redacts nothing. */
  lemma {:induction false} ScanKeeps(p: State, events: seq<Event>, visible: Event -> bool, reply: nat -> Reply)
    ensures var q := Scan(p, events, visible, reply).0;
            && p.redacted <= q.redacted && p.applied.Keys <= q.applied.Keys
            && q.applied.Keys <= p.applied.Keys + (Ids(events) - p.redacted)
            && ((forall e :: e in events ==> visible(e)) ==> q.redacted == p.redacted)
    decreases |events|
  {
    hide ScanEvent, Done, AnyFailed;
    if events != [] {
      ScanEventEffect(p, events[0], visible, reply);
      ScanKeeps(ScanEvent(p, events[0], visible, reply).0, events[1..], visible, reply);
    }
  }

  /** A scan of recorded events changes nothing and makes no client call. */
  lemma {:induction false} ScanQuiet(p: State, events: seq<Event>, visible: Event -> bool, reply: nat -> Reply)
    requires Ids(events) <= Done(p)
    ensures Scan(p, events, visible, reply).0 == p
    decreases |events|
  {
    hide ScanEvent, Done;
    if events != [] {
      ScanEventEffect(p, events[0], visible, reply);
      ScanQuiet(p, events[1..], visible, reply);
    }
  }

  lemma {:induction false} ReceiptsSplit(r: Receipt, rs: seq<Receipt>)
    ensures AnyFailed([r] + rs) <==> r.status.Failed? || AnyFailed(rs)
    ensures !AnyFailed([])
  {
    assert ([r] + rs)[0] == r;
    if AnyFailed(rs) {
      var x :| x in rs && x.status.Failed?;
      assert x in [r] + rs;
    }
  }

  // ------------------------------------------------------------ what one event does

  /** When an event is added to the graph: exactly if the ledger knows nothing of it and the policy shows it. */
  lemma {:induction false} AppliesIff(p: State, e: Event, visible: Event -> bool, reply: nat -> Reply)
    ensures var q := ApplyEvent(p, e, visible, reply); var id := e.eventId;
            && (q.1.Applied? <==> id !in p.redacted && id !in p.applied && visible(e) && reply(p.calls).Succeeds?)
            && (q.1.Applied? ==>
                  && q.0.episodes == p.episodes[p.calls := id] && q.0.redacted == p.redacted
                  && q.0.applied == p.applied[id := if reply(p.calls).uuid then Some(p.calls) else None])
            && (!q.1.Applied? ==> q.0.applied == p.applied)
            && (id in p.redacted || (visible(e) && id in p.applied) ==> q == (p, Skipped))
            && (visible(e) ==> q.0.redacted == p.redacted)
            && (visible(e) ==> q.0.calls == p.calls + if id in p.redacted || id in p.applied then 0 else 1)
  {
  }

  /** What a hidden event comes to: recorded as redacted without a call if it was never applied; if it was, its episode
      is removed, unless its UUID is unknown or the client fails. */
  lemma {:induction false} HiddenEvent(p: State, e: Event, visible: Event -> bool, reply: nat -> Reply)
    requires !visible(e) && e.eventId !in p.redacted
    ensures var q := ApplyEvent(p, e, visible, reply); var id := e.eventId;
            && q.0.applied == p.applied
            && (q.1.Redacted? || q.1.Failed?)
            && q.0.redacted == (if q.1.Redacted? then p.redacted + {id} else p.redacted)
            && (q.1.Failed? <==>
                  id in p.applied && (p.applied[id].None? || reply(p.calls).Fails?))
            && (id !in p.applied ==> q.0.episodes == p.episodes && q.0.calls == p.calls)
            && (q.1.Redacted? && id in p.applied ==>
                  p.applied[id].Some? && q.0.episodes == p.episodes - {p.applied[id].value})
  {
  }

  /** Removing an event: nothing if its redaction is recorded; a bare record if it was never applied; otherwise the
      episode its record names goes, unless there is no name or the client fails. */
  lemma {:induction false} RemovalEffect(p: State, id: string, reply: nat -> Reply)
    ensures var q := RemoveEvent(p, id, reply);
            && q.0.applied == p.applied
            && (q.1.Skipped? <==> id in p.redacted)
            && (q.1.Failed? <==>
                  id !in p.redacted && id in p.applied && (p.applied[id].None? || reply(p.calls).Fails?))
            && (q.1.Redacted? <==> id !in p.redacted && !q.1.Failed?)
            && q.0.redacted == (if q.1.Redacted? then p.redacted + {id} else p.redacted)
            && q.0.episodes == (if q.1.Redacted? && id in p.applied then p.episodes - {p.applied[id].value}
                                else p.episodes)
            && q.0.calls == p.calls + (if id in p.redacted || id !in p.applied || p.applied[id].None? then 0 else 1)
  {
  }

  /** The policy hides every event with this identity. */
  ghost predicate Hides(visible: Event -> bool, events: seq<Event>, id: string) {
    forall e :: e in events && e.eventId == id ==> !visible(e)
  }

  /** Whatever else happens to it, the event is not applied and not brought to life from `p` to `q`. */
  ghost predicate StaysOut(p: State, q: State, id: string) {
    && (id in q.applied <==> id in p.applied) && (id in p.redacted ==> id in q.redacted)
    && (LiveEpisode(q, id) ==> LiveEpisode(p, id))
  }

  lemma {:induction false} StayOut(p: State, q: State, r: State, id: string)
    ensures StaysOut(p, p, id) && (StaysOut(p, q, id) && StaysOut(q, r, id) ==> StaysOut(p, r, id))
  {
  }

  lemma {:induction false} ApplyHidden(p: State, e: Event, visible: Event -> bool, reply: nat -> Reply, id: string)
    requires e.eventId == id ==> !visible(e)
    ensures StaysOut(p, ApplyEvent(p, e, visible, reply).0, id)
    ensures StaysOut(p, ScanEvent(p, e, visible, reply).0, id)
  {
  }

  lemma {:induction false} RemoveHidden(p: State, other: string, reply: nat -> Reply, id: string)
    ensures StaysOut(p, RemoveEvent(p, other, reply).0, id)
  {
  }

  lemma {:induction false} PurgeHidden(p: State, tombs: seq<string>, reply: nat -> Reply, id: string)
    ensures StaysOut(p, Purge(p, tombs, reply).0, id)
  {
    hide StaysOut, RemoveEvent;
    StayOut(p, p, p, id);
    if tombs != [] {
      var before := Purge(p, tombs[..|tombs| - 1], reply).0;
      PurgeHidden(p, tombs[..|tombs| - 1], reply, id);
      RemoveHidden(before, tombs[|tombs| - 1], reply, id);
      StayOut(p, before, Purge(p, tombs, reply).0, id);
    }
  }

  lemma {:induction false} ScanHidden(p: State, events: seq<Event>, visible: Event -> bool, reply: nat -> Reply,
                                      id: string)
    requires Hides(visible, events, id)
    ensures StaysOut(p, Scan(p, events, visible, reply).0, id)
    decreases |events|
  {
    hide StaysOut, ScanEvent;
    StayOut(p, p, p, id);
    if events != [] {
      var q := ScanEvent(p, events[0], visible, reply).0;
      ApplyHidden(p, events[0], visible, reply, id);
      ScanHidden(q, events[1..], visible, reply, id);
      StayOut(p, q, Scan(p, events, visible, reply).0, id);
    }
  }

  /** No cycle applies an event that the policy hides, or brings it to life, whatever fails. */
  lemma {:induction false} CycleHidden(p: State, events: seq<Event>, tombs: seq<string>, visible: Event -> bool,
                                       reply: nat -> Reply, id: string)
    requires Hides(visible, events, id)
    ensures StaysOut(p, Cycle(p, events, tombs, visible, reply).0, id)
  {
    hide StaysOut, Purge, Scan, EventLe, Sort;
    var purged := Purge(p, tombs, reply).0;
    PurgeHidden(p, tombs, reply, id);
    SortMembers(EventLe, events);
    ScanHidden(purged, Sort(EventLe, events), visible, reply, id);
    StayOut(p, purged, Cycle(p, events, tombs, visible, reply).0, id);
  }

  /** A scan without failures leaves each event it was given applied, if the policy shows it, or recorded as redacted,
      if it hides it; unless the ledger knew it before. */
  lemma {:induction false} ScanSettles(p: State, events: seq<Event>, visible: Event -> bool, reply: nat -> Reply,
                                       e: Event)
    requires e in events && e.eventId !in Done(p) && !AnyFailed(Scan(p, events, visible, reply).1)
    requires forall x :: x in events && x.eventId == e.eventId ==> visible(x) == visible(e)
    ensures var q := Scan(p, events, visible, reply).0;
            (e.eventId in q.applied <==> visible(e)) && (e.eventId in q.redacted <==> !visible(e))
    decreases |events|
  {
    hide AnyFailed, ScanEvent;
    var first := ScanEvent(p, events[0], visible, reply);
    var rest := events[1..];
    ReceiptsSplit(Receipt(events[0].eventId, first.1), Scan(first.0, rest, visible, reply).1);
    ReceiptsSplit(Receipt(events[0].eventId, first.1), []);
    assert [Receipt(events[0].eventId, first.1)] + [] == [Receipt(events[0].eventId, first.1)];
    assert events == [events[0]] + rest;
    SettleOne(p, events[0], visible, reply, e.eventId);
    if events[0].eventId == e.eventId {
      ScanKept(first.0, rest, visible, reply, e.eventId);
    } else {
      ScanSettles(first.0, rest, visible, reply, e);
    }
  }

  lemma {:induction false} SettleOne(p: State, e: Event, visible: Event -> bool, reply: nat -> Reply, id: string)
    requires !ScanEvent(p, e, visible, reply).1.Failed? && id !in Done(p)
    ensures var q := ScanEvent(p, e, visible, reply).0;
            && (id in q.applied <==> id == e.eventId && visible(e))
            && (id in q.redacted <==> id == e.eventId && !visible(e))
  {
  }

  /** A scan leaves the records of an event that the ledger knows as they are. */
  lemma {:induction false} ScanKept(p: State, events: seq<Event>, visible: Event -> bool, reply: nat -> Reply,
                                    id: string)
    requires id in Done(p)
    ensures var q := Scan(p, events, visible, reply).0;
            (id in q.applied <==> id in p.applied) && (id in q.redacted <==> id in p.redacted)
    decreases |events|
  {
    if events != [] {
      ScanKept(ScanEvent(p, events[0], visible, reply).0, events[1..], visible, reply, id);
    }
  }

  lemma {:induction false} EventOrder()
    ensures Preorder(EventLe)
    ensures forall x, y :: EventLe(x, y) && EventLe(y, x) ==> x.recordedAt == y.recordedAt && x.eventId == y.eventId
  {
    hide StringLe;
    StringOrder();
  }

  /** The order in which events are scanned: by timestamp, and by identity among equal timestamps. */
  lemma {:induction false} ScanOrder(events: seq<Event>, i: nat, j: nat)
    requires i < j < |events|
    ensures var s := Sort(EventLe, events);
            && multiset(s) == multiset(events) && |s| == |events|
            && StringLe(s[i].recordedAt, s[j].recordedAt)
            && (s[i].recordedAt == s[j].recordedAt ==> StringLe(s[i].eventId, s[j].eventId))
  {
    hide StringLe, Sort;
    EventOrder();
    SortSorts(EventLe, events);
    SortPermutes(EventLe, events);
    assert EventLe(Sort(EventLe, events)[i], Sort(EventLe, events)[j]);
    StringOrder();
  }

  /** What a purge achieves, identity by identity, and that its receipts say so. It goes on after a failure: only the
      removals that fail themselves are missing. */
  lemma {:induction false} PurgeSettles(p: State, tombs: seq<string>, reply: nat -> Reply, id: string)
    requires id in tombs && id !in p.redacted
    ensures var q := Purge(p, tombs, reply);
            && (id !in p.applied ==> id in q.0.redacted)
            && (id in p.applied && p.applied[id].None? ==> id !in q.0.redacted)
            && (id in p.applied && p.applied[id].Some? && (forall n :: reply(n).Succeeds?) ==> id in q.0.redacted)
            && (id in q.0.redacted <==> Receipt(id, Redacted) in q.1)
            && (id !in q.0.redacted ==> Receipt(id, Failed) in q.1)
            && (id in q.0.redacted && id in p.applied ==>
                  p.applied[id].Some? && p.applied[id].value !in q.0.episodes)
  {
    PurgeTells(p, tombs, reply, id);
  }

  /** As `PurgeSettles`, said of every prefix. */
  lemma {:induction false} PurgeTells(p: State, tombs: seq<string>, reply: nat -> Reply, id: string)
    requires id !in p.redacted
    ensures var q := Purge(p, tombs, reply);
            && q.0.applied == p.applied && q.0.episodes.Keys <= p.episodes.Keys
            && (id !in tombs ==> id !in q.0.redacted)
            && (id in tombs && id !in p.applied ==> id in q.0.redacted)
            && (id in p.applied && p.applied[id].None? ==> id !in q.0.redacted)
            && (id in tombs && id in p.applied && p.applied[id].Some? && (forall n :: reply(n).Succeeds?) ==>
                  id in q.0.redacted)
            && (id in q.0.redacted <==> Receipt(id, Redacted) in q.1)
            && (id in tombs && id !in q.0.redacted ==> Receipt(id, Failed) in q.1)
            && (id in q.0.redacted && id in p.applied ==>
                  p.applied[id].Some? && p.applied[id].value !in q.0.episodes)
  {
    if tombs != [] {
      var front, last := tombs[..|tombs| - 1], tombs[|tombs| - 1];
      PurgeTells(p, front, reply, id);
      assert tombs == front + [last];
      RemovalEffect(Purge(p, front, reply).0, last, reply);
    }
  }

  /** An applied event without a UUID that gets a tombstone stops projection: no cycle applies anything any more. */
  lemma {:induction false} StuckRemovalStops(p: State, events: seq<Event>, tombs: seq<string>, visible: Event -> bool,
                                             reply: nat -> Reply, id: string)
    requires id in tombs && id !in p.redacted && id in p.applied && p.applied[id].None?
    ensures var q := Cycle(p, events, tombs, visible, reply);
            && AnyFailed(q.1) && q.0.applied == p.applied && q.0.redacted <= p.redacted + Elements(tombs)
            && id !in q.0.redacted
  {
    hide Purge, Scan, Sort;
    PurgeSettles(p, tombs, reply, id);
    PurgeEffect(p, tombs, reply);
    assert Receipt(id, Failed).status.Failed?;
  }
}
