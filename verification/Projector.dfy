/** The projector worker and the graph adapter as they run: methods that drive the client
    and the ledger, proved to do what the functions of `Projection` say. */
module Projector {
  import opened Basics
  import opened Ordering
  import opened Projection

  // ------------------------------------------------------------ rebuilding

  /** `rebuild_async` over events in canonical order: unlike a scan it does not stop at a failure. */
  function Replay(p: State, events: seq<Event>, visible: Event -> bool, reply: nat -> Reply): (State, seq<Receipt>)
    decreases |events|
  {
    if events == [] then (p, [])
    else
      var first := ApplyEvent(p, events[0], visible, reply);
      var rest := Replay(first.0, events[1..], visible, reply);
      (rest.0, [Receipt(events[0].eventId, first.1)] + rest.1)
  }

  lemma {:induction false} ReplayMirrors(p: State, events: seq<Event>, visible: Event -> bool, reply: nat -> Reply)
    requires Mirrors(p)
    ensures Mirrors(Replay(p, events, visible, reply).0)
    decreases |events|
  {
    hide Mirrors, ApplyEvent;
    if events != [] {
      ApplyMirrors(p, events[0], visible, reply);
      ReplayMirrors(ApplyEvent(p, events[0], visible, reply).0, events[1..], visible, reply);
    }
  }

  /** No rebuild applies an event that the policy hides, or brings it to life, whatever fails. */
  lemma {:induction false} ReplayHidden(p: State, events: seq<Event>, visible: Event -> bool, reply: nat -> Reply,
                                        id: string)
    requires Hides(visible, events, id)
    ensures StaysOut(p, Replay(p, events, visible, reply).0, id)
    decreases |events|
  {
    hide StaysOut, ApplyEvent;
    StayOut(p, p, p, id);
    if events != [] {
      var q := ApplyEvent(p, events[0], visible, reply).0;
      ApplyHidden(p, events[0], visible, reply, id);
      ReplayHidden(q, events[1..], visible, reply, id);
      StayOut(p, q, Replay(p, events, visible, reply).0, id);
    }
  }

  /** The policy treats all records of one identity alike. */
  ghost predicate ByIdentity(visible: Event -> bool, events: seq<Event>) {
    forall x, y :: x in events && y in events && x.eventId == y.eventId ==> visible(x) == visible(y)
  }

  function Shown(events: seq<Event>, visible: Event -> bool): set<string> {
    set e | e in events && visible(e) :: e.eventId
  }

  /** What one event of a rebuild does when it does not fail and nothing hidden was applied before. */
  lemma {:induction false} ApplyShown(p: State, e: Event, visible: Event -> bool, reply: nat -> Reply)
    requires !ApplyEvent(p, e, visible, reply).1.Failed?
    requires (visible(e) ==> e.eventId !in p.redacted) && (!visible(e) ==> e.eventId !in p.applied)
    ensures var q := ApplyEvent(p, e, visible, reply).0;
            && q.applied.Keys == p.applied.Keys + (if visible(e) then {e.eventId} else {})
            && q.redacted == p.redacted + (if visible(e) then {} else {e.eventId})
  {
  }

  /** Without failures a rebuild applies the events that the policy shows and records the others as redacted. */
  lemma {:induction false} ReplayApplies(p: State, events: seq<Event>, visible: Event -> bool, reply: nat -> Reply)
    requires ByIdentity(visible, events) && !AnyFailed(Replay(p, events, visible, reply).1)
    requires Shown(events, visible) !! p.redacted && Ids(events) * p.applied.Keys <= Shown(events, visible)
    ensures var q := Replay(p, events, visible, reply).0;
            && q.applied.Keys == p.applied.Keys + Shown(events, visible)
            && q.redacted == p.redacted + (Ids(events) - Shown(events, visible))
    decreases |events|
  {
    hide AnyFailed, ApplyEvent, Ids, Shown, ByIdentity;
    if events == [] {
      NoneShown(visible);
    } else {
      var e, rest := events[0], events[1..];
      var first := ApplyEvent(p, e, visible, reply);
      ReceiptsSplit(Receipt(e.eventId, first.1), Replay(first.0, rest, visible, reply).1);
      ShownSplits(events, visible);
      ApplyShown(p, e, visible, reply);
      forall x | x in Ids(rest) && x in first.0.applied.Keys ensures x in Shown(rest, visible) {
        assert x in p.applied.Keys ==> x in Ids(events) * p.applied.Keys;
      }
      ReplayApplies(first.0, rest, visible, reply);
    }
  }

  lemma {:induction false} NoneShown(visible: Event -> bool)
    ensures Ids([]) == {} && Shown([], visible) == {}
  {
  }

  lemma {:induction false} ShownSplits(events: seq<Event>, visible: Event -> bool)
    requires events != [] && ByIdentity(visible, events)
    ensures ByIdentity(visible, events[1..])
    ensures Ids(events) == Ids(events[1..]) + {events[0].eventId}
    ensures Shown(events, visible) ==
            Shown(events[1..], visible) + if visible(events[0]) then {events[0].eventId} else {}
    ensures events[0].eventId in Ids(events)
    ensures visible(events[0]) <==> events[0].eventId in Shown(events, visible)
    ensures visible(events[0]) ==> events[0].eventId !in Ids(events[1..]) - Shown(events[1..], visible)
  {
    assert events == [events[0]] + events[1..];
  }

  /** A fresh rebuild without failures makes live exactly what the store still holds and the policy shows: also an event
      whose tombstone is published but whose bytes are not yet erased. */
  lemma {:induction false} RebuildLive(events: seq<Event>, visible: Event -> bool, reply: nat -> Reply, id: string)
    requires ByIdentity(visible, events)
    requires !AnyFailed(Replay(EMPTY, Sort(EventLe, events), visible, reply).1)
    ensures LiveEpisode(Replay(EMPTY, Sort(EventLe, events), visible, reply).0, id) <==>
              exists e :: e in events && e.eventId == id && visible(e)
  {
    hide EventLe, AnyFailed, Replay;
    var sorted := Sort(EventLe, events);
    var q := Replay(EMPTY, sorted, visible, reply).0;
    SortMembers(EventLe, events);
    ReplayMirrors(EMPTY, sorted, visible, reply);
    ReplayApplies(EMPTY, sorted, visible, reply);
    assert id in Shown(sorted, visible) <==> exists e :: e in events && e.eventId == id && visible(e);
  }

  // ------------------------------------------------------------ a policy that comes to hide more

  /** `purge_redacted_async`: the identities it removes, of applied events that are hidden now. */
  function NowHidden(applied: set<string>, events: seq<Event>, visible: Event -> bool): seq<string> {
    if events == [] then []
    else
      var e := events[|events| - 1];
      NowHidden(applied, events[..|events| - 1], visible)
      + if !visible(e) && e.eventId in applied then [e.eventId] else []
  }

  lemma {:induction false} NowHiddenIff(applied: set<string>, events: seq<Event>, visible: Event -> bool, id: string)
    ensures id in NowHidden(applied, events, visible) <==>
              id in applied && exists e :: e in events && e.eventId == id && !visible(e)
  {
    if events != [] {
      var front, last := events[..|events| - 1], events[|events| - 1];
      NowHiddenIff(applied, front, visible, id);
      assert events == front + [last];
    }
  }

  lemma {:induction false} LiveIff(p: State, id: string)
    requires Mirrors(p)
    ensures LiveEpisode(p, id) <==> id in p.applied && id !in p.redacted
  {
  }

  /** Without failures such a purge takes exactly the hidden events out of the graph, and leaves the others alone. */
  lemma {:induction false} HiddenArePurged(p: State, events: seq<Event>, visible: Event -> bool, reply: nat -> Reply,
                                           id: string)
    requires Mirrors(p)
    requires !AnyFailed(Purge(p, NowHidden(p.applied.Keys, events, visible), reply).1)
    ensures LiveEpisode(Purge(p, NowHidden(p.applied.Keys, events, visible), reply).0, id) <==>
              LiveEpisode(p, id) && !exists e :: e in events && e.eventId == id && !visible(e)
  {
    hide Purge, AnyFailed, Mirrors, LiveEpisode, NowHidden;
    var ids := NowHidden(p.applied.Keys, events, visible);
    NowHiddenIff(p.applied.Keys, events, visible, id);
    PurgeMirrors(p, ids, reply);
    PurgeEffect(p, ids, reply);
    LiveIff(p, id);
    LiveIff(Purge(p, ids, reply).0, id);
    assert id in ids <==> id in Elements(ids);
  }

  /** After such a purge and the next cycle, neither with a failure, an event of the store is live exactly if the policy
      shows it, it has no tombstone and it was never taken out before. */
  lemma {:induction false} PolicyTakesHold(p: State, events: seq<Event>, tombs: seq<string>, visible: Event -> bool,
                                           reply: nat -> Reply, e: Event)
    requires Mirrors(p) && ByIdentity(visible, events) && e in events
    requires var q := Purge(p, NowHidden(p.applied.Keys, events, visible), reply);
             !AnyFailed(q.1) && !AnyFailed(Cycle(q.0, events, tombs, visible, reply).1)
    ensures var q := Purge(p, NowHidden(p.applied.Keys, events, visible), reply).0;
            LiveEpisode(Cycle(q, events, tombs, visible, reply).0, e.eventId) <==>
              visible(e) && e.eventId !in tombs && e.eventId !in p.redacted
  {
    hide Purge, Scan, AnyFailed, Mirrors, LiveEpisode, NowHidden, Sort, EventLe;
    var ids, id, sorted := NowHidden(p.applied.Keys, events, visible), e.eventId, Sort(EventLe, events);
    NowHiddenIff(p.applied.Keys, events, visible, id);
    PurgeMirrors(p, ids, reply);
    PurgeEffect(p, ids, reply);
    var q := Purge(p, ids, reply).0;
    CycleMirrors(q, events, tombs, visible, reply);
    LiveIff(Cycle(q, events, tombs, visible, reply).0, id);
    PurgeEffect(q, tombs, reply);
    var m := Purge(q, tombs, reply);
    CycleParts(q, events, tombs, visible, reply);
    SortMembers(EventLe, events);
    assert (id in ids <==> id in Elements(ids)) && (id in tombs <==> id in Elements(tombs));
    if id in Done(m.0) {
      ScanKept(m.0, sorted, visible, reply, id);
    } else {
      ScanSettles(m.0, sorted, visible, reply, e);
    }
  }

  lemma {:induction false} CycleParts(p: State, events: seq<Event>, tombs: seq<string>, visible: Event -> bool,
                                      reply: nat -> Reply)
    requires !AnyFailed(Cycle(p, events, tombs, visible, reply).1)
    ensures var m := Purge(p, tombs, reply); var s := Scan(m.0, Sort(EventLe, events), visible, reply);
            !AnyFailed(m.1) && !AnyFailed(s.1) && Cycle(p, events, tombs, visible, reply).0 == s.0
  {
    hide Purge, Scan, Sort;
    var m := Purge(p, tombs, reply); var s := Scan(m.0, Sort(EventLe, events), visible, reply);
    assert forall r :: r in s.1 ==> r in m.1 + s.1;
  }

  lemma {:induction false} PurgeNothing(p: State, reply: nat -> Reply)
    ensures Purge(p, [], reply) == (p, [])
  {
  }

  lemma {:induction false} PurgeOneMore(p: State, ids: seq<string>, id: string, reply: nat -> Reply)
    ensures var before := Purge(p, ids, reply); var last := RemoveEvent(before.0, id, reply);
            Purge(p, ids + [id], reply) ==
              if id in before.0.redacted then before else (last.0, before.1 + [Receipt(id, last.1)])
  {
    assert (ids + [id])[..|ids + [id]| - 1] == ids;
  }

  // ------------------------------------------------------------ the worker

  class Worker {
    const visible: Event -> bool
    const reply: nat -> Reply
    var applied: map<string, Option<nat>>
    var redacted: set<string>
    var episodes: map<nat, string>
    var calls: nat

    constructor (visible: Event -> bool, reply: nat -> Reply)
      ensures View() == EMPTY && this.visible == visible && this.reply == reply
    {
      this.visible, this.reply := visible, reply;
      applied, redacted, episodes, calls := map[], {}, map[], 0;
    }

    function View(): State
      reads this
    {
      State(applied, redacted, episodes, calls)
    }

    method RemoveEvent(id: string) returns (status: Status)
      modifies this
      ensures (View(), status) == Projection.RemoveEvent(old(View()), id, reply)
    {
      if id in redacted { return Skipped; }
      if id !in applied {
        redacted := redacted + {id};
        return Redacted;
      }
      var uuid := applied[id];
      if uuid.None? { return Failed; }
      var answer := reply(calls);
      calls := calls + 1;
      if answer.Fails? { return Failed; }
      episodes := episodes - {uuid.value};
      redacted := redacted + {id};
      status := Redacted;
    }

    method ApplyEvent(e: Event) returns (status: Status)
      modifies this
      ensures (View(), status) == Projection.ApplyEvent(old(View()), e, visible, reply)
    {
      var id := e.eventId;
      if id in redacted { return Skipped; }
      if !visible(e) {
        if id in applied {
          status := RemoveEvent(id);
          return;
        }
        redacted := redacted + {id};
        return Redacted;
      }
      if id in applied { return Skipped; }
      var call, answer := calls, reply(calls);
      calls := calls + 1;
      if answer.Fails? { return Failed; }
      episodes := episodes[call := id];
      applied := applied[id := if answer.uuid then Some(call) else None];
      status := Applied;
    }

    /** `purge_event_redactions_async`: goes on after a failure. */
    method PurgeEventRedactions(tombs: seq<string>) returns (receipts: seq<Receipt>)
      modifies this
      ensures (View(), receipts) == Purge(old(View()), tombs, reply)
    {
      hide Projection.RemoveEvent;
      receipts := [];
      var i := 0;
      while i < |tombs|
        invariant i <= |tombs|
        invariant (View(), receipts) == Purge(old(View()), tombs[..i], reply)
      {
        assert tombs[..i + 1][..i] == tombs[..i];
        if tombs[i] !in redacted {
          var status := RemoveEvent(tombs[i]);
          receipts := receipts + [Receipt(tombs[i], status)];
        }
        i := i + 1;
      }
      assert tombs[..|tombs|] == tombs;
    }

    /** `purge_redacted_async`. */
    method PurgeRedacted(events: seq<Event>) returns (receipts: seq<Receipt>)
      modifies this
      ensures (View(), receipts) ==
              Purge(old(View()), NowHidden(old(applied).Keys, Sort(EventLe, events), visible), reply)
    {
      hide Projection.RemoveEvent, EventLe, Sort, Purge;
      receipts := [];
      var ordered := Sort(EventLe, events);
      ghost var p, keys := View(), applied.Keys;
      PurgeNothing(p, reply);
      for i := 0 to |ordered|
        invariant (View(), receipts) == Purge(p, NowHidden(keys, ordered[..i], visible), reply)
        invariant applied.Keys == keys
      {
        var e := ordered[i];
        ghost var ids := NowHidden(keys, ordered[..i], visible);
        assert ordered[..i + 1][..i] == ordered[..i];
        assert NowHidden(keys, ordered[..i + 1], visible) ==
               if !visible(e) && e.eventId in keys then ids + [e.eventId] else ids;
        if !visible(e) && e.eventId in applied {
          PurgeOneMore(p, ids, e.eventId, reply);
          PurgeEffect(p, ids + [e.eventId], reply);
          if e.eventId !in redacted {
            var status := RemoveEvent(e.eventId);
            receipts := receipts + [Receipt(e.eventId, status)];
          }
        }
      }
      assert ordered[..|ordered|] == ordered;
    }

    /** `run_once_async`. */
    method RunOnce(events: seq<Event>, tombs: seq<string>) returns (scanned: nat, receipts: seq<Receipt>)
      modifies this
      ensures (View(), receipts) == Cycle(old(View()), events, tombs, visible, reply)
      ensures |receipts| == |Purge(old(View()), tombs, reply).1| + scanned
    {
      hide Purge, AnyFailed, Projection.ApplyEvent, EventLe, Sort;
      receipts := PurgeEventRedactions(tombs);
      ghost var purged := (View(), receipts);
      scanned := 0;
      if AnyFailed(receipts) { return; }
      var ordered := Sort(EventLe, events);
      ghost var goal := Scan(View(), ordered, visible, reply);
      while scanned < |ordered|
        invariant scanned <= |ordered| && |receipts| == |purged.1| + scanned
        invariant goal.0 == Scan(View(), ordered[scanned..], visible, reply).0
        invariant purged.1 + goal.1 == receipts + Scan(View(), ordered[scanned..], visible, reply).1
      {
        var e := ordered[scanned];
        ghost var before, sofar := View(), receipts;
        assert ordered[scanned..][0] == e && ordered[scanned..][1..] == ordered[scanned + 1..];
        scanned := scanned + 1;
        if e.eventId in redacted || e.eventId in applied {
          receipts := receipts + [Receipt(e.eventId, Skipped)];
        } else {
          var status := ApplyEvent(e);
          receipts := receipts + [Receipt(e.eventId, status)];
          if status.Failed? {
            assert sofar + [Receipt(e.eventId, status)] == receipts;
            break;
          }
        }
        ghost var rest := Scan(View(), ordered[scanned..], visible, reply).1;
        assert sofar + ([receipts[|sofar|]] + rest) == receipts + rest;
      }
      assert purged.1 + goal.1 == receipts by { assert receipts + [] == receipts; }
    }

    /** `rebuild_async`. */
    method Rebuild(events: seq<Event>) returns (receipts: seq<Receipt>)
      modifies this
      ensures (View(), receipts) == Replay(old(View()), Sort(EventLe, events), visible, reply)
    {
      hide Projection.ApplyEvent, EventLe, Sort;
      var ordered := Sort(EventLe, events);
      receipts := [];
      var i := 0;
      ghost var goal := Replay(View(), ordered, visible, reply);
      while i < |ordered|
        invariant i <= |ordered|
        invariant goal.0 == Replay(View(), ordered[i..], visible, reply).0
        invariant goal.1 == receipts + Replay(View(), ordered[i..], visible, reply).1
      {
        ghost var sofar := receipts;
        assert ordered[i..][0] == ordered[i] && ordered[i..][1..] == ordered[i + 1..];
        var status := ApplyEvent(ordered[i]);
        receipts := receipts + [Receipt(ordered[i].eventId, status)];
        i := i + 1;
        ghost var rest := Replay(View(), ordered[i..], visible, reply).1;
        assert sofar + ([receipts[|sofar|]] + rest) == receipts + rest;
      }
      assert receipts + [] == receipts;
    }
  }
}
