/** When the ledger tells the truth about the graph: client calls whose answer the worker never learns.

    A call that took effect is lost when the worker stops before the ledger write, or when
    the connection breaks after the client acted. */
module Bookkeeping {
  import opened Basics
  import opened Ordering
  import opened Projection

  /** The episode is there, its record is not. */
  function LostAdd(p: State, id: string): State {
    p.(episodes := p.episodes[p.calls := id], calls := p.calls + 1)
  }

  predicate CanRemove(p: State, id: string) {
    id !in p.redacted && id in p.applied && p.applied[id].Some?
  }

  /** The episode is gone, the redaction is not recorded. */
  function LostRemoval(p: State, id: string): State
    requires CanRemove(p, id)
  {
    p.(episodes := p.episodes - {p.applied[id].value}, calls := p.calls + 1)
  }

  /** What every run keeps: recorded calls were made, and an episode recorded without its UUID is never removed. */
  ghost predicate Booked(p: State) {
    && (forall h :: h in p.episodes ==> h < p.calls)
    && (forall x :: x in p.applied && p.applied[x].Some? ==> p.applied[x].value < p.calls)
    && (forall x :: x in p.applied && p.applied[x].Some? && p.applied[x].value in p.episodes ==>
          p.episodes[p.applied[x].value] == x)
    && (forall x :: x in p.applied && x !in p.redacted && p.applied[x].None? ==> LiveEpisode(p, x))
  }

  /** Every episode belongs to one record that is not redacted, and no two to the same. */
  ghost predicate Single(p: State) {
    && (forall h :: h in p.episodes ==> Owned(p, h))
    && (forall h, k :: h in p.episodes && k in p.episodes && p.episodes[h] == p.episodes[k] ==> h == k)
  }

  ghost predicate Owned(p: State, h: nat)
    requires h in p.episodes
  {
    var x := p.episodes[h];
    x in p.applied && x !in p.redacted && (p.applied[x].Some? ==> p.applied[x].value == h)
  }

  /** The ledger counts the event as live and names its episode, but that is gone. */
  predicate Missing(p: State, x: string) {
    CanRemove(p, x) && p.applied[x].value !in p.episodes
  }

  ghost predicate NoneMissing(p: State) {
    forall x :: !Missing(p, x)
  }

  /** No record belongs to this episode. */
  ghost predicate Stray(p: State, h: nat) {
    && h in p.episodes
    && (forall x :: x in p.applied ==> p.applied[x] != Some(h))
    && (forall x :: x in p.applied && x !in p.redacted && p.applied[x].None? ==> OtherEpisode(p, h, x))
  }

  ghost predicate StaysStray(p: State, q: State, h: nat) {
    Stray(q, h) && h in p.episodes && q.episodes[h] == p.episodes[h]
  }

  ghost predicate OtherEpisode(p: State, h: nat, x: string) {
    exists g :: g in p.episodes && g != h && p.episodes[g] == x
  }

  /** From `p` to `q` no episode got stray and none went missing, and stray ones stay. */
  ghost predicate KeepsBooks(p: State, q: State) {
    && Booked(q) && (Single(p) ==> Single(q))
    && (forall h :: Stray(p, h) ==> StaysStray(p, q, h))
    && (forall x :: Missing(q, x) ==> Missing(p, x))
  }

  lemma {:induction false} BooksKept(p: State, q: State, r: State)
    ensures Booked(p) ==> KeepsBooks(p, p)
    ensures KeepsBooks(p, q) && KeepsBooks(q, r) ==> KeepsBooks(p, r)
  {
    hide Booked, Single, Missing;
    forall h | Stray(p, h) && KeepsBooks(p, q) && KeepsBooks(q, r) ensures StaysStray(p, r, h) {
      assert StaysStray(p, q, h) && StaysStray(q, r, h);
    }
  }

  /** Live episodes equal applied minus redacted exactly if none is stray or double and none is missing. */
  lemma {:induction false} MirrorsSplit(p: State)
    requires Booked(p)
    ensures Mirrors(p) <==> Single(p) && NoneMissing(p)
  {
    if Single(p) && NoneMissing(p) {
      forall x | x in p.applied && x !in p.redacted ensures LiveEpisode(p, x) {
        if p.applied[x].Some? {
          assert !Missing(p, x);
          assert p.episodes[p.applied[x].value] == x;
        }
      }
      assert forall h :: h in p.episodes ==> Owned(p, h);
    }
    if Mirrors(p) {
      forall h | h in p.episodes ensures Owned(p, h) {
      }
    }
  }

  lemma {:induction false} StrayBreaks(p: State, h: nat)
    requires Booked(p) && Stray(p, h)
    ensures !Mirrors(p)
  {
    var x := p.episodes[h];
    if x in p.applied && x !in p.redacted && p.applied[x].None? {
      assert OtherEpisode(p, h, x);
    }
  }

  // ------------------------------------------------------------ removing

  lemma {:induction false} RemoveKeeps(p: State, id: string, reply: nat -> Reply)
    requires Booked(p)
    ensures KeepsBooks(p, RemoveEvent(p, id, reply).0)
  {
    var q := RemoveEvent(p, id, reply).0;
    if CanRemove(p, id) && reply(p.calls).Succeeds? {
      DropKeeps(p, id, q);
      assert Missing(q, id) ==> id !in q.redacted;
    } else {
      SameEpisodes(p, q, id);
    }
  }

  lemma {:induction false} LostRemovalKeeps(p: State, id: string)
    requires Booked(p) && CanRemove(p, id)
    ensures var q := LostRemoval(p, id);
            Booked(q) && (Single(p) ==> Single(q)) && (forall h :: Stray(p, h) ==> StaysStray(p, q, h))
            && forall x :: Missing(q, x) ==> Missing(p, x) || x == id
  {
    DropKeeps(p, id, LostRemoval(p, id));
  }

  /** Dropping the episode a record names, with or without recording the redaction. */
  lemma {:induction false} DropKeeps(p: State, id: string, q: State)
    requires Booked(p) && CanRemove(p, id) && q.applied == p.applied && p.calls <= q.calls
    requires q.episodes == p.episodes - {p.applied[id].value}
    requires q.redacted == p.redacted || q.redacted == p.redacted + {id}
    ensures Booked(q) && (Single(p) ==> Single(q)) && forall h :: Stray(p, h) ==> StaysStray(p, q, h)
    ensures forall x :: Missing(q, x) ==> Missing(p, x) || x == id
  {
    forall x | x in q.applied && x !in q.redacted && q.applied[x].None? ensures LiveEpisode(q, x) {
      assert LiveEpisode(p, x);
      var g :| g in p.episodes && p.episodes[g] == x;
      assert g in q.episodes;
    }
    if Single(p) {
      forall h | h in q.episodes ensures Owned(q, h) {
        assert Owned(p, h);
      }
    }
    forall h | Stray(p, h) ensures StaysStray(p, q, h) {
      forall x | x in q.applied && x !in q.redacted && q.applied[x].None? ensures OtherEpisode(q, h, x) {
        assert OtherEpisode(p, h, x);
        var g :| g in p.episodes && g != h && p.episodes[g] == x;
        assert g in q.episodes;
      }
    }
  }

  lemma {:induction false} SameEpisodes(p: State, q: State, id: string)
    requires Booked(p) && q.applied == p.applied && q.episodes == p.episodes && p.calls <= q.calls
    requires q.redacted == p.redacted || (q.redacted == p.redacted + {id} && id !in p.applied)
    ensures KeepsBooks(p, q)
  {
    forall x | x in q.applied && x !in q.redacted && q.applied[x].None? ensures LiveEpisode(q, x) {
      assert LiveEpisode(p, x);
    }
    if Single(p) {
      forall h | h in q.episodes ensures Owned(q, h) {
        assert Owned(p, h);
      }
    }
    forall h | Stray(p, h) ensures StaysStray(p, q, h) {
      forall x | x in q.applied && x !in q.redacted && q.applied[x].None? ensures OtherEpisode(q, h, x) {
        assert OtherEpisode(p, h, x);
      }
    }
  }

  // ------------------------------------------------------------ adding

  function Added(p: State, id: string, uuid: Option<nat>): State {
    State(p.applied[id := uuid], p.redacted, p.episodes[p.calls := id], p.calls + 1)
  }

  lemma {:induction false} AddKeeps(p: State, id: string, uuid: Option<nat>)
    requires Booked(p) && id !in p.applied && id !in p.redacted && (uuid == Some(p.calls) || uuid == None)
    ensures KeepsBooks(p, Added(p, id, uuid))
  {
    hide Single, StaysStray;
    var q := Added(p, id, uuid);
    assert q.episodes[p.calls] == id;
    forall x | x in q.applied && x !in q.redacted && q.applied[x].None? ensures LiveEpisode(q, x) {
      if x != id {
        assert LiveEpisode(p, x);
        var g :| g in p.episodes && p.episodes[g] == x;
        assert q.episodes[g] == x;
      }
    }
    if Single(p) { AddSingle(p, id, uuid); }
    forall h | Stray(p, h) ensures StaysStray(p, q, h) {
      AddStray(p, id, uuid, h);
    }
  }

  lemma {:induction false} AddSingle(p: State, id: string, uuid: Option<nat>)
    requires Booked(p) && id !in p.applied && id !in p.redacted && (uuid == Some(p.calls) || uuid == None)
    requires Single(p)
    ensures Single(Added(p, id, uuid))
  {
    var q := Added(p, id, uuid);
    forall h | h in q.episodes ensures Owned(q, h) {
      if h in p.episodes { assert Owned(p, h); }
    }
    forall h, k | h in q.episodes && k in q.episodes && q.episodes[h] == q.episodes[k] ensures h == k {
      if h in p.episodes { assert Owned(p, h); }
      if k in p.episodes { assert Owned(p, k); }
    }
  }

  lemma {:induction false} AddStray(p: State, id: string, uuid: Option<nat>, h: nat)
    requires Booked(p) && id !in p.applied && (uuid == Some(p.calls) || uuid == None) && Stray(p, h)
    ensures StaysStray(p, Added(p, id, uuid), h)
  {
    var q := Added(p, id, uuid);
    forall x | x in q.applied && x !in q.redacted && q.applied[x].None? ensures OtherEpisode(q, h, x) {
      if x != id {
        assert OtherEpisode(p, h, x);
        var g :| g in p.episodes && g != h && p.episodes[g] == x;
        assert q.episodes[g] == x;
      } else {
        assert q.episodes[p.calls] == x;
      }
    }
  }

  lemma {:induction false} ScanKeepsBooks(p: State, e: Event, visible: Event -> bool, reply: nat -> Reply)
    requires Booked(p)
    ensures KeepsBooks(p, ScanEvent(p, e, visible, reply).0)
  {
    hide Booked, KeepsBooks;
    var q, id := ScanEvent(p, e, visible, reply).0, e.eventId;
    if id in p.redacted || id in p.applied || !visible(e) || reply(p.calls).Fails? {
      SameEpisodes(p, q, id);
    } else {
      AddKeeps(p, id, if reply(p.calls).uuid then Some(p.calls) else None);
    }
  }

  /** A lost addition leaves a stray episode. */
  lemma {:induction false} LostAddStrays(p: State, id: string)
    requires Booked(p) && id !in p.applied && id !in p.redacted
    ensures var q := LostAdd(p, id); Booked(q) && Stray(q, p.calls) && forall h :: Stray(p, h) ==> StaysStray(p, q, h)
  {
    var q := LostAdd(p, id);
    forall x | x in q.applied && x !in q.redacted && q.applied[x].None?
           ensures LiveEpisode(q, x) && OtherEpisode(q, p.calls, x) {
      assert LiveEpisode(p, x);
      var g :| g in p.episodes && p.episodes[g] == x;
      assert q.episodes[g] == x;
    }
    forall h | Stray(p, h) ensures StaysStray(p, q, h) {
      forall x | x in q.applied && x !in q.redacted && q.applied[x].None? ensures OtherEpisode(q, h, x) {
        assert OtherEpisode(p, h, x);
        var g :| g in p.episodes && g != h && p.episodes[g] == x;
        assert q.episodes[g] == x;
      }
    }
  }

  // ------------------------------------------------------------ whole cycles

  lemma {:induction false} PurgeKeepsBooks(p: State, tombs: seq<string>, reply: nat -> Reply)
    requires Booked(p)
    ensures KeepsBooks(p, Purge(p, tombs, reply).0)
  {
    hide Booked, Single, Stray, StaysStray, Missing, RemoveEvent;
    var q := Purge(p, tombs, reply).0;
    if tombs == [] {
      BooksKept(p, p, p);
    } else {
      var before := Purge(p, tombs[..|tombs| - 1], reply).0;
      PurgeKeepsBooks(p, tombs[..|tombs| - 1], reply);
      RemoveKeeps(before, tombs[|tombs| - 1], reply);
      BooksKept(p, before, q);
    }
  }

  lemma {:induction false} ScansKeepBooks(p: State, events: seq<Event>, visible: Event -> bool, reply: nat -> Reply)
    requires Booked(p)
    ensures KeepsBooks(p, Scan(p, events, visible, reply).0)
    decreases |events|
  {
    hide Booked, Single, Stray, StaysStray, Missing, ScanEvent;
    if events == [] {
      BooksKept(p, p, p);
    } else {
      var first := ScanEvent(p, events[0], visible, reply).0;
      ScanKeepsBooks(p, events[0], visible, reply);
      ScansKeepBooks(first, events[1..], visible, reply);
      BooksKept(p, first, Scan(p, events, visible, reply).0);
    }
  }

  lemma {:induction false} CycleKeepsBooks(p: State, events: seq<Event>, tombs: seq<string>, visible: Event -> bool,
                                           reply: nat -> Reply)
    requires Booked(p)
    ensures KeepsBooks(p, Cycle(p, events, tombs, visible, reply).0)
  {
    hide Booked, Single, Stray, StaysStray, Missing, Purge, Scan, EventLe, Sort;
    PurgeKeepsBooks(p, tombs, reply);
    var purged := Purge(p, tombs, reply).0;
    ScansKeepBooks(purged, Sort(EventLe, events), visible, reply);
    BooksKept(p, purged, Cycle(p, events, tombs, visible, reply).0);
  }
}
