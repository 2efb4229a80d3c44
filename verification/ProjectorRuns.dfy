/** Runs of the projector: commits, redactions and projection cycles in any order.

    A redaction publishes its tombstone and later erases the bytes; any client call may fail
    or take effect without the worker learning it. Ledger and graph survive restarts. */
module ProjectorRuns {
  import opened Basics
  import opened Ordering
  import opened Projection
  import opened Bookkeeping

  /** What the worker is doing: waiting, purging the tombstones it listed, or scanning the events it read. */
  datatype Phase =
    | Resting
    | Purging(listed: seq<string>, failed: bool)
    | Scanning(read: seq<Event>)

  /** The event store, every identity ever committed, the projection and its worker. */
  datatype World = World(events: seq<Event>, tombs: set<string>, history: set<string>, proj: State, worker: Phase)

  datatype Step =
    | Commit(event: Event)
    | Tombstone(tid: string)
    | Erase(eid: string)
    | ListTombstones(order: seq<string>)
    | PurgeNext(answer: nat -> Reply)
    | ReadEvents
    | ScanNext(visible: Event -> bool, reply: nat -> Reply)
    | Finish
    | Crash
    | LoseAdd(shown: Event -> bool)
    | LoseRemoval(goesOn: bool)

  function Without(events: seq<Event>, id: string): seq<Event> {
    if events == [] then []
    else if events[0].eventId == id then Without(events[1..], id)
    else [events[0]] + Without(events[1..], id)
  }

  /** One tombstone of the purge loop. */
  function PurgeOne(p: State, id: string, reply: nat -> Reply): (State, Status) {
    if id in p.redacted then (p, Skipped) else RemoveEvent(p, id, reply)
  }

  ghost predicate Next(w: World, s: Step, w': World) {
    match s
    case Commit(e) =>
      e.eventId !in Ids(w.events) && e.eventId !in w.tombs
      && w' == w.(events := w.events + [e], history := w.history + {e.eventId})
    case Tombstone(id) => id in Ids(w.events) && w' == w.(tombs := w.tombs + {id})
    case Erase(id) => id in w.tombs && w' == w.(events := Without(w.events, id))
    case ListTombstones(order) =>
      w.worker.Resting? && Elements(order) == w.tombs && w' == w.(worker := Purging(order, false))
    case PurgeNext(reply) =>
      w.worker.Purging? && w.worker.listed != []
      && var one := PurgeOne(w.proj, w.worker.listed[0], reply);
         w' == w.(proj := one.0, worker := Purging(w.worker.listed[1..], w.worker.failed || one.1.Failed?))
    case ReadEvents =>
      w.worker == Purging([], false) && w' == w.(worker := Scanning(Sort(EventLe, w.events)))
    case ScanNext(visible, reply) =>
      w.worker.Scanning? && w.worker.read != []
      && var one := ScanEvent(w.proj, w.worker.read[0], visible, reply);
         w' == w.(proj := one.0, worker := if one.1.Failed? then Resting else Scanning(w.worker.read[1..]))
    case Finish => (w.worker == Purging([], true) || w.worker == Scanning([])) && w' == w.(worker := Resting)
    case Crash => w' == w.(worker := Resting)
    case LoseAdd(visible) =>
      w.worker.Scanning? && w.worker.read != []
      && var e := w.worker.read[0];
         e.eventId !in Done(w.proj) && visible(e)
         && w' == w.(proj := LostAdd(w.proj, e.eventId), worker := Resting)
    case LoseRemoval(goesOn) =>
      w.worker.Purging? && w.worker.listed != [] && CanRemove(w.proj, w.worker.listed[0])
      && w' == w.(proj := LostRemoval(w.proj, w.worker.listed[0]),
                  worker := if goesOn then Purging(w.worker.listed[1..], true) else Resting)
  }

  const START := World([], {}, {}, Projection.EMPTY, Resting)

  ghost predicate Follows(ws: seq<World>, steps: seq<Step>) {
    && |ws| == |steps| + 1
    && forall i, j :: 0 <= i < |steps| && j == i + 1 && j < |ws| ==> Next(ws[i], steps[i], ws[j])
  }

  ghost predicate Run(ws: seq<World>, steps: seq<Step>) {
    Follows(ws, steps) && ws[0] == START
  }

  // ------------------------------------------------------------ what every run keeps

  function IdOf(e: Event): string { e.eventId }

  ghost predicate DistinctIds(events: seq<Event>) {
    DistinctKeys(events, IdOf)
  }

  /** What the worker still has to do is about known events; what it read is in order and, unless tombstoned, still
      stored. */
  ghost predicate WorkerKnows(w: World) {
    match w.worker
    case Resting => true
    case Purging(listed, _) => Elements(listed) <= w.tombs
    case Scanning(read) =>
      DistinctIds(read) && Sorted(EventLe, read) && forall e :: e in read ==> e in w.events || e.eventId in w.tombs
  }

  ghost predicate StoreAccounted(w: World) {
    && DistinctIds(w.events)
    && Ids(w.events) <= w.history && w.history <= Ids(w.events) + w.tombs && w.tombs <= w.history
  }

  ghost predicate Accounted(w: World) {
    StoreAccounted(w) && WorkerKnows(w) && Done(w.proj) <= w.history
  }

  lemma {:induction false} WithoutMembers(events: seq<Event>, id: string)
    ensures forall x :: x in Without(events, id) <==> x in events && x.eventId != id
    ensures Ids(Without(events, id)) == Ids(events) - {id}
  {
    if events != [] {
      WithoutMembers(events[1..], id);
      assert events == [events[0]] + events[1..];
    }
  }

  lemma {:induction false} WithoutDistinct(events: seq<Event>, id: string)
    requires DistinctIds(events)
    ensures DistinctIds(Without(events, id))
  {
    if events != [] {
      WithoutDistinct(events[1..], id);
      WithoutMembers(events[1..], id);
      var rest := Without(events[1..], id);
      forall j | 0 <= j < |rest| ensures rest[j].eventId != events[0].eventId {
        assert rest[j] in events[1..];
        var k :| 0 <= k < |events[1..]| && events[1..][k] == rest[j];
        assert events[k + 1] == rest[j];
      }
    }
  }

  lemma {:induction false} AppendDistinct(events: seq<Event>, e: Event)
    requires DistinctIds(events) && e.eventId !in Ids(events)
    ensures DistinctIds(events + [e]) && Ids(events + [e]) == Ids(events) + {e.eventId}
  {
    forall i | 0 <= i < |events| ensures events[i].eventId != e.eventId {
      assert events[i] in events;
    }
  }

  lemma {:induction false} SortedIds(events: seq<Event>)
    ensures Ids(Sort(EventLe, events)) == Ids(events)
  {
    hide EventLe;
    SortMembers(EventLe, events);
  }

  lemma {:induction false} RestOfRead(read: seq<Event>)
    requires read != [] && DistinctIds(read) && Sorted(EventLe, read)
    ensures DistinctIds(read[1..]) && Sorted(EventLe, read[1..])
    ensures forall e :: e in read ==> e == read[0] || e in read[1..]
    ensures forall e :: e in read[1..] ==> e in read && EventLe(read[0], e) && e.eventId != read[0].eventId
  {
    hide EventLe;
    assert read == [read[0]] + read[1..];
    forall e | e in read[1..] ensures e in read && EventLe(read[0], e) && e.eventId != read[0].eventId {
      var i :| 0 <= i < |read[1..]| && read[1..][i] == e;
      assert read[i + 1] == e;
    }
    forall i, j | 0 <= i < j < |read[1..]| ensures EventLe(read[1..][i], read[1..][j]) {
      assert EventLe(read[i + 1], read[j + 1]);
    }
    forall i, j | 0 <= i < j < |read[1..]| ensures IdOf(read[1..][i]) != IdOf(read[1..][j]) {
      assert IdOf(read[i + 1]) != IdOf(read[j + 1]);
    }
  }

  /** One tombstone: only a redaction record of that identity can be added, and it is unless the step failed. */
  lemma {:induction false} PurgeOneEffect(p: State, id: string, reply: nat -> Reply)
    ensures var q := PurgeOne(p, id, reply);
            && q.0.applied == p.applied && q.0.episodes.Keys <= p.episodes.Keys
            && (forall h :: h in q.0.episodes ==> q.0.episodes[h] == p.episodes[h])
            && q.0.redacted == (if q.1.Failed? then p.redacted else p.redacted + {id})
            && (id !in p.applied ==> !q.1.Failed?)
            && (id !in p.redacted && id in p.applied && p.applied[id].None? ==> q.1.Failed?)
  {
  }

  /** Purging a tombstone gets its event recorded, even if the client fails. */
  lemma {:induction false} PurgedDone(p: State, id: string, reply: nat -> Reply)
    ensures Done(PurgeOne(p, id, reply).0) == Done(p) + {id}
  {
  }

  /** A lost answer records nothing and leaves the worker no more to do. */
  lemma {:induction false} LostStep(w: World, s: Step, w': World)
    requires Next(w, s, w') && (s.LoseAdd? || s.LoseRemoval?)
    ensures Done(w'.proj) == Done(w.proj) && w'.events == w.events && w'.tombs == w.tombs && w'.history == w.history
    ensures !w'.worker.Scanning?
    ensures WorkerKnows(w) ==> WorkerKnows(w')
  {
    hide DistinctIds, Sorted, EventLe;
    if s.LoseRemoval? {
      assert w.worker.listed == [w.worker.listed[0]] + w.worker.listed[1..];
    }
  }

  lemma {:induction false} StepAccounted(w: World, s: Step, w': World)
    requires Accounted(w) && Next(w, s, w')
    ensures Accounted(w')
  {
    hide PurgeOne, ScanEvent, DistinctIds, Done, Sorted, EventLe;
    if s.Commit? {
      AppendDistinct(w.events, s.event);
    } else if s.Erase? {
      WithoutMembers(w.events, s.eid);
      WithoutDistinct(w.events, s.eid);
    } else if s.PurgeNext? {
      assert w.worker.listed[0] in Elements(w.worker.listed);
      PurgedDone(w.proj, w.worker.listed[0], s.answer);
    } else if s.ReadEvents? {
      SortDistinct(w.events);
    } else if s.ScanNext? {
      RestOfRead(w.worker.read);
      ScanEventEffect(w.proj, w.worker.read[0], s.visible, s.reply);
      assert w.worker.read[0] in w.worker.read;
      assert w.worker.read[0].eventId in Ids(w.events) + w.tombs;
    } else if s.LoseAdd? || s.LoseRemoval? {
      LostStep(w, s, w');
    }
  }

  /** At every moment of every run the ledger names committed events only, and the worker has known events in hand. */
  lemma {:induction false} RunAccounted(ws: seq<World>, steps: seq<Step>, k: nat)
    requires Run(ws, steps) && k < |ws|
    ensures Accounted(ws[k])
  {
    hide Next;
    if k > 0 {
      hide Accounted;
      RunAccounted(ws, steps, k - 1);
      StepAccounted(ws[k - 1], steps[k - 1], ws[k]);
    }
  }

  // ------------------------------------------------------------ the ledger and the graph

  lemma {:induction false} StepBooks(w: World, s: Step, w': World)
    requires Booked(w.proj) && Next(w, s, w') && !s.LoseAdd?
    ensures Booked(w'.proj) && (Single(w.proj) ==> Single(w'.proj))
    ensures forall h :: Stray(w.proj, h) ==> StaysStray(w.proj, w'.proj, h)
    ensures forall x :: Missing(w'.proj, x) ==> Missing(w.proj, x) || (s.LoseRemoval? && x == w.worker.listed[0])
  {
    hide Booked, Single, Stray, StaysStray, Missing, RemoveEvent, ScanEvent, CanRemove, EventLe, Sort;
    BooksKept(w.proj, w.proj, w.proj);
    if s.PurgeNext? {
      RemoveKeeps(w.proj, w.worker.listed[0], s.answer);
    } else if s.ScanNext? {
      ScanKeepsBooks(w.proj, w.worker.read[0], s.visible, s.reply);
    } else if s.LoseRemoval? {
      LostRemovalKeeps(w.proj, w.worker.listed[0]);
    }
  }

  lemma {:induction false} StepStrays(w: World, s: Step, w': World)
    requires Booked(w.proj) && Next(w, s, w') && s.LoseAdd?
    ensures Booked(w'.proj) && Stray(w'.proj, w.proj.calls)
    ensures forall h :: Stray(w.proj, h) ==> StaysStray(w.proj, w'.proj, h)
  {
    hide Booked, Stray, StaysStray;
    LostAddStrays(w.proj, w.worker.read[0].eventId);
  }

  lemma {:induction false} RunBooked(ws: seq<World>, steps: seq<Step>, k: nat)
    requires Run(ws, steps) && k < |ws|
    ensures Booked(ws[k].proj)
  {
    hide Next, Stray, StaysStray, Single, Missing;
    if k > 0 {
      hide Booked;
      RunBooked(ws, steps, k - 1);
      if steps[k - 1].LoseAdd? {
        StepStrays(ws[k - 1], steps[k - 1], ws[k]);
      } else {
        StepBooks(ws[k - 1], steps[k - 1], ws[k]);
      }
    }
  }

  /** An episode without a record stays in the graph for good: no purge and no redaction reaches it. */
  lemma {:induction false} StrayForever(ws: seq<World>, steps: seq<Step>, k: nat, m: nat, h: nat)
    requires Run(ws, steps) && k <= m < |ws| && Stray(ws[k].proj, h)
    ensures Stray(ws[m].proj, h) && h in ws[k].proj.episodes && ws[m].proj.episodes[h] == ws[k].proj.episodes[h]
    decreases m
  {
    hide Next, Booked, Single, Missing;
    if k < m {
      StrayForever(ws, steps, k, m - 1, h);
      RunBooked(ws, steps, m - 1);
      if steps[m - 1].LoseAdd? {
        StepStrays(ws[m - 1], steps[m - 1], ws[m]);
      } else {
        StepBooks(ws[m - 1], steps[m - 1], ws[m]);
      }
      assert StaysStray(ws[m - 1].proj, ws[m].proj, h);
    }
  }

  ghost predicate NoAddLost(steps: seq<Step>, k: nat) {
    forall i :: 0 <= i < k && i < |steps| ==> !steps[i].LoseAdd?
  }

  lemma {:induction false} RunSingle(ws: seq<World>, steps: seq<Step>, k: nat)
    requires Run(ws, steps) && k < |ws| && NoAddLost(steps, k)
    ensures Single(ws[k].proj)
  {
    hide Next, Stray, StaysStray, Missing, Booked;
    if k > 0 {
      RunSingle(ws, steps, k - 1);
      RunBooked(ws, steps, k - 1);
      StepBooks(ws[k - 1], steps[k - 1], ws[k]);
    }
  }

  /** An added episode that is lost is in the graph at every later moment, whatever is purged or redacted. */
  lemma {:induction false} LostEpisodeStays(ws: seq<World>, steps: seq<Step>, k: nat, m: nat)
    requires Run(ws, steps) && k < m < |ws| && steps[k].LoseAdd?
    ensures var h := ws[k].proj.calls;
            && h in ws[k + 1].proj.episodes && h in ws[m].proj.episodes
            && ws[m].proj.episodes[h] == ws[k + 1].proj.episodes[h]
            && !Mirrors(ws[m].proj)
  {
    hide Next, Booked, Mirrors;
    RunBooked(ws, steps, k);
    RunBooked(ws, steps, m);
    StepStrays(ws[k], steps[k], ws[k + 1]);
    StrayForever(ws, steps, k + 1, m, ws[k].proj.calls);
    StrayBreaks(ws[m].proj, ws[k].proj.calls);
  }

  /** What the ledger records stays recorded, and a missing episode stays missing until its redaction is recorded. */
  lemma {:induction false} StepMissing(w: World, s: Step, w': World, x: string)
    requires Booked(w.proj) && Next(w, s, w')
    ensures w.proj.redacted <= w'.proj.redacted
    ensures Missing(w.proj, x) ==> Missing(w'.proj, x) || x in w'.proj.redacted
    ensures s.LoseAdd? ==> (Missing(w'.proj, x) ==> Missing(w.proj, x))
  {
    hide LiveEpisode, EventLe, Sort;
  }

  /** The step takes an event's episode out of the graph and does not record it. */
  predicate LosesRemoval(w: World, s: Step, x: string) {
    s.LoseRemoval? && w.worker.Purging? && w.worker.listed != [] && w.worker.listed[0] == x
  }

  lemma {:induction false} LostIsMissing(w: World, s: Step, w': World, x: string)
    requires Next(w, s, w') && LosesRemoval(w, s, x)
    ensures Missing(w'.proj, x)
  {
  }

  lemma {:induction false} MissingUntilRedacted(ws: seq<World>, steps: seq<Step>, k: nat, m: nat, x: string)
    requires Run(ws, steps) && k <= m < |ws| && (Missing(ws[k].proj, x) || x in ws[k].proj.redacted)
    ensures Missing(ws[m].proj, x) || x in ws[m].proj.redacted
    decreases m
  {
    hide Next, Booked, Missing;
    if k < m {
      MissingUntilRedacted(ws, steps, k, m - 1, x);
      RunBooked(ws, steps, m - 1);
      StepMissing(ws[m - 1], steps[m - 1], ws[m], x);
    }
  }

  lemma {:induction false} MissingWasLost(ws: seq<World>, steps: seq<Step>, k: nat, x: string) returns (i: nat)
    requires Run(ws, steps) && k < |ws| && Missing(ws[k].proj, x)
    ensures i < k && i < |steps| && LosesRemoval(ws[i], steps[i], x)
  {
    hide Next, Booked, Missing, Single, Stray, StaysStray;
    assert k > 0 by { assert ws[0] == START; assert !Missing(START.proj, x) by { NoneMissingAtStart(x); } }
    RunBooked(ws, steps, k - 1);
    var w, s := ws[k - 1], steps[k - 1];
    assert Next(w, s, ws[k]);
    if Missing(w.proj, x) {
      i := MissingWasLost(ws, steps, k - 1, x);
    } else {
      i := k - 1;
      StepMissing(w, s, ws[k], x);
      StepBooks(w, s, ws[k]);
      LosingStep(w, s, ws[k]);
    }
  }

  lemma {:induction false} NoneMissingAtStart(x: string)
    ensures !Missing(START.proj, x)
  {
  }

  lemma {:induction false} LosingStep(w: World, s: Step, w': World)
    requires Next(w, s, w') && s.LoseRemoval?
    ensures w.worker.Purging? && w.worker.listed != [] && LosesRemoval(w, s, w.worker.listed[0])
  {
  }

  /** Every removal whose answer was lost among the first `k` steps has been recorded since. */
  ghost predicate LostRemovalsRecorded(ws: seq<World>, steps: seq<Step>, k: nat)
    requires k < |ws|
  {
    forall i, x :: 0 <= i < k && i < |steps| && LosesRemoval(ws[i], steps[i], x) ==> x in ws[k].proj.redacted
  }

  /** At every moment of every run, live episodes equal applied minus redacted, one each, exactly if no answer to an
      addition was ever lost and every removal whose answer was lost has been retried until it was recorded. */
  lemma {:induction false} RunMirrorsIff(ws: seq<World>, steps: seq<Step>, k: nat)
    requires Run(ws, steps) && k < |ws|
    ensures Mirrors(ws[k].proj) <==> NoAddLost(steps, k) && LostRemovalsRecorded(ws, steps, k)
  {
    hide Next, Booked, Mirrors, Single, Missing, LosesRemoval;
    RunBooked(ws, steps, k);
    MirrorsSplit(ws[k].proj);
    if NoAddLost(steps, k) {
      RunSingle(ws, steps, k);
    } else {
      var i :| 0 <= i < k && i < |steps| && steps[i].LoseAdd?;
      LostEpisodeStays(ws, steps, i, k);
    }
    forall x | Missing(ws[k].proj, x) ensures !LostRemovalsRecorded(ws, steps, k) {
      var i := MissingWasLost(ws, steps, k, x);
      MissingIsNotRedacted(ws[k].proj, x);
    }
    forall i, x | 0 <= i < k && i < |steps| && LosesRemoval(ws[i], steps[i], x)
      ensures Missing(ws[k].proj, x) || x in ws[k].proj.redacted
    {
      LostIsMissing(ws[i], steps[i], ws[i + 1], x);
      MissingUntilRedacted(ws, steps, i + 1, k, x);
    }
  }

  lemma {:induction false} MissingIsNotRedacted(p: State, x: string)
    requires Missing(p, x)
    ensures x !in p.redacted
  {
  }

  ghost predicate NothingLost(steps: seq<Step>, k: nat) {
    forall i :: 0 <= i < k && i < |steps| ==> !steps[i].LoseAdd? && !steps[i].LoseRemoval?
  }

  /** While no answer is lost, whatever fails, races or stops, live episodes equal applied minus redacted at every
      moment. */
  lemma {:induction false} RunMirrors(ws: seq<World>, steps: seq<Step>, k: nat)
    requires Run(ws, steps) && k < |ws| && NothingLost(steps, k)
    ensures Mirrors(ws[k].proj)
  {
    hide Run, Mirrors;
    RunMirrorsIff(ws, steps, k);
  }

  /** What is missing is tombstoned, so the next successful purge records it. */
  lemma {:induction false} MissingIsTombstoned(ws: seq<World>, steps: seq<Step>, k: nat, x: string)
    requires Run(ws, steps) && k < |ws| && NoAddLost(steps, k) && Missing(ws[k].proj, x)
    ensures x in ws[k].tombs
  {
    hide Stray, StaysStray, Single, Booked, PurgeOne, ScanEvent, Accounted, EventLe, Sort;
    if k > 0 {
      RunBooked(ws, steps, k - 1);
      RunAccounted(ws, steps, k - 1);
      assert Next(ws[k - 1], steps[k - 1], ws[k]);
      StepBooks(ws[k - 1], steps[k - 1], ws[k]);
      if Missing(ws[k - 1].proj, x) {
        MissingIsTombstoned(ws, steps, k - 1, x);
      } else {
        ListedIsTombstoned(ws[k - 1]);
      }
    }
  }

  lemma {:induction false} ListedIsTombstoned(w: World)
    requires Accounted(w)
    ensures w.worker.Purging? && w.worker.listed != [] ==> w.worker.listed[0] in w.tombs
  {
    hide StoreAccounted, Done;
    if w.worker.Purging? && w.worker.listed != [] {
      assert w.worker.listed[0] in Elements(w.worker.listed);
    }
  }

  // ------------------------------------------------------------ the prefix property

  ghost predicate Before(x: Event, y: Event) {
    EventLe(x, y) && x.eventId != y.eventId
  }

  /** Recorded events that are not tombstoned have everything before them recorded. */
  ghost predicate PrefixRecorded(w: World) {
    forall x, y :: x in w.events && y in w.events && Before(x, y) && y.eventId !in w.tombs && y.eventId in Done(w.proj)
                   ==> x.eventId in Done(w.proj)
  }

  /** What comes before an event still to be scanned is recorded or still to be scanned itself. */
  ghost predicate ScanInOrder(w: World) {
    w.worker.Scanning? ==>
      forall x, y :: x in w.events && y in w.events && y in w.worker.read && Before(x, y)
                     ==> x in w.worker.read || x.eventId in Done(w.proj)
  }

  ghost predicate CanonicalStep(w: World, s: Step) {
    s.Commit? ==> forall x :: x in w.events ==> Before(x, s.event)
  }

  /** Commits arrive in canonical order. */
  ghost predicate Canonical(ws: seq<World>, steps: seq<Step>) {
    forall i :: 0 <= i < |steps| && i < |ws| ==> CanonicalStep(ws[i], steps[i])
  }

  /** In the sorted list, an event before one of the first `n` is itself among the first `n`. */
  lemma {:induction false} BeforeInPrefix(s: seq<Event>, n: nat, x: Event, y: Event)
    requires Sorted(EventLe, s) && DistinctIds(s) && n <= |s|
    requires x in s && y in s && Before(x, y) && y.eventId in Ids(s[..n])
    ensures x.eventId in Ids(s[..n])
  {
    EventOrder();
    hide EventLe;
    var z :| z in s[..n] && z.eventId == y.eventId;
    var j :| 0 <= j < n && s[..n][j] == z;
    var k :| 0 <= k < |s| && s[k] == y;
    assert j == k by { assert s[j].eventId == s[k].eventId; }
    var i :| 0 <= i < |s| && s[i] == x;
    assert s[..n][i] == x;
  }

  lemma {:induction false} SortDistinct(events: seq<Event>)
    requires DistinctIds(events)
    ensures DistinctIds(Sort(EventLe, events)) && Sorted(EventLe, Sort(EventLe, events))
    ensures forall x :: x in Sort(EventLe, events) <==> x in events
  {
    hide EventLe;
    EventOrder();
    SortSorts(EventLe, events);
    SortMembers(EventLe, events);
    SortPermutes(EventLe, events);
    DistinctPermuted(events, Sort(EventLe, events), IdOf);
  }

  lemma {:induction false} SameEvent(w: World, x: Event, y: Event)
    requires Accounted(w) && w.worker.Scanning? && x in w.worker.read && y in w.events
    requires x.eventId == y.eventId && y.eventId !in w.tombs
    ensures x == y
  {
    hide Mirrors, Done, Sorted, EventLe;
    SameEntry(w.events, IdOf, x, y);
  }

  lemma {:induction false} StepPrefix(w: World, s: Step, w': World)
    requires Accounted(w) && PrefixRecorded(w) && ScanInOrder(w) && Next(w, s, w') && CanonicalStep(w, s)
    ensures PrefixRecorded(w') && ScanInOrder(w')
  {
    EventOrder();
    hide EventLe, Done, DistinctIds, Sorted, PurgeOne, ScanEvent;
    if s.Commit? {
      assert s.event.eventId !in Done(w.proj);
      assert w.worker.Scanning? ==> s.event !in w.worker.read;
      forall x, y | x in w'.events && y in w'.events && Before(x, y)
        ensures x in w.events && (y in w.events || y == s.event)
      {
      }
    } else if s.Erase? {
      WithoutMembers(w.events, s.eid);
    } else if s.PurgeNext? {
      assert w.worker.listed[0] in Elements(w.worker.listed);
      PurgedDone(w.proj, w.worker.listed[0], s.answer);
    } else if s.ReadEvents? {
      SortDistinct(w.events);
    } else if s.ScanNext? {
      var e := w.worker.read[0];
      RestOfRead(w.worker.read);
      ScanEventEffect(w.proj, e, s.visible, s.reply);
      forall y | y in w.events && y.eventId == e.eventId && y.eventId !in w.tombs ensures y == e {
        SameEvent(w, e, y);
      }
    } else if s.LoseAdd? || s.LoseRemoval? {
      LostStep(w, s, w');
    }
  }

  /** At every moment of every run with commits in canonical order, cycles under way included, a recorded event
      without a tombstone has every earlier store event recorded. */
  lemma {:induction false} RunPrefix(ws: seq<World>, steps: seq<Step>, k: nat)
    requires Run(ws, steps) && Canonical(ws, steps) && k < |ws|
    ensures PrefixRecorded(ws[k]) && ScanInOrder(ws[k])
  {
    hide Next, Accounted, CanonicalStep;
    if k > 0 {
      hide PrefixRecorded, ScanInOrder;
      RunPrefix(ws, steps, k - 1);
      RunAccounted(ws, steps, k - 1);
      StepPrefix(ws[k - 1], steps[k - 1], ws[k]);
    }
  }

  // ------------------------------------------------------------ a cycle that nothing disturbs

  function CycleOf(w: World, order: seq<string>, visible: Event -> bool, reply: nat -> Reply): (State, seq<Receipt>) {
    Cycle(w.proj, w.events, order, visible, reply)
  }

  ghost predicate CycleStep(s: Step, visible: Event -> bool, reply: nat -> Reply) {
    s == PurgeNext(reply) || s.ReadEvents? || s == ScanNext(visible, reply) || s.Finish?
  }

  /** A whole cycle: it starts by listing the tombstones and goes on with the worker's own steps until it rests. */
  ghost predicate Undisturbed(ws: seq<World>, steps: seq<Step>, order: seq<string>, visible: Event -> bool,
                              reply: nat -> Reply) {
    && Follows(ws, steps) && steps != [] && steps[0] == ListTombstones(order) && ws[|steps|].worker.Resting?
    && forall i :: 1 <= i < |steps| ==> CycleStep(steps[i], visible, reply)
  }

  /** What the projection will be when the cycle under way ends undisturbed. */
  function Outcome(w: World, visible: Event -> bool, reply: nat -> Reply): State {
    match w.worker
    case Resting => w.proj
    case Purging(listed, failed) =>
      var purged := Purge(w.proj, listed, reply);
      if failed || AnyFailed(purged.1) then purged.0
      else Scan(purged.0, Sort(EventLe, w.events), visible, reply).0
    case Scanning(read) => Scan(w.proj, read, visible, reply).0
  }

  lemma {:induction false} PurgeFront(p: State, listed: seq<string>, reply: nat -> Reply)
    requires listed != []
    ensures var one := PurgeOne(p, listed[0], reply);
            var all := Purge(p, listed, reply);
            var rest := Purge(one.0, listed[1..], reply);
            all.0 == rest.0 && (AnyFailed(all.1) <==> one.1.Failed? || AnyFailed(rest.1))
  {
    hide RemoveEvent;
    var front, id := listed[..|listed| - 1], listed[|listed| - 1];
    if |listed| == 1 {
      assert front == [] && listed[1..] == [];
      OneReceipt(Receipt(id, RemoveEvent(p, id, reply).1));
    } else {
      PurgeFront(p, front, reply);
      assert front[1..] == listed[1..][..|listed| - 2];
    }
  }

  lemma {:induction false} OneReceipt(r: Receipt)
    ensures AnyFailed([] + [r]) <==> r.status.Failed?
    ensures !AnyFailed([])
  {
  }

  lemma {:induction false} StepKeepsOutcome(w: World, s: Step, w': World, visible: Event -> bool, reply: nat -> Reply)
    requires Next(w, s, w') && CycleStep(s, visible, reply)
    ensures Outcome(w', visible, reply) == Outcome(w, visible, reply)
    ensures w'.events == w.events && w'.tombs == w.tombs && w'.history == w.history
  {
    hide RemoveEvent, ApplyEvent, AnyFailed, Sort, EventLe, PurgeOne;
    if s.PurgeNext? {
      PurgeFront(w.proj, w.worker.listed, reply);
    } else {
      OneReceipt(Receipt("", Skipped));
    }
  }

  /** The worker's steps, when nothing comes in between, compute the cycle function and leave the store alone. */
  lemma {:induction false} UndisturbedCycle(ws: seq<World>, steps: seq<Step>, order: seq<string>,
                                            visible: Event -> bool, reply: nat -> Reply)
    requires Undisturbed(ws, steps, order, visible, reply)
    ensures ws[|steps|] == ws[0].(proj := CycleOf(ws[0], order, visible, reply).0)
  {
    hide Purge, Scan, AnyFailed, Sort, EventLe;
    assert Next(ws[0], steps[0], ws[1]);
    UndisturbedSteps(ws, steps, order, visible, reply, |steps|);
  }

  lemma {:induction false} UndisturbedSteps(ws: seq<World>, steps: seq<Step>, order: seq<string>,
                                            visible: Event -> bool, reply: nat -> Reply, k: nat)
    requires Undisturbed(ws, steps, order, visible, reply) && 1 <= k <= |steps|
    ensures Outcome(ws[k], visible, reply) == Outcome(ws[1], visible, reply)
    ensures ws[k].events == ws[1].events && ws[k].tombs == ws[1].tombs && ws[k].history == ws[1].history
  {
    hide Outcome, Next;
    if k > 1 {
      UndisturbedSteps(ws, steps, order, visible, reply, k - 1);
      StepKeepsOutcome(ws[k - 1], steps[k - 1], ws[k], visible, reply);
    }
  }

  ghost predicate RunsOut(ws: seq<World>, steps: seq<Step>, w: World, visible: Event -> bool, reply: nat -> Reply) {
    && Follows(ws, steps) && ws[0] == w && ws[|steps|].worker.Resting?
    && forall i :: 0 <= i < |steps| ==> CycleStep(steps[i], visible, reply)
  }

  /** The worker's next own step. */
  function CycleGoesOn(w: World, visible: Event -> bool, reply: nat -> Reply): (Step, World)
    requires !w.worker.Resting?
  {
    match w.worker
    case Purging(listed, failed) =>
      if listed == [] then
        if failed then (Finish, w.(worker := Resting))
        else (ReadEvents, w.(worker := Scanning(Sort(EventLe, w.events))))
      else
        var one := PurgeOne(w.proj, listed[0], reply);
        (PurgeNext(reply), w.(proj := one.0, worker := Purging(listed[1..], failed || one.1.Failed?)))
    case Scanning(read) =>
      if read == [] then (Finish, w.(worker := Resting))
      else
        var one := ScanEvent(w.proj, read[0], visible, reply);
        (ScanNext(visible, reply), w.(proj := one.0, worker := if one.1.Failed? then Resting else Scanning(read[1..])))
  }

  /** A cycle under way can run on to its end, whatever is visible and whatever the client answers. */
  lemma {:induction false} CycleRunsOut(w: World, visible: Event -> bool, reply: nat -> Reply)
    returns (ws: seq<World>, steps: seq<Step>)
    ensures RunsOut(ws, steps, w, visible, reply)
    decreases match w.worker case Resting => 0 case Purging(_, _) => 2 case Scanning(_) => 1,
              match w.worker case Resting => 0 case Purging(listed, _) => |listed| case Scanning(read) => |read|
  {
    hide PurgeOne, ScanEvent, Sort, EventLe;
    if w.worker.Resting? {
      ws, steps := [w], [];
    } else {
      var (s, w') := CycleGoesOn(w, visible, reply);
      ws, steps := CycleRunsOut(w', visible, reply);
      ws, steps := [w] + ws, [s] + steps;
    }
  }

  /** From rest a whole undisturbed cycle exists for every listing order, policy and client. */
  lemma {:induction false} CycleExists(w: World, order: seq<string>, visible: Event -> bool, reply: nat -> Reply)
    returns (ws: seq<World>, steps: seq<Step>)
    requires w.worker.Resting? && Elements(order) == w.tombs
    ensures Undisturbed(ws, steps, order, visible, reply) && ws[0] == w
  {
    hide CycleStep;
    var w' := w.(worker := Purging(order, false));
    assert Next(w, ListTombstones(order), w');
    ws, steps := CycleRunsOut(w', visible, reply);
    var vs, ts := [w] + ws, [ListTombstones(order)] + steps;
    hide Next;
    forall i, j | 0 <= i < |ts| && j == i + 1 && j < |vs| ensures Next(vs[i], ts[i], vs[j]) {
      if i > 0 { assert Next(ws[i - 1], steps[i - 1], ws[j - 1]); }
    }
    ws, steps := vs, ts;
  }

  // ------------------------------------------------------------ redactions that are half done

  /** The recorded events are a prefix of the canonical order of the store. */
  ghost predicate PrefixClosed(events: seq<Event>, done: set<string>) {
    forall x, y :: x in events && y in events && Before(x, y) && y.eventId in done ==> x.eventId in done
  }

  /** A purge gets every tombstoned event recorded, even if the client fails. */
  lemma {:induction false} PurgeDone(p: State, tombs: seq<string>, reply: nat -> Reply)
    ensures Done(Purge(p, tombs, reply).0) == Done(p) + Elements(tombs)
  {
    if tombs != [] {
      var front, id := tombs[..|tombs| - 1], tombs[|tombs| - 1];
      PurgeDone(p, front, reply);
      assert tombs == front + [id];
      assert Elements(tombs) == Elements(front) + {id};
    }
  }

  /** While the client is down a scan without a policy records nothing. */
  lemma {:induction false} ScanDown(p: State, events: seq<Event>, visible: Event -> bool, reply: nat -> Reply)
    requires (forall e :: visible(e)) && (forall k :: reply(k).Fails?)
    ensures Done(Scan(p, events, visible, reply).0) == Done(p)
    decreases |events|
  {
    if events != [] {
      ScanDown(ScanEvent(p, events[0], visible, reply).0, events[1..], visible, reply);
    }
  }

  lemma {:induction false} CycleWhenDown(w: World, order: seq<string>, visible: Event -> bool, reply: nat -> Reply)
    requires Elements(order) == w.tombs && (forall e :: visible(e)) && (forall k :: reply(k).Fails?)
    ensures Done(CycleOf(w, order, visible, reply).0) == Done(w.proj) + w.tombs
  {
    hide EventLe, Purge, Scan, StrictlySorted, AnyFailed, Done;
    PurgeDone(w.proj, order, reply);
    ScanDown(Purge(w.proj, order, reply).0, Sort(EventLe, w.events), visible, reply);
  }

  lemma {:induction false} CycleClosed(w: World, order: seq<string>, visible: Event -> bool, reply: nat -> Reply)
    requires Elements(order) == w.tombs && DistinctIds(w.events) && PrefixClosed(w.events, Done(w.proj) + w.tombs)
    ensures PrefixClosed(w.events, Done(CycleOf(w, order, visible, reply).0))
  {
    hide EventLe, Purge, Scan, StrictlySorted, AnyFailed, Done, Before, DistinctIds, Sorted, Ids;
    PurgeDone(w.proj, order, reply);
    var p := Purge(w.proj, order, reply).0;
    var s := Sort(EventLe, w.events);
    SortDistinct(w.events);
    ScanEffect(p, s, visible, reply);
    var n := Reached(p, s, visible, reply);
    forall x, y | x in w.events && y in w.events && Before(x, y) && y.eventId in Ids(s[..n])
      ensures x.eventId in Ids(s[..n])
    {
      BeforeInPrefix(s, n, x, y);
    }
  }

  ghost predicate EndsClosed(ws: seq<World>) {
    ws != [] && PrefixClosed(ws[|ws| - 1].events, Done(ws[|ws| - 1].proj))
  }

  ghost predicate CycleFrom(w: World, ws: seq<World>, steps: seq<Step>, order: seq<string>, visible: Event -> bool,
                            reply: nat -> Reply) {
    Undisturbed(ws, steps, order, visible, reply) && ws[0] == w
  }

  /** Whatever undisturbed cycle the worker makes next, the recorded events are a prefix when it rests again. */
  ghost predicate EveryCycleCloses(w: World) {
    forall ws, steps, order, visible, reply :: CycleFrom(w, ws, steps, order, visible, reply) ==> EndsClosed(ws)
  }

  /** Every undisturbed next cycle leaves a prefix exactly if what is recorded or tombstoned now is one. */
  lemma {:induction false} EveryCycleClosesIff(w: World)
    requires DistinctIds(w.events) && w.worker.Resting?
    ensures EveryCycleCloses(w) <==> PrefixClosed(w.events, Done(w.proj) + w.tombs)
  {
    hide Done, DistinctIds, PrefixClosed, EndsClosed, CycleFrom;
    if PrefixClosed(w.events, Done(w.proj) + w.tombs) {
      forall ws, steps, order, visible, reply | CycleFrom(w, ws, steps, order, visible, reply) ensures EndsClosed(ws) {
        CycleFromCloses(w, ws, steps, order, visible, reply);
      }
    } else {
      var ws, steps, order, visible, reply := CycleThatBreaks(w);
    }
  }

  lemma {:induction false} CycleFromCloses(w: World, ws: seq<World>, steps: seq<Step>, order: seq<string>,
                                           visible: Event -> bool, reply: nat -> Reply)
    requires CycleFrom(w, ws, steps, order, visible, reply)
    requires DistinctIds(w.events) && PrefixClosed(w.events, Done(w.proj) + w.tombs)
    ensures EndsClosed(ws)
  {
    hide CycleOf, Done, DistinctIds, PrefixClosed, CycleStep, PurgeOne, ScanEvent, Sort, EventLe;
    assert Next(ws[0], steps[0], ws[1]);
    UndisturbedCycle(ws, steps, order, visible, reply);
    CycleClosed(w, order, visible, reply);
  }

  /** With an unreachable client a cycle records exactly what is tombstoned. */
  lemma {:induction false} CycleThatBreaks(w: World)
    returns (ws: seq<World>, steps: seq<Step>, order: seq<string>, visible: Event -> bool, reply: nat -> Reply)
    requires w.worker.Resting? && !PrefixClosed(w.events, Done(w.proj) + w.tombs)
    ensures CycleFrom(w, ws, steps, order, visible, reply) && !EndsClosed(ws)
  {
    hide CycleOf, Done, PrefixClosed, Next, CycleStep, StrictlySorted;
    order, visible, reply := SortedSet(w.tombs), e => true, k => Fails;
    ws, steps := CycleExists(w, order, visible, reply);
    UndisturbedCycle(ws, steps, order, visible, reply);
    CycleWhenDown(w, order, visible, reply);
  }

  /** With no redaction half done, the recorded store events are a prefix at every moment of a canonical run. */
  lemma {:induction false} RunClosed(ws: seq<World>, steps: seq<Step>, k: nat)
    requires Run(ws, steps) && Canonical(ws, steps) && k < |ws| && Ids(ws[k].events) !! ws[k].tombs
    ensures PrefixClosed(ws[k].events, Done(ws[k].proj))
  {
    hide Run, Canonical, Done, Before, ScanInOrder;
    RunPrefix(ws, steps, k);
  }

  const OLDER := Event("a", "1", "p")
  const NEWER := Event("b", "2", "p")

  const STORED := World([OLDER, NEWER], {"b"}, {"a", "b"}, Projection.EMPTY, Resting)

  /** Two commits and the first half of a redaction: a client that is down leaves the second recorded and the first
      not. */
  lemma {:induction false} HalfRedactedBreaksPrefix() returns (ws: seq<World>, steps: seq<Step>)
    ensures Run(ws, steps) && Canonical(ws, steps) && ws[|steps|].worker.Resting?
    ensures !PrefixClosed(ws[|steps|].events, Done(ws[|steps|].proj))
  {
    hide Next, EventLe;
    var w1, w2 := OneStored(), STORED.(tombs := {});
    var w4, w5, w6, w7, purge, scan := CycleDown();
    TwoStored();
    ws := [START, w1, w2, STORED, w4, w5, w6, w7];
    steps := [Commit(OLDER), Commit(NEWER), Tombstone("b"), ListTombstones(["b"]), purge, ReadEvents, scan];
    OlderNewer();
    assert OLDER in w7.events && NEWER in w7.events;
  }

  function OneStored(): World { World([OLDER], {}, {"a"}, Projection.EMPTY, Resting) }

  lemma {:induction false} TwoStored()
    ensures Next(START, Commit(OLDER), OneStored()) && Next(OneStored(), Commit(NEWER), STORED.(tombs := {}))
    ensures Next(STORED.(tombs := {}), Tombstone("b"), STORED)
  {
    assert NEWER in STORED.events;
  }

  lemma {:induction false} CycleDown() returns (w4: World, w5: World, w6: World, w7: World, purge: Step, scan: Step)
    ensures purge.PurgeNext? && scan.ScanNext?
    ensures Next(STORED, ListTombstones(["b"]), w4) && Next(w4, purge, w5) && Next(w5, ReadEvents, w6)
            && Next(w6, scan, w7)
    ensures w7.events == [OLDER, NEWER] && w7.worker.Resting? && Done(w7.proj) == {"b"}
  {
    hide Sort, EventLe;
    var down: nat -> Reply := k => Fails;
    purge, scan := PurgeNext(down), ScanNext(e => true, down);
    w4 := STORED.(worker := Purging(["b"], false));
    w5 := STORED.(proj := State(map[], {"b"}, map[], 0), worker := Purging([], false));
    w6 := w5.(worker := Scanning([OLDER, NEWER]));
    w7 := w6.(proj := State(map[], {"b"}, map[], 1), worker := Resting);
    OlderNewer();
    assert ["b"][1..] == [];
  }

  lemma {:induction false} OlderNewer()
    ensures Before(OLDER, NEWER) && Sort(EventLe, [OLDER, NEWER]) == [OLDER, NEWER] && Sort(EventLe, [OLDER]) == [OLDER]
  {
    assert StringLe("1", "2");
    assert [NEWER][1..] == [] && [OLDER][1..] == [] && [OLDER, NEWER][1..] == [NEWER];
    assert Sort(EventLe, [NEWER]) == [NEWER];
    assert Sort(EventLe, [OLDER, NEWER]) == Insert(EventLe, OLDER, [NEWER]);
  }

  // ------------------------------------------------------------ tombstones

  lemma {:induction false} LiveIff(p: State, id: string)
    requires Mirrors(p)
    ensures LiveEpisode(p, id) <==> id in p.applied && id !in p.redacted
  {
  }

  /** Purging this tombstone need not fail: its episode's UUID is known or there is none to remove. */
  predicate Removable(p: State, id: string) {
    id in p.redacted || id !in p.applied || p.applied[id].Some?
  }

  /** The cycle under way may still apply the event: it was read before its tombstone could stop it, or will be. */
  ghost predicate Exposed(w: World, id: string) {
    && id !in Done(w.proj)
    && match w.worker
       case Resting => false
       case Purging(listed, failed) =>
         !failed && id !in listed && id in Ids(w.events) && forall t :: t in listed ==> Removable(w.proj, t)
       case Scanning(read) => id in Ids(read)
  }

  ghost predicate Dead(w: World, id: string) {
    id in w.tombs && !LiveEpisode(w.proj, id) && !Exposed(w, id)
  }

  /** A scanned event is the only one that the scan can make live, and only if it was not recorded. */
  lemma {:induction false} ScanBringsOnly(p: State, e: Event, visible: Event -> bool, reply: nat -> Reply, id: string)
    requires !LiveEpisode(p, id) && (id == e.eventId ==> id in Done(p))
    ensures !LiveEpisode(ScanEvent(p, e, visible, reply).0, id)
    ensures id in Done(p) ==> id in Done(ScanEvent(p, e, visible, reply).0)
  {
  }

  lemma {:induction false} StepDead(w: World, s: Step, w': World, id: string)
    requires Next(w, s, w') && Dead(w, id)
    ensures Dead(w', id)
  {
    hide PurgeOne, ScanEvent, EventLe;
    if s.PurgeNext? || s.LoseRemoval? {
      var listed := w.worker.listed;
      assert listed == [listed[0]] + listed[1..];
      if s.PurgeNext? { PurgeOneEffect(w.proj, listed[0], s.answer); }
    } else if s.ScanNext? {
      var read := w.worker.read;
      assert read[0] in read && read == [read[0]] + read[1..];
      ScanEventEffect(w.proj, read[0], s.visible, s.reply);
      ScanBringsOnly(w.proj, read[0], s.visible, s.reply, id);
    } else if s.LoseAdd? {
      assert w.worker.read[0] in w.worker.read;
    } else if s.ReadEvents? {
      SortedIds(w.events);
    } else if s.Erase? {
      WithoutMembers(w.events, s.eid);
    }
  }

  lemma {:induction false} StepsDead(ws: seq<World>, steps: seq<Step>, k: nat, m: nat, id: string)
    requires Follows(ws, steps) && k <= m < |ws| && Dead(ws[k], id)
    ensures Dead(ws[m], id)
    decreases m
  {
    hide Next, Dead;
    if k < m {
      StepsDead(ws, steps, k, m - 1, id);
      StepDead(ws[m - 1], steps[m - 1], ws[m], id);
    }
  }

  /** Once an event is tombstoned, not live and out of reach of the cycle under way, it is not live at any later
      moment. */
  lemma {:induction false} TombstonedStaysDead(ws: seq<World>, steps: seq<Step>, k: nat, m: nat, id: string)
    requires Run(ws, steps) && k <= m < |ws|
    requires id in ws[k].tombs && !LiveEpisode(ws[k].proj, id) && !Exposed(ws[k], id)
    ensures id in ws[m].tombs && !LiveEpisode(ws[m].proj, id) && !Exposed(ws[m], id)
  {
    hide Next, Exposed, LiveEpisode;
    StepsDead(ws, steps, k, m, id);
  }

  ghost predicate Revives(ws: seq<World>, steps: seq<Step>, w: World, id: string) {
    Follows(ws, steps) && ws[0] == w && LiveEpisode(ws[|steps|].proj, id)
  }

  /** A scan that has read the event can apply it. */
  lemma {:induction false} ScanRevives(w: World, id: string) returns (ws: seq<World>, steps: seq<Step>)
    requires w.worker.Scanning? && id in Ids(w.worker.read) && id !in Done(w.proj)
    ensures Revives(ws, steps, w, id)
    decreases |w.worker.read|
  {
    var read := w.worker.read;
    var s := ScanNext(e => true, k => Succeeds(true));
    var one := ScanEvent(w.proj, read[0], s.visible, s.reply);
    var w' := w.(proj := one.0, worker := Scanning(read[1..]));
    assert Next(w, s, w');
    assert read == [read[0]] + read[1..];
    if read[0].eventId == id {
      assert w'.proj.episodes[w.proj.calls] == id;
      ws, steps := [w, w'], [s];
    } else {
      ws, steps := ScanRevives(w', id);
      ws, steps := [w] + ws, [s] + steps;
    }
  }

  lemma {:induction false} PurgeRevives(w: World, id: string) returns (ws: seq<World>, steps: seq<Step>)
    requires w.worker.Purging? && Exposed(w, id)
    ensures Revives(ws, steps, w, id)
    decreases |w.worker.listed|
  {
    hide EventLe, PurgeOne, LiveEpisode;
    var listed := w.worker.listed;
    if listed == [] {
      var w' := w.(worker := Scanning(Sort(EventLe, w.events)));
      SortedIds(w.events);
      assert Next(w, ReadEvents, w');
      ws, steps := ScanRevives(w', id);
      ws, steps := [w] + ws, [ReadEvents] + steps;
    } else {
      var s := PurgeNext(k => Succeeds(true));
      var w' := w.(proj := PurgeOne(w.proj, listed[0], s.answer).0, worker := Purging(listed[1..], false));
      PurgeSucceeds(w.proj, listed[0], s.answer);
      PurgeOneEffect(w.proj, listed[0], s.answer);
      assert Next(w, s, w');
      assert listed == [listed[0]] + listed[1..];
      assert forall t :: t in listed[1..] ==> t in listed;
      ws, steps := PurgeRevives(w', id);
      ws, steps := [w] + ws, [s] + steps;
    }
  }

  lemma {:induction false} PurgeSucceeds(p: State, id: string, reply: nat -> Reply)
    requires Removable(p, id) && forall k :: reply(k) == Succeeds(true)
    ensures !PurgeOne(p, id, reply).1.Failed?
  {
  }

  /** A tombstoned event that is not live can become live again exactly if the cycle under way can still reach it. */
  lemma {:induction false} ResurrectsIff(w: World, id: string)
    requires id in w.tombs && !LiveEpisode(w.proj, id)
    ensures (exists ws, steps :: Revives(ws, steps, w, id)) <==> Exposed(w, id)
  {
    hide Next, LiveEpisode, Done;
    if Exposed(w, id) {
      var ws, steps;
      if w.worker.Purging? {
        ws, steps := PurgeRevives(w, id);
      } else {
        ws, steps := ScanRevives(w, id);
      }
      assert Revives(ws, steps, w, id);
    } else {
      forall ws, steps ensures !Revives(ws, steps, w, id) {
        if Revives(ws, steps, w, id) {
          StepsDead(ws, steps, 0, |steps|, id);
        }
      }
    }
  }

  /** A redaction that runs to its end between the worker's read and its scan: the erased event is projected all the
      same. */
  lemma {:induction false} ErasedYetProjected() returns (ws: seq<World>, steps: seq<Step>)
    ensures Run(ws, steps) && ws[|steps|].events == [] && "a" in ws[|steps|].tombs && ws[|steps|].worker.Resting?
    ensures LiveEpisode(ws[|steps|].proj, "a")
  {
    hide Next;
    var w1, w2, w3 := ReadOlder();
    var w4, w5, w6, w7, scan := ErasedWhileScanning(w3);
    ws := [START, w1, w2, w3, w4, w5, w6, w7];
    steps := [Commit(OLDER), ListTombstones([]), ReadEvents, Tombstone("a"), Erase("a"), scan, Finish];
  }

  lemma {:induction false} ReadOlder() returns (w1: World, w2: World, w3: World)
    ensures Next(START, Commit(OLDER), w1) && Next(w1, ListTombstones([]), w2) && Next(w2, ReadEvents, w3)
    ensures w3 == OneStored().(worker := Scanning([OLDER]))
  {
    hide Sort, EventLe;
    OlderNewer();
    w1 := OneStored();
    w2 := w1.(worker := Purging([], false));
    w3 := w1.(worker := Scanning([OLDER]));
  }

  lemma {:induction false} ErasedWhileScanning(w3: World)
    returns (w4: World, w5: World, w6: World, w7: World, scan: Step)
    requires w3 == OneStored().(worker := Scanning([OLDER]))
    ensures Next(w3, Tombstone("a"), w4) && Next(w4, Erase("a"), w5) && Next(w5, scan, w6) && Next(w6, Finish, w7)
    ensures w7.events == [] && "a" in w7.tombs && w7.worker.Resting? && LiveEpisode(w7.proj, "a")
  {
    w4 := w3.(tombs := {"a"});
    w5 := w4.(events := []);
    scan := ScanNext(e => true, k => Succeeds(true));
    w6 := w5.(proj := State(map["a" := Some(0)], {}, map[0 := "a"], 1), worker := Scanning([]));
    w7 := w6.(worker := Resting);
    assert OLDER in w3.events;
    assert [OLDER][1..] == [];
    assert Without([OLDER], "a") == [];
    assert w7.proj.episodes[0] == "a";
  }

  /** An addition whose answer is lost: the event is redacted to the end, its redaction is recorded in a cycle without
      failures, and its episode is in the graph all the same. */
  lemma {:induction false} LostAdditionOutlivesRedaction() returns (ws: seq<World>, steps: seq<Step>)
    ensures Run(ws, steps) && ws[|steps|].worker.Resting? && ws[|steps|].events == [] && "a" in ws[|steps|].tombs
    ensures "a" in ws[|steps|].proj.redacted && LiveEpisode(ws[|steps|].proj, "a")
  {
    hide Next;
    var w1, w2, w3 := ReadOlder();
    var w4, w5, w6, lose := LosesAddition(w3);
    var w7, w8, w9, w10, purge := PurgedInVain(w6);
    ws := [START, w1, w2, w3, w4, w5, w6, w7, w8, w9, w10];
    steps := [Commit(OLDER), ListTombstones([]), ReadEvents, lose, Tombstone("a"), Erase("a"), ListTombstones(["a"]),
              purge, ReadEvents, Finish];
  }

  const STRAYED := State(map[], {}, map[0 := "a"], 1)

  lemma {:induction false} LosesAddition(w3: World) returns (w4: World, w5: World, w6: World, lose: Step)
    requires w3 == OneStored().(worker := Scanning([OLDER]))
    ensures Next(w3, lose, w4) && Next(w4, Tombstone("a"), w5) && Next(w5, Erase("a"), w6)
    ensures w6 == World([], {"a"}, {"a"}, STRAYED, Resting)
  {
    lose := LoseAdd(e => true);
    w4 := OneStored().(proj := STRAYED);
    w5 := w4.(tombs := {"a"});
    w6 := w5.(events := []);
    assert OLDER in w3.events;
    assert [OLDER][1..] == [];
    assert Without([OLDER], "a") == [];
  }

  lemma {:induction false} PurgedInVain(w6: World)
    returns (w7: World, w8: World, w9: World, w10: World, purge: Step)
    requires w6 == World([], {"a"}, {"a"}, STRAYED, Resting)
    ensures Next(w6, ListTombstones(["a"]), w7) && Next(w7, purge, w8)
    ensures Next(w8, ReadEvents, w9) && Next(w9, Finish, w10)
    ensures w10 == w6.(proj := STRAYED.(redacted := {"a"})) && LiveEpisode(w10.proj, "a")
  {
    hide EventLe;
    purge := PurgeNext(k => Succeeds(true));
    w7 := w6.(worker := Purging(["a"], false));
    w8 := w6.(proj := STRAYED.(redacted := {"a"}), worker := Purging([], false));
    w9 := w8.(worker := Scanning([]));
    w10 := w8.(worker := Resting);
    assert ["a"][1..] == [];
    assert w10.proj.episodes[0] == "a";
  }

  /** A removal whose answer is lost: the ledger counts the event as live and the graph has no episode for it. */
  lemma {:induction false} LostRemovalBreaks() returns (ws: seq<World>, steps: seq<Step>)
    ensures Run(ws, steps) && NoAddLost(steps, |steps|) && ws[|steps|].worker.Resting?
    ensures !Mirrors(ws[|steps|].proj) && Missing(ws[|steps|].proj, "a")
  {
    hide Next, Mirrors;
    var w1, w2, w3 := ReadOlder();
    var w4, w5, w6, scan := ProjectsOlder(w3);
    var w7 := w6.(worker := Purging(["a"], false));
    var w8 := w6.(proj := w6.proj.(episodes := map[], calls := 2));
    RemovalLost(w6);
    ws := [START, w1, w2, w3, w4, w5, w6, w7, w8];
    steps := [Commit(OLDER), ListTombstones([]), ReadEvents, scan, Finish, Tombstone("a"), ListTombstones(["a"]),
              LoseRemoval(false)];
    RunBooked(ws, steps, |steps|);
    assert Missing(w8.proj, "a");
    MirrorsSplit(w8.proj);
  }

  const PROJECTED := State(map["a" := Some(0)], {}, map[0 := "a"], 1)

  lemma {:induction false} ProjectsOlder(w3: World) returns (w4: World, w5: World, w6: World, scan: Step)
    requires w3 == OneStored().(worker := Scanning([OLDER]))
    ensures scan.ScanNext? && Next(w3, scan, w4) && Next(w4, Finish, w5) && Next(w5, Tombstone("a"), w6)
    ensures w6 == World([OLDER], {"a"}, {"a"}, PROJECTED, Resting)
  {
    scan := ScanNext(e => true, k => Succeeds(true));
    w4 := OneStored().(proj := PROJECTED, worker := Scanning([]));
    w5 := OneStored().(proj := PROJECTED);
    w6 := w5.(tombs := {"a"});
    assert OLDER in w5.events;
    assert [OLDER][1..] == [];
  }

  lemma {:induction false} RemovalLost(w6: World)
    requires w6 == World([OLDER], {"a"}, {"a"}, PROJECTED, Resting)
    ensures Next(w6, ListTombstones(["a"]), w6.(worker := Purging(["a"], false)))
    ensures Next(w6.(worker := Purging(["a"], false)), LoseRemoval(false),
                 w6.(proj := PROJECTED.(episodes := map[], calls := 2)))
  {
    assert map[0 := "a"] - {0} == map[];
  }

  // ------------------------------------------------------------ the visibility policy

  /** Whatever the policy is at this step, it hides every event with this identity. */
  ghost predicate HidesStep(s: Step, id: string) {
    && (s.ScanNext? ==> forall e: Event :: e.eventId == id ==> !s.visible(e))
    && (s.LoseAdd? ==> forall e: Event :: e.eventId == id ==> !s.shown(e))
  }

  lemma {:induction false} StepHides(w: World, s: Step, w': World, id: string)
    requires Next(w, s, w') && HidesStep(s, id)
    ensures StaysOut(w.proj, w'.proj, id)
  {
    hide RemoveEvent, ApplyEvent, ScanEvent, EventLe, Sort;
    StayOut(w.proj, w.proj, w.proj, id);
    if s.PurgeNext? {
      RemoveHidden(w.proj, w.worker.listed[0], s.answer, id);
    } else if s.ScanNext? {
      ApplyHidden(w.proj, w.worker.read[0], s.visible, s.reply, id);
    }
  }

  /** An event that the policy hides at every step is never applied and never live, at any moment of any run. */
  lemma {:induction false} HiddenNeverLive(ws: seq<World>, steps: seq<Step>, k: nat, id: string)
    requires Run(ws, steps) && k < |ws| && forall i :: 0 <= i < |steps| ==> HidesStep(steps[i], id)
    ensures id !in ws[k].proj.applied && !LiveEpisode(ws[k].proj, id)
  {
    hide Next, HidesStep;
    if k > 0 {
      HiddenNeverLive(ws, steps, k - 1, id);
      StepHides(ws[k - 1], steps[k - 1], ws[k], id);
    }
  }

  // ------------------------------------------------------------ convergence without a policy

  ghost predicate NoPolicyStep(s: Step) {
    s.ScanNext? ==> forall e :: s.visible(e)
  }

  ghost predicate NoPolicy(steps: seq<Step>) {
    forall i :: 0 <= i < |steps| ==> NoPolicyStep(steps[i])
  }

  /** Without a visibility policy only tombstoned events are redacted. */
  lemma {:induction false} RunRedactsTombstoned(ws: seq<World>, steps: seq<Step>, k: nat)
    requires Run(ws, steps) && NoPolicy(steps) && k < |ws|
    ensures ws[k].proj.redacted <= ws[k].tombs
  {
    hide Next, Accounted, NoPolicyStep;
    if k > 0 {
      RunRedactsTombstoned(ws, steps, k - 1);
      RunAccounted(ws, steps, k - 1);
      StepRedacts(ws[k - 1], steps[k - 1], ws[k]);
    }
  }

  lemma {:induction false} StepRedacts(w: World, s: Step, w': World)
    requires Accounted(w) && Next(w, s, w') && NoPolicyStep(s) && w.proj.redacted <= w.tombs
    ensures w'.proj.redacted <= w'.tombs
  {
    hide PurgeOne, ScanEvent, StoreAccounted;
    if s.PurgeNext? {
      PurgeOneEffect(w.proj, w.worker.listed[0], s.answer);
      assert w.worker.listed[0] in Elements(w.worker.listed);
    } else if s.ScanNext? {
      ScanEventEffect(w.proj, w.worker.read[0], s.visible, s.reply);
    }
  }

  /** An undisturbed cycle without failures leaves one live episode per event that is not tombstoned, and a further
      one changes nothing; unless an added episode was lost before. */
  lemma {:induction false} CycleConverges(ws: seq<World>, steps: seq<Step>, k: nat, order: seq<string>,
                                          visible: Event -> bool, reply: nat -> Reply, order': seq<string>,
                                          visible': Event -> bool, reply': nat -> Reply)
    requires Run(ws, steps) && NoPolicy(steps) && k < |ws| && NoAddLost(steps, k) && forall e :: visible(e)
    requires Elements(order) == ws[k].tombs == Elements(order')
    requires !AnyFailed(CycleOf(ws[k], order, visible, reply).1)
    ensures var w' := ws[k].(proj := CycleOf(ws[k], order, visible, reply).0);
            && (forall id :: LiveEpisode(w'.proj, id) <==> id in Ids(w'.events) && id !in w'.tombs)
            && Mirrors(w'.proj)
            && CycleOf(w', order', visible', reply').0 == w'.proj
  {
    hide Run, NoPolicy, NoAddLost, CycleOf, Mirrors, LiveEpisode, Done, AnyFailed, Ids, WorkerKnows;
    var w := ws[k];
    RunAccounted(ws, steps, k);
    RunRedactsTombstoned(ws, steps, k);
    var w' := w.(proj := CycleOf(w, order, visible, reply).0);
    CycleRepairs(ws, steps, k, order, visible, reply);
    SuccessfulCycle(w, order, visible, reply);
    forall id ensures LiveEpisode(w'.proj, id) <==> id in Ids(w'.events) && id !in w'.tombs {
      LiveIff(w'.proj, id);
      LiveDone(w, w'.proj, id);
    }
    QuietCycle(w', order', visible', reply');
  }

  lemma {:induction false} LiveDone(w: World, p: State, id: string)
    requires Accounted(w) && p.redacted == w.tombs && Done(p) == Done(w.proj) + w.tombs + Ids(w.events)
    ensures id in p.applied && id !in p.redacted <==> id in Ids(w.events) && id !in w.tombs
  {
    hide WorkerKnows, Ids;
  }

  /** A cycle without failures removes what was missing. */
  lemma {:induction false} CycleRepairs(ws: seq<World>, steps: seq<Step>, k: nat, order: seq<string>,
                                        visible: Event -> bool, reply: nat -> Reply)
    requires Run(ws, steps) && NoPolicy(steps) && k < |ws| && NoAddLost(steps, k) && forall e :: visible(e)
    requires Elements(order) == ws[k].tombs && !AnyFailed(CycleOf(ws[k], order, visible, reply).1)
    ensures Mirrors(CycleOf(ws[k], order, visible, reply).0)
  {
    hide Run, NoPolicy, NoAddLost, Cycle, Mirrors, LiveEpisode, Done, AnyFailed, Ids, Booked, Single, Stray, StaysStray;
    var p, q := ws[k].proj, CycleOf(ws[k], order, visible, reply).0;
    RunBooked(ws, steps, k);
    RunSingle(ws, steps, k);
    RunRedactsTombstoned(ws, steps, k);
    CycleKeepsBooks(p, ws[k].events, order, visible, reply);
    SuccessfulCycle(ws[k], order, visible, reply);
    forall x ensures !Missing(q, x) {
      if Missing(q, x) { MissingIsTombstoned(ws, steps, k, x); }
    }
    MirrorsSplit(q);
  }

  lemma {:induction false} SuccessfulCycle(w: World, order: seq<string>, visible: Event -> bool, reply: nat -> Reply)
    requires Elements(order) == w.tombs && w.proj.redacted <= w.tombs && forall e :: visible(e)
    requires !AnyFailed(CycleOf(w, order, visible, reply).1)
    ensures var q := CycleOf(w, order, visible, reply).0;
            q.redacted == w.tombs && Done(q) == Done(w.proj) + w.tombs + Ids(w.events)
  {
    hide EventLe, Purge, Scan, Done, Ids;
    PurgeEffect(w.proj, order, reply);
    PurgeDone(w.proj, order, reply);
    var purged := Purge(w.proj, order, reply);
    var s := Sort(EventLe, w.events);
    var scanned := Scan(purged.0, s, visible, reply);
    SortedIds(w.events);
    ScanEffect(purged.0, s, visible, reply);
    ScanKeeps(purged.0, s, visible, reply);
    assert s[..|s|] == s;
  }

  lemma {:induction false} QuietCycle(w: World, order: seq<string>, visible: Event -> bool, reply: nat -> Reply)
    requires Elements(order) == w.tombs && w.tombs <= w.proj.redacted && Ids(w.events) <= Done(w.proj)
    ensures CycleOf(w, order, visible, reply).0 == w.proj
  {
    hide EventLe, Purge, Scan, Done, Ids;
    PurgeEffect(w.proj, order, reply);
    SortedIds(w.events);
    ScanQuiet(w.proj, Sort(EventLe, w.events), visible, reply);
  }
}
