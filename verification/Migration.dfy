/** Semantic snapshots, their comparison, and the ledger of projection switches.

    Sorted tuples of dictionary items are carried as the dictionaries themselves, and
    the sorted provenance list as a multiset. The digest is any function of a snapshot. */
module Migration {
  import opened Basics
  import opened Ordering
  import opened Lifecycle

  datatype Snapshot = Snapshot(
    eventIds: seq<string>,
    packEvents: map<string, seq<string>>,
    packSubjects: map<string, set<string>>,
    provenance: multiset<(string, string)>,
    claimStates: map<string, ClaimState>,
    relationStates: map<string, Relation>,
    typeCounts: map<string, nat>)

  function EventType(e: Event): string {
    match e.body
    case ClaimProposed => "claim.proposed"
    case ClaimStateChanged(_, _) => "claim.state_changed"
    case ClaimSuperseded(_) => "claim.superseded"
    case RelationProposed(_, _) => "relation.proposed"
    case RelationStateChanged(_, _, _) => "relation.state_changed"
    case RelationSuperseded(_, _) => "relation.superseded"
    case OtherKind(kind) => kind
  }

  // ------------------------------------------------------------ what a snapshot says of a replay

  function Ids(replay: seq<Event>): seq<string> {
    seq(|replay|, i requires 0 <= i < |replay| => replay[i].eventId)
  }

  function IdsOfPack(replay: seq<Event>, pack: string): seq<string> {
    if replay == [] then []
    else
      var front := IdsOfPack(replay[..|replay| - 1], pack);
      if replay[|replay| - 1].packId == pack then front + [replay[|replay| - 1].eventId] else front
  }

  function CountOfType(replay: seq<Event>, kind: string): nat {
    if replay == [] then 0
    else CountOfType(replay[..|replay| - 1], kind) + if EventType(replay[|replay| - 1]) == kind then 1 else 0
  }

  function Provenance(replay: seq<Event>): multiset<(string, string)> {
    if replay == [] then multiset{}
    else Provenance(replay[..|replay| - 1]) + multiset{(replay[|replay| - 1].eventId, replay[|replay| - 1].provenance)}
  }

  ghost predicate SubjectOfPack(replay: seq<Event>, pack: string, subject: string) {
    exists i :: 0 <= i < |replay| && replay[i].packId == pack && subject in replay[i].subjects
  }

  function Packs(replay: seq<Event>): set<string> {
    set e | e in replay :: e.packId
  }

  function Types(replay: seq<Event>): set<string> {
    set e | e in replay :: EventType(e)
  }

  /** The snapshot describes this replay and the state it leaves, dictionary by dictionary. */
  ghost predicate Describes(s: Snapshot, replay: seq<Event>, state: Knowledge) {
    && s.eventIds == Ids(replay)
    && s.claimStates == state.claims && s.relationStates == state.relations
    && DescribesEvents(s.packEvents, s.packSubjects, s.provenance, s.typeCounts, replay)
  }

  ghost predicate DescribesEvents(packEvents: map<string, seq<string>>, packSubjects: map<string, set<string>>,
                                  provenance: multiset<(string, string)>, typeCounts: map<string, nat>,
                                  replay: seq<Event>) {
    && packEvents.Keys == Packs(replay) && (forall p :: p in packEvents ==> packEvents[p] == IdsOfPack(replay, p))
    && packSubjects.Keys == Packs(replay) && (forall p, x :: p in packSubjects ==>
                                              (x in packSubjects[p] <==> SubjectOfPack(replay, p, x)))
    && provenance == Provenance(replay)
    && typeCounts.Keys == Types(replay) && (forall t :: t in typeCounts ==> typeCounts[t] == CountOfType(replay, t))
  }

  /** A description pins the snapshot down. */
  lemma {:induction false} DescriptionUnique(s: Snapshot, t: Snapshot, replay: seq<Event>, state: Knowledge)
    requires Describes(s, replay, state) && Describes(t, replay, state)
    ensures s == t
  {
    hide IdsOfPack, CountOfType, Provenance, SubjectOfPack, Packs, Types;
    forall p | p in s.packSubjects ensures s.packSubjects[p] == t.packSubjects[p] {
      assert forall x :: x in s.packSubjects[p] <==> SubjectOfPack(replay, p, x);
    }
    assert s.packEvents == t.packEvents && s.packSubjects == t.packSubjects && s.typeCounts == t.typeCounts;
  }

  lemma {:induction false} EmptyDescribed()
    ensures DescribesEvents(map[], map[], multiset{}, map[], [])
  {
  }

  lemma {:induction false} AppendFolds(replay: seq<Event>, e: Event, p: string, t: string)
    ensures IdsOfPack(replay + [e], p) == if e.packId == p then IdsOfPack(replay, p) + [e.eventId]
            else IdsOfPack(replay, p)
    ensures CountOfType(replay + [e], t) == CountOfType(replay, t) + if EventType(e) == t then 1 else 0
    ensures Provenance(replay + [e]) == Provenance(replay) + multiset{(e.eventId, e.provenance)}
    ensures Packs(replay + [e]) == Packs(replay) + {e.packId} && Types(replay + [e]) == Types(replay) + {EventType(e)}
  {
    hide EventType;
    assert (replay + [e])[..|replay|] == replay;
  }

  lemma {:induction false} SubjectAppend(replay: seq<Event>, e: Event, p: string, x: string)
    ensures SubjectOfPack(replay + [e], p, x) <==> SubjectOfPack(replay, p, x) || (e.packId == p && x in e.subjects)
  {
    var r := replay + [e];
    if SubjectOfPack(replay, p, x) {
      var i :| 0 <= i < |replay| && replay[i].packId == p && x in replay[i].subjects;
      assert r[i] == replay[i];
    }
    if e.packId == p && x in e.subjects {
      assert r[|replay|] == e;
    }
  }

  lemma {:induction false} NewPack(replay: seq<Event>, p: string)
    requires p !in Packs(replay)
    ensures IdsOfPack(replay, p) == [] && forall x :: !SubjectOfPack(replay, p, x)
  {
    forall i | 0 <= i < |replay| ensures replay[i].packId != p { assert replay[i] in replay; }
    if replay != [] {
      assert replay == replay[..|replay| - 1] + [replay[|replay| - 1]];
      NewPack(replay[..|replay| - 1], p);
    }
  }

  lemma {:induction false} NewType(replay: seq<Event>, t: string)
    requires t !in Types(replay)
    ensures CountOfType(replay, t) == 0
  {
    hide EventType;
    if replay != [] {
      assert replay == replay[..|replay| - 1] + [replay[|replay| - 1]];
      NewType(replay[..|replay| - 1], t);
    }
  }

  /** The body of the loop in `from_events`. */
  method Accumulate(packEvents: map<string, seq<string>>, packSubjects: map<string, set<string>>,
                    provenance: multiset<(string, string)>, typeCounts: map<string, nat>, ghost replay: seq<Event>,
                    e: Event)
    returns (packEvents': map<string, seq<string>>, packSubjects': map<string, set<string>>,
             provenance': multiset<(string, string)>, typeCounts': map<string, nat>)
    requires DescribesEvents(packEvents, packSubjects, provenance, typeCounts, replay)
    ensures DescribesEvents(packEvents', packSubjects', provenance', typeCounts', replay + [e])
  {
    hide IdsOfPack, CountOfType, Provenance, SubjectOfPack, Packs, Types, EventType;
    var p, t := e.packId, EventType(e);
    packEvents' := packEvents[p := (if p in packEvents then packEvents[p] else []) + [e.eventId]];
    packSubjects' := packSubjects[p := (if p in packSubjects then packSubjects[p] else {}) + Elements(e.subjects)];
    typeCounts' := typeCounts[t := (if t in typeCounts then typeCounts[t] else 0) + 1];
    provenance' := provenance + multiset{(e.eventId, e.provenance)};
    AppendFolds(replay, e, p, t);
    forall q, u ensures (q in packEvents' ==> packEvents'[q] == IdsOfPack(replay + [e], q))
                        && (u in typeCounts' ==> typeCounts'[u] == CountOfType(replay + [e], u)) {
      AppendFolds(replay, e, q, u);
      if q !in packEvents { NewPack(replay, q); }
      if u !in typeCounts { NewType(replay, u); }
    }
    forall q, x | q in packSubjects' ensures x in packSubjects'[q] <==> SubjectOfPack(replay + [e], q, x) {
      SubjectAppend(replay, e, q, x);
      if q !in packSubjects { NewPack(replay, q); }
    }
  }

  /** `SemanticSnapshot.from_events`; `None` when the replay raises. */
  method FromEvents(events: seq<Event>) returns (s: Option<Snapshot>)
    ensures s.Some? <==> Replay(Sort(EventLe, events)).Ok?
    ensures s.Some? ==> Describes(s.value, Sort(EventLe, events), Replay(Sort(EventLe, events)).state)
  {
    hide Replay, DescribesEvents, EventLe, Consistent;
    var replay := Sort(EventLe, events);
    var ok, state := ReplayEvents(replay);
    if !ok {
      return None;
    }
    var claims, relations := state.claims, state.relations;
    var packEvents, packSubjects, provenance, typeCounts := map[], map[], multiset{}, map[];
    EmptyDescribed();
    for i := 0 to |replay|
      invariant DescribesEvents(packEvents, packSubjects, provenance, typeCounts, replay[..i])
    {
      assert replay[..i + 1] == replay[..i] + [replay[i]];
      packEvents, packSubjects, provenance, typeCounts :=
        Accumulate(packEvents, packSubjects, provenance, typeCounts, replay[..i], replay[i]);
    }
    assert replay[..|replay|] == replay;
    s := Some(Snapshot(Ids(replay), packEvents, packSubjects, provenance, claims, relations, typeCounts));
  }

  function IdOf(e: Event): string { e.eventId }

  ghost predicate DistinctIds(events: seq<Event>) {
    DistinctKeys(events, IdOf)
  }

  /** For distinct event ids the snapshot depends only on which events there are, not on their order. */
  lemma {:induction false} SnapshotIgnoresOrder(a: seq<Event>, b: seq<Event>, s: Snapshot, t: Snapshot)
    requires DistinctIds(a) && multiset(a) == multiset(b)
    requires Replay(Sort(EventLe, a)).Ok? && Describes(s, Sort(EventLe, a), Replay(Sort(EventLe, a)).state)
    requires Replay(Sort(EventLe, b)).Ok? && Describes(t, Sort(EventLe, b), Replay(Sort(EventLe, b)).state)
    ensures s == t
  {
    hide Replay, Describes, StringLe;
    SameReplay(a, b);
    DescriptionUnique(s, t, Sort(EventLe, a), Replay(Sort(EventLe, a)).state);
  }

  lemma {:induction false} SameReplay(a: seq<Event>, b: seq<Event>)
    requires DistinctIds(a) && multiset(a) == multiset(b)
    ensures Sort(EventLe, a) == Sort(EventLe, b)
  {
    hide StringLe;
    EventOrder();
    StringOrder();
    forall x, y | x in a && y in a && EventLe(x, y) && EventLe(y, x) ensures x == y {
      SameEntry(a, IdOf, x, y);
    }
    SortOfPermutation(EventLe, a, b);
  }

  // ------------------------------------------------------------ comparison

  datatype Report = Report(candidateSlot: string, mismatches: seq<string>, benchmarks: map<string, bool>)

  predicate Passed(r: Report) {
    r.mismatches == [] && forall b :: b in r.benchmarks ==> r.benchmarks[b]
  }

  function Named(differs: bool, field: string): (r: seq<string>)
    ensures r == [] <==> !differs
    ensures forall x :: x in r <==> differs && x == field
  {
    if differs then [field] else []
  }

  /** `ProjectionComparator.compare`, field by field. */
  function Compare(expected: Snapshot, candidate: Snapshot, slot: string, benchmarks: map<string, bool>): Report {
    Report(slot,
           Named(expected.eventIds != candidate.eventIds, "event_ids")
           + Named(expected.packEvents != candidate.packEvents, "pack_event_ids")
           + Named(expected.packSubjects != candidate.packSubjects, "namespace_subject_refs")
           + Named(expected.provenance != candidate.provenance, "provenance_by_event")
           + Named(expected.claimStates != candidate.claimStates, "claim_states")
           + Named(expected.relationStates != candidate.relationStates, "relation_states")
           + Named(expected.typeCounts != candidate.typeCounts, "event_type_counts"),
           benchmarks)
  }

  /** A report passes exactly when the snapshots are equal and every benchmark passed. */
  lemma {:induction false} PassedIff(expected: Snapshot, candidate: Snapshot, slot: string,
                                     benchmarks: map<string, bool>)
    ensures Passed(Compare(expected, candidate, slot, benchmarks)) <==>
              expected == candidate && forall b :: b in benchmarks ==> benchmarks[b]
  {
    var r := Compare(expected, candidate, slot, benchmarks);
    if expected == candidate {
      assert r.mismatches == [];
    } else {
      assert |r.mismatches| > 0;
    }
  }

  // ------------------------------------------------------------ the switch ledger

  datatype Switch = Switch(switchedAt: string, switchId: string, fromSlot: Option<string>, toSlot: string)

  /** The key `(switched_at, switch_id)`. */
  predicate SwitchLe(a: Switch, b: Switch) {
    if a.switchedAt != b.switchedAt then StringLe(a.switchedAt, b.switchedAt) else StringLe(a.switchId, b.switchId)
  }

  lemma {:induction false} SwitchOrder()
    ensures Preorder(SwitchLe)
  {
    hide StringLe;
    StringOrder();
  }

  /** `active_slot`: the target of the last record in key order. */
  function ActiveSlot(records: seq<Switch>): Option<string> {
    SortPermutes(SwitchLe, records);
    if records == [] then None else Some(Sort(SwitchLe, records)[|records| - 1].toSlot)
  }

  /** Each switch leaves from where the one before it went. */
  ghost predicate Chained(s: seq<Switch>) {
    forall i, j :: 0 <= i < j < |s| && j == i + 1 ==> s[j].fromSlot == Some(s[i].toSlot)
  }

  /** The switch leaves from the slot these records make active. */
  predicate LeavesActive(records: seq<Switch>, r: Switch) {
    ActiveSlot(records).None? || r.fromSlot == ActiveSlot(records)
  }

  /** The check of `record_switch` that reads the ledger. */
  predicate Checks(records: seq<Switch>, r: Switch, report: Report) {
    Passed(report) && report.candidateSlot == r.toSlot && LeavesActive(records, r)
  }

  predicate FreshKey(records: seq<Switch>, r: Switch) {
    forall s :: s in records ==> s.switchedAt != r.switchedAt || s.switchId != r.switchId
  }

  predicate Admits(records: seq<Switch>, r: Switch, report: Report) {
    Checks(records, r, report) && FreshKey(records, r)
  }

  class SwitchLedger {
    /** The record files, in the order they were written. */
    var records: seq<Switch>

    constructor ()
      ensures records == []
    {
      records := [];
    }

    /** `record_switch`; `false` stands for a raised error. */
    method RecordSwitch(r: Switch, report: Report) returns (ok: bool)
      modifies this
      ensures ok <==> Admits(old(records), r, report)
      ensures records == if ok then old(records) + [r] else old(records)
    {
      hide StringLe;
      if !Passed(report) || report.candidateSlot != r.toSlot {
        return false;
      }
      var active := ActiveSlot(records);
      if active.Some? && r.fromSlot != active {
        return false;
      }
      if exists s :: s in records && s.switchedAt == r.switchedAt && s.switchId == r.switchId {
        return false;
      }
      records := records + [r];
      ok := true;
    }

    /** `compare_and_switch`: a recorded switch means equal snapshots and passed benchmarks. */
    method CompareAndSwitch(expected: Snapshot, candidate: Snapshot, r: Switch, benchmarks: map<string, bool>)
      returns (ok: bool)
      modifies this
      ensures ok ==>
              expected == candidate && (forall b :: b in benchmarks ==> benchmarks[b]) && records == old(records) + [r]
      ensures !ok ==> records == old(records)
      ensures ok <==> Admits(old(records), r, Compare(expected, candidate, r.toSlot, benchmarks))
    {
      hide Compare;
      PassedIff(expected, candidate, r.toSlot, benchmarks);
      var report := Compare(expected, candidate, r.toSlot, benchmarks);
      if !Passed(report) {
        return false;
      }
      ok := RecordSwitch(r, report);
    }
  }

  ghost predicate After(records: seq<Switch>, r: Switch) {
    forall s :: s in records ==> SwitchLe(s, r) && !SwitchLe(r, s)
  }

  lemma {:induction false} SortAppendLast(records: seq<Switch>, r: Switch)
    requires forall s :: s in records ==> SwitchLe(s, r)
    requires forall s :: s in records && SwitchLe(r, s) ==> s == r
    ensures Sort(SwitchLe, records + [r]) == Sort(SwitchLe, records) + [r]
  {
    hide StringLe;
    SwitchOrder();
    var s := Sort(SwitchLe, records);
    SortSorts(SwitchLe, records);
    SortPermutes(SwitchLe, records);
    SortMembers(SwitchLe, records);
    InsertLast(records, r);
  }

  lemma {:induction false} InsertLast(records: seq<Switch>, r: Switch)
    requires forall s :: s in records ==> SwitchLe(s, r)
    requires forall s :: s in records && SwitchLe(r, s) ==> s == r
    ensures Sort(SwitchLe, records + [r]) == Sort(SwitchLe, records) + [r]
  {
    hide SwitchLe;
    if records == [] {
      assert records + [r] == [r];
      assert [r][1..] == [];
    } else {
      assert (records + [r])[1..] == records[1..] + [r];
      InsertLast(records[1..], r);
      SortMembers(SwitchLe, records[1..]);
      InsertBefore(records[0], Sort(SwitchLe, records[1..]), r);
    }
  }

  lemma {:induction false} InsertBefore(x: Switch, s: seq<Switch>, r: Switch)
    requires SwitchLe(x, r)
    ensures Insert(SwitchLe, x, s + [r]) == Insert(SwitchLe, x, s) + [r]
  {
    hide SwitchLe;
    if s == [] {
      assert s + [r] == [r];
      assert [x] + [r] == [x] + ([r] + []);
    } else {
      assert (s + [r])[1..] == s[1..] + [r];
      if !SwitchLe(x, s[0]) { InsertBefore(x, s[1..], r); }
    }
  }

  /** With a key past every recorded one, an admitted switch extends the chain and becomes active. */
  lemma {:induction false} LaterSwitchChains(records: seq<Switch>, r: Switch, report: Report)
    requires Admits(records, r, report) && After(records, r) && Chained(Sort(SwitchLe, records))
    ensures Chained(Sort(SwitchLe, records + [r])) && ActiveSlot(records + [r]) == Some(r.toSlot)
  {
    hide SwitchLe;
    SortAppendLast(records, r);
    SortPermutes(SwitchLe, records);
  }

  datatype Attempt = Attempt(switch: Switch, report: Report)

  /** The ledger after a list of attempts. */
  function Attempted(attempts: seq<Attempt>): seq<Switch> {
    if attempts == [] then []
    else
      var records := Attempted(attempts[..|attempts| - 1]);
      var a := attempts[|attempts| - 1];
      if Admits(records, a.switch, a.report) then records + [a.switch] else records
  }

  /** An attempt after others is recorded exactly if its report is clean and for its slot, it leaves the active slot and
      its key is new. */
  lemma {:induction false} AttemptedGrows(attempts: seq<Attempt>, a: Attempt)
    ensures var records := Attempted(attempts); var recorded := Attempted(attempts + [a]) == records + [a.switch];
            && Attempted([]) == []
            && (recorded || Attempted(attempts + [a]) == records)
            && (recorded <==>
                  && a.report.mismatches == [] && (forall b :: b in a.report.benchmarks ==> a.report.benchmarks[b])
                  && a.report.candidateSlot == a.switch.toSlot
                  && (records == [] || a.switch.fromSlot == ActiveSlot(records))
                  && forall x :: x in records ==>
                       !(x.switchedAt == a.switch.switchedAt && x.switchId == a.switch.switchId))
  {
    hide Admits, ActiveSlot;
    assert (attempts + [a])[..|attempts + [a]| - 1] == attempts;
    AdmitsIff(Attempted(attempts), a.switch, a.report);
    assert |Attempted(attempts) + [a.switch]| == |Attempted(attempts)| + 1;
  }

  ghost predicate IncreasingTimes(attempts: seq<Attempt>) {
    forall i, j :: 0 <= i < j < |attempts| ==>
      StringLe(attempts[i].switch.switchedAt, attempts[j].switch.switchedAt)
        && attempts[i].switch.switchedAt != attempts[j].switch.switchedAt
  }

  lemma {:induction false} RecordsWereAttempted(attempts: seq<Attempt>)
    ensures forall s :: s in Attempted(attempts) ==> exists i :: 0 <= i < |attempts| && attempts[i].switch == s
  {
    hide Admits;
    if attempts != [] {
      var front := attempts[..|attempts| - 1];
      RecordsWereAttempted(front);
      forall s | s in Attempted(attempts) ensures exists i :: 0 <= i < |attempts| && attempts[i].switch == s {
        if s in Attempted(front) {
          var i :| 0 <= i < |front| && front[i].switch == s;
          assert attempts[i].switch == s;
        } else {
          assert attempts[|attempts| - 1].switch == s;
        }
      }
    }
  }

  lemma {:induction false} NextIsAfter(attempts: seq<Attempt>)
    requires attempts != [] && IncreasingTimes(attempts)
    ensures After(Attempted(attempts[..|attempts| - 1]), attempts[|attempts| - 1].switch)
  {
    hide StringLe, Attempted;
    StringOrder();
    var front := attempts[..|attempts| - 1];
    RecordsWereAttempted(front);
    forall s | s in Attempted(front) ensures SwitchLe(s, attempts[|attempts| - 1].switch)
           && !SwitchLe(attempts[|attempts| - 1].switch, s) {
      var i :| 0 <= i < |front| && front[i].switch == s;
      assert attempts[i].switch == s;
    }
  }

  /** With strictly increasing timestamps, whatever is attempted, the recorded switches form an unbroken chain that
      ends at the active slot. */
  lemma {:induction false} SwitchesChain(attempts: seq<Attempt>)
    requires IncreasingTimes(attempts)
    ensures var records := Attempted(attempts);
            Chained(Sort(SwitchLe, records)) && Sort(SwitchLe, records) == records
            && (records != [] ==> ActiveSlot(records) == Some(records[|records| - 1].toSlot))
  {
    hide Admits, SwitchLe, StringLe, ActiveSlot;
    if attempts != [] {
      var front, a := attempts[..|attempts| - 1], attempts[|attempts| - 1];
      SwitchesChain(front);
      NextIsAfter(attempts);
      var records := Attempted(front);
      if Admits(records, a.switch, a.report) {
        LaterSwitchChains(records, a.switch, a.report);
        AfterSorts(records, a.switch);
      }
    }
  }

  lemma {:induction false} AfterSorts(records: seq<Switch>, r: Switch)
    requires After(records, r)
    ensures Sort(SwitchLe, records + [r]) == Sort(SwitchLe, records) + [r]
  {
    hide SwitchLe;
    SortAppendLast(records, r);
  }

  /** A record whose key is below the last one is written but does not become the last. */
  lemma {:induction false} EarlierSwitchStaysInactive(records: seq<Switch>, r: Switch, last: Switch)
    requires last in records && SwitchLe(r, last) && !SwitchLe(last, r)
    requires forall s :: s in records ==> SwitchLe(s, last)
    requires forall s :: s in records && SwitchLe(last, s) ==> s == last
    ensures ActiveSlot(records + [r]) == Some(last.toSlot) && ActiveSlot(records) == Some(last.toSlot)
  {
    hide SwitchLe;
    LastSorts(records, last);
    LastSorts(records + [r], last);
  }

  lemma {:induction false} LastSorts(records: seq<Switch>, last: Switch)
    requires last in records
    requires forall s :: s in records ==> SwitchLe(s, last)
    requires forall s :: s in records && SwitchLe(last, s) ==> s == last
    ensures ActiveSlot(records) == Some(last.toSlot)
  {
    hide SwitchLe;
    SwitchOrder();
    var s := Sort(SwitchLe, records);
    SortSorts(SwitchLe, records);
    SortMembers(SwitchLe, records);
    SortPermutes(SwitchLe, records);
    var i :| 0 <= i < |s| && s[i] == last;
    assert i == |s| - 1 || SwitchLe(s[i], s[|s| - 1]);
    assert s[|s| - 1] in records;
  }

  /** A switch becomes active exactly when its key is past every recorded key, or it targets the active slot anyway. */
  lemma {:induction false} BecomesActiveIff(records: seq<Switch>, r: Switch, report: Report, last: Switch)
    requires Admits(records, r, report)
    requires last in records && forall s :: s in records ==> SwitchLe(s, last)
    requires forall s :: s in records && SwitchLe(last, s) ==> s == last
    ensures ActiveSlot(records + [r]) == Some(r.toSlot) <==> SwitchLe(last, r) || ActiveSlot(records) == Some(r.toSlot)
  {
    hide Passed;
    SwitchOrder();
    if SwitchLe(last, r) {
      KeysDiffer(last, r);
      assert forall s :: s in records ==> SwitchLe(s, r);
      LastSorts(records + [r], r);
    } else {
      EarlierSwitchStaysInactive(records, r, last);
    }
  }

  lemma {:induction false} KeysDiffer(a: Switch, b: Switch)
    requires a.switchedAt != b.switchedAt || a.switchId != b.switchId
    ensures !(SwitchLe(a, b) && SwitchLe(b, a))
  {
    StringOrder();
  }

  // ------------------------------------------------------------ switchers that race

  /** A switcher between its reading of the ledger, which showed `seen` records, and its write. */
  datatype Pending = Pending(switch: Switch, seen: nat)

  datatype Ledger = Ledger(records: seq<Switch>, pending: map<string, Pending>)

  datatype Move =
    | Check(agent: string, switch: Switch, report: Report)
    | Write(agent: string)

  ghost predicate Moved(l: Ledger, m: Move, l': Ledger) {
    match m
    case Check(a, r, report) =>
      Checks(l.records, r, report) && l' == l.(pending := l.pending[a := Pending(r, |l.records|)])
    case Write(a) =>
      a in l.pending && FreshKey(l.records, l.pending[a].switch)
      && l' == Ledger(l.records + [l.pending[a].switch], l.pending - {a})
  }

  ghost predicate Race(ls: seq<Ledger>, moves: seq<Move>) {
    && |ls| == |moves| + 1 && ls[0] == Ledger([], map[])
    && forall i, j :: 0 <= i < |moves| && j == i + 1 && j < |ls| ==> Moved(ls[i], moves[i], ls[j])
  }

  ghost predicate WritesAfter(l: Ledger, m: Move) {
    m.Write? && m.agent in l.pending ==> After(l.records, l.pending[m.agent].switch)
  }

  /** Records are written in the order of their keys. */
  ghost predicate InKeyOrder(ls: seq<Ledger>, moves: seq<Move>) {
    forall i :: 0 <= i < |moves| && i < |ls| ==> WritesAfter(ls[i], moves[i])
  }

  /** The move writes a switch that others overtook after its check, and they left another slot active. */
  ghost predicate WritesOvertaken(l: Ledger, m: Move) {
    && m.Write? && m.agent in l.pending && l.pending[m.agent].seen < |l.records|
    && l.pending[m.agent].switch.fromSlot != Some(l.records[|l.records| - 1].toSlot)
  }

  ghost predicate NoneOvertaken(ls: seq<Ledger>, moves: seq<Move>, k: nat) {
    forall i :: 0 <= i < k && i < |moves| && i < |ls| ==> !WritesOvertaken(ls[i], moves[i])
  }

  ghost predicate Recorded(l: Ledger) {
    && Sort(SwitchLe, l.records) == l.records
    && forall a :: a in l.pending ==>
         l.pending[a].seen <= |l.records| && LeavesActive(l.records[..l.pending[a].seen], l.pending[a].switch)
  }

  lemma {:induction false} MoveRecorded(l: Ledger, m: Move, l': Ledger)
    requires Recorded(l) && Moved(l, m, l') && WritesAfter(l, m)
    ensures Recorded(l')
  {
    hide LeavesActive, SwitchLe, Passed, FreshKey;
    match m
    case Check(a, r, report) =>
      assert l.records[..|l.records|] == l.records;
    case Write(a) =>
      AfterSorts(l.records, l.pending[a].switch);
      forall b | b in l'.pending ensures l'.records[..l.pending[b].seen] == l.records[..l.pending[b].seen] {
      }
  }

  lemma {:induction false} RaceRecorded(ls: seq<Ledger>, moves: seq<Move>, k: nat)
    requires Race(ls, moves) && InKeyOrder(ls, moves) && k < |ls|
    ensures Recorded(ls[k])
  {
    hide Moved, WritesAfter, LeavesActive, SwitchLe;
    if k > 0 {
      RaceRecorded(ls, moves, k - 1);
      MoveRecorded(ls[k - 1], moves[k - 1], ls[k]);
    }
  }

  lemma {:induction false} ChainedAppend(s: seq<Switch>, r: Switch)
    ensures Chained(s + [r]) <==> Chained(s) && (s == [] || r.fromSlot == Some(s[|s| - 1].toSlot))
  {
    var t := s + [r];
    if Chained(t) {
      forall i, j | 0 <= i < j < |s| && j == i + 1 ensures s[j].fromSlot == Some(s[i].toSlot) {
        assert t[j].fromSlot == Some(t[i].toSlot);
      }
      if s != [] { assert t[|s|].fromSlot == Some(t[|s| - 1].toSlot); }
    }
  }

  /** One more record keeps the chain exactly if its switcher was not overtaken. */
  lemma {:induction false} MoveChains(l: Ledger, m: Move, l': Ledger)
    requires Recorded(l) && Moved(l, m, l')
    ensures Chained(l'.records) <==> Chained(l.records) && !WritesOvertaken(l, m)
  {
    hide SwitchLe, Passed, FreshKey, Chained;
    if m.Write? {
      var p := l.pending[m.agent];
      ChainedAppend(l.records, p.switch);
      assert p.seen == |l.records| ==> l.records[..p.seen] == l.records;
    }
  }

  /** Of racing switchers that write in key order, the records form an unbroken chain exactly if no switch was written
      after others had overtaken it and left another slot active. */
  lemma {:induction false} RaceChainsIff(ls: seq<Ledger>, moves: seq<Move>, k: nat)
    requires Race(ls, moves) && InKeyOrder(ls, moves) && k < |ls|
    ensures Sort(SwitchLe, ls[k].records) == ls[k].records
    ensures Chained(ls[k].records) <==> NoneOvertaken(ls, moves, k)
  {
    hide Moved, WritesAfter, WritesOvertaken, LeavesActive, SwitchLe, Chained;
    RaceRecorded(ls, moves, k);
    if k == 0 {
      NothingChained();
    } else {
      RaceChainsIff(ls, moves, k - 1);
      RaceRecorded(ls, moves, k - 1);
      MoveChains(ls[k - 1], moves[k - 1], ls[k]);
    }
  }

  lemma {:induction false} NothingChained()
    ensures Chained([])
  {
  }

  // ------------------------------------------------------------ writes in any order of keys

  /** Where a record goes among the sorted ones. */
  function Place(s: seq<Switch>, r: Switch): (p: nat)
    ensures p <= |s|
    ensures Insert(SwitchLe, r, s) == s[..p] + [r] + s[p..]
  {
    if s == [] || SwitchLe(r, s[0]) then 0 else 1 + Place(s[1..], r)
  }

  /** The switch leaves from where the one before it in key order went, and the one after it leaves from where it
      goes. */
  ghost predicate FitsAt(s: seq<Switch>, r: Switch, p: nat)
    requires p <= |s|
  {
    && (p > 0 ==> r.fromSlot == Some(s[p - 1].toSlot))
    && (p < |s| ==> s[p].fromSlot == Some(r.toSlot))
  }

  ghost predicate WriteFits(l: Ledger, m: Move) {
    m.Write? && m.agent in l.pending ==>
      var s := Sort(SwitchLe, l.records); var r := l.pending[m.agent].switch; FitsAt(s, r, Place(s, r))
  }

  ghost predicate DistinctSwitches(records: seq<Switch>) {
    && (forall i, j :: 0 <= i < j < |records| ==> records[i] != records[j])
    && forall x, y :: x in records && y in records && SwitchLe(x, y) && SwitchLe(y, x) ==> x == y
  }

  lemma {:induction false} WriteKeepsDistinct(records: seq<Switch>, r: Switch)
    requires DistinctSwitches(records) && FreshKey(records, r)
    ensures DistinctSwitches(records + [r])
  {
    hide SwitchLe;
    forall x | x in records ensures !(SwitchLe(x, r) && SwitchLe(r, x)) {
      KeysDiffer(x, r);
    }
  }

  lemma {:induction false} WriteInserts(records: seq<Switch>, r: Switch)
    requires DistinctSwitches(records + [r])
    ensures Sort(SwitchLe, records + [r]) == Insert(SwitchLe, r, Sort(SwitchLe, records))
  {
    hide SwitchLe;
    SwitchOrder();
    assert ([r] + records)[1..] == records;
    assert multiset([r] + records) == multiset(records + [r]);
    SortOfPermutation(SwitchLe, records + [r], [r] + records);
  }

  lemma {:induction false} ChainedInsert(s: seq<Switch>, r: Switch, p: nat)
    requires p <= |s| && Chained(s)
    ensures Chained(s[..p] + [r] + s[p..]) <==> FitsAt(s, r, p)
  {
    var t := s[..p] + [r] + s[p..];
    assert forall i :: 0 <= i < p ==> t[i] == s[i];
    assert forall i :: p <= i < |s| ==> t[i + 1] == s[i];
    if Chained(t) {
      assert p > 0 ==> t[p].fromSlot == Some(t[p - 1].toSlot);
      assert p < |s| ==> t[p + 1].fromSlot == Some(t[p].toSlot);
    }
    if FitsAt(s, r, p) {
      forall i, j | 0 <= i < j < |t| && j == i + 1 ensures t[j].fromSlot == Some(t[i].toSlot) {
        if j < p {
          assert s[j].fromSlot == Some(s[i].toSlot);
        } else if i > p {
          assert s[i].fromSlot == Some(s[i - 1].toSlot);
        }
      }
    }
  }

  lemma {:induction false} MoveFits(l: Ledger, m: Move, l': Ledger)
    requires DistinctSwitches(l.records) && Moved(l, m, l')
    ensures DistinctSwitches(l'.records)
    ensures Chained(Sort(SwitchLe, l.records)) ==> (Chained(Sort(SwitchLe, l'.records)) <==> WriteFits(l, m))
  {
    hide SwitchLe, Passed, FreshKey, Chained, DistinctSwitches, LeavesActive, FitsAt;
    if m.Write? {
      var s, r := Sort(SwitchLe, l.records), l.pending[m.agent].switch;
      WriteKeepsDistinct(l.records, r);
      WriteInserts(l.records, r);
      if Chained(s) { ChainedInsert(s, r, Place(s, r)); }
    }
  }

  ghost predicate ChainedThroughout(ls: seq<Ledger>, k: nat) {
    forall j :: 0 <= j <= k && j < |ls| ==> Chained(Sort(SwitchLe, ls[j].records))
  }

  ghost predicate AllFit(ls: seq<Ledger>, moves: seq<Move>, k: nat) {
    forall i :: 0 <= i < k && i < |moves| && i < |ls| ==> WriteFits(ls[i], moves[i])
  }

  /** Whatever the order of the keys, the sorted records form an unbroken chain at every moment of a race exactly if
      each switch was written between neighbours that it fits. */
  lemma {:induction false} RaceChainsThroughoutIff(ls: seq<Ledger>, moves: seq<Move>, k: nat)
    requires Race(ls, moves) && k < |ls|
    ensures DistinctSwitches(ls[k].records)
    ensures ChainedThroughout(ls, k) <==> AllFit(ls, moves, k)
  {
    hide Moved, WriteFits, SwitchLe, Chained, DistinctSwitches;
    if k == 0 {
      NothingChained();
      assert DistinctSwitches([]) by { NoneDistinct(); }
    } else {
      RaceChainsThroughoutIff(ls, moves, k - 1);
      MoveFits(ls[k - 1], moves[k - 1], ls[k]);
    }
  }

  lemma {:induction false} NoneDistinct()
    ensures DistinctSwitches([])
  {
  }

  const FIRST := Switch("1", "a", None, "blue")
  const GREEN := Switch("2", "b", Some("blue"), "green")
  const RED := Switch("3", "c", Some("blue"), "red")

  const BOTH := map["x" := Pending(GREEN, 1), "y" := Pending(RED, 1)]

  function Clean(slot: string): Report { Report(slot, [], map[]) }

  /** Two switchers that both check before either writes both leave from the same slot. */
  lemma {:induction false} RaceBreaksChain() returns (ls: seq<Ledger>, moves: seq<Move>)
    ensures Race(ls, moves) && InKeyOrder(ls, moves)
    ensures ls[|moves|].records == [FIRST, GREEN, RED] && !Chained(ls[|moves|].records)
  {
    hide Moved, WritesAfter;
    FirstSwitch();
    BothCheck();
    BothWrite();
    ls := [Ledger([], map[]), Ledger([], map["x" := Pending(FIRST, 0)]), Ledger([FIRST], map[]),
           Ledger([FIRST], map["x" := Pending(GREEN, 1)]), Ledger([FIRST], BOTH),
           Ledger([FIRST, GREEN], BOTH - {"x"}), Ledger([FIRST, GREEN, RED], map[])];
    moves := [Check("x", FIRST, Clean("blue")), Write("x"), Check("x", GREEN, Clean("green")),
              Check("y", RED, Clean("red")), Write("x"), Write("y")];
    var records := ls[6].records;
    assert records[2].fromSlot != Some(records[1].toSlot);
  }

  lemma {:induction false} FirstSwitch()
    ensures var l, m := Ledger([], map["x" := Pending(FIRST, 0)]), Check("x", FIRST, Clean("blue"));
            Moved(Ledger([], map[]), m, l) && Moved(l, Write("x"), Ledger([FIRST], map[]))
            && WritesAfter(Ledger([], map[]), m) && WritesAfter(l, Write("x"))
  {
    var p := map["x" := Pending(FIRST, 0)];
    assert p - {"x"} == map[];
  }

  lemma {:induction false} ActiveAfterFirst()
    ensures ActiveSlot([FIRST]) == Some("blue")
  {
    LastSorts([FIRST], FIRST);
  }

  lemma {:induction false} BothCheck()
    ensures var l, x, y := Ledger([FIRST], map["x" := Pending(GREEN, 1)]),
                           Check("x", GREEN, Clean("green")), Check("y", RED, Clean("red"));
            Moved(Ledger([FIRST], map[]), x, l) && Moved(l, y, Ledger([FIRST], BOTH))
            && WritesAfter(Ledger([FIRST], map[]), x) && WritesAfter(l, y)
  {
    hide ActiveSlot;
    ActiveAfterFirst();
  }

  /** Checked against the whole ledger and written with an older timestamp: the switch is recorded, does not become
      active, and breaks the chain. */
  lemma {:induction false} OlderSwitch()
    ensures var late := GREEN.(switchedAt := "3"); var older := Switch("2", "d", Some("green"), "red");
            var records := [FIRST, late];
            && Admits(records, older, Clean("red"))
            && ActiveSlot(records) == Some("green") && ActiveSlot(records + [older]) == Some("green")
            && Chained(Sort(SwitchLe, records)) && !Chained(Sort(SwitchLe, records + [older]))
  {
    hide ActiveSlot, SwitchLe, Chained, Sort, FitsAt;
    var late, older := GREEN.(switchedAt := "3"), Switch("2", "d", Some("green"), "red");
    var records := [FIRST, late];
    OlderKeys(late, older);
    OneDistinct(FIRST);
    WriteKeepsDistinct([FIRST], late);
    assert [FIRST] + [late] == records;
    WriteKeepsDistinct(records, older);
    WriteInserts([FIRST], late);
    WriteInserts(records, older);
    OlderSorts(late, older);
    LastSorts(records, late);
    LastSorts(records + [older], late);
    ChainedInsert([FIRST, late], older, 1);
    ChainedAppend([FIRST], late);
    ChainedAppend([], FIRST);
    NothingChained();
    assert [] + [FIRST] == [FIRST];
    assert !FitsAt([FIRST, late], older, 1) by { OlderMisfits(late, older); }
  }

  lemma {:induction false} OneDistinct(r: Switch)
    ensures DistinctSwitches([r]) && Sort(SwitchLe, [r]) == [r]
  {
    assert [r][1..] == [];
  }

  lemma {:induction false} OlderKeys(late: Switch, older: Switch)
    requires late == GREEN.(switchedAt := "3") && older == Switch("2", "d", Some("green"), "red")
    ensures SwitchLe(FIRST, late) && SwitchLe(FIRST, older) && SwitchLe(older, late)
    ensures !SwitchLe(late, FIRST) && !SwitchLe(older, FIRST) && !SwitchLe(late, older)
    ensures SwitchLe(late, late) && SwitchLe(FIRST, FIRST)
  {
    assert StringLe("1", "2") && StringLe("1", "3") && StringLe("2", "3");
    assert !StringLe("2", "1") && !StringLe("3", "1") && !StringLe("3", "2");
    StringOrder();
  }

  lemma {:induction false} OlderSorts(late: Switch, older: Switch)
    requires SwitchLe(older, late) && !SwitchLe(older, FIRST) && !SwitchLe(late, FIRST)
    ensures Insert(SwitchLe, late, [FIRST]) == [FIRST, late]
            && Insert(SwitchLe, older, [FIRST, late]) == [FIRST, older, late]
    ensures [FIRST, late][..1] + [older] + [FIRST, late][1..] == [FIRST, older, late]
  {
    hide SwitchLe;
    assert [FIRST][1..] == [] && [FIRST, late][1..] == [late];
    assert Insert(SwitchLe, late, []) == [late] && Insert(SwitchLe, older, [late]) == [older] + [late];
    assert [FIRST] + [late] == [FIRST, late] && [FIRST] + ([older] + [late]) == [FIRST, older, late];
  }

  lemma {:induction false} OlderMisfits(late: Switch, older: Switch)
    requires older.fromSlot == Some("green")
    ensures !FitsAt([FIRST, late], older, 1)
  {
  }

  lemma {:induction false} InOrder123()
    ensures SwitchLe(FIRST, GREEN) && SwitchLe(FIRST, RED) && SwitchLe(GREEN, RED)
    ensures !SwitchLe(GREEN, FIRST) && !SwitchLe(RED, FIRST) && !SwitchLe(RED, GREEN)
  {
    assert StringLe("1", "2") && StringLe("1", "3") && StringLe("2", "3");
    assert !StringLe("2", "1") && !StringLe("3", "1") && !StringLe("3", "2");
  }

  lemma {:induction false} BothWrite()
    ensures var l := Ledger([FIRST, GREEN], BOTH - {"x"});
            Moved(Ledger([FIRST], BOTH), Write("x"), l) && Moved(l, Write("y"), Ledger([FIRST, GREEN, RED], map[]))
            && WritesAfter(Ledger([FIRST], BOTH), Write("x")) && WritesAfter(l, Write("y"))
  {
    hide SwitchLe;
    InOrder123();
    assert [FIRST] + [GREEN] == [FIRST, GREEN] && [FIRST, GREEN] + [RED] == [FIRST, GREEN, RED];
    assert BOTH - {"x"} - {"y"} == map[];
  }

  // ------------------------------------------------------------ names and keys

  /** The event type of each kind of body. */
  lemma {:induction false} EventTypeIs(e: Event)
    ensures e.body.ClaimProposed? ==> EventType(e) == "claim.proposed"
    ensures e.body.ClaimStateChanged? ==> EventType(e) == "claim.state_changed"
    ensures e.body.ClaimSuperseded? ==> EventType(e) == "claim.superseded"
    ensures e.body.RelationProposed? ==> EventType(e) == "relation.proposed"
    ensures e.body.RelationStateChanged? ==> EventType(e) == "relation.state_changed"
    ensures e.body.RelationSuperseded? ==> EventType(e) == "relation.superseded"
    ensures e.body.OtherKind? ==> EventType(e) == e.body.kind
  {
  }

  /** The type counts are the numbers of events of each type. */
  lemma {:induction false} CountIsNumber(replay: seq<Event>, kind: string)
    ensures CountOfType(replay, kind) == |set i | 0 <= i < |replay| && EventType(replay[i]) == kind|
  {
    hide EventType;
    if replay != [] {
      var front, n := replay[..|replay| - 1], |replay| - 1;
      CountIsNumber(front, kind);
      var a := set i | 0 <= i < |front| && EventType(front[i]) == kind;
      var b := set i | 0 <= i < |replay| && EventType(replay[i]) == kind;
      assert b == a + if EventType(replay[n]) == kind then {n} else {};
    }
  }

  predicate Carries(e: Event, id: string, provenance: string) {
    e.eventId == id && e.provenance == provenance
  }

  /** The provenance of a snapshot has one entry for every event. */
  lemma {:induction false} ProvenanceCounts(replay: seq<Event>, id: string, provenance: string)
    ensures Provenance(replay)[(id, provenance)] ==
              |set i | 0 <= i < |replay| && Carries(replay[i], id, provenance)|
  {
    hide Carries;
    if replay != [] {
      hide Provenance;
      var front, n := replay[..|replay| - 1], |replay| - 1;
      ProvenanceCounts(front, id, provenance);
      LastProvenance(replay, id, provenance);
      var a := set i | 0 <= i < |front| && Carries(front[i], id, provenance);
      var b := set i | 0 <= i < |replay| && Carries(replay[i], id, provenance);
      assert b == a + if Carries(replay[n], id, provenance) then {n} else {};
    }
  }

  lemma {:induction false} LastProvenance(replay: seq<Event>, id: string, provenance: string)
    requires replay != []
    ensures Provenance(replay)[(id, provenance)] ==
              Provenance(replay[..|replay| - 1])[(id, provenance)]
              + if Carries(replay[|replay| - 1], id, provenance) then 1 else 0
  {
    var e := replay[|replay| - 1];
    var one := multiset{(e.eventId, e.provenance)};
    assert Provenance(replay) == Provenance(replay[..|replay| - 1]) + one;
    assert one[(id, provenance)] == if Carries(e, id, provenance) then 1 else 0;
  }

  /** The identities of a pack are those of its events, in replay order. */
  lemma {:induction false} PackIdsAre(a: seq<Event>, b: seq<Event>, e: Event, pack: string)
    ensures IdsOfPack(a + b, pack) == IdsOfPack(a, pack) + IdsOfPack(b, pack)
    ensures IdsOfPack([e], pack) == if e.packId == pack then [e.eventId] else []
  {
    assert [e][..0] == [];
    if b == [] {
      assert a + b == a;
    } else {
      var n := |b| - 1;
      PackIdsAre(a, b[..n], e, pack);
      assert (a + b)[..|a + b| - 1] == a + b[..n] && (a + b)[|a + b| - 1] == b[n];
    }
  }

  /** A comparison names exactly the fields that differ, and is about the slot and the benchmarks it was given. */
  lemma {:induction false} MismatchesAre(expected: Snapshot, candidate: Snapshot, slot: string,
                                         benchmarks: map<string, bool>, field: string)
    ensures var r := Compare(expected, candidate, slot, benchmarks);
            && r.candidateSlot == slot && r.benchmarks == benchmarks
            && (field in r.mismatches <==>
                  || (field == "event_ids" && expected.eventIds != candidate.eventIds)
                  || (field == "pack_event_ids" && expected.packEvents != candidate.packEvents)
                  || (field == "namespace_subject_refs" && expected.packSubjects != candidate.packSubjects)
                  || (field == "provenance_by_event" && expected.provenance != candidate.provenance)
                  || (field == "claim_states" && expected.claimStates != candidate.claimStates)
                  || (field == "relation_states" && expected.relationStates != candidate.relationStates)
                  || (field == "event_type_counts" && expected.typeCounts != candidate.typeCounts))
  {
    hide Named;
  }

  /** The active slot is the target of a record that none is later than, by timestamp and then by identity. */
  lemma {:induction false} ActiveIsLatest(records: seq<Switch>)
    ensures ActiveSlot(records).None? <==> records == []
    ensures records != [] ==> exists r :: r in records && Latest(records, r) && ActiveSlot(records) == Some(r.toSlot)
  {
    hide StringLe;
    if records != [] {
      SwitchOrder();
      StringOrder();
      var s := Sort(SwitchLe, records);
      SortSorts(SwitchLe, records);
      SortMembers(SwitchLe, records);
      SortPermutes(SwitchLe, records);
      var last := s[|s| - 1];
      forall x | x in records ensures SwitchLe(x, last) {
        assert x in s;
        var i :| 0 <= i < |s| && s[i] == x;
        assert i < |s| - 1 ==> SwitchLe(s[i], s[|s| - 1]);
      }
      assert last in records && Latest(records, last);
    }
  }

  ghost predicate Latest(records: seq<Switch>, r: Switch) {
    forall x :: x in records ==>
      StringLe(x.switchedAt, r.switchedAt) && (x.switchedAt == r.switchedAt ==> StringLe(x.switchId, r.switchId))
  }

  /** When a switch is admitted, spelled out. */
  lemma {:induction false} AdmitsIff(records: seq<Switch>, r: Switch, report: Report)
    ensures Admits(records, r, report) <==>
              && report.mismatches == [] && (forall b :: b in report.benchmarks ==> report.benchmarks[b])
              && report.candidateSlot == r.toSlot
              && (records == [] || r.fromSlot == ActiveSlot(records))
              && forall x :: x in records ==> !(x.switchedAt == r.switchedAt && x.switchId == r.switchId)
  {
    hide Sort;
  }
}
