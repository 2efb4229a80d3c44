/** Event replay: the lifecycle of claims and relations.

    `Apply` is what one event does; the class `KnowledgeState` does it in place. States and
    relation types outside the frozen vocabularies are carried as unknown names and refused. */
module Lifecycle {
  import opened Basics
  import opened Ordering

  datatype ClaimState =
    | Proposed | OpenQuestion | Supported | Disputed | Rejected | Superseded | Retracted | StalePendingReview
    | UnknownState(name: string)

  datatype RelationState = Suggested | Active | Contested | Replaced | Invalidated | UnknownRelationState(name: string)

  /** `Registered` is any type of the ontology other than DEPENDS_ON. */
  datatype RelationType = DependsOn | Registered(name: string) | Unregistered(name: string)

  datatype Relation = Relation(kind: RelationType, source: string, target: string, state: RelationState)

  datatype Body =
    | ClaimProposed
    | ClaimStateChanged(to: ClaimState, claimFrom: Option<ClaimState>)
    | ClaimSuperseded(claimFrom: Option<ClaimState>)
    | RelationProposed(relationId: string, relation: Relation)
    | RelationStateChanged(relationId: string, relationTo: RelationState, relationFrom: Option<RelationState>)
    | RelationSuperseded(relationId: string, relationFrom: Option<RelationState>)
    | OtherKind(kind: string)

  datatype Event = Event(eventId: string, recordedAt: string, packId: string, subjects: seq<string>, body: Body,
                         provenance: string)

  /** The four dictionaries, with the insertion order of `relations`. */
  datatype Knowledge = Knowledge(
    claims: map<string, ClaimState>,
    claimHistory: map<string, seq<ClaimState>>,
    relations: map<string, Relation>,
    relationHistory: map<string, seq<RelationState>>,
    order: seq<string>)

  datatype Error =
    | MissingSubject | ClaimExists | UnknownClaim | InvalidClaimState | ClaimFromMismatch
    | RelationExists | UnknownRelation | InvalidRelationType | InvalidRelationState | RelationFromMismatch

  datatype Replayed = Ok(state: Knowledge) | Err(error: Error)

  const EMPTY := Knowledge(map[], map[], map[], map[], [])

  predicate Terminal(s: ClaimState) {
    s.Superseded? || s.Retracted? || s.Rejected?
  }

  ghost predicate ClaimsConsistent(claims: map<string, ClaimState>, history: map<string, seq<ClaimState>>) {
    && history.Keys == claims.Keys
    && (forall c :: c in claims ==> |history[c]| > 0 && history[c][|history[c]| - 1] == claims[c])
  }

  ghost predicate RelationsConsistent(relations: map<string, Relation>, history: map<string, seq<RelationState>>) {
    && history.Keys == relations.Keys
    && (forall r :: r in relations ==> |history[r]| > 0 && history[r][|history[r]| - 1] == relations[r].state)
  }

  /** Each dictionary of states matches its history, whose last entry is the current state. */
  ghost predicate Consistent(k: Knowledge) {
    && ClaimsConsistent(k.claims, k.claimHistory)
    && RelationsConsistent(k.relations, k.relationHistory)
    && NoDuplicates(k.order) && Elements(k.order) == k.relations.Keys
  }

  // ------------------------------------------------------------ one event

  function SetClaim(k: Knowledge, c: string, target: ClaimState): Knowledge
    requires c in k.claimHistory
  {
    k.(claims := k.claims[c := target], claimHistory := k.claimHistory[c := k.claimHistory[c] + [target]])
  }

  /** `change_claim`. */
  function ChangeClaim(k: Knowledge, c: string, target: ClaimState, expected: Option<ClaimState>): Replayed {
    if c !in k.claims || c !in k.claimHistory then Err(UnknownClaim)
    else if target.UnknownState? then Err(InvalidClaimState)
    else if expected.Some? && k.claims[c] != expected.value then Err(ClaimFromMismatch)
    else Ok(SetClaim(k, c, target))
  }

  /** The relation makes its source depend on the premise, and the source can still go stale. */
  predicate Dependent(k: Knowledge, premise: string, r: string) {
    && r in k.relations && k.relations[r].kind.DependsOn? && k.relations[r].state.Active?
    && k.relations[r].target == premise && k.relations[r].source in k.claims
  }

  function MarkOne(k: Knowledge, premise: string, r: string): Knowledge {
    if Dependent(k, premise, r) && !Terminal(k.claims[k.relations[r].source]) && k.relations[r].source in k.claimHistory
    then SetClaim(k, k.relations[r].source, StalePendingReview)
    else k
  }

  /** `mark_dependents_stale`, visiting the relations in the given order. */
  function MarkStale(k: Knowledge, premise: string, order: seq<string>): Knowledge {
    if order == [] then k else MarkOne(MarkStale(k, premise, order[..|order| - 1]), premise, order[|order| - 1])
  }

  function ProposeRelation(k: Knowledge, r: string, relation: Relation): Replayed {
    if r in k.relations then Err(RelationExists)
    else if relation.kind.Unregistered? then Err(InvalidRelationType)
    else if relation.state.UnknownRelationState? then Err(InvalidRelationState)
    else Ok(k.(relations := k.relations[r := relation], relationHistory := k.relationHistory[r := [relation.state]],
               order := k.order + [r]))
  }

  function ChangeRelation(k: Knowledge, r: string, target: RelationState, expected: Option<RelationState>): Replayed {
    if r !in k.relations || r !in k.relationHistory then Err(UnknownRelation)
    else if expected.Some? && k.relations[r].state != expected.value then Err(RelationFromMismatch)
    else if target.UnknownRelationState? then Err(InvalidRelationState)
    else Ok(k.(relations := k.relations[r := k.relations[r].(state := target)],
               relationHistory := k.relationHistory[r := k.relationHistory[r] + [target]]))
  }

  /** `KnowledgeState.apply`. */
  function Apply(k: Knowledge, e: Event): Replayed {
    if e.subjects == [] then Err(MissingSubject)
    else
      var subject := e.subjects[0];
      match e.body
      case ClaimProposed =>
        if subject in k.claims then Err(ClaimExists)
        else Ok(k.(claims := k.claims[subject := Proposed], claimHistory := k.claimHistory[subject := [Proposed]]))
      case ClaimStateChanged(to, from) => ChangeClaim(k, subject, to, from)
      case ClaimSuperseded(from) =>
        var changed := ChangeClaim(k, subject, Superseded, from);
        if changed.Err? then changed else Ok(MarkStale(changed.state, subject, k.order))
      case RelationProposed(r, relation) => ProposeRelation(k, r, relation)
      case RelationStateChanged(r, to, from) => ChangeRelation(k, r, to, from)
      case RelationSuperseded(r, from) => ChangeRelation(k, r, Replaced, from)
      case OtherKind(_) => Ok(k)
  }

  function Replay(events: seq<Event>): Replayed {
    if events == [] then Ok(EMPTY)
    else
      var before := Replay(events[..|events| - 1]);
      if before.Err? then before else Apply(before.state, events[|events| - 1])
  }

  // ------------------------------------------------------------ what every event keeps

  ghost predicate Prefixes<T>(h: map<string, seq<T>>, h': map<string, seq<T>>) {
    forall c :: c in h ==> c in h' && h[c] <= h'[c]
  }

  /** Histories only grow at the end. */
  ghost predicate Extends(k: Knowledge, k': Knowledge) {
    Prefixes(k.claimHistory, k'.claimHistory) && Prefixes(k.relationHistory, k'.relationHistory)
  }

  lemma {:induction false} HistoryGrows<T>(h: map<string, seq<T>>, c: string, s: seq<T>)
    requires c in h ==> h[c] <= s
    ensures Prefixes(h, h[c := s])
  {
  }

  lemma {:induction false} SetClaimKeeps(k: Knowledge, c: string, target: ClaimState)
    requires Consistent(k) && c in k.claims
    ensures Consistent(SetClaim(k, c, target)) && Extends(k, SetClaim(k, c, target))
  {
    hide RelationsConsistent, NoDuplicates, Elements, Prefixes;
    HistoryGrows(k.claimHistory, c, k.claimHistory[c] + [target]);
    ExtendsOrder(k, k, k);
  }

  lemma {:induction false} ExtendsOrder(a: Knowledge, b: Knowledge, c: Knowledge)
    ensures Extends(a, a) && (Extends(a, b) && Extends(b, c) ==> Extends(a, c))
  {
  }

  lemma {:induction false} MarkStaleKeeps(k: Knowledge, premise: string, order: seq<string>)
    requires Consistent(k)
    ensures Consistent(MarkStale(k, premise, order)) && Extends(k, MarkStale(k, premise, order))
    ensures var m := MarkStale(k, premise, order);
            m.relations == k.relations && m.relationHistory == k.relationHistory && m.order == k.order
              && m.claims.Keys == k.claims.Keys
  {
    if order != [] {
      hide Extends;
      var front := order[..|order| - 1];
      MarkStaleKeeps(k, premise, front);
      var m := MarkStale(k, premise, front);
      var n := MarkStale(k, premise, order);
      if n != m {
        SetClaimKeeps(m, m.relations[order[|order| - 1]].source, StalePendingReview);
        ExtendsOrder(k, m, n);
      }
    } else {
      assert MarkStale(k, premise, order) == k;
    }
  }

  lemma {:induction false} ProposeClaimKeeps(k: Knowledge, c: string)
    requires Consistent(k) && c !in k.claims
    ensures var k' := k.(claims := k.claims[c := Proposed], claimHistory := k.claimHistory[c := [Proposed]]);
            Consistent(k') && Extends(k, k')
  {
    hide RelationsConsistent, NoDuplicates;
  }

  lemma {:induction false} SupersedeKeeps(k: Knowledge, c: string)
    requires Consistent(k) && c in k.claims && c in k.claimHistory
    ensures var k' := MarkStale(SetClaim(k, c, Superseded), c, k.order); Consistent(k') && Extends(k, k')
  {
    hide MarkStale, Extends, Consistent;
    var s := SetClaim(k, c, Superseded);
    SetClaimKeeps(k, c, Superseded);
    MarkStaleKeeps(s, c, k.order);
    ExtendsOrder(k, s, MarkStale(s, c, k.order));
  }

  lemma {:induction false} ApplyKeeps(k: Knowledge, e: Event)
    requires Consistent(k) && Apply(k, e).Ok?
    ensures Consistent(Apply(k, e).state) && Extends(k, Apply(k, e).state)
  {
    hide MarkStale, Extends, Consistent;
    match e.body
    case ClaimProposed => ProposeClaimKeeps(k, e.subjects[0]);
    case ClaimStateChanged(to, _) => SetClaimKeeps(k, e.subjects[0], to);
    case ClaimSuperseded(_) => SupersedeKeeps(k, e.subjects[0]);
    case RelationProposed(r, relation) => ProposeKeeps(k, r, relation);
    case RelationStateChanged(r, to, _) => ChangeRelationKeeps(k, r, to);
    case RelationSuperseded(r, _) => ChangeRelationKeeps(k, r, Replaced);
    case OtherKind(_) => ExtendsOrder(k, k, k);
  }

  lemma {:induction false} ProposeKeeps(k: Knowledge, r: string, relation: Relation)
    requires Consistent(k) && ProposeRelation(k, r, relation).Ok?
    ensures Consistent(ProposeRelation(k, r, relation).state) && Extends(k, ProposeRelation(k, r, relation).state)
  {
    hide ClaimsConsistent, NoDuplicates, Elements, Prefixes;
    AppendElement(k.order, r);
    HistoryGrows(k.relationHistory, r, [relation.state]);
    ExtendsOrder(k, k, k);
  }

  lemma {:induction false} ChangeRelationKeeps(k: Knowledge, r: string, target: RelationState)
    requires Consistent(k) && r in k.relations && !target.UnknownRelationState?
    ensures var k' := ChangeRelation(k, r, target, None).state; Consistent(k') && Extends(k, k')
  {
    hide ClaimsConsistent, NoDuplicates, Elements, Prefixes;
    HistoryGrows(k.relationHistory, r, k.relationHistory[r] + [target]);
    ExtendsOrder(k, k, k);
  }

  /** In every replay that succeeds, each current state is the last entry of its history. */
  lemma {:induction false} ReplayConsistent(events: seq<Event>)
    requires Replay(events).Ok?
    ensures Consistent(Replay(events).state)
  {
    hide Apply, Consistent;
    if events == [] {
      assert Consistent(EMPTY) by { EmptyConsistent(); }
    } else {
      ReplayConsistent(events[..|events| - 1]);
      ApplyKeeps(Replay(events[..|events| - 1]).state, events[|events| - 1]);
    }
  }

  lemma {:induction false} EmptyConsistent()
    ensures Consistent(EMPTY)
  {
  }

  /** If a replay succeeds, so does every prefix of it, and histories at the prefix are prefixes of the later ones. */
  lemma {:induction false} PrefixReplays(events: seq<Event>, n: nat)
    requires n <= |events| && Replay(events).Ok?
    ensures Replay(events[..n]).Ok? && Extends(Replay(events[..n]).state, Replay(events).state)
  {
    hide Apply, Extends;
    if n == |events| {
      assert events[..n] == events;
      ExtendsOrder(Replay(events).state, Replay(events).state, Replay(events).state);
    } else {
      var front := events[..|events| - 1];
      PrefixReplays(front, n);
      assert front[..n] == events[..n];
      ReplayConsistent(front);
      ApplyKeeps(Replay(front).state, events[|events| - 1]);
      ExtendsOrder(Replay(events[..n]).state, Replay(front).state, Replay(events).state);
    }
  }

  // ------------------------------------------------------------ what each kind of event does

  /** A proposed claim must be new; it starts as proposed, with that as its history. */
  lemma {:induction false} ClaimProposedEffect(k: Knowledge, e: Event)
    requires e.body == ClaimProposed
    ensures Apply(k, e).Ok? <==> e.subjects != [] && e.subjects[0] !in k.claims
    ensures Apply(k, e).Ok? ==>
              && Apply(k, e).state.claims == k.claims[e.subjects[0] := Proposed]
              && Apply(k, e).state.claimHistory == k.claimHistory[e.subjects[0] := [Proposed]]
              && SameRelations(k, Apply(k, e).state)
  {
  }

  ghost predicate SameRelations(k: Knowledge, k': Knowledge) {
    k'.relations == k.relations && k'.relationHistory == k.relationHistory && k'.order == k.order
  }

  ghost predicate SameClaims(k: Knowledge, k': Knowledge) {
    k'.claims == k.claims && k'.claimHistory == k.claimHistory
  }

  /** A state change needs a known claim, a known state and, if it expects one, the current state; it writes the state
      and appends it to the history. */
  lemma {:induction false} ClaimChangedEffect(k: Knowledge, e: Event)
    requires Consistent(k) && e.body.ClaimStateChanged?
    ensures Apply(k, e).Ok? <==>
              && e.subjects != [] && e.subjects[0] in k.claims && !e.body.to.UnknownState?
              && (e.body.claimFrom.None? || e.body.claimFrom.value == k.claims[e.subjects[0]])
    ensures Apply(k, e).Ok? ==>
              && Apply(k, e).state.claims == k.claims[e.subjects[0] := e.body.to]
              && Apply(k, e).state.claimHistory ==
                 k.claimHistory[e.subjects[0] := k.claimHistory[e.subjects[0]] + [e.body.to]]
              && SameRelations(k, Apply(k, e).state)
  {
    hide RelationsConsistent, NoDuplicates;
  }

  /** A supersession of a claim needs the same; it supersedes the claim and touches no relation. */
  lemma {:induction false} ClaimSupersededEffect(k: Knowledge, e: Event)
    requires Consistent(k) && e.body.ClaimSuperseded?
    ensures Apply(k, e).Ok? <==>
              && e.subjects != [] && e.subjects[0] in k.claims
              && (e.body.claimFrom.None? || e.body.claimFrom.value == k.claims[e.subjects[0]])
    ensures Apply(k, e).Ok? ==>
              && e.subjects[0] in Apply(k, e).state.claims
              && Apply(k, e).state.claims[e.subjects[0]] == Superseded
              && SameRelations(k, Apply(k, e).state)
  {
    hide Consistent, MarkStale;
    if e.subjects != [] && e.subjects[0] in k.claims {
      var c := e.subjects[0];
      assert c in k.claimHistory by { assert Consistent(k); KnownHistory(k, c); }
      var s := SetClaim(k, c, Superseded);
      SetClaimKeeps(k, c, Superseded);
      MarkStaleKeeps(s, c, k.order);
      MarkStaleSpares(s, c, k.order, c);
    }
  }

  lemma {:induction false} KnownHistory(k: Knowledge, c: string)
    requires Consistent(k)
    ensures c in k.claims <==> c in k.claimHistory
  {
  }

  /** A marking leaves a terminal claim as it is. */
  lemma {:induction false} MarkStaleSpares(k: Knowledge, premise: string, order: seq<string>, c: string)
    requires c in k.claims && Terminal(k.claims[c])
    ensures var m := MarkStale(k, premise, order); c in m.claims && m.claims[c] == k.claims[c]
  {
    hide Consistent;
    if order != [] { MarkStaleSpares(k, premise, order[..|order| - 1], c); }
  }

  /** Which claim states are terminal. */
  lemma {:induction false} TerminalIff(s: ClaimState)
    ensures Terminal(s) <==> s == Superseded || s == Retracted || s == Rejected
  {
  }

  /** A proposed relation must be new, of a registered type and in a known state; it is stored as given. */
  lemma {:induction false} RelationProposedEffect(k: Knowledge, e: Event)
    requires e.body.RelationProposed?
    ensures Apply(k, e).Ok? <==>
              && e.subjects != [] && e.body.relationId !in k.relations
              && !e.body.relation.kind.Unregistered? && !e.body.relation.state.UnknownRelationState?
    ensures Apply(k, e).Ok? ==>
              && Apply(k, e).state.relations == k.relations[e.body.relationId := e.body.relation]
              && Apply(k, e).state.relationHistory ==
                 k.relationHistory[e.body.relationId := [e.body.relation.state]]
              && Apply(k, e).state.order == k.order + [e.body.relationId]
              && SameClaims(k, Apply(k, e).state)
  {
  }

  /** The relation keeps its type and its ends and gets the state, also at the end of its history. */
  ghost predicate RelationSet(k: Knowledge, k': Knowledge, r: string, target: RelationState) {
    && r in k.relations && r in k.relationHistory
    && k'.relations ==
       k.relations[r := Relation(k.relations[r].kind, k.relations[r].source, k.relations[r].target, target)]
    && k'.relationHistory == k.relationHistory[r := k.relationHistory[r] + [target]]
    && k'.order == k.order && SameClaims(k, k')
  }

  ghost predicate ExpectationMet(k: Knowledge, r: string, from: Option<RelationState>) {
    r in k.relations && (from.None? || from.value == k.relations[r].state)
  }

  /** A relation change needs a known relation, a known state and, if it expects one, the current state. */
  lemma {:induction false} RelationChangedEffect(k: Knowledge, e: Event)
    requires Consistent(k) && e.body.RelationStateChanged?
    ensures Apply(k, e).Ok? <==>
              && e.subjects != [] && ExpectationMet(k, e.body.relationId, e.body.relationFrom)
              && !e.body.relationTo.UnknownRelationState?
    ensures Apply(k, e).Ok? ==> RelationSet(k, Apply(k, e).state, e.body.relationId, e.body.relationTo)
  {
    hide ClaimsConsistent, NoDuplicates;
  }

  /** A supersession of a relation needs the same and replaces it. */
  lemma {:induction false} RelationSupersededEffect(k: Knowledge, e: Event)
    requires Consistent(k) && e.body.RelationSuperseded?
    ensures Apply(k, e).Ok? <==> e.subjects != [] && ExpectationMet(k, e.body.relationId, e.body.relationFrom)
    ensures Apply(k, e).Ok? ==> RelationSet(k, Apply(k, e).state, e.body.relationId, Replaced)
  {
    hide ClaimsConsistent, NoDuplicates;
  }

  /** Any other kind of event changes nothing; only an event without a subject is refused. */
  lemma {:induction false} OtherKindEffect(k: Knowledge, e: Event)
    requires e.body.OtherKind?
    ensures Apply(k, e) == if e.subjects == [] then Err(MissingSubject) else Ok(k)
  {
  }

  // ------------------------------------------------------------ the last deciding event

  /** The state an event decides for a claim, if it does. */
  function DecidesClaim(e: Event, c: string): Option<ClaimState> {
    if e.subjects == [] || e.subjects[0] != c then None
    else match e.body
      case ClaimProposed => Some(Proposed)
      case ClaimStateChanged(to, _) => Some(to)
      case ClaimSuperseded(_) => Some(Superseded)
      case _ => None
  }

  /** Event `i` decides the claim's state and no later one does. */
  ghost predicate LastDeciding(events: seq<Event>, c: string, i: nat) {
    && i < |events| && DecidesClaim(events[i], c).Some?
    && forall j :: i < j < |events| ==> DecidesClaim(events[j], c).None?
  }

  /** After event `i` another claim was superseded, which may have made this one stale. */
  ghost predicate SupersededSince(events: seq<Event>, c: string, i: nat) {
    exists j :: i < j < |events| && SupersedesOther(events[j], c)
  }

  predicate SupersedesOther(e: Event, c: string) {
    e.body.ClaimSuperseded? && e.subjects != [] && e.subjects[0] != c
  }

  lemma {:induction false} StepDecides(k: Knowledge, e: Event, c: string)
    requires Consistent(k) && Apply(k, e).Ok?
    ensures var k' := Apply(k, e).state;
            if DecidesClaim(e, c).Some? then c in k'.claims && k'.claims[c] == DecidesClaim(e, c).value
            else
              && (c in k'.claims <==> c in k.claims)
              && (c in k.claims && c in k'.claims ==>
                    k'.claims[c] == k.claims[c] || (SupersedesOther(e, c) && k'.claims[c] == StalePendingReview))
  {
    hide Consistent, MarkStale, Terminal;
    if e.body.ClaimSuperseded? {
      ClaimSupersededEffect(k, e);
      var s := SetClaim(k, e.subjects[0], Superseded);
      SetClaimKeeps(k, e.subjects[0], Superseded);
      MarkStaleKeeps(s, e.subjects[0], k.order);
      if c in k.claims { MarkStaleOrNot(s, e.subjects[0], k.order, c); }
    }
  }

  /** A marking changes a claim's state only to stale. */
  lemma {:induction false} MarkStaleOrNot(k: Knowledge, premise: string, order: seq<string>, c: string)
    requires c in k.claims
    ensures var m := MarkStale(k, premise, order);
            c in m.claims && (m.claims[c] == k.claims[c] || m.claims[c] == StalePendingReview)
  {
    if order != [] { MarkStaleOrNot(k, premise, order[..|order| - 1], c); }
  }

  /** In every replay a claim is known exactly if some event decided it, and its state is that of the last deciding
      event, or stale if another claim was superseded since. */
  lemma {:induction false} LastDecides(events: seq<Event>, c: string)
    requires Replay(events).Ok?
    ensures c in Replay(events).state.claims <==> exists i: nat :: LastDeciding(events, c, i)
    ensures forall i: nat :: LastDeciding(events, c, i) && c in Replay(events).state.claims ==>
              var state := Replay(events).state.claims[c];
              state == DecidesClaim(events[i], c).value
              || (state == StalePendingReview && SupersededSince(events, c, i))
  {
    hide Apply, Consistent, DecidesClaim, SupersedesOther;
    if events != [] {
      var front, e := events[..|events| - 1], events[|events| - 1];
      LastDecides(front, c);
      ReplayConsistent(front);
      StepDecides(Replay(front).state, e, c);
      LastOfLonger(front, e, c);
      assert events == front + [e];
      assert DecidesClaim(e, c).Some? ==> LastDeciding(events, c, |front|);
    }
  }

  lemma {:induction false} LastOfLonger(front: seq<Event>, e: Event, c: string)
    ensures forall i: nat :: LastDeciding(front + [e], c, i) <==>
              if DecidesClaim(e, c).Some? then i == |front| else LastDeciding(front, c, i)
    ensures forall i: nat :: SupersededSince(front + [e], c, i) <==>
              SupersededSince(front, c, i) || (i < |front| && SupersedesOther(e, c))
  {
    hide DecidesClaim, SupersedesOther;
    var all := front + [e];
    assert all[|front|] == e && forall j :: 0 <= j < |front| ==> all[j] == front[j];
    forall i: nat
      ensures SupersededSince(all, c, i) <==> SupersededSince(front, c, i) || (i < |front| && SupersedesOther(e, c))
    {
      if SupersededSince(front, c, i) {
        var j :| i < j < |front| && SupersedesOther(front[j], c);
        assert SupersedesOther(all[j], c);
      }
      if SupersededSince(all, c, i) {
        var j :| i < j < |all| && SupersedesOther(all[j], c);
        assert j < |front| ==> SupersedesOther(front[j], c);
      }
      if i < |front| && SupersedesOther(e, c) { assert SupersedesOther(all[|front|], c); }
    }
  }

  /** The state an event decides for a relation, if it does. */
  function DecidesRelation(e: Event, r: string): Option<RelationState> {
    match e.body
    case RelationProposed(id, relation) => if id == r then Some(relation.state) else None
    case RelationStateChanged(id, to, _) => if id == r then Some(to) else None
    case RelationSuperseded(id, _) => if id == r then Some(Replaced) else None
    case _ => None
  }

  /** Some event proposed this relation, up to its state. */
  ghost predicate ProposedAs(events: seq<Event>, r: string, relation: Relation) {
    exists i :: 0 <= i < |events| && events[i].body.RelationProposed? && events[i].body.relationId == r
                && events[i].body.relation.(state := relation.state) == relation
  }

  ghost predicate LastDecidingRelation(events: seq<Event>, r: string, i: nat) {
    && i < |events| && DecidesRelation(events[i], r).Some?
    && forall j :: i < j < |events| ==> DecidesRelation(events[j], r).None?
  }

  lemma {:induction false} StepDecidesRelation(k: Knowledge, e: Event, r: string)
    requires Consistent(k) && Apply(k, e).Ok?
    ensures var k' := Apply(k, e).state;
            && (DecidesRelation(e, r).None? ==> (r in k'.relations <==> r in k.relations))
            && (DecidesRelation(e, r).None? && r in k.relations && r in k'.relations ==>
                  k'.relations[r] == k.relations[r])
            && (DecidesRelation(e, r).Some? ==>
                  r in k'.relations && k'.relations[r].state == DecidesRelation(e, r).value
                  && (if e.body.RelationProposed? then k'.relations[r] == e.body.relation
                      else r in k.relations && k'.relations[r].(state := k.relations[r].state) == k.relations[r]))
  {
    hide Consistent, MarkStale;
    if e.body.ClaimSuperseded? {
      ClaimSupersededEffect(k, e);
    }
  }

  /** In every replay a relation's state is that of the last event that decided it, and its type and ends are those it
      was proposed with. */
  lemma {:induction false} LastDecidesRelation(events: seq<Event>, r: string)
    requires Replay(events).Ok?
    ensures r in Replay(events).state.relations <==> exists i: nat :: LastDecidingRelation(events, r, i)
    ensures forall i: nat :: LastDecidingRelation(events, r, i) && r in Replay(events).state.relations ==>
              Replay(events).state.relations[r].state == DecidesRelation(events[i], r).value
    ensures r in Replay(events).state.relations ==> ProposedAs(events, r, Replay(events).state.relations[r])
  {
    hide Apply, Consistent, DecidesRelation;
    if events != [] {
      var front, e := events[..|events| - 1], events[|events| - 1];
      LastDecidesRelation(front, r);
      ReplayConsistent(front);
      StepDecidesRelation(Replay(front).state, e, r);
      LastRelationOfLonger(front, e, r);
      assert events == front + [e];
      assert DecidesRelation(e, r).Some? ==> LastDecidingRelation(events, r, |front|);
      var k, k' := Replay(front).state, Replay(events).state;
      if r in k'.relations {
        if r in k.relations && !(e.body.RelationProposed? && DecidesRelation(e, r).Some?) {
          ProposedStays(front, e, r, k.relations[r], k'.relations[r]);
        } else {
          ProposedLast(front, e, r);
        }
      }
    }
  }

  lemma {:induction false} ProposedStays(front: seq<Event>, e: Event, r: string, was: Relation, now: Relation)
    requires ProposedAs(front, r, was) && now.(state := was.state) == was
    ensures ProposedAs(front + [e], r, now)
  {
    var i :| 0 <= i < |front| && front[i].body.RelationProposed? && front[i].body.relationId == r
             && front[i].body.relation.(state := was.state) == was;
    assert (front + [e])[i] == front[i];
  }

  lemma {:induction false} ProposedLast(front: seq<Event>, e: Event, r: string)
    ensures e.body.RelationProposed? && DecidesRelation(e, r).Some? ==> ProposedAs(front + [e], r, e.body.relation)
  {
    assert (front + [e])[|front|] == e;
  }

  lemma {:induction false} LastRelationOfLonger(front: seq<Event>, e: Event, r: string)
    ensures forall i: nat :: LastDecidingRelation(front + [e], r, i) <==>
              if DecidesRelation(e, r).Some? then i == |front| else LastDecidingRelation(front, r, i)
  {
    hide DecidesRelation;
    var all := front + [e];
    assert all[|front|] == e && forall j :: 0 <= j < |front| ==> all[j] == front[j];
  }

  // ------------------------------------------------------------ as-of cutoffs

  /** The key `(recorded_at, event_id)`. */
  predicate EventLe(a: Event, b: Event) {
    if a.recordedAt != b.recordedAt then StringLe(a.recordedAt, b.recordedAt) else StringLe(a.eventId, b.eventId)
  }

  lemma {:induction false} EventOrder()
    ensures Preorder(EventLe)
  {
    hide StringLe;
    StringOrder();
  }

  function AsOf(events: seq<Event>, cutoff: string): seq<Event> {
    if events == [] then []
    else if StringLe(events[0].recordedAt, cutoff) then [events[0]] + AsOf(events[1..], cutoff)
    else AsOf(events[1..], cutoff)
  }

  lemma {:induction false} InsertAsOf(e: Event, s: seq<Event>, cutoff: string)
    requires Sorted(EventLe, s)
    ensures AsOf(Insert(EventLe, e, s), cutoff) ==
            if StringLe(e.recordedAt, cutoff) then Insert(EventLe, e, AsOf(s, cutoff)) else AsOf(s, cutoff)
  {
    if s != [] {
      if EventLe(e, s[0]) {
        assert ([e] + s)[1..] == s;
        if StringLe(e.recordedAt, cutoff) { InsertInFront(e, s, cutoff); }
      } else {
        InsertAsOf(e, s[1..], cutoff);
        var r := Insert(EventLe, e, s[1..]);
        assert ([s[0]] + r)[1..] == r;
        if StringLe(s[0].recordedAt, cutoff) {
          assert ([s[0]] + AsOf(s[1..], cutoff))[1..] == AsOf(s[1..], cutoff);
        }
      }
    } else {
      assert [e][1..] == [];
    }
  }

  /** What the cutoff keeps of a list that `e` belongs in front of, `e` still belongs in front of. */
  lemma {:induction false} InsertInFront(e: Event, s: seq<Event>, cutoff: string)
    requires Sorted(EventLe, s) && s != [] && EventLe(e, s[0])
    ensures Insert(EventLe, e, AsOf(s, cutoff)) == [e] + AsOf(s, cutoff)
  {
    hide StringLe;
    EventOrder();
    AsOfMembers(s, cutoff);
    var kept := AsOf(s, cutoff);
    if kept != [] {
      assert kept[0] in s;
      var i :| 0 <= i < |s| && s[i] == kept[0];
      assert EventLe(e, kept[0]);
    }
  }

  lemma {:induction false} AsOfMembers(s: seq<Event>, cutoff: string)
    ensures forall x :: x in AsOf(s, cutoff) <==> x in s && StringLe(x.recordedAt, cutoff)
  {
    if s != [] {
      AsOfMembers(s[1..], cutoff);
      assert s == [s[0]] + s[1..];
    }
  }

  lemma {:induction false} NothingKept(s: seq<Event>, cutoff: string)
    requires forall x :: x in s ==> !StringLe(x.recordedAt, cutoff)
    ensures AsOf(s, cutoff) == []
  {
    hide StringLe;
    if s != [] {
      assert s[0] in s;
      NothingKept(s[1..], cutoff);
    }
  }

  /** Filtering before the stable sort, as the loader does, is the same as filtering after it. */
  lemma {:induction false} SortAsOf(events: seq<Event>, cutoff: string)
    ensures Sort(EventLe, AsOf(events, cutoff)) == AsOf(Sort(EventLe, events), cutoff)
  {
    if events != [] {
      var rest := events[1..];
      SortAsOf(rest, cutoff);
      EventOrder();
      SortSorts(EventLe, rest);
      InsertAsOf(events[0], Sort(EventLe, rest), cutoff);
      assert ([events[0]] + AsOf(rest, cutoff))[1..] == AsOf(rest, cutoff);
    }
  }

  /** A cutoff of a sorted list is one of its prefixes. */
  lemma {:induction false} AsOfIsPrefix(s: seq<Event>, cutoff: string) returns (n: nat)
    requires Sorted(EventLe, s)
    ensures n <= |s| && AsOf(s, cutoff) == s[..n]
  {
    n := 0;
    if s != [] {
      if StringLe(s[0].recordedAt, cutoff) {
        var m := AsOfIsPrefix(s[1..], cutoff);
        n := m + 1;
        assert s[..n] == [s[0]] + s[1..][..m];
      } else {
        AllCut(s, cutoff);
      }
    }
  }

  lemma {:induction false} AllCut(s: seq<Event>, cutoff: string)
    requires Sorted(EventLe, s) && s != [] && !StringLe(s[0].recordedAt, cutoff)
    ensures AsOf(s, cutoff) == []
  {
    hide StringLe;
    StringOrder();
    AsOfMembers(s, cutoff);
    forall x | x in s ensures !StringLe(x.recordedAt, cutoff) {
      var i :| 0 <= i < |s| && s[i] == x;
      assert i > 0 ==> EventLe(s[0], s[i]);
    }
    NothingKept(s, cutoff);
  }

  /** An earlier cutoff of a later cutoff is the earlier cutoff. */
  lemma {:induction false} AsOfTwice(s: seq<Event>, early: string, late: string)
    requires StringLe(early, late)
    ensures AsOf(AsOf(s, late), early) == AsOf(s, early)
  {
    if s != [] {
      AsOfTwice(s[1..], early, late);
      if StringLe(s[0].recordedAt, late) {
        assert ([s[0]] + AsOf(s[1..], late))[1..] == AsOf(s[1..], late);
      } else if StringLe(s[0].recordedAt, early) {
        StringLeTransitive(s[0].recordedAt, early, late);
      }
    }
  }

  /** If the whole pack replays, it replays at every cutoff, and histories at an earlier cutoff are prefixes of those
      at a later one. */
  lemma {:induction false} CutoffsReplay(events: seq<Event>, early: string, late: string)
    requires Replay(Sort(EventLe, events)).Ok? && StringLe(early, late)
    ensures var a, b := Replay(Sort(EventLe, AsOf(events, early))), Replay(Sort(EventLe, AsOf(events, late)));
            a.Ok? && b.Ok? && Extends(a.state, b.state) && Extends(b.state, Replay(Sort(EventLe, events)).state)
            && Consistent(a.state)
  {
    hide Replay, Extends, StringLe, Consistent;
    var s := Sort(EventLe, events);
    EventOrder();
    SortSorts(EventLe, events);
    SortAsOf(events, early);
    SortAsOf(events, late);
    var m := AsOfIsPrefix(s, late);
    PrefixReplays(s, m);
    AsOfTwice(s, early, late);
    var n := AsOfIsPrefix(s[..m], early);
    PrefixReplays(s[..m], n);
    ReplayConsistent(s[..m][..n]);
  }

  /** What the cutoff lets through; without one, everything. */
  function Kept(events: seq<Event>, cutoff: Option<string>): seq<Event> {
    if cutoff.None? then events else AsOf(events, cutoff.value)
  }

  lemma {:induction false} KeptAppend(s: seq<Event>, e: Event, cutoff: Option<string>)
    ensures Kept(s + [e], cutoff) ==
            if cutoff.None? || StringLe(e.recordedAt, cutoff.value) then Kept(s, cutoff) + [e] else Kept(s, cutoff)
  {
    hide StringLe;
    if cutoff.Some? { AsOfAppend(s, e, cutoff.value); }
  }

  method LoadRoot(root: seq<Event>, cutoff: Option<string>, ghost before: seq<Event>, events0: seq<Event>)
    returns (events: seq<Event>)
    requires events0 == Kept(before, cutoff)
    ensures events == Kept(before + root, cutoff)
  {
    hide StringLe, Kept;
    events := events0;
    assert before + root[..0] == before;
    for j := 0 to |root|
      invariant events == Kept(before + root[..j], cutoff)
    {
      assert before + root[..j + 1] == before + root[..j] + [root[j]];
      KeptAppend(before + root[..j], root[j], cutoff);
      if cutoff.None? || StringLe(root[j].recordedAt, cutoff.value) {
        events := events + [root[j]];
      }
    }
    assert root[..|root|] == root;
  }

  /** `_events_for_pack`: filter each root's events as they load, then sort. */
  method EventsForPack(roots: seq<seq<Event>>, cutoff: Option<string>) returns (events: seq<Event>)
    ensures events == Sort(EventLe, Kept(Flatten(roots), cutoff))
  {
    hide StringLe, Sort, EventLe;
    events := [];
    for i := 0 to |roots|
      invariant events == Kept(Flatten(roots[..i]), cutoff)
    {
      assert roots[..i + 1][..i] == roots[..i];
      events := LoadRoot(roots[i], cutoff, Flatten(roots[..i]), events);
    }
    assert roots[..|roots|] == roots;
    events := Sort(EventLe, events);
  }

  function Flatten(roots: seq<seq<Event>>): seq<Event> {
    if roots == [] then [] else Flatten(roots[..|roots| - 1]) + roots[|roots| - 1]
  }

  lemma {:induction false} AsOfAppend(s: seq<Event>, e: Event, cutoff: string)
    ensures AsOf(s + [e], cutoff) == if StringLe(e.recordedAt, cutoff) then AsOf(s, cutoff) + [e] else AsOf(s, cutoff)
  {
    hide StringLe;
    if s == [] {
      assert [e][1..] == [] && s + [e] == [e];
    } else {
      AsOfAppend(s[1..], e, cutoff);
      assert (s + [e])[1..] == s[1..] + [e];
    }
  }

  /** The order in which events are replayed: by timestamp, and by identity among equal timestamps. */
  lemma {:induction false} ReplayOrder(events: seq<Event>, i: nat, j: nat)
    requires i < j < |events|
    ensures var s := Sort(EventLe, events);
            && multiset(s) == multiset(events) && |s| == |events|
            && StringLe(s[i].recordedAt, s[j].recordedAt)
            && (s[i].recordedAt == s[j].recordedAt ==> StringLe(s[i].eventId, s[j].eventId))
  {
    hide StringLe, Sort;
    EventOrder();
    SortSorts(EventLe, events);
    SortPermutes(EventLe, events);
    assert EventLe(Sort(EventLe, events)[i], Sort(EventLe, events)[j]);
    StringOrder();
  }

  lemma {:induction false} FlattenConcat(a: seq<seq<Event>>, b: seq<seq<Event>>, root: seq<Event>)
    ensures Flatten(a + b) == Flatten(a) + Flatten(b) && Flatten([root]) == root
  {
    assert [root][..0] == [];
    if b == [] {
      assert a + b == a;
    } else {
      var n := |b| - 1;
      FlattenConcat(a, b[..n], root);
      assert (a + b)[..|a + b| - 1] == a + b[..n] && (a + b)[|a + b| - 1] == b[n];
    }
  }

  lemma {:induction false} FlattenIff(roots: seq<seq<Event>>, e: Event)
    ensures e in Flatten(roots) <==> exists i :: 0 <= i < |roots| && e in roots[i]
  {
    if roots != [] {
      var n := |roots| - 1;
      FlattenIff(roots[..n], e);
      assert forall i :: 0 <= i < n ==> roots[..n][i] == roots[i];
    }
  }

  /** The loader returns exactly the events of some root that were recorded at or before the cutoff, if there is one. */
  lemma {:induction false} LoadedIff(roots: seq<seq<Event>>, cutoff: Option<string>, e: Event)
    ensures e in Sort(EventLe, Kept(Flatten(roots), cutoff)) <==>
              && (exists i :: 0 <= i < |roots| && e in roots[i])
              && (cutoff.None? || StringLe(e.recordedAt, cutoff.value))
  {
    hide Flatten, StringLe, Sort, EventLe;
    FlattenIff(roots, e);
    SortMembers(EventLe, Kept(Flatten(roots), cutoff));
    if cutoff.Some? { AsOfMembers(Flatten(roots), cutoff.value); }
  }

  // ------------------------------------------------------------ supersession

  /** How many of the listed relations make `c` depend on the premise. */
  function Weight(k: Knowledge, premise: string, order: seq<string>, c: string): nat {
    if order == [] then 0
    else
      Weight(k, premise, order[..|order| - 1], c)
      + if Dependent(k, premise, order[|order| - 1]) && k.relations[order[|order| - 1]].source == c then 1 else 0
  }

  function Repeat(n: nat): seq<ClaimState> {
    if n == 0 then [] else Repeat(n - 1) + [StalePendingReview]
  }

  /** The effect of the marking on one claim: stale once it has a dependence, one history entry per relation, unless
      terminal. */
  ghost predicate Marked(k: Knowledge, m: Knowledge, c: string, weight: nat) {
    && c in k.claims && c in k.claimHistory && c in m.claims && c in m.claimHistory
    && if weight == 0 || Terminal(k.claims[c]) then m.claims[c] == k.claims[c] && m.claimHistory[c] == k.claimHistory[c]
       else m.claims[c] == StalePendingReview && m.claimHistory[c] == k.claimHistory[c] + Repeat(weight)
  }

  lemma {:induction false} MarkOneEffect(k: Knowledge, m: Knowledge, premise: string, r: string, c: string, w: nat)
    requires c in k.claims && Marked(k, m, c, w)
    requires m.relations == k.relations && m.claims.Keys == k.claims.Keys == m.claimHistory.Keys
    ensures Marked(k, MarkOne(m, premise, r), c,
                   w + if Dependent(k, premise, r) && k.relations[r].source == c then 1 else 0)
  {
    assert k.claimHistory[c] + Repeat(w + 1) == (k.claimHistory[c] + Repeat(w)) + [StalePendingReview];
  }

  lemma {:induction false} MarkStaleEffect(k: Knowledge, premise: string, order: seq<string>, c: string)
    requires Consistent(k) && c in k.claims
    ensures Marked(k, MarkStale(k, premise, order), c, Weight(k, premise, order, c))
  {
    hide Extends, MarkOne, NoDuplicates, Elements, RelationsConsistent;
    if order != [] {
      var front, r := order[..|order| - 1], order[|order| - 1];
      MarkStaleEffect(k, premise, front, c);
      MarkStaleKeeps(k, premise, front);
      MarkOneEffect(k, MarkStale(k, premise, front), premise, r, c, Weight(k, premise, front, c));
    } else {
      assert k.claimHistory[c] + Repeat(0) == k.claimHistory[c];
    }
  }

  lemma {:induction false} WeightConcat(k: Knowledge, premise: string, a: seq<string>, b: seq<string>, c: string)
    ensures Weight(k, premise, a + b, c) == Weight(k, premise, a, c) + Weight(k, premise, b, c)
  {
    hide Dependent;
    if b == [] {
      assert a + b == a;
    } else {
      WeightConcat(k, premise, a, b[..|b| - 1], c);
      assert (a + b)[..|a + b| - 1] == a + b[..|b| - 1];
    }
  }

  lemma {:induction false} WeightRemove(k: Knowledge, premise: string, s: seq<string>, p: nat, c: string)
    requires p < |s|
    ensures Weight(k, premise, s, c) == Weight(k, premise, s[..p] + s[p + 1..], c) + Weight(k, premise, [s[p]], c)
  {
    hide Weight;
    RemoveAt(s, p);
    WeightConcat(k, premise, s[..p] + [s[p]], s[p + 1..], c);
    WeightConcat(k, premise, s[..p], [s[p]], c);
    WeightConcat(k, premise, s[..p], s[p + 1..], c);
  }

  /** The head of `a` stands somewhere in `b`; without it both still hold the same elements. */
  lemma {:induction false} HeadElsewhere(a: seq<string>, b: seq<string>) returns (p: nat)
    requires |a| > 0 && multiset(a) == multiset(b)
    ensures p < |b| && b[p] == a[0] && a[..0] + a[1..] == a[1..]
    ensures multiset(a[1..]) == multiset(b[..p] + b[p + 1..])
  {
    assert a[0] in multiset(b);
    p :| 0 <= p < |b| && b[p] == a[0];
    RemoveAt(a, 0);
    RemoveAt(b, p);
    assert a[..0] + a[1..] == a[1..];
  }

  lemma {:induction false} WeightPermutes(k: Knowledge, premise: string, a: seq<string>, b: seq<string>, c: string)
    requires multiset(a) == multiset(b)
    ensures Weight(k, premise, a, c) == Weight(k, premise, b, c)
    decreases |a|
  {
    hide Weight;
    if |a| == 0 {
      assert |multiset(b)| == 0;
      assert a == b;
    } else {
      var p := HeadElsewhere(a, b);
      WeightRemove(k, premise, a, 0, c);
      WeightRemove(k, premise, b, p, c);
      WeightPermutes(k, premise, a[1..], b[..p] + b[p + 1..], c);
    }
  }

  /** The order in which the dictionary yields relations does not matter, several relations from one claim included. */
  lemma {:induction false} MarkStaleOrderFree(k: Knowledge, premise: string, a: seq<string>, b: seq<string>)
    requires Consistent(k) && multiset(a) == multiset(b)
    ensures MarkStale(k, premise, a) == MarkStale(k, premise, b)
  {
    hide MarkStale, Extends, Weight, NoDuplicates, Elements;
    var m, n := MarkStale(k, premise, a), MarkStale(k, premise, b);
    MarkStaleKeeps(k, premise, a);
    MarkStaleKeeps(k, premise, b);
    forall c | c in k.claims ensures m.claims[c] == n.claims[c] && m.claimHistory[c] == n.claimHistory[c] {
      MarkStaleEffect(k, premise, a, c);
      MarkStaleEffect(k, premise, b, c);
      WeightPermutes(k, premise, a, b, c);
    }
    assert m.claims == n.claims && m.claimHistory == n.claimHistory;
  }

  /** Some relation of the dictionary is an active DEPENDS_ON from `c` to the premise. */
  ghost predicate DependsOnPremise(k: Knowledge, premise: string, c: string) {
    exists r :: r in k.relations && k.relations[r] == Relation(DependsOn, c, premise, Active)
  }

  lemma {:induction false} WeightIff(k: Knowledge, premise: string, order: seq<string>, c: string)
    requires c in k.claims
    ensures Weight(k, premise, order, c) > 0 <==>
              exists r :: r in order && Dependent(k, premise, r) && k.relations[r].source == c
  {
    if order != [] {
      WeightIff(k, premise, order[..|order| - 1], c);
      assert order == order[..|order| - 1] + [order[|order| - 1]];
    }
  }

  /** `claim.superseded`: the subject is superseded, its dependents go stale unless terminal, and nothing else
      changes. */
  lemma {:induction false} SupersededStep(k: Knowledge, e: Event, c: string)
    requires Consistent(k) && e.body.ClaimSuperseded? && Apply(k, e).Ok? && c in k.claims
    ensures var k' := Apply(k, e).state; var premise := e.subjects[0];
            && k'.relations == k.relations && k'.relationHistory == k.relationHistory && k'.claims.Keys == k.claims.Keys
            && c in k'.claims && c in k'.claimHistory && c in k.claimHistory
            && (c == premise ==> k'.claims[c] == Superseded && k'.claimHistory[c] == k.claimHistory[c] + [Superseded])
            && (c != premise && DependsOnPremise(k, premise, c) ==>
                k'.claims[c] == StalePendingReview || (Terminal(k.claims[c]) && k'.claims[c] == k.claims[c]))
            && (c != premise && !DependsOnPremise(k, premise, c) ==>
                k'.claims[c] == k.claims[c] && k'.claimHistory[c] == k.claimHistory[c])
  {
    hide MarkStale, Extends, NoDuplicates;
    var premise := e.subjects[0];
    var s := SetClaim(k, premise, Superseded);
    SetClaimKeeps(k, premise, Superseded);
    MarkStaleKeeps(s, premise, k.order);
    MarkStaleEffect(s, premise, k.order, c);
    WeightIff(s, premise, k.order, c);
  }

  // ------------------------------------------------------------ the class

  class KnowledgeState {
    var claims: map<string, ClaimState>
    var claimHistory: map<string, seq<ClaimState>>
    var relations: map<string, Relation>
    var relationHistory: map<string, seq<RelationState>>
    var order: seq<string>

    ghost function Value(): Knowledge
      reads this
    {
      Knowledge(claims, claimHistory, relations, relationHistory, order)
    }

    constructor ()
      ensures Value() == EMPTY
    {
      claims, claimHistory, relations, relationHistory, order := map[], map[], map[], map[], [];
    }

    method ChangeClaimInPlace(c: string, target: ClaimState, expected: Option<ClaimState>) returns (ok: bool)
      requires Consistent(Value())
      modifies this
      ensures ok <==> ChangeClaim(old(Value()), c, target, expected).Ok?
      ensures Value() == if ok then ChangeClaim(old(Value()), c, target, expected).state else old(Value())
    {
      hide Elements, NoDuplicates;
      if c !in claims || target.UnknownState? || (expected.Some? && claims[c] != expected.value) {
        return false;
      }
      claims := claims[c := target];
      claimHistory := claimHistory[c := claimHistory[c] + [target]];
      ok := true;
    }

    /** The loop over `self.relations.values()`. */
    method MarkDependentsStale(premise: string)
      requires Consistent(Value())
      modifies this
      ensures Value() == MarkStale(old(Value()), premise, old(order))
    {
      hide Elements, NoDuplicates, Extends;
      ghost var k := Value();
      var ids := order;
      for i := 0 to |ids|
        invariant Value() == MarkStale(k, premise, ids[..i])
      {
        assert ids[..i + 1][..i] == ids[..i];
        MarkStaleKeeps(k, premise, ids[..i]);
        assert ids[i] in relations by { OrderedIsKnown(k, ids, i); }
        var relation := relations[ids[i]];
        if relation.kind.DependsOn? && relation.state.Active? && relation.target == premise
           && relation.source in claims {
          if !Terminal(claims[relation.source]) {
            var changed := ChangeClaimInPlace(relation.source, StalePendingReview, None);
          }
        }
      }
      assert ids[..|ids|] == ids;
    }

    /** `apply`; `false` stands for a raised error, which leaves the state alone. */
    method ApplyEvent(e: Event) returns (ok: bool)
      requires Consistent(Value())
      modifies this
      ensures ok <==> Apply(old(Value()), e).Ok?
      ensures Value() == if ok then Apply(old(Value()), e).state else old(Value())
      ensures Consistent(Value())
    {
      hide Elements, NoDuplicates, MarkStale, Extends, RelationsConsistent;
      ghost var k := Value();
      if e.subjects == [] {
        return false;
      }
      var subject := e.subjects[0];
      ok := true;
      match e.body {
        case ClaimProposed =>
          if subject in claims {
            return false;
          }
          claims := claims[subject := Proposed];
          claimHistory := claimHistory[subject := [Proposed]];
        case ClaimStateChanged(to, from) =>
          ok := ChangeClaimInPlace(subject, to, from);
        case ClaimSuperseded(from) =>
          ok := ChangeClaimInPlace(subject, Superseded, from);
          if ok {
            SetClaimKeeps(k, subject, Superseded);
            MarkDependentsStale(subject);
          }
        case RelationProposed(r, relation) =>
          if r in relations || relation.kind.Unregistered? || relation.state.UnknownRelationState? {
            return false;
          }
          relations := relations[r := relation];
          relationHistory := relationHistory[r := [relation.state]];
          order := order + [r];
        case RelationStateChanged(r, to, from) =>
          ok := ChangeRelationInPlace(r, to, from);
        case RelationSuperseded(r, from) =>
          ok := ChangeRelationInPlace(r, Replaced, from);
        case OtherKind(_) =>
      }
      if ok { ApplyKeeps(k, e); }
    }

    method ChangeRelationInPlace(r: string, target: RelationState, expected: Option<RelationState>) returns (ok: bool)
      requires Consistent(Value())
      modifies this
      ensures ok <==> ChangeRelation(old(Value()), r, target, expected).Ok?
      ensures Value() == if ok then ChangeRelation(old(Value()), r, target, expected).state else old(Value())
    {
      hide Elements, NoDuplicates;
      if r !in relations || (expected.Some? && relations[r].state != expected.value) || target.UnknownRelationState? {
        return false;
      }
      relations := relations[r := relations[r].(state := target)];
      relationHistory := relationHistory[r := relationHistory[r] + [target]];
      ok := true;
    }
  }

  lemma {:induction false} OrderedIsKnown(k: Knowledge, ids: seq<string>, i: nat)
    requires Consistent(k) && ids == k.order && i < |ids|
    ensures ids[i] in k.relations
  {
    assert ids[i] in Elements(ids);
  }

  /** `KnowledgeState.replay`. */
  method ReplayEvents(events: seq<Event>) returns (ok: bool, state: KnowledgeState)
    ensures ok <==> Replay(events).Ok?
    ensures ok ==> state.Value() == Replay(events).state && Consistent(state.Value())
    ensures fresh(state)
  {
    hide Apply, Consistent;
    state := new KnowledgeState();
    EmptyConsistent();
    for i := 0 to |events|
      invariant Replay(events[..i]).Ok? && state.Value() == Replay(events[..i]).state && Consistent(state.Value())
      invariant fresh(state)
    {
      assert events[..i + 1][..i] == events[..i];
      ok := state.ApplyEvent(events[i]);
      if !ok {
        FailureStays(events, i + 1);
        return;
      }
    }
    assert events[..|events|] == events;
    ok := true;
  }

  lemma {:induction false} FailureStays(events: seq<Event>, n: nat)
    requires n <= |events| && Replay(events[..n]).Err?
    ensures Replay(events).Err?
  {
    hide Apply;
    if n < |events| {
      assert events[..|events| - 1][..n] == events[..n];
      FailureStays(events[..|events| - 1], n);
    } else {
      assert events[..n] == events;
    }
  }
}
