/** The lifecycle reranker: query intent, score and order, over exact reals. */
module Reranker {
  import opened Basics
  import opened Ordering
  import opened Results

  datatype Intent = Current | Historical | Mixed | Neutral

  /** A retrieved document: its rank if the retriever gave one, its lifecycle state and its terms. */
  datatype Candidate = Candidate(id: string, rank: Option<int>, state: Option<string>, terms: set<string>)

  datatype Reranked = Reranked(candidate: Candidate, baseRank: int, adjustment: real, overlap: real, bonus: real,
                               score: real)

  const CURRENT_CUES := {"current", "currently", "latest", "now", "present", "today"}
  const HISTORICAL_CUES := {"before", "earlier", "former", "historical", "history", "old", "past", "previous",
                            "rejected", "stale", "superseded"}
  const CURRENT_STATES := {"supported", "open", "active"}
  const HISTORICAL_STATES := {"superseded", "rejected", "retracted", "invalidated"}
  const STALE_STATES := {"stale_pending_review", "disputed"}

  function IntentForQuery(query: set<string>): Intent {
    var current, historical := query * CURRENT_CUES != {}, query * HISTORICAL_CUES != {};
    if current && historical then Mixed
    else if current then Current
    else if historical then Historical
    else Neutral
  }

  predicate IsCurrent(c: Candidate) {
    c.state.Some? && c.state.value in CURRENT_STATES
  }

  predicate IsPast(c: Candidate) {
    c.state.Some? && c.state.value in HISTORICAL_STATES + STALE_STATES
  }

  function LifecycleAdjustment(intent: Intent, c: Candidate): real {
    match intent
    case Current => if IsCurrent(c) then 1.25 else if IsPast(c) then -1.0 else 0.0
    case Historical => if IsPast(c) then 1.0 else 0.0
    case Mixed => if IsCurrent(c) || IsPast(c) then 0.45 else 0.0
    case Neutral => 0.0
  }

  function LexicalOverlap(query: set<string>, c: Candidate): real {
    if query == {} then 0.0 else |query * c.terms| as real / |query| as real
  }

  function BaseScore(rank: int): real {
    1.0 / (if rank >= 1 then rank else 1) as real
  }

  /** The record for the candidate in position `i` of the list, counted from 0. */
  function Record(query: set<string>, weight: real, c: Candidate, i: nat): Reranked {
    var rank := if c.rank.Some? then c.rank.value else i + 1;
    var adjustment, overlap := LifecycleAdjustment(IntentForQuery(query), c), LexicalOverlap(query, c);
    Reranked(c, rank, adjustment, overlap, weight * overlap, BaseScore(rank) + adjustment + weight * overlap)
  }

  /** The key `(-score, id)`. */
  predicate Precedes(a: Reranked, b: Reranked) {
    if a.score != b.score then a.score > b.score else StringLe(a.candidate.id, b.candidate.id)
  }

  function Records(query: set<string>, weight: real, candidates: seq<Candidate>, n: nat): (r: seq<Reranked>)
    requires n <= |candidates|
    ensures |r| == n && forall i :: 0 <= i < n ==> r[i] == Record(query, weight, candidates[i], i)
  {
    if n == 0 then []
    else Records(query, weight, candidates, n - 1) + [Record(query, weight, candidates[n - 1], n - 1)]
  }

  /** All candidates in their new order, before the limit cuts. */
  function Ordered(query: set<string>, weight: real, candidates: seq<Candidate>): seq<Reranked> {
    Sort(Precedes, Records(query, weight, candidates, |candidates|))
  }

  method Rerank(query: set<string>, weight: real, candidates: seq<Candidate>, limit: int)
    returns (r: Result<seq<Reranked>>)
    ensures r.Ok? <==> weight >= 0.0 && limit >= 1
    ensures r.Ok? ==> r.value <= Ordered(query, weight, candidates)
    ensures r.Ok? ==> |r.value| == if limit < |candidates| then limit else |candidates|
  {
    hide IntentForQuery, LexicalOverlap, Precedes, Sort;
    if weight < 0.0 { return Err("lexical weight must be non-negative"); }
    if limit < 1 { return Err("limit must be positive"); }
    var intent := IntentForQuery(query);
    var scored: seq<Reranked> := [];
    var i := 0;
    while i < |candidates|
      invariant i <= |candidates| && scored == Records(query, weight, candidates, i)
    {
      var c := candidates[i];
      var rank := if c.rank.Some? then c.rank.value else i + 1;
      var base := BaseScore(rank);
      var adjustment := LifecycleAdjustment(intent, c);
      var overlap := LexicalOverlap(query, c);
      var bonus := weight * overlap;
      var record := Reranked(c, rank, adjustment, overlap, bonus, base + adjustment + bonus);
      assert record == Record(query, weight, c, i);
      scored := scored + [record];
      i := i + 1;
    }
    SortPermutes(Precedes, scored);
    scored := Sort(Precedes, scored);
    r := Ok(if limit < |scored| then scored[..limit] else scored);
  }

  // ------------------------------------------------------------ the tables

  /** The intent by the cue words of the query. */
  lemma {:induction false} IntentIff(query: set<string>)
    ensures var now := query * {"current", "currently", "latest", "now", "present", "today"} != {};
            var then_ := query * {"before", "earlier", "former", "historical", "history", "old", "past", "previous",
                                  "rejected", "stale", "superseded"} != {};
            && (IntentForQuery(query) == Current <==> now && !then_)
            && (IntentForQuery(query) == Historical <==> !now && then_)
            && (IntentForQuery(query) == Mixed <==> now && then_)
            && (IntentForQuery(query) == Neutral <==> !now && !then_)
  {
  }

  /** The adjustment by intent and lifecycle state. */
  lemma {:induction false} AdjustmentIs(intent: Intent, c: Candidate, state: string)
    requires c.state == Some(state)
    ensures var current, past := state in {"supported", "open", "active"},
                                 state in {"superseded", "rejected", "retracted", "invalidated",
                                           "stale_pending_review", "disputed"};
            && (current ==> !past && IsCurrent(c) && !IsPast(c)) && (past ==> IsPast(c) && !IsCurrent(c))
            && (!current && !past ==> !IsCurrent(c) && !IsPast(c) && LifecycleAdjustment(intent, c) == 0.0)
            && (current ==> LifecycleAdjustment(Current, c) == 1.25 && LifecycleAdjustment(Historical, c) == 0.0)
            && (past ==> LifecycleAdjustment(Current, c) == -1.0 && LifecycleAdjustment(Historical, c) == 1.0)
            && (current || past ==> LifecycleAdjustment(Mixed, c) == 0.45)
            && LifecycleAdjustment(Neutral, c) == 0.0
  {
  }

  /** A document without a state is never adjusted. */
  lemma {:induction false} StatelessIs(intent: Intent, c: Candidate)
    requires c.state.None?
    ensures LifecycleAdjustment(intent, c) == 0.0 && !IsCurrent(c) && !IsPast(c)
  {
  }

  /** The score: the reciprocal of the rank (the position where the retriever gave none, and 1 for ranks below 1), plus
      the adjustment for the query's intent, plus the weighted share of the query's terms that the document has. */
  lemma {:induction false} ScoreIs(query: set<string>, weight: real, c: Candidate, i: nat)
    ensures var r := Record(query, weight, c, i);
            && r.candidate == c
            && r.baseRank == (if c.rank.Some? then c.rank.value else i + 1)
            && r.adjustment == LifecycleAdjustment(IntentForQuery(query), c)
            && (query == {} ==> r.overlap == 0.0)
            && (query != {} ==> r.overlap * |query| as real == |query * c.terms| as real)
            && r.bonus == weight * r.overlap
            && (r.baseRank >= 1 ==> (r.score - r.adjustment - r.bonus) * r.baseRank as real == 1.0)
            && (r.baseRank < 1 ==> r.score - r.adjustment - r.bonus == 1.0)
  {
    hide IntentForQuery, LifecycleAdjustment, LexicalOverlap, BaseScore;
    var r := Record(query, weight, c, i);
    OverlapIs(query, c);
    BaseScoreIs(r.baseRank);
    assert r.score - r.adjustment - r.bonus == BaseScore(r.baseRank);
  }

  lemma {:induction false} OverlapIs(query: set<string>, c: Candidate)
    ensures query == {} ==> LexicalOverlap(query, c) == 0.0
    ensures query != {} ==> LexicalOverlap(query, c) * |query| as real == |query * c.terms| as real
  {
    if query != {} { Share(|query * c.terms| as real, |query| as real); }
  }

  lemma {:induction false} BaseScoreIs(rank: int)
    ensures rank >= 1 ==> BaseScore(rank) * rank as real == 1.0
    ensures rank < 1 ==> BaseScore(rank) == 1.0
  {
    if rank >= 1 { Reciprocal(rank as real); }
  }

  lemma {:induction false} Reciprocal(d: real)
    requires d > 0.0
    ensures 1.0 / d * d == 1.0
  {
  }

  lemma {:induction false} Share(n: real, d: real)
    requires d > 0.0
    ensures n / d * d == n
  {
  }

  /** The ranking is by score from the top, and by identity among equal scores. */
  lemma {:induction false} RankedByScore(query: set<string>, weight: real, candidates: seq<Candidate>, p: nat, q: nat)
    requires p < q < |Ordered(query, weight, candidates)|
    ensures var a, b := Ordered(query, weight, candidates)[p], Ordered(query, weight, candidates)[q];
            a.score >= b.score && (a.score == b.score ==> StringLe(a.candidate.id, b.candidate.id))
  {
    hide Record, Records, Ordered, StringLe;
    OrderedIs(query, weight, candidates);
    var s := Ordered(query, weight, candidates);
    assert Precedes(s[p], s[q]);
  }

  // ------------------------------------------------------------ the score bound

  lemma {:induction false} BaseRange(rank: int)
    ensures 0.0 < BaseScore(rank) <= 1.0
  {
    var d := (if rank >= 1 then rank else 1) as real;
    assert d >= 1.0;
    assert BaseScore(rank) * d == 1.0;
  }

  lemma {:induction false} OverlapRange(query: set<string>, c: Candidate)
    ensures 0.0 <= LexicalOverlap(query, c) <= 1.0
  {
    if query != {} {
      var n, d := |query * c.terms|, |query|;
      SubsetSize(query * c.terms, query);
      assert 0 <= n <= d && d >= 1;
    }
  }

  lemma {:induction false} BonusRange(weight: real, overlap: real)
    ensures weight >= 0.0 && 0.0 <= overlap <= 1.0 ==> 0.0 <= weight * overlap <= weight
  {
  }

  lemma {:induction false} StatesApart(c: Candidate)
    ensures !(IsCurrent(c) && IsPast(c))
  {
  }

  /** What one candidate scores under current intent. */
  lemma {:induction false} ScoreRange(query: set<string>, weight: real, c: Candidate, i: nat)
    requires IntentForQuery(query) == Current && weight >= 0.0
    ensures Record(query, weight, c, i).candidate == c
    ensures IsCurrent(c) ==> Record(query, weight, c, i).score > 1.25
    ensures IsPast(c) ==> Record(query, weight, c, i).score <= weight
  {
    hide IntentForQuery, LexicalOverlap, BaseScore, IsCurrent, IsPast;
    var r := Record(query, weight, c, i);
    StatesApart(c);
    BaseRange(r.baseRank);
    OverlapRange(query, c);
    BonusRange(weight, r.overlap);
  }

  /** Every current candidate outscores every past one, whatever their ranks, texts and positions. */
  ghost predicate Separates(weight: real) {
    forall query, a, i, b, j :: IntentForQuery(query) == Current && IsCurrent(a) && IsPast(b)
      ==> Record(query, weight, a, i).score > Record(query, weight, b, j).score
  }

  /** Under current intent the lifecycle separates the scores exactly for lexical weights up to 1.25. */
  lemma {:induction false} SeparatesIff(weight: real)
    requires weight >= 0.0
    ensures Separates(weight) <==> weight <= 1.25
  {
    if weight <= 1.25 {
      forall query, a, i, b, j | IntentForQuery(query) == Current && IsCurrent(a) && IsPast(b)
        ensures Record(query, weight, a, i).score > Record(query, weight, b, j).score
      {
        ScoreRange(query, weight, a, i);
        ScoreRange(query, weight, b, j);
      }
    } else {
      var query, a, b := Outscored(weight);
    }
  }

  /** Beyond 1.25 a superseded text match in front outscores a current document far down the list. */
  lemma {:induction false} Outscored(weight: real) returns (query: set<string>, a: Candidate, b: Candidate)
    requires weight > 1.25
    ensures IntentForQuery(query) == Current && IsCurrent(a) && IsPast(b)
    ensures Record(query, weight, a, 0).score <= Record(query, weight, b, 0).score
  {
    query := {"now"};
    var rank := FarRank(weight - 1.25);
    a := Candidate("a", Some(rank), Some("active"), {});
    b := Candidate("b", Some(1), Some("superseded"), {"now"});
    assert "now" in query * CURRENT_CUES;
    assert query * HISTORICAL_CUES == {};
    assert query * a.terms == {} && query * b.terms == query;
  }

  lemma {:induction false} FarRank(gap: real) returns (rank: int)
    requires gap > 0.0
    ensures rank >= 1 && BaseScore(rank) <= gap
  {
    rank := (1.0 / gap).Floor + 1;
    var d := rank as real;
    assert 1.0 / gap > 0.0;
    assert d >= 1.0 / gap;
    assert gap * (1.0 / gap) == 1.0;
    assert gap * d >= 1.0;
    assert BaseScore(rank) * d == 1.0;
  }

  // ------------------------------------------------------------ the order and the limit

  lemma {:induction false} PrecedesOrder()
    ensures Preorder(Precedes)
  {
    hide StringLe;
    StringOrder();
  }

  lemma {:induction false} OrderedIs(query: set<string>, weight: real, candidates: seq<Candidate>)
    ensures Sorted(Precedes, Ordered(query, weight, candidates))
    ensures multiset(Ordered(query, weight, candidates)) == multiset(Records(query, weight, candidates, |candidates|))
    ensures |Ordered(query, weight, candidates)| == |candidates|
  {
    hide Precedes, Preorder;
    PrecedesOrder();
    SortSorts(Precedes, Records(query, weight, candidates, |candidates|));
    SortPermutes(Precedes, Records(query, weight, candidates, |candidates|));
  }

  lemma {:induction false} FromCandidate(query: set<string>, weight: real, candidates: seq<Candidate>, p: nat)
    returns (i: nat)
    requires p < |Ordered(query, weight, candidates)|
    ensures i < |candidates| && Ordered(query, weight, candidates)[p] == Record(query, weight, candidates[i], i)
  {
    hide Precedes, Record, Sort, Sorted;
    OrderedIs(query, weight, candidates);
    var all := Records(query, weight, candidates, |candidates|);
    var x := Ordered(query, weight, candidates)[p];
    assert x in multiset(Ordered(query, weight, candidates));
    assert x in all;
    i :| 0 <= i < |all| && all[i] == x;
  }

  /** Under current intent no past document precedes a current one. */
  lemma {:induction false} CurrentFirst(query: set<string>, weight: real, candidates: seq<Candidate>, p: nat, q: nat)
    requires IntentForQuery(query) == Current && 0.0 <= weight <= 1.25
    requires var s := Ordered(query, weight, candidates);
             p < |s| && q < |s| && IsPast(s[p].candidate) && IsCurrent(s[q].candidate)
    ensures q < p
  {
    hide IsPast, IsCurrent, Record, Records, Ordered, BaseScore, Sort, IntentForQuery;
    var s := Ordered(query, weight, candidates);
    OrderedIs(query, weight, candidates);
    var i := FromCandidate(query, weight, candidates, p);
    var j := FromCandidate(query, weight, candidates, q);
    ScoreRange(query, weight, candidates[i], i);
    ScoreRange(query, weight, candidates[j], j);
    assert p < q ==> Precedes(s[p], s[q]);
    assert s[p].score < s[q].score;
  }

  /** If a past document survives the limit then every current one does, as often as it was found. */
  lemma {:induction false} NoneCutForPast(query: set<string>, weight: real, candidates: seq<Candidate>, n: nat, p: nat,
                                          x: Reranked)
    requires IntentForQuery(query) == Current && 0.0 <= weight <= 1.25
    requires p < n <= |Ordered(query, weight, candidates)|
    requires IsPast(Ordered(query, weight, candidates)[p].candidate) && IsCurrent(x.candidate)
    ensures multiset(Ordered(query, weight, candidates)[..n])[x] ==
            multiset(Records(query, weight, candidates, |candidates|))[x]
  {
    hide IsPast, IsCurrent, Record, Records, Ordered, IntentForQuery;
    OrderedIs(query, weight, candidates);
    var s := Ordered(query, weight, candidates);
    forall q | n <= q < |s| ensures s[q] != x {
      if IsCurrent(s[q].candidate) {
        CurrentFirst(query, weight, candidates, p, q);
      }
    }
    assert s == s[..n] + s[n..];
    assert x !in s[n..];
  }
}
