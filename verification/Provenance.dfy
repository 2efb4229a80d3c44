/** Conversation provenance: byte spans into immutable sources, and the checks an envelope
    must pass before it is stored.

    The artifact store is the map from the identities that verify to their bytes. */
module Provenance {
  import opened Basics
  import opened Ordering

  // ------------------------------------------------------------ finding a span

  predicate At(data: Bytes, target: Bytes, i: nat) {
    i + |target| <= |data| && data[i..i + |target|] == target
  }

  /** `bytes.find`: the least position from `from` on. */
  function Find(data: Bytes, target: Bytes, from: nat): (r: Option<nat>)
    ensures r.Some? ==> from <= r.value && At(data, target, r.value)
                        && forall i :: from <= i < r.value ==> !At(data, target, i)
    ensures r.None? ==> forall i: nat :: from <= i ==> !At(data, target, i)
    decreases |data| - from
  {
    if from + |target| > |data| then None
    else if At(data, target, from) then Some(from)
    else Find(data, target, from + 1)
  }

  /** Occurrences in order, none overlapping the next. */
  ghost predicate Disjoint(data: Bytes, target: Bytes, s: seq<nat>) {
    && (forall i :: 0 <= i < |s| ==> At(data, target, s[i]))
    && (forall i, j :: 0 <= i && j == i + 1 && j < |s| ==> s[i] + |target| <= s[j])
  }

  ghost predicate Family(data: Bytes, target: Bytes, n: nat, s: seq<nat>) {
    |s| == n && n > 0 && Disjoint(data, target, s)
  }

  /** `start` is the earliest last position of `n` disjoint occurrences. */
  ghost predicate EarliestLast(data: Bytes, target: Bytes, n: nat, start: nat) {
    && (exists s :: Family(data, target, n, s) && s[|s| - 1] == start)
    && (forall s :: Family(data, target, n, s) ==> start <= s[|s| - 1])
  }

  ghost predicate NoFamily(data: Bytes, target: Bytes, n: nat) {
    forall s :: !Family(data, target, n, s)
  }

  lemma {:induction false} FamilyGrows(data: Bytes, target: Bytes, s: seq<nat>, next: nat)
    requires (s == [] || Disjoint(data, target, s)) && At(data, target, next)
    requires s == [] || s[|s| - 1] + |target| <= next
    ensures Family(data, target, |s| + 1, s + [next]) && (s + [next])[|s|] == next
  {
    hide At;
    var t := s + [next];
    assert forall i :: 0 <= i < |s| ==> t[i] == s[i];
  }

  /** If `n` occurrences end earliest at `start`, the next one found ends `n + 1` of them earliest. */
  lemma {:induction false} NextEarliest(data: Bytes, target: Bytes, n: nat, start: nat, next: nat)
    requires n > 0 ==> EarliestLast(data, target, n, start)
    requires Find(data, target, if n == 0 then 0 else start + |target|) == Some(next)
    ensures EarliestLast(data, target, n + 1, next)
  {
    hide Find, At, Disjoint;
    if n == 0 {
      FamilyGrows(data, target, [], next);
    } else {
      var s :| Family(data, target, n, s) && s[|s| - 1] == start;
      FamilyGrows(data, target, s, next);
    }
    forall s | Family(data, target, n + 1, s) ensures next <= s[|s| - 1] {
      LastOccurrence(data, target, n, start, s);
    }
  }

  lemma {:induction false} LastOccurrence(data: Bytes, target: Bytes, n: nat, start: nat, s: seq<nat>)
    requires n > 0 ==> EarliestLast(data, target, n, start)
    requires Family(data, target, n + 1, s)
    ensures At(data, target, s[n]) && s[n] >= if n == 0 then 0 else start + |target|
  {
    if n > 0 {
      assert Family(data, target, n, s[..n]);
    }
  }

  /** If no further occurrence is found, no larger family exists. */
  lemma {:induction false} NoneLarger(data: Bytes, target: Bytes, n: nat, start: nat, m: nat)
    requires n > 0 ==> EarliestLast(data, target, n, start)
    requires Find(data, target, if n == 0 then 0 else start + |target|).None? && n < m
    ensures NoFamily(data, target, m)
  {
    hide Find, EarliestLast;
    forall s | Family(data, target, m, s) ensures false {
      LastOccurrence(data, target, n, start, s[..n + 1]);
    }
  }

  datatype Located = Located(start: nat, end: nat) | NotFound | BadOccurrence

  /** The span of the needle's occurrence, counted from 0: found exactly if there are that many disjoint ones. */
  method SpanForText(data: Bytes, target: Bytes, occurrence: int) returns (r: Located)
    ensures occurrence < 0 <==> r.BadOccurrence?
    ensures r.Located? ==> r.end == r.start + |target| && EarliestLast(data, target, occurrence + 1, r.start)
    ensures r.NotFound? ==> NoFamily(data, target, occurrence + 1)
  {
    hide Find, EarliestLast, NoFamily, At;
    if occurrence < 0 { return BadOccurrence; }
    var start: nat, cursor: nat := 0, 0;
    var n := 0;
    while n < occurrence + 1
      invariant n <= occurrence + 1 && cursor == if n == 0 then 0 else start + |target|
      invariant n > 0 ==> EarliestLast(data, target, n, start)
    {
      var found := Find(data, target, cursor);
      if found.None? {
        NoneLarger(data, target, n, start, occurrence + 1);
        return NotFound;
      }
      NextEarliest(data, target, n, start, found.value);
      start := found.value;
      cursor := start + |target|;
      n := n + 1;
    }
    r := Located(start, start + |target|);
  }

  function Slice(data: Bytes, start: int, end: int): Option<Bytes> {
    if start < 0 || end <= start || end > |data| then None else Some(data[start..end])
  }

  /** A located span resolves to the needle's own bytes, unless the needle is empty: that span never resolves. */
  lemma {:induction false} LocatedResolves(data: Bytes, target: Bytes, n: nat, start: nat)
    requires EarliestLast(data, target, n, start)
    ensures Slice(data, start, start + |target|) == if target == [] then None else Some(target)
  {
    var s :| Family(data, target, n, s) && s[|s| - 1] == start;
    assert At(data, target, start);
  }

  /** An empty needle is located at the start of every source, for every occurrence, and resolves nowhere. */
  lemma {:induction false} EmptyNeedle(data: Bytes, n: nat)
    requires n > 0
    ensures EarliestLast(data, [], n, 0) && Slice(data, 0, 0) == None
  {
    var zeros := seq(n, i => 0);
    assert Family(data, [], n, zeros) && zeros[|zeros| - 1] == 0;
  }

  // ------------------------------------------------------------ the envelope

  datatype Status = Verbatim | Reconstructed
  datatype Kind = AllVerbatim | AllReconstructed | Mixed

  datatype Source = Source(sourceId: string, artifactId: string, status: Status)
  datatype Span = Span(spanId: string, source: string, start: int, end: int, status: Status)
  datatype Message = Message(messageId: string, sequence: int, parent: Option<string>, status: Status, text: string,
                             refs: seq<string>)
  datatype Envelope = Envelope(kind: Kind, sources: seq<Source>, spans: seq<Span>, messages: seq<Message>)

  type Artifacts = map<string, Bytes>
  type Decoder = Bytes -> Option<string>

  /** `{key(x): x for x in items}`. */
  function Index<K, T>(items: seq<T>, key: T -> K): map<K, T> {
    if items == [] then map[]
    else
      var last := items[|items| - 1];
      Index(items[..|items| - 1], key)[key(last) := last]
  }

  lemma {:induction false} IndexEntries<K, T>(items: seq<T>, key: T -> K)
    ensures forall k :: k in Index(items, key) ==> Index(items, key)[k] in items && key(Index(items, key)[k]) == k
    ensures forall x :: x in items ==> key(x) in Index(items, key)
    ensures |Index(items, key)| <= |items|
  {
    if items != [] {
      var front, last := items[..|items| - 1], items[|items| - 1];
      IndexEntries(front, key);
      assert items == front + [last];
    }
  }

  /** The index has as many entries as the list exactly if no key repeats. */
  lemma {:induction false} IndexSize<K, T>(items: seq<T>, key: T -> K)
    ensures |Index(items, key)| == |items| <==> DistinctKeys(items, key)
  {
    if items != [] {
      var front, last := items[..|items| - 1], items[|items| - 1];
      IndexSize(front, key);
      IndexEntries(front, key);
      assert items == front + [last];
    }
  }

  /** A span that resolves inside its source, and is not passed off as verbatim. */
  ghost predicate SpanGrounded(e: Envelope, store: Artifacts, p: Span) {
    exists s :: s in e.sources && s.sourceId == p.source && s.artifactId in store
                && !(s.status.Reconstructed? && p.status.Verbatim?) && Slice(store[s.artifactId], p.start, p.end).Some?
  }

  ghost predicate ParentEarlier(e: Envelope, m: Message) {
    m.parent.Some? ==> exists q :: q in e.messages && q.messageId == m.parent.value && q.sequence < m.sequence
  }

  ghost predicate IsSpan(e: Envelope, id: string) {
    exists p :: p in e.spans && p.spanId == id
  }

  /** The bytes a span refers to. */
  function BytesOf(sources: map<string, Source>, store: Artifacts, p: Span): Option<Bytes> {
    if p.source in sources && sources[p.source].artifactId in store
    then Slice(store[sources[p.source].artifactId], p.start, p.end)
    else None
  }

  function TextOf(sources: map<string, Source>, spans: map<string, Span>, store: Artifacts, decode: Decoder,
                  refs: seq<string>): Option<string> {
    if refs == [] then Some("")
    else
      var before, id := TextOf(sources, spans, store, decode, refs[..|refs| - 1]), refs[|refs| - 1];
      if before.None? || id !in spans || BytesOf(sources, store, spans[id]).None? then None
      else
        var last := decode(BytesOf(sources, store, spans[id]).value);
        if last.None? then None else Some(before.value + last.value)
  }

  predicate AllVerbatimRefs(spans: map<string, Span>, refs: seq<string>) {
    forall id :: id in refs ==> id in spans && spans[id].status.Verbatim?
  }

  function SourceKey(s: Source): string { s.sourceId }
  function SpanKey(p: Span): string { p.spanId }
  function MessageKey(m: Message): string { m.messageId }
  function SequenceKey(m: Message): int { m.sequence }

  ghost predicate MessageGrounded(e: Envelope, store: Artifacts, decode: Decoder, m: Message) {
    var sources, spans := Index(e.sources, SourceKey), Index(e.spans, SpanKey);
    && ParentEarlier(e, m)
    && (forall id :: id in m.refs ==> IsSpan(e, id))
    && (m.status.Verbatim? ==>
        AllVerbatimRefs(spans, m.refs) && TextOf(sources, spans, store, decode, m.refs) == Some(m.text))
  }

  ghost predicate KindFits(e: Envelope) {
    match e.kind
    case AllVerbatim => e.messages != [] && forall m :: m in e.messages ==> m.status.Verbatim?
    case AllReconstructed => forall m :: m in e.messages ==> m.status.Reconstructed?
    case Mixed => true
  }

  ghost predicate Identified(e: Envelope) {
    && DistinctKeys(e.sources, SourceKey) && DistinctKeys(e.spans, SpanKey) && DistinctKeys(e.messages, MessageKey)
    && DistinctKeys(e.messages, SequenceKey)
  }

  ghost predicate WellProvenanced(e: Envelope, store: Artifacts, decode: Decoder) {
    && Identified(e)
    && (forall s :: s in e.sources ==> s.artifactId in store)
    && (forall p :: p in e.spans ==> SpanGrounded(e, store, p))
    && (forall m :: m in e.messages ==> MessageGrounded(e, store, decode, m))
    && KindFits(e)
  }

  // ------------------------------------------------------------ the checks

  method BuildIndex<K, T>(items: seq<T>, key: T -> K) returns (index: map<K, T>)
    ensures index == Index(items, key)
    ensures |index| == |items| <==> DistinctKeys(items, key)
  {
    hide DistinctKeys;
    index := map[];
    for i := 0 to |items|
      invariant index == Index(items[..i], key)
    {
      assert items[..i + 1][..i] == items[..i];
      index := index[key(items[i]) := items[i]];
    }
    assert items[..|items|] == items;
    IndexSize(items, key);
  }

  method CheckSpan(e: Envelope, store: Artifacts, sources: map<string, Source>, p: Span) returns (ok: bool)
    requires sources == Index(e.sources, SourceKey) && DistinctKeys(e.sources, SourceKey)
    requires forall s :: s in e.sources ==> s.artifactId in store
    ensures ok <==> SpanGrounded(e, store, p)
  {
    hide Index, Slice, DistinctKeys;
    IndexEntries(e.sources, SourceKey);
    if p.source !in sources { return false; }
    var s := sources[p.source];
    forall q | q in e.sources && q.sourceId == p.source ensures q == s {
      SameEntry(e.sources, SourceKey, q, s);
    }
    if s.status.Reconstructed? && p.status.Verbatim? { return false; }
    ok := Slice(store[s.artifactId], p.start, p.end).Some?;
  }

  method CheckSpans(e: Envelope, store: Artifacts, sources: map<string, Source>) returns (ok: bool)
    requires sources == Index(e.sources, SourceKey) && DistinctKeys(e.sources, SourceKey)
    requires forall s :: s in e.sources ==> s.artifactId in store
    ensures ok <==> forall p :: p in e.spans ==> SpanGrounded(e, store, p)
  {
    hide Index, DistinctKeys, SpanGrounded;
    for i := 0 to |e.spans|
      invariant forall k :: 0 <= k < i ==> SpanGrounded(e, store, e.spans[k])
    {
      var grounded := CheckSpan(e, store, sources, e.spans[i]);
      if !grounded { return false; }
    }
    ok := true;
  }

  method CheckMessage(e: Envelope, store: Artifacts, decode: Decoder, sources: map<string, Source>,
                      spans: map<string, Span>, messages: map<string, Message>, m: Message) returns (ok: bool)
    requires sources == Index(e.sources, SourceKey) && spans == Index(e.spans, SpanKey)
             && messages == Index(e.messages, MessageKey)
    requires DistinctKeys(e.spans, SpanKey) && DistinctKeys(e.messages, MessageKey)
    ensures ok <==> MessageGrounded(e, store, decode, m)
  {
    hide Index, DistinctKeys, TextOf;
    IndexEntries(e.spans, SpanKey);
    KnownParent(e, messages, m);
    if m.parent.Some? {
      if m.parent.value !in messages { return false; }
      if messages[m.parent.value].sequence >= m.sequence { return false; }
    }
    forall id ensures IsSpan(e, id) <==> id in spans {
    }
    for i := 0 to |m.refs|
      invariant forall k :: 0 <= k < i ==> m.refs[k] in spans
    {
      if m.refs[i] !in spans { return false; }
    }
    if m.status.Verbatim? {
      if !AllVerbatimRefs(spans, m.refs) { return false; }
      if TextOf(sources, spans, store, decode, m.refs) != Some(m.text) { return false; }
    }
    ok := true;
  }

  lemma {:induction false} KnownParent(e: Envelope, messages: map<string, Message>, m: Message)
    requires messages == Index(e.messages, MessageKey) && DistinctKeys(e.messages, MessageKey)
    ensures ParentEarlier(e, m) <==> (m.parent.Some? ==>
                                      m.parent.value in messages && messages[m.parent.value].sequence < m.sequence)
  {
    hide Index, DistinctKeys;
    IndexEntries(e.messages, MessageKey);
    if m.parent.Some? && m.parent.value in messages {
      forall q | q in e.messages && q.messageId == m.parent.value ensures q == messages[m.parent.value] {
        SameEntry(e.messages, MessageKey, q, messages[m.parent.value]);
      }
    }
  }

  method CheckMessages(e: Envelope, store: Artifacts, decode: Decoder, sources: map<string, Source>,
                       spans: map<string, Span>, messages: map<string, Message>) returns (ok: bool)
    requires sources == Index(e.sources, SourceKey) && spans == Index(e.spans, SpanKey)
             && messages == Index(e.messages, MessageKey)
    requires DistinctKeys(e.spans, SpanKey) && DistinctKeys(e.messages, MessageKey)
    ensures ok <==> forall m :: m in e.messages ==> MessageGrounded(e, store, decode, m)
  {
    hide Index, DistinctKeys, MessageGrounded;
    for i := 0 to |e.messages|
      invariant forall k :: 0 <= k < i ==> MessageGrounded(e, store, decode, e.messages[k])
    {
      var grounded := CheckMessage(e, store, decode, sources, spans, messages, e.messages[i]);
      if !grounded { return false; }
    }
    ok := true;
  }

  /** The last two checks, on the set of the messages' statuses. */
  predicate StatusesFit(kind: Kind, statuses: set<Status>) {
    !(kind.AllVerbatim? && statuses != {Verbatim}) && !(kind.AllReconstructed? && Verbatim in statuses)
  }

  lemma {:induction false} StatusesFitIff(e: Envelope)
    ensures StatusesFit(e.kind, set m | m in e.messages :: m.status) <==> KindFits(e)
  {
    var statuses := set m | m in e.messages :: m.status;
    assert forall m :: m in e.messages ==> m.status in statuses;
    if e.messages != [] {
      assert e.messages[0] in e.messages;
    }
    if e.kind.AllVerbatim? && KindFits(e) {
      assert statuses == {Verbatim};
    }
  }

  /** `_validate_provenance` accepts exactly the well-provenanced envelopes. */
  method ValidateProvenance(e: Envelope, store: Artifacts, decode: Decoder) returns (ok: bool)
    ensures ok <==> WellProvenanced(e, store, decode)
  {
    hide Index, DistinctKeys, MessageGrounded, SpanGrounded, KindFits, StatusesFit;
    var sources := BuildIndex(e.sources, SourceKey);
    if |sources| != |e.sources| { return false; }
    for i := 0 to |e.sources|
      invariant forall k :: 0 <= k < i ==> e.sources[k].artifactId in store
    {
      if e.sources[i].artifactId !in store { return false; }
    }
    var spans := BuildIndex(e.spans, SpanKey);
    if |spans| != |e.spans| { return false; }
    var grounded := CheckSpans(e, store, sources);
    if !grounded { return false; }
    var messages := BuildIndex(e.messages, MessageKey);
    if |messages| != |e.messages| { return false; }
    var sequences := BuildIndex(e.messages, SequenceKey);
    if |sequences| != |e.messages| { return false; }
    grounded := CheckMessages(e, store, decode, sources, spans, messages);
    if !grounded { return false; }
    StatusesFitIff(e);
    ok := StatusesFit(e.kind, set m | m in e.messages :: m.status);
  }

  // ------------------------------------------------------------ what a stored envelope guarantees

  /** A UTF-8 decoder and the encoder it undoes, which works character by character. */
  ghost predicate Lawful(decode: Decoder, encode: string -> Bytes) {
    && (forall b :: decode(b).Some? ==> encode(decode(b).value) == b)
    && encode("") == [] && (forall s, t :: encode(s + t) == encode(s) + encode(t))
  }

  function Concat(parts: seq<Bytes>): Bytes {
    if parts == [] then [] else Concat(parts[..|parts| - 1]) + parts[|parts| - 1]
  }

  /** Part `i` is a piece of a source that is itself verbatim, cut out by the verbatim span `refs[i]`. */
  ghost predicate VerbatimPart(e: Envelope, store: Artifacts, id: string, part: Bytes) {
    exists p, s :: p in e.spans && p.spanId == id && p.status.Verbatim?
                   && s in e.sources && s.sourceId == p.source && s.status.Verbatim?
                   && s.artifactId in store && Slice(store[s.artifactId], p.start, p.end) == Some(part)
  }

  lemma {:induction false} SourceOfSpan(e: Envelope, store: Artifacts, p: Span)
    requires DistinctKeys(e.sources, SourceKey) && p in e.spans && SpanGrounded(e, store, p) && p.status.Verbatim?
    requires BytesOf(Index(e.sources, SourceKey), store, p).Some?
    ensures VerbatimPart(e, store, p.spanId, BytesOf(Index(e.sources, SourceKey), store, p).value)
  {
    hide Slice, Index;
    IndexEntries(e.sources, SourceKey);
    var s :| s in e.sources && s.sourceId == p.source && s.artifactId in store
             && !(s.status.Reconstructed? && p.status.Verbatim?) && Slice(store[s.artifactId], p.start, p.end).Some?;
    SameEntry(e.sources, SourceKey, s, Index(e.sources, SourceKey)[p.source]);
  }

  lemma {:induction false} TextTraced(e: Envelope, store: Artifacts, decode: Decoder, encode: string -> Bytes,
                                      refs: seq<string>)
    returns (parts: seq<Bytes>)
    requires Lawful(decode, encode) && DistinctKeys(e.sources, SourceKey) && DistinctKeys(e.spans, SpanKey)
    requires forall p :: p in e.spans ==> SpanGrounded(e, store, p)
    requires AllVerbatimRefs(Index(e.spans, SpanKey), refs)
    requires TextOf(Index(e.sources, SourceKey), Index(e.spans, SpanKey), store, decode, refs).Some?
    ensures encode(TextOf(Index(e.sources, SourceKey), Index(e.spans, SpanKey), store, decode, refs).value) ==
            Concat(parts)
    ensures |parts| == |refs| && forall i :: 0 <= i < |refs| ==> VerbatimPart(e, store, refs[i], parts[i])
  {
    hide Index, VerbatimPart, SpanGrounded, DistinctKeys, BytesOf;
    if refs == [] {
      parts := [];
    } else {
      var front, id := refs[..|refs| - 1], refs[|refs| - 1];
      assert refs == front + [id];
      var before := TextTraced(e, store, decode, encode, front);
      IndexEntries(e.spans, SpanKey);
      var p := Index(e.spans, SpanKey)[id];
      SourceOfSpan(e, store, p);
      var part := BytesOf(Index(e.sources, SourceKey), store, p).value;
      parts := before + [part];
      assert parts[..|before|] == before;
      assert encode(decode(part).value) == part;
    }
  }

  /** In a well-provenanced envelope a verbatim message is byte for byte the join of verbatim spans of verbatim
      sources. */
  lemma {:induction false} VerbatimIsTraced(e: Envelope, store: Artifacts, decode: Decoder, encode: string -> Bytes,
                                            m: Message)
    returns (parts: seq<Bytes>)
    requires Lawful(decode, encode) && WellProvenanced(e, store, decode) && m in e.messages && m.status.Verbatim?
    ensures encode(m.text) == Concat(parts)
    ensures |parts| == |m.refs| && forall i :: 0 <= i < |m.refs| ==> VerbatimPart(e, store, m.refs[i], parts[i])
  {
    hide Index, TextOf, VerbatimPart, SpanGrounded, DistinctKeys, Lawful, Concat;
    assert MessageGrounded(e, store, decode, m);
    parts := TextTraced(e, store, decode, encode, m.refs);
  }

  predicate SequenceLe(a: Message, b: Message) {
    a.sequence <= b.sequence
  }

  /** `ordered_messages` lists every message after its parent. */
  lemma {:induction false} ParentsComeFirst(e: Envelope, store: Artifacts, decode: Decoder, j: nat) returns (i: nat)
    requires WellProvenanced(e, store, decode)
    requires j < |Sort(SequenceLe, e.messages)| && Sort(SequenceLe, e.messages)[j].parent.Some?
    ensures i < j && Sort(SequenceLe, e.messages)[i].messageId == Sort(SequenceLe, e.messages)[j].parent.value
  {
    hide Index, TextOf, SpanGrounded, Identified, KindFits, Sort;
    var s := Sort(SequenceLe, e.messages);
    SortSorts(SequenceLe, e.messages);
    SortMembers(SequenceLe, e.messages);
    assert s[j] in e.messages;
    assert MessageGrounded(e, store, decode, s[j]);
    var q :| q in e.messages && q.messageId == s[j].parent.value && q.sequence < s[j].sequence;
    assert q in s;
    i :| 0 <= i < |s| && s[i] == q;
  }

  // ------------------------------------------------------------ spans and texts

  /** A span resolves exactly if it is a nonempty stretch inside the bytes, and then to that stretch. */
  lemma {:induction false} SliceIff(data: Bytes, start: int, end: int)
    ensures Slice(data, start, end).Some? <==> 0 <= start < end <= |data|
    ensures Slice(data, start, end).Some? ==>
              |Slice(data, start, end).value| == end - start
              && forall i :: 0 <= i < end - start ==> Slice(data, start, end).value[i] == data[start + i]
  {
  }

  /** The text behind a span identity: its bytes, decoded. */
  ghost predicate IsText(e: Envelope, store: Artifacts, decode: Decoder, id: string, text: string) {
    exists p, s :: p in e.spans && p.spanId == id && s in e.sources && s.sourceId == p.source && s.artifactId in store
                   && 0 <= p.start < p.end <= |store[s.artifactId]|
                   && decode(store[s.artifactId][p.start..p.end]) == Some(text)
  }

  function Join(texts: seq<string>): string {
    if texts == [] then "" else Join(texts[..|texts| - 1]) + texts[|texts| - 1]
  }

  ghost predicate AreTexts(e: Envelope, store: Artifacts, decode: Decoder, refs: seq<string>, texts: seq<string>) {
    |texts| == |refs| && forall i :: 0 <= i < |refs| ==> IsText(e, store, decode, refs[i], texts[i])
  }

  lemma {:induction false} OneText(e: Envelope, store: Artifacts, decode: Decoder, id: string, text: string)
    requires DistinctKeys(e.sources, SourceKey) && DistinctKeys(e.spans, SpanKey)
    ensures var sources, spans := Index(e.sources, SourceKey), Index(e.spans, SpanKey);
            IsText(e, store, decode, id, text) <==>
              id in spans && BytesOf(sources, store, spans[id]).Some?
              && decode(BytesOf(sources, store, spans[id]).value) == Some(text)
  {
    hide Index, DistinctKeys;
    var sources, spans := Index(e.sources, SourceKey), Index(e.spans, SpanKey);
    IndexEntries(e.sources, SourceKey);
    IndexEntries(e.spans, SpanKey);
    if IsText(e, store, decode, id, text) {
      var p, s :| p in e.spans && p.spanId == id && s in e.sources && s.sourceId == p.source && s.artifactId in store
                  && 0 <= p.start < p.end <= |store[s.artifactId]|
                  && decode(store[s.artifactId][p.start..p.end]) == Some(text);
      SameEntry(e.spans, SpanKey, p, spans[id]);
      SameEntry(e.sources, SourceKey, s, sources[p.source]);
    }
    if id in spans && BytesOf(sources, store, spans[id]).Some? {
      assert spans[id] in e.spans && sources[spans[id].source] in e.sources;
    }
  }

  lemma {:induction false} TextJoins(e: Envelope, store: Artifacts, decode: Decoder, refs: seq<string>, text: string)
    returns (texts: seq<string>)
    requires DistinctKeys(e.sources, SourceKey) && DistinctKeys(e.spans, SpanKey)
    requires TextOf(Index(e.sources, SourceKey), Index(e.spans, SpanKey), store, decode, refs) == Some(text)
    ensures AreTexts(e, store, decode, refs, texts) && Join(texts) == text
  {
    hide Index, DistinctKeys, IsText, BytesOf;
    var sources, spans := Index(e.sources, SourceKey), Index(e.spans, SpanKey);
    if refs == [] {
      texts := [];
    } else {
      var front, id := refs[..|refs| - 1], refs[|refs| - 1];
      var before := TextOf(sources, spans, store, decode, front).value;
      var last := decode(BytesOf(sources, store, spans[id]).value).value;
      var start := TextJoins(e, store, decode, front, before);
      OneText(e, store, decode, id, last);
      texts := start + [last];
      assert texts[..|texts| - 1] == start;
    }
  }

  lemma {:induction false} JoinIsText(e: Envelope, store: Artifacts, decode: Decoder, refs: seq<string>,
                                      texts: seq<string>)
    requires DistinctKeys(e.sources, SourceKey) && DistinctKeys(e.spans, SpanKey)
    requires AreTexts(e, store, decode, refs, texts)
    ensures TextOf(Index(e.sources, SourceKey), Index(e.spans, SpanKey), store, decode, refs) == Some(Join(texts))
  {
    hide Index, DistinctKeys, IsText, BytesOf;
    if refs != [] {
      var n := |refs| - 1;
      JoinIsText(e, store, decode, refs[..n], texts[..n]);
      assert IsText(e, store, decode, refs[n], texts[n]);
      OneText(e, store, decode, refs[n], texts[n]);
    }
  }

  /** The text of a list of spans is the join of their texts, and there is one exactly if each of them has one. */
  lemma {:induction false} TextIff(e: Envelope, store: Artifacts, decode: Decoder, refs: seq<string>, text: string)
    requires DistinctKeys(e.sources, SourceKey) && DistinctKeys(e.spans, SpanKey)
    ensures TextOf(Index(e.sources, SourceKey), Index(e.spans, SpanKey), store, decode, refs) == Some(text) <==>
              exists texts :: AreTexts(e, store, decode, refs, texts) && Join(texts) == text
  {
    hide Index, DistinctKeys, TextOf, AreTexts, Join;
    if TextOf(Index(e.sources, SourceKey), Index(e.spans, SpanKey), store, decode, refs) == Some(text) {
      var texts := TextJoins(e, store, decode, refs, text);
    }
    if texts :| AreTexts(e, store, decode, refs, texts) && Join(texts) == text {
      JoinIsText(e, store, decode, refs, texts);
    }
  }

  /** When a verbatim message is grounded, in terms of the envelope alone. */
  lemma {:induction false} VerbatimGroundedIff(e: Envelope, store: Artifacts, decode: Decoder, m: Message)
    requires DistinctKeys(e.sources, SourceKey) && DistinctKeys(e.spans, SpanKey) && m.status.Verbatim?
    ensures MessageGrounded(e, store, decode, m) <==>
              && ParentEarlier(e, m)
              && (forall id :: id in m.refs ==> exists p :: p in e.spans && p.spanId == id && p.status.Verbatim?)
              && exists texts :: AreTexts(e, store, decode, m.refs, texts) && Join(texts) == m.text
  {
    hide Index, DistinctKeys, TextOf, AreTexts;
    var spans := Index(e.spans, SpanKey);
    TextIff(e, store, decode, m.refs, m.text);
    IndexEntries(e.spans, SpanKey);
    forall id ensures id in spans && spans[id].status.Verbatim? <==>
                      exists p :: p in e.spans && p.spanId == id && p.status.Verbatim? {
      if p :| p in e.spans && p.spanId == id && p.status.Verbatim? {
        SameEntry(e.spans, SpanKey, p, spans[id]);
      }
    }
  }
}
