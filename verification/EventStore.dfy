/** Write-once event stores with redaction tombstones: one abstract machine, and the
    filesystem and S3 stores that both implement it.

    Each operation runs as a whole. The JSON encodings are any functions with a left
    inverse (the `Codec`), and the digest is any function of bytes. */
module EventStore {
  import opened Basics

  datatype Event = Event(eventId: string, packId: string, eventType: string, recordedAt: string, rest: string)

  datatype Request = Request(reason: string, authority: string, redactedAt: string, requestRef: Option<string>)

  datatype Tombstone = Tombstone(eventId: string, packId: string, eventType: string, recordedAt: string,
                                 digest: string, request: Request)

  datatype Codec = Codec(
    encode: Event -> Bytes, decode: Bytes -> Event,
    encodeTombstone: Tombstone -> Bytes, decodeTombstone: Bytes -> Tombstone,
    digest: Bytes -> string)

  ghost predicate Lawful(c: Codec) {
    (forall e :: c.decode(c.encode(e)) == e) && (forall t :: c.decodeTombstone(c.encodeTombstone(t)) == t)
  }

  datatype Result =
    | Accepted(event: Event)
    | Found(event: Event)
    | Erased(tombstone: Tombstone)
    | EventRedacted
    | IdempotencyConflict
    | RedactionConflict
    | NotFound
    | BadRequest

  datatype Op =
    | Commit(event: Event)
    | Get(id: string)
    | Redact(rid: string, request: Request)

  // ------------------------------------------------------------ the abstract machine

  datatype Abstract = Abstract(events: map<string, Event>, tombstones: map<string, Tombstone>)

  const EMPTY := Abstract(map[], map[])

  predicate Complete(r: Request) {
    r.reason != "" && r.authority != "" && r.redactedAt != ""
  }

  function TombstoneFor(c: Codec, e: Event, r: Request): Tombstone {
    Tombstone(e.eventId, e.packId, e.eventType, e.recordedAt, c.digest(c.encode(e)), r)
  }

  function Apply(c: Codec, a: Abstract, op: Op): (Abstract, Result) {
    match op
    case Commit(e) =>
      if e.eventId in a.tombstones then (a, EventRedacted)
      else if e.eventId !in a.events then (a.(events := a.events[e.eventId := e]), Accepted(e))
      else if a.events[e.eventId] == e then (a, Accepted(e))
      else (a, IdempotencyConflict)
    case Get(id) =>
      if id in a.tombstones then (a, EventRedacted)
      else if id !in a.events then (a, NotFound)
      else (a, Found(a.events[id]))
    case Redact(id, r) =>
      if !Complete(r) then (a, BadRequest)
      else if id in a.tombstones then
        (a, if a.tombstones[id].request == r then Erased(a.tombstones[id]) else RedactionConflict)
      else if id !in a.events then (a, NotFound)
      else
        var t := TombstoneFor(c, a.events[id], r);
        (Abstract(a.events - {id}, a.tombstones[id := t]), Erased(t))
  }

  function RunOps(c: Codec, a: Abstract, ops: seq<Op>): (Abstract, seq<Result>) {
    if ops == [] then (a, [])
    else
      var before := RunOps(c, a, ops[..|ops| - 1]);
      var last := Apply(c, before.0, ops[|ops| - 1]);
      (last.0, before.1 + [last.1])
  }

  lemma {:induction false} RunMore(c: Codec, s: Abstract, ops: seq<Op>, op: Op)
    ensures var before := RunOps(c, s, ops);
            RunOps(c, s, ops + [op]) == (Apply(c, before.0, op).0, before.1 + [Apply(c, before.0, op).1])
  {
    hide Apply;
    assert (ops + [op])[..|ops + [op]| - 1] == ops;
  }

  lemma {:induction false} RunOne(c: Codec, s: Abstract, op: Op)
    ensures RunOps(c, s, [op]).0 == Apply(c, s, op).0 && RunOps(c, s, [op]).1 == [Apply(c, s, op).1]
  {
    RunMore(c, s, [], op);
    assert [] + [op] == [op];
  }

  /** A run does its operations one after the other, and answers them in order. */
  lemma {:induction false} RunCompose(c: Codec, s: Abstract, a: seq<Op>, b: seq<Op>)
    ensures var first := RunOps(c, s, a); var second := RunOps(c, first.0, b);
            RunOps(c, s, a + b).0 == second.0 && RunOps(c, s, a + b).1 == first.1 + second.1
  {
    hide Apply;
    if b == [] {
      assert a + b == a;
    } else {
      hide RunOps;
      var n := |b| - 1;
      var front, last := b[..n], b[n];
      RunCompose(c, s, a, front);
      RunMore(c, s, a + front, last);
      RunMore(c, RunOps(c, s, a).0, front, last);
      assert a + b == (a + front) + [last] && b == front + [last];
    }
  }

  /** Over one operation: a stored value stays or is erased for good, and a tombstone never changes. */
  ghost predicate Evolves(a: Abstract, b: Abstract) {
    && (forall id :: id in a.tombstones ==> id in b.tombstones && b.tombstones[id] == a.tombstones[id])
    && (forall id :: id in a.events ==>
        (id in b.events && b.events[id] == a.events[id]) || (id !in b.events && id in b.tombstones))
    && (forall id :: id in a.tombstones && id !in a.events ==> id !in b.events)
  }

  lemma {:induction false} ApplyEvolves(c: Codec, a: Abstract, op: Op)
    ensures Evolves(a, Apply(c, a, op).0)
  {
  }

  lemma {:induction false} EvolvesOrder(a: Abstract, b: Abstract, d: Abstract)
    ensures Evolves(a, a) && (Evolves(a, b) && Evolves(b, d) ==> Evolves(a, d))
  {
  }

  /** Over any sequence of operations a stored value never changes and a completely redacted identity never returns. */
  lemma {:induction false} RunEvolves(c: Codec, a: Abstract, ops: seq<Op>)
    ensures Evolves(a, RunOps(c, a, ops).0)
  {
    hide Apply, Evolves;
    if ops == [] {
      EvolvesOrder(a, a, a);
    } else {
      var front := ops[..|ops| - 1];
      RunEvolves(c, a, front);
      ApplyEvolves(c, RunOps(c, a, front).0, ops[|ops| - 1]);
      EvolvesOrder(a, RunOps(c, a, front).0, RunOps(c, a, ops).0);
    }
  }

  /** From an empty store, no identity ever has both its bytes and a tombstone. */
  lemma {:induction false} RunDisjoint(c: Codec, ops: seq<Op>)
    ensures var a := RunOps(c, EMPTY, ops).0; a.events.Keys !! a.tombstones.Keys
  {
    if ops != [] {
      RunDisjoint(c, ops[..|ops| - 1]);
    }
  }

  /** After a successful redaction every later commit and read of that identity is refused, whatever happens between. */
  lemma {:induction false} RedactedStaysRedacted(c: Codec, a: Abstract, id: string, r: Request, ops: seq<Op>, e: Event)
    requires Apply(c, a, Redact(id, r)).1.Erased? && e.eventId == id
    ensures var b := RunOps(c, Apply(c, a, Redact(id, r)).0, ops).0;
            Apply(c, b, Commit(e)) == (b, EventRedacted) && Apply(c, b, Get(id)) == (b, EventRedacted)
  {
    RunEvolves(c, Apply(c, a, Redact(id, r)).0, ops);
  }

  /** An accepted commit is what every later read finds, until that identity is redacted. */
  lemma {:induction false} AcceptedIsFound(c: Codec, a: Abstract, e: Event, ops: seq<Op>)
    requires Apply(c, a, Commit(e)).1.Accepted?
    ensures var b := RunOps(c, Apply(c, a, Commit(e)).0, ops).0;
            Apply(c, b, Get(e.eventId)).1 == if e.eventId in b.tombstones then EventRedacted else Found(e)
  {
    RunEvolves(c, Apply(c, a, Commit(e)).0, ops);
  }

  /** When a commit is accepted, refused for a tombstone, and in conflict; and what it writes. */
  lemma {:induction false} CommitIff(c: Codec, a: Abstract, e: Event)
    ensures var r := Apply(c, a, Commit(e));
            && (r.1 == EventRedacted <==> e.eventId in a.tombstones)
            && (r.1 == IdempotencyConflict <==>
                  e.eventId !in a.tombstones && e.eventId in a.events && a.events[e.eventId] != e)
            && (r.1 == Accepted(e) <==>
                  e.eventId !in a.tombstones && (e.eventId in a.events ==> a.events[e.eventId] == e))
            && r.0 == (if r.1 == Accepted(e) then a.(events := a.events[e.eventId := e]) else a)
  {
    if e.eventId in a.events { assert a.events[e.eventId := a.events[e.eventId]] == a.events; }
  }

  /** When a read finds the event; it changes nothing. */
  lemma {:induction false} GetIff(c: Codec, a: Abstract, id: string, e: Event)
    ensures var r := Apply(c, a, Get(id));
            && r.0 == a
            && (r.1 == EventRedacted <==> id in a.tombstones)
            && (r.1 == Found(e) <==> id !in a.tombstones && id in a.events && a.events[id] == e)
            && (r.1 == NotFound <==> id !in a.tombstones && id !in a.events)
  {
  }

  /** Replaying an accepted commit is accepted for as long as its identity has no tombstone. */
  lemma {:induction false} ReplayAccepted(c: Codec, a: Abstract, e: Event, ops: seq<Op>)
    requires Apply(c, a, Commit(e)).1 == Accepted(e)
    ensures var b := RunOps(c, Apply(c, a, Commit(e)).0, ops).0;
            Apply(c, b, Commit(e)) == (b, if e.eventId in b.tombstones then EventRedacted else Accepted(e))
  {
    hide RunOps;
    var a' := Apply(c, a, Commit(e)).0;
    CommitIff(c, a, e);
    RunEvolves(c, a', ops);
    var b := RunOps(c, a', ops).0;
    CommitIff(c, b, e);
    if e.eventId in b.events { assert b.events[e.eventId := b.events[e.eventId]] == b.events; }
  }

  /** An identity with neither bytes nor tombstone can be committed, and the next read finds the event. */
  lemma {:induction false} FreshCommitIsFound(c: Codec, a: Abstract, e: Event)
    requires e.eventId !in a.events && e.eventId !in a.tombstones
    ensures Apply(c, a, Commit(e)).1 == Accepted(e)
    ensures Apply(c, Apply(c, a, Commit(e)).0, Get(e.eventId)).1 == Found(e)
  {
  }

  /** When a first redaction succeeds: exactly if the request is complete and the event is there; the tombstone says
      which event it was, the digest of its bytes and the request. */
  lemma {:induction false} RedactIff(c: Codec, a: Abstract, id: string, r: Request)
    requires id !in a.tombstones
    ensures var done := Apply(c, a, Redact(id, r));
            && (done.1.Erased? <==> r.reason != "" && r.authority != "" && r.redactedAt != "" && id in a.events)
            && (done.1 == BadRequest <==> r.reason == "" || r.authority == "" || r.redactedAt == "")
            && (!done.1.Erased? ==> done.0 == a && (done.1 == BadRequest || done.1 == NotFound))
            && (done.1.Erased? ==>
                  && done.0.events == a.events - {id} && id in done.0.tombstones
                  && done.0.tombstones == a.tombstones[id := done.1.tombstone]
                  && done.1.tombstone ==
                     Tombstone(a.events[id].eventId, a.events[id].packId, a.events[id].eventType,
                               a.events[id].recordedAt, c.digest(c.encode(a.events[id])), r))
  {
  }

  /** Whatever happens after a redaction, repeating it succeeds exactly if all four request fields are the same, with
      the same tombstone, and is otherwise in conflict or, for an incomplete request, malformed. */
  lemma {:induction false} RepeatedRedactionIff(c: Codec, a: Abstract, id: string, r: Request, ops: seq<Op>, q: Request)
    requires Apply(c, a, Redact(id, r)).1.Erased?
    ensures var done := Apply(c, a, Redact(id, r)); var b := RunOps(c, done.0, ops).0;
            var again := Apply(c, b, Redact(id, q));
            && again.0 == b
            && (again.1 == Erased(done.1.tombstone) <==>
                  q.reason == r.reason && q.authority == r.authority && q.redactedAt == r.redactedAt
                  && q.requestRef == r.requestRef)
            && (again.1 == BadRequest <==> q.reason == "" || q.authority == "" || q.redactedAt == "")
            && (again.1 == RedactionConflict <==> again.1 != BadRequest && q != r)
  {
    hide RunOps;
    RunEvolves(c, Apply(c, a, Redact(id, r)).0, ops);
  }

  // ------------------------------------------------------------ a crash inside a redaction

  /** The state a crash between tombstone and delete leaves: both are there. */
  ghost predicate Torn(a: Abstract, id: string) {
    id in a.events && id in a.tombstones
  }

  /** A redaction that reports success has erased the bytes exactly when it did not start from a torn state. */
  lemma {:induction false} ErasedIff(c: Codec, a: Abstract, id: string, r: Request)
    requires Apply(c, a, Redact(id, r)).1.Erased?
    ensures id !in Apply(c, a, Redact(id, r)).0.events <==> !Torn(a, id)
  {
  }

  /** No sequence of operations ever removes torn bytes: retrying the redaction does not finish it. */
  lemma {:induction false} TornForever(c: Codec, a: Abstract, id: string, ops: seq<Op>)
    requires Torn(a, id)
    ensures Torn(RunOps(c, a, ops).0, id) && RunOps(c, a, ops).0.events[id] == a.events[id]
  {
    if ops != [] {
      TornForever(c, a, id, ops[..|ops| - 1]);
    }
  }

  /** A redaction that stops between publishing its tombstone and deleting the bytes. */
  function CrashedRedact(c: Codec, a: Abstract, id: string, r: Request): Abstract
    requires id in a.events
  {
    a.(tombstones := a.tombstones[id := TombstoneFor(c, a.events[id], r)])
  }

  /** After such a crash the retry reports success, and every later one too, but the bytes stay for good. */
  lemma {:induction false} RetryNeverErases(c: Codec, a: Abstract, id: string, r: Request, ops: seq<Op>)
    requires Complete(r) && id in a.events && id !in a.tombstones
    ensures var b := RunOps(c, CrashedRedact(c, a, id, r), ops).0;
            Apply(c, b, Redact(id, r)).1.Erased? && id in Apply(c, b, Redact(id, r)).0.events
  {
    hide RunOps, Complete;
    var torn := CrashedRedact(c, a, id, r);
    TornForever(c, torn, id, ops);
    RunEvolves(c, torn, ops);
  }

  // ------------------------------------------------------------ where the bytes live

  datatype Layout = Filesystem | S3

  predicate IdChar(c: char) {
    'A' <= c <= 'Z' || 'a' <= c <= 'z' || '0' <= c <= '9' || c == '_' || c == '-'
  }

  /** `^evt_[A-Za-z0-9_-]{16,}$`, the event schema's identity. */
  predicate ValidId(id: string) {
    |id| >= 20 && id[..4] == "evt_" && forall i :: 4 <= i < |id| ==> IdChar(id[i])
  }

  function Shard(id: string): string
    requires ValidId(id)
  {
    id[4..6] + "/" + id + ".json"
  }

  function EventKey(layout: Layout, id: string): string
    requires ValidId(id)
  {
    match layout
    case Filesystem => Shard(id)
    case S3 => "canonical/events/" + Shard(id)
  }

  function TombstoneKey(layout: Layout, id: string): string
    requires ValidId(id)
  {
    match layout
    case Filesystem => "_redactions/" + Shard(id)
    case S3 => "canonical/redactions/events/" + Shard(id)
  }

  /** The identities a store accepts: "evt_" and sixteen or more ASCII letters, digits, underscores or hyphens. */
  lemma {:induction false} ValidIdIff(id: string)
    ensures ValidId(id) <==>
              && |id| >= 4 + 16 && id[..4] == "evt_"
              && forall c :: c in id[4..] ==>
                   var n := c as int;
                   65 <= n < 65 + 26 || 97 <= n < 97 + 26 || 48 <= n < 48 + 10 || n == 95 || n == 45
  {
    if |id| >= 20 && id[..4] == "evt_" {
      var t := id[4..];
      forall c | c in t && ValidId(id) ensures IdChar(c) {
        var i :| 0 <= i < |t| && t[i] == c;
        assert id[i + 4] == c;
      }
      forall i | 4 <= i < |id| ensures id[i] in t {
        assert t[i - 4] == id[i];
      }
    }
  }

  /** Where the bytes of an identity "evt_" + t live: in a directory named by the first two characters of t. */
  lemma {:induction false} KeysAre(t: string)
    requires ValidId("evt_" + t)
    ensures EventKey(Filesystem, "evt_" + t) == t[..2] + "/evt_" + t + ".json"
    ensures TombstoneKey(Filesystem, "evt_" + t) == "_redactions/" + t[..2] + "/evt_" + t + ".json"
    ensures EventKey(S3, "evt_" + t) == "canonical/events/" + t[..2] + "/evt_" + t + ".json"
    ensures TombstoneKey(S3, "evt_" + t) == "canonical/redactions/events/" + t[..2] + "/evt_" + t + ".json"
  {
    var id := "evt_" + t;
    assert id[4..6] == t[..2];
    assert Shard(id) == t[..2] + "/evt_" + t + ".json" by {
      assert "/" + id == "/evt_" + t;
    }
  }

  lemma {:induction false} ShardInjective(a: string, b: string)
    requires ValidId(a) && ValidId(b) && Shard(a) == Shard(b)
    ensures a == b
  {
    assert Shard(a)[3..|Shard(a)| - 5] == a;
    assert Shard(b)[3..|Shard(b)| - 5] == b;
  }

  lemma {:induction false} PrefixCancels(p: string, a: string, b: string)
    requires p + a == p + b
    ensures a == b
  {
    assert (p + a)[|p|..] == a && (p + b)[|p|..] == b;
  }

  /** Distinct identities have distinct keys. */
  lemma {:induction false} KeysInjective(layout: Layout, a: string, b: string)
    requires ValidId(a) && ValidId(b) && a != b
    ensures EventKey(layout, a) != EventKey(layout, b) && TombstoneKey(layout, a) != TombstoneKey(layout, b)
  {
    hide Shard;
    if EventKey(layout, a) == EventKey(layout, b) {
      if layout.S3? { PrefixCancels("canonical/events/", Shard(a), Shard(b)); }
      ShardInjective(a, b);
    }
    if TombstoneKey(layout, a) == TombstoneKey(layout, b) {
      PrefixCancels(if layout.S3? then "canonical/redactions/events/" else "_redactions/", Shard(a), Shard(b));
      ShardInjective(a, b);
    }
  }

  /** No event key is a tombstone key. */
  lemma {:induction false} KeysApart(layout: Layout, a: string, b: string)
    requires ValidId(a) && ValidId(b)
    ensures EventKey(layout, a) != TombstoneKey(layout, b)
  {
    match layout
    case Filesystem =>
      assert EventKey(layout, a)[2] == '/';
      assert TombstoneKey(layout, b)[2] == 'e';
    case S3 =>
      assert EventKey(layout, a)[10] == 'e';
      assert TombstoneKey(layout, b)[10] == 'r';
  }

  /** The files hold exactly what the abstract store holds, encoded. */
  ghost predicate Represents(c: Codec, layout: Layout, files: map<string, Bytes>, a: Abstract) {
    && (forall id :: id in a.events ==> ValidId(id) && a.events[id].eventId == id)
    && (forall id :: id in a.tombstones ==> ValidId(id))
    && (forall id :: ValidId(id) ==> HoldsEvent(c, layout, files, a, id) && HoldsTombstone(c, layout, files, a, id))
  }

  ghost predicate HoldsEvent(c: Codec, layout: Layout, files: map<string, Bytes>, a: Abstract, id: string)
    requires ValidId(id)
  {
    && (EventKey(layout, id) in files <==> id in a.events)
    && (id in a.events && EventKey(layout, id) in files ==> files[EventKey(layout, id)] == c.encode(a.events[id]))
  }

  ghost predicate HoldsTombstone(c: Codec, layout: Layout, files: map<string, Bytes>, a: Abstract, id: string)
    requires ValidId(id)
  {
    && (TombstoneKey(layout, id) in files <==> id in a.tombstones)
    && (id in a.tombstones && TombstoneKey(layout, id) in files ==>
        files[TombstoneKey(layout, id)] == c.encodeTombstone(a.tombstones[id]))
  }

  lemma {:induction false} AddEvent(c: Codec, layout: Layout, files: map<string, Bytes>, a: Abstract, e: Event)
    requires Represents(c, layout, files, a) && ValidId(e.eventId)
    ensures Represents(c, layout, files[EventKey(layout, e.eventId) := c.encode(e)],
                       a.(events := a.events[e.eventId := e]))
  {
    hide ValidId, EventKey, TombstoneKey;
    forall id | ValidId(id) && id != e.eventId ensures EventKey(layout, id) != EventKey(layout, e.eventId) {
      KeysInjective(layout, id, e.eventId);
    }
    forall id | ValidId(id) ensures TombstoneKey(layout, id) != EventKey(layout, e.eventId) {
      KeysApart(layout, e.eventId, id);
    }
    var files', a' := files[EventKey(layout, e.eventId) := c.encode(e)], a.(events := a.events[e.eventId := e]);
    forall id | ValidId(id) ensures HoldsEvent(c, layout, files', a', id) && HoldsTombstone(c, layout, files', a', id) {
      assert HoldsEvent(c, layout, files, a, id) && HoldsTombstone(c, layout, files, a, id);
    }
  }

  lemma {:induction false} AddTombstone(c: Codec, layout: Layout, files: map<string, Bytes>, a: Abstract, id0: string,
                                        t: Tombstone)
    requires Represents(c, layout, files, a) && ValidId(id0)
    ensures Represents(c, layout, files[TombstoneKey(layout, id0) := c.encodeTombstone(t)],
                       a.(tombstones := a.tombstones[id0 := t]))
  {
    hide ValidId, EventKey, TombstoneKey;
    forall id | ValidId(id) && id != id0 ensures TombstoneKey(layout, id) != TombstoneKey(layout, id0) {
      KeysInjective(layout, id, id0);
    }
    forall id | ValidId(id) ensures EventKey(layout, id) != TombstoneKey(layout, id0) {
      KeysApart(layout, id, id0);
    }
    var files', a' := files[TombstoneKey(layout, id0) := c.encodeTombstone(t)],
        a.(tombstones := a.tombstones[id0 := t]);
    forall id | ValidId(id) ensures HoldsEvent(c, layout, files', a', id) && HoldsTombstone(c, layout, files', a', id) {
      assert HoldsEvent(c, layout, files, a, id) && HoldsTombstone(c, layout, files, a, id);
    }
  }

  lemma {:induction false} DropEvent(c: Codec, layout: Layout, files: map<string, Bytes>, a: Abstract, id0: string)
    requires Represents(c, layout, files, a) && ValidId(id0)
    ensures Represents(c, layout, files - {EventKey(layout, id0)}, a.(events := a.events - {id0}))
  {
    hide ValidId, EventKey, TombstoneKey;
    forall id | ValidId(id) && id != id0 ensures EventKey(layout, id) != EventKey(layout, id0) {
      KeysInjective(layout, id, id0);
    }
    forall id | ValidId(id) ensures TombstoneKey(layout, id) != EventKey(layout, id0) {
      KeysApart(layout, id0, id);
    }
    var files', a' := files - {EventKey(layout, id0)}, a.(events := a.events - {id0});
    forall id | ValidId(id) ensures HoldsEvent(c, layout, files', a', id) && HoldsTombstone(c, layout, files', a', id) {
      assert HoldsEvent(c, layout, files, a, id) && HoldsTombstone(c, layout, files, a, id);
    }
  }
}
