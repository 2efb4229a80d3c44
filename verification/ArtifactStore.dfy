/** The content-addressed artifact store with redaction tombstones.

    The digest is any function of bytes; nothing is assumed about collisions, neither of
    digests nor of the shortened identities taken from them. Blobs are keyed by digest. */
module ArtifactStore {
  import opened Basics

  type Hash = Bytes -> string

  datatype Request = Request(reason: string, authority: string, redactedAt: string, requestRef: Option<string>)
  datatype Manifest = Manifest(artifactId: string, digest: string, size: nat, mediaType: string)
  datatype Tombstone = Tombstone(artifactId: string, request: Request, digest: string, size: nat, mediaType: string)

  datatype Store = Store(blobs: map<string, Bytes>, manifests: map<string, Manifest>,
                         tombstones: map<string, Tombstone>)

  const EMPTY := Store(map[], map[], map[])

  datatype Op =
    | Put(data: Bytes, mediaType: string)
    | Read(id: string)
    | Verify(vid: string)
    | Redact(rid: string, request: Request)
    /** A redaction that stops after publishing its tombstone. */
    | CrashedRedact(cid: string, crashed: Request)

  datatype Result =
    | Stored(manifest: Manifest)
    | Content(data: Bytes)
    | Verified
    | Erased(tombstone: Tombstone)
    | Crashed
    | ArtifactRedacted
    | IntegrityError
    | NotFound
    | BadRequest

  /** `art_` and the first 32 characters of the digest. */
  function ArtifactId(digest: string): string {
    "art_" + if |digest| <= 32 then digest else digest[..32]
  }

  predicate Complete(r: Request) {
    r.reason != "" && r.authority != "" && r.redactedAt != ""
  }

  function TombstoneFor(m: Manifest, id: string, r: Request): Tombstone {
    Tombstone(id, r, m.digest, m.size, m.mediaType)
  }

  function PutBytes(h: Hash, s: Store, data: Bytes, mediaType: string): (Store, Result) {
    var digest := h(data);
    var id := ArtifactId(digest);
    var manifest := Manifest(id, digest, |data|, mediaType);
    if id in s.tombstones then (s, ArtifactRedacted)
    else if digest in s.blobs && s.blobs[digest] != data then (s, IntegrityError)
    else
      var stored := s.(blobs := s.blobs[digest := data]);
      if id in s.manifests then (stored, if s.manifests[id] == manifest then Stored(manifest) else IntegrityError)
      else (stored.(manifests := s.manifests[id := manifest]), Stored(manifest))
  }

  function ReadBytes(s: Store, id: string): Result {
    if id in s.tombstones then ArtifactRedacted
    else if id !in s.manifests || s.manifests[id].digest !in s.blobs then NotFound
    else Content(s.blobs[s.manifests[id].digest])
  }

  function VerifyArtifact(h: Hash, s: Store, id: string): Result {
    if id !in s.manifests then NotFound
    else match ReadBytes(s, id)
      case Content(data) =>
        if h(data) != s.manifests[id].digest || |data| != s.manifests[id].size then IntegrityError else Verified
      case other => other
  }

  function RedactArtifact(s: Store, id: string, r: Request, crash: bool): (Store, Result) {
    if !Complete(r) then (s, BadRequest)
    else if id !in s.manifests then (s, NotFound)
    else
      var t := TombstoneFor(s.manifests[id], id, r);
      if id in s.tombstones && s.tombstones[id] != t then (s, IntegrityError)
      else
        var marked := s.(tombstones := s.tombstones[id := t]);
        if crash then (marked, Crashed)
        else (marked.(blobs := s.blobs - {s.manifests[id].digest}), Erased(t))
  }

  function Apply(h: Hash, s: Store, op: Op): (Store, Result) {
    match op
    case Put(data, mediaType) => PutBytes(h, s, data, mediaType)
    case Read(id) => (s, ReadBytes(s, id))
    case Verify(id) => (s, VerifyArtifact(h, s, id))
    case Redact(id, r) => RedactArtifact(s, id, r, false)
    case CrashedRedact(id, r) => RedactArtifact(s, id, r, true)
  }

  function RunOps(h: Hash, s: Store, ops: seq<Op>): Store {
    if ops == [] then s else Apply(h, RunOps(h, s, ops[..|ops| - 1]), ops[|ops| - 1]).0
  }

  /** A run does its operations one after the other. */
  lemma {:induction false} RunCompose(h: Hash, s: Store, a: seq<Op>, b: seq<Op>, op: Op)
    ensures RunOps(h, s, a + b) == RunOps(h, RunOps(h, s, a), b) && RunOps(h, s, [op]) == Apply(h, s, op).0
  {
    hide Apply;
    assert [op][..0] == [];
    if b == [] {
      assert a + b == a;
    } else {
      var n := |b| - 1;
      RunCompose(h, s, a, b[..n], op);
      assert (a + b)[..|a + b| - 1] == a + b[..n] && (a + b)[|a + b| - 1] == b[n];
    }
  }

  /** What every reachable store satisfies. */
  ghost predicate Sound(h: Hash, s: Store) {
    && (forall id :: id in s.manifests ==> s.manifests[id].artifactId == id && ArtifactId(s.manifests[id].digest) == id)
    && (forall d :: d in s.blobs ==> h(s.blobs[d]) == d)
    && (forall id :: id in s.manifests && id !in s.tombstones ==> s.manifests[id].digest in s.blobs)
    && (forall id :: id in s.manifests && s.manifests[id].digest in s.blobs ==>
        |s.blobs[s.manifests[id].digest]| == s.manifests[id].size)
    && (forall id :: id in s.tombstones ==> id in s.manifests)
  }

  lemma {:induction false} PutKeepsSound(h: Hash, s: Store, data: Bytes, mediaType: string)
    requires Sound(h, s)
    ensures Sound(h, PutBytes(h, s, data, mediaType).0)
  {
    hide ArtifactId;
  }

  lemma {:induction false} RedactKeepsSound(h: Hash, s: Store, id: string, r: Request, crash: bool)
    requires Sound(h, s)
    ensures Sound(h, RedactArtifact(s, id, r, crash).0)
  {
    hide ArtifactId, Complete;
  }

  lemma {:induction false} RunIsSound(h: Hash, s: Store, ops: seq<Op>)
    requires Sound(h, s)
    ensures Sound(h, RunOps(h, s, ops))
  {
    hide PutBytes, RedactArtifact, ReadBytes, VerifyArtifact, Sound;
    if ops != [] {
      RunIsSound(h, s, ops[..|ops| - 1]);
      var before := RunOps(h, s, ops[..|ops| - 1]);
      match ops[|ops| - 1]
      case Put(data, mediaType) => PutKeepsSound(h, before, data, mediaType);
      case Redact(id, r) => RedactKeepsSound(h, before, id, r, false);
      case CrashedRedact(id, r) => RedactKeepsSound(h, before, id, r, true);
      case Read(_) =>
      case Verify(_) =>
    }
  }

  /** The store holds `data` under `id`, or `id` has a tombstone. */
  ghost predicate Holds(s: Store, id: string, data: Bytes) {
    id in s.tombstones || (id in s.manifests && s.manifests[id].digest in s.blobs
                           && s.blobs[s.manifests[id].digest] == data)
  }

  /** No operation changes what another identity, or this one before redaction, holds. */
  lemma {:induction false} StepHolds(h: Hash, s: Store, id: string, data: Bytes, op: Op)
    requires Sound(h, s) && Holds(s, id, data)
    ensures Holds(Apply(h, s, op).0, id, data)
    ensures id !in s.tombstones && op != Redact(id, RequestOf(op)) && op != CrashedRedact(id, RequestOf(op)) ==>
            id !in Apply(h, s, op).0.tombstones
  {
    hide ArtifactId, Complete;
    match op
    case Redact(other, r) =>
      assert other in s.manifests && other != id && id in s.manifests ==>
             s.manifests[other].digest != s.manifests[id].digest by {
        assert other in s.manifests ==> ArtifactId(s.manifests[other].digest) == other;
        assert id in s.manifests ==> ArtifactId(s.manifests[id].digest) == id;
      }
    case Put(d, _) =>
    case Read(_) =>
    case Verify(_) =>
    case CrashedRedact(_, _) =>
  }

  function RequestOf(op: Op): Request {
    match op
    case Redact(_, r) => r
    case CrashedRedact(_, r) => r
    case _ => Request("", "", "", None)
  }

  lemma {:induction false} RunHolds(h: Hash, s: Store, id: string, data: Bytes, ops: seq<Op>)
    requires Sound(h, s) && Holds(s, id, data)
    ensures Holds(RunOps(h, s, ops), id, data) && Sound(h, RunOps(h, s, ops))
    ensures id !in s.tombstones && id in RunOps(h, s, ops).tombstones ==>
              exists i :: 0 <= i < |ops| && (ops[i] == Redact(id, RequestOf(ops[i]))
                                             || ops[i] == CrashedRedact(id, RequestOf(ops[i])))
  {
    hide Apply, Sound, Holds;
    if ops != [] {
      var front := ops[..|ops| - 1];
      RunHolds(h, s, id, data, front);
      RunIsSound(h, s, front);
      RunIsSound(h, s, ops);
      StepHolds(h, RunOps(h, s, front), id, data, ops[|ops| - 1]);
      assert forall i :: 0 <= i < |front| ==> front[i] == ops[i];
    }
  }

  /** A stored artifact reads back exactly, and verifies, after any operations that do not redact its identity. */
  lemma {:induction false} StoredReadsBack(h: Hash, s: Store, data: Bytes, mediaType: string, ops: seq<Op>)
    requires Sound(h, s) && PutBytes(h, s, data, mediaType).1.Stored?
    ensures var id := PutBytes(h, s, data, mediaType).1.manifest.artifactId;
            var b := RunOps(h, PutBytes(h, s, data, mediaType).0, ops);
            && ReadBytes(b, id) == (if id in b.tombstones then ArtifactRedacted else Content(data))
            && (id in b.tombstones <==> VerifyArtifact(h, b, id) != Verified)
            && (id in b.tombstones ==>
                  exists i :: 0 <= i < |ops| && (ops[i] == Redact(id, RequestOf(ops[i]))
                                                 || ops[i] == CrashedRedact(id, RequestOf(ops[i]))))
  {
    hide Apply, ArtifactId, RunOps;
    var s' := PutBytes(h, s, data, mediaType).0;
    var id := PutBytes(h, s, data, mediaType).1.manifest.artifactId;
    PutKeepsSound(h, s, data, mediaType);
    assert Holds(s', id, data);
    RunHolds(h, s', id, data, ops);
  }

  /** The identity carries this manifest and this tombstone. */
  ghost predicate Marked(s: Store, id: string, m: Manifest, t: Tombstone) {
    id in s.manifests && s.manifests[id] == m && id in s.tombstones && s.tombstones[id] == t
  }

  /** Marks are never changed, and once a marked identity's blob is gone nothing puts it back. */
  lemma {:induction false} StepKeepsMarks(h: Hash, s: Store, op: Op, id: string, m: Manifest, t: Tombstone)
    requires Sound(h, s) && Marked(s, id, m, t)
    ensures var s' := Apply(h, s, op).0; Marked(s', id, m, t) && (m.digest !in s.blobs ==> m.digest !in s'.blobs)
  {
    hide ArtifactId, Complete;
  }

  lemma {:induction false} RunKeepsMarks(h: Hash, s: Store, ops: seq<Op>, id: string, m: Manifest, t: Tombstone)
    requires Sound(h, s) && Marked(s, id, m, t)
    ensures var s' := RunOps(h, s, ops);
            Sound(h, s') && Marked(s', id, m, t) && (m.digest !in s.blobs ==> m.digest !in s'.blobs)
  {
    hide Apply, Sound, Marked;
    RunIsSound(h, s, ops);
    if ops != [] {
      var front := ops[..|ops| - 1];
      RunKeepsMarks(h, s, front, id, m, t);
      StepKeepsMarks(h, RunOps(h, s, front), ops[|ops| - 1], id, m, t);
    }
  }

  /** Whatever happens after an interrupted redaction, retrying it with the same request succeeds,
      and from then on no sequence of operations brings the bytes back. */
  lemma {:induction false} RetryFinishes(h: Hash, s: Store, id: string, r: Request, ops: seq<Op>, later: seq<Op>)
    requires Sound(h, s) && RedactArtifact(s, id, r, true).1.Crashed?
    ensures id in s.manifests
    ensures var done := RedactArtifact(RunOps(h, RedactArtifact(s, id, r, true).0, ops), id, r, false);
            done.1 == Erased(TombstoneFor(s.manifests[id], id, r))
              && s.manifests[id].digest !in RunOps(h, done.0, later).blobs
  {
    hide Complete, RunOps, Sound;
    var m, t := s.manifests[id], TombstoneFor(s.manifests[id], id, r);
    var torn := RedactArtifact(s, id, r, true).0;
    RedactKeepsSound(h, s, id, r, true);
    RunKeepsMarks(h, torn, ops, id, m, t);
    var b := RunOps(h, torn, ops);
    RedactKeepsSound(h, b, id, r, false);
    RunKeepsMarks(h, RedactArtifact(b, id, r, false).0, later, id, m, t);
  }

  /** A completed redaction erases for good, with or without a crash before it. */
  lemma {:induction false} ErasedForGood(h: Hash, s: Store, id: string, r: Request, later: seq<Op>)
    requires Sound(h, s) && RedactArtifact(s, id, r, false).1.Erased?
    ensures id in s.manifests && s.manifests[id].digest !in RunOps(h, RedactArtifact(s, id, r, false).0, later).blobs
  {
    hide Complete, RunOps, Sound;
    RedactKeepsSound(h, s, id, r, false);
    RunKeepsMarks(h, RedactArtifact(s, id, r, false).0, later, id, s.manifests[id],
                  TombstoneFor(s.manifests[id], id, r));
  }

  // ------------------------------------------------------------ each operation's answers, one by one

  /** An artifact identity is "art_" and the first 32 characters of the digest, or all of a shorter one. */
  lemma {:induction false} ArtifactIdIs(digest: string)
    ensures var id := ArtifactId(digest);
            && |id| == 4 + (if |digest| < 32 then |digest| else 32) && id[..4] == "art_"
            && id[4..] <= digest
  {
  }

  /** What a put answers: "redacted" exactly under a tombstone, "stored" exactly if neither other bytes nor another
      manifest are in the way, and a bad integrity otherwise. */
  lemma {:induction false} PutIff(h: Hash, s: Store, data: Bytes, mediaType: string)
    ensures var id := ArtifactId(h(data)); var r := PutBytes(h, s, data, mediaType).1;
            && (r == ArtifactRedacted <==> id in s.tombstones)
            && (r.Stored? <==>
                  && id !in s.tombstones
                  && (h(data) in s.blobs ==> s.blobs[h(data)] == data)
                  && (id in s.manifests ==>
                        && s.manifests[id].artifactId == id && s.manifests[id].digest == h(data)
                        && s.manifests[id].size == |data| && s.manifests[id].mediaType == mediaType))
            && (r.Stored? ==> r.manifest == Manifest(id, h(data), |data|, mediaType))
            && (r == ArtifactRedacted || r == IntegrityError || r.Stored?)
  {
    hide ArtifactId;
  }

  /** What a put writes: bytes and manifest if it succeeds, the bytes alone if only the manifest is in the way. */
  lemma {:induction false} PutWrites(h: Hash, s: Store, data: Bytes, mediaType: string)
    ensures var id := ArtifactId(h(data)); var done := PutBytes(h, s, data, mediaType);
            && done.0.tombstones == s.tombstones
            && done.0.manifests == (if done.1.Stored? then s.manifests[id := done.1.manifest] else s.manifests)
            && done.0.blobs == (if id in s.tombstones || (h(data) in s.blobs && s.blobs[h(data)] != data) then s.blobs
                                else s.blobs[h(data) := data])
  {
    hide ArtifactId;
  }

  /** What a read answers; it never changes the store. */
  lemma {:induction false} ReadIff(h: Hash, s: Store, id: string, data: Bytes)
    ensures Apply(h, s, Read(id)) == (s, ReadBytes(s, id))
    ensures ReadBytes(s, id) == ArtifactRedacted <==> id in s.tombstones
    ensures ReadBytes(s, id) == Content(data) <==>
              id !in s.tombstones && id in s.manifests && s.manifests[id].digest in s.blobs
              && s.blobs[s.manifests[id].digest] == data
    ensures ReadBytes(s, id) == ArtifactRedacted || ReadBytes(s, id) == NotFound || ReadBytes(s, id).Content?
  {
  }

  /** An artifact verifies exactly if it can be read and its bytes have the digest and the size of its manifest. */
  lemma {:induction false} VerifyIff(h: Hash, s: Store, id: string)
    ensures Apply(h, s, Verify(id)) == (s, VerifyArtifact(h, s, id))
    ensures VerifyArtifact(h, s, id) == Verified <==>
              && id in s.manifests && id !in s.tombstones && s.manifests[id].digest in s.blobs
              && h(s.blobs[s.manifests[id].digest]) == s.manifests[id].digest
              && |s.blobs[s.manifests[id].digest]| == s.manifests[id].size
    ensures VerifyArtifact(h, s, id) == ArtifactRedacted <==> id in s.manifests && id in s.tombstones
    ensures VerifyArtifact(h, s, id) == NotFound <==>
              id !in s.manifests || (id !in s.tombstones && s.manifests[id].digest !in s.blobs)
    ensures VerifyArtifact(h, s, id) in {Verified, ArtifactRedacted, NotFound, IntegrityError}
  {
  }

  /** What a redaction answers, how it marks the identity and that it erases the bytes unless it is stopped. */
  lemma {:induction false} RedactIff(s: Store, id: string, r: Request, crash: bool)
    ensures var done := RedactArtifact(s, id, r, crash);
            var complete := r.reason != "" && r.authority != "" && r.redactedAt != "";
            && (done.1 == BadRequest <==> !complete)
            && (done.1 == NotFound <==> complete && id !in s.manifests)
            && (done.1 == IntegrityError <==>
                  complete && id in s.manifests && id in s.tombstones
                  && s.tombstones[id] !=
                     Tombstone(id, r, s.manifests[id].digest, s.manifests[id].size, s.manifests[id].mediaType))
            && (done.1 in {BadRequest, NotFound, IntegrityError} ==> done.0 == s)
            && (done.1 !in {BadRequest, NotFound, IntegrityError} ==>
                  var m := s.manifests[id]; var t := Tombstone(id, r, m.digest, m.size, m.mediaType);
                  && done.1 == (if crash then Crashed else Erased(t))
                  && done.0.manifests == s.manifests && done.0.tombstones == s.tombstones[id := t]
                  && done.0.blobs == if crash then s.blobs else s.blobs - {m.digest})
  {
  }

  lemma {:induction false} RunKeepsManifest(h: Hash, s: Store, ops: seq<Op>, id: string)
    requires id in s.manifests
    ensures id in RunOps(h, s, ops).manifests && RunOps(h, s, ops).manifests[id] == s.manifests[id]
  {
    hide ArtifactId, Complete;
    if ops != [] {
      RunKeepsManifest(h, s, ops[..|ops| - 1], id);
    }
  }

  /** Putting the same bytes again is accepted, with the same manifest, for as long as there is no tombstone. */
  lemma {:induction false} PutAgain(h: Hash, s: Store, data: Bytes, mediaType: string, ops: seq<Op>)
    requires Sound(h, s) && PutBytes(h, s, data, mediaType).1.Stored?
    ensures var first := PutBytes(h, s, data, mediaType);
            var b := RunOps(h, first.0, ops);
            PutBytes(h, b, data, mediaType) ==
              (b, if first.1.manifest.artifactId in b.tombstones then ArtifactRedacted else first.1)
  {
    hide Apply, ArtifactId, RunOps, PutBytes;
    var s' := PutBytes(h, s, data, mediaType).0;
    var id := ArtifactId(h(data));
    PutIff(h, s, data, mediaType);
    PutWrites(h, s, data, mediaType);
    PutKeepsSound(h, s, data, mediaType);
    RunHolds(h, s', id, data, ops);
    RunKeepsManifest(h, s', ops, id);
    var b := RunOps(h, s', ops);
    PutIff(h, b, data, mediaType);
    PutWrites(h, b, data, mediaType);
    if id !in b.tombstones {
      assert b.blobs[h(data) := data] == b.blobs && b.manifests[id := b.manifests[id]] == b.manifests;
    }
  }

  // ------------------------------------------------------------ the store itself

  class Artifacts {
    const hash: Hash
    var blobs: map<string, Bytes>
    var manifests: map<string, Manifest>
    var tombstones: map<string, Tombstone>

    ghost function Value(): Store
      reads this
    {
      Store(blobs, manifests, tombstones)
    }

    constructor (hash: Hash)
      ensures Value() == EMPTY && this.hash == hash && Sound(hash, Value())
    {
      this.hash := hash;
      blobs, manifests, tombstones := map[], map[], map[];
    }

    /** `put_bytes`: publish the blob, compare if it was there, then the manifest likewise. */
    method Put(data: Bytes, mediaType: string) returns (r: Result)
      modifies this
      ensures (Value(), r) == PutBytes(hash, old(Value()), data, mediaType)
    {
      hide ArtifactId;
      var digest := hash(data);
      var id := ArtifactId(digest);
      if id in tombstones {
        return ArtifactRedacted;
      }
      var manifest := Manifest(id, digest, |data|, mediaType);
      if digest !in blobs {
        blobs := blobs[digest := data];
      } else if blobs[digest] != data {
        return IntegrityError;
      }
      assert blobs == old(blobs)[digest := data];
      if id !in manifests {
        manifests := manifests[id := manifest];
      } else if manifests[id] != manifest {
        return IntegrityError;
      }
      r := Stored(manifest);
    }

    method Read(id: string) returns (r: Result)
      ensures r == ReadBytes(Value(), id)
    {
      if id in tombstones {
        return ArtifactRedacted;
      }
      if id !in manifests {
        return NotFound;
      }
      var digest := manifests[id].digest;
      r := if digest in blobs then Content(blobs[digest]) else NotFound;
    }

    method Verify(id: string) returns (r: Result)
      ensures r == VerifyArtifact(hash, Value(), id)
    {
      if id !in manifests {
        return NotFound;
      }
      r := Read(id);
      if r.Content? {
        var intact := hash(r.data) == manifests[id].digest && |r.data| == manifests[id].size;
        r := if intact then Verified else IntegrityError;
      }
    }

    /** `redact`; with `crash` the process stops before the blob is unlinked. */
    method Redact(id: string, q: Request, crash: bool) returns (r: Result)
      modifies this
      ensures (Value(), r) == RedactArtifact(old(Value()), id, q, crash)
    {
      hide Complete;
      if !Complete(q) {
        return BadRequest;
      }
      if id !in manifests {
        return NotFound;
      }
      var record := TombstoneFor(manifests[id], id, q);
      if id !in tombstones {
        tombstones := tombstones[id := record];
      } else if tombstones[id] != record {
        return IntegrityError;
      }
      assert tombstones == old(tombstones)[id := record];
      if crash {
        return Crashed;
      }
      blobs := blobs - {manifests[id].digest};
      r := Erased(record);
    }
  }
}
