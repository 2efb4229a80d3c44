/** Puts and redactions of the artifact store that interleave.

    A put checks the tombstone, publishes the blob and then the manifest; a redaction
    publishes its tombstone and then unlinks the blob. Any operation may stop between two
    of its file-system calls. As in `ArtifactStore`, the digest is any function of bytes. */
module ArtifactRaces {
  import opened Basics
  import opened ArtifactStore

  /** How far an operation has come: past the tombstone check, past the blob, or past its own tombstone. */
  datatype Phase =
    | Checked(data: Bytes, mediaType: string)
    | BlobOut(data: Bytes, mediaType: string)
    | TombstoneOut(id: string)

  /** The store and the operations under way, by the agent that runs them. */
  datatype World = World(store: Store, running: map<string, Phase>)

  datatype Step =
    | CheckTombstone(agent: string, data: Bytes, mediaType: string)
    | PublishBlob(agent: string)
    | PublishManifest(agent: string)
    | PublishTombstone(agent: string, id: string, request: Request)
    | Unlink(agent: string)
    | Stop(agent: string)

  function ManifestOf(h: Hash, data: Bytes, mediaType: string): Manifest {
    Manifest(ArtifactId(h(data)), h(data), |data|, mediaType)
  }

  function Ended(w: World, a: string): World {
    w.(running := w.running - {a})
  }

  /** The blob is there with other bytes: the put raises. */
  predicate Collides(h: Hash, s: Store, data: Bytes) {
    h(data) in s.blobs && s.blobs[h(data)] != data
  }

  function AfterBlob(h: Hash, w: World, a: string, data: Bytes, mediaType: string): World {
    if Collides(h, w.store, data) then Ended(w, a)
    else World(w.store.(blobs := w.store.blobs[h(data) := data]), w.running[a := BlobOut(data, mediaType)])
  }

  function AfterManifest(h: Hash, w: World, a: string, data: Bytes, mediaType: string): World {
    var m := ManifestOf(h, data, mediaType);
    if m.artifactId in w.store.manifests then Ended(w, a)
    else Ended(w, a).(store := w.store.(manifests := w.store.manifests[m.artifactId := m]))
  }

  ghost predicate Next(h: Hash, w: World, s: Step, w': World) {
    match s
    case CheckTombstone(a, data, mediaType) =>
      a !in w.running && ArtifactId(h(data)) !in w.store.tombstones
      && w' == w.(running := w.running[a := Checked(data, mediaType)])
    case PublishBlob(a) =>
      a in w.running && w.running[a].Checked?
      && w' == AfterBlob(h, w, a, w.running[a].data, w.running[a].mediaType)
    case PublishManifest(a) =>
      a in w.running && w.running[a].BlobOut?
      && w' == AfterManifest(h, w, a, w.running[a].data, w.running[a].mediaType)
    case PublishTombstone(a, id, r) =>
      a !in w.running && RedactArtifact(w.store, id, r, true).1.Crashed?
      && w' == World(RedactArtifact(w.store, id, r, true).0, w.running[a := TombstoneOut(id)])
    case Unlink(a) =>
      a in w.running && w.running[a].TombstoneOut? && w.running[a].id in w.store.manifests
      && w' == Ended(w, a).(store := w.store.(blobs := w.store.blobs - {w.store.manifests[w.running[a].id].digest}))
    case Stop(a) => a in w.running && w' == Ended(w, a)
  }

  const START := World(EMPTY, map[])

  ghost predicate Follows(h: Hash, ws: seq<World>, steps: seq<Step>) {
    && |ws| == |steps| + 1
    && forall i, j :: 0 <= i < |steps| && j == i + 1 && j < |ws| ==> Next(h, ws[i], steps[i], ws[j])
  }

  ghost predicate Run(h: Hash, ws: seq<World>, steps: seq<Step>) {
    Follows(h, ws, steps) && ws[0] == START
  }

  // ------------------------------------------------------------ whole operations

  /** A put that nothing disturbs does what the store function says. */
  lemma {:induction false} UndisturbedPut(h: Hash, w: World, a: string, data: Bytes, mediaType: string, w1: World,
                                          w2: World, w3: World)
    requires Next(h, w, CheckTombstone(a, data, mediaType), w1) && Next(h, w1, PublishBlob(a), w2)
    requires if Collides(h, w.store, data) then w3 == w2 else Next(h, w2, PublishManifest(a), w3)
    ensures w3 == w.(store := PutBytes(h, w.store, data, mediaType).0)
  {
    hide ArtifactId;
    assert w1.running - {a} == w.running && w2.running - {a} == w.running;
    if !Collides(h, w.store, data) && ArtifactId(h(data)) in w.store.manifests {
      assert w3.store == w2.store;
    }
  }

  /** A redaction that nothing disturbs does what the store function says. */
  lemma {:induction false} UndisturbedRedaction(h: Hash, w: World, a: string, id: string, r: Request, w1: World,
                                                w2: World)
    requires Next(h, w, PublishTombstone(a, id, r), w1) && Next(h, w1, Unlink(a), w2)
    ensures RedactArtifact(w.store, id, r, false).1.Erased?
    ensures w2 == w.(store := RedactArtifact(w.store, id, r, false).0)
  {
    hide Complete;
    assert w1.running - {a} == w.running;
  }

  // ------------------------------------------------------------ what every interleaving keeps

  /** A put past its blob finds its own bytes there until its identity is redacted; a redaction has its tombstone. */
  ghost predicate Kept(h: Hash, s: Store, p: Phase) {
    match p
    case Checked(_, _) => true
    case BlobOut(data, _) =>
      ArtifactId(h(data)) in s.tombstones || (h(data) in s.blobs && s.blobs[h(data)] == data)
    case TombstoneOut(id) => id in s.tombstones && id in s.manifests
  }

  /** Identities fit digests, blobs fit theirs, and an artifact without a tombstone has its bytes in full. */
  ghost predicate SoundStore(h: Hash, s: Store) {
    && (forall id :: id in s.manifests ==> ArtifactId(s.manifests[id].digest) == id)
    && (forall d :: d in s.blobs ==> h(s.blobs[d]) == d)
    && (forall id :: id in s.tombstones ==> id in s.manifests)
    && (forall id :: id in s.manifests && id !in s.tombstones ==> InFull(s, id))
  }

  ghost predicate InFull(s: Store, id: string) {
    && id in s.manifests && s.manifests[id].digest in s.blobs
    && |s.blobs[s.manifests[id].digest]| == s.manifests[id].size
  }

  ghost predicate SoundWorld(h: Hash, w: World) {
    SoundStore(h, w.store) && forall a :: a in w.running ==> Kept(h, w.store, w.running[a])
  }

  /** What one step does to the bytes: only an unlink takes any away, of a tombstoned artifact. */
  lemma {:induction false} StepBytes(h: Hash, w: World, s: Step, w': World)
    requires SoundWorld(h, w) && Next(h, w, s, w')
    ensures w.store.tombstones.Keys <= w'.store.tombstones.Keys
    ensures forall id :: id in w.store.manifests ==>
              id in w'.store.manifests && w'.store.manifests[id] == w.store.manifests[id]
    ensures forall d :: d in w.store.blobs && ArtifactId(d) !in w'.store.tombstones ==>
              d in w'.store.blobs && w'.store.blobs[d] == w.store.blobs[d]
  {
    hide ArtifactId, Complete;
    if s.Unlink? {
      assert Kept(h, w.store, w.running[s.agent]);
    }
  }

  lemma {:induction false} StepKeepsStore(h: Hash, w: World, s: Step, w': World)
    requires SoundWorld(h, w) && Next(h, w, s, w')
    ensures SoundStore(h, w'.store)
  {
    hide ArtifactId, Complete;
    StepBytes(h, w, s, w');
    forall id | id in w'.store.manifests && id !in w'.store.tombstones ensures InFull(w'.store, id) {
      if id in w.store.manifests {
        assert InFull(w.store, id);
      } else {
        assert Kept(h, w.store, w.running[s.agent]);
      }
    }
  }

  lemma {:induction false} StepKeepsSound(h: Hash, w: World, s: Step, w': World)
    requires SoundWorld(h, w) && Next(h, w, s, w')
    ensures SoundWorld(h, w')
  {
    hide ArtifactId, Complete, SoundStore;
    StepKeepsStore(h, w, s, w');
    StepBytes(h, w, s, w');
    forall a | a in w'.running ensures Kept(h, w'.store, w'.running[a]) {
      if a in w.running { assert Kept(h, w.store, w.running[a]); }
    }
  }

  lemma {:induction false} FollowsSound(h: Hash, ws: seq<World>, steps: seq<Step>, k: nat)
    requires Follows(h, ws, steps) && SoundWorld(h, ws[0]) && k < |ws|
    ensures SoundWorld(h, ws[k])
  {
    hide Next, SoundWorld;
    if k > 0 {
      FollowsSound(h, ws, steps, k - 1);
      StepKeepsSound(h, ws[k - 1], steps[k - 1], ws[k]);
    }
  }

  /** In every interleaving, stops included, digests and identities fit and an artifact without a tombstone has its
      bytes in full. */
  lemma {:induction false} RaceIsSound(h: Hash, ws: seq<World>, steps: seq<Step>, k: nat)
    requires Run(h, ws, steps) && k < |ws|
    ensures SoundWorld(h, ws[k])
  {
    hide Next;
    FollowsSound(h, ws, steps, k);
  }

  lemma {:induction false} StepHolds(h: Hash, w: World, s: Step, w': World, id: string, data: Bytes)
    requires SoundWorld(h, w) && Next(h, w, s, w') && Holds(w.store, id, data)
    ensures Holds(w'.store, id, data)
  {
    hide ArtifactId, Next, Kept;
    StepBytes(h, w, s, w');
  }

  /** The manifest step of a put that returns its manifest, rather than raising. */
  ghost predicate Returns(h: Hash, w: World, s: Step) {
    && s.PublishManifest? && s.agent in w.running && w.running[s.agent].BlobOut?
    && var m := ManifestOf(h, w.running[s.agent].data, w.running[s.agent].mediaType);
       m.artifactId in w.store.manifests ==> w.store.manifests[m.artifactId] == m
  }

  lemma {:induction false} ReturnHolds(h: Hash, w: World, s: Step, w': World)
    requires SoundWorld(h, w) && Next(h, w, s, w') && Returns(h, w, s)
    ensures Holds(w'.store, ArtifactId(h(w.running[s.agent].data)), w.running[s.agent].data)
  {
    hide ArtifactId;
    assert Kept(h, w.store, w.running[s.agent]);
  }

  /** In every interleaving, what a put returned for reads back exactly at every later moment, until its identity
      has a tombstone. */
  lemma {:induction false} ReturnedReadsBack(h: Hash, ws: seq<World>, steps: seq<Step>, k: nat, m: nat)
    requires Run(h, ws, steps) && k < m < |ws| && Returns(h, ws[k], steps[k])
    ensures var data := ws[k].running[steps[k].agent].data; var id := ArtifactId(h(data));
            ReadBytes(ws[m].store, id) == if id in ws[m].store.tombstones then ArtifactRedacted else Content(data)
  {
    hide Next, SoundWorld, ArtifactId;
    var data := ws[k].running[steps[k].agent].data;
    ReturnedHolds(h, ws, steps, k, m);
  }

  lemma {:induction false} ReturnedHolds(h: Hash, ws: seq<World>, steps: seq<Step>, k: nat, m: nat)
    requires Run(h, ws, steps) && k < m < |ws| && Returns(h, ws[k], steps[k])
    ensures var data := ws[k].running[steps[k].agent].data; Holds(ws[m].store, ArtifactId(h(data)), data)
    decreases m
  {
    hide Next, SoundWorld, ArtifactId, Holds;
    var data := ws[k].running[steps[k].agent].data;
    RaceIsSound(h, ws, steps, m - 1);
    if m == k + 1 {
      ReturnHolds(h, ws[k], steps[k], ws[m]);
    } else {
      ReturnedHolds(h, ws, steps, k, m - 1);
      StepHolds(h, ws[m - 1], steps[m - 1], ws[m], ArtifactId(h(data)), data);
    }
  }

  // ------------------------------------------------------------ bytes that come back

  /** A tombstone stands over the artifact with this digest, and its bytes are gone. */
  ghost predicate Gone(w: World, digest: string) {
    ArtifactId(digest) in w.store.tombstones && digest !in w.store.blobs
  }

  /** Some put of bytes with this digest is past its tombstone check and has not published its blob. */
  ghost predicate PutUnderWay(h: Hash, w: World, digest: string) {
    exists a :: a in w.running && w.running[a].Checked? && h(w.running[a].data) == digest
  }

  ghost predicate BringsBack(h: Hash, ws: seq<World>, steps: seq<Step>, w: World, digest: string) {
    Follows(h, ws, steps) && ws[0] == w && digest in ws[|steps|].store.blobs
  }

  lemma {:induction false} StepStaysGone(h: Hash, w: World, s: Step, w': World, digest: string)
    requires Next(h, w, s, w') && Gone(w, digest) && !PutUnderWay(h, w, digest)
    ensures Gone(w', digest) && !PutUnderWay(h, w', digest)
  {
    hide ArtifactId, Complete;
    forall a | a in w'.running && w'.running[a].Checked? ensures h(w'.running[a].data) != digest {
    }
  }

  lemma {:induction false} StaysGone(h: Hash, ws: seq<World>, steps: seq<Step>, digest: string, k: nat)
    requires Follows(h, ws, steps) && k < |ws| && Gone(ws[0], digest) && !PutUnderWay(h, ws[0], digest)
    ensures Gone(ws[k], digest) && !PutUnderWay(h, ws[k], digest)
  {
    hide Next, Gone, PutUnderWay;
    if k > 0 {
      StaysGone(h, ws, steps, digest, k - 1);
      StepStaysGone(h, ws[k - 1], steps[k - 1], ws[k], digest);
    }
  }

  /** Erased bytes can come back exactly if a put of them checked the tombstone before it was there and has yet to
      publish its blob. */
  lemma {:induction false} ComesBackIff(h: Hash, w: World, digest: string)
    requires Gone(w, digest)
    ensures (exists ws, steps :: BringsBack(h, ws, steps, w, digest)) <==> PutUnderWay(h, w, digest)
  {
    hide Next, ArtifactId;
    if PutUnderWay(h, w, digest) {
      var a :| a in w.running && w.running[a].Checked? && h(w.running[a].data) == digest;
      var w' := AfterBlob(h, w, a, w.running[a].data, w.running[a].mediaType);
      BlobStep(h, w, a);
      assert BringsBack(h, [w, w'], [PublishBlob(a)], w, digest);
    } else {
      forall ws, steps ensures !BringsBack(h, ws, steps, w, digest) {
        if BringsBack(h, ws, steps, w, digest) {
          StaysGone(h, ws, steps, digest, |steps|);
        }
      }
    }
  }

  lemma {:induction false} BlobStep(h: Hash, w: World, a: string)
    requires a in w.running && w.running[a].Checked?
    ensures Next(h, w, PublishBlob(a), AfterBlob(h, w, a, w.running[a].data, w.running[a].mediaType))
  {
  }

  /** A redaction, also one that retries an interrupted one with the same request, erases the bytes the moment it
      unlinks; from then on `ComesBackIff` decides. */
  lemma {:induction false} UnlinkErases(h: Hash, w: World, a: string, w': World)
    requires SoundWorld(h, w) && Next(h, w, Unlink(a), w')
    ensures var id := w.running[a].id; Gone(w', w.store.manifests[id].digest)
  {
    hide ArtifactId;
    assert Kept(h, w.store, w.running[a]);
  }

  /** Whatever interleaves with an interrupted redaction, its request is accepted again and can erase at once. */
  lemma {:induction false} RetryCanFinish(h: Hash, ws: seq<World>, steps: seq<Step>, k: nat, m: nat, a: string)
    returns (w1: World, w2: World)
    requires Run(h, ws, steps) && k < m < |ws| && steps[k].PublishTombstone? && a !in ws[m].running
    ensures steps[k].id in ws[k].store.manifests
    ensures Next(h, ws[m], PublishTombstone(a, steps[k].id, steps[k].request), w1) && Next(h, w1, Unlink(a), w2)
    ensures Gone(w2, ws[k].store.manifests[steps[k].id].digest)
  {
    hide ArtifactId, Complete, SoundWorld;
    var id, r := steps[k].id, steps[k].request;
    assert Next(h, ws[k], steps[k], ws[k + 1]);
    MarksStay(h, ws, steps, k + 1, m, id);
    w1 := World(RedactArtifact(ws[m].store, id, r, true).0, ws[m].running[a := TombstoneOut(id)]);
    w2 := Ended(w1, a).(store := w1.store.(blobs := w1.store.blobs - {w1.store.manifests[id].digest}));
    RaceIsSound(h, ws, steps, m);
    StepKeepsSound(h, ws[m], PublishTombstone(a, id, r), w1);
    UnlinkErases(h, w1, a, w2);
  }

  lemma {:induction false} MarksStay(h: Hash, ws: seq<World>, steps: seq<Step>, k: nat, m: nat, id: string)
    requires Run(h, ws, steps) && k <= m < |ws| && id in ws[k].store.manifests && id in ws[k].store.tombstones
    ensures id in ws[m].store.manifests && ws[m].store.manifests[id] == ws[k].store.manifests[id]
    ensures id in ws[m].store.tombstones && ws[m].store.tombstones[id] == ws[k].store.tombstones[id]
    decreases m
  {
    hide ArtifactId, Complete;
    if k < m {
      MarksStay(h, ws, steps, k, m - 1, id);
      assert Next(h, ws[m - 1], steps[m - 1], ws[m]);
    }
  }

  const REQUEST := Request("reason", "authority", "today", None)

  /** A put, a second put of the same bytes that has checked the tombstone, and a redaction to its end: the second put
      publishes the erased bytes again. For every hash and all bytes. */
  lemma {:induction false} ErasedComesBack(h: Hash, data: Bytes, mediaType: string)
    returns (ws: seq<World>, steps: seq<Step>)
    ensures Run(h, ws, steps) && |steps| == 7 && steps[5].Unlink? && Gone(ws[6], h(data))
    ensures h(data) in ws[7].store.blobs && ws[7].store.blobs[h(data)] == data
    ensures ArtifactId(h(data)) in ws[7].store.tombstones
  {
    hide Next, ArtifactId;
    var w1, w2, w3 := FirstPut(h, data, mediaType);
    var w4, w5, w6, w7 := SecondPut(h, w3, data, mediaType);
    ws := [START, w1, w2, w3, w4, w5, w6, w7];
    steps := [CheckTombstone("p", data, mediaType), PublishBlob("p"), PublishManifest("p"),
              CheckTombstone("q", data, mediaType), PublishTombstone("x", ArtifactId(h(data)), REQUEST), Unlink("x"),
              PublishBlob("q")];
  }

  function Holding(h: Hash, data: Bytes, mediaType: string): Store {
    Store(map[h(data) := data], map[ArtifactId(h(data)) := ManifestOf(h, data, mediaType)], map[])
  }

  lemma {:induction false} FirstPut(h: Hash, data: Bytes, mediaType: string) returns (w1: World, w2: World, w3: World)
    ensures Next(h, START, CheckTombstone("p", data, mediaType), w1) && Next(h, w1, PublishBlob("p"), w2)
    ensures w2.store.manifests == map[] && h(data) in w2.store.blobs
            && w2.running == map["p" := BlobOut(data, mediaType)]
    ensures Next(h, w2, PublishManifest("p"), w3) && w3 == World(Holding(h, data, mediaType), map[])
  {
    hide ArtifactId;
    w1 := World(EMPTY, map["p" := Checked(data, mediaType)]);
    w2 := AfterBlob(h, w1, "p", data, mediaType);
    w3 := AfterManifest(h, w2, "p", data, mediaType);
    assert map["p" := BlobOut(data, mediaType)] - {"p"} == map[];
  }

  lemma {:induction false} SecondPut(h: Hash, w3: World, data: Bytes, mediaType: string)
    returns (w4: World, w5: World, w6: World, w7: World)
    requires w3 == World(Holding(h, data, mediaType), map[])
    ensures Next(h, w3, CheckTombstone("q", data, mediaType), w4)
    ensures Next(h, w4, PublishTombstone("x", ArtifactId(h(data)), REQUEST), w5)
    ensures Next(h, w5, Unlink("x"), w6) && Gone(w6, h(data)) && Next(h, w6, PublishBlob("q"), w7)
    ensures h(data) in w7.store.blobs && w7.store.blobs[h(data)] == data
    ensures ArtifactId(h(data)) in w7.store.tombstones
  {
    hide ArtifactId;
    var id := ArtifactId(h(data));
    w4 := w3.(running := map["q" := Checked(data, mediaType)]);
    w5 := World(RedactArtifact(w3.store, id, REQUEST, true).0, w4.running["x" := TombstoneOut(id)]);
    w6 := Ended(w5, "x").(store := w5.store.(blobs := w5.store.blobs - {h(data)}));
    w7 := AfterBlob(h, w6, "q", data, mediaType);
  }

  // ------------------------------------------------------------ bytes without a manifest

  /** The bytes are stored and no manifest has their identity, so reading and redacting answer not-found. */
  ghost predicate Unlisted(w: World, digest: string) {
    digest in w.store.blobs && ArtifactId(digest) !in w.store.manifests
  }

  lemma {:induction false} UnlistedIsUnknown(w: World, digest: string, r: Request)
    requires Unlisted(w, digest) && ArtifactId(digest) !in w.store.tombstones && Complete(r)
    ensures RedactArtifact(w.store, ArtifactId(digest), r, false) == (w.store, NotFound)
    ensures ReadBytes(w.store, ArtifactId(digest)) == NotFound
  {
    hide ArtifactId, Complete;
  }

  /** A put of bytes with this digest has published its blob and not its manifest. */
  ghost predicate BlobOnly(h: Hash, w: World, a: string, digest: string) {
    a in w.running && w.running[a].BlobOut? && h(w.running[a].data) == digest
  }

  ghost predicate StoppedShort(h: Hash, w: World, s: Step, digest: string) {
    s.Stop? && BlobOnly(h, w, s.agent, digest)
  }

  lemma {:induction false} StepUnlists(h: Hash, w: World, s: Step, w': World, digest: string)
    requires SoundWorld(h, w) && Next(h, w, s, w') && Unlisted(w', digest)
    ensures Unlisted(w, digest) || BlobOnly(h, w', s.agent, digest)
    ensures forall a :: BlobOnly(h, w, a, digest) ==> BlobOnly(h, w', a, digest) || StoppedShort(h, w, s, digest)
  {
    hide ArtifactId, Complete, Kept;
  }

  /** In every interleaving, bytes without a manifest are left by a put between its two publications: it is still
      there, or it stopped there. */
  lemma {:induction false} UnlistedWasStopped(h: Hash, ws: seq<World>, steps: seq<Step>, k: nat, digest: string)
    requires Run(h, ws, steps) && k < |ws| && Unlisted(ws[k], digest)
    ensures (exists a :: BlobOnly(h, ws[k], a, digest))
            || exists i :: 0 <= i < k && i < |steps| && StoppedShort(h, ws[i], steps[i], digest)
  {
    hide Next, BlobOnly, SoundWorld, StoppedShort;
    if k > 0 {
      RaceIsSound(h, ws, steps, k - 1);
      StepUnlists(h, ws[k - 1], steps[k - 1], ws[k], digest);
      if Unlisted(ws[k - 1], digest) {
        UnlistedWasStopped(h, ws, steps, k - 1, digest);
      }
    }
  }

  /** A put that stops between its two publications leaves bytes that cannot be redacted. */
  lemma {:induction false} StoppedPutLeavesBytes(h: Hash, data: Bytes, mediaType: string)
    returns (ws: seq<World>, steps: seq<Step>)
    ensures Run(h, ws, steps) && ws[|steps|].running == map[] && Unlisted(ws[|steps|], h(data))
    ensures RedactArtifact(ws[|steps|].store, ArtifactId(h(data)), REQUEST, false).1 == NotFound
  {
    hide Next, ArtifactId;
    var w1, w2, w3 := FirstPut(h, data, mediaType);
    var w := Ended(w2, "p");
    StopStep(h, w2, "p");
    ws, steps := [START, w1, w2, w], [CheckTombstone("p", data, mediaType), PublishBlob("p"), Stop("p")];
    assert w.running == map[];
  }

  lemma {:induction false} StopStep(h: Hash, w: World, a: string)
    requires a in w.running
    ensures Next(h, w, Stop(a), Ended(w, a))
  {
  }
}
