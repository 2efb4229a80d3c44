/** The filesystem and the S3 event store, each proved against the abstract machine.

    Both must return the machine's results and leave its state, so they agree with each
    other on every sequence of operations. The remote store is taken to be available. */
module StoreAdapters {
  import opened Basics
  import opened EventStore

  lemma {:induction false} EncodingsDiffer(c: Codec, e: Event, d: Event)
    requires Lawful(c)
    ensures c.encode(e) == c.encode(d) <==> e == d
    ensures c.decode(c.encode(e)) == e
  {
    assert c.decode(c.encode(e)) == e && c.decode(c.encode(d)) == d;
  }

  lemma {:induction false} HeldEvent(c: Codec, layout: Layout, files: map<string, Bytes>, a: Abstract, id: string)
    requires Represents(c, layout, files, a) && ValidId(id)
    ensures EventKey(layout, id) in files <==> id in a.events
    ensures id in a.events ==> files[EventKey(layout, id)] == c.encode(a.events[id]) && a.events[id].eventId == id
    ensures TombstoneKey(layout, id) in files <==> id in a.tombstones
    ensures id in a.tombstones ==> files[TombstoneKey(layout, id)] == c.encodeTombstone(a.tombstones[id])
    ensures id in a.tombstones && Lawful(c) ==> c.decodeTombstone(files[TombstoneKey(layout, id)]) == a.tombstones[id]
  {
    hide ValidId, EventKey, TombstoneKey;
    assert HoldsEvent(c, layout, files, a, id) && HoldsTombstone(c, layout, files, a, id);
  }

  class FilesystemStore {
    const codec: Codec
    var files: map<string, Bytes>
    ghost var model: Abstract

    ghost predicate Valid()
      reads this
    {
      Lawful(codec) && Represents(codec, Filesystem, files, model)
    }

    constructor (codec: Codec)
      requires Lawful(codec)
      ensures Valid() && model == EMPTY && this.codec == codec
    {
      this.codec := codec;
      files, model := map[], EMPTY;
    }

    /** `publish_immutable` as one action. */
    method PublishImmutable(path: string, data: Bytes) returns (published: bool)
      modifies this`files
      ensures published <==> path !in old(files)
      ensures files == if published then old(files)[path := data] else old(files)
    {
      published := path !in files;
      if published {
        files := files[path := data];
      }
    }

    method Commit(e: Event) returns (r: Result)
      requires Valid() && ValidId(e.eventId)
      modifies this
      ensures Valid() && (model, r) == Apply(codec, old(model), Op.Commit(e))
    {
      hide Lawful, Represents, ValidId, EventKey, TombstoneKey;
      HeldEvent(codec, Filesystem, files, model, e.eventId);
      if TombstoneKey(Filesystem, e.eventId) in files {
        return EventRedacted;
      }
      var path := EventKey(Filesystem, e.eventId);
      var data := codec.encode(e);
      AddEvent(codec, Filesystem, files, model, e);
      var published := PublishImmutable(path, data);
      if published {
        model := model.(events := model.events[e.eventId := e]);
        return Accepted(e);
      }
      EncodingsDiffer(codec, model.events[e.eventId], e);
      var existing := codec.decode(files[path]);
      if codec.encode(existing) == data {
        return Accepted(existing);
      }
      r := IdempotencyConflict;
    }

    method Get(id: string) returns (r: Result)
      requires Valid() && ValidId(id)
      ensures (model, r) == Apply(codec, model, Op.Get(id))
    {
      hide Lawful, Represents, ValidId, EventKey, TombstoneKey;
      HeldEvent(codec, Filesystem, files, model, id);
      if TombstoneKey(Filesystem, id) in files {
        return EventRedacted;
      }
      if EventKey(Filesystem, id) !in files {
        return NotFound;
      }
      EncodingsDiffer(codec, model.events[id], model.events[id]);
      r := Found(codec.decode(files[EventKey(Filesystem, id)]));
    }

    method Redact(id: string, q: Request) returns (r: Result)
      requires Valid() && ValidId(id)
      modifies this
      ensures Valid() && (model, r) == Apply(codec, old(model), Op.Redact(id, q))
    {
      hide Lawful, Represents, ValidId, EventKey, TombstoneKey, Complete;
      HeldEvent(codec, Filesystem, files, model, id);
      if !Complete(q) {
        return BadRequest;
      }
      var key := TombstoneKey(Filesystem, id);
      if key in files {
        var existing := codec.decodeTombstone(files[key]);
        return if existing.request == q then Erased(existing) else RedactionConflict;
      }
      if EventKey(Filesystem, id) !in files {
        return NotFound;
      }
      EncodingsDiffer(codec, model.events[id], model.events[id]);
      var event := codec.decode(files[EventKey(Filesystem, id)]);
      var tombstone := TombstoneFor(codec, event, q);
      AddTombstone(codec, Filesystem, files, model, id, tombstone);
      var published := PublishImmutable(key, codec.encodeTombstone(tombstone));
      if !published {
        assert false;
      }
      model := model.(tombstones := model.tombstones[id := tombstone]);
      DropEvent(codec, Filesystem, files, model, id);
      files := files - {EventKey(Filesystem, id)};
      model := model.(events := model.events - {id});
      r := Erased(tombstone);
    }

    method Perform(op: Op) returns (r: Result)
      requires Valid() && ValidOp(op)
      modifies this
      ensures Valid() && (model, r) == Apply(codec, old(model), op)
    {
      hide Lawful, Represents, ValidId, Apply;
      match op {
        case Commit(e) => r := Commit(e);
        case Get(id) => r := Get(id);
        case Redact(id, q) => r := Redact(id, q);
      }
    }
  }

  predicate ValidOp(op: Op) {
    match op
    case Commit(e) => ValidId(e.eventId)
    case Get(id) => ValidId(id)
    case Redact(id, _) => ValidId(id)
  }

  datatype PutOutcome = Created | Replayed | KeyConflict

  /** `_S3ObjectBackend` over one bucket and prefix. */
  class S3Backend {
    var objects: map<string, Bytes>

    constructor ()
      ensures objects == map[]
    {
      objects := map[];
    }

    /** `If-None-Match: *` (section 13.1.2 of RFC 9110): the write happens only if the key has no representation. */
    method PutIfAbsent(key: string, data: Bytes) returns (created: bool)
      modifies this
      ensures created <==> key !in old(objects)
      ensures objects == if created then old(objects)[key := data] else old(objects)
    {
      created := key !in objects;
      if created {
        objects := objects[key := data];
      }
    }

    method PutImmutable(key: string, data: Bytes) returns (r: PutOutcome)
      modifies this
      ensures r.Created? <==> key !in old(objects)
      ensures r.Replayed? <==> key in old(objects) && old(objects)[key] == data
      ensures objects == if r.Created? then old(objects)[key := data] else old(objects)
    {
      var created := PutIfAbsent(key, data);
      if created {
        return Created;
      }
      r := if objects[key] == data then Replayed else KeyConflict;
    }

    method Delete(key: string)
      modifies this
      ensures objects == old(objects) - {key}
    {
      objects := objects - {key};
    }
  }

  class S3Store {
    const codec: Codec
    const backend: S3Backend
    ghost var model: Abstract

    ghost predicate Valid()
      reads this, backend
    {
      Lawful(codec) && Represents(codec, S3, backend.objects, model)
    }

    constructor (codec: Codec)
      requires Lawful(codec)
      ensures Valid() && model == EMPTY && this.codec == codec && fresh(backend)
    {
      this.codec := codec;
      backend := new S3Backend();
      model := EMPTY;
    }

    method Commit(e: Event) returns (r: Result)
      requires Valid() && ValidId(e.eventId)
      modifies this, backend
      ensures Valid() && (model, r) == Apply(codec, old(model), Op.Commit(e))
    {
      hide Lawful, Represents, ValidId, EventKey, TombstoneKey;
      HeldEvent(codec, S3, backend.objects, model, e.eventId);
      if TombstoneKey(S3, e.eventId) in backend.objects {
        return EventRedacted;
      }
      AddEvent(codec, S3, backend.objects, model, e);
      var put := backend.PutImmutable(EventKey(S3, e.eventId), codec.encode(e));
      if put.Created? {
        model := model.(events := model.events[e.eventId := e]);
      } else {
        EncodingsDiffer(codec, model.events[e.eventId], e);
      }
      r := if put.KeyConflict? then IdempotencyConflict else Accepted(e);
    }

    method Get(id: string) returns (r: Result)
      requires Valid() && ValidId(id)
      ensures (model, r) == Apply(codec, model, Op.Get(id))
    {
      hide Lawful, Represents, ValidId, EventKey, TombstoneKey;
      HeldEvent(codec, S3, backend.objects, model, id);
      if TombstoneKey(S3, id) in backend.objects {
        return EventRedacted;
      }
      if EventKey(S3, id) !in backend.objects {
        return NotFound;
      }
      EncodingsDiffer(codec, model.events[id], model.events[id]);
      r := Found(codec.decode(backend.objects[EventKey(S3, id)]));
    }

    method Redact(id: string, q: Request) returns (r: Result)
      requires Valid() && ValidId(id)
      modifies this, backend
      ensures Valid() && (model, r) == Apply(codec, old(model), Op.Redact(id, q))
    {
      hide Lawful, Represents, ValidId, EventKey, TombstoneKey, Complete;
      HeldEvent(codec, S3, backend.objects, model, id);
      if !Complete(q) {
        return BadRequest;
      }
      var key := TombstoneKey(S3, id);
      if key in backend.objects {
        var existing := codec.decodeTombstone(backend.objects[key]);
        return if existing.request == q then Erased(existing) else RedactionConflict;
      }
      var got := Get(id);
      if !got.Found? {
        return got;
      }
      var tombstone := TombstoneFor(codec, got.event, q);
      AddTombstone(codec, S3, backend.objects, model, id, tombstone);
      var put := backend.PutImmutable(key, codec.encodeTombstone(tombstone));
      model := model.(tombstones := model.tombstones[id := tombstone]);
      DropEvent(codec, S3, backend.objects, model, id);
      backend.Delete(EventKey(S3, id));
      model := model.(events := model.events - {id});
      r := Erased(tombstone);
    }

    method Perform(op: Op) returns (r: Result)
      requires Valid() && ValidOp(op)
      modifies this, backend
      ensures Valid() && (model, r) == Apply(codec, old(model), op)
    {
      hide Lawful, Represents, ValidId, Apply;
      match op {
        case Commit(e) => r := Commit(e);
        case Get(id) => r := Get(id);
        case Redact(id, q) => r := Redact(id, q);
      }
    }
  }

  /** Driving both stores with the same operations: they return the same results, those of the abstract machine. */
  method RunBoth(codec: Codec, ops: seq<Op>) returns (local: seq<Result>, remote: seq<Result>)
    requires Lawful(codec) && forall i :: 0 <= i < |ops| ==> ValidOp(ops[i])
    ensures local == remote == RunOps(codec, EMPTY, ops).1
  {
    hide Lawful, Represents, ValidOp, Apply;
    var fs := new FilesystemStore(codec);
    var s3 := new S3Store(codec);
    local, remote := [], [];
    for i := 0 to |ops|
      invariant fs.Valid() && s3.Valid() && fs.codec == codec && s3.codec == codec
      invariant fresh(fs) && fresh(s3) && fresh(s3.backend)
      invariant (fs.model, local) == RunOps(codec, EMPTY, ops[..i])
      invariant (s3.model, remote) == RunOps(codec, EMPTY, ops[..i])
    {
      assert ops[..i + 1][..i] == ops[..i];
      var a := fs.Perform(ops[i]);
      var b := s3.Perform(ops[i]);
      local, remote := local + [a], remote + [b];
    }
    assert ops[..|ops|] == ops;
  }
}
