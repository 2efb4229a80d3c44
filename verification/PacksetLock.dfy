/** Canonical packset locks: building one from mounted manifests and revisions, and
    validating one against a catalog that may hold more packs than the lock.

    The manifest digest is any function `h` into 64 lowercase hex characters. */
module PacksetLock {
  import opened Basics
  import opened Ordering
  import opened PackGraph

  const CONTRACT_VERSION := "dkg.packset-lock.v1"

  datatype Record = Record(packId: string, revision: string, algorithm: string, digest: string,
                           dependencies: seq<Dependency>)
  datatype Lock = Lock(contractVersion: string, packs: seq<Record>)
  datatype Built = Ok(lock: Lock) | Rejected(error: PackError)

  type Hash = Manifest -> string

  // ------------------------------------------------------------ field shapes

  predicate IdChar(c: char) {
    'A' <= c <= 'Z' || 'a' <= c <= 'z' || '0' <= c <= '9' || c == '_' || c == '-'
  }

  /** `^pack_[A-Za-z0-9_-]{16,}$` */
  predicate PackIdOk(s: string) {
    |s| >= 21 && s[..5] == "pack_" && forall i :: 5 <= i < |s| ==> IdChar(s[i])
  }

  /** `^[0-9a-f]{64}$` */
  predicate Hex64(s: string) {
    |s| == 64 && forall i :: 0 <= i < |s| ==> '0' <= s[i] <= '9' || 'a' <= s[i] <= 'f'
  }

  predicate IsSpace(c: char) {
    var n := c as int;
    9 <= n <= 13 || 28 <= n <= 32 || n == 0x85 || n == 0xA0 || n == 0x1680 || 0x2000 <= n <= 0x200A
    || n == 0x2028 || n == 0x2029 || n == 0x202F || n == 0x205F || n == 0x3000
  }

  /** `s.strip()` is not empty. */
  predicate NonBlank(s: string) {
    exists i :: 0 <= i < |s| && !IsSpace(s[i])
  }

  function DependencyIds(deps: seq<Dependency>): seq<string> {
    seq(|deps|, i requires 0 <= i < |deps| => deps[i].packId)
  }

  function PackIds(packs: seq<Record>): seq<string> {
    seq(|packs|, i requires 0 <= i < |packs| => packs[i].packId)
  }

  // ------------------------------------------------------------ the lock a mounted set has

  /** `_resolved_dependencies`: the mounted dependencies in target order. */
  function ResolvedDependencies(m: Manifest, mounted: set<string>): (r: seq<Dependency>)
    ensures DependencyIds(r) == SortedSet(Targets(m) * mounted)
  {
    var ts := SortedSet(Targets(m) * mounted);
    assert forall i :: 0 <= i < |ts| ==> ts[i] in Elements(ts);
    seq(|ts|, i requires 0 <= i < |ts| => Dependency(ts[i], RequiredFlag(m.dependencies, ts[i])))
  }

  /** It lists exactly the manifest's mounted dependencies, flags included. */
  lemma {:induction false} ResolvedExact(m: Manifest, mounted: set<string>, d: Dependency)
    requires DistinctTargets(m)
    ensures d in ResolvedDependencies(m, mounted) <==> d in m.dependencies && d.packId in mounted
  {
    hide StrictlySorted;
    var r := ResolvedDependencies(m, mounted);
    var ts := SortedSet(Targets(m) * mounted);
    assert |r| == |ts|;
    if d in r {
      var i :| 0 <= i < |r| && r[i] == d;
      assert DependencyIds(r)[i] == ts[i] && ts[i] in Elements(ts);
      var e :| e in m.dependencies && e.packId == ts[i];
      FlagIsTheFlag(m.dependencies, e);
      assert e == d;
    }
    if d in m.dependencies && d.packId in mounted {
      assert d.packId in Elements(ts);
      var i :| 0 <= i < |ts| && ts[i] == d.packId;
      FlagIsTheFlag(m.dependencies, d);
      assert r[i] == d;
    }
  }

  function RecordOf(h: Hash, ms: Catalog, revisions: map<string, string>, p: string): Record
    requires p in ms && p in revisions
  {
    Record(p, revisions[p], "sha256", h(ms[p]), ResolvedDependencies(ms[p], ms.Keys))
  }

  function RecordsOf(h: Hash, ms: Catalog, revisions: map<string, string>, ids: seq<string>): seq<Record>
    requires Elements(ids) <= ms.Keys <= revisions.Keys
  {
    assert forall i :: 0 <= i < |ids| ==> ids[i] in Elements(ids);
    seq(|ids|, i requires 0 <= i < |ids| => RecordOf(h, ms, revisions, ids[i]))
  }

  function LockOf(h: Hash, ms: Catalog, revisions: map<string, string>): Lock
    requires ms.Keys <= revisions.Keys
  {
    Lock(CONTRACT_VERSION, RecordsOf(h, ms, revisions, SortedSet(ms.Keys)))
  }

  /** What a set of manifests and revisions must satisfy to be locked. */
  ghost predicate Mountable(ms: Catalog, revisions: map<string, string>) {
    && ms.Keys != {}
    && DependencyLaw(ms)
    && revisions.Keys == ms.Keys
    && forall p :: p in revisions ==> NonBlank(revisions[p])
  }

  /** The record loop of the builder. */
  method CollectRecords(h: Hash, ms: Catalog, revisions: map<string, string>) returns (ok: bool, packs: seq<Record>)
    requires revisions.Keys == ms.Keys
    ensures ok <==> forall p :: p in revisions ==> NonBlank(revisions[p])
    ensures ok ==> packs == LockOf(h, ms, revisions).packs
  {
    hide StrictlySorted, NonBlank, RecordOf;
    packs := [];
    var ids := SortedSet(ms.Keys);
    for i := 0 to |ids|
      invariant |packs| == i
      invariant forall j :: 0 <= j < i ==>
                ids[j] in ms && NonBlank(revisions[ids[j]]) && packs[j] == RecordOf(h, ms, revisions, ids[j])
    {
      var p := ids[i];
      assert p in ms by { assert p in Elements(ids); }
      if !NonBlank(revisions[p]) {
        return false, packs;
      }
      packs := packs + [RecordOf(h, ms, revisions, p)];
    }
    forall p | p in revisions ensures NonBlank(revisions[p]) { assert p in Elements(ids); }
    ok := true;
  }

  /** `build_packset_lock`. */
  method BuildPacksetLock(h: Hash, ms: Catalog, revisions: map<string, string>) returns (r: Built)
    ensures r.Ok? <==> Mountable(ms, revisions)
    ensures r.Ok? ==> r.lock == LockOf(h, ms, revisions)
  {
    hide DependencyLaw, StrictlySorted, NonBlank, RecordOf;
    if |ms.Keys| == 0 {
      return Rejected(LockRejected("packset lock requires at least one mounted pack"));
    }
    var checked := ValidatePackDependencyGraph(ms);
    if checked.Fail? {
      return Rejected(checked.error);
    }
    if ms.Keys - revisions.Keys != {} {
      assert revisions.Keys != ms.Keys;
      return Rejected(LockRejected("missing exact revision for mounted pack(s)"));
    }
    if revisions.Keys - ms.Keys != {} {
      assert revisions.Keys != ms.Keys;
      return Rejected(LockRejected("unresolved revision pack(s) are not mounted"));
    }
    assert revisions.Keys == ms.Keys;
    var ok, packs := CollectRecords(h, ms, revisions);
    if !ok {
      return Rejected(LockRejected("a pack requires a non-empty exact revision"));
    }
    r := Ok(Lock(CONTRACT_VERSION, packs));
  }

  // ------------------------------------------------------------ reading a lock back

  ghost predicate RecordShape(r: Record) {
    && PackIdOk(r.packId)
    && NonBlank(r.revision)
    && r.algorithm == "sha256"
    && Hex64(r.digest)
    && (forall i :: 0 <= i < |r.dependencies| ==> PackIdOk(r.dependencies[i].packId))
    && StrictlySorted(DependencyIds(r.dependencies))
  }

  ghost predicate LockShape(lock: Lock) {
    && lock.contractVersion == CONTRACT_VERSION
    && lock.packs != []
    && (forall i :: 0 <= i < |lock.packs| ==> RecordShape(lock.packs[i]))
    && StrictlySorted(PackIds(lock.packs))
  }

  function Revisions(packs: seq<Record>): map<string, string> {
    if packs == [] then map[]
    else
      var last := packs[|packs| - 1];
      Revisions(packs[..|packs| - 1])[last.packId := last.revision]
  }

  lemma {:induction false} RevisionsLookup(packs: seq<Record>)
    requires NoDuplicates(PackIds(packs))
    ensures Revisions(packs).Keys == Elements(PackIds(packs))
    ensures forall i :: 0 <= i < |packs| ==>
            packs[i].packId in Revisions(packs) && Revisions(packs)[packs[i].packId] == packs[i].revision
  {
    if packs != [] {
      var front := packs[..|packs| - 1];
      assert PackIds(packs) == PackIds(front) + [packs[|packs| - 1].packId];
      assert NoDuplicates(PackIds(front)) by {
        assert forall i :: 0 <= i < |front| ==> PackIds(front)[i] == PackIds(packs)[i];
      }
      RevisionsLookup(front);
      forall i | 0 <= i < |front| ensures packs[i].packId in Revisions(packs)
             && Revisions(packs)[packs[i].packId] == packs[i].revision {
        assert front[i] == packs[i];
        assert PackIds(packs)[i] != PackIds(packs)[|front|];
      }
    }
  }

  /** A duplicate-free list equals its sorted form exactly when it is strictly sorted. */
  lemma {:induction false} SortedFormIff(ids: seq<string>)
    requires NoDuplicates(ids)
    ensures Sort(StringLe, ids) == ids <==> StrictlySorted(ids)
  {
    SortOfDistinct(ids);
    if StrictlySorted(ids) {
      StrictlySortedUnique(ids, SortedSet(Elements(ids)));
    }
  }

  /** `_validate_lock_record_shape`. */
  method CheckRecordShape(r: Record) returns (ok: bool)
    ensures ok <==> RecordShape(r)
  {
    hide NonBlank, PackIdOk, Hex64, StrictlySorted;
    if !PackIdOk(r.packId) || !NonBlank(r.revision) || r.algorithm != "sha256" || !Hex64(r.digest) {
      return false;
    }
    var ids: seq<string> := [];
    for i := 0 to |r.dependencies|
      invariant ids == DependencyIds(r.dependencies)[..i] && NoDuplicates(ids)
      invariant forall j :: 0 <= j < i ==> PackIdOk(r.dependencies[j].packId)
    {
      var target := r.dependencies[i].packId;
      if !PackIdOk(target) {
        return false;
      }
      if target in ids {
        RepeatBreaks(DependencyIds(r.dependencies), i, target);
        return false;
      }
      ids := ids + [target];
    }
    assert ids == DependencyIds(r.dependencies);
    SortedFormIff(ids);
    ok := Sort(StringLe, ids) == ids;
  }

  lemma {:induction false} RepeatBreaks(ids: seq<string>, i: nat, x: string)
    requires i < |ids| && ids[i] == x && x in ids[..i]
    ensures !StrictlySorted(ids)
  {
    var j :| 0 <= j < i && ids[..i][j] == x;
    assert ids[j] == ids[i];
  }

  /** `pack_revisions_from_lock`. */
  method PackRevisionsFromLock(lock: Lock) returns (ok: bool, byPack: map<string, string>)
    ensures ok <==> LockShape(lock)
    ensures ok ==> byPack == Revisions(lock.packs)
  {
    hide RecordShape, StrictlySorted;
    byPack := map[];
    if lock.contractVersion != CONTRACT_VERSION || lock.packs == [] {
      return false, byPack;
    }
    var sequence: seq<string> := [];
    for i := 0 to |lock.packs|
      invariant sequence == PackIds(lock.packs)[..i] && NoDuplicates(sequence)
      invariant byPack == Revisions(lock.packs[..i]) && byPack.Keys == Elements(sequence)
      invariant forall j :: 0 <= j < i ==> RecordShape(lock.packs[j])
    {
      var record := lock.packs[i];
      var shaped := CheckRecordShape(record);
      if !shaped {
        return false, byPack;
      }
      if record.packId in byPack {
        RepeatBreaks(PackIds(lock.packs), i, record.packId);
        return false, byPack;
      }
      assert lock.packs[..i + 1][..i] == lock.packs[..i];
      byPack := byPack[record.packId := record.revision];
      sequence := sequence + [record.packId];
    }
    assert sequence == PackIds(lock.packs) && lock.packs[..|lock.packs|] == lock.packs;
    SortedFormIff(sequence);
    ok := Sort(StringLe, sequence) == sequence;
  }

  // ------------------------------------------------------------ validating a lock

  ghost predicate WellNamed(ids: set<string>) {
    forall p :: p in ids ==> PackIdOk(p)
  }

  ghost predicate HexHash(h: Hash) {
    forall m :: Hex64(h(m))
  }

  function Restrict(catalog: Catalog, ids: set<string>): Catalog {
    map p | p in catalog && p in ids :: catalog[p]
  }

  /** The lock is the one built from the catalog restricted to its own pack ids and revisions. */
  ghost predicate IsBuiltFrom(h: Hash, lock: Lock, catalog: Catalog) {
    var ids := Elements(PackIds(lock.packs));
    var revisions := Revisions(lock.packs);
    && ids <= catalog.Keys
    && Mountable(Restrict(catalog, ids), revisions)
    && lock == LockOf(h, Restrict(catalog, ids), revisions)
  }

  /** What the checks of the validator amount to, one record at a time. */
  ghost predicate RecordMatches(h: Hash, ms: Catalog, r: Record) {
    && r.packId in ms
    && r.dependencies == ResolvedDependencies(ms[r.packId], ms.Keys)
    && r.digest == h(ms[r.packId])
  }

  ghost predicate Accepted(h: Hash, lock: Lock, catalog: Catalog) {
    var ids := Elements(PackIds(lock.packs));
    && LockShape(lock)
    && ids <= catalog.Keys
    && DependencyLaw(Restrict(catalog, ids))
    && forall i :: 0 <= i < |lock.packs| ==> RecordMatches(h, Restrict(catalog, ids), lock.packs[i])
  }

  lemma {:induction false} AcceptedIsMountable(h: Hash, lock: Lock, catalog: Catalog)
    requires Accepted(h, lock, catalog)
    ensures var ids := Elements(PackIds(lock.packs));
            Restrict(catalog, ids).Keys == ids && Mountable(Restrict(catalog, ids), Revisions(lock.packs))
  {
    hide DependencyLaw, StrictlySorted, NonBlank, PackIdOk, Hex64, RecordMatches;
    var ids := Elements(PackIds(lock.packs));
    var revisions := Revisions(lock.packs);
    assert Restrict(catalog, ids).Keys == ids;
    SortedIsDistinct(PackIds(lock.packs));
    RevisionsLookup(lock.packs);
    assert ids != {} by { assert PackIds(lock.packs)[0] in ids; }
    forall p | p in revisions ensures NonBlank(revisions[p]) {
      var i :| 0 <= i < |lock.packs| && PackIds(lock.packs)[i] == p;
      assert RecordShape(lock.packs[i]);
    }
  }

  lemma {:induction false} MatchingRecordIsBuilt(h: Hash, ms: Catalog, revisions: map<string, string>, r: Record)
    requires RecordShape(r) && RecordMatches(h, ms, r) && r.packId in revisions && revisions[r.packId] == r.revision
    ensures r == RecordOf(h, ms, revisions, r.packId)
  {
  }

  /** Passing every check makes the lock the built one. */
  lemma {:induction false} AcceptedIsBuilt(h: Hash, lock: Lock, catalog: Catalog)
    requires Accepted(h, lock, catalog)
    ensures IsBuiltFrom(h, lock, catalog)
  {
    hide Mountable, DependencyLaw, StrictlySorted, RecordShape, RecordMatches, RecordOf;
    var ids := Elements(PackIds(lock.packs));
    var ms := Restrict(catalog, ids);
    var revisions := Revisions(lock.packs);
    AcceptedIsMountable(h, lock, catalog);
    SortedIsDistinct(PackIds(lock.packs));
    RevisionsLookup(lock.packs);
    StrictlySortedUnique(PackIds(lock.packs), SortedSet(ids));
    var built := LockOf(h, ms, revisions);
    forall i | 0 <= i < |lock.packs| ensures lock.packs[i] == built.packs[i] {
      MatchingRecordIsBuilt(h, ms, revisions, lock.packs[i]);
      assert PackIds(lock.packs)[i] == SortedSet(ids)[i];
    }
    assert lock.packs == built.packs;
  }

  lemma {:induction false} AcceptedIsWellNamed(h: Hash, lock: Lock, catalog: Catalog)
    requires Accepted(h, lock, catalog)
    ensures WellNamed(Elements(PackIds(lock.packs)))
  {
    hide DependencyLaw, StrictlySorted, NonBlank, PackIdOk, Hex64, RecordMatches;
    forall p | p in Elements(PackIds(lock.packs)) ensures PackIdOk(p) {
      var i :| 0 <= i < |lock.packs| && PackIds(lock.packs)[i] == p;
      assert RecordShape(lock.packs[i]);
    }
  }

  lemma {:induction false} SortedIsDistinct(s: seq<string>)
    ensures StrictlySorted(s) ==> NoDuplicates(s)
  {
  }

  lemma {:induction false} BuiltRecordShape(h: Hash, ms: Catalog, revisions: map<string, string>, p: string)
    requires HexHash(h) && WellNamed(ms.Keys) && Mountable(ms, revisions) && p in ms
    ensures RecordShape(RecordOf(h, ms, revisions, p)) && RecordMatches(h, ms, RecordOf(h, ms, revisions, p))
  {
    hide DependencyLaw, NonBlank, PackIdOk, Hex64, StrictlySorted;
    var r := RecordOf(h, ms, revisions, p);
    var ts := SortedSet(Targets(ms[p]) * ms.Keys);
    assert DependencyIds(r.dependencies) == ts;
    forall i | 0 <= i < |r.dependencies| ensures PackIdOk(r.dependencies[i].packId) {
      assert DependencyIds(r.dependencies)[i] == ts[i] && ts[i] in Elements(ts);
    }
  }

  lemma {:induction false} BuiltRecords(h: Hash, ms: Catalog, revisions: map<string, string>, ids: seq<string>)
    requires Elements(ids) <= ms.Keys <= revisions.Keys
    ensures var packs := RecordsOf(h, ms, revisions, ids);
            PackIds(packs) == ids
            && forall i :: 0 <= i < |packs| ==>
              packs[i].packId in revisions && packs[i].revision == revisions[packs[i].packId]
  {
    hide ResolvedDependencies;
    assert forall i :: 0 <= i < |ids| ==> ids[i] in Elements(ids);
  }

  /** The built lock lists the mounted packs, so its revisions are the ones it was built with. */
  lemma {:induction false} BuiltRoundTrip(h: Hash, ms: Catalog, revisions: map<string, string>)
    requires Mountable(ms, revisions)
    ensures var lock := LockOf(h, ms, revisions);
            PackIds(lock.packs) == SortedSet(ms.Keys) && Revisions(lock.packs) == revisions
  {
    hide DependencyLaw, NonBlank, StrictlySorted, Revisions, RecordsOf;
    BuiltRecords(h, ms, revisions, SortedSet(ms.Keys));
    SortedIsDistinct(SortedSet(ms.Keys));
    RevisionsAre(LockOf(h, ms, revisions).packs, revisions);
  }

  lemma {:induction false} RevisionsAre(packs: seq<Record>, revisions: map<string, string>)
    requires NoDuplicates(PackIds(packs)) && Elements(PackIds(packs)) == revisions.Keys
    requires forall i :: 0 <= i < |packs| ==>
             packs[i].packId in revisions && packs[i].revision == revisions[packs[i].packId]
    ensures Revisions(packs) == revisions
  {
    hide Revisions;
    RevisionsLookup(packs);
    forall p | p in revisions ensures p in Revisions(packs) && Revisions(packs)[p] == revisions[p] {
      assert p in Elements(PackIds(packs));
      var i :| 0 <= i < |packs| && PackIds(packs)[i] == p;
    }
  }

  lemma {:induction false} BuiltLockShape(h: Hash, ms: Catalog, revisions: map<string, string>)
    requires HexHash(h) && WellNamed(ms.Keys) && Mountable(ms, revisions)
    ensures var lock := LockOf(h, ms, revisions);
            LockShape(lock) && forall i :: 0 <= i < |lock.packs| ==> RecordMatches(h, ms, lock.packs[i])
  {
    hide DependencyLaw, NonBlank, StrictlySorted, RecordShape, RecordMatches, HexHash, WellNamed, Revisions, RecordOf;
    var lock := LockOf(h, ms, revisions);
    var ids := SortedSet(ms.Keys);
    assert |ids| > 0;
    assert PackIds(lock.packs) == ids by { BuiltRoundTrip(h, ms, revisions); }
    forall i | 0 <= i < |lock.packs| ensures RecordShape(lock.packs[i]) && RecordMatches(h, ms, lock.packs[i]) {
      assert ids[i] in Elements(ids);
      BuiltRecordShape(h, ms, revisions, ids[i]);
    }
  }

  /** The built lock passes every check, whatever else the catalog holds. */
  lemma {:induction false} BuiltIsAccepted(h: Hash, ms: Catalog, revisions: map<string, string>, catalog: Catalog)
    requires HexHash(h) && WellNamed(ms.Keys) && Mountable(ms, revisions)
    requires ms.Keys <= catalog.Keys && Restrict(catalog, ms.Keys) == ms
    ensures Accepted(h, LockOf(h, ms, revisions), catalog)
  {
    hide DependencyLaw, NonBlank, StrictlySorted, RecordShape, RecordMatches, HexHash, WellNamed, Revisions, RecordOf,
      LockOf, LockShape;
    BuiltLockShape(h, ms, revisions);
    BuiltRoundTrip(h, ms, revisions);
    assert Elements(SortedSet(ms.Keys)) == ms.Keys;
  }

  lemma {:induction false} BuiltFromIsAccepted(h: Hash, lock: Lock, catalog: Catalog)
    requires HexHash(h) && IsBuiltFrom(h, lock, catalog) && WellNamed(Elements(PackIds(lock.packs)))
    ensures Accepted(h, lock, catalog)
  {
    hide Mountable, Accepted, PackIdOk;
    var ids := Elements(PackIds(lock.packs));
    var ms := Restrict(catalog, ids);
    assert ms.Keys == ids;
    assert Restrict(catalog, ms.Keys) == ms;
    BuiltIsAccepted(h, ms, Revisions(lock.packs), catalog);
  }

  /** `validate_packset_lock`. */
  method ValidatePacksetLock(h: Hash, lock: Lock, catalog: Catalog) returns (r: Outcome)
    requires HexHash(h)
    ensures r.Pass? <==> IsBuiltFrom(h, lock, catalog) && WellNamed(Elements(PackIds(lock.packs)))
  {
    hide IsBuiltFrom, DependencyLaw, LockShape, RecordMatches, HexHash, WellNamed;
    var ok := CheckLock(h, lock, catalog);
    if ok {
      AcceptedIsBuilt(h, lock, catalog);
      AcceptedIsWellNamed(h, lock, catalog);
      return Pass;
    }
    if IsBuiltFrom(h, lock, catalog) && WellNamed(Elements(PackIds(lock.packs))) {
      BuiltFromIsAccepted(h, lock, catalog);
    }
    r := Fail(LockRejected("packset lock rejected"));
  }

  method CheckLock(h: Hash, lock: Lock, catalog: Catalog) returns (ok: bool)
    ensures ok <==> Accepted(h, lock, catalog)
  {
    hide DependencyLaw, LockShape, RecordMatches;
    var shaped, revisions := PackRevisionsFromLock(lock);
    if !shaped {
      return false;
    }
    LockIds(lock);
    var mounted := revisions.Keys;
    assert mounted == Elements(PackIds(lock.packs));
    if mounted - catalog.Keys != {} {
      assert !(mounted <= catalog.Keys);
      return false;
    }
    assert mounted <= catalog.Keys by { assert forall p :: p in mounted ==> p !in mounted - catalog.Keys; }
    var ms := Restrict(catalog, mounted);
    var law := ValidatePackDependencyGraph(ms);
    if law.Fail? {
      return false;
    }
    for i := 0 to |lock.packs|
      invariant forall j :: 0 <= j < i ==> RecordMatches(h, ms, lock.packs[j])
    {
      var matched := CheckRecord(h, ms, lock.packs[i]);
      if !matched {
        return false;
      }
    }
    ok := true;
  }

  lemma {:induction false} LockIds(lock: Lock)
    requires LockShape(lock)
    ensures Revisions(lock.packs).Keys == Elements(PackIds(lock.packs))
  {
    RevisionsLookup(lock.packs);
  }

  /** The body of the validator's record loop. */
  method CheckRecord(h: Hash, ms: Catalog, r: Record) returns (ok: bool)
    ensures ok <==> RecordMatches(h, ms, r)
  {
    hide StrictlySorted, ResolvedDependencies;
    if r.packId !in ms {
      return false;
    }
    ResolvedAreMounted(ms[r.packId], ms.Keys);
    for i := 0 to |r.dependencies| {
      if r.dependencies[i].packId !in ms {
        return false;
      }
    }
    ok := r.dependencies == ResolvedDependencies(ms[r.packId], ms.Keys) && r.digest == h(ms[r.packId]);
  }

  lemma {:induction false} ResolvedAreMounted(m: Manifest, mounted: set<string>)
    ensures forall i :: 0 <= i < |ResolvedDependencies(m, mounted)| ==>
            ResolvedDependencies(m, mounted)[i].packId in mounted
  {
    hide StrictlySorted;
    var r := ResolvedDependencies(m, mounted);
    var ts := SortedSet(Targets(m) * mounted);
    forall i | 0 <= i < |r| ensures r[i].packId in mounted {
      assert DependencyIds(r)[i] == ts[i];
      assert ts[i] in Elements(ts);
    }
  }

  // ------------------------------------------------------------ the shapes, letter by letter

  /** A pack id is "pack_" and at least sixteen more letters, digits, underscores or hyphens of ASCII. */
  lemma {:induction false} PackIdOkIff(s: string)
    ensures PackIdOk(s) <==>
              && |s| >= 5 + 16 && s[..5] == "pack_"
              && forall c :: c in s[5..] ==>
                   var n := c as int;
                   65 <= n < 65 + 26 || 97 <= n < 97 + 26 || 48 <= n < 48 + 10 || n == 95 || n == 45
  {
    if |s| >= 21 && s[..5] == "pack_" {
      var t := s[5..];
      forall c | c in t && PackIdOk(s) ensures IdChar(c) {
        var i :| 0 <= i < |t| && t[i] == c;
        assert s[i + 5] == c;
      }
      forall i | 5 <= i < |s| ensures s[i] in t {
        assert t[i - 5] == s[i];
      }
    }
  }

  /** A digest is 64 hexadecimal digits in lower case. */
  lemma {:induction false} Hex64Iff(s: string)
    ensures Hex64(s) <==>
              |s| == 64 && forall c :: c in s ==> var n := c as int; 48 <= n < 48 + 10 || 97 <= n < 97 + 6
  {
    forall c | c in s && Hex64(s) ensures '0' <= c <= '9' || 'a' <= c <= 'f' {
      var i :| 0 <= i < |s| && s[i] == c;
    }
    forall i | 0 <= i < |s| ensures s[i] in s {
    }
  }

  /** A revision is blank exactly if it has nothing but white space in it. */
  lemma {:induction false} NonBlankIff(s: string)
    ensures !NonBlank(s) <==> forall c :: c in s ==> c as int in WHITE_SPACE
  {
    forall c | c in s && !NonBlank(s) ensures c as int in WHITE_SPACE {
      var i :| 0 <= i < |s| && s[i] == c;
      IsSpaceIff(s[i]);
    }
    if NonBlank(s) {
      var i :| 0 <= i < |s| && !IsSpace(s[i]);
      IsSpaceIff(s[i]);
      assert s[i] in s;
    }
  }

  lemma {:induction false} IsSpaceIff(c: char)
    ensures IsSpace(c) <==> c as int in WHITE_SPACE
  {
  }

  /** The characters that Python strips. */
  const WHITE_SPACE := {0x9, 0xA, 0xB, 0xC, 0xD, 0x1C, 0x1D, 0x1E, 0x1F, 0x20, 0x85, 0xA0, 0x1680, 0x2000, 0x2001,
                        0x2002, 0x2003, 0x2004, 0x2005, 0x2006, 0x2007, 0x2008, 0x2009, 0x200A, 0x2028, 0x2029,
                        0x202F, 0x205F, 0x3000}

  /** What a built lock says of each mounted pack, field by field. */
  lemma {:induction false} BuiltRecordIs(h: Hash, ms: Catalog, revisions: map<string, string>, r: Record)
    requires Mountable(ms, revisions) && r in LockOf(h, ms, revisions).packs
    ensures LockOf(h, ms, revisions).contractVersion == "dkg.packset-lock.v1"
    ensures r.packId in ms && r.packId in revisions
    ensures r.revision == revisions[r.packId] && r.algorithm == "sha256" && r.digest == h(ms[r.packId])
    ensures forall d :: d in r.dependencies <==> d in ms[r.packId].dependencies && d.packId in ms
  {
    hide StrictlySorted, NonBlank, ResolvedDependencies;
    var ids := SortedSet(ms.Keys);
    var packs := LockOf(h, ms, revisions).packs;
    var i :| 0 <= i < |packs| && packs[i] == r;
    assert ids[i] in Elements(ids);
    assert PackAllowed(ms, r.packId);
    forall d ensures d in r.dependencies <==> d in ms[r.packId].dependencies && d.packId in ms {
      ResolvedExact(ms[r.packId], ms.Keys, d);
    }
  }

  /** The catalog a lock is checked against: the manifests of its own packs. */
  lemma {:induction false} RestrictIs(catalog: Catalog, ids: set<string>, p: string)
    ensures p in Restrict(catalog, ids) <==> p in catalog && p in ids
    ensures p in catalog && p in ids ==> Restrict(catalog, ids)[p] == catalog[p]
  {
  }
}
